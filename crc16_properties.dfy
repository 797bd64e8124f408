/**
 * Properties of the CRC-16 shift register beyond the definitions: what one
 * clock does when only the polynomial differs, how descending-order feeds
 * compose, and worked examples with the default configuration and with other
 * polynomials.
 */
module Crc16Properties {
  import opened Crc16Spec

  // ---------------------------------------------------------------------------
  // The one-bit step

  /** Only bit 7 of the argument of the one-bit feed is looked at: clearing bits 6..0 changes nothing. */
  lemma LowBitsIgnored(crc: bv16, poly: bv16, topBit: bv8)
    ensures ShiftIn(crc, poly, ByteMsb(topBit & 0x80)) == ShiftIn(crc, poly, ByteMsb(topBit))
  {
    assert ByteMsb(topBit & 0x80) == ByteMsb(topBit);
  }

  /**
   * Two registers that start equal and are clocked with the same input bit but
   * different polynomials end up differing by exactly the XOR of the
   * polynomials when the feedback bit is set, and not at all otherwise.
   */
  lemma PolynomialDifference(crc: bv16, p: bv16, q: bv16, x: bool)
    ensures ShiftIn(crc, p, x) ^ ShiftIn(crc, q, x) == if RegisterMsb(crc) != x then p ^ q else 0
  {
    if RegisterMsb(crc) != x {
      assert ((crc << 1) ^ p) ^ ((crc << 1) ^ q) == p ^ q;
    } else {
      assert (crc << 1) ^ (crc << 1) == 0;
    }
  }

  /** Two 16-bit words are equal exactly when their XOR is zero. */
  lemma XorZero(u: bv16, v: bv16)
    ensures u ^ v == 0 <==> u == v
  {
  }

  /**
   * One clock depends on the polynomial exactly when the feedback bit is set:
   * the results for p and q are equal if and only if p == q or the outgoing
   * register bit equals the input bit.
   */
  lemma PolynomialSensitiveStep(crc: bv16, p: bv16, q: bv16, x: bool)
    ensures ShiftIn(crc, p, x) == ShiftIn(crc, q, x) <==> p == q || RegisterMsb(crc) == x
  {
    PolynomialDifference(crc, p, q, x);
    XorZero(ShiftIn(crc, p, x), ShiftIn(crc, q, x));
    XorZero(p, q);
  }

  // ---------------------------------------------------------------------------
  // Descending order

  /** Feeding nothing in descending order leaves the register as it was. */
  lemma FeedReverseEmpty(crc: bv16, poly: bv16)
    ensures FeedBytes(crc, poly, Reverse([])) == crc
  {
  }

  /**
   * Feeding a ++ b in descending order feeds b in descending order first and
   * then a in descending order.
   */
  lemma FeedReverseAppend(crc: bv16, poly: bv16, a: seq<bv8>, b: seq<bv8>)
    ensures FeedBytes(crc, poly, Reverse(a + b)) == FeedBytes(FeedBytes(crc, poly, Reverse(b)), poly, Reverse(a))
  {
    ReverseAppend(a, b);
    FeedBytesAppend(crc, poly, Reverse(b), Reverse(a));
  }

  /** Feeding the reversal of a string in descending order is feeding the string in ascending order. */
  lemma FeedReverseOfReverse(crc: bv16, poly: bv16, s: seq<bv8>)
    ensures FeedBytes(crc, poly, Reverse(Reverse(s))) == FeedBytes(crc, poly, s)
  {
    ReverseReverse(s);
  }

  // ---------------------------------------------------------------------------
  // Worked examples

  /** With the defaults, the two bytes 0x01 0x02 give 0x0E7C ascending and 0x6B4C descending. */
  lemma DefaultOrderMatters()
    ensures FeedBytes(DefaultSeed, DefaultPoly, [0x01, 0x02]) == 0x0E7C
    ensures FeedBytes(DefaultSeed, DefaultPoly, Reverse([0x01, 0x02])) == 0x6B4C
  {
    assert StepByte(0xFFFF, 0x1021, 0x01) == 0xF1D1;
    assert StepByte(0xF1D1, 0x1021, 0x02) == 0x0E7C;
    assert Reverse([0x01, 0x02]) == [0x02, 0x01] by {
      assert [0x01, 0x02][1..] == [0x02];
    }
    assert StepByte(0xFFFF, 0x1021, 0x02) == 0xC1B2;
    assert StepByte(0xC1B2, 0x1021, 0x01) == 0x6B4C;
  }

  /**
   * The order of the bytes can go unnoticed: with the polynomial 0 the register
   * only shifts, so after two bytes the start value has left it and 0x01 0x02
   * gives 0 in both orders.
   */
  lemma ZeroPolynomialForgetsOrder()
    ensures FeedBytes(DefaultSeed, 0, [0x01, 0x02]) == 0
    ensures FeedBytes(DefaultSeed, 0, Reverse([0x01, 0x02])) == 0
  {
    assert StepByte(0xFFFF, 0, 0x01) == 0xFF00;
    assert StepByte(0xFF00, 0, 0x02) == 0;
    assert Reverse([0x01, 0x02]) == [0x02, 0x01] by {
      assert [0x01, 0x02][1..] == [0x02];
    }
    assert StepByte(0xFFFF, 0, 0x02) == 0xFF00;
    assert StepByte(0xFF00, 0, 0x01) == 0;
  }

  /**
   * A different polynomial can give the same CRC even though the XOR branch is
   * taken: from 0xFFFF the first clock of the byte 0x00 has its feedback bit
   * set, yet 0x1021 and 0xE03E both turn 0x00 into 0xE1F0.
   */
  lemma PolynomialCollision()
    ensures RegisterMsb(DefaultSeed) != ByteMsb(0x00)
    ensures FeedBytes(DefaultSeed, DefaultPoly, [0x00]) == 0xE1F0
    ensures FeedBytes(DefaultSeed, 0xE03E, [0x00]) == 0xE1F0
  {
    assert StepByte(0xFFFF, 0x1021, 0x00) == 0xE1F0;
    assert StepByte(0xFFFF, 0xE03E, 0x00) == 0xE1F0;
  }

  /**
   * The receiver's check: "123456789" followed by its CRC 0x29B1, high byte
   * first, brings the register to 0.
   */
  lemma ReceiverCheckKnownAnswer()
    ensures FeedBytes(DefaultSeed, DefaultPoly, [0x31, 0x32, 0x33, 0x34, 0x35, 0x36, 0x37, 0x38, 0x39, 0x29, 0xB1]) == 0
  {
    var frame: seq<bv8> := [0x31, 0x32, 0x33, 0x34, 0x35, 0x36, 0x37, 0x38, 0x39];
    assert frame + [0x29, 0xB1] == [0x31, 0x32, 0x33, 0x34, 0x35, 0x36, 0x37, 0x38, 0x39, 0x29, 0xB1];
    FeedBytesAppend(DefaultSeed, DefaultPoly, frame, [0x29, 0xB1]);
    KnownAnswerCheckString();
    assert StepByte(0x29B1, 0x1021, 0x29) == 0xB100;
    assert StepByte(0xB100, 0x1021, 0xB1) == 0;
  }
}
