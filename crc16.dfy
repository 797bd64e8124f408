/**
 * The CRC16 accumulator class: the running CRC and the polynomial, and the
 * operations that load, advance and read them. The byte buffers the C++ code
 * receives as `const uint8_t*` with a `uint8_t` length are arrays of bv8 with
 * a Len8 length, so one call feeds at most 255 bytes and never writes the buffer.
 */
module WhandallCrc16 {
  import opened Crc16Spec

  /** A uint8_t length: a byte-range call feeds at most 255 bytes. */
  newtype Len8 = x: int | 0 <= x < 256

  /**
   * The whole state is two 16-bit words. The class has no constructor: like the
   * C++ object, a freshly allocated one holds arbitrary values until Init.
   */
  class Crc16 {
    /** the current CRC */
    var crc: bv16
    /** the polynomial, without its x^16 term */
    var polynom: bv16

    /** Starts a new computation: loads the start value and the polynomial, whatever was there before. */
    method Init(initWith: bv16 := DefaultSeed, poly: bv16 := DefaultPoly)
      modifies this
      ensures crc == initWith && polynom == poly
    {
      crc := initWith;
      polynom := poly;
    }

    /**
     * Feeds one bit: bit 0x80 of `topBit`. The C++ steps are kept, on a local
     * copy of the register: XOR the input bit into bit 15, shift left in 16 bits,
     * XOR the polynomial when bit 15 was set; then store the register back.
     */
    method FeedBit(topBit: bv8)
      modifies this`crc
      ensures crc == ShiftIn(old(crc), polynom, ByteMsb(topBit))
      ensures polynom == old(polynom)
    {
      var c := crc ^ (((topBit as bv16) << 8) & 0x8000);
      if c & 0x8000 != 0 {
        c := c << 1;
        c := c ^ polynom;
      } else {
        c := c << 1;
      }
      crc := c;
    }

    /**
     * Feeds the 8 bits of `b`, most significant first, by calling FeedBit on b,
     * b << 1, ..., b << 7 (each shift truncated to 8 bits).
     */
    method FeedByteBits(b: bv8)
      modifies this`crc
      ensures crc == StepByte(old(crc), polynom, b)
      ensures polynom == old(polynom)
    {
      var bits := b;
      for i := 0 to 8
        invariant FeedTopBits(crc, polynom, bits, 8 - i) == StepByte(old(crc), polynom, b)
      {
        FeedBit(bits);
        bits := bits << 1;
      }
    }

    /** Feeds data[0], data[1], ..., data[len-1], in ascending order. */
    method Feed(data: array<bv8>, len: Len8)
      requires len as int <= data.Length
      modifies this`crc
      ensures crc == FeedBytes(old(crc), polynom, data[..len])
      ensures polynom == old(polynom)
      ensures data[..] == old(data[..])
    {
      var n := len;
      var p := 0;
      while n != 0
        invariant 0 <= n <= len
        invariant p == (len - n) as int
        invariant crc == FeedBytes(old(crc), polynom, data[..p])
      {
        n := n - 1;
        var bits := data[p];
        p := p + 1;
        assert data[..p] == data[..p - 1] + [bits];
        FeedBytesSnoc(old(crc), polynom, data[..p - 1], bits);
        FeedByteBits(bits);
      }
    }

    /** Feeds data[len-1], data[len-2], ..., data[0], in descending order, each byte MSB first. */
    method FeedReverse(data: array<bv8>, len: Len8)
      requires len as int <= data.Length
      modifies this`crc
      ensures crc == FeedBytes(old(crc), polynom, Reverse(data[..len]))
      ensures polynom == old(polynom)
      ensures data[..] == old(data[..])
    {
      var n := len;
      var p := len as int - 1;
      while n != 0
        invariant 0 <= n <= len
        invariant p == n as int - 1
        invariant crc == FeedBytes(old(crc), polynom, Reverse(data[n..len]))
      {
        n := n - 1;
        var bits := data[p];
        p := p - 1;
        assert data[n..len] == [bits] + data[n + 1..len];
        assert Reverse(data[n..len]) == Reverse(data[n + 1..len]) + [bits];
        FeedBytesSnoc(old(crc), polynom, Reverse(data[n + 1..len]), bits);
        FeedByteBits(bits);
      }
      assert data[n..len] == data[..len];
    }

    /** Returns the CRC computed so far, changing nothing. */
    method GetCrc() returns (r: bv16)
      ensures r == crc
    {
      r := crc;
    }
  }

  /**
   * A client of the default configuration: init() without arguments, then the
   * nine bytes of "123456789" fed in ascending order.
   */
  method DefaultCheckValue() returns (r: bv16)
    ensures r == 0x29B1
  {
    var c := new Crc16;
    c.Init();
    var a := new bv8[9] [0x31, 0x32, 0x33, 0x34, 0x35, 0x36, 0x37, 0x38, 0x39];
    c.Feed(a, 9);
    r := c.GetCrc();
    assert a[..9] == [0x31, 0x32, 0x33, 0x34, 0x35, 0x36, 0x37, 0x38, 0x39];
    KnownAnswerCheckString();
  }
}
