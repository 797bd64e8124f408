# WhandallCRC16 in Dafny

A model of the `CRC16` accumulator of the WhandallCRC16 Arduino library. The
accumulator computes a bit-serial shift-register CRC over a 16-bit polynomial.
By default it uses the CRC-16-CCITT generator x^16 + x^12 + x^5 + 1 (0x1021,
start value 0xFFFF), which is the 2-byte CRC of the nRF24L01+ transceiver.

The model has three modules:

- `Crc16Spec` (`crc16_spec.dfy`) holds the pure specification:
  - `ShiftIn` is one clock of the register. The feedback bit is the outgoing bit 15 XOR the input bit. The register shifts left within 16 bits, and the polynomial is XORed in when the feedback bit is set.
  - `StepByte` feeds one byte, most significant bit first, through `FeedTopBits`.
  - `FeedBytes` is the left fold of `StepByte` over a byte string.
  - `Reverse` gives the descending order.
  - Known answers for the default configuration close the module.
- `WhandallCrc16` (`crc16.dfy`) holds the class `Crc16`:
  - It has the two fields of the C++ object, `crc` and `polynom`.
  - Its methods follow the C++ member functions statement by statement: the outer `while (len--)` loop, the inner eight-step loop whose `bits <<= 1` truncates to 8 bits, and the one-bit feed whose `crc <<= 1` truncates to 16 bits.
  - Each method is proved against the specification functions.
  - `uint16_t` and `uint8_t` are `bv16` and `bv8`. The `uint8_t` length is the newtype `Len8`, so one call feeds at most 255 bytes.
- `Crc16Properties` (`crc16_properties.dfy`) holds further properties and worked examples:
  - how the polynomial affects one clock;
  - how descending-order feeds compose;
  - the receiver's check, where a frame followed by its CRC gives 0;
  - two examples showing what the accumulator does not guarantee.

Two properties one might expect of this CRC do not hold for every polynomial that `init` accepts:

- **Order.** Feeding two different bytes in ascending and in descending order can give the same CRC. With polynomial 0 the register only shifts, so 0x01 0x02 gives 0 in both orders (`ZeroPolynomialForgetsOrder`). With the default polynomial the two orders differ (`DefaultOrderMatters`).
- **Polynomial.** Two different polynomials can give the same CRC even when the XOR branch is taken. From 0xFFFF, both 0x1021 and 0xE03E turn the byte 0x00 into 0xE1F0 (`PolynomialCollision`). For a single clock the dependence is exact: the results differ if and only if the polynomials differ and the feedback bit is set (`PolynomialSensitiveStep`).

## Model

| member | source | states |
|---|---|---|
| `Crc16Spec.ShiftInAsXorThenShift` | src/WhandallCRC16.cpp:9-17 | The register clock equals the C++ one-bit feed: XOR bit 7 of the argument into bit 15, shift left within 16 bits, then XOR the polynomial when bit 15 was set. |
| `Crc16Spec.ShiftInLowBit` | src/WhandallCRC16.cpp:11-16 | After a clock, bit 0 of the register is bit 0 of the polynomial when the feedback bit was set, and 0 otherwise, because the shift brings in a 0. |
| `Crc16Spec.ShiftedMsb` | src/WhandallCRC16.cpp:22 | After k truncating 8-bit shifts (`bits <<= 1`), bit 7 of the byte is the original bit 7-k, for k = 1..7. |
| `Crc16Spec.StepByteMsbFirst` | src/WhandallCRC16.cpp:21-24 | A byte is fed as eight clocks with its bits 7, 6, ..., 0 in that order. |
| `Crc16Spec.Reverse` | src/WhandallCRC16.h:60-66 | The descending order has exactly as many bytes as the range. |
| `Crc16Spec.FeedBytesEmpty` | src/WhandallCRC16.cpp:19-20 | Feeding a range of length 0 leaves the CRC unchanged. |
| `Crc16Spec.FeedBytesAppend` | src/WhandallCRC16.cpp:19-26 | Feeding a ++ b equals feeding a and then b from the CRC that a left. |
| `Crc16Spec.FeedBytesSnoc` | src/WhandallCRC16.cpp:20-24 | Feeding one more byte at the end is one more byte step on the CRC so far. |
| `Crc16Spec.ReverseAt` | src/WhandallCRC16.h:62 | Position k of the descending order holds byte len-1-k of the range. |
| `Crc16Spec.ReverseReverse` | src/WhandallCRC16.cpp:28-36 | The descending order of the descending order is the original range. |
| `Crc16Spec.ReverseAppend` | src/WhandallCRC16.cpp:28-36 | The descending order of a ++ b is the descending order of b followed by that of a. |
| `Crc16Spec.FeedReverseSnoc` | src/WhandallCRC16.cpp:29-34 | Feeding a range in descending order feeds its last byte first, then the rest in descending order. |
| `Crc16Spec.KnownAnswerZeroByte` | src/WhandallCRC16.h:42-46 | With the defaults (start 0xFFFF, polynomial 0x1021), the byte 0x00 gives 0xE1F0. |
| `Crc16Spec.KnownAnswerCheckString` | src/WhandallCRC16.h:42-46 | With the defaults, "123456789" gives 0x29B1, the CRC-16/CCITT-FALSE check value. |
| `WhandallCrc16.Crc16.Init` | src/WhandallCRC16.cpp:4-7 | After init the CRC is the start value and the polynomial is the given word, whatever the state was before; both default to 0xFFFF and 0x1021. |
| `WhandallCrc16.Crc16.FeedBit` | src/WhandallCRC16.cpp:9-17 | The new CRC is one register clock of the old CRC with input bit 7 of the argument. The polynomial is unchanged. |
| `WhandallCrc16.Crc16.FeedByteBits` | src/WhandallCRC16.cpp:21-24 | The inner loop of eight one-bit feeds of bits, bits << 1, ... (truncated to 8 bits) performs one byte step. The polynomial is unchanged. |
| `WhandallCrc16.Crc16.Feed` | src/WhandallCRC16.cpp:19-26 | The new CRC is the old CRC folded over data[0..len) in ascending order. The polynomial and the buffer are unchanged. |
| `WhandallCrc16.Crc16.FeedReverse` | src/WhandallCRC16.cpp:28-36 | The new CRC is the old CRC folded over data[0..len) in descending order. The polynomial and the buffer are unchanged. |
| `WhandallCrc16.Crc16.GetCrc` | src/WhandallCRC16.cpp:38-40 | Returns the current CRC and changes nothing. |
| `WhandallCrc16.DefaultCheckValue` | src/WhandallCRC16.h:46 | A fresh object, after init() with the default arguments and a feed of "123456789", reports 0x29B1. |
| `Crc16Properties.LowBitsIgnored` | src/WhandallCRC16.h:49-50 | The one-bit feed gives the same result for an argument and for that argument with bits 6..0 cleared. |
| `Crc16Properties.PolynomialDifference` | src/WhandallCRC16.cpp:11-16 | For one clock with the same register and input, two polynomials give results that differ by p XOR q when the feedback bit is set, and are equal otherwise. |
| `Crc16Properties.PolynomialSensitiveStep` | src/WhandallCRC16.cpp:11-16 | One clock gives equal results for polynomials p and q if and only if p == q or the feedback bit is clear. |
| `Crc16Properties.FeedReverseEmpty` | src/WhandallCRC16.cpp:28-30 | Feeding a range of length 0 in descending order leaves the CRC unchanged. |
| `Crc16Properties.FeedReverseAppend` | src/WhandallCRC16.cpp:28-36 | Feeding a ++ b in descending order feeds b in descending order, then a in descending order. |
| `Crc16Properties.FeedReverseOfReverse` | src/WhandallCRC16.cpp:28-36 | Feeding the reversal of a string in descending order equals feeding the string in ascending order. |
| `Crc16Properties.DefaultOrderMatters` | src/WhandallCRC16.h:53-66 | With the defaults, 0x01 0x02 gives 0x0E7C in ascending order and 0x6B4C in descending order. |
| `Crc16Properties.ZeroPolynomialForgetsOrder` | src/WhandallCRC16.h:44-46 | With polynomial 0 and start 0xFFFF, 0x01 0x02 gives 0 in both orders. |
| `Crc16Properties.PolynomialCollision` | src/WhandallCRC16.h:44-46 | From 0xFFFF, the byte 0x00 takes the XOR branch on its first clock. It still gives 0xE1F0 under both 0x1021 and 0xE03E. |
| `Crc16Properties.ReceiverCheckKnownAnswer` | src/WhandallCRC16.h:42-46 | With the defaults, "123456789" followed by its CRC bytes 0x29 0xB1 gives 0. |

## Left out

- `WhandallCrc16.Crc16` has no constructor. Like the C++ object, a newly allocated `Crc16` holds arbitrary field values until `Init`. Every pair of 16-bit words is a legal state, so no validity predicate is needed.
- When `feedReverse` is called with `len == 0`, its start pointer `ptr + len - 1` points before the buffer. The model does not capture this. Its index starts at `len - 1` but is used only while bytes remain, so with length 0 nothing is read.
- Raw pointers are not modelled. Buffers are Dafny arrays, and `len <= data.Length` is a precondition. The C++ code does not check this, and reading past the buffer is undefined behaviour there.
- The Arduino include, the include guards and the Doxygen front-page text (src/WhandallCRC16.h:1-28) have no behaviour and are not modelled.
- The library has no concurrency and does no I/O. The nRF24L01+ radio whose CRC it reproduces is outside the library.
- The general algebra of the register is not proved:
  - the CRC of an XOR of messages equals the XOR of their CRCs;
  - order sensitivity for polynomials with bit 0 set;
  - the receiver check for arbitrary frames.

  The library promises none of these. The receiver check and the order examples are proved for the specific inputs above.
