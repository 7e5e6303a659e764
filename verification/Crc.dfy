/** The 16-bit CRC of src/pueocrc.c: a table-driven, reflected CCITT checksum
    without the final complement, and its reference definition as a bit-serial
    shift register (Appendix C.2 of RFC 1662). */
module Crc {
  newtype byte = x: int | 0 <= x < 256

  const CRC16_START: bv16 := 0xffff

  /** Exclusive or, named so that proofs can use its algebra without its bits. */
  function Xor(x: bv16, y: bv16): bv16 {
    x ^ y
  }

  //////////////////////////////////////////////////////////////////////////////
  // Bytes and their bits, half a byte at a time
  //////////////////////////////////////////////////////////////////////////////

  function Nibble(n: int): bv4
    requires 0 <= n < 16
  {
    n as bv4
  }

  function Upper(v: bv8): bv4 {
    (v >> 4) as bv4
  }

  function Lower(v: bv8): bv4 {
    (v & 0xf) as bv4
  }

  function Join(upper: bv4, lower: bv4): bv8 {
    ((upper as bv8) << 4) | (lower as bv8)
  }

  /** The bits of a byte. */
  function Octet(c: byte): bv8 {
    Join(Nibble(c as int / 16), Nibble(c as int % 16))
  }

  /** The byte with bits v. */
  function OfOctet(v: bv8): byte {
    (16 * (Upper(v) as int) + (Lower(v) as int)) as byte
  }

  lemma JoinParts(upper: bv4, lower: bv4)
    ensures Upper(Join(upper, lower)) == upper && Lower(Join(upper, lower)) == lower
  {}

  lemma JoinCovers(v: bv8)
    ensures Join(Upper(v), Lower(v)) == v
  {}

  lemma NibbleNumber(n: int)
    requires 0 <= n < 16
    ensures Nibble(n) as int == n
  {}

  lemma NumberNibble(b: bv4)
    ensures Nibble(b as int) == b
  {}

  lemma OctetOfOctet(v: bv8)
    ensures Octet(OfOctet(v)) == v
  {
    hide Upper, Lower, Join, Nibble;
    JoinCovers(v);
    NumberNibble(Upper(v));
    NumberNibble(Lower(v));
  }

  lemma OctetNumber(v: bv8)
    ensures OfOctet(v) as int == v as int
  {}

  /** A byte has the bits of its number. */
  lemma OctetIs(c: byte, v: bv8)
    requires c as int == v as int
    ensures Octet(c) == v
  {
    hide Octet, OfOctet;
    OctetNumber(v);
    OctetOfOctet(v);
  }

  lemma OfOctetOctet(c: byte)
    ensures OfOctet(Octet(c)) == c
  {
    JoinParts(Nibble(c as int / 16), Nibble(c as int % 16));
    NibbleNumber(c as int / 16);
    NibbleNumber(c as int % 16);
  }

  /** A byte as it enters the sixteen-bit register. */
  function Wide(c: byte): bv16 {
    Octet(c) as bv16
  }

  //////////////////////////////////////////////////////////////////////////////
  // The table and the byte-at-a-time checksum
  //////////////////////////////////////////////////////////////////////////////

  /** The c-th entry of a row of sixteen. */
  function Row(c: bv8,
    v0: bv16, v1: bv16, v2: bv16, v3: bv16, v4: bv16, v5: bv16, v6: bv16, v7: bv16,
    v8: bv16, v9: bv16, v10: bv16, v11: bv16, v12: bv16, v13: bv16, v14: bv16, v15: bv16): bv16
    requires c < 16
  {
    if c < 8 then
      (if c < 4 then (if c < 2 then (if c < 1 then v0 else v1) else (if c < 3 then v2 else v3))
       else (if c < 6 then (if c < 5 then v4 else v5) else (if c < 7 then v6 else v7)))
    else
      (if c < 12 then (if c < 10 then (if c < 9 then v8 else v9) else (if c < 11 then v10 else v11))
       else (if c < 14 then (if c < 13 then v12 else v13) else (if c < 15 then v14 else v15)))
  }

  /** ccitt_table, sixteen entries to a row. */
  function CcittTable(i: bv8): bv16 {
    var c := i & 0xf;
    match i >> 4
    case 0 => Row(c, 0x0000, 0x1189, 0x2312, 0x329b, 0x4624, 0x57ad, 0x6536, 0x74bf,
                   0x8c48, 0x9dc1, 0xaf5a, 0xbed3, 0xca6c, 0xdbe5, 0xe97e, 0xf8f7)
    case 1 => Row(c, 0x1081, 0x0108, 0x3393, 0x221a, 0x56a5, 0x472c, 0x75b7, 0x643e,
                   0x9cc9, 0x8d40, 0xbfdb, 0xae52, 0xdaed, 0xcb64, 0xf9ff, 0xe876)
    case 2 => Row(c, 0x2102, 0x308b, 0x0210, 0x1399, 0x6726, 0x76af, 0x4434, 0x55bd,
                   0xad4a, 0xbcc3, 0x8e58, 0x9fd1, 0xeb6e, 0xfae7, 0xc87c, 0xd9f5)
    case 3 => Row(c, 0x3183, 0x200a, 0x1291, 0x0318, 0x77a7, 0x662e, 0x54b5, 0x453c,
                   0xbdcb, 0xac42, 0x9ed9, 0x8f50, 0xfbef, 0xea66, 0xd8fd, 0xc974)
    case 4 => Row(c, 0x4204, 0x538d, 0x6116, 0x709f, 0x0420, 0x15a9, 0x2732, 0x36bb,
                   0xce4c, 0xdfc5, 0xed5e, 0xfcd7, 0x8868, 0x99e1, 0xab7a, 0xbaf3)
    case 5 => Row(c, 0x5285, 0x430c, 0x7197, 0x601e, 0x14a1, 0x0528, 0x37b3, 0x263a,
                   0xdecd, 0xcf44, 0xfddf, 0xec56, 0x98e9, 0x8960, 0xbbfb, 0xaa72)
    case 6 => Row(c, 0x6306, 0x728f, 0x4014, 0x519d, 0x2522, 0x34ab, 0x0630, 0x17b9,
                   0xef4e, 0xfec7, 0xcc5c, 0xddd5, 0xa96a, 0xb8e3, 0x8a78, 0x9bf1)
    case 7 => Row(c, 0x7387, 0x620e, 0x5095, 0x411c, 0x35a3, 0x242a, 0x16b1, 0x0738,
                   0xffcf, 0xee46, 0xdcdd, 0xcd54, 0xb9eb, 0xa862, 0x9af9, 0x8b70)
    case 8 => Row(c, 0x8408, 0x9581, 0xa71a, 0xb693, 0xc22c, 0xd3a5, 0xe13e, 0xf0b7,
                   0x0840, 0x19c9, 0x2b52, 0x3adb, 0x4e64, 0x5fed, 0x6d76, 0x7cff)
    case 9 => Row(c, 0x9489, 0x8500, 0xb79b, 0xa612, 0xd2ad, 0xc324, 0xf1bf, 0xe036,
                   0x18c1, 0x0948, 0x3bd3, 0x2a5a, 0x5ee5, 0x4f6c, 0x7df7, 0x6c7e)
    case 10 => Row(c, 0xa50a, 0xb483, 0x8618, 0x9791, 0xe32e, 0xf2a7, 0xc03c, 0xd1b5,
                   0x2942, 0x38cb, 0x0a50, 0x1bd9, 0x6f66, 0x7eef, 0x4c74, 0x5dfd)
    case 11 => Row(c, 0xb58b, 0xa402, 0x9699, 0x8710, 0xf3af, 0xe226, 0xd0bd, 0xc134,
                   0x39c3, 0x284a, 0x1ad1, 0x0b58, 0x7fe7, 0x6e6e, 0x5cf5, 0x4d7c)
    case 12 => Row(c, 0xc60c, 0xd785, 0xe51e, 0xf497, 0x8028, 0x91a1, 0xa33a, 0xb2b3,
                   0x4a44, 0x5bcd, 0x6956, 0x78df, 0x0c60, 0x1de9, 0x2f72, 0x3efb)
    case 13 => Row(c, 0xd68d, 0xc704, 0xf59f, 0xe416, 0x90a9, 0x8120, 0xb3bb, 0xa232,
                   0x5ac5, 0x4b4c, 0x79d7, 0x685e, 0x1ce1, 0x0d68, 0x3ff3, 0x2e7a)
    case 14 => Row(c, 0xe70e, 0xf687, 0xc41c, 0xd595, 0xa12a, 0xb0a3, 0x8238, 0x93b1,
                   0x6b46, 0x7acf, 0x4854, 0x59dd, 0x2d62, 0x3ceb, 0x0e70, 0x1ff9)
    case _ => Row(c, 0xf78f, 0xe606, 0xd49d, 0xc514, 0xb1ab, 0xa022, 0x92b9, 0x8330,
                   0x7bc7, 0x6a4e, 0x58d5, 0x495c, 0x3de3, 0x2c6a, 0x1ef1, 0x0f78)
  }

  function Low(x: bv16): bv8 {
    (x & 0xff) as bv8
  }

  function CcittByte(crc: bv16, c: byte): bv16 {
    Xor(crc >> 8, CcittTable(Low(Xor(crc, Wide(c)))))
  }

  /** The checksum of `buf`, continued from `crc`. */
  function Continue(crc: bv16, buf: seq<byte>): bv16
    decreases |buf|
  {
    if buf == [] then crc else Continue(CcittByte(crc, buf[0]), buf[1..])
  }

  //////////////////////////////////////////////////////////////////////////////
  // The reference: a shift register fed one bit at a time
  //////////////////////////////////////////////////////////////////////////////

  /** 0x8408 when b is 1, and 0 when b is 0. */
  function Feedback(b: bv16): bv16 {
    (b << 15) ^ (b << 10) ^ (b << 3)
  }

  /** One shift of the register with a zero input bit, without a branch;
      ShiftZeroIsRfc1662 gives the form in which the RFC writes it. */
  function ShiftZero(r: bv16): bv16 {
    (r >> 1) ^ Feedback(r & 1)
  }

  lemma FeedbackOfBit()
    ensures Feedback(0) == 0 && Feedback(1) == 0x8408
  {}

  lemma LowBit(r: bv16)
    ensures r & 1 == 0 || r & 1 == 1
  {}

  lemma NoFeedback(x: bv16)
    ensures x ^ 0 == x
  {}

  lemma ShiftZeroIsRfc1662(r: bv16)
    ensures ShiftZero(r) == if r & 1 == 1 then (r >> 1) ^ 0x8408 else r >> 1
  {
    hide Feedback;
    FeedbackOfBit();
    LowBit(r);
    NoFeedback(r >> 1);
  }

  function Bit(b: bool): bv16 {
    if b then 1 else 0
  }

  function ShiftBit(r: bv16, b: bool): bv16 {
    ShiftZero(Xor(r, Bit(b)))
  }

  function Register(r: bv16, bits: seq<bool>): bv16
    decreases |bits|
  {
    if bits == [] then r else Register(ShiftBit(r, bits[0]), bits[1..])
  }

  /** The n low bits of d, least significant first. */
  function Bits(d: bv16, n: nat): (w: seq<bool>)
    ensures |w| == n
    decreases n
  {
    if n == 0 then [] else [d & 1 == 1] + Bits(d >> 1, n - 1)
  }

  /** The bits of a buffer in the order in which a serial line sends them. */
  function StreamBits(s: seq<byte>): (w: seq<bool>)
    ensures |w| == 8 * |s|
  {
    if s == [] then [] else Bits(Wide(s[0]), 8) + StreamBits(s[1..])
  }

  function ShiftZeros(r: bv16, n: nat): bv16
    decreases n
  {
    if n == 0 then r else ShiftZeros(ShiftZero(r), n - 1)
  }

  function Drop(d: bv16, n: nat): bv16
    decreases n
  {
    if n == 0 then d else Drop(d, n - 1) >> 1
  }

  //////////////////////////////////////////////////////////////////////////////
  // Algebra of exclusive or
  //////////////////////////////////////////////////////////////////////////////

  lemma XorAssoc(a: bv16, b: bv16, c: bv16)
    ensures Xor(a, Xor(b, c)) == Xor(Xor(a, b), c)
  {}

  lemma XorComm(a: bv16, b: bv16)
    ensures Xor(a, b) == Xor(b, a)
  {}

  lemma XorZero(a: bv16)
    ensures Xor(a, 0) == a && Xor(0, a) == a && Xor(a, a) == 0
  {}

  lemma XorSwap(a: bv16, b: bv16, c: bv16, d: bv16)
    ensures Xor(Xor(a, b), Xor(c, d)) == Xor(Xor(a, c), Xor(b, d))
  {
    XorAssoc(Xor(a, b), c, d);
    XorAssoc(Xor(a, c), b, d);
    XorAssoc(a, b, c);
    XorAssoc(a, c, b);
    XorComm(b, c);
  }

  lemma XorSplit(r: bv16, d: bv16)
    ensures Xor(r, d) == Xor(Xor(r, d & 1), d & 0xfffe)
  {}

  //////////////////////////////////////////////////////////////////////////////
  // The table refines the register
  //////////////////////////////////////////////////////////////////////////////

  function ShiftEight(r: bv16): bv16 {
    ShiftZero(ShiftZero(ShiftZero(ShiftZero(ShiftZero(ShiftZero(ShiftZero(ShiftZero(r))))))))
  }

  lemma TableEntryLow(i: bv8)
    requires i < 128
    ensures CcittTable(i) == ShiftEight(i as bv16)
  {}

  lemma TableEntryHigh(i: bv8)
    requires 128 <= i
    ensures CcittTable(i) == ShiftEight(i as bv16)
  {}

  lemma ShiftBitsLinear(x: bv16, y: bv16)
    ensures ShiftZero(x ^ y) == ShiftZero(x) ^ ShiftZero(y)
  {}

  lemma ShiftZeroLinear(x: bv16, y: bv16)
    ensures ShiftZero(Xor(x, y)) == Xor(ShiftZero(x), ShiftZero(y))
  {
    hide ShiftZero;
    ShiftBitsLinear(x, y);
  }

  lemma {:induction false} ShiftZerosLinear(x: bv16, y: bv16, n: nat)
    ensures ShiftZeros(Xor(x, y), n) == Xor(ShiftZeros(x, n), ShiftZeros(y, n))
    decreases n
  {
    if n > 0 {
      ShiftZeroLinear(x, y);
      ShiftZerosLinear(ShiftZero(x), ShiftZero(y), n - 1);
    }
  }

  lemma ShiftZeroEven(d: bv16)
    ensures ShiftZero(d & 0xfffe) == d >> 1
    ensures Bit(d & 1 == 1) == d & 1
  {}

  /** Feeding a bit is xoring it in and shifting: the rest of d waits one place lower. */
  lemma FoldStep(r: bv16, d: bv16)
    ensures ShiftZero(Xor(r, d)) == Xor(ShiftBit(r, d & 1 == 1), d >> 1)
  {
    XorSplit(r, d);
    ShiftZeroLinear(Xor(r, d & 1), d & 0xfffe);
    ShiftZeroEven(d);
  }

  lemma {:induction false} DropCommutes(d: bv16, n: nat)
    ensures Drop(d >> 1, n) == Drop(d, n) >> 1
  {
    if n > 0 {
      DropCommutes(d, n - 1);
    }
  }

  /** Feeding n bits of d equals xoring all of d into the register, then shifting n times. */
  lemma {:induction false} Fold(r: bv16, d: bv16, n: nat)
    ensures Register(r, Bits(d, n)) == Xor(ShiftZeros(Xor(r, d), n), Drop(d, n))
    decreases n
  {
    if n == 0 {
      XorAssoc(r, d, d);
      XorZero(d);
      XorZero(r);
    } else {
      FoldStep(r, d);
      Fold(ShiftBit(r, d & 1 == 1), d >> 1, n - 1);
      DropCommutes(d, n - 1);
      assert Bits(d, n)[1..] == Bits(d >> 1, n - 1);
    }
  }

  lemma EightShifts(r: bv16)
    ensures ShiftZeros(r, 8) == ShiftEight(r)
  {}

  lemma HighByteShifts(x: bv16)
    ensures ShiftEight(x & 0xff00) == x >> 8
    ensures x == Xor(x & 0xff00, Low(x) as bv16)
  {}

  lemma OctetDrops(v: bv8)
    ensures Drop(v as bv16, 8) == 0
  {}

  lemma ByteDrops(c: byte)
    ensures Drop(Wide(c), 8) == 0
  {
    hide Octet;
    OctetDrops(Octet(c));
  }

  lemma TableEntry(i: bv8)
    ensures CcittTable(i) == ShiftZeros(i as bv16, 8)
  {
    EightShifts(i as bv16);
    if i < 128 {
      TableEntryLow(i);
    } else {
      TableEntryHigh(i);
    }
  }

  lemma ShiftsSplit(x: bv16)
    ensures ShiftZeros(x, 8) == Xor(x >> 8, ShiftZeros(Low(x) as bv16, 8))
  {
    ShiftZerosLinear(x & 0xff00, Low(x) as bv16, 8);
    EightShifts(x & 0xff00);
    HighByteShifts(x);
  }

  lemma OctetKeepsHigh(crc: bv16, v: bv8)
    ensures Xor(crc, v as bv16) >> 8 == crc >> 8
  {}

  lemma ByteKeepsHigh(crc: bv16, c: byte)
    ensures Xor(crc, Wide(c)) >> 8 == crc >> 8
  {
    hide Octet;
    OctetKeepsHigh(crc, Octet(c));
  }

  lemma ByteIsShifts(crc: bv16, c: byte)
    ensures CcittByte(crc, c) == ShiftZeros(Xor(crc, Wide(c)), 8)
  {
    var x := Xor(crc, Wide(c));
    ShiftsSplit(x);
    ByteKeepsHigh(crc, c);
    TableEntry(Low(x));
  }

  /** One table step is eight steps of the shift register. */
  lemma ByteIsRegister(crc: bv16, c: byte)
    ensures CcittByte(crc, c) == Register(crc, Bits(Wide(c), 8))
  {
    Fold(crc, Wide(c), 8);
    ByteDrops(c);
    ByteIsShifts(crc, c);
    XorZero(ShiftZeros(Xor(crc, Wide(c)), 8));
  }

  lemma {:induction false} RegisterAppend(r: bv16, a: seq<bool>, b: seq<bool>)
    ensures Register(r, a + b) == Register(Register(r, a), b)
    decreases |a|
  {
    if a == [] {
      assert a + b == b;
    } else {
      assert (a + b)[1..] == a[1..] + b;
      RegisterAppend(ShiftBit(r, a[0]), a[1..], b);
    }
  }

  /** The table checksum of any buffer, from any start value, is what the bit
      register of RFC 1662 holds after the buffer's bits have been shifted in. */
  lemma {:induction false} TableRefinesRegister(crc: bv16, buf: seq<byte>)
    ensures Continue(crc, buf) == Register(crc, StreamBits(buf))
    decreases |buf|
  {
    if buf == [] {
    } else {
      ByteIsRegister(crc, buf[0]);
      RegisterAppend(crc, Bits(Wide(buf[0]), 8), StreamBits(buf[1..]));
      TableRefinesRegister(CcittByte(crc, buf[0]), buf[1..]);
    }
  }

  /** Continuing over a and then b is one pass over a + b. */
  lemma {:induction false} Composition(crc: bv16, a: seq<byte>, b: seq<byte>)
    ensures Continue(crc, a + b) == Continue(Continue(crc, a), b)
    decreases |a|
  {
    if a == [] {
      assert a + b == b;
    } else {
      assert (a + b)[1..] == a[1..] + b;
      Composition(CcittByte(crc, a[0]), a[1..], b);
    }
  }

  //////////////////////////////////////////////////////////////////////////////
  // Linearity and invertibility
  //////////////////////////////////////////////////////////////////////////////

  function XorOctet(v: bv8, w: bv8): bv8 {
    v ^ w
  }

  /** Exclusive or of two bytes. */
  function XorByte(c: byte, d: byte): byte {
    OfOctet(XorOctet(Octet(c), Octet(d)))
  }

  function XorBytes(a: seq<byte>, b: seq<byte>): (c: seq<byte>)
    requires |a| == |b|
    ensures |c| == |a|
    ensures forall i :: 0 <= i < |a| ==> c[i] == XorByte(a[i], b[i])
  {
    seq(|a|, i requires 0 <= i < |a| => XorByte(a[i], b[i]))
  }

  lemma WidenBits(v: bv8, w: bv8)
    ensures XorOctet(v, w) as bv16 == Xor(v as bv16, w as bv16)
  {}

  lemma WidenXor(c: byte, d: byte)
    ensures Wide(XorByte(c, d)) == Xor(Wide(c), Wide(d))
  {
    hide Octet, OfOctet, XorOctet, Xor;
    OctetOfOctet(XorOctet(Octet(c), Octet(d)));
    WidenBits(Octet(c), Octet(d));
  }

  lemma ByteLinear(s: bv16, t: bv16, c: byte, d: byte)
    ensures CcittByte(Xor(s, t), XorByte(c, d)) == Xor(CcittByte(s, c), CcittByte(t, d))
  {
    ByteIsShifts(Xor(s, t), XorByte(c, d));
    ByteIsShifts(s, c);
    ByteIsShifts(t, d);
    WidenXor(c, d);
    XorSwap(s, t, Wide(c), Wide(d));
    ShiftZerosLinear(Xor(s, Wide(c)), Xor(t, Wide(d)), 8);
  }

  /** The checksum is linear over exclusive or, in the start value and the buffer together. */
  lemma {:induction false} Linear(s: bv16, t: bv16, a: seq<byte>, b: seq<byte>)
    requires |a| == |b|
    ensures Continue(Xor(s, t), XorBytes(a, b)) == Xor(Continue(s, a), Continue(t, b))
    decreases |a|
  {
    if a == [] {
    } else {
      ByteLinear(s, t, a[0], b[0]);
      assert XorBytes(a, b)[1..] == XorBytes(a[1..], b[1..]);
      Linear(CcittByte(s, a[0]), CcittByte(t, b[0]), a[1..], b[1..]);
    }
  }

  /** Runs one shift backwards: the bit that was shifted out shows in the top bit. */
  function Unshift(y: bv16): bv16 {
    var b := y >> 15;
    ((y ^ (b << 10) ^ (b << 3)) << 1) | b
  }

  lemma UnshiftShift(x: bv16)
    ensures Unshift(ShiftZero(x)) == x
  {}

  lemma ShiftUnshift(y: bv16)
    ensures ShiftZero(Unshift(y)) == y
  {}

  function Unshifts(y: bv16, n: nat): bv16 {
    if n == 0 then y else Unshift(Unshifts(y, n - 1))
  }

  lemma {:induction false} ShiftsInverse(x: bv16, n: nat)
    ensures Unshifts(ShiftZeros(x, n), n) == x
    ensures ShiftZeros(Unshifts(x, n), n) == x
    decreases n
  {
    if n > 0 {
      ShiftsInverse(ShiftZero(x), n - 1);
      UnshiftShift(x);
      ShiftUnshift(Unshifts(x, n - 1));
      ShiftsInverse(x, n - 1);
    }
  }

  /** The start value from which the checksum of buf comes out as y. */
  function Unwind(y: bv16, buf: seq<byte>): bv16
    decreases |buf|
  {
    if buf == [] then y else Xor(Unshifts(Unwind(y, buf[1..]), 8), Wide(buf[0]))
  }

  lemma XorCancel(a: bv16, b: bv16)
    ensures Xor(Xor(a, b), b) == a
  {}

  lemma {:induction false} UnwindContinue(s: bv16, buf: seq<byte>)
    ensures Unwind(Continue(s, buf), buf) == s
    decreases |buf|
  {
    if buf == [] {
    } else {
      var c := Wide(buf[0]);
      UnwindContinue(CcittByte(s, buf[0]), buf[1..]);
      ByteIsShifts(s, buf[0]);
      ShiftsInverse(Xor(s, c), 8);
      XorCancel(s, c);
    }
  }

  lemma {:induction false} ContinueUnwind(y: bv16, buf: seq<byte>)
    ensures Continue(Unwind(y, buf), buf) == y
    decreases |buf|
  {
    if buf == [] {
    } else {
      var c := Wide(buf[0]);
      var u := Unwind(y, buf[1..]);
      ContinueUnwind(y, buf[1..]);
      XorCancel(Unshifts(u, 8), c);
      ByteIsShifts(Unwind(y, buf), buf[0]);
      ShiftsInverse(u, 8);
    }
  }

  /** For a fixed buffer the map from start value to checksum is a bijection:
      every result y has exactly one start value. */
  lemma StartBijection(s: bv16, y: bv16, buf: seq<byte>)
    ensures Continue(s, buf) == y <==> s == Unwind(y, buf)
  {
    UnwindContinue(s, buf);
    ContinueUnwind(y, buf);
  }

  function High(x: bv16): bv8 {
    Low(x >> 8)
  }

  function Pair(a: bv8, b: bv8): bv16 {
    Xor(a as bv16, (b as bv16) << 8)
  }

  /** The low and the high byte of x, and the number they came from. */
  function LowByte(x: bv16): byte {
    OfOctet(Low(x))
  }

  function HighByte(x: bv16): byte {
    OfOctet(High(x))
  }

  function PairBytes(a: byte, b: byte): bv16 {
    Pair(Octet(a), Octet(b))
  }

  /** The only two-byte message that takes the register from s to y. */
  function TwoByteMessage(s: bv16, y: bv16): seq<byte> {
    var x := Xor(Unshifts(y, 16), s);
    [LowByte(x), HighByte(x)]
  }

  lemma PairParts(a: bv8, b: bv8)
    ensures Low(Pair(a, b)) == a && High(Pair(a, b)) == b
    ensures ShiftEight((b as bv16) << 8) == b as bv16
  {}

  lemma PairCovers(x: bv16)
    ensures Pair(Low(x), High(x)) == x
  {}

  lemma PairBytesParts(a: byte, b: byte)
    ensures LowByte(PairBytes(a, b)) == a && HighByte(PairBytes(a, b)) == b
    ensures ShiftEight(Wide(b) << 8) == Wide(b)
  {
    hide Octet, OfOctet, Pair, Low, High, ShiftEight;
    PairParts(Octet(a), Octet(b));
    OfOctetOctet(a);
    OfOctetOctet(b);
  }

  lemma HighShifts(x: bv16)
    ensures High(x) == (x >> 8) as bv8
  {}

  lemma HalvesNumber(x: bv16)
    ensures x as int == 256 * (((x >> 8) as bv8) as int) + (((x & 0xff) as bv8) as int)
  {}

  lemma BytesNumber(x: bv16)
    ensures x as int == (Low(x) as int) + 256 * (High(x) as int)
  {
    hide High;
    HighShifts(x);
    HalvesNumber(x);
  }

  /** The low and the high byte are those of the number. */
  lemma PairNumber(x: bv16)
    ensures LowByte(x) as int + 256 * (HighByte(x) as int) == x as int
  {
    hide OfOctet, Low, High;
    BytesNumber(x);
    OctetNumber(Low(x));
    OctetNumber(High(x));
  }

  lemma PairBytesCovers(x: bv16)
    ensures PairBytes(LowByte(x), HighByte(x)) == x
  {
    hide Octet, OfOctet, Pair, Low, High;
    PairCovers(x);
    OctetOfOctet(Low(x));
    OctetOfOctet(High(x));
  }

  lemma {:induction false} ShiftZerosSum(r: bv16, m: nat, n: nat)
    ensures ShiftZeros(ShiftZeros(r, m), n) == ShiftZeros(r, m + n)
    decreases m
  {
    if m > 0 {
      ShiftZerosSum(ShiftZero(r), m - 1, n);
    }
  }

  lemma TwoBytesFold(s: bv16, a: byte, b: byte)
    ensures Continue(s, [a, b]) == ShiftZeros(Xor(s, PairBytes(a, b)), 16)
  {
    hide Octet, ShiftEight, CcittByte;
    var sa := Xor(s, Wide(a));
    var hi := Wide(b) << 8;
    calc {
      Continue(s, [a, b]);
      { assert [a, b][1..] == [b]; }
      Continue(CcittByte(s, a), [b]);
      { assert [b][1..] == []; }
      CcittByte(CcittByte(s, a), b);
      { ByteIsShifts(s, a); ByteIsShifts(ShiftZeros(sa, 8), b); }
      ShiftZeros(Xor(ShiftZeros(sa, 8), Wide(b)), 8);
      { PairBytesParts(a, b); EightShifts(hi); ShiftZerosLinear(sa, hi, 8); }
      ShiftZeros(ShiftZeros(Xor(sa, hi), 8), 8);
      { ShiftZerosSum(Xor(sa, hi), 8, 8); XorAssoc(s, Wide(a), hi); }
      ShiftZeros(Xor(s, PairBytes(a, b)), 16);
    }
  }

  lemma XorMoves(s: bv16, v: bv16, x: bv16)
    ensures Xor(s, v) == x <==> v == Xor(x, s)
  {
    XorComm(s, v);
    XorCancel(v, s);
    XorCancel(x, s);
  }

  lemma ShiftsReach(x: bv16, y: bv16, n: nat)
    ensures ShiftZeros(x, n) == y <==> x == Unshifts(y, n)
  {
    ShiftsInverse(x, n);
    ShiftsInverse(y, n);
  }

  /** For a fixed start value the map from two-byte buffers to checksums is a
      bijection: every result y has exactly one message. */
  lemma TwoByteBijection(s: bv16, y: bv16, m: seq<byte>)
    requires |m| == 2
    ensures Continue(s, m) == y <==> m == TwoByteMessage(s, y)
  {
    hide PairBytes, LowByte, HighByte, Continue, ShiftZeros, Unshifts, Xor;
    var v := PairBytes(m[0], m[1]);
    var x := Xor(Unshifts(y, 16), s);
    TwoBytesFold(s, m[0], m[1]);
    assert m == [m[0], m[1]];
    ShiftsReach(Xor(s, v), y, 16);
    XorMoves(s, v, Unshifts(y, 16));
    assert Continue(s, m) == y <==> v == x;
    if v == x {
      PairBytesParts(m[0], m[1]);
    } else {
      PairBytesCovers(x);
    }
  }

  //////////////////////////////////////////////////////////////////////////////
  // Burst detection
  //////////////////////////////////////////////////////////////////////////////

  /** A nonzero error whose set bits all lie in the sixteen places from the k-th on. */
  ghost predicate Burst(e: seq<byte>, k: nat) {
    var w := StreamBits(e);
    k + 16 <= |w| && true in w && forall i :: 0 <= i < |w| && w[i] ==> k <= i < k + 16
  }

  ghost predicate Quiet(w: seq<bool>) {
    true !in w
  }

  lemma {:induction false} QuietShifts(r: bv16, w: seq<bool>)
    requires Quiet(w)
    ensures Register(r, w) == ShiftZeros(r, |w|)
    decreases |w|
  {
    if w == [] {
    } else {
      assert !w[0];
      XorZero(r);
      QuietShifts(ShiftBit(r, w[0]), w[1..]);
    }
  }

  lemma {:induction false} ZeroStaysZero(n: nat)
    ensures ShiftZeros(0, n) == 0
  {
    if n > 0 {
      ZeroStaysZero(n - 1);
    }
  }

  lemma NonzeroStaysNonzero(r: bv16, n: nat)
    requires r != 0
    ensures ShiftZeros(r, n) != 0
  {
    ZeroStaysZero(n);
    ShiftsInverse(r, n);
    ShiftsInverse(0, n);
  }

  function Push(d: bv16, b: bool): bv16 {
    (d << 1) | Bit(b)
  }

  /** The number whose low bits are w. */
  function Pack(w: seq<bool>): bv16 {
    if w == [] then 0 else Push(Pack(w[1..]), w[0])
  }

  lemma {:induction false} DropMore(d: bv16, m: nat, n: nat)
    requires m <= n && Drop(d, m) == 0
    ensures Drop(d, n) == 0
  {
    if m < n {
      DropMore(d, m, n - 1);
    }
  }

  lemma {:induction false} DropSum(d: bv16, m: nat, n: nat)
    ensures Drop(Drop(d, m), n) == Drop(d, m + n)
  {
    if n > 0 {
      DropSum(d, m, n - 1);
    }
  }

  lemma DropFive(d: bv16)
    ensures Drop(d, 5) == d >> 5
  {}

  /** There is room to push one more bit. */
  predicate TopClear(d: bv16) {
    d & 0x8000 == 0
  }

  lemma ShortLeavesTop(d: bv16)
    requires Drop(d, 15) == 0
    ensures TopClear(d)
  {
    DropSum(d, 5, 10);
    DropSum(d >> 5, 5, 5);
    DropFive(d);
    DropFive(d >> 5);
    DropFive((d >> 5) >> 5);
  }

  lemma PushBit(d: bv16, b: bool)
    requires TopClear(d)
    ensures Push(d, b) >> 1 == d
    ensures Push(d, b) & 1 == 1 <==> b
  {
    if b {} else {}
  }

  lemma PushStep(d: bv16, b: bool, n: nat)
    requires TopClear(d)
    ensures Bits(Push(d, b), n + 1) == [b] + Bits(d, n)
    ensures Drop(Push(d, b), n + 1) == Drop(d, n)
  {
    hide Push, TopClear;
    PushBit(d, b);
    DropCommutes(Push(d, b), n);
  }

  lemma {:induction false} PackBits(w: seq<bool>)
    requires |w| <= 16
    ensures Bits(Pack(w), |w|) == w && Drop(Pack(w), |w|) == 0
  {
    if w == [] {
    } else {
      hide Push, TopClear, Drop, Bits;
      var d := Pack(w[1..]);
      PackBits(w[1..]);
      DropMore(d, |w| - 1, 15);
      ShortLeavesTop(d);
      PushStep(d, w[0], |w| - 1);
      assert w == [w[0]] + w[1..];
    }
  }

  lemma {:induction false} BitsOfZero(n: nat)
    ensures Quiet(Bits(0, n))
  {
    if n > 0 {
      BitsOfZero(n - 1);
    }
  }

  /** Sixteen bits, not all zero, leave a cleared register nonzero. */
  lemma SixteenBitsShow(w: seq<bool>)
    requires |w| == 16 && true in w
    ensures Register(0, w) != 0
  {
    var d := Pack(w);
    PackBits(w);
    if d == 0 {
      BitsOfZero(16);
    }
    Fold(0, d, 16);
    XorZero(d);
    XorZero(ShiftZeros(d, 16));
    NonzeroStaysNonzero(d, 16);
  }

  lemma QuietPrefix(before: seq<bool>, rest: seq<bool>)
    requires Quiet(before)
    ensures Register(0, before + rest) == Register(0, rest)
  {
    RegisterAppend(0, before, rest);
    QuietShifts(0, before);
    ZeroStaysZero(|before|);
  }

  lemma QuietSuffix(burst: seq<bool>, after: seq<bool>)
    requires Quiet(after) && Register(0, burst) != 0
    ensures Register(0, burst + after) != 0
  {
    RegisterAppend(0, burst, after);
    QuietShifts(Register(0, burst), after);
    NonzeroStaysNonzero(Register(0, burst), |after|);
  }

  lemma BurstShows(e: seq<byte>, k: nat)
    requires Burst(e, k)
    ensures Continue(0, e) != 0
  {
    hide CcittByte, Register, StreamBits;
    var w := StreamBits(e);
    var before, burst, after := w[..k], w[k..k + 16], w[k + 16..];
    assert true in burst by {
      var i :| 0 <= i < |w| && w[i];
      assert w[i] == burst[i - k];
    }
    SixteenBitsShow(burst);
    QuietSuffix(burst, after);
    QuietPrefix(before, burst + after);
    assert w == before + (burst + after);
    TableRefinesRegister(0, e);
  }

  lemma XorDiffers(a: bv16, b: bv16)
    ensures Xor(a, b) == a <==> b == 0
  {}

  /** An error changes the checksum iff its own checksum from zero is nonzero. */
  lemma ErrorShows(s: bv16, a: seq<byte>, e: seq<byte>)
    requires |a| == |e|
    ensures Continue(s, XorBytes(a, e)) == Continue(s, a) <==> Continue(0, e) == 0
  {
    Linear(s, 0, a, e);
    XorZero(s);
    XorDiffers(Continue(s, a), Continue(0, e));
  }

  /** No error burst of at most sixteen bits leaves the checksum unchanged,
      whatever the buffer, the start value and the place of the burst. */
  lemma BurstDetected(s: bv16, a: seq<byte>, e: seq<byte>, k: nat)
    requires |a| == |e| && Burst(e, k)
    ensures Continue(s, XorBytes(a, e)) != Continue(s, a)
  {
    BurstShows(e, k);
    ErrorShows(s, a, e);
  }

  //////////////////////////////////////////////////////////////////////////////
  // The start value
  //////////////////////////////////////////////////////////////////////////////

  /** A zero byte in front of a buffer goes unnoticed iff eight shifts leave the start value
      as it is: they do so if that is zero. */
  lemma LeadingZero(s: bv16, buf: seq<byte>)
    ensures Continue(s, [0] + buf) == Continue(s, buf) <==> ShiftZeros(s, 8) == s
  {
    hide Octet, Unwind, ShiftZeros;
    assert ([0] + buf)[1..] == buf;
    OctetIs(0, 0);
    ByteIsShifts(s, 0);
    XorZero(s);
    StartBijection(CcittByte(s, 0), Continue(s, buf), buf);
    StartBijection(s, Continue(s, buf), buf);
  }

  /** With the start value of the headers it always shows. */
  lemma LeadingZeroShows(buf: seq<byte>)
    ensures Continue(CRC16_START, [0] + buf) != Continue(CRC16_START, buf)
    ensures Continue(0, [0] + buf) == Continue(0, buf)
  {
    hide Continue;
    LeadingZero(CRC16_START, buf);
    LeadingZero(0, buf);
    EightShifts(CRC16_START);
    EightShifts(0);
  }

  /** One byte more, given by its bits. */
  function Next(s: bv16, v: bv8): bv16 {
    Xor(s >> 8, CcittTable(Low(Xor(s, v as bv16))))
  }

  lemma Advance(s: bv16, buf: seq<byte>, k: nat, v: bv8)
    requires k < |buf| && buf[k] as int == v as int
    ensures Continue(s, buf[k..]) == Continue(Next(s, v), buf[k + 1..])
  {
    hide Octet, CcittTable;
    OctetIs(buf[k], v);
    assert buf[k..][1..] == buf[k + 1..];
  }

  lemma KnownSteps()
    ensures Next(0xffff, 49) == 0x2f8d
    ensures Next(0x2f8d, 50) == 0x4d53
    ensures Next(0x4d53, 51) == 0x634b
    ensures Next(0x634b, 52) == 0x8b13
    ensures Next(0x8b13, 53) == 0x44bf
  {}

  lemma MoreKnownSteps()
    ensures Next(0x44bf, 54) == 0x198d
    ensures Next(0x198d, 55) == 0x1ac8
    ensures Next(0x1ac8, 56) == 0xf795
    ensures Next(0xf795, 57) == 0x6f91
  {}

  lemma EndOf(s: bv16, buf: seq<byte>)
    ensures Continue(s, buf[|buf|..]) == s
  {}

  /** The checksum of "123456789". */
  lemma KnownAnswer()
    ensures Continue(CRC16_START, [49, 50, 51, 52, 53, 54, 55, 56, 57]) == 0x6f91
  {
    hide Continue, Next;
    KnownSteps();
    MoreKnownSteps();
    var b: seq<byte> := [49, 50, 51, 52, 53, 54, 55, 56, 57];
    assert b[0..] == b;
    Advance(0xffff, b, 0, 49);
    Advance(0x2f8d, b, 1, 50);
    Advance(0x4d53, b, 2, 51);
    Advance(0x634b, b, 3, 52);
    Advance(0x8b13, b, 4, 53);
    Advance(0x44bf, b, 5, 54);
    Advance(0x198d, b, 6, 55);
    Advance(0x1ac8, b, 7, 56);
    Advance(0xf795, b, 8, 57);
    EndOf(0x6f91, b);
  }

  //////////////////////////////////////////////////////////////////////////////
  // The loop
  //////////////////////////////////////////////////////////////////////////////

  /** pueo_crc16_continue over `len` bytes of memory from `at` on. */
  method Crc16Continue(start: bv16, buffer: array<byte>, at: nat, len: nat) returns (crc: bv16)
    requires at + len <= buffer.Length
    ensures crc == Continue(start, buffer[at..at + len])
    ensures crc == Register(start, StreamBits(buffer[at..at + len]))
  {
    hide CcittByte;
    crc := start;
    var left, p := len, at;
    while left > 0
      invariant 0 <= left <= len && p + left == at + len
      invariant Continue(crc, buffer[p..at + len]) == Continue(start, buffer[at..at + len])
    {
      assert buffer[p..at + len][1..] == buffer[p + 1..at + len];
      crc := CcittByte(crc, buffer[p]);
      left, p := left - 1, p + 1;
    }
    TableRefinesRegister(start, buffer[at..at + len]);
  }
}
