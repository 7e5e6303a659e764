/** Frames of real packets, byte by byte: what the constants, the byte order, the checksum and
    the header come to together. */
module Vectors {
  import opened Crc
  import opened Versions
  import opened Packets

  lemma ZeroSteps()
    ensures Next(0xffff, 0) == 0x0f87
    ensures Next(0x0f87, 0) == 0xf0b8
    ensures Next(0xf0b8, 0) == 0x3933
    ensures Next(0x3933, 0) == 0x0321
    ensures Next(0x0321, 0) == 0x3088
    ensures Next(0x3088, 0) == 0x0870
  {}

  lemma MoreZeroSteps()
    ensures Next(0x0870, 0) == 0x738f
    ensures Next(0x738f, 0) == 0x7c8c
    ensures Next(0x7c8c, 0) == 0x4e18
    ensures Next(0x4e18, 0) == 0x9c87
    ensures Next(0x9c87, 0) == 0xf02b
    ensures Next(0xf02b, 0) == 0x9f21
  {}

  lemma LogSteps()
    ensures Next(0x0870, 3) == 0x4114
    ensures Next(0x4114, 0) == 0x56e4
    ensures Next(0x56e4, 0) == 0xa17c
    ensures Next(0xa17c, 0) == 0xb94a
    ensures Next(0xb94a, 97) == 0x9f68
    ensures Next(0x9f68, 98) == 0xafc5
    ensures Next(0xafc5, 99) == 0xc093
  {}

  /** The checksum of n zero bytes. */
  function ZeroState(n: nat): bv16 {
    match n
    case 0 => 0xffff
    case 1 => 0x0f87
    case 2 => 0xf0b8
    case 3 => 0x3933
    case 4 => 0x0321
    case 5 => 0x3088
    case 6 => 0x0870
    case 7 => 0x738f
    case 8 => 0x7c8c
    case 9 => 0x4e18
    case 10 => 0x9c87
    case 11 => 0xf02b
    case _ => 0x9f21
  }

  lemma {:induction false} ZeroSum(n: nat)
    requires n <= 12
    ensures Continue(CRC16_START, Zeros(n)) == ZeroState(n)
  {
    hide Next, Continue;
    if n == 0 {
      EndOf(CRC16_START, Zeros(0));
      assert Zeros(0)[0..] == Zeros(0);
    } else {
      ZeroSum(n - 1);
      ZeroSteps();
      MoreZeroSteps();
      Composition(CRC16_START, Zeros(n - 1), [0]);
      assert Zeros(n - 1) + [0] == Zeros(n);
      assert [0][0..] == [0];
      Advance(ZeroState(n - 1), [0], 0, 0);
      EndOf(Next(ZeroState(n - 1), 0), [0]);
    }
  }

  /** The checksums of four, nine and twelve zero bytes. */
  lemma ZeroSums()
    ensures Continue(CRC16_START, Zeros(4)) == 0x0321
    ensures Continue(CRC16_START, Zeros(9)) == 0x4e18
    ensures Continue(CRC16_START, Zeros(12)) == 0x9f21
  {
    hide Continue, Zeros;
    ZeroSum(4);
    ZeroSum(9);
    ZeroSum(12);
  }

  lemma SameDigits(a0: byte, a1: byte, b0: byte, b1: byte)
    requires a0 as int + 256 * (a1 as int) == b0 as int + 256 * (b1 as int)
    ensures a0 == b0 && a1 == b1
  {}

  lemma SameWord(a0: byte, a1: byte, a2: byte, a3: byte, b0: byte, b1: byte, b2: byte)
    requires a0 as int + 256 * (a1 as int) + 65536 * (a2 as int) + 16777216 * (a3 as int)
      == b0 as int + 256 * (b1 as int) + 65536 * (b2 as int)
    ensures a0 == b0 && a1 == b1 && a2 == b2 && a3 == 0
  {}

  /** A header is known by its bytes. */
  lemma HeaderIs(h: Header, c0: byte, c1: byte, s0: byte, s1: byte, b5: byte, b6: byte)
    requires h.code as int == c0 as int + 256 * (c1 as int) && h.cksum as int == s0 as int + 256 * (s1 as int)
    requires h.f1 == 0xf1 && h.version + 16 * h.numBytes == b5 as int + 256 * (b6 as int)
    ensures Encode(h) == [c0, c1, s0, s1, 0xf1, b5, b6, 0]
  {
    hide Encode;
    EncodeBytes(h);
    var b := Encode(h);
    SameDigits(b[0], b[1], c0, c1);
    SameDigits(b[2], b[3], s0, s1);
    SameWord(b[4], b[5], b[6], b[7], 0xf1, b5, b6);
  }

  /** The two bytes with which frames of each type start. */
  function Mark(t: PacketType): (b: seq<byte>)
    ensures |b| == 2
  {
    match t
    case FullWaveforms => [0x7a, 0xda]
    case SingleWaveform => [0x7a, 0xea]
    case NavAtt => [0x71, 0xa7]
    case NavSat => [0x75, 0x5a]
    case NavPos => [0x75, 0x1a]
    case SensorsTelem => [0xde, 0xb1]
    case SensorsDisk => [0x1d, 0xcb]
    case Slow => [0x0e, 0x51]
    case CmdEcho => [0xc0, 0xec]
    case SunSensor => [0x1a, 0x50]
    case Timemark => [0x0c, 0xc1]
    case StarTracker => [0x1c, 0xe7]
    case Logs => [0x11, 0x7a]
    case DaqHsk => [0xcc, 0xda]
    case DaqHskSummary => [0xc5, 0xda]
    case FileDownload => [0xd1, 0xd1]
    case SavedPriorities => [0x35, 0x71]
    case PrioStatus => [0xad, 0x5c]
  }

  lemma MarkIsCode(t: PacketType)
    ensures TypeCode(t) as int == Mark(t)[0] as int + 256 * (Mark(t)[1] as int)
  {}

  lemma WordStarts(a0: byte, a1: byte, a2: byte, a3: byte, v: nat, n: nat)
    requires a0 as int + 256 * (a1 as int) + 65536 * (a2 as int) + 16777216 * (a3 as int) == 0xf1 + 256 * v + 4096 * n
    ensures a0 == 0xf1
  {
    var k := a1 as int + 256 * (a2 as int) + 65536 * (a3 as int) - v - 16 * n;
    assert 0xf1 - a0 as int == 256 * k;
  }

  /** Frames start with the mark of their type, the checksum, and 0xf1. */
  lemma FramesAreMarked(t: PacketType, m: seq<byte>)
    requires Sendable(t, Latest(t), m)
    ensures Frame(t, m)[..2] == Mark(t) && Frame(t, m)[4] == 0xf1
  {
    hide Encode, TypeCode, Mark, Wire, Continue;
    var h := HeaderFor(t, Latest(t), m);
    EncodeBytes(h);
    MarkIsCode(t);
    var b := Encode(h);
    SameDigits(b[0], b[1], Mark(t)[0], Mark(t)[1]);
    WordStarts(b[4], b[5], b[6], b[7], h.version, h.numBytes);
    assert Frame(t, m)[..2] == [b[0], b[1]];
  }

  /** Empty saved priorities: type 0x7135, checksum 0x9f21, version 0, twelve bytes. */
  lemma EmptyPriorities()
    ensures var m := Zeros(12);
      && Sendable(SavedPriorities, Latest(SavedPriorities), m)
      && Frame(SavedPriorities, m) == [0x35, 0x71, 0x21, 0x9f, 0xf1, 0xc0, 0, 0] + Zeros(12)
  {
    hide Continue, Encode;
    var m := Zeros(12);
    assert m[..12] == m;
    ZeroSums();
    HeaderIs(HeaderFor(SavedPriorities, 0, m), 0x35, 0x71, 0x21, 0x9f, 0xc0, 0);
  }

  /** The echo of a command of one zero byte: type 0xecc0, checksum 0x4e18, version 0, nine bytes. */
  lemma EmptyEcho()
    ensures var m := Zeros(264);
      && Sendable(CmdEcho, Latest(CmdEcho), m)
      && Frame(CmdEcho, m) == [0xc0, 0xec, 0x18, 0x4e, 0xf1, 0x90, 0, 0] + Zeros(9)
  {
    hide Continue, Encode;
    var m := Zeros(264);
    assert m[..9] == Zeros(9);
    ZeroSums();
    HeaderIs(HeaderFor(CmdEcho, 0, m), 0xc0, 0xec, 0x18, 0x4e, 0x90, 0);
  }

  /** No sensors: type 0xcb1d, checksum 0x0321, version 1, four bytes. */
  lemma NoSensors()
    ensures var m := Zeros(3076);
      && Sendable(SensorsDisk, Latest(SensorsDisk), m)
      && Frame(SensorsDisk, m) == [0x1d, 0xcb, 0x21, 0x03, 0xf1, 0x41, 0, 0] + Zeros(4)
  {
    hide Continue, Encode;
    var m := Zeros(3076);
    assert U16At(m, 0) == 0;
    assert m[..4] == Zeros(4);
    ZeroSums();
    HeaderIs(HeaderFor(SensorsDisk, 1, m), 0x1d, 0xcb, 0x21, 0x03, 0x41, 0);
  }

  lemma LogSum(w: seq<byte>)
    requires w == [0, 0, 0, 0, 0, 0, 3, 0, 0, 0, 97, 98, 99]
    ensures Continue(CRC16_START, w) == 0xc093
  {
    hide Next, Continue;
    ZeroSteps();
    LogSteps();
    assert w[0..] == w;
    Advance(0xffff, w, 0, 0);
    Advance(0x0f87, w, 1, 0);
    Advance(0xf0b8, w, 2, 0);
    Advance(0x3933, w, 3, 0);
    Advance(0x0321, w, 4, 0);
    Advance(0x3088, w, 5, 0);
    Advance(0x0870, w, 6, 3);
    Advance(0x4114, w, 7, 0);
    Advance(0x56e4, w, 8, 0);
    Advance(0xa17c, w, 9, 0);
    Advance(0xb94a, w, 10, 97);
    Advance(0x9f68, w, 11, 98);
    Advance(0xafc5, w, 12, 99);
    EndOf(0xc093, w);
  }

  /** A log of three characters of a daemon: type 0x7a11, checksum 0xc093, version 0, thirteen
      bytes, of which the last three are the text. */
  lemma ShortLog()
    ensures var w: seq<byte> := [0, 0, 0, 0, 0, 0, 3, 0, 0, 0, 97, 98, 99]; var m := Splice(Zeros(2060), 0, w);
      && Sendable(Logs, Latest(Logs), m)
      && Frame(Logs, m) == [0x11, 0x7a, 0x93, 0xc0, 0xf1, 0xd0, 0, 0] + w
  {
    hide Continue, Encode;
    var w: seq<byte> := [0, 0, 0, 0, 0, 0, 3, 0, 0, 0, 97, 98, 99];
    var m := Splice(Zeros(2060), 0, w);
    assert U16At(m, 8) == 0;
    assert m[..13] == w;
    LogSum(w);
    HeaderIs(HeaderFor(Logs, 0, m), 0x11, 0x7a, 0x93, 0xc0, 0xd0, 0);
  }
}
