/** What one packet looks like in memory and on the wire: the packet header, the
    offsets and counts that src/rawio_packets.c uses, and the header builders. */
module Packets {
  import opened Crc
  import opened Versions

  //////////////////////////////////////////////////////////////////////////////
  // Memory
  //////////////////////////////////////////////////////////////////////////////

  function Min(a: nat, b: nat): nat {
    if a < b then a else b
  }

  /** The little-endian 16-bit field at m[at..]. */
  function U16At(m: seq<byte>, at: nat): (n: nat)
    requires at + 2 <= |m|
    ensures n < 0x1_0000
  {
    m[at] as int + 256 * (m[at + 1] as int)
  }

  /** The number that bytes make up, the least significant first. */
  function LittleEndian(b: seq<byte>): nat {
    if b == [] then 0 else b[0] as int + 256 * LittleEndian(b[1..])
  }

  lemma TwoBytes(x: byte, y: byte)
    ensures LittleEndian([x, y]) == x as int + 256 * (y as int)
  {
    assert [x, y][1..] == [y];
    assert [y][1..] == [];
    assert LittleEndian([y]) == y as int;
  }

  lemma U16IsLittleEndian(m: seq<byte>, at: nat)
    requires at + 2 <= |m|
    ensures U16At(m, at) == LittleEndian(m[at..at + 2])
  {
    TwoBytes(m[at], m[at + 1]);
    assert m[at..at + 2] == [m[at], m[at + 1]];
  }

  /** A 16-bit field holds the number whose low byte comes first. */
  lemma U16OfBytes(x: bv16)
    ensures U16At([LowByte(x), HighByte(x)], 0) == x as int
  {
    PairNumber(x);
  }

  /** Memory d after b has been copied over it from `at` on. */
  function Splice(d: seq<byte>, at: nat, b: seq<byte>): (r: seq<byte>)
    requires at + |b| <= |d|
    ensures |r| == |d|
    ensures forall i :: 0 <= i < |d| ==> r[i] == if at <= i < at + |b| then b[i - at] else d[i]
  {
    d[..at] + b + d[at + |b|..]
  }

  function Zeros(n: nat): (z: seq<byte>)
    ensures |z| == n
  {
    seq(n, _ => 0)
  }

  /** Memory d with the bytes from `from` up to `to` zeroed. */
  function Clear(d: seq<byte>, from: nat, to: nat): (r: seq<byte>)
    requires from <= to <= |d|
    ensures |r| == |d|
    ensures forall i :: 0 <= i < |d| ==> r[i] == if from <= i < to then 0 else d[i]
  {
    Splice(d, from, Zeros(to - from))
  }

  //////////////////////////////////////////////////////////////////////////////
  // The packet header
  //////////////////////////////////////////////////////////////////////////////

  const HEAD_SIZE: nat := 8
  const F1: byte := 0xf1

  type uint4 = n: nat | n < 16
  type uint20 = n: nat | n < 0x10_0000

  /** pueo_packet_head_t */
  datatype Header = Header(code: bv16, cksum: bv16, f1: byte, version: uint4, numBytes: uint20)

  /** The header in memory: two 16-bit fields, then f1 | version << 8 | num_bytes << 12. */
  function Encode(h: Header): (b: seq<byte>)
    ensures |b| == HEAD_SIZE
  {
    [LowByte(h.code), HighByte(h.code), LowByte(h.cksum), HighByte(h.cksum), h.f1,
     (h.version + 16 * (h.numBytes % 16)) as byte, (h.numBytes / 16 % 256) as byte, (h.numBytes / 4096) as byte]
  }

  function Decode(b: seq<byte>): Header
    requires |b| == HEAD_SIZE
  {
    Header(PairBytes(b[0], b[1]), PairBytes(b[2], b[3]), b[4],
           b[5] as int % 16, b[5] as int / 16 + 16 * (b[6] as int) + 4096 * (b[7] as int))
  }

  /** No field of a header is lost in memory. */
  lemma DecodeEncode(h: Header)
    ensures Decode(Encode(h)) == h
  {
    hide LowByte, HighByte, PairBytes;
    PairBytesCovers(h.code);
    PairBytesCovers(h.cksum);
  }

  lemma WordPacks(f1: byte, version: uint4, n: uint20)
    ensures f1 as int + 256 * (version + 16 * (n % 16)) + 65536 * (n / 16 % 256) + 16777216 * (n / 4096)
      == f1 as int + 256 * version + 4096 * n
  {}

  /** The header in bytes: two little-endian 16-bit numbers and a 32-bit one. */
  lemma EncodeBytes(h: Header)
    ensures var b := Encode(h);
      && b[0] as int + 256 * (b[1] as int) == h.code as int
      && b[2] as int + 256 * (b[3] as int) == h.cksum as int
      && b[4] as int + 256 * (b[5] as int) + 65536 * (b[6] as int) + 16777216 * (b[7] as int)
         == h.f1 as int + 256 * h.version + 4096 * h.numBytes
  {
    hide LowByte, HighByte;
    PairNumber(h.code);
    PairNumber(h.cksum);
    WordPacks(h.f1, h.version, h.numBytes);
  }

  lemma FieldsPack(a: byte, b: byte, c: byte)
    ensures var n := a as int / 16 + 16 * (b as int) + 4096 * (c as int);
      && 0 <= n < 0x10_0000
      && a as int % 16 + 16 * (n % 16) == a as int && n / 16 % 256 == b as int && n / 4096 == c as int
  {}

  /** Every eight bytes are the memory of exactly one header. */
  lemma EncodeDecode(b: seq<byte>)
    requires |b| == HEAD_SIZE
    ensures Encode(Decode(b)) == b
  {
    hide LowByte, HighByte, PairBytes;
    PairBytesParts(b[0], b[1]);
    PairBytesParts(b[2], b[3]);
    FieldsPack(b[5], b[6], b[7]);
    var e := Encode(Decode(b));
    assert e[5] == b[5] && e[6] == b[6] && e[7] == b[7];
  }

  //////////////////////////////////////////////////////////////////////////////
  // Counted arrays
  //////////////////////////////////////////////////////////////////////////////

  /** Where the counted array of t starts. */
  function Base(t: PacketType): (n: nat)
    requires Counted(t)
    ensures n <= InMemory(t)
  {
    match t
    case SensorsDisk => 4
    case SensorsTelem => 8
    case CmdEcho => 8
    case FileDownload => 40
    case Logs => 10
    case NavSat => 20
  }

  /** Where it ends in memory; the rest of the struct, if any, is padding. */
  function ArrayEnd(t: PacketType): (n: nat)
    requires Counted(t)
    ensures Base(t) <= n <= InMemory(t)
  {
    match t
    case SensorsDisk => 3076
    case SensorsTelem => 1032
    case CmdEcho => 264
    case FileDownload => 65040
    case Logs => 2058
    case NavSat => 2570
  }

  /** How many bytes of the array are sent, as the fields before the array say.
      Version 0 of the sensor packets sends the whole array. */
  function Count(t: PacketType, ver: int, m: seq<byte>): nat
    requires Counted(t) && Base(t) <= |m|
  {
    match t
    case SensorsDisk => (if ver == 0 then 256 else U16At(m, 0)) * 12
    case SensorsTelem => (if ver == 0 then 256 else U16At(m, 6)) * 4
    case CmdEcho => m[4] as int + 1
    case FileDownload => U16At(m, 38)
    case Logs => U16At(m, 8) + m[7] as int + m[6] as int
    case NavSat => (m[17] as int) * 10
  }

  /** The count does not reach past the array. */
  predicate CountFits(t: PacketType, ver: int, m: seq<byte>)
    requires Counted(t) && Base(t) <= |m|
  {
    Base(t) + Count(t, ver, m) <= ArrayEnd(t)
  }

  //////////////////////////////////////////////////////////////////////////////
  // Waveforms
  //////////////////////////////////////////////////////////////////////////////

  const WF_DATA: nat := 4
  const MAX_SAMPLES: nat := 1024
  const WF_SIZE: nat := 2052
  const READOUT_TIME: nat := 40

  /** Where the embedded waveforms start in memory. */
  function WfOffset(t: PacketType): nat {
    if t.FullWaveforms? then 48 else 50
  }

  function Channels(t: PacketType): nat {
    if t.FullWaveforms? then 224 else 1
  }

  /** How much of the struct before the waveforms version `ver` sends. */
  function Prefix(t: PacketType, ver: int): (n: nat)
    ensures n <= WfOffset(t)
  {
    if t.FullWaveforms? then
      if ver == 0 then 40 else 48
    else
      if ver == 0 then 40 else if ver == 1 then 48 else 50
  }

  /** The bytes a waveform whose memory starts at m[at] occupies on the wire,
      its length clamped to the buffer. */
  function WfBytes(m: seq<byte>, at: nat): (n: nat)
    requires at + WF_DATA <= |m|
    ensures WF_DATA <= n <= WF_SIZE
  {
    WF_DATA + 2 * Min(U16At(m, at + 2), MAX_SAMPLES)
  }

  /** The used parts of n waveforms in memory, one after the other. */
  function Used(m: seq<byte>, at: nat, n: nat): (w: seq<byte>)
    requires at + n * WF_SIZE <= |m|
    ensures |w| <= n * WF_SIZE
    decreases n
  {
    if n == 0 then [] else m[at..at + WfBytes(m, at)] + Used(m, at + WF_SIZE, n - 1)
  }

  //////////////////////////////////////////////////////////////////////////////
  // Wire images and headers
  //////////////////////////////////////////////////////////////////////////////

  /** m is the memory of a t of which version `ver` has a wire image. */
  predicate Sendable(t: PacketType, ver: int, m: seq<byte>) {
    && |m| == InMemory(t)
    && (Simple(t) ==> 0 <= ver <= Latest(t))
    && (Counted(t) ==> CountFits(t, ver, m))
  }

  /** The bytes of m that version `ver` of a t puts on the wire. */
  function Wire(t: PacketType, ver: int, m: seq<byte>): (w: seq<byte>)
    requires Sendable(t, ver, m)
    ensures |w| <= InMemory(t)
  {
    if Simple(t) then
      SizesGrow(t, ver, Latest(t));
      m[..PacketSize(t, ver)]
    else if Waveform(t) then
      m[..Prefix(t, ver)] + Used(m, WfOffset(t), Channels(t))
    else
      m[..Base(t) + Count(t, ver, m)]
  }

  /** The header that announces version `ver` of m; num_bytes has twenty bits. */
  function HeaderFor(t: PacketType, ver: uint4, m: seq<byte>): Header
    requires Sendable(t, ver, m)
  {
    var w := Wire(t, ver, m);
    Header(TypeCode(t), Continue(CRC16_START, w), F1, ver, |w| % 0x10_0000)
  }

  /** What a writer sends for m: the header of the latest version and the wire image. */
  function Frame(t: PacketType, m: seq<byte>): seq<byte>
    requires Sendable(t, Latest(t), m)
  {
    Encode(HeaderFor(t, Latest(t), m)) + Wire(t, Latest(t), m)
  }

  /** Twenty bits always hold the length, and every type except the full event
      also fits, with its header, in one datagram of 65507 bytes. */
  lemma LengthBound(t: PacketType, ver: uint4, m: seq<byte>)
    requires Sendable(t, ver, m)
    ensures HeaderFor(t, ver, m).numBytes == |Wire(t, ver, m)|
    ensures 4 <= |Wire(t, ver, m)| <= 459696
    ensures t != FullWaveforms ==> HEAD_SIZE + |Wire(t, ver, m)| <= 65507
  {
    hide Continue, U16At;
    if Simple(t) {
      SizesGrow(t, ver, Latest(t));
    }
  }
}
