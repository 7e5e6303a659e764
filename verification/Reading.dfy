/** The reading half of src/rawio.c and src/rawio_packets.c as a function of the
    handle's state. Every function below does what the C function of the same name
    does with that state; Rawio.dfy carries out the same steps in place. */
module Reading {
  import opened Crc
  import opened Versions
  import opened Packets

  const EOF: int := -1
  const EIO: int := -5
  const EMSGSIZE: int := -90

  const TWO_TO_THE_64: nat := 0x1_0000_0000_0000_0000
  type uint64 = n: nat | n < TWO_TO_THE_64

  function Wrap64(n: int): uint64 {
    n % TWO_TO_THE_64
  }

  //////////////////////////////////////////////////////////////////////////////
  // State and transports
  //////////////////////////////////////////////////////////////////////////////

  /** Where bytes come from: what is left of a byte stream, or what is left of the
      current datagram (buf[nout..nin]) and the datagrams still to arrive. A source is
      Starved when more datagrams have been asked for than arrive: recv then waits. */
  datatype Source =
    | Stream(rest: seq<byte>)
    | Datagrams(cur: seq<byte>, queue: seq<seq<byte>>)
    | Starved

  /** The chunks one after the other. */
  function Flatten(ds: seq<seq<byte>>): seq<byte> {
    if ds == [] then [] else ds[0] + Flatten(ds[1..])
  }

  /** The bytes of s that can be had without receiving. */
  function Ahead(s: Source): seq<byte> {
    match s
    case Stream(rest) => rest
    case Datagrams(cur, _) => cur
    case Starved => []
  }

  /** s behind the next n of these. */
  function Past(s: Source, n: nat): (s': Source)
    requires n <= |Ahead(s)|
    ensures Ahead(s') == Ahead(s)[n..]
  {
    match s
    case Stream(rest) => Stream(rest[n..])
    case Datagrams(cur, queue) => Datagrams(cur[n..], queue)
    case Starved => s
  }

  /** All bytes of the current datagram have been taken. */
  predicate UsedUp(s: Source) {
    s.Datagrams? && s.cur == []
  }

  /** s with a used-up datagram replaced by the next, which may be empty; with none to come,
      recv waits. */
  function Front(s: Source): Source {
    if !UsedUp(s) then s else if s.queue == [] then Starved else Datagrams(s.queue[0], s.queue[1..])
  }

  /** A payload size: some sizeof(pueo_X_t), or 0. */
  type Size = n: nat | n <= MAX_IN_MEMORY

  /** The fields of pueo_handle_t that reading uses. */
  datatype Reader = Reader(head: Header, required: Size, gotHead: bool, bytesRead: uint64, src: Source)

  function Available(r: Reader): seq<byte> {
    Ahead(r.src)
  }

  /** The call waits in recv: what the functions below compute from here on happens
      only in the model, and the reads say Waiting. */
  predicate Waits(r: Reader) {
    r.src.Starved?
  }

  /** r with the next n available bytes consumed. */
  function Skip(r: Reader, n: nat): (r': Reader)
    requires n <= |Available(r)|
    ensures Available(r') == Available(r)[n..]
  {
    r.(src := Past(r.src, n))
  }

  /** A used-up datagram is replaced before anything is read, however little. To receive
      one marks the header as already read (src/rawio.c:135). */
  function Refill(r: Reader): Reader {
    r.(src := Front(r.src), gotHead := r.gotHead || (UsedUp(r.src) && r.src.queue != []))
  }

  /** read_bytes: at most n of the available bytes. */
  function ReadBytes(r: Reader, n: nat): (res: (Reader, seq<byte>))
    ensures |res.1| <= n
  {
    var r1 := Refill(r);
    var k := Min(n, |Available(r1)|);
    (Skip(r1, k), Available(r1)[..k])
  }

  /** Nothing is read by a call that waits. */
  lemma WaitingReadsNothing(r: Reader, n: nat)
    ensures Waits(ReadBytes(r, n).0) ==> ReadBytes(r, n).1 == []
    ensures Waits(r) ==> ReadBytes(r, n) == (r, [])
  {}

  //////////////////////////////////////////////////////////////////////////////
  // Packet readers
  //////////////////////////////////////////////////////////////////////////////

  /** Trap: the program stops on an assertion, or a count in a struct reaches past its array. */
  datatype Outcome = Trap | Done(r: Reader, mem: seq<byte>, ret: int)

  /** SIMPLE_PUEO_I_IMPL */
  function ReadSimple(r: Reader, t: PacketType, ver: int, d: seq<byte>): (o: Outcome)
    requires Simple(t) && |d| == InMemory(t)
    ensures o.Done? ==> |o.mem| == |d|
  {
    var size := PacketSize(t, ver);
    if size < 0 || size > InMemory(t) then
      Done(r, d, -1)
    else
      var (r1, b) := ReadBytes(r, size);
      Done(r1, Clear(Splice(d, 0, b), size, InMemory(t)), |b|)
  }

  /** The zeroing at the end of the counted readers, each in its own form;
      `nrd` is how much has been read. */
  function ClearTail(t: PacketType, ver: int, d: seq<byte>, nrd: nat): (d': seq<byte>)
    requires Counted(t) && |d| == InMemory(t) && nrd <= |d| && CountFits(t, ver, d)
    ensures |d'| == |d|
  {
    match t
    case SensorsDisk =>
      if ver != 0 && U16At(d, 0) < 256 then Clear(d, nrd, |d|) else d
    case SensorsTelem => Clear(d, nrd, |d|)
    case NavSat => Clear(d, nrd, |d|)
    case CmdEcho => Clear(d, Base(t) + Count(t, ver, d), ArrayEnd(t))
    case FileDownload => Clear(d, Base(t) + Count(t, ver, d), ArrayEnd(t))
    case Logs => Clear(d, Base(t) + Count(t, ver, d), ArrayEnd(t))
  }

  lemma CountLocal(t: PacketType, ver: int, m: seq<byte>, m': seq<byte>)
    requires Counted(t) && Base(t) <= |m| && Base(t) <= |m'| && m[..Base(t)] == m'[..Base(t)]
    ensures Count(t, ver, m) == Count(t, ver, m')
  {
    assert forall i :: 0 <= i < Base(t) ==> m[i] == m[..Base(t)][i] && m'[i] == m'[..Base(t)][i];
  }

  /** The second half of the counted readers: as much of the array as the fields now
      in memory say, and zeroes after it. `nrd` bytes have been read before. */
  function ReadArray(r: Reader, t: PacketType, ver: int, d: seq<byte>, nrd: nat): (o: Outcome)
    requires Counted(t) && |d| == InMemory(t) && nrd <= Base(t)
    ensures o.Done? ==> |o.mem| == |d|
  {
    if Waits(r) then
      Done(r, d, nrd)
    else if !CountFits(t, ver, d) then
      Trap
    else
      var (r1, b) := ReadBytes(r, Count(t, ver, d));
      var d1 := Splice(d, Base(t), b);
      CountLocal(t, ver, d, d1);
      Done(r1, ClearTail(t, ver, d1, nrd + |b|), nrd + |b|)
  }

  /** The readers of the counted types: the fixed part, then the array. */
  function ReadCounted(r: Reader, t: PacketType, ver: int, d: seq<byte>): (o: Outcome)
    requires Counted(t) && |d| == InMemory(t)
    ensures o.Done? ==> |o.mem| == |d|
  {
    var (r1, b) := ReadBytes(r, Base(t));
    ReadArray(r1, t, ver, Splice(d, 0, b), |b|)
  }

  /** read_waveform into d[at..] */
  function ReadWaveform(r: Reader, d: seq<byte>, at: nat): (res: (Reader, seq<byte>, int))
    requires at + WF_SIZE <= |d|
    ensures |res.1| == |d|
  {
    var (r1, b1) := ReadBytes(r, WF_DATA);
    var d1 := Splice(d, at, b1);
    if |b1| != WF_DATA then
      (r1, d1, -1)
    else
      var n := WfBytes(d1, at) - WF_DATA;
      var (r2, b2) := ReadBytes(r1, n);
      (r2, Splice(d1, at + WF_DATA, b2), if |b2| != n then -1 else WF_DATA + n)
  }

  /** The channel loop: n waveforms from d[at..] on, `total` bytes read before them. */
  function ReadChannels(r: Reader, d: seq<byte>, at: nat, n: nat, total: int): (o: Outcome)
    requires at + n * WF_SIZE <= |d|
    ensures o.Done? && |o.mem| == |d|
    decreases n
  {
    if n == 0 then
      Done(r, d, total)
    else
      var (r1, d1, k) := ReadWaveform(r, d, at);
      if k < 0 then Done(r1, d1, -1) else ReadChannels(r1, d1, at + WF_SIZE, n - 1, total + k)
  }

  /** The readers of the waveform types. Version 0 zeroes readout_time. */
  function ReadWaveforms(r: Reader, t: PacketType, ver: int, d: seq<byte>): (o: Outcome)
    requires Waveform(t) && |d| == InMemory(t)
    ensures o.Done? && |o.mem| == |d|
  {
    var d0 := if ver == 0 then Clear(d, READOUT_TIME, READOUT_TIME + 8) else d;
    var (r1, b) := ReadBytes(r, Prefix(t, ver));
    var d1 := Splice(d0, 0, b);
    if |b| != Prefix(t, ver) then
      Done(r1, d1, -1)
    else
      ReadChannels(r1, d1, WfOffset(t), Channels(t), |b|)
  }

  /** pueo_read_packet_X */
  function ReadPacket(r: Reader, t: PacketType, ver: int, d: seq<byte>): (o: Outcome)
    requires |d| == InMemory(t)
    ensures o.Done? ==> |o.mem| == |d|
  {
    if Simple(t) then ReadSimple(r, t, ver, d)
    else if Waveform(t) then ReadWaveforms(r, t, ver, d)
    else ReadCounted(r, t, ver, d)
  }

  //////////////////////////////////////////////////////////////////////////////
  // Headers and typed reads
  //////////////////////////////////////////////////////////////////////////////

  datatype HeaderOutcome = HeaderTrap | HeaderWaiting | HeaderDone(r: Reader, ret: int)

  /** maybe_read_header: the handle's header is overwritten by as much as arrives. */
  function MaybeReadHeader(r: Reader): HeaderOutcome {
    if r.gotHead then
      HeaderDone(r, 0)
    else
      var (r1, b) := ReadBytes(r, HEAD_SIZE);
      var head := Decode(Splice(Encode(r.head), 0, b));
      if Waits(r1) then
        HeaderWaiting
      else if b == [] then
        HeaderDone(r1, EOF)
      else if head.f1 != F1 then
        HeaderTrap
      else
        HeaderDone(r1.(head := head, gotHead := true, bytesRead := Wrap64(r1.bytesRead + |b|)), |b|)
  }

  /** The result of a typed read: state, memory, return value, and whether the
      checksum and the length message were printed. */
  datatype ReadResult =
    | Trapped
    | Waiting
    | Returned(r: Reader, mem: seq<byte>, ret: int, badSum: bool, badLen: bool)

  /** The second half of pueo_read_X, once the header says X. */
  function ReadBody(r: Reader, t: PacketType, d: seq<byte>): (res: ReadResult)
    requires |d| == InMemory(t)
    ensures res.Returned? ==> |res.mem| == |d|
  {
    var ver := r.head.version;
    match ReadPacket(r.(gotHead := false), t, ver, d)
    case Trap => Trapped
    case Done(r1, mem, nrd) =>
      if Waits(r1) then
        Waiting
      else if !Sendable(t, ver, mem) then
        Trapped
      else
        var check := HeaderFor(t, ver, mem);
        Returned(r1.(bytesRead := Wrap64(r1.bytesRead + nrd)), mem, nrd,
                 check.cksum != r1.head.cksum,
                 nrd != r1.head.numBytes || r1.head.numBytes != check.numBytes)
  }

  /** pueo_read_X */
  function Read(r: Reader, t: PacketType, d: seq<byte>): (res: ReadResult)
    requires |d| == InMemory(t)
    ensures res.Returned? ==> |res.mem| == |d|
  {
    match MaybeReadHeader(r)
    case HeaderTrap => Trapped
    case HeaderWaiting => Waiting
    case HeaderDone(r1, h) =>
      if h == EOF then Returned(r1, d, EOF, false, false)
      else if r1.head.code == TypeCode(t) then ReadBody(r1, t, d)
      else Returned(r1, d, 0, false, false)
  }

  //////////////////////////////////////////////////////////////////////////////
  // Generic reads
  //////////////////////////////////////////////////////////////////////////////

  /** pueo_packet_t: a header and a payload of |payload| == payload_capacity bytes. */
  datatype Packet = Packet(head: Header, payload: seq<byte>)

  const NO_HEAD: Header := Header(0, 0, 0, 0, 0)

  datatype LlResult =
    | LlTrapped
    | LlWaiting
    | LlReturned(r: Reader, p: Packet, ret: int, badSum: bool, badLen: bool)

  /** sizeof of the type a header announces; unknown types leave `required` alone. */
  function RequiredFor(r: Reader): Size {
    match TypeOf(r.head.code)
    case Some(t) => InMemory(t)
    case None => r.required
  }

  /** pueo_ll_read from the capacity check on. */
  function LlReadBody(r: Reader, p: Packet): LlResult {
    if |p.payload| < r.required then
      LlReturned(r, p.(head := NO_HEAD), EMSGSIZE, false, false)
    else
      match TypeOf(r.head.code)
      case None => LlReturned(r.(required := 0, gotHead := false), p.(head := r.head), 0, false, false)
      case Some(t) =>
        if |p.payload| < InMemory(t) then
          LlTrapped
        else
          match Read(r, t, p.payload[..InMemory(t)])
          case Trapped => LlTrapped
          case Waiting => LlWaiting
          case Returned(r1, mem, nrd, badSum, badLen) =>
            LlReturned(r1.(required := 0, gotHead := false),
                       Packet(r.head, mem + p.payload[InMemory(t)..]), nrd, badSum, badLen)
  }

  /** pueo_ll_read */
  function LlRead(r: Reader, p: Packet): LlResult {
    if r.required != 0 then
      LlReadBody(r, p)
    else
      match MaybeReadHeader(r)
      case HeaderTrap => LlTrapped
      case HeaderWaiting => LlWaiting
      case HeaderDone(r1, h) =>
        if h == EOF then LlReturned(r1, p, EOF, false, false)
        else if h < HEAD_SIZE then LlReturned(r1, p, EIO, false, false)
        else LlReadBody(r1.(required := RequiredFor(r1)), p)
  }

  /** What malloc happens to return, as far as a packet can need it. */
  type Junk = j: seq<byte> | |j| == MAX_IN_MEMORY
    witness Zeros(MAX_IN_MEMORY)

  const FIRST_CAPACITY: nat := 512

  /** pueo_ll_read_realloc; junk1 and junk2 are the contents of the memory that the
      two allocations return. */
  function LlReadRealloc(r: Reader, dest: Option<Packet>, junk1: Junk, junk2: Junk): LlResult {
    var p := if dest.None? then Packet(NO_HEAD, junk1[..FIRST_CAPACITY]) else dest.value;
    match LlRead(r, p)
    case LlTrapped => LlTrapped
    case LlWaiting => LlWaiting
    case LlReturned(r1, p1, ret, badSum, badLen) =>
      if ret == EMSGSIZE then
        LlRead(r1, Packet(NO_HEAD, junk2[..r1.required]))
      else
        LlReturned(r1, p1, ret, badSum, badLen)
  }

  /** The result of a generic read says that the packet did not fit. */
  predicate NoRoomIn(res: LlResult) {
    res.LlReturned? && res.ret == EMSGSIZE
  }

  /** Whatever malloc returns, pueo_ll_read_realloc neither stops nor waits. */
  ghost predicate AlwaysReturns(r: Reader, dest: Option<Packet>) {
    forall junk1: Junk, junk2: Junk :: LlReadRealloc(r, dest, junk1, junk2).LlReturned?
  }
}
