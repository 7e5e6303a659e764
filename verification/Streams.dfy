/** What reading gives back: one step over a valid frame, whole streams, and the
    refinement of the byte stream by the datagram transport. */
module Streams {
  import opened Crc
  import opened Versions
  import opened Packets
  import opened Reading
  import opened Grammar
  import opened Writing
  import opened Frames

  //////////////////////////////////////////////////////////////////////////////
  // One header, one body
  //////////////////////////////////////////////////////////////////////////////

  /** A handle that is about to read a header. */
  predicate AtStart(r: Reader) {
    r.required == 0 && !r.gotHead
  }

  /** The state once header h has been read. */
  function AfterHeader(r: Reader, h: Header): Reader
    requires HEAD_SIZE <= |Available(Refill(r))|
  {
    Skip(Refill(r), HEAD_SIZE).(head := h, gotHead := true, bytesRead := Wrap64(r.bytesRead + HEAD_SIZE))
  }

  lemma ReadsHeader(r: Reader, h: Header)
    requires !r.gotHead && HEAD_SIZE <= |Available(Refill(r))|
    requires Available(Refill(r))[..HEAD_SIZE] == Encode(h) && h.f1 == F1
    ensures MaybeReadHeader(r) == HeaderDone(AfterHeader(r, h), HEAD_SIZE)
  {
    hide Encode, Decode;
    assert ReadBytes(r, HEAD_SIZE) == (Skip(Refill(r), HEAD_SIZE), Encode(h));
    assert Splice(Encode(r.head), 0, Encode(h)) == Encode(h);
    DecodeEncode(h);
  }

  /** The state once a payload of n bytes has been read after its header. */
  function AfterBody(r: Reader, n: nat, endsEmpty: bool): Reader
    requires n <= |Available(r)|
  {
    After(r.(gotHead := false), n, endsEmpty).(bytesRead := Wrap64(r.bytesRead + n))
  }

  lemma AfterKeeps(r: Reader, n: nat, endsEmpty: bool)
    requires n <= |Available(r)|
    ensures var r' := After(r, n, endsEmpty);
      r'.head == r.head && r'.required == r.required && r'.bytesRead == r.bytesRead
  {}

  lemma HeaderOfStored(t: PacketType, ver: uint4, mem: seq<byte>, b: seq<byte>)
    requires Stores(t, ver, mem, b)
    ensures HeaderFor(t, ver, mem).cksum == Continue(CRC16_START, b)
    ensures HeaderFor(t, ver, mem).numBytes == |b|
  {
    hide Wire, Continue, Sendable;
    LengthBound(t, ver, mem);
  }

  /** The result of reading a body of n bytes: the checksum message is printed iff the
      header's checksum is not that of the n bytes, and the length message iff the
      header's length is not n. */
  ghost predicate BodyRead(r: Reader, t: PacketType, d: seq<byte>, n: nat, endsEmpty: bool, res: ReadResult)
    requires |d| == InMemory(t) && n <= |Available(r)|
  {
    && res.Returned? && res.r == AfterBody(r, n, endsEmpty) && res.ret == n
    && (res.badSum <==> r.head.cksum != Continue(CRC16_START, Available(r)[..n]))
    && (res.badLen <==> r.head.numBytes != n)
    && Filled(t, r.head.version, Available(r), n, d, res.mem)
  }

  /** Asking for an empty last part at the end of the last datagram waits for another one. */
  predicate Stalls(r: Reader, n: nat, endsEmpty: bool) {
    endsEmpty && r.src.Datagrams? && n == |r.src.cur| && r.src.queue == []
  }

  lemma AfterWaits(r: Reader, n: nat, endsEmpty: bool)
    requires 0 < n <= |Available(r)|
    ensures Waits(After(r, n, endsEmpty)) <==> Stalls(r, n, endsEmpty)
  {}

  /** A typed read after its header, on arbitrary bytes that start with a payload: it waits
      iff the payload is the end of the last datagram and ends in a part of no bytes. */
  lemma ReadsBody(r: Reader, t: PacketType, d: seq<byte>, n: nat)
    requires |d| == InMemory(t) && PayloadLen(t, r.head.version, Available(r)) == Some(n)
    ensures var e := EndsEmpty(t, r.head.version, Available(r));
      if Stalls(r, n, e) then ReadBody(r, t, d) == Waiting else BodyRead(r, t, d, n, e, ReadBody(r, t, d))
  {
    hide Wire, Continue, Sendable, PayloadLen, After, EndsEmpty, HeaderFor, ReadPacket, Image, Kept;
    var ver, s := r.head.version, Available(r);
    var r0 := r.(gotHead := false);
    var e := EndsEmpty(t, ver, s);
    ReadsPayload(r0, t, ver, d, n);
    AfterKeeps(r0, n, e);
    AfterWaits(r0, n, e);
    if !Stalls(r, n, e) {
      HeaderOfStored(t, ver, ReadPacket(r0, t, ver, d).mem, s[..n]);
    }
  }

  //////////////////////////////////////////////////////////////////////////////
  // Sources that hold messages
  //////////////////////////////////////////////////////////////////////////////

  /** The chunks that carry messages, and those that follow. */
  function Chunks(fs: seq<Message>, more: seq<seq<byte>>): (ds: seq<seq<byte>>)
    ensures fs != [] ==> ds != []
  {
    if fs == [] then more else [Bytes(fs[0])] + Chunks(fs[1..], more)
  }

  lemma {:induction false} ChunksPacked(fs: seq<Message>, more: seq<seq<byte>>)
    ensures Chunks(fs, more) == Packed(fs) + more
  {
    hide Bytes;
    if fs == [] {
      assert Packed(fs) + more == more;
    } else {
      ChunksPacked(fs[1..], more);
      assert [Bytes(fs[0])] + (Packed(fs[1..]) + more) == [Bytes(fs[0])] + Packed(fs[1..]) + more;
    }
  }

  /** The source holds these messages and then more, in chunks: as a stream, or as
      datagrams of which the first may have been received already. */
  ghost predicate Holds(r: Reader, fs: seq<Message>, more: seq<seq<byte>>) {
    var ds := Chunks(fs, more);
    match r.src
    case Stream(rest) => rest == Flatten(ds)
    case Datagrams(cur, queue) =>
      || (cur == [] && queue == ds)
      || (ds != [] && cur == ds[0] && queue == ds[1..])
    case Starved => false
  }

  /** The source once the chunk before ds has been read: the next datagram has been received
      already if the chunk ended in a part of no bytes. */
  function SourceBehind(stream: bool, ds: seq<seq<byte>>, endsEmpty: bool): Source {
    if stream then Stream(Flatten(ds))
    else if endsEmpty && ds != [] then Datagrams(ds[0], ds[1..])
    else Datagrams([], ds)
  }

  /** The bytes behind the first message: none in a datagram. */
  function Behind(r: Reader, fs: seq<Message>, more: seq<seq<byte>>): seq<byte>
    requires fs != []
  {
    if r.src.Stream? then Flatten(Chunks(fs[1..], more)) else []
  }

  lemma FirstInFront(r: Reader, fs: seq<Message>, more: seq<seq<byte>>)
    requires fs != [] && Holds(r, fs, more)
    ensures Available(Refill(r)) == Bytes(fs[0]) + Behind(r, fs, more)
    ensures Refill(r).src == if r.src.Stream? then r.src else Datagrams(Bytes(fs[0]), Chunks(fs[1..], more))
  {
    hide Bytes;
    assert Bytes(fs[0]) + [] == Bytes(fs[0]);
    assert Chunks(fs, more)[1..] == Chunks(fs[1..], more);
  }

  lemma HeaderInFront(r: Reader, fs: seq<Message>, more: seq<seq<byte>>)
    requires fs != [] && Holds(r, fs, more) && Framed(fs[0]) && !r.gotHead
    ensures var f := fs[0]; var r1 := AfterHeader(r, f.head); var ds := Chunks(fs[1..], more);
      && HEAD_SIZE <= |Available(Refill(r))|
      && MaybeReadHeader(r) == HeaderDone(r1, HEAD_SIZE)
      && Available(r1) == f.payload + Behind(r, fs, more)
      && r1.src == if r.src.Stream? then Stream(f.payload + Flatten(ds)) else Datagrams(f.payload, ds)
  {
    hide PayloadLen, Continue, Encode, Holds, Refill, MaybeReadHeader, Chunks, Flatten;
    var f := fs[0];
    var s := Available(Refill(r));
    FirstInFront(r, fs, more);
    assert s[..HEAD_SIZE] == Encode(f.head);
    assert s[HEAD_SIZE..] == f.payload + Behind(r, fs, more);
    assert f.payload + [] == f.payload;
    ReadsHeader(r, f.head);
  }

  lemma PayloadInFront(f: Message, s: seq<byte>)
    requires Framed(f) && f.payload <= s
    ensures PayloadLen(f.t, f.head.version, s) == Some(|f.payload|)
    ensures EndsEmpty(f.t, f.head.version, s) == EndsBare(f)
    ensures s[..|f.payload|] == f.payload
  {
    hide PayloadLen, Continue, EndsEmpty;
    PayloadLocal(f.t, f.head.version, f.payload, s);
  }

  /** What is left after the payload of the first message has been consumed. */
  lemma RestHolds(r: Reader, fs: seq<Message>, more: seq<seq<byte>>, endsEmpty: bool)
    requires fs != []
    requires var ds := Chunks(fs[1..], more);
      r.src == Stream(fs[0].payload + Flatten(ds)) || r.src == Datagrams(fs[0].payload, ds)
    ensures var n := |fs[0].payload|;
      && (Stalls(r, n, endsEmpty) <==> r.src.Datagrams? && endsEmpty && Chunks(fs[1..], more) == [])
      && (!Stalls(r, n, endsEmpty) ==>
            && Holds(After(r, n, endsEmpty), fs[1..], more)
            && After(r, n, endsEmpty).src == SourceBehind(r.src.Stream?, Chunks(fs[1..], more), endsEmpty)
            && After(r, n, endsEmpty).gotHead == (r.gotHead || (r.src.Datagrams? && endsEmpty)))
  {
    hide Bytes, Chunks, Flatten;
    var n := |fs[0].payload|;
    if r.src.Stream? {
      var rest := Flatten(Chunks(fs[1..], more));
      assert (fs[0].payload + rest)[n..] == rest;
    } else {
      assert fs[0].payload[n..] == [];
    }
  }

  /** The read of the first message does not return until something follows it: the message
      ends in a part of no bytes, and no other datagram has come or comes. */
  predicate Hangs(r: Reader, fs: seq<Message>, more: seq<seq<byte>>)
    requires fs != [] && Framed(fs[0])
  {
    r.src.Datagrams? && EndsBare(fs[0]) && Chunks(fs[1..], more) == []
  }

  /** What reading the body of the first message leaves behind. */
  ghost predicate TookFirst(r: Reader, fs: seq<Message>, more: seq<seq<byte>>, res: ReadResult)
    requires fs != [] && Framed(fs[0])
  {
    var f := fs[0];
    && res.Returned? && res.ret == |f.payload|
    && (res.badSum <==> SumWrong(f)) && (res.badLen <==> LengthWrong(f))
    && Stores(f.t, f.head.version, res.mem, f.payload)
    && Holds(res.r, fs[1..], more)
    && res.r.src == SourceBehind(r.src.Stream?, Chunks(fs[1..], more), EndsBare(f))
    && res.r.head == f.head
    && res.r.bytesRead == Wrap64(r.bytesRead + |Bytes(f)|)
    && res.r.gotHead == (r.src.Datagrams? && EndsBare(f))
  }

  /** The state once the header of a packet is known, with `q` for required_read_size. */
  function Known(r: Reader, h: Header, q: Size): Reader
    requires HEAD_SIZE <= |Available(Refill(r))|
  {
    AfterHeader(r, h).(required := q)
  }

  lemma KnownHead(r: Reader, h: Header, q: Size)
    requires HEAD_SIZE <= |Available(Refill(r))|
    ensures var k := Known(r, h, q);
      && k.head == h && k.gotHead && k.required == q && k.src == AfterHeader(r, h).src
      && Available(k) == Available(AfterHeader(r, h))
      && k.bytesRead == Wrap64(r.bytesRead + HEAD_SIZE)
      && k.src.Datagrams? == r.src.Datagrams?
  {}

  /** The books behind a message. */
  lemma BooksBehind(r: Reader, h: Header, n: nat, e: bool, q: Size)
    requires HEAD_SIZE <= |Available(Refill(r))| && n <= |Available(Known(r, h, q))|
    ensures var r2 := AfterBody(Known(r, h, q), n, e);
      r2.head == h && r2.required == q && r2.bytesRead == Wrap64(r.bytesRead + (HEAD_SIZE + n))
  {
    hide Known, After, Wrap64;
    KnownHead(r, h, q);
    AfterKeeps(Known(r, h, q).(gotHead := false), n, e);
    Adds64(r.bytesRead, HEAD_SIZE, n);
  }

  lemma HoldsBytesRead(r: Reader, fs: seq<Message>, more: seq<seq<byte>>, k: uint64)
    requires Holds(r, fs, more)
    ensures Holds(r.(bytesRead := k), fs, more)
  {}

  lemma StallsIgnoresFlag(r: Reader, n: nat, e: bool)
    ensures Stalls(r.(gotHead := false), n, e) == Stalls(r, n, e)
  {}

  /** What the source holds behind the first message. */
  lemma StateBehind(r: Reader, fs: seq<Message>, more: seq<seq<byte>>, e: bool, q: Size)
    requires fs != [] && Holds(r, fs, more) && Framed(fs[0]) && !r.gotHead
    ensures HEAD_SIZE <= |Available(Refill(r))|
    ensures var f := fs[0]; var r1 := Known(r, f.head, q); var n := |f.payload|;
      && n <= |Available(r1)|
      && (Stalls(r1, n, e) <==> r.src.Datagrams? && e && Chunks(fs[1..], more) == [])
      && (!Stalls(r1, n, e) ==>
            && Holds(AfterBody(r1, n, e), fs[1..], more)
            && AfterBody(r1, n, e).src == SourceBehind(r.src.Stream?, Chunks(fs[1..], more), e)
            && AfterBody(r1, n, e).gotHead == (r.src.Datagrams? && e))
  {
    hide Framed, Holds, After, Wrap64, Known, AfterHeader, Chunks, Stalls, SourceBehind;
    var f := fs[0];
    HeaderInFront(r, fs, more);
    KnownHead(r, f.head, q);
    var k := Known(r, f.head, q);
    var r0 := k.(gotHead := false);
    StallsIgnoresFlag(k, |f.payload|, e);
    RestHolds(r0, fs, more, e);
    if !Stalls(k, |f.payload|, e) {
      HoldsBytesRead(After(r0, |f.payload|, e), fs[1..], more, Wrap64(r0.bytesRead + |f.payload|));
    }
  }

  lemma FilledStores(t: PacketType, ver: int, s: seq<byte>, n: nat, d: seq<byte>, mem: seq<byte>)
    requires |d| == InMemory(t) && n <= |s| && Filled(t, ver, s, n, d, mem)
    ensures Stores(t, ver, mem, s[..n])
  {}

  lemma BodyInFront(r: Reader, fs: seq<Message>, more: seq<seq<byte>>, d: seq<byte>, q: Size)
    requires fs != [] && Holds(r, fs, more) && Framed(fs[0]) && !r.gotHead && |d| == InMemory(fs[0].t)
    ensures HEAD_SIZE <= |Available(Refill(r))|
    ensures var res := ReadBody(Known(r, fs[0].head, q), fs[0].t, d);
      if Hangs(r, fs, more) then res == Waiting else TookFirst(r, fs, more, res) && res.r.required == q
  {
    hide Framed, EndsEmpty, EndsBare, Stores, Holds, AfterHeader, AfterBody, ReadBody, Wrap64, Filled,
      PayloadLen, Refill, Available, Behind, Encode, Continue, InMemory, TypeCode, Known, Chunks, Stalls, SourceBehind;
    var f := fs[0];
    HeaderInFront(r, fs, more);
    KnownHead(r, f.head, q);
    var r1 := Known(r, f.head, q);
    PayloadInFront(f, Available(r1));
    ReadsBody(r1, f.t, d, |f.payload|);
    StateBehind(r, fs, more, EndsBare(f), q);
    if !Hangs(r, fs, more) {
      FilledStores(f.t, f.head.version, Available(r1), |f.payload|, d, ReadBody(r1, f.t, d).mem);
      BooksBehind(r, f.head, |f.payload|, EndsBare(f), q);
    }
  }

  //////////////////////////////////////////////////////////////////////////////
  // Generic reads of what a source holds
  //////////////////////////////////////////////////////////////////////////////

  /** Packet p carries message f: its header, and its payload in a buffer large enough. */
  ghost predicate Carries(p: Packet, f: Message) {
    && p.head == f.head && InMemory(f.t) <= |p.payload|
    && Stores(f.t, f.head.version, p.payload[..InMemory(f.t)], f.payload)
  }

  /** The handle is between messages, and these and more are still to be read. */
  ghost predicate Between(r: Reader, fs: seq<Message>, more: seq<seq<byte>>) {
    AtStart(r) && Holds(r, fs, more)
  }

  /** A generic read has delivered f, with the messages that its header deserves. */
  ghost predicate Reports(res: LlResult, f: Message) {
    && res.LlReturned? && res.ret == |f.payload| && Carries(res.p, f)
    && (res.badSum <==> SumWrong(f)) && (res.badLen <==> LengthWrong(f))
  }

  /** It has delivered the first of fs, and the others and more are still to be read. */
  ghost predicate Delivers(r: Reader, fs: seq<Message>, more: seq<seq<byte>>, res: LlResult)
    requires fs != [] && Framed(fs[0])
  {
    && Reports(res, fs[0])
    && Between(res.r, fs[1..], more)
    && res.r.src == SourceBehind(r.src.Stream?, Chunks(fs[1..], more), EndsBare(fs[0]))
    && res.r.bytesRead == Wrap64(r.bytesRead + |Bytes(fs[0])|)
  }

  /** It has delivered the first message, or it waits because it has to. */
  ghost predicate DeliversOrHangs(r: Reader, fs: seq<Message>, more: seq<seq<byte>>, res: LlResult)
    requires fs != [] && Framed(fs[0])
  {
    if Hangs(r, fs, more) then res == LlWaiting else Delivers(r, fs, more, res)
  }

  lemma HoldsFields(r: Reader, fs: seq<Message>, more: seq<seq<byte>>)
    requires Holds(r, fs, more)
    ensures Holds(r.(required := 0, gotHead := false), fs, more)
  {}

  /** A typed read whose header has been read already goes straight to the body. */
  lemma ReadAfterHeader(r: Reader, t: PacketType, d: seq<byte>)
    requires r.gotHead && r.head.code == TypeCode(t) && |d| == InMemory(t)
    ensures Read(r, t, d) == ReadBody(r, t, d)
  {
    hide ReadBody, TypeCode, InMemory;
  }

  lemma TypeKnown(f: Message)
    requires Framed(f)
    ensures f.head.code == TypeCode(f.t) && TypeOf(f.head.code) == Some(f.t) && 0 < |f.payload|
  {
    CodesDispatch(f.t, f.head.code);
  }

  /** With room for it, the packet whose header is known is delivered. */
  lemma DeliversKnown(r: Reader, fs: seq<Message>, more: seq<seq<byte>>, p: Packet)
    requires fs != [] && Between(r, fs, more) && Framed(fs[0]) && InMemory(fs[0].t) <= |p.payload|
    ensures HEAD_SIZE <= |Available(Refill(r))|
    ensures DeliversOrHangs(r, fs, more, LlReadBody(Known(r, fs[0].head, InMemory(fs[0].t)), p))
  {
    hide Framed, EndsBare, Stores, Holds, ReadBody, Read, Wrap64, Bytes, TypeCode, TypeOf, InMemory, Known,
      Available, Refill, Hangs, SourceBehind, SumWrong, LengthWrong;
    var f := fs[0];
    var n := InMemory(f.t);
    var d := p.payload[..n];
    TypeKnown(f);
    BodyInFront(r, fs, more, d, n);
    KnownHead(r, f.head, n);
    var k := Known(r, f.head, n);
    ReadAfterHeader(k, f.t, d);
    if !Hangs(r, fs, more) {
      var res := ReadBody(k, f.t, d);
      HoldsFields(res.r, fs[1..], more);
      assert (res.mem + p.payload[n..])[..n] == res.mem;
    }
  }

  lemma HeadAfter(r: Reader, h: Header)
    requires HEAD_SIZE <= |Available(Refill(r))|
    ensures AfterHeader(r, h).head == h && AfterHeader(r, h).gotHead
  {}

  lemma NoRoom(r: Reader, p: Packet)
    ensures |p.payload| < r.required ==>
      LlReadBody(r, p) == LlReturned(r, p.(head := NO_HEAD), EMSGSIZE, false, false)
  {
    hide Read;
  }

  /** Without room for it, a generic read stops behind the header. */
  lemma StopsAtHeader(r: Reader, fs: seq<Message>, more: seq<seq<byte>>, p: Packet)
    requires fs != [] && Between(r, fs, more) && Framed(fs[0])
    ensures HEAD_SIZE <= |Available(Refill(r))|
    ensures var k := Known(r, fs[0].head, InMemory(fs[0].t));
      && LlRead(r, p) == LlReadBody(k, p)
      && (|p.payload| < InMemory(fs[0].t) ==>
            LlRead(r, p) == LlReturned(k, p.(head := NO_HEAD), EMSGSIZE, false, false))
  {
    hide Framed, Holds, LlReadBody, TypeCode, TypeOf, InMemory, Available, Refill, MaybeReadHeader, AfterHeader;
    var f := fs[0];
    TypeKnown(f);
    HeaderInFront(r, fs, more);
    HeadAfter(r, f.head);
    assert LlRead(r, p) == LlReadBody(Known(r, f.head, InMemory(f.t)), p);
    KnownHead(r, f.head, InMemory(f.t));
    NoRoom(Known(r, f.head, InMemory(f.t)), p);
  }

  lemma ResumesKnown(r: Reader, p: Packet)
    requires r.required != 0
    ensures LlRead(r, p) == LlReadBody(r, p)
  {}

  lemma DeliversRet(r: Reader, fs: seq<Message>, more: seq<seq<byte>>, res: LlResult)
    requires fs != [] && Framed(fs[0]) && DeliversOrHangs(r, fs, more, res)
    ensures res.LlWaiting? || (res.LlReturned? && res.ret != EMSGSIZE)
  {}

  /** pueo_ll_read_realloc delivers the next message whatever packet it is given, a null
      pointer included, whatever memory it is given for a new one, and whatever follows the
      message, provided something does where the message ends in a part of no bytes. */
  lemma ReallocDelivers(r: Reader, fs: seq<Message>, more: seq<seq<byte>>, dest: Option<Packet>, junk1: Junk, junk2: Junk)
    requires fs != [] && Between(r, fs, more) && Framed(fs[0])
    ensures DeliversOrHangs(r, fs, more, LlReadRealloc(r, dest, junk1, junk2))
  {
    hide Framed, Between, DeliversOrHangs, LlRead, LlReadBody, Known, Available, Refill, InMemory;
    var p := if dest.None? then Packet(NO_HEAD, junk1[..FIRST_CAPACITY]) else dest.value;
    var n := InMemory(fs[0].t);
    StopsAtHeader(r, fs, more, p);
    var k := Known(r, fs[0].head, n);
    KnownHead(r, fs[0].head, n);
    if |p.payload| < n {
      var p2 := Packet(NO_HEAD, junk2[..n]);
      ResumesKnown(k, p2);
      DeliversKnown(r, fs, more, p2);
    } else {
      DeliversKnown(r, fs, more, p);
      DeliversRet(r, fs, more, LlRead(r, p));
    }
  }

  lemma BodyKeepsCapacity(r: Reader, p: Packet)
    ensures LlReadBody(r, p).LlReturned? ==> |LlReadBody(r, p).p.payload| == |p.payload|
  {
    hide Read;
  }

  /** The packet it delivers in is the given one, or one of 512 bytes for a null pointer, if
      that has room for the struct, and otherwise one of exactly the size of the struct. */
  lemma ReallocCapacity(r: Reader, fs: seq<Message>, more: seq<seq<byte>>, dest: Option<Packet>, junk1: Junk, junk2: Junk)
    requires fs != [] && Between(r, fs, more) && Framed(fs[0]) && !Hangs(r, fs, more)
    ensures var res := LlReadRealloc(r, dest, junk1, junk2);
      var given := if dest.None? then 512 else |dest.value.payload|;
      res.LlReturned? && |res.p.payload| == if given < InMemory(fs[0].t) then InMemory(fs[0].t) else given
  {
    hide Framed, Between, LlReadBody, Known, Available, Refill, InMemory, Hangs, LlRead;
    var p := if dest.None? then Packet(NO_HEAD, junk1[..FIRST_CAPACITY]) else dest.value;
    var n := InMemory(fs[0].t);
    StopsAtHeader(r, fs, more, p);
    var k := Known(r, fs[0].head, n);
    KnownHead(r, fs[0].head, n);
    ReallocDelivers(r, fs, more, dest, junk1, junk2);
    if |p.payload| < n {
      var p2 := Packet(NO_HEAD, junk2[..n]);
      ResumesKnown(k, p2);
      BodyKeepsCapacity(k, p2);
    } else {
      DeliversKnown(r, fs, more, p);
      DeliversRet(r, fs, more, LlRead(r, p));
      BodyKeepsCapacity(k, p);
    }
  }

  //////////////////////////////////////////////////////////////////////////////
  // Whole streams
  //////////////////////////////////////////////////////////////////////////////

  /** One turn of a reading loop: whether the packet of the turn before is freed first, as
      test/read-packets.c does, and what the allocations of the turn return. */
  datatype Turn = Turn(freed: bool, junk1: Junk, junk2: Junk)

  function TurnResult(r: Reader, dest: Option<Packet>, turn: Turn): LlResult {
    LlReadRealloc(r, if turn.freed then None else dest, turn.junk1, turn.junk2)
  }

  /** A loop that calls pueo_ll_read_realloc on one packet variable until a call returns
      no bytes, or waits, for as many turns as given: the results of its calls. */
  function ReadLoop(r: Reader, dest: Option<Packet>, turns: seq<Turn>): seq<LlResult>
    decreases |turns|
  {
    if turns == [] then []
    else
      var res := TurnResult(r, dest, turns[0]);
      if res.LlReturned? && res.ret > 0 then
        [res] + ReadLoop(res.r, Some(res.p), turns[1..])
      else
        [res]
  }

  /** What may follow the last message: chunks of no bytes. As datagrams these are what
      a reader takes for the end of the input. */
  ghost predicate Blank(more: seq<seq<byte>>) {
    forall i :: 0 <= i < |more| ==> more[i] == []
  }

  /** The last call of a reading loop: EOF at the end of a stream or on a datagram of no
      bytes, without a byte counted; but where no datagram is left, it waits. */
  ghost predicate Ends(r: Reader, res: LlResult) {
    if r.src.Datagrams? && r.src.queue == [] then
      res == LlWaiting
    else
      && res.LlReturned? && res.ret == EOF && !res.badSum && !res.badLen
      && res.r.bytesRead == r.bytesRead && (r.src.Stream? ==> res.r == r && r.src.rest == [])
  }

  /** Step by step, the results are one delivery for each message, in order, and then the
      end, unless a call waits. */
  ghost predicate DeliversAll(r: Reader, fs: seq<Message>, more: seq<seq<byte>>, out: seq<LlResult>)
    requires AllFramed(fs)
    decreases |fs|
  {
    if fs == [] then
      |out| == 1 && Ends(r, out[0])
    else if Hangs(r, fs, more) then
      out == [LlWaiting]
    else
      out != [] && Delivers(r, fs, more, out[0]) && DeliversAll(out[0].r, fs[1..], more, out[1..])
  }

  lemma {:induction false} BlankIsEmpty(more: seq<seq<byte>>)
    requires Blank(more)
    ensures Flatten(more) == []
  {
    if more != [] {
      BlankIsEmpty(more[1..]);
    }
  }

  lemma AtTheEnd(r: Reader, more: seq<seq<byte>>)
    requires Between(r, [], more) && Blank(more)
    ensures Available(r) == [] && Available(Refill(r)) == [] && !Waits(r)
    ensures Waits(Refill(r)) <==> r.src.Datagrams? && r.src.queue == []
    ensures Refill(r).bytesRead == r.bytesRead && (r.src.Stream? ==> Refill(r) == r)
  {
    BlankIsEmpty(more);
    assert Chunks([], more) == more;
  }

  lemma NoHeader(r: Reader)
    requires !r.gotHead && Available(Refill(r)) == []
    ensures MaybeReadHeader(r) == if Waits(Refill(r)) then HeaderWaiting else HeaderDone(Refill(r), EOF)
  {
    hide Encode, Decode;
    assert ReadBytes(r, HEAD_SIZE) == (Skip(Refill(r), 0), []);
    SkipNone(Refill(r));
  }

  lemma EndOfMessages(r: Reader, more: seq<seq<byte>>, dest: Option<Packet>, junk1: Junk, junk2: Junk)
    requires Between(r, [], more) && Blank(more)
    ensures Ends(r, LlReadRealloc(r, dest, junk1, junk2))
  {
    hide Encode, Decode, LlReadBody, MaybeReadHeader, Holds;
    AtTheEnd(r, more);
    NoHeader(r);
  }

  lemma EndIsLast(r: Reader, res: LlResult)
    requires Ends(r, res)
    ensures !(res.LlReturned? && res.ret > 0)
  {}

  lemma DeliveryIsPositive(r: Reader, fs: seq<Message>, more: seq<seq<byte>>, res: LlResult)
    requires fs != [] && Framed(fs[0]) && Delivers(r, fs, more, res)
    ensures res.LlReturned? && res.ret > 0 && Between(res.r, fs[1..], more)
  {}

  lemma {:induction false} LoopDelivers(r: Reader, fs: seq<Message>, more: seq<seq<byte>>, dest: Option<Packet>,
      turns: seq<Turn>)
    requires Between(r, fs, more) && AllFramed(fs) && Blank(more) && |fs| < |turns|
    ensures DeliversAll(r, fs, more, ReadLoop(r, dest, turns))
    decreases |fs|
  {
    hide LlReadRealloc, Delivers, Between, Framed, Blank, Ends, Hangs;
    var turn := turns[0];
    var p := if turn.freed then None else dest;
    var out := ReadLoop(r, dest, turns);
    var res := TurnResult(r, dest, turn);
    if fs == [] {
      EndOfMessages(r, more, p, turn.junk1, turn.junk2);
      EndIsLast(r, res);
    } else {
      ReallocDelivers(r, fs, more, p, turn.junk1, turn.junk2);
      if !Hangs(r, fs, more) {
        DeliveryIsPositive(r, fs, more, res);
        LoopDelivers(res.r, fs[1..], more, Some(res.p), turns[1..]);
        assert out[0] == res && out[1..] == ReadLoop(res.r, Some(res.p), turns[1..]);
      }
    }
  }

  /** The last message is not delivered: it comes as a datagram, ends in a part of no bytes,
      and nothing follows it, so that its read waits. */
  predicate LastHangs(r: Reader, fs: seq<Message>, more: seq<seq<byte>>)
    requires AllFramed(fs)
  {
    r.src.Datagrams? && fs != [] && EndsBare(fs[|fs| - 1]) && more == []
  }

  /** How many datagrams are left for the call after the last message, -1 if the read of that
      message lacked one. */
  function Left(r: Reader, fs: seq<Message>, more: seq<seq<byte>>): int
    requires r.src.Datagrams? && AllFramed(fs)
  {
    if fs == [] then |r.src.queue| else if EndsBare(fs[|fs| - 1]) then |more| - 1 else |more|
  }

  /** What a loop of generic reads comes to: every message is delivered, in order and with
      the messages that its header deserves, except for a last one that hangs. Then a stream
      is at its end and reports EOF. Datagrams report EOF too if one is left, which has no
      bytes, and otherwise the call waits. Every byte of the messages has been counted. */
  ghost predicate LoopOutcome(r: Reader, fs: seq<Message>, more: seq<seq<byte>>, out: seq<LlResult>)
    requires AllFramed(fs)
  {
    && |out| == (if LastHangs(r, fs, more) then |fs| else |fs| + 1)
    && (forall i :: 0 <= i < |out| - 1 ==> Reports(out[i], fs[i]))
    && var last := out[|out| - 1];
       if r.src.Datagrams? && Left(r, fs, more) <= 0 then
         last == LlWaiting
       else
         && last.LlReturned? && last.ret == EOF && !last.badSum && !last.badLen
         && last.r.bytesRead == Wrap64(r.bytesRead + |Concat(fs)|)
         && (r.src.Stream? ==> last.r.src == Stream([]))
  }

  /** One delivery before the outcome of the others. */
  lemma OutcomeStep(r: Reader, fs: seq<Message>, more: seq<seq<byte>>, out: seq<LlResult>)
    requires AllFramed(fs) && fs != [] && out != [] && !Hangs(r, fs, more) && !Waits(r)
    requires Delivers(r, fs, more, out[0]) && LoopOutcome(out[0].r, fs[1..], more, out[1..])
    ensures LoopOutcome(r, fs, more, out)
  {
    hide Carries, Between, Framed, EndsBare, SumWrong, LengthWrong, Wrap64, Bytes, Flatten;
    var r1, gs := out[0].r, fs[1..];
    assert gs != [] ==> fs[|fs| - 1] == gs[|gs| - 1];
    assert r.src.Datagrams? ==> Left(r1, gs, more) == Left(r, fs, more);
    assert LastHangs(r1, gs, more) == LastHangs(r, fs, more);
    Adds64(r.bytesRead, |Bytes(fs[0])|, |Concat(gs)|);
    assert out[|out| - 1] == out[1..][|out[1..]| - 1];
    forall i | 0 <= i < |out| - 1
      ensures Reports(out[i], fs[i])
    {
      if i > 0 {
        assert out[i] == out[1..][i - 1] && fs[i] == gs[i - 1];
      }
    }
  }

  lemma NotWaiting(r: Reader, fs: seq<Message>, more: seq<seq<byte>>)
    requires Between(r, fs, more)
    ensures !Waits(r)
  {}

  lemma BetweenNext(r: Reader, fs: seq<Message>, more: seq<seq<byte>>, res: LlResult)
    requires fs != [] && Framed(fs[0]) && Delivers(r, fs, more, res)
    ensures res.LlReturned? && Between(res.r, fs[1..], more)
  {}

  lemma {:induction false} OutcomeOf(r: Reader, fs: seq<Message>, more: seq<seq<byte>>, out: seq<LlResult>)
    requires AllFramed(fs) && Between(r, fs, more) && DeliversAll(r, fs, more, out)
    ensures LoopOutcome(r, fs, more, out)
    decreases |fs|
  {
    hide Framed, EndsBare;
    if fs == [] {
      assert Wrap64(r.bytesRead + 0) == r.bytesRead;
    } else if Hangs(r, fs, more) {
      assert fs[1..] == [];
    } else {
      hide LoopOutcome, Between, Hangs;
      NotWaiting(r, fs, more);
      BetweenNext(r, fs, more, out[0]);
      OutcomeOf(out[0].r, fs[1..], more, out[1..]);
      OutcomeStep(r, fs, more, out);
    }
  }

  /** Reading a source that holds any frames, of whatever types and versions, true or not, as
      a stream or as datagrams, from any packet and with any memory. */
  lemma ReadsAll(r: Reader, fs: seq<Message>, more: seq<seq<byte>>, dest: Option<Packet>, turns: seq<Turn>)
    requires Between(r, fs, more) && AllFramed(fs) && Blank(more) && |fs| < |turns|
    ensures LoopOutcome(r, fs, more, ReadLoop(r, dest, turns))
  {
    hide Between, Framed, Blank, DeliversAll, LoopOutcome, ReadLoop;
    LoopDelivers(r, fs, more, dest, turns);
    OutcomeOf(r, fs, more, ReadLoop(r, dest, turns));
  }

  lemma HangsOnDatagrams(r: Reader, fs: seq<Message>, more: seq<seq<byte>>)
    requires fs != [] && Framed(fs[0])
    ensures Hangs(r, fs, more) ==> r.src.Datagrams?
  {}

  /** The precondition of the method that implements pueo_ll_read_realloc is met at every
      message boundary of a source of frames, and at its end, iff the call does not wait; in no
      case does the program stop. */
  lemma ValidSourceNeverTraps(r: Reader, fs: seq<Message>, more: seq<seq<byte>>, dest: Option<Packet>)
    requires Between(r, fs, more) && AllFramed(fs) && Blank(more)
    ensures AlwaysReturns(r, dest) <==>
      !(r.src.Datagrams? && if fs == [] then r.src.queue == [] else Hangs(r, fs, more))
    ensures forall junk1: Junk, junk2: Junk :: !LlReadRealloc(r, dest, junk1, junk2).LlTrapped?
  {
    hide LlReadRealloc, Between, Framed, Hangs, Blank;
    var waits := r.src.Datagrams? && if fs == [] then r.src.queue == [] else Hangs(r, fs, more);
    forall junk1: Junk, junk2: Junk
      ensures !LlReadRealloc(r, dest, junk1, junk2).LlTrapped?
      ensures LlReadRealloc(r, dest, junk1, junk2).LlReturned? <==> !waits
    {
      if fs == [] {
        EndOfMessages(r, more, dest, junk1, junk2);
      } else {
        ReallocDelivers(r, fs, more, dest, junk1, junk2);
        HangsOnDatagrams(r, fs, more);
      }
    }
    var j: Junk := Zeros(MAX_IN_MEMORY);
    assert LlReadRealloc(r, dest, j, j).LlReturned? <==> !waits;
  }

  lemma NothingIsBlank()
    ensures Blank([])
  {}

  /** A freshly opened handle, its fields cleared. */
  function Opened(src: Source): Reader {
    Reader(NO_HEAD, 0, false, 0, src)
  }

  /** A generic read has delivered f and has nothing to complain of. */
  ghost predicate Accepts(res: LlResult, f: Message) {
    Reports(res, f) && !res.badSum && !res.badLen
  }

  lemma TrueReports(res: LlResult, f: Message)
    requires Valid(f) && Reports(res, f)
    ensures Accepts(res, f)
  {}

  /** What a loop of generic reads makes of a file that holds these messages and no more. */
  ghost predicate ReadBack(out: seq<LlResult>, fs: seq<Message>) {
    && |out| == |fs| + 1
    && (forall i :: 0 <= i < |fs| ==> Accepts(out[i], fs[i]))
    && var last := out[|fs|];
       && last.LlReturned? && last.ret == EOF
       && last.r.src == Stream([]) && last.r.bytesRead == Wrap64(|Concat(fs)|)
  }

  lemma ReadsFile(fs: seq<Message>, dest: Option<Packet>, turns: seq<Turn>)
    requires AllValid(fs) && |fs| < |turns|
    ensures ReadBack(ReadLoop(Opened(Stream(Concat(fs))), dest, turns), fs)
  {
    hide Valid, Framed, ReadLoop, Reports, Accepts, Concat, Packed, Flatten, Chunks, Wrap64;
    ValidIsFramed(fs);
    ChunksPacked(fs, []);
    assert Packed(fs) + [] == Packed(fs);
    FlattenPacked(fs);
    NothingIsBlank();
    var r := Opened(Stream(Concat(fs)));
    ReadsAll(r, fs, [], dest, turns);
    var out := ReadLoop(r, dest, turns);
    forall i | 0 <= i < |fs|
      ensures Accepts(out[i], fs[i])
    {
      TrueReports(out[i], fs[i]);
    }
  }

  lemma AcceptedHead(res: LlResult, f: Message)
    requires Accepts(res, f)
    ensures res.LlReturned? && res.p.head == f.head
  {}

  /** A header names this type, in its latest version. */
  predicate NamesLatest(h: Header, t: PacketType) {
    TypeOf(h.code) == Some(t) && h.version == Latest(t)
  }

  lemma WriteNames(p: Struct)
    requires Writable(p)
    ensures NamesLatest(MessageOf(p).head, p.t)
  {
    hide MessageOf, Continue, TypeOf;
    HeaderNames(p);
  }

  /** The stream round trip: whatever is written to an empty file comes back, every packet in
      order, with its header, which names its type and the latest version, and its used bytes,
      and without a message; then EOF, with the file at its end and every byte counted. */
  lemma FileRoundTrip(w: Writer, ps: seq<Struct>, w': Writer, dest: Option<Packet>, turns: seq<Turn>)
    requires w.sink == File([]) && AllWritable(ps) && w' == WriteAll(w, ps) && |ps| < |turns|
    ensures var out := ReadLoop(Opened(Stream(w'.sink.bytes)), dest, turns);
      && ReadBack(out, MessagesOf(ps))
      && forall i :: 0 <= i < |ps| ==> NamesLatest(out[i].p.head, ps[i].t)
  {
    hide AllValid, ReadLoop, WriteAll, Concat, Accepts, Writable, MessageOf, NamesLatest, Wrap64;
    WrittenToFile(w, ps);
    AllWritesValid(ps);
    var fs := MessagesOf(ps);
    assert w'.sink.bytes == Concat(fs);
    ReadsFile(fs, dest, turns);
    var out := ReadLoop(Opened(Stream(w'.sink.bytes)), dest, turns);
    forall i | 0 <= i < |ps|
      ensures out[i].LlReturned? && NamesLatest(out[i].p.head, ps[i].t)
    {
      AcceptedHead(out[i], fs[i]);
      WriteNames(ps[i]);
    }
  }

  /** The datagram transport refines the byte stream: if every frame fits, a socket sends
      one datagram for each, these together are the bytes that a file would hold, and
      reading the datagrams, with any datagrams of no bytes after them, comes to what
      reading that file comes to, except that the call that finds no datagram left waits:
      the read of the last packet if it ends in a part of no bytes and none follows it,
      or else the one after it, for want of a datagram of no bytes to end on. */
  lemma SocketRefinesFile(w: Writer, ps: seq<Struct>, w': Writer, more: seq<seq<byte>>, dest: Option<Packet>,
      turns: seq<Turn>)
    requires w.sink == Socket([], []) && AllWritable(ps) && w' == WriteAll(w, ps) && |ps| < |turns|
    requires Blank(more) && AllFit(ps)
    ensures |w'.sink.sent| == |ps| && AllValid(MessagesOf(ps)) && AllFramed(MessagesOf(ps))
    ensures WriteAll(w.(sink := File([])), ps).sink.bytes == Flatten(w'.sink.sent)
    ensures var r, r' := Opened(Datagrams([], w'.sink.sent + more)), Opened(Stream(Flatten(w'.sink.sent)));
      && LoopOutcome(r, MessagesOf(ps), more, ReadLoop(r, dest, turns))
      && LoopOutcome(r', MessagesOf(ps), [], ReadLoop(r', dest, turns))
  {
    hide Framed, Writable, MessageOf, ReadLoop, LoopOutcome, Bytes, AllFit, WriteAll, Flatten, MessagesOf, Packed,
      Concat, Chunks, Blank, SumWrong, LengthWrong;
    WrittenToSocket(w, ps);
    WrittenToFile(w.(sink := File([])), ps);
    AllWritesValid(ps);
    var fs := MessagesOf(ps);
    ValidIsFramed(fs);
    assert w'.sink.sent == Packed(fs);
    FlattenPacked(fs);
    ChunksPacked(fs, more);
    ChunksPacked(fs, []);
    assert Packed(fs) + [] == Packed(fs);
    NothingIsBlank();
    ReadsAll(Opened(Datagrams([], Packed(fs) + more)), fs, more, dest, turns);
    ReadsAll(Opened(Stream(Concat(fs))), fs, [], dest, turns);
  }

  //////////////////////////////////////////////////////////////////////////////
  // Typed reads and the end of a datagram
  //////////////////////////////////////////////////////////////////////////////

  lemma KnownIsAfter(r: Reader, h: Header)
    requires r.required == 0 && HEAD_SIZE <= |Available(Refill(r))|
    ensures Known(r, h, 0) == AfterHeader(r, h)
  {}

  /** A typed read of the right type delivers the first message over both transports.
      But it leaves the handle ready for the next header iff the message has been read
      from a stream or does not end in a variable part of no bytes: reading that part at
      the end of a datagram receives the next datagram, which marks its header as read,
      and waits if there is none. */
  lemma TypedReadDelivers(r: Reader, fs: seq<Message>, more: seq<seq<byte>>, d: seq<byte>)
    requires fs != [] && Between(r, fs, more) && Framed(fs[0]) && |d| == InMemory(fs[0].t)
    ensures var res := Read(r, fs[0].t, d);
      if Hangs(r, fs, more) then res == Waiting
      else
        && TookFirst(r, fs, more, res) && res.r.required == 0
        && (Between(res.r, fs[1..], more) <==> !(r.src.Datagrams? && EndsBare(fs[0])))
  {
    hide Framed, EndsBare, Stores, Holds, ReadBody, Wrap64, Bytes, TypeCode, InMemory, Available, Refill,
      MaybeReadHeader, AfterHeader, Hangs, SourceBehind, SumWrong, LengthWrong;
    TypeKnown(fs[0]);
    HeaderInFront(r, fs, more);
    HeadAfter(r, fs[0].head);
    BodyInFront(r, fs, more, d, 0);
    KnownIsAfter(r, fs[0].head);
  }

  /** A handle that takes a header of type t for read can do nothing with the packets
      that follow: generic reads fail with -EIO, and typed reads of other types return 0. */
  lemma StaleHeader(r: Reader, t: PacketType, t1: PacketType, d: seq<byte>, p: Packet)
    requires r.gotHead && r.required == 0 && TypeOf(r.head.code) == Some(t)
    requires t1 != t && |d| == InMemory(t1)
    ensures LlRead(r, p) == LlReturned(r, p, EIO, false, false)
    ensures Read(r, t1, d) == Returned(r, d, 0, false, false)
  {
    hide ReadBody, LlReadBody;
    CodesDispatch(t, r.head.code);
    CodesDispatch(t1, r.head.code);
  }

  /** Such packets are written: a file download of no bytes, which the format provides
      for in order to tell an empty file from a missing one, is one. */
  lemma EmptyFileEndsBare()
    ensures var p := Struct(FileDownload, Zeros(65040));
      Writable(p) && Valid(MessageOf(p)) && EndsBare(MessageOf(p))
  {
    hide Continue;
    var p := Struct(FileDownload, Zeros(65040));
    assert U16At(p.mem, 38) == 0;
    assert Count(FileDownload, 0, p.mem) == 0;
    WritesValid(p);
    var w := MessageOf(p).payload;
    assert w[..40] == p.mem[..40];
    CountLocal(FileDownload, 0, w, p.mem);
  }

  /** A generic read of a packet of a type outside the dispatch table returns 0 with its header,
      consumes no byte of its payload, and leaves a clean handle. */
  lemma UnknownType(r: Reader, h: Header, p: Packet)
    requires AtStart(r) && HEAD_SIZE <= |Available(Refill(r))|
    requires Available(Refill(r))[..HEAD_SIZE] == Encode(h) && h.f1 == F1 && TypeOf(h.code).None?
    ensures var res := LlRead(r, p);
      && res == LlReturned(AfterHeader(r, h).(gotHead := false), p.(head := h), 0, false, false)
      && AtStart(res.r) && Available(res.r) == Available(Refill(r))[HEAD_SIZE..]
  {
    hide Encode, MaybeReadHeader, TypeOf, Read;
    ReadsHeader(r, h);
  }

  //////////////////////////////////////////////////////////////////////////////
  // The end of the input
  //////////////////////////////////////////////////////////////////////////////

  /** All of these generic reads, one after the other, return `ret` and leave the handle and
      their packets as they are. */
  ghost predicate AllReturn(r: Reader, ps: seq<Packet>, ret: int)
    decreases |ps|
  {
    ps != [] ==> LlRead(r, ps[0]) == LlReturned(r, ps[0], ret, false, false) && AllReturn(r, ps[1..], ret)
  }

  /** A handle that generic reads cannot move: it has a header, but none of them asked for it. */
  predicate Stuck(r: Reader) {
    r.gotHead && r.required == 0
  }

  lemma StuckOnce(r: Reader, p: Packet)
    requires Stuck(r)
    ensures LlRead(r, p) == LlReturned(r, p, EIO, false, false)
  {
    hide LlReadBody;
  }

  lemma {:induction false} StuckAlways(r: Reader, ps: seq<Packet>)
    requires Stuck(r)
    ensures AllReturn(r, ps, EIO)
    decreases |ps|
  {
    hide LlRead;
    if ps != [] {
      StuckOnce(r, ps[0]);
      StuckAlways(r, ps[1..]);
    }
  }

  /** All generic reads of a run return `ret`. */
  ghost predicate RunReturns(r: Reader, ps: seq<Packet>, ret: int)
    decreases |ps|
  {
    ps != [] ==>
      var res := LlRead(r, ps[0]);
      res.LlReturned? && res.ret == ret && RunReturns(res.r, ps[1..], ret)
  }

  lemma {:induction false} StuckRun(r: Reader, ps: seq<Packet>)
    requires Stuck(r)
    ensures RunReturns(r, ps, EIO)
    decreases |ps|
  {
    hide LlRead;
    if ps != [] {
      StuckOnce(r, ps[0]);
      StuckRun(r, ps[1..]);
    }
  }

  /** A handle is about to read a header, and fewer than eight bytes can be had: the rest of a
      file, or a datagram. What they make of the header still has 0xf1 in its place, which
      they overwrite if they are more than four. */
  predicate HeaderCut(r: Reader) {
    var s := Available(Refill(r));
    && AtStart(r) && 0 < |s| < HEAD_SIZE
    && (if |s| > 4 then s[4] else r.head.f1) == F1
  }

  lemma F1InHeader(h: Header, b: seq<byte>)
    requires |b| <= HEAD_SIZE
    ensures Decode(Splice(Encode(h), 0, b)).f1 == if |b| > 4 then b[4] else h.f1
  {
    hide LowByte, HighByte, PairBytes;
  }

  /** Of a header that is cut, the handle takes what there is for a header. */
  lemma CutHeaderReads(r: Reader)
    requires AtStart(r) && 0 < |Available(Refill(r))| < HEAD_SIZE
    ensures var s := Available(Refill(r)); var o := MaybeReadHeader(r);
      if HeaderCut(r) then o.HeaderDone? && o.ret == |s| && o.r.gotHead && o.r.required == 0 else o.HeaderTrap?
  {
    hide Encode, Decode, Splice;
    var s := Available(Refill(r));
    assert s[..|s|] == s;
    assert ReadBytes(r, HEAD_SIZE) == (Skip(Refill(r), |s|), s);
    F1InHeader(r.head, s);
  }

  lemma CutHeaderSticks(r: Reader, p: Packet)
    requires HeaderCut(r)
    ensures var res := LlRead(r, p); res.LlReturned? && res.ret == EIO && Stuck(res.r)
  {
    hide MaybeReadHeader, LlReadBody, Refill;
    CutHeaderReads(r);
  }

  lemma WholeHeaderReads(r: Reader)
    requires AtStart(r) && HEAD_SIZE <= |Available(Refill(r))|
    ensures var o := MaybeReadHeader(r);
      o.HeaderTrap? || (o.HeaderDone? && o.ret == HEAD_SIZE && o.r.required == 0 && o.r.gotHead)
  {
    hide Encode, Decode, Splice;
  }

  lemma EmptyPacketMoves(r: Reader)
    requires !Stuck(r) && !HeaderCut(r)
    ensures var res := LlRead(r, Packet(NO_HEAD, [])); !(res.LlReturned? && res.ret == EIO)
  {
    hide Read, MaybeReadHeader, Refill;
    var p := Packet(NO_HEAD, []);
    if r.required != 0 {
      NoRoom(r, p);
    } else if |Available(Refill(r))| == 0 {
      NoHeader(r);
    } else if |Available(Refill(r))| < HEAD_SIZE {
      CutHeaderReads(r);
    } else {
      WholeHeaderReads(r);
    }
  }

  /** All runs of generic reads, with whatever packets, fail with -EIO at every call. */
  ghost predicate AlwaysRefused(r: Reader) {
    forall ps: seq<Packet> :: RunReturns(r, ps, EIO)
  }

  lemma RefusedRun(r: Reader, ps: seq<Packet>)
    requires Stuck(r) || HeaderCut(r)
    ensures RunReturns(r, ps, EIO)
  {
    hide LlRead, Stuck, HeaderCut;
    if Stuck(r) {
      StuckRun(r, ps);
    } else if ps != [] {
      CutHeaderSticks(r, ps[0]);
      StuckRun(LlRead(r, ps[0]).r, ps[1..]);
    }
  }

  lemma NotRefused(r: Reader)
    requires !Stuck(r) && !HeaderCut(r)
    ensures !RunReturns(r, [Packet(NO_HEAD, [])], EIO)
  {
    hide LlRead, Stuck, HeaderCut;
    EmptyPacketMoves(r);
  }

  /** Generic reads fail with -EIO from here on for good, whatever arrives, iff the handle
      has a header that no generic read asked for, or is about to read one that is cut. */
  lemma StuckForever(r: Reader)
    ensures AlwaysRefused(r) <==> Stuck(r) || HeaderCut(r)
  {
    hide LlRead, RunReturns, Stuck, HeaderCut;
    if Stuck(r) || HeaderCut(r) {
      forall ps: seq<Packet>
        ensures RunReturns(r, ps, EIO)
      {
        RefusedRun(r, ps);
      }
    } else {
      NotRefused(r);
    }
  }

  lemma BodyUnsticks(r: Reader, p: Packet)
    ensures LlReadBody(r, p).LlReturned? ==> !Stuck(LlReadBody(r, p).r)
  {
    hide Read;
  }

  /** A generic read that returns leaves the handle stuck iff it was, or the read met fewer
      than the eight bytes of a header, a datagram of no bytes included, and was not just
      at the end of a file. */
  lemma GetsStuck(r: Reader, p: Packet)
    requires LlRead(r, p).LlReturned?
    ensures Stuck(LlRead(r, p).r) <==>
      r.required == 0 && (r.gotHead || (|Available(Refill(r))| < HEAD_SIZE && r.src != Stream([])))
  {
    hide LlReadBody, MaybeReadHeader, TypeOf;
    if r.required != 0 {
      BodyUnsticks(r, p);
    } else if r.gotHead {
      StuckOnce(r, p);
    } else {
      if |Available(Refill(r))| == 0 {
        NoHeader(r);
      } else if |Available(Refill(r))| < HEAD_SIZE {
        CutHeaderReads(r);
      } else {
        WholeHeaderReads(r);
        var r1 := MaybeReadHeader(r).r;
        BodyUnsticks(r1.(required := RequiredFor(r1)), p);
      }
    }
  }

  lemma {:induction false} EofAlways(r: Reader, ps: seq<Packet>)
    requires AtStart(r) && r.src == Stream([])
    ensures AllReturn(r, ps, EOF)
    decreases |ps|
  {
    if ps != [] {
      hide MaybeReadHeader, LlReadBody;
      NoHeader(r);
      EofAlways(r, ps[1..]);
    }
  }

  /** At the end of a stream every generic read reports EOF. On a datagram of no bytes the
      first one does, and from then on every one fails with -EIO, whatever datagrams follow. */
  lemma AfterEof(r: Reader, p: Packet, ps: seq<Packet>)
    requires AtStart(r) && (r.src == Stream([]) || (r.src.Datagrams? && r.src.cur == [] && [[]] <= r.src.queue))
    ensures var res := LlRead(r, p);
      && res == LlReturned(Refill(r), p, EOF, false, false)
      && AllReturn(res.r, ps, if r.src.Stream? then EOF else EIO)
      && (r.src.Datagrams? ==> Refill(r) == r.(gotHead := true, src := Datagrams([], r.src.queue[1..])))
  {
    hide MaybeReadHeader, LlReadBody, AllReturn;
    NoHeader(r);
    if r.src.Stream? {
      EofAlways(r, ps);
    } else {
      StuckAlways(Refill(r), ps);
    }
  }
}
