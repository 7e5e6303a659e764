/** Properties of runs of reads, whatever the bytes: attempts that fail for want of room
    and reads of the wrong type are invisible, and the byte counter keeps the books. */
module Runs {
  import opened Crc
  import opened Versions
  import opened Packets
  import opened Reading
  import opened Grammar
  import opened Writing
  import opened Streams
  import opened Parts
  import opened Contents

  //////////////////////////////////////////////////////////////////////////////
  // Attempts without enough room
  //////////////////////////////////////////////////////////////////////////////

  /** Return values of typed reads are counts, or -1. */
  lemma ReadRet(r: Reader, t: PacketType, d: seq<byte>)
    requires |d| == InMemory(t)
    ensures var res := Read(r, t, d); res.Returned? ==> res.ret >= -1
  {
    hide ReadPacket, HeaderFor, Sendable, Decode, Encode;
    match MaybeReadHeader(r)
    case HeaderTrap =>
    case HeaderWaiting =>
    case HeaderDone(r1, _) =>
      var k := PacketConsumes(r1.(gotHead := false), t, r1.head.version, d);
  }

  lemma NoRoomBody(r: Reader, p: Packet)
    requires NoRoomIn(LlReadBody(r, p))
    ensures |p.payload| < r.required && LlReadBody(r, p).r == r
  {
    hide Read;
    match TypeOf(r.head.code)
    case None =>
    case Some(t) =>
      if InMemory(t) <= |p.payload| {
        ReadRet(r, t, p.payload[..InMemory(t)]);
      }
  }

  /** An attempt that fails for want of room is invisible to every later attempt: on
      arbitrary input and with any packet, the later attempt gives the same state, packet,
      value and messages as if it had been the first. So the header is consumed once, and
      the failed attempt consumes no byte of the payload. */
  lemma FailedAttemptIsInvisible(r: Reader, small: Packet, p: Packet)
    requires NoRoomIn(LlRead(r, small))
    ensures LlRead(LlRead(r, small).r, p) == LlRead(r, p)
  {
    hide LlReadBody, MaybeReadHeader;
    if r.required != 0 {
      NoRoomBody(r, small);
    } else {
      var r1 := MaybeReadHeader(r).r;
      NoRoomBody(r1.(required := RequiredFor(r1)), small);
    }
  }

  /** The state after attempts with these packets, each of which fails for want of room. */
  ghost predicate AllFail(r: Reader, ps: seq<Packet>)
    decreases |ps|
  {
    ps != [] ==> NoRoomIn(LlRead(r, ps[0])) && AllFail(LlRead(r, ps[0]).r, ps[1..])
  }

  function Attempts(r: Reader, ps: seq<Packet>): Reader
    requires AllFail(r, ps)
    decreases |ps|
  {
    if ps == [] then r else Attempts(LlRead(r, ps[0]).r, ps[1..])
  }

  /** Any number of such attempts is invisible. */
  lemma {:induction false} FailedAttemptsAreInvisible(r: Reader, ps: seq<Packet>, p: Packet)
    requires AllFail(r, ps)
    ensures LlRead(Attempts(r, ps), p) == LlRead(r, p)
    decreases |ps|
  {
    hide LlRead;
    if ps != [] {
      FailedAttemptIsInvisible(r, ps[0], p);
      FailedAttemptsAreInvisible(LlRead(r, ps[0]).r, ps[1..], p);
    }
  }

  lemma RoomIsEnough(r: Reader, p: Packet, p2: Packet)
    requires NoRoomIn(LlRead(r, p)) && |p2.payload| == LlRead(r, p).r.required
    ensures !NoRoomIn(LlRead(r, p2))
  {
    hide LlReadBody, MaybeReadHeader;
    var r0 := if r.required != 0 then r else MaybeReadHeader(r).r.(required := RequiredFor(MaybeReadHeader(r).r));
    NoRoomBody(r0, p);
    if NoRoomIn(LlReadBody(r0, p2)) {
      NoRoomBody(r0, p2);
    }
  }

  /** pueo_ll_read_realloc is one pueo_ll_read with a packet that has room: the given one
      if it has, and otherwise a new one of the required size, which is never too small. */
  lemma ReallocIsOneRead(r: Reader, dest: Option<Packet>, junk1: Junk, junk2: Junk)
    ensures var p := if dest.None? then Packet(NO_HEAD, junk1[..FIRST_CAPACITY]) else dest.value;
      var res := LlRead(r, p);
      LlReadRealloc(r, dest, junk1, junk2) ==
        if NoRoomIn(res) then LlRead(r, Packet(NO_HEAD, junk2[..res.r.required])) else res
    ensures !NoRoomIn(LlReadRealloc(r, dest, junk1, junk2))
  {
    hide LlRead;
    var p := if dest.None? then Packet(NO_HEAD, junk1[..FIRST_CAPACITY]) else dest.value;
    var res := LlRead(r, p);
    if NoRoomIn(res) {
      var p2 := Packet(NO_HEAD, junk2[..res.r.required]);
      FailedAttemptIsInvisible(r, p, p2);
      RoomIsEnough(r, p, p2);
    }
  }

  /** There is a header to look at. */
  predicate HeaderFound(r: Reader) {
    MaybeReadHeader(r).HeaderDone? && MaybeReadHeader(r).ret != EOF
  }

  /** The handle, and whether there is anything to read into, when pueo_ll_read gets to
      its capacity check. */
  function AtCapacityCheck(r: Reader): Option<Reader> {
    if r.required != 0 then Some(r)
    else if HeaderFound(r) && HEAD_SIZE <= MaybeReadHeader(r).ret then
      Some(MaybeReadHeader(r).r.(required := RequiredFor(MaybeReadHeader(r).r)))
    else None
  }

  lemma GoesToCheck(r: Reader, p: Packet)
    requires AtCapacityCheck(r).Some?
    ensures LlRead(r, p) == LlReadBody(AtCapacityCheck(r).value, p)
  {
    hide LlReadBody, MaybeReadHeader;
  }

  /** A generic read will find, or a failed attempt has found, the header of a t, and the
      bytes behind it start with a payload of n bytes. */
  ghost predicate Ready(r: Reader, t: PacketType, n: nat) {
    && AtCapacityCheck(r).Some?
    && var k := AtCapacityCheck(r).value;
    && k.gotHead && k.required == InMemory(t) && TypeOf(k.head.code) == Some(t)
    && PayloadLen(t, k.head.version, Available(k)) == Some(n)
  }

  /** With room, a generic read is a body read into the front of the packet. */
  lemma ReadsWithRoom(k: Reader, t: PacketType, n: nat, p: Packet)
    requires k.gotHead && k.required == InMemory(t) && TypeOf(k.head.code) == Some(t)
    requires PayloadLen(t, k.head.version, Available(k)) == Some(n) && InMemory(t) <= |p.payload|
    ensures var d := p.payload[..InMemory(t)]; var res := ReadBody(k, t, d);
      var e := EndsEmpty(t, k.head.version, Available(k));
      if Stalls(k, n, e) then
        LlReadBody(k, p) == LlWaiting
      else
        && BodyRead(k, t, d, n, e, res)
        && LlReadBody(k, p) == LlReturned(res.r.(required := 0, gotHead := false),
             Packet(k.head, res.mem + p.payload[InMemory(t)..]), n, res.badSum, res.badLen)
  {
    hide ReadBody, Read, TypeCode, InMemory, PayloadLen, EndsEmpty, AfterBody, Filled, Continue;
    var d := p.payload[..InMemory(t)];
    CodesDispatch(t, k.head.code);
    hide TypeOf;
    ReadsBody(k, t, d, n);
    ReadAfterHeader(k, t, d);
  }

  /** In that state the read waits for another datagram: the payload is all that is left of
      the last one and ends in a part of no bytes. */
  predicate WaitsForMore(r: Reader, t: PacketType, n: nat)
    requires Ready(r, t, n)
  {
    var k := AtCapacityCheck(r).value;
    Stalls(k, n, EndsEmpty(t, k.head.version, Available(k)))
  }

  /** Two generic reads have the same state, value and messages and the same packet, as far
      as version `ver` of a t transports it; both took a payload of n bytes. */
  ghost predicate SameReads(t: PacketType, ver: int, n: nat, a: LlResult, b: LlResult) {
    && a.LlReturned? && b.LlReturned? && a.r == b.r && a.ret == b.ret == n
    && a.badSum == b.badSum && a.badLen == b.badLen && a.p.head == b.p.head
    && InMemory(t) <= |a.p.payload| && InMemory(t) <= |b.p.payload|
    && SameContents(t, ver, a.p.payload[..InMemory(t)], b.p.payload[..InMemory(t)])
  }

  /** Generic reads with room for the packet agree, whatever room they have and whatever
      their packets held before; bytes behind the struct stay as they were. */
  lemma AmpleReadsAgree(r: Reader, t: PacketType, n: nat, p: Packet, q: Packet)
    requires Ready(r, t, n) && InMemory(t) <= |p.payload| && InMemory(t) <= |q.payload|
    ensures var a, b := LlRead(r, p), LlRead(r, q);
      if WaitsForMore(r, t, n) then a == b == LlWaiting
      else
        && SameReads(t, AtCapacityCheck(r).value.head.version, n, a, b)
        && |a.p.payload| == |p.payload| && a.p.payload[InMemory(t)..] == p.payload[InMemory(t)..]
  {
    hide AtCapacityCheck, LlRead, LlReadBody, ReadBody, TypeOf, InMemory, PayloadLen, EndsEmpty, AfterBody,
      Filled, Continue, SameContents, Available;
    var k, size := AtCapacityCheck(r).value, InMemory(t);
    GoesToCheck(r, p);
    GoesToCheck(r, q);
    ReadsWithRoom(k, t, n, p);
    ReadsWithRoom(k, t, n, q);
    if !WaitsForMore(r, t, n) {
      var d, d' := p.payload[..size], q.payload[..size];
      var m, m' := ReadBody(k, t, d).mem, ReadBody(k, t, d').mem;
      FilledContents(t, k.head.version, Available(k), n, d, m, d', m');
      assert (m + p.payload[size..])[..size] == m && (m' + q.payload[size..])[..size] == m';
      assert (m + p.payload[size..])[size..] == p.payload[size..];
    }
  }

  /** pueo_ll_read_realloc, with a null pointer or a packet of any room, from a clean handle
      or after failed attempts, gives what pueo_ll_read gives with ample room. */
  lemma ReallocIsAmpleRead(r: Reader, t: PacketType, n: nat, dest: Option<Packet>, junk1: Junk, junk2: Junk, q: Packet)
    requires Ready(r, t, n) && InMemory(t) <= |q.payload|
    ensures var a, b := LlReadRealloc(r, dest, junk1, junk2), LlRead(r, q);
      if WaitsForMore(r, t, n) then a == b == LlWaiting
      else SameReads(t, AtCapacityCheck(r).value.head.version, n, a, b)
  {
    hide AtCapacityCheck, LlRead, LlReadRealloc, LlReadBody, InMemory, PayloadLen, TypeOf, SameContents;
    var p := if dest.None? then Packet(NO_HEAD, junk1[..FIRST_CAPACITY]) else dest.value;
    ReallocIsOneRead(r, dest, junk1, junk2);
    if |p.payload| < InMemory(t) {
      GoesToCheck(r, p);
      NoRoom(AtCapacityCheck(r).value, p);
      AmpleReadsAgree(r, t, n, Packet(NO_HEAD, junk2[..InMemory(t)]), q);
    } else {
      AmpleReadsAgree(r, t, n, p, q);
    }
  }

  //////////////////////////////////////////////////////////////////////////////
  // Reads of the wrong type
  //////////////////////////////////////////////////////////////////////////////

  /** The state once a header has been read, if it has not been before. */
  function Peeked(r: Reader): Reader {
    match MaybeReadHeader(r)
    case HeaderTrap => r
    case HeaderWaiting => r
    case HeaderDone(r1, _) => r1
  }

  /** A typed read finds a header of another type. */
  ghost predicate WrongType(r: Reader, t: PacketType) {
    && MaybeReadHeader(r).HeaderDone? && MaybeReadHeader(r).ret != EOF
    && Peeked(r).head.code != TypeCode(t)
  }

  lemma PeekAgain(r: Reader, t: PacketType)
    requires WrongType(r, t)
    ensures MaybeReadHeader(Peeked(r)) == HeaderDone(Peeked(r), 0)
    ensures Peeked(Peeked(r)) == Peeked(r)
  {
    hide ReadBytes, Encode, Decode, TypeCode;
  }

  /** A read of the wrong type returns 0, leaves the memory as it is, and is invisible to
      every later typed read: the matching one gives the same bytes, counts and messages
      as if no wrong read had happened. */
  lemma PeekIsHarmless(r: Reader, t: PacketType, d: seq<byte>, t1: PacketType, d1: seq<byte>)
    requires WrongType(r, t) && |d| == InMemory(t) && |d1| == InMemory(t1)
    ensures Read(r, t, d) == Returned(Peeked(r), d, 0, false, false)
    ensures Read(Peeked(r), t1, d1) == Read(r, t1, d1)
  {
    hide ReadBody, ReadBytes, Encode, Decode, InMemory;
    PeekAgain(r, t);
  }

  /** Typed reads, one after the other, into scratch memory. */
  function Peeks(r: Reader, ts: seq<PacketType>): Reader
    decreases |ts|
  {
    if ts == [] then r
    else
      match Read(r, ts[0], Zeros(InMemory(ts[0])))
      case Trapped => r
      case Waiting => r
      case Returned(r1, _, _, _, _) => Peeks(r1, ts[1..])
  }

  /** The header once peeked at stays put, however many wrong types are tried. */
  lemma {:induction false} PeeksAreHarmless(r: Reader, ts: seq<PacketType>, t1: PacketType, d1: seq<byte>)
    requires |d1| == InMemory(t1) && forall i :: 0 <= i < |ts| ==> WrongType(r, ts[i])
    ensures Read(Peeks(r, ts), t1, d1) == Read(r, t1, d1)
    ensures ts != [] ==> Peeks(r, ts) == Peeked(r)
    decreases |ts|
  {
    if ts != [] {
      hide Read, InMemory, MaybeReadHeader, TypeCode;
      PeekAgain(r, ts[0]);
      PeekIsHarmless(r, ts[0], Zeros(InMemory(ts[0])), t1, d1);
      forall i | 0 <= i < |ts[1..]|
        ensures WrongType(Peeked(r), ts[1..][i])
      {
        assert WrongType(r, ts[i + 1]);
      }
      PeeksAreHarmless(Peeked(r), ts[1..], t1, d1);
    }
  }

  //////////////////////////////////////////////////////////////////////////////
  // Conservation
  //////////////////////////////////////////////////////////////////////////////

  /** Bytes have been consumed in order, from a stream or from datagrams. */
  ghost predicate Downstream(r: Reader, r': Reader) {
    var s, s' := Rest(r.src), Rest(r'.src);
    |s'| <= |s| && s' == s[|s| - |s'|..]
  }

  /** bytes_read has grown by exactly the number of these, modulo 2^64. */
  ghost predicate Conserved(r: Reader, r': Reader) {
    && Downstream(r, r')
    && r'.bytesRead == Wrap64(r.bytesRead + |Rest(r.src)| - |Rest(r'.src)|)
  }

  lemma SuffixTwice(s: seq<byte>, m: nat, n: nat)
    requires n <= m <= |s|
    ensures s[|s| - m..][m - n..] == s[|s| - n..]
  {}

  lemma ConservedSelf(r: Reader)
    ensures Conserved(r, r)
  {}

  lemma ConservedTwice(r: Reader, r1: Reader, r2: Reader)
    requires Conserved(r, r1) && Conserved(r1, r2)
    ensures Conserved(r, r2)
  {
    hide Wrap64, Rest;
    var s, s1, s2 := Rest(r.src), Rest(r1.src), Rest(r2.src);
    SuffixTwice(s, |s1|, |s2|);
    Adds64(r.bytesRead, |s| - |s1|, |s1| - |s2|);
  }

  lemma HeaderConserves(r: Reader)
    requires MaybeReadHeader(r).HeaderDone?
    ensures Conserved(r, MaybeReadHeader(r).r)
  {
    hide Encode, Decode, Splice, Wrap64, ReadBytes, Rest;
    if r.gotHead {
      ConservedSelf(r);
    } else {
      ConsumesBytes(r, HEAD_SIZE);
      var (r1, b) := ReadBytes(r, HEAD_SIZE);
      if b == [] {
        ConservedSelf(r1);
        assert Rest(r.src)[0..] == Rest(r.src);
      }
    }
  }

  lemma CountBooks(r: Reader, r1: Reader, k: nat, ret: int)
    requires Consumed(r, r1, k) && k <= MAX_IN_MEMORY && (ret == k || ret == -1)
    ensures Downstream(r, r1.(bytesRead := Wrap64(r1.bytesRead + ret)))
    ensures Conserved(r, r1.(bytesRead := Wrap64(r1.bytesRead + ret))) <==> ret == k
  {
    hide Rest;
  }

  /** The next packet is a t, of a waveform type, and some part of it cannot be had whole: the
      stream ends in it, or it runs over the end of a datagram. */
  predicate CutShort(r: Reader, t: PacketType) {
    && HeaderFound(r) && Peeked(r).head.code == TypeCode(t)
    && Waveform(t) && !WholePayload(Peeked(r).src, t, Peeked(r).head.version)
  }

  /** A typed read, once behind its header, gives up on such packets and on no others. */
  lemma BodyGivesUp(r: Reader, t: PacketType, d: seq<byte>)
    requires |d| == InMemory(t) && ReadBody(r, t, d).Returned?
    ensures ReadBody(r, t, d).ret == -1 <==> Waveform(t) && !WholePayload(r.src, t, r.head.version)
  {
    hide WholePayload, HeaderFor, CountFits, Wrap64;
    var ver := r.head.version;
    var r0 := r.(gotHead := false);
    if Waveform(t) {
      hide ReadPacket;
      WaveformsGiveUp(r0, t, ver, d);
    } else if Counted(t) {
      hide Consumed, ReadCounted;
      var k := CountedConsumes(r0, t, ver, d);
    } else {
      hide ReadBytes, Clear, Splice;
    }
  }

  lemma ConsumedHead(r: Reader, r1: Reader, k: nat)
    requires Consumed(r, r1, k)
    ensures r1.bytesRead == r.bytesRead
  {}

  lemma BooksIgnoreFlag(r: Reader, r': Reader)
    ensures Conserved(r.(gotHead := false), r') == Conserved(r, r')
    ensures Downstream(r.(gotHead := false), r') == Downstream(r, r')
  {}

  lemma BodyConserves(r: Reader, t: PacketType, d: seq<byte>)
    requires |d| == InMemory(t) && ReadBody(r, t, d).Returned?
    ensures Downstream(r, ReadBody(r, t, d).r)
    ensures Conserved(r, ReadBody(r, t, d).r) <==> ReadBody(r, t, d).ret != -1
    ensures ReadBody(r, t, d).r.bytesRead == Wrap64(r.bytesRead + ReadBody(r, t, d).ret)
  {
    hide ReadPacket, Sendable, HeaderFor, Consumed, Conserved, Downstream, Wrap64;
    var r0 := r.(gotHead := false);
    var k := PacketConsumes(r0, t, r.head.version, d);
    var o := ReadPacket(r0, t, r.head.version, d);
    CountBooks(r0, o.r, k, o.ret);
    ConsumedHead(r0, o.r, k);
    BooksIgnoreFlag(r, ReadBody(r, t, d).r);
  }

  /** Books that have been kept so far tell nothing but how they are kept from now on. */
  lemma Transfer(r: Reader, r1: Reader, r2: Reader)
    requires Conserved(r, r1) && Downstream(r1, r2)
    ensures Conserved(r, r2) <==> Conserved(r1, r2)
  {
    hide Rest;
    var s, s1, s2 := Rest(r.src), Rest(r1.src), Rest(r2.src);
    SuffixTwice(s, |s1|, |s2|);
  }

  /** A typed read, of any bytes and over either transport, keeps the books iff it has no
      waveforms cut short before it: on these bytes_read goes back by one, whatever of the
      payload was consumed. */
  lemma TypedReadConserves(r: Reader, t: PacketType, d: seq<byte>)
    requires |d| == InMemory(t) && Read(r, t, d).Returned?
    ensures Conserved(r, Read(r, t, d).r) <==> !CutShort(r, t)
    ensures CutShort(r, t) ==>
      Read(r, t, d).ret == -1 && Read(r, t, d).r.bytesRead == Wrap64(Peeked(r).bytesRead - 1)
  {
    hide ReadBody, MaybeReadHeader, Conserved, Downstream, InMemory, WholePayload, Wrap64;
    HeaderConserves(r);
    if HeaderFound(r) {
      var r1 := MaybeReadHeader(r).r;
      if r1.head.code == TypeCode(t) {
        BodyConserves(r1, t, d);
        BodyGivesUp(r1, t, d);
        Transfer(r, r1, ReadBody(r1, t, d).r);
      }
    }
  }

  /** A generic read with room for its packet gets to waveforms that are cut short. */
  predicate GenericCutShort(r: Reader, p: Packet) {
    && AtCapacityCheck(r).Some?
    && var r1 := AtCapacityCheck(r).value;
    && r1.required <= |p.payload| && TypeOf(r1.head.code).Some?
    && CutShort(r1, TypeOf(r1.head.code).value)
  }

  lemma FieldsDoNotCount(r: Reader, r': Reader, q: Size, g: bool)
    ensures Conserved(r, r'.(required := q, gotHead := g)) <==> Conserved(r, r')
    ensures Downstream(r, r'.(required := q, gotHead := g)) <==> Downstream(r, r')
  {}

  lemma GenericBodyConserves(r: Reader, p: Packet)
    requires LlReadBody(r, p).LlReturned?
    ensures Conserved(r, LlReadBody(r, p).r) <==>
      !(r.required <= |p.payload| && TypeOf(r.head.code).Some? && CutShort(r, TypeOf(r.head.code).value))
  {
    hide Read, Conserved, InMemory, TypeOf, CutShort;
    ConservedSelf(r);
    if |p.payload| >= r.required {
      match TypeOf(r.head.code)
      case None =>
        FieldsDoNotCount(r, r, 0, false);
      case Some(t) =>
        var d := p.payload[..InMemory(t)];
        TypedReadConserves(r, t, d);
        FieldsDoNotCount(r, Read(r, t, d).r, 0, false);
    }
  }

  lemma DownstreamSelf(r: Reader)
    ensures Downstream(r, r)
  {}

  lemma DownstreamTwice(r: Reader, r1: Reader, r2: Reader)
    requires Downstream(r, r1) && Downstream(r1, r2)
    ensures Downstream(r, r2)
  {
    hide Rest;
    var s, s1, s2 := Rest(r.src), Rest(r1.src), Rest(r2.src);
    SuffixTwice(s, |s1|, |s2|);
  }

  lemma TypedDownstream(r: Reader, t: PacketType, d: seq<byte>)
    requires |d| == InMemory(t) && Read(r, t, d).Returned?
    ensures Downstream(r, Read(r, t, d).r)
  {
    hide ReadBody, MaybeReadHeader, Downstream, InMemory;
    HeaderConserves(r);
    if HeaderFound(r) {
      var r1 := MaybeReadHeader(r).r;
      if r1.head.code == TypeCode(t) {
        BodyConserves(r1, t, d);
        DownstreamTwice(r, r1, ReadBody(r1, t, d).r);
      }
    }
  }

  lemma GenericBodyDownstream(r: Reader, p: Packet)
    requires LlReadBody(r, p).LlReturned?
    ensures Downstream(r, LlReadBody(r, p).r)
  {
    hide Read, Downstream, InMemory, TypeOf;
    DownstreamSelf(r);
    if |p.payload| >= r.required {
      match TypeOf(r.head.code)
      case None =>
        FieldsDoNotCount(r, r, 0, false);
      case Some(t) =>
        var d := p.payload[..InMemory(t)];
        TypedDownstream(r, t, d);
        FieldsDoNotCount(r, Read(r, t, d).r, 0, false);
    }
  }

  /** A generic read, of any bytes, over either transport and with any room, keeps the books iff it
      does not get to waveforms that are cut short. */
  lemma GenericReadConserves(r: Reader, p: Packet)
    requires LlRead(r, p).LlReturned?
    ensures Conserved(r, LlRead(r, p).r) <==> !GenericCutShort(r, p)
  {
    hide LlReadBody, MaybeReadHeader, Conserved, Downstream, InMemory, TypeOf, CutShort;
    if r.required != 0 {
      GenericBodyConserves(r, p);
    } else {
      HeaderConserves(r);
      if AtCapacityCheck(r).Some? {
        var r0 := MaybeReadHeader(r).r;
        var r1 := AtCapacityCheck(r).value;
        FieldsDoNotCount(r, r0, r1.required, r0.gotHead);
        GenericBodyConserves(r1, p);
        GenericBodyDownstream(r1, p);
        Transfer(r, r1, LlReadBody(r1, p).r);
      }
    }
  }

  /** One call on the reading side of a handle. */
  datatype Call = Typed(t: PacketType, mem: seq<byte>) | Generic(p: Packet)

  /** The state after a call; None if the program stops in it. */
  function Step(r: Reader, c: Call): Option<Reader> {
    match c
    case Typed(t, mem) =>
      if |mem| != InMemory(t) then None
      else
        var res := Read(r, t, mem);
        if res.Returned? then Some(res.r) else None
    case Generic(p) =>
      var res := LlRead(r, p);
      if res.LlReturned? then Some(res.r) else None
  }

  predicate CallCutShort(r: Reader, c: Call) {
    match c
    case Typed(t, mem) => CutShort(r, t)
    case Generic(p) => GenericCutShort(r, p)
  }

  /** The state after a run of calls, none of which gets to waveforms that are cut short; None
      if one does, or if the program stops. */
  function Run(r: Reader, cs: seq<Call>): Option<Reader>
    decreases |cs|
  {
    if cs == [] then Some(r)
    else if CallCutShort(r, cs[0]) then None
    else
      match Step(r, cs[0])
      case None => None
      case Some(r1) => Run(r1, cs[1..])
  }

  lemma StepConserves(r: Reader, c: Call)
    requires Step(r, c).Some?
    ensures Conserved(r, Step(r, c).value) <==> !CallCutShort(r, c)
  {
    hide Read, LlRead, CutShort, GenericCutShort, Conserved, InMemory;
    match c
    case Typed(t, mem) => TypedReadConserves(r, t, mem);
    case Generic(p) => GenericReadConserves(r, p);
  }

  /** Conservation over runs: after any run of reads that find no cut waveforms, typed and generic,
      of right and wrong types, with enough room and without, on any bytes and over either transport,
      bytes_read has grown by exactly what has been consumed. */
  lemma {:induction false} RunConserves(r: Reader, cs: seq<Call>)
    requires Run(r, cs).Some?
    ensures Conserved(r, Run(r, cs).value)
    decreases |cs|
  {
    if cs == [] {
      ConservedSelf(r);
    } else {
      hide Step, CallCutShort, Conserved;
      var r1 := Step(r, cs[0]).value;
      StepConserves(r, cs[0]);
      RunConserves(r1, cs[1..]);
      ConservedTwice(r, r1, Run(r1, cs[1..]).value);
    }
  }
}
