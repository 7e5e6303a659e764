/** What a reader can rely on: versions that migrate, and transmission errors that do not
    go unnoticed, in single reads and in whole runs. */
module Integrity {
  import opened Crc
  import opened Versions
  import opened Packets
  import opened Reading
  import opened Grammar
  import opened Frames
  import opened Streams
  import opened Parts

  //////////////////////////////////////////////////////////////////////////////
  // Old versions
  //////////////////////////////////////////////////////////////////////////////

  lemma MigratedReads(r: Reader, t: PacketType, d: seq<byte>, m: seq<byte>, more: seq<byte>)
    requires Simple(t) && |d| == InMemory(t) && Sendable(t, Latest(t), m) && Wire(t, Latest(t), m) == m
    requires Available(r) == m + more && r.head == HeaderFor(t, Latest(t), m)
    ensures ReadBody(r, t, d) == Returned(AfterBody(r, |m|, false), m, |m|, false, false)
  {
    hide Continue, AfterBody, ReadBody;
    var s := Available(r);
    assert s[..|m|] == m;
    LengthBound(t, Latest(t), m);
    ReadsBody(r, t, d, |m|);
    assert Image(t, |m|, s, d) == m;
  }

  lemma OldVersionReads(r: Reader, t: PacketType, ver: int, d: seq<byte>)
    requires Simple(t) && 0 <= ver <= Latest(t) && |d| == InMemory(t)
    requires PacketSize(t, ver) <= |Available(r)|
    ensures 0 <= PacketSize(t, ver) <= InMemory(t)
    ensures var n := PacketSize(t, ver); var m := Available(r)[..n] + Zeros(InMemory(t) - n);
      && ReadPacket(r, t, ver, d) == Done(Skip(r, n), m, n)
      && Sendable(t, Latest(t), m) && Wire(t, Latest(t), m) == m
  {
    hide Skip, ReadSimple;
    SizesGrow(t, ver, Latest(t));
    var n := PacketSize(t, ver);
    var s := Available(r);
    var m := s[..n] + Zeros(InMemory(t) - n);
    ReadsSimple(r, t, ver, d);
    assert Image(t, n, s, d) == m;
    assert m[..InMemory(t)] == m;
  }

  /** A simple packet of any version is read as its wire bytes followed by zeroes; what has
      been read survives being written at the latest version and read again, over any
      memory and with whatever follows it, bit by bit and with a header that matches. */
  lemma VersionsMigrate(r: Reader, t: PacketType, ver: int, d: seq<byte>, r1: Reader, d1: seq<byte>, more: seq<byte>)
    requires Simple(t) && 0 <= ver <= Latest(t) && |d| == |d1| == InMemory(t)
    requires PacketSize(t, ver) <= |Available(r)|
    ensures 0 <= PacketSize(t, ver) <= InMemory(t)
    ensures var n := PacketSize(t, ver); var m := Available(r)[..n] + Zeros(InMemory(t) - n);
      && ReadPacket(r, t, ver, d) == Done(Skip(r, n), m, n)
      && Sendable(t, Latest(t), m) && Wire(t, Latest(t), m) == m
      && (Available(r1) == m + more && r1.head == HeaderFor(t, Latest(t), m) ==>
            ReadBody(r1, t, d1) == Returned(AfterBody(r1, |m|, false), m, |m|, false, false))
  {
    hide Skip, AfterBody, ReadPacket, ReadBody, Sendable, Wire, HeaderFor, Available, PacketSize, InMemory, Simple;
    OldVersionReads(r, t, ver, d);
    var m := Available(r)[..PacketSize(t, ver)] + Zeros(InMemory(t) - PacketSize(t, ver));
    if Available(r1) == m + more && r1.head == HeaderFor(t, Latest(t), m) {
      MigratedReads(r1, t, d1, m, more);
    }
  }

  //////////////////////////////////////////////////////////////////////////////
  // Errors in transit
  //////////////////////////////////////////////////////////////////////////////

  /** What the header builder makes of version `ver` of the memory. */
  lemma IncompleteIsShort(r: Reader, t: PacketType, ver: uint4, d: seq<byte>)
    requires |d| == InMemory(t) && !WholePayload(r.src, t, ver)
    ensures var o := ReadPacket(r, t, ver, d);
      o.Done? && Sendable(t, ver, o.mem) ==> o.ret < HeaderFor(t, ver, o.mem).numBytes
  {
    hide ReadCounted, ReadWaveforms, ReadSimple, Continue, Count, Used, WholePayload;
    var o := ReadPacket(r, t, ver, d);
    if o.Done? && Sendable(t, ver, o.mem) {
      LengthBound(t, ver, o.mem);
      if Waveform(t) {
        CutWaveformsFail(r, t, ver, d);
      } else if Counted(t) {
        CutCountedShows(r, t, ver, d);
      } else {
        CutSimpleShows(r, t, ver, d);
      }
    }
  }

  /** If the payload cannot be had whole, from a stream or from datagrams, the length
      message is printed. */
  lemma IncompleteIsReported(r: Reader, t: PacketType, d: seq<byte>)
    requires |d| == InMemory(t) && !WholePayload(r.src, t, r.head.version)
    requires ReadBody(r, t, d).Returned?
    ensures ReadBody(r, t, d).badLen
  {
    hide ReadPacket, HeaderFor, Sendable, WholePayload;
    IncompleteIsShort(r.(gotHead := false), t, r.head.version, d);
  }

  /** The header tells the truth about the payload with which the bytes start, and the
      payload can be had whole: in a stream, that it is there; in datagrams, that none of
      its parts runs over the end of one. */
  ghost predicate Truthful(r: Reader, t: PacketType) {
    var s := Rest(r.src);
    && WholePayload(r.src, t, r.head.version) && PayloadLen(t, r.head.version, s).Some?
    && var n := PayloadLen(t, r.head.version, s).value;
    && r.head.numBytes == n && r.head.cksum == Continue(CRC16_START, s[..n])
  }

  /** A body read of a payload that can be had whole prints the messages it should. */
  lemma ReadsWholeBody(r: Reader, t: PacketType, d: seq<byte>)
    requires |d| == InMemory(t) && WholePayload(r.src, t, r.head.version)
    requires ReadBody(r, t, d).Returned?
    ensures PayloadLen(t, r.head.version, Rest(r.src)).Some?
    ensures var n := PayloadLen(t, r.head.version, Rest(r.src)).value; var res := ReadBody(r, t, d);
      && res.ret == n && Stores(t, r.head.version, res.mem, Rest(r.src)[..n])
      && (res.badSum <==> r.head.cksum != Continue(CRC16_START, Rest(r.src)[..n]))
      && (res.badLen <==> r.head.numBytes != n)
  {
    hide ReadPacket, HeaderFor, Sendable, WholePayload, PayloadLen, Wire, Continue, Rest;
    var ver := r.head.version;
    var r0 := r.(gotHead := false);
    ReadsWhole(r0, t, ver, d);
    HeaderOfStored(t, ver, ReadPacket(r0, t, ver, d).mem, Rest(r.src)[..PayloadLen(t, ver, Rest(r.src)).value]);
  }

  /** The two checks of a typed read are exact: on any bytes whatever, from a stream or from
      datagrams, neither message is printed iff the bytes start with a payload that can be
      had whole and the header gives its length and its checksum. */
  lemma SilenceMeansTruth(r: Reader, t: PacketType, d: seq<byte>)
    requires |d| == InMemory(t) && ReadBody(r, t, d).Returned?
    ensures !ReadBody(r, t, d).badSum && !ReadBody(r, t, d).badLen <==> Truthful(r, t)
  {
    hide ReadBody, PayloadLen, Continue, Stores, WholePayload, Rest;
    if WholePayload(r.src, t, r.head.version) {
      ReadsWholeBody(r, t, d);
    } else {
      IncompleteIsReported(r, t, d);
    }
  }

  /** No error burst within sixteen bits of a payload goes unnoticed: whatever packet it
      hits, of any version, and wherever, length fields included, and whatever follows, be
      the payload in a stream, alone in a datagram, or spread over several. A read that
      returns at all prints the message about the checksum if the bytes still read as a
      payload of the length announced, and the one about the length iff they do not. */
  lemma BurstIsReported(r: Reader, f: Message, e: seq<byte>, k: nat, d: seq<byte>)
    requires Valid(f) && |e| == |f.payload| && Burst(e, k) && |d| == InMemory(f.t)
    requires XorBytes(f.payload, e) <= Rest(r.src) && r.head == f.head
    requires ReadBody(r, f.t, d).Returned?
    ensures var res := ReadBody(r, f.t, d);
      var sameLength := WholePayload(r.src, f.t, f.head.version)
        && PayloadLen(f.t, f.head.version, Rest(r.src)) == Some(|f.payload|);
      if sameLength then res.badSum && !res.badLen && res.ret == |f.payload| else res.badLen
  {
    hide Valid, Burst, ReadBody, PayloadLen, Continue, XorBytes, Rest, WholePayload, Stores;
    HeadIsTrue(f);
    if WholePayload(r.src, f.t, f.head.version) {
      ReadsWholeBody(r, f.t, d);
      assert Rest(r.src)[..|f.payload|] == XorBytes(f.payload, e);
      BurstDetected(CRC16_START, f.payload, e, k);
    } else {
      IncompleteIsReported(r, f.t, d);
    }
  }

  /** An error that leaves the length and count fields alone leaves the payload readable,
      with its length. */
  lemma LengthSurvives(f: Message, e: seq<byte>, more: seq<byte>)
    requires Valid(f) && |e| == |f.payload|
    requires SameLengthFields(f.t, f.head.version, f.payload, XorBytes(f.payload, e))
    ensures PayloadLen(f.t, f.head.version, XorBytes(f.payload, e) + more) == Some(|f.payload|)
    ensures EndsEmpty(f.t, f.head.version, XorBytes(f.payload, e) + more) == EndsBare(f)
  {
    hide PayloadLen, Continue, XorBytes, EndsEmpty;
    var c := XorBytes(f.payload, e);
    LengthFieldsDecide(f.t, f.head.version, f.payload, c);
    assert (c + more)[..|c|] == c == c[..|c|];
    PayloadLocal(f.t, f.head.version, c, c + more);
  }

  lemma F1Known(f: Message)
    requires Valid(f)
    ensures Framed(f) && f.head.f1 == F1
  {}

  /** End to end: over either transport, a typed read of a frame whose payload has suffered
      a burst outside its length fields returns its full length, reports the checksum, and
      leaves the handle where a read of the sound frame would; where that one would wait for
      the next datagram, so does this. */
  lemma BurstEndToEnd(r: Reader, f: Message, e: seq<byte>, k: nat, more: seq<byte>, d: seq<byte>)
    requires Valid(f) && |e| == |f.payload| && Burst(e, k) && |d| == InMemory(f.t)
    requires SameLengthFields(f.t, f.head.version, f.payload, XorBytes(f.payload, e))
    requires AtStart(r) && Available(Refill(r)) == Encode(f.head) + (XorBytes(f.payload, e) + more)
    ensures var res := Read(r, f.t, d);
      if more == [] && EndsBare(f) && Refill(r).src.Datagrams? && Refill(r).src.queue == [] then
        res == Waiting
      else
        && res.Returned? && res.ret == |f.payload| && res.badSum && !res.badLen
        && |f.payload| <= |Available(AfterHeader(r, f.head))|
        && res.r == AfterBody(AfterHeader(r, f.head), |f.payload|, EndsBare(f))
  {
    hide Framed, Valid, Burst, ReadBody, AfterBody, Filled, PayloadLen, EndsEmpty, EndsBare, Continue, XorBytes,
      SameLengthFields, Encode, Refill, MaybeReadHeader, TypeCode, InMemory;
    var c := XorBytes(f.payload, e) + more;
    var s := Available(Refill(r));
    assert s[..HEAD_SIZE] == Encode(f.head) && s[HEAD_SIZE..] == c;
    F1Known(f);
    TypeKnown(f);
    ReadsHeader(r, f.head);
    var r1 := AfterHeader(r, f.head);
    assert r1.head == f.head && Available(r1) == c;
    LengthSurvives(f, e, more);
    ReadsBody(r1, f.t, d, |f.payload|);
    HeadIsTrue(f);
    assert c[..|f.payload|] == XorBytes(f.payload, e);
    BurstDetected(CRC16_START, f.payload, e, k);
  }

  //////////////////////////////////////////////////////////////////////////////
  // Runs with damaged messages
  //////////////////////////////////////////////////////////////////////////////

  /** What happens to a payload in transit: nothing, or a burst from bit k on. */
  datatype Fault = NoFault | Hit(e: seq<byte>, k: nat)

  /** A burst of at most sixteen bits that leaves the length and count fields alone. */
  ghost predicate Spares(f: Message, x: Fault)
    requires Framed(f)
  {
    x.Hit? ==>
      && |x.e| == |f.payload| && Burst(x.e, x.k)
      && SameLengthFields(f.t, f.head.version, f.payload, XorBytes(f.payload, x.e))
  }

  function Damaged(f: Message, x: Fault): Message
    requires x.Hit? ==> |x.e| == |f.payload|
  {
    if x.NoFault? then f else f.(payload := XorBytes(f.payload, x.e))
  }

  /** A damaged message is still a frame of the same size, whose checksum is wrong iff it
      has been hit. */
  lemma DamageShows(f: Message, x: Fault)
    requires Framed(f) && Valid(f) && Spares(f, x)
    ensures var g := Damaged(f, x);
      && Framed(g) && !LengthWrong(g) && (SumWrong(g) <==> x.Hit?)
      && g.head == f.head && |g.payload| == |f.payload| && EndsBare(g) == EndsBare(f)
  {
    hide PayloadLen, Continue, XorBytes, Burst, EndsEmpty, SameLengthFields, TypeCode;
    if x.Hit? {
      LengthFieldsDecide(f.t, f.head.version, f.payload, XorBytes(f.payload, x.e));
      BurstDetected(CRC16_START, f.payload, x.e, x.k);
    }
  }

  ghost predicate AllSpare(fs: seq<Message>, xs: seq<Fault>)
    requires AllFramed(fs)
  {
    |xs| == |fs| && forall i :: 0 <= i < |fs| ==> Spares(fs[i], xs[i])
  }

  /** Whole messages, whatever their payloads have suffered. */
  ghost predicate Arrived(fs: seq<Message>, xs: seq<Fault>, gs: seq<Message>)
    requires AllFramed(fs) && AllSpare(fs, xs)
  {
    |gs| == |fs| && forall i :: 0 <= i < |fs| ==> gs[i] == Damaged(fs[i], xs[i])
  }

  /** A run of generic reads in which any payloads have been hit by bursts outside their
      length fields: every message is delivered, in order and in full, with the payload that
      arrived, up to the end that an undamaged run would have, and the checksum message is
      printed for exactly the messages that have been hit. */
  lemma DamagedRun(r: Reader, fs: seq<Message>, xs: seq<Fault>, gs: seq<Message>, more: seq<seq<byte>>,
      dest: Option<Packet>, turns: seq<Turn>)
    requires AllValid(fs) && AllFramed(fs) && AllSpare(fs, xs) && Arrived(fs, xs, gs)
    requires Between(r, gs, more) && Blank(more) && |fs| < |turns|
    ensures AllFramed(gs)
    ensures var out := ReadLoop(r, dest, turns);
      && LoopOutcome(r, gs, more, out)
      && |out| == (if LastHangs(r, fs, more) then |fs| else |fs| + 1)
      && forall i :: 0 <= i < |out| - 1 ==>
           Reports(out[i], gs[i]) && out[i].badSum == xs[i].Hit? && !out[i].badLen
  {
    hide Framed, Valid, Spares, Damaged, Between, Blank, ReadLoop, SumWrong, LengthWrong, EndsBare;
    forall i | 0 <= i < |fs|
      ensures Framed(gs[i]) && EndsBare(gs[i]) == EndsBare(fs[i])
      ensures !LengthWrong(gs[i]) && (SumWrong(gs[i]) <==> xs[i].Hit?)
    {
      DamageShows(fs[i], xs[i]);
    }
    ReadsAll(r, gs, more, dest, turns);
  }
}
