/** Framed messages: which byte strings are well-formed frames, why a stream of them
    can be cut up in one way only, and what runs of writes produce. */
module Frames {
  import opened Crc
  import opened Versions
  import opened Packets
  import opened Reading
  import opened Grammar
  import opened Writing

  /** A header and the payload behind it, of any version that readers support. */
  datatype Message = Message(t: PacketType, head: Header, payload: seq<byte>)

  /** The header names the type and version of a payload that obeys the grammar. */
  predicate Framed(f: Message) {
    && f.head.code == TypeCode(f.t) && f.head.f1 == F1
    && PayloadLen(f.t, f.head.version, f.payload) == Some(|f.payload|)
  }

  predicate SumWrong(f: Message) {
    f.head.cksum != Continue(CRC16_START, f.payload)
  }

  predicate LengthWrong(f: Message) {
    f.head.numBytes != |f.payload|
  }

  /** Besides, it tells the truth about the payload. */
  predicate Valid(f: Message) {
    Framed(f) && !SumWrong(f) && !LengthWrong(f)
  }

  /** The payload ends in a variable part of no bytes: no sensors, no satellites, an
      empty file, an empty log, or a last waveform without samples. */
  predicate EndsBare(f: Message)
    requires Framed(f)
  {
    EndsEmpty(f.t, f.head.version, f.payload)
  }

  lemma HeadIsTrue(f: Message)
    requires Valid(f)
    ensures f.head.numBytes == |f.payload| && f.head.cksum == Continue(CRC16_START, f.payload)
  {}

  function Bytes(f: Message): (b: seq<byte>)
    ensures |b| == HEAD_SIZE + |f.payload|
  {
    Encode(f.head) + f.payload
  }

  ghost predicate AllValid(fs: seq<Message>) {
    forall i :: 0 <= i < |fs| ==> Valid(fs[i])
  }

  ghost predicate AllFramed(fs: seq<Message>) {
    forall i :: 0 <= i < |fs| ==> Framed(fs[i])
  }

  lemma ValidIsFramed(fs: seq<Message>)
    requires AllValid(fs)
    ensures AllFramed(fs)
  {
    hide Framed, SumWrong, LengthWrong;
  }

  /** The stream that carries messages one after the other. */
  function Concat(fs: seq<Message>): seq<byte> {
    if fs == [] then [] else Bytes(fs[0]) + Concat(fs[1..])
  }

  /** The chunks that carry them, one each. */
  function Packed(fs: seq<Message>): (ds: seq<seq<byte>>)
    ensures |ds| == |fs|
    ensures forall i :: 0 <= i < |fs| ==> ds[i] == Bytes(fs[i])
  {
    if fs == [] then [] else [Bytes(fs[0])] + Packed(fs[1..])
  }

  lemma {:induction false} FlattenPacked(fs: seq<Message>)
    ensures Flatten(Packed(fs)) == Concat(fs)
  {
    hide Bytes;
    if fs != [] {
      FlattenPacked(fs[1..]);
      assert Packed(fs)[1..] == Packed(fs[1..]);
    }
  }

  //////////////////////////////////////////////////////////////////////////////
  // Framing is prefix-free
  //////////////////////////////////////////////////////////////////////////////

  lemma TypesEqual(f: Message, g: Message)
    requires Framed(f) && Framed(g) && f.head == g.head
    ensures f.t == g.t
  {
    hide PayloadLen;
    CodesDispatch(f.t, f.head.code);
    CodesDispatch(g.t, g.head.code);
  }

  lemma HeadsEqual(f: Message, g: Message)
    requires Framed(f) && Framed(g) && Bytes(f)[..HEAD_SIZE] == Bytes(g)[..HEAD_SIZE]
    ensures f.head == g.head && f.t == g.t
  {
    hide Framed, Encode, Decode;
    assert Bytes(f)[..HEAD_SIZE] == Encode(f.head) && Bytes(g)[..HEAD_SIZE] == Encode(g.head);
    DecodeEncode(f.head);
    DecodeEncode(g.head);
    TypesEqual(f, g);
  }

  lemma PayloadsEqual(f: Message, g: Message)
    requires Framed(f) && Framed(g) && f.t == g.t && f.head == g.head && f.payload <= g.payload
    ensures f == g
  {
    hide PayloadLen, TypeCode;
    PayloadLocal(f.t, f.head.version, f.payload, g.payload);
  }

  /** No frame is a proper prefix of another, of whatever type or version. */
  lemma PrefixFree(f: Message, g: Message)
    requires Framed(f) && Framed(g) && Bytes(f) <= Bytes(g)
    ensures f == g
  {
    hide Framed, Encode;
    assert Bytes(f)[..HEAD_SIZE] == Bytes(g)[..HEAD_SIZE];
    HeadsEqual(f, g);
    assert f.payload == Bytes(f)[HEAD_SIZE..] && g.payload == Bytes(g)[HEAD_SIZE..];
    PayloadsEqual(f, g);
  }

  lemma PrefixesCompare(a: seq<byte>, b: seq<byte>, x: seq<byte>, y: seq<byte>)
    requires a + x <= b + y
    ensures a <= b || b <= a
    ensures a == b ==> x <= y
  {
    var z := b + y;
    assert a == z[..|a|] && b == z[..|b|];
    if a == b {
      assert x == (a + x)[|a|..] && y == z[|a|..];
    }
  }

  /** A stream determines its messages: if one stream of frames starts another,
      then its messages start the other's, with the same headers and payloads. */
  lemma {:induction false} Unambiguous(fs: seq<Message>, gs: seq<Message>)
    requires AllFramed(fs) && AllFramed(gs) && Concat(fs) <= Concat(gs)
    ensures fs <= gs
    decreases |fs|
  {
    hide Framed, Bytes;
    if fs != [] {
      assert gs != [];
      PrefixesCompare(Bytes(fs[0]), Bytes(gs[0]), Concat(fs[1..]), Concat(gs[1..]));
      if Bytes(fs[0]) <= Bytes(gs[0]) {
        PrefixFree(fs[0], gs[0]);
      } else {
        PrefixFree(gs[0], fs[0]);
      }
      Unambiguous(fs[1..], gs[1..]);
    }
  }

  //////////////////////////////////////////////////////////////////////////////
  // Runs of writes
  //////////////////////////////////////////////////////////////////////////////

  /** A struct handed to pueo_ll_write, with its type. */
  datatype Struct = Struct(t: PacketType, mem: seq<byte>)

  predicate Writable(p: Struct) {
    Sendable(p.t, Latest(p.t), p.mem)
  }

  ghost predicate AllWritable(ps: seq<Struct>) {
    forall i :: 0 <= i < |ps| ==> Writable(ps[i])
  }

  /** The message that a write of p produces. */
  function MessageOf(p: Struct): Message
    requires Writable(p)
  {
    Message(p.t, HeaderFor(p.t, Latest(p.t), p.mem), Wire(p.t, Latest(p.t), p.mem))
  }

  function MessagesOf(ps: seq<Struct>): (fs: seq<Message>)
    requires AllWritable(ps)
    ensures |fs| == |ps|
    ensures forall i :: 0 <= i < |ps| ==> fs[i] == MessageOf(ps[i])
  {
    if ps == [] then [] else [MessageOf(ps[0])] + MessagesOf(ps[1..])
  }

  /** Every write produces a valid frame. */
  lemma WritesValid(p: Struct)
    requires Writable(p)
    ensures Valid(MessageOf(p)) && Bytes(MessageOf(p)) == Frame(p.t, p.mem)
    ensures |Bytes(MessageOf(p))| == HEAD_SIZE + MessageOf(p).head.numBytes
  {
    hide Wire, PayloadLen, Continue, TypeCode;
    WireIsPayload(p.t, Latest(p.t), p.mem);
    LengthBound(p.t, Latest(p.t), p.mem);
  }

  lemma AllWritesValid(ps: seq<Struct>)
    requires AllWritable(ps)
    ensures AllValid(MessagesOf(ps))
  {
    forall i | 0 <= i < |ps|
      ensures Valid(MessagesOf(ps)[i])
    {
      WritesValid(ps[i]);
    }
  }

  /** Every write names its type, in the code under which readers find it, the latest version,
      and the length and checksum of what it sends. */
  lemma HeaderNames(p: Struct)
    requires Writable(p)
    ensures var f := MessageOf(p);
      && f.t == p.t && f.head.code == TypeCode(p.t) && TypeOf(f.head.code) == Some(p.t)
      && f.head.version == Latest(p.t) && f.head.f1 == 0xf1
      && f.head.numBytes == |f.payload| && f.head.cksum == Continue(CRC16_START, f.payload)
  {
    hide Wire, Continue, TypeCode, TypeOf;
    CodesDispatch(p.t, TypeCode(p.t));
    LengthBound(p.t, Latest(p.t), p.mem);
  }

  /** p and q put the same bytes on the wire under the same type. */
  ghost predicate SameOnWire(p: Struct, q: Struct)
    requires Writable(p) && Writable(q)
  {
    p.t == q.t && Wire(p.t, Latest(p.t), p.mem) == Wire(q.t, Latest(q.t), q.mem)
  }

  lemma MessageDecides(p: Struct, q: Struct)
    requires Writable(p) && Writable(q) && MessageOf(p) == MessageOf(q)
    ensures SameOnWire(p, q)
  {}

  /** The same stream is written only for structs of the same types with the same used bytes. */
  lemma StreamsDiffer(ps: seq<Struct>, qs: seq<Struct>)
    requires AllWritable(ps) && AllWritable(qs)
    requires Concat(MessagesOf(ps)) == Concat(MessagesOf(qs))
    ensures |ps| == |qs|
    ensures forall i :: 0 <= i < |ps| ==> SameOnWire(ps[i], qs[i])
  {
    hide Valid, Bytes, Writable, Concat, MessageOf, SameOnWire;
    var fs, gs := MessagesOf(ps), MessagesOf(qs);
    AllWritesValid(ps);
    AllWritesValid(qs);
    ValidIsFramed(fs);
    ValidIsFramed(gs);
    Unambiguous(fs, gs);
    Unambiguous(gs, fs);
    assert fs == gs;
    forall i | 0 <= i < |ps|
      ensures SameOnWire(ps[i], qs[i])
    {
      assert MessageOf(ps[i]) == fs[i] == gs[i] == MessageOf(qs[i]);
      MessageDecides(ps[i], qs[i]);
    }
  }

  /** A packet boundary on the writing side. */
  predicate AtBoundary(w: Writer) {
    w.sink.Socket? ==> w.sink.buf == []
  }

  function WriteStruct(w: Writer, p: Struct): (res: (Writer, int))
    requires Bounded(w) && Writable(p)
    ensures Bounded(res.0) && res.0.sink.File? == w.sink.File?
  {
    Write(w, p.t, p.mem)
  }

  function WriteAll(w: Writer, ps: seq<Struct>): (w': Writer)
    requires Bounded(w) && AllWritable(ps)
    ensures Bounded(w') && w'.sink.File? == w.sink.File?
    decreases |ps|
  {
    if ps == [] then w else WriteAll(WriteStruct(w, ps[0]).0, ps[1..])
  }

  /** The size of what a run delivers. */
  function TotalSize(fs: seq<Message>): nat {
    if fs == [] then 0 else HEAD_SIZE + fs[0].head.numBytes + TotalSize(fs[1..])
  }

  lemma {:induction false} ConcatSize(fs: seq<Message>)
    requires AllValid(fs)
    ensures |Concat(fs)| == TotalSize(fs)
  {
    if fs != [] {
      hide PayloadLen, Continue, TypeCode;
      ConcatSize(fs[1..]);
    }
  }

  /** The frame of p fits in one datagram. */
  predicate Fits(p: Struct)
    requires Writable(p)
  {
    |Bytes(MessageOf(p))| <= UDP_MAX
  }

  ghost predicate AllFit(ps: seq<Struct>)
    requires AllWritable(ps)
  {
    forall i :: 0 <= i < |ps| ==> Fits(ps[i])
  }

  /** What a write of p delivers: its frame, cut to a datagram over UDP. */
  function Output(datagram: bool, p: Struct): seq<byte>
    requires Writable(p)
  {
    Cut(datagram, Frame(p.t, p.mem))
  }

  /** What writes of ps deliver, one chunk each. */
  function Outputs(datagrams: bool, ps: seq<Struct>): (bs: seq<seq<byte>>)
    requires AllWritable(ps)
    ensures |bs| == |ps|
    ensures forall i :: 0 <= i < |ps| ==> bs[i] == Output(datagrams, ps[i])
  {
    if ps == [] then [] else [Output(datagrams, ps[0])] + Outputs(datagrams, ps[1..])
  }

  lemma CutWhole(datagram: bool, b: seq<byte>)
    ensures Cut(datagram, b) == b <==> !(datagram && |b| > UDP_MAX)
  {
    assert b[..|b|] == b;
  }

  lemma OneWhole(datagram: bool, p: Struct)
    requires Writable(p)
    ensures Output(datagram, p) == Bytes(MessageOf(p)) <==> !datagram || Fits(p)
  {
    hide MessageOf, Bytes, Frame, Cut;
    WritesValid(p);
    CutWhole(datagram, Frame(p.t, p.mem));
  }

  /** These are the whole messages iff they go to a file or all fit in datagrams. */
  lemma OutputsWhole(datagrams: bool, ps: seq<Struct>)
    requires AllWritable(ps)
    ensures Outputs(datagrams, ps) == Packed(MessagesOf(ps)) <==>
      !datagrams || AllFit(ps)
  {
    hide Writable, MessageOf, Bytes, Output, Fits, Outputs, Packed, MessagesOf;
    var bs, ds := Outputs(datagrams, ps), Packed(MessagesOf(ps));
    forall i | 0 <= i < |ps|
      ensures bs[i] == ds[i] <==> !datagrams || Fits(ps[i])
    {
      OneWhole(datagrams, ps[i]);
    }
    if bs == ds {
      assert forall i :: 0 <= i < |ps| ==> bs[i] == ds[i];
    }
  }

  /** The state after these chunks have been delivered, one datagram each if they go to a
      socket: the sink has grown by exactly the chunks, bytes_written by their size modulo
      2^64, and the packet counter by their number modulo 2^32. */
  function Ran(w: Writer, bs: seq<seq<byte>>): Writer {
    Writer(Wrap64(w.written + |Flatten(bs)|), Wrap32(w.packets + |bs|),
           if w.sink.Socket? then Socket([], w.sink.sent + bs) else File(w.sink.bytes + Flatten(bs)))
  }

  lemma RanNone(w: Writer)
    requires AtBoundary(w)
    ensures Ran(w, []) == w
  {
    if w.sink.Socket? {
      assert w.sink.sent + [] == w.sink.sent;
    } else {
      assert w.sink.bytes + [] == w.sink.bytes;
    }
  }

  lemma Adds32(a: uint32, n: nat)
    ensures Wrap32(Wrap32(a + 1) + n) == Wrap32(a + 1 + n)
  {}

  lemma RanStep(w: Writer, b: seq<byte>, bs: seq<seq<byte>>)
    ensures Ran(Ran(w, [b]), bs) == Ran(w, [b] + bs)
    ensures AtBoundary(Ran(w, [b])) && Ran(w, [b]).sink.Socket? == w.sink.Socket?
  {
    hide Wrap64, Wrap32;
    assert [b][1..] == [] && ([b] + bs)[1..] == bs;
    assert Flatten([b]) == b;
    if w.sink.Socket? {
      assert w.sink.sent + [b] + bs == w.sink.sent + ([b] + bs);
    } else {
      assert w.sink.bytes + b + Flatten(bs) == w.sink.bytes + (b + Flatten(bs));
    }
    Adds64(w.written, |b|, |Flatten(bs)|);
    Adds32(w.packets, |bs|);
  }

  lemma WriteStep(w: Writer, p: Struct)
    requires AtBoundary(w) && Writable(p)
    ensures var b := Output(w.sink.Socket?, p);
      WriteStruct(w, p) == (Ran(w, [b]), |b|)
  {
    hide Write, Frame, Wrap64, Wrap32, Cut;
    WritesFrame(w, p.t, p.mem);
    CutWhole(w.sink.Socket?, Frame(p.t, p.mem));
    var b := Output(w.sink.Socket?, p);
    assert [b][1..] == [];
    assert Flatten([b]) == b;
  }

  /** Conservation over any run of writes, to a file or to a socket: nothing is added or
      reordered, nothing is lost but what does not fit in a datagram, and the counters say
      how much was delivered. */
  lemma {:induction false} WritesRun(w: Writer, ps: seq<Struct>)
    requires AtBoundary(w) && AllWritable(ps)
    ensures WriteAll(w, ps) == Ran(w, Outputs(w.sink.Socket?, ps))
    decreases |ps|
  {
    hide Writable, WriteStruct, Output, Ran;
    if ps == [] {
      RanNone(w);
    } else {
      var bs := Outputs(w.sink.Socket?, ps);
      WriteStep(w, ps[0]);
      RanStep(w, bs[0], bs[1..]);
      WritesRun(Ran(w, [bs[0]]), ps[1..]);
      assert bs == [bs[0]] + bs[1..];
    }
  }

  /** If every frame goes out whole, bytes_written has grown by the sum of 8 + num_bytes. */
  lemma WholeRun(w: Writer, ps: seq<Struct>)
    requires AtBoundary(w) && AllWritable(ps)
    requires w.sink.Socket? ==> AllFit(ps)
    ensures WriteAll(w, ps) == Ran(w, Packed(MessagesOf(ps)))
    ensures WriteAll(w, ps).written == Wrap64(w.written + TotalSize(MessagesOf(ps)))
  {
    hide WriteAll, AllWritable, MessageOf, MessagesOf, AllFit, Concat, Packed, Flatten, Outputs, TotalSize, Wrap64, AllValid;
    WritesRun(w, ps);
    OutputsWhole(w.sink.Socket?, ps);
    var fs := MessagesOf(ps);
    FlattenPacked(fs);
    AllWritesValid(ps);
    ConcatSize(fs);
    assert Ran(w, Packed(fs)).written == Wrap64(w.written + TotalSize(fs));
  }

  lemma WrittenToFile(w: Writer, ps: seq<Struct>)
    requires w.sink.File? && AllWritable(ps)
    ensures WriteAll(w, ps).sink == File(w.sink.bytes + Concat(MessagesOf(ps)))
  {
    hide WriteAll, AllWritable, MessageOf, Concat;
    WholeRun(w, ps);
    FlattenPacked(MessagesOf(ps));
  }

  lemma WrittenToSocket(w: Writer, ps: seq<Struct>)
    requires w.sink.Socket? && AtBoundary(w) && AllWritable(ps)
    requires AllFit(ps)
    ensures WriteAll(w, ps).sink == Socket([], w.sink.sent + Packed(MessagesOf(ps)))
  {
    hide WriteAll, AllWritable, MessageOf, Packed, AllFit;
    WholeRun(w, ps);
  }
}
