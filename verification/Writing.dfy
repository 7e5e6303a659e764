/** The writing half of src/rawio.c and src/rawio_packets.c as a function of the
    handle's state, and what a run of writes leaves at the other end. */
module Writing {
  import opened Crc
  import opened Versions
  import opened Packets
  import opened Reading

  const TWO_TO_THE_32: nat := 0x1_0000_0000
  type uint32 = n: nat | n < TWO_TO_THE_32

  function Wrap32(n: int): uint32 {
    n % TWO_TO_THE_32
  }

  const UDP_MAX: nat := 65507

  /** Where bytes go: a byte stream that accepts everything, or a write buffer
      (buf[..nin]) and the datagrams sent so far. */
  datatype Sink =
    | File(bytes: seq<byte>)
    | Socket(buf: seq<byte>, sent: seq<seq<byte>>)

  /** The fields of pueo_handle_t that writing uses. */
  datatype Writer = Writer(written: uint64, packets: uint32, sink: Sink)

  /** The write buffer never outgrows a datagram. */
  predicate Bounded(w: Writer) {
    w.sink.Socket? ==> |w.sink.buf| <= UDP_MAX
  }

  /** write_bytes: everything to a file, and as much as fits to a socket buffer. */
  function WriteBytes(w: Writer, b: seq<byte>): (res: (Writer, nat))
    requires Bounded(w)
    ensures Bounded(res.0) && res.0.sink.File? == w.sink.File?
  {
    match w.sink
    case File(bytes) => (w.(sink := File(bytes + b)), |b|)
    case Socket(buf, sent) =>
      var n := Min(|b|, UDP_MAX - |buf|);
      (w.(sink := Socket(buf + b[..n], sent)), n)
  }

  /** done_write_packet: a socket sends its buffer, whatever is in it. */
  function Finish(w: Writer): (w': Writer)
    ensures Bounded(w') && w'.sink.File? == w.sink.File?
  {
    match w.sink
    case File(bytes) => w
    case Socket(buf, sent) => w.(sink := Socket([], sent + [buf]))
  }

  /** write_waveform for n waveforms from m[at..] on. */
  function WriteChannels(w: Writer, m: seq<byte>, at: nat, n: nat, total: nat): (res: (Writer, nat))
    requires Bounded(w) && at + n * WF_SIZE <= |m|
    ensures Bounded(res.0) && res.0.sink.File? == w.sink.File?
    decreases n
  {
    if n == 0 then (w, total)
    else
      var (w1, k) := WriteBytes(w, m[at..at + WfBytes(m, at)]);
      WriteChannels(w1, m, at + WF_SIZE, n - 1, total + k)
  }

  /** pueo_write_packet_X; the counted writers send a prefix of the struct. */
  function WritePacket(w: Writer, t: PacketType, m: seq<byte>): (res: (Writer, nat))
    requires Bounded(w) && Sendable(t, Latest(t), m)
    ensures Bounded(res.0) && res.0.sink.File? == w.sink.File?
  {
    if Simple(t) then
      WriteBytes(w, m)
    else if Waveform(t) then
      var (w1, k) := WriteBytes(w, m[..WfOffset(t)]);
      WriteChannels(w1, m, WfOffset(t), Channels(t), k)
    else
      WriteBytes(w, m[..Base(t) + Count(t, Latest(t), m)])
  }

  /** pueo_write_X behind the header, of which `ret` bytes have been written. */
  function WriteRest(w: Writer, t: PacketType, m: seq<byte>, ret: nat): (res: (Writer, int))
    requires Bounded(w) && Sendable(t, Latest(t), m)
    ensures Bounded(res.0) && res.0.sink.File? == w.sink.File?
  {
    var (w2, ret2) := WritePacket(w.(written := Wrap64(w.written + ret)), t, m);
    var w3 := Finish(w2);
    (w3.(written := Wrap64(w3.written + ret2), packets := Wrap32(w3.packets + 1)), ret + ret2)
  }

  /** pueo_write_X; -1 if the header itself does not fit. */
  function Write(w: Writer, t: PacketType, m: seq<byte>): (res: (Writer, int))
    requires Bounded(w) && Sendable(t, Latest(t), m)
    ensures Bounded(res.0) && res.0.sink.File? == w.sink.File?
  {
    var (w1, ret) := WriteBytes(w, Encode(HeaderFor(t, Latest(t), m)));
    if ret != HEAD_SIZE then (w1, -1) else WriteRest(w1, t, m, ret)
  }

  //////////////////////////////////////////////////////////////////////////////
  // One write
  //////////////////////////////////////////////////////////////////////////////

  /** What a writer has put out since its last flush. */
  function Pending(w: Writer): seq<byte> {
    match w.sink
    case File(bytes) => bytes
    case Socket(buf, _) => buf
  }

  /** As much of b as one datagram holds, if it goes into a datagram. */
  function Cut(datagram: bool, b: seq<byte>): seq<byte> {
    if datagram then b[..Min(|b|, UDP_MAX)] else b
  }

  /** w with b appended to what it has put out, cut to what fits. */
  function Append(w: Writer, b: seq<byte>): (w': Writer)
    requires Bounded(w)
    ensures Bounded(w')
  {
    match w.sink
    case File(bytes) => w.(sink := File(bytes + b))
    case Socket(buf, sent) => w.(sink := Socket(Cut(true, buf + b), sent))
  }

  function Accepted(w: Writer, b: seq<byte>): nat
    requires Bounded(w)
  {
    if w.sink.Socket? then Min(|b|, UDP_MAX - |w.sink.buf|) else |b|
  }

  lemma WritesAppend(w: Writer, b: seq<byte>)
    requires Bounded(w)
    ensures WriteBytes(w, b) == (Append(w, b), Accepted(w, b))
  {
    if w.sink.Socket? {
      var buf := w.sink.buf;
      assert (buf + b)[..Min(|buf + b|, UDP_MAX)] == buf + b[..Accepted(w, b)];
    }
  }

  lemma AppendTwice(w: Writer, a: seq<byte>, b: seq<byte>)
    requires Bounded(w)
    ensures Append(Append(w, a), b) == Append(w, a + b)
    ensures Accepted(w, a) + Accepted(Append(w, a), b) == Accepted(w, a + b)
  {
    match w.sink
    case File(bytes) => assert bytes + a + b == bytes + (a + b);
    case Socket(buf, _) =>
      assert buf + a + b == buf + (a + b);
      if |buf| + |a| <= UDP_MAX {
        assert Cut(true, buf + a) == buf + a;
      } else {
        assert Cut(true, buf + a) == Cut(true, buf + (a + b));
        assert Cut(true, Cut(true, buf + a) + b) == Cut(true, buf + a);
      }
  }

  lemma AppendNothing(w: Writer)
    requires Bounded(w)
    ensures Append(w, []) == w && Accepted(w, []) == 0
  {
    assert Pending(w) + [] == Pending(w);
  }

  /** The channel loop puts out the used parts of the channels, in order. */
  lemma {:induction false} WritesChannels(w: Writer, m: seq<byte>, at: nat, n: nat, total: nat)
    requires Bounded(w) && at + n * WF_SIZE <= |m|
    ensures WriteChannels(w, m, at, n, total) == (Append(w, Used(m, at, n)), total + Accepted(w, Used(m, at, n)))
    decreases n
  {
    hide WfBytes, WriteBytes, Append, Accepted;
    if n == 0 {
      AppendNothing(w);
    } else {
      var b := m[at..at + WfBytes(m, at)];
      WritesAppend(w, b);
      WritesChannels(Append(w, b), m, at + WF_SIZE, n - 1, total + Accepted(w, b));
      AppendTwice(w, b, Used(m, at + WF_SIZE, n - 1));
    }
  }

  /** Writers and header builders agree: a packet writer puts out the wire image whose
      length and checksum the header builder announces. */
  lemma WritesWire(w: Writer, t: PacketType, m: seq<byte>)
    requires Bounded(w) && Sendable(t, Latest(t), m)
    ensures var b := Wire(t, Latest(t), m); WritePacket(w, t, m) == (Append(w, b), Accepted(w, b))
  {
    hide Count, Append, Accepted, WriteBytes, Used;
    WritesAppend(w, Wire(t, Latest(t), m));
    if Simple(t) {
      assert Wire(t, Latest(t), m) == m;
    } else if Waveform(t) {
      var p := m[..WfOffset(t)];
      WritesAppend(w, p);
      WritesChannels(Append(w, p), m, WfOffset(t), Channels(t), Accepted(w, p));
      AppendTwice(w, p, Used(m, WfOffset(t), Channels(t)));
    }
  }

  /** One packet more, at a packet boundary: to a file the whole frame; over UDP one
      datagram, the frame cut to 65507 bytes. */
  function Delivered(w: Writer, frame: seq<byte>): Sink {
    match w.sink
    case File(bytes) => File(bytes + frame)
    case Socket(_, sent) => Socket([], sent + [Cut(w.sink.Socket?, frame)])
  }

  lemma Adds64(a: uint64, m: nat, n: nat)
    ensures Wrap64(Wrap64(a + m) + n) == Wrap64(a + m + n)
  {}

  /** A header, then a payload, then the flush. */
  lemma DeliversBoth(w: Writer, h: seq<byte>, b: seq<byte>, k: uint64)
    requires |h| == HEAD_SIZE && (w.sink.Socket? ==> w.sink.buf == [])
    ensures Accepted(w, h) == HEAD_SIZE && Append(w, h).written == w.written
    ensures var w1 := Append(w, h).(written := k);
      && HEAD_SIZE + Accepted(w1, b) == |Cut(w.sink.Socket?, h + b)|
      && Finish(Append(w1, b)) == w.(written := k, sink := Delivered(w, h + b))
  {
    AppendTwice(w, h, b);
    if w.sink.Socket? {
      assert [] + (h + b) == h + b;
    }
  }

  /** A write at a packet boundary delivers its frame and counts what it delivered. */
  lemma WritesFrame(w: Writer, t: PacketType, m: seq<byte>)
    requires Sendable(t, Latest(t), m)
    requires w.sink.Socket? ==> w.sink.buf == []
    ensures var f := Frame(t, m); var n := |Cut(w.sink.Socket?, f)|;
      Write(w, t, m) == (Writer(Wrap64(w.written + n), Wrap32(w.packets + 1), Delivered(w, f)), n)
  {
    hide Wire, HeaderFor, Encode, WritePacket, WriteBytes, Append, Accepted, Finish, Delivered, Cut;
    var h, b := Encode(HeaderFor(t, Latest(t), m)), Wire(t, Latest(t), m);
    var k := Wrap64(w.written + HEAD_SIZE);
    WritesAppend(w, h);
    DeliversBoth(w, h, b, k);
    WritesWire(Append(w, h).(written := k), t, m);
    Adds64(w.written, HEAD_SIZE, Accepted(Append(w, h).(written := k), b));
  }

  /** The datagram is the whole frame iff the frame fits, which it always does except
      for full events. */
  lemma DatagramWhole(w: Writer, t: PacketType, m: seq<byte>)
    requires Sendable(t, Latest(t), m) && w.sink.Socket?
    ensures Cut(w.sink.Socket?, Frame(t, m)) == Frame(t, m) <==> HEAD_SIZE + |Wire(t, Latest(t), m)| <= UDP_MAX
    ensures t != FullWaveforms ==> Cut(w.sink.Socket?, Frame(t, m)) == Frame(t, m)
  {
    LengthBound(t, Latest(t), m);
  }
}
