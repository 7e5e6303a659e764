/** The handle of src/rawio.c and everything that moves it, done in place: transports,
    packet readers and writers, header builders, typed and generic reads and writes.
    Every method is proved against the function of Reading or Writing that says what
    the step does. */
module Rawio {
  import opened Crc
  import opened Versions
  import opened Packets
  import opened Reading
  import opened Writing

  const UDP_BUFFER: nat := 65524

  /** A packet reader comes to its end: it neither stops the program nor waits. */
  predicate Returns(o: Outcome) {
    o.Done? && !Waits(o.r)
  }

  /** Which functions the handle's pointers point to. */
  datatype Backend = FileBackend | UdpReader | UdpWriter

  /** memset(p + from, 0, to - from); `size` is the size of the struct at p. */
  method Memset(p: array<byte>, from: nat, to: nat, ghost size: nat)
    requires from <= to <= size <= p.Length
    modifies p
    ensures p[..size] == Clear(old(p[..size]), from, to)
    ensures p[size..] == old(p[size..])
  {
    forall i | from <= i < to {
      p[i] := 0;
    }
  }

  /** memcpy(p + at, b, |b|) */
  method Memcpy(p: array<byte>, at: nat, b: seq<byte>, ghost size: nat)
    requires at + |b| <= size <= p.Length
    modifies p
    ensures p[..size] == Splice(old(p[..size]), at, b)
    ensures p[size..] == old(p[size..])
  {
    forall i | 0 <= i < |b| {
      p[at + i] := b[i];
    }
  }

  //////////////////////////////////////////////////////////////////////////////
  // Header builders
  //////////////////////////////////////////////////////////////////////////////

  /** The length field of a waveform at p[at..], clamped to the buffer. */
  method SampleCount(p: array<byte>, at: nat, ghost size: nat) returns (length: nat)
    requires at + WF_DATA <= size <= p.Length
    ensures WF_DATA + 2 * length == WfBytes(p[..size], at)
  {
    length := p[at + 2] as int + 256 * (p[at + 3] as int);
    if length > MAX_SAMPLES {
      length := MAX_SAMPLES;
    }
  }

  /** update_len_cksum_waveform: the accumulators go forward by one waveform. */
  method UpdateLenCksumWaveform(len: nat, cksum: bv16, p: array<byte>, at: nat, ghost size: nat)
    returns (len': nat, cksum': bv16)
    requires at + WF_SIZE <= size <= p.Length
    ensures var k := WfBytes(p[..size], at);
      len' == len + k && cksum' == Continue(cksum, p[..size][at..at + k])
  {
    hide WfBytes, Continue, Register, StreamBits;
    var length := SampleCount(p, at, size);
    var k := WF_DATA + 2 * length;
    cksum' := Crc16Continue(cksum, p, at, k);
    assert p[..size][at..at + k] == p[at..at + k];
    len' := len + k;
  }

  lemma ContinueNothing(crc: bv16)
    ensures Continue(crc, []) == crc
  {}

  /** pueo_packet_header_for_single_waveform and pueo_packet_header_for_full_waveforms: the
      length and the checksum are accumulated over the prefix and one channel after the
      other; they come out as those of the whole wire image in one piece. */
  method HeaderForWaveforms(t: PacketType, p: array<byte>, ver: uint4) returns (hd: Header)
    requires Waveform(t) && InMemory(t) <= p.Length
    ensures Sendable(t, ver, p[..InMemory(t)]) && hd == Packets.HeaderFor(t, ver, p[..InMemory(t)])
  {
    hide Continue, Register, StreamBits, WfBytes;
    ghost var m := p[..InMemory(t)];
    ghost var whole := Wire(t, ver, m);
    var len: nat := Prefix(t, ver);
    var crc := Crc16Continue(CRC16_START, p, 0, len);
    assert p[0..len] == m[..len];
    var at := WfOffset(t);
    Composition(CRC16_START, m[..len], Used(m, at, Channels(t)));
    for i := 0 to Channels(t)
      invariant at == WfOffset(t) + i * WF_SIZE
      invariant len + |Used(m, at, Channels(t) - i)| == |whole|
      invariant Continue(crc, Used(m, at, Channels(t) - i)) == Continue(CRC16_START, whole)
    {
      ghost var k := WfBytes(m, at);
      Composition(crc, m[at..at + k], Used(m, at + WF_SIZE, Channels(t) - i - 1));
      len, crc := UpdateLenCksumWaveform(len, crc, p, at, InMemory(t));
      at := at + WF_SIZE;
    }
    ContinueNothing(crc);
    hd := Header(TypeCode(t), crc, F1, ver, len % 0x10_0000);
  }

  /** SIMPLE_PUEO_H_IMPL */
  method HeaderForSimple(t: PacketType, p: array<byte>, ver: uint4) returns (hd: Header)
    requires Simple(t) && InMemory(t) <= p.Length && Sendable(t, ver, p[..InMemory(t)])
    ensures hd == Packets.HeaderFor(t, ver, p[..InMemory(t)])
  {
    hide Continue, Register, StreamBits;
    var size := PacketSize(t, ver);
    SizesGrow(t, ver, Latest(t));
    var crc := Crc16Continue(CRC16_START, p, 0, size);
    assert p[0..size] == p[..InMemory(t)][..size];
    hd := Header(TypeCode(t), crc, F1, ver, size % 0x10_0000);
  }

  /** The length that the header builders of the counted types work out. Version 0 of the
      sensor packets takes the whole struct. */
  method CountedSize(t: PacketType, p: array<byte>, ver: int) returns (n: nat)
    requires Counted(t) && InMemory(t) <= p.Length
    ensures n == Base(t) + Count(t, ver, p[..InMemory(t)])
  {
    match t
    case SensorsDisk =>
      n := if ver == 0 then InMemory(t) else 4 + (p[0] as int + 256 * (p[1] as int)) * 12;
    case SensorsTelem =>
      n := if ver == 0 then InMemory(t) else 8 + (p[6] as int + 256 * (p[7] as int)) * 4;
    case CmdEcho => n := 8 + p[4] as int + 1;
    case FileDownload => n := 40 + (p[38] as int + 256 * (p[39] as int));
    case Logs => n := 10 + p[6] as int + p[7] as int + (p[8] as int + 256 * (p[9] as int));
    case NavSat => n := 20 + (p[17] as int) * 10;
  }

  /** The header builders of the counted types. */
  method HeaderForCounted(t: PacketType, p: array<byte>, ver: uint4) returns (hd: Header)
    requires Counted(t) && InMemory(t) <= p.Length && Sendable(t, ver, p[..InMemory(t)])
    ensures hd == Packets.HeaderFor(t, ver, p[..InMemory(t)])
  {
    hide Continue, Register, StreamBits, Count;
    var len := CountedSize(t, p, ver);
    var crc := Crc16Continue(CRC16_START, p, 0, len);
    assert p[0..len] == p[..InMemory(t)][..len];
    hd := Header(TypeCode(t), crc, F1, ver, len % 0x10_0000);
  }

  /** pueo_packet_header_for_X */
  method PacketHeaderFor(t: PacketType, p: array<byte>, ver: uint4) returns (hd: Header)
    requires InMemory(t) <= p.Length && Sendable(t, ver, p[..InMemory(t)])
    ensures hd == Packets.HeaderFor(t, ver, p[..InMemory(t)])
  {
    hide Packets.HeaderFor, Sendable;
    if Simple(t) {
      hd := HeaderForSimple(t, p, ver);
    } else if Waveform(t) {
      hd := HeaderForWaveforms(t, p, ver);
    } else {
      hd := HeaderForCounted(t, p, ver);
    }
  }

  /** What the second half of a counted reader amounts to, step by step. */
  lemma ArrayRead(r: Reader, t: PacketType, ver: int, d: seq<byte>, nrd: nat)
    requires Counted(t) && |d| == InMemory(t) && nrd <= Base(t) && Returns(ReadArray(r, t, ver, d, nrd))
    ensures CountFits(t, ver, d)
    ensures var (r1, b) := Reading.ReadBytes(r, Count(t, ver, d)); var d1 := Splice(d, Base(t), b);
      && !Waits(r1) && CountFits(t, ver, d1) && Count(t, ver, d1) == Count(t, ver, d)
      && ReadArray(r, t, ver, d, nrd) == Done(r1, ClearTail(t, ver, d1, nrd + |b|), nrd + |b|)
  {
    hide Count, ClearTail, Reading.ReadBytes;
    var (r1, b) := Reading.ReadBytes(r, Count(t, ver, d));
    var d1 := Splice(d, Base(t), b);
    assert d[..Base(t)] == d1[..Base(t)];
    CountLocal(t, ver, d, d1);
  }

  /** The bytes that a counted reader zeroes at the end. */
  lemma TailOf(t: PacketType, ver: int, d: seq<byte>, nrd: nat)
    requires Counted(t) && |d| == InMemory(t) && nrd <= |d| && CountFits(t, ver, d)
    ensures ClearTail(t, ver, d, nrd) ==
      if t.SensorsDisk? && (ver == 0 || U16At(d, 0) >= 256) then d
      else if t.SensorsDisk? || t.SensorsTelem? || t.NavSat? then Clear(d, nrd, InMemory(t))
      else Clear(d, Base(t) + Count(t, ver, d), ArrayEnd(t))
  {
    hide Count, Clear;
  }

  /** Zeroing readout_time commutes with reading a prefix that ends before it. */
  lemma ClearBehind(d: seq<byte>, b: seq<byte>)
    requires |b| <= READOUT_TIME && READOUT_TIME + 8 <= |d|
    ensures Clear(Splice(d, 0, b), READOUT_TIME, READOUT_TIME + 8) == Splice(Clear(d, READOUT_TIME, READOUT_TIME + 8), 0, b)
  {}

  /** The first read of a reader that returns does not wait. */
  lemma FirstReads(r: Reader, t: PacketType, ver: int, d: seq<byte>, n: nat)
    requires |d| == InMemory(t) && Returns(Reading.ReadPacket(r, t, ver, d))
    requires n == if Simple(t) then PacketSize(t, ver) else if Waveform(t) then Prefix(t, ver) else Base(t)
    ensures !Waits(Reading.ReadBytes(r, n).0)
  {
    hide Splice, Clear, ReadChannels, Count, ClearTail, ArrayEnd, Reading.ReadBytes;
    WaitingReadsNothing(r, n);
  }

  lemma WaveformWaits(r: Reader, d: seq<byte>, at: nat)
    requires at + WF_SIZE <= |d|
    ensures Waits(Reading.ReadBytes(r, WF_DATA).0) ==> Waits(ReadWaveform(r, d, at).0)
    ensures Waits(r) ==> Waits(ReadWaveform(r, d, at).0) && ReadWaveform(r, d, at).2 == -1
  {
    hide Splice;
    WaitingReadsNothing(r, WF_DATA);
  }

  /** A channel loop that waits in its first channel does not return. */
  lemma ChannelsWait(r: Reader, d: seq<byte>, at: nat, n: nat, total: int)
    requires n > 0 && at + n * WF_SIZE <= |d| && Waits(ReadWaveform(r, d, at).0)
    ensures Waits(ReadChannels(r, d, at, n, total).r)
  {
    hide ReadWaveform;
    var (r1, d1, k) := ReadWaveform(r, d, at);
    if k >= 0 && n > 1 {
      WaveformWaits(r1, d1, at + WF_SIZE);
    }
  }

  /** What has been appended starts with a header of type t in its latest version. */
  ghost predicate Announces(before: seq<byte>, after: seq<byte>, t: PacketType) {
    && before <= after && |before| + HEAD_SIZE <= |after|
    && var h := Decode(after[|before|..|before| + HEAD_SIZE]);
    h.code == TypeCode(t) && h.version == Latest(t) && h.f1 == 0xf1
  }

  lemma WriteAnnounces(w: Writer, t: PacketType, m: seq<byte>)
    requires Sendable(t, Latest(t), m) && Bounded(w)
    ensures w.sink.File? ==> Announces(w.sink.bytes, Writing.Write(w, t, m).0.sink.bytes, t)
  {
    if w.sink.File? {
      hide Writing.Write, Wire, Encode, Decode, Continue, TypeCode, Latest;
      WritesFrame(w, t, m);
      var h := Packets.HeaderFor(t, Latest(t), m);
      var b, f := w.sink.bytes, Frame(t, m);
      assert (b + f)[|b|..|b| + HEAD_SIZE] == Encode(h);
      DecodeEncode(h);
    }
  }

  /** pueo_packet_t: a header, and a payload array of payload_capacity bytes. */
  class PacketBuffer {
    var head: Header
    const payload: array<byte>

    ghost function View(): Packet
      reads this, payload
    {
      Packet(head, payload[..])
    }

    /** malloc and pueo_packet_init; the contents of the payload are arbitrary. */
    constructor (capacity: nat)
      ensures fresh(payload) && head == NO_HEAD && payload.Length == capacity
    {
      head := NO_HEAD;
      payload := new byte[capacity];
    }
  }

  /** What a pointer to a packet points to, if anything. */
  ghost function ViewOf(p: PacketBuffer?): Option<Packet>
    reads p, if p == null then {} else {p.payload}
  {
    if p == null then None else Some(p.View())
  }

  /** pueo_handle_t, with the struct udp_aux it points to. A file is read from `file` at
      `position` and written by appending to `written`; datagrams come from `inbox` and
      go to `outbox`. */
  class Handle {
    var packetWriteCounter: uint32
    var lastReadHeader: Header
    var requiredReadSize: Size
    var alreadyReadHead: bool
    var bytesWritten: uint64
    var bytesRead: uint64

    const backend: Backend
    var file: seq<byte>
    var position: nat
    var written: seq<byte>

    const buf: array<byte>
    var nin: nat
    var nout: nat
    var inbox: seq<seq<byte>>
    var outbox: seq<seq<byte>>

    /** The cursors of the datagram buffer stay in order and within one datagram. */
    ghost predicate Valid()
      reads this
    {
      && buf.Length == UDP_BUFFER && nout <= nin <= UDP_MAX
      && position <= |file|
      && (forall i :: 0 <= i < |inbox| ==> |inbox[i]| <= UDP_MAX)
      && (backend == UdpWriter ==> nout == 0)
    }

    ghost function ReaderView(): Reader
      requires Valid()
      reads this, buf
    {
      Reader(lastReadHeader, requiredReadSize, alreadyReadHead, bytesRead,
             if backend == FileBackend then Stream(file[position..]) else Datagrams(buf[nout..nin], inbox))
    }

    ghost function WriterView(): Writer
      requires Valid()
      reads this, buf
    {
      Writer(bytesWritten, packetWriteCounter,
             if backend == FileBackend then File(written) else Socket(buf[..nin], outbox))
    }

    /** pueo_handle_init_*: a zeroed handle. */
    constructor (backend: Backend, file: seq<byte>, inbox: seq<seq<byte>>)
      requires forall i :: 0 <= i < |inbox| ==> |inbox[i]| <= UDP_MAX
      ensures Valid() && fresh(buf) && this.backend == backend
      ensures ReaderView() == Reader(NO_HEAD, 0, false, 0, if backend == FileBackend then Stream(file) else Datagrams([], inbox))
      ensures WriterView() == Writer(0, 0, if backend == FileBackend then File([]) else Socket([], []))
    {
      packetWriteCounter, lastReadHeader, requiredReadSize, alreadyReadHead := 0, NO_HEAD, 0, false;
      bytesWritten, bytesRead := 0, 0;
      this.backend, this.file, this.inbox := backend, file, inbox;
      position, written, outbox := 0, [], [];
      buf := new byte[UDP_BUFFER];
      nin, nout := 0, 0;
    }

    //////////////////////////////////////////////////////////////////////////////
    // Transports
    //////////////////////////////////////////////////////////////////////////////

    /** file_readbytes */
    method FileReadBytes(n: nat, p: array<byte>, at: nat, ghost size: nat) returns (nread: nat)
      requires Valid() && backend == FileBackend && p != buf && at + n <= size <= p.Length
      modifies this`position, p
      ensures Valid()
      ensures var (r1, b) := Reading.ReadBytes(old(ReaderView()), n);
        ReaderView() == r1 && nread == |b| && p[..size] == Splice(old(p[..size]), at, b)
      ensures p[size..] == old(p[size..])
    {
      nread := Min(n, |file| - position);
      Memcpy(p, at, file[position..position + nread], size);
      assert file[position..position + nread] == file[position..][..nread];
      position := position + nread;
      assert file[position..] == old(file[position..])[nread..];
    }

    /** At most n bytes from between the cursors. */
    method CopyOut(n: nat, p: array<byte>, at: nat, ghost size: nat) returns (ncopy: nat)
      requires Valid() && backend == UdpReader && p != buf && at + n <= size <= p.Length
      modifies this`nout, p
      ensures Valid() && ncopy == Min(n, |Available(old(ReaderView()))|)
      ensures ReaderView() == Skip(old(ReaderView()), ncopy)
      ensures p[..size] == Splice(old(p[..size]), at, Available(old(ReaderView()))[..ncopy])
      ensures p[size..] == old(p[size..])
    {
      hide Splice;
      var nleft := nin - nout;
      ncopy := if nleft < n then nleft else n;
      ghost var cur := buf[nout..nin];
      assert buf[nout..nout + ncopy] == cur[..ncopy];
      Memcpy(p, at, buf[nout..nout + ncopy], size);
      assert buf[nout..nin] == cur;
      nout := nout + ncopy;
      assert buf[nout..nin] == cur[ncopy..];
    }

    /** recv: the next datagram into the buffer. It returns only if one arrives. */
    method Recv() returns (s: nat)
      requires Valid() && inbox != []
      modifies this`inbox, buf
      ensures s <= UDP_MAX && inbox == old(inbox)[1..]
      ensures buf[..s] == old(inbox)[0]
    {
      var d := inbox[0];
      s := |d|;
      forall i | 0 <= i < s {
        buf[i] := d[i];
      }
      inbox := inbox[1..];
    }

    /** The next datagram into the buffer, whose header then counts as read. */
    method ReceiveNext()
      requires Valid() && backend == UdpReader && nin == nout && inbox != []
      modifies this`nin, this`nout, this`inbox, this`alreadyReadHead, buf
      ensures Valid() && ReaderView() == Refill(old(ReaderView()))
    {
      var s := Recv();
      alreadyReadHead := true;
      nin, nout := s, 0;
    }

    /** socket_readbytes: receive if the datagram is used up, then copy what there is. */
    method SocketReadBytes(n: nat, p: array<byte>, at: nat, ghost size: nat) returns (ncopy: nat)
      requires Valid() && backend == UdpReader && p != buf && at + n <= size <= p.Length
      requires !Waits(Refill(ReaderView()))
      modifies this`nin, this`nout, this`inbox, this`alreadyReadHead, buf, p
      ensures Valid()
      ensures var (r1, b) := Reading.ReadBytes(old(ReaderView()), n);
        ReaderView() == r1 && ncopy == |b| && p[..size] == Splice(old(p[..size]), at, b)
      ensures p[size..] == old(p[size..])
    {
      if nin == nout {
        ReceiveNext();
      }
      ghost var r := ReaderView();
      assert r == Refill(old(ReaderView()));
      ncopy := CopyOut(n, p, at, size);
    }

    /** h->read_bytes */
    method ReadBytes(n: nat, p: array<byte>, at: nat, ghost size: nat) returns (nread: nat)
      requires Valid() && backend != UdpWriter && p != buf && at + n <= size <= p.Length
      requires !Waits(Reading.ReadBytes(ReaderView(), n).0)
      modifies this`position, this`nin, this`nout, this`inbox, this`alreadyReadHead, buf, p
      ensures Valid()
      ensures var (r1, b) := Reading.ReadBytes(old(ReaderView()), n);
        ReaderView() == r1 && nread == |b| && p[..size] == Splice(old(p[..size]), at, b)
      ensures p[size..] == old(p[size..])
    {
      if backend == FileBackend {
        nread := FileReadBytes(n, p, at, size);
      } else {
        nread := SocketReadBytes(n, p, at, size);
      }
    }

    /** socket_writebytes */
    method SocketWriteBytes(b: seq<byte>) returns (n: nat)
      requires Valid() && backend == UdpWriter
      modifies this`nin, buf
      ensures Valid()
      ensures Bounded(old(WriterView())) && (WriterView(), n) == Writing.WriteBytes(old(WriterView()), b)
    {
      n := |b|;
      if nin + n > UDP_MAX {
        n := UDP_MAX - nin;
      }
      forall i | 0 <= i < n {
        buf[nin + i] := b[i];
      }
      nin := nin + n;
      assert buf[..nin] == old(buf[..nin]) + b[..n];
    }

    /** h->write_bytes */
    method WriteBytes(b: seq<byte>) returns (n: nat)
      requires Valid() && backend != UdpReader
      modifies this`written, this`nin, buf
      ensures Valid()
      ensures Bounded(old(WriterView())) && (WriterView(), n) == Writing.WriteBytes(old(WriterView()), b)
    {
      if backend == FileBackend {
        written := written + b;
        n := |b|;
      } else {
        n := SocketWriteBytes(b);
      }
    }

    /** h->done_write_packet: socket_done, or a null pointer. */
    method DoneWritePacket()
      requires Valid() && backend != UdpReader
      modifies this`nin, this`outbox
      ensures Valid()
      ensures WriterView() == Finish(old(WriterView()))
    {
      if backend == UdpWriter {
        outbox := outbox + [buf[..nin]];
        nin := 0;
      }
    }

    //////////////////////////////////////////////////////////////////////////////
    // Packet readers
    //////////////////////////////////////////////////////////////////////////////

    /** The 16-bit field at p[at..] */
    method Field16(p: array<byte>, at: nat, ghost size: nat) returns (n: nat)
      requires at + 2 <= size <= p.Length
      ensures n == U16At(p[..size], at)
    {
      n := p[at] as int + 256 * (p[at + 1] as int);
    }

    /** SIMPLE_PUEO_I_IMPL */
    method ReadPacketSimple(t: PacketType, p: array<byte>, ver: int) returns (nread: int)
      requires Valid() && backend != UdpWriter && p != buf && Simple(t) && InMemory(t) <= p.Length
      requires Returns(ReadSimple(ReaderView(), t, ver, p[..InMemory(t)]))
      modifies this`position, this`nin, this`nout, this`inbox, this`alreadyReadHead, buf, p
      ensures Valid() && p[InMemory(t)..] == old(p[InMemory(t)..])
      ensures Done(ReaderView(), p[..InMemory(t)], nread) == ReadSimple(old(ReaderView()), t, ver, old(p[..InMemory(t)]))
    {
      hide Reading.ReadBytes;
      var versize := PacketSize(t, ver);
      if versize < 0 || versize > InMemory(t) {
        return -1;
      }
      FirstReads(ReaderView(), t, ver, p[..InMemory(t)], versize);
      nread := ReadBytes(versize, p, 0, InMemory(t));
      Memset(p, versize, InMemory(t), InMemory(t));
    }

    /** read_waveform */
    method ReadOneWaveform(p: array<byte>, at: nat, ghost size: nat) returns (nrd: int)
      requires Valid() && backend != UdpWriter && p != buf && at + WF_SIZE <= size <= p.Length
      requires !Waits(ReadWaveform(ReaderView(), p[..size], at).0)
      modifies this`position, this`nin, this`nout, this`inbox, this`alreadyReadHead, buf, p
      ensures Valid() && p[size..] == old(p[size..])
      ensures (ReaderView(), p[..size], nrd) == ReadWaveform(old(ReaderView()), old(p[..size]), at)
    {
      hide Reading.ReadBytes, Splice;
      WaveformWaits(ReaderView(), p[..size], at);
      nrd := ReadBytes(WF_DATA, p, at, size);
      if nrd != WF_DATA {
        return -1;
      }
      var length := Field16(p, at + 2, size);
      if length > MAX_SAMPLES {
        length := MAX_SAMPLES;
      }
      var k := ReadBytes(2 * length, p, at + WF_DATA, size);
      nrd := nrd + k;
      if nrd != WF_DATA + 2 * length {
        return -1;
      }
    }

    /** pueo_read_packet_single_waveform */
    method ReadPacketSingleWaveform(p: array<byte>, ver: int) returns (total: int)
      requires Valid() && backend != UdpWriter && p != buf && InMemory(SingleWaveform) <= p.Length
      requires Returns(ReadWaveforms(ReaderView(), SingleWaveform, ver, p[..InMemory(SingleWaveform)]))
      modifies this`position, this`nin, this`nout, this`inbox, this`alreadyReadHead, buf, p
      ensures Valid() && p[InMemory(SingleWaveform)..] == old(p[InMemory(SingleWaveform)..])
      ensures Done(ReaderView(), p[..InMemory(SingleWaveform)], total)
        == ReadWaveforms(old(ReaderView()), SingleWaveform, ver, old(p[..InMemory(SingleWaveform)]))
    {
      hide Reading.ReadBytes, Splice, Clear, ReadWaveform;
      var offs := Prefix(SingleWaveform, ver);
      FirstReads(ReaderView(), SingleWaveform, ver, p[..InMemory(SingleWaveform)], offs);
      if ver == 0 {
        Memset(p, READOUT_TIME, READOUT_TIME + 8, InMemory(SingleWaveform));
      }
      total := ReadBytes(offs, p, 0, InMemory(SingleWaveform));
      if total != offs {
        return -1;
      }
      ghost var r, d := ReaderView(), p[..InMemory(SingleWaveform)];
      if Waits(ReadWaveform(r, d, WfOffset(SingleWaveform)).0) {
        ChannelsWait(r, d, WfOffset(SingleWaveform), 1, offs);
      }
      var nrd := ReadOneWaveform(p, WfOffset(SingleWaveform), InMemory(SingleWaveform));
      assert ReadChannels(r, d, WfOffset(SingleWaveform), 1, offs) ==
        Done(ReaderView(), p[..InMemory(SingleWaveform)], if nrd < 0 then -1 else offs + nrd);
      if nrd < 0 {
        return -1;
      }
      total := total + nrd;
    }

    /** pueo_read_packet_full_waveforms */
    method ReadPacketFullWaveforms(p: array<byte>, ver: int) returns (total: int)
      requires Valid() && backend != UdpWriter && p != buf && InMemory(FullWaveforms) <= p.Length
      requires Returns(ReadWaveforms(ReaderView(), FullWaveforms, ver, p[..InMemory(FullWaveforms)]))
      modifies this`position, this`nin, this`nout, this`inbox, this`alreadyReadHead, buf, p
      ensures Valid() && p[InMemory(FullWaveforms)..] == old(p[InMemory(FullWaveforms)..])
      ensures Done(ReaderView(), p[..InMemory(FullWaveforms)], total)
        == ReadWaveforms(old(ReaderView()), FullWaveforms, ver, old(p[..InMemory(FullWaveforms)]))
    {
      hide Reading.ReadBytes, Splice, Clear, ReadWaveform, ReaderView, Valid, Waits;
      ghost var size := InMemory(FullWaveforms);
      var offs := Prefix(FullWaveforms, ver);
      FirstReads(ReaderView(), FullWaveforms, ver, p[..size], offs);
      total := ReadBytes(offs, p, 0, size);
      if ver == 0 {
        ClearBehind(old(p[..size]), Reading.ReadBytes(old(ReaderView()), offs).1);
        Memset(p, READOUT_TIME, READOUT_TIME + 8, size);
      }
      if total != offs {
        return -1;
      }
      ghost var r, d := ReaderView(), p[..size];
      var at := WfOffset(FullWaveforms);
      ghost var o := ReadChannels(r, d, at, 224, offs);
      for i := 0 to 224
        invariant Valid() && at == 48 + i * WF_SIZE && total >= 0
        invariant p[size..] == old(p[size..])
        invariant ReadChannels(ReaderView(), p[..size], at, 224 - i, total) == o
      {
        if Waits(ReadWaveform(ReaderView(), p[..size], at).0) {
          ChannelsWait(ReaderView(), p[..size], at, 224 - i, total);
        }
        var nrd := ReadOneWaveform(p, at, size);
        if nrd < 0 {
          return -1;
        }
        total := total + nrd;
        at := at + WF_SIZE;
      }
    }

    /** pueo_read_packet_sensors_disk */
    method ReadPacketSensorsDisk(p: array<byte>, ver: int) returns (nrd: int)
      requires Valid() && backend != UdpWriter && p != buf && InMemory(SensorsDisk) <= p.Length
      requires Returns(ReadCounted(ReaderView(), SensorsDisk, ver, p[..InMemory(SensorsDisk)]))
      modifies this`position, this`nin, this`nout, this`inbox, this`alreadyReadHead, buf, p
      ensures Valid() && p[InMemory(SensorsDisk)..] == old(p[InMemory(SensorsDisk)..])
      ensures Done(ReaderView(), p[..InMemory(SensorsDisk)], nrd)
        == ReadCounted(old(ReaderView()), SensorsDisk, ver, old(p[..InMemory(SensorsDisk)]))
    {
      hide Reading.ReadBytes, Splice, Clear, ReadArray, ClearTail, U16At, ReaderView, Valid;
      FirstReads(ReaderView(), SensorsDisk, ver, p[..InMemory(SensorsDisk)], 4);
      nrd := ReadBytes(4, p, 0, InMemory(SensorsDisk));
      ghost var r, d := ReaderView(), p[..InMemory(SensorsDisk)];
      ArrayRead(r, SensorsDisk, ver, d, nrd);
      var num := Field16(p, 0, InMemory(SensorsDisk));
      var k := ReadBytes((if ver == 0 then 256 else num) * 12, p, 4, InMemory(SensorsDisk));
      nrd := nrd + k;
      num := Field16(p, 0, InMemory(SensorsDisk));
      TailOf(SensorsDisk, ver, p[..InMemory(SensorsDisk)], nrd);
      if ver != 0 && num < 256 {
        Memset(p, nrd, InMemory(SensorsDisk), InMemory(SensorsDisk));
      }
    }

    /** pueo_read_packet_sensors_telem */
    method ReadPacketSensorsTelem(p: array<byte>, ver: int) returns (nrd: int)
      requires Valid() && backend != UdpWriter && p != buf && InMemory(SensorsTelem) <= p.Length
      requires Returns(ReadCounted(ReaderView(), SensorsTelem, ver, p[..InMemory(SensorsTelem)]))
      modifies this`position, this`nin, this`nout, this`inbox, this`alreadyReadHead, buf, p
      ensures Valid() && p[InMemory(SensorsTelem)..] == old(p[InMemory(SensorsTelem)..])
      ensures Done(ReaderView(), p[..InMemory(SensorsTelem)], nrd)
        == ReadCounted(old(ReaderView()), SensorsTelem, ver, old(p[..InMemory(SensorsTelem)]))
    {
      hide Reading.ReadBytes, Splice, Clear, ReadArray, ClearTail, U16At, ReaderView, Valid;
      FirstReads(ReaderView(), SensorsTelem, ver, p[..InMemory(SensorsTelem)], 8);
      nrd := ReadBytes(8, p, 0, InMemory(SensorsTelem));
      ghost var r, d := ReaderView(), p[..InMemory(SensorsTelem)];
      ArrayRead(r, SensorsTelem, ver, d, nrd);
      var num := Field16(p, 6, InMemory(SensorsTelem));
      var k := ReadBytes((if ver == 0 then 256 else num) * 4, p, 8, InMemory(SensorsTelem));
      nrd := nrd + k;
      TailOf(SensorsTelem, ver, p[..InMemory(SensorsTelem)], nrd);
      Memset(p, nrd, InMemory(SensorsTelem), InMemory(SensorsTelem));
    }

    /** pueo_read_packet_cmd_echo */
    method ReadPacketCmdEcho(p: array<byte>, ver: int) returns (nrd: int)
      requires Valid() && backend != UdpWriter && p != buf && InMemory(CmdEcho) <= p.Length
      requires Returns(ReadCounted(ReaderView(), CmdEcho, ver, p[..InMemory(CmdEcho)]))
      modifies this`position, this`nin, this`nout, this`inbox, this`alreadyReadHead, buf, p
      ensures Valid() && p[InMemory(CmdEcho)..] == old(p[InMemory(CmdEcho)..])
      ensures Done(ReaderView(), p[..InMemory(CmdEcho)], nrd)
        == ReadCounted(old(ReaderView()), CmdEcho, ver, old(p[..InMemory(CmdEcho)]))
    {
      hide Reading.ReadBytes, Splice, Clear, ReadArray, ClearTail, U16At, ReaderView, Valid;
      FirstReads(ReaderView(), CmdEcho, ver, p[..InMemory(CmdEcho)], 8);
      nrd := ReadBytes(8, p, 0, InMemory(CmdEcho));
      ghost var r, d := ReaderView(), p[..InMemory(CmdEcho)];
      ArrayRead(r, CmdEcho, ver, d, nrd);
      var k := ReadBytes(p[4] as int + 1, p, 8, InMemory(CmdEcho));
      nrd := nrd + k;
      TailOf(CmdEcho, ver, p[..InMemory(CmdEcho)], nrd);
      Memset(p, 8 + p[4] as int + 1, 264, InMemory(CmdEcho));
    }

    /** pueo_read_packet_file_download */
    method ReadPacketFileDownload(p: array<byte>, ver: int) returns (nrd: int)
      requires Valid() && backend != UdpWriter && p != buf && InMemory(FileDownload) <= p.Length
      requires Returns(ReadCounted(ReaderView(), FileDownload, ver, p[..InMemory(FileDownload)]))
      modifies this`position, this`nin, this`nout, this`inbox, this`alreadyReadHead, buf, p
      ensures Valid() && p[InMemory(FileDownload)..] == old(p[InMemory(FileDownload)..])
      ensures Done(ReaderView(), p[..InMemory(FileDownload)], nrd)
        == ReadCounted(old(ReaderView()), FileDownload, ver, old(p[..InMemory(FileDownload)]))
    {
      hide Reading.ReadBytes, Splice, Clear, ReadArray, ClearTail, U16At, ReaderView, Valid;
      ghost var size := InMemory(FileDownload);
      FirstReads(ReaderView(), FileDownload, ver, p[..size], 40);
      nrd := ReadBytes(40, p, 0, size);
      ghost var r, d := ReaderView(), p[..size];
      ArrayRead(r, FileDownload, ver, d, nrd);
      var len := Field16(p, 38, size);
      var k := ReadBytes(len, p, 40, size);
      nrd := nrd + k;
      ghost var d1 := p[..size];
      len := Field16(p, 38, size);
      TailOf(FileDownload, ver, d1, nrd);
      Memset(p, 40 + len, 65040, size);
    }

    /** pueo_read_packet_logs */
    method ReadPacketLogs(p: array<byte>, ver: int) returns (nrd: int)
      requires Valid() && backend != UdpWriter && p != buf && InMemory(Logs) <= p.Length
      requires Returns(ReadCounted(ReaderView(), Logs, ver, p[..InMemory(Logs)]))
      modifies this`position, this`nin, this`nout, this`inbox, this`alreadyReadHead, buf, p
      ensures Valid() && p[InMemory(Logs)..] == old(p[InMemory(Logs)..])
      ensures Done(ReaderView(), p[..InMemory(Logs)], nrd) == ReadCounted(old(ReaderView()), Logs, ver, old(p[..InMemory(Logs)]))
    {
      hide Reading.ReadBytes, Splice, Clear, ReadArray, ClearTail, U16At, ReaderView, Valid;
      FirstReads(ReaderView(), Logs, ver, p[..InMemory(Logs)], 10);
      nrd := ReadBytes(10, p, 0, InMemory(Logs));
      ghost var r, d := ReaderView(), p[..InMemory(Logs)];
      ArrayRead(r, Logs, ver, d, nrd);
      var msg := Field16(p, 8, InMemory(Logs));
      var k := ReadBytes(msg + p[7] as int + p[6] as int, p, 10, InMemory(Logs));
      nrd := nrd + k;
      msg := Field16(p, 8, InMemory(Logs));
      TailOf(Logs, ver, p[..InMemory(Logs)], nrd);
      var len := msg + p[7] as int + p[6] as int;
      Memset(p, 10 + len, 2058, InMemory(Logs));
    }

    /** pueo_read_packet_nav_sat */
    method ReadPacketNavSat(p: array<byte>, ver: int) returns (nrd: int)
      requires Valid() && backend != UdpWriter && p != buf && InMemory(NavSat) <= p.Length
      requires Returns(ReadCounted(ReaderView(), NavSat, ver, p[..InMemory(NavSat)]))
      modifies this`position, this`nin, this`nout, this`inbox, this`alreadyReadHead, buf, p
      ensures Valid() && p[InMemory(NavSat)..] == old(p[InMemory(NavSat)..])
      ensures Done(ReaderView(), p[..InMemory(NavSat)], nrd)
        == ReadCounted(old(ReaderView()), NavSat, ver, old(p[..InMemory(NavSat)]))
    {
      hide Reading.ReadBytes, Splice, Clear, ReadArray, ClearTail, U16At, ReaderView, Valid;
      FirstReads(ReaderView(), NavSat, ver, p[..InMemory(NavSat)], 20);
      nrd := ReadBytes(20, p, 0, InMemory(NavSat));
      ghost var r, d := ReaderView(), p[..InMemory(NavSat)];
      ArrayRead(r, NavSat, ver, d, nrd);
      var k := ReadBytes((p[17] as int) * 10, p, 20, InMemory(NavSat));
      nrd := nrd + k;
      TailOf(NavSat, ver, p[..InMemory(NavSat)], nrd);
      Memset(p, nrd, InMemory(NavSat), InMemory(NavSat));
    }

    /** pueo_read_packet_X */
    method ReadPacket(t: PacketType, p: array<byte>, ver: int) returns (nrd: int)
      requires Valid() && backend != UdpWriter && p != buf && InMemory(t) <= p.Length
      requires Returns(Reading.ReadPacket(ReaderView(), t, ver, p[..InMemory(t)]))
      modifies this`position, this`nin, this`nout, this`inbox, this`alreadyReadHead, buf, p
      ensures Valid() && p[InMemory(t)..] == old(p[InMemory(t)..])
      ensures Done(ReaderView(), p[..InMemory(t)], nrd) == Reading.ReadPacket(old(ReaderView()), t, ver, old(p[..InMemory(t)]))
    {
      hide ReadSimple, ReadCounted, ReadWaveforms;
      if Simple(t) {
        nrd := ReadPacketSimple(t, p, ver);
      } else {
        match t
        case FullWaveforms => nrd := ReadPacketFullWaveforms(p, ver);
        case SingleWaveform => nrd := ReadPacketSingleWaveform(p, ver);
        case SensorsDisk => nrd := ReadPacketSensorsDisk(p, ver);
        case SensorsTelem => nrd := ReadPacketSensorsTelem(p, ver);
        case CmdEcho => nrd := ReadPacketCmdEcho(p, ver);
        case FileDownload => nrd := ReadPacketFileDownload(p, ver);
        case Logs => nrd := ReadPacketLogs(p, ver);
        case NavSat => nrd := ReadPacketNavSat(p, ver);
      }
    }

    //////////////////////////////////////////////////////////////////////////////
    // Packet writers
    //////////////////////////////////////////////////////////////////////////////

    /** write_waveform */
    method WriteOneWaveform(p: array<byte>, at: nat, ghost size: nat) returns (n: nat)
      requires Valid() && backend != UdpReader && p != buf && at + WF_SIZE <= size <= p.Length
      modifies this`written, this`nin, buf
      ensures Valid()
      ensures Bounded(old(WriterView()))
      ensures (WriterView(), n) == Writing.WriteBytes(old(WriterView()), p[..size][at..at + WfBytes(p[..size], at)])
    {
      hide WfBytes, Writing.WriteBytes;
      var length := SampleCount(p, at, size);
      assert p[at..at + (WF_DATA + 2 * length)] == p[..size][at..at + WfBytes(p[..size], at)];
      n := WriteBytes(p[at..at + (WF_DATA + 2 * length)]);
    }

    /** pueo_write_packet_single_waveform and pueo_write_packet_full_waveforms */
    method WritePacketWaveforms(t: PacketType, p: array<byte>) returns (nwr: nat)
      requires Valid() && backend != UdpReader && p != buf && Waveform(t) && InMemory(t) <= p.Length
      modifies this`written, this`nin, buf
      ensures Valid()
      ensures Sendable(t, Latest(t), p[..InMemory(t)]) && Bounded(old(WriterView()))
      ensures (WriterView(), nwr) == Writing.WritePacket(old(WriterView()), t, p[..InMemory(t)])
    {
      hide WfBytes, Writing.WriteBytes, Wire;
      ghost var m := p[..InMemory(t)];
      assert p[..WfOffset(t)] == m[..WfOffset(t)];
      nwr := WriteBytes(p[..WfOffset(t)]);
      var at := WfOffset(t);
      ghost var final := WriteChannels(WriterView(), m, at, Channels(t), nwr);
      for i := 0 to Channels(t)
        invariant Valid() && at == WfOffset(t) + i * WF_SIZE && p[..InMemory(t)] == m
        invariant Bounded(WriterView()) && WriteChannels(WriterView(), m, at, Channels(t) - i, nwr) == final
      {
        var k := WriteOneWaveform(p, at, InMemory(t));
        nwr := nwr + k;
        at := at + WF_SIZE;
      }
    }

    /** pueo_write_packet_X */
    method WritePacket(t: PacketType, p: array<byte>) returns (nwr: nat)
      requires Valid() && backend != UdpReader && p != buf && InMemory(t) <= p.Length
      requires Sendable(t, Latest(t), p[..InMemory(t)])
      modifies this`written, this`nin, buf
      ensures Valid()
      ensures Sendable(t, Latest(t), p[..InMemory(t)]) && Bounded(old(WriterView()))
      ensures (WriterView(), nwr) == Writing.WritePacket(old(WriterView()), t, p[..InMemory(t)])
    {
      hide Writing.WriteBytes, WriteChannels, Count;
      if Simple(t) {
        nwr := WriteBytes(p[..InMemory(t)]);
      } else if Waveform(t) {
        nwr := WritePacketWaveforms(t, p);
      } else {
        var len := CountedSize(t, p, Latest(t));
        assert p[..len] == p[..InMemory(t)][..len];
        nwr := WriteBytes(p[..len]);
      }
    }

    //////////////////////////////////////////////////////////////////////////////
    // Typed reads and writes
    //////////////////////////////////////////////////////////////////////////////

    /** maybe_read_header */
    method MaybeReadHeader() returns (ret: int)
      requires Valid() && backend != UdpWriter && Reading.MaybeReadHeader(ReaderView()).HeaderDone?
      modifies this`position, this`nin, this`nout, this`inbox, this`alreadyReadHead, this`lastReadHeader,
        this`bytesRead, buf
      ensures Valid() && HeaderDone(ReaderView(), ret) == Reading.MaybeReadHeader(old(ReaderView()))
    {
      hide Reading.ReadBytes, Encode, Decode, Wrap64;
      if alreadyReadHead {
        return 0;
      }
      var image := Encode(lastReadHeader);
      var head := new byte[HEAD_SIZE](i requires 0 <= i < HEAD_SIZE => image[i]);
      assert head[..HEAD_SIZE] == Encode(lastReadHeader);
      var nread := ReadBytes(HEAD_SIZE, head, 0, HEAD_SIZE);
      if nread == 0 {
        return EOF;
      }
      lastReadHeader := Decode(head[..]);
      assert head[..] == head[..HEAD_SIZE];
      assert lastReadHeader.f1 == F1;
      bytesRead := Wrap64(bytesRead + nread);
      alreadyReadHead := true;
      ret := nread;
    }

    /** pueo_read_X; the messages it prints are returned. */
    method Read(t: PacketType, p: array<byte>) returns (ret: int, badSum: bool, badLen: bool)
      requires Valid() && backend != UdpWriter && p != buf && InMemory(t) <= p.Length
      requires Reading.Read(ReaderView(), t, p[..InMemory(t)]).Returned?
      modifies this`position, this`nin, this`nout, this`inbox, this`alreadyReadHead, this`lastReadHeader,
        this`bytesRead, buf, p
      ensures Valid() && p[InMemory(t)..] == old(p[InMemory(t)..])
      ensures Returned(ReaderView(), p[..InMemory(t)], ret, badSum, badLen)
        == Reading.Read(old(ReaderView()), t, old(p[..InMemory(t)]))
    {
      hide Reading.MaybeReadHeader, Reading.ReadPacket, Packets.HeaderFor, Sendable, InMemory, Wrap64, TypeCode;
      badSum, badLen := false, false;
      var nread := MaybeReadHeader();
      if nread == EOF {
        return EOF, false, false;
      }
      if lastReadHeader.code == TypeCode(t) {
        ghost var d := p[..InMemory(t)];
        assert ReadBody(ReaderView(), t, d).Returned?;
        alreadyReadHead := false;
        assert p[..InMemory(t)] == d;
        var nrd := ReadPacket(t, p, lastReadHeader.version);
        bytesRead := Wrap64(bytesRead + nrd);
        var check := PacketHeaderFor(t, p, lastReadHeader.version);
        badSum := check.cksum != lastReadHeader.cksum;
        badLen := nrd != lastReadHeader.numBytes || lastReadHeader.numBytes != check.numBytes;
        return nrd, badSum, badLen;
      }
      return 0, false, false;
    }

    /** pueo_write_X behind the header, of which `ret` bytes have been written. */
    method FinishWrite(t: PacketType, p: array<byte>, ret: nat) returns (total: int)
      requires Valid() && backend != UdpReader && p != buf && InMemory(t) <= p.Length
      requires Sendable(t, Latest(t), p[..InMemory(t)])
      modifies this`written, this`nin, this`outbox, this`bytesWritten, this`packetWriteCounter, buf
      ensures Valid() && Sendable(t, Latest(t), p[..InMemory(t)]) && Bounded(old(WriterView()))
      ensures (WriterView(), total) == WriteRest(old(WriterView()), t, p[..InMemory(t)], ret)
    {
      hide Writing.WritePacket, Sendable, InMemory, Latest, Wrap64, Wrap32, Finish;
      ghost var m := p[..InMemory(t)];
      bytesWritten := Wrap64(bytesWritten + ret);
      assert p[..InMemory(t)] == m;
      var ret2 := WritePacket(t, p);
      DoneWritePacket();
      assert p[..InMemory(t)] == m;
      bytesWritten := Wrap64(bytesWritten + ret2);
      packetWriteCounter := Wrap32(packetWriteCounter + 1);
      total := ret + ret2;
    }

    /** pueo_write_X */
    method Write(t: PacketType, p: array<byte>) returns (ret: int)
      requires Valid() && backend != UdpReader && p != buf && InMemory(t) <= p.Length
      requires Sendable(t, Latest(t), p[..InMemory(t)])
      modifies this`written, this`nin, this`outbox, this`bytesWritten, this`packetWriteCounter, buf
      ensures Valid() && Sendable(t, Latest(t), p[..InMemory(t)]) && Bounded(old(WriterView()))
      ensures (WriterView(), ret) == Writing.Write(old(WriterView()), t, p[..InMemory(t)])
      ensures backend == FileBackend ==> Announces(old(written), written, t)
    {
      hide Writing.WriteBytes, Writing.WritePacket, Packets.HeaderFor, Sendable, InMemory, Latest, Wrap64, Wrap32,
        Encode, Finish, WriteRest;
      ghost var m := p[..InMemory(t)];
      var hd := PacketHeaderFor(t, p, Latest(t));
      WriteAnnounces(WriterView(), t, m);
      ret := WriteBytes(Encode(hd));
      if ret != HEAD_SIZE {
        return -1;
      }
      assert p[..InMemory(t)] == m;
      ret := FinishWrite(t, p, ret);
    }

    //////////////////////////////////////////////////////////////////////////////
    // Generic reads and writes
    //////////////////////////////////////////////////////////////////////////////

    /** pueo_ll_write: a type outside the dispatch table is refused. */
    method LlWrite(code: bv16, p: array<byte>) returns (ret: int)
      requires Valid() && backend != UdpReader && p != buf
      requires TypeOf(code).Some? ==>
        var t := TypeOf(code).value; InMemory(t) <= p.Length && Sendable(t, Latest(t), p[..InMemory(t)])
      modifies this`written, this`nin, this`outbox, this`bytesWritten, this`packetWriteCounter, buf
      ensures Valid() && Bounded(old(WriterView()))
      ensures TypeOf(code).None? ==> ret == -1 && WriterView() == old(WriterView())
      ensures TypeOf(code).Some? ==>
        var t := TypeOf(code).value;
        && InMemory(t) <= p.Length && Sendable(t, Latest(t), p[..InMemory(t)])
        && (WriterView(), ret) == Writing.Write(old(WriterView()), t, p[..InMemory(t)])
    {
      hide TypeOf, InMemory, Sendable, Writing.Write;
      match TypeOf(code)
      case None => ret := -1;
      case Some(t) => ret := Write(t, p);
    }

    /** pueo_ll_read from the capacity check on. */
    method FinishLlRead(dest: PacketBuffer) returns (nread: int, badSum: bool, badLen: bool)
      requires Valid() && backend != UdpWriter && dest.payload != buf
      requires LlReadBody(ReaderView(), dest.View()).LlReturned?
      modifies this`position, this`nin, this`nout, this`inbox, this`alreadyReadHead, this`lastReadHeader,
        this`bytesRead, buf, this`requiredReadSize, dest`head, dest.payload
      ensures Valid()
      ensures LlReturned(ReaderView(), dest.View(), nread, badSum, badLen) == LlReadBody(old(ReaderView()), old(dest.View()))
    {
      hide Reading.Read, TypeOf, InMemory;
      nread, badSum, badLen := 0, false, false;
      if dest.payload.Length < requiredReadSize {
        dest.head := NO_HEAD;
        return EMSGSIZE, false, false;
      }
      dest.head := lastReadHeader;
      match TypeOf(lastReadHeader.code) {
        case Some(t) =>
          assert dest.payload[..][..InMemory(t)] == dest.payload[..InMemory(t)];
          nread, badSum, badLen := Read(t, dest.payload);
          assert dest.payload[..] == dest.payload[..InMemory(t)] + dest.payload[InMemory(t)..];
        case None =>
      }
      requiredReadSize := 0;
      alreadyReadHead := false;
    }

    /** pueo_ll_read */
    method LlRead(dest: PacketBuffer) returns (nread: int, badSum: bool, badLen: bool)
      requires Valid() && backend != UdpWriter && dest.payload != buf
      requires Reading.LlRead(ReaderView(), dest.View()).LlReturned?
      modifies this`position, this`nin, this`nout, this`inbox, this`alreadyReadHead, this`lastReadHeader,
        this`bytesRead, buf, this`requiredReadSize, dest`head, dest.payload
      ensures Valid()
      ensures LlReturned(ReaderView(), dest.View(), nread, badSum, badLen)
        == Reading.LlRead(old(ReaderView()), old(dest.View()))
    {
      hide Reading.MaybeReadHeader, LlReadBody, TypeOf, InMemory;
      badSum, badLen := false, false;
      if requiredReadSize == 0 {
        var r := MaybeReadHeader();
        assert dest.View() == old(dest.View());
        if r == EOF {
          return EOF, false, false;
        } else if r < HEAD_SIZE {
          return EIO, false, false;
        }
        match TypeOf(lastReadHeader.code) {
          case Some(t) => requiredReadSize := InMemory(t);
          case None =>
        }
      }
      nread, badSum, badLen := FinishLlRead(dest);
    }

    /** pueo_ll_read_realloc: the packet read into, which is the given one if that is
        there and large enough; what malloc returned is reported for the specification. */
    method LlReadRealloc(dest: PacketBuffer?) returns (p: PacketBuffer, nread: int, badSum: bool, badLen: bool,
        ghost junk1: Junk, ghost junk2: Junk)
      requires Valid() && backend != UdpWriter && (dest != null ==> dest.payload != buf)
      requires AlwaysReturns(ReaderView(), ViewOf(dest))
      modifies this`position, this`nin, this`nout, this`inbox, this`alreadyReadHead, this`lastReadHeader,
        this`bytesRead, buf, this`requiredReadSize, dest, if dest == null then {} else {dest.payload}
      ensures Valid() && p.payload != buf
      ensures p == dest <==> dest != null && !NoRoomIn(Reading.LlRead(old(ReaderView()), old(dest.View())))
      ensures p != dest ==> fresh(p) && fresh(p.payload)
      ensures LlReturned(ReaderView(), p.View(), nread, badSum, badLen)
        == Reading.LlReadRealloc(old(ReaderView()), old(ViewOf(dest)), junk1, junk2)
    {
      hide Reading.LlRead;
      junk1, junk2 := Zeros(MAX_IN_MEMORY), Zeros(MAX_IN_MEMORY);
      if dest == null {
        p := new PacketBuffer(FIRST_CAPACITY);
        junk1 := p.payload[..] + Zeros(MAX_IN_MEMORY - FIRST_CAPACITY);
        assert junk1[..FIRST_CAPACITY] == p.payload[..];
      } else {
        p := dest;
      }
      ghost var r, o := old(ReaderView()), old(ViewOf(dest));
      assert ReaderView() == r;
      assert Reading.LlReadRealloc(r, o, junk1, junk2).LlReturned?;
      nread, badSum, badLen := LlRead(p);
      if nread == EMSGSIZE {
        p := new PacketBuffer(requiredReadSize);
        junk2 := p.payload[..] + Zeros(MAX_IN_MEMORY - requiredReadSize);
        assert junk2[..requiredReadSize] == p.payload[..];
        assert Reading.LlReadRealloc(r, o, junk1, junk2).LlReturned?;
        nread, badSum, badLen := LlRead(p);
      }
    }
  }
}
