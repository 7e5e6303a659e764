/** Payloads that run over several datagrams. A packet reader asks for the parts of a payload
    one by one, and can only have a part whole from within one datagram. Where it has every
    part whole, reading datagrams is reading the stream of their bytes. */
module Parts {
  import opened Crc
  import opened Versions
  import opened Packets
  import opened Reading
  import opened Grammar

  //////////////////////////////////////////////////////////////////////////////
  // One part
  //////////////////////////////////////////////////////////////////////////////

  /** All bytes still to come. */
  function Rest(s: Source): seq<byte> {
    match s
    case Stream(rest) => rest
    case Datagrams(cur, queue) => cur + Flatten(queue)
    case Starved => []
  }

  /** A part of n bytes can be had whole. */
  predicate Whole(s: Source, n: nat) {
    n <= |Ahead(Front(s))|
  }

  /** s behind a part of n bytes. */
  function Take(s: Source, n: nat): Source
    requires Whole(s, n)
  {
    Past(Front(s), n)
  }

  lemma FrontRest(s: Source)
    ensures Rest(Front(s)) == Rest(s)
  {
    if s.Datagrams? && s.cur == [] && s.queue != [] {
      assert [] + Flatten(s.queue) == s.queue[0] + Flatten(s.queue[1..]);
    }
  }

  lemma PastRest(s: Source, n: nat)
    requires n <= |Ahead(s)|
    ensures n <= |Rest(s)| && Ahead(s)[..n] == Rest(s)[..n] && Rest(Past(s, n)) == Rest(s)[n..]
  {
    if s.Datagrams? {
      assert s.cur[n..] + Flatten(s.queue) == (s.cur + Flatten(s.queue))[n..];
    }
  }

  lemma TakeRest(s: Source, n: nat)
    requires Whole(s, n)
    ensures n <= |Rest(s)| && Ahead(Front(s))[..n] == Rest(s)[..n] && Rest(Take(s, n)) == Rest(s)[n..]
  {
    FrontRest(s);
    PastRest(Front(s), n);
  }

  /** One read takes what it can get of a part. */
  lemma ReadsPart(r: Reader, n: nat)
    ensures var (r1, b) := ReadBytes(r, n); var k := Min(n, |Ahead(Front(r.src))|);
      && b == Ahead(Front(r.src))[..k] && r1.src == Past(Front(r.src), k)
      && r1.head == r.head && r1.required == r.required && r1.bytesRead == r.bytesRead
      && (|b| == n <==> Whole(r.src, n))
      && (Whole(r.src, n) ==> r1.src == Take(r.src, n))
  {}

  //////////////////////////////////////////////////////////////////////////////
  // What reads consume
  //////////////////////////////////////////////////////////////////////////////

  /** r' is r with k more bytes consumed. */
  ghost predicate Consumed(r: Reader, r': Reader, k: nat) {
    && k <= |Rest(r.src)| && Rest(r'.src) == Rest(r.src)[k..]
    && r'.head == r.head && r'.required == r.required && r'.bytesRead == r.bytesRead
  }

  lemma ConsumesBytes(r: Reader, n: nat)
    ensures var (r1, b) := ReadBytes(r, n); Consumed(r, r1, |b|)
  {
    hide ReadBytes, Rest, Past, Ahead;
    ReadsPart(r, n);
    FrontRest(r.src);
    PastRest(Front(r.src), Min(n, |Ahead(Front(r.src))|));
  }

  lemma ConsumedTwice(r: Reader, r1: Reader, r2: Reader, j: nat, k: nat)
    requires Consumed(r, r1, j) && Consumed(r1, r2, k)
    ensures Consumed(r, r2, j + k)
  {
    var s := Rest(r.src);
    assert s[j..][k..] == s[j + k..];
  }

  lemma WaveformConsumes(r: Reader, d: seq<byte>, at: nat) returns (k: nat)
    requires at + WF_SIZE <= |d|
    ensures var (r1, d1, ret) := ReadWaveform(r, d, at);
      Consumed(r, r1, k) && k <= WF_SIZE && (ret == k || ret == -1)
  {
    hide Splice, ReadBytes, Consumed;
    var (r1, b1) := ReadBytes(r, WF_DATA);
    ConsumesBytes(r, WF_DATA);
    k := |b1|;
    if |b1| == WF_DATA {
      var n := WfBytes(Splice(d, at, b1), at) - WF_DATA;
      var (r2, b2) := ReadBytes(r1, n);
      ConsumesBytes(r1, n);
      ConsumedTwice(r, r1, r2, |b1|, |b2|);
      k := |b1| + |b2|;
    }
  }

  lemma ConsumesNothing(r: Reader)
    ensures Consumed(r, r, 0)
  {
    assert Rest(r.src)[0..] == Rest(r.src);
  }

  lemma {:induction false} ChannelsTake(r: Reader, d: seq<byte>, at: nat, n: nat, total: nat) returns (k: nat)
    requires at + n * WF_SIZE <= |d|
    ensures var o := ReadChannels(r, d, at, n, total);
      Consumed(r, o.r, k) && k <= n * WF_SIZE && (o.ret == total + k || o.ret == -1)
    decreases n
  {
    hide Consumed, ReadWaveform;
    if n == 0 {
      k := 0;
      ConsumesNothing(r);
    } else {
      var (r1, d1, ret) := ReadWaveform(r, d, at);
      k := WaveformConsumes(r, d, at);
      if ret >= 0 {
        assert ReadChannels(r, d, at, n, total) == ReadChannels(r1, d1, at + WF_SIZE, n - 1, total + k);
        hide ReadChannels;
        var j := ChannelsTake(r1, d1, at + WF_SIZE, n - 1, total + k);
        ConsumedTwice(r, r1, ReadChannels(r1, d1, at + WF_SIZE, n - 1, total + k).r, k, j);
        k := k + j;
      }
    }
  }

  lemma CountedConsumes(r: Reader, t: PacketType, ver: int, d: seq<byte>) returns (k: nat)
    requires Counted(t) && |d| == InMemory(t)
    ensures var o := ReadCounted(r, t, ver, d);
      o.Done? ==> Consumed(r, o.r, k) && k <= InMemory(t) && o.ret == k
  {
    hide Splice, ReadBytes, Consumed, ClearTail, Count;
    var (r1, b1) := ReadBytes(r, Base(t));
    ConsumesBytes(r, Base(t));
    var d1 := Splice(d, 0, b1);
    k := |b1|;
    if !Waits(r1) && CountFits(t, ver, d1) {
      var (r2, b2) := ReadBytes(r1, Count(t, ver, d1));
      ConsumesBytes(r1, Count(t, ver, d1));
      ConsumedTwice(r, r1, r2, |b1|, |b2|);
      k := |b1| + |b2|;
    }
  }

  lemma WaveformsConsume(r: Reader, t: PacketType, ver: int, d: seq<byte>) returns (k: nat)
    requires Waveform(t) && |d| == InMemory(t)
    ensures var o := ReadWaveforms(r, t, ver, d);
      Consumed(r, o.r, k) && k <= InMemory(t) && (o.ret == k || o.ret == -1)
  {
    hide Splice, ReadBytes, Consumed, ReadChannels;
    var d0 := if ver == 0 then Clear(d, READOUT_TIME, READOUT_TIME + 8) else d;
    var (r1, b) := ReadBytes(r, Prefix(t, ver));
    ConsumesBytes(r, Prefix(t, ver));
    k := |b|;
    if |b| == Prefix(t, ver) {
      var d1 := Splice(d0, 0, b);
      var j := ChannelsTake(r1, d1, WfOffset(t), Channels(t), |b|);
      ConsumedTwice(r, r1, ReadChannels(r1, d1, WfOffset(t), Channels(t), |b|).r, |b|, j);
      k := k + j;
    }
  }

  lemma SimpleConsumes(r: Reader, t: PacketType, ver: int, d: seq<byte>) returns (k: nat)
    requires Simple(t) && |d| == InMemory(t)
    ensures var o := ReadSimple(r, t, ver, d);
      o.Done? ==> Consumed(r, o.r, k) && k <= InMemory(t) && (o.ret == k || o.ret == -1)
  {
    var size := PacketSize(t, ver);
    if size < 0 {
      k := 0;
      ConsumesNothing(r);
    } else {
      SizesGrow(t, ver, ver);
      hide ReadBytes, Consumed;
      ConsumesBytes(r, size);
      k := |ReadBytes(r, size).1|;
    }
  }

  /** A packet reader returns the number of bytes it has consumed, or -1. */
  lemma PacketConsumes(r: Reader, t: PacketType, ver: int, d: seq<byte>) returns (k: nat)
    requires |d| == InMemory(t)
    ensures var o := ReadPacket(r, t, ver, d);
      o.Done? ==> Consumed(r, o.r, k) && k <= InMemory(t) && (o.ret == k || o.ret == -1)
  {
    if Waveform(t) {
      hide ReadWaveforms, Consumed;
      k := WaveformsConsume(r, t, ver, d);
    } else if Counted(t) {
      hide ReadCounted, Consumed;
      k := CountedConsumes(r, t, ver, d);
    } else {
      k := SimpleConsumes(r, t, ver, d);
    }
  }

  //////////////////////////////////////////////////////////////////////////////
  // All parts
  //////////////////////////////////////////////////////////////////////////////

  predicate WholeWaveform(s: Source) {
    && Whole(s, WF_DATA)
    && Whole(Take(s, WF_DATA), WfBytes(Ahead(Front(s)), 0) - WF_DATA)
  }

  function TakeWaveform(s: Source): Source
    requires WholeWaveform(s)
  {
    Take(Take(s, WF_DATA), WfBytes(Ahead(Front(s)), 0) - WF_DATA)
  }

  /** Header and samples of each of n waveforms can be had whole. */
  predicate WholeChannels(s: Source, n: nat)
    decreases n
  {
    n > 0 ==> WholeWaveform(s) && WholeChannels(TakeWaveform(s), n - 1)
  }

  /** Every part of the payload of a t, version `ver`, can be had whole. */
  predicate WholePayload(s: Source, t: PacketType, ver: int) {
    if Simple(t) then
      PacketSize(t, ver) >= 0 && Whole(s, PacketSize(t, ver))
    else if Waveform(t) then
      Whole(s, Prefix(t, ver)) && WholeChannels(Take(s, Prefix(t, ver)), Channels(t))
    else
      && Whole(s, Base(t)) && CountFits(t, ver, Ahead(Front(s)))
      && Whole(Take(s, Base(t)), Count(t, ver, Ahead(Front(s))))
  }

  //////////////////////////////////////////////////////////////////////////////
  // Whole parts are read as from a stream
  //////////////////////////////////////////////////////////////////////////////

  /** r' reads the same bytes as r, from a stream. */
  ghost predicate Streams(r: Reader, r': Reader) {
    r'.src == Stream(Rest(r.src))
  }

  lemma PartStreams(r: Reader, r': Reader, n: nat)
    requires Streams(r, r') && Whole(r.src, n)
    ensures var (r1, b) := ReadBytes(r, n); var (r1', b') := ReadBytes(r', n);
      b == b' == Rest(r.src)[..n] && |b| == n && Streams(r1, r1') && r1.src == Take(r.src, n)
  {
    ReadsPart(r, n);
    ReadsPart(r', n);
    TakeRest(r.src, n);
  }

  lemma WaveformStreams(r: Reader, r': Reader, d: seq<byte>, at: nat)
    requires Streams(r, r') && WholeWaveform(r.src) && at + WF_SIZE <= |d|
    ensures var (r1, d1, k) := ReadWaveform(r, d, at); var (r1', d1', k') := ReadWaveform(r', d, at);
      && d1 == d1' && k == k' && Streams(r1, r1') && r1.src == TakeWaveform(r.src)
      && WF_DATA <= k <= |Rest(r.src)| && k == WfBytes(Rest(r.src), 0) && Rest(r1.src) == Rest(r.src)[k..]
  {
    hide ReadBytes, Splice, Take, Rest, Ahead, Front;
    var s := Rest(r.src);
    var (r1, b) := ReadBytes(r, WF_DATA);
    var (r1', b') := ReadBytes(r', WF_DATA);
    PartStreams(r, r', WF_DATA);
    TakeRest(r.src, WF_DATA);
    var d1 := Splice(d, at, b);
    assert d1[at..at + WF_DATA] == s[0..WF_DATA] by {
      assert b == s[..WF_DATA];
    }
    assert Ahead(Front(r.src))[0..WF_DATA] == s[0..WF_DATA];
    WfBytesLocal(d1, at, s, 0);
    WfBytesLocal(Ahead(Front(r.src)), 0, s, 0);
    hide WfBytes;
    var n := WfBytes(s, 0) - WF_DATA;
    PartStreams(r1, r1', n);
    TakeRest(r1.src, n);
    assert s[WF_DATA..][n..] == s[WF_DATA + n..];
  }

  lemma {:induction false} ChannelsStream(r: Reader, r': Reader, d: seq<byte>, at: nat, n: nat, total: nat)
    requires Streams(r, r') && WholeChannels(r.src, n) && at + n * WF_SIZE <= |d|
    ensures var o := ReadChannels(r, d, at, n, total); var o' := ReadChannels(r', d, at, n, total);
      o.mem == o'.mem && o.ret == o'.ret && Streams(o.r, o'.r) && ChannelsLen(Rest(r.src), n).Some?
    decreases n
  {
    hide ReadWaveform, WholeWaveform, TakeWaveform, Streams, WfBytes;
    if n > 0 {
      var (r1, d1, k) := ReadWaveform(r, d, at);
      var (r1', _, _) := ReadWaveform(r', d, at);
      WaveformStreams(r, r', d, at);
      ChannelsStream(r1, r1', d1, at + WF_SIZE, n - 1, total + k);
    }
  }

  lemma WaveformsStream(r: Reader, r': Reader, t: PacketType, ver: int, d: seq<byte>)
    requires Waveform(t) && Streams(r, r') && WholePayload(r.src, t, ver) && |d| == InMemory(t)
    ensures var o := ReadWaveforms(r, t, ver, d); var o' := ReadWaveforms(r', t, ver, d);
      o.mem == o'.mem && o.ret == o'.ret && Streams(o.r, o'.r) && PayloadLen(t, ver, Rest(r.src)).Some?
  {
    hide ReadBytes, Splice, Whole, Take, Rest, WholeChannels, ReadChannels, Streams, Clear, ChannelsLen;
    var p := Prefix(t, ver);
    PartStreams(r, r', p);
    TakeRest(r.src, p);
    var d0 := if ver == 0 then Clear(d, READOUT_TIME, READOUT_TIME + 8) else d;
    var d1 := Splice(d0, 0, Rest(r.src)[..p]);
    ChannelsStream(ReadBytes(r, p).0, ReadBytes(r', p).0, d1, WfOffset(t), Channels(t), p);
  }

  lemma SimpleStreams(r: Reader, r': Reader, t: PacketType, ver: int, d: seq<byte>)
    requires Simple(t) && Streams(r, r') && WholePayload(r.src, t, ver) && |d| == InMemory(t)
    ensures var o := ReadSimple(r, t, ver, d); var o' := ReadSimple(r', t, ver, d);
      o.Done? && o'.Done? && o.mem == o'.mem && o.ret == o'.ret && Streams(o.r, o'.r) && PayloadLen(t, ver, Rest(r.src)).Some?
  {
    hide ReadBytes, Splice, Clear, Whole, Take, Rest, Streams;
    var n := PacketSize(t, ver);
    SizesGrow(t, ver, ver);
    PartStreams(r, r', n);
    TakeRest(r.src, n);
  }

  lemma CountLocalSplice(t: PacketType, ver: int, d: seq<byte>, b: seq<byte>)
    requires Counted(t) && |d| == InMemory(t) && Base(t) + |b| <= |d|
    ensures Count(t, ver, Splice(d, Base(t), b)) == Count(t, ver, d)
  {
    var d1 := Splice(d, Base(t), b);
    assert d1[..Base(t)] == d[..Base(t)];
    CountLocal(t, ver, d, d1);
  }

  lemma ArrayStreams(r: Reader, r': Reader, t: PacketType, ver: int, d: seq<byte>)
    requires Counted(t) && Streams(r, r') && |d| == InMemory(t) && !Waits(r) && !Waits(r')
    requires CountFits(t, ver, d) && Whole(r.src, Count(t, ver, d))
    ensures var o := ReadArray(r, t, ver, d, Base(t)); var o' := ReadArray(r', t, ver, d, Base(t));
      o.Done? && o'.Done? && o.mem == o'.mem && o.ret == o'.ret && Streams(o.r, o'.r)
  {
    hide ReadBytes, Splice, Whole, Take, Rest, ClearTail, Count, Streams;
    PartStreams(r, r', Count(t, ver, d));
    TakeRest(r.src, Count(t, ver, d));
    var d1 := Splice(d, Base(t), Rest(r.src)[..Count(t, ver, d)]);
    CountLocalSplice(t, ver, d, Rest(r.src)[..Count(t, ver, d)]);
  }

  lemma TakenIsThere(s: Source, n: nat)
    requires n > 0 && Whole(s, n)
    ensures !Take(s, n).Starved?
  {}

  lemma CountedStreams(r: Reader, r': Reader, t: PacketType, ver: int, d: seq<byte>)
    requires Counted(t) && Streams(r, r') && WholePayload(r.src, t, ver) && |d| == InMemory(t)
    ensures var o := ReadCounted(r, t, ver, d); var o' := ReadCounted(r', t, ver, d);
      o.Done? && o'.Done? && o.mem == o'.mem && o.ret == o'.ret && Streams(o.r, o'.r) && PayloadLen(t, ver, Rest(r.src)).Some?
  {
    hide ReadBytes, Splice, Take, Rest, Ahead, Front, Count, ReadArray, ArrayEnd;
    var b, s, a := Base(t), Rest(r.src), Ahead(Front(r.src));
    PartStreams(r, r', b);
    TakeRest(r.src, b);
    TakenIsThere(r.src, b);
    var r1, r1' := ReadBytes(r, b).0, ReadBytes(r', b).0;
    var d1 := Splice(d, 0, s[..b]);
    assert d1[..b] == s[..b] == a[..b];
    CountLocal(t, ver, d1, s);
    CountLocal(t, ver, a, s);
    ArrayStreams(r1, r1', t, ver, d1);
    TakeRest(r1.src, Count(t, ver, s));
  }

  /** Where every part can be had whole, a packet reader takes datagrams for the stream of
      their bytes: it leaves the same memory, returns the same, and has the same bytes left. */
  lemma PayloadStreams(r: Reader, r': Reader, t: PacketType, ver: int, d: seq<byte>)
    requires Streams(r, r') && WholePayload(r.src, t, ver) && |d| == InMemory(t)
    ensures var o := ReadPacket(r, t, ver, d); var o' := ReadPacket(r', t, ver, d);
      && o.Done? && o'.Done? && o.mem == o'.mem && o.ret == o'.ret && Streams(o.r, o'.r)
      && PayloadLen(t, ver, Rest(r.src)).Some?
  {
    hide ReadSimple, ReadWaveforms, ReadCounted, WholePayload, PayloadLen, Streams;
    if Simple(t) {
      SimpleStreams(r, r', t, ver, d);
    } else if Waveform(t) {
      WaveformsStream(r, r', t, ver, d);
    } else {
      CountedStreams(r, r', t, ver, d);
    }
  }

  /** The agreement of readers, header builders and grammar, over any datagrams. */
  lemma ReadsWhole(r: Reader, t: PacketType, ver: int, d: seq<byte>)
    requires WholePayload(r.src, t, ver) && |d| == InMemory(t)
    ensures PayloadLen(t, ver, Rest(r.src)).Some?
    ensures var n := PayloadLen(t, ver, Rest(r.src)).value; var o := ReadPacket(r, t, ver, d);
      o.Done? && o.ret == n && Consumed(r, o.r, n) && Filled(t, ver, Rest(r.src), n, d, o.mem)
  {
    hide ReadPacket, WholePayload, PayloadLen, Filled, EndsEmpty;
    var r' := r.(src := Stream(Rest(r.src)));
    PayloadStreams(r, r', t, ver, d);
    var k := PacketConsumes(r, t, ver, d);
    assert Available(r') == Rest(r.src);
    ReadsPayload(r', t, ver, d, PayloadLen(t, ver, Rest(r.src)).value);
  }

  //////////////////////////////////////////////////////////////////////////////
  // What is whole
  //////////////////////////////////////////////////////////////////////////////

  lemma AheadWhole(s: Source, n: nat)
    requires n <= |Ahead(s)|
    ensures Whole(s, n)
    ensures Ahead(s) != [] ==> Front(s) == s && Take(s, n) == Past(s, n)
  {}

  lemma PastTwice(s: Source, m: nat, n: nat)
    requires m + n <= |Ahead(s)|
    ensures Past(Past(s, m), n) == Past(s, m + n)
  {
    assert Ahead(s)[m..][n..] == Ahead(s)[m + n..];
  }

  lemma WaveformAhead(s: Source)
    requires WF_DATA <= |Ahead(s)| && WfBytes(Ahead(s), 0) <= |Ahead(s)|
    ensures WholeWaveform(s) && Front(s) == s
    ensures var k := WfBytes(Ahead(s), 0);
      k < |Ahead(s)| ==> TakeWaveform(s) == Past(s, k) && Ahead(TakeWaveform(s)) == Ahead(s)[k..]
  {
    hide WfBytes, Ahead, Past, Front, Whole, Take;
    var k := WfBytes(Ahead(s), 0);
    AheadWhole(s, WF_DATA);
    var s1 := Past(s, WF_DATA);
    AheadWhole(s1, k - WF_DATA);
    PastTwice(s, WF_DATA, k - WF_DATA);
  }

  lemma {:induction false} ChannelsAhead(s: Source, n: nat)
    requires ChannelsLen(Ahead(s), n).Some?
    ensures WholeChannels(s, n)
    decreases n
  {
    if n > 0 {
      hide WfBytes, WholeWaveform, TakeWaveform;
      WaveformAhead(s);
      if n > 1 {
        assert ChannelsLen(Ahead(s)[WfBytes(Ahead(s), 0)..], n - 1).Some?;
        ChannelsAhead(TakeWaveform(s), n - 1);
      }
    }
  }

  lemma WaveformsAhead(s: Source, t: PacketType, ver: int)
    requires Waveform(t) && PayloadLen(t, ver, Ahead(s)).Some?
    ensures WholePayload(s, t, ver)
  {
    hide ChannelsLen, WholeChannels;
    var p := Prefix(t, ver);
    AheadWhole(s, p);
    assert Ahead(Past(s, p)) == Ahead(s)[p..];
    ChannelsAhead(Past(s, p), Channels(t));
  }

  lemma CountedAhead(s: Source, t: PacketType, ver: int)
    requires Counted(t) && PayloadLen(t, ver, Ahead(s)).Some?
    ensures WholePayload(s, t, ver)
  {
    hide Count;
    AheadWhole(s, Base(t));
    assert Ahead(Past(s, Base(t))) == Ahead(s)[Base(t)..];
    AheadWhole(Past(s, Base(t)), Count(t, ver, Ahead(s)));
  }

  lemma SimpleAhead(s: Source, t: PacketType, ver: int)
    requires Simple(t) && PayloadLen(t, ver, Ahead(s)).Some?
    ensures WholePayload(s, t, ver)
  {
    AheadWhole(s, PacketSize(t, ver));
  }

  /** A payload that lies in one piece, as in the datagrams of a writer, can be had whole. */
  lemma AheadIsWhole(s: Source, t: PacketType, ver: int)
    requires PayloadLen(t, ver, Ahead(s)).Some?
    ensures WholePayload(s, t, ver)
  {
    hide PayloadLen, WholePayload;
    if Waveform(t) {
      WaveformsAhead(s, t, ver);
    } else if Counted(t) {
      CountedAhead(s, t, ver);
    } else {
      SimpleAhead(s, t, ver);
    }
  }

  /** In a stream that is the only way. */
  lemma StreamIsWhole(rest: seq<byte>, t: PacketType, ver: int)
    ensures WholePayload(Stream(rest), t, ver) <==> PayloadLen(t, ver, rest).Some?
  {
    hide PayloadLen, WholePayload;
    if PayloadLen(t, ver, rest).Some? {
      AheadIsWhole(Stream(rest), t, ver);
    }
    if WholePayload(Stream(rest), t, ver) {
      var r := Reader(NO_HEAD, 0, false, 0, Stream(rest));
      PayloadStreams(r, r, t, ver, Zeros(InMemory(t)));
    }
  }

  //////////////////////////////////////////////////////////////////////////////
  // What is not whole
  //////////////////////////////////////////////////////////////////////////////

  lemma WaveformGivesUp(r: Reader, d: seq<byte>, at: nat)
    requires at + WF_SIZE <= |d| && !WholeWaveform(r.src)
    ensures ReadWaveform(r, d, at).2 == -1
  {
    hide Past, Front, Ahead, Take, Rest;
    ReadsPart(r, WF_DATA);
    if Whole(r.src, WF_DATA) {
      var a := Ahead(Front(r.src));
      var (r1, b) := ReadBytes(r, WF_DATA);
      var d1 := Splice(d, at, b);
      assert d1[at..at + WF_DATA] == b == a[0..WF_DATA];
      WfBytesLocal(d1, at, a, 0);
      ReadsPart(r1, WfBytes(a, 0) - WF_DATA);
    }
  }

  lemma ChannelsUnfold(r: Reader, d: seq<byte>, at: nat, n: nat, total: int)
    requires n > 0 && at + n * WF_SIZE <= |d|
    ensures var (r1, d1, k) := ReadWaveform(r, d, at);
      ReadChannels(r, d, at, n, total) ==
        if k < 0 then Done(r1, d1, -1) else ReadChannels(r1, d1, at + WF_SIZE, n - 1, total + k)
  {
    hide ReadWaveform;
  }

  /** The channel loop gives up on a waveform that cannot be had whole. */
  lemma {:induction false} CutChannelsFail(r: Reader, d: seq<byte>, at: nat, n: nat, total: int)
    requires at + n * WF_SIZE <= |d| && !WholeChannels(r.src, n)
    ensures ReadChannels(r, d, at, n, total).ret == -1
    decreases n
  {
    hide ReadChannels, ReadWaveform, WholeWaveform, TakeWaveform;
    ChannelsUnfold(r, d, at, n, total);
    if WholeWaveform(r.src) {
      var (r1, d1, k) := ReadWaveform(r, d, at);
      WaveformStreams(r, r.(src := Stream(Rest(r.src))), d, at);
      CutChannelsFail(r1, d1, at + WF_SIZE, n - 1, total + k);
    } else {
      WaveformGivesUp(r, d, at);
    }
  }

  lemma CutWaveformsFail(r: Reader, t: PacketType, ver: int, d: seq<byte>)
    requires Waveform(t) && |d| == InMemory(t) && !WholePayload(r.src, t, ver)
    ensures ReadWaveforms(r, t, ver, d).ret == -1
  {
    hide Splice, Clear, WholeChannels, ReadChannels, ReadBytes, Take, Past, Front, Ahead;
    var p := Prefix(t, ver);
    ReadsPart(r, p);
    if Whole(r.src, p) {
      var d0 := if ver == 0 then Clear(d, READOUT_TIME, READOUT_TIME + 8) else d;
      var (r1, b) := ReadBytes(r, p);
      CutChannelsFail(r1, Splice(d0, 0, b), WfOffset(t), Channels(t), p);
    }
  }

  /** The readers of the waveform types give up iff a part of the payload cannot be had whole. */
  lemma WaveformsGiveUp(r: Reader, t: PacketType, ver: int, d: seq<byte>)
    requires Waveform(t) && |d| == InMemory(t)
    ensures ReadPacket(r, t, ver, d).Done?
    ensures ReadPacket(r, t, ver, d).ret == -1 <==> !WholePayload(r.src, t, ver)
  {
    if WholePayload(r.src, t, ver) {
      hide ReadPacket, WholePayload, PayloadLen, Filled;
      ReadsWhole(r, t, ver, d);
    } else {
      CutWaveformsFail(r, t, ver, d);
    }
  }

  /** Zeroing the rest leaves the fixed part alone, once that has been read. */
  lemma TailKeepsFront(t: PacketType, ver: int, d: seq<byte>, nrd: nat)
    requires Counted(t) && |d| == InMemory(t) && Base(t) <= nrd <= |d| && CountFits(t, ver, d)
    ensures Count(t, ver, ClearTail(t, ver, d, nrd)) == Count(t, ver, d)
  {
    var m := ClearTail(t, ver, d, nrd);
    assert m[..Base(t)] == d[..Base(t)] by {
      hide Count;
    }
    CountLocal(t, ver, m, d);
  }

  lemma CutArrayShows(r: Reader, t: PacketType, ver: int, d: seq<byte>, nrd: nat)
    requires Counted(t) && |d| == InMemory(t) && nrd <= Base(t)
    requires nrd < Base(t) || !CountFits(t, ver, d) || !Whole(r.src, Count(t, ver, d))
    ensures var o := ReadArray(r, t, ver, d, nrd);
      o.Done? && CountFits(t, ver, o.mem) ==> o.ret < Base(t) + Count(t, ver, o.mem)
  {
    hide Count, ClearTail, Splice, Base, ArrayEnd, InMemory, ReadBytes, Take, Past, Front, Ahead, Rest;
    if !Waits(r) && CountFits(t, ver, d) {
      var (r1, b) := ReadBytes(r, Count(t, ver, d));
      ReadsPart(r, Count(t, ver, d));
      CountLocalSplice(t, ver, d, b);
      var d1 := Splice(d, Base(t), b);
      if Base(t) <= nrd + |b| {
        TailKeepsFront(t, ver, d1, nrd + |b|);
      }
    }
  }

  /** A counted reader that cannot have its parts whole either writes outside its array or
      returns less than the header builder makes of what it has left in memory. */
  lemma CutCountedShows(r: Reader, t: PacketType, ver: int, d: seq<byte>)
    requires Counted(t) && |d| == InMemory(t) && !WholePayload(r.src, t, ver)
    ensures var o := ReadCounted(r, t, ver, d);
      o.Done? && CountFits(t, ver, o.mem) ==> o.ret < Base(t) + Count(t, ver, o.mem)
  {
    hide Count, ClearTail, Splice, Base, ArrayEnd, InMemory, ReadArray, ReadBytes, Take, Past, Front, Ahead, Rest;
    var b := Base(t);
    var (r1, b1) := ReadBytes(r, b);
    var d1 := Splice(d, 0, b1);
    ReadsPart(r, b);
    if Whole(r.src, b) {
      var a := Ahead(Front(r.src));
      assert d1[..b] == b1 == a[..b];
      CountLocal(t, ver, d1, a);
    }
    CutArrayShows(r1, t, ver, d1, |b1|);
  }

  /** A plain reader that cannot have its bytes in one piece returns fewer. */
  lemma CutSimpleShows(r: Reader, t: PacketType, ver: int, d: seq<byte>)
    requires Simple(t) && |d| == InMemory(t) && !WholePayload(r.src, t, ver)
    ensures 0 <= ver <= Latest(t) ==> ReadSimple(r, t, ver, d).Done? && ReadSimple(r, t, ver, d).ret < PacketSize(t, ver)
  {
    if 0 <= ver <= Latest(t) {
      hide ReadBytes, Splice, Clear, Past, Front, Ahead;
      SizesGrow(t, ver, Latest(t));
      ReadsPart(r, PacketSize(t, ver));
    }
  }
}
