/** What a reader makes of an event too large for a datagram, of which the writer has sent
    the first 65507 bytes. */
module Cuts {
  import opened Crc
  import opened Versions
  import opened Packets
  import opened Reading
  import opened Grammar
  import opened Writing
  import opened Streams

  /** s ends inside the header or inside the samples of one of n waveforms: it holds some of
      that part, and not all. */
  predicate EndsInside(s: seq<byte>, n: nat)
    decreases n
  {
    && n > 0 && s != []
    && if |s| < WF_DATA then true
       else if |s| < WfBytes(s, 0) then |s| > WF_DATA
       else EndsInside(s[WfBytes(s, 0)..], n - 1)
  }

  //////////////////////////////////////////////////////////////////////////////
  // Datagrams are only used up
  //////////////////////////////////////////////////////////////////////////////

  /** At most n datagrams are still to be received, or one was missing. */
  predicate AtMost(s: Source, n: int) {
    s.Starved? || (s.Datagrams? && |s.queue| <= n)
  }

  lemma BytesUseUp(r: Reader, k: nat, n: int)
    requires AtMost(r.src, n)
    ensures AtMost(ReadBytes(r, k).0.src, n)
    ensures UsedUp(r.src) ==> AtMost(ReadBytes(r, k).0.src, n - 1)
  {}

  lemma WaveformUsesUp(r: Reader, d: seq<byte>, at: nat, n: int)
    requires at + WF_SIZE <= |d| && AtMost(r.src, n)
    ensures AtMost(ReadWaveform(r, d, at).0.src, n)
    ensures UsedUp(r.src) ==> AtMost(ReadWaveform(r, d, at).0.src, n - 1)
  {
    hide ReadBytes, Splice, AtMost, UsedUp;
    var (r1, b1) := ReadBytes(r, WF_DATA);
    BytesUseUp(r, WF_DATA, n);
    if |b1| == WF_DATA {
      var k := WfBytes(Splice(d, at, b1), at) - WF_DATA;
      BytesUseUp(r1, k, n);
      if UsedUp(r.src) {
        BytesUseUp(r1, k, n - 1);
      }
    }
  }

  lemma {:induction false} ChannelsUseUp(r: Reader, d: seq<byte>, at: nat, c: nat, total: int, n: int)
    requires at + c * WF_SIZE <= |d| && AtMost(r.src, n)
    ensures AtMost(ReadChannels(r, d, at, c, total).r.src, n)
    ensures c > 0 && UsedUp(r.src) ==> AtMost(ReadChannels(r, d, at, c, total).r.src, n - 1)
    decreases c
  {
    hide ReadWaveform, AtMost, UsedUp;
    if c > 0 {
      var (r1, d1, k) := ReadWaveform(r, d, at);
      WaveformUsesUp(r, d, at, n);
      if k >= 0 {
        ChannelsUseUp(r1, d1, at + WF_SIZE, c - 1, total + k, n);
        if UsedUp(r.src) {
          ChannelsUseUp(r1, d1, at + WF_SIZE, c - 1, total + k, n - 1);
        }
      }
    }
  }

  //////////////////////////////////////////////////////////////////////////////
  // Where the cut falls
  //////////////////////////////////////////////////////////////////////////////

  /** A waveform of which the datagram holds only a part of its header. */
  lemma HeaderCutShort(r: Reader, d: seq<byte>, at: nat)
    requires at + WF_SIZE <= |d| && r.src.Datagrams? && 0 < |r.src.cur| < WF_DATA
    ensures var (r1, _, k) := ReadWaveform(r, d, at);
      k == -1 && r1 == r.(src := Datagrams([], r.src.queue))
  {}

  /** One of which it holds the header and not all of the samples: some, or none. */
  lemma SamplesCutShort(r: Reader, d: seq<byte>, at: nat)
    requires at + WF_SIZE <= |d| && r.src.Datagrams?
    requires WF_DATA <= |r.src.cur| < WfBytes(r.src.cur, 0)
    ensures var (r1, _, k) := ReadWaveform(r, d, at);
      if |r.src.cur| > WF_DATA then k == -1 && r1 == r.(src := Datagrams([], r.src.queue))
      else AtMost(r1.src, |r.src.queue| - 1)
  {
    hide Splice;
    var s := r.src.cur;
    ReadsAvailable(r, WF_DATA);
    var d1 := Splice(d, at, s[..WF_DATA]);
    SpliceAt(d, at, s[..WF_DATA]);
    assert s[..WF_DATA] == s[0..WF_DATA];
    WfBytesLocal(d1, at, s, 0);
    var r1 := Skip(r, WF_DATA);
    if |s| == WF_DATA {
      BytesUseUp(r1, WfBytes(s, 0) - WF_DATA, |r.src.queue|);
    }
  }

  lemma ChannelsFirst(r: Reader, d: seq<byte>, at: nat, n: nat, total: nat)
    requires at + n * WF_SIZE <= |d| && ChannelsLen(Available(r), n).None?
    ensures n > 0
    ensures var (r1, d1, k) := ReadWaveform(r, d, at);
      ReadChannels(r, d, at, n, total) ==
        if k < 0 then Done(r1, d1, -1) else ReadChannels(r1, d1, at + WF_SIZE, n - 1, total + k)
  {
    hide ReadWaveform;
  }

  lemma AtMostSelf(r: Reader)
    requires r.src.Datagrams?
    ensures AtMost(r.src, |r.src.queue|)
  {}

  /** Behind a waveform that a datagram holds, it goes on in the datagram, unless a waveform
      of no samples was all that was left. */
  lemma WaveformBehind(r: Reader)
    requires r.src.Datagrams? && WF_DATA <= |r.src.cur| && WfBytes(r.src.cur, 0) <= |r.src.cur|
    ensures var s := r.src.cur; var k := WfBytes(s, 0); var r1 := After(r, k, k == WF_DATA);
      if k == WF_DATA && |s| == k then s[k..] == [] && AtMost(r1.src, |r.src.queue| - 1)
      else r1 == r.(src := Datagrams(s[k..], r.src.queue))
  {}

  /** The channel loop on a datagram that does not hold n waveforms: if it ends inside a part,
      the loop gives up and leaves the next datagrams alone; if it ends between two parts,
      the next datagram is received and taken for the rest. */
  lemma {:induction false} CutChannels(r: Reader, d: seq<byte>, at: nat, n: nat, total: nat)
    requires at + n * WF_SIZE <= |d| && r.src.Datagrams? && ChannelsLen(r.src.cur, n).None?
    ensures var o := ReadChannels(r, d, at, n, total);
      if EndsInside(r.src.cur, n) then o.ret == -1 && o.r == r.(src := Datagrams([], r.src.queue))
      else AtMost(o.r.src, |r.src.queue| - 1)
    decreases n
  {
    hide ReadWaveform, WfBytes, ReadChannels, Splice, AtMost;
    var s, queue := r.src.cur, r.src.queue;
    var (r1, d1, k) := ReadWaveform(r, d, at);
    ChannelsFirst(r, d, at, n, total);
    AtMostSelf(r);
    if s == [] {
      WaveformUsesUp(r, d, at, |queue|);
      if k >= 0 {
        ChannelsUseUp(r1, d1, at + WF_SIZE, n - 1, total + k, |queue| - 1);
      }
    } else if |s| < WF_DATA {
      HeaderCutShort(r, d, at);
    } else if |s| < WfBytes(s, 0) {
      SamplesCutShort(r, d, at);
      if k >= 0 {
        ChannelsUseUp(r1, d1, at + WF_SIZE, n - 1, total + k, |queue| - 1);
      }
    } else {
      ReadsWaveform(r, d, at);
      WaveformBehind(r);
      if r1.src == Datagrams(s[k..], queue) {
        CutChannels(r1, d1, at + WF_SIZE, n - 1, total + k);
      } else {
        assert !EndsInside(s[WfBytes(s, 0)..], n - 1);
        ChannelsUseUp(r1, d1, at + WF_SIZE, n - 1, total + k, |queue| - 1);
      }
    }
  }

  //////////////////////////////////////////////////////////////////////////////
  // Reading a cut event
  //////////////////////////////////////////////////////////////////////////////

  lemma CutPayload(r: Reader, t: PacketType, ver: int, d: seq<byte>)
    requires Waveform(t) && |d| == InMemory(t) && r.src.Datagrams? && Prefix(t, ver) < |r.src.cur|
    requires ChannelsLen(r.src.cur[Prefix(t, ver)..], Channels(t)).None?
    ensures var o := ReadPacket(r, t, ver, d);
      && o.Done?
      && if EndsInside(r.src.cur[Prefix(t, ver)..], Channels(t)) then
           o.ret == -1 && o.r == r.(src := Datagrams([], r.src.queue))
         else
           AtMost(o.r.src, |r.src.queue| - 1)
  {
    hide ReadBytes, Splice, Clear, ReadChannels, EndsInside, ChannelsLen, AtMost;
    var p := Prefix(t, ver);
    ReadsAvailable(r, p);
    var d0 := if ver == 0 then Clear(d, READOUT_TIME, READOUT_TIME + 8) else d;
    CutChannels(Skip(r, p), Splice(d0, 0, r.src.cur[..p]), WfOffset(t), Channels(t), p);
  }

  /** What becomes of a read: it waits for a datagram, or it returns with at most n left. */
  predicate WaitsOrUses(res: LlResult, n: int) {
    res.LlWaiting? || (res.LlReturned? && res.r.src.Datagrams? && |res.r.src.queue| <= n)
  }

  lemma CutRead(k: Reader, t: PacketType, p: Packet)
    requires Waveform(t) && k.src.Datagrams? && Prefix(t, k.head.version) < |k.src.cur|
    requires ChannelsLen(k.src.cur[Prefix(t, k.head.version)..], Channels(t)).None?
    requires k.gotHead && k.required <= |p.payload| && TypeOf(k.head.code) == Some(t) && InMemory(t) <= |p.payload|
    ensures var res := LlReadBody(k, p);
      if EndsInside(k.src.cur[Prefix(t, k.head.version)..], Channels(t)) then
        && res.LlReturned? && res.ret == -1 && res.badLen
        && res.r == k.(required := 0, gotHead := false, src := Datagrams([], k.src.queue),
             bytesRead := Wrap64(k.bytesRead - 1))
      else
        WaitsOrUses(res, |k.src.queue| - 1)
  {
    hide ReadPacket, HeaderFor, EndsInside, ChannelsLen, InMemory, Wrap64, TypeCode;
    var d := p.payload[..InMemory(t)];
    CodesDispatch(t, k.head.code);
    hide TypeOf;
    ReadAfterHeader(k, t, d);
    CutPayload(k.(gotHead := false), t, k.head.version, d);
  }

  /** The payload of an event, cut before its end, does not hold all channels. */
  lemma CutLacksChannels(m: seq<byte>, n: nat)
    requires |m| == InMemory(FullWaveforms)
    requires n < |Used(m, 48, 224)|
    ensures ChannelsLen(Used(m, 48, 224)[..n], 224).None?
  {
    hide ChannelsLen, Used;
    var u := Used(m, 48, 224);
    UsedIsChannels(m, 48, 224);
    if ChannelsLen(u[..n], 224).Some? {
      var len := ChannelsLen(u[..n], 224).value;
      assert u[..n][..len] == u[..len];
      ChannelsLocal(u[..n], u, 224);
    }
  }

  /** The channels of an event that its datagram still holds. */
  function SentChannels(m: seq<byte>): seq<byte>
    requires |m| == InMemory(FullWaveforms)
  {
    var u := Used(m, 48, 224);
    u[..Min(|u|, UDP_MAX - HEAD_SIZE - 48)]
  }

  lemma CutFrame(m: seq<byte>)
    requires Sendable(FullWaveforms, 1, m) && |Frame(FullWaveforms, m)| > UDP_MAX
    ensures var h := HeaderFor(FullWaveforms, 1, m); var c := Cut(true, Frame(FullWaveforms, m));
      && |c| == UDP_MAX && c[..HEAD_SIZE] == Encode(h) && c[HEAD_SIZE..] == m[..48] + SentChannels(m)
      && SentChannels(m) == Used(m, 48, 224)[..UDP_MAX - HEAD_SIZE - 48]
      && UDP_MAX - HEAD_SIZE - 48 < |Used(m, 48, 224)|
  {
    hide Used, HeaderFor, Encode;
    var b := Encode(HeaderFor(FullWaveforms, 1, m));
    var u := Used(m, 48, 224);
    var f := Frame(FullWaveforms, m);
    assert f == b + (m[..48] + u);
    assert f[..UDP_MAX][HEAD_SIZE..] == (m[..48] + u)[..UDP_MAX - HEAD_SIZE];
    assert (m[..48] + u)[..UDP_MAX - HEAD_SIZE] == m[..48] + u[..UDP_MAX - HEAD_SIZE - 48];
  }

  lemma HeadOfEvent(m: seq<byte>)
    requires Sendable(FullWaveforms, 1, m)
    ensures var h := HeaderFor(FullWaveforms, 1, m);
      h.f1 == F1 && h.version == 1 && h.code == TypeCode(FullWaveforms) && TypeOf(h.code) == Some(FullWaveforms)
  {
    hide Wire, Continue;
  }

  /** Every part of a waveform has an even number of bytes, so that an odd number of bytes that
      does not hold n waveforms ends inside a part. */
  lemma {:induction false} OddEndsInside(s: seq<byte>, n: nat)
    requires |s| % 2 == 1 && ChannelsLen(s, n).None?
    ensures EndsInside(s, n)
    decreases n
  {
    if WF_DATA <= |s| && WfBytes(s, 0) <= |s| {
      OddEndsInside(s[WfBytes(s, 0)..], n - 1);
    }
  }

  /** A generic read has returned -1, as at EOF, has printed the length message, and has left
      the handle at the next datagram. */
  predicate GivesUp(res: LlResult, queue: seq<seq<byte>>) {
    && res.LlReturned? && res.ret == -1 && res.badLen
    && AtStart(res.r) && res.r.src == Datagrams([], queue)
  }

  /** Behind its header, the handle has the channels that are left of the event. */
  lemma CutEventHeader(r: Reader, m: seq<byte>, queue: seq<seq<byte>>, p: Packet) returns (k: Reader)
    requires Sendable(FullWaveforms, 1, m) && |Frame(FullWaveforms, m)| > UDP_MAX
    requires AtStart(r) && r.src == Datagrams([], [Cut(true, Frame(FullWaveforms, m))] + queue)
    ensures LlRead(r, p) == LlReadBody(k, p)
    ensures k.gotHead && k.required == InMemory(FullWaveforms)
    ensures k.head.version == 1 && TypeOf(k.head.code) == Some(FullWaveforms)
    ensures k.src == Datagrams(m[..48] + SentChannels(m), queue)
  {
    hide HeaderFor, Encode, Used, LlReadBody, MaybeReadHeader, SentChannels, Frame, Wrap64;
    var h := HeaderFor(FullWaveforms, 1, m);
    CutFrame(m);
    HeadOfEvent(m);
    assert Refill(r).src == Datagrams(Cut(true, Frame(FullWaveforms, m)), queue);
    ReadsHeader(r, h);
    k := AfterHeader(r, h).(required := InMemory(FullWaveforms));
  }

  lemma CutEventBody(k: Reader, m: seq<byte>, queue: seq<seq<byte>>, p: Packet)
    requires Sendable(FullWaveforms, 1, m) && |Frame(FullWaveforms, m)| > UDP_MAX
    requires k.gotHead && k.required == InMemory(FullWaveforms) <= |p.payload|
    requires k.head.version == 1 && TypeOf(k.head.code) == Some(FullWaveforms)
    requires k.src == Datagrams(m[..48] + SentChannels(m), queue)
    ensures GivesUp(LlReadBody(k, p), queue)
  {
    hide HeaderFor, Encode, Used, EndsInside, ChannelsLen, LlReadBody, SentChannels, Frame, Wrap64;
    CutFrame(m);
    assert k.src.cur[48..] == SentChannels(m);
    CutLacksChannels(m, UDP_MAX - HEAD_SIZE - 48);
    OddEndsInside(SentChannels(m), 224);
    CutRead(k, FullWaveforms, p);
  }

  /** What pueo_ll_read_realloc makes of an event that was cut at 65507 bytes, with any packet.
      The 65451 bytes behind header and prefix never end between two parts, so the read gives
      up without touching the next datagram, whose packet a next read delivers. */
  lemma CutEvent(r: Reader, m: seq<byte>, queue: seq<seq<byte>>, dest: Option<Packet>, junk1: Junk, junk2: Junk)
    requires Sendable(FullWaveforms, 1, m) && |Frame(FullWaveforms, m)| > UDP_MAX
    requires AtStart(r) && r.src == Datagrams([], [Cut(true, Frame(FullWaveforms, m))] + queue)
    ensures GivesUp(LlReadRealloc(r, dest, junk1, junk2), queue)
  {
    hide LlRead, LlReadBody, Frame, SentChannels, TypeOf;
    var p := if dest.None? then Packet(NO_HEAD, junk1[..FIRST_CAPACITY]) else dest.value;
    var k := CutEventHeader(r, m, queue, p);
    if |p.payload| < InMemory(FullWaveforms) {
      var p2 := Packet(NO_HEAD, junk2[..InMemory(FullWaveforms)]);
      NoRoom(k, p);
      ResumesKnown(k, p2);
      CutEventBody(k, m, queue, p2);
    } else {
      CutEventBody(k, m, queue, p);
    }
  }
}
