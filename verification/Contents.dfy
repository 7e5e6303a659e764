/** What a read leaves in memory: which bytes it sets, that these do not depend on what the
    memory held before, and which ones keep it. */
module Contents {
  import opened Crc
  import opened Versions
  import opened Packets
  import opened Reading
  import opened Grammar
  import opened Parts

  /** Two memories of a t have the same contents, as far as version `ver` transports them. */
  ghost predicate SameContents(t: PacketType, ver: int, m: seq<byte>, m': seq<byte>) {
    && |m| == |m'| == InMemory(t)
    && if Waveform(t) then
         m[..Prefix(t, ver)] == m'[..Prefix(t, ver)] && SameChannels(m, m', WfOffset(t), Channels(t))
       else
         m[..Kept(t)] == m'[..Kept(t)]
  }

  lemma WaveformContents(t: PacketType, ver: int, m: seq<byte>, m': seq<byte>, b: seq<byte>)
    requires Waveform(t) && Stores(t, ver, m, b) && Stores(t, ver, m', b)
    ensures SameContents(t, ver, m, m')
  {
    hide Used, SameChannels;
    var p, at, n := Prefix(t, ver), WfOffset(t), Channels(t);
    assert b[..p] == m[..p] && b[..p] == m'[..p];
    assert b[p..] == Used(m, at, n) && b[p..] == Used(m', at, n);
    UsedDetermines(m, m', at, n);
  }

  lemma FilledContents(t: PacketType, ver: int, s: seq<byte>, n: nat, d: seq<byte>, m: seq<byte>, d': seq<byte>, m': seq<byte>)
    requires |d| == |d'| == InMemory(t) && n <= |s| && Filled(t, ver, s, n, d, m) && Filled(t, ver, s, n, d', m')
    ensures SameContents(t, ver, m, m')
  {
    hide Sendable, Wire, SameChannels;
    if Waveform(t) {
      WaveformContents(t, ver, m, m', s[..n]);
    } else {
      var a := s[..n] + Zeros(Kept(t) - n);
      assert m[..Kept(t)] == a && m'[..Kept(t)] == a;
    }
  }

  //////////////////////////////////////////////////////////////////////////////
  // Bytes that are set and bytes that stay
  //////////////////////////////////////////////////////////////////////////////

  /** Byte i lies in the used part of one of n waveforms in memory from `at` on, when s is
      what is sent of them. */
  predicate Sent(s: seq<byte>, at: nat, n: nat, i: nat)
    requires ChannelsLen(s, n).Some?
    decreases n
  {
    n > 0 && (at <= i < at + WfBytes(s, 0) || Sent(s[WfBytes(s, 0)..], at + WF_SIZE, n - 1, i))
  }

  /** A read of a payload s sets byte i: for waveform types the prefix of the version,
      readout_time where version 0 zeroes it, and the used part of every channel. */
  predicate Sets(t: PacketType, ver: int, s: seq<byte>, i: nat)
    requires PayloadLen(t, ver, s).Some?
  {
    if Waveform(t) then
      || i < Prefix(t, ver)
      || (ver == 0 && READOUT_TIME <= i < READOUT_TIME + 8)
      || Sent(s[Prefix(t, ver)..], WfOffset(t), Channels(t), i)
    else
      i < Kept(t)
  }

  lemma ChannelsSetStep(d: seq<byte>, d': seq<byte>, at: nat, b: seq<byte>)
    requires at + |b| <= |d| == |d'|
    ensures var d1, d1' := Splice(d, at, b), Splice(d', at, b);
      forall i :: 0 <= i < |d| ==>
        if at <= i < at + |b| then d1[i] == d1'[i] else d1[i] == d[i] && d1'[i] == d'[i]
  {}

  lemma {:induction false} ChannelsSet(r: Reader, d: seq<byte>, d': seq<byte>, at: nat, n: nat, total: int)
    requires |d| == |d'| && at + n * WF_SIZE <= |d| && ChannelsLen(Available(r), n).Some?
    ensures var m, m' := ReadChannels(r, d, at, n, total).mem, ReadChannels(r, d', at, n, total).mem;
      forall i: nat :: i < |d| ==>
        if Sent(Available(r), at, n, i) then m[i] == m'[i] else m[i] == d[i] && m'[i] == d'[i]
    decreases n
  {
    hide WfBytes, ReadChannels, Splice;
    if n == 0 {
      ChannelsNone(r, d, at, total);
      ChannelsNone(r, d', at, total);
    } else {
      hide After, Skip, LastEmpty, ChannelsLen;
      LenFirst(Available(r), n);
      var s := Available(r);
      var k := WfBytes(s, 0);
      var d1, d1' := Splice(d, at, s[..k]), Splice(d', at, s[..k]);
      ChannelsStep(r, d, at, n, total);
      ChannelsStep(r, d', at, n, total);
      ChannelsSetStep(d, d', at, s[..k]);
      if n == 1 {
        ChannelsNone(After(r, k, k == WF_DATA), d1, at + WF_SIZE, total + k);
        ChannelsNone(After(r, k, k == WF_DATA), d1', at + WF_SIZE, total + k);
      } else {
        ChannelsMore(r, n);
        ChannelsSet(Skip(r, k), d1, d1', at + WF_SIZE, n - 1, total + k);
      }
    }
  }

  lemma PrefixSet(t: PacketType, ver: int, d: seq<byte>, d': seq<byte>, b: seq<byte>)
    requires Waveform(t) && |d| == |d'| == InMemory(t) && |b| == Prefix(t, ver)
    ensures var d0 := if ver == 0 then Clear(d, READOUT_TIME, READOUT_TIME + 8) else d;
      var d0' := if ver == 0 then Clear(d', READOUT_TIME, READOUT_TIME + 8) else d';
      var d1, d1' := Splice(d0, 0, b), Splice(d0', 0, b);
      forall i: nat :: i < |d| ==>
        if i < Prefix(t, ver) || (ver == 0 && READOUT_TIME <= i < READOUT_TIME + 8) then d1[i] == d1'[i]
        else d1[i] == d[i] && d1'[i] == d'[i]
  {}

  lemma {:induction false} SentBehind(s: seq<byte>, at: nat, n: nat, i: nat)
    requires ChannelsLen(s, n).Some? && i < at
    ensures !Sent(s, at, n, i)
    decreases n
  {
    if n > 0 {
      hide WfBytes;
      SentBehind(s[WfBytes(s, 0)..], at + WF_SIZE, n - 1, i);
    }
  }

  lemma SentElsewhere(s: seq<byte>, at: nat, n: nat)
    requires ChannelsLen(s, n).Some?
    ensures forall i: nat :: i < at ==> !Sent(s, at, n, i)
  {
    hide Sent;
    forall i: nat | i < at
      ensures !Sent(s, at, n, i)
    {
      SentBehind(s, at, n, i);
    }
  }

  lemma WaveformsSet(r: Reader, t: PacketType, ver: int, d: seq<byte>, d': seq<byte>)
    requires Waveform(t) && |d| == |d'| == InMemory(t) && PayloadLen(t, ver, Available(r)).Some?
    ensures var m, m' := ReadWaveforms(r, t, ver, d).mem, ReadWaveforms(r, t, ver, d').mem;
      forall i: nat :: i < |d| ==>
        if Sets(t, ver, Available(r), i) then m[i] == m'[i] else m[i] == d[i] && m'[i] == d'[i]
  {
    hide Skip, ReadChannels, ReadBytes, Splice, Clear, ChannelsLen, Sent;
    var s := Available(r);
    var p := Prefix(t, ver);
    var d0 := if ver == 0 then Clear(d, READOUT_TIME, READOUT_TIME + 8) else d;
    var d0' := if ver == 0 then Clear(d', READOUT_TIME, READOUT_TIME + 8) else d';
    ReadsAvailable(r, p);
    PrefixSet(t, ver, d, d', s[..p]);
    var d1, d1' := Splice(d0, 0, s[..p]), Splice(d0', 0, s[..p]);
    assert ReadWaveforms(r, t, ver, d) == ReadChannels(Skip(r, p), d1, WfOffset(t), Channels(t), p);
    assert ReadWaveforms(r, t, ver, d') == ReadChannels(Skip(r, p), d1', WfOffset(t), Channels(t), p);
    ChannelsSet(Skip(r, p), d1, d1', WfOffset(t), Channels(t), p);
    SentElsewhere(s[p..], WfOffset(t), Channels(t));
  }

  lemma ImageSet(t: PacketType, n: nat, s: seq<byte>, d: seq<byte>, d': seq<byte>)
    requires |d| == |d'| == InMemory(t) && n <= |s| && n <= Kept(t)
    ensures var m, m' := Image(t, n, s, d), Image(t, n, s, d');
      forall i: nat :: i < |d| ==> if i < Kept(t) then m[i] == m'[i] else m[i] == d[i] && m'[i] == d'[i]
  {}

  /** A read sets the bytes that Sets names, to values that do not depend on what the memory
      held before, and leaves every other byte as it was. */
  lemma ReadSets(r: Reader, t: PacketType, ver: int, d: seq<byte>, d': seq<byte>)
    requires |d| == |d'| == InMemory(t) && PayloadLen(t, ver, Available(r)).Some?
    ensures var o, o' := ReadPacket(r, t, ver, d), ReadPacket(r, t, ver, d');
      && o.Done? && o'.Done?
      && forall i: nat :: i < |d| ==>
           if Sets(t, ver, Available(r), i) then o.mem[i] == o'.mem[i] else o.mem[i] == d[i] && o'.mem[i] == d'[i]
  {
    hide ReadSimple, ReadCounted, ReadWaveforms, PayloadLen, After, Image, Sent;
    var s := Available(r);
    if Waveform(t) {
      WaveformsSet(r, t, ver, d, d');
    } else {
      var n := PayloadLen(t, ver, s).value;
      if Simple(t) {
        ReadsSimple(r, t, ver, d);
        ReadsSimple(r, t, ver, d');
      } else {
        ReadsCounted(r, t, ver, d);
        ReadsCounted(r, t, ver, d');
      }
      ImageSet(t, n, s, d, d');
    }
  }

  /** Two memories agree on every byte that a read of s does not set. */
  ghost predicate AgreeElsewhere(t: PacketType, ver: int, s: seq<byte>, d: seq<byte>, d': seq<byte>)
    requires PayloadLen(t, ver, s).Some? && |d| == |d'|
  {
    forall i: nat :: i < |d| && !Sets(t, ver, s, i) ==> d[i] == d'[i]
  }

  /** Reads do not depend on what the memory held before: two reads of the same bytes into
      different memories consume the same and leave the same contents. The whole memories
      agree afterwards iff they agreed before on the bytes that the read does not set. */
  lemma ReadsAreIndependent(r: Reader, t: PacketType, ver: int, d: seq<byte>, d': seq<byte>, n: nat)
    requires |d| == |d'| == InMemory(t) && PayloadLen(t, ver, Available(r)) == Some(n)
    ensures var o, o' := ReadPacket(r, t, ver, d), ReadPacket(r, t, ver, d');
      && o.Done? && o'.Done? && o.r == o'.r && o.ret == o'.ret == n
      && SameContents(t, ver, o.mem, o'.mem)
      && (o.mem == o'.mem <==> AgreeElsewhere(t, ver, Available(r), d, d'))
  {
    hide ReadPacket, Filled, SameContents, PayloadLen, EndsEmpty, After, Sets;
    ReadsPayload(r, t, ver, d, n);
    ReadsPayload(r, t, ver, d', n);
    var o, o' := ReadPacket(r, t, ver, d), ReadPacket(r, t, ver, d');
    FilledContents(t, ver, Available(r), n, d, o.mem, d', o'.mem);
    ReadSets(r, t, ver, d, d');
  }

  /** The same for a payload that runs over several datagrams, as long as it can be had whole. */
  lemma WholeReadsAreIndependent(r: Reader, t: PacketType, ver: int, d: seq<byte>, d': seq<byte>)
    requires |d| == |d'| == InMemory(t) && WholePayload(r.src, t, ver)
    ensures PayloadLen(t, ver, Rest(r.src)).Some?
    ensures var o, o' := ReadPacket(r, t, ver, d), ReadPacket(r, t, ver, d');
      && o.Done? && o'.Done? && Rest(o.r.src) == Rest(o'.r.src)
      && o.ret == o'.ret == PayloadLen(t, ver, Rest(r.src)).value
      && SameContents(t, ver, o.mem, o'.mem)
      && (o.mem == o'.mem <==> AgreeElsewhere(t, ver, Rest(r.src), d, d'))
  {
    hide ReadPacket, SameContents, PayloadLen, Sets, WholePayload, Rest;
    var r' := r.(src := Stream(Rest(r.src)));
    PayloadStreams(r, r', t, ver, d);
    PayloadStreams(r, r', t, ver, d');
    assert Available(r') == Rest(r.src);
    ReadsAreIndependent(r', t, ver, d, d', PayloadLen(t, ver, Rest(r.src)).value);
  }

  //////////////////////////////////////////////////////////////////////////////
  // What is left over
  //////////////////////////////////////////////////////////////////////////////

  ghost predicate AllSent(s: seq<byte>, at: nat, n: nat)
    requires ChannelsLen(s, n).Some?
  {
    forall i: nat :: at <= i < at + n * WF_SIZE ==> Sent(s, at, n, i)
  }

  /** The byte behind a channel that is not full is not sent. */
  lemma GapNotSent(s: seq<byte>, at: nat, n: nat)
    requires n > 0 && ChannelsLen(s, n).Some?
    ensures WF_DATA <= |s|
    ensures WfBytes(s, 0) < WF_SIZE ==> !Sent(s, at, n, at + WfBytes(s, 0))
  {
    hide WfBytes, ChannelsLen;
    LenFirst(s, n);
    SentElsewhere(s[WfBytes(s, 0)..], at + WF_SIZE, n - 1);
  }

  lemma AllSentFirst(s: seq<byte>, at: nat, n: nat)
    requires n > 0 && ChannelsLen(s, n).Some? && AllSent(s, at, n)
    ensures ChannelsLen(s[WfBytes(s, 0)..], n - 1).Some?
    ensures WfBytes(s, 0) == WF_SIZE && AllSent(s[WfBytes(s, 0)..], at + WF_SIZE, n - 1)
  {
    hide WfBytes, ChannelsLen;
    LenFirst(s, n);
    var k, b, m: nat := WfBytes(s, 0), at + WF_SIZE, n - 1;
    var rest := s[k..];
    GapNotSent(s, at, n);
    assert k == WF_SIZE;
    forall i: nat | b <= i < b + m * WF_SIZE
      ensures Sent(rest, b, m, i)
    {
      assert Sent(s, at, n, i);
    }
    assert AllSent(rest, b, m);
  }

  lemma AllSentStep(s: seq<byte>, at: nat, n: nat)
    requires n > 0 && ChannelsLen(s, n).Some? && ChannelsLen(s[WfBytes(s, 0)..], n - 1).Some?
    requires WfBytes(s, 0) == WF_SIZE && AllSent(s[WfBytes(s, 0)..], at + WF_SIZE, n - 1)
    ensures AllSent(s, at, n)
  {
    hide WfBytes, ChannelsLen;
    LenFirst(s, n);
    var b, m: nat := at + WF_SIZE, n - 1;
    var rest := s[WfBytes(s, 0)..];
    forall i: nat | at <= i < at + n * WF_SIZE
      ensures Sent(s, at, n, i)
    {
      if b <= i {
        assert i < b + m * WF_SIZE;
        assert Sent(rest, b, m, i);
      }
    }
  }

  lemma {:induction false} SentAll(s: seq<byte>, at: nat, n: nat)
    requires ChannelsLen(s, n).Some?
    ensures ChannelsLen(s, n).value <= n * WF_SIZE
    ensures AllSent(s, at, n) <==> ChannelsLen(s, n).value == n * WF_SIZE
    decreases n
  {
    if n > 0 {
      hide WfBytes, ChannelsLen, AllSent;
      LenFirst(s, n);
      LenStep(s, n);
      SentAll(s[WfBytes(s, 0)..], at + WF_SIZE, n - 1);
      if AllSent(s, at, n) {
        AllSentFirst(s, at, n);
      }
      if ChannelsLen(s, n).value == n * WF_SIZE {
        AllSentStep(s, at, n);
      }
    }
  }

  ghost predicate AllSet(t: PacketType, ver: int, s: seq<byte>)
    requires PayloadLen(t, ver, s).Some?
  {
    forall i: nat :: i < InMemory(t) ==> Sets(t, ver, s, i)
  }

  lemma EventSetsAll(ver: int, s: seq<byte>)
    requires PayloadLen(FullWaveforms, ver, s).Some?
    ensures var p := Prefix(FullWaveforms, ver);
      AllSet(FullWaveforms, ver, s) <==> PayloadLen(FullWaveforms, ver, s).value == p + 224 * WF_SIZE
  {
    hide ChannelsLen, Sent;
    var p := Prefix(FullWaveforms, ver);
    SentAll(s[p..], 48, 224);
    SentElsewhere(s[p..], 48, 224);
    if AllSet(FullWaveforms, ver, s) {
      forall i: nat | 48 <= i < 48 + 224 * WF_SIZE
        ensures Sent(s[p..], 48, 224, i)
      {
        assert Sets(FullWaveforms, ver, s, i);
      }
    }
  }

  lemma {:induction false} SentBefore(s: seq<byte>, at: nat, n: nat, i: nat)
    requires ChannelsLen(s, n).Some? && at + n * WF_SIZE <= i
    ensures !Sent(s, at, n, i)
    decreases n
  {
    if n > 0 {
      hide WfBytes, ChannelsLen;
      LenFirst(s, n);
      SentBefore(s[WfBytes(s, 0)..], at + WF_SIZE, n - 1, i);
    }
  }

  lemma PaddingNotSet(ver: int, s: seq<byte>)
    requires PayloadLen(SingleWaveform, ver, s).Some?
    ensures !Sets(SingleWaveform, ver, s, 2102)
  {
    hide ChannelsLen, Sent;
    SentBefore(s[Prefix(SingleWaveform, ver)..], 50, 1, 2102);
  }

  /** Whether a read leaves nothing of the old memory: never for a single waveform, which ends
      in padding; for a full event iff every channel is full, so that the payload has its
      greatest length; for all other types but logs always. */
  lemma SetsAll(t: PacketType, ver: int, s: seq<byte>)
    requires PayloadLen(t, ver, s).Some?
    ensures AllSet(t, ver, s) <==>
      match t
      case SingleWaveform => false
      case FullWaveforms => PayloadLen(t, ver, s).value == Prefix(t, ver) + 224 * WF_SIZE
      case Logs => false
      case _ => true
  {
    hide PayloadLen, Sent;
    match t
    case SingleWaveform =>
      PaddingNotSet(ver, s);
      hide Sets;
    case FullWaveforms =>
      EventSetsAll(ver, s);
      hide AllSet;
    case Logs =>
      assert !Sets(t, ver, s, 2058);
    case _ =>
  }

  lemma PrioNotSet(ver: int, s: seq<byte>)
    requires PayloadLen(SingleWaveform, ver, s).Some?
    ensures ver == 0 || ver == 1 ==> !Sets(SingleWaveform, ver, s, 48) && !Sets(SingleWaveform, ver, s, 49)
  {
    hide ChannelsLen, Sent;
    SentElsewhere(s[Prefix(SingleWaveform, ver)..], 50, 1);
  }

  /** prio, at bytes 48 and 49, is what old versions of a single waveform do not set. */
  lemma PrioStays(r: Reader, ver: int, d: seq<byte>)
    requires |d| == InMemory(SingleWaveform) && PayloadLen(SingleWaveform, ver, Available(r)).Some?
    ensures var o := ReadPacket(r, SingleWaveform, ver, d);
      && o.Done?
      && ((ver == 0 || ver == 1) ==> o.mem[48..50] == d[48..50])
  {
    hide ReadPacket, PayloadLen, Sets;
    ReadSets(r, SingleWaveform, ver, d, d);
    PrioNotSet(ver, Available(r));
  }

  /** So it shows: the same packet read over different memory differs. */
  lemma PrioShows(ver: int)
    requires ver == 0 || ver == 1
    ensures var r := Reader(NO_HEAD, 0, false, 0, Stream(Zeros(52)));
      var d, d' := Zeros(2104), Splice(Zeros(2104), 48, [1]);
      && PayloadLen(SingleWaveform, ver, Available(r)) == Some(if ver == 0 then 44 else 52)
      && ReadPacket(r, SingleWaveform, ver, d).Done? && ReadPacket(r, SingleWaveform, ver, d').Done?
      && ReadPacket(r, SingleWaveform, ver, d).mem[48] == 0 && ReadPacket(r, SingleWaveform, ver, d').mem[48] == 1
  {
    hide ReadPacket;
    var r := Reader(NO_HEAD, 0, false, 0, Stream(Zeros(52)));
    var d, d' := Zeros(2104), Splice(Zeros(2104), 48, [1]);
    var s := Zeros(52)[Prefix(SingleWaveform, ver)..];
    assert WfBytes(s, 0) == 4;
    assert ChannelsLen(s[4..], 0) == Some(0);
    PrioStays(r, ver, d);
    PrioStays(r, ver, d');
    var m, m' := ReadPacket(r, SingleWaveform, ver, d).mem, ReadPacket(r, SingleWaveform, ver, d').mem;
    assert m[48] == m[48..50][0] && m'[48] == m'[48..50][0];
    assert d[48..50][0] == 0 && d'[48..50][0] == 1;
  }

  /** The padding does show: the same empty log packet read over different memory differs. */
  lemma LogPaddingShows()
    ensures var r := Reader(NO_HEAD, 0, false, 0, Stream(Zeros(10))); var d, d' := Zeros(2060), Zeros(2059) + [1];
      && PayloadLen(Logs, 0, Available(r)) == Some(10)
      && ReadPacket(r, Logs, 0, d).Done? && ReadPacket(r, Logs, 0, d').Done?
      && ReadPacket(r, Logs, 0, d).mem != ReadPacket(r, Logs, 0, d').mem
  {
    hide ReadPacket;
    var r := Reader(NO_HEAD, 0, false, 0, Stream(Zeros(10)));
    var d, d' := Zeros(2060), Zeros(2059) + [1];
    assert U16At(Zeros(10), 8) == 0;
    assert d[2059] == 0 && d'[2059] == 1;
    assert !Sets(Logs, 0, Zeros(10), 2059);
    ReadsAreIndependent(r, Logs, 0, d, d', 10);
  }
}
