/** The grammar of payloads, read off the wire bytes alone, and the agreement of the
    packet readers and the header builders with it. */
module Grammar {
  import opened Crc
  import opened Versions
  import opened Packets
  import opened Reading

  //////////////////////////////////////////////////////////////////////////////
  // The grammar
  //////////////////////////////////////////////////////////////////////////////

  /** The length of the n waveforms with which s starts. */
  function ChannelsLen(s: seq<byte>, n: nat): (len: Option<nat>)
    ensures len.Some? ==> len.value <= |s| && WF_DATA * n <= len.value
    decreases n
  {
    if n == 0 then Some(0)
    else if |s| < WF_DATA || |s| < WfBytes(s, 0) then None
    else
      var k := WfBytes(s, 0);
      match ChannelsLen(s[k..], n - 1)
      case None => None
      case Some(rest) => Some(k + rest)
  }

  /** The length of the payload of a t, version `ver`, with which s starts; None if
      s is too short, if a count points outside its array, or if there is no such version. */
  function PayloadLen(t: PacketType, ver: int, s: seq<byte>): (len: Option<nat>)
    ensures len.Some? ==> WF_DATA <= len.value <= |s|
  {
    if Simple(t) then
      var size := PacketSize(t, ver);
      if size < 0 || |s| < size then None else Some(size)
    else if Waveform(t) then
      if |s| < Prefix(t, ver) then None
      else
        match ChannelsLen(s[Prefix(t, ver)..], Channels(t))
        case None => None
        case Some(len) => Some(Prefix(t, ver) + len)
    else
      if |s| < Base(t) || !CountFits(t, ver, s) || |s| < Base(t) + Count(t, ver, s) then None
      else Some(Base(t) + Count(t, ver, s))
  }

  /** The last of n waveforms has no samples. */
  predicate LastEmpty(s: seq<byte>, n: nat)
    requires ChannelsLen(s, n).Some?
    decreases n
  {
    n > 0 && if n == 1 then WfBytes(s, 0) == WF_DATA else LastEmpty(s[WfBytes(s, 0)..], n - 1)
  }

  /** The payload ends in a variable part of no bytes. */
  predicate EndsEmpty(t: PacketType, ver: int, s: seq<byte>)
    requires PayloadLen(t, ver, s).Some?
  {
    if Simple(t) then false
    else if Waveform(t) then LastEmpty(s[Prefix(t, ver)..], Channels(t))
    else Count(t, ver, s) == 0
  }

  //////////////////////////////////////////////////////////////////////////////
  // Reading what the grammar allows
  //////////////////////////////////////////////////////////////////////////////

  /** The state after the n bytes of a payload. If the payload ends in a part of no
      bytes, asking for that part at the end of a datagram receives the next one. */
  function After(r: Reader, n: nat, endsEmpty: bool): Reader
    requires n <= |Available(r)|
  {
    if endsEmpty && n == |Available(r)| then Refill(Skip(r, n)) else Skip(r, n)
  }

  lemma ReadsAvailable(r: Reader, n: nat)
    requires 0 < n <= |Available(r)|
    ensures ReadBytes(r, n) == (Skip(r, n), Available(r)[..n]) && !Waits(Skip(r, n))
  {}

  lemma ReadsNothing(r: Reader)
    ensures ReadBytes(r, 0) == (Refill(r), [])
  {}

  lemma SkipSkip(r: Reader, m: nat, n: nat)
    requires m + n <= |Available(r)|
    ensures Skip(Skip(r, m), n) == Skip(r, m + n)
    ensures Available(Skip(r, m))[..n] == Available(r)[m..m + n]
  {
    var a := Available(r);
    assert a[m..][n..] == a[m + n..];
  }

  lemma SpliceTwice(d: seq<byte>, at: nat, a: seq<byte>, b: seq<byte>)
    requires at + |a| + |b| <= |d|
    ensures Splice(Splice(d, at, a), at + |a|, b) == Splice(d, at, a + b)
  {}

  lemma SpliceAt(d: seq<byte>, at: nat, b: seq<byte>)
    requires at + |b| <= |d|
    ensures Splice(d, at, b)[at..at + |b|] == b
  {}

  /** The size of a waveform depends on its four header bytes only. */
  lemma WfBytesLocal(m: seq<byte>, at: nat, m': seq<byte>, at': nat)
    requires at + WF_DATA <= |m| && at' + WF_DATA <= |m'|
    requires m[at..at + WF_DATA] == m'[at'..at' + WF_DATA]
    ensures WfBytes(m, at) == WfBytes(m', at')
  {
    assert m[at..at + WF_DATA][2] == m[at + 2] && m'[at'..at' + WF_DATA][2] == m'[at' + 2];
    assert m[at..at + WF_DATA][3] == m[at + 3] && m'[at'..at' + WF_DATA][3] == m'[at' + 3];
  }

  lemma ReadsWaveform(r: Reader, d: seq<byte>, at: nat)
    requires at + WF_SIZE <= |d|
    requires var s := Available(r); WF_DATA <= |s| && WfBytes(s, 0) <= |s|
    ensures var s := Available(r); var k := WfBytes(s, 0);
      ReadWaveform(r, d, at) == (After(r, k, k == WF_DATA), Splice(d, at, s[..k]), k)
  {
    hide Splice, ReadBytes, Skip;
    var s := Available(r);
    var k := WfBytes(s, 0);
    ReadsAvailable(r, WF_DATA);
    var d1 := Splice(d, at, s[..WF_DATA]);
    assert d1[at..at + WF_DATA] == s[0..WF_DATA];
    WfBytesLocal(d1, at, s, 0);
    hide WfBytes;
    SkipSkip(r, WF_DATA, k - WF_DATA);
    if k == WF_DATA {
      ReadsNothing(Skip(r, WF_DATA));
    } else {
      ReadsAvailable(Skip(r, WF_DATA), k - WF_DATA);
    }
    SpliceTwice(d, at, s[..WF_DATA], s[WF_DATA..k]);
    assert s[..WF_DATA] + s[WF_DATA..k] == s[..k];
  }

  lemma {:induction false} UsedLocal(m: seq<byte>, m': seq<byte>, at: nat, n: nat)
    requires at + n * WF_SIZE <= |m| == |m'| && m[at..] == m'[at..]
    ensures Used(m, at, n) == Used(m', at, n)
    decreases n
  {
    assert forall i :: at <= i < |m| ==> m[i] == m[at..][i - at] && m'[i] == m'[at..][i - at];
    if n > 0 {
      assert WfBytes(m, at) == WfBytes(m', at);
      assert m[at..at + WfBytes(m, at)] == m'[at..at + WfBytes(m, at)];
      assert m[at + WF_SIZE..] == m'[at + WF_SIZE..];
      UsedLocal(m, m', at + WF_SIZE, n - 1);
    }
  }

  /** One more channel in front of channels that are in memory already. */
  lemma UsedStep(m: seq<byte>, at: nat, n: nat, s: seq<byte>, len: nat)
    requires n > 0 && at + n * WF_SIZE <= |m|
    requires WF_DATA <= |s| && WfBytes(s, 0) <= len <= |s|
    requires m[at..at + WfBytes(s, 0)] == s[..WfBytes(s, 0)]
    requires Used(m, at + WF_SIZE, n - 1) == s[WfBytes(s, 0)..len]
    ensures Used(m, at, n) == s[..len]
  {
    hide U16At;
    var k := WfBytes(s, 0);
    assert m[at..at + WF_DATA] == m[at..at + k][..WF_DATA] == s[..k][..WF_DATA] == s[0..WF_DATA];
    WfBytesLocal(m, at, s, 0);
    assert s[..k] + s[k..len] == s[..len];
  }

  /** A channel that has been read stays as it is while later ones are read. */
  lemma EarlierStays(m: seq<byte>, d: seq<byte>, at: nat, b: seq<byte>)
    requires at + WF_SIZE <= |m| == |d| && |b| <= WF_SIZE
    requires m[..at + WF_SIZE] == Splice(d, at, b)[..at + WF_SIZE]
    ensures m[at..at + |b|] == b && m[..at] == d[..at]
  {
    var d1 := Splice(d, at, b);
    assert m[at..at + |b|] == m[..at + WF_SIZE][at..at + |b|];
    assert d1[at..at + |b|] == d1[..at + WF_SIZE][at..at + |b|];
    assert m[..at] == m[..at + WF_SIZE][..at];
    assert d1[..at] == d1[..at + WF_SIZE][..at];
  }

  lemma ChannelsNone(r: Reader, d: seq<byte>, at: nat, total: int)
    requires at <= |d|
    ensures ReadChannels(r, d, at, 0, total) == Done(r, d, total)
    ensures Used(d, at, 0) == []
  {}

  lemma ChannelsStep(r: Reader, d: seq<byte>, at: nat, n: nat, total: int)
    requires n > 0 && at + n * WF_SIZE <= |d| && ChannelsLen(Available(r), n).Some?
    ensures var s := Available(r); var k := WfBytes(s, 0);
      ReadChannels(r, d, at, n, total)
      == ReadChannels(After(r, k, k == WF_DATA), Splice(d, at, s[..k]), at + WF_SIZE, n - 1, total + k)
  {
    hide Splice, WfBytes, ReadWaveform, Refill, Skip;
    ReadsWaveform(r, d, at);
  }

  lemma SkipNone(r: Reader)
    ensures Skip(r, 0) == r
  {
    assert Available(r)[0..] == Available(r);
  }

  lemma AfterSkip(r: Reader, m: nat, n: nat, endsEmpty: bool)
    requires m + n <= |Available(r)|
    ensures After(Skip(r, m), n, endsEmpty) == After(r, m + n, endsEmpty)
  {
    SkipSkip(r, m, n);
  }

  lemma ChannelsMore(r: Reader, n: nat)
    requires n > 1 && ChannelsLen(Available(r), n).Some?
    ensures var s := Available(r); var k := WfBytes(s, 0);
      && k <= |s| && Available(Skip(r, k)) == s[k..]
      && After(r, k, k == WF_DATA) == Skip(r, k)
      && ChannelsLen(s, n) == Some(k + ChannelsLen(s[k..], n - 1).value)
      && LastEmpty(s, n) == LastEmpty(s[k..], n - 1)
  {}

  lemma ChannelsOne(r: Reader)
    requires ChannelsLen(Available(r), 1).Some?
    ensures var s := Available(r); var k := WfBytes(s, 0);
      && k <= |s| && ChannelsLen(s, 1) == Some(k) && LastEmpty(s, 1) == (k == WF_DATA)
  {
    var s := Available(r);
    assert ChannelsLen(s[WfBytes(s, 0)..], 0) == Some(0);
  }

  /** The channel loop consumes exactly the waveforms the grammar sees. */
  lemma {:induction false} ChannelsConsume(r: Reader, d: seq<byte>, at: nat, n: nat, total: int)
    requires at + n * WF_SIZE <= |d| && ChannelsLen(Available(r), n).Some?
    ensures var s := Available(r); var len := ChannelsLen(s, n).value; var o := ReadChannels(r, d, at, n, total);
      o.r == After(r, len, LastEmpty(s, n)) && o.ret == total + len
    decreases n
  {
    hide WfBytes, ReadChannels, Splice;
    var s := Available(r);
    if n == 0 {
      ChannelsNone(r, d, at, total);
      SkipNone(r);
    } else {
      hide After, Skip, LastEmpty, ChannelsLen;
      var k := WfBytes(s, 0);
      ChannelsStep(r, d, at, n, total);
      var d1 := Splice(d, at, s[..k]);
      if n == 1 {
        ChannelsOne(r);
        ChannelsNone(After(r, k, k == WF_DATA), d1, at + WF_SIZE, total + k);
      } else {
        ChannelsMore(r, n);
        ChannelsConsume(Skip(r, k), d1, at + WF_SIZE, n - 1, total + k);
        AfterSkip(r, k, ChannelsLen(s[k..], n - 1).value, LastEmpty(s, n));
      }
    }
  }

  /** It leaves them in memory as the used parts of the channels. */
  lemma {:induction false} ChannelsStore(r: Reader, d: seq<byte>, at: nat, n: nat, total: int)
    requires at + n * WF_SIZE <= |d| && ChannelsLen(Available(r), n).Some?
    ensures var s := Available(r); var m := ReadChannels(r, d, at, n, total).mem;
      m[..at] == d[..at] && Used(m, at, n) == s[..ChannelsLen(s, n).value]
    decreases n
  {
    hide WfBytes, ReadChannels, Used, Splice;
    var s := Available(r);
    if n == 0 {
      ChannelsNone(r, d, at, total);
    } else {
      hide After, Skip, LastEmpty, ChannelsLen;
      var k := WfBytes(s, 0);
      ChannelsStep(r, d, at, n, total);
      var d1 := Splice(d, at, s[..k]);
      if n == 1 {
        ChannelsOne(r);
        ChannelsNone(After(r, k, k == WF_DATA), d1, at + WF_SIZE, total + k);
        EarlierStays(d1, d, at, s[..k]);
        UsedStep(d1, at, 1, s, k);
      } else {
        ChannelsMore(r, n);
        ChannelsStore(Skip(r, k), d1, at + WF_SIZE, n - 1, total + k);
        var m := ReadChannels(r, d, at, n, total).mem;
        var len := ChannelsLen(s, n).value;
        EarlierStays(m, d, at, s[..k]);
        assert s[k..][..len - k] == s[k..len];
        UsedStep(m, at, n, s, len);
      }
    }
  }

  //////////////////////////////////////////////////////////////////////////////
  // Readers, header builders and the grammar agree
  //////////////////////////////////////////////////////////////////////////////

  /** Up to here a read of a t that is not a waveform type sets the whole memory;
      only the two bytes of padding after the text of a log packet keep what they held. */
  function Kept(t: PacketType): (n: nat)
    ensures n <= InMemory(t)
  {
    if t == Logs then 2058 else InMemory(t)
  }

  /** The memory after the n bytes of a payload s have been read over d. */
  function Image(t: PacketType, n: nat, s: seq<byte>, d: seq<byte>): (m: seq<byte>)
    requires |d| == InMemory(t) && n <= |s| && n <= Kept(t)
    ensures |m| == |d|
  {
    s[..n] + Zeros(Kept(t) - n) + d[Kept(t)..]
  }

  lemma ClearAfter(d: seq<byte>, b: seq<byte>, to: nat)
    requires |b| <= to <= |d|
    ensures Clear(Splice(d, 0, b), |b|, to) == b + Zeros(to - |b|) + d[to..]
  {}

  lemma ReadsSimple(r: Reader, t: PacketType, ver: int, d: seq<byte>)
    requires Simple(t) && |d| == InMemory(t) && PayloadLen(t, ver, Available(r)).Some?
    ensures var n := PayloadLen(t, ver, Available(r)).value;
      && n <= Kept(t)
      && ReadSimple(r, t, ver, d) == Done(After(r, n, EndsEmpty(t, ver, Available(r))), Image(t, n, Available(r), d), n)
  {
    hide Skip;
    var s := Available(r);
    var n := PacketSize(t, ver);
    SizesGrow(t, ver, ver);
    ReadsAvailable(r, n);
    ClearAfter(d, s[..n], InMemory(t));
  }

  lemma FullClear(d: seq<byte>)
    ensures Clear(d, |d|, |d|) == d
  {}

  /** Once the counted part has been read in full, all the forms of zeroing the rest agree. */
  lemma TailCleared(t: PacketType, ver: int, d: seq<byte>, n: nat)
    requires Counted(t) && |d| == InMemory(t) && CountFits(t, ver, d) && n == Base(t) + Count(t, ver, d)
    ensures n <= Kept(t) && ClearTail(t, ver, d, n) == Clear(d, n, Kept(t))
  {
    hide Clear;
    FullClear(d);
  }

  lemma CountedTail(t: PacketType, ver: int, s: seq<byte>, d: seq<byte>, d2: seq<byte>)
    requires Counted(t) && |d| == |d2| == InMemory(t) && PayloadLen(t, ver, s).Some?
    requires d2 == Splice(d, 0, s[..PayloadLen(t, ver, s).value])
    ensures var n := PayloadLen(t, ver, s).value;
      n <= Kept(t) && CountFits(t, ver, d2) && ClearTail(t, ver, d2, n) == Image(t, n, s, d)
  {
    hide Count, Base, ArrayEnd, ClearTail, Kept;
    var n := PayloadLen(t, ver, s).value;
    assert d2[..Base(t)] == s[..Base(t)];
    CountLocal(t, ver, d2, s);
    TailCleared(t, ver, d2, n);
    hide Splice, Clear;
    ClearAfter(d, s[..n], Kept(t));
  }

  lemma ReadsArray(r: Reader, t: PacketType, ver: int, d: seq<byte>, c: nat)
    requires Counted(t) && |d| == InMemory(t)
    requires !Waits(r) && CountFits(t, ver, d) && Count(t, ver, d) == c <= |Available(r)|
    ensures var d1 := Splice(d, Base(t), Available(r)[..c]);
      && CountFits(t, ver, d1)
      && ReadArray(r, t, ver, d, Base(t)) == Done(After(r, c, c == 0), ClearTail(t, ver, d1, Base(t) + c), Base(t) + c)
  {
    hide Count, Base, ArrayEnd, ClearTail, ReadBytes;
    var d1 := Splice(d, Base(t), Available(r)[..c]);
    assert d[..Base(t)] == d1[..Base(t)];
    CountLocal(t, ver, d, d1);
    if c == 0 {
      ReadsNothing(r);
      SkipNone(r);
    } else {
      ReadsAvailable(r, c);
    }
  }

  lemma ReadsCounted(r: Reader, t: PacketType, ver: int, d: seq<byte>)
    requires Counted(t) && |d| == InMemory(t) && PayloadLen(t, ver, Available(r)).Some?
    ensures var s := Available(r); var n := PayloadLen(t, ver, s).value;
      n <= Kept(t) && ReadCounted(r, t, ver, d) == Done(After(r, n, EndsEmpty(t, ver, s)), Image(t, n, s, d), n)
  {
    hide Skip, After, Image, ClearTail, ReadBytes, ReadArray, Splice, Count, Kept;
    var s := Available(r);
    var b, c := Base(t), Count(t, ver, s);
    var d1 := Splice(d, 0, s[..b]);
    ReadsAvailable(r, b);
    assert d1[..b] == s[..b];
    CountLocal(t, ver, d1, s);
    ReadsArray(Skip(r, b), t, ver, d1, c);
    SkipSkip(r, b, c);
    AfterSkip(r, b, c, c == 0);
    SpliceTwice(d, 0, s[..b], s[b..b + c]);
    assert s[..b] + s[b..b + c] == s[..b + c];
    CountedTail(t, ver, s, d, Splice(d, 0, s[..b + c]));
  }

  lemma PrefixStays(t: PacketType, ver: int, d: seq<byte>, b: seq<byte>, m: seq<byte>)
    requires Waveform(t) && |m| == |d| == InMemory(t) && |b| == Prefix(t, ver)
    requires var d0 := if ver == 0 then Clear(d, READOUT_TIME, READOUT_TIME + 8) else d;
      m[..WfOffset(t)] == Splice(d0, 0, b)[..WfOffset(t)]
    ensures m[..Prefix(t, ver)] == b
    ensures ver == 0 ==> m[READOUT_TIME..READOUT_TIME + 8] == Zeros(8)
  {
    var d0 := if ver == 0 then Clear(d, READOUT_TIME, READOUT_TIME + 8) else d;
    var d1 := Splice(d0, 0, b);
    assert forall i :: 0 <= i < WfOffset(t) ==> m[i] == m[..WfOffset(t)][i] == d1[..WfOffset(t)][i] == d1[i];
  }

  lemma ReadsWaveforms(r: Reader, t: PacketType, ver: int, d: seq<byte>)
    requires Waveform(t) && |d| == InMemory(t) && PayloadLen(t, ver, Available(r)).Some?
    ensures var s := Available(r); var n := PayloadLen(t, ver, s).value; var o := ReadWaveforms(r, t, ver, d);
      && o == Done(After(r, n, EndsEmpty(t, ver, s)), o.mem, n)
      && o.mem[..Prefix(t, ver)] == s[..Prefix(t, ver)]
      && Used(o.mem, WfOffset(t), Channels(t)) == s[Prefix(t, ver)..n]
      && (ver == 0 ==> o.mem[READOUT_TIME..READOUT_TIME + 8] == Zeros(8))
  {
    hide Skip, After, Used, ReadChannels, ReadBytes, Splice, LastEmpty, ChannelsLen;
    var s := Available(r);
    var p := Prefix(t, ver);
    var n := PayloadLen(t, ver, s).value;
    var d0 := if ver == 0 then Clear(d, READOUT_TIME, READOUT_TIME + 8) else d;
    var d1 := Splice(d0, 0, s[..p]);
    ReadsAvailable(r, p);
    assert ReadWaveforms(r, t, ver, d) == ReadChannels(Skip(r, p), d1, WfOffset(t), Channels(t), p);
    ChannelsConsume(Skip(r, p), d1, WfOffset(t), Channels(t), p);
    ChannelsStore(Skip(r, p), d1, WfOffset(t), Channels(t), p);
    AfterSkip(r, p, n - p, EndsEmpty(t, ver, s));
    PrefixStays(t, ver, d, s[..p], ReadWaveforms(r, t, ver, d).mem);
    assert s[p..][..n - p] == s[p..n];
  }

  lemma WireOfImage(t: PacketType, ver: int, s: seq<byte>, d: seq<byte>)
    requires !Waveform(t) && |d| == InMemory(t) && PayloadLen(t, ver, s).Some?
    requires PayloadLen(t, ver, s).value <= Kept(t)
    ensures var n := PayloadLen(t, ver, s).value; var m := Image(t, n, s, d);
      Sendable(t, ver, m) && Wire(t, ver, m) == s[..n]
  {
    var n := PayloadLen(t, ver, s).value;
    var m := Image(t, n, s, d);
    assert m[..n] == s[..n];
    if Counted(t) {
      assert m[..Base(t)] == m[..n][..Base(t)] == s[..Base(t)];
      CountLocal(t, ver, m, s);
    }
  }

  lemma WireOfWaveforms(t: PacketType, ver: int, s: seq<byte>, m: seq<byte>)
    requires Waveform(t) && |m| == InMemory(t) && PayloadLen(t, ver, s).Some?
    requires m[..Prefix(t, ver)] == s[..Prefix(t, ver)]
    requires Used(m, WfOffset(t), Channels(t)) == s[Prefix(t, ver)..PayloadLen(t, ver, s).value]
    ensures Sendable(t, ver, m) && Wire(t, ver, m) == s[..PayloadLen(t, ver, s).value]
  {
    hide Used;
    var p, n := Prefix(t, ver), PayloadLen(t, ver, s).value;
    assert s[..p] + s[p..n] == s[..n];
  }

  /** mem holds, as far as version `ver` sends it, exactly the payload b. */
  ghost predicate Stores(t: PacketType, ver: int, mem: seq<byte>, b: seq<byte>) {
    Sendable(t, ver, mem) && Wire(t, ver, mem) == b
  }

  /** Memory d has been filled from the n bytes of a payload s: it stores the payload,
      and outside waveforms nothing but padding of a log packet is left of d. */
  ghost predicate Filled(t: PacketType, ver: int, s: seq<byte>, n: nat, d: seq<byte>, mem: seq<byte>)
    requires |d| == InMemory(t) && n <= |s|
  {
    && Stores(t, ver, mem, s[..n])
    && (!Waveform(t) ==> n <= Kept(t) && mem == Image(t, n, s, d))
    && (Waveform(t) && ver == 0 ==> mem[READOUT_TIME..READOUT_TIME + 8] == Zeros(8))
  }

  /** The three-way agreement, on arbitrary bytes: if the bytes at hand start with a
      payload of version `ver`, the reader consumes exactly that payload, and the
      wire image of the memory it leaves, whose length and checksum the header builder
      takes, is that payload. */
  lemma ReadsPayload(r: Reader, t: PacketType, ver: int, d: seq<byte>, n: nat)
    requires |d| == InMemory(t) && PayloadLen(t, ver, Available(r)) == Some(n)
    ensures var s := Available(r); var o := ReadPacket(r, t, ver, d);
      o == Done(After(r, n, EndsEmpty(t, ver, s)), o.mem, n) && Filled(t, ver, s, n, d, o.mem)
  {
    hide After, Image, Sendable, Wire, ReadSimple, ReadCounted, ReadWaveforms, PayloadLen, EndsEmpty, Kept;
    var s := Available(r);
    if Simple(t) {
      ReadsSimple(r, t, ver, d);
      WireOfImage(t, ver, s, d);
    } else if Waveform(t) {
      ReadsWaveforms(r, t, ver, d);
      WireOfWaveforms(t, ver, s, ReadWaveforms(r, t, ver, d).mem);
    } else {
      ReadsCounted(r, t, ver, d);
      WireOfImage(t, ver, s, d);
    }
  }

  //////////////////////////////////////////////////////////////////////////////
  // The grammar is prefix-free, and writers obey it
  //////////////////////////////////////////////////////////////////////////////

  lemma SameSlice(s: seq<byte>, s': seq<byte>, n: nat, a: nat, b: nat)
    requires a <= b <= n <= |s| && n <= |s'| && s[..n] == s'[..n]
    ensures s[a..b] == s'[a..b]
  {
    assert s[a..b] == s[..n][a..b];
    assert s'[a..b] == s'[..n][a..b];
  }

  lemma TailSlice(s: seq<byte>, a: nat, b: nat)
    requires a <= b <= |s|
    ensures s[a..][..b - a] == s[a..b]
  {}

  /** The first waveform, and what is compared behind it. */
  lemma FirstLocal(s: seq<byte>, s': seq<byte>, len: nat)
    requires WF_DATA <= |s| && WfBytes(s, 0) <= len <= |s| && len <= |s'| && s[..len] == s'[..len]
    ensures var k := WfBytes(s, 0);
      WfBytes(s', 0) == k && s[k..][..len - k] == s'[k..][..len - k]
  {
    hide U16At;
    var k := WfBytes(s, 0);
    SameSlice(s, s', len, 0, WF_DATA);
    WfBytesLocal(s, 0, s', 0);
    SameSlice(s, s', len, k, len);
    TailSlice(s, k, len);
    TailSlice(s', k, len);
  }

  lemma LenStep(s: seq<byte>, n: nat)
    requires n > 0 && WF_DATA <= |s| && WfBytes(s, 0) <= |s|
    ensures var k := WfBytes(s, 0); var rest := ChannelsLen(s[k..], n - 1);
      && ChannelsLen(s, n) == (if rest.None? then None else Some(k + rest.value))
      && (rest.Some? ==> LastEmpty(s, n) == if n == 1 then k == WF_DATA else LastEmpty(s[k..], n - 1))
  {
    hide WfBytes;
  }

  lemma LenFirst(s: seq<byte>, n: nat)
    requires n > 0 && ChannelsLen(s, n).Some?
    ensures WF_DATA <= |s| && WfBytes(s, 0) <= ChannelsLen(s, n).value
    ensures ChannelsLen(s[WfBytes(s, 0)..], n - 1).Some?
  {
    hide WfBytes;
  }

  lemma {:induction false} ChannelsLocal(s: seq<byte>, s': seq<byte>, n: nat)
    requires ChannelsLen(s, n).Some?
    requires var len := ChannelsLen(s, n).value; len <= |s'| && s[..len] == s'[..len]
    ensures ChannelsLen(s', n) == ChannelsLen(s, n) && LastEmpty(s', n) == LastEmpty(s, n)
    decreases n
  {
    if n > 0 {
      hide WfBytes, ChannelsLen, LastEmpty;
      LenFirst(s, n);
      var k, len := WfBytes(s, 0), ChannelsLen(s, n).value;
      FirstLocal(s, s', len);
      LenStep(s, n);
      LenStep(s', n);
      ChannelsLocal(s[k..], s'[k..], n - 1);
    }
  }

  lemma WaveformLocal(t: PacketType, ver: int, s: seq<byte>, s': seq<byte>)
    requires Waveform(t) && PayloadLen(t, ver, s).Some?
    requires var n := PayloadLen(t, ver, s).value; n <= |s'| && s[..n] == s'[..n]
    ensures PayloadLen(t, ver, s') == PayloadLen(t, ver, s) && EndsEmpty(t, ver, s') == EndsEmpty(t, ver, s)
  {
    hide ChannelsLen, LastEmpty;
    var n, p := PayloadLen(t, ver, s).value, Prefix(t, ver);
    SameSlice(s, s', n, p, n);
    TailSlice(s, p, n);
    TailSlice(s', p, n);
    ChannelsLocal(s[p..], s'[p..], Channels(t));
  }

  lemma CountedLocal(t: PacketType, ver: int, s: seq<byte>, s': seq<byte>)
    requires Counted(t) && PayloadLen(t, ver, s).Some?
    requires var n := PayloadLen(t, ver, s).value; n <= |s'| && s[..n] == s'[..n]
    ensures PayloadLen(t, ver, s') == PayloadLen(t, ver, s) && EndsEmpty(t, ver, s') == EndsEmpty(t, ver, s)
  {
    hide Count;
    SameSlice(s, s', PayloadLen(t, ver, s).value, 0, Base(t));
    assert s[..Base(t)] == s'[..Base(t)];
    CountLocal(t, ver, s, s');
  }

  /** Whether bytes start with a payload is settled by the bytes of the payload. */
  lemma PayloadLocal(t: PacketType, ver: int, s: seq<byte>, s': seq<byte>)
    requires PayloadLen(t, ver, s).Some?
    requires var n := PayloadLen(t, ver, s).value; n <= |s'| && s[..n] == s'[..n]
    ensures PayloadLen(t, ver, s') == PayloadLen(t, ver, s) && EndsEmpty(t, ver, s') == EndsEmpty(t, ver, s)
  {
    if Waveform(t) {
      WaveformLocal(t, ver, s, s');
    } else if Counted(t) {
      CountedLocal(t, ver, s, s');
    }
  }

  lemma UsedFirst(m: seq<byte>, at: nat, n: nat)
    requires n > 0 && at + n * WF_SIZE <= |m|
    ensures var w := Used(m, at, n); var k := WfBytes(m, at);
      && k <= |w| && WF_DATA <= |w| && WfBytes(w, 0) == k
      && w[..k] == m[at..at + k] && w[k..] == Used(m, at + WF_SIZE, n - 1)
  {
    var w := Used(m, at, n);
    var k := WfBytes(m, at);
    assert w == m[at..at + k] + Used(m, at + WF_SIZE, n - 1);
    hide WfBytes, Used;
    assert w[0..WF_DATA] == m[at..at + WF_DATA];
    WfBytesLocal(w, 0, m, at);
  }

  lemma {:induction false} UsedIsChannels(m: seq<byte>, at: nat, n: nat)
    requires at + n * WF_SIZE <= |m|
    ensures ChannelsLen(Used(m, at, n), n) == Some(|Used(m, at, n)|)
    decreases n
  {
    if n > 0 {
      hide WfBytes, Used;
      UsedFirst(m, at, n);
      UsedIsChannels(m, at + WF_SIZE, n - 1);
    }
  }

  lemma WaveformWireIsPayload(t: PacketType, ver: int, m: seq<byte>)
    requires Waveform(t) && Sendable(t, ver, m)
    ensures PayloadLen(t, ver, Wire(t, ver, m)) == Some(|Wire(t, ver, m)|)
  {
    hide Used, ChannelsLen;
    UsedIsChannels(m, WfOffset(t), Channels(t));
    assert Wire(t, ver, m)[Prefix(t, ver)..] == Used(m, WfOffset(t), Channels(t));
  }

  lemma CountedWireIsPayload(t: PacketType, ver: int, m: seq<byte>)
    requires Counted(t) && Sendable(t, ver, m)
    ensures PayloadLen(t, ver, Wire(t, ver, m)) == Some(|Wire(t, ver, m)|)
  {
    hide Count, InMemory;
    var w := Wire(t, ver, m);
    assert w[..Base(t)] == m[..Base(t)];
    CountLocal(t, ver, w, m);
  }

  /** What a writer emits for any sendable memory is a payload of that length. */
  lemma WireIsPayload(t: PacketType, ver: int, m: seq<byte>)
    requires Sendable(t, ver, m)
    ensures PayloadLen(t, ver, Wire(t, ver, m)) == Some(|Wire(t, ver, m)|)
  {
    if Simple(t) {
      SizesGrow(t, ver, Latest(t));
    } else if Waveform(t) {
      WaveformWireIsPayload(t, ver, m);
    } else {
      CountedWireIsPayload(t, ver, m);
    }
  }

  //////////////////////////////////////////////////////////////////////////////
  // The wire image determines the contents
  //////////////////////////////////////////////////////////////////////////////

  /** n channels have the same headers and the same samples, as far as they are used. */
  ghost predicate SameChannels(m: seq<byte>, m': seq<byte>, at: nat, n: nat)
    requires at + n * WF_SIZE <= |m| == |m'|
    decreases n
  {
    n > 0 ==>
      && WfBytes(m', at) == WfBytes(m, at)
      && m[at..at + WfBytes(m, at)] == m'[at..at + WfBytes(m, at)]
      && SameChannels(m, m', at + WF_SIZE, n - 1)
  }

  lemma SameStep(m: seq<byte>, m': seq<byte>, at: nat, n: nat)
    requires n > 0 && at + n * WF_SIZE <= |m| == |m'| && WfBytes(m', at) == WfBytes(m, at)
    requires m[at..at + WfBytes(m, at)] == m'[at..at + WfBytes(m, at)] && SameChannels(m, m', at + WF_SIZE, n - 1)
    ensures SameChannels(m, m', at, n)
  {
    hide WfBytes;
  }

  lemma {:induction false} UsedDetermines(m: seq<byte>, m': seq<byte>, at: nat, n: nat)
    requires at + n * WF_SIZE <= |m| == |m'| && Used(m, at, n) == Used(m', at, n)
    ensures SameChannels(m, m', at, n)
    decreases n
  {
    if n > 0 {
      hide WfBytes, Used, SameChannels;
      UsedFirst(m, at, n);
      UsedFirst(m', at, n);
      UsedDetermines(m, m', at + WF_SIZE, n - 1);
      SameStep(m, m', at, n);
    }
  }

  //////////////////////////////////////////////////////////////////////////////
  // Length and count fields
  //////////////////////////////////////////////////////////////////////////////

  /** s and s' agree on the length fields of the n waveforms with which s starts. */
  ghost predicate SameChannelLengths(s: seq<byte>, s': seq<byte>, n: nat)
    requires |s| == |s'| && ChannelsLen(s, n).Some?
    decreases n
  {
    n > 0 ==>
      && s[2] == s'[2] && s[3] == s'[3]
      && SameChannelLengths(s[WfBytes(s, 0)..], s'[WfBytes(s, 0)..], n - 1)
  }

  /** The places of the fields that Count reads. */
  function CountFields(t: PacketType): (f: set<nat>)
    requires Counted(t)
    ensures forall i :: i in f ==> i < Base(t)
  {
    match t
    case SensorsDisk => {0, 1}
    case SensorsTelem => {6, 7}
    case CmdEcho => {4}
    case FileDownload => {38, 39}
    case Logs => {6, 7, 8, 9}
    case NavSat => {17}
  }

  /** s and s' agree on every field that the length of the payload s depends on. */
  ghost predicate SameLengthFields(t: PacketType, ver: int, s: seq<byte>, s': seq<byte>)
    requires |s| == |s'| && PayloadLen(t, ver, s).Some?
  {
    && (Waveform(t) ==> SameChannelLengths(s[Prefix(t, ver)..], s'[Prefix(t, ver)..], Channels(t)))
    && (Counted(t) ==> forall i :: i in CountFields(t) ==> s[i] == s'[i])
  }

  lemma FirstLengths(s: seq<byte>, s': seq<byte>, n: nat)
    requires n > 0 && |s| == |s'| && ChannelsLen(s, n).Some? && SameChannelLengths(s, s', n)
    ensures WF_DATA <= |s| && WfBytes(s, 0) <= |s| && WfBytes(s', 0) == WfBytes(s, 0)
    ensures ChannelsLen(s[WfBytes(s, 0)..], n - 1).Some?
    ensures SameChannelLengths(s[WfBytes(s, 0)..], s'[WfBytes(s, 0)..], n - 1)
  {
    LenFirst(s, n);
    hide ChannelsLen;
  }

  lemma {:induction false} ChannelLengthsDecide(s: seq<byte>, s': seq<byte>, n: nat)
    requires |s| == |s'| && ChannelsLen(s, n).Some? && SameChannelLengths(s, s', n)
    ensures ChannelsLen(s', n) == ChannelsLen(s, n) && LastEmpty(s', n) == LastEmpty(s, n)
    decreases n
  {
    if n > 0 {
      hide WfBytes, ChannelsLen, LastEmpty, SameChannelLengths;
      FirstLengths(s, s', n);
      var k := WfBytes(s, 0);
      LenStep(s, n);
      LenStep(s', n);
      ChannelLengthsDecide(s[k..], s'[k..], n - 1);
    }
  }

  lemma CountFieldsDecide(t: PacketType, ver: int, s: seq<byte>, s': seq<byte>)
    requires Counted(t) && Base(t) <= |s| == |s'|
    requires forall i :: i in CountFields(t) ==> s[i] == s'[i]
    ensures Count(t, ver, s') == Count(t, ver, s)
  {
    match t
    case SensorsDisk => assert 0 in CountFields(t) && 1 in CountFields(t);
    case SensorsTelem => assert 6 in CountFields(t) && 7 in CountFields(t);
    case CmdEcho => assert 4 in CountFields(t);
    case FileDownload => assert 38 in CountFields(t) && 39 in CountFields(t);
    case Logs => assert 6 in CountFields(t) && 7 in CountFields(t) && 8 in CountFields(t) && 9 in CountFields(t);
    case NavSat => assert 17 in CountFields(t);
  }

  /** Changing bytes outside the length and count fields does not change where a payload ends. */
  lemma LengthFieldsDecide(t: PacketType, ver: int, s: seq<byte>, s': seq<byte>)
    requires |s| == |s'| && PayloadLen(t, ver, s).Some? && SameLengthFields(t, ver, s, s')
    ensures PayloadLen(t, ver, s') == PayloadLen(t, ver, s) && EndsEmpty(t, ver, s') == EndsEmpty(t, ver, s)
  {
    hide LastEmpty, ChannelsLen, SameChannelLengths, Count, CountFields;
    if Waveform(t) {
      ChannelLengthsDecide(s[Prefix(t, ver)..], s'[Prefix(t, ver)..], Channels(t));
    } else if Counted(t) {
      CountFieldsDecide(t, ver, s, s');
    }
  }
}
