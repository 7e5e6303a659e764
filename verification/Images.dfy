/** Wire images part by part, told from the fields of the struct: records, texts and channels,
    each with the bytes it occupies. */
module Images {
  import opened Crc
  import opened Versions
  import opened Packets
  import opened Reading
  import opened Grammar

  //////////////////////////////////////////////////////////////////////////////
  // Parts
  //////////////////////////////////////////////////////////////////////////////

  lemma RecordFits(w: nat, n: nat)
    requires n > 0
    ensures n * w == w + (n - 1) * w && w <= n * w
  {}

  /** n records of w bytes each, from m[at..] on. */
  function Records(m: seq<byte>, at: nat, w: nat, n: nat): (ps: seq<seq<byte>>)
    requires at + n * w <= |m|
    ensures |ps| == n
    decreases n
  {
    if n == 0 then []
    else
      RecordFits(w, n);
      [m[at..at + w]] + Records(m, at + w, w, n - 1)
  }

  /** The used parts of n waveforms from m[at..] on: four bytes and the samples, as many as the
      length says, and 1024 at most. */
  function ChannelParts(m: seq<byte>, at: nat, n: nat): (ps: seq<seq<byte>>)
    requires at + n * 2052 <= |m|
    ensures |ps| == n
    decreases n
  {
    if n == 0 then []
    else
      [m[at..at + 4 + 2 * Min(LittleEndian(m[at + 2..at + 4]), 1024)]] + ChannelParts(m, at + 2052, n - 1)
  }

  /** The number of sensors or satellites, and the lengths of texts and data, are in range. */
  predicate InRange(t: PacketType, ver: int, m: seq<byte>)
    requires |m| == InMemory(t)
  {
    match t
    case SensorsDisk => ver == 0 || LittleEndian(m[0..2]) <= 256
    case SensorsTelem => ver == 0 || LittleEndian(m[6..8]) <= 256
    case FileDownload => LittleEndian(m[38..40]) <= 65000
    case Logs => LittleEndian(m[6..7]) + LittleEndian(m[7..8]) + LittleEndian(m[8..10]) <= 2048
    case _ => true
  }

  lemma OneByte(m: seq<byte>, at: nat)
    requires at < |m|
    ensures LittleEndian(m[at..at + 1]) == m[at] as int < 256
  {
    assert m[at..at + 1][1..] == [];
  }

  /** The parts that version `ver` of m sends behind the fixed part: of a log the daemon's text,
      what to grep for, and the messages; of the sensor types the sensors, all of them in
      version 0; the satellites in view; the data of a file or a command; the channels. */
  function Parts(t: PacketType, ver: int, m: seq<byte>): seq<seq<byte>>
    requires |m| == InMemory(t) && InRange(t, ver, m)
  {
    match t
    case FullWaveforms => ChannelParts(m, 48, 224)
    case SingleWaveform => ChannelParts(m, 50, 1)
    case SensorsDisk => Records(m, 4, 12, if ver == 0 then 256 else LittleEndian(m[0..2]))
    case SensorsTelem => Records(m, 8, 4, if ver == 0 then 256 else LittleEndian(m[6..8]))
    case NavSat =>
      OneByte(m, 17);
      Records(m, 20, 10, LittleEndian(m[17..18]))
    case CmdEcho =>
      OneByte(m, 4);
      [m[8..8 + LittleEndian(m[4..5]) + 1]]
    case FileDownload => [m[40..40 + LittleEndian(m[38..40])]]
    case Logs =>
      var daemon, grep, msg := LittleEndian(m[6..7]), LittleEndian(m[7..8]), LittleEndian(m[8..10]);
      [m[10..10 + daemon], m[10 + daemon..10 + daemon + grep], m[10 + daemon + grep..10 + daemon + grep + msg]]
    case _ => []
  }

  /** The size of the fixed part. */
  function Fixed(t: PacketType, ver: int): int {
    if Simple(t) then PacketSize(t, ver) else if Waveform(t) then Prefix(t, ver) else Base(t)
  }

  //////////////////////////////////////////////////////////////////////////////
  // The wire image is the fixed part and the parts
  //////////////////////////////////////////////////////////////////////////////

  lemma {:induction false} RecordsJoin(m: seq<byte>, at: nat, w: nat, n: nat)
    requires at + n * w <= |m|
    ensures Flatten(Records(m, at, w, n)) == m[at..at + n * w]
    decreases n
  {
    if n > 0 {
      RecordFits(w, n);
      RecordsJoin(m, at + w, w, n - 1);
      assert m[at..at + w] + m[at + w..at + n * w] == m[at..at + n * w];
    }
  }

  lemma FirstPart(m: seq<byte>, at: nat, n: nat)
    requires n > 0 && at + n * WF_SIZE <= |m|
    ensures ChannelParts(m, at, n) == [m[at..at + WfBytes(m, at)]] + ChannelParts(m, at + WF_SIZE, n - 1)
  {
    hide LittleEndian, U16At;
    U16IsLittleEndian(m, at + 2);
  }

  lemma {:induction false} ChannelsJoin(m: seq<byte>, at: nat, n: nat)
    requires at + n * WF_SIZE <= |m|
    ensures Flatten(ChannelParts(m, at, n)) == Used(m, at, n)
    decreases n
  {
    if n > 0 {
      hide ChannelParts, WfBytes;
      FirstPart(m, at, n);
      ChannelsJoin(m, at + WF_SIZE, n - 1);
    }
  }

  lemma JoinOne(a: seq<byte>)
    ensures Flatten([a]) == a
  {
    assert [a][1..] == [];
  }

  lemma JoinThree(a: seq<byte>, b: seq<byte>, c: seq<byte>)
    ensures Flatten([a, b, c]) == a + b + c
  {
    assert [a, b, c][1..] == [b, c] && [b, c][1..] == [c];
    JoinOne(c);
  }

  lemma CountIs(t: PacketType, ver: int, m: seq<byte>)
    requires Counted(t) && |m| == InMemory(t)
    ensures Count(t, ver, m) ==
      match t
      case SensorsDisk => (if ver == 0 then 256 else LittleEndian(m[0..2])) * 12
      case SensorsTelem => (if ver == 0 then 256 else LittleEndian(m[6..8])) * 4
      case CmdEcho => LittleEndian(m[4..5]) + 1
      case FileDownload => LittleEndian(m[38..40])
      case Logs => LittleEndian(m[6..7]) + LittleEndian(m[7..8]) + LittleEndian(m[8..10])
      case NavSat => LittleEndian(m[17..18]) * 10
  {
    match t
    case SensorsDisk => U16IsLittleEndian(m, 0);
    case SensorsTelem => U16IsLittleEndian(m, 6);
    case CmdEcho => OneByte(m, 4);
    case FileDownload => U16IsLittleEndian(m, 38);
    case Logs =>
      OneByte(m, 6);
      OneByte(m, 7);
      U16IsLittleEndian(m, 8);
    case NavSat => OneByte(m, 17);
  }

  /** A struct has a wire image iff its counts are in range, and, if it is of a plain type, the
      version exists. */
  lemma SendableIs(t: PacketType, ver: int, m: seq<byte>)
    requires |m| == InMemory(t)
    ensures Sendable(t, ver, m) <==> InRange(t, ver, m) && (Simple(t) ==> 0 <= ver <= Latest(t))
  {
    hide Count, LittleEndian;
    if Counted(t) {
      CountIs(t, ver, m);
      if t.NavSat? {
        OneByte(m, 17);
      } else if t.CmdEcho? {
        OneByte(m, 4);
      }
    }
  }

  lemma LogParts(ver: int, m: seq<byte>)
    requires |m| == InMemory(Logs) && InRange(Logs, ver, m)
    ensures 10 + Count(Logs, ver, m) <= |m|
    ensures Flatten(Parts(Logs, ver, m)) == m[10..10 + Count(Logs, ver, m)]
  {
    hide Count, LittleEndian, Flatten;
    CountIs(Logs, ver, m);
    var ps := Parts(Logs, ver, m);
    JoinThree(ps[0], ps[1], ps[2]);
    var a, b := 10 + |ps[0]|, 10 + |ps[0]| + |ps[1]|;
    assert m[10..a] + m[a..b] == m[10..b];
    assert m[10..b] + m[b..b + |ps[2]|] == m[10..b + |ps[2]|];
  }

  lemma DataParts(t: PacketType, ver: int, m: seq<byte>)
    requires t.CmdEcho? || t.FileDownload?
    requires |m| == InMemory(t) && InRange(t, ver, m)
    ensures Base(t) + Count(t, ver, m) <= |m|
    ensures Flatten(Parts(t, ver, m)) == m[Base(t)..Base(t) + Count(t, ver, m)]
  {
    hide Count, LittleEndian, Flatten;
    CountIs(t, ver, m);
    OneByte(m, 4);
    JoinOne(Parts(t, ver, m)[0]);
  }

  lemma RecordParts(t: PacketType, ver: int, m: seq<byte>)
    requires t.SensorsDisk? || t.SensorsTelem? || t.NavSat?
    requires |m| == InMemory(t) && InRange(t, ver, m)
    ensures Base(t) + Count(t, ver, m) <= |m|
    ensures Flatten(Parts(t, ver, m)) == m[Base(t)..Base(t) + Count(t, ver, m)]
  {
    hide Count, LittleEndian, Flatten, Records;
    CountIs(t, ver, m);
    if t.SensorsDisk? {
      RecordsJoin(m, 4, 12, if ver == 0 then 256 else LittleEndian(m[0..2]));
    } else if t.SensorsTelem? {
      RecordsJoin(m, 8, 4, if ver == 0 then 256 else LittleEndian(m[6..8]));
    } else {
      OneByte(m, 17);
      RecordsJoin(m, 20, 10, LittleEndian(m[17..18]));
    }
  }

  lemma CountedParts(t: PacketType, ver: int, m: seq<byte>)
    requires Counted(t) && |m| == InMemory(t) && InRange(t, ver, m)
    ensures Base(t) + Count(t, ver, m) <= |m|
    ensures Flatten(Parts(t, ver, m)) == m[Base(t)..Base(t) + Count(t, ver, m)]
  {
    hide Count, Flatten, Parts, InRange, LittleEndian;
    SendableIs(t, ver, m);
    match t
    case SensorsDisk | SensorsTelem | NavSat => RecordParts(t, ver, m);
    case CmdEcho | FileDownload => DataParts(t, ver, m);
    case Logs => LogParts(ver, m);
  }

  lemma NoParts()
    ensures Flatten([]) == []
  {}

  /** What a struct puts on the wire is its fixed part and its parts, in order and nothing else. */
  lemma WireIsParts(t: PacketType, ver: int, m: seq<byte>)
    requires Sendable(t, ver, m)
    ensures InRange(t, ver, m) && 0 <= Fixed(t, ver) <= |m|
    ensures Wire(t, ver, m) == m[..Fixed(t, ver)] + Flatten(Parts(t, ver, m))
  {
    hide Count, LittleEndian, Flatten, Records, ChannelParts, Used;
    SendableIs(t, ver, m);
    if Simple(t) {
      SizesGrow(t, ver, Latest(t));
      NoParts();
    } else if Waveform(t) {
      ChannelsJoin(m, WfOffset(t), Channels(t));
    } else {
      CountedParts(t, ver, m);
      var b, n := Base(t), Base(t) + Count(t, ver, m);
      assert m[..b] + m[b..n] == m[..n];
    }
  }

  //////////////////////////////////////////////////////////////////////////////
  // The wire image determines the parts
  //////////////////////////////////////////////////////////////////////////////

  /** Sequences of parts of the same sizes are told apart by what they join to. */
  lemma {:induction false} JoinDetermines(ps: seq<seq<byte>>, qs: seq<seq<byte>>)
    requires |ps| == |qs| && Flatten(ps) == Flatten(qs)
    requires forall i :: 0 <= i < |ps| ==> |ps[i]| == |qs[i]|
    ensures ps == qs
    decreases |ps|
  {
    if ps != [] {
      var a, b := Flatten(ps), Flatten(qs);
      assert ps[0] == a[..|ps[0]|] && qs[0] == b[..|ps[0]|];
      assert Flatten(ps[1..]) == a[|ps[0]|..] && Flatten(qs[1..]) == b[|ps[0]|..];
      JoinDetermines(ps[1..], qs[1..]);
      assert ps == [ps[0]] + ps[1..] && qs == [qs[0]] + qs[1..];
    }
  }

  lemma {:induction false} RecordSizes(m: seq<byte>, at: nat, w: nat, n: nat)
    requires at + n * w <= |m|
    ensures forall p :: p in Records(m, at, w, n) ==> |p| == w
    decreases n
  {
    if n > 0 {
      RecordFits(w, n);
      RecordSizes(m, at + w, w, n - 1);
    }
  }

  lemma {:induction false} ChannelsDetermined(m: seq<byte>, m': seq<byte>, at: nat, n: nat)
    requires at + n * WF_SIZE <= |m| == |m'| && Used(m, at, n) == Used(m', at, n)
    ensures ChannelParts(m, at, n) == ChannelParts(m', at, n)
    decreases n
  {
    if n > 0 {
      hide Used, ChannelParts, WfBytes;
      UsedFirst(m, at, n);
      UsedFirst(m', at, n);
      FirstPart(m, at, n);
      FirstPart(m', at, n);
      ChannelsDetermined(m, m', at + WF_SIZE, n - 1);
    }
  }

  lemma SameField(m: seq<byte>, m': seq<byte>, n: nat, a: nat, b: nat)
    requires a <= b <= n <= |m| && n <= |m'| && m[..n] == m'[..n]
    ensures m[a..b] == m'[a..b]
  {
    SameSlice(m, m', n, a, b);
  }

  lemma SameSizes(t: PacketType, ver: int, m: seq<byte>, m': seq<byte>)
    requires Counted(t) && |m| == |m'| == InMemory(t) && m[..Base(t)] == m'[..Base(t)]
    requires InRange(t, ver, m) && InRange(t, ver, m')
    ensures |Parts(t, ver, m)| == |Parts(t, ver, m')|
    ensures forall i :: 0 <= i < |Parts(t, ver, m)| ==> |Parts(t, ver, m)[i]| == |Parts(t, ver, m')[i]|
  {
    hide LittleEndian, Records;
    match t
    case SensorsDisk =>
      SameField(m, m', 4, 0, 2);
      RecordSizes(m, 4, 12, if ver == 0 then 256 else LittleEndian(m[0..2]));
      RecordSizes(m', 4, 12, if ver == 0 then 256 else LittleEndian(m[0..2]));
    case SensorsTelem =>
      SameField(m, m', 8, 6, 8);
      RecordSizes(m, 8, 4, if ver == 0 then 256 else LittleEndian(m[6..8]));
      RecordSizes(m', 8, 4, if ver == 0 then 256 else LittleEndian(m[6..8]));
    case NavSat =>
      SameField(m, m', 20, 17, 18);
      OneByte(m, 17);
      RecordSizes(m, 20, 10, LittleEndian(m[17..18]));
      RecordSizes(m', 20, 10, LittleEndian(m[17..18]));
    case CmdEcho =>
      SameField(m, m', 8, 4, 5);
      OneByte(m, 4);
    case FileDownload => SameField(m, m', 40, 38, 40);
    case Logs =>
      SameField(m, m', 10, 6, 7);
      SameField(m, m', 10, 7, 8);
      SameField(m, m', 10, 8, 10);
  }

  lemma CountedDetermined(t: PacketType, ver: int, m: seq<byte>, m': seq<byte>)
    requires Counted(t) && Sendable(t, ver, m) && Sendable(t, ver, m')
    requires Wire(t, ver, m) == Wire(t, ver, m')
    ensures InRange(t, ver, m) && InRange(t, ver, m') && Parts(t, ver, m) == Parts(t, ver, m')
  {
    hide Count, InRange, Parts, Flatten, InMemory;
    SendableIs(t, ver, m);
    SendableIs(t, ver, m');
    var w, w' := Wire(t, ver, m), Wire(t, ver, m');
    assert m[..Base(t)] == w[..Base(t)] && m'[..Base(t)] == w'[..Base(t)];
    SameSizes(t, ver, m, m');
    WireIsParts(t, ver, m);
    WireIsParts(t, ver, m');
    assert Flatten(Parts(t, ver, m)) == w[Base(t)..] && Flatten(Parts(t, ver, m')) == w'[Base(t)..];
    JoinDetermines(Parts(t, ver, m), Parts(t, ver, m'));
  }

  lemma OtherParts(t: PacketType, ver: int, m: seq<byte>)
    requires |m| == InMemory(t) && !Counted(t)
    ensures InRange(t, ver, m)
    ensures Parts(t, ver, m) == if Waveform(t) then ChannelParts(m, WfOffset(t), Channels(t)) else []
  {
    hide ChannelParts;
  }

  /** Structs with the same wire image have the same fixed part and the same parts. */
  lemma ImagesDetermine(t: PacketType, ver: int, m: seq<byte>, m': seq<byte>)
    requires Sendable(t, ver, m) && Sendable(t, ver, m') && Wire(t, ver, m) == Wire(t, ver, m')
    ensures InRange(t, ver, m) && InRange(t, ver, m') && 0 <= Fixed(t, ver) <= InMemory(t)
    ensures m[..Fixed(t, ver)] == m'[..Fixed(t, ver)] && Parts(t, ver, m) == Parts(t, ver, m')
  {
    hide Count, Parts, Flatten, Used, InRange, ChannelParts;
    WireIsParts(t, ver, m);
    WireIsParts(t, ver, m');
    var w, f := Wire(t, ver, m), Fixed(t, ver);
    assert m[..f] == w[..f] && m'[..f] == w[..f];
    if Counted(t) {
      CountedDetermined(t, ver, m, m');
    } else {
      OtherParts(t, ver, m);
      OtherParts(t, ver, m');
      if Waveform(t) {
        assert Used(m, WfOffset(t), Channels(t)) == w[f..] && Used(m', WfOffset(t), Channels(t)) == w[f..];
        ChannelsDetermined(m, m', WfOffset(t), Channels(t));
      }
    }
  }

  //////////////////////////////////////////////////////////////////////////////
  // The greatest event
  //////////////////////////////////////////////////////////////////////////////

  /** The length field of a channel holds the number x. */
  predicate HasLength(m: seq<byte>, at: nat, x: bv16)
    requires at + 4 <= |m|
  {
    m[at + 2] == LowByte(x) && m[at + 3] == HighByte(x)
  }

  lemma LengthIs(m: seq<byte>, at: nat, x: bv16)
    requires at + 4 <= |m| && HasLength(m, at, x)
    ensures WfBytes(m, at) == 4 + 2 * Min(x as int, 1024)
  {
    hide LowByte, HighByte;
    U16OfBytes(x);
  }

  ghost predicate AllFull(m: seq<byte>, at: nat, n: nat)
    requires at + n * WF_SIZE <= |m|
    decreases n
  {
    n > 0 ==> HasLength(m, at, 1024) && AllFull(m, at + WF_SIZE, n - 1)
  }

  lemma {:induction false} FullChannels(m: seq<byte>, at: nat, n: nat)
    requires at + n * WF_SIZE <= |m| && AllFull(m, at, n)
    ensures Used(m, at, n) == m[at..at + n * WF_SIZE]
    decreases n
  {
    if n > 0 {
      hide HasLength, WfBytes;
      LengthIs(m, at, 1024);
      FullChannels(m, at + WF_SIZE, n - 1);
      var mid, end := at + WF_SIZE, at + n * WF_SIZE;
      assert m[at..mid] + m[mid..end] == m[at..end];
    }
  }

  /** An event of 224 channels with 1024 samples each is sent whole: its length is the
      greatest there is. */
  lemma GreatestEvent(m: seq<byte>)
    requires |m| == InMemory(FullWaveforms) && AllFull(m, 48, 224)
    ensures Sendable(FullWaveforms, 1, m) && Wire(FullWaveforms, 1, m) == m
    ensures HeaderFor(FullWaveforms, 1, m).numBytes == 459696
  {
    hide AllFull, Used, Continue;
    FullChannels(m, 48, 224);
    assert m[..48] + m[48..459696] == m;
  }
}
