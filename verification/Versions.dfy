/** The packet types of the dispatch table (inc/pueo/rawio.h), their codes, their
    in-memory sizes and the version size tables of src/rawio_versions.c. Sizes and
    offsets are those of the System V x86-64 ABI. */
module Versions {
  datatype Option<+T> = None | Some(value: T)

  datatype PacketType =
    | FullWaveforms
    | SingleWaveform
    | NavAtt
    | NavSat
    | NavPos
    | SensorsTelem
    | SensorsDisk
    | Slow
    | CmdEcho
    | SunSensor
    | Timemark
    | StarTracker
    | Logs
    | DaqHsk
    | DaqHskSummary
    | FileDownload
    | SavedPriorities
    | PrioStatus

  function TypeCode(t: PacketType): bv16 {
    match t
    case FullWaveforms => 0xda7a
    case SingleWaveform => 0xea7a
    case NavAtt => 0xa771
    case NavSat => 0x5a75
    case NavPos => 0x1a75
    case SensorsTelem => 0xb1de
    case SensorsDisk => 0xcb1d
    case Slow => 0x510e
    case CmdEcho => 0xecc0
    case SunSensor => 0x501a
    case Timemark => 0xc10c
    case StarTracker => 0xe71c
    case Logs => 0x7a11
    case DaqHsk => 0xdacc
    case DaqHskSummary => 0xdac5
    case FileDownload => 0xd1d1
    case SavedPriorities => 0x7135
    case PrioStatus => 0x5cad
  }

  /** The switch over the dispatch table: codes outside it select no case. */
  function TypeOf(code: bv16): Option<PacketType> {
    match code
    case 0xda7a => Some(FullWaveforms)
    case 0xea7a => Some(SingleWaveform)
    case 0xa771 => Some(NavAtt)
    case 0x5a75 => Some(NavSat)
    case 0x1a75 => Some(NavPos)
    case 0xb1de => Some(SensorsTelem)
    case 0xcb1d => Some(SensorsDisk)
    case 0x510e => Some(Slow)
    case 0xecc0 => Some(CmdEcho)
    case 0x501a => Some(SunSensor)
    case 0xc10c => Some(Timemark)
    case 0xe71c => Some(StarTracker)
    case 0x7a11 => Some(Logs)
    case 0xdacc => Some(DaqHsk)
    case 0xdac5 => Some(DaqHskSummary)
    case 0xd1d1 => Some(FileDownload)
    case 0x7135 => Some(SavedPriorities)
    case 0x5cad => Some(PrioStatus)
    case _ => None
  }

  /** Dispatch undoes the codes, so no two types share one. */
  lemma CodesDispatch(t: PacketType, code: bv16)
    ensures TypeOf(code) == Some(t) <==> code == TypeCode(t)
  {}

  /** PUEO_X_VER: the version that writers emit. */
  function Latest(t: PacketType): (v: nat)
    ensures v < 16
  {
    match t
    case FullWaveforms => 1
    case SingleWaveform => 2
    case SensorsTelem => 1
    case SensorsDisk => 1
    case Slow => 1
    case DaqHsk => 3
    case DaqHskSummary => 2
    case _ => 0
  }

  /** pueo_X_size_table: the size of every version. */
  function SizeTable(t: PacketType): (s: seq<nat>)
    ensures |s| == Latest(t) + 1
  {
    match t
    case FullWaveforms => [459688, 459696]
    case SingleWaveform => [2092, 2104, 2104]
    case NavAtt => [72]
    case NavSat => [2576]
    case NavPos => [64]
    case SensorsTelem => [1032, 1032]
    case SensorsDisk => [3076, 3076]
    case Slow => [60, 112]
    case CmdEcho => [264]
    case SunSensor => [144]
    case Timemark => [32]
    case StarTracker => [16]
    case Logs => [2060]
    case DaqHsk => [12784, 12792, 12800, 12864]
    case DaqHskSummary => [5032, 5064, 5128]
    case FileDownload => [65040]
    case SavedPriorities => [12]
    case PrioStatus => [112]
  }

  /** pueo_X_size(ver), with -1 for a version that does not exist. */
  function PacketSize(t: PacketType, ver: int): int {
    if ver > Latest(t) || ver < 0 then -1 else SizeTable(t)[ver]
  }

  const MAX_IN_MEMORY: nat := 459696

  /** sizeof(pueo_X_t) */
  function InMemory(t: PacketType): (n: nat)
    ensures 0 < n <= MAX_IN_MEMORY
  {
    match t
    case FullWaveforms => 459696
    case SingleWaveform => 2104
    case NavAtt => 72
    case NavSat => 2576
    case NavPos => 64
    case SensorsTelem => 1032
    case SensorsDisk => 3076
    case Slow => 112
    case CmdEcho => 264
    case SunSensor => 144
    case Timemark => 32
    case StarTracker => 16
    case Logs => 2060
    case DaqHsk => 12864
    case DaqHskSummary => 5128
    case FileDownload => 65040
    case SavedPriorities => 12
    case PrioStatus => 112
  }

  /** The types served by SIMPLE_PUEO_IO_IMPL. */
  predicate Simple(t: PacketType) {
    || t.NavAtt? || t.Slow? || t.SunSensor? || t.Timemark? || t.StarTracker?
    || t.NavPos? || t.DaqHsk? || t.DaqHskSummary? || t.SavedPriorities? || t.PrioStatus?
  }

  /** The types that embed pueo_waveform_t. */
  predicate Waveform(t: PacketType) {
    t.FullWaveforms? || t.SingleWaveform?
  }

  /** The types that end in an array of which only a counted part is sent. */
  predicate Counted(t: PacketType) {
    !Simple(t) && !Waveform(t)
  }

  /** Old versions of a type are never larger than newer ones, and the newest is the
      struct itself. */
  lemma SizesGrow(t: PacketType, v: int, w: int)
    requires 0 <= v <= w <= Latest(t)
    ensures 0 < PacketSize(t, v) <= PacketSize(t, w) <= PacketSize(t, Latest(t)) == InMemory(t)
  {}
}
