/** The declarations of the structs (inc/pueo/rawdata.h, src/rawio_versions.h) and the rules by
    which the System V x86-64 ABI lays them out: where the sizes and offsets of the other
    modules come from. */
module Layouts {
  import opened Versions
  import opened Packets

  //////////////////////////////////////////////////////////////////////////////
  // Declarations and the rules of the ABI
  //////////////////////////////////////////////////////////////////////////////

  /** The names of fields. */
  datatype Name =
    | run | event | event_second | event_time | last_pps | llast_pps | deadtime_counter
    | deadtime_counter_last_pps | deadtime_counter_llast_pps | L2_mask | soft_trigger | pps_trigger
    | ext_trigger | reserved | readout_time | gps_time | lat | lon | alt | heading | pitch | roll
    | heading_sigma | pitch_sigma | roll_sigma | vdop | hdop | source | nsats | flags | ncmds
    | time_since_last_cmd | last_cmd | sipd_uptime | cpu_time | cpu_uptime | can_ping_world | starlink_on
    | los_on | gpu_present | nic_present | turf_seen | hsk_seen | ss_seen | current_run | current_run_secs
    | current_run_events | acqd_running | prioritizerd_running | current_run_rf_events | hsk_uptime | L2_rates
    | pals | ssd | nav | NIC_temperature | SFC_temperature | pwr_from_sun | pwr_usage | battery_state
    | AMPA_current | VPol_Crate_on | HPol_Crate_on | SFC_Voltage_on | VPol_Current | HPol_Current
    | SFC_Current | surfs | l2_readout_time | Hscalers | Vscalers | scaler_readout_time | turfio_L1_rate
    | soft_rate | pps_rate | ext_rate | MIE_total_H | MIE_total_V | LF_total_H | LF_total_V | aux_total
    | global_total | surf | Hscalers_avg | Vscalers_avg | MIE_total_H_avg | MIE_total_V_avg | aux_total_avg
    | global_total_avg | global_total_min | global_total_max | global_total_rms | start_second | end_second
    | turfio_words_recv | qwords_sent | events_sent | trigger_count | current_second | last_dead | llast_dead
    | panic_count | occupancy | ack_count | latency | offset | pps_trig_offset | start_time | end_time
    | delay_frac | S_frac | blast_frac | anthro_frac | trigger_meta | prio | wfs | wf | antenna_currents
    | temperature | x | v | L1_rates | l2_enable_mask | enable_mask_fraction | total_events | total_force
    | starlink_partition_free_GB | utc_secs | utc_nsecs | trig_type | topring_blast_flag | botring_blast_flag
    | fullpayload_blast_flag | frontback_blast_flag | anthro_base_flag | cal_type | signal_level | channel_id
    | surf_word | length | data | sensor_id | time_ms | time_secs | val | relsecs | used | type_ | qualityInd
    | svid | el | az | cno | prRes | index | free | ssd0_free | ssd1_free | ssd2_free | ssd3_free | ssd4_free
    | heading_abx | heading_boreas | heading_cpt7 | turf_fix_type | x1 | x2 | y1 | y2 | tempADS1220 | tempSS
    | threshold | pseudothreshold | scaler | pseudoscaler | in_mask | scaler_bank | beams | agc_scale
    | agc_offset | readout_time_start | ms_elapsed | surf_link | surf_slot | thresh_avg | scaler_avg
    | scaler_rms_div_16 | nsats_used | nsats_visible | sats | timeref_secs | sensor_id_magic | num_packets
    | sensors | when | len_m1 | count | ss | sequence_number | rising | falling | rise_count | channel | time1
    | time3 | utc_retrieved | is_until | rel_time_since_or_until | daemon_len | grep_len | msg_len | buf
    | read_ok | mtime | binary | fname | len | bytes

  /** The structs, those of old versions included. */
  datatype Decl =
    | Time | Priority | WaveformStruct | SensorDisk | SensorTelem | Sat | Pal | Ssd | Nav | SunSample
    | Beam | Surf | SummaryBeam | SummarySurf
    | FullWaveforms0 | FullWaveforms1 | SingleWaveform0 | SingleWaveform1 | SingleWaveform2
    | NavAtt0 | NavSat0 | NavPos0 | SensorsTelem1 | SensorsDisk1 | Slow0 | Slow1 | CmdEcho0 | SunSensor0
    | Timemark0 | StarTracker0 | Logs0 | DaqHsk0 | DaqHsk1 | DaqHsk2 | DaqHsk3
    | DaqHskSummary0 | DaqHskSummary1 | DaqHskSummary2 | FileDownload0 | SavedPriorities0 | PrioStatus0

  /** The types of fields: scalars of so many bytes, aligned to their size, arrays and structs. */
  datatype Type =
    | Scalar(bytes: nat)
    | Array(elem: Type, n: nat)
    | Struct(d: Decl)

  /** Fields in order, each with its place: a plain field with its byte, a bit-field with its
      bit, the size of the type it is declared with, and its width. */
  datatype Fields =
    | End
    | Field(name: Name, at: nat, t: Type, rest: Fields)
    | Bits(name: Name, bit: nat, unit: nat, width: nat, rest: Fields)

  function Size(t: Type): nat {
    match t
    case Scalar(bytes) => bytes
    case Array(elem, n) => n * Size(elem)
    case Struct(d) => SizeOf(d)
  }

  function Align(t: Type): nat {
    match t
    case Scalar(bytes) => bytes
    case Array(elem, _) => Align(elem)
    case Struct(d) => AlignOf(d)
  }

  function Max(a: nat, b: nat): nat {
    if a < b then b else a
  }

  predicate Multiple(n: nat, a: nat) {
    if a == 1 then true
    else if a == 2 then n % 2 == 0
    else if a == 4 then n % 4 == 0
    else if a == 8 then n % 8 == 0
    else a == 16 && n % 16 == 0
  }

  /** Byte `at` is the first of the given alignment at or after bit `end`. */
  predicate Next(at: nat, align: nat, end: nat) {
    Multiple(at, align) && end <= 8 * at < end + 8 * align
  }

  /** `width` bits from `bit` on lie in one unit of so many bytes. */
  predicate SameUnit(bit: nat, width: nat, unit: nat)
    requires width > 0
  {
    if unit == 1 then bit / 8 == (bit + width - 1) / 8
    else if unit == 2 then bit / 16 == (bit + width - 1) / 16
    else if unit == 4 then bit / 32 == (bit + width - 1) / 32
    else if unit == 8 then bit / 64 == (bit + width - 1) / 64
    else unit == 16 && bit / 128 == (bit + width - 1) / 128
  }

  /** A bit-field follows at once, or in the next unit if it would run over the end of one. */
  predicate NextBits(bit: nat, unit: nat, width: nat, end: nat) {
    && width > 0
    && if SameUnit(end, width, unit) then bit == end else bit % 8 == 0 && Next(bit / 8, unit, end)
  }

  /** Where fields end, in bits, and the greatest alignment among them. */
  datatype Extent = Extent(stop: nat, align: nat)

  /** The extent of fields that have the places which the ABI gives them behind bit `end`, where
      `align` is the alignment of those before; None if they have other places. For alignment,
      a bit-field counts like its type. */
  function Lay(fs: Fields, end: nat, align: nat): Option<Extent>
    decreases fs
  {
    match fs
    case End => Some(Extent(end, align))
    case Field(_, at, t, rest) =>
      if Next(at, Align(t), end) then Lay(rest, 8 * (at + Size(t)), Max(align, Align(t))) else None
    case Bits(_, bit, unit, width, rest) =>
      if NextBits(bit, unit, width, end) then Lay(rest, bit + width, Max(align, unit)) else None
  }

  /** A struct has the places, the alignment and the size that the ABI gives it. */
  predicate LaidOut(fs: Fields, size: nat, align: nat) {
    match Lay(fs, 0, 1)
    case None => false
    case Some(e) => e.align == align && Next(size, align, e.stop)
  }

  predicate ByAbi(d: Decl) {
    LaidOut(Declared(d), SizeOf(d), AlignOf(d))
  }

  /** Two lists declare the same fields, wherever these are. */
  predicate SameFields(a: Fields, b: Fields) {
    match a
    case End => b.End?
    case Field(name, _, t, rest) => b.Field? && b.name == name && b.t == t && SameFields(rest, b.rest)
    case Bits(name, _, unit, width, rest) =>
      b.Bits? && b.name == name && b.unit == unit && b.width == width && SameFields(rest, b.rest)
  }

  lemma Multiples8(n: nat, n': nat)
    requires n % 8 == 0 && n' % 8 == 0 && n <= n' < n + 8
    ensures n == n'
  {}

  lemma Multiples16(n: nat, n': nat)
    requires n % 16 == 0 && n' % 16 == 0 && n <= n' < n + 16
    ensures n == n'
  {}

  lemma MultipleUnique(n: nat, n': nat, a: nat)
    requires Multiple(n, a) && Multiple(n', a) && n <= n' < n + a
    ensures n == n'
  {
    if a == 8 {
      Multiples8(n, n');
    } else if a == 16 {
      Multiples16(n, n');
    }
  }

  lemma NextUnique(at: nat, at': nat, align: nat, end: nat)
    requires Next(at, align, end) && Next(at', align, end)
    ensures at == at'
  {
    hide Multiple;
    if at < at' {
      MultipleUnique(at, at', align);
    } else {
      MultipleUnique(at', at, align);
    }
  }

  /** The ABI leaves no choice: fields have one layout. */
  lemma {:induction false} OneLayout(a: Fields, b: Fields, end: nat, align: nat)
    requires SameFields(a, b) && Lay(a, end, align).Some? && Lay(b, end, align).Some?
    ensures a == b
    decreases a
  {
    hide Size, Align, Next, SameUnit;
    match a
    case End =>
    case Field(_, at, t, rest) =>
      NextUnique(at, b.at, Align(t), end);
      OneLayout(rest, b.rest, 8 * (at + Size(t)), Max(align, Align(t)));
    case Bits(_, bit, unit, width, rest) =>
      if !SameUnit(end, width, unit) {
        NextUnique(bit / 8, b.bit / 8, unit, end);
      }
      OneLayout(rest, b.rest, bit + width, Max(align, unit));
  }

  /** a and then b. */
  function Then(a: Fields, b: Fields): Fields {
    match a
    case End => b
    case Field(name, at, t, rest) => Field(name, at, t, Then(rest, b))
    case Bits(name, bit, unit, width, rest) => Bits(name, bit, unit, width, Then(rest, b))
  }

  lemma {:induction false} LayThen(a: Fields, b: Fields, end: nat, align: nat)
    requires Lay(a, end, align).Some?
    ensures var e := Lay(a, end, align).value; Lay(Then(a, b), end, align) == Lay(b, e.stop, e.align)
    decreases a
  {
    hide Size, Align, Next, NextBits;
    match a
    case End =>
    case Field(_, at, t, rest) => LayThen(rest, b, 8 * (at + Size(t)), Max(align, Align(t)));
    case Bits(_, bit, unit, width, rest) => LayThen(rest, b, bit + width, Max(align, unit));
  }

  /** Fields a, laid out behind (end, align), leave off at e. */
  ghost predicate Leads(a: Fields, end: nat, align: nat, e: Extent) {
    && Lay(a, end, align) == Some(e)
    && forall b :: Lay(Then(a, b), end, align) == Lay(b, e.stop, e.align)
  }

  lemma LeadsIf(a: Fields, end: nat, align: nat, e: Extent)
    requires Lay(a, end, align) == Some(e)
    ensures Leads(a, end, align, e)
  {
    forall b
      ensures Lay(Then(a, b), end, align) == Lay(b, e.stop, e.align)
    {
      LayThen(a, b, end, align);
    }
  }

  //////////////////////////////////////////////////////////////////////////////
  // The structs
  //////////////////////////////////////////////////////////////////////////////

  /** How every version of an event begins. */
  function EventFields(): Fields {
    Field(run, 0, Scalar(4), Field(event, 4, Scalar(4), Field(event_second, 8, Scalar(4),
      Field(event_time, 12, Scalar(4), Field(last_pps, 16, Scalar(4), Field(llast_pps, 20, Scalar(4), End))))))
  }

  function DeadtimeFields(): Fields {
    Field(deadtime_counter, 24, Scalar(4), Field(deadtime_counter_last_pps, 28, Scalar(4),
      Field(deadtime_counter_llast_pps, 32, Scalar(4), Bits(L2_mask, 288, 4, 24, Bits(soft_trigger, 312, 4, 1,
      Bits(pps_trigger, 313, 4, 1, Bits(ext_trigger, 314, 4, 1, Bits(reserved, 315, 4, 5, End))))))))
  }

  /** How the packets of the navigation receivers begin. */
  function FixFields(): Fields {
    Field(readout_time, 0, Struct(Time), Field(gps_time, 8, Struct(Time), Field(lat, 16, Scalar(4),
      Field(lon, 20, Scalar(4), Field(alt, 24, Scalar(4), End)))))
  }

  function AttitudeFields(): Fields {
    Field(heading, 28, Scalar(4), Field(pitch, 32, Scalar(4), Field(roll, 36, Scalar(4),
      Field(heading_sigma, 40, Scalar(4), Field(pitch_sigma, 44, Scalar(4), Field(roll_sigma, 48, Scalar(4), End))))))
  }

  function QualityFields(): Fields {
    Field(vdop, 52, Scalar(4), Field(hdop, 56, Scalar(4), Field(source, 60, Scalar(1),
      Field(nsats, 61, Scalar(1), Field(flags, 62, Scalar(1), End)))))
  }

  /** What both versions of slow begin with. */
  function SlowFields(): Fields {
    Field(ncmds, 0, Scalar(2), Field(time_since_last_cmd, 2, Scalar(2), Bits(last_cmd, 32, 4, 8,
      Bits(sipd_uptime, 40, 4, 24, Field(cpu_time, 8, Scalar(4), End)))))
  }

  function CpuFields(): Fields {
    Bits(cpu_uptime, 96, 4, 24, Bits(can_ping_world, 120, 4, 1, Bits(starlink_on, 121, 4, 1,
      Bits(los_on, 122, 4, 1, End))))
  }

  function PresenceFields(): Fields {
    Bits(gpu_present, 123, 4, 1, Bits(nic_present, 124, 4, 1, Bits(turf_seen, 125, 4, 1,
      Bits(hsk_seen, 126, 4, 1, Bits(ss_seen, 127, 4, 1, End)))))
  }

  function RunFields(): Fields {
    Field(current_run, 16, Scalar(2), Field(current_run_secs, 18, Scalar(2), End))
  }

  function RateFields(): Fields {
    Bits(current_run_events, 160, 4, 24, Bits(acqd_running, 184, 4, 1, Bits(prioritizerd_running, 185, 4, 1,
      Bits(current_run_rf_events, 192, 4, 24, Bits(hsk_uptime, 224, 4, 24,
      Field(L2_rates, 32, Array(Array(Scalar(2), 2), 12), End))))))
  }

  function StatusFields(): Fields {
    Field(pals, 80, Array(Struct(Pal), 2), Field(ssd, 88, Struct(Ssd), Field(nav, 96, Struct(Nav),
      Field(NIC_temperature, 100, Scalar(1), Field(SFC_temperature, 101, Scalar(1), End)))))
  }

  function PowerFields(): Fields {
    Bits(pwr_from_sun, 816, 4, 11, Bits(pwr_usage, 832, 4, 11, Bits(battery_state, 843, 4, 3,
      Bits(AMPA_current, 846, 4, 4, Bits(VPol_Crate_on, 850, 4, 1, Bits(HPol_Crate_on, 851, 4, 1,
      Bits(SFC_Voltage_on, 852, 4, 1, End)))))))
  }

  function CurrentFields(): Fields {
    Field(VPol_Current, 107, Scalar(1), Field(HPol_Current, 108, Scalar(1), Field(SFC_Current, 109, Scalar(1), End)))
  }

  /** Version 0 of daq_hsk, with which the others begin. */
  function HskFields(): Fields {
    Field(surfs, 0, Array(Struct(Surf), 28), Field(l2_readout_time, 12544, Struct(Time),
      Field(Hscalers, 12552, Array(Scalar(4), 12), Field(Vscalers, 12600, Array(Scalar(4), 12),
      Field(scaler_readout_time, 12648, Struct(Time),
      Field(turfio_L1_rate, 12656, Array(Array(Scalar(4), 7), 4), End))))))
  }

  function RatesFields(): Fields {
    Field(soft_rate, 12768, Scalar(4), Field(pps_rate, 12772, Scalar(4), Field(ext_rate, 12776, Scalar(4), End)))
  }

  function TotalFields(): Fields {
    Field(MIE_total_H, 12780, Scalar(2), Field(MIE_total_V, 12782, Scalar(2),
      Field(LF_total_H, 12784, Scalar(2), Field(LF_total_V, 12786, Scalar(2),
      Field(aux_total, 12788, Scalar(2), Field(global_total, 12790, Scalar(2), End))))))
  }

  /** Version 0 of daq_hsk_summary, with which the others begin. */
  function SummaryFields(): Fields {
    Field(surf, 0, Array(Struct(SummarySurf), 26), Field(Hscalers_avg, 4992, Array(Scalar(1), 12),
      Field(Vscalers_avg, 5004, Array(Scalar(1), 12), End)))
  }

  function AverageFields(): Fields {
    Bits(MIE_total_H_avg, 40128, 8, 9, Bits(MIE_total_V_avg, 40137, 8, 9, Bits(aux_total_avg, 40146, 8, 6,
      Bits(pps_rate, 40152, 8, 2, Bits(global_total_avg, 40154, 8, 10, Bits(global_total_min, 40164, 8, 10,
      Bits(global_total_max, 40174, 8, 10, Bits(global_total_rms, 40184, 8, 8, End))))))))
  }

  function SpanFields(): Fields {
    Field(start_second, 5024, Scalar(4), Field(end_second, 5028, Scalar(4), End))
  }

  /** What the last versions of both end with, from byte `at` on. */
  function CounterFields(at: nat): Fields {
    Field(turfio_words_recv, at, Array(Scalar(4), 4), Field(qwords_sent, at + 16, Scalar(4),
      Field(events_sent, at + 20, Scalar(4), Field(trigger_count, at + 24, Scalar(4),
      Field(current_second, at + 28, Scalar(4), Field(last_pps, at + 32, Scalar(4),
      Field(llast_pps, at + 36, Scalar(4), End)))))))
  }

  function DeadFields(at: nat): Fields {
    Field(last_dead, at + 40, Scalar(4), Field(llast_dead, at + 44, Scalar(4),
      Field(panic_count, at + 48, Scalar(4), Field(occupancy, at + 52, Scalar(4),
      Field(ack_count, at + 56, Scalar(2), Field(latency, at + 58, Scalar(2), Field(offset, at + 60, Scalar(2),
      Field(pps_trig_offset, at + 62, Scalar(2), End))))))))
  }

  function FractionFields(): Fields {
    Field(start_time, 0, Struct(Time), Field(end_time, 8, Struct(Time),
      Field(delay_frac, 16, Array(Scalar(4), 6), Field(S_frac, 40, Array(Scalar(4), 4),
      Field(blast_frac, 56, Array(Scalar(4), 4), Field(anthro_frac, 72, Array(Scalar(4), 6), End))))))
  }

  function MetaFields(): Fields {
    Field(trigger_meta, 24, Array(Scalar(4), 4), End)
  }

  function ReadoutFields(): Fields {
    Field(readout_time, 40, Struct(Time), End)
  }

  function PrioFields(): Fields {
    Field(prio, 48, Struct(Priority), End)
  }

  function WfsFields(at: nat): Fields {
    Field(wfs, at, Array(Struct(WaveformStruct), 224), End)
  }

  function WfFields(at: nat): Fields {
    Field(wf, at, Struct(WaveformStruct), End)
  }

  function AntennaFields(): Fields {
    Field(antenna_currents, 64, Array(Scalar(2), 3), Field(temperature, 70, Scalar(2), End))
  }

  function VelocityFields(): Fields {
    Field(x, 28, Array(Scalar(4), 3), Field(v, 40, Array(Scalar(4), 3), End))
  }

  function OldRateFields(): Fields {
    Field(current_run_events, 20, Scalar(4), Field(L1_rates, 24, Array(Scalar(2), 12),
      Field(L2_rates, 48, Array(Scalar(1), 12), End)))
  }

  function MaskFields(): Fields {
    Field(l2_enable_mask, 12792, Scalar(4), End)
  }

  function EnableFields(): Fields {
    Field(enable_mask_fraction, 5032, Array(Scalar(1), 26), End)
  }

  function StatusTotals(): Fields {
    Field(total_events, 96, Scalar(4), Field(total_force, 100, Scalar(4),
      Field(starlink_partition_free_GB, 104, Scalar(4), End)))
  }

  function TimeDecl(): Fields {
    Bits(utc_secs, 0, 8, 34, Bits(utc_nsecs, 34, 4, 30, End))
  }

  function PriorityDecl(): Fields {
    Bits(trig_type, 0, 2, 2, Bits(topring_blast_flag, 2, 2, 1, Bits(botring_blast_flag, 3, 2, 1,
      Bits(fullpayload_blast_flag, 4, 2, 1, Bits(frontback_blast_flag, 5, 2, 1, Bits(anthro_base_flag, 6, 2, 6,
      Bits(cal_type, 12, 2, 2, Bits(signal_level, 14, 2, 2, End))))))))
  }

  function WaveformStructDecl(): Fields {
    Field(channel_id, 0, Scalar(1), Field(surf_word, 1, Scalar(1), Field(length, 2, Scalar(2),
      Field(data, 4, Array(Scalar(2), 1024), End))))
  }

  function SensorDiskDecl(): Fields {
    Field(sensor_id, 0, Scalar(2), Field(time_ms, 2, Scalar(2), Field(time_secs, 4, Scalar(4),
      Field(val, 8, Scalar(4), End))))
  }

  function SensorTelemDecl(): Fields {
    Bits(sensor_id, 0, 2, 10, Bits(relsecs, 10, 2, 6, Field(val, 2, Scalar(2), End)))
  }

  function SatDecl(): Fields {
    Bits(used, 0, 1, 1, Bits(type_, 1, 1, 3, Bits(qualityInd, 4, 1, 4, Field(svid, 1, Scalar(1),
      Field(el, 2, Scalar(2), Field(az, 4, Scalar(2), Field(cno, 6, Scalar(2), Field(prRes, 8, Scalar(2), End))))))))
  }

  function PalDecl(): Fields {
    Bits(index, 0, 2, 3, Bits(free, 3, 2, 13, End))
  }

  function SsdDecl(): Fields {
    Bits(ssd0_free, 0, 8, 12, Bits(ssd1_free, 12, 8, 12, Bits(ssd2_free, 24, 8, 12, Bits(ssd3_free, 36, 8, 12,
      Bits(ssd4_free, 48, 8, 12, End)))))
  }

  function NavDecl(): Fields {
    Bits(heading_abx, 0, 4, 9, Bits(heading_boreas, 9, 4, 9, Bits(heading_cpt7, 18, 4, 9,
      Bits(turf_fix_type, 27, 4, 2, End))))
  }

  function SunSampleDecl(): Fields {
    Bits(x1, 0, 16, 24, Bits(x2, 24, 16, 24, Bits(y1, 48, 16, 24, Bits(y2, 72, 16, 24,
      Bits(tempADS1220, 96, 16, 16, Bits(tempSS, 112, 16, 16, End))))))
  }

  function BeamDecl(): Fields {
    Bits(threshold, 0, 8, 18, Bits(pseudothreshold, 18, 8, 18, Bits(scaler, 36, 8, 12,
      Bits(pseudoscaler, 48, 8, 12, Bits(in_mask, 60, 8, 1, Bits(scaler_bank, 61, 8, 1, End))))))
  }

  function SurfDecl(): Fields {
    Field(beams, 0, Array(Struct(Beam), 48), Field(agc_scale, 384, Array(Scalar(4), 8),
      Field(agc_offset, 416, Array(Scalar(2), 8), Field(readout_time_start, 432, Struct(Time),
      Field(ms_elapsed, 440, Scalar(2), Field(surf_link, 442, Scalar(1), Field(surf_slot, 443, Scalar(1), End)))))))
  }

  function SummaryBeamDecl(): Fields {
    Bits(thresh_avg, 0, 4, 15, Bits(scaler_avg, 15, 4, 12, Bits(scaler_rms_div_16, 27, 4, 5, End)))
  }

  function SummarySurfDecl(): Fields {
    Field(beams, 0, Array(Struct(SummaryBeam), 48), End)
  }

  function FullWaveforms0Decl(): Fields {
    Then(EventFields(), Then(MetaFields(), WfsFields(40)))
  }

  function FullWaveforms1Decl(): Fields {
    Then(EventFields(), Then(DeadtimeFields(), Then(ReadoutFields(), WfsFields(48))))
  }

  function SingleWaveform0Decl(): Fields {
    Then(EventFields(), Then(MetaFields(), WfFields(40)))
  }

  function SingleWaveform1Decl(): Fields {
    Then(EventFields(), Then(DeadtimeFields(), Then(ReadoutFields(), WfFields(48))))
  }

  function SingleWaveform2Decl(): Fields {
    Then(EventFields(), Then(DeadtimeFields(), Then(ReadoutFields(), Then(PrioFields(), WfFields(50)))))
  }

  function NavAtt0Decl(): Fields {
    Then(FixFields(), Then(AttitudeFields(), Then(QualityFields(), AntennaFields())))
  }

  function NavSat0Decl(): Fields {
    Field(readout_time, 0, Struct(Time), Field(gps_time, 8, Struct(Time), Field(nsats_used, 16, Scalar(1),
      Field(nsats_visible, 17, Scalar(1), Field(source, 18, Scalar(1), Field(sats, 20, Array(Struct(Sat), 255), End))))))
  }

  function NavPos0Decl(): Fields {
    Then(FixFields(), Then(VelocityFields(), QualityFields()))
  }

  function SensorsTelem1Decl(): Fields {
    Field(timeref_secs, 0, Scalar(4), Field(sensor_id_magic, 4, Scalar(2), Field(num_packets, 6, Scalar(2),
      Field(sensors, 8, Array(Struct(SensorTelem), 256), End))))
  }

  function SensorsDisk1Decl(): Fields {
    Field(num_packets, 0, Scalar(2), Field(sensor_id_magic, 2, Scalar(2),
      Field(sensors, 4, Array(Struct(SensorDisk), 256), End)))
  }

  function Slow0Decl(): Fields {
    Then(SlowFields(), Then(CpuFields(), Then(RunFields(), OldRateFields())))
  }

  function Slow1Decl(): Fields {
    Then(SlowFields(), Then(CpuFields(), Then(PresenceFields(), Then(RunFields(),
      Then(RateFields(), Then(StatusFields(), Then(PowerFields(), CurrentFields())))))))
  }

  function CmdEcho0Decl(): Fields {
    Field(when, 0, Scalar(4), Bits(len_m1, 32, 4, 8, Bits(count, 40, 4, 24,
      Field(data, 8, Array(Scalar(1), 256), End))))
  }

  function SunSensor0Decl(): Fields {
    Field(ss, 0, Array(Struct(SunSample), 8), Field(readout_time, 128, Struct(Time),
      Field(sequence_number, 136, Scalar(4), Field(flags, 140, Scalar(4), End))))
  }

  function Timemark0Decl(): Fields {
    Field(readout_time, 0, Struct(Time), Field(rising, 8, Struct(Time), Field(falling, 16, Struct(Time),
      Field(rise_count, 24, Scalar(2), Field(channel, 26, Scalar(1), Field(flags, 27, Scalar(1), End))))))
  }

  function StarTracker0Decl(): Fields {
    Field(time1, 0, Struct(Time), Field(time3, 8, Struct(Time), End))
  }

  function Logs0Decl(): Fields {
    Bits(utc_retrieved, 0, 4, 31, Bits(is_until, 31, 4, 1, Field(rel_time_since_or_until, 4, Scalar(2),
      Field(daemon_len, 6, Scalar(1), Field(grep_len, 7, Scalar(1), Field(msg_len, 8, Scalar(2),
      Field(buf, 10, Array(Scalar(1), 2048), End)))))))
  }

  function DaqHsk0Decl(): Fields {
    Then(HskFields(), RatesFields())
  }

  function DaqHsk1Decl(): Fields {
    Then(HskFields(), Then(RatesFields(), TotalFields()))
  }

  function DaqHsk2Decl(): Fields {
    Then(HskFields(), Then(RatesFields(), Then(TotalFields(), MaskFields())))
  }

  function DaqHsk3Decl(): Fields {
    Then(HskFields(), Then(RatesFields(), Then(TotalFields(), Then(MaskFields(),
      Then(CounterFields(12796), DeadFields(12796))))))
  }

  function DaqHskSummary0Decl(): Fields {
    Then(SummaryFields(), Then(AverageFields(), SpanFields()))
  }

  function DaqHskSummary1Decl(): Fields {
    Then(SummaryFields(), Then(AverageFields(), Then(SpanFields(), EnableFields())))
  }

  function DaqHskSummary2Decl(): Fields {
    Then(SummaryFields(), Then(AverageFields(), Then(SpanFields(), Then(EnableFields(),
      Then(CounterFields(5060), DeadFields(5060))))))
  }

  function FileDownload0Decl(): Fields {
    Bits(offset, 0, 4, 31, Bits(read_ok, 31, 4, 1, Bits(mtime, 32, 4, 31, Bits(binary, 63, 4, 1,
      Field(fname, 8, Array(Scalar(1), 30), Field(len, 38, Scalar(2), Field(bytes, 40, Array(Scalar(1), 65000), End)))))))
  }

  function SavedPriorities0Decl(): Fields {
    Field(run, 0, Scalar(4), Field(event, 4, Scalar(4), Field(prio, 8, Struct(Priority), End)))
  }

  function PrioStatus0Decl(): Fields {
    Then(FractionFields(), StatusTotals())
  }

  /** The fields of each struct. */
  function Declared(d: Decl): Fields {
    match d
    case Time => TimeDecl()
    case Priority => PriorityDecl()
    case WaveformStruct => WaveformStructDecl()
    case SensorDisk => SensorDiskDecl()
    case SensorTelem => SensorTelemDecl()
    case Sat => SatDecl()
    case Pal => PalDecl()
    case Ssd => SsdDecl()
    case Nav => NavDecl()
    case SunSample => SunSampleDecl()
    case Beam => BeamDecl()
    case Surf => SurfDecl()
    case SummaryBeam => SummaryBeamDecl()
    case SummarySurf => SummarySurfDecl()
    case FullWaveforms0 => FullWaveforms0Decl()
    case FullWaveforms1 => FullWaveforms1Decl()
    case SingleWaveform0 => SingleWaveform0Decl()
    case SingleWaveform1 => SingleWaveform1Decl()
    case SingleWaveform2 => SingleWaveform2Decl()
    case NavAtt0 => NavAtt0Decl()
    case NavSat0 => NavSat0Decl()
    case NavPos0 => NavPos0Decl()
    case SensorsTelem1 => SensorsTelem1Decl()
    case SensorsDisk1 => SensorsDisk1Decl()
    case Slow0 => Slow0Decl()
    case Slow1 => Slow1Decl()
    case CmdEcho0 => CmdEcho0Decl()
    case SunSensor0 => SunSensor0Decl()
    case Timemark0 => Timemark0Decl()
    case StarTracker0 => StarTracker0Decl()
    case Logs0 => Logs0Decl()
    case DaqHsk0 => DaqHsk0Decl()
    case DaqHsk1 => DaqHsk1Decl()
    case DaqHsk2 => DaqHsk2Decl()
    case DaqHsk3 => DaqHsk3Decl()
    case DaqHskSummary0 => DaqHskSummary0Decl()
    case DaqHskSummary1 => DaqHskSummary1Decl()
    case DaqHskSummary2 => DaqHskSummary2Decl()
    case FileDownload0 => FileDownload0Decl()
    case SavedPriorities0 => SavedPriorities0Decl()
    case PrioStatus0 => PrioStatus0Decl()
  }

  /** sizeof */
  function SizeOf(d: Decl): nat {
    match d
    case Time | Ssd | Beam => 8
    case Priority | Pal => 2
    case WaveformStruct => 2052
    case SensorDisk | SavedPriorities0 => 12
    case SensorTelem | Nav | SummaryBeam => 4
    case Sat => 10
    case SunSample | StarTracker0 => 16
    case Surf => 448
    case SummarySurf => 192
    case FullWaveforms0 => 459688
    case FullWaveforms1 => 459696
    case SingleWaveform0 => 2092
    case SingleWaveform1 | SingleWaveform2 => 2104
    case NavAtt0 => 72
    case NavSat0 => 2576
    case NavPos0 => 64
    case SensorsTelem1 => 1032
    case SensorsDisk1 => 3076
    case Slow0 => 60
    case Slow1 | PrioStatus0 => 112
    case CmdEcho0 => 264
    case SunSensor0 => 144
    case Timemark0 => 32
    case Logs0 => 2060
    case DaqHsk0 => 12784
    case DaqHsk1 => 12792
    case DaqHsk2 => 12800
    case DaqHsk3 => 12864
    case DaqHskSummary0 => 5032
    case DaqHskSummary1 => 5064
    case DaqHskSummary2 => 5128
    case FileDownload0 => 65040
  }

  /** alignof */
  function AlignOf(d: Decl): nat {
    match d
    case Time | Ssd | Beam | Surf | FullWaveforms1 | SingleWaveform1 | SingleWaveform2 | NavAtt0 |
      NavSat0 | NavPos0 | Slow1 | Timemark0 | StarTracker0 | DaqHsk0 | DaqHsk1 | DaqHsk2 | DaqHsk3 |
      DaqHskSummary0 | DaqHskSummary1 | DaqHskSummary2 | PrioStatus0 => 8
    case Priority | WaveformStruct | SensorTelem | Sat | Pal => 2
    case SensorDisk | Nav | SummaryBeam | SummarySurf | FullWaveforms0 | SingleWaveform0 | SensorsTelem1 |
      SensorsDisk1 | Slow0 | CmdEcho0 | Logs0 | FileDownload0 | SavedPriorities0 => 4
    case SunSample | SunSensor0 => 16
  }

  //////////////////////////////////////////////////////////////////////////////
  // They are laid out by the ABI
  //////////////////////////////////////////////////////////////////////////////

  lemma EventLaid()
    ensures Leads(EventFields(), 0, 1, Extent(192, 4))
  {
    LeadsIf(EventFields(), 0, 1, Extent(192, 4));
  }

  lemma MetaLaid()
    ensures Leads(MetaFields(), 192, 4, Extent(320, 4))
  {
    LeadsIf(MetaFields(), 192, 4, Extent(320, 4));
  }

  lemma WfsAt40Laid()
    ensures Leads(WfsFields(40), 320, 4, Extent(3677504, 4))
  {
    LeadsIf(WfsFields(40), 320, 4, Extent(3677504, 4));
  }

  lemma DeadtimeLaid()
    ensures Leads(DeadtimeFields(), 192, 4, Extent(320, 4))
  {
    LeadsIf(DeadtimeFields(), 192, 4, Extent(320, 4));
  }

  lemma ReadoutLaid()
    ensures Leads(ReadoutFields(), 320, 4, Extent(384, 8))
  {
    LeadsIf(ReadoutFields(), 320, 4, Extent(384, 8));
  }

  lemma WfsAt48Laid()
    ensures Leads(WfsFields(48), 384, 8, Extent(3677568, 8))
  {
    LeadsIf(WfsFields(48), 384, 8, Extent(3677568, 8));
  }

  lemma WfAt40Laid()
    ensures Leads(WfFields(40), 320, 4, Extent(16736, 4))
  {
    LeadsIf(WfFields(40), 320, 4, Extent(16736, 4));
  }

  lemma WfAt48Laid()
    ensures Leads(WfFields(48), 384, 8, Extent(16800, 8))
  {
    LeadsIf(WfFields(48), 384, 8, Extent(16800, 8));
  }

  lemma PrioLaid()
    ensures Leads(PrioFields(), 384, 8, Extent(400, 8))
  {
    LeadsIf(PrioFields(), 384, 8, Extent(400, 8));
  }

  lemma WfAt50Laid()
    ensures Leads(WfFields(50), 400, 8, Extent(16816, 8))
  {
    LeadsIf(WfFields(50), 400, 8, Extent(16816, 8));
  }

  lemma FixLaid()
    ensures Leads(FixFields(), 0, 1, Extent(224, 8))
  {
    LeadsIf(FixFields(), 0, 1, Extent(224, 8));
  }

  lemma AttitudeLaid()
    ensures Leads(AttitudeFields(), 224, 8, Extent(416, 8))
  {
    LeadsIf(AttitudeFields(), 224, 8, Extent(416, 8));
  }

  lemma QualityLaid()
    ensures Leads(QualityFields(), 416, 8, Extent(504, 8))
  {
    LeadsIf(QualityFields(), 416, 8, Extent(504, 8));
  }

  lemma AntennaLaid()
    ensures Leads(AntennaFields(), 504, 8, Extent(576, 8))
  {
    LeadsIf(AntennaFields(), 504, 8, Extent(576, 8));
  }

  lemma VelocityLaid()
    ensures Leads(VelocityFields(), 224, 8, Extent(416, 8))
  {
    LeadsIf(VelocityFields(), 224, 8, Extent(416, 8));
  }

  lemma SlowLaid()
    ensures Leads(SlowFields(), 0, 1, Extent(96, 4))
  {
    LeadsIf(SlowFields(), 0, 1, Extent(96, 4));
  }

  lemma CpuLaid()
    ensures Leads(CpuFields(), 96, 4, Extent(123, 4))
  {
    LeadsIf(CpuFields(), 96, 4, Extent(123, 4));
  }

  lemma RunLaid()
    ensures Leads(RunFields(), 123, 4, Extent(160, 4))
    ensures Leads(RunFields(), 128, 4, Extent(160, 4))
  {
    LeadsIf(RunFields(), 123, 4, Extent(160, 4));
    LeadsIf(RunFields(), 128, 4, Extent(160, 4));
  }

  lemma OldRateLaid()
    ensures Leads(OldRateFields(), 160, 4, Extent(480, 4))
  {
    LeadsIf(OldRateFields(), 160, 4, Extent(480, 4));
  }

  lemma PresenceLaid()
    ensures Leads(PresenceFields(), 123, 4, Extent(128, 4))
  {
    LeadsIf(PresenceFields(), 123, 4, Extent(128, 4));
  }

  lemma RateLaid()
    ensures Leads(RateFields(), 160, 4, Extent(640, 4))
  {
    LeadsIf(RateFields(), 160, 4, Extent(640, 4));
  }

  lemma StatusLaid()
    ensures Leads(StatusFields(), 640, 4, Extent(816, 8))
  {
    LeadsIf(StatusFields(), 640, 4, Extent(816, 8));
  }

  lemma PowerLaid()
    ensures Leads(PowerFields(), 816, 8, Extent(853, 8))
  {
    LeadsIf(PowerFields(), 816, 8, Extent(853, 8));
  }

  lemma CurrentLaid()
    ensures Leads(CurrentFields(), 853, 8, Extent(880, 8))
  {
    LeadsIf(CurrentFields(), 853, 8, Extent(880, 8));
  }

  lemma HskLaid()
    ensures Leads(HskFields(), 0, 1, Extent(102144, 8))
  {
    LeadsIf(HskFields(), 0, 1, Extent(102144, 8));
  }

  lemma RatesLaid()
    ensures Leads(RatesFields(), 102144, 8, Extent(102240, 8))
  {
    LeadsIf(RatesFields(), 102144, 8, Extent(102240, 8));
  }

  lemma TotalLaid()
    ensures Leads(TotalFields(), 102240, 8, Extent(102336, 8))
  {
    LeadsIf(TotalFields(), 102240, 8, Extent(102336, 8));
  }

  lemma MaskLaid()
    ensures Leads(MaskFields(), 102336, 8, Extent(102368, 8))
  {
    LeadsIf(MaskFields(), 102336, 8, Extent(102368, 8));
  }

  lemma CounterAt12796Laid()
    ensures Leads(CounterFields(12796), 102368, 8, Extent(102688, 8))
  {
    LeadsIf(CounterFields(12796), 102368, 8, Extent(102688, 8));
  }

  lemma DeadAt12796Laid()
    ensures Leads(DeadFields(12796), 102688, 8, Extent(102880, 8))
  {
    LeadsIf(DeadFields(12796), 102688, 8, Extent(102880, 8));
  }

  lemma SummaryLaid()
    ensures Leads(SummaryFields(), 0, 1, Extent(40128, 4))
  {
    LeadsIf(SummaryFields(), 0, 1, Extent(40128, 4));
  }

  lemma AverageLaid()
    ensures Leads(AverageFields(), 40128, 4, Extent(40192, 8))
  {
    LeadsIf(AverageFields(), 40128, 4, Extent(40192, 8));
  }

  lemma SpanLaid()
    ensures Leads(SpanFields(), 40192, 8, Extent(40256, 8))
  {
    LeadsIf(SpanFields(), 40192, 8, Extent(40256, 8));
  }

  lemma EnableLaid()
    ensures Leads(EnableFields(), 40256, 8, Extent(40464, 8))
  {
    LeadsIf(EnableFields(), 40256, 8, Extent(40464, 8));
  }

  lemma CounterAt5060Laid()
    ensures Leads(CounterFields(5060), 40464, 8, Extent(40800, 8))
  {
    LeadsIf(CounterFields(5060), 40464, 8, Extent(40800, 8));
  }

  lemma DeadAt5060Laid()
    ensures Leads(DeadFields(5060), 40800, 8, Extent(40992, 8))
  {
    LeadsIf(DeadFields(5060), 40800, 8, Extent(40992, 8));
  }

  lemma FractionLaid()
    ensures Leads(FractionFields(), 0, 1, Extent(768, 8))
  {
    LeadsIf(FractionFields(), 0, 1, Extent(768, 8));
  }

  lemma StatusTotalsLaid()
    ensures Leads(StatusTotals(), 768, 8, Extent(864, 8))
  {
    LeadsIf(StatusTotals(), 768, 8, Extent(864, 8));
  }

  /** The structs that only stand in others. */
  predicate IsInner(d: Decl) {
    d.Time? || d.Priority? || d.WaveformStruct? || d.SensorDisk? || d.SensorTelem? || d.Sat? || d.Pal? || d.Ssd? ||
    d.Nav? || d.SunSample? || d.Beam? || d.Surf? || d.SummaryBeam? || d.SummarySurf?
  }

  /** The structs that are declared in parts. */
  predicate IsComposed(d: Decl) {
    d.FullWaveforms0? || d.FullWaveforms1? || d.SingleWaveform0? || d.SingleWaveform1? || d.SingleWaveform2? ||
    d.NavAtt0? || d.NavPos0? || d.Slow0? || d.Slow1? || d.DaqHsk0? || d.DaqHsk1? || d.DaqHsk2? || d.DaqHsk3? ||
    d.DaqHskSummary0? || d.DaqHskSummary1? || d.DaqHskSummary2? || d.PrioStatus0?
  }

  lemma TimeLaid()
    ensures LaidOut(TimeDecl(), 8, 8)
  {}

  lemma PriorityLaid()
    ensures LaidOut(PriorityDecl(), 2, 2)
  {}

  lemma WaveformStructLaid()
    ensures LaidOut(WaveformStructDecl(), 2052, 2)
  {}

  lemma SensorDiskLaid()
    ensures LaidOut(SensorDiskDecl(), 12, 4)
  {}

  lemma SensorTelemLaid()
    ensures LaidOut(SensorTelemDecl(), 4, 2)
  {}

  lemma SatLaid()
    ensures LaidOut(SatDecl(), 10, 2)
  {}

  lemma PalLaid()
    ensures LaidOut(PalDecl(), 2, 2)
  {}

  lemma SsdLaid()
    ensures LaidOut(SsdDecl(), 8, 8)
  {}

  lemma NavLaid()
    ensures LaidOut(NavDecl(), 4, 4)
  {}

  lemma SunSampleLaid()
    ensures LaidOut(SunSampleDecl(), 16, 16)
  {}

  lemma BeamLaid()
    ensures LaidOut(BeamDecl(), 8, 8)
  {}

  lemma SurfLaid()
    ensures LaidOut(SurfDecl(), 448, 8)
  {}

  lemma SummaryBeamLaid()
    ensures LaidOut(SummaryBeamDecl(), 4, 4)
  {}

  lemma SummarySurfLaid()
    ensures LaidOut(SummarySurfDecl(), 192, 4)
  {}

  lemma SensorsTelem1Laid()
    ensures LaidOut(SensorsTelem1Decl(), 1032, 4)
  {}

  lemma SensorsDisk1Laid()
    ensures LaidOut(SensorsDisk1Decl(), 3076, 4)
  {}

  lemma NavSat0Laid()
    ensures LaidOut(NavSat0Decl(), 2576, 8)
  {}

  lemma CmdEcho0Laid()
    ensures LaidOut(CmdEcho0Decl(), 264, 4)
  {}

  lemma Logs0Laid()
    ensures LaidOut(Logs0Decl(), 2060, 4)
  {}

  lemma FileDownload0Laid()
    ensures LaidOut(FileDownload0Decl(), 65040, 4)
  {}

  lemma SunSensor0Laid()
    ensures LaidOut(SunSensor0Decl(), 144, 16)
  {}

  lemma Timemark0Laid()
    ensures LaidOut(Timemark0Decl(), 32, 8)
  {}

  lemma StarTracker0Laid()
    ensures LaidOut(StarTracker0Decl(), 16, 8)
  {}

  lemma SavedPriorities0Laid()
    ensures LaidOut(SavedPriorities0Decl(), 12, 4)
  {}

  lemma FullWaveforms0Laid()
    ensures ByAbi(FullWaveforms0)
  {
    hide Lay, Then, EventFields, MetaFields, WfsFields;
    EventLaid();
    MetaLaid();
    WfsAt40Laid();
  }

  lemma FullWaveforms1Laid()
    ensures ByAbi(FullWaveforms1)
  {
    hide Lay, Then, DeadtimeFields, EventFields, ReadoutFields, WfsFields;
    EventLaid();
    DeadtimeLaid();
    ReadoutLaid();
    WfsAt48Laid();
  }

  lemma SingleWaveform0Laid()
    ensures ByAbi(SingleWaveform0)
  {
    hide Lay, Then, EventFields, MetaFields, WfFields;
    EventLaid();
    MetaLaid();
    WfAt40Laid();
  }

  lemma SingleWaveform1Laid()
    ensures ByAbi(SingleWaveform1)
  {
    hide Lay, Then, DeadtimeFields, EventFields, ReadoutFields, WfFields;
    EventLaid();
    DeadtimeLaid();
    ReadoutLaid();
    WfAt48Laid();
  }

  lemma SingleWaveform2Laid()
    ensures ByAbi(SingleWaveform2)
  {
    hide Lay, Then, DeadtimeFields, EventFields, PrioFields, ReadoutFields, WfFields;
    EventLaid();
    DeadtimeLaid();
    ReadoutLaid();
    PrioLaid();
    WfAt50Laid();
  }

  lemma NavAtt0Laid()
    ensures ByAbi(NavAtt0)
  {
    hide Lay, Then, AntennaFields, AttitudeFields, FixFields, QualityFields;
    FixLaid();
    AttitudeLaid();
    QualityLaid();
    AntennaLaid();
  }

  lemma NavPos0Laid()
    ensures ByAbi(NavPos0)
  {
    hide Lay, Then, FixFields, QualityFields, VelocityFields;
    FixLaid();
    VelocityLaid();
    QualityLaid();
  }

  lemma Slow0Laid()
    ensures ByAbi(Slow0)
  {
    hide Lay, Then, CpuFields, OldRateFields, RunFields, SlowFields;
    SlowLaid();
    CpuLaid();
    RunLaid();
    OldRateLaid();
  }

  lemma Slow1Laid()
    ensures ByAbi(Slow1)
  {
    hide Lay, Then, CpuFields, CurrentFields, PowerFields, PresenceFields, RateFields, RunFields, SlowFields, StatusFields;
    SlowLaid();
    CpuLaid();
    PresenceLaid();
    RunLaid();
    RateLaid();
    StatusLaid();
    PowerLaid();
    CurrentLaid();
  }

  lemma DaqHsk0Laid()
    ensures ByAbi(DaqHsk0)
  {
    hide Lay, Then, HskFields, RatesFields;
    HskLaid();
    RatesLaid();
  }

  lemma DaqHsk1Laid()
    ensures ByAbi(DaqHsk1)
  {
    hide Lay, Then, HskFields, RatesFields, TotalFields;
    HskLaid();
    RatesLaid();
    TotalLaid();
  }

  lemma DaqHsk2Laid()
    ensures ByAbi(DaqHsk2)
  {
    hide Lay, Then, HskFields, MaskFields, RatesFields, TotalFields;
    HskLaid();
    RatesLaid();
    TotalLaid();
    MaskLaid();
  }

  lemma DaqHsk3Laid()
    ensures ByAbi(DaqHsk3)
  {
    hide Lay, Then, CounterFields, DeadFields, HskFields, MaskFields, RatesFields, TotalFields;
    HskLaid();
    RatesLaid();
    TotalLaid();
    MaskLaid();
    CounterAt12796Laid();
    DeadAt12796Laid();
  }

  lemma DaqHskSummary0Laid()
    ensures ByAbi(DaqHskSummary0)
  {
    hide Lay, Then, AverageFields, SpanFields, SummaryFields;
    SummaryLaid();
    AverageLaid();
    SpanLaid();
  }

  lemma DaqHskSummary1Laid()
    ensures ByAbi(DaqHskSummary1)
  {
    hide Lay, Then, AverageFields, EnableFields, SpanFields, SummaryFields;
    SummaryLaid();
    AverageLaid();
    SpanLaid();
    EnableLaid();
  }

  lemma DaqHskSummary2Laid()
    ensures ByAbi(DaqHskSummary2)
  {
    hide Lay, Then, AverageFields, CounterFields, DeadFields, EnableFields, SpanFields, SummaryFields;
    SummaryLaid();
    AverageLaid();
    SpanLaid();
    EnableLaid();
    CounterAt5060Laid();
    DeadAt5060Laid();
  }

  lemma PrioStatus0Laid()
    ensures ByAbi(PrioStatus0)
  {
    hide Lay, Then, FractionFields, StatusTotals;
    FractionLaid();
    StatusTotalsLaid();
  }

  lemma InnerByAbi(d: Decl)
    requires IsInner(d)
    ensures ByAbi(d)
  {
    hide LaidOut, TimeDecl, PriorityDecl, WaveformStructDecl, SensorDiskDecl, SensorTelemDecl, SatDecl,
      PalDecl, SsdDecl, NavDecl, SunSampleDecl, BeamDecl, SurfDecl, SummaryBeamDecl, SummarySurfDecl;
    TimeLaid();
    PriorityLaid();
    WaveformStructLaid();
    SensorDiskLaid();
    SensorTelemLaid();
    SatLaid();
    PalLaid();
    SsdLaid();
    NavLaid();
    SunSampleLaid();
    BeamLaid();
    SurfLaid();
    SummaryBeamLaid();
    SummarySurfLaid();
  }

  lemma ComposedByAbi(d: Decl)
    requires IsComposed(d)
    ensures ByAbi(d)
  {
    hide ByAbi;
    match d
    case FullWaveforms0 => FullWaveforms0Laid();
    case FullWaveforms1 => FullWaveforms1Laid();
    case SingleWaveform0 => SingleWaveform0Laid();
    case SingleWaveform1 => SingleWaveform1Laid();
    case SingleWaveform2 => SingleWaveform2Laid();
    case NavAtt0 => NavAtt0Laid();
    case NavPos0 => NavPos0Laid();
    case Slow0 => Slow0Laid();
    case Slow1 => Slow1Laid();
    case DaqHsk0 => DaqHsk0Laid();
    case DaqHsk1 => DaqHsk1Laid();
    case DaqHsk2 => DaqHsk2Laid();
    case DaqHsk3 => DaqHsk3Laid();
    case DaqHskSummary0 => DaqHskSummary0Laid();
    case DaqHskSummary1 => DaqHskSummary1Laid();
    case DaqHskSummary2 => DaqHskSummary2Laid();
    case PrioStatus0 => PrioStatus0Laid();
  }

  lemma OtherByAbi(d: Decl)
    requires !IsInner(d) && !IsComposed(d)
    ensures ByAbi(d)
  {
    hide LaidOut, NavSat0Decl, SensorsTelem1Decl, SensorsDisk1Decl, CmdEcho0Decl, SunSensor0Decl,
      Timemark0Decl, StarTracker0Decl, Logs0Decl, FileDownload0Decl, SavedPriorities0Decl;
    NavSat0Laid();
    CmdEcho0Laid();
    SensorsTelem1Laid();
    SensorsDisk1Laid();
    SunSensor0Laid();
    Timemark0Laid();
    StarTracker0Laid();
    SavedPriorities0Laid();
    Logs0Laid();
    FileDownload0Laid();
  }

  /** Every struct is laid out as the ABI requires. */
  lemma StructsByAbi(d: Decl)
    ensures ByAbi(d)
  {
    hide ByAbi;
    hide IsInner, IsComposed;
    if IsInner(d) {
      InnerByAbi(d);
    } else if IsComposed(d) {
      ComposedByAbi(d);
    } else {
      OtherByAbi(d);
    }
  }

  //////////////////////////////////////////////////////////////////////////////
  // Sizes and offsets
  //////////////////////////////////////////////////////////////////////////////

  /** pueo_X_vN_t: the struct of a version; the newest is pueo_X_t. */
  function DeclOf(t: PacketType, ver: nat): Decl
    requires ver <= Latest(t)
  {
    match t
    case FullWaveforms => if ver == 0 then FullWaveforms0 else FullWaveforms1
    case SingleWaveform => if ver == 0 then SingleWaveform0 else if ver == 1 then SingleWaveform1 else SingleWaveform2
    case NavAtt => NavAtt0
    case NavSat => NavSat0
    case NavPos => NavPos0
    case SensorsTelem => SensorsTelem1
    case SensorsDisk => SensorsDisk1
    case Slow => if ver == 0 then Slow0 else Slow1
    case CmdEcho => CmdEcho0
    case SunSensor => SunSensor0
    case Timemark => Timemark0
    case StarTracker => StarTracker0
    case Logs => Logs0
    case DaqHsk => if ver == 0 then DaqHsk0 else if ver == 1 then DaqHsk1 else if ver == 2 then DaqHsk2 else DaqHsk3
    case DaqHskSummary => if ver == 0 then DaqHskSummary0 else if ver == 1 then DaqHskSummary1 else DaqHskSummary2
    case FileDownload => FileDownload0
    case SavedPriorities => SavedPriorities0
    case PrioStatus => PrioStatus0
  }

  lemma SizesMatch(t: PacketType, ver: nat)
    requires ver <= Latest(t)
    ensures SizeTable(t)[ver] == SizeOf(DeclOf(t, ver))
  {}

  /** The size tables hold the sizes that the ABI gives to the declared structs. */
  lemma SizesAreLaidOut(t: PacketType, ver: nat)
    requires ver <= Latest(t)
    ensures ByAbi(DeclOf(t, ver))
    ensures SizeTable(t)[ver] == SizeOf(DeclOf(t, ver))
    ensures InMemory(t) == SizeOf(DeclOf(t, Latest(t)))
  {
    hide ByAbi, DeclOf;
    StructsByAbi(DeclOf(t, ver));
    SizesMatch(t, ver);
    SizesMatch(t, Latest(t));
    SizesGrow(t, Latest(t), Latest(t));
  }

  function Length(fs: Fields): nat {
    if fs.End? then 0 else 1 + Length(fs.rest)
  }

  /** The fields from the k-th on. */
  function Nth(fs: Fields, k: nat): Fields
    decreases fs
  {
    if fs.End? || k == 0 then fs else Nth(fs.rest, k - 1)
  }

  lemma {:induction false} NthThen(a: Fields, b: Fields, k: nat)
    ensures Nth(Then(a, b), Length(a) + k) == Nth(b, k)
    decreases a
  {
    match a
    case End =>
    case Field(_, _, _, rest) => NthThen(rest, b, k);
    case Bits(_, _, _, _, rest) => NthThen(rest, b, k);
  }

  /** A waveform is its length in bytes 2 and 3 and its samples behind byte 4. */
  lemma WaveformOffsets()
    ensures WF_SIZE == SizeOf(WaveformStruct)
    ensures Nth(WaveformStructDecl(), 2) ==
      Field(length, 2, Scalar(2), Field(data, WF_DATA, Array(Scalar(2), MAX_SAMPLES), End))
  {}

  lemma EventLength()
    ensures Length(EventFields()) == 6 && Length(DeadtimeFields()) == 8 && Length(MetaFields()) == 1
  {}

  /** What follows the deadtime fields, or in version 0 the field in their place. */
  lemma BehindEvent(b: Fields, k: nat)
    ensures Nth(Then(EventFields(), Then(DeadtimeFields(), b)), 14 + k) == Nth(b, k)
    ensures Nth(Then(EventFields(), Then(MetaFields(), b)), 7 + k) == Nth(b, k)
  {
    hide Then, Nth, EventFields, DeadtimeFields, MetaFields;
    EventLength();
    NthThen(EventFields(), Then(DeadtimeFields(), b), 8 + k);
    NthThen(DeadtimeFields(), b, k);
    NthThen(EventFields(), Then(MetaFields(), b), 1 + k);
    NthThen(MetaFields(), b, k);
  }

  lemma NthNone(a: Fields)
    ensures Nth(a, 0) == a
  {}

  lemma ReadoutThen(b: Fields)
    ensures Then(ReadoutFields(), b) == Field(readout_time, READOUT_TIME, Struct(Time), b)
    ensures Nth(Then(ReadoutFields(), b), 1) == b
  {
    NthNone(b);
  }

  lemma PrioThen(b: Fields)
    ensures Then(PrioFields(), b) == Field(prio, 48, Struct(Priority), b)
    ensures Nth(Then(ReadoutFields(), Then(PrioFields(), b)), 2) == b
  {
    NthNone(b);
  }

  lemma EventTails()
    ensures Nth(FullWaveforms0Decl(), 7) == WfsFields(40)
    ensures Nth(FullWaveforms1Decl(), 14) == Field(readout_time, READOUT_TIME, Struct(Time), WfsFields(48))
    ensures Nth(FullWaveforms1Decl(), 15) == WfsFields(48)
  {
    hide Then, Nth, EventFields, DeadtimeFields, MetaFields, ReadoutFields, WfsFields;
    var f := Then(ReadoutFields(), WfsFields(48));
    BehindEvent(WfsFields(40), 0);
    BehindEvent(f, 0);
    BehindEvent(f, 1);
    ReadoutThen(WfsFields(48));
    NthNone(WfsFields(40));
    NthNone(f);
  }

  lemma SingleTails()
    ensures Nth(SingleWaveform0Decl(), 7) == WfFields(40) && Nth(SingleWaveform1Decl(), 15) == WfFields(48)
    ensures Nth(SingleWaveform2Decl(), 14) ==
      Field(readout_time, READOUT_TIME, Struct(Time), Field(prio, 48, Struct(Priority), WfFields(50)))
    ensures Nth(SingleWaveform2Decl(), 16) == WfFields(50)
  {
    hide Then, Nth, EventFields, DeadtimeFields, MetaFields, ReadoutFields, PrioFields, WfFields;
    var f, g := Then(ReadoutFields(), WfFields(48)), Then(ReadoutFields(), Then(PrioFields(), WfFields(50)));
    BehindEvent(WfFields(40), 0);
    BehindEvent(f, 1);
    BehindEvent(g, 0);
    BehindEvent(g, 2);
    ReadoutThen(WfFields(48));
    ReadoutThen(Then(PrioFields(), WfFields(50)));
    PrioThen(WfFields(50));
    NthNone(WfFields(40));
    NthNone(g);
  }

  /** The waveforms of a type, and the number of the field that holds them in each version. */
  function WaveformsOf(t: PacketType): (Name, Type)
    requires Waveform(t)
  {
    if t.FullWaveforms? then (wfs, Array(Struct(WaveformStruct), 224)) else (wf, Struct(WaveformStruct))
  }

  function WaveformsAt(t: PacketType, ver: nat): nat {
    if ver == 0 then 7 else if ver == 1 then 15 else 16
  }

  lemma EventDecls()
    ensures Declared(FullWaveforms0) == FullWaveforms0Decl() && Declared(FullWaveforms1) == FullWaveforms1Decl()
  {
    hide Then, FullWaveforms0Decl, FullWaveforms1Decl;
  }

  lemma SingleDecls()
    ensures Declared(SingleWaveform0) == SingleWaveform0Decl() && Declared(SingleWaveform1) == SingleWaveform1Decl()
    ensures Declared(SingleWaveform2) == SingleWaveform2Decl()
  {
    hide Then, SingleWaveform0Decl, SingleWaveform1Decl, SingleWaveform2Decl;
  }

  lemma WaveformSizes()
    ensures Size(WaveformsOf(FullWaveforms).1) == 224 * WF_SIZE && Size(WaveformsOf(SingleWaveform).1) == WF_SIZE
  {}

  /** What each version of a waveform type sends before its waveforms is what stands before them
      in the declaration of that version; in memory they are where the newest one has them. */
  lemma PrefixesAreLaidOut(t: PacketType, ver: nat)
    requires Waveform(t) && ver <= Latest(t)
    ensures Nth(Declared(DeclOf(t, ver)), WaveformsAt(t, ver)) ==
      Field(WaveformsOf(t).0, Prefix(t, ver), WaveformsOf(t).1, End)
    ensures var f := Nth(Declared(DeclOf(t, Latest(t))), 14);
      f.Field? && f.name == readout_time && f.at == READOUT_TIME && f.t == Struct(Time)
    ensures Prefix(t, Latest(t)) == WfOffset(t)
    ensures Size(WaveformsOf(t).1) == Channels(t) * WF_SIZE
  {
    hide FullWaveforms0Decl, FullWaveforms1Decl, SingleWaveform0Decl, SingleWaveform1Decl, SingleWaveform2Decl, Size,
      Declared, Nth;
    EventDecls();
    SingleDecls();
    WaveformSizes();
    EventTails();
    SingleTails();
  }

  /** The array of a counted type. */
  function ArrayOf(t: PacketType): Type
    requires Counted(t)
  {
    match t
    case SensorsDisk => Array(Struct(SensorDisk), 256)
    case SensorsTelem => Array(Struct(SensorTelem), 256)
    case CmdEcho => Array(Scalar(1), 256)
    case FileDownload => Array(Scalar(1), 65000)
    case Logs => Array(Scalar(1), 2048)
    case NavSat => Array(Struct(Sat), 255)
  }

  lemma ArraysEnd(t: PacketType)
    requires Counted(t)
    ensures ArrayEnd(t) == Base(t) + Size(ArrayOf(t))
  {}

  /** The arrays of the counted types, and the fields that count them. */
  lemma SensorOffsets()
    ensures SensorsDisk1Decl() == Field(num_packets, 0, Scalar(2), Field(sensor_id_magic, 2, Scalar(2),
      Field(sensors, Base(SensorsDisk), ArrayOf(SensorsDisk), End)))
    ensures Nth(SensorsTelem1Decl(), 2) ==
      Field(num_packets, 6, Scalar(2), Field(sensors, Base(SensorsTelem), ArrayOf(SensorsTelem), End))
  {}

  lemma EchoOffsets()
    ensures Nth(CmdEcho0Decl(), 1) ==
      Bits(len_m1, 8 * 4, 4, 8, Bits(count, 8 * 5, 4, 24, Field(data, Base(CmdEcho), ArrayOf(CmdEcho), End)))
  {}

  lemma FileOffsets()
    ensures Nth(FileDownload0Decl(), 5) ==
      Field(len, 38, Scalar(2), Field(bytes, Base(FileDownload), ArrayOf(FileDownload), End))
  {}

  lemma LogOffsets()
    ensures Nth(Logs0Decl(), 3) == Field(daemon_len, 6, Scalar(1), Field(grep_len, 7, Scalar(1),
      Field(msg_len, 8, Scalar(2), Field(buf, Base(Logs), ArrayOf(Logs), End))))
  {}

  lemma SatOffsets()
    ensures Nth(NavSat0Decl(), 3) == Field(nsats_visible, 17, Scalar(1), Field(source, 18, Scalar(1),
      Field(sats, Base(NavSat), ArrayOf(NavSat), End)))
  {}

  //////////////////////////////////////////////////////////////////////////////
  // Old versions
  //////////////////////////////////////////////////////////////////////////////

  /** b begins with the fields of a, at the same places. */
  predicate Begins(a: Fields, b: Fields) {
    match a
    case End => true
    case Field(name, at, t, rest) => b.Field? && b.name == name && b.at == at && b.t == t && Begins(rest, b.rest)
    case Bits(name, bit, unit, width, rest) =>
      && b.Bits? && b.name == name && b.bit == bit && b.unit == unit && b.width == width
      && Begins(rest, b.rest)
  }

  lemma {:induction false} BeginsUnder(a: Fields, b: Fields, c: Fields)
    requires Begins(b, c)
    ensures Begins(Then(a, b), Then(a, c))
    decreases a
  {
    match a
    case End =>
    case Field(_, _, _, rest) => BeginsUnder(rest, b, c);
    case Bits(_, _, _, _, rest) => BeginsUnder(rest, b, c);
  }

  lemma {:induction false} BeginsThen(a: Fields, b: Fields)
    ensures Begins(a, Then(a, b))
    decreases a
  {
    match a
    case End =>
    case Field(_, _, _, rest) => BeginsThen(rest, b);
    case Bits(_, _, _, _, rest) => BeginsThen(rest, b);
  }

  lemma {:induction false} BeginsTwice(a: Fields, b: Fields, c: Fields)
    requires Begins(a, b) && Begins(b, c)
    ensures Begins(a, c)
    decreases a
  {
    match a
    case End =>
    case Field(_, _, _, rest) => BeginsTwice(rest, b.rest, c.rest);
    case Bits(_, _, _, _, rest) => BeginsTwice(rest, b.rest, c.rest);
  }

  /** Two lists start with the same field at the same place. */
  predicate SameFirst(a: Fields, b: Fields) {
    match a
    case End => false
    case Field(name, at, t, _) => b.Field? && b.name == name && b.at == at && b.t == t
    case Bits(name, bit, unit, width, _) => b.Bits? && b.name == name && b.bit == bit && b.unit == unit && b.width == width
  }

  /** Every field that was there keeps its place. */
  lemma {:induction false} PlacesKept(a: Fields, b: Fields, k: nat)
    ensures Begins(a, b) && !Nth(a, k).End? ==> SameFirst(Nth(a, k), Nth(b, k))
    decreases k
  {
    if Begins(a, b) && !a.End? && k > 0 {
      PlacesKept(a.rest, b.rest, k - 1);
    }
  }

  lemma HskVersionsGrow()
    ensures Begins(DaqHsk0Decl(), DaqHsk1Decl()) && Begins(DaqHsk1Decl(), DaqHsk2Decl())
    ensures Begins(DaqHsk2Decl(), DaqHsk3Decl())
  {
    hide HskFields, RatesFields, TotalFields, MaskFields, CounterFields, DeadFields, Begins, Then;
    var h, r, t, m, c := HskFields(), RatesFields(), TotalFields(), MaskFields(), Then(CounterFields(12796), DeadFields(12796));
    BeginsThen(r, t);
    BeginsUnder(h, r, Then(r, t));
    BeginsThen(t, m);
    BeginsUnder(r, t, Then(t, m));
    BeginsUnder(h, Then(r, t), Then(r, Then(t, m)));
    BeginsThen(m, c);
    BeginsUnder(t, m, Then(m, c));
    BeginsUnder(r, Then(t, m), Then(t, Then(m, c)));
    BeginsUnder(h, Then(r, Then(t, m)), Then(r, Then(t, Then(m, c))));
  }

  lemma SummaryVersionsGrow()
    ensures Begins(DaqHskSummary0Decl(), DaqHskSummary1Decl())
    ensures Begins(DaqHskSummary1Decl(), DaqHskSummary2Decl())
  {
    hide SummaryFields, AverageFields, SpanFields, EnableFields, CounterFields, DeadFields, Begins, Then;
    var s, a, p, e, c := SummaryFields(), AverageFields(), SpanFields(), EnableFields(), Then(CounterFields(5060), DeadFields(5060));
    BeginsThen(p, e);
    BeginsUnder(a, p, Then(p, e));
    BeginsUnder(s, Then(a, p), Then(a, Then(p, e)));
    BeginsThen(e, c);
    BeginsUnder(p, e, Then(e, c));
    BeginsUnder(a, Then(p, e), Then(p, Then(e, c)));
    BeginsUnder(s, Then(a, Then(p, e)), Then(a, Then(p, Then(e, c))));
  }

  lemma {:induction false} BeginsItself(a: Fields)
    ensures Begins(a, a)
    decreases a
  {
    match a
    case End =>
    case Field(_, _, _, rest) => BeginsItself(rest);
    case Bits(_, _, _, _, rest) => BeginsItself(rest);
  }

  lemma SlowLength()
    ensures Length(SlowFields()) == 5 && Length(CpuFields()) == 4 && Length(PresenceFields()) == 5
    ensures Length(RunFields()) == 2 && Length(RateFields()) == 6 && Length(OldRateFields()) == 3
  {}

  lemma BehindCpu(b: Fields, k: nat)
    ensures Nth(Then(SlowFields(), Then(CpuFields(), b)), 9 + k) == Nth(b, k)
  {
    hide Then, Nth, SlowFields, CpuFields;
    SlowLength();
    NthThen(SlowFields(), Then(CpuFields(), b), 4 + k);
    NthThen(CpuFields(), b, k);
  }

  function StatusRest(): Fields {
    Then(StatusFields(), Then(PowerFields(), CurrentFields()))
  }

  function SlowRest(): Fields {
    Then(RateFields(), StatusRest())
  }

  lemma SlowTails(k: nat)
    ensures Nth(Slow0Decl(), 9 + k) == Nth(Then(RunFields(), OldRateFields()), k)
    ensures Nth(Slow1Decl(), 9 + k) == Nth(Then(PresenceFields(), Then(RunFields(), SlowRest())), k)
    ensures Nth(Slow0Decl(), 11 + k) == Nth(OldRateFields(), k)
    ensures Nth(Slow1Decl(), 14 + k) == Nth(Then(RunFields(), SlowRest()), k)
    ensures Nth(Slow1Decl(), 16 + k) == Nth(SlowRest(), k)
  {
    hide Then, Nth, SlowFields, CpuFields, RunFields, OldRateFields, PresenceFields, RateFields, StatusFields, PowerFields,
      CurrentFields;
    SlowLength();
    var before, after := Then(RunFields(), OldRateFields()), Then(RunFields(), SlowRest());
    BehindCpu(before, k);
    BehindCpu(Then(PresenceFields(), after), k);
    BehindCpu(before, 2 + k);
    NthThen(RunFields(), OldRateFields(), k);
    BehindCpu(Then(PresenceFields(), after), 5 + k);
    NthThen(PresenceFields(), after, k);
    BehindCpu(Then(PresenceFields(), after), 7 + k);
    NthThen(PresenceFields(), after, 2 + k);
    NthThen(RunFields(), SlowRest(), k);
  }

  lemma FirstOnes(a: Fields, b: Fields)
    ensures Then(RunFields(), a).Field? && Then(PresenceFields(), b).Bits?
  {}

  /** The tenth field of slow is another one in version 1. */
  lemma SlowDoesNotGrow()
    ensures !Begins(Slow0Decl(), Slow1Decl())
  {
    hide Begins, Slow0Decl, Slow1Decl, RunFields, PresenceFields, OldRateFields, SlowRest, Then, Nth;
    var a, b := OldRateFields(), Then(RunFields(), SlowRest());
    SlowTails(0);
    NthNone(Then(RunFields(), a));
    NthNone(Then(PresenceFields(), b));
    FirstOnes(a, b);
    PlacesKept(Slow0Decl(), Slow1Decl(), 9);
  }

  /** Where the fields of version 0 of slow are in version 1: those of the run have kept their
      bytes, behind new flags; the event count is shorter; and where the rates stood, there
      are now a new count, an uptime and the new rates. */
  lemma SlowFieldsMove()
    ensures Nth(Slow0Decl(), 9) == Field(current_run, 16, Scalar(2), Field(current_run_secs, 18, Scalar(2),
      Field(current_run_events, 20, Scalar(4), Field(L1_rates, 24, Array(Scalar(2), 12),
      Field(L2_rates, 48, Array(Scalar(1), 12), End)))))
    ensures Nth(Slow1Decl(), 14) == Field(current_run, 16, Scalar(2), Field(current_run_secs, 18, Scalar(2),
      Bits(current_run_events, 8 * 20, 4, 24, Bits(acqd_running, 184, 4, 1, Bits(prioritizerd_running, 185, 4, 1,
      Bits(current_run_rf_events, 8 * 24, 4, 24, Bits(hsk_uptime, 8 * 28, 4, 24,
      Field(L2_rates, 32, Array(Array(Scalar(2), 2), 12), StatusRest()))))))))
  {
    hide Slow0Decl, Slow1Decl, StatusRest, Nth;
    SlowTails(0);
    NthNone(Then(RunFields(), OldRateFields()));
    NthNone(Then(RunFields(), SlowRest()));
  }

  lemma OldHskDecls()
    ensures Declared(DaqHsk0) == DaqHsk0Decl() && Declared(DaqHsk1) == DaqHsk1Decl()
  {
    hide Then, DaqHsk0Decl, DaqHsk1Decl;
  }

  lemma NewHskDecls()
    ensures Declared(DaqHsk2) == DaqHsk2Decl() && Declared(DaqHsk3) == DaqHsk3Decl()
  {
    hide Then, DaqHsk2Decl, DaqHsk3Decl;
  }

  lemma OldSummaryDecls()
    ensures Declared(DaqHskSummary0) == DaqHskSummary0Decl() && Declared(DaqHskSummary1) == DaqHskSummary1Decl()
  {
    hide Then, DaqHskSummary0Decl, DaqHskSummary1Decl;
  }

  lemma NewSummaryDecl()
    ensures Declared(DaqHskSummary2) == DaqHskSummary2Decl()
  {
    hide Then, DaqHskSummary2Decl;
  }

  lemma SlowDecls()
    ensures Declared(Slow0) == Slow0Decl() && Declared(Slow1) == Slow1Decl()
  {
    hide Then, Slow0Decl, Slow1Decl;
  }

  lemma HskGrows(v: nat, w: nat)
    ensures v <= w <= 3 ==> Begins(Declared(DeclOf(DaqHsk, v)), Declared(DeclOf(DaqHsk, w)))
  {
    hide Begins, Declared, DaqHsk0Decl, DaqHsk1Decl, DaqHsk2Decl, DaqHsk3Decl;
    OldHskDecls();
    NewHskDecls();
    HskVersionsGrow();
    if v <= w <= 3 {
      BeginsItself(Declared(DeclOf(DaqHsk, v)));
      BeginsTwice(DaqHsk0Decl(), DaqHsk1Decl(), DaqHsk2Decl());
      BeginsTwice(DaqHsk0Decl(), DaqHsk2Decl(), DaqHsk3Decl());
      BeginsTwice(DaqHsk1Decl(), DaqHsk2Decl(), DaqHsk3Decl());
    }
  }

  lemma SummaryGrows(v: nat, w: nat)
    ensures v <= w <= 2 ==> Begins(Declared(DeclOf(DaqHskSummary, v)), Declared(DeclOf(DaqHskSummary, w)))
  {
    hide Begins, Declared, DaqHskSummary0Decl, DaqHskSummary1Decl, DaqHskSummary2Decl;
    OldSummaryDecls();
    NewSummaryDecl();
    SummaryVersionsGrow();
    if v <= w <= 2 {
      BeginsItself(Declared(DeclOf(DaqHskSummary, v)));
      BeginsTwice(DaqHskSummary0Decl(), DaqHskSummary1Decl(), DaqHskSummary2Decl());
    }
  }

  lemma SlowChanges()
    ensures !Begins(Declared(Slow0), Declared(Slow1))
  {
    hide Begins, Declared, Slow0Decl, Slow1Decl;
    SlowDecls();
    SlowDoesNotGrow();
  }

  /** A plain type grows from version to version by new fields behind the old ones, which keep
      their places, with one exception: version 1 of slow is laid out anew. */
  lemma VersionsGrow(t: PacketType, v: nat, w: nat)
    requires Simple(t) && v <= w <= Latest(t)
    ensures Begins(Declared(DeclOf(t, v)), Declared(DeclOf(t, w))) <==> !(t == Slow && v < w)
  {
    hide Begins, Declared;
    BeginsItself(Declared(DeclOf(t, v)));
    HskGrows(v, w);
    SummaryGrows(v, w);
    SlowChanges();
  }
}
