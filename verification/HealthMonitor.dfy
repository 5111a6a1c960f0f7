/** core/health_monitor.c: block accounting on wrapping 32-bit counters, and the quality of a result. */
module HealthMonitor {
  import opened Bytes
  import opened Format
  import opened Protocol
  import opened StatusBits

  const FRAMES := 1024
  const SIGNAL_MIN_RMS_Q15 := 128
  const SIGNAL_CLIP_Q15 := 32700
  const SIGNAL_MIN_SPAN_Q15 := 32

  /** A descriptor's generation and time, as the monitor sees them. */
  datatype Stamp = Stamp(generation: u32, timestampUs: u32)

  /** uint32_t subtraction. */
  function Minus32(a: u32, b: u32): u32 {
    (a - b) % TWO_32
  }

  function Plus32(a: u32, b: u32): u32 {
    (a + b) % TWO_32
  }

  function Tolerance(period: u32): u32 {
    period / 20 + 1
  }

  /** The test the code makes, in its own arithmetic. */
  predicate TimingFault(elapsed: u32, period: u32) {
    || Plus32(elapsed, Tolerance(period)) < period
    || elapsed > Plus32(period, Tolerance(period))
  }

  /** The test that is meant. */
  predicate OffPeriod(elapsed: int, period: int) {
    elapsed - period > period / 20 + 1 || period - elapsed > period / 20 + 1
  }

  /** Despite the possible wrap the test is exact, for every elapsed time, exactly if the period and
      twice its tolerance fit in 32 bits. */
  lemma TimingTestExact(period: u32)
    ensures (forall elapsed: u32 :: TimingFault(elapsed, period) <==> OffPeriod(elapsed, period))
       <==> period + 2 * Tolerance(period) < TWO_32
  {
    var t := Tolerance(period);
    if period + 2 * t < TWO_32 {
      forall elapsed: u32
        ensures TimingFault(elapsed, period) <==> OffPeriod(elapsed, period)
      {
        if elapsed + t >= TWO_32 {
          assert Plus32(elapsed, t) == elapsed + t - TWO_32;
        }
      }
    } else {
      var wrapping: u32 := TWO_32 - t;
      assert Plus32(wrapping, t) == 0;
      assert TimingFault(wrapping, period) && !OffPeriod(wrapping, period);
    }
  }

  /** How many blocks a change of generation by `delta` adds to the drop count. */
  function MissedBy(delta: u32): nat {
    if delta == 0 then 1 else delta - 1
  }

  datatype Monitor = Monitor(last: Option<Stamp>, droppedBlocks: u32, timingFaults: u32)

  const NEW_MONITOR := Monitor(None, 0, 0)

  /** What one full block does to the monitor. */
  function Observe(m: Monitor, b: Stamp, period: u32): Monitor {
    if m.last.None? then m.(last := Some(b))
    else
      Monitor(Some(b),
              (m.droppedBlocks + MissedBy(Minus32(b.generation, m.last.value.generation))) % TWO_32,
              if TimingFault(Minus32(b.timestampUs, m.last.value.timestampUs), period)
              then Increment(m.timingFaults) else m.timingFaults)
  }

  /** Two blocks in a row between which the monitor sees a gap, in number or in time. */
  predicate GapSeen(last: Stamp, b: Stamp, period: u32) {
    || Minus32(b.generation, last.generation) != 1
    || TimingFault(Minus32(b.timestampUs, last.timestampUs), period)
  }

  /** The status returned for one full block. */
  function CheckBits(m: Monitor, b: Stamp, period: u32): (bits: set<Status>)
    ensures {ADC_RUNNING} <= bits <= {ADC_RUNNING, BLOCK_GAP}
  {
    if m.last.Some? && GapSeen(m.last.value, b, period) then {ADC_RUNNING, BLOCK_GAP} else {ADC_RUNNING}
  }

  function ObserveAll(stamps: seq<Stamp>, period: u32): Monitor {
    if stamps == [] then NEW_MONITOR
    else Observe(ObserveAll(stamps[..|stamps| - 1], period), stamps[|stamps| - 1], period)
  }

  class AcquisitionMonitor {
    var lastGeneration: u32
    var lastTimestampUs: u32
    var droppedBlocks: u32
    var timingFaults: u32
    var initialized: bool

    ghost function State(): Monitor
      reads this
    {
      Monitor(if initialized then Some(Stamp(lastGeneration, lastTimestampUs)) else None, droppedBlocks, timingFaults)
    }

    constructor ()
      ensures State() == NEW_MONITOR
    {
      lastGeneration, lastTimestampUs, droppedBlocks, timingFaults, initialized := 0, 0, 0, 0, false;
    }

    /** acquisition_health_check. A block of another size is refused and leaves no trace. */
    method Check(b: Stamp, frames: u16, period: u32) returns (status: set<Status>)
      modifies this
      ensures frames != 1024 ==> status == {NUMERIC_FAULT} && State() == old(State())
      ensures frames == 1024 ==> State() == Observe(old(State()), b, period)
      ensures frames == 1024 ==> status == CheckBits(old(State()), b, period)
    {
      if frames != FRAMES {
        return {NUMERIC_FAULT};
      }
      status := {ADC_RUNNING};
      if initialized {
        var delta := Minus32(b.generation, lastGeneration);
        if delta != 1 {
          status := status + {BLOCK_GAP};
          droppedBlocks := Plus32(droppedBlocks, if delta > 1 then delta - 1 else 1);
        }
        var elapsed := Minus32(b.timestampUs, lastTimestampUs);
        var tolerance := period / 20 + 1;
        if Plus32(elapsed, tolerance) < period || elapsed > Plus32(period, tolerance) {
          status := status + {BLOCK_GAP};
          timingFaults := Increment(timingFaults);
        }
      }
      initialized := true;
      lastGeneration := b.generation;
      lastTimestampUs := b.timestampUs;
    }
  }

  /** A block as it truly is, before generation and time are cut to 32 bits. */
  datatype TrueStamp = TrueStamp(generation: nat, timestampUs: nat)

  function Seen(b: TrueStamp): Stamp {
    Stamp(b.generation % TWO_32, b.timestampUs % TWO_32)
  }

  function AllSeen(blocks: seq<TrueStamp>): (s: seq<Stamp>)
    ensures |s| == |blocks| && forall i :: 0 <= i < |s| ==> s[i] == Seen(blocks[i])
  {
    seq(|blocks|, (i: nat) requires i < |blocks| => Seen(blocks[i]))
  }

  /** How often the same generation was seen twice in a row. */
  function RepeatsOf(blocks: seq<TrueStamp>): nat {
    if |blocks| <= 1 then 0
    else
      RepeatsOf(blocks[..|blocks| - 1])
      + if blocks[|blocks| - 1].generation == blocks[|blocks| - 2].generation then 1 else 0
  }

  lemma WrappedDifference(a: nat, b: nat)
    requires b <= a < b + TWO_32
    ensures Minus32(a % TWO_32, b % TWO_32) == a - b
  {
    var qa, qb := a / TWO_32, b / TWO_32;
    assert a == TWO_32 * qa + a % TWO_32 && b == TWO_32 * qb + b % TWO_32;
    if qa == qb {
    } else {
      assert qa == qb + 1;
    }
  }

  lemma AddModulo(a: int, d: nat)
    ensures (a % TWO_32 + d) % TWO_32 == (a + d) % TWO_32
  {
  }

  lemma DropStep(passed: int, previous: nat, next: nat)
    requires previous <= next < previous + TWO_32
    ensures (passed % TWO_32 + MissedBy(Minus32(next % TWO_32, previous % TWO_32))) % TWO_32
         == (passed + (next - previous) - 1 + 2 * if next == previous then 1 else 0) % TWO_32
  {
    WrappedDifference(next, previous);
    AddModulo(passed, MissedBy(next - previous));
  }

  /** The monitor has seen the last of these blocks, and its drop count is what they call for. */
  ghost predicate CountsDrops(m: Monitor, blocks: seq<TrueStamp>)
    requires blocks != []
  {
    var n := |blocks|;
    && m.last == Some(Seen(blocks[n - 1]))
    && m.droppedBlocks
       == (blocks[n - 1].generation - blocks[0].generation - (n - 1) + 2 * RepeatsOf(blocks)) % TWO_32
  }

  lemma CountsStep(m: Monitor, blocks: seq<TrueStamp>, period: u32)
    requires |blocks| > 1 && CountsDrops(m, blocks[..|blocks| - 1])
    requires var n := |blocks|;
             blocks[n - 2].generation <= blocks[n - 1].generation < blocks[n - 2].generation + TWO_32
    ensures CountsDrops(Observe(m, Seen(blocks[|blocks| - 1]), period), blocks)
  {
    hide TimingFault, Minus32, MissedBy;
    var n := |blocks|;
    var rest := blocks[..n - 1];
    var passed := rest[n - 2].generation - rest[0].generation - (n - 2) + 2 * RepeatsOf(rest);
    DropStep(passed, blocks[n - 2].generation, blocks[n - 1].generation);
  }

  lemma ObserveLast(blocks: seq<TrueStamp>, period: u32)
    requires blocks != []
    ensures ObserveAll(AllSeen(blocks), period)
         == Observe(ObserveAll(AllSeen(blocks[..|blocks| - 1]), period), Seen(blocks[|blocks| - 1]), period)
  {
    var s := AllSeen(blocks);
    assert s[..|s| - 1] == AllSeen(blocks[..|blocks| - 1]);
  }

  lemma NothingObserved(stamps: seq<Stamp>, period: u32)
    requires stamps == []
    ensures ObserveAll(stamps, period) == NEW_MONITOR
  {
  }

  /** Over every run in which generations never go back, nor forward by 2^32 at once, the wrapping drop count
      is (last - first) - (accepted - 1), plus two for each generation that was seen again. */
  lemma {:induction false} DropsAreExact(blocks: seq<TrueStamp>, period: u32)
    requires blocks != []
    requires forall i :: 0 < i < |blocks| ==>
                           blocks[i - 1].generation <= blocks[i].generation < blocks[i - 1].generation + TWO_32
    ensures CountsDrops(ObserveAll(AllSeen(blocks), period), blocks)
  {
    ObserveLast(blocks, period);
    if |blocks| == 1 {
      NothingObserved(AllSeen(blocks[..0]), period);
    } else {
      var rest := blocks[..|blocks| - 1];
      hide ObserveAll, Observe, CountsDrops, AllSeen, Seen;
      DropsAreExact(rest, period);
      CountsStep(ObserveAll(AllSeen(rest), period), blocks, period);
    }
  }

  /** How many successive blocks are off the period. */
  function OffPairs(blocks: seq<TrueStamp>, period: u32): nat {
    if |blocks| <= 1 then 0
    else
      var n := |blocks|;
      OffPairs(blocks[..n - 1], period)
      + if OffPeriod(blocks[n - 1].timestampUs - blocks[n - 2].timestampUs, period) then 1 else 0
  }

  lemma FaultStep(m: Monitor, blocks: seq<TrueStamp>, period: u32)
    requires |blocks| > 1 && m.last == Some(Seen(blocks[|blocks| - 2]))
    requires m.timingFaults == OffPairs(blocks[..|blocks| - 1], period) % TWO_32
    requires var n := |blocks|;
             blocks[n - 2].timestampUs <= blocks[n - 1].timestampUs < blocks[n - 2].timestampUs + TWO_32
    requires period + 2 * Tolerance(period) < TWO_32
    ensures Observe(m, Seen(blocks[|blocks| - 1]), period).timingFaults == OffPairs(blocks, period) % TWO_32
  {
    var b, last := blocks[|blocks| - 1], blocks[|blocks| - 2];
    WrappedDifference(b.timestampUs, last.timestampUs);
    TimingTestExact(period);
    hide TimingFault, OffPeriod, Minus32, MissedBy;
    var elapsed: u32 := b.timestampUs - last.timestampUs;
    assert TimingFault(elapsed, period) <==> OffPeriod(elapsed, period);
    AddModulo(OffPairs(blocks[..|blocks| - 1], period), 1);
  }

  lemma ObserveRemembers(blocks: seq<TrueStamp>, period: u32)
    requires blocks != []
    ensures ObserveAll(AllSeen(blocks), period).last == Some(Seen(blocks[|blocks| - 1]))
  {
    ObserveLast(blocks, period);
    hide ObserveAll, AllSeen, Seen;
  }

  /** Time goes on, by less than 2^32 us from block to block. */
  ghost predicate InTime(blocks: seq<TrueStamp>) {
    forall i :: 0 < i < |blocks| ==>
                  blocks[i - 1].timestampUs <= blocks[i].timestampUs < blocks[i - 1].timestampUs + TWO_32
  }

  lemma LastInTime(blocks: seq<TrueStamp>)
    requires InTime(blocks) && |blocks| > 1
    ensures var n := |blocks|;
            blocks[n - 2].timestampUs <= blocks[n - 1].timestampUs < blocks[n - 2].timestampUs + TWO_32
    ensures InTime(blocks[..|blocks| - 1])
  {
  }

  /** Over every run whose blocks are less than 2^32 us apart, the wrapping fault counter is the number of
      successive blocks off the period. */
  lemma {:induction false} TimingFaultsAreExact(blocks: seq<TrueStamp>, period: u32)
    requires blocks != [] && InTime(blocks) && period + 2 * Tolerance(period) < TWO_32
    ensures ObserveAll(AllSeen(blocks), period).timingFaults == OffPairs(blocks, period) % TWO_32
  {
    ObserveLast(blocks, period);
    if |blocks| == 1 {
      NothingObserved(AllSeen(blocks[..0]), period);
    } else {
      var rest := blocks[..|blocks| - 1];
      hide ObserveAll, Observe, OffPairs, AllSeen, Seen, OffPeriod, InTime, Tolerance;
      LastInTime(blocks);
      TimingFaultsAreExact(rest, period);
      ObserveRemembers(rest, period);
      FaultStep(ObserveAll(AllSeen(rest), period), blocks, period);
    }
  }

  /** Without repetitions: exactly the blocks missing between the first accepted and the last. */
  lemma {:induction false} StrictRunsDropExactly(blocks: seq<TrueStamp>, period: u32)
    requires blocks != []
    requires forall i :: 0 < i < |blocks| ==>
                           blocks[i - 1].generation < blocks[i].generation < blocks[i - 1].generation + TWO_32
    ensures var n := |blocks|;
            ObserveAll(AllSeen(blocks), period).droppedBlocks
            == (blocks[n - 1].generation - blocks[0].generation - (n - 1)) % TWO_32
  {
    DropsAreExact(blocks, period);
    NoRepeats(blocks);
  }

  lemma {:induction false} NoRepeats(blocks: seq<TrueStamp>)
    requires forall i :: 0 < i < |blocks| ==> blocks[i - 1].generation < blocks[i].generation
    ensures RepeatsOf(blocks) == 0
  {
    if |blocks| > 1 {
      NoRepeats(blocks[..|blocks| - 1]);
    }
  }

  /** The gap bit means what it says: for a block whose true generation and time follow the last one's,
      it is set exactly if a generation was skipped or repeated or the interval is off. */
  lemma GapMeansGap(last: TrueStamp, b: TrueStamp, period: u32)
    requires last.generation <= b.generation < last.generation + TWO_32
    requires last.timestampUs <= b.timestampUs < last.timestampUs + TWO_32
    requires period + 2 * Tolerance(period) < TWO_32
    ensures var was, now := Seen(last), Seen(b);
            GapSeen(was, now, period)
            <==> b.generation != last.generation + 1 || OffPeriod(b.timestampUs - last.timestampUs, period)
  {
    WrappedDifference(b.generation, last.generation);
    WrappedDifference(b.timestampUs, last.timestampUs);
    TimingTestExact(period);
    hide TimingFault, OffPeriod;
    var elapsed: u32 := b.timestampUs - last.timestampUs;
    assert TimingFault(elapsed, period) <==> OffPeriod(elapsed, period);
  }

  /** The loop over the preview. */
  method Extremes(preview: seq<i16>) returns (minimum: i16, maximum: i16)
    requires |preview| > 0
    ensures minimum in preview && maximum in preview
    ensures forall i :: 0 <= i < |preview| ==> minimum <= preview[i] <= maximum
  {
    minimum, maximum := preview[0], preview[0];
    for i := 1 to |preview|
      invariant minimum in preview && maximum in preview
      invariant forall j :: 0 <= j < i ==> minimum <= preview[j] <= maximum
    {
      if preview[i] < minimum {
        minimum := preview[i];
      }
      if preview[i] > maximum {
        maximum := preview[i];
      }
    }
  }

  /** (sample_rate_hz / 2) * 1000 in 32 bits. */
  function NyquistMillihz(sampleRateHz: u32): u32 {
    sampleRateHz / 2 * 1000 % TWO_32
  }

  predicate AboveNyquist(dominantMillihz: int, sampleRateHz: u32) {
    dominantMillihz > NyquistMillihz(sampleRateHz)
  }

  predicate Weak(c: ChannelSpectrum) {
    c.rmsQ15 < SIGNAL_MIN_RMS_Q15
  }

  predicate Clipping(c: ChannelSpectrum) {
    c.clippedSamples != 0 || c.peakQ15 >= SIGNAL_CLIP_Q15
  }

  /** No two preview samples are 32 apart. */
  ghost predicate Frozen(c: ChannelSpectrum) {
    forall x, y :: x in c.previewQ15 && y in c.previewQ15 ==> (x as int) - (y as int) < 32
  }

  /** What one channel adds to the status. */
  ghost function ChannelFaults(c: ChannelSpectrum, sampleRateHz: u32): set<Status> {
    (if AboveNyquist(c.dominantMillihz, sampleRateHz) then {NUMERIC_FAULT} else {})
    + (if Weak(c) then {SIGNAL_WEAK} else {})
    + (if Clipping(c) then {ADC_CLIPPING} else {})
    + (if Frozen(c) then {SIGNAL_FROZEN} else {})
  }

  method CheckChannel(c: ChannelSpectrum, sampleRateHz: u32) returns (faults: set<Status>)
    requires |c.previewQ15| == PREVIEW_SAMPLES
    ensures faults == ChannelFaults(c, sampleRateHz)
  {
    faults := {};
    if c.dominantMillihz > NyquistMillihz(sampleRateHz) {
      faults := faults + {NUMERIC_FAULT};
    }
    if c.rmsQ15 < SIGNAL_MIN_RMS_Q15 {
      faults := faults + {SIGNAL_WEAK};
    }
    if c.clippedSamples != 0 || c.peakQ15 >= SIGNAL_CLIP_Q15 {
      faults := faults + {ADC_CLIPPING};
    }
    var minimum, maximum := Extremes(c.previewQ15);
    if maximum - minimum < SIGNAL_MIN_SPAN_Q15 {
      faults := faults + {SIGNAL_FROZEN};
    }
  }

  /** spectrum_health_check: each bit exactly when some channel gives cause for it, and the signal is
      valid exactly when none does; only quality bits come out. */
  method SpectrumHealthCheck(r: SpectrumResult, deadlineUs: u32) returns (status: set<Status>)
    requires Sized(r)
    ensures r.sampleRateHz == 0 ==> status == {NUMERIC_FAULT}
    ensures r.sampleRateHz != 0 ==>
              && (DSP_DEADLINE in status <==> r.processingUs > deadlineUs)
              && (NUMERIC_FAULT in status <==>
                  exists c :: c in r.channel && AboveNyquist(c.dominantMillihz, r.sampleRateHz))
              && (SIGNAL_WEAK in status <==> exists c :: c in r.channel && c.rmsQ15 < 128)
              && (ADC_CLIPPING in status <==>
                  exists c :: c in r.channel && (c.clippedSamples != 0 || c.peakQ15 >= 32700))
              && (SIGNAL_FROZEN in status <==> exists c :: c in r.channel && Frozen(c))
              && (SIGNAL_VALID in status <==>
                  status !! {NUMERIC_FAULT, SIGNAL_WEAK, ADC_CLIPPING, SIGNAL_FROZEN})
    ensures status <= QUALITY_BITS
  {
    if r.sampleRateHz == 0 {
      return {NUMERIC_FAULT};
    }
    var faults: set<Status> := {};
    for channel := 0 to CHANNELS
      invariant faults == FaultsUpTo(r, channel)
    {
      hide ChannelFaults;
      var more := CheckChannel(r.channel[channel], r.sampleRateHz);
      faults := faults + more;
    }
    hide *;
    BitsByChannel(r);
    SummaryBits(faults, r.processingUs > deadlineUs);
    status := faults;
    if r.processingUs > deadlineUs {
      status := status + {DSP_DEADLINE};
    }
    if faults == {} {
      status := status + {SIGNAL_VALID};
    }
  }

  /** The bits of the first n channels together. */
  ghost function FaultsUpTo(r: SpectrumResult, n: nat): set<Status>
    requires n <= |r.channel|
  {
    if n == 0 then {} else FaultsUpTo(r, n - 1) + ChannelFaults(r.channel[n - 1], r.sampleRateHz)
  }

  lemma BitOfEither(faults: set<Status>, x: set<Status>, y: set<Status>)
    requires faults == x + y
    ensures forall bit :: bit in faults <==> bit in x || bit in y
  {
  }

  lemma BitsByChannel(r: SpectrumResult)
    requires Sized(r)
    ensures var faults := FaultsUpTo(r, CHANNELS);
            && faults <= {NUMERIC_FAULT, SIGNAL_WEAK, ADC_CLIPPING, SIGNAL_FROZEN}
            && (NUMERIC_FAULT in faults <==>
                exists c :: c in r.channel && AboveNyquist(c.dominantMillihz, r.sampleRateHz))
            && (SIGNAL_WEAK in faults <==> exists c :: c in r.channel && c.rmsQ15 < 128)
            && (ADC_CLIPPING in faults <==> exists c :: c in r.channel && (c.clippedSamples != 0 || c.peakQ15 >= 32700))
            && (SIGNAL_FROZEN in faults <==> exists c :: c in r.channel && Frozen(c))
  {
    var x, y := r.channel[0], r.channel[1];
    assert r.channel == [x, y];
    var fx, fy := ChannelFaults(x, r.sampleRateHz), ChannelFaults(y, r.sampleRateHz);
    assert FaultsUpTo(r, 1) == fx;
    var faults := FaultsUpTo(r, CHANNELS);
    BitOfEither(faults, fx, fy);
    BitsOfChannel(x, r.sampleRateHz);
    BitsOfChannel(y, r.sampleRateHz);
    hide AboveNyquist, Weak, Clipping, Frozen, ChannelFaults, FaultsUpTo;
  }

  lemma BitsOfChannel(c: ChannelSpectrum, rate: u32)
    ensures var f := ChannelFaults(c, rate);
            && f <= {NUMERIC_FAULT, SIGNAL_WEAK, ADC_CLIPPING, SIGNAL_FROZEN}
            && (NUMERIC_FAULT in f <==> AboveNyquist(c.dominantMillihz, rate)) && (SIGNAL_WEAK in f <==> c.rmsQ15 < 128)
            && (ADC_CLIPPING in f <==> c.clippedSamples != 0 || c.peakQ15 >= 32700)
            && (SIGNAL_FROZEN in f <==> Frozen(c))
  {
    hide AboveNyquist, Frozen;
  }

  /** The deadline and validity bits leave the others alone. */
  lemma SummaryBits(faults: set<Status>, late: bool)
    requires faults <= {NUMERIC_FAULT, SIGNAL_WEAK, ADC_CLIPPING, SIGNAL_FROZEN}
    ensures var status := faults + (if late then {DSP_DEADLINE} else {})
                          + (if faults == {} then {SIGNAL_VALID} else {});
            && (DSP_DEADLINE in status <==> late)
            && (SIGNAL_VALID in status <==> status !! {NUMERIC_FAULT, SIGNAL_WEAK, ADC_CLIPPING, SIGNAL_FROZEN})
            && status <= QUALITY_BITS
  {
  }
}
