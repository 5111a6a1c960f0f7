/** The sticky status word and the status of the results, in every interleaving. */
module StickyStatus {
  import opened Bytes
  import opened StatusBits
  import opened Pipeline
  import opened Conservation

  /** Every bit some task ever makes sticky. */
  const STICKY_BITS: set<Status> :=
    {ADC_RUNNING, ADC_OVERRUN, BLOCK_GAP, UART_BACKPRESSURE, WATCHDOG_RESET, FRAME_DROPPED, TEST_SIGNAL, DMA_STALE}

  function StatusOf(r: Report): set<Status> {
    r.sticky + r.own
  }

  /** Sticky bits are never cleared by any step. */
  lemma StepKeepsSticky(s: State, step: Step)
    ensures s.sticky <= Apply(s, step).sticky
  {
  }

  lemma {:induction false} StickyNeverClears(reset: bool, before: seq<Step>, after: seq<Step>)
    ensures After(reset, before).sticky <= After(reset, before + after).sticky
  {
    hide Apply;
    if after == [] {
      assert before + after == before;
    } else {
      var rest, step := after[..|after| - 1], after[|after| - 1];
      StickyNeverClears(reset, before, rest);
      assert before + after == before + rest + [step];
      AfterAppend(reset, before + rest, step);
      StepKeepsSticky(After(reset, before + rest), step);
    }
  }

  /** The reports not yet lost, the oldest first. */
  function Reports(s: State): seq<Report> {
    s.log.received + (if s.result.Some? then [s.result.value] else [])
    + if s.dsp.Ready? then [s.dsp.report] else []
  }

  /** Later reports carry every sticky bit of earlier ones. */
  ghost predicate Growing(reports: seq<Report>, sticky: set<Status>) {
    && (forall i :: 0 <= i < |reports| ==> reports[i].sticky <= sticky)
    && forall i, j :: 0 <= i < j < |reports| ==> reports[i].sticky <= reports[j].sticky
  }

  ghost predicate OwnBits(reports: seq<Report>) {
    forall i :: 0 <= i < |reports| ==> reports[i].own <= QUALITY_BITS
  }

  ghost predicate StickyInv(s: State) {
    s.sticky <= STICKY_BITS && Growing(Reports(s), s.sticky) && OwnBits(Reports(s))
  }

  lemma GrowingWithout(a: seq<Report>, x: seq<Report>, b: seq<Report>, sticky: set<Status>)
    requires Growing(a + x + b, sticky) && OwnBits(a + x + b)
    ensures Growing(a + b, sticky) && OwnBits(a + b)
  {
    var all := a + x + b;
    forall i | 0 <= i < |a + b|
      ensures (a + b)[i].sticky <= sticky && (a + b)[i].own <= QUALITY_BITS
    {
      assert (a + b)[i] == all[if i < |a| then i else i + |x|];
    }
    forall i, j | 0 <= i < j < |a + b|
      ensures (a + b)[i].sticky <= (a + b)[j].sticky
    {
      assert (a + b)[i] == all[if i < |a| then i else i + |x|];
      assert (a + b)[j] == all[if j < |a| then j else j + |x|];
    }
  }

  lemma GrowingAppend(reports: seq<Report>, r: Report, sticky: set<Status>)
    requires Growing(reports, sticky) && OwnBits(reports) && r.sticky == sticky && r.own <= QUALITY_BITS
    ensures Growing(reports + [r], sticky) && OwnBits(reports + [r])
  {
  }

  lemma GrowingMore(reports: seq<Report>, sticky: set<Status>, more: set<Status>)
    requires Growing(reports, sticky) && sticky <= more
    ensures Growing(reports, more)
  {
  }

  lemma DspKeepsStatus(s: State, fault: set<Status>, quality: set<Status>)
    requires StickyInv(s) && fault <= {NUMERIC_FAULT} && quality <= QUALITY_BITS
    ensures StickyInv(OnDsp(s, fault, quality))
  {
    var t := OnDsp(s, fault, quality);
    var received := s.log.received;
    hide Growing, OwnBits;
    match s.dsp
    case Verified(block, words) =>
      GrowingAppend(Reports(s), t.dsp.report, s.sticky);
      assert Reports(s) + [t.dsp.report] == Reports(t);
    case Ready(r) =>
      var slot := if s.result.Some? then [s.result.value] else [];
      GrowingWithout(received, slot, [r], s.sticky);
      assert Reports(s) == received + slot + [r] && Reports(t) == received + [r];
    case _ =>
      assert Reports(t) == Reports(s);
      GrowingMore(Reports(s), s.sticky, t.sticky);
  }

  lemma TelemetryKeepsStatus(s: State, written: bool)
    requires StickyInv(s)
    ensures StickyInv(OnTelemetry(s, written))
  {
    var t := OnTelemetry(s, written);
    hide Growing, OwnBits;
    assert Reports(t) == Reports(s);
    GrowingMore(Reports(s), s.sticky, t.sticky);
  }

  lemma AcquisitionBitsAreSticky(s: State, testSignal: bool, now: u32)
    requires s.sticky <= STICKY_BITS
    ensures s.sticky <= OnAcquisition(s, testSignal, now).sticky <= STICKY_BITS
  {
    hide HealthMonitor.Observe, HealthMonitor.CheckBits, Voted;
  }

  lemma AcquisitionLeavesReports(s: State, testSignal: bool, now: u32)
    ensures Reports(OnAcquisition(s, testSignal, now)) == Reports(s)
  {
    hide HealthMonitor.Observe, HealthMonitor.CheckBits, Voted;
  }

  lemma AcquisitionKeepsStatus(s: State, testSignal: bool, now: u32)
    requires StickyInv(s)
    ensures StickyInv(OnAcquisition(s, testSignal, now))
  {
    hide Growing, OwnBits, Reports, OnAcquisition;
    AcquisitionBitsAreSticky(s, testSignal, now);
    AcquisitionLeavesReports(s, testSignal, now);
    GrowingMore(Reports(s), s.sticky, OnAcquisition(s, testSignal, now).sticky);
  }

  lemma StepKeepsStatus(s: State, step: Step)
    requires StickyInv(s) && Enabled(s, step)
    ensures StickyInv(Apply(s, step))
  {
    match step
    case AcquisitionStep(testSignal, now) => AcquisitionKeepsStatus(s, testSignal, now);
    case DspStep(fault, quality) => DspKeepsStatus(s, fault, quality);
    case TelemetryStep(written) => TelemetryKeepsStatus(s, written);
    case _ =>
      hide Growing, OwnBits;
        assert Reports(Apply(s, step)) == Reports(s);
  }

  /** In every run: what the analysis says of one signal never becomes sticky, each result carries all
      the sticky bits of the results before it, and everything it carries is sticky now. */
  lemma {:induction false} StatusGrows(reset: bool, steps: seq<Step>)
    requires Legal(reset, steps)
    ensures var s := After(reset, steps);
            && StickyInv(s)
            && s.sticky !! {SIGNAL_VALID, DSP_DEADLINE, NUMERIC_FAULT, SIGNAL_WEAK, ADC_CLIPPING, SIGNAL_FROZEN}
  {
    hide Apply, StickyInv;
    if steps == [] {
      StartsSticky(reset);
    } else {
      StatusGrows(reset, steps[..|steps| - 1]);
      StepKeepsStatus(After(reset, steps[..|steps| - 1]), steps[|steps| - 1]);
    }
    StickyIsNotQuality(After(reset, steps));
  }

  lemma StartsSticky(reset: bool)
    ensures StickyInv(Initial(reset))
  {
  }

  lemma StickyIsNotQuality(s: State)
    requires StickyInv(s)
    ensures s.sticky !! QUALITY_BITS
  {
  }

  /** A block lost by dropping or by rejection before the report's own: the report says so. */
  ghost predicate Tells(log: Log, r: Report) {
    && (forall b :: b in log.dropped && b.id < r.block.id ==> FRAME_DROPPED in r.sticky)
    && (forall b :: b in log.stale && b.id < r.block.id ==> FRAME_DROPPED in r.sticky && DMA_STALE in r.sticky)
  }

  ghost predicate LossesTold(s: State) {
    && (s.log.dropped != [] ==> FRAME_DROPPED in s.sticky)
    && (s.log.stale != [] ==> FRAME_DROPPED in s.sticky && DMA_STALE in s.sticky)
    && forall i :: 0 <= i < |Reports(s)| ==> Tells(s.log, Reports(s)[i])
  }

  lemma ReportsLeadTheLine(s: State)
    ensures |Reports(s)| <= |Line(s)|
    ensures forall i :: 0 <= i < |Reports(s)| ==> Line(s)[i] == Reports(s)[i].block
  {
    var p := PlacesOf(s);
    var ahead := p.received + p.slot + if s.dsp.Ready? then p.dsp else [];
    assert forall i :: 0 <= i < |Reports(s)| ==> ahead[i] == Reports(s)[i].block;
    assert s.dsp.Ready? ==> Line(s) == ahead + (p.queue + p.hand);
    assert !s.dsp.Ready? ==> Line(s) == ahead + (p.dsp + p.queue + p.hand);
  }

  /** A block behind the reports is younger than all of them. */
  lemma YoungerThanReports(s: State, k: nat)
    requires Conserved(s) && |Reports(s)| <= k < |Line(s)|
    ensures forall i :: 0 <= i < |Reports(s)| ==> Reports(s)[i].block.id < Line(s)[k].id
  {
    ReportsLeadTheLine(s);
    hide Line, Reports;
  }

  lemma HandIsLast(s: State)
    requires s.acquisition.Dropping?
    ensures |Reports(s)| < |Line(s)| && Line(s)[|Line(s)| - 1] == s.acquisition.block
  {
  }

  lemma DroppingIsTold(s: State, testSignal: bool, now: u32)
    requires Conserved(s) && LossesTold(s) && s.acquisition.Dropping?
    ensures LossesTold(OnAcquisition(s, testSignal, now))
  {
    hide HealthMonitor.Observe, HealthMonitor.CheckBits;
    var t := OnAcquisition(s, testSignal, now);
    HandIsLast(s);
    assert Reports(t) == Reports(s);
    hide Line, Reports, Conserved;
    YoungerThanReports(s, |Line(s)| - 1);
  }

  lemma AcquisitionQuiet(s: State, testSignal: bool, now: u32)
    requires !s.acquisition.Dropping?
    ensures var t := OnAcquisition(s, testSignal, now);
            && t.log.dropped == s.log.dropped && t.log.stale == s.log.stale
            && s.sticky <= t.sticky && Reports(t) == Reports(s)
  {
    hide HealthMonitor.Observe, HealthMonitor.CheckBits;
  }

  lemma AcquisitionTells(s: State, testSignal: bool, now: u32)
    requires Conserved(s) && LossesTold(s)
    ensures LossesTold(OnAcquisition(s, testSignal, now))
  {
    hide Conserved, LossesTold, OnAcquisition, Reports;
    if s.acquisition.Dropping? {
      DroppingIsTold(s, testSignal, now);
    } else {
      AcquisitionQuiet(s, testSignal, now);
      SameTells(s, OnAcquisition(s, testSignal, now));
    }
  }

  /** Nothing is lost, and the reports are some of those there were. */
  lemma SameTells(s: State, t: State)
    requires LossesTold(s) && t.log.dropped == s.log.dropped && t.log.stale == s.log.stale
    requires s.sticky <= t.sticky
    requires forall i :: 0 <= i < |Reports(t)| ==> Reports(t)[i] in Reports(s)
    ensures LossesTold(t)
  {
    hide Reports;
    forall i | 0 <= i < |Reports(t)|
      ensures Tells(t.log, Reports(t)[i])
    {
      var j :| 0 <= j < |Reports(s)| && Reports(s)[j] == Reports(t)[i];
    }
  }

  lemma RejectionIsTold(s: State, fault: set<Status>, quality: set<Status>)
    requires Conserved(s) && LossesTold(s) && s.dsp.Stale?
    ensures LossesTold(OnDsp(s, fault, quality))
  {
    var t := OnDsp(s, fault, quality);
    var k := |Reports(s)|;
    assert k < |Line(s)| && Line(s)[k] == s.dsp.block;
    YoungerThanReports(s, k);
    assert Reports(t) == Reports(s);
    hide Line, Reports, Conserved;
  }

  lemma NewReportTells(s: State, fault: set<Status>, quality: set<Status>)
    requires LossesTold(s) && s.dsp.Verified?
    ensures LossesTold(OnDsp(s, fault, quality))
  {
    var t := OnDsp(s, fault, quality);
    var r := t.dsp.report;
    assert Reports(t) == Reports(s) + [r];
    hide Reports;
    assert Tells(t.log, r);
    hide Tells;
  }

  lemma DspTells(s: State, fault: set<Status>, quality: set<Status>)
    requires Conserved(s) && LossesTold(s)
    ensures LossesTold(OnDsp(s, fault, quality))
  {
    if s.dsp.Stale? {
      hide Conserved, LossesTold, OnDsp;
      RejectionIsTold(s, fault, quality);
    } else if s.dsp.Verified? {
      hide Conserved, LossesTold, OnDsp;
      NewReportTells(s, fault, quality);
    } else {
      hide Conserved, LossesTold;
      SameTells(s, OnDsp(s, fault, quality));
    }
  }

  lemma OthersTell(s: State, step: Step)
    requires LossesTold(s) && !step.AcquisitionStep? && !step.DspStep?
    ensures LossesTold(Apply(s, step))
  {
    hide LossesTold;
    SameTells(s, Apply(s, step));
  }

  lemma StepTells(s: State, step: Step)
    requires Conserved(s) && LossesTold(s)
    ensures LossesTold(Apply(s, step))
  {
    hide Conserved, LossesTold, OnDsp, OnAcquisition, OnTelemetry;
    match step
    case AcquisitionStep(testSignal, now) => AcquisitionTells(s, testSignal, now);
    case DspStep(fault, quality) => DspTells(s, fault, quality);
    case _ => OthersTell(s, step);
  }

  lemma {:induction false} LossesAreTold(reset: bool, steps: seq<Step>)
    requires Legal(reset, steps)
    ensures Conserved(After(reset, steps)) && LossesTold(After(reset, steps))
  {
    hide Apply, LossesTold, Conserved;
    BlocksConserved(reset, steps);
    if steps == [] {
      NothingToTell(reset);
    } else {
      LossesAreTold(reset, steps[..|steps| - 1]);
      StepTells(After(reset, steps[..|steps| - 1]), steps[|steps| - 1]);
    }
  }

  lemma NothingToTell(reset: bool)
    ensures LossesTold(Initial(reset))
  {
  }

  lemma PlaceOf(s: State, b: Block)
    requires Conserved(s) && b in s.log.acquired
    ensures b in Line(s) || b in s.log.dropped || b in s.log.stale || b in s.log.superseded
  {
    hide Line;
    assert b in multiset(s.log.acquired);
    assert b in multiset(Line(s)) + Lost(s.log);
  }

  lemma EarlierInLine(s: State, i: nat, b: Block)
    requires Conserved(s) && i < |s.log.received| && b in Line(s) && b.id < s.log.received[i].block.id
    ensures exists j :: 0 <= j < i && s.log.received[j].block == b
  {
    var line := Line(s);
    assert forall k :: 0 <= k < |s.log.received| ==> line[k] == s.log.received[k].block;
    var j :| 0 <= j < |line| && line[j] == b;
    hide Line;
    assert j < i;
  }

  /** No silent gap, in any run: whatever block a received result skips was superseded in the result
      slot, or the result itself carries FRAME_DROPPED. */
  lemma NoSilentGap(reset: bool, steps: seq<Step>, i: nat, b: Block)
    requires Legal(reset, steps) && i < |After(reset, steps).log.received|
    requires b in After(reset, steps).log.acquired && b.id < After(reset, steps).log.received[i].block.id
    ensures var log := After(reset, steps).log;
            || (exists j :: 0 <= j < i && log.received[j].block == b)
            || b in log.superseded
            || FRAME_DROPPED in StatusOf(log.received[i])
  {
    var s := After(reset, steps);
    LossesAreTold(reset, steps);
    PlaceOf(s, b);
    if b in Line(s) {
      EarlierInLine(s, i, b);
    } else {
      assert Reports(s)[i] == s.log.received[i];
    }
  }

  function OneIf(b: bool): nat {
    if b then 1 else 0
  }

  /** The acquisition task is not between taking a notification and reporting overruns. */
  predicate OverrunsReported(a: AcquisitionAt) {
    !a.Notified? && !a.Holding? && !a.Checked?
  }

  /** What each fault bit says of the run. A fault just noticed is reported in the task's next step. */
  ghost predicate BitsMean(s: State, reset: bool) {
    && (WATCHDOG_RESET in s.sticky <==> reset)
    && (DMA_STALE in s.sticky <==> s.log.stale != [])
    && (FRAME_DROPPED in s.sticky <==> s.log.dropped != [] || s.log.stale != [])
    && (UART_BACKPRESSURE in s.sticky <==> s.log.failures > OneIf(s.telemetry.Failing?))
    && (s.telemetry.Failing? ==> s.log.failures > 0)
  }

  ghost predicate OverrunMeans(s: State) {
    && (s.acquisition.TimedOut? ==> s.log.timeouts > 0)
    && (s.log.timeouts > OneIf(s.acquisition.TimedOut?) ==> ADC_OVERRUN in s.sticky)
    && (s.hw.overruns % TWO_32 != 0 && OverrunsReported(s.acquisition) ==> ADC_OVERRUN in s.sticky)
    && (ADC_OVERRUN in s.sticky ==> s.log.timeouts > OneIf(s.acquisition.TimedOut?) || s.hw.overruns > 0)
  }

  /** The acquisition task's part in those bits. */
  lemma AcquisitionSets(s: State, testSignal: bool, now: u32)
    ensures var t := OnAcquisition(s, testSignal, now);
            && (WATCHDOG_RESET in t.sticky <==> WATCHDOG_RESET in s.sticky)
            && (DMA_STALE in t.sticky <==> DMA_STALE in s.sticky)
            && (UART_BACKPRESSURE in t.sticky <==> UART_BACKPRESSURE in s.sticky)
            && (FRAME_DROPPED in t.sticky <==> FRAME_DROPPED in s.sticky || s.acquisition.Dropping?)
  {
    hide HealthMonitor.Observe, HealthMonitor.CheckBits, Voted;
  }

  lemma AcquisitionLogs(s: State, testSignal: bool, now: u32)
    ensures var t := OnAcquisition(s, testSignal, now);
            && t.telemetry == s.telemetry && t.log.stale == s.log.stale && t.log.failures == s.log.failures
            && (t.log.dropped != [] <==> s.log.dropped != [] || s.acquisition.Dropping?)
  {
    hide HealthMonitor.Observe, HealthMonitor.CheckBits, Voted;
  }

  lemma AcquisitionKeepsBits(s: State, testSignal: bool, now: u32, reset: bool)
    requires BitsMean(s, reset)
    ensures BitsMean(OnAcquisition(s, testSignal, now), reset)
  {
    hide OnAcquisition;
    AcquisitionSets(s, testSignal, now);
    AcquisitionLogs(s, testSignal, now);
  }

  lemma AcquisitionKeepsOverrun(s: State, testSignal: bool, now: u32)
    requires OverrunMeans(s)
    ensures OverrunMeans(OnAcquisition(s, testSignal, now))
  {
    hide HealthMonitor.Observe, HealthMonitor.CheckBits;
  }

  lemma DspKeepsMeaning(s: State, fault: set<Status>, quality: set<Status>, reset: bool)
    requires BitsMean(s, reset) && OverrunMeans(s)
    ensures BitsMean(OnDsp(s, fault, quality), reset) && OverrunMeans(OnDsp(s, fault, quality))
  {
    hide SameGeneration, SlotOf;
  }

  lemma TelemetryKeepsMeaning(s: State, written: bool, reset: bool)
    requires BitsMean(s, reset) && OverrunMeans(s)
    ensures BitsMean(OnTelemetry(s, written), reset) && OverrunMeans(OnTelemetry(s, written))
  {
  }

  lemma StepKeepsMeaning(s: State, step: Step, reset: bool)
    requires BitsMean(s, reset) && OverrunMeans(s) && Enabled(s, step)
    ensures BitsMean(Apply(s, step), reset) && OverrunMeans(Apply(s, step))
  {
    hide OnAcquisition, OnDsp, OnTelemetry;
    match step
    case AcquisitionStep(testSignal, now) =>
      AcquisitionKeepsBits(s, testSignal, now, reset);
      AcquisitionKeepsOverrun(s, testSignal, now);
    case DspStep(fault, quality) => DspKeepsMeaning(s, fault, quality, reset);
    case TelemetryStep(written) => TelemetryKeepsMeaning(s, written, reset);
    case _ =>
  }

  /** In every run the fault bits mean what they say, without misses and without false alarms. */
  lemma {:induction false} BitsAreTrue(reset: bool, steps: seq<Step>)
    requires Legal(reset, steps)
    ensures BitsMean(After(reset, steps), reset) && OverrunMeans(After(reset, steps))
  {
    if steps != [] {
      hide Apply, BitsMean, OverrunMeans;
      BitsAreTrue(reset, steps[..|steps| - 1]);
      StepKeepsMeaning(After(reset, steps[..|steps| - 1]), steps[|steps| - 1], reset);
    }
  }
}
