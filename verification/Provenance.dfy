/** Where the results, the losses and the faults of a run come from: the step behind each of them. */
module Provenance {
  import opened Format
  import opened StatusBits
  import opened Pipeline
  import opened Conservation
  import opened StickyStatus

  /** Step n finds block b about to be sent, and the queue holding two. */
  predicate FullAt(reset: bool, steps: seq<Step>, b: Block, n: nat) {
    && n < |steps| && steps[n].AcquisitionStep?
    && After(reset, steps[..n]).acquisition == Sending(b) && |After(reset, steps[..n]).queue| == 2
  }

  ghost predicate FoundFull(reset: bool, steps: seq<Step>, b: Block) {
    exists n: nat :: FullAt(reset, steps, b, n)
  }

  lemma FullStays(reset: bool, steps: seq<Step>, step: Step, b: Block)
    requires FoundFull(reset, steps, b)
    ensures FoundFull(reset, steps + [step], b)
  {
    var n: nat :| FullAt(reset, steps, b, n);
    assert (steps + [step])[..n] == steps[..n];
    assert FullAt(reset, steps + [step], b, n);
  }

  ghost predicate DropsExplained(reset: bool, steps: seq<Step>, s: State) {
    && (s.acquisition.Dropping? ==> FoundFull(reset, steps, s.acquisition.block))
    && forall b :: b in s.log.dropped ==> FoundFull(reset, steps, b)
  }

  /** What one step can add to the drops. */
  lemma StepDrops(s: State, step: Step)
    requires |s.queue| <= QUEUE_DEPTH
    ensures var t := Apply(s, step);
            && (t.acquisition.Dropping? ==>
                  || (s.acquisition == t.acquisition)
                  || (step.AcquisitionStep? && s.acquisition == Sending(t.acquisition.block) && |s.queue| == 2))
            && (forall b :: b in t.log.dropped ==>
                              b in s.log.dropped || (s.acquisition.Dropping? && s.acquisition.block == b))
  {
    hide SameGeneration, SlotOf, Voted, OnSample;
    hide HealthMonitor.Observe, HealthMonitor.CheckBits;
  }

  lemma QueueBound(reset: bool, steps: seq<Step>)
    requires Legal(reset, steps)
    ensures |After(reset, steps).queue| <= 2
  {
    BlocksConserved(reset, steps);
    hide After, Legal, Line, Lost, Acquired;
  }

  lemma DropsStep(reset: bool, steps: seq<Step>, step: Step)
    requires DropsExplained(reset, steps, After(reset, steps)) && |After(reset, steps).queue| <= QUEUE_DEPTH
    ensures DropsExplained(reset, steps + [step], After(reset, steps + [step]))
  {
    var s := After(reset, steps);
    AfterAppend(reset, steps, step);
    StepDrops(s, step);
    var all := steps + [step];
    var t := After(reset, all);
    hide After, Apply;
    forall b | FoundFull(reset, steps, b)
      ensures FoundFull(reset, all, b)
    {
      FullStays(reset, steps, step, b);
    }
    if t.acquisition.Dropping? && s.acquisition != t.acquisition {
      assert all[..|steps|] == steps;
      assert FullAt(reset, all, t.acquisition.block, |steps|);
    }
  }

  /** In every run, a block is dropped only after the acquisition task found two blocks in the queue. */
  lemma {:induction false} DroppedOnlyWhenFull(reset: bool, steps: seq<Step>)
    requires Legal(reset, steps)
    ensures DropsExplained(reset, steps, After(reset, steps))
  {
    if steps != [] {
      var rest, step := steps[..|steps| - 1], steps[|steps| - 1];
      assert steps == rest + [step];
      DroppedOnlyWhenFull(reset, rest);
      QueueBound(reset, rest);
      DropsStep(reset, rest, step);
    }
  }

  /** Both counters read the same, as far as 32 bits tell. */
  predicate StillCurrent(s: State, b: Block) {
    s.hw.generation % 0x1_0000_0000 == b.generation % 0x1_0000_0000
  }

  /** Step n is the check before the block is read. */
  predicate FirstCheckAt(reset: bool, steps: seq<Step>, b: Block, n: nat) {
    && n < |steps| && steps[n].DspStep?
    && After(reset, steps[..n]).dsp == Arrived(b) && StillCurrent(After(reset, steps[..n]), b)
  }

  ghost predicate FirstChecked(reset: bool, steps: seq<Step>, b: Block) {
    exists n: nat :: FirstCheckAt(reset, steps, b, n)
  }

  /** Step n is the check after 2048 words have been read, on a block that had passed the first. */
  ghost predicate SecondCheckAt(reset: bool, steps: seq<Step>, b: Block, words: seq<int>, n: nat) {
    && n < |steps| && steps[n].DspStep? && |words| == 2048
    && After(reset, steps[..n]).dsp == Reading(b, words) && StillCurrent(After(reset, steps[..n]), b)
    && FirstChecked(reset, steps[..n], b)
  }

  ghost predicate SecondChecked(reset: bool, steps: seq<Step>, b: Block, words: seq<int>) {
    exists n: nat :: SecondCheckAt(reset, steps, b, words, n)
  }

  /** Step n analyses a block that had passed both checks: the report takes over the sticky word of that
      moment, and to it the verdict of the analysis on this block and nothing else. */
  ghost predicate AnalysedAt(reset: bool, steps: seq<Step>, r: Report, n: nat) {
    && n < |steps| && steps[n].DspStep?
    && After(reset, steps[..n]).dsp == Verified(r.block, r.words)
    && r.sticky == After(reset, steps[..n]).sticky
    && r.own == steps[n].fault + steps[n].quality
    && StatusOf(r) == After(reset, steps[..n]).sticky + steps[n].fault + steps[n].quality
    && SecondChecked(reset, steps[..n], r.block, r.words)
  }

  ghost predicate Analysed(reset: bool, steps: seq<Step>, r: Report) {
    exists n: nat :: AnalysedAt(reset, steps, r, n)
  }

  lemma FirstStays(reset: bool, steps: seq<Step>, step: Step, b: Block)
    requires FirstChecked(reset, steps, b)
    ensures FirstChecked(reset, steps + [step], b)
  {
    var n: nat :| FirstCheckAt(reset, steps, b, n);
    assert (steps + [step])[..n] == steps[..n];
    assert FirstCheckAt(reset, steps + [step], b, n);
  }

  lemma SecondStays(reset: bool, steps: seq<Step>, step: Step, b: Block, words: seq<int>)
    requires SecondChecked(reset, steps, b, words)
    ensures SecondChecked(reset, steps + [step], b, words)
  {
    var n: nat :| SecondCheckAt(reset, steps, b, words, n);
    assert (steps + [step])[..n] == steps[..n];
    assert SecondCheckAt(reset, steps + [step], b, words, n);
  }

  lemma AnalysisStays(reset: bool, steps: seq<Step>, step: Step, r: Report)
    requires Analysed(reset, steps, r)
    ensures Analysed(reset, steps + [step], r)
  {
    var n: nat :| AnalysedAt(reset, steps, r, n);
    assert (steps + [step])[..n] == steps[..n];
    assert AnalysedAt(reset, steps + [step], r, n);
  }

  /** What is behind the DSP task's place in its loop. */
  ghost predicate DspExplained(reset: bool, steps: seq<Step>, d: DspAt) {
    match d
    case Reading(b, words) => FirstChecked(reset, steps, b) && |words| <= 2048
    case Verified(b, words) => SecondChecked(reset, steps, b, words)
    case Ready(r) => Analysed(reset, steps, r)
    case _ => true
  }

  ghost predicate ReportsExplained(reset: bool, steps: seq<Step>, s: State) {
    && DspExplained(reset, steps, s.dsp)
    && (s.result.Some? ==> Analysed(reset, steps, s.result.value))
    && forall r :: r in s.log.received ==> Analysed(reset, steps, r)
  }

  /** A DSP step, case by case. */
  lemma DspStepExplains(reset: bool, steps: seq<Step>, step: Step)
    requires step.DspStep? && DspExplained(reset, steps, After(reset, steps).dsp)
    ensures DspExplained(reset, steps + [step], OnDsp(After(reset, steps), step.fault, step.quality).dsp)
  {
    var s, all := After(reset, steps), steps + [step];
    var t := OnDsp(s, step.fault, step.quality);
    assert all[..|steps|] == steps;
    match s.dsp
    case Arrived(b) =>
      if t.dsp.Reading? {
        assert FirstCheckAt(reset, all, b, |steps|);
      }
    case Reading(b, words) =>
      if t.dsp.Verified? {
        assert SecondCheckAt(reset, all, b, words, |steps|);
      } else {
        FirstStays(reset, steps, step, b);
      }
    case Verified(b, words) =>
      assert AnalysedAt(reset, all, t.dsp.report, |steps|);
    case _ =>
  }

  lemma DspStays(reset: bool, steps: seq<Step>, step: Step, d: DspAt)
    requires DspExplained(reset, steps, d)
    ensures DspExplained(reset, steps + [step], d)
  {
    hide FirstChecked, SecondChecked, Analysed;
    match d
    case Reading(b, _) => FirstStays(reset, steps, step, b);
    case Verified(b, words) => SecondStays(reset, steps, step, b, words);
    case Ready(r) => AnalysisStays(reset, steps, step, r);
    case _ =>
  }

  /** Where the reports after a step come from. */
  lemma ReportsMove(s: State, step: Step)
    ensures var t := Apply(s, step);
            && (step.DspStep? || t.dsp == s.dsp)
            && (t.result.Some? ==> t.result == s.result || s.dsp == Ready(t.result.value))
            && forall r :: r in t.log.received ==> r in s.log.received || s.result == Some(r)
  {
    hide SameGeneration, SlotOf, Voted, OnSample;
    hide HealthMonitor.Observe, HealthMonitor.CheckBits;
  }

  lemma ReportsStep(reset: bool, steps: seq<Step>, step: Step)
    requires ReportsExplained(reset, steps, After(reset, steps))
    ensures ReportsExplained(reset, steps + [step], After(reset, steps + [step]))
  {
    var s := After(reset, steps);
    AfterAppend(reset, steps, step);
    ReportsMove(s, step);
    if step.DspStep? {
      DspStepExplains(reset, steps, step);
    } else {
      DspStays(reset, steps, step, s.dsp);
    }
    hide After, Analysed, FirstChecked, SecondChecked, OnDsp, OnAcquisition, OnTelemetry;
    forall r | Analysed(reset, steps, r)
      ensures Analysed(reset, steps + [step], r)
    {
      AnalysisStays(reset, steps, step, r);
    }
  }

  /** In every run, behind each received result there is the step that analysed its block after both checks,
      and the status is exactly that step's: the sticky word of that moment and the analysis's own bits. */
  lemma {:induction false} ReportsAreAnalyses(reset: bool, steps: seq<Step>)
    ensures ReportsExplained(reset, steps, After(reset, steps))
  {
    if steps != [] {
      hide ReportsExplained;
      var rest, step := steps[..|steps| - 1], steps[|steps| - 1];
      assert steps == rest + [step];
      ReportsAreAnalyses(reset, rest);
      ReportsStep(reset, rest, step);
    }
  }

  /** A step at which the acquisition task waits in vain; at which it takes notifications; at which
      telemetry's write fails; at which it succeeds. */
  predicate TimesOut(s: State, step: Step) {
    step.AcquisitionStep? && s.acquisition.Waiting? && s.hw.notifications == 0
  }

  predicate WriteFails(s: State, step: Step) {
    step.TelemetryStep? && !step.written && s.telemetry.Transmitting?
  }

  predicate WriteSucceeds(s: State, step: Step) {
    step.TelemetryStep? && step.written && s.telemetry.Transmitting?
  }

  predicate ReportsTestSignal(s: State, step: Step) {
    step.AcquisitionStep? && s.acquisition.Starting? && step.testSignal
  }

  /** How many steps of a run are of these kinds. */
  datatype Counts = Counts(timeouts: nat, failures: nat, writes: nat, testSignals: nat)

  function CountsOf(reset: bool, steps: seq<Step>): Counts {
    if steps == [] then Counts(0, 0, 0, 0)
    else
      var rest, step := steps[..|steps| - 1], steps[|steps| - 1];
      var c, s := CountsOf(reset, rest), After(reset, rest);
      Counts(c.timeouts + if TimesOut(s, step) then 1 else 0,
             c.failures + if WriteFails(s, step) then 1 else 0,
             c.writes + if WriteSucceeds(s, step) then 1 else 0,
             c.testSignals + if ReportsTestSignal(s, step) then 1 else 0)
  }

  ghost predicate Counted(s: State, c: Counts) {
    && s.log.timeouts == c.timeouts && s.log.failures == c.failures && |s.log.writes| == c.writes
    && (TEST_SIGNAL in s.sticky <==> c.testSignals > 0)
  }

  lemma CountsStep(s: State, step: Step, c: Counts)
    requires Counted(s, c)
    ensures Counted(Apply(s, step),
                    Counts(c.timeouts + if TimesOut(s, step) then 1 else 0,
                           c.failures + if WriteFails(s, step) then 1 else 0,
                           c.writes + if WriteSucceeds(s, step) then 1 else 0,
                           c.testSignals + if ReportsTestSignal(s, step) then 1 else 0))
  {
    hide SameGeneration, SlotOf, Voted, OnSample;
    hide HealthMonitor.Observe, HealthMonitor.CheckBits;
  }

  /** In every run the logged timeouts are the waits without a notification, the logged failures and writes
      the failed and successful chunk writes, and TEST_SIGNAL is sticky exactly if it was reported at the
      start. */
  lemma {:induction false} EventsAreCounted(reset: bool, steps: seq<Step>)
    ensures Counted(After(reset, steps), CountsOf(reset, steps))
  {
    if steps != [] {
      hide Apply, Counted;
      EventsAreCounted(reset, steps[..|steps| - 1]);
      CountsStep(After(reset, steps[..|steps| - 1]), steps[|steps| - 1], CountsOf(reset, steps[..|steps| - 1]));
    }
  }
}
