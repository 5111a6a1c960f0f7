/** The blocks that platform_adc_wait_block returns over a run, and what the health monitor makes of
    them. */
module BlockAccounting {
  import opened Bytes
  import opened Format
  import opened StatusBits
  import opened Pipeline
  import opened Conservation

  function Publications(steps: seq<Step>): nat {
    if steps == [] then 0
    else Publications(steps[..|steps| - 1]) + if steps[|steps| - 1].PublishHalf? then 1 else 0
  }

  /** Step n of the run takes the snapshot that becomes block i. */
  predicate SnapshotAt(reset: bool, steps: seq<Step>, i: nat, n: nat) {
    && n < |steps| && steps[n].AcquisitionStep?
    && After(reset, steps[..n]).acquisition.Notified? && |After(reset, steps[..n]).log.acquired| == i
  }

  /** Step n publishes between the notification that block i answers and its snapshot. */
  predicate LateAt(reset: bool, steps: seq<Step>, i: nat, n: nat) {
    && n < |steps| && steps[n].PublishHalf?
    && After(reset, steps[..n]).acquisition.Notified? && |After(reset, steps[..n]).log.acquired| == i
  }

  ghost predicate PublishedLate(reset: bool, steps: seq<Step>, i: nat) {
    exists n: nat :: LateAt(reset, steps, i, n)
  }

  lemma LateStays(reset: bool, steps: seq<Step>, step: Step, i: nat)
    requires PublishedLate(reset, steps, i)
    ensures PublishedLate(reset, steps + [step], i)
  {
    var n: nat :| LateAt(reset, steps, i, n);
    assert (steps + [step])[..n] == steps[..n];
    assert LateAt(reset, steps + [step], i, n);
  }

  lemma LateNow(reset: bool, steps: seq<Step>)
    requires After(reset, steps).acquisition.Notified?
    ensures PublishedLate(reset, steps + [PublishHalf], |After(reset, steps).log.acquired|)
  {
    assert (steps + [PublishHalf])[..|steps|] == steps;
    assert LateAt(reset, steps + [PublishHalf], |After(reset, steps).log.acquired|, |steps|);
  }

  /** Unless something was published late for the last block or for the one being returned, pending
      notifications stand for publications after the last block. */
  ghost predicate NotificationsOk(s: State, lateLast: bool, lateNow: bool) {
    && (s.log.acquired != [] && !lateLast ==>
          var last := s.log.acquired[|s.log.acquired| - 1].generation;
          && last + s.hw.notifications <= s.hw.generation
          && (s.acquisition.Notified? ==> last < s.hw.generation))
    && (s.acquisition.Notified? && !lateNow ==> s.hw.notifications == 0)
  }

  lemma SnapshotNotifies(s: State, testSignal: bool, now: u32, lateLast: bool, lateNow: bool)
    requires NotificationsOk(s, lateLast, lateNow) && s.acquisition.Notified?
    ensures var t := OnAcquisition(s, testSignal, now);
            && t.log.acquired == s.log.acquired + [Block(|s.log.acquired|, s.hw.generation, s.hw.half, now)]
            && NotificationsOk(t, lateNow, false)
  {
  }

  lemma AcquisitionNotifies(s: State, testSignal: bool, now: u32, lateLast: bool, lateNow: bool)
    requires NotificationsOk(s, lateLast, lateNow) && !s.acquisition.Notified?
    ensures var t := OnAcquisition(s, testSignal, now);
            t.log.acquired == s.log.acquired && NotificationsOk(t, lateLast, lateNow)
  {
    hide HealthMonitor.Observe, HealthMonitor.CheckBits;
  }

  lemma OthersNotify(s: State, step: Step, lateLast: bool, lateNow: bool)
    requires NotificationsOk(s, lateLast, lateNow) && !step.AcquisitionStep?
    ensures var t := Apply(s, step);
            && t.log.acquired == s.log.acquired && t.acquisition == s.acquisition
            && NotificationsOk(t, lateLast, lateNow || (step.PublishHalf? && s.acquisition.Notified?))
  {
    hide SameGeneration, SlotOf;
  }

  /** What is known of the generations of the blocks returned so far. */
  ghost predicate RepeatsExplained(reset: bool, steps: seq<Step>, acquired: seq<Block>) {
    forall i :: 0 <= i && i + 1 < |acquired| && acquired[i].generation >= acquired[i + 1].generation ==>
                  PublishedLate(reset, steps, i)
  }

  /** Something was published late for the last of the first n blocks. */
  ghost predicate LastLate(reset: bool, steps: seq<Step>, n: nat) {
    n > 0 && PublishedLate(reset, steps, n - 1)
  }

  ghost predicate AdvanceInv(reset: bool, steps: seq<Step>) {
    var s := After(reset, steps);
    var n := |s.log.acquired|;
    && NotificationsOk(s, LastLate(reset, steps, n), PublishedLate(reset, steps, n))
    && RepeatsExplained(reset, steps, s.log.acquired)
  }

  lemma LateAfter(reset: bool, steps: seq<Step>, step: Step, n: nat)
    ensures LastLate(reset, steps, n) ==> LastLate(reset, steps + [step], n)
    ensures PublishedLate(reset, steps, n) ==> PublishedLate(reset, steps + [step], n)
  {
    hide PublishedLate;
    if PublishedLate(reset, steps, n) {
      LateStays(reset, steps, step, n);
    }
    if LastLate(reset, steps, n) {
      LateStays(reset, steps, step, n - 1);
    }
  }

  lemma MoreLate(s: State, lateLast: bool, lateNow: bool, moreLast: bool, moreNow: bool)
    requires NotificationsOk(s, lateLast, lateNow) && (lateLast ==> moreLast) && (lateNow ==> moreNow)
    ensures NotificationsOk(s, moreLast, moreNow)
  {
  }

  lemma RepeatsStayExplained(reset: bool, steps: seq<Step>, step: Step, acquired: seq<Block>)
    requires RepeatsExplained(reset, steps, acquired)
    ensures RepeatsExplained(reset, steps + [step], acquired)
  {
    hide PublishedLate;
    forall i | 0 <= i && i + 1 < |acquired| && acquired[i].generation >= acquired[i + 1].generation
      ensures PublishedLate(reset, steps + [step], i)
    {
      LateStays(reset, steps, step, i);
    }
  }

  lemma ExtendExplained(reset: bool, steps: seq<Step>, acquired: seq<Block>, b: Block)
    requires RepeatsExplained(reset, steps, acquired)
    requires acquired != [] && acquired[|acquired| - 1].generation >= b.generation ==>
               LastLate(reset, steps, |acquired|)
    ensures RepeatsExplained(reset, steps, acquired + [b])
  {
    hide PublishedLate;
  }

  lemma SnapshotIsNewer(s: State, lateLast: bool, lateNow: bool)
    requires NotificationsOk(s, lateLast, lateNow) && s.acquisition.Notified?
    ensures s.log.acquired != [] && s.log.acquired[|s.log.acquired| - 1].generation >= s.hw.generation ==> lateLast
  {
  }

  lemma SnapshotAdvances(reset: bool, steps: seq<Step>, step: Step)
    requires AdvanceInv(reset, steps) && step.AcquisitionStep? && After(reset, steps).acquisition.Notified?
    ensures AdvanceInv(reset, steps + [step])
  {
    var s := After(reset, steps);
    var n := |s.log.acquired|;
    hide PublishedLate, LastLate, After, NotificationsOk, RepeatsExplained, OnAcquisition;
    AfterAppend(reset, steps, step);
    LateAfter(reset, steps, step, n);
    SnapshotNotifies(s, step.testSignal, step.now, LastLate(reset, steps, n), PublishedLate(reset, steps, n));
    SnapshotIsNewer(s, LastLate(reset, steps, n), PublishedLate(reset, steps, n));
    RepeatsStayExplained(reset, steps, step, s.log.acquired);
    var b := Block(n, s.hw.generation, s.hw.half, step.now);
    ExtendExplained(reset, steps + [step], s.log.acquired, b);
    LateNext(reset, steps, step, n);
    MoreLate(After(reset, steps + [step]), PublishedLate(reset, steps, n), false,
             LastLate(reset, steps + [step], n + 1), PublishedLate(reset, steps + [step], n + 1));
  }

  lemma LateNext(reset: bool, steps: seq<Step>, step: Step, n: nat)
    ensures PublishedLate(reset, steps, n) ==> LastLate(reset, steps + [step], n + 1)
  {
    hide PublishedLate;
    LateAfter(reset, steps, step, n);
  }

  lemma OtherStepNotifies(s: State, step: Step, lateLast: bool, lateNow: bool)
    requires NotificationsOk(s, lateLast, lateNow) && !(step.AcquisitionStep? && s.acquisition.Notified?)
    ensures var t := Apply(s, step);
            && t.log.acquired == s.log.acquired
            && NotificationsOk(t, lateLast, lateNow || (step.PublishHalf? && s.acquisition.Notified?))
  {
    hide OnAcquisition, NotificationsOk;
    if step.AcquisitionStep? {
      AcquisitionNotifies(s, step.testSignal, step.now, lateLast, lateNow);
    } else {
      OthersNotify(s, step, lateLast, lateNow);
    }
  }

  lemma OtherStepAdvances(reset: bool, steps: seq<Step>, step: Step)
    requires AdvanceInv(reset, steps) && !(step.AcquisitionStep? && After(reset, steps).acquisition.Notified?)
    ensures AdvanceInv(reset, steps + [step])
  {
    var s := After(reset, steps);
    var n := |s.log.acquired|;
    var late := step.PublishHalf? && s.acquisition.Notified?;
    hide PublishedLate, LastLate, After, NotificationsOk, RepeatsExplained, Apply;
    if late {
      LateNow(reset, steps);
    }
    AfterAppend(reset, steps, step);
    LateAfter(reset, steps, step, n);
    OtherStepNotifies(s, step, LastLate(reset, steps, n), PublishedLate(reset, steps, n));
    RepeatsStayExplained(reset, steps, step, s.log.acquired);
    MoreLate(After(reset, steps + [step]), LastLate(reset, steps, n), PublishedLate(reset, steps, n) || late,
             LastLate(reset, steps + [step], n), PublishedLate(reset, steps + [step], n));
  }

  /** In every run, a block whose successor is not newer had a publication between its notification and
      its snapshot. */
  lemma {:induction false} RepeatsAreExplained(reset: bool, steps: seq<Step>)
    requires Legal(reset, steps)
    ensures AdvanceInv(reset, steps)
  {
    if steps != [] {
      hide AdvanceInv;
      var rest, step := steps[..|steps| - 1], steps[|steps| - 1];
      RepeatsAreExplained(reset, rest);
      assert steps == rest + [step];
      if step.AcquisitionStep? && After(reset, rest).acquisition.Notified? {
        SnapshotAdvances(reset, rest, step);
      } else {
        OtherStepAdvances(reset, rest, step);
      }
    }
  }

  ghost predicate AlwaysNewer(blocks: seq<Block>) {
    forall i :: 0 < i < |blocks| ==> blocks[i - 1].generation < blocks[i].generation
  }

  /** If no publication ever falls into that window, generations strictly advance. */
  lemma GenerationsAdvance(reset: bool, steps: seq<Step>)
    requires Legal(reset, steps) && forall i :: !PublishedLate(reset, steps, i)
    ensures AlwaysNewer(After(reset, steps).log.acquired)
  {
    RepeatsAreExplained(reset, steps);
    var acquired := After(reset, steps).log.acquired;
    forall i | 0 < i < |acquired|
      ensures acquired[i - 1].generation < acquired[i].generation
    {
      assert (i - 1) + 1 == i;
      assert !PublishedLate(reset, steps, i - 1);
    }
  }

  lemma {:induction false} GenerationCounts(reset: bool, steps: seq<Step>)
    ensures After(reset, steps).hw.generation == Publications(steps)
  {
    if steps != [] {
      GenerationCounts(reset, steps[..|steps| - 1]);
      GenerationStep(After(reset, steps[..|steps| - 1]), steps[|steps| - 1]);
    }
  }

  lemma GenerationStep(s: State, step: Step)
    ensures Apply(s, step).hw.generation == s.hw.generation + if step.PublishHalf? then 1 else 0
    ensures s.log.acquired <= Apply(s, step).log.acquired
  {
    hide SameGeneration, SlotOf, HealthMonitor.Observe, HealthMonitor.CheckBits;
  }

  lemma {:induction false} PublicationsBetween(steps: seq<Step>, n: nat, m: nat)
    requires n <= m <= |steps|
    ensures Publications(steps[..n]) <= Publications(steps[..m])
    ensures Publications(steps[..n]) == Publications(steps[..m]) <==> forall k :: n <= k < m ==> !steps[k].PublishHalf?
    decreases m - n
  {
    if n < m {
      PublicationsBetween(steps, n, m - 1);
      assert steps[..m][..|steps[..m]| - 1] == steps[..m - 1];
    }
  }

  lemma {:induction false} AcquiredStays(reset: bool, steps: seq<Step>, n: nat)
    requires n <= |steps|
    ensures After(reset, steps[..n]).log.acquired <= After(reset, steps).log.acquired
    decreases |steps|
  {
    if n == |steps| {
      assert steps[..n] == steps;
    } else {
      hide Apply;
      var rest, step := steps[..|steps| - 1], steps[|steps| - 1];
      AcquiredStays(reset, rest, n);
      assert rest[..n] == steps[..n];
      GenerationStep(After(reset, rest), step);
    }
  }

  /** Block i is what its snapshot found: the publications so far, the half last published, the time. */
  lemma SnapshotGeneration(reset: bool, steps: seq<Step>, i: nat, n: nat)
    requires SnapshotAt(reset, steps, i, n)
    ensures var acquired := After(reset, steps).log.acquired;
            && i < |acquired|
            && acquired[i]
               == Block(i, Publications(steps[..n]), After(reset, steps[..n]).hw.half, steps[n].now)
  {
    var s, step := After(reset, steps[..n]), steps[n];
    assert OnAcquisition(s, step.testSignal, step.now).log.acquired[i]
        == Block(i, s.hw.generation, s.hw.half, step.now);
    hide After, OnAcquisition;
    assert steps[..n + 1] == steps[..n] + [step];
    AfterAppend(reset, steps[..n], step);
    GenerationCounts(reset, steps[..n]);
    AcquiredStays(reset, steps, n + 1);
  }

  lemma SnapshotsInOrder(reset: bool, steps: seq<Step>, i: nat, n: nat, m: nat)
    requires SnapshotAt(reset, steps, i, n) && SnapshotAt(reset, steps, i + 1, m)
    ensures n < m
  {
    var earlier := if m <= n then m else n;
    var later := if m <= n then n else m;
    AcquiredStays(reset, steps[..later], earlier);
    assert steps[..later][..earlier] == steps[..earlier];
  }

  /** Exactly when a block is returned twice: no publication lies between the two snapshots. That takes
      one in the earlier block's window, between its notification and its snapshot. */
  lemma RepeatedExactly(reset: bool, steps: seq<Step>, i: nat, n: nat, m: nat)
    requires Legal(reset, steps) && SnapshotAt(reset, steps, i, n) && SnapshotAt(reset, steps, i + 1, m)
    ensures var acquired := After(reset, steps).log.acquired;
            && i + 1 < |acquired| && acquired[i].generation <= acquired[i + 1].generation
            && (acquired[i].generation == acquired[i + 1].generation <==>
                forall k :: n <= k < m ==> !steps[k].PublishHalf?)
            && (acquired[i].generation == acquired[i + 1].generation ==> PublishedLate(reset, steps, i))
  {
    SnapshotGeneration(reset, steps, i, n);
    SnapshotGeneration(reset, steps, i + 1, m);
    SnapshotsInOrder(reset, steps, i, n, m);
    PublicationsBetween(steps, n, m);
    RepeatsAreExplained(reset, steps);
    hide After, Legal, SnapshotAt, PublishedLate, NotificationsOk, Publications;
    assert RepeatsExplained(reset, steps, After(reset, steps).log.acquired);
  }

  /** The blocks the health monitor has been shown: all but the one the acquisition task still holds. */
  function Shown(s: State): seq<Block> {
    var n := |s.log.acquired|;
    if s.acquisition.Holding? && n > 0 then s.log.acquired[..n - 1] else s.log.acquired
  }

  function Stamps(blocks: seq<Block>): (stamps: seq<HealthMonitor.Stamp>)
    ensures |stamps| == |blocks| && forall i :: 0 <= i < |blocks| ==> stamps[i] == StampOf(blocks[i])
  {
    seq(|blocks|, (i: nat) requires i < |blocks| => StampOf(blocks[i]))
  }

  /** Two blocks in a row that the monitor finds apart by other than one generation and one period of
      10240 us. */
  ghost predicate GapIn(blocks: seq<Block>) {
    exists i :: 0 < i < |blocks|
                && HealthMonitor.GapSeen(StampOf(blocks[i - 1]), StampOf(blocks[i]), 10240)
  }

  ghost predicate HeldIsLast(s: State) {
    s.acquisition.Holding? ==>
      s.log.acquired != [] && s.log.acquired[|s.log.acquired| - 1] == s.acquisition.block
  }

  ghost predicate MonitorFollows(s: State) {
    && s.monitor == HealthMonitor.ObserveAll(Stamps(Shown(s)), 10240)
    && (ADC_RUNNING in s.sticky <==> Shown(s) != [])
    && (BLOCK_GAP in s.sticky <==> GapIn(Shown(s)))
  }

  lemma GapAppend(blocks: seq<Block>, b: Block)
    ensures GapIn(blocks + [b])
       <==> GapIn(blocks)
            || (blocks != []
                && HealthMonitor.GapSeen(StampOf(blocks[|blocks| - 1]), StampOf(b), 10240))
  {
    var all := blocks + [b];
    hide HealthMonitor.GapSeen;
    if GapIn(blocks) {
      var i :| 0 < i < |blocks|
               && HealthMonitor.GapSeen(StampOf(blocks[i - 1]), StampOf(blocks[i]), 10240);
      assert all[i - 1] == blocks[i - 1] && all[i] == blocks[i];
    }
    if blocks != [] {
      assert all[|blocks| - 1] == blocks[|blocks| - 1] && all[|blocks|] == b;
    }
  }

  lemma ObserveAppend(blocks: seq<Block>, b: Block)
    ensures var m := HealthMonitor.ObserveAll(Stamps(blocks), BLOCK_PERIOD_US);
            && HealthMonitor.ObserveAll(Stamps(blocks + [b]), BLOCK_PERIOD_US)
               == HealthMonitor.Observe(m, StampOf(b), BLOCK_PERIOD_US)
            && m.last == if blocks == [] then None else Some(StampOf(blocks[|blocks| - 1]))
  {
    var all := Stamps(blocks + [b]);
    assert all[..|all| - 1] == Stamps(blocks);
  }

  /** A check of the block held, in terms of what the monitor was shown. */
  lemma CheckShows(s: State, testSignal: bool, now: u32)
    requires HeldIsLast(s) && s.acquisition.Holding?
    ensures var t, b := OnAcquisition(s, testSignal, now), StampOf(s.acquisition.block);
            && Shown(t) == Shown(s) + [s.acquisition.block] && HeldIsLast(t)
            && t.monitor == HealthMonitor.Observe(s.monitor, b, BLOCK_PERIOD_US)
            && t.sticky == s.sticky + HealthMonitor.CheckBits(s.monitor, b, BLOCK_PERIOD_US)
  {
    hide HealthMonitor.Observe, HealthMonitor.CheckBits;
  }

  lemma CheckFollows(s: State, testSignal: bool, now: u32)
    requires MonitorFollows(s) && HeldIsLast(s) && s.acquisition.Holding?
    ensures MonitorFollows(OnAcquisition(s, testSignal, now)) && HeldIsLast(OnAcquisition(s, testSignal, now))
  {
    var b := s.acquisition.block;
    hide GapIn, Stamps, Shown, HeldIsLast, OnAcquisition, StampOf;
    hide HealthMonitor.ObserveAll, HealthMonitor.Observe, HealthMonitor.GapSeen;
    CheckShows(s, testSignal, now);
    GapAppend(Shown(s), b);
    ObserveAppend(Shown(s), b);
  }

  /** The parts of a state that the monitor's account looks at. */
  ghost predicate SameForMonitor(s: State, t: State) {
    && Shown(t) == Shown(s) && t.monitor == s.monitor && s.sticky <= t.sticky
    && ADC_RUNNING !in t.sticky - s.sticky && BLOCK_GAP !in t.sticky - s.sticky
  }

  lemma AcquisitionLeavesMonitor(s: State, testSignal: bool, now: u32)
    requires HeldIsLast(s) && !s.acquisition.Holding?
    ensures SameForMonitor(s, OnAcquisition(s, testSignal, now)) && HeldIsLast(OnAcquisition(s, testSignal, now))
  {
  }

  lemma OthersLeaveMonitor(s: State, step: Step)
    requires HeldIsLast(s) && !step.AcquisitionStep?
    ensures SameForMonitor(s, Apply(s, step)) && HeldIsLast(Apply(s, step))
  {
    hide SameGeneration, SlotOf;
  }

  lemma SameFollows(s: State, t: State)
    requires MonitorFollows(s) && SameForMonitor(s, t)
    ensures MonitorFollows(t)
  {
    hide GapIn, Stamps, Shown, HealthMonitor.ObserveAll;
  }

  lemma StepFollows(s: State, step: Step)
    requires MonitorFollows(s) && HeldIsLast(s)
    ensures MonitorFollows(Apply(s, step)) && HeldIsLast(Apply(s, step))
  {
    hide MonitorFollows, SameForMonitor, HeldIsLast, OnAcquisition;
    if step.AcquisitionStep? {
      if s.acquisition.Holding? {
        CheckFollows(s, step.testSignal, step.now);
      } else {
        AcquisitionLeavesMonitor(s, step.testSignal, step.now);
        SameFollows(s, Apply(s, step));
      }
    } else {
      OthersLeaveMonitor(s, step);
      SameFollows(s, Apply(s, step));
    }
  }

  /** In every run the monitor has observed exactly the blocks shown to it, and BLOCK_GAP is sticky if and
      only if some two blocks in a row were apart. */
  lemma {:induction false} MonitorIsTrue(reset: bool, steps: seq<Step>)
    ensures MonitorFollows(After(reset, steps)) && HeldIsLast(After(reset, steps))
  {
    if steps == [] {
      NothingShown(Initial(reset));
    } else {
      hide Apply, MonitorFollows, HeldIsLast;
      MonitorIsTrue(reset, steps[..|steps| - 1]);
      StepFollows(After(reset, steps[..|steps| - 1]), steps[|steps| - 1]);
    }
  }

  lemma NothingShown(s: State)
    requires s.log.acquired == [] && !s.acquisition.Holding? && s.monitor == HealthMonitor.NEW_MONITOR
    requires ADC_RUNNING !in s.sticky && BLOCK_GAP !in s.sticky
    ensures MonitorFollows(s) && HeldIsLast(s)
  {
    assert Stamps(Shown(s)) == [];
  }

  function TrueStamps(blocks: seq<Block>): (stamps: seq<HealthMonitor.TrueStamp>)
    ensures |stamps| == |blocks|
    ensures forall i :: 0 <= i < |blocks| ==>
                          stamps[i] == HealthMonitor.TrueStamp(blocks[i].generation, blocks[i].timestampUs)
  {
    seq(|blocks|, (i: nat) requires i < |blocks| =>
      HealthMonitor.TrueStamp(blocks[i].generation, blocks[i].timestampUs))
  }

  lemma StampsAreSeen(blocks: seq<Block>)
    ensures HealthMonitor.AllSeen(TrueStamps(blocks)) == Stamps(blocks)
  {
    forall i | 0 <= i < |blocks|
      ensures HealthMonitor.AllSeen(TrueStamps(blocks))[i] == Stamps(blocks)[i]
    {
    }
  }

  /** Less than 2^32 generations pass between two blocks shown in a row. */
  ghost predicate NeverFarApart(shown: seq<Block>) {
    forall i :: 0 < i < |shown| ==> shown[i].generation < shown[i - 1].generation + TWO_32
  }

  ghost predicate NeverBack(shown: seq<Block>) {
    forall i :: 0 < i < |shown| ==> shown[i - 1].generation <= shown[i].generation
  }

  /** How many blocks in a row share their generation with the one before. */
  function Again(shown: seq<Block>): nat {
    HealthMonitor.RepeatsOf(TrueStamps(shown))
  }

  function Generations(shown: seq<Block>): set<nat> {
    set b | b in shown :: b.generation
  }

  /** Generations from the first block's to the last's for which no block was returned. */
  function Missing(shown: seq<Block>): int
    requires shown != []
  {
    shown[|shown| - 1].generation - shown[0].generation + 1 - |Generations(shown)|
  }

  /** The drop count that the blocks call for. */
  function ExpectedDrops(shown: seq<Block>): u32
    requires shown != []
  {
    (Missing(shown) + Again(shown)) % TWO_32
  }

  lemma AgainAppend(rest: seq<Block>, b: Block)
    requires rest != []
    ensures Again(rest + [b]) == Again(rest) + if b.generation == rest[|rest| - 1].generation then 1 else 0
  {
    var all := TrueStamps(rest + [b]);
    assert all[..|all| - 1] == TrueStamps(rest);
  }

  lemma NeverAbove(shown: seq<Block>)
    requires shown != [] && NeverBack(shown)
    ensures forall b :: b in shown ==> b.generation <= shown[|shown| - 1].generation
  {
    if |shown| > 1 {
      NeverAbove(shown[..|shown| - 1]);
    }
  }

  lemma GenerationsAppend(rest: seq<Block>, b: Block)
    ensures Generations(rest + [b]) == Generations(rest) + {b.generation}
  {
  }

  lemma GenerationsGrow(rest: seq<Block>, b: Block)
    requires rest != [] && NeverBack(rest) && rest[|rest| - 1].generation <= b.generation
    ensures |Generations(rest + [b])|
         == |Generations(rest)| + if b.generation == rest[|rest| - 1].generation then 0 else 1
  {
    GenerationsAppend(rest, b);
    NeverAbove(rest);
    var last := rest[|rest| - 1];
    assert last.generation in Generations(rest);
    if b.generation == last.generation {
      assert Generations(rest) + {b.generation} == Generations(rest);
    } else {
      assert b.generation !in Generations(rest);
    }
  }

  lemma NeverBackBefore(rest: seq<Block>, b: Block)
    requires rest != [] && NeverBack(rest + [b])
    ensures NeverBack(rest) && rest[|rest| - 1].generation <= b.generation
  {
    var all := rest + [b];
    assert all[|rest| - 1] == rest[|rest| - 1] && all[|rest|] == b;
    forall i | 0 < i < |rest|
      ensures rest[i - 1].generation <= rest[i].generation
    {
      assert all[i - 1] == rest[i - 1] && all[i] == rest[i];
    }
  }

  lemma OneGeneration(shown: seq<Block>)
    requires |shown| == 1
    ensures |Generations(shown)| == 1 && Again(shown) == 0
  {
    assert Generations(shown) == {shown[0].generation};
  }

  /** Blocks that never go back show one generation each, less the repetitions. */
  lemma {:induction false} DistinctGenerations(shown: seq<Block>)
    requires shown != [] && NeverBack(shown)
    ensures |Generations(shown)| == |shown| - Again(shown)
  {
    if |shown| == 1 {
      OneGeneration(shown);
    } else {
      var rest, b := shown[..|shown| - 1], shown[|shown| - 1];
      assert shown == rest + [b];
      hide Generations, Again, NeverBack;
      NeverBackBefore(rest, b);
      DistinctGenerations(rest);
      GenerationsGrow(rest, b);
      AgainAppend(rest, b);
    }
  }

  lemma DropsOfShown(shown: seq<Block>)
    requires shown != [] && NeverFarApart(shown) && NeverBack(shown)
    ensures HealthMonitor.ObserveAll(Stamps(shown), BLOCK_PERIOD_US).droppedBlocks == ExpectedDrops(shown)
  {
    hide HealthMonitor.ObserveAll, HealthMonitor.RepeatsOf;
    StampsAreSeen(shown);
    HealthMonitor.DropsAreExact(TrueStamps(shown), BLOCK_PERIOD_US);
    hide Generations;
    DistinctGenerations(shown);
  }

  lemma ShownNeverBack(s: State)
    requires Acquired(s)
    ensures NeverBack(Shown(s))
  {
  }

  lemma ShownNewer(s: State)
    requires AlwaysNewer(s.log.acquired)
    ensures Again(Shown(s)) == 0
  {
    HealthMonitor.NoRepeats(TrueStamps(Shown(s)));
  }

  lemma DropsOfState(s: State)
    requires MonitorFollows(s) && Acquired(s) && Shown(s) != [] && NeverFarApart(Shown(s))
    ensures s.monitor.droppedBlocks == ExpectedDrops(Shown(s))
  {
    hide NeverBack, NeverFarApart, ExpectedDrops, GapIn, Acquired;
    ShownNeverBack(s);
    DropsOfShown(Shown(s));
  }

  /** Over every run in which less than 2^32 generations pass between two blocks, the monitor's drop count
      is the number of generations missing, plus one for each block that was returned again. */
  lemma DropsOverRuns(reset: bool, steps: seq<Step>)
    requires Legal(reset, steps)
    requires Shown(After(reset, steps)) != [] && NeverFarApart(Shown(After(reset, steps)))
    ensures After(reset, steps).monitor.droppedBlocks == ExpectedDrops(Shown(After(reset, steps)))
  {
    hide *;
    AcquiredOverRuns(reset, steps);
    MonitorIsTrue(reset, steps);
    DropsOfState(After(reset, steps));
  }

  lemma AcquiredOverRuns(reset: bool, steps: seq<Step>)
    requires Legal(reset, steps)
    ensures Acquired(After(reset, steps))
  {
    BlocksConserved(reset, steps);
    hide After, Legal, Acquired;
  }

  /** So without late publications it is exactly the generations missing. */
  lemma StrictDropsOverRuns(reset: bool, steps: seq<Step>)
    requires Legal(reset, steps) && forall i :: !PublishedLate(reset, steps, i)
    requires Shown(After(reset, steps)) != [] && NeverFarApart(Shown(After(reset, steps)))
    ensures var s := After(reset, steps);
            s.monitor.droppedBlocks == Missing(Shown(s)) % TWO_32
  {
    hide *;
    GenerationsAdvance(reset, steps);
    ShownNewer(After(reset, steps));
    DropsOverRuns(reset, steps);
    DropsWithoutRepeats(Shown(After(reset, steps)));
  }

  lemma DropsWithoutRepeats(shown: seq<Block>)
    requires shown != [] && Again(shown) == 0
    ensures ExpectedDrops(shown) == Missing(shown) % TWO_32
  {
    hide Missing, Again;
  }
}
