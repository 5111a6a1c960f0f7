/** Watchdog votes and feeds, in every interleaving. */
module Votes {
  import opened Bytes
  import opened StatusBits
  import opened Pipeline
  import opened Conservation

  /** The tasks that voted in window w. */
  function Voters(votes: seq<Vote>, w: nat): set<Task> {
    set v | v in votes && v.window == w :: v.task
  }

  function VotesOf(votes: seq<Vote>, task: Task): nat {
    if votes == [] then 0
    else VotesOf(votes[..|votes| - 1], task) + if votes[|votes| - 1].task == task then 1 else 0
  }

  /** Every task there is voted in window w. */
  ghost predicate Full(votes: seq<Vote>, w: nat) {
    forall task: Task :: task in Voters(votes, w)
  }

  /** Windows in which all three tasks voted. */
  ghost function FullWindows(votes: seq<Vote>, n: nat): nat {
    if n == 0 then 0 else FullWindows(votes, n - 1) + if Full(votes, n - 1) then 1 else 0
  }

  lemma RequiredIsAll(tasks: set<Task>)
    ensures REQUIRED <= tasks <==> forall task: Task :: task in tasks
  {
    forall task: Task
      ensures task in REQUIRED
    {
      match task
      case Acquisition =>
      case Dsp =>
      case Telemetry =>
    }
  }

  /** Each sample sees exactly the votes cast since the one before it, and the feeds are the samples
      that saw all three tasks. */
  ghost predicate WatchdogInv(dog: Watchdog) {
    && dog.mask == Voters(dog.votes, |dog.windows|)
    && (forall w :: 0 <= w < |dog.windows| ==> dog.windows[w] == Voters(dog.votes, w))
    && (forall v :: v in dog.votes ==> v.window <= |dog.windows|)
    && dog.feeds == FullWindows(dog.votes, |dog.windows|)
  }

  lemma VotersAfterVote(votes: seq<Vote>, v: Vote, w: nat)
    ensures Voters(votes + [v], w) == if v.window == w then Voters(votes, w) + {v.task} else Voters(votes, w)
  {
    assert forall x :: x in votes + [v] <==> x in votes || x == v;
  }

  lemma {:induction false} LaterVotesDoNotFill(votes: seq<Vote>, v: Vote, n: nat)
    requires n <= v.window
    ensures FullWindows(votes + [v], n) == FullWindows(votes, n)
  {
    if n > 0 {
      LaterVotesDoNotFill(votes, v, n - 1);
      VotersAfterVote(votes, v, n - 1);
    }
  }

  lemma VoteKeeps(dog: Watchdog, task: Task)
    requires WatchdogInv(dog)
    ensures WatchdogInv(Voted(dog, task))
  {
    var next := Voted(dog, task);
    var v := Vote(task, |dog.windows|);
    VotersAfterVote(dog.votes, v, |dog.windows|);
    LaterVotesDoNotFill(dog.votes, v, |dog.windows|);
    hide Voters, FullWindows;
    forall w | 0 <= w < |dog.windows|
      ensures next.windows[w] == Voters(next.votes, w)
    {
      VotersAfterVote(dog.votes, v, w);
    }
  }

  lemma NoVotesYet(votes: seq<Vote>, w: nat)
    requires forall v :: v in votes ==> v.window < w
    ensures Voters(votes, w) == {}
  {
  }

  lemma SampleKeeps(dog: Watchdog)
    requires WatchdogInv(dog)
    ensures WatchdogInv(OnSample(dog))
  {
    NoVotesYet(dog.votes, |dog.windows| + 1);
    hide Voters;
    RequiredIsAll(dog.mask);
  }

  /** What any step does to the watchdog: nothing, one vote, or a sample. */
  ghost predicate DogStep(dog: Watchdog, next: Watchdog) {
    || next == dog || next == OnSample(dog)
    || next == Voted(dog, Acquisition) || next == Voted(dog, Dsp) || next == Voted(dog, Telemetry)
  }

  lemma EveryDogStep(s: State, step: Step)
    ensures DogStep(s.dog, Apply(s, step).dog)
  {
    hide SameGeneration, SlotOf, OnSample, Voted;
  }

  lemma WatchdogStepKeeps(dog: Watchdog, next: Watchdog)
    requires WatchdogInv(dog) && DogStep(dog, next)
    ensures WatchdogInv(next)
  {
    hide WatchdogInv, Voted, OnSample;
    SampleKeeps(dog);
    VoteKeeps(dog, Acquisition);
    VoteKeeps(dog, Dsp);
    VoteKeeps(dog, Telemetry);
  }

  /** In every run each vote counts in exactly one window, and a feed means that acquisition, DSP and
      telemetry have all voted since the previous sample. */
  lemma {:induction false} FeedsAreEarned(reset: bool, steps: seq<Step>)
    ensures WatchdogInv(After(reset, steps).dog)
  {
    hide Apply;
    if steps == [] {
      assert Voters([], 0) == {};
    } else {
      hide WatchdogInv, DogStep;
      FeedsAreEarned(reset, steps[..|steps| - 1]);
      EveryDogStep(After(reset, steps[..|steps| - 1]), steps[|steps| - 1]);
      WatchdogStepKeeps(After(reset, steps[..|steps| - 1]).dog, After(reset, steps).dog);
    }
  }

  /** Feeds still to be expected of a task that votes no more. */
  function Credit(dog: Watchdog, task: Task): nat {
    dog.feeds + if task in dog.mask then 1 else 0
  }

  lemma VotesAppend(votes: seq<Vote>, v: Vote, task: Task)
    ensures VotesOf(votes + [v], task) == VotesOf(votes, task) + if v.task == task then 1 else 0
  {
    assert (votes + [v])[..|votes + [v]| - 1] == votes;
  }

  /** A step that is no vote of this task does not raise its credit. */
  ghost predicate Spends(dog: Watchdog, next: Watchdog, task: Task) {
    && VotesOf(next.votes, task) >= VotesOf(dog.votes, task)
    && (VotesOf(next.votes, task) == VotesOf(dog.votes, task) ==> Credit(next, task) <= Credit(dog, task))
  }

  lemma VoteSpends(dog: Watchdog, voter: Task, task: Task)
    ensures Spends(dog, Voted(dog, voter), task)
  {
    hide VotesOf, Spends;
    var next := Voted(dog, voter);
    VotesAppend(dog.votes, Vote(voter, |dog.windows|), task);
    assert voter != task ==> Credit(next, task) == Credit(dog, task);
    SpendsByParts(dog, next, task);
  }

  lemma SpendsByParts(dog: Watchdog, next: Watchdog, task: Task)
    requires VotesOf(next.votes, task) >= VotesOf(dog.votes, task)
    requires VotesOf(next.votes, task) == VotesOf(dog.votes, task) ==> Credit(next, task) <= Credit(dog, task)
    ensures Spends(dog, next, task)
  {
  }

  lemma StepSpends(dog: Watchdog, next: Watchdog, task: Task)
    requires DogStep(dog, next)
    ensures Spends(dog, next, task)
  {
    VoteSpends(dog, Acquisition, task);
    VoteSpends(dog, Dsp, task);
    VoteSpends(dog, Telemetry, task);
    hide VotesOf;
  }

  lemma {:induction false} CreditRunsOut(reset: bool, before: seq<Step>, after: seq<Step>, task: Task)
    ensures Spends(After(reset, before).dog, After(reset, before + after).dog, task)
  {
    hide Apply, VotesOf, Credit, DogStep;
    if after == [] {
      assert before + after == before;
    } else {
      var rest, step := after[..|after| - 1], after[|after| - 1];
      CreditRunsOut(reset, before, rest, task);
      assert before + after == before + rest + [step];
      AfterAppend(reset, before + rest, step);
      EveryDogStep(After(reset, before + rest), step);
      StepSpends(After(reset, before + rest).dog, After(reset, before + after).dog, task);
    }
  }

  /** Once any task stops voting, at most one more feed ever happens. */
  lemma StarvesWithoutVotes(reset: bool, before: seq<Step>, after: seq<Step>, task: Task)
    requires VotesOf(After(reset, before + after).dog.votes, task) == VotesOf(After(reset, before).dog.votes, task)
    ensures After(reset, before + after).dog.feeds <= After(reset, before).dog.feeds + 1
  {
    hide After, VotesOf;
    CreditRunsOut(reset, before, after, task);
  }

  lemma VotedCounts(dog: Watchdog, voter: Task)
    ensures forall task :: VotesOf(Voted(dog, voter).votes, task)
                           == VotesOf(dog.votes, task) + if voter == task then 1 else 0
  {
    forall task
      ensures VotesOf(Voted(dog, voter).votes, task) == VotesOf(dog.votes, task) + if voter == task then 1 else 0
    {
      VotesAppend(dog.votes, Vote(voter, |dog.windows|), task);
    }
  }

  function WritesOf(writes: seq<Block>, b: Block): nat {
    multiset(writes)[b]
  }

  /** The result telemetry is working on is the last it received, and no vote was for it yet. */
  ghost predicate Working(s: State, r: Report) {
    && s.log.received != [] && s.log.received[|s.log.received| - 1] == r
    && forall b :: b in s.log.confirmed ==> b.id < r.block.id
  }

  ghost predicate TelemetryAtOk(s: State) {
    match s.telemetry
    case Resting => true
    case Transmitting(r, sent) => Working(s, r) && sent < WRITES && WritesOf(s.log.writes, r.block) == sent
    case Failing(r) => Working(s, r)
    case TelemetryVoting(r) => Working(s, r) && WritesOf(s.log.writes, r.block) == 8
  }

  ghost predicate ConfirmedOk(log: Log) {
    && (forall b :: b in log.writes ==> b in BlocksOf(log.received))
    && (forall b :: b in log.confirmed ==> b in BlocksOf(log.received) && WritesOf(log.writes, b) == 8)
    && (forall i, j :: 0 <= i < j < |log.confirmed| ==> log.confirmed[i].id < log.confirmed[j].id)
  }

  /** Telemetry's votes stand for different received results, each sent as all its eight chunks. */
  ghost predicate TelemetryInv(s: State) {
    && VotesOf(s.dog.votes, Telemetry) == |s.log.confirmed|
    && ConfirmedOk(s.log) && TelemetryAtOk(s)
  }

  lemma SlotIsNewest(s: State)
    requires Conserved(s) && s.result.Some?
    ensures forall b :: b in BlocksOf(s.log.received) ==> b.id < s.result.value.block.id
  {
    var line, k := Line(s), |s.log.received|;
    assert line[k] == s.result.value.block;
    assert forall i :: 0 <= i < k ==> line[i] == BlocksOf(s.log.received)[i];
    hide Line;
  }

  lemma ReceiveKeeps(s: State, written: bool)
    requires Conserved(s) && TelemetryInv(s) && s.telemetry.Resting?
    ensures TelemetryInv(OnTelemetry(s, written))
  {
    if s.result.Some? {
      SlotIsNewest(s);
      hide Conserved;
      var t, r := OnTelemetry(s, written), s.result.value;
      assert BlocksOf(t.log.received) == BlocksOf(s.log.received) + [r.block];
      assert r.block !in s.log.writes;
      hide BlocksOf, VotesOf;
    }
  }

  lemma WriteKeeps(s: State, written: bool)
    requires TelemetryInv(s) && s.telemetry.Transmitting?
    ensures TelemetryInv(OnTelemetry(s, written))
  {
    var t, r := OnTelemetry(s, written), s.telemetry.report;
    assert r.block == BlocksOf(s.log.received)[|s.log.received| - 1];
    hide BlocksOf, VotesOf;
    assert r.block !in s.log.confirmed;
    if written {
      assert multiset(t.log.writes) == multiset(s.log.writes) + multiset{r.block};
    }
  }

  lemma ConfirmKeeps(s: State, written: bool)
    requires TelemetryInv(s) && s.telemetry.TelemetryVoting?
    ensures TelemetryInv(OnTelemetry(s, written))
  {
    var r := s.telemetry.report;
    VotesAppend(s.dog.votes, Vote(Telemetry, |s.dog.windows|), Telemetry);
    assert r.block == BlocksOf(s.log.received)[|s.log.received| - 1];
    hide BlocksOf, VotesOf, WritesOf;
  }

  lemma TelemetryKeeps(s: State, written: bool)
    requires Conserved(s) && TelemetryInv(s)
    ensures TelemetryInv(OnTelemetry(s, written))
  {
    hide TelemetryInv, Conserved, OnTelemetry;
    match s.telemetry
    case Resting => ReceiveKeeps(s, written);
    case Transmitting(_, _) => WriteKeeps(s, written);
    case Failing(_) => FailureKeeps(s, written);
    case TelemetryVoting(_) => ConfirmKeeps(s, written);
  }

  lemma FailureKeeps(s: State, written: bool)
    requires TelemetryInv(s) && s.telemetry.Failing?
    ensures TelemetryInv(OnTelemetry(s, written))
  {
  }

  /** The parts of a state that telemetry's invariant looks at. */
  ghost predicate SameForTelemetry(s: State, t: State) {
    && VotesOf(t.dog.votes, Telemetry) == VotesOf(s.dog.votes, Telemetry)
    && t.telemetry == s.telemetry && t.log.received == s.log.received
    && t.log.writes == s.log.writes && t.log.confirmed == s.log.confirmed
  }

  lemma AcquisitionLeavesTelemetry(s: State, testSignal: bool, now: u32)
    ensures SameForTelemetry(s, OnAcquisition(s, testSignal, now))
  {
    hide VotesOf, Voted, HealthMonitor.Observe, HealthMonitor.CheckBits;
    VotedCounts(s.dog, Acquisition);
  }

  lemma DspLeavesTelemetry(s: State, fault: set<Status>, quality: set<Status>)
    ensures SameForTelemetry(s, OnDsp(s, fault, quality))
  {
    hide VotesOf, Voted, SameGeneration, SlotOf;
    VotedCounts(s.dog, Dsp);
  }

  lemma OthersLeaveTelemetry(s: State, step: Step)
    requires !step.TelemetryStep?
    ensures SameForTelemetry(s, Apply(s, step))
  {
    hide VotesOf, OnAcquisition, OnDsp, SameForTelemetry;
    match step
    case AcquisitionStep(testSignal, now) => AcquisitionLeavesTelemetry(s, testSignal, now);
    case DspStep(fault, quality) => DspLeavesTelemetry(s, fault, quality);
    case _ => HardwareLeavesTelemetry(s, step);
  }

  lemma HardwareLeavesTelemetry(s: State, step: Step)
    requires step.DmaWrite? || step.PublishHalf? || step.WatchdogSample?
    ensures SameForTelemetry(s, Apply(s, step))
  {
    hide VotesOf;
  }

  lemma SameKeeps(s: State, t: State)
    requires TelemetryInv(s) && SameForTelemetry(s, t)
    ensures TelemetryInv(t)
  {
    hide VotesOf;
  }

  lemma TelemetryStepKeeps(s: State, step: Step)
    requires Conserved(s) && TelemetryInv(s)
    ensures TelemetryInv(Apply(s, step))
  {
    hide TelemetryInv, Conserved, OnTelemetry, OnDsp, OnAcquisition, SameForTelemetry;
    if step.TelemetryStep? {
      TelemetryKeeps(s, step.written);
    } else {
      OthersLeaveTelemetry(s, step);
      SameKeeps(s, Apply(s, step));
    }
  }

  lemma {:induction false} TelemetryVotesAreEarned(reset: bool, steps: seq<Step>)
    requires Legal(reset, steps)
    ensures TelemetryInv(After(reset, steps))
  {
    hide Apply, TelemetryInv, Conserved;
    if steps == [] {
      NothingConfirmed(reset);
    } else {
      BlocksConserved(reset, steps[..|steps| - 1]);
      TelemetryVotesAreEarned(reset, steps[..|steps| - 1]);
      TelemetryStepKeeps(After(reset, steps[..|steps| - 1]), steps[|steps| - 1]);
    }
  }

  lemma NothingConfirmed(reset: bool)
    ensures TelemetryInv(Initial(reset))
  {
  }

  /** Blocks that have left the acquisition task's hands, and results that have left the DSP task's. */
  function HandedOn(s: State): int {
    |s.log.acquired| - |InHand(s.acquisition)|
  }

  function Processed(s: State): nat {
    |s.log.stale| + |s.log.superseded| + |InSlot(s.result)| + |s.log.received|
  }

  /** Votes are counted by progress: an acquisition vote for each block handed on or dropped, a DSP vote
      for each block published or rejected. A wait that times out earns none. */
  ghost predicate VotesAreProgress(s: State) {
    && VotesOf(s.dog.votes, Acquisition) + (if s.acquisition.AcquisitionVoting? then 1 else 0) == HandedOn(s)
    && VotesOf(s.dog.votes, Dsp) + (if s.dsp.DspVoting? then 1 else 0) == Processed(s)
  }

  lemma AcquisitionProgresses(s: State, testSignal: bool, now: u32)
    requires VotesAreProgress(s)
    ensures VotesAreProgress(OnAcquisition(s, testSignal, now))
  {
    hide HealthMonitor.Observe, HealthMonitor.CheckBits;
    hide VotesOf, Voted;
    VotedCounts(s.dog, Acquisition);
  }

  lemma DspProgresses(s: State, fault: set<Status>, quality: set<Status>)
    requires VotesAreProgress(s)
    ensures VotesAreProgress(OnDsp(s, fault, quality))
  {
    hide VotesOf, SameGeneration, SlotOf, Voted;
    VotedCounts(s.dog, Dsp);
  }

  lemma TelemetryProgresses(s: State, written: bool)
    requires VotesAreProgress(s)
    ensures VotesAreProgress(OnTelemetry(s, written))
  {
    hide VotesOf, Voted;
    VotedCounts(s.dog, Telemetry);
  }

  lemma StepProgresses(s: State, step: Step)
    requires VotesAreProgress(s)
    ensures VotesAreProgress(Apply(s, step))
  {
    hide OnAcquisition, OnDsp, OnTelemetry, VotesOf;
    match step
    case AcquisitionStep(testSignal, now) => AcquisitionProgresses(s, testSignal, now);
    case DspStep(fault, quality) => DspProgresses(s, fault, quality);
    case TelemetryStep(written) => TelemetryProgresses(s, written);
    case _ =>
  }

  lemma {:induction false} PipelineVotesAreEarned(reset: bool, steps: seq<Step>)
    ensures VotesAreProgress(After(reset, steps))
  {
    if steps != [] {
      hide Apply, VotesAreProgress;
      PipelineVotesAreEarned(reset, steps[..|steps| - 1]);
      StepProgresses(After(reset, steps[..|steps| - 1]), steps[|steps| - 1]);
    }
  }
}
