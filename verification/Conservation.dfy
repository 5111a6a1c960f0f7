/** Where the acquired blocks go, in every interleaving. */
module Conservation {
  import opened Bytes
  import opened Format
  import opened StatusBits
  import opened Pipeline

  function InHand(a: AcquisitionAt): seq<Block> {
    match a
    case Holding(b) => [b]
    case Checked(b) => [b]
    case Sending(b) => [b]
    case Dropping(b) => [b]
    case _ => []
  }

  function InDsp(d: DspAt): seq<Block> {
    match d
    case Arrived(b) => [b]
    case Reading(b, _) => [b]
    case Verified(b, _) => [b]
    case Stale(b) => [b]
    case Ready(r) => [r.block]
    case _ => []
  }

  function InSlot(result: Option<Report>): seq<Block> {
    if result.Some? then [result.value.block] else []
  }

  function BlocksOf(reports: seq<Report>): (b: seq<Block>)
    ensures |b| == |reports| && forall i :: 0 <= i < |b| ==> b[i] == reports[i].block
  {
    seq(|reports|, (i: nat) requires i < |reports| => reports[i].block)
  }

  /** The blocks still on their way or already received: `ahead` are received, in the result slot and
      in the DSP task; behind them come the queue and the acquisition task's own. */
  datatype Places = Places(received: seq<Block>, slot: seq<Block>, dsp: seq<Block>, queue: seq<Block>,
                           hand: seq<Block>)

  function PlacesOf(s: State): Places {
    Places(BlocksOf(s.log.received), InSlot(s.result), InDsp(s.dsp), s.queue, InHand(s.acquisition))
  }

  /** In one line, the oldest first. */
  function InLine(p: Places): seq<Block> {
    p.received + p.slot + p.dsp + p.queue + p.hand
  }

  function Line(s: State): seq<Block> {
    InLine(PlacesOf(s))
  }

  function Gone(dropped: seq<Block>, stale: seq<Block>, superseded: seq<Block>): multiset<Block> {
    multiset(dropped) + multiset(stale) + multiset(superseded)
  }

  function Lost(log: Log): multiset<Block> {
    Gone(log.dropped, log.stale, log.superseded)
  }

  /** Acquired in this order, with generations that never go back. */
  ghost predicate Ordered(line: seq<Block>) {
    forall i, j :: 0 <= i < j < |line| ==> line[i].id < line[j].id && line[i].generation <= line[j].generation
  }

  ghost predicate Acquired(s: State) {
    && (forall i :: 0 <= i < |s.log.acquired| ==>
                      s.log.acquired[i].id == i && s.log.acquired[i].generation <= s.hw.generation)
    && Ordered(s.log.acquired)
  }

  /** Every acquired block is in exactly one place, and those on their way are in order. */
  ghost predicate Conserved(s: State) {
    && Acquired(s) && Ordered(Line(s)) && |s.queue| <= QUEUE_DEPTH
    && multiset(s.log.acquired) == multiset(Line(s)) + Lost(s.log)
  }

  lemma LineIsAcquired(s: State, b: Block)
    requires Conserved(s) && b in Line(s)
    ensures b in s.log.acquired && b.id < |s.log.acquired| && b.generation <= s.hw.generation
  {
    assert b in multiset(Line(s));
    assert b in multiset(s.log.acquired);
    var i :| 0 <= i < |s.log.acquired| && s.log.acquired[i] == b;
  }

  lemma OrderedWithout(a: seq<Block>, x: seq<Block>, b: seq<Block>)
    requires Ordered(a + x + b)
    ensures Ordered(a + b)
  {
    var all := a + x + b;
    forall i, j | 0 <= i < j < |a + b|
      ensures (a + b)[i].id < (a + b)[j].id && (a + b)[i].generation <= (a + b)[j].generation
    {
      var p := if i < |a| then i else i + |x|;
      var q := if j < |a| then j else j + |x|;
      assert all[p] == (a + b)[i] && all[q] == (a + b)[j];
    }
  }

  /** A step that leaves the line and the logs of lost blocks alone. */
  ghost predicate Unmoved(s: State, t: State) {
    && Line(t) == Line(s) && Lost(t.log) == Lost(s.log) && t.log.acquired == s.log.acquired
    && t.hw.generation >= s.hw.generation && (|s.queue| <= QUEUE_DEPTH ==> |t.queue| <= QUEUE_DEPTH)
  }

  /** A step that loses the block x from the middle of the line. */
  ghost predicate Loses(s: State, t: State, a: seq<Block>, x: Block, b: seq<Block>) {
    && Line(s) == a + [x] + b && Line(t) == a + b && Lost(t.log) == Lost(s.log) + multiset{x}
    && t.log.acquired == s.log.acquired && t.hw == s.hw && t.queue == s.queue
  }

  /** A step that acquires x. */
  ghost predicate Gains(s: State, t: State, x: Block) {
    && Line(t) == Line(s) + [x] && Lost(t.log) == Lost(s.log) && t.log.acquired == s.log.acquired + [x]
    && t.hw == s.hw && t.queue == s.queue && x.id == |s.log.acquired| && x.generation == s.hw.generation
  }

  lemma UnmovedConserves(s: State, t: State)
    requires Conserved(s) && Unmoved(s, t)
    ensures Conserved(t)
  {
    hide Line, Ordered, Lost;
  }

  lemma WithoutOne(line: seq<Block>, rest: seq<Block>, a: seq<Block>, x: Block, b: seq<Block>)
    requires line == a + [x] + b && rest == a + b
    ensures multiset(line) == multiset(rest) + multiset{x}
  {
    assert multiset(line) == multiset(a) + multiset{x} + multiset(b);
    assert multiset(rest) == multiset(a) + multiset(b);
  }

  lemma LosingConserves(s: State, t: State, a: seq<Block>, x: Block, b: seq<Block>)
    requires Conserved(s) && Loses(s, t, a, x, b)
    ensures Conserved(t)
  {
    hide Line, Ordered, Lost;
    OrderedWithoutOne(Line(s), Line(t), a, x, b);
    WithoutOne(Line(s), Line(t), a, x, b);
  }

  lemma OrderedWithoutOne(line: seq<Block>, rest: seq<Block>, a: seq<Block>, x: Block, b: seq<Block>)
    requires Ordered(line) && line == a + [x] + b && rest == a + b
    ensures Ordered(rest)
  {
    OrderedWithout(a, [x], b);
  }

  lemma OrderedAppend(line: seq<Block>, x: Block)
    requires Ordered(line)
    requires forall b :: b in line ==> b.id < x.id && b.generation <= x.generation
    ensures Ordered(line + [x])
  {
  }

  lemma LaterThanAll(s: State, x: Block)
    requires Conserved(s) && x.id == |s.log.acquired| && x.generation == s.hw.generation
    ensures Ordered(Line(s) + [x])
  {
    forall b | b in Line(s)
      ensures b.id < x.id && b.generation <= x.generation
    {
      LineIsAcquired(s, b);
    }
    hide Line;
    OrderedAppend(Line(s), x);
  }

  lemma AcquiredMore(s: State, t: State, x: Block)
    requires Acquired(s) && t.hw == s.hw && t.log.acquired == s.log.acquired + [x]
    requires x.id == |s.log.acquired| && x.generation == s.hw.generation
    ensures Acquired(t)
  {
    OrderedAppend(s.log.acquired, x);
    hide Ordered;
  }

  lemma GainingConserves(s: State, t: State, x: Block)
    requires Conserved(s) && Gains(s, t, x)
    ensures Conserved(t)
  {
    LaterThanAll(s, x);
    AcquiredMore(s, t, x);
    hide Line, Ordered, Lost, Acquired;
    assert multiset(Line(t)) == multiset(Line(s)) + multiset{x};
  }

  lemma Regrouped(p: Places)
    ensures InLine(p) == p.received + p.slot + p.dsp + (p.queue + p.hand)
    ensures InLine(p) == p.received + p.slot + (p.dsp + p.queue + p.hand)
  {
  }

  lemma Enqueued(p: Places, q: Places, x: Block)
    requires p.hand == [x] && q == p.(queue := p.queue + [x], hand := [])
    ensures InLine(q) == InLine(p)
  {
    assert q.dsp + q.queue + q.hand == p.dsp + p.queue + p.hand;
    Regrouped(p);
    Regrouped(q);
  }

  lemma Appended(p: Places, q: Places, x: Block)
    requires p.hand == [] && q == p.(hand := [x])
    ensures InLine(q) == InLine(p) + [x]
  {
  }

  lemma HandLost(p: Places, q: Places, x: Block)
    requires p.hand == [x] && q == p.(hand := [])
    ensures var ahead := p.received + p.slot + p.dsp + p.queue;
            InLine(p) == ahead + [x] + [] && InLine(q) == ahead + []
  {
  }

  lemma Dequeued(p: Places, q: Places)
    requires p.dsp == [] && p.queue != [] && q == p.(queue := p.queue[1..], dsp := [p.queue[0]])
    ensures InLine(q) == InLine(p)
  {
    assert q.dsp + q.queue + q.hand == p.dsp + p.queue + p.hand;
    Regrouped(p);
    Regrouped(q);
  }

  lemma DspLost(p: Places, q: Places, x: Block)
    requires p.dsp == [x] && q == p.(dsp := [])
    ensures var ahead, behind := p.received + p.slot, p.queue + p.hand;
            InLine(p) == ahead + [x] + behind && InLine(q) == ahead + behind
  {
    Regrouped(p);
    Regrouped(q);
    assert p.received + p.slot + [] == p.received + p.slot;
  }

  lemma SlotLost(p: Places, q: Places, x: Block)
    requires p.slot == [x] && q == p.(slot := p.dsp, dsp := [])
    ensures var behind := p.dsp + p.queue + p.hand;
            InLine(p) == p.received + [x] + behind && InLine(q) == p.received + behind
  {
    Regrouped(p);
  }

  lemma SlotFilled(p: Places, q: Places)
    requires p.slot == [] && q == p.(slot := p.dsp, dsp := [])
    ensures InLine(q) == InLine(p)
  {
    assert q.received + q.slot + q.dsp == p.received + p.slot + p.dsp;
  }

  lemma SlotTaken(p: Places, q: Places)
    requires q == p.(received := p.received + p.slot, slot := [])
    ensures InLine(q) == InLine(p)
  {
    assert q.received + q.slot == p.received + p.slot;
  }

  lemma AcquisitionUnmoved(s: State, testSignal: bool, now: u32)
    requires !s.acquisition.Notified? && !s.acquisition.Dropping?
    ensures Unmoved(s, OnAcquisition(s, testSignal, now))
  {
    hide HealthMonitor.Observe, HealthMonitor.CheckBits;
    hide InLine, BlocksOf, Gone;
    if s.acquisition.Sending? && |s.queue| < QUEUE_DEPTH {
      Enqueued(PlacesOf(s), PlacesOf(OnAcquisition(s, testSignal, now)), s.acquisition.block);
    }
  }

  lemma AcquisitionGains(s: State, testSignal: bool, now: u32)
    requires s.acquisition.Notified?
    ensures Gains(s, OnAcquisition(s, testSignal, now), Block(|s.log.acquired|, s.hw.generation, s.hw.half, now))
  {
    hide HealthMonitor.Observe, HealthMonitor.CheckBits;
    var t, x := OnAcquisition(s, testSignal, now), Block(|s.log.acquired|, s.hw.generation, s.hw.half, now);
    assert Lost(t.log) == Lost(s.log);
    hide InLine, BlocksOf, Lost;
    Appended(PlacesOf(s), PlacesOf(t), x);
    assert Line(t) == Line(s) + [x];
  }

  lemma AcquisitionLoses(s: State, testSignal: bool, now: u32)
    requires s.acquisition.Dropping?
    ensures var p := PlacesOf(s);
            Loses(s, OnAcquisition(s, testSignal, now), p.received + p.slot + p.dsp + p.queue, s.acquisition.block, [])
  {
    hide HealthMonitor.Observe, HealthMonitor.CheckBits;
    var t, x := OnAcquisition(s, testSignal, now), s.acquisition.block;
    assert Lost(t.log) == Lost(s.log) + multiset{x};
    hide InLine, BlocksOf, Lost;
    HandLost(PlacesOf(s), PlacesOf(t), x);
  }

  lemma AcquisitionConserves(s: State, testSignal: bool, now: u32)
    requires Conserved(s)
    ensures Conserved(OnAcquisition(s, testSignal, now))
  {
    var t := OnAcquisition(s, testSignal, now);
    var p := PlacesOf(s);
    hide Conserved, OnAcquisition, Unmoved, Gains, Loses;
    if s.acquisition.Notified? {
      AcquisitionGains(s, testSignal, now);
      GainingConserves(s, t, Block(|s.log.acquired|, s.hw.generation, s.hw.half, now));
    } else if s.acquisition.Dropping? {
      AcquisitionLoses(s, testSignal, now);
      LosingConserves(s, t, p.received + p.slot + p.dsp + p.queue, s.acquisition.block, []);
    } else {
      AcquisitionUnmoved(s, testSignal, now);
      UnmovedConserves(s, t);
    }
  }

  lemma DspUnmoved(s: State, fault: set<Status>, quality: set<Status>)
    requires !s.dsp.Stale? && !(s.dsp.Ready? && s.result.Some?)
    ensures Unmoved(s, OnDsp(s, fault, quality))
  {
    var t := OnDsp(s, fault, quality);
    hide InLine, BlocksOf, Lost, SameGeneration, SlotOf;
    if s.dsp.Idle? && s.queue != [] {
      Dequeued(PlacesOf(s), PlacesOf(t));
    } else if s.dsp.Ready? {
      SlotFilled(PlacesOf(s), PlacesOf(t));
    } else {
      assert PlacesOf(t) == PlacesOf(s);
    }
  }

  lemma DspRejects(s: State, fault: set<Status>, quality: set<Status>)
    requires s.dsp.Stale?
    ensures var p := PlacesOf(s);
            Loses(s, OnDsp(s, fault, quality), p.received + p.slot, s.dsp.block, p.queue + p.hand)
  {
    hide InLine, BlocksOf;
    DspLost(PlacesOf(s), PlacesOf(OnDsp(s, fault, quality)), s.dsp.block);
  }

  lemma DspSupersedes(s: State, fault: set<Status>, quality: set<Status>)
    requires s.dsp.Ready? && s.result.Some?
    ensures var p := PlacesOf(s);
            Loses(s, OnDsp(s, fault, quality), p.received, s.result.value.block, p.dsp + p.queue + p.hand)
  {
    hide InLine, BlocksOf;
    SlotLost(PlacesOf(s), PlacesOf(OnDsp(s, fault, quality)), s.result.value.block);
  }

  lemma DspConserves(s: State, fault: set<Status>, quality: set<Status>)
    requires Conserved(s)
    ensures Conserved(OnDsp(s, fault, quality))
  {
    var t := OnDsp(s, fault, quality);
    var p := PlacesOf(s);
    hide Conserved, OnDsp, Unmoved, Loses;
    if s.dsp.Stale? {
      DspRejects(s, fault, quality);
      LosingConserves(s, t, p.received + p.slot, s.dsp.block, p.queue + p.hand);
    } else if s.dsp.Ready? && s.result.Some? {
      DspSupersedes(s, fault, quality);
      LosingConserves(s, t, p.received, s.result.value.block, p.dsp + p.queue + p.hand);
    } else {
      DspUnmoved(s, fault, quality);
      UnmovedConserves(s, t);
    }
  }

  lemma ReceivedBlocks(s: State, written: bool)
    requires s.telemetry.Resting? && s.result.Some?
    ensures PlacesOf(OnTelemetry(s, written))
         == PlacesOf(s).(received := PlacesOf(s).received + PlacesOf(s).slot, slot := [])
  {
    assert BlocksOf(OnTelemetry(s, written).log.received) == BlocksOf(s.log.received) + InSlot(s.result);
    hide BlocksOf;
  }

  lemma TelemetryUnmoved(s: State, written: bool)
    ensures Unmoved(s, OnTelemetry(s, written))
  {
    if s.telemetry.Resting? && s.result.Some? {
      hide InLine, PlacesOf, Gone;
      ReceivedBlocks(s, written);
      SlotTaken(PlacesOf(s), PlacesOf(OnTelemetry(s, written)));
    } else {
      hide InLine, BlocksOf, Gone;
    }
  }

  lemma OthersUnmoved(s: State, step: Step)
    requires step.DmaWrite? || step.PublishHalf? || step.WatchdogSample?
    ensures Unmoved(s, Apply(s, step))
  {
    hide InLine, BlocksOf, Lost;
  }

  lemma StepConserves(s: State, step: Step)
    requires Conserved(s) && Enabled(s, step)
    ensures Conserved(Apply(s, step))
  {
    hide Conserved, OnAcquisition, OnDsp, OnTelemetry, Unmoved;
    match step
    case AcquisitionStep(testSignal, now) => AcquisitionConserves(s, testSignal, now);
    case DspStep(fault, quality) => DspConserves(s, fault, quality);
    case TelemetryStep(written) =>
      TelemetryUnmoved(s, written);
      UnmovedConserves(s, Apply(s, step));
    case _ =>
      OthersUnmoved(s, step);
      UnmovedConserves(s, Apply(s, step));
  }

  /** Conservation over every run: each acquired block is waiting, in some task's hands, published,
      received, or lost in exactly one of the three ways; and what is received keeps the order. */
  lemma {:induction false} BlocksConserved(reset: bool, steps: seq<Step>)
    requires Legal(reset, steps)
    ensures Conserved(After(reset, steps))
  {
    hide Apply, Conserved;
    if steps == [] {
      StartsConserved(reset);
    } else {
      BlocksConserved(reset, steps[..|steps| - 1]);
      StepConserves(After(reset, steps[..|steps| - 1]), steps[|steps| - 1]);
    }
  }

  lemma StartsConserved(reset: bool)
    ensures Conserved(Initial(reset))
  {
    assert Line(Initial(reset)) == [];
  }
}
