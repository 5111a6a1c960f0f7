/** No published result was computed from a torn or overwritten block. */
module Freshness {
  import opened Bytes
  import opened Format
  import opened Pipeline

  /** The last of the first w conversions that went to a slot. */
  function LastInto(w: nat, slot: nat): int
    requires slot < SLOTS
  {
    var round := w / SLOTS * SLOTS;
    if slot < w % SLOTS then round + slot else if round > 0 then round + slot - SLOTS else -1
  }

  /** It went there, and nothing later did; -1 means that nothing has yet. */
  lemma LastIntoIsLast(w: nat, slot: nat, t: nat)
    requires slot < SLOTS && t < w && t % SLOTS == slot
    ensures t <= LastInto(w, slot) < w && LastInto(w, slot) % SLOTS == slot
  {
    var round := w / SLOTS;
    assert w == SLOTS * round + w % SLOTS && t == SLOTS * (t / SLOTS) + slot;
    if slot < w % SLOTS {
      assert t / SLOTS <= round;
    } else {
      assert t / SLOTS < round;
    }
  }

  lemma NothingIntoYet(w: nat, slot: nat)
    requires slot < SLOTS
    ensures LastInto(w, slot) == -1 <==> w <= slot
  {
  }

  ghost predicate HardwareInv(hw: Hardware) {
    && HALF * hw.generation <= hw.written <= HALF * (hw.generation + 2)
    && (forall slot :: 0 <= slot < SLOTS ==> hw.memory[slot] == LastInto(hw.written, slot))
    && (hw.generation > 0 ==> hw.half == (hw.generation - 1) % 2)
  }

  lemma LastIntoStep(w: nat, slot: nat)
    requires slot < SLOTS
    ensures LastInto(w + 1, slot) == if slot == w % SLOTS then w else LastInto(w, slot)
  {
    if w % SLOTS == SLOTS - 1 {
      assert (w + 1) / SLOTS == w / SLOTS + 1 && (w + 1) % SLOTS == 0;
    } else {
      assert (w + 1) / SLOTS == w / SLOTS && (w + 1) % SLOTS == w % SLOTS + 1;
    }
  }

  lemma HalvesAlternate(g: nat)
    ensures HalfAfter(g) == g % 2
  {
  }

  lemma ParityWraps(g: nat)
    requires g > 0
    ensures (g % TWO_32 - 1) % 2 == (g - 1) % 2
  {
    var q, r := g / TWO_32, g % TWO_32;
    assert g - 1 == 2 * (q * (TWO_32 / 2)) + (r - 1);
    EvenShift(q * (TWO_32 / 2), r - 1);
  }

  lemma EvenShift(a: int, b: int)
    ensures (2 * a + b) % 2 == b % 2
  {
  }

  /** completed_half = (completed_generation - 1) mod 2 on the 32-bit counter too, across its wrap. */
  lemma HalfFollowsGeneration(hw: Hardware)
    requires HardwareInv(hw) && hw.generation > 0
    ensures hw.half == (hw.generation % TWO_32 - 1) % 2
  {
    ParityWraps(hw.generation);
  }

  lemma DmaKeeps(hw: Hardware)
    requires HardwareInv(hw) && hw.written < HALF * (hw.generation + 2)
    ensures HardwareInv(OnDmaWrite(hw))
  {
    var next := OnDmaWrite(hw);
    hide LastInto;
    forall slot | 0 <= slot < SLOTS
      ensures next.memory[slot] == LastInto(next.written, slot)
    {
      LastIntoStep(hw.written, slot);
    }
  }

  lemma PublishKeeps(hw: Hardware)
    requires HardwareInv(hw) && hw.written >= HALF * (hw.generation + 1)
    ensures HardwareInv(OnPublish(hw))
  {
    HalvesAlternate(hw.generation);
  }

  /** Publications are accounted for: blocks returned, overruns, and notifications still pending. */
  ghost predicate PublicationsInv(s: State) {
    s.hw.generation
    == |s.log.acquired| + s.hw.overruns + s.hw.notifications + if s.acquisition.Notified? then 1 else 0
  }

  /** A descriptor names the half its generation lies in. */
  ghost predicate BlockOk(b: Block, generation: nat) {
    1 <= b.generation <= generation && b.half == (b.generation - 1) % 2
  }

  function OwnWord(b: Block, k: nat): int {
    HALF * (b.generation - 1) + k % HALF
  }

  ghost predicate Own(b: Block, words: seq<int>) {
    forall k :: 0 <= k < |words| ==> words[k] == OwnWord(b, k)
  }

  ghost predicate Whole(r: Report) {
    |r.words| == READS && Own(r.block, r.words)
  }

  ghost predicate AcquisitionOk(a: AcquisitionAt, generation: nat) {
    match a
    case Holding(b) => BlockOk(b, generation)
    case Checked(b) => BlockOk(b, generation)
    case Sending(b) => BlockOk(b, generation)
    case _ => true
  }

  ghost predicate QueueOk(q: seq<Block>, generation: nat) {
    forall i :: 0 <= i < |q| ==> BlockOk(q[i], generation)
  }

  ghost predicate DspOk(d: DspAt, generation: nat) {
    match d
    case Arrived(b) => BlockOk(b, generation)
    case Reading(b, words) =>
      && BlockOk(b, generation) && |words| <= READS
      && (generation == b.generation ==> Own(b, words))
    case Verified(b, words) => |words| == READS && Own(b, words)
    case Stale(b) => b.generation < generation
    case Ready(r) => Whole(r)
    case _ => true
  }

  ghost predicate ReportsOk(result: Option<Report>, received: seq<Report>) {
    (result.Some? ==> Whole(result.value)) && forall i :: 0 <= i < |received| ==> Whole(received[i])
  }

  /** Only blocks that a later publication had overtaken are rejected. */
  ghost predicate RejectionsOk(stale: seq<Block>, generation: nat) {
    forall i :: 0 <= i < |stale| ==> stale[i].generation < generation
  }

  ghost predicate Inv(s: State) {
    && HardwareInv(s.hw) && PublicationsInv(s) && RejectionsOk(s.log.stale, s.hw.generation)
    && AcquisitionOk(s.acquisition, s.hw.generation) && QueueOk(s.queue, s.hw.generation)
    && DspOk(s.dsp, s.hw.generation) && ReportsOk(s.result, s.log.received)
  }

  /** The DMA has gone on to the next half only once the interrupt has published the last one. */
  predicate Settled(hw: Hardware) {
    hw.written / HALF == hw.generation
  }

  /** What the firmware relies on: task code never reads the buffer between the DMA's switch of halves
      and the publication, and fewer than 2^32 publications pass while a block is being read. */
  predicate Timely(s: State, step: Step) {
    step.DspStep? && s.dsp.Reading? ==>
      if |s.dsp.words| < READS then Settled(s.hw)
      else s.hw.generation < s.dsp.block.generation + TWO_32
  }

  predicate TimelyRun(reset: bool, steps: seq<Step>) {
    steps == []
    || (TimelyRun(reset, steps[..|steps| - 1])
        && Timely(After(reset, steps[..|steps| - 1]), steps[|steps| - 1]))
  }

  lemma SlotArithmetic(g: nat, w: nat, k: nat)
    requires g >= 1 && HALF * g <= w <= HALF * (g + 2)
    ensures var slot := (g - 1) % 2 * HALF + k % HALF;
            LastInto(w, slot)
            == if w <= HALF * (g + 1) + k % HALF then HALF * (g - 1) + k % HALF else HALF * (g + 1) + k % HALF
  {
    var j := k % HALF;
    var slot := (g - 1) % 2 * HALF + j;
    var t := HALF * (g - 1) + j;
    var round := (g - 1) / 2;
    assert t == SLOTS * round + slot;
    if w <= t + SLOTS {
      if w < SLOTS * (round + 1) {
        assert w / SLOTS == round;
      } else {
        assert w / SLOTS == round + 1;
      }
    } else {
      if w < SLOTS * (round + 2) {
        assert w / SLOTS == round + 1;
      } else {
        assert w / SLOTS == round + 2;
      }
    }
  }

  /** While a block is the latest published, a read finds the block's own word exactly if the DMA has not
      yet come round to that slot; otherwise it finds the word of two generations on. */
  lemma ReadIsOwn(hw: Hardware, b: Block, k: nat)
    requires HardwareInv(hw) && BlockOk(b, hw.generation) && hw.generation == b.generation
    ensures hw.memory[SlotOf(b, k)] == OwnWord(b, k) <==> hw.written <= HALF * (b.generation + 1) + k % HALF
    ensures hw.memory[SlotOf(b, k)] == OwnWord(b, k) || hw.memory[SlotOf(b, k)] == OwnWord(b, k) + SLOTS
  {
    hide LastInto;
    SlotArithmetic(b.generation, hw.written, k);
  }

  lemma SettledReadIsOwn(hw: Hardware, b: Block, k: nat)
    requires HardwareInv(hw) && Settled(hw) && BlockOk(b, hw.generation) && hw.generation == b.generation
    ensures hw.memory[SlotOf(b, k)] == OwnWord(b, k)
  {
    ReadIsOwn(hw, b, k);
  }

  lemma SameUpToWrap(hw: Hardware, b: Block)
    requires BlockOk(b, hw.generation)
    ensures SameGeneration(hw, b) ==> hw.generation == b.generation || hw.generation >= b.generation + TWO_32
  {
  }

  /** Two generations on, nothing of a block is left in the buffer; a generation 2^32 later would all
      the same pass the check. */
  lemma OldBlocksAreGone(hw: Hardware, b: Block, k: nat)
    requires HardwareInv(hw) && BlockOk(b, hw.generation) && hw.generation >= b.generation + 2
    ensures hw.memory[SlotOf(b, k)] != OwnWord(b, k)
    ensures SameGeneration(hw, b) <==> (hw.generation - b.generation) % TWO_32 == 0
  {
    var slot := SlotOf(b, k);
    assert hw.memory[slot] == LastInto(hw.written, slot);
    assert LastInto(hw.written, slot) >= hw.written - SLOTS;
    hide HardwareInv, LastInto;
    EqualRemainders(hw.generation, b.generation);
  }

  lemma EqualRemainders(x: nat, y: nat)
    requires y <= x
    ensures x % TWO_32 == y % TWO_32 <==> (x - y) % TWO_32 == 0
  {
    var qx, rx, qy, ry := x / TWO_32, x % TWO_32, y / TWO_32, y % TWO_32;
    assert x - y == TWO_32 * (qx - qy) + (rx - ry);
  }

  lemma HardwareStepKeeps(s: State, step: Step)
    requires Inv(s) && Enabled(s, step) && (step.DmaWrite? || step.PublishHalf?)
    ensures Inv(Apply(s, step))
  {
    if step.DmaWrite? {
      DmaKeeps(s.hw);
      hide HardwareInv, Own;
    } else {
      PublishKeeps(s.hw);
      hide HardwareInv, Own;
    }
  }

  lemma AcquisitionStepKeeps(s: State, step: Step)
    requires Inv(s) && step.AcquisitionStep?
    ensures Inv(Apply(s, step))
  {
    hide HealthMonitor.Observe, HealthMonitor.CheckBits;
    hide Own, LastInto;
  }

  lemma ReadingKeeps(s: State, step: Step)
    requires Inv(s) && step.DspStep? && s.dsp.Reading? && Timely(s, step)
    ensures Inv(Apply(s, step))
  {
    var hw, b, words := s.hw, s.dsp.block, s.dsp.words;
    SameUpToWrap(hw, b);
    if hw.generation == b.generation && |words| < READS {
      SettledReadIsOwn(hw, b, |words|);
    }
    hide HardwareInv, SlotOf, RejectionsOk, ReportsOk, QueueOk, AcquisitionOk;
  }

  lemma OtherDspKeeps(s: State, step: Step)
    requires Inv(s) && step.DspStep? && !s.dsp.Reading?
    ensures Inv(Apply(s, step))
  {
    hide HardwareInv, AcquisitionOk;
  }

  lemma DspStepKeeps(s: State, step: Step)
    requires Inv(s) && step.DspStep? && Timely(s, step)
    ensures Inv(Apply(s, step))
  {
    hide Inv, Apply;
    if s.dsp.Reading? {
      ReadingKeeps(s, step);
    } else {
      OtherDspKeeps(s, step);
    }
  }

  lemma TelemetryStepKeeps(s: State, step: Step)
    requires Inv(s) && step.TelemetryStep?
    ensures Inv(Apply(s, step))
  {
    hide Own, HardwareInv;
  }

  lemma StepKeeps(s: State, step: Step)
    requires Inv(s) && Enabled(s, step) && Timely(s, step)
    ensures Inv(Apply(s, step))
  {
    hide Inv;
    match step
    case DmaWrite => HardwareStepKeeps(s, step);
    case PublishHalf => HardwareStepKeeps(s, step);
    case AcquisitionStep(_, _) => AcquisitionStepKeeps(s, step);
    case DspStep(_, _) => DspStepKeeps(s, step);
    case TelemetryStep(_) => TelemetryStepKeeps(s, step);
    case WatchdogSample => SampleKeeps(s);
  }

  lemma SampleKeeps(s: State)
    requires Inv(s)
    ensures Inv(s.(dog := OnSample(s.dog)))
  {
  }

  lemma {:induction false} RunsStayFresh(reset: bool, steps: seq<Step>)
    requires Legal(reset, steps) && TimelyRun(reset, steps)
    ensures Inv(After(reset, steps))
  {
    hide Inv, Apply;
    if steps == [] {
      StartsFresh(reset);
    } else {
      RunsStayFresh(reset, steps[..|steps| - 1]);
      StepKeeps(After(reset, steps[..|steps| - 1]), steps[|steps| - 1]);
    }
  }

  lemma StartsFresh(reset: bool)
    ensures Inv(Initial(reset))
  {
  }

  /** In every interleaving, the results telemetry receives were each computed from the 1024 words of
      their own generation, read twice over: never torn, never overwritten. And no block is rejected
      that was still the latest. */
  lemma ResultsAreFresh(reset: bool, steps: seq<Step>)
    requires Legal(reset, steps) && TimelyRun(reset, steps)
    ensures var received := After(reset, steps).log.received;
            forall i, k :: 0 <= i < |received| && 0 <= k < 2048 ==>
                             && |received[i].words| == 2048
                             && received[i].words[k] == 1024 * (received[i].block.generation - 1) + k % 1024
    ensures var s := After(reset, steps);
            forall b :: b in s.log.stale ==> b.generation < s.hw.generation
  {
    RunsStayFresh(reset, steps);
  }

  lemma PublicationStepKeeps(s: State, step: Step)
    requires PublicationsInv(s) && Enabled(s, step)
    ensures PublicationsInv(Apply(s, step))
  {
    hide HealthMonitor.Observe, HealthMonitor.CheckBits;
  }

  /** Over every run, publications = blocks returned + overruns + pending (+ the one being returned). */
  lemma {:induction false} PublicationsAccounted(reset: bool, steps: seq<Step>)
    requires Legal(reset, steps)
    ensures PublicationsInv(After(reset, steps))
  {
    if steps != [] {
      hide Apply;
      PublicationsAccounted(reset, steps[..|steps| - 1]);
      PublicationStepKeeps(After(reset, steps[..|steps| - 1]), steps[|steps| - 1]);
    }
  }
}
