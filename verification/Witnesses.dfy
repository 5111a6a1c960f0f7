/** Runs that show what the invariants do not promise: without the assumption on the interrupt a block
    can be torn, and the same block can be returned twice. */
module Witnesses {
  import opened Pipeline
  import opened Freshness

  function Conversions(n: nat): (steps: seq<Step>)
    ensures |steps| == n && forall i :: 0 <= i < n ==> steps[i] == DmaWrite
  {
    seq(n, i => DmaWrite)
  }

  function Reads(n: nat): (steps: seq<Step>)
    ensures |steps| == n && forall i :: 0 <= i < n ==> steps[i] == DspStep({}, {})
  {
    seq(n, i => DspStep({}, {}))
  }

  /** n conversions in a row change nothing but the buffer. */
  lemma {:induction false} ConversionsRun(reset: bool, before: seq<Step>, n: nat)
    requires Legal(reset, before) && HardwareInv(After(reset, before).hw)
    requires After(reset, before).hw.written + n <= HALF * (After(reset, before).hw.generation + 2)
    ensures Legal(reset, before + Conversions(n))
    ensures var s, t := After(reset, before), After(reset, before + Conversions(n));
            && HardwareInv(t.hw) && t.hw.written == s.hw.written + n
            && t == s.(hw := s.hw.(memory := t.hw.memory, written := t.hw.written))
  {
    hide After, Legal, HardwareInv;
    if n == 0 {
      assert before + Conversions(n) == before;
    } else {
      ConversionsRun(reset, before, n - 1);
      var now := before + Conversions(n - 1);
      assert before + Conversions(n) == now + [DmaWrite];
      AfterAppend(reset, now, DmaWrite);
      DmaKeeps(After(reset, now).hw);
    }
  }

  /** n reads in a row: the first word stays what it was when it was read. */
  lemma {:induction false} ReadsRun(reset: bool, before: seq<Step>, b: Block, n: nat)
    requires Legal(reset, before) && After(reset, before).dsp == Reading(b, []) && n <= READS
    ensures Legal(reset, before + Reads(n))
    ensures var s, t := After(reset, before), After(reset, before + Reads(n));
            && t.dsp.Reading? && t.dsp.block == b && |t.dsp.words| == n
            && (n > 0 ==> t.dsp.words[0] == s.hw.memory[SlotOf(b, 0)])
            && t == s.(dsp := t.dsp)
  {
    hide After, Legal;
    if n == 0 {
      assert before + Reads(n) == before;
    } else {
      ReadsRun(reset, before, b, n - 1);
      var now, step := before + Reads(n - 1), DspStep({}, {});
      assert before + Reads(n) == now + [step];
      AfterAppend(reset, now, step);
    }
  }

  const QUIET := AcquisitionStep(false, 0)
  const DSP := DspStep({}, {})

  /** The first half converted and published, and the acquisition task started. */
  lemma FirstHalfPublished() returns (steps: seq<Step>)
    ensures Legal(false, steps) && HardwareInv(After(false, steps).hw)
    ensures var s := After(false, steps);
            && s.hw.written == HALF && s.hw.generation == 1 && s.hw.half == 0 && s.hw.notifications == 1
            && s.acquisition.Waiting? && s.dsp.Idle? && s.telemetry.Resting?
            && s.queue == [] && s.result.None? && s.log.acquired == [] && s.log.received == []
  {
    var none: seq<Step> := [];
    StartsFresh(false);
    assert After(false, none) == Initial(false);
    hide HardwareInv;
    ConversionsRun(false, none, HALF);
    var a := none + Conversions(HALF);
    PublishKeeps(After(false, a).hw);
    hide After, Legal;
    AfterAppend(false, a, PublishHalf);
    AfterAppend(false, a + [PublishHalf], QUIET);
    steps := a + [PublishHalf] + [QUIET];
  }

  lemma NotificationsAside(hw: Hardware)
    requires HardwareInv(hw)
    ensures forall n, o :: HardwareInv(hw.(notifications := n, overruns := o))
  {
  }

  /** The first block handed to the DSP task, which finds it current. */
  lemma FirstBlockArrives() returns (steps: seq<Step>)
    ensures Legal(false, steps) && HardwareInv(After(false, steps).hw)
    ensures var s := After(false, steps);
            && s.hw.written == HALF && s.hw.generation == 1
            && s.dsp == Reading(Block(0, 1, 0, 0), []) && s.log.received == [] && s.telemetry.Resting?
            && s.result.None?
  {
    hide HardwareInv, After, Legal;
    var c := FirstHalfPublished();
    NotificationsAside(After(false, c).hw);
    AfterAppend(false, c, QUIET);
    AfterAppend(false, c + [QUIET], QUIET);
    var d := c + [QUIET] + [QUIET];
    AcquiredIsEnqueued(d);
    steps := d + [QUIET] + [QUIET] + [QUIET] + [DSP] + [DSP];
  }

  lemma AcquiredIsEnqueued(d: seq<Step>)
    requires Legal(false, d) && After(false, d).acquisition == Holding(Block(0, 1, 0, 0))
    requires After(false, d).hw.generation == 1 && After(false, d).queue == [] && After(false, d).dsp.Idle?
    ensures var steps := d + [QUIET] + [QUIET] + [QUIET] + [DSP] + [DSP];
            && Legal(false, steps)
            && After(false, steps)
               == After(false, d).(acquisition := AcquisitionVoting, dsp := Reading(Block(0, 1, 0, 0), []),
                  sticky := After(false, steps).sticky, monitor := After(false, steps).monitor)
  {
    hide After, Legal;
    AfterAppend(false, d, QUIET);
    AfterAppend(false, d + [QUIET], QUIET);
    var e := d + [QUIET] + [QUIET];
    AfterAppend(false, e, QUIET);
    AfterAppend(false, e + [QUIET], DSP);
    AfterAppend(false, e + [QUIET] + [DSP], DSP);
  }

  /** If the DMA has gone on to the second half and come round again before its interrupt publishes, a
      block passes both generation checks, is published and received, and yet holds a foreign word. */
  lemma LateInterruptTears() returns (steps: seq<Step>)
    ensures Legal(false, steps)
    ensures var received := After(false, steps).log.received;
            |received| == 1 && !Own(received[0].block, received[0].words)
  {
    var a := FirstBlockArrives();
    var b := Block(0, 1, 0, 0);
    ConversionsRun(false, a, HALF + 1);
    var c := a + Conversions(HALF + 1);
    assert After(false, c).hw.memory[SlotOf(b, 0)] != OwnWord(b, 0);
    hide After, Legal, HardwareInv;
    ReadsRun(false, c, b, READS);
    var d := c + Reads(READS);
    ReadIsReceived(d);
    steps := d + [DSP] + [DSP] + [DSP] + [TelemetryStep(true)];
  }

  /** A block read to its end while its generation is still current is verified, published and received. */
  lemma ReadIsReceived(d: seq<Step>)
    requires Legal(false, d)
    requires var s := After(false, d);
             && s.dsp.Reading? && |s.dsp.words| == READS && s.hw.generation == s.dsp.block.generation
             && s.result.None? && s.telemetry.Resting? && s.log.received == []
    ensures var steps := d + [DSP] + [DSP] + [DSP] + [TelemetryStep(true)];
            && Legal(false, steps)
            && var received := After(false, steps).log.received;
            |received| == 1 && received[0].block == After(false, d).dsp.block
            && received[0].words == After(false, d).dsp.words
  {
    hide After, Legal;
    AfterAppend(false, d, DSP);
    AfterAppend(false, d + [DSP], DSP);
    AfterAppend(false, d + [DSP] + [DSP], DSP);
    AfterAppend(false, d + [DSP] + [DSP] + [DSP], TelemetryStep(true));
  }

  /** A publication between the notification and the snapshot: its own notification then returns the
      same block again, so that generations only never go back. */
  lemma SameBlockTwice() returns (steps: seq<Step>)
    ensures Legal(false, steps)
    ensures var acquired := After(false, steps).log.acquired;
            acquired == [Block(0, 2, 1, 0), Block(1, 2, 1, 0)]
  {
    hide HardwareInv, After, Legal;
    var b := FirstHalfPublished();
    NotificationsAside(After(false, b).hw);
    AfterAppend(false, b, QUIET);
    var c := b + [QUIET];
    ConversionsRun(false, c, HALF);
    var d := c + Conversions(HALF);
    PublishKeeps(After(false, d).hw);
    AfterAppend(false, d, PublishHalf);
    steps := d + [PublishHalf] + [QUIET] + [QUIET] + [QUIET] + [QUIET] + [QUIET] + [QUIET] + [QUIET];
    SnapshotTwice(d + [PublishHalf]);
  }

  lemma SnapshotTwice(d: seq<Step>)
    requires Legal(false, d)
    requires var s := After(false, d);
             && s.acquisition.Notified? && s.hw.generation == 2 && s.hw.half == 1 && s.hw.notifications == 1
             && s.queue == [] && s.log.acquired == []
    ensures var steps := d + [QUIET] + [QUIET] + [QUIET] + [QUIET] + [QUIET] + [QUIET] + [QUIET];
            Legal(false, steps) && After(false, steps).log.acquired == [Block(0, 2, 1, 0), Block(1, 2, 1, 0)]
  {
    hide After, Legal;
    AfterAppend(false, d, QUIET);
    AfterAppend(false, d + [QUIET], QUIET);
    AfterAppend(false, d + [QUIET] + [QUIET], QUIET);
    var e := d + [QUIET] + [QUIET] + [QUIET];
    AfterAppend(false, e, QUIET);
    AfterAppend(false, e + [QUIET], QUIET);
    AfterAppend(false, e + [QUIET] + [QUIET], QUIET);
    AfterAppend(false, e + [QUIET] + [QUIET] + [QUIET], QUIET);
  }
}
