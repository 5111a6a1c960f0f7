/** The four tasks of app/tasks.c and the ADC interrupt of platform/stm32f446/board_skeleton.c as one
    transition system: each step is one atomic action of one of them. */
module Pipeline {
  import opened Bytes
  import opened Format
  import opened StatusBits
  import HealthMonitor

  const HALF := 1024
  const SLOTS := 2 * HALF
  /** unpack_dual_adc goes over a block twice. */
  const READS := 2 * HALF
  const QUEUE_DEPTH := 2
  /** (1024 * 1000000) / 100000, a block's conversions at 100 kHz. */
  const BLOCK_PERIOD_US: u32 := 10240
  const WRITES := CHANNELS * CHUNKS

  datatype Task = Acquisition | Dsp | Telemetry

  const REQUIRED: set<Task> := {Acquisition, Dsp, Telemetry}

  type Bit = h: int | 0 <= h < 2

  /** Every slot of the DMA buffer holds the number of the conversion last written to it, or -1. */
  type Memory = m: seq<int> | |m| == SLOTS witness seq(SLOTS, i => -1)

  /** A descriptor from platform_adc_wait_block, the `id`-th of the run. Its generation is counted
      without bound; the firmware sees it modulo 2^32. */
  datatype Block = Block(id: nat, generation: nat, half: Bit, timestampUs: u32)

  /** A block as the health monitor sees it. */
  function StampOf(block: Block): HealthMonitor.Stamp {
    HealthMonitor.Stamp(block.generation % TWO_32, block.timestampUs)
  }

  /** Counters are kept without bound; `generation` counts the publications, `half` is the last one's. */
  datatype Hardware = Hardware(written: nat, memory: Memory, generation: nat, half: Bit,
                               notifications: nat, overruns: nat)

  /** A published result: the words it was computed from, in the order they were read, the sticky bits
      it took over and the bits of its own. */
  datatype Report = Report(block: Block, words: seq<int>, sticky: set<Status>, own: set<Status>)

  datatype AcquisitionAt =
    | Starting | Waiting | TimedOut | Notified
    | Holding(block: Block) | Checked(block: Block) | Sending(block: Block) | Dropping(block: Block)
    | AcquisitionVoting

  datatype DspAt =
    | Idle | Arrived(block: Block) | Reading(block: Block, words: seq<int>)
    | Verified(block: Block, words: seq<int>) | Stale(block: Block) | Ready(report: Report) | DspVoting

  datatype TelemetryAt =
    | Resting | Transmitting(report: Report, sent: nat) | Failing(report: Report)
    | TelemetryVoting(report: Report)

  datatype Vote = Vote(task: Task, window: nat)

  /** The watchdog: what each sample observed and whether it fed; every vote with its window. */
  datatype Watchdog = Watchdog(mask: set<Task>, windows: seq<set<Task>>, votes: seq<Vote>, feeds: nat)

  /** What became of the blocks: every one returned, the ones lost in each way, the results telemetry
      took, the chunks it wrote, and the results it voted for; the waits that timed out and the writes
      that failed. */
  datatype Log = Log(acquired: seq<Block>, dropped: seq<Block>, stale: seq<Block>, superseded: seq<Block>,
                     received: seq<Report>, writes: seq<Block>, confirmed: seq<Block>,
                     timeouts: nat, failures: nat)

  datatype State = State(hw: Hardware, acquisition: AcquisitionAt, dsp: DspAt, telemetry: TelemetryAt,
                         queue: seq<Block>, result: Option<Report>, sticky: set<Status>,
                         monitor: HealthMonitor.Monitor, dog: Watchdog, log: Log)

  function Initial(watchdogReset: bool): State {
    State(Hardware(0, seq(SLOTS, i => -1), 0, 0, 0, 0), Starting, Idle, Resting, [], None,
          if watchdogReset then {WATCHDOG_RESET} else {}, HealthMonitor.NEW_MONITOR,
          Watchdog({}, [], [], 0), Log([], [], [], [], [], [], [], 0, 0))
  }

  /** The actions; the arguments are what the environment decides. */
  datatype Step =
    | DmaWrite
    | PublishHalf
    | AcquisitionStep(testSignal: bool, now: u32)
    | DspStep(fault: set<Status>, quality: set<Status>)
    | TelemetryStep(written: bool)
    | WatchdogSample

  /** The interrupt follows the half it announces before the DMA has filled the next one. */
  predicate Enabled(s: State, step: Step) {
    match step
    case DmaWrite => s.hw.written < HALF * (s.hw.generation + 2)
    case PublishHalf => s.hw.written >= HALF * (s.hw.generation + 1)
    case DspStep(fault, quality) => fault <= {NUMERIC_FAULT} && quality <= QUALITY_BITS
    case _ => true
  }

  /** The half in which the words of generation g + 1 lie, which decides the callback that fires. */
  function HalfAfter(g: nat): Bit {
    (g * HALF) % SLOTS / HALF
  }

  function OnDmaWrite(hw: Hardware): Hardware {
    hw.(memory := hw.memory[hw.written % SLOTS := hw.written], written := hw.written + 1)
  }

  /** publish_completed_half, from whichever callback. */
  function OnPublish(hw: Hardware): Hardware {
    hw.(half := HalfAfter(hw.generation), generation := hw.generation + 1,
    notifications := hw.notifications + 1)
  }

  function SetStatus(s: State, bits: set<Status>): State {
    s.(sticky := s.sticky + bits)
  }

  /** app_health_kick. */
  function Voted(dog: Watchdog, task: Task): Watchdog {
    dog.(mask := dog.mask + {task}, votes := dog.votes + [Vote(task, |dog.windows|)])
  }

  function Kick(s: State, task: Task): State {
    s.(dog := Voted(s.dog, task))
  }

  function OnAcquisition(s: State, testSignal: bool, now: u32): State {
    match s.acquisition
    case Starting => SetStatus(s, if testSignal then {TEST_SIGNAL} else {}).(acquisition := Waiting)
    case Waiting =>
      if s.hw.notifications == 0 then
        s.(acquisition := TimedOut, log := s.log.(timeouts := s.log.timeouts + 1))
      else
        s.(hw := s.hw.(notifications := 0, overruns := s.hw.overruns + (s.hw.notifications - 1)),
        acquisition := Notified)
    case TimedOut => SetStatus(s, {ADC_OVERRUN}).(acquisition := Waiting)
    case Notified =>
      var block := Block(|s.log.acquired|, s.hw.generation, s.hw.half, now);
      s.(acquisition := Holding(block), log := s.log.(acquired := s.log.acquired + [block]))
    case Holding(block) =>
      SetStatus(s, HealthMonitor.CheckBits(s.monitor, StampOf(block), BLOCK_PERIOD_US))
      .(acquisition := Checked(block),
      monitor := HealthMonitor.Observe(s.monitor, StampOf(block), BLOCK_PERIOD_US))
    case Checked(block) =>
      (if s.hw.overruns % TWO_32 != 0 then SetStatus(s, {ADC_OVERRUN}) else s).(acquisition := Sending(block))
    case Sending(block) =>
      if |s.queue| < QUEUE_DEPTH then s.(queue := s.queue + [block], acquisition := AcquisitionVoting)
      else s.(acquisition := Dropping(block))
    case Dropping(block) =>
      SetStatus(s, {FRAME_DROPPED})
      .(acquisition := AcquisitionVoting, log := s.log.(dropped := s.log.dropped + [block]))
    case AcquisitionVoting => Kick(s, Acquisition).(acquisition := Waiting)
  }

  /** platform_adc_generation() == block.generation, on 32-bit counters. */
  predicate SameGeneration(hw: Hardware, block: Block) {
    hw.generation % TWO_32 == block.generation % TWO_32
  }

  /** The slot of the next word the DSP task reads. */
  function SlotOf(block: Block, k: nat): (slot: nat)
    ensures slot < SLOTS
  {
    block.half * HALF + k % HALF
  }

  function OnDsp(s: State, fault: set<Status>, quality: set<Status>): State {
    match s.dsp
    case Idle =>
      if s.queue == [] then s else s.(queue := s.queue[1..], dsp := Arrived(s.queue[0]))
    case Arrived(block) =>
      s.(dsp := if SameGeneration(s.hw, block) then Reading(block, []) else Stale(block))
    case Reading(block, words) =>
      if |words| < READS then
        s.(dsp := Reading(block, words + [s.hw.memory[SlotOf(block, |words|)]]))
      else
        s.(dsp := if SameGeneration(s.hw, block) then Verified(block, words) else Stale(block))
    case Stale(block) =>
      SetStatus(s, {DMA_STALE, FRAME_DROPPED})
      .(dsp := DspVoting, log := s.log.(stale := s.log.stale + [block]))
    case Verified(block, words) => s.(dsp := Ready(Report(block, words, s.sticky, fault + quality)))
    case Ready(report) =>
      s.(result := Some(report), dsp := DspVoting,
      log := if s.result.Some? then s.log.(superseded := s.log.superseded + [s.result.value.block])
      else s.log)
    case DspVoting => Kick(s, Dsp).(dsp := Idle)
  }

  function OnTelemetry(s: State, written: bool): State {
    match s.telemetry
    case Resting =>
      if s.result.None? then s
      else
        s.(result := None, telemetry := Transmitting(s.result.value, 0),
        log := s.log.(received := s.log.received + [s.result.value]))
    case Transmitting(report, sent) =>
      if !written then
        s.(telemetry := Failing(report), log := s.log.(failures := s.log.failures + 1))
      else
        s.(telemetry := if sent + 1 < WRITES then Transmitting(report, sent + 1) else TelemetryVoting(report),
        log := s.log.(writes := s.log.writes + [report.block]))
    case Failing(report) => SetStatus(s, {UART_BACKPRESSURE}).(telemetry := Resting)
    case TelemetryVoting(report) =>
      Kick(s, Telemetry)
      .(telemetry := Resting, log := s.log.(confirmed := s.log.confirmed + [report.block]))
  }

  /** The watchdog task reads and clears the votes at once, and feeds only on all three. */
  function OnSample(dog: Watchdog): Watchdog {
    dog.(mask := {}, windows := dog.windows + [dog.mask],
    feeds := dog.feeds + if REQUIRED <= dog.mask then 1 else 0)
  }

  function Apply(s: State, step: Step): State {
    match step
    case DmaWrite => s.(hw := OnDmaWrite(s.hw))
    case PublishHalf => s.(hw := OnPublish(s.hw))
    case AcquisitionStep(testSignal, now) => OnAcquisition(s, testSignal, now)
    case DspStep(fault, quality) => OnDsp(s, fault, quality)
    case TelemetryStep(written) => OnTelemetry(s, written)
    case WatchdogSample => s.(dog := OnSample(s.dog))
  }

  /** The state a run of steps leads to. */
  function After(reset: bool, steps: seq<Step>): State {
    if steps == [] then Initial(reset)
    else Apply(After(reset, steps[..|steps| - 1]), steps[|steps| - 1])
  }

  /** A run in which every step is enabled. */
  predicate Legal(reset: bool, steps: seq<Step>) {
    steps == []
    || (Legal(reset, steps[..|steps| - 1])
        && Enabled(After(reset, steps[..|steps| - 1]), steps[|steps| - 1]))
  }

  lemma AfterAppend(reset: bool, steps: seq<Step>, step: Step)
    ensures After(reset, steps + [step]) == Apply(After(reset, steps), step)
    ensures Legal(reset, steps + [step]) <==> Legal(reset, steps) && Enabled(After(reset, steps), step)
  {
    assert (steps + [step])[..|steps + [step]| - 1] == steps;
  }
}
