/** Serial runs: the soundness of the fast ticks and what every run keeps. */
module SerialRuns {
  import opened Prelude
  import opened Hardware
  import opened Scheduler
  import opened Serial

  datatype Op =
    | TickOp(speed: CgbSpeedMode)
    | Pulse
    | SetPeerOp(peer: Peer)
    | WriteSbOp(value: u8)
    | WriteScOp(value: u8)
    | SetModeOp(mode: OperatingMode)
    | TakeOutput

  function Apply(s: SerialState, op: Op): TickResult {
    match op
    case TickOp(speed) => s.AfterTick(speed)
    case Pulse => TickResult(s.AfterPulse(), NO_TELEMETRY, [])
    case SetPeerOp(peer) => TickResult(s.(peer := peer), NO_TELEMETRY, [])
    case WriteSbOp(value) => TickResult(s.AfterSb(value), NO_TELEMETRY, [])
    case WriteScOp(value) => TickResult(s.AfterSc(value), NO_TELEMETRY, [])
    case SetModeOp(mode) => TickResult(s.AfterMode(mode), NO_TELEMETRY, [])
    case TakeOutput => TickResult(s.(completed := []), NO_TELEMETRY, [])
  }

  function Run(s: SerialState, ops: seq<Op>): SerialState {
    if ops == [] then s else Apply(Run(s, ops[..|ops| - 1]), ops[|ops| - 1]).state
  }

  function TotalTelemetry(s: SerialState, ops: seq<Op>): Telemetry {
    if ops == [] then NO_TELEMETRY
    else TotalTelemetry(s, ops[..|ops| - 1]).Plus(Apply(Run(s, ops[..|ops| - 1]), ops[|ops| - 1]).telemetry)
  }

  function AllInterrupts(s: SerialState, ops: seq<Op>): seq<InterruptSource> {
    if ops == [] then []
    else AllInterrupts(s, ops[..|ops| - 1]) + Apply(Run(s, ops[..|ops| - 1]), ops[|ops| - 1]).interrupts
  }

  /** A machine's serial operations: the step of a T-cycle, another attachment, or what the CPU and a link partner
      do. */
  datatype MachineOp<P> = Step(speed: CgbSpeedMode) | Attach(port: Port<P>) | Access(op: Op)

  function ApplyToMachine<P>(
    device: PrinterDevice<P>, s: SerialState, port: Port<P>, op: MachineOp<P>, chosen: bool): StepResult<P>
  {
    match op
    case Step(speed) =>
      if chosen then s.AfterChosenStep(device, port, speed) else s.AfterFullStep(device, port, speed)
    case Attach(attached) => StepResult(s, attached, NO_TELEMETRY, [])
    case Access(access) =>
      var r := Apply(s, access);
      StepResult(r.state, port, r.telemetry, r.interrupts)
  }

  /** A run with its telemetry totals and all its interrupts, choosing among the ticks or always taking the full one. */
  function MachineRun<P>(
    device: PrinterDevice<P>, s: SerialState, port: Port<P>, ops: seq<MachineOp<P>>, chosen: bool): StepResult<P>
  {
    if ops == [] then StepResult(s, port, NO_TELEMETRY, [])
    else
      var n := |ops| - 1;
      var before := MachineRun(device, s, port, ops[..n], chosen);
      var r := ApplyToMachine(device, before.state, before.port, ops[n], chosen);
      StepResult(r.state, r.port, before.telemetry.Plus(r.telemetry), before.interrupts + r.interrupts)
  }

  /** Each cheap tick does, in the states where it is chosen, exactly what the full tick does. */
  lemma ChosenTickIsFullTick<P>(s: SerialState, device: PrinterDevice<P>, port: Port<P>, speed: CgbSpeedMode)
    ensures s.AfterChosenStep(device, port, speed) == s.AfterFullStep(device, port, speed)
  {
    hide SerialState.Shifted, InternalClockEdge;
  }

  /** Over whole runs, with any printer attached at any time, choosing the cheap ticks gives the serial state, the
      printer state, the telemetry totals and the interrupts of always running the full tick. */
  lemma {:induction false} FastPathsRefine<P>(
    device: PrinterDevice<P>, s: SerialState, port: Port<P>, ops: seq<MachineOp<P>>)
    ensures MachineRun(device, s, port, ops, true) == MachineRun(device, s, port, ops, false)
  {
    if ops != [] {
      var n := |ops| - 1;
      FastPathsRefine(device, s, port, ops[..n]);
      hide SerialState.AfterFullStep, SerialState.AfterChosenStep, Telemetry.Plus;
      if ops[n].Step? {
        var before := MachineRun(device, s, port, ops[..n], false);
        ChosenTickIsFullTick(before.state, device, before.port, ops[n].speed);
      }
    }
  }

  /** Pulses wait only in an externally clocked transfer, and a transfer has fewer than eight bits behind it. */
  ghost predicate Inv(s: SerialState) {
    && (s.pendingPulses != 0 ==> s.ExternallyRequested())
    && (s.transfer.Requested? ==> s.transfer.bitsShifted < 8)
  }

  lemma ApplyKeepsInv(s: SerialState, op: Op)
    requires Inv(s)
    ensures Inv(Apply(s, op).state)
  {
    hide InternalClockEdge;
  }

  lemma {:induction false} RunKeepsInv(model: ConsoleModel, mode: OperatingMode, ops: seq<Op>)
    ensures Inv(Run(Initial(model, mode), ops))
  {
    if ops != [] {
      RunKeepsInv(model, mode, ops[..|ops| - 1]);
      ApplyKeepsInv(Run(Initial(model, mode), ops[..|ops| - 1]), ops[|ops| - 1]);
      hide Apply, Inv;
    }
  }
}
