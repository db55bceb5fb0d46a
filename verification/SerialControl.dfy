/** What an SC write starts: the clock and the time it takes, the pulses that count, the bytes that go in and out. */
module SerialControl {
  import opened Prelude
  import opened Hardware
  import opened Scheduler
  import opened Serial
  import opened SerialRuns
  import opened SerialExchange

  /** The fast clock exists on the two colour consoles in their own operating modes. */
  predicate FastClockAvailable(s: SerialState) {
    && (s.model == GameBoyColor || s.model == GameBoyAdvance)
    && (s.operatingMode == CgbMode || s.operatingMode == CgbDmgExt)
  }

  /** Ticks per bit of the internal clock after `sc` has been written. */
  function TicksPerBit(s: SerialState, sc: u8, speed: CgbSpeedMode): pos {
    var fast := sc / 2 % 2 == 1 && FastClockAvailable(s);
    match speed
    case Normal => if fast then 16 else 512
    case Double => if fast then 8 else 256
  }

  lemma PeriodOfWrite(s: SerialState, sc: u8, speed: CgbSpeedMode)
    ensures ClockPeriod(s.AfterSc(sc), speed) == TicksPerBit(s, sc, speed)
    ensures s.AfterSc(sc).counter == s.counter && s.AfterSc(sc).peer == s.peer && s.AfterSc(sc).sb == s.sb
    ensures s.AfterSc(sc).stagedOutgoing == s.stagedOutgoing && s.AfterSc(sc).completed == s.completed
    ensures sc >= 0x80 && sc % 2 == 1 ==> s.AfterSc(sc).transfer == Requested(0) && s.AfterSc(sc).clockMode == Internal
    ensures sc >= 0x80 && sc % 2 == 0 ==> s.AfterSc(sc).transfer == Requested(0) && s.AfterSc(sc).clockMode == External
    ensures sc < 0x80 ==> s.AfterSc(sc).transfer == Idle
    ensures s.AfterSc(sc).pendingPulses == 0
  {
  }

  /** Leaving the modes with a fast clock drops the fast setting for good: coming back does not restore it. */
  lemma LeavingDropsFastClock(s: SerialState, sc: u8, away: OperatingMode, back: OperatingMode, speed: CgbSpeedMode)
    requires !FastClockAvailable(s.(operatingMode := away))
    ensures ClockPeriod(s.AfterSc(sc).AfterMode(away).AfterMode(back), speed)
         == match speed case Normal => 512 case Double => 256
    ensures FastClockAvailable(s) && FastClockAvailable(s.(operatingMode := back)) ==>
      ClockPeriod(s.AfterSc(sc).AfterMode(back), speed) == TicksPerBit(s, sc, speed)
  {
  }

  /** Asking for the fast clock where there is none is not remembered for a mode that has it. */
  lemma FastClockNotRemembered(s: SerialState, sc: u8, later: OperatingMode, speed: CgbSpeedMode)
    requires !FastClockAvailable(s)
    ensures ClockPeriod(s.AfterSc(sc).AfterMode(later), speed) == match speed case Normal => 512 case Double => 256
  {
  }

  /** Bits 7 and 0 set: the transfer ends when the counter has crossed eight bit boundaries, and not before. */
  lemma InternalTransferTime(s: SerialState, sc: u8, n: nat, speed: CgbSpeedMode)
    requires sc >= 0x80 && sc % 2 == 1
    ensures var p := TicksPerBit(s, sc, speed);
      Run(s.AfterSc(sc), TickOps(n, speed)).transfer.Idle? <==> n >= 8 * p - s.counter % p
  {
    hide *;
    PeriodOfWrite(s, sc, speed);
    InternalTransferEnds(s.AfterSc(sc), n, speed);
  }

  /** The byte that comes in: ones from an open line, the byte sent on loopback, or the peer's. */
  function ByteIn(peer: Peer, out: u8): u8 {
    match peer
    case Disconnected => 0xFF
    case Loopback => out
    case StagedIncomingByte(byte) => byte
  }

  lemma {:induction false} TicksKeepPeer(s: SerialState, n: nat, speed: CgbSpeedMode)
    ensures Run(s, TickOps(n, speed)).peer == s.peer
    ensures LatchedIncoming(s, TickOps(n, speed)) == ByteIn(s.peer, s.stagedOutgoing)
  {
    hide SerialState.AfterTick, Edges, SerialExchange.TickOps;
    if n == 0 {
      assert TickOps(0, speed) == [];
    } else {
      TickOpsStep(n, speed);
      TicksKeepPeer(s, n - 1, speed);
      TickKeepsPeer(Run(s, TickOps(n - 1, speed)), speed);
    }
  }

  lemma TickKeepsPeer(s: SerialState, speed: CgbSpeedMode)
    ensures s.AfterTick(speed).state.peer == s.peer
  {
    hide InternalClockEdge;
  }

  /** Writing SB and SC: the byte written goes out, the peer's comes into SB, and one interrupt is queued. */
  lemma InternalExchange(s: SerialState, sb: u8, sc: u8, n: nat, speed: CgbSpeedMode)
    requires sc >= 0x80 && sc % 2 == 1
    ensures var p := TicksPerBit(s, sc, speed);
      var started := s.AfterSb(sb).AfterSc(sc);
      var now := Run(started, TickOps(n, speed));
      if n >= 8 * p - s.counter % p
      then
        && now.transfer == Idle && now.sb == ByteIn(s.peer, sb) && now.completed == s.completed + [sb]
        && AllInterrupts(started, TickOps(n, speed)) == [SerialInterrupt]
      else now.transfer.Requested? && now.completed == s.completed && AllInterrupts(started, TickOps(n, speed)) == []
  {
    hide *;
    var written := s.AfterSb(sb);
    SbWritten(s, sb, sc, speed);
    PeriodOfWrite(written, sc, speed);
    InternalTransferTime(written, sc, n, speed);
    TicksUndisturbed(written.AfterSc(sc), n, speed);
    ByteExchange(written.AfterSc(sc), TickOps(n, speed));
    TicksKeepPeer(written.AfterSc(sc), n, speed);
  }

  lemma SbWritten(s: SerialState, sb: u8, sc: u8, speed: CgbSpeedMode)
    ensures var w := s.AfterSb(sb);
      && w.sb == w.stagedOutgoing == sb && w.peer == s.peer && w.counter == s.counter && w.completed == s.completed
      && TicksPerBit(w, sc, speed) == TicksPerBit(s, sc, speed)
  {
  }

  /** Bit 7 clear: no transfer, whatever happens short of another SC write. */
  lemma {:induction false} NoTransfer(s: SerialState, sc: u8, ops: seq<Op>)
    requires sc < 0x80 && forall op :: op in ops ==> !op.WriteScOp?
    ensures var started := s.AfterSc(sc);
      && Run(started, ops).transfer == Idle && Run(started, ops).pendingPulses == 0
      && Edges(started, ops) == 0 && AllInterrupts(started, ops) == []
  {
    hide Apply, SerialState.AfterSc;
    PeriodOfWrite(s, sc, Normal);
    if ops != [] {
      var before, op := ops[..|ops| - 1], ops[|ops| - 1];
      NoTransfer(s, sc, before);
      IdleApply(Run(s.AfterSc(sc), before), op);
      assert op in ops;
    }
  }

  lemma IdleApply(s: SerialState, op: Op)
    requires s.transfer == Idle && s.pendingPulses == 0 && !op.WriteScOp?
    ensures var r := Apply(s, op);
      r.state.transfer == Idle && r.state.pendingPulses == 0 && r.telemetry == NO_TELEMETRY && r.interrupts == []
  {
    hide InternalClockEdge;
  }

  function PulseCount(ops: seq<Op>): nat {
    if ops == [] then 0 else PulseCount(ops[..|ops| - 1]) + if ops[|ops| - 1] == Pulse then 1 else 0
  }

  ghost predicate PulsesAndTicks(ops: seq<Op>) {
    forall op :: op in ops ==> op.Pulse? || op.TickOp?
  }

  /** An externally clocked transfer: so many shifts made, so many pulses still to be used. */
  ghost predicate PulsesUsed(now: SerialState, edges: nat, pulses: nat) {
    && edges <= Min(8, pulses)
    && (edges < 8 ==>
          now.ExternallyRequested() && now.transfer == Requested(edges) && now.pendingPulses == pulses - edges)
    && (edges == 8 ==> now.transfer == Idle && now.pendingPulses == 0)
  }

  lemma ExternalApply(now: SerialState, op: Op, edges: nat, pulses: nat)
    requires PulsesUsed(now, edges, pulses) && (op.TickOp? || (op.Pulse? && pulses < 0xFF))
    ensures var r := Apply(now, op);
      && r.telemetry.shiftEdges == (if op.TickOp? && edges < Min(8, pulses) then 1 else 0)
      && PulsesUsed(r.state, edges + r.telemetry.shiftEdges, pulses + if op.Pulse? then 1 else 0)
  {
    hide InternalClockEdge;
  }

  /** Bit 7 set and bit 0 clear: ticks alone never shift. Each of the first eight pulses gives exactly one shift, on the
      next tick that finds it first in line, and the eighth shift ends the transfer. */
  lemma {:induction false} ExternalTransfer(s: SerialState, sc: u8, ops: seq<Op>, speed: CgbSpeedMode)
    requires sc >= 0x80 && sc % 2 == 0 && PulsesAndTicks(ops) && PulseCount(ops) <= 0xFF
    ensures var started := s.AfterSc(sc);
      var now, edges, pulses := Run(started, ops), Edges(started, ops), PulseCount(ops);
      && edges <= 8 && edges <= pulses
      && (now.transfer == Idle <==> edges == 8)
      && Edges(started, ops + [TickOp(speed)]) == edges + (if edges < 8 && edges < pulses then 1 else 0)
      && PulsesUsed(now, edges, pulses)
  {
    hide *;
    var started := s.AfterSc(sc);
    PeriodOfWrite(s, sc, speed);
    if ops == [] {
      NothingYet(started);
    } else {
      var before, op := ops[..|ops| - 1], ops[|ops| - 1];
      PulseParts(ops);
      ExternalTransfer(s, sc, before, speed);
      RunStep(started, ops);
      ExternalApply(Run(started, before), op, Edges(started, before), PulseCount(before));
    }
    assert (ops + [TickOp(speed)])[..|ops|] == ops;
    RunStep(started, ops + [TickOp(speed)]);
    ExternalFacts(Run(started, ops), Edges(started, ops), PulseCount(ops));
    ExternalApply(Run(started, ops), TickOp(speed), Edges(started, ops), PulseCount(ops));
  }

  lemma NothingYet(started: SerialState)
    requires started.transfer == Requested(0) && started.clockMode == External && started.pendingPulses == 0
    ensures Run(started, []) == started && Edges(started, []) == 0 && PulseCount([]) == 0
    ensures PulsesUsed(started, 0, 0)
  {
  }

  lemma PulseParts(ops: seq<Op>)
    requires ops != [] && PulsesAndTicks(ops)
    ensures PulsesAndTicks(ops[..|ops| - 1]) && (ops[|ops| - 1].Pulse? || ops[|ops| - 1].TickOp?)
    ensures PulseCount(ops) == PulseCount(ops[..|ops| - 1]) + if ops[|ops| - 1].Pulse? then 1 else 0
  {
  }

  lemma ExternalFacts(now: SerialState, edges: nat, pulses: nat)
    requires PulsesUsed(now, edges, pulses)
    ensures edges <= 8 && edges <= pulses && (now.transfer == Idle <==> edges == 8)
    ensures edges < Min(8, pulses) <==> edges < 8 && edges < pulses
  {
  }

  lemma ShiftedFacts(s: SerialState)
    requires s.transfer.Requested?
    ensures var next, out := s.Shifted(), s.Latched().currentOutgoing;
      && next.counter == s.counter && next.peer == s.peer && next.transfer != s.transfer
      && next.completed == s.completed + (if s.CompletesByte() then [out] else [])
      && next.latestCompleted == (if s.CompletesByte() then Some(out) else s.latestCompleted)
  {
    var latched := s.Latched();
    var moved := latched.BitMoved();
    assert moved.completed == s.completed && moved.counter == s.counter && moved.peer == s.peer;
    assert moved.currentOutgoing == latched.currentOutgoing && moved.latestCompleted == s.latestCompleted;
    hide SerialState.BitMoved, SerialState.Latched;
  }

  /** What a tick reports: an active cycle, its clock, a wait, a shift and a completed byte, each when there was one. */
  lemma TickTelemetry(s: SerialState, speed: CgbSpeedMode)
    ensures var r, active := s.AfterTick(speed), s.transfer.Requested?;
      && r.telemetry.activeTCycles == (if active then 1 else 0)
      && r.telemetry.internalTicks == (if active && s.clockMode.Internal? then 1 else 0)
      && r.telemetry.externalTicks == (if active && s.clockMode.External? then 1 else 0)
      && r.telemetry.externalWaitTicks == (if active && s.clockMode.External? && s.pendingPulses == 0 then 1 else 0)
      && r.telemetry.externalPortTicks == 0
      && r.telemetry.shiftEdges == (if r.state.transfer == s.transfer then 0 else 1)
      && r.state.counter == (s.counter + 1) % 0x1_0000
    ensures TickOutput(s, s.AfterTick(speed))
  {
    hide InternalClockEdge, SerialState.Shifted;
    if s.Shifts(speed) {
      var counted := s.Counted();
      var spent := if s.clockMode.External? && s.pendingPulses != 0
                   then counted.(pendingPulses := s.pendingPulses - 1) else counted;
      ShiftedFacts(spent);
    }
  }

  /** The byte a tick completed, if any: reported, put out, latched for the printer, and interrupting. */
  ghost predicate TickOutput(s: SerialState, r: TickResult) {
    && r.telemetry.completedBytes <= 1 && r.state.peer == s.peer
    && r.interrupts == (if r.telemetry.completedBytes == 1 then [SerialInterrupt] else [])
    && r.state.latestCompleted.Some? == (r.telemetry.completedBytes == 1)
    && r.state.completed
       == s.completed + if r.state.latestCompleted.Some? then [r.state.latestCompleted.value] else []
  }

  // ----- An attached printer

  /** The printer after a number of steps, from the bytes that were completed on each. */
  function Heard<P>(device: PrinterDevice<P>, p: P, outputs: seq<Option<u8>>): P {
    if outputs == [] then p
    else
      var ticked := device.tick(Heard(device, p, outputs[..|outputs| - 1]));
      match outputs[|outputs| - 1]
      case None => ticked
      case Some(byte) => device.receive(ticked, byte)
  }

  function Bytes(outputs: seq<Option<u8>>): seq<u8> {
    if outputs == [] then []
    else
      Bytes(outputs[..|outputs| - 1])
      + match outputs[|outputs| - 1] case None => [] case Some(byte) => [byte]
  }

  /** Whole steps at one speed, with nothing else going on. */
  function Steps<P>(n: nat, speed: CgbSpeedMode): (ops: seq<MachineOp<P>>)
    ensures |ops| == n
  {
    seq(n, _ => Step(speed))
  }

  lemma PrinterStep<P>(device: PrinterDevice<P>, s: SerialState, p: P, speed: CgbSpeedMode)
    ensures var r, tick := s.AfterFullStep(device, Printer(p), speed), s.AfterTick(speed);
      var ticked := device.tick(p);
      var heard := match tick.state.latestCompleted case None => ticked case Some(byte) => device.receive(ticked, byte);
      && r.port == Printer(heard)
      && r.state == tick.state.(peer := StagedIncomingByte(device.staged(heard)))
      && r.telemetry.externalPortTicks == 1 + tick.telemetry.externalPortTicks && r.interrupts == tick.interrupts
  {
    hide SerialState.AfterTick;
  }

  /** A printer attached all the time ticks on every step, hears exactly the bytes the port completes, in order, and
      its staged byte is what the port takes in next. */
  lemma {:induction false} PrinterHears<P>(
    device: PrinterDevice<P>, s: SerialState, p: P, n: nat, speed: CgbSpeedMode) returns (outputs: seq<Option<u8>>)
    ensures var run := MachineRun(device, s, Printer(p), Steps(n, speed), true);
      && |outputs| == n
      && run.port == Printer(Heard(device, p, outputs))
      && run.state.completed == s.completed + Bytes(outputs)
      && (n > 0 ==> run.state.peer == StagedIncomingByte(device.staged(Heard(device, p, outputs))))
      && run.telemetry.externalPortTicks == n
  {
    hide *;
    if n == 0 {
      outputs := [];
      NoSteps(device, s, p, speed);
    } else {
      var earlier := PrinterHears(device, s, p, n - 1, speed);
      var before := MachineRun(device, s, Printer(p), Steps(n - 1, speed), true);
      OneMoreStep(device, s, p, n, speed);
      ChosenTickIsFullTick(before.state, device, before.port, speed);
      PrinterStep(device, before.state, before.port.printer, speed);
      TickTelemetry(before.state, speed);
      var out := before.state.AfterTick(speed).state.latestCompleted;
      OutputOf(before.state, before.state.AfterTick(speed));
      outputs := earlier + [out];
      OneMoreOutput(device, p, earlier, out);
    }
  }

  lemma NoSteps<P>(device: PrinterDevice<P>, s: SerialState, p: P, speed: CgbSpeedMode)
    ensures var run := MachineRun(device, s, Printer(p), Steps(0, speed), true);
      run.state == s && run.port == Printer(p) && run.telemetry.externalPortTicks == 0
    ensures Heard(device, p, []) == p && Bytes([]) == []
  {
  }

  lemma OneMoreStep<P>(device: PrinterDevice<P>, s: SerialState, p: P, n: pos, speed: CgbSpeedMode)
    ensures var before := MachineRun(device, s, Printer(p), Steps(n - 1, speed), true);
      var run, r := MachineRun(device, s, Printer(p), Steps(n, speed), true),
                    before.state.AfterChosenStep(device, before.port, speed);
      && run.state == r.state && run.port == r.port
      && run.telemetry.externalPortTicks == before.telemetry.externalPortTicks + r.telemetry.externalPortTicks
  {
    assert Steps<P>(n, speed)[..n - 1] == Steps(n - 1, speed);
    hide SerialState.AfterChosenStep, SerialState.AfterFullStep;
  }

  lemma OneMoreOutput<P>(device: PrinterDevice<P>, p: P, earlier: seq<Option<u8>>, out: Option<u8>)
    ensures Bytes(earlier + [out]) == Bytes(earlier) + match out case None => [] case Some(byte) => [byte]
    ensures var ticked := device.tick(Heard(device, p, earlier));
      Heard(device, p, earlier + [out])
      == match out case None => ticked case Some(byte) => device.receive(ticked, byte)
  {
    assert (earlier + [out])[..|earlier|] == earlier;
  }

  lemma OutputOf(s: SerialState, r: TickResult)
    requires TickOutput(s, r)
    ensures r.state.completed
         == s.completed + match r.state.latestCompleted case None => [] case Some(byte) => [byte]
  {
  }
}
