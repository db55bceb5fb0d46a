/** The serial port: a bit-level shift register with an internal clock, external pulses and two fast-path ticks. */
module Serial {
  import opened Prelude
  import opened Hardware
  import opened Scheduler

  datatype ClockMode = External | Internal

  datatype Peer = Disconnected | Loopback | StagedIncomingByte(byte: u8)

  datatype Transfer = Idle | Requested(bitsShifted: nat)

  datatype Telemetry = Telemetry(
    activeTCycles: nat,
    internalTicks: nat,
    externalTicks: nat,
    externalWaitTicks: nat,
    shiftEdges: nat,
    completedBytes: nat,
    externalPortTicks: nat)
  {
    function Plus(other: Telemetry): Telemetry {
      Telemetry(activeTCycles + other.activeTCycles, internalTicks + other.internalTicks,
                externalTicks + other.externalTicks, externalWaitTicks + other.externalWaitTicks,
                shiftEdges + other.shiftEdges, completedBytes + other.completedBytes,
                externalPortTicks + other.externalPortTicks)
    }
  }

  const NO_TELEMETRY := Telemetry(0, 0, 0, 0, 0, 0, 0)
  const PORT_TICK := Telemetry(0, 0, 0, 0, 0, 0, 1)

  /** The external port as the machine step sees it: only a printer ticks, hears bytes and stages its own. */
  datatype Port<P> = Unattached | Passive | Printer(printer: P)

  /** What a printer does; its inside is left open. */
  datatype PrinterDevice<!P> = PrinterDevice(tick: P -> P, receive: (P, u8) -> P, staged: P -> u8)

  /** Weight of the counter bit whose falling edge shifts: bits 8, 7, 3 and 2. */
  function EdgeWeight(speed: CgbSpeedMode, highSpeedClock: bool): (w: pos)
    ensures CounterBit(w)
  {
    match (speed, highSpeedClock)
    case (Normal, false) => 256
    case (Double, false) => 128
    case (Normal, true) => 8
    case (Double, true) => 4
  }

  predicate InternalClockEdge(previous: u16, current: u16, speed: CgbSpeedMode, highSpeedClock: bool) {
    Bit(previous, EdgeWeight(speed, highSpeedClock)) && !Bit(current, EdgeWeight(speed, highSpeedClock))
  }

  function StagedByte(peer: Peer): u8 {
    if peer.StagedIncomingByte? then peer.byte else 0
  }

  /** The top bit of a shift register. */
  function TopBit(register: u8): (b: u8)
    ensures b <= 1
  {
    register / 0x80
  }

  function ShiftedLeft(register: u8): u8 {
    (2 * register) % 0x100
  }

  datatype TickResult = TickResult(state: SerialState, telemetry: Telemetry, interrupts: seq<InterruptSource>)

  datatype StepResult<P> =
    StepResult(state: SerialState, port: Port<P>, telemetry: Telemetry, interrupts: seq<InterruptSource>)

  datatype SerialState = SerialState(
    model: ConsoleModel,
    operatingMode: OperatingMode,
    sb: u8,
    clockMode: ClockMode,
    highSpeedFlag: bool,
    transfer: Transfer,
    peer: Peer,
    counter: u16,
    pendingPulses: u8,
    stagedOutgoing: u8,
    currentOutgoing: u8,
    outgoingShift: u8,
    incoming: u8,
    latestCompleted: Option<u8>,
    completed: seq<u8>)
  {
    predicate HighSpeedEnabled() {
      model.IsCgbFamily() && operatingMode.EnablesCgbHighSpeedSerial()
    }

    predicate HighSpeedClock() {
      HighSpeedEnabled() && highSpeedFlag
    }

    predicate ExternallyRequested() {
      clockMode.External? && transfer.Requested?
    }

    predicate RequiresFullTick() {
      transfer.Requested? || pendingPulses != 0
    }

    predicate ExternalWait() {
      ExternallyRequested() && pendingPulses == 0
    }

    function AfterSb(value: u8): SerialState {
      this.(sb := value, stagedOutgoing := value)
    }

    function AfterSc(value: u8): SerialState {
      this.(clockMode := if value % 2 == 1 then Internal else External,
            highSpeedFlag := HighSpeedEnabled() && (value / 2) % 2 == 1,
            transfer := if value >= 0x80 then Requested(0) else Idle,
            pendingPulses := 0, currentOutgoing := 0, outgoingShift := 0, incoming := 0, latestCompleted := None)
    }

    function AfterPulse(): SerialState {
      if ExternallyRequested() && pendingPulses < 0xFF then this.(pendingPulses := pendingPulses + 1) else this
    }

    function AfterMode(mode: OperatingMode): SerialState {
      var moved := this.(operatingMode := mode);
      if moved.HighSpeedEnabled() then moved else moved.(highSpeedFlag := false)
    }

    /** The registers with which a shift works: the first shift of a byte latches what is staged. */
    function Latched(): SerialState {
      if transfer == Requested(0)
      then this.(currentOutgoing := stagedOutgoing, outgoingShift := stagedOutgoing, incoming := StagedByte(peer))
      else this
    }

    function IncomingBit(): u8 {
      match peer
      case Disconnected => 1
      case Loopback => TopBit(outgoingShift)
      case StagedIncomingByte(_) => TopBit(incoming)
    }

    /** Both shift registers and SB move up one bit. */
    function BitMoved(): SerialState {
      this.(outgoingShift := ShiftedLeft(outgoingShift),
            incoming := if peer.StagedIncomingByte? then ShiftedLeft(incoming) else incoming,
            sb := ShiftedLeft(sb) + IncomingBit())
    }

    function ByteFinished(): SerialState {
      this.(transfer := Idle, pendingPulses := 0, completed := completed + [currentOutgoing],
            latestCompleted := Some(currentOutgoing), currentOutgoing := 0, outgoingShift := 0, incoming := 0)
    }

    /** One shift edge of a requested transfer. */
    function Shifted(): SerialState
      requires transfer.Requested?
    {
      var moved := Latched().BitMoved();
      if CompletesByte() then moved.ByteFinished() else moved.(transfer := Requested(transfer.bitsShifted + 1))
    }

    predicate CompletesByte() {
      transfer == Requested(7)
    }

    function Counted(): SerialState {
      this.(latestCompleted := None, counter := (counter + 1) % 0x1_0000)
    }

    predicate InternalEdge(speed: CgbSpeedMode) {
      InternalClockEdge(counter, (counter + 1) % 0x1_0000, speed, HighSpeedClock())
    }

    /** Whether the tick shifts: the internal clock falls, or an external pulse is waiting. */
    predicate Shifts(speed: CgbSpeedMode) {
      transfer.Requested? && if clockMode.Internal? then InternalEdge(speed) else pendingPulses != 0
    }

    function AfterTick(speed: CgbSpeedMode): TickResult {
      var counted := Counted();
      if transfer.Idle? then TickResult(counted, NO_TELEMETRY, [])
      else
        var spent := if clockMode.External? && pendingPulses != 0
                     then counted.(pendingPulses := pendingPulses - 1) else counted;
        var shifts, completes := Shifts(speed), Shifts(speed) && CompletesByte();
        TickResult(
          if shifts then spent.Shifted() else spent,
          Telemetry(1, if clockMode.Internal? then 1 else 0, if clockMode.External? then 1 else 0,
                    if clockMode.External? && !shifts then 1 else 0,
                    if shifts then 1 else 0, if completes then 1 else 0, 0),
          if completes then [SerialInterrupt] else [])
    }

    function AfterIdleTick(): TickResult {
      TickResult(Counted(), NO_TELEMETRY, [])
    }

    function AfterExternalWaitTick(): TickResult {
      TickResult(Counted(), Telemetry(1, 0, 1, 1, 0, 0, 0), [])
    }

    /** The machine step with the full tick: an attached printer ticks first, hears a completed byte and stages the
        byte that the serial port takes in next. */
    function AfterFullStep<P>(device: PrinterDevice<P>, port: Port<P>, speed: CgbSpeedMode): StepResult<P> {
      var r := AfterTick(speed);
      match port
      case Printer(printer) =>
        var ticked := device.tick(printer);
        var heard :=
          if r.state.latestCompleted.Some? then device.receive(ticked, r.state.latestCompleted.value) else ticked;
        StepResult(r.state.(peer := StagedIncomingByte(device.staged(heard))), Printer(heard),
                   PORT_TICK.Plus(r.telemetry), r.interrupts)
      case _ => StepResult(r.state, port, r.telemetry, r.interrupts)
    }

    /** The machine step's choice among the three ticks. */
    function AfterChosenStep<P>(device: PrinterDevice<P>, port: Port<P>, speed: CgbSpeedMode): StepResult<P> {
      if port.Unattached? && ExternalWait() then
        var r := AfterExternalWaitTick();
        StepResult(r.state, port, r.telemetry, r.interrupts)
      else if RequiresFullTick() || port.Printer? then AfterFullStep(device, port, speed)
      else
        var r := AfterIdleTick();
        StepResult(r.state, port, r.telemetry, r.interrupts)
    }
  }

  function Initial(model: ConsoleModel, mode: OperatingMode): SerialState {
    SerialState(model, mode, 0, External, false, Idle, Disconnected, 0, 0, 0, 0, 0, 0, None, [])
  }

  class SerialPort {
    const consoleModel: ConsoleModel
    var operatingMode: OperatingMode
    var sb: u8
    var clockMode: ClockMode
    var cgbHighSpeedClock: bool
    var transferState: Transfer
    var peer: Peer
    var clockCounter: u16
    var externalClockPulsesPending: u8
    var stagedOutgoingByte: u8
    var currentOutgoingByte: u8
    var currentOutgoingShiftByte: u8
    var currentIncomingByte: u8
    var latestCompletedOutputByte: Option<u8>
    var completedOutputBytes: seq<u8>

    ghost function View(): SerialState
      reads this
    {
      SerialState(consoleModel, operatingMode, sb, clockMode, cgbHighSpeedClock, transferState, peer, clockCounter,
                  externalClockPulsesPending, stagedOutgoingByte, currentOutgoingByte, currentOutgoingShiftByte,
                  currentIncomingByte, latestCompletedOutputByte, completedOutputBytes)
    }

    constructor (model: ConsoleModel, mode: OperatingMode)
      ensures View() == Initial(model, mode)
    {
      consoleModel, operatingMode, sb, clockMode, cgbHighSpeedClock := model, mode, 0, External, false;
      transferState, peer, clockCounter, externalClockPulsesPending := Idle, Disconnected, 0, 0;
      stagedOutgoingByte, currentOutgoingByte, currentOutgoingShiftByte, currentIncomingByte := 0, 0, 0, 0;
      latestCompletedOutputByte, completedOutputBytes := None, [];
    }

    predicate HighSpeedSerialEnabled()
      reads this
    {
      consoleModel.IsCgbFamily() && operatingMode.EnablesCgbHighSpeedSerial()
    }

    method WriteSb(value: u8)
      modifies this
      ensures View() == old(View()).AfterSb(value)
    {
      sb := value;
      stagedOutgoingByte := value;
    }

    method WriteSc(value: u8)
      modifies this
      ensures View() == old(View()).AfterSc(value)
    {
      clockMode := if value % 2 == 1 then Internal else External;
      cgbHighSpeedClock := HighSpeedSerialEnabled() && (value / 2) % 2 == 1;
      transferState := if value >= 0x80 then Requested(0) else Idle;
      externalClockPulsesPending := 0;
      ClearShiftRegisters();
      latestCompletedOutputByte := None;
    }

    method SetPeer(newPeer: Peer)
      modifies this
      ensures View() == old(View()).(peer := newPeer)
    {
      peer := newPeer;
    }

    method ApplyOperatingModeState(mode: OperatingMode)
      modifies this
      ensures View() == old(View()).AfterMode(mode)
    {
      operatingMode := mode;
      if !HighSpeedSerialEnabled() {
        cgbHighSpeedClock := false;
      }
    }

    method QueueExternalClockPulse() returns (queued: bool)
      modifies this
      ensures View() == old(View()).AfterPulse()
      ensures queued == (View() != old(View()))
    {
      if !(clockMode.External? && transferState.Requested?) {
        return false;
      }
      var previousPending := externalClockPulsesPending;
      externalClockPulsesPending := Min(externalClockPulsesPending + 1, 0xFF);
      queued := externalClockPulsesPending != previousPending;
    }

    method TakeCompletedOutputBytes() returns (bytes: seq<u8>)
      modifies this
      ensures bytes == old(completedOutputBytes) && View() == old(View()).(completed := [])
    {
      bytes := completedOutputBytes;
      completedOutputBytes := [];
    }

    method TickIdleTCycle()
      modifies this
      ensures View() == old(View()).AfterIdleTick().state
    {
      latestCompletedOutputByte := None;
      clockCounter := (clockCounter + 1) % 0x1_0000;
    }

    method TickExternalWaitTCycle() returns (telemetry: Telemetry)
      modifies this
      ensures View() == old(View()).AfterExternalWaitTick().state
      ensures telemetry == old(View()).AfterExternalWaitTick().telemetry
    {
      latestCompletedOutputByte := None;
      clockCounter := (clockCounter + 1) % 0x1_0000;
      telemetry := NO_TELEMETRY.(activeTCycles := 1, externalTicks := 1, externalWaitTicks := 1);
    }

    method TickTCycleForSpeed(context: CycleContext, speed: CgbSpeedMode) returns (telemetry: Telemetry)
      requires context.Valid() && this !in context.Repr() && |context.Interrupts()| < MAX_RECORDS_PER_CYCLE
      modifies this, context.Repr()
      ensures context.Valid() && context.Edges() == old(context.Edges())
      ensures View() == old(View()).AfterTick(speed).state
      ensures telemetry == old(View()).AfterTick(speed).telemetry
      ensures context.Interrupts() == old(context.Interrupts()) + old(View()).AfterTick(speed).interrupts
    {
      hide InternalClockEdge, SerialState.Shifted, CycleContext.Edges, CycleContext.Interrupts;
      latestCompletedOutputByte := None;
      var previousClockCounter := clockCounter;
      clockCounter := (clockCounter + 1) % 0x1_0000;
      if transferState.Idle? {
        return NO_TELEMETRY;
      }

      telemetry := NO_TELEMETRY.(activeTCycles := 1);
      var shifts;
      match clockMode {
        case Internal =>
          telemetry := telemetry.(internalTicks := 1);
          shifts := InternalClockEdge(previousClockCounter, clockCounter, speed,
                                      HighSpeedSerialEnabled() && cgbHighSpeedClock);
        case External =>
          telemetry := telemetry.(externalTicks := 1);
          shifts := externalClockPulsesPending != 0;
          if shifts {
            externalClockPulsesPending := externalClockPulsesPending - 1;
          } else {
            telemetry := telemetry.(externalWaitTicks := 1);
          }
      }
      if shifts {
        telemetry := telemetry.(shiftEdges := 1);
        var completed := ShiftOneBit(context);
        if completed {
          telemetry := telemetry.(completedBytes := 1);
        }
      }
    }

    method ShiftOneBit(context: CycleContext) returns (completed: bool)
      requires context.Valid() && this !in context.Repr() && |context.Interrupts()| < MAX_RECORDS_PER_CYCLE
      requires transferState.Requested?
      modifies this, context.Repr()
      ensures context.Valid() && context.Edges() == old(context.Edges())
      ensures View() == old(View()).Shifted()
      ensures completed == old(View()).CompletesByte()
      ensures context.Interrupts() == old(context.Interrupts()) + (if completed then [SerialInterrupt] else [])
    {
      hide SerialState.BitMoved, SerialState.ByteFinished, SerialState.Latched;
      hide CycleContext.Edges, CycleContext.Interrupts;
      var bitsShifted := transferState.bitsShifted;
      LatchStagedByte();
      MoveOneBit();
      bitsShifted := bitsShifted + 1;
      completed := bitsShifted == 8;
      if completed {
        FinishByte();
        context.QueueInterruptRequest(SerialInterrupt);
      } else {
        transferState := Requested(bitsShifted);
      }
    }

    method LatchStagedByte()
      requires transferState.Requested?
      modifies `currentOutgoingByte, `currentOutgoingShiftByte, `currentIncomingByte
      ensures View() == old(View()).Latched()
    {
      if transferState.bitsShifted == 0 {
        currentOutgoingByte := stagedOutgoingByte;
        currentOutgoingShiftByte := stagedOutgoingByte;
        currentIncomingByte := StagedByte(peer);
      }
    }

    method MoveOneBit()
      modifies `sb, `currentOutgoingShiftByte, `currentIncomingByte
      ensures View() == old(View()).BitMoved()
    {
      var outgoingBit := TopBit(currentOutgoingShiftByte);
      currentOutgoingShiftByte := ShiftedLeft(currentOutgoingShiftByte);
      var incomingBit;
      match peer {
        case Disconnected => incomingBit := 1;
        case Loopback => incomingBit := outgoingBit;
        case StagedIncomingByte(_) =>
          incomingBit := TopBit(currentIncomingByte);
          currentIncomingByte := ShiftedLeft(currentIncomingByte);
      }
      sb := ShiftedLeft(sb) + incomingBit;
    }

    method FinishByte()
      modifies this
      ensures View() == old(View()).ByteFinished()
    {
      transferState := Idle;
      externalClockPulsesPending := 0;
      completedOutputBytes := completedOutputBytes + [currentOutgoingByte];
      latestCompletedOutputByte := Some(currentOutgoingByte);
      ClearShiftRegisters();
    }

    method ClearShiftRegisters()
      modifies `currentOutgoingByte, `currentOutgoingShiftByte, `currentIncomingByte
      ensures currentOutgoingByte == currentOutgoingShiftByte == currentIncomingByte == 0
    {
      currentOutgoingByte := 0;
      currentOutgoingShiftByte := 0;
      currentIncomingByte := 0;
    }

    /** The machine step's dispatch: the cheap ticks where its predicates allow them. */
    method StepSerial<P>(device: PrinterDevice<P>, port: Port<P>, context: CycleContext, speed: CgbSpeedMode)
      returns (next: Port<P>, telemetry: Telemetry)
      requires context.Valid() && this !in context.Repr() && |context.Interrupts()| < MAX_RECORDS_PER_CYCLE
      modifies this, context.Repr()
      ensures context.Valid() && context.Edges() == old(context.Edges())
      ensures var chosen := old(View()).AfterChosenStep(device, port, speed);
        && View() == chosen.state && next == chosen.port && telemetry == chosen.telemetry
        && context.Interrupts() == old(context.Interrupts()) + chosen.interrupts
    {
      hide SerialState.AfterTick;
      var waiting := clockMode.External? && transferState.Requested? && externalClockPulsesPending == 0;
      next := port;
      if port.Unattached? && waiting {
        telemetry := TickExternalWaitTCycle();
      } else if transferState.Requested? || externalClockPulsesPending != 0 || port.Printer? {
        telemetry := NO_TELEMETRY;
        if next.Printer? {
          next := Printer(device.tick(next.printer));
          telemetry := PORT_TICK;
        }
        var serialTelemetry := TickTCycleForSpeed(context, speed);
        telemetry := telemetry.Plus(serialTelemetry);
        if next.Printer? && latestCompletedOutputByte.Some? {
          next := Printer(device.receive(next.printer, latestCompletedOutputByte.value));
        }
        if next.Printer? {
          SetPeer(StagedIncomingByte(device.staged(next.printer)));
        }
      } else {
        TickIdleTCycle();
        telemetry := NO_TELEMETRY;
      }
    }
  }
}
