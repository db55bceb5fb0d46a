/** The DIV/TIMA timer: a falling-edge counter with a delayed, cancellable reload. */
module Timer {
  import opened Prelude
  import opened Hardware
  import opened Scheduler

  const RELOAD_DELAY: nat := 4

  datatype Overflow = NoOverflow | Pending(ticksUntilReload: nat)

  datatype Origin = AutonomousTick | MmioWrite {
    function Delay(): nat {
      match this
      case AutonomousTick => RELOAD_DELAY
      case MmioWrite => RELOAD_DELAY - 1
    }
  }

  predicate Enabled(tac: u8) {
    (tac / 4) % 2 == 1
  }

  /** Weight of the counter bit the two clock-select bits choose: bits 9, 3, 5 and 7. */
  function SelectedWeight(tac: u8): (w: pos)
    ensures CounterBit(w)
  {
    if tac % 4 == 0 then 512 else if tac % 4 == 1 then 8 else if tac % 4 == 2 then 32 else 128
  }

  predicate Signal(tac: u8, counter: u16) {
    Enabled(tac) && Bit(counter, SelectedWeight(tac))
  }

  predicate DivApuSignal(counter: u16, offset: u16, speed: CgbSpeedMode) {
    Bit((counter + offset) % 0x1_0000, speed.DivApuWeight())
  }

  datatype TickResult = TickResult(state: TimerState, edges: seq<DerivedEdge>, interrupts: seq<InterruptSource>)

  datatype TimerState = TimerState(
    counter: u16,
    tima: u8,
    tma: u8,
    tac: u8,
    previousSignal: bool,
    overflow: Overflow,
    reloaded: bool,
    apuOffset: u16)
  {
    predicate CurrentSignal() {
      Signal(tac, counter)
    }

    /** Counts one falling edge; a pending overflow swallows it. */
    function Incremented(origin: Origin): TimerState {
      if overflow.Pending? then this
      else if tima == 0xFF then this.(tima := 0, overflow := Pending(origin.Delay()))
      else this.(tima := tima + 1)
    }

    /** The effect of having had signal `was` before the counter or the control register changed. */
    function SignalChangedFrom(was: bool, origin: Origin): TimerState {
      var counted := if was && !CurrentSignal() then Incremented(origin) else this;
      counted.(previousSignal := CurrentSignal())
    }

    predicate ReloadsNow() {
      overflow.Pending? && overflow.ticksUntilReload <= 1
    }

    function PipelineAdvanced(): TimerState {
      if ReloadsNow() then this.(tima := tma, overflow := NoOverflow, reloaded := true)
      else if overflow.Pending? then this.(overflow := Pending(overflow.ticksUntilReload - 1), reloaded := false)
      else this.(reloaded := false)
    }

    function NextCounter(speed: CgbSpeedMode): u16 {
      (counter + speed.TimerIncrement()) % 0x1_0000
    }

    /** The counter step makes the selected timer bit fall. */
    predicate TimerFalls(speed: CgbSpeedMode) {
      Signal(tac, counter) && !Signal(tac, NextCounter(speed))
    }

    /** The counter step makes the APU divider bit fall. */
    predicate ApuFalls(speed: CgbSpeedMode) {
      DivApuSignal(counter, apuOffset, speed) && !DivApuSignal(NextCounter(speed), apuOffset, speed)
    }

    function CounterAdvanced(speed: CgbSpeedMode): TimerState {
      this.(counter := NextCounter(speed)).SignalChangedFrom(CurrentSignal(), AutonomousTick)
    }

    function AfterTick(speed: CgbSpeedMode): TickResult {
      TickResult(
        PipelineAdvanced().CounterAdvanced(speed),
        [DividerTick] + ((if TimerFalls(speed) then [TimerInputFallingEdge] else [])
                         + (if ApuFalls(speed) then [ApuFrameSequencerEdge] else [])),
        if ReloadsNow() then [TimerInterrupt] else [])
    }

    function AfterDividerReset(offset: u16): TimerState {
      this.(counter := 0, apuOffset := offset).SignalChangedFrom(CurrentSignal(), MmioWrite)
    }

    function AfterTac(value: u8): TimerState {
      this.(tac := value % 8).SignalChangedFrom(CurrentSignal(), MmioWrite)
    }

    function AfterTima(value: u8): TimerState {
      if reloaded then this else this.(tima := value, overflow := NoOverflow)
    }

    function AfterTma(value: u8): TimerState {
      this.(tma := value, tima := if reloaded then value else tima)
    }

    function AfterCorrection(tCycles: u16): TimerState {
      var moved := this.(counter := (counter + tCycles) % 0x1_0000);
      moved.(previousSignal := moved.CurrentSignal())
    }
  }

  const INITIAL := TimerState(0, 0, 0, 0, false, NoOverflow, false, 0)

  function StartupState(counter: u16, tima: u8, tma: u8, tac: u8): TimerState {
    TimerState(counter, tima, tma, tac % 8, Signal(tac % 8, counter), NoOverflow, false, 0)
  }

  lemma PipelineKeepsCounter(s: TimerState, speed: CgbSpeedMode)
    ensures s.PipelineAdvanced().TimerFalls(speed) == s.TimerFalls(speed)
    ensures s.PipelineAdvanced().ApuFalls(speed) == s.ApuFalls(speed)
    ensures s.(reloaded := false).PipelineAdvanced() == s.PipelineAdvanced()
  {
  }

  class TimerUnit {
    var systemCounter: u16
    var tima: u8
    var tma: u8
    var tac: u8
    var previousTimerSignal: bool
    var overflowState: Overflow
    var reloadedThisTCycle: bool
    var apuFsOffset: u16

    ghost function View(): TimerState
      reads this
    {
      TimerState(systemCounter, tima, tma, tac, previousTimerSignal, overflowState, reloadedThisTCycle, apuFsOffset)
    }

    constructor ()
      ensures View() == INITIAL
    {
      systemCounter, tima, tma, tac := 0, 0, 0, 0;
      previousTimerSignal, overflowState, reloadedThisTCycle, apuFsOffset := false, NoOverflow, false, 0;
    }

    method ReadDiv() returns (value: u8)
      ensures value == View().counter / 0x100
    {
      value := systemCounter / 0x100;
    }

    /** Reports whether the reset made the APU divider bit fall. */
    method ResetDivider(speed: CgbSpeedMode, stopInstruction: bool) returns (apuEdge: bool)
      modifies this
      ensures View() == old(View()).AfterDividerReset(if stopInstruction then 0 else 2)
      ensures apuEdge == DivApuSignal(old(systemCounter), old(apuFsOffset), speed)
    {
      var previousSignal := Signal(tac, systemCounter);
      var previousApuSignal := DivApuSignal(systemCounter, apuFsOffset, speed);
      systemCounter := 0;
      apuFsOffset := if stopInstruction then 0 else 2;
      ApplyTimerSignalChange(previousSignal, MmioWrite);
      apuEdge := previousApuSignal && !DivApuSignal(systemCounter, apuFsOffset, speed);
    }

    method WriteTima(value: u8)
      modifies this
      ensures View() == old(View()).AfterTima(value)
    {
      if reloadedThisTCycle {
        return;
      }
      tima := value;
      if overflowState.Pending? {
        overflowState := NoOverflow;
      }
    }

    method WriteTma(value: u8)
      modifies this
      ensures View() == old(View()).AfterTma(value)
    {
      tma := value;
      if reloadedThisTCycle {
        tima := value;
      }
    }

    method WriteTac(value: u8)
      modifies this
      ensures View() == old(View()).AfterTac(value)
    {
      var previousSignal := Signal(tac, systemCounter);
      tac := value % 8;
      ApplyTimerSignalChange(previousSignal, MmioWrite);
    }

    method ApplyStartupState(counter: u16, initialTima: u8, initialTma: u8, initialTac: u8)
      modifies this
      ensures View() == StartupState(counter, initialTima, initialTma, initialTac)
    {
      systemCounter, tima, tma, tac := counter, initialTima, initialTma, initialTac % 8;
      previousTimerSignal := Signal(tac, systemCounter);
      overflowState, reloadedThisTCycle, apuFsOffset := NoOverflow, false, 0;
    }

    method ApplyBootHandoffCounterCorrection(tCycles: u16)
      modifies this
      ensures View() == old(View()).AfterCorrection(tCycles)
    {
      systemCounter := (systemCounter + tCycles) % 0x1_0000;
      previousTimerSignal := Signal(tac, systemCounter);
    }

    method TickTCycleForSpeed(context: CycleContext, speed: CgbSpeedMode)
      requires context.Valid() && this !in context.Repr()
      requires |context.Edges()| + 3 <= MAX_RECORDS_PER_CYCLE && |context.Interrupts()| < MAX_RECORDS_PER_CYCLE
      modifies this, context.Repr()
      ensures context.Valid()
      ensures View() == old(View()).AfterTick(speed).state
      ensures context.Edges() == old(context.Edges()) + old(View()).AfterTick(speed).edges
      ensures context.Interrupts() == old(context.Interrupts()) + old(View()).AfterTick(speed).interrupts
    {
      hide TimerState.CounterAdvanced, TimerState.PipelineAdvanced, TimerState.TimerFalls, TimerState.ApuFalls;
      hide CycleContext.Edges, CycleContext.Interrupts;
      PipelineKeepsCounter(View(), speed);
      reloadedThisTCycle := false;
      AdvanceOverflowPipeline(context);
      var timerFell, apuFell := AdvanceCounter(speed);
      context.PushDerivedEdge(DividerTick);
      PublishFallingEdges(context, timerFell, apuFell);
    }

    method AdvanceCounter(speed: CgbSpeedMode) returns (timerFell: bool, apuFell: bool)
      modifies this
      ensures View() == old(View()).CounterAdvanced(speed)
      ensures timerFell == old(View()).TimerFalls(speed) && apuFell == old(View()).ApuFalls(speed)
    {
      hide Bit, Signal, DivApuSignal;
      var previousSignal := Signal(tac, systemCounter);
      var previousApuSignal := DivApuSignal(systemCounter, apuFsOffset, speed);
      systemCounter := (systemCounter + speed.TimerIncrement()) % 0x1_0000;
      var currentSignal := Signal(tac, systemCounter);
      ProcessTimerSignalEdge(previousSignal, currentSignal, AutonomousTick);
      previousTimerSignal := currentSignal;
      timerFell := previousSignal && !currentSignal;
      apuFell := previousApuSignal && !DivApuSignal(systemCounter, apuFsOffset, speed);
    }

    method PublishFallingEdges(context: CycleContext, timerFell: bool, apuFell: bool)
      requires context.Valid() && |context.Edges()| + 2 <= MAX_RECORDS_PER_CYCLE
      modifies context.Repr()
      ensures context.Valid() && context.Interrupts() == old(context.Interrupts())
      ensures context.Edges()
           == old(context.Edges()) + ((if timerFell then [TimerInputFallingEdge] else [])
                                      + (if apuFell then [ApuFrameSequencerEdge] else []))
    {
      if timerFell {
        context.PushDerivedEdge(TimerInputFallingEdge);
      }
      if apuFell {
        context.PushDerivedEdge(ApuFrameSequencerEdge);
      }
    }

    method AdvanceOverflowPipeline(context: CycleContext)
      requires context.Valid() && this !in context.Repr()
      requires |context.Interrupts()| < MAX_RECORDS_PER_CYCLE && !reloadedThisTCycle
      modifies this, context.Repr()
      ensures context.Valid() && context.Edges() == old(context.Edges())
      ensures View() == old(View()).PipelineAdvanced()
      ensures context.Interrupts()
           == old(context.Interrupts()) + (if old(View()).ReloadsNow() then [TimerInterrupt] else [])
    {
      match overflowState {
        case NoOverflow =>
        case Pending(ticks) =>
          if ticks > 1 {
            overflowState := Pending(ticks - 1);
          } else {
            tima := tma;
            overflowState := NoOverflow;
            reloadedThisTCycle := true;
            context.QueueInterruptRequest(TimerInterrupt);
          }
      }
    }

    method ApplyTimerSignalChange(previousSignal: bool, origin: Origin)
      modifies this
      ensures View() == old(View()).SignalChangedFrom(previousSignal, origin)
    {
      var currentSignal := Signal(tac, systemCounter);
      ProcessTimerSignalEdge(previousSignal, currentSignal, origin);
      previousTimerSignal := currentSignal;
    }

    method ProcessTimerSignalEdge(previousSignal: bool, currentSignal: bool, origin: Origin)
      modifies this
      ensures View() == if previousSignal && !currentSignal then old(View()).Incremented(origin) else old(View())
    {
      if previousSignal && !currentSignal {
        IncrementTimaOnFallingEdge(origin);
      }
    }

    method IncrementTimaOnFallingEdge(origin: Origin)
      modifies this
      ensures View() == old(View()).Incremented(origin)
    {
      if overflowState.Pending? {
        return;
      }
      var overflowed := tima + 1 == 0x100;
      tima := (tima + 1) % 0x100;
      if overflowed {
        overflowState := Pending(origin.Delay());
      }
    }
  }
}
