/** Under any interleaving of ticks and register writes, every TIMA overflow interrupts once or is cancelled once. */
module TimerConservation {
  import opened Prelude
  import opened Hardware
  import opened Scheduler
  import opened Timer

  datatype Op =
    | TickOp(speed: CgbSpeedMode)
    | WriteDiv
    | StopReset
    | WriteTac(value: u8)
    | WriteTima(value: u8)
    | WriteTma(value: u8)
    | BootCorrection(tCycles: u16)

  function Apply(s: TimerState, op: Op): TimerState {
    match op
    case TickOp(speed) => s.AfterTick(speed).state
    case WriteDiv => s.AfterDividerReset(2)
    case StopReset => s.AfterDividerReset(0)
    case WriteTac(value) => s.AfterTac(value)
    case WriteTima(value) => s.AfterTima(value)
    case WriteTma(value) => s.AfterTma(value)
    case BootCorrection(tCycles) => s.AfterCorrection(tCycles)
  }

  function Run(s: TimerState, ops: seq<Op>): TimerState {
    if ops == [] then s else Apply(Run(s, ops[..|ops| - 1]), ops[|ops| - 1])
  }

  /** Interrupt requests queued by one operation. */
  function Interrupts(s: TimerState, op: Op): nat {
    if op.TickOp? then |s.AfterTick(op.speed).interrupts| else 0
  }

  /** The operation wrapped TIMA: it leaves a reload that is still a full delay away. */
  predicate Overflows(s: TimerState, op: Op) {
    if op.TickOp? then Apply(s, op).overflow == Pending(4)
    else s.overflow.NoOverflow? && Apply(s, op).overflow == Pending(3)
  }

  /** The operation is a TIMA write that drops a pending reload. */
  predicate Cancels(s: TimerState, op: Op) {
    op.WriteTima? && s.overflow.Pending? && Apply(s, op).overflow.NoOverflow?
  }

  function Count(b: bool): nat { if b then 1 else 0 }

  function InterruptTotal(s: TimerState, ops: seq<Op>): nat {
    if ops == [] then 0
    else InterruptTotal(s, ops[..|ops| - 1]) + Interrupts(Run(s, ops[..|ops| - 1]), ops[|ops| - 1])
  }

  function OverflowTotal(s: TimerState, ops: seq<Op>): nat {
    if ops == [] then 0
    else OverflowTotal(s, ops[..|ops| - 1]) + Count(Overflows(Run(s, ops[..|ops| - 1]), ops[|ops| - 1]))
  }

  function CancelTotal(s: TimerState, ops: seq<Op>): nat {
    if ops == [] then 0
    else CancelTotal(s, ops[..|ops| - 1]) + Count(Cancels(Run(s, ops[..|ops| - 1]), ops[|ops| - 1]))
  }

  /** The latched signal is the current one, and a pending reload is one to four ticks away. */
  ghost predicate Inv(s: TimerState) {
    && s.tac < 8
    && s.previousSignal == s.CurrentSignal()
    && (s.overflow.Pending? ==> 1 <= s.overflow.ticksUntilReload <= RELOAD_DELAY)
  }

  lemma StartsInv(counter: u16, tima: u8, tma: u8, tac: u8)
    ensures Inv(INITIAL) && Inv(StartupState(counter, tima, tma, tac))
    ensures INITIAL.overflow.NoOverflow? && StartupState(counter, tima, tma, tac).overflow.NoOverflow?
  {
  }

  lemma SignalChangeEffect(s: TimerState, was: bool, origin: Origin)
    ensures var next := s.SignalChangedFrom(was, origin);
      && next.previousSignal == next.CurrentSignal() && next.tac == s.tac && next.counter == s.counter
      && (next.overflow == s.overflow || (s.overflow.NoOverflow? && next.overflow == Pending(origin.Delay())))
      && next.reloaded == s.reloaded && next.tma == s.tma
  {
    hide Signal;
  }

  /** What one operation does to the reload pipeline: the whole account of a step. */
  lemma ApplyBalance(s: TimerState, op: Op)
    requires Inv(s)
    ensures Inv(Apply(s, op))
    ensures Count(s.overflow.Pending?) + Count(Overflows(s, op))
         == Interrupts(s, op) + Count(Cancels(s, op)) + Count(Apply(s, op).overflow.Pending?)
  {
    hide Signal, TimerState.SignalChangedFrom;
    match op {
      case TickOp(speed) =>
        var ready := s.PipelineAdvanced();
        SignalChangeEffect(ready.(counter := ready.NextCounter(speed)), ready.CurrentSignal(), AutonomousTick);
      case WriteDiv => SignalChangeEffect(s.(counter := 0, apuOffset := 2), s.CurrentSignal(), MmioWrite);
      case StopReset => SignalChangeEffect(s.(counter := 0, apuOffset := 0), s.CurrentSignal(), MmioWrite);
      case WriteTac(value) => SignalChangeEffect(s.(tac := value % 8), s.CurrentSignal(), MmioWrite);
      case _ =>
    }
  }

  /** The operation makes the timer input fall: a tick by counting, a divider reset or a TAC write by a glitch. */
  predicate InputFalls(s: TimerState, op: Op) {
    match op
    case TickOp(speed) => s.TimerFalls(speed)
    case WriteDiv => s.CurrentSignal()
    case StopReset => s.CurrentSignal()
    case WriteTac(value) => s.CurrentSignal() && !Signal(value % 8, s.counter)
    case _ => false
  }

  /** TIMA as the operation finds it: a tick reloads first. */
  function TimaAtEdge(s: TimerState, op: Op): u8 {
    if op.TickOp? && s.ReloadsNow() then s.tma else s.tima
  }

  /** An overflow is a falling input that finds TIMA at 0xFF and no reload pending; it leaves TIMA at zero. */
  lemma OverflowIsWrap(s: TimerState, op: Op)
    requires Inv(s)
    ensures Overflows(s, op)
       <==> InputFalls(s, op) && TimaAtEdge(s, op) == 0xFF && (s.overflow.NoOverflow? || (op.TickOp? && s.ReloadsNow()))
    ensures Overflows(s, op) ==> Apply(s, op).tima == 0
  {
    ResetClearsSignal(s.tac);
    hide Signal;
  }

  lemma ResetClearsSignal(tac: u8)
    ensures !Signal(tac, 0)
  {
    DivUnique(0, SelectedWeight(tac), 0, 0);
  }

  /** TIMA overflows = interrupts + cancelled overflows + the one still pending, over every run. */
  lemma {:induction false} OverflowsAreConserved(s: TimerState, ops: seq<Op>)
    requires Inv(s)
    ensures Inv(Run(s, ops))
    ensures Count(s.overflow.Pending?) + OverflowTotal(s, ops)
         == InterruptTotal(s, ops) + CancelTotal(s, ops) + Count(Run(s, ops).overflow.Pending?)
  {
    if ops != [] {
      var before := ops[..|ops| - 1];
      OverflowsAreConserved(s, before);
      hide Inv, Apply, Overflows, Cancels, Interrupts;
      ApplyBalance(Run(s, before), ops[|ops| - 1]);
    }
  }

  /** The conservation law from power-on or from any startup state, where nothing is pending. */
  lemma ConservedFromStart(counter: u16, tima: u8, tma: u8, tac: u8, ops: seq<Op>)
    ensures var s := StartupState(counter, tima, tma, tac);
      && OverflowTotal(s, ops) == InterruptTotal(s, ops) + CancelTotal(s, ops) + Count(Run(s, ops).overflow.Pending?)
      && Run(s, ops).previousSignal == Run(s, ops).CurrentSignal()
  {
    StartsInv(counter, tima, tma, tac);
    OverflowsAreConserved(StartupState(counter, tima, tma, tac), ops);
    hide Run, OverflowTotal, InterruptTotal, CancelTotal;
  }

  function TickCount(ops: seq<Op>): nat {
    if ops == [] then 0 else TickCount(ops[..|ops| - 1]) + Count(ops[|ops| - 1].TickOp?)
  }

  /** No TIMA write takes effect in the run; writes in the reload cycle itself are ignored anyway. */
  ghost predicate NoCancel(s: TimerState, ops: seq<Op>) {
    ops == []
    || (NoCancel(s, ops[..|ops| - 1]) && !Cancels(Run(s, ops[..|ops| - 1]), ops[|ops| - 1]))
  }

  /** While a reload is pending, nothing but a cancelling TIMA write touches its countdown. */
  lemma PendingStep(s: TimerState, op: Op)
    requires Inv(s) && s.overflow.Pending? && !Cancels(s, op)
    ensures !op.TickOp? ==> Apply(s, op).overflow == s.overflow
    ensures op.TickOp? && s.overflow.ticksUntilReload > 1 ==>
      Apply(s, op).overflow == Pending(s.overflow.ticksUntilReload - 1) && Interrupts(s, op) == 0
    ensures op.TickOp? && s.overflow.ticksUntilReload == 1 ==> Interrupts(s, op) == 1
  {
    hide Signal, TimerState.SignalChangedFrom;
    match op {
      case TickOp(speed) =>
        var ready := s.PipelineAdvanced();
        SignalChangeEffect(ready.(counter := ready.NextCounter(speed)), ready.CurrentSignal(), AutonomousTick);
      case WriteDiv => SignalChangeEffect(s.(counter := 0, apuOffset := 2), s.CurrentSignal(), MmioWrite);
      case StopReset => SignalChangeEffect(s.(counter := 0, apuOffset := 0), s.CurrentSignal(), MmioWrite);
      case WriteTac(value) => SignalChangeEffect(s.(tac := value % 8), s.CurrentSignal(), MmioWrite);
      case _ =>
    }
  }

  /** A pending reload, left uncancelled, waits out exactly its ticks, whatever else is written meanwhile. */
  lemma {:induction false} PendingCountsDown(s: TimerState, ops: seq<Op>)
    requires Inv(s) && s.overflow.Pending? && NoCancel(s, ops) && TickCount(ops) < s.overflow.ticksUntilReload
    ensures Inv(Run(s, ops))
    ensures Run(s, ops).overflow == Pending(s.overflow.ticksUntilReload - TickCount(ops))
    ensures InterruptTotal(s, ops) == 0
  {
    if ops != [] {
      var before, op := ops[..|ops| - 1], ops[|ops| - 1];
      PendingCountsDown(s, before);
      ApplyBalance(Run(s, before), op);
      PendingStep(Run(s, before), op);
      hide Inv, Apply, Cancels;
    }
  }

  /** An overflow that is not cancelled interrupts on the fourth tick after it if a tick caused it and on the third
      if a register write did, and on no earlier tick. */
  lemma OverflowIsDelivered(s: TimerState, cause: Op, ops: seq<Op>, last: Op)
    requires Inv(s) && Overflows(s, cause) && last.TickOp?
    requires NoCancel(Apply(s, cause), ops + [last])
    requires TickCount(ops + [last]) == if cause.TickOp? then 4 else 3
    ensures var after := Apply(s, cause);
      InterruptTotal(after, ops) == 0 && Interrupts(Run(after, ops), last) == 1
  {
    var after := Apply(s, cause);
    ApplyBalance(s, cause);
    assert (ops + [last])[..|ops|] == ops;
    hide Apply;
    PendingCountsDown(after, ops);
    PendingStep(Run(after, ops), last);
  }
}
