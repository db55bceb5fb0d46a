/** What the timer registers mean in numbers: a stopped timer, TIMA and TMA writes, and the glitches of DIV and TAC. */
module TimerRegisters {
  import opened Prelude
  import opened Hardware
  import opened Scheduler
  import opened Timer
  import opened TimerClosedForm
  import opened TimerConservation

  /** A stopped timer `n` ticks on, with a reload due on tick `wait`, or none when that is 0. */
  ghost predicate StoppedState(s: TimerState, wait: nat, n: nat, now: TimerState) {
    && now.tac == s.tac && now.tma == s.tma && now.counter == (s.counter + n) % 0x1_0000
    && now.tima == (if 0 < wait <= n then s.tma else s.tima)
    && now.overflow == (if n < wait then Pending(wait - n) else NoOverflow)
  }

  /** With TAC bit 2 clear, TIMA stands still and no interrupt comes, but a reload that is pending goes through: on its
      tick TIMA takes TMA and the interrupt is queued. */
  lemma {:induction false} StoppedTimer(s: TimerState, speeds: seq<CgbSpeedMode>, wait: nat)
    requires s.tac < 4
    requires if s.overflow.NoOverflow? then wait == 0 else wait == s.overflow.ticksUntilReload >= 1
    ensures StoppedState(s, wait, |speeds|, Ticks(s, speeds))
    ensures speeds != [] ==>
      && LastTick(s, speeds).interrupts == (if |speeds| == wait then [TimerInterrupt] else [])
      && TimerInputFallingEdge !in LastTick(s, speeds).edges
  {
    if speeds != [] {
      var n, speed := |speeds| - 1, speeds[|speeds| - 1];
      StoppedTimer(s, speeds[..n], wait);
      hide StoppedState, TimerState.AfterTick;
      StoppedStep(s, wait, n, Ticks(s, speeds[..n]), speed);
    }
  }

  lemma StoppedStep(s: TimerState, wait: nat, n: nat, now: TimerState, speed: CgbSpeedMode)
    requires s.tac < 4 && StoppedState(s, wait, n, now)
    ensures var r := now.AfterTick(speed);
      && StoppedState(s, wait, n + 1, r.state)
      && r.interrupts == (if n + 1 == wait then [TimerInterrupt] else [])
      && TimerInputFallingEdge !in r.edges
  {
    ModOfReducedSum(s.counter + n, 1, 0x1_0000);
    StoppedTick(now, speed);
    hide TimerState.AfterTick;
  }

  lemma StoppedTick(s: TimerState, speed: CgbSpeedMode)
    requires s.tac < 4
    ensures var r := s.AfterTick(speed);
      && r.state.tac == s.tac && r.state.tma == s.tma && r.state.counter == (s.counter + 1) % 0x1_0000
      && r.state.tima == (if s.ReloadsNow() then s.tma else s.tima)
      && r.state.overflow == s.PipelineAdvanced().overflow
      && r.interrupts == (if s.ReloadsNow() then [TimerInterrupt] else [])
      && TimerInputFallingEdge !in r.edges
  {
    PeriodOfBit(s.tac);
    hide Bit, DivApuSignal;
  }

  /** A TIMA write drops a pending reload and its interrupt; counting goes on from the value written. */
  lemma TimaWriteCounts(s: TimerState, value: u8, speeds: seq<CgbSpeedMode>, p: pos)
    requires Inv(s) && Selects(s.tac, p) && !s.reloaded && speeds != []
    ensures LastTick(s.AfterTima(value), speeds).interrupts == [TimerInterrupt]
       <==> exists j: nat :: |speeds| == InterruptTick(s.(tima := value), p, j)
  {
    var written := s.AfterTima(value);
    assert written == s.(tima := value, overflow := NoOverflow);
    hide Signal, LastTick;
    InterruptSchedule(written, speeds, p);
    assert forall j: nat :: InterruptTick(s.(tima := value), p, j) == InterruptTick(written, p, j);
  }

  /** In the reload cycle itself a TIMA write changes nothing. */
  lemma TimaWriteIgnored(s: TimerState, value: u8, speeds: seq<CgbSpeedMode>)
    requires s.reloaded
    ensures Ticks(s.AfterTima(value), speeds) == Ticks(s, speeds)
    ensures speeds != [] ==> LastTick(s.AfterTima(value), speeds) == LastTick(s, speeds)
  {
    assert s.AfterTima(value) == s;
  }

  /** A TMA write counts for later reloads; in the reload cycle it is what TIMA goes on from as well. */
  lemma TmaWriteCounts(s: TimerState, value: u8, speeds: seq<CgbSpeedMode>, p: pos)
    requires Counting(s) && Selects(s.tac, p) && speeds != []
    ensures var from := s.(tma := value, tima := if s.reloaded then value else s.tima);
      LastTick(s.AfterTma(value), speeds).interrupts == [TimerInterrupt]
      <==> exists j: nat :: |speeds| == InterruptTick(from, p, j)
  {
    var written := s.AfterTma(value);
    assert written == s.(tma := value, tima := if s.reloaded then value else s.tima);
    hide Signal, LastTick, InterruptTick;
    InterruptSchedule(written, speeds, p);
  }

  /** The counter is in the upper half of the selected period. */
  predicate UpperHalf(s: TimerState, p: pos) {
    s.counter % p >= p / 2
  }

  lemma SignalIsUpperHalf(s: TimerState, p: pos)
    requires Selects(s.tac, p)
    ensures s.CurrentSignal() <==> UpperHalf(s, p)
  {
    PeriodOfBit(s.tac);
    BitIsUpperHalf(s.counter, SelectedWeight(s.tac));
    hide Bit;
  }

  /** TIMA after one increment that a register write causes, and the reload an overflow starts three ticks off. */
  ghost predicate CountedByWrite(s: TimerState, next: TimerState, glitch: bool) {
    && next.tma == s.tma && next.reloaded == s.reloaded
    && next.tima == (if glitch && s.overflow.NoOverflow? then (s.tima + 1) % 0x100 else s.tima)
    && next.overflow == (if glitch && s.overflow.NoOverflow? && s.tima == 0xFF then Pending(3) else s.overflow)
  }

  /** A DIV write, or STOP, clears the counter; it counts once if the counter stood in the upper half of its period. */
  lemma DividerGlitch(s: TimerState, offset: u16, p: pos)
    requires Selects(s.tac, p)
    ensures var next := s.AfterDividerReset(offset);
      next.counter == 0 && next.apuOffset == offset && next.tac == s.tac && CountedByWrite(s, next, UpperHalf(s, p))
  {
    SignalIsUpperHalf(s, p);
    ResetClearsSignal(s.tac);
    hide Signal, UpperHalf;
  }

  lemma StoppedDividerWrite(s: TimerState, offset: u16)
    requires s.tac < 4
    ensures s.AfterDividerReset(offset) == s.(counter := 0, apuOffset := offset, previousSignal := false)
  {
    PeriodOfBit(s.tac);
    hide Bit;
  }

  /** The input that a TAC value selects is high: the timer is enabled and the counter in the upper half. */
  predicate InputHigh(tac: u8, counter: u16) {
    || (tac == 4 && counter % 1024 >= 512)
    || (tac == 5 && counter % 16 >= 8)
    || (tac == 6 && counter % 64 >= 32)
    || (tac == 7 && counter % 256 >= 128)
  }

  lemma SignalIsInputHigh(tac: u8, counter: u16)
    requires tac < 8
    ensures Signal(tac, counter) <==> InputHigh(tac, counter)
  {
    PeriodOfBit(tac);
    BitIsUpperHalf(counter, SelectedWeight(tac));
    hide Bit;
  }

  /** A TAC write takes the low three bits; it counts once if the input was high before and is low after. */
  lemma ControlGlitch(s: TimerState, value: u8)
    requires s.tac < 8
    ensures var next := s.AfterTac(value);
      && next.tac == value % 8 && next.counter == s.counter && next.apuOffset == s.apuOffset
      && CountedByWrite(s, next, InputHigh(s.tac, s.counter) && !InputHigh(value % 8, s.counter))
  {
    SignalIsInputHigh(s.tac, s.counter);
    SignalIsInputHigh(value % 8, s.counter);
    hide Signal, InputHigh;
  }

  /** Handing over from the boot ROM moves the counter on without counting. */
  lemma CorrectionMovesCounter(s: TimerState, tCycles: u16)
    ensures s.AfterCorrection(tCycles)
         == s.(counter := (s.counter + tCycles) % 0x1_0000,
               previousSignal := s.AfterCorrection(tCycles).CurrentSignal())
  {
    hide Signal;
  }

  /** From a startup state on, the whole interrupt schedule in the numbers it was started with. */
  lemma StartupSchedule(counter: u16, tima: u8, tma: u8, tac: u8, speeds: seq<CgbSpeedMode>, p: pos)
    requires Selects(tac % 8, p) && speeds != []
    ensures LastTick(StartupState(counter, tima, tma, tac), speeds).interrupts == [TimerInterrupt]
       <==> exists j: nat :: |speeds| == InterruptTick(INITIAL.(counter := counter, tima := tima, tma := tma), p, j)
  {
    var s := StartupState(counter, tima, tma, tac);
    hide Signal, LastTick;
    InterruptSchedule(s, speeds, p);
    assert forall j: nat ::
      InterruptTick(INITIAL.(counter := counter, tima := tima, tma := tma), p, j) == InterruptTick(s, p, j);
  }

  /** The APU divider bit is high in the upper half of its period of the offset counter. */
  lemma ApuSignalIsUpperHalf(counter: u16, offset: u16, speed: CgbSpeedMode)
    ensures var period := if speed.Double? then 16384 else 8192;
      DivApuSignal(counter, offset, speed) <==> (counter + offset) % 0x1_0000 % period >= period / 2
  {
    BitIsUpperHalf((counter + offset) % 0x1_0000, speed.DivApuWeight());
    hide Bit;
  }
}
