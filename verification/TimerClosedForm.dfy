/** Any number of timer ticks without writes, in closed form. */
module TimerClosedForm {
  import opened Prelude
  import opened Hardware
  import opened Scheduler
  import opened Timer

  /** The state after one tick per listed speed. */
  function Ticks(s: TimerState, speeds: seq<CgbSpeedMode>): TimerState {
    if speeds == [] then s else Ticks(s, speeds[..|speeds| - 1]).AfterTick(speeds[|speeds| - 1]).state
  }

  /** What the last of those ticks reported. */
  function LastTick(s: TimerState, speeds: seq<CgbSpeedMode>): TickResult
    requires speeds != []
  {
    Ticks(s, speeds[..|speeds| - 1]).AfterTick(speeds[|speeds| - 1])
  }

  /** Counter ticks per TIMA increment, by the two clock-select bits of TAC. */
  function Period(tac: u8): pos {
    match tac % 4
    case 0 => 1024
    case 1 => 16
    case 2 => 64
    case _ => 256
  }

  /** The period is that of the counter bit TAC selects. */
  lemma PeriodOfBit(tac: u8)
    ensures Period(tac) == 2 * SelectedWeight(tac)
    ensures 4 <= tac < 8 ==> Enabled(tac)
    ensures tac < 4 ==> !Enabled(tac)
  {
  }

  /** Ticks between two falls of the APU divider bit. */
  function ApuPeriod(speed: CgbSpeedMode): pos {
    match speed
    case Normal => 8192
    case Double => 16384
  }

  /** TIMA increments in the first `n` ticks: multiples of the period passed by the unwrapped counter. */
  function EdgesIn(s: TimerState, n: nat): nat {
    DivMonotone(s.counter, s.counter + n, Period(s.tac));
    (s.counter + n) / Period(s.tac) - s.counter / Period(s.tac)
  }

  function Phase(s: TimerState, n: nat): nat {
    (s.counter + n) % Period(s.tac)
  }

  /** Increments that make TIMA overflow for the first time, and each time after a reload. */
  function FirstOverflow(s: TimerState): pos { 0x100 - s.tima }

  function ReloadSpan(s: TimerState): pos { 0x100 - s.tma }

  /** The last increment was an overflow. */
  predicate AtOverflow(s: TimerState, n: nat) {
    EdgesIn(s, n) >= FirstOverflow(s) && (EdgesIn(s, n) - FirstOverflow(s)) % ReloadSpan(s) == 0
  }

  function TimaAfter(s: TimerState, n: nat): nat {
    var m := EdgesIn(s, n);
    if m < FirstOverflow(s) then s.tima + m
    else if AtOverflow(s, n) && Phase(s, n) < RELOAD_DELAY then 0
    else s.tma + (m - FirstOverflow(s)) % ReloadSpan(s)
  }

  function OverflowAfter(s: TimerState, n: nat): Overflow {
    if AtOverflow(s, n) && Phase(s, n) < RELOAD_DELAY then Pending(RELOAD_DELAY - Phase(s, n)) else NoOverflow
  }

  predicate ReloadsOn(s: TimerState, n: nat) {
    AtOverflow(s, n) && Phase(s, n) == RELOAD_DELAY
  }

  /** TIMA counting, registers fixed, no overflow pending, signal latched. */
  ghost predicate Counting(s: TimerState) {
    4 <= s.tac < 8 && s.overflow.NoOverflow? && s.previousSignal == s.CurrentSignal()
  }

  ghost predicate ClosedForm(s: TimerState, n: nat, now: TimerState) {
    && now.counter == (s.counter + n) % 0x1_0000
    && now.tac == s.tac && now.tma == s.tma && now.apuOffset == s.apuOffset
    && now.tima == TimaAfter(s, n) && now.overflow == OverflowAfter(s, n)
    && (n > 0 ==> now.reloaded == ReloadsOn(s, n))
    && now.previousSignal == now.CurrentSignal()
  }

  lemma PeriodFacts(tac: u8)
    ensures Period(tac) in {16, 64, 256, 1024}
  {
  }

  /** The timer input falls on a tick exactly when that tick completes a period. */
  lemma TimerFallsOnPeriod(s: TimerState, n: nat, now: TimerState, speed: CgbSpeedMode)
    requires 4 <= s.tac < 8 && now.tac == s.tac && now.counter == (s.counter + n) % 0x1_0000
    ensures now.NextCounter(speed) == (s.counter + n + 1) % 0x1_0000
    ensures now.TimerFalls(speed) <==> Phase(s, n + 1) == 0
  {
    hide Bit;
    PeriodOfBit(s.tac);
    CountFalls(s.counter + n, SelectedWeight(s.tac));
  }

  lemma PhaseStep(s: TimerState, n: nat)
    ensures Phase(s, n + 1) == 0 ==> EdgesIn(s, n + 1) == EdgesIn(s, n) + 1 && Phase(s, n) == Period(s.tac) - 1
    ensures Phase(s, n + 1) != 0 ==> EdgesIn(s, n + 1) == EdgesIn(s, n) && Phase(s, n + 1) == Phase(s, n) + 1
  {
    DivSucc(s.counter + n, Period(s.tac));
  }

  /** One more increment after the first overflow. */
  lemma SpanStep(s: TimerState, m: nat)
    requires m >= FirstOverflow(s)
    ensures var r, r' := (m - FirstOverflow(s)) % ReloadSpan(s), (m + 1 - FirstOverflow(s)) % ReloadSpan(s);
      (r' == 0 && r == ReloadSpan(s) - 1) || (r' == r + 1 && r' < ReloadSpan(s))
  {
    DivSucc(m - FirstOverflow(s), ReloadSpan(s));
  }

  lemma NothingElapsed(s: TimerState)
    requires Counting(s)
    ensures ClosedForm(s, 0, s)
  {
    assert EdgesIn(s, 0) == 0;
    hide Signal;
  }

  /** A tick that completes no period only moves the reload pipeline. */
  lemma QuietStep(s: TimerState, n: nat, now: TimerState, speed: CgbSpeedMode)
    requires Counting(s) && ClosedForm(s, n, now) && Phase(s, n + 1) != 0
    ensures ClosedForm(s, n + 1, now.AfterTick(speed).state)
    ensures now.ReloadsNow() <==> ReloadsOn(s, n + 1)
  {
    PeriodFacts(s.tac);
    PhaseStep(s, n);
    TimerFallsOnPeriod(s, n, now, speed);
    hide EdgesIn, Phase, Signal, Period;
  }

  /** The closed form counts once per period, and overflows from 0xFF to a fresh pending reload. */
  lemma ClosedFormCounts(s: TimerState, n: nat)
    requires Phase(s, n + 1) == 0
    ensures OverflowAfter(s, n).NoOverflow? && !ReloadsOn(s, n + 1)
    ensures TimaAfter(s, n) == 0xFF ==>
      TimaAfter(s, n + 1) == 0 && OverflowAfter(s, n + 1) == Pending(AutonomousTick.Delay())
    ensures TimaAfter(s, n) != 0xFF ==>
      TimaAfter(s, n + 1) == TimaAfter(s, n) + 1 && OverflowAfter(s, n + 1).NoOverflow?
  {
    PeriodFacts(s.tac);
    PhaseStep(s, n);
    var m := EdgesIn(s, n);
    if m >= FirstOverflow(s) {
      SpanStep(s, m);
    } else if m + 1 == FirstOverflow(s) {
      DivUnique(0, ReloadSpan(s), 0, 0);
    }
    hide EdgesIn, Phase, Period;
  }

  /** A tick that completes a period counts, and never meets a pending reload. */
  lemma CountingStep(s: TimerState, n: nat, now: TimerState, speed: CgbSpeedMode)
    requires Counting(s) && ClosedForm(s, n, now) && Phase(s, n + 1) == 0
    ensures ClosedForm(s, n + 1, now.AfterTick(speed).state)
    ensures !now.ReloadsNow() && !ReloadsOn(s, n + 1)
  {
    hide TimaAfter, OverflowAfter, ReloadsOn, Phase, Signal;
    TimerFallsOnPeriod(s, n, now, speed);
    ClosedFormCounts(s, n);
  }

  /** For every number of ticks, through any wrap-around of the counter and any speed changes: the registers are
      given by the closed form, and the last tick interrupts exactly when the closed form reloads. */
  lemma {:induction false} TicksClosedForm(s: TimerState, speeds: seq<CgbSpeedMode>)
    requires Counting(s)
    ensures ClosedForm(s, |speeds|, Ticks(s, speeds))
    ensures speeds != [] ==>
      LastTick(s, speeds).interrupts == if ReloadsOn(s, |speeds|) then [TimerInterrupt] else []
  {
    if speeds == [] {
      NothingElapsed(s);
    } else {
      var n, speed := |speeds| - 1, speeds[|speeds| - 1];
      TicksClosedForm(s, speeds[..n]);
      var now := Ticks(s, speeds[..n]);
      hide ClosedForm, Counting, ReloadsOn, TimerState.PipelineAdvanced, TimerState.CounterAdvanced;
      if Phase(s, n + 1) == 0 {
        CountingStep(s, n, now, speed);
      } else {
        QuietStep(s, n, now, speed);
      }
    }
  }

  /** The tick of interrupt number `j`, counted from zero, when TIMA counts every `p` ticks. */
  function InterruptTick(s: TimerState, p: pos, j: nat): int {
    p * (s.counter / p + 0x100 - s.tima) - s.counter + 4 + j * (0x100 - s.tma) * p
  }

  lemma FirstOverflowIncrements(s: TimerState, n: nat, j: nat)
    requires n == InterruptTick(s, Period(s.tac), j)
    ensures ReloadsOn(s, n)
  {
    var p, span, first := Period(s.tac), ReloadSpan(s), FirstOverflow(s);
    PeriodFacts(s.tac);
    var base := s.counter / p;
    var q := base + first + j * span;
    assert s.counter + n == q * p + RELOAD_DELAY by {
      assert p * (base + first) + j * span * p == (base + first + j * span) * p;
    }
    DivUnique(s.counter + n, p, q, RELOAD_DELAY);
    assert EdgesIn(s, n) - first == j * span;
    DivUnique(j * span, span, j, 0);
  }

  lemma ReloadsAreScheduled(s: TimerState, n: nat)
    requires ReloadsOn(s, n)
    ensures n == InterruptTick(s, Period(s.tac), (EdgesIn(s, n) - FirstOverflow(s)) / ReloadSpan(s))
  {
    var p, span, first := Period(s.tac), ReloadSpan(s), FirstOverflow(s);
    var base, q := s.counter / p, (s.counter + n) / p;
    var j := (q - base - first) / span;
    assert q - base - first == j * span;
    assert s.counter + n == q * p + RELOAD_DELAY;
    assert q * p == p * (base + first) + j * span * p by {
      assert q == base + first + j * span;
      assert (base + first + j * span) * p == p * (base + first) + j * span * p;
    }
  }

  /** The clock-select bits and the ticks per increment they stand for, with the timer enabled. */
  predicate Selects(tac: u8, p: pos) {
    (tac == 4 && p == 1024) || (tac == 5 && p == 16) || (tac == 6 && p == 64) || (tac == 7 && p == 256)
  }

  /** With period `p` selected, interrupts come on ticks `p * (c / p + 256 - v) - c + 4 + j * (256 - TMA) * p` for
      `j` = 0, 1, ... and on no others. */
  lemma InterruptSchedule(s: TimerState, speeds: seq<CgbSpeedMode>, p: pos)
    requires Counting(s) && speeds != [] && Selects(s.tac, p)
    ensures LastTick(s, speeds).interrupts == [TimerInterrupt] <==> exists j: nat :: |speeds| == InterruptTick(s, p, j)
    ensures LastTick(s, speeds).interrupts == [] || LastTick(s, speeds).interrupts == [TimerInterrupt]
  {
    assert p == Period(s.tac);
    ScheduleByNumber(s, speeds);
    hide *;
  }

  lemma ScheduleByNumber(s: TimerState, speeds: seq<CgbSpeedMode>)
    requires Counting(s) && speeds != []
    ensures LastTick(s, speeds).interrupts == [TimerInterrupt]
       <==> exists j: nat :: |speeds| == InterruptTick(s, Period(s.tac), j)
    ensures LastTick(s, speeds).interrupts == [] || LastTick(s, speeds).interrupts == [TimerInterrupt]
  {
    var n := |speeds|;
    TicksClosedForm(s, speeds);
    hide LastTick, Ticks, ClosedForm, Counting, InterruptTick;
    if ReloadsOn(s, n) {
      ReloadsAreScheduled(s, n);
    }
    if j: nat :| n == InterruptTick(s, Period(s.tac), j) {
      FirstOverflowIncrements(s, n, j);
    }
  }

  /** The divider edges a tick reports: the timer input falls once a period, the APU frame sequencer bit every 2^13
      ticks of the offset counter at normal speed and every 2^14 at double speed. */
  lemma ReportedEdges(s: TimerState, speeds: seq<CgbSpeedMode>, p: pos)
    requires Counting(s) && speeds != [] && Selects(s.tac, p)
    ensures var n, apu := |speeds|, if speeds[|speeds| - 1].Double? then 16384 else 8192;
      LastTick(s, speeds).edges
      == [DividerTick]
         + ((if (s.counter + n) % p == 0 then [TimerInputFallingEdge] else [])
            + (if (s.counter + s.apuOffset + n) % apu == 0 then [ApuFrameSequencerEdge] else []))
  {
    hide CgbSpeedMode.DivApuWeight, Signal, DivApuSignal, TimaAfter, OverflowAfter, ReloadsOn, Ticks;
    assert p == Period(s.tac);
    var n, speed := |speeds| - 1, speeds[|speeds| - 1];
    assert ApuPeriod(speed) == if speed.Double? then 16384 else 8192;
    var now := Ticks(s, speeds[..n]);
    TicksClosedForm(s, speeds[..n]);
    TimerFallsOnPeriod(s, n, now, speed);
    ApuFallsOnPeriod(s, n, now, speed);
    EdgesReported(now, speed);
    PhaseUnfolds(s, n + 1);
    hide *;
  }

  lemma EdgesReported(now: TimerState, speed: CgbSpeedMode)
    ensures now.AfterTick(speed).edges
         == [DividerTick] + ((if now.TimerFalls(speed) then [TimerInputFallingEdge] else [])
                             + (if now.ApuFalls(speed) then [ApuFrameSequencerEdge] else []))
  {
  }

  lemma PhaseUnfolds(s: TimerState, n: nat)
    ensures Phase(s, n) == (s.counter + n) % Period(s.tac)
  {
  }

  lemma ApuFallsOnPeriod(s: TimerState, n: nat, now: TimerState, speed: CgbSpeedMode)
    requires now.counter == (s.counter + n) % 0x1_0000 && now.apuOffset == s.apuOffset
    ensures now.ApuFalls(speed) <==> (s.counter + s.apuOffset + n + 1) % ApuPeriod(speed) == 0
  {
    ApuPeriodOfBit(speed);
    hide Bit, CgbSpeedMode.DivApuWeight, ApuPeriod;
    var total := s.counter + s.apuOffset + n;
    ModOfReducedSum(s.counter + n, s.apuOffset, 0x1_0000);
    ModOfReducedSum(s.counter + n, 1, 0x1_0000);
    ModOfReducedSum(s.counter + n + 1, s.apuOffset, 0x1_0000);
    CountFalls(total, speed.DivApuWeight());
  }

  lemma ApuPeriodOfBit(speed: CgbSpeedMode)
    ensures ApuPeriod(speed) == 2 * speed.DivApuWeight()
  {
  }
}
