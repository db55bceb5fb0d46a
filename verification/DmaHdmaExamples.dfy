/** Runs from power-on: two in which HDMA moves a byte twice, through an early window and through a restart that drops
    a block, and one that HDMA carries through although a restart displaces an OAM transfer in mid-flight. */
module DmaHdmaExamples {
  import opened Prelude
  import opened Hardware
  import opened DmaTransfers
  import opened Dma
  import opened DmaInvariant
  import opened DmaRuns
  import opened DmaOamRun
  import opened DmaHdmaSchedule
  import opened DmaHdmaWindows
  import opened DmaHdmaRun
  import opened DmaHdmaCopy

  /** Inside the horizontal blank of a visible line. */
  function Line(ly: u8): RuntimeContext {
    RuntimeContext(true, PpuHBlank, ly, 300, 252, false, Normal)
  }

  const LCD_OFF := RuntimeContext(false, PpuHBlank, 0, 0, 0, false, Normal)

  function Repeat(c: RuntimeContext, n: nat): seq<RuntimeContext> {
    seq(n, _ => c)
  }

  lemma Windows(ly: u8)
    ensures ly < 144 ==> Line(ly).Window() == VisibleHBlank(ly)
    ensures LCD_OFF.Window() == LcdDisabled
  {
  }

  /** Power-on, then a request for two blocks from 0x4000 to 0x8000. */
  function TwoBlocks(): ControllerState {
    Run(Initial(GameBoyColor), [Hdma1(0x40), Hdma2(0), Hdma3(0), Hdma4(0), Hdma5(0x81, Normal)])
  }

  lemma TwoBlocksLatched()
    ensures var s := TwoBlocks();
      && Latched(s)
      && s.vramState.transfer == VramTransfer(HBlankMode, 0x4000, 0x8000, 2, 2)
      && PlanOf(s) == Plan(2, Start(0, Other(0), NoWindow), None) && AlreadyMoved(s) == 0
  {
    TwoBlocksState();
    RunKeepsInv(GameBoyColor, [Hdma1(0x40), Hdma2(0), Hdma3(0), Hdma4(0), Hdma5(0x81, Normal)]);
    hide Inv, Run;
  }

  lemma TwoBlocksState()
    ensures TwoBlocks()
         == Initial(GameBoyColor).(registers := VramRegisters(0x40, 0, 0, 0),
                                   vramState := HBlankActive(VramTransfer(HBlankMode, 0x4000, 0x8000, 2, 2)))
  {
    hide Run;
    var init := Initial(GameBoyColor);
    var a, b, c, d, e := Hdma1(0x40), Hdma2(0), Hdma3(0), Hdma4(0), Hdma5(0x81, Normal);
    assert [] + [a] == [a] && [a] + [b] == [a, b] && [a, b] + [c] == [a, b, c];
    assert [a, b, c] + [d] == [a, b, c, d] && [a, b, c, d] + [e] == [a, b, c, d, e];
    RunOne(init, [], a);
    RunOne(init, [a], b);
    RunOne(init, [a, b], c);
    RunOne(init, [a, b, c], d);
    RunOne(init, [a, b, c, d], e);
  }

  /** Switching the LCD off 40 ticks into a block, past its stall and short of its publication, opens a block for the
      new window, and that block starts over at the first byte. */
  lemma EarlyWindowExample()
    ensures var s, t := TwoBlocks(), TwoBlocks().vramState;
      && Latched(s) && t.HBlankActive?
      && Schedule(PlanOf(s), Repeat(Line(0), 40) + Repeat(LCD_OFF, 3))
         == [PlanOf(s).prior, Start(0, Block(Normal), VisibleHBlank(0)), Start(40, Block(Normal), LcdDisabled)]
      && HdmaMoves(s, Repeat(Line(0), 40) + Repeat(LCD_OFF, 3))
         == Contiguous(t.transfer, 0, 16) + [MoveAt(t.transfer, 0)]
  {
    hide *;
    TwoBlocksLatched();
    PlanBlocks(TwoBlocks());
    var s, contexts := TwoBlocks(), Repeat(Line(0), 40) + Repeat(LCD_OFF, 3);
    EarlySchedule(PlanOf(s), contexts);
    HdmaRunLaw(s, contexts);
    EarlyMoves(s.vramState.transfer);
    RepeatLength(Line(0), 40);
    RepeatLength(LCD_OFF, 3);
    NothingMoved(s.vramState.transfer, 0);
    assert [] + HdmaMoves(s, contexts) == HdmaMoves(s, contexts);
  }

  lemma QuietUpTo(plan: Plan, contexts: seq<RuntimeContext>, starts: seq<Start>, from: nat, to: nat)
    requires from <= to <= |contexts| && starts != [] && Schedule(plan, contexts[..from]) == starts
    requires plan.restart.Some? ==> !(from <= plan.restart.value < to)
    requires var last := starts[|starts| - 1];
      forall i :: from <= i < to ==>
        i < last.tick + last.occupant.Duration() || contexts[i].Window() in {NoWindow, last.window}
    ensures Schedule(plan, contexts[..to]) == starts
  {
    hide Schedule, RuntimeContext.Window;
    assert contexts[..to][..from] == contexts[..from];
    QuietTicks(plan, contexts[..to], from);
  }

  lemma OneTick(plan: Plan, contexts: seq<RuntimeContext>, starts: seq<Start>, n: nat)
    requires n < |contexts| && starts != [] && Schedule(plan, contexts[..n]) == starts
    ensures Schedule(plan, contexts[..n + 1]) == starts + NewStart(plan, starts, n, contexts[n])
  {
    hide Schedule, NewStart;
    assert contexts[..n + 1][..n] == contexts[..n];
    ScheduleExtends(plan, contexts[..n + 1]);
  }

  lemma RepeatLength(c: RuntimeContext, n: nat)
    ensures |Repeat(c, n)| == n && forall i :: 0 <= i < n ==> Repeat(c, n)[i] == c
  {
  }

  lemma EarlySchedule(plan: Plan, contexts: seq<RuntimeContext>)
    requires plan == Plan(2, Start(0, Other(0), NoWindow), None)
    requires contexts == Repeat(Line(0), 40) + Repeat(LCD_OFF, 3)
    ensures Schedule(plan, contexts)
         == [plan.prior, Start(0, Block(Normal), VisibleHBlank(0)), Start(40, Block(Normal), LcdDisabled)]
  {
    hide *;
    var a, b := plan.prior, Start(0, Block(Normal), VisibleHBlank(0));
    var c := Start(40, Block(Normal), LcdDisabled);
    RepeatLength(Line(0), 40);
    RepeatLength(LCD_OFF, 3);
    ScheduleStarts(plan, contexts[..0]);
    OneTick(plan, contexts, [a], 0);
    EarlyTicks(plan, a, b);
    assert [a] + [b] == [a, b];
    QuietUpTo(plan, contexts, [a, b], 1, 40) by { Windows(0); }
    OneTick(plan, contexts, [a, b], 40);
    assert [a, b] + [c] == [a, b, c];
    QuietUpTo(plan, contexts, [a, b, c], 41, 43) by { Windows(0); }
    assert contexts[..43] == contexts;
  }

  lemma EarlyTicks(plan: Plan, a: Start, b: Start)
    requires a == Start(0, Other(0), NoWindow) && plan == Plan(2, a, None)
    requires b == Start(0, Block(Normal), VisibleHBlank(0))
    ensures NewStart(plan, [a], 0, Line(0)) == [b]
    ensures NewStart(plan, [a, b], 40, LCD_OFF) == [Start(40, Block(Normal), LcdDisabled)]
  {
    assert [a, b][..1] == [a] && [a][..0] == [];
    assert NextBlock([a], 0) == 0;
    assert NextBlock([a, b], 40) == NextBlock([a], 0);
    hide NextBlock;
  }

  lemma EarlyMoves(t: VramTransfer)
    ensures var prior, window := Start(0, Other(0), NoWindow), VisibleHBlank(0);
      ExpectedMoves(t, [prior, Start(0, Block(Normal), window), Start(40, Block(Normal), LcdDisabled)], 43)
      == Contiguous(t, 0, 16) + [MoveAt(t, 0)]
  {
    var a := Start(0, Other(0), NoWindow);
    var b, c := Start(0, Block(Normal), VisibleHBlank(0)), Start(40, Block(Normal), LcdDisabled);
    assert [a, b, c][..2] == [a, b] && [a, b][..1] == [a] && [a][..0] == [];
    assert NextBlock([a], 0) == 0 && NextBlock([a, b], 40) == 0;
    hide NextBlock;
    assert ExpectedMoves(t, [a], 0) == [];
    assert ExpectedMoves(t, [a, b], 40) == Contiguous(t, 0, 16);
    assert Contiguous(t, 0, 1) == [MoveAt(t, 0)];
  }

  /** Power-on, a one-block HDMA request and an OAM transfer, and one tick before the transfer ends another FF46. */
  function RestartLate(contexts: seq<RuntimeContext>): ControllerState {
    Ticks(Initial(GameBoyColor).AfterHdma5(0x80, Normal).AfterFf46(0xC0, Normal), contexts).AfterFf46(0xC1, Normal)
  }

  lemma RestartLateLatched(contexts: seq<RuntimeContext>)
    requires |contexts| == 647
    ensures var s := RestartLate(contexts);
      && Latched(s)
      && PlanOf(s) == Plan(1, Start(0, Other(1), NoWindow), Some(4)) && AlreadyMoved(s) == 0
  {
    hide *;
    var started := Initial(GameBoyColor).AfterHdma5(0x80, Normal).AfterFf46(0xC0, Normal);
    assert RestartLate(contexts) == Ticks(started, contexts).AfterFf46(0xC1, Normal) by {
      RestartLateIs(contexts);
    }
    StartedPlan();
    HdmaRunLaw(started, contexts);
    assert contexts[..0] == [];
    ScheduleStarts(PlanOf(started), contexts[..0]);
    OccupiedSlot(PlanOf(started), contexts);
    TicksKeepInv(started, contexts);
    Restart(started.vramState.transfer, Ticks(started, contexts));
  }

  lemma RestartLateIs(contexts: seq<RuntimeContext>)
    ensures RestartLate(contexts)
         == Ticks(Initial(GameBoyColor).AfterHdma5(0x80, Normal).AfterFf46(0xC0, Normal), contexts)
            .AfterFf46(0xC1, Normal)
  {
  }

  lemma StartedPlan()
    ensures var started := Initial(GameBoyColor).AfterHdma5(0x80, Normal).AfterFf46(0xC0, Normal);
      && Latched(started) && PlanOf(started) == Plan(1, Start(0, Other(648), NoWindow), None)
      && started.vramState.transfer.remainingBlocks == 1
  {
    var init := Initial(GameBoyColor);
    InitialInv(GameBoyColor);
    ApplyKeepsInv(init, Hdma5(0x80, Normal));
    ApplyKeepsInv(init.AfterHdma5(0x80, Normal), Ff46(0xC0, Normal));
  }

  lemma OccupiedSlot(plan: Plan, contexts: seq<RuntimeContext>)
    requires plan == Plan(1, Start(0, Other(648), NoWindow), None) && |contexts| == 647
    requires Schedule(plan, contexts[..0]) == [plan.prior]
    ensures Schedule(plan, contexts) == [plan.prior]
  {
    hide Schedule, RuntimeContext.Window;
    QuietTicks(plan, contexts, 0);
  }

  lemma {:induction false} TicksKeepInv(s: ControllerState, contexts: seq<RuntimeContext>)
    requires Inv(s)
    ensures Inv(Ticks(s, contexts))
  {
    hide Inv;
    if contexts != [] {
      var n := |contexts| - 1;
      TicksKeepInv(s, contexts[..n]);
      ApplyKeepsInv(Ticks(s, contexts[..n]), Tick(contexts[n]));
      hide ControllerState.AfterTick;
    }
  }

  lemma Restart(t: VramTransfer, now: ControllerState)
    requires Inv(now) && Law(t, None, now, [Start(0, Other(648), NoWindow)], 647) && t.remainingBlocks == 1
    ensures var s := now.AfterFf46(0xC1, Normal);
      Latched(s) && PlanOf(s) == Plan(1, Start(0, Other(1), NoWindow), Some(4)) && AlreadyMoved(s) == 0
  {
    var prior := Start(0, Other(648), NoWindow);
    assert [prior][..0] == [];
    assert NextBlock([prior], 647) == 0;
    assert RemainingTicks(now.transferState) == 1;
    RemainingTicksPositive(now.transferState);
    AdvanceRemaining(t, 0);
    ApplyKeepsInv(now, Ff46(0xC1, Normal));
    hide Inv, Running, VramTransfer.Advance, TransferState.Published;
  }

  /** The windows of the run: line 0 for 648 ticks, then line 1. */
  function TwoLines(): seq<RuntimeContext> {
    Repeat(Line(0), 648) + Repeat(Line(1), 2)
  }

  /** The OAM transfer ends on the first tick, a block opens on the second and issues a byte, the restart drops it on
      the fifth. The next block opens when the restarted transfer is over and starts at the first byte again, although
      the two openings are 647 ticks apart. */
  lemma RestartExample(contexts: seq<RuntimeContext>)
    requires |contexts| == 647
    ensures var s, v := RestartLate(contexts), RestartLate(contexts).vramState;
      && Latched(s) && v.HBlankActive?
      && Schedule(PlanOf(s), TwoLines())
         == [PlanOf(s).prior, Start(1, Block(Normal), VisibleHBlank(0)), RestartAt(4, VisibleHBlank(0)),
             Start(648, Block(Normal), VisibleHBlank(1))]
      && HdmaMoves(s, TwoLines()) == [MoveAt(v.transfer, 0), MoveAt(v.transfer, 0)]
  {
    hide *;
    RestartLateLatched(contexts);
    var s := RestartLate(contexts);
    PlanBlocks(s);
    RestartSchedule(PlanOf(s));
    HdmaRunLaw(s, TwoLines());
    RestartMoves(s.vramState.transfer);
    TwoLinesAt();
    NothingMoved(s.vramState.transfer, 0);
    assert [] + HdmaMoves(s, TwoLines()) == HdmaMoves(s, TwoLines());
  }

  lemma TwoLinesAt()
    ensures |TwoLines()| == 650
    ensures forall i :: 0 <= i < 650 ==> TwoLines()[i] == if i < 648 then Line(0) else Line(1)
  {
  }

  lemma RestartSchedule(plan: Plan)
    requires plan == Plan(1, Start(0, Other(1), NoWindow), Some(4))
    ensures Schedule(plan, TwoLines())
         == [plan.prior, Start(1, Block(Normal), VisibleHBlank(0)), RestartAt(4, VisibleHBlank(0)),
             Start(648, Block(Normal), VisibleHBlank(1))]
  {
    hide *;
    var contexts, a := TwoLines(), plan.prior;
    var b, r := Start(1, Block(Normal), VisibleHBlank(0)), RestartAt(4, VisibleHBlank(0));
    var c := Start(648, Block(Normal), VisibleHBlank(1));
    TwoLinesAt();
    ScheduleStarts(plan, contexts[..0]);
    QuietUpTo(plan, contexts, [a], 0, 1) by { Durations(); }
    OneTick(plan, contexts, [a], 1);
    TickOne(plan, a);
    assert [a] + [b] == [a, b];
    QuietUpTo(plan, contexts, [a, b], 2, 4) by { Durations(); }
    OneTick(plan, contexts, [a, b], 4);
    TickFour(plan, a, b);
    assert [a, b] + [r] == [a, b, r];
    QuietUpTo(plan, contexts, [a, b, r], 5, 648) by { Durations(); }
    OneTick(plan, contexts, [a, b, r], 648);
    TickLast(plan, a, b, r);
    assert [a, b, r] + [c] == [a, b, r, c];
    QuietUpTo(plan, contexts, [a, b, r, c], 649, 650) by { Durations(); }
    assert contexts[..650] == contexts;
  }

  lemma Durations()
    ensures Line(0).Window() == VisibleHBlank(0) && Line(1).Window() == VisibleHBlank(1)
    ensures Other(1).Duration() == 1
    ensures RestartAt(4, VisibleHBlank(0)).window == VisibleHBlank(0)
  {
  }

  lemma TickOne(plan: Plan, a: Start)
    requires a == Start(0, Other(1), NoWindow) && plan == Plan(1, a, Some(4))
    ensures NewStart(plan, [a], 1, Line(0)) == [Start(1, Block(Normal), VisibleHBlank(0))]
  {
    RestartBlocks(a);
    hide NextBlock;
  }

  lemma TickFour(plan: Plan, a: Start, b: Start)
    requires b == Start(1, Block(Normal), VisibleHBlank(0)) && plan.restart == Some(4)
    ensures NewStart(plan, [a, b], 4, Line(0)) == [RestartAt(4, VisibleHBlank(0))]
  {
    hide NextBlock;
  }

  lemma TickLast(plan: Plan, a: Start, b: Start, r: Start)
    requires a == Start(0, Other(1), NoWindow) && plan == Plan(1, a, Some(4))
    requires b == Start(1, Block(Normal), VisibleHBlank(0)) && r == RestartAt(4, VisibleHBlank(0))
    ensures NewStart(plan, [a, b, r], 648, Line(1)) == [Start(648, Block(Normal), VisibleHBlank(1))]
  {
    RestartBlocks(a);
    hide NextBlock;
  }

  /** The dropped block is never counted. */
  lemma RestartBlocks(a: Start)
    requires a == Start(0, Other(1), NoWindow)
    ensures var b, r := Start(1, Block(Normal), VisibleHBlank(0)), RestartAt(4, VisibleHBlank(0));
      NextBlock([a], 1) == NextBlock([a, b], 4) == NextBlock([a, b, r], 648) == 0
  {
    var b, r := Start(1, Block(Normal), VisibleHBlank(0)), RestartAt(4, VisibleHBlank(0));
    assert [a, b, r][..2] == [a, b] && [a, b][..1] == [a] && [a][..0] == [];
    assert NextBlock([a], 1) == 0;
  }

  lemma RestartMoves(t: VramTransfer)
    ensures var a, b := Start(0, Other(1), NoWindow), Start(1, Block(Normal), VisibleHBlank(0));
      var r, c := RestartAt(4, VisibleHBlank(0)), Start(648, Block(Normal), VisibleHBlank(1));
      ExpectedMoves(t, [a, b, r, c], 650) == [MoveAt(t, 0), MoveAt(t, 0)]
  {
    var a, b := Start(0, Other(1), NoWindow), Start(1, Block(Normal), VisibleHBlank(0));
    var r, c := RestartAt(4, VisibleHBlank(0)), Start(648, Block(Normal), VisibleHBlank(1));
    RestartBlocks(a);
    hide NextBlock;
    assert [a, b, r, c][..3] == [a, b, r] && [a, b, r][..2] == [a, b] && [a, b][..1] == [a] && [a][..0] == [];
    assert Contiguous(t, 0, 1) == [MoveAt(t, 0)];
    assert ExpectedMoves(t, [a], 1) == [];
    assert ExpectedMoves(t, [a, b], 4) == [MoveAt(t, 0)];
    assert ExpectedMoves(t, [a, b, r], 648) == [MoveAt(t, 0)];
  }

  /** Power-on, an OAM transfer, and another FF46 write 100 ticks into it. */
  function RestartEarly(contexts: seq<RuntimeContext>): ControllerState {
    Ticks(Initial(GameBoyColor).AfterFf46(0xC0, Normal), contexts).AfterFf46(0xC1, Normal)
  }

  /** A one-block request written then meets a restart that displaces a transfer with 548 ticks left, and a window that
      shows from the first tick on. The window is served when the restarted transfer is over, on tick 648, and the
      request is complete 44 ticks later, on tick 692 and not before. */
  lemma DisplacedTransferExample(contexts: seq<RuntimeContext>, n: nat)
    requires |contexts| == 100
    ensures var s := RestartEarly(contexts);
      && Inv(s) && s.pendingRestart.Some? && RemainingTicks(s.transferState) == 548
      && Spaced(WindowsAfter(s, Repeat(Line(0), n))) && NoWindowBeforeRestart(s, Repeat(Line(0), n))
      && var armed := s.AfterHdma5(0x80, Normal);
      && armed.vramState.HBlankActive?
      && (Ticks(armed, Repeat(Line(0), n)).vramState.Inactive? <==> n >= 692)
      && (n >= 692 ==> HdmaMoves(armed, Repeat(Line(0), n)) == Contiguous(armed.vramState.transfer, 0, 16))
  {
    hide *;
    var s, windows := RestartEarly(contexts), Repeat(Line(0), n);
    RestartEarlyState(contexts);
    RepeatLength(Line(0), n);
    OneWindow(n);
    LoneWindow(s, n);
    HdmaRefinesBlockCopy(s, 0x80, Normal, windows, seq(0x1_0000, _ => 0));
    OneBlock(s);
  }

  lemma RestartEarlyState(contexts: seq<RuntimeContext>)
    requires |contexts| == 100
    ensures var s := RestartEarly(contexts);
      && Inv(s) && s.vramState.Inactive? && !s.vramState.HBlankActive? && s.registers == DEFAULT_REGISTERS
      && s.pendingRestart.Some? && s.pendingRestart.value.elapsed == 0
      && RemainingTicks(s.transferState) == 548
  {
    var init := Initial(GameBoyColor);
    var started := init.AfterFf46(0xC0, Normal);
    InitialInv(GameBoyColor);
    ApplyKeepsInv(init, Ff46(0xC0, Normal));
    TicksKeepInv(started, contexts);
    ApplyKeepsInv(Ticks(started, contexts), Ff46(0xC1, Normal));
    InactiveStays(started, contexts);
    FreshTimeline(init, 0xC0, Normal, contexts);
    hide Inv, Ticks, TickWorks, WorkAt;
  }

  lemma {:induction false} InactiveStays(s: ControllerState, contexts: seq<RuntimeContext>)
    requires s.vramState.Inactive?
    ensures Ticks(s, contexts).vramState == s.vramState && Ticks(s, contexts).registers == s.registers
  {
    if contexts != [] {
      InactiveStays(s, contexts[..|contexts| - 1]);
      InactiveTick(Ticks(s, contexts[..|contexts| - 1]), contexts[|contexts| - 1]);
      hide ControllerState.AfterTick;
    }
  }

  lemma InactiveTick(s: ControllerState, c: RuntimeContext)
    requires s.vramState.Inactive?
    ensures s.AfterTick(c).0.vramState == s.vramState && s.AfterTick(c).0.registers == s.registers
  {
    hide TransferState.Next, TransferState.Published, WorkBetween;
  }

  /** A window that shows all the time is met when the slot is free. */
  lemma {:induction false} OneWindow(n: nat)
    ensures Fresh(NoWindow, 648, Repeat(Line(0), n))
         == if n <= 648 then [] else [Start(648, Block(Normal), VisibleHBlank(0))]
  {
    if n > 0 {
      assert Repeat(Line(0), n)[..n - 1] == Repeat(Line(0), n - 1);
      OneWindow(n - 1);
    }
  }

  lemma LoneWindow(s: ControllerState, n: nat)
    requires s.pendingRestart.Some? && s.pendingRestart.value.elapsed == 0 && RemainingTicks(s.transferState) == 548
    requires Fresh(NoWindow, 648, Repeat(Line(0), n))
          == if n <= 648 then [] else [Start(648, Block(Normal), VisibleHBlank(0))]
    ensures WindowsAfter(s, Repeat(Line(0), n)) == Fresh(NoWindow, 648, Repeat(Line(0), n))
    ensures Spaced(WindowsAfter(s, Repeat(Line(0), n))) && NoWindowBeforeRestart(s, Repeat(Line(0), n))
    ensures Start(648, Block(Normal), VisibleHBlank(0)).occupant.Settled() == 44
  {
    hide Fresh, Repeat;
  }

  lemma OneBlock(s: ControllerState)
    requires s.registers == DEFAULT_REGISTERS
    ensures Min(0x80 % 0x80 + 1, (0xA000 - s.registers.DestinationStart()) / 0x10) == 1
  {
  }
}
