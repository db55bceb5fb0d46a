/** The transfers that the CPU asks for, from the bytes it writes: which addresses are read and written, and when. */
module DmaRegisterWrites {
  import opened Prelude
  import opened Hardware
  import opened DmaTransfers
  import opened Dma
  import opened DmaInvariant
  import opened DmaRuns
  import opened DmaVramPhases
  import opened DmaGdmaRun
  import opened DmaHdmaSchedule
  import opened DmaHdmaWindows
  import opened DmaHdmaRun
  import opened DmaHdmaCopy
  import opened DmaHdmaRegisters

  /** The source address that HDMA1 and HDMA2 select: the low four bits do not count. */
  function SourceOf(hdma1: u8, hdma2: u8): u16 {
    0x100 * hdma1 + hdma2 / 16 * 16
  }

  /** The destination that HDMA3 and HDMA4 select: an aligned address in VRAM. */
  function DestinationOf(hdma3: u8, hdma4: u8): (a: u16)
    ensures 0x8000 <= a <= 0x9FF0 && a % 16 == 0
  {
    0x8000 + 0x100 * (hdma3 % 32) + hdma4 / 16 * 16
  }

  /** The blocks that a write of HDMA5 asks for, cut off at the end of VRAM. */
  function BlocksOf(hdma5: u8, destination: u16): (n: pos)
    requires 0x8000 <= destination <= 0x9FF0
  {
    var asked, room := hdma5 % 0x80 + 1, (0xA000 - destination) / 16;
    if asked < room then asked else room
  }

  function AfterWrites(s: ControllerState, hdma1: u8, hdma2: u8, hdma3: u8, hdma4: u8): ControllerState {
    Run(s, [Hdma1(hdma1), Hdma2(hdma2), Hdma3(hdma3), Hdma4(hdma4)])
  }

  lemma WritesSelect(s: ControllerState, hdma1: u8, hdma2: u8, hdma3: u8, hdma4: u8)
    ensures var w := AfterWrites(s, hdma1, hdma2, hdma3, hdma4);
      && w == s.(registers := w.registers)
      && w.registers.SourceStart() == SourceOf(hdma1, hdma2)
      && w.registers.DestinationStart() == DestinationOf(hdma3, hdma4)
      && (Inv(s) ==> Inv(w))
  {
    var a, b, c, d := Hdma1(hdma1), Hdma2(hdma2), Hdma3(hdma3), Hdma4(hdma4);
    assert [] + [a] == [a] && [a] + [b] == [a, b] && [a, b] + [c] == [a, b, c] && [a, b, c] + [d] == [a, b, c, d];
    RunOne(s, [], a);
    RunOne(s, [a], b);
    RunOne(s, [a, b], c);
    RunOne(s, [a, b, c], d);
    if Inv(s) {
      ApplyKeepsInv(s, a);
      ApplyKeepsInv(Run(s, [a]), b);
      ApplyKeepsInv(Run(s, [a, b]), c);
      ApplyKeepsInv(Run(s, [a, b, c]), d);
    }
    hide Run, Inv;
    var r := AfterWrites(s, hdma1, hdma2, hdma3, hdma4).registers;
    assert r == VramRegisters(hdma1, UpperNibble(hdma2), hdma3 % 0x20, UpperNibble(hdma4));
  }

  /** What VRAM DMA reads at an address: nothing but 0xFF from VRAM and from 0xE000 on. */
  function ReadForVram(memory: Memory, address: u16): u8 {
    if 0x8000 <= address < 0xA000 || address >= 0xE000 then 0xFF else memory[address]
  }

  /** `count` bytes from `source` on have arrived at `destination`, and nothing else has changed. */
  ghost predicate BlockMoved(before: Memory, after: Memory, source: u16, destination: u16, count: nat) {
    forall a: nat | a < 0x1_0000 ::
      after[a] == if destination <= a < destination + count
                  then ReadForVram(before, (source + (a - destination)) % 0x1_0000)
                  else before[a]
  }

  lemma CopiedMovesBlock(memory: Memory, t: VramTransfer, speed: CgbSpeedMode, count: nat)
    requires t.destinationStart + count <= 0x1_0000
    ensures BlockMoved(memory, Copied(memory, GdmaForSpeed(t, speed), count), t.sourceStart, t.destinationStart, count)
  {
  }

  /** Five register writes and a general-purpose copy: every byte by its address, the stall and HDMA5 by their ticks. */
  lemma GdmaFromWrites(
    s: ControllerState, hdma1: u8, hdma2: u8, hdma3: u8, hdma4: u8, hdma5: u8, speed: CgbSpeedMode,
    contexts: seq<RuntimeContext>, memory: Memory)
    requires Inv(s) && !s.vramState.HBlankActive? && hdma5 < 0x80
    ensures
      var source, destination := SourceOf(hdma1, hdma2), DestinationOf(hdma3, hdma4);
      var blocks := BlocksOf(hdma5, destination);
      var started := AfterWrites(s, hdma1, hdma2, hdma3, hdma4).AfterHdma5(hdma5, speed);
      var lastByte := match speed case Normal => 2 * 16 * blocks case Double => 4 * 16 * blocks;
      var now := Ticks(started, contexts);
      && (|contexts| >= lastByte ==>
            BlockMoved(memory, Execute(memory, TickWorks(started, contexts)), source, destination, 16 * blocks))
      && (now.CpuStall() <==> |contexts| < lastByte + 5)
      && (now.vramState.ReadHdma5() == 0xFF <==> |contexts| >= lastByte + 12)
      && (now.RequiresTick() <==> |contexts| < lastByte + 12)
      && (|contexts| >= lastByte + 12 ==>
            && now.registers.SourceStart() == (source + 16 * blocks) % 0x1_0000
            && now.registers.DestinationStart() == 0x8000 + (destination - 0x8000 + 16 * blocks) % 0x2000)
  {
    hide *;
    WritesSelect(s, hdma1, hdma2, hdma3, hdma4);
    var w, destination := AfterWrites(s, hdma1, hdma2, hdma3, hdma4), DestinationOf(hdma3, hdma4);
    BlocksMin(hdma5, destination);
    LastByteLiterally(speed, BlocksOf(hdma5, destination));
    GdmaMemory(w, hdma5, speed, contexts, memory);
    GdmaEnds(w, hdma5, speed, contexts, memory);
  }

  ghost function LastByteOf(speed: CgbSpeedMode, blocks: nat): nat {
    match speed case Normal => 2 * 16 * blocks case Double => 4 * 16 * blocks
  }

  lemma LastByteLiterally(speed: CgbSpeedMode, blocks: pos)
    ensures LastByteOf(speed, blocks) == match speed case Normal => 2 * 16 * blocks case Double => 4 * 16 * blocks
    ensures LastByteOf(speed, blocks) == VramFirstByteDelay(speed) + (16 * blocks - 1) * VramTCyclesPerByte(speed)
  {
  }

  lemma GdmaMemory(
    s: ControllerState, hdma5: u8, speed: CgbSpeedMode, contexts: seq<RuntimeContext>, memory: Memory)
    requires Inv(s) && !s.vramState.HBlankActive? && hdma5 < 0x80
    requires 0x8000 <= s.registers.DestinationStart() <= 0x9FF0
    ensures
      var started, blocks := s.AfterHdma5(hdma5, speed), BlocksOf(hdma5, s.registers.DestinationStart());
      |contexts| >= LastByteOf(speed, blocks) ==>
        BlockMoved(memory, Execute(memory, TickWorks(started, contexts)),
                   s.registers.SourceStart(), s.registers.DestinationStart(), 16 * blocks)
  {
    hide *;
    var started, blocks := s.AfterHdma5(hdma5, speed), BlocksOf(hdma5, s.registers.DestinationStart());
    BlocksMin(hdma5, s.registers.DestinationStart());
    LastByteLiterally(speed, blocks);
    GdmaRefinesBlockCopy(s, hdma5, speed, contexts, memory);
    Hdma5StartsGdma(s, hdma5, speed);
    GdmaShape(started);
    CopiedMovesBlock(memory, started.vramState.transfer, speed, 16 * blocks);
  }

  lemma GdmaEnds(
    s: ControllerState, hdma5: u8, speed: CgbSpeedMode, contexts: seq<RuntimeContext>, memory: Memory)
    requires Inv(s) && !s.vramState.HBlankActive? && hdma5 < 0x80
    requires 0x8000 <= s.registers.DestinationStart() <= 0x9FF0
    ensures
      var started, blocks := s.AfterHdma5(hdma5, speed), BlocksOf(hdma5, s.registers.DestinationStart());
      var now, lastByte := Ticks(started, contexts), LastByteOf(speed, blocks);
      && (now.CpuStall() <==> |contexts| < lastByte + 5)
      && (now.vramState.ReadHdma5() == 0xFF <==> |contexts| >= lastByte + 12)
      && (now.RequiresTick() <==> |contexts| < lastByte + 12)
      && (|contexts| >= lastByte + 12 ==>
            && now.registers.SourceStart() == (s.registers.SourceStart() + 16 * blocks) % 0x1_0000
            && now.registers.DestinationStart()
               == 0x8000 + (s.registers.DestinationStart() - 0x8000 + 16 * blocks) % 0x2000)
  {
    hide *;
    var started, blocks := s.AfterHdma5(hdma5, speed), BlocksOf(hdma5, s.registers.DestinationStart());
    BlocksMin(hdma5, s.registers.DestinationStart());
    LastByteLiterally(speed, blocks);
    GdmaRefinesBlockCopy(s, hdma5, speed, contexts, memory);
    Hdma5StartsGdma(s, hdma5, speed);
    GdmaShape(started);
    LastByteTickOf(started.transferState.progress.transfer);
    NeedsTicks(started, contexts);
    RegistersFollowPublication(started, contexts);
    if Ticks(started, contexts).vramState.ReadHdma5() == 0xFF {
      ReadsBackAll(Ticks(started, contexts), started.vramState.transfer, PublishedAfter(started, |contexts|));
    }
  }

  lemma BlocksMin(hdma5: u8, destination: u16)
    requires 0x8000 <= destination <= 0x9FF0
    ensures BlocksOf(hdma5, destination) == Min(hdma5 % 0x80 + 1, (0xA000 - destination) / 0x10)
    ensures hdma5 < 0x80 ==> hdma5 % 0x80 == hdma5
  {
  }

  lemma ReadsBackAll(now: ControllerState, t: VramTransfer, p: nat)
    requires ReadsBack(now, t, p) && now.vramState.ReadHdma5() == 0xFF && t.remainingBlocks <= 128
    ensures now.registers.SourceStart() == (t.sourceStart + 0x10 * t.remainingBlocks) % 0x1_0000
    ensures now.registers.DestinationStart()
         == 0x8000 + (t.destinationStart - 0x8000 + 0x10 * t.remainingBlocks) % 0x2000
  {
    ReadsBackCompletes(now, t, p);
  }

  /** After any run with HDMA latched, what the published blocks have made of the endpoint registers reads back. */
  lemma HdmaEndpointsRead(s: ControllerState, contexts: seq<RuntimeContext>)
    requires Latched(s)
    ensures
      var t, now := s.vramState.transfer, Ticks(s, contexts);
      var published := NextBlock(Schedule(PlanOf(s), contexts), |contexts|);
      && (published == 0 ==> now.registers == s.registers)
      && (published > 0 ==>
            && now.registers.SourceStart() == (t.sourceStart + 16 * published) % 0x1_0000
            && now.registers.DestinationStart() == 0x8000 + (t.destinationStart - 0x8000 + 16 * published) % 0x2000)
  {
    hide *;
    PlanBlocks(s);
    RegistersFollow(s, contexts);
    HdmaCountsDown(s, contexts);
    var published := NextBlock(Schedule(PlanOf(s), contexts), |contexts|);
    EndpointsAfterIs(s.registers, s.vramState.transfer, published);
    AdvancedEndpoints(s.registers, s.vramState.transfer, HBlankMode, published);
  }

  lemma EndpointsAfterIs(r: VramRegisters, t: VramTransfer, p: nat)
    ensures p == 0 ==> EndpointsAfter(r, t, p) == r
    ensures p > 0 ==>
      EndpointsAfter(r, t, p) == r.WithEndpoints(t.Advance(p).sourceStart, t.Advance(p).destinationStart)
  {
  }

  ghost predicate BlockMovedOutsideOam(before: Memory, after: Memory, source: u16, destination: u16, count: nat) {
    forall a: nat | a < 0xFE00 || 0xFE9F < a < 0x1_0000 ::
      after[a] == if destination <= a < destination + count
                  then ReadForVram(before, (source + (a - destination)) % 0x1_0000)
                  else before[a]
  }

  /** A request for `blocks` blocks is complete: its last window has been there for 44 or 76 ticks. */
  ghost predicate Complete(windows: seq<Start>, blocks: pos, n: nat) {
    && |windows| >= blocks
    && n >= windows[blocks - 1].tick + if windows[blocks - 1].occupant == Block(Double) then 76 else 44
  }

  /** Five register writes and an HDMA copy, with whatever OAM transfer in flight or waiting: every byte by its address,
      HDMA5 and the endpoints by the window that opened the last block. */
  lemma HdmaFromWrites(
    s: ControllerState, hdma1: u8, hdma2: u8, hdma3: u8, hdma4: u8, hdma5: u8, speed: CgbSpeedMode,
    contexts: seq<RuntimeContext>, memory: Memory)
    requires Inv(s) && !s.vramState.HBlankActive? && hdma5 >= 0x80
    requires Spaced(WindowsAfter(s, contexts)) && NoWindowBeforeRestart(s, contexts)
    ensures
      var source, destination := SourceOf(hdma1, hdma2), DestinationOf(hdma3, hdma4);
      var blocks := BlocksOf(hdma5, destination);
      var armed := AfterWrites(s, hdma1, hdma2, hdma3, hdma4).AfterHdma5(hdma5, speed);
      var now, complete := Ticks(armed, contexts), Complete(WindowsAfter(s, contexts), blocks, |contexts|);
      && (now.vramState.ReadHdma5() == 0xFF <==> complete) && (now.vramState.Inactive? <==> complete)
      && (complete ==>
            && |HdmaMoves(armed, contexts)| == 16 * blocks
            && now.registers.SourceStart() == (source + 16 * blocks) % 0x1_0000
            && now.registers.DestinationStart() == 0x8000 + (destination - 0x8000 + 16 * blocks) % 0x2000)
      && (complete && NoGdmaInFlight(s) ==>
            BlockMovedOutsideOam(memory, Execute(memory, TickWorks(armed, contexts)), source, destination, 16 * blocks))
  {
    hide *;
    var w := AfterWrites(s, hdma1, hdma2, hdma3, hdma4);
    WritesSelect(s, hdma1, hdma2, hdma3, hdma4);
    SameSlotWindows(s, w, contexts);
    HdmaEnds(w, hdma5, speed, contexts, memory);
    HdmaBlockMoved(w, hdma5, speed, contexts, memory);
  }

  lemma HdmaEnds(
    s: ControllerState, hdma5: u8, speed: CgbSpeedMode, contexts: seq<RuntimeContext>, memory: Memory)
    requires Inv(s) && !s.vramState.HBlankActive? && hdma5 >= 0x80
    requires 0x8000 <= s.registers.DestinationStart() <= 0x9FF0
    requires Spaced(WindowsAfter(s, contexts)) && NoWindowBeforeRestart(s, contexts)
    ensures
      var armed, blocks := s.AfterHdma5(hdma5, speed), BlocksOf(hdma5, s.registers.DestinationStart());
      var now, complete := Ticks(armed, contexts), Complete(WindowsAfter(s, contexts), blocks, |contexts|);
      && (now.vramState.ReadHdma5() == 0xFF <==> complete) && (now.vramState.Inactive? <==> complete)
      && (complete ==>
            && |HdmaMoves(armed, contexts)| == 16 * blocks
            && now.registers.SourceStart() == (s.registers.SourceStart() + 16 * blocks) % 0x1_0000
            && now.registers.DestinationStart()
               == 0x8000 + (s.registers.DestinationStart() - 0x8000 + 16 * blocks) % 0x2000)
  {
    hide *;
    var armed, blocks := s.AfterHdma5(hdma5, speed), BlocksOf(hdma5, s.registers.DestinationStart());
    HdmaRefinesBlockCopy(s, hdma5, speed, contexts, memory);
    Hdma5ArmsHdma(s, hdma5, speed);
    PlanBlocks(armed);
    BlocksMin(hdma5, s.registers.DestinationStart());
    WindowsSettle(s, contexts, blocks);
    HdmaEndpointsRead(armed, contexts);
    HdmaCountsDown(armed, contexts);
    ContiguousLength(armed.vramState.transfer, 0, 16 * blocks);
  }

  lemma HdmaBlockMoved(
    s: ControllerState, hdma5: u8, speed: CgbSpeedMode, contexts: seq<RuntimeContext>, memory: Memory)
    requires Inv(s) && !s.vramState.HBlankActive? && hdma5 >= 0x80
    requires 0x8000 <= s.registers.DestinationStart() <= 0x9FF0
    requires Spaced(WindowsAfter(s, contexts)) && NoWindowBeforeRestart(s, contexts)
    ensures
      var armed, blocks := s.AfterHdma5(hdma5, speed), BlocksOf(hdma5, s.registers.DestinationStart());
      Complete(WindowsAfter(s, contexts), blocks, |contexts|) && NoGdmaInFlight(s) ==>
        BlockMovedOutsideOam(memory, Execute(memory, TickWorks(armed, contexts)),
                             s.registers.SourceStart(), s.registers.DestinationStart(), 16 * blocks)
  {
    hide *;
    var armed, blocks := s.AfterHdma5(hdma5, speed), BlocksOf(hdma5, s.registers.DestinationStart());
    HdmaRefinesBlockCopy(s, hdma5, speed, contexts, memory);
    Hdma5ArmsHdma(s, hdma5, speed);
    PlanBlocks(armed);
    BlocksMin(hdma5, s.registers.DestinationStart());
    WindowsSettle(s, contexts, blocks);
    RequestShape(armed.vramState.transfer);
    CopiedMovesBlock(memory, armed.vramState.transfer, Normal, 16 * blocks);
    MovedOutsideOam(memory, Copied(memory, GdmaForSpeed(armed.vramState.transfer, Normal), 16 * blocks),
                    Execute(memory, TickWorks(armed, contexts)),
                    s.registers.SourceStart(), s.registers.DestinationStart(), 16 * blocks);
  }

  lemma SameSlotWindows(s: ControllerState, w: ControllerState, contexts: seq<RuntimeContext>)
    requires w == s.(registers := w.registers)
    ensures WindowsAfter(w, contexts) == WindowsAfter(s, contexts)
    ensures NoWindowBeforeRestart(w, contexts) == NoWindowBeforeRestart(s, contexts)
    ensures NoGdmaInFlight(w) == NoGdmaInFlight(s)
    ensures w.vramState == s.vramState
  {
    hide Fresh, RuntimeContext.Window;
  }

  lemma WindowsSettle(s: ControllerState, contexts: seq<RuntimeContext>, blocks: pos)
    ensures var windows := WindowsAfter(s, contexts);
      |windows| >= blocks ==>
        windows[blocks - 1].occupant.Settled() == if windows[blocks - 1].occupant == Block(Double) then 76 else 44
    ensures Complete(WindowsAfter(s, contexts), blocks, |contexts|)
       <==> |WindowsAfter(s, contexts)| >= blocks
            && |contexts| >= WindowsAfter(s, contexts)[blocks - 1].tick
                             + WindowsAfter(s, contexts)[blocks - 1].occupant.Settled()
  {
    FreshFacts(NoWindow, SlotFreeFrom(s), contexts);
    hide Fresh;
  }

  lemma MovedOutsideOam(
    before: Memory, copied: Memory, after: Memory, source: u16, destination: u16, count: nat)
    requires BlockMoved(before, copied, source, destination, count)
    ensures SameOutsideOam(after, copied) ==> BlockMovedOutsideOam(before, after, source, destination, count)
  {
    hide ReadForVram;
  }

  /** The CPU runs, and the LCD is off or a visible line is at least three dots into its horizontal blank. */
  predicate ShowsWindow(c: RuntimeContext) {
    && !c.cpuHalted
    && (!c.lcdEnabled || (c.ly <= 143 && c.mode == PpuHBlank && c.lineDot >= c.mode0StartDot + 3))
  }

  /** Two showing contexts show the same window when the LCD is off in both or on in both with the same line. */
  predicate SameWindow(c: RuntimeContext, d: RuntimeContext) {
    c.lcdEnabled == d.lcdEnabled && (c.lcdEnabled ==> c.ly == d.ly)
  }

  lemma WindowIdentity(c: RuntimeContext, d: RuntimeContext)
    ensures ShowsWindow(c) <==> !c.cpuHalted && !c.Window().NoWindow?
    ensures ShowsWindow(c) && ShowsWindow(d) ==> (c.Window() == d.Window() <==> SameWindow(c, d))
  {
  }

  /** With HDMA latched by a write on an idle controller, the first block opens on the first tick that shows a window,
      and while no other window shows, no second one does. */
  lemma FirstWindowOpensBlock(
    s: ControllerState, hdma5: u8, speed: CgbSpeedMode, contexts: seq<RuntimeContext>, m: nat)
    requires Inv(s) && !s.vramState.HBlankActive? && hdma5 >= 0x80
    requires !s.transferState.InFlight() && s.pendingRestart.None?
    requires m < |contexts| && ShowsWindow(contexts[m])
    requires forall i: nat | i < m :: !ShowsWindow(contexts[i])
    requires forall i: nat | m < i < |contexts| :: ShowsWindow(contexts[i]) ==> SameWindow(contexts[m], contexts[i])
    ensures
      var armed := s.AfterHdma5(hdma5, speed);
      var ticks := |contexts| - m;
      var first := match contexts[m].speed case Normal => 2 case Double => 4;
      && Latched(armed)
      && HdmaMoves(armed, contexts)
         == Contiguous(armed.vramState.transfer, 0,
                       if ticks < first then 0 else if ticks >= 16 * first then 16 else ticks / first)
  {
    hide *;
    var armed := s.AfterHdma5(hdma5, speed);
    Hdma5ArmsHdma(s, hdma5, speed);
    PlanBlocks(armed);
    IdlePlan(armed, s);
    FirstSchedule(PlanOf(armed), contexts, m);
    HdmaRunLaw(armed, contexts);
    OneBlockMoves(armed.vramState.transfer, PlanOf(armed).prior, contexts[m], m, |contexts|);
    NothingMoved(armed.vramState.transfer, 0);
    assert [] + HdmaMoves(armed, contexts) == HdmaMoves(armed, contexts);
  }

  lemma IdlePlan(armed: ControllerState, s: ControllerState)
    requires Latched(armed) && !BlockOutstanding(armed.transferState) && armed.lastServedWindow == NoWindow
    requires armed.transferState == s.transferState && armed.pendingRestart == s.pendingRestart
    requires !s.transferState.InFlight() && s.pendingRestart.None?
    ensures PlanOf(armed).blocks > 0 && PlanOf(armed) == Plan(PlanOf(armed).blocks, Start(0, Other(0), NoWindow), None)
  {
    hide Inv, BlockOutstanding;
    PlanBlocks(armed);
  }

  lemma FirstSchedule(plan: Plan, contexts: seq<RuntimeContext>, m: nat)
    requires plan.blocks > 0 && plan == Plan(plan.blocks, Start(0, Other(0), NoWindow), None)
    requires m < |contexts| && ShowsWindow(contexts[m])
    requires forall i: nat | i < m :: !ShowsWindow(contexts[i])
    requires forall i: nat | m < i < |contexts| :: ShowsWindow(contexts[i]) ==> SameWindow(contexts[m], contexts[i])
    ensures Schedule(plan, contexts)
         == [plan.prior, Start(m, Block(contexts[m].speed), contexts[m].Window())]
  {
    forall i: nat | i < |contexts| ensures
      && (ShowsWindow(contexts[i]) <==> !contexts[i].cpuHalted && !contexts[i].Window().NoWindow?)
      && (ShowsWindow(contexts[i]) && ShowsWindow(contexts[m]) ==>
            (contexts[m].Window() == contexts[i].Window() <==> SameWindow(contexts[m], contexts[i])))
    {
      WindowIdentity(contexts[m], contexts[i]);
      WindowIdentity(contexts[i], contexts[m]);
    }
    hide ShowsWindow, SameWindow, RuntimeContext.Window, NextBlock, Schedule;
    ScheduleStarts(plan, contexts[..0]);
    UnshownTicks(plan, contexts[..m], [plan.prior], 0);
    assert contexts[..m + 1][..m] == contexts[..m] && contexts[..m][..0] == contexts[..0];
    ScheduleExtends(plan, contexts[..m + 1]);
    NothingPublishedYet(plan.prior, m);
    var first := Start(m, Block(contexts[m].speed), contexts[m].Window());
    assert [plan.prior] + [first] == [plan.prior, first];
    UnshownTicks(plan, contexts, [plan.prior, first], m + 1);
  }

  lemma NothingPublishedYet(prior: Start, n: int)
    requires prior.occupant.Other?
    ensures NextBlock([prior], n) == 0
  {
    assert [prior][..0] == [];
  }

  /** Ticks that show no window to a running CPU, or only the last one served, open nothing. */
  lemma {:induction false} UnshownTicks(plan: Plan, contexts: seq<RuntimeContext>, starts: seq<Start>, from: nat)
    requires from <= |contexts| && plan.restart.None? && starts != []
    requires Schedule(plan, contexts[..from]) == starts
    requires forall i: nat | from <= i < |contexts| ::
      contexts[i].cpuHalted || contexts[i].Window().NoWindow? || contexts[i].Window() == starts[|starts| - 1].window
    ensures Schedule(plan, contexts) == starts
  {
    hide NextBlock, RuntimeContext.Window, Occupant.Duration, Schedule;
    if from == |contexts| {
      assert contexts[..from] == contexts;
    } else {
      var n := |contexts| - 1;
      assert contexts[..n][..from] == contexts[..from];
      UnshownTicks(plan, contexts[..n], starts, from);
      ScheduleExtends(plan, contexts);
    }
  }

  lemma OneBlockMoves(t: VramTransfer, prior: Start, c: RuntimeContext, m: nat, n: nat)
    requires prior == Start(0, Other(0), NoWindow) && m <= n
    ensures LastIssued([prior], 0) == 0
    ensures var ticks, first := n - m, match c.speed case Normal => 2 case Double => 4;
      ExpectedMoves(t, [prior, Start(m, Block(c.speed), c.Window())], n)
      == Contiguous(t, 0, if ticks < first then 0 else if ticks >= 16 * first then 16 else ticks / first)
  {
    var first := Start(m, Block(c.speed), c.Window());
    NothingPublishedYet(prior, m);
    assert [prior, first][..1] == [prior] && [prior][..0] == [];
    hide NextBlock, RuntimeContext.Window;
    assert ExpectedMoves(t, [prior], m) == [];
    assert LastIssued([prior, first], n) == Issued(c.speed, n - m);
    IssuedLiterally(c.speed, n - m);
  }

  lemma IssuedLiterally(speed: CgbSpeedMode, ticks: nat)
    ensures var first := match speed case Normal => 2 case Double => 4;
      Issued(speed, ticks) == if ticks < first then 0 else if ticks >= 16 * first then 16 else ticks / first
  {
  }

  /** The page of the last FF46 write reads back, whatever happens besides. */
  lemma {:induction false} PageReadsBack(
    s: ControllerState, value: u8, speed: CgbSpeedMode, contexts: seq<RuntimeContext>)
    ensures Ticks(s.AfterFf46(value, speed), contexts).sourcePageLatch == value
  {
    hide ControllerState.AfterTick;
    if contexts != [] {
      PageReadsBack(s, value, speed, contexts[..|contexts| - 1]);
      TickKeepsPage(Ticks(s.AfterFf46(value, speed), contexts[..|contexts| - 1]), contexts[|contexts| - 1]);
    }
  }

  lemma TickKeepsPage(s: ControllerState, c: RuntimeContext)
    ensures s.AfterTick(c).0.sourcePageLatch == s.sourcePageLatch
  {
    hide TransferState.Next, TransferState.Published, VramRegisters.WithEndpoints, VramTransfer.Advance, WorkBetween;
  }

  /** A startup state is idle, whatever went on before: nothing to tick for, nothing on the bus, HDMA5 at 0xFF, the
      endpoint registers as at power-on, and the given page. */
  lemma StartupIsIdle(s: ControllerState, page: u8)
    ensures var started := s.AfterStartup(page);
      && !started.RequiresTick() && started.Bus() == BusState(Unrestricted, None, None) && !started.CpuStall()
      && started.vramState.ReadHdma5() == 0xFF && started.sourcePageLatch == page && started.model == s.model
      && started.registers.SourceStart() == 0xFFF0 && started.registers.DestinationStart() == 0x9FF0
      && started.lastServedWindow == NoWindow
  {
  }
}
