/** The controller runs the HDMA schedule: in any video conditions, from any reachable state with HDMA latched, the
    slot changes hands when the schedule says so and the bytes moved are the ones it calls for. */
module DmaHdmaRun {
  import opened Prelude
  import opened Hardware
  import opened DmaTransfers
  import opened Dma
  import opened DmaInvariant
  import opened DmaRuns
  import opened DmaVramPhases
  import opened DmaHdmaSchedule

  /** An HDMA request is latched, in any state the invariant allows: whatever is in flight, restart pending or not. */
  ghost predicate Latched(s: ControllerState) {
    Inv(s) && s.vramState.HBlankActive?
  }

  /** Ticks for which the transfer in the slot stays in flight. */
  ghost function RemainingTicks(t: TransferState): int {
    if t.InFlight() then t.progress.transfer.timing.totalTCycles - t.progress.elapsed else 0
  }

  /** An HDMA block that HDMA5 does not count yet. */
  ghost predicate BlockOutstanding(t: TransferState) {
    t.HasKind(Hdma) && t.Published() == 0
  }

  lemma RemainingTicksPositive(t: TransferState)
    requires PhaseOk(t)
    ensures RemainingTicks(t) >= 0
    ensures t.InFlight() <==> RemainingTicks(t) > 0
    ensures RemainingTicks(t.Next()) == Max(0, RemainingTicks(t) - 1)
  {
    hide Progress.PublishedBlocks, Progress.CompletedBlocks;
  }

  /** What the schedule needs to know of a state: block count, occupant of the slot, last window, pending restart. */
  ghost function PlanOf(s: ControllerState): Plan
    requires Latched(s)
  {
    RemainingTicksPositive(s.transferState);
    var slot, window := s.transferState, s.lastServedWindow;
    Plan(s.vramState.transfer.remainingBlocks,
         if BlockOutstanding(slot)
         then Start(0 - slot.progress.elapsed, Block(slot.progress.transfer.speed), window)
         else Start(0, Other(RemainingTicks(slot)), window),
         if s.pendingRestart.None? then None else Some(OAM_RESTRICTION_DELAY - 1 - s.pendingRestart.value.elapsed))
  }

  /** The slot's occupants as the controller itself takes them, tick by tick. */
  ghost function Starts(s: ControllerState, contexts: seq<RuntimeContext>): seq<Start>
    requires Latched(s)
  {
    if contexts == [] then [PlanOf(s).prior]
    else
      var n := |contexts| - 1;
      Starts(s, contexts[..n]) + StartOn(Ticks(s, contexts[..n]), n, contexts[n])
  }

  /** What takes the slot over on a tick, seen from the states around it. */
  ghost function StartOn(now: ControllerState, n: nat, c: RuntimeContext): seq<Start> {
    var next := now.AfterTick(c).0;
    if now.pendingRestart.Some? && next.pendingRestart.None? then [RestartAt(n, next.lastServedWindow)]
    else if now.OpensBlock(c) then [Start(n, Block(c.speed), next.lastServedWindow)]
    else []
  }

  function HdmaMove(work: Option<Work>): seq<ByteMove> {
    if work.Some? && work.value.transfer.kind.Hdma?
    then [ByteMove(work.value.Source(), work.value.Destination())]
    else []
  }

  /** The bytes HDMA moves during a run, in order. */
  ghost function HdmaMoves(s: ControllerState, contexts: seq<RuntimeContext>): seq<ByteMove> {
    if contexts == [] then []
    else
      var n := |contexts| - 1;
      HdmaMoves(s, contexts[..n]) + HdmaMove(Ticks(s, contexts[..n]).AfterTick(contexts[n]).1)
  }

  /** Bytes of the block in progress that were moved before the run. */
  ghost function AlreadyMoved(s: ControllerState): nat
    requires Latched(s)
  {
    LastIssued([PlanOf(s).prior], 0)
  }

  /** The block the last start copies, as the transfer the controller runs. */
  ghost function LastBlock(t: VramTransfer, starts: seq<Start>): Transfer
    requires starts != [] && starts[|starts| - 1].occupant.Block?
  {
    var last, before := starts[|starts| - 1], starts[..|starts| - 1];
    HdmaBlockForSpeed(t.Advance(NextBlock(before, last.tick)), last.occupant.speed)
  }

  ghost function CountdownState(t: VramTransfer, published: nat): VramState {
    if published < t.remainingBlocks then HBlankActive(t.Advance(published)) else DEFAULT_VRAM_STATE
  }

  /** The state after `n` ticks in which the slot went to `starts`. */
  ghost predicate Law(t: VramTransfer, restart: Option<nat>, now: ControllerState, starts: seq<Start>, n: nat) {
    && Running(t, HBlankMode)
    && PendingOk(now.pendingRestart)
    && RestartLaw(restart, now.pendingRestart, n)
    && NextBlock(starts, n) <= t.remainingBlocks
    && now.vramState == CountdownState(t, NextBlock(starts, n))
    && starts != []
    && starts[|starts| - 1].tick <= n
    && starts[|starts| - 1].window == now.lastServedWindow
    && SlotLaw(t, now.transferState, starts, n)
  }

  /** A restart waits until its tick. */
  ghost predicate RestartLaw(restart: Option<nat>, pending: Option<Progress>, n: nat) {
    if restart.Some? && n <= restart.value
    then pending.Some? && pending.value.elapsed + restart.value == OAM_RESTRICTION_DELAY - 1 + n
    else pending.None?
  }

  ghost predicate SlotLaw(t: VramTransfer, slot: TransferState, starts: seq<Start>, n: nat)
    requires starts != [] && starts[|starts| - 1].tick <= n
  {
    var last, before := starts[|starts| - 1], starts[..|starts| - 1];
    match last.occupant
    case Block(speed) =>
      && NextBlock(before, last.tick) < t.remainingBlocks
      && IsVramShaped(LastBlock(t, starts))
      && slot == PhaseAfter(LastBlock(t, starts), n - last.tick)
    case Other(ticks) =>
      PhaseOk(slot) && !BlockOutstanding(slot) && RemainingTicks(slot) == Max(0, last.tick + ticks - n)
  }

  lemma BlockShape(t: VramTransfer, q: nat, speed: CgbSpeedMode)
    requires Running(t, HBlankMode) && q < t.remainingBlocks
    ensures var block := HdmaBlockForSpeed(t.Advance(q), speed);
      && IsVramShaped(block) && block.kind.Hdma? && BlockCount(block) == 1 && block.totalBytes == 16
      && block.timing.totalTCycles == BlockDuration(speed)
      && block.timing.firstByteDelay == VramFirstByteDelay(speed)
      && block.timing.tCyclesPerByte == VramTCyclesPerByte(speed)
      && block.ReleaseTime(1) == FinalElapsed(block) == PublishDelay(speed)
      && TransferOk(block)
  {
    AdvanceRuns(t, HBlankMode, q);
    HdmaBlockOk(t.Advance(q), speed);
  }

  /** A block phase publishes exactly its one block, at its publication delay. */
  lemma BlockPhase(t: VramTransfer, q: nat, speed: CgbSpeedMode, e: nat)
    requires Running(t, HBlankMode) && q < t.remainingBlocks
    ensures IsVramShaped(HdmaBlockForSpeed(t.Advance(q), speed))
    ensures var phase := PhaseAfter(HdmaBlockForSpeed(t.Advance(q), speed), e);
      && phase.HasKind(Hdma)
      && phase.Published() == (if e >= PublishDelay(speed) then 1 else 0)
      && (phase.InFlight() <==> e < BlockDuration(speed))
      && phase.progress.CompletedBytes() == Issued(speed, e)
  {
    BlockShape(t, q, speed);
    var block := HdmaBlockForSpeed(t.Advance(q), speed);
    hide VramTransfer.Advance, Running, Progress.PublishedBlocks, HdmaBlockForSpeed;
    StopsAtFinal(block);
    PublishedThreshold(ProgressAfter(block, e), 1);
    PublishedAtMostAll(ProgressAfter(block, e));
    IssuedBounds(speed, e);
  }

  lemma IssuedStep(speed: CgbSpeedMode, e: nat)
    ensures Issued(speed, e) <= Issued(speed, e + 1) <= Min(16, Issued(speed, e) + 1)
    ensures Issued(speed, 0) == Issued(speed, 1) == 0
  {
    DivSucc(if e < VramFirstByteDelay(speed) then 0 else e - VramFirstByteDelay(speed), VramTCyclesPerByte(speed));
  }

  /** Byte `k` of block `q` is byte `16 * q + k` of the request. */
  lemma BlockByte(t: VramTransfer, q: nat, speed: CgbSpeedMode, k: nat)
    requires q <= t.remainingBlocks
    ensures var w := Work(HdmaBlockForSpeed(t.Advance(q), speed), k);
      ByteMove(w.Source(), w.Destination()) == MoveAt(t, 16 * q + k)
  {
    BlockStartsAt(t, q, speed);
    hide VramTransfer.Advance, HdmaBlockForSpeed;
    ModOfReducedSum(t.sourceStart + 16 * q, k, 0x1_0000);
    ModOfReducedSum(t.destinationStart + 16 * q, k, 0x1_0000);
  }

  lemma BlockStartsAt(t: VramTransfer, q: nat, speed: CgbSpeedMode)
    requires q <= t.remainingBlocks
    ensures var block := HdmaBlockForSpeed(t.Advance(q), speed);
      && block.kind.Hdma?
      && block.sourceStart == (t.sourceStart + 16 * q) % 0x1_0000
      && block.destinationStart == (t.destinationStart + 16 * q) % 0x1_0000
  {
  }

  /** The tick of a block emits the next byte of that block or nothing. */
  lemma BlockMove(t: VramTransfer, q: nat, speed: CgbSpeedMode, e: nat)
    requires Running(t, HBlankMode) && q < t.remainingBlocks
    ensures IsVramShaped(HdmaBlockForSpeed(t.Advance(q), speed))
    ensures var block := HdmaBlockForSpeed(t.Advance(q), speed);
      Issued(speed, e) <= Issued(speed, e + 1)
      && HdmaMove(WorkBetween(PhaseAfter(block, e), PhaseAfter(block, e + 1)))
         == Contiguous(t, 16 * q + Issued(speed, e), Issued(speed, e + 1) - Issued(speed, e))
  {
    hide VramTransfer.Advance, HdmaBlockForSpeed, Running, Issued, Progress.CompletedBytes;
    BlockPhase(t, q, speed, e);
    BlockPhase(t, q, speed, e + 1);
    IssuedStep(speed, e);
    BlockByte(t, q, speed, Issued(speed, e));
  }

  lemma CountdownStep(s: ControllerState, t: VramTransfer, p: nat, d: nat)
    requires s.vramState == CountdownState(t, p) && p + d <= t.remainingBlocks
    ensures s.AfterPublishing(Hdma, d).vramState == CountdownState(t, p + d)
    ensures s.AfterPublishing(Hdma, d).pendingRestart == s.pendingRestart
    ensures s.AfterPublishing(Hdma, d).lastServedWindow == s.lastServedWindow
  {
    AdvanceCompose(t, p, d);
    AdvanceRemaining(t, p);
    AdvanceRemaining(t, p + d);
    hide VramTransfer.Advance, VramRegisters.WithEndpoints;
  }

  /** The state with a pending restart one tick on. */
  ghost function Waited(s: ControllerState): ControllerState {
    if s.pendingRestart.None? then s else s.(pendingRestart := Some(s.pendingRestart.value.Advance()))
  }

  /** The three ways of a tick: the restart takes over, or the transfer ticks, after an opening or not. */
  lemma TickCases(now: ControllerState, restart: Option<nat>, n: nat, c: RuntimeContext)
    requires PendingOk(now.pendingRestart) && RestartLaw(restart, now.pendingRestart, n)
    ensures var ready := now.AfterOpening(c);
      && ready.pendingRestart == now.pendingRestart
      && (restart == Some(n) ==>
            && now.pendingRestart.Some?
            && now.AfterTick(c)
               == (ready.(pendingRestart := None, transferState := Active(now.pendingRestart.value.Advance())), None))
      && (restart != Some(n) ==> now.AfterTick(c) == Waited(ready).AfterTransferTick())
    ensures restart != Some(n) ==>
      PendingOk(Waited(now).pendingRestart) && RestartLaw(restart, Waited(now).pendingRestart, n + 1)
    ensures restart == Some(n) ==> RestartLaw(restart, None, n + 1)
  {
    hide ControllerState.OpensBlock, ControllerState.AfterTransferTick;
  }

  /** A block opens exactly when the schedule has it open. */
  lemma OpensIffEligible(
    t: VramTransfer, restart: Option<nat>, now: ControllerState, starts: seq<Start>, n: nat, c: RuntimeContext)
    requires Law(t, restart, now, starts, n)
    ensures now.OpensBlock(c) <==> Eligible(t.remainingBlocks, starts, n, c)
  {
    var last, before := starts[|starts| - 1], starts[..|starts| - 1];
    match last.occupant {
      case Block(speed) => BlockPhase(t, NextBlock(before, last.tick), speed, n - last.tick);
      case Other(_) => RemainingTicksPositive(now.transferState);
    }
    hide NextBlock, Running, RestartLaw, PhaseAfter, PhaseOk, VramTransfer.Advance, HdmaBlockForSpeed;
    hide RuntimeContext.Window, RemainingTicks, TransferState.Published;
  }

  lemma NextBlockOpened(starts: seq<Start>, start: Start, n: nat)
    requires start.tick == n
    ensures NextBlock(starts + [start], n + 1) == NextBlock(starts, n)
    ensures (starts + [start])[..|starts|] == starts
  {
    assert (starts + [start])[..|starts|] == starts;
    hide PublishDelay;
    NoDelay();
  }

  lemma NoDelay()
    ensures forall speed: CgbSpeedMode :: PublishDelay(speed) > 1
  {
  }

  lemma ExpectedMovesOpen(t: VramTransfer, starts: seq<Start>, start: Start, n: nat)
    requires start.tick == n
    ensures ExpectedMoves(t, starts + [start], n + 1) == ExpectedMoves(t, starts, n)
  {
    hide NextBlock;
    assert (starts + [start])[..|starts|] == starts;
    IssuedStep(Normal, 0);
    IssuedStep(Double, 0);
  }

  /** The tick on which the restart takes the slot over, from a block opened on that very tick if need be. */
  lemma RestartingTick(
    t: VramTransfer, restart: Option<nat>, now: ControllerState, starts: seq<Start>, n: nat, c: RuntimeContext)
    requires Law(t, restart, now, starts, n) && restart == Some(n)
    ensures var window := if now.OpensBlock(c) then c.Window() else now.lastServedWindow;
      && StartOn(now, n, c) == [RestartAt(n, window)]
      && Law(t, restart, now.AfterTick(c).0, starts + [RestartAt(n, window)], n + 1)
    ensures now.AfterTick(c).1 == None
  {
    var window := if now.OpensBlock(c) then c.Window() else now.lastServedWindow;
    TickCases(now, restart, n, c);
    NextBlockOpened(starts, RestartAt(n, window), n);
    hide ControllerState.OpensBlock, RuntimeContext.Window, NextBlock, Running, ControllerState.AfterTick;
    hide CountdownState, PhaseAfter;
  }

  /** A tick that opens a block. */
  lemma OpeningTick(
    t: VramTransfer, restart: Option<nat>, now: ControllerState, starts: seq<Start>, n: nat, c: RuntimeContext)
    requires Law(t, restart, now, starts, n) && restart != Some(n) && now.OpensBlock(c)
    ensures StartOn(now, n, c) == [Start(n, Block(c.speed), c.Window())]
    ensures Law(t, restart, now.AfterTick(c).0, starts + [Start(n, Block(c.speed), c.Window())], n + 1)
    ensures HdmaMove(now.AfterTick(c).1) == []
  {
    hide *;
    var start, q := Start(n, Block(c.speed), c.Window()), NextBlock(starts, n);
    var block, ready := HdmaBlockForSpeed(t.Advance(q), c.speed), Waited(now.AfterOpening(c));
    LawParts(t, restart, now, starts, n);
    TickCases(now, restart, n, c);
    OpeningState(t, restart, now, starts, n, c);
    BlockPhase(t, q, c.speed, 0);
    BlockPhase(t, q, c.speed, 1);
    BlockMove(t, q, c.speed, 0);
    PhaseStep(block, 0);
    NoDelay();
    TransferTickOver(ready, PhaseAfter(block, 0), Hdma);
    IssuedStep(c.speed, 0);
    CountdownStep(ready, t, q, 0);
    NothingMoved(t, 16 * q);
    OpenedLaw(t, restart, now.AfterTick(c).0, starts, start, n);
    OpeningStart(now, restart, n, c);
  }

  lemma LawParts(t: VramTransfer, restart: Option<nat>, now: ControllerState, starts: seq<Start>, n: nat)
    requires Law(t, restart, now, starts, n)
    ensures PendingOk(now.pendingRestart) && RestartLaw(restart, now.pendingRestart, n)
    ensures starts != [] && starts[|starts| - 1].tick <= n
    ensures starts[|starts| - 1].window == now.lastServedWindow
    ensures now.vramState == CountdownState(t, NextBlock(starts, n))
    ensures Running(t, HBlankMode) && NextBlock(starts, n) <= t.remainingBlocks
  {
  }

  lemma OpeningStart(now: ControllerState, restart: Option<nat>, n: nat, c: RuntimeContext)
    requires now.OpensBlock(c) && restart != Some(n)
    requires RestartLaw(restart, now.pendingRestart, n)
    requires RestartLaw(restart, now.AfterTick(c).0.pendingRestart, n + 1)
    requires now.AfterTick(c).0.lastServedWindow == c.Window()
    ensures StartOn(now, n, c) == [Start(n, Block(c.speed), c.Window())]
  {
    hide ControllerState.OpensBlock, ControllerState.AfterTick;
  }

  lemma OpeningState(
    t: VramTransfer, restart: Option<nat>, now: ControllerState, starts: seq<Start>, n: nat, c: RuntimeContext)
    requires Law(t, restart, now, starts, n) && now.OpensBlock(c)
    ensures Running(t, HBlankMode) && NextBlock(starts, n) < t.remainingBlocks
    ensures IsVramShaped(HdmaBlockForSpeed(t.Advance(NextBlock(starts, n)), c.speed))
    ensures var ready := Waited(now.AfterOpening(c));
      && ready.transferState == PhaseAfter(HdmaBlockForSpeed(t.Advance(NextBlock(starts, n)), c.speed), 0)
      && ready == ready.(transferState := ready.transferState)
      && ready.vramState == CountdownState(t, NextBlock(starts, n))
      && ready.pendingRestart == Waited(now).pendingRestart && ready.lastServedWindow == c.Window()
  {
    var q := NextBlock(starts, n);
    hide Running, NextBlock, SlotLaw, RestartLaw, PendingOk, RuntimeContext.Window;
    assert q < t.remainingBlocks;
    BlockShape(t, q, c.speed);
    hide VramTransfer.Advance, HdmaBlockForSpeed, IsVramShaped;
  }

  lemma OpenedLaw(
    t: VramTransfer, restart: Option<nat>, next: ControllerState, starts: seq<Start>, start: Start, n: nat)
    requires Running(t, HBlankMode) && NextBlock(starts, n) < t.remainingBlocks
    requires start.tick == n && start.occupant.Block?
    requires IsVramShaped(HdmaBlockForSpeed(t.Advance(NextBlock(starts, n)), start.occupant.speed))
    requires PendingOk(next.pendingRestart) && RestartLaw(restart, next.pendingRestart, n + 1)
    requires next.vramState == CountdownState(t, NextBlock(starts, n))
    requires next.transferState
          == PhaseAfter(HdmaBlockForSpeed(t.Advance(NextBlock(starts, n)), start.occupant.speed), 1)
    requires next.lastServedWindow == start.window
    ensures Law(t, restart, next, starts + [start], n + 1)
  {
    hide Running, VramTransfer.Advance, HdmaBlockForSpeed, IsVramShaped, PhaseAfter, CountdownState, NextBlock;
    hide RestartLaw, PendingOk;
    NextBlockOpened(starts, start, n);
  }

  lemma ExpectedMovesStep(t: VramTransfer, starts: seq<Start>, n: nat)
    requires starts != [] && LastIssued(starts, n) <= LastIssued(starts, n + 1)
    ensures var q := NextBlock(starts[..|starts| - 1], starts[|starts| - 1].tick);
      ExpectedMoves(t, starts, n + 1)
      == ExpectedMoves(t, starts, n)
         + Contiguous(t, 16 * q + LastIssued(starts, n), LastIssued(starts, n + 1) - LastIssued(starts, n))
  {
    hide Contiguous, NextBlock, LastIssued;
    var q := NextBlock(starts[..|starts| - 1], starts[|starts| - 1].tick);
    ContiguousSplit(t, 16 * q, LastIssued(starts, n), LastIssued(starts, n + 1) - LastIssued(starts, n));
  }

  lemma NothingStarts(now: ControllerState, restart: Option<nat>, n: nat, c: RuntimeContext)
    requires !now.OpensBlock(c) && restart != Some(n)
    requires RestartLaw(restart, now.pendingRestart, n)
    requires RestartLaw(restart, now.AfterTick(c).0.pendingRestart, n + 1)
    ensures StartOn(now, n, c) == []
  {
    hide ControllerState.OpensBlock, ControllerState.AfterTick;
  }

  /** A tick inside or after the last block. */
  lemma BlockTick(
    t: VramTransfer, restart: Option<nat>, now: ControllerState, starts: seq<Start>, n: nat, c: RuntimeContext)
    requires Law(t, restart, now, starts, n) && restart != Some(n) && !now.OpensBlock(c)
    requires starts[|starts| - 1].occupant.Block?
    ensures Law(t, restart, now.AfterTick(c).0, starts, n + 1)
    ensures LastIssued(starts, n) <= LastIssued(starts, n + 1)
    ensures var q := NextBlock(starts[..|starts| - 1], starts[|starts| - 1].tick);
      HdmaMove(now.AfterTick(c).1)
      == Contiguous(t, 16 * q + LastIssued(starts, n), LastIssued(starts, n + 1) - LastIssued(starts, n))
  {
    hide *;
    LawParts(t, restart, now, starts, n);
    var last, before := starts[|starts| - 1], starts[..|starts| - 1];
    BlockLaw(t, restart, now, starts, n);
    BlockMove(t, NextBlock(before, last.tick), last.occupant.speed, n - last.tick);
    BlockTickState(t, restart, now, starts, n, c);
  }

  lemma BlockLaw(t: VramTransfer, restart: Option<nat>, now: ControllerState, starts: seq<Start>, n: nat)
    requires Law(t, restart, now, starts, n) && starts[|starts| - 1].occupant.Block?
    ensures var last, before := starts[|starts| - 1], starts[..|starts| - 1];
      var speed := last.occupant.speed;
      && last.tick <= n && Running(t, HBlankMode)
      && NextBlock(before, last.tick) < t.remainingBlocks
      && LastIssued(starts, n) == Issued(speed, n - last.tick)
      && LastIssued(starts, n + 1) == Issued(speed, n + 1 - last.tick)
      && LastBlock(t, starts) == HdmaBlockForSpeed(t.Advance(NextBlock(before, last.tick)), speed)
      && IsVramShaped(LastBlock(t, starts))
      && now.transferState == PhaseAfter(LastBlock(t, starts), n - last.tick)
      && (forall m: int :: NextBlock(starts, m)
                           == NextBlock(before, last.tick) + if m >= last.tick + PublishDelay(speed) then 1 else 0)
  {
    hide Running, VramTransfer.Advance, HdmaBlockForSpeed, CountdownState, RestartLaw, PendingOk, IsVramShaped;
  }

  lemma BlockTickState(
    t: VramTransfer, restart: Option<nat>, now: ControllerState, starts: seq<Start>, n: nat, c: RuntimeContext)
    requires Law(t, restart, now, starts, n) && restart != Some(n) && !now.OpensBlock(c)
    requires starts[|starts| - 1].occupant.Block? && IsVramShaped(LastBlock(t, starts))
    ensures Law(t, restart, now.AfterTick(c).0, starts, n + 1)
    ensures var last := starts[|starts| - 1];
      now.AfterTick(c).1
      == WorkBetween(PhaseAfter(LastBlock(t, starts), n - last.tick),
                     PhaseAfter(LastBlock(t, starts), n + 1 - last.tick))
  {
    hide *;
    LawParts(t, restart, now, starts, n);
    var last, before := starts[|starts| - 1], starts[..|starts| - 1];
    var q, e := NextBlock(before, last.tick), n - last.tick;
    BlockLaw(t, restart, now, starts, n);
    TickCases(now, restart, n, c);
    NoOpening(now, c);
    BlockPhase(t, q, last.occupant.speed, e);
    BlockPhase(t, q, last.occupant.speed, e + 1);
    PhaseStep(LastBlock(t, starts), e);
    TransferTickOver(Waited(now), now.transferState, Hdma);
    CountdownStep(Waited(now), t, NextBlock(starts, n), NextBlock(starts, n + 1) - NextBlock(starts, n));
    BlockLawHolds(t, restart, now.AfterTick(c).0, starts, n + 1);
  }

  lemma NoOpening(now: ControllerState, c: RuntimeContext)
    requires !now.OpensBlock(c)
    ensures now.AfterOpening(c) == now
    ensures Waited(now).(transferState := now.transferState) == Waited(now)
    ensures Waited(now).vramState == now.vramState && Waited(now).lastServedWindow == now.lastServedWindow
  {
    hide ControllerState.OpensBlock;
  }

  lemma BlockLawHolds(t: VramTransfer, restart: Option<nat>, now: ControllerState, starts: seq<Start>, n: nat)
    requires Running(t, HBlankMode) && PendingOk(now.pendingRestart) && RestartLaw(restart, now.pendingRestart, n)
    requires NextBlock(starts, n) <= t.remainingBlocks && now.vramState == CountdownState(t, NextBlock(starts, n))
    requires starts != [] && starts[|starts| - 1].tick <= n && starts[|starts| - 1].occupant.Block?
    requires starts[|starts| - 1].window == now.lastServedWindow
    requires NextBlock(starts[..|starts| - 1], starts[|starts| - 1].tick) < t.remainingBlocks
    requires IsVramShaped(LastBlock(t, starts))
    requires now.transferState == PhaseAfter(LastBlock(t, starts), n - starts[|starts| - 1].tick)
    ensures Law(t, restart, now, starts, n)
  {
    hide Running, NextBlock, CountdownState, RestartLaw, PendingOk, PhaseAfter, LastBlock, IsVramShaped;
  }

  /** A tick of something else in the slot: OAM or GDMA work or none, no HDMA bytes, no HDMA progress. */
  lemma OtherTick(
    t: VramTransfer, restart: Option<nat>, now: ControllerState, starts: seq<Start>, n: nat, c: RuntimeContext)
    requires Law(t, restart, now, starts, n) && restart != Some(n) && !now.OpensBlock(c)
    requires starts[|starts| - 1].occupant.Other?
    ensures Law(t, restart, now.AfterTick(c).0, starts, n + 1)
    ensures HdmaMove(now.AfterTick(c).1) == []
  {
    hide *;
    LawParts(t, restart, now, starts, n);
    OtherLaw(t, restart, now, starts, n);
    TickCases(now, restart, n, c);
    NoOpening(now, c);
    NextPhaseOk(now.transferState);
    RemainingTicksPositive(now.transferState);
    OtherSlotTick(Waited(now), now.transferState);
    OtherLawHolds(t, restart, now.AfterTick(c).0, starts, n + 1);
  }

  lemma OtherLaw(t: VramTransfer, restart: Option<nat>, now: ControllerState, starts: seq<Start>, n: nat)
    requires Law(t, restart, now, starts, n) && starts[|starts| - 1].occupant.Other?
    ensures PhaseOk(now.transferState) && !BlockOutstanding(now.transferState)
    ensures RemainingTicks(now.transferState)
         == Max(0, starts[|starts| - 1].tick + starts[|starts| - 1].occupant.ticks - n)
    ensures Max(0, RemainingTicks(now.transferState) - 1)
         == Max(0, starts[|starts| - 1].tick + starts[|starts| - 1].occupant.ticks - (n + 1))
    ensures !now.vramState.GeneralPurposeActive?
    ensures NextBlock(starts, n + 1) == NextBlock(starts, n)
  {
    hide Running, RestartLaw, PendingOk, PhaseOk, BlockOutstanding, RemainingTicks, VramTransfer.Advance;
  }

  lemma OtherLawHolds(t: VramTransfer, restart: Option<nat>, now: ControllerState, starts: seq<Start>, n: nat)
    requires Running(t, HBlankMode) && PendingOk(now.pendingRestart) && RestartLaw(restart, now.pendingRestart, n)
    requires NextBlock(starts, n) <= t.remainingBlocks && now.vramState == CountdownState(t, NextBlock(starts, n))
    requires starts != [] && starts[|starts| - 1].tick <= n && starts[|starts| - 1].occupant.Other?
    requires starts[|starts| - 1].window == now.lastServedWindow
    requires PhaseOk(now.transferState) && !BlockOutstanding(now.transferState)
    requires RemainingTicks(now.transferState)
          == Max(0, starts[|starts| - 1].tick + starts[|starts| - 1].occupant.ticks - n)
    ensures Law(t, restart, now, starts, n)
  {
    hide Running, NextBlock, CountdownState, RestartLaw, PendingOk, PhaseOk, BlockOutstanding, RemainingTicks;
  }

  lemma OtherSlotTick(base: ControllerState, slot: TransferState)
    requires PhaseOk(slot) && !BlockOutstanding(slot) && base.(transferState := slot) == base
    requires !base.vramState.GeneralPurposeActive?
    ensures var (next, work) := base.AfterTransferTick();
      && next == base.(transferState := slot.Next())
      && !BlockOutstanding(slot.Next())
      && HdmaMove(work) == []
  {
    if !slot.Idle? {
      var kind := slot.progress.transfer.kind;
      NextPublishesForward(slot);
      if slot.HasKind(Hdma) {
        SettledBlockStays(slot);
      }
      TransferTickOver(base, slot, kind);
      hide PhaseOk, TransferState.Next, TransferState.Published, Progress.CompletedBytes;
    }
  }

  /** A published HDMA block stays where it is. */
  lemma SettledBlockStays(slot: TransferState)
    requires PhaseOk(slot) && !BlockOutstanding(slot) && slot.HasKind(Hdma)
    ensures slot.Next() == slot
  {
    var p := slot.progress;
    assert BlockCount(p.transfer) == 1;
    PublishedAtMostAll(p);
    StopsAtFinal(p.transfer);
    PublishedThreshold(p, 1);
  }

  lemma LatchedLaw(s: ControllerState)
    requires Latched(s)
    ensures Law(s.vramState.transfer, PlanOf(s).restart, s, [PlanOf(s).prior], 0)
    ensures ExpectedMoves(s.vramState.transfer, [PlanOf(s).prior], 0)
         == Contiguous(s.vramState.transfer, 0, AlreadyMoved(s))
  {
    var t, prior := s.vramState.transfer, PlanOf(s).prior;
    assert [prior][..0] == [];
    assert t.Advance(0) == t;
    RemainingTicksPositive(s.transferState);
    NoDelay();
    if BlockOutstanding(s.transferState) {
      OutstandingPhase(s);
      hide Issued, PhaseOk, TransferState.Published, VramTransfer.Advance, HdmaBlockForSpeed, PhaseAfter, IsVramShaped;
      assert s.transferState == PhaseAfter(LastBlock(t, [prior]), 0 - prior.tick);
    } else {
      hide Issued, PhaseOk, TransferState.Published, VramTransfer.Advance, HdmaBlockForSpeed, PhaseAfter, IsVramShaped;
    }
    assert NextBlock([prior], 0) == 0;
    assert SlotLaw(t, s.transferState, [prior], 0);
  }

  /** A block in progress is at the phase its counter shows. */
  lemma OutstandingPhase(s: ControllerState)
    requires Latched(s) && BlockOutstanding(s.transferState)
    ensures var t, p := s.vramState.transfer, s.transferState.progress;
      && p.transfer == HdmaBlockForSpeed(t.Advance(0), p.transfer.speed)
      && IsVramShaped(p.transfer)
      && s.transferState == PhaseAfter(p.transfer, p.elapsed)
      && p.elapsed < PublishDelay(p.transfer.speed)
  {
    var t, p := s.vramState.transfer, s.transferState.progress;
    assert t.Advance(0) == t;
    BlockShape(t, 0, p.transfer.speed);
    PublishedThreshold(p, 1);
    StopsAtFinal(p.transfer);
  }

  lemma RunEmpty(s: ControllerState, contexts: seq<RuntimeContext>)
    requires Latched(s) && contexts == []
    ensures Ticks(s, contexts) == s && HdmaMoves(s, contexts) == [] && Starts(s, contexts) == [PlanOf(s).prior]
  {
  }

  lemma RunUnfolds(s: ControllerState, contexts: seq<RuntimeContext>)
    requires Latched(s) && contexts != []
    ensures var n, c := |contexts| - 1, contexts[|contexts| - 1];
      var now := Ticks(s, contexts[..n]);
      && Ticks(s, contexts) == now.AfterTick(c).0
      && Starts(s, contexts) == Starts(s, contexts[..n]) + StartOn(now, n, c)
      && HdmaMoves(s, contexts) == HdmaMoves(s, contexts[..n]) + HdmaMove(now.AfterTick(c).1)
  {
    hide ControllerState.OpensBlock, ControllerState.AfterTick, HdmaMove, StartOn, PlanOf;
  }

  /** One tick: the slot changes hands as the schedule says, and what the tick moves is what the schedule expects. */
  lemma LawStep(
    t: VramTransfer, plan: Plan, now: ControllerState, starts: seq<Start>, n: nat, c: RuntimeContext)
    requires Law(t, plan.restart, now, starts, n) && plan.blocks == t.remainingBlocks
    ensures StartOn(now, n, c) == NewStart(plan, starts, n, c)
    ensures Law(t, plan.restart, now.AfterTick(c).0, starts + NewStart(plan, starts, n, c), n + 1)
    ensures ExpectedMoves(t, starts + NewStart(plan, starts, n, c), n + 1)
         == ExpectedMoves(t, starts, n) + HdmaMove(now.AfterTick(c).1)
  {
    hide *;
    LawParts(t, plan.restart, now, starts, n);
    OpensIffEligible(t, plan.restart, now, starts, n, c);
    NewStartCases(plan, starts, n, c);
    NoWorkMovesNothing();
    assert starts + [] == starts;
    if plan.restart == Some(n) {
      RestartingTick(t, plan.restart, now, starts, n, c);
      var window := if now.OpensBlock(c) then c.Window() else now.lastServedWindow;
      RestartTickIs(n, window);
      ExpectedMovesOpen(t, starts, RestartAt(n, window), n);
    } else if now.OpensBlock(c) {
      OpeningTick(t, plan.restart, now, starts, n, c);
      ExpectedMovesOpen(t, starts, Start(n, Block(c.speed), c.Window()), n);
    } else if starts[|starts| - 1].occupant.Block? {
      BlockTick(t, plan.restart, now, starts, n, c);
      LawParts(t, plan.restart, now.AfterTick(c).0, starts, n + 1);
      NothingStarts(now, plan.restart, n, c);
      ExpectedMovesStep(t, starts, n);
    } else {
      OtherTick(t, plan.restart, now, starts, n, c);
      LawParts(t, plan.restart, now.AfterTick(c).0, starts, n + 1);
      NothingStarts(now, plan.restart, n, c);
      OtherMovesNothing(t, starts, n);
    }
  }

  lemma NewStartCases(plan: Plan, starts: seq<Start>, n: nat, c: RuntimeContext)
    requires starts != []
    ensures NewStart(plan, starts, n, c)
         == if plan.restart == Some(n) then
              [RestartAt(n, if Eligible(plan.blocks, starts, n, c) then c.Window() else starts[|starts| - 1].window)]
            else if Eligible(plan.blocks, starts, n, c) then [Start(n, Block(c.speed), c.Window())]
            else []
  {
  }

  lemma NoWorkMovesNothing()
    ensures HdmaMove(None) == []
  {
  }

  lemma RestartTickIs(n: nat, window: HBlankWindow)
    ensures RestartAt(n, window).tick == n
  {
  }

  lemma OtherMovesNothing(t: VramTransfer, starts: seq<Start>, n: nat)
    requires starts != [] && starts[|starts| - 1].occupant.Other?
    ensures ExpectedMoves(t, starts, n + 1) == ExpectedMoves(t, starts, n)
  {
    hide Contiguous, NextBlock;
  }

  /** From any state with HDMA latched and in any video conditions, the slot goes to whom the schedule says, the
      state is where the schedule puts it, and the bytes moved, before and during the run, are the ones it calls for. */
  lemma {:induction false} HdmaRunLaw(s: ControllerState, contexts: seq<RuntimeContext>)
    requires Latched(s)
    ensures Starts(s, contexts) == Schedule(PlanOf(s), contexts)
    ensures Law(s.vramState.transfer, PlanOf(s).restart, Ticks(s, contexts), Schedule(PlanOf(s), contexts), |contexts|)
    ensures Contiguous(s.vramState.transfer, 0, AlreadyMoved(s)) + HdmaMoves(s, contexts)
         == ExpectedMoves(s.vramState.transfer, Schedule(PlanOf(s), contexts), |contexts|)
  {
    hide *;
    PlanBlocks(s);
    var t, plan := s.vramState.transfer, PlanOf(s);
    if contexts == [] {
      LatchedLaw(s);
      RunEmpty(s, contexts);
      ScheduleStarts(plan, contexts);
    } else {
      var n := |contexts| - 1;
      HdmaRunLaw(s, contexts[..n]);
      RunUnfolds(s, contexts);
      ScheduleExtends(plan, contexts);
      LawStep(t, plan, Ticks(s, contexts[..n]), Schedule(plan, contexts[..n]), n, contexts[n]);
    }
  }

  lemma PlanBlocks(s: ControllerState)
    requires Latched(s)
    ensures s.vramState.HBlankActive? && Running(s.vramState.transfer, HBlankMode)
    ensures PlanOf(s).blocks == s.vramState.transfer.remainingBlocks > 0
    ensures PlanOf(s).prior.window == s.lastServedWindow && PlanOf(s).prior.tick <= 0
  {
  }

  /** Blocks open only when the slot is free, in a window other than the last one served, while blocks are left. */
  lemma OpeningSeparates(s: ControllerState, contexts: seq<RuntimeContext>)
    requires Latched(s)
    ensures Ordered(s.vramState.transfer.remainingBlocks, Starts(s, contexts))
    ensures Starts(s, contexts) != [] && Starts(s, contexts)[0] == PlanOf(s).prior
  {
    hide *;
    PlanBlocks(s);
    HdmaRunLaw(s, contexts);
    ScheduleOrdered(PlanOf(s), contexts);
  }

  /** From any state with HDMA latched, the bytes moved are the request's remaining bytes, each once and in order,
      exactly when the schedule has no block issue a byte after an earlier one did and was displaced unpublished. */
  lemma ContiguousExactlyWithoutRepeats(s: ControllerState, contexts: seq<RuntimeContext>)
    requires Latched(s)
    ensures HdmaMoves(s, contexts) == Contiguous(s.vramState.transfer, AlreadyMoved(s), |HdmaMoves(s, contexts)|)
       <==> NoRepeats(Schedule(PlanOf(s), contexts), |contexts|)
  {
    hide *;
    PlanBlocks(s);
    HdmaRunLaw(s, contexts);
    ContiguousIffNoRepeats(s.vramState.transfer, Schedule(PlanOf(s), contexts), |contexts|);
    ContinuesIff(s.vramState.transfer, AlreadyMoved(s), HdmaMoves(s, contexts));
  }

  lemma ContinuesIff(t: VramTransfer, from: nat, moves: seq<ByteMove>)
    ensures var all := Contiguous(t, 0, from) + moves;
      all == Contiguous(t, 0, |all|) <==> moves == Contiguous(t, from, |moves|)
  {
    var all := Contiguous(t, 0, from) + moves;
    ContiguousLength(t, 0, from);
    ContiguousSplit(t, 0, from, |moves|);
    assert all[from..] == moves;
    assert (Contiguous(t, 0, from) + Contiguous(t, from, |moves|))[from..] == Contiguous(t, from, |moves|);
    hide Contiguous;
  }

  /** The early start is real: once the stall of a block is over and until its publication, any fresh window
      opens a block, and that block is the same one again. */
  lemma EarlyWindowRepeats(
    t: VramTransfer, restart: Option<nat>, now: ControllerState, starts: seq<Start>, n: nat, c: RuntimeContext)
    requires Law(t, restart, now, starts, n) && starts[|starts| - 1].occupant.Block?
    requires var last := starts[|starts| - 1];
      last.tick + BlockDuration(last.occupant.speed) <= n < last.tick + PublishDelay(last.occupant.speed)
    requires !c.cpuHalted && c.Window() != NoWindow && c.Window() != starts[|starts| - 1].window
    ensures now.OpensBlock(c)
    ensures NextBlock(starts, n) == NextBlock(starts[..|starts| - 1], starts[|starts| - 1].tick)
  {
    BlockLaw(t, restart, now, starts, n);
    OpensIffEligible(t, restart, now, starts, n, c);
    hide Law, NextBlock, RuntimeContext.Window, ControllerState.OpensBlock;
  }

  /** An HDMA5 write with bit 7 set latches HDMA, whatever else the controller is doing, and leaves that going on. */
  lemma Hdma5ArmsHdma(s: ControllerState, value: u8, speed: CgbSpeedMode)
    requires Inv(s) && !s.vramState.HBlankActive? && value >= 0x80
    ensures var armed := s.AfterHdma5(value, speed);
      && Latched(armed) && !BlockOutstanding(armed.transferState) && AlreadyMoved(armed) == 0
      && armed.transferState == s.transferState && armed.pendingRestart == s.pendingRestart
      && armed.lastServedWindow == NoWindow
      && armed.vramState.transfer.sourceStart == s.registers.SourceStart()
      && armed.vramState.transfer.destinationStart == s.registers.DestinationStart()
      && armed.vramState.transfer.remainingBlocks
         == Min(value % 0x80 + 1, (0xA000 - s.registers.DestinationStart()) / 0x10)
  {
    var armed := s.AfterHdma5(value, speed);
    LatchedRuns(s, HBlankMode, value);
    ArmedTransfer(s, value, speed);
    hide VramRegisters.SourceStart, VramRegisters.DestinationStart, ClipBlocks, TransferState.Published, Issued;
    assert !BlockOutstanding(s.transferState);
    assert Inv(armed) by {
      hide RegistersOk, PhaseOk, PendingOk, Running;
    }
  }

  lemma ArmedTransfer(s: ControllerState, value: u8, speed: CgbSpeedMode)
    requires !s.vramState.HBlankActive? && value >= 0x80
    ensures s.AfterHdma5(value, speed)
         == s.(vramState := HBlankActive(s.LatchedTransfer(HBlankMode, value)), lastServedWindow := NoWindow)
    ensures s.LatchedTransfer(HBlankMode, value)
         == VramTransfer(HBlankMode, s.registers.SourceStart(), s.registers.DestinationStart(),
                         s.LatchedTransfer(HBlankMode, value).remainingBlocks,
                         Min(value % 0x80 + 1, (0xA000 - s.registers.DestinationStart()) / 0x10))
  {
  }
}
