/** What every sequence of register writes and ticks keeps true of the DMA controller. */
module DmaInvariant {
  import opened Prelude
  import opened Hardware
  import opened DmaTransfers
  import opened Dma

  datatype Op =
    | Ff46(value: u8, speed: CgbSpeedMode)
    | Hdma1(value: u8)
    | Hdma2(value: u8)
    | Hdma3(value: u8)
    | Hdma4(value: u8)
    | Hdma5(value: u8, speed: CgbSpeedMode)
    | Startup(sourcePage: u8)
    | Tick(context: RuntimeContext)

  function Apply(s: ControllerState, op: Op): (ControllerState, Option<Work>) {
    match op
    case Ff46(value, speed) => (s.AfterFf46(value, speed), None)
    case Hdma1(value) => (s.(registers := s.registers.(sourceHigh := value)), None)
    case Hdma2(value) => (s.(registers := s.registers.(sourceLow := UpperNibble(value))), None)
    case Hdma3(value) => (s.(registers := s.registers.(destinationHigh := value % 0x20)), None)
    case Hdma4(value) => (s.(registers := s.registers.(destinationLow := UpperNibble(value))), None)
    case Hdma5(value, speed) => (s.AfterHdma5(value, speed), None)
    case Startup(page) => (s.AfterStartup(page), None)
    case Tick(context) => s.AfterTick(context)
  }

  function Run(s: ControllerState, ops: seq<Op>): ControllerState {
    if ops == [] then s else Apply(Run(s, ops[..|ops| - 1]), ops[|ops| - 1]).0
  }

  lemma RunOne(s: ControllerState, ops: seq<Op>, op: Op)
    ensures Run(s, ops + [op]) == Apply(Run(s, ops), op).0 && Run(s, []) == s
  {
    assert (ops + [op])[..|ops|] == ops;
    hide Apply;
  }

  ghost predicate RegistersOk(r: VramRegisters) {
    r.sourceLow % 0x10 == 0 && r.destinationLow % 0x10 == 0 && r.destinationHigh < 0x20
  }

  /** An active VRAM transfer: blocks left to copy, all of them inside VRAM. */
  ghost predicate Running(t: VramTransfer, mode: VramMode) {
    && t.mode == mode
    && 1 <= t.remainingBlocks <= t.totalBlocks <= 128
    && t.sourceStart % 0x10 == 0 && t.destinationStart % 0x10 == 0
    && 0x8000 <= t.destinationStart && DestinationEnd(t) <= 0xA000
  }

  ghost function DestinationEnd(t: VramTransfer): nat {
    t.destinationStart + 0x10 * t.remainingBlocks
  }

  ghost predicate VramOk(v: VramState) {
    match v
    case Inactive(low) => low < 0x80
    case GeneralPurposeActive(t) => Running(t, GeneralPurpose)
    case GeneralPurposeComplete(t) => t.remainingBlocks == 0
    case HBlankActive(t) => Running(t, HBlankMode)
  }

  ghost predicate TransferOk(t: Transfer) {
    if t.kind.Oam? then t == OamForSpeed(t.sourceStart / 0x100, t.speed)
    else
      && IsVramShaped(t)
      && t.region.VramRegion?
      && t.cpuImpact == (if t.kind.Gdma? then FullyStalledUntilDone else StalledPerBlock)
      && (t.kind.Hdma? ==> t.totalBytes == VRAM_BLOCK_BYTES)
      && 0x8000 <= t.destinationStart && t.destinationStart + t.totalBytes <= 0xA000
  }

  /** The elapsed count at which a completed transfer stops counting. */
  ghost function FinalElapsed(t: Transfer): int {
    if t.kind.Oam? then OAM_TOTAL_T_CYCLES
    else t.timing.totalTCycles - VRAM_CPU_RELEASE + VRAM_PUBLICATION
  }

  ghost predicate PhaseOk(t: TransferState) {
    match t
    case Idle => true
    case Starting(p) => TransferOk(p.transfer) && (p.elapsed == 0 || p.elapsed < p.transfer.timing.restrictionDelay)
    case Active(p) =>
      TransferOk(p.transfer) && 0 < p.elapsed && p.transfer.timing.restrictionDelay <= p.elapsed && !p.IsComplete()
    case Completed(p) => TransferOk(p.transfer) && p.IsComplete() && p.elapsed <= FinalElapsed(p.transfer)
  }

  ghost predicate PendingOk(pending: Option<Progress>) {
    pending.Some? ==>
      && pending.value.transfer.kind.Oam? && TransferOk(pending.value.transfer)
      && pending.value.elapsed < OAM_RESTRICTION_DELAY
  }

  /** An HDMA block whose publication is outstanding is the block that HDMA5 still reports first. */
  ghost predicate BlockLinked(s: ControllerState) {
    s.transferState.HasKind(Hdma) && s.transferState.Published() == 0 ==>
      && s.vramState.HBlankActive?
      && s.transferState.progress.transfer
         == HdmaBlockForSpeed(s.vramState.transfer, s.transferState.progress.transfer.speed)
  }

  ghost predicate Inv(s: ControllerState) {
    && RegistersOk(s.registers)
    && VramOk(s.vramState)
    && PhaseOk(s.transferState)
    && PendingOk(s.pendingRestart)
    && BlockLinked(s)
  }

  lemma InitialInv(model: ConsoleModel)
    ensures Inv(Initial(model))
  {
  }

  lemma LatchedRuns(s: ControllerState, mode: VramMode, value: u8)
    requires RegistersOk(s.registers)
    ensures Running(s.LatchedTransfer(mode, value), mode)
  {
  }

  lemma GdmaOk(t: VramTransfer, speed: CgbSpeedMode)
    requires Running(t, GeneralPurpose)
    ensures TransferOk(GdmaForSpeed(t, speed))
  {
  }

  lemma HdmaBlockOk(t: VramTransfer, speed: CgbSpeedMode)
    requires Running(t, HBlankMode)
    ensures TransferOk(HdmaBlockForSpeed(t, speed))
  {
  }

  /** Each tick of a well-formed transfer leaves it well-formed and never saturates the counter. */
  lemma NextPhaseOk(t: TransferState)
    requires PhaseOk(t)
    ensures PhaseOk(t.Next())
    ensures !t.Idle? ==> t.progress.elapsed < 0xFFFF
  {
    if !t.Idle? && !t.progress.transfer.kind.Oam? {
      var p := t.progress;
      var n := BlockCount(p.transfer);
      assert p.transfer.ReleaseTime(n) == FinalElapsed(p.transfer);
      PublishedThreshold(p, n);
      PublishedAtMostAll(p);
    }
  }

  lemma AdvanceRuns(t: VramTransfer, mode: VramMode, blocks: nat)
    requires Running(t, mode)
    ensures DestinationEnd(t.Advance(blocks)) == DestinationEnd(t)
    ensures blocks < t.remainingBlocks ==> Running(t.Advance(blocks), mode)
    ensures t.Advance(blocks).totalBlocks == t.totalBlocks
    ensures t.Advance(blocks).remainingBlocks == Max(0, t.remainingBlocks - blocks)
  {
    var done := Min(blocks, t.remainingBlocks);
    AlignedSum(t.sourceStart, done);
    AlignedSum(t.destinationStart, done);
    assert t.Advance(blocks).destinationStart == t.destinationStart + 0x10 * done;
  }

  lemma EndpointsOk(r: VramRegisters, source: u16, destination: u16)
    ensures RegistersOk(r.WithEndpoints(source, destination))
  {
    UpperNibbleAligned(source % 0x100);
    UpperNibbleAligned(destination % 0x100);
  }

  lemma PublishingInv(s: ControllerState, kind: TransferKind, blocks: nat)
    requires RegistersOk(s.registers) && VramOk(s.vramState)
    ensures RegistersOk(s.AfterPublishing(kind, blocks).registers)
    ensures VramOk(s.AfterPublishing(kind, blocks).vramState)
  {
    if s.vramState.IsActive() {
      var t := s.vramState.transfer;
      AdvanceRuns(t, t.mode, blocks);
      EndpointsOk(s.registers, t.Advance(blocks).sourceStart, t.Advance(blocks).destinationStart);
      hide RegistersOk, VramRegisters.WithEndpoints, VramTransfer.Advance, Running;
    }
  }

  lemma TransferTickInv(s: ControllerState)
    requires Inv(s)
    ensures Inv(s.AfterTransferTick().0)
  {
    hide *;
    InvParts(s);
    NextPhaseOk(s.transferState);
    TransferTickParts(s);
    LinkStays(s);
    InvHolds(s.AfterTransferTick().0);
  }

  lemma InvParts(s: ControllerState)
    requires Inv(s)
    ensures RegistersOk(s.registers) && VramOk(s.vramState) && PhaseOk(s.transferState) && PendingOk(s.pendingRestart)
    ensures BlockLinked(s)
  {
  }

  lemma InvHolds(s: ControllerState)
    requires RegistersOk(s.registers) && VramOk(s.vramState) && PhaseOk(s.transferState) && PendingOk(s.pendingRestart)
    requires BlockLinked(s)
    ensures Inv(s)
  {
  }

  lemma TransferTickParts(s: ControllerState)
    requires RegistersOk(s.registers) && VramOk(s.vramState)
    ensures var after := s.AfterTransferTick().0;
      && RegistersOk(after.registers) && VramOk(after.vramState)
      && after.transferState == s.transferState.Next() && after.pendingRestart == s.pendingRestart
  {
    var next := s.transferState.Next();
    NextPublishesForward(s.transferState);
    if !next.Idle? {
      PublishingInv(s.(transferState := next), next.progress.transfer.kind,
                    next.Published() - s.transferState.Published());
    }
    hide RegistersOk, VramOk, TransferState.Next, TransferState.Published, VramRegisters.WithEndpoints;
  }

  /** A block not yet published stays the one that HDMA5 reports first. */
  lemma LinkStays(s: ControllerState)
    requires BlockLinked(s)
    ensures BlockLinked(s.AfterTransferTick().0)
  {
    NextPublishesForward(s.transferState);
    assert s.transferState.Idle? ==> s.transferState.Next().Idle?;
    hide TransferState.Next, TransferState.Published, VramRegisters.WithEndpoints, VramTransfer.Advance;
    hide HdmaBlockForSpeed, WorkBetween;
  }

  lemma OpeningInv(s: ControllerState, context: RuntimeContext)
    requires Inv(s)
    ensures Inv(s.AfterOpening(context))
  {
    if s.OpensBlock(context) {
      HdmaBlockOk(s.vramState.transfer, context.speed);
    }
  }

  /** A restarted OAM transfer is well-formed for every page and model. */
  lemma RestartOk(s: ControllerState, value: u8, speed: CgbSpeedMode)
    ensures PendingOk(Some(s.OamRestart(value, speed)))
  {
  }

  lemma ApplyKeepsInv(s: ControllerState, op: Op)
    requires Inv(s)
    ensures Inv(Apply(s, op).0)
  {
    match op {
      case Hdma5(value, speed) => Hdma5KeepsInv(s, value, speed);
      case Tick(context) => TickKeepsInv(s, context);
      case Ff46(value, speed) => Ff46KeepsInv(s, value, speed);
      case _ => RegisterWriteKeepsInv(s, op);
    }
    hide *;
    ApplyCases(s, op);
  }

  lemma ApplyCases(s: ControllerState, op: Op)
    ensures op.Tick? ==> Apply(s, op).0 == s.AfterTick(op.context).0
    ensures op.Ff46? ==> Apply(s, op).0 == s.AfterFf46(op.value, op.speed)
    ensures op.Hdma5? ==> Apply(s, op).0 == s.AfterHdma5(op.value, op.speed)
  {
  }

  lemma RegisterWriteKeepsInv(s: ControllerState, op: Op)
    requires Inv(s) && !op.Tick? && !op.Hdma5? && !op.Ff46?
    ensures Inv(Apply(s, op).0)
  {
    hide TransferOk, Running, TransferState.Published;
  }

  lemma Ff46KeepsInv(s: ControllerState, value: u8, speed: CgbSpeedMode)
    requires Inv(s)
    ensures Inv(s.AfterFf46(value, speed))
  {
    RestartOk(s, value, speed);
    hide RegistersOk, VramOk, Running;
  }

  lemma Hdma5KeepsInv(s: ControllerState, value: u8, speed: CgbSpeedMode)
    requires Inv(s)
    ensures Inv(s.AfterHdma5(value, speed))
  {
    LatchedRuns(s, GeneralPurpose, value);
    LatchedRuns(s, HBlankMode, value);
    GdmaOk(s.LatchedTransfer(GeneralPurpose, value), speed);
    hide RegistersOk, Running, TransferOk, PendingOk, ControllerState.LatchedTransfer;
  }

  lemma TickKeepsInv(s: ControllerState, context: RuntimeContext)
    requires Inv(s)
    ensures Inv(s.AfterTick(context).0)
  {
    OpeningInv(s, context);
    var ready := s.AfterOpening(context);
    if ready.pendingRestart.None? {
      TransferTickInv(ready);
    } else {
      var restart := ready.pendingRestart.value.Advance();
      InvParts(ready);
      if restart.RestrictionActive() {
        RestartTakesOver(ready);
      } else {
        RestartWaits(ready);
        TransferTickInv(ready.(pendingRestart := Some(restart)));
      }
    }
    hide Inv, ControllerState.AfterTransferTick, ControllerState.AfterOpening;
  }

  lemma RestartTakesOver(s: ControllerState)
    requires Inv(s) && s.pendingRestart.Some? && s.pendingRestart.value.Advance().RestrictionActive()
    ensures Inv(s.(pendingRestart := None, transferState := Active(s.pendingRestart.value.Advance())))
  {
    hide RegistersOk, VramOk;
  }

  lemma RestartWaits(s: ControllerState)
    requires Inv(s) && s.pendingRestart.Some? && !s.pendingRestart.value.Advance().RestrictionActive()
    ensures Inv(s.(pendingRestart := Some(s.pendingRestart.value.Advance())))
  {
    hide RegistersOk, VramOk, PhaseOk, BlockLinked;
    assert BlockLinked(s.(pendingRestart := Some(s.pendingRestart.value.Advance()))) by {
      SameLink(s, s.(pendingRestart := Some(s.pendingRestart.value.Advance())));
    }
  }

  lemma SameLink(a: ControllerState, b: ControllerState)
    requires BlockLinked(a) && a.transferState == b.transferState && a.vramState == b.vramState
    ensures BlockLinked(b)
  {
  }

  /** The invariant holds in every state a run from power-on reaches. */
  lemma {:induction false} RunKeepsInv(model: ConsoleModel, ops: seq<Op>)
    ensures Inv(Run(Initial(model), ops))
  {
    if ops == [] {
      InitialInv(model);
    } else {
      RunKeepsInv(model, ops[..|ops| - 1]);
      ApplyKeepsInv(Run(Initial(model), ops[..|ops| - 1]), ops[|ops| - 1]);
    }
  }

  /** Where a work may read and write, by kind. */
  ghost predicate WorkSafe(w: Work) {
    && w.byteIndex < w.transfer.totalBytes
    && w.Destination() == w.transfer.destinationStart + w.byteIndex
    && if w.transfer.kind.Oam? then 0xFE00 <= w.Destination() <= 0xFE9F && w.Source() < 0xE000
       else 0x8000 <= w.Destination() <= 0x9FFF
  }

  lemma TransferTickWorkSafe(s: ControllerState)
    requires Inv(s)
    ensures s.AfterTransferTick().1.Some? ==> WorkSafe(s.AfterTransferTick().1.value)
  {
    NextPublishesForward(s.transferState);
    hide TransferState.Published, ControllerState.AfterPublishing;
  }

  /** Every byte any run emits lands in VRAM or OAM according to its kind, and OAM sources avoid echo RAM. */
  lemma RunWorksSafe(model: ConsoleModel, ops: seq<Op>, context: RuntimeContext)
    ensures var work := Run(Initial(model), ops).AfterTick(context).1;
            work.Some? ==> WorkSafe(work.value)
  {
    var s := Run(Initial(model), ops);
    RunKeepsInv(model, ops);
    OpeningInv(s, context);
    var ready := s.AfterOpening(context);
    if ready.pendingRestart.None? {
      TransferTickWorkSafe(ready);
    } else {
      var restart := ready.pendingRestart.value.Advance();
      if !restart.RestrictionActive() {
        TransferTickWorkSafe(ready.(pendingRestart := Some(restart)));
      }
    }
  }

  /** The same region is being filled, with no more left to do than before. */
  ghost predicate SameRegion(v: VramState, w: VramState) {
    v.IsActive() && w.IsActive() ==>
      && DestinationEnd(w.transfer) == DestinationEnd(v.transfer)
      && w.transfer.totalBlocks == v.transfer.totalBlocks
      && w.transfer.remainingBlocks <= v.transfer.remainingBlocks
  }

  lemma PublishingKeepsRegion(s: ControllerState, kind: TransferKind, blocks: nat)
    requires VramOk(s.vramState)
    ensures SameRegion(s.vramState, s.AfterPublishing(kind, blocks).vramState)
  {
    if s.vramState.IsActive() {
      AdvanceRuns(s.vramState.transfer, s.vramState.transfer.mode, blocks);
    }
  }

  /** A tick never moves the end of the region an active VRAM transfer is filling, and never adds blocks. */
  lemma TickKeepsRegion(s: ControllerState, context: RuntimeContext)
    requires Inv(s)
    ensures SameRegion(s.vramState, s.AfterTick(context).0.vramState)
  {
    var ready := s.AfterOpening(context);
    NextPublishesForward(ready.transferState);
    forall base: ControllerState, kind: TransferKind, blocks: nat | base.vramState == s.vramState
      ensures SameRegion(s.vramState, base.AfterPublishing(kind, blocks).vramState)
    {
      PublishingKeepsRegion(base, kind, blocks);
    }
  }

  /** In every state the invariant allows, the CPU is stalled exactly when VRAM DMA holds the video bus. */
  lemma StallIsVideoBlock(s: ControllerState)
    requires Inv(s)
    ensures s.CpuStall() <==> s.Bus() == BusState(VideoBusBlocked, Some(VramRegion), None)
  {
  }
}
