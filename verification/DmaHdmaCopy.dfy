/** What an HDMA run leaves in memory and in HDMA5, and the runs that carry the whole request through. */
module DmaHdmaCopy {
  import opened Prelude
  import opened Hardware
  import opened DmaTransfers
  import opened Dma
  import opened DmaInvariant
  import opened DmaRuns
  import opened DmaVramPhases
  import opened DmaHdmaSchedule
  import opened DmaHdmaWindows
  import opened DmaHdmaRun

  function ExecuteMove(memory: Memory, move: ByteMove): Memory {
    memory[move.destination :=
      if VramSourceSupported(move.source) then memory[move.source] else INVALID_SOURCE_READ_VALUE]
  }

  function ExecuteMoves(memory: Memory, moves: seq<ByteMove>): Memory {
    if moves == [] then memory else ExecuteMove(ExecuteMoves(memory, moves[..|moves| - 1]), moves[|moves| - 1])
  }

  /** Moving bytes `from` to `from + count` carries a one-shot copy that far forward. */
  lemma {:induction false} MovesCopy(t: VramTransfer, memory: Memory, from: nat, count: nat)
    requires Running(t, HBlankMode) && from + count <= 16 * t.remainingBlocks
    ensures ExecuteMoves(Copied(memory, GdmaForSpeed(t, Normal), from), Contiguous(t, from, count))
         == Copied(memory, GdmaForSpeed(t, Normal), from + count)
  {
    hide *;
    RequestShape(t);
    var whole := GdmaForSpeed(t, Normal);
    if count == 0 {
      NothingMoved(t, from);
      NothingExecuted(Copied(memory, whole, from));
    } else {
      MovesCopy(t, memory, from, count - 1);
      ExecuteExtendsCopy(memory, whole, from + count - 1);
      MoveIsWork(Copied(memory, whole, from + count - 1), t, from + count - 1);
      ExecuteMovesUnfolds(Copied(memory, whole, from), t, from, count);
    }
  }

  lemma RequestShape(t: VramTransfer)
    requires Running(t, HBlankMode)
    ensures var whole := GdmaForSpeed(t, Normal);
      && whole.totalBytes == 16 * t.remainingBlocks && !whole.kind.Oam?
      && whole.destinationStart == t.destinationStart && whole.sourceStart == t.sourceStart
      && 0x8000 <= whole.destinationStart && whole.destinationStart + whole.totalBytes <= 0xA000
  {
  }

  lemma NothingExecuted(memory: Memory)
    ensures ExecuteMoves(memory, []) == memory
  {
  }

  lemma MoveIsWork(memory: Memory, t: VramTransfer, k: nat)
    ensures ExecuteMove(memory, MoveAt(t, k)) == ExecuteOne(memory, Some(Work(GdmaForSpeed(t, Normal), k)))
  {
  }

  lemma ExecuteMovesUnfolds(memory: Memory, t: VramTransfer, from: nat, count: pos)
    ensures ExecuteMoves(memory, Contiguous(t, from, count))
         == ExecuteMove(ExecuteMoves(memory, Contiguous(t, from, count - 1)), MoveAt(t, from + count - 1))
  {
    assert Contiguous(t, from, count)[..count - 1] == Contiguous(t, from, count - 1);
  }

  /** Equal everywhere except in object attribute memory. */
  ghost predicate SameOutsideOam(a: Memory, b: Memory) {
    forall i: nat :: i < 0xFE00 || 0xFE9F < i < 0x1_0000 ==> a[i] == b[i]
  }

  /** No general-purpose transfer has bytes left to move. */
  ghost predicate NoGdmaInFlight(s: ControllerState) {
    s.transferState.HasKind(Gdma) ==> !s.transferState.InFlight()
  }

  lemma TickKeepsNoGdma(s: ControllerState, c: RuntimeContext)
    requires Inv(s) && NoGdmaInFlight(s) && !s.vramState.GeneralPurposeActive?
    ensures Inv(s.AfterTick(c).0)
    ensures NoGdmaInFlight(s.AfterTick(c).0) && !s.AfterTick(c).0.vramState.GeneralPurposeActive?
    ensures var work := s.AfterTick(c).1;
      work.Some? ==> WorkSafe(work.value) && !work.value.transfer.kind.Gdma?
  {
    ApplyKeepsInv(s, Tick(c));
    OpeningInv(s, c);
    var ready := s.AfterOpening(c);
    assert NoGdmaInFlight(ready);
    if ready.pendingRestart.None? {
      TransferTickNoGdma(ready);
    } else {
      var restart := ready.pendingRestart.value.Advance();
      if !restart.RestrictionActive() {
        TransferTickNoGdma(ready.(pendingRestart := Some(restart)));
      }
    }
    hide Inv, ControllerState.OpensBlock, ControllerState.AfterTransferTick, WorkSafe;
  }

  lemma TransferTickNoGdma(s: ControllerState)
    requires Inv(s) && NoGdmaInFlight(s) && !s.vramState.GeneralPurposeActive?
    ensures NoGdmaInFlight(s.AfterTransferTick().0) && !s.AfterTransferTick().0.vramState.GeneralPurposeActive?
    ensures var work := s.AfterTransferTick().1;
      work.Some? ==> WorkSafe(work.value) && !work.value.transfer.kind.Gdma?
  {
    TransferTickWorkSafe(s);
    NextPublishesForward(s.transferState);
    if s.transferState.HasKind(Gdma) {
      StopsAtFinal(s.transferState.progress.transfer);
    }
    hide WorkSafe, VramTransfer.Advance, VramRegisters.WithEndpoints, Progress.PublishedBlocks, Progress.CompletedBytes;
  }

  lemma OneWorkAsMove(a: Memory, b: Memory, work: Option<Work>)
    requires SameOutsideOam(a, b)
    requires work.Some? ==> WorkSafe(work.value) && !work.value.transfer.kind.Gdma?
    ensures SameOutsideOam(ExecuteOne(a, work), ExecuteMoves(b, HdmaMove(work)))
  {
    hide Work.Destination, Work.Source;
    if work.Some? && work.value.transfer.kind.Hdma? {
      var move := ByteMove(work.value.Source(), work.value.Destination());
      assert [move][..0] == [];
      assert ExecuteMoves(b, HdmaMove(work)) == ExecuteMove(b, move);
    }
  }

  lemma {:induction false} ExecuteMovesAppend(memory: Memory, a: seq<ByteMove>, b: seq<ByteMove>)
    ensures ExecuteMoves(memory, a + b) == ExecuteMoves(ExecuteMoves(memory, a), b)
  {
    if b == [] {
      assert a + b == a;
    } else {
      var m := |b| - 1;
      assert (a + b)[..|a| + m] == a + b[..m];
      ExecuteMovesAppend(memory, a, b[..m]);
      hide ExecuteMove;
    }
  }

  /** Executing everything the controller issues changes memory, OAM aside, as the HDMA moves alone do. */
  lemma {:induction false} RunExecutesMoves(s: ControllerState, contexts: seq<RuntimeContext>, memory: Memory)
    requires Inv(s) && NoGdmaInFlight(s) && !s.vramState.GeneralPurposeActive?
    ensures var now := Ticks(s, contexts);
      Inv(now) && NoGdmaInFlight(now) && !now.vramState.GeneralPurposeActive?
    ensures SameOutsideOam(Execute(memory, TickWorks(s, contexts)), ExecuteMoves(memory, HdmaMoves(s, contexts)))
  {
    if contexts == [] {
      hide Inv, NoGdmaInFlight;
    } else {
      hide *;
      var n := |contexts| - 1;
      RunExecutesMoves(s, contexts[..n], memory);
      RunExtends(s, contexts);
      MovesExtend(s, contexts);
      var now := Ticks(s, contexts[..n]);
      var work := now.AfterTick(contexts[n]).1;
      var moves := HdmaMoves(s, contexts[..n]);
      TickKeepsNoGdma(now, contexts[n]);
      ExecuteExtends(memory, TickWorks(s, contexts[..n]), work);
      ExecuteMovesAppend(memory, moves, HdmaMove(work));
      OneWorkAsMove(Execute(memory, TickWorks(s, contexts[..n])), ExecuteMoves(memory, moves), work);
    }
  }

  lemma MovesExtend(s: ControllerState, contexts: seq<RuntimeContext>)
    requires contexts != []
    ensures var n := |contexts| - 1;
      HdmaMoves(s, contexts)
      == HdmaMoves(s, contexts[..n]) + HdmaMove(Ticks(s, contexts[..n]).AfterTick(contexts[n]).1)
  {
  }

  lemma ExecuteExtends(memory: Memory, works: seq<Option<Work>>, work: Option<Work>)
    ensures Execute(memory, works + [work]) == ExecuteOne(Execute(memory, works), work)
  {
    assert (works + [work])[..|works|] == works;
    hide ExecuteOne;
  }

  /** From any state with HDMA latched, repeats or not, HDMA5 counts down the blocks that the schedule publishes, and
      the request is inactive, with HDMA5 reading 0xFF, exactly when it has published them all. */
  lemma HdmaCountsDown(s: ControllerState, contexts: seq<RuntimeContext>)
    requires Latched(s)
    ensures
      var t, now := s.vramState.transfer, Ticks(s, contexts);
      var published := NextBlock(Schedule(PlanOf(s), contexts), |contexts|);
      && published <= t.remainingBlocks
      && now.vramState.ReadHdma5()
         == (if published == t.remainingBlocks then 0xFF else t.remainingBlocks - 1 - published)
      && (now.vramState.ReadHdma5() == 0xFF <==> published == t.remainingBlocks)
      && (now.vramState.Inactive? <==> published == t.remainingBlocks)
  {
    hide *;
    PlanBlocks(s);
    var t, starts, n := s.vramState.transfer, Schedule(PlanOf(s), contexts), |contexts|;
    HdmaRunLaw(s, contexts);
    LawParts(t, PlanOf(s).restart, Ticks(s, contexts), starts, n);
    CountdownReads(t, NextBlock(starts, n));
  }

  /** Without repeats, from any state with HDMA latched: HDMA5 counts the published blocks down, and the bytes moved,
      with those of a block already in progress, go up to the published blocks or into the next one. Once HDMA5 reads
      0xFF the request is inactive and every byte of it has been moved, once and in order. */
  lemma HdmaConservation(s: ControllerState, contexts: seq<RuntimeContext>)
    requires Latched(s) && NoRepeats(Schedule(PlanOf(s), contexts), |contexts|)
    ensures
      var t, now, moves, from := s.vramState.transfer, Ticks(s, contexts), HdmaMoves(s, contexts), AlreadyMoved(s);
      var published := NextBlock(Schedule(PlanOf(s), contexts), |contexts|);
      && moves == Contiguous(t, from, |moves|)
      && published <= t.remainingBlocks
      && 16 * published <= from + |moves| <= 16 * published + 16 && from + |moves| <= 16 * t.remainingBlocks
      && now.vramState.ReadHdma5()
         == (if published == t.remainingBlocks then 0xFF else t.remainingBlocks - 1 - published)
      && (now.vramState.ReadHdma5() == 0xFF ==> now.vramState.Inactive? && from + |moves| == 16 * t.remainingBlocks)
  {
    hide *;
    PlanBlocks(s);
    var t, starts, n := s.vramState.transfer, Schedule(PlanOf(s), contexts), |contexts|;
    HdmaRunLaw(s, contexts);
    ContiguousExactlyWithoutRepeats(s, contexts);
    HdmaCountsDown(s, contexts);
    CleanMoves(t, starts, n);
    ContiguousLength(t, 0, Position(starts, n));
    ContiguousLength(t, 0, AlreadyMoved(s));
    PositionByBlocks(starts, n);
    ScheduleOrdered(PlanOf(s), contexts);
    PositionInRequest(t.remainingBlocks, starts, n);
  }

  lemma CountdownReads(t: VramTransfer, published: nat)
    requires Running(t, HBlankMode) && published <= t.remainingBlocks
    ensures CountdownState(t, published).ReadHdma5()
         == (if published == t.remainingBlocks then 0xFF else t.remainingBlocks - 1 - published)
    ensures CountdownState(t, published).ReadHdma5() == 0xFF <==> published == t.remainingBlocks
    ensures CountdownState(t, published).Inactive? <==> published == t.remainingBlocks
  {
    AdvanceRemaining(t, published);
    hide VramTransfer.Advance;
  }

  /** Without repeats and with no general-purpose transfer in flight, executing all the works of the run leaves the
      one-shot copy of what has been moved, and the rest of memory as it was, OAM aside. */
  lemma HdmaMemory(s: ControllerState, contexts: seq<RuntimeContext>, memory: Memory)
    requires Latched(s) && NoRepeats(Schedule(PlanOf(s), contexts), |contexts|) && NoGdmaInFlight(s)
    ensures
      var t, from := s.vramState.transfer, AlreadyMoved(s);
      var request, moved := GdmaForSpeed(t, Normal), from + |HdmaMoves(s, contexts)|;
      && t.destinationStart + moved <= 0xA000 && from <= moved
      && SameOutsideOam(Execute(Copied(memory, request, from), TickWorks(s, contexts)), Copied(memory, request, moved))
  {
    hide *;
    PlanBlocks(s);
    LatchedInv(s);
    var t, from, moves := s.vramState.transfer, AlreadyMoved(s), HdmaMoves(s, contexts);
    RequestShape(t);
    HdmaConservation(s, contexts);
    MovesCopy(t, memory, from, |moves|);
    RunExecutesMoves(s, contexts, Copied(memory, GdmaForSpeed(t, Normal), from));
  }

  lemma LatchedInv(s: ControllerState)
    requires Latched(s)
    ensures Inv(s) && !s.vramState.GeneralPurposeActive?
  {
  }

  /** Whenever every block the schedule opens is published before the slot goes to the next occupant, the request is
      inactive, with HDMA5 reading 0xFF and all its bytes moved once and in order, exactly when as many blocks have
      opened as were asked for and the last one has been there for 44 or 76 ticks. */
  lemma ScheduledBlocksComplete(s: ControllerState, contexts: seq<RuntimeContext>)
    requires Latched(s) && Spaced(Schedule(PlanOf(s), contexts))
    ensures NoRepeats(Schedule(PlanOf(s), contexts), |contexts|)
    ensures
      var t, now, moves := s.vramState.transfer, Ticks(s, contexts), HdmaMoves(s, contexts);
      var starts := Schedule(PlanOf(s), contexts);
      var last := starts[|starts| - 1];
      var complete := BlockStarts(starts) == t.remainingBlocks
        && (last.occupant.Block? ==> |contexts| >= last.tick + last.occupant.Settled());
      && BlockStarts(starts) <= t.remainingBlocks
      && (now.vramState.Inactive? <==> complete) && (now.vramState.ReadHdma5() == 0xFF <==> complete)
      && (complete ==> AlreadyMoved(s) + |moves| == 16 * t.remainingBlocks)
      && moves == Contiguous(t, AlreadyMoved(s), |moves|)
  {
    hide *;
    PlanBlocks(s);
    var plan, n := PlanOf(s), |contexts|;
    var starts := Schedule(plan, contexts);
    ScheduleOrdered(plan, contexts);
    SpacedHasNoRepeats(starts, n);
    HdmaCountsDown(s, contexts);
    HdmaConservation(s, contexts);
    PublishedWhenServed(plan, starts, n);
  }

  /** The same from the video conditions directly. With the windows met once the slot is free far enough apart, they are
      served one by one, a block each, until none is wanted; the request is complete exactly from the tick on which the
      last block wanted has been there for 44 or 76 ticks. */
  lemma SpacedWindowsComplete(s: ControllerState, contexts: seq<RuntimeContext>)
    requires Latched(s) && WellSpaced(PlanOf(s), contexts)
    ensures PlanOf(s).blocks > 0 && Starts(s, contexts) == Served(PlanOf(s), contexts)
    ensures NoRepeats(Schedule(PlanOf(s), contexts), |contexts|)
    ensures
      var t, now, moves := s.vramState.transfer, Ticks(s, contexts), HdmaMoves(s, contexts);
      var windows, wanted := Windows(PlanOf(s), contexts), Wanted(PlanOf(s));
      var complete := |windows| >= wanted && |contexts| >= CompletionTick(PlanOf(s), windows);
      && (now.vramState.Inactive? <==> complete) && (now.vramState.ReadHdma5() == 0xFF <==> complete)
      && (complete ==> AlreadyMoved(s) + |moves| == 16 * t.remainingBlocks)
      && moves == Contiguous(t, AlreadyMoved(s), |moves|)
  {
    hide *;
    PlanBlocks(s);
    var plan, n := PlanOf(s), |contexts|;
    ScheduleOfSpaced(plan, contexts);
    ServedFacts(plan, contexts);
    HdmaRunLaw(s, contexts);
    SpacedHasNoRepeats(Served(plan, contexts), n);
    HdmaConservation(s, contexts);
    HdmaCountsDown(s, contexts);
    PublishedWhenComplete(plan, contexts);
  }

  /** The tick from which the slot is free for HDMA: when the transfer in it is over or, with a restart pending, when
      the restarted transfer is. */
  ghost function SlotFreeFrom(s: ControllerState): int {
    if s.pendingRestart.None? then RemainingTicks(s.transferState)
    else OAM_TOTAL_T_CYCLES - s.pendingRestart.value.elapsed
  }

  /** The windows of a run after an HDMA5 write, from the tick on which the slot is free. */
  ghost function WindowsAfter(s: ControllerState, contexts: seq<RuntimeContext>): seq<Start> {
    Fresh(NoWindow, SlotFreeFrom(s), contexts)
  }

  /** Should the transfer in the slot be over before a pending restart takes the slot, no window shows in between. */
  ghost predicate NoWindowBeforeRestart(s: ControllerState, contexts: seq<RuntimeContext>) {
    s.pendingRestart.Some? ==>
      forall n: nat | n < |contexts|
        && RemainingTicks(s.transferState) <= n < OAM_RESTRICTION_DELAY - s.pendingRestart.value.elapsed ::
        contexts[n].cpuHalted || contexts[n].Window() == NoWindow
  }

  /** The whole claim about one HDMA request, from its HDMA5 write on, with any transfer in flight at any point and
      with or without a pending restart: given windows 44 or 76 ticks apart once the slot is free, it ends on the tick
      that the windows determine with all its bytes moved, and, unless a general-purpose transfer was in flight, with
      memory as one general-purpose transfer of the request would leave it. */
  lemma HdmaRefinesBlockCopy(
    s: ControllerState, value: u8, speed: CgbSpeedMode, contexts: seq<RuntimeContext>, memory: Memory)
    requires Inv(s) && !s.vramState.HBlankActive? && value >= 0x80
    requires Spaced(WindowsAfter(s, contexts)) && NoWindowBeforeRestart(s, contexts)
    ensures
      var armed := s.AfterHdma5(value, speed);
      var blocks := Min(value % 0x80 + 1, (0xA000 - s.registers.DestinationStart()) / 0x10);
      var windows, now := WindowsAfter(s, contexts), Ticks(armed, contexts);
      var complete :=
        |windows| >= blocks && |contexts| >= windows[blocks - 1].tick + windows[blocks - 1].occupant.Settled();
      && blocks > 0 && armed.vramState.HBlankActive?
      && var t := armed.vramState.transfer;
      && t.destinationStart + 16 * blocks <= 0xA000
      && t.sourceStart == s.registers.SourceStart() && t.destinationStart == s.registers.DestinationStart()
      && (now.vramState.Inactive? <==> complete) && (now.vramState.ReadHdma5() == 0xFF <==> complete)
      && (complete ==> HdmaMoves(armed, contexts) == Contiguous(t, 0, 16 * blocks))
      && (complete && NoGdmaInFlight(s) ==>
            SameOutsideOam(Execute(memory, TickWorks(armed, contexts)),
                           Copied(memory, GdmaForSpeed(t, Normal), 16 * blocks)))
  {
    hide *;
    var armed := s.AfterHdma5(value, speed);
    Hdma5ArmsHdma(s, value, speed);
    PlanBlocks(armed);
    ArmedPlan(armed, s, contexts);
    SpacedWindowsComplete(armed, contexts);
    ArmedCompletion(armed, WindowsAfter(s, contexts));
    if NoGdmaInFlight(s) {
      ArmedFacts(armed, s);
      HdmaMemory(armed, contexts, memory);
    }
    NothingCopied(memory, GdmaForSpeed(armed.vramState.transfer, Normal));
    RequestShape(armed.vramState.transfer);
  }

  /** The hypotheses of the run theorem, read off the state before the HDMA5 write. */
  lemma ArmedPlan(armed: ControllerState, s: ControllerState, contexts: seq<RuntimeContext>)
    requires Latched(armed) && !BlockOutstanding(armed.transferState) && armed.lastServedWindow == NoWindow
    requires armed.transferState == s.transferState && armed.pendingRestart == s.pendingRestart
    requires Spaced(WindowsAfter(s, contexts)) && NoWindowBeforeRestart(s, contexts)
    ensures WellSpaced(PlanOf(armed), contexts)
    ensures Windows(PlanOf(armed), contexts) == WindowsAfter(s, contexts)
  {
    var plan := PlanOf(armed);
    assert FreeFrom(plan) == SlotFreeFrom(s) && plan.prior.occupant == Other(RemainingTicks(s.transferState));
    hide Inv, Fresh, RemainingTicks, RuntimeContext.Window;
    SpacedAfterOthers(Base(plan), WindowsAfter(s, contexts));
  }

  lemma ArmedFacts(armed: ControllerState, s: ControllerState)
    requires armed.transferState == s.transferState && NoGdmaInFlight(s)
    ensures NoGdmaInFlight(armed)
  {
  }

  /** With no block in progress, all the blocks of the request are wanted. */
  lemma ArmedCompletion(armed: ControllerState, windows: seq<Start>)
    requires Latched(armed) && !BlockOutstanding(armed.transferState) && PlanOf(armed).blocks > 0
    ensures var blocks := armed.vramState.transfer.remainingBlocks;
      && Wanted(PlanOf(armed)) == blocks
      && (|windows| >= blocks ==>
            CompletionTick(PlanOf(armed), windows) == windows[blocks - 1].tick + windows[blocks - 1].occupant.Settled())
  {
    hide Inv, Occupant.Settled;
  }

  lemma NothingCopied(memory: Memory, transfer: Transfer)
    requires transfer.destinationStart + 0 <= 0x1_0000
    ensures Copied(memory, transfer, 0) == memory
  {
  }
}
