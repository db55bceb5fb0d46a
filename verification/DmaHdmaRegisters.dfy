/** What HDMA shows in its registers: the endpoints follow publication, and an HDMA5 write while HDMA is active either
    stops it or changes nothing. */
module DmaHdmaRegisters {
  import opened Prelude
  import opened Hardware
  import opened DmaTransfers
  import opened Dma
  import opened DmaInvariant
  import opened DmaRuns
  import opened DmaOamRun
  import opened DmaHdmaSchedule
  import opened DmaHdmaRun
  import opened DmaHdmaCopy

  /** Blocks an HDMA request still has to publish. */
  function BlocksLeft(v: VramState): nat {
    if v.HBlankActive? then v.transfer.remainingBlocks else 0
  }

  /** A tick moves the endpoint registers exactly when it publishes, and then on to the blocks left. */
  lemma TickRegisters(now: ControllerState, c: RuntimeContext)
    requires now.vramState.Inactive? || (now.vramState.HBlankActive? && Running(now.vramState.transfer, HBlankMode))
    ensures var next := now.AfterTick(c).0;
      && BlocksLeft(next.vramState) <= BlocksLeft(now.vramState)
      && (BlocksLeft(next.vramState) == BlocksLeft(now.vramState) ==> next.registers == now.registers)
      && (BlocksLeft(next.vramState) < BlocksLeft(now.vramState) ==>
            && now.vramState.HBlankActive?
            && var a := now.vramState.transfer.Advance(BlocksLeft(now.vramState) - BlocksLeft(next.vramState));
            next.registers == now.registers.WithEndpoints(a.sourceStart, a.destinationStart))
  {
    var ready := now.AfterOpening(c);
    NextPublishesForward(ready.transferState);
    forall base: ControllerState, kind: TransferKind, d: nat
      | base.vramState == now.vramState && base.registers == now.registers
      ensures PublishingShows(now, base.AfterPublishing(kind, d))
    {
      PublishingRegisters(now, base, kind, d);
    }
    hide PublishingShows, ControllerState.AfterPublishing, ControllerState.OpensBlock, TransferState.Next;
    hide TransferState.Published, VramRegisters.WithEndpoints, Running, WorkBetween;
    assert PublishingShows(now, now.AfterTick(c).0) by {
      SameShow(now);
    }
    ShowUnfolds(now, now.AfterTick(c).0);
  }

  ghost predicate PublishingShows(now: ControllerState, next: ControllerState) {
    && BlocksLeft(next.vramState) <= BlocksLeft(now.vramState)
    && (BlocksLeft(next.vramState) == BlocksLeft(now.vramState) ==> next.registers == now.registers)
    && (BlocksLeft(next.vramState) < BlocksLeft(now.vramState) ==>
          && now.vramState.HBlankActive?
          && var a := now.vramState.transfer.Advance(BlocksLeft(now.vramState) - BlocksLeft(next.vramState));
          next.registers == now.registers.WithEndpoints(a.sourceStart, a.destinationStart))
  }

  lemma ShowUnfolds(now: ControllerState, next: ControllerState)
    requires PublishingShows(now, next)
    ensures BlocksLeft(next.vramState) <= BlocksLeft(now.vramState)
    ensures BlocksLeft(next.vramState) == BlocksLeft(now.vramState) ==> next.registers == now.registers
    ensures BlocksLeft(next.vramState) < BlocksLeft(now.vramState) ==>
      && now.vramState.HBlankActive?
      && var a := now.vramState.transfer.Advance(BlocksLeft(now.vramState) - BlocksLeft(next.vramState));
      next.registers == now.registers.WithEndpoints(a.sourceStart, a.destinationStart)
  {
  }

  lemma SameShow(now: ControllerState)
    ensures forall next: ControllerState ::
      next.vramState == now.vramState && next.registers == now.registers ==> PublishingShows(now, next)
    ensures forall a: ControllerState, b: ControllerState ::
      PublishingShows(now, a) && a.vramState == b.vramState && a.registers == b.registers ==> PublishingShows(now, b)
  {
  }

  lemma PublishingRegisters(now: ControllerState, base: ControllerState, kind: TransferKind, d: nat)
    requires now.vramState.Inactive? || (now.vramState.HBlankActive? && Running(now.vramState.transfer, HBlankMode))
    requires base.vramState == now.vramState && base.registers == now.registers
    ensures PublishingShows(now, base.AfterPublishing(kind, d))
  {
    if now.vramState.HBlankActive? {
      AdvanceRemaining(now.vramState.transfer, d);
      AdvanceCapped(now.vramState.transfer, d);
    }
    hide VramRegisters.WithEndpoints, VramTransfer.Advance;
  }

  lemma AdvanceCapped(t: VramTransfer, d: nat)
    ensures t.Advance(Min(d, t.remainingBlocks)) == t.Advance(d)
  {
  }

  lemma EndpointsForget(r: VramRegisters, q: VramRegisters, source: u16, destination: u16)
    ensures r.WithEndpoints(source, destination) == q.WithEndpoints(source, destination)
  {
  }

  /** The endpoint registers once `p` blocks of a request have been published. */
  ghost function EndpointsAfter(r: VramRegisters, t: VramTransfer, p: nat): VramRegisters {
    if p == 0 then r else r.WithEndpoints(t.Advance(p).sourceStart, t.Advance(p).destinationStart)
  }

  lemma EndpointsExtend(r: VramRegisters, t: VramTransfer, p: nat, q: nat)
    requires p <= q <= t.remainingBlocks
    ensures p == q ==> EndpointsAfter(r, t, q) == EndpointsAfter(r, t, p)
    ensures p < q ==>
      var a := t.Advance(p).Advance(q - p);
      EndpointsAfter(r, t, q) == EndpointsAfter(r, t, p).WithEndpoints(a.sourceStart, a.destinationStart)
  {
    AdvanceCompose(t, p, q - p);
    hide VramTransfer.Advance;
  }

  lemma CountdownLeft(t: VramTransfer, p: nat)
    requires Running(t, HBlankMode) && p <= t.remainingBlocks
    ensures BlocksLeft(CountdownState(t, p)) == t.remainingBlocks - p
    ensures var v := CountdownState(t, p);
      v.Inactive? || (v.HBlankActive? && Running(v.transfer, HBlankMode) && v.transfer == t.Advance(p))
  {
    AdvanceRuns(t, HBlankMode, p);
    hide VramTransfer.Advance;
  }

  /** Over any run from a state with HDMA latched, the endpoint registers stand where the published blocks end. */
  lemma {:induction false} RegistersFollow(s: ControllerState, contexts: seq<RuntimeContext>)
    requires Latched(s)
    ensures Ticks(s, contexts).registers
         == EndpointsAfter(s.registers, s.vramState.transfer, NextBlock(Schedule(PlanOf(s), contexts), |contexts|))
  {
    hide *;
    PlanBlocks(s);
    var t, plan, n := s.vramState.transfer, PlanOf(s), |contexts|;
    HdmaRunLaw(s, contexts);
    LawParts(t, plan.restart, Ticks(s, contexts), Schedule(plan, contexts), n);
    var p := NextBlock(Schedule(plan, contexts), n);
    CountdownLeft(t, p);
    if contexts == [] {
      RunStarts(s, contexts);
      CountdownLeft(t, 0);
      ScheduleStarts(plan, contexts);
      NothingPublished(s);
    } else {
      var before := contexts[..n - 1];
      RegistersFollow(s, before);
      HdmaRunLaw(s, before);
      LawParts(t, plan.restart, Ticks(s, before), Schedule(plan, before), n - 1);
      var q := NextBlock(Schedule(plan, before), n - 1);
      CountdownLeft(t, q);
      RunExtends(s, contexts);
      TickRegisters(Ticks(s, before), contexts[n - 1]);
      EndpointsExtend(s.registers, t, q, p);
    }
  }

  lemma NothingPublished(s: ControllerState)
    requires Latched(s)
    ensures EndpointsAfter(s.registers, s.vramState.transfer, NextBlock([PlanOf(s).prior], 0)) == s.registers
  {
    var prior := PlanOf(s).prior;
    assert [prior][..0] == [];
    NoDelay();
    if BlockOutstanding(s.transferState) {
      OutstandingPhase(s);
    }
    hide PhaseOk, TransferState.Published, VramTransfer.Advance, HdmaBlockForSpeed, VramRegisters.WithEndpoints;
  }

  // ----- Writing HDMA5 while HDMA is active

  /** Bit 7 set: the run goes on exactly as if nothing had been written. */
  lemma RestartingIsIgnored(
    s: ControllerState, value: u8, speed: CgbSpeedMode, contexts: seq<RuntimeContext>)
    requires s.vramState.HBlankActive? && value >= 0x80
    ensures Ticks(s.AfterHdma5(value, speed), contexts) == Ticks(s, contexts)
    ensures TickWorks(s.AfterHdma5(value, speed), contexts) == TickWorks(s, contexts)
  {
    assert s.AfterHdma5(value, speed) == s;
  }

  /** Nothing of HDMA is left: it is inactive, and no block of it waits for publication. */
  ghost predicate HdmaStopped(s: ControllerState, hdma5: u8) {
    s.vramState.Inactive? && s.vramState.ReadHdma5() == hdma5 && !BlockOutstanding(s.transferState)
    && PhaseOk(s.transferState) && PendingOk(s.pendingRestart)
  }

  lemma StoppedTick(s: ControllerState, c: RuntimeContext, hdma5: u8)
    requires HdmaStopped(s, hdma5)
    ensures HdmaStopped(s.AfterTick(c).0, hdma5)
    ensures s.AfterTick(c).0.registers == s.registers && s.AfterTick(c).0.vramState == s.vramState
    ensures HdmaMove(s.AfterTick(c).1) == [] && !s.OpensBlock(c)
  {
    assert s.AfterOpening(c) == s;
    if s.pendingRestart.Some? && s.pendingRestart.value.Advance().RestrictionActive() {
      hide ControllerState.AfterTransferTick, TransferState.Published, TransferOk;
    } else {
      var waited := Waited(s);
      assert s.AfterTick(c) == waited.AfterTransferTick();
      OtherSlotTick(waited, s.transferState);
      NextPhaseOk(s.transferState);
      hide ControllerState.AfterTransferTick, TransferState.Published, TransferOk, PhaseOk, TransferState.Next;
    }
  }

  lemma StopsHdma(s: ControllerState, value: u8, speed: CgbSpeedMode)
    requires Latched(s) && value < 0x80
    ensures HdmaStopped(s.AfterHdma5(value, speed), 0x80 + value)
    ensures s.AfterHdma5(value, speed).registers == s.registers
    ensures s.AfterHdma5(value, speed).pendingRestart == s.pendingRestart
    ensures !s.transferState.HasKind(Hdma) ==> s.AfterHdma5(value, speed).transferState == s.transferState
  {
    hide TransferOk, Running, RegistersOk, TransferState.Published, BlockLinked;
  }

  /** Bit 7 clear: HDMA stops for good, in the middle of a block if need be. HDMA5 reads the written length with bit 7
      set, the endpoints stay where publication left them, no block opens and no byte is moved any more. */
  lemma {:induction false} StoppingEndsHdma(
    s: ControllerState, value: u8, speed: CgbSpeedMode, contexts: seq<RuntimeContext>)
    requires Latched(s) && value < 0x80
    ensures var stopped := s.AfterHdma5(value, speed);
      var now := Ticks(stopped, contexts);
      && now.vramState.ReadHdma5() == 0x80 + value && now.registers == s.registers
      && HdmaMoves(stopped, contexts) == []
      && (forall c: RuntimeContext :: !now.OpensBlock(c))
      && HdmaStopped(now, 0x80 + value)
  {
    hide *;
    var stopped := s.AfterHdma5(value, speed);
    StopsHdma(s, value, speed);
    if contexts == [] {
      RunStarts(stopped, contexts);
      NoMoves(stopped, contexts);
      StoppedFacts(stopped, 0x80 + value);
    } else {
      var n := |contexts| - 1;
      StoppingEndsHdma(s, value, speed, contexts[..n]);
      RunExtends(stopped, contexts);
      MovesExtend(stopped, contexts);
      StoppedTick(Ticks(stopped, contexts[..n]), contexts[n], 0x80 + value);
      StoppedFacts(Ticks(stopped, contexts), 0x80 + value);
    }
  }

  lemma NoMoves(s: ControllerState, contexts: seq<RuntimeContext>)
    requires contexts == []
    ensures HdmaMoves(s, contexts) == []
  {
  }

  lemma StoppedFacts(s: ControllerState, hdma5: u8)
    requires HdmaStopped(s, hdma5)
    ensures s.vramState.ReadHdma5() == hdma5 && forall c: RuntimeContext :: !s.OpensBlock(c)
  {
  }

  /** The two controllers have the same transfer in the slot and the same restart waiting. */
  ghost predicate SameSlot(a: ControllerState, b: ControllerState) {
    a.transferState == b.transferState && a.pendingRestart == b.pendingRestart
  }

  lemma SameSlotTick(a: ControllerState, b: ControllerState, c: RuntimeContext)
    requires SameSlot(a, b) && !a.OpensBlock(c) && !b.OpensBlock(c)
    ensures SameSlot(a.AfterTick(c).0, b.AfterTick(c).0) && a.AfterTick(c).1 == b.AfterTick(c).1
  {
    hide ControllerState.OpensBlock, TransferState.Next, TransferState.Published, WorkBetween;
    hide VramRegisters.WithEndpoints, VramTransfer.Advance;
  }

  /** A transfer of another kind goes on as it was: as long as the undisturbed run would not have opened a block, it
      moves the same bytes on the same ticks, and a pending restart takes over on the same tick. */
  lemma {:induction false} StoppingLeavesOthers(
    s: ControllerState, value: u8, speed: CgbSpeedMode, contexts: seq<RuntimeContext>)
    requires Latched(s) && value < 0x80 && !s.transferState.HasKind(Hdma)
    requires forall i: nat | i < |contexts| :: !Ticks(s, contexts[..i]).OpensBlock(contexts[i])
    ensures var stopped := s.AfterHdma5(value, speed);
      && SameSlot(Ticks(stopped, contexts), Ticks(s, contexts))
      && TickWorks(stopped, contexts) == TickWorks(s, contexts)
  {
    hide ControllerState.AfterTick, ControllerState.OpensBlock, ControllerState.AfterHdma5;
    var stopped := s.AfterHdma5(value, speed);
    StopsHdma(s, value, speed);
    if contexts != [] {
      var n := |contexts| - 1;
      var before := contexts[..n];
      assert forall i: nat | i < n :: before[..i] == contexts[..i] && before[i] == contexts[i];
      StoppingLeavesOthers(s, value, speed, before);
      StoppingEndsHdma(s, value, speed, before);
      SameSlotTick(Ticks(stopped, before), Ticks(s, before), contexts[n]);
    }
  }

  /** A restart that waits while HDMA is stopped, even in the middle of a block, takes the slot over on its tick and
      has the timeline of a fresh OAM transfer from then on. */
  lemma {:induction false} StoppingLeavesRestart(
    s: ControllerState, value: u8, speed: CgbSpeedMode, contexts: seq<RuntimeContext>)
    requires Latched(s) && value < 0x80 && s.pendingRestart.Some?
    requires s.pendingRestart.value.elapsed + |contexts| <= 648
    ensures var stopped, p := s.AfterHdma5(value, speed), s.pendingRestart.value;
      && Restarted(Ticks(stopped, contexts), p.transfer, p.elapsed + |contexts|)
      && forall i: nat | i < |contexts| && p.elapsed + i >= 4 ::
           TickWorks(stopped, contexts)[i] == WorkAt(p.transfer, p.elapsed + i + 1)
  {
    hide *;
    var stopped, p := s.AfterHdma5(value, speed), s.pendingRestart.value;
    OamConstants();
    StopsHdma(s, value, speed);
    PendingIsOam(s);
    if contexts == [] {
      RunStarts(stopped, contexts);
      StillPending(stopped, p);
    } else {
      var n := |contexts| - 1;
      RunExtends(stopped, contexts);
      StoppingLeavesRestart(s, value, speed, contexts[..n]);
      RestartTick(Ticks(stopped, contexts[..n]), p.transfer, p.elapsed + n, contexts[n]);
    }
  }

  lemma PendingIsOam(s: ControllerState)
    requires Latched(s) && s.pendingRestart.Some?
    ensures IsOam(s.pendingRestart.value.transfer) && s.pendingRestart.value.elapsed < OAM_RESTRICTION_DELAY
  {
  }

  lemma StillPending(s: ControllerState, p: Progress)
    requires s.pendingRestart == Some(p) && p.elapsed < OAM_RESTRICTION_DELAY
    ensures Restarted(s, p.transfer, p.elapsed)
  {
  }
}
