/** OAM DMA: a restart of a busy controller has the timeline of a fresh start. */
module DmaOamRun {
  import opened Prelude
  import opened Hardware
  import opened DmaTransfers
  import opened Dma
  import opened DmaInvariant
  import opened DmaRuns

  ghost function OamPhase(transfer: Transfer, n: nat): TransferState
    requires n <= OAM_TOTAL_T_CYCLES
  {
    if n < OAM_RESTRICTION_DELAY then Starting(Progress(transfer, n))
    else if n < OAM_TOTAL_T_CYCLES then Active(Progress(transfer, n))
    else Completed(Progress(transfer, n))
  }

  ghost predicate IsOam(t: Transfer) {
    t == OamForSpeed(t.sourceStart / 0x100, t.speed)
  }

  lemma OamStep(transfer: Transfer, n: nat)
    requires IsOam(transfer) && n < OAM_TOTAL_T_CYCLES
    ensures OamPhase(transfer, n).Next() == OamPhase(transfer, n + 1)
    ensures WorkBetween(OamPhase(transfer, n), OamPhase(transfer, n + 1)) == WorkAt(transfer, n + 1)
  {
    CompletedBytesStep(Progress(transfer, n));
  }

  /** Byte `k` is due on tick `8 + 4 * k`. */
  lemma OamByteTick(transfer: Transfer, tick: nat, k: nat)
    requires IsOam(transfer) && k < OAM_TRANSFER_BYTES
    ensures WorkAt(transfer, tick) == Some(Work(transfer, k)) <==> tick == 8 + 4 * k
  {
    SlotOfByte(transfer, tick, k);
  }

  lemma OamTick(s: ControllerState, transfer: Transfer, n: nat, context: RuntimeContext)
    requires IsOam(transfer) && n < OAM_TOTAL_T_CYCLES
    requires s.pendingRestart.None? && s.transferState == OamPhase(transfer, n)
    ensures s.AfterTick(context).0.transferState == OamPhase(transfer, n + 1)
    ensures s.AfterTick(context).0.pendingRestart.None?
    ensures s.AfterTick(context).1 == WorkAt(transfer, n + 1)
  {
    OamStep(transfer, n);
    assert s.AfterTick(context) == s.(transferState := s.transferState).AfterTransferTick();
    TransferTickOver(s, s.transferState, Oam);
    hide OamPhase, IsOam, WorkAt, WorkBetween, TransferState.Next, TransferState.Published;
  }

  /** What a restart request has become after `n` ticks: still pending, or the transfer in the slot. */
  ghost predicate Restarted(now: ControllerState, transfer: Transfer, n: nat) {
    if n < OAM_RESTRICTION_DELAY then now.pendingRestart == Some(Progress(transfer, n))
    else
      n <= OAM_TOTAL_T_CYCLES ==> now.pendingRestart.None? && now.transferState == OamPhase(transfer, n)
  }

  lemma RestartTick(s: ControllerState, transfer: Transfer, n: nat, context: RuntimeContext)
    requires IsOam(transfer) && n < OAM_TOTAL_T_CYCLES && Restarted(s, transfer, n)
    ensures Restarted(s.AfterTick(context).0, transfer, n + 1)
    ensures n >= 4 ==> s.AfterTick(context).1 == WorkAt(transfer, n + 1)
  {
    if n >= OAM_RESTRICTION_DELAY {
      OamTick(s, transfer, n, context);
    } else if n + 1 < OAM_RESTRICTION_DELAY {
      PendingTick(s, transfer, n, context);
    } else {
      assert !IsSlot(transfer, n + 1);
      hide ControllerState.OpensBlock, ControllerState.AfterTransferTick;
    }
  }

  lemma PendingTick(s: ControllerState, transfer: Transfer, n: nat, context: RuntimeContext)
    requires IsOam(transfer) && n + 1 < OAM_RESTRICTION_DELAY && s.pendingRestart == Some(Progress(transfer, n))
    ensures s.AfterTick(context).0.pendingRestart == Some(Progress(transfer, n + 1))
  {
    var ready := s.AfterOpening(context).(pendingRestart := Some(Progress(transfer, n + 1)));
    assert s.AfterTick(context) == ready.AfterTransferTick();
    hide ControllerState.OpensBlock, TransferState.Next, VramTransfer.Advance, VramRegisters.WithEndpoints;
  }

  lemma Ff46Effect(s: ControllerState, value: u8, speed: CgbSpeedMode)
    ensures var started, transfer := s.AfterFf46(value, speed), s.OamRestart(value, speed).transfer;
      if s.transferState.InFlight() then Restarted(started, transfer, 0)
      else started.pendingRestart.None? && started.transferState == OamPhase(transfer, 0)
  {
  }

  /** Starting while nothing is in flight. */
  lemma {:induction false} FreshTimeline(
    s: ControllerState, value: u8, speed: CgbSpeedMode, contexts: seq<RuntimeContext>)
    requires !s.transferState.InFlight() && |contexts| <= OAM_TOTAL_T_CYCLES
    ensures var started, transfer := s.AfterFf46(value, speed), s.OamRestart(value, speed).transfer;
      && Ticks(started, contexts).pendingRestart.None?
      && Ticks(started, contexts).transferState == OamPhase(transfer, |contexts|)
      && forall i :: 0 <= i < |contexts| ==> TickWorks(started, contexts)[i] == WorkAt(transfer, i + 1)
  {
    hide *;
    var started, n := s.AfterFf46(value, speed), |contexts| - 1;
    RestartIsOam(s, value, speed);
    if contexts == [] {
      RunStarts(started, contexts);
      Ff46Effect(s, value, speed);
    } else {
      RunExtends(started, contexts);
      FreshTimeline(s, value, speed, contexts[..n]);
      OamTick(Ticks(started, contexts[..n]), s.OamRestart(value, speed).transfer, n, contexts[n]);
    }
  }

  lemma RestartIsOam(s: ControllerState, value: u8, speed: CgbSpeedMode)
    ensures IsOam(s.OamRestart(value, speed).transfer)
  {
  }

  /** Starting while a transfer of any kind is in flight. */
  lemma {:induction false} RestartTimeline(
    s: ControllerState, value: u8, speed: CgbSpeedMode, contexts: seq<RuntimeContext>)
    requires s.transferState.InFlight() && |contexts| <= OAM_TOTAL_T_CYCLES
    ensures var started, transfer := s.AfterFf46(value, speed), s.OamRestart(value, speed).transfer;
      && Restarted(Ticks(started, contexts), transfer, |contexts|)
      && forall i :: 4 <= i < |contexts| ==> TickWorks(started, contexts)[i] == WorkAt(transfer, i + 1)
  {
    hide *;
    var started, n := s.AfterFf46(value, speed), |contexts| - 1;
    RestartIsOam(s, value, speed);
    if contexts == [] {
      RunStarts(started, contexts);
      Ff46Effect(s, value, speed);
    } else {
      RunExtends(started, contexts);
      RestartTimeline(s, value, speed, contexts[..n]);
      RestartTick(Ticks(started, contexts[..n]), s.OamRestart(value, speed).transfer, n, contexts[n]);
    }
  }

  /** An idle controller and a busy one of the same model, given the same FF46 write and whatever video conditions,
      agree on the transfer and on its works from the fifth tick to completion on tick 648. */
  lemma RestartMatchesFresh(
    idle: ControllerState, busy: ControllerState, value: u8, speed: CgbSpeedMode,
    idleContexts: seq<RuntimeContext>, busyContexts: seq<RuntimeContext>)
    requires idle.model == busy.model && !idle.transferState.InFlight() && busy.transferState.InFlight()
    requires |idleContexts| == |busyContexts| && 5 <= |idleContexts| <= OAM_TOTAL_T_CYCLES
    ensures
      var started, restarted := idle.AfterFf46(value, speed), busy.AfterFf46(value, speed);
      var a, b := Ticks(started, idleContexts), Ticks(restarted, busyContexts);
      && a.transferState == b.transferState && a.pendingRestart == b.pendingRestart == None
      && (a.transferState.Completed? <==> |idleContexts| == 648)
      && TickWorks(started, idleContexts)[4..] == TickWorks(restarted, busyContexts)[4..]
  {
    hide *;
    FreshTimeline(idle, value, speed, idleContexts);
    RestartTimeline(busy, value, speed, busyContexts);
    SameRestart(idle, busy, value, speed);
    RestartedFacts(Ticks(busy.AfterFf46(value, speed), busyContexts), busy.OamRestart(value, speed).transfer,
                   |busyContexts|);
  }

  lemma SameRestart(a: ControllerState, b: ControllerState, value: u8, speed: CgbSpeedMode)
    requires a.model == b.model
    ensures a.OamRestart(value, speed) == b.OamRestart(value, speed)
  {
  }

  lemma RestartedFacts(now: ControllerState, transfer: Transfer, n: nat)
    requires Restarted(now, transfer, n) && 5 <= n <= OAM_TOTAL_T_CYCLES
    ensures now.pendingRestart.None? && now.transferState == OamPhase(transfer, n)
    ensures now.transferState.Completed? <==> n == 648
  {
  }

  /** After a restart, byte `k` of the new page is issued on tick `8 + 4 * k` and on no other tick from the fifth on. */
  lemma RestartedByteTick(
    busy: ControllerState, value: u8, speed: CgbSpeedMode, contexts: seq<RuntimeContext>, i: nat, k: nat)
    requires busy.transferState.InFlight() && 4 <= i < |contexts| <= OAM_TOTAL_T_CYCLES && k < OAM_TRANSFER_BYTES
    ensures TickWorks(busy.AfterFf46(value, speed), contexts)[i]
         == Some(Work(OamForSpeed(value, if busy.model.IsCgbFamily() then speed else Normal), k))
       <==> i + 1 == 8 + 4 * k
  {
    hide *;
    RestartTimeline(busy, value, speed, contexts);
    RestartIsOam(busy, value, speed);
    RestartTransfer(busy, value, speed);
    OamByteTick(busy.OamRestart(value, speed).transfer, i + 1, k);
  }

  lemma RestartTransfer(s: ControllerState, value: u8, speed: CgbSpeedMode)
    ensures s.OamRestart(value, speed).transfer
         == OamForSpeed(value, if s.model.IsCgbFamily() then speed else Normal)
  {
  }

  /** The works of a fresh OAM transfer copy its source page into OAM. */
  lemma {:induction false} OamCopies(transfer: Transfer, works: seq<Option<Work>>, memory: Memory)
    requires IsOam(transfer) && |works| <= OAM_TOTAL_T_CYCLES
    requires forall i :: 0 <= i < |works| ==> works[i] == WorkAt(transfer, i + 1)
    ensures Execute(memory, works) == Copied(memory, transfer, Progress(transfer, |works|).CompletedBytes())
  {
    if works == [] {
      assert Copied(memory, transfer, 0) == memory;
    } else {
      var n := |works| - 1;
      OamCopies(transfer, works[..n], memory);
      CompletedBytesStep(Progress(transfer, n));
      if IsSlot(transfer, n + 1) {
        ExecuteExtendsCopy(memory, transfer, Progress(transfer, n).CompletedBytes());
      }
      hide Copied, ExecuteOne;
    }
  }

  /** Where byte `k` of page `value` is read: echo RAM and everything above it comes from 0x2000 below. */
  function PageByte(value: u8, k: nat): (a: u16)
    requires k < 160
  {
    value * 0x100 + k - if value >= 0xE0 then 0x2000 else 0
  }

  lemma OamAddresses(value: u8, speed: CgbSpeedMode, k: nat)
    requires k < 160
    ensures OamForSpeed(value, speed).SourceAddress(k) == value * 0x100 + k - (if value >= 0xE0 then 0x2000 else 0)
    ensures OamForSpeed(value, speed).DestinationAddress(k) == 0xFE00 + k
  {
  }

  /** After 648 ticks from an FF46 write on an idle controller, OAM holds the 160 bytes of the page and nothing else
      has changed. */
  lemma FreshOamCopiesPage(
    s: ControllerState, value: u8, speed: CgbSpeedMode, contexts: seq<RuntimeContext>, memory: Memory)
    requires !s.transferState.InFlight() && |contexts| == 648
    ensures var after := Execute(memory, TickWorks(s.AfterFf46(value, speed), contexts));
      && (forall k: nat | k < 160 :: after[0xFE00 + k] == memory[PageByte(value, k)])
      && (forall a: nat | a < 0xFE00 || 0xFEA0 <= a < 0x1_0000 :: after[a] == memory[a])
  {
    hide *;
    OamConstants();
    FreshTimeline(s, value, speed, contexts);
    RestartIsOam(s, value, speed);
    RestartTransfer(s, value, speed);
    var transfer := s.OamRestart(value, speed).transfer;
    OamCopies(transfer, TickWorks(s.AfterFf46(value, speed), contexts), memory);
    PageCopied(memory, value, if s.model.IsCgbFamily() then speed else Normal);
    assert |TickWorks(s.AfterFf46(value, speed), contexts)| == 648;
  }

  lemma OamConstants()
    ensures OAM_TOTAL_T_CYCLES == 648
  {
  }

  lemma PageCopied(memory: Memory, value: u8, speed: CgbSpeedMode)
    ensures var transfer := OamForSpeed(value, speed);
      transfer.speed == speed && transfer.destinationStart == 0xFE00
      && Progress(transfer, 648).CompletedBytes() == 160
    ensures var after := Copied(memory, OamForSpeed(value, speed), 160);
      && (forall k: nat | k < 160 :: after[0xFE00 + k] == memory[PageByte(value, k)])
      && (forall a: nat | a < 0xFE00 || 0xFEA0 <= a < 0x1_0000 :: after[a] == memory[a])
  {
    forall k: nat | k < 160
      ensures Copied(memory, OamForSpeed(value, speed), 160)[0xFE00 + k] == memory[PageByte(value, k)]
    {
      OamAddresses(value, speed, k);
    }
  }

  /** What the CPU meets on the bus during an OAM transfer of page `value`: nothing until the fifth tick and from the
      648th on; in between the block that the page calls for, with the address of the byte last issued. */
  lemma OamBusTimeline(s: ControllerState, value: u8, speed: CgbSpeedMode, n: nat)
    requires n <= 648 && s.transferState == OamPhase(OamForSpeed(value, speed), n)
    ensures s.Bus() == BusState(Unrestricted, None, None) <==> n < 5 || n == 648
    ensures 5 <= n < 648 ==>
      && s.Bus().region == Some(OamRegion)
      && s.Bus().conflictSource == (if n < 8 then None else Some(PageByte(value, Min(159, (n - 8) / 4))))
      && s.Bus().policy ==
         (if 0x80 <= value < 0xA0 then VideoBusBlocked
          else if s.model.GameBoyColor? || s.model.GameBoyAdvance?
          then if value >= 0xC0 then WramBusBlocked else ExternalBusOnlyBlocked
          else ExternalBusBlocked)
    ensures !s.CpuStall()
  {
    if 8 <= n < 648 {
      OamAddresses(value, speed, Min(159, (n - 8) / 4));
    }
    OamAddresses(value, speed, 0);
    hide Transfer.SourceAddress;
  }
}
