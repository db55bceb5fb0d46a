/** One VRAM transfer from its start on, as a function of the number of ticks. */
module DmaVramPhases {
  import opened Prelude
  import opened Hardware
  import opened DmaTransfers
  import opened Dma
  import opened DmaInvariant
  import opened DmaRuns

  ghost function ProgressAfter(transfer: Transfer, n: nat): Progress
    requires IsVramShaped(transfer)
  {
    Progress(transfer, Min(n, FinalElapsed(transfer)))
  }

  ghost function PhaseAfter(transfer: Transfer, n: nat): TransferState
    requires IsVramShaped(transfer)
  {
    var p := ProgressAfter(transfer, n);
    if n == 0 then Starting(p) else if n < transfer.timing.totalTCycles then Active(p) else Completed(p)
  }

  lemma StopsAtFinal(transfer: Transfer)
    requires IsVramShaped(transfer)
    ensures FinalElapsed(transfer) == transfer.ReleaseTime(BlockCount(transfer))
    ensures 1 < transfer.timing.totalTCycles < FinalElapsed(transfer) < 0xFFFF
    ensures forall e: u16 :: e <= FinalElapsed(transfer) ==>
      (Progress(transfer, e).HasUnpublishedBlocks() || e < transfer.timing.totalTCycles <==> e < FinalElapsed(transfer))
    ensures forall e: u16 :: e >= transfer.timing.totalTCycles ==>
      Progress(transfer, e).CompletedBytes() == transfer.totalBytes
  {
    var n := BlockCount(transfer);
    forall e: u16 | e <= FinalElapsed(transfer)
      ensures Progress(transfer, e).HasUnpublishedBlocks() || e < transfer.timing.totalTCycles
         <==> e < FinalElapsed(transfer)
    {
      PublishedThreshold(Progress(transfer, e), n);
      PublishedAtMostAll(Progress(transfer, e));
      CompletedBlocksThreshold(Progress(transfer, e), n);
    }
    forall e: u16 | e >= transfer.timing.totalTCycles
      ensures Progress(transfer, e).CompletedBytes() == transfer.totalBytes
    {
      CompletedBytesThreshold(Progress(transfer, e), transfer.totalBytes - 1);
    }
  }

  lemma PhaseStep(transfer: Transfer, n: nat)
    requires IsVramShaped(transfer)
    ensures PhaseAfter(transfer, n).Next() == PhaseAfter(transfer, n + 1)
  {
    StopsAtFinal(transfer);
  }

  lemma WorkStep(transfer: Transfer, n: nat)
    requires IsVramShaped(transfer)
    ensures WorkBetween(PhaseAfter(transfer, n), PhaseAfter(transfer, n + 1)) == WorkAt(transfer, n + 1)
  {
    StopsAtFinal(transfer);
    if n < FinalElapsed(transfer) {
      CompletedBytesStep(ProgressAfter(transfer, n));
    } else {
      NoSlotPastBody(transfer, n + 1);
    }
  }

  lemma NoSlotPastBody(transfer: Transfer, elapsed: nat)
    requires IsVramShaped(transfer) && elapsed >= transfer.timing.totalTCycles
    ensures !IsSlot(transfer, elapsed)
  {
    DivReaches(elapsed - transfer.timing.firstByteDelay, transfer.timing.tCyclesPerByte, transfer.totalBytes);
  }

  ghost function LastByteTick(transfer: Transfer): int {
    transfer.timing.firstByteDelay + (transfer.totalBytes - 1) * transfer.timing.tCyclesPerByte
  }

  lemma LastByteTickOf(transfer: Transfer)
    ensures LastByteTick(transfer)
         == transfer.timing.firstByteDelay + (transfer.totalBytes - 1) * transfer.timing.tCyclesPerByte
  {
  }

  lemma ProgressLandmarks(transfer: Transfer, n: nat)
    requires IsVramShaped(transfer)
    ensures n >= LastByteTick(transfer) ==> ProgressAfter(transfer, n).CompletedBytes() == transfer.totalBytes
    ensures transfer.timing.totalTCycles == LastByteTick(transfer) + 5
    ensures ProgressAfter(transfer, n).PublishedBlocks() == BlockCount(transfer) <==> n >= LastByteTick(transfer) + 12
  {
    StopsAtFinal(transfer);
    CompletedBytesThreshold(ProgressAfter(transfer, n), transfer.totalBytes - 1);
    PublishedThreshold(ProgressAfter(transfer, n), BlockCount(transfer));
    PublishedAtMostAll(ProgressAfter(transfer, n));
  }

  lemma StallSpan(s: ControllerState, transfer: Transfer, n: nat)
    requires IsVramShaped(transfer) && !transfer.cpuImpact.BusRestrictionOnly?
    requires s.transferState == PhaseAfter(transfer, n)
    ensures s.CpuStall() <==> n < transfer.timing.totalTCycles
  {
    StopsAtFinal(transfer);
  }
}
