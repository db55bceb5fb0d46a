/** A GDMA run, tick by tick, refines a one-shot block copy with exact timing. */
module DmaGdmaRun {
  import opened Prelude
  import opened Hardware
  import opened DmaTransfers
  import opened Dma
  import opened DmaInvariant
  import opened DmaRuns
  import opened DmaVramPhases

  /** The controller as an HDMA5 write leaves it when it starts a general-purpose transfer. */
  ghost predicate GdmaStarted(s: ControllerState) {
    && s.vramState.GeneralPurposeActive? && Running(s.vramState.transfer, GeneralPurpose)
    && s.pendingRestart.None?
    && s.transferState.Starting?
    && s.transferState.progress
       == Progress(GdmaForSpeed(s.vramState.transfer, s.transferState.progress.transfer.speed), 0)
  }

  lemma Hdma5StartsGdma(s: ControllerState, value: u8, speed: CgbSpeedMode)
    requires Inv(s) && !s.vramState.HBlankActive? && value < 0x80
    ensures var started := s.AfterHdma5(value, speed);
            && GdmaStarted(started) && started.registers == s.registers
            && started.vramState.transfer.sourceStart == s.registers.SourceStart()
            && started.vramState.transfer.destinationStart == s.registers.DestinationStart()
            && started.vramState.transfer.remainingBlocks
               == Min(value + 1, (0xA000 - s.registers.DestinationStart()) / 0x10)
            && started.transferState.progress.transfer == GdmaForSpeed(started.vramState.transfer, speed)
            && started.transferState.progress.transfer.timing.firstByteDelay == VramFirstByteDelay(speed)
            && started.transferState.progress.transfer.timing.tCyclesPerByte == VramTCyclesPerByte(speed)
            && started.transferState.progress.transfer.sourceStart == s.registers.SourceStart()
            && started.transferState.progress.transfer.destinationStart == s.registers.DestinationStart()
  {
    hide *;
    LatchedFields(s, value);
    LatchedRuns(s, GeneralPurpose, value);
    StartedSlot(s, value, speed);
    GdmaFields(s.LatchedTransfer(GeneralPurpose, value), speed);
  }

  lemma LatchedFields(s: ControllerState, value: u8)
    requires Inv(s) && value < 0x80
    ensures RegistersOk(s.registers)
    ensures var t := s.LatchedTransfer(GeneralPurpose, value);
      && t.sourceStart == s.registers.SourceStart() && t.destinationStart == s.registers.DestinationStart()
      && t.remainingBlocks == Min(value + 1, (0xA000 - s.registers.DestinationStart()) / 0x10)
  {
    hide VramRegisters.SourceStart, VramRegisters.DestinationStart, PhaseOk, PendingOk, BlockLinked, RegistersOk;
  }

  lemma StartedSlot(s: ControllerState, value: u8, speed: CgbSpeedMode)
    requires !s.vramState.HBlankActive? && value < 0x80
    requires Running(s.LatchedTransfer(GeneralPurpose, value), GeneralPurpose)
    ensures var started, t := s.AfterHdma5(value, speed), s.LatchedTransfer(GeneralPurpose, value);
      && GdmaStarted(started) && started.registers == s.registers
      && started.vramState == GeneralPurposeActive(t)
      && started.transferState == Starting(Progress(GdmaForSpeed(t, speed), 0))
  {
    hide Running, ControllerState.LatchedTransfer;
    assert GdmaForSpeed(s.LatchedTransfer(GeneralPurpose, value), speed).speed == speed;
    hide GdmaForSpeed;
  }

  lemma GdmaFields(t: VramTransfer, speed: CgbSpeedMode)
    ensures var transfer := GdmaForSpeed(t, speed);
      && transfer.sourceStart == t.sourceStart && transfer.destinationStart == t.destinationStart
      && transfer.timing.firstByteDelay == VramFirstByteDelay(speed)
      && transfer.timing.tCyclesPerByte == VramTCyclesPerByte(speed)
  {
  }

  lemma PublishingCompose(s: ControllerState, a: nat, b: nat)
    requires s.vramState.GeneralPurposeActive? && a + b <= s.vramState.transfer.remainingBlocks
    ensures s.AfterPublishing(Gdma, a).AfterPublishing(Gdma, b) == s.AfterPublishing(Gdma, a + b)
  {
    AdvanceCompose(s.vramState.transfer, a, b);
    AdvanceRemaining(s.vramState.transfer, a);
    AdvanceRemaining(s.vramState.transfer, a + b);
    hide VramTransfer.Advance;
  }

  /** Blocks visible to the CPU after `n` ticks. */
  ghost function PublishedAfter(s: ControllerState, n: nat): nat
    requires GdmaStarted(s)
  {
    GdmaOk(s.vramState.transfer, s.transferState.progress.transfer.speed);
    ProgressAfter(s.transferState.progress.transfer, n).PublishedBlocks()
  }

  /** The state after `n` ticks in closed form. */
  ghost function After(s: ControllerState, n: nat): ControllerState
    requires GdmaStarted(s)
  {
    GdmaOk(s.vramState.transfer, s.transferState.progress.transfer.speed);
    var transfer := s.transferState.progress.transfer;
    s.AfterPublishing(Gdma, PublishedAfter(s, n)).(transferState := PhaseAfter(transfer, n))
  }

  lemma AfterStep(s: ControllerState, n: nat, context: RuntimeContext)
    requires GdmaStarted(s)
    ensures After(s, n).AfterTick(context) == (After(s, n + 1), WorkAt(s.transferState.progress.transfer, n + 1))
  {
    NoPreemption(s, n, context);
    TransferTickStep(s, n);
  }

  /** Neither a restart nor an HBlank block can intervene. */
  lemma NoPreemption(s: ControllerState, n: nat, context: RuntimeContext)
    requires GdmaStarted(s)
    ensures After(s, n).AfterTick(context) == After(s, n).AfterTransferTick()
  {
    hide PhaseAfter, PublishedAfter, VramTransfer.Advance, VramRegisters.WithEndpoints;
  }

  lemma TransferTickStep(s: ControllerState, n: nat)
    requires GdmaStarted(s)
    ensures After(s, n).AfterTransferTick() == (After(s, n + 1), WorkAt(s.transferState.progress.transfer, n + 1))
  {
    hide *;
    GdmaShape(s);
    var transfer := s.transferState.progress.transfer;
    PhaseStep(transfer, n);
    WorkStep(transfer, n);
    PublishedStepAfter(s, n);
    PublishedOfPhase(s, n);
    PublishedOfPhase(s, n + 1);
    TransferTickOver(s.AfterPublishing(Gdma, PublishedAfter(s, n)), PhaseAfter(transfer, n), Gdma);
    AfterUnfolds(s, n);
    AfterUnfolds(s, n + 1);
  }

  lemma AfterUnfolds(s: ControllerState, n: nat)
    requires GdmaStarted(s) && IsVramShaped(s.transferState.progress.transfer)
    ensures After(s, n)
         == s.AfterPublishing(Gdma, PublishedAfter(s, n))
            .(transferState := PhaseAfter(s.transferState.progress.transfer, n))
  {
  }

  lemma PublishedOfPhase(s: ControllerState, n: nat)
    requires GdmaStarted(s) && IsVramShaped(s.transferState.progress.transfer)
    ensures var phase := PhaseAfter(s.transferState.progress.transfer, n);
      phase.HasKind(Gdma) && phase.Published() == PublishedAfter(s, n)
  {
    hide Progress.PublishedBlocks;
  }

  lemma PublishedStepAfter(s: ControllerState, n: nat)
    requires GdmaStarted(s)
    ensures PublishedAfter(s, n) <= PublishedAfter(s, n + 1) <= s.vramState.transfer.remainingBlocks
    ensures var p, q := PublishedAfter(s, n), PublishedAfter(s, n + 1);
      s.AfterPublishing(Gdma, p).AfterPublishing(Gdma, q - p) == s.AfterPublishing(Gdma, q)
  {
    PublishedGrows(s, n);
    PublishingCompose(s, PublishedAfter(s, n), PublishedAfter(s, n + 1) - PublishedAfter(s, n));
  }

  lemma PublishedGrows(s: ControllerState, n: nat)
    requires GdmaStarted(s)
    ensures PublishedAfter(s, n) <= PublishedAfter(s, n + 1) <= s.vramState.transfer.remainingBlocks
    ensures PublishedAfter(s, n + 1) <= PublishedAfter(s, n) + 1
  {
    GdmaShape(s);
    hide GdmaStarted, Progress.PublishedBlocks, Progress.CompletedBlocks;
    var transfer := s.transferState.progress.transfer;
    StopsAtFinal(transfer);
    PublishedAtMostAll(ProgressAfter(transfer, n + 1));
    if n < FinalElapsed(transfer) {
      PublishedStep(ProgressAfter(transfer, n));
    }
  }

  lemma AfterNothing(s: ControllerState)
    requires GdmaStarted(s)
    ensures After(s, 0) == s
  {
  }

  /** After any number of ticks in any video conditions, the controller is where the closed form puts it. */
  lemma {:induction false} Timeline(s: ControllerState, contexts: seq<RuntimeContext>)
    requires GdmaStarted(s)
    ensures Ticks(s, contexts) == After(s, |contexts|)
    ensures forall i :: 0 <= i < |contexts| ==>
      TickWorks(s, contexts)[i] == WorkAt(s.transferState.progress.transfer, i + 1)
  {
    hide *;
    GdmaShape(s);
    if contexts == [] {
      RunStarts(s, contexts);
      AfterNothing(s);
    } else {
      RunExtends(s, contexts);
      Timeline(s, contexts[..|contexts| - 1]);
      AfterStep(s, |contexts| - 1, contexts[|contexts| - 1]);
    }
  }

  /** Byte `k` is issued on tick `first + k * per` and on no other. */
  lemma BytesInOrder(s: ControllerState, contexts: seq<RuntimeContext>, i: nat, k: nat)
    requires GdmaStarted(s) && i < |contexts|
    requires k < s.transferState.progress.transfer.totalBytes
    ensures TickWorks(s, contexts)[i] == Some(Work(s.transferState.progress.transfer, k))
       <==> i + 1 == VramFirstByteDelay(s.transferState.progress.transfer.speed)
                     + k * VramTCyclesPerByte(s.transferState.progress.transfer.speed)
  {
    hide After, Ticks, TickWorks;
    Timeline(s, contexts);
    SlotOfByte(s.transferState.progress.transfer, i + 1, k);
  }

  /** Memory holds, at every moment, the one-shot copy of the bytes completed so far. */
  lemma {:induction false} MemoryTracksCopy(transfer: Transfer, works: seq<Option<Work>>, memory: Memory)
    requires !transfer.kind.Oam? && TransferOk(transfer)
    requires forall i :: 0 <= i < |works| ==> works[i] == WorkAt(transfer, i + 1)
    ensures Execute(memory, works) == Copied(memory, transfer, ProgressAfter(transfer, |works|).CompletedBytes())
  {
    if works == [] {
      assert Copied(memory, transfer, 0) == memory;
    } else {
      var n := |works| - 1;
      MemoryTracksCopy(transfer, works[..n], memory);
      MemoryStep(transfer, n, memory);
    }
  }

  lemma MemoryStep(transfer: Transfer, n: nat, memory: Memory)
    requires !transfer.kind.Oam? && TransferOk(transfer)
    ensures ExecuteOne(Copied(memory, transfer, ProgressAfter(transfer, n).CompletedBytes()), WorkAt(transfer, n + 1))
         == Copied(memory, transfer, ProgressAfter(transfer, n + 1).CompletedBytes())
  {
    hide *;
    CopyBounds(transfer);
    ProgressStep(transfer, n);
    if n < FinalElapsed(transfer) {
      CompletedBytesStep(ProgressAfter(transfer, n));
    } else {
      StopsAtFinal(transfer);
      NoSlotPastBody(transfer, n + 1);
    }
    WorkCases(transfer, n + 1);
    var k := ProgressAfter(transfer, n).CompletedBytes();
    NothingToExecute(Copied(memory, transfer, k));
    if IsSlot(transfer, n + 1) {
      ExecuteExtendsCopy(memory, transfer, k);
    }
  }

  lemma CopyBounds(transfer: Transfer)
    requires !transfer.kind.Oam? && TransferOk(transfer)
    ensures IsVramShaped(transfer)
    ensures 0x8000 <= transfer.destinationStart && transfer.destinationStart + transfer.totalBytes <= 0xA000
    ensures forall n: nat :: ProgressAfter(transfer, n).CompletedBytes() <= transfer.totalBytes
  {
    hide IsVramShaped;
  }

  lemma ProgressStep(transfer: Transfer, n: nat)
    requires IsVramShaped(transfer)
    ensures n < FinalElapsed(transfer) ==>
      && ProgressAfter(transfer, n) == Progress(transfer, n) && n < 0xFFFF
      && ProgressAfter(transfer, n + 1) == Progress(transfer, n).Advance()
    ensures n >= FinalElapsed(transfer) ==> ProgressAfter(transfer, n + 1) == ProgressAfter(transfer, n)
  {
    StopsAtFinal(transfer);
    hide IsVramShaped, FinalElapsed, Transfer.ReleaseTime;
  }

  lemma WorkCases(transfer: Transfer, elapsed: nat)
    ensures WorkAt(transfer, elapsed)
         == if IsSlot(transfer, elapsed) then Some(Work(transfer, SlotByte(transfer, elapsed))) else None
    ensures IsSlot(transfer, elapsed) ==> SlotByte(transfer, elapsed) < transfer.totalBytes
  {
  }

  lemma NothingToExecute(memory: Memory)
    ensures ExecuteOne(memory, None) == memory
  {
  }

  /** Aligned endpoints read back as written, the destination within its 8 KiB window. */
  lemma EndpointsRoundTrip(r: VramRegisters, source: u16, destination: u16)
    requires source % 0x10 == 0 && destination % 0x10 == 0 && 0x8000 <= destination <= 0xA000
    ensures r.WithEndpoints(source, destination).SourceStart() == source
    ensures r.WithEndpoints(source, destination).DestinationStart() == 0x8000 + (destination - 0x8000) % 0x2000
  {
    hide UpperNibble;
    LowByteAligned(source);
    LowByteAligned(destination);
    WindowOffset(destination);
  }

  /** The high byte, reduced to five bits, and the low byte make up the offset in the VRAM window. */
  lemma WindowOffset(destination: u16)
    requires 0x8000 <= destination <= 0xA000
    ensures destination / 0x100 % 0x20 * 0x100 + destination % 0x100 == (destination - 0x8000) % 0x2000
    ensures destination / 0x100 % 0x20 % 0x20 == destination / 0x100 % 0x20
  {
    var high := destination / 0x100;
    assert 0x80 <= high <= 0xA0;
    assert high % 0x20 == if high < 0xA0 then high - 0x80 else 0;
  }

  /** What the CPU reads back once `p` blocks of the transfer have been published. */
  ghost predicate ReadsBack(now: ControllerState, t: VramTransfer, p: nat) {
    && p <= t.remainingBlocks
    && now.vramState.ReadHdma5() == (if p < t.remainingBlocks then t.remainingBlocks - 1 - p else 0xFF)
    && now.registers.SourceStart() == (t.sourceStart + 0x10 * p) % 0x1_0000
    && now.registers.DestinationStart() == 0x8000 + (t.destinationStart - 0x8000 + 0x10 * p) % 0x2000
  }

  lemma AdvancedEndpoints(r: VramRegisters, t: VramTransfer, mode: VramMode, p: nat)
    requires Running(t, mode) && p <= t.remainingBlocks
    ensures var to := r.WithEndpoints(t.Advance(p).sourceStart, t.Advance(p).destinationStart);
      && to.SourceStart() == (t.sourceStart + 0x10 * p) % 0x1_0000
      && to.DestinationStart() == 0x8000 + (t.destinationStart - 0x8000 + 0x10 * p) % 0x2000
  {
    hide VramRegisters.SourceStart, VramRegisters.DestinationStart, VramRegisters.WithEndpoints;
    var a := t.Advance(p);
    assert a.sourceStart == (t.sourceStart + 0x10 * p) % 0x1_0000;
    assert a.destinationStart == t.destinationStart + 0x10 * p <= 0xA000;
    AlignedSum(t.sourceStart, p);
    ModAddMultiple(t.destinationStart, p, 0x10);
    EndpointsRoundTrip(r, a.sourceStart, a.destinationStart);
  }

  lemma PublishingReadsBack(s: ControllerState, p: nat)
    requires s.vramState.GeneralPurposeActive? && Running(s.vramState.transfer, GeneralPurpose)
    requires p <= s.vramState.transfer.remainingBlocks
    requires s.registers.SourceStart() == s.vramState.transfer.sourceStart
    requires s.registers.DestinationStart() == s.vramState.transfer.destinationStart
    ensures ReadsBack(s.AfterPublishing(Gdma, p), s.vramState.transfer, p)
  {
    hide VramRegisters.SourceStart, VramRegisters.DestinationStart, VramRegisters.WithEndpoints;
    hide ControllerState.AfterPublishing, Running, VramTransfer.Advance, VramState.ReadHdma5;
    var t := s.vramState.transfer;
    AdvancedEndpoints(s.registers, t, GeneralPurpose, p);
    CountdownReads(s, p);
    PublishedRegisters(s, p);
    if p == 0 {
      StartEndpoints(t, GeneralPurpose);
    }
  }

  lemma StartEndpoints(t: VramTransfer, mode: VramMode)
    requires Running(t, mode)
    ensures (t.sourceStart + 0x10 * 0) % 0x1_0000 == t.sourceStart
    ensures 0x8000 + (t.destinationStart - 0x8000 + 0x10 * 0) % 0x2000 == t.destinationStart
  {
  }

  lemma PublishedRegisters(s: ControllerState, p: nat)
    requires s.vramState.GeneralPurposeActive?
    ensures var a := s.vramState.transfer.Advance(p);
      s.AfterPublishing(Gdma, p).registers
      == if p == 0 then s.registers else s.registers.WithEndpoints(a.sourceStart, a.destinationStart)
  {
    hide VramRegisters.WithEndpoints, VramTransfer.Advance;
  }

  lemma CountdownReads(s: ControllerState, p: nat)
    requires s.vramState.GeneralPurposeActive? && Running(s.vramState.transfer, GeneralPurpose)
    requires p <= s.vramState.transfer.remainingBlocks
    ensures var left := s.vramState.transfer.remainingBlocks - p;
      s.AfterPublishing(Gdma, p).vramState.ReadHdma5() == (if left > 0 then left - 1 else 0xFF)
  {
    hide VramRegisters.WithEndpoints;
  }

  /** HDMA5 counts down by published blocks and reads 0xFF exactly from the last publication on;
      the endpoint registers follow, the destination within the 8 KiB window. */
  lemma RegistersFollowPublication(s: ControllerState, contexts: seq<RuntimeContext>)
    requires GdmaStarted(s)
    requires s.registers.SourceStart() == s.vramState.transfer.sourceStart
    requires s.registers.DestinationStart() == s.vramState.transfer.destinationStart
    ensures ReadsBack(Ticks(s, contexts), s.vramState.transfer, PublishedAfter(s, |contexts|))
  {
    Timeline(s, contexts);
    PublishedStepAfter(s, |contexts|);
    PublishingReadsBack(s, PublishedAfter(s, |contexts|));
  }

  /** The whole claim about one GDMA, from its HDMA5 write on, for any number of ticks. */
  lemma GdmaRefinesBlockCopy(
    s: ControllerState, value: u8, speed: CgbSpeedMode, contexts: seq<RuntimeContext>, memory: Memory)
    requires Inv(s) && !s.vramState.HBlankActive? && value < 0x80
    ensures
      var started := s.AfterHdma5(value, speed);
      var blocks := Min(value + 1, (0xA000 - s.registers.DestinationStart()) / 0x10);
      var transfer := started.transferState.progress.transfer;
      var first, per := VramFirstByteDelay(speed), VramTCyclesPerByte(speed);
      var lastByte := first + (16 * blocks - 1) * per;
      var now := Ticks(started, contexts);
      && transfer.sourceStart == s.registers.SourceStart()
      && transfer.destinationStart == s.registers.DestinationStart()
      && transfer.destinationStart + 16 * blocks <= 0xA000
      && transfer.totalBytes == 16 * blocks
      && (|contexts| >= lastByte ==>
            Execute(memory, TickWorks(started, contexts)) == Copied(memory, transfer, 16 * blocks))
      && (now.CpuStall() <==> |contexts| < lastByte + 5)
      && (now.vramState.ReadHdma5() == 0xFF <==> |contexts| >= lastByte + 12)
  {
    hide *;
    Hdma5StartsGdma(s, value, speed);
    var started := s.AfterHdma5(value, speed);
    GdmaShape(started);
    GdmaCopyFacts(started, contexts, memory);
    LastByteTickOf(started.transferState.progress.transfer);
  }

  lemma GdmaCopyFacts(started: ControllerState, contexts: seq<RuntimeContext>, memory: Memory)
    requires GdmaStarted(started)
    requires started.registers.SourceStart() == started.vramState.transfer.sourceStart
    requires started.registers.DestinationStart() == started.vramState.transfer.destinationStart
    ensures
      var transfer := started.transferState.progress.transfer;
      var n, lastByte := |contexts|, LastByteTick(transfer);
      && transfer.destinationStart + transfer.totalBytes <= 0xA000
      && (n >= lastByte ==>
            Execute(memory, TickWorks(started, contexts)) == Copied(memory, transfer, transfer.totalBytes))
      && (Ticks(started, contexts).CpuStall() <==> n < lastByte + 5)
      && (Ticks(started, contexts).vramState.ReadHdma5() == 0xFF <==> n >= lastByte + 12)
  {
    var transfer, t := started.transferState.progress.transfer, started.vramState.transfer;
    var n := |contexts|;
    hide *;
    GdmaShape(started);
    Timeline(started, contexts);
    MemoryTracksCopy(transfer, TickWorks(started, contexts), memory);
    RegistersFollowPublication(started, contexts);
    AfterHasPhase(started, n);
    StallSpan(Ticks(started, contexts), transfer, n);
    ProgressLandmarks(transfer, n);
    ReadsBackCompletes(Ticks(started, contexts), t, PublishedAfter(started, n));
  }

  lemma GdmaShape(s: ControllerState)
    requires GdmaStarted(s)
    ensures s.transferState.Starting? && s.vramState.GeneralPurposeActive?
    ensures var transfer, blocks := s.transferState.progress.transfer, s.vramState.transfer.remainingBlocks;
      && TransferOk(transfer) && IsVramShaped(transfer)
      && !transfer.kind.Oam? && !transfer.cpuImpact.BusRestrictionOnly?
      && 1 <= blocks <= 128 && transfer.totalBytes == 16 * blocks && BlockCount(transfer) == blocks
      && transfer.destinationStart + transfer.totalBytes <= 0xA000
  {
    GdmaOk(s.vramState.transfer, s.transferState.progress.transfer.speed);
  }

  lemma AfterHasPhase(s: ControllerState, n: nat)
    requires GdmaStarted(s)
    ensures IsVramShaped(s.transferState.progress.transfer)
    ensures After(s, n).transferState == PhaseAfter(s.transferState.progress.transfer, n)
    ensures PublishedAfter(s, n) == ProgressAfter(s.transferState.progress.transfer, n).PublishedBlocks()
  {
    GdmaOk(s.vramState.transfer, s.transferState.progress.transfer.speed);
  }

  lemma ReadsBackCompletes(now: ControllerState, t: VramTransfer, p: nat)
    requires ReadsBack(now, t, p) && t.remainingBlocks <= 128
    ensures now.vramState.ReadHdma5() == 0xFF <==> p == t.remainingBlocks
  {
  }

  /** A general-purpose transfer keeps the controller ticking until its last publication, and no longer. */
  lemma NeedsTicks(s: ControllerState, contexts: seq<RuntimeContext>)
    requires GdmaStarted(s)
    ensures Ticks(s, contexts).RequiresTick()
       <==> |contexts| < LastByteTick(s.transferState.progress.transfer) + 12
  {
    hide *;
    GdmaShape(s);
    var transfer, n := s.transferState.progress.transfer, |contexts|;
    Timeline(s, contexts);
    AfterHasPhase(s, n);
    ProgressLandmarks(transfer, n);
    PublishedStepAfter(s, n);
    TicksNeeded(s, n);
  }

  lemma TicksNeeded(s: ControllerState, n: nat)
    requires GdmaStarted(s) && IsVramShaped(s.transferState.progress.transfer)
    requires PublishedAfter(s, n) <= s.vramState.transfer.remainingBlocks
    ensures After(s, n).RequiresTick()
       <==> n < s.transferState.progress.transfer.timing.totalTCycles
            || PublishedAfter(s, n) < s.vramState.transfer.remainingBlocks
  {
    hide PublishedAfter, VramRegisters.WithEndpoints, IsVramShaped;
  }
}
