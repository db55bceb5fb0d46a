/** DMA transfer descriptors, their timing, and the progress counter that drives both of their clocks. */
module DmaTransfers {
  import opened Prelude
  import opened Hardware

  const OAM_DESTINATION_START: u16 := 0xFE00
  const OAM_TRANSFER_BYTES: nat := 160
  const OAM_FIRST_BYTE_DELAY: nat := 8
  const OAM_RESTRICTION_DELAY: nat := 5
  const OAM_T_CYCLES_PER_BYTE: pos := 4
  const OAM_TOTAL_T_CYCLES: nat := 648
  const ECHO_ALIAS_OFFSET: nat := 0x2000
  const VRAM_BLOCK_BYTES: pos := 0x10
  const VRAM_RESTRICTION_DELAY: nat := 0
  const VRAM_CPU_RELEASE: nat := 5
  const VRAM_PUBLICATION: nat := 12
  const VRAM_DESTINATION_END: nat := 0x9FFF
  const INVALID_SOURCE_READ_VALUE: u8 := 0xFF

  datatype TransferKind = Oam | Gdma | Hdma

  datatype CpuImpactPolicy = BusRestrictionOnly | FullyStalledUntilDone | StalledPerBlock

  datatype MemoryRegion = OamRegion | VramRegion

  datatype Timing = Timing(totalTCycles: nat, firstByteDelay: nat, restrictionDelay: nat, tCyclesPerByte: pos)

  datatype Transfer = Transfer(
    kind: TransferKind,
    sourceStart: u16,
    destinationStart: u16,
    totalBytes: nat,
    blockSize: pos,
    timing: Timing,
    speed: CgbSpeedMode,
    cpuImpact: CpuImpactPolicy,
    region: MemoryRegion)
  {
    /** 16-bit address arithmetic wraps, as it does in a release build. */
    function SourceAddress(byteIndex: nat): u16 {
      var address := (sourceStart + byteIndex) % 0x1_0000;
      if kind.Oam? then NormalizeOamSource(address) else address
    }

    function DestinationAddress(byteIndex: nat): u16 {
      (destinationStart + byteIndex) % 0x1_0000
    }

    /** The elapsed count at which block number `k`, counted from one, becomes visible in HDMA5. */
    function ReleaseTime(k: pos): int {
      timing.firstByteDelay + (k * blockSize - 1) * timing.tCyclesPerByte + VRAM_PUBLICATION
    }
  }

  /** Echo RAM and everything above it is read through the work-RAM alias. */
  function NormalizeOamSource(address: u16): u16 {
    if address >= 0xE000 then address - ECHO_ALIAS_OFFSET else address
  }

  function OamForSpeed(sourcePage: u8, speed: CgbSpeedMode): Transfer {
    Transfer(Oam, sourcePage * 0x100, OAM_DESTINATION_START, OAM_TRANSFER_BYTES, 1,
             Timing(OAM_TOTAL_T_CYCLES, OAM_FIRST_BYTE_DELAY, OAM_RESTRICTION_DELAY, OAM_T_CYCLES_PER_BYTE),
             speed, BusRestrictionOnly, OamRegion)
  }

  function VramFirstByteDelay(speed: CgbSpeedMode): nat {
    match speed
    case Normal => 2
    case Double => 2 * 2
  }

  function VramTCyclesPerByte(speed: CgbSpeedMode): pos {
    match speed
    case Normal => 2
    case Double => 2 * 2
  }

  function VramBodyTCycles(totalBytes: nat, speed: CgbSpeedMode): nat {
    if totalBytes == 0 then 0
    else VramFirstByteDelay(speed) + (totalBytes - 1) * VramTCyclesPerByte(speed)
  }

  function VramTiming(totalBytes: nat, speed: CgbSpeedMode): Timing {
    var total := if totalBytes == 0 then 0 else VramBodyTCycles(totalBytes, speed) + VRAM_CPU_RELEASE;
    Timing(total, VramFirstByteDelay(speed), VRAM_RESTRICTION_DELAY, VramTCyclesPerByte(speed))
  }

  datatype VramMode = GeneralPurpose | HBlankMode

  datatype VramTransfer = VramTransfer(
    mode: VramMode,
    sourceStart: u16,
    destinationStart: u16,
    totalBlocks: nat,
    remainingBlocks: nat)
  {
    function RemainingBytes(): nat {
      remainingBlocks * VRAM_BLOCK_BYTES
    }

    function RemainingBlocksMinusOne(): u8 {
      (if remainingBlocks == 0 then 0 else remainingBlocks - 1) % 0x100
    }

    function Advance(completedBlocks: nat): VramTransfer {
      var completed := if completedBlocks > remainingBlocks then remainingBlocks else completedBlocks;
      var bytes := completed * VRAM_BLOCK_BYTES;
      VramTransfer(mode, (sourceStart + bytes) % 0x1_0000, (destinationStart + bytes) % 0x1_0000,
                   totalBlocks, remainingBlocks - completed)
    }
  }

  function GdmaForSpeed(transfer: VramTransfer, speed: CgbSpeedMode): Transfer {
    Transfer(Gdma, transfer.sourceStart, transfer.destinationStart, transfer.RemainingBytes(), VRAM_BLOCK_BYTES,
             VramTiming(transfer.RemainingBytes(), speed), speed, FullyStalledUntilDone, VramRegion)
  }

  function HdmaBlockForSpeed(transfer: VramTransfer, speed: CgbSpeedMode): Transfer {
    Transfer(Hdma, transfer.sourceStart, transfer.destinationStart, VRAM_BLOCK_BYTES, VRAM_BLOCK_BYTES,
             VramTiming(VRAM_BLOCK_BYTES, speed), speed, StalledPerBlock, VramRegion)
  }

  /** As many whole blocks as fit below the end of VRAM. */
  function ClipBlocks(destinationStart: nat, requestedBlocks: nat): nat
    requires destinationStart <= VRAM_DESTINATION_END + 1
  {
    var blocksUntilOverflow := (VRAM_DESTINATION_END + 1 - destinationStart) / VRAM_BLOCK_BYTES;
    if requestedBlocks > blocksUntilOverflow then blocksUntilOverflow else requestedBlocks
  }

  datatype Progress = Progress(transfer: Transfer, elapsed: u16) {

    predicate RestrictionActive() {
      elapsed >= transfer.timing.restrictionDelay
    }

    function CompletedBytes(): nat {
      if elapsed < transfer.timing.firstByteDelay then 0
      else
        var completed := 1 + (elapsed - transfer.timing.firstByteDelay) / transfer.timing.tCyclesPerByte;
        if completed > transfer.totalBytes then transfer.totalBytes else completed
    }

    function CompletedBlocks(): nat {
      CompletedBytes() / transfer.blockSize
    }

    function PublishedBlocks(): nat {
      var completed := CompletedBlocks();
      if completed == 0 then 0
      else if elapsed >= transfer.ReleaseTime(completed) then completed
      else completed - 1
    }

    predicate HasUnpublishedBlocks() {
      CompletedBlocks() > PublishedBlocks()
    }

    predicate IsComplete() {
      elapsed >= transfer.timing.totalTCycles
    }

    /** The source saturates at the top of the 16-bit range. */
    function Advance(): Progress {
      Progress(transfer, if elapsed == 0xFFFF then elapsed else elapsed + 1)
    }
  }

  /** Byte `k` has been issued exactly when the counter has reached its slot. */
  lemma CompletedBytesThreshold(p: Progress, k: nat)
    requires k < p.transfer.totalBytes
    ensures p.CompletedBytes() > k
       <==> p.elapsed >= p.transfer.timing.firstByteDelay + k * p.transfer.timing.tCyclesPerByte
  {
    if p.elapsed >= p.transfer.timing.firstByteDelay {
      DivReaches(p.elapsed - p.transfer.timing.firstByteDelay, p.transfer.timing.tCyclesPerByte, k);
    } else {
      assert k * p.transfer.timing.tCyclesPerByte >= 0;
    }
  }

  /** Whether the tick that brings the counter to `elapsed` is the slot of one of the transfer's bytes. */
  predicate IsSlot(t: Transfer, elapsed: nat) {
    && elapsed >= t.timing.firstByteDelay
    && (elapsed - t.timing.firstByteDelay) % t.timing.tCyclesPerByte == 0
    && (elapsed - t.timing.firstByteDelay) / t.timing.tCyclesPerByte < t.totalBytes
  }

  function SlotByte(t: Transfer, elapsed: nat): nat
    requires IsSlot(t, elapsed)
  {
    (elapsed - t.timing.firstByteDelay) / t.timing.tCyclesPerByte
  }

  /** Slots and bytes correspond one to one. */
  lemma SlotOfByte(t: Transfer, elapsed: nat, k: nat)
    requires k < t.totalBytes
    ensures IsSlot(t, elapsed) && SlotByte(t, elapsed) == k
       <==> elapsed == t.timing.firstByteDelay + k * t.timing.tCyclesPerByte
  {
    var first, per := t.timing.firstByteDelay, t.timing.tCyclesPerByte;
    assert k * per >= 0;
    if elapsed == first + k * per {
      DivUnique(elapsed - first, per, k, 0);
    }
  }

  /** A tick completes a byte exactly on a slot, and then it completes the byte of that slot. */
  lemma CompletedBytesStep(p: Progress)
    requires p.elapsed < 0xFFFF
    ensures IsSlot(p.transfer, p.elapsed + 1) ==>
      && p.CompletedBytes() == SlotByte(p.transfer, p.elapsed + 1)
      && p.Advance().CompletedBytes() == p.CompletedBytes() + 1
    ensures !IsSlot(p.transfer, p.elapsed + 1) ==> p.Advance().CompletedBytes() == p.CompletedBytes()
  {
    var first, per := p.transfer.timing.firstByteDelay, p.transfer.timing.tCyclesPerByte;
    if p.elapsed >= first {
      DivSucc(p.elapsed - first, per);
    } else if p.elapsed + 1 == first {
      DivUnique(0, per, 0, 0);
    }
  }

  predicate IsVramShaped(t: Transfer) {
    && !t.kind.Oam? && t.blockSize == VRAM_BLOCK_BYTES && t.totalBytes % VRAM_BLOCK_BYTES == 0
    && 0 < t.totalBytes <= 128 * VRAM_BLOCK_BYTES
    && t.timing == VramTiming(t.totalBytes, t.speed)
  }

  function BlockCount(t: Transfer): nat {
    t.totalBytes / t.blockSize
  }

  lemma CompletedBlocksThreshold(p: Progress, k: pos)
    requires IsVramShaped(p.transfer) && k <= BlockCount(p.transfer)
    ensures p.CompletedBlocks() >= k <==> p.elapsed >= p.transfer.ReleaseTime(k) - VRAM_PUBLICATION
  {
    CompletedBytesThreshold(p, k * VRAM_BLOCK_BYTES - 1);
  }

  /** Block `k` is published exactly when the counter has reached its release time. */
  lemma PublishedThreshold(p: Progress, k: pos)
    requires IsVramShaped(p.transfer) && k <= BlockCount(p.transfer)
    ensures p.PublishedBlocks() >= k <==> p.elapsed >= p.transfer.ReleaseTime(k)
  {
    var c := p.CompletedBlocks();
    CompletedBlocksThreshold(p, k);
    if c > k {
      CompletedBlocksThreshold(p, k + 1);
    }
  }

  lemma PublishedAtMostAll(p: Progress)
    requires IsVramShaped(p.transfer)
    ensures p.PublishedBlocks() <= p.CompletedBlocks() <= BlockCount(p.transfer)
  {
  }

  /** The published count is the number of blocks whose release time has passed. */
  lemma PublishedIsCount(p: Progress)
    requires IsVramShaped(p.transfer)
    ensures p.PublishedBlocks()
         == |set k: pos | k <= BlockCount(p.transfer) && p.elapsed >= p.transfer.ReleaseTime(k)|
  {
    var released := set k: pos | k <= BlockCount(p.transfer) && p.elapsed >= p.transfer.ReleaseTime(k);
    PublishedAtMostAll(p);
    forall k: pos ensures k in released <==> k <= p.PublishedBlocks() {
      if k <= BlockCount(p.transfer) {
        PublishedThreshold(p, k);
      }
    }
    InitialSegmentSize(released, p.PublishedBlocks());
  }

  lemma {:induction false} InitialSegmentSize(s: set<pos>, n: nat)
    requires forall k: pos :: k in s <==> k <= n
    ensures |s| == n
  {
    if n > 0 {
      InitialSegmentSize(s - {n}, n - 1);
    } else {
      assert s == {};
    }
  }

  /** Publication never runs backwards, whatever the transfer. */
  lemma PublishedMonotone(p: Progress)
    ensures p.PublishedBlocks() <= p.Advance().PublishedBlocks()
  {
    if p.elapsed < 0xFFFF {
      CompletedBytesStep(p);
      DivMonotone(p.CompletedBytes(), p.Advance().CompletedBytes(), p.transfer.blockSize);
      hide Progress.CompletedBytes, Transfer.ReleaseTime;
    }
  }

  /** Publication advances by at most one block per tick. */
  lemma PublishedStep(p: Progress)
    requires IsVramShaped(p.transfer) && p.elapsed < 0xFFFF
    ensures p.PublishedBlocks() <= p.Advance().PublishedBlocks() <= p.PublishedBlocks() + 1
  {
    PublishedMonotone(p);
    var k := p.PublishedBlocks() + 2;
    PublishedAtMostAll(p.Advance());
    if p.Advance().PublishedBlocks() >= k {
      PublishedThreshold(p.Advance(), k);
      PublishedThreshold(p, k - 1);
    }
  }

  /** Advancing by `a` blocks and then by `b` more is advancing by `a + b`. */
  lemma AdvanceCompose(t: VramTransfer, a: nat, b: nat)
    requires a + b <= t.remainingBlocks
    ensures t.Advance(a).Advance(b) == t.Advance(a + b)
  {
    var x, y := a * VRAM_BLOCK_BYTES, b * VRAM_BLOCK_BYTES;
    ModOfReducedSum(t.sourceStart + x, y, 0x1_0000);
    ModOfReducedSum(t.destinationStart + x, y, 0x1_0000);
  }

  /** Whole blocks keep an address aligned, through wrap-around. */
  lemma AlignedSum(start: u16, blocks: nat)
    requires start % 0x10 == 0
    ensures (start + VRAM_BLOCK_BYTES * blocks) % 0x1_0000 % 0x10 == 0
  {
    var x := start + VRAM_BLOCK_BYTES * blocks;
    ModAddMultiple(start, blocks, 0x10);
    ModAddMultiple(x % 0x1_0000, x / 0x1_0000 * 0x1000, 0x10);
  }

  lemma AdvanceRemaining(t: VramTransfer, blocks: nat)
    ensures t.Advance(blocks).remainingBlocks == Max(0, t.remainingBlocks - blocks)
    ensures t.Advance(blocks).totalBlocks == t.totalBlocks && t.Advance(blocks).mode == t.mode
  {
  }

  /** The plain 16-bit sum for the source address is in range for every byte exactly when the whole source is. */
  lemma SourceSumInRange(t: Transfer)
    requires !t.kind.Oam? && t.totalBytes > 0
    ensures (forall k: nat :: k < t.totalBytes ==> t.SourceAddress(k) == t.sourceStart + k)
       <==> t.sourceStart + t.totalBytes <= 0x1_0000
  {
    assert t.SourceAddress(t.totalBytes - 1) < 0x1_0000;
  }
}
