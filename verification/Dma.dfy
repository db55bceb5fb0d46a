/** The DMA controller: OAM DMA with a pending restart, GDMA, and HBlank-gated HDMA. */
module Dma {
  import opened Prelude
  import opened Hardware
  import opened DmaTransfers

  const HDMA5_TRANSFER_LENGTH_MASK: u8 := 0x7F
  const HDMA5_MODE_BIT: u8 := 0x80
  const HDMA5_INACTIVE_READ_BIT: u8 := 0x80
  const HDMA5_COMPLETED_READ: u8 := 0xFF

  datatype VramRegisters = VramRegisters(sourceHigh: u8, sourceLow: u8, destinationHigh: u8, destinationLow: u8) {

    function SourceStart(): u16 {
      sourceHigh * 0x100 + sourceLow
    }

    /** The destination bytes are masked when written, so the three parts occupy disjoint bits. */
    function DestinationStart(): u16 {
      0x8000 + (destinationHigh % 0x20) * 0x100 + destinationLow
    }

    function WithEndpoints(source: u16, destination: u16): VramRegisters {
      VramRegisters(source / 0x100, UpperNibble(source % 0x100),
                    (destination / 0x100) % 0x20, UpperNibble(destination % 0x100))
    }
  }

  /** `value & 0xF0` */
  function UpperNibble(value: u8): u8 {
    value - value % 0x10
  }

  lemma UpperNibbleAligned(value: u8)
    ensures UpperNibble(value) % 0x10 == 0
  {
  }

  /** The low byte of an aligned address survives the register mask. */
  lemma LowByteAligned(address: u16)
    requires address % 0x10 == 0
    ensures UpperNibble(address % 0x100) == address % 0x100
  {
    ModAddMultiple(address % 0x100, address / 0x100 * 0x10, 0x10);
  }

  const DEFAULT_REGISTERS := VramRegisters(0xFF, 0xF0, 0x1F, 0xF0)

  datatype VramState =
    | Inactive(hdma5ReadLow: u8)
    | GeneralPurposeActive(transfer: VramTransfer)
    | GeneralPurposeComplete(transfer: VramTransfer)
    | HBlankActive(transfer: VramTransfer)
  {
    predicate IsActive() {
      GeneralPurposeActive? || HBlankActive?
    }

    function ReadHdma5(): u8 {
      match this
      case Inactive(low) => HDMA5_INACTIVE_READ_BIT + low % 0x80
      case GeneralPurposeActive(t) => t.RemainingBlocksMinusOne()
      case GeneralPurposeComplete(_) => HDMA5_COMPLETED_READ
      case HBlankActive(t) => t.RemainingBlocksMinusOne()
    }
  }

  const DEFAULT_VRAM_STATE := Inactive(HDMA5_TRANSFER_LENGTH_MASK)

  datatype PpuMode = PpuHBlank | PpuVBlank | PpuOamScan | PpuDrawing

  datatype HBlankWindow = NoWindow | LcdDisabled | VisibleHBlank(ly: u8)

  datatype RuntimeContext = RuntimeContext(
    lcdEnabled: bool,
    mode: PpuMode,
    ly: u8,
    lineDot: nat,
    mode0StartDot: nat,
    cpuHalted: bool,
    speed: CgbSpeedMode)
  {
    function Window(): HBlankWindow {
      if !lcdEnabled then LcdDisabled
      else if ly < 144 && mode.PpuHBlank? && lineDot > mode0StartDot + 2 then VisibleHBlank(ly)
      else NoWindow
    }
  }

  datatype TransferState =
    | Idle
    | Starting(progress: Progress)
    | Active(progress: Progress)
    | Completed(progress: Progress)
  {
    predicate InFlight() {
      Starting? || Active?
    }

    predicate HasKind(kind: TransferKind) {
      !Idle? && progress.transfer.kind == kind
    }

    function Published(): nat {
      if Idle? then 0 else progress.PublishedBlocks()
    }

    /** One tick of the transfer itself, with no pending restart. */
    function Next(): TransferState {
      match this
      case Idle => Idle
      case Completed(p) =>
        if !p.transfer.kind.Oam? && p.HasUnpublishedBlocks() then Completed(p.Advance()) else Completed(p)
      case Starting(p) =>
        if p.Advance().RestrictionActive() then Active(p.Advance()) else Starting(p.Advance())
      case Active(p) =>
        if p.Advance().IsComplete() then Completed(p.Advance()) else Active(p.Advance())
    }
  }

  /** One byte to be moved by the bus. */
  datatype Work = Work(transfer: Transfer, byteIndex: nat) {

    function Source(): u16 {
      transfer.SourceAddress(byteIndex)
    }

    function Destination(): u16 {
      transfer.DestinationAddress(byteIndex)
    }

    function ReadOverride(): Option<u8> {
      if !transfer.kind.Oam? && !VramSourceSupported(Source()) then Some(INVALID_SOURCE_READ_VALUE) else None
    }
  }

  predicate VramSourceSupported(address: u16) {
    address <= 0x7FFF || 0xA000 <= address <= 0xDFFF
  }

  function WorkBetween(previous: TransferState, current: TransferState): Option<Work> {
    if previous.Idle? || current.Idle? then None
    else if current.progress.CompletedBytes() <= previous.progress.CompletedBytes() then None
    else Some(Work(current.progress.transfer, current.progress.CompletedBytes() - 1))
  }

  datatype CpuAccessPolicy =
    Unrestricted | ExternalBusBlocked | ExternalBusOnlyBlocked | VideoBusBlocked | WramBusBlocked

  datatype BusState = BusState(policy: CpuAccessPolicy, region: Option<MemoryRegion>, conflictSource: Option<u16>)

  const UNRESTRICTED_BUS := BusState(Unrestricted, None, None)

  datatype ControllerState = ControllerState(
    model: ConsoleModel,
    sourcePageLatch: u8,
    transferState: TransferState,
    pendingRestart: Option<Progress>,
    registers: VramRegisters,
    vramState: VramState,
    lastServedWindow: HBlankWindow)
  {
    predicate RequiresTick() {
      transferState.InFlight() || pendingRestart.Some? || vramState.IsActive()
    }

    /** The tick after which the CPU-visible restriction or stall of the current transfer is in force. */
    predicate Restricting() {
      transferState.InFlight() && transferState.progress.RestrictionActive()
    }

    predicate CpuStall() {
      Restricting() && !transferState.progress.transfer.cpuImpact.BusRestrictionOnly?
    }

    function Bus(): BusState {
      if !Restricting() then UNRESTRICTED_BUS
      else
        var p := transferState.progress;
        var region := Some(p.transfer.region);
        if !p.transfer.kind.Oam? then BusState(VideoBusBlocked, region, None)
        else
          var completed := p.CompletedBytes();
          var conflict := if completed > 0 then Some(p.transfer.SourceAddress(completed - 1)) else None;
          var first := p.transfer.SourceAddress(0);
          if 0x8000 <= first <= 0x9FFF then BusState(VideoBusBlocked, region, conflict)
          else if 0xC000 <= first <= 0xFDFF then
            BusState(if model.IsCgbFamily() then WramBusBlocked else ExternalBusBlocked, region, conflict)
          else BusState(if model.IsCgbFamily() then ExternalBusOnlyBlocked else ExternalBusBlocked, region, conflict)
    }

    function OamRestart(value: u8, speed: CgbSpeedMode): Progress {
      Progress(OamForSpeed(value, if model.IsCgbFamily() then speed else Normal), 0)
    }

    function AfterFf46(value: u8, speed: CgbSpeedMode): ControllerState {
      if transferState.InFlight()
      then this.(sourcePageLatch := value, pendingRestart := Some(OamRestart(value, speed)))
      else this.(sourcePageLatch := value, pendingRestart := None, transferState := Starting(OamRestart(value, speed)))
    }

    function LatchedTransfer(mode: VramMode, value: u8): VramTransfer {
      var blocks := ClipBlocks(registers.DestinationStart(), value % 0x80 + 1);
      VramTransfer(mode, registers.SourceStart(), registers.DestinationStart(), blocks, blocks)
    }

    function AfterHdma5(value: u8, speed: CgbSpeedMode): ControllerState {
      if vramState.HBlankActive? then
        if value >= HDMA5_MODE_BIT then this
        else this.(vramState := Inactive(value % 0x80),
                   transferState := if transferState.HasKind(Hdma) then Idle else transferState)
      else if value < HDMA5_MODE_BIT then
        var t := LatchedTransfer(GeneralPurpose, value);
        this.(vramState := GeneralPurposeActive(t), lastServedWindow := NoWindow,
              transferState := Starting(Progress(GdmaForSpeed(t, speed), 0)), pendingRestart := None)
      else
        this.(vramState := HBlankActive(LatchedTransfer(HBlankMode, value)), lastServedWindow := NoWindow)
    }

    function AfterStartup(sourcePage: u8): ControllerState {
      Initial(model).(sourcePageLatch := sourcePage)
    }

    /** Whether this tick opens a new HBlank block. */
    predicate OpensBlock(context: RuntimeContext) {
      && !transferState.InFlight() && !context.cpuHalted && vramState.HBlankActive?
      && !context.Window().NoWindow? && context.Window() != lastServedWindow
    }

    function AfterOpening(context: RuntimeContext): ControllerState {
      if OpensBlock(context)
      then this.(lastServedWindow := context.Window(),
                 transferState := Starting(Progress(HdmaBlockForSpeed(vramState.transfer, context.speed), 0)))
      else this
    }

    /** Publishes `blocks` freshly completed blocks of a transfer of the given kind. */
    function AfterPublishing(kind: TransferKind, blocks: nat): ControllerState {
      if blocks == 0 then this
      else if vramState.GeneralPurposeActive? && kind.Gdma? then
        var t := vramState.transfer.Advance(blocks);
        this.(registers := registers.WithEndpoints(t.sourceStart, t.destinationStart),
              vramState := if t.remainingBlocks == 0 then GeneralPurposeComplete(t) else GeneralPurposeActive(t))
      else if vramState.HBlankActive? && kind.Hdma? then
        var t := vramState.transfer.Advance(blocks);
        this.(registers := registers.WithEndpoints(t.sourceStart, t.destinationStart),
              vramState := if t.remainingBlocks == 0 then DEFAULT_VRAM_STATE else HBlankActive(t))
      else this
    }

    /** A tick of the transfer, its work and its publication, once pre-emption has been ruled out. */
    function AfterTransferTick(): (ControllerState, Option<Work>) {
      NextPublishesForward(transferState);
      var next := transferState.Next();
      var published := if next.Idle? then 0 else next.Published() - transferState.Published();
      var kind := if next.Idle? then Oam else next.progress.transfer.kind;
      (this.(transferState := next).AfterPublishing(kind, published), WorkBetween(transferState, next))
    }

    function AfterTick(context: RuntimeContext): (ControllerState, Option<Work>) {
      var ready := AfterOpening(context);
      if ready.pendingRestart.None? then ready.AfterTransferTick()
      else
        var restart := ready.pendingRestart.value.Advance();
        if restart.RestrictionActive()
        then (ready.(pendingRestart := None, transferState := Active(restart)), None)
        else ready.(pendingRestart := Some(restart)).AfterTransferTick()
    }
  }

  function Initial(model: ConsoleModel): ControllerState {
    ControllerState(model, 0, Idle, None, DEFAULT_REGISTERS, DEFAULT_VRAM_STATE, NoWindow)
  }

  lemma NextPublishesForward(t: TransferState)
    ensures !t.Idle? ==> !t.Next().Idle? && t.Next().progress.transfer == t.progress.transfer
    ensures t.Published() <= t.Next().Published()
  {
    if !t.Idle? {
      PublishedMonotone(t.progress);
    }
  }

  lemma PublishingIgnoresTransfer(s: ControllerState, t: TransferState, kind: TransferKind, blocks: nat)
    ensures s.(transferState := t).AfterPublishing(kind, blocks)
         == s.AfterPublishing(kind, blocks).(transferState := t)
  {
    hide VramTransfer.Advance, VramRegisters.WithEndpoints;
  }

  /** A tick of a transfer laid over any base state publishes on that base. */
  lemma TransferTickOver(base: ControllerState, now: TransferState, kind: TransferKind)
    requires now.HasKind(kind)
    ensures now.Published() <= now.Next().Published()
    ensures base.(transferState := now).AfterTransferTick()
         == (base.AfterPublishing(kind, now.Next().Published() - now.Published()).(transferState := now.Next()),
             WorkBetween(now, now.Next()))
  {
    NextPublishesForward(now);
    PublishingIgnoresTransfer(base, now.Next(), kind, now.Next().Published() - now.Published());
    hide ControllerState.AfterPublishing, TransferState.Next, TransferState.Published, WorkBetween;
  }

  class DmaController {
    const consoleModel: ConsoleModel
    var sourcePageLatch: u8
    var transferState: TransferState
    var pendingRestart: Option<Progress>
    var registers: VramRegisters
    var vramState: VramState
    var lastServedWindow: HBlankWindow

    ghost function View(): ControllerState
      reads this
    {
      ControllerState(consoleModel, sourcePageLatch, transferState, pendingRestart, registers, vramState,
                      lastServedWindow)
    }

    constructor (consoleModel: ConsoleModel)
      ensures View() == Initial(consoleModel)
    {
      this.consoleModel := consoleModel;
      sourcePageLatch := 0;
      transferState := Idle;
      pendingRestart := None;
      registers := DEFAULT_REGISTERS;
      vramState := DEFAULT_VRAM_STATE;
      lastServedWindow := NoWindow;
    }

    method RequiresTCycleTick() returns (required: bool)
      ensures required == View().RequiresTick()
    {
      required := transferState.InFlight() || pendingRestart.Some? || vramState.IsActive();
    }

    method CpuStallActive() returns (stalled: bool)
      ensures stalled == View().CpuStall()
    {
      if !transferState.InFlight() {
        return false;
      }
      var progress := transferState.progress;
      if !progress.RestrictionActive() {
        return false;
      }
      stalled := progress.transfer.cpuImpact in {FullyStalledUntilDone, StalledPerBlock};
    }

    method PublishedBusState() returns (bus: BusState)
      ensures bus == View().Bus()
    {
      if !transferState.InFlight() || !transferState.progress.RestrictionActive() {
        return UNRESTRICTED_BUS;
      }
      var progress := transferState.progress;
      var region := Some(progress.transfer.region);
      if progress.transfer.kind in {Gdma, Hdma} {
        return BusState(VideoBusBlocked, region, None);
      }
      var conflict: Option<u16> := None;
      if progress.CompletedBytes() > 0 {
        conflict := Some(progress.transfer.SourceAddress(progress.CompletedBytes() - 1));
      }
      var first := progress.transfer.SourceAddress(0);
      var policy;
      if 0x8000 <= first <= 0x9FFF {
        policy := VideoBusBlocked;
      } else if 0xC000 <= first <= 0xFDFF {
        policy := if consoleModel.IsCgbFamily() then WramBusBlocked else ExternalBusBlocked;
      } else {
        policy := if consoleModel.IsCgbFamily() then ExternalBusOnlyBlocked else ExternalBusBlocked;
      }
      bus := BusState(policy, region, conflict);
    }

    method ReadHdma5() returns (value: u8)
      ensures value == View().vramState.ReadHdma5()
    {
      value := vramState.ReadHdma5();
    }

    method WriteFf46ForSpeed(value: u8, speed: CgbSpeedMode)
      modifies this
      ensures View() == old(View()).AfterFf46(value, speed)
    {
      sourcePageLatch := value;
      var latchedSpeed := if consoleModel.IsCgbFamily() then speed else Normal;
      var restarted := Progress(OamForSpeed(value, latchedSpeed), 0);
      if transferState.InFlight() {
        pendingRestart := Some(restarted);
      } else {
        transferState := Starting(restarted);
        pendingRestart := None;
      }
    }

    method WriteHdma1(value: u8)
      modifies `registers
      ensures registers == old(registers).(sourceHigh := value)
    {
      registers := registers.(sourceHigh := value);
    }

    method WriteHdma2(value: u8)
      modifies `registers
      ensures registers == old(registers).(sourceLow := UpperNibble(value))
    {
      registers := registers.(sourceLow := value - value % 0x10);
    }

    method WriteHdma3(value: u8)
      modifies `registers
      ensures registers == old(registers).(destinationHigh := value % 0x20)
    {
      registers := registers.(destinationHigh := value % 0x20);
    }

    method WriteHdma4(value: u8)
      modifies `registers
      ensures registers == old(registers).(destinationLow := UpperNibble(value))
    {
      registers := registers.(destinationLow := value - value % 0x10);
    }

    method WriteHdma5ForSpeed(value: u8, speed: CgbSpeedMode)
      modifies this
      ensures View() == old(View()).AfterHdma5(value, speed)
    {
      if vramState.HBlankActive? {
        if value < HDMA5_MODE_BIT {
          vramState := Inactive(value % 0x80);
          if transferState.HasKind(Hdma) {
            transferState := Idle;
          }
        }
        return;
      }

      var blocks := ClipBlocks(registers.DestinationStart(), value % 0x80 + 1);
      if value < HDMA5_MODE_BIT {
        var transfer :=
          VramTransfer(GeneralPurpose, registers.SourceStart(), registers.DestinationStart(), blocks, blocks);
        vramState := GeneralPurposeActive(transfer);
        lastServedWindow := NoWindow;
        transferState := Starting(Progress(GdmaForSpeed(transfer, speed), 0));
        pendingRestart := None;
      } else {
        vramState := HBlankActive(
          VramTransfer(HBlankMode, registers.SourceStart(), registers.DestinationStart(), blocks, blocks));
        lastServedWindow := NoWindow;
      }
    }

    method ApplyStartupState(sourcePage: u8)
      modifies this
      ensures View() == old(View()).AfterStartup(sourcePage)
    {
      sourcePageLatch := sourcePage;
      transferState := Idle;
      pendingRestart := None;
      registers := DEFAULT_REGISTERS;
      vramState := DEFAULT_VRAM_STATE;
      lastServedWindow := NoWindow;
    }

    method TickTCycleWithVramDmaContext(context: RuntimeContext) returns (work: Option<Work>)
      modifies this
      ensures (View(), work) == old(View()).AfterTick(context)
    {
      hide WorkBetween;
      StartHdmaBlockIfEligible(context);

      if pendingRestart.Some? {
        var advanced := pendingRestart.value.Advance();
        if !advanced.RestrictionActive() {
          pendingRestart := Some(advanced);
        } else {
          pendingRestart := None;
          transferState := Active(advanced);
          return None;
        }
      }

      var previous := transferState;
      match transferState {
        case Idle =>
        case Completed(progress) =>
          if progress.transfer.kind in {Gdma, Hdma} && progress.HasUnpublishedBlocks() {
            transferState := Completed(progress.Advance());
          }
        case Starting(progress) =>
          var advanced := progress.Advance();
          transferState := if advanced.RestrictionActive() then Active(advanced) else Starting(advanced);
        case Active(progress) =>
          var advanced := progress.Advance();
          transferState := if advanced.IsComplete() then Completed(advanced) else Active(advanced);
      }

      NextPublishesForward(previous);
      work := WorkBetween(previous, transferState);
      ApplyVramDmaProgressSideEffects(previous, transferState);
    }

    method StartHdmaBlockIfEligible(context: RuntimeContext)
      modifies `transferState, `lastServedWindow
      ensures View() == old(View()).AfterOpening(context)
    {
      if transferState.InFlight() || context.cpuHalted || !vramState.HBlankActive? {
        return;
      }
      var window := context.Window();
      if window.NoWindow? || lastServedWindow == window {
        return;
      }
      lastServedWindow := window;
      transferState := Starting(Progress(HdmaBlockForSpeed(vramState.transfer, context.speed), 0));
    }

    method ApplyVramDmaProgressSideEffects(previous: TransferState, current: TransferState)
      requires previous.Published() <= current.Published()
      modifies `registers, `vramState
      ensures View() == if current.Idle? then old(View())
                        else old(View()).AfterPublishing(current.progress.transfer.kind,
                                                         current.Published() - previous.Published())
    {
      if current.Idle? {
        return;
      }
      var kind := current.progress.transfer.kind;
      if kind !in {Gdma, Hdma} {
        return;
      }
      var completedBlocks: nat := current.progress.PublishedBlocks() - previous.Published();
      if completedBlocks == 0 {
        return;
      }
      match vramState {
        case GeneralPurposeActive(active) =>
          if kind == Gdma {
            var updated := active.Advance(completedBlocks);
            registers := registers.WithEndpoints(updated.sourceStart, updated.destinationStart);
            vramState := if updated.remainingBlocks == 0 then GeneralPurposeComplete(updated)
                         else GeneralPurposeActive(updated);
          }
        case HBlankActive(active) =>
          if kind == Hdma {
            var updated := active.Advance(completedBlocks);
            registers := registers.WithEndpoints(updated.sourceStart, updated.destinationStart);
            vramState := if updated.remainingBlocks == 0 then Inactive(HDMA5_TRANSFER_LENGTH_MASK)
                         else HBlankActive(updated);
          }
        case _ =>
      }
    }
  }
}
