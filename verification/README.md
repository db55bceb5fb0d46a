# Verified models of the gb-cycle controllers

This project models the cycle-stepped controllers of the gb-cycle Game Boy emulator, and three small exact pieces
around them, and proves what their runs do:

- the **DMA controller**: OAM DMA with a pending restart, general-purpose VRAM DMA, and HBlank-gated VRAM DMA
  (`DmaTransfers`, `Dma`, `DmaInvariant`, `DmaRuns`, `DmaVramPhases`, `DmaGdmaRun`, `DmaHdmaSchedule`,
  `DmaHdmaWindows`, `DmaHdmaRun`, `DmaHdmaCopy`, `DmaHdmaRegisters`, `DmaHdmaExamples`, `DmaOamRun`, `DmaRegisterWrites`,
  `DmaSkipping`);
- the **timer**: a falling-edge counter with a delayed, cancellable reload (`Timer`, `TimerClosedForm`,
  `TimerConservation`, `TimerRegisters`);
- the **serial port**: bit-level shifting, internal and external clocks, two fast-path ticks (`Serial`, `SerialRuns`,
  `SerialExchange`, `SerialControl`);
- the **rewind history**: a bounded snapshot buffer with duplicates, eviction, cadence and pop-on-restore (`Rewind`,
  `RewindRuns`, `RewindCadence`);
- the **per-cycle record buffers** on which timer and serial ticks report (`Scheduler`);
- the **benchmark stimulus runtime** (`Stimulus`), the **save-file wire codec** (`Wire`) and the **AIFC sample-rate
  encoder** (`Aifc`).

Each component whose methods update fields is a class. Its methods carry the source's branches in the source's order,
and each is proved to take the class's abstract value (`View()`) to the value a specification function gives. The run
theorems are lemmas about those specification functions, for every state the invariant allows and every sequence of
operations; where a run shows an address, a period or a register value, they give it as a number or plain arithmetic.

`dafny verify dfyconfig.toml` checks the whole project.

## Conventions

- Bytes and words are ranges of `int`; wrap-around, saturation and truncation are written out. A bit mask appears as
  the equal division or remainder (`x & 0x7F` as `x % 0x80`, one bit of weight `w` as `(x / w) % 2 == 1`).
- `Option` and `Result` values stand for the source's options, error returns and callbacks' call lists. A buffer the
  source asserts not to be full has a precondition saying so.
- The rewind and telemetry counters saturate at the top of 64 bits in the source; here they are unbounded.
- The source address of a DMA byte is a plain 16-bit sum. A release build wraps it and the model does the same; a build
  with overflow checks would stop there. `DmaTransfers.SourceSumInRange` says exactly when the two agree.

## What the proofs found

- HDMA does not always copy contiguously. A block's publication, 44 ticks after it opens (76 at double speed), is what
  moves the latched endpoints on, and two things can displace the block before that:
  - a window that is fresh once the CPU stall is over (37 or 69 ticks) and before the publication opens the same block
    again. Consecutive visible lines are normally further apart; switching the LCD off in that gap does it
    (`DmaHdmaExamples.EarlyWindowExample`, from power-on);
  - a pending OAM restart takes the transfer slot over whatever is in it. A block opened while the restart waits is
    dropped after a byte or two, and the next block starts over (`DmaHdmaExamples.RestartExample`, from power-on), even
    when the blocks are hundreds of ticks apart.
- Both are covered by one exact condition. `DmaHdmaSchedule.Schedule` gives the occupants of the slot from the video
  conditions, the block count, the slot's occupant and the pending restart at the start, without running the controller;
  the controller's own openings are that schedule (`DmaHdmaRun.HdmaRunLaw`). From every state with HDMA latched that the
  invariant allows, the bytes moved are the request's remaining bytes once and in order exactly when the schedule has no
  block issue a byte after an earlier one did and was displaced unpublished (`DmaHdmaRun.ContiguousExactlyWithoutRepeats`).
- What is in the transfer slot when the request is written, and a pending restart, delay HDMA but do not spoil it. A
  window that shows up meanwhile is served if it still shows when the slot is free: when the transfer there is over or, with a
  restart pending, when the restarted one is. With the windows met from then on 44 or 76 ticks apart, the request
  serves one block a window and ends as one general-purpose transfer would, on a tick known from the windows alone
  (`DmaHdmaCopy.HdmaRefinesBlockCopy`; `DmaHdmaExamples.DisplacedTransferExample` has a restart displace a transfer with
  548 ticks left). Only in the few ticks, fewer than six, between a transfer that ends by itself and the restart taking
  over must no fresh window show: it would open a block that the restart drops, as in `DmaHdmaExamples.RestartExample`.
- The duplicate rule of the rewind buffer, together with rewinding always leaving only older entries, is what makes
  every entry the last capture of its T-cycle, on a timeline that runs backwards at each rewind.
- The choice among the three serial ticks is sound in every state, reachable or not. Skipping unneeded DMA ticks is
  sound too, but leaves a finished general-purpose transfer's elapsed counter behind; nothing observable depends on it.

## Model

| member | source | states |
|---|---|---|
| DmaGdmaRun.GdmaRefinesBlockCopy | crates/gb-core/src/dma.rs:1191-1218 | From the HDMA5 write on, after any number of ticks in any video conditions: memory is the old one with the clipped destination range replaced by the original source bytes (0xFF where unsupported) once the last byte is due; the CPU stall ends exactly 5 ticks after the last byte, HDMA5 reads 0xFF exactly 12 ticks after it |
| DmaGdmaRun.BytesInOrder | crates/gb-core/src/dma.rs:1443-1460 | Byte k of a general-purpose transfer is issued on tick first + k * period (2 or 4) and on no other |
| DmaGdmaRun.Timeline | crates/gb-core/src/dma.rs:1306-1362 | The whole controller state and the work of each tick after n ticks, in closed form |
| DmaGdmaRun.MemoryTracksCopy | crates/gb-core/src/dma.rs:894-913 | At every moment memory is the one-shot copy of the bytes completed so far |
| DmaGdmaRun.RegistersFollowPublication | crates/gb-core/src/dma.rs:1402-1422 | HDMA5 reads blocks left minus one until the last publication and 0xFF from then on; the endpoint registers stand at start + 16 * published, the destination modulo the 8 KiB window |
| DmaGdmaRun.Hdma5StartsGdma | crates/gb-core/src/dma.rs:1209-1218 | What an HDMA5 write with bit 7 clear latches, with the block count clipped at the end of VRAM |
| DmaGdmaRun.EndpointsRoundTrip | crates/gb-core/src/dma.rs:497-526 | Aligned endpoints written back to HDMA1-4 read as written, the destination within VRAM |
| DmaGdmaRun.NeedsTicks | crates/gb-core/src/dma.rs:1045-1049 | A general-purpose transfer needs the controller's ticks exactly until its last publication |
| DmaVramPhases.ProgressLandmarks | crates/gb-core/src/dma.rs:298-324 | When a VRAM transfer has issued its last byte, ends its stall and publishes its last block |
| DmaTransfers.CompletedBytesThreshold | crates/gb-core/src/dma.rs:373-388 | More than k bytes are complete exactly when the counter has reached first + k * period |
| DmaTransfers.CompletedBytesStep | crates/gb-core/src/dma.rs:373-388 | A tick completes the byte whose slot it is and nothing otherwise |
| DmaTransfers.PublishedThreshold | crates/gb-core/src/dma.rs:398-415 | k blocks are published exactly when the counter has reached first + (16k - 1) * period + 12 |
| DmaTransfers.PublishedIsCount | crates/gb-core/src/dma.rs:398-415 | The published count is the number of blocks whose release time has passed |
| DmaTransfers.PublishedStep | crates/gb-core/src/dma.rs:398-415 | Publication is monotone and grows by at most one block a tick |
| DmaTransfers.PublishedMonotone | crates/gb-core/src/dma.rs:1402-1403 | The published difference the side effects subtract is never negative, for any transfer |
| DmaTransfers.AdvanceCompose | crates/gb-core/src/dma.rs:583-597 | Advancing a VRAM transfer by a blocks and then b is advancing by a + b, through wrap-around |
| DmaTransfers.SourceSumInRange | crates/gb-core/src/dma.rs:234-239 | No source address sum leaves 16 bits exactly when source start + length does not |
| DmaHdmaCopy.HdmaRefinesBlockCopy | crates/gb-core/src/dma.rs:1219-1226 | From the HDMA5 write on, whatever transfer is in flight at whatever point and whether or not a restart is pending, with the windows met once the slot is free (after that transfer or, with a restart pending, after the restarted one) at least 44 or 76 ticks apart and no window in the few ticks between a transfer's own end and the restart: the transfer is inactive and HDMA5 reads 0xFF exactly from 44 or 76 ticks after the last wanted window; by then the bytes of the clipped request have been moved once and in order, and, with no general-purpose transfer in flight at the write, all the works of the run leave memory, OAM aside, as the one-shot copy |
| DmaHdmaCopy.ScheduledBlocksComplete | crates/gb-core/src/dma.rs:1306-1441 | From any state with HDMA latched, whenever every block the schedule opens is published before the slot goes on: the transfer is inactive, HDMA5 reads 0xFF and all bytes have been moved once and in order exactly when as many blocks have opened as were asked for and the last one has been there for 44 or 76 ticks |
| DmaHdmaCopy.HdmaCountsDown | crates/gb-core/src/dma.rs:1423-1438 | From any state with HDMA latched, repeats or not, HDMA5 counts down the blocks the schedule publishes, and the transfer is inactive with HDMA5 at 0xFF exactly when all of them are |
| DmaHdmaCopy.SpacedWindowsComplete | crates/gb-core/src/dma.rs:1364-1441 | The same from the video conditions, from any state with HDMA latched, a block in progress or a pending restart included: if the block in progress is published before the restart and the windows met once the slot is free are 44 or 76 ticks apart, each serves a block until none is wanted, and completion is exactly at the tick they determine |
| DmaHdmaCopy.HdmaConservation | crates/gb-core/src/dma.rs:1423-1438 | Without repeats, from any state with HDMA latched: HDMA5 counts published blocks, the bytes moved are contiguous and end with the published blocks or inside the next one, and at 0xFF every byte has been moved and the transfer is inactive |
| DmaHdmaCopy.HdmaMemory | crates/gb-core/src/dma.rs:894-913 | Executing every work of such a run, OAM works included, carries a one-shot copy forward by the bytes moved and leaves the rest of memory, OAM aside, alone; requires that no general-purpose transfer is in flight |
| DmaHdmaCopy.RunExecutesMoves | crates/gb-core/src/dma.rs:1443-1460 | With no general-purpose transfer in flight, all the works of any run change memory outside OAM as its HDMA moves alone do |
| DmaHdmaCopy.MovesCopy | crates/gb-core/src/dma.rs:894-917 | Consecutive moves of a request carry the one-shot copy of one general-purpose transfer forward |
| DmaHdmaRun.HdmaRunLaw | crates/gb-core/src/dma.rs:1306-1383 | From any state with HDMA latched, restart pending or not, and in any video conditions: the openings and the restart happen when the schedule, a function of the video conditions, says; state and moved bytes are those it calls for |
| DmaHdmaRun.ContiguousExactlyWithoutRepeats | crates/gb-core/src/dma.rs:1385-1441 | From any state with HDMA latched, the bytes moved are the request's remaining bytes once and in order exactly when the schedule has no block issue a byte after an earlier block issued one and was displaced, by a block or by the restart, before its publication |
| DmaHdmaRun.OpensIffEligible | crates/gb-core/src/dma.rs:1364-1380 | The controller opens a block exactly when the schedule has the slot free, a fresh window, a running CPU and blocks left |
| DmaHdmaRun.RestartingTick | crates/gb-core/src/dma.rs:1313-1323 | A pending restart takes the slot over on its tick, from a block opened on that very tick too, whose window stays served |
| DmaHdmaRun.EarlyWindowRepeats | crates/gb-core/src/dma.rs:1364-1383 | Between the end of a block's stall and its publication any fresh window opens a block, and it is the same block |
| DmaHdmaSchedule.EarlyStartRepeats | crates/gb-core/src/dma.rs:182-196 | A block that issues a byte after an unpublished one did breaks the contiguous copy for good |
| DmaHdmaExamples.EarlyWindowExample | crates/gb-core/src/dma.rs:1373-1382 | From power-on, switching the LCD off 40 ticks into the first of two blocks makes HDMA start over at the first byte |
| DmaHdmaExamples.RestartExample | crates/gb-core/src/dma.rs:1313-1323 | From power-on, a second FF46 write on the last tick of an OAM transfer lets a block issue one byte and drops it; 647 ticks later the next block moves that byte again |
| DmaHdmaExamples.DisplacedTransferExample | crates/gb-core/src/dma.rs:1313-1323 | From power-on, with a restart displacing an OAM transfer that has 548 ticks left and a window showing all along, a one-block request is complete exactly from tick 692 on |
| DmaHdmaWindows.ScheduleOfSpaced | crates/gb-core/src/dma.rs:1306-1383 | The schedule is what stood in the slot, the pending restart, and then one block for each fresh window met once the slot is free, until the request is served, provided that each block is published before its successor and no fresh window shows between a transfer's own end and the restart |
| DmaHdmaRun.Hdma5ArmsHdma | crates/gb-core/src/dma.rs:1219-1226 | What an HDMA5 write with bit 7 set latches, from any state the invariant allows; what is in flight or pending goes on |
| DmaHdmaRun.OpeningSeparates | crates/gb-core/src/dma.rs:1365-1380 | A block opens only when the previous occupant's time is over, in a window not served last, with blocks left |
| DmaHdmaRun.BlockPhase | crates/gb-core/src/dma.rs:182-196 | A block is in flight for 37 or 69 ticks and publishes exactly one block at tick 44 or 76 |
| DmaRegisterWrites.GdmaFromWrites | crates/gb-core/src/dma.rs:1171-1218 | Five register writes and a general-purpose copy: every byte by its address, 0xFF from VRAM and above 0xDFFF, the stall, HDMA5, the ticks needed and the final endpoints |
| DmaRegisterWrites.HdmaFromWrites | crates/gb-core/src/dma.rs:1171-1226 | Five register writes and an HDMA copy under the conditions of the block-copy theorem: every byte by its address, HDMA5 and the final endpoints |
| DmaRegisterWrites.HdmaEndpointsRead | crates/gb-core/src/dma.rs:1423-1438 | After any HDMA run the endpoint registers stand at start + 16 * published, or unchanged when nothing has been published |
| DmaRegisterWrites.FirstWindowOpensBlock | crates/gb-core/src/dma.rs:675-692 | After an HDMA5 write on an idle controller, bytes move from the first tick with a running CPU and the LCD off or a visible line three dots into its horizontal blank, and one block only while no other window shows |
| DmaRegisterWrites.PageReadsBack | crates/gb-core/src/dma.rs:1149-1150 | The page written to FF46 stays latched over any ticks |
| DmaRegisterWrites.StartupIsIdle | crates/gb-core/src/dma.rs:1229-1236 | A startup state is idle and reads as at power-on, whatever went before |
| DmaHdmaRegisters.StoppingEndsHdma | crates/gb-core/src/dma.rs:1192-1206 | An HDMA5 write with bit 7 clear stops an active HDMA for good: HDMA5 reads 0x80 + value, the endpoints stay, no block opens and no byte moves |
| DmaHdmaRegisters.StoppingLeavesOthers | crates/gb-core/src/dma.rs:1197-1206 | A transfer of another kind goes on as in the undisturbed run, tick by tick, while that run opens no block |
| DmaHdmaRegisters.StoppingLeavesRestart | crates/gb-core/src/dma.rs:1313-1323 | A pending restart takes over on its tick and runs as a fresh OAM transfer, also when a block was stopped |
| DmaHdmaRegisters.RestartingIsIgnored | crates/gb-core/src/dma.rs:1207 | An HDMA5 write with bit 7 set changes nothing while HDMA is active |
| DmaOamRun.RestartMatchesFresh | crates/gb-core/src/dma.rs:1149-1165 | Given the same FF46 write, an idle and a busy controller of one model agree on the transfer, the pending slot and the works from the fifth tick to completion on tick 648 |
| DmaOamRun.RestartedByteTick | crates/gb-core/src/dma.rs:1313-1323 | After a restart byte k of the new page is issued on tick 8 + 4k and on no other from the fifth on |
| DmaOamRun.FreshTimeline | crates/gb-core/src/dma.rs:144-163 | State and work of every tick of a fresh OAM transfer up to completion |
| DmaOamRun.RestartTimeline | crates/gb-core/src/dma.rs:1313-1356 | The pending restart counts four ticks whatever else runs, then takes over |
| DmaOamRun.FreshOamCopiesPage | crates/gb-core/src/dma.rs:894-917 | 648 ticks after FF46 = p on an idle controller, 0xFE00 + k holds what was at p * 0x100 + k, less 0x2000 from page 0xE0 on, for each of the 160 bytes, and every other address is unchanged |
| DmaOamRun.OamBusTimeline | crates/gb-core/src/dma.rs:1068-1120 | The bus is restricted from tick 5 to 647, by page number and console, and shows the address of the byte last issued |
| DmaInvariant.RunKeepsInv | crates/gb-core/src/dma.rs:539-611 | Every run of writes and ticks keeps: 1 <= remaining <= total <= 128 and a 16-aligned destination inside VRAM for active VRAM transfers; pending restarts are OAM with elapsed below 5; completed transfers have elapsed their total; an unpublished HDMA block is the block HDMA5 reports |
| DmaInvariant.RunWorksSafe | crates/gb-core/src/dma.rs:1443-1469 | Every work any run emits writes inside VRAM or 0xFE00-0xFE9F by its kind, and OAM sources stay below 0xE000 |
| DmaInvariant.TickKeepsRegion | crates/gb-core/src/dma.rs:1408-1438 | A tick keeps destination + 16 * remaining of an active VRAM transfer and never adds blocks |
| DmaInvariant.StallIsVideoBlock | crates/gb-core/src/dma.rs:1122-1139 | The CPU is stalled exactly when VRAM DMA holds the video bus |
| DmaInvariant.ApplyKeepsInv | crates/gb-core/src/dma.rs:1149-1236 | Each single write or tick keeps the invariant |
| DmaSkipping.SkippingIsSound | crates/gb-core/src/dma.rs:1045-1049 | Over all runs from power-on, skipping ticks the controller does not require emits the same works and shows the same bus, stall, registers, HDMA state, served window and pending restart |
| DmaSkipping.UnneededTick | crates/gb-core/src/dma.rs:1325-1362 | In any state the invariant allows, an unrequired tick emits nothing and leaves a state that differs at most in a finished GDMA's counter |
| DmaSkipping.SimilarApply | crates/gb-core/src/dma.rs:1327-1337 | One write or tick keeps the two controllers similar and their works equal |
| DmaSkipping.StepDma | crates/gb-core/src/machine/step.rs:453-509 | The machine step's decision whether to tick, with the bus state it publishes |
| Dma.DmaController.constructor | crates/gb-core/src/dma.rs:976-987 | The power-on state |
| Dma.DmaController.TickTCycleWithVramDmaContext | crates/gb-core/src/dma.rs:1306-1362 | One tick takes the state and emits the work the specification gives |
| Dma.DmaController.StartHdmaBlockIfEligible | crates/gb-core/src/dma.rs:1364-1383 | Opening an HBlank block |
| Dma.DmaController.ApplyVramDmaProgressSideEffects | crates/gb-core/src/dma.rs:1385-1441 | Publishing freshly completed blocks |
| Dma.DmaController.WriteFf46ForSpeed | crates/gb-core/src/dma.rs:1149-1165 | Starting or queueing an OAM transfer |
| Dma.DmaController.WriteHdma5ForSpeed | crates/gb-core/src/dma.rs:1191-1227 | Starting GDMA or HDMA, cancelling HDMA |
| Dma.DmaController.ApplyStartupState | crates/gb-core/src/dma.rs:1229-1236 | Everything but the model and the page latch returns to power-on |
| Dma.DmaController.PublishedBusState | crates/gb-core/src/dma.rs:1068-1120 | The bus restriction of the current transfer |
| Dma.DmaController.CpuStallActive | crates/gb-core/src/dma.rs:1122-1139 | The CPU stall predicate |
| Dma.DmaController.RequiresTCycleTick | crates/gb-core/src/dma.rs:1045-1049 | The predicate that lets a tick be skipped |
| TimerClosedForm.TicksClosedForm | crates/gb-core/src/timer.rs:253-299 | With TAC from 4 to 7 and no writes, for every n, through counter wrap-around and speed changes: counter, TIMA, reload pipeline and interrupt of n ticks in closed form, with periods 1024, 16, 64 and 256 for clock selects 0 to 3 |
| TimerClosedForm.InterruptSchedule | crates/gb-core/src/timer.rs:322-350 | With P = 1024, 16, 64, 256 for TAC = 4, 5, 6, 7, interrupts come on ticks P * (c / P + 256 - v) - c + 4 + j * (256 - TMA) * P, j = 0, 1, ..., and on no others |
| TimerClosedForm.ReportedEdges | crates/gb-core/src/timer.rs:261-281 | A tick reports a timer edge exactly when it completes a period of 1024, 16, 64 or 256, and an APU edge exactly when the offset counter completes 2^13 at normal or 2^14 at double speed |
| TimerClosedForm.TimerFallsOnPeriod | crates/gb-core/src/timer.rs:343-350 | The selected bit of the wrapping counter falls exactly on multiples of its period |
| TimerRegisters.StoppedTimer | crates/gb-core/src/timer.rs:284-299 | With TAC bit 2 clear TIMA stands still and no interrupt comes, except that a pending reload goes through on its tick |
| TimerRegisters.TimaWriteCounts | crates/gb-core/src/timer.rs:179-188 | A TIMA write drops a pending reload; the interrupt schedule goes on from the value written |
| TimerRegisters.TimaWriteIgnored | crates/gb-core/src/timer.rs:179-182 | In the reload cycle a TIMA write changes nothing in the run |
| TimerRegisters.TmaWriteCounts | crates/gb-core/src/timer.rs:194-199 | The schedule after a TMA write uses the new reload value, and in the reload cycle starts from it too |
| TimerRegisters.DividerGlitch | crates/gb-core/src/timer.rs:156-173 | A divider reset clears the counter and counts once exactly when the counter stood in the upper half of the selected period; an overflow then reloads three ticks later |
| TimerRegisters.ControlGlitch | crates/gb-core/src/timer.rs:205-209 | A TAC write keeps three bits and counts once exactly when the selected input was high before and is low after |
| TimerRegisters.StartupSchedule | crates/gb-core/src/timer.rs:211-220 | The whole interrupt schedule from a startup state, in the numbers it was started with |
| TimerRegisters.ApuSignalIsUpperHalf | crates/gb-core/src/timer.rs:352-356 | The APU divider input is the upper half of 2^13 or 2^14 of the offset counter |
| TimerConservation.OverflowsAreConserved | crates/gb-core/src/timer.rs:284-341 | Over any interleaving of ticks and writes: overflows = interrupts + overflows cancelled by a TIMA write + the one pending |
| TimerConservation.ConservedFromStart | crates/gb-core/src/timer.rs:211-225 | The conservation law and the latched signal from any startup state |
| TimerConservation.OverflowIsDelivered | crates/gb-core/src/timer.rs:330-339 | An uncancelled overflow interrupts on the fourth tick after a tick caused it, the third after a write did, and on none before |
| TimerConservation.OverflowIsWrap | crates/gb-core/src/timer.rs:311-341 | An overflow is a falling timer input, by counting or by a DIV, TAC or STOP glitch, that finds TIMA at 0xFF with no reload pending |
| TimerConservation.PendingCountsDown | crates/gb-core/src/timer.rs:284-299 | A pending reload waits out its ticks whatever is written meanwhile |
| TimerConservation.ApplyBalance | crates/gb-core/src/timer.rs:156-208 | The overflow account of a single operation, and the invariant that the latched signal is the current one |
| Timer.TimerUnit.TickTCycleForSpeed | crates/gb-core/src/timer.rs:253-282 | One tick: new registers, and the edges and interrupt appended to the cycle context |
| Timer.TimerUnit.AdvanceOverflowPipeline | crates/gb-core/src/timer.rs:284-299 | The reload countdown and its interrupt |
| Timer.TimerUnit.ResetDivider | crates/gb-core/src/timer.rs:156-173 | DIV write and STOP reset, and the APU edge they cause |
| Timer.TimerUnit.WriteTima | crates/gb-core/src/timer.rs:179-188 | TIMA writes cancel a pending reload and are ignored in the reload cycle |
| Timer.TimerUnit.WriteTma | crates/gb-core/src/timer.rs:194-199 | TMA writes reach TIMA in the reload cycle |
| Timer.TimerUnit.WriteTac | crates/gb-core/src/timer.rs:205-209 | TAC writes and their falling-edge glitch |
| SerialExchange.ByteExchange | crates/gb-core/src/serial.rs:531-564 | With no register write and one kind of peer: at most eight shift edges; after eight, SB is the byte latched at the first edge, exactly the staged byte went out, one interrupt is queued and the port is idle |
| SerialExchange.ExchangeRun | crates/gb-core/src/serial.rs:531-587 | The shift registers after each number of edges of any run |
| SerialExchange.ShiftStep | crates/gb-core/src/serial.rs:536-561 | One edge takes in the next bit and the eighth ends the transfer |
| SerialExchange.InternalTransferEnds | crates/gb-core/src/serial.rs:441-472 | An internally clocked transfer started at counter c ends exactly on tick 8P - (c mod P) |
| SerialExchange.InternalEdges | crates/gb-core/src/serial.rs:589-609 | The internal clock gives one shift edge per period boundary of the wrapping counter, up to eight |
| SerialControl.InternalTransferTime | crates/gb-core/src/serial.rs:304-322 | After an SC write with bits 7 and 0 set the port is idle exactly from tick 8P - (c mod P), with P = 512 or 256 by speed, or 16 or 8 for the fast clock of the colour consoles' own modes |
| SerialControl.InternalExchange | crates/gb-core/src/serial.rs:531-564 | After SB and SC writes, at that tick: the byte written has gone out, SB holds all ones, the same byte or the peer's, and one interrupt is queued |
| SerialControl.ExternalTransfer | crates/gb-core/src/serial.rs:345-353 | After an SC write with bit 7 set and bit 0 clear, ticks alone never shift; each of the first eight pulses gives exactly one shift on the next tick that finds it first in line, and the eighth ends the transfer |
| SerialControl.NoTransfer | crates/gb-core/src/serial.rs:304-322 | After an SC write with bit 7 clear nothing shifts or interrupts until the next SC write |
| SerialControl.LeavingDropsFastClock | crates/gb-core/src/serial.rs:219-224 | Leaving the modes with a fast clock drops the setting for good |
| SerialControl.FastClockNotRemembered | crates/gb-core/src/serial.rs:304-310 | Asking for the fast clock where there is none is not remembered |
| SerialControl.TickTelemetry | crates/gb-core/src/serial.rs:441-487 | What each tick reports, event by event |
| SerialControl.PrinterHears | crates/gb-core/src/machine/step.rs:566-588 | An attached printer ticks on every step, hears exactly the completed bytes in order, and its staged byte is the next peer byte |
| SerialRuns.FastPathsRefine | crates/gb-core/src/machine/step.rs:555-593 | Over whole runs, with any printer attached at any time, choosing the cheap ticks gives the serial state, printer state, telemetry totals and interrupts of always running the full tick |
| SerialRuns.ChosenTickIsFullTick | crates/gb-core/src/serial.rs:363-395 | Each cheap tick equals the full tick where it is chosen |
| SerialRuns.RunKeepsInv | crates/gb-core/src/serial.rs:304-353 | Pulses wait only in an externally clocked requested transfer |
| Serial.SerialPort.StepSerial | crates/gb-core/src/machine/step.rs:555-593 | The dispatch among the three ticks, with the printer's own tick, its telemetry, the byte it hears and the peer byte it stages in the full branch |
| Serial.SerialPort.TickTCycleForSpeed | crates/gb-core/src/serial.rs:441-487 | The full tick: state, telemetry and interrupt |
| Serial.SerialPort.ShiftOneBit | crates/gb-core/src/serial.rs:531-564 | One shift edge |
| Serial.SerialPort.TickExternalWaitTCycle | crates/gb-core/src/serial.rs:379-390 | The external-wait tick |
| Serial.SerialPort.TickIdleTCycle | crates/gb-core/src/serial.rs:392-395 | The idle tick |
| Serial.SerialPort.WriteSc | crates/gb-core/src/serial.rs:304-322 | Starting or aborting a transfer |
| Serial.SerialPort.QueueExternalClockPulse | crates/gb-core/src/serial.rs:345-353 | Accepting a pulse, saturating at 255, and reporting whether it was queued |
| RewindRuns.AppendKeepsLongest | crates/gb-core/src/rewind.rs:373-432 | After every capture that appends, in any reachable world, the buffer is the longest suffix within the history target and the byte budget, or the newest entry alone |
| RewindRuns.TwoLoopsKeepLongest | crates/gb-core/src/rewind.rs:414-432 | On a time-ordered buffer the two eviction loops together keep the longest fitting suffix |
| RewindRuns.RunKeepsHistory | crates/gb-core/src/rewind.rs:269-335 | Under any interleaving: entry T-cycles strictly increase, never exceed the machine's, and each entry is the last capture of its T-cycle; restored <= captures - len - evicted <= 2 * restored |
| RewindRuns.RewindRestoresLastCapture | crates/gb-core/src/rewind.rs:300-335 | A rewind succeeds whenever anything is held and restores exactly the state last captured at the T-cycle it lands on |
| RewindRuns.RewindsWalkBack | crates/gb-core/src/rewind.rs:308-326 | Consecutive rewinds visit the entries one by one, each strictly earlier, until the buffer is empty |
| RewindRuns.AtMostNSubframesPerFrame | crates/gb-core/src/rewind.rs:349-368 | Between frame boundaries without a rewind a fixed cadence of n captures at most n subframes, number k no earlier than k intervals into the frame |
| RewindRuns.FixedInterval | crates/gb-core/src/rewind.rs:354-357 | For every n from 1 to 65535 the interval is at least 1 and n intervals stay below a frame |
| RewindRuns.EveryCadenceSpacing | crates/gb-core/src/rewind.rs:340-348 | A T-cycle cadence keeps consecutive subframe captures an interval apart over any run without rewinds |
| RewindCadence.EveryCadenceExactly | crates/gb-core/src/rewind.rs:340-348 | After any run without rewinds or clears, a subframe operation captures exactly when the machine is not at the newest entry's T-cycle and the interval has passed since the anchor: the last capture, else a subframe a rewind left newest, else the last frame boundary, else the newest entry |
| RewindCadence.FixedCadenceExactly | crates/gb-core/src/rewind.rs:349-362 | Within a frame a subframe operation captures exactly when fewer than n have been captured, the next slot has come and nothing was captured at this T-cycle |
| RewindCadence.WholeFrameCapturesAll | crates/gb-core/src/rewind.rs:349-362 | With an operation on every T-cycle of a frame, exactly n captures, each on its slot |
| RewindCadence.FixedCadenceWithoutFrame | crates/gb-core/src/rewind.rs:363-368 | After a rewind and before a frame boundary, a fixed cadence keeps its interval from the newest entry |
| RewindCadence.RestedStarts | crates/gb-core/src/rewind.rs:325-333 | What a rewind or a clear leaves the cadence with |
| RewindCadence.NoCadence | crates/gb-core/src/rewind.rs:337-339 | A disabled cadence, or one of zero, skips every subframe |
| RewindCadence.EverythingIsCounted | crates/gb-core/src/rewind.rs:269-298 | Every record operation is counted once, as capture, skip or duplicate, and every rewind is counted |
| RewindCadence.RecordsTheMachine | crates/gb-core/src/rewind.rs:373-412 | A recording leaves the machine as the newest entry, with its size, and with the kind that frame boundaries win |
| RewindCadence.RewindLandsOnNewestOlder | crates/gb-core/src/rewind.rs:308-326 | In any reachable world a rewind restores the newest entry older than the machine, or the sole entry at its T-cycle, and keeps what is older |
| Rewind.MachineRewindBuffer.EnforceLimits | crates/gb-core/src/rewind.rs:414-432 | The two eviction loops, with the byte estimate staying the exact sum |
| Rewind.MachineRewindBuffer.PushCapture | crates/gb-core/src/rewind.rs:373-412 | Appending or replacing a capture; the byte estimate stays the exact sum |
| Rewind.MachineRewindBuffer.RewindOne | crates/gb-core/src/rewind.rs:300-335 | Restoring and popping, and leaving everything alone when the buffer is empty or the machine rejects the state |
| Rewind.MachineRewindBuffer.RecordFrameBoundary | crates/gb-core/src/rewind.rs:269-277 | Recording a frame boundary |
| Rewind.MachineRewindBuffer.RecordSubframe | crates/gb-core/src/rewind.rs:279-298 | Recording or skipping a subframe |
| Rewind.MachineRewindBuffer.ShouldRecordSubframe | crates/gb-core/src/rewind.rs:337-371 | The cadence decision |
| Rewind.MachineRewindBuffer.Clear | crates/gb-core/src/rewind.rs:240-252 | Clearing returns to the empty buffer |
| Rewind.BySpanIsSuffix | crates/gb-core/src/rewind.rs:419-427 | The span loop stops at the first suffix short enough |
| Rewind.ByBytesIsSuffix | crates/gb-core/src/rewind.rs:429-431 | The byte loop stops at the first suffix small enough |
| Scheduler.CycleRecordBuffer.Push | crates/gb-core/src/scheduler.rs:164-171 | Appends one record |
| Scheduler.CycleRecordBuffer.RemoveFirst | crates/gb-core/src/scheduler.rs:187-201 | Removes the first occurrence in place, keeping the others' order |
| Scheduler.WithoutFirstAt | crates/gb-core/src/scheduler.rs:188-199 | Removal splices the sequence at the first occurrence |
| Scheduler.WithoutFirstCount | crates/gb-core/src/scheduler.rs:187-201 | Exactly one occurrence goes, or nothing when there is none |
| Stimulus.AppliedExactlyWhenFirstShown | crates/gb-benchmark/src/stimulus.rs:63-92 | With non-decreasing calls, a call applies exactly the input events whose T-cycle or frame it is the first to show, in input order |
| Stimulus.NeverTwice | crates/gb-benchmark/src/stimulus.rs:68-87 | No event is applied by two calls, in whatever order the calls come, nor twice by one |
| Stimulus.AppliedIsOnePass | crates/gb-benchmark/src/stimulus.rs:63-92 | The calls made are those of one pass over the input: button and state of each event due at a T-cycle or frame shown first |
| Stimulus.BenchmarkStimulusRuntime.ApplyDue | crates/gb-benchmark/src/stimulus.rs:63-92 | The cursors and the final sort give the plain filter of the input list |
| Stimulus.BenchmarkStimulusRuntime.constructor | crates/gb-benchmark/src/stimulus.rs:35-61 | Splitting and sorting the input keeps every event, each schedule in time order |
| Stimulus.BenchmarkStimulusRuntime.Scan | crates/gb-benchmark/src/stimulus.rs:68-77 | One cursor loop collects the due entries and stops at those to come |
| Stimulus.DueParts | crates/gb-benchmark/src/stimulus.rs:67-88 | Sorting the due entries of both schedules by position is filtering the input |
| Wire.DecodeEncoded | crates/gb-persistence/src/wire.rs:44-101 | Reading back a written field list returns it and consumes exactly its bytes, wherever it stands |
| Wire.DecodeTruncated | crates/gb-persistence/src/wire.rs:90-97 | Reading from any strict prefix fails with an end-of-input error naming the cut field's offset, need and remainder |
| Wire.DecodedIsEncoded | crates/gb-persistence/src/wire.rs:66-101 | Whatever decodes is the encoding of what it decodes to |
| Wire.LeRoundTrip | crates/gb-persistence/src/wire.rs:7-17 | Little-endian words read back as written |
| Wire.EncodedBytes | crates/gb-persistence/src/wire.rs:3-17 | The encodings byte by byte: 1 or 0 for a boolean, words least significant byte first |
| Wire.BadTagRefused | crates/gb-persistence/src/wire.rs:66-75 | A boolean tag above 1 is refused with the field's name and the tag |
| Wire.WriteU32Checked | crates/gb-persistence/src/wire.rs:19-28 | A length beyond 32 bits is refused and writes nothing |
| Wire.ByteCursor.ReadExact | crates/gb-persistence/src/wire.rs:90-101 | Returns the next bytes, or an error without moving the cursor |
| Wire.ByteCursor.ReadBool | crates/gb-persistence/src/wire.rs:66-75 | Only tags 0 and 1 are booleans |
| Wire.ByteCursor.ReadU64 | crates/gb-persistence/src/wire.rs:59-64 | Reads eight bytes little-endian |
| Aifc.EncodingIsExact | crates/gb-desktop/src/audio_recording.rs:544-557 | For every nonzero rate the ten bytes, read most significant first, are a positive normalised number of exactly the rate's value, with the exponent of its highest bit |
| Aifc.ZeroRate | crates/gb-desktop/src/audio_recording.rs:544-557 | The ten bytes of the rate 0 |
| Aifc.RepresentationIsUnique | crates/gb-desktop/src/audio_recording.rs:549-552 | A value has one normalised representation |
| Aifc.EncodingIsInjective | crates/gb-desktop/src/audio_recording.rs:544-557 | Different rates, zero included, have different bytes |
| Aifc.AifcSampleRateBytes | crates/gb-desktop/src/audio_recording.rs:544-557 | The normalisation loop, whose measure is the number of leading zero bits, and the big-endian layout |

## Left out

- DmaHdmaCopy.HdmaMemory: says nothing of memory while a general-purpose transfer started before the HDMA5 write is still
  in flight, because its bytes and the request's may share VRAM; bytes moved, HDMA5 and completion are stated for it too.
- Register writes within a DMA run: the run theorems take ticks alone, the invariant and tick skipping any interleaving.
- Save-state capture and restore of the controllers, snapshots, status views and trace messages: field copies and text.
- `restore_save_state` as a source of states: it can install states no run reaches, so the invariants start at power-on.
- The transfer's family and advance condition, and its duration in LCD dots: metadata only trace messages read.
- `SpeedController` (KEY1 and the speed switch): the speed is a parameter of each write and tick.
- The bus between a DMA work and memory: a work moves one byte from its source address, or 0xFF where its source is
  unsupported, to its destination address; the arbitration of `bus/router.rs` is not part of this model.
- The CPU: register writes come in any order, so nothing relies on the stall keeping the CPU from writing during GDMA.
- The inside of the printer: its tick, what it does with a byte and the byte it stages are arbitrary functions. The other
  attachments do nothing in a T-cycle; the peer they set is an operation.
- `Serial` startup state and reset of its output list beyond `take`: transfers are started here by the register write.
- `MachineRewindFrameBoundaryTracker`: one comparison per call.
- The contents of a machine state: a machine is its T-cycle, its size, what it is compatible with, and opaque bytes, and
  restoring is exact or refused.
- External events, bus owner, side effects and the phase of a cycle context: unused by the modelled ticks.
- `ByteCursor.read_array`: the same read as `read_vec` with the length in the type.
- Stimulus.BenchmarkStimulusRuntime.ApplyDue: the callback is the list of its calls; the library sort is an insertion sort, and positions make all keys distinct.
- PPU, APU, CPU, cartridge, frontend, file formats other than the two modelled functions: outside the controllers.
