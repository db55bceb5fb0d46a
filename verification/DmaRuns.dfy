/** Runs of ticks without register writes, and what their works do to memory. */
module DmaRuns {
  import opened Prelude
  import opened Hardware
  import opened DmaTransfers
  import opened Dma

  function Ticks(s: ControllerState, contexts: seq<RuntimeContext>): ControllerState {
    if contexts == [] then s
    else Ticks(s, contexts[..|contexts| - 1]).AfterTick(contexts[|contexts| - 1]).0
  }

  /** The work of each tick, in order. */
  function TickWorks(s: ControllerState, contexts: seq<RuntimeContext>): (works: seq<Option<Work>>)
    ensures |works| == |contexts|
  {
    if contexts == [] then []
    else
      var before := contexts[..|contexts| - 1];
      TickWorks(s, before) + [Ticks(s, before).AfterTick(contexts[|contexts| - 1]).1]
  }

  lemma RunStarts(s: ControllerState, contexts: seq<RuntimeContext>)
    requires contexts == []
    ensures Ticks(s, contexts) == s && TickWorks(s, contexts) == []
  {
  }

  lemma RunExtends(s: ControllerState, contexts: seq<RuntimeContext>)
    requires contexts != []
    ensures var n := |contexts| - 1;
      && Ticks(s, contexts) == Ticks(s, contexts[..n]).AfterTick(contexts[n]).0
      && TickWorks(s, contexts) == TickWorks(s, contexts[..n]) + [Ticks(s, contexts[..n]).AfterTick(contexts[n]).1]
  {
  }

  /** The work a transfer owes on the tick that brings its counter to `elapsed`. */
  function WorkAt(transfer: Transfer, elapsed: nat): Option<Work> {
    if IsSlot(transfer, elapsed) then Some(Work(transfer, SlotByte(transfer, elapsed))) else None
  }

  type Memory = m: seq<u8> | |m| == 0x1_0000 witness seq(0x1_0000, _ => 0)

  /** What the DMA read of `address` yields, given what memory held. */
  function SourceByte(memory: Memory, transfer: Transfer, address: u16): u8 {
    if !transfer.kind.Oam? && !VramSourceSupported(address) then INVALID_SOURCE_READ_VALUE else memory[address]
  }

  function ExecuteOne(memory: Memory, work: Option<Work>): Memory {
    if work.None? then memory
    else
      var w := work.value;
      memory[w.Destination() := if w.ReadOverride().Some? then w.ReadOverride().value else memory[w.Source()]]
  }

  function Execute(memory: Memory, works: seq<Option<Work>>): Memory {
    if works == [] then memory else ExecuteOne(Execute(memory, works[..|works| - 1]), works[|works| - 1])
  }

  /** One-shot copy of the first `count` bytes of a transfer. */
  function Copied(memory: Memory, transfer: Transfer, count: nat): Memory
    requires transfer.destinationStart + count <= 0x1_0000
  {
    seq(0x1_0000, (a: nat) requires a < 0x1_0000 => CopiedByte(memory, transfer, count, a))
  }

  function CopiedByte(memory: Memory, transfer: Transfer, count: nat, address: nat): u8
    requires address < 0x1_0000
  {
    if transfer.destinationStart <= address < transfer.destinationStart + count
    then SourceByte(memory, transfer, transfer.SourceAddress(address - transfer.destinationStart))
    else memory[address]
  }

  /** No byte a transfer reads from memory lies where it writes. */
  lemma SourceAvoidsDestination(transfer: Transfer, k: nat)
    requires if transfer.kind.Oam? then transfer.destinationStart >= 0xE000
             else 0x8000 <= transfer.destinationStart && transfer.destinationStart + transfer.totalBytes <= 0xA000
    ensures var a := transfer.SourceAddress(k);
            (!transfer.kind.Oam? && !VramSourceSupported(a))
            || !(transfer.destinationStart <= a < transfer.destinationStart + transfer.totalBytes)
  {
  }

  /** Executing the next byte extends the one-shot copy by one byte. */
  lemma ExecuteExtendsCopy(memory: Memory, transfer: Transfer, k: nat)
    requires k < transfer.totalBytes
    requires if transfer.kind.Oam? then transfer.destinationStart >= 0xE000
             else 0x8000 <= transfer.destinationStart && transfer.destinationStart + transfer.totalBytes <= 0xA000
    requires transfer.destinationStart + transfer.totalBytes <= 0x1_0000
    ensures ExecuteOne(Copied(memory, transfer, k), Some(Work(transfer, k))) == Copied(memory, transfer, k + 1)
  {
    SourceAvoidsDestination(transfer, k);
    var w := Work(transfer, k);
    var before, after := Copied(memory, transfer, k), Copied(memory, transfer, k + 1);
    assert w.Destination() == transfer.destinationStart + k;
    var result := ExecuteOne(before, Some(w));
    var d := transfer.destinationStart + k;
    assert after[d] == SourceByte(memory, transfer, w.Source()) by {
      assert d - transfer.destinationStart == k;
    }
    assert w.ReadOverride().None? ==> before[w.Source()] == memory[w.Source()];
    assert result[d] == after[d];
    assert forall a :: 0 <= a < 0x1_0000 && a != w.Destination() ==> result[a] == before[a] == after[a];
  }
}
