/** The per-cycle record buffers: the channel on which timer and serial ticks report edges and interrupts. */
module Scheduler {
  import opened Prelude

  datatype DerivedEdge = DividerTick | TimerInputFallingEdge | ApuFrameSequencerEdge

  datatype InterruptSource = VBlank | LcdStat | TimerInterrupt | SerialInterrupt | Joypad

  const MAX_RECORDS_PER_CYCLE: nat := 16

  /** `s` without its first occurrence of `x`. */
  function WithoutFirst<T(==)>(s: seq<T>, x: T): seq<T> {
    if s == [] then []
    else if s[0] == x then s[1..]
    else [s[0]] + WithoutFirst(s[1..], x)
  }

  /** Removal at the first position holding `x` splices the sequence there. */
  lemma {:induction false} WithoutFirstAt<T>(s: seq<T>, x: T, k: nat)
    requires k < |s| && s[k] == x && x !in s[..k]
    ensures WithoutFirst(s, x) == s[..k] + s[k + 1..]
  {
    if k > 0 {
      assert s[..k][0] == s[0];
      assert s[1..][..k - 1] == s[..k][1..];
      WithoutFirstAt(s[1..], x, k - 1);
      assert s[1..][k..] == s[k + 1..];
      assert [s[0]] + (s[1..k] + s[k + 1..]) == s[..k] + s[k + 1..];
    } else {
      assert s[..0] + s[1..] == s[1..];
    }
  }

  /** Exactly one occurrence goes, and nothing does when there is none. */
  lemma {:induction false} WithoutFirstCount<T>(s: seq<T>, x: T)
    ensures x in s ==> multiset(WithoutFirst(s, x)) == multiset(s) - multiset{x}
    ensures x !in s ==> WithoutFirst(s, x) == s
  {
    if s != [] {
      assert s == [s[0]] + s[1..];
      if s[0] != x {
        WithoutFirstCount(s[1..], x);
      }
    }
  }

  class CycleRecordBuffer<T(==)> {
    const items: array<T>
    var len: nat

    ghost predicate Valid()
      reads this
    {
      len <= items.Length
    }

    ghost function Contents(): (s: seq<T>)
      requires Valid()
      reads this, items
      ensures |s| == len
    {
      items[..len]
    }

    constructor (capacity: nat, filler: T)
      ensures Valid() && fresh(items) && items.Length == capacity && Contents() == []
    {
      items := new T[capacity](_ => filler);
      len := 0;
    }

    method Clear()
      requires Valid()
      modifies this
      ensures Valid() && Contents() == []
    {
      len := 0;
    }

    /** The source asserts that the buffer is not full. */
    method Push(item: T)
      requires Valid() && len < items.Length
      modifies this, items
      ensures Valid() && Contents() == old(Contents()) + [item]
    {
      items[len] := item;
      len := len + 1;
    }

    method RemoveFirst(item: T) returns (found: bool)
      requires Valid()
      modifies this, items
      ensures Valid()
      ensures found == (item in old(Contents()))
      ensures Contents() == WithoutFirst(old(Contents()), item)
    {
      var index := 0;
      while index < len && items[index] != item
        invariant 0 <= index <= len
        invariant item !in items[..index]
      {
        index := index + 1;
      }
      WithoutFirstCount(Contents(), item);
      if index == len {
        return false;
      }
      WithoutFirstAt(Contents(), item, index);
      assert Contents()[..index] == items[..index];
      ShiftLeft(index);
      return true;
    }

    /** Closes the gap at `index` by moving every later record one place down. */
    method ShiftLeft(index: nat)
      requires Valid() && index < len
      modifies this, items
      ensures Valid()
      ensures Contents() == old(Contents())[..index] + old(Contents())[index + 1..]
    {
      var next := index + 1;
      while next < len
        invariant index < next <= len == old(len)
        invariant forall i :: 0 <= i < index ==> items[i] == old(items[i])
        invariant forall i :: index <= i < next - 1 ==> items[i] == old(items[i + 1])
        invariant forall i :: next <= i < len ==> items[i] == old(items[i])
      {
        items[next - 1] := items[next];
        next := next + 1;
      }
      len := len - 1;
    }
  }

  class CycleContext {
    const derivedEdges: CycleRecordBuffer<DerivedEdge>
    const interruptRequests: CycleRecordBuffer<InterruptSource>

    ghost function Repr(): set<object> {
      {derivedEdges, derivedEdges.items, interruptRequests, interruptRequests.items}
    }

    ghost predicate Valid()
      reads Repr()
    {
      && derivedEdges.Valid() && derivedEdges.items.Length == MAX_RECORDS_PER_CYCLE
      && interruptRequests.Valid() && interruptRequests.items.Length == MAX_RECORDS_PER_CYCLE
      && derivedEdges as object != interruptRequests
      && derivedEdges.items as object != interruptRequests.items
    }

    ghost function Edges(): seq<DerivedEdge>
      requires Valid()
      reads Repr()
    {
      derivedEdges.Contents()
    }

    ghost function Interrupts(): seq<InterruptSource>
      requires Valid()
      reads Repr()
    {
      interruptRequests.Contents()
    }

    constructor ()
      ensures Valid() && fresh(Repr()) && Edges() == [] && Interrupts() == []
    {
      derivedEdges := new CycleRecordBuffer(MAX_RECORDS_PER_CYCLE, DividerTick);
      interruptRequests := new CycleRecordBuffer(MAX_RECORDS_PER_CYCLE, VBlank);
    }

    method ResetForCycle()
      requires Valid()
      modifies Repr()
      ensures Valid() && Edges() == [] && Interrupts() == []
    {
      derivedEdges.Clear();
      interruptRequests.Clear();
    }

    method PushDerivedEdge(edge: DerivedEdge)
      requires Valid() && |Edges()| < MAX_RECORDS_PER_CYCLE
      modifies Repr()
      ensures Valid() && Edges() == old(Edges()) + [edge] && Interrupts() == old(Interrupts())
    {
      derivedEdges.Push(edge);
    }

    method QueueInterruptRequest(interrupt: InterruptSource)
      requires Valid() && |Interrupts()| < MAX_RECORDS_PER_CYCLE
      modifies Repr()
      ensures Valid() && Interrupts() == old(Interrupts()) + [interrupt] && Edges() == old(Edges())
    {
      interruptRequests.Push(interrupt);
    }

    method TakeInterruptRequest(interrupt: InterruptSource) returns (taken: bool)
      requires Valid()
      modifies Repr()
      ensures Valid() && Edges() == old(Edges())
      ensures taken == (interrupt in old(Interrupts()))
      ensures Interrupts() == WithoutFirst(old(Interrupts()), interrupt)
    {
      taken := interruptRequests.RemoveFirst(interrupt);
    }
  }
}
