/** The schedule of a run whose windows come far enough apart: each fresh window serves the next block. */
module DmaHdmaWindows {
  import opened Prelude
  import opened Hardware
  import opened DmaTransfers
  import opened Dma
  import opened DmaHdmaSchedule

  /** The windows that a running CPU meets from tick `from` on, each different from the one met before it, with the
      ticks on which they are met. */
  function Fresh(served: HBlankWindow, from: int, contexts: seq<RuntimeContext>): seq<Start> {
    if contexts == [] then []
    else
      var n := |contexts| - 1;
      var c, earlier := contexts[n], Fresh(served, from, contexts[..n]);
      if n >= from && !c.cpuHalted && !c.Window().NoWindow? && c.Window() != LastWindow(served, earlier)
      then earlier + [Start(n, Block(c.speed), c.Window())]
      else earlier
  }

  function LastWindow(served: HBlankWindow, windows: seq<Start>): HBlankWindow {
    if windows == [] then served else windows[|windows| - 1].window
  }

  /** Every block is published, 44 or 76 ticks after it opened, before the slot goes to the next occupant. */
  predicate Spaced(starts: seq<Start>) {
    forall j: nat :: 0 < j < |starts| && starts[j - 1].occupant.Block? ==>
      starts[j].tick >= starts[j - 1].tick + starts[j - 1].occupant.Settled()
  }

  /** The slot before the first window: whatever is there when the run starts, and a restart if one is pending. */
  function Base(plan: Plan): seq<Start> {
    if plan.restart.None? then [plan.prior] else [plan.prior, RestartAt(plan.restart.value, plan.prior.window)]
  }

  function BaseBy(plan: Plan, n: nat): seq<Start> {
    if plan.restart.Some? && plan.restart.value < n then Base(plan) else [plan.prior]
  }

  /** The tick from which the slot is free of what stood there and of the restarted transfer. */
  function FreeFrom(plan: Plan): int {
    if plan.restart.Some? then plan.restart.value + RESTART_DURATION
    else plan.prior.tick + plan.prior.occupant.Duration()
  }

  /** The fresh windows of a run once the slot is free; one that began to show earlier counts if it still shows then. */
  function Windows(plan: Plan, contexts: seq<RuntimeContext>): seq<Start> {
    Fresh(plan.prior.window, FreeFrom(plan), contexts)
  }

  /** No fresh window shows in the ticks, if any, that the slot is free before a pending restart takes it over. */
  predicate NoneBeforeRestart(plan: Plan, contexts: seq<RuntimeContext>) {
    plan.restart.Some? ==>
      forall n: nat | n < |contexts| && plan.prior.tick + plan.prior.occupant.Duration() <= n <= plan.restart.value ::
        contexts[n].cpuHalted || contexts[n].Window() in {NoWindow, plan.prior.window}
  }

  /** Every block of the run has its time: the one in progress, and those that the fresh windows open. */
  predicate WellSpaced(plan: Plan, contexts: seq<RuntimeContext>) {
    Spaced(Base(plan) + Windows(plan, contexts)) && NoneBeforeRestart(plan, contexts)
  }

  /** Blocks still to be opened when the run starts. */
  function Wanted(plan: Plan): nat
    requires plan.blocks > 0
  {
    if plan.prior.occupant.Block? then plan.blocks - 1 else plan.blocks
  }

  function Served(plan: Plan, contexts: seq<RuntimeContext>): seq<Start>
    requires plan.blocks > 0
  {
    var windows := Windows(plan, contexts);
    BaseBy(plan, |contexts|) + windows[..Min(Wanted(plan), |windows|)]
  }

  lemma {:induction false} FreshFacts(served: HBlankWindow, from: int, contexts: seq<RuntimeContext>)
    ensures forall j: nat :: j < |Fresh(served, from, contexts)| ==>
      && Fresh(served, from, contexts)[j].occupant.Block?
      && 0 <= Fresh(served, from, contexts)[j].tick < |contexts|
      && from <= Fresh(served, from, contexts)[j].tick
  {
    if contexts != [] {
      FreshFacts(served, from, contexts[..|contexts| - 1]);
    }
  }

  function BlockStarts(starts: seq<Start>): nat {
    if starts == [] then 0
    else BlockStarts(starts[..|starts| - 1]) + if starts[|starts| - 1].occupant.Block? then 1 else 0
  }

  lemma {:induction false} BlockStartsOfServed(base: seq<Start>, blocks: seq<Start>)
    requires forall j: nat :: j < |blocks| ==> blocks[j].occupant.Block?
    ensures BlockStarts(base + blocks) == BlockStarts(base) + |blocks|
  {
    if blocks == [] {
      assert base + blocks == base;
    } else {
      var m := |blocks| - 1;
      assert (base + blocks)[..|base| + m] == base + blocks[..m];
      BlockStartsOfServed(base, blocks[..m]);
    }
  }

  lemma {:induction false} BlockStartsOfBase(plan: Plan)
    ensures BlockStarts(Base(plan)) == BlockStarts([plan.prior]) == if plan.prior.occupant.Block? then 1 else 0
  {
    assert [plan.prior][..0] == [];
    if plan.restart.Some? {
      assert Base(plan)[..1] == [plan.prior];
    }
  }

  lemma {:induction false} SpacedPrefix(starts: seq<Start>, k: nat)
    requires Spaced(starts) && k <= |starts|
    ensures Spaced(starts[..k])
  {
  }

  /** Nothing but blocks needs time after it. */
  lemma {:induction false} SpacedAfterOthers(base: seq<Start>, windows: seq<Start>)
    requires Spaced(windows) && forall j: nat :: j < |base| ==> base[j].occupant.Other?
    ensures Spaced(base + windows)
  {
    var all := base + windows;
    forall j: nat | 0 < j < |all| && all[j - 1].occupant.Block?
      ensures all[j].tick >= all[j - 1].tick + all[j - 1].occupant.Settled()
    {
      assert all[j - 1] == windows[j - 1 - |base|] && all[j] == windows[j - |base|];
    }
  }

  /** In a spaced schedule every block but perhaps the last has been published. */
  lemma {:induction false} SpacedCount(starts: seq<Start>, n: int)
    requires starts != [] && Spaced(starts)
    ensures var last := starts[|starts| - 1];
      NextBlock(starts, n)
      == BlockStarts(starts)
         - if last.occupant.Block? && n < last.tick + PublishDelay(last.occupant.speed) then 1 else 0
  {
    hide PublishDelay;
    var m := |starts| - 1;
    if m > 0 {
      SpacedPrefix(starts, m);
      SpacedCount(starts[..m], starts[m].tick);
    }
  }

  lemma {:induction false} SpacedHasNoRepeats(starts: seq<Start>, n: int)
    requires Spaced(starts)
    ensures NoRepeats(starts, n)
  {
    forall i: nat, j: nat | i < j < |starts| && Began(starts, n, i) && Began(starts, n, j)
      ensures Published(starts, n, i)
    {
      assert starts[i + 1].tick >= starts[i + 1 - 1].tick + starts[i].occupant.Settled();
    }
  }

  lemma {:induction false} WindowFacts(plan: Plan, contexts: seq<RuntimeContext>)
    ensures forall j: nat :: j < |Windows(plan, contexts)| ==>
      && Windows(plan, contexts)[j].occupant.Block?
      && Max(0, FreeFrom(plan)) <= Windows(plan, contexts)[j].tick < |contexts|
    ensures Windows(plan, contexts) != [] ==> BaseBy(plan, |contexts|) == Base(plan)
  {
    FreshFacts(plan.prior.window, FreeFrom(plan), contexts);
    assert Windows(plan, contexts) != [] ==> FreeFrom(plan) <= Windows(plan, contexts)[0].tick < |contexts|;
    hide Fresh;
  }

  lemma {:induction false} ServedFacts(plan: Plan, contexts: seq<RuntimeContext>)
    requires plan.blocks > 0 && WellSpaced(plan, contexts)
    ensures var windows, served := Windows(plan, contexts), Served(plan, contexts);
      var k := Min(Wanted(plan), |windows|);
      && served != [] && Spaced(served)
      && BlockStarts(served) == plan.blocks - Wanted(plan) + k
      && (k == |windows| ==> served[|served| - 1].window == LastWindow(plan.prior.window, windows))
      && (k < |windows| ==> windows[k].tick >= served[|served| - 1].tick + served[|served| - 1].occupant.Settled())
  {
    var windows, served := Windows(plan, contexts), Served(plan, contexts);
    var k := Min(Wanted(plan), |windows|);
    hide Windows, BlockStarts, NoneBeforeRestart, Spaced, BaseBy, Base, Occupant.Settled;
    ServedIsPrefix(plan, contexts);
    SpacedPrefix(Base(plan) + windows, |served|);
    ServedBlocks(plan, contexts);
    if k == |windows| {
      ServedLast(plan, contexts);
    } else {
      NextWindow(plan, contexts);
    }
  }

  lemma {:induction false} ServedIsPrefix(plan: Plan, contexts: seq<RuntimeContext>)
    requires plan.blocks > 0
    ensures var all, served := Base(plan) + Windows(plan, contexts), Served(plan, contexts);
      0 < |served| <= |all| && served == all[..|served|]
  {
    WindowFacts(plan, contexts);
    hide Windows;
  }

  lemma {:induction false} ServedBlocks(plan: Plan, contexts: seq<RuntimeContext>)
    requires plan.blocks > 0
    ensures BlockStarts(Served(plan, contexts))
         == plan.blocks - Wanted(plan) + Min(Wanted(plan), |Windows(plan, contexts)|)
  {
    var windows := Windows(plan, contexts);
    WindowFacts(plan, contexts);
    BlockStartsOfBase(plan);
    BlockStartsOfServed(BaseBy(plan, |contexts|), windows[..Min(Wanted(plan), |windows|)]);
    hide Windows, BlockStarts;
  }

  lemma {:induction false} ServedLast(plan: Plan, contexts: seq<RuntimeContext>)
    requires plan.blocks > 0 && |Windows(plan, contexts)| <= Wanted(plan) && Served(plan, contexts) != []
    ensures Served(plan, contexts)[|Served(plan, contexts)| - 1].window
         == LastWindow(plan.prior.window, Windows(plan, contexts))
  {
    hide Windows, BaseBy;
    BaseWindow(plan, |contexts|);
  }

  lemma {:induction false} BaseWindow(plan: Plan, n: nat)
    ensures var base := BaseBy(plan, n);
      base != [] && base[|base| - 1].window == plan.prior.window
  {
  }

  /** The window after the last one served comes when the block of that one has had its time. */
  lemma {:induction false} NextWindow(plan: Plan, contexts: seq<RuntimeContext>)
    requires plan.blocks > 0 && Spaced(Base(plan) + Windows(plan, contexts))
    requires |Windows(plan, contexts)| > Wanted(plan) && Served(plan, contexts) != []
    ensures var served := Served(plan, contexts);
      var last := served[|served| - 1];
      Windows(plan, contexts)[Wanted(plan)].tick >= last.tick + last.occupant.Settled()
  {
    var windows, k := Windows(plan, contexts), Wanted(plan);
    var all := Base(plan) + windows;
    var at := |Base(plan)| + k;
    WindowFacts(plan, contexts);
    hide Windows;
    assert all[at] == windows[k] && all[at - 1] == Served(plan, contexts)[|Served(plan, contexts)| - 1];
  }

  /** Until the slot is free nothing opens. */
  lemma {:induction false} BusyTick(plan: Plan, contexts: seq<RuntimeContext>, n: nat)
    requires n < |contexts| && n < FreeFrom(plan) && NoneBeforeRestart(plan, contexts)
    ensures BaseBy(plan, n) != [] && !Eligible(plan.blocks, BaseBy(plan, n), n, contexts[n])
  {
    hide NextBlock, RuntimeContext.Window;
  }

  /** A tick that meets no fresh window opens nothing; one that does opens the next block wanted. */
  lemma {:induction false} SpacedTick(plan: Plan, contexts: seq<RuntimeContext>)
    requires contexts != [] && plan.blocks > 0
    requires WellSpaced(plan, contexts) && WellSpaced(plan, contexts[..|contexts| - 1])
    requires Served(plan, contexts[..|contexts| - 1]) != []
    ensures var n := |contexts| - 1;
      var before, windows := contexts[..n], Windows(plan, contexts);
      Eligible(plan.blocks, Served(plan, before), n, contexts[n])
      <==> windows != Windows(plan, before) && |windows| <= Wanted(plan)
  {
    var n := |contexts| - 1;
    var before := contexts[..n];
    WindowFacts(plan, before);
    WindowsExtend(plan, contexts);
    if n < FreeFrom(plan) {
      BusyTick(plan, contexts, n);
      assert Served(plan, before) == BaseBy(plan, n);
    } else {
      FreeTick(plan, contexts);
    }
    hide Windows, Eligible, WellSpaced, BaseBy, FreeFrom;
  }

  lemma {:induction false} WindowsExtend(plan: Plan, contexts: seq<RuntimeContext>)
    requires contexts != []
    ensures var n, c := |contexts| - 1, contexts[|contexts| - 1];
      var earlier := Windows(plan, contexts[..n]);
      Windows(plan, contexts)
      == if n >= FreeFrom(plan) && !c.cpuHalted && !c.Window().NoWindow?
            && c.Window() != LastWindow(plan.prior.window, earlier)
         then earlier + [Start(n, Block(c.speed), c.Window())]
         else earlier
    ensures |contexts| <= FreeFrom(plan) ==>
      Windows(plan, contexts) == Windows(plan, contexts[..|contexts| - 1]) == []
  {
    var before := contexts[..|contexts| - 1];
    FreshFacts(plan.prior.window, FreeFrom(plan), before);
    assert Windows(plan, before) != [] ==> FreeFrom(plan) <= Windows(plan, before)[0].tick < |before|;
    hide FreeFrom, LastWindow, RuntimeContext.Window;
  }

  lemma {:induction false} FreeTick(plan: Plan, contexts: seq<RuntimeContext>)
    requires contexts != [] && plan.blocks > 0 && |contexts| > FreeFrom(plan)
    requires WellSpaced(plan, contexts) && WellSpaced(plan, contexts[..|contexts| - 1])
    requires Served(plan, contexts[..|contexts| - 1]) != []
    ensures var n := |contexts| - 1;
      var before, windows := contexts[..n], Windows(plan, contexts);
      Eligible(plan.blocks, Served(plan, before), n, contexts[n])
      <==> windows != Windows(plan, before) && |windows| <= Wanted(plan)
  {
    var n := |contexts| - 1;
    var c, before := contexts[n], contexts[..n];
    var windows, earlier := Windows(plan, contexts), Windows(plan, before);
    var served := Served(plan, before);
    var last := served[|served| - 1];
    ServedFacts(plan, before);
    WindowFacts(plan, before);
    WindowsExtend(plan, contexts);
    SpacedCount(served, n);
    LastDuration(plan, before);
    hide Windows, Served, NextBlock, BlockStarts, Base, BaseBy, Spaced, WellSpaced, Occupant.Settled, FreeFrom;
    SettledIsLonger(last.occupant);
    if windows != earlier && |earlier| <= Wanted(plan) {
      SettledByNow(plan, contexts);
    }
  }

  lemma {:induction false} SettledIsLonger(o: Occupant)
    ensures o.Settled() >= o.Duration()
    ensures o.Block? ==> o.Settled() == PublishDelay(o.speed)
    ensures o.Other? ==> o.Settled() == o.Duration()
  {
  }

  /** A fresh window comes when the last block served has had its time. */
  lemma {:induction false} SettledByNow(plan: Plan, contexts: seq<RuntimeContext>)
    requires contexts != [] && plan.blocks > 0 && WellSpaced(plan, contexts)
    requires var earlier := Windows(plan, contexts[..|contexts| - 1]);
      |earlier| <= Wanted(plan) && |Windows(plan, contexts)| > |earlier|
    requires Served(plan, contexts[..|contexts| - 1]) != []
    ensures var served := Served(plan, contexts[..|contexts| - 1]);
      var last := served[|served| - 1];
      last.occupant.Block? ==> |contexts| - 1 >= last.tick + last.occupant.Settled()
  {
    var n := |contexts| - 1;
    var windows, earlier := Windows(plan, contexts), Windows(plan, contexts[..n]);
    var all, served := Base(plan) + windows, Served(plan, contexts[..n]);
    WindowsExtend(plan, contexts);
    WindowFacts(plan, contexts[..n]);
    hide Windows, RuntimeContext.Window, NoneBeforeRestart;
    assert all[|all| - 1].tick == n && all[|all| - 2] == served[|served| - 1];
  }

  lemma {:induction false} LastDuration(plan: Plan, contexts: seq<RuntimeContext>)
    requires plan.blocks > 0 && |contexts| >= FreeFrom(plan) && Served(plan, contexts) != []
    ensures var last := Served(plan, contexts)[|Served(plan, contexts)| - 1];
      last.occupant.Other? ==> last.tick + last.occupant.Duration() == FreeFrom(plan)
  {
    WindowFacts(plan, contexts);
    hide Windows;
  }

  lemma {:induction false} TakeOneMore(windows: seq<Start>, next: Start, wanted: nat)
    ensures var more := windows + [next];
      more[..Min(wanted, |more|)]
      == windows[..Min(wanted, |windows|)] + if |windows| < wanted then [next] else []
  {
  }

  lemma {:induction false} ServedExtends(plan: Plan, contexts: seq<RuntimeContext>)
    requires contexts != [] && plan.blocks > 0
    requires WellSpaced(plan, contexts) && WellSpaced(plan, contexts[..|contexts| - 1])
    ensures var n := |contexts| - 1;
      var served := Served(plan, contexts[..n]);
      served != [] && Served(plan, contexts) == served + NewStart(plan, served, n, contexts[n])
  {
    var n := |contexts| - 1;
    var before := contexts[..n];
    var windows, earlier := Windows(plan, contexts), Windows(plan, before);
    ServedFacts(plan, before);
    SpacedTick(plan, contexts);
    WindowsExtend(plan, contexts);
    if plan.restart == Some(n) {
      assert windows == earlier == [] && Served(plan, before) == [plan.prior];
      assert Served(plan, contexts) == Base(plan) == [plan.prior] + [RestartAt(n, plan.prior.window)];
    } else if windows == earlier {
      assert BaseBy(plan, n + 1) == BaseBy(plan, n);
    } else {
      assert BaseBy(plan, n + 1) == BaseBy(plan, n) == Base(plan);
      TakeOneMore(earlier, windows[|earlier|], Wanted(plan));
    }
    hide Eligible, BlockStarts, WellSpaced, Windows, RuntimeContext.Window, Spaced, Occupant.Settled;
  }

  lemma {:induction false} WellSpacedBefore(plan: Plan, contexts: seq<RuntimeContext>)
    requires contexts != [] && WellSpaced(plan, contexts)
    ensures WellSpaced(plan, contexts[..|contexts| - 1])
  {
    var windows, earlier := Windows(plan, contexts), Windows(plan, contexts[..|contexts| - 1]);
    WindowsExtend(plan, contexts);
    hide Windows;
    var all := Base(plan) + windows;
    assert all[..|Base(plan)| + |earlier|] == Base(plan) + earlier;
    SpacedPrefix(all, |Base(plan)| + |earlier|);
  }

  /** With every block given its time, the schedule is what stood at the start, the restart if one is pending, and then
      one block for each fresh window, until all are served. */
  lemma {:induction false} ScheduleOfSpaced(plan: Plan, contexts: seq<RuntimeContext>)
    requires plan.blocks > 0 && WellSpaced(plan, contexts)
    ensures Schedule(plan, contexts) == Served(plan, contexts)
  {
    if contexts == [] {
      assert Served(plan, contexts) == [plan.prior];
    } else {
      hide *;
      WellSpacedBefore(plan, contexts);
      ScheduleOfSpaced(plan, contexts[..|contexts| - 1]);
      ServedExtends(plan, contexts);
      ScheduleExtends(plan, contexts);
    }
  }

  /** The tick by which all the blocks of the request have been published. */
  function CompletionTick(plan: Plan, windows: seq<Start>): int
    requires plan.blocks > 0 && |windows| >= Wanted(plan)
  {
    var last := if Wanted(plan) == 0 then plan.prior else windows[Wanted(plan) - 1];
    last.tick + last.occupant.Settled()
  }

  lemma {:induction false} PublishedWhenComplete(plan: Plan, contexts: seq<RuntimeContext>)
    requires plan.blocks > 0 && WellSpaced(plan, contexts)
    ensures NextBlock(Served(plan, contexts), |contexts|) == plan.blocks
       <==> |Windows(plan, contexts)| >= Wanted(plan)
            && |contexts| >= CompletionTick(plan, Windows(plan, contexts))
  {
    var windows, served := Windows(plan, contexts), Served(plan, contexts);
    ServedFacts(plan, contexts);
    SpacedCount(served, |contexts|);
    WindowFacts(plan, contexts);
    var all := Base(plan) + windows;
    assert plan.restart.Some? ==> all[1] == Base(plan)[1] && all[0] == plan.prior;
    assert Wanted(plan) > 0 && |windows| >= Wanted(plan) ==> served[|served| - 1] == windows[Wanted(plan) - 1];
    hide NextBlock, BlockStarts, Windows;
  }

  /** A schedule that gives every block its time has published all the blocks of the request when as many have opened
      and the last one has had its time too. */
  lemma {:induction false} PublishedWhenServed(plan: Plan, starts: seq<Start>, n: int)
    requires starts != [] && Spaced(starts) && Ordered(plan.blocks, starts) && plan.blocks > 0
    ensures BlockStarts(starts) <= plan.blocks
    ensures var last := starts[|starts| - 1];
      NextBlock(starts, n) == plan.blocks
      <==> BlockStarts(starts) == plan.blocks && (last.occupant.Block? ==> n >= last.tick + last.occupant.Settled())
  {
    SpacedCount(starts, n);
    AtMostWanted(plan.blocks, starts);
    hide NextBlock, BlockStarts, Spaced, Ordered;
  }

  lemma {:induction false} AtMostWanted(blocks: pos, starts: seq<Start>)
    requires starts != [] && Spaced(starts) && Ordered(blocks, starts)
    ensures BlockStarts(starts) <= blocks
  {
    var m := |starts| - 1;
    var last, before := starts[m], starts[..m];
    hide NextBlock, Ordered, Spaced;
    if m > 0 {
      SpacedPrefix(starts, m);
      OrderedPrefix(blocks, starts);
      AtMostWanted(blocks, before);
      SpacedCount(before, last.tick);
      if before[m - 1].occupant.Block? {
        PublishedByNext(starts);
      }
    }
  }

  lemma {:induction false} OrderedPrefix(blocks: pos, starts: seq<Start>)
    requires |starts| > 1 && Ordered(blocks, starts)
    ensures Ordered(blocks, starts[..|starts| - 1])
    ensures starts[|starts| - 1].occupant.Block? ==>
      NextBlock(starts[..|starts| - 1], starts[|starts| - 1].tick) < blocks
  {
    var m := |starts| - 1;
    assert forall j: nat :: j < m ==> starts[..m][..j] == starts[..j];
    hide NextBlock, Occupant.Duration;
  }

  lemma {:induction false} PublishedByNext(starts: seq<Start>)
    requires |starts| > 1 && Spaced(starts) && starts[|starts| - 2].occupant.Block?
    ensures starts[|starts| - 1].tick >= starts[|starts| - 2].tick + starts[|starts| - 2].occupant.Settled()
  {
  }
}
