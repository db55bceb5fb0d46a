/** When HDMA blocks open, as a function of the video conditions alone, and which bytes such a schedule moves. */
module DmaHdmaSchedule {
  import opened Prelude
  import opened Hardware
  import opened DmaTransfers
  import opened Dma

  /** Ticks from the start of a block to its publication: 44 at normal speed, 76 at double speed. */
  function PublishDelay(speed: CgbSpeedMode): nat {
    match speed
    case Normal => 44
    case Double => 76
  }

  /** Ticks from the start of a block to the end of its CPU stall: 37 or 69. */
  function BlockDuration(speed: CgbSpeedMode): nat {
    match speed
    case Normal => 37
    case Double => 69
  }

  /** Ticks for which a restarted OAM transfer keeps the slot, counted from the tick on which it takes over. */
  const RESTART_DURATION: nat := OAM_TOTAL_T_CYCLES - OAM_RESTRICTION_DELAY + 1

  /** What holds the controller's one transfer slot: an HDMA block, or something else for some ticks more. */
  datatype Occupant = Block(speed: CgbSpeedMode) | Other(ticks: nat) {

    function Duration(): nat {
      match this
      case Block(speed) => BlockDuration(speed)
      case Other(ticks) => ticks
    }

    /** Ticks after which the occupant leaves nothing behind: a block has been published by then. */
    function Settled(): nat {
      match this
      case Block(speed) => PublishDelay(speed)
      case Other(ticks) => ticks
    }
  }

  /** The occupant from tick `tick` on, and the window last served by then. A block in progress when the run starts
      has a tick at or below zero. */
  datatype Start = Start(tick: int, occupant: Occupant, window: HBlankWindow)

  function RestartAt(tick: int, window: HBlankWindow): Start {
    Start(tick, Other(RESTART_DURATION), window)
  }

  /** How many blocks have been published by the start of tick `n`; a block opened then copies this one.
      A block displaced before its publication does not count, so its successor repeats it. */
  function NextBlock(starts: seq<Start>, n: int): nat {
    if starts == [] then 0
    else
      var last, before := starts[|starts| - 1], starts[..|starts| - 1];
      NextBlock(before, last.tick)
      + if last.occupant.Block? && n >= last.tick + PublishDelay(last.occupant.speed) then 1 else 0
  }

  /** What is known of a run before it starts: the blocks to copy, the slot's occupant and the tick on which a
      pending restart takes the slot over. */
  datatype Plan = Plan(blocks: nat, prior: Start, restart: Option<nat>)

  /** Whether a block opens on tick `n`. */
  predicate Eligible(blocks: nat, starts: seq<Start>, n: nat, c: RuntimeContext)
    requires starts != []
  {
    var last := starts[|starts| - 1];
    && !c.cpuHalted && !c.Window().NoWindow? && c.Window() != last.window
    && n >= last.tick + last.occupant.Duration()
    && NextBlock(starts, n) < blocks
  }

  /** The restart displaces whatever is there, a block opened on the same tick included: only the window of that
      block stays served. */
  function NewStart(plan: Plan, starts: seq<Start>, n: nat, c: RuntimeContext): seq<Start>
    requires starts != []
  {
    var opens := Eligible(plan.blocks, starts, n, c);
    if plan.restart == Some(n) then
      [RestartAt(n, if opens then c.Window() else starts[|starts| - 1].window)]
    else if opens then [Start(n, Block(c.speed), c.Window())]
    else []
  }

  /** The occupants of the slot over a run. The controller does not appear in it. */
  function Schedule(plan: Plan, contexts: seq<RuntimeContext>): (starts: seq<Start>)
    ensures starts != []
  {
    if contexts == [] then [plan.prior]
    else
      var n := |contexts| - 1;
      var starts := Schedule(plan, contexts[..n]);
      starts + NewStart(plan, starts, n, contexts[n])
  }

  lemma {:induction false} ScheduleStarts(plan: Plan, contexts: seq<RuntimeContext>)
    requires contexts == []
    ensures Schedule(plan, contexts) == [plan.prior]
  {
  }

  lemma {:induction false} ScheduleExtends(plan: Plan, contexts: seq<RuntimeContext>)
    requires contexts != []
    ensures var n := |contexts| - 1;
      var starts := Schedule(plan, contexts[..n]);
      starts != [] && Schedule(plan, contexts) == starts + NewStart(plan, starts, n, contexts[n])
  {
  }

  datatype ByteMove = ByteMove(source: u16, destination: u16)

  /** Byte `i` of the request: consecutive source and destination addresses. */
  function MoveAt(t: VramTransfer, i: nat): ByteMove {
    ByteMove((t.sourceStart + i) % 0x1_0000, (t.destinationStart + i) % 0x1_0000)
  }

  function Contiguous(t: VramTransfer, from: nat, count: nat): seq<ByteMove> {
    seq(count, (i: nat) => MoveAt(t, from + i))
  }

  /** Bytes of a block issued in its first `ticks` ticks. */
  function Issued(speed: CgbSpeedMode, ticks: int): nat {
    var first, per := VramFirstByteDelay(speed), VramTCyclesPerByte(speed);
    if ticks < first then 0 else Min(16, 1 + (ticks - first) / per)
  }

  function LastIssued(starts: seq<Start>, n: int): nat
    requires starts != []
  {
    var last := starts[|starts| - 1];
    if last.occupant.Block? then Issued(last.occupant.speed, n - last.tick) else 0
  }

  /** What a schedule moves up to tick `n`: each start one block, as far as it got before it was displaced. */
  function ExpectedMoves(t: VramTransfer, starts: seq<Start>, n: int): seq<ByteMove> {
    if starts == [] then []
    else
      var last, before := starts[|starts| - 1], starts[..|starts| - 1];
      ExpectedMoves(t, before, last.tick)
      + Contiguous(t, 16 * NextBlock(before, last.tick), LastIssued(starts, n))
  }

  /** The tick on which start `j` is displaced, or the present one. */
  function End(starts: seq<Start>, n: int, j: nat): int
    requires j < |starts|
  {
    if j + 1 < |starts| then starts[j + 1].tick else n
  }

  /** Start `j` is a block that has issued a byte. */
  predicate Began(starts: seq<Start>, n: int, j: nat)
    requires j < |starts|
  {
    && starts[j].occupant.Block?
    && End(starts, n, j) >= starts[j].tick + VramFirstByteDelay(starts[j].occupant.speed)
  }

  /** Start `j` is a block that has been published. */
  predicate Published(starts: seq<Start>, n: int, j: nat)
    requires j < |starts|
  {
    && starts[j].occupant.Block?
    && End(starts, n, j) >= starts[j].tick + PublishDelay(starts[j].occupant.speed)
  }

  /** No block issues a byte after an earlier block issued one and was displaced before its publication. */
  predicate NoRepeats(starts: seq<Start>, n: int) {
    forall i: nat, j: nat :: i < j < |starts| && Began(starts, n, i) && Began(starts, n, j) ==> Published(starts, n, i)
  }

  /** Some block issued a byte and is not published. */
  predicate Dangling(starts: seq<Start>, n: int) {
    exists i: nat :: i < |starts| && Began(starts, n, i) && !Published(starts, n, i)
  }

  lemma {:induction false} ExpectedUnfolds(t: VramTransfer, starts: seq<Start>, n: int)
    requires starts != []
    ensures var last, before := starts[|starts| - 1], starts[..|starts| - 1];
      ExpectedMoves(t, starts, n)
      == ExpectedMoves(t, before, last.tick) + Contiguous(t, 16 * NextBlock(before, last.tick), LastIssued(starts, n))
  {
  }

  lemma {:induction false} IssuedBounds(speed: CgbSpeedMode, ticks: int)
    ensures Issued(speed, ticks) <= 16
    ensures Issued(speed, ticks) > 0 <==> ticks >= VramFirstByteDelay(speed)
    ensures ticks >= BlockDuration(speed) ==> Issued(speed, ticks) == 16
    ensures VramFirstByteDelay(speed) < BlockDuration(speed) < PublishDelay(speed)
  {
  }

  lemma {:induction false} LastFacts(starts: seq<Start>, n: int)
    requires starts != []
    ensures var m := |starts| - 1;
      var last, before := starts[m], starts[..m];
      && LastIssued(starts, n) <= 16
      && (LastIssued(starts, n) > 0 <==> Began(starts, n, m))
      && (Published(starts, n, m) ==> LastIssued(starts, n) == 16)
      && NextBlock(starts, n) == NextBlock(before, last.tick) + if Published(starts, n, m) then 1 else 0
  {
    var last := starts[|starts| - 1];
    if last.occupant.Block? {
      IssuedBounds(last.occupant.speed, n - last.tick);
    }
    hide Issued;
  }

  lemma {:induction false} BeganBefore(starts: seq<Start>, n: int, j: nat)
    requires j + 1 < |starts|
    ensures var before, cut := starts[..|starts| - 1], starts[|starts| - 1].tick;
      && (Began(before, cut, j) <==> Began(starts, n, j))
      && (Published(before, cut, j) <==> Published(starts, n, j))
  {
  }

  lemma {:induction false} DanglingUnfolds(starts: seq<Start>, n: int)
    requires starts != []
    ensures var m := |starts| - 1;
      Dangling(starts, n)
      <==> Dangling(starts[..m], starts[m].tick) || (Began(starts, n, m) && !Published(starts, n, m))
  {
    var m := |starts| - 1;
    forall j: nat | j < m
      ensures Began(starts[..m], starts[m].tick, j) <==> Began(starts, n, j)
      ensures Published(starts[..m], starts[m].tick, j) <==> Published(starts, n, j)
    {
      BeganBefore(starts, n, j);
    }
    hide Began, Published;
    if Dangling(starts, n) {
      var i: nat :| i < |starts| && Began(starts, n, i) && !Published(starts, n, i);
      assert i < m ==> Began(starts[..m], starts[m].tick, i);
    }
    if Dangling(starts[..m], starts[m].tick) {
      var i: nat :| i < m && Began(starts[..m], starts[m].tick, i) && !Published(starts[..m], starts[m].tick, i);
      assert Began(starts, n, i);
    }
  }

  lemma {:induction false} NoRepeatsUnfolds(starts: seq<Start>, n: int)
    requires starts != []
    ensures var m := |starts| - 1;
      var before, cut := starts[..m], starts[m].tick;
      NoRepeats(starts, n) <==> NoRepeats(before, cut) && (Began(starts, n, m) ==> !Dangling(before, cut))
  {
    var m := |starts| - 1;
    var before, cut := starts[..m], starts[m].tick;
    forall j: nat | j < m
      ensures Began(before, cut, j) <==> Began(starts, n, j)
      ensures Published(before, cut, j) <==> Published(starts, n, j)
    {
      BeganBefore(starts, n, j);
    }
    hide Began, Published;
    if NoRepeats(starts, n) {
      assert NoRepeats(before, cut);
      assert forall i: nat :: i < m && Began(starts, n, m) && Began(before, cut, i) ==> Published(before, cut, i);
    }
    if NoRepeats(before, cut) && (Began(starts, n, m) ==> !Dangling(before, cut)) {
      forall i: nat, j: nat | i < j < |starts| && Began(starts, n, i) && Began(starts, n, j)
        ensures Published(starts, n, i)
      {
        assert Began(before, cut, i);
        assert j < m ==> Began(before, cut, j);
      }
    }
  }

  /** The byte after the last one moved. */
  function Position(starts: seq<Start>, n: int): nat {
    if starts == [] then 0
    else
      var last, before := starts[|starts| - 1], starts[..|starts| - 1];
      if LastIssued(starts, n) > 0 then 16 * NextBlock(before, last.tick) + LastIssued(starts, n)
      else Position(before, last.tick)
  }

  lemma {:induction false} PositionUnfolds(starts: seq<Start>, n: int)
    requires starts != []
    ensures var last, before := starts[|starts| - 1], starts[..|starts| - 1];
      Position(starts, n)
      == if LastIssued(starts, n) > 0 then 16 * NextBlock(before, last.tick) + LastIssued(starts, n)
         else Position(before, last.tick)
  {
  }

  lemma {:induction false} NothingYet(t: VramTransfer, n: int)
    ensures NextBlock([], n) == Position([], n) == 0 && ExpectedMoves(t, [], n) == [] && Contiguous(t, 0, 0) == []
    ensures !Dangling([], n) && NoRepeats([], n)
  {
  }

  /** Without repeats, the bytes moved end with the published blocks, or inside the one block left unpublished. */
  lemma {:induction false} PositionByBlocks(starts: seq<Start>, n: int)
    requires NoRepeats(starts, n)
    ensures !Dangling(starts, n) ==> Position(starts, n) == 16 * NextBlock(starts, n)
    ensures Dangling(starts, n) ==> 16 * NextBlock(starts, n) < Position(starts, n) <= 16 * NextBlock(starts, n) + 16
  {
    hide *;
    if starts == [] {
      NothingYet(VramTransfer(HBlankMode, 0, 0, 0, 0), n);
    } else {
      NoRepeatsUnfolds(starts, n);
      DanglingUnfolds(starts, n);
      LastFacts(starts, n);
      PositionUnfolds(starts, n);
      PositionByBlocks(starts[..|starts| - 1], starts[|starts| - 1].tick);
    }
  }

  lemma {:induction false} ContiguousLength(t: VramTransfer, from: nat, count: nat)
    ensures |Contiguous(t, from, count)| == count
    ensures count > 0 ==> Contiguous(t, from, count)[0] == MoveAt(t, from)
  {
  }

  lemma {:induction false} ContiguousAt(t: VramTransfer, at: nat, count: nat)
    requires at < count
    ensures |Contiguous(t, 0, count)| == count && Contiguous(t, 0, count)[at] == MoveAt(t, at)
  {
  }

  lemma {:induction false} ContiguousSplit(t: VramTransfer, from: nat, a: nat, b: nat)
    ensures Contiguous(t, from, a) + Contiguous(t, from + a, b) == Contiguous(t, from, a + b)
  {
  }

  lemma {:induction false} ContiguousPrefix(t: VramTransfer, a: nat, b: nat)
    requires a <= b
    ensures Contiguous(t, 0, b)[..a] == Contiguous(t, 0, a)
  {
  }

  lemma {:induction false} NothingMoved(t: VramTransfer, from: nat)
    ensures Contiguous(t, from, 0) == []
  {
  }

  /** Without repeats, the schedule moves the request's bytes, each once and in order. */
  lemma {:induction false} CleanMoves(t: VramTransfer, starts: seq<Start>, n: int)
    requires NoRepeats(starts, n)
    ensures ExpectedMoves(t, starts, n) == Contiguous(t, 0, Position(starts, n))
  {
    hide *;
    if starts == [] {
      NothingYet(t, n);
    } else {
      var last, before := starts[|starts| - 1], starts[..|starts| - 1];
      NoRepeatsUnfolds(starts, n);
      LastFacts(starts, n);
      PositionUnfolds(starts, n);
      ExpectedUnfolds(t, starts, n);
      CleanMoves(t, before, last.tick);
      PositionByBlocks(before, last.tick);
      ContiguousSplit(t, 0, Position(before, last.tick), LastIssued(starts, n));
      NothingMoved(t, 16 * NextBlock(before, last.tick));
    }
  }

  lemma {:induction false} MovesDiffer(t: VramTransfer, from: nat, k: nat)
    requires 1 <= k <= 16
    ensures MoveAt(t, from) != MoveAt(t, from + k)
  {
    ModOfReducedSum(t.destinationStart + from, k, 0x1_0000);
  }

  /** A block that starts over after an unpublished one breaks the contiguous copy for good. */
  lemma {:induction false} EarlyStartRepeats(t: VramTransfer, starts: seq<Start>, n: int)
    requires !NoRepeats(starts, n)
    ensures ExpectedMoves(t, starts, n) != Contiguous(t, 0, |ExpectedMoves(t, starts, n)|)
  {
    hide *;
    if starts == [] {
      NothingYet(t, n);
    } else {
      var last, before := starts[|starts| - 1], starts[..|starts| - 1];
      var moves, earlier := ExpectedMoves(t, starts, n), ExpectedMoves(t, before, last.tick);
      NoRepeatsUnfolds(starts, n);
      ExpectedUnfolds(t, starts, n);
      if NoRepeats(before, last.tick) {
        var q := NextBlock(before, last.tick);
        LastFacts(starts, n);
        CleanMoves(t, before, last.tick);
        PositionByBlocks(before, last.tick);
        ContiguousLength(t, 0, |earlier|);
        ContiguousLength(t, 0, Position(before, last.tick));
        ContiguousLength(t, 16 * q, LastIssued(starts, n));
        assert moves[|earlier|] == MoveAt(t, 16 * q);
        ContiguousAt(t, |earlier|, |moves|);
        MovesDiffer(t, 16 * q, |earlier| - 16 * q);
      } else {
        EarlyStartRepeats(t, before, last.tick);
        assert moves[..|earlier|] == earlier;
        ContiguousPrefix(t, |earlier|, |moves|);
      }
    }
  }

  lemma {:induction false} ContiguousIffNoRepeats(t: VramTransfer, starts: seq<Start>, n: int)
    ensures ExpectedMoves(t, starts, n) == Contiguous(t, 0, |ExpectedMoves(t, starts, n)|) <==> NoRepeats(starts, n)
  {
    hide *;
    if NoRepeats(starts, n) {
      CleanMoves(t, starts, n);
      ContiguousLength(t, 0, Position(starts, n));
    } else {
      EarlyStartRepeats(t, starts, n);
    }
  }

  /** Every block start finds a block left to copy; blocks open only when the slot is free, in fresh windows. */
  predicate Ordered(blocks: nat, starts: seq<Start>) {
    forall j: nat :: 0 < j < |starts| && starts[j].occupant.Block? ==>
      && starts[j].tick >= starts[j - 1].tick + starts[j - 1].occupant.Duration()
      && starts[j].window != starts[j - 1].window
      && NextBlock(starts[..j], starts[j].tick) < blocks
  }

  lemma {:induction false} OrderedExtends(plan: Plan, starts: seq<Start>, n: nat, c: RuntimeContext)
    requires starts != [] && Ordered(plan.blocks, starts)
    ensures Ordered(plan.blocks, starts + NewStart(plan, starts, n, c))
  {
    var all := starts + NewStart(plan, starts, n, c);
    hide NextBlock, RuntimeContext.Window, Occupant.Duration, Ordered;
    OrderedAppend(plan.blocks, starts, all);
  }

  lemma {:induction false} OrderedAppend(blocks: nat, starts: seq<Start>, all: seq<Start>)
    requires starts != [] && Ordered(blocks, starts) && starts <= all && |all| <= |starts| + 1
    requires |all| > |starts| && all[|starts|].occupant.Block? ==>
      && all[|starts|].tick >= starts[|starts| - 1].tick + starts[|starts| - 1].occupant.Duration()
      && all[|starts|].window != starts[|starts| - 1].window
      && NextBlock(starts, all[|starts|].tick) < blocks
    ensures Ordered(blocks, all)
  {
    hide NextBlock, Occupant.Duration;
    forall j: nat | 0 < j < |all| && all[j].occupant.Block?
      ensures all[j].tick >= all[j - 1].tick + all[j - 1].occupant.Duration()
      ensures all[j].window != all[j - 1].window && NextBlock(all[..j], all[j].tick) < blocks
    {
      assert all[..j] == if j < |starts| then starts[..j] else starts;
    }
  }

  lemma {:induction false} ScheduleOrdered(plan: Plan, contexts: seq<RuntimeContext>)
    ensures Ordered(plan.blocks, Schedule(plan, contexts)) && Schedule(plan, contexts)[0] == plan.prior
  {
    hide Ordered, NewStart;
    if contexts == [] {
      OrderedAlone(plan);
    } else {
      var n := |contexts| - 1;
      ScheduleOrdered(plan, contexts[..n]);
      OrderedExtends(plan, Schedule(plan, contexts[..n]), n, contexts[n]);
    }
  }

  lemma {:induction false} OrderedAlone(plan: Plan)
    ensures Ordered(plan.blocks, [plan.prior])
  {
  }

  lemma {:induction false} PositionInRequest(blocks: pos, starts: seq<Start>, n: int)
    requires Ordered(blocks, starts)
    ensures Position(starts, n) <= 16 * blocks
  {
    if starts != [] {
      var m := |starts| - 1;
      var last, before := starts[m], starts[..m];
      assert forall j: nat :: j < m ==> before[..j] == starts[..j];
      PositionInRequest(blocks, before, last.tick);
      LastFacts(starts, n);
      assert m == 0 ==> NextBlock(before, last.tick) == 0;
      hide LastIssued;
    }
  }

  /** Ticks on which the slot stays busy, or on which no window but the last one shows, add nothing. */
  lemma {:induction false} QuietTicks(plan: Plan, contexts: seq<RuntimeContext>, from: nat)
    requires from <= |contexts|
    requires plan.restart.Some? ==> !(from <= plan.restart.value < |contexts|)
    requires var starts := Schedule(plan, contexts[..from]);
      var last := starts[|starts| - 1];
      forall i :: from <= i < |contexts| ==>
        i < last.tick + last.occupant.Duration() || contexts[i].Window() in {NoWindow, last.window}
    ensures Schedule(plan, contexts) == Schedule(plan, contexts[..from])
  {
    hide NextBlock, RuntimeContext.Window, Occupant.Duration, Schedule;
    if from == |contexts| {
      assert contexts[..from] == contexts;
    } else {
      var n := |contexts| - 1;
      assert contexts[..n][..from] == contexts[..from];
      QuietTicks(plan, contexts[..n], from);
      ScheduleExtends(plan, contexts);
      assert NewStart(plan, Schedule(plan, contexts[..n]), n, contexts[n]) == [];
    }
  }
}
