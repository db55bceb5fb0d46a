/** When subframes are captured, exactly, in terms of what has been recorded before; and what each operation counts. */
module RewindCadence {
  import opened Prelude
  import opened Rewind
  import opened RewindRuns

  /** T-cycles at which the frame operations of a run recorded. */
  function FrameTimes(w: World, ops: seq<Op>): seq<nat> {
    if ops == [] then []
    else
      FrameTimes(w, ops[..|ops| - 1])
      + if ops[|ops| - 1].Frame? then [Run(w, ops[..|ops| - 1]).machine.nextTCycle] else []
  }

  function LastOf(times: seq<nat>): Option<nat> {
    if times == [] then None else Some(times[|times| - 1])
  }

  /** The newest entry's T-cycle. */
  function Newest(b: RewindState): Option<nat> {
    if b.entries == [] then None else Some(b.entries[|b.entries| - 1].nextTCycle)
  }

  predicate NewestIsSubframe(b: RewindState) {
    b.entries != [] && b.entries[|b.entries| - 1].kind == Subframe
  }

  /** A buffer as it is when empty or just rewound: no frame begun, and a subframe only as the newest entry. */
  ghost predicate Rested(b: RewindState) {
    && b.frameStart.None? && b.subframesThisFrame == 0
    && b.lastSubframe == if NewestIsSubframe(b) then Newest(b) else None
  }

  lemma RestedStarts(config: Config, w: World)
    ensures Rested(Empty(config))
    ensures Rested(Apply(w, ClearOp).buffer)
    ensures Rewinds(w) ==> Rested(Apply(w, RewindOp).buffer)
  {
  }

  /** The operation has added a subframe entry of the machine as it stands. */
  ghost predicate SubframeAdded(before: RewindState, after: RewindState, machine: MachineState) {
    && after.entries != []
    && after.entries[|after.entries| - 1] == Entry(machine, Subframe, machine.nextTCycle, machine.deepSize)
    && after.subframeCaptures == before.subframeCaptures + 1
    && after.lastSubframe == Some(machine.nextTCycle)
  }

  /** It has not: it was skipped, or it replaced the state held for the same T-cycle. */
  ghost predicate NoSubframeAdded(before: RewindState, after: RewindState, machine: MachineState) {
    && after.subframeCaptures == before.subframeCaptures && after.lastSubframe == before.lastSubframe
    && Newest(after) == Newest(before) && |after.entries| == |before.entries|
    && (Newest(before) != Some(machine.nextTCycle) ==>
          after == before.(skippedSubframes := before.skippedSubframes + 1))
  }

  lemma PushNewest(b: RewindState, state: MachineState, kind: CaptureKind)
    ensures var p := b.AfterPush(state, kind);
      && p.entries != [] && Newest(p) == Some(state.nextTCycle)
      && p.entries[|p.entries| - 1].state == state
      && p.entries[|p.entries| - 1].estimatedBytes == state.deepSize
      && p.entries[|p.entries| - 1].kind
         == (if b.IsDuplicate(state) && kind == Subframe then b.entries[|b.entries| - 1].kind else kind)
      && (b.IsDuplicate(state) ==> |p.entries| == |b.entries|)
  {
    hide EvictedBySpan, EvictedByBytes, TotalBytes, RewindState.Kept, RewindState.IsDuplicate;
    if !b.IsDuplicate(state) {
      KeptEndsWithCapture(b, state, kind);
    } else {
      DuplicateOfNewest(b, state);
    }
  }

  lemma DuplicateOfNewest(b: RewindState, state: MachineState)
    requires b.IsDuplicate(state)
    ensures b.entries != [] && b.entries[|b.entries| - 1].nextTCycle == state.nextTCycle
  {
  }

  /** Eviction never reaches the capture just made. */
  lemma KeptEndsWithCapture(b: RewindState, state: MachineState, kind: CaptureKind)
    ensures var kept := b.Kept(state, kind);
      kept != [] && kept[|kept| - 1] == Capture(state, kind)
  {
    var all := b.entries + [Capture(state, kind)];
    var a, k := LoopsSplit(all, b.config);
    hide EvictedBySpan, EvictedByBytes, TotalBytes, Span, Capture;
    assert all[k..][|all| - k - 1] == all[|all| - 1];
  }

  /** What a subframe operation does, given whether it captures. */
  lemma SubframeEffect(b: RewindState, machine: MachineState)
    ensures if b.CapturesSubframe(machine) then SubframeAdded(b, b.AfterSubframe(machine), machine)
            else NoSubframeAdded(b, b.AfterSubframe(machine), machine)
    ensures b.IsDuplicate(machine) <==> Newest(b) == Some(machine.nextTCycle)
  {
    PushNewest(b, machine, Subframe);
    PushKeepsCadence(b, machine, Subframe);
    PushKeepsCounts(b, machine, Subframe);
    hide RewindState.AfterPush, RewindState.ShouldRecordSubframe;
  }

  // ----- A cadence in T-cycles

  /** What the next subframe is timed from: the last subframe captured; before the first, the subframe that a rewind
      left as the newest entry, else the last frame boundary, else the newest entry. */
  function Anchor(start: World, ops: seq<Op>): Option<nat> {
    if SubframeTimes(start, ops) != [] then LastOf(SubframeTimes(start, ops))
    else if NewestIsSubframe(start.buffer) then Newest(start.buffer)
    else if FrameTimes(start, ops) != [] then LastOf(FrameTimes(start, ops))
    else Newest(start.buffer)
  }

  /** What the cadence fields hold, by the history of the run. */
  ghost predicate FieldsTell(start: World, w: World, times: seq<nat>, frames: seq<nat>) {
    && w.buffer.config == start.buffer.config
    && w.buffer.lastSubframe == (if times != [] then LastOf(times) else start.buffer.lastSubframe)
    && w.buffer.frameStart == (if frames != [] then LastOf(frames) else start.buffer.frameStart)
    && (times == [] && frames == [] ==> Newest(w.buffer) == Newest(start.buffer))
  }

  lemma FieldsStep(start: World, w: World, times: seq<nat>, frames: seq<nat>, op: Op)
    requires FieldsTell(start, w, times, frames) && !op.RewindOp? && !op.ClearOp?
    ensures var now := w.machine.nextTCycle;
      FieldsTell(start, Apply(w, op),
                 times + (if op.SubframeOp? && w.buffer.CapturesSubframe(w.machine) then [now] else []),
                 frames + (if op.Frame? then [now] else []))
  {
    SubframeEffect(w.buffer, w.machine);
    AfterSubframeKeeps(w.buffer, w.machine);
    var begun := w.buffer.(frameStart := Some(w.machine.nextTCycle), subframesThisFrame := 0);
    PushKeepsCadence(begun, w.machine, FrameBoundary);
    hide RewindState.AfterPush, RewindState.AfterSubframe, RewindState.CapturesSubframe, NoSubframeAdded;
    if op.SubframeOp? && !w.buffer.CapturesSubframe(w.machine) {
      NotAddedKeeps(w.buffer, w.buffer.AfterSubframe(w.machine), w.machine);
    }
  }

  lemma NotAddedKeeps(before: RewindState, after: RewindState, machine: MachineState)
    requires NoSubframeAdded(before, after, machine)
    ensures after.lastSubframe == before.lastSubframe && Newest(after) == Newest(before)
  {
  }

  lemma AfterSubframeKeeps(b: RewindState, machine: MachineState)
    ensures b.AfterSubframe(machine).config == b.config && b.AfterSubframe(machine).frameStart == b.frameStart
  {
    PushKeepsCadence(b, machine, Subframe);
    hide RewindState.AfterPush, RewindState.ShouldRecordSubframe;
  }

  lemma {:induction false} FieldsAfterRun(start: World, ops: seq<Op>)
    requires NoRewindOrClear(ops)
    ensures FieldsTell(start, Run(start, ops), SubframeTimes(start, ops), FrameTimes(start, ops))
  {
    hide FieldsTell, Apply, RewindState.CapturesSubframe;
    if ops == [] {
      FieldsAtStart(start);
    } else {
      var before, op := ops[..|ops| - 1], ops[|ops| - 1];
      FieldsAfterRun(start, before);
      assert op in ops;
      FieldsStep(start, Run(start, before), SubframeTimes(start, before), FrameTimes(start, before), op);
      assert SubframeTimes(start, before) + [] == SubframeTimes(start, before);
      assert FrameTimes(start, before) + [] == FrameTimes(start, before);
    }
  }

  lemma FieldsAtStart(start: World)
    ensures FieldsTell(start, start, [], [])
  {
  }

  /** With a cadence of every `interval` T-cycles, after any run without rewinds or clears: a subframe operation
      captures exactly when the machine is not at the newest entry's T-cycle and `interval` T-cycles have passed since
      the anchor; without an anchor it always captures. */
  lemma EveryCadenceExactly(start: World, ops: seq<Op>, interval: pos)
    requires Rested(start.buffer) && start.buffer.config.cadence == EveryTCycles(interval) && NoRewindOrClear(ops)
    ensures
      var w := Run(start, ops);
      var now, after := w.machine.nextTCycle, Apply(w, SubframeOp).buffer;
      if Newest(w.buffer) != Some(now)
         && (Anchor(start, ops).Some? ==> now >= Anchor(start, ops).value + interval)
      then SubframeAdded(w.buffer, after, w.machine)
      else NoSubframeAdded(w.buffer, after, w.machine)
  {
    var w := Run(start, ops);
    FieldsAfterRun(start, ops);
    SubframeEffect(w.buffer, w.machine);
    EveryDue(start, w, SubframeTimes(start, ops), FrameTimes(start, ops), interval);
    hide Run, SubframeTimes, FrameTimes, SubframeAdded, NoSubframeAdded, FieldsTell, Rested;
    hide RewindState.ShouldRecordSubframe, RewindState.AfterSubframe;
  }

  lemma EveryDue(start: World, w: World, times: seq<nat>, frames: seq<nat>, interval: pos)
    requires Rested(start.buffer) && start.buffer.config.cadence == EveryTCycles(interval)
    requires FieldsTell(start, w, times, frames)
    ensures var anchor :=
        if times != [] then LastOf(times)
        else if NewestIsSubframe(start.buffer) then Newest(start.buffer)
        else if frames != [] then LastOf(frames)
        else Newest(start.buffer);
      w.buffer.ShouldRecordSubframe(w.machine.nextTCycle)
      <==> (anchor.Some? ==> w.machine.nextTCycle >= anchor.value + interval)
  {
  }

  // ----- A fixed number of captures in a frame

  /** A frame of a fixed cadence, with the newest entry at its start or at its last subframe. */
  ghost predicate InFrameExactly(w: World, times: seq<nat>, start: nat, n: u16) {
    && InFrame(w, times, start, n)
    && Newest(w.buffer) == Some(if times == [] then start else times[|times| - 1])
  }

  lemma ExactFrameStep(w: World, op: Op, times: seq<nat>, start: nat, n: u16)
    requires n >= 1 && InFrameExactly(w, times, start, n) && (op.Advance? || op.SubframeOp?)
    ensures var captured := op.SubframeOp? && w.buffer.CapturesSubframe(w.machine);
      InFrameExactly(Apply(w, op), times + (if captured then [w.machine.nextTCycle] else []), start, n)
  {
    FrameStep(w, op, times, start, n);
    SubframeEffect(w.buffer, w.machine);
    hide InFrame, RewindState.AfterSubframe, RewindState.CapturesSubframe;
  }

  lemma {:induction false} ExactFrame(w: World, ops: seq<Op>, n: u16)
    requires n >= 1 && w.buffer.config.cadence == FixedPerFrame(n) && OnlyAdvancesAndSubframes(ops)
    ensures var started := Apply(w, Frame);
      InFrameExactly(Run(started, ops), SubframeTimes(started, ops), w.machine.nextTCycle, n)
  {
    var started := Apply(w, Frame);
    FixedCadenceBound(w, ops, n);
    hide InFrame, Apply, RewindState.CapturesSubframe, InFrameExactly;
    if ops == [] {
      FrameBegins(w, n);
    } else {
      var before, op := ops[..|ops| - 1], ops[|ops| - 1];
      ExactFrame(w, before, n);
      assert op in ops;
      ExactFrameStep(Run(started, before), op, SubframeTimes(started, before), w.machine.nextTCycle, n);
      assert SubframeTimes(started, before) + [] == SubframeTimes(started, before);
    }
  }

  lemma FrameBegins(w: World, n: u16)
    requires InFrame(Apply(w, Frame), [], w.machine.nextTCycle, n)
    ensures InFrameExactly(Apply(w, Frame), [], w.machine.nextTCycle, n)
  {
    PushNewest(w.buffer.(frameStart := Some(w.machine.nextTCycle), subframesThisFrame := 0), w.machine, FrameBoundary);
    hide RewindState.AfterPush, InFrame;
  }

  /** Within a frame, a subframe operation captures exactly when fewer than `n` have been captured, the slot of the next
      one has come, and nothing has been captured at this very T-cycle. */
  lemma FixedCadenceExactly(w: World, ops: seq<Op>, n: u16)
    requires n >= 1 && w.buffer.config.cadence == FixedPerFrame(n) && OnlyAdvancesAndSubframes(ops)
    ensures
      var started := Apply(w, Frame);
      var now, times := Run(started, ops), SubframeTimes(started, ops);
      var after := Apply(now, SubframeOp).buffer;
      if |times| < n
         && now.machine.nextTCycle >= w.machine.nextTCycle + (|times| + 1) * (70224 / (n + 1))
         && (times != [] ==> now.machine.nextTCycle != times[|times| - 1])
      then SubframeAdded(now.buffer, after, now.machine)
      else NoSubframeAdded(now.buffer, after, now.machine)
  {
    hide *;
    var started := Apply(w, Frame);
    var now := Run(started, ops);
    ExactFrame(w, ops, n);
    SubframeEffect(now.buffer, now.machine);
    SubframeApplied(now);
    FixedDue(now, SubframeTimes(started, ops), w.machine.nextTCycle, n);
  }

  lemma SubframeApplied(w: World)
    ensures Apply(w, SubframeOp).buffer == w.buffer.AfterSubframe(w.machine)
  {
  }

  lemma FixedDue(w: World, times: seq<nat>, start: nat, n: u16)
    requires n >= 1 && InFrameExactly(w, times, start, n)
    ensures w.buffer.CapturesSubframe(w.machine)
       <==> |times| < n
            && w.machine.nextTCycle >= start + (|times| + 1) * (70224 / (n + 1))
            && (times != [] ==> w.machine.nextTCycle != times[|times| - 1])
  {
    FixedInterval(n);
    var interval := 70224 / (n + 1);
    assert (|times| + 1) * interval == interval * (|times| + 1) >= interval;
  }

  /** One T-cycle further, and a subframe operation there, again and again. */
  function EveryTCycle(from: MachineState, m: nat): seq<Op> {
    if m == 0 then []
    else EveryTCycle(from, m - 1) + [Advance(from.(nextTCycle := from.nextTCycle + m)), SubframeOp]
  }

  lemma {:induction false} EveryTCycleOps(from: MachineState, m: nat)
    ensures OnlyAdvancesAndSubframes(EveryTCycle(from, m))
  {
    if m > 0 {
      EveryTCycleOps(from, m - 1);
    }
  }

  /** The slots of the first `count` captures. */
  function Slots(start: nat, interval: nat, count: nat): seq<nat> {
    seq(count, (k: nat) => start + (k + 1) * interval)
  }

  /** With a subframe operation on every T-cycle, each capture comes exactly on its slot, until there are `n`. */
  lemma {:induction false} CapturesOnEverySlot(w: World, m: nat, n: u16)
    requires n >= 1 && w.buffer.config.cadence == FixedPerFrame(n)
    ensures var started, ops, interval := Apply(w, Frame), EveryTCycle(w.machine, m), 70224 / (n + 1);
      && interval >= 1
      && SubframeTimes(started, ops) == Slots(w.machine.nextTCycle, interval, Min(n, m / interval))
      && Run(started, ops).machine == w.machine.(nextTCycle := w.machine.nextTCycle + m)
  {
    hide *;
    FixedIntervalIs(n);
    var started, interval := Apply(w, Frame), 70224 / (n + 1);
    if m == 0 {
      EveryTCycleStarts(w, n, interval);
    } else {
      CapturesOnEverySlot(w, m - 1, n);
      EveryTCycleStep(w, m);
      var before := EveryTCycle(w.machine, m - 1);
      var moved := before + [Advance(w.machine.(nextTCycle := w.machine.nextTCycle + m))];
      EveryTCycleMoves(started, before, w.machine, m);
      AllAllowed(w.machine, m);
      ExactFrame(w, moved, n);
      var times := SubframeTimes(started, moved);
      FixedDue(Run(started, moved), times, w.machine.nextTCycle, n);
      SubframeExtends(started, moved);
      NextSlot(w.machine.nextTCycle, interval, n, m);
    }
  }

  lemma FixedIntervalIs(n: u16)
    requires n >= 1
    ensures 70224 / (n + 1) >= 1 && 70224 == T_CYCLES_PER_FRAME
  {
    FixedInterval(n);
  }

  lemma EveryTCycleStarts(w: World, n: u16, interval: pos)
    ensures var started := Apply(w, Frame);
      && EveryTCycle(w.machine, 0) == []
      && SubframeTimes(started, []) == [] == Slots(w.machine.nextTCycle, interval, Min(n, 0 / interval))
      && Run(started, []).machine == w.machine.(nextTCycle := w.machine.nextTCycle + 0)
  {
    hide RewindState.AfterFrameBoundary;
  }

  lemma EveryTCycleStep(w: World, m: pos)
    ensures var before := EveryTCycle(w.machine, m - 1);
      EveryTCycle(w.machine, m)
      == before + [Advance(w.machine.(nextTCycle := w.machine.nextTCycle + m))] + [SubframeOp]
  {
  }

  lemma EveryTCycleMoves(started: World, before: seq<Op>, from: MachineState, m: pos)
    requires Run(started, before).machine == from.(nextTCycle := from.nextTCycle + (m - 1))
    ensures var moved := before + [Advance(from.(nextTCycle := from.nextTCycle + m))];
      && Run(started, moved).machine == from.(nextTCycle := from.nextTCycle + m)
      && SubframeTimes(started, moved) == SubframeTimes(started, before)
  {
    var moved := before + [Advance(from.(nextTCycle := from.nextTCycle + m))];
    assert moved[..|before|] == before;
    hide RewindState.CapturesSubframe;
  }

  lemma AllAllowed(from: MachineState, m: pos)
    ensures OnlyAdvancesAndSubframes(
      EveryTCycle(from, m - 1) + [Advance(from.(nextTCycle := from.nextTCycle + m))])
  {
    EveryTCycleOps(from, m - 1);
  }

  lemma SubframeExtends(started: World, ops: seq<Op>)
    ensures var w := Run(started, ops);
      && Run(started, ops + [SubframeOp]).machine == w.machine
      && SubframeTimes(started, ops + [SubframeOp])
         == SubframeTimes(started, ops) + if w.buffer.CapturesSubframe(w.machine) then [w.machine.nextTCycle] else []
  {
    assert (ops + [SubframeOp])[..|ops|] == ops;
    hide RewindState.CapturesSubframe, RewindState.AfterSubframe;
  }

  /** The next slot comes exactly when another interval is complete. */
  lemma NextSlot(start: nat, interval: pos, n: u16, m: pos)
    ensures var count := Min(n, (m - 1) / interval);
      var times := Slots(start, interval, count);
      var due := count < n && start + m >= start + (count + 1) * interval
                 && (times != [] ==> start + m != times[|times| - 1]);
      && |times| == count
      && Slots(start, interval, Min(n, m / interval)) == times + if due then [start + m] else []
  {
    hide *;
    var q := (m - 1) / interval;
    IntervalStep(interval, m, q);
    MinCases(n, q);
    MinCases(n, m / interval);
    if q < n {
      SlotsAt(start, interval, q);
    } else {
      SlotsAt(start, interval, n);
    }
  }

  /** Counting up by one either completes an interval, exactly, or stays short of it. */
  lemma IntervalStep(interval: pos, m: pos, q: nat)
    requires q == (m - 1) / interval
    ensures m / interval == q + 1 ==> m == (q + 1) * interval
    ensures m / interval != q + 1 ==> m / interval == q && m < (q + 1) * interval
    ensures m > q * interval
  {
    DivSucc(m - 1, interval);
    assert m - 1 == q * interval + (m - 1) % interval;
    assert (q + 1) * interval == q * interval + interval;
  }

  lemma MinCases(a: nat, b: nat)
    ensures Min(a, b) == if a < b then a else b
  {
  }

  lemma SlotsAt(start: nat, interval: pos, count: nat)
    ensures |Slots(start, interval, count)| == count
    ensures count > 0 ==> Slots(start, interval, count)[count - 1] == start + count * interval
    ensures Slots(start, interval, count + 1) == Slots(start, interval, count) + [start + (count + 1) * interval]
  {
  }

  /** Over a whole frame with a subframe operation on every T-cycle, a fixed cadence of `n` captures exactly `n`. */
  lemma WholeFrameCapturesAll(w: World, n: u16)
    requires n >= 1 && w.buffer.config.cadence == FixedPerFrame(n)
    ensures SubframeTimes(Apply(w, Frame), EveryTCycle(w.machine, 70224))
         == Slots(w.machine.nextTCycle, 70224 / (n + 1), n)
  {
    hide *;
    CapturesOnEverySlot(w, 70224, n);
    EnoughIntervals(n);
  }

  lemma EnoughIntervals(n: u16)
    requires n >= 1
    ensures 70224 / (n + 1) >= 1 && Min(n, 70224 / (70224 / (n + 1))) == n
  {
    FixedInterval(n);
    var interval := 70224 / (n + 1);
    DivReaches(70224, interval, n);
  }

  /** Without a frame boundary since the last rewind or clear, a fixed cadence keeps its interval from the newest entry:
      a subframe operation captures exactly when fewer than `n` have been and the interval has passed since then. */
  lemma {:induction false} FixedCadenceWithoutFrame(start: World, ops: seq<Op>, n: u16)
    requires n >= 1 && start.buffer.config.cadence == FixedPerFrame(n) && Rested(start.buffer)
    requires OnlyAdvancesAndSubframes(ops)
    ensures
      var w := Run(start, ops);
      var now, after, count := w.machine.nextTCycle, Apply(w, SubframeOp).buffer, |SubframeTimes(start, ops)|;
      if count < n && (Newest(w.buffer).Some? ==> now >= Newest(w.buffer).value + 70224 / (n + 1))
      then SubframeAdded(w.buffer, after, w.machine)
      else NoSubframeAdded(w.buffer, after, w.machine)
    ensures Frameless(start, Run(start, ops), |SubframeTimes(start, ops)|, n)
  {
    hide *;
    FixedIntervalIs(n);
    if ops == [] {
      FramelessStart(start, n);
    } else {
      var before, op := ops[..|ops| - 1], ops[|ops| - 1];
      RunParts(start, ops);
      FixedCadenceWithoutFrame(start, before, n);
      FramelessStep(start, Run(start, before), |SubframeTimes(start, before)|, n, op);
    }
    var w := Run(start, ops);
    FramelessDue(start, w, |SubframeTimes(start, ops)|, n);
    SubframeEffect(w.buffer, w.machine);
    SubframeApplied(w);
  }

  ghost predicate Frameless(start: World, w: World, count: nat, n: u16) {
    && w.buffer.config.cadence == FixedPerFrame(n) && w.buffer.frameStart.None?
    && w.buffer.subframesThisFrame == count <= n
    && (w.buffer.lastSubframe.Some? ==> w.buffer.lastSubframe == Newest(w.buffer))
  }

  lemma FramelessStart(start: World, n: u16)
    requires start.buffer.config.cadence == FixedPerFrame(n) && Rested(start.buffer)
    ensures Run(start, []) == start && SubframeTimes(start, []) == [] && Frameless(start, start, 0, n)
  {
  }

  lemma RunParts(start: World, ops: seq<Op>)
    requires ops != [] && OnlyAdvancesAndSubframes(ops)
    ensures var before, op := ops[..|ops| - 1], ops[|ops| - 1];
      var w := Run(start, before);
      && OnlyAdvancesAndSubframes(before) && (op.Advance? || op.SubframeOp?)
      && Run(start, ops) == Apply(w, op)
      && |SubframeTimes(start, ops)|
         == |SubframeTimes(start, before)| + if op.SubframeOp? && w.buffer.CapturesSubframe(w.machine) then 1 else 0
  {
    hide Apply, RewindState.CapturesSubframe;
  }

  lemma FramelessStep(start: World, w: World, count: nat, n: u16, op: Op)
    requires n >= 1 && Frameless(start, w, count, n) && (op.Advance? || op.SubframeOp?)
    ensures Frameless(start, Apply(w, op),
                      count + (if op.SubframeOp? && w.buffer.CapturesSubframe(w.machine) then 1 else 0), n)
  {
    SubframeEffect(w.buffer, w.machine);
    PushKeepsCadence(w.buffer, w.machine, Subframe);
    hide RewindState.AfterPush;
  }

  lemma FramelessDue(start: World, w: World, count: nat, n: u16)
    requires n >= 1 && Frameless(start, w, count, n)
    ensures w.buffer.CapturesSubframe(w.machine)
       <==> count < n
            && (Newest(w.buffer).Some? ==> w.machine.nextTCycle >= Newest(w.buffer).value + 70224 / (n + 1))
  {
    FixedInterval(n);
  }

  /** A disabled cadence, or one of zero T-cycles or zero captures, skips every subframe. */
  lemma NoCadence(b: RewindState, machine: MachineState)
    requires b.config.cadence in {Disabled, EveryTCycles(0), FixedPerFrame(0)}
    ensures b.AfterSubframe(machine) == b.(skippedSubframes := b.skippedSubframes + 1)
  {
  }

  // ----- What is counted

  function Records(ops: seq<Op>): nat {
    if ops == [] then 0
    else Records(ops[..|ops| - 1]) + if ops[|ops| - 1].Frame? || ops[|ops| - 1].SubframeOp? then 1 else 0
  }

  function RewindsDone(w: World, ops: seq<Op>): nat {
    if ops == [] then 0
    else
      RewindsDone(w, ops[..|ops| - 1])
      + if ops[|ops| - 1].RewindOp? && Run(w, ops[..|ops| - 1]).buffer.entries != [] then 1 else 0
  }

  lemma ApplyCounts(w: World, op: Op)
    requires !op.ClearOp?
    ensures var b, a := w.buffer, Apply(w, op).buffer;
      && a.frameBoundaryCaptures + a.subframeCaptures + a.skippedSubframes + a.duplicateCaptures
         == b.frameBoundaryCaptures + b.subframeCaptures + b.skippedSubframes + b.duplicateCaptures
            + (if op.Frame? || op.SubframeOp? then 1 else 0)
      && a.frameBoundaryCaptures
         == b.frameBoundaryCaptures + (if op.Frame? && Newest(b) != Some(w.machine.nextTCycle) then 1 else 0)
      && a.subframeCaptures
         == b.subframeCaptures + (if op.SubframeOp? && b.CapturesSubframe(w.machine) then 1 else 0)
      && a.restored == b.restored + (if op.RewindOp? && Rewinds(w) then 1 else 0)
  {
    PushCounters(w.buffer, w.machine, Subframe);
    var begun := w.buffer.(frameStart := Some(w.machine.nextTCycle), subframesThisFrame := 0);
    PushCounters(begun, w.machine, FrameBoundary);
    hide RewindState.AfterPush, RewindState.ShouldRecordSubframe, RewindState.CutAt;
    if op.RewindOp? && Rewinds(w) {
      CutCounters(w.buffer, w.buffer.TargetIndex(w.machine.nextTCycle));
    }
  }

  lemma PushCounters(b: RewindState, state: MachineState, kind: CaptureKind)
    ensures var p := b.AfterPush(state, kind);
      && p.frameBoundaryCaptures == b.frameBoundaryCaptures && p.subframeCaptures == b.subframeCaptures
      && p.skippedSubframes == b.skippedSubframes && p.restored == b.restored
      && p.duplicateCaptures == b.duplicateCaptures + if Newest(b) == Some(state.nextTCycle) then 1 else 0
  {
    hide RewindState.Kept;
  }

  lemma CutCounters(b: RewindState, index: nat)
    requires index <= |b.entries|
    ensures var c := b.CutAt(index);
      && c.frameBoundaryCaptures == b.frameBoundaryCaptures && c.subframeCaptures == b.subframeCaptures
      && c.skippedSubframes == b.skippedSubframes && c.duplicateCaptures == b.duplicateCaptures
      && c.restored == b.restored + 1
  {
  }

  /** From an empty buffer and without clears: every record operation is counted once, as a frame or subframe capture, a
      skip or a duplicate; the subframe count is that of the captures, and every rewind is counted. */
  lemma {:induction false} EverythingIsCounted(config: Config, machine: MachineState, ops: seq<Op>)
    requires forall op :: op in ops ==> !op.ClearOp?
    ensures var start := World(Empty(config), machine);
      var b := Run(start, ops).buffer;
      && b.frameBoundaryCaptures + b.subframeCaptures + b.skippedSubframes + b.duplicateCaptures == Records(ops)
      && b.subframeCaptures == |SubframeTimes(start, ops)|
      && b.restored == RewindsDone(start, ops)
  {
    var start := World(Empty(config), machine);
    if ops != [] {
      var before, op := ops[..|ops| - 1], ops[|ops| - 1];
      EverythingIsCounted(config, machine, before);
      assert op in ops;
      RewindSucceeds(config, machine, before);
      ApplyCounts(Run(start, before), op);
      hide Apply, RewindState.CapturesSubframe, Rewinds;
    }
  }

  lemma RewindSucceeds(config: Config, machine: MachineState, ops: seq<Op>)
    ensures var w := Run(World(Empty(config), machine), ops);
      Rewinds(w) <==> w.buffer.entries != []
  {
    if Run(World(Empty(config), machine), ops).buffer.entries != [] {
      RewindRestoresLastCapture(config, machine, ops);
    }
    hide Run;
  }

  // ----- What is held, and where a rewind lands

  /** A frame operation always leaves the machine as a frame-boundary entry, over a subframe of the same T-cycle too;
      a due subframe operation leaves it as well, without demoting a frame boundary. */
  lemma RecordsTheMachine(w: World, op: Op)
    requires op.Frame? || (op.SubframeOp? && w.buffer.ShouldRecordSubframe(w.machine.nextTCycle))
    ensures var b, entries := w.buffer, Apply(w, op).buffer.entries;
      && entries != []
      && entries[|entries| - 1].state == w.machine && entries[|entries| - 1].nextTCycle == w.machine.nextTCycle
      && entries[|entries| - 1].estimatedBytes == w.machine.deepSize
      && entries[|entries| - 1].kind
         == (if op.Frame? then FrameBoundary
             else if Newest(b) == Some(w.machine.nextTCycle) then b.entries[|b.entries| - 1].kind
             else Subframe)
  {
    PushNewest(w.buffer, w.machine, Subframe);
    PushNewest(w.buffer.(frameStart := Some(w.machine.nextTCycle), subframesThisFrame := 0), w.machine, FrameBoundary);
    hide RewindState.AfterPush, RewindState.ShouldRecordSubframe;
  }

  /** In any reachable world that holds anything, a rewind lands on the newest entry older than the machine and keeps
      exactly what is older still; only a sole entry of the machine's own T-cycle is restored in place. */
  lemma RewindLandsOnNewestOlder(config: Config, machine: MachineState, ops: seq<Op>, i: nat)
    requires
      var w := Run(World(Empty(config), machine), ops);
      var entries, now := w.buffer.entries, w.machine.nextTCycle;
      && i < |entries|
      && (entries[i].nextTCycle < now || |entries| == 1)
      && (i + 1 < |entries| ==> entries[i + 1].nextTCycle >= now)
    ensures
      var w := Run(World(Empty(config), machine), ops);
      var after := Apply(w, RewindOp);
      after.machine == w.buffer.entries[i].state && after.buffer.entries == w.buffer.entries[..i]
  {
    RunKeepsHistory(config, machine, ops);
    RewindSucceeds(config, machine, ops);
    hide Run, LastCaptured;
    var start := World(Empty(config), machine);
    LandsOn(Run(start, ops), LastCaptured(start, ops), i);
  }

  lemma LandsOn(w: World, log: map<nat, MachineState>, i: nat)
    requires HistoryOk(w, log) && Rewinds(w) && i < |w.buffer.entries|
    requires w.buffer.entries[i].nextTCycle < w.machine.nextTCycle || |w.buffer.entries| == 1
    requires i + 1 < |w.buffer.entries| ==> w.buffer.entries[i + 1].nextTCycle >= w.machine.nextTCycle
    ensures var after := Apply(w, RewindOp);
      after.machine == w.buffer.entries[i].state && after.buffer.entries == w.buffer.entries[..i]
  {
    var n := |w.buffer.entries|;
    assert EntryOk(w.buffer.entries[n - 1], w.machine, log);
    assert i + 1 < n ==> EntryOk(w.buffer.entries[i + 1], w.machine, log);
    assert i + 2 >= n;
  }
}
