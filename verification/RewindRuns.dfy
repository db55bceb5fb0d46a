/** Rewind histories over whole runs: what is kept, what comes back, and how often captures happen. */
module RewindRuns {
  import opened Prelude
  import opened Rewind

  datatype Op = Advance(to: MachineState) | Frame | SubframeOp | RewindOp | ClearOp

  datatype World = World(buffer: RewindState, machine: MachineState)

  /** Whether a rewind in this world finds a snapshot the machine accepts. */
  predicate Rewinds(w: World) {
    && w.buffer.entries != []
    && Target(w).state.identity == w.machine.identity
  }

  function Target(w: World): Entry
    requires w.buffer.entries != []
  {
    w.buffer.entries[w.buffer.TargetIndex(w.machine.nextTCycle)]
  }

  /** A machine advances to a state of its own at the same or a later T-cycle. */
  predicate Advances(from: MachineState, to: MachineState) {
    to.identity == from.identity && to.nextTCycle >= from.nextTCycle
  }

  function Apply(w: World, op: Op): World {
    match op
    case Advance(to) => if Advances(w.machine, to) then w.(machine := to) else w
    case Frame => w.(buffer := w.buffer.AfterFrameBoundary(w.machine))
    case SubframeOp => w.(buffer := w.buffer.AfterSubframe(w.machine))
    case RewindOp =>
      if Rewinds(w) then World(w.buffer.AfterRewind(w.machine.nextTCycle), Target(w).state) else w
    case ClearOp => w.(buffer := Empty(w.buffer.config))
  }

  function Run(w: World, ops: seq<Op>): World {
    if ops == [] then w else Apply(Run(w, ops[..|ops| - 1]), ops[|ops| - 1])
  }

  /** The operation captures the machine, whether as a new entry or over the newest one. */
  predicate Captures(w: World, op: Op) {
    op.Frame? || (op.SubframeOp? && w.buffer.ShouldRecordSubframe(w.machine.nextTCycle))
  }

  /** The state last captured at each T-cycle. */
  function LastCaptured(w: World, ops: seq<Op>): map<nat, MachineState> {
    if ops == [] then map[]
    else
      var before := Run(w, ops[..|ops| - 1]);
      var log := LastCaptured(w, ops[..|ops| - 1]);
      if Captures(before, ops[|ops| - 1]) then log[before.machine.nextTCycle := before.machine] else log
  }

  ghost predicate Sorted(entries: seq<Entry>) {
    forall i, j :: 0 <= i < j < |entries| ==> entries[i].nextTCycle < entries[j].nextTCycle
  }

  ghost predicate EntryOk(e: Entry, now: MachineState, log: map<nat, MachineState>) {
    && e.nextTCycle == e.state.nextTCycle <= now.nextTCycle
    && e.estimatedBytes == e.state.deepSize
    && e.state.identity == now.identity
    && e.nextTCycle in log && log[e.nextTCycle] == e.state
  }

  /** Entries are in strict time order, none from the machine's future, each the last capture of its T-cycle. */
  ghost predicate HistoryOk(w: World, log: map<nat, MachineState>) {
    TimelineOk(w.buffer.entries, w.machine, log)
  }

  ghost predicate TimelineOk(entries: seq<Entry>, now: MachineState, log: map<nat, MachineState>) {
    && Sorted(entries)
    && forall i :: 0 <= i < |entries| ==> EntryOk(entries[i], now, log)
  }

  /** Every capture is still held, was evicted, or was popped by a rewind; a rewind pops one or two. */
  ghost predicate CountsOk(b: RewindState) {
    var captures := b.frameBoundaryCaptures + b.subframeCaptures;
    b.restored <= captures - |b.entries| - b.evicted <= 2 * b.restored
  }

  /** What a push leaves is a suffix of the old entries followed by the new capture. */
  lemma PushedEntries(b: RewindState, state: MachineState, kind: CaptureKind)
    requires !b.IsDuplicate(state)
    ensures var k := |b.entries| + 1 - |b.Kept(state, kind)|;
      && 0 <= k <= |b.entries|
      && b.Kept(state, kind) == (b.entries + [Capture(state, kind)])[k..]
  {
    var all := b.entries + [Capture(state, kind)];
    BySpanIsSuffix(all, b.config.targetHistory);
    var inSpan := EvictedBySpan(all, b.config.targetHistory);
    ByBytesIsSuffix(inSpan, b.config.maxEstimatedBytes);
    var a := |all| - |inSpan|;
    var c := |inSpan| - |b.Kept(state, kind)|;
    assert all[a..][c..] == all[a + c..];
  }

  /** Unless it repeats the newest entry's T-cycle, a capture is later than every entry. */
  lemma ExtendTimeline(entries: seq<Entry>, now: MachineState, kind: CaptureKind, log: map<nat, MachineState>)
    requires TimelineOk(entries, now, log)
    requires entries != [] ==> entries[|entries| - 1].nextTCycle != now.nextTCycle
    ensures TimelineOk(entries + [Capture(now, kind)], now, log[now.nextTCycle := now])
  {
    forall i | 0 <= i < |entries| ensures entries[i].nextTCycle < now.nextTCycle {
      assert EntryOk(entries[|entries| - 1], now, log);
    }
  }

  lemma ReplaceTimeline(entries: seq<Entry>, now: MachineState, kind: CaptureKind, log: map<nat, MachineState>)
    requires TimelineOk(entries, now, log) && entries != [] && entries[|entries| - 1].nextTCycle == now.nextTCycle
    ensures TimelineOk(entries[|entries| - 1 := Capture(now, kind)], now, log[now.nextTCycle := now])
  {
  }

  lemma SuffixTimeline(entries: seq<Entry>, k: nat, now: MachineState, log: map<nat, MachineState>)
    requires TimelineOk(entries, now, log) && k <= |entries|
    ensures TimelineOk(entries[k..], now, log)
  {
    hide EntryOk;
  }

  lemma PushKeepsHistory(w: World, kind: CaptureKind, log: map<nat, MachineState>)
    requires HistoryOk(w, log)
    ensures HistoryOk(w.(buffer := w.buffer.AfterPush(w.machine, kind)), log[w.machine.nextTCycle := w.machine])
  {
    var b, now := w.buffer, w.machine;
    hide TimelineOk, RewindState.Kept, Capture;
    if b.IsDuplicate(now) {
      ReplaceTimeline(b.entries, now,
                      if kind.FrameBoundary? then FrameBoundary else b.entries[|b.entries| - 1].kind, log);
    } else {
      ExtendTimeline(b.entries, now, kind, log);
      PushedEntries(b, now, kind);
      SuffixTimeline(b.entries + [Capture(now, kind)], |b.entries| + 1 - |b.Kept(now, kind)|, now,
                     log[now.nextTCycle := now]);
    }
  }

  lemma ApplyKeepsHistory(w: World, op: Op, log: map<nat, MachineState>)
    requires HistoryOk(w, log)
    ensures HistoryOk(Apply(w, op), if Captures(w, op) then log[w.machine.nextTCycle := w.machine] else log)
  {
    match op {
      case Frame =>
        var b := w.buffer.(frameStart := Some(w.machine.nextTCycle), subframesThisFrame := 0);
        PushKeepsHistory(w.(buffer := b), FrameBoundary, log);
        hide RewindState.AfterPush, EntryOk, Sorted;
      case SubframeOp =>
        PushKeepsHistory(w, Subframe, log);
        hide RewindState.AfterPush, EntryOk, Sorted, RewindState.ShouldRecordSubframe;
      case _ =>
    }
  }

  lemma PushKeepsCounts(b: RewindState, state: MachineState, kind: CaptureKind)
    ensures var p := b.AfterPush(state, kind);
      && p.frameBoundaryCaptures == b.frameBoundaryCaptures && p.subframeCaptures == b.subframeCaptures
      && p.restored == b.restored
      && |p.entries| + p.evicted == |b.entries| + b.evicted + (if b.IsDuplicate(state) then 0 else 1)
  {
    KeptIsNoLonger(b.entries + [Capture(state, kind)], b.config);
    hide EvictedByBytes, EvictedBySpan;
  }

  lemma ApplyKeepsCounts(w: World, op: Op)
    requires CountsOk(w.buffer)
    ensures CountsOk(Apply(w, op).buffer)
  {
    var b := w.buffer.(frameStart := Some(w.machine.nextTCycle), subframesThisFrame := 0);
    PushKeepsCounts(b, w.machine, FrameBoundary);
    PushKeepsCounts(w.buffer, w.machine, Subframe);
    hide RewindState.AfterPush, RewindState.ShouldRecordSubframe;
  }

  /** From an empty buffer, under any interleaving of advances, records, rewinds and clears. */
  lemma {:induction false} RunKeepsHistory(config: Config, machine: MachineState, ops: seq<Op>)
    ensures var w := World(Empty(config), machine);
      HistoryOk(Run(w, ops), LastCaptured(w, ops)) && CountsOk(Run(w, ops).buffer)
  {
    var w := World(Empty(config), machine);
    if ops != [] {
      var before := ops[..|ops| - 1];
      RunKeepsHistory(config, machine, before);
      ApplyKeepsHistory(Run(w, before), ops[|ops| - 1], LastCaptured(w, before));
      ApplyKeepsCounts(Run(w, before), ops[|ops| - 1]);
      hide HistoryOk, CountsOk, Apply, Captures;
    }
  }

  /** A rewind in any reachable world succeeds whenever the buffer holds anything, never goes forward in time, and
      restores exactly the state last captured at the T-cycle it lands on. */
  lemma RewindRestoresLastCapture(config: Config, machine: MachineState, ops: seq<Op>)
    requires Run(World(Empty(config), machine), ops).buffer.entries != []
    ensures
      var start := World(Empty(config), machine);
      var w, log := Run(start, ops), LastCaptured(start, ops);
      var after := Apply(w, RewindOp);
      && Rewinds(w)
      && after.machine.nextTCycle <= w.machine.nextTCycle
      && after.machine.nextTCycle in log && after.machine == log[after.machine.nextTCycle]
      && JustRewound(after)
  {
    RunKeepsHistory(config, machine, ops);
    hide Run, LastCaptured;
  }

  /** Every entry is older than the machine, and the machine accepts them all. */
  ghost predicate JustRewound(w: World) {
    && Sorted(w.buffer.entries)
    && forall i :: 0 <= i < |w.buffer.entries| ==>
         var e := w.buffer.entries[i];
         e.nextTCycle < w.machine.nextTCycle && e.state.nextTCycle == e.nextTCycle
         && e.state.identity == w.machine.identity
  }

  function Rewinding(w: World, times: nat): World {
    if times == 0 then w else Apply(Rewinding(w, times - 1), RewindOp)
  }

  /** Rewinding again and again visits the entries one by one from the newest back, each strictly earlier than the
      last, until the buffer is empty. */
  lemma {:induction false} RewindsWalkBack(w: World, times: nat)
    requires JustRewound(w) && times <= |w.buffer.entries|
    ensures var now, n := Rewinding(w, times), |w.buffer.entries|;
      && JustRewound(now)
      && now.buffer.entries == w.buffer.entries[..n - times]
      && (times > 0 ==>
            now.machine == w.buffer.entries[n - times].state
            && now.machine.nextTCycle < Rewinding(w, times - 1).machine.nextTCycle)
  {
    hide *;
    RewindingUnfolds(w, times);
    if times > 0 {
      RewindsWalkBack(w, times - 1);
      var now, n := Rewinding(w, times - 1), |w.buffer.entries|;
      RewindStep(now);
      assert w.buffer.entries[..n - (times - 1)][..n - times] == w.buffer.entries[..n - times];
    } else {
      assert w.buffer.entries[..|w.buffer.entries| - times] == w.buffer.entries;
    }
  }

  lemma RewindingUnfolds(w: World, times: nat)
    ensures Rewinding(w, times) == if times == 0 then w else Apply(Rewinding(w, times - 1), RewindOp)
  {
  }

  /** Once a rewind has happened, the next one restores and removes exactly the newest entry. */
  lemma RewindStep(w: World)
    requires JustRewound(w) && w.buffer.entries != []
    ensures var after, n := Apply(w, RewindOp), |w.buffer.entries| - 1;
      && JustRewound(after) && after.buffer.entries == w.buffer.entries[..n]
      && after.machine == w.buffer.entries[n].state && after.machine.nextTCycle < w.machine.nextTCycle
  {
  }

  /** The bytes of all entries, added up from the newest back. */
  function BytesHeld(entries: seq<Entry>): nat {
    if entries == [] then 0 else BytesHeld(entries[..|entries| - 1]) + entries[|entries| - 1].estimatedBytes
  }

  /** From the oldest entry to the newest within the history target, and all entries within the byte budget. */
  ghost predicate Fits(entries: seq<Entry>, config: Config) {
    && (entries != [] ==> entries[|entries| - 1].nextTCycle - entries[0].nextTCycle <= config.targetHistory)
    && BytesHeld(entries) <= config.maxEstimatedBytes
  }

  lemma {:induction false} BytesBothWays(entries: seq<Entry>)
    ensures BytesHeld(entries) == TotalBytes(entries)
  {
    if entries != [] {
      var n := |entries| - 1;
      BytesBothWays(entries[..n]);
      TotalBytesSplit(entries[..n], [entries[n]]);
      assert entries == entries[..n] + [entries[n]];
    }
  }

  lemma FitsByLoops(entries: seq<Entry>, config: Config)
    requires Sorted(entries)
    ensures Fits(entries, config)
       <==> Span(entries) <= config.targetHistory && TotalBytes(entries) <= config.maxEstimatedBytes
  {
    BytesBothWays(entries);
    hide BytesHeld, TotalBytes;
  }

  lemma SuffixSorted(entries: seq<Entry>, k: nat)
    requires Sorted(entries) && k <= |entries|
    ensures Sorted(entries[k..])
  {
  }

  /** `kept` is the longest suffix of `all` that fits both limits, or the newest entry alone when none fits. */
  ghost predicate LongestFitting(all: seq<Entry>, kept: seq<Entry>, config: Config) {
    var k := |all| - |kept|;
    && 0 <= k < |all| && kept == all[k..]
    && (|kept| == 1 || Fits(kept, config))
    && forall j :: 0 <= j < k ==> !Fits(all[j..], config)
  }

  lemma SpanShrinks(entries: seq<Entry>, k: nat)
    requires Sorted(entries) && k < |entries|
    ensures Span(entries[k..]) <= Span(entries)
  {
  }

  /** On a time-ordered buffer the two loops together keep the longest fitting suffix. */
  lemma TwoLoopsKeepLongest(all: seq<Entry>, config: Config)
    requires Sorted(all) && all != []
    ensures
      LongestFitting(all, EvictedByBytes(EvictedBySpan(all, config.targetHistory), config.maxEstimatedBytes), config)
  {
    hide *;
    var kept := EvictedByBytes(EvictedBySpan(all, config.targetHistory), config.maxEstimatedBytes);
    var a, k := LoopsSplit(all, config);
    forall j | 0 <= j < k ensures !Fits(all[j..], config) {
      SuffixSorted(all, j);
      FitsByLoops(all[j..], config);
    }
    SuffixSorted(all, k);
    FitsByLoops(kept, config);
    if |kept| > 1 {
      SuffixSorted(all, a);
      SpanShrinks(all[a..], k - a);
      assert all[a..][k - a..] == all[k..];
    }
    IsLongestFitting(all, kept, config);
  }

  lemma IsLongestFitting(all: seq<Entry>, kept: seq<Entry>, config: Config)
    requires 0 < |kept| <= |all| && kept == all[|all| - |kept|..]
    requires |kept| == 1 || Fits(kept, config)
    requires forall j :: 0 <= j < |all| - |kept| ==> !Fits(all[j..], config)
    ensures LongestFitting(all, kept, config)
  {
    hide Fits;
  }

  /** Where the two loops stop: `a` entries dropped for the span, `k` in all. */
  lemma LoopsSplit(all: seq<Entry>, config: Config) returns (a: nat, k: nat)
    requires all != []
    ensures var kept := EvictedByBytes(EvictedBySpan(all, config.targetHistory), config.maxEstimatedBytes);
      && a <= k < |all| && kept == all[k..] && |kept| == |all| - k
      && (forall j :: 0 <= j < a ==> Span(all[j..]) > config.targetHistory)
      && (forall j :: a <= j < k ==> TotalBytes(all[j..]) > config.maxEstimatedBytes)
      && (a + 1 < |all| ==> Span(all[a..]) <= config.targetHistory)
      && (k + 1 < |all| ==> TotalBytes(all[k..]) <= config.maxEstimatedBytes)
  {
    hide *;
    BySpanIsSuffix(all, config.targetHistory);
    var inSpan := EvictedBySpan(all, config.targetHistory);
    ByBytesIsSuffix(inSpan, config.maxEstimatedBytes);
    a := |all| - |inSpan|;
    k := |all| - |EvictedByBytes(inSpan, config.maxEstimatedBytes)|;
    assert all[a..][k - a..] == all[k..];
    forall j | a <= j < k ensures TotalBytes(all[j..]) > config.maxEstimatedBytes {
      assert all[a..][j - a..] == all[j..];
    }
  }

  /** After every capture that appends, in any reachable world, the buffer holds the longest fitting suffix. */
  lemma AppendKeepsLongest(config: Config, machine: MachineState, ops: seq<Op>, kind: CaptureKind)
    ensures
      var w := Run(World(Empty(config), machine), ops);
      !w.buffer.IsDuplicate(w.machine) ==>
        LongestFitting(w.buffer.entries + [Capture(w.machine, kind)], w.buffer.AfterPush(w.machine, kind).entries,
                       w.buffer.config)
  {
    hide *;
    RunKeepsHistory(config, machine, ops);
    AppendToHistory(Run(World(Empty(config), machine), ops), LastCaptured(World(Empty(config), machine), ops), kind);
  }

  lemma AppendToHistory(w: World, log: map<nat, MachineState>, kind: CaptureKind)
    requires HistoryOk(w, log)
    ensures !w.buffer.IsDuplicate(w.machine) ==>
      LongestFitting(w.buffer.entries + [Capture(w.machine, kind)], w.buffer.AfterPush(w.machine, kind).entries,
                     w.buffer.config)
  {
    if !w.buffer.IsDuplicate(w.machine) {
      ExtendTimeline(w.buffer.entries, w.machine, kind, log);
      hide LongestFitting, EntryOk, EvictedBySpan, EvictedByBytes, Sorted;
      TwoLoopsKeepLongest(w.buffer.entries + [Capture(w.machine, kind)], w.buffer.config);
    }
  }

  /** T-cycles at which the subframe operations of a run captured. */
  function SubframeTimes(w: World, ops: seq<Op>): seq<nat> {
    if ops == [] then []
    else
      var before := Run(w, ops[..|ops| - 1]);
      SubframeTimes(w, ops[..|ops| - 1])
      + if ops[|ops| - 1].SubframeOp? && before.buffer.CapturesSubframe(before.machine)
        then [before.machine.nextTCycle] else []
  }

  /** The fixed cadence divides the frame into `n + 1` intervals of at least one T-cycle. */
  lemma FixedInterval(n: u16)
    requires n >= 1
    ensures 1 <= T_CYCLES_PER_FRAME / (n + 1)
    ensures n * (T_CYCLES_PER_FRAME / (n + 1)) < T_CYCLES_PER_FRAME
  {
    var d, q := n + 1, T_CYCLES_PER_FRAME / (n + 1);
    DivReaches(T_CYCLES_PER_FRAME, d, 1);
    assert q * d <= T_CYCLES_PER_FRAME;
    assert q * d == n * q + q;
  }

  ghost predicate OnlyAdvancesAndSubframes(ops: seq<Op>) {
    forall op :: op in ops ==> op.Advance? || op.SubframeOp?
  }

  lemma PushKeepsCadence(b: RewindState, state: MachineState, kind: CaptureKind)
    ensures var p := b.AfterPush(state, kind);
      && p.config == b.config && p.frameStart == b.frameStart
      && p.subframesThisFrame == b.subframesThisFrame && p.lastSubframe == b.lastSubframe
  {
    hide RewindState.Kept;
  }

  /** Within one frame of a fixed cadence: the count is the number of captures, and capture `k` waits for its slot. */
  ghost predicate InFrame(w: World, times: seq<nat>, start: nat, n: u16) {
    && w.buffer.config.cadence == FixedPerFrame(n)
    && w.buffer.frameStart == Some(start) && w.machine.nextTCycle >= start
    && w.buffer.subframesThisFrame == |times| <= n
    && forall k :: 0 <= k < |times| ==> times[k] >= Slot(start, n, k)
  }

  /** The earliest T-cycle of subframe number `k`, counted from zero. */
  ghost function Slot(start: nat, n: u16, k: nat): nat
  {
    start + T_CYCLES_PER_FRAME / (n + 1) * (k + 1)
  }

  lemma FrameStep(w: World, op: Op, times: seq<nat>, start: nat, n: u16)
    requires n >= 1 && InFrame(w, times, start, n) && (op.Advance? || op.SubframeOp?)
    ensures var captured := op.SubframeOp? && w.buffer.CapturesSubframe(w.machine);
      InFrame(Apply(w, op), times + (if captured then [w.machine.nextTCycle] else []), start, n)
  {
    hide RewindState.AfterPush;
    PushKeepsCadence(w.buffer, w.machine, Subframe);
    if op.SubframeOp? && w.buffer.CapturesSubframe(w.machine) {
      assert w.machine.nextTCycle >= Slot(start, n, |times|);
    }
  }

  /** Between two frame-boundary records with no rewind, a fixed cadence of `n` captures at most `n` subframes, the
      `k`-th no earlier than `k` intervals after the frame start. */
  lemma {:induction false} FixedCadenceBound(w: World, ops: seq<Op>, n: u16)
    requires n >= 1 && w.buffer.config.cadence == FixedPerFrame(n) && OnlyAdvancesAndSubframes(ops)
    ensures var started := Apply(w, Frame);
      InFrame(Run(started, ops), SubframeTimes(started, ops), w.machine.nextTCycle, n)
  {
    var started := Apply(w, Frame);
    if ops == [] {
      hide RewindState.Kept;
    } else {
      var before, op := ops[..|ops| - 1], ops[|ops| - 1];
      FixedCadenceBound(w, before, n);
      assert op in ops;
      hide InFrame, Apply, RewindState.CapturesSubframe;
      FrameStep(Run(started, before), op, SubframeTimes(started, before), w.machine.nextTCycle, n);
      assert SubframeTimes(started, before) + [] == SubframeTimes(started, before);
    }
  }

  /** The bound as numbers: at most `n` captures, each at its slot or later. */
  lemma AtMostNSubframesPerFrame(w: World, ops: seq<Op>, n: u16, k: nat)
    requires n >= 1 && w.buffer.config.cadence == FixedPerFrame(n) && OnlyAdvancesAndSubframes(ops)
    ensures var times := SubframeTimes(Apply(w, Frame), ops);
      && |times| <= n
      && (k < |times| ==> times[k] >= w.machine.nextTCycle + (k + 1) * (T_CYCLES_PER_FRAME / (n + 1)))
  {
    FixedCadenceBound(w, ops, n);
    SlotUnfolds(w.machine.nextTCycle, n, k);
    hide SubframeTimes, Run, Apply, Slot;
  }

  lemma SlotUnfolds(start: nat, n: u16, k: nat)
    ensures Slot(start, n, k) == start + (k + 1) * (T_CYCLES_PER_FRAME / (n + 1))
  {
  }

  ghost predicate NoRewindOrClear(ops: seq<Op>) {
    forall op :: op in ops ==> !op.RewindOp? && !op.ClearOp?
  }

  ghost predicate Spaced(times: seq<nat>, interval: nat) {
    forall k :: 0 < k < |times| ==> times[k] >= times[k - 1] + interval
  }

  /** The last captured subframe anchors the next one, through frame boundaries too. */
  ghost predicate Anchored(w: World, times: seq<nat>, interval: nat) {
    && w.buffer.config.cadence == EveryTCycles(interval)
    && Spaced(times, interval)
    && (times != [] ==> w.buffer.lastSubframe == Some(times[|times| - 1]) && w.machine.nextTCycle >= times[|times| - 1])
  }

  lemma AnchorStep(w: World, op: Op, times: seq<nat>, interval: nat)
    requires interval >= 1 && Anchored(w, times, interval) && !op.RewindOp? && !op.ClearOp?
    ensures var captured := op.SubframeOp? && w.buffer.CapturesSubframe(w.machine);
      Anchored(Apply(w, op), times + (if captured then [w.machine.nextTCycle] else []), interval)
  {
    hide RewindState.AfterPush;
    PushKeepsCadence(w.buffer, w.machine, Subframe);
    var started := w.buffer.(frameStart := Some(w.machine.nextTCycle), subframesThisFrame := 0);
    PushKeepsCadence(started, w.machine, FrameBoundary);
  }

  /** With a cadence of every `interval` T-cycles, consecutive subframe captures are at least that far apart over
      any run without rewinds, frame boundaries included. */
  lemma {:induction false} EveryCadenceSpacing(w: World, ops: seq<Op>, interval: nat)
    requires interval >= 1 && w.buffer.config.cadence == EveryTCycles(interval) && NoRewindOrClear(ops)
    ensures Anchored(Run(w, ops), SubframeTimes(w, ops), interval)
  {
    if ops != [] {
      var before, op := ops[..|ops| - 1], ops[|ops| - 1];
      EveryCadenceSpacing(w, before, interval);
      assert op in ops;
      hide Anchored, Apply, RewindState.CapturesSubframe;
      AnchorStep(Run(w, before), op, SubframeTimes(w, before), interval);
      assert SubframeTimes(w, before) + [] == SubframeTimes(w, before);
    }
  }
}
