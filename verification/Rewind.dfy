/** The rewind history: a bounded, time-ordered buffer of machine snapshots. */
module Rewind {
  import opened Prelude

  const T_CYCLES_PER_FRAME: nat := 456 * 154

  datatype CaptureKind = FrameBoundary | Subframe

  datatype Cadence = Disabled | EveryTCycles(interval: nat) | FixedPerFrame(capturesPerFrame: u16) {
    function Normalized(): Cadence {
      match this
      case EveryTCycles(interval) => if interval == 0 then Disabled else this
      case FixedPerFrame(captures) => if captures == 0 then Disabled else this
      case Disabled => this
    }
  }

  datatype Config = Config(targetHistory: nat, maxEstimatedBytes: nat, cadence: Cadence)

  /** A machine or save state: what it is compatible with, its next T-cycle, its size, and everything else. */
  datatype MachineState = MachineState(identity: nat, nextTCycle: nat, deepSize: nat, payload: seq<u8>)

  datatype Entry = Entry(state: MachineState, kind: CaptureKind, nextTCycle: nat, estimatedBytes: nat)

  function Capture(state: MachineState, kind: CaptureKind): Entry {
    Entry(state, kind, state.nextTCycle, state.deepSize)
  }

  function TotalBytes(entries: seq<Entry>): nat {
    if entries == [] then 0 else entries[0].estimatedBytes + TotalBytes(entries[1..])
  }

  function SaturatingSub(a: nat, b: nat): nat {
    if a < b then 0 else a - b
  }

  /** T-cycles from the oldest to the newest entry. */
  function Span(entries: seq<Entry>): nat {
    if entries == [] then 0 else SaturatingSub(entries[|entries| - 1].nextTCycle, entries[0].nextTCycle)
  }

  /** The first eviction loop: drop the oldest entry while the history is too long. */
  function EvictedBySpan(entries: seq<Entry>, target: nat): seq<Entry> {
    if |entries| > 1 && Span(entries) > target then EvictedBySpan(entries[1..], target) else entries
  }

  /** The second: drop the oldest entry while the bytes are too many. */
  function EvictedByBytes(entries: seq<Entry>, budget: nat): seq<Entry> {
    if |entries| > 1 && TotalBytes(entries) > budget then EvictedByBytes(entries[1..], budget) else entries
  }

  lemma {:induction false} TotalBytesSplit(a: seq<Entry>, b: seq<Entry>)
    ensures TotalBytes(a + b) == TotalBytes(a) + TotalBytes(b)
  {
    if a == [] {
      assert a + b == b;
    } else {
      TotalBytesSplit(a[1..], b);
      assert (a + b)[1..] == a[1..] + b;
    }
  }

  datatype RestoreInfo = RestoreInfo(kind: CaptureKind, nextTCycle: nat, estimatedBytes: nat, remaining: nat)

  /** Nothing to rewind to, a snapshot the machine rejects, or a snapshot restored. */
  datatype RewindOutcome = NothingToRewind | Rejected | Restored(info: RestoreInfo)

  datatype RewindState = RewindState(
    config: Config,
    entries: seq<Entry>,
    frameBoundaryCaptures: nat,
    subframeCaptures: nat,
    skippedSubframes: nat,
    duplicateCaptures: nat,
    evicted: nat,
    restored: nat,
    frameStart: Option<nat>,
    subframesThisFrame: u16,
    lastSubframe: Option<nat>)
  {
    function NewestTime(): Option<nat> {
      if entries == [] then None else Some(entries[|entries| - 1].nextTCycle)
    }

    predicate ShouldRecordSubframe(current: nat) {
      match config.cadence.Normalized()
      case Disabled => false
      case EveryTCycles(interval) =>
        var anchor :=
          if lastSubframe.Some? then lastSubframe else if frameStart.Some? then frameStart else NewestTime();
        anchor.Some? ==> SaturatingSub(current, anchor.value) >= interval
      case FixedPerFrame(captures) =>
        && subframesThisFrame < captures
        && var interval := T_CYCLES_PER_FRAME / (captures + 1);
           if frameStart.Some? then SaturatingSub(current, frameStart.value) >= interval * (subframesThisFrame + 1)
           else
             var anchor := if lastSubframe.Some? then lastSubframe else NewestTime();
             anchor.Some? ==> SaturatingSub(current, anchor.value) >= interval
    }

    /** Another capture at the newest entry's T-cycle replaces that entry. */
    predicate IsDuplicate(state: MachineState) {
      NewestTime() == Some(state.nextTCycle)
    }

    function Replaced(state: MachineState, kind: CaptureKind): RewindState
      requires entries != []
    {
      var n := |entries| - 1;
      this.(entries := entries[n := Capture(state, if kind.FrameBoundary? then FrameBoundary else entries[n].kind)],
            duplicateCaptures := duplicateCaptures + 1)
    }

    function Kept(state: MachineState, kind: CaptureKind): seq<Entry> {
      EvictedByBytes(EvictedBySpan(entries + [Capture(state, kind)], config.targetHistory), config.maxEstimatedBytes)
    }

    function Appended(state: MachineState, kind: CaptureKind): RewindState {
      KeptIsNoLonger(entries + [Capture(state, kind)], config);
      this.(entries := Kept(state, kind), evicted := evicted + (|entries| + 1 - |Kept(state, kind)|))
    }

    function AfterPush(state: MachineState, kind: CaptureKind): RewindState {
      if IsDuplicate(state) then Replaced(state, kind) else Appended(state, kind)
    }

    function AfterFrameBoundary(state: MachineState): RewindState {
      var pushed :=
        this.(frameStart := Some(state.nextTCycle), subframesThisFrame := 0).AfterPush(state, FrameBoundary);
      if IsDuplicate(state) then pushed else pushed.(frameBoundaryCaptures := frameBoundaryCaptures + 1)
    }

    predicate CapturesSubframe(state: MachineState) {
      ShouldRecordSubframe(state.nextTCycle) && !IsDuplicate(state)
    }

    function AfterSubframe(state: MachineState): RewindState {
      if !ShouldRecordSubframe(state.nextTCycle) then this.(skippedSubframes := skippedSubframes + 1)
      else if IsDuplicate(state) then AfterPush(state, Subframe)
      else
        AfterPush(state, Subframe).(
          subframeCaptures := subframeCaptures + 1,
          lastSubframe := Some(state.nextTCycle),
          subframesThisFrame := if config.cadence.Normalized().FixedPerFrame?
                                then Min(subframesThisFrame + 1, 0xFFFF) else subframesThisFrame)
    }

    /** The entry a rewind of a machine at `now` restores: the newest, or the one before it when the machine has not
        moved since the newest was captured. */
    function TargetIndex(now: nat): nat
      requires entries != []
    {
      if |entries| > 1 && entries[|entries| - 1].nextTCycle == now then |entries| - 2 else |entries| - 1
    }

    function AfterRewind(now: nat): RewindState
      requires entries != []
    {
      CutAt(TargetIndex(now))
    }

    /** The history once the entry at `index` has been restored: only older entries are left. */
    function CutAt(index: nat): RewindState
      requires index <= |entries|
    {
      var left := entries[..index];
      this.(entries := left, restored := restored + 1, frameStart := None, subframesThisFrame := 0,
            lastSubframe := if left != [] && left[|left| - 1].kind.Subframe?
                            then Some(left[|left| - 1].nextTCycle) else None)
    }
  }

  function Empty(config: Config): RewindState {
    RewindState(config, [], 0, 0, 0, 0, 0, 0, None, 0, None)
  }

  /** Both loops drop a prefix, and never the newest entry. */
  lemma KeptIsNoLonger(entries: seq<Entry>, config: Config)
    ensures |EvictedByBytes(EvictedBySpan(entries, config.targetHistory), config.maxEstimatedBytes)| <= |entries|
    ensures |EvictedBySpan(entries, config.targetHistory)| <= |entries|
  {
    BySpanIsSuffix(entries, config.targetHistory);
    ByBytesIsSuffix(EvictedBySpan(entries, config.targetHistory), config.maxEstimatedBytes);
  }

  /** The span loop stops at the first suffix short enough. */
  lemma {:induction false} BySpanIsSuffix(entries: seq<Entry>, target: nat)
    ensures var k := |entries| - |EvictedBySpan(entries, target)|;
      && 0 <= k && (entries != [] ==> k < |entries|) && EvictedBySpan(entries, target) == entries[k..]
      && (forall j :: 0 <= j < k ==> Span(entries[j..]) > target)
      && (k + 1 < |entries| ==> Span(entries[k..]) <= target)
  {
    if |entries| > 1 && Span(entries) > target {
      BySpanIsSuffix(entries[1..], target);
      var k := |entries| - |EvictedBySpan(entries, target)|;
      forall j | 0 <= j < k ensures Span(entries[j..]) > target {
        assert entries[0..] == entries;
        if j > 0 {
          assert entries[j..] == entries[1..][j - 1..];
        }
      }
    } else {
      assert entries[0..] == entries;
    }
  }

  /** The byte loop stops at the first suffix small enough. */
  lemma {:induction false} ByBytesIsSuffix(entries: seq<Entry>, budget: nat)
    ensures var k := |entries| - |EvictedByBytes(entries, budget)|;
      && 0 <= k && (entries != [] ==> k < |entries|) && EvictedByBytes(entries, budget) == entries[k..]
      && (forall j :: 0 <= j < k ==> TotalBytes(entries[j..]) > budget)
      && (k + 1 < |entries| ==> TotalBytes(entries[k..]) <= budget)
  {
    if |entries| > 1 && TotalBytes(entries) > budget {
      ByBytesIsSuffix(entries[1..], budget);
      var k := |entries| - |EvictedByBytes(entries, budget)|;
      forall j | 0 <= j < k ensures TotalBytes(entries[j..]) > budget {
        assert entries[0..] == entries;
        if j > 0 {
          assert entries[j..] == entries[1..][j - 1..];
        }
      }
    } else {
      assert entries[0..] == entries;
    }
  }

  class Machine {
    const identity: nat
    var state: MachineState

    ghost predicate Valid()
      reads this
    {
      state.identity == identity
    }

    constructor (state: MachineState)
      ensures Valid() && this.state == state
    {
      this.state := state;
      identity := state.identity;
    }

    /** A save state of another machine or cartridge is rejected before anything is touched. */
    method RestoreSaveState(saved: MachineState) returns (ok: bool)
      requires Valid()
      modifies this
      ensures Valid() && ok == (saved.identity == identity)
      ensures state == if ok then saved else old(state)
    {
      ok := saved.identity == identity;
      if ok {
        state := saved;
      }
    }
  }

  class MachineRewindBuffer {
    const config: Config
    var entries: seq<Entry>
    var estimatedBytes: nat
    var frameBoundaryCaptures: nat
    var subframeCaptures: nat
    var skippedSubframes: nat
    var duplicateCaptures: nat
    var evictedSnapshots: nat
    var restoredSnapshots: nat
    var currentFrameStart: Option<nat>
    var subframesRecordedThisFrame: u16
    var lastSubframe: Option<nat>

    /** The byte estimate is the exact sum over the entries. */
    ghost predicate Valid()
      reads this
    {
      estimatedBytes == TotalBytes(entries)
    }

    ghost function View(): RewindState
      reads this
    {
      RewindState(config, entries, frameBoundaryCaptures, subframeCaptures, skippedSubframes, duplicateCaptures,
                  evictedSnapshots, restoredSnapshots, currentFrameStart, subframesRecordedThisFrame, lastSubframe)
    }

    constructor (config: Config)
      ensures Valid() && View() == Empty(config)
    {
      this.config := config;
      entries, estimatedBytes := [], 0;
      frameBoundaryCaptures, subframeCaptures, skippedSubframes, duplicateCaptures := 0, 0, 0, 0;
      evictedSnapshots, restoredSnapshots := 0, 0;
      currentFrameStart, subframesRecordedThisFrame, lastSubframe := None, 0, None;
    }

    method Clear()
      modifies this
      ensures Valid() && View() == Empty(config)
    {
      entries, estimatedBytes := [], 0;
      frameBoundaryCaptures, subframeCaptures, skippedSubframes, duplicateCaptures := 0, 0, 0, 0;
      evictedSnapshots, restoredSnapshots := 0, 0;
      currentFrameStart, subframesRecordedThisFrame, lastSubframe := None, 0, None;
    }

    method RecordFrameBoundary(machine: Machine) returns (captured: bool)
      requires Valid()
      modifies this
      ensures Valid() && View() == old(View()).AfterFrameBoundary(machine.state)
      ensures captured == !old(View()).IsDuplicate(machine.state)
    {
      currentFrameStart := Some(machine.state.nextTCycle);
      subframesRecordedThisFrame := 0;
      captured := PushCapture(machine, FrameBoundary);
      if captured {
        frameBoundaryCaptures := frameBoundaryCaptures + 1;
      }
    }

    method RecordSubframe(machine: Machine) returns (captured: bool)
      requires Valid()
      modifies this
      ensures Valid() && View() == old(View()).AfterSubframe(machine.state)
      ensures captured == old(View()).CapturesSubframe(machine.state)
    {
      var due := ShouldRecordSubframe(machine.state.nextTCycle);
      if !due {
        skippedSubframes := skippedSubframes + 1;
        return false;
      }
      captured := PushCapture(machine, Subframe);
      if captured {
        subframeCaptures := subframeCaptures + 1;
        lastSubframe := Some(machine.state.nextTCycle);
        if config.cadence.Normalized().FixedPerFrame? {
          subframesRecordedThisFrame := Min(subframesRecordedThisFrame + 1, 0xFFFF);
        }
      }
    }

    method ShouldRecordSubframe(current: nat) returns (due: bool)
      ensures due == View().ShouldRecordSubframe(current)
    {
      match config.cadence.Normalized() {
        case Disabled =>
          due := false;
        case EveryTCycles(interval) =>
          var anchor := lastSubframe;
          if anchor.None? {
            anchor := currentFrameStart;
          }
          if anchor.None? && entries != [] {
            anchor := Some(entries[|entries| - 1].nextTCycle);
          }
          due := anchor.None? || SaturatingSub(current, anchor.value) >= interval;
        case FixedPerFrame(captures) =>
          if subframesRecordedThisFrame >= captures {
            return false;
          }
          var interval := T_CYCLES_PER_FRAME / (captures + 1);
          if currentFrameStart.Some? {
            due := SaturatingSub(current, currentFrameStart.value) >= interval * (subframesRecordedThisFrame + 1);
          } else {
            var anchor := lastSubframe;
            if anchor.None? && entries != [] {
              anchor := Some(entries[|entries| - 1].nextTCycle);
            }
            due := anchor.None? || SaturatingSub(current, anchor.value) >= interval;
          }
      }
    }

    method PushCapture(machine: Machine, kind: CaptureKind) returns (appended: bool)
      requires Valid()
      modifies this
      ensures Valid() && View() == old(View()).AfterPush(machine.state, kind)
      ensures appended == !old(View()).IsDuplicate(machine.state)
    {
      hide EvictedBySpan, EvictedByBytes, RewindState.Replaced;
      var state := machine.state;
      if entries != [] && entries[|entries| - 1].nextTCycle == state.nextTCycle {
        ReplaceNewest(state, kind);
        return false;
      }
      TotalBytesSplit(entries, [Capture(state, kind)]);
      estimatedBytes := estimatedBytes + state.deepSize;
      entries := entries + [Capture(state, kind)];
      EnforceLimits();
      appended := true;
    }

    method ReplaceNewest(state: MachineState, kind: CaptureKind)
      requires Valid() && entries != []
      modifies `entries, `estimatedBytes, `duplicateCaptures
      ensures Valid() && View() == old(View()).Replaced(state, kind)
    {
      var n := |entries| - 1;
      var latest := entries[n];
      var replacement := Capture(state, if kind.FrameBoundary? then FrameBoundary else latest.kind);
      assert entries == entries[..n] + [latest];
      TotalBytesSplit(entries[..n], [latest]);
      TotalBytesSplit(entries[..n], [replacement]);
      assert entries[n := replacement] == entries[..n] + [replacement];
      estimatedBytes := SaturatingSub(estimatedBytes, latest.estimatedBytes) + state.deepSize;
      entries := entries[n := replacement];
      duplicateCaptures := duplicateCaptures + 1;
    }

    method EnforceLimits()
      requires Valid() && entries != []
      modifies `entries, `estimatedBytes, `evictedSnapshots
      ensures Valid()
      ensures entries == EvictedByBytes(EvictedBySpan(old(entries), config.targetHistory), config.maxEstimatedBytes)
      ensures evictedSnapshots + |entries| == old(evictedSnapshots) + |old(entries)|
    {
      var newest := entries[|entries| - 1].nextTCycle;
      while |entries| > 1 && SaturatingSub(newest, entries[0].nextTCycle) > config.targetHistory
        invariant Valid() && entries != [] && newest == entries[|entries| - 1].nextTCycle
        invariant EvictedBySpan(entries, config.targetHistory) == EvictedBySpan(old(entries), config.targetHistory)
        invariant evictedSnapshots + |entries| == old(evictedSnapshots) + |old(entries)|
        decreases |entries|
      {
        PopFrontEvicted();
      }
      ghost var inSpan := entries;
      while |entries| > 1 && estimatedBytes > config.maxEstimatedBytes
        invariant Valid()
        invariant EvictedByBytes(entries, config.maxEstimatedBytes) == EvictedByBytes(inSpan, config.maxEstimatedBytes)
        invariant evictedSnapshots + |entries| == old(evictedSnapshots) + |old(entries)|
        decreases |entries|
      {
        PopFrontEvicted();
      }
    }

    method PopFrontEvicted()
      requires Valid() && entries != []
      modifies `entries, `estimatedBytes, `evictedSnapshots
      ensures Valid() && entries == old(entries)[1..] && evictedSnapshots == old(evictedSnapshots) + 1
    {
      estimatedBytes := SaturatingSub(estimatedBytes, entries[0].estimatedBytes);
      entries := entries[1..];
      evictedSnapshots := evictedSnapshots + 1;
    }

    method PopBack()
      requires Valid() && entries != []
      modifies `entries, `estimatedBytes
      ensures Valid() && entries == old(entries)[..|old(entries)| - 1]
    {
      var n := |entries| - 1;
      TotalBytesSplit(entries[..n], [entries[n]]);
      assert entries == entries[..n] + [entries[n]];
      estimatedBytes := SaturatingSub(estimatedBytes, entries[n].estimatedBytes);
      entries := entries[..n];
    }

    method TruncateTo(length: nat)
      requires Valid() && length <= |entries|
      modifies `entries, `estimatedBytes
      ensures Valid() && entries == old(entries)[..length]
    {
      while |entries| > length
        invariant Valid() && length <= |entries| <= |old(entries)| && entries == old(entries)[..|entries|]
        decreases |entries|
      {
        PopBack();
      }
    }

    method RewindOne(machine: Machine) returns (outcome: RewindOutcome)
      requires Valid() && machine.Valid()
      modifies this, machine
      ensures Valid() && machine.Valid()
      ensures old(entries) == [] ==>
        outcome == NothingToRewind && View() == old(View()) && machine.state == old(machine.state)
      ensures old(entries) != [] ==>
        var target := old(entries)[old(View()).TargetIndex(old(machine.state.nextTCycle))];
        if target.state.identity != machine.identity
        then outcome == Rejected && View() == old(View()) && machine.state == old(machine.state)
        else
          && machine.state == target.state
          && View() == old(View()).AfterRewind(old(machine.state.nextTCycle))
          && outcome == Restored(RestoreInfo(target.kind, target.nextTCycle, target.estimatedBytes, |entries|))
    {
      hide TotalBytes;
      if entries == [] {
        return NothingToRewind;
      }
      var targetIndex := |entries| - 1;
      if |entries| > 1 && entries[targetIndex].nextTCycle == machine.state.nextTCycle {
        targetIndex := targetIndex - 1;
      }
      var target := entries[targetIndex];
      var ok := machine.RestoreSaveState(target.state);
      if !ok {
        return Rejected;
      }
      DropRestored(targetIndex);
      outcome := Restored(RestoreInfo(target.kind, target.nextTCycle, target.estimatedBytes, targetIndex));
    }

    method DropRestored(targetIndex: nat)
      requires Valid() && targetIndex <= |entries|
      modifies this
      ensures Valid() && View() == old(View()).CutAt(targetIndex)
    {
      hide TotalBytes;
      TruncateTo(targetIndex);
      restoredSnapshots := restoredSnapshots + 1;
      currentFrameStart := None;
      subframesRecordedThisFrame := 0;
      lastSubframe := if entries != [] && entries[|entries| - 1].kind.Subframe?
                      then Some(entries[|entries| - 1].nextTCycle) else None;
    }
  }
}
