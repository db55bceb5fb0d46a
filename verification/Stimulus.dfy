/** Benchmark stimuli: two sorted schedules with cursors that agree with a plain filter of the input list. */
module Stimulus {
  import opened Prelude

  datatype Button = ButtonA | ButtonB | Select | Start | Right | Left | Up | Down

  datatype When = AtTCycle(tCycle: nat) | AtFrame(frame: nat)

  datatype Event = Event(when: When, button: Button, pressed: bool)

  datatype Scheduled = Scheduled(event: Event, order: nat) {
    function Time(): nat {
      match event.when
      case AtTCycle(t) => t
      case AtFrame(f) => f
    }

    predicate IsTCycle() {
      event.when.AtTCycle?
    }
  }

  /** The input list with each event's position. */
  function Items(events: seq<Event>): seq<Scheduled> {
    seq(|events|, i requires 0 <= i < |events| => Scheduled(events[i], i))
  }

  function Filter(s: seq<Scheduled>, keep: Scheduled -> bool): seq<Scheduled> {
    if s == [] then []
    else (if keep(s[0]) then [s[0]] else []) + Filter(s[1..], keep)
  }

  /** The two sort keys of the source: time then position, and position alone. */
  datatype SortKey = ByTime | ByPosition {
    predicate Before(x: Scheduled, y: Scheduled) {
      match this
      case ByTime => x.Time() < y.Time() || (x.Time() == y.Time() && x.order <= y.order)
      case ByPosition => x.order <= y.order
    }
  }

  ghost predicate Sorted(key: SortKey, s: seq<Scheduled>) {
    forall i, j :: 0 <= i < j < |s| ==> key.Before(s[i], s[j])
  }

  function Insert(key: SortKey, x: Scheduled, s: seq<Scheduled>): seq<Scheduled> {
    if s == [] || key.Before(x, s[0]) then [x] + s else [s[0]] + Insert(key, x, s[1..])
  }

  /** The library's sort, as its contract has it: ordered and a permutation. */
  function SortBy(key: SortKey, s: seq<Scheduled>): seq<Scheduled> {
    if s == [] then [] else Insert(key, s[0], SortBy(key, s[1..]))
  }

  lemma {:induction false} InsertKeepsElements(key: SortKey, x: Scheduled, s: seq<Scheduled>)
    ensures multiset(Insert(key, x, s)) == multiset(s) + multiset{x}
  {
    hide SortKey.Before;
    if s != [] && !key.Before(x, s[0]) {
      InsertKeepsElements(key, x, s[1..]);
      assert s == [s[0]] + s[1..];
    }
  }

  lemma {:induction false} InsertElement(key: SortKey, x: Scheduled, s: seq<Scheduled>, y: Scheduled)
    ensures y in Insert(key, x, s) <==> y == x || y in s
  {
    hide SortKey.Before;
    if s != [] && !key.Before(x, s[0]) {
      InsertElement(key, x, s[1..], y);
      assert s == [s[0]] + s[1..];
    }
  }

  lemma {:induction false} InsertSorts(key: SortKey, x: Scheduled, s: seq<Scheduled>)
    requires Sorted(key, s)
    ensures Sorted(key, Insert(key, x, s))
  {
    hide *;
    if s == [] || key.Before(x, s[0]) {
      InsertFront(key, x, s);
    } else {
      SortedTail(key, s);
      InsertSorts(key, x, s[1..]);
      InsertUnfolds(key, x, s);
      forall y | y in Insert(key, x, s[1..]) ensures key.Before(s[0], y) {
        InsertElement(key, x, s[1..], y);
        BeforeOneWay(key, x, s[0]);
      }
      SortedPrepend(key, s[0], Insert(key, x, s[1..]));
    }
  }

  lemma InsertFront(key: SortKey, x: Scheduled, s: seq<Scheduled>)
    requires Sorted(key, s) && (s == [] || key.Before(x, s[0]))
    ensures Sorted(key, Insert(key, x, s))
  {
    assert forall i :: 0 < i < |s| ==> key.Before(s[0], s[i]);
  }

  lemma InsertUnfolds(key: SortKey, x: Scheduled, s: seq<Scheduled>)
    requires s != [] && !key.Before(x, s[0])
    ensures Insert(key, x, s) == [s[0]] + Insert(key, x, s[1..])
  {
  }

  lemma SortedTail(key: SortKey, s: seq<Scheduled>)
    requires Sorted(key, s) && s != []
    ensures Sorted(key, s[1..]) && forall y :: y in s[1..] ==> key.Before(s[0], y)
  {
    hide SortKey.Before;
  }

  lemma SortedPrepend(key: SortKey, x: Scheduled, s: seq<Scheduled>)
    requires Sorted(key, s) && forall y :: y in s ==> key.Before(x, y)
    ensures Sorted(key, [x] + s)
  {
    hide SortKey.Before;
  }

  lemma BeforeOneWay(key: SortKey, x: Scheduled, y: Scheduled)
    ensures key.Before(x, y) || key.Before(y, x)
  {
  }

  lemma {:induction false} SortBySorts(key: SortKey, s: seq<Scheduled>)
    ensures Sorted(key, SortBy(key, s)) && multiset(SortBy(key, s)) == multiset(s)
  {
    hide Sorted, Insert;
    if s == [] {
      NothingToSort(key);
    } else {
      SortBySorts(key, s[1..]);
      InsertSorts(key, s[0], SortBy(key, s[1..]));
      InsertKeepsElements(key, s[0], SortBy(key, s[1..]));
      assert s == [s[0]] + s[1..];
    }
  }

  lemma NothingToSort(key: SortKey)
    ensures Sorted(key, [])
  {
  }

  /** Every scheduled event is the input event at its position. */
  ghost predicate FromInput(events: seq<Event>, s: seq<Scheduled>) {
    forall x :: x in s ==> x.order < |events| && x.event == events[x.order]
  }

  /** Two orderings by position of the same events are the same list. */
  lemma {:induction false} PositionsDetermine(events: seq<Event>, a: seq<Scheduled>, b: seq<Scheduled>)
    requires FromInput(events, a) && FromInput(events, b)
    requires Sorted(ByPosition, a) && Sorted(ByPosition, b) && multiset(a) == multiset(b)
    ensures a == b
  {
    assert |a| == |multiset(a)| == |multiset(b)| == |b|;
    if a != [] {
      SameHead(events, a, b);
      PositionsDetermine(events, a[1..], b[1..]);
      assert a == [a[0]] + a[1..] && b == [b[0]] + b[1..];
    }
  }

  lemma SameHead(events: seq<Event>, a: seq<Scheduled>, b: seq<Scheduled>)
    requires a != [] && b != [] && FromInput(events, a) && FromInput(events, b)
    requires Sorted(ByPosition, a) && Sorted(ByPosition, b) && multiset(a) == multiset(b)
    ensures a[0] == b[0] && multiset(a[1..]) == multiset(b[1..])
  {
    MultisetHead(a);
    MultisetHead(b);
    assert a[0] in multiset(b) && b[0] in multiset(a);
    assert a[0].order <= b[0].order <= a[0].order;
  }

  lemma MultisetHead(s: seq<Scheduled>)
    requires s != []
    ensures multiset(s[1..]) == multiset(s) - multiset{s[0]}
    ensures forall x :: x in multiset(s) ==> x in s
  {
    assert s == [s[0]] + s[1..];
  }

  lemma {:induction false} FilterConcat(a: seq<Scheduled>, b: seq<Scheduled>, keep: Scheduled -> bool)
    ensures Filter(a + b, keep) == Filter(a, keep) + Filter(b, keep)
  {
    if a == [] {
      assert a + b == b;
    } else {
      FilterConcat(a[1..], b, keep);
      var head := if keep(a[0]) then [a[0]] else [];
      assert (a + b)[1..] == a[1..] + b;
      assert head + (Filter(a[1..], keep) + Filter(b, keep)) == (head + Filter(a[1..], keep)) + Filter(b, keep);
    }
  }

  lemma {:induction false} FilterNone(s: seq<Scheduled>, keep: Scheduled -> bool)
    requires forall x :: x in s ==> !keep(x)
    ensures Filter(s, keep) == []
  {
    if s != [] {
      FilterNone(s[1..], keep);
    }
  }

  /** How often an event survives a filter depends only on how often it occurs. */
  lemma {:induction false} FilterCount(s: seq<Scheduled>, keep: Scheduled -> bool, x: Scheduled)
    ensures multiset(Filter(s, keep))[x] == if keep(x) then multiset(s)[x] else 0
  {
    if s != [] {
      FilterCount(s[1..], keep, x);
      assert s == [s[0]] + s[1..];
    }
  }

  lemma {:induction false} FilterSelects(s: seq<Scheduled>, keep: Scheduled -> bool)
    ensures forall x :: x in Filter(s, keep) <==> x in s && keep(x)
  {
    if s != [] {
      FilterSelects(s[1..], keep);
      assert s == [s[0]] + s[1..];
    }
  }

  lemma {:induction false} FilterKeepsOrder(key: SortKey, s: seq<Scheduled>, keep: Scheduled -> bool)
    requires Sorted(key, s)
    ensures Sorted(key, Filter(s, keep))
  {
    if s != [] {
      FilterKeepsOrder(key, s[1..], keep);
      FilterSelects(s[1..], keep);
      var rest := Filter(s[1..], keep);
      forall y | y in rest ensures key.Before(s[0], y) {
        assert y in s[1..];
      }
    }
  }

  /** A value is first seen when it exceeds everything seen before. */
  predicate FirstSeen(seen: Option<nat>, now: nat) {
    seen.None? || seen.value < now
  }

  function SeenWith(seen: Option<nat>, now: nat): Option<nat> {
    if FirstSeen(seen, now) then Some(now) else seen
  }

  predicate DueByTime(x: Scheduled, seen: Option<nat>, now: nat) {
    FirstSeen(seen, now) && x.Time() == now
  }

  predicate IsDue(x: Scheduled, seenT: Option<nat>, t: nat, seenF: Option<nat>, f: nat) {
    if x.IsTCycle() then DueByTime(x, seenT, t) else DueByTime(x, seenF, f)
  }

  /** The specification: a filter of the input list, in input order. */
  function Due(events: seq<Event>, seenT: Option<nat>, t: nat, seenF: Option<nat>, f: nat): seq<Scheduled> {
    Filter(Items(events), x => IsDue(x, seenT, t, seenF, f))
  }

  function Applied(due: seq<Scheduled>): seq<(Button, bool)> {
    seq(|due|, i requires 0 <= i < |due| => (due[i].event.button, due[i].event.pressed))
  }

  /** Going through the input list once: each event that is due at a first-seen T-cycle or frame is one call. */
  function DueCalls(events: seq<Event>, seenT: Option<nat>, t: nat, seenF: Option<nat>, f: nat): seq<(Button, bool)> {
    if events == [] then []
    else
      var e := events[|events| - 1];
      var due := match e.when
        case AtTCycle(at) => at == t && (seenT.Some? ==> seenT.value < t)
        case AtFrame(at) => at == f && (seenF.Some? ==> seenF.value < f);
      DueCalls(events[..|events| - 1], seenT, t, seenF, f) + if due then [(e.button, e.pressed)] else []
  }

  /** The calls made are those of one pass over the input. */
  lemma {:induction false} AppliedIsOnePass(
    events: seq<Event>, seenT: Option<nat>, t: nat, seenF: Option<nat>, f: nat)
    ensures Applied(Due(events, seenT, t, seenF, f)) == DueCalls(events, seenT, t, seenF, f)
  {
    if events == [] {
      assert Items(events) == [];
    } else {
      var n := |events| - 1;
      var last := Scheduled(events[n], n);
      var keep := (x: Scheduled) => IsDue(x, seenT, t, seenF, f);
      AppliedIsOnePass(events[..n], seenT, t, seenF, f);
      assert Items(events) == Items(events[..n]) + [last];
      FilterConcat(Items(events[..n]), [last], keep);
      FilterOne(last, keep);
      AppliedConcat(Filter(Items(events[..n]), keep), if keep(last) then [last] else []);
      hide Items, Filter, Applied;
    }
  }

  lemma FilterOne(x: Scheduled, keep: Scheduled -> bool)
    ensures Filter([x], keep) == if keep(x) then [x] else []
  {
  }

  lemma AppliedConcat(a: seq<Scheduled>, b: seq<Scheduled>)
    ensures Applied(a + b) == Applied(a) + Applied(b)
    ensures |b| == 1 ==> Applied(b) == [(b[0].event.button, b[0].event.pressed)]
    ensures b == [] ==> Applied(b) == []
  {
  }

  /** A cursor separates the entries already passed from those still to come. */
  ghost predicate CursorAt(s: seq<Scheduled>, cursor: nat, seen: Option<nat>) {
    && cursor <= |s|
    && (forall j :: 0 <= j < cursor ==> !FirstSeen(seen, s[j].Time()))
    && (forall j :: cursor <= j < |s| ==> FirstSeen(seen, s[j].Time()))
  }

  /** The schedules split the input by kind, so the due entries of both are the due events of the input. */
  lemma DueParts(
    events: seq<Event>, tcycles: seq<Scheduled>, frames: seq<Scheduled>,
    seenT: Option<nat>, t: nat, seenF: Option<nat>, f: nat)
    requires multiset(tcycles) == multiset(Filter(Items(events), (x: Scheduled) => x.IsTCycle()))
    requires multiset(frames) == multiset(Filter(Items(events), (x: Scheduled) => !x.IsTCycle()))
    ensures var due := Filter(tcycles, x => DueByTime(x, seenT, t)) + Filter(frames, x => DueByTime(x, seenF, f));
      SortBy(ByPosition, due) == Due(events, seenT, t, seenF, f)
  {
    hide Items, Filter, SortBy, Sorted, FromInput, DueByTime, IsDue;
    var items := Items(events);
    var dueT, dueF := (x: Scheduled) => DueByTime(x, seenT, t), (x: Scheduled) => DueByTime(x, seenF, f);
    var dueAny := (x: Scheduled) => IsDue(x, seenT, t, seenF, f);
    var due := Filter(tcycles, dueT) + Filter(frames, dueF);
    forall x ensures multiset(due)[x] == multiset(Filter(items, dueAny))[x] {
      DueCount(items, tcycles, frames, seenT, t, seenF, f, x);
    }
    assert multiset(due) == multiset(Filter(items, dueAny));
    SortBySorts(ByPosition, due);
    ItemsInOrder(events);
    FilterKeepsOrder(ByPosition, items, dueAny);
    FilterSelects(items, dueAny);
    SameElements(SortBy(ByPosition, due), Filter(items, dueAny));
    SelectedFromInput(events, Filter(items, dueAny), SortBy(ByPosition, due));
    PositionsDetermine(events, SortBy(ByPosition, due), Filter(items, dueAny));
  }

  lemma ItemsInOrder(events: seq<Event>)
    ensures Sorted(ByPosition, Items(events)) && FromInput(events, Items(events))
  {
  }

  lemma SelectedFromInput(events: seq<Event>, a: seq<Scheduled>, b: seq<Scheduled>)
    requires FromInput(events, Items(events))
    requires (forall x :: x in a ==> x in Items(events)) && (forall x :: x in a <==> x in b)
    ensures FromInput(events, a) && FromInput(events, b)
  {
    hide Items;
  }

  /** An event is due in one of the schedules as often as it is due in the input. */
  lemma DueCount(
    items: seq<Scheduled>, tcycles: seq<Scheduled>, frames: seq<Scheduled>,
    seenT: Option<nat>, t: nat, seenF: Option<nat>, f: nat, x: Scheduled)
    requires multiset(tcycles) == multiset(Filter(items, (x: Scheduled) => x.IsTCycle()))
    requires multiset(frames) == multiset(Filter(items, (x: Scheduled) => !x.IsTCycle()))
    ensures multiset(Filter(tcycles, x => DueByTime(x, seenT, t)) + Filter(frames, x => DueByTime(x, seenF, f)))[x]
         == multiset(Filter(items, x => IsDue(x, seenT, t, seenF, f)))[x]
  {
    hide Filter, DueByTime, Scheduled.IsTCycle;
    FilterCount(tcycles, x => DueByTime(x, seenT, t), x);
    FilterCount(frames, x => DueByTime(x, seenF, f), x);
    FilterCount(items, (x: Scheduled) => x.IsTCycle(), x);
    FilterCount(items, (x: Scheduled) => !x.IsTCycle(), x);
    FilterCount(items, x => IsDue(x, seenT, t, seenF, f), x);
  }

  lemma SameElements(a: seq<Scheduled>, b: seq<Scheduled>)
    requires multiset(a) == multiset(b)
    ensures forall x :: x in a <==> x in b
  {
    assert forall x :: x in a <==> x in multiset(a);
    assert forall x :: x in b <==> x in multiset(b);
  }

  class BenchmarkStimulusRuntime {
    ghost const events: seq<Event>
    ghost var seenTCycle: Option<nat>
    ghost var seenFrame: Option<nat>
    var frameStimuli: seq<Scheduled>
    var tcycleStimuli: seq<Scheduled>
    var nextFrameStimulus: nat
    var nextTCycleStimulus: nat

    ghost predicate Valid()
      reads this
    {
      && Sorted(ByTime, tcycleStimuli) && Sorted(ByTime, frameStimuli)
      && multiset(tcycleStimuli) == multiset(Filter(Items(events), (x: Scheduled) => x.IsTCycle()))
      && multiset(frameStimuli) == multiset(Filter(Items(events), (x: Scheduled) => !x.IsTCycle()))
      && CursorAt(tcycleStimuli, nextTCycleStimulus, seenTCycle)
      && CursorAt(frameStimuli, nextFrameStimulus, seenFrame)
    }

    constructor (stimuli: seq<Event>)
      ensures Valid() && events == stimuli && seenTCycle == None && seenFrame == None
    {
      var frames: seq<Scheduled>, tcycles: seq<Scheduled> := [], [];
      var items := Items(stimuli);
      ghost var isT, isF := (x: Scheduled) => x.IsTCycle(), (x: Scheduled) => !x.IsTCycle();
      for order := 0 to |stimuli|
        invariant tcycles == Filter(items[..order], isT) && frames == Filter(items[..order], isF)
      {
        var scheduled := Scheduled(stimuli[order], order);
        assert items[..order + 1] == items[..order] + [scheduled];
        FilterConcat(items[..order], [scheduled], isT);
        FilterConcat(items[..order], [scheduled], isF);
        match stimuli[order].when {
          case AtFrame(_) => frames := frames + [scheduled];
          case AtTCycle(_) => tcycles := tcycles + [scheduled];
        }
      }
      assert items[..|stimuli|] == items;
      SortBySorts(ByTime, frames);
      SortBySorts(ByTime, tcycles);
      events := stimuli;
      seenTCycle, seenFrame := None, None;
      frameStimuli, tcycleStimuli := SortBy(ByTime, frames), SortBy(ByTime, tcycles);
      nextFrameStimulus, nextTCycleStimulus := 0, 0;
    }

    /** The callback's calls, in order, are the result. */
    method ApplyDue(tCycle: nat, completedFrames: nat) returns (applied: seq<(Button, bool)>)
      requires Valid()
      modifies this
      ensures Valid()
      ensures applied == Applied(Due(events, old(seenTCycle), tCycle, old(seenFrame), completedFrames))
      ensures seenTCycle == SeenWith(old(seenTCycle), tCycle) && seenFrame == SeenWith(old(seenFrame), completedFrames)
    {
      hide Filter, Items, SortBy, Due, FirstSeen, CursorAt, Sorted;
      var dueT, cursorT := Scan(tcycleStimuli, nextTCycleStimulus, seenTCycle, tCycle);
      nextTCycleStimulus := cursorT;
      var dueF, cursorF := Scan(frameStimuli, nextFrameStimulus, seenFrame, completedFrames);
      nextFrameStimulus := cursorF;
      DueParts(events, tcycleStimuli, frameStimuli, seenTCycle, tCycle, seenFrame, completedFrames);
      var due := SortBy(ByPosition, dueT + dueF);
      applied := [];
      for i := 0 to |due|
        invariant applied == Applied(due)[..i]
      {
        applied := applied + [(due[i].event.button, due[i].event.pressed)];
      }
      seenTCycle, seenFrame := SeenWith(seenTCycle, tCycle), SeenWith(seenFrame, completedFrames);
    }

    /** One cursor loop: skip what is past, take what is due, stop at what is to come. */
    static method Scan(s: seq<Scheduled>, cursor: nat, ghost seen: Option<nat>, now: nat)
      returns (due: seq<Scheduled>, next: nat)
      requires Sorted(ByTime, s) && CursorAt(s, cursor, seen)
      ensures due == Filter(s, x => DueByTime(x, seen, now))
      ensures CursorAt(s, next, SeenWith(seen, now))
    {
      ghost var keep := (x: Scheduled) => DueByTime(x, seen, now);
      due, next := [], cursor;
      FilterNone(s[..cursor], keep);
      while next < |s| && s[next].Time() <= now
        invariant cursor <= next <= |s|
        invariant next == cursor || FirstSeen(seen, now)
        invariant forall j :: cursor <= j < next ==> s[j].Time() <= now
        invariant due == Filter(s[..next], keep)
      {
        FilterNext(s, next, keep);
        if s[next].Time() == now {
          due := due + [s[next]];
        }
        next := next + 1;
      }
      StillToCome(s, next, now);
      CursorMoves(s, cursor, next, seen, now);
      NothingLeft(s, next, keep, now);
    }
  }

  lemma FilterNext(s: seq<Scheduled>, k: nat, keep: Scheduled -> bool)
    requires k < |s|
    ensures Filter(s[..k + 1], keep) == Filter(s[..k], keep) + (if keep(s[k]) then [s[k]] else [])
  {
    assert s[..k + 1] == s[..k] + [s[k]];
    FilterConcat(s[..k], [s[k]], keep);
  }

  /** Where the loop stops, everything from the cursor on is still to come. */
  lemma StillToCome(s: seq<Scheduled>, next: nat, now: nat)
    requires Sorted(ByTime, s) && next <= |s| && (next < |s| ==> s[next].Time() > now)
    ensures forall j :: next <= j < |s| ==> s[j].Time() > now
  {
    forall j | next <= j < |s| ensures s[j].Time() > now {
      assert j == next || ByTime.Before(s[next], s[j]);
    }
  }

  lemma CursorMoves(s: seq<Scheduled>, cursor: nat, next: nat, seen: Option<nat>, now: nat)
    requires CursorAt(s, cursor, seen) && cursor <= next <= |s|
    requires next == cursor || FirstSeen(seen, now)
    requires forall j :: cursor <= j < next ==> s[j].Time() <= now
    requires forall j :: next <= j < |s| ==> s[j].Time() > now
    ensures CursorAt(s, next, SeenWith(seen, now))
  {
  }

  lemma NothingLeft(s: seq<Scheduled>, next: nat, keep: Scheduled -> bool, now: nat)
    requires next <= |s| && (forall x :: keep(x) ==> x.Time() == now)
    requires forall j :: next <= j < |s| ==> s[j].Time() > now
    ensures Filter(s, keep) == Filter(s[..next], keep)
  {
    hide *;
    NoneKept(s, next, keep, now);
    FilterNone(s[next..], keep);
    FilterConcat(s[..next], s[next..], keep);
    assert s == s[..next] + s[next..];
  }

  lemma NoneKept(s: seq<Scheduled>, next: nat, keep: Scheduled -> bool, now: nat)
    requires next <= |s| && (forall x :: keep(x) ==> x.Time() == now)
    requires forall j :: next <= j < |s| ==> s[j].Time() > now
    ensures forall x :: x in s[next..] ==> !keep(x)
  {
    hide Scheduled.Time;
    forall x | x in s[next..] ensures !keep(x) {
      var k :| 0 <= k < |s[next..]| && s[next..][k] == x;
      assert s[next + k] == x;
    }
  }

  // Runs of calls.

  datatype Call = Call(tCycle: nat, completedFrames: nat)

  function SeenT(calls: seq<Call>): Option<nat> {
    if calls == [] then None else SeenWith(SeenT(calls[..|calls| - 1]), calls[|calls| - 1].tCycle)
  }

  function SeenF(calls: seq<Call>): Option<nat> {
    if calls == [] then None else SeenWith(SeenF(calls[..|calls| - 1]), calls[|calls| - 1].completedFrames)
  }

  /** What call number `i` applies. */
  function AppliedIn(events: seq<Event>, calls: seq<Call>, i: nat): seq<Scheduled>
    requires i < |calls|
  {
    Due(events, SeenT(calls[..i]), calls[i].tCycle, SeenF(calls[..i]), calls[i].completedFrames)
  }

  ghost predicate NonDecreasing(calls: seq<Call>) {
    forall i, j :: 0 <= i < j < |calls| ==>
      calls[i].tCycle <= calls[j].tCycle && calls[i].completedFrames <= calls[j].completedFrames
  }

  /** What has been seen is at least every earlier value, and is one of them. */
  lemma {:induction false} SeenBounds(calls: seq<Call>, n: nat)
    requires n <= |calls|
    ensures forall i :: 0 <= i < n ==> !FirstSeen(SeenT(calls[..n]), calls[i].tCycle)
    ensures forall i :: 0 <= i < n ==> !FirstSeen(SeenF(calls[..n]), calls[i].completedFrames)
    ensures SeenT(calls[..n]).Some? ==> exists i :: 0 <= i < n && calls[i].tCycle == SeenT(calls[..n]).value
    ensures SeenF(calls[..n]).Some? ==> exists i :: 0 <= i < n && calls[i].completedFrames == SeenF(calls[..n]).value
  {
    if n > 0 {
      SeenBounds(calls, n - 1);
      assert calls[..n][..n - 1] == calls[..n - 1];
    }
  }

  /** A call applies exactly the input events whose T-cycle or frame it is the first to show, in input order. */
  lemma AppliedExactlyWhenFirstShown(events: seq<Event>, calls: seq<Call>, i: nat, x: Scheduled)
    requires NonDecreasing(calls) && i < |calls|
    ensures x in AppliedIn(events, calls, i)
       <==> x in Items(events)
            && (match x.event.when
                case AtTCycle(t) => t == calls[i].tCycle && forall j :: 0 <= j < i ==> calls[j].tCycle != t
                case AtFrame(f) =>
                  f == calls[i].completedFrames && forall j :: 0 <= j < i ==> calls[j].completedFrames != f)
    ensures Sorted(ByPosition, AppliedIn(events, calls, i))
  {
    SeenBounds(calls, i);
    var keep := (x: Scheduled) =>
      IsDue(x, SeenT(calls[..i]), calls[i].tCycle, SeenF(calls[..i]), calls[i].completedFrames);
    FilterCount(Items(events), keep, x);
    FilterKeepsOrder(ByPosition, Items(events), keep);
    FilterSelects(Items(events), keep);
    hide SeenT, SeenF;
  }

  /** No event is applied by two calls, in whatever order the calls come, nor twice by one. */
  lemma NeverTwice(events: seq<Event>, calls: seq<Call>, i: nat, j: nat, x: Scheduled)
    requires i <= j < |calls| && x in AppliedIn(events, calls, i) && x in AppliedIn(events, calls, j)
    ensures i == j && multiset(AppliedIn(events, calls, i))[x] == 1
  {
    var items := Items(events);
    var keepI := (x: Scheduled) =>
      IsDue(x, SeenT(calls[..i]), calls[i].tCycle, SeenF(calls[..i]), calls[i].completedFrames);
    var keepJ := (x: Scheduled) =>
      IsDue(x, SeenT(calls[..j]), calls[j].tCycle, SeenF(calls[..j]), calls[j].completedFrames);
    FilterCount(items, keepI, x);
    FilterCount(items, keepJ, x);
    SeenBounds(calls, j);
    ItemOnce(events, x);
    hide SeenT, SeenF, Items;
  }

  lemma ItemOnce(events: seq<Event>, x: Scheduled)
    ensures multiset(Items(events))[x] <= 1
  {
    var items := Items(events);
    if x in items {
      var k := x.order;
      assert items == items[..k] + [items[k]] + items[k + 1..];
      assert x !in items[..k] && x !in items[k + 1..];
      assert multiset(items) == multiset(items[..k]) + multiset{items[k]} + multiset(items[k + 1..]);
    }
  }
}
