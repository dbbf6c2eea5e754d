/** What the undo history keeps over whole runs, and that it is a bounded stack of documents. */
module HistoryRuns {
  import opened Options
  import opened StepMaps
  import opened Branches
  import opened PopEvents

  /** A branch with its rope flattened. */
  datatype State<S, B> = State(items: seq<Item<S, B>>, eventCount: int)

  ghost predicate CountRight<S, B>(s: State<S, B>) {
    Stepped(s.items) && s.eventCount == Events(s.items)
  }

  // ----- recording -----

  /** Only the first of the new items can begin an event. */
  lemma {:induction false} FirstBegins<D, S, B>(ops: Ops<D, S, B>, items: seq<Item<S, B>>, steps: seq<Made<S>>,
          selection: Option<B>, preserve: bool)
    ensures var all := Record(ops, items, steps, selection, preserve);
      forall i | Untouched(ops, items, steps, selection, preserve) < i < |all| :: all[i].selection.None?
  {
    if steps != [] {
      var n := |steps| - 1;
      FirstBegins(ops, items, steps[..n], selection, preserve);
      RecordKeeps(ops, items, steps[..n], selection, preserve);
      if n > 0 {
        assert steps[..n][0] == steps[0];
      }
    }
  }

  lemma {:induction false} PushEvents<D, S, B>(ops: Ops<D, S, B>, items: seq<Item<S, B>>, u: Item<S, B>)
    requires Stepped(items) && u.step.Some?
    ensures Stepped(Push(ops, items, u))
    ensures Events(Push(ops, items, u)) == Events(items) + if u.selection.Some? then 1 else 0
  {
    assert (items + [u])[..|items|] == items;
    if items != [] && Merged(ops, items[|items| - 1], u).Some? {
      var m := Merged(ops, items[|items| - 1], u).value;
      assert (items[..|items| - 1] + [m])[..|items| - 1] == items[..|items| - 1];
    }
  }

  lemma {:induction false} RecordEvents<D, S, B>(ops: Ops<D, S, B>, items: seq<Item<S, B>>, steps: seq<Made<S>>,
          selection: Option<B>, preserve: bool)
    requires Stepped(items)
    ensures var all := Record(ops, items, steps, selection, preserve);
      Stepped(all) && Events(all) == Events(items) + Begins(steps, selection)
  {
    if steps != [] {
      var n := |steps| - 1;
      RecordEvents(ops, items, steps[..n], selection, preserve);
      var before := Record(ops, items, steps[..n], selection, preserve);
      var u := NewItem(steps[n], if n == 0 then selection else None);
      if preserve {
        assert (before + [u])[..|before|] == before;
      } else {
        PushEvents(ops, before, u);
      }
    }
  }

  /** Where everything is to be kept, nothing is merged: an item for each step, as the step was made. */
  lemma {:induction false} RecordAllItems<D, S, B>(ops: Ops<D, S, B>, items: seq<Item<S, B>>, steps: seq<Made<S>>,
          selection: Option<B>)
    ensures var all, n := Record(ops, items, steps, selection, true), |items|;
      && |all| == n + |steps| && all[..n] == items
      && forall i | 0 <= i < |steps| ::
           all[n + i] == Item(steps[i].stepMap, Some(steps[i].inverse), if i == 0 then selection else None, None)
  {
    if steps != [] {
      RecordAllItems(ops, items, steps[..|steps| - 1], selection);
    }
  }

  /**
   * One step more: it is merged into the last item exactly when that has a step, the two merge,
   * and the new one begins no event. The event stays where it was.
   */
  lemma {:induction false} RecordGrows<D, S, B>(ops: Ops<D, S, B>, items: seq<Item<S, B>>, steps: seq<Made<S>>,
          made: Made<S>, selection: Option<B>)
    ensures var before := Record(ops, items, steps, selection, false);
      var all := Record(ops, items, steps + [made], selection, false);
      var own, l := if steps == [] then selection else None, |before| - 1;
      if l >= 0 && own.None? && before[l].step.Some? && ops.merge(made.inverse, before[l].step.value).Some? then
        && |all| == |before| && all[..l] == before[..l] && all[l].selection == before[l].selection
        && all[l].step == ops.merge(made.inverse, before[l].step.value)
        && all[l].stepMap == (var m := ops.getMap(all[l].step.value); StepMap(m.ranges, !m.inverted))
      else
        all == before + [Item(made.stepMap, Some(made.inverse), own, None)]
  {
    RecordNext(ops, items, steps, made, selection, false);
  }

  // ----- dropping old events -----

  /** The number of events after recording: all of them, or once there are twenty too many, as many as asked for. */
  lemma {:induction false} CountAfter<D, S, B>(ops: Ops<D, S, B>, items: seq<Item<S, B>>, eventCount: int,
          steps: seq<Made<S>>, selection: Option<B>, depth: int, preserve: bool)
    ensures var count := eventCount + if selection.Some? && steps != [] then 1 else 0;
      Added(ops, items, eventCount, steps, selection, depth, preserve).1 == if count > depth + 20 then depth else count
  {
  }

  /** Where all there is after recording is cut off; None if nothing is dropped. */
  ghost predicate CutsAt<S, B>(all: seq<Item<S, B>>, overflow: nat, at: nat) {
    at < |all| && all[at].selection.Some? && Events(all[..at]) == overflow
  }

  /** For a depth of at least two, dropping keeps exactly the newest `depth` events, and what follows their first. */
  lemma {:induction false} TrimExact<D, S, B>(ops: Ops<D, S, B>, s: State<S, B>, steps: seq<Made<S>>,
          selection: Option<B>, depth: int, preserve: bool)
    returns (at: nat)
    requires CountRight(s) && depth >= 2
    requires s.eventCount + Begins(steps, selection) - depth > DEPTH_OVERFLOW
    ensures var all := Record(ops, s.items, steps, selection, preserve);
      && CutsAt(all, s.eventCount + Begins(steps, selection) - depth, at)
      && Added(ops, s.items, s.eventCount, steps, selection, depth, preserve) == (all[at..], depth)
      && Stepped(all[at..]) && Events(all[at..]) == depth
  {
    var all := Record(ops, s.items, steps, selection, preserve);
    var m := Untouched(ops, s.items, steps, selection, preserve);
    var overflow := s.eventCount + Begins(steps, selection) - depth;
    RecordEvents(ops, s.items, steps, selection, preserve);
    RecordKeeps(ops, s.items, steps, selection, preserve);
    NewEvents(ops, s.items, steps, selection, preserve);
    at := CutInFront(all, m, overflow);
  }

  /** An event that is not among the last two is found among the old items. */
  lemma {:induction false} CutInFront<S, B>(all: seq<Item<S, B>>, m: nat, overflow: nat) returns (at: nat)
    requires m <= |all| && Stepped(all) && Events(all[m..]) <= 1 && overflow + 2 <= Events(all)
    ensures CutsAt(all, overflow, at) && Newest(all[..m], overflow) + all[m..] == all[at..]
    ensures Stepped(all[at..]) && Events(all[at..]) == Events(all) - overflow
  {
    var front := all[..m];
    assert all == front + all[m..];
    EventsAppend(front, all[m..]);
    EventAtIs(front, overflow, 0);
    assert front[0..] == front;
    at := EventAt(front, overflow, 0).value;
    assert front[0..at] == all[..at];
    assert front[at..] + all[m..] == all[at..];
    assert all == all[..at] + all[at..];
    EventsAppend(all[..at], all[at..]);
  }

  lemma {:induction false} NewEvents<D, S, B>(ops: Ops<D, S, B>, items: seq<Item<S, B>>, steps: seq<Made<S>>,
          selection: Option<B>, preserve: bool)
    ensures var all, m := Record(ops, items, steps, selection, preserve), Untouched(ops, items, steps, selection,
      preserve);
      m <= |all| && Events(all[m..]) <= 1
  {
    var all, m := Record(ops, items, steps, selection, preserve), Untouched(ops, items, steps, selection, preserve);
    RecordKeeps(ops, items, steps, selection, preserve);
    FirstBegins(ops, items, steps, selection, preserve);
    if m < |all| {
      assert all[m..] == [all[m]] + all[m + 1..];
      EventsAppend([all[m]], all[m + 1..]);
      NoEvents(all[m + 1..]);
      assert [all[m]][..0] == [];
    }
  }

  // ----- the invariant -----

  ghost predicate AddsTo<D, S, B>(ops: Ops<D, S, B>, depth: int, a: State<S, B>, b: State<S, B>, steps: seq<Made<S>>,
          selection: Option<B>, preserve: bool)
  {
    (b.items, b.eventCount) == Added(ops, a.items, a.eventCount, steps, selection, depth, preserve)
  }

  /** What `PopEvent` leaves. */
  ghost predicate PopsTo<D, S, B>(ops: Ops<D, S, B>, a: State<S, B>, b: State<S, B>, doc: D, preserve: bool) {
    && a.eventCount != 0 && Events(a.items) > 0
    && b == State(TakenBack(ops, a.items, doc, preserve).0, a.eventCount - 1)
  }

  /** Maps of changes that are not to be undone (`addMaps`). */
  ghost predicate MapsTo<S, B>(a: State<S, B>, b: State<S, B>, maps: seq<Item<S, B>>) {
    && (forall j | 0 <= j < |maps| :: maps[j].step.None? && maps[j].selection.None?)
    && b == if a.eventCount == 0 then a else State(a.items + maps, a.eventCount)
  }

  ghost predicate StepTo<D(!new), S(!new), B(!new)>(ops: Ops<D, S, B>, depth: int, a: State<S, B>, b: State<S, B>) {
    || (exists steps, selection, preserve :: AddsTo(ops, depth, a, b, steps, selection, preserve))
    || (exists doc, preserve :: PopsTo(ops, a, b, doc, preserve))
    || (exists maps :: MapsTo(a, b, maps))
  }

  lemma {:induction false} AddKeeps<D, S, B>(ops: Ops<D, S, B>, depth: int, a: State<S, B>, b: State<S, B>,
          steps: seq<Made<S>>, selection: Option<B>, preserve: bool)
    requires CountRight(a) && depth >= 2 && AddsTo(ops, depth, a, b, steps, selection, preserve)
    ensures CountRight(b) && b.eventCount <= depth + DEPTH_OVERFLOW
  {
    RecordEvents(ops, a.items, steps, selection, preserve);
    if a.eventCount + Begins(steps, selection) - depth > DEPTH_OVERFLOW {
      var at := TrimExact(ops, a, steps, selection, depth, preserve);
    }
  }

  lemma {:induction false} PopKeeps<D, S, B>(ops: Ops<D, S, B>, a: State<S, B>, b: State<S, B>, doc: D, preserve: bool)
    requires CountRight(a) && PopsTo(ops, a, b, doc, preserve)
    ensures CountRight(b)
  {
    var items, n := a.items, LastEvent(a.items);
    var m := Remapped(items, n, preserve);
    var f := RemakeAll(ops, items, n, m, n, Unwind(ops, items[m..], doc)).0;
    AllAreRemade(ops, items, n, m, n, Unwind(ops, items[m..], doc));
    EventGone(ops, items, n, m, f);
  }

  /** What is kept of the event begins none. */
  lemma {:induction false} KeptBegin<D, S, B>(ops: Ops<D, S, B>, items: seq<Item<S, B>>, n: nat, m: nat,
          f: seq<Item<S, B>>)
    requires Stepped(items) && n <= m <= |items| && AllRemade(ops, items, n, m, f)
    ensures forall x | x in Stripped(items[n..m]) + f :: x.selection.None?
  {
    var kept := Stripped(items[n..m]) + f;
    forall i | 0 <= i < |kept|
      ensures kept[i].selection.None?
    {
      if i < m - n {
        assert items[n..m][i] == items[n + i];
      } else {
        assert Remade(ops, items, n, m, f, i - (m - n));
      }
    }
  }

  lemma {:induction false} EventGone<D, S, B>(ops: Ops<D, S, B>, items: seq<Item<S, B>>, n: nat, m: nat,
          f: seq<Item<S, B>>)
    requires Stepped(items) && IsNewest(items, n) && n <= m <= |items| && AllRemade(ops, items, n, m, f)
    ensures var left := items[..n] + (Stripped(items[n..m]) + f);
      Stepped(left) && Events(left) == Events(items) - 1
  {
    KeptBegin(ops, items, n, m, f);
    OneEventMore(items, n);
    NothingBegun(items[..n], Stripped(items[n..m]) + f);
  }

  lemma {:induction false} OneEventMore<S, B>(items: seq<Item<S, B>>, n: nat)
    requires IsNewest(items, n)
    ensures Events(items) == Events(items[..n]) + 1
  {
    assert items == items[..n] + ([items[n]] + items[n + 1..]);
    EventsAppend(items[..n], [items[n]] + items[n + 1..]);
    EventsAppend([items[n]], items[n + 1..]);
    NoEvents(items[n + 1..]);
    assert [items[n]][..0] == [];
  }

  lemma {:induction false} NothingBegun<S, B>(items: seq<Item<S, B>>, kept: seq<Item<S, B>>)
    requires Stepped(items) && forall x | x in kept :: x.selection.None?
    ensures Stepped(items + kept) && Events(items + kept) == Events(items)
  {
    NoEvents(kept);
    EventsAppend(items, kept);
  }

  lemma {:induction false} StepKeeps<D(!new), S(!new), B(!new)>(ops: Ops<D, S, B>, depth: int, a: State<S, B>,
          b: State<S, B>)
    requires depth >= 2 && CountRight(a) && a.eventCount <= depth + DEPTH_OVERFLOW && StepTo(ops, depth, a, b)
    ensures CountRight(b) && b.eventCount <= depth + DEPTH_OVERFLOW
  {
    if steps, selection, preserve :| AddsTo(ops, depth, a, b, steps, selection, preserve) {
      AddKeeps(ops, depth, a, b, steps, selection, preserve);
    } else if doc, preserve :| PopsTo(ops, a, b, doc, preserve) {
      PopKeeps(ops, a, b, doc, preserve);
    } else {
      var maps :| MapsTo(a, b, maps);
      EventsAppend(a.items, maps);
      NoEvents(maps);
    }
  }

  /** From the empty branch, one step after the other. */
  ghost predicate Run<D(!new), S(!new), B(!new)>(ops: Ops<D, S, B>, depth: int, states: seq<State<S, B>>)
  {
    if states == [] then false
    else if |states| == 1 then states[0] == State([], 0)
    else Run(ops, depth, states[..|states| - 1]) && StepTo(ops, depth, states[|states| - 2], states[|states| - 1])
  }

  lemma {:induction false} RunKeeps<D(!new), S(!new), B(!new)>(ops: Ops<D, S, B>, depth: int, states: seq<State<S, B>>)
    requires depth >= 2 && Run(ops, depth, states)
    ensures var s := states[|states| - 1]; CountRight(s) && s.eventCount <= depth + DEPTH_OVERFLOW
    decreases |states|
  {
    if |states| > 1 {
      RunKeeps(ops, depth, states[..|states| - 1]);
      StepKeeps(ops, depth, states[|states| - 2], states[|states| - 1]);
    }
  }

  // ----- a depth of at least two is what it takes -----

  ghost predicate AlwaysRight<D(!new), S(!new), B(!new)>(ops: Ops<D, S, B>, depth: int) {
    forall states: seq<State<S, B>> | Run(ops, depth, states) :: CountRight(states[|states| - 1])
  }

  function Copies<T>(t: T, n: nat): (r: seq<T>)
    ensures |r| == n && forall i | 0 <= i < n :: r[i] == t
  {
    seq(n, _ => t)
  }

  lemma {:induction false} CopiesBegin<S, B>(made: Made<S>, mark: B, n: nat)
    ensures Events(Copies(NewItem(made, Some(mark)), n)) == n
    ensures EventAt(Copies(NewItem(made, Some(mark)), n), n, 0) == None
  {
    var item := NewItem(made, Some(mark));
    if n > 0 {
      assert Copies(item, n)[..n - 1] == Copies(item, n - 1);
      CopiesBegin(made, mark, n - 1);
    }
    EventAtIs(Copies(item, n), n, 0);
    assert Copies(item, n)[0..] == Copies(item, n);
  }

  /** One step that begins an event, added to `n` items. */
  lemma {:induction false} AddOne<D, S, B>(ops: Ops<D, S, B>, depth: int, made: Made<S>, mark: B, n: nat)
    ensures var items := Copies(NewItem(made, Some(mark)), n);
      Added(ops, items, n, [made], Some(mark), depth, false) ==
      if n + 1 - depth > DEPTH_OVERFLOW then (Newest(items, n + 1 - depth) + [NewItem(made, Some(mark))], depth)
      else (Copies(NewItem(made, Some(mark)), n + 1), n + 1)
  {
    var item := NewItem(made, Some(mark));
    var items := Copies(item, n);
    assert [made][..0] == [];
    assert Record(ops, items, [], Some(mark), false) == items;
    assert Record(ops, items, [made], Some(mark), false) == items + [item];
    assert (items + [item])[..n] == items && (items + [item])[n..] == [item];
    assert items + [item] == Copies(item, n + 1);
  }

  /** A run goes on with one more change. */
  lemma {:induction false} RunNext<D(!new), S(!new), B(!new)>(ops: Ops<D, S, B>, depth: int, states: seq<State<S, B>>,
          next: State<S, B>, steps: seq<Made<S>>, selection: Option<B>)
    requires Run(ops, depth, states) && AddsTo(ops, depth, states[|states| - 1], next, steps, selection, false)
    ensures Run(ops, depth, states + [next])
  {
    var more := states + [next];
    assert more[..|more| - 1] == states;
    assert StepTo(ops, depth, states[|states| - 1], next);
  }

  /** As many events as fit without any being dropped. */
  lemma {:induction false} RunUp<D(!new), S(!new), B(!new)>(ops: Ops<D, S, B>, depth: int, made: Made<S>, mark: B,
          n: nat)
    returns (states: seq<State<S, B>>)
    requires n == 0 || n - depth <= DEPTH_OVERFLOW
    ensures Run(ops, depth, states)
    ensures states[|states| - 1] == State(Copies(NewItem(made, Some(mark)), n), n)
    decreases n
  {
    if n == 0 {
      states := [State(Copies(NewItem(made, Some(mark)), 0), 0)];
    } else {
      var before := RunUp(ops, depth, made, mark, n - 1);
      AddOne(ops, depth, made, mark, n - 1);
      var next := State(Copies(NewItem(made, Some(mark)), n), n);
      RunNext(ops, depth, before, next, [made], Some(mark));
      states := before + [next];
    }
  }

  /** With a smaller depth, the first drop finds nothing to drop but lowers the count all the same. */
  lemma {:induction false} SmallDepthFails<D(!new), S(!new), B(!new)>(ops: Ops<D, S, B>, depth: int, made: Made<S>,
          mark: B)
    returns (states: seq<State<S, B>>)
    requires depth < 2
    ensures Run(ops, depth, states) && !CountRight(states[|states| - 1])
  {
    var n: nat := if depth + DEPTH_OVERFLOW > 0 then depth + DEPTH_OVERFLOW else 0;
    var before := RunUp(ops, depth, made, mark, n);
    var last := OneTooMany(ops, depth, made, mark, n, before[|before| - 1]);
    RunNext(ops, depth, before, last, [made], Some(mark));
    states := before + [last];
  }

  lemma {:induction false} OneTooMany<D, S, B>(ops: Ops<D, S, B>, depth: int, made: Made<S>, mark: B, n: nat,
          full: State<S, B>)
    returns (last: State<S, B>)
    requires depth < 2 && n == (if depth + DEPTH_OVERFLOW > 0 then depth + DEPTH_OVERFLOW else 0)
    requires full == State(Copies(NewItem(made, Some(mark)), n), n)
    ensures AddsTo(ops, depth, full, last, [made], Some(mark), false) && !CountRight(last)
  {
    AddOne(ops, depth, made, mark, n);
    NothingLater(full.items, n + 1 - depth, made, mark);
    last := State(full.items + [NewItem(made, Some(mark))], depth);
    assert last.items == Copies(NewItem(made, Some(mark)), n + 1);
    CopiesBegin(made, mark, n + 1);
  }

  lemma {:induction false} NothingLater<S, B>(items: seq<Item<S, B>>, k: nat, made: Made<S>, mark: B)
    requires k >= |items| && items == Copies(NewItem(made, Some(mark)), |items|)
    ensures Newest(items, k) == items
  {
    CopiesBegin(made, mark, |items|);
    EventAtIs(items, k, 0);
    assert items[0..] == items;
  }

  /** Over all runs the count of events is right exactly when the depth asked for is at least two. */
  lemma {:induction false} CountRightIff<D(!new), S(!new), B(!new)>(ops: Ops<D, S, B>, depth: int, made: Made<S>,
          mark: B)
    ensures AlwaysRight(ops, depth) <==> depth >= 2
  {
    if depth >= 2 {
      forall states: seq<State<S, B>> | Run(ops, depth, states)
        ensures CountRight(states[|states| - 1])
      {
        RunKeeps(ops, depth, states);
      }
    } else {
      var states := SmallDepthFails(ops, depth, made, mark);
    }
  }

  // ----- the history as a stack of documents -----

  /** The documents in which the events began, found by taking back all items; None if a step does not apply. */
  function Starts<D, S, B>(ops: Ops<D, S, B>, items: seq<Item<S, B>>, doc: D): Option<seq<D>> {
    if items == [] then Some([]) else
      var last := items[|items| - 1];
      var before := if last.step.Some? then ops.apply(last.step.value, doc) else None;
      if before.None? then None else
        var earlier := Starts(ops, items[..|items| - 1], before.value);
        if earlier.None? then None
        else Some(earlier.value + if last.selection.Some? then [before.value] else [])
  }

  lemma {:induction false} StartsSteps<D, S, B>(ops: Ops<D, S, B>, items: seq<Item<S, B>>, doc: D)
    requires Starts(ops, items, doc).Some?
    ensures AllSteps(items) && |Starts(ops, items, doc).value| == Events(items)
    decreases |items|
  {
    if items != [] {
      StartsSteps(ops, items[..|items| - 1], ops.apply(items[|items| - 1].step.value, doc).value);
    }
  }

  lemma {:induction false} StartsAppend<D, S, B>(ops: Ops<D, S, B>, a: seq<Item<S, B>>, b: seq<Item<S, B>>, doc: D)
    requires Starts(ops, a + b, doc).Some?
    ensures Starts(ops, b, doc).Some? && AllSteps(b)
    ensures Starts(ops, a, Unwind(ops, b, doc)).Some?
    ensures Starts(ops, a + b, doc).value == Starts(ops, a, Unwind(ops, b, doc)).value + Starts(ops, b, doc).value
    decreases |b|
  {
    if b == [] {
      assert a + b == a;
    } else {
      var last := b[|b| - 1];
      assert (a + b)[..|a + b| - 1] == a + b[..|b| - 1];
      StartsAppend(ops, a, b[..|b| - 1], ops.apply(last.step.value, doc).value);
    }
  }

  /** The recorded inverses take the documents back, one by one. */
  predicate TakesBack<D(==), S, B>(ops: Ops<D, S, B>, steps: seq<Made<S>>, docs: seq<D>) {
    |docs| == |steps| + 1 &&
    forall i | 0 <= i < |steps| :: ops.apply(steps[i].inverse, docs[i + 1]) == Some(docs[i])
  }

  /** A merged step does what the two do. */
  ghost predicate MergesRight<D(!new), S(!new), B>(ops: Ops<D, S, B>) {
    forall first, second, doc: D, mid: D |
      ops.merge(first, second).Some? && ops.apply(first, doc) == Some(mid) && ops.apply(second, mid).Some? ::
      ops.apply(ops.merge(first, second).value, doc) == ops.apply(second, mid)
  }

  lemma {:induction false} NothingAdded<T>(s: seq<T>)
    ensures s + [] == s
  {
  }

  lemma {:induction false} PushStarts<D(!new), S(!new), B>(ops: Ops<D, S, B>, items: seq<Item<S, B>>, u: Item<S, B>,
          before: D, after: D)
    requires MergesRight(ops) && Starts(ops, items, before).Some?
    requires u.step.Some? && ops.apply(u.step.value, after) == Some(before)
    ensures Starts(ops, Push(ops, items, u), after) ==
            Some(Starts(ops, items, before).value + if u.selection.Some? then [before] else [])
  {
    assert (items + [u])[..|items|] == items;
    if items != [] && Merged(ops, items[|items| - 1], u).Some? {
      var older, m := items[|items| - 1], Merged(ops, items[|items| - 1], u).value;
      var pushed := items[..|items| - 1] + [m];
      assert pushed[..|pushed| - 1] == items[..|items| - 1];
      assert ops.apply(m.step.value, after) == ops.apply(older.step.value, before);
    }
    NothingAdded(Starts(ops, items, before).value);
  }

  /** Recording a change puts the document before it on the stack, if it begins an event. */
  lemma {:induction false} RecordStarts<D(!new), S(!new), B>(ops: Ops<D, S, B>, items: seq<Item<S, B>>,
          steps: seq<Made<S>>, docs: seq<D>, selection: Option<B>)
    requires MergesRight(ops) && TakesBack(ops, steps, docs) && Starts(ops, items, docs[0]).Some?
    ensures Starts(ops, Record(ops, items, steps, selection, false), docs[|steps|]) ==
            Some(Starts(ops, items, docs[0]).value + if Begins(steps, selection) == 1 then [docs[0]] else [])
  {
    NothingAdded(Starts(ops, items, docs[0]).value);
    if steps != [] {
      var n := |steps| - 1;
      RecordStarts(ops, items, steps[..n], docs[..n + 1], selection);
      var u := NewItem(steps[n], if n == 0 then selection else None);
      var before := Record(ops, items, steps[..n], selection, false);
      PushStarts(ops, before, u, docs[n], docs[n + 1]);
      NothingAdded(Starts(ops, before, docs[n]).value);
    }
  }

  /** Without items that lack a step, taking back is applying the event's steps, and leaves the items before it. */
  lemma {:induction false} PopPlain<D, S, B>(ops: Ops<D, S, B>, items: seq<Item<S, B>>, doc: D)
    requires AllSteps(items) && Events(items) > 0
    ensures var n := LastEvent(items);
      && AllSteps(items[n..])
      && TakenBack(ops, items, doc, false) == (items[..n], Unwind(ops, items[n..], doc), items[n].selection.value)
  {
    var n := LastEvent(items);
    OneEnd(items, n, n, false);
    assert Stripped(items[n..n]) == [];
    assert items[..n] + (Stripped(items[n..n]) + []) == items[..n];
  }

  /** Taking back the newest event gives the document on top of the stack, and takes it off. */
  lemma {:induction false} UndoStarts<D, S, B>(ops: Ops<D, S, B>, items: seq<Item<S, B>>, doc: D)
    requires Starts(ops, items, doc).Some? && Starts(ops, items, doc).value != []
    ensures Events(items) > 0 && AllSteps(items[LastEvent(items)..])
    ensures var stack, n := Starts(ops, items, doc).value, LastEvent(items);
      var doc' := Unwind(ops, items[n..], doc);
      doc' == stack[|stack| - 1] && Starts(ops, items[..n], doc') == Some(stack[..|stack| - 1])
  {
    StartsSteps(ops, items, doc);
    var n := LastEvent(items);
    assert items == items[..n] + items[n..];
    StartsAppend(ops, items[..n], items[n..], doc);
    assert items[n..] == [items[n]] + items[n + 1..];
    StartsAppend(ops, [items[n]], items[n + 1..], doc);
    NoEvents(items[n + 1..]);
    StartsSteps(ops, items[n + 1..], doc);
    var mid := Unwind(ops, items[n + 1..], doc);
    UnwindAppend(ops, [items[n]], items[n + 1..], doc);
    assert [items[n]][..0] == [];
  }

  // ----- whole runs of changing and undoing -----

  datatype Call<D, S, B> = Change(steps: seq<Made<S>>, docs: seq<D>, selection: Option<B>) | Undo

  /** A branch and the document it belongs to. */
  datatype Config<D, S, B> = Config(state: State<S, B>, doc: D)

  /** What recording a change and popping an event do. */
  predicate Moves<D(==), S(==), B(==)>(ops: Ops<D, S, B>, depth: int, a: Config<D, S, B>, call: Call<D, S, B>,
          b: Config<D, S, B>)
  {
    match call
    case Change(steps, docs, selection) =>
      && TakesBack(ops, steps, docs) && docs[0] == a.doc
      && b == (var (items, count) := Added(ops, a.state.items, a.state.eventCount, steps, selection, depth, false);
               Config(State(items, count), docs[|steps|]))
    case Undo =>
      && a.state.eventCount != 0 && Events(a.state.items) > 0
      && var (items, doc, _) := TakenBack(ops, a.state.items, a.doc, false);
      b == Config(State(items, a.state.eventCount - 1), doc)
  }

  /** From an empty branch. */
  predicate Happens<D(==), S(==), B(==)>(ops: Ops<D, S, B>, depth: int, doc: D, calls: seq<Call<D, S, B>>,
          configs: seq<Config<D, S, B>>)
  {
    && |configs| == |calls| + 1
    && if calls == [] then configs[0] == Config(State([], 0), doc) else
         var n := |calls| - 1;
         Happens(ops, depth, doc, calls[..n], configs[..n + 1])
           && Moves(ops, depth, configs[n], calls[n], configs[n + 1])
  }

  /** Only the newest `depth` documents are kept when there are too many. */
  function Dropped<D>(stack: seq<D>, depth: int): seq<D>
    requires depth >= 0
  {
    if |stack| - depth > DEPTH_OVERFLOW then stack[|stack| - depth..] else stack
  }

  function Pushed<D, S, B>(stack: seq<D>, steps: seq<Made<S>>, docs: seq<D>, selection: Option<B>): seq<D> {
    if Begins(steps, selection) == 1 && docs != [] then stack + [docs[0]] else stack
  }

  /** The reference: a stack of documents, cut down when it has grown too large. */
  function NextStack<D, S, B>(stack: seq<D>, call: Call<D, S, B>, depth: int): seq<D>
    requires depth >= 0
  {
    match call
    case Change(steps, docs, selection) => Dropped(Pushed(stack, steps, docs, selection), depth)
    case Undo => if stack == [] then [] else stack[..|stack| - 1]
  }

  /** Undoing gives back the document on top of the stack. */
  function NextDoc<D, S, B>(stack: seq<D>, call: Call<D, S, B>, doc: D): D {
    match call
    case Change(_, docs, _) => if docs != [] then docs[|docs| - 1] else doc
    case Undo => if stack == [] then doc else stack[|stack| - 1]
  }

  function Stack<D, S, B>(calls: seq<Call<D, S, B>>, depth: int): seq<D>
    requires depth >= 0
  {
    if calls == [] then [] else NextStack(Stack(calls[..|calls| - 1], depth), calls[|calls| - 1], depth)
  }

  function Current<D, S, B>(doc: D, calls: seq<Call<D, S, B>>, depth: int): D
    requires depth >= 0
  {
    if calls == [] then doc else
      var init := calls[..|calls| - 1];
      NextDoc(Stack(init, depth), calls[|calls| - 1], Current(doc, init, depth))
  }

  ghost predicate HoldsStack<D, S, B>(ops: Ops<D, S, B>, c: Config<D, S, B>, stack: seq<D>) {
    Starts(ops, c.state.items, c.doc) == Some(stack) && c.state.eventCount == |stack|
  }

  lemma {:induction false} CutStarts<D, S, B>(ops: Ops<D, S, B>, all: seq<Item<S, B>>, doc: D, overflow: nat, at: nat)
    requires Starts(ops, all, doc).Some? && CutsAt(all, overflow, at)
    ensures var stack := Starts(ops, all, doc).value;
      overflow <= |stack| && Starts(ops, all[at..], doc) == Some(stack[overflow..])
  {
    assert all == all[..at] + all[at..];
    StartsAppend(ops, all[..at], all[at..], doc);
    StartsSteps(ops, all[..at], Unwind(ops, all[at..], doc));
  }

  lemma {:induction false} RecordPushes<D(!new), S(!new), B>(ops: Ops<D, S, B>, s: State<S, B>, stack: seq<D>,
          steps: seq<Made<S>>, docs: seq<D>, selection: Option<B>)
    requires MergesRight(ops) && TakesBack(ops, steps, docs)
    requires Starts(ops, s.items, docs[0]) == Some(stack) && s.eventCount == |stack|
    ensures CountRight(s) && |Pushed(stack, steps, docs, selection)| == s.eventCount + Begins(steps, selection)
    ensures Starts(ops, Record(ops, s.items, steps, selection, false), docs[|steps|]) ==
            Some(Pushed(stack, steps, docs, selection))
  {
    StartsSteps(ops, s.items, docs[0]);
    RecordStarts(ops, s.items, steps, docs, selection);
    NothingAdded(stack);
  }

  lemma {:induction false} DropHolds<D(!new), S(!new), B>(ops: Ops<D, S, B>, depth: int, s: State<S, B>, doc: D,
          pushed: seq<D>, steps: seq<Made<S>>, selection: Option<B>)
    requires depth >= 2 && CountRight(s) && |pushed| == s.eventCount + Begins(steps, selection)
    requires Starts(ops, Record(ops, s.items, steps, selection, false), doc) == Some(pushed)
    ensures var (items, count) := Added(ops, s.items, s.eventCount, steps, selection, depth, false);
      count == |Dropped(pushed, depth)| && Starts(ops, items, doc) == Some(Dropped(pushed, depth))
  {
    if |pushed| - depth > DEPTH_OVERFLOW {
      DropSome(ops, depth, s, doc, pushed, steps, selection);
    }
  }

  lemma {:induction false} DropSome<D(!new), S(!new), B>(ops: Ops<D, S, B>, depth: int, s: State<S, B>, doc: D,
          pushed: seq<D>, steps: seq<Made<S>>, selection: Option<B>)
    requires depth >= 2 && CountRight(s) && |pushed| == s.eventCount + Begins(steps, selection)
    requires Starts(ops, Record(ops, s.items, steps, selection, false), doc) == Some(pushed)
    requires |pushed| - depth > DEPTH_OVERFLOW
    ensures var (items, count) := Added(ops, s.items, s.eventCount, steps, selection, depth, false);
      count == depth && Starts(ops, items, doc) == Some(pushed[|pushed| - depth..])
  {
    var all, overflow := Record(ops, s.items, steps, selection, false), |pushed| - depth;
    var at := TrimExact(ops, s, steps, selection, depth, false);
    assert CutsAt(all, overflow, at);
    CutStarts(ops, all, doc, overflow, at);
  }

  /**
   * Recording a change: the document before it goes on the stack if it begins an event, and old
   * ones may be dropped.
   */
  lemma {:induction false} ChangeHolds<D(!new), S(!new), B>(ops: Ops<D, S, B>, depth: int, s: State<S, B>,
          stack: seq<D>, steps: seq<Made<S>>, docs: seq<D>, selection: Option<B>)
    requires MergesRight(ops) && depth >= 2 && TakesBack(ops, steps, docs)
    requires Starts(ops, s.items, docs[0]) == Some(stack) && s.eventCount == |stack|
    ensures var next := Dropped(Pushed(stack, steps, docs, selection), depth);
      var (items, count) := Added(ops, s.items, s.eventCount, steps, selection, depth, false);
      count == |next| && Starts(ops, items, docs[|steps|]) == Some(next)
  {
    RecordPushes(ops, s, stack, steps, docs, selection);
    DropHolds(ops, depth, s, docs[|steps|], Pushed(stack, steps, docs, selection), steps, selection);
  }

  lemma {:induction false} UndoHolds<D(!new), S(!new), B>(ops: Ops<D, S, B>, c: Config<D, S, B>, stack: seq<D>)
    requires HoldsStack(ops, c, stack) && c.state.eventCount != 0
    ensures Events(c.state.items) > 0
    ensures var (items, doc, _) := TakenBack(ops, c.state.items, c.doc, false);
      && doc == stack[|stack| - 1]
      && HoldsStack(ops, Config(State(items, c.state.eventCount - 1), doc), stack[..|stack| - 1])
  {
    UndoStarts(ops, c.state.items, c.doc);
    StartsSteps(ops, c.state.items, c.doc);
    PopPlain(ops, c.state.items, c.doc);
  }

  /** The history holds the bounded stack, and the document is the one on top of what was taken back. */
  ghost predicate AsStack<D, S, B>(ops: Ops<D, S, B>, depth: int, doc: D, calls: seq<Call<D, S, B>>, c: Config<D, S, B>)
    requires depth >= 0
  {
    HoldsStack(ops, c, Stack(calls, depth)) && c.doc == Current(doc, calls, depth)
  }

  lemma {:induction false} UndoMoves<D(!new), S(!new), B>(ops: Ops<D, S, B>, depth: int, stack: seq<D>,
          c: Config<D, S, B>, call: Call<D, S, B>, c': Config<D, S, B>)
    requires MergesRight(ops) && depth >= 2 && HoldsStack(ops, c, stack) && Moves(ops, depth, c, call, c') && call.Undo?
    ensures HoldsStack(ops, c', NextStack(stack, call, depth)) && c'.doc == NextDoc(stack, call, c.doc)
  {
    UndoHolds(ops, c, stack);
    StartsSteps(ops, c.state.items, c.doc);
  }

  lemma {:induction false} MoveHolds<D(!new), S(!new), B>(ops: Ops<D, S, B>, depth: int, stack: seq<D>,
          c: Config<D, S, B>, call: Call<D, S, B>, c': Config<D, S, B>)
    requires MergesRight(ops) && depth >= 2 && HoldsStack(ops, c, stack) && Moves(ops, depth, c, call, c')
    ensures HoldsStack(ops, c', NextStack(stack, call, depth)) && c'.doc == NextDoc(stack, call, c.doc)
  {
    if call.Change? {
      ChangeHolds(ops, depth, c.state, stack, call.steps, call.docs, call.selection);
    } else {
      UndoMoves(ops, depth, stack, c, call, c');
    }
  }

  lemma {:induction false} StackBounded<D, S, B>(calls: seq<Call<D, S, B>>, depth: int)
    requires depth >= 2
    ensures |Stack(calls, depth)| <= depth + DEPTH_OVERFLOW
  {
    if calls != [] {
      StackBounded(calls[..|calls| - 1], depth);
    }
  }

  /**
   * Over every run of changes and undos, the history is the bounded stack: what undoing gives back
   * is the document in which the newest event began, and dropping loses only the oldest ones.
   */
  lemma {:induction false} HistoryIsStack<D(!new), S(!new), B>(ops: Ops<D, S, B>, depth: int, doc: D,
          calls: seq<Call<D, S, B>>, configs: seq<Config<D, S, B>>)
    requires MergesRight(ops) && depth >= 2 && Happens(ops, depth, doc, calls, configs)
    ensures AsStack(ops, depth, doc, calls, configs[|calls|])
    ensures configs[|calls|].state.eventCount <= depth + DEPTH_OVERFLOW
    decreases |calls|
  {
    if calls != [] {
      var n := |calls| - 1;
      HistoryIsStack(ops, depth, doc, calls[..n], configs[..n + 1]);
      MoveHolds(ops, depth, Stack(calls[..n], depth), configs[n], calls[n], configs[n + 1]);
    }
    StackBounded(calls, depth);
  }
}
