/**
 * One side of the undo history (`Branch`): inverted steps with their maps, in which the items
 * that carry a selection begin an event.
 */
module Branches {
  import opened Basics
  import opened Options
  import opened StepMaps
  import opened Ropes

  /** Up to this many events more than asked for are kept before old ones are dropped. */
  const DEPTH_OVERFLOW := 20

  /** A mapping from map `from` on (`slice`). */
  datatype View = View(maps: seq<StepMap>, mirror: seq<nat>, from: int)

  /** What the history asks of steps, documents and selection bookmarks. */
  datatype Ops<!D, !S, !B> = Ops(
    apply: (S, D) -> Option<D>,
    merge: (S, S) -> Option<S>,
    getMap: S -> StepMap,
    mapStep: (S, View) -> Option<S>,
    mapMark: (B, View) -> B)

  datatype Item<S, B> = Item(stepMap: StepMap, step: Option<S>, selection: Option<B>, mirrorOffset: Option<nat>)

  /** A step that was made: its map, and the step that takes it back. */
  datatype Made<S> = Made(stepMap: StepMap, inverse: S)

  datatype Branch<S, B> = Branch(items: Rope<Item<S, B>>, eventCount: int)

  // ----- counting events -----

  function Events<S, B>(items: seq<Item<S, B>>): nat {
    if items == [] then 0
    else Events(items[..|items| - 1]) + if items[|items| - 1].selection.Some? then 1 else 0
  }

  lemma {:induction false} EventsAppend<S, B>(a: seq<Item<S, B>>, b: seq<Item<S, B>>)
    ensures Events(a + b) == Events(a) + Events(b)
    decreases |b|
  {
    if b == [] {
      assert a + b == a;
    } else {
      assert (a + b)[..|a + b| - 1] == a + b[..|b| - 1];
      EventsAppend(a, b[..|b| - 1]);
    }
  }

  lemma {:induction false} NoEvents<S, B>(items: seq<Item<S, B>>)
    requires forall i | 0 <= i < |items| :: items[i].selection.None?
    ensures Events(items) == 0
  {
    if items != [] {
      NoEvents(items[..|items| - 1]);
    }
  }

  /** Items that begin an event have a step. */
  predicate Stepped<S, B>(items: seq<Item<S, B>>) {
    forall i | 0 <= i < |items| :: items[i].selection.Some? ==> items[i].step.Some?
  }

  predicate Consistent<S, B>(b: Branch<S, B>) {
    && b.items.Valid()
    && Stepped(b.items.Flat())
    && b.eventCount == Events(b.items.Flat())
  }

  // ----- dropping old events -----

  /** Where the event after the first `n` begins, from item `i` on. */
  function EventAt<S, B>(items: seq<Item<S, B>>, n: nat, i: nat): (at: Option<nat>)
    requires i <= |items|
    ensures at.Some? ==> i <= at.value < |items| && items[at.value].selection.Some?
    decreases |items| - i
  {
    if i == |items| then None
    else if items[i].selection.None? then EventAt(items, n, i + 1)
    else if n == 0 then Some(i)
    else EventAt(items, n - 1, i + 1)
  }

  lemma {:induction false} EventAtIs<S, B>(items: seq<Item<S, B>>, n: nat, i: nat)
    requires i <= |items|
    ensures EventAt(items, n, i).Some? <==> n < Events(items[i..])
    ensures EventAt(items, n, i).Some? ==> Events(items[i..EventAt(items, n, i).value]) == n
    decreases |items| - i
  {
    if i < |items| {
      assert items[i..] == [items[i]] + items[i + 1..];
      EventsAppend([items[i]], items[i + 1..]);
      assert [items[i]][..0] == [];
      var n' := if items[i].selection.Some? && n > 0 then n - 1 else n;
      EventAtIs(items, n', i + 1);
      if EventAt(items, n, i).Some? && !(items[i].selection.Some? && n == 0) {
        var at := EventAt(items, n, i).value;
        assert items[i..at] == [items[i]] + items[i + 1..at];
        EventsAppend([items[i]], items[i + 1..at]);
      }
    } else {
      assert items[i..] == [];
    }
  }

  /** All from the event after the first `n` on; all there is, if there is no such event. */
  function Newest<S, B>(items: seq<Item<S, B>>, n: nat): seq<Item<S, B>> {
    var at := EventAt(items, n, 0);
    if at.Some? then items[at.value..] else items
  }

  /** The callback of the scan: counts down, and stops where the count was 0. */
  function Scan<S, B>(st: (int, Option<int>), item: Item<S, B>, i: int): ((int, Option<int>), bool) {
    if item.selection.None? then (st, true)
    else if st.0 == 0 then ((st.0 - 1, Some(i)), false)
    else ((st.0 - 1, st.1), true)
  }

  lemma {:induction false} ScanFinds<S, B>(items: seq<Item<S, B>>, n: nat, i: nat)
    requires i <= |items|
    ensures var st := Upward((s, h: Item<S, B>, k) => Scan(s, h, k), items, i, |items|, 0, (n as int, None)).0;
      var at := EventAt(items, n, i);
      st.1 == if at.Some? then Some(at.value as int) else None
    decreases |items| - i
  {
    if i < |items| {
      if items[i].selection.None? {
        ScanFinds(items, n, i + 1);
      } else if n > 0 {
        ScanFinds(items, n - 1, i + 1);
      }
    }
  }

  /** `cutOffEvents` */
  method CutOffEvents<S, B>(items: Rope<Item<S, B>>, n: nat) returns (kept: Rope<Item<S, B>>)
    requires items.Valid()
    ensures kept.Valid() && kept.Flat() == Newest(items.Flat(), n)
  {
    FieldsRight(items);
    var st: (int, Option<int>) := ForEach(items, (s, h: Item<S, B>, k) => Scan(s, h, k), 0, items.Length(), (n, None));
    ScanFinds(items.Flat(), n, 0);
    var from := if st.1.Some? then st.1.value else 0;
    kept := items.Slice(from, items.Length());
    SliceIs(items, from, items.Length());
  }

  // ----- recording -----

  /** Merging a newer item into an older one; a new event is never merged away. */
  function Merged<D, S, B>(ops: Ops<D, S, B>, older: Item<S, B>, newer: Item<S, B>): Option<Item<S, B>> {
    if older.step.Some? && newer.step.Some? && newer.selection.None? then
      var step := ops.merge(newer.step.value, older.step.value);
      if step.Some? then Some(Item(ops.getMap(step.value).Invert(), step, older.selection, None)) else None
    else None
  }

  function NewItem<S, B>(made: Made<S>, selection: Option<B>): Item<S, B> {
    Item(made.stepMap, Some(made.inverse), selection, None)
  }

  function Push<D, S, B>(ops: Ops<D, S, B>, items: seq<Item<S, B>>, u: Item<S, B>): seq<Item<S, B>> {
    var merged := if items == [] then None else Merged(ops, items[|items| - 1], u);
    if merged.Some? then items[..|items| - 1] + [merged.value] else items + [u]
  }

  /** All items with the steps added; only the first step can begin an event. */
  function Record<D, S, B>(ops: Ops<D, S, B>, items: seq<Item<S, B>>, steps: seq<Made<S>>, selection: Option<B>,
          preserve: bool): seq<Item<S, B>>
  {
    if steps == [] then items else
      var n := |steps| - 1;
      var before := Record(ops, items, steps[..n], selection, preserve);
      var u := NewItem(steps[n], if n == 0 then selection else None);
      if preserve then before + [u] else Push(ops, before, u)
  }

  /** How many of the items stay where they are: all, unless the first step is merged into the last of them. */
  function Untouched<D, S, B>(ops: Ops<D, S, B>, items: seq<Item<S, B>>, steps: seq<Made<S>>, selection: Option<B>,
          preserve: bool): (m: nat)
    ensures m <= |items|
  {
    if steps != [] && !preserve && items != [] && Merged(ops, items[|items| - 1], NewItem(steps[0], selection)).Some?
    then |items| - 1 else |items|
  }

  function Begins<S, B>(steps: seq<Made<S>>, selection: Option<B>): nat {
    if selection.Some? && steps != [] then 1 else 0
  }

  /** The items and the number of events after recording, with old events dropped from what was there before. */
  function Added<D, S, B>(ops: Ops<D, S, B>, items: seq<Item<S, B>>, eventCount: int, steps: seq<Made<S>>,
          selection: Option<B>, depth: int, preserve: bool): (seq<Item<S, B>>, int)
  {
    RecordKeeps(ops, items, steps, selection, preserve);
    var all, m := Record(ops, items, steps, selection, preserve), Untouched(ops, items, steps, selection, preserve);
    var overflow := eventCount + Begins(steps, selection) - depth;
    if overflow > DEPTH_OVERFLOW then (Newest(all[..m], overflow) + all[m..], depth)
    else (all, eventCount + Begins(steps, selection))
  }

  lemma {:induction false} RecordKeeps<D, S, B>(ops: Ops<D, S, B>, items: seq<Item<S, B>>, steps: seq<Made<S>>,
          selection: Option<B>, preserve: bool)
    ensures var m := Untouched(ops, items, steps, selection, preserve);
      var all := Record(ops, items, steps, selection, preserve);
      && m <= |all| && all[..m] == items[..m]
      && (steps != [] ==> m < |all|)
  {
    if steps != [] {
      var n := |steps| - 1;
      RecordKeeps(ops, items, steps[..n], selection, preserve);
      if n > 0 {
        assert steps[..n][0] == steps[0];
      }
    }
  }

  /** Adds one item to the new ones; if it is merged, the item before it goes, which may be an old one. */
  method AddItem<D, S, B>(ops: Ops<D, S, B>, oldItems: Rope<Item<S, B>>, newItems: seq<Item<S, B>>,
          last: Option<Item<S, B>>, item: Item<S, B>)
    returns (oldItems': Rope<Item<S, B>>, newItems': seq<Item<S, B>>)
    requires oldItems.Valid()
    requires last.Some? ==> last == LastOf(oldItems.Flat() + newItems)
    ensures oldItems'.Valid()
    ensures var all := oldItems.Flat() + newItems;
      && oldItems'.Flat() + newItems' == (if last.Some? then Push(ops, all, item) else all + [item])
      && newItems' != [] && LastOf(newItems') == LastOf(oldItems'.Flat() + newItems')
      && oldItems'.Flat() == if newItems == [] && last.Some? && Merged(ops, last.value, item).Some?
                             then all[..|all| - 1] else oldItems.Flat()
  {
    oldItems', newItems' := oldItems, newItems;
    var merged := if last.Some? then Merged(ops, last.value, item) else None;
    ghost var all := oldItems.Flat() + newItems;
    if merged.Some? {
      if newItems != [] {
        newItems' := newItems[..|newItems| - 1];
      } else {
        oldItems' := DropLast(oldItems);
      }
      assert oldItems'.Flat() + newItems' == all[..|all| - 1];
    }
    Assoc(oldItems'.Flat(), newItems', [if merged.Some? then merged.value else item]);
    newItems' := newItems' + [if merged.Some? then merged.value else item];
  }

  method DropLast<T>(r: Rope<T>) returns (r': Rope<T>)
    requires r.Valid() && r.Flat() != []
    ensures r'.Valid() && r'.Flat() == r.Flat()[..|r.Flat()| - 1]
  {
    FieldsRight(r);
    SliceIs(r, 0, r.Length() - 1);
    r' := r.Slice(0, r.Length() - 1);
  }

  method LastItem<T>(r: Rope<T>) returns (last: Option<T>)
    requires r.Valid()
    ensures last == LastOf(r.Flat())
  {
    FieldsRight(r);
    last := None;
    if r.Length() > 0 {
      GetIs(r, r.Length() - 1);
      last := r.Get(r.Length() - 1);
    }
  }

  /** What is known after recording some of the steps. */
  ghost predicate Recording<D, S, B>(ops: Ops<D, S, B>, flat: seq<Item<S, B>>, steps: seq<Made<S>>,
          selection: Option<B>, preserve: bool, front: seq<Item<S, B>>, newItems: seq<Item<S, B>>,
          last: Option<Item<S, B>>)
  {
    && front + newItems == Record(ops, flat, steps, selection, preserve)
    && front == flat[..Untouched(ops, flat, steps, selection, preserve)]
    && (newItems == [] <==> steps == [])
    && last == if preserve then None else LastOf(front + newItems)
  }

  lemma {:induction false} RecordingStep<D, S, B>(ops: Ops<D, S, B>, flat: seq<Item<S, B>>, steps: seq<Made<S>>,
          made: Made<S>, selection: Option<B>, preserve: bool, front: seq<Item<S, B>>, newItems: seq<Item<S, B>>,
          last: Option<Item<S, B>>, front': seq<Item<S, B>>, newItems': seq<Item<S, B>>)
    requires Recording(ops, flat, steps, selection, preserve, front, newItems, last)
    requires var item := NewItem(made, if steps == [] then selection else None);
      var all := front + newItems;
      && front' + newItems' == (if last.Some? then Push(ops, all, item) else all + [item])
      && newItems' != [] && LastOf(newItems') == LastOf(front' + newItems')
      && front' == if newItems == [] && last.Some? && Merged(ops, last.value, item).Some?
                   then all[..|all| - 1] else front
    ensures Recording(ops, flat, steps + [made], selection, preserve, front', newItems',
                      if preserve then None else LastOf(newItems'))
  {
    var item := NewItem(made, if steps == [] then selection else None);
    assert (steps + [made])[..|steps|] == steps;
    RecordNext(ops, flat, steps, made, selection, preserve);
    if steps == [] {
      assert front == flat && front + newItems == flat;
    } else {
      assert (steps + [made])[0] == steps[0];
    }
  }

  lemma {:induction false} RecordNext<D, S, B>(ops: Ops<D, S, B>, items: seq<Item<S, B>>, steps: seq<Made<S>>,
          made: Made<S>, selection: Option<B>, preserve: bool)
    ensures var before := Record(ops, items, steps, selection, preserve);
      var item := NewItem(made, if steps == [] then selection else None);
      Record(ops, items, steps + [made], selection, preserve) ==
      if preserve then before + [item] else Push(ops, before, item)
  {
    assert (steps + [made])[..|steps|] == steps;
  }

  method RecordOne<D, S, B>(ops: Ops<D, S, B>, ghost flat: seq<Item<S, B>>, ghost seen: seq<Made<S>>, made: Made<S>,
          mark: Option<B>, ghost selection: Option<B>, preserve: bool, oldItems: Rope<Item<S, B>>,
          newItems: seq<Item<S, B>>, last: Option<Item<S, B>>)
    returns (oldItems': Rope<Item<S, B>>, newItems': seq<Item<S, B>>, last': Option<Item<S, B>>)
    requires oldItems.Valid() && mark == if seen == [] then selection else None
    requires Recording(ops, flat, seen, selection, preserve, oldItems.Flat(), newItems, last)
    ensures oldItems'.Valid()
    ensures Recording(ops, flat, seen + [made], selection, preserve, oldItems'.Flat(), newItems', last')
  {
    oldItems', newItems' := AddItem(ops, oldItems, newItems, last, NewItem(made, mark));
    last' := if preserve then None else LastOf(newItems');
    RecordingStep(ops, flat, seen, made, selection, preserve, oldItems.Flat(), newItems, last,
                  oldItems'.Flat(), newItems');
  }

  /** The loop over the steps. */
  method RecordAll<D, S, B>(ops: Ops<D, S, B>, b: Branch<S, B>, steps: seq<Made<S>>, selection: Option<B>,
          preserve: bool)
    returns (oldItems: Rope<Item<S, B>>, newItems: seq<Item<S, B>>, eventCount: int, ghost last: Option<Item<S, B>>)
    requires b.items.Valid()
    ensures oldItems.Valid() && eventCount == b.eventCount + Begins(steps, selection)
    ensures Recording(ops, b.items.Flat(), steps, selection, preserve, oldItems.Flat(), newItems, last)
  {
    newItems, eventCount, oldItems := [], b.eventCount, b.items;
    var mark := selection;
    var latest := LastItem(oldItems);
    if preserve {
      latest := None;
    }
    ghost var flat := b.items.Flat();
    assert flat[..|flat|] == flat && flat + [] == flat;
    var c := 0;
    while c < |steps|
      invariant 0 <= c <= |steps|
      invariant oldItems.Valid()
      invariant Recording(ops, flat, steps[..c], selection, preserve, oldItems.Flat(), newItems, latest)
      invariant mark == if c == 0 then selection else None
      invariant eventCount == b.eventCount + Begins(steps[..c], selection)
    {
      oldItems, newItems, latest :=
        RecordOne(ops, flat, steps[..c], steps[c], mark, selection, preserve, oldItems, newItems, latest);
      if mark.Some? {
        eventCount := eventCount + 1;
        mark := None;
      }
      assert steps[..c + 1] == steps[..c] + [steps[c]];
      c := c + 1;
    }
    assert steps[..|steps|] == steps;
    last := latest;
  }

  method AddTransform<D, S, B>(ops: Ops<D, S, B>, b: Branch<S, B>, steps: seq<Made<S>>, selection: Option<B>,
          depth: int, preserve: bool)
    returns (r: Branch<S, B>)
    requires b.items.Valid()
    ensures r.items.Valid()
    ensures (r.items.Flat(), r.eventCount) ==
            Added(ops, b.items.Flat(), b.eventCount, steps, selection, depth, preserve)
  {
    var oldItems, newItems, eventCount, last := RecordAll(ops, b, steps, selection, preserve);
    r := Finish(ops, b, steps, selection, depth, preserve, oldItems, newItems, eventCount, last);
  }

  /** Drops old events if there are too many, and puts the new items behind. */
  method Finish<D, S, B>(ghost ops: Ops<D, S, B>, ghost b: Branch<S, B>, ghost steps: seq<Made<S>>,
          ghost selection: Option<B>, depth: int, ghost preserve: bool, oldItems: Rope<Item<S, B>>,
          newItems: seq<Item<S, B>>, eventCount: int, ghost last: Option<Item<S, B>>)
    returns (r: Branch<S, B>)
    requires oldItems.Valid() && eventCount == b.eventCount + Begins(steps, selection)
    requires Recording(ops, b.items.Flat(), steps, selection, preserve, oldItems.Flat(), newItems, last)
    ensures r.items.Valid()
    ensures (r.items.Flat(), r.eventCount) ==
            Added(ops, b.items.Flat(), b.eventCount, steps, selection, depth, preserve)
  {
    RecordKeeps(ops, b.items.Flat(), steps, selection, preserve);
    var kept, count := oldItems, eventCount;
    var overflow := eventCount - depth;
    if overflow > DEPTH_OVERFLOW {
      kept := CutOffEvents(oldItems, overflow);
      count := eventCount - overflow;
    }
    AppendIs(kept, Leaf(newItems));
    r := Branch(kept.Append(Leaf(newItems)), count);
  }

  function LastOf<T>(s: seq<T>): Option<T> {
    if s == [] then None else Some(s[|s| - 1])
  }
}
