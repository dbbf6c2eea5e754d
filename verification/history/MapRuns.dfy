/** The maps in the undo history account for the document, over whole runs, whatever changes are not to be undone. */
module MapRuns {
  import opened Options
  import opened StepMaps
  import opened Branches
  import opened PopEvents
  import opened PopTraces
  import opened HistoryRuns

  /** What a change comes with works backward as well. */
  ghost predicate Inverts<D(!new)>(isMap: (StepMap, D, D) -> bool) {
    forall m, x: D, y: D | isMap(m, x, y) :: isMap(m.Invert(), y, x)
  }

  ghost predicate Lawful<D(!new), S(!new), B>(ops: Ops<D, S, B>, isMap: (StepMap, D, D) -> bool) {
    MergesRight(ops) && MapsRight(ops, isMap) && Inverts(isMap)
  }

  /** The item is of a change from `x` to `y`; if it holds a step, that takes the change back. */
  predicate IsOf<D(==), S, B>(ops: Ops<D, S, B>, isMap: (StepMap, D, D) -> bool, item: Item<S, B>, x: D, y: D) {
    isMap(item.stepMap, x, y) && (item.step.Some? ==> ops.apply(item.step.value, y) == Some(x))
  }

  /** The items are of changes that lead from each document to the next. */
  ghost predicate ItemsLead<D, S, B>(ops: Ops<D, S, B>, isMap: (StepMap, D, D) -> bool, items: seq<Item<S, B>>,
          docs: seq<D>)
  {
    |docs| == |items| + 1 && forall k | 0 <= k < |items| :: IsOf(ops, isMap, items[k], docs[k], docs[k + 1])
  }

  /** The items from `at` on, with all the events, lead to the document. */
  ghost predicate LeadTo<D, S, B>(ops: Ops<D, S, B>, isMap: (StepMap, D, D) -> bool, items: seq<Item<S, B>>, doc: D,
          at: nat, docs: seq<D>)
  {
    && at <= |items| && Events(items[..at]) == 0
    && ItemsLead(ops, isMap, items[at..], docs) && docs[|docs| - 1] == doc
  }

  // ----- recording -----

  lemma {:induction false} AppendLeads<D, S, B>(ops: Ops<D, S, B>, isMap: (StepMap, D, D) -> bool,
          items: seq<Item<S, B>>, x: D, at: nat, docs: seq<D>, u: Item<S, B>, y: D)
    requires LeadTo(ops, isMap, items, x, at, docs) && IsOf(ops, isMap, u, x, y)
    ensures LeadTo(ops, isMap, items + [u], y, at, docs + [y])
  {
    assert (items + [u])[..at] == items[..at] && (items + [u])[at..] == items[at..] + [u];
  }

  /** An item merged into the last one: the two changes are one. */
  lemma {:induction false} MergeLeads<D(!new), S(!new), B>(ops: Ops<D, S, B>, isMap: (StepMap, D, D) -> bool,
          older: Item<S, B>, newer: Item<S, B>, x: D, mid: D, y: D)
    requires Lawful(ops, isMap) && IsOf(ops, isMap, older, x, mid) && IsOf(ops, isMap, newer, mid, y)
    requires Merged(ops, older, newer).Some?
    ensures IsOf(ops, isMap, Merged(ops, older, newer).value, x, y)
  {
    var step := ops.merge(newer.step.value, older.step.value).value;
    assert ops.apply(step, y) == Some(x);
    assert isMap(ops.getMap(step), y, x);
  }

  lemma {:induction false} PushLeads<D(!new), S(!new), B>(ops: Ops<D, S, B>, isMap: (StepMap, D, D) -> bool,
          items: seq<Item<S, B>>, x: D, at: nat, docs: seq<D>, u: Item<S, B>, y: D)
    returns (at': nat, docs': seq<D>)
    requires Lawful(ops, isMap) && LeadTo(ops, isMap, items, x, at, docs) && IsOf(ops, isMap, u, x, y)
    ensures LeadTo(ops, isMap, Push(ops, items, u), y, at', docs')
  {
    var l := |items| - 1;
    if items == [] || Merged(ops, items[l], u).None? {
      at', docs' := at, docs + [y];
      AppendLeads(ops, isMap, items, x, at, docs, u, y);
    } else {
      var m := Merged(ops, items[l], u).value;
      var all := items[..l] + [m];
      assert all[..l] == items[..l];
      if at == |items| {
        at', docs' := at, [y];
        assert all[..at] == all && items[..at] == items;
      } else {
        at', docs' := at, docs[..l - at + 1] + [y];
        assert all[..at] == items[..at] && all[at..] == items[at..][..l - at] + [m];
        assert items[at..][l - at] == items[l];
        MergeLeads(ops, isMap, items[l], u, docs[l - at], x, y);
      }
    }
  }

  /** The steps lead from each document to the next, and come with maps and inverses that say so. */
  ghost predicate StepsLead<D(!new), S, B>(ops: Ops<D, S, B>, isMap: (StepMap, D, D) -> bool, steps: seq<Made<S>>,
          docs: seq<D>)
  {
    TakesBack(ops, steps, docs) && forall i | 0 <= i < |steps| :: isMap(steps[i].stepMap, docs[i], docs[i + 1])
  }

  lemma {:induction false} RecordLeads<D(!new), S(!new), B>(ops: Ops<D, S, B>, isMap: (StepMap, D, D) -> bool,
          items: seq<Item<S, B>>, at: nat, docs: seq<D>, steps: seq<Made<S>>, through: seq<D>, selection: Option<B>,
          preserve: bool)
    returns (at': nat, docs': seq<D>)
    requires Lawful(ops, isMap) && StepsLead(ops, isMap, steps, through)
    requires LeadTo(ops, isMap, items, through[0], at, docs)
    ensures LeadTo(ops, isMap, Record(ops, items, steps, selection, preserve), through[|steps|], at', docs')
  {
    if steps == [] {
      at', docs' := at, docs;
    } else {
      var n := |steps| - 1;
      at', docs' := RecordLeads(ops, isMap, items, at, docs, steps[..n], through[..n + 1], selection, preserve);
      var before := Record(ops, items, steps[..n], selection, preserve);
      var u := NewItem(steps[n], if n == 0 then selection else None);
      at', docs' := OneLeads(ops, isMap, before, through[n], at', docs', u, through[n + 1], preserve);
    }
  }

  lemma {:induction false} OneLeads<D(!new), S(!new), B>(ops: Ops<D, S, B>, isMap: (StepMap, D, D) -> bool,
          items: seq<Item<S, B>>, x: D, at: nat, docs: seq<D>, u: Item<S, B>, y: D, preserve: bool)
    returns (at': nat, docs': seq<D>)
    requires Lawful(ops, isMap) && LeadTo(ops, isMap, items, x, at, docs) && IsOf(ops, isMap, u, x, y)
    ensures LeadTo(ops, isMap, if preserve then items + [u] else Push(ops, items, u), y, at', docs')
  {
    if preserve {
      at', docs' := at, docs + [y];
      AppendLeads(ops, isMap, items, x, at, docs, u, y);
    } else {
      at', docs' := PushLeads(ops, isMap, items, x, at, docs, u, y);
    }
  }

  lemma {:induction false} EventCounts<S, B>(items: seq<Item<S, B>>, n: nat, end: nat)
    requires n < end <= |items| && items[n].selection.Some?
    ensures Events(items[..end]) > 0
  {
    assert items[..end] == items[..n] + ([items[n]] + items[n + 1..end]);
    EventsAppend(items[..n], [items[n]] + items[n + 1..end]);
    EventsAppend([items[n]], items[n + 1..end]);
    assert [items[n]][..0] == [];
  }

  /** Dropping the oldest events leaves all after them. */
  lemma {:induction false} CutLeads<D, S, B>(ops: Ops<D, S, B>, isMap: (StepMap, D, D) -> bool, items: seq<Item<S, B>>,
          doc: D, at: nat, docs: seq<D>, overflow: nat, cut: nat)
    requires LeadTo(ops, isMap, items, doc, at, docs) && CutsAt(items, overflow, cut)
    ensures at <= cut && LeadTo(ops, isMap, items[cut..], doc, 0, docs[cut - at..])
  {
    if cut < at {
      EventCounts(items, cut, at);
    }
    assert items[cut..][..0] == [] && items[cut..][0..] == items[at..][cut - at..];
  }

  lemma {:induction false} AddLeads<D(!new), S(!new), B>(ops: Ops<D, S, B>, isMap: (StepMap, D, D) -> bool, depth: int,
          a: State<S, B>, at: nat, docs: seq<D>, steps: seq<Made<S>>, through: seq<D>, selection: Option<B>,
          preserve: bool, b: State<S, B>)
    returns (at': nat, docs': seq<D>)
    requires Lawful(ops, isMap) && StepsLead(ops, isMap, steps, through) && depth >= 2 && CountRight(a)
    requires LeadTo(ops, isMap, a.items, through[0], at, docs) && AddsTo(ops, depth, a, b, steps, selection, preserve)
    ensures LeadTo(ops, isMap, b.items, through[|steps|], at', docs')
  {
    at', docs' := RecordLeads(ops, isMap, a.items, at, docs, steps, through, selection, preserve);
    var overflow := a.eventCount + Begins(steps, selection) - depth;
    if overflow > DEPTH_OVERFLOW {
      var all := Record(ops, a.items, steps, selection, preserve);
      var cut := TrimExact(ops, a, steps, selection, depth, preserve);
      CutLeads(ops, isMap, all, through[|steps|], at', docs', overflow, cut);
      at', docs' := 0, docs'[cut - at'..];
    }
  }

  // ----- changes that are not to be undone -----

  lemma {:induction false} OtherLeads<D, S, B>(ops: Ops<D, S, B>, isMap: (StepMap, D, D) -> bool, a: State<S, B>,
          at: nat, docs: seq<D>, maps: seq<Item<S, B>>, through: seq<D>, b: State<S, B>)
    returns (at': nat, docs': seq<D>)
    requires CountRight(a) && MapsTo(a, b, maps) && ItemsLead(ops, isMap, maps, through)
    requires LeadTo(ops, isMap, a.items, through[0], at, docs)
    ensures LeadTo(ops, isMap, b.items, through[|maps|], at', docs')
  {
    if a.eventCount == 0 {
      at', docs' := |a.items|, [through[|maps|]];
      assert a.items[..at'] == a.items;
    } else {
      at', docs' := at, docs + through[1..];
      assert b.items[..at] == a.items[..at] && b.items[at..] == a.items[at..] + maps;
    }
  }

  // ----- popping -----

  lemma {:induction false} PopLeads<D(!new), S(!new), B>(ops: Ops<D, S, B>, isMap: (StepMap, D, D) -> bool,
          items: seq<Item<S, B>>, doc: D, at: nat, docs: seq<D>, preserve: bool)
    returns (docs': seq<D>)
    requires Lawful(ops, isMap) && LeadTo(ops, isMap, items, doc, at, docs) && Events(items) > 0
    ensures var (left, doc', _) := TakenBack(ops, items, doc, preserve); LeadTo(ops, isMap, left, doc', at, docs')
  {
    var t := PopFollows(ops, items, doc, preserve);
    if t.first < at {
      EventCounts(items, t.first, at);
    }
    var before := docs[t.first - at..];
    WasSo(ops, isMap, items, doc, preserve, at, docs, t, before);
    BackToEnd(ops, isMap, items, doc, preserve, t, before, t.end - t.first);
    var made := ExtrasLead(ops, isMap, items, doc, preserve, t, 0);
    docs' := docs[..t.end - at] + made;
    LeftLeads(ops, isMap, items, at, docs, t, made, TakenBack(ops, items, doc, preserve).0);
  }

  lemma {:induction false} WasSo<D(!new), S, B>(ops: Ops<D, S, B>, isMap: (StepMap, D, D) -> bool,
          items: seq<Item<S, B>>, doc: D, preserve: bool, at: nat, docs: seq<D>, t: Trace<D>, before: seq<D>)
    requires LeadTo(ops, isMap, items, doc, at, docs) && Follows(ops, items, doc, preserve, t)
    requires at <= t.first && before == docs[t.first - at..]
    ensures Was(ops, isMap, items, t, before)
  {
    forall k | t.first <= k < |items|
      ensures IsOf(ops, isMap, items[k], before[k - t.first], before[k + 1 - t.first])
    {
      assert items[at..][k - at] == items[k];
    }
  }

  lemma {:induction false} LeftLeads<D(!new), S, B>(ops: Ops<D, S, B>, isMap: (StepMap, D, D) -> bool,
          items: seq<Item<S, B>>, at: nat, docs: seq<D>, t: Trace<D>, made: seq<D>, left: seq<Item<S, B>>)
    requires Sized(items, t) && at <= t.first && LeftIs(items, t, left) && ItemsLead(ops, isMap, items[at..], docs)
    requires Events(items[..at]) == 0
    requires |made| == |t.extras[0]| + 1 && made[0] == docs[t.end - at]
    requires forall j | 0 <= j < |t.extras[0]| :: isMap(t.extras[0][j].made, made[j], made[j + 1])
    ensures LeadTo(ops, isMap, left, made[|made| - 1], at, docs[..t.end - at] + made)
  {
    var docs' := docs[..t.end - at] + made;
    assert left[..at] == items[..at];
    forall k | 0 <= k < |left| - at
      ensures IsOf(ops, isMap, left[at..][k], docs'[k], docs'[k + 1])
    {
      if at + k < t.end {
        assert IsOf(ops, isMap, items[at..][k], docs[k], docs[k + 1]);
      } else {
        var j := at + k - t.end;
        assert left[t.end + j] == Item(t.extras[0][j].made, None, None, Some(t.end + j - t.extras[0][j].of));
      }
    }
  }

  // ----- whole runs -----

  datatype Act<D, S, B> =
    | Change(steps: seq<Made<S>>, through: seq<D>, selection: Option<B>, preserve: bool)
    | Other(maps: seq<Item<S, B>>, through: seq<D>)
    | Undo(preserve: bool)

  /** A change is recorded, or made without being recorded but for its maps, or the newest event is popped. */
  ghost predicate Acts<D(!new), S, B>(ops: Ops<D, S, B>, isMap: (StepMap, D, D) -> bool, depth: int, a: Config<D, S, B>,
          act: Act<D, S, B>, b: Config<D, S, B>)
  {
    match act
    case Change(steps, through, selection, preserve) =>
      && StepsLead(ops, isMap, steps, through) && through[0] == a.doc && through[|steps|] == b.doc
      && AddsTo(ops, depth, a.state, b.state, steps, selection, preserve)
    case Other(maps, through) =>
      && ItemsLead(ops, isMap, maps, through) && through[0] == a.doc && through[|maps|] == b.doc
      && MapsTo(a.state, b.state, maps)
    case Undo(preserve) =>
      PopsTo(ops, a.state, b.state, a.doc, preserve) && b.doc == TakenBack(ops, a.state.items, a.doc, preserve).1
  }

  /** From an empty branch. */
  ghost predicate Happened<D(!new), S, B>(ops: Ops<D, S, B>, isMap: (StepMap, D, D) -> bool, depth: int, doc: D,
          acts: seq<Act<D, S, B>>, configs: seq<Config<D, S, B>>)
  {
    && |configs| == |acts| + 1 && configs[0] == Config(State([], 0), doc)
    && forall i | 0 <= i < |acts| :: Acts(ops, isMap, depth, configs[i], acts[i], configs[i + 1])
  }

  lemma {:induction false} ActLeads<D(!new), S(!new), B>(ops: Ops<D, S, B>, isMap: (StepMap, D, D) -> bool, depth: int,
          a: Config<D, S, B>, act: Act<D, S, B>, b: Config<D, S, B>, at: nat, docs: seq<D>)
    returns (at': nat, docs': seq<D>)
    requires Lawful(ops, isMap) && depth >= 2 && CountRight(a.state) && Acts(ops, isMap, depth, a, act, b)
    requires LeadTo(ops, isMap, a.state.items, a.doc, at, docs)
    ensures CountRight(b.state) && LeadTo(ops, isMap, b.state.items, b.doc, at', docs')
  {
    match act
    case Change(steps, through, selection, preserve) =>
      AddKeeps(ops, depth, a.state, b.state, steps, selection, preserve);
      at', docs' := AddLeads(ops, isMap, depth, a.state, at, docs, steps, through, selection, preserve, b.state);
    case Other(maps, through) =>
      EventsAppend(a.state.items, maps);
      NoEvents(maps);
      at', docs' := OtherLeads(ops, isMap, a.state, at, docs, maps, through, b.state);
    case Undo(preserve) =>
      PopKeeps(ops, a.state, b.state, a.doc, preserve);
      at' := at;
      docs' := PopLeads(ops, isMap, a.state.items, a.doc, at, docs, preserve);
  }

  /**
   * Over every run of changes, changes that are not to be undone, and undos: from the oldest
   * event on, the maps in the branch are of changes that lead, one after the other, to the
   * document there is, and each step that is held takes its change back.
   */
  lemma {:induction false} MapsAccount<D(!new), S(!new), B>(ops: Ops<D, S, B>, isMap: (StepMap, D, D) -> bool,
          depth: int, doc: D, acts: seq<Act<D, S, B>>, configs: seq<Config<D, S, B>>)
    returns (at: nat, docs: seq<D>)
    requires Lawful(ops, isMap) && depth >= 2 && Happened(ops, isMap, depth, doc, acts, configs)
    ensures var last := configs[|acts|];
      CountRight(last.state) && LeadTo(ops, isMap, last.state.items, last.doc, at, docs)
    decreases |acts|
  {
    if acts == [] {
      at, docs := 0, [doc];
    } else {
      var n := |acts| - 1;
      at, docs := MapsAccount(ops, isMap, depth, doc, acts[..n], configs[..n + 1]);
      at, docs := ActLeads(ops, isMap, depth, configs[n], acts[n], configs[n + 1], at, docs);
    }
  }

  /**
   * So in every run, whenever there is an event to take back: what each of its steps is mapped
   * over leads from the document the step was made for to the one it is tried on, and what the
   * selection is mapped over to the document handed back.
   */
  lemma {:induction false} PopLeadsOn<D(!new), S(!new), B>(ops: Ops<D, S, B>, isMap: (StepMap, D, D) -> bool,
          depth: int, doc: D, acts: seq<Act<D, S, B>>, configs: seq<Config<D, S, B>>, preserve: bool, i: nat)
    returns (t: Trace<D>, before: seq<D>, docs: seq<D>)
    requires Lawful(ops, isMap) && depth >= 2 && Happened(ops, isMap, depth, doc, acts, configs)
    requires configs[|acts|].state.eventCount != 0
    ensures var last := configs[|acts|];
      Follows(ops, last.state.items, last.doc, preserve, t) && Was(ops, isMap, last.state.items, t, before)
    ensures i <= t.end - t.first ==>
      && t.views[i].from == i <= |t.views[i].maps| && MapsLead(isMap, t.views[i].maps[i..], docs)
      && docs[0] == before[i] && docs[|docs| - 1] == t.docs[i]
  {
    var last := configs[|acts|];
    var at, all := MapsAccount(ops, isMap, depth, doc, acts, configs);
    t := PopFollows(ops, last.state.items, last.doc, preserve);
    if t.first < at {
      EventCounts(last.state.items, t.first, at);
    }
    before, docs := all[t.first - at..], [];
    WasSo(ops, isMap, last.state.items, last.doc, preserve, at, all, t, before);
    if i <= t.end - t.first {
      docs := ViewLeads(ops, isMap, last.state.items, last.doc, preserve, t, before, i);
    }
  }
}
