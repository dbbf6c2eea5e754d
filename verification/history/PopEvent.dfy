/** Taking back the newest event of a branch (`popEvent`), remapping steps where that is needed. */
module PopEvents {
  import opened Basics
  import opened Options
  import opened StepMaps
  import opened Mappings
  import opened Ropes
  import opened Branches

  /** What is handed back: the branch without the event, the document, and the selection to restore. */
  datatype Popped<D, S, B> = Popped(remaining: Branch<S, B>, doc: D, selection: B)

  // ----- finding the newest event -----

  /** Item `n` is the last that begins an event. */
  predicate IsNewest<S, B>(items: seq<Item<S, B>>, n: nat) {
    n < |items| && items[n].selection.Some? && forall i | n < i < |items| :: items[i].selection.None?
  }

  /** The item that begins the newest event. */
  function LastEvent<S, B>(items: seq<Item<S, B>>): (n: nat)
    requires Events(items) > 0
    ensures IsNewest(items, n)
  {
    if items[|items| - 1].selection.Some? then |items| - 1 else LastEvent(items[..|items| - 1])
  }

  /** The search from the end finds an item, for there is an event. */
  method FindNewest<S, B>(items: Rope<Item<S, B>>) returns (n: nat)
    requires items.Valid() && Events(items.Flat()) > 0
    ensures n < items.Length() == |items.Flat()| && Events(items.Flat()[..n]) == Events(items.Flat()) - 1
    ensures n == LastEvent(items.Flat())
  {
    FieldsRight(items);
    var flat := items.Flat();
    assert flat[..|flat|] == flat;
    n := items.Length();
    while true
      invariant n <= |flat| && Events(flat[..n]) == Events(flat)
      invariant forall i | n <= i < |flat| :: flat[i].selection.None?
      decreases n
    {
      assert n > 0;
      GetIs(items, n - 1);
      assert flat[..n][..n - 1] == flat[..n - 1] && flat[..n][n - 1] == flat[n - 1];
      if items.Get(n - 1).value.selection.Some? {
        n := n - 1;
        return;
      }
      n := n - 1;
    }
  }

  // ----- mappings over the items -----

  function MapsOf<S, B>(items: seq<Item<S, B>>): (maps: seq<StepMap>)
    ensures |maps| == |items| && forall i | 0 <= i < |items| :: maps[i] == items[i].stepMap
  {
    seq(|items|, i requires 0 <= i < |items| => items[i].stepMap)
  }

  /** The pairs for the items from `from` up to `end` whose mirror is among them as well. */
  function MirrorsOf<S, B>(items: seq<Item<S, B>>, from: nat, end: nat): seq<nat>
    requires from <= end <= |items|
    decreases end - from
  {
    if end == from then [] else
      var offset := items[end - 1].mirrorOffset;
      MirrorsOf(items, from, end - 1) +
      if offset.Some? && end - 1 - offset.value >= from
      then [end - 1 - from, end - 1 - from - offset.value] else []
  }

  /** The maps of a stretch of the items, mirrored as the items' offsets say (`remapping`). */
  method Remapping<S, B>(items: Rope<Item<S, B>>, from: nat, end: nat) returns (m: Mapping)
    requires items.Valid() && from <= end <= items.Length() == |items.Flat()|
    ensures fresh(m) && m.Valid()
    ensures m.maps == MapsOf(items.Flat()[from..end]) && m.mirror == MirrorsOf(items.Flat(), from, end)
  {
    m := new Mapping();
    var flat := items.Flat();
    var i := from;
    while i < end
      invariant from <= i <= end
      invariant fresh(m) && m.Valid()
      invariant m.maps == MapsOf(flat[from..i]) && m.mirror == MirrorsOf(flat, from, i)
    {
      GetIs(items, i);
      var item := items.Get(i).value;
      var mirrors := if item.mirrorOffset.Some? && i - item.mirrorOffset.value >= from
                     then Some(|m.maps| - item.mirrorOffset.value) else None;
      assert flat[from..i + 1] == flat[from..i] + [flat[i]];
      m.AppendMap(item.stepMap, mirrors);
      i := i + 1;
    }
  }

  // ----- what stays of an event that is remapped -----

  /** Only the maps are kept. */
  function Stripped<S, B>(items: seq<Item<S, B>>): (r: seq<Item<S, B>>)
    ensures |r| == |items|
  {
    seq(|items|, i requires 0 <= i < |items| =>
      if items[i].step.Some? then Item(items[i].stepMap, None, None, None) else items[i])
  }

  predicate AllSteps<S, B>(items: seq<Item<S, B>>) {
    forall i | 0 <= i < |items| :: items[i].step.Some?
  }

  /** Where the stretch that is remapped ends: behind the last item without a step, or at the end to keep all. */
  predicate RemapsTo<S, B>(items: seq<Item<S, B>>, n: nat, m: nat, preserve: bool) {
    && n <= m <= |items|
    && (if preserve then m == |items| else AllSteps(items[m..]) && (m > n ==> items[m - 1].step.None?))
  }

  function RemapEnd<S, B>(items: seq<Item<S, B>>, n: nat, end: nat): (m: nat)
    requires n <= end <= |items| && AllSteps(items[end..])
    ensures n <= m <= end && RemapsTo(items, n, m, false)
  {
    if end > n && items[end - 1].step.Some? then RemapEnd(items, n, end - 1) else end
  }

  /** The items from the event's first `n` up to this one are remapped. */
  function Remapped<S, B>(items: seq<Item<S, B>>, n: nat, preserve: bool): (m: nat)
    requires n <= |items|
    ensures RemapsTo(items, n, m, preserve) && AllSteps(items[m..])
  {
    if preserve then |items| else RemapEnd(items, n, |items|)
  }

  /** The pairs made when maps of remade items are appended: each is the mirror of the map kept of its step. */
  function RemadeMirrors<S, B>(f: seq<Item<S, B>>, n: nat, m: nat): seq<nat> {
    if f == [] then [] else
      var j := |f| - 1;
      var of := m + j - n - if f[j].mirrorOffset.Some? then f[j].mirrorOffset.value else 0;
      RemadeMirrors(f[..j], n, m) + if n <= m && of >= 0 then [m - n + j, of] else []
  }

  /** The mapping after `f` was made, from the map kept of item `k` on. */
  function ViewFrom<S, B>(items: seq<Item<S, B>>, n: nat, m: nat, f: seq<Item<S, B>>, from: int): View
    requires n <= m <= |items|
  {
    View(MapsOf(items[n..m]) + MapsOf(f), MirrorsOf(items, n, m) + RemadeMirrors(f, n, m), from)
  }

  /** The item whose step was remade into `f[j]`: as far back as the mirror offset says. */
  function Origin<S, B>(f: seq<Item<S, B>>, m: nat, j: nat): int
    requires j < |f| && f[j].mirrorOffset.Some?
  {
    m + j - f[j].mirrorOffset.value
  }

  /** Item `f[j]` has the map of a step that was mapped over all the maps that came after it. */
  ghost predicate Remade<D, S, B>(ops: Ops<D, S, B>, items: seq<Item<S, B>>, n: nat, m: nat, f: seq<Item<S, B>>, j: nat)
    requires n <= m <= |items| && j < |f|
  {
    && f[j].step.None? && f[j].selection.None? && f[j].mirrorOffset.Some?
    && var k := Origin(f, m, j);
    && n <= k < m && items[k].step.Some?
    && var d := ops.mapStep(items[k].step.value, ViewFrom(items, n, m, f[..j], k + 1 - n));
    && d.Some? && f[j].stepMap == ops.getMap(d.value)
  }

  ghost predicate AllRemade<D, S, B>(ops: Ops<D, S, B>, items: seq<Item<S, B>>, n: nat, m: nat, f: seq<Item<S, B>>)
    requires n <= m <= |items|
  {
    forall j | 0 <= j < |f| :: Remade(ops, items, n, m, f, j)
  }

  // ----- taking back without remapping -----

  /** A step that cannot be applied leaves the document as it is (`maybeStep`). */
  function Attempt<D, S, B>(ops: Ops<D, S, B>, step: S, doc: D): D {
    var r := ops.apply(step, doc);
    if r.Some? then r.value else doc
  }

  /** The steps of the items, applied from the last to the first. */
  function Unwind<D, S, B>(ops: Ops<D, S, B>, items: seq<Item<S, B>>, doc: D): D
    requires AllSteps(items)
  {
    if items == [] then doc
    else Unwind(ops, items[..|items| - 1], Attempt(ops, items[|items| - 1].step.value, doc))
  }

  // ----- taking back with remapping -----

  /** One step more is mapped over all that came after it, and tried; its map is kept if that worked. */
  function Remake<D, S, B>(ops: Ops<D, S, B>, items: seq<Item<S, B>>, n: nat, m: nat, k: nat, f: seq<Item<S, B>>,
          doc: D): (seq<Item<S, B>>, D)
    requires n <= k < m <= |items|
  {
    if items[k].step.None? then (f, doc) else
      var d := ops.mapStep(items[k].step.value, ViewFrom(items, n, m, f, k + 1 - n));
      if d.None? || ops.apply(d.value, doc).None? then (f, doc) else
        (f + [Item(ops.getMap(d.value), None, None, Some(|f| + m - k))], ops.apply(d.value, doc).value)
  }

  /** The steps of the items from `u` up to `m`, last first. */
  function RemakeAll<D, S, B>(ops: Ops<D, S, B>, items: seq<Item<S, B>>, n: nat, m: nat, u: nat, doc: D)
    : (seq<Item<S, B>>, D)
    requires n <= u <= m <= |items|
    decreases m - u
  {
    if u == m then ([], doc) else
      var (f, after) := RemakeAll(ops, items, n, m, u + 1, doc);
      Remake(ops, items, n, m, u, f, after)
  }

  /** A remade item added: the earlier ones are as they were. */
  lemma {:induction false} RemadeNext<D, S, B>(ops: Ops<D, S, B>, items: seq<Item<S, B>>, n: nat, m: nat,
          f: seq<Item<S, B>>, k: nat, d: S)
    requires n <= k < m <= |items| && AllRemade(ops, items, n, m, f) && items[k].step.Some?
    requires ops.mapStep(items[k].step.value, ViewFrom(items, n, m, f, k + 1 - n)) == Some(d)
    ensures AllRemade(ops, items, n, m, f + [Item(ops.getMap(d), None, None, Some(|f| + m - k))])
  {
    var f' := f + [Item(ops.getMap(d), None, None, Some(|f| + m - k))];
    assert f'[..|f|] == f;
    forall j | 0 <= j < |f'|
      ensures Remade(ops, items, n, m, f', j)
    {
      if j < |f| {
        assert f'[..j] == f[..j];
        assert Remade(ops, items, n, m, f, j);
      } else {
        assert Origin(f', m, j) == k;
      }
    }
  }

  lemma {:induction false} AllAreRemade<D, S, B>(ops: Ops<D, S, B>, items: seq<Item<S, B>>, n: nat, m: nat, u: nat,
          doc: D)
    requires n <= u <= m <= |items|
    ensures AllRemade(ops, items, n, m, RemakeAll(ops, items, n, m, u, doc).0)
    decreases m - u
  {
    if u < m {
      AllAreRemade(ops, items, n, m, u + 1, doc);
      var (f, after) := RemakeAll(ops, items, n, m, u + 1, doc);
      var (f', after') := Remake(ops, items, n, m, u, f, after);
      if f' != f {
        RemadeNext(ops, items, n, m, f, u, ops.mapStep(items[u].step.value, ViewFrom(items, n, m, f, u + 1 - n)).value);
      }
    }
  }

  /** The items left, the document and the selection, for the items of a branch that holds an event. */
  function TakenBack<D, S, B>(ops: Ops<D, S, B>, items: seq<Item<S, B>>, doc: D, preserve: bool)
    : (seq<Item<S, B>>, D, B)
    requires Events(items) > 0
  {
    var n := LastEvent(items);
    var m := Remapped(items, n, preserve);
    var (f, after) := RemakeAll(ops, items, n, m, n, Unwind(ops, items[m..], doc));
    var mark := items[n].selection.value;
    (items[..n] + (Stripped(items[n..m]) + f), after,
     if m == n then mark else ops.mapMark(mark, ViewFrom(items, n, m, f, 0)))
  }

  // ----- the loop over the items of the event, last first -----

  /** The items from `u` on are done: those up to `m` were remapped, those behind it just taken back. */
  ghost predicate Midway<D, S, B>(ops: Ops<D, S, B>, items: seq<Item<S, B>>, n: nat, u: nat, m: nat, preserve: bool,
          doc: D, remap: Mapping?, s: int, c: seq<Item<S, B>>, f: seq<Item<S, B>>, doc': D)
    reads remap
  {
    && n <= u <= m <= |items| && n < |items| && AllSteps(items[m..])
    && RemakeAll(ops, items, n, m, u, Unwind(ops, items[m..], doc)) == (f, doc')
    && Reverse(c) == Stripped(items[u..m])
    && if remap == null then
         !preserve && u == m
       else
         && remap.Valid() && s == u - n && m > n
         && remap.maps == MapsOf(items[n..m]) + MapsOf(f)
         && remap.mirror == MirrorsOf(items, n, m) + RemadeMirrors(f, n, m)
         && RemapsTo(items, n, m, preserve)
  }

  lemma {:induction false} OneEnd<S, B>(items: seq<Item<S, B>>, n: nat, m: nat, preserve: bool)
    requires RemapsTo(items, n, m, preserve)
    ensures m == Remapped(items, n, preserve)
  {
    var k := Remapped(items, n, preserve);
    assert forall i | m <= i < |items| :: items[m..][i - m] == items[i];
    assert forall i | k <= i < |items| :: items[k..][i - k] == items[i];
  }

  lemma {:induction false} StrippedNext<S, B>(items: seq<Item<S, B>>, u: nat, m: nat, c: seq<Item<S, B>>, x: Item<S, B>)
    requires 0 < u <= m <= |items| && Reverse(c) == Stripped(items[u..m])
    requires x == if items[u - 1].step.Some? then Item(items[u - 1].stepMap, None, None, None) else items[u - 1]
    ensures Reverse(c + [x]) == Stripped(items[u - 1..m])
  {
    assert items[u - 1..m] == [items[u - 1]] + items[u..m];
    assert Reverse(c + [x]) == [x] + Reverse(c);
  }

  /** A remade item added: its map mirrors the map kept of its step. */
  lemma {:induction false} RemadeMaps<S, B>(items: seq<Item<S, B>>, n: nat, m: nat, f: seq<Item<S, B>>, k: nat,
          made: StepMap)
    requires n <= k < m <= |items|
    ensures var f' := f + [Item(made, None, None, Some(|f| + m - k))];
      MapsOf(f') == MapsOf(f) + [made] && RemadeMirrors(f', n, m) == RemadeMirrors(f, n, m) + [m - n + |f|, k - n]
  {
    var f' := f + [Item(made, None, None, Some(|f| + m - k))];
    assert f'[..|f|] == f;
  }

  /** One item whose step is mapped over what came after it, and tried. */
  method RemapItem<D, S, B>(ops: Ops<D, S, B>, ghost items: seq<Item<S, B>>, ghost n: nat, ghost u: nat, ghost m: nat,
          ghost preserve: bool, ghost doc: D, h: Item<S, B>, remap: Mapping, s: int, c: seq<Item<S, B>>,
          f: seq<Item<S, B>>, current: D)
    returns (c': seq<Item<S, B>>, f': seq<Item<S, B>>, current': D)
    requires n < u && u <= m && Midway(ops, items, n, u, m, preserve, doc, remap, s, c, f, current)
    requires h == items[u - 1] && h.step.Some?
    modifies remap
    ensures Midway(ops, items, n, u - 1, m, preserve, doc, remap, s - 1, c', f', current')
  {
    c' := c + [Item(h.stepMap, None, None, None)];
    StrippedNext(items, u, m, c, c'[|c|]);
    f', current' := f, current;
    var d := ops.mapStep(h.step.value, View(remap.maps, remap.mirror, s));
    if d.Some? {
      var applied := ops.apply(d.value, current);
      if applied.Some? {
        current' := applied.value;
        RemadeMaps(items, n, m, f, u - 1, ops.getMap(d.value));
        f' := f + [Item(ops.getMap(d.value), None, None, Some(|f| + |c'|))];
        remap.AppendMap(ops.getMap(d.value), Some(s - 1));
        assert remap.maps == MapsOf(items[n..m]) + (MapsOf(f) + [ops.getMap(d.value)]);
        assert remap.mirror == MirrorsOf(items, n, m) + (RemadeMirrors(f, n, m) + [m - n + |f|, u - 1 - n]);
      }
    }
  }

  /** One item of the event: kept as a map, remapped, or just taken back. */
  method TakeBack<D, S, B>(ops: Ops<D, S, B>, items: Rope<Item<S, B>>, n: nat, u: nat, ghost m: nat,
          ghost preserve: bool, ghost doc: D, remap: Mapping?, s: int, c: seq<Item<S, B>>, f: seq<Item<S, B>>,
          current: D)
    returns (remap': Mapping?, s': int, c': seq<Item<S, B>>, f': seq<Item<S, B>>, current': D, ghost m': nat)
    requires items.Valid() && n < u <= items.Length() == |items.Flat()|
    requires Midway(ops, items.Flat(), n, u, m, preserve, doc, remap, s, c, f, current)
    modifies remap
    ensures Midway(ops, items.Flat(), n, u - 1, m', preserve, doc, remap', s', c', f', current')
    ensures remap' == remap || fresh(remap')
  {
    remap', s', c', f', current', m' := remap, s, c, f, current, m;
    GetIs(items, u - 1);
    var h := items.Get(u - 1).value;
    if h.step.None? {
      if remap' == null {
        remap' := Remapping(items, n, u);
        s' := |remap'.maps|;
      }
      StrippedNext(items.Flat(), u, m, c, h);
      s', c' := s' - 1, c + [h];
    } else if remap' != null {
      c', f', current' := RemapItem(ops, items.Flat(), n, u, m, preserve, doc, h, remap', s, c, f, current);
      s' := s - 1;
    } else {
      current' := Attempt(ops, h.step.value, current);
      UnwindNext(ops, items.Flat(), u, doc);
      m' := u - 1;
    }
  }

  lemma {:induction false} UnwindAppend<D, S, B>(ops: Ops<D, S, B>, a: seq<Item<S, B>>, b: seq<Item<S, B>>, doc: D)
    requires AllSteps(a) && AllSteps(b)
    ensures Unwind(ops, a + b, doc) == Unwind(ops, a, Unwind(ops, b, doc))
    decreases |b|
  {
    if b == [] {
      assert a + b == a;
    } else {
      assert (a + b)[..|a + b| - 1] == a + b[..|b| - 1];
      UnwindAppend(ops, a, b[..|b| - 1], Attempt(ops, b[|b| - 1].step.value, doc));
    }
  }

  lemma {:induction false} UnwindNext<D, S, B>(ops: Ops<D, S, B>, items: seq<Item<S, B>>, u: nat, doc: D)
    requires 0 < u <= |items| && AllSteps(items[u..]) && items[u - 1].step.Some?
    ensures AllSteps(items[u - 1..])
    ensures Unwind(ops, items[u - 1..], doc) == Attempt(ops, items[u - 1].step.value, Unwind(ops, items[u..], doc))
  {
    var one := [items[u - 1]];
    assert items[u - 1..] == one + items[u..];
    UnwindAppend(ops, one, items[u..], doc);
    assert one[..0] == [];
  }

  /** Puts what is kept of the event behind the items before it. */
  method Remainder<S, B>(b: Branch<S, B>, n: nat, added: seq<Item<S, B>>) returns (r: Branch<S, B>)
    requires b.items.Valid() && n <= |b.items.Flat()|
    ensures r.items.Valid() && r.items.Flat() == b.items.Flat()[..n] + added && r.eventCount == b.eventCount - 1
  {
    FieldsRight(b.items);
    SliceIs(b.items, 0, n);
    AppendIs(b.items.Slice(0, n), Leaf(added));
    r := Branch(b.items.Slice(0, n).Append(Leaf(added)), b.eventCount - 1);
  }

  method TakeBackAll<D, S, B>(ops: Ops<D, S, B>, items: Rope<Item<S, B>>, n: nat, doc: D, preserve: bool)
    returns (remap: Mapping?, s: int, c: seq<Item<S, B>>, f: seq<Item<S, B>>, current: D)
    requires items.Valid() && n < items.Length() == |items.Flat()|
    ensures var m := Remapped(items.Flat(), n, preserve);
      && Midway(ops, items.Flat(), n, n, m, preserve, doc, remap, s, c, f, current)
      && (remap == null <==> m == n)
  {
    ghost var flat := items.Flat();
    remap, s, c, f, current := null, 0, [], [], doc;
    if preserve {
      remap := Remapping(items, n, items.Length());
      s := |remap.maps|;
    }
    var u: nat := items.Length();
    ghost var m := u;
    assert flat[u..] == [];
    while u > n
      invariant n <= u && (remap == null || fresh(remap))
      invariant Midway(ops, flat, n, u, m, preserve, doc, remap, s, c, f, current)
      decreases u
    {
      remap, s, c, f, current, m := TakeBack(ops, items, n, u, m, preserve, doc, remap, s, c, f, current);
      u := u - 1;
    }
    OneEnd(flat, n, m, preserve);
  }

  /** Takes the newest event back; nothing if there is none. */
  method PopEvent<D, S, B>(ops: Ops<D, S, B>, b: Branch<S, B>, doc: D, preserve: bool)
    returns (r: Option<Popped<D, S, B>>)
    requires Consistent(b)
    ensures r.None? <==> b.eventCount == 0
    ensures r.Some? ==>
      && var left := r.value.remaining;
      && left.items.Valid() && left.eventCount == b.eventCount - 1
      && (left.items.Flat(), r.value.doc, r.value.selection) == TakenBack(ops, b.items.Flat(), doc, preserve)
  {
    if b.eventCount == 0 {
      return None;
    }
    var n := FindNewest(b.items);
    var remap, s, c, f, current := TakeBackAll(ops, b.items, n, doc, preserve);
    GetIs(b.items, n);
    var mark := b.items.Get(n).value.selection.value;
    var selection := if remap == null then mark else ops.mapMark(mark, View(remap.maps, remap.mirror, s));
    var remaining := Remainder(b, n, Reverse(c) + f);
    r := Some(Popped(remaining, current, selection));
  }
}
