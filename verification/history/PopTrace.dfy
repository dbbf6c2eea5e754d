/**
 * Taking back the newest event, item by item: which steps are tried on which document, what they
 * are mapped over, and what is left.
 */
module PopTraces {
  import opened Options
  import opened StepMaps
  import opened Branches
  import opened PopEvents

  /** The map that a remapped step made, and the item whose step it was. */
  datatype Extra = Extra(made: StepMap, of: nat)

  /**
   * How the event that begins with item `first` is taken back. Once the items from `first + i` on
   * are done, the document is `docs[i]`; for those in front of `end`, where remapping begins, the
   * maps made by then are `extras[i]`, and `views[i]` is what was mapped over next.
   */
  datatype Trace<D> = Trace(first: nat, end: nat, mirrored: seq<nat>, docs: seq<D>, extras: seq<seq<Extra>>,
    views: seq<View>)

  /** Pair `i` of a flat list of pairs. */
  predicate IsPair(pairs: seq<nat>, i: nat, a: int, b: int) {
    2 * i + 1 < |pairs| && pairs[2 * i] == a && pairs[2 * i + 1] == b
  }

  /** The map of the item has its mirror at item `n` or later. */
  predicate MirrorsBack<S, B>(item: Item<S, B>, k: int, n: nat) {
    item.mirrorOffset.Some? && k - item.mirrorOffset.value >= n
  }

  /** The items, in order, whose mirror lies among them as well, and the pairs that say so. */
  ghost predicate MirrorsAre<S, B>(items: seq<Item<S, B>>, n: nat, m: nat, at: seq<nat>, pairs: seq<nat>)
    requires n <= m <= |items|
  {
    && (forall i, j | 0 <= i < j < |at| :: at[i] < at[j])
    && (forall k | n <= k < m && MirrorsBack(items[k], k, n) :: k in at)
    && |pairs| == 2 * |at|
    && forall i | 0 <= i < |at| ::
         && n <= at[i] < m && MirrorsBack(items[at[i]], at[i], n)
         && IsPair(pairs, i, at[i] - n, at[i] - n - items[at[i]].mirrorOffset.value)
  }

  /** Each map made mirrors the map of its item. */
  predicate ExtrasMirror(n: nat, m: nat, extras: seq<Extra>, pairs: seq<nat>)
    requires n <= m
  {
    |pairs| == 2 * |extras| && forall j | 0 <= j < |extras| :: IsPair(pairs, j, m - n + j, extras[j].of - n)
  }

  /** The maps of the items, the maps made since, each the mirror of the map of its item; from one of them on. */
  ghost predicate ViewIs<S, B>(items: seq<Item<S, B>>, n: nat, m: nat, at: seq<nat>, extras: seq<Extra>, from: int,
          v: View)
    requires n <= m <= |items|
  {
    && v.from == from && |v.maps| == m - n + |extras| && |v.mirror| == 2 * |at| + 2 * |extras|
    && (forall i | 0 <= i < m - n :: v.maps[i] == items[n + i].stepMap)
    && MirrorsAre(items, n, m, at, v.mirror[..2 * |at|])
    && (forall j | 0 <= j < |extras| :: v.maps[m - n + j] == extras[j].made)
    && ExtrasMirror(n, m, extras, v.mirror[2 * |at|..])
  }

  predicate Sized<D, S, B>(items: seq<Item<S, B>>, t: Trace<D>) {
    && t.first <= t.end <= |items|
    && |t.docs| == |items| - t.first + 1 && |t.extras| == |t.views| == t.end - t.first + 1
  }

  /** The step that is tried for an item: its own, or where remapping is under way, mapped over all since. */
  function Tried<D, S, B>(ops: Ops<D, S, B>, items: seq<Item<S, B>>, t: Trace<D>, k: nat): Option<S>
    requires Sized(items, t) && t.first <= k < |items|
  {
    if items[k].step.None? || k >= t.end then items[k].step
    else ops.mapStep(items[k].step.value, t.views[k + 1 - t.first])
  }

  /** The step tried is applied if it can be; a remapped one leaves its map. */
  ghost predicate Done<D, S, B>(ops: Ops<D, S, B>, items: seq<Item<S, B>>, t: Trace<D>, k: nat)
    requires Sized(items, t) && t.first <= k < |items|
  {
    var i, d := k - t.first, Tried(ops, items, t, k);
    if d.Some? && ops.apply(d.value, t.docs[i + 1]).Some? then
      && ops.apply(d.value, t.docs[i + 1]) == Some(t.docs[i])
      && (k < t.end ==> t.extras[i] == t.extras[i + 1] + [Extra(ops.getMap(d.value), k)])
    else
      t.docs[i] == t.docs[i + 1] && (k < t.end ==> t.extras[i] == t.extras[i + 1])
  }

  /** The newest event is taken back; what is remapped reaches to the last item without a step, or to the end. */
  ghost predicate Follows<D, S, B>(ops: Ops<D, S, B>, items: seq<Item<S, B>>, doc: D, preserve: bool, t: Trace<D>) {
    && Sized(items, t) && t.first < |items|
    && items[t.first].selection.Some? && (forall k | t.first < k < |items| :: items[k].selection.None?)
    && (if preserve then t.end == |items| else
          && (forall k | t.end <= k < |items| :: items[k].step.Some?)
          && (t.end > t.first ==> items[t.end - 1].step.None?))
    && t.docs[|items| - t.first] == doc && t.extras[t.end - t.first] == []
    && (forall i | 0 <= i <= t.end - t.first ::
          ViewIs(items, t.first, t.end, t.mirrored, t.extras[i], i, t.views[i]))
    && forall k | t.first <= k < |items| :: Done(ops, items, t, k)
  }

  /** What is left: the items before the event, the maps of those remapped, and the maps made. */
  ghost predicate LeftIs<D, S, B>(items: seq<Item<S, B>>, t: Trace<D>, left: seq<Item<S, B>>)
    requires Sized(items, t)
  {
    var made := t.extras[0];
    && |left| == t.end + |made|
    && (forall k | 0 <= k < t.end ::
          left[k] == if k >= t.first && items[k].step.Some? then Item(items[k].stepMap, None, None, None) else items[k])
    && forall j | 0 <= j < |made| ::
         made[j].of <= t.end + j && left[t.end + j] == Item(made[j].made, None, None, Some(t.end + j - made[j].of))
  }

  // ----- taking back goes like this -----

  lemma {:induction false} PairKept(a: seq<nat>, b: seq<nat>, i: nat, x: int, y: int)
    requires IsPair(a, i, x, y)
    ensures IsPair(a + b, i, x, y)
  {
  }

  lemma {:induction false} PairBehind(a: seq<nat>, b: seq<nat>, c: nat, j: nat, x: int, y: int)
    requires |a| == 2 * c && IsPair(b, j, x, y)
    ensures IsPair(a + b, c + j, x, y)
  {
    assert 2 * (c + j) == |a| + 2 * j;
  }

  lemma {:induction false} MirrorsFound<S, B>(items: seq<Item<S, B>>, n: nat, m: nat) returns (at: seq<nat>)
    requires n <= m <= |items|
    ensures MirrorsAre(items, n, m, at, MirrorsOf(items, n, m))
    decreases m - n
  {
    if m == n {
      at := [];
    } else {
      at := MirrorsFound(items, n, m - 1);
      PairsMore(items, n, m, at, MirrorsOf(items, n, m - 1));
      if MirrorsBack(items[m - 1], m - 1, n) {
        at := at + [m - 1];
      } else {
        assert MirrorsOf(items, n, m) == MirrorsOf(items, n, m - 1);
      }
    }
  }

  lemma {:induction false} PairsMore<S, B>(items: seq<Item<S, B>>, n: nat, m: nat, at: seq<nat>, pairs: seq<nat>)
    requires n < m <= |items| && MirrorsAre(items, n, m - 1, at, pairs)
    ensures MirrorsBack(items[m - 1], m - 1, n) ==>
      MirrorsAre(items, n, m, at + [m - 1], pairs + [m - 1 - n, m - 1 - n - items[m - 1].mirrorOffset.value])
    ensures !MirrorsBack(items[m - 1], m - 1, n) ==> MirrorsAre(items, n, m, at, pairs)
  {
    if MirrorsBack(items[m - 1], m - 1, n) {
      var at', last := at + [m - 1], [m - 1 - n, m - 1 - n - items[m - 1].mirrorOffset.value];
      forall i | 0 <= i < |at'|
        ensures n <= at'[i] < m && MirrorsBack(items[at'[i]], at'[i], n)
        ensures IsPair(pairs + last, i, at'[i] - n, at'[i] - n - items[at'[i]].mirrorOffset.value)
      {
        if i < |at| {
          PairKept(pairs, last, i, at[i] - n, at[i] - n - items[at[i]].mirrorOffset.value);
        } else {
          PairBehind(pairs, last, |at|, 0, last[0], last[1]);
        }
      }
      LastIn(items, n, m, at);
    }
  }

  lemma {:induction false} LastIn<S, B>(items: seq<Item<S, B>>, n: nat, m: nat, at: seq<nat>)
    requires n < m <= |items| && forall k | n <= k < m - 1 && MirrorsBack(items[k], k, n) :: k in at
    ensures forall k | n <= k < m && MirrorsBack(items[k], k, n) :: k in at + [m - 1]
  {
    assert (at + [m - 1])[|at|] == m - 1;
  }

  /** The items made of the maps: each says how far back its mirror is. */
  ghost predicate ItemsAre<S, B>(m: nat, extras: seq<Extra>, f: seq<Item<S, B>>) {
    && |f| == |extras|
    && forall j | 0 <= j < |f| ::
         extras[j].of <= m + j && f[j] == Item(extras[j].made, None, None, Some(m + j - extras[j].of))
  }

  lemma {:induction false} RemadePairs<S, B>(f: seq<Item<S, B>>, n: nat, m: nat, extras: seq<Extra>)
    requires n <= m && ItemsAre(m, extras, f) && forall e | e in extras :: n <= e.of
    ensures ExtrasMirror(n, m, extras, RemadeMirrors(f, n, m))
  {
    if f != [] {
      var l := |f| - 1;
      assert extras[l] in extras;
      RemadePairs(f[..l], n, m, extras[..l]);
      PairsNext(RemadeMirrors(f[..l], n, m), n, m, extras[..l], extras[l]);
      assert extras == extras[..l] + [extras[l]];
    }
  }

  lemma {:induction false} PairsNext(pairs: seq<nat>, n: nat, m: nat, extras: seq<Extra>, e: Extra)
    requires n <= m && ExtrasMirror(n, m, extras, pairs) && n <= e.of
    ensures ExtrasMirror(n, m, extras + [e], pairs + [m - n + |extras|, e.of - n])
  {
    var l, last: seq<nat> := |extras|, [m - n + |extras|, e.of - n];
    forall j | 0 <= j < l + 1
      ensures IsPair(pairs + last, j, m - n + j, (extras + [e])[j].of - n)
    {
      if j < l {
        PairKept(pairs, last, j, m - n + j, extras[j].of - n);
      } else {
        PairBehind(pairs, last, l, 0, m - n + l, e.of - n);
      }
    }
  }

  lemma {:induction false} ViewFound<S, B>(items: seq<Item<S, B>>, n: nat, m: nat, at: seq<nat>, f: seq<Item<S, B>>,
          extras: seq<Extra>, from: int)
    requires n <= m <= |items| && MirrorsAre(items, n, m, at, MirrorsOf(items, n, m))
    requires ItemsAre(m, extras, f) && forall e | e in extras :: n <= e.of
    ensures ViewIs(items, n, m, at, extras, from, ViewFrom(items, n, m, f, from))
  {
    RemadePairs(f, n, m, extras);
    ViewOf(items, n, m, at, extras, from, MapsOf(items[n..m]), MapsOf(f), MirrorsOf(items, n, m),
      RemadeMirrors(f, n, m));
  }

  lemma {:induction false} ViewOf<S, B>(items: seq<Item<S, B>>, n: nat, m: nat, at: seq<nat>, extras: seq<Extra>,
          from: int, kept: seq<StepMap>, made: seq<StepMap>, first: seq<nat>, second: seq<nat>)
    requires n <= m <= |items| && |kept| == m - n && forall i | 0 <= i < m - n :: kept[i] == items[n + i].stepMap
    requires |made| == |extras| && forall j | 0 <= j < |extras| :: made[j] == extras[j].made
    requires MirrorsAre(items, n, m, at, first) && ExtrasMirror(n, m, extras, second)
    ensures ViewIs(items, n, m, at, extras, from, View(kept + made, first + second, from))
  {
    assert (first + second)[..2 * |at|] == first && (first + second)[2 * |at|..] == second;
  }

  /** The part of a trace behind the items that are remapped. */
  ghost predicate Unwinds<D, S, B>(ops: Ops<D, S, B>, items: seq<Item<S, B>>, doc: D, docs: seq<D>)
    requires AllSteps(items)
  {
    && |docs| == |items| + 1 && docs[|items|] == doc
    && forall i | 0 <= i < |items| ::
         docs[i] == var r := ops.apply(items[i].step.value, docs[i + 1]); if r.Some? then r.value else docs[i + 1]
  }

  lemma {:induction false} UnwindFound<D, S, B>(ops: Ops<D, S, B>, items: seq<Item<S, B>>, doc: D)
    returns (docs: seq<D>)
    requires AllSteps(items)
    ensures Unwinds(ops, items, doc, docs) && docs[0] == Unwind(ops, items, doc)
  {
    if items == [] {
      docs := [doc];
    } else {
      var l := |items| - 1;
      var r := ops.apply(items[l].step.value, doc);
      var before := UnwindFound(ops, items[..l], if r.Some? then r.value else doc);
      docs := before + [doc];
      assert docs[l] == before[l];
      forall i | 0 <= i < |items|
        ensures docs[i] == var r := ops.apply(items[i].step.value, docs[i + 1]);
                           if r.Some? then r.value else docs[i + 1]
      {
        if i < l {
          assert items[..l][i] == items[i];
        }
      }
    }
  }

  /** The part of a trace from item `u` up to where remapping begins, the lists starting with that item. */
  ghost predicate Remakes<D, S, B>(ops: Ops<D, S, B>, items: seq<Item<S, B>>, n: nat, m: nat, at: seq<nat>, u: nat,
          doc: D, docs: seq<D>, extras: seq<seq<Extra>>, views: seq<View>)
    requires n <= u <= m <= |items|
  {
    && |docs| == |extras| == |views| == m - u + 1 && docs[m - u] == doc && extras[m - u] == []
    && (forall i | 0 <= i < |views| :: ViewMade(items, n, m, at, u, extras, views, i))
    && forall i | 0 <= i < |views| - 1 :: RemakesOne(ops, items, u, docs, extras, views, i)
  }

  ghost predicate ViewMade<S, B>(items: seq<Item<S, B>>, n: nat, m: nat, at: seq<nat>, u: nat, extras: seq<seq<Extra>>,
          views: seq<View>, i: nat)
    requires n <= m <= |items| && i < |extras| == |views|
  {
    ViewIs(items, n, m, at, extras[i], u + i - n, views[i]) && forall e | e in extras[i] :: n <= e.of
  }

  ghost predicate RemakesOne<D, S, B>(ops: Ops<D, S, B>, items: seq<Item<S, B>>, u: nat, docs: seq<D>,
          extras: seq<seq<Extra>>, views: seq<View>, i: nat)
    requires i + 1 < |docs| == |extras| == |views| && u + i < |items|
  {
    OneMade(ops, items[u + i], u + i, views[i + 1], docs[i + 1], extras[i + 1], docs[i], extras[i])
  }

  /** The item is done: its step was mapped and applied, or nothing changed. */
  predicate OneMade<D(==), S, B>(ops: Ops<D, S, B>, item: Item<S, B>, k: nat, v: View, doc: D, extras: seq<Extra>,
          doc': D, extras': seq<Extra>)
  {
    var d := if item.step.None? then None else ops.mapStep(item.step.value, v);
    if d.Some? && ops.apply(d.value, doc).Some? then
      ops.apply(d.value, doc) == Some(doc') && extras' == extras + [Extra(ops.getMap(d.value), k)]
    else doc == doc' && extras == extras'
  }

  /** That part agrees with remaking the items from `u` on. */
  ghost predicate RemakesAs<D, S, B>(ops: Ops<D, S, B>, items: seq<Item<S, B>>, n: nat, m: nat, at: seq<nat>, u: nat,
          doc: D, made: (seq<Item<S, B>>, D), docs: seq<D>, extras: seq<seq<Extra>>, views: seq<View>)
    requires n <= u <= m <= |items|
  {
    && Remakes(ops, items, n, m, at, u, doc, docs, extras, views)
    && docs[0] == made.1 && ItemsAre(m, extras[0], made.0) && views[0] == ViewFrom(items, n, m, made.0, u - n)
  }

  lemma {:induction false} RemakeFound<D, S, B>(ops: Ops<D, S, B>, items: seq<Item<S, B>>, n: nat, m: nat, at: seq<nat>,
          u: nat, doc: D)
    returns (docs: seq<D>, extras: seq<seq<Extra>>, views: seq<View>)
    requires n <= u <= m <= |items| && MirrorsAre(items, n, m, at, MirrorsOf(items, n, m))
    ensures RemakesAs(ops, items, n, m, at, u, doc, RemakeAll(ops, items, n, m, u, doc), docs, extras, views)
    decreases m - u
  {
    if u == m {
      docs, extras, views := RemakeNone(ops, items, n, m, at, u, doc);
    } else {
      docs, extras, views := RemakeFound(ops, items, n, m, at, u + 1, doc);
      docs, extras, views :=
        RemakeMore(ops, items, n, m, at, u, RemakeAll(ops, items, n, m, u + 1, doc), doc, docs, extras, views);
    }
  }

  lemma {:induction false} RemakeNone<D, S, B>(ops: Ops<D, S, B>, items: seq<Item<S, B>>, n: nat, m: nat, at: seq<nat>,
          u: nat, doc: D)
    returns (docs: seq<D>, extras: seq<seq<Extra>>, views: seq<View>)
    requires n <= u == m <= |items| && MirrorsAre(items, n, m, at, MirrorsOf(items, n, m))
    ensures RemakesAs(ops, items, n, m, at, u, doc, ([], doc), docs, extras, views)
  {
    docs, extras, views := [doc], [[]], [ViewFrom(items, n, m, [], u - n)];
    ViewFound(items, n, m, at, [], [], u - n);
  }

  lemma {:induction false} RemakeMore<D, S, B>(ops: Ops<D, S, B>, items: seq<Item<S, B>>, n: nat, m: nat, at: seq<nat>,
          u: nat, made: (seq<Item<S, B>>, D), doc: D, docs: seq<D>, extras: seq<seq<Extra>>, views: seq<View>)
    returns (docs': seq<D>, extras': seq<seq<Extra>>, views': seq<View>)
    requires n <= u < m <= |items| && MirrorsAre(items, n, m, at, MirrorsOf(items, n, m))
    requires RemakesAs(ops, items, n, m, at, u + 1, doc, made, docs, extras, views)
    ensures RemakesAs(ops, items, n, m, at, u, doc, Remake(ops, items, n, m, u, made.0, made.1), docs', extras', views')
  {
    var f := made.0;
    var (f', after') := Remake(ops, items, n, m, u, f, docs[0]);
    var more := MadeMore(ops, items, n, m, u, f, docs[0], extras[0], views[0]);
    var v := ViewFrom(items, n, m, f', u - n);
    assert ViewMade(items, n, m, at, u + 1, extras, views, 0);
    ViewFound(items, n, m, at, f', more, u - n);
    docs', extras', views' := [after'] + docs, [more] + extras, [v] + views;
    RemakesMore(ops, items, n, m, at, u, doc, docs, extras, views, after', more, v);
  }

  lemma {:induction false} MadeMore<D, S, B>(ops: Ops<D, S, B>, items: seq<Item<S, B>>, n: nat, m: nat, u: nat,
          f: seq<Item<S, B>>, doc: D, extras: seq<Extra>, v: View)
    returns (more: seq<Extra>)
    requires n <= u < m <= |items| && ItemsAre(m, extras, f) && v == ViewFrom(items, n, m, f, u + 1 - n)
    ensures var (f', doc') := Remake(ops, items, n, m, u, f, doc);
      ItemsAre(m, more, f') && OneMade(ops, items[u], u, v, doc, extras, doc', more)
    ensures (forall e | e in extras :: n <= e.of) ==> forall e | e in more :: n <= e.of
  {
    var d := if items[u].step.None? then None else ops.mapStep(items[u].step.value, v);
    more := extras;
    if d.Some? && ops.apply(d.value, doc).Some? {
      more := extras + [Extra(ops.getMap(d.value), u)];
      assert forall e | e in more :: e in extras || e.of == u;
    }
  }

  lemma {:induction false} RemakesMore<D, S, B>(ops: Ops<D, S, B>, items: seq<Item<S, B>>, n: nat, m: nat, at: seq<nat>,
          u: nat, doc: D, docs: seq<D>, extras: seq<seq<Extra>>, views: seq<View>, next: D, more: seq<Extra>, v: View)
    requires n <= u < m <= |items| && Remakes(ops, items, n, m, at, u + 1, doc, docs, extras, views)
    requires OneMade(ops, items[u], u, views[0], docs[0], extras[0], next, more)
    requires ViewIs(items, n, m, at, more, u - n, v) && forall e | e in more :: n <= e.of
    ensures Remakes(ops, items, n, m, at, u, doc, [next] + docs, [more] + extras, [v] + views)
  {
    var docs', extras', views' := [next] + docs, [more] + extras, [v] + views;
    forall i | 0 <= i < |views'|
      ensures ViewMade(items, n, m, at, u, extras', views', i)
    {
      if i > 0 {
        assert ViewMade(items, n, m, at, u + 1, extras, views, i - 1);
      }
    }
    forall i | 0 <= i < |views'| - 1
      ensures RemakesOne(ops, items, u, docs', extras', views', i)
    {
      if i > 0 {
        assert RemakesOne(ops, items, u + 1, docs, extras, views, i - 1);
      }
    }
  }

  /**
   * Popping takes back exactly the newest event: every step of it that maps and applies, the last
   * first, and no other. What is left and what the selection is mapped over are as the trace says.
   */
  lemma {:induction false} PopFollows<D, S, B>(ops: Ops<D, S, B>, items: seq<Item<S, B>>, doc: D, preserve: bool)
    returns (t: Trace<D>)
    requires Events(items) > 0
    ensures Follows(ops, items, doc, preserve, t)
    ensures var (left, after, mark) := TakenBack(ops, items, doc, preserve);
      && LeftIs(items, t, left) && after == t.docs[0]
      && mark == var own := items[t.first].selection.value;
                 if t.end == t.first then own else ops.mapMark(own, t.views[0])
  {
    var n := LastEvent(items);
    var m := Remapped(items, n, preserve);
    var tail := UnwindFound(ops, items[m..], doc);
    var at := MirrorsFound(items, n, m);
    var docs, extras, views := RemakeFound(ops, items, n, m, at, n, Unwind(ops, items[m..], doc));
    t := Trace(n, m, at, docs + tail[1..], extras, views);
    TraceFollows(ops, items, doc, preserve, t, docs, tail);
    var (f, after) := RemakeAll(ops, items, n, m, n, Unwind(ops, items[m..], doc));
    KeptAre(items, t, f);
  }

  lemma {:induction false} KeptAre<D, S, B>(items: seq<Item<S, B>>, t: Trace<D>, f: seq<Item<S, B>>)
    requires Sized(items, t) && ItemsAre(t.end, t.extras[0], f)
    ensures LeftIs(items, t, items[..t.first] + (Stripped(items[t.first..t.end]) + f))
  {
    var kept := Stripped(items[t.first..t.end]);
    var left := items[..t.first] + (kept + f);
    assert forall k | t.first <= k < t.end :: left[k] == kept[k - t.first];
    assert forall j | 0 <= j < |f| :: left[t.end + j] == f[j];
  }

  lemma {:induction false} TraceFollows<D, S, B>(ops: Ops<D, S, B>, items: seq<Item<S, B>>, doc: D, preserve: bool,
          t: Trace<D>, docs: seq<D>, tail: seq<D>)
    requires IsNewest(items, t.first) && RemapsTo(items, t.first, t.end, preserve) && AllSteps(items[t.end..])
    requires Unwinds(ops, items[t.end..], doc, tail)
    requires Remakes(ops, items, t.first, t.end, t.mirrored, t.first, tail[0], docs, t.extras, t.views)
    requires t.docs == docs + tail[1..]
    ensures Follows(ops, items, doc, preserve, t)
  {
    var n, m := t.first, t.end;
    forall k | n <= k < |items|
      ensures Done(ops, items, t, k)
    {
      if k < m {
        assert RemakesOne(ops, items, n, docs, t.extras, t.views, k - n);
      } else {
        TailDone(ops, items, doc, t, docs, tail, k);
      }
    }
    forall i | 0 <= i <= m - n
      ensures ViewIs(items, n, m, t.mirrored, t.extras[i], i, t.views[i])
    {
      assert ViewMade(items, n, m, t.mirrored, n, t.extras, t.views, i);
    }
    assert forall k | m <= k < |items| :: items[m..][k - m] == items[k];
  }

  lemma {:induction false} TailDone<D, S, B>(ops: Ops<D, S, B>, items: seq<Item<S, B>>, doc: D, t: Trace<D>,
          docs: seq<D>, tail: seq<D>, k: nat)
    requires Sized(items, t) && AllSteps(items[t.end..]) && |docs| == t.end - t.first + 1
    requires Unwinds(ops, items[t.end..], doc, tail) && docs[t.end - t.first] == tail[0]
    requires t.docs == docs + tail[1..] && t.end <= k < |items|
    ensures Done(ops, items, t, k)
  {
    var i := k - t.end;
    assert items[t.end..][i] == items[k];
    assert t.docs[k - t.first] == tail[i] && t.docs[k - t.first + 1] == tail[i + 1];
  }

  // ----- the maps a step is mapped over lead from its document to the one it is tried on -----

  /** Each map is of a change that leads from one document to the next. */
  ghost predicate MapsLead<D(!new)>(isMap: (StepMap, D, D) -> bool, maps: seq<StepMap>, docs: seq<D>) {
    |docs| == |maps| + 1 && forall i | 0 <= i < |maps| :: isMap(maps[i], docs[i], docs[i + 1])
  }

  /** The map of a step is of the change it makes. */
  ghost predicate MapsRight<D(!new), S(!new), B>(ops: Ops<D, S, B>, isMap: (StepMap, D, D) -> bool) {
    forall s, x, y | ops.apply(s, x) == Some(y) :: isMap(ops.getMap(s), x, y)
  }

  /**
   * `before[i]` is the document before the change of item `first + i` was made, and the last the
   * one they all led to; the steps that are taken back without mapping lead back.
   */
  ghost predicate Was<D(!new), S, B>(ops: Ops<D, S, B>, isMap: (StepMap, D, D) -> bool, items: seq<Item<S, B>>,
          t: Trace<D>, before: seq<D>)
    requires Sized(items, t)
  {
    && |before| == |items| - t.first + 1 && before[|items| - t.first] == t.docs[|items| - t.first]
    && (forall k | t.first <= k < |items| :: isMap(items[k].stepMap, before[k - t.first], before[k + 1 - t.first]))
    && forall k | t.end <= k < |items| ::
         items[k].step.Some? && ops.apply(items[k].step.value, before[k + 1 - t.first]) == Some(before[k - t.first])
  }

  /** Taking back without mapping goes back through the documents there were. */
  lemma {:induction false} BackToEnd<D(!new), S(!new), B>(ops: Ops<D, S, B>, isMap: (StepMap, D, D) -> bool,
          items: seq<Item<S, B>>, doc: D, preserve: bool, t: Trace<D>, before: seq<D>, i: nat)
    requires Follows(ops, items, doc, preserve, t) && Was(ops, isMap, items, t, before)
    requires t.end - t.first <= i <= |items| - t.first
    ensures t.docs[i] == before[i]
    decreases |items| - i
  {
    if i < |items| - t.first {
      BackToEnd(ops, isMap, items, doc, preserve, t, before, i + 1);
      assert Done(ops, items, t, t.first + i);
    }
  }

  /** The maps made lead from the document where remapping began to the one there is now. */
  lemma {:induction false} ExtrasLead<D(!new), S(!new), B>(ops: Ops<D, S, B>, isMap: (StepMap, D, D) -> bool,
          items: seq<Item<S, B>>, doc: D, preserve: bool, t: Trace<D>, i: nat)
    returns (docs: seq<D>)
    requires Follows(ops, items, doc, preserve, t) && MapsRight(ops, isMap) && i <= t.end - t.first
    ensures |docs| == |t.extras[i]| + 1 && docs[0] == t.docs[t.end - t.first] && docs[|docs| - 1] == t.docs[i]
    ensures forall j | 0 <= j < |t.extras[i]| :: isMap(t.extras[i][j].made, docs[j], docs[j + 1])
    decreases t.end - t.first - i
  {
    if i == t.end - t.first {
      docs := [t.docs[i]];
    } else {
      docs := ExtrasLead(ops, isMap, items, doc, preserve, t, i + 1);
      assert Done(ops, items, t, t.first + i);
      if t.extras[i] != t.extras[i + 1] {
        docs := docs + [t.docs[i]];
      }
    }
  }

  /**
   * What the step of the item in front of `i` is mapped over leads from the document that this
   * step was made for, `before[i]`, to the one that it is tried on, `docs[i]`; and what the
   * selection is mapped over leads from the document it belongs to, to the one handed back.
   */
  lemma {:induction false} ViewLeads<D(!new), S(!new), B>(ops: Ops<D, S, B>, isMap: (StepMap, D, D) -> bool,
          items: seq<Item<S, B>>, doc: D, preserve: bool, t: Trace<D>, before: seq<D>, i: nat)
    returns (docs: seq<D>)
    requires Follows(ops, items, doc, preserve, t) && MapsRight(ops, isMap) && Was(ops, isMap, items, t, before)
    requires i <= t.end - t.first
    ensures t.views[i].from == i <= |t.views[i].maps| && MapsLead(isMap, t.views[i].maps[i..], docs)
    ensures docs[0] == before[i] && docs[|docs| - 1] == t.docs[i]
  {
    BackToEnd(ops, isMap, items, doc, preserve, t, before, t.end - t.first);
    var made := ExtrasLead(ops, isMap, items, doc, preserve, t, i);
    docs := before[i..t.end - t.first] + made;
    ViewJoins(isMap, items, t.first, t.end, t.mirrored, t.extras[i], i, t.views[i], before, made);
  }

  lemma {:induction false} ViewJoins<D(!new), S, B>(isMap: (StepMap, D, D) -> bool, items: seq<Item<S, B>>, n: nat,
          m: nat, at: seq<nat>, extras: seq<Extra>, i: nat, v: View, before: seq<D>, made: seq<D>)
    requires n <= m <= |items| && i <= m - n < |before| && ViewIs(items, n, m, at, extras, i, v)
    requires forall k | n <= k < m :: isMap(items[k].stepMap, before[k - n], before[k + 1 - n])
    requires |made| == |extras| + 1 && made[0] == before[m - n]
    requires forall j | 0 <= j < |extras| :: isMap(extras[j].made, made[j], made[j + 1])
    ensures v.from == i <= |v.maps| && MapsLead(isMap, v.maps[i..], before[i..m - n] + made)
  {
    var docs := before[i..m - n] + made;
    forall j | 0 <= j < |v.maps| - i
      ensures isMap(v.maps[i..][j], docs[j], docs[j + 1])
    {
      if i + j < m - n {
        var k := n + (i + j);
        assert isMap(items[k].stepMap, before[k - n], before[k + 1 - n]);
      } else {
        var l := i + j - (m - n);
        assert v.maps[m - n + l] == extras[l].made;
      }
    }
  }

  // ----- what undoing is for -----

  /** The changes of the items without a step, from item `k` on, made on another document. */
  function Others<D, S, B>(items: seq<Item<S, B>>, changes: seq<D -> D>, k: nat, x: D): D
    requires |changes| == |items| && k <= |items|
    decreases |items| - k
  {
    if k == |items| then x
    else Others(items, changes, k + 1, if items[k].step.None? then changes[k](x) else x)
  }

  /** The change of an item led from `x` to `y`: an own one can be taken back, another is what it is said to be. */
  predicate Changed<D(==), S, B>(ops: Ops<D, S, B>, item: Item<S, B>, change: D -> D, x: D, y: D) {
    if item.step.None? then y == change(x) else ops.apply(item.step.value, y) == Some(x)
  }

  /** The own changes can be taken back, the others are what they are said to be. */
  ghost predicate Made<D(!new), S, B>(ops: Ops<D, S, B>, items: seq<Item<S, B>>, changes: seq<D -> D>, t: Trace<D>,
          before: seq<D>)
    requires Sized(items, t) && |changes| == |items|
  {
    && |before| == |items| - t.first + 1 && before[|items| - t.first] == t.docs[|items| - t.first]
    && forall k | t.first <= k < |items| ::
         Changed(ops, items[k], changes[k], before[k - t.first], before[k + 1 - t.first])
  }

  /**
   * The step of item `k` maps, and commutes with the others' changes that came after it: mapped,
   * it does to a document with those changes what it did without them.
   */
  ghost predicate Commutes<D(!new), S, B>(ops: Ops<D, S, B>, items: seq<Item<S, B>>, changes: seq<D -> D>, t: Trace<D>,
          x: D, k: nat)
    requires Sized(items, t) && |changes| == |items| && t.first <= k < t.end && items[k].step.Some?
  {
    var s, d := items[k].step.value, ops.mapStep(items[k].step.value, t.views[k + 1 - t.first]);
    d.Some? && (ops.apply(s, x).Some? ==>
      var x', y' := Others(items, changes, k + 1, x), Others(items, changes, k + 1, ops.apply(s, x).value);
      ops.apply(d.value, x') == Some(y'))
  }

  /** Every own step maps and commutes with the others' changes that came after it. */
  ghost predicate Rebases<D(!new), S, B>(ops: Ops<D, S, B>, items: seq<Item<S, B>>, changes: seq<D -> D>, t: Trace<D>,
          before: seq<D>)
    requires Sized(items, t) && |changes| == |items|
  {
    && Made(ops, items, changes, t, before)
    && forall k | t.first <= k < t.end && items[k].step.Some? ::
         Commutes(ops, items, changes, t, before[k + 1 - t.first], k)
  }

  lemma {:induction false} NoOthers<D, S, B>(items: seq<Item<S, B>>, changes: seq<D -> D>, k: nat, x: D)
    requires |changes| == |items| && k <= |items| && forall i | k <= i < |items| :: items[i].step.Some?
    ensures Others(items, changes, k, x) == x
    decreases |items| - k
  {
    if k < |items| {
      NoOthers(items, changes, k + 1, x);
    }
  }

  /**
   * Undoing an event: the document is the one before the event, with the changes made that are not
   * to be undone. At any point on the way, that holds of what was taken back so far.
   */
  lemma {:induction false} OthersStay<D(!new), S(!new), B>(ops: Ops<D, S, B>, items: seq<Item<S, B>>,
          changes: seq<D -> D>, doc: D, preserve: bool, t: Trace<D>, before: seq<D>, k: nat)
    requires Follows(ops, items, doc, preserve, t) && |changes| == |items| && Rebases(ops, items, changes, t, before)
    requires t.first <= k <= |items|
    ensures t.docs[k - t.first] == Others(items, changes, k, before[k - t.first])
    decreases |items| - k
  {
    if k < |items| {
      OthersStay(ops, items, changes, doc, preserve, t, before, k + 1);
      ItemStays(ops, items, changes, t, before[k + 1 - t.first], before[k - t.first], k);
    }
  }

  lemma {:induction false} ItemStays<D(!new), S(!new), B>(ops: Ops<D, S, B>, items: seq<Item<S, B>>,
          changes: seq<D -> D>, t: Trace<D>, x: D, y: D, k: nat)
    requires Sized(items, t) && |changes| == |items| && t.first <= k < |items|
    requires Done(ops, items, t, k) && Changed(ops, items[k], changes[k], y, x)
    requires k < t.end && items[k].step.Some? ==> Commutes(ops, items, changes, t, x, k)
    requires forall i | t.end <= i < |items| :: items[i].step.Some?
    requires t.docs[k + 1 - t.first] == Others(items, changes, k + 1, x)
    ensures t.docs[k - t.first] == Others(items, changes, k, y)
  {
    if k >= t.end {
      NoOthers(items, changes, k, y);
      NoOthers(items, changes, k + 1, x);
    }
  }

  /** Undoing an event gives the document before it, with the changes that are not to be undone. */
  lemma {:induction false} UndoKeepsOthers<D(!new), S(!new), B>(ops: Ops<D, S, B>, items: seq<Item<S, B>>,
          changes: seq<D -> D>, doc: D, preserve: bool, before: seq<D>)
    returns (t: Trace<D>)
    requires Events(items) > 0 && |changes| == |items|
    requires forall t: Trace<D> | Follows(ops, items, doc, preserve, t) :: Rebases(ops, items, changes, t, before)
    ensures Follows(ops, items, doc, preserve, t) && before != []
    ensures TakenBack(ops, items, doc, preserve).1 == Others(items, changes, t.first, before[0])
  {
    t := PopFollows(ops, items, doc, preserve);
    OthersStay(ops, items, changes, doc, preserve, t, before, t.first);
  }
}
