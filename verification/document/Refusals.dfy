/** Why a replacement is refused: which of its two errors it gives. */
module Refusals {
  import opened Options
  import opened Document
  import opened Resolved
  import opened Replace
  import opened Splice
  import opened Joins

  ghost predicate NothingInvalid(rules: Rules) {
    forall t, ms :: rules.valid(t, ms)
  }

  ghost predicate NothingApart(rules: Rules) {
    forall a, b :: Compatible(rules, a, b)
  }

  /** Content that is not valid is a range error, types that do not join are a replace error. */
  ghost predicate Fitting<T>(rules: Rules, r: Outcome<T>) {
    (NothingInvalid(rules) ==> !r.RangeError?) && (NothingApart(rules) ==> !r.ReplaceError?)
  }

  lemma {:induction false} TwoWayFitting(rules: Rules, a: Pos, b: Pos)
    requires PosOk(a) && PosOk(b) && Depth(a) == Depth(b)
    ensures Fitting(rules, TwoWay(rules, a, b))
    decreases a
  {
    if a.In? {
      TwoWayFitting(rules, a.inner, b.inner);
    }
  }

  lemma {:induction false} SideFitting(rules: Rules, a: Pos, b: Pos, target: Fragment)
    requires PosOk(a) && PosOk(b) && Depth(a) == Depth(b)
    ensures Fitting(rules, JoinedSide(rules, a, b, target))
  {
    if a.In? {
      TwoWayFitting(rules, a.inner, b.inner);
    }
  }

  lemma {:induction false} ThreeWayFitting(rules: Rules, a: Pos, start: Pos, end: Pos, b: Pos)
    requires PosOk(a) && PosOk(start) && PosOk(end) && PosOk(b)
    requires Depth(a) == Depth(start) && Depth(end) == Depth(b)
    ensures Fitting(rules, ThreeWay(rules, a, start, end, b))
    decreases a
  {
    if a.In? && b.In? && start.index == end.index {
      ThreeWayFitting(rules, a.inner, start.inner, end.inner, b.inner);
    } else {
      var left := AddRange(None, Some(a), []);
      SideFitting(rules, a, start, left);
      if JoinedSide(rules, a, start, left).Done? {
        SideFitting(rules, end, b, AddRange(Some(start), Some(end), JoinedSide(rules, a, start, left).value));
      }
    }
  }

  lemma {:induction false} ContentFitting(rules: Rules, a: Pos, b: Pos, slice: Slice)
    requires PosOk(a) && PosOk(b) && a.node == b.node && SliceOk(slice)
    requires slice.openStart <= Depth(a) && Depth(a) - slice.openStart == Depth(b) - slice.openEnd
    ensures Fitting(rules, NewContent(rules, a, b, slice))
  {
    if Document.Size(slice.content) == 0 {
      NothingOpen(slice);
      TwoWayFitting(rules, a, b);
    } else {
      PreparedDepths(slice, a);
      var (start, end) := PrepareSlice(slice, a);
      ThreeWayFitting(rules, a, start, end, b);
    }
  }

  lemma {:induction false} OuterFitting(rules: Rules, a: Pos, b: Pos, slice: Slice)
    requires PosOk(a) && PosOk(b) && a.node == b.node && SliceOk(slice)
    requires slice.openStart <= Depth(a) && Depth(a) - slice.openStart == Depth(b) - slice.openEnd
    ensures Fitting(rules, ReplaceOuter(rules, a, b, slice))
    decreases a
  {
    if a.index == b.index && slice.openStart < Depth(a) {
      OuterFitting(rules, a.inner, b.inner, slice);
    } else {
      ContentFitting(rules, a, b, slice);
    }
  }

  /**
   * A position outside the document is a range error, and depths that do not agree are a replace
   * error. Past that, it takes invalid content for a range error and types that do not join for a
   * replace error.
   */
  lemma {:induction false} RefusalKind(rules: Rules, doc: Node, from: nat, end: nat, slice: Slice)
    requires doc.Elem? && NodeOk(doc) && SliceOk(slice)
    ensures var r, size := ReplaceNode(rules, doc, from, end, slice), Document.Size(doc.content);
      && (from > size || end > size ==> r.RangeError?)
      && (from <= size && end <= size && !DepthsOk(doc, from, end, slice) ==> r.ReplaceError?)
      && (DepthsOk(doc, from, end, slice) ==> Fitting(rules, r))
  {
    if DepthsOk(doc, from, end, slice) {
      OuterFitting(rules, Resolve(doc, from), Resolve(doc, end), slice);
    }
  }
}
