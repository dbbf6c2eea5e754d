/**
 * When a replacement succeeds. It is carried out under rules that refuse nothing; the real rules
 * let it through exactly when the types it joins are compatible, and the elements it closes
 * around the two ends of the new content are valid.
 */
module Joins {
  import opened Basics
  import opened Options
  import opened ContentExpr
  import opened Document
  import opened Resolved
  import opened Replace
  import opened JoinTokens
  import opened ThreeWayTokens
  import opened CutContent
  import opened Splice
  import opened Seams

  /** The markup of the elements around a position, outermost first. */
  function Path(r: Pos): (p: seq<Markup>)
    ensures |p| == Depth(r)
  {
    match r
    case At(_, _, _, _) => []
    case In(_, _, _, inner) => [inner.node.markup] + Path(inner)
  }

  /** Level by level, what is around the one position may be put behind what is around the other. */
  ghost predicate PathsCompatible(rules: Rules, main: seq<Markup>, sub: seq<Markup>) {
    && |main| == |sub|
    && forall i | 0 <= i < |main| :: Compatible(rules, sub[i].nodeType, main[i].nodeType)
  }

  lemma {:induction false} PathsCons(rules: Rules, m: Markup, main: seq<Markup>, s: Markup, sub: seq<Markup>)
    ensures PathsCompatible(rules, [m] + main, [s] + sub) <==>
            Compatible(rules, s.nodeType, m.nodeType) && PathsCompatible(rules, main, sub)
  {
    if PathsCompatible(rules, [m] + main, [s] + sub) {
      assert ([s] + sub)[0] == s && ([m] + main)[0] == m;
      forall i | 0 <= i < |main|
        ensures Compatible(rules, sub[i].nodeType, main[i].nodeType)
      {
        assert ([s] + sub)[i + 1] == sub[i] && ([m] + main)[i + 1] == main[i];
      }
    }
  }

  lemma {:induction false} PathsSame(rules: Rules, p: seq<Markup>)
    ensures PathsCompatible(rules, p, p)
  {
  }

  /** Every element has content that its type allows. */
  predicate AllValid(rules: Rules, n: Node) {
    n.Elem? ==> rules.valid(n.markup.nodeType, Markups(n.content)) && ChildrenValid(rules, n.content)
  }

  predicate ChildrenValid(rules: Rules, f: Fragment) {
    forall i | 0 <= i < |f| :: AllValid(rules, f[i])
  }

  /** Rules under which nothing is refused. */
  function Lenient(): Rules {
    Rules((t, ms) => true, t => {NodeType("")})
  }

  lemma {:induction false} LenientJoins(a: NodeType, b: NodeType)
    ensures Compatible(Lenient(), a, b)
  {
    assert NodeType("") in Lenient().first(a) * Lenient().first(b);
  }

  /** In a valid whole, all elements around any position are valid. */
  lemma {:induction false} ValidAround(rules: Rules, f: Fragment, p: nat, skip: nat)
    requires ChildrenValid(rules, f)
    ensures AroundValid(rules, f, p, skip)
    decreases f
  {
    if f != [] {
      assert AllValid(rules, f[0]);
      if p >= NodeSize(f[0]) {
        assert forall i | 0 <= i < |f[1..]| :: f[1..][i] == f[i + 1];
        ValidAround(rules, f[1..], p - NodeSize(f[0]), skip);
      } else if p > 0 && f[0].Elem? {
        ValidAround(rules, f[0].content, p - 1, if skip == 0 then skip else skip - 1);
      }
    }
  }

  // ----- two ways -----

  lemma {:induction false} TwoWayJoins(rules: Rules, a: Pos, b: Pos, p: nat)
    requires PosOk(a) && PosOk(b) && Depth(a) == Depth(b) && p == Offset(a)
    ensures var r0 := TwoWay(Lenient(), a, b);
      && r0.Done?
      && (TwoWay(rules, a, b).Done? <==> PathsCompatible(rules, Path(a), Path(b)) && SeamValid(rules, r0.value, p))
      && (TwoWay(rules, a, b).Done? ==> TwoWay(rules, a, b) == r0)
    decreases a
  {
    if a.At? {
      var left := AddRange(None, Some(a), []);
      LeftSize(a);
      AroundEnd(rules, left, p, 0);
      AddRangeAround(rules, Some(b), None, left, p, 0);
    } else {
      LenientJoins(b.inner.node.markup.nodeType, a.inner.node.markup.nodeType);
      TwoWayJoins(rules, a.inner, b.inner, Offset(a.inner));
      PathsCons(rules, a.inner.node.markup, Path(a.inner), b.inner.node.markup, Path(b.inner));
      TwoWayFits(a.inner, b.inner);
      SeamInRejoined(rules, a, b, TwoWay(Lenient(), a.inner, b.inner).value, Offset(a.inner), p);
    }
  }

  lemma {:induction false} TwoWayFits(a: Pos, b: Pos)
    requires PosOk(a) && PosOk(b) && Depth(a) == Depth(b)
    ensures var r0 := TwoWay(Lenient(), a, b); r0.Done? ==> Offset(a) <= Size(r0.value)
  {
    var r0 := TwoWay(Lenient(), a, b);
    TwoWayTokens(Lenient(), a, b);
    SidesMeet(a);
    if r0.Done? {
      TokensSize(r0.value);
    }
  }

  /** How far into the joined child on one side the position is. */
  function IntoSide(a: Pos): nat {
    if a.In? then 1 + Offset(a.inner) else 0
  }

  lemma {:induction false} JoinedSideJoins(rules: Rules, a: Pos, b: Pos, target: Fragment, p: nat)
    requires PosOk(a) && PosOk(b) && Depth(a) == Depth(b) && p == Size(target) + IntoSide(a)
    requires a.In? ==> Compatible(rules, b.inner.node.markup.nodeType, a.inner.node.markup.nodeType)
    ensures var r0 := JoinedSide(Lenient(), a, b, target);
      && r0.Done? && p <= Size(r0.value)
      && (JoinedSide(rules, a, b, target).Done? <==>
            PathsCompatible(rules, Path(a), Path(b)) && SeamValid(rules, r0.value, p))
      && (JoinedSide(rules, a, b, target).Done? ==> JoinedSide(rules, a, b, target) == r0)
  {
    if a.At? {
      AroundEnd(rules, target, p, 0);
    } else {
      TwoWayJoins(rules, a.inner, b.inner, Offset(a.inner));
      PathsCons(rules, a.inner.node.markup, Path(a.inner), b.inner.node.markup, Path(b.inner));
      TwoWayFits(a.inner, b.inner);
      var closed := Elem(a.inner.node.markup, TwoWay(Lenient(), a.inner, b.inner).value);
      SeamInLast(rules, closed, target, Offset(a.inner), p);
    }
  }

  /** What was there before the side was put in is as valid as it was. */
  lemma {:induction false} JoinedSideAround(rules: Rules, a: Pos, b: Pos, target: Fragment, p: nat)
    requires PosOk(a) && PosOk(b) && Depth(a) == Depth(b) && p <= Size(target)
    requires JoinedSide(Lenient(), a, b, target).Done?
    ensures SeamValid(rules, JoinedSide(Lenient(), a, b, target).value, p) <==> SeamValid(rules, target, p)
  {
    if a.In? {
      AddNodeAround(rules, Elem(a.inner.node.markup, TwoWay(Lenient(), a.inner, b.inner).value), target, p, 0);
    }
  }

  // ----- three ways -----

  /** The types joined on the left and on the right of the slice are compatible. */
  ghost predicate SidesCompatible(rules: Rules, a: Pos, start: Pos, end: Pos, b: Pos) {
    PathsCompatible(rules, Path(a), Path(start)) && PathsCompatible(rules, Path(end), Path(b))
  }

  lemma {:induction false} ThreeWayApart(rules: Rules, a: Pos, start: Pos, end: Pos, b: Pos)
    requires PosOk(a) && PosOk(start) && PosOk(end) && PosOk(b)
    requires Depth(a) == Depth(start) && Depth(end) == Depth(b)
    requires !(a.In? && b.In? && start.index == end.index)
    requires a.In? ==> Compatible(rules, start.inner.node.markup.nodeType, a.inner.node.markup.nodeType)
    requires b.In? ==> Compatible(rules, b.inner.node.markup.nodeType, end.inner.node.markup.nodeType)
    ensures ThreeWay(rules, a, start, end, b) == ApartSteps(rules, a, start, end, b)
  {
  }

  lemma {:induction false} LenientSide(a: Pos, b: Pos, target: Fragment)
    requires PosOk(a) && PosOk(b) && Depth(a) == Depth(b)
    ensures var r0 := JoinedSide(Lenient(), a, b, target);
      r0.Done? && Size(target) + IntoSide(a) <= Size(r0.value)
  {
    if a.In? { LenientJoins(b.inner.node.markup.nodeType, a.inner.node.markup.nodeType); }
    JoinedSideJoins(Lenient(), a, b, target, Size(target) + IntoSide(a));
  }

  /** The two ends of the slice in what the steps make of it. */
  lemma {:induction false} ApartEnds(a: Pos, start: Pos, end: Pos, b: Pos, p: nat, q: nat)
    requires PosOk(a) && PosOk(b) && Ends(start, end) && First(start) <= end.index
    requires Depth(a) == Depth(start) && Depth(end) == Depth(b) && SeamsAre(a, start, end, p, q)
    ensures JoinedSide(Lenient(), a, start, AddRange(None, Some(a), [])).Done?
    ensures var left := AddRange(None, Some(a), []);
      var joined := JoinedSide(Lenient(), a, start, left).value;
      && Size(left) + IntoSide(a) == p <= Size(joined)
      && Size(AddRange(Some(start), Some(end), joined)) + IntoSide(end) == q
  {
    var left := AddRange(None, Some(a), []);
    LenientSide(a, start, left);
    LeftSize(a);
    LeftSide(Lenient(), a, start);
    var joined := JoinedSide(Lenient(), a, start, left).value;
    AddMiddle(start, end, joined);
    TokensSize(AddRange(Some(start), Some(end), joined));
    MidApart(start, end);
    SidesMeet(a);
    SidesMeet(start);
    SidesMeet(end);
    if end.In? { SidesMeet(end.inner); }
  }

  lemma {:induction false} ApartJoins(rules: Rules, a: Pos, start: Pos, end: Pos, b: Pos, p: nat, q: nat)
    requires PosOk(a) && PosOk(b) && Ends(start, end) && First(start) <= end.index
    requires Depth(a) == Depth(start) && Depth(end) == Depth(b) && SeamsAre(a, start, end, p, q)
    requires a.In? ==> Compatible(rules, start.inner.node.markup.nodeType, a.inner.node.markup.nodeType)
    requires b.In? ==> Compatible(rules, b.inner.node.markup.nodeType, end.inner.node.markup.nodeType)
    ensures var r0 := ApartSteps(Lenient(), a, start, end, b);
      && r0.Done?
      && (ApartSteps(rules, a, start, end, b).Done? <==>
            && SidesCompatible(rules, a, start, end, b)
            && SeamValid(rules, r0.value, p) && SeamValid(rules, r0.value, q))
      && (ApartSteps(rules, a, start, end, b).Done? ==> ApartSteps(rules, a, start, end, b) == r0)
  {
    var left := AddRange(None, Some(a), []);
    ApartEnds(a, start, end, b, p, q);
    var joined := JoinedSide(Lenient(), a, start, left).value;
    var middle := AddRange(Some(start), Some(end), joined);
    LenientSide(end, b, middle);
    ApartSeams(rules, a, start, end, b, joined, middle, p, q);
    JoinedSideJoins(rules, a, start, left, p);
    JoinedSideJoins(rules, end, b, middle, q);
  }

  /** Each end is in the part that was put in for it, and what came later did not change that. */
  lemma {:induction false} ApartSeams(rules: Rules, a: Pos, start: Pos, end: Pos, b: Pos, joined: Fragment,
          middle: Fragment, p: nat, q: nat)
    requires PosOk(a) && PosOk(start) && PosOk(end) && PosOk(b)
    requires Depth(a) == Depth(start) && Depth(end) == Depth(b)
    requires middle == AddRange(Some(start), Some(end), joined)
    requires p <= Size(joined) && q == Size(middle) + IntoSide(end)
    requires JoinedSide(Lenient(), end, b, middle).Done?
    requires q <= Size(JoinedSide(Lenient(), end, b, middle).value)
    ensures var whole := JoinedSide(Lenient(), end, b, middle).value;
      var f := AddRange(Some(b), None, whole);
      && (SeamValid(rules, f, p) <==> SeamValid(rules, joined, p))
      && (SeamValid(rules, f, q) <==> SeamValid(rules, whole, q))
  {
    var whole := JoinedSide(Lenient(), end, b, middle).value;
    AddRangeAround(rules, Some(start), Some(end), joined, p, 0);
    JoinedSideAround(rules, end, b, middle, p);
    AddRangeAround(rules, Some(b), None, whole, p, 0);
    AddRangeAround(rules, Some(b), None, whole, q, 0);
  }

  /** Where the two ends of the slice are in the outcome. */
  predicate SeamsAre(a: Pos, start: Pos, end: Pos, p: nat, q: nat) {
    p == Offset(a) && Offset(start) <= Offset(end) && q == Offset(a) + (Offset(end) - Offset(start))
  }

  /**
   * A three-way join goes as it does when nothing is refused, if the types allow it and the
   * elements around the two ends `p` and `q` of the slice are valid then.
   */
  ghost predicate ThreeWayAsLenient(rules: Rules, a: Pos, start: Pos, end: Pos, b: Pos, p: nat, q: nat)
    requires PosOk(a) && PosOk(start) && PosOk(end) && PosOk(b)
    requires Depth(a) == Depth(start) && Depth(end) == Depth(b)
  {
    var r0, r := ThreeWay(Lenient(), a, start, end, b), ThreeWay(rules, a, start, end, b);
    && r0.Done?
    && (r.Done? <==>
          && SidesCompatible(rules, a, start, end, b)
          && SeamValid(rules, r0.value, p) && SeamValid(rules, r0.value, q))
    && (r.Done? ==> r == r0)
  }

  /** What it takes for both ends to be joined in one child. */
  lemma {:induction false} TogetherIff(rules: Rules, a: Pos, start: Pos, end: Pos, b: Pos)
    requires PosOk(a) && PosOk(b) && PosOk(start) && PosOk(end)
    requires Depth(a) == Depth(start) && Depth(end) == Depth(b)
    requires a.In? && b.In? && start.index == end.index && start.inner.node == end.inner.node
    ensures var r := ThreeWay(rules, a, start, end, b);
      var inner := ThreeWay(rules, a.inner, start.inner, end.inner, b.inner);
      && (r.Done? <==>
            && Compatible(rules, start.inner.node.markup.nodeType, a.inner.node.markup.nodeType)
            && Compatible(rules, b.inner.node.markup.nodeType, end.inner.node.markup.nodeType)
            && inner.Done? && rules.valid(a.inner.node.markup.nodeType, Markups(inner.value)))
      && (r.Done? ==> r.value == Rejoined(a, b, inner.value))
  {
  }

  lemma {:induction false} SidesCons(rules: Rules, a: Pos, start: Pos, end: Pos, b: Pos)
    requires a.In? && start.In? && end.In? && b.In?
    ensures SidesCompatible(rules, a, start, end, b) <==>
            && Compatible(rules, start.inner.node.markup.nodeType, a.inner.node.markup.nodeType)
            && Compatible(rules, b.inner.node.markup.nodeType, end.inner.node.markup.nodeType)
            && SidesCompatible(rules, a.inner, start.inner, end.inner, b.inner)
  {
    PathsCons(rules, a.inner.node.markup, Path(a.inner), start.inner.node.markup, Path(start.inner));
    PathsCons(rules, end.inner.node.markup, Path(end.inner), b.inner.node.markup, Path(b.inner));
  }

  lemma {:induction false} TogetherJoins(rules: Rules, a: Pos, start: Pos, end: Pos, b: Pos, content: Fragment, p: nat,
          q: nat, p': nat, q': nat)
    requires PosOk(a) && PosOk(b) && Ends(start, end)
    requires Depth(a) == Depth(start) && Depth(end) == Depth(b)
    requires a.In? && b.In? && start.index == end.index
    requires SeamsAre(a, start, end, p, q) && SeamsAre(a.inner, start.inner, end.inner, p', q')
    requires ThreeWay(Lenient(), a.inner, start.inner, end.inner, b.inner) == Done(content)
    requires ThreeWayAsLenient(rules, a.inner, start.inner, end.inner, b.inner, p', q')
    ensures ThreeWayAsLenient(rules, a, start, end, b, p, q)
  {
    LenientTogether(a, start, end, b);
    TogetherIff(rules, a, start, end, b);
    SidesCons(rules, a, start, end, b);
    TogetherFits(a.inner, start.inner, end.inner, b.inner, content, p', q');
    TogetherOffsets(a, start, end, p, q, p', q');
    SeamInRejoined(rules, a, b, content, p', p);
    SeamInRejoined(rules, a, b, content, q', q);
  }

  lemma {:induction false} TogetherOffsets(a: Pos, start: Pos, end: Pos, p: nat, q: nat, p': nat, q': nat)
    requires Ends(start, end) && start.In? && end.In? && a.In? && start.index == end.index
    requires SeamsAre(a, start, end, p, q) && SeamsAre(a.inner, start.inner, end.inner, p', q')
    ensures p == a.offset + 1 + p' && q == a.offset + 1 + q'
  {
  }

  lemma {:induction false} LenientTogether(a: Pos, start: Pos, end: Pos, b: Pos)
    requires PosOk(a) && PosOk(b) && Ends(start, end)
    requires Depth(a) == Depth(start) && Depth(end) == Depth(b)
    requires a.In? && b.In? && start.index == end.index
    requires ThreeWay(Lenient(), a.inner, start.inner, end.inner, b.inner).Done?
    ensures ThreeWay(Lenient(), a, start, end, b) ==
            Done(Rejoined(a, b, ThreeWay(Lenient(), a.inner, start.inner, end.inner, b.inner).value))
  {
    LenientJoins(start.inner.node.markup.nodeType, a.inner.node.markup.nodeType);
    LenientJoins(b.inner.node.markup.nodeType, end.inner.node.markup.nodeType);
    TogetherIff(Lenient(), a, start, end, b);
  }

  lemma {:induction false} TogetherFits(a: Pos, start: Pos, end: Pos, b: Pos, content: Fragment, p: nat, q: nat)
    requires PosOk(a) && PosOk(b) && Ends(start, end) && SeamsAre(a, start, end, p, q)
    requires Depth(a) == Depth(start) && Depth(end) == Depth(b)
    requires ThreeWay(Lenient(), a, start, end, b) == Done(content)
    ensures p <= q <= Size(content)
  {
    ThreeWaySplice(Lenient(), a, start, end, b);
    TokensSize(content);
    SidesMeet(a);
    SidesMeet(end);
  }

  lemma {:induction false} OutJoins(rules: Rules, a: Pos, start: Pos, end: Pos, b: Pos, p: nat, q: nat)
    requires PosOk(a) && PosOk(b) && Ends(start, end) && SeamsAre(a, start, end, p, q)
    requires Depth(a) == Depth(start) && Depth(end) == Depth(b)
    requires !(a.In? && b.In? && start.index == end.index)
    ensures ThreeWayAsLenient(rules, a, start, end, b, p, q)
  {
    NotCompatible(rules, a, start, end, b);
    LenientApart(a, start, end, b, p, q);
    if (a.In? ==> Compatible(rules, start.inner.node.markup.nodeType, a.inner.node.markup.nodeType)) &&
       (b.In? ==> Compatible(rules, b.inner.node.markup.nodeType, end.inner.node.markup.nodeType)) {
      ThreeWayApart(rules, a, start, end, b);
      ApartJoins(rules, a, start, end, b, p, q);
    }
  }

  lemma {:induction false} ThreeWayJoins(rules: Rules, a: Pos, start: Pos, end: Pos, b: Pos, p: nat, q: nat)
    requires PosOk(a) && PosOk(b) && Ends(start, end) && SeamsAre(a, start, end, p, q)
    requires Depth(a) == Depth(start) && Depth(end) == Depth(b)
    ensures ThreeWayAsLenient(rules, a, start, end, b, p, q)
    decreases a
  {
    if a.In? && b.In? && start.index == end.index {
      EndsInOrder(start.inner, end.inner);
      var p', q' := Offset(a.inner), Offset(a.inner) + (Offset(end.inner) - Offset(start.inner));
      ThreeWayJoins(rules, a.inner, start.inner, end.inner, b.inner, p', q');
      var content := ThreeWay(Lenient(), a.inner, start.inner, end.inner, b.inner).value;
      TogetherJoins(rules, a, start, end, b, content, p, q, p', q');
    } else {
      OutJoins(rules, a, start, end, b, p, q);
    }
  }

  /** A side that starts with incompatible types is refused at once. */
  lemma {:induction false} NotCompatible(rules: Rules, a: Pos, start: Pos, end: Pos, b: Pos)
    requires PosOk(a) && PosOk(start) && PosOk(end) && PosOk(b)
    requires Depth(a) == Depth(start) && Depth(end) == Depth(b)
    ensures a.In? && !Compatible(rules, start.inner.node.markup.nodeType, a.inner.node.markup.nodeType) ==>
              !ThreeWay(rules, a, start, end, b).Done? && !PathsCompatible(rules, Path(a), Path(start))
    ensures b.In? && !Compatible(rules, b.inner.node.markup.nodeType, end.inner.node.markup.nodeType) ==>
              !ThreeWay(rules, a, start, end, b).Done? && !PathsCompatible(rules, Path(end), Path(b))
  {
    if a.In? {
      PathsCons(rules, a.inner.node.markup, Path(a.inner), start.inner.node.markup, Path(start.inner));
    }
    if b.In? {
      PathsCons(rules, end.inner.node.markup, Path(end.inner), b.inner.node.markup, Path(b.inner));
    }
  }

  lemma {:induction false} LenientApart(a: Pos, start: Pos, end: Pos, b: Pos, p: nat, q: nat)
    requires PosOk(a) && PosOk(b) && Ends(start, end) && SeamsAre(a, start, end, p, q)
    requires Depth(a) == Depth(start) && Depth(end) == Depth(b)
    requires !(a.In? && b.In? && start.index == end.index)
    ensures ThreeWay(Lenient(), a, start, end, b) == ApartSteps(Lenient(), a, start, end, b)
    ensures ThreeWay(Lenient(), a, start, end, b).Done?
  {
    if a.In? { LenientJoins(start.inner.node.markup.nodeType, a.inner.node.markup.nodeType); }
    if b.In? { LenientJoins(b.inner.node.markup.nodeType, end.inner.node.markup.nodeType); }
    ThreeWayApart(Lenient(), a, start, end, b);
    ApartJoins(Lenient(), a, start, end, b, p, q);
  }

  // ----- the whole replacement -----

  /** The markup along the slice's open sides. */
  function LeftPath(f: Fragment, k: nat): (p: seq<Markup>)
    requires OpensLeft(f, k)
    ensures |p| == k
    decreases k
  {
    if k == 0 then [] else [f[0].markup] + LeftPath(f[0].content, k - 1)
  }

  function RightPath(f: Fragment, k: nat): (p: seq<Markup>)
    requires OpensRight(f, k)
    ensures |p| == k
    decreases k
  {
    if k == 0 then [] else [f[|f| - 1].markup] + RightPath(f[|f| - 1].content, k - 1)
  }

  /** The elements around the start of the slice, once it is put inside of those in `p`; and around its end. */
  function StartPath(p: seq<Markup>, slice: Slice): seq<Markup>
    requires SliceOk(slice) && slice.openStart <= |p|
  {
    p[..|p| - slice.openStart] + LeftPath(slice.content, slice.openStart)
  }

  function EndPath(p: seq<Markup>, slice: Slice): seq<Markup>
    requires SliceOk(slice) && slice.openStart <= |p|
  {
    p[..|p| - slice.openStart] + RightPath(slice.content, slice.openEnd)
  }

  lemma {:induction false} LeadingPath(r: Pos)
    requires Leading(r)
    ensures OpensLeft(r.node.content, Depth(r)) && Path(r) == LeftPath(r.node.content, Depth(r))
    decreases r
  {
    if r.In? {
      LeadingPath(r.inner);
    }
  }

  lemma {:induction false} TrailingPath(r: Pos)
    requires Trailing(r)
    ensures OpensRight(r.node.content, Depth(r)) && Path(r) == RightPath(r.node.content, Depth(r))
    decreases r
  {
    if r.In? {
      TrailingPath(r.inner);
    }
  }

  lemma {:induction false} WrapPaths(slice: Slice, along: Pos, k: nat)
    requires SliceOk(slice) && k <= Depth(along)
    ensures var f := Wrap(slice, along, k).content;
      && OpensLeft(f, k + slice.openStart) && OpensRight(f, k + slice.openEnd)
      && LeftPath(f, k + slice.openStart) == Path(along)[..k] + LeftPath(slice.content, slice.openStart)
      && RightPath(f, k + slice.openEnd) == Path(along)[..k] + RightPath(slice.content, slice.openEnd)
    decreases k
  {
    if k == 0 {
      assert [] + LeftPath(slice.content, slice.openStart) == LeftPath(slice.content, slice.openStart);
      assert [] + RightPath(slice.content, slice.openEnd) == RightPath(slice.content, slice.openEnd);
    } else {
      WrapPaths(slice, along.inner, k - 1);
      var m := [along.inner.node.markup];
      assert Path(along)[..k] == m + Path(along.inner)[..k - 1];
      Assoc(m, Path(along.inner)[..k - 1], LeftPath(slice.content, slice.openStart));
      Assoc(m, Path(along.inner)[..k - 1], RightPath(slice.content, slice.openEnd));
    }
  }

  lemma {:induction false} LeadingInWrap(slice: Slice, a: Pos, start: Pos)
    requires SliceOk(slice) && slice.openStart <= Depth(a)
    requires Leading(start) && Depth(start) == Depth(a) && start.node == Wrap(slice, a, Depth(a) - slice.openStart)
    ensures Path(start) == StartPath(Path(a), slice)
  {
    LeadingPath(start);
    WrapPaths(slice, a, Depth(a) - slice.openStart);
    assert |Path(a)| == Depth(a);
  }

  lemma {:induction false} TrailingInWrap(slice: Slice, a: Pos, end: Pos)
    requires SliceOk(slice) && slice.openStart <= Depth(a)
    requires Trailing(end) && Depth(end) == Depth(a) - slice.openStart + slice.openEnd
    requires end.node == Wrap(slice, a, Depth(a) - slice.openStart)
    ensures Path(end) == EndPath(Path(a), slice)
  {
    TrailingPath(end);
    WrapPaths(slice, a, Depth(a) - slice.openStart);
    assert |Path(a)| == Depth(a);
  }

  lemma {:induction false} PreparedPaths(slice: Slice, a: Pos, start: Pos, end: Pos)
    requires SliceOk(slice) && slice.openStart <= Depth(a)
    requires start == PrepareSlice(slice, a).0 && end == PrepareSlice(slice, a).1
    requires Leading(start) && Depth(start) == Depth(a)
    requires Trailing(end) && Depth(end) == Depth(a) - slice.openStart + slice.openEnd
    ensures |Path(a)| == Depth(a)
    ensures Path(start) == StartPath(Path(a), slice)
    ensures Path(end) == EndPath(Path(a), slice)
  {
    PreparedNodes(slice, a);
    LeadingInWrap(slice, a, start);
    TrailingInWrap(slice, a, end);
  }

  /** Everything the replacement joins is compatible: left of the slice, and right of it. */
  ghost predicate JoinsOk(rules: Rules, p: seq<Markup>, q: seq<Markup>, slice: Slice)
    requires SliceOk(slice) && slice.openStart <= |p|
  {
    PathsCompatible(rules, p, StartPath(p, slice)) && PathsCompatible(rules, EndPath(p, slice), q)
  }

  /** The new content goes as it does when nothing is refused, if the types and the elements around it allow it. */
  ghost predicate ContentAsLenient(rules: Rules, a: Pos, b: Pos, slice: Slice, p: nat, q: nat)
    requires PosOk(a) && PosOk(b) && a.node == b.node && SliceOk(slice)
    requires slice.openStart <= Depth(a) && Depth(a) - slice.openStart == Depth(b) - slice.openEnd
  {
    var r0, r := NewContent(Lenient(), a, b, slice), NewContent(rules, a, b, slice);
    && r0.Done?
    && (r.Done? <==>
          && JoinsOk(rules, Path(a), Path(b), slice)
          && SeamValid(rules, r0.value, p) && SeamValid(rules, r0.value, q))
    && (r.Done? ==> r == r0)
  }

  lemma {:induction false} NewContentJoins(rules: Rules, a: Pos, b: Pos, slice: Slice, p: nat, q: nat)
    requires PosOk(a) && PosOk(b) && a.node == b.node && SliceOk(slice) && NodeOk(a.node)
    requires slice.openStart <= Depth(a) && Depth(a) - slice.openStart == Depth(b) - slice.openEnd
    requires p == Offset(a) && q == p + slice.Size()
    ensures ContentAsLenient(rules, a, b, slice, p, q)
  {
    if Document.Size(slice.content) == 0 {
      EmptyJoins(rules, a, b, slice, p, q);
    } else if slice.openStart == 0 && slice.openEnd == 0 && a.At? && b.At? {
      FlatJoins(rules, a, b, slice, p, q);
    } else {
      OpenJoins(rules, a, b, slice, p, q);
    }
  }

  lemma {:induction false} FlatJoins(rules: Rules, a: Pos, b: Pos, slice: Slice, p: nat, q: nat)
    requires PosOk(a) && PosOk(b) && a.node == b.node && SliceOk(slice) && NodeOk(a.node)
    requires slice.openStart == 0 && slice.openEnd == 0 && a.At? && b.At? && Document.Size(slice.content) != 0
    requires p == Offset(a) && q == p + slice.Size()
    ensures ContentAsLenient(rules, a, b, slice, p, q)
  {
    ClosedSlicePaths(Path(a), slice);
    FlatSeams(rules, a, b, slice.content, p, q);
  }

  lemma {:induction false} EmptyJoins(rules: Rules, a: Pos, b: Pos, slice: Slice, p: nat, q: nat)
    requires PosOk(a) && PosOk(b) && a.node == b.node && SliceOk(slice)
    requires slice.openStart <= Depth(a) && Depth(a) - slice.openStart == Depth(b) - slice.openEnd
    requires Document.Size(slice.content) == 0 && p == Offset(a) && q == p + slice.Size()
    ensures ContentAsLenient(rules, a, b, slice, p, q)
  {
    NothingOpen(slice);
    TwoWayJoins(rules, a, b, p);
    TwoWayJoins(rules, a, b, q);
    ClosedSlicePaths(Path(a), slice);
    PathsSame(rules, Path(a));
  }

  lemma {:induction false} OpenJoins(rules: Rules, a: Pos, b: Pos, slice: Slice, p: nat, q: nat)
    requires PosOk(a) && PosOk(b) && a.node == b.node && SliceOk(slice)
    requires slice.openStart <= Depth(a) && Depth(a) - slice.openStart == Depth(b) - slice.openEnd
    requires Document.Size(slice.content) != 0 && !(slice.openStart == 0 && slice.openEnd == 0 && a.At? && b.At?)
    requires p == Offset(a) && q == p + slice.Size()
    ensures ContentAsLenient(rules, a, b, slice, p, q)
  {
    PreparedDepths(slice, a);
    var (start, end) := PrepareSlice(slice, a);
    PreparedSides(rules, slice, a, start, end, b);
    OpenContent(rules, a, b, slice, start, end);
    OpenContent(Lenient(), a, b, slice, start, end);
    EndsInOrder(start, end);
    ThreeWayJoins(rules, a, start, end, b, p, q);
  }

  lemma {:induction false} PreparedSides(rules: Rules, slice: Slice, a: Pos, start: Pos, end: Pos, b: Pos)
    requires SliceOk(slice) && slice.openStart <= Depth(a)
    requires (start, end) == PrepareSlice(slice, a)
    requires Ends(start, end) && Depth(start) == Depth(a)
    requires Depth(end) == Depth(a) - slice.openStart + slice.openEnd
    ensures SidesCompatible(rules, a, start, end, b) <==> JoinsOk(rules, Path(a), Path(b), slice)
    ensures Offset(end) - Offset(start) == slice.Size()
  {
    PreparedOffsets(slice, a);
    PreparedPaths(slice, a, start, end);
  }

  /** Flat content has no elements around its ends. */
  lemma {:induction false} FlatSeams(rules: Rules, a: Pos, b: Pos, content: Fragment, p: nat, q: nat)
    requires PosOk(a) && a.At? && PosOk(b) && b.At? && NodeOk(a.node)
    requires p == Offset(a) && q == p + Document.Size(content)
    ensures var f := FlatContent(a.node.content, a.parentOffset, b.parentOffset, content);
      SeamValid(rules, f, p) && SeamValid(rules, f, q)
  {
    var front := Cut(a.node.content, 0, a.parentOffset);
    var last := Cut(a.node.content, b.parentOffset, Document.Size(a.node.content));
    FlatCutLeft(a);
    TokensSize(front);
    SidesMeet(a);
    var both := Append(front, content);
    AppendTokens(front, content);
    TokensSize(content);
    TokensSize(both);
    AroundEnd(rules, front, p, 0);
    AppendAround(rules, front, content, p, 0);
    AroundEnd(rules, both, q, 0);
    AppendAround(rules, both, last, p, 0);
    AppendAround(rules, both, last, q, 0);
  }

  lemma {:induction false} ClosedSlicePaths(p: seq<Markup>, slice: Slice)
    requires SliceOk(slice) && slice.openStart == 0 && slice.openEnd == 0
    ensures StartPath(p, slice) == p && EndPath(p, slice) == p
  {
    assert p[..|p|] == p && p + [] == p;
  }

  /** Where both positions are in the same child, nothing is joined at this level. */
  lemma {:induction false} SharedLevel(rules: Rules, a: Pos, b: Pos, slice: Slice)
    requires PosOk(a) && PosOk(b) && a.node == b.node && SliceOk(slice)
    requires a.index == b.index && slice.openStart < Depth(a) && b.In?
    ensures JoinsOk(rules, Path(a), Path(b), slice) <==> JoinsOk(rules, Path(a.inner), Path(b.inner), slice)
  {
    var m := a.inner.node.markup;
    var k := Depth(a) - slice.openStart;
    assert Path(a)[..k] == [m] + Path(a.inner)[..k - 1];
    Assoc([m], Path(a.inner)[..k - 1], LeftPath(slice.content, slice.openStart));
    Assoc([m], Path(a.inner)[..k - 1], RightPath(slice.content, slice.openEnd));
    PathsCons(rules, m, Path(a.inner), m, StartPath(Path(a.inner), slice));
    PathsCons(rules, m, EndPath(Path(a.inner), slice), m, Path(b.inner));
  }

  /** How many elements around both positions are kept as they are, outside of the one where content is joined. */
  function Untouched(a: Pos, b: Pos, slice: Slice): nat
    decreases a
  {
    if a.In? && b.In? && a.index == b.index && slice.openStart < Depth(a) then 1 + Untouched(a.inner, b.inner, slice)
    else 0
  }

  /**
   * As far as both positions are in the same children, and no deeper than to where the open side
   * of the slice begins.
   */
  lemma {:induction false} UntouchedIs(a: Pos, b: Pos, slice: Slice)
    requires slice.openStart <= Depth(a) && Depth(a) - slice.openStart == Depth(b) - slice.openEnd
    ensures var u := Untouched(a, b, slice);
      && u + slice.openStart <= Depth(a) && u + slice.openEnd <= Depth(b)
      && (forall i | 0 <= i < u :: LevelAt(a, i).index == LevelAt(b, i).index)
      && (u + slice.openStart < Depth(a) ==> LevelAt(a, u).index != LevelAt(b, u).index)
    decreases a
  {
    var u := Untouched(a, b, slice);
    if u > 0 {
      UntouchedIs(a.inner, b.inner, slice);
      forall i | 0 <= i < u
        ensures LevelAt(a, i).index == LevelAt(b, i).index
      {
        if i > 0 {
          assert LevelAt(a, i) == LevelAt(a.inner, i - 1) && LevelAt(b, i) == LevelAt(b.inner, i - 1);
        }
      }
      assert u + slice.openStart < Depth(a) ==>
        LevelAt(a, u) == LevelAt(a.inner, u - 1) && LevelAt(b, u) == LevelAt(b.inner, u - 1);
    }
  }

  /** All elements around `p` or `q` in the content of `n` are valid, and `n` itself, but for the `skip` outermost. */
  predicate ClosedValid(rules: Rules, n: Node, p: nat, q: nat, skip: nat) {
    AroundValid(rules, [n], p + 1, skip) && AroundValid(rules, [n], q + 1, skip)
  }

  /**
   * Under `rules` all goes as it does when nothing is refused, if the types to be joined allow it
   * and the elements closed around the ends of the new content are valid.
   */
  ghost predicate GoesAsLenient(rules: Rules, a: Pos, b: Pos, slice: Slice, p: nat, q: nat, skip: nat)
    requires PosOk(a) && PosOk(b) && a.node == b.node && SliceOk(slice)
    requires slice.openStart <= Depth(a) && Depth(a) - slice.openStart == Depth(b) - slice.openEnd
  {
    var r0, r := ReplaceOuter(Lenient(), a, b, slice), ReplaceOuter(rules, a, b, slice);
    && r0.Done?
    && (r.Done? <==> JoinsOk(rules, Path(a), Path(b), slice) && ClosedValid(rules, r0.value, p, q, skip))
    && (r.Done? ==> r == r0)
  }

  /** The ends of the new content lie in the outcome. */
  lemma {:induction false} OuterFits(rules: Rules, a: Pos, b: Pos, slice: Slice, n: Node, q: nat)
    requires PosOk(a) && PosOk(b) && a.node == b.node && SliceOk(slice) && NodeOk(a.node)
    requires slice.openStart <= Depth(a) && Depth(a) - slice.openStart == Depth(b) - slice.openEnd
    requires ReplaceOuter(rules, a, b, slice) == Done(n) && q == Offset(a) + slice.Size()
    ensures n.Elem? && q <= Document.Size(n.content)
  {
    OuterSplice(rules, a, b, slice);
    SidesMeet(a);
    TokensSize(n.content);
  }

  lemma {:induction false} SharedJoins(rules: Rules, a: Pos, b: Pos, slice: Slice, p: nat, q: nat, skip: nat, p': nat,
          q': nat, skip': nat)
    requires PosOk(a) && PosOk(b) && a.node == b.node && SliceOk(slice) && NodeOk(a.node)
    requires slice.openStart <= Depth(a) && Depth(a) - slice.openStart == Depth(b) - slice.openEnd
    requires a.index == b.index && slice.openStart < Depth(a)
    requires p' == Offset(a.inner) && p' <= q' == p' + slice.Size()
    requires p == a.offset + 1 + p' && q == a.offset + 1 + q' && skip == skip' + 1
    requires GoesAsLenient(rules, a.inner, b.inner, slice, p', q', skip')
    ensures GoesAsLenient(rules, a, b, slice, p, q, skip)
  {
    SharedLevel(rules, a, b, slice);
    var child := ReplaceOuter(Lenient(), a.inner, b.inner, slice).value;
    assert NodeOk(a.node.content[a.index]);
    OuterFits(Lenient(), a.inner, b.inner, slice, child, q');
    SharedIs(rules, a, b, slice);
    SharedIs(Lenient(), a, b, slice);
    SharedAround(rules, a, child, p', skip', p, skip);
    SharedAround(rules, a, child, q', skip', q, skip);
  }

  lemma {:induction false} SharedAround(rules: Rules, a: Pos, child: Node, p: nat, skip: nat, at: nat, more: nat)
    requires PosOk(a) && a.In? && child.Elem? && p <= Document.Size(child.content)
    requires at == a.offset + 1 + p && more == skip + 1
    ensures AroundValid(rules, [WithChild(a, child)], at + 1, more) <==> AroundValid(rules, [child], p + 1, skip)
  {
    var f := a.node.content[a.index := child];
    assert f[..a.index] == a.node.content[..a.index];
    TokensAround(f, a.index);
    AroundElem(rules, WithChild(a, child), at, more);
    AroundAtChild(rules, f, a.index, p, skip);
  }

  lemma {:induction false} InnermostJoins(rules: Rules, a: Pos, b: Pos, slice: Slice, p: nat, q: nat, skip: nat)
    requires PosOk(a) && PosOk(b) && a.node == b.node && SliceOk(slice) && NodeOk(a.node)
    requires slice.openStart <= Depth(a) && Depth(a) - slice.openStart == Depth(b) - slice.openEnd
    requires !(a.index == b.index && slice.openStart < Depth(a))
    requires p == Offset(a) && p <= q == p + slice.Size() && skip == 0
    ensures GoesAsLenient(rules, a, b, slice, p, q, skip)
  {
    NewContentJoins(rules, a, b, slice, p, q);
    InnermostIs(rules, a, b, slice);
    InnermostIs(Lenient(), a, b, slice);
    var n := ReplaceOuter(Lenient(), a, b, slice).value;
    OuterFits(Lenient(), a, b, slice, n, q);
    NothingSkipped(rules, n, p, q, skip);
  }

  lemma {:induction false} NothingSkipped(rules: Rules, n: Node, p: nat, q: nat, skip: nat)
    requires n.Elem? && p <= q <= Document.Size(n.content) && skip == 0
    ensures ClosedValid(rules, n, p, q, skip) <==>
            && rules.valid(n.markup.nodeType, Markups(n.content))
            && SeamValid(rules, n.content, p) && SeamValid(rules, n.content, q)
  {
    AroundElem(rules, n, p, skip);
    AroundElem(rules, n, q, skip);
  }

  lemma {:induction false} OuterJoins(rules: Rules, a: Pos, b: Pos, slice: Slice, p: nat, q: nat, skip: nat)
    requires PosOk(a) && PosOk(b) && a.node == b.node && SliceOk(slice) && NodeOk(a.node)
    requires slice.openStart <= Depth(a) && Depth(a) - slice.openStart == Depth(b) - slice.openEnd
    requires p == Offset(a) && p <= q == p + slice.Size() && skip == Untouched(a, b, slice)
    ensures GoesAsLenient(rules, a, b, slice, p, q, skip)
    decreases a
  {
    if a.index == b.index && slice.openStart < Depth(a) {
      var p', q' := Offset(a.inner), Offset(a.inner) + slice.Size();
      OuterInside(a, b, slice, p, q, skip);
      var skip' := skip - 1;
      OuterJoins(rules, a.inner, b.inner, slice, p', q', skip');
      SharedJoins(rules, a, b, slice, p, q, skip, p', q', skip');
    } else {
      NothingUntouched(a, b, slice);
      InnermostJoins(rules, a, b, slice, p, q, skip);
    }
  }

  lemma {:induction false} OuterInside(a: Pos, b: Pos, slice: Slice, p: nat, q: nat, skip: nat)
    requires PosOk(a) && PosOk(b) && a.node == b.node && NodeOk(a.node)
    requires slice.openStart <= Depth(a) && Depth(a) - slice.openStart == Depth(b) - slice.openEnd
    requires a.index == b.index && slice.openStart < Depth(a)
    requires p == Offset(a) && p <= q == p + slice.Size() && skip == Untouched(a, b, slice)
    ensures skip > 0 && skip - 1 == Untouched(a.inner, b.inner, slice)
    ensures NodeOk(a.inner.node) && a.inner.node == b.inner.node
    ensures p == a.offset + 1 + Offset(a.inner) && q == a.offset + 1 + (Offset(a.inner) + slice.Size())
  {
    assert NodeOk(a.node.content[a.index]);
  }

  lemma {:induction false} NothingUntouched(a: Pos, b: Pos, slice: Slice)
    requires !(a.index == b.index && slice.openStart < Depth(a))
    ensures Untouched(a, b, slice) == 0
  {
  }

  /** The depths agree, as `replace` asks first. */
  predicate DepthsOk(doc: Node, from: nat, end: nat, slice: Slice)
    requires doc.Elem? && NodeOk(doc)
  {
    && from <= Document.Size(doc.content) && end <= Document.Size(doc.content)
    && slice.openStart <= Depth(Resolve(doc, from))
    && Depth(Resolve(doc, from)) - slice.openStart == Depth(Resolve(doc, end)) - slice.openEnd
  }

  /** What `outcome` has to be like around the ends of the new content. */
  predicate OutcomeValid(rules: Rules, doc: Node, from: nat, end: nat, slice: Slice, outcome: Node)
    requires doc.Elem? && NodeOk(doc) && slice.Size() >= 0
    requires from <= Document.Size(doc.content) && end <= Document.Size(doc.content)
  {
    ClosedValid(rules, outcome, from, from + slice.Size(), Untouched(Resolve(doc, from), Resolve(doc, end), slice))
  }

  /**
   * A replacement succeeds exactly when the depths agree, the types around the positions are
   * compatible with those along the slice's open sides, and the elements around the two ends of
   * the new content, from the one inwards that the content is joined in, come out valid.
   */
  lemma {:induction false} ReplaceSucceedsIff(rules: Rules, doc: Node, from: nat, end: nat, slice: Slice)
    requires doc.Elem? && NodeOk(doc) && SliceOk(slice)
    ensures slice.Size() >= 0
    ensures ReplaceNode(Lenient(), doc, from, end, slice).Done? <==> DepthsOk(doc, from, end, slice)
    ensures var r0 := ReplaceNode(Lenient(), doc, from, end, slice);
      var r := ReplaceNode(rules, doc, from, end, slice);
      && (r.Done? <==>
            && DepthsOk(doc, from, end, slice)
            && JoinsOk(rules, Path(Resolve(doc, from)), Path(Resolve(doc, end)), slice)
            && OutcomeValid(rules, doc, from, end, slice, r0.value))
      && (r.Done? ==> r == r0)
  {
    OpensFit(slice.content, slice.openStart, slice.openEnd);
    ReplaceIsOuter(rules, doc, from, end, slice);
    ReplaceIsOuter(Lenient(), doc, from, end, slice);
    if DepthsOk(doc, from, end, slice) {
      var a, b := Resolve(doc, from), Resolve(doc, end);
      var q, skip := from + slice.Size(), Untouched(a, b, slice);
      OuterJoins(rules, a, b, slice, from, q, skip);
      var n := ReplaceOuter(Lenient(), a, b, slice).value;
      assert OutcomeValid(rules, doc, from, end, slice, n) <==> ClosedValid(rules, n, from, q, skip);
    }
  }

  lemma {:induction false} ReplaceIsOuter(rules: Rules, doc: Node, from: nat, end: nat, slice: Slice)
    requires doc.Elem? && NodeOk(doc) && SliceOk(slice)
    ensures DepthsOk(doc, from, end, slice) ==>
      ReplaceNode(rules, doc, from, end, slice) == ReplaceOuter(rules, Resolve(doc, from), Resolve(doc, end), slice)
    ensures !DepthsOk(doc, from, end, slice) ==> !ReplaceNode(rules, doc, from, end, slice).Done?
  {
  }

  /** Around any positions a valid document is valid. */
  lemma {:induction false} ValidOutcome(rules: Rules, doc: Node, from: nat, end: nat, slice: Slice, outcome: Node)
    requires doc.Elem? && NodeOk(doc) && slice.Size() >= 0 && AllValid(rules, outcome)
    requires from <= Document.Size(doc.content) && end <= Document.Size(doc.content)
    ensures OutcomeValid(rules, doc, from, end, slice, outcome)
  {
    var skip := Untouched(Resolve(doc, from), Resolve(doc, end), slice);
    ValidAround(rules, [outcome], from + 1, skip);
    ValidAround(rules, [outcome], from + slice.Size() + 1, skip);
  }
}
