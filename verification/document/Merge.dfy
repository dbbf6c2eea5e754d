/** Merging two replace steps into one (`merge`), and when the merged step does what the two did. */
module Merges {
  import opened Options
  import opened Document
  import opened Resolved
  import opened Replace
  import opened CutContent
  import opened Splice
  import opened Normal
  import opened Joins
  import opened ReplaceStep
  import opened Undo

  /** Two slices as one; nothing is left of two that hold nothing. */
  function JoinedSlice(first: Slice, second: Slice): Slice {
    if first.Size() + second.Size() == 0 then Slice([], 0, 0)
    else Slice(Append(first.content, second.content), first.openStart, second.openEnd)
  }

  /** `t`, which comes after `s`, goes on where the content of `s` ends. */
  predicate Follows(s: ReplaceStep, t: ReplaceStep) {
    s.from + s.slice.Size() == t.from && s.slice.openEnd == 0 && t.slice.openStart == 0
  }

  /** `t` ends where `s` began. */
  predicate Precedes(s: ReplaceStep, t: ReplaceStep) {
    t.end == s.from && s.slice.openStart == 0 && t.slice.openEnd == 0
  }

  function Merge(s: ReplaceStep, t: ReplaceStep): Option<ReplaceStep>
    requires t.from <= t.end
  {
    if Follows(s, t) then
      Some(ReplaceStep(s.from, s.end + (t.end - t.from), JoinedSlice(s.slice, t.slice)))
    else if Precedes(s, t) then Some(ReplaceStep(t.from, s.end, JoinedSlice(t.slice, s.slice)))
    else None
  }

  /**
   * Two steps merge exactly when the second begins where the content of the first ends, or ends
   * where the first began, with both slices closed there. What the merged step replaces, and what
   * it puts in, is as long as in the two together.
   */
  lemma {:induction false} MergeIff(s: ReplaceStep, t: ReplaceStep)
    requires t.from <= t.end
    ensures Merge(s, t).Some? <==>
      || (t.from == s.from + s.slice.Size() && s.slice.openEnd == 0 && t.slice.openStart == 0)
      || (t.end == s.from && s.slice.openStart == 0 && t.slice.openEnd == 0)
    ensures Merge(s, t).Some? && s.from <= s.end && s.slice.Size() >= 0 ==>
      var m := Merge(s, t).value;
      && m.from == (if t.from < s.from then t.from else s.from)
      && m.end - m.from == (s.end - s.from) + (t.end - t.from)
      && m.slice.Size() == s.slice.Size() + t.slice.Size()
  {
    AppendSize(s.slice.content, t.slice.content);
    AppendSize(t.slice.content, s.slice.content);
  }

  lemma {:induction false} AppendSize(a: Fragment, b: Fragment)
    ensures Document.Size(Append(a, b)) == Document.Size(a) + Document.Size(b)
  {
    AppendTokens(a, b);
    TokensSize(a);
    TokensSize(b);
    TokensSize(Append(a, b));
  }

  // ----- the slice of a merged step -----

  lemma {:induction false} OpensTwice(f: Fragment, k: nat)
    requires OpensLeft(f, k)
    ensures Document.Size(f) >= 2 * k
    decreases k
  {
    if k > 0 {
      OpensTwice(f[0].content, k - 1);
    }
  }

  lemma {:induction false} OpensTwiceRight(f: Fragment, k: nat)
    requires OpensRight(f, k)
    ensures Document.Size(f) >= 2 * k
    decreases k
  {
    if k > 0 {
      OpensTwiceRight(f[|f| - 1].content, k - 1);
      TokensAround(f, |f| - 1);
    }
  }

  lemma {:induction false} NothingIn(f: Fragment)
    requires FragmentOk(f) && Document.Size(f) == 0
    ensures f == []
  {
    assert forall i | 0 <= i < |f| :: NodeOk(f[i]);
  }

  /** A slice that is open on one side and holds nothing is empty. */
  lemma {:induction false} EmptySlice(s: Slice)
    requires SliceOk(s) && s.Size() == 0 && (s.openStart == 0 || s.openEnd == 0)
    ensures s == Slice([], 0, 0)
  {
    OpensTwice(s.content, s.openStart);
    OpensTwiceRight(s.content, s.openEnd);
    NothingIn(s.content);
  }

  lemma {:induction false} AppendOpensLeft(a: Fragment, b: Fragment, k: nat)
    requires OpensLeft(a, k)
    ensures OpensLeft(Append(a, b), k) && LeftPath(Append(a, b), k) == LeftPath(a, k)
  {
    if k > 0 {
      assert Append(a, b)[0] == a[0];
    }
  }

  lemma {:induction false} AppendOpensRight(a: Fragment, b: Fragment, k: nat)
    requires OpensRight(b, k)
    ensures OpensRight(Append(a, b), k) && RightPath(Append(a, b), k) == RightPath(b, k)
  {
    if k > 0 {
      var r := Append(a, b);
      assert r[|r| - 1] == b[|b| - 1];
    }
  }

  lemma {:induction false} MiddleOfBoth<T>(a: seq<T>, b: seq<T>, i: nat, j: nat)
    requires i <= |a| && j <= |b|
    ensures (a + b)[i..|a| + |b| - j] == a[i..] + b[..|b| - j]
  {
  }

  lemma {:induction false} JoinedSliceIs(first: Slice, second: Slice)
    requires SliceOk(first) && SliceOk(second) && first.openEnd == 0 && second.openStart == 0
    requires FragmentNormal(first.content) && FragmentNormal(second.content)
    ensures JoinedSlice(first, second) ==
            Slice(Append(first.content, second.content), first.openStart, second.openEnd)
  {
    SliceSizeOk(first);
    SliceSizeOk(second);
    if first.Size() + second.Size() == 0 {
      EmptySlice(first);
      EmptySlice(second);
    }
  }

  lemma {:induction false} JoinedSliceOk(first: Slice, second: Slice, both: Slice)
    requires SliceOk(first) && SliceOk(second) && first.openEnd == 0 && second.openStart == 0
    requires FragmentNormal(first.content) && FragmentNormal(second.content)
    requires both == JoinedSlice(first, second)
    ensures SliceOk(both) && FragmentNormal(both.content)
    ensures both.openStart == first.openStart && both.openEnd == second.openEnd
    ensures LeftPath(both.content, both.openStart) == LeftPath(first.content, first.openStart)
    ensures RightPath(both.content, both.openEnd) == RightPath(second.content, second.openEnd)
  {
    JoinedSliceIs(first, second);
    AppendNormal(first.content, second.content);
    FragmentNormalOk(both.content);
    AppendOpensLeft(first.content, second.content, first.openStart);
    AppendOpensRight(first.content, second.content, second.openEnd);
  }

  lemma {:induction false} JoinedSliceTokens(first: Slice, second: Slice, both: Slice)
    requires SliceOk(first) && SliceOk(second) && first.openEnd == 0 && second.openStart == 0
    requires SliceOk(both) && both.content == Append(first.content, second.content)
    requires both.openStart == first.openStart && both.openEnd == second.openEnd
    ensures SliceTokens(both) == SliceTokens(first) + SliceTokens(second)
  {
    AppendTokens(first.content, second.content);
    TokensSize(first.content);
    TokensSize(second.content);
    TokensSize(both.content);
    OpensFit(first.content, first.openStart, 0);
    OpensFit(second.content, 0, second.openEnd);
    var a, b := Tokens(first.content), Tokens(second.content);
    MiddleOfBoth(a, b, first.openStart, second.openEnd);
    assert a[first.openStart..] == a[first.openStart..|a|];
    assert b[..|b| - second.openEnd] == b[0..|b| - second.openEnd];
  }

  // ----- two steps, one after the other -----

  /** `s` takes `doc` to `mid`, and `t` takes `mid` to `doc'`; all normal. */
  ghost predicate InTurn(rules: Rules, doc: Node, s: ReplaceStep, mid: Node, t: ReplaceStep, doc': Node) {
    && StepOk(s, doc) && NodeNormal(doc) && FragmentNormal(s.slice.content) && Apply(rules, doc, s) == Done(mid)
    && StepOk(t, mid) && NodeNormal(mid) && FragmentNormal(t.slice.content) && Apply(rules, mid, t) == Done(doc')
    && doc'.Elem? && NodeNormal(doc')
  }

  /** The stretch from `i` up to `j` is replaced by `s`. */
  ghost predicate Splices<T>(x: seq<T>, i: nat, j: nat, s: seq<T>, y: seq<T>) {
    i <= j <= |x| && y == x[..i] + s + x[j..]
  }

  lemma {:induction false} SpliceAfter<T>(x: seq<T>, i: nat, j: nat, s: seq<T>, y: seq<T>, h: nat, k: nat, u: seq<T>,
          z: seq<T>, e: int)
    requires Splices(x, i, j, s, y) && Splices(y, h, k, u, z) && h == i + |s| && e == j + (k - h)
    ensures 0 <= e && Splices(x, i, e, s + u, z)
  {
  }

  lemma {:induction false} SpliceBefore<T>(x: seq<T>, i: nat, j: nat, s: seq<T>, y: seq<T>, k: nat, u: seq<T>,
          z: seq<T>)
    requires Splices(x, i, j, s, y) && Splices(y, k, i, u, z)
    ensures Splices(x, k, j, u + s, z)
  {
  }

  /** The step can be asked about the one document, and leads to the tokens of the other. */
  ghost predicate LeadsTo(doc: Node, m: ReplaceStep, doc': Node) {
    && StepOk(m, doc) && FragmentNormal(m.slice.content)
    && doc'.Elem? && doc'.markup == doc.markup
    && Splices(Tokens(doc.content), m.from, m.end, SliceTokens(m.slice), Tokens(doc'.content))
  }

  lemma {:induction false} AppliedLeadsTo(rules: Rules, doc: Node, s: ReplaceStep, mid: Node)
    requires StepOk(s, doc) && FragmentNormal(s.slice.content) && Apply(rules, doc, s) == Done(mid)
    ensures LeadsTo(doc, s, mid)
  {
    ApplyTokens(rules, doc, s);
  }

  lemma {:induction false} FollowingSplices(x: seq<Token>, y: seq<Token>, z: seq<Token>, s: ReplaceStep, t: ReplaceStep,
          u: seq<Token>, v: seq<Token>, e: int)
    requires Splices(x, s.from, s.end, u, y) && Splices(y, t.from, t.end, v, z)
    requires |u| == s.slice.Size() && Follows(s, t) && e == s.end + (t.end - t.from)
    ensures 0 <= e && Splices(x, s.from, e, u + v, z)
  {
    SpliceAfter(x, s.from, s.end, u, y, t.from, t.end, v, z, e);
  }

  lemma {:induction false} JoinedIs(first: Slice, second: Slice, both: Slice)
    requires SliceOk(first) && SliceOk(second) && first.openEnd == 0 && second.openStart == 0
    requires FragmentNormal(first.content) && FragmentNormal(second.content)
    requires both == JoinedSlice(first, second)
    ensures SliceOk(both) && FragmentNormal(both.content)
    ensures SliceTokens(both) == SliceTokens(first) + SliceTokens(second)
  {
    JoinedSliceOk(first, second, both);
    JoinedSliceIs(first, second);
    JoinedSliceTokens(first, second, both);
  }

  lemma {:induction false} LeadsToFrom(doc: Node, s: ReplaceStep, mid: Node, t: ReplaceStep, doc': Node, m: ReplaceStep,
          from: nat, end: nat, u: seq<Token>)
    requires LeadsTo(doc, s, mid) && LeadsTo(mid, t, doc')
    requires SliceOk(m.slice) && FragmentNormal(m.slice.content) && SliceTokens(m.slice) == u
    requires from == m.from && end == m.end && Splices(Tokens(doc.content), from, end, u, Tokens(doc'.content))
    ensures LeadsTo(doc, m, doc')
  {
    TokensSize(doc.content);
  }

  lemma {:induction false} FollowingTokens(doc: Node, s: ReplaceStep, mid: Node, t: ReplaceStep, doc': Node,
          m: ReplaceStep, u: seq<Token>)
    requires LeadsTo(doc, s, mid) && LeadsTo(mid, t, doc') && Follows(s, t)
    requires m == ReplaceStep(s.from, s.end + (t.end - t.from), JoinedSlice(s.slice, t.slice))
    requires u == SliceTokens(s.slice) + SliceTokens(t.slice)
    ensures LeadsTo(doc, m, doc')
  {
    FollowingSplices(Tokens(doc.content), Tokens(mid.content), Tokens(doc'.content), s, t, SliceTokens(s.slice),
      SliceTokens(t.slice), m.end);
    JoinedIs(s.slice, t.slice, m.slice);
    LeadsToFrom(doc, s, mid, t, doc', m, m.from, m.end, u);
  }

  lemma {:induction false} PrecedingTokens(doc: Node, s: ReplaceStep, mid: Node, t: ReplaceStep, doc': Node,
          m: ReplaceStep, u: seq<Token>)
    requires LeadsTo(doc, s, mid) && LeadsTo(mid, t, doc') && Precedes(s, t)
    requires m == ReplaceStep(t.from, s.end, JoinedSlice(t.slice, s.slice))
    requires u == SliceTokens(t.slice) + SliceTokens(s.slice)
    ensures LeadsTo(doc, m, doc')
  {
    SpliceBefore(Tokens(doc.content), s.from, s.end, SliceTokens(s.slice), Tokens(mid.content), t.from,
      SliceTokens(t.slice), Tokens(doc'.content));
    JoinedIs(t.slice, s.slice, m.slice);
    LeadsToFrom(doc, s, mid, t, doc', m, m.from, m.end, u);
  }

  lemma {:induction false} MergedTokens(rules: Rules, doc: Node, s: ReplaceStep, mid: Node, t: ReplaceStep, doc': Node,
          m: ReplaceStep)
    requires InTurn(rules, doc, s, mid, t, doc') && Merge(s, t) == Some(m)
    ensures LeadsTo(doc, m, doc')
  {
    AppliedLeadsTo(rules, doc, s, mid);
    AppliedLeadsTo(rules, mid, t, doc');
    if Follows(s, t) {
      FollowingTokens(doc, s, mid, t, doc', m, SliceTokens(s.slice) + SliceTokens(t.slice));
    } else {
      PrecedingTokens(doc, s, mid, t, doc', m, SliceTokens(t.slice) + SliceTokens(s.slice));
    }
  }

  // ----- the elements around the positions -----

  /** The rest of an opened fragment closes as many elements as were opened, whichever they were. */
  lemma {:induction false} StackClosing(st: seq<Markup>, around: seq<Markup>, f: Fragment, k: nat)
    requires OpensLeft(f, k) && |around| == k
    ensures k <= |Tokens(f)| && StackAfter(st + around, Tokens(f)[k..]) == st
    decreases k
  {
    OpensFit(f, k, 0);
    TokensSize(f);
    if k == 0 {
      assert Tokens(f)[0..] == Tokens(f) && st + around == st;
      StackTokens(st, f);
    } else {
      var inner, last := Tokens(f[0].content), Tokens(f[1..]);
      StackClosing(st + around[..1], around[1..], f[0].content, k - 1);
      assert st + around == (st + around[..1]) + around[1..];
      assert Tokens(f)[k..] == inner[k - 1..] + ([Close] + last);
      StackAppend(st + around, inner[k - 1..], [Close] + last);
      StackAppend(st + around[..1], [Close], last);
      StackOne(st + around[..1], Close);
      assert (st + around[..1])[..|st|] == st;
      StackTokens(st, f[1..]);
    }
  }

  /** The same tokens lead from compatible elements to compatible elements. */
  lemma {:induction false} StackCompatible(rules: Rules, p: seq<Markup>, q: seq<Markup>, t: seq<Token>)
    requires PathsCompatible(rules, p, q)
    ensures PathsCompatible(rules, StackAfter(p, t), StackAfter(q, t))
    decreases |t|
  {
    if t != [] {
      NextCompatible(rules, p, q, t[0]);
      StackCompatible(rules, Next(p, t[0]), Next(q, t[0]), t[1..]);
    }
  }

  lemma {:induction false} NextCompatible(rules: Rules, p: seq<Markup>, q: seq<Markup>, t: Token)
    requires PathsCompatible(rules, p, q)
    ensures PathsCompatible(rules, Next(p, t), Next(q, t))
  {
  }

  /** Behind a stretch of tokens. */
  lemma {:induction false} PathBehind(doc: Node, i: nat, j: nat)
    requires doc.Elem? && NodeOk(doc) && i <= j <= Document.Size(doc.content)
    ensures j <= |Tokens(doc.content)|
    ensures Path(Resolve(doc, j)) == StackAfter(Path(Resolve(doc, i)), Tokens(doc.content)[i..j])
  {
    PathFromTokens(doc, i);
    PathFromTokens(doc, j);
    var t := Tokens(doc.content);
    assert t[..j] == t[..i] + t[i..j];
    StackAppend([], t[..i], t[i..j]);
  }

  /** Where the types that join do so whatever comes between. */
  ghost predicate Transitive(rules: Rules) {
    forall a, b, c | Compatible(rules, a, b) && Compatible(rules, b, c) :: Compatible(rules, a, c)
  }

  lemma {:induction false} PathsTransitive(rules: Rules, p: seq<Markup>, q: seq<Markup>, r: seq<Markup>)
    requires Transitive(rules) && PathsCompatible(rules, p, q) && PathsCompatible(rules, q, r)
    ensures PathsCompatible(rules, p, r)
  {
  }

  /** The elements around `p` and `q` agree in depth with the slice. */
  predicate DepthsAgree(p: seq<Markup>, q: seq<Markup>, slice: Slice) {
    slice.openStart <= |p| && |p| - slice.openStart == |q| - slice.openEnd
  }

  /** What a step that was applied says about the elements around its ends. */
  lemma {:induction false} AppliedJoins(rules: Rules, doc: Node, s: ReplaceStep, p: seq<Markup>, q: seq<Markup>)
    requires StepOk(s, doc) && Apply(rules, doc, s).Done?
    requires p == Path(Resolve(doc, s.from)) && q == Path(Resolve(doc, s.end))
    ensures DepthsAgree(p, q, s.slice) && JoinsOk(rules, p, q, s.slice)
  {
    ReplaceSucceedsIff(rules, doc, s.from, s.end, s.slice);
  }

  /** Behind the content of a slice that is closed at its end are the elements it was put into. */
  lemma {:induction false} PathBehindSlice(p: seq<Markup>, slice: Slice)
    requires SliceOk(slice) && slice.openEnd == 0 && slice.openStart <= |p|
    ensures StackAfter(p, SliceTokens(slice)) == p[..|p| - slice.openStart]
  {
    var d := |p| - slice.openStart;
    TokensSize(slice.content);
    assert p == p[..d] + p[d..];
    StackClosing(p[..d], p[d..], slice.content, slice.openStart);
    var t := Tokens(slice.content);
    assert t[slice.openStart..|t|] == t[slice.openStart..];
  }

  /** Around a position in or before the new content, and behind it. */
  lemma {:induction false} PathAfterSplice(doc: Node, s: ReplaceStep, mid: Node, u: seq<Token>, h: nat)
    requires LeadsTo(doc, s, mid) && NodeOk(mid) && u == SliceTokens(s.slice) && h == s.from + |u|
    ensures s.from <= Document.Size(doc.content) && h <= Document.Size(mid.content)
    ensures Path(Resolve(mid, h)) == StackAfter(Path(Resolve(doc, s.from)), u)
  {
    TokensSize(mid.content);
    FrontOfSplice(Tokens(doc.content), s.from, s.end, u, Tokens(mid.content), h);
    PathFromTokens(doc, s.from);
    PathFromTokens(mid, h);
    StackAppend([], Tokens(doc.content)[..s.from], u);
  }

  lemma {:induction false} FrontOfSplice<T>(x: seq<T>, i: nat, j: nat, u: seq<T>, y: seq<T>, h: nat)
    requires Splices(x, i, j, u, y) && h == i + |u|
    ensures h <= |y| && y[..h] == x[..i] + u
    ensures forall k | 0 <= k <= i :: y[..k] == x[..k]
  {
  }

  /** What the first step leaves behind its content is what was behind the replaced stretch. */
  lemma {:induction false} BehindIs<T>(x: seq<T>, i: nat, j: nat, u: seq<T>, y: seq<T>, h: nat, k: nat, e: nat)
    requires Splices(x, i, j, u, y) && h == i + |u| <= k <= |y| && e == j + (k - h)
    ensures e <= |x| && y[h..k] == x[j..e]
  {
  }

  /** Around the end of a merged step that goes on, and around the same place after the first step. */
  lemma {:induction false} FollowingPaths(doc: Node, s: ReplaceStep, mid: Node, h: nat, k: nat, e: nat)
    requires LeadsTo(doc, s, mid) && NodeOk(mid) && h == s.from + |SliceTokens(s.slice)| <= k
    requires k <= Document.Size(mid.content) && e == s.end + (k - h)
    ensures e <= Document.Size(doc.content)
    ensures var u := StretchOf(mid, h, k);
      && Path(Resolve(mid, k)) == StackAfter(Path(Resolve(mid, h)), u)
      && Path(Resolve(doc, e)) == StackAfter(Path(Resolve(doc, s.end)), u)
  {
    TokensSize(doc.content);
    TokensSize(mid.content);
    BehindIs(Tokens(doc.content), s.from, s.end, SliceTokens(s.slice), Tokens(mid.content), h, k, e);
    PathBehind(mid, h, k);
    PathBehind(doc, s.end, e);
  }

  ghost function StretchOf(doc: Node, i: nat, j: nat): seq<Token>
    requires doc.Elem? && i <= j <= Document.Size(doc.content)
  {
    TokensSize(doc.content);
    Tokens(doc.content)[i..j]
  }

  // ----- when the merged step can be applied -----

  /** The one slice followed by the other, as far as the elements along its open sides go. */
  ghost predicate Along(first: Slice, second: Slice, both: Slice) {
    && SliceOk(first) && SliceOk(second) && SliceOk(both)
    && first.openEnd == 0 && second.openStart == 0
    && both.openStart == first.openStart && both.openEnd == second.openEnd
    && LeftPath(both.content, both.openStart) == LeftPath(first.content, first.openStart)
    && RightPath(both.content, both.openEnd) == RightPath(second.content, second.openEnd)
  }

  lemma {:induction false} ClosedEnd(p: seq<Markup>, slice: Slice)
    requires SliceOk(slice) && slice.openStart <= |p|
    ensures slice.openEnd == 0 ==> EndPath(p, slice) == p[..|p| - slice.openStart]
    ensures slice.openStart == 0 ==> EndPath(p, slice) == p + RightPath(slice.content, slice.openEnd)
  {
    assert p[..|p|] == p;
  }

  /** The joins of a merged step that goes on: `p` and `b` are around the ends of the first step, `q1` of the other. */
  lemma {:induction false} FollowingJoins(rules: Rules, p: seq<Markup>, b: seq<Markup>, p1: seq<Markup>,
          q1: seq<Markup>, q: seq<Markup>, first: Slice, second: Slice, both: Slice, u: seq<Token>)
    requires Along(first, second, both) && DepthsAgree(p, b, first) && JoinsOk(rules, p, b, first)
    requires p1 == p[..|p| - first.openStart] && q1 == StackAfter(p1, u) && q == StackAfter(b, u)
    requires DepthsAgree(p1, q1, second) && JoinsOk(rules, p1, q1, second)
    ensures DepthsAgree(p, q, both)
    ensures PathsCompatible(rules, p, StartPath(p, both))
    ensures Transitive(rules) ==> PathsCompatible(rules, EndPath(p, both), q)
  {
    ClosedEnd(p, first);
    ClosedEnd(p1, second);
    StackCompatible(rules, p1, b, u);
    if Transitive(rules) {
      PathsTransitive(rules, EndPath(p1, second), q1, q);
    }
  }

  lemma {:induction false} CompatibleMore(rules: Rules, p: seq<Markup>, q: seq<Markup>, r: seq<Markup>)
    requires PathsCompatible(rules, p, q)
    ensures PathsCompatible(rules, p + r, q + r)
  {
  }

  /** The joins of a merged step whose second one comes before: `r` is around the place where the two meet. */
  lemma {:induction false} PrecedingJoins(rules: Rules, p: seq<Markup>, r: seq<Markup>, q: seq<Markup>, first: Slice,
          second: Slice, both: Slice)
    requires Along(first, second, both)
    requires DepthsAgree(p, r, first) && JoinsOk(rules, p, r, first)
    requires DepthsAgree(r, q, second) && JoinsOk(rules, r, q, second)
    ensures DepthsAgree(p, q, both)
    ensures PathsCompatible(rules, p, StartPath(p, both))
    ensures Transitive(rules) ==> PathsCompatible(rules, EndPath(p, both), q)
  {
    ClosedEnd(p, first);
    ClosedEnd(r, second);
    CompatibleMore(rules, p[..|p| - first.openStart], r, RightPath(second.content, second.openEnd));
    if Transitive(rules) {
      PathsTransitive(rules, EndPath(p, both), EndPath(r, second), q);
    }
  }

  /** What the merged step joins: on the left what one of the two steps did, on the right more than either. */
  ghost predicate JoinsRight(rules: Rules, p: seq<Markup>, q: seq<Markup>, slice: Slice) {
    && SliceOk(slice) && DepthsAgree(p, q, slice)
    && PathsCompatible(rules, p, StartPath(p, slice))
    && (Transitive(rules) ==> PathsCompatible(rules, EndPath(p, slice), q))
  }

  lemma {:induction false} MergedFollowing(rules: Rules, doc: Node, s: ReplaceStep, mid: Node, t: ReplaceStep,
          doc': Node, m: ReplaceStep)
    requires InTurn(rules, doc, s, mid, t, doc') && Follows(s, t) && Merge(s, t) == Some(m) && StepOk(m, doc)
    ensures JoinsRight(rules, Path(Resolve(doc, m.from)), Path(Resolve(doc, m.end)), m.slice)
  {
    AppliedLeadsTo(rules, doc, s, mid);
    NormalOk(mid);
    var p, b := Path(Resolve(doc, s.from)), Path(Resolve(doc, s.end));
    AppliedJoins(rules, doc, s, p, b);
    PathAfterSplice(doc, s, mid, SliceTokens(s.slice), t.from);
    PathBehindSlice(p, s.slice);
    FollowingPaths(doc, s, mid, t.from, t.end, m.end);
    var p1, q1 := Path(Resolve(mid, t.from)), Path(Resolve(mid, t.end));
    AppliedJoins(rules, mid, t, p1, q1);
    JoinedSliceOk(s.slice, t.slice, m.slice);
    FollowingJoins(rules, p, b, p1, q1, Path(Resolve(doc, m.end)), s.slice, t.slice, m.slice,
      StretchOf(mid, t.from, t.end));
  }

  lemma {:induction false} MergedPreceding(rules: Rules, doc: Node, s: ReplaceStep, mid: Node, t: ReplaceStep,
          doc': Node, m: ReplaceStep)
    requires InTurn(rules, doc, s, mid, t, doc') && Precedes(s, t) && StepOk(m, doc)
    requires m == ReplaceStep(t.from, s.end, JoinedSlice(t.slice, s.slice))
    ensures JoinsRight(rules, Path(Resolve(doc, m.from)), Path(Resolve(doc, m.end)), m.slice)
  {
    AppliedLeadsTo(rules, doc, s, mid);
    NormalOk(mid);
    SameBefore(doc, s, mid, t.from);
    SameBefore(doc, s, mid, t.end);
    var p, r, q := Path(Resolve(mid, t.from)), Path(Resolve(mid, t.end)), Path(Resolve(doc, s.end));
    AppliedJoins(rules, doc, s, r, q);
    AppliedJoins(rules, mid, t, p, r);
    JoinedSliceOk(t.slice, s.slice, m.slice);
    PrecedingJoins(rules, p, r, q, t.slice, s.slice, m.slice);
  }

  lemma {:induction false} SameBefore(doc: Node, s: ReplaceStep, mid: Node, k: nat)
    requires LeadsTo(doc, s, mid) && NodeOk(mid) && k <= s.from
    ensures k <= Document.Size(doc.content) && k <= Document.Size(mid.content)
    ensures Path(Resolve(mid, k)) == Path(Resolve(doc, k))
  {
    TokensSize(doc.content);
    TokensSize(mid.content);
    FrontOfSplice(Tokens(doc.content), s.from, s.end, SliceTokens(s.slice), Tokens(mid.content),
      s.from + |SliceTokens(s.slice)|);
    SamePath(doc, mid, k);
  }

  lemma {:induction false} MergedJoins(rules: Rules, doc: Node, s: ReplaceStep, mid: Node, t: ReplaceStep, doc': Node,
          m: ReplaceStep)
    requires InTurn(rules, doc, s, mid, t, doc') && Merge(s, t) == Some(m) && StepOk(m, doc)
    ensures JoinsRight(rules, Path(Resolve(doc, m.from)), Path(Resolve(doc, m.end)), m.slice)
  {
    if Follows(s, t) {
      MergedFollowing(rules, doc, s, mid, t, doc', m);
    } else {
      MergedPreceding(rules, doc, s, mid, t, doc', m);
    }
  }

  /**
   * The merged step does what the two did exactly when the elements around its end are compatible
   * with those along the merged slice, and the elements around the ends of the new content are
   * valid. When it can be applied at all, it leads to the same document.
   */
  lemma {:induction false} MergeSucceedsIff(rules: Rules, doc: Node, s: ReplaceStep, mid: Node, t: ReplaceStep,
          doc': Node, m: ReplaceStep)
    requires InTurn(rules, doc, s, mid, t, doc') && Merge(s, t) == Some(m)
    ensures StepOk(m, doc) && m.slice.Size() >= 0 && m.slice.openStart <= Depth(Resolve(doc, m.from))
    ensures Apply(rules, doc, m) == Done(doc') <==>
      && PathsCompatible(rules, EndPath(Path(Resolve(doc, m.from)), m.slice), Path(Resolve(doc, m.end)))
      && OutcomeValid(rules, doc, m.from, m.end, m.slice, doc')
    ensures Apply(rules, doc, m).Done? ==> Apply(rules, doc, m) == Done(doc')
  {
    MergedTokens(rules, doc, s, mid, t, doc', m);
    MergedJoins(rules, doc, s, mid, t, doc', m);
    ReplaceSucceedsIff(rules, doc, m.from, m.end, m.slice);
    var p, q := Path(Resolve(doc, m.from)), Path(Resolve(doc, m.end));
    assert DepthsOk(doc, m.from, m.end, m.slice);
    LeadingTo(Lenient(), doc, m, doc');
    if Apply(rules, doc, m).Done? {
      LeadingTo(rules, doc, m, doc');
    }
  }

  lemma {:induction false} LeadingTo(rules: Rules, doc: Node, m: ReplaceStep, doc': Node)
    requires LeadsTo(doc, m, doc') && NodeNormal(doc) && NodeNormal(doc') && Apply(rules, doc, m).Done?
    ensures Apply(rules, doc, m) == Done(doc')
  {
    OutcomeFromTokens(rules, doc, m, doc');
  }

  /** With transitive rules and a valid outcome it always does. */
  lemma {:induction false} MergeDoesBoth(rules: Rules, doc: Node, s: ReplaceStep, mid: Node, t: ReplaceStep, doc': Node,
          m: ReplaceStep)
    requires Transitive(rules) && AllValid(rules, doc')
    requires InTurn(rules, doc, s, mid, t, doc') && Merge(s, t) == Some(m)
    ensures StepOk(m, doc) && FragmentNormal(m.slice.content) && Apply(rules, doc, m) == Done(doc')
  {
    MergedTokens(rules, doc, s, mid, t, doc', m);
    MergedJoins(rules, doc, s, mid, t, doc', m);
    MergeSucceedsIff(rules, doc, s, mid, t, doc', m);
    ValidOutcome(rules, doc, m.from, m.end, m.slice, doc');
  }
}
