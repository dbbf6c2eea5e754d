/** The main result on `replace`: a successful replacement splices the token string. */
module Splice {
  import opened Basics
  import opened Document
  import opened Resolved
  import opened Replace
  import opened JoinTokens
  import opened ThreeWayTokens
  import opened CutContent

  // ----- the operation -----

  /** The new content of the node the slice goes to: flat, with the slice between open sides, or joined up. */
  function NewContent(rules: Rules, a: Pos, b: Pos, slice: Slice): Outcome<Fragment>
    requires PosOk(a) && PosOk(b) && a.node == b.node && SliceOk(slice)
    requires slice.openStart <= Depth(a) && Depth(a) - slice.openStart == Depth(b) - slice.openEnd
  {
    if Document.Size(slice.content) == 0 then
      NothingOpen(slice);
      TwoWay(rules, a, b)
    else if slice.openStart == 0 && slice.openEnd == 0 && a.At? && b.At? then
      Done(FlatContent(a.node.content, a.parentOffset, b.parentOffset, slice.content))
    else
      PreparedDepths(slice, a);
      var (start, end) := PrepareSlice(slice, a);
      ThreeWay(rules, a, start, end, b)
  }

  function FlatContent(f: Fragment, from: int, end: int, content: Fragment): Fragment {
    Append(Append(Cut(f, 0, from), content), Cut(f, end, Document.Size(f)))
  }

  /** The outermost node with another child where the position is. */
  function WithChild(a: Pos, child: Node): Node
    requires a.node.Elem? && a.index < |a.node.content|
  {
    Elem(a.node.markup, a.node.content[a.index := child])
  }

  /** Goes down while both positions are in the same child and the slice stays closed (`replaceOuter`). */
  function ReplaceOuter(rules: Rules, a: Pos, b: Pos, slice: Slice): Outcome<Node>
    requires PosOk(a) && PosOk(b) && a.node == b.node && SliceOk(slice)
    requires slice.openStart <= Depth(a) && Depth(a) - slice.openStart == Depth(b) - slice.openEnd
    decreases a
  {
    if a.index == b.index && slice.openStart < Depth(a) then
      var child :- ReplaceOuter(rules, a.inner, b.inner, slice);
      Done(WithChild(a, child))
    else
      var content :- NewContent(rules, a, b, slice);
      CloseNode(rules, a.node, content)
  }

  /** Replaces what is between two positions of `doc` by `slice`. */
  function ReplaceNode(rules: Rules, doc: Node, from: nat, end: nat, slice: Slice): Outcome<Node>
    requires doc.Elem? && NodeOk(doc) && SliceOk(slice)
  {
    if from > Size(doc.content) || end > Size(doc.content) then Outcome.RangeError else
      var a, b := Resolve(doc, from), Resolve(doc, end);
      if slice.openStart > Depth(a) then Outcome.ReplaceError
      else if Depth(a) - slice.openStart != Depth(b) - slice.openEnd then Outcome.ReplaceError
      else ReplaceOuter(rules, a, b, slice)
  }

  lemma {:induction false} NothingOpen(slice: Slice)
    requires SliceOk(slice) && Document.Size(slice.content) == 0
    ensures slice.openStart == 0 && slice.openEnd == 0
  {
    OpensFit(slice.content, slice.openStart, slice.openEnd);
  }

  // ----- the ends of the slice -----

  lemma {:induction false} FirstIndex(f: Fragment, p: nat)
    requires FragmentOk(f) && f != [] && p < NodeSize(f[0])
    ensures p <= Size(f) && FindIndex(f, p) == (0, 0)
  {
    assert f[..0] == [];
  }

  lemma {:induction false} ResolveLeading(node: Node, k: nat)
    requires node.Elem? && NodeOk(node) && OpensLeft(node.content, k)
    ensures k <= Size(node.content) && Leading(Resolve(node, k)) && Depth(Resolve(node, k)) == k
    decreases k
  {
    var f := node.content;
    assert f[..0] == [];
    OpensFit(f, k, 0);
    if k > 0 {
      OpensFit(f[0].content, k - 1, 0);
      FirstIndex(f, k);
      assert NodeOk(f[0]);
      ResolveLeading(f[0], k - 1);
    }
  }

  lemma {:induction false} LastIndex(f: Fragment, p: nat, t: nat, n: nat)
    requires FragmentOk(f) && t < |f| && n == Size(f[..t])
    requires Size(f[..|f| - 1]) < p < Size(f)
    ensures n <= p && IndexFrom(f, p, t, n) == (|f| - 1, Size(f[..|f| - 1]))
    decreases |f| - t
  {
    SizeRises(f, t, |f| - 1);
    SizeNext(f, t);
    if t < |f| - 1 {
      SizeRises(f, t + 1, |f| - 1);
      LastIndex(f, p, t + 1, n + NodeSize(f[t]));
    } else {
      assert f[..t + 1] == f;
    }
  }

  lemma {:induction false} SizeRises(f: Fragment, i: nat, j: nat)
    requires i <= j <= |f|
    ensures Size(f[..i]) <= Size(f[..j])
  {
    TokensSplit(f[..j], i);
    assert f[..j][..i] == f[..i];
  }

  lemma {:induction false} EndIndex(f: Fragment)
    requires FragmentOk(f)
    ensures FindIndex(f, Size(f)) == (|f|, Size(f))
  {
    assert f[..|f|] == f;
    EndIndexFrom(f, 0, 0);
  }

  lemma {:induction false} EndIndexFrom(f: Fragment, t: nat, n: nat)
    requires FragmentOk(f) && t <= |f| && n == Size(f[..t])
    ensures n <= Size(f) && IndexFrom(f, Size(f), t, n) == (|f|, Size(f))
    decreases |f| - t
  {
    SizeRises(f, t, |f|);
    assert f[..|f|] == f;
    if t < |f| {
      assert NodeOk(f[t]);
      SizeNext(f, t);
      EndIndexFrom(f, t + 1, n + NodeSize(f[t]));
    }
  }

  /** Counting `k` from the end, inside the last child. */
  lemma {:induction false} TrailingIndex(f: Fragment, k: nat)
    requires FragmentOk(f) && k > 0 && OpensRight(f, k)
    ensures k <= Size(f)
    ensures var last := |f| - 1;
      && FindIndex(f, Size(f) - k) == (last, Size(f[..last]))
      && Size(f[..last]) < Size(f) - k
      && k - 1 <= Size(f[last].content)
      && Size(f) - k - Size(f[..last]) - 1 == Size(f[last].content) - (k - 1)
  {
    var last := |f| - 1;
    OpensFit(f, 0, k);
    OpensFit(f[last].content, 0, k - 1);
    SizeNext(f, last);
    assert f[..last + 1] == f;
    assert f[..0] == [];
    LastIndex(f, Size(f) - k, 0, 0);
  }

  lemma {:induction false} IntoLast(node: Node, k: nat)
    requires node.Elem? && NodeOk(node) && k > 0 && OpensRight(node.content, k)
    ensures k <= Size(node.content) && k - 1 <= Size(node.content[|node.content| - 1].content)
    ensures var f, last := node.content, |node.content| - 1;
      NodeOk(f[last]) &&
      Resolve(node, Size(f) - k) == In(node, last, Size(f[..last]), Resolve(f[last], Size(f[last].content) - (k - 1)))
  {
    TrailingIndex(node.content, k);
    assert NodeOk(node.content[|node.content| - 1]);
  }

  lemma {:induction false} ResolveTrailing(node: Node, k: nat)
    requires node.Elem? && NodeOk(node) && OpensRight(node.content, k)
    ensures k <= Size(node.content)
    ensures var r := Resolve(node, Size(node.content) - k); Trailing(r) && Depth(r) == k
    decreases k
  {
    if k == 0 {
      AtEnd(node);
    } else {
      IntoLast(node, k);
      ResolveTrailing(node.content[|node.content| - 1], k - 1);
    }
  }

  lemma {:induction false} AtEnd(node: Node)
    requires node.Elem? && NodeOk(node)
    ensures Resolve(node, Size(node.content)) == At(node, |node.content|, Size(node.content), Size(node.content))
    ensures Trailing(Resolve(node, Size(node.content)))
  {
    EndIndex(node.content);
  }

  lemma {:induction false} EndsResolved(node: Node, i: nat, j: nat)
    requires node.Elem? && NodeOk(node) && OpensLeft(node.content, i) && OpensRight(node.content, j)
    ensures var (start, end) := ResolveEnds(node, i, j);
      Ends(start, end) && Depth(start) == i && Depth(end) == j
  {
    ResolveLeading(node, i);
    ResolveTrailing(node, j);
  }

  lemma {:induction false} PreparedDepths(slice: Slice, along: Pos)
    requires SliceOk(slice) && slice.openStart <= Depth(along)
    ensures var (start, end) := PrepareSlice(slice, along);
      && Ends(start, end)
      && Depth(start) == Depth(along)
      && Depth(end) == Depth(along) - slice.openStart + slice.openEnd
  {
    var extra := Depth(along) - slice.openStart;
    EndsResolved(Wrapped(slice, along), slice.openStart + extra, slice.openEnd + extra);
  }

  /** The two ends of the prepared slice lie in the wrapped slice. */
  lemma {:induction false} PreparedNodes(slice: Slice, a: Pos)
    requires SliceOk(slice) && slice.openStart <= Depth(a)
    ensures var (start, end) := PrepareSlice(slice, a);
      start.node == end.node == Wrap(slice, a, Depth(a) - slice.openStart)
  {
  }

  /** The tokens of a slice: those of its content without the open ends. */
  ghost function SliceTokens(slice: Slice): (t: seq<Token>)
    requires SliceOk(slice)
    ensures |t| == slice.Size()
  {
    OpensFit(slice.content, slice.openStart, slice.openEnd);
    TokensSize(slice.content);
    Tokens(slice.content)[slice.openStart..Document.Size(slice.content) - slice.openEnd]
  }

  lemma {:induction false} WrapTokens(slice: Slice, along: Pos, k: nat, i: nat, j: nat)
    requires k <= Depth(along) && i <= j <= |Tokens(slice.content)|
    ensures var t := Tokens(Wrap(slice, along, k).content);
      |t| == 2 * k + |Tokens(slice.content)| && t[k + i..k + j] == Tokens(slice.content)[i..j]
    decreases k
  {
    if k > 0 {
      var inner := Wrap(slice, along.inner, k - 1);
      WrapTokens(slice, along.inner, k - 1, i, j);
      TokensOne(inner);
      StretchInside(Open(inner.markup), Tokens(inner.content), Close, k + i, k + j);
    }
  }

  /** A stretch of a prefix is a stretch of the whole. */
  lemma {:induction false} PrefixStretch<T>(t: seq<T>, i: nat, j: nat)
    requires i <= j <= |t|
    ensures t[..j][i..] == t[i..j]
  {
  }

  lemma {:induction false} MidIs(start: Pos, end: Pos)
    requires Ends(start, end)
    ensures Offset(start) <= Offset(end) <= |Tokens(end.node.content)|
    ensures Mid(start, end) == Tokens(end.node.content)[Offset(start)..Offset(end)]
  {
    EndsInOrder(start, end);
    SidesAre(end);
    PrefixStretch(Tokens(end.node.content), Offset(start), Offset(end));
  }

  lemma {:induction false} PreparedMid(slice: Slice, along: Pos)
    requires SliceOk(slice) && slice.openStart <= Depth(along)
    ensures var (start, end) := PrepareSlice(slice, along);
      Ends(start, end) && Offset(start) <= Offset(end) && Mid(start, end) == SliceTokens(slice)
  {
    PreparedDepths(slice, along);
    PreparedNodes(slice, along);
    PreparedOffsets(slice, along);
    var (start, end) := PrepareSlice(slice, along);
    WrappedMid(slice, along, start, end);
  }

  lemma {:induction false} WrappedMid(slice: Slice, along: Pos, start: Pos, end: Pos)
    requires SliceOk(slice) && slice.openStart <= Depth(along) && Ends(start, end)
    requires end.node == Wrap(slice, along, Depth(along) - slice.openStart)
    requires Offset(start) == Depth(along)
    requires Offset(end) == Depth(along) - slice.openStart + Document.Size(slice.content) - slice.openEnd
    ensures Offset(start) <= Offset(end) && Mid(start, end) == SliceTokens(slice)
  {
    MidIs(start, end);
    WrappedStretch(slice, along, Depth(along) - slice.openStart, Offset(start), Offset(end));
  }

  /** The slice's tokens, where they are in the wrapped slice. */
  lemma {:induction false} WrappedStretch(slice: Slice, along: Pos, k: nat, i: nat, j: nat)
    requires SliceOk(slice) && k <= Depth(along)
    requires i == k + slice.openStart && j == k + Document.Size(slice.content) - slice.openEnd
    ensures i <= j <= |Tokens(Wrap(slice, along, k).content)|
    ensures Tokens(Wrap(slice, along, k).content)[i..j] == SliceTokens(slice)
  {
    TokensSize(slice.content);
    OpensFit(slice.content, slice.openStart, slice.openEnd);
    WrapTokens(slice, along, k, slice.openStart, Document.Size(slice.content) - slice.openEnd);
  }

  lemma {:induction false} PreparedOffsets(slice: Slice, along: Pos)
    requires SliceOk(slice) && slice.openStart <= Depth(along)
    ensures var (start, end) := PrepareSlice(slice, along);
      && Offset(start) == Depth(along)
      && Offset(end) == Depth(along) - slice.openStart + Document.Size(slice.content) - slice.openEnd
  {
    var extra := Depth(along) - slice.openStart;
    WrapOk(slice, along, extra);
    OpensFit(Wrapped(slice, along).content, Depth(along), slice.openEnd + extra);
  }

  // ----- the splice -----

  lemma {:induction false} FlatSplice(a: Pos, b: Pos, slice: Slice)
    requires PosOk(a) && PosOk(b) && a.At? && b.At? && a.node == b.node && NodeOk(a.node)
    requires SliceOk(slice) && slice.openStart == slice.openEnd == 0
    ensures Tokens(FlatContent(a.node.content, a.parentOffset, b.parentOffset, slice.content)) ==
            Left(a) + SliceTokens(slice) + Right(b)
  {
    var f := a.node.content;
    SidesAre(a);
    SidesAre(b);
    TokensSize(f);
    FlatCutLeft(a);
    FlatCutRight(b);
    AppendTokens(Cut(f, 0, a.parentOffset), slice.content);
    AppendTokens(Append(Cut(f, 0, a.parentOffset), slice.content), Cut(f, b.parentOffset, Size(f)));
    TokensSize(slice.content);
    assert SliceTokens(slice) == Tokens(slice.content);
  }

  lemma {:induction false} FlatCutLeft(a: Pos)
    requires PosOk(a) && a.At? && NodeOk(a.node)
    ensures Tokens(Cut(a.node.content, 0, a.parentOffset)) == Left(a)
  {
    var f := a.node.content;
    SidesAre(a);
    TokensSize(f);
    OpensAtEnd(f);
    if a.parentOffset > 0 {
      CutTokens(f, 0, a.parentOffset);
      NothingOpenAt(a);
      assert Closes(0) == [];
      assert [] + Tokens(f)[0..a.parentOffset] + [] == Left(a);
    }
  }

  lemma {:induction false} FlatCutRight(b: Pos)
    requires PosOk(b) && b.At? && NodeOk(b.node)
    ensures Tokens(Cut(b.node.content, b.parentOffset, Size(b.node.content))) == Right(b)
  {
    var f := b.node.content;
    SidesAre(b);
    TokensSize(f);
    OpensAtEnd(f);
    if b.parentOffset < Size(f) {
      CutTokens(f, b.parentOffset, Size(f));
      NothingOpenAt(b);
      assert Closes(0) == [];
      assert Tokens(f)[b.parentOffset..Size(f)] == Right(b);
      assert [] + Right(b) + [] == Right(b);
    }
  }

  /** The opening tokens of the elements around a position. */
  ghost function Opens(r: Pos): seq<Token> {
    match r
    case At(_, _, _, _) => []
    case In(_, _, _, inner) => [Open(inner.node.markup)] + Opens(inner)
  }

  lemma {:induction false} OpensDepth(r: Pos)
    ensures |Opens(r)| == Depth(r)
  {
    if r.In? {
      OpensDepth(r.inner);
    }
  }

  /** Scanning for the elements around a position finds those it was resolved to be in. */
  lemma {:induction false} OpensAgree(r: Pos)
    requires PosOk(r) && NodeOk(r.node)
    ensures OpensIn(r.node.content, Offset(r)) == Opens(r)
    decreases r, 1
  {
    var f := r.node.content;
    SkipChildren(f, r.index, Offset(r));
    var rest := f[r.index..];
    if r.At? {
      if TextOffset(r) > 0 {
        assert rest[0] == f[r.index];
      } else {
        assert OpensIn(rest, 0) == [];
      }
    } else {
      assert rest[0] == f[r.index];
      SidesMeet(r.inner);
      TokensSize(r.inner.node.content);
      assert NodeOk(f[r.index]);
      OpensAgree(r.inner);
    }
  }

  lemma {:induction false} SkipChildren(f: Fragment, i: nat, p: int)
    requires FragmentOk(f) && i <= |f| && p >= Size(f[..i])
    ensures OpensIn(f, p) == OpensIn(f[i..], p - Size(f[..i]))
    decreases i
  {
    if i == 0 {
      assert f[0..] == f && f[..0] == [];
    } else {
      assert NodeOk(f[0]);
      assert f[..i] == [f[0]] + f[1..][..i - 1];
      TokensAppend([f[0]], f[1..][..i - 1]);
      TokensOne(f[0]);
      SkipChildren(f[1..], i - 1, p - NodeSize(f[0]));
      assert f[1..][i - 1..] == f[i..];
    }
  }

  lemma {:induction false} NothingOpenAt(r: Pos)
    requires PosOk(r) && r.At? && NodeOk(r.node)
    ensures OpensIn(r.node.content, r.parentOffset) == []
  {
    OpensAgree(r);
  }

  // ----- the operation, case by case -----

  lemma {:induction false} OpenContent(rules: Rules, a: Pos, b: Pos, slice: Slice, start: Pos, end: Pos)
    requires PosOk(a) && PosOk(b) && a.node == b.node && SliceOk(slice)
    requires slice.openStart <= Depth(a) && Depth(a) - slice.openStart == Depth(b) - slice.openEnd
    requires Document.Size(slice.content) != 0 && !(slice.openStart == 0 && slice.openEnd == 0 && a.At? && b.At?)
    requires (start, end) == PrepareSlice(slice, a) && Depth(start) == Depth(a) && Depth(end) == Depth(b)
    ensures NewContent(rules, a, b, slice) == ThreeWay(rules, a, start, end, b)
  {
  }

  lemma {:induction false} SharedIs(rules: Rules, a: Pos, b: Pos, slice: Slice)
    requires PosOk(a) && PosOk(b) && a.node == b.node && SliceOk(slice)
    requires slice.openStart <= Depth(a) && Depth(a) - slice.openStart == Depth(b) - slice.openEnd
    requires a.index == b.index && slice.openStart < Depth(a)
    ensures var r := ReplaceOuter(rules, a.inner, b.inner, slice);
      ReplaceOuter(rules, a, b, slice) == if r.Done? then Done(WithChild(a, r.value)) else r.PropagateFailure()
  {
  }

  lemma {:induction false} InnermostIs(rules: Rules, a: Pos, b: Pos, slice: Slice)
    requires PosOk(a) && PosOk(b) && a.node == b.node && SliceOk(slice)
    requires slice.openStart <= Depth(a) && Depth(a) - slice.openStart == Depth(b) - slice.openEnd
    requires !(a.index == b.index && slice.openStart < Depth(a))
    ensures var r := NewContent(rules, a, b, slice);
      ReplaceOuter(rules, a, b, slice) == if r.Done? then CloseNode(rules, a.node, r.value) else r.PropagateFailure()
  {
  }

  // ----- the splice, from the inside out -----

  lemma {:induction false} EmptyContentTokens(rules: Rules, a: Pos, b: Pos, slice: Slice)
    requires PosOk(a) && PosOk(b) && a.node == b.node && SliceOk(slice)
    requires slice.openStart <= Depth(a) && Depth(a) - slice.openStart == Depth(b) - slice.openEnd
    requires Document.Size(slice.content) == 0
    ensures var r := NewContent(rules, a, b, slice);
      r.Done? ==> Tokens(r.value) == Left(a) + SliceTokens(slice) + Right(b)
  {
    NothingOpen(slice);
    TokensSize(slice.content);
    TwoWayTokens(rules, a, b);
    assert SliceTokens(slice) == [];
    NoMiddle(Left(a), Right(b));
  }

  lemma {:induction false} OpenContentTokens(rules: Rules, a: Pos, b: Pos, slice: Slice)
    requires PosOk(a) && PosOk(b) && a.node == b.node && SliceOk(slice)
    requires slice.openStart <= Depth(a) && Depth(a) - slice.openStart == Depth(b) - slice.openEnd
    requires Document.Size(slice.content) != 0 && !(slice.openStart == 0 && slice.openEnd == 0 && a.At? && b.At?)
    ensures var r := NewContent(rules, a, b, slice);
      r.Done? ==> Tokens(r.value) == Left(a) + SliceTokens(slice) + Right(b)
  {
    PreparedDepths(slice, a);
    PreparedMid(slice, a);
    var (start, end) := PrepareSlice(slice, a);
    OpenContent(rules, a, b, slice, start, end);
    ThreeWaySplice(rules, a, start, end, b);
  }

  /** The innermost level, where the slice goes. */
  lemma {:induction false} NewContentTokens(rules: Rules, a: Pos, b: Pos, slice: Slice)
    requires PosOk(a) && PosOk(b) && a.node == b.node && SliceOk(slice) && NodeOk(a.node)
    requires slice.openStart <= Depth(a) && Depth(a) - slice.openStart == Depth(b) - slice.openEnd
    ensures var r := NewContent(rules, a, b, slice);
      r.Done? ==> Tokens(r.value) == Left(a) + SliceTokens(slice) + Right(b)
  {
    if Document.Size(slice.content) == 0 {
      EmptyContentTokens(rules, a, b, slice);
    } else if slice.openStart == 0 && slice.openEnd == 0 && a.At? && b.At? {
      FlatSplice(a, b, slice);
    } else {
      OpenContentTokens(rules, a, b, slice);
    }
  }

  /** What comes of `a` is the element with what is before it, the slice, and what is after `b`. */
  ghost predicate Spliced(a: Pos, b: Pos, mid: seq<Token>, r: Outcome<Node>)
    requires PosOk(a) && PosOk(b)
  {
    r.Done? ==>
      r.value.Elem? && r.value.markup == a.node.markup && Tokens(r.value.content) == Left(a) + mid + Right(b)
  }

  lemma {:induction false} InnermostSplice(rules: Rules, a: Pos, b: Pos, slice: Slice)
    requires PosOk(a) && PosOk(b) && a.node == b.node && SliceOk(slice) && NodeOk(a.node)
    requires slice.openStart <= Depth(a) && Depth(a) - slice.openStart == Depth(b) - slice.openEnd
    requires !(a.index == b.index && slice.openStart < Depth(a))
    ensures Spliced(a, b, SliceTokens(slice), ReplaceOuter(rules, a, b, slice))
  {
    InnermostIs(rules, a, b, slice);
    NewContentTokens(rules, a, b, slice);
  }

  lemma {:induction false} SharedSplice(rules: Rules, a: Pos, b: Pos, slice: Slice, mid: seq<Token>)
    requires PosOk(a) && PosOk(b) && a.node == b.node && SliceOk(slice)
    requires slice.openStart <= Depth(a) && Depth(a) - slice.openStart == Depth(b) - slice.openEnd
    requires a.index == b.index && slice.openStart < Depth(a)
    requires Spliced(a.inner, b.inner, mid, ReplaceOuter(rules, a.inner, b.inner, slice))
    ensures Spliced(a, b, mid, ReplaceOuter(rules, a, b, slice))
  {
    SharedIs(rules, a, b, slice);
    var child := ReplaceOuter(rules, a.inner, b.inner, slice);
    if child.Done? {
      ChildReplaced(a, b, child.value, mid);
    }
  }

  /** A successful replacement leaves what is before `a`, then the slice, then what is after `b`. */
  lemma {:induction false} OuterSplice(rules: Rules, a: Pos, b: Pos, slice: Slice)
    requires PosOk(a) && PosOk(b) && a.node == b.node && SliceOk(slice) && NodeOk(a.node)
    requires slice.openStart <= Depth(a) && Depth(a) - slice.openStart == Depth(b) - slice.openEnd
    ensures Spliced(a, b, SliceTokens(slice), ReplaceOuter(rules, a, b, slice))
    decreases a
  {
    if a.index == b.index && slice.openStart < Depth(a) {
      assert NodeOk(a.node.content[a.index]);
      OuterSplice(rules, a.inner, b.inner, slice);
      SharedSplice(rules, a, b, slice, SliceTokens(slice));
    } else {
      InnermostSplice(rules, a, b, slice);
    }
  }

  lemma {:induction false} ChildReplaced(a: Pos, b: Pos, child: Node, mid: seq<Token>)
    requires PosOk(a) && PosOk(b) && a.node == b.node && a.In? && b.In? && a.index == b.index
    requires child.Elem? && child.markup == a.inner.node.markup
    requires Tokens(child.content) == Left(a.inner) + mid + Right(b.inner)
    ensures Tokens(WithChild(a, child).content) == Left(a) + mid + Right(b)
  {
    var f := a.node.content;
    var i := a.index;
    var g := f[i := child];
    TokensAround(g, i);
    assert g[..i] == f[..i] && g[i + 1..] == f[i + 1..];
    var pre, post := Tokens(f[..i]), Tokens(f[i + 1..]);
    WrapInside(pre, [Open(child.markup)], Left(a.inner), mid, Right(b.inner), [Close]);
    Assoc(pre, [Open(child.markup)], Left(a.inner));
    Tail4(Left(a), mid, Right(b.inner), [Close], post);
  }

  /**
   * A replacement that succeeds is a splice of the token string, through every way of opening
   * the slice on either side: the document's tokens up to `from`, the slice's, and the
   * document's from `end` on.
   */
  lemma {:induction false} ReplaceIsSplice(rules: Rules, doc: Node, from: nat, end: nat, slice: Slice)
    requires doc.Elem? && NodeOk(doc) && SliceOk(slice)
    ensures var r := ReplaceNode(rules, doc, from, end, slice);
      var t := Tokens(doc.content);
      r.Done? ==>
        && from <= |t| && end <= |t|
        && r.value.Elem? && r.value.markup == doc.markup
        && Tokens(r.value.content) == t[..from] + SliceTokens(slice) + t[end..]
  {
    var r := ReplaceNode(rules, doc, from, end, slice);
    if r.Done? {
      TokensSize(doc.content);
      var a, b := Resolve(doc, from), Resolve(doc, end);
      OuterSplice(rules, a, b, slice);
      SidesAre(a);
      SidesAre(b);
    }
  }
}
