/** When the inverse of a replace step can be applied: an exact condition, and a step it excludes. */
module Undo {
  import opened Basics
  import opened Document
  import opened Resolved
  import opened Replace
  import opened JoinTokens
  import opened CutContent
  import opened Splice
  import opened DocSlice
  import opened Normal
  import opened Joins
  import opened ReplaceStep

  // ----- depth, counted from the tokens -----

  ghost function Balance(t: seq<Token>): int {
    if t == [] then 0 else (if t[0].Open? then 1 else if t[0].Close? then -1 else 0) + Balance(t[1..])
  }

  lemma {:induction false} BalanceAppend(a: seq<Token>, b: seq<Token>)
    ensures Balance(a + b) == Balance(a) + Balance(b)
  {
    if a == [] {
      assert a + b == b;
    } else {
      assert (a + b)[1..] == a[1..] + b;
      BalanceAppend(a[1..], b);
    }
  }

  lemma {:induction false} BalanceChars(markup: Markup, text: string)
    ensures Balance(Chars(markup, text)) == 0
    decreases |text|
  {
    if text != "" {
      assert Chars(markup, text)[1..] == Chars(markup, text[1..]);
      BalanceChars(markup, text[1..]);
    }
  }

  lemma {:induction false} BalanceNode(n: Node)
    ensures Balance(NodeTokens(n)) == 0
    decreases n, 1
  {
    match n
    case Text(markup, text) => BalanceChars(markup, text);
    case Leaf(markup) => assert [LeafToken(markup)][1..] == [];
    case Elem(markup, content) =>
      assert [Open(markup)][1..] == [] && [Close][1..] == [];
      BalanceAppend([Open(markup)] + Tokens(content), [Close]);
      BalanceAppend([Open(markup)], Tokens(content));
      BalanceTokens(content);
  }

  lemma {:induction false} BalanceTokens(f: Fragment)
    ensures Balance(Tokens(f)) == 0
    decreases f, 0
  {
    if f != [] {
      BalanceAppend(NodeTokens(f[0]), Tokens(f[1..]));
      BalanceNode(f[0]);
      BalanceTokens(f[1..]);
    }
  }

  lemma {:induction false} BalanceLeft(r: Pos)
    requires PosOk(r)
    ensures Balance(Left(r)) == Depth(r)
    decreases r
  {
    var pre := Tokens(r.node.content[..r.index]);
    BalanceTokens(r.node.content[..r.index]);
    match r {
      case At(_, _, _, _) =>
        if TextOffset(r) > 0 {
          BalanceAppend(pre, NodeTokens(NodeBefore(r)));
          BalanceNode(NodeBefore(r));
        } else {
          assert pre + [] == pre;
        }
      case In(_, _, _, inner) =>
        BalanceAppend(pre, [Open(inner.node.markup)] + Left(inner));
        BalanceAppend([Open(inner.node.markup)], Left(inner));
        assert [Open(inner.node.markup)][1..] == [];
        BalanceLeft(inner);
    }
  }

  // ----- the open sides of a slice, in its tokens -----

  lemma {:induction false} LeftTokens(f: Fragment, k: nat)
    requires OpensLeft(f, k)
    ensures k <= |Tokens(f)|
    ensures forall i | 0 <= i < k :: Tokens(f)[i] == Open(LeftPath(f, k)[i])
    decreases k
  {
    if k > 0 {
      LeftTokens(f[0].content, k - 1);
      var nt := NodeTokens(f[0]);
      forall i | 0 <= i < k
        ensures Tokens(f)[i] == Open(LeftPath(f, k)[i])
      {
        assert Tokens(f)[i] == nt[i];
        assert i > 0 ==> nt[i] == Tokens(f[0].content)[i - 1];
      }
    }
  }

  lemma {:induction false} RightTokens(f: Fragment, k: nat, st: seq<Markup>)
    requires OpensRight(f, k)
    ensures k <= |Tokens(f)|
    ensures Tokens(f)[|Tokens(f)| - k..] == Closes(k)
    ensures StackAfter(st, Tokens(f)[..|Tokens(f)| - k]) == st + RightPath(f, k)
    decreases k
  {
    if k == 0 {
      StackTokens(st, f);
      assert Tokens(f)[..|Tokens(f)|] == Tokens(f);
      assert st + [] == st;
    } else {
      var last := |f| - 1;
      var n := f[last];
      var pre, inner := Tokens(f[..last]), Tokens(n.content);
      TokensAround(f, last);
      assert f[last + 1..] == [];
      assert Tokens(f) == pre + ([Open(n.markup)] + inner + [Close]);
      RightTokens(n.content, k - 1, st + [n.markup]);
      LastTokens(pre, Open(n.markup), inner, Close, k);
      ClosesMore(k - 1);
      StackTokens(st, f[..last]);
      StackInto(st, pre, n.markup, inner[..|inner| - (k - 1)], RightPath(n.content, k - 1));
    }
  }

  /** Past whole nodes, and into an element. */
  lemma {:induction false} StackInto(st: seq<Markup>, pre: seq<Token>, m: Markup, inner: seq<Token>, path: seq<Markup>)
    requires StackAfter(st, pre) == st && StackAfter(st + [m], inner) == (st + [m]) + path
    ensures StackAfter(st, pre + ([Open(m)] + inner)) == st + ([m] + path)
  {
    StackAppend(st, pre, [Open(m)] + inner);
    StackAppend(st, [Open(m)], inner);
    assert [Open(m)][1..] == [];
    assert StackAfter(st, [Open(m)]) == st + [m];
    Assoc(st, [m], path);
  }

  lemma {:induction false} LastTokens<T>(pre: seq<T>, o: T, inner: seq<T>, c: T, k: nat)
    requires 0 < k <= |inner| + 1
    ensures var t := pre + ([o] + inner + [c]);
      && t[|t| - k..] == inner[|inner| - (k - 1)..] + [c]
      && t[..|t| - k] == pre + ([o] + inner[..|inner| - (k - 1)])
  {
  }

  /** A slice takes the depth from the one of its open sides to the other. */
  lemma {:induction false} SliceBalance(slice: Slice)
    requires SliceOk(slice)
    ensures Balance(SliceTokens(slice)) == slice.openEnd - slice.openStart
  {
    var t := Tokens(slice.content);
    OpensFit(slice.content, slice.openStart, slice.openEnd);
    TokensSize(slice.content);
    var left, right := t[..slice.openStart], t[|t| - slice.openEnd..];
    assert forall k | 0 <= k < |left| :: left[k].Open? by {
      LeftTokens(slice.content, slice.openStart);
    }
    assert forall k | 0 <= k < |right| :: right[k].Close? by {
      RightTokens(slice.content, slice.openEnd, []);
    }
    BalanceTokens(slice.content);
    BalanceBetween(t, slice.openStart, |t| - slice.openEnd);
  }

  lemma {:induction false} BalanceBetween(t: seq<Token>, i: nat, j: nat)
    requires i <= j <= |t| && Balance(t) == 0
    requires forall k | 0 <= k < i :: t[..i][k].Open?
    requires forall k | 0 <= k < |t| - j :: t[j..][k].Close?
    ensures Balance(t[i..j]) == |t| - j - i
  {
    assert t == t[..i] + t[i..j] + t[j..];
    BalanceAppend(t[..i] + t[i..j], t[j..]);
    BalanceAppend(t[..i], t[i..j]);
    AllOpenBalance(t[..i]);
    AllCloseBalance(t[j..]);
  }

  lemma {:induction false} AllOpenBalance(t: seq<Token>)
    requires forall i | 0 <= i < |t| :: t[i].Open?
    ensures Balance(t) == |t|
  {
    if t != [] {
      AllOpenBalance(t[1..]);
    }
  }

  lemma {:induction false} AllCloseBalance(t: seq<Token>)
    requires forall i | 0 <= i < |t| :: t[i].Close?
    ensures Balance(t) == -|t|
  {
    if t != [] {
      AllCloseBalance(t[1..]);
    }
  }

  // ----- the slice a step cuts out -----

  lemma {:induction false} StackOpens(st: seq<Markup>, r: Pos)
    ensures StackAfter(st, Opens(r)) == st + Path(r)
    decreases r
  {
    match r
    case At(_, _, _, _) => assert st + [] == st;
    case In(_, _, _, inner) =>
      StackAppend(st, [Open(inner.node.markup)], Opens(inner));
      assert [Open(inner.node.markup)][1..] == [];
      assert StackAfter(st, [Open(inner.node.markup)]) == st + [inner.node.markup];
      StackOpens(st + [inner.node.markup], inner);
      Assoc(st, [inner.node.markup], Path(inner));
  }

  lemma {:induction false} OpensPath(r: Pos)
    ensures |Opens(r)| == Depth(r) && forall i | 0 <= i < Depth(r) :: Opens(r)[i] == Open(Path(r)[i])
  {
    if r.In? {
      OpensPath(r.inner);
    }
  }

  /** A cut-out slice is open along the elements around its two ends. */
  lemma {:induction false} CutLeftPath(a: Pos, c: Fragment, rest: seq<Token>)
    requires OpensLeft(c, Depth(a)) && Tokens(c) == Opens(a) + rest
    ensures LeftPath(c, Depth(a)) == Path(a)
  {
    LeftTokens(c, Depth(a));
    OpensPath(a);
    forall i | 0 <= i < Depth(a)
      ensures LeftPath(c, Depth(a))[i] == Path(a)[i]
    {
      assert Tokens(c)[i] == Opens(a)[i];
    }
  }

  lemma {:induction false} CutRightPath(a: Pos, b: Pos, c: Fragment, x: seq<Token>)
    requires PosOk(a) && PosOk(b) && OpensRight(c, Depth(b))
    requires Tokens(c) == Opens(a) + x + Closes(Depth(b)) && Left(a) + x == Left(b)
    ensures RightPath(c, Depth(b)) == Path(b)
  {
    RightTokens(c, Depth(b), []);
    Stretch(Opens(a) + x, [], Closes(Depth(b)));
    assert Tokens(c)[..|Tokens(c)| - Depth(b)] == Opens(a) + x;
    StackAppend([], Opens(a), x);
    StackOpens([], a);
    StackAppend([], Left(a), x);
    StackLeft([], a);
    StackLeft([], b);
    assert [] + Path(a) == Path(a) && [] + Path(b) == Path(b);
    assert [] + RightPath(c, Depth(b)) == RightPath(c, Depth(b));
  }

  lemma {:induction false} LeftUpTo(a: Pos, b: Pos)
    requires PosOk(a) && PosOk(b) && a.node == b.node && Offset(a) <= Offset(b)
    ensures Offset(b) <= |Tokens(a.node.content)|
    ensures Left(a) + Tokens(a.node.content)[Offset(a)..Offset(b)] == Left(b)
  {
    SidesAre(a);
    SidesAre(b);
  }

  lemma {:induction false} CutPaths(a: Pos, b: Pos)
    requires PosOk(a) && PosOk(b) && a.node == b.node && NodeOk(a.node) && Offset(a) < Offset(b)
    ensures var c := Cut(a.node.content, Offset(a), Offset(b));
      && OpensLeft(c, Depth(a)) && OpensRight(c, Depth(b))
      && LeftPath(c, Depth(a)) == Path(a) && RightPath(c, Depth(b)) == Path(b)
  {
    var c := Cut(a.node.content, Offset(a), Offset(b));
    CutSlice(a, b);
    LeftUpTo(a, b);
    var x := Tokens(a.node.content)[Offset(a)..Offset(b)];
    Assoc(Opens(a), x, Closes(Depth(b)));
    CutLeftPath(a, c, x + Closes(Depth(b)));
    CutRightPath(a, b, c, x);
  }

  /** `p` and `q`, the elements around two positions, are the open sides of the slice inside of what they share. */
  ghost predicate SlicedAlong(p: seq<Markup>, q: seq<Markup>, s: Slice) {
    && SliceOk(s) && s.openStart <= |p| && s.openEnd <= |q|
    && |p| - s.openStart == |q| - s.openEnd
    && var d := |p| - s.openStart;
    && p[..d] == q[..d]
    && LeftPath(s.content, s.openStart) == p[d..]
    && RightPath(s.content, s.openEnd) == q[d..]
  }

  lemma {:induction false} SlicedDeeper(m: Markup, p: seq<Markup>, q: seq<Markup>, s: Slice)
    requires SlicedAlong(p, q, s)
    ensures SlicedAlong([m] + p, [m] + q, s)
  {
    var d := |p| - s.openStart;
    assert ([m] + p)[..d + 1] == [m] + p[..d];
    assert ([m] + q)[..d + 1] == [m] + q[..d];
    assert ([m] + p)[d + 1..] == p[d..] && ([m] + q)[d + 1..] == q[d..];
  }

  lemma {:induction false} SlicePaths(a: Pos, b: Pos)
    requires PosOk(a) && PosOk(b) && a.node == b.node && NodeOk(a.node) && Offset(a) < Offset(b)
    ensures SlicedAlong(Path(a), Path(b), SliceBetween(a, b))
    decreases a
  {
    if InSameChild(a, b) {
      SameChild(a, b);
      ChildOk(a.node, a.index);
      SlicePaths(a.inner, b.inner);
      SlicedDeeper(a.inner.node.markup, Path(a.inner), Path(b.inner), SliceBetween(a, b));
    } else {
      CutPaths(a, b);
      CutSlice(a, b);
      assert Path(a)[0..] == Path(a) && Path(b)[0..] == Path(b);
    }
  }

  // ----- the condition -----

  lemma {:induction false} InverseDepth(rules: Rules, doc: Node, step: ReplaceStep)
    requires StepOk(step, doc) && Apply(rules, doc, step).Done? && NodeOk(Apply(rules, doc, step).value)
    ensures StepOk(Inverse(step, doc), Apply(rules, doc, step).value)
    ensures Depth(Resolve(Apply(rules, doc, step).value, Inverse(step, doc).end)) == Depth(Resolve(doc, step.end))
  {
    InverseStepOk(rules, doc, step);
    var doc' := Apply(rules, doc, step).value;
    ApplyTokens(rules, doc, step);
    ReplaceSucceedsIff(rules, doc, step.from, step.end, step.slice);
    var a, b := Resolve(doc, step.from), Resolve(doc', Inverse(step, doc).end);
    SidesAre(a);
    SidesAre(b);
    SpliceParts(Tokens(doc.content), step.from, step.end, SliceTokens(step.slice));
    assert Left(b) == Left(a) + SliceTokens(step.slice);
    BalanceAppend(Left(a), SliceTokens(step.slice));
    BalanceLeft(a);
    BalanceLeft(b);
    SliceBalance(step.slice);
  }

  /** Around the start of the replaced stretch nothing has changed. */
  lemma {:induction false} InverseStart(rules: Rules, doc: Node, step: ReplaceStep)
    requires StepOk(step, doc) && Apply(rules, doc, step).Done? && NodeOk(Apply(rules, doc, step).value)
    ensures StepOk(Inverse(step, doc), Apply(rules, doc, step).value)
    ensures Path(Resolve(Apply(rules, doc, step).value, step.from)) == Path(Resolve(doc, step.from))
  {
    InverseStepOk(rules, doc, step);
    var doc' := Apply(rules, doc, step).value;
    ApplyTokens(rules, doc, step);
    SpliceParts(Tokens(doc.content), step.from, step.end, SliceTokens(step.slice));
    TokensSize(doc.content);
    TokensSize(doc'.content);
    SamePath(doc, doc', step.from);
  }

  lemma {:induction false} CutSliceAlong(doc: Node, step: ReplaceStep)
    requires StepOk(step, doc)
    ensures SlicedAlong(Path(Resolve(doc, step.from)), Path(Resolve(doc, step.end)), SliceOf(doc, step.from, step.end))
  {
    var a, b := Resolve(doc, step.from), Resolve(doc, step.end);
    if step.from < step.end {
      SlicePaths(a, b);
    } else {
      assert Path(a)[Depth(a)..] == [];
    }
  }

  lemma {:induction false} Rejoin<T>(p: seq<T>, q: seq<T>, d: nat, left: seq<T>, right: seq<T>)
    requires d <= |p| && d <= |q| && p[..d] == q[..d] && left == p[d..] && right == q[d..]
    ensures p[..d] + left == p && p[..d] + right == q
  {
  }

  /** All that undoing joins on the left is what was there; on the right it is the condition. */
  lemma {:induction false} InverseJoins(rules: Rules, p: seq<Markup>, q: seq<Markup>, now: seq<Markup>, s: Slice)
    requires SlicedAlong(p, q, s)
    ensures JoinsOk(rules, p, now, s) <==> PathsCompatible(rules, q, now)
  {
    Rejoin(p, q, |p| - s.openStart, LeftPath(s.content, s.openStart), RightPath(s.content, s.openEnd));
    PathsSame(rules, p);
  }

  /**
   * Undoing a replacement succeeds exactly when, level by level, the element now around the end of
   * the new content is compatible with the one that was around the end of the old, and the
   * elements around the ends of the old content are valid. When it succeeds it gives the document
   * back.
   */
  lemma {:induction false} UndoSucceedsIff(rules: Rules, doc: Node, step: ReplaceStep)
    requires StepOk(step, doc) && NodeNormal(doc) && FragmentNormal(step.slice.content)
    requires Apply(rules, doc, step).Done?
    ensures NodeOk(Apply(rules, doc, step).value)
    ensures StepOk(Inverse(step, doc), Apply(rules, doc, step).value) && Inverse(step, doc).slice.Size() >= 0
    ensures var doc', inverse := Apply(rules, doc, step).value, Inverse(step, doc);
      Apply(rules, doc', inverse) == Done(doc) <==>
        && PathsCompatible(rules, Path(Resolve(doc, step.end)), Path(Resolve(doc', inverse.end)))
        && OutcomeValid(rules, doc', inverse.from, inverse.end, inverse.slice, doc)
  {
    var doc' := Apply(rules, doc, step).value;
    InverseOk(rules, doc, step);
    NormalOk(doc');
    var inverse := Inverse(step, doc);
    InverseCondition(rules, doc, step, doc', inverse);
    ReplaceSucceedsIff(rules, doc', inverse.from, inverse.end, inverse.slice);
    InverseTokens(rules, Lenient(), doc, step);
    UndoRestores(rules, doc, step);
  }

  lemma {:induction false} InverseCondition(rules: Rules, doc: Node, step: ReplaceStep, doc': Node,
          inverse: ReplaceStep)
    requires StepOk(step, doc) && NodeNormal(doc) && FragmentNormal(step.slice.content)
    requires Apply(rules, doc, step) == Done(doc') && NodeOk(doc') && StepOk(inverse, doc')
    requires inverse == Inverse(step, doc)
    ensures DepthsOk(doc', inverse.from, inverse.end, inverse.slice)
    ensures JoinsOk(rules, Path(Resolve(doc', inverse.from)), Path(Resolve(doc', inverse.end)), inverse.slice) <==>
            PathsCompatible(rules, Path(Resolve(doc, step.end)), Path(Resolve(doc', inverse.end)))
  {
    var a, b := Resolve(doc, step.from), Resolve(doc, step.end);
    var a', b' := Resolve(doc', inverse.from), Resolve(doc', inverse.end);
    InverseDepth(rules, doc, step);
    InverseStart(rules, doc, step);
    CutSliceAlong(doc, step);
    assert Depth(a') == |Path(a')| == |Path(a)| == Depth(a);
    InverseJoins(rules, Path(a), Path(b), Path(b'), inverse.slice);
  }

  /** In a valid document only the types matter. */
  lemma {:induction false} UndoInValid(rules: Rules, doc: Node, step: ReplaceStep)
    requires StepOk(step, doc) && NodeNormal(doc) && FragmentNormal(step.slice.content) && AllValid(rules, doc)
    requires Apply(rules, doc, step).Done?
    ensures NodeOk(Apply(rules, doc, step).value)
    ensures StepOk(Inverse(step, doc), Apply(rules, doc, step).value)
    ensures var doc', inverse := Apply(rules, doc, step).value, Inverse(step, doc);
      Apply(rules, doc', inverse) == Done(doc) <==>
      PathsCompatible(rules, Path(Resolve(doc, step.end)), Path(Resolve(doc', inverse.end)))
  {
    UndoSucceedsIff(rules, doc, step);
    var doc', inverse := Apply(rules, doc, step).value, Inverse(step, doc);
    ValidOutcome(rules, doc', inverse.from, inverse.end, inverse.slice, doc);
  }

  // ----- the elements around a position of a given document -----

  lemma {:induction false} PathFromTokens(doc: Node, p: nat)
    requires doc.Elem? && NodeOk(doc) && p <= Document.Size(doc.content)
    ensures p <= |Tokens(doc.content)| && Path(Resolve(doc, p)) == StackAfter([], Tokens(doc.content)[..p])
  {
    var r := Resolve(doc, p);
    SidesAre(r);
    StackLeft([], r);
    assert [] + Path(r) == Path(r);
  }

  lemma {:induction false} StackOne(st: seq<Markup>, t: Token)
    ensures StackAfter(st, [t]) == Next(st, t)
  {
    assert [t][1..] == [];
  }
}
