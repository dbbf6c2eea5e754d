/**
 * Normal fragments, in which texts with the same markup have been run together. Every operation
 * here keeps fragments normal, and a normal fragment is determined by its tokens.
 */
module Normal {
  import opened Basics
  import opened Options
  import opened Document
  import opened Resolved
  import opened Replace
  import opened JoinTokens
  import opened CutContent
  import opened Splice
  import opened DocSlice

  predicate Joinable(a: Node, b: Node) {
    a.Text? && b.Text? && a.markup == b.markup
  }

  predicate NodeNormal(n: Node) {
    match n
    case Text(_, text) => text != ""
    case Leaf(_) => true
    case Elem(_, content) => FragmentNormal(content)
  }

  predicate FragmentNormal(f: Fragment) {
    && (forall i | 0 <= i < |f| :: NodeNormal(f[i]))
    && forall i {:trigger f[i]} | 0 < i < |f| :: !Joinable(f[i - 1], f[i])
  }

  lemma {:induction false} NormalOk(n: Node)
    requires NodeNormal(n)
    ensures NodeOk(n)
    decreases n, 1
  {
    if n.Elem? {
      FragmentNormalOk(n.content);
    }
  }

  lemma {:induction false} FragmentNormalOk(f: Fragment)
    requires FragmentNormal(f)
    ensures FragmentOk(f)
    decreases f, 0
  {
    forall i | 0 <= i < |f|
      ensures NodeOk(f[i])
    {
      NormalOk(f[i]);
    }
  }

  // ----- a normal fragment is determined by its tokens -----

  /** What can follow a fragment: nothing, or the end of the element it is in. */
  predicate Stops(s: seq<Token>) {
    s == [] || s[0] == Close
  }

  lemma {:induction false} FirstToken(n: Node)
    requires NodeOk(n)
    ensures NodeTokens(n) != []
    ensures NodeTokens(n)[0] == match n
                                case Text(markup, text) => Char(markup, text[0])
                                case Leaf(markup) => LeafToken(markup)
                                case Elem(markup, _) => Open(markup)
  {
  }

  lemma {:induction false} TailNormal(f: Fragment)
    requires FragmentNormal(f) && f != []
    ensures NodeNormal(f[0]) && FragmentNormal(f[1..])
  {
    forall i {:trigger f[1..][i]} | 0 < i < |f[1..]|
      ensures !Joinable(f[1..][i - 1], f[1..][i])
    {
      assert f[1..][i] == f[i + 1] && f[1..][i - 1] == f[i];
    }
  }

  lemma {:induction false} Unfold(f: Fragment, s: seq<Token>)
    requires f != []
    ensures Tokens(f) + s == NodeTokens(f[0]) + (Tokens(f[1..]) + s)
  {
    Assoc(NodeTokens(f[0]), Tokens(f[1..]), s);
  }

  lemma {:induction false} SameTail<T>(a: seq<T>, x: seq<T>, b: seq<T>, y: seq<T>)
    requires a + x == b + y && |a| == |b|
    ensures a == b && x == y
  {
    assert (a + x)[..|a|] == a && (b + y)[..|b|] == b;
    assert (a + x)[|a|..] == x && (b + y)[|b|..] == y;
  }

  lemma {:induction false} UniqueParse(f: Fragment, s: seq<Token>, g: Fragment, t: seq<Token>)
    requires FragmentNormal(f) && FragmentNormal(g) && Stops(s) && Stops(t)
    requires Tokens(f) + s == Tokens(g) + t
    ensures f == g && s == t
    decreases f
  {
    FragmentNormalOk(f);
    FragmentNormalOk(g);
    if f == [] || g == [] {
      EmptyParse(f, s, g, t);
    } else {
      TailNormal(f);
      TailNormal(g);
      Unfold(f, s);
      Unfold(g, t);
      var n, m := f[0], g[0];
      FirstToken(n);
      FirstToken(m);
      assert (Tokens(f) + s)[0] == NodeTokens(n)[0] && (Tokens(g) + t)[0] == NodeTokens(m)[0];
      if n.Elem? {
        ElemParse(n, Tokens(f[1..]) + s, m, Tokens(g[1..]) + t);
        UniqueParse(n.content, [Close] + (Tokens(f[1..]) + s), m.content, [Close] + (Tokens(g[1..]) + t));
        SameTail([Close], Tokens(f[1..]) + s, [Close], Tokens(g[1..]) + t);
      } else if n.Text? {
        TextParse(f, s, g, t);
      } else {
        SameTail(NodeTokens(n), Tokens(f[1..]) + s, NodeTokens(m), Tokens(g[1..]) + t);
      }
      UniqueParse(f[1..], s, g[1..], t);
      assert f == [f[0]] + f[1..] && g == [g[0]] + g[1..];
    }
  }

  lemma {:induction false} GoesOn(f: Fragment, s: seq<Token>)
    requires FragmentOk(f) && f != []
    ensures !Stops(Tokens(f) + s)
  {
    FirstToken(f[0]);
    assert (Tokens(f) + s)[0] == NodeTokens(f[0])[0];
  }

  lemma {:induction false} EmptyParse(f: Fragment, s: seq<Token>, g: Fragment, t: seq<Token>)
    requires FragmentOk(f) && FragmentOk(g) && Stops(s) && Stops(t)
    requires Tokens(f) + s == Tokens(g) + t && (f == [] || g == [])
    ensures f == g && s == t
  {
    assert [] + s == s && [] + t == t;
    if f != [] {
      GoesOn(f, s);
    }
    if g != [] {
      GoesOn(g, t);
    }
  }

  lemma {:induction false} ElemParse(n: Node, x: seq<Token>, m: Node, y: seq<Token>)
    requires n.Elem? && m.Elem? && NodeTokens(n) + x == NodeTokens(m) + y && n.markup == m.markup
    ensures Tokens(n.content) + ([Close] + x) == Tokens(m.content) + ([Close] + y)
  {
    assert NodeTokens(n) + x == [Open(n.markup)] + (Tokens(n.content) + ([Close] + x));
    assert NodeTokens(m) + y == [Open(m.markup)] + (Tokens(m.content) + ([Close] + y));
    SameTail([Open(n.markup)], Tokens(n.content) + ([Close] + x), [Open(m.markup)], Tokens(m.content) + ([Close] + y));
  }

  /** Behind a text of a normal fragment comes no character with the same markup. */
  lemma {:induction false} TextEnds(f: Fragment, s: seq<Token>)
    requires FragmentNormal(f) && f != [] && f[0].Text? && Stops(s)
    ensures var rest := Tokens(f[1..]) + s;
      rest != [] ==> !(rest[0].Char? && rest[0].markup == f[0].markup)
  {
    if |f| > 1 {
      FragmentNormalOk(f);
      assert f[1..][0] == f[1];
      FirstToken(f[1]);
      assert (Tokens(f[1..]) + s)[0] == NodeTokens(f[1])[0];
      assert !Joinable(f[0], f[1]);
    }
  }

  lemma {:induction false} TextParse(f: Fragment, s: seq<Token>, g: Fragment, t: seq<Token>)
    requires FragmentNormal(f) && FragmentNormal(g) && Stops(s) && Stops(t) && f != [] && g != []
    requires f[0].Text? && g[0].Text? && f[0].markup == g[0].markup
    requires Tokens(f) + s == Tokens(g) + t
    ensures f[0] == g[0] && Tokens(f[1..]) + s == Tokens(g[1..]) + t
  {
    Unfold(f, s);
    Unfold(g, t);
    TextEnds(f, s);
    TextEnds(g, t);
    var a, b := f[0].text, g[0].text;
    var x, y := Tokens(f[1..]) + s, Tokens(g[1..]) + t;
    assert NodeTokens(f[0]) + x == NodeTokens(g[0]) + y;
    SameLength(f[0], x, g[0], y);
    SameTail(NodeTokens(f[0]), x, NodeTokens(g[0]), y);
    forall i | 0 <= i < |a|
      ensures a[i] == b[i]
    {
      assert NodeTokens(f[0])[i] == NodeTokens(g[0])[i];
    }
  }

  lemma {:induction false} LongerText(n: Node, x: seq<Token>, m: Node, y: seq<Token>)
    requires n.Text? && m.Text? && n.markup == m.markup && NodeTokens(n) + x == NodeTokens(m) + y
    requires |n.text| < |m.text|
    ensures x != [] && x[0].Char? && x[0].markup == n.markup
  {
    var whole := NodeTokens(n) + x;
    assert |whole| == |m.text| + |y|;
    assert whole[|n.text|] == x[0];
    assert (NodeTokens(m) + y)[|n.text|] == NodeTokens(m)[|n.text|];
  }

  lemma {:induction false} SameLength(n: Node, x: seq<Token>, m: Node, y: seq<Token>)
    requires n.Text? && m.Text? && n.markup == m.markup && NodeTokens(n) + x == NodeTokens(m) + y
    requires x != [] ==> !(x[0].Char? && x[0].markup == n.markup)
    requires y != [] ==> !(y[0].Char? && y[0].markup == m.markup)
    ensures |n.text| == |m.text|
  {
    if |n.text| < |m.text| {
      LongerText(n, x, m, y);
    } else if |m.text| < |n.text| {
      LongerText(m, y, n, x);
    }
  }

  /** Two normal documents with the same tokens are the same document. */
  lemma {:induction false} TokensDetermine(f: Fragment, g: Fragment)
    requires FragmentNormal(f) && FragmentNormal(g) && Tokens(f) == Tokens(g)
    ensures f == g
  {
    assert Tokens(f) + [] == Tokens(f) && Tokens(g) + [] == Tokens(g);
    UniqueParse(f, [], g, []);
  }

  // ----- operations keep fragments normal -----

  lemma {:induction false} AddNodeNormal(child: Node, target: Fragment)
    requires NodeNormal(child) && FragmentNormal(target)
    ensures FragmentNormal(AddNode(child, target))
  {
    var r := AddNode(child, target);
    var last := |target| - 1;
    if last >= 0 && Joinable(child, target[last]) {
      forall i {:trigger r[i]} | 0 < i < |r|
        ensures !Joinable(r[i - 1], r[i])
      {
        assert !Joinable(target[i - 1], target[i]);
      }
    } else {
      forall i {:trigger r[i]} | 0 < i < |r|
        ensures !Joinable(r[i - 1], r[i])
      {
        if i <= last {
          assert !Joinable(target[i - 1], target[i]);
        }
      }
    }
  }

  lemma {:induction false} AddAllNormal(children: seq<Node>, target: Fragment)
    requires FragmentNormal(target) && forall i | 0 <= i < |children| :: NodeNormal(children[i])
    ensures FragmentNormal(AddAll(children, target))
    decreases |children|
  {
    if children != [] {
      AddNodeNormal(children[0], target);
      AddAllNormal(children[1..], AddNode(children[0], target));
    }
  }

  lemma {:induction false} StretchNormal(content: Fragment, first: nat, last: nat, target: Fragment)
    requires first <= last <= |content| && FragmentNormal(content) && FragmentNormal(target)
    ensures FragmentNormal(AddAll(content[first..last], target))
  {
    assert forall i | 0 <= i < last - first :: content[first..last][i] == content[first + i];
    AddAllNormal(content[first..last], target);
  }

  lemma {:induction false} AddRangeNormal(start: Option<Pos>, end: Option<Pos>, target: Fragment)
    requires start.Some? || end.Some?
    requires start.Some? ==> PosOk(start.value) && NodeNormal(start.value.node)
    requires end.Some? ==> PosOk(end.value) && NodeNormal(end.value.node)
    requires FragmentNormal(target)
    ensures FragmentNormal(AddRange(start, end, target))
  {
    var content := if end.Some? then end.value.node.content else start.value.node.content;
    var split := start.Some? && start.value.At? && TextOffset(start.value) > 0;
    var first := if start.None? then 0 else if start.value.In? || split then start.value.index + 1
      else start.value.index;
    var last := if end.Some? then end.value.index else |content|;
    if split {
      AddNodeNormal(NodeAfter(start.value), target);
    }
    var target1 := if split then AddNode(NodeAfter(start.value), target) else target;
    if first <= last {
      StretchNormal(content, first, last, target1);
    }
    var target2 := if first <= last then AddAll(content[first..last], target1) else target1;
    if end.Some? && end.value.At? && TextOffset(end.value) > 0 {
      AddNodeNormal(NodeBefore(end.value), target2);
    }
  }

  lemma {:induction false} InnerNormal(r: Pos)
    requires PosOk(r) && r.In? && NodeNormal(r.node)
    ensures NodeNormal(r.inner.node)
  {
  }

  lemma {:induction false} RejoinedNormal(a: Pos, b: Pos, content: Fragment)
    requires PosOk(a) && PosOk(b) && a.In? && NodeNormal(a.node) && NodeNormal(b.node) && FragmentNormal(content)
    ensures FragmentNormal(Rejoined(a, b, content))
  {
    var left := AddRange(None, Some(a), []);
    var closed := Elem(a.inner.node.markup, content);
    AddRangeNormal(None, Some(a), []);
    AddNodeNormal(closed, left);
    AddRangeNormal(Some(b), None, AddNode(closed, left));
  }

  lemma {:induction false} TwoWayNormal(rules: Rules, a: Pos, b: Pos)
    requires PosOk(a) && PosOk(b) && Depth(a) == Depth(b) && NodeNormal(a.node) && NodeNormal(b.node)
    ensures var r := TwoWay(rules, a, b); r.Done? ==> FragmentNormal(r.value)
    decreases a
  {
    if a.At? {
      AddRangeNormal(None, Some(a), []);
      AddRangeNormal(Some(b), None, AddRange(None, Some(a), []));
    } else {
      TwoWayIn(rules, a, b);
      var inner := TwoWay(rules, a.inner, b.inner);
      InnerNormal(a);
      InnerNormal(b);
      TwoWayNormal(rules, a.inner, b.inner);
      if inner.Done? { RejoinedNormal(a, b, inner.value); }
    }
  }

  lemma {:induction false} JoinedSideNormal(rules: Rules, a: Pos, b: Pos, target: Fragment)
    requires PosOk(a) && PosOk(b) && Depth(a) == Depth(b) && NodeNormal(a.node) && NodeNormal(b.node)
    requires FragmentNormal(target)
    ensures var r := JoinedSide(rules, a, b, target); r.Done? ==> FragmentNormal(r.value)
  {
    if a.In? && JoinedSide(rules, a, b, target).Done? {
      InnerNormal(a);
      InnerNormal(b);
      TwoWayNormal(rules, a.inner, b.inner);
      AddNodeNormal(Elem(a.inner.node.markup, TwoWay(rules, a.inner, b.inner).value), target);
    }
  }

  lemma {:induction false} ApartNormal(rules: Rules, a: Pos, start: Pos, end: Pos, b: Pos)
    requires PosOk(a) && PosOk(start) && PosOk(end) && PosOk(b)
    requires Depth(a) == Depth(start) && Depth(end) == Depth(b)
    requires NodeNormal(a.node) && NodeNormal(start.node) && NodeNormal(end.node) && NodeNormal(b.node)
    ensures var r := ApartSteps(rules, a, start, end, b); r.Done? ==> FragmentNormal(r.value)
  {
    var left := AddRange(None, Some(a), []);
    AddRangeNormal(None, Some(a), []);
    JoinedSideNormal(rules, a, start, left);
    var joined := JoinedSide(rules, a, start, left);
    if joined.Done? {
      AddRangeNormal(Some(start), Some(end), joined.value);
      var middle := AddRange(Some(start), Some(end), joined.value);
      JoinedSideNormal(rules, end, b, middle);
      var whole := JoinedSide(rules, end, b, middle);
      if whole.Done? { AddRangeNormal(Some(b), None, whole.value); }
    }
  }

  lemma {:induction false} ThreeWayNormal(rules: Rules, a: Pos, start: Pos, end: Pos, b: Pos)
    requires PosOk(a) && PosOk(start) && PosOk(end) && PosOk(b)
    requires Depth(a) == Depth(start) && Depth(end) == Depth(b)
    requires NodeNormal(a.node) && NodeNormal(start.node) && NodeNormal(end.node) && NodeNormal(b.node)
    ensures var r := ThreeWay(rules, a, start, end, b); r.Done? ==> FragmentNormal(r.value)
    decreases a
  {
    if a.In? && b.In? && start.index == end.index {
      ThreeWayIn(rules, a, start, end, b);
      var inner := ThreeWay(rules, a.inner, start.inner, end.inner, b.inner);
      InnerNormal(a);
      InnerNormal(start);
      InnerNormal(end);
      InnerNormal(b);
      ThreeWayNormal(rules, a.inner, start.inner, end.inner, b.inner);
      if inner.Done? { RejoinedNormal(a, b, inner.value); }
    } else {
      ThreeWayOut(rules, a, start, end, b);
      ApartNormal(rules, a, start, end, b);
    }
  }

  lemma {:induction false} WrapNormal(slice: Slice, along: Pos, k: nat)
    requires k <= Depth(along) && FragmentNormal(slice.content)
    ensures NodeNormal(Wrap(slice, along, k))
  {
    if k > 0 {
      WrapNormal(slice, along.inner, k - 1);
    }
  }

  lemma {:induction false} AppendNormal(a: Fragment, b: Fragment)
    requires FragmentNormal(a) && FragmentNormal(b)
    ensures FragmentNormal(Append(a, b))
  {
    if a != [] && b != [] {
      var r := Append(a, b);
      var last := a[|a| - 1];
      if Joinable(last, b[0]) {
        forall i {:trigger r[i]} | 0 <= i < |r|
          ensures NodeNormal(r[i]) && (i > 0 ==> !Joinable(r[i - 1], r[i]))
        {
          if i < |a| {
            assert i > 0 ==> !Joinable(a[i - 1], a[i]);
          } else {
            assert r[i] == b[i - |a| + 1] && !Joinable(b[i - |a|], b[i - |a| + 1]);
          }
        }
      } else {
        forall i {:trigger r[i]} | 0 <= i < |r|
          ensures NodeNormal(r[i]) && (i > 0 ==> !Joinable(r[i - 1], r[i]))
        {
          if i < |a| {
            assert i > 0 ==> !Joinable(a[i - 1], a[i]);
          } else if i > |a| {
            assert !Joinable(b[i - |a| - 1], b[i - |a|]);
          }
        }
      }
    }
  }

  lemma {:induction false} CutNormal(f: Fragment, from: int, end: int)
    requires FragmentNormal(f) && 0 <= from && end <= Size(f)
    ensures FragmentNormal(Cut(f, from, end))
    decreases f, 1
  {
    if !(from == 0 && end == Size(f)) && end > from {
      CutFromNormal(f, from, end);
    }
  }

  /** Cutting keeps the kind and the markup. */
  lemma {:induction false} CutNodeKind(n: Node, from: int, end: int)
    ensures CutNode(n, from, end).Text? == n.Text? && CutNode(n, from, end).markup == n.markup
  {
  }

  lemma {:induction false} CutNodeNormal(n: Node, from: int, end: int)
    requires NodeNormal(n) && NodeOk(n) && from < end && from < NodeSize(n) && end > 0
    ensures NodeNormal(CutNode(n, from, end))
    decreases n, 0
  {
    if n.Elem? {
      CutNormal(n.content, Max(0, from - 1), Min(Size(n.content), end - 1));
    }
  }

  /** Cutting keeps kinds and markup, so nothing becomes joinable. */
  lemma {:induction false} CutFromNormal(f: Fragment, from: int, end: int)
    requires FragmentNormal(f) && from < end <= Size(f)
    ensures var r := CutFrom(f, from, end);
      && FragmentNormal(r)
      && (r != [] && from <= 0 ==> f != [] && r[0].Text? == f[0].Text? && r[0].markup == f[0].markup)
    decreases f, 0
  {
    if f != [] && end > 0 {
      var z := NodeSize(f[0]);
      TailNormal(f);
      FragmentNormalOk(f);
      CutFromNormal(f[1..], from - z, end - z);
      var rest := CutFrom(f[1..], from - z, end - z);
      var cut := from > 0 || z > end;
      var kept := if cut then CutNode(f[0], from, end) else f[0];
      if z > from {
        if cut { CutNodeNormal(f[0], from, end); }
        CutNodeKind(f[0], from, end);
        NotJoinableAfterCut(f, kept, rest);
        ConsNormal(kept, rest);
      } else {
        assert [] + rest == rest;
      }
    }
  }

  lemma {:induction false} NotJoinableAfterCut(f: Fragment, kept: Node, rest: Fragment)
    requires f != [] && FragmentNormal(f) && kept.Text? == f[0].Text? && kept.markup == f[0].markup
    requires rest != [] ==> |f| > 1 && rest[0].Text? == f[1].Text? && rest[0].markup == f[1].markup
    ensures rest != [] ==> !Joinable(kept, rest[0])
  {
    assert |f| > 1 ==> !Joinable(f[0], f[1]);
  }

  lemma {:induction false} ConsNormal(n: Node, f: Fragment)
    requires NodeNormal(n) && FragmentNormal(f) && (f != [] ==> !Joinable(n, f[0]))
    ensures FragmentNormal([n] + f)
  {
    var r := [n] + f;
    forall i {:trigger r[i]} | 0 < i < |r|
      ensures !Joinable(r[i - 1], r[i])
    {
      assert i > 1 ==> !Joinable(f[i - 2], f[i - 1]);
    }
  }

  lemma {:induction false} FlatNormal(a: Pos, b: Pos, f: Fragment, content: Fragment)
    requires PosOk(a) && PosOk(b) && a.At? && b.At? && a.node.content == b.node.content == f
    requires FragmentNormal(f) && FragmentNormal(content)
    ensures FragmentNormal(FlatContent(f, a.parentOffset, b.parentOffset, content))
  {
    SidesMeet(a);
    SidesMeet(b);
    TokensSize(f);
    CutNormal(f, 0, a.parentOffset);
    CutNormal(f, b.parentOffset, Size(f));
    AppendNormal(Cut(f, 0, a.parentOffset), content);
    AppendNormal(Append(Cut(f, 0, a.parentOffset), content), Cut(f, b.parentOffset, Size(f)));
  }

  lemma {:induction false} NewContentNormal(rules: Rules, a: Pos, b: Pos, slice: Slice)
    requires PosOk(a) && PosOk(b) && a.node == b.node && SliceOk(slice)
    requires NodeNormal(a.node) && FragmentNormal(slice.content)
    requires slice.openStart <= Depth(a) && Depth(a) - slice.openStart == Depth(b) - slice.openEnd
    ensures var r := NewContent(rules, a, b, slice); r.Done? ==> FragmentNormal(r.value)
  {
    if Document.Size(slice.content) == 0 {
      NothingOpen(slice);
      TwoWayNormal(rules, a, b);
    } else if slice.openStart == 0 && slice.openEnd == 0 && a.At? && b.At? {
      FlatNormal(a, b, a.node.content, slice.content);
    } else {
      PreparedDepths(slice, a);
      PreparedNodes(slice, a);
      WrapNormal(slice, a, Depth(a) - slice.openStart);
      var (start, end) := PrepareSlice(slice, a);
      ThreeWayNormal(rules, a, start, end, b);
    }
  }

  lemma {:induction false} OuterNormal(rules: Rules, a: Pos, b: Pos, slice: Slice)
    requires PosOk(a) && PosOk(b) && a.node == b.node && SliceOk(slice)
    requires NodeNormal(a.node) && FragmentNormal(slice.content)
    requires slice.openStart <= Depth(a) && Depth(a) - slice.openStart == Depth(b) - slice.openEnd
    ensures var r := ReplaceOuter(rules, a, b, slice); r.Done? ==> r.value.Elem? && NodeNormal(r.value)
    decreases a
  {
    if a.index == b.index && slice.openStart < Depth(a) {
      InnerNormal(a);
      OuterNormal(rules, a.inner, b.inner, slice);
      SharedNormal(rules, a, b, slice, ReplaceOuter(rules, a.inner, b.inner, slice));
    } else {
      NewContentNormal(rules, a, b, slice);
    }
  }

  lemma {:induction false} SharedNormal(rules: Rules, a: Pos, b: Pos, slice: Slice, child: Outcome<Node>)
    requires PosOk(a) && PosOk(b) && a.node == b.node && SliceOk(slice) && NodeNormal(a.node)
    requires slice.openStart <= Depth(a) && Depth(a) - slice.openStart == Depth(b) - slice.openEnd
    requires a.index == b.index && slice.openStart < Depth(a)
    requires child == ReplaceOuter(rules, a.inner, b.inner, slice)
    requires child.Done? ==> child.value.Elem? && NodeNormal(child.value)
    ensures var r := ReplaceOuter(rules, a, b, slice); r.Done? ==> r.value.Elem? && NodeNormal(r.value)
  {
    if child.Done? {
      ReplacedNormal(a.node.content, a.index, child.value);
    }
  }

  lemma {:induction false} ReplacedNormal(f: Fragment, i: nat, child: Node)
    requires FragmentNormal(f) && i < |f| && f[i].Elem? && child.Elem? && NodeNormal(child)
    ensures FragmentNormal(f[i := child])
  {
    var g := f[i := child];
    forall j {:trigger g[j]} | 0 < j < |g|
      ensures !Joinable(g[j - 1], g[j])
    {
      assert !Joinable(f[j - 1], f[j]);
    }
  }

  /** A replacement in a normal document, by a normal slice, leaves a normal document. */
  lemma {:induction false} ReplaceNormal(rules: Rules, doc: Node, from: nat, end: nat, slice: Slice)
    requires doc.Elem? && NodeNormal(doc) && SliceOk(slice) && FragmentNormal(slice.content)
    ensures NodeOk(doc)
    ensures var r := ReplaceNode(rules, doc, from, end, slice); r.Done? ==> NodeNormal(r.value)
  {
    NormalOk(doc);
    if ReplaceNode(rules, doc, from, end, slice).Done? {
      OuterNormal(rules, Resolve(doc, from), Resolve(doc, end), slice);
    }
  }

  lemma {:induction false} SliceBetweenNormal(a: Pos, b: Pos)
    requires PosOk(a) && PosOk(b) && a.node == b.node && NodeNormal(a.node) && NodeOk(a.node)
    ensures FragmentNormal(SliceBetween(a, b).content)
    decreases a
  {
    if InSameChild(a, b) {
      SameChild(a, b);
      ChildOk(a.node, a.index);
      SliceBetweenNormal(a.inner, b.inner);
    } else {
      SidesMeet(b);
      TokensSize(b.node.content);
      CutNormal(a.node.content, Offset(a), Offset(b));
    }
  }
}
