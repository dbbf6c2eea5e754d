/** Taking the slice between two positions out of a document (`slice`). */
module DocSlice {
  import opened Basics
  import opened Document
  import opened Resolved
  import opened Replace
  import opened JoinTokens
  import opened CutContent
  import opened Splice

  /** The second position is inside the child that the first one is in, ends included. */
  predicate InSameChild(a: Pos, b: Pos) {
    a.In? && 0 <= Offset(b) - a.offset - 1 <= (if a.inner.node.Elem? then Size(a.inner.node.content) else 0)
  }

  /** A position inside a child is resolved into that child. */
  lemma {:induction false} SameChild(a: Pos, b: Pos)
    requires PosOk(a) && PosOk(b) && a.node == b.node && NodeOk(a.node) && InSameChild(a, b)
    ensures b.In? && b.index == a.index && b.offset == a.offset && b.inner.node == a.inner.node
  {
    var f := a.node.content;
    assert f[a.index].Elem?;
    var z := NodeSize(f[a.index]);
    assert a.offset < Offset(b) < a.offset + z;
    if b.index < a.index {
      SizeRises(f, b.index + 1, a.index);
      SizeNext(f, b.index);
      EndsBefore(b);
    } else if b.index > a.index {
      SizeNext(f, a.index);
      SizeRises(f, a.index + 1, b.index);
      StartsAfter(b);
    }
  }

  lemma {:induction false} EndsBefore(b: Pos)
    requires PosOk(b) && NodeOk(b.node) && b.index < |b.node.content|
    ensures Offset(b) < b.offset + NodeSize(b.node.content[b.index])
  {
    assert NodeOk(b.node.content[b.index]);
    if b.In? {
      SidesMeet(b.inner);
      TokensSize(b.inner.node.content);
    }
  }

  lemma {:induction false} StartsAfter(b: Pos)
    requires PosOk(b)
    ensures Offset(b) >= b.offset
  {
  }

  lemma {:induction false} ChildOk(n: Node, i: nat)
    requires n.Elem? && NodeOk(n) && i < |n.content|
    ensures NodeOk(n.content[i])
  {
  }

  /** From the innermost node that holds both positions, open to where they are in it. */
  function SliceBetween(a: Pos, b: Pos): Slice
    requires PosOk(a) && PosOk(b) && a.node == b.node && NodeOk(a.node)
    decreases a
  {
    if InSameChild(a, b) then
      SameChild(a, b);
      ChildOk(a.node, a.index);
      SliceBetween(a.inner, b.inner)
    else Slice(Cut(a.node.content, Offset(a), Offset(b)), Depth(a), Depth(b))
  }

  function SliceOf(doc: Node, from: nat, end: nat): Slice
    requires doc.Elem? && NodeOk(doc) && from <= end <= Size(doc.content)
  {
    if from == end then Slice([], 0, 0) else SliceBetween(Resolve(doc, from), Resolve(doc, end))
  }

  // ----- how far a slice is open -----

  /** Where the content of that node starts. */
  function StartAt(r: Pos, d: nat): int
    requires d <= Depth(r)
  {
    if d == 0 then 0 else r.offset + 1 + StartAt(r.inner, d - 1)
  }

  /** Position `p` is in the content of that node, ends included. */
  predicate Holds(r: Pos, d: nat, p: int)
    requires d <= Depth(r)
  {
    var node := LevelAt(r, d).node;
    StartAt(r, d) <= p <= StartAt(r, d) + if node.Elem? then Size(node.content) else 0
  }

  /** A slice is taken from the innermost node around its start that holds its end, and is open from there on. */
  lemma {:induction false} OpenFrom(a: Pos, b: Pos) returns (d: nat)
    requires PosOk(a) && PosOk(b) && a.node == b.node && NodeOk(a.node)
    ensures d <= Depth(a) && d <= Depth(b)
    ensures var s := SliceBetween(a, b); s.openStart == Depth(a) - d && s.openEnd == Depth(b) - d
    ensures Offset(b) <= Size(a.node.content) ==> Holds(a, d, Offset(b))
    ensures d < Depth(a) ==> !Holds(a, d + 1, Offset(b))
    decreases a
  {
    if InSameChild(a, b) {
      SameChild(a, b);
      ChildOk(a.node, a.index);
      d := OpenFrom(a.inner, b.inner);
      HoldsInside(a, d + 1, Offset(b));
      if d < Depth(a.inner) { HoldsInside(a, d + 2, Offset(b)); }
      d := d + 1;
    } else {
      d := 0;
      if a.In? { HoldsInside(a, 1, Offset(b)); }
    }
  }

  lemma {:induction false} HoldsInside(r: Pos, d: nat, p: int)
    requires r.In? && 0 < d <= Depth(r)
    ensures Holds(r, d, p) <==> Holds(r.inner, d - 1, p - r.offset - 1)
  {
  }

  // ----- what a token string says about open ends -----

  lemma {:induction false} OpensFromTokens(f: Fragment, k: nat)
    requires FragmentOk(f) && k <= |Tokens(f)|
    requires forall i | 0 <= i < k :: Tokens(f)[i].Open?
    ensures OpensLeft(f, k)
    decreases k
  {
    if k > 0 {
      var t, n := Tokens(f), f[0];
      assert NodeOk(n);
      NodeTokensSize(n);
      assert t[0] == NodeTokens(n)[0];
      assert n.Elem?;
      var inner := Tokens(n.content);
      assert t[|inner| + 1] == NodeTokens(n)[|inner| + 1] == Close;
      forall i | 0 <= i < |inner|
        ensures t[i + 1] == inner[i]
      {
        assert NodeTokens(n)[i + 1] == inner[i];
      }
      OpensFromTokens(n.content, k - 1);
    }
  }

  lemma {:induction false} ClosesFromTokens(f: Fragment, k: nat)
    requires FragmentOk(f) && k <= |Tokens(f)|
    requires forall i | |Tokens(f)| - k <= i < |Tokens(f)| :: Tokens(f)[i].Close?
    ensures OpensRight(f, k)
    decreases k
  {
    if k > 0 {
      var last := |f| - 1;
      var n := f[last];
      assert NodeOk(n);
      TokensAround(f, last);
      assert f[last + 1..] == [];
      var t, nt := Tokens(f), NodeTokens(n);
      var before := Tokens(f[..last]);
      NodeTokensSize(n);
      assert t == before + nt;
      assert t[|t| - 1] == nt[|nt| - 1];
      assert n.Elem?;
      var inner := Tokens(n.content);
      assert nt == [Open(n.markup)] + inner + [Close];
      assert t[|before|] == nt[0];
      forall i | 0 <= i < |inner|
        ensures t[|before| + 1 + i] == inner[i]
      {
        assert nt[1 + i] == inner[i];
      }
      ClosesFromTokens(n.content, k - 1);
    }
  }

  // ----- cutting keeps texts from being empty -----

  lemma {:induction false} CutOk(f: Fragment, from: int, end: int)
    requires FragmentOk(f) && 0 <= from && end <= Size(f)
    ensures FragmentOk(Cut(f, from, end))
    decreases f, 1
  {
    if !(from == 0 && end == Size(f)) && end > from {
      CutFromOk(f, from, end);
    }
  }

  lemma {:induction false} CutFromOk(f: Fragment, from: int, end: int)
    requires FragmentOk(f) && from < end <= Size(f)
    ensures FragmentOk(CutFrom(f, from, end))
    decreases f, 0
  {
    if f != [] && end > 0 {
      CutFromOk(f[1..], from - NodeSize(f[0]), end - NodeSize(f[0]));
      assert NodeOk(f[0]);
      if NodeSize(f[0]) > from {
        if f[0].Elem? && (from > 0 || NodeSize(f[0]) > end) {
          CutOk(f[0].content, Max(0, from - 1), Min(Size(f[0].content), end - 1));
        }
      }
    }
  }

  // ----- what a slice holds -----

  lemma {:induction false} OpensAreOpen(r: Pos)
    ensures forall i | 0 <= i < |Opens(r)| :: Opens(r)[i].Open?
  {
    if r.In? {
      OpensAreOpen(r.inner);
    }
  }

  lemma {:induction false} Stretch<T>(o: seq<T>, t: seq<T>, c: seq<T>)
    ensures (o + t + c)[..|o|] == o
    ensures (o + t + c)[|o| + |t|..] == c
    ensures (o + t + c)[|o|..|o| + |t|] == t
  {
  }

  lemma {:induction false} CutSlice(a: Pos, b: Pos)
    requires PosOk(a) && PosOk(b) && a.node == b.node && NodeOk(a.node) && Offset(a) < Offset(b)
    ensures var s := Slice(Cut(a.node.content, Offset(a), Offset(b)), Depth(a), Depth(b));
      && SliceOk(s)
      && |Tokens(a.node.content)| >= Offset(b)
      && SliceTokens(s) == Tokens(a.node.content)[Offset(a)..Offset(b)]
      && Tokens(s.content) == Opens(a) + SliceTokens(s) + Closes(Depth(b))
  {
    var f := a.node.content;
    SidesMeet(b);
    TokensSize(f);
    var c := Cut(f, Offset(a), Offset(b));
    CutOk(f, Offset(a), Offset(b));
    CutTokens(f, Offset(a), Offset(b));
    OpensAgree(a);
    OpensAgree(b);
    OpensDepth(a);
    OpensDepth(b);
    OpensAreOpen(a);
    var t := Tokens(f)[Offset(a)..Offset(b)];
    Stretch(Opens(a), t, Closes(Depth(b)));
    assert Tokens(c) == Opens(a) + t + Closes(Depth(b));
    OpensFromTokens(c, Depth(a));
    ClosesFromTokens(c, Depth(b));
    TokensSize(c);
  }

  lemma {:induction false} SliceBetweenTokens(a: Pos, b: Pos)
    requires PosOk(a) && PosOk(b) && a.node == b.node && NodeOk(a.node) && Offset(a) < Offset(b)
    ensures var s := SliceBetween(a, b);
      && SliceOk(s) && |Tokens(a.node.content)| >= Offset(b)
      && SliceTokens(s) == Tokens(a.node.content)[Offset(a)..Offset(b)]
    decreases a
  {
    if InSameChild(a, b) {
      SameChild(a, b);
      ChildOk(a.node, a.index);
      SliceBetweenTokens(a.inner, b.inner);
      ChildStretch(a, b);
    } else {
      CutSlice(a, b);
    }
  }

  /** What is between two positions in one child is the same, counted in the child. */
  lemma {:induction false} ChildStretch(a: Pos, b: Pos)
    requires PosOk(a) && PosOk(b) && a.node == b.node && a.In? && b.In? && b.index == a.index
    requires a.inner.node.Elem? && Offset(a) <= Offset(b) <= b.offset + 1 + |Tokens(a.inner.node.content)|
    ensures |Tokens(a.node.content)| >= Offset(b)
    ensures Tokens(a.node.content)[Offset(a)..Offset(b)] ==
            Tokens(a.inner.node.content)[Offset(a.inner)..Offset(b.inner)]
  {
    var f := a.node.content;
    TokensAround(f, a.index);
    TokensSize(f[..a.index]);
    var pre, o, inner, c := Tokens(f[..a.index]), [Open(a.inner.node.markup)], Tokens(a.inner.node.content), [Close];
    var post := Tokens(f[a.index + 1..]);
    RegroupChild(pre, o, inner, c, post);
    InnerStretch(pre + o, inner, c + post, Offset(a.inner), Offset(b.inner));
  }

  lemma {:induction false} RegroupChild<T>(pre: seq<T>, o: seq<T>, inner: seq<T>, c: seq<T>, post: seq<T>)
    ensures pre + (o + inner + c) + post == (pre + o) + inner + (c + post)
  {
    Assoc(pre, o + inner, c);
    Assoc(pre, o, inner);
    Assoc((pre + o) + inner, c, post);
  }

  lemma {:induction false} InnerStretch<T>(p: seq<T>, t: seq<T>, q: seq<T>, i: nat, j: nat)
    requires i <= j <= |t|
    ensures (p + t + q)[|p| + i..|p| + j] == t[i..j]
  {
  }

  /** The slice between two positions holds exactly the tokens between them. */
  lemma {:induction false} SliceOfTokens(doc: Node, from: nat, end: nat)
    requires doc.Elem? && NodeOk(doc) && from <= end <= Size(doc.content)
    ensures var s := SliceOf(doc, from, end);
      SliceOk(s) && |Tokens(doc.content)| >= end && SliceTokens(s) == Tokens(doc.content)[from..end]
  {
    TokensSize(doc.content);
    var s := SliceOf(doc, from, end);
    if from == end {
      assert s == Slice([], 0, 0);
      EmptyStretch(s, Tokens(doc.content), from);
    } else {
      ResolvedSlice(doc, from, end);
      assert s == SliceBetween(Resolve(doc, from), Resolve(doc, end));
    }
  }

  lemma {:induction false} EmptyStretch(s: Slice, t: seq<Token>, i: nat)
    requires s == Slice([], 0, 0) && i <= |t|
    ensures SliceOk(s) && SliceTokens(s) == t[i..i]
  {
  }

  lemma {:induction false} ResolvedSlice(doc: Node, from: nat, end: nat)
    requires doc.Elem? && NodeOk(doc) && from < end <= Size(doc.content)
    ensures |Tokens(doc.content)| >= end
    ensures SliceOk(SliceBetween(Resolve(doc, from), Resolve(doc, end)))
    ensures SliceTokens(SliceBetween(Resolve(doc, from), Resolve(doc, end))) == Tokens(doc.content)[from..end]
  {
    SliceBetweenTokens(Resolve(doc, from), Resolve(doc, end));
  }
}
