/** Resolved positions (`ResolvedPos`): the nodes around a position, from the outermost in. */
module Resolved {
  import opened Document

  /**
   * One level of a position: the node, the index of the child at or after the position, and where
   * that child starts. The source keeps the levels in one flat array; `In` goes one level deeper.
   */
  datatype Pos =
    | At(node: Node, index: nat, offset: nat, parentOffset: nat)
    | In(node: Node, index: nat, offset: nat, inner: Pos)

  function Depth(r: Pos): nat {
    match r
    case At(_, _, _, _) => 0
    case In(_, _, _, inner) => 1 + Depth(inner)
  }

  /** The position, counted from the start of the outermost node's content. */
  function Offset(r: Pos): nat {
    match r
    case At(_, _, _, parentOffset) => parentOffset
    case In(_, _, offset, inner) => offset + 1 + Offset(inner)
  }

  function TextOffset(r: Pos): int
    requires r.At?
  {
    r.parentOffset - r.offset
  }

  /** The levels fit together, and the position is inside a child only if it is a text or at depth. */
  predicate PosOk(r: Pos) {
    && r.node.Elem?
    && r.index <= |r.node.content|
    && r.offset == Size(r.node.content[..r.index])
    && match r
       case At(node, index, offset, parentOffset) =>
         && offset <= parentOffset
         && (offset < parentOffset ==>
               index < |node.content| && node.content[index].Text?
                 && parentOffset - offset < |node.content[index].text|)
       case In(node, index, _, inner) =>
         && index < |node.content|
         && inner.node == node.content[index]
         && PosOk(inner)
  }

  /** The position seen from the node around it that is `d` levels down. */
  function LevelAt(r: Pos, d: nat): Pos
    requires d <= Depth(r)
  {
    if d == 0 then r else LevelAt(r.inner, d - 1)
  }

  // ----- resolving -----

  /** The child of `f` that position `p` is in or right before, and where it starts. */
  function FindIndex(f: Fragment, p: nat): (r: (nat, nat))
    requires p <= Size(f) && FragmentOk(f)
    ensures r.0 <= |f| && r.1 <= p && r.1 == Size(f[..r.0])
    ensures r.1 < p ==> r.0 < |f| && p - r.1 < NodeSize(f[r.0])
  {
    IndexFound(f, p, 0, 0);
    IndexFrom(f, p, 0, 0)
  }

  /** The scan over the children, `n` positions in at child `t`. */
  function IndexFrom(f: Fragment, p: nat, t: nat, n: nat): (nat, nat)
    requires t <= |f| && n == Size(f[..t]) && n <= p <= Size(f)
    decreases |f| - t
  {
    if p == n || t == |f| then (t, n) else
      SizeNext(f, t);
      var end := n + NodeSize(f[t]);
      if end > p then (t, n) else IndexFrom(f, p, t + 1, end)
  }

  lemma {:induction false} SizeNext(f: Fragment, t: nat)
    requires t < |f|
    ensures Size(f[..t + 1]) == Size(f[..t]) + NodeSize(f[t])
    ensures Size(f[..t + 1]) <= Size(f)
  {
    assert f[..t + 1] == f[..t] + [f[t]];
    TokensAppend(f[..t], [f[t]]);
    TokensOne(f[t]);
    TokensSplit(f, t + 1);
  }

  lemma {:induction false} IndexFound(f: Fragment, p: nat, t: nat, n: nat)
    requires t <= |f| && n == Size(f[..t]) && n <= p <= Size(f)
    ensures var r := IndexFrom(f, p, t, n);
      && r.0 <= |f| && r.1 <= p && r.1 == Size(f[..r.0])
      && (r.1 < p ==> r.0 < |f| && p - r.1 < NodeSize(f[r.0]))
    decreases |f| - t
  {
    if t == |f| {
      assert f[..t] == f;
    } else if p != n {
      SizeNext(f, t);
      if n + NodeSize(f[t]) <= p {
        IndexFound(f, p, t + 1, n + NodeSize(f[t]));
      }
    }
  }

  function Resolve(node: Node, p: nat): (r: Pos)
    requires node.Elem? && NodeOk(node) && p <= Size(node.content)
    ensures r.node == node && PosOk(r) && Offset(r) == p
    decreases node
  {
    var (index, offset) := FindIndex(node.content, p);
    if offset == p || node.content[index].Text? then At(node, index, offset, p)
    else
      var child := node.content[index];
      assert child.Elem?;
      In(node, index, offset, Resolve(child, p - offset - 1))
  }
}
