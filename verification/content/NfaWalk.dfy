/** Walks through an automaton and the words they spell. */
module NfaWalk {
  import opened ContentExpr
  import opened Nfa
  import opened NfaShape

  /** The word an edge spells. */
  function Spelled(edge: Edge): seq<NodeType> {
    match edge.term
    case None => []
    case Some(t) => [t]
  }

  /** Taking the edges numbered `path` from `p` spells `w` and ends at `q`. */
  ghost predicate Walk(g: Graph, p: nat, path: seq<nat>, w: seq<NodeType>, q: nat)
    decreases path
  {
    if path == [] then p == q && w == []
    else
      && IsEdge(g, p, path[0])
      && var edge := g[p][path[0]];
      && edge.to.Some?
      && Spelled(edge) <= w
      && Walk(g, edge.to.value, path[1..], w[|Spelled(edge)|..], q)
  }

  ghost predicate Reaches(g: Graph, p: nat, w: seq<NodeType>, q: nat) {
    exists path :: Walk(g, p, path, w, q)
  }

  /** A walk from `p` followed by the open edge `ref` spells `w`. */
  ghost predicate Leaves(g: Graph, p: nat, w: seq<NodeType>, ref: EdgeRef) {
    && IsEdge(g, ref.state, ref.index)
    && exists u :: Reaches(g, p, u, ref.state) && w == u + Spelled(g[ref.state][ref.index])
  }

  /** `h` keeps every edge of `g`, and may point open ones somewhere. */
  ghost predicate Below(g: Graph, h: Graph) {
    forall p: nat, i: nat | IsEdge(g, p, i) ::
      && IsEdge(h, p, i)
      && h[p][i].term == g[p][i].term
      && (g[p][i].to.Some? ==> h[p][i].to == g[p][i].to)
  }

  lemma {:induction false} ReachesSelf(g: Graph, p: nat)
    ensures Reaches(g, p, [], p)
  {
    assert Walk(g, p, [], [], p);
  }

  lemma {:induction false} ReachesEdge(g: Graph, p: nat, i: nat)
    requires IsEdge(g, p, i) && g[p][i].to.Some?
    ensures Reaches(g, p, Spelled(g[p][i]), g[p][i].to.value)
  {
    var q := g[p][i].to.value;
    assert [i][1..] == [];
    assert Walk(g, q, [], [], q);
    assert Walk(g, p, [i], Spelled(g[p][i]), q);
  }

  lemma {:induction false} WalkThen(g: Graph, p: nat, a: seq<nat>, u: seq<NodeType>, q: nat, b: seq<nat>,
          v: seq<NodeType>, r: nat)
    requires Walk(g, p, a, u, q) && Walk(g, q, b, v, r)
    ensures Walk(g, p, a + b, u + v, r)
    decreases a
  {
    if a == [] {
      assert a + b == b && u + v == v;
    } else {
      var edge := g[p][a[0]];
      var n := |Spelled(edge)|;
      WalkThen(g, edge.to.value, a[1..], u[n..], q, b, v, r);
      assert (a + b)[1..] == a[1..] + b;
      assert (u + v)[n..] == u[n..] + v;
    }
  }

  lemma {:induction false} ReachesThen(g: Graph, p: nat, u: seq<NodeType>, q: nat, v: seq<NodeType>, r: nat)
    requires Reaches(g, p, u, q) && Reaches(g, q, v, r)
    ensures Reaches(g, p, u + v, r)
  {
    var a :| Walk(g, p, a, u, q);
    var b :| Walk(g, q, b, v, r);
    WalkThen(g, p, a, u, q, b, v, r);
  }

  lemma {:induction false} WalkBelow(g: Graph, h: Graph, p: nat, path: seq<nat>, w: seq<NodeType>, q: nat)
    requires Below(g, h) && Walk(g, p, path, w, q)
    ensures Walk(h, p, path, w, q)
    decreases path
  {
    if path != [] {
      var edge := g[p][path[0]];
      WalkBelow(g, h, edge.to.value, path[1..], w[|Spelled(edge)|..], q);
    }
  }

  lemma {:induction false} ReachesBelow(g: Graph, h: Graph, p: nat, w: seq<NodeType>, q: nat)
    requires Below(g, h) && Reaches(g, p, w, q)
    ensures Reaches(h, p, w, q)
  {
    var path :| Walk(g, p, path, w, q);
    WalkBelow(g, h, p, path, w, q);
  }

  lemma {:induction false} GrowsBelow(g: Graph, from: nat, r: Compiled)
    requires Grows(g, from, r)
    ensures Below(g, r.graph)
  {
  }

  lemma {:induction false} PatchBelow(g: Graph, refs: seq<EdgeRef>, to: nat)
    requires forall ref | ref in refs :: IsEdge(g, ref.state, ref.index) ==> g[ref.state][ref.index].to.None?
    ensures Below(g, Patch(g, refs, to))
  {
  }

  /** Once an open edge is pointed at `to`, a walk that left through it reaches `to`. */
  lemma {:induction false} LeavesPatched(g: Graph, refs: seq<EdgeRef>, to: nat, p: nat, w: seq<NodeType>, ref: EdgeRef)
    requires forall ref | ref in refs :: IsEdge(g, ref.state, ref.index) ==> g[ref.state][ref.index].to.None?
    requires ref in refs && Leaves(g, p, w, ref)
    ensures Reaches(Patch(g, refs, to), p, w, to)
  {
    var h := Patch(g, refs, to);
    PatchBelow(g, refs, to);
    var u :| Reaches(g, p, u, ref.state) && w == u + Spelled(g[ref.state][ref.index]);
    ReachesBelow(g, h, p, u, ref.state);
    ReachesEdge(h, ref.state, ref.index);
    ReachesThen(h, p, u, ref.state, Spelled(h[ref.state][ref.index]), to);
  }

  lemma {:induction false} LeavesBelow(g: Graph, h: Graph, p: nat, w: seq<NodeType>, ref: EdgeRef)
    requires Below(g, h) && Leaves(g, p, w, ref)
    ensures Leaves(h, p, w, ref)
  {
    var u :| Reaches(g, p, u, ref.state) && w == u + Spelled(g[ref.state][ref.index]);
    ReachesBelow(g, h, p, u, ref.state);
  }

  /** A walk to `q`, then on and out. */
  lemma {:induction false} ReachesLeaves(g: Graph, p: nat, u: seq<NodeType>, q: nat, v: seq<NodeType>, ref: EdgeRef)
    requires Reaches(g, p, u, q) && Leaves(g, q, v, ref)
    ensures Leaves(g, p, u + v, ref)
  {
    var z :| Reaches(g, q, z, ref.state) && v == z + Spelled(g[ref.state][ref.index]);
    ReachesThen(g, p, u, q, z, ref.state);
    assert u + v == (u + z) + Spelled(g[ref.state][ref.index]);
  }
}
