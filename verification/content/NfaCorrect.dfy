/** The compiled automaton accepts exactly Full(e), and when that is the language meant. */
module NfaCorrect {
  import opened Languages
  import opened ContentExpr
  import opened Nfa
  import opened NfaShape
  import opened NfaWalk
  import opened NfaSound
  import opened NfaComplete

  /** Every edge has its target, and the accepting state has no edges. */
  ghost predicate Closed(g: Graph) {
    && |g| > 0
    && g[|g| - 1] == []
    && forall p: nat, i: nat | IsEdge(g, p, i) :: g[p][i].to.Some? && g[p][i].to.value < |g|
  }

  ghost predicate Accepts(g: Graph, w: seq<NodeType>) {
    |g| > 0 && Reaches(g, 0, w, |g| - 1)
  }

  lemma {:induction false} AutomatonClosed(e: Expr)
    requires Parsed(e)
    ensures Closed(Automaton(e))
  {
    var r := Compile([[]], e, 0);
    CompileGrows([[]], e, 0);
    NextGrows([[]], 0, r);
    var g := Automaton(e);
    assert g[|r.graph|] == [];
    assert forall p: nat, i: nat | IsEdge(g, p, i) :: Fresh([[]], 0, p, i);
  }

  /** Every edge respects the languages of the states. */
  ghost predicate Labelling(g: Graph, langs: seq<Content>) {
    |langs| == |g| && forall p: nat, i: nat | IsEdge(g, p, i) :: Respects(g[p][i], langs[p], langs, Empty())
  }

  lemma {:induction false} WalkSound(g: Graph, langs: seq<Content>, p: nat, path: seq<nat>, w: seq<NodeType>, q: nat,
          v: seq<NodeType>)
    requires Closed(g) && Labelling(g, langs) && p < |g| && q < |g|
    requires Walk(g, p, path, w, q) && v in langs[q]
    ensures w + v in langs[p]
    decreases path
  {
    if path == [] {
      assert w + v == v;
    } else {
      var edge := g[p][path[0]];
      var n := |Spelled(edge)|;
      WalkSound(g, langs, edge.to.value, path[1..], w[n..], q, v);
      assert Respects(edge, langs[p], langs, Empty());
      assert w + v == Spelled(edge) + (w[n..] + v);
      if edge.term.Some? {
        CatIntro(Letter(edge.term.value), langs[edge.to.value], Spelled(edge), w[n..] + v);
      }
    }
  }

  lemma {:induction false} CompiledLabels(e: Expr) returns (langs: seq<Content>)
    requires Parsed(e)
    ensures var r := Compile([[]], e, 0);
      Grows([[]], 0, r) && Labelled([[]], 0, r.graph, langs, Epsilon()) && langs[0] == Full(e)
  {
    FreshLabel(Loop(e), Exit(e), Epsilon<NodeType>());
    CatEpsilon(Full(e));
    CompileGrows([[]], e, 0);
    langs := CompileSound([[]], e, 0, [Full(e)], Epsilon());
  }

  lemma {:induction false} AutomatonLabels(e: Expr) returns (langs: seq<Content>)
    requires Parsed(e)
    ensures var g := Automaton(e);
      Labelling(g, langs) && langs[0] == Full(e) && langs[|g| - 1] == Epsilon()
  {
    var r := Compile([[]], e, 0);
    langs := CompiledLabels(e);
    NextSound([[]], 0, r, langs, Epsilon(), Empty());
    langs := langs + [Epsilon()];
    var g := Automaton(e);
    assert forall p: nat, i: nat | IsEdge(g, p, i) :: Fresh([[]], 0, p, i);
  }

  lemma {:induction false} AcceptedInFirst(g: Graph, langs: seq<Content>, w: seq<NodeType>)
    requires Closed(g) && Labelling(g, langs) && langs[|g| - 1] == Epsilon() && Accepts(g, w)
    ensures w in langs[0]
  {
    var path :| Walk(g, 0, path, w, |g| - 1);
    WalkSound(g, langs, 0, path, w, |g| - 1, []);
    assert w + [] == w;
  }

  lemma {:induction false} AcceptedOnlyFull(e: Expr, w: seq<NodeType>)
    requires Parsed(e) && Accepts(Automaton(e), w)
    ensures w in Full(e)
  {
    var langs := AutomatonLabels(e);
    AutomatonClosed(e);
    AcceptedInFirst(Automaton(e), langs, w);
  }

  lemma {:induction false} LastReached(r: Compiled, l: Content, x: Content)
    requires Grows([[]], 0, r) && Covers(r, 0, l, x)
    ensures var g := Patch(NewState(r.graph), r.open, |r.graph|);
      ReachesAll(g, 0, l, 0) && ReachesAll(g, 0, x, |g| - 1)
  {
    NextReached([[]], 0, r, l, x);
  }

  lemma {:induction false} AutomatonReaches(e: Expr)
    requires Parsed(e)
    ensures ReachesAll(Automaton(e), 0, Loop(e), 0)
    ensures ReachesAll(Automaton(e), 0, Exit(e), |Automaton(e)| - 1)
  {
    CompileGrows([[]], e, 0);
    CompileComplete([[]], e, 0);
    LastReached(Compile([[]], e, 0), Loop(e), Exit(e));
  }

  lemma {:induction false} FullIsAccepted(e: Expr, w: seq<NodeType>)
    requires Parsed(e) && w in Full(e)
    ensures Accepts(Automaton(e), w)
  {
    var g := Automaton(e);
    AutomatonReaches(e);
    AllIterate(g, 0, Loop(e));
    AllCat(g, 0, Iterate(Loop(e)), 0, Exit(e), |g| - 1);
  }

  /** For every expression, without exception, the automaton accepts Full(e) and nothing else. */
  lemma {:induction false} AutomatonExact(e: Expr, w: seq<NodeType>)
    requires Parsed(e)
    ensures Accepts(Automaton(e), w) <==> w in Full(e)
  {
    if Accepts(Automaton(e), w) {
      AcceptedOnlyFull(e, w);
    }
    if w in Full(e) {
      FullIsAccepted(e, w);
    }
  }
}
