/**
 * Which expressions compile to an automaton whose closures can be computed. The danger is a
 * loop whose body can match nothing and leaves through a state with a single edge, as in
 * `(a{0,1})*`: that state is never recorded, so nothing stops the next round.
 */
module ContentSteady {
  import opened Options
  import opened ContentExpr
  import opened Nfa
  import opened NfaShape
  import opened NfaCorrect
  import opened Closure

  /** The compiled form can be crossed without a word. */
  predicate Skippable(e: Expr)
  {
    match e
    case Choice(es) => exists i | 0 <= i < |es| :: Skippable(es[i])
    case Sequence(es) => forall i | 0 <= i < |es| :: Skippable(es[i])
    case Star(_) => true
    case Plus(e1) => Skippable(e1)
    case Opt(_) => true
    case Range(min, _, e1) => min == 0 || Skippable(e1)
    case Name(_) => false
  }

  /** Every open edge without a type is left on a state that has another edge as well. */
  predicate Solid(e: Expr)
  {
    match e
    case Choice(es) => forall i | 0 <= i < |es| :: Solid(es[i])
    case Sequence(es) => es != [] ==> Solid(es[|es| - 1])
    case Star(_) => true
    case Plus(_) => true
    case Opt(e1) => Solid(e1)
    case Range(_, max, _) => max.Unbounded?
    case Name(_) => true
  }

  predicate LoopSteady(e: Expr) {
    Skippable(e) ==> Solid(e)
  }

  /** No loop body can be skipped through a state with a single edge. */
  predicate Steady(e: Expr)
  {
    match e
    case Choice(es) => forall i | 0 <= i < |es| :: Steady(es[i])
    case Sequence(es) => forall i | 0 <= i < |es| :: Steady(es[i])
    case Star(e1) => Steady(e1) && LoopSteady(e1)
    case Plus(e1) => Steady(e1) && LoopSteady(e1)
    case Opt(e1) => Steady(e1)
    case Range(_, max, e1) => Steady(e1) && (max.Unbounded? ==> LoopSteady(e1))
    case Name(_) => true
  }

  // ----- degrees -----

  /** Compiling from a state adds at least one edge to it. */
  lemma {:induction false} CompileAdds(g: Graph, e: Expr, from: nat)
    requires from < |g| && Parsed(e)
    ensures |Compile(g, e, from).graph[from]| > |g[from]|
    decreases e, 1
  {
    match e
    case Choice(es) => 
      CompileAdds(g, es[0], from);
      var first := Compile(g, es[0], from);
      ChoiceGrows(first.graph, es[1..], from);
    case Sequence(es) => SeqAdds(g, es, from);
    case Star(e1) =>
      CompileGrows(AddEdge(NewState(g), from, None, Some(|g|)), e1, |g|);
    case Plus(e1) =>
      CompileAdds(NewState(g), e1, from);
      var once := Compile(NewState(g), e1, from);
      CompileGrows(Patch(once.graph, once.open, |g|), e1, |g|);
    case Opt(e1) => CompileAdds(OpenFrom(g, from).graph, e1, from);
    case Range(min, max, e1) => RangeAdds(g, e1, min, max, from);
    case Name(_) =>
  }

  lemma {:induction false} SeqAdds(g: Graph, es: seq<Expr>, from: nat)
    requires from < |g| && es != [] && forall i | 0 <= i < |es| :: Parsed(es[i])
    ensures |CompileSeq(g, es, from).graph[from]| > |g[from]|
    decreases es, 0
  {
    CompileAdds(g, es[0], from);
    if |es| > 1 {
      var first := Compile(g, es[0], from);
      SeqGrows(Patch(NewState(first.graph), first.open, |first.graph|), es[1..], |first.graph|);
    }
  }

  lemma {:induction false} RangeAdds(g: Graph, e: Expr, min: nat, max: Bound, from: nat)
    requires from < |g| && Parsed(e)
    ensures |CompileRange(g, e, min, max, from).graph[from]| > |g[from]|
    decreases e, 2
  {
    if min > 0 {
      CompileAdds(NewState(g), e, from);
      var copy := Compile(NewState(g), e, from);
      RangeGrows(Patch(copy.graph, copy.open, |g|), e, min - 1, Lower(max), |g|);
    } else if max.Unbounded? {
      CompileAdds(g, e, from);
    } else if max.n > 0 {
      var g1 := AddEdge(NewState(g), from, None, Some(|g|));
      CompileAdds(g1, e, from);
      var copy := Compile(g1, e, from);
      RangeGrows(Patch(copy.graph, copy.open, |g|), e, 0, Lower(max), |g|);
    }
  }

  /** The open edges without a type of `r` are on states with two edges or more. */
  ghost predicate OpenSolid(r: Compiled) {
    forall ref | ref in r.open && IsEdge(r.graph, ref.state, ref.index) &&
                 r.graph[ref.state][ref.index].term.None? ::
      |r.graph[ref.state]| >= 2
  }

  lemma {:induction false} CompileSolid(g: Graph, e: Expr, from: nat)
    requires from < |g| && Parsed(e) && Solid(e)
    ensures OpenSolid(Compile(g, e, from))
    decreases e, 1
  {
    match e
    case Choice(es) => ChoiceSolid(g, es, from);
    case Sequence(es) => SeqSolid(g, es, from);
    case Star(e1) => CompileAdds(AddEdge(NewState(g), from, None, Some(|g|)), e1, |g|);
    case Plus(e1) =>
      var once := Compile(NewState(g), e1, from);
      CompileAdds(Patch(once.graph, once.open, |g|), e1, |g|);
    case Opt(e1) =>
      var skip := OpenFrom(g, from);
      CompileSolid(skip.graph, e1, from);
      CompileAdds(skip.graph, e1, from);
    case Range(min, _, e1) => RangeSolid(g, e1, min, from);
    case Name(_) =>
  }

  lemma {:induction false} ChoiceSolid(g: Graph, es: seq<Expr>, from: nat)
    requires from < |g| && forall i | 0 <= i < |es| :: Parsed(es[i]) && Solid(es[i])
    ensures OpenSolid(CompileChoice(g, es, from))
    decreases es, 0
  {
    if es != [] {
      var first := Compile(g, es[0], from);
      CompileSolid(g, es[0], from);
      CompileGrows(g, es[0], from);
      ChoiceSolid(first.graph, es[1..], from);
      ChoiceGrows(first.graph, es[1..], from);
    }
  }

  lemma {:induction false} SeqSolid(g: Graph, es: seq<Expr>, from: nat)
    requires from < |g| && es != [] && (forall i | 0 <= i < |es| :: Parsed(es[i])) && Solid(es[|es| - 1])
    ensures OpenSolid(CompileSeq(g, es, from))
    decreases es, 0
  {
    if |es| == 1 {
      CompileSolid(g, es[0], from);
    } else {
      var first := Compile(g, es[0], from);
      SeqSolid(Patch(NewState(first.graph), first.open, |first.graph|), es[1..], |first.graph|);
    }
  }

  lemma {:induction false} RangeSolid(g: Graph, e: Expr, min: nat, from: nat)
    requires from < |g| && Parsed(e)
    ensures OpenSolid(CompileRange(g, e, min, Unbounded, from))
    decreases e, 2, min
  {
    if min > 0 {
      var copy := Compile(NewState(g), e, from);
      RangeSolid(Patch(copy.graph, copy.open, |g|), e, min - 1, |g|);
    } else {
      CompileAdds(g, e, from);
    }
  }

  // ----- ranks -----
  //
  // Every state gets a rank that falls along each edge without a type, except along edges
  // between two states of degree two or more, whose targets do get recorded.

  ghost predicate Falls(h: Graph, rank: seq<real>, p: nat, edge: Edge, out: real)
    requires p < |h| == |rank|
  {
    edge.term.None? ==>
      match edge.to
      case None => rank[p] > out
      case Some(q) => q < |h| && (rank[p] > rank[q] || (|h[p]| >= 2 && |h[q]| >= 2))
  }

  ghost predicate Ranked(g: Graph, from: nat, h: Graph, rank: seq<real>, out: real) {
    && |rank| == |h|
    && forall p: nat, i: nat | IsEdge(h, p, i) && Fresh(g, from, p, i) :: Falls(h, rank, p, h[p][i], out)
  }

  lemma {:induction false} RankedThen(g: Graph, from: nat, r1: Compiled, rank1: seq<real>, out1: real, from2: nat,
          r2: Compiled, rank2: seq<real>, out2: real)
    requires Grows(g, from, r1) && Grows(r1.graph, from2, r2)
    requires from2 == from || from2 >= |g|
    requires rank1 <= rank2
    requires Ranked(g, from, r1.graph, rank1, out1) && Ranked(r1.graph, from2, r2.graph, rank2, out2)
    requires r1.open == [] || out1 == out2
    ensures Ranked(g, from, r2.graph, rank2, out2)
  {
    forall p: nat, i: nat | IsEdge(r2.graph, p, i) && Fresh(g, from, p, i)
      ensures Falls(r2.graph, rank2, p, r2.graph[p][i], out2)
    {
      if !Fresh(r1.graph, from2, p, i) {
        assert IsEdge(r1.graph, p, i) && r1.graph[p][i] == r2.graph[p][i];
        assert Falls(r1.graph, rank1, p, r1.graph[p][i], out1);
        assert forall q | 0 <= q < |r1.graph| :: |r1.graph[q]| <= |r2.graph[q]|;
      }
    }
  }

  lemma {:induction false} RankedPatch(g: Graph, from: nat, r: Compiled, rank: seq<real>, to: nat, out: real)
    requires Grows(g, from, r) && to < |r.graph| == |rank|
    requires Ranked(g, from, r.graph, rank, rank[to])
    ensures Ranked(g, from, Patch(r.graph, r.open, to), rank, out)
  {
    var h := Patch(r.graph, r.open, to);
    forall p: nat, i: nat | IsEdge(h, p, i) && Fresh(g, from, p, i)
      ensures Falls(h, rank, p, h[p][i], out)
    {
      assert IsEdge(r.graph, p, i);
      assert Falls(r.graph, rank, p, r.graph[p][i], rank[to]);
    }
  }

  /** Closing a loop is fine if its open edges fall to it, or if none is on a state with a single edge. */
  lemma {:induction false} RankedLoop(g: Graph, from: nat, body: Compiled, rank: seq<real>, low: real, loop: nat,
          out: real)
    requires Grows(g, from, body) && loop < |body.graph| && (loop == from || |g| <= loop)
    requires Ranked(g, from, body.graph, rank, low)
    requires rank[loop] <= low || (OpenSolid(body) && |body.graph[loop]| >= 1)
    requires rank[loop] > out
    ensures Ranked(g, from, OpenFrom(Patch(body.graph, body.open, loop), loop).graph, rank, out)
  {
    var h := Patch(body.graph, body.open, loop);
    var h' := OpenFrom(h, loop).graph;
    forall p: nat, i: nat | IsEdge(h', p, i) && Fresh(g, from, p, i)
      ensures Falls(h', rank, p, h'[p][i], out)
    {
      if IsEdge(body.graph, p, i) {
        assert Falls(body.graph, rank, p, body.graph[p][i], low);
        assert h'[p][i] == h[p][i];
        if body.graph[p][i].to.None? {
          assert EdgeRef(p, i) in body.open;
        }
      }
    }
  }

  lemma {:induction false} RankedState(g: Graph, from: nat, rank: seq<real>, top: real, out: real)
    requires from < |g| == |rank|
    ensures Ranked(g, from, NewState(g), rank + [top], out)
  {
    assert forall p: nat, i: nat | IsEdge(NewState(g), p, i) :: p < |g| && !Fresh(g, from, p, i);
  }

  lemma {:induction false} RankedEdge(g: Graph, from: nat, term: Option<NodeType>, to: Option<nat>, rank: seq<real>,
          out: real)
    requires from < |g| == |rank|
    requires Falls(g, rank, from, Edge(term, to), out)
    ensures Ranked(g, from, AddEdge(g, from, term, to), rank, out)
  {
  }

  lemma {:induction false} CompileRanked(g: Graph, e: Expr, from: nat, rank: seq<real>, out: real)
    returns (rank': seq<real>)
    requires from < |g| == |rank| && Parsed(e) && Steady(e)
    requires Skippable(e) ==> rank[from] > out
    ensures rank <= rank' && Ranked(g, from, Compile(g, e, from).graph, rank', out)
    decreases e, 1
  {
    match e
    case Choice(es) => rank' := ChoiceRanked(g, es, from, rank, out);
    case Sequence(es) => rank' := SeqRanked(g, es, from, rank, out);
    case Star(_) => rank' := StarRanked(g, e, from, rank, out);
    case Plus(_) => rank' := PlusRanked(g, e, from, rank, out);
    case Opt(e1) =>
      var skip := OpenFrom(g, from);
      GrowsEdge(g, from, None, None);
      RankedEdge(g, from, None, None, rank, out);
      rank' := CompileRanked(skip.graph, e1, from, rank, out);
      CompileGrows(skip.graph, e1, from);
      RankedThen(g, from, skip, rank, out, from, Compile(skip.graph, e1, from), rank', out);
    case Range(min, max, e1) => rank' := RangeRanked(g, e1, min, max, from, rank, out);
    case Name(t) =>
      rank' := rank;
      RankedEdge(g, from, Some(t), None, rank, out);
  }

  lemma {:induction false} StarRanked(g: Graph, e: Expr, from: nat, rank: seq<real>, out: real)
    returns (rank': seq<real>)
    requires from < |g| == |rank| && Parsed(e) && Steady(e) && e.Star?
    requires Skippable(e) ==> rank[from] > out
    ensures rank <= rank' && Ranked(g, from, Compile(g, e, from).graph, rank', out)
    decreases e, 0
  {
    var e1 := e.expr;
    var loop := |g|;
    var g0 := NewState(g);
    var g1 := AddEdge(g0, from, None, Some(loop));
    var rank1 := rank + [(rank[from] + out) / 2.0];
    GrowsState(g, from);
    GrowsEdge(g0, from, None, Some(loop));
    GrowsThen(g, from, Compiled(g0, []), from, Compiled(g1, []));
    RankedState(g, from, rank, rank1[loop], out);
    RankedEdge(g0, from, None, Some(loop), rank1, out);
    RankedThen(g, from, Compiled(g0, []), rank1, out, from, Compiled(g1, []), rank1, out);
    rank' := LoopRanked(g, from, g1, e1, loop, rank1, out);
  }

  lemma {:induction false} PlusRanked(g: Graph, e: Expr, from: nat, rank: seq<real>, out: real)
    returns (rank': seq<real>)
    requires from < |g| == |rank| && Parsed(e) && Steady(e) && e.Plus?
    requires Skippable(e) ==> rank[from] > out
    ensures rank <= rank' && Ranked(g, from, Compile(g, e, from).graph, rank', out)
    decreases e, 0
  {
    var e1 := e.expr;
    var loop := |g|;
    var g0 := NewState(g);
    var rank1 := rank + [if Skippable(e1) then (rank[from] + out) / 2.0 else out + 1.0];
    GrowsState(g, from);
    RankedState(g, from, rank, rank1[loop], out);
    var rank2 := CompileRanked(g0, e1, from, rank1, rank1[loop]);
    var once := Compile(g0, e1, from);
    CompileGrows(g0, e1, from);
    GrowsThen(g, from, Compiled(g0, []), from, once);
    RankedThen(g, from, Compiled(g0, []), rank1, out, from, once, rank2, rank1[loop]);
    GrowsPatch(g, from, once, loop);
    RankedPatch(g, from, once, rank2, loop, out);
    rank' := LoopRanked(g, from, Patch(once.graph, once.open, loop), e1, loop, rank2, out);
  }

  lemma {:induction false} LoopRanked(g: Graph, from: nat, g1: Graph, e: Expr, loop: nat, rank: seq<real>, out: real)
    returns (rank': seq<real>)
    requires from < |g| && loop < |g1| && (loop == from || |g| <= loop)
    requires Parsed(e) && Steady(e) && LoopSteady(e)
    requires Grows(g, from, Compiled(g1, [])) && Ranked(g, from, g1, rank, out)
    requires rank[loop] > out
    ensures var body := Compile(g1, e, loop);
      rank <= rank' && Ranked(g, from, OpenFrom(Patch(body.graph, body.open, loop), loop).graph, rank', out)
    decreases e, 2
  {
    var low := if Skippable(e) then rank[loop] - 1.0 else rank[loop];
    rank' := CompileRanked(g1, e, loop, rank, low);
    var body := Compile(g1, e, loop);
    CompileGrows(g1, e, loop);
    CompileAdds(g1, e, loop);
    GrowsThen(g, from, Compiled(g1, []), loop, body);
    RankedThen(g, from, Compiled(g1, []), rank, out, loop, body, rank', low);
    if Skippable(e) {
      CompileSolid(g1, e, loop);
    }
    RankedLoop(g, from, body, rank', low, loop, out);
  }

  lemma {:induction false} ChoiceRanked(g: Graph, es: seq<Expr>, from: nat, rank: seq<real>, out: real)
    returns (rank': seq<real>)
    requires from < |g| == |rank|
    requires forall i | 0 <= i < |es| :: Parsed(es[i]) && Steady(es[i])
    requires forall i | 0 <= i < |es| :: Skippable(es[i]) ==> rank[from] > out
    ensures rank <= rank' && Ranked(g, from, CompileChoice(g, es, from).graph, rank', out)
    decreases es, 0
  {
    if es == [] {
      rank' := rank;
    } else {
      var first := Compile(g, es[0], from);
      CompileGrows(g, es[0], from);
      var rank1 := CompileRanked(g, es[0], from, rank, out);
      rank' := ChoiceRanked(first.graph, es[1..], from, rank1, out);
      ChoiceGrows(first.graph, es[1..], from);
      RankedThen(g, from, first, rank1, out, from, CompileChoice(first.graph, es[1..], from), rank', out);
    }
  }

  /** A rank for a state between two parts, below `from` if the first, above `out` if the rest can be skipped. */
  function Between(high: real, out: real, first: bool, rest: bool): (m: real)
    requires first && rest ==> high > out
    ensures (first ==> m < high) && (rest ==> m > out)
  {
    if !first then out + 1.0 else if !rest then high - 1.0 else (high + out) / 2.0
  }

  lemma {:induction false} SeqRanked(g: Graph, es: seq<Expr>, from: nat, rank: seq<real>, out: real)
    returns (rank': seq<real>)
    requires from < |g| == |rank| && es != []
    requires forall i | 0 <= i < |es| :: Parsed(es[i]) && Steady(es[i])
    requires (forall i | 0 <= i < |es| :: Skippable(es[i])) ==> rank[from] > out
    ensures rank <= rank' && Ranked(g, from, CompileSeq(g, es, from).graph, rank', out)
    decreases es, 0
  {
    if |es| == 1 {
      rank' := CompileRanked(g, es[0], from, rank, out);
    } else {
      var rest := es[1..];
      var restSkips := forall i | 0 <= i < |rest| :: Skippable(rest[i]);
      assert Skippable(es[0]) && restSkips ==> forall i | 0 <= i < |es| :: Skippable(es[i]) by {
        assert forall i | 1 <= i < |es| :: es[i] == rest[i - 1];
      }
      var mid := Between(rank[from], out, Skippable(es[0]), restSkips);
      var first := Compile(g, es[0], from);
      CompileGrows(g, es[0], from);
      var rank1 := CompileRanked(g, es[0], from, rank, mid);
      var next := |first.graph|;
      RankedNext(g, from, first, rank1, mid, out);
      NextGrows(g, from, first);
      var g1 := Patch(NewState(first.graph), first.open, next);
      rank' := SeqRanked(g1, rest, next, rank1 + [mid], out);
      SeqGrows(g1, rest, next);
      RankedThen(g, from, Compiled(g1, []), rank1 + [mid], out, next, CompileSeq(g1, rest, next), rank', out);
    }
  }

  lemma {:induction false} RankedNext(g: Graph, from: nat, r: Compiled, rank: seq<real>, mid: real, out: real)
    requires from < |g| && Grows(g, from, r) && Ranked(g, from, r.graph, rank, mid)
    ensures Ranked(g, from, Patch(NewState(r.graph), r.open, |r.graph|), rank + [mid], out)
  {
    var r' := Compiled(NewState(r.graph), []);
    GrowsState(r.graph, from);
    RankedState(r.graph, from, rank, mid, mid);
    RankedThen(g, from, r, rank, mid, from, r', rank + [mid], mid);
    GrowsThen(g, from, r, from, r');
    RankedPatch(g, from, Compiled(NewState(r.graph), r.open), rank + [mid], |r.graph|, out);
  }

  /** One copy of a range's body, from `from` to a new state ranked `mid`; `skip` adds a way past it. */
  lemma {:induction false} CopyRanked(g: Graph, e: Expr, skip: bool, from: nat, rank: seq<real>, mid: real, out: real)
    returns (rank': seq<real>)
    requires from < |g| == |rank| && Parsed(e) && Steady(e)
    requires skip || Skippable(e) ==> rank[from] > mid
    ensures var g1 := if skip then AddEdge(NewState(g), from, None, Some(|g|)) else NewState(g);
      var copy := Compile(g1, e, from);
      var g2 := Patch(copy.graph, copy.open, |g|);
      && rank <= rank' && |rank'| == |g2| && rank'[|g|] == mid
      && Grows(g, from, Compiled(g2, [])) && Ranked(g, from, g2, rank', out)
    decreases e, 2
  {
    var next := |g|;
    var g0 := NewState(g);
    var g1 := if skip then AddEdge(g0, from, None, Some(next)) else g0;
    var rank1 := rank + [mid];
    GrowsState(g, from);
    RankedState(g, from, rank, mid, out);
    if skip {
      GrowsEdge(g0, from, None, Some(next));
      GrowsThen(g, from, Compiled(g0, []), from, Compiled(g1, []));
      RankedEdge(g0, from, None, Some(next), rank1, out);
      RankedThen(g, from, Compiled(g0, []), rank1, out, from, Compiled(g1, []), rank1, out);
    }
    rank' := CompileRanked(g1, e, from, rank1, mid);
    var copy := Compile(g1, e, from);
    CompileGrows(g1, e, from);
    GrowsThen(g, from, Compiled(g1, []), from, copy);
    RankedThen(g, from, Compiled(g1, []), rank1, out, from, copy, rank', mid);
    GrowsPatch(g, from, copy, next);
    RankedPatch(g, from, copy, rank', next, out);
  }

  lemma {:induction false} RangeRanked(g: Graph, e: Expr, min: nat, max: Bound, from: nat, rank: seq<real>, out: real)
    returns (rank': seq<real>)
    requires from < |g| == |rank| && Parsed(e) && Steady(e)
    requires max.Unbounded? ==> LoopSteady(e)
    requires min == 0 || Skippable(e) ==> rank[from] > out
    ensures rank <= rank' && Ranked(g, from, CompileRange(g, e, min, max, from).graph, rank', out)
    decreases e, 3, min, if max.AtMost? then max.n else 0, 1
  {
    if min == 0 && max.Unbounded? {
      GrowsNothing(g, from);
      rank' := LoopRanked(g, from, g, e, from, rank, out);
    } else if min == 0 && max.n == 0 {
      RankedEdge(g, from, None, None, rank, out);
      rank' := rank;
    } else {
      rank' := NextCopyRanked(g, e, min, max, from, rank, out);
    }
  }

  lemma {:induction false} NextCopyRanked(g: Graph, e: Expr, min: nat, max: Bound, from: nat, rank: seq<real>,
          out: real)
    returns (rank': seq<real>)
    requires from < |g| == |rank| && Parsed(e) && Steady(e)
    requires max.Unbounded? ==> LoopSteady(e)
    requires min == 0 || Skippable(e) ==> rank[from] > out
    requires min > 0 || (max.AtMost? && max.n > 0)
    ensures rank <= rank' && Ranked(g, from, CompileRange(g, e, min, max, from).graph, rank', out)
    decreases e, 3, min, if max.AtMost? then max.n else 0, 0
  {
    var next := |g|;
    var min' := if min > 0 then min - 1 else 0;
    var mid := Between(rank[from], out, min == 0 || Skippable(e), min' == 0 || Skippable(e));
    var rank1 := CopyRanked(g, e, min == 0, from, rank, mid, out);
    var g1 := if min == 0 then AddEdge(NewState(g), from, None, Some(next)) else NewState(g);
    var copy := Compile(g1, e, from);
    var g2 := Patch(copy.graph, copy.open, next);
    rank' := RangeRanked(g2, e, min', Lower(max), next, rank1, out);
    var rest := CompileRange(g2, e, min', Lower(max), next);
    RangeGrows(g2, e, min', Lower(max), next);
    RankedThen(g, from, Compiled(g2, []), rank1, out, next, rest, rank', out);
    assert CompileRange(g, e, min, max, from) == rest;
  }

  // ----- from ranks to closures that can be computed -----

  ghost function LowerStates(g: Graph, rank: seq<real>, p: nat): set<nat>
    requires |rank| == |g| && p < |g|
  {
    set q: nat | q < |g| && rank[q] < rank[p]
  }

  lemma {:induction false} ChainBounded(g: Graph, rank: seq<real>, p: nat, n: nat)
    requires Closed(g) && |rank| == |g| && p < |g| && Chain(g, p, n)
    requires forall p: nat, i: nat | IsEdge(g, p, i) :: Falls(g, rank, p, g[p][i], 0.0)
    ensures n <= |LowerStates(g, rank, p)|
    decreases n
  {
    if n > 0 {
      var k: nat :| Unchecked(g, p, k) && Chain(g, g[p][k].to.value, n - 1);
      var q := g[p][k].to.value;
      ChainBounded(g, rank, q, n - 1);
      assert Falls(g, rank, p, g[p][k], 0.0);
      assert q in LowerStates(g, rank, p) && q !in LowerStates(g, rank, q);
      Shrinks(LowerStates(g, rank, q), LowerStates(g, rank, p));
    }
  }

  /** A steady expression compiles to an automaton in which no state spins. */
  lemma {:induction false} SteadyNeverSpins(e: Expr)
    requires Parsed(e) && Steady(e)
    ensures !Spins(Automaton(e))
  {
    var g := Automaton(e);
    AutomatonClosed(e);
    var r := Compile([[]], e, 0);
    CompileGrows([[]], e, 0);
    var rank := CompileRanked([[]], e, 0, [1.0], 0.0);
    RankedNext([[]], 0, r, rank, 0.0, 0.0);
    rank := rank + [0.0];
    assert forall p: nat, i: nat | IsEdge(g, p, i) :: Fresh([[]], 0, p, i);
    forall p: nat | p < |g|
      ensures !SpinsAt(g, p)
    {
      if SpinsAt(g, p) {
        var n := |LowerStates(g, rank, p)| + 1;
        assert Chain(g, p, n);
        ChainBounded(g, rank, p, n);
      }
    }
  }

  // ----- an input whose closures are never computed -----

  lemma {:induction false} BackAndForth(g: Graph, p: nat, q: nat, n: nat)
    requires Unchecked(g, p, 0) && g[p][0].to.value == q
    requires Unchecked(g, q, 0) && g[q][0].to.value == p
    ensures Chain(g, p, n) && Chain(g, q, n)
  {
    if n > 0 {
      BackAndForth(g, p, q, n - 1);
    }
  }

  lemma {:induction false} SameGraph(g: Graph, h: Graph)
    requires |g| == |h| && forall p | 0 <= p < |g| :: |g[p]| == |h[p]|
    requires forall p: nat, i: nat | IsEdge(g, p, i) :: g[p][i] == h[p][i]
    ensures g == h
  {
    assert forall p: nat | p < |g| :: g[p] == h[p] by {
      assert forall p: nat, i: nat | p < |g| && i < |g[p]| :: IsEdge(g, p, i);
    }
  }

  /** What `a{0,1}` compiles to, as the body of a loop on state 1. */
  lemma {:induction false} OneOrNone(a: NodeType)
    ensures var start, skip := Edge(None, Some(1)), Edge(None, Some(2));
      var last := [skip, Edge(Some(a), Some(2))];
      Compile([[start], []], Range(0, AtMost(1), Name(a)), 1) ==
      Compiled([[start], last, [Edge(None, None)]], [EdgeRef(2, 0)])
  {
    var start, skip := Edge(None, Some(1)), Edge(None, Some(2));
    var last := [skip, Edge(Some(a), Some(2))];
    var g1: Graph := [[start], []];
    var g2: Graph := [[start], [skip], []];
    SameGraph(AddEdge(NewState(g1), 1, None, Some(2)), g2);
    var copy := Compile(g2, Name(a), 1);
    assert copy.open == [EdgeRef(1, 1)];
    var g3: Graph := [[start], last, []];
    SameGraph(Patch(copy.graph, copy.open, 2), g3);
    var body := CompileRange(g1, Name(a), 0, AtMost(1), 1);
    assert Lower(AtMost(1)) == AtMost(0);
    assert body == CompileRange(g3, Name(a), 0, AtMost(0), 2);
    SameGraph(body.graph, [[start], last, [Edge(None, None)]]);
  }

  /** The automaton for `(a{0,1})*`. */
  lemma {:induction false} LoopOfOneOrNone(a: NodeType)
    ensures var g := Automaton(Star(Range(0, AtMost(1), Name(a))));
      && |g| == 4 && |g[1]| == 3 && g[1][0] == Edge(None, Some(2))
      && g[2] == [Edge(None, Some(1))]
  {
    var range := Range(0, AtMost(1), Name(a));
    var start, skip := Edge(None, Some(1)), Edge(None, Some(2));
    var last := [skip, Edge(Some(a), Some(2))];
    SameGraph(AddEdge(NewState([[]]), 0, None, Some(1)), [[start], []]);
    OneOrNone(a);
    var body := Compile([[start], []], range, 1);
    var looped: Graph := [[start], last, [Edge(None, Some(1))]];
    SameGraph(Patch(body.graph, body.open, 1), looped);
    assert Compile([[]], Star(range), 0) == OpenFrom(looped, 1);
  }

  /** `(a{0,1})*` spins, so closing over its states never ends. */
  lemma {:induction false} BoundedRangeInLoop(a: NodeType)
    ensures var e := Star(Range(0, AtMost(1), Name(a)));
      Parsed(e) && !Steady(e) && Spins(Automaton(e))
  {
    var g := Automaton(Star(Range(0, AtMost(1), Name(a))));
    LoopOfOneOrNone(a);
    assert Unchecked(g, 1, 0) && Unchecked(g, 2, 0);
    forall n: nat
      ensures Chain(g, 1, n)
    {
      BackAndForth(g, 1, 2, n);
    }
    assert SpinsAt(g, 1);
  }
}
