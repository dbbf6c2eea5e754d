/** What one call of the compiler changes in the automaton, and what it leaves alone. */
module NfaShape {
  import opened Options
  import opened ContentExpr
  import opened Nfa

  predicate IsEdge(g: Graph, p: nat, i: nat) {
    p < |g| && i < |g[p]|
  }

  /** Edge `i` of state `p` was not there before: it is on a new state, or newly on `from`. */
  predicate Fresh(g: Graph, from: nat, p: nat, i: nat) {
    p < |g| ==> p == from && i >= |g[p]|
  }

  /** The frame of a compiler call at `from`: old edges stay, every open new edge is reported. */
  ghost predicate Grows(g: Graph, from: nat, r: Compiled) {
    && |g| <= |r.graph|
    && from < |r.graph|
    && (forall p {:trigger r.graph[p]} | 0 <= p < |g| && p != from :: r.graph[p] == g[p])
    && (from < |g| ==> g[from] <= r.graph[from])
    && (forall ref | ref in r.open ::
          && IsEdge(r.graph, ref.state, ref.index)
          && Fresh(g, from, ref.state, ref.index)
          && r.graph[ref.state][ref.index].to.None?)
    && (forall p: nat, i: nat | IsEdge(r.graph, p, i) && Fresh(g, from, p, i) ::
          match r.graph[p][i].to
          case None => EdgeRef(p, i) in r.open
          case Some(q) => q < |r.graph|)
  }

  lemma {:induction false} GrowsNothing(g: Graph, from: nat)
    requires from < |g|
    ensures Grows(g, from, Compiled(g, []))
  {
  }

  lemma {:induction false} GrowsState(g: Graph, from: nat)
    requires from < |g|
    ensures Grows(g, from, Compiled(NewState(g), []))
  {
    assert forall p: nat, i: nat | IsEdge(NewState(g), p, i) :: p < |g| && !Fresh(g, from, p, i);
  }

  lemma {:induction false} GrowsEdge(g: Graph, from: nat, term: Option<NodeType>, to: Option<nat>)
    requires from < |g| && (to.Some? ==> to.value < |g|)
    ensures Grows(g, from, Compiled(AddEdge(g, from, term, to),
                                    if to.Some? then [] else [EdgeRef(from, |g[from]|)]))
  {
  }

  /** A call at `from`, then one at `from` again or at a state the first call made. */
  lemma {:induction false} GrowsThen(g: Graph, from: nat, r1: Compiled, from2: nat, r2: Compiled)
    requires Grows(g, from, r1) && Grows(r1.graph, from2, r2)
    requires from2 == from || from2 >= |g|
    ensures Grows(g, from, Compiled(r2.graph, r1.open + r2.open))
    ensures r1.open == [] ==> Grows(g, from, r2)
    ensures r2.open == [] ==> Grows(g, from, Compiled(r2.graph, r1.open))
  {
    assert r1.open == [] ==> r1.open + r2.open == r2.open;
    assert r2.open == [] ==> r1.open + r2.open == r1.open;
    var r := Compiled(r2.graph, r1.open + r2.open);
    forall p: nat, i: nat | IsEdge(r.graph, p, i) && Fresh(g, from, p, i)
      ensures match r.graph[p][i].to
              case None => EdgeRef(p, i) in r.open
              case Some(q) => q < |r.graph|
    {
      if !Fresh(r1.graph, from2, p, i) {
        assert IsEdge(r1.graph, p, i) && r1.graph[p][i] == r2.graph[p][i];
      }
    }
    forall ref | ref in r1.open
      ensures IsEdge(r.graph, ref.state, ref.index) && r.graph[ref.state][ref.index] == r1.graph[ref.state][ref.index]
    {
    }
  }

  lemma {:induction false} GrowsPatch(g: Graph, from: nat, r: Compiled, to: nat)
    requires Grows(g, from, r) && to < |r.graph|
    ensures Grows(g, from, Compiled(Patch(r.graph, r.open, to), []))
  {
    var h := Patch(r.graph, r.open, to);
    forall p | 0 <= p < |g| && p != from
      ensures h[p] == g[p]
    {
      assert forall i | 0 <= i < |h[p]| :: h[p][i] == g[p][i] by {
        assert forall i | 0 <= i < |h[p]| :: !Fresh(g, from, p, i);
      }
    }
    if from < |g| {
      assert forall i | 0 <= i < |g[from]| :: !Fresh(g, from, from, i) && h[from][i] == g[from][i];
    }
    forall p: nat, i: nat | IsEdge(h, p, i) && Fresh(g, from, p, i)
      ensures match h[p][i].to
              case None => false
              case Some(q) => q < |h|
    {
      assert IsEdge(r.graph, p, i);
    }
  }

  lemma {:induction false} CompileGrows(g: Graph, e: Expr, from: nat)
    requires from < |g| && Parsed(e)
    ensures Grows(g, from, Compile(g, e, from))
    decreases e, 1
  {
    match e
    case Choice(es) => ChoiceGrows(g, es, from);
    case Sequence(es) => SeqGrows(g, es, from);
    case Star(e1) =>
      GrowsState(g, from);
      var loop := |g|;
      var g0 := NewState(g);
      var g1 := AddEdge(g0, from, None, Some(loop));
      GrowsEdge(g0, from, None, Some(loop));
      GrowsThen(g, from, Compiled(g0, []), from, Compiled(g1, []));
      var body := Compile(g1, e1, loop);
      CompileGrows(g1, e1, loop);
      GrowsThen(g, from, Compiled(g1, []), loop, body);
      LoopGrows(g, from, body, loop);
    case Plus(e1) =>
      GrowsState(g, from);
      var loop := |g|;
      var once := Compile(NewState(g), e1, from);
      CompileGrows(NewState(g), e1, from);
      GrowsThen(g, from, Compiled(NewState(g), []), from, once);
      GrowsPatch(g, from, once, loop);
      var g1 := Patch(once.graph, once.open, loop);
      var body := Compile(g1, e1, loop);
      CompileGrows(g1, e1, loop);
      GrowsThen(g, from, Compiled(g1, []), loop, body);
      LoopGrows(g, from, body, loop);
    case Opt(e1) =>
      var skip := OpenFrom(g, from);
      GrowsEdge(g, from, None, None);
      CompileGrows(skip.graph, e1, from);
      GrowsThen(g, from, skip, from, Compile(skip.graph, e1, from));
    case Range(min, max, e1) => RangeGrows(g, e1, min, max, from);
    case Name(t) => GrowsEdge(g, from, Some(t), None);
  }

  /** Closing a loop: the open edges go back to `loop`, which gets a way out. */
  lemma {:induction false} LoopGrows(g: Graph, from: nat, body: Compiled, loop: nat)
    requires Grows(g, from, body)
    requires loop == from || |g| <= loop < |body.graph|
    ensures Grows(g, from, OpenFrom(Patch(body.graph, body.open, loop), loop))
  {
    GrowsPatch(g, from, body, loop);
    var h := Patch(body.graph, body.open, loop);
    GrowsEdge(h, loop, None, None);
    GrowsThen(g, from, Compiled(h, []), loop, OpenFrom(h, loop));
  }

  lemma {:induction false} ChoiceGrows(g: Graph, es: seq<Expr>, from: nat)
    requires from < |g| && forall i | 0 <= i < |es| :: Parsed(es[i])
    ensures Grows(g, from, CompileChoice(g, es, from))
    decreases es, 0
  {
    if es == [] {
      GrowsNothing(g, from);
    } else {
      var first := Compile(g, es[0], from);
      CompileGrows(g, es[0], from);
      ChoiceGrows(first.graph, es[1..], from);
      GrowsThen(g, from, first, from, CompileChoice(first.graph, es[1..], from));
    }
  }

  /** Adding a state after a call and pointing that call's open edges at it. */
  lemma {:induction false} NextGrows(g: Graph, from: nat, r: Compiled)
    requires Grows(g, from, r) && from < |g|
    ensures Grows(g, from, Compiled(Patch(NewState(r.graph), r.open, |r.graph|), []))
  {
    GrowsState(r.graph, from);
    GrowsThen(g, from, r, from, Compiled(NewState(r.graph), []));
    GrowsPatch(g, from, Compiled(NewState(r.graph), r.open), |r.graph|);
  }

  lemma {:induction false} SeqGrows(g: Graph, es: seq<Expr>, from: nat)
    requires from < |g| && es != [] && forall i | 0 <= i < |es| :: Parsed(es[i])
    ensures Grows(g, from, CompileSeq(g, es, from))
    decreases es, 0
  {
    var first := Compile(g, es[0], from);
    CompileGrows(g, es[0], from);
    if |es| > 1 {
      NextGrows(g, from, first);
      var next := |first.graph|;
      var g1 := Patch(NewState(first.graph), first.open, next);
      SeqGrows(g1, es[1..], next);
      GrowsThen(g, from, Compiled(g1, []), next, CompileSeq(g1, es[1..], next));
    }
  }

  lemma {:induction false} RangeGrows(g: Graph, e: Expr, min: nat, max: Bound, from: nat)
    requires from < |g| && Parsed(e)
    ensures Grows(g, from, CompileRange(g, e, min, max, from))
    decreases e, 2, min, if max.AtMost? then max.n else 0
  {
    if min == 0 && max.Unbounded? {
      CompileGrows(g, e, from);
      var body := Compile(g, e, from);
      LoopGrows(g, from, body, from);
    } else if min == 0 && max.n == 0 {
      GrowsEdge(g, from, None, None);
    } else {
      var next := |g|;
      GrowsState(g, from);
      var g0 := NewState(g);
      var g1 := if min > 0 then g0 else AddEdge(g0, from, None, Some(next));
      if min == 0 {
        GrowsEdge(g0, from, None, Some(next));
        GrowsThen(g, from, Compiled(g0, []), from, Compiled(g1, []));
      }
      var copy := Compile(g1, e, from);
      CompileGrows(g1, e, from);
      GrowsThen(g, from, Compiled(g1, []), from, copy);
      GrowsPatch(g, from, copy, next);
      var g2 := Patch(copy.graph, copy.open, next);
      var min' := if min > 0 then min - 1 else 0;
      RangeGrows(g2, e, min', Lower(max), next);
      var rest := CompileRange(g2, e, min', Lower(max), next);
      GrowsThen(g, from, Compiled(g2, []), next, rest);
    }
  }
}
