/** Completeness of the compiler: every word of Full(e) is spelled by a walk to the accepting state. */
module NfaComplete {
  import opened Options
  import opened Languages
  import opened ContentExpr
  import opened Nfa
  import opened NfaShape
  import opened NfaWalk

  ghost predicate ReachesAll(g: Graph, p: nat, a: Content, q: nat) {
    forall w | w in a :: Reaches(g, p, w, q)
  }

  ghost predicate LeavesSome(r: Compiled, p: nat, w: seq<NodeType>) {
    exists ref :: ref in r.open && Leaves(r.graph, p, w, ref)
  }

  ghost predicate LeavesAll(r: Compiled, p: nat, a: Content) {
    forall w | w in a :: LeavesSome(r, p, w)
  }

  /** The walks that the compiled form `r` of an expression owes its entry state. */
  ghost predicate Covers(r: Compiled, p: nat, l: Content, x: Content) {
    ReachesAll(r.graph, p, l, p) && LeavesAll(r, p, x)
  }

  lemma {:induction false} AllBelow(g: Graph, h: Graph, p: nat, a: Content, q: nat)
    requires Below(g, h) && ReachesAll(g, p, a, q)
    ensures ReachesAll(h, p, a, q)
  {
    forall w | w in a
      ensures Reaches(h, p, w, q)
    {
      ReachesBelow(g, h, p, w, q);
    }
  }

  lemma {:induction false} AllPatched(g: Graph, from: nat, r: Compiled, a: Content, to: nat)
    requires Grows(g, from, r) && LeavesAll(r, from, a)
    ensures ReachesAll(Patch(r.graph, r.open, to), from, a, to)
  {
    forall w | w in a
      ensures Reaches(Patch(r.graph, r.open, to), from, w, to)
    {
      var ref :| ref in r.open && Leaves(r.graph, from, w, ref);
      LeavesPatched(r.graph, r.open, to, from, w, ref);
    }
  }

  lemma {:induction false} AllCat(g: Graph, p: nat, a: Content, q: nat, b: Content, r: nat)
    requires ReachesAll(g, p, a, q) && ReachesAll(g, q, b, r)
    ensures ReachesAll(g, p, Cat(a, b), r)
  {
    forall w | w in Cat(a, b)
      ensures Reaches(g, p, w, r)
    {
      var u, v := CatElim(a, b, w);
      ReachesThen(g, p, u, q, v, r);
    }
  }

  lemma {:induction false} AllEpsilon(g: Graph, p: nat)
    ensures ReachesAll(g, p, Epsilon(), p)
  {
    ReachesSelf(g, p);
  }

  lemma {:induction false} AllPower(g: Graph, p: nat, a: Content, n: nat)
    requires ReachesAll(g, p, a, p)
    ensures ReachesAll(g, p, Power(a, n), p)
  {
    if n == 0 {
      AllEpsilon(g, p);
    } else {
      AllPower(g, p, a, n - 1);
      AllCat(g, p, a, p, Power(a, n - 1), p);
    }
  }

  lemma {:induction false} AllIterate(g: Graph, p: nat, a: Content)
    requires ReachesAll(g, p, a, p)
    ensures ReachesAll(g, p, Iterate(a), p)
  {
    forall w | w in Iterate(a)
      ensures Reaches(g, p, w, p)
    {
      var n: nat :| w in Power(a, n);
      AllPower(g, p, a, n);
    }
  }

  lemma {:induction false} AllLeaves(r: Compiled, p: nat, a: Content, q: nat, b: Content)
    requires ReachesAll(r.graph, p, a, q) && LeavesAll(r, q, b)
    ensures LeavesAll(r, p, Cat(a, b))
  {
    forall w | w in Cat(a, b)
      ensures LeavesSome(r, p, w)
    {
      var u, v := CatElim(a, b, w);
      var ref :| ref in r.open && Leaves(r.graph, q, v, ref);
      ReachesLeaves(r.graph, p, u, q, v, ref);
    }
  }

  lemma {:induction false} LeavesAllBelow(r: Compiled, r': Compiled, p: nat, a: Content)
    requires Below(r.graph, r'.graph) && LeavesAll(r, p, a)
    requires forall ref | ref in r.open :: ref in r'.open
    ensures LeavesAll(r', p, a)
  {
    forall w | w in a
      ensures LeavesSome(r', p, w)
    {
      var ref :| ref in r.open && Leaves(r.graph, p, w, ref);
      LeavesBelow(r.graph, r'.graph, p, w, ref);
    }
  }

  lemma {:induction false} OpenFromLeaves(g: Graph, p: nat)
    requires p < |g|
    ensures LeavesAll(OpenFrom(g, p), p, Epsilon())
    ensures Below(g, OpenFrom(g, p).graph)
  {
    var r := OpenFrom(g, p);
    var ref := EdgeRef(p, |g[p]|);
    ReachesSelf(r.graph, p);
    assert r.graph[p][|g[p]|] == Edge(None, None);
    assert [] + Spelled(r.graph[p][|g[p]|]) == [];
    assert Leaves(r.graph, p, [], ref);
    assert ref in r.open;
    GrowsEdge(g, p, None, None);
    GrowsBelow(g, p, r);
  }

  /** The edge without a type from `p` to `q` that was added before compiling at `from`. */
  lemma {:induction false} StepThere(g: Graph, p: nat, q: nat, h: Graph)
    requires p < |g| && q < |g| && Below(AddEdge(g, p, None, Some(q)), h)
    ensures ReachesAll(h, p, Epsilon(), q)
  {
    var g1 := AddEdge(g, p, None, Some(q));
    ReachesEdge(g1, p, |g[p]|);
    ReachesBelow(g1, h, p, [], q);
  }

  lemma {:induction false} CompileComplete(g: Graph, e: Expr, from: nat)
    requires from < |g| && Parsed(e)
    ensures Covers(Compile(g, e, from), from, Loop(e), Exit(e))
    decreases e, 1
  {
    match e
    case Choice(es) =>
      ChoiceComplete(g, es, from);
      var r := Compile(g, e, from);
      forall w | w in Loop(e)
        ensures Reaches(r.graph, from, w, from)
      {
        assert InSomeLoop(es, w);
      }
      forall w | w in Exit(e)
        ensures LeavesSome(r, from, w)
      {
        assert InSomeExit(es, w);
      }
    case Sequence(es) => SeqComplete(g, es, from);
    case Star(e1) =>
      var loop := |g|;
      var g0 := NewState(g);
      var g1 := AddEdge(g0, from, None, Some(loop));
      var body := Compile(g1, e1, loop);
      CompileGrows(g1, e1, loop);
      LoopComplete(g1, e1, loop);
      var r := Compile(g, e, from);
      GrowsBelow(g1, loop, body);
      StepThere(g0, from, loop, r.graph);
      AllCat(r.graph, from, Epsilon(), loop, Iterate(Loop(e1) + Exit(e1)), loop);
      CatEpsilon(Iterate(Loop(e1) + Exit(e1)));
      AllLeaves(r, from, Exit(e), loop, Epsilon());
      CatEpsilon(Exit(e));
    case Plus(e1) =>
      var loop := |g|;
      var once := Compile(NewState(g), e1, from);
      CompileGrows(NewState(g), e1, from);
      CompileComplete(NewState(g), e1, from);
      AllPatched(NewState(g), from, once, Exit(e1), loop);
      var g1 := Patch(once.graph, once.open, loop);
      PatchBelow(once.graph, once.open, loop);
      AllBelow(once.graph, g1, from, Loop(e1), from);
      LoopComplete(g1, e1, loop);
      var r := Compile(g, e, from);
      AllBelow(g1, r.graph, from, Loop(e1), from);
      AllBelow(g1, r.graph, from, Exit(e1), loop);
      AllCat(r.graph, from, Exit(e1), loop, Iterate(Loop(e1) + Exit(e1)), loop);
      AllLeaves(r, from, Exit(e), loop, Epsilon());
      CatEpsilon(Exit(e));
    case Opt(e1) =>
      var skip := OpenFrom(g, from);
      OpenFromLeaves(g, from);
      CompileGrows(skip.graph, e1, from);
      CompileComplete(skip.graph, e1, from);
      var body := Compile(skip.graph, e1, from);
      GrowsBelow(skip.graph, from, body);
      var r := Compile(g, e, from);
      LeavesAllBelow(skip, r, from, Epsilon());
      LeavesAllBelow(body, r, from, Exit(e1));
    case Range(min, max, e1) => RangeComplete(g, e1, min, max, from);
    case Name(t) =>
      var r := Compile(g, e, from);
      var ref := EdgeRef(from, |g[from]|);
      ReachesSelf(r.graph, from);
      assert [] + Spelled(r.graph[from][|g[from]|]) == [t];
      assert Leaves(r.graph, from, [t], ref);
      assert ref in r.open;
  }

  /** The body of a loop, closed on `loop`: any number of rounds, then out. */
  lemma {:induction false} LoopComplete(g: Graph, e: Expr, loop: nat)
    requires loop < |g| && Parsed(e)
    ensures var body := Compile(g, e, loop);
      var r := OpenFrom(Patch(body.graph, body.open, loop), loop);
      && Below(g, r.graph)
      && Below(body.graph, r.graph)
      && ReachesAll(r.graph, loop, Loop(e) + Exit(e), loop)
      && ReachesAll(r.graph, loop, Iterate(Loop(e) + Exit(e)), loop)
      && LeavesAll(r, loop, Epsilon())
    decreases e, 2
  {
    var body := Compile(g, e, loop);
    CompileGrows(g, e, loop);
    CompileComplete(g, e, loop);
    var h := Patch(body.graph, body.open, loop);
    PatchBelow(body.graph, body.open, loop);
    AllPatched(g, loop, body, Exit(e), loop);
    AllBelow(body.graph, h, loop, Loop(e), loop);
    OpenFromLeaves(h, loop);
    var r := OpenFrom(h, loop);
    AllBelow(h, r.graph, loop, Loop(e) + Exit(e), loop);
    AllIterate(r.graph, loop, Loop(e) + Exit(e));
    GrowsBelow(g, loop, body);
  }

  lemma {:induction false} ChoiceComplete(g: Graph, es: seq<Expr>, from: nat)
    requires from < |g| && forall i | 0 <= i < |es| :: Parsed(es[i])
    ensures var r := CompileChoice(g, es, from);
      forall i | 0 <= i < |es| :: Covers(r, from, Loop(es[i]), Exit(es[i]))
    decreases es, 0
  {
    if es != [] {
      var first := Compile(g, es[0], from);
      var rest := CompileChoice(first.graph, es[1..], from);
      var r := CompileChoice(g, es, from);
      CompileComplete(g, es[0], from);
      ChoiceGrows(first.graph, es[1..], from);
      GrowsBelow(first.graph, from, rest);
      ChoiceComplete(first.graph, es[1..], from);
      AllBelow(first.graph, r.graph, from, Loop(es[0]), from);
      LeavesAllBelow(first, r, from, Exit(es[0]));
      forall i | 1 <= i < |es|
        ensures Covers(r, from, Loop(es[i]), Exit(es[i]))
      {
        assert es[1..][i - 1] == es[i];
        LeavesAllBelow(rest, r, from, Exit(es[i]));
      }
    }
  }

  /** Leaving one part means reaching the state the next part starts from. */
  lemma {:induction false} NextReached(g: Graph, from: nat, r: Compiled, l: Content, x: Content)
    requires from < |g| && Grows(g, from, r) && Covers(r, from, l, x)
    ensures var h := Patch(NewState(r.graph), r.open, |r.graph|);
      ReachesAll(h, from, l, from) && ReachesAll(h, from, x, |r.graph|)
  {
    var r' := Compiled(NewState(r.graph), r.open);
    GrowsState(r.graph, from);
    GrowsThen(g, from, r, from, Compiled(r'.graph, []));
    GrowsBelow(r.graph, from, Compiled(r'.graph, []));
    AllBelow(r.graph, r'.graph, from, l, from);
    LeavesAllBelow(r, r', from, x);
    AllPatched(g, from, r', x, |r.graph|);
    PatchBelow(r'.graph, r'.open, |r.graph|);
    AllBelow(r'.graph, Patch(r'.graph, r'.open, |r.graph|), from, l, from);
  }

  /** From a state with loops `l` and exits `x` followed by `k`, all of `l* x k` leads out. */
  lemma {:induction false} CoversFull(r: Compiled, p: nat, l: Content, x: Content, k: Content)
    requires Covers(r, p, l, Cat(x, k))
    ensures LeavesAll(r, p, Cat(Cat(Iterate(l), x), k))
  {
    AllIterate(r.graph, p, l);
    AllLeaves(r, p, Iterate(l), p, Cat(x, k));
    CatAssoc(Iterate(l), x, k);
  }

  lemma {:induction false} PartThenRest(g: Graph, r: Compiled, from: nat, next: nat, l: Content, x: Content, k: Content)
    requires Below(g, r.graph)
    requires ReachesAll(g, from, l, from) && ReachesAll(g, from, x, next) && LeavesAll(r, next, k)
    ensures Covers(r, from, l, Cat(x, k))
  {
    AllBelow(g, r.graph, from, l, from);
    AllBelow(g, r.graph, from, x, next);
    AllLeaves(r, from, x, next, k);
  }

  lemma {:induction false} SeqComplete(g: Graph, es: seq<Expr>, from: nat)
    requires from < |g| && es != [] && forall i | 0 <= i < |es| :: Parsed(es[i])
    ensures Covers(CompileSeq(g, es, from), from, Loop(es[0]), Cat(Exit(es[0]), FullSeq(es[1..])))
    decreases es, 0
  {
    var first := Compile(g, es[0], from);
    CompileGrows(g, es[0], from);
    CompileComplete(g, es[0], from);
    if |es| == 1 {
      assert FullSeq(es[1..]) == Epsilon();
      CatEpsilon(Exit(es[0]));
    } else {
      var rest := es[1..];
      var next := |first.graph|;
      var g1 := Patch(NewState(first.graph), first.open, next);
      NextReached(g, from, first, Loop(es[0]), Exit(es[0]));
      SeqComplete(g1, rest, next);
      SeqGrows(g1, rest, next);
      SeqStep(g1, es, from, next);
    }
  }

  lemma {:induction false} SeqStep(g: Graph, es: seq<Expr>, from: nat, next: nat)
    requires next < |g| && |es| > 1 && forall i | 0 <= i < |es| :: Parsed(es[i])
    requires ReachesAll(g, from, Loop(es[0]), from) && ReachesAll(g, from, Exit(es[0]), next)
    requires Grows(g, next, CompileSeq(g, es[1..], next))
    requires Covers(CompileSeq(g, es[1..], next), next, Loop(es[1]), Cat(Exit(es[1]), FullSeq(es[1..][1..])))
    ensures Covers(CompileSeq(g, es[1..], next), from, Loop(es[0]), Cat(Exit(es[0]), FullSeq(es[1..])))
  {
    var r := CompileSeq(g, es[1..], next);
    GrowsBelow(g, next, r);
    CoversFull(r, next, Loop(es[1]), Exit(es[1]), FullSeq(es[1..][1..]));
    assert FullSeq(es[1..]) == Cat(Full(es[1]), FullSeq(es[1..][1..]));
    PartThenRest(g, r, from, next, Loop(es[0]), Exit(es[0]), FullSeq(es[1..]));
  }

  lemma {:induction false} RangeComplete(g: Graph, e: Expr, min: nat, max: Bound, from: nat)
    requires from < |g| && Parsed(e)
    ensures Covers(CompileRange(g, e, min, max, from), from,
                   RangeLoop(Loop(e), Exit(e), min, max), RangeExit(Loop(e), Exit(e), min, max))
    decreases e, 3, min, if max.AtMost? then max.n else 0
  {
    var l, x := Loop(e), Exit(e);
    var r := CompileRange(g, e, min, max, from);
    if min == 0 && max.Unbounded? {
      LoopComplete(g, e, from);
    } else if min == 0 && max.n == 0 {
      OpenFromLeaves(g, from);
    } else {
      var next := |g|;
      var g0 := NewState(g);
      var g1 := if min > 0 then g0 else AddEdge(g0, from, None, Some(next));
      var copy := Compile(g1, e, from);
      CompileGrows(g1, e, from);
      CompileComplete(g1, e, from);
      var g2 := Patch(copy.graph, copy.open, next);
      PatchBelow(copy.graph, copy.open, next);
      AllPatched(g1, from, copy, x, next);
      AllBelow(copy.graph, g2, from, l, from);
      var min' := if min > 0 then min - 1 else 0;
      RangeGrows(g2, e, min', Lower(max), next);
      GrowsBelow(g2, next, r);
      RangeComplete(g2, e, min', Lower(max), next);
      AllBelow(g2, r.graph, from, l, from);
      AllBelow(g2, r.graph, from, x, next);
      if min == 0 {
        GrowsBelow(g1, from, copy);
        StepThere(g0, from, next, r.graph);
      }
      var l', x' := RangeLoop(l, x, min', Lower(max)), RangeExit(l, x, min', Lower(max));
      AllIterate(r.graph, next, l');
      AllLeaves(r, next, Iterate(l'), next, x');
      AllLeaves(r, from, if min > 0 then x else Epsilon() + x, next, RangeFull(l, x, min', Lower(max)));
    }
  }
}
