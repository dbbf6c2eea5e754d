/**
 * Soundness of the compiler: every word on a walk to the accepting state is in Full(e).
 * Each state gets a language that every edge out of it respects; the languages are chosen
 * on the way down the expression, so no walk has to be taken apart.
 */
module NfaSound {
  import opened Options
  import opened Languages
  import opened ContentExpr
  import opened Nfa
  import opened NfaShape

  /** Edge `edge` of a state labelled `src` leads into its target's language, or into `k` if open. */
  ghost predicate Respects(edge: Edge, src: Content, langs: seq<Content>, k: Content) {
    var dst := match edge.to
               case None => k
               case Some(q) => if q < |langs| then langs[q] else k;
    match edge.term
    case None => dst <= src
    case Some(t) => Cat(Letter(t), dst) <= src
  }

  ghost predicate Labelled(g: Graph, from: nat, h: Graph, langs: seq<Content>, k: Content) {
    && |langs| == |h|
    && forall p: nat, i: nat | IsEdge(h, p, i) && Fresh(g, from, p, i) ::
         Respects(h[p][i], langs[p], langs, k)
  }

  lemma {:induction false} LabelledThen(g: Graph, from: nat, r1: Compiled, langs1: seq<Content>, k1: Content,
          from2: nat, r2: Compiled, langs2: seq<Content>, k2: Content)
    requires Grows(g, from, r1) && Grows(r1.graph, from2, r2)
    requires from2 == from || from2 >= |g|
    requires langs1 <= langs2
    requires Labelled(g, from, r1.graph, langs1, k1) && Labelled(r1.graph, from2, r2.graph, langs2, k2)
    requires r1.open == [] || k1 == k2
    ensures Labelled(g, from, r2.graph, langs2, k2)
  {
    forall p: nat, i: nat | IsEdge(r2.graph, p, i) && Fresh(g, from, p, i)
      ensures Respects(r2.graph[p][i], langs2[p], langs2, k2)
    {
      if !Fresh(r1.graph, from2, p, i) {
        assert IsEdge(r1.graph, p, i) && r1.graph[p][i] == r2.graph[p][i];
        assert Respects(r1.graph[p][i], langs1[p], langs1, k1);
      }
    }
  }

  lemma {:induction false} LabelledPatch(g: Graph, from: nat, r: Compiled, langs: seq<Content>, to: nat, k: Content)
    requires Grows(g, from, r) && to < |r.graph|
    requires |langs| == |r.graph| && Labelled(g, from, r.graph, langs, langs[to])
    ensures Labelled(g, from, Patch(r.graph, r.open, to), langs, k)
  {
    var h := Patch(r.graph, r.open, to);
    forall p: nat, i: nat | IsEdge(h, p, i) && Fresh(g, from, p, i)
      ensures Respects(h[p][i], langs[p], langs, k)
    {
      assert IsEdge(r.graph, p, i);
      assert Respects(r.graph[p][i], langs[p], langs, langs[to]);
    }
  }

  lemma {:induction false} LabelledState(g: Graph, from: nat, langs: seq<Content>, c: Content, k: Content)
    requires from < |g| && |langs| == |g|
    ensures Labelled(g, from, NewState(g), langs + [c], k)
  {
    assert forall p: nat, i: nat | IsEdge(NewState(g), p, i) :: p < |g| && !Fresh(g, from, p, i);
  }

  lemma {:induction false} LabelledEdge(g: Graph, from: nat, term: Option<NodeType>, to: Option<nat>,
          langs: seq<Content>, k: Content)
    requires from < |g| && |langs| == |g|
    requires Respects(Edge(term, to), langs[from], langs, k)
    ensures Labelled(g, from, AddEdge(g, from, term, to), langs, k)
  {
  }

  // ----- the inclusions the labels need -----

  lemma {:induction false} EpsilonOrCat(x: Content, b: Content, k: Content, s: Content)
    requires Cat(Epsilon() + x, b) <= s
    ensures b <= s && Cat(x, b) <= s
  {
    CatUnion(Epsilon(), x, b);
    CatEpsilon(b);
  }

  /** The language of a fresh state: loops `l` and exits `x`, before `k`. */
  lemma {:induction false} FreshLabel(l: Content, x: Content, k: Content)
    ensures var c := Cat(Cat(Iterate(l), x), k); Cat(x, k) <= c && Cat(l, c) <= c
  {
    var it := Iterate(l);
    var c := Cat(Cat(it, x), k);
    CatAssoc(it, x, k);
    IterateNil(l);
    forall w | w in Cat(x, k)
      ensures w in c
    {
      CatIntro(it, Cat(x, k), [], w);
      assert [] + w == w;
    }
    IterateCons(l);
    CatMono(Cat(l, it), Cat(x, k), it, Cat(x, k));
    CatAssoc(l, it, Cat(x, k));
  }

  lemma {:induction false} LoopLabel(l: Content, x: Content, k: Content)
    ensures var c := Cat(Iterate(l + x), k); k <= c && Cat(x, c) <= c && Cat(l, c) <= c
  {
    var c := Cat(Iterate(l + x), k);
    FreshLabel(l + x, Epsilon(), k);
    CatEpsilon(Iterate(l + x));
    CatEpsilon(k);
    CatUnion(l, x, c);
  }

  // ----- the compiler -----

  lemma {:induction false} CompileSound(g: Graph, e: Expr, from: nat, langs: seq<Content>, k: Content)
    returns (langs': seq<Content>)
    requires from < |g| == |langs| && Parsed(e)
    requires Cat(Exit(e), k) <= langs[from]
    requires Cat(Loop(e), langs[from]) <= langs[from]
    ensures langs <= langs' && Labelled(g, from, Compile(g, e, from).graph, langs', k)
    decreases e, 1
  {
    match e
    case Choice(es) =>
      forall i | 0 <= i < |es|
        ensures Cat(Exit(es[i]), k) <= langs[from]
        ensures Cat(Loop(es[i]), langs[from]) <= langs[from]
      {
        assert forall w | w in Exit(es[i]) :: InSomeExit(es, w);
        assert forall w | w in Loop(es[i]) :: InSomeLoop(es, w);
        CatMono(Exit(es[i]), k, Exit(e), k);
        CatMono(Loop(es[i]), langs[from], Loop(e), langs[from]);
      }
      langs' := ChoiceSound(g, es, from, langs, k);
    case Sequence(es) => langs' := SeqSound(g, es, from, langs, k);
    case Star(_) => langs' := StarSound(g, e, from, langs, k);
    case Plus(_) => langs' := PlusSound(g, e, from, langs, k);
    case Opt(e1) =>
      EpsilonOrCat(Exit(e1), k, k, langs[from]);
      var skip := OpenFrom(g, from);
      LabelledEdge(g, from, None, None, langs, k);
      GrowsEdge(g, from, None, None);
      langs' := CompileSound(skip.graph, e1, from, langs, k);
      CompileGrows(skip.graph, e1, from);
      LabelledThen(g, from, skip, langs, k, from, Compile(skip.graph, e1, from), langs', k);
    case Range(min, max, e1) => langs' := RangeSound(g, e1, min, max, from, langs, k);
    case Name(t) =>
      langs' := langs;
      LabelledEdge(g, from, Some(t), None, langs, k);
  }

  lemma {:induction false} StarSound(g: Graph, e: Expr, from: nat, langs: seq<Content>, k: Content)
    returns (langs': seq<Content>)
    requires from < |g| == |langs| && Parsed(e) && e.Star?
    requires Cat(Exit(e), k) <= langs[from]
    requires Cat(Loop(e), langs[from]) <= langs[from]
    ensures langs <= langs' && Labelled(g, from, Compile(g, e, from).graph, langs', k)
    decreases e, 0
  {
    var e1 := e.expr;
    var loop := |g|;
    var c := Cat(Iterate(Loop(e1) + Exit(e1)), k);
    LoopLabel(Loop(e1), Exit(e1), k);
    var g0 := NewState(g);
    var g1 := AddEdge(g0, from, None, Some(loop));
    var langs1 := langs + [c];
    LabelledState(g, from, langs, c, k);
    LabelledEdge(g0, from, None, Some(loop), langs1, k);
    GrowsState(g, from);
    GrowsEdge(g0, from, None, Some(loop));
    LabelledThen(g, from, Compiled(g0, []), langs1, k, from, Compiled(g1, []), langs1, k);
    GrowsThen(g, from, Compiled(g0, []), from, Compiled(g1, []));
    langs' := CompileSound(g1, e1, loop, langs1, c);
    LoopSound(g, from, g1, e1, loop, langs1, langs', k);
  }

  lemma {:induction false} PlusSound(g: Graph, e: Expr, from: nat, langs: seq<Content>, k: Content)
    returns (langs': seq<Content>)
    requires from < |g| == |langs| && Parsed(e) && e.Plus?
    requires Cat(Exit(e), k) <= langs[from]
    requires Cat(Loop(e), langs[from]) <= langs[from]
    ensures langs <= langs' && Labelled(g, from, Compile(g, e, from).graph, langs', k)
    decreases e, 0
  {
    var e1 := e.expr;
    var loop := |g|;
    var c := Cat(Iterate(Loop(e1) + Exit(e1)), k);
    LoopLabel(Loop(e1), Exit(e1), k);
    CatAssoc(Exit(e1), Iterate(Loop(e1) + Exit(e1)), k);
    var g0 := NewState(g);
    LabelledState(g, from, langs, c, k);
    GrowsState(g, from);
    var langs1 := CompileSound(g0, e1, from, langs + [c], c);
    var once := Compile(g0, e1, from);
    CompileGrows(g0, e1, from);
    LabelledThen(g, from, Compiled(g0, []), langs + [c], k, from, once, langs1, c);
    GrowsThen(g, from, Compiled(g0, []), from, once);
    var g1 := Patch(once.graph, once.open, loop);
    LabelledPatch(g, from, once, langs1, loop, k);
    GrowsPatch(g, from, once, loop);
    langs' := CompileSound(g1, e1, loop, langs1, c);
    LoopSound(g, from, g1, e1, loop, langs1, langs', k);
  }

  /** Closing a loop on `loop`, whose language takes the body's exits back in and lets `k` out. */
  lemma {:induction false} LoopSound(g: Graph, from: nat, g1: Graph, e: Expr, loop: nat, langs1: seq<Content>,
          langs: seq<Content>, k: Content)
    requires from < |g| && loop < |g1| && (loop == from || |g| <= loop) && Parsed(e)
    requires Grows(g, from, Compiled(g1, []))
    requires langs1 <= langs && Labelled(g, from, g1, langs1, k)
    requires var body := Compile(g1, e, loop);
      |langs| == |body.graph| && k <= langs[loop] && Labelled(g1, loop, body.graph, langs, langs[loop])
    ensures var body := Compile(g1, e, loop);
      Labelled(g, from, OpenFrom(Patch(body.graph, body.open, loop), loop).graph, langs, k)
  {
    var body := Compile(g1, e, loop);
    CompileGrows(g1, e, loop);
    LabelledThen(g, from, Compiled(g1, []), langs1, k, loop, body, langs, langs[loop]);
    GrowsThen(g, from, Compiled(g1, []), loop, body);
    var h := Patch(body.graph, body.open, loop);
    LabelledPatch(g, from, body, langs, loop, k);
    GrowsPatch(g, from, body, loop);
    LabelledEdge(h, loop, None, None, langs, k);
    GrowsEdge(h, loop, None, None);
    LabelledThen(g, from, Compiled(h, []), langs, k, loop, OpenFrom(h, loop), langs, k);
  }

  /** One copy of a range's body, leading from `from` to the new state `|g|`. */
  lemma {:induction false} CopySound(g: Graph, from: nat, g1: Graph, e: Expr, langs: seq<Content>, langs1: seq<Content>,
          k: Content)
    requires from < |g| < |g1| && Parsed(e) && |langs| > |g|
    requires Grows(g, from, Compiled(g1, [])) && Labelled(g, from, g1, langs, k)
    requires langs <= langs1 && Labelled(g1, from, Compile(g1, e, from).graph, langs1, langs[|g|])
    ensures var copy := Compile(g1, e, from);
      var g2 := Patch(copy.graph, copy.open, |g|);
      Labelled(g, from, g2, langs1, k) && Grows(g, from, Compiled(g2, []))
  {
    var copy := Compile(g1, e, from);
    CompileGrows(g1, e, from);
    LabelledThen(g, from, Compiled(g1, []), langs, k, from, copy, langs1, langs[|g|]);
    GrowsThen(g, from, Compiled(g1, []), from, copy);
    LabelledPatch(g, from, copy, langs1, |g|, k);
    GrowsPatch(g, from, copy, |g|);
  }

  lemma {:induction false} ChoiceSound(g: Graph, es: seq<Expr>, from: nat, langs: seq<Content>, k: Content)
    returns (langs': seq<Content>)
    requires from < |g| == |langs| && forall i | 0 <= i < |es| :: Parsed(es[i])
    requires forall i | 0 <= i < |es| :: Cat(Exit(es[i]), k) <= langs[from]
    requires forall i | 0 <= i < |es| :: Cat(Loop(es[i]), langs[from]) <= langs[from]
    ensures langs <= langs' && Labelled(g, from, CompileChoice(g, es, from).graph, langs', k)
    decreases es, 0
  {
    if es == [] {
      langs' := langs;
    } else {
      var first := Compile(g, es[0], from);
      CompileGrows(g, es[0], from);
      var langs1 := CompileSound(g, es[0], from, langs, k);
      langs' := ChoiceSound(first.graph, es[1..], from, langs1, k);
      var rest := CompileChoice(first.graph, es[1..], from);
      ChoiceGrows(first.graph, es[1..], from);
      LabelledThen(g, from, first, langs1, k, from, rest, langs', k);
    }
  }

  /** A call at `from` whose open edges are pointed at a new state labelled `c`. */
  lemma {:induction false} NextSound(g: Graph, from: nat, r: Compiled, langs: seq<Content>, c: Content, k: Content)
    requires from < |g| && Grows(g, from, r)
    requires Labelled(g, from, r.graph, langs, c)
    ensures Labelled(g, from, Patch(NewState(r.graph), r.open, |r.graph|), langs + [c], k)
  {
    LabelledState(r.graph, from, langs, c, c);
    GrowsState(r.graph, from);
    var r' := Compiled(NewState(r.graph), []);
    LabelledThen(g, from, r, langs, c, from, r', langs + [c], c);
    GrowsThen(g, from, r, from, r');
    LabelledPatch(g, from, Compiled(NewState(r.graph), r.open), langs + [c], |r.graph|, k);
  }

  lemma {:induction false} SeqSound(g: Graph, es: seq<Expr>, from: nat, langs: seq<Content>, k: Content)
    returns (langs': seq<Content>)
    requires from < |g| == |langs| && es != [] && forall i | 0 <= i < |es| :: Parsed(es[i])
    requires Cat(Cat(Exit(es[0]), FullSeq(es[1..])), k) <= langs[from]
    requires Cat(Loop(es[0]), langs[from]) <= langs[from]
    ensures langs <= langs' && Labelled(g, from, CompileSeq(g, es, from).graph, langs', k)
    decreases es, 0
  {
    var c := Cat(FullSeq(es[1..]), k);
    CatAssoc(Exit(es[0]), FullSeq(es[1..]), k);
    var first := Compile(g, es[0], from);
    CompileGrows(g, es[0], from);
    var langs1 := CompileSound(g, es[0], from, langs, c);
    if |es| == 1 {
      CatEpsilon(k);
      langs' := langs1;
    } else {
      NextSound(g, from, first, langs1, c, k);
      NextGrows(g, from, first);
      var rest := es[1..];
      var next := |first.graph|;
      var g1 := Patch(NewState(first.graph), first.open, next);
      var tail := FullSeq(rest[1..]);
      CatAssoc(Iterate(Loop(rest[0])), Exit(rest[0]), tail);
      FreshLabel(Loop(rest[0]), Cat(Exit(rest[0]), tail), k);
      langs' := SeqSound(g1, rest, next, langs1 + [c], k);
      SeqGrows(g1, rest, next);
      LabelledThen(g, from, Compiled(g1, []), langs1 + [c], k, next, CompileSeq(g1, rest, next), langs', k);
    }
  }

  lemma {:induction false} RangeSound(g: Graph, e: Expr, min: nat, max: Bound, from: nat, langs: seq<Content>,
          k: Content)
    returns (langs': seq<Content>)
    requires from < |g| == |langs| && Parsed(e)
    requires Cat(RangeExit(Loop(e), Exit(e), min, max), k) <= langs[from]
    requires Cat(RangeLoop(Loop(e), Exit(e), min, max), langs[from]) <= langs[from]
    ensures langs <= langs' && Labelled(g, from, CompileRange(g, e, min, max, from).graph, langs', k)
    decreases e, 2, min, if max.AtMost? then max.n else 0
  {
    var l, x := Loop(e), Exit(e);
    if min == 0 && max.Unbounded? {
      CatEpsilon(k);
      CatUnion(l, x, langs[from]);
      langs' := CompileSound(g, e, from, langs, langs[from]);
      GrowsNothing(g, from);
      LoopSound(g, from, g, e, from, langs, langs', k);
    } else if min == 0 && max.n == 0 {
      CatEpsilon(k);
      LabelledEdge(g, from, None, None, langs, k);
      langs' := langs;
    } else {
      var next := |g|;
      var min' := if min > 0 then min - 1 else 0;
      var full := RangeFull(l, x, min', Lower(max));
      var c := Cat(full, k);
      GrowsState(g, from);
      LabelledState(g, from, langs, c, k);
      var g0 := NewState(g);
      var g1 := if min > 0 then g0 else AddEdge(g0, from, None, Some(next));
      CatAssoc(if min > 0 then x else Epsilon() + x, full, k);
      if min == 0 {
        EpsilonOrCat(x, c, k, langs[from]);
        LabelledEdge(g0, from, None, Some(next), langs + [c], k);
        GrowsEdge(g0, from, None, Some(next));
        LabelledThen(g, from, Compiled(g0, []), langs + [c], k, from, Compiled(g1, []), langs + [c], k);
        GrowsThen(g, from, Compiled(g0, []), from, Compiled(g1, []));
      }
      var langs1 := CompileSound(g1, e, from, langs + [c], c);
      var copy := Compile(g1, e, from);
      CopySound(g, from, g1, e, langs + [c], langs1, k);
      var g2 := Patch(copy.graph, copy.open, next);
      FreshLabel(RangeLoop(l, x, min', Lower(max)), RangeExit(l, x, min', Lower(max)), k);
      langs' := RangeSound(g2, e, min', Lower(max), next, langs1, k);
      RangeGrows(g2, e, min', Lower(max), next);
      LabelledThen(g, from, Compiled(g2, []), langs1, k, next,
                   CompileRange(g2, e, min', Lower(max), next), langs', k);
    }
  }
}
