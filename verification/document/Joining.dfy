/** A step that cannot be undone, in a schema whose content expressions are given. */
module Joining {
  import opened Options
  import opened Languages
  import opened ContentExpr
  import opened Dfa
  import opened Document
  import opened Resolved
  import opened Replace
  import opened Splice
  import opened Normal
  import opened Joins
  import opened ReplaceStep
  import opened Undo
  import opened Schemas

  const A := NodeType("a")
  const B := NodeType("b")
  const C := NodeType("c")
  const X := NodeType("x")
  const Y := NodeType("y")
  const Z := NodeType("z")
  const TOP := NodeType("doc")

  /** One of the first type, then up to one of each other type, in this order. */
  function OneThen(t: NodeType, u: NodeType, v: NodeType): Expr {
    Sequence([Name(t), Opt(Name(u)), Opt(Name(v))])
  }

  /** Content of a can only start with x, of b with y, of c with both: c joins to either, a and b do not join. */
  function ContentOf(t: NodeType): Expr {
    if t == A then OneThen(X, Z, Y)
    else if t == B then Name(Y)
    else if t == C then Sequence([Opt(Name(X)), Opt(Name(Z)), Opt(Name(Y))])
    else OneThen(A, C, B)
  }

  /** The states from which up to one of each type can follow; they come behind the start. */
  function Tail(u: NodeType, v: NodeType): Matcher {
    [MatchState(true, [MatchEdge(u, 2), MatchEdge(v, 3)]), MatchState(true, [MatchEdge(v, 3)]), MatchState(true, [])]
  }

  function Chain(t: NodeType): Matcher {
    if t == A then [MatchState(false, [MatchEdge(X, 1)])] + Tail(Z, Y)
    else if t == B then [MatchState(false, [MatchEdge(Y, 1)]), MatchState(true, [])]
    else if t == C then [MatchState(true, [MatchEdge(X, 1), MatchEdge(Z, 2), MatchEdge(Y, 3)])] + Tail(Z, Y)
    else [MatchState(false, [MatchEdge(A, 1)])] + Tail(C, B)
  }

  lemma {:induction false} Distinct()
    ensures A != B && A != C && B != C && X != Y && X != Z && Y != Z
  {
    assert A.name[0] == 'a' && B.name[0] == 'b' && C.name[0] == 'c';
    assert X.name[0] == 'x' && Y.name[0] == 'y' && Z.name[0] == 'z';
  }

  // ----- the matchers are those of the expressions -----

  lemma {:induction false} InLetter(t: NodeType, rest: Content, w: seq<NodeType>)
    ensures w in Cat(Letter(t), rest) <==> w != [] && w[0] == t && w[1..] in rest
  {
    if w in Cat(Letter(t), rest) {
      var u, v := CatElim(Letter(t), rest, w);
      assert w[1..] == v;
    }
    if w != [] && w[0] == t && w[1..] in rest {
      CatIntro(Letter(t), rest, [t], w[1..]);
      assert [t] + w[1..] == w;
    }
  }

  lemma {:induction false} InOpt(t: NodeType, rest: Content, w: seq<NodeType>)
    ensures w in Cat(Epsilon() + Letter(t), rest) <==> w in rest || (w != [] && w[0] == t && w[1..] in rest)
  {
    if w in Cat(Epsilon() + Letter(t), rest) {
      var u, v := CatElim(Epsilon() + Letter(t), rest, w);
      assert u == [] ==> w == v;
      assert u == [t] ==> w[1..] == v;
    }
    if w in rest {
      CatIntro(Epsilon() + Letter(t), rest, [], w);
      assert [] + w == w;
    }
    if w != [] && w[0] == t && w[1..] in rest {
      CatIntro(Epsilon() + Letter(t), rest, [t], w[1..]);
      assert [t] + w[1..] == w;
    }
  }

  lemma {:induction false} InSequence(es: seq<Expr>, w: seq<NodeType>)
    requires es != []
    ensures w in LangSeq(es) <==> w in Cat(Lang(es[0]), LangSeq(es[1..]))
  {
  }

  lemma {:induction false} OptLang(t: NodeType)
    ensures Lang(Opt(Name(t))) == Epsilon() + Letter(t) && Lang(Name(t)) == Letter(t)
  {
  }

  /** An optional last part. */
  lemma {:induction false} InLastOpt(t: NodeType, w: seq<NodeType>)
    ensures w in LangSeq([Opt(Name(t))]) <==> w == [] || w == [t]
  {
    var es := [Opt(Name(t))];
    InSequence(es, w);
    OptLang(t);
    InOpt(t, LangSeq(es[1..]), w);
    assert es[1..] == [];
    assert w != [] && w[0] == t && w[1..] == [] ==> w == [t];
  }

  /** What can follow, in words. */
  predicate InTail(u: NodeType, v: NodeType, w: seq<NodeType>) {
    w == [] || w == [v] || (w[0] == u && (w[1..] == [] || w[1..] == [v]))
  }

  lemma {:induction false} TailLang(u: NodeType, v: NodeType, w: seq<NodeType>)
    ensures w in LangSeq([Opt(Name(u)), Opt(Name(v))]) <==> InTail(u, v, w)
  {
    var es := [Opt(Name(u)), Opt(Name(v))];
    assert es[1..] == [Opt(Name(v))];
    OptLang(u);
    InSequence(es, w);
    InOpt(u, LangSeq([Opt(Name(v))]), w);
    InLastOpt(v, w);
    if w != [] {
      InLastOpt(v, w[1..]);
    }
  }

  /** From the states behind the start. */
  lemma {:induction false} AcceptsTail(m: Matcher, u: NodeType, v: NodeType, w: seq<NodeType>)
    requires |m| == 4 && m[1..] == Tail(u, v) && u != v
    ensures AcceptsAt(m, 3, w) <==> w == []
    ensures AcceptsAt(m, 2, w) <==> w == [] || w == [v]
    ensures AcceptsAt(m, 1, w) <==> InTail(u, v, w)
  {
    assert forall i | 1 <= i < 4 :: m[i] == m[1..][i - 1];
    AcceptsNext(m, 1, w);
    AcceptsNext(m, 2, w);
    AcceptsNext(m, 3, w);
    if w != [] {
      var r := w[1..];
      TwoEdges(MatchEdge(u, 2), MatchEdge(v, 3), w[0]);
      AcceptsNext(m, 2, r);
      AcceptsNext(m, 3, r);
      assert w == [v] <==> w[0] == v && r == [];
      if r != [] {
        AcceptsNext(m, 3, r[1..]);
        assert r == [v] <==> r[0] == v && r[1..] == [];
      }
    }
  }

  lemma {:induction false} TwoEdges(e: MatchEdge, f: MatchEdge, t: NodeType)
    ensures EdgeFor([e, f], t) == if e.term == t then Some(e.next) else if f.term == t then Some(f.next) else None
    ensures EdgeFor([f], t) == if f.term == t then Some(f.next) else None
  {
    EdgeOrLater(e, [f], t);
    EdgeOrLater(f, [], t);
    assert [e] + [f] == [e, f] && [f] + [] == [f];
  }

  lemma {:induction false} MatchesOneThen(m: Matcher, t: NodeType, u: NodeType, v: NodeType, w: seq<NodeType>)
    requires m == [MatchState(false, [MatchEdge(t, 1)])] + Tail(u, v) && u != v
    ensures MatcherAccepts(m, w) <==> w in Lang(OneThen(t, u, v))
  {
    var es := [Name(t), Opt(Name(u)), Opt(Name(v))];
    var rest := [Opt(Name(u)), Opt(Name(v))];
    assert es[1..] == rest && m[1..] == Tail(u, v);
    OptLang(t);
    InSequence(es, w);
    InLetter(t, LangSeq(rest), w);
    AcceptsNext(m, 0, w);
    if w != [] {
      TailLang(u, v, w[1..]);
      AcceptsTail(m, u, v, w[1..]);
      TwoEdges(MatchEdge(t, 1), MatchEdge(t, 1), w[0]);
    }
  }

  lemma {:induction false} MatchesB(w: seq<NodeType>)
    ensures MatcherAccepts(Chain(B), w) <==> w in Lang(ContentOf(B))
  {
    Distinct();
    OptLang(Y);
    AcceptsNext(Chain(B), 0, w);
    if w != [] {
      AcceptsNext(Chain(B), 1, w[1..]);
      assert w == [Y] <==> w[0] == Y && w[1..] == [];
    }
  }

  lemma {:induction false} ThreeEdges(e: MatchEdge, f: MatchEdge, g: MatchEdge, t: NodeType)
    ensures EdgeFor([e, f, g], t) ==
            if e.term == t then Some(e.next) else if f.term == t then Some(f.next)
            else if g.term == t then Some(g.next) else None
  {
    EdgeOrLater(e, [f, g], t);
    TwoEdges(f, g, t);
    assert [e] + [f, g] == [e, f, g];
  }

  /** An element of type c: perhaps an x, and then as behind the x of an a. */
  predicate InC(w: seq<NodeType>) {
    InTail(Z, Y, w) || (w != [] && w[0] == X && InTail(Z, Y, w[1..]))
  }

  lemma {:induction false} LangC(w: seq<NodeType>)
    ensures w in Lang(ContentOf(C)) <==> InC(w)
  {
    Distinct();
    var es := [Opt(Name(X)), Opt(Name(Z)), Opt(Name(Y))];
    var rest := [Opt(Name(Z)), Opt(Name(Y))];
    assert es[1..] == rest;
    OptLang(X);
    InSequence(es, w);
    InOpt(X, LangSeq(rest), w);
    TailLang(Z, Y, w);
    if w != [] {
      TailLang(Z, Y, w[1..]);
    }
  }

  lemma {:induction false} AcceptsC(m: Matcher, w: seq<NodeType>)
    requires m == Chain(C)
    ensures AcceptsAt(m, 0, w) <==> InC(w)
  {
    Distinct();
    assert m[1..] == Tail(Z, Y);
    AcceptsNext(m, 0, w);
    if w != [] {
      ThreeEdges(MatchEdge(X, 1), MatchEdge(Z, 2), MatchEdge(Y, 3), w[0]);
      AcceptsTail(m, Z, Y, w[1..]);
      assert w == [Y] <==> w[0] == Y && w[1..] == [];
    }
  }

  lemma {:induction false} MatchesC(w: seq<NodeType>)
    ensures MatcherAccepts(Chain(C), w) <==> w in Lang(ContentOf(C))
  {
    LangC(w);
    AcceptsC(Chain(C), w);
  }

  lemma {:induction false} TopIs()
    ensures TOP != A && TOP != B && TOP != C
  {
    assert TOP.name[0] == 'd' && A.name[0] == 'a' && B.name[0] == 'b' && C.name[0] == 'c';
  }

  /** The schema's matchers accept what its content expressions mean. */
  lemma {:induction false} ChainMatches(t: NodeType, w: seq<NodeType>)
    requires t in {A, B, C, TOP}
    ensures MatcherAccepts(Chain(t), w) <==> w in Lang(ContentOf(t))
  {
    Distinct();
    TopIs();
    if t == A {
      MatchesOneThen(Chain(A), X, Z, Y, w);
    } else if t == B {
      MatchesB(w);
    } else if t == C {
      MatchesC(w);
    } else {
      MatchesOneThen(Chain(TOP), A, C, B, w);
    }
  }

  // ----- the step -----

  function Plain(t: NodeType): Markup {
    Markup(t, map[], [])
  }

  /** Two elements of types a and b, holding an x and a y. */
  function TwoElements(): Node {
    Elem(Plain(TOP), [Elem(Plain(A), [Leaf(Plain(X))]), Elem(Plain(B), [Leaf(Plain(Y))])])
  }

  /** Joins the two through an element of type c that is open on both sides. */
  function JoiningStep(): ReplaceStep {
    ReplaceStep(2, 4, Slice([Elem(Plain(C), [Leaf(Plain(Z))])], 1, 1))
  }

  /** What comes of it: all in one element of type a. */
  function OneElement(): Node {
    Elem(Plain(TOP), [Elem(Plain(A), [Leaf(Plain(X)), Leaf(Plain(Z)), Leaf(Plain(Y))])])
  }

  lemma {:induction false} NoTexts(m: Markup, f: Fragment)
    requires forall i | 0 <= i < |f| :: !f[i].Text? && NodeNormal(f[i]) && NodeOk(f[i])
    ensures NodeNormal(Elem(m, f)) && NodeOk(Elem(m, f))
  {
    assert FragmentNormal(f) && FragmentOk(f);
  }

  lemma {:induction false} TwoElementsTokens()
    ensures var doc := TwoElements();
      && NodeNormal(doc) && NodeOk(doc)
      && Tokens(doc.content) == [Open(Plain(A)), LeafToken(Plain(X)), Close, Open(Plain(B)),
        LeafToken(Plain(Y)), Close]
      && Document.Size(doc.content) == 6
  {
    var doc := TwoElements();
    var a, b := doc.content[0], doc.content[1];
    NoTexts(a.markup, a.content);
    NoTexts(b.markup, b.content);
    NoTexts(doc.markup, doc.content);
    TokensOne(a.content[0]);
    TokensOne(b.content[0]);
    assert doc.content == [a] + [b];
    TokensAppend([a], [b]);
    TokensOne(a);
    TokensOne(b);
  }

  lemma {:induction false} OneElementTokens()
    ensures NodeNormal(OneElement())
    ensures Tokens(OneElement().content) ==
            [Open(Plain(A)), LeafToken(Plain(X)), LeafToken(Plain(Z)), LeafToken(Plain(Y)), Close]
  {
    var n := OneElement();
    var x, z, y := Leaf(Plain(X)), Leaf(Plain(Z)), Leaf(Plain(Y));
    NoTexts(Plain(A), n.content[0].content);
    NoTexts(n.markup, n.content);
    assert n.content[0].content == [x] + ([z] + [y]);
    TokensAppend([x], [z] + [y]);
    TokensAppend([z], [y]);
    TokensOne(x);
    TokensOne(z);
    TokensOne(y);
    TokensOne(n.content[0]);
  }

  /** An element with a leaf in it, open on both sides. */
  lemma {:induction false} OpenElement(s: Slice, c: Markup, z: Markup)
    requires s == Slice([Elem(c, [Leaf(z)])], 1, 1)
    ensures SliceOk(s) && FragmentNormal(s.content) && SliceTokens(s) == [LeafToken(z)]
    ensures LeftPath(s.content, 1) == [c] && RightPath(s.content, 1) == [c]
  {
    var n := Elem(c, [Leaf(z)]);
    assert s.content == [n] && s.content[0] == n;
    TokensOne(n);
    TokensOne(Leaf(z));
    assert Tokens(s.content) == [Open(c)] + [LeafToken(z)] + [Close] && Document.Size(s.content) == 3;
    assert OpensLeft(n.content, 0) && OpensRight(n.content, 0);
    assert LeftPath(n.content, 0) == [] && RightPath(n.content, 0) == [];
    assert FragmentNormal(n.content) && NodeNormal(n);
    FragmentNormalOk(s.content);
    assert OpensLeft(s.content, 1) && OpensRight(s.content, 1);
  }

  lemma {:induction false} JoiningSlice(s: Slice)
    requires s == JoiningStep().slice
    ensures SliceOk(s) && FragmentNormal(s.content) && SliceTokens(s) == [LeafToken(Plain(Z))]
    ensures LeftPath(s.content, 1) == [Plain(C)] && RightPath(s.content, 1) == [Plain(C)]
  {
    OpenElement(s, Plain(C), Plain(Z));
  }

  /** The elements around the places that matter, before the step and after it. */
  lemma {:induction false} JoiningPaths(t: seq<Token>)
    requires t == [Open(Plain(A)), LeafToken(Plain(X)), Close, Open(Plain(B)), LeafToken(Plain(Y)), Close]
    ensures StackAfter([], t[..2]) == [Plain(A)]
    ensures StackAfter([], t[..4]) == [Plain(B)]
    ensures StackAfter([], t[..2] + [LeafToken(Plain(Z))]) == [Plain(A)]
  {
    assert t[..2] == [t[0]] + [t[1]];
    StackAppend([], [t[0]], [t[1]]);
    StackOne([], t[0]);
    StackOne([Plain(A)], t[1]);
    assert t[..4] == t[..2] + ([t[2]] + [t[3]]);
    StackAppend([], t[..2], [t[2]] + [t[3]]);
    StackAppend([Plain(A)], [t[2]], [t[3]]);
    StackOne([Plain(A)], t[2]);
    StackOne([], t[3]);
    StackAppend([], t[..2], [LeafToken(Plain(Z))]);
    StackOne([Plain(A)], LeafToken(Plain(Z)));
  }

  // ----- what is valid, and what joins -----

  lemma {:induction false} ChainTypes()
    ensures Compatible(RulesOf(Chain), C, A)
    ensures !Compatible(RulesOf(Chain), B, A)
    ensures Compatible(RulesOf(Chain), B, C)
    ensures !Compatible(RulesOf(Chain), A, B)
  {
    Distinct();
    var rules := RulesOf(Chain);
    assert MatchEdge(X, 1) in Chain(C)[0].next && MatchEdge(X, 1) in Chain(A)[0].next;
    assert MatchEdge(Y, 3) in Chain(C)[0].next && MatchEdge(Y, 1) in Chain(B)[0].next;
    assert X in rules.first(C) * rules.first(A);
    assert Y in rules.first(B) * rules.first(C);
    assert rules.first(A) == {X} && rules.first(B) == {Y};
  }

  lemma {:induction false} LeavesValid(t: NodeType, f: Fragment, w: seq<NodeType>)
    requires Types(Markups(f)) == w && AcceptsAt(Chain(t), 0, w) && forall i | 0 <= i < |f| :: f[i].Leaf?
    ensures AllValid(RulesOf(Chain), Elem(Plain(t), f))
  {
    assert RulesOf(Chain).valid(t, Markups(f)) by {
      assert MatcherAccepts(Chain(t), Types(Markups(f)));
    }
  }

  lemma {:induction false} TopValid(f: Fragment, w: seq<NodeType>)
    requires Types(Markups(f)) == w && AcceptsAt(Chain(TOP), 0, w) && ChildrenValid(RulesOf(Chain), f)
    ensures AllValid(RulesOf(Chain), Elem(Plain(TOP), f))
  {
    assert RulesOf(Chain).valid(TOP, Markups(f)) by {
      assert MatcherAccepts(Chain(TOP), Types(Markups(f)));
    }
  }

  lemma {:induction false} AcceptedOneThen(m: Matcher, t: NodeType, u: NodeType, v: NodeType)
    requires m == [MatchState(false, [MatchEdge(t, 1)])] + Tail(u, v) && u != v
    ensures AcceptsAt(m, 0, [t]) && AcceptsAt(m, 0, [t, u]) && AcceptsAt(m, 0, [t, v]) && AcceptsAt(m, 0, [t, u, v])
  {
    assert m[1..] == Tail(u, v);
    TwoEdges(MatchEdge(t, 1), MatchEdge(t, 1), t);
    AcceptedAfter(m, t, [], u, v);
    AcceptedAfter(m, t, [u], u, v);
    AcceptedAfter(m, t, [v], u, v);
    AcceptedAfter(m, t, [u, v], u, v);
    assert [t] + [] == [t] && [t] + [u] == [t, u] && [t] + [v] == [t, v] && [t] + [u, v] == [t, u, v];
  }

  lemma {:induction false} AcceptedAfter(m: Matcher, t: NodeType, w: seq<NodeType>, u: NodeType, v: NodeType)
    requires |m| == 4 && m[1..] == Tail(u, v) && u != v && m[0].next == [MatchEdge(t, 1)]
    requires w == [] || w == [u] || w == [v] || w == [u, v]
    ensures AcceptsAt(m, 0, [t] + w)
  {
    assert ([t] + w)[1..] == w;
    AcceptsNext(m, 0, [t] + w);
    TwoEdges(MatchEdge(t, 1), MatchEdge(t, 1), t);
    AcceptsTail(m, u, v, w);
    assert w == [u] ==> w[1..] == [];
    assert w == [u, v] ==> w[1..] == [v];
  }

  lemma {:induction false} AcceptedInTop()
    ensures AcceptsAt(Chain(TOP), 0, [A]) && AcceptsAt(Chain(TOP), 0, [A, B])
    ensures AcceptsAt(Chain(TOP), 0, [A, C]) && AcceptsAt(Chain(TOP), 0, [A, C, B])
  {
    TopIs();
    Distinct();
    AcceptedOneThen(Chain(TOP), A, C, B);
  }

  lemma {:induction false} AcceptedInside()
    ensures AcceptsAt(Chain(A), 0, [X]) && AcceptsAt(Chain(A), 0, [X, Z, Y]) && AcceptsAt(Chain(A), 0, [X, Y])
    ensures AcceptsAt(Chain(B), 0, [Y])
  {
    Distinct();
    AcceptedOneThen(Chain(A), X, Z, Y);
    MatchesB([Y]);
    OptLang(Y);
  }

  lemma {:induction false} ValidBefore()
    ensures AllValid(RulesOf(Chain), TwoElements())
  {
    var f, g := [Leaf(Plain(X))], [Leaf(Plain(Y))];
    AcceptedInside();
    AcceptedInTop();
    assert Types(Markups(f)) == [X] && Types(Markups(g)) == [Y];
    LeavesValid(A, f, [X]);
    LeavesValid(B, g, [Y]);
    var both := [Elem(Plain(A), f), Elem(Plain(B), g)];
    assert Types(Markups(both)) == [A, B];
    TopValid(both, [A, B]);
  }

  lemma {:induction false} ValidAfter()
    ensures AllValid(RulesOf(Chain), OneElement())
  {
    var f := [Leaf(Plain(X)), Leaf(Plain(Z)), Leaf(Plain(Y))];
    AcceptedInside();
    AcceptedInTop();
    assert Types(Markups(f)) == [X, Z, Y];
    LeavesValid(A, f, [X, Z, Y]);
    var one := [Elem(Plain(A), f)];
    assert Types(Markups(one)) == [A];
    TopValid(one, [A]);
  }

  lemma {:induction false} SingleJoins(rules: Rules, a: Pos, b: Pos, slice: Slice, m: Markup, n: Markup, c: Markup)
    requires SliceOk(slice) && slice.openStart == slice.openEnd == 1
    requires Path(a) == [m] && Path(b) == [n]
    requires LeftPath(slice.content, 1) == [c] && RightPath(slice.content, 1) == [c]
    requires Compatible(rules, c.nodeType, m.nodeType) && Compatible(rules, n.nodeType, c.nodeType)
    ensures |Path(a)| == 1 && Depth(a) == 1 && JoinsOk(rules, Path(a), Path(b), slice)
  {
    assert |Path(a)| == 1;
    assert StartPath(Path(a), slice) == [] + [c] && EndPath(Path(a), slice) == [] + [c];
  }

  /** A step from one element into the next goes through if the slice's joins with both, and all is valid then. */
  lemma {:induction false} StepGoes(rules: Rules, doc: Node, step: ReplaceStep, doc': Node, a: Markup, b: Markup,
          c: Markup)
    requires StepOk(step, doc) && Path(Resolve(doc, step.from)) == [a] && Path(Resolve(doc, step.end)) == [b]
    requires step.slice.openStart == step.slice.openEnd == 1
    requires LeftPath(step.slice.content, 1) == [c] && RightPath(step.slice.content, 1) == [c]
    requires Compatible(rules, c.nodeType, a.nodeType) && Compatible(rules, b.nodeType, c.nodeType)
    requires Apply(Lenient(), doc, step).Done? ==> Apply(Lenient(), doc, step) == Done(doc')
    requires AllValid(rules, doc')
    ensures Apply(rules, doc, step) == Done(doc')
  {
    var p, q := Resolve(doc, step.from), Resolve(doc, step.end);
    SingleJoins(rules, p, q, step.slice, a, b, c);
    assert |Path(q)| == 1;
    ReplaceSucceedsIff(rules, doc, step.from, step.end, step.slice);
    ValidOutcome(rules, doc, step.from, step.end, step.slice, doc');
  }

  /** The step goes as said, for any documents with these tokens. */
  lemma {:induction false} JoiningApplies(doc: Node, step: ReplaceStep, doc': Node, t: seq<Token>)
    requires t == [Open(Plain(A)), LeafToken(Plain(X)), Close, Open(Plain(B)), LeafToken(Plain(Y)), Close]
    requires StepOk(step, doc) && step.from == 2 && step.end == 4 && NodeNormal(doc) && Tokens(doc.content) == t
    requires step.slice.openStart == step.slice.openEnd == 1 && FragmentNormal(step.slice.content)
    requires SliceTokens(step.slice) == [LeafToken(Plain(Z))]
    requires LeftPath(step.slice.content, 1) == [Plain(C)] && RightPath(step.slice.content, 1) == [Plain(C)]
    requires doc'.Elem? && doc'.markup == doc.markup && NodeNormal(doc') && AllValid(RulesOf(Chain), doc')
    requires Tokens(doc'.content) == [t[0], t[1], LeafToken(Plain(Z)), t[4], t[5]]
    ensures Apply(RulesOf(Chain), doc, step) == Done(doc')
    ensures Path(Resolve(doc, 2)) == [Plain(A)] && Path(Resolve(doc, 4)) == [Plain(B)]
  {
    JoiningPaths(t);
    PathFromTokens(doc, 2);
    PathFromTokens(doc, 4);
    if Apply(Lenient(), doc, step).Done? {
      JoiningOutcome(doc, step, doc', t, LeafToken(Plain(Z)));
    }
    ChainTypes();
    StepGoes(RulesOf(Chain), doc, step, doc', Plain(A), Plain(B), Plain(C));
  }

  lemma {:induction false} SplicedOne(t: seq<Token>, z: Token)
    requires |t| == 6
    ensures t[..2] + [z] + t[4..] == [t[0], t[1], z, t[4], t[5]]
  {
  }

  lemma {:induction false} JoiningOutcome(doc: Node, step: ReplaceStep, doc': Node, t: seq<Token>, z: Token)
    requires StepOk(step, doc) && step.from == 2 && step.end == 4 && Apply(Lenient(), doc, step).Done?
    requires NodeNormal(doc) && FragmentNormal(step.slice.content) && NodeNormal(doc')
    requires doc'.Elem? && doc'.markup == doc.markup && |t| == 6
    requires Tokens(doc.content) == t && SliceTokens(step.slice) == [z]
    requires Tokens(doc'.content) == [t[0], t[1], z, t[4], t[5]]
    ensures Apply(Lenient(), doc, step) == Done(doc')
  {
    SplicedOne(t, z);
    OutcomeFromTokens(Lenient(), doc, step, doc');
  }

  /** Around the end of the new content there is an element of type a now. */
  lemma {:induction false} NowInA()
    ensures NodeOk(OneElement()) && Document.Size(OneElement().content) == 5
    ensures Path(Resolve(OneElement(), 3)) == [Plain(A)]
  {
    var doc := OneElement();
    OneElementTokens();
    NormalOk(doc);
    TokensSize(doc.content);
    TwoElementsTokens();
    var t := Tokens(TwoElements().content);
    JoiningPaths(t);
    assert Tokens(doc.content)[..3] == t[..2] + [LeafToken(Plain(Z))];
    PathFromTokens(doc, 3);
  }

  /** The condition is needed: this step takes a valid document to a valid one, and its inverse is refused. */
  lemma {:induction false} JoiningCannotBeUndone()
    ensures var rules, doc, step, doc' := RulesOf(Chain), TwoElements(), JoiningStep(), OneElement();
      && AllValid(rules, doc) && AllValid(rules, doc')
      && StepOk(step, doc) && Apply(rules, doc, step) == Done(doc')
      && StepOk(Inverse(step, doc), doc') && !Apply(rules, doc', Inverse(step, doc)).Done?
  {
    ValidBefore();
    ValidAfter();
    TwoElementsTokens();
    OneElementTokens();
    JoiningSlice(JoiningStep().slice);
    JoiningApplies(TwoElements(), JoiningStep(), OneElement(), Tokens(TwoElements().content));
    ChainTypes();
    NowInA();
    Refused(RulesOf(Chain), TwoElements(), JoiningStep(), OneElement());
  }

  /** It is the joined types that refuse the inverse. */
  lemma {:induction false} Refused(rules: Rules, doc: Node, step: ReplaceStep, doc': Node)
    requires StepOk(step, doc) && NodeNormal(doc) && FragmentNormal(step.slice.content) && AllValid(rules, doc)
    requires Apply(rules, doc, step) == Done(doc') && NodeOk(doc') && step.slice.Size() == 1 && step.from == 2
    requires doc'.Elem? && Document.Size(doc'.content) == 5
    requires step.end == 4 && Path(Resolve(doc, 4)) == [Plain(B)] && Path(Resolve(doc', 3)) == [Plain(A)]
    requires !Compatible(rules, A, B)
    ensures StepOk(Inverse(step, doc), doc') && !Apply(rules, doc', Inverse(step, doc)).Done?
  {
    UndoInValid(rules, doc, step);
    UndoRestores(rules, doc, step);
    var q, now := Path(Resolve(doc, 4)), Path(Resolve(doc', 3));
    assert !Compatible(rules, now[0].nodeType, q[0].nodeType);
    assert !PathsCompatible(rules, q, now);
  }
}
