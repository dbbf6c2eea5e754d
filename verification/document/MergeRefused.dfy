/** Two steps that apply one after the other, and whose merged step is refused. */
module RefusedMerge {
  import opened Options
  import opened ContentExpr
  import opened Document
  import opened Resolved
  import opened Replace
  import opened Splice
  import opened Normal
  import opened Joins
  import opened ReplaceStep
  import opened Undo
  import opened Schemas
  import opened Joining
  import opened Merges

  // ----- steps that only delete -----

  function Nothing(): Slice {
    Slice([], 0, 0)
  }

  /** Deleting from an element into another joins the second to the first; no more is asked of a valid outcome. */
  lemma {:induction false} DeletionIff(rules: Rules, doc: Node, from: nat, end: nat, doc': Node, a: Markup, b: Markup)
    requires StepOk(ReplaceStep(from, end, Nothing()), doc) && NodeNormal(doc)
    requires Path(Resolve(doc, from)) == [a] && Path(Resolve(doc, end)) == [b]
    requires doc'.Elem? && NodeNormal(doc') && doc'.markup == doc.markup && AllValid(rules, doc')
    requires Splices(Tokens(doc.content), from, end, [], Tokens(doc'.content))
    ensures Apply(rules, doc, ReplaceStep(from, end, Nothing())).Done? <==> Compatible(rules, b.nodeType, a.nodeType)
    ensures Compatible(rules, b.nodeType, a.nodeType) ==>
      Apply(rules, doc, ReplaceStep(from, end, Nothing())) == Done(doc')
  {
    var step := ReplaceStep(from, end, Nothing());
    assert |Path(Resolve(doc, from))| == 1 && |Path(Resolve(doc, end))| == 1;
    ReplaceSucceedsIff(rules, doc, from, end, step.slice);
    ClosedSlicePaths([a], step.slice);
    DeletionJoins(rules, a, b);
    assert SliceTokens(step.slice) == [];
    OutcomeFromTokens(Lenient(), doc, step, doc');
    ValidOutcome(rules, doc, from, end, step.slice, doc');
  }

  lemma {:induction false} DeletionJoins(rules: Rules, a: Markup, b: Markup)
    ensures JoinsOk(rules, [a], [b], Nothing()) <==> Compatible(rules, b.nodeType, a.nodeType)
  {
    ClosedSlicePaths([a], Nothing());
    PathsSame(rules, [a]);
    assert PathsCompatible(rules, [a], [b]) <==> Compatible(rules, [b][0].nodeType, [a][0].nodeType);
  }

  // ----- the documents -----

  function Leaves(ts: seq<NodeType>): (f: Fragment)
    ensures |f| == |ts| && forall i | 0 <= i < |ts| :: f[i] == Leaf(Plain(ts[i]))
  {
    seq(|ts|, i requires 0 <= i < |ts| => Leaf(Plain(ts[i])))
  }

  ghost function LeafTokens(ts: seq<NodeType>): (t: seq<Token>)
    ensures |t| == |ts| && forall i | 0 <= i < |ts| :: t[i] == LeafToken(Plain(ts[i]))
  {
    seq(|ts|, i requires 0 <= i < |ts| => LeafToken(Plain(ts[i])))
  }

  lemma {:induction false} LeavesAre(ts: seq<NodeType>)
    ensures Tokens(Leaves(ts)) == LeafTokens(ts)
    decreases |ts|
  {
    if ts != [] {
      assert Leaves(ts)[1..] == Leaves(ts[1..]);
      assert LeafTokens(ts) == [LeafToken(Plain(ts[0]))] + LeafTokens(ts[1..]);
      LeavesAre(ts[1..]);
    }
  }

  /** An element of type `t` that holds leaves. */
  function Holding(t: NodeType, ts: seq<NodeType>): Node {
    Elem(Plain(t), Leaves(ts))
  }

  lemma {:induction false} HoldingTokens(t: NodeType, ts: seq<NodeType>)
    ensures NodeTokens(Holding(t, ts)) == [Open(Plain(t))] + LeafTokens(ts) + [Close]
    ensures NodeNormal(Holding(t, ts)) && NodeOk(Holding(t, ts))
  {
    LeavesAre(ts);
    NoTexts(Plain(t), Leaves(ts));
  }

  lemma {:induction false} HoldingValid(t: NodeType, ts: seq<NodeType>)
    requires AcceptsAt(Chain(t), 0, ts)
    ensures AllValid(RulesOf(Chain), Holding(t, ts))
  {
    assert Types(Markups(Leaves(ts))) == ts;
    LeavesValid(t, Leaves(ts), ts);
  }

  function Apart(): Node {
    Elem(Plain(TOP), [Holding(A, [X]), Holding(C, [Z]), Holding(B, [Y])])
  }

  function HalfJoined(): Node {
    Elem(Plain(TOP), [Holding(A, [X]), Holding(C, [Z, Y])])
  }

  function AllJoined(): Node {
    Elem(Plain(TOP), [Holding(A, [X, Y])])
  }

  lemma {:induction false} DocumentTokens()
    ensures Tokens(Apart().content) ==
            [Open(Plain(A)), LeafToken(Plain(X)), Close, Open(Plain(C)), LeafToken(Plain(Z)), Close,
             Open(Plain(B)), LeafToken(Plain(Y)), Close]
    ensures Tokens(HalfJoined().content) ==
            [Open(Plain(A)), LeafToken(Plain(X)), Close, Open(Plain(C)), LeafToken(Plain(Z)), LeafToken(Plain(Y)),
             Close]
    ensures Tokens(AllJoined().content) == [Open(Plain(A)), LeafToken(Plain(X)), LeafToken(Plain(Y)), Close]
  {
    var a, b, c := Holding(A, [X]), Holding(B, [Y]), Holding(C, [Z]);
    HoldingTokens(A, [X]);
    HoldingTokens(B, [Y]);
    HoldingTokens(C, [Z]);
    HoldingTokens(C, [Z, Y]);
    HoldingTokens(A, [X, Y]);
    assert [a, c, b] == [a] + ([c] + [b]);
    assert [a, Holding(C, [Z, Y])] == [a] + [Holding(C, [Z, Y])];
    TokensAppend([a], [c] + [b]);
    TokensAppend([c], [b]);
    TokensAppend([a], [Holding(C, [Z, Y])]);
    TokensOne(a);
    TokensOne(b);
    TokensOne(c);
    TokensOne(Holding(C, [Z, Y]));
    TokensOne(Holding(A, [X, Y]));
  }

  lemma {:induction false} DocumentsNormal()
    ensures NodeNormal(Apart()) && NodeOk(Apart())
    ensures NodeNormal(HalfJoined()) && NodeOk(HalfJoined())
    ensures NodeNormal(AllJoined()) && NodeOk(AllJoined())
  {
    HoldingTokens(A, [X]);
    HoldingTokens(B, [Y]);
    HoldingTokens(C, [Z]);
    HoldingTokens(C, [Z, Y]);
    HoldingTokens(A, [X, Y]);
    NoTexts(Plain(TOP), Apart().content);
    NoTexts(Plain(TOP), HalfJoined().content);
    NoTexts(Plain(TOP), AllJoined().content);
  }

  lemma {:induction false} DocumentsValid()
    ensures AllValid(RulesOf(Chain), Apart())
    ensures AllValid(RulesOf(Chain), HalfJoined())
    ensures AllValid(RulesOf(Chain), AllJoined())
  {
    AcceptedInside();
    AcceptedInTop();
    AcceptsC(Chain(C), [Z]);
    AcceptsC(Chain(C), [Z, Y]);
    assert [Z][1..] == [] && [Z, Y][1..] == [Y];
    HoldingValid(A, [X]);
    HoldingValid(C, [Z]);
    HoldingValid(B, [Y]);
    HoldingValid(C, [Z, Y]);
    HoldingValid(A, [X, Y]);
    TopHolds(Apart().content, [A, C, B]);
    TopHolds(HalfJoined().content, [A, C]);
    TopHolds(AllJoined().content, [A]);
  }

  lemma {:induction false} TopHolds(f: Fragment, w: seq<NodeType>)
    requires |f| == |w| && forall i | 0 <= i < |f| :: f[i].markup == Plain(w[i])
    requires AcceptsAt(Chain(TOP), 0, w) && ChildrenValid(RulesOf(Chain), f)
    ensures AllValid(RulesOf(Chain), Elem(Plain(TOP), f))
  {
    assert Types(Markups(f)) == w;
    TopValid(f, w);
  }

  // ----- the elements around the ends -----

  /** Behind the first leaf of an element, and behind the element. */
  lemma {:induction false} InElement(t: seq<Token>, i: nat, m: Markup)
    requires i + 2 < |t| && StackAfter([], t[..i]) == [] && t[i] == Open(m) && t[i + 1].LeafToken?
    ensures StackAfter([], t[..i + 2]) == [m]
    ensures t[i + 2] == Close ==> StackAfter([], t[..i + 3]) == []
  {
    assert t[..i + 2] == t[..i] + ([t[i]] + [t[i + 1]]);
    StackAppend([], t[..i], [t[i]] + [t[i + 1]]);
    StackAppend([], [t[i]], [t[i + 1]]);
    StackOne([], t[i]);
    StackOne([m], t[i + 1]);
    assert t[..i + 3] == t[..i + 2] + [t[i + 2]];
    StackAppend([], t[..i + 2], [t[i + 2]]);
    StackOne([m], t[i + 2]);
  }

  lemma {:induction false} TwoElementStacks(t: seq<Token>, a: Markup, c: Markup)
    requires |t| > 5 && t[0] == Open(a) && t[1].LeafToken? && t[2] == Close && t[3] == Open(c) && t[4].LeafToken?
    ensures StackAfter([], t[..2]) == [a] && StackAfter([], t[..5]) == [c]
    ensures t[5] == Close ==> StackAfter([], t[..6]) == []
  {
    assert t[..0] == [];
    InElement(t, 0, a);
    InElement(t, 3, c);
  }

  /** In any document with these tokens. */
  lemma {:induction false} TwoElementPaths(doc: Node, t: seq<Token>, a: Markup, c: Markup)
    requires doc.Elem? && NodeOk(doc) && Tokens(doc.content) == t && |t| > 5
    requires t[0] == Open(a) && t[1].LeafToken? && t[2] == Close && t[3] == Open(c) && t[4].LeafToken?
    ensures Document.Size(doc.content) == |t|
    ensures Path(Resolve(doc, 2)) == [a] && Path(Resolve(doc, 5)) == [c]
    ensures t[5] == Close ==> StackAfter([], t[..6]) == []
  {
    TokensSize(doc.content);
    TwoElementStacks(t, a, c);
    PathFromTokens(doc, 2);
    PathFromTokens(doc, 5);
  }

  lemma {:induction false} ThirdElementPath(doc: Node, t: seq<Token>, b: Markup)
    requires doc.Elem? && NodeOk(doc) && Tokens(doc.content) == t && |t| > 6
    requires StackAfter([], t[..6]) == [] && t[6] == Open(b)
    ensures Document.Size(doc.content) == |t| && Path(Resolve(doc, 7)) == [b]
  {
    TokensSize(doc.content);
    InBehind(t, 6, b);
    PathFromTokens(doc, 7);
  }

  lemma {:induction false} InBehind(t: seq<Token>, i: nat, m: Markup)
    requires i < |t| && StackAfter([], t[..i]) == [] && t[i] == Open(m)
    ensures StackAfter([], t[..i + 1]) == [m]
  {
    assert t[..i + 1] == t[..i] + [t[i]];
    StackAppend([], t[..i], [t[i]]);
    StackOne([], t[i]);
  }

  lemma {:induction false} ApartPaths()
    ensures NodeOk(Apart()) && Document.Size(Apart().content) == 9
    ensures Path(Resolve(Apart(), 2)) == [Plain(A)]
    ensures Path(Resolve(Apart(), 5)) == [Plain(C)]
    ensures Path(Resolve(Apart(), 7)) == [Plain(B)]
  {
    DocumentTokens();
    DocumentsNormal();
    ThreeElementPaths(Apart(), Tokens(Apart().content), Plain(A), Plain(C), Plain(B));
  }

  lemma {:induction false} ThreeElementPaths(doc: Node, t: seq<Token>, a: Markup, c: Markup, b: Markup)
    requires doc.Elem? && NodeOk(doc) && Tokens(doc.content) == t && |t| > 6
    requires t[0] == Open(a) && t[1].LeafToken? && t[2] == Close && t[3] == Open(c) && t[4].LeafToken?
    requires t[5] == Close && t[6] == Open(b)
    ensures Document.Size(doc.content) == |t|
    ensures Path(Resolve(doc, 2)) == [a] && Path(Resolve(doc, 5)) == [c] && Path(Resolve(doc, 7)) == [b]
  {
    TwoElementPaths(doc, t, a, c);
    ThirdElementPath(doc, t, b);
  }

  lemma {:induction false} HalfJoinedPaths()
    ensures NodeOk(HalfJoined()) && Document.Size(HalfJoined().content) == 7
    ensures Path(Resolve(HalfJoined(), 2)) == [Plain(A)]
    ensures Path(Resolve(HalfJoined(), 5)) == [Plain(C)]
  {
    DocumentTokens();
    DocumentsNormal();
    TwoElementPaths(HalfJoined(), Tokens(HalfJoined().content), Plain(A), Plain(C));
  }

  lemma {:induction false} DocumentsSpliced()
    ensures var x, y, z := Tokens(Apart().content), Tokens(HalfJoined().content), Tokens(AllJoined().content);
      Splices(x, 5, 7, [], y) && Splices(y, 2, 5, [], z) && Splices(x, 2, 7, [], z)
  {
    DocumentTokens();
    Deleted(Tokens(Apart().content), Tokens(HalfJoined().content), Tokens(AllJoined().content));
  }

  /**
   * Joining b to c and then c to a goes through, with a valid document each time; the merged step
   * would have to join b to a, and is refused.
   */
  lemma {:induction false} MergeCanBeRefused()
    ensures var rules := RulesOf(Chain);
      var s, t, m := ReplaceStep(5, 7, Nothing()), ReplaceStep(2, 5, Nothing()), ReplaceStep(2, 7, Nothing());
      && AllValid(rules, Apart()) && AllValid(rules, HalfJoined()) && AllValid(rules, AllJoined())
      && InTurn(rules, Apart(), s, HalfJoined(), t, AllJoined())
      && Merge(s, t) == Some(m) && StepOk(m, Apart()) && !Apply(rules, Apart(), m).Done?
  {
    DocumentsNormal();
    DocumentsValid();
    ChainTypes();
    ApartPaths();
    HalfJoinedPaths();
    DocumentsSpliced();
    JoinedInTurn(RulesOf(Chain), Apart(), HalfJoined(), AllJoined());
  }

  lemma {:induction false} JoinedInTurn(rules: Rules, x: Node, y: Node, z: Node)
    requires x.Elem? && y.Elem? && z.Elem? && x.markup == y.markup == z.markup
    requires NodeNormal(x) && NodeNormal(y) && NodeNormal(z) && NodeOk(x) && NodeOk(y)
    requires AllValid(rules, y) && AllValid(rules, z)
    requires Document.Size(x.content) == 9 && Document.Size(y.content) == 7
    requires Path(Resolve(x, 2)) == Path(Resolve(y, 2)) == [Plain(A)]
    requires Path(Resolve(x, 5)) == Path(Resolve(y, 5)) == [Plain(C)] && Path(Resolve(x, 7)) == [Plain(B)]
    requires Compatible(rules, B, C) && Compatible(rules, C, A) && !Compatible(rules, B, A)
    requires var tx, ty, tz := Tokens(x.content), Tokens(y.content), Tokens(z.content);
      Splices(tx, 5, 7, [], ty) && Splices(ty, 2, 5, [], tz) && Splices(tx, 2, 7, [], tz)
    ensures var s, t, m := ReplaceStep(5, 7, Nothing()), ReplaceStep(2, 5, Nothing()), ReplaceStep(2, 7, Nothing());
      && InTurn(rules, x, s, y, t, z)
      && Merge(s, t) == Some(m) && StepOk(m, x) && !Apply(rules, x, m).Done?
  {
    DeletionIff(rules, x, 5, 7, y, Plain(C), Plain(B));
    DeletionIff(rules, y, 2, 5, z, Plain(A), Plain(C));
    DeletionIff(rules, x, 2, 7, z, Plain(A), Plain(B));
  }

  lemma {:induction false} Deleted<T>(x: seq<T>, y: seq<T>, z: seq<T>)
    requires |x| == 9 && |y| == 7 && |z| == 4
    requires y == [x[0], x[1], x[2], x[3], x[4], x[7], x[8]] && z == [x[0], x[1], x[7], x[8]]
    ensures Splices(x, 5, 7, [], y) && Splices(y, 2, 5, [], z) && Splices(x, 2, 7, [], z)
  {
  }
}
