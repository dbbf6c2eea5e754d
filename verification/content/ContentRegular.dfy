/**
 * When the compiled language is the language meant. An open range `{0,}` loops on its own
 * entry state, which is wrong wherever something else is attached to that state.
 */
module ContentRegular {
  import opened Languages
  import opened ContentExpr

  /** Compiling `e` adds no way back to the entry state. */
  predicate Straight(e: Expr)
  {
    match e
    case Choice(es) => forall i | 0 <= i < |es| :: Straight(es[i])
    case Sequence(es) => es != [] ==> Straight(es[0])
    case Star(_) => true
    case Plus(e1) => Straight(e1)
    case Opt(e1) => Straight(e1)
    case Range(min, max, e1) => (min == 0 && max == AtMost(0)) || (Straight(e1) && !(min == 0 && max.Unbounded?))
    case Name(_) => true
  }

  /** Ranges are not reversed, and no loop sits on an entry state that has other edges. */
  predicate Regular(e: Expr)
  {
    match e
    case Choice(es) => forall i | 0 <= i < |es| :: Straight(es[i]) && Regular(es[i])
    case Sequence(es) => es != [] && forall i | 0 <= i < |es| :: Regular(es[i])
    case Star(e1) => Straight(e1) && Regular(e1)
    case Plus(e1) => Straight(e1) && Regular(e1)
    case Opt(e1) => Straight(e1) && Regular(e1)
    case Range(min, max, e1) =>
      && Regular(e1)
      && (max.AtMost? ==> min <= max.n)
      && (max != AtMost(min) ==> Straight(e1))
    case Name(_) => true
  }

  lemma {:induction false} StraightNoLoop(e: Expr)
    requires Straight(e)
    ensures Loop(e) == Empty()
  {
    match e
    case Choice(es) =>
      forall w | w in Loop(e)
        ensures false
      {
        assert InSomeLoop(es, w);
        var i :| 0 <= i < |es| && w in Loop(es[i]);
        StraightNoLoop(es[i]);
      }
    case Sequence(es) => if es != [] { StraightNoLoop(es[0]); }
    case Star(_) =>
    case Plus(e1) => StraightNoLoop(e1);
    case Opt(e1) => StraightNoLoop(e1);
    case Range(min, max, e1) => if !(min == 0 && max == AtMost(0)) { StraightNoLoop(e1); }
    case Name(_) =>
  }

  lemma {:induction false} NoLoopFull(l: Content, x: Content)
    requires l == Empty()
    ensures Cat(Iterate(l), x) == x
    ensures l + x == x
  {
    IterateOfEmpty<NodeType>();
    CatEpsilon(x);
  }

  lemma {:induction false} StraightExit(e: Expr)
    requires Straight(e)
    ensures Exit(e) == Full(e)
  {
    StraightNoLoop(e);
    NoLoopFull(Loop(e), Exit(e));
  }

  // ----- powers -----

  lemma {:induction false} AtLeastStep(a: Content, n: nat)
    ensures AtLeast(a, n + 1) == Cat(a, AtLeast(a, n))
  {
    forall w | w in AtLeast(a, n + 1)
      ensures w in Cat(a, AtLeast(a, n))
    {
      var k: nat :| n + 1 <= k && w in Power(a, k);
      var u, v := CatElim(a, Power(a, k - 1), w);
      assert InSomePower(a, n, v);
      CatIntro(a, AtLeast(a, n), u, v);
    }
    forall w | w in Cat(a, AtLeast(a, n))
      ensures w in AtLeast(a, n + 1)
    {
      var u, v := CatElim(a, AtLeast(a, n), w);
      var k: nat :| n <= k && v in Power(a, k);
      CatIntro(a, Power(a, k), u, v);
      assert w in Power(a, k + 1);
    }
  }

  lemma {:induction false} BetweenStep(a: Content, lo: nat, hi: nat)
    ensures Between(a, lo + 1, hi + 1) == Cat(a, Between(a, lo, hi))
  {
    forall w | w in Between(a, lo + 1, hi + 1)
      ensures w in Cat(a, Between(a, lo, hi))
    {
      var k: nat :| lo + 1 <= k <= hi + 1 && w in Power(a, k);
      var u, v := CatElim(a, Power(a, k - 1), w);
      assert InPowerBetween(a, lo, hi, v);
      CatIntro(a, Between(a, lo, hi), u, v);
    }
    forall w | w in Cat(a, Between(a, lo, hi))
      ensures w in Between(a, lo + 1, hi + 1)
    {
      var u, v := CatElim(a, Between(a, lo, hi), w);
      var k: nat :| lo <= k <= hi && v in Power(a, k);
      CatIntro(a, Power(a, k), u, v);
      assert w in Power(a, k + 1);
    }
  }

  lemma {:induction false} BetweenOptional(a: Content, hi: nat)
    requires hi > 0
    ensures Between(a, 0, hi) == Cat(Epsilon() + a, Between(a, 0, hi - 1))
  {
    var b := Between(a, 0, hi - 1);
    forall w | w in Between(a, 0, hi)
      ensures w in Cat(Epsilon() + a, b)
    {
      var k: nat :| k <= hi && w in Power(a, k);
      if k == 0 {
        assert InPowerBetween(a, 0, hi - 1, w);
        CatIntro(Epsilon() + a, b, [], w);
      } else {
        var u, v := CatElim(a, Power(a, k - 1), w);
        assert InPowerBetween(a, 0, hi - 1, v);
        CatIntro(Epsilon() + a, b, u, v);
      }
    }
    forall w | w in Cat(Epsilon() + a, b)
      ensures w in Between(a, 0, hi)
    {
      var u, v := CatElim(Epsilon() + a, b, w);
      var k: nat :| k <= hi - 1 && v in Power(a, k);
      if u in a {
        CatIntro(a, Power(a, k), u, v);
        assert w in Power(a, k + 1);
      } else {
        assert w == v;
      }
    }
  }

  lemma {:induction false} BetweenNone(a: Content)
    ensures Between(a, 0, 0) == Epsilon()
  {
    assert Power(a, 0) == Epsilon();
  }

  ghost function Copies(f: Content, min: nat, max: Bound): Content {
    match max
    case Unbounded => AtLeast(f, min)
    case AtMost(n) => Between(f, min, n)
  }

  lemma {:induction false} RequiredCopy(l: Content, x: Content, min: nat, max: Bound)
    requires min > 0
    ensures RangeFull(l, x, min, max) == Cat(Cat(Iterate(l), x), RangeFull(l, x, min - 1, Lower(max)))
  {
    CatAssoc(Iterate(l), x, RangeFull(l, x, min - 1, Lower(max)));
  }

  lemma {:induction false} OptionalCopy(l: Content, x: Content, max: nat)
    requires max > 0 && l == Empty()
    ensures RangeFull(l, x, 0, AtMost(max)) == Cat(Epsilon() + x, RangeFull(l, x, 0, AtMost(max - 1)))
  {
    var full := RangeFull(l, x, 0, AtMost(max - 1));
    var exit := RangeExit(l, x, 0, AtMost(max));
    assert exit == Cat(Epsilon() + x, full) by {
      assert Lower(AtMost(max)) == AtMost(max - 1);
    }
    NoLoopFull(l, exit);
  }

  lemma {:induction false} NoCopy(l: Content, x: Content)
    ensures RangeFull(l, x, 0, AtMost(0)) == Epsilon()
  {
    NoLoopFull(RangeLoop(l, x, 0, AtMost(0)), Epsilon());
  }

  lemma {:induction false} OpenCopies(l: Content, x: Content)
    requires l == Empty()
    ensures RangeFull(l, x, 0, Unbounded) == Iterate(x)
  {
    NoLoopFull(l, x);
    CatEpsilon(Iterate(l + x));
  }

  lemma {:induction false} OptionalCopies(l: Content, x: Content, max: nat)
    requires l == Empty()
    ensures RangeFull(l, x, 0, AtMost(max)) == Between(x, 0, max)
    decreases max
  {
    if max == 0 {
      NoCopy(l, x);
      BetweenNone(x);
    } else {
      OptionalCopies(l, x, max - 1);
      OptionalCopy(l, x, max);
      BetweenOptional(x, max);
    }
  }

  lemma {:induction false} RequiredCopies(l: Content, x: Content, min: nat, max: Bound)
    requires min > 0 && (max.AtMost? ==> max.n > 0)
    requires RangeFull(l, x, min - 1, Lower(max)) == Copies(Cat(Iterate(l), x), min - 1, Lower(max))
    ensures RangeFull(l, x, min, max) == Copies(Cat(Iterate(l), x), min, max)
  {
    var f := Cat(Iterate(l), x);
    RequiredCopy(l, x, min, max);
    if max.Unbounded? { AtLeastStep(f, min - 1); } else { BetweenStep(f, min - 1, max.n - 1); }
  }

  lemma {:induction false} RangeCopies(l: Content, x: Content, min: nat, max: Bound)
    requires max.AtMost? ==> min <= max.n
    requires max != AtMost(min) ==> l == Empty()
    ensures RangeFull(l, x, min, max) == Copies(Cat(Iterate(l), x), min, max)
    decreases min, if max.AtMost? then max.n else 0
  {
    if min > 0 {
      RangeCopies(l, x, min - 1, Lower(max));
      RequiredCopies(l, x, min, max);
    } else if max.Unbounded? {
      OpenCopies(l, x);
      NoLoopFull(l, x);
    } else if max.n == 0 {
      NoCopy(l, x);
      BetweenNone(Cat(Iterate(l), x));
    } else {
      NoLoopFull(l, x);
      OptionalCopies(l, x, max.n);
    }
  }

  /** A range written with its ends reversed still asks for its first number of copies. */
  lemma {:induction false} ReversedCopies(l: Content, x: Content, min: nat, max: nat)
    requires max <= min
    ensures RangeFull(l, x, min, AtMost(max)) == RangeFull(l, x, min, AtMost(min))
    decreases min
  {
    if min > 0 {
      RequiredCopy(l, x, min, AtMost(max));
      RequiredCopy(l, x, min, AtMost(min));
      ReversedCopies(l, x, min - 1, if max > 0 then max - 1 else 0);
    }
  }

  // ----- expressions -----

  /** Outside the failing family the compiled language is the one meant. */
  lemma {:induction false} RegularLanguage(e: Expr)
    requires Regular(e)
    ensures Full(e) == Lang(e)
    decreases e, 1
  {
    match e
    case Choice(es) =>
      forall w
        ensures w in Exit(e) <==> w in Lang(e)
      {
        forall i | 0 <= i < |es|
          ensures Exit(es[i]) == Lang(es[i])
        {
          StraightExit(es[i]);
          RegularLanguage(es[i]);
        }
        assert w in Exit(e) <==> InSomeExit(es, w);
        assert w in Lang(e) <==> InSomeLang(es, w);
      }
      StraightExit(e);
    case Sequence(es) =>
      SeqLanguage(es);
      CatAssoc(Iterate(Loop(es[0])), Exit(es[0]), FullSeq(es[1..]));
    case Star(e1) =>
      RegularLanguage(e1);
      StraightExit(e1);
      StraightNoLoop(e1);
      NoLoopFull(Loop(e1), Exit(e1));
      StraightExit(e);
    case Plus(e1) =>
      RegularLanguage(e1);
      StraightExit(e1);
      StraightNoLoop(e1);
      NoLoopFull(Loop(e1), Exit(e1));
      StraightExit(e);
      AtLeastStep(Lang(e1), 0);
    case Opt(e1) =>
      RegularLanguage(e1);
      StraightExit(e1);
      StraightExit(e);
    case Range(min, max, e1) =>
      RegularLanguage(e1);
      if max != AtMost(min) { StraightNoLoop(e1); }
      RangeCopies(Loop(e1), Exit(e1), min, max);
    case Name(_) => StraightExit(e);
  }

  lemma {:induction false} SeqLanguage(es: seq<Expr>)
    requires forall i | 0 <= i < |es| :: Regular(es[i])
    ensures FullSeq(es) == LangSeq(es)
    decreases es, 0
  {
    if es != [] {
      RegularLanguage(es[0]);
      SeqLanguage(es[1..]);
    }
  }

  // ----- inputs on which the compiled language is another one -----

  /** `(a{0,} | b)` compiles to an automaton that also takes "a b". */
  lemma {:induction false} OpenRangeInChoice(a: NodeType, b: NodeType)
    requires a != b
    ensures var e := Choice([Range(0, Unbounded, Name(a)), Name(b)]);
      Parsed(e) && !Regular(e) && [a, b] in Full(e) && [a, b] !in Lang(e)
  {
    var loop := Range(0, Unbounded, Name(a));
    var es := [loop, Name(b)];
    var e := Choice(es);
    assert !Straight(es[0]);
    assert [a] in Loop(es[0]);
    assert InSomeLoop(es, [a]);
    IterateNil(Loop(e));
    CatIntro(Loop(e), Iterate(Loop(e)), [a], []);
    IterateCons(Loop(e));
    assert [a] + [] == [a];
    assert [b] in Exit(es[1]);
    assert InSomeExit(es, [b]);
    CatIntro(Iterate(Loop(e)), Exit(e), [a], [b]);
    assert [a] + [b] == [a, b];
    OnlyRepeats(a, [a, b]);
    assert Lang(es[0]) == AtLeast(Letter(a), 0);
    assert [a, b][1] == b;
    assert !InSomeLang(es, [a, b]);
  }

  lemma {:induction false} RepeatsPower(a: NodeType, w: seq<NodeType>, n: nat)
    requires w in Power(Letter(a), n)
    ensures |w| == n && forall i | 0 <= i < |w| :: w[i] == a
  {
    if n > 0 {
      var u, v := CatElim(Letter(a), Power(Letter(a), n - 1), w);
      RepeatsPower(a, v, n - 1);
    }
  }

  lemma {:induction false} OnlyRepeats(a: NodeType, w: seq<NodeType>)
    ensures w in AtLeast(Letter(a), 0) ==> forall i | 0 <= i < |w| :: w[i] == a
  {
    if w in AtLeast(Letter(a), 0) {
      var n: nat :| w in Power(Letter(a), n);
      RepeatsPower(a, w, n);
    }
  }

  /** A reversed range means nothing, but compiles to exactly `min` copies. */
  lemma {:induction false} ReversedRange(e: Expr, min: nat, max: nat)
    requires max < min
    ensures var r := Range(min, AtMost(max), e);
      !Regular(r) && Lang(r) == Empty() && Full(r) == Full(Range(min, AtMost(min), e))
  {
    ReversedCopies(Loop(e), Exit(e), min, max);
  }
}
