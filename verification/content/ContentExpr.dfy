/**
 * Content expressions: their syntax, the language they are written to mean, and the
 * language that the compiler of module Nfa gives them.
 */
module ContentExpr {
  import opened Languages

  /** A node type; names are the keys of a schema, so they identify types. */
  datatype NodeType = NodeType(name: string)

  type Content = iset<seq<NodeType>>

  /** The upper end of a braced range; the source writes -1 for `{n,}`. */
  datatype Bound = Unbounded | AtMost(n: nat)

  datatype Expr =
    | Choice(exprs: seq<Expr>)
    | Sequence(exprs: seq<Expr>)
    | Star(expr: Expr)
    | Plus(expr: Expr)
    | Opt(expr: Expr)
    | Range(min: nat, max: Bound, expr: Expr)
    | Name(value: NodeType)

  /** What the parser guarantees: a choice or a sequence has at least one part. */
  predicate Parsed(e: Expr)
  {
    match e
    case Choice(es) => es != [] && forall i | 0 <= i < |es| :: Parsed(es[i])
    case Sequence(es) => es != [] && forall i | 0 <= i < |es| :: Parsed(es[i])
    case Star(e1) => Parsed(e1)
    case Plus(e1) => Parsed(e1)
    case Opt(e1) => Parsed(e1)
    case Range(_, _, e1) => Parsed(e1)
    case Name(_) => true
  }

  // ----- the intended language -----

  ghost predicate InPowerBetween(a: Content, lo: nat, hi: nat, w: seq<NodeType>) {
    exists n: nat :: lo <= n <= hi && w in Power(a, n)
  }

  ghost function Between(a: Content, lo: nat, hi: nat): Content {
    iset w | InPowerBetween(a, lo, hi, w)
  }

  ghost function Lang(e: Expr): Content
    decreases e, 1
  {
    match e
    case Choice(es) => iset w | InSomeLang(es, w)
    case Sequence(es) => LangSeq(es)
    case Star(e1) => Iterate(Lang(e1))
    case Plus(e1) => AtLeast(Lang(e1), 1)
    case Opt(e1) => Epsilon() + Lang(e1)
    case Range(min, Unbounded, e1) => AtLeast(Lang(e1), min)
    case Range(min, AtMost(max), e1) => Between(Lang(e1), min, max)
    case Name(t) => Letter(t)
  }

  ghost predicate InSomeLang(es: seq<Expr>, w: seq<NodeType>)
    decreases es, 0
  {
    exists i :: 0 <= i < |es| && w in Lang(es[i])
  }

  ghost function LangSeq(es: seq<Expr>): Content
    decreases es, 0
  {
    if es == [] then Epsilon() else Cat(Lang(es[0]), LangSeq(es[1..]))
  }

  // ----- the language the compiler gives -----
  //
  // Compiling an expression from a state adds edges to that state. A walk that starts there
  // either comes back (a word of Loop) or leaves through an open edge (a word of Exit).

  ghost function Loop(e: Expr): Content
    decreases e, 0
  {
    match e
    case Choice(es) => iset w | InSomeLoop(es, w)
    case Sequence(es) => if es == [] then Empty() else Loop(es[0])
    case Star(_) => Empty()
    case Plus(e1) => Loop(e1)
    case Opt(e1) => Loop(e1)
    case Range(min, max, e1) => RangeLoop(Loop(e1), Exit(e1), min, max)
    case Name(_) => Empty()
  }

  ghost predicate InSomeLoop(es: seq<Expr>, w: seq<NodeType>)
    decreases es, 0
  {
    exists i :: 0 <= i < |es| && w in Loop(es[i])
  }

  ghost function Exit(e: Expr): Content
    decreases e, 0
  {
    match e
    case Choice(es) => iset w | InSomeExit(es, w)
    case Sequence(es) => if es == [] then Epsilon() else Cat(Exit(es[0]), FullSeq(es[1..]))
    case Star(e1) => Iterate(Loop(e1) + Exit(e1))
    case Plus(e1) => Cat(Exit(e1), Iterate(Loop(e1) + Exit(e1)))
    case Opt(e1) => Epsilon() + Exit(e1)
    case Range(min, max, e1) => RangeExit(Loop(e1), Exit(e1), min, max)
    case Name(t) => Letter(t)
  }

  ghost predicate InSomeExit(es: seq<Expr>, w: seq<NodeType>)
    decreases es, 0
  {
    exists i :: 0 <= i < |es| && w in Exit(es[i])
  }

  /** What is accepted from an entry state nothing else is attached to. */
  ghost function Full(e: Expr): Content
    decreases e, 1
  {
    Cat(Iterate(Loop(e)), Exit(e))
  }

  ghost function FullSeq(es: seq<Expr>): Content
    decreases es, 2
  {
    if es == [] then Epsilon() else Cat(Full(es[0]), FullSeq(es[1..]))
  }

  function Lower(max: Bound): Bound {
    if max.AtMost? && max.n > 0 then AtMost(max.n - 1) else max
  }

  /** One required copy fewer; the optional copies are those from `min` up to `max`. */
  ghost function RangeLoop(l: Content, x: Content, min: nat, max: Bound): Content {
    if min == 0 && max.Unbounded? then l + x
    else if min == 0 && max.n == 0 then Empty()
    else l
  }

  ghost function RangeExit(l: Content, x: Content, min: nat, max: Bound): Content
    decreases min, if max.AtMost? then max.n else 0, 0
  {
    if min > 0 then Cat(x, RangeFull(l, x, min - 1, Lower(max)))
    else if max.Unbounded? || max.n == 0 then Epsilon()
    else Cat(Epsilon() + x, RangeFull(l, x, 0, Lower(max)))
  }

  ghost function RangeFull(l: Content, x: Content, min: nat, max: Bound): Content
    decreases min, if max.AtMost? then max.n else 0, 1
  {
    Cat(Iterate(RangeLoop(l, x, min, max)), RangeExit(l, x, min, max))
  }
}
