/**
 * The compiler from content expressions to a nondeterministic automaton (`mo`).
 * An automaton is a list of states, a state a list of edges; an edge without a target is open.
 */
module Nfa {
  import opened Options
  import opened ContentExpr

  datatype Edge = Edge(term: Option<NodeType>, to: Option<nat>)

  /** The address of an edge, standing for the source's reference to an edge object. */
  datatype EdgeRef = EdgeRef(state: nat, index: nat)

  type Graph = seq<seq<Edge>>

  /** An automaton together with the edges that still wait for their target. */
  datatype Compiled = Compiled(graph: Graph, open: seq<EdgeRef>)

  function NewState(g: Graph): Graph {
    g + [[]]
  }

  function AddEdge(g: Graph, from: nat, term: Option<NodeType>, to: Option<nat>): Graph
    requires from < |g|
  {
    g[from := g[from] + [Edge(term, to)]]
  }

  /** Points the given edges at `to`. */
  function Patch(g: Graph, refs: seq<EdgeRef>, to: nat): (r: Graph)
    ensures |r| == |g|
    ensures forall p | 0 <= p < |g| :: |r[p]| == |g[p]|
  {
    seq(|g|, p requires 0 <= p < |g| =>
      seq(|g[p]|, i requires 0 <= i < |g[p]| =>
        if EdgeRef(p, i) in refs then g[p][i].(to := Some(to)) else g[p][i]))
  }

  /** Adds an open edge without a type. */
  function OpenFrom(g: Graph, from: nat): (r: Compiled)
    requires from < |g|
    ensures |r.graph| == |g|
  {
    Compiled(AddEdge(g, from, None, None), [EdgeRef(from, |g[from]|)])
  }

  function Compile(g: Graph, e: Expr, from: nat): (r: Compiled)
    requires from < |g| && Parsed(e)
    ensures |r.graph| >= |g|
    decreases e, 1
  {
    match e
    case Choice(es) => CompileChoice(g, es, from)
    case Sequence(es) => CompileSeq(g, es, from)
    case Star(e1) =>
      var loop := |g|;
      var body := Compile(AddEdge(NewState(g), from, None, Some(loop)), e1, loop);
      OpenFrom(Patch(body.graph, body.open, loop), loop)
    case Plus(e1) =>
      var loop := |g|;
      var once := Compile(NewState(g), e1, from);
      var body := Compile(Patch(once.graph, once.open, loop), e1, loop);
      OpenFrom(Patch(body.graph, body.open, loop), loop)
    case Opt(e1) =>
      var skip := OpenFrom(g, from);
      var body := Compile(skip.graph, e1, from);
      Compiled(body.graph, skip.open + body.open)
    case Range(min, max, e1) => CompileRange(g, e1, min, max, from)
    case Name(t) => Compiled(AddEdge(g, from, Some(t), None), [EdgeRef(from, |g[from]|)])
  }

  function CompileChoice(g: Graph, es: seq<Expr>, from: nat): (r: Compiled)
    requires from < |g| && forall i | 0 <= i < |es| :: Parsed(es[i])
    ensures |r.graph| >= |g|
    decreases es, 0
  {
    if es == [] then Compiled(g, []) else
      var first := Compile(g, es[0], from);
      var rest := CompileChoice(first.graph, es[1..], from);
      Compiled(rest.graph, first.open + rest.open)
  }

  function CompileSeq(g: Graph, es: seq<Expr>, from: nat): (r: Compiled)
    requires from < |g| && es != [] && forall i | 0 <= i < |es| :: Parsed(es[i])
    ensures |r.graph| >= |g|
    decreases es, 0
  {
    var first := Compile(g, es[0], from);
    if |es| == 1 then first else
      var next := |first.graph|;
      CompileSeq(Patch(NewState(first.graph), first.open, next), es[1..], next)
  }

  /** One round of the loops that copy the body of a range, `min` of them required. */
  function CompileRange(g: Graph, e: Expr, min: nat, max: Bound, from: nat): (r: Compiled)
    requires from < |g| && Parsed(e)
    ensures |r.graph| >= |g|
    decreases e, 2, min, if max.AtMost? then max.n else 0
  {
    if min > 0 then
      var next := |g|;
      var copy := Compile(NewState(g), e, from);
      CompileRange(Patch(copy.graph, copy.open, next), e, min - 1, Lower(max), next)
    else if max.Unbounded? then
      var body := Compile(g, e, from);
      OpenFrom(Patch(body.graph, body.open, from), from)
    else if max.n == 0 then
      OpenFrom(g, from)
    else
      var next := |g|;
      var copy := Compile(AddEdge(NewState(g), from, None, Some(next)), e, from);
      CompileRange(Patch(copy.graph, copy.open, next), e, 0, Lower(max), next)
  }

  /** The whole automaton: state 0 is the start, the last state accepts. */
  function Automaton(e: Expr): (g: Graph)
    requires Parsed(e)
    ensures |g| >= 2
  {
    var r := Compile([[]], e, 0);
    Patch(NewState(r.graph), r.open, |r.graph|)
  }
}
