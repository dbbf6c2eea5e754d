/** The compiler as the source runs it: states are pushed and edges patched in place. */
module NfaBuilder {
  import opened Options
  import opened ContentExpr
  import opened Nfa
  import opened NfaShape

  class Builder {
    var states: Graph

    constructor ()
      ensures states == [[]]
    {
      states := [[]];
    }

    method Node() returns (n: nat)
      modifies this
      ensures n == old(|states|) && states == NewState(old(states))
    {
      states := states + [[]];
      n := |states| - 1;
    }

    method Add(from: nat, term: Option<NodeType>, to: Option<nat>) returns (r: EdgeRef)
      requires from < |states|
      modifies this
      ensures states == AddEdge(old(states), from, term, to)
      ensures r == EdgeRef(from, old(|states[from]|))
    {
      r := EdgeRef(from, |states[from]|);
      states := states[from := states[from] + [Edge(term, to)]];
    }

    method Connect(refs: seq<EdgeRef>, to: nat)
      requires forall r | r in refs :: r.state < |states| && r.index < |states[r.state]|
      modifies this
      ensures states == Patch(old(states), refs, to)
    {
      var k := 0;
      assert forall p | 0 <= p < |states| :: states[p] == Patch(states, [], to)[p];
      assert refs[..0] == [];
      while k < |refs|
        invariant 0 <= k <= |refs|
        invariant states == Patch(old(states), refs[..k], to)
      {
        var r := refs[k];
        states := states[r.state := states[r.state][r.index := states[r.state][r.index].(to := Some(to))]];
        forall p, i | 0 <= p < |states| && 0 <= i < |states[p]|
          ensures states[p][i] == Patch(old(states), refs[..k + 1], to)[p][i]
        {
          assert EdgeRef(p, i) in refs[..k + 1] <==> EdgeRef(p, i) in refs[..k] || EdgeRef(p, i) == r;
        }
        assert forall p | 0 <= p < |states| :: states[p] == Patch(old(states), refs[..k + 1], to)[p];
        k := k + 1;
      }
      assert refs[..k] == refs;
    }

    /** Compiles `e` from `from`, and reports the edges left open. */
    method Expression(e: Expr, from: nat) returns (open: seq<EdgeRef>)
      requires from < |states| && Parsed(e)
      modifies this
      ensures Compiled(states, open) == Compile(old(states), e, from)
      decreases e, 1
    {
      match e
      case Choice(es) => open := Alternatives(es, from);
      case Sequence(es) => open := Parts(es, from);
      case Star(e1) =>
        var loop := Node();
        var _ := Add(from, None, Some(loop));
        open := CloseLoop(e1, loop);
      case Plus(e1) =>
        var loop := Node();
        var once := Patched(e1, from, loop);
        open := CloseLoop(e1, loop);
      case Opt(e1) =>
        var skip := Add(from, None, None);
        var body := Expression(e1, from);
        open := [skip] + body;
      case Range(min, max, e1) => open := Copies(e1, min, max, from);
      case Name(t) =>
        var edge := Add(from, Some(t), None);
        open := [edge];
    }

    method CloseLoop(e: Expr, loop: nat) returns (open: seq<EdgeRef>)
      requires loop < |states| && Parsed(e)
      modifies this
      ensures var body := Compile(old(states), e, loop);
        Compiled(states, open) == OpenFrom(Patch(body.graph, body.open, loop), loop)
      decreases e, 3
    {
      var body := Patched(e, loop, loop);
      var out := Add(loop, None, None);
      open := [out];
    }

    method Alternatives(es: seq<Expr>, from: nat) returns (open: seq<EdgeRef>)
      requires from < |states| && forall i | 0 <= i < |es| :: Parsed(es[i])
      modifies this
      ensures Compiled(states, open) == CompileChoice(old(states), es, from)
      decreases es, 0
    {
      open := [];
      var k := 0;
      while k < |es|
        invariant 0 <= k <= |es| && from < |states|
        invariant CompileChoice(old(states), es, from) ==
                  (var rest := CompileChoice(states, es[k..], from); Compiled(rest.graph, open + rest.open))
      {
        var part := Expression(es[k], from);
        open := open + part;
        assert es[k..][1..] == es[k + 1..];
        k := k + 1;
      }
    }

    method Parts(es: seq<Expr>, from: nat) returns (open: seq<EdgeRef>)
      requires from < |states| && es != [] && forall i | 0 <= i < |es| :: Parsed(es[i])
      modifies this
      ensures Compiled(states, open) == CompileSeq(old(states), es, from)
      decreases es, 0
    {
      var at: nat := from;
      var k := 0;
      while true
        invariant 0 <= k < |es| && at < |states|
        invariant CompileSeq(old(states), es, from) == CompileSeq(states, es[k..], at)
        decreases |es| - k
      {
        assert es[k..][1..] == es[k + 1..];
        CompileGrows(states, es[k], at);
        open := Expression(es[k], at);
        if k == |es| - 1 {
          return;
        }
        GrowsState(states, at);
        at := Node();
        Connect(open, at);
        k := k + 1;
      }
    }

    method Copies(e: Expr, min: nat, max: Bound, from: nat) returns (open: seq<EdgeRef>)
      requires from < |states| && Parsed(e)
      modifies this
      ensures Compiled(states, open) == CompileRange(old(states), e, min, max, from)
      decreases e, 5
    {
      var at, bound := Required(e, min, max, from);
      if bound.Unbounded? {
        open := CloseLoop(e, at);
      } else {
        at := Optional(e, bound.n, at);
        var out := Add(at, None, None);
        open := [out];
      }
    }

    method Required(e: Expr, min: nat, max: Bound, from: nat) returns (at: nat, bound: Bound)
      requires from < |states| && Parsed(e)
      modifies this
      ensures at < |states|
      ensures CompileRange(old(states), e, min, max, from) == CompileRange(states, e, 0, bound, at)
      decreases e, 4
    {
      at, bound := from, max;
      var left: nat := min;
      while left > 0
        invariant at < |states|
        invariant CompileRange(old(states), e, min, max, from) == CompileRange(states, e, left, bound, at)
      {
        at := RequiredCopy(e, left, bound, at);
        left, bound := left - 1, Lower(bound);
      }
    }

    method RequiredCopy(e: Expr, min: nat, max: Bound, from: nat) returns (next: nat)
      requires from < |states| && Parsed(e) && min > 0
      modifies this
      ensures next < |states|
      ensures CompileRange(old(states), e, min, max, from) == CompileRange(states, e, min - 1, Lower(max), next)
      decreases e, 3
    {
      next := Node();
      var copy := Patched(e, from, next);
    }

    /** One more copy that may be skipped. */
    method OptionalCopy(e: Expr, max: nat, from: nat) returns (next: nat)
      requires from < |states| && Parsed(e) && max > 0
      modifies this
      ensures next < |states|
      ensures CompileRange(old(states), e, 0, AtMost(max), from) ==
              CompileRange(states, e, 0, AtMost(max - 1), next)
      decreases e, 3
    {
      next := Node();
      var _ := Add(from, None, Some(next));
      var copy := Patched(e, from, next);
    }

    /** Compiles `e` from `from` and points what it leaves open at `to`. */
    method Patched(e: Expr, from: nat, to: nat) returns (ghost copy: Compiled)
      requires from < |states| && Parsed(e)
      modifies this
      ensures copy == Compile(old(states), e, from)
      ensures states == Patch(copy.graph, copy.open, to)
      decreases e, 2
    {
      CompileGrows(states, e, from);
      var open := Expression(e, from);
      copy := Compiled(states, open);
      Connect(open, to);
    }

    method Optional(e: Expr, max: nat, from: nat) returns (at: nat)
      requires from < |states| && Parsed(e)
      modifies this
      ensures at < |states|
      ensures CompileRange(old(states), e, 0, AtMost(max), from) == CompileRange(states, e, 0, AtMost(0), at)
      decreases e, 4
    {
      at := from;
      var left: nat := max;
      while left > 0
        invariant at < |states|
        invariant CompileRange(old(states), e, 0, AtMost(max), from) == CompileRange(states, e, 0, AtMost(left), at)
      {
        at := OptionalCopy(e, left, at);
        left := left - 1;
      }
    }
  }

  /** The whole compilation: start state 0, and a last state for everything left open. */
  method CompileContent(e: Expr) returns (g: Graph)
    requires Parsed(e)
    ensures g == Automaton(e)
  {
    var b := new Builder();
    CompileGrows([[]], e, 0);
    var open := b.Expression(e, 0);
    var accept := b.Node();
    b.Connect(open, accept);
    g := b.states;
  }
}
