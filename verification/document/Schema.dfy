/** What the content matchers of a schema decide (`validContent`, `compatibleContent`). */
module Schemas {
  import opened Options
  import opened ContentExpr
  import opened Dfa
  import opened Document
  import opened Replace

  /** The matcher for the content of each type. */
  type Schema = NodeType -> Matcher

  function Types(ms: seq<Markup>): (ts: seq<NodeType>)
    ensures |ts| == |ms| && forall i | 0 <= i < |ms| :: ts[i] == ms[i].nodeType
  {
    seq(|ms|, i requires 0 <= i < |ms| => ms[i].nodeType)
  }

  /** The types on the edges out of the start. */
  function FirstTypes(m: Matcher): set<NodeType> {
    if m == [] then {} else set e | e in m[0].next :: e.term
  }

  /** The rules of a schema that allows all marks everywhere. */
  function RulesOf(schema: Schema): Rules {
    Rules((t, ms) => MatcherAccepts(schema(t), Types(ms)), t => FirstTypes(schema(t)))
  }

  /** Valid content begins with a type that can come first. */
  lemma {:induction false} ValidStarts(schema: Schema, t: NodeType, ms: seq<Markup>)
    requires RulesOf(schema).valid(t, ms) && ms != []
    ensures ms[0].nodeType in RulesOf(schema).first(t)
  {
    var m, w := schema(t), Types(ms);
    assert MatchFrom(m, Some(0), w).Some? && m != [];
    var next := EdgeFor(m[0].next, w[0]);
    assert MatchFrom(m, next, w[1..]).Some?;
    EdgeForIn(m[0].next, w[0]);
  }

  /** Two types are compatible exactly when they are the same or the same type can come first in both. */
  lemma {:induction false} CompatibleIff(schema: Schema, a: NodeType, b: NodeType)
    ensures Compatible(RulesOf(schema), a, b) <==>
      a == b || exists t :: MatchFrom(schema(a), Some(0), [t]).Some? && MatchFrom(schema(b), Some(0), [t]).Some?
  {
    var x, y := FirstTypes(schema(a)), FirstTypes(schema(b));
    assert RulesOf(schema).first(a) == x && RulesOf(schema).first(b) == y;
    if x * y != {} {
      var t :| t in x * y;
      FirstIff(schema(a), t);
      FirstIff(schema(b), t);
    }
    if t :| MatchFrom(schema(a), Some(0), [t]).Some? && MatchFrom(schema(b), Some(0), [t]).Some? {
      FirstIff(schema(a), t);
      FirstIff(schema(b), t);
      assert t in x * y;
    }
  }

  lemma {:induction false} FirstIff(m: Matcher, t: NodeType)
    ensures t in FirstTypes(m) <==> MatchFrom(m, Some(0), [t]).Some?
  {
    if m != [] {
      EdgeForIn(m[0].next, t);
      var next := EdgeFor(m[0].next, t);
      assert next.Some? ==> MatchEdge(t, next.value) in m[0].next;
      assert MatchFrom(m, Some(0), [t]) == next;
    }
  }

  // ----- reading off what a matcher accepts -----

  /** The words accepted from state `s` on. */
  predicate AcceptsAt(m: Matcher, s: nat, w: seq<NodeType>) {
    var end := MatchFrom(m, Some(s), w);
    end.Some? && end.value < |m| && m[end.value].validEnd
  }

  lemma {:induction false} EdgeOrLater(e: MatchEdge, rest: seq<MatchEdge>, t: NodeType)
    ensures EdgeFor([e] + rest, t) == if e.term == t then Some(e.next) else EdgeFor(rest, t)
  {
    assert ([e] + rest)[1..] == rest;
  }

  lemma {:induction false} AcceptsNext(m: Matcher, s: nat, w: seq<NodeType>)
    requires s < |m|
    ensures AcceptsAt(m, s, w) <==>
      if w == [] then m[s].validEnd
      else var next := EdgeFor(m[s].next, w[0]); next.Some? && AcceptsAt(m, next.value, w[1..])
  {
    if w != [] {
      var next := EdgeFor(m[s].next, w[0]);
      assert MatchFrom(m, Some(s), w) == MatchFrom(m, next, w[1..]);
      assert next.Some? ==> next == Some(next.value);
    }
  }
}
