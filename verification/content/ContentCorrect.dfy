/** The main result on content expressions: matching agrees with the expression's language. */
module ContentCorrect {
  import opened Options
  import opened ContentExpr
  import opened Nfa
  import opened NfaShape
  import opened NfaWalk
  import opened NfaBuilder
  import opened NfaCorrect
  import opened Closure
  import opened ContentRegular
  import opened Dfa
  import opened DfaBuilder

  /** Some state of `key` leads to the accepting state over `w`. */
  ghost predicate KeyAccepts(g: Graph, key: seq<nat>, w: seq<NodeType>) {
    |g| > 0 && exists n :: 0 <= n < |key| && Reaches(g, key[n], w, |g| - 1)
  }

  ghost predicate KeyClosed(g: Graph, key: seq<nat>) {
    forall n, q: nat | 0 <= n < |key| && InClosure(g, key[n], q) :: q in key
  }

  lemma {:induction false} ClosureThen(g: Graph, p: nat, q: nat, r: nat)
    requires Reaches(g, p, [], q) && InClosure(g, q, r)
    ensures InClosure(g, p, r)
  {
    ReachesThen(g, p, [], q, [], r);
  }

  lemma {:induction false} KeysClosed(g: Graph, m: Matcher, keys: seq<seq<nat>>, i: nat)
    requires BuiltFor(g, m, keys) && i < |m|
    requires i == 0 || exists key, e :: EdgeRight(g, keys, key, e) && e.next == i
    ensures KeyClosed(g, keys[i])
  {
    forall n, r: nat | 0 <= n < |keys[i]| && InClosure(g, keys[i][n], r)
      ensures r in keys[i]
    {
      var q := keys[i][n];
      assert q in keys[i];
      if i == 0 {
        ClosureThen(g, 0, q, r);
      } else {
        var key, e :| EdgeRight(g, keys, key, e) && e.next == i;
        assert InStep(g, key, e.term, q);
        var o: nat, k: nat :| o < |key| && StepsVia(g, key[o], k, e.term, q);
        ClosureThen(g, g[key[o]][k].to.value, q, r);
        assert StepsVia(g, key[o], k, e.term, r);
        assert InStep(g, key, e.term, r);
      }
    }
  }

  /** A walk that spells something takes its first type from a recorded state. */
  lemma {:induction false} FirstLetter(g: Graph, p: nat, path: seq<nat>, w: seq<NodeType>, q: nat)
    returns (s: nat, k: nat)
    requires Closed(g) && p < |g| && w != [] && Walk(g, p, path, w, q)
    ensures InClosure(g, p, s) && IsEdge(g, s, k) && g[s][k].term == Some(w[0])
    ensures Reaches(g, g[s][k].to.value, w[1..], q)
    decreases path
  {
    var edge := g[p][path[0]];
    if edge.term.Some? {
      s, k := p, path[0];
      ReachesSelf(g, p);
    } else {
      s, k := FirstLetter(g, edge.to.value, path[1..], w, q);
      ReachesEdge(g, p, path[0]);
      ClosureThen(g, p, edge.to.value, s);
    }
  }

  lemma {:induction false} StateClosure(g: Graph, p: nat, w: seq<NodeType>) returns (s: nat)
    requires Closed(g) && p < |g| && Reaches(g, p, w, |g| - 1)
    ensures InClosure(g, p, s) && Reaches(g, s, w, |g| - 1)
  {
    var path :| Walk(g, p, path, w, |g| - 1);
    if w == [] {
      s := |g| - 1;
      ReachesSelf(g, s);
    } else {
      var k: nat;
      s, k := FirstLetter(g, p, path, w, |g| - 1);
      LetterThen(g, s, k, w, |g| - 1);
    }
  }

  lemma {:induction false} LetterThen(g: Graph, s: nat, k: nat, w: seq<NodeType>, q: nat)
    requires IsEdge(g, s, k) && g[s][k].to.Some? && w != [] && g[s][k].term == Some(w[0])
    requires Reaches(g, g[s][k].to.value, w[1..], q)
    ensures Reaches(g, s, w, q)
  {
    ReachesEdge(g, s, k);
    ReachesThen(g, s, [w[0]], g[s][k].to.value, w[1..], q);
    assert [w[0]] + w[1..] == w;
  }

  lemma {:induction false} StepForward(g: Graph, keys: seq<seq<nat>>, key: seq<nat>, e: MatchEdge, w: seq<NodeType>)
    requires Closed(g) && KeyFor(g, key) && KeyClosed(g, key) && EdgeRight(g, keys, key, e)
    requires w != [] && w[0] == e.term && KeyAccepts(g, key, w)
    ensures KeyAccepts(g, keys[e.next], w[1..])
  {
    var s, k := KeyFirstLetter(g, key, w);
    var o :| 0 <= o < |key| && key[o] == s;
    var z := StateClosure(g, g[s][k].to.value, w[1..]);
    assert StepsVia(g, key[o], k, e.term, z);
    assert InStep(g, key, e.term, z);
    assert z in keys[e.next];
  }

  lemma {:induction false} StepBack(g: Graph, keys: seq<seq<nat>>, key: seq<nat>, e: MatchEdge, w: seq<NodeType>)
    requires Closed(g) && KeyFor(g, key) && EdgeRight(g, keys, key, e)
    requires w != [] && w[0] == e.term && KeyAccepts(g, keys[e.next], w[1..])
    ensures KeyAccepts(g, key, w)
  {
    var next := keys[e.next];
    var n :| 0 <= n < |next| && Reaches(g, next[n], w[1..], |g| - 1);
    assert next[n] in next;
    assert InStep(g, key, e.term, next[n]);
    var o: nat, k: nat :| o < |key| && StepsVia(g, key[o], k, e.term, next[n]);
    StepWalk(g, key[o], k, next[n], w);
  }

  lemma {:induction false} StepWalk(g: Graph, p: nat, k: nat, z: nat, w: seq<NodeType>)
    requires |g| > 0 && w != [] && StepsVia(g, p, k, w[0], z) && Reaches(g, z, w[1..], |g| - 1)
    ensures Reaches(g, p, w, |g| - 1)
  {
    var q := g[p][k].to.value;
    ReachesEdge(g, p, k);
    ReachesThen(g, q, [], z, w[1..], |g| - 1);
    assert [] + w[1..] == w[1..];
    ReachesThen(g, p, [w[0]], q, w[1..], |g| - 1);
    assert [w[0]] + w[1..] == w;
  }

  lemma {:induction false} KeyFirstLetter(g: Graph, key: seq<nat>, w: seq<NodeType>) returns (s: nat, k: nat)
    requires Closed(g) && KeyFor(g, key) && KeyClosed(g, key) && w != [] && KeyAccepts(g, key, w)
    ensures s in key && IsEdge(g, s, k) && g[s][k].term == Some(w[0])
    ensures Reaches(g, g[s][k].to.value, w[1..], |g| - 1)
  {
    var n :| 0 <= n < |key| && Reaches(g, key[n], w, |g| - 1);
    assert key[n] in key;
    var path :| Walk(g, key[n], path, w, |g| - 1);
    s, k := FirstLetter(g, key[n], path, w, |g| - 1);
  }

  lemma {:induction false} EmptyAccepts(g: Graph, key: seq<nat>)
    requires Closed(g) && KeyFor(g, key) && KeyClosed(g, key)
    ensures KeyAccepts(g, key, []) <==> |g| - 1 in key
  {
    if |g| - 1 in key {
      var n :| 0 <= n < |key| && key[n] == |g| - 1;
      ReachesSelf(g, key[n]);
    }
    if KeyAccepts(g, key, []) {
      var n :| 0 <= n < |key| && Reaches(g, key[n], [], |g| - 1);
      assert InClosure(g, key[n], |g| - 1);
    }
  }

  /** Without an edge for the next type, nothing is accepted. */
  lemma {:induction false} StuckRejects(g: Graph, key: seq<nat>, s: MatchState, w: seq<NodeType>)
    requires Closed(g) && KeyFor(g, key) && KeyClosed(g, key) && Covered(g, key, s)
    requires w != [] && forall e | e in s.next :: e.term != w[0]
    ensures !KeyAccepts(g, key, w)
  {
    if KeyAccepts(g, key, w) {
      var s', k := KeyFirstLetter(g, key, w);
      var o :| 0 <= o < |key| && key[o] == s';
      var z := StateClosure(g, g[s'][k].to.value, w[1..]);
      assert StepsVia(g, key[o], k, w[0], z);
      assert InStep(g, key, w[0], z);
    }
  }

  lemma {:induction false} MatchingAccepts(g: Graph, m: Matcher, keys: seq<seq<nat>>, i: nat, w: seq<NodeType>)
    requires Closed(g) && BuiltFor(g, m, keys) && i < |m| && KeyClosed(g, keys[i])
    ensures var end := MatchFrom(m, Some(i), w);
      KeyAccepts(g, keys[i], w) <==> end.Some? && end.value < |m| && m[end.value].validEnd
    decreases w
  {
    assert StateRight(g, keys, keys[i], m[i]) && KeyFor(g, keys[i]);
    if w == [] {
      EmptyAccepts(g, keys[i]);
    } else {
      EdgeForIn(m[i].next, w[0]);
      var next := EdgeFor(m[i].next, w[0]);
      if next.None? {
        StuckRejects(g, keys[i], m[i], w);
        assert MatchFrom(m, None, w[1..]) == None;
      } else {
        var e := MatchEdge(w[0], next.value);
        if KeyAccepts(g, keys[i], w) { StepForward(g, keys, keys[i], e, w); }
        if KeyAccepts(g, keys[e.next], w[1..]) { StepBack(g, keys, keys[i], e, w); }
        KeysClosed(g, m, keys, e.next);
        MatchingAccepts(g, m, keys, e.next, w[1..]);
      }
    }
  }

  /** The subset construction loses nothing: the matcher accepts what the automaton accepts. */
  lemma {:induction false} SubsetExact(g: Graph, m: Matcher, keys: seq<seq<nat>>, w: seq<NodeType>)
    requires Closed(g) && BuiltFor(g, m, keys)
    ensures MatcherAccepts(m, w) <==> Accepts(g, w)
  {
    KeysClosed(g, m, keys, 0);
    MatchingAccepts(g, m, keys, 0, w);
    StartAccepts(g, keys[0], w);
  }

  /** The set that the matcher starts from accepts what the automaton does. */
  lemma {:induction false} StartAccepts(g: Graph, key: seq<nat>, w: seq<NodeType>)
    requires Closed(g) && forall q: nat :: q in key <==> InClosure(g, 0, q)
    ensures KeyAccepts(g, key, w) <==> Accepts(g, w)
  {
    if Accepts(g, w) {
      var s := StateClosure(g, 0, w);
      assert s in key;
    }
    if KeyAccepts(g, key, w) {
      var n :| 0 <= n < |key| && Reaches(g, key[n], w, |g| - 1);
      assert key[n] in key;
      ReachesThen(g, 0, [], key[n], w, |g| - 1);
      assert [] + w == w;
    }
  }

  /**
   * Compiling a content expression, when it can be done: matching a sequence of children ends
   * in a valid end exactly when the sequence is in Full(e), and for a regular expression that
   * is the language the expression is written to mean.
   */
  method CompileMatcher(e: Expr) returns (m: Matcher)
    requires Parsed(e) && !Spins(Automaton(e))
    ensures forall w :: MatcherAccepts(m, w) <==> w in Full(e)
    ensures Regular(e) ==> forall w :: MatcherAccepts(m, w) <==> w in Lang(e)
    ensures m != [] && WellFormed(m)
  {
    var g := CompileContent(e);
    AutomatonClosed(e);
    m := BuildMatcher(g);
    ghost var keys :| BuiltFor(g, m, keys);
    forall i | 0 <= i < |m|
      ensures Deterministic(m[i].next) && forall edge | edge in m[i].next :: edge.next < |m|
    {
      assert StateRight(g, keys, keys[i], m[i]);
      assert forall edge | edge in m[i].next :: EdgeRight(g, keys, keys[i], edge);
    }
    forall w
      ensures MatcherAccepts(m, w) <==> w in Full(e)
    {
      SubsetExact(g, m, keys, w);
      AutomatonExact(e, w);
    }
    if Regular(e) {
      RegularLanguage(e);
    }
  }

  /** Every matcher built from a regular, steady expression decides the expression's language. */
  lemma {:induction false} ContentExact(e: Expr, m: Matcher, keys: seq<seq<nat>>, w: seq<NodeType>)
    requires Parsed(e) && Regular(e) && BuiltFor(Automaton(e), m, keys)
    ensures MatcherAccepts(m, w) <==> w in Lang(e)
  {
    AutomatonClosed(e);
    SubsetExact(Automaton(e), m, keys, w);
    AutomatonExact(e, w);
    RegularLanguage(e);
  }
}
