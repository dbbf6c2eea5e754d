/** The subset construction (`go`), and walking its result (`matchType`, `matchFragment`). */
module Dfa {
  import opened Options
  import opened ContentExpr
  import opened Nfa
  import opened NfaShape
  import opened NfaCorrect
  import opened Closure

  datatype MatchEdge = MatchEdge(term: NodeType, next: nat)

  datatype MatchState = MatchState(validEnd: bool, next: seq<MatchEdge>)

  /** Match states refer to each other by their place in this list; the start comes first. */
  type Matcher = seq<MatchState>

  /** Edges lead to states, and no type leads to two of them. */
  ghost predicate WellFormed(m: Matcher) {
    forall i | 0 <= i < |m| :: Deterministic(m[i].next) && forall e | e in m[i].next :: e.next < |m|
  }

  // ----- walking -----

  function EdgeFor(next: seq<MatchEdge>, t: NodeType): Option<nat> {
    if next == [] then None
    else if next[0].term == t then Some(next[0].next)
    else EdgeFor(next[1..], t)
  }

  function MatchFrom(m: Matcher, at: Option<nat>, w: seq<NodeType>): Option<nat>
    decreases w
  {
    if at.None? || w == [] then at
    else if at.value >= |m| then None
    else MatchFrom(m, EdgeFor(m[at.value].next, w[0]), w[1..])
  }

  predicate MatcherAccepts(m: Matcher, w: seq<NodeType>) {
    var end := MatchFrom(m, Some(0), w);
    end.Some? && end.value < |m| && m[end.value].validEnd
  }

  method MatchType(m: Matcher, at: nat, t: NodeType) returns (r: Option<nat>)
    requires at < |m|
    ensures r == EdgeFor(m[at].next, t)
  {
    var next := m[at].next;
    var i := 0;
    while i < |next|
      invariant 0 <= i <= |next|
      invariant EdgeFor(next, t) == EdgeFor(next[i..], t)
    {
      if next[i].term == t {
        return Some(next[i].next);
      }
      i := i + 1;
    }
    return None;
  }

  method MatchFragment(m: Matcher, start: nat, w: seq<NodeType>) returns (r: Option<nat>)
    requires start < |m| && WellFormed(m)
    ensures r == MatchFrom(m, Some(start), w)
    ensures r.Some? ==> r.value < |m|
  {
    r := Some(start);
    var i := 0;
    while r.Some? && i < |w|
      invariant 0 <= i <= |w| && (r.Some? ==> r.value < |m|)
      invariant MatchFrom(m, Some(start), w) == MatchFrom(m, r, w[i..])
    {
      EdgeForIn(m[r.value].next, w[i]);
      assert w[i..][1..] == w[i + 1..];
      r := MatchType(m, r.value, w[i]);
      i := i + 1;
    }
  }

  lemma {:induction false} EdgeForIn(next: seq<MatchEdge>, t: NodeType)
    ensures var r := EdgeFor(next, t);
      if r.Some? then MatchEdge(t, r.value) in next else forall e | e in next :: e.term != t
  {
    if next != [] {
      EdgeForIn(next[1..], t);
    }
  }

  /** The edge of type `a` comes before that of type `b`. */
  predicate EarlierEdge(next: seq<MatchEdge>, a: NodeType, b: NodeType) {
    exists i, j :: 0 <= i < j < |next| && next[i].term == a && next[j].term == b
  }

  // ----- what the construction has to produce -----

  /** From some state of `key`, an edge of type `t` and then edges without a type lead to `q`. */
  ghost predicate InStep(g: Graph, key: seq<nat>, t: NodeType, q: nat) {
    exists n: nat, k: nat :: n < |key| && StepsVia(g, key[n], k, t, q)
  }

  ghost predicate StepsVia(g: Graph, p: nat, k: nat, t: NodeType, q: nat) {
    IsEdge(g, p, k) && g[p][k].term == Some(t) && g[p][k].to.Some? && InClosure(g, g[p][k].to.value, q)
  }

  ghost predicate KeyFor(g: Graph, key: seq<nat>) {
    forall q | q in key :: q < |g|
  }

  ghost predicate EdgeRight(g: Graph, keys: seq<seq<nat>>, key: seq<nat>, e: MatchEdge) {
    e.next < |keys| && forall q: nat :: q in keys[e.next] <==> InStep(g, key, e.term, q)
  }

  ghost predicate Covered(g: Graph, key: seq<nat>, s: MatchState) {
    forall t, q: nat | InStep(g, key, t, q) :: exists e :: e in s.next && e.term == t
  }

  /** The types that edges have, in order. */
  function EdgeTypes(edges: seq<Edge>): seq<NodeType> {
    if edges == [] then [] else
      var last := edges[|edges| - 1];
      EdgeTypes(edges[..|edges| - 1]) + if last.term.Some? then [last.term.value] else []
  }

  /** The types of the edges out of a set, state by state. */
  function TypesOut(g: Graph, key: seq<nat>): seq<NodeType> {
    if key == [] then [] else
      var last := key[|key| - 1];
      TypesOut(g, key[..|key| - 1]) + if last < |g| then EdgeTypes(g[last]) else []
  }

  function OnceMore(ts: seq<NodeType>, t: NodeType): seq<NodeType> {
    if t in ts then ts else ts + [t]
  }

  /** Each type only where it comes first. */
  function Once(ts: seq<NodeType>): seq<NodeType> {
    if ts == [] then [] else OnceMore(Once(ts[..|ts| - 1]), ts[|ts| - 1])
  }

  /** The same types, each once, in the order in which they first come. */
  lemma {:induction false} OnceIs(ts: seq<NodeType>)
    ensures forall t :: t in Once(ts) <==> t in ts
    ensures forall i, j | 0 <= i < j < |Once(ts)| :: Once(ts)[i] != Once(ts)[j]
    ensures forall i, j, k | 0 <= i < j < |Once(ts)| && 0 <= k < |ts| && ts[k] == Once(ts)[j] :: Once(ts)[i] in ts[..k]
  {
    if ts != [] {
      var l := |ts| - 1;
      OnceIs(ts[..l]);
      var before, all := Once(ts[..l]), Once(ts);
      assert ts == ts[..l] + [ts[l]];
      forall i, j, k | 0 <= i < j < |all| && 0 <= k < |ts| && ts[k] == all[j]
        ensures all[i] in ts[..k]
      {
        if j < |before| && k < l {
          assert ts[..l][..k] == ts[..k] && before[i] in ts[..l][..k];
        } else {
          assert all[i] == before[i] && before[i] in ts[..l];
          assert k == l;
        }
      }
    }
  }

  lemma {:induction false} OnceAppend(ts: seq<NodeType>, t: NodeType)
    ensures Once(ts + [t]) == OnceMore(Once(ts), t)
  {
    assert (ts + [t])[..|ts|] == ts;
  }

  function TermsOf(next: seq<MatchEdge>): (ts: seq<NodeType>)
    ensures |ts| == |next| && forall j | 0 <= j < |next| :: ts[j] == next[j].term
  {
    seq(|next|, j requires 0 <= j < |next| => next[j].term)
  }

  /** State `s`, made for the set `key`, has the right end flag and the right edges. */
  ghost predicate StateRight(g: Graph, keys: seq<seq<nat>>, key: seq<nat>, s: MatchState) {
    && (s.validEnd <==> |g| > 0 && |g| - 1 in key)
    && (forall e | e in s.next :: EdgeRight(g, keys, key, e))
    && Covered(g, key, s)
    && Deterministic(s.next)
    && TermsOf(s.next) == Once(TypesOut(g, key))
  }

  /** No type leads to two places. */
  predicate Deterministic(next: seq<MatchEdge>) {
    forall i, j | 0 <= i < j < |next| :: next[i].term != next[j].term
  }

  ghost predicate BuiltFor(g: Graph, m: Matcher, keys: seq<seq<nat>>) {
    && |m| == |keys| > 0
    && (forall q: nat :: q in keys[0] <==> InClosure(g, 0, q))
    && forall i | 0 <= i < |m| :: KeyFor(g, keys[i]) && StateRight(g, keys, keys[i], m[i])
  }

  // ----- grouping the edges out of a set by type -----

  datatype Group = Group(term: NodeType, states: seq<nat>)

  function GroupTerms(gs: seq<Group>): (ts: seq<NodeType>)
    ensures |ts| == |gs| && forall j | 0 <= j < |gs| :: ts[j] == gs[j].term
  {
    seq(|gs|, j requires 0 <= j < |gs| => gs[j].term)
  }

  ghost predicate InGroups(gs: seq<Group>, t: NodeType, q: nat) {
    exists j :: 0 <= j < |gs| && gs[j].term == t && q in gs[j].states
  }

  predicate NoRepeats(s: seq<nat>) {
    forall i, j | 0 <= i < j < |s| :: s[i] != s[j]
  }

  ghost predicate GroupsOk(gs: seq<Group>) {
    && (forall i, j | 0 <= i < j < |gs| :: gs[i].term != gs[j].term)
    && forall j | 0 <= j < |gs| :: NoRepeats(gs[j].states)
  }

  lemma {:induction false} TermsAdded(gs: seq<Group>, t: NodeType)
    ensures GroupTerms(gs + [Group(t, [])]) == GroupTerms(gs) + [t]
  {
  }

  lemma {:induction false} TermsKept(gs: seq<Group>, f: nat, states: seq<nat>)
    requires f < |gs|
    ensures GroupTerms(gs[f := Group(gs[f].term, states)]) == GroupTerms(gs)
  {
  }

  lemma {:induction false} FoundOrNot(gs: seq<Group>, t: NodeType, f: nat)
    requires f <= |gs| && forall j | 0 <= j < f :: gs[j].term != t
    requires f < |gs| ==> gs[f].term == t
    ensures t in GroupTerms(gs) <==> f < |gs|
  {
    assert f < |gs| ==> GroupTerms(gs)[f] == t;
  }

  /** Adds the states `c`, reached under `t`, to the group of `t`. */
  method AddToGroup(gs: seq<Group>, t: NodeType, c: seq<nat>) returns (gs': seq<Group>)
    requires GroupsOk(gs) && c != []
    ensures GroupsOk(gs') && GroupTerms(gs') == OnceMore(GroupTerms(gs), t)
    ensures forall u, q: nat :: InGroups(gs', u, q) <==> InGroups(gs, u, q) || (u == t && q in c)
  {
    gs' := gs;
    var f := 0;
    while f < |gs'| && gs'[f].term != t
      invariant 0 <= f <= |gs'|
      invariant forall j | 0 <= j < f :: gs'[j].term != t
    {
      f := f + 1;
    }
    FoundOrNot(gs, t, f);
    var i := 0;
    while i < |c|
      invariant 0 <= i <= |c|
      invariant GroupsOk(gs') && f <= |gs'|
      invariant GroupTerms(gs') == if i == 0 then GroupTerms(gs) else OnceMore(GroupTerms(gs), t)
      invariant forall j | 0 <= j < |gs'| :: gs'[j].term == t <==> j == f
      invariant forall u, q: nat :: InGroups(gs', u, q) <==> InGroups(gs, u, q) || (u == t && q in c[..i])
    {
      ghost var before := gs';
      if f == |gs'| {
        TermsAdded(gs', t);
        gs' := gs' + [Group(t, [])];
        assert forall u, q: nat | InGroups(before, u, q) :: InGroups(gs', u, q) by {
          assert forall j | 0 <= j < |before| :: gs'[j] == before[j];
        }
      }
      ghost var made := gs';
      TermsKept(gs', f, gs'[f].states + [c[i]]);
      if c[i] !in gs'[f].states {
        gs' := gs'[f := Group(t, gs'[f].states + [c[i]])];
      }
      GroupGrown(made, gs', f, t, c[i]);
      assert c[..i + 1] == c[..i] + [c[i]];
      i := i + 1;
    }
    assert c[..i] == c;
  }

  lemma {:induction false} GroupGrown(gs: seq<Group>, gs': seq<Group>, f: nat, t: NodeType, x: nat)
    requires f < |gs| == |gs'| && gs[f].term == t
    requires gs' == (if x in gs[f].states then gs else gs[f := Group(t, gs[f].states + [x])])
    ensures forall u, q: nat :: InGroups(gs', u, q) <==> InGroups(gs, u, q) || (u == t && q == x)
  {
    forall u, q: nat
      ensures InGroups(gs', u, q) <==> InGroups(gs, u, q) || (u == t && q == x)
    {
      if InGroups(gs, u, q) {
        var j :| 0 <= j < |gs| && gs[j].term == u && q in gs[j].states;
        assert gs'[j].term == u && q in gs'[j].states;
      }
      if u == t && q == x {
        assert gs'[f].term == u && q in gs'[f].states;
      }
      if InGroups(gs', u, q) {
        var j :| 0 <= j < |gs'| && gs'[j].term == u && q in gs'[j].states;
        assert j != f ==> gs[j] == gs'[j];
      }
    }
  }

  /** Like InStep, counting only the first `n` states and the first `i` edges of the next one. */
  ghost predicate StepSoFar(g: Graph, key: seq<nat>, n: nat, i: nat, t: NodeType, q: nat) {
    exists m: nat, k: nat :: m < |key| && (m < n || (m == n && k < i)) && StepsVia(g, key[m], k, t, q)
  }

  method GroupEdge(g: Graph, p: nat, i: nat, gs: seq<Group>) returns (gs': seq<Group>)
    requires Closed(g) && !Spins(g) && IsEdge(g, p, i) && GroupsOk(gs)
    ensures GroupsOk(gs')
    ensures GroupTerms(gs') ==
            if g[p][i].term.Some? then OnceMore(GroupTerms(gs), g[p][i].term.value) else GroupTerms(gs)
    ensures forall t, q: nat :: InGroups(gs', t, q) <==> InGroups(gs, t, q) || StepsVia(g, p, i, t, q)
  {
    gs' := gs;
    var edge := g[p][i];
    if edge.term.Some? {
      var c := Close(g, edge.to.value);
      gs' := AddToGroup(gs, edge.term.value, c);
    }
  }

  lemma {:induction false} EdgeTypesNext(edges: seq<Edge>, i: nat, ts: seq<NodeType>)
    requires i < |edges|
    ensures Once(ts + EdgeTypes(edges[..i + 1])) ==
            if edges[i].term.Some? then OnceMore(Once(ts + EdgeTypes(edges[..i])), edges[i].term.value)
            else Once(ts + EdgeTypes(edges[..i]))
  {
    assert edges[..i + 1][..i] == edges[..i];
    if edges[i].term.Some? {
      var t := edges[i].term.value;
      assert ts + (EdgeTypes(edges[..i]) + [t]) == ts + EdgeTypes(edges[..i]) + [t];
      OnceAppend(ts + EdgeTypes(edges[..i]), t);
    } else {
      assert EdgeTypes(edges[..i]) + [] == EdgeTypes(edges[..i]);
    }
  }

  lemma {:induction false} TypesNext(g: Graph, key: seq<nat>, n: nat)
    requires n < |key| && key[n] < |g|
    ensures TypesOut(g, key[..n + 1]) == TypesOut(g, key[..n]) + EdgeTypes(g[key[n]][..|g[key[n]]|])
  {
    assert key[..n + 1][..n] == key[..n];
    assert g[key[n]][..|g[key[n]]|] == g[key[n]];
  }

  lemma {:induction false} NoTypesYet(ts: seq<NodeType>, edges: seq<Edge>)
    ensures ts + EdgeTypes(edges[..0]) == ts
  {
  }

  method GroupEdges(g: Graph, key: seq<nat>) returns (gs: seq<Group>)
    requires Closed(g) && !Spins(g) && KeyFor(g, key)
    ensures GroupsOk(gs) && GroupTerms(gs) == Once(TypesOut(g, key))
    ensures forall t, q: nat :: InGroups(gs, t, q) <==> InStep(g, key, t, q)
  {
    gs := [];
    var n := 0;
    while n < |key|
      invariant 0 <= n <= |key| && GroupsOk(gs)
      invariant GroupTerms(gs) == Once(TypesOut(g, key[..n]))
      invariant forall t, q: nat :: InGroups(gs, t, q) <==> StepSoFar(g, key, n, 0, t, q)
    {
      var p := key[n];
      assert p in key;
      NoTypesYet(TypesOut(g, key[..n]), g[p]);
      var i := 0;
      while i < |g[p]|
        invariant 0 <= i <= |g[p]| && GroupsOk(gs)
        invariant GroupTerms(gs) == Once(TypesOut(g, key[..n]) + EdgeTypes(g[p][..i]))
        invariant forall t, q: nat :: InGroups(gs, t, q) <==> StepSoFar(g, key, n, i, t, q)
      {
        ghost var before := gs;
        EdgeTypesNext(g[p], i, TypesOut(g, key[..n]));
        gs := GroupEdge(g, p, i, gs);
        StepsNextEdge(g, key, n, i);
        forall t, q: nat
          ensures InGroups(gs, t, q) <==> StepSoFar(g, key, n, i + 1, t, q)
        {
          assert InGroups(gs, t, q) <==> InGroups(before, t, q) || StepsVia(g, p, i, t, q);
        }
        i := i + 1;
      }
      StepsNextState(g, key, n, i);
      TypesNext(g, key, n);
      n := n + 1;
    }
    assert key[..n] == key;
    assert forall t, q: nat :: StepSoFar(g, key, n, 0, t, q) <==> InStep(g, key, t, q);
  }

  lemma {:induction false} StepsNextEdge(g: Graph, key: seq<nat>, n: nat, i: nat)
    requires n < |key| && IsEdge(g, key[n], i)
    ensures forall t, q: nat :: StepSoFar(g, key, n, i + 1, t, q) <==>
                                StepSoFar(g, key, n, i, t, q) || StepsVia(g, key[n], i, t, q)
  {
  }

  lemma {:induction false} StepsNextState(g: Graph, key: seq<nat>, n: nat, i: nat)
    requires n < |key| && key[n] < |g| && i == |g[key[n]]|
    ensures forall t, q: nat :: StepSoFar(g, key, n + 1, 0, t, q) <==> StepSoFar(g, key, n, i, t, q)
  {
  }
}
