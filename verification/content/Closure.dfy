/**
 * The closure of a state under edges without a type (`br`), and when computing it ends.
 * A state whose only edge has no type is passed through, not recorded; such a state is never
 * found in the list of visited states, so a hop into or out of one is not checked.
 */
module Closure {
  import opened Nfa
  import opened NfaShape
  import opened NfaWalk
  import opened NfaCorrect

  predicate Single(g: Graph, p: nat) {
    p < |g| && |g[p]| == 1 && g[p][0].term.None?
  }

  /** The states `q` that closing over `p` has to find. */
  ghost predicate InClosure(g: Graph, p: nat, q: nat) {
    q < |g| && !Single(g, q) && Reaches(g, p, [], q)
  }

  // ----- termination -----

  /** Edge `k` of `p` is followed without asking whether its target was visited. */
  predicate Unchecked(g: Graph, p: nat, k: nat) {
    && IsEdge(g, p, k)
    && g[p][k].term.None?
    && g[p][k].to.Some?
    && (Single(g, p) || Single(g, g[p][k].to.value))
  }

  /** `n` unchecked hops in a row from `p`. */
  ghost predicate Chain(g: Graph, p: nat, n: nat)
    decreases n
  {
    n == 0 || exists k: nat :: Unchecked(g, p, k) && Chain(g, g[p][k].to.value, n - 1)
  }

  ghost predicate SpinsAt(g: Graph, p: nat) {
    forall n: nat :: Chain(g, p, n)
  }

  ghost predicate Spins(g: Graph) {
    exists p: nat :: p < |g| && SpinsAt(g, p)
  }

  lemma {:induction false} ChainShorter(g: Graph, p: nat, n: nat, m: nat)
    requires Chain(g, p, n) && m <= n
    ensures Chain(g, p, m)
    decreases n
  {
    if m > 0 {
      var k: nat :| Unchecked(g, p, k) && Chain(g, g[p][k].to.value, n - 1);
      ChainShorter(g, g[p][k].to.value, n - 1, m - 1);
    }
  }

  /** The length of the longest run of unchecked hops from `p`. */
  ghost function Depth(g: Graph, p: nat): (n: nat)
    requires !Spins(g) && p < |g|
    ensures Chain(g, p, n) && !Chain(g, p, n + 1)
  {
    assert !SpinsAt(g, p);
    var m: nat :| !Chain(g, p, m);
    DepthBelow(g, p, m)
  }

  ghost function DepthBelow(g: Graph, p: nat, m: nat): (n: nat)
    requires !Chain(g, p, m)
    ensures Chain(g, p, n) && !Chain(g, p, n + 1)
  {
    if Chain(g, p, m - 1) then m - 1 else DepthBelow(g, p, m - 1)
  }

  lemma {:induction false} ChainBlocked(g: Graph, p: nat, k: nat, n: nat)
    requires Unchecked(g, p, k) && !Chain(g, p, n + 1)
    ensures !Chain(g, g[p][k].to.value, n)
  {
  }

  lemma {:induction false} HopDescends(g: Graph, p: nat, k: nat)
    requires Closed(g) && !Spins(g) && Unchecked(g, p, k)
    ensures Depth(g, g[p][k].to.value) < Depth(g, p)
  {
    var q := g[p][k].to.value;
    var d := Depth(g, p);
    ChainBlocked(g, p, k, d);
    if Depth(g, q) >= d {
      ChainShorter(g, q, Depth(g, q), d);
    }
  }

  ghost function Unvisited(g: Graph, t: seq<nat>): set<nat> {
    set p: nat | p < |g| && !Single(g, p) && p !in t
  }

  lemma {:induction false} Shrinks<T>(a: set<T>, b: set<T>)
    requires a <= b
    ensures |a| <= |b|
    ensures a != b ==> |a| < |b|
  {
    assert b == a + (b - a);
  }

  // ----- the traversal -----

  /** Where following `p` through single states ends. */
  ghost function End(g: Graph, p: nat): nat
    requires Closed(g) && !Spins(g) && p < |g|
    decreases Depth(g, p)
  {
    if Single(g, p) then
      HopDescends(g, p, 0);
      End(g, g[p][0].to.value)
    else p
  }

  /** Everything hanging off the states listed from position `n` on is listed too. */
  ghost predicate Settled(g: Graph, t: seq<nat>, n: nat)
    requires Closed(g) && !Spins(g)
  {
    forall j, k: nat | n <= j < |t| && IsEdge(g, t[j], k) && g[t[j]][k].term.None? ::
      End(g, g[t[j]][k].to.value) in t
  }

  ghost predicate Found(g: Graph, p: nat, t: seq<nat>, n: nat) {
    forall j | n <= j < |t| :: InClosure(g, p, t[j])
  }

  /** Only states that are not passed through get recorded. */
  ghost predicate Recorded(g: Graph, t: seq<nat>) {
    forall q | q in t :: q < |g| && !Single(g, q)
  }

  lemma {:induction false} FoundVia(g: Graph, p: nat, k: nat, t: seq<nat>, n: nat)
    requires IsEdge(g, p, k) && g[p][k].term.None? && g[p][k].to.Some?
    requires Found(g, g[p][k].to.value, t, n)
    ensures Found(g, p, t, n)
  {
    forall j | n <= j < |t|
      ensures InClosure(g, p, t[j])
    {
      assert InClosure(g, g[p][k].to.value, t[j]);
      ReachesEdge(g, p, k);
      ReachesThen(g, p, [], g[p][k].to.value, [], t[j]);
    }
  }

  /** Why the recursion through edge `k` of `p` is on smaller ground. */
  lemma {:induction false} VisitDescends(g: Graph, p: nat, k: nat, t: seq<nat>, t': seq<nat>)
    requires Closed(g) && !Spins(g) && !Single(g, p)
    requires IsEdge(g, p, k) && g[p][k].term.None?
    requires t + [p] <= t' && g[p][k].to.value !in t'
    ensures var q := g[p][k].to.value;
      && |Unvisited(g, t') - {q}| <= |Unvisited(g, t) - {p}|
      && (|Unvisited(g, t') - {q}| == |Unvisited(g, t) - {p}| ==> Depth(g, q) < Depth(g, p))
  {
    var q := g[p][k].to.value;
    assert t'[|t|] == p;
    assert forall x | x in t :: x in t + [p];
    assert forall x | x in t :: x in t';
    Shrinks(Unvisited(g, t') - {q}, Unvisited(g, t) - {p});
    if Single(g, q) {
      HopDescends(g, p, k);
    } else {
      assert q in Unvisited(g, t') && q in Unvisited(g, t) - {p};
    }
  }

  /** Visits `p`, given the list `t` of states recorded so far. */
  method Visit(g: Graph, p: nat, t: seq<nat>) returns (t': seq<nat>)
    requires Closed(g) && !Spins(g) && p < |g| && Recorded(g, t)
    ensures t <= t' && Recorded(g, t')
    ensures Found(g, p, t', |t|)
    ensures End(g, p) in t' && Settled(g, t', |t|)
    decreases |Unvisited(g, t) - {p}|, Depth(g, p)
  {
    if |g[p]| == 1 && g[p][0].term.None? {
      var q := g[p][0].to.value;
      HopDescends(g, p, 0);
      Shrinks(Unvisited(g, t) - {q}, Unvisited(g, t) - {p});
      t' := Visit(g, q, t);
      FoundVia(g, p, 0, t', |t|);
    } else {
      t' := t + [p];
      ReachesSelf(g, p);
      var k := 0;
      while k < |g[p]|
        invariant 0 <= k <= |g[p]|
        invariant t + [p] <= t' && Recorded(g, t')
        invariant Found(g, p, t', |t|)
        invariant Settled(g, t', |t| + 1)
        invariant forall j | 0 <= j < k && g[p][j].term.None? :: End(g, g[p][j].to.value) in t'
      {
        if g[p][k].term.None? {
          if g[p][k].to.value !in t' {
            t' := VisitEdge(g, p, k, t, t');
          } else {
            assert End(g, g[p][k].to.value) == g[p][k].to.value;
          }
        }
        k := k + 1;
      }
      assert t'[|t|] == p;
    }
  }

  method VisitEdge(g: Graph, p: nat, k: nat, t0: seq<nat>, t: seq<nat>) returns (t': seq<nat>)
    requires Closed(g) && !Spins(g) && IsEdge(g, p, k) && !Single(g, p)
    requires g[p][k].term.None? && g[p][k].to.value !in t
    requires t0 + [p] <= t && Recorded(g, t) && Found(g, p, t, |t0|) && Settled(g, t, |t0| + 1)
    ensures t <= t' && Recorded(g, t') && Found(g, p, t', |t0|) && Settled(g, t', |t0| + 1)
    ensures End(g, g[p][k].to.value) in t'
    decreases |Unvisited(g, t0) - {p}|, Depth(g, p), 0
  {
    var q := g[p][k].to.value;
    VisitDescends(g, p, k, t0, t);
    t' := Visit(g, q, t);
    FoundVia(g, p, k, t', |t|);
    assert forall j | 0 <= j < |t| :: t'[j] == t[j];
  }

  lemma {:induction false} ClosureInList(g: Graph, t: seq<nat>, p: nat, path: seq<nat>, q: nat)
    requires Closed(g) && !Spins(g) && p < |g| && Settled(g, t, 0) && End(g, p) in t
    requires Walk(g, p, path, [], q) && q < |g| && !Single(g, q)
    ensures q in t
    decreases path
  {
    if path != [] {
      var edge := g[p][path[0]];
      assert edge.term.None?;
      if !Single(g, p) {
        var j :| 0 <= j < |t| && t[j] == p;
        assert IsEdge(g, t[j], path[0]);
      }
      ClosureInList(g, t, edge.to.value, path[1..], q);
    }
  }

  predicate Descending(t: seq<nat>) {
    forall i, j | 0 <= i < j < |t| :: t[i] >= t[j]
  }

  /** The library sort under the source's comparison, which puts larger numbers first. */
  method SortDescending(t: seq<nat>) returns (s: seq<nat>)
    ensures Descending(s) && multiset(s) == multiset(t)
  {
    s := [];
    var n := 0;
    while n < |t|
      invariant 0 <= n <= |t|
      invariant Descending(s) && multiset(s) == multiset(t[..n])
    {
      var i := 0;
      while i < |s| && s[i] >= t[n]
        invariant 0 <= i <= |s|
        invariant forall j | 0 <= j < i :: s[j] >= t[n]
      {
        i := i + 1;
      }
      assert s == s[..i] + s[i..];
      assert t[..n + 1] == t[..n] + [t[n]];
      s := s[..i] + [t[n]] + s[i..];
      n := n + 1;
    }
    assert t[..n] == t;
  }

  /** The sorted closure: exactly the recorded states that can be reached without a word. */
  method Close(g: Graph, p: nat) returns (s: seq<nat>)
    requires Closed(g) && !Spins(g) && p < |g|
    ensures Descending(s) && s != []
    ensures forall q: nat :: q in s <==> InClosure(g, p, q)
  {
    var t := Visit(g, p, []);
    s := SortDescending(t);
    assert End(g, p) in multiset(t);
    forall q: nat
      ensures q in s <==> InClosure(g, p, q)
    {
      assert q in s <==> q in multiset(s);
      assert q in t <==> q in multiset(t);
      if InClosure(g, p, q) {
        var path :| Walk(g, p, path, [], q);
        ClosureInList(g, t, p, path, q);
      }
    }
  }
}
