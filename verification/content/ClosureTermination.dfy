/** The closure of every state is computed in finitely many calls exactly when no state spins. */
module ClosureTermination {
  import opened Options
  import opened Nfa
  import opened NfaCorrect
  import opened Closure

  /** The recursion of the closure, given up when it gets `depth` calls deep. */
  function VisitWithin(g: Graph, p: nat, t: seq<nat>, depth: nat): Option<seq<nat>>
    requires Closed(g) && p < |g|
    decreases depth, 0
  {
    if depth == 0 then None
    else if Single(g, p) then VisitWithin(g, g[p][0].to.value, t, depth - 1)
    else EdgesWithin(g, p, 0, t + [p], depth - 1)
  }

  function EdgesWithin(g: Graph, p: nat, k: nat, t: seq<nat>, depth: nat): Option<seq<nat>>
    requires Closed(g) && p < |g| && k <= |g[p]|
    decreases depth, 1 + |g[p]| - k
  {
    if k == |g[p]| then Some(t)
    else if g[p][k].term.None? && g[p][k].to.value !in t then
      match VisitWithin(g, g[p][k].to.value, t, depth)
      case None => None
      case Some(t') => EdgesWithin(g, p, k + 1, t', depth)
    else EdgesWithin(g, p, k + 1, t, depth)
  }

  // ----- a spinning state is never done -----

  lemma {:induction false} BoundAll(g: Graph, p: nat, k: nat) returns (n: nat)
    requires Closed(g) && p < |g| && k <= |g[p]|
    requires forall j: nat | j < k && Unchecked(g, p, j) :: !SpinsAt(g, g[p][j].to.value)
    ensures forall j: nat | j < k && Unchecked(g, p, j) :: !Chain(g, g[p][j].to.value, n)
  {
    n := 0;
    if k > 0 {
      n := BoundAll(g, p, k - 1);
      if Unchecked(g, p, k - 1) {
        var q := g[p][k - 1].to.value;
        assert !SpinsAt(g, q);
        var m: nat :| !Chain(g, q, m);
        var big := if m > n then m else n;
        forall j: nat | j < k && Unchecked(g, p, j)
          ensures !Chain(g, g[p][j].to.value, big)
        {
          var small := if j < k - 1 then n else m;
          if Chain(g, g[p][j].to.value, big) {
            ChainShorter(g, g[p][j].to.value, big, small);
          }
        }
        n := big;
      }
    }
  }

  lemma {:induction false} SpinHop(g: Graph, p: nat) returns (k: nat)
    requires Closed(g) && p < |g| && SpinsAt(g, p)
    ensures Unchecked(g, p, k) && SpinsAt(g, g[p][k].to.value)
  {
    if forall j: nat | j < |g[p]| && Unchecked(g, p, j) :: !SpinsAt(g, g[p][j].to.value) {
      var n := BoundAll(g, p, |g[p]|);
      assert Chain(g, p, n + 1);
    }
    k :| k < |g[p]| && Unchecked(g, p, k) && SpinsAt(g, g[p][k].to.value);
  }

  lemma {:induction false} VisitDiverges(g: Graph, p: nat, t: seq<nat>, depth: nat)
    requires Closed(g) && p < |g| && SpinsAt(g, p) && Recorded(g, t)
    ensures VisitWithin(g, p, t, depth) == None
    decreases depth, 0
  {
    if depth > 0 {
      var k := SpinHop(g, p);
      if Single(g, p) {
        VisitDiverges(g, g[p][0].to.value, t, depth - 1);
      } else {
        EdgesDiverge(g, p, 0, t + [p], depth - 1, k);
      }
    }
  }

  lemma {:induction false} EdgesDiverge(g: Graph, p: nat, k: nat, t: seq<nat>, depth: nat, hop: nat)
    requires Closed(g) && p < |g| && !Single(g, p) && Recorded(g, t)
    requires k <= hop && Unchecked(g, p, hop) && SpinsAt(g, g[p][hop].to.value)
    ensures EdgesWithin(g, p, k, t, depth) == None
    decreases depth, 1 + |g[p]| - k
  {
    if k == hop {
      VisitDiverges(g, g[p][k].to.value, t, depth);
    } else if g[p][k].term.None? && g[p][k].to.value !in t {
      VisitRecords(g, g[p][k].to.value, t, depth);
      match VisitWithin(g, g[p][k].to.value, t, depth)
      case None =>
      case Some(t') => EdgesDiverge(g, p, k + 1, t', depth, hop);
    } else {
      EdgesDiverge(g, p, k + 1, t, depth, hop);
    }
  }

  lemma {:induction false} VisitRecords(g: Graph, p: nat, t: seq<nat>, depth: nat)
    requires Closed(g) && p < |g| && Recorded(g, t)
    ensures var r := VisitWithin(g, p, t, depth); r.Some? ==> t <= r.value && Recorded(g, r.value)
    decreases depth, 0
  {
    if depth > 0 {
      if Single(g, p) {
        VisitRecords(g, g[p][0].to.value, t, depth - 1);
      } else {
        EdgesRecord(g, p, 0, t + [p], depth - 1);
      }
    }
  }

  lemma {:induction false} EdgesRecord(g: Graph, p: nat, k: nat, t: seq<nat>, depth: nat)
    requires Closed(g) && p < |g| && k <= |g[p]| && Recorded(g, t)
    ensures var r := EdgesWithin(g, p, k, t, depth); r.Some? ==> t <= r.value && Recorded(g, r.value)
    decreases depth, 1 + |g[p]| - k
  {
    if k < |g[p]| {
      if g[p][k].term.None? && g[p][k].to.value !in t {
        VisitRecords(g, g[p][k].to.value, t, depth);
        match VisitWithin(g, g[p][k].to.value, t, depth)
        case None =>
        case Some(t') => EdgesRecord(g, p, k + 1, t', depth);
      } else {
        EdgesRecord(g, p, k + 1, t, depth);
      }
    }
  }

  // ----- without a spinning state every call is done -----

  lemma {:induction false} VisitDeeper(g: Graph, p: nat, t: seq<nat>, depth: nat, more: nat)
    requires Closed(g) && p < |g| && depth <= more && VisitWithin(g, p, t, depth).Some?
    ensures VisitWithin(g, p, t, more) == VisitWithin(g, p, t, depth)
    decreases depth, 0
  {
    if Single(g, p) {
      VisitDeeper(g, g[p][0].to.value, t, depth - 1, more - 1);
    } else {
      EdgesDeeper(g, p, 0, t + [p], depth - 1, more - 1);
    }
  }

  lemma {:induction false} EdgesDeeper(g: Graph, p: nat, k: nat, t: seq<nat>, depth: nat, more: nat)
    requires Closed(g) && p < |g| && k <= |g[p]| && depth <= more && EdgesWithin(g, p, k, t, depth).Some?
    ensures EdgesWithin(g, p, k, t, more) == EdgesWithin(g, p, k, t, depth)
    decreases depth, 1 + |g[p]| - k
  {
    if k < |g[p]| {
      if g[p][k].term.None? && g[p][k].to.value !in t {
        VisitDeeper(g, g[p][k].to.value, t, depth, more);
        EdgesDeeper(g, p, k + 1, VisitWithin(g, g[p][k].to.value, t, depth).value, depth, more);
      } else {
        EdgesDeeper(g, p, k + 1, t, depth, more);
      }
    }
  }

  lemma {:induction false} VisitEnds(g: Graph, p: nat, t: seq<nat>) returns (depth: nat)
    requires Closed(g) && !Spins(g) && p < |g| && Recorded(g, t)
    ensures VisitWithin(g, p, t, depth).Some?
    decreases |Unvisited(g, t) - {p}|, Depth(g, p), 0
  {
    if Single(g, p) {
      var q := g[p][0].to.value;
      HopDescends(g, p, 0);
      Shrinks(Unvisited(g, t) - {q}, Unvisited(g, t) - {p});
      depth := VisitEnds(g, q, t);
      depth := depth + 1;
    } else {
      depth := EdgesEnd(g, p, 0, t, t + [p]);
      depth := depth + 1;
    }
  }

  lemma {:induction false} EdgesEnd(g: Graph, p: nat, k: nat, t0: seq<nat>, t: seq<nat>) returns (depth: nat)
    requires Closed(g) && !Spins(g) && p < |g| && !Single(g, p) && k <= |g[p]|
    requires t0 + [p] <= t && Recorded(g, t)
    ensures EdgesWithin(g, p, k, t, depth).Some?
    decreases |Unvisited(g, t0) - {p}|, Depth(g, p), 0, |g[p]| - k
  {
    depth := 0;
    if k < |g[p]| {
      if g[p][k].term.None? && g[p][k].to.value !in t {
        VisitDescends(g, p, k, t0, t);
        var d1 := VisitEnds(g, g[p][k].to.value, t);
        VisitRecords(g, g[p][k].to.value, t, d1);
        var t' := VisitWithin(g, g[p][k].to.value, t, d1).value;
        var d2 := EdgesEnd(g, p, k + 1, t0, t');
        depth := if d1 > d2 then d1 else d2;
        VisitDeeper(g, g[p][k].to.value, t, d1, depth);
        EdgesDeeper(g, p, k + 1, t', d2, depth);
      } else {
        depth := EdgesEnd(g, p, k + 1, t0, t);
      }
    }
  }

  ghost predicate ClosureEnds(g: Graph, p: nat)
    requires Closed(g) && p < |g|
  {
    exists depth: nat :: VisitWithin(g, p, [], depth).Some?
  }

  /** Exactly the graphs without a spinning state let the closure of every state be computed. */
  lemma {:induction false} ClosureEndsIff(g: Graph)
    requires Closed(g)
    ensures !Spins(g) <==> forall p: nat | p < |g| :: ClosureEnds(g, p)
  {
    if Spins(g) {
      var p: nat :| p < |g| && SpinsAt(g, p);
      forall depth: nat
        ensures VisitWithin(g, p, [], depth) == None
      {
        VisitDiverges(g, p, [], depth);
      }
      assert !ClosureEnds(g, p);
    } else {
      forall p: nat | p < |g|
        ensures ClosureEnds(g, p)
      {
        var depth := VisitEnds(g, p, []);
      }
    }
  }

  // ----- spinning can be found by looking |g| hops ahead -----

  ghost function NoDeeper(g: Graph, p: nat): set<nat>
    requires !Spins(g) && p < |g|
  {
    set q: nat | q < |g| && Depth(g, q) <= Depth(g, p)
  }

  lemma {:induction false} ChainCounts(g: Graph, p: nat, n: nat)
    requires Closed(g) && !Spins(g) && p < |g| && Chain(g, p, n)
    ensures n < |NoDeeper(g, p)|
    decreases n
  {
    assert p in NoDeeper(g, p);
    if n > 0 {
      var k: nat :| Unchecked(g, p, k) && Chain(g, g[p][k].to.value, n - 1);
      var q := g[p][k].to.value;
      HopDescends(g, p, k);
      ChainCounts(g, q, n - 1);
      Shrinks(NoDeeper(g, q), NoDeeper(g, p));
    }
  }

  lemma {:induction false} StatesBelow(n: nat) returns (s: set<nat>)
    ensures |s| == n && forall p: nat :: p in s <==> p < n
  {
    if n == 0 {
      s := {};
    } else {
      s := StatesBelow(n - 1);
      s := s + {n - 1};
    }
  }

  /** A caller can tell: a state spins somewhere just when some run of |g| unchecked hops exists. */
  lemma {:induction false} SpinsDecided(g: Graph)
    requires Closed(g)
    ensures Spins(g) <==> exists p: nat :: p < |g| && Chain(g, p, |g|)
  {
    if !Spins(g) {
      forall p: nat | p < |g|
        ensures !Chain(g, p, |g|)
      {
        if Chain(g, p, |g|) {
          ChainCounts(g, p, |g|);
          var all := StatesBelow(|g|);
          Shrinks(NoDeeper(g, p), all);
        }
      }
    } else {
      var p: nat :| p < |g| && SpinsAt(g, p);
      assert Chain(g, p, |g|);
    }
  }
}
