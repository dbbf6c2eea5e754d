/** The recursive exploration of the subset construction, with its table of finished sets. */
module DfaBuilder {
  import opened Nfa
  import opened NfaCorrect
  import opened Closure
  import opened Dfa

  // ----- there are finitely many sets to explore -----

  predicate StrictlyDescending(t: seq<nat>) {
    forall i, j | 0 <= i < j < |t| :: t[i] > t[j]
  }

  ghost function SortedKeys(n: nat): set<seq<nat>> {
    if n == 0 then {[]} else
      var smaller := SortedKeys(n - 1);
      smaller + set s | s in smaller :: [n - 1] + s
  }

  lemma {:induction false} EmptyKey(n: nat)
    ensures [] in SortedKeys(n)
  {
    if n > 0 {
      EmptyKey(n - 1);
    }
  }

  lemma {:induction false} InSortedKeys(n: nat, t: seq<nat>)
    requires StrictlyDescending(t) && forall q | q in t :: q < n
    ensures t in SortedKeys(n)
  {
    if t == [] {
      EmptyKey(n);
    } else if t[0] == n - 1 {
      assert t[0] in t;
      forall q | q in t[1..]
        ensures q < n - 1
      {
      }
      InSortedKeys(n - 1, t[1..]);
      assert t == [n - 1] + t[1..];
    } else {
      assert t[0] in t;
      forall q | q in t
        ensures q < n - 1
      {
        var i :| 0 <= i < |t| && t[i] == q;
      }
      InSortedKeys(n - 1, t);
    }
  }

  lemma {:induction false} SortedGroup(s: seq<nat>, t: seq<nat>)
    requires NoRepeats(s) && Descending(t) && multiset(t) == multiset(s)
    ensures StrictlyDescending(t)
    ensures forall q: nat :: q in t <==> q in s
  {
    assert forall q: nat :: (q in t <==> q in multiset(t)) && (q in s <==> q in multiset(s));
    forall i, j | 0 <= i < j < |t|
      ensures t[i] > t[j]
    {
      if t[i] == t[j] {
        Twice(t, i, j);
        NeverTwice(s, t[i]);
      }
    }
  }

  lemma {:induction false} Twice(t: seq<nat>, i: nat, j: nat)
    requires i < j < |t| && t[i] == t[j]
    ensures multiset(t)[t[i]] >= 2
  {
    assert t == t[..j] + t[j..];
    assert t[i] in multiset(t[..j]) && t[j] in multiset(t[j..]) by {
      assert t[..j][i] == t[i] && t[j..][0] == t[j];
    }
  }

  lemma {:induction false} NeverTwice(s: seq<nat>, q: nat)
    requires NoRepeats(s)
    ensures multiset(s)[q] <= 1
  {
    if s != [] {
      assert s == [s[0]] + s[1..];
      NeverTwice(s[1..], q);
      if q == s[0] {
        assert q !in s[1..];
        assert q !in multiset(s[1..]);
      }
    }
  }

  ghost predicate GroupsFor(g: Graph, key: seq<nat>, gs: seq<Group>) {
    && GroupTerms(gs) == Once(TypesOut(g, key))
    && forall t, q: nat :: InGroups(gs, t, q) <==> InStep(g, key, t, q)
  }

  lemma {:induction false} GroupKey(g: Graph, key: seq<nat>, gs: seq<Group>, o: nat, l: seq<nat>)
    requires GroupsOk(gs) && o < |gs|
    requires GroupsFor(g, key, gs)
    requires Descending(l) && multiset(l) == multiset(gs[o].states)
    ensures StrictlyDescending(l) && KeyFor(g, l)
    ensures forall q: nat :: q in l <==> InStep(g, key, gs[o].term, q)
  {
    SortedGroup(gs[o].states, l);
    forall q: nat
      ensures q in l <==> InStep(g, key, gs[o].term, q)
    {
      if InGroups(gs, gs[o].term, q) {
        var j :| 0 <= j < |gs| && gs[j].term == gs[o].term && q in gs[j].states;
        assert j == o;
      }
    }
  }

  lemma {:induction false} CoveredByGroups(g: Graph, key: seq<nat>, gs: seq<Group>, s: MatchState)
    requires GroupsFor(g, key, gs)
    requires |s.next| == |gs| && forall j | 0 <= j < |gs| :: s.next[j].term == gs[j].term
    ensures Covered(g, key, s)
  {
    forall t, q: nat | InStep(g, key, t, q)
      ensures exists e :: e in s.next && e.term == t
    {
      assert InGroups(gs, t, q);
      var j :| 0 <= j < |gs| && gs[j].term == t && q in gs[j].states;
      assert s.next[j] in s.next;
    }
  }

  ghost predicate RightFrom(g: Graph, states: Matcher, keys: seq<seq<nat>>, n: nat) {
    |states| == |keys| && forall i | n <= i < |states| :: StateRight(g, keys, keys[i], states[i])
  }

  /** A state under construction: its first `o` edges are those of the first `o` groups. */
  ghost predicate PartlyRight(g: Graph, keys: seq<seq<nat>>, key: seq<nat>, s: MatchState, gs: seq<Group>, o: nat) {
    && (s.validEnd <==> |g| > 0 && |g| - 1 in key)
    && |s.next| == o <= |gs|
    && forall j | 0 <= j < o :: s.next[j].term == gs[j].term && EdgeRight(g, keys, key, s.next[j])
  }

  lemma {:induction false} EdgeGrown(g: Graph, keys: seq<seq<nat>>, keys': seq<seq<nat>>, key: seq<nat>, e: MatchEdge)
    requires keys <= keys' && EdgeRight(g, keys, key, e)
    ensures EdgeRight(g, keys', key, e)
  {
  }

  lemma {:induction false} PartGrown(g: Graph, keys: seq<seq<nat>>, keys': seq<seq<nat>>, key: seq<nat>, s: MatchState,
          gs: seq<Group>, o: nat, target: nat)
    requires keys <= keys' && o < |gs| && PartlyRight(g, keys, key, s, gs, o)
    requires EdgeRight(g, keys', key, MatchEdge(gs[o].term, target))
    ensures PartlyRight(g, keys', key, s.(next := s.next + [MatchEdge(gs[o].term, target)]), gs, o + 1)
  {
    forall j | 0 <= j < o
      ensures EdgeRight(g, keys', key, s.next[j])
    {
      EdgeGrown(g, keys, keys', key, s.next[j]);
    }
  }

  lemma {:induction false} RightGrown(g: Graph, states: Matcher, states': Matcher, keys: seq<seq<nat>>,
          keys': seq<seq<nat>>, n: nat)
    requires states <= states' && keys <= keys'
    requires RightFrom(g, states, keys, n) && RightFrom(g, states', keys', |states|)
    ensures RightFrom(g, states', keys', n)
  {
    forall i | n <= i < |states|
      ensures StateRight(g, keys', keys'[i], states'[i])
    {
      forall e | e in states[i].next
        ensures EdgeRight(g, keys', keys[i], e)
      {
        EdgeGrown(g, keys, keys', keys[i], e);
      }
    }
  }

  lemma {:induction false} RightElsewhere(g: Graph, states: Matcher, keys: seq<seq<nat>>, id: nat, s: MatchState)
    requires id < |states| && RightFrom(g, states, keys, id + 1)
    ensures RightFrom(g, states[id := s], keys, id + 1)
  {
  }

  /** A state with an edge for every group is done. */
  lemma {:induction false} Finished(g: Graph, states: Matcher, keys: seq<seq<nat>>, id: nat, gs: seq<Group>)
    requires id < |states| == |keys| && RightFrom(g, states, keys, id + 1) && GroupsOk(gs)
    requires GroupsFor(g, keys[id], gs) && PartlyRight(g, keys, keys[id], states[id], gs, |gs|)
    ensures RightFrom(g, states, keys, id)
  {
    var key, s := keys[id], states[id];
    CoveredByGroups(g, key, gs, s);
    forall e | e in s.next
      ensures EdgeRight(g, keys, key, e)
    {
      var j :| 0 <= j < |s.next| && s.next[j] == e;
    }
    assert TermsOf(s.next) == GroupTerms(gs);
    assert StateRight(g, keys, key, s);
  }

  // ----- the exploration -----

  class Explorer {
    const g: Graph
    var states: Matcher
    var table: map<seq<nat>, nat>
    ghost var keys: seq<seq<nat>>

    constructor (g: Graph)
      ensures this.g == g && states == [] && table == map[] && keys == []
    {
      this.g := g;
      states, table, keys := [], map[], [];
    }

    ghost predicate Valid()
      reads this
    {
      && |states| == |keys|
      && (forall k | k in table :: table[k] < |keys| && keys[table[k]] == k)
      && (forall i | 0 <= i < |keys| :: keys[i] in table && KeyFor(g, keys[i]))
    }

    /** A new state for `key`, entered in the table before its edges are known. */
    method Begin(key: seq<nat>) returns (id: nat)
      requires Valid() && key !in table && KeyFor(g, key)
      modifies this
      ensures Valid() && id == old(|states|) && keys == old(keys) + [key]
      ensures states == old(states) + [MatchState(|g| > 0 && |g| - 1 in key, [])]
      ensures table.Keys == old(table.Keys) + {key}
    {
      id := |states|;
      states := states + [MatchState(|g| > 0 && |g| - 1 in key, [])];
      table := table[key := id];
      keys := keys + [key];
    }

    /** The exploration of a set: adds a state for it, and for every set first met on the way. */
    method Explore(key: seq<nat>, ghost all: set<seq<nat>>) returns (id: nat)
      requires Valid() && Closed(g) && !Spins(g)
      requires key in all && key !in table && KeyFor(g, key)
      requires SortedKeys(|g|) <= all
      modifies this
      ensures Valid()
      ensures old(states) <= states && old(keys) <= keys && old(table.Keys) <= table.Keys
      ensures id == old(|states|) < |states| && keys[id] == key
      ensures RightFrom(g, states, keys, old(|states|))
      decreases |all - table.Keys|, 0
    {
      var groups := GroupEdges(g, key);
      id := Begin(key);
      assert key in all - old(table.Keys) && key !in all - table.Keys;
      Shrinks(all - table.Keys, all - old(table.Keys));
      var o := 0;
      while o < |groups|
        invariant 0 <= o <= |groups|
        invariant Valid() && id < |states| && keys[id] == key
        invariant old(states) <= states && old(keys) <= keys && old(table.Keys) <= table.Keys
        invariant |all - table.Keys| < |all - old(table.Keys)|
        invariant RightFrom(g, states, keys, id + 1)
        invariant PartlyRight(g, keys, key, states[id], groups, o)
      {
        AddTarget(id, groups, o, all);
        o := o + 1;
      }
      Finished(g, states, keys, id, groups);
    }

    /** Gives state `id` its edge for the next group. */
    method AddTarget(id: nat, groups: seq<Group>, o: nat, ghost all: set<seq<nat>>)
      requires Valid() && Closed(g) && !Spins(g) && SortedKeys(|g|) <= all
      requires id < |states| && o < |groups| && GroupsOk(groups)
      requires GroupsFor(g, keys[id], groups)
      requires RightFrom(g, states, keys, id + 1) && PartlyRight(g, keys, keys[id], states[id], groups, o)
      modifies this
      ensures Valid() && id < |states|
      ensures old(states[..id]) <= states && old(keys) <= keys && old(table.Keys) <= table.Keys
      ensures |all - table.Keys| <= old(|all - table.Keys|)
      ensures RightFrom(g, states, keys, id + 1) && PartlyRight(g, keys, keys[id], states[id], groups, o + 1)
      decreases |all - table.Keys|, 2
    {
      var l := SortDescending(groups[o].states);
      GroupKey(g, keys[id], groups, o, l);
      InSortedKeys(|g|, l);
      var target := Target(l, id + 1, all);
      PartGrown(g, old(keys), keys, keys[id], states[id], groups, o, target);
      Shrinks(all - table.Keys, all - old(table.Keys));
      var grown := states[id].(next := states[id].next + [MatchEdge(groups[o].term, target)]);
      RightElsewhere(g, states, keys, id, grown);
      states := states[id := grown];
    }

    /** The state for a set: the one in the table, or a newly explored one. */
    method Target(l: seq<nat>, n: nat, ghost all: set<seq<nat>>) returns (id: nat)
      requires Valid() && Closed(g) && !Spins(g)
      requires l in all && KeyFor(g, l) && SortedKeys(|g|) <= all
      requires n <= |states| && RightFrom(g, states, keys, n)
      modifies this
      ensures Valid()
      ensures old(states) <= states && old(keys) <= keys && old(table.Keys) <= table.Keys
      ensures id < |keys| && keys[id] == l
      ensures RightFrom(g, states, keys, n)
      decreases |all - table.Keys|, 1
    {
      if l in table {
        id := table[l];
      } else {
        id := Explore(l, all);
        RightGrown(g, old(states), states, old(keys), keys, n);
      }
    }
  }

  /** The whole construction, started from the closure of state 0. */
  method BuildMatcher(g: Graph) returns (m: Matcher)
    requires Closed(g) && !Spins(g)
    ensures exists keys :: BuiltFor(g, m, keys)
  {
    var start := Close(g, 0);
    var x := new Explorer(g);
    var id := x.Explore(start, SortedKeys(|g|) + {start});
    m := x.states;
    assert BuiltFor(g, m, x.keys);
  }
}
