/** Searches over matchers: filling in what is missing (`fillBefore`), and wrapping (`computeWrapping`). */
module ContentMatch {
  import opened Options
  import opened ContentExpr
  import opened Closure
  import opened Dfa

  // ----- fillBefore -----

  /** From state `at` the content `after` matches, ending validly if `toEnd`. */
  predicate Fits(m: Matcher, at: nat, after: seq<NodeType>, toEnd: bool) {
    var end := MatchFrom(m, Some(at), after);
    end.Some? && (toEnd ==> end.value < |m| && m[end.value].validEnd)
  }

  ghost predicate AllIn(w: seq<NodeType>, gen: set<NodeType>) {
    forall t | t in w :: t in gen
  }

  /** `fill` is made of types in `gen`, and `after` fits behind it. */
  ghost predicate Filler(m: Matcher, gen: set<NodeType>, at: nat, fill: seq<NodeType>, after: seq<NodeType>,
          toEnd: bool)
  {
    AllIn(fill, gen) && MatchFrom(m, Some(at), fill).Some? && Fits(m, MatchFrom(m, Some(at), fill).value, after, toEnd)
  }

  lemma {:induction false} MatchThen(m: Matcher, at: Option<nat>, u: seq<NodeType>, v: seq<NodeType>)
    ensures MatchFrom(m, at, u + v) == MatchFrom(m, MatchFrom(m, at, u), v)
    decreases u
  {
    if u == [] {
      assert u + v == v;
    } else if at.Some? && at.value < |m| {
      MatchThen(m, EdgeFor(m[at.value].next, u[0]), u[1..], v);
      assert (u + v)[1..] == u[1..] + v;
    }
  }

  ghost predicate SuccessorsIn(m: Matcher, gen: set<NodeType>, x: nat, seen: seq<nat>)
    requires x < |m|
  {
    forall e | e in m[x].next && e.term in gen :: e.next in seen
  }

  /** `x` was searched in vain, and so will everything after it be. */
  ghost predicate Exhausted(m: Matcher, gen: set<NodeType>, after: seq<NodeType>, toEnd: bool, x: nat, seen: seq<nat>) {
    x < |m| && !Fits(m, x, after, toEnd) && SuccessorsIn(m, gen, x, seen)
  }

  ghost predicate Places(m: Matcher, seen: seq<nat>) {
    forall x | x in seen :: x < |m|
  }

  ghost function Unseen(m: Matcher, seen: seq<nat>): set<nat> {
    set x: nat | x < |m| && x !in seen
  }

  // ----- which filler is found -----

  /** The walk along `fill` comes to no state of `seen`, and to none twice. */
  predicate Fresh(m: Matcher, at: nat, fill: seq<NodeType>, seen: set<nat>)
    decreases fill
  {
    fill == [] ||
    (at < |m| && var q := EdgeFor(m[at].next, fill[0]);
     q.Some? && q.value !in seen && Fresh(m, q.value, fill[1..], seen + {q.value}))
  }

  /** In the order of the edges, with a part before the whole, `u` does not come after `v`. */
  predicate NotAfter(m: Matcher, at: nat, u: seq<NodeType>, v: seq<NodeType>)
    decreases u
  {
    || u == []
    || (v != [] && at < |m| && EarlierEdge(m[at].next, u[0], v[0]))
    || (v != [] && at < |m| && u[0] == v[0] && var q := EdgeFor(m[at].next, u[0]);
        q.Some? && NotAfter(m, q.value, u[1..], v[1..]))
  }

  /** Of all fillers on such walks, this is the first. */
  ghost predicate FirstFiller(m: Matcher, gen: set<NodeType>, at: nat, fill: seq<NodeType>, after: seq<NodeType>,
          toEnd: bool, seen: set<nat>)
  {
    && Filler(m, gen, at, fill, after, toEnd) && Fresh(m, at, fill, seen)
    && forall other | Filler(m, gen, at, other, after, toEnd) && Fresh(m, at, other, seen) ::
         NotAfter(m, at, fill, other)
  }

  ghost function Elements(s: seq<nat>): set<nat> {
    set x | x in s
  }

  lemma {:induction false} FreshLess(m: Matcher, at: nat, fill: seq<NodeType>, seen: set<nat>, seen': set<nat>)
    requires Fresh(m, at, fill, seen') && seen <= seen'
    ensures Fresh(m, at, fill, seen)
    decreases fill
  {
    if fill != [] {
      var q := EdgeFor(m[at].next, fill[0]).value;
      FreshLess(m, q, fill[1..], seen + {q}, seen' + {q});
    }
  }

  /** A filler that avoids what was seen before also avoids all that was searched in vain since. */
  lemma {:induction false} FreshMore(m: Matcher, gen: set<NodeType>, at: nat, fill: seq<NodeType>, after: seq<NodeType>,
          toEnd: bool, seen: seq<nat>, seen': seq<nat>, path: set<nat>)
    requires WellFormed(m) && at < |m| && at !in seen && Filler(m, gen, at, fill, after, toEnd)
    requires Fresh(m, at, fill, Elements(seen) + path)
    requires forall k | 0 <= k < |seen'| :: seen'[k] in seen || Exhausted(m, gen, after, toEnd, seen'[k], seen')
    ensures at !in seen' && Fresh(m, at, fill, Elements(seen') + path)
    decreases fill
  {
    if fill != [] {
      assert fill[0] in fill;
      assert forall t | t in fill[1..] :: t in fill;
      EdgeForIn(m[at].next, fill[0]);
      var q := EdgeFor(m[at].next, fill[0]).value;
      assert Elements(seen) + path + {q} == Elements(seen) + (path + {q});
      assert Elements(seen') + path + {q} == Elements(seen') + (path + {q});
      FreshMore(m, gen, q, fill[1..], after, toEnd, seen, seen', path + {q});
    }
  }

  /** The recursive search; `seen` is the list all calls share. */
  method Search(m: Matcher, gen: set<NodeType>, after: seq<NodeType>, toEnd: bool, at: nat, types: seq<NodeType>,
          seen: seq<nat>)
    returns (r: Option<seq<NodeType>>, seen': seq<nat>)
    requires WellFormed(m) && Places(m, seen) && at in seen
    ensures seen <= seen' && Places(m, seen')
    ensures r.Some? ==>
      exists fill :: r.value == types + fill && FirstFiller(m, gen, at, fill, after, toEnd, Elements(seen))
    ensures r.None? ==> Exhausted(m, gen, after, toEnd, at, seen')
    ensures r.None? ==> forall k | |seen| <= k < |seen'| :: Exhausted(m, gen, after, toEnd, seen'[k], seen')
    decreases |Unseen(m, seen)|
  {
    var end := MatchFragment(m, at, after);
    seen' := seen;
    if end.Some? && (!toEnd || m[end.value].validEnd) {
      assert types + [] == types && FirstFiller(m, gen, at, [], after, toEnd, Elements(seen));
      return Some(types), seen';
    }
    var next := m[at].next;
    var f := 0;
    while f < |next|
      invariant 0 <= f <= |next|
      invariant seen <= seen' && Places(m, seen')
      invariant forall j | 0 <= j < f && next[j].term in gen :: next[j].next in seen'
      invariant forall k | |seen| <= k < |seen'| :: Exhausted(m, gen, after, toEnd, seen'[k], seen')
    {
      var e := next[f];
      assert e in next;
      if e.term in gen && e.next !in seen' {
        ghost var before := seen';
        Shrinks(Unseen(m, before + [e.next]), Unseen(m, before));
        Shrinks(Unseen(m, before), Unseen(m, seen));
        assert e.next in Unseen(m, before) && e.next !in Unseen(m, before + [e.next]);
        r, seen' := Search(m, gen, after, toEnd, e.next, types + [e.term], seen' + [e.next]);
        if r.Some? {
          FirstStep(m, gen, at, f, r.value, types, after, toEnd, seen, before);
          return;
        }
        InPrefix(before + [e.next], seen');
        assert forall y | y in before :: y in before + [e.next];
        assert e.next in before + [e.next];
        ExhaustedGrown(m, gen, after, toEnd, seen, before, seen', e.next);
      }
      f := f + 1;
    }
    r := None;
  }

  lemma {:induction false} InPrefix(s: seq<nat>, t: seq<nat>)
    requires s <= t
    ensures forall x | x in s :: x in t
  {
    assert forall k | 0 <= k < |s| :: t[k] == s[k];
  }

  lemma {:induction false} FirstStep(m: Matcher, gen: set<NodeType>, at: nat, f: nat, r: seq<NodeType>,
          types: seq<NodeType>, after: seq<NodeType>, toEnd: bool, seen: seq<nat>, before: seq<nat>)
    requires WellFormed(m) && at < |m| && f < |m[at].next| && m[at].next[f].term in gen
    requires !Fits(m, at, after, toEnd) && seen <= before && m[at].next[f].next !in before
    requires forall j | 0 <= j < f && m[at].next[j].term in gen :: m[at].next[j].next in before
    requires forall k | |seen| <= k < |before| :: Exhausted(m, gen, after, toEnd, before[k], before)
    requires var e := m[at].next[f];
      exists fill :: r == types + [e.term] + fill &&
                     FirstFiller(m, gen, e.next, fill, after, toEnd, Elements(before + [e.next]))
    ensures exists fill :: r == types + fill && FirstFiller(m, gen, at, fill, after, toEnd, Elements(seen))
  {
    var e := m[at].next[f];
    var rest :| r == types + [e.term] + rest &&
                FirstFiller(m, gen, e.next, rest, after, toEnd, Elements(before + [e.next]));
    var fill := [e.term] + rest;
    EdgeForAt(m[at].next, f);
    assert fill[1..] == rest && r == types + fill;
    InPrefix(seen, before);
    FreshLess(m, e.next, rest, Elements(seen) + {e.next}, Elements(before + [e.next]));
    forall other | Filler(m, gen, at, other, after, toEnd) && Fresh(m, at, other, Elements(seen))
      ensures NotAfter(m, at, fill, other)
    {
      OthersLater(m, gen, at, f, rest, other, after, toEnd, seen, before);
    }
  }

  /** Another filler takes a later edge, or the same one and is no earlier from there on. */
  lemma {:induction false} OthersLater(m: Matcher, gen: set<NodeType>, at: nat, f: nat, rest: seq<NodeType>,
          other: seq<NodeType>, after: seq<NodeType>, toEnd: bool, seen: seq<nat>, before: seq<nat>)
    requires WellFormed(m) && at < |m| && f < |m[at].next|
    requires !Fits(m, at, after, toEnd) && seen <= before
    requires forall j | 0 <= j < f && m[at].next[j].term in gen :: m[at].next[j].next in before
    requires forall k | |seen| <= k < |before| :: Exhausted(m, gen, after, toEnd, before[k], before)
    requires var e := m[at].next[f]; FirstFiller(m, gen, e.next, rest, after, toEnd, Elements(before + [e.next]))
    requires Filler(m, gen, at, other, after, toEnd) && Fresh(m, at, other, Elements(seen))
    ensures NotAfter(m, at, [m[at].next[f].term] + rest, other)
  {
    var next, e := m[at].next, m[at].next[f];
    var q := EdgeFor(next, other[0]).value;
    EdgeForIn(next, other[0]);
    assert other[0] in other && forall t | t in other[1..] :: t in other;
    FreshMore(m, gen, q, other[1..], after, toEnd, seen, before, {q});
    var j :| 0 <= j < |next| && next[j] == MatchEdge(other[0], q);
    EdgeForAt(next, f);
    assert ([e.term] + rest)[1..] == rest;
    if j == f {
      assert Elements(before) + {q} == Elements(before + [q]);
    } else {
      assert j > f;
    }
  }

  lemma {:induction false} EdgeForAt(next: seq<MatchEdge>, f: nat)
    requires Deterministic(next) && f < |next|
    ensures EdgeFor(next, next[f].term) == Some(next[f].next)
  {
    if f > 0 {
      EdgeForAt(next[1..], f - 1);
    }
  }

  lemma {:induction false} ExhaustedGrown(m: Matcher, gen: set<NodeType>, after: seq<NodeType>, toEnd: bool,
          seen: seq<nat>, before: seq<nat>, seen': seq<nat>, x: nat)
    requires seen <= before && before + [x] <= seen' && Places(m, seen')
    requires forall k | |seen| <= k < |before| :: Exhausted(m, gen, after, toEnd, before[k], before)
    requires forall k | |before| < k < |seen'| :: Exhausted(m, gen, after, toEnd, seen'[k], seen')
    requires Exhausted(m, gen, after, toEnd, x, seen')
    ensures forall k | |seen| <= k < |seen'| :: Exhausted(m, gen, after, toEnd, seen'[k], seen')
  {
    forall k | |seen| <= k < |seen'|
      ensures Exhausted(m, gen, after, toEnd, seen'[k], seen')
    {
      if k < |before| {
        assert seen'[k] == before[k];
        InPrefix(before, seen');
      } else if k == |before| {
        assert seen'[k] == x;
      }
    }
  }

  /** Once the search is exhausted, no filler leads anywhere. */
  lemma {:induction false} NoFiller(m: Matcher, gen: set<NodeType>, after: seq<NodeType>, toEnd: bool, seen: seq<nat>,
          at: nat, fill: seq<NodeType>)
    requires WellFormed(m) && at in seen
    requires forall x | x in seen :: Exhausted(m, gen, after, toEnd, x, seen)
    ensures !Filler(m, gen, at, fill, after, toEnd)
    decreases fill
  {
    assert Exhausted(m, gen, after, toEnd, at, seen);
    if fill != [] && fill[0] in gen {
      EdgeForIn(m[at].next, fill[0]);
      var q := EdgeFor(m[at].next, fill[0]);
      if q.Some? {
        NoFiller(m, gen, after, toEnd, seen, q.value, fill[1..]);
        assert forall t | t in fill[1..] :: t in fill;
      } else {
        assert MatchFrom(m, None, fill[1..]) == None;
      }
    } else if fill != [] {
      assert fill[0] in fill;
    }
  }

  /**
   * Looks for generatable types to put before the children from `startIndex` on. A result is
   * such a filler; no result means that there is none, of any length.
   */
  method FillBefore(m: Matcher, gen: set<NodeType>, at: nat, content: seq<NodeType>, toEnd: bool, startIndex: nat)
    returns (r: Option<seq<NodeType>>)
    requires WellFormed(m) && at < |m| && startIndex <= |content|
    ensures r.Some? ==> Filler(m, gen, at, r.value, content[startIndex..], toEnd)
    ensures r.Some? <==> exists fill :: Filler(m, gen, at, fill, content[startIndex..], toEnd)
    ensures r.Some? ==> FirstFiller(m, gen, at, r.value, content[startIndex..], toEnd, {at})
  {
    var seen: seq<nat>;
    r, seen := Search(m, gen, content[startIndex..], toEnd, at, [], [at]);
    if r.Some? {
      ghost var fill :| r.value == [] + fill &&
                        FirstFiller(m, gen, at, fill, content[startIndex..], toEnd, Elements([at]));
      assert [] + fill == fill && Elements([at]) == {at};
    } else {
      forall x | x in seen
        ensures Exhausted(m, gen, content[startIndex..], toEnd, x, seen)
      {
        var k :| 0 <= k < |seen| && seen[k] == x;
        assert k == 0 ==> x == at;
      }
      forall fill
        ensures !Filler(m, gen, at, fill, content[startIndex..], toEnd)
      {
        NoFiller(m, gen, content[startIndex..], toEnd, seen, at, fill);
      }
    }
  }

  /**
   * Fillers are made of generatable types, and make the content match as a whole, to a place
   * where a valid end is if one is asked for.
   */
  lemma {:induction false} FillerIff(m: Matcher, gen: set<NodeType>, at: nat, fill: seq<NodeType>, after: seq<NodeType>,
          toEnd: bool)
    requires WellFormed(m) && at < |m|
    ensures Filler(m, gen, at, fill, after, toEnd) <==>
      var end := MatchFrom(m, Some(at), fill + after);
      && (forall t | t in fill :: t in gen)
      && end.Some? && (toEnd ==> end.value < |m| && m[end.value].validEnd)
    ensures Filler(m, gen, 0, fill, after, true) <==>
      (forall t | t in fill :: t in gen) && MatcherAccepts(m, fill + after)
  {
    MatchThen(m, Some(at), fill, after);
    MatchThen(m, Some(0), fill, after);
    NoneOn(m, after);
  }

  lemma {:induction false} NoneOn(m: Matcher, w: seq<NodeType>)
    ensures MatchFrom(m, None, w) == None
  {
  }

  /** What a filler is for: with it in front, the content matches as a whole. */
  lemma {:induction false} FillerCompletes(m: Matcher, gen: set<NodeType>, at: nat, fill: seq<NodeType>,
          after: seq<NodeType>, toEnd: bool)
    requires Filler(m, gen, at, fill, after, toEnd)
    ensures Fits(m, at, fill + after, toEnd)
  {
    MatchThen(m, Some(at), fill, after);
  }
}
