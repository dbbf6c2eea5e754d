/** The breadth-first search for a chain of node types to wrap a type in (`computeWrapping`). */
module Wrapping {
  import opened Basics
  import opened Options
  import opened ContentExpr
  import opened Dfa

  /** What the search asks of a node type. */
  datatype TypeInfo = TypeInfo(content: Matcher, leaf: bool, requiredAttrs: bool)

  type Schema = map<NodeType, TypeInfo>

  /** A match state: a place in one type's matcher. */
  datatype Place = Place(matcher: Matcher, at: nat)

  ghost predicate SchemaOk(schema: Schema) {
    forall t | t in schema :: PlaceOk(schema, Inside(schema, t))
  }

  ghost predicate PlaceOk(schema: Schema, p: Place) {
    && p.at < |p.matcher| && WellFormed(p.matcher)
    && forall i, e | 0 <= i < |p.matcher| && e in p.matcher[i].next :: e.term in schema
  }

  /** Where matching starts inside a node of type `t`. */
  function Inside(schema: Schema, t: NodeType): Place
    requires t in schema
  {
    Place(schema[t].content, 0)
  }

  predicate CanHold(p: Place, t: NodeType)
    requires p.at < |p.matcher|
  {
    EdgeFor(p.matcher[p.at].next, t).Some?
  }

  /** Edge `e` of place `p` may be the next wrapper; only the outermost may leave its parent unfinished. */
  predicate Usable(schema: Schema, p: Place, outer: bool, e: MatchEdge)
    requires e.term in schema
  {
    && !schema[e.term].leaf
    && !schema[e.term].requiredAttrs
    && (outer || (e.next < |p.matcher| && p.matcher[e.next].validEnd))
  }

  ghost predicate Follows(schema: Schema, p: Place, outer: bool, t: NodeType) {
    && p.at < |p.matcher| && t in schema
    && exists e :: e in p.matcher[p.at].next && e.term == t && Usable(schema, p, outer, e)
  }

  /** Each type of `chain` may be put right inside the one before it, the first inside `p`. */
  ghost predicate ChainOk(schema: Schema, p: Place, chain: seq<NodeType>)
    decreases |chain|
  {
    if chain == [] then true
    else
      var outer := chain[..|chain| - 1];
      var t := chain[|chain| - 1];
      && ChainOk(schema, p, outer)
      && (outer != [] ==> outer[|outer| - 1] in schema)
      && Follows(schema, EndOf(schema, p, outer), outer == [], t)
  }

  function EndOf(schema: Schema, p: Place, chain: seq<NodeType>): Place
    requires chain != [] ==> chain[|chain| - 1] in schema
  {
    if chain == [] then p else Inside(schema, chain[|chain| - 1])
  }

  /** Wrapping `target` in `chain` makes it fit at `p`. */
  ghost predicate Wraps(schema: Schema, p: Place, chain: seq<NodeType>, target: NodeType) {
    && ChainOk(schema, p, chain)
    && (chain != [] ==> chain[|chain| - 1] in schema)
    && EndOf(schema, p, chain).at < |EndOf(schema, p, chain).matcher|
    && CanHold(EndOf(schema, p, chain), target)
  }

  /** No type that is a leaf or has to be given attributes can be a wrapper. */
  predicate IsWrapper(schema: Schema, t: NodeType) {
    t in schema && !schema[t].leaf && !schema[t].requiredAttrs
  }

  /** `t` alone is all the content that type `outer` needs. */
  predicate HoldsAlone(schema: Schema, outer: NodeType, t: NodeType) {
    outer in schema && MatcherAccepts(schema[outer].content, [t])
  }

  /**
   * A chain wraps exactly when every type of it can be a wrapper, the first may come at the place,
   * each other is all the content that the one before it needs, and the target may come first in
   * the last: only outermost may what is there be left unfinished.
   */
  lemma {:induction false} WrapsIff(schema: Schema, p: Place, chain: seq<NodeType>, target: NodeType)
    requires SchemaOk(schema) && PlaceOk(schema, p)
    ensures Wraps(schema, p, chain, target) <==>
      && (forall i | 0 <= i < |chain| :: IsWrapper(schema, chain[i]))
      && (forall i | 0 < i < |chain| :: HoldsAlone(schema, chain[i - 1], chain[i]))
      && if chain == [] then MatchFrom(p.matcher, Some(p.at), [target]).Some? else
           && MatchFrom(p.matcher, Some(p.at), [chain[0]]).Some?
           && MatchFrom(schema[chain[|chain| - 1]].content, Some(0), [target]).Some?
  {
    ChainIff(schema, p, chain);
    if chain != [] && chain[|chain| - 1] in schema {
      assert PlaceOk(schema, Inside(schema, chain[|chain| - 1]));
    }
  }

  ghost predicate WrapsAll(schema: Schema, p: Place, chain: seq<NodeType>) {
    && (forall i | 0 <= i < |chain| :: IsWrapper(schema, chain[i]))
    && (forall i | 0 < i < |chain| :: HoldsAlone(schema, chain[i - 1], chain[i]))
    && (chain != [] ==> MatchFrom(p.matcher, Some(p.at), [chain[0]]).Some?)
  }

  lemma {:induction false} ChainIff(schema: Schema, p: Place, chain: seq<NodeType>)
    requires SchemaOk(schema) && PlaceOk(schema, p)
    ensures ChainOk(schema, p, chain) <==> WrapsAll(schema, p, chain)
    decreases |chain|
  {
    if chain != [] {
      var l := |chain| - 1;
      ChainIff(schema, p, chain[..l]);
      AllButLast(schema, p, chain, chain[..l], chain[l]);
      if l == 0 {
        FollowsIff(schema, p, true, chain[0]);
      } else if chain[l - 1] in schema {
        FollowsIff(schema, Inside(schema, chain[l - 1]), false, chain[l]);
      }
    }
  }

  lemma {:induction false} AllButLast(schema: Schema, p: Place, chain: seq<NodeType>, outer: seq<NodeType>, t: NodeType)
    requires chain == outer + [t]
    ensures WrapsAll(schema, p, chain) <==>
      && WrapsAll(schema, p, outer) && IsWrapper(schema, t)
      && if outer == [] then MatchFrom(p.matcher, Some(p.at), [t]).Some?
         else HoldsAlone(schema, outer[|outer| - 1], t)
  {
    assert forall i | 0 <= i < |outer| :: chain[i] == outer[i];
    assert chain[|outer|] == t;
  }

  lemma {:induction false} FollowsIff(schema: Schema, p: Place, outer: bool, t: NodeType)
    requires PlaceOk(schema, p)
    ensures Follows(schema, p, outer, t) <==>
      var end := MatchFrom(p.matcher, Some(p.at), [t]);
      IsWrapper(schema, t) && end.Some? && (outer || (end.value < |p.matcher| && p.matcher[end.value].validEnd))
  {
    var next := p.matcher[p.at].next;
    EdgeForIn(next, t);
    if Follows(schema, p, outer, t) {
      var e :| e in next && e.term == t && Usable(schema, p, outer, e);
      var q := EdgeFor(next, t).value;
      assert MatchEdge(t, q) in next;
    }
  }

  /** An entry of the search: a place, and how it was come by. */
  datatype Item = Root(place: Place) | Via(place: Place, term: NodeType, via: Item) {
    function Chain(): seq<NodeType> {
      match this
      case Root(_) => []
      case Via(_, t, v) => v.Chain() + [t]
    }
  }

  /** Reads the chain off the links, innermost type first, and turns it round. */
  method ReadChain(i: Item) returns (o: seq<NodeType>)
    ensures o == i.Chain()
  {
    var types: seq<NodeType> := [];
    var l := i;
    while l.Via?
      invariant l.Chain() + Reverse(types) == i.Chain()
      decreases l
    {
      types := types + [l.term];
      ReverseSnoc(types[..|types| - 1], l.term);
      assert types[..|types| - 1] + [l.term] == types;
      l := l.via;
    }
    o := Reverse(types);
  }

  lemma {:induction false} ReverseSnoc<T>(s: seq<T>, x: T)
    ensures Reverse(s + [x]) == [x] + Reverse(s)
  {
  }

  // ----- which of the shortest chains is found -----

  /** Up to type `i` the chains are the same; there, the edge of the one comes before that of the other. */
  ghost predicate EarlierAt(schema: Schema, p: Place, u: seq<NodeType>, v: seq<NodeType>, i: nat) {
    && i < |u| && i < |v| && u[..i] == v[..i] && (i > 0 ==> u[i - 1] in schema)
    && var place := EndOf(schema, p, u[..i]);
    place.at < |place.matcher| && EarlierEdge(place.matcher[place.at].next, u[i], v[i])
  }

  /** In the order of the edges, chain `u` is not after chain `v`, which is as long. */
  ghost predicate NotAfter(schema: Schema, p: Place, u: seq<NodeType>, v: seq<NodeType>) {
    |u| == |v| && (u == v || exists i: nat :: EarlierAt(schema, p, u, v, i))
  }

  lemma {:induction false} NotAfterThen(schema: Schema, p: Place, u: seq<NodeType>, v: seq<NodeType>, w: seq<NodeType>)
    requires SchemaOk(schema) && PlaceOk(schema, p)
    requires NotAfter(schema, p, u, v) && NotAfter(schema, p, v, w)
    ensures NotAfter(schema, p, u, w)
  {
    if u != v && v != w {
      var i: nat :| EarlierAt(schema, p, u, v, i);
      var j: nat :| EarlierAt(schema, p, v, w, j);
      BothEarlier(schema, p, u, v, w, i, j);
    }
  }

  lemma {:induction false} BothEarlier(schema: Schema, p: Place, u: seq<NodeType>, v: seq<NodeType>, w: seq<NodeType>,
          i: nat, j: nat)
    requires SchemaOk(schema) && PlaceOk(schema, p)
    requires EarlierAt(schema, p, u, v, i) && EarlierAt(schema, p, v, w, j)
    ensures EarlierAt(schema, p, u, w, if i < j then i else j)
  {
    if i < j {
      assert v[..j][..i] == v[..i] && w[..j][..i] == w[..i] && v[..j][i] == w[..j][i];
    } else if j < i {
      assert u[..i][..j] == u[..j] && v[..i][..j] == v[..j] && u[..i][j] == v[..i][j];
      assert j > 0 ==> u[j - 1] == v[..j][j - 1];
    } else {
      assert i > 0 ==> PlaceOk(schema, Inside(schema, u[i - 1]));
    }
  }

  /** With one type more, the same at both or an earlier one behind the same chain. */
  lemma {:induction false} NotAfterMore(schema: Schema, p: Place, u: seq<NodeType>, v: seq<NodeType>, a: NodeType,
          b: NodeType)
    requires SchemaOk(schema) && PlaceOk(schema, p) && (u != [] ==> u[|u| - 1] in schema)
    requires NotAfter(schema, p, u, v)
    requires u == v ==> a == b || (var place := EndOf(schema, p, u); EarlierEdge(place.matcher[place.at].next, a, b))
    ensures NotAfter(schema, p, u + [a], v + [b])
  {
    var u', v' := u + [a], v + [b];
    if u == v {
      assert u'[..|u|] == u && v'[..|u|] == v;
      if a != b { assert EarlierAt(schema, p, u', v', |u|); }
    } else {
      var i: nat :| EarlierAt(schema, p, u, v, i);
      assert u'[..i] == u[..i] && v'[..i] == v[..i];
      assert EarlierAt(schema, p, u', v', i);
    }
  }

  // ----- the search -----

  ghost predicate ItemOk(schema: Schema, start: Place, i: Item) {
    && PlaceOk(schema, i.place)
    && ChainOk(schema, start, i.Chain())
    && (i.Via? ==> i.term in schema && i.place == Inside(schema, i.term))
    && (i.Root? ==> i.place == start)
  }

  /** `i` was taken off the queue: it cannot hold the target, and everything usable in it was entered. */
  ghost predicate Settled(schema: Schema, i: Item, target: NodeType, items: seq<Item>) {
    && i.place.at < |i.place.matcher|
    && !CanHold(i.place, target)
    && forall t | Follows(schema, i.place, i.Root?, t) :: Entered(items, t, |i.Chain()| + 1)
  }

  /** Type `t` has an entry with a chain of at most `n` types. */
  ghost predicate Entered(items: seq<Item>, t: NodeType, n: nat) {
    exists k :: 0 <= k < |items| && items[k].Via? && items[k].term == t && |items[k].Chain()| <= n
  }

  /** Chains never get shorter along the queue. */
  ghost predicate Ordered(items: seq<Item>) {
    forall j, k | 0 <= j <= k < |items| :: |items[j].Chain()| <= |items[k].Chain()|
  }

  lemma {:induction false} OrderedGrows(items: seq<Item>, i: Item)
    requires Ordered(items) && forall k | 0 <= k < |items| :: |items[k].Chain()| <= |i.Chain()|
    ensures Ordered(items + [i])
  {
    var items' := items + [i];
    forall j, k | 0 <= j <= k < |items'|
      ensures |items'[j].Chain()| <= |items'[k].Chain()|
    {
      assert k < |items| ==> items'[k] == items[k] && items'[j] == items[j];
    }
  }

  /** The entries in the order they were made, the first `h` of them settled. */
  ghost predicate Searched(schema: Schema, start: Place, target: NodeType, items: seq<Item>, h: nat) {
    && h <= |items|
    && |items| > 0 && items[0] == Root(start)
    && (forall k | 0 <= k < |items| :: ItemOk(schema, start, items[k]))
    && Ordered(items)
    && (forall k | 0 <= k < h :: Settled(schema, items[k], target, items))
  }

  /** While `h` is the next entry, every ok chain no longer than the settled ones ends in a settled entry. */
  lemma {:induction false} ChainSettled(schema: Schema, start: Place, target: NodeType, items: seq<Item>, h: nat,
          chain: seq<NodeType>)
    returns (k: nat)
    requires Searched(schema, start, target, items, h) && h > 0
    requires ChainOk(schema, start, chain)
    requires forall k | h <= k < |items| :: |items[k].Chain()| > |chain|
    ensures k < h && |items[k].Chain()| <= |chain|
    ensures chain == [] ==> items[k].Root?
    ensures chain != [] ==> items[k].Via? && items[k].term == chain[|chain| - 1]
    decreases |chain|
  {
    if chain == [] {
      k := 0;
    } else {
      var outer := chain[..|chain| - 1];
      var t := chain[|chain| - 1];
      var j := ChainSettled(schema, start, target, items, h, outer);
      assert ItemOk(schema, start, items[j]);
      assert Follows(schema, items[j].place, items[j].Root?, t);
      assert Settled(schema, items[j], target, items);
      k :| 0 <= k < |items| && items[k].Via? && items[k].term == t && |items[k].Chain()| <= |items[j].Chain()| + 1;
    }
  }

  lemma {:induction false} NothingShorter(schema: Schema, start: Place, target: NodeType, items: seq<Item>, h: nat,
          chain: seq<NodeType>)
    requires Searched(schema, start, target, items, h) && h > 0
    requires forall k | h <= k < |items| :: |items[k].Chain()| > |chain|
    ensures !Wraps(schema, start, chain, target)
  {
    if ChainOk(schema, start, chain) {
      var k := ChainSettled(schema, start, target, items, h, chain);
      assert ItemOk(schema, start, items[k]);
      assert Settled(schema, items[k], target, items);
    }
  }

  lemma {:induction false} EnteredGrows(items: seq<Item>, i: Item, t: NodeType, n: nat)
    requires Entered(items, t, n)
    ensures Entered(items + [i], t, n)
  {
    var k :| 0 <= k < |items| && items[k].Via? && items[k].term == t && |items[k].Chain()| <= n;
    assert (items + [i])[k] == items[k];
  }

  lemma {:induction false} SettledGrows(schema: Schema, settled: Item, target: NodeType, items: seq<Item>, i: Item)
    requires Settled(schema, settled, target, items)
    ensures Settled(schema, settled, target, items + [i])
  {
    forall t | Follows(schema, settled.place, settled.Root?, t)
      ensures Entered(items + [i], t, |settled.Chain()| + 1)
    {
      EnteredGrows(items, i, t, |settled.Chain()| + 1);
    }
  }

  /** A new entry at the end of the queue keeps what was established. */
  lemma {:induction false} SearchedGrows(schema: Schema, start: Place, target: NodeType, items: seq<Item>, h: nat,
          i: Item)
    requires Searched(schema, start, target, items, h) && ItemOk(schema, start, i)
    requires forall k | 0 <= k < |items| :: |items[k].Chain()| <= |i.Chain()|
    ensures Searched(schema, start, target, items + [i], h)
  {
    var items' := items + [i];
    OrderedGrows(items, i);
    forall k | 0 <= k < h
      ensures Settled(schema, items'[k], target, items')
    {
      SettledGrows(schema, items[k], target, items, i);
    }
    forall k | 0 <= k < |items'|
      ensures ItemOk(schema, start, items'[k])
    {
      assert items'[k] == if k < |items| then items[k] else i;
    }
  }

  /** What the list of entered types says: each has an entry at most one type longer than `i`. */
  ghost predicate TypesEntered(items: seq<Item>, t: set<NodeType>, i: Item) {
    && (forall x | x in t :: Entered(items, x, |i.Chain()| + 1))
    && forall k | 0 <= k < |items| :: |items[k].Chain()| <= |i.Chain()| + 1
  }

  // ----- the order of the queue -----

  /** Shorter, or as long and not after. */
  ghost predicate Comes(schema: Schema, p: Place, u: seq<NodeType>, v: seq<NodeType>) {
    |u| < |v| || NotAfter(schema, p, u, v)
  }

  /** No chain that is as long and ends in the same type comes before that of the entry. */
  ghost predicate FirstOf(schema: Schema, start: Place, i: Item) {
    forall chain | ChainOk(schema, start, chain) && |chain| == |i.Chain()| && EndsAs(i, chain) ::
      NotAfter(schema, start, i.Chain(), chain)
  }

  predicate EndsAs(i: Item, chain: seq<NodeType>) {
    chain != [] ==> i.Via? && chain[|chain| - 1] == i.term
  }

  /** Entry `k` was made from one of those up to `h`. */
  ghost predicate MadeFrom(items: seq<Item>, k: nat, h: nat)
    requires k < |items|
  {
    items[k].Via? && exists j :: 0 <= j <= h && j < k && items[j] == items[k].via
  }

  /** Each entry was made from an earlier one, and there is one for each of the types in `t`. */
  ghost predicate Linked(items: seq<Item>, h: nat, t: set<NodeType>) {
    && (forall k | 0 < k < |items| :: MadeFrom(items, k, h) && items[k].term in t)
    && forall j, k | 0 < j < k < |items| && items[j].Via? && items[k].Via? :: items[j].term != items[k].term
  }

  /** The queue is in the order of the edges. */
  ghost predicate Queued(schema: Schema, start: Place, items: seq<Item>, h: nat, t: set<NodeType>) {
    && (forall j, k | 0 <= j <= k < |items| :: Comes(schema, start, items[j].Chain(), items[k].Chain()))
    && (forall k | 0 <= k < |items| :: FirstOf(schema, start, items[k]))
    && Linked(items, h, t)
  }

  predicate AmongFirst(next: seq<MatchEdge>, o: nat, t: NodeType) {
    exists j :: 0 <= j < o && j < |next| && next[j].term == t
  }

  /** The entries made from `i` are of types among its first `o` edges. */
  ghost predicate FromEdges(items: seq<Item>, i: Item, o: nat) {
    && i.place.at < |i.place.matcher|
    && forall k | 0 < k < |items| && items[k].Via? && items[k].via == i ::
         AmongFirst(i.place.matcher[i.place.at].next, o, items[k].term)
  }

  lemma {:induction false} LastIs(i: Item)
    requires i.Via?
    ensures i.Chain() != [] && i.Chain()[|i.Chain()| - 1] == i.term
  {
  }

  lemma {:induction false} OneEntry(items: seq<Item>, h: nat, t: set<NodeType>, j: nat)
    requires Linked(items, h, t) && j <= h < |items| && items[0].Root?
    requires items[j].Chain() == items[h].Chain()
    ensures j == h
  {
    assert j > 0 ==> MadeFrom(items, j, h);
    assert h > 0 ==> MadeFrom(items, h, h);
    if items[j].Via? { LastIs(items[j]); }
    if items[h].Via? { LastIs(items[h]); }
  }

  /** No entry was made from one that comes later. */
  lemma {:induction false} NoneFrom(items: seq<Item>, h: nat, t: set<NodeType>, k: nat)
    requires Linked(items, h, t) && h + 1 < |items| && items[0].Root? && 0 < k < |items|
    ensures MadeFrom(items, k, h + 1) && items[k].via != items[h + 1]
  {
    assert MadeFrom(items, k, h) && MadeFrom(items, h + 1, h);
    var j :| 0 <= j <= h && j < k && items[j] == items[k].via;
    assert j > 0 ==> MadeFrom(items, j, h);
  }

  lemma {:induction false} NextLinked(items: seq<Item>, h: nat, t: set<NodeType>)
    requires Linked(items, h, t) && h + 1 < |items| && items[0].Root?
    requires items[h + 1].place.at < |items[h + 1].place.matcher|
    ensures Linked(items, h + 1, t) && FromEdges(items, items[h + 1], 0)
  {
    forall k | 0 < k < |items|
      ensures MadeFrom(items, k, h + 1) && items[k].via != items[h + 1]
    {
      NoneFrom(items, h, t, k);
    }
  }

  lemma {:induction false} LinkedMore(items: seq<Item>, h: nat, t: set<NodeType>, o: nat, entry: Item)
    requires Linked(items, h, t) && h < |items| && FromEdges(items, items[h], o)
    requires o < |items[h].place.matcher[items[h].place.at].next|
    requires entry.Via? && entry.via == items[h] && entry.term !in t
    requires entry.term == items[h].place.matcher[items[h].place.at].next[o].term
    ensures Linked(items + [entry], h, t + {entry.term}) && FromEdges(items + [entry], items[h], o + 1)
  {
    var items' := items + [entry];
    forall k | 0 < k < |items'|
      ensures MadeFrom(items', k, h)
    {
      if k < |items| {
        assert MadeFrom(items, k, h);
        var j :| 0 <= j <= h && j < k && items[j] == items[k].via;
        assert items'[j] == items'[k].via;
      } else {
        assert items'[h] == items'[k].via;
      }
    }
    EdgesMore(items, items[h], o, entry);
  }

  lemma {:induction false} EdgesMore(items: seq<Item>, i: Item, o: nat, entry: Item)
    requires FromEdges(items, i, o) && o < |i.place.matcher[i.place.at].next|
    requires entry.Via? && entry.term == i.place.matcher[i.place.at].next[o].term
    ensures FromEdges(items + [entry], i, o + 1) && FromEdges(items, i, o + 1)
  {
    var items' := items + [entry];
    forall k | 0 < k < |items'| && items'[k].Via? && items'[k].via == i
      ensures AmongFirst(i.place.matcher[i.place.at].next, o + 1, items'[k].term)
    {
      assert k < |items| ==> AmongFirst(i.place.matcher[i.place.at].next, o, items[k].term);
    }
    assert forall k | 0 <= k < |items| :: items'[k] == items[k];
  }

  /** Every chain no longer than that of the next entry has an entry that ends in the same type. */
  lemma {:induction false} ChainEntered(schema: Schema, start: Place, target: NodeType, items: seq<Item>, h: nat,
          chain: seq<NodeType>)
    returns (k: nat)
    requires Searched(schema, start, target, items, h) && h < |items|
    requires ChainOk(schema, start, chain) && |chain| <= |items[h].Chain()|
    ensures k < |items| && |items[k].Chain()| <= |chain| && EndsAs(items[k], chain)
    ensures chain == [] ==> items[k].Root?
    decreases |chain|
  {
    if chain == [] {
      k := 0;
    } else {
      var outer := chain[..|chain| - 1];
      var t := chain[|chain| - 1];
      var j := ChainEntered(schema, start, target, items, h, outer);
      assert ItemOk(schema, start, items[j]);
      assert Follows(schema, items[j].place, items[j].Root?, t);
      assert Settled(schema, items[j], target, items);
      k :| 0 <= k < |items| && items[k].Via? && items[k].term == t && |items[k].Chain()| <= |items[j].Chain()| + 1;
    }
  }

  /** The next entry comes first of all chains as long that can hold what no settled one can. */
  lemma {:induction false} HeadFirst(schema: Schema, start: Place, target: NodeType, items: seq<Item>, h: nat,
          t: set<NodeType>, chain: seq<NodeType>, k: nat)
    requires SchemaOk(schema) && PlaceOk(schema, start)
    requires Searched(schema, start, target, items, h) && Queued(schema, start, items, h, t)
    requires ChainOk(schema, start, chain) && h <= k < |items| && |chain| == |items[h].Chain()|
    requires |items[k].Chain()| <= |chain| && EndsAs(items[k], chain)
    ensures NotAfter(schema, start, items[h].Chain(), chain)
  {
    assert Comes(schema, start, items[h].Chain(), items[k].Chain());
    assert FirstOf(schema, start, items[k]);
    NotAfterThen(schema, start, items[h].Chain(), items[k].Chain(), chain);
  }

  /** What leads to a type that was not entered yet has not been settled. */
  lemma {:induction false} NotSettled(schema: Schema, start: Place, target: NodeType, items: seq<Item>, h: nat,
          t: set<NodeType>, k: nat, outer: seq<NodeType>, x: NodeType)
    requires Searched(schema, start, target, items, h) && Linked(items, h, t) && k < |items| && x !in t
    requires EndsAs(items[k], outer) && (outer == [] ==> items[k].Root?) && ChainOk(schema, start, outer + [x])
    ensures k >= h
  {
    assert (outer + [x])[..|outer|] == outer;
    assert ItemOk(schema, start, items[k]);
    assert Follows(schema, items[k].place, items[k].Root?, x);
    if k < h {
      assert Settled(schema, items[k], target, items);
      var l :| 0 <= l < |items| && items[l].Via? && items[l].term == x;
    }
  }

  /** A type that was not entered yet: no chain that ends in it comes before the one now found. */
  lemma {:induction false} EntryFirst(schema: Schema, start: Place, target: NodeType, items: seq<Item>, h: nat,
          t: set<NodeType>, entry: Item, outer: seq<NodeType>, chain: seq<NodeType>)
    requires SchemaOk(schema) && PlaceOk(schema, start) && h < |items|
    requires Searched(schema, start, target, items, h) && Queued(schema, start, items, h, t)
    requires entry.Via? && entry.via == items[h] && entry.term !in t
    requires ChainOk(schema, start, chain) && chain == outer + [entry.term] && |outer| == |items[h].Chain()|
    ensures NotAfter(schema, start, entry.Chain(), chain)
  {
    var x := entry.term;
    assert chain[..|outer|] == outer;
    var k := ChainEntered(schema, start, target, items, h, outer);
    NotSettled(schema, start, target, items, h, t, k, outer, x);
    HeadFirst(schema, start, target, items, h, t, outer, k);
    assert ItemOk(schema, start, items[h]);
    HeadInSchema(schema, start, items[h]);
    NotAfterMore(schema, start, items[h].Chain(), outer, x, x);
  }

  lemma {:induction false} HeadInSchema(schema: Schema, start: Place, i: Item)
    requires ItemOk(schema, start, i)
    ensures i.Chain() != [] ==> i.Chain()[|i.Chain()| - 1] in schema
    ensures EndOf(schema, start, i.Chain()) == i.place
  {
    if i.Via? { LastIs(i); }
  }

  /** Nor does the chain now found come before that of an entry there is. */
  lemma {:induction false} EntryLast(schema: Schema, start: Place, target: NodeType, items: seq<Item>, h: nat,
          t: set<NodeType>, o: nat, entry: Item, k: nat)
    requires SchemaOk(schema) && PlaceOk(schema, start) && h < |items| && k < |items|
    requires Searched(schema, start, target, items, h) && Queued(schema, start, items, h, t)
    requires FromEdges(items, items[h], o) && o < |items[h].place.matcher[items[h].place.at].next|
    requires entry.Via? && entry.via == items[h]
    requires entry.term == items[h].place.matcher[items[h].place.at].next[o].term
    requires |items[k].Chain()| <= |entry.Chain()|
    ensures Comes(schema, start, items[k].Chain(), entry.Chain())
  {
    if |items[k].Chain()| == |entry.Chain()| {
      assert MadeFrom(items, k, h);
      var j :| 0 <= j <= h && j < k && items[j] == items[k].via;
      assert Comes(schema, start, items[j].Chain(), items[h].Chain());
      assert ItemOk(schema, start, items[j]) && ItemOk(schema, start, items[h]);
      HeadInSchema(schema, start, items[j]);
      var next := items[h].place.matcher[items[h].place.at].next;
      if items[j].Chain() == items[h].Chain() {
        OneEntry(items, h, t, j);
        assert AmongFirst(next, o, items[k].term) && EarlierEdge(next, items[k].term, entry.term);
      }
      NotAfterMore(schema, start, items[j].Chain(), items[h].Chain(), items[k].term, entry.term);
    }
  }

  /** A new entry at the end keeps the queue in order. */
  lemma {:induction false} QueueGrows(schema: Schema, start: Place, target: NodeType, items: seq<Item>, h: nat,
          t: set<NodeType>, o: nat, entry: Item)
    requires SchemaOk(schema) && PlaceOk(schema, start) && h < |items|
    requires Searched(schema, start, target, items, h) && Queued(schema, start, items, h, t)
    requires TypesEntered(items, t, items[h])
    requires FromEdges(items, items[h], o) && o < |items[h].place.matcher[items[h].place.at].next|
    requires entry.Via? && entry.via == items[h] && entry.term !in t
    requires entry.term == items[h].place.matcher[items[h].place.at].next[o].term
    ensures Queued(schema, start, items + [entry], h, t + {entry.term}) && FromEdges(items + [entry], items[h], o + 1)
  {
    forall k | 0 <= k < |items|
      ensures Comes(schema, start, items[k].Chain(), entry.Chain())
    {
      EntryLast(schema, start, target, items, h, t, o, entry, k);
    }
    EntryFirstOf(schema, start, target, items, h, t, entry);
    LinkedMore(items, h, t, o, entry);
    OrderMore(schema, start, items, entry);
  }

  lemma {:induction false} EntryFirstOf(schema: Schema, start: Place, target: NodeType, items: seq<Item>, h: nat,
          t: set<NodeType>, entry: Item)
    requires SchemaOk(schema) && PlaceOk(schema, start) && h < |items|
    requires Searched(schema, start, target, items, h) && Queued(schema, start, items, h, t)
    requires entry.Via? && entry.via == items[h] && entry.term !in t
    ensures FirstOf(schema, start, entry)
  {
    forall chain | ChainOk(schema, start, chain) && |chain| == |entry.Chain()| && EndsAs(entry, chain)
      ensures NotAfter(schema, start, entry.Chain(), chain)
    {
      var outer := InitOf(chain, entry.term);
      EntryFirst(schema, start, target, items, h, t, entry, outer, chain);
    }
  }

  lemma {:induction false} InitOf<T>(s: seq<T>, last: T) returns (init: seq<T>)
    requires s != [] && s[|s| - 1] == last
    ensures s == init + [last]
  {
    init := s[..|s| - 1];
  }

  lemma {:induction false} OrderMore(schema: Schema, start: Place, items: seq<Item>, entry: Item)
    requires forall j, k | 0 <= j <= k < |items| :: Comes(schema, start, items[j].Chain(), items[k].Chain())
    requires forall k | 0 <= k < |items| :: FirstOf(schema, start, items[k])
    requires forall k | 0 <= k < |items| :: Comes(schema, start, items[k].Chain(), entry.Chain())
    requires FirstOf(schema, start, entry)
    ensures var items' := items + [entry];
      && (forall j, k | 0 <= j <= k < |items'| :: Comes(schema, start, items'[j].Chain(), items'[k].Chain()))
      && (forall k | 0 <= k < |items'| :: FirstOf(schema, start, items'[k]))
  {
    var items' := items + [entry];
    forall j, k | 0 <= j <= k < |items'|
      ensures Comes(schema, start, items'[j].Chain(), items'[k].Chain())
    {
      if k < |items| {
        assert Comes(schema, start, items[j].Chain(), items[k].Chain());
      } else if j < |items| {
        assert Comes(schema, start, items[j].Chain(), entry.Chain());
      }
    }
  }

  lemma {:induction false} NextItem(schema: Schema, start: Place, i: Item, f: nat)
    requires SchemaOk(schema) && ItemOk(schema, start, i)
    requires f < |i.place.matcher[i.place.at].next|
    ensures i.place.matcher[i.place.at].next[f].term in schema
    ensures var e := i.place.matcher[i.place.at].next[f];
      Usable(schema, i.place, i.Root?, e) ==> ItemOk(schema, start, Via(Inside(schema, e.term), e.term, i))
  {
    var e := i.place.matcher[i.place.at].next[f];
    assert e in i.place.matcher[i.place.at].next;
    if Usable(schema, i.place, i.Root?, e) {
      var entry := Via(Inside(schema, e.term), e.term, i);
      assert entry.Chain()[..|entry.Chain()| - 1] == i.Chain();
      assert Follows(schema, i.place, i.Root?, e.term);
    }
  }

  /** The usable types among the first `o` edges of `p` are all in `t`. */
  ghost predicate EdgesEntered(schema: Schema, p: Place, outer: bool, o: nat, t: set<NodeType>) {
    && p.at < |p.matcher| && o <= |p.matcher[p.at].next|
    && (forall j | 0 <= j < o :: p.matcher[p.at].next[j].term in schema)
    && forall j | 0 <= j < o && Usable(schema, p, outer, p.matcher[p.at].next[j]) :: p.matcher[p.at].next[j].term in t
  }

  lemma {:induction false} EntryAdded(schema: Schema, start: Place, target: NodeType, items: seq<Item>, h: nat,
          t: set<NodeType>, i: Item, entry: Item)
    requires Searched(schema, start, target, items, h) && TypesEntered(items, t, i)
    requires ItemOk(schema, start, entry) && entry.Via? && entry.via == i
    ensures Searched(schema, start, target, items + [entry], h)
    ensures TypesEntered(items + [entry], t + {entry.term}, i)
  {
    SearchedGrows(schema, start, target, items, h, entry);
    EnterOne(items, t, i, entry);
  }

  lemma {:induction false} EdgeEntered(schema: Schema, p: Place, outer: bool, o: nat, t: set<NodeType>,
          t': set<NodeType>)
    requires EdgesEntered(schema, p, outer, o, t) && t <= t'
    requires o < |p.matcher[p.at].next| && p.matcher[p.at].next[o].term in schema
    requires Usable(schema, p, outer, p.matcher[p.at].next[o]) ==> p.matcher[p.at].next[o].term in t'
    ensures EdgesEntered(schema, p, outer, o + 1, t')
  {
  }

  /** What is known while the types that may come in the entry `i` at the head are entered, up to edge `o`. */
  ghost predicate Entering(schema: Schema, start: Place, target: NodeType, i: Item, items: seq<Item>, h: nat,
          t: set<NodeType>, o: nat)
  {
    && h < |items| && items[h] == i
    && SearchedTo(schema, start, target, i, items, h, t, o) && QueuedTo(schema, start, i, items, h, t, o)
  }

  ghost predicate SearchedTo(schema: Schema, start: Place, target: NodeType, i: Item, items: seq<Item>, h: nat,
          t: set<NodeType>, o: nat)
  {
    && Searched(schema, start, target, items, h)
    && TypesEntered(items, t, i) && t <= schema.Keys && EdgesEntered(schema, i.place, i.Root?, o, t)
  }

  ghost predicate QueuedTo(schema: Schema, start: Place, i: Item, items: seq<Item>, h: nat, t: set<NodeType>, o: nat) {
    Queued(schema, start, items, h, t) && FromEdges(items, i, o)
  }

  lemma {:induction false} SearchMore(schema: Schema, start: Place, target: NodeType, i: Item, items: seq<Item>, h: nat,
          t: set<NodeType>, o: nat, entry: Item)
    requires SearchedTo(schema, start, target, i, items, h, t, o) && o < |i.place.matcher[i.place.at].next|
    requires ItemOk(schema, start, entry) && entry.Via? && entry.via == i
    requires entry.term == i.place.matcher[i.place.at].next[o].term
    ensures SearchedTo(schema, start, target, i, items + [entry], h, t + {entry.term}, o + 1)
  {
    EntryAdded(schema, start, target, items, h, t, i, entry);
    EdgeEntered(schema, i.place, i.Root?, o, t, t + {entry.term});
  }

  lemma {:induction false} QueueMore(schema: Schema, start: Place, target: NodeType, i: Item, items: seq<Item>, h: nat,
          t: set<NodeType>, o: nat, entry: Item)
    requires SchemaOk(schema) && PlaceOk(schema, start)
    requires Entering(schema, start, target, i, items, h, t, o) && o < |i.place.matcher[i.place.at].next|
    requires entry.Via? && entry.via == i && entry.term !in t
    requires entry.term == i.place.matcher[i.place.at].next[o].term
    ensures QueuedTo(schema, start, i, items + [entry], h, t + {entry.term}, o + 1)
  {
    QueueGrows(schema, start, target, items, h, t, o, entry);
  }

  lemma {:induction false} EnterMore(schema: Schema, start: Place, target: NodeType, i: Item, items: seq<Item>, h: nat,
          t: set<NodeType>, o: nat, entry: Item)
    requires SchemaOk(schema) && PlaceOk(schema, start)
    requires Entering(schema, start, target, i, items, h, t, o) && o < |i.place.matcher[i.place.at].next|
    requires ItemOk(schema, start, entry) && entry.Via? && entry.via == i && entry.term !in t
    requires entry.term == i.place.matcher[i.place.at].next[o].term
    ensures Entering(schema, start, target, i, items + [entry], h, t + {entry.term}, o + 1)
  {
    SearchMore(schema, start, target, i, items, h, t, o, entry);
    QueueMore(schema, start, target, i, items, h, t, o, entry);
  }

  lemma {:induction false} EnterNone(schema: Schema, start: Place, target: NodeType, i: Item, items: seq<Item>, h: nat,
          t: set<NodeType>, o: nat)
    requires Entering(schema, start, target, i, items, h, t, o) && o < |i.place.matcher[i.place.at].next|
    requires var e := i.place.matcher[i.place.at].next[o];
      e.term in schema && (Usable(schema, i.place, i.Root?, e) ==> e.term in t)
    ensures Entering(schema, start, target, i, items, h, t, o + 1)
  {
    EdgesMore(items, i, o, Via(i.place, i.place.matcher[i.place.at].next[o].term, i));
    EdgeEntered(schema, i.place, i.Root?, o, t, t);
  }

  /** The entries still to be looked at, and the types that can still get one. */
  function Pending(schema: Schema, n: seq<Item>, t: set<NodeType>): nat {
    |schema.Keys - t| + |n|
  }

  lemma {:induction false} OneLeft(keys: set<NodeType>, t: set<NodeType>, x: NodeType)
    requires x in keys && x !in t
    ensures |keys - t| == |keys - (t + {x})| + 1
  {
    assert keys - t == (keys - (t + {x})) + {x};
  }

  lemma {:induction false} SamePending(schema: Schema, n: seq<Item>, t: set<NodeType>, x: NodeType, entry: Item)
    requires x in schema && x !in t
    ensures Pending(schema, n + [entry], t + {x}) == Pending(schema, n, t)
  {
    OneLeft(schema.Keys, t, x);
  }

  /** Enters the type of edge `o`, if it is usable and was not entered yet. */
  method EnterEdge(schema: Schema, ghost start: Place, ghost target: NodeType, i: Item, o: nat, n: seq<Item>,
          t: set<NodeType>, ghost items: seq<Item>, ghost h: nat)
    returns (n': seq<Item>, t': set<NodeType>, ghost items': seq<Item>)
    requires SchemaOk(schema) && PlaceOk(schema, start) && ItemOk(schema, start, i)
    requires Entering(schema, start, target, i, items, h, t, o) && o < |i.place.matcher[i.place.at].next|
    requires n == items[h + 1..]
    ensures Entering(schema, start, target, i, items', h, t', o + 1)
    ensures n' == items'[h + 1..] && Pending(schema, n', t') == Pending(schema, n, t)
  {
    var e := i.place.matcher[i.place.at].next[o];
    n', t', items' := n, t, items;
    NextItem(schema, start, i, o);
    if Usable(schema, i.place, i.Root?, e) && e.term !in t {
      var entry := Via(Inside(schema, e.term), e.term, i);
      EnterMore(schema, start, target, i, items, h, t, o, entry);
      SuffixSnoc(items, h + 1, entry);
      SamePending(schema, n, t, e.term, entry);
      n', t', items' := n + [entry], t + {e.term}, items + [entry];
    } else {
      EnterNone(schema, start, target, i, items, h, t, o);
    }
  }

  lemma {:induction false} HeadSettled(schema: Schema, i: Item, target: NodeType, items: seq<Item>, t: set<NodeType>,
          o: nat)
    requires EdgesEntered(schema, i.place, i.Root?, o, t) && o == |i.place.matcher[i.place.at].next|
    requires TypesEntered(items, t, i) && !CanHold(i.place, target)
    ensures Settled(schema, i, target, items)
  {
    forall x | Follows(schema, i.place, i.Root?, x)
      ensures Entered(items, x, |i.Chain()| + 1)
    {
      var e :| e in i.place.matcher[i.place.at].next && e.term == x && Usable(schema, i.place, i.Root?, e);
      assert x in t;
    }
  }

  /** The entry at the head is settled, and the next one is to come. */
  ghost predicate Left(schema: Schema, start: Place, target: NodeType, i: Item, items: seq<Item>, h: nat,
          t: set<NodeType>)
  {
    && Searched(schema, start, target, items, h + 1) && h < |items| && items[h] == i
    && TypesEntered(items, t, i) && t <= schema.Keys && Queued(schema, start, items, h, t)
  }

  lemma {:induction false} HeadDone(schema: Schema, start: Place, target: NodeType, i: Item, items: seq<Item>, h: nat,
          t: set<NodeType>, o: nat)
    requires Entering(schema, start, target, i, items, h, t, o) && o == |i.place.matcher[i.place.at].next|
    requires !CanHold(i.place, target)
    ensures Left(schema, start, target, i, items, h, t)
  {
    HeadSettled(schema, i, target, items, t, o);
  }

  /** Enters the types usable in the entry at the head of the queue that were not entered yet. */
  method EnterNext(schema: Schema, ghost start: Place, ghost target: NodeType, i: Item, n: seq<Item>, t: set<NodeType>,
          ghost items: seq<Item>, ghost h: nat)
    returns (n': seq<Item>, t': set<NodeType>, ghost items': seq<Item>)
    requires SchemaOk(schema) && PlaceOk(schema, start) && ItemOk(schema, start, i) && !CanHold(i.place, target)
    requires Entering(schema, start, target, i, items, h, t, 0) && n == items[h + 1..]
    ensures Left(schema, start, target, i, items', h, t')
    ensures n' == items'[h + 1..] && Pending(schema, n', t') == Pending(schema, n, t)
  {
    n', t', items' := n, t, items;
    var o := 0;
    while o < |i.place.matcher[i.place.at].next|
      invariant o <= |i.place.matcher[i.place.at].next|
      invariant Entering(schema, start, target, i, items', h, t', o)
      invariant n' == items'[h + 1..] && Pending(schema, n', t') == Pending(schema, n, t)
    {
      n', t', items' := EnterEdge(schema, start, target, i, o, n', t', items', h);
      o := o + 1;
    }
    HeadDone(schema, start, target, i, items', h, t', o);
  }

  lemma {:induction false} SuffixSnoc(items: seq<Item>, h: nat, entry: Item)
    requires h <= |items|
    ensures (items + [entry])[h..] == items[h..] + [entry]
  {
  }

  lemma {:induction false} EnterOne(items: seq<Item>, t: set<NodeType>, i: Item, entry: Item)
    requires TypesEntered(items, t, i) && entry.Via? && entry.via == i
    ensures TypesEntered(items + [entry], t + {entry.term}, i)
  {
    forall x | x in t + {entry.term}
      ensures Entered(items + [entry], x, |i.Chain()| + 1)
    {
      if x in t {
        EnteredGrows(items, entry, x, |i.Chain()| + 1);
      } else {
        assert (items + [entry])[|items|] == entry;
      }
    }
  }

  /** Moving on to the next entry, which is at least as long. */
  lemma {:induction false} NextHead(schema: Schema, start: Place, target: NodeType, items: seq<Item>, h: nat,
          t: set<NodeType>)
    requires Searched(schema, start, target, items, h) && 0 < h < |items| && TypesEntered(items, t, items[h - 1])
    ensures TypesEntered(items, t, items[h])
  {
    forall x | x in t
      ensures Entered(items, x, |items[h].Chain()| + 1)
    {
      var k :| 0 <= k < |items| && items[k].Via? && items[k].term == x
        && |items[k].Chain()| <= |items[h - 1].Chain()| + 1;
      assert |items[h - 1].Chain()| <= |items[h].Chain()|;
    }
  }

  lemma {:induction false} SearchStart(schema: Schema, start: Place, target: NodeType)
    requires PlaceOk(schema, start)
    ensures Searched(schema, start, target, [Root(start)], 0) && TypesEntered([Root(start)], {}, Root(start))
    ensures Queued(schema, start, [Root(start)], 0, {}) && FromEdges([Root(start)], Root(start), 0)
  {
    assert Root(start).Chain() == [];
  }

  /** What is known about the next entry, if there is one. */
  ghost predicate AtHead(schema: Schema, start: Place, items: seq<Item>, h: nat, t: set<NodeType>) {
    h < |items| ==>
      TypesEntered(items, t, items[h]) && Queued(schema, start, items, h, t) && FromEdges(items, items[h], 0)
  }

  /** Moving on to the next entry. */
  lemma {:induction false} HeadMoves(schema: Schema, start: Place, target: NodeType, i: Item, items: seq<Item>, h: nat,
          t: set<NodeType>)
    requires Left(schema, start, target, i, items, h, t)
    ensures AtHead(schema, start, items, h + 1, t)
  {
    if h + 1 < |items| {
      NextHead(schema, start, target, items, h + 1, t);
      assert ItemOk(schema, start, items[h + 1]);
      NextLinked(items, h, t);
    }
  }

  /** No chain that wraps, and is as short as that of the entry at the head, comes before it. */
  lemma {:induction false} FoundFirst(schema: Schema, start: Place, target: NodeType, items: seq<Item>, h: nat,
          t: set<NodeType>, chain: seq<NodeType>)
    requires SchemaOk(schema) && PlaceOk(schema, start) && h < |items|
    requires Searched(schema, start, target, items, h) && Queued(schema, start, items, h, t)
    requires Wraps(schema, start, chain, target) && |chain| == |items[h].Chain()|
    ensures NotAfter(schema, start, items[h].Chain(), chain)
  {
    var k := ChainEntered(schema, start, target, items, h, chain);
    assert ItemOk(schema, start, items[k]);
    assert k < h ==> Settled(schema, items[k], target, items);
    HeadFirst(schema, start, target, items, h, t, chain, k);
  }

  /** The chain read off the entry at the head is as short as any that wraps. */
  lemma {:induction false} FoundShortest(schema: Schema, start: Place, target: NodeType, items: seq<Item>, h: nat)
    requires Searched(schema, start, target, items, h) && h < |items|
    requires items[h].place.at < |items[h].place.matcher| && CanHold(items[h].place, target)
    ensures Wraps(schema, start, items[h].Chain(), target)
    ensures forall chain | Wraps(schema, start, chain, target) :: |items[h].Chain()| <= |chain|
  {
    assert ItemOk(schema, start, items[h]);
    forall chain | Wraps(schema, start, chain, target)
      ensures |items[h].Chain()| <= |chain|
    {
      if |chain| < |items[h].Chain()| {
        assert h > 0;
        NothingShorter(schema, start, target, items, h, chain);
      }
    }
  }

  lemma {:induction false} NothingWraps(schema: Schema, start: Place, target: NodeType, items: seq<Item>)
    requires Searched(schema, start, target, items, |items|)
    ensures forall chain :: !Wraps(schema, start, chain, target)
  {
    forall chain
      ensures !Wraps(schema, start, chain, target)
    {
      NothingShorter(schema, start, target, items, |items|, chain);
    }
  }

  /**
   * Searches for types to wrap `target` in so that it fits at `start`. A result really wraps, no
   * chain that wraps is shorter, and of those as short it is the first in the order of the edges;
   * no result means that no chain wraps.
   */
  method ComputeWrapping(schema: Schema, start: Place, target: NodeType) returns (r: Option<seq<NodeType>>)
    requires SchemaOk(schema) && PlaceOk(schema, start)
    ensures r.Some? ==> Wraps(schema, start, r.value, target)
    ensures r.Some? ==> forall chain | Wraps(schema, start, chain, target) ::
      |r.value| <= |chain| && (|r.value| == |chain| ==> NotAfter(schema, start, r.value, chain))
    ensures r.None? ==> forall chain :: !Wraps(schema, start, chain, target)
  {
    var t: set<NodeType> := {};
    var n := [Root(start)];
    ghost var items, h: nat := n, 0;
    SearchStart(schema, start, target);
    while n != []
      invariant Searched(schema, start, target, items, h) && n == items[h..]
      invariant t <= schema.Keys && AtHead(schema, start, items, h, t)
      decreases Pending(schema, n, t)
    {
      var i := n[0];
      assert i == items[h] && ItemOk(schema, start, i);
      if EdgeFor(i.place.matcher[i.place.at].next, target).Some? {
        FoundShortest(schema, start, target, items, h);
        forall chain | Wraps(schema, start, chain, target) && |chain| == |i.Chain()|
          ensures NotAfter(schema, start, i.Chain(), chain)
        {
          FoundFirst(schema, start, target, items, h, t, chain);
        }
        var o := ReadChain(i);
        return Some(o);
      }
      n, t, items := EnterNext(schema, start, target, i, n[1..], t, items, h);
      HeadMoves(schema, start, target, i, items, h, t);
      h := h + 1;
    }
    NothingWraps(schema, start, target, items);
    r := None;
  }
}
