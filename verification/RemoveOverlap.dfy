/** Splitting a sorted list of decorations until no two of them overlap partly (`rr`, `Ri`). */
module RemoveOverlap {

  /** A decoration from `from` up to `until`; copies of a decoration keep its `id`. */
  datatype Span = Span(from: int, until: int, id: int) {
    predicate Empty() {
      from == until
    }

    function Copy(from': int, until': int): Span {
      Span(from', until', id)
    }
  }

  predicate Before(a: Span, b: Span) {
    a.from < b.from || (a.from == b.from && a.until <= b.until)
  }

  predicate Sorted(e: seq<Span>) {
    && (forall i | 0 <= i < |e| :: e[i].from <= e[i].until)
    && forall i, j | 0 <= i < j < |e| :: Before(e[i], e[j])
  }

  /** The same stretch, or no overlap; an empty span is not strictly inside the other. */
  predicate Apart(a: Span, b: Span) {
    (a.from == b.from && a.until == b.until) || a.until <= b.from || b.until <= a.from
  }

  // ----- sums over a list -----

  ghost function Sum(e: seq<Span>, f: Span -> int): int {
    if e == [] then 0 else f(e[0]) + Sum(e[1..], f)
  }

  lemma {:induction false} SumAppend(a: seq<Span>, b: seq<Span>, f: Span -> int)
    ensures Sum(a + b, f) == Sum(a, f) + Sum(b, f)
  {
    if a == [] {
      assert a + b == b;
    } else {
      assert (a + b)[1..] == a[1..] + b;
      SumAppend(a[1..], b, f);
    }
  }

  lemma {:induction false} SumUpdate(e: seq<Span>, i: nat, s: Span, f: Span -> int)
    requires i < |e|
    ensures Sum(e[i := s], f) == Sum(e, f) - f(e[i]) + f(s)
  {
    assert e == e[..i] + ([e[i]] + e[i + 1..]);
    assert e[i := s] == e[..i] + ([s] + e[i + 1..]);
    SumAppend(e[..i], [e[i]] + e[i + 1..], f);
    SumAppend(e[..i], [s] + e[i + 1..], f);
  }

  lemma {:induction false} SumInsert(e: seq<Span>, i: nat, s: Span, f: Span -> int)
    requires i <= |e|
    ensures Sum(e[..i] + [s] + e[i..], f) == Sum(e, f) + f(s)
  {
    assert e == e[..i] + e[i..];
    SumAppend(e[..i], e[i..], f);
    SumAppend(e[..i], [s], f);
    SumAppend(e[..i] + [s], e[i..], f);
  }

  /** How many spans of decoration `id` cover the step from `x` to `x + 1`. */
  ghost function Cover(e: seq<Span>, id: int, x: int): int {
    Sum(e, (s: Span) => if s.id == id && s.from <= x < s.until then 1 else 0)
  }

  /** How many empty spans of decoration `id` sit at `x`. */
  ghost function Marks(e: seq<Span>, id: int, x: int): int {
    Sum(e, (s: Span) => if s.id == id && s.from == s.until == x then 1 else 0)
  }

  ghost predicate SameDecorations(a: seq<Span>, b: seq<Span>) {
    forall id, x :: Cover(a, id, x) == Cover(b, id, x) && Marks(a, id, x) == Marks(b, id, x)
  }

  lemma {:induction false} SumOfNothing(e: seq<Span>, f: Span -> int)
    requires forall i | 0 <= i < |e| :: f(e[i]) == 0
    ensures Sum(e, f) == 0
  {
    if e != [] {
      SumOfNothing(e[1..], f);
    }
  }

  lemma {:induction false} SumOfOne(e: seq<Span>, i: nat, f: Span -> int)
    requires i < |e| && forall j | 0 <= j < |e| && j != i :: f(e[j]) == 0
    ensures Sum(e, f) == f(e[i])
  {
    assert e == e[..i] + ([e[i]] + e[i + 1..]);
    SumAppend(e[..i], [e[i]] + e[i + 1..], f);
    SumOfNothing(e[..i], f);
    SumOfNothing(e[i + 1..], f);
  }

  /** The pieces of a decoration with an id of its own tile it: each step of it lies in exactly one piece. */
  lemma {:induction false} PiecesTile(spans: seq<Span>, e: seq<Span>, i: nat, x: int)
    requires SameDecorations(spans, e)
    requires i < |spans| && forall j | 0 <= j < |spans| && j != i :: spans[j].id != spans[i].id
    ensures Cover(e, spans[i].id, x) == if spans[i].from <= x < spans[i].until then 1 else 0
    ensures Marks(e, spans[i].id, x) == if spans[i].from == spans[i].until == x then 1 else 0
  {
    var id := spans[i].id;
    SumOfOne(spans, i, (s: Span) => if s.id == id && s.from <= x < s.until then 1 else 0);
    SumOfOne(spans, i, (s: Span) => if s.id == id && s.from == s.until == x then 1 else 0);
    assert Cover(e, id, x) == Cover(spans, id, x) && Marks(e, id, x) == Marks(spans, id, x);
  }

  // ----- the measure -----

  ghost function Ends(e: seq<Span>): set<int> {
    (set i | 0 <= i < |e| :: e[i].from) + set i | 0 <= i < |e| :: e[i].until
  }

  ghost function Inner(ends: set<int>, s: Span): int {
    |set p | p in ends && s.from < p < s.until|
  }

  /** The places where some span could still be cut. */
  ghost function Cuts(ends: set<int>, e: seq<Span>): int {
    Sum(e, (s: Span) => Inner(ends, s))
  }

  lemma {:induction false} InnerSplit(ends: set<int>, s: Span, p: int)
    requires p in ends && s.from < p < s.until
    ensures Inner(ends, s) == Inner(ends, s.Copy(s.from, p)) + Inner(ends, s.Copy(p, s.until)) + 1
  {
    var a := set q | q in ends && s.from < q < p;
    var b := set q | q in ends && p < q < s.until;
    var c := set q | q in ends && s.from < q < s.until;
    assert c == a + b + {p};
    assert a !! b && p !in a + b;
  }

  // ----- one split -----

  /** `e2` is `e` with span `i` cut at `p` and its second piece inserted at `k`. */
  ghost predicate SplitAt(e: seq<Span>, i: nat, p: int, k: nat, e2: seq<Span>) {
    && i < k <= |e| && e[i].from < p < e[i].until
    && var cut := e[i := e[i].Copy(e[i].from, p)];
    e2 == cut[..k] + [e[i].Copy(p, e[i].until)] + cut[k..]
  }

  lemma {:induction false} SplitSum(e: seq<Span>, i: nat, p: int, k: nat, e2: seq<Span>, f: Span -> int)
    requires SplitAt(e, i, p, k, e2)
    ensures Sum(e2, f) == Sum(e, f) - f(e[i]) + f(e[i].Copy(e[i].from, p)) + f(e[i].Copy(p, e[i].until))
  {
    SumUpdate(e, i, e[i].Copy(e[i].from, p), f);
    SumInsert(e[i := e[i].Copy(e[i].from, p)], k, e[i].Copy(p, e[i].until), f);
  }

  lemma {:induction false} SplitKeeps(e: seq<Span>, i: nat, p: int, k: nat, e2: seq<Span>)
    requires SplitAt(e, i, p, k, e2)
    ensures SameDecorations(e, e2)
  {
    forall id, x
      ensures Cover(e, id, x) == Cover(e2, id, x) && Marks(e, id, x) == Marks(e2, id, x)
    {
      SplitSum(e, i, p, k, e2, (s: Span) => if s.id == id && s.from <= x < s.until then 1 else 0);
      SplitSum(e, i, p, k, e2, (s: Span) => if s.id == id && s.from == s.until == x then 1 else 0);
    }
  }

  /** Each split uses up one cut and makes the list one longer. */
  lemma {:induction false} SplitMeasure(ends: set<int>, e: seq<Span>, i: nat, p: int, k: nat, e2: seq<Span>)
    requires SplitAt(e, i, p, k, e2) && p in ends
    ensures Cuts(ends, e2) + |e2| == Cuts(ends, e) + |e|
  {
    SplitSum(e, i, p, k, e2, (s: Span) => Inner(ends, s));
    InnerSplit(ends, e[i], p);
  }

  lemma {:induction false} CutsNonNegative(ends: set<int>, e: seq<Span>)
    ensures Cuts(ends, e) >= 0
  {
    if e != [] {
      CutsNonNegative(ends, e[1..]);
    }
  }

  /** The first place from `k` on where `s` is not after what stands there. */
  function Slot(e: seq<Span>, k: nat, s: Span): (at: nat)
    requires k <= |e|
    ensures k <= at <= |e|
    ensures forall j | k <= j < at :: Before(e[j], s)
    ensures at < |e| ==> Before(s, e[at])
    decreases |e| - k
  {
    if k < |e| && (s.from > e[k].from || (s.from == e[k].from && s.until > e[k].until)) then Slot(e, k + 1, s) else k
  }

  method InsertAhead(e: seq<Span>, k: nat, s: Span) returns (e2: seq<Span>)
    requires k <= |e|
    ensures e2 == e[..Slot(e, k, s)] + [s] + e[Slot(e, k, s)..]
  {
    var i := k;
    while i < |e| && (s.from > e[i].from || (s.from == e[i].from && s.until > e[i].until))
      invariant k <= i <= |e| && Slot(e, k, s) == Slot(e, i, s)
    {
      i := i + 1;
    }
    e2 := e[..i] + [s] + e[i..];
  }

  // ----- what is settled -----

  /** No later span starts inside span `a`. */
  ghost predicate NoneInside(e: seq<Span>, a: nat)
    requires a < |e|
  {
    forall j | a < j < |e| && e[j].from > e[a].from :: e[j].from >= e[a].until
  }

  /** Later spans that start with span `a` end with it, or will be cut there. */
  ghost predicate SameStart(e: seq<Span>, a: nat, done: nat)
    requires a < |e|
  {
    forall j | a < j < |e| && e[j].from == e[a].from ::
      && e[j].until >= e[a].until
      && (j < done ==> e[j].until == e[a].until)
      && (e[j].until > e[a].until ==> StartsAt(e, e[a].until))
  }

  /** Those that are still to be cut all end in the same place. */
  ghost predicate SameRest(e: seq<Span>, a: nat, done: nat)
    requires a < |e|
  {
    forall j, k | a < j < |e| && a < k < |e| && done <= j && done <= k && e[j].from == e[k].from == e[a].from ::
      e[j].until == e[k].until
  }

  ghost predicate Clear(e: seq<Span>, a: nat, done: nat)
    requires a < |e|
  {
    e[a].Empty() || (NoneInside(e, a) && SameStart(e, a, done) && SameRest(e, a, done))
  }

  ghost predicate StartsAt(e: seq<Span>, p: int) {
    exists k :: 0 <= k < |e| && e[k].from == p
  }

  ghost predicate ClearUpTo(e: seq<Span>, t: nat)
  {
    t <= |e| && forall a | 0 <= a < t :: Clear(e, a, t)
  }

  /** The spans between `t` and `i` are the same stretch as span `t`. */
  predicate Alike(e: seq<Span>, t: nat, i: nat) {
    t < i <= |e| && forall j | t <= j < i :: e[j].from == e[t].from && e[j].until == e[t].until
  }

  /** The inserted piece of a split stands in order. */
  ghost predicate InOrder(e: seq<Span>, i: nat, p: int, k: nat, first: nat) {
    && i < first <= k <= |e| && i < |e|
    && (forall j | first <= j < k :: Before(e[j], e[i].Copy(p, e[i].until)))
    && (k < |e| ==> Before(e[i].Copy(p, e[i].until), e[k]))
  }

  lemma {:induction false} SplitElements(e: seq<Span>, i: nat, p: int, k: nat, e2: seq<Span>)
    requires SplitAt(e, i, p, k, e2)
    ensures |e2| == |e| + 1
    ensures e2[k] == e[i].Copy(p, e[i].until)
    ensures e2[i] == e[i].Copy(e[i].from, p)
    ensures forall j | 0 <= j < k && j != i :: e2[j] == e[j]
    ensures forall j | k < j < |e2| :: e2[j] == e[j - 1]
    ensures forall q :: StartsAt(e, q) ==> StartsAt(e2, q)
  {
    forall q | StartsAt(e, q)
      ensures StartsAt(e2, q)
    {
      var j :| 0 <= j < |e| && e[j].from == q;
      assert e2[if j < k then j else j + 1].from == q;
    }
  }

  /** Cutting span `i`, whose neighbours on the left are no longer than the cut, keeps the order. */
  lemma {:induction false} SplitSorted(e: seq<Span>, i: nat, p: int, k: nat, first: nat, e2: seq<Span>)
    requires Sorted(e) && SplitAt(e, i, p, k, e2) && InOrder(e, i, p, k, first)
    requires forall j | 0 <= j < i && e[j].from == e[i].from :: e[j].until <= p
    requires forall j | i < j < first :: Before(e[j], e[i].Copy(p, e[i].until))
    ensures Sorted(e2)
  {
    SplitElements(e, i, p, k, e2);
    forall a, b | 0 <= a < b < |e2|
      ensures Before(e2[a], e2[b])
    {
      var a' := if a <= k then a else a - 1;
      var b' := if b <= k then b else b - 1;
      if b == k {
        assert a < i ==> Before(e[a], e[i]);
      } else if a == k {
        assert k < |e| && (b' == k || Before(e[k], e[b']));
      } else {
        assert Before(e[a'], e[b']);
      }
    }
  }

  lemma {:induction false} SplitNoneInside(e: seq<Span>, i: nat, p: int, k: nat, e2: seq<Span>, a: nat)
    requires Sorted(e) && SplitAt(e, i, p, k, e2) && a < i && NoneInside(e, a)
    requires e[i].from == e[a].from ==> p >= e[a].until
    ensures NoneInside(e2, a)
  {
    SplitElements(e, i, p, k, e2);
    assert e2[a] == e[a] && Before(e[a], e[i]);
    forall j | a < j < |e2| && e2[j].from > e2[a].from
      ensures e2[j].from >= e2[a].until
    {
      if j > k { assert e2[j] == e[j - 1]; }
    }
  }

  lemma {:induction false} SplitSameStart(e: seq<Span>, i: nat, p: int, k: nat, e2: seq<Span>, a: nat, t: nat,
          done: nat)
    requires Sorted(e) && SplitAt(e, i, p, k, e2) && a < t <= i && t <= done
    requires SameStart(e, a, t) && !e[a].Empty()
    requires e[i].from == e[a].from ==> i < done && p == e[a].until
    requires done == t || (done == t + 1 && i == t)
    ensures SameStart(e2, a, done)
  {
    SplitElements(e, i, p, k, e2);
    assert e2[a] == e[a] && Before(e[a], e[i]);
    forall j | a < j < |e2| && e2[j].from == e2[a].from
      ensures e2[j].until >= e2[a].until
      ensures j < done ==> e2[j].until == e2[a].until
      ensures e2[j].until > e2[a].until ==> StartsAt(e2, e2[a].until)
    {
      if j > k { assert e2[j] == e[j - 1]; }
    }
  }

  lemma {:induction false} SplitSameRest(e: seq<Span>, i: nat, p: int, k: nat, e2: seq<Span>, a: nat, t: nat, done: nat)
    requires Sorted(e) && SplitAt(e, i, p, k, e2) && a < t <= i && t <= done
    requires SameRest(e, a, t) && !e[a].Empty()
    requires e[i].from == e[a].from ==> i < done && p == e[a].until
    requires done == t || (done == t + 1 && i == t)
    ensures SameRest(e2, a, done)
  {
    SplitElements(e, i, p, k, e2);
    assert e2[a] == e[a] && Before(e[a], e[i]);
    forall j, l | a < j < |e2| && a < l < |e2| && done <= j && done <= l && e2[j].from == e2[l].from == e2[a].from
      ensures e2[j].until == e2[l].until
    {
      var j' := if j < k then j else j - 1;
      var l' := if l < k then l else l - 1;
      assert e2[j].until == e[j'].until && e2[l].until == e[l'].until;
    }
  }

  /** Settled spans stay settled while a later span is cut where they allow it. */
  lemma {:induction false} SplitClear(e: seq<Span>, i: nat, p: int, k: nat, e2: seq<Span>, a: nat, t: nat, done: nat)
    requires Sorted(e) && SplitAt(e, i, p, k, e2) && a < t <= i && t <= done
    requires Clear(e, a, t)
    requires e[i].from == e[a].from ==> p >= e[a].until && i < done && p == e[a].until
    requires done == t || (done == t + 1 && i == t)
    ensures Clear(e2, a, done)
  {
    SplitElements(e, i, p, k, e2);
    if !e[a].Empty() {
      SplitNoneInside(e, i, p, k, e2, a);
      SplitSameStart(e, i, p, k, e2, a, t, done);
      SplitSameRest(e, i, p, k, e2, a, t, done);
    }
  }

  /** The endpoints that occur are among those the list started with, and so are all cuts. */
  ghost predicate Within(e: seq<Span>, ends: set<int>) {
    forall i | 0 <= i < |e| :: e[i].from in ends && e[i].until in ends
  }

  /** A decoration begins or ends at `q`. */
  ghost predicate EndsAt(e: seq<Span>, q: int) {
    exists i :: 0 <= i < |e| && (e[i].from == q || e[i].until == q)
  }

  /** What every step keeps of the list it started from: decorations, endpoints, and the measure. */
  ghost predicate Faithful(start: seq<Span>, e: seq<Span>) {
    && SameDecorations(start, e)
    && Within(e, Ends(start)) && (forall q | EndsAt(start, q) :: EndsAt(e, q))
    && Cuts(Ends(start), e) + |e| == Cuts(Ends(start), start) + |start|
  }

  lemma {:induction false} StartFaithful(e: seq<Span>)
    ensures Faithful(e, e)
  {
  }

  /** Each endpoint is still one after a cut. */
  lemma {:induction false} SplitEnds(e: seq<Span>, i: nat, p: int, k: nat, e2: seq<Span>, q: int)
    requires SplitAt(e, i, p, k, e2) && EndsAt(e, q)
    ensures EndsAt(e2, q)
  {
    SplitElements(e, i, p, k, e2);
    var j :| 0 <= j < |e| && (e[j].from == q || e[j].until == q);
    var j' := if j == i && e[j].from != q then k else if j < k then j else j + 1;
    assert e2[j'].from == q || e2[j'].until == q;
  }

  lemma {:induction false} SplitFaithful(start: seq<Span>, e: seq<Span>, i: nat, p: int, k: nat, e2: seq<Span>)
    requires Faithful(start, e) && SplitAt(e, i, p, k, e2) && p in Ends(start)
    ensures Faithful(start, e2)
  {
    SplitKeeps(e, i, p, k, e2);
    SplitMeasure(Ends(start), e, i, p, k, e2);
    SplitElements(e, i, p, k, e2);
    forall q | EndsAt(start, q)
      ensures EndsAt(e2, q)
    {
      SplitEnds(e, i, p, k, e2, q);
    }
    forall id, x
      ensures Cover(start, id, x) == Cover(e2, id, x) && Marks(start, id, x) == Marks(e2, id, x)
    {
      assert Cover(start, id, x) == Cover(e, id, x) && Marks(start, id, x) == Marks(e, id, x);
      assert Cover(e, id, x) == Cover(e2, id, x) && Marks(e, id, x) == Marks(e2, id, x);
    }
    forall j | 0 <= j < |e2|
      ensures e2[j].from in Ends(start) && e2[j].until in Ends(start)
    {
      var j' := if j <= k then j else j - 1;
      assert j == k || j == i || e2[j] == e[j'];
    }
  }

  /** How long the list can get. */
  ghost function Limit(start: seq<Span>): (n: int) {
    Cuts(Ends(start), start) + |start|
  }

  lemma {:induction false} FaithfulLimit(start: seq<Span>, e: seq<Span>)
    requires Faithful(start, e)
    ensures |e| <= Limit(start)
  {
    CutsNonNegative(Ends(start), e);
  }

  lemma {:induction false} StartsRise(e: seq<Span>, a: nat, b: nat)
    requires Sorted(e) && a <= b < |e|
    ensures e[a].from <= e[b].from
  {
    if a < b {
      assert Before(e[a], e[b]);
    }
  }

  /** A span that starts after span `t` starts no earlier than the first such span. */
  lemma {:induction false} LaterStart(e: seq<Span>, t: nat, i: nat, l: nat)
    requires Sorted(e) && Alike(e, t, i) && i < |e| && l < |e|
    ensures e[l].from <= e[t].from || e[l].from >= e[i].from
  {
    if l < t {
      StartsRise(e, l, t);
    } else if l >= i {
      StartsRise(e, i, l);
    }
  }

  /** What the insertion found out, about the list before the cut. */
  lemma {:induction false} InsertedInOrder(e: seq<Span>, i: nat, p: int, k: nat, first: nat)
    requires i < first <= k <= |e| && i < |e|
    requires var cut := e[i := e[i].Copy(e[i].from, p)];
      && (forall j | first <= j < k :: Before(cut[j], e[i].Copy(p, e[i].until)))
      && (k < |e| ==> Before(e[i].Copy(p, e[i].until), cut[k]))
    ensures InOrder(e, i, p, k, first)
  {
    var cut := e[i := e[i].Copy(e[i].from, p)];
    assert forall j | first <= j < |e| :: cut[j] == e[j];
  }

  /** A longer span that starts with span `t` is cut to the same stretch; its rest goes further on. */
  lemma {:induction false} LongerCut(e: seq<Span>, t: nat, i: nat, k: nat, e2: seq<Span>)
    requires Sorted(e) && ClearUpTo(e, t) && Alike(e, t, i) && i < |e| && !e[t].Empty()
    requires e[i].from == e[t].from && e[i].until != e[t].until
    requires SplitAt(e, i, e[t].until, k, e2) && InOrder(e, i, e[t].until, k, i + 1)
    ensures Sorted(e2) && ClearUpTo(e2, t) && Alike(e2, t, i + 1) && e2[t] == e[t]
  {
    SplitElements(e, i, e[t].until, k, e2);
    forall j | 0 <= j < i && e[j].from == e[i].from
      ensures e[j].until <= e[t].until
    {
      assert j <= t ==> j == t || Before(e[j], e[t]);
    }
    SplitSorted(e, i, e[t].until, k, i + 1, e2);
    forall a | 0 <= a < t
      ensures Clear(e2, a, t)
    {
      assert Clear(e, a, t);
      if e[a].Empty() {
        assert e2[a] == e[a];
      } else {
        assert e[i].from != e[a].from;
        SplitClear(e, i, e[t].until, k, e2, a, t, t);
      }
    }
  }

  /** The first later span with another start, when it starts inside span `t`, cuts span `t`. */
  lemma {:induction false} FirstCut(e: seq<Span>, t: nat, i: nat, k: nat, e2: seq<Span>)
    requires Sorted(e) && ClearUpTo(e, t) && Alike(e, t, i) && i < |e| && !e[t].Empty()
    requires e[t].from != e[i].from && e[i].from < e[t].until
    requires SplitAt(e, t, e[i].from, k, e2) && InOrder(e, t, e[i].from, k, i)
    ensures Sorted(e2) && ClearUpTo(e2, t + 1)
  {
    var p := e[i].from;
    SplitElements(e, t, p, k, e2);
    forall a | 0 <= a < t
      ensures e[a].from == e[t].from && !e[a].Empty() ==> p == e[a].until
    {
      assert Clear(e, a, t);
      if e[a].from == e[t].from && !e[a].Empty() && e[t].until > e[a].until {
        var l :| 0 <= l < |e| && e[l].from == e[a].until;
        LaterStart(e, t, i, l);
      }
    }
    SplitSorted(e, t, p, k, i, e2);
    var done := t + 1;
    forall a | 0 <= a < t
      ensures Clear(e2, a, done)
    {
      assert Clear(e, a, t);
      if e[a].Empty() {
        assert e2[a] == e[a];
      } else {
        SplitClear(e, t, p, k, e2, a, t, done);
      }
    }
    FirstCutClear(e, t, i, k, e2);
  }

  lemma {:induction false} FirstCutClear(e: seq<Span>, t: nat, i: nat, k: nat, e2: seq<Span>)
    requires Sorted(e) && Alike(e, t, i) && i < |e|
    requires e[t].from != e[i].from && e[i].from < e[t].until
    requires SplitAt(e, t, e[i].from, k, e2) && i <= k
    ensures Clear(e2, t, t + 1)
  {
    var p := e[i].from;
    SplitElements(e, t, p, k, e2);
    assert StartsAt(e, p);
    forall j | t < j < |e2|
      ensures e2[j].from == e[t].from ==> j < i && e2[j] == e[j]
      ensures e2[j].from != e[t].from ==> e2[j].from >= p
    {
      var j' := if j < k then j else j - 1;
      assert j != k ==> e2[j] == e[j'];
      assert j' > i ==> Before(e[i], e[j']);
    }
  }

  /** With nothing starting inside span `t`, it is settled as it is. */
  lemma {:induction false} NoCut(e: seq<Span>, t: nat, i: nat)
    requires Sorted(e) && ClearUpTo(e, t) && Alike(e, t, i) && !e[t].Empty()
    requires i == |e| || (e[i].from != e[t].from && e[i].from >= e[t].until)
    ensures ClearUpTo(e, t + 1)
  {
    forall j | t < j < |e|
      ensures e[j].from == e[t].from ==> j < i
      ensures e[j].from != e[t].from ==> e[j].from >= e[t].until
    {
      assert i < j ==> Before(e[i], e[j]);
    }
    forall l | 0 <= l < |e|
      ensures e[l].from <= e[t].from || e[l].from >= e[t].until
    {
      if l < t { StartsRise(e, l, t); }
    }
    var done := t + 1;
    forall a | 0 <= a < t
      ensures Clear(e, a, done)
    {
      assert Clear(e, a, t);
    }
  }

  lemma {:induction false} EmptyClear(e: seq<Span>, t: nat)
    requires Sorted(e) && ClearUpTo(e, t) && t < |e| && e[t].Empty()
    ensures ClearUpTo(e, t + 1)
  {
    var done := t + 1;
    forall a | 0 <= a < t
      ensures Clear(e, a, done)
    {
      assert Clear(e, a, t);
      assert Before(e[a], e[t]);
    }
  }

  lemma {:induction false} NoneAfterLast(e: seq<Span>, p: int)
    requires Sorted(e) && |e| > 0 && p > e[|e| - 1].from
    ensures !StartsAt(e, p)
  {
    forall l | 0 <= l < |e|
      ensures e[l].from != p
    {
      StartsRise(e, l, |e| - 1);
    }
  }

  /** Everything settled but the last span leaves no partial overlap. */
  lemma {:induction false} ClearApart(e: seq<Span>, last: nat)
    requires Sorted(e) && last + 1 == |e| && ClearUpTo(e, last)
    ensures forall i, j | 0 <= i < j < |e| :: Apart(e[i], e[j])
  {
    forall i, j | 0 <= i < j < |e|
      ensures Apart(e[i], e[j])
    {
      assert i < last ==> Clear(e, i, last);
      assert Before(e[i], e[j]);
      if e[i].from == e[j].from && j == |e| - 1 && !e[i].Empty() {
        NoneAfterLast(e, e[i].until);
      }
    }
  }

  /** Where the second part goes when span `i` is split at `p`, looking from `k` on. */
  function SecondAt(e: seq<Span>, i: nat, p: int, k: nat): (at: nat)
    requires i < k <= |e|
    ensures k <= at <= |e|
  {
    Slot(e[i := e[i].Copy(e[i].from, p)], k, e[i].Copy(p, e[i].until))
  }

  /** Ends span `i` at `p`, and puts the rest of it where it belongs from `k` on. */
  method Split(e: seq<Span>, i: nat, p: int, k: nat) returns (e2: seq<Span>)
    requires i < k <= |e| && e[i].from < p < e[i].until
    ensures SplitAt(e, i, p, SecondAt(e, i, p, k), e2) && InOrder(e, i, p, SecondAt(e, i, p, k), k)
  {
    e2 := e[i := e[i].Copy(e[i].from, p)];
    InsertedInOrder(e, i, p, SecondAt(e, i, p, k), k);
    e2 := InsertAhead(e2, k, e[i].Copy(p, e[i].until));
  }

  ghost predicate SettledSoFar(start: seq<Span>, e: seq<Span>, t: nat) {
    Sorted(e) && ClearUpTo(e, t) && Faithful(start, e)
  }

  /** The inner loop: span `t` against the spans after it. */
  method SettleSpan(ghost start: seq<Span>, e: seq<Span>, t: nat) returns (e2: seq<Span>)
    requires SettledSoFar(start, e, t) && t < |e| && !e[t].Empty()
    ensures SettledSoFar(start, e2, t + 1) && |e2| >= |e|
  {
    e2 := e;
    var n := e[t];
    var i := t + 1;
    while i < |e2|
      invariant SettledSoFar(start, e2, t) && Alike(e2, t, i) && e2[t] == n && |e2| >= |e|
      decreases Limit(start) - i
    {
      FaithfulLimit(start, e2);
      assert Before(e2[t], e2[i]);
      ghost var before := e2;
      if e2[i].from == n.from {
        if e2[i].until != n.until {
          e2 := Split(e2, i, n.until, i + 1);
          ghost var at := SecondAt(before, i, n.until, i + 1);
          LongerCut(before, t, i, at, e2);
          SplitFaithful(start, before, i, n.until, at, e2);
        }
        i := i + 1;
        continue;
      }
      if e2[i].from < n.until {
        e2 := Split(e2, t, e2[i].from, i);
        ghost var at := SecondAt(before, t, before[i].from, i);
        FirstCut(before, t, i, at, e2);
        SplitFaithful(start, before, t, before[i].from, at, e2);
      } else {
        NoCut(e2, t, i);
      }
      return;
    }
    NoCut(e2, t, i);
  }

  /** One round of the outer loop; empty spans are left alone. */
  method SettleNext(ghost start: seq<Span>, e: seq<Span>, t: nat) returns (e2: seq<Span>)
    requires SettledSoFar(start, e, t) && t < |e|
    ensures SettledSoFar(start, e2, t + 1) && |e2| >= |e|
  {
    if e[t].from != e[t].until {
      e2 := SettleSpan(start, e, t);
    } else {
      EmptyClear(e, t);
      e2 := e;
    }
  }

  /** No two spans overlap partly, and no empty one is inside another. */
  ghost predicate AllApart(e: seq<Span>) {
    forall i, j | 0 <= i < j < |e| :: Apart(e[i], e[j])
  }

  lemma {:induction false} SettledApart(start: seq<Span>, e: seq<Span>, t: nat)
    requires SettledSoFar(start, e, t) && t + 1 >= |e|
    ensures Sorted(e) && Faithful(start, e) && AllApart(e)
  {
    if t + 1 == |e| {
      ClearApart(e, t);
    } else if |e| > 0 {
      assert ClearUpTo(e, |e|);
      forall i, j | 0 <= i < j < |e|
        ensures Apart(e[i], e[j])
      {
        assert Clear(e, i, |e|) && Before(e[i], e[j]);
      }
    }
  }

  /** The outer loop. */
  method SettleAll(spans: seq<Span>) returns (e: seq<Span>)
    requires SettledSoFar(spans, spans, 0)
    ensures Sorted(e) && Faithful(spans, e) && AllApart(e)
  {
    e := spans;
    ghost var limit := Limit(spans);
    FaithfulLimit(spans, e);
    var n: nat := 0;
    while n + 1 < |e|
      invariant SettledSoFar(spans, e, n)
      invariant |e| <= limit
      decreases limit - n
    {
      e := SettleNext(spans, e, n);
      FaithfulLimit(spans, e);
      n := n + 1;
    }
    SettledApart(spans, e, n);
  }

  /** Spans that are all apart have no endpoint inside one of them. */
  lemma {:induction false} NoneCut(e: seq<Span>, i: nat, p: int)
    requires Sorted(e) && AllApart(e) && i < |e| && EndsAt(e, p)
    ensures p <= e[i].from || e[i].until <= p
  {
    var j :| 0 <= j < |e| && (e[j].from == p || e[j].until == p);
    assert i < j ==> Apart(e[i], e[j]);
    assert j < i ==> Apart(e[j], e[i]);
  }

  lemma {:induction false} CutEverywhere(spans: seq<Span>, e: seq<Span>)
    requires Sorted(e) && Faithful(spans, e) && AllApart(e)
    ensures forall i | 0 <= i < |e| :: EndsAt(spans, e[i].from) && EndsAt(spans, e[i].until)
    ensures forall i, p | 0 <= i < |e| && EndsAt(spans, p) :: p <= e[i].from || e[i].until <= p
  {
    forall i, p | 0 <= i < |e| && EndsAt(spans, p)
      ensures p <= e[i].from || e[i].until <= p
    {
      NoneCut(e, i, p);
    }
    forall i | 0 <= i < |e|
      ensures EndsAt(spans, e[i].from) && EndsAt(spans, e[i].until)
    {
      assert e[i].from in Ends(spans) && e[i].until in Ends(spans);
    }
  }

  /**
   * Splits a sorted list of decorations. No two results overlap partly and no empty one is inside
   * another, the order is kept, and the pieces of each decoration cover exactly what it covered.
   * It is cut where some decoration begins or ends inside it, and nowhere else.
   */
  method Remove(spans: seq<Span>) returns (e: seq<Span>)
    requires Sorted(spans)
    ensures Sorted(e)
    ensures AllApart(e)
    ensures SameDecorations(spans, e)
    ensures forall i | 0 <= i < |e| :: EndsAt(spans, e[i].from) && EndsAt(spans, e[i].until)
    ensures forall i, p | 0 <= i < |e| && EndsAt(spans, p) :: p <= e[i].from || e[i].until <= p
  {
    StartFaithful(spans);
    e := SettleAll(spans);
    CutEverywhere(spans, e);
  }
}
