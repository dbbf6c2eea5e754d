/** Sets of marks (`Mark.addToSet`): kept in order of rank, with no mark beside one that excludes it. */
module Marks {
  import opened Options

  /** A mark; the rank is the place of its type in the schema, so it identifies the type. */
  datatype Mark = Mark(rank: nat, attrs: map<string, string>)

  /** Whether marks of the first type exclude those of the second. */
  type Excludes = (nat, nat) -> bool

  /** `s` keeps `m` out: it excludes it, and is not excluded by it. */
  predicate Blocks(ex: Excludes, s: Mark, m: Mark) {
    ex(s.rank, m.rank) && !ex(m.rank, s.rank)
  }

  /** The set is left alone when `m` is in it, or one of its marks keeps `m` out. */
  predicate Refused(ex: Excludes, m: Mark, marks: seq<Mark>) {
    exists i :: 0 <= i < |marks| && (marks[i] == m || Blocks(ex, marks[i], m))
  }

  /** The marks that `m` does not exclude. */
  function Kept(ex: Excludes, m: Mark, s: seq<Mark>): seq<Mark> {
    if s == [] then [] else
      var last := s[|s| - 1];
      Kept(ex, m, s[..|s| - 1]) + if ex(m.rank, last.rank) then [] else [last]
  }

  predicate RankAbove(s: seq<Mark>, m: Mark) {
    exists i :: 0 <= i < |s| && s[i].rank > m.rank
  }

  /** `m` put before the first mark of a higher rank, or at the end. */
  function Insert(s: seq<Mark>, m: Mark): seq<Mark> {
    if s == [] then [m]
    else if s[0].rank > m.rank then [m] + s
    else [s[0]] + Insert(s[1..], m)
  }

  function Added(ex: Excludes, m: Mark, s: seq<Mark>): seq<Mark> {
    if Refused(ex, m, s) then s else Insert(Kept(ex, m, s), m)
  }

  lemma {:induction false} InsertLast(s: seq<Mark>, m: Mark)
    requires !RankAbove(s, m)
    ensures Insert(s, m) == s + [m]
  {
    if s != [] {
      assert !(s[0].rank > m.rank);
      assert forall i | 0 <= i < |s[1..]| :: s[1..][i] == s[i + 1];
      InsertLast(s[1..], m);
    }
  }

  lemma {:induction false} InsertMore(s: seq<Mark>, m: Mark, x: Mark)
    ensures RankAbove(s, m) ==> Insert(s + [x], m) == Insert(s, m) + [x]
    ensures !RankAbove(s, m) && x.rank > m.rank ==> Insert(s + [x], m) == s + [m] + [x]
  {
    if s == [] {
      assert [] + [x] == [x] && [] + [m] + [x] == [m] + [x];
    } else {
      assert (s + [x])[1..] == s[1..] + [x];
      InsertMore(s[1..], m, x);
      if s[0].rank > m.rank {
        assert RankAbove(s, m);
      } else {
        assert RankAbove(s, m) ==> RankAbove(s[1..], m) by {
          if RankAbove(s, m) {
            var i :| 0 <= i < |s| && s[i].rank > m.rank;
            assert s[1..][i - 1].rank > m.rank;
          }
        }
        assert RankAbove(s[1..], m) ==> RankAbove(s, m) by {
          if RankAbove(s[1..], m) {
            var i :| 0 <= i < |s[1..]| && s[1..][i].rank > m.rank;
            assert s[i + 1].rank > m.rank;
          }
        }
      }
    }
  }

  lemma {:induction false} KeptMore(ex: Excludes, m: Mark, s: seq<Mark>, x: Mark)
    ensures Kept(ex, m, s + [x]) == if ex(m.rank, x.rank) then Kept(ex, m, s) else Kept(ex, m, s) + [x]
  {
    assert (s + [x])[..|s|] == s && Kept(ex, m, s) + [] == Kept(ex, m, s);
  }

  lemma {:induction false} RankAboveMore(s: seq<Mark>, m: Mark, x: Mark)
    ensures RankAbove(s + [x], m) <==> RankAbove(s, m) || x.rank > m.rank
  {
    assert (s + [x])[|s|] == x;
    if RankAbove(s, m) {
      var i :| 0 <= i < |s| && s[i].rank > m.rank;
      assert (s + [x])[i].rank > m.rank;
    }
  }

  /** What the scan has copied of the marks it has seen, if it copied anything. */
  ghost predicate Copied(ex: Excludes, m: Mark, seen: seq<Mark>, copy: Option<seq<Mark>>, placed: bool) {
    var kept := Kept(ex, m, seen);
    && (placed <==> RankAbove(kept, m))
    && match copy
       case None => !placed && kept == seen
       case Some(c) => c == if placed then Insert(kept, m) else kept
  }

  lemma {:induction false} CopiedNext(ex: Excludes, m: Mark, seen: seq<Mark>, copy: Option<seq<Mark>>, placed: bool,
          other: Mark)
    requires Copied(ex, m, seen, copy, placed)
    ensures var sofar := if copy.None? then seen else copy.value;
      if ex(m.rank, other.rank) then Copied(ex, m, seen + [other], Some(sofar), placed)
      else if !placed && other.rank > m.rank then Copied(ex, m, seen + [other], Some(sofar + [m] + [other]), true)
      else Copied(ex, m, seen + [other], if copy.None? then None else Some(sofar + [other]), placed)
  {
    KeptMore(ex, m, seen, other);
    RankAboveMore(Kept(ex, m, seen), m, other);
    InsertMore(Kept(ex, m, seen), m, other);
  }

  /** The scan copies lazily: only once a mark is dropped, or the new one has found its place. */
  method AddToSet(ex: Excludes, m: Mark, marks: seq<Mark>) returns (r: seq<Mark>)
    ensures r == Added(ex, m, marks)
  {
    var copy: Option<seq<Mark>>, placed := None, false;
    var i := 0;
    while i < |marks|
      invariant 0 <= i <= |marks|
      invariant forall j | 0 <= j < i :: marks[j] != m && !Blocks(ex, marks[j], m)
      invariant Copied(ex, m, marks[..i], copy, placed)
    {
      var other := marks[i];
      if m == other {
        return marks;
      }
      assert marks[..i + 1] == marks[..i] + [other];
      CopiedNext(ex, m, marks[..i], copy, placed, other);
      if ex(m.rank, other.rank) {
        if copy.None? {
          copy := Some(marks[..i]);
        }
      } else {
        if ex(other.rank, m.rank) {
          return marks;
        }
        if !placed && other.rank > m.rank {
          copy := Some((if copy.None? then marks[..i] else copy.value) + [m]);
          placed := true;
        }
        if copy.Some? {
          copy := Some(copy.value + [other]);
        }
      }
      i := i + 1;
    }
    assert marks[..|marks|] == marks;
    r := if copy.None? then marks else copy.value;
    if !placed {
      InsertLast(Kept(ex, m, marks), m);
      r := r + [m];
    }
  }

  // ----- what every addition keeps -----

  predicate Ranked(s: seq<Mark>) {
    forall i, j | 0 <= i < j < |s| :: s[i].rank <= s[j].rank
  }

  predicate Together(ex: Excludes, s: seq<Mark>) {
    forall i, j | 0 <= i < j < |s| :: s[i] != s[j] && !ex(s[i].rank, s[j].rank) && !ex(s[j].rank, s[i].rank)
  }

  /** Where `m` is inserted. */
  function Place(s: seq<Mark>, m: Mark): (k: nat)
    ensures k <= |s|
  {
    if s == [] || s[0].rank > m.rank then 0 else 1 + Place(s[1..], m)
  }

  lemma {:induction false} InsertIs(s: seq<Mark>, m: Mark)
    ensures var k := Place(s, m);
      && Insert(s, m) == s[..k] + [m] + s[k..]
      && (forall i | 0 <= i < k :: s[i].rank <= m.rank)
      && (k < |s| ==> s[k].rank > m.rank)
  {
    if s != [] && s[0].rank <= m.rank {
      InsertIs(s[1..], m);
      var k := Place(s[1..], m);
      assert s[..k + 1] == [s[0]] + s[1..][..k] && s[k + 1..] == s[1..][k..];
    }
  }

  lemma {:induction false} InsertHolds(s: seq<Mark>, m: Mark)
    ensures forall x :: x in Insert(s, m) <==> x in s || x == m
  {
    InsertIs(s, m);
    var k := Place(s, m);
    assert s == s[..k] + s[k..];
  }

  lemma {:induction false} KeptMembers(ex: Excludes, m: Mark, s: seq<Mark>)
    ensures forall x :: x in Kept(ex, m, s) <==> x in s && !ex(m.rank, x.rank)
  {
    if s != [] {
      KeptMembers(ex, m, s[..|s| - 1]);
      assert s == s[..|s| - 1] + [s[|s| - 1]];
    }
  }

  /** What is kept of the marks before the last one stands to it as they do. */
  lemma {:induction false} KeptBefore(ex: Excludes, m: Mark, init: seq<Mark>, last: Mark)
    ensures Ranked(init + [last]) ==> forall x | x in Kept(ex, m, init) :: x.rank <= last.rank
    ensures Together(ex, init + [last]) ==>
              forall x | x in Kept(ex, m, init) :: x != last && !ex(x.rank, last.rank) && !ex(last.rank, x.rank)
  {
    var s := init + [last];
    KeptMembers(ex, m, init);
    forall x | x in Kept(ex, m, init)
      ensures Ranked(s) ==> x.rank <= last.rank
      ensures Together(ex, s) ==> x != last && !ex(x.rank, last.rank) && !ex(last.rank, x.rank)
    {
      var j :| 0 <= j < |init| && init[j] == x;
      assert s[j] == x && s[|init|] == last;
    }
  }

  lemma {:induction false} RankedSnoc(s: seq<Mark>, x: Mark)
    requires Ranked(s) && forall y | y in s :: y.rank <= x.rank
    ensures Ranked(s + [x])
  {
  }

  lemma {:induction false} TogetherSnoc(ex: Excludes, s: seq<Mark>, x: Mark)
    requires Together(ex, s) && forall y | y in s :: y != x && !ex(y.rank, x.rank) && !ex(x.rank, y.rank)
    ensures Together(ex, s + [x])
  {
  }

  lemma {:induction false} KeptRanked(ex: Excludes, m: Mark, s: seq<Mark>)
    requires Ranked(s)
    ensures Ranked(Kept(ex, m, s))
  {
    if s != [] {
      var init, last := s[..|s| - 1], s[|s| - 1];
      assert s == init + [last];
      KeptRanked(ex, m, init);
      KeptBefore(ex, m, init, last);
      RankedSnoc(Kept(ex, m, init), last);
      KeptMore(ex, m, init, last);
    }
  }

  lemma {:induction false} KeptTogether(ex: Excludes, m: Mark, s: seq<Mark>)
    requires Together(ex, s)
    ensures Together(ex, Kept(ex, m, s))
  {
    if s != [] {
      var init, last := s[..|s| - 1], s[|s| - 1];
      assert s == init + [last];
      KeptTogether(ex, m, init);
      KeptBefore(ex, m, init, last);
      TogetherSnoc(ex, Kept(ex, m, init), last);
      KeptMore(ex, m, init, last);
    }
  }

  /** Nothing in `s` is `m`, or excludes it or is excluded by it. */
  predicate Fits(ex: Excludes, m: Mark, s: seq<Mark>) {
    forall i | 0 <= i < |s| :: s[i] != m && !ex(m.rank, s[i].rank) && !ex(s[i].rank, m.rank)
  }

  lemma {:induction false} InsertedAt(s: seq<Mark>, m: Mark, i: nat)
    requires i < |Insert(s, m)|
    ensures |Insert(s, m)| == |s| + 1
    ensures var k := Place(s, m); Insert(s, m)[i] == if i < k then s[i] else if i == k then m else s[i - 1]
  {
    InsertIs(s, m);
  }

  lemma {:induction false} InsertKeeps(ex: Excludes, s: seq<Mark>, m: Mark)
    requires Ranked(s) && Together(ex, s) && Fits(ex, m, s)
    ensures Ranked(Insert(s, m)) && Together(ex, Insert(s, m))
  {
    var k, r := Place(s, m), Insert(s, m);
    forall i, j | 0 <= i < j < |r|
      ensures r[i].rank <= r[j].rank
      ensures r[i] != r[j] && !ex(r[i].rank, r[j].rank) && !ex(r[j].rank, r[i].rank)
    {
      InsertedAt(s, m, i);
      InsertedAt(s, m, j);
      InsertIs(s, m);
    }
  }

  lemma {:induction false} KeptFits(ex: Excludes, m: Mark, s: seq<Mark>)
    requires !Refused(ex, m, s)
    ensures Fits(ex, m, Kept(ex, m, s))
  {
    var kept := Kept(ex, m, s);
    KeptMembers(ex, m, s);
    forall i | 0 <= i < |kept|
      ensures kept[i] != m && !ex(m.rank, kept[i].rank) && !ex(kept[i].rank, m.rank)
    {
      assert kept[i] in kept;
      var j :| 0 <= j < |s| && s[j] == kept[i];
      assert !Blocks(ex, s[j], m);
    }
  }

  /** Not there yet, and able to drop every mark of the set that excludes it. */
  predicate Welcome(ex: Excludes, m: Mark, s: seq<Mark>) {
    m !in s && forall x | x in s :: ex(x.rank, m.rank) ==> ex(m.rank, x.rank)
  }

  lemma {:induction false} WelcomeIff(ex: Excludes, m: Mark, s: seq<Mark>)
    ensures Refused(ex, m, s) <==> !Welcome(ex, m, s)
  {
    if Refused(ex, m, s) {
      var i :| 0 <= i < |s| && (s[i] == m || Blocks(ex, s[i], m));
      assert s[i] in s;
    }
    if !Welcome(ex, m, s) {
      var x :| x in s && (x == m || (ex(x.rank, m.rank) && !ex(m.rank, x.rank)));
      var i :| 0 <= i < |s| && s[i] == x;
      assert s[i] == m || Blocks(ex, s[i], m);
    }
  }

  /** The new mark is in the set then, unless one that it does not exclude excludes it; that leaves the set alone. */
  lemma {:induction false} AddedIff(ex: Excludes, m: Mark, s: seq<Mark>)
    ensures m in Added(ex, m, s) <==> m in s || forall x | x in s :: ex(x.rank, m.rank) ==> ex(m.rank, x.rank)
    ensures m in s || m !in Added(ex, m, s) ==> Added(ex, m, s) == s
    ensures forall x | x != m ::
      x in Added(ex, m, s) <==> x in s && (m in s || m !in Added(ex, m, s) || !ex(m.rank, x.rank))
  {
    WelcomeIff(ex, m, s);
    if Welcome(ex, m, s) {
      KeptMembers(ex, m, s);
      InsertHolds(Kept(ex, m, s), m);
    }
  }

  /** A mark of a type that excludes itself takes the place of the one of its type. */
  lemma {:induction false} SameTypeReplaced(ex: Excludes, m: Mark, prior: Mark, s: seq<Mark>)
    requires Together(ex, s) && prior in s && m != prior && m.rank == prior.rank && ex(m.rank, m.rank)
    requires forall x | x in s && x.rank != m.rank :: !ex(x.rank, m.rank)
    ensures m in Added(ex, m, s) && forall x | x in Added(ex, m, s) && x.rank == m.rank :: x == m
    ensures forall x | x in s && x.rank != m.rank && !ex(m.rank, x.rank) :: x in Added(ex, m, s)
  {
    AddedIff(ex, m, s);
  }

  /** Where the kept marks stood. */
  function KeptFrom(ex: Excludes, m: Mark, s: seq<Mark>, i: nat): (k: nat)
    requires i < |Kept(ex, m, s)|
    ensures k < |s| && s[k] == Kept(ex, m, s)[i]
    decreases |s|
  {
    var init := s[..|s| - 1];
    if i < |Kept(ex, m, init)| then KeptFrom(ex, m, init, i) else |s| - 1
  }

  lemma {:induction false} KeptInOrder(ex: Excludes, m: Mark, s: seq<Mark>, i: nat, j: nat)
    requires i < j < |Kept(ex, m, s)|
    ensures KeptFrom(ex, m, s, i) < KeptFrom(ex, m, s, j)
    decreases |s|
  {
    var init := s[..|s| - 1];
    if j < |Kept(ex, m, init)| {
      KeptInOrder(ex, m, init, i, j);
    }
  }

  lemma {:induction false} SamePlace(ex: Excludes, s: seq<Mark>, i: nat, j: nat)
    requires Together(ex, s) && i < |s| && j < |s| && s[i] == s[j]
    ensures i == j
  {
  }

  /** It stands behind all marks of no higher rank, and the others stand as they stood. */
  lemma {:induction false} AddedPlace(ex: Excludes, m: Mark, s: seq<Mark>) returns (k: nat)
    requires Together(ex, s) && m !in s && m in Added(ex, m, s)
    ensures k < |Added(ex, m, s)| && Added(ex, m, s)[k] == m
    ensures Ranked(s) ==>
      forall i | 0 <= i < |Added(ex, m, s)| && i != k :: i < k <==> Added(ex, m, s)[i].rank <= m.rank
    ensures var r := Added(ex, m, s);
      forall i, j, i', j' | 0 <= i < j < |r| && i != k && j != k && 0 <= i' < |s| && 0 <= j' < |s| &&
                            r[i] == s[i'] && r[j] == s[j'] :: i' < j'
  {
    var kept := Kept(ex, m, s);
    InsertIs(kept, m);
    k := Place(kept, m);
    forall i | 0 <= i < |Added(ex, m, s)|
      ensures Added(ex, m, s)[i] == if i < k then kept[i] else if i == k then m else kept[i - 1]
    {
      InsertedAt(kept, m, i);
    }
    if Ranked(s) {
      KeptRanked(ex, m, s);
    }
    OthersInOrder(ex, m, s, Added(ex, m, s), k);
  }

  lemma {:induction false} OthersInOrder(ex: Excludes, m: Mark, s: seq<Mark>, r: seq<Mark>, k: nat)
    requires Together(ex, s) && |r| == |Kept(ex, m, s)| + 1 && k < |r|
    requires forall i | 0 <= i < |r| && i != k :: r[i] == Kept(ex, m, s)[if i < k then i else i - 1]
    ensures forall i, j, i', j' | 0 <= i < j < |r| && i != k && j != k && 0 <= i' < |s| && 0 <= j' < |s| &&
                                  r[i] == s[i'] && r[j] == s[j'] :: i' < j'
  {
    forall i, j, i', j' | 0 <= i < j < |r| && i != k && j != k && 0 <= i' < |s| && 0 <= j' < |s| &&
                          r[i] == s[i'] && r[j] == s[j']
      ensures i' < j'
    {
      var a, b := if i < k then i else i - 1, if j < k then j else j - 1;
      KeptInOrder(ex, m, s, a, b);
      SamePlace(ex, s, KeptFrom(ex, m, s, a), i');
      SamePlace(ex, s, KeptFrom(ex, m, s, b), j');
    }
  }

  lemma {:induction false} AddedMembers(ex: Excludes, m: Mark, s: seq<Mark>)
    requires Ranked(s) && Together(ex, s)
    ensures Ranked(Added(ex, m, s)) && Together(ex, Added(ex, m, s))
    ensures forall x :: x in Added(ex, m, s) <==>
              if Refused(ex, m, s) then x in s else x == m || (x in s && !ex(m.rank, x.rank))
  {
    if !Refused(ex, m, s) {
      KeptMembers(ex, m, s);
      KeptRanked(ex, m, s);
      KeptTogether(ex, m, s);
      KeptFits(ex, m, s);
      InsertKeeps(ex, Kept(ex, m, s), m);
      InsertHolds(Kept(ex, m, s), m);
    }
  }

  /** An addition keeps the set in order and its marks compatible. */
  lemma {:induction false} AddedKeeps(ex: Excludes, m: Mark, s: seq<Mark>)
    requires Ranked(s) && Together(ex, s)
    ensures Ranked(Added(ex, m, s)) && Together(ex, Added(ex, m, s))
    ensures forall x :: x in Added(ex, m, s) <==>
              if m !in s && (forall y | y in s :: ex(y.rank, m.rank) ==> ex(m.rank, y.rank))
              then x == m || (x in s && !ex(m.rank, x.rank)) else x in s
  {
    AddedMembers(ex, m, s);
    WelcomeIff(ex, m, s);
  }

  /** Adding a mark twice is adding it once. */
  lemma {:induction false} AddedTwice(ex: Excludes, m: Mark, s: seq<Mark>)
    ensures Added(ex, m, Added(ex, m, s)) == Added(ex, m, s)
  {
    if !Refused(ex, m, s) {
      var kept := Kept(ex, m, s);
      InsertIs(kept, m);
      assert Insert(kept, m)[Place(kept, m)] == m;
    }
  }

  // ----- the order of additions -----

  lemma {:induction false} InsertBoth(s: seq<Mark>, a: Mark, b: Mark)
    requires Ranked(s) && a.rank < b.rank
    ensures Insert(Insert(s, a), b) == Insert(Insert(s, b), a)
  {
    if s == [] {
      assert [a, b][1..] == [b] && [a][1..] == [];
    } else {
      assert Ranked(s[1..]) by {
        assert forall i | 0 <= i < |s[1..]| :: s[1..][i] == s[i + 1];
      }
      var x, rest := s[0], s[1..];
      assert [x] + rest == s;
      if x.rank <= a.rank {
        InsertBoth(rest, a, b);
        Prepended(x, Insert(rest, a), b);
        Prepended(x, Insert(rest, b), a);
      } else if x.rank <= b.rank {
        Prepended(a, s, b);
        assert Insert(s, b) == [x] + Insert(rest, b);
      } else {
        Prepended(a, s, b);
        assert Insert(s, b) == [b] + s && Insert(Insert(s, b), a) == [a] + ([b] + s);
      }
    }
  }

  lemma {:induction false} Prepended(x: Mark, s: seq<Mark>, m: Mark)
    ensures x.rank <= m.rank ==> Insert([x] + s, m) == [x] + Insert(s, m)
    ensures x.rank > m.rank ==> Insert([x] + s, m) == [m] + ([x] + s)
  {
    assert ([x] + s)[1..] == s;
  }

  /** Inserting a mark that is not excluded, and dropping the excluded ones, in either order. */
  lemma {:induction false} KeptInsert(ex: Excludes, m: Mark, s: seq<Mark>, x: Mark)
    requires Ranked(s) && !ex(m.rank, x.rank)
    ensures Kept(ex, m, Insert(s, x)) == Insert(Kept(ex, m, s), x)
    decreases |s|
  {
    if s == [] {
      assert [x][..0] == [];
    } else {
      var init, last := s[..|s| - 1], s[|s| - 1];
      assert s == init + [last];
      KeptInsert(ex, m, init, x);
      InsertMore(init, x, last);
      InsertMore(Kept(ex, m, init), x, last);
      KeptMore(ex, m, init, last);
      KeptMore(ex, m, Insert(init, x), last);
      KeptMore(ex, m, init, x);
      KeptMore(ex, m, s, x);
      KeptAbove(ex, m, s, x);
      if last.rank <= x.rank {
        NoneAbove(s, x);
        InsertLast(s, x);
        InsertLast(Kept(ex, m, s), x);
      } else {
        InsertBeforeLast(ex, m, init, last, x);
      }
    }
  }

  lemma {:induction false} NoneAbove(s: seq<Mark>, x: Mark)
    requires Ranked(s) && s != [] && s[|s| - 1].rank <= x.rank
    ensures !RankAbove(s, x)
  {
  }

  lemma {:induction false} KeptAbove(ex: Excludes, m: Mark, s: seq<Mark>, x: Mark)
    ensures !RankAbove(s, x) ==> !RankAbove(Kept(ex, m, s), x)
  {
    KeptMembers(ex, m, s);
    var kept := Kept(ex, m, s);
    if RankAbove(kept, x) {
      var i :| 0 <= i < |kept| && kept[i].rank > x.rank;
      assert kept[i] in kept;
      var j :| 0 <= j < |s| && s[j] == kept[i];
      assert s[j].rank > x.rank;
    }
  }

  lemma {:induction false} InsertBeforeLast(ex: Excludes, m: Mark, init: seq<Mark>, last: Mark, x: Mark)
    requires last.rank > x.rank && !ex(m.rank, x.rank)
    requires Kept(ex, m, Insert(init, x)) == Insert(Kept(ex, m, init), x)
    ensures Kept(ex, m, Insert(init + [last], x)) == Insert(Kept(ex, m, init + [last]), x)
  {
    assert Insert(init + [last], x) == Insert(init, x) + [last] by {
      InsertMore(init, x, last);
      if !RankAbove(init, x) { InsertLast(init, x); }
    }
    KeptMore(ex, m, Insert(init, x), last);
    KeptMore(ex, m, init, last);
    if !ex(m.rank, last.rank) {
      InsertMore(Kept(ex, m, init), x, last);
      if !RankAbove(Kept(ex, m, init), x) { InsertLast(Kept(ex, m, init), x); }
    }
  }

  lemma {:induction false} KeptBoth(ex: Excludes, a: Mark, b: Mark, s: seq<Mark>)
    ensures Kept(ex, a, Kept(ex, b, s)) == Kept(ex, b, Kept(ex, a, s))
  {
    if s != [] {
      var init, last := s[..|s| - 1], s[|s| - 1];
      assert s == init + [last];
      KeptBoth(ex, a, b, init);
      KeptMore(ex, a, init, last);
      KeptMore(ex, b, init, last);
      KeptMore(ex, a, Kept(ex, b, init), last);
      KeptMore(ex, b, Kept(ex, a, init), last);
    }
  }

  /** Neither excludes the other, and they are of different types. */
  predicate Independent(ex: Excludes, a: Mark, b: Mark) {
    a.rank != b.rank && !ex(a.rank, b.rank) && !ex(b.rank, a.rank)
  }

  lemma {:induction false} BothAdded(ex: Excludes, a: Mark, b: Mark, s: seq<Mark>)
    requires Ranked(s) && Independent(ex, a, b)
    requires !Refused(ex, a, s) && !Refused(ex, b, s)
    requires !Refused(ex, a, Added(ex, b, s)) && !Refused(ex, b, Added(ex, a, s))
    ensures Added(ex, a, Added(ex, b, s)) == Added(ex, b, Added(ex, a, s))
  {
    KeptRanked(ex, a, s);
    KeptRanked(ex, b, s);
    KeptInsert(ex, a, Kept(ex, b, s), b);
    KeptInsert(ex, b, Kept(ex, a, s), a);
    KeptBoth(ex, a, b, s);
    var both := Kept(ex, a, Kept(ex, b, s));
    KeptRanked(ex, a, Kept(ex, b, s));
    if a.rank < b.rank { InsertBoth(both, a, b); } else { InsertBoth(both, b, a); }
  }

  /** If `s` keeps `m` out, it keeps `n` out as well, or does so by a mark that `n` does not exclude. */
  predicate StaysRefused(ex: Excludes, m: Mark, n: Mark, s: seq<Mark>) {
    Welcome(ex, m, s) || !Welcome(ex, n, s) || m in s ||
    exists x | x in s :: ex(x.rank, m.rank) && !ex(m.rank, x.rank) && !ex(n.rank, x.rank)
  }

  /** This is what it takes for the one addition to make no difference to the other. */
  lemma {:induction false} StaysRefusedIff(ex: Excludes, m: Mark, n: Mark, s: seq<Mark>)
    requires Ranked(s) && Together(ex, s) && Independent(ex, m, n)
    ensures StaysRefused(ex, m, n, s) <==> (Refused(ex, m, s) <==> Refused(ex, m, Added(ex, n, s)))
  {
    var sn := Added(ex, n, s);
    AddedMembers(ex, n, s);
    WelcomeIff(ex, m, s);
    WelcomeIff(ex, n, s);
    WelcomeIff(ex, m, sn);
  }

  /**
   * Independent marks can be added in either order exactly when neither addition drops all that
   * keeps the other mark out.
   */
  lemma {:induction false} OrderIff(ex: Excludes, a: Mark, b: Mark, s: seq<Mark>)
    requires Ranked(s) && Together(ex, s) && Independent(ex, a, b)
    ensures Added(ex, a, Added(ex, b, s)) == Added(ex, b, Added(ex, a, s)) <==>
            StaysRefused(ex, a, b, s) && StaysRefused(ex, b, a, s)
  {
    var sa, sb := Added(ex, a, s), Added(ex, b, s);
    AddedMembers(ex, a, s);
    AddedMembers(ex, b, s);
    AddedMembers(ex, a, sb);
    AddedMembers(ex, b, sa);
    StaysRefusedIff(ex, a, b, s);
    StaysRefusedIff(ex, b, a, s);
    if !Refused(ex, a, s) && !Refused(ex, b, s) && !Refused(ex, a, sb) && !Refused(ex, b, sa) {
      BothAdded(ex, a, b, s);
    }
    assert forall i | 0 <= i < |sa| :: sa[i] in sa;
    assert forall i | 0 <= i < |sb| :: sb[i] in sb;
    RefusesMembers(ex, a, sb);
    RefusesMembers(ex, b, sa);
  }

  lemma {:induction false} RefusesMembers(ex: Excludes, m: Mark, s: seq<Mark>)
    ensures m in s ==> Refused(ex, m, s)
  {
    if m in s {
      var i :| 0 <= i < |s| && s[i] == m;
    }
  }

  /** A set that keeps the first mark out until the second drops the mark that does it. */
  lemma {:induction false} OrderMatters(none: map<string, string>)
    ensures var ex: Excludes := (x, y) => (x == 0 && y == 1) || (x == 2 && y == 0);
      var s, a, b := [Mark(0, none)], Mark(1, none), Mark(2, none);
      && Ranked(s) && Together(ex, s) && Independent(ex, a, b)
      && Added(ex, a, Added(ex, b, s)) == [a, b] && Added(ex, b, Added(ex, a, s)) == [b]
  {
    var ex: Excludes := (x, y) => (x == 0 && y == 1) || (x == 2 && y == 0);
    var s, a, b := [Mark(0, none)], Mark(1, none), Mark(2, none);
    assert s[..0] == [] && [b][..0] == [];
    assert Blocks(ex, s[0], a);
    assert Added(ex, a, s) == s;
    assert !Refused(ex, b, s) && !Refused(ex, a, [b]);
    assert Kept(ex, b, s) == [] && Insert([], b) == [b];
    assert Kept(ex, a, [b]) == [] + [b];
    assert Insert([b], a) == [a] + [b];
  }

  /** In particular when both fit with all marks that are there. */
  lemma {:induction false} FittingMarksCommute(ex: Excludes, a: Mark, b: Mark, s: seq<Mark>)
    requires Ranked(s) && Together(ex, s) && Independent(ex, a, b) && Fits(ex, a, s) && Fits(ex, b, s)
    ensures Added(ex, a, Added(ex, b, s)) == Added(ex, b, Added(ex, a, s))
  {
    AddedMembers(ex, a, s);
    AddedMembers(ex, b, s);
    NotRefused(ex, a, s);
    NotRefused(ex, b, s);
    NotRefused(ex, a, Added(ex, b, s));
    NotRefused(ex, b, Added(ex, a, s));
    OrderIff(ex, a, b, s);
  }

  lemma {:induction false} NotRefused(ex: Excludes, m: Mark, s: seq<Mark>)
    requires forall x | x in s :: x != m && !ex(x.rank, m.rank)
    ensures !Refused(ex, m, s)
  {
    assert forall i | 0 <= i < |s| :: s[i] in s;
  }
}
