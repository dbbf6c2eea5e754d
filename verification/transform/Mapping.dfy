/** Pipelines of position maps (`Mapping`), in which a map may be marked as the mirror of another. */
module Mappings {
  import opened Options
  import opened StepMaps

  /** The partner of map `n` in a flat list of pairs. */
  function MirrorIn(mirror: seq<nat>, n: nat): Option<nat> {
    MirrorFrom(mirror, n, 0)
  }

  function MirrorFrom(mirror: seq<nat>, n: nat, i: nat): Option<nat>
    requires i <= |mirror|
    decreases |mirror| - i
  {
    if i == |mirror| then None
    else if mirror[i] == n then
      var j := if i % 2 == 1 then i - 1 else i + 1;
      if j < |mirror| then Some(mirror[j]) else None
    else MirrorFrom(mirror, n, i + 1)
  }

  function Union(a: DelInfo, b: DelInfo): DelInfo {
    DelInfo(a.before || b.before, a.after || b.after, a.across || b.across, a.side || b.side)
  }

  /** The mirror that map `s` can jump to, when it lies further on and inside the pipeline. */
  function Jump(maps: seq<StepMap>, mirror: seq<nat>, s: nat, end: nat): Option<nat> {
    var a := MirrorIn(mirror, s);
    if a.Some? && s < a.value < end && a.value < |maps| then a else None
  }

  /** Mapping from map `s` on; a position that a mirror can recover skips the maps in between. */
  function Through(maps: seq<StepMap>, mirror: seq<nat>, s: nat, end: nat, p: Option<int>, assoc: int): Option<int>
    requires end <= |maps|
    decreases if s < end then end - s else 0
  {
    if s >= end || p.None? then p else
      var r := Map(maps[s], p.value, assoc);
      var jump := Jump(maps, mirror, s, end);
      if r.recover.Some? && jump.Some? then
        Through(maps, mirror, jump.value + 1, end, Recover(maps[jump.value], r.recover.value), assoc)
      else Through(maps, mirror, s + 1, end, Some(r.pos), assoc)
  }

  /** The deletion flags collected on the same way. */
  function Deletions(maps: seq<StepMap>, mirror: seq<nat>, s: nat, end: nat, p: Option<int>, assoc: int): DelInfo
    requires end <= |maps|
    decreases if s < end then end - s else 0
  {
    if s >= end || p.None? then NOTHING_DELETED else
      var r := Map(maps[s], p.value, assoc);
      var jump := Jump(maps, mirror, s, end);
      if r.recover.Some? && jump.Some? then
        Deletions(maps, mirror, jump.value + 1, end, Recover(maps[jump.value], r.recover.value), assoc)
      else Union(r.delInfo, Deletions(maps, mirror, s + 1, end, Some(r.pos), assoc))
  }

  class Mapping {
    var maps: seq<StepMap>
    var mirror: seq<nat>
    var from: nat
    var end: nat

    ghost predicate Valid()
      reads this
    {
      from <= end <= |maps|
    }

    constructor ()
      ensures Valid() && maps == [] && mirror == [] && from == 0
    {
      maps, mirror, from, end := [], [], 0, 0;
    }

    /** Adds a map, as the mirror of an earlier one if `mirrors` is given. */
    method AppendMap(m: StepMap, mirrors: Option<nat>)
      requires Valid()
      modifies this
      ensures Valid() && from == old(from) && end == |maps|
      ensures maps == old(maps) + [m]
      ensures mirror == old(mirror) + (if mirrors.Some? then [|old(maps)|, mirrors.value] else [])
    {
      maps := maps + [m];
      end := |maps|;
      if mirrors.Some? {
        SetMirror(|maps| - 1, mirrors.value);
      }
    }

    method SetMirror(n: nat, m: nat)
      requires Valid()
      modifies `mirror
      ensures mirror == old(mirror) + [n, m]
    {
      mirror := mirror + [n, m];
    }

    method GetMirror(n: nat) returns (r: Option<nat>)
      ensures r == MirrorIn(mirror, n)
    {
      var t := 0;
      while t < |mirror|
        invariant 0 <= t <= |mirror|
        invariant MirrorIn(mirror, n) == MirrorFrom(mirror, n, t)
      {
        if mirror[t] == n {
          var j := t + if t % 2 == 1 then -1 else 1;
          return if j < |mirror| then Some(mirror[j]) else None;
        }
        t := t + 1;
      }
      return None;
    }

    /** The result is None where the source would go on with a number that is not one. */
    method MapResult(p: int, assoc: int) returns (pos: Option<int>, del: DelInfo)
      requires Valid()
      ensures pos == Through(maps, mirror, from, end, Some(p), assoc)
      ensures del == Deletions(maps, mirror, from, end, Some(p), assoc)
    {
      pos, del := Some(p), NOTHING_DELETED;
      var s := from;
      while s < end && pos.Some?
        invariant from <= s
        invariant Through(maps, mirror, from, end, Some(p), assoc) == Through(maps, mirror, s, end, pos, assoc)
        invariant Deletions(maps, mirror, from, end, Some(p), assoc) ==
                  Union(del, Deletions(maps, mirror, s, end, pos, assoc))
        decreases if s < end then end - s else 0
      {
        var r := MapPosition(maps[s], pos.value, assoc);
        if r.recover.Some? {
          var a := GetMirror(s);
          if a.Some? && s < a.value < end {
            s := a.value;
            pos := RecoverPosition(maps[s], r.recover.value);
            s := s + 1;
            continue;
          }
        }
        del := Union(del, r.delInfo);
        pos := Some(r.pos);
        s := s + 1;
      }
    }
  }

  // ----- which deletions show -----

  /** A map on the way of a position, which is at `pos` then; skipped if its mirror recovers the position. */
  datatype Stop = Stop(at: nat, pos: int, skipped: bool)

  /** The way of a position: from each map to the next, or from one that is skipped to behind its mirror. */
  ghost predicate Way(maps: seq<StepMap>, mirror: seq<nat>, s: nat, end: nat, p: Option<int>, assoc: int,
          stops: seq<Stop>)
    requires end <= |maps|
    decreases |stops|
  {
    if s >= end || p.None? then stops == []
    else
      && stops != [] && stops[0].at == s && stops[0].pos == p.value
      && var r, a := Map(maps[s], p.value, assoc), MirrorIn(mirror, s);
      && (stops[0].skipped <==> r.recover.Some? && a.Some? && s < a.value < end)
      && if stops[0].skipped then
           Way(maps, mirror, a.value + 1, end, Recover(maps[a.value], r.recover.value), assoc, stops[1..])
         else Way(maps, mirror, s + 1, end, Some(r.pos), assoc, stops[1..])
  }

  /** Some map on the way that is not skipped sets the flag. */
  ghost predicate SetOnWay(maps: seq<StepMap>, assoc: int, stops: seq<Stop>, flag: DelInfo -> bool) {
    exists k :: 0 <= k < |stops| && !stops[k].skipped && stops[k].at < |maps|
      && flag(Map(maps[stops[k].at], stops[k].pos, assoc).delInfo)
  }

  lemma {:induction false} SetFirst(maps: seq<StepMap>, assoc: int, stops: seq<Stop>, flag: DelInfo -> bool)
    requires stops != []
    ensures SetOnWay(maps, assoc, stops, flag) <==>
      || (!stops[0].skipped && stops[0].at < |maps| && flag(Map(maps[stops[0].at], stops[0].pos, assoc).delInfo))
      || SetOnWay(maps, assoc, stops[1..], flag)
  {
    var rest := stops[1..];
    if SetOnWay(maps, assoc, rest, flag) {
      var k :| 0 <= k < |rest| && !rest[k].skipped && rest[k].at < |maps|
        && flag(Map(maps[rest[k].at], rest[k].pos, assoc).delInfo);
      assert stops[k + 1] == rest[k];
    }
    if SetOnWay(maps, assoc, stops, flag) {
      var k :| 0 <= k < |stops| && !stops[k].skipped && stops[k].at < |maps|
        && flag(Map(maps[stops[k].at], stops[k].pos, assoc).delInfo);
      assert k > 0 ==> rest[k - 1] == stops[k];
    }
  }

  /** The flag that counts: deleted on the side mapped to; and the three that say where. */
  function FlagOf(which: nat): DelInfo -> bool {
    (d: DelInfo) => if which == 0 then d.before else if which == 1 then d.after else if which == 2 then d.across
                    else d.side
  }

  /** Each position has one way. */
  lemma {:induction false} WayExists(maps: seq<StepMap>, mirror: seq<nat>, s: nat, end: nat, p: Option<int>, assoc: int)
    returns (stops: seq<Stop>)
    requires end <= |maps|
    ensures Way(maps, mirror, s, end, p, assoc, stops)
    decreases if s < end then end - s else 0
  {
    if s >= end || p.None? {
      stops := [];
    } else {
      var r, a := Map(maps[s], p.value, assoc), MirrorIn(mirror, s);
      if r.recover.Some? && a.Some? && s < a.value < end {
        var rest := WayExists(maps, mirror, a.value + 1, end, Recover(maps[a.value], r.recover.value), assoc);
        stops := [Stop(s, p.value, true)] + rest;
        assert stops[1..] == rest;
      } else {
        var rest := WayExists(maps, mirror, s + 1, end, Some(r.pos), assoc);
        stops := [Stop(s, p.value, false)] + rest;
        assert stops[1..] == rest;
      }
    }
  }

  /** A flag comes out set exactly when a map on the way that no mirror made skip sets it. */
  lemma {:induction false} FlagIff(maps: seq<StepMap>, mirror: seq<nat>, s: nat, end: nat, p: Option<int>, assoc: int,
          stops: seq<Stop>, which: nat)
    requires end <= |maps| && Way(maps, mirror, s, end, p, assoc, stops)
    ensures FlagOf(which)(Deletions(maps, mirror, s, end, p, assoc)) <==> SetOnWay(maps, assoc, stops, FlagOf(which))
    decreases |stops|
  {
    if s < end && p.Some? {
      SetFirst(maps, assoc, stops, FlagOf(which));
      var r, a := Map(maps[s], p.value, assoc), MirrorIn(mirror, s);
      if stops[0].skipped {
        FlagIff(maps, mirror, a.value + 1, end, Recover(maps[a.value], r.recover.value), assoc, stops[1..], which);
      } else {
        FlagIff(maps, mirror, s + 1, end, Some(r.pos), assoc, stops[1..], which);
      }
    }
  }

  /** Where a position is behind a map on its way: recovered by the mirror if that is skipped to, or mapped. */
  function Behind(maps: seq<StepMap>, mirror: seq<nat>, assoc: int, stop: Stop): Option<int>
    requires stop.at < |maps|
  {
    var r, a := Map(maps[stop.at], stop.pos, assoc), MirrorIn(mirror, stop.at);
    if !stop.skipped then Some(r.pos)
    else if r.recover.Some? && a.Some? && a.value < |maps| then Recover(maps[a.value], r.recover.value)
    else None
  }

  /** What comes out is where the position is behind the last map on its way. */
  lemma {:induction false} WayEnds(maps: seq<StepMap>, mirror: seq<nat>, s: nat, end: nat, p: Option<int>, assoc: int,
          stops: seq<Stop>)
    requires end <= |maps| && Way(maps, mirror, s, end, p, assoc, stops)
    ensures stops != [] ==> stops[|stops| - 1].at < |maps|
    ensures Through(maps, mirror, s, end, p, assoc) ==
            if stops == [] then p else Behind(maps, mirror, assoc, stops[|stops| - 1])
    decreases |stops|
  {
    if s < end && p.Some? {
      var r, a := Map(maps[s], p.value, assoc), MirrorIn(mirror, s);
      if stops[0].skipped {
        WayEnds(maps, mirror, a.value + 1, end, Recover(maps[a.value], r.recover.value), assoc, stops[1..]);
      } else {
        WayEnds(maps, mirror, s + 1, end, Some(r.pos), assoc, stops[1..]);
      }
    }
  }

  /** The first pair that holds `n` says which its mirror is; without one there is none. */
  lemma {:induction false} MirrorIs(mirror: seq<nat>, n: nat, j: nat)
    requires |mirror| % 2 == 0 && 2 * j <= |mirror| && n !in mirror[..2 * j]
    ensures 2 * j == |mirror| ==> MirrorIn(mirror, n) == None
    ensures 2 * j < |mirror| && mirror[2 * j] == n ==> MirrorIn(mirror, n) == Some(mirror[2 * j + 1])
    ensures 2 * j < |mirror| && mirror[2 * j] != n && mirror[2 * j + 1] == n ==>
      MirrorIn(mirror, n) == Some(mirror[2 * j])
  {
    MirrorSkips(mirror, n, 2 * j);
  }

  lemma {:induction false} MirrorSkips(mirror: seq<nat>, n: nat, i: nat)
    requires i <= |mirror| && n !in mirror[..i]
    ensures MirrorIn(mirror, n) == MirrorFrom(mirror, n, i)
  {
    if i > 0 {
      assert mirror[..i][i - 1] == mirror[i - 1];
      assert forall k | 0 <= k < i - 1 :: mirror[..i - 1][k] == mirror[..i][k];
      MirrorSkips(mirror, n, i - 1);
    }
  }

  // ----- mapping without mirrors -----

  lemma {:induction false} ThroughMonotone(maps: seq<StepMap>, s: nat, end: nat, p: int, q: int, assoc: int)
    requires end <= |maps| && p <= q
    requires forall m | m in maps :: Sorted(m)
    ensures var a, b := Through(maps, [], s, end, Some(p), assoc), Through(maps, [], s, end, Some(q), assoc);
            a.Some? && b.Some? && a.value <= b.value
    decreases if s < end then end - s else 0
  {
    if s < end {
      MapMonotone(maps[s], p, q, assoc);
      ThroughMonotone(maps, s + 1, end, Map(maps[s], p, assoc).pos, Map(maps[s], q, assoc).pos, assoc);
    }
  }

  /** Through a whole pipeline, sticking to the left never ends up to the right of sticking to the right. */
  lemma {:induction false} ThroughSides(maps: seq<StepMap>, s: nat, end: nat, p: int, q: int, left: int, right: int)
    requires end <= |maps| && p <= q && left < 0 <= right
    requires forall m | m in maps :: Sorted(m)
    ensures var a, b := Through(maps, [], s, end, Some(p), left), Through(maps, [], s, end, Some(q), right);
            a.Some? && b.Some? && a.value <= b.value
    decreases if s < end then end - s else 0
  {
    if s < end {
      MapMonotone(maps[s], p, q, left);
      MapSides(maps[s], q, left, right);
      ThroughSides(maps, s + 1, end, Map(maps[s], p, left).pos, Map(maps[s], q, right).pos, left, right);
    }
  }

  // ----- there and back through a whole pipeline -----

  /** The inverted maps, last first. */
  function Undone(ms: seq<StepMap>): (r: seq<StepMap>)
    ensures |r| == |ms| && forall i | 0 <= i < |r| :: r[i] == ms[|ms| - 1 - i].Invert()
  {
    seq(|ms|, i requires 0 <= i < |ms| => ms[|ms| - 1 - i].Invert())
  }

  /** Map `i` and the inverse of map `i` are each other's mirrors. */
  ghost predicate PairedUp(mirror: seq<nat>, k: nat) {
    forall i: nat | i < 2 * k :: MirrorIn(mirror, i) == Some(2 * k - 1 - i)
  }

  /** What appending the inverses one by one, each as the mirror of its map, leaves in the list. */
  function Pairs(k: nat, n: nat): seq<nat>
    requires n <= k
  {
    if n == 0 then [] else Pairs(k, n - 1) + [k + n - 1, k - n]
  }

  lemma {:induction false} PairsFind(k: nat, n: nat, i: nat)
    requires n <= k
    ensures |Pairs(k, n)| == 2 * n
    ensures MirrorIn(Pairs(k, n), i) == if k - n <= i < k + n then Some(2 * k - 1 - i) else None
  {
    if n > 0 {
      PairsFind(k, n - 1, i);
      MirrorAppend(Pairs(k, n - 1), [k + n - 1, k - n], i, 0);
      var both := Pairs(k, n);
      if !(k - (n - 1) <= i < k + (n - 1)) {
        assert both[2 * n - 2] == k + n - 1 && both[2 * n - 1] == k - n;
        assert (2 * n - 2) % 2 == 0 && (2 * n - 1) % 2 == 1;
        assert MirrorFrom(both, i, 2 * n) == None;
        assert MirrorFrom(both, i, 2 * n - 1) == if k - n == i then Some(k + n - 1) else None;
      }
    }
  }

  lemma {:induction false} MirrorAppend(a: seq<nat>, b: seq<nat>, n: nat, i: nat)
    requires |a| % 2 == 0 && i <= |a|
    ensures MirrorFrom(a + b, n, i) == if MirrorFrom(a, n, i).Some? then MirrorFrom(a, n, i)
      else MirrorFrom(a + b, n, |a|)
    decreases |a| - i
  {
    if i < |a| && a[i] != n {
      MirrorAppend(a, b, n, i + 1);
    }
  }

  /** Appending the inverses of `k` maps like this pairs all of them up. */
  lemma {:induction false} PairsPairUp(k: nat)
    ensures PairedUp(Pairs(k, k), k)
  {
    forall i: nat | i < 2 * k
      ensures MirrorIn(Pairs(k, k), i) == Some(2 * k - 1 - i)
    {
      PairsFind(k, k, i);
    }
  }

  ghost predicate Undoes(maps: seq<StepMap>, k: nat, i: nat)
    requires |maps| == 2 * k && i < k
  {
    maps[2 * k - 1 - i] == maps[i].Invert()
  }

  /** The second half undoes the first, map by map. */
  ghost predicate Palindrome(maps: seq<StepMap>, k: nat) {
    |maps| == 2 * k && forall i | 0 <= i < k :: Undoes(maps, k, i)
  }

  ghost predicate AllSorted(maps: seq<StepMap>) {
    forall m | m in maps :: Sorted(m) && |m.ranges| <= LOWER_16
  }

  /** One step of a mapping: the way on from map `s`. */
  lemma {:induction false} Step(maps: seq<StepMap>, mirror: seq<nat>, s: nat, end: nat, p: int, assoc: int)
    requires s < end <= |maps|
    ensures var r, jump := Map(maps[s], p, assoc), Jump(maps, mirror, s, end);
      Through(maps, mirror, s, end, Some(p), assoc) ==
      if r.recover.Some? && jump.Some?
      then Through(maps, mirror, jump.value + 1, end, Recover(maps[jump.value], r.recover.value), assoc)
      else Through(maps, mirror, s + 1, end, Some(r.pos), assoc)
  {
  }

  /** A map and its mirror, when all in between cancels out. */
  lemma {:induction false} PairAround(maps: seq<StepMap>, mirror: seq<nat>, k: nat, j: nat, end: nat, p: int,
          assoc: int)
    requires Palindrome(maps, k) && PairedUp(mirror, k) && j < k && 2 * k - j <= end <= 2 * k
    requires |maps[j].ranges| <= LOWER_16
    requires InsideCancels(maps, mirror, k, j, end, p, assoc)
    ensures var r := Map(maps[j], p, assoc);
      var back := if r.recover.Some? then p else Map(maps[j].Invert(), r.pos, assoc).pos;
      Through(maps, mirror, j, end, Some(p), assoc) == Through(maps, mirror, 2 * k - j, end, Some(back), assoc)
  {
    var back := 2 * k - 1 - j;
    assert Undoes(maps, k, j);
    assert Jump(maps, mirror, j, end) == Some(back) && Jump(maps, mirror, back, end) == None by {
      assert MirrorIn(mirror, j) == Some(back) && MirrorIn(mirror, back) == Some(j);
    }
    var r := Map(maps[j], p, assoc);
    Step(maps, mirror, j, end, p, assoc);
    if r.recover.Some? {
      RecoverRoundTrip(maps[j], p, assoc);
    } else {
      Step(maps, mirror, back, end, r.pos, assoc);
    }
  }

  /** All in between a map and its mirror cancels out for the image of `p`. */
  ghost predicate InsideCancels(maps: seq<StepMap>, mirror: seq<nat>, k: nat, j: nat, end: nat, p: int, assoc: int)
    requires j < k && 2 * k - j <= end <= 2 * k == |maps|
  {
    var q := Map(maps[j], p, assoc).pos;
    Through(maps, mirror, j + 1, end, Some(q), assoc) == Through(maps, mirror, 2 * k - 1 - j, end, Some(q), assoc)
  }

  /** The maps from `j` up to the mirror of `j` cancel out. */
  lemma {:induction false} InnerCancels(maps: seq<StepMap>, mirror: seq<nat>, k: nat, j: nat, end: nat, p: int,
          assoc: int)
    requires Palindrome(maps, k) && PairedUp(mirror, k) && AllSorted(maps) && j <= k && 2 * k - j <= end <= 2 * k
    requires forall i | j <= i < k :: Reversible(maps[i])
    ensures Through(maps, mirror, j, end, Some(p), assoc) == Through(maps, mirror, 2 * k - j, end, Some(p), assoc)
    decreases k - j
  {
    if j < k {
      assert maps[j] in maps;
      assert InsideCancels(maps, mirror, k, j, end, p, assoc) by {
        InnerCancels(maps, mirror, k, j + 1, end, Map(maps[j], p, assoc).pos, assoc);
      }
      PairAround(maps, mirror, k, j, end, p, assoc);
      Returned(maps[j], p, assoc);
    }
  }

  /** Mapping through the maps from `j` up to its mirror gives `p` back. */
  ghost predicate SliceReturns(maps: seq<StepMap>, mirror: seq<nat>, k: nat, j: nat, p: int, assoc: int)
    requires |maps| == 2 * k && j <= k
  {
    Through(maps, mirror, j, 2 * k - j, Some(p), assoc) == Some(p)
  }

  lemma {:induction false} Returned(m: StepMap, p: int, assoc: int)
    requires Sorted(m) && Reversible(m)
    ensures ComesBack(m, p, assoc)
  {
    ThereAndBack(m);
  }

  lemma {:induction false} SliceReturnsIff(maps: seq<StepMap>, mirror: seq<nat>, k: nat, j: nat, p: int, assoc: int)
    requires Palindrome(maps, k) && PairedUp(mirror, k) && j < k && |maps[j].ranges| <= LOWER_16
    requires InsideCancels(maps, mirror, k, j, 2 * k - j, p, assoc)
    ensures SliceReturns(maps, mirror, k, j, p, assoc) <==> ComesBack(maps[j], p, assoc)
  {
    PairAround(maps, mirror, k, j, 2 * k - j, p, assoc);
  }

  lemma {:induction false} PalindromeOfUndone(ms: seq<StepMap>)
    requires AllSorted(ms)
    ensures Palindrome(ms + Undone(ms), |ms|) && AllSorted(ms + Undone(ms))
  {
    assert forall i | 0 <= i < |ms| :: Undoes(ms + Undone(ms), |ms|, i);
    forall m | m in Undone(ms)
      ensures Sorted(m) && |m.ranges| <= LOWER_16
    {
      var i :| 0 <= i < |ms| && m == ms[|ms| - 1 - i].Invert();
      InverseSorted(ms[|ms| - 1 - i]);
    }
  }

  ghost predicate AllReversible(ms: seq<StepMap>) {
    forall m | m in ms :: Reversible(m)
  }

  /**
   * Mapping through any maps and then through their inverses, paired up as mirrors, is the
   * identity, on positions inside deleted ranges as well, and on either side.
   */
  lemma {:induction false} MirroredIdentity(ms: seq<StepMap>, mirror: seq<nat>, p: int, assoc: int)
    requires AllSorted(ms) && AllReversible(ms) && PairedUp(mirror, |ms|)
    ensures Through(ms + Undone(ms), mirror, 0, 2 * |ms|, Some(p), assoc) == Some(p)
  {
    PalindromeOfUndone(ms);
    InnerCancels(ms + Undone(ms), mirror, |ms|, 0, 2 * |ms|, p, assoc);
  }

  ghost predicate SliceIsIdentity(maps: seq<StepMap>, mirror: seq<nat>, k: nat, j: nat)
    requires |maps| == 2 * k && j <= k
  {
    forall p, assoc :: SliceReturns(maps, mirror, k, j, p, assoc)
  }

  lemma {:induction false} OuterComesBack(maps: seq<StepMap>, mirror: seq<nat>, k: nat, j: nat, p: int, assoc: int)
    requires Palindrome(maps, k) && PairedUp(mirror, k) && AllSorted(maps) && j < k
    requires forall i | j < i < k :: Reversible(maps[i])
    requires SliceReturns(maps, mirror, k, j, p, assoc)
    ensures ComesBack(maps[j], p, assoc)
  {
    assert maps[j] in maps;
    var end := 2 * k - j;
    assert InsideCancels(maps, mirror, k, j, end, p, assoc) by {
      InnerCancels(maps, mirror, k, j + 1, end, Map(maps[j], p, assoc).pos, assoc);
    }
    SliceReturnsIff(maps, mirror, k, j, p, assoc);
  }

  lemma {:induction false} OuterReversible(maps: seq<StepMap>, mirror: seq<nat>, k: nat, j: nat)
    requires Palindrome(maps, k) && PairedUp(mirror, k) && AllSorted(maps) && j < k
    requires forall i | j < i < k :: Reversible(maps[i])
    requires SliceIsIdentity(maps, mirror, k, j)
    ensures Reversible(maps[j])
  {
    forall p, assoc
      ensures ComesBack(maps[j], p, assoc)
    {
      assert SliceReturns(maps, mirror, k, j, p, assoc);
      OuterComesBack(maps, mirror, k, j, p, assoc);
    }
    ThereAndBack(maps[j]);
  }

  lemma {:induction false} SlicesNeedReversible(maps: seq<StepMap>, mirror: seq<nat>, k: nat, j: nat)
    requires Palindrome(maps, k) && PairedUp(mirror, k) && AllSorted(maps) && j <= k
    requires forall i | j <= i < k :: SliceIsIdentity(maps, mirror, k, i)
    ensures forall i | j <= i < k :: Reversible(maps[i])
    decreases k - j
  {
    if j < k {
      SlicesNeedReversible(maps, mirror, k, j + 1);
      OuterReversible(maps, mirror, k, j);
    }
  }

  /**
   * All of the pipeline, and every part of it around its middle, is the identity exactly when no
   * map has a touching deletion.
   */
  lemma {:induction false} MirroredSlices(ms: seq<StepMap>, mirror: seq<nat>)
    requires AllSorted(ms) && PairedUp(mirror, |ms|)
    ensures AllReversible(ms) <==> forall j | 0 <= j < |ms| :: SliceIsIdentity(ms + Undone(ms), mirror, |ms|, j)
  {
    var maps, k := ms + Undone(ms), |ms|;
    PalindromeOfUndone(ms);
    if AllReversible(ms) {
      forall j: nat, p, assoc | j < k
        ensures SliceReturns(maps, mirror, k, j, p, assoc)
      {
        InnerCancels(maps, mirror, k, j, 2 * k - j, p, assoc);
      }
    }
    if forall j | 0 <= j < k :: SliceIsIdentity(maps, mirror, k, j) {
      SlicesNeedReversible(maps, mirror, k, 0);
      assert forall i | 0 <= i < k :: maps[i] == ms[i];
    }
  }

  /** A map followed by its mirrored inverse gives `p` back. */
  ghost predicate PairReturns(m: StepMap, p: int, assoc: int) {
    Through([m, m.Invert()], Pairs(1, 1), 0, 2, Some(p), assoc) == Some(p)
  }

  lemma {:induction false} PairStep(m: StepMap, p: int, assoc: int)
    requires |m.ranges| <= LOWER_16
    ensures PairReturns(m, p, assoc) <==> ComesBack(m, p, assoc)
  {
    var maps := [m, m.Invert()];
    PairsPairUp(1);
    var r := Map(m, p, assoc);
    assert Jump(maps, Pairs(1, 1), 0, 2) == Some(1);
    assert Jump(maps, Pairs(1, 1), 1, 2) == None;
    if r.recover.Some? {
      RecoverRoundTrip(m, p, assoc);
    } else {
      var back := Map(maps[1], r.pos, assoc);
      assert Through(maps, Pairs(1, 1), 1, 2, Some(r.pos), assoc) == Some(back.pos);
    }
  }

  /** For a single map, the absence of a touching deletion is exactly the condition. */
  lemma {:induction false} MirroredPair(m: StepMap)
    requires Sorted(m) && |m.ranges| <= LOWER_16
    ensures Reversible(m) <==> forall p, assoc :: PairReturns(m, p, assoc)
  {
    ThereAndBack(m);
    forall p, assoc
      ensures PairReturns(m, p, assoc) <==> ComesBack(m, p, assoc)
    {
      PairStep(m, p, assoc);
    }
  }
}
