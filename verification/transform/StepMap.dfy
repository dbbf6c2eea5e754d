/** Position maps (`StepMap`): replaced ranges, mapping through them, and recovery values. */
module StepMaps {
  import opened Options

  /** `oldSize` tokens from `start` on were replaced by `newSize` tokens. */
  datatype Range = Range(start: int, oldSize: nat, newSize: nat)

  /** An inverted map reads its ranges from new to old. */
  datatype StepMap = StepMap(ranges: seq<Range>, inverted: bool) {
    function Invert(): StepMap {
      StepMap(ranges, !inverted)
    }
  }

  datatype MapResult = MapResult(pos: int, delInfo: DelInfo, recover: Option<int>)

  /** The four flags of the source's bit set: before, after, across, and deleted on the mapped side. */
  datatype DelInfo = DelInfo(before: bool, after: bool, across: bool, side: bool)

  const NOTHING_DELETED := DelInfo(false, false, false, false)

  const LOWER_16 := 0x1_0000

  function MakeRecover(index: nat, offset: int): int {
    index + offset * LOWER_16
  }

  /** The source masks with 65535. */
  function RecoverIndex(value: int): nat {
    value % LOWER_16
  }

  function RecoverOffset(value: int): int {
    (value - value % LOWER_16) / LOWER_16
  }

  function Size(m: StepMap, i: nat): nat
    requires i < |m.ranges|
  {
    if m.inverted then m.ranges[i].newSize else m.ranges[i].oldSize
  }

  function Replaced(m: StepMap, i: nat): nat
    requires i < |m.ranges|
  {
    if m.inverted then m.ranges[i].oldSize else m.ranges[i].newSize
  }

  /** How far positions have moved after the first `n` ranges. */
  function Shift(m: StepMap, n: nat): int
    requires n <= |m.ranges|
  {
    if n == 0 then 0 else Shift(m, n - 1) + Replaced(m, n - 1) - Size(m, n - 1)
  }

  /** Where range `i` starts, on the side that is mapped from. */
  function Start(m: StepMap, i: nat): int
    requires i < |m.ranges|
  {
    m.ranges[i].start - if m.inverted then Shift(m, i) else 0
  }

  function End(m: StepMap, i: nat): int
    requires i < |m.ranges|
  {
    Start(m, i) + Size(m, i)
  }

  /** The end a position sticks to: `side` is -1 for the start of what came instead, 1 for its end. */
  function Side(size: nat, atStart: bool, atEnd: bool, assoc: int): int {
    if size == 0 then assoc else if atStart then -1 else if atEnd then 1 else assoc
  }

  /** The position `p` in or next to range `i`. */
  function InRange(m: StepMap, i: nat, p: int, assoc: int): MapResult
    requires i < |m.ranges|
  {
    var start, end := Start(m, i), End(m, i);
    var side := Side(Size(m, i), p == start, p == end, assoc);
    var pos := start + Shift(m, i) + if side < 0 then 0 else Replaced(m, i);
    var recover := if p == (if assoc < 0 then start else end) then None else Some(MakeRecover(i, p - start));
    var del := if p == start then DelInfo(false, true, false, false)
               else if p == end then DelInfo(true, false, false, false)
               else DelInfo(false, false, true, false);
    MapResult(pos, del.(side := if assoc < 0 then p != start else p != end), recover)
  }

  /** Mapping from range `i` on. */
  function MapFrom(m: StepMap, i: nat, p: int, assoc: int): MapResult
    requires i <= |m.ranges|
    decreases |m.ranges| - i
  {
    if i == |m.ranges| || Start(m, i) > p then MapResult(p + Shift(m, i), NOTHING_DELETED, None)
    else if p <= End(m, i) then InRange(m, i, p, assoc)
    else MapFrom(m, i + 1, p, assoc)
  }

  function Map(m: StepMap, p: int, assoc: int): MapResult {
    MapFrom(m, 0, p, assoc)
  }

  /** The loop of the source, with its running difference. */
  method MapPosition(m: StepMap, p: int, assoc: int) returns (r: MapResult)
    ensures r == Map(m, p, assoc)
  {
    var diff: int := 0;
    var i := 0;
    while i < |m.ranges|
      invariant 0 <= i <= |m.ranges| && diff == Shift(m, i)
      invariant Map(m, p, assoc) == MapFrom(m, i, p, assoc)
    {
      var start := m.ranges[i].start - if m.inverted then diff else 0;
      if start > p {
        break;
      }
      var size: int, replaced: int := Size(m, i), Replaced(m, i);
      var end := start + size;
      if p <= end {
        var side := if size != 0 then (if p == start then -1 else if p == end then 1 else assoc) else assoc;
        var pos := start + diff + if side < 0 then 0 else replaced;
        var recover := if p == (if assoc < 0 then start else end) then None else Some(MakeRecover(i, p - start));
        var before := p != start && p == end;
        var after := p == start;
        return MapResult(pos, DelInfo(before, after, !before
          && !after, if assoc < 0 then p != start else p != end), recover);
      }
      diff := diff + replaced - size;
      i := i + 1;
    }
    return MapResult(p + diff, NOTHING_DELETED, None);
  }

  /** Turning a recovery value back into a position. */
  function Recover(m: StepMap, value: int): Option<int> {
    var i := RecoverIndex(value);
    if i >= |m.ranges| then None
    else Some(m.ranges[i].start + (if m.inverted then 0 else Gained(m, i)) + RecoverOffset(value))
  }

  /** What the first `n` ranges add, from old to new. */
  function Gained(m: StepMap, n: nat): int
    requires n <= |m.ranges|
  {
    if n == 0 then 0 else Gained(m, n - 1) + m.ranges[n - 1].newSize - m.ranges[n - 1].oldSize
  }

  method RecoverPosition(m: StepMap, value: int) returns (r: Option<int>)
    ensures r == Recover(m, value)
  {
    var diff, index := 0, RecoverIndex(value);
    if index >= |m.ranges| {
      return None;
    }
    if !m.inverted {
      var i := 0;
      while i < index
        invariant 0 <= i <= index && diff == Gained(m, i)
      {
        diff := diff + m.ranges[i].newSize - m.ranges[i].oldSize;
        i := i + 1;
      }
    }
    return Some(m.ranges[index].start + diff + RecoverOffset(value));
  }

  // ----- ranges in order -----

  predicate Sorted(m: StepMap) {
    forall i {:trigger m.ranges[i]} | 0 < i < |m.ranges| ::
      m.ranges[i - 1].start + m.ranges[i - 1].oldSize <= m.ranges[i].start
  }

  lemma {:induction false} ShiftInverted(m: StepMap, n: nat)
    requires n <= |m.ranges|
    ensures Shift(m.Invert(), n) == -Shift(m, n)
    ensures Shift(m, n) == if m.inverted then -Gained(m, n) else Gained(m, n)
    ensures Gained(m.Invert(), n) == Gained(m, n)
  {
    if n > 0 {
      ShiftInverted(m, n - 1);
    }
  }

  lemma {:induction false} StartInverted(m: StepMap, i: nat)
    requires i < |m.ranges|
    ensures Start(m.Invert(), i) == Start(m, i) + Shift(m, i)
    ensures Size(m.Invert(), i) == Replaced(m, i) && Replaced(m.Invert(), i) == Size(m, i)
  {
    ShiftInverted(m, i);
  }

  /** The gap before a range is as wide on both sides of the map. */
  lemma {:induction false} NextStart(m: StepMap, i: nat)
    requires Sorted(m) && 0 < i < |m.ranges|
    ensures Start(m, i) - End(m, i - 1) == m.ranges[i].start - (m.ranges[i - 1].start + m.ranges[i - 1].oldSize) >= 0
  {
  }

  lemma {:induction false} StartsRise(m: StepMap, i: nat, j: nat)
    requires Sorted(m) && i < j < |m.ranges|
    ensures End(m, i) <= Start(m, j)
    decreases j
  {
    NextStart(m, j);
    if i < j - 1 {
      StartsRise(m, i, j - 1);
    }
  }

  /** The range a position is mapped by, or the number of ranges that lie before it. */
  function Hit(m: StepMap, i: nat, p: int): (r: (nat, bool))
    requires i <= |m.ranges|
    ensures i <= r.0 <= |m.ranges| && (r.1 ==> r.0 < |m.ranges|)
    decreases |m.ranges| - i
  {
    if i == |m.ranges| || Start(m, i) > p then (i, false)
    else if p <= End(m, i) then (i, true)
    else Hit(m, i + 1, p)
  }

  lemma {:induction false} MapByHit(m: StepMap, i: nat, p: int, assoc: int)
    requires i <= |m.ranges|
    ensures var h := Hit(m, i, p);
      && MapFrom(m, i, p, assoc) == (if h.1 then InRange(m, h.0, p, assoc)
                                     else MapResult(p + Shift(m, h.0), NOTHING_DELETED, None))
      && (h.1 ==> Start(m, h.0) <= p <= End(m, h.0))
      && (!h.1 && h.0 < |m.ranges| ==> p < Start(m, h.0))
      && (forall k | i <= k < h.0 :: End(m, k) < p)
    decreases |m.ranges| - i
  {
    if i < |m.ranges| && Start(m, i) <= p && p > End(m, i) {
      MapByHit(m, i + 1, p, assoc);
    }
  }

  // ----- what mapping does, from the ranges alone -----

  /** Where range `i` begins along what is mapped from, and where what replaced it begins along what is mapped to. */
  function OldStart(m: StepMap, i: nat): int
    requires i < |m.ranges|
  {
    m.ranges[i].start + if m.inverted then Gained(m, i) else 0
  }

  function Lands(m: StepMap, i: nat): int
    requires i < |m.ranges|
  {
    m.ranges[i].start + if m.inverted then 0 else Gained(m, i)
  }

  function Length(m: StepMap, i: nat): nat
    requires i < |m.ranges|
  {
    if m.inverted then m.ranges[i].newSize else m.ranges[i].oldSize
  }

  function Width(m: StepMap, i: nat): nat
    requires i < |m.ranges|
  {
    if m.inverted then m.ranges[i].oldSize else m.ranges[i].newSize
  }

  /** Range `i` is the first that `p` is in or next to. */
  predicate Touches(m: StepMap, i: nat, p: int) {
    && i < |m.ranges|
    && OldStart(m, i) <= p <= OldStart(m, i) + Length(m, i)
    && forall k | 0 <= k < i :: OldStart(m, k) + Length(m, k) < p
  }

  /** `p` lies behind the first `n` ranges, before the next and next to none. */
  predicate Clears(m: StepMap, n: nat, p: int) {
    && n <= |m.ranges|
    && (forall k | 0 <= k < n :: OldStart(m, k) + Length(m, k) < p)
    && (n < |m.ranges| ==> p < OldStart(m, n))
  }

  lemma {:induction false} EdgesAre(m: StepMap, i: nat)
    requires i < |m.ranges|
    ensures Start(m, i) == OldStart(m, i) && End(m, i) == OldStart(m, i) + Length(m, i)
    ensures Start(m, i) + Shift(m, i) == Lands(m, i) && Replaced(m, i) == Width(m, i)
  {
    ShiftInverted(m, i);
  }

  lemma {:induction false} HitFrom(m: StepMap, i: nat, p: int, j: nat, inside: bool)
    requires i <= j <= |m.ranges| && forall k | i <= k < j :: OldStart(m, k) + Length(m, k) < p
    requires if inside then j < |m.ranges| && OldStart(m, j) <= p <= OldStart(m, j) + Length(m, j)
             else j < |m.ranges| ==> p < OldStart(m, j)
    ensures Hit(m, i, p) == (j, inside)
    decreases j - i
  {
    if i < |m.ranges| { EdgesAre(m, i); }
    if i < j { HitFrom(m, i + 1, p, j, inside); }
  }

  /**
   * In or next to a range: the ends of a range that holds something stick to its outside, all else
   * goes to the side asked for. The flags say where `p` is in the range, and whether what is on
   * the side asked for was replaced. A position between the ends, or on the other side of the
   * range than the one asked for, can be recovered.
   */
  lemma {:induction false} MapTouching(m: StepMap, i: nat, p: int, assoc: int)
    requires Touches(m, i, p)
    ensures var r, begin, end := Map(m, p, assoc), OldStart(m, i), OldStart(m, i) + Length(m, i);
      && (r.delInfo.before <==> p == end && p != begin)
      && (r.delInfo.after <==> p == begin)
      && (r.delInfo.across <==> begin < p < end)
      && (r.delInfo.side <==> p != if assoc < 0 then begin else end)
      && (r.pos == Lands(m, i) || r.pos == Lands(m, i) + Width(m, i))
      && (p == begin < end ==> r.pos == Lands(m, i))
      && (begin < p == end ==> r.pos == Lands(m, i) + Width(m, i))
      && (begin < p < end || begin == end ==> r.pos == Lands(m, i) + if assoc < 0 then 0 else Width(m, i))
      && r.recover == (if p == (if assoc < 0 then begin else end) then None else Some(i + (p - begin) * 65536))
  {
    HitFrom(m, 0, p, i, true);
    MapByHit(m, 0, p, assoc);
    EdgesAre(m, i);
  }

  /** Away from all ranges: moved by what the ranges before it gained, with nothing replaced and nothing to recover. */
  lemma {:induction false} MapClear(m: StepMap, n: nat, p: int, assoc: int)
    requires Clears(m, n, p)
    ensures Map(m, p, assoc) ==
            MapResult(p + if m.inverted then -Gained(m, n) else Gained(m, n), DelInfo(false, false, false, false), None)
  {
    HitFrom(m, 0, p, n, false);
    MapByHit(m, 0, p, assoc);
    ShiftInverted(m, n);
  }

  lemma {:induction false} TouchesOrClears(m: StepMap, p: int) returns (i: nat)
    ensures Touches(m, i, p) || Clears(m, i, p)
  {
    MapByHit(m, 0, p, 0);
    i := Hit(m, 0, p).0;
    forall k | 0 <= k < |m.ranges|
      ensures Start(m, k) == OldStart(m, k) && End(m, k) == OldStart(m, k) + Length(m, k)
    {
      EdgesAre(m, k);
    }
  }

  /** Between any two ranges something stays. */
  predicate Separated(m: StepMap) {
    forall j, k | 0 <= j < k < |m.ranges| :: OldStart(m, j) + Length(m, j) < OldStart(m, k)
  }

  /** The token between `q` and `q + 1` was replaced. */
  ghost predicate TokenReplaced(m: StepMap, q: int) {
    exists k :: 0 <= k < |m.ranges| && OldStart(m, k) <= q < OldStart(m, k) + Length(m, k)
  }

  lemma {:induction false} ReplacedOnlyBy(m: StepMap, i: nat, q: int)
    requires Separated(m) && i < |m.ranges|
    requires forall k | 0 <= k < i :: OldStart(m, k) + Length(m, k) <= q
    requires q <= OldStart(m, i) + Length(m, i)
    ensures TokenReplaced(m, q) <==> OldStart(m, i) <= q < OldStart(m, i) + Length(m, i)
  {
  }

  /** A position counts as deleted exactly when the token on the side asked for was replaced. */
  lemma {:induction false} DeletedIff(m: StepMap, p: int, assoc: int)
    requires Separated(m)
    ensures Map(m, p, assoc).delInfo.side <==> TokenReplaced(m, if assoc < 0 then p - 1 else p)
  {
    var i := TouchesOrClears(m, p);
    var q := if assoc < 0 then p - 1 else p;
    if Touches(m, i, p) {
      MapTouching(m, i, p, assoc);
      ReplacedOnlyBy(m, i, q);
    } else {
      MapClear(m, i, p, assoc);
      if i < |m.ranges| {
        ReplacedOnlyBy(m, i, q);
      }
    }
  }

  // ----- monotonicity -----

  /** Where what replaced range `i` ends, on the side that is mapped to. */
  function ImageEnd(m: StepMap, i: nat): int
    requires i < |m.ranges|
  {
    Start(m, i) + Shift(m, i) + Replaced(m, i)
  }

  lemma {:induction false} ImagesRise(m: StepMap, i: nat, j: nat)
    requires Sorted(m) && i <= j < |m.ranges|
    ensures ImageEnd(m, i) <= ImageEnd(m, j)
    decreases j
  {
    if i < j {
      NextStart(m, j);
      ImagesRise(m, i, j - 1);
    }
  }

  lemma {:induction false} HitsRise(m: StepMap, i: nat, p: int, q: int)
    requires i <= |m.ranges| && p <= q
    ensures Hit(m, i, p).0 <= Hit(m, i, q).0
    decreases |m.ranges| - i
  {
    if i < |m.ranges| && Start(m, i) <= p && p > End(m, i) {
      HitsRise(m, i + 1, p, q);
    }
  }

  /** Two positions in or next to one range. */
  lemma {:induction false} SameRange(m: StepMap, i: nat, p: int, q: int, assoc: int)
    requires i < |m.ranges| && Start(m, i) <= p <= q <= End(m, i)
    ensures InRange(m, i, p, assoc).pos <= InRange(m, i, q, assoc).pos
  {
  }

  /** A position not past range `i` does not get past its image. */
  lemma {:induction false} BelowImage(m: StepMap, i: nat, p: int, assoc: int)
    requires i < |m.ranges|
    ensures InRange(m, i, p, assoc).pos <= ImageEnd(m, i)
    ensures p <= Start(m, i) ==> p + Shift(m, i) <= InRange(m, i, p, assoc).pos
    ensures p <= Start(m, i) ==> p + Shift(m, i) <= ImageEnd(m, i)
  {
  }

  /** A position past range `j - 1` does not get back into its image. */
  lemma {:induction false} AboveImage(m: StepMap, j: nat, q: int, assoc: int)
    requires Sorted(m) && 0 < j <= |m.ranges| && End(m, j - 1) < q
    ensures ImageEnd(m, j - 1) <= q + Shift(m, j)
    ensures j < |m.ranges| ==> ImageEnd(m, j - 1) <= InRange(m, j, q, assoc).pos
  {
    assert Shift(m, j) == Shift(m, j - 1) + Replaced(m, j - 1) - Size(m, j - 1);
    if j < |m.ranges| {
      NextStart(m, j);
    }
  }

  /** Mapping keeps the order of positions, on either side of what was replaced. */
  lemma {:induction false} MapMonotone(m: StepMap, p: int, q: int, assoc: int)
    requires Sorted(m) && p <= q
    ensures Map(m, p, assoc).pos <= Map(m, q, assoc).pos
  {
    MapByHit(m, 0, p, assoc);
    MapByHit(m, 0, q, assoc);
    HitsRise(m, 0, p, q);
    LandingsRise(m, Hit(m, 0, p), p, Hit(m, 0, q), q, assoc);
  }

  /** Where a position ends up that is mapped by range `h.0`, or lies before it. */
  function Landing(m: StepMap, h: (nat, bool), p: int, assoc: int): int
    requires h.0 <= |m.ranges| && (h.1 ==> h.0 < |m.ranges|)
  {
    if h.1 then InRange(m, h.0, p, assoc).pos else p + Shift(m, h.0)
  }

  predicate LandsAt(m: StepMap, h: (nat, bool), p: int) {
    && h.0 <= |m.ranges|
    && (h.1 ==> h.0 < |m.ranges| && Start(m, h.0) <= p <= End(m, h.0))
    && (!h.1 && h.0 < |m.ranges| ==> p < Start(m, h.0))
    && (h.0 > 0 ==> End(m, h.0 - 1) < p)
  }

  lemma {:induction false} LandingsRise(m: StepMap, h: (nat, bool), p: int, h': (nat, bool), q: int, assoc: int)
    requires Sorted(m) && p <= q && LandsAt(m, h, p) && LandsAt(m, h', q) && h.0 <= h'.0
    ensures Landing(m, h, p, assoc) <= Landing(m, h', q, assoc)
  {
    var i, j := h.0, h'.0;
    if i < j {
      BelowImage(m, i, p, assoc);
      ImagesRise(m, i, j - 1);
      AboveImage(m, j, q, assoc);
    } else if h'.1 {
      LandsLater(m, j, p, q, assoc);
    }
  }

  lemma {:induction false} LandsLater(m: StepMap, j: nat, p: int, q: int, assoc: int)
    requires j < |m.ranges| && p <= q && Start(m, j) <= q <= End(m, j)
    ensures p < Start(m, j) ==> p + Shift(m, j) <= InRange(m, j, q, assoc).pos
    ensures Start(m, j) <= p ==> InRange(m, j, p, assoc).pos <= InRange(m, j, q, assoc).pos
  {
    if Start(m, j) <= p {
      SameRange(m, j, p, q, assoc);
    }
  }

  /** Sticking to the left never ends up to the right of sticking to the right. */
  lemma {:induction false} MapSides(m: StepMap, p: int, left: int, right: int)
    requires left < 0 <= right
    ensures Map(m, p, left).pos <= Map(m, p, right).pos
  {
    MapByHit(m, 0, p, left);
    MapByHit(m, 0, p, right);
  }

  // ----- recovery -----

  /** Packing keeps the index exactly while it is below 65536. */
  lemma {:induction false} RecoverPacking(index: nat, offset: int)
    ensures RecoverIndex(MakeRecover(index, offset)) == index <==> index < 65536
    ensures index < 65536 ==> RecoverOffset(MakeRecover(index, offset)) == offset
  {
    var v := MakeRecover(index, offset);
    assert v % LOWER_16 == index % LOWER_16;
  }

  /** A recovered position is the one that was lost. */
  lemma {:induction false} RecoverRoundTrip(m: StepMap, p: int, assoc: int)
    requires |m.ranges| <= LOWER_16
    requires Map(m, p, assoc).recover.Some?
    ensures Recover(m.Invert(), Map(m, p, assoc).recover.value) == Some(p)
  {
    MapByHit(m, 0, p, assoc);
    var i := Hit(m, 0, p).0;
    RecoverPacking(i, p - Start(m, i));
    ShiftInverted(m, i);
  }

  // ----- there and back -----

  /** No range that only deletes touches the one before it. */
  predicate Reversible(m: StepMap) {
    forall i {:trigger m.ranges[i]} | 0 < i < |m.ranges| ::
      m.ranges[i - 1].start + m.ranges[i - 1].oldSize == m.ranges[i].start ==>
        !(Replaced(m, i) == 0 && Size(m, i) > 0)
  }

  /** A position that needs no recovery comes back through the inverted map. */
  ghost predicate ComesBack(m: StepMap, p: int, assoc: int) {
    Map(m, p, assoc).recover.None? ==> Map(m.Invert(), Map(m, p, assoc).pos, assoc).pos == p
  }

  lemma {:induction false} HitIs(m: StepMap, i: nat, p: int, j: nat, inside: bool)
    requires i <= j <= |m.ranges|
    requires forall k | i <= k < j :: Start(m, k) <= p && End(m, k) < p
    requires if inside then j < |m.ranges| && Start(m, j) <= p <= End(m, j)
             else j < |m.ranges| ==> p < Start(m, j)
    ensures Hit(m, i, p) == (j, inside)
    decreases j - i
  {
    if i < j {
      HitIs(m, i + 1, p, j, inside);
    }
  }

  lemma {:induction false} InverseSorted(m: StepMap)
    requires Sorted(m)
    ensures Sorted(m.Invert())
  {
    assert m.Invert().ranges == m.ranges;
  }

  /** Ranges before the one a position is mapped by end before the mapped position. */
  lemma {:induction false} EarlierEnd(m: StepMap, j: nat, q: int)
    requires Sorted(m) && j <= |m.ranges|
    requires j > 0 ==> ImageEnd(m, j - 1) < q
    ensures var inv := m.Invert(); forall k | 0 <= k < j :: Start(inv, k) <= q && End(inv, k) < q
  {
    var inv := m.Invert();
    forall k | 0 <= k < j
      ensures Start(inv, k) <= q && End(inv, k) < q
    {
      StartInverted(m, k);
      ImagesRise(m, k, j - 1);
    }
  }

  /** Between two ranges on the one side is between them on the other. */
  lemma {:induction false} BetweenInverted(m: StepMap, j: nat, p: int)
    requires Sorted(m) && Hit(m, 0, p) == (j, false)
    ensures var q := p + Shift(m, j);
      && (forall k | 0 <= k < j :: Start(m.Invert(), k) <= q && End(m.Invert(), k) < q)
      && (j < |m.ranges| ==> q < Start(m.Invert(), j))
  {
    MapByHit(m, 0, p, 0);
    if j > 0 { assert End(m, j - 1) < p; }
    EarlierEnd(m, j, p + Shift(m, j));
    if j < |m.ranges| { StartInverted(m, j); }
  }

  lemma {:induction false} ComesBackBetween(m: StepMap, j: nat, p: int, assoc: int)
    requires Sorted(m) && Hit(m, 0, p) == (j, false)
    ensures ComesBack(m, p, assoc)
  {
    MapByHit(m, 0, p, assoc);
    var q := p + Shift(m, j);
    var inv := m.Invert();
    BetweenInverted(m, j, p);
    HitIs(inv, 0, q, j, false);
    MapByHit(inv, 0, q, assoc);
    ShiftInverted(m, j);
  }

  lemma {:induction false} ComesBackInside(m: StepMap, j: nat, p: int, assoc: int)
    requires Sorted(m) && Reversible(m) && j < |m.ranges| && Hit(m, 0, p) == (j, true)
    ensures ComesBack(m, p, assoc)
  {
    MapByHit(m, 0, p, assoc);
    var r := Map(m, p, assoc);
    if r.recover.None? {
      var q := r.pos;
      var inv := m.Invert();
      assert q == if assoc < 0 then Start(m, j) + Shift(m, j) else ImageEnd(m, j);
      if j > 0 {
        assert End(m, j - 1) < p;
        NextStart(m, j);
        assert m.ranges[j] == m.ranges[j];
      }
      EarlierEnd(m, j, q);
      StartInverted(m, j);
      HitIs(inv, 0, q, j, true);
      MapByHit(inv, 0, q, assoc);
      ShiftInverted(m, j);
    }
  }

  /** The end of a touching deletion is mapped to the end of what replaced the range before it. */
  lemma {:induction false} DeletionEnd(m: StepMap, i: nat)
    requires Sorted(m) && 0 < i < |m.ranges|
    requires m.ranges[i - 1].start + m.ranges[i - 1].oldSize == m.ranges[i].start
    requires Replaced(m, i) == 0 && Size(m, i) > 0
    ensures Map(m, End(m, i), 1).pos == ImageEnd(m, i - 1) && Map(m, End(m, i), 1).recover.None?
    ensures End(m, i - 1) < End(m, i)
  {
    var p := End(m, i);
    forall k | 0 <= k < i
      ensures Start(m, k) <= p && End(m, k) < p
    {
      StartsRise(m, k, i);
    }
    HitIs(m, 0, p, i, true);
    MapByHit(m, 0, p, 1);
    NextStart(m, i);
  }

  /** The end of an image is mapped back no further than to the end of its range. */
  lemma {:induction false} ImageComesBack(m: StepMap, i: nat)
    requires Sorted(m) && i < |m.ranges|
    ensures Map(m.Invert(), ImageEnd(m, i), 1).pos <= End(m, i)
  {
    var inv, q := m.Invert(), ImageEnd(m, i);
    InverseSorted(m);
    StartInverted(m, i);
    ShiftInverted(m, i);
    assert End(inv, i) == q && ImageEnd(inv, i) == End(m, i);
    MapByHit(inv, 0, q, 1);
    var (h, hit) := Hit(inv, 0, q);
    assert h <= i;
    BelowImage(inv, h, q, 1);
    if h < i { StartsRise(inv, h, i); }
    ImagesRise(inv, h, i);
  }

  /** The position a touching deletion loses: the end of what was deleted. */
  lemma {:induction false} TouchingDeletionLost(m: StepMap, i: nat)
    requires Sorted(m) && 0 < i < |m.ranges|
    requires m.ranges[i - 1].start + m.ranges[i - 1].oldSize == m.ranges[i].start
    requires Replaced(m, i) == 0 && Size(m, i) > 0
    ensures !ComesBack(m, End(m, i), 1)
  {
    DeletionEnd(m, i);
    ImageComesBack(m, i - 1);
  }

  /** Mapping and mapping back is the identity exactly for the maps without a touching deletion. */
  lemma {:induction false} ThereAndBack(m: StepMap)
    requires Sorted(m)
    ensures Reversible(m) <==> forall p, assoc :: ComesBack(m, p, assoc)
  {
    if Reversible(m) {
      forall p, assoc
        ensures ComesBack(m, p, assoc)
      {
        var (j, hit) := Hit(m, 0, p);
        if hit { ComesBackInside(m, j, p, assoc); } else { ComesBackBetween(m, j, p, assoc); }
      }
    } else {
      var i :| 0 < i < |m.ranges| &&
        m.ranges[i - 1].start + m.ranges[i - 1].oldSize == m.ranges[i].start &&
        Replaced(m, i) == 0 && Size(m, i) > 0;
      TouchingDeletionLost(m, i);
    }
  }
}
