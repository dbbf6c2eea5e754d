/** Rope sequences: long sequences kept as trees of short arrays. Everything they do is what the flat sequence does. */
module Ropes {
  import opened Basics
  import opened Options

  const GOOD_LEAF_SIZE := 200

  /** `length` and `depth` are stored when a node is made. */
  datatype Rope<T> = Leaf(values: seq<T>) | Node(left: Rope<T>, right: Rope<T>, length: nat, depth: nat) {

    function Length(): nat {
      if Leaf? then |values| else length
    }

    function Depth(): nat {
      if Leaf? then 0 else depth
    }

    /** All the values, in order (`flatten`). */
    function Flat(): seq<T> {
      match this
      case Leaf(values) => values
      case Node(left, right, _, _) => left.Flat() + right.Flat()
    }

    /** How deep the tree really is. */
    function Height(): nat {
      match this
      case Leaf(_) => 0
      case Node(left, right, _, _) => Max(left.Height(), right.Height()) + 1
    }

    /** The stored lengths and depths are right, all the way down. */
    predicate Valid() {
      match this
      case Leaf(_) => true
      case Node(left, right, length, depth) =>
        && left.Valid() && right.Valid()
        && length == left.Length() + right.Length()
        && depth == Max(left.Depth(), right.Depth()) + 1
    }

    // ----- appending -----

    /** Puts the values of `other` into the last leaf, if it stays small. */
    function LeafAppend(other: Rope<T>): Option<Rope<T>> {
      match this
      case Leaf(values) =>
        if Length() + other.Length() <= GOOD_LEAF_SIZE then Some(Leaf(values + other.Flat())) else None
      case Node(left, right, _, _) =>
        var last := right.LeafAppend(other);
        if last.Some? then Some(Pair(left, last.value)) else None
    }

    /** Puts the values of `other` into the first leaf, if it stays small. */
    function LeafPrepend(other: Rope<T>): Option<Rope<T>> {
      match this
      case Leaf(values) =>
        if Length() + other.Length() <= GOOD_LEAF_SIZE then Some(Leaf(other.Flat() + values)) else None
      case Node(left, right, _, _) =>
        var first := left.LeafPrepend(other);
        if first.Some? then Some(Pair(first.value, right)) else None
    }

    /** Makes a new node, rotating if the left side is already the deeper one. */
    function AppendInner(other: Rope<T>): Rope<T> {
      if Node? && left.Depth() >= Max(right.Depth(), other.Depth()) + 1
      then Pair(left, Pair(right, other)) else Pair(this, other)
    }

    function Append(other: Rope<T>): Rope<T> {
      if other.Length() == 0 then this
      else if Length() == 0 then other
      else
        var onto := if other.Length() < GOOD_LEAF_SIZE then LeafAppend(other) else None;
        if onto.Some? then onto.value else
          var before := if Length() < GOOD_LEAF_SIZE then other.LeafPrepend(this) else None;
          if before.Some? then before.value else AppendInner(other)
    }

    function Prepend(other: Rope<T>): Rope<T> {
      if other.Length() == 0 then this else other.Append(this)
    }

    // ----- taking apart -----

    /** Any stretch between two positions; positions outside the rope are moved to its ends. */
    function Slice(from: int, end: int): Rope<T>
      decreases this, 1
    {
      if from >= end then Leaf([]) else SliceInner(Max(0, from), Min(Length(), end))
    }

    function SliceInner(from: int, end: int): Rope<T>
      decreases this, 0
    {
      if from == 0 && end == Length() then this else
        match this
        case Leaf(values) => Leaf(ArraySlice(values, from, end))
        case Node(left, right, _, _) =>
          var middle := left.Length();
          if end <= middle then left.Slice(from, end)
          else if from >= middle then right.Slice(from - middle, end - middle)
          else left.Slice(from, middle).Append(right.Slice(0, end - middle))
    }

    function Get(i: int): Option<T>
      decreases this, 1
    {
      if i < 0 || i >= Length() then None else GetInner(i)
    }

    function GetInner(i: nat): Option<T>
      decreases this, 0
    {
      match this
      case Leaf(values) => if i < |values| then Some(values[i]) else None
      case Node(left, right, _, _) =>
        if i < left.Length() then left.Get(i) else right.Get(i - left.Length())
    }
  }

  function Pair<T>(left: Rope<T>, right: Rope<T>): Rope<T> {
    Node(left, right, left.Length() + right.Length(), Max(left.Depth(), right.Depth()) + 1)
  }

  /** An array's `slice`: a negative end counts from the end of the array. */
  function ArraySlice<T>(values: seq<T>, from: int, end: int): seq<T> {
    var a := Min(if from < 0 then Max(|values| + from, 0) else from, |values|);
    var b := Min(if end < 0 then Max(|values| + end, 0) else end, |values|);
    if a < b then values[a..b] else []
  }

  /** The stretch of a sequence between two positions, moved to its ends if they are outside. */
  function Stretch<T>(s: seq<T>, from: int, end: int): seq<T> {
    var a, b := Max(0, from), Min(|s|, end);
    if a < b then s[a..b] else []
  }

  // ----- the stored fields -----

  lemma {:induction false} FieldsRight<T>(r: Rope<T>)
    requires r.Valid()
    ensures r.Length() == |r.Flat()| && r.Depth() == r.Height()
    decreases r
  {
    if r.Node? {
      FieldsRight(r.left);
      FieldsRight(r.right);
    }
  }

  // ----- appending -----

  /** The values of the last leaf, and of the first one. */
  function Last<T>(r: Rope<T>): seq<T> {
    if r.Leaf? then r.values else Last(r.right)
  }

  function First<T>(r: Rope<T>): seq<T> {
    if r.Leaf? then r.values else First(r.left)
  }

  /** Appending to the last leaf happens exactly when it fits. */
  lemma {:induction false} LeafAppendIs<T>(r: Rope<T>, other: Rope<T>)
    requires r.Valid() && other.Valid()
    ensures r.LeafAppend(other).Some? <==> |Last(r)| + |other.Flat()| <= 200
    ensures r.LeafAppend(other).Some? ==>
      && r.LeafAppend(other).value.Valid()
      && r.LeafAppend(other).value.Flat() == r.Flat() + other.Flat()
      && r.LeafAppend(other).value.Depth() == r.Depth()
    decreases r
  {
    FieldsRight(other);
    if r.Node? {
      LeafAppendIs(r.right, other);
      Assoc(r.left.Flat(), r.right.Flat(), other.Flat());
    }
  }

  lemma {:induction false} LeafPrependIs<T>(r: Rope<T>, other: Rope<T>)
    requires r.Valid() && other.Valid()
    ensures r.LeafPrepend(other).Some? <==> |First(r)| + |other.Flat()| <= 200
    ensures r.LeafPrepend(other).Some? ==>
      && r.LeafPrepend(other).value.Valid()
      && r.LeafPrepend(other).value.Flat() == other.Flat() + r.Flat()
      && r.LeafPrepend(other).value.Depth() == r.Depth()
    decreases r
  {
    FieldsRight(other);
    if r.Node? {
      LeafPrependIs(r.left, other);
      Assoc(other.Flat(), r.left.Flat(), r.right.Flat());
    }
  }

  lemma {:induction false} AppendInnerIs<T>(r: Rope<T>, other: Rope<T>)
    requires r.Valid() && other.Valid()
    ensures r.AppendInner(other).Valid()
    ensures r.AppendInner(other).Flat() == r.Flat() + other.Flat()
    ensures r.AppendInner(other).Depth() <= Max(r.Depth(), other.Depth()) + 1
  {
    if r.Node? {
      Assoc(r.left.Flat(), r.right.Flat(), other.Flat());
    }
  }

  /** Appending, by whichever way, puts one flat sequence behind the other, and keeps the fields right. */
  lemma {:induction false} AppendIs<T>(r: Rope<T>, other: Rope<T>)
    requires r.Valid() && other.Valid()
    ensures r.Append(other).Valid()
    ensures r.Append(other).Flat() == r.Flat() + other.Flat()
    ensures r.Append(other).Depth() <= Max(r.Depth(), other.Depth()) + 1
  {
    FieldsRight(r);
    FieldsRight(other);
    LeafAppendIs(r, other);
    LeafPrependIs(other, r);
    AppendInnerIs(r, other);
  }

  lemma {:induction false} PrependIs<T>(r: Rope<T>, other: Rope<T>)
    requires r.Valid() && other.Valid()
    ensures r.Prepend(other).Valid() && r.Prepend(other).Flat() == other.Flat() + r.Flat()
  {
    FieldsRight(other);
    AppendIs(other, r);
  }

  // ----- how deep appending makes a rope -----

  function Leaves<T>(r: Rope<T>): nat {
    if r.Leaf? then 1 else Leaves(r.left) + Leaves(r.right)
  }

  /** A rope made by appending arrays one after the other. */
  function Appended<T>(pieces: seq<seq<T>>): Rope<T> {
    if pieces == [] then Leaf([]) else Appended(pieces[..|pieces| - 1]).Append(Leaf(pieces[|pieces| - 1]))
  }

  /** The sum of all numbers below `d`. */
  function Triangle(d: nat): nat {
    if d == 0 then 0 else Triangle(d - 1) + d - 1
  }

  /** The left side is the deeper one, and there are enough leaves for the depth. */
  predicate Grown<T>(r: Rope<T>) {
    r.Valid() && (r.Node? ==>
      && r.left.Depth() >= r.right.Depth()
      && Leaves(r) >= 2 + Triangle(r.Depth()) + r.right.Depth())
  }

  lemma {:induction false} LeafAppendShape<T>(r: Rope<T>, other: Rope<T>)
    requires r.Valid() && other.Valid() && r.LeafAppend(other).Some?
    ensures var r' := r.LeafAppend(other).value;
      && Leaves(r') == Leaves(r) && r'.Depth() == r.Depth()
      && (r.Node? <==> r'.Node?)
      && (r.Node? ==> r'.left == r.left && r'.right.Depth() == r.right.Depth())
    decreases r
  {
    LeafAppendIs(r, other);
    if r.Node? {
      LeafAppendIs(r.right, other);
      LeafAppendShape(r.right, other);
    }
  }

  lemma {:induction false} LeafPrependLeaves<T>(r: Rope<T>, other: Rope<T>)
    requires r.LeafPrepend(other).Some?
    ensures Leaves(r.LeafPrepend(other).value) == Leaves(r)
    decreases r
  {
    if r.Node? {
      LeafPrependLeaves(r.left, other);
    }
  }

  /** A short rope goes into a leaf next to it if that stays small; otherwise all leaves stay. */
  lemma {:induction false} AppendLeaves<T>(r: Rope<T>, other: Rope<T>)
    requires r.Valid() && other.Valid() && r.Flat() != [] && other.Flat() != []
    ensures var size, size' := |r.Flat()|, |other.Flat()|;
      Leaves(r.Append(other)) ==
      if size' < 200 && |Last(r)| + size' <= 200 then Leaves(r)
      else if size < 200 && size + |First(other)| <= 200 then Leaves(other)
      else Leaves(r) + Leaves(other)
  {
    FieldsRight(r);
    FieldsRight(other);
    LeafAppendIs(r, other);
    LeafPrependIs(other, r);
    if r.LeafAppend(other).Some? {
      LeafAppendShape(r, other);
    }
    if other.LeafPrepend(r).Some? {
      LeafPrependLeaves(other, r);
    }
  }

  lemma {:induction false} InnerGrows<T>(r: Rope<T>, values: seq<T>)
    requires Grown(r)
    ensures Grown(r.AppendInner(Leaf(values))) && Leaves(r.AppendInner(Leaf(values))) == Leaves(r) + 1
  {
    if r.Node? && r.left.Depth() < Max(r.right.Depth(), 0) + 1 {
      assert Triangle(r.Depth() + 1) == Triangle(r.Depth()) + r.Depth();
    }
  }

  lemma {:induction false} AppendGrows<T>(r: Rope<T>, values: seq<T>)
    requires Grown(r)
    ensures Grown(r.Append(Leaf(values))) && Leaves(r.Append(Leaf(values))) <= Leaves(r) + 1
  {
    AppendIs(r, Leaf(values));
    InnerGrows(r, values);
    if r.LeafAppend(Leaf(values)).Some? {
      LeafAppendShape(r, Leaf(values));
    }
  }

  lemma {:induction false} AppendedGrown<T>(pieces: seq<seq<T>>)
    ensures Grown(Appended(pieces)) && Leaves(Appended(pieces)) <= |pieces| + 1
  {
    if pieces != [] {
      AppendedGrown(pieces[..|pieces| - 1]);
      AppendGrows(Appended(pieces[..|pieces| - 1]), pieces[|pieces| - 1]);
    }
  }

  /** A rope made by appending arrays is no deeper than the square root of their number allows. */
  lemma {:induction false} AppendedShallow<T>(pieces: seq<seq<T>>)
    ensures Triangle(Appended(pieces).Depth()) <= |pieces|
  {
    AppendedGrown(pieces);
  }

  // ----- taking apart -----

  lemma {:induction false} StretchLeft<T>(a: seq<T>, b: seq<T>, from: int, end: int)
    requires 0 <= from && end <= |a|
    ensures Stretch(a + b, from, end) == Stretch(a, from, end)
  {
  }

  lemma {:induction false} StretchRight<T>(a: seq<T>, b: seq<T>, from: int, end: int)
    requires |a| <= from && end <= |a| + |b|
    ensures Stretch(a + b, from, end) == Stretch(b, from - |a|, end - |a|)
  {
  }

  lemma {:induction false} StretchBoth<T>(a: seq<T>, b: seq<T>, from: int, end: int)
    requires 0 <= from < |a| < end <= |a| + |b|
    ensures Stretch(a + b, from, end) == Stretch(a, from, |a|) + Stretch(b, 0, end - |a|)
  {
  }

  lemma {:induction false} SliceInnerIs<T>(r: Rope<T>, from: int, end: int)
    requires r.Valid() && 0 <= from && end <= r.Length()
    ensures r.SliceInner(from, end).Valid()
    ensures end >= 0 || r.Node? ==> r.SliceInner(from, end).Flat() == Stretch(r.Flat(), from, end)
    decreases r, 0
  {
    FieldsRight(r);
    if r.Node? && !(from == 0 && end == r.Length()) {
      FieldsRight(r.left);
      FieldsRight(r.right);
      var middle := r.left.Length();
      if end <= middle {
        SliceIs(r.left, from, end);
        StretchLeft(r.left.Flat(), r.right.Flat(), from, end);
      } else if from >= middle {
        SliceIs(r.right, from - middle, end - middle);
        StretchRight(r.left.Flat(), r.right.Flat(), from, end);
      } else {
        SliceIs(r.left, from, middle);
        SliceIs(r.right, 0, end - middle);
        SliceAcross(r.left.Slice(from, middle), r.right.Slice(0, end - middle), r.left.Flat(), r.right.Flat(), from,
          end);
        assert r.SliceInner(from, end) == r.left.Slice(from, middle).Append(r.right.Slice(0, end - middle));
      }
    }
  }

  lemma {:induction false} SliceAcross<T>(left: Rope<T>, right: Rope<T>, a: seq<T>, b: seq<T>, from: int, end: int)
    requires left.Valid() && right.Valid() && 0 <= from < |a| < end <= |a| + |b|
    requires left.Flat() == Stretch(a, from, |a|) && right.Flat() == Stretch(b, 0, end - |a|)
    ensures left.Append(right).Valid() && left.Append(right).Flat() == Stretch(a + b, from, end)
  {
    AppendIs(left, right);
    StretchBoth(a, b, from, end);
  }

  lemma {:induction false} SliceIs<T>(r: Rope<T>, from: int, end: int)
    requires r.Valid()
    ensures r.Slice(from, end).Valid()
    ensures end >= 0 || r.Node? || from >= end ==> r.Slice(from, end).Flat() == Stretch(r.Flat(), from, end)
    decreases r, 1
  {
    FieldsRight(r);
    if from < end {
      SliceInnerIs(r, Max(0, from), Min(r.Length(), end));
    }
  }

  /** A slice is the stretch asked for, unless a single leaf is asked for one that ends before its start. */
  lemma {:induction false} SliceExact<T>(r: Rope<T>, from: int, end: int)
    requires r.Valid()
    ensures r.Slice(from, end).Flat() == Stretch(r.Flat(), from, end) <==>
            !(from < end < 0 && r.Leaf? && r.Length() + end > 0)
  {
    SliceIs(r, from, end);
    if from < end < 0 && r.Leaf? {
      assert Stretch(r.Flat(), from, end) == [];
      assert r.Slice(from, end).Flat() == r.values[..Max(|r.values| + end, 0)];
    }
  }

  lemma {:induction false} GetIs<T>(r: Rope<T>, i: int)
    requires r.Valid()
    ensures r.Get(i) == if 0 <= i < |r.Flat()| then Some(r.Flat()[i]) else None
    decreases r
  {
    FieldsRight(r);
    if r.Node? {
      FieldsRight(r.left);
      GetIs(r.left, i);
      GetIs(r.right, i - r.left.Length());
    }
  }

  // ----- visiting -----

  /** Visiting values upwards: the callback's state, and whether it let the visit go on. */
  function Upward<S, T>(f: (S, T, int) -> (S, bool), s: seq<T>, from: nat, end: nat, start: int, st: S): (S, bool)
    requires from <= end <= |s|
    decreases end - from
  {
    if from == end then (st, true) else
      var (st', on) := f(st, s[from], start + from);
      if on then Upward(f, s, from + 1, end, start, st') else (st', false)
  }

  /** Visiting the values from before `from` down to `end`. */
  function Downward<S, T>(f: (S, T, int) -> (S, bool), s: seq<T>, from: nat, end: nat, start: int, st: S): (S, bool)
    requires end <= from <= |s|
    decreases from
  {
    if from == end then (st, true) else
      var (st', on) := f(st, s[from - 1], start + from - 1);
      if on then Downward(f, s, from - 1, end, start, st') else (st', false)
  }

  /**
   * The callback was given one value after the other with its index, in the state that the one
   * before left, until all were visited or it said stop; `states` are all it went through.
   */
  predicate Visited<S(==), T>(f: (S, T, int) -> (S, bool), values: seq<T>, indices: seq<int>, states: seq<S>, on: bool)
    requires |values| == |indices|
  {
    && 1 <= |states| <= |values| + 1 && (on ==> |states| == |values| + 1) && (!on ==> |states| > 1)
    && forall j | 0 <= j < |states| - 1 ::
         f(states[j], values[j], indices[j]) == (states[j + 1], j < |states| - 2 || on)
  }

  lemma {:induction false} VisitedFirst<S, T>(f: (S, T, int) -> (S, bool), values: seq<T>, indices: seq<int>, st: S)
    returns (states: seq<S>)
    requires |values| == |indices| > 0 && !f(st, values[0], indices[0]).1
    ensures Visited(f, values, indices, states, false)
    ensures states[0] == st && states[|states| - 1] == f(st, values[0], indices[0]).0
  {
    states := [st, f(st, values[0], indices[0]).0];
  }

  lemma {:induction false} VisitedMore<S, T>(f: (S, T, int) -> (S, bool), values: seq<T>, indices: seq<int>, st: S,
          rest: seq<S>, on: bool)
    requires |values| == |indices| > 0 && Visited(f, values[1..], indices[1..], rest, on)
    requires f(st, values[0], indices[0]) == (rest[0], true)
    ensures Visited(f, values, indices, [st] + rest, on)
  {
    var states := [st] + rest;
    forall j | 0 <= j < |states| - 1
      ensures f(states[j], values[j], indices[j]) == (states[j + 1], j < |states| - 2 || on)
    {
      if j > 0 {
        assert values[j] == values[1..][j - 1] && indices[j] == indices[1..][j - 1];
      }
    }
  }

  /** Upwards, the first value is the one at `from` and the last the one before `end`. */
  lemma {:induction false} UpwardVisits<S, T>(f: (S, T, int) -> (S, bool), s: seq<T>, from: nat, end: nat, start: int,
          st: S)
    returns (states: seq<S>)
    requires from <= end <= |s|
    ensures var (last, on) := Upward(f, s, from, end, start, st);
      && Visited(f, s[from..end], seq(end - from, j => start + from + j), states, on)
      && states[0] == st && states[|states| - 1] == last
    decreases end - from
  {
    var values, indices := s[from..end], seq(end - from, j => start + from + j);
    if from == end {
      states := [st];
    } else {
      var (next, on) := f(st, s[from], start + from);
      if on {
        var rest := UpwardVisits(f, s, from + 1, end, start, next);
        states := [st] + rest;
        assert values[1..] == s[from + 1..end] && indices[1..] == seq(end - (from + 1), j => start + (from + 1) + j);
        VisitedMore(f, values, indices, st, rest, Upward(f, s, from + 1, end, start, next).1);
      } else {
        states := VisitedFirst(f, values, indices, st);
      }
    }
  }

  /** Downwards, the first value is the one before `from` and the last the one at `end`. */
  lemma {:induction false} DownwardVisits<S, T>(f: (S, T, int) -> (S, bool), s: seq<T>, from: nat, end: nat, start: int,
          st: S)
    returns (states: seq<S>)
    requires end <= from <= |s|
    ensures var (last, on) := Downward(f, s, from, end, start, st);
      && Visited(f, Reverse(s[end..from]), seq(from - end, j => start + from - 1 - j), states, on)
      && states[0] == st && states[|states| - 1] == last
    decreases from
  {
    var values, indices := Reverse(s[end..from]), seq(from - end, j => start + from - 1 - j);
    if from == end {
      states := [st];
    } else {
      var (next, on) := f(st, s[from - 1], start + from - 1);
      if on {
        var rest := DownwardVisits(f, s, from - 1, end, start, next);
        states := [st] + rest;
        assert values[1..] == Reverse(s[end..from - 1]);
        assert indices[1..] == seq(from - 1 - end, j => start + (from - 1) - 1 - j);
        VisitedMore(f, values, indices, st, rest, Downward(f, s, from - 1, end, start, next).1);
      } else {
        states := VisitedFirst(f, values, indices, st);
      }
    }
  }

  lemma {:induction false} UpwardLeft<S, T>(f: (S, T, int) -> (S, bool), a: seq<T>, b: seq<T>, from: nat, end: nat,
          start: int, st: S)
    requires from <= end <= |a|
    ensures Upward(f, a + b, from, end, start, st) == Upward(f, a, from, end, start, st)
    decreases end - from
  {
    if from < end {
      var (st', on) := f(st, a[from], start + from);
      if on { UpwardLeft(f, a, b, from + 1, end, start, st'); }
    }
  }

  lemma {:induction false} UpwardRight<S, T>(f: (S, T, int) -> (S, bool), a: seq<T>, b: seq<T>, from: nat, end: nat,
          start: int, st: S)
    requires |a| <= from <= end <= |a| + |b|
    ensures Upward(f, a + b, from, end, start, st) == Upward(f, b, from - |a|, end - |a|, start + |a|, st)
    decreases end - from
  {
    if from < end {
      var (st', on) := f(st, b[from - |a|], start + from);
      if on { UpwardRight(f, a, b, from + 1, end, start, st'); }
    }
  }

  lemma {:induction false} UpwardThen<S, T>(f: (S, T, int) -> (S, bool), s: seq<T>, from: nat, mid: nat, end: nat,
          start: int, st: S)
    requires from <= mid <= end <= |s|
    ensures var (st', on) := Upward(f, s, from, mid, start, st);
      Upward(f, s, from, end, start, st) == if on then Upward(f, s, mid, end, start, st') else (st', false)
    decreases mid - from
  {
    if from < mid {
      var (st', on) := f(st, s[from], start + from);
      if on { UpwardThen(f, s, from + 1, mid, end, start, st'); }
    }
  }

  lemma {:induction false} DownwardLeft<S, T>(f: (S, T, int) -> (S, bool), a: seq<T>, b: seq<T>, from: nat, end: nat,
          start: int, st: S)
    requires end <= from <= |a|
    ensures Downward(f, a + b, from, end, start, st) == Downward(f, a, from, end, start, st)
    decreases from
  {
    if from > end {
      var (st', on) := f(st, a[from - 1], start + from - 1);
      if on { DownwardLeft(f, a, b, from - 1, end, start, st'); }
    }
  }

  lemma {:induction false} DownwardRight<S, T>(f: (S, T, int) -> (S, bool), a: seq<T>, b: seq<T>, from: nat, end: nat,
          start: int, st: S)
    requires |a| <= end <= from <= |a| + |b|
    ensures Downward(f, a + b, from, end, start, st) == Downward(f, b, from - |a|, end - |a|, start + |a|, st)
    decreases from
  {
    if from > end {
      var (st', on) := f(st, b[from - 1 - |a|], start + from - 1);
      if on { DownwardRight(f, a, b, from - 1, end, start, st'); }
    }
  }

  lemma {:induction false} DownwardThen<S, T>(f: (S, T, int) -> (S, bool), s: seq<T>, from: nat, mid: nat, end: nat,
          start: int, st: S)
    requires end <= mid <= from <= |s|
    ensures var (st', on) := Downward(f, s, from, mid, start, st);
      Downward(f, s, from, end, start, st) == if on then Downward(f, s, mid, end, start, st') else (st', false)
    decreases from
  {
    if from > mid {
      var (st', on) := f(st, s[from - 1], start + from - 1);
      if on { DownwardThen(f, s, from - 1, mid, end, start, st'); }
    }
  }

  method ForEachInner<S, T>(r: Rope<T>, f: (S, T, int) -> (S, bool), from: nat, end: nat, start: int, st0: S)
    returns (st: S, on: bool)
    requires r.Valid() && from <= end <= r.Length() == |r.Flat()|
    ensures (st, on) == Upward(f, r.Flat(), from, end, start, st0)
    decreases r
  {
    st, on := st0, true;
    match r
    case Leaf(values) =>
      var i := from;
      while i < end
        invariant from <= i <= end
        invariant Upward(f, values, from, end, start, st0) == Upward(f, values, i, end, start, st)
      {
        var (st', go) := f(st, values[i], start + i);
        st := st';
        if !go {
          return st, false;
        }
        i := i + 1;
      }
    case Node(left, right, length, _) =>
      FieldsRight(left);
      FieldsRight(right);
      var middle := left.Length();
      var a, b := left.Flat(), right.Flat();
      ghost var turn := Min(Max(from, middle), end);
      UpwardThen(f, a + b, from, turn, end, start, st0);
      if from < middle {
        UpwardLeft(f, a, b, from, turn, start, st0);
        st, on := ForEachInner(left, f, from, Min(end, middle), start, st);
        if !on {
          return;
        }
      }
      if end > middle {
        UpwardRight(f, a, b, turn, end, start, st);
        st, on := ForEachInner(right, f, Max(from - middle, 0), Min(length, end) - middle, start + middle, st);
      }
  }

  method ForEachInvertedInner<S, T>(r: Rope<T>, f: (S, T, int) -> (S, bool), from: nat, end: nat, start: int, st0: S)
    returns (st: S, on: bool)
    requires r.Valid() && end <= from <= r.Length() == |r.Flat()|
    ensures (st, on) == Downward(f, r.Flat(), from, end, start, st0)
    decreases r
  {
    st, on := st0, true;
    match r
    case Leaf(values) =>
      var i: int := from - 1;
      while i >= end
        invariant end - 1 <= i < from
        invariant Downward(f, values, from, end, start, st0) == Downward(f, values, i + 1, end, start, st)
      {
        var (st', go) := f(st, values[i], start + i);
        st := st';
        if !go {
          return st, false;
        }
        i := i - 1;
      }
    case Node(left, right, length, _) =>
      FieldsRight(left);
      FieldsRight(right);
      var middle := left.Length();
      var a, b := left.Flat(), right.Flat();
      ghost var turn := Max(Min(from, middle), end);
      DownwardThen(f, a + b, from, turn, end, start, st0);
      if from > middle {
        DownwardRight(f, a, b, from, turn, start, st0);
        st, on := ForEachInvertedInner(right, f, from - middle, Max(end, middle) - middle, start + middle, st);
        if !on {
          return;
        }
      }
      if end < middle {
        DownwardLeft(f, a, b, turn, end, start, st);
        st, on := ForEachInvertedInner(left, f, Min(from, middle), end, start, st);
      }
  }

  /** Visits upwards or downwards, with the index of each value, until the callback says stop. */
  method ForEach<S, T>(r: Rope<T>, f: (S, T, int) -> (S, bool), from: nat, end: nat, st0: S) returns (st: S)
    requires r.Valid() && from <= r.Length() && end <= r.Length()
    ensures |r.Flat()| == r.Length()
    ensures from <= end ==> st == Upward(f, r.Flat(), from, end, 0, st0).0
    ensures from > end ==> st == Downward(f, r.Flat(), from, end, 0, st0).0
  {
    FieldsRight(r);
    var on;
    if from <= end {
      st, on := ForEachInner(r, f, from, end, 0, st0);
    } else {
      st, on := ForEachInvertedInner(r, f, from, end, 0, st0);
    }
  }
}
