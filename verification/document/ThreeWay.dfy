/** Putting a slice between two positions: the token string is spliced. */
module ThreeWayTokens {
  import opened Basics
  import opened Options
  import opened Document
  import opened Resolved
  import opened Replace
  import opened JoinTokens

  /** As far left, or right, as its depth allows. */
  predicate Leading(r: Pos) {
    PosOk(r) && r.index == 0 && (if r.At? then r.parentOffset == 0 else Leading(r.inner))
  }

  predicate Trailing(r: Pos) {
    && PosOk(r)
    && if r.At? then r.index == |r.node.content| && r.parentOffset == Size(r.node.content)
       else r.index == |r.node.content| - 1 && Trailing(r.inner)
  }

  /** The two ends of a slice in one node, the first opening it from the left, the other from the right. */
  predicate Ends(start: Pos, end: Pos) {
    Leading(start) && Trailing(end) && start.node == end.node
  }

  ghost function Mid(start: Pos, end: Pos): seq<Token>
    requires PosOk(start) && PosOk(end) && start.node == end.node && Offset(start) <= Offset(end)
  {
    SidesMeet(end);
    Left(end)[Offset(start)..]
  }

  ghost function OpenedLeft(start: Pos): seq<Token>
    requires PosOk(start)
  {
    if start.In? then Right(start.inner) + [Close] else []
  }

  ghost function OpenedRight(end: Pos): seq<Token>
    requires PosOk(end)
  {
    if end.In? then [Open(end.inner.node.markup)] + Left(end.inner) else []
  }

  function First(start: Pos): nat {
    if start.In? then 1 else 0
  }

  lemma {:induction false} LeftOfEnd(end: Pos)
    requires Trailing(end)
    ensures Left(end) == Tokens(end.node.content[..end.index]) + OpenedRight(end)
  {
    if end.At? {
      assert TextOffset(end) == 0;
    }
  }

  lemma {:induction false} UpToEnd(start: Pos, end: Pos)
    requires Ends(start, end) && First(start) <= end.index
    ensures Tokens(start.node.content[..end.index]) ==
            Left(start) + (OpenedLeft(start) + Tokens(start.node.content[First(start)..end.index]))
  {
    var f := start.node.content;
    assert f[..0] == [];
    if start.In? {
      var c := start.inner.node;
      SidesMeet(start.inner);
      assert f[..end.index] == [c] + f[1..end.index];
      TokensAppend([c], f[1..end.index]);
      TokensOne(c);
      assert Left(start) == [] + ([Open(c.markup)] + Left(start.inner));
      MidRegroup([Open(c.markup)], Left(start.inner), Right(start.inner), [Close], Tokens(f[1..end.index]));
    } else {
      assert f[0..end.index] == f[..end.index];
      assert Left(start) == [] + [];
    }
  }

  lemma {:induction false} DropPrefix<T>(a: seq<T>, b: seq<T>, c: seq<T>)
    ensures ((a + b) + c)[|a|..] == b + c
  {
    Assoc(a, b, c);
  }

  /** The middle, when the two ends are not in the same child. */
  lemma {:induction false} MidApart(start: Pos, end: Pos)
    requires Ends(start, end) && First(start) <= end.index
    ensures Offset(start) <= Offset(end)
    ensures Mid(start, end) ==
            OpenedLeft(start) + Tokens(start.node.content[First(start)..end.index]) + OpenedRight(end)
  {
    SidesMeet(start);
    SidesMeet(end);
    LeftOfEnd(end);
    UpToEnd(start, end);
    DropPrefix(Left(start), OpenedLeft(start) + Tokens(start.node.content[First(start)..end.index]), OpenedRight(end));
  }

  lemma {:induction false} MidRegroup<T>(o: seq<T>, l: seq<T>, r: seq<T>, c: seq<T>, inner: seq<T>)
    ensures o + (l + r) + c + inner == (o + l) + (r + c + inner)
  {
    Assoc(o, l, r);
    Assoc(o + l, r, c);
    Assoc(o + l, r + c, inner);
  }

  /** The middle, when both ends are in the only child. */
  lemma {:induction false} MidTogether(start: Pos, end: Pos)
    requires Ends(start, end) && start.In? && end.In? && start.index == end.index
    requires Offset(start.inner) <= Offset(end.inner)
    ensures Offset(start) <= Offset(end)
    ensures Mid(start, end) == Mid(start.inner, end.inner)
  {
    var f := start.node.content;
    assert f[..0] == [];
    SidesMeet(end);
    SidesMeet(end.inner);
    assert Left(end) == [] + [Open(end.inner.node.markup)] + Left(end.inner);
  }

  lemma {:induction false} EndsInOrder(start: Pos, end: Pos)
    requires Ends(start, end)
    ensures Offset(start) <= Offset(end)
    decreases start
  {
    if start.In? && end.In? && start.index == end.index {
      EndsInOrder(start.inner, end.inner);
      MidTogether(start, end);
    } else {
      MidApart(start, end);
    }
  }

  lemma {:induction false} AddMiddle(start: Pos, end: Pos, target: Fragment)
    requires Ends(start, end) && First(start) <= end.index
    ensures Tokens(AddRange(Some(start), Some(end), target)) ==
            Tokens(target) + Tokens(start.node.content[First(start)..end.index])
  {
    var f := start.node.content;
    assert f[..0] == [];
    assert start.At? ==> TextOffset(start) == 0;
    assert end.At? ==> TextOffset(end) == 0;
    AddAllTokens(f[First(start)..end.index], target);
  }

  /** The left side, joined with the slice's open start. */
  lemma {:induction false} LeftSide(rules: Rules, a: Pos, start: Pos)
    requires PosOk(a) && PosOk(start) && Depth(a) == Depth(start)
    ensures var r := JoinedSide(rules, a, start, AddRange(None, Some(a), []));
      r.Done? ==> Tokens(r.value) == Left(a) + OpenedLeft(start)
  {
    var left := AddRange(None, Some(a), []);
    var r := JoinedSide(rules, a, start, left);
    if a.At? {
      AddBefore(a);
      assert Left(a) + [] == Left(a);
    } else if r.Done? {
      AddBeforeChild(a);
      TwoWayTokens(rules, a.inner, start.inner);
      var closed := Elem(a.inner.node.markup, TwoWay(rules, a.inner, start.inner).value);
      NoMiddle(Left(a.inner), Right(start.inner));
      ClosedTokens(a, start, left, closed, []);
      NoMiddle(Left(a), Right(start.inner));
      Assoc(Left(a), Right(start.inner), [Close]);
    }
  }

  /** The right side, joined with the slice's open end, and what follows it. */
  lemma {:induction false} RightSide(rules: Rules, end: Pos, b: Pos, middle: Fragment)
    requires PosOk(end) && PosOk(b) && Depth(end) == Depth(b)
    ensures var r := JoinedSide(rules, end, b, middle);
      r.Done? ==> Tokens(AddRange(Some(b), None, r.value)) == Tokens(middle) + OpenedRight(end) + Right(b)
  {
    var r := JoinedSide(rules, end, b, middle);
    if r.Done? {
      if end.In? {
        AddAfterChild(b, r.value);
        TwoWayTokens(rules, end.inner, b.inner);
        RightChild(end, b, middle, TwoWay(rules, end.inner, b.inner).value);
      } else {
        AddAfter(b, middle);
        NoMiddle(Tokens(middle), Right(b));
      }
    }
  }

  lemma {:induction false} RightChild(end: Pos, b: Pos, middle: Fragment, content: Fragment)
    requires PosOk(end) && PosOk(b) && end.In? && b.In?
    requires Tokens(content) == Left(end.inner) + Right(b.inner)
    ensures Tokens(AddNode(Elem(end.inner.node.markup, content), middle)) + Tokens(b.node.content[b.index + 1..]) ==
            Tokens(middle) + OpenedRight(end) + Right(b)
  {
    var closed := Elem(end.inner.node.markup, content);
    var o, l, r, post := [Open(closed.markup)], Left(end.inner), Right(b.inner), Tokens(b.node.content[b.index + 1..]);
    AddNodeTokens(closed, middle);
    AroundChild(Tokens(middle), o, l, r, [Close], post);
  }

  lemma {:induction false} AroundChild<T>(m: seq<T>, o: seq<T>, l: seq<T>, r: seq<T>, c: seq<T>, post: seq<T>)
    ensures (m + (o + (l + r) + c)) + post == m + (o + l) + (r + c + post)
  {
    NoMiddle(l, r);
    WrapInside(m, o, l, [], r, c);
    Assoc(m, o, l);
    NoMiddle(m + (o + l), r);
    assert (m + (o + l) + []) == m + (o + l);
    Tail4(m + (o + l), [], r, c, post);
  }

  lemma {:induction false} Gather<T>(a: seq<T>, x: seq<T>, y: seq<T>, z: seq<T>, b: seq<T>)
    ensures ((a + x) + y) + z + b == a + (x + y + z) + b
  {
    Assoc(a, x, y);
    Assoc(a, x + y, z);
  }

  lemma {:induction false} ApartTokens(rules: Rules, a: Pos, start: Pos, end: Pos, b: Pos)
    requires PosOk(a) && PosOk(b) && Ends(start, end) && First(start) <= end.index
    requires Depth(a) == Depth(start) && Depth(end) == Depth(b)
    ensures Offset(start) <= Offset(end)
    ensures var r := ApartSteps(rules, a, start, end, b);
      r.Done? ==> Tokens(r.value) == Left(a) + Mid(start, end) + Right(b)
  {
    MidApart(start, end);
    if ApartSteps(rules, a, start, end, b).Done? {
      LeftSide(rules, a, start);
      var joined := JoinedSide(rules, a, start, AddRange(None, Some(a), [])).value;
      AddMiddle(start, end, joined);
      RightSide(rules, end, b, AddRange(Some(start), Some(end), joined));
      Gather(Left(a), OpenedLeft(start), Tokens(start.node.content[First(start)..end.index]), OpenedRight(end),
        Right(b));
    }
  }

  /** What is before `a`, the slice between its ends, and what is after `b`. */
  lemma {:induction false} ThreeWaySplice(rules: Rules, a: Pos, start: Pos, end: Pos, b: Pos)
    requires PosOk(a) && PosOk(b) && Ends(start, end)
    requires Depth(a) == Depth(start) && Depth(end) == Depth(b)
    ensures Offset(start) <= Offset(end)
    ensures var r := ThreeWay(rules, a, start, end, b);
      r.Done? ==> Tokens(r.value) == Left(a) + Mid(start, end) + Right(b)
    decreases a
  {
    EndsInOrder(start, end);
    if a.In? && b.In? && start.index == end.index {
      ThreeWayIn(rules, a, start, end, b);
      var inner := ThreeWay(rules, a.inner, start.inner, end.inner, b.inner);
      ThreeWaySplice(rules, a.inner, start.inner, end.inner, b.inner);
      MidTogether(start, end);
      if inner.Done? {
        RejoinedTokens(a, b, inner.value, Mid(start, end));
      }
    } else {
      ThreeWayOut(rules, a, start, end, b);
      ApartTokens(rules, a, start, end, b);
    }
  }
}
