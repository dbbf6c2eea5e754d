/** What joining and copying do to the token string. */
module JoinTokens {
  import opened Basics
  import opened Options
  import opened Document
  import opened Resolved
  import opened Replace

  // ----- regrouping concatenations -----

  /** The split of an element at a position inside it. */
  lemma {:induction false} SplitInside<T>(pre: seq<T>, o: seq<T>, l: seq<T>, r: seq<T>, c: seq<T>, post: seq<T>)
    ensures (pre + (o + l)) + (r + c + post) == pre + (o + (l + r) + c) + post
  {
    calc {
      (pre + (o + l)) + (r + c + post);
    ==  { Assoc(pre, o + l, r + c + post); }
      pre + ((o + l) + (r + c + post));
    ==  { Assoc(o, l, r + c + post); Assoc(r, c, post); }
      pre + (o + (l + (r + (c + post))));
    ==  { Assoc(l, r, c + post); Assoc(o, l + r, c + post); Assoc(o + (l + r), c, post); }
      pre + ((o + (l + r) + c) + post);
    ==  { Assoc(pre, o + (l + r) + c, post); }
      pre + (o + (l + r) + c) + post;
    }
  }

  /** An element put behind `left`, around `l`, `mid` and `r`. */
  lemma {:induction false} WrapInside<T>(left: seq<T>, o: seq<T>, l: seq<T>, mid: seq<T>, r: seq<T>, c: seq<T>)
    ensures left + (o + (l + mid + r) + c) == (left + o + l) + mid + r + c
  {
    calc {
      left + (o + (l + mid + r) + c);
    ==  { Assoc(left, o + (l + mid + r), c); Assoc(left, o, l + mid + r); }
      ((left + o) + (l + mid + r)) + c;
    ==  { Assoc(left + o, l + mid, r); Assoc(left + o, l, mid); }
      (left + o + l) + mid + r + c;
    }
  }

  lemma {:induction false} Tail4<T>(a: seq<T>, b: seq<T>, r: seq<T>, c: seq<T>, post: seq<T>)
    ensures a + b + r + c + post == a + b + (r + c + post)
  {
    Assoc(a + b, r, c);
    Assoc(a + b, r + c, post);
  }

  // ----- the two sides of a position -----

  /** The tokens before a position, in the node of its outermost level. */
  ghost function Left(r: Pos): seq<Token>
    requires PosOk(r)
  {
    Tokens(r.node.content[..r.index]) +
    match r
    case At(_, _, _, _) => if TextOffset(r) > 0 then NodeTokens(NodeBefore(r)) else []
    case In(_, _, _, inner) => [Open(inner.node.markup)] + Left(inner)
  }

  /** The tokens after it. */
  ghost function Right(r: Pos): seq<Token>
    requires PosOk(r)
  {
    match r
    case At(_, _, _, _) =>
      if TextOffset(r) > 0 then NodeTokens(NodeAfter(r)) + Tokens(r.node.content[r.index + 1..])
      else Tokens(r.node.content[r.index..])
    case In(_, _, _, inner) => Right(inner) + [Close] + Tokens(r.node.content[r.index + 1..])
  }

  lemma {:induction false} SidesMeetAt(r: Pos)
    requires PosOk(r) && r.At?
    ensures Left(r) + Right(r) == Tokens(r.node.content)
    ensures |Left(r)| == Offset(r)
  {
    var f := r.node.content;
    TokensSize(f[..r.index]);
    if TextOffset(r) > 0 {
      TokensAround(f, r.index);
      var pre, post := Tokens(f[..r.index]), Tokens(f[r.index + 1..]);
      var l, u := NodeTokens(NodeBefore(r)), NodeTokens(NodeAfter(r));
      CharsSplit(f[r.index].markup, f[r.index].text, TextOffset(r));
      assert NodeTokens(f[r.index]) == l + u;
      Assoc(pre, l, u + post);
      Assoc(l, u, post);
      Assoc(pre, l + u, post);
    } else {
      TokensSplit(f, r.index);
      assert Tokens(f[..r.index]) + [] == Tokens(f[..r.index]);
    }
  }

  lemma {:induction false} SidesMeetIn(r: Pos)
    requires PosOk(r) && r.In?
    requires Left(r.inner) + Right(r.inner) == Tokens(r.inner.node.content) && |Left(r.inner)| == Offset(r.inner)
    ensures Left(r) + Right(r) == Tokens(r.node.content)
    ensures |Left(r)| == Offset(r)
  {
    var f := r.node.content;
    var inner := r.inner;
    TokensSize(f[..r.index]);
    TokensAround(f, r.index);
    assert NodeTokens(f[r.index]) == [Open(inner.node.markup)] + (Left(inner) + Right(inner)) + [Close];
    SplitInside(Tokens(f[..r.index]), [Open(inner.node.markup)], Left(inner), Right(inner), [Close],
      Tokens(f[r.index + 1..]));
  }

  lemma {:induction false} SidesMeet(r: Pos)
    requires PosOk(r)
    ensures Left(r) + Right(r) == Tokens(r.node.content)
    ensures |Left(r)| == Offset(r)
    decreases r
  {
    if r.At? {
      SidesMeetAt(r);
    } else {
      SidesMeet(r.inner);
      SidesMeetIn(r);
    }
  }

  lemma {:induction false} SidesAre(r: Pos)
    requires PosOk(r)
    ensures Offset(r) <= |Tokens(r.node.content)|
    ensures Left(r) == Tokens(r.node.content)[..Offset(r)]
    ensures Right(r) == Tokens(r.node.content)[Offset(r)..]
  {
    SidesMeet(r);
  }

  // ----- adding nodes -----

  lemma {:induction false} AddNodeTokens(child: Node, target: Fragment)
    ensures Tokens(AddNode(child, target)) == Tokens(target) + NodeTokens(child)
  {
    var last := |target| - 1;
    if last >= 0 && child.Text? && target[last].Text? && child.markup == target[last].markup {
      var joined := Text(child.markup, target[last].text + child.text);
      assert target == target[..last] + [target[last]];
      assert target[last := joined] == target[..last] + [joined];
      TokensAppend(target[..last], [target[last]]);
      TokensAppend(target[..last], [joined]);
      TokensOne(target[last]);
      TokensOne(joined);
      CharsJoin(child.markup, target[last].text, child.text);
    } else {
      TokensAppend(target, [child]);
      TokensOne(child);
    }
  }

  lemma {:induction false} AddAllTokens(children: seq<Node>, target: Fragment)
    ensures Tokens(AddAll(children, target)) == Tokens(target) + Tokens(children)
    decreases |children|
  {
    if children != [] {
      AddNodeTokens(children[0], target);
      AddAllTokens(children[1..], AddNode(children[0], target));
      assert Tokens(target) + NodeTokens(children[0]) + Tokens(children[1..]) ==
             Tokens(target) + (NodeTokens(children[0]) + Tokens(children[1..]));
    }
  }

  /** Up to `a`, when it is in a child: all of this level that is before that child. */
  lemma {:induction false} AddBeforeChild(a: Pos)
    requires PosOk(a) && a.In?
    ensures Tokens(AddRange(None, Some(a), [])) + [Open(a.inner.node.markup)] + Left(a.inner) == Left(a)
  {
    var pre := a.node.content[..a.index];
    assert a.node.content[0..a.index] == pre;
    AddAllTokens(pre, []);
    assert [] + Tokens(pre) == Tokens(pre);
    Assoc(Tokens(pre), [Open(a.inner.node.markup)], Left(a.inner));
  }

  /** Up to `a`, when it is in no child. */
  lemma {:induction false} AddBefore(a: Pos)
    requires PosOk(a) && a.At?
    ensures Tokens(AddRange(None, Some(a), [])) == Left(a)
  {
    var pre := a.node.content[..a.index];
    assert a.node.content[0..a.index] == pre;
    AddAllTokens(pre, []);
    assert [] + Tokens(pre) == Tokens(pre);
    if TextOffset(a) > 0 {
      AddNodeTokens(NodeBefore(a), AddAll(pre, []));
    } else {
      assert Tokens(pre) + [] == Tokens(pre);
    }
  }

  /** From `b` on, when it is in a child: all of this level that is after that child. */
  lemma {:induction false} AddAfterChild(b: Pos, target: Fragment)
    requires PosOk(b) && b.In?
    ensures Tokens(AddRange(Some(b), None, target)) == Tokens(target) + Tokens(b.node.content[b.index + 1..])
  {
    var rest := b.node.content[b.index + 1..];
    assert b.node.content[b.index + 1..|b.node.content|] == rest;
    AddAllTokens(rest, target);
  }

  /** From `b` on, when it is in no child. */
  lemma {:induction false} AddAfter(b: Pos, target: Fragment)
    requires PosOk(b) && b.At?
    ensures Tokens(AddRange(Some(b), None, target)) == Tokens(target) + Right(b)
  {
    var f := b.node.content;
    if TextOffset(b) > 0 {
      var rest := f[b.index + 1..];
      assert f[b.index + 1..|f|] == rest;
      AddNodeTokens(NodeAfter(b), target);
      AddAllTokens(rest, AddNode(NodeAfter(b), target));
      Assoc(Tokens(target), NodeTokens(NodeAfter(b)), Tokens(rest));
    } else {
      assert f[b.index..|f|] == f[b.index..];
      AddAllTokens(f[b.index..], target);
    }
  }

  // ----- joining -----

  /** A joined child goes on where the left side stopped. */
  lemma {:induction false} ClosedTokens(a: Pos, b: Pos, left: Fragment, closed: Node, mid: seq<Token>)
    requires PosOk(a) && PosOk(b) && a.In? && b.In?
    requires Tokens(left) + [Open(a.inner.node.markup)] + Left(a.inner) == Left(a)
    requires closed.Elem? && closed.markup == a.inner.node.markup
    requires Tokens(closed.content) == Left(a.inner) + mid + Right(b.inner)
    ensures Tokens(AddNode(closed, left)) == Left(a) + mid + Right(b.inner) + [Close]
    ensures Tokens(AddNode(closed, left)) + Tokens(b.node.content[b.index + 1..]) == Left(a) + mid + Right(b)
  {
    AddNodeTokens(closed, left);
    WrapInside(Tokens(left), [Open(a.inner.node.markup)], Left(a.inner), mid, Right(b.inner), [Close]);
    Tail4(Left(a), mid, Right(b.inner), [Close], Tokens(b.node.content[b.index + 1..]));
  }

  /** One level of a join, around what was joined inside. */
  lemma {:induction false} RejoinedTokens(a: Pos, b: Pos, content: Fragment, mid: seq<Token>)
    requires PosOk(a) && PosOk(b) && a.In? && b.In?
    requires Tokens(content) == Left(a.inner) + mid + Right(b.inner)
    ensures Tokens(Rejoined(a, b, content)) == Left(a) + mid + Right(b)
  {
    var left := AddRange(None, Some(a), []);
    var closed := Elem(a.inner.node.markup, content);
    AddBeforeChild(a);
    ClosedTokens(a, b, left, closed, mid);
    AddAfterChild(b, AddNode(closed, left));
  }

  lemma {:induction false} NoMiddle<T>(a: seq<T>, b: seq<T>)
    ensures a + [] + b == a + b
  {
    assert a + [] == a;
  }

  /** Joining at two positions: what is before the one, and what is after the other. */
  lemma {:induction false} TwoWayTokens(rules: Rules, a: Pos, b: Pos)
    requires PosOk(a) && PosOk(b) && Depth(a) == Depth(b)
    ensures var r := TwoWay(rules, a, b); r.Done? ==> Tokens(r.value) == Left(a) + Right(b)
    decreases a
  {
    if a.At? {
      AddBefore(a);
      AddAfter(b, AddRange(None, Some(a), []));
    } else {
      TwoWayIn(rules, a, b);
      var inner := TwoWay(rules, a.inner, b.inner);
      if inner.Done? {
        TwoWayTokens(rules, a.inner, b.inner);
        NoMiddle(Left(a.inner), Right(b.inner));
        RejoinedTokens(a, b, inner.value, []);
        NoMiddle(Left(a), Right(b));
      }
    }
  }
}
