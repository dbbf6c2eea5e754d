/** The elements that a position lies inside of, and what building content does to them. */
module Seams {
  import opened Options
  import opened Document
  import opened Resolved
  import opened Replace
  import opened JoinTokens
  import opened CutContent

  /** Every element that `p` lies inside of has content that its type allows, the outermost `skip` excepted. */
  predicate AroundValid(rules: Rules, f: Fragment, p: nat, skip: nat)
    decreases f
  {
    if f == [] then true
    else if p >= NodeSize(f[0]) then AroundValid(rules, f[1..], p - NodeSize(f[0]), skip)
    else if p == 0 || !f[0].Elem? then true
    else
      && (skip == 0 ==> rules.valid(f[0].markup.nodeType, Markups(f[0].content)))
      && AroundValid(rules, f[0].content, p - 1, if skip == 0 then skip else skip - 1)
  }

  /** All elements around `p` in `f`. */
  predicate SeamValid(rules: Rules, f: Fragment, p: nat) {
    AroundValid(rules, f, p, 0)
  }

  // ----- fragments put together -----

  lemma {:induction false} AroundStart(rules: Rules, f: Fragment, p: nat, skip: nat)
    requires p == 0
    ensures AroundValid(rules, f, p, skip)
    decreases |f|
  {
    if f != [] && NodeSize(f[0]) == 0 {
      AroundStart(rules, f[1..], p, skip);
    }
  }

  lemma {:induction false} AroundBehind(rules: Rules, f: Fragment, g: Fragment, p: nat, skip: nat)
    ensures AroundValid(rules, f + g, Size(f) + p, skip) <==> AroundValid(rules, g, p, skip)
    decreases |f|
  {
    if f == [] {
      assert f + g == g;
    } else {
      assert (f + g)[1..] == f[1..] + g;
      AroundBehind(rules, f[1..], g, p, skip);
    }
  }

  lemma {:induction false} AroundBefore(rules: Rules, f: Fragment, g: Fragment, p: nat, skip: nat)
    requires p <= Size(f)
    ensures AroundValid(rules, f + g, p, skip) <==> AroundValid(rules, f, p, skip)
    decreases |f|
  {
    if f == [] {
      assert f + g == g;
      AroundStart(rules, g, p, skip);
    } else {
      assert (f + g)[1..] == f[1..] + g;
      if p >= NodeSize(f[0]) {
        AroundBefore(rules, f[1..], g, p - NodeSize(f[0]), skip);
      }
    }
  }

  lemma {:induction false} AroundEnd(rules: Rules, f: Fragment, p: nat, skip: nat)
    requires p == Size(f)
    ensures AroundValid(rules, f, p, skip)
  {
    var none: Fragment := [];
    assert f + none == f;
    AroundBehind(rules, f, none, 0, skip);
    AroundStart(rules, none, 0, skip);
  }

  lemma {:induction false} AroundElem(rules: Rules, n: Node, p: nat, skip: nat)
    requires n.Elem? && p <= Size(n.content)
    ensures AroundValid(rules, [n], p + 1, skip) <==>
            && (skip == 0 ==> rules.valid(n.markup.nodeType, Markups(n.content)))
            && AroundValid(rules, n.content, p, if skip == 0 then skip else skip - 1)
  {
  }

  lemma {:induction false} AroundText(rules: Rules, n: Node, p: nat, skip: nat)
    requires n.Text?
    ensures AroundValid(rules, [n], p, skip)
  {
    assert [n][1..] == [];
  }

  /** One text for another at the end changes nothing. */
  lemma {:induction false} AroundLastText(rules: Rules, init: Fragment, n: Node, m: Node, p: nat, skip: nat)
    requires n.Text? && m.Text?
    ensures AroundValid(rules, init + [n], p, skip) <==> AroundValid(rules, init + [m], p, skip)
  {
    if p <= Size(init) {
      AroundBefore(rules, init, [n], p, skip);
      AroundBefore(rules, init, [m], p, skip);
    } else {
      AroundBehind(rules, init, [n], p - Size(init), skip);
      AroundBehind(rules, init, [m], p - Size(init), skip);
      AroundText(rules, n, p - Size(init), skip);
      AroundText(rules, m, p - Size(init), skip);
    }
  }

  // ----- content that is added to -----

  lemma {:induction false} AddNodeAround(rules: Rules, child: Node, target: Fragment, p: nat, skip: nat)
    requires p <= Size(target)
    ensures Size(target) <= Size(AddNode(child, target))
    ensures AroundValid(rules, AddNode(child, target), p, skip) <==> AroundValid(rules, target, p, skip)
  {
    AddNodeTokens(child, target);
    TokensSize(target);
    TokensSize(AddNode(child, target));
    var last := |target| - 1;
    if last >= 0 && child.Text? && target[last].Text? && child.markup == target[last].markup {
      var joined := Text(child.markup, target[last].text + child.text);
      assert target == target[..last] + [target[last]];
      assert target[last := joined] == target[..last] + [joined];
      AroundLastText(rules, target[..last], target[last], joined, p, skip);
    } else {
      AroundBefore(rules, target, [child], p, skip);
    }
  }

  lemma {:induction false} AddAllAround(rules: Rules, children: seq<Node>, target: Fragment, p: nat, skip: nat)
    requires p <= Size(target)
    ensures Size(target) <= Size(AddAll(children, target))
    ensures AroundValid(rules, AddAll(children, target), p, skip) <==> AroundValid(rules, target, p, skip)
    decreases |children|
  {
    if children != [] {
      AddNodeAround(rules, children[0], target, p, skip);
      AddAllAround(rules, children[1..], AddNode(children[0], target), p, skip);
    }
  }

  lemma {:induction false} AddRangeAround(rules: Rules, start: Option<Pos>, end: Option<Pos>, target: Fragment, p: nat,
          skip: nat)
    requires start.Some? || end.Some?
    requires start.Some? ==> PosOk(start.value)
    requires end.Some? ==> PosOk(end.value)
    requires p <= Size(target)
    ensures Size(target) <= Size(AddRange(start, end, target))
    ensures AroundValid(rules, AddRange(start, end, target), p, skip) <==> AroundValid(rules, target, p, skip)
  {
    var content := if end.Some? then end.value.node.content else start.value.node.content;
    var split := start.Some? && start.value.At? && TextOffset(start.value) > 0;
    var first := if start.None? then 0 else if start.value.In? || split then start.value.index + 1
      else start.value.index;
    var last := if end.Some? then end.value.index else |content|;
    if split {
      AddNodeAround(rules, NodeAfter(start.value), target, p, skip);
    }
    var target1 := if split then AddNode(NodeAfter(start.value), target) else target;
    if first <= last {
      AddAllAround(rules, content[first..last], target1, p, skip);
    }
    var target2 := if first <= last then AddAll(content[first..last], target1) else target1;
    if end.Some? && end.value.At? && TextOffset(end.value) > 0 {
      AddNodeAround(rules, NodeBefore(end.value), target2, p, skip);
    }
  }

  lemma {:induction false} AppendAround(rules: Rules, f: Fragment, g: Fragment, p: nat, skip: nat)
    requires p <= Size(f)
    ensures Size(f) <= Size(Append(f, g))
    ensures AroundValid(rules, Append(f, g), p, skip) <==> AroundValid(rules, f, p, skip)
  {
    AppendTokens(f, g);
    TokensSize(f);
    TokensSize(Append(f, g));
    if g == [] {
    } else if f == [] {
      AroundStart(rules, g, p, skip);
    } else {
      var last := f[|f| - 1];
      if last.Text? && g[0].Text? && last.markup == g[0].markup {
        var init, joined := f[..|f| - 1], Text(last.markup, last.text + g[0].text);
        assert f == init + [last];
        TokensAppend(init, [last]);
        TokensAppend(init, [joined]);
        TokensOne(last);
        TokensOne(joined);
        AroundBefore(rules, init + [joined], g[1..], p, skip);
        AroundLastText(rules, init, last, joined, p, skip);
      } else {
        AroundBefore(rules, f, g, p, skip);
      }
    }
  }

  /** The elements around a position in the last element: that one, and those inside of it. */
  lemma {:induction false} SeamInLast(rules: Rules, closed: Node, target: Fragment, p: nat, at: nat)
    requires closed.Elem? && p <= Size(closed.content) && at == Size(target) + 1 + p
    ensures AddNode(closed, target) == target + [closed]
    ensures Size(AddNode(closed, target)) >= at
    ensures SeamValid(rules, AddNode(closed, target), at) <==>
            rules.valid(closed.markup.nodeType, Markups(closed.content)) && SeamValid(rules, closed.content, p)
  {
    TokensAppend(target, [closed]);
    TokensOne(closed);
    AroundBehind(rules, target, [closed], 1 + p, 0);
    AroundElem(rules, closed, p, 0);
  }

  /** One level of a join: the joined child, and what is around the position in it. */
  lemma {:induction false} SeamInRejoined(rules: Rules, a: Pos, b: Pos, content: Fragment, p: nat, at: nat)
    requires PosOk(a) && PosOk(b) && a.In? && p <= Size(content) && at == a.offset + 1 + p
    ensures SeamValid(rules, Rejoined(a, b, content), at) <==>
            rules.valid(a.inner.node.markup.nodeType, Markups(content)) && SeamValid(rules, content, p)
  {
    var left, closed := AddRange(None, Some(a), []), Elem(a.inner.node.markup, content);
    LeftSize(a);
    SeamInLast(rules, closed, left, p, at);
    AddRangeAround(rules, Some(b), None, AddNode(closed, left), at, 0);
  }

  /** Up to `a` there is as much as its offset says. */
  lemma {:induction false} LeftSize(a: Pos)
    requires PosOk(a)
    ensures Size(AddRange(None, Some(a), [])) == if a.In? then a.offset else Offset(a)
  {
    TokensSize(AddRange(None, Some(a), []));
    SidesMeet(a);
    if a.In? {
      AddBeforeChild(a);
      SidesMeet(a.inner);
    } else {
      AddBefore(a);
    }
  }

  // ----- a child in its place -----

  lemma {:induction false} AroundAtChild(rules: Rules, f: Fragment, i: nat, p: nat, skip: nat)
    requires i < |f| && f[i].Elem? && p <= Size(f[i].content)
    ensures AroundValid(rules, f, Size(f[..i]) + 1 + p, skip) <==> AroundValid(rules, [f[i]], p + 1, skip)
  {
    assert f == f[..i] + ([f[i]] + f[i + 1..]);
    AroundBehind(rules, f[..i], [f[i]] + f[i + 1..], p + 1, skip);
    TokensOne(f[i]);
    AroundBefore(rules, [f[i]], f[i + 1..], p + 1, skip);
  }

  // ----- around a resolved position -----

  /** The element around the position that is `d` levels down has content that its type allows. */
  predicate LevelValid(rules: Rules, r: Pos, d: nat)
    requires d <= Depth(r)
  {
    var node := LevelAt(r, d).node;
    node.Elem? && rules.valid(node.markup.nodeType, Markups(node.content))
  }

  /** The elements that a position lies inside of are the levels of the resolved position. */
  lemma {:induction false} AroundIs(rules: Rules, r: Pos, skip: nat)
    requires PosOk(r) && NodeOk(r.node)
    ensures AroundValid(rules, r.node.content, Offset(r), skip) <==>
            forall d | skip < d <= Depth(r) :: LevelValid(rules, r, d)
    decreases r
  {
    match r
    case At(_, _, _, _) => NoneAround(rules, r, skip);
    case In(_, _, _, inner) =>
      assert NodeOk(r.node.content[r.index]);
      var skip' := if skip == 0 then skip else skip - 1;
      AroundIs(rules, inner, skip');
      AroundInner(rules, r, skip, skip');
      LevelsInside(rules, r, skip, skip');
  }

  lemma {:induction false} NoneAround(rules: Rules, r: Pos, skip: nat)
    requires PosOk(r) && r.At?
    ensures AroundValid(rules, r.node.content, Offset(r), skip)
  {
    var f, i := r.node.content, r.index;
    assert f == f[..i] + f[i..];
    AroundBehind(rules, f[..i], f[i..], Offset(r) - Size(f[..i]), skip);
    if r.parentOffset == r.offset {
      AroundStart(rules, f[i..], 0, skip);
    }
  }

  lemma {:induction false} AroundInner(rules: Rules, r: Pos, skip: nat, skip': nat)
    requires PosOk(r) && r.In? && r.inner.node.Elem? && skip' == if skip == 0 then skip else skip - 1
    ensures AroundValid(rules, r.node.content, Offset(r), skip) <==>
      && (skip == 0 ==> rules.valid(r.inner.node.markup.nodeType, Markups(r.inner.node.content)))
      && AroundValid(rules, r.inner.node.content, Offset(r.inner), skip')
  {
    var f, i, q := r.node.content, r.index, Offset(r.inner);
    InnerFits(r.inner);
    BehindFirst(rules, f, i, 1 + q, Offset(r), skip);
    IntoFirst(rules, f[i..], q, skip, skip');
  }

  lemma {:induction false} InnerFits(r: Pos)
    requires PosOk(r)
    ensures Offset(r) <= Size(r.node.content)
  {
    SidesMeet(r);
    TokensSize(r.node.content);
  }

  lemma {:induction false} BehindFirst(rules: Rules, f: Fragment, i: nat, p: nat, at: nat, skip: nat)
    requires i <= |f| && at == Size(f[..i]) + p
    ensures AroundValid(rules, f, at, skip) <==> AroundValid(rules, f[i..], p, skip)
  {
    assert f == f[..i] + f[i..];
    AroundBehind(rules, f[..i], f[i..], p, skip);
  }

  lemma {:induction false} IntoFirst(rules: Rules, f: Fragment, q: nat, skip: nat, skip': nat)
    requires f != [] && f[0].Elem? && q <= Size(f[0].content) && skip' == if skip == 0 then skip else skip - 1
    ensures AroundValid(rules, f, 1 + q, skip) <==>
      && (skip == 0 ==> rules.valid(f[0].markup.nodeType, Markups(f[0].content)))
      && AroundValid(rules, f[0].content, q, skip')
  {
  }

  lemma {:induction false} LevelsInside(rules: Rules, r: Pos, skip: nat, skip': nat)
    requires r.In? && r.inner.node.Elem? && skip' == if skip == 0 then skip else skip - 1
    ensures (forall d | skip < d <= Depth(r) :: LevelValid(rules, r, d)) <==>
      && (skip == 0 ==> rules.valid(r.inner.node.markup.nodeType, Markups(r.inner.node.content)))
      && forall d | skip' < d <= Depth(r.inner) :: LevelValid(rules, r.inner, d)
  {
    assert forall d | 0 < d <= Depth(r) :: LevelValid(rules, r, d) <==> LevelValid(rules, r.inner, d - 1);
    assert LevelValid(rules, r.inner, 0) <==>
      rules.valid(r.inner.node.markup.nodeType, Markups(r.inner.node.content));
    if forall d | skip < d <= Depth(r) :: LevelValid(rules, r, d) {
      forall d | skip' < d <= Depth(r.inner)
        ensures LevelValid(rules, r.inner, d)
      {
        assert LevelValid(rules, r, d + 1);
      }
      if skip == 0 {
        assert LevelValid(rules, r, skip + 1);
      }
    }
  }
}
