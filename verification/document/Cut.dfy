/** Cutting fragments (`cut`), taking slices out of a document (`slice`), and flat appending. */
module CutContent {
  import opened Basics
  import opened Document

  /** The content between two positions; elements a position is inside of are kept, cut open. */
  function Cut(f: Fragment, from: int, end: int): Fragment
    decreases f, 1
  {
    if from == 0 && end == Size(f) then f else if end > from then CutFrom(f, from, end) else []
  }

  /** The loop over the children, with positions counted from the child at hand. */
  function CutFrom(f: Fragment, from: int, end: int): Fragment
    decreases f, 0
  {
    if f == [] || end <= 0 then [] else
      var size := NodeSize(f[0]);
      var kept := if size <= from then [] else if from > 0 || size > end then [CutNode(f[0], from, end)] else [f[0]];
      kept + CutFrom(f[1..], from - size, end - size)
  }

  function CutNode(n: Node, from: int, end: int): Node
    decreases n, 0
  {
    match n
    case Text(markup, text) =>
      var a, b := Max(0, from), Min(|text|, end);
      Text(markup, if a <= b <= |text| then text[a..b] else "")
    case Leaf(_) => n
    case Elem(markup, content) => Elem(markup, Cut(content, Max(0, from - 1), Min(Size(content), end - 1)))
  }

  /** Fragment concatenation that runs a text on. */
  function Append(a: Fragment, b: Fragment): Fragment {
    if b == [] then a else if a == [] then b else
      var last := a[|a| - 1];
      if last.Text? && b[0].Text? && last.markup == b[0].markup
      then a[..|a| - 1] + [Text(last.markup, last.text + b[0].text)] + b[1..]
      else a + b
  }

  lemma {:induction false} AppendTokens(a: Fragment, b: Fragment)
    ensures Tokens(Append(a, b)) == Tokens(a) + Tokens(b)
  {
    if a != [] && b != [] {
      var last := a[|a| - 1];
      if last.Text? && b[0].Text? && last.markup == b[0].markup {
        var init := a[..|a| - 1];
        var joined := Text(last.markup, last.text + b[0].text);
        assert a == init + [last];
        assert Append(a, b) == init + ([joined] + b[1..]);
        TokensAppend(init, [last]);
        TokensAppend(init, [joined] + b[1..]);
        TokensAppend([joined], b[1..]);
        TokensOne(last);
        TokensOne(joined);
        CharsJoin(last.markup, last.text, b[0].text);
        Assoc(NodeTokens(last), NodeTokens(b[0]), Tokens(b[1..]));
        Assoc(Tokens(init), NodeTokens(last), Tokens(b));
      } else {
        TokensAppend(a, b);
      }
    }
  }

  // ----- the elements a position is inside of -----

  ghost function OpensIn(f: Fragment, p: int): seq<Token>
  {
    if f == [] || p <= 0 then []
    else if p >= NodeSize(f[0]) then OpensIn(f[1..], p - NodeSize(f[0]))
    else if f[0].Elem? then [Open(f[0].markup)] + OpensIn(f[0].content, p - 1) else []
  }

  ghost function Closes(n: nat): (t: seq<Token>)
    ensures |t| == n
  {
    seq(n, _ => Close)
  }

  lemma {:induction false} ClosesMore(n: nat)
    ensures Closes(n + 1) == Closes(n) + [Close]
  {
  }

  /** The tokens between two positions, with what they are inside of opened before and closed behind. */
  ghost function Enclosed(f: Fragment, from: int, end: int): seq<Token>
    requires 0 <= from <= end <= Size(f)
  {
    TokensSize(f);
    OpensIn(f, from) + Tokens(f)[from..end] + Closes(|OpensIn(f, end)|)
  }

  /** Past the first child, a position is inside of what it is inside of in the rest. */
  lemma {:induction false} OpensPast(f: Fragment, p: int)
    requires f != [] && NodeSize(f[0]) <= p
    ensures OpensIn(f, p) == OpensIn(f[1..], p - NodeSize(f[0]))
  {
  }

  lemma {:induction false} EnclosedTail(f: Fragment, from: int, end: int)
    requires f != [] && NodeSize(f[0]) <= from <= end <= Size(f)
    ensures var z := NodeSize(f[0]);
      0 <= from - z && Enclosed(f, from, end) == Enclosed(f[1..], from - z, end - z)
  {
    TokensFirst(f);
    StretchOfSum(NodeTokens(f[0]), Tokens(f[1..]), from, end);
    OpensPast(f, from);
    OpensPast(f, end);
  }

  lemma {:induction false} EnclosedNone(f: Fragment)
    ensures Enclosed(f, 0, 0) == []
  {
    TokensSize(f);
  }

  /** From the start of a child on, past its end. */
  lemma {:induction false} EnclosedWhole(f: Fragment, end: int)
    requires f != [] && NodeSize(f[0]) <= end <= Size(f)
    ensures Enclosed(f, 0, end) == NodeTokens(f[0]) + Enclosed(f[1..], 0, end - NodeSize(f[0]))
  {
    var n, rest := NodeTokens(f[0]), Tokens(f[1..]);
    TokensFirst(f);
    StretchOfSum(n, rest, 0, end);
    OpensPast(f, end);
    assert n[0..|n|] == n;
    FrontWhole(n, rest[0..end - |n|], Closes(|OpensIn(f, end)|));
  }

  lemma {:induction false} FrontWhole<T>(a: seq<T>, b: seq<T>, c: seq<T>)
    ensures [] + (a + b) + c == a + ([] + b + c)
  {
    Assoc(a, b, c);
    assert [] + (a + b) == a + b && [] + b == b;
  }

  lemma {:induction false} CutTokens(f: Fragment, from: int, end: int)
    requires FragmentOk(f) && 0 <= from < end <= Size(f)
    ensures Tokens(Cut(f, from, end)) == Enclosed(f, from, end)
    decreases f, 1
  {
    if from == 0 && end == Size(f) {
      TokensSize(f);
      OpensAtEnd(f);
    } else {
      CutFromTokens(f, from, end);
    }
  }

  lemma {:induction false} OpensAtEnd(f: Fragment)
    ensures OpensIn(f, Size(f)) == [] && OpensIn(f, 0) == []
  {
    if f != [] {
      OpensAtEnd(f[1..]);
    }
  }

  lemma {:induction false} CutFromTokens(f: Fragment, from: int, end: int)
    requires FragmentOk(f) && from < end <= Size(f)
    ensures end <= 0 ==> CutFrom(f, from, end) == []
    ensures end > 0 ==> Tokens(CutFrom(f, from, end)) == Enclosed(f, Max(0, from), end)
    decreases f, 0
  {
    if f != [] && end > 0 {
      var z := NodeSize(f[0]);
      var rest := f[1..];
      CutFromTokens(rest, from - z, end - z);
      if z <= from {
        EnclosedTail(f, from, end);
        EnclosedNone(rest);
        assert [] + CutFrom(rest, from - z, end - z) == CutFrom(rest, from - z, end - z);
      } else if from <= 0 && z <= end {
        TokensAppend([f[0]], CutFrom(rest, from - z, end - z));
        TokensOne(f[0]);
        EnclosedWhole(f, end);
        EnclosedNone(rest);
      } else {
        CutOpen(f, from, end);
      }
    }
  }

  /** The first child is cut: on the left, on the right, or both. */
  lemma {:induction false} CutOpen(f: Fragment, from: int, end: int)
    requires FragmentOk(f) && f != [] && from < end <= Size(f) && 0 < end
    requires from < NodeSize(f[0]) && (from > 0 || NodeSize(f[0]) > end)
    requires var z := NodeSize(f[0]);
      end > z ==> Tokens(CutFrom(f[1..], from - z, end - z)) == Enclosed(f[1..], 0, end - z)
    ensures Tokens(CutFrom(f, from, end)) == Enclosed(f, Max(0, from), end)
    decreases f, 0, 0
  {
    var z := NodeSize(f[0]);
    var c := CutNode(f[0], from, end);
    var rest := CutFrom(f[1..], from - z, end - z);
    CutNodeTokens(f[0], from, end);
    assert NodeOk(f[0]);
    TokensAppend([c], rest);
    TokensOne(c);
    CutFirstEnclosed(f, Max(0, from), end);
    if end <= z {
      assert rest == [];
    }
  }

  /** The tokens of a cut child: opened and closed if the cut is inside it. */
  ghost function CutChild(n: Node, from: int, end: int): seq<Token>
    requires 0 <= from < NodeSize(n) && from < end
  {
    NodeTokensSize(n);
    var upTo := Min(end, NodeSize(n));
    (if n.Elem? && from > 0 then [Open(n.markup)] + OpensIn(n.content, from - 1) else [])
    + NodeTokens(n)[from..upTo]
    + (if n.Elem? && upTo < NodeSize(n) then Closes(|OpensIn(n.content, upTo - 1)| + 1) else [])
  }

  lemma {:induction false} CutFirstEnclosed(f: Fragment, from: int, end: int)
    requires f != [] && 0 <= from < end <= Size(f) && from < NodeSize(f[0])
    ensures var z := NodeSize(f[0]);
      Enclosed(f, from, end) == CutChild(f[0], from, end) + (if end > z then Enclosed(f[1..], 0, end - z) else [])
  {
    var z := NodeSize(f[0]);
    var n, rest := NodeTokens(f[0]), Tokens(f[1..]);
    TokensFirst(f);
    StretchOfSum(n, rest, from, end);
    if z <= end {
      OpensPast(f, end);
      assert OpensIn(f[1..], 0) == [];
      FrontMiddle(OpensIn(f, from), n[from..z], rest[0..end - z], Closes(|OpensIn(f, end)|));
    }
  }

  lemma {:induction false} FrontMiddle<T>(a: seq<T>, b: seq<T>, c: seq<T>, d: seq<T>)
    ensures a + (b + c) + d == (a + b + []) + ([] + c + d)
  {
    Assoc(a, b, c);
    Assoc(a + b, c, d);
    assert a + b + [] == a + b && [] + c == c;
  }

  lemma {:induction false} CutNodeTokens(n: Node, from: int, end: int)
    requires NodeOk(n) && from < end && 0 < end && from < NodeSize(n) && (from > 0 || NodeSize(n) > end)
    ensures NodeTokens(CutNode(n, from, end)) == CutChild(n, Max(0, from), end)
    decreases n, 0
  {
    NodeTokensSize(n);
    match n
    case Text(markup, text) =>
      var a, b := Max(0, from), Min(|text|, end);
      assert NodeTokens(n)[a..b] == Chars(markup, text[a..b]);
    case Leaf(_) =>
    case Elem(markup, content) => CutElemTokens(n, from, end);
  }

  lemma {:induction false} CutElemTokens(n: Node, from: int, end: int)
    requires NodeOk(n) && n.Elem? && from < end && 0 < end && from < NodeSize(n) && (from > 0 || NodeSize(n) > end)
    ensures NodeTokens(CutNode(n, from, end)) == CutChild(n, Max(0, from), end)
    decreases n, 0, 0
  {
    var content := n.content;
    TokensSize(content);
    NodeTokensSize(n);
    var a, b := Max(0, from - 1), Min(Size(content), end - 1);
    assert from - 1 <= Size(content);
    if a < b {
      CutTokens(content, a, b);
    } else {
      assert a == b;
      EmptyCut(content, a);
    }
    var inside := Tokens(Cut(content, a, b));
    if from <= 0 {
      OpenedChild(n, end, inside);
    } else if end >= NodeSize(n) {
      ClosedChild(n, from, end, inside);
    } else {
      InnerChild(n, from, end, inside);
    }
  }

  lemma {:induction false} EmptyCut(content: Fragment, a: int)
    requires 0 <= a <= Size(content)
    ensures Tokens(Cut(content, a, a)) == []
  {
    TokensSize(content);
  }

  lemma {:induction false} ElemTokens(n: Node)
    requires n.Elem?
    ensures NodeTokens(n) == [Open(n.markup)] + Tokens(n.content) + [Close]
    ensures |Tokens(n.content)| == Size(n.content) && NodeSize(n) == Size(n.content) + 2
  {
    TokensSize(n.content);
  }

  /** A stretch of an element's tokens, by which of its own two tokens it has. */
  lemma {:induction false} StretchInside<T>(o: T, all: seq<T>, c: T, from: nat, end: nat)
    requires from <= end <= |all| + 2
    ensures from == 0 < end <= |all| + 1 ==> ([o] + all + [c])[from..end] == [o] + all[0..end - 1]
    ensures 0 < from && end <= |all| + 1 ==> ([o] + all + [c])[from..end] == all[from - 1..end - 1]
    ensures 0 < from && end == |all| + 2 > from ==> ([o] + all + [c])[from..end] == all[from - 1..|all|] + [c]
  {
    StretchOfSum([o] + all, [c], from, end);
    if from <= |all| + 1 {
      StretchOfSum([o], all, from, if end <= |all| + 1 then end else |all| + 1);
    }
    assert [c][0..1] == [c] && [o][0..1] == [o];
  }

  /** Cut on the right only. */
  lemma {:induction false} OpenedChild(n: Node, end: int, inside: seq<Token>)
    requires n.Elem? && 0 < end < NodeSize(n)
    requires inside == if end > 1 then Enclosed(n.content, 0, end - 1) else []
    ensures CutChild(n, 0, end) == [Open(n.markup)] + inside + [Close]
  {
    var o, all := [Open(n.markup)], Tokens(n.content);
    ElemTokens(n);
    StretchInside(Open(n.markup), all, Close, 0, end);
    OpensAtEnd(n.content);
    var k := |OpensIn(n.content, end - 1)|;
    ClosesMore(k);
    CloseAgain(o, [], all[0..end - 1], Closes(k), [Close]);
    if end == 1 { assert all[0..0] + Closes(0) == []; }
    assert CutChild(n, 0, end) == [] + (o + all[0..end - 1]) + Closes(k + 1);
    assert inside == [] + all[0..end - 1] + Closes(k);
    assert o + [] == o && [] + (o + all[0..end - 1]) == o + all[0..end - 1];
  }

  lemma {:induction false} CloseAgain<T>(o: seq<T>, opens: seq<T>, tokens: seq<T>, closes: seq<T>, c: seq<T>)
    ensures (o + opens) + tokens + (closes + c) == o + (opens + tokens + closes) + c
  {
    Assoc(o, opens, tokens);
    Assoc(o + (opens + tokens), closes, c);
    Assoc(o, opens + tokens, closes);
  }

  /** Cut on the left only. */
  lemma {:induction false} ClosedChild(n: Node, from: int, end: int, inside: seq<Token>)
    requires n.Elem? && 0 < from < NodeSize(n) <= end
    requires inside == if from - 1 < Size(n.content) then Enclosed(n.content, from - 1, Size(n.content)) else []
    ensures CutChild(n, from, end) == [Open(n.markup)] + inside + [Close]
  {
    ElemTokens(n);
    StretchInside(Open(n.markup), Tokens(n.content), Close, from, NodeSize(n));
    OpensAtEnd(n.content);
    var opens, tokens := OpensIn(n.content, from - 1), Tokens(n.content)[from - 1..Size(n.content)];
    ReopenTail([Open(n.markup)], opens, tokens, [Close]);
    assert inside == opens + tokens + [] by {
      if from - 1 < Size(n.content) {
        assert Closes(0) == [];
      }
    }
  }

  lemma {:induction false} ReopenTail<T>(o: seq<T>, opens: seq<T>, tokens: seq<T>, c: seq<T>)
    ensures (o + opens) + (tokens + c) + [] == o + (opens + tokens + []) + c
  {
    Assoc(o, opens, tokens + c);
    Assoc(opens, tokens, c);
    Assoc(o, opens + tokens, c);
    assert (o + opens) + (tokens + c) + [] == (o + opens) + (tokens + c);
    assert opens + tokens + [] == opens + tokens;
  }

  /** Cut on both sides. */
  lemma {:induction false} InnerChild(n: Node, from: int, end: int, inside: seq<Token>)
    requires n.Elem? && 0 < from < end < NodeSize(n)
    requires inside == Enclosed(n.content, from - 1, end - 1)
    ensures CutChild(n, from, end) == [Open(n.markup)] + inside + [Close]
  {
    var o, all := [Open(n.markup)], Tokens(n.content);
    ElemTokens(n);
    StretchInside(Open(n.markup), all, Close, from, end);
    var opens, k := OpensIn(n.content, from - 1), |OpensIn(n.content, end - 1)|;
    ClosesMore(k);
    CloseAgain(o, opens, all[from - 1..end - 1], Closes(k), [Close]);
  }
}
