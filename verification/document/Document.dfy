/** Documents (`Node`, `Fragment`), their sizes, and the token string a position counts along. */
module Document {
  import opened ContentExpr

  /** What has to agree for two nodes to have the same markup. */
  datatype Markup = Markup(nodeType: NodeType, attrs: map<string, string>, marks: seq<string>)

  datatype Node =
    | Text(markup: Markup, text: string)
    | Leaf(markup: Markup)
    | Elem(markup: Markup, content: seq<Node>)

  type Fragment = seq<Node>

  /** An element's start and end, a leaf, and every character of a text take one position each. */
  datatype Token = Open(markup: Markup) | Close | LeafToken(markup: Markup) | Char(markup: Markup, c: char)

  function NodeSize(n: Node): nat {
    match n
    case Text(_, text) => |text|
    case Leaf(_) => 1
    case Elem(_, content) => 2 + Size(content)
  }

  function Size(f: Fragment): nat {
    if f == [] then 0 else NodeSize(f[0]) + Size(f[1..])
  }

  ghost function Chars(markup: Markup, text: string): seq<Token> {
    seq(|text|, i requires 0 <= i < |text| => Char(markup, text[i]))
  }

  ghost function NodeTokens(n: Node): (t: seq<Token>)
  {
    match n
    case Text(markup, text) => Chars(markup, text)
    case Leaf(markup) => [LeafToken(markup)]
    case Elem(markup, content) => [Open(markup)] + Tokens(content) + [Close]
  }

  ghost function Tokens(f: Fragment): (t: seq<Token>)
  {
    if f == [] then [] else NodeTokens(f[0]) + Tokens(f[1..])
  }

  /** Text nodes are never empty; the constructor refuses that. */
  predicate NodeOk(n: Node) {
    match n
    case Text(_, text) => text != ""
    case Leaf(_) => true
    case Elem(_, content) => FragmentOk(content)
  }

  predicate FragmentOk(f: Fragment) {
    forall i | 0 <= i < |f| :: NodeOk(f[i])
  }

  lemma {:induction false} NodeTokensSize(n: Node)
    ensures |NodeTokens(n)| == NodeSize(n)
    decreases n, 0
  {
    if n.Elem? {
      TokensSize(n.content);
    }
  }

  lemma {:induction false} TokensSize(f: Fragment)
    ensures |Tokens(f)| == Size(f)
    decreases f
  {
    if f != [] {
      NodeTokensSize(f[0]);
      TokensSize(f[1..]);
    }
  }

  lemma {:induction false} TokensAppend(a: Fragment, b: Fragment)
    ensures Tokens(a + b) == Tokens(a) + Tokens(b)
    ensures Size(a + b) == Size(a) + Size(b)
  {
    if a == [] {
      assert a + b == b;
    } else {
      assert (a + b)[1..] == a[1..] + b;
      TokensAppend(a[1..], b);
    }
  }

  /** The tokens of the first child, and of the others. */
  lemma {:induction false} TokensFirst(f: Fragment)
    requires f != []
    ensures Tokens(f) == NodeTokens(f[0]) + Tokens(f[1..])
    ensures |NodeTokens(f[0])| == NodeSize(f[0]) && |Tokens(f[1..])| == Size(f[1..]) && |Tokens(f)| == Size(f)
  {
    NodeTokensSize(f[0]);
    TokensSize(f[1..]);
  }

  /** Where a stretch of two joined sequences comes from. */
  lemma {:induction false} StretchOfSum<T>(a: seq<T>, b: seq<T>, from: nat, end: nat)
    requires from <= end <= |a| + |b|
    ensures end <= |a| ==> (a + b)[from..end] == a[from..end]
    ensures |a| <= from ==> (a + b)[from..end] == b[from - |a|..end - |a|]
    ensures from <= |a| <= end ==> (a + b)[from..end] == a[from..|a|] + b[0..end - |a|]
  {
  }

  lemma {:induction false} TokensOne(n: Node)
    ensures Tokens([n]) == NodeTokens(n) && Size([n]) == NodeSize(n)
  {
    assert [n][1..] == [];
  }

  /** The tokens of a fragment around its child `i`. */
  lemma {:induction false} TokensAround(f: Fragment, i: nat)
    requires i < |f|
    ensures Tokens(f) == Tokens(f[..i]) + NodeTokens(f[i]) + Tokens(f[i + 1..])
    ensures Size(f) == Size(f[..i]) + NodeSize(f[i]) + Size(f[i + 1..])
  {
    TokensSplit(f, i);
    assert f[i..][1..] == f[i + 1..];
    assert Tokens(f[i..]) == NodeTokens(f[i]) + Tokens(f[i + 1..]);
    assert Tokens(f[..i]) + (NodeTokens(f[i]) + Tokens(f[i + 1..])) ==
      Tokens(f[..i]) + NodeTokens(f[i]) + Tokens(f[i + 1..]);
  }

  lemma {:induction false} TokensSplit(f: Fragment, i: nat)
    requires i <= |f|
    ensures Tokens(f) == Tokens(f[..i]) + Tokens(f[i..])
    ensures Size(f) == Size(f[..i]) + Size(f[i..])
  {
    assert f == f[..i] + f[i..];
    TokensAppend(f[..i], f[i..]);
  }

  lemma {:induction false} CharsSplit(markup: Markup, text: string, k: nat)
    requires k <= |text|
    ensures Chars(markup, text) == Chars(markup, text[..k]) + Chars(markup, text[k..])
    ensures Chars(markup, text)[..k] == Chars(markup, text[..k])
    ensures Chars(markup, text)[k..] == Chars(markup, text[k..])
  {
  }

  lemma {:induction false} CharsJoin(markup: Markup, a: string, b: string)
    ensures Chars(markup, a + b) == Chars(markup, a) + Chars(markup, b)
  {
  }
}
