/** Substituting environment variables in configuration strings, and in a whole tree of values. */
module EnvSubst {
  import opened Basics
  import opened Options

  /** The environment; None where a variable is not set, or not valid text. */
  type Env = string -> Option<string>

  datatype Result<T> = Ok(value: T) | Missing(name: string)

  // ----- the pattern: `${`, one or more characters other than `}`, `}` -----

  /** A placeholder from `i` up to its closing brace at `e`. */
  predicate PlaceholderAt(s: string, i: nat, e: nat) {
    && i + 3 <= e < |s| && s[i] == '$' && s[i + 1] == '{' && s[e] == '}'
    && forall k | i + 2 <= k < e :: s[k] != '}'
  }

  predicate HasPlaceholder(s: string) {
    exists i: nat, e: nat | i < |s| && e < |s| :: PlaceholderAt(s, i, e)
  }

  /** The first closing brace from `k` on. */
  function FirstClose(s: string, k: nat): (e: nat)
    requires k <= |s|
    ensures k <= e <= |s| && (forall j | k <= j < e :: s[j] != '}') && (e < |s| ==> s[e] == '}')
    decreases |s| - k
  {
    if k == |s| || s[k] == '}' then k else FirstClose(s, k + 1)
  }

  /** Where a placeholder that starts at `i` closes, if one does. */
  function Match(s: string, i: nat): (e: Option<nat>)
    ensures e.Some? ==> PlaceholderAt(s, i, e.value)
    ensures e.None? ==> forall k: nat :: !PlaceholderAt(s, i, k)
  {
    if i + 2 < |s| && s[i] == '$' && s[i + 1] == '{' then
      var e := FirstClose(s, i + 2);
      assert forall k: nat | PlaceholderAt(s, i, k) :: k == e;
      if e > i + 2 && e < |s| then Some(e) else None
    else None
  }

  /** The leftmost placeholder that starts at `i` or later. */
  function Leftmost(s: string, i: nat): (m: Option<(nat, nat)>)
    ensures m.Some? ==> i <= m.value.0 && PlaceholderAt(s, m.value.0, m.value.1)
    ensures m.Some? ==> forall j: nat, k: nat | i <= j < m.value.0 :: !PlaceholderAt(s, j, k)
    ensures m.None? ==> forall j: nat, k: nat | i <= j :: !PlaceholderAt(s, j, k)
    decreases |s| - i
  {
    if i >= |s| then None
    else if Match(s, i).Some? then Some((i, Match(s, i).value))
    else
      assert forall k: nat :: !PlaceholderAt(s, i, k);
      Leftmost(s, i + 1)
  }

  // ----- what a placeholder is replaced by -----

  /** The first `:-`, as an index; the length if there is none. */
  function FirstDefault(s: string, i: nat): (k: nat)
    requires i <= |s|
    ensures i <= k <= |s|
    ensures k < |s| ==> k + 1 < |s| && s[k] == ':' && s[k + 1] == '-'
    ensures forall j | i <= j < k && j + 1 < |s| :: !(s[j] == ':' && s[j + 1] == '-')
    decreases |s| - i
  {
    if i + 1 >= |s| then |s| else if s[i] == ':' && s[i + 1] == '-' then i else FirstDefault(s, i + 1)
  }

  function Replacement(env: Env, inner: string): Result<string> {
    var k := FirstDefault(inner, 0);
    if k < |inner| then
      var v := env(inner[..k]);
      Ok(if v.Some? && v.value != "" then v.value else inner[k + 2..])
    else
      var v := env(inner);
      if v.Some? then Ok(v.value) else Missing(inner)
  }

  // ----- a string as literal text and placeholders -----

  datatype Part = Part(literal: string, inner: string)

  datatype Template = Template(parts: seq<Part>, tail: string)

  function Braced(inner: string): string {
    "${" + inner + "}"
  }

  function Render(parts: seq<Part>, tail: string): string {
    if parts == [] then tail else parts[0].literal + (Braced(parts[0].inner) + Render(parts[1..], tail))
  }

  /** The text from `from` on, cut up at the leftmost placeholders that do not overlap. */
  function Parse(s: string, from: nat): Template
    requires from <= |s|
    decreases |s| - from
  {
    match Leftmost(s, from)
    case None => Template([], s[from..])
    case Some((i, e)) =>
      var rest := Parse(s, e + 1);
      Template([Part(s[from..i], s[i + 2..e])] + rest.parts, rest.tail)
  }

  /** The literal texts begin no placeholder, and the inner texts can stand in one. */
  predicate Canonical(parts: seq<Part>, tail: string)
    decreases |parts|
  {
    if parts == [] then !HasPlaceholder(tail) else
      && parts[0].inner != "" && '}' !in parts[0].inner
      && (forall i: nat, e: nat | i < |parts[0].literal| && e < |Render(parts, tail)| ::
            !PlaceholderAt(Render(parts, tail), i, e))
      && Canonical(parts[1..], tail)
  }

  lemma {:induction false} PlaceholderLater(a: string, b: string, i: nat, e: nat)
    ensures PlaceholderAt(a + b, |a| + i, |a| + e) <==> PlaceholderAt(b, i, e)
  {
    if PlaceholderAt(a + b, |a| + i, |a| + e) {
      assert b[i] == (a + b)[|a| + i] && b[i + 1] == (a + b)[|a| + (i + 1)] && b[e] == (a + b)[|a| + e];
      forall k | i + 2 <= k < e
        ensures b[k] != '}'
      {
        assert (a + b)[|a| + k] == b[k];
      }
    }
  }

  lemma {:induction false} SuffixPlaceholder(s: string, from: nat, i: nat, e: nat)
    requires from <= |s|
    ensures PlaceholderAt(s[from..], i, e) <==> PlaceholderAt(s, from + i, from + e)
  {
    assert s == s[..from] + s[from..];
    PlaceholderLater(s[..from], s[from..], i, e);
  }

  /** Cutting up loses nothing. */
  lemma {:induction false} ParseRender(s: string, from: nat)
    requires from <= |s|
    ensures var t := Parse(s, from); Render(t.parts, t.tail) == s[from..]
    decreases |s| - from
  {
    var m := Leftmost(s, from);
    if m.Some? {
      var (i, e) := m.value;
      ParseRender(s, e + 1);
      assert Parse(s, from).parts[1..] == Parse(s, e + 1).parts;
      PlaceholderTexts(s, from, i, e);
    }
  }

  lemma {:induction false} PlaceholderTexts(s: string, from: nat, i: nat, e: nat)
    requires from <= i && PlaceholderAt(s, i, e)
    ensures s[from..] == s[from..i] + (Braced(s[i + 2..e]) + s[e + 1..])
  {
    var a, b := s[from..i], s[e + 1..];
    var r := a + (Braced(s[i + 2..e]) + b);
    assert |r| == |s| - from;
    forall k | 0 <= k < |r|
      ensures r[k] == s[from + k]
    {
      if i + 2 <= from + k < e { assert Braced(s[i + 2..e])[from + k - i] == s[from + k]; }
    }
  }

  /** No placeholder starts between `from` and `end`, seen from `from` on. */
  lemma {:induction false} NoneBefore(s: string, from: nat, end: nat)
    requires from <= end <= |s| && forall j: nat, k: nat | from <= j < end :: !PlaceholderAt(s, j, k)
    ensures forall i: nat, e: nat | i < end - from && e < |s[from..]| :: !PlaceholderAt(s[from..], i, e)
  {
    forall i: nat, e: nat | i < end - from && e < |s[from..]|
      ensures !PlaceholderAt(s[from..], i, e)
    {
      SuffixPlaceholder(s, from, i, e);
    }
  }

  lemma {:induction false} CanonicalCons(part: Part, parts: seq<Part>, tail: string, s: string)
    requires part.inner != "" && '}' !in part.inner && Canonical(parts, tail)
    requires s == part.literal + (Braced(part.inner) + Render(parts, tail))
    requires forall i: nat, e: nat | i < |part.literal| && e < |s| :: !PlaceholderAt(s, i, e)
    ensures Canonical([part] + parts, tail)
  {
    assert ([part] + parts)[1..] == parts;
    assert Render([part] + parts, tail) == s;
  }

  lemma {:induction false} InnerText(s: string, i: nat, e: nat)
    requires PlaceholderAt(s, i, e)
    ensures s[i + 2..e] != "" && '}' !in s[i + 2..e]
  {
    assert s[i + 2] == s[i + 2..e][0];
  }

  lemma {:induction false} HeadCanonical(s: string, from: nat, i: nat, e: nat, rest: Template)
    requires from <= i && PlaceholderAt(s, i, e)
    requires forall j: nat, k: nat | from <= j < i :: !PlaceholderAt(s, j, k)
    requires Canonical(rest.parts, rest.tail) && Render(rest.parts, rest.tail) == s[e + 1..]
    ensures Canonical([Part(s[from..i], s[i + 2..e])] + rest.parts, rest.tail)
  {
    InnerText(s, i, e);
    PlaceholderTexts(s, from, i, e);
    NoneBefore(s, from, i);
    CanonicalCons(Part(s[from..i], s[i + 2..e]), rest.parts, rest.tail, s[from..]);
  }

  lemma {:induction false} LastCanonical(s: string, from: nat)
    requires from <= |s| && Leftmost(s, from).None?
    ensures Canonical([], s[from..])
  {
    NoneBefore(s, from, |s|);
  }

  /** It is done as the pattern asks. */
  lemma {:induction false} ParseCanonical(s: string, from: nat)
    requires from <= |s|
    ensures Canonical(Parse(s, from).parts, Parse(s, from).tail)
    decreases |s| - from
  {
    match Leftmost(s, from)
    case None => LastCanonical(s, from);
    case Some((i, e)) =>
      ParseCanonical(s, e + 1);
      NextCanonical(s, from, i, e, Parse(s, e + 1));
  }

  lemma {:induction false} NextCanonical(s: string, from: nat, i: nat, e: nat, rest: Template)
    requires from <= |s| && Leftmost(s, from) == Some((i, e))
    requires rest == Parse(s, e + 1) && Canonical(rest.parts, rest.tail)
    ensures Canonical(Parse(s, from).parts, Parse(s, from).tail)
  {
    ParseRender(s, e + 1);
    HeadCanonical(s, from, i, e, rest);
    ParseNext(s, from, i, e);
  }

  lemma {:induction false} LeftmostIs(s: string, from: nat, i: nat, e: nat)
    requires from <= i && PlaceholderAt(s, i, e)
    requires forall j: nat, k: nat | from <= j < i :: !PlaceholderAt(s, j, k)
    ensures Leftmost(s, from) == Some((i, e))
  {
    var m := Leftmost(s, from);
    assert m.Some? && m.value.0 == i;
    assert FirstClose(s, i + 2) == e;
  }

  /** Seen in a longer text, no placeholder starts sooner. */
  lemma {:induction false} NoneSooner(pre: string, r: string, n: nat)
    requires n <= |r| && forall i: nat, e: nat | i < n && e < |r| :: !PlaceholderAt(r, i, e)
    ensures forall j: nat, k: nat | |pre| <= j < |pre| + n :: !PlaceholderAt(pre + r, j, k)
  {
    forall j: nat, k: nat | |pre| <= j < |pre| + n
      ensures !PlaceholderAt(pre + r, j, k)
    {
      if j + 3 <= k < |pre + r| {
        PlaceholderLater(pre, r, j - |pre|, k - |pre|);
      }
    }
  }

  lemma {:induction false} ParseTail(pre: string, tail: string)
    requires !HasPlaceholder(tail)
    ensures Parse(pre + tail, |pre|) == Template([], tail)
  {
    NoneSooner(pre, tail, |tail|);
    assert (pre + tail)[|pre|..] == tail;
  }

  /** The first placeholder of a rendered template, and where the rest is cut up. */
  lemma {:induction false} ParseHead(pre: string, parts: seq<Part>, tail: string)
    requires Canonical(parts, tail) && parts != []
    ensures var part := parts[0];
      var s, pre' := pre + Render(parts, tail), pre + (part.literal + Braced(part.inner));
      && s == pre' + Render(parts[1..], tail)
      && |pre'| <= |s|
      && Parse(s, |pre|) == Template([part] + Parse(s, |pre'|).parts, Parse(s, |pre'|).tail)
  {
    var part, s := parts[0], pre + Render(parts, tail);
    var a := |pre| + |part.literal|;
    HeadFound(pre, parts, tail);
    HeadTexts(pre, part.literal, part.inner, Render(parts[1..], tail));
    ParseNext(s, |pre|, a, a + 2 + |part.inner|);
  }

  /** There is only one way to cut up a text like that. */
  lemma {:induction false} ParseUnique(pre: string, parts: seq<Part>, tail: string)
    requires Canonical(parts, tail)
    ensures Parse(pre + Render(parts, tail), |pre|) == Template(parts, tail)
    decreases |parts|
  {
    if parts == [] {
      ParseTail(pre, tail);
    } else {
      assert [parts[0]] + parts[1..] == parts;
      ParseHead(pre, parts, tail);
      ParseUnique(pre + (parts[0].literal + Braced(parts[0].inner)), parts[1..], tail);
    }
  }

  lemma {:induction false} ParseNext(s: string, from: nat, i: nat, e: nat)
    requires from <= |s| && Leftmost(s, from) == Some((i, e))
    ensures Parse(s, from) == Template([Part(s[from..i], s[i + 2..e])] + Parse(s, e + 1).parts, Parse(s, e + 1).tail)
  {
  }

  lemma {:induction false} HeadFound(pre: string, parts: seq<Part>, tail: string)
    requires Canonical(parts, tail) && parts != []
    ensures var a, n := |pre| + |parts[0].literal|, |parts[0].inner|;
      Leftmost(pre + Render(parts, tail), |pre|) == Some((a, a + 2 + n))
  {
    var part, rest := parts[0], Render(parts[1..], tail);
    var r := Render(parts, tail);
    OwnPlaceholder(part.literal, part.inner, rest);
    PlaceholderLater(pre, r, |part.literal|, |part.literal| + 2 + |part.inner|);
    NoneSooner(pre, r, |part.literal|);
    LeftmostIs(pre + r, |pre|, |pre| + |part.literal|, |pre| + |part.literal| + 2 + |part.inner|);
  }

  lemma {:induction false} HeadTexts(pre: string, literal: string, inner: string, rest: string)
    ensures var s := pre + (literal + (Braced(inner) + rest));
      var a := |pre| + |literal|;
      && |s| > a + 2 + |inner|
      && s[|pre|..a] == literal && s[a + 2..a + 2 + |inner|] == inner
      && s == (pre + (literal + Braced(inner))) + rest
  {
  }

  lemma {:induction false} OwnPlaceholder(literal: string, inner: string, rest: string)
    requires inner != "" && '}' !in inner
    ensures PlaceholderAt(literal + (Braced(inner) + rest), |literal|, |literal| + 2 + |inner|)
  {
    var b := Braced(inner) + rest;
    assert forall k | 2 <= k < 2 + |inner| :: b[k] == inner[k - 2];
    PlaceholderLater(literal, b, 0, 2 + |inner|);
  }

  // ----- substituting -----

  /** The literal texts and the replacements in order; the first missing variable is reported. */
  function Fill(env: Env, parts: seq<Part>, tail: string): Result<string> {
    if parts == [] then Ok(tail) else
      match Replacement(env, parts[0].inner)
      case Missing(name) => Missing(name)
      case Ok(v) =>
        match Fill(env, parts[1..], tail)
        case Missing(name) => Missing(name)
        case Ok(rest) => Ok(parts[0].literal + v + rest)
  }

  function Substituted(env: Env, s: string): Result<string> {
    SubstitutedFrom(env, s, 0)
  }

  function SubstitutedFrom(env: Env, s: string, from: nat): Result<string>
    requires from <= |s|
  {
    var t := Parse(s, from);
    Fill(env, t.parts, t.tail)
  }

  /** The scan for the next placeholder. */
  method FindPlaceholder(s: string, from: nat) returns (m: Option<(nat, nat)>)
    requires from <= |s|
    ensures m == Leftmost(s, from)
  {
    var i := from;
    while i < |s|
      invariant from <= i <= |s| && Leftmost(s, from) == Leftmost(s, i)
    {
      if i + 2 < |s| && s[i] == '$' && s[i + 1] == '{' {
        var e := i + 2;
        while e < |s| && s[e] != '}'
          invariant i + 2 <= e <= |s| && FirstClose(s, i + 2) == FirstClose(s, e)
        {
          e := e + 1;
        }
        if e > i + 2 && e < |s| {
          return Some((i, e));
        }
      }
      i := i + 1;
    }
    return None;
  }

  function After(result: string, r: Result<string>): Result<string> {
    if r.Ok? then Ok(result + r.value) else r
  }

  lemma {:induction false} AfterNothing(r: Result<string>)
    ensures After("", r) == r
  {
    assert r.Ok? ==> "" + r.value == r.value;
  }

  /** What is left to do at the placeholder from `start` to `close`. */
  lemma {:induction false} AtPlaceholder(env: Env, s: string, from: nat, start: nat, close: nat, result: string)
    requires from <= |s| && Leftmost(s, from) == Some((start, close))
    ensures var v := Replacement(env, s[start + 2..close]);
      After(result, SubstitutedFrom(env, s, from)) ==
      if v.Missing? then Missing(v.name)
      else After(result + s[from..start] + v.value, SubstitutedFrom(env, s, close + 1))
  {
    var t, rest := Parse(s, from), Parse(s, close + 1);
    assert t.parts[1..] == rest.parts;
    var v, r := Replacement(env, s[start + 2..close]), Fill(env, rest.parts, rest.tail);
    if v.Ok? && r.Ok? {
      Regroup(result, s[from..start], v.value, r.value);
    }
  }

  lemma {:induction false} Regroup(a: string, b: string, c: string, d: string)
    ensures a + (b + c + d) == a + b + c + d
  {
  }

  /** What is done up to `from` is `result`. */
  predicate DoneTo(env: Env, s: string, from: nat, result: string) {
    from <= |s| && Substituted(env, s) == After(result, SubstitutedFrom(env, s, from))
  }

  lemma {:induction false} DoneNext(env: Env, s: string, from: nat, start: nat, close: nat, result: string)
    requires DoneTo(env, s, from, result) && Leftmost(s, from) == Some((start, close))
    ensures var v := Replacement(env, s[start + 2..close]);
      if v.Missing? then Substituted(env, s) == Missing(v.name)
      else DoneTo(env, s, close + 1, result + s[from..start] + v.value)
  {
    AtPlaceholder(env, s, from, start, close, result);
  }

  lemma {:induction false} DoneEnd(env: Env, s: string, from: nat, result: string)
    requires DoneTo(env, s, from, result) && Leftmost(s, from) == None
    ensures Substituted(env, s) == Ok(result + s[from..])
  {
    assert Parse(s, from) == Template([], s[from..]);
  }

  method SubstituteEnvVars(env: Env, input: string) returns (r: Result<string>)
    ensures r == Substituted(env, input)
  {
    var result, lastEnd := "", 0;
    var m := FindPlaceholder(input, 0);
    AfterNothing(Substituted(env, input));
    while m.Some?
      invariant DoneTo(env, input, lastEnd, result) && m == Leftmost(input, lastEnd)
      decreases |input| - lastEnd
    {
      var (start, close) := m.value;
      DoneNext(env, input, lastEnd, start, close, result);
      var value := Replacement(env, input[start + 2..close]);
      if value.Missing? {
        return value;
      }
      result := result + input[lastEnd..start] + value.value;
      lastEnd := close + 1;
      m := FindPlaceholder(input, lastEnd);
    }
    DoneEnd(env, input, lastEnd, result);
    return Ok(result + input[lastEnd..]);
  }

  // ----- what that means, placeholder by placeholder -----

  /** What the pattern matches, as a text. */
  lemma {:induction false} PatternIs(s: string, i: nat, e: nat)
    ensures PlaceholderAt(s, i, e) <==>
      i < e < |s| && exists name: string :: name != "" && '}' !in name && s[i..e + 1] == "${" + name + "}"
  {
    if PlaceholderAt(s, i, e) {
      var name := s[i + 2..e];
      InnerText(s, i, e);
      assert s[i..e + 1] == "${" + name + "}";
    }
    if i < e < |s| && exists name: string :: name != "" && '}' !in name && s[i..e + 1] == "${" + name + "}" {
      var name: string :| name != "" && '}' !in name && s[i..e + 1] == "${" + name + "}";
      var m := s[i..e + 1];
      assert s[i] == m[0] && s[i + 1] == m[1] && s[e] == m[e - i];
      forall k | i + 2 <= k < e
        ensures s[k] != '}'
      {
        assert s[k] == m[k - i] == name[k - i - 2];
      }
    }
  }

  /** No placeholder starts in `pre`, with `rest` behind it. */
  ghost predicate NoneStarts(pre: string, rest: string) {
    forall i: nat, e: nat | i < |pre| && e < |pre + rest| :: !PlaceholderAt(pre + rest, i, e)
  }

  /** What the text behind the first placeholder comes to decides, unless that one fails. */
  lemma {:induction false} FirstReplaced(env: Env, pre: string, inner: string, post: string)
    requires inner != "" && '}' !in inner && NoneStarts(pre, Braced(inner) + post)
    ensures Substituted(env, pre + (Braced(inner) + post)) ==
      match Replacement(env, inner)
      case Missing(name) => Missing(name)
      case Ok(v) => After(pre + v, Substituted(env, post))
  {
    var s := pre + (Braced(inner) + post);
    FirstCutOff(s, pre, inner, post);
    BehindPlaceholder(pre + Braced(inner), post);
    Assoc(pre, Braced(inner), post);
    FirstFilled(env, s, pre, inner, Parse(post, 0));
  }

  /** The text behind is cut up as if it stood alone. */
  lemma {:induction false} BehindPlaceholder(front: string, post: string)
    ensures Parse(front + post, |front|) == Parse(post, 0)
  {
    ParseCanonical(post, 0);
    ParseRender(post, 0);
    assert post[0..] == post;
    ParseUnique(front, Parse(post, 0).parts, Parse(post, 0).tail);
  }

  lemma {:induction false} FirstCutOff(s: string, pre: string, inner: string, post: string)
    requires inner != "" && '}' !in inner && NoneStarts(pre, Braced(inner) + post)
    requires s == pre + (Braced(inner) + post)
    ensures var rest := Parse(s, |pre + Braced(inner)|);
      Parse(s, 0) == Template([Part(pre, inner)] + rest.parts, rest.tail)
  {
    var a, e := |pre|, |pre| + 2 + |inner|;
    OwnPlaceholder(pre, inner, post);
    LeftmostIs(s, 0, a, e);
    PartTexts(s, pre, inner, post);
    CutOffAt(s, a, e, pre, inner, |pre + Braced(inner)|);
  }

  lemma {:induction false} CutOffAt(s: string, a: nat, e: nat, pre: string, inner: string, k: nat)
    requires Leftmost(s, 0) == Some((a, e)) && s[0..a] == pre && s[a + 2..e] == inner && k == e + 1
    ensures k <= |s| && Parse(s, 0) == Template([Part(pre, inner)] + Parse(s, k).parts, Parse(s, k).tail)
  {
    ParseNext(s, 0, a, e);
  }

  lemma {:induction false} PartTexts(s: string, pre: string, inner: string, post: string)
    requires s == pre + (Braced(inner) + post)
    ensures var a, e := |pre|, |pre| + 2 + |inner|;
      e + 1 == |pre + Braced(inner)| <= |s| && s[0..a] == pre && s[a + 2..e] == inner
  {
  }

  lemma {:induction false} FirstFilled(env: Env, s: string, pre: string, inner: string, rest: Template)
    requires Parse(s, 0) == Template([Part(pre, inner)] + rest.parts, rest.tail)
    ensures Substituted(env, s) ==
      match Replacement(env, inner)
      case Missing(name) => Missing(name)
      case Ok(v) => After(pre + v, Fill(env, rest.parts, rest.tail))
  {
    assert Parse(s, 0).parts[1..] == rest.parts;
  }

  /** No `:-` in it. */
  predicate NoDefault(n: string) {
    forall k | 0 <= k && k + 1 < |n| :: !(n[k] == ':' && n[k + 1] == '-')
  }

  lemma {:induction false} DefaultBehind(n: string, d: string)
    requires NoDefault(n)
    ensures FirstDefault(n, 0) == |n|
    ensures var inner := n + (":-" + d);
      FirstDefault(inner, 0) == |n| < |inner| && inner[..|n|] == n && inner[|n| + 2..] == d
  {
    var inner := n + (":-" + d);
    var k := FirstDefault(inner, 0);
    assert inner[|n|] == ':' && inner[|n| + 1] == '-';
    assert forall i | 0 <= i < |n| :: inner[i] == n[i];
  }

  /** With a default: the variable if it is set and not empty, the default otherwise. */
  lemma {:induction false} DefaultReplaced(env: Env, pre: string, n: string, d: string, post: string)
    requires '}' !in n && '}' !in d && NoDefault(n) && NoneStarts(pre, "${" + n + ":-" + d + "}" + post)
    ensures var v := if env(n).Some? && env(n).value != "" then env(n).value else d;
      Substituted(env, pre + ("${" + n + ":-" + d + "}" + post)) ==
      match Substituted(env, post)
      case Missing(name) => Missing(name)
      case Ok(rest) => Ok(pre + v + rest)
  {
    var inner := n + (":-" + d);
    assert "${" + n + ":-" + d + "}" == Braced(inner);
    DefaultBehind(n, d);
    FirstReplaced(env, pre, inner, post);
  }

  /** Without one: the variable if it is set, even to nothing; an unset one is reported by its name. */
  lemma {:induction false} VariableReplaced(env: Env, pre: string, n: string, post: string)
    requires n != "" && '}' !in n && NoDefault(n) && NoneStarts(pre, "${" + n + "}" + post)
    ensures Substituted(env, pre + ("${" + n + "}" + post)) ==
      if env(n).None? then Missing(n) else
      match Substituted(env, post)
      case Missing(name) => Missing(name)
      case Ok(rest) => Ok(pre + env(n).value + rest)
  {
    assert "${" + n + "}" == Braced(n);
    DefaultBehind(n, "");
    FirstReplaced(env, pre, n, post);
  }

  /** Text in which the pattern matches nowhere stays as it is. */
  lemma {:induction false} PlainTextStays(env: Env, s: string)
    requires NoneStarts(s, "")
    ensures Substituted(env, s) == Ok(s)
  {
    assert s + "" == s;
    NothingToDo(env, s);
  }

  // ----- substituting again -----

  /** Text that cannot become part of a new placeholder, wherever it is put. */
  predicate Harmless(v: string) {
    && v != "" && v[|v| - 1] != '$'
    && (v[0] == '{' ==> |v| >= 2 && v[1] == '}')
    && forall j {:trigger v[j]} | 0 <= j < |v| - 1 && v[j] == '$' && v[j + 1] == '{' :: j + 2 < |v| && v[j + 2] == '}'
  }

  function Out(parts: seq<Part>, values: seq<string>, tail: string): string
    requires |values| == |parts|
  {
    if parts == [] then tail else parts[0].literal + (values[0] + Out(parts[1..], values[1..], tail))
  }

  /** A placeholder's opening in a literal text would have been one from the start, unless it closes at once. */
  lemma {:induction false} OpensInLiteral(parts: seq<Part>, tail: string, i: nat)
    requires parts != [] && Canonical(parts, tail)
    ensures var l := parts[0].literal;
      i + 1 < |l| && l[i] == '$' && l[i + 1] == '{' ==> i + 2 < |l| && l[i + 2] == '}'
  {
    var l, s := parts[0].literal, Render(parts, tail);
    var close := |l| + 2 + |parts[0].inner|;
    assert s == l + (Braced(parts[0].inner) + Render(parts[1..], tail));
    assert s[close] == '}' && s[|l|] == '$' && forall j | 0 <= j < |l| :: s[j] == l[j];
    if i + 1 < |l| {
      assert !PlaceholderAt(s, i, FirstClose(s, i + 2));
    }
  }

  lemma {:induction false} NoneInOut(parts: seq<Part>, values: seq<string>, tail: string)
    requires |values| == |parts| && Canonical(parts, tail) && forall i | 0 <= i < |values| :: Harmless(values[i])
    ensures !HasPlaceholder(Out(parts, values, tail))
    decreases |parts|
  {
    if parts != [] {
      NoneInOut(parts[1..], values[1..], tail);
      var rest := Out(parts[1..], values[1..], tail);
      forall i: nat, e: nat | i < |Out(parts, values, tail)| && e < |Out(parts, values, tail)|
        ensures !PlaceholderAt(Out(parts, values, tail), i, e)
      {
        NoneAcross(parts, values[0], rest, tail, i, e);
      }
    }
  }

  lemma {:induction false} NoneAcross(parts: seq<Part>, v: string, rest: string, tail: string, i: nat, e: nat)
    requires parts != [] && Canonical(parts, tail) && Harmless(v) && !HasPlaceholder(rest)
    ensures !PlaceholderAt(parts[0].literal + (v + rest), i, e)
  {
    var l := parts[0].literal;
    var s := l + (v + rest);
    if i >= |l| + |v| {
      assert s == (l + v) + rest;
      if e >= |l| + |v| {
        PlaceholderLater(l + v, rest, i - |l| - |v|, e - |l| - |v|);
      }
    } else if i >= |l| {
      assert s[i] == v[i - |l|];
      assert i + 1 < |l| + |v| ==> s[i + 1] == v[i - |l| + 1];
      assert i + 2 < |l| + |v| ==> s[i + 2] == v[i - |l| + 2];
    } else if i == |l| - 1 {
      assert s[i + 1] == v[0] && (|v| > 1 ==> s[i + 2] == v[1]);
    } else {
      assert s[i] == l[i] && s[i + 1] == l[i + 1] && (i + 2 < |l| ==> s[i + 2] == l[i + 2]);
      OpensInLiteral(parts, tail, i);
    }
  }

  predicate AllOk(env: Env, parts: seq<Part>) {
    forall i | 0 <= i < |parts| :: Replacement(env, parts[i].inner).Ok?
  }

  function Values(env: Env, parts: seq<Part>): (v: seq<string>)
    requires AllOk(env, parts)
    ensures |v| == |parts| && forall i | 0 <= i < |parts| :: v[i] == Replacement(env, parts[i].inner).value
  {
    seq(|parts|, i requires 0 <= i < |parts| => Replacement(env, parts[i].inner).value)
  }

  lemma {:induction false} FillIsOut(env: Env, parts: seq<Part>, tail: string)
    requires AllOk(env, parts)
    ensures Fill(env, parts, tail) == Ok(Out(parts, Values(env, parts), tail))
  {
    if parts != [] {
      FillIsOut(env, parts[1..], tail);
      assert Values(env, parts)[1..] == Values(env, parts[1..]);
      var v, rest := Values(env, parts)[0], Out(parts[1..], Values(env, parts[1..]), tail);
      assert (parts[0].literal + v) + rest == parts[0].literal + (v + rest);
    }
  }

  /** Every replacement made in `s` is harmless. */
  predicate HarmlessIn(env: Env, s: string) {
    var parts := Parse(s, 0).parts;
    AllOk(env, parts) && forall i | 0 <= i < |parts| :: Harmless(Replacement(env, parts[i].inner).value)
  }

  /**
   * With harmless replacements the outcome has no placeholder left: substituting again, in any
   * environment, changes nothing.
   */
  lemma {:induction false} SecondPass(env: Env, again: Env, s: string)
    requires HarmlessIn(env, s)
    ensures Substituted(env, s).Ok?
    ensures var out := Substituted(env, s).value; !HasPlaceholder(out) && Substituted(again, out) == Ok(out)
  {
    ParseCanonical(s, 0);
    var t := Parse(s, 0);
    FillIsOut(env, t.parts, t.tail);
    NoneInOut(t.parts, Values(env, t.parts), t.tail);
    NothingToDo(again, Out(t.parts, Values(env, t.parts), t.tail));
  }

  lemma {:induction false} NothingToDo(env: Env, out: string)
    requires !HasPlaceholder(out)
    ensures Substituted(env, out) == Ok(out)
  {
    var m := Leftmost(out, 0);
    assert m.Some? ==> PlaceholderAt(out, m.value.0, m.value.1);
    assert out[0..] == out;
  }

  /** All placeholders in `s` are replaced by `v`. */
  ghost predicate ReplacedBy(env: Env, s: string, v: string) {
    forall i | 0 <= i < |Parse(s, 0).parts| :: Replacement(env, Parse(s, 0).parts[i].inner) == Ok(v)
  }

  ghost predicate LeavesNoPlaceholder(env: Env, s: string) {
    Substituted(env, s).Ok? && !HasPlaceholder(Substituted(env, s).value)
  }

  /** A text in which a value that is not harmless makes a new placeholder. */
  function Spoiled(v: string, name: string): Template {
    if v == "" then Template([Part("$", name)], "{B}")
    else if v[|v| - 1] == '$' then Template([Part("", name)], "{B}")
    else if v[0] == '{' && (|v| == 1 || v[1] != '}') then Template([Part("$", name)], "B}")
    else Template([Part("", name)], "B}")
  }

  lemma {:induction false} SpoiledCanonical(v: string, name: string)
    requires name != "" && '}' !in name
    ensures Canonical(Spoiled(v, name).parts, Spoiled(v, name).tail)
  {
    var t := Spoiled(v, name);
    assert t.parts[1..] == [];
    assert Render(t.parts, t.tail)[1] == if t.parts[0].literal == "" then '{' else '$';
  }

  lemma {:induction false} OpensAndCloses(s: string, i: nat)
    requires i + 2 < |s| && s[i] == '$' && s[i + 1] == '{' && s[i + 2] != '}' && s[|s| - 1] == '}'
    ensures HasPlaceholder(s)
  {
    assert PlaceholderAt(s, i, FirstClose(s, i + 2));
  }

  lemma {:induction false} OutOne(part: Part, v: string, tail: string)
    ensures Out([part], [v], tail) == part.literal + (v + tail)
  {
    assert [part][1..] == [] && [v][1..] == [];
  }

  lemma {:induction false} SpoiledOut(v: string, name: string)
    requires !Harmless(v)
    ensures var out := Out(Spoiled(v, name).parts, [v], Spoiled(v, name).tail);
      HasPlaceholder(out) && |out| <= |v| + 4
  {
    var t := Spoiled(v, name);
    var l, tail := t.parts[0].literal, t.tail;
    var out := Out(t.parts, [v], tail);
    OutOne(t.parts[0], v, tail);
    assert out[|out| - 1] == '}';
    if v == "" {
      OpensAndCloses(out, 0);
    } else if v[|v| - 1] == '$' {
      OpensAndCloses(out, |v| - 1);
    } else if v[0] == '{' && (|v| == 1 || v[1] != '}') {
      OpensAndCloses(out, 0);
    } else {
      var j :| 0 <= j < |v| - 1 && v[j] == '$' && v[j + 1] == '{' && !(j + 2 < |v| && v[j + 2] == '}');
      OpensAndCloses(out, j);
    }
  }

  /** A template with one placeholder, replaced by `v`. */
  lemma {:induction false} OneReplaced(part: Part, tail: string, v: string, env: Env)
    requires Canonical([part], tail) && Replacement(env, part.inner) == Ok(v)
    ensures var s := Render([part], tail);
      ReplacedBy(env, s, v) && Substituted(env, s) == Ok(Out([part], [v], tail))
  {
    var s := Render([part], tail);
    assert Parse(s, 0) == Template([part], tail) by {
      ParseUnique("", [part], tail);
      assert "" + s == s;
    }
    FillIsOut(env, [part], tail);
    assert Values(env, [part]) == [v];
  }

  /** A name longer than anything the value can be made part of. */
  function LongName(v: string): (name: string)
    ensures |name| == |v| + 5 && forall c | c in name :: c == 'A'
  {
    seq(|v| + 5, _ => 'A')
  }

  /** Only that name is set. */
  function OnlyLongName(v: string): Env {
    (name: string) => if name == LongName(v) then Some(v) else None
  }

  lemma {:induction false} LongNameReplaced(v: string)
    ensures Replacement(OnlyLongName(v), LongName(v)) == Ok(v)
  {
    var name := LongName(v);
    assert forall i | 0 <= i < |name| :: name[i] in name;
  }

  lemma {:induction false} SpoiledSubstituted(v: string)
    requires !Harmless(v)
    ensures var env, t := OnlyLongName(v), Spoiled(v, LongName(v));
      var s, out := Render(t.parts, t.tail), Out(t.parts, [v], t.tail);
      && ReplacedBy(env, s, v) && Substituted(env, s) == Ok(out)
      && HasPlaceholder(out) && |out| < |LongName(v)|
  {
    var t := Spoiled(v, LongName(v));
    SpoiledCanonical(v, LongName(v));
    SpoiledOut(v, LongName(v));
    LongNameReplaced(v);
    assert t.parts == [t.parts[0]];
    OneReplaced(t.parts[0], t.tail, v, OnlyLongName(v));
  }

  /** Exactly the harmless values never leave a placeholder behind. */
  lemma {:induction false} LeavesNoneIff(v: string)
    ensures Harmless(v) <==> forall env: Env, s: string | ReplacedBy(env, s, v) :: LeavesNoPlaceholder(env, s)
  {
    if Harmless(v) {
      forall env: Env, s: string | ReplacedBy(env, s, v)
        ensures LeavesNoPlaceholder(env, s)
      {
        assert HarmlessIn(env, s);
        SecondPass(env, env, s);
      }
    } else {
      SpoiledSubstituted(v);
    }
  }

  /** Substituting twice does what substituting once does. */
  ghost predicate TwiceIsOnce(env: Env, s: string) {
    Substituted(env, s).Ok? && Substituted(env, Substituted(env, s).value) == Substituted(env, s)
  }

  /** Where no variable with so short a name is set, placeholders are only replaced by their shorter defaults. */
  lemma {:induction false} FillShrinks(env: Env, parts: seq<Part>, tail: string, n: nat)
    requires |Render(parts, tail)| <= n && forall name: string | |name| < n :: env(name) == None
    ensures var r := Fill(env, parts, tail); r.Ok? ==> |r.value| + |parts| <= |Render(parts, tail)|
  {
    if parts != [] {
      FillShrinks(env, parts[1..], tail, n);
    }
  }

  lemma {:induction false} PlaceholderShrinks(env: Env, out: string)
    requires HasPlaceholder(out) && forall name: string | |name| < |out| :: env(name) == None
    ensures Substituted(env, out) != Ok(out)
  {
    var t := Parse(out, 0);
    ParseRender(out, 0);
    assert out[0..] == out;
    FillShrinks(env, t.parts, t.tail, |out|);
    assert Leftmost(out, 0).Some?;
  }

  /** Exactly for the harmless values a second pass changes nothing, whatever text they were put into. */
  lemma {:induction false} HarmlessIff(v: string)
    ensures Harmless(v) <==> forall env: Env, s: string | ReplacedBy(env, s, v) :: TwiceIsOnce(env, s)
  {
    if Harmless(v) {
      forall env: Env, s: string | ReplacedBy(env, s, v)
        ensures TwiceIsOnce(env, s)
      {
        assert HarmlessIn(env, s);
        SecondPass(env, env, s);
      }
    } else {
      var env, t := OnlyLongName(v), Spoiled(v, LongName(v));
      SpoiledSubstituted(v);
      PlaceholderShrinks(env, Out(t.parts, [v], t.tail));
      assert !TwiceIsOnce(env, Render(t.parts, t.tail));
    }
  }

  // ----- a tree of values -----

  /** Other scalars are never touched. */
  datatype Value = Text(text: string) | List(items: seq<Value>) | Table(entries: seq<Entry>) | Scalar(repr: string)

  datatype Entry = Entry(key: string, value: Value)

  /** All texts of a value, in the order of the walk. */
  function Texts(v: Value): seq<string> {
    match v
    case Text(text) => [text]
    case List(items) => ListTexts(items)
    case Table(entries) => EntryTexts(entries)
    case Scalar(_) => []
  }

  function ListTexts(items: seq<Value>): seq<string> {
    if items == [] then [] else Texts(items[0]) + ListTexts(items[1..])
  }

  function EntryTexts(entries: seq<Entry>): seq<string> {
    if entries == [] then [] else Texts(entries[0].value) + EntryTexts(entries[1..])
  }

  /** All but the texts themselves: lists, keys and other scalars. */
  function Shape(v: Value): Value {
    match v
    case Text(_) => Text("")
    case List(items) => List(seq(|items|, i requires 0 <= i < |items| => Shape(items[i])))
    case Table(entries) =>
      Table(seq(|entries|, i requires 0 <= i < |entries| => Entry(entries[i].key, Shape(entries[i].value))))
    case Scalar(_) => v
  }

  /** The texts substituted in order up to the first that has a missing variable; it and those after it stay. */
  function Walk(env: Env, texts: seq<string>): (r: (seq<string>, Option<string>))
    ensures |r.0| == |texts|
  {
    if texts == [] then ([], None) else
      match Substituted(env, texts[0])
      case Missing(name) => (texts, Some(name))
      case Ok(text) =>
        var (rest, missing) := Walk(env, texts[1..]);
        ([text] + rest, missing)
  }

  /** Either all texts are substituted, or exactly those before the one that fails. */
  lemma {:induction false} WalkIs(env: Env, texts: seq<string>) returns (k: nat)
    ensures var (after, missing) := Walk(env, texts);
      && k <= |texts| && (missing.None? <==> k == |texts|)
      && (forall i | 0 <= i < k :: Substituted(env, texts[i]) == Ok(after[i]))
      && (k < |texts| ==> Substituted(env, texts[k]) == Missing(missing.value) && after[k..] == texts[k..])
  {
    k := 0;
    if texts != [] && Substituted(env, texts[0]).Ok? {
      var k' := WalkIs(env, texts[1..]);
      k := k' + 1;
    }
  }

  lemma {:induction false} WalkAppend(env: Env, a: seq<string>, b: seq<string>)
    ensures Walk(env, a + b) ==
      if Walk(env, a).1.Some? then (Walk(env, a).0 + b, Walk(env, a).1)
      else (Walk(env, a).0 + Walk(env, b).0, Walk(env, b).1)
  {
    if a == [] {
      assert a + b == b && [] + Walk(env, b).0 == Walk(env, b).0;
    } else {
      assert (a + b)[1..] == a[1..] + b;
      WalkAppend(env, a[1..], b);
      var first := Substituted(env, a[0]);
      if first.Ok? {
        Assoc([first.value], Walk(env, a[1..]).0, b);
        Assoc([first.value], Walk(env, a[1..]).0, Walk(env, b).0);
      }
    }
  }

  lemma {:induction false} WalkOne(env: Env, text: string)
    ensures Walk(env, [text]) ==
      match Substituted(env, text)
      case Missing(name) => ([text], Some(name))
      case Ok(replaced) => ([replaced], None)
  {
    assert [text][1..] == [];
    var r := Substituted(env, text);
    assert r.Ok? ==> [r.value] + [] == [r.value];
  }

  lemma {:induction false} ListTextsAppend(a: seq<Value>, b: seq<Value>)
    ensures ListTexts(a + b) == ListTexts(a) + ListTexts(b)
  {
    if a == [] {
      assert a + b == b;
    } else {
      assert (a + b)[1..] == a[1..] + b;
      ListTextsAppend(a[1..], b);
    }
  }

  lemma {:induction false} ListTextsAround(items: seq<Value>, i: nat)
    requires i < |items|
    ensures ListTexts(items) == ListTexts(items[..i]) + (Texts(items[i]) + ListTexts(items[i + 1..]))
    ensures ListTexts(items[..i + 1]) == ListTexts(items[..i]) + Texts(items[i])
  {
    assert items == items[..i] + ([items[i]] + items[i + 1..]) && items[..i + 1] == items[..i] + [items[i]];
    ListTextsAppend(items[..i], [items[i]] + items[i + 1..]);
    ListTextsAppend([items[i]], items[i + 1..]);
    ListTextsAppend(items[..i], [items[i]]);
    assert [items[i]][1..] == [];
  }

  /** The items before `i` are done. */
  ghost predicate ListDone(env: Env, items: seq<Value>, out: seq<Value>, i: nat) {
    && |out| == |items| && i <= |items|
    && out[i..] == items[i..]
    && (forall j | 0 <= j < i :: Shape(out[j]) == Shape(items[j]))
    && Walk(env, ListTexts(items[..i])) == (ListTexts(out[..i]), None)
  }

  lemma {:induction false} ShapeNext(items: seq<Value>, out: seq<Value>, i: nat, item: Value)
    requires |out| == |items| && i < |items| && out[i..] == items[i..] && Shape(item) == Shape(items[i])
    requires forall j | 0 <= j < i :: Shape(out[j]) == Shape(items[j])
    ensures forall j | 0 <= j < |items| :: Shape(out[i := item][j]) == Shape(items[j])
    ensures Shape(List(out[i := item])) == Shape(List(items))
  {
    forall j | i < j < |items|
      ensures out[j] == items[j]
    {
      assert out[i..][j - i] == items[i..][j - i];
    }
  }

  /** The walk over one item more, and over all of the list if that item fails. */
  lemma {:induction false} WalkNext(env: Env, items: seq<Value>, i: nat, done: seq<string>, texts: seq<string>,
          missing: Option<string>)
    requires i < |items| && Walk(env, ListTexts(items[..i])) == (done, None)
      && Walk(env, Texts(items[i])) == (texts, missing)
    ensures Walk(env, ListTexts(items[..i + 1])) == (done + texts, missing)
    ensures missing.Some? ==> Walk(env, ListTexts(items)) == (done + (texts + ListTexts(items[i + 1..])), missing)
  {
    var before, now, later := ListTexts(items[..i]), Texts(items[i]), ListTexts(items[i + 1..]);
    ListTextsAround(items, i);
    WalkAppend(env, before, now);
    WalkAppend(env, before, now + later);
    WalkAppend(env, now, later);
  }

  /** One item more, or the first that fails. */
  lemma {:induction false} ListNext(env: Env, items: seq<Value>, out: seq<Value>, i: nat, item: Value,
          missing: Option<string>)
    requires ListDone(env, items, out, i) && i < |items|
    requires Walk(env, Texts(items[i])) == (Texts(item), missing) && Shape(item) == Shape(items[i])
    ensures missing.None? ==> ListDone(env, items, out[i := item], i + 1)
    ensures missing.Some? ==> Walk(env, ListTexts(items)) == (ListTexts(out[i := item]), missing)
    ensures Shape(List(out[i := item])) == Shape(List(items))
  {
    var next := out[i := item];
    assert next[..i] == out[..i] && next[i + 1..] == out[i..][1..] == items[i..][1..] == items[i + 1..];
    ShapeNext(items, out, i, item);
    ListTextsAround(next, i);
    WalkNext(env, items, i, ListTexts(out[..i]), Texts(item), missing);
  }

  /** A table's entries are walked like the list of their values. */
  function EntryValues(entries: seq<Entry>): (r: seq<Value>)
    ensures |r| == |entries|
  {
    seq(|entries|, i requires 0 <= i < |entries| => entries[i].value)
  }

  lemma {:induction false} EntryTextsAre(entries: seq<Entry>)
    ensures EntryTexts(entries) == ListTexts(EntryValues(entries))
  {
    if entries != [] {
      EntryTextsAre(entries[1..]);
      assert EntryValues(entries)[1..] == EntryValues(entries[1..]);
    }
  }

  lemma {:induction false} TableShape(a: seq<Entry>, b: seq<Entry>)
    requires |a| == |b| && forall j | 0 <= j < |a| :: a[j].key == b[j].key
    requires Shape(List(EntryValues(a))) == Shape(List(EntryValues(b)))
    ensures Shape(Table(a)) == Shape(Table(b))
  {
    forall j | 0 <= j < |a|
      ensures Shape(a[j].value) == Shape(b[j].value)
    {
      assert Shape(List(EntryValues(a))).items[j] == Shape(List(EntryValues(b))).items[j];
    }
  }

  // ----- what the walk leaves where -----

  /** What is found by going into lists and tables, by the number of the item or entry at each step. */
  function ValueAt(v: Value, path: seq<nat>): Option<Value>
    decreases path
  {
    if path == [] then Some(v)
    else if v.List? && path[0] < |v.items| then ValueAt(v.items[path[0]], path[1..])
    else if v.Table? && path[0] < |v.entries| then ValueAt(v.entries[path[0]].value, path[1..])
    else None
  }

  /** The same but for texts in them: as many items, the same keys, and other scalars as they were. */
  predicate SameKind(v: Value, w: Value) {
    match v
    case Text(_) => w.Text?
    case List(items) => w.List? && |w.items| == |items|
    case Table(entries) =>
      w.Table? && |w.entries| == |entries| && forall i | 0 <= i < |entries| :: w.entries[i].key == entries[i].key
    case Scalar(_) => w == v
  }

  lemma {:induction false} SameInside(v: Value, w: Value)
    requires Shape(v) == Shape(w)
    ensures SameKind(v, w)
    ensures v.List? ==> forall i | 0 <= i < |v.items| :: Shape(v.items[i]) == Shape(w.items[i])
    ensures v.Table? ==> forall i | 0 <= i < |v.entries| :: Shape(v.entries[i].value) == Shape(w.entries[i].value)
  {
    if v.List? && w.List? {
      assert |v.items| == |Shape(v).items| == |w.items|;
      forall i | 0 <= i < |v.items|
        ensures Shape(v.items[i]) == Shape(w.items[i])
      {
        assert Shape(v).items[i] == Shape(v.items[i]) && Shape(w).items[i] == Shape(w.items[i]);
      }
    } else if v.Table? && w.Table? {
      assert |v.entries| == |Shape(v).entries| == |w.entries|;
      forall i | 0 <= i < |v.entries|
        ensures v.entries[i].key == w.entries[i].key && Shape(v.entries[i].value) == Shape(w.entries[i].value)
      {
        assert Shape(v).entries[i] == Entry(v.entries[i].key, Shape(v.entries[i].value));
        assert Shape(w).entries[i] == Entry(w.entries[i].key, Shape(w.entries[i].value));
      }
    }
  }

  /** Values of the same shape are the same but for texts wherever one looks. */
  lemma {:induction false} SameAt(v: Value, w: Value, path: seq<nat>)
    requires Shape(v) == Shape(w)
    ensures ValueAt(v, path).Some? <==> ValueAt(w, path).Some?
    ensures ValueAt(v, path).Some? ==> SameKind(ValueAt(v, path).value, ValueAt(w, path).value)
    decreases path
  {
    SameInside(v, w);
    if path == [] {
    } else if v.List? && path[0] < |v.items| {
      SameAt(v.items[path[0]], w.items[path[0]], path[1..]);
    } else if v.Table? && path[0] < |v.entries| {
      SameAt(v.entries[path[0]].value, w.entries[path[0]].value, path[1..]);
    }
  }

  lemma {:induction false} SameCount(v: Value, w: Value)
    requires Shape(v) == Shape(w)
    ensures |Texts(v)| == |Texts(w)|
    decreases v, 0
  {
    SameInside(v, w);
    if v.List? {
      SameCounts(v.items, w.items);
    } else if v.Table? {
      var a, b := EntryValues(v.entries), EntryValues(w.entries);
      forall i | 0 <= i < |v.entries|
        ensures |Texts(v.entries[i].value)| == |Texts(w.entries[i].value)|
      {
        SameCount(v.entries[i].value, w.entries[i].value);
      }
      EntryTextsAre(v.entries);
      EntryTextsAre(w.entries);
      AsMany(a, b);
    }
  }

  lemma {:induction false} SameCounts(a: seq<Value>, b: seq<Value>)
    requires |a| == |b| && forall i | 0 <= i < |a| :: Shape(a[i]) == Shape(b[i])
    ensures |ListTexts(a)| == |ListTexts(b)|
    decreases a, 1
  {
    forall i | 0 <= i < |a|
      ensures |Texts(a[i])| == |Texts(b[i])|
    {
      SameCount(a[i], b[i]);
    }
    AsMany(a, b);
  }

  lemma {:induction false} AsMany(a: seq<Value>, b: seq<Value>)
    requires |a| == |b| && forall i | 0 <= i < |a| :: |Texts(a[i])| == |Texts(b[i])|
    ensures |ListTexts(a)| == |ListTexts(b)|
  {
    if a != [] {
      AsMany(a[1..], b[1..]);
    }
  }

  /** Where the text found at a path is among all texts, in values of the same shape. */
  lemma {:induction false} TextPlace(v: Value, w: Value, path: seq<nat>) returns (k: nat)
    requires Shape(v) == Shape(w) && ValueAt(v, path).Some? && ValueAt(v, path).value.Text?
    ensures k < |Texts(v)| == |Texts(w)|
    ensures ValueAt(v, path) == Some(Text(Texts(v)[k])) && ValueAt(w, path) == Some(Text(Texts(w)[k]))
    decreases path
  {
    SameInside(v, w);
    SameCount(v, w);
    if path == [] {
      k := 0;
    } else if v.List? {
      k := TextPlace(v.items[path[0]], w.items[path[0]], path[1..]);
      k := PlaceIn(v.items, w.items, path[0], k);
    } else {
      k := TextPlace(v.entries[path[0]].value, w.entries[path[0]].value, path[1..]);
      EntryTextsAre(v.entries);
      EntryTextsAre(w.entries);
      k := PlaceIn(EntryValues(v.entries), EntryValues(w.entries), path[0], k);
    }
  }

  lemma {:induction false} PlaceIn(a: seq<Value>, b: seq<Value>, i: nat, j: nat) returns (k: nat)
    requires |a| == |b| && i < |a| && forall n | 0 <= n < |a| :: Shape(a[n]) == Shape(b[n])
    requires j < |Texts(a[i])| == |Texts(b[i])|
    ensures k < |ListTexts(a)| && k < |ListTexts(b)|
    ensures ListTexts(a)[k] == Texts(a[i])[j] && ListTexts(b)[k] == Texts(b[i])[j]
  {
    ListTextsAround(a, i);
    ListTextsAround(b, i);
    SameCounts(a[..i], b[..i]);
    k := |ListTexts(a[..i])| + j;
  }

  /** What a walk leaves: a text at any place is substituted, or if the walk failed, at least left as it was. */
  lemma {:induction false} EveryText(env: Env, value: Value, r: Value, missing: Option<string>, path: seq<nat>)
    requires (Texts(r), missing) == Walk(env, Texts(value)) && Shape(r) == Shape(value)
    requires ValueAt(value, path).Some? && ValueAt(value, path).value.Text?
    ensures ValueAt(r, path).Some? && ValueAt(r, path).value.Text?
    ensures var before, after := ValueAt(value, path).value.text, ValueAt(r, path).value.text;
      Substituted(env, before) == Ok(after) || (missing.Some? && after == before)
  {
    var k := TextPlace(value, r, path);
    var n := WalkIs(env, Texts(value));
    if k >= n {
      assert Texts(r)[n..][k - n] == Texts(value)[n..][k - n];
    }
  }

  /** Overwrites the texts of a value one after the other, and stops at the first failure. */
  method SubstituteInValue(env: Env, value: Value) returns (r: Value, missing: Option<string>)
    ensures (Texts(r), missing) == Walk(env, Texts(value))
    ensures Shape(r) == Shape(value)
    decreases value
  {
    r, missing := value, None;
    match value
    case Text(text) =>
      WalkOne(env, text);
      var s := SubstituteEnvVars(env, text);
      match s {
        case Ok(replaced) => r := Text(replaced);
        case Missing(name) => missing := Some(name);
      }
    case List(items) =>
      var out;
      out, missing := SubstituteInList(env, items);
      r := List(out);
    case Table(entries) =>
      EntryTextsAre(entries);
      var out;
      out, missing := SubstituteInTable(env, entries);
      EntryTextsAre(out);
      TableShape(out, entries);
      r := Table(out);
    case Scalar(_) =>
  }

  method SubstituteInList(env: Env, items: seq<Value>) returns (out: seq<Value>, missing: Option<string>)
    ensures (ListTexts(out), missing) == Walk(env, ListTexts(items))
    ensures Shape(List(out)) == Shape(List(items))
    decreases items
  {
    out, missing := items, None;
    var i := 0;
    while i < |items| && missing.None?
      invariant 0 <= i <= |items| && |out| == |items|
      invariant missing.None? ==> ListDone(env, items, out, i)
      invariant missing.Some? ==> Walk(env, ListTexts(items)) == (ListTexts(out), missing)
      invariant Shape(List(out)) == Shape(List(items))
    {
      var item;
      item, missing := SubstituteInValue(env, items[i]);
      ListNext(env, items, out, i, item, missing);
      out := out[i := item];
      i := i + 1;
    }
    assert items[..|items|] == items && out[..|out|] == out;
  }

  method SubstituteInTable(env: Env, entries: seq<Entry>) returns (out: seq<Entry>, missing: Option<string>)
    ensures |out| == |entries| && forall j | 0 <= j < |out| :: out[j].key == entries[j].key
    ensures (ListTexts(EntryValues(out)), missing) == Walk(env, ListTexts(EntryValues(entries)))
    ensures Shape(List(EntryValues(out))) == Shape(List(EntryValues(entries)))
    decreases entries
  {
    out, missing := entries, None;
    ghost var values := EntryValues(entries);
    var i := 0;
    while i < |entries| && missing.None?
      invariant 0 <= i <= |entries| && |out| == |entries|
      invariant forall j | 0 <= j < |out| :: out[j].key == entries[j].key
      invariant missing.None? ==> ListDone(env, values, EntryValues(out), i)
      invariant missing.Some? ==> Walk(env, ListTexts(values)) == (ListTexts(EntryValues(out)), missing)
      invariant Shape(List(EntryValues(out))) == Shape(List(values))
    {
      var val;
      val, missing := SubstituteInValue(env, entries[i].value);
      ListNext(env, values, EntryValues(out), i, val, missing);
      assert EntryValues(out[i := Entry(out[i].key, val)]) == EntryValues(out)[i := val];
      out := out[i := Entry(out[i].key, val)];
      i := i + 1;
    }
    assert values[..|values|] == values && EntryValues(out)[..|out|] == EntryValues(out);
  }
}
