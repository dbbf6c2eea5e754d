/** The replace step (`ReplaceStep`): its inverse, and its position map. */
module ReplaceStep {
  import opened Basics
  import opened StepMaps
  import opened Document
  import opened Resolved
  import opened Replace
  import opened JoinTokens
  import opened Splice
  import opened DocSlice
  import opened Normal
  import opened Joins

  datatype ReplaceStep = ReplaceStep(from: nat, end: nat, slice: Slice)

  /** A step that can be asked about a document: its slice is sound and its positions are in order. */
  predicate StepOk(step: ReplaceStep, doc: Node) {
    && doc.Elem? && NodeOk(doc)
    && SliceOk(step.slice)
    && step.from <= step.end <= Document.Size(doc.content)
  }

  function Apply(rules: Rules, doc: Node, step: ReplaceStep): Outcome<Node>
    requires StepOk(step, doc)
  {
    ReplaceNode(rules, doc, step.from, step.end, step.slice)
  }

  function Inverse(step: ReplaceStep, doc: Node): ReplaceStep
    requires StepOk(step, doc)
  {
    SliceSizeOk(step.slice);
    ReplaceStep(step.from, step.from + step.slice.Size(), SliceOf(doc, step.from, step.end))
  }

  function PositionMap(step: ReplaceStep): StepMap
    requires SliceOk(step.slice) && step.from <= step.end
  {
    SliceSizeOk(step.slice);
    StepMap([StepMaps.Range(step.from, step.end - step.from, step.slice.Size())], false)
  }

  lemma {:induction false} SliceSizeOk(slice: Slice)
    requires SliceOk(slice)
    ensures slice.Size() >= 0
  {
    OpensFit(slice.content, slice.openStart, slice.openEnd);
  }

  // ----- what a step does to the tokens -----

  lemma {:induction false} ApplyTokens(rules: Rules, doc: Node, step: ReplaceStep)
    requires StepOk(step, doc) && Apply(rules, doc, step).Done?
    ensures var doc' := Apply(rules, doc, step).value;
      && doc'.Elem? && doc'.markup == doc.markup
      && step.end <= |Tokens(doc.content)|
      && Tokens(doc'.content) ==
         Tokens(doc.content)[..step.from] + SliceTokens(step.slice) + Tokens(doc.content)[step.end..]
  {
    ReplaceIsSplice(rules, doc, step.from, step.end, step.slice);
  }

  /** A normal document with the tokens the step leads to is what comes of the step. */
  lemma {:induction false} OutcomeFromTokens(rules: Rules, doc: Node, step: ReplaceStep, doc': Node)
    requires StepOk(step, doc) && NodeNormal(doc) && FragmentNormal(step.slice.content)
    requires Apply(rules, doc, step).Done?
    requires doc'.Elem? && NodeNormal(doc') && doc'.markup == doc.markup && step.end <= |Tokens(doc.content)|
    requires Tokens(doc'.content) ==
             Tokens(doc.content)[..step.from] + SliceTokens(step.slice) + Tokens(doc.content)[step.end..]
    ensures Apply(rules, doc, step) == Done(doc')
  {
    ApplyTokens(rules, doc, step);
    ReplaceNormal(rules, doc, step.from, step.end, step.slice);
    TokensDetermine(Apply(rules, doc, step).value.content, doc'.content);
  }

  lemma {:induction false} SpliceParts<T>(t: seq<T>, i: nat, j: nat, s: seq<T>)
    requires i <= j <= |t|
    ensures (t[..i] + s + t[j..])[..i] == t[..i]
    ensures (t[..i] + s + t[j..])[..i + |s|] == t[..i] + s
    ensures (t[..i] + s + t[j..])[i + |s|..] == t[j..]
    ensures t[..i] + t[i..j] + t[j..] == t
  {
  }

  lemma {:induction false} OneRange(m: StepMap, p: int)
    requires |m.ranges| == 1 && !m.inverted
    ensures var r := m.ranges[0];
      && (p < r.start ==> Map(m, p, 1).pos == p)
      && (p >= r.start + r.oldSize ==> Map(m, p, 1).pos == p - r.oldSize + r.newSize)
  {
    assert Shift(m, 0) == 0;
    assert Shift(m, 1) == m.ranges[0].newSize - m.ranges[0].oldSize;
    assert MapFrom(m, 1, p, 1).pos == p + Shift(m, 1);
  }

  lemma {:induction false} SpliceAt<T>(t: seq<T>, i: nat, j: nat, s: seq<T>, p: nat)
    requires i <= j <= |t| && p < |t|
    ensures p < i ==> (t[..i] + s + t[j..])[p] == t[p]
    ensures p >= j ==> p - (j - i) + |s| < |t[..i] + s + t[j..]| && (t[..i] + s + t[j..])[p - (j - i) + |s|] == t[p]
  {
  }

  /** The position map says where each token outside of the replaced stretch went. */
  lemma {:induction false} MapFollowsTokens(rules: Rules, doc: Node, step: ReplaceStep, p: nat)
    requires StepOk(step, doc) && Apply(rules, doc, step).Done?
    requires p < |Tokens(doc.content)| && !(step.from <= p < step.end)
    ensures var doc' := Apply(rules, doc, step).value;
      var q := Map(PositionMap(step), p, 1).pos;
      doc'.Elem? && 0 <= q < |Tokens(doc'.content)| && Tokens(doc'.content)[q] == Tokens(doc.content)[p]
  {
    ApplyTokens(rules, doc, step);
    SliceSizeOk(step.slice);
    OneRange(PositionMap(step), p);
    SpliceAt(Tokens(doc.content), step.from, step.end, SliceTokens(step.slice), p);
  }

  // ----- the inverse restores the document -----

  lemma {:induction false} InverseFits(rules: Rules, doc: Node, step: ReplaceStep)
    requires StepOk(step, doc) && Apply(rules, doc, step).Done?
    ensures step.slice.Size() >= 0
    ensures var doc' := Apply(rules, doc, step).value;
      doc'.Elem? && step.from + step.slice.Size() <= Document.Size(doc'.content)
  {
    var doc' := Apply(rules, doc, step).value;
    ApplyTokens(rules, doc, step);
    SliceSizeOk(step.slice);
    TokensSize(doc'.content);
    var t := Tokens(doc.content);
    assert |t[..step.from] + SliceTokens(step.slice) + t[step.end..]| ==
           step.from + step.slice.Size() + |t[step.end..]|;
  }

  lemma {:induction false} InverseStepOk(rules: Rules, doc: Node, step: ReplaceStep)
    requires StepOk(step, doc) && Apply(rules, doc, step).Done? && NodeOk(Apply(rules, doc, step).value)
    ensures StepOk(Inverse(step, doc), Apply(rules, doc, step).value)
  {
    var doc' := Apply(rules, doc, step).value;
    InverseFits(rules, doc, step);
    SliceOfTokens(doc, step.from, step.end);
    var inverse := Inverse(step, doc);
    assert inverse.slice == SliceOf(doc, step.from, step.end);
    assert SliceOk(inverse.slice);
  }

  lemma {:induction false} InverseNormal(doc: Node, step: ReplaceStep)
    requires StepOk(step, doc) && NodeNormal(doc)
    ensures FragmentNormal(Inverse(step, doc).slice.content)
  {
    if step.from < step.end {
      SliceBetweenNormal(Resolve(doc, step.from), Resolve(doc, step.end));
    }
  }

  lemma {:induction false} InverseOk(rules: Rules, doc: Node, step: ReplaceStep)
    requires StepOk(step, doc) && NodeNormal(doc) && FragmentNormal(step.slice.content)
    requires Apply(rules, doc, step).Done?
    ensures NodeNormal(Apply(rules, doc, step).value)
    ensures StepOk(Inverse(step, doc), Apply(rules, doc, step).value)
    ensures FragmentNormal(Inverse(step, doc).slice.content)
  {
    ReplaceNormal(rules, doc, step.from, step.end, step.slice);
    NormalOk(Apply(rules, doc, step).value);
    InverseStepOk(rules, doc, step);
    InverseNormal(doc, step);
  }

  /** The token string of what the inverse makes, under any rules: the original one. */
  lemma {:induction false} InverseTokens(rules: Rules, other: Rules, doc: Node, step: ReplaceStep)
    requires StepOk(step, doc) && NodeNormal(doc) && FragmentNormal(step.slice.content)
    requires Apply(rules, doc, step).Done?
    ensures var doc' := Apply(rules, doc, step).value;
      StepOk(Inverse(step, doc), doc') &&
      (Apply(other, doc', Inverse(step, doc)).Done? ==> Apply(other, doc', Inverse(step, doc)).value == doc)
  {
    var doc' := Apply(rules, doc, step).value;
    InverseOk(rules, doc, step);
    var inverse := Inverse(step, doc);
    if Apply(other, doc', inverse).Done? {
      var back := Apply(other, doc', inverse).value;
      ApplyTokens(rules, doc, step);
      ApplyTokens(other, doc', inverse);
      SliceOfTokens(doc, step.from, step.end);
      SpliceParts(Tokens(doc.content), step.from, step.end, SliceTokens(step.slice));
      ReplaceNormal(other, doc', inverse.from, inverse.end, inverse.slice);
      TokensDetermine(back.content, doc.content);
    }
  }

  /** Undoing a replacement, when that succeeds, gives back the very document it was made in. */
  lemma {:induction false} UndoRestores(rules: Rules, doc: Node, step: ReplaceStep)
    requires StepOk(step, doc) && NodeNormal(doc) && FragmentNormal(step.slice.content)
    requires Apply(rules, doc, step).Done?
    ensures var doc' := Apply(rules, doc, step).value;
      StepOk(Inverse(step, doc), doc') &&
      (Apply(rules, doc', Inverse(step, doc)).Done? ==> Apply(rules, doc', Inverse(step, doc)).value == doc)
  {
    InverseTokens(rules, rules, doc, step);
  }

  // ----- the elements around a position, read off the tokens before it -----

  ghost function StackAfter(st: seq<Markup>, t: seq<Token>): seq<Markup>
    decreases |t|
  {
    if t == [] then st else StackAfter(Next(st, t[0]), t[1..])
  }

  ghost function Next(st: seq<Markup>, t: Token): seq<Markup> {
    match t
    case Open(m) => st + [m]
    case Close => if st == [] then [] else st[..|st| - 1]
    case LeafToken(_) => st
    case Char(_, _) => st
  }

  lemma {:induction false} StackAppend(st: seq<Markup>, a: seq<Token>, b: seq<Token>)
    ensures StackAfter(st, a + b) == StackAfter(StackAfter(st, a), b)
    decreases |a|
  {
    if a == [] {
      assert a + b == b;
    } else {
      assert (a + b)[1..] == a[1..] + b;
      StackAppend(Next(st, a[0]), a[1..], b);
    }
  }

  lemma {:induction false} StackChars(st: seq<Markup>, markup: Markup, text: string)
    ensures StackAfter(st, Chars(markup, text)) == st
    decreases |text|
  {
    if text != "" {
      assert Chars(markup, text)[1..] == Chars(markup, text[1..]);
      StackChars(st, markup, text[1..]);
    }
  }

  lemma {:induction false} StackNode(st: seq<Markup>, n: Node)
    ensures StackAfter(st, NodeTokens(n)) == st
    decreases n, 1
  {
    match n
    case Text(markup, text) => StackChars(st, markup, text);
    case Leaf(markup) => assert [LeafToken(markup)][1..] == [];
    case Elem(markup, content) =>
      assert [Open(markup)][1..] == [] && [Close][1..] == [];
      StackAppend(st, [Open(markup)] + Tokens(content), [Close]);
      StackAppend(st, [Open(markup)], Tokens(content));
      assert StackAfter(st, [Open(markup)]) == st + [markup];
      StackTokens(st + [markup], content);
      assert (st + [markup])[..|st|] == st;
  }

  lemma {:induction false} StackTokens(st: seq<Markup>, f: Fragment)
    ensures StackAfter(st, Tokens(f)) == st
    decreases f, 0
  {
    if f != [] {
      StackAppend(st, NodeTokens(f[0]), Tokens(f[1..]));
      StackNode(st, f[0]);
      StackTokens(st, f[1..]);
    }
  }

  lemma {:induction false} StackLeft(st: seq<Markup>, r: Pos)
    requires PosOk(r)
    ensures StackAfter(st, Left(r)) == st + Path(r)
    decreases r
  {
    var pre := Tokens(r.node.content[..r.index]);
    StackTokens(st, r.node.content[..r.index]);
    match r {
      case At(_, _, _, _) =>
        if TextOffset(r) > 0 {
          StackAppend(st, pre, NodeTokens(NodeBefore(r)));
          StackNode(st, NodeBefore(r));
        } else {
          assert pre + [] == pre;
        }
        assert st + [] == st;
      case In(_, _, _, inner) =>
        var m := inner.node.markup;
        StackAppend(st, pre, [Open(m)] + Left(inner));
        StackAppend(st, [Open(m)], Left(inner));
        assert [Open(m)][1..] == [];
        assert StackAfter(st, [Open(m)]) == st + [m];
        StackLeft(st + [m], inner);
        Assoc(st, [m], Path(inner));
    }
  }

  /** Positions behind the same tokens have the same elements around them. */
  lemma {:induction false} SamePath(doc: Node, doc': Node, p: nat)
    requires doc.Elem? && NodeOk(doc) && doc'.Elem? && NodeOk(doc')
    requires p <= Document.Size(doc.content) && p <= Document.Size(doc'.content)
    requires p <= |Tokens(doc.content)| && p <= |Tokens(doc'.content)|
    requires Tokens(doc.content)[..p] == Tokens(doc'.content)[..p]
    ensures Path(Resolve(doc, p)) == Path(Resolve(doc', p))
  {
    SidesAre(Resolve(doc, p));
    SidesAre(Resolve(doc', p));
    StackLeft([], Resolve(doc, p));
    StackLeft([], Resolve(doc', p));
    assert [] + Path(Resolve(doc, p)) == Path(Resolve(doc, p));
    assert [] + Path(Resolve(doc', p)) == Path(Resolve(doc', p));
  }
}
