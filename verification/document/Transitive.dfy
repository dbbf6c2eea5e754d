/** Rules under which compatibility carries over: there, every replacement in a valid document can be undone. */
module TransitiveRules {
  import opened Document
  import opened Resolved
  import opened Replace
  import opened Splice
  import opened Normal
  import opened Joins
  import opened ReplaceStep
  import opened Undo
  import opened Merges

  lemma {:induction false} StackOpened(st: seq<Markup>, path: seq<Markup>, t: seq<Token>)
    requires |t| == |path| && forall i | 0 <= i < |t| :: t[i] == Open(path[i])
    ensures StackAfter(st, t) == st + path
    decreases |t|
  {
    if t == [] {
      assert st + path == st;
    } else {
      StackOpened(st + path[..1], path[1..], t[1..]);
      assert st + [path[0]] == st + path[..1];
      assert (st + path[..1]) + path[1..] == st + path;
    }
  }

  /** From the elements along the left side of a slice its tokens lead to those along its right side. */
  lemma {:induction false} StackThrough(st: seq<Markup>, slice: Slice)
    requires SliceOk(slice)
    ensures StackAfter(st + LeftPath(slice.content, slice.openStart), SliceTokens(slice)) ==
            st + RightPath(slice.content, slice.openEnd)
  {
    var t, i := Tokens(slice.content), slice.openStart;
    TokensSize(slice.content);
    OpensFit(slice.content, slice.openStart, slice.openEnd);
    var j := |t| - slice.openEnd;
    LeftTokens(slice.content, i);
    RightTokens(slice.content, slice.openEnd, st);
    StackOpened(st, LeftPath(slice.content, i), t[..i]);
    assert t[..j] == t[..i] + t[i..j];
    StackAppend(st, t[..i], t[i..j]);
  }

  lemma {:induction false} PathsTurned(rules: Rules, p: seq<Markup>, q: seq<Markup>)
    requires PathsCompatible(rules, p, q)
    ensures PathsCompatible(rules, q, p)
  {
    forall i | 0 <= i < |q|
      ensures Compatible(rules, p[i].nodeType, q[i].nodeType)
    {
      var a, b := q[i].nodeType, p[i].nodeType;
      assert Compatible(rules, a, b);
      assert rules.first(a) * rules.first(b) == rules.first(b) * rules.first(a);
    }
  }

  /** What is now around the end of the new content is compatible with what was around the end of the old. */
  lemma {:induction false} NowCompatible(rules: Rules, p: seq<Markup>, q: seq<Markup>, now: seq<Markup>, slice: Slice)
    requires Transitive(rules) && SliceOk(slice) && DepthsAgree(p, q, slice) && JoinsOk(rules, p, q, slice)
    requires now == StackAfter(p, SliceTokens(slice))
    ensures PathsCompatible(rules, q, now)
  {
    StackThrough(p[..|p| - slice.openStart], slice);
    StackCompatible(rules, p, StartPath(p, slice), SliceTokens(slice));
    PathsTransitive(rules, now, EndPath(p, slice), q);
    PathsTurned(rules, now, q);
  }

  /** Where compatibility is transitive, undoing a replacement in a valid document always succeeds. */
  lemma {:induction false} UndoAlways(rules: Rules, doc: Node, step: ReplaceStep)
    requires Transitive(rules) && AllValid(rules, doc) && NodeNormal(doc) && FragmentNormal(step.slice.content)
    requires StepOk(step, doc) && Apply(rules, doc, step).Done?
    ensures StepOk(Inverse(step, doc), Apply(rules, doc, step).value)
    ensures FragmentNormal(Inverse(step, doc).slice.content)
    ensures Apply(rules, Apply(rules, doc, step).value, Inverse(step, doc)) == Done(doc)
  {
    var doc' := Apply(rules, doc, step).value;
    InverseOk(rules, doc, step);
    NormalOk(doc');
    UndoInValid(rules, doc, step);
    AppliedLeadsTo(rules, doc, step, doc');
    var p, q := Path(Resolve(doc, step.from)), Path(Resolve(doc, step.end));
    AppliedJoins(rules, doc, step, p, q);
    PathAfterSplice(doc, step, doc', SliceTokens(step.slice), Inverse(step, doc).end);
    NowCompatible(rules, p, q, Path(Resolve(doc', Inverse(step, doc).end)), step.slice);
  }
}
