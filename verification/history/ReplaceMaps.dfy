/** The maps in the undo history over replace steps: they account for every token of the document. */
module ReplaceMaps {
  import opened Options
  import opened StepMaps
  import opened Document
  import opened Replace
  import opened Splice
  import opened ReplaceStep
  import opened Merges
  import opened Branches
  import opened ReplaceHistory
  import opened MapRuns

  /** What the one range of the map leaves out is the same in both documents. */
  ghost predicate Accounts(m: StepMap, doc: Node, doc': Node) {
    && doc.Elem? && doc'.Elem? && |m.ranges| == 1
    && var t, t', r := Tokens(doc.content), Tokens(doc'.content), m.ranges[0];
    var size, size' := if m.inverted then r.newSize else r.oldSize, if m.inverted then r.oldSize else r.newSize;
    && 0 <= r.start && r.start + size <= |t| && r.start + size' <= |t'|
    && t[..r.start] == t'[..r.start] && t[r.start + size..] == t'[r.start + size'..]
  }

  lemma {:induction false} MapAccounts(rules: Rules, s: ReplaceStep, doc: Node, doc': Node)
    requires Applies(rules, s, doc, doc')
    ensures SliceOk(s.slice) && s.from <= s.end && Accounts(PositionMap(s), doc, doc')
  {
    ApplyTokens(rules, doc, s);
    SliceSizeOk(s.slice);
    SpliceParts(Tokens(doc.content), s.from, s.end, SliceTokens(s.slice));
  }

  /** The history over replace steps keeps the laws, with maps that account for the tokens. */
  lemma {:induction false} ReplaceLawful<B>(rules: Rules, mapStep: (ReplaceStep, View) -> Option<ReplaceStep>,
          mapMark: (B, View) -> B)
    requires Transitive(rules)
    ensures Lawful(ReplaceOps(rules, mapStep, mapMark), (m, x, y) => Accounts(m, x, y))
  {
    var ops := ReplaceOps(rules, mapStep, mapMark);
    ReplaceMerges(rules, mapStep, mapMark);
    forall s, x, y | ops.apply(s, x) == Some(y)
      ensures Accounts(ops.getMap(s), x, y)
    {
      MapAccounts(rules, s, x, y);
    }
  }

  lemma {:induction false} ReplaceStepsLead<B>(rules: Rules, mapStep: (ReplaceStep, View) -> Option<ReplaceStep>,
          mapMark: (B, View) -> B, steps: seq<ReplaceStep>, docs: seq<Node>)
    requires Transitive(rules) && ReplaceHistory.Goes(rules, steps, docs)
    ensures StepsLead(ReplaceOps(rules, mapStep, mapMark), (m, x, y) => Accounts(m, x, y), MadeBy(steps, docs), docs)
  {
    ReplaceTakesBack(rules, mapStep, mapMark, steps, docs);
    forall i | 0 <= i < |steps|
      ensures Accounts(MadeBy(steps, docs)[i].stepMap, docs[i], docs[i + 1])
    {
      MapAccounts(rules, steps[i], docs[i], docs[i + 1]);
    }
  }
}
