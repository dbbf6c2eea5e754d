/** The undo history over replace steps: merging and inverting them do what the history asks of steps. */
module ReplaceHistory {
  import opened Options
  import opened Document
  import opened Replace
  import opened Normal
  import opened Joins
  import opened ReplaceStep
  import opened Merges
  import opened TransitiveRules
  import opened Branches
  import opened PopEvents
  import opened HistoryRuns

  /** A document as the editor holds it: texts are run together, and all content is valid. */
  predicate Sound(rules: Rules, doc: Node) {
    doc.Elem? && NodeNormal(doc) && AllValid(rules, doc)
  }

  predicate Applies(rules: Rules, s: ReplaceStep, doc: Node, doc': Node) {
    && Sound(rules, doc) && StepOk(s, doc) && FragmentNormal(s.slice.content)
    && Apply(rules, doc, s) == Done(doc') && Sound(rules, doc')
  }

  function Applied(rules: Rules, s: ReplaceStep, doc: Node): Option<Node> {
    if StepOk(s, doc) && Apply(rules, doc, s).Done? && Applies(rules, s, doc, Apply(rules, doc, s).value)
    then Some(Apply(rules, doc, s).value) else None
  }

  /** The history's view of replace steps; how they are mapped is left open. */
  function ReplaceOps<B>(rules: Rules, mapStep: (ReplaceStep, View) -> Option<ReplaceStep>, mapMark: (B, View) -> B)
    : Ops<Node, ReplaceStep, B>
  {
    Ops((s: ReplaceStep, doc) => Applied(rules, s, doc),
        (s: ReplaceStep, t: ReplaceStep) => if t.from <= t.end then Merge(s, t) else None,
        (s: ReplaceStep) => if SliceOk(s.slice) && s.from <= s.end then PositionMap(s)
                            else StepMaps.StepMap([], false),
        mapStep, mapMark)
  }

  lemma {:induction false} MergedApplies(rules: Rules, s: ReplaceStep, t: ReplaceStep, m: ReplaceStep, doc: Node,
          mid: Node, doc': Node)
    requires Transitive(rules) && Applies(rules, s, doc, mid) && Applies(rules, t, mid, doc') && Merge(s, t) == Some(m)
    ensures Applies(rules, m, doc, doc')
  {
    MergeDoesBoth(rules, doc, s, mid, t, doc', m);
  }

  /** A merged step does what the two do. */
  lemma {:induction false} ReplaceMerges<B>(rules: Rules, mapStep: (ReplaceStep, View) -> Option<ReplaceStep>,
          mapMark: (B, View) -> B)
    requires Transitive(rules)
    ensures MergesRight(ReplaceOps(rules, mapStep, mapMark))
  {
    var ops := ReplaceOps(rules, mapStep, mapMark);
    forall first, second, doc: Node, mid: Node |
      ops.merge(first, second).Some? && ops.apply(first, doc) == Some(mid) && ops.apply(second, mid).Some?
      ensures ops.apply(ops.merge(first, second).value, doc) == ops.apply(second, mid)
    {
      MergedApplies(rules, first, second, ops.merge(first, second).value, doc, mid, ops.apply(second, mid).value);
    }
  }

  // ----- changes made by replace steps -----

  /** Each step can be asked about the document before it. */
  predicate Asked(steps: seq<ReplaceStep>, docs: seq<Node>) {
    |docs| == |steps| + 1 && forall i | 0 <= i < |steps| :: StepOk(steps[i], docs[i])
  }

  /** The steps lead from each document to the next. */
  predicate Goes(rules: Rules, steps: seq<ReplaceStep>, docs: seq<Node>) {
    Asked(steps, docs) && forall i | 0 <= i < |steps| :: Applies(rules, steps[i], docs[i], docs[i + 1])
  }

  /** What the history is told about them: their maps, and their inverses. */
  function MadeBy(steps: seq<ReplaceStep>, docs: seq<Node>): (made: seq<Made<ReplaceStep>>)
    requires Asked(steps, docs)
    ensures |made| == |steps|
    ensures forall i | 0 <= i < |steps| :: made[i] == Made(PositionMap(steps[i]), Inverse(steps[i], docs[i]))
  {
    seq(|steps|, i requires 0 <= i < |steps| => Made(PositionMap(steps[i]), Inverse(steps[i], docs[i])))
  }

  lemma {:induction false} InverseApplies(rules: Rules, s: ReplaceStep, doc: Node, doc': Node)
    requires Transitive(rules) && Applies(rules, s, doc, doc')
    ensures Applies(rules, Inverse(s, doc), doc', doc)
  {
    UndoAlways(rules, doc, s);
  }

  lemma {:induction false} ReplaceTakesBack<B>(rules: Rules, mapStep: (ReplaceStep, View) -> Option<ReplaceStep>,
          mapMark: (B, View) -> B, steps: seq<ReplaceStep>, docs: seq<Node>)
    requires Transitive(rules) && Goes(rules, steps, docs)
    ensures TakesBack(ReplaceOps(rules, mapStep, mapMark), MadeBy(steps, docs), docs)
  {
    var ops, made := ReplaceOps(rules, mapStep, mapMark), MadeBy(steps, docs);
    forall i | 0 <= i < |steps|
      ensures ops.apply(made[i].inverse, docs[i + 1]) == Some(docs[i])
    {
      assert Applies(rules, steps[i], docs[i], docs[i + 1]);
      InverseApplies(rules, steps[i], docs[i], docs[i + 1]);
    }
  }

  // ----- whole runs -----

  /** A change made by replace steps. */
  ghost predicate MadeOfSteps<B>(rules: Rules, call: Call<Node, ReplaceStep, B>)
    requires call.Change?
  {
    exists steps :: Goes(rules, steps, call.docs) && call.steps == MadeBy(steps, call.docs)
  }

  /** Changes start from the document there is, and there is something to undo. */
  ghost predicate Fits<B>(rules: Rules, depth: nat, doc: Node, calls: seq<Call<Node, ReplaceStep, B>>) {
    calls == [] ||
    var init, call := calls[..|calls| - 1], calls[|calls| - 1];
    && Fits(rules, depth, doc, init)
    && if call.Change? then MadeOfSteps(rules, call) && call.docs[0] == Current(doc, init, depth)
       else Stack(init, depth) != []
  }

  /** What the history is asked to do can be done. */
  lemma {:induction false} CanChange<B>(rules: Rules, mapStep: (ReplaceStep, View) -> Option<ReplaceStep>,
          mapMark: (B, View) -> B, depth: nat, c: Config<Node, ReplaceStep, B>, call: Call<Node, ReplaceStep, B>)
    returns (c': Config<Node, ReplaceStep, B>)
    requires Transitive(rules) && call.Change? && MadeOfSteps(rules, call) && call.docs[0] == c.doc
    ensures Moves(ReplaceOps(rules, mapStep, mapMark), depth, c, call, c')
  {
    var ops := ReplaceOps(rules, mapStep, mapMark);
    var steps :| Goes(rules, steps, call.docs) && call.steps == MadeBy(steps, call.docs);
    ReplaceTakesBack(rules, mapStep, mapMark, steps, call.docs);
    c' := Recorded(ops, depth, c, call);
  }

  function Recorded<D, S, B>(ops: Ops<D, S, B>, depth: nat, c: Config<D, S, B>, call: Call<D, S, B>): Config<D, S, B>
    requires call.Change? && |call.docs| == |call.steps| + 1
  {
    var (items, count) := Added(ops, c.state.items, c.state.eventCount, call.steps, call.selection, depth, false);
    Config(State(items, count), call.docs[|call.steps|])
  }

  lemma {:induction false} CanUndo<D, S, B>(ops: Ops<D, S, B>, depth: nat, stack: seq<D>, c: Config<D, S, B>)
    returns (c': Config<D, S, B>)
    requires HoldsStack(ops, c, stack) && stack != []
    ensures Moves(ops, depth, c, Call.Undo, c')
  {
    StartsSteps(ops, c.state.items, c.doc);
    var (items, doc, _) := TakenBack(ops, c.state.items, c.doc, false);
    c' := Config(State(items, c.state.eventCount - 1), doc);
  }

  lemma {:induction false} CanMove<B>(rules: Rules, mapStep: (ReplaceStep, View) -> Option<ReplaceStep>,
          mapMark: (B, View) -> B, depth: nat, doc: Node, calls: seq<Call<Node, ReplaceStep, B>>,
          c: Config<Node, ReplaceStep, B>)
    returns (c': Config<Node, ReplaceStep, B>)
    requires Transitive(rules) && calls != [] && Fits(rules, depth, doc, calls)
    requires AsStack(ReplaceOps(rules, mapStep, mapMark), depth, doc, calls[..|calls| - 1], c)
    ensures Moves(ReplaceOps(rules, mapStep, mapMark), depth, c, calls[|calls| - 1], c')
  {
    var call := calls[|calls| - 1];
    if call.Change? {
      c' := CanChange(rules, mapStep, mapMark, depth, c, call);
    } else {
      c' := CanUndo(ReplaceOps(rules, mapStep, mapMark), depth, Stack(calls[..|calls| - 1], depth), c);
    }
  }

  lemma {:induction false} HappensNext<D, S, B>(ops: Ops<D, S, B>, depth: nat, doc: D, calls: seq<Call<D, S, B>>,
          before: seq<Config<D, S, B>>, next: Config<D, S, B>)
    requires calls != [] && Happens(ops, depth, doc, calls[..|calls| - 1], before)
    requires Moves(ops, depth, before[|calls| - 1], calls[|calls| - 1], next)
    ensures Happens(ops, depth, doc, calls, before + [next])
  {
    assert (before + [next])[..|calls|] == before;
  }

  lemma {:induction false} RunIsStack<B>(rules: Rules, mapStep: (ReplaceStep, View) -> Option<ReplaceStep>,
          mapMark: (B, View) -> B, depth: nat, doc: Node, calls: seq<Call<Node, ReplaceStep, B>>,
          configs: seq<Config<Node, ReplaceStep, B>>)
    requires Transitive(rules) && depth >= 2
    requires Happens(ReplaceOps(rules, mapStep, mapMark), depth, doc, calls, configs)
    ensures AsStack(ReplaceOps(rules, mapStep, mapMark), depth, doc, calls, configs[|calls|])
  {
    ReplaceMerges(rules, mapStep, mapMark);
    HistoryIsStack(ReplaceOps(rules, mapStep, mapMark), depth, doc, calls, configs);
  }

  /** A run and the stack it holds. */
  ghost predicate RunsAsStack<D, S, B>(ops: Ops<D, S, B>, depth: nat, doc: D, calls: seq<Call<D, S, B>>,
          configs: seq<Config<D, S, B>>)
  {
    Happens(ops, depth, doc, calls, configs) && AsStack(ops, depth, doc, calls, configs[|calls|])
  }

  lemma {:induction false} FollowsNext<B>(rules: Rules, mapStep: (ReplaceStep, View) -> Option<ReplaceStep>,
          mapMark: (B, View) -> B, depth: nat, doc: Node, calls: seq<Call<Node, ReplaceStep, B>>,
          before: seq<Config<Node, ReplaceStep, B>>)
    returns (configs: seq<Config<Node, ReplaceStep, B>>)
    requires Transitive(rules) && depth >= 2 && calls != [] && Fits(rules, depth, doc, calls)
    requires RunsAsStack(ReplaceOps(rules, mapStep, mapMark), depth, doc, calls[..|calls| - 1], before)
    ensures RunsAsStack(ReplaceOps(rules, mapStep, mapMark), depth, doc, calls, configs)
  {
    var next := CanMove(rules, mapStep, mapMark, depth, doc, calls, before[|calls| - 1]);
    HappensNext(ReplaceOps(rules, mapStep, mapMark), depth, doc, calls, before, next);
    configs := before + [next];
    RunIsStack(rules, mapStep, mapMark, depth, doc, calls, configs);
  }

  /**
   * Whatever is changed by replace steps and undone, from a sound document on: the history can
   * follow, and is the bounded stack of the documents in which the events began.
   */
  lemma {:induction false} ReplaceHistoryIsStack<B>(rules: Rules, mapStep: (ReplaceStep, View) -> Option<ReplaceStep>,
          mapMark: (B, View) -> B, depth: nat, doc: Node, calls: seq<Call<Node, ReplaceStep, B>>)
    returns (configs: seq<Config<Node, ReplaceStep, B>>)
    requires Transitive(rules) && depth >= 2 && Fits(rules, depth, doc, calls)
    ensures RunsAsStack(ReplaceOps(rules, mapStep, mapMark), depth, doc, calls, configs)
    decreases |calls|
  {
    if calls == [] {
      configs := [Config(State([], 0), doc)];
      RunIsStack(rules, mapStep, mapMark, depth, doc, calls, configs);
    } else {
      var before := ReplaceHistoryIsStack(rules, mapStep, mapMark, depth, doc, calls[..|calls| - 1]);
      configs := FollowsNext(rules, mapStep, mapMark, depth, doc, calls, before);
    }
  }
}
