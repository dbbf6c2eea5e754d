/** Replacing a stretch of a document by a slice (`replace` and its helpers). */
module Replace {
  import opened Options
  import opened ContentExpr
  import opened Document
  import opened Resolved

  /** What a schema decides: which children a type may have, and which types can come first in it. */
  datatype Rules = Rules(valid: (NodeType, seq<Markup>) -> bool, first: NodeType -> set<NodeType>)

  /** Content of the one type may be put behind content of the other. */
  predicate Compatible(rules: Rules, a: NodeType, b: NodeType) {
    a == b || rules.first(a) * rules.first(b) != {}
  }

  /** A result, or the kind of exception thrown. */
  datatype Outcome<+T> = Done(value: T) | ReplaceError | RangeError {
    predicate IsFailure() {
      !Done?
    }

    function PropagateFailure<U>(): Outcome<U>
      requires !Done?
    {
      if ReplaceError? then Outcome.ReplaceError else Outcome.RangeError
    }

    function Extract(): T
      requires Done?
    {
      value
    }
  }

  /** A piece of a document, cut open on its sides to the given depths. */
  datatype Slice = Slice(content: Fragment, openStart: nat, openEnd: nat) {
    function Size(): int {
      Document.Size(content) - openStart - openEnd
    }
  }

  predicate OpensLeft(f: Fragment, k: nat)
    decreases k
  {
    k > 0 ==> f != [] && f[0].Elem? && OpensLeft(f[0].content, k - 1)
  }

  predicate OpensRight(f: Fragment, k: nat)
    decreases k
  {
    k > 0 ==> f != [] && f[|f| - 1].Elem? && OpensRight(f[|f| - 1].content, k - 1)
  }

  /** The open sides are there to be opened. */
  predicate SliceOk(s: Slice) {
    FragmentOk(s.content) && OpensLeft(s.content, s.openStart) && OpensRight(s.content, s.openEnd)
  }

  // ----- building content -----

  /** Adds a node, running texts with the same markup together. */
  function AddNode(child: Node, target: Fragment): Fragment {
    var last := |target| - 1;
    if last >= 0 && child.Text? && target[last].Text? && child.markup == target[last].markup
    then target[last := Text(child.markup, target[last].text + child.text)]
    else target + [child]
  }

  function AddAll(children: seq<Node>, target: Fragment): Fragment
    decreases |children|
  {
    if children == [] then target else AddAll(children[1..], AddNode(children[0], target))
  }

  /** The part of the text that the position is inside of. */
  function NodeAfter(r: Pos): Node
    requires PosOk(r) && r.At? && TextOffset(r) > 0
  {
    var child := r.node.content[r.index];
    Text(child.markup, child.text[TextOffset(r)..])
  }

  function NodeBefore(r: Pos): Node
    requires PosOk(r) && r.At? && TextOffset(r) > 0
  {
    var child := r.node.content[r.index];
    Text(child.markup, child.text[..TextOffset(r)])
  }

  /** Everything in one node after `start` and before `end`, as far as this level holds it. */
  function AddRange(start: Option<Pos>, end: Option<Pos>, target: Fragment): Fragment
    requires start.Some? || end.Some?
    requires start.Some? ==> PosOk(start.value)
    requires end.Some? ==> PosOk(end.value)
  {
    var content := if end.Some? then end.value.node.content else start.value.node.content;
    var split := start.Some? && start.value.At? && TextOffset(start.value) > 0;
    var first := if start.None? then 0 else if start.value.In? || split then start.value.index + 1
      else start.value.index;
    var last := if end.Some? then end.value.index else |content|;
    var target1 := if split then AddNode(NodeAfter(start.value), target) else target;
    var target2 := if first <= last then AddAll(content[first..last], target1) else target1;
    if end.Some? && end.value.At? && TextOffset(end.value) > 0 then AddNode(NodeBefore(end.value), target2) else target2
  }

  function Markups(f: Fragment): seq<Markup> {
    seq(|f|, i requires 0 <= i < |f| => f[i].markup)
  }

  /** A copy of `node` with checked content. */
  function CloseNode(rules: Rules, node: Node, content: Fragment): Outcome<Node> {
    if rules.valid(node.markup.nodeType, Markups(content)) then Done(Elem(node.markup, content)) else Outcome.RangeError
  }

  function CheckJoin(rules: Rules, main: Node, sub: Node): Outcome<Node> {
    if Compatible(rules, sub.markup.nodeType, main.markup.nodeType) then Done(main) else Outcome.ReplaceError
  }

  // ----- joining -----

  /** Content that runs up to `a` and goes on from `b`. */
  function TwoWay(rules: Rules, a: Pos, b: Pos): Outcome<Fragment>
    requires PosOk(a) && PosOk(b) && Depth(a) == Depth(b)
    decreases a
  {
    var left := AddRange(None, Some(a), []);
    if a.At? then Done(AddRange(Some(b), None, left)) else
      var node :- CheckJoin(rules, a.inner.node, b.inner.node);
      var content :- TwoWay(rules, a.inner, b.inner);
      var closed :- CloseNode(rules, node, content);
      Done(AddRange(Some(b), None, AddNode(closed, left)))
  }

  /** The joined child on one side of the slice, if that side is open here. */
  function JoinedSide(rules: Rules, a: Pos, b: Pos, target: Fragment): Outcome<Fragment>
    requires PosOk(a) && PosOk(b) && Depth(a) == Depth(b)
  {
    if a.At? then Done(target) else
      var content :- TwoWay(rules, a.inner, b.inner);
      var closed :- CloseNode(rules, a.inner.node, content);
      Done(AddNode(closed, target))
  }

  /** Content that runs up to `a`, goes on from `start` to `end` in the slice, and then from `b`. */
  function ThreeWay(rules: Rules, a: Pos, start: Pos, end: Pos, b: Pos): Outcome<Fragment>
    requires PosOk(a) && PosOk(start) && PosOk(end) && PosOk(b)
    requires Depth(a) == Depth(start) && Depth(end) == Depth(b)
    decreases a
  {
    var openStart :- if a.In? then CheckJoin(rules, a.inner.node, start.inner.node) else Done(a.node);
    var openEnd :- if b.In? then CheckJoin(rules, end.inner.node, b.inner.node) else Done(b.node);
    var left := AddRange(None, Some(a), []);
    if a.In? && b.In? && start.index == end.index then
      var _ :- CheckJoin(rules, openStart, openEnd);
      var content :- ThreeWay(rules, a.inner, start.inner, end.inner, b.inner);
      var closed :- CloseNode(rules, openStart, content);
      Done(AddRange(Some(b), None, AddNode(closed, left)))
    else
      var joined :- JoinedSide(rules, a, start, left);
      var middle := AddRange(Some(start), Some(end), joined);
      var whole :- JoinedSide(rules, end, b, middle);
      Done(AddRange(Some(b), None, whole))
  }

  // ----- one level of a join -----

  /** This level of a join: up to `a`, the child joined from `content`, and what is after `b`. */
  function Rejoined(a: Pos, b: Pos, content: Fragment): Fragment
    requires PosOk(a) && PosOk(b) && a.In?
  {
    AddRange(Some(b), None, AddNode(Elem(a.inner.node.markup, content), AddRange(None, Some(a), [])))
  }

  lemma {:induction false} TwoWayIn(rules: Rules, a: Pos, b: Pos)
    requires PosOk(a) && PosOk(b) && Depth(a) == Depth(b) && a.In?
    ensures var r, inner := TwoWay(rules, a, b), TwoWay(rules, a.inner, b.inner);
      r.Done? ==> inner.Done? && r.value == Rejoined(a, b, inner.value)
  {
  }

  lemma {:induction false} ThreeWayIn(rules: Rules, a: Pos, start: Pos, end: Pos, b: Pos)
    requires PosOk(a) && PosOk(start) && PosOk(end) && PosOk(b)
    requires Depth(a) == Depth(start) && Depth(end) == Depth(b)
    requires a.In? && b.In? && start.index == end.index
    ensures var r := ThreeWay(rules, a, start, end, b);
      var inner := ThreeWay(rules, a.inner, start.inner, end.inner, b.inner);
      r.Done? ==> inner.Done? && r.value == Rejoined(a, b, inner.value)
  {
  }

  /** The steps of the three-way join when its ends are not in the same child. */
  function ApartSteps(rules: Rules, a: Pos, start: Pos, end: Pos, b: Pos): Outcome<Fragment>
    requires PosOk(a) && PosOk(start) && PosOk(end) && PosOk(b)
    requires Depth(a) == Depth(start) && Depth(end) == Depth(b)
  {
    var joined :- JoinedSide(rules, a, start, AddRange(None, Some(a), []));
    var whole :- JoinedSide(rules, end, b, AddRange(Some(start), Some(end), joined));
    Done(AddRange(Some(b), None, whole))
  }

  lemma {:induction false} ThreeWayOut(rules: Rules, a: Pos, start: Pos, end: Pos, b: Pos)
    requires PosOk(a) && PosOk(start) && PosOk(end) && PosOk(b)
    requires Depth(a) == Depth(start) && Depth(end) == Depth(b)
    requires !(a.In? && b.In? && start.index == end.index)
    ensures var r := ThreeWay(rules, a, start, end, b); r.Done? ==> r == ApartSteps(rules, a, start, end, b)
  {
  }

  // ----- the slice in the context of the position it goes to -----

  /** The slice's content wrapped in copies of the nodes around `along`, `k` levels deep. */
  function Wrap(slice: Slice, along: Pos, k: nat): Node
    requires k <= Depth(along)
    decreases k
  {
    if k == 0 then Elem(along.node.markup, slice.content)
    else Elem(along.node.markup, [Wrap(slice, along.inner, k - 1)])
  }

  lemma {:induction false} WrapOk(slice: Slice, along: Pos, k: nat)
    requires k <= Depth(along) && SliceOk(slice)
    ensures NodeOk(Wrap(slice, along, k))
    ensures Size(Wrap(slice, along, k).content) == 2 * k + Size(slice.content)
    ensures OpensLeft(Wrap(slice, along, k).content, k + slice.openStart)
    ensures OpensRight(Wrap(slice, along, k).content, k + slice.openEnd)
  {
    if k > 0 {
      WrapOk(slice, along.inner, k - 1);
      TokensOne(Wrap(slice, along.inner, k - 1));
    }
  }

  /** Opening `k` levels takes at least `k` positions on that side, and they never meet. */
  lemma {:induction false} OpensFit(f: Fragment, i: nat, j: nat)
    requires OpensLeft(f, i) && OpensRight(f, j)
    ensures i + j <= Size(f)
    decreases i + j
  {
    if i == 0 && j == 0 {
    } else {
      if |f| == 1 {
        TokensOne(f[0]);
        assert f == [f[0]];
        OpensFit(f[0].content, if i > 0 then i - 1 else 0, if j > 0 then j - 1 else 0);
      } else {
        SizeEnds(f);
        if i > 0 { OpensFit(f[0].content, i - 1, 0); }
        if j > 0 { OpensFit(f[|f| - 1].content, 0, j - 1); }
      }
    }
  }

  lemma {:induction false} SizeEnds(f: Fragment)
    requires |f| > 1
    ensures Size(f) >= NodeSize(f[0]) + NodeSize(f[|f| - 1])
  {
    TokensAround(f[1..], |f| - 2);
  }

  /** Both ends of content that is open `i` levels on the left and `j` levels on the right. */
  function ResolveEnds(node: Node, i: nat, j: nat): (r: (Pos, Pos))
    requires node.Elem? && NodeOk(node) && OpensLeft(node.content, i) && OpensRight(node.content, j)
    ensures PosOk(r.0) && PosOk(r.1) && r.0.node == r.1.node == node
    ensures Offset(r.0) == i && Offset(r.1) == Size(node.content) - j
  {
    OpensFit(node.content, i, j);
    (Resolve(node, i), Resolve(node, Size(node.content) - j))
  }

  /** The wrapped slice, as many levels deep as the position is outside of the slice. */
  function Wrapped(slice: Slice, along: Pos): (n: Node)
    requires SliceOk(slice) && slice.openStart <= Depth(along)
    ensures n.Elem? && NodeOk(n)
    ensures OpensLeft(n.content, Depth(along))
    ensures OpensRight(n.content, Depth(along) - slice.openStart + slice.openEnd)
  {
    WrapOk(slice, along, Depth(along) - slice.openStart);
    Wrap(slice, along, Depth(along) - slice.openStart)
  }

  /** Both ends of the slice, resolved in the wrapped slice (`prepareSliceForReplace`). */
  function PrepareSlice(slice: Slice, along: Pos): (r: (Pos, Pos))
    requires SliceOk(slice) && slice.openStart <= Depth(along)
    ensures PosOk(r.0) && PosOk(r.1)
  {
    var extra := Depth(along) - slice.openStart;
    ResolveEnds(Wrapped(slice, along), slice.openStart + extra, slice.openEnd + extra)
  }
}
