/** Model of LeafTraverser.cpp: walking over the leaves with indices begin..end of a tree,
    creating the missing ones, growing the old last leaf where the walk goes past it, and
    changing the depth of the tree as needed.

    The callbacks are a `Visitor`; what the walk did is its result tree together with the
    `trace` of leaf callbacks in the order in which they were made. */
module LeafTraverser {
  import opened Bytes
  import opened BlobMath
  import opened BlobTree

  datatype Visit = Existing(index: nat, isRightBorder: bool, leaf: LeafData) | Created(index: nat)

  /** `trim` is the onBacktrackFromSubtree callback: None does nothing, Some(n) is the one by
      which resizing deletes the children that a tree of `n` leaves does not need. */
  datatype Visitor = Visitor(
    onExisting: (nat, bool, LeafData) -> LeafData,
    onCreate: nat -> LeafData,
    trim: Option<nat>)

  datatype Outcome = Outcome(tree: Tree, trace: seq<Visit>)
  datatype Outcomes = Outcomes(trees: seq<Tree>, trace: seq<Visit>)

  /** Leaf indices `begin..end`, relative to the subtree whose first leaf is number `offset`. */
  datatype Span = Span(begin: nat, end: nat, offset: nat)

  function Zeros(n: nat): LeafData {
    Repeat(0, n)
  }

  /** DataLeafNode::resize, on the bytes of the leaf. */
  function ResizeLeaf(x: LeafData, size: nat): (r: LeafData)
    ensures |r| == size
    ensures |x| == size ==> r == x
  {
    if size <= |x| then x[..size] else x + Zeros(size - |x|)
  }

  // ----- Trimming

  /** The children that the right border node at `depth` keeps in a tree of `numLeaves` leaves. */
  function NeededChildren(l: Layout, numLeaves: nat, depth: nat): int
    requires depth > 0
  {
    var neededOnChildLevel := CeilDivision(numLeaves, MaxLeaves(l, depth - 1));
    var neededSiblings := CeilDivision(neededOnChildLevel, l.maxChildren);
    neededOnChildLevel - (neededSiblings - 1) * l.maxChildren
  }

  function Backtrack(l: Layout, v: Visitor, depth: nat, children: seq<Tree>): seq<Tree>
    requires depth > 0
  {
    if v.trim.None? then children
    else
      var needed := NeededChildren(l, v.trim.value, depth);
      if 0 <= needed < |children| then children[..needed] else children
  }

  // ----- The walk

  function ChildSpan(s: Span, k: nat, j: nat): Span {
    Span(Min(k, MaxZeroSubtraction(s.begin, j * k)), Min(k, MaxZeroSubtraction(s.end, j * k)), s.offset + j * k)
  }

  function BeginChild(s: Span, k: nat): nat
    requires k > 0
  {
    s.begin / k
  }

  function Create(l: Layout, v: Visitor, s: Span, depth: nat): Outcome
    decreases depth, 1, 0
  {
    if depth == 0 then
      if s.begin == 0 then Outcome(Leaf(v.onCreate(s.offset)), [Created(s.offset)])
      else Outcome(Leaf(Zeros(l.maxBytes)), [])
    else
      var r := CreateChildren(l, v, s, depth, 0);
      Outcome(Inner(depth, if s.begin < s.end then Backtrack(l, v, depth, r.trees) else r.trees), r.trace)
  }

  /** New children from number `j` on; those left of the walk are filled with zeroes. */
  function CreateChildren(l: Layout, v: Visitor, s: Span, depth: nat, j: nat): Outcomes
    requires depth > 0
    decreases depth, 0, CeilDivision(s.end, MaxLeaves(l, depth - 1)) - j
  {
    var k := MaxLeaves(l, depth - 1);
    if j >= CeilDivision(s.end, k) then Outcomes([], [])
    else
      var r := Create(l, v, ChildSpan(s, k, j), depth - 1);
      var rest := CreateChildren(l, v, s, depth, j + 1);
      Outcomes([r.tree] + rest.trees, r.trace + rest.trace)
  }

  function Traverse(l: Layout, v: Visitor, t: Tree, s: Span, isLeft: bool, isRight: bool, grow: bool): Outcome
    decreases t, 2, 0
  {
    match t
    case Leaf(data) =>
      var x := if grow then ResizeLeaf(data, l.maxBytes) else data;
      if s.begin == 0 && s.end == 1
      then Outcome(Leaf(v.onExisting(s.offset, isRight, x)), [Existing(s.offset, isRight, x)])
      else Outcome(Leaf(x), [])
    case Inner(depth, children) =>
      if depth == 0 then Outcome(t, [])   // no inner node looks like this
      else
        var existing := TraverseChildren(l, v, t, s, isLeft, isRight, grow, 0);
        var created := CreateChildren(l, v, s, depth, |children|);
        var all := existing.trees + created.trees;
        Outcome(Inner(depth, if s.begin < s.end then Backtrack(l, v, depth, all) else all), existing.trace + created.trace)
  }

  /** The existing children from number `j` on. */
  function TraverseChildren(l: Layout, v: Visitor, t: Tree, s: Span, isLeft: bool, isRight: bool, grow: bool, j: nat): Outcomes
    requires t.Inner? && t.depth > 0
    decreases t, 1, |t.children| - j
  {
    if j >= |t.children| then Outcomes([], [])
    else
      var r := TraverseChild(l, v, t, s, isLeft, isRight, grow, j);
      var rest := TraverseChildren(l, v, t, s, isLeft, isRight, grow, j + 1);
      Outcomes([r.tree] + rest.trees, r.trace + rest.trace)
  }

  /** Child `j` is walked over if it lies in the walk. The last child is also entered if the
      walk begins to the right of it, only to fill it up and to grow the old last leaf. */
  function TraverseChild(l: Layout, v: Visitor, t: Tree, s: Span, isLeft: bool, isRight: bool, grow: bool, j: nat): Outcome
    requires t.Inner? && t.depth > 0 && j < |t.children|
    decreases t, 0, 0
  {
    var k, n := MaxLeaves(l, t.depth - 1), |t.children|;
    var beginChild, endChild := BeginChild(s, k), CeilDivision(s.end, k);
    if beginChild >= n && isLeft && j == n - 1 then
      Traverse(l, v, t.children[j], Span(k, k, j * k), true, false, true)
    else if beginChild <= j < endChild then
      Traverse(l, v, t.children[j], ChildSpan(s, k, j), isLeft && j == beginChild,
               isRight && j == n - 1 && n == endChild, (grow || endChild > n) && j == n - 1)
    else Outcome(t.children[j], [])
  }

  /** _traverseAndUpdateRoot: walk as far as the depth allows, then add a level and go on. */
  function TraverseRoot(l: Layout, v: Visitor, t: Tree, begin: nat, end: nat, isLeft: bool): Outcome
    decreases MaxZeroSubtraction(end, MaxLeaves(l, Depth(t)))
  {
    var max := MaxLeaves(l, Depth(t));
    var deeper := end > max;
    var r :=
      if t.Leaf? then
        var x := if deeper then ResizeLeaf(t.data, l.maxBytes) else t.data;
        if begin == 0 && end >= 1
        then Outcome(Leaf(v.onExisting(0, end == 1, x)), [Existing(0, end == 1, x)])
        else Outcome(Leaf(x), [])
      else Traverse(l, v, t, Span(Min(begin, max), Min(end, max), 0), isLeft, !deeper, deeper);
    if deeper then
      PowMono(l.maxChildren, Depth(t));
      var rest := TraverseRoot(l, v, Inner(Depth(t) + 1, [r.tree]), Max(begin, max), end, false);
      Outcome(rest.tree, r.trace + rest.trace)
    else Outcome(Collapse(r.tree), r.trace)
  }

  /** _whileRootHasOnlyOneChildReplaceRootWithItsChild */
  function Collapse(t: Tree): Tree
    decreases t
  {
    if t.Inner? && |t.children| == 1 then Collapse(t.children[0]) else t
  }

  /** The callbacks of a resize to `n` leaves, the last of them with `size` bytes. */
  function ResizingVisitor(n: nat, size: nat): Visitor {
    Visitor((_, _, x) => ResizeLeaf(x, size), _ => Zeros(size), Some(n))
  }

  // ----- What the walk does to the sequence of leaves

  /** A leaf position before the callbacks: an old leaf as the walk presents it, or a new one. */
  datatype Slot = Old(leaf: LeafData, isRightBorder: bool) | New

  function LeafAfter(l: Layout, v: Visitor, slot: Slot, visited: bool, index: nat): LeafData {
    match slot
    case Old(leaf, isRightBorder) => if visited then v.onExisting(index, isRightBorder, leaf) else leaf
    case New => if visited then v.onCreate(index) else Zeros(l.maxBytes)
  }

  function VisitOf(slot: Slot, index: nat): Visit {
    match slot
    case Old(leaf, isRightBorder) => Existing(index, isRightBorder, leaf)
    case New => Created(index)
  }

  /** A walk, seen on the sequence `x` of leaves that its subtree holds. */
  datatype Walk = Walk(l: Layout, v: Visitor, x: seq<LeafData>, s: Span, isRight: bool, grow: bool) {

    /** Position `i`: an old leaf keeps its bytes, except that the old last leaf is grown to
        full size if the walk goes past it. */
    function SlotAt(i: nat): Slot {
      if i < |x| then
        Old(if i == |x| - 1 && (grow || s.end > |x|) then ResizeLeaf(x[i], l.maxBytes) else x[i],
            isRight && i == |x| - 1 && s.end == |x|)
      else New
    }

    predicate Trims() { v.trim.Some? && s.begin < s.end }

    function Count(): nat { if Trims() then s.end else Max(|x|, s.end) }

    function LeafAt(i: nat): LeafData { LeafAfter(l, v, SlotAt(i), s.begin <= i < s.end, s.offset + i) }

    /** The leaves after the walk. */
    function After(): (r: seq<LeafData>)
      ensures |r| == Count()
      ensures forall i | 0 <= i < |r| :: r[i] == LeafAt(i)
    {
      seq(Count(), i requires 0 <= i => LeafAt(i))
    }

    /** The callbacks for the positions `a..b`, in order. */
    function Visits(a: nat, b: nat): (r: seq<Visit>)
      ensures |r| == MaxZeroSubtraction(b, a)
      ensures forall i | 0 <= i < |r| :: r[i] == VisitOf(SlotAt(a + i), s.offset + (a + i))
    {
      seq(MaxZeroSubtraction(b, a), i requires 0 <= i => VisitOf(SlotAt(a + i), s.offset + (a + i)))
    }

    function Trace(): seq<Visit> { Visits(s.begin, s.end) }
  }
}
