/** LeafTraverser.cpp with the word sizes and the assertions of the source: leaf indices and leaf
    counts are 32-bit numbers, a failed assertion or a division by zero is an error, and a node
    deeper than MAX_DEPTH cannot be loaded. The numerical estimate of the needed depth in
    _createNewSubtree (a logarithm) is not modelled. */
module WordTraverser {
  import opened Bytes
  import opened BlobMath
  import opened BlobTree
  import opened LeafTraverser

  const MAX_DEPTH: nat := 10

  function ChildSpan32(s: Span, k: nat, j: nat): Span {
    var base := Word32(j * k);
    Span(Min(k, MaxZeroSubtraction(s.begin, base)), Min(k, Minus32(s.end, base)), Word32(s.offset + base))
  }

  /** The trimming callback of resizeNumBytes. Subtractions wrap around. */
  function NeededChildren32(l: Layout, numLeaves: nat, depth: nat): nat
    requires depth > 0 && MaxLeaves32(l, depth - 1) > 0
  {
    var neededOnChildLevel := CeilDivision32(numLeaves, MaxLeaves32(l, depth - 1));
    var neededSiblings := CeilDivision32(neededOnChildLevel, l.maxChildren);
    (neededOnChildLevel - (neededSiblings - 1) * l.maxChildren) % U32_SIZE
  }

  function Backtrack32(l: Layout, v: Visitor, depth: nat, children: seq<Tree>): Result<seq<Tree>>
    requires depth > 0 && MaxLeaves32(l, depth - 1) > 0
  {
    if v.trim.None? then Ok(children)
    else
      var needed := NeededChildren32(l, v.trim.value, depth);
      if needed > |children| then Err("too few children")
      else if needed == 0 then Err("no child left")
      else Ok(children[..needed])
  }

  /** The children of a node, trimmed if a leaf was visited below it. */
  function Kept32(l: Layout, v: Visitor, s: Span, depth: nat, children: seq<Tree>): Result<seq<Tree>>
    requires depth > 0 && MaxLeaves32(l, depth - 1) > 0
  {
    if s.begin < s.end then Backtrack32(l, v, depth, children) else Ok(children)
  }

  function Create32(l: Layout, v: Visitor, s: Span, depth: nat): Result<Outcome>
    decreases depth, 1, 0
  {
    if s.begin > s.end then Err("invalid parameters")
    else if depth == 0 then
      if s.begin > 1 || s.end != 1 then Err("more than one leaf")
      else if s.begin == 0 then Ok(Outcome(Leaf(v.onCreate(s.offset)), [Created(s.offset)]))
      else Ok(Outcome(Leaf(Zeros(l.maxBytes)), []))
    else if MaxLeaves32(l, depth - 1) == 0 then Err("division by zero")
    else
      var r :- CreateChildren32(l, v, s, depth, 0);
      if r.trees == [] then Err("no children created")
      else
        var kept :- Kept32(l, v, s, depth, r.trees);
        Ok(Outcome(Inner(depth, kept), r.trace))
  }

  function CreateChildren32(l: Layout, v: Visitor, s: Span, depth: nat, j: nat): Result<Outcomes>
    requires depth > 0 && MaxLeaves32(l, depth - 1) > 0
    decreases depth, 0, CeilDivision32(s.end, MaxLeaves32(l, depth - 1)) - j
  {
    var k := MaxLeaves32(l, depth - 1);
    if j >= CeilDivision32(s.end, k) then Ok(Outcomes([], []))
    else
      var r :- Create32(l, v, ChildSpan32(s, k, j), depth - 1);
      var rest :- CreateChildren32(l, v, s, depth, j + 1);
      Ok(Outcomes([r.tree] + rest.trees, r.trace + rest.trace))
  }

  /** How a walk enters a subtree. */
  datatype Flags = Flags(isLeft: bool, isRight: bool, grow: bool, readOnly: bool)

  function Traverse32(l: Layout, v: Visitor, t: Tree, s: Span, f: Flags): Result<Outcome>
    decreases t, 2, 0
  {
    match t
    case Leaf(data) =>
      if s.begin > 1 || s.end > 1 then Err("more than one leaf")
      else if f.grow && f.readOnly && |data| != l.maxBytes then Err("grows in a read-only traversal")
      else
        var x := if f.grow then ResizeLeaf(data, l.maxBytes) else data;
        if s.begin == 0 && s.end == 1
        then Ok(Outcome(Leaf(v.onExisting(s.offset, f.isRight, x)), [Existing(s.offset, f.isRight, x)]))
        else Ok(Outcome(Leaf(x), []))
    case Inner(depth, children) =>
      if depth == 0 then Err("wrong depth")
      else if s.begin > s.end then Err("invalid parameters")
      else if MaxLeaves32(l, depth - 1) == 0 then Err("division by zero")
      else
        var endChild, n := CeilDivision32(s.end, MaxLeaves32(l, depth - 1)), |children|;
        if endChild > l.maxChildren then Err("needs another level")
        else if f.grow && endChild < n then Err("grows a leaf that is not the last")
        else if f.readOnly && endChild > n then Err("out of bounds in a read-only traversal")
        else
          var existing :- TraverseChildren32(l, v, t, s, f, 0);
          var created :- CreateChildren32(l, v, s, depth, n);
          var kept :- Kept32(l, v, s, depth, existing.trees + created.trees);
          Ok(Outcome(Inner(depth, kept), existing.trace + created.trace))
  }

  function TraverseChildren32(l: Layout, v: Visitor, t: Tree, s: Span, f: Flags, j: nat): Result<Outcomes>
    requires t.Inner? && t.depth > 0 && MaxLeaves32(l, t.depth - 1) > 0
    decreases t, 1, |t.children| - j
  {
    if j >= |t.children| then Ok(Outcomes([], []))
    else
      var r :- TraverseChild32(l, v, t, s, f, j);
      var rest :- TraverseChildren32(l, v, t, s, f, j + 1);
      Ok(Outcomes([r.tree] + rest.trees, r.trace + rest.trace))
  }

  function TraverseChild32(l: Layout, v: Visitor, t: Tree, s: Span, f: Flags, j: nat): Result<Outcome>
    requires t.Inner? && t.depth > 0 && MaxLeaves32(l, t.depth - 1) > 0 && j < |t.children|
    decreases t, 0, 0
  {
    var k, n := MaxLeaves32(l, t.depth - 1), |t.children|;
    var beginChild, endChild := BeginChild(s, k), CeilDivision32(s.end, k);
    var tooDeep := t.children[j].Inner? && t.depth - 1 > MAX_DEPTH;
    if beginChild >= n && f.isLeft && j == n - 1 then
      if tooDeep then Err("tree is too deep")
      else Traverse32(l, v, t.children[j], Span(k, k, Word32(j * k)), Flags(true, false, true, f.readOnly))
    else if beginChild <= j < endChild then
      if tooDeep then Err("tree is too deep")
      else Traverse32(l, v, t.children[j], ChildSpan32(s, k, j),
                      Flags(f.isLeft && j == beginChild, f.isRight && j == n - 1 && n == endChild, (f.grow || endChild > n) && j == n - 1, f.readOnly))
    else Ok(Outcome(t.children[j], []))
  }

  /** The walk over the part of begin..end that the depth of the tree is thought to hold. */
  function FirstOutcome32(l: Layout, v: Visitor, t: Tree, begin: nat, end: nat, isLeft: bool, readOnly: bool): Result<Outcome> {
    var max := MaxLeaves32(l, Depth(t));
    var deeper := end > max;
    if t.Leaf? then
      var x := if deeper then ResizeLeaf(t.data, l.maxBytes) else t.data;
      if begin == 0 && end >= 1
      then Ok(Outcome(Leaf(v.onExisting(0, end == 1, x)), [Existing(0, end == 1, x)]))
      else Ok(Outcome(Leaf(x), []))
    else Traverse32(l, v, t, Span(Min(begin, max), Min(end, max), 0), Flags(isLeft, !deeper, deeper, readOnly))
  }

  /** _traverseAndUpdateRoot */
  function TraverseRoot32(l: Layout, v: Visitor, t: Tree, begin: nat, end: nat, isLeft: bool, readOnly: bool): Result<Outcome>
    decreases MaxZeroSubtraction(MAX_DEPTH + 1, Depth(t))
  {
    var max := MaxLeaves32(l, Depth(t));
    if begin > end then Err("invalid parameters")
    else if readOnly && end > max then Err("grows in a read-only traversal")
    else
      var r :- FirstOutcome32(l, v, t, begin, end, isLeft, readOnly);
      if end > max then
        if Depth(t) > MAX_DEPTH then Err("tree is too deep")
        else
          var rest :- TraverseRoot32(l, v, Inner(Depth(t) + 1, [r.tree]), Max(begin, max), end, false, readOnly);
          Ok(Outcome(rest.tree, r.trace + rest.trace))
      else if readOnly && r.tree.Inner? && |r.tree.children| == 1 then Err("collapses in a read-only traversal")
      else Ok(Outcome(Collapse(r.tree), r.trace))
  }
}
