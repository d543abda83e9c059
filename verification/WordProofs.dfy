/** When the walk in 32 bits is the walk on unbounded numbers, and what goes wrong otherwise. */
module WordProofs {
  import opened Bytes
  import opened BlobMath
  import opened BlobTree
  import opened LeafTraverser
  import opened TraversalProofs
  import opened WordTraverser

  // ----- The arithmetic of one node

  /** The sums that a node at depth `d` computes do not overflow. */
  ghost predicate Fits(w: Walk, d: nat) {
    && w.s.offset + w.s.end < U32_SIZE
    && (d > 0 ==> w.s.offset + w.s.end + MaxLeaves(w.l, d - 1) - 1 < U32_SIZE)
    && (d > 0 ==> w.s.offset + w.s.end + w.l.maxChildren - 1 < U32_SIZE)
  }

  lemma NodeExact(w: Walk, d: nat)
    requires d > 0 && Fits(w, d) && w.s.end >= 1
    ensures var k := MaxLeaves(w.l, d - 1);
            k < U32_SIZE && MaxLeaves32(w.l, d - 1) == k && CeilDivision32(w.s.end, k) == CeilDivision(w.s.end, k)
  {
    MaxLeaves32Is(w.l, d - 1);
    CeilDivision32Is(w.s.end, MaxLeaves(w.l, d - 1));
  }

  lemma SpanExact(w: Walk, d: nat, k: nat, j: nat)
    requires Fits(w, d) && k > 0 && j < CeilDivision(w.s.end, k)
    ensures ChildSpan32(w.s, k, j) == ChildSpan(w.s, k, j)
  {
    CeilPosition(w.s.end, k, j);
    hide CeilDivision, MaxLeaves;
  }

  lemma ChildFits(w: Walk, d: nat, k: nat, j: nat)
    requires d > 0 && k == MaxLeaves(w.l, d - 1) && Fits(w, d) && j < CeilDivision(w.s.end, k)
    ensures Fits(ChildWalk(w, k, j), d - 1)
  {
    CeilPosition(w.s.end, k, j);
    if d > 1 {
      PowMono(w.l.maxChildren, d - 2);
    }
    hide CeilDivision;
  }

  lemma FillFits(w: Walk, d: nat, k: nat, j: nat)
    requires d > 0 && k == MaxLeaves(w.l, d - 1) && Fits(w, d) && BeginChild(w.s, k) > j && w.s.begin <= w.s.end
    ensures Fits(FillWalk(w, k, j), d - 1) && Word32(j * k) == j * k
  {
    DivPosition(w.s.begin, k, j);
    if d > 1 {
      PowMono(w.l.maxChildren, d - 2);
    }
  }

  /** Trimming keeps the number of children that the unbounded formula gives. */
  lemma NeededExact(w: Walk, d: nat)
    requires d > 0 && Fits(w, d) && TrimOk(w, d) && w.Trims() && 1 <= w.s.end <= MaxLeaves(w.l, d)
    ensures MaxLeaves32(w.l, d - 1) > 0
    ensures NeededChildren32(w.l, w.v.trim.value, d) == NeededChildren(w.l, w.v.trim.value, d) == CeilDivision(w.s.end, MaxLeaves(w.l, d - 1))
  {
    hide CeilDivision, CeilDivision32, MaxLeaves, MaxLeaves32, NeededChildren, NeededChildren32;
    var n, k, m := w.v.trim.value, MaxLeaves(w.l, d - 1), w.l.maxChildren;
    NodeExact(w, d);
    NeededIs(w.l, w.s.offset, w.s.end, d);
    CeilDivision32Is(n, k);
    CeilAtMost(n, k);
    CeilDivision32Is(CeilDivision(n, k), m);
    SameFormula(w.l, n, d);
  }

  lemma SameFormula(l: Layout, n: nat, d: nat)
    requires d > 0 && MaxLeaves32(l, d - 1) == MaxLeaves(l, d - 1)
    requires var k := MaxLeaves(l, d - 1);
             CeilDivision32(n, k) == CeilDivision(n, k) && CeilDivision32(CeilDivision(n, k), l.maxChildren) == CeilDivision(CeilDivision(n, k), l.maxChildren)
    requires 0 <= NeededChildren(l, n, d) < U32_SIZE
    ensures NeededChildren32(l, n, d) == NeededChildren(l, n, d)
  {
    hide CeilDivision, CeilDivision32, MaxLeaves, MaxLeaves32;
  }

  lemma KeptExact(w: Walk, d: nat, children: seq<Tree>)
    requires d > 0 && Fits(w, d) && TrimOk(w, d) && 1 <= w.s.end <= MaxLeaves(w.l, d)
    requires |children| >= CeilDivision(w.s.end, MaxLeaves(w.l, d - 1))
    ensures MaxLeaves32(w.l, d - 1) > 0
    ensures Kept32(w.l, w.v, w.s, d, children) == Ok(if w.s.begin < w.s.end then Backtrack(w.l, w.v, d, children) else children)
  {
    NodeExact(w, d);
    if w.Trims() {
      NeededExact(w, d);
      NeededIs(w.l, w.s.offset, w.s.end, d);
      assert children[..|children|] == children;
    }
    hide CeilDivision, CeilDivision32, MaxLeaves, MaxLeaves32, NeededChildren, NeededChildren32;
  }

  // ----- New subtrees

  /** What CreateAchieves asks of a walk. */
  ghost predicate CreateOk(w: Walk, d: nat) {
    w.x == [] && !w.grow && w.s.begin <= w.s.end && 1 <= w.s.end <= MaxLeaves(w.l, d) && TrimOk(w, d)
  }

  lemma {:induction false} Create32Is(w: Walk, d: nat)
    requires CreateOk(w, d) && Fits(w, d)
    ensures Create32(w.l, w.v, w.s, d) == Ok(Create(w.l, w.v, w.s, d))
    decreases d, 1, 0
  {
    if d == 0 {
      assert MaxLeaves(w.l, 0) == 1;
    } else {
      var k := MaxLeaves(w.l, d - 1);
      assert OldChildren(w, k) == 0 by { CeilIs(0, k, 0); }
      NodeExact(w, d);
      CreateChildrenAchieve(w, d, 0);
      CreateChildren32Is(w, d, 0);
      CeilBounds(w.s.end, k);
      KeptExact(w, d, CreateChildren(w.l, w.v, w.s, d, 0).trees);
      hide MaxLeaves, MaxLeaves32, CeilDivision, CreateChildren, CreateChildren32, Kept32, Backtrack, HoldChunks, Walk.Visits;
    }
  }

  lemma {:induction false} CreateChildren32Is(w: Walk, d: nat, j: nat)
    requires d > 0 && Fits(w, d) && j >= OldChildren(w, MaxLeaves(w.l, d - 1)) && MaxLeaves32(w.l, d - 1) > 0
    requires w.s.begin <= w.s.end && 1 <= w.s.end <= MaxLeaves(w.l, d) && TrimOk(w, d)
    ensures CreateChildren32(w.l, w.v, w.s, d, j) == Ok(CreateChildren(w.l, w.v, w.s, d, j))
    decreases d, 0, CeilDivision(w.s.end, MaxLeaves(w.l, d - 1)) - j
  {
    hide MaxLeaves, MaxLeaves32, CeilDivision, CeilDivision32, ChildWalk, Create, Create32, Fits, TrimOk;
    var k := MaxLeaves(w.l, d - 1);
    NodeExact(w, d);
    if j < CeilDivision(w.s.end, k) {
      NewChildOk(w, d, k, j);
      ChildFits(w, d, k, j);
      SpanExact(w, d, k, j);
      Create32Is(ChildWalk(w, k, j), d - 1);
      CreateChildren32Is(w, d, j + 1);
    }
  }

  lemma NewChildOk(w: Walk, d: nat, k: nat, j: nat)
    requires d > 0 && k == MaxLeaves(w.l, d - 1) && OldChildren(w, k) <= j < CeilDivision(w.s.end, k)
    requires w.s.begin <= w.s.end && TrimOk(w, d)
    ensures var c := ChildWalk(w, k, j); c.l == w.l && c.v == w.v && c.s == ChildSpan(w.s, k, j) && CreateOk(c, d - 1)
  {
    NewChild(w, d, k, j);
  }

  // ----- Existing subtrees

  /** A read-only walk stays within the leaves. */
  ghost predicate ReadOk(w: Walk, readOnly: bool) {
    readOnly ==> w.s.end <= |w.x| && !w.grow
  }

  /** The walk meets the assertions of a node. */
  lemma NodeAssertions(w: Walk, d: nat, t: Tree, isLeft: bool, readOnly: bool)
    requires WalksOver(w, d, t, isLeft) && t.Inner? && ReadOk(w, readOnly)
    ensures var endChild, n := CeilDivision(w.s.end, MaxLeaves(w.l, d - 1)), |t.children|;
            && n == OldChildren(w, MaxLeaves(w.l, d - 1))
            && endChild <= w.l.maxChildren && (w.grow ==> endChild >= n) && (readOnly ==> endChild <= n)
  {
    var k, m := MaxLeaves(w.l, d - 1), w.l.maxChildren;
    LeafCount(w.l, d, t);
    assert MaxLeaves(w.l, d) == m * k;
    hide MaxLeaves, LeftMax, Leaves, CeilDivision;
    CeilIs(m * k, k, m);
    CeilOfMax(w.s.end, m * k, k);
    CeilOfMax(w.s.end, |w.x|, k);
    assert Max(w.s.end, m * k) == m * k;
  }

  lemma {:induction false} Traverse32Is(w: Walk, d: nat, t: Tree, isLeft: bool, readOnly: bool)
    requires WalksOver(w, d, t, isLeft) && Fits(w, d) && d <= MAX_DEPTH + 1 && ReadOk(w, readOnly)
    ensures Traverse32(w.l, w.v, t, w.s, Flags(isLeft, w.isRight, w.grow, readOnly)) == Ok(Traverse(w.l, w.v, t, w.s, isLeft, w.isRight, w.grow))
    decreases d, 2, 0
  {
    if t.Leaf? {
      Leaf32Is(w, t, isLeft, readOnly);
    } else {
      NodeExact(w, d);
      NodeAssertions(w, d, t, isLeft, readOnly);
      assert t.depth == d;
      hide *;
      TraverseChildren32Is(w, d, t, isLeft, readOnly, 0);
      NewChildren32Is(w, d, t, isLeft);
      Node32Is(w, d, t, isLeft, readOnly);
    }
  }

  lemma Leaf32Is(w: Walk, t: Tree, isLeft: bool, readOnly: bool)
    requires t.Leaf? && WalksOver(w, 0, t, isLeft) && ReadOk(w, readOnly)
    ensures Traverse32(w.l, w.v, t, w.s, Flags(isLeft, w.isRight, w.grow, readOnly)) == Ok(Traverse(w.l, w.v, t, w.s, isLeft, w.isRight, w.grow))
  {
    assert MaxLeaves(w.l, 0) == 1;
  }

  lemma NewChildren32Is(w: Walk, d: nat, t: Tree, isLeft: bool)
    requires WalksOver(w, d, t, isLeft) && t.Inner? && Fits(w, d) && MaxLeaves32(w.l, d - 1) > 0
    requires |t.children| == OldChildren(w, MaxLeaves(w.l, d - 1))
    ensures CreateChildren32(w.l, w.v, w.s, d, |t.children|) == Ok(CreateChildren(w.l, w.v, w.s, d, |t.children|))
    ensures |CreateChildren(w.l, w.v, w.s, d, |t.children|).trees| == MaxZeroSubtraction(CeilDivision(w.s.end, MaxLeaves(w.l, d - 1)), |t.children|)
  {
    CreateChildren32Is(w, d, |t.children|);
    LeafCount(w.l, d, t);
    hide MaxLeaves, MaxLeaves32, LeftMax, Leaves, CeilDivision, CreateChildren, CreateChildren32, HoldChunks, Walk.Visits;
    CreateChildrenAchieve(w, d, |t.children|);
  }

  /** From the children to the node. */
  lemma Node32Is(w: Walk, d: nat, t: Tree, isLeft: bool, readOnly: bool)
    requires WalksOver(w, d, t, isLeft) && t.Inner? && t.depth == d > 0 && Fits(w, d)
    requires var k := MaxLeaves(w.l, d - 1); MaxLeaves32(w.l, d - 1) == k && CeilDivision32(w.s.end, k) == CeilDivision(w.s.end, k)
    requires var endChild, n := CeilDivision(w.s.end, MaxLeaves(w.l, d - 1)), |t.children|;
             && endChild <= w.l.maxChildren && (w.grow ==> endChild >= n) && (readOnly ==> endChild <= n)
             && |CreateChildren(w.l, w.v, w.s, d, n).trees| == MaxZeroSubtraction(endChild, n)
    requires TraverseChildren32(w.l, w.v, t, w.s, Flags(isLeft, w.isRight, w.grow, readOnly), 0)
             == Ok(TraverseChildren(w.l, w.v, t, w.s, isLeft, w.isRight, w.grow, 0))
    requires CreateChildren32(w.l, w.v, w.s, d, |t.children|) == Ok(CreateChildren(w.l, w.v, w.s, d, |t.children|))
    ensures Traverse32(w.l, w.v, t, w.s, Flags(isLeft, w.isRight, w.grow, readOnly)) == Ok(Traverse(w.l, w.v, t, w.s, isLeft, w.isRight, w.grow))
  {
    hide MaxLeaves, MaxLeaves32, LeftMax, Leaves, CeilDivision, CeilDivision32, CreateChildren, CreateChildren32, TraverseChildren, TraverseChildren32, Kept32, Backtrack, HoldChunks, Walk.Visits;
    TraverseChildrenAchieve(w, d, t, isLeft, 0);
    KeptExact(w, d, TraverseChildren(w.l, w.v, t, w.s, isLeft, w.isRight, w.grow, 0).trees + CreateChildren(w.l, w.v, w.s, d, |t.children|).trees);
  }

  lemma {:induction false} TraverseChildren32Is(w: Walk, d: nat, t: Tree, isLeft: bool, readOnly: bool, j: nat)
    requires WalksOver(w, d, t, isLeft) && t.Inner? && t.depth == d > 0 && Fits(w, d) && d <= MAX_DEPTH + 1 && ReadOk(w, readOnly)
    requires j <= |t.children| && MaxLeaves32(w.l, d - 1) > 0
    ensures TraverseChildren32(w.l, w.v, t, w.s, Flags(isLeft, w.isRight, w.grow, readOnly), j)
            == Ok(TraverseChildren(w.l, w.v, t, w.s, isLeft, w.isRight, w.grow, j))
    decreases d, 1, |t.children| - j
  {
    hide MaxLeaves, MaxLeaves32, TraverseChild, TraverseChild32, WalksOver, Fits, ReadOk;
    if j < |t.children| {
      TraverseChild32Is(w, d, t, isLeft, readOnly, j);
      TraverseChildren32Is(w, d, t, isLeft, readOnly, j + 1);
    }
  }

  lemma {:induction false} TraverseChild32Is(w: Walk, d: nat, t: Tree, isLeft: bool, readOnly: bool, j: nat)
    requires WalksOver(w, d, t, isLeft) && t.Inner? && t.depth == d > 0 && Fits(w, d) && d <= MAX_DEPTH + 1 && ReadOk(w, readOnly)
    requires j < |t.children| && MaxLeaves32(w.l, d - 1) > 0
    ensures TraverseChild32(w.l, w.v, t, w.s, Flags(isLeft, w.isRight, w.grow, readOnly), j)
            == Ok(TraverseChild(w.l, w.v, t, w.s, isLeft, w.isRight, w.grow, j))
    decreases d, 0, 1
  {
    var n, k := |t.children|, MaxLeaves(w.l, d - 1);
    assert w.s.end >= 1;
    NodeExact(w, d);
    hide *;
    var beginChild, endChild := BeginChild(w.s, k), CeilDivision(w.s.end, k);
    if beginChild >= n && isLeft && j == n - 1 {
      FillChild32Is(w, d, t, isLeft, readOnly, j);
    } else if beginChild <= j < endChild {
      VisitChild32Is(w, d, t, isLeft, readOnly, j);
    } else {
      SkipChild32Is(w, d, t, isLeft, readOnly, j);
    }
  }

  lemma SkipChild32Is(w: Walk, d: nat, t: Tree, isLeft: bool, readOnly: bool, j: nat)
    requires t.Inner? && t.depth == d > 0 && j < |t.children|
    requires var k := MaxLeaves(w.l, d - 1); MaxLeaves32(w.l, d - 1) == k && CeilDivision32(w.s.end, k) == CeilDivision(w.s.end, k)
    requires !(BeginChild(w.s, MaxLeaves(w.l, d - 1)) <= j < CeilDivision(w.s.end, MaxLeaves(w.l, d - 1)))
    requires !(isLeft && BeginChild(w.s, MaxLeaves(w.l, d - 1)) >= |t.children| && j + 1 == |t.children|)
    ensures TraverseChild32(w.l, w.v, t, w.s, Flags(isLeft, w.isRight, w.grow, readOnly), j)
            == Ok(TraverseChild(w.l, w.v, t, w.s, isLeft, w.isRight, w.grow, j))
  {
    hide MaxLeaves, MaxLeaves32, CeilDivision, CeilDivision32, BeginChild, Traverse, Traverse32, ChildSpan, ChildSpan32;
  }

  lemma {:induction false} FillChild32Is(w: Walk, d: nat, t: Tree, isLeft: bool, readOnly: bool, j: nat)
    requires WalksOver(w, d, t, isLeft) && t.Inner? && t.depth == d > 0 && Fits(w, d) && d <= MAX_DEPTH + 1 && ReadOk(w, readOnly)
    requires var k := MaxLeaves(w.l, d - 1); MaxLeaves32(w.l, d - 1) == k && CeilDivision32(w.s.end, k) == CeilDivision(w.s.end, k)
    requires j + 1 == |t.children| && isLeft && BeginChild(w.s, MaxLeaves(w.l, d - 1)) > j
    ensures TraverseChild32(w.l, w.v, t, w.s, Flags(isLeft, w.isRight, w.grow, readOnly), j)
            == Ok(TraverseChild(w.l, w.v, t, w.s, isLeft, w.isRight, w.grow, j))
    decreases d, 0, 0
  {
    var k := MaxLeaves(w.l, d - 1);
    var c := FillWalk(w, k, j);
    ChildOf(w, d, t, isLeft, j);
    NotReadOnly(w, k, j, readOnly);
    assert c.l == w.l && c.v == w.v && c.s == Span(k, k, j * k) && !c.isRight && c.grow && c.x == ChildLeaves(w.x, k, j);
    hide *;
    FillOk(w, d, k, j);
    FillFits(w, d, k, j);
    assert WalksOver(c, d - 1, t.children[j], true) by { MakeWalksOver(c, d - 1, t.children[j], true); }
    assert ReadOk(c, false) by { NoReading(c); }
    Traverse32Is(c, d - 1, t.children[j], true, false);
    FillUnfolds(w, d, t, j);
  }

  lemma NoReading(w: Walk)
    ensures ReadOk(w, false)
  {
  }

  lemma FillUnfolds(w: Walk, d: nat, t: Tree, j: nat)
    requires t.Inner? && t.depth == d > 0 && j + 1 == |t.children| && d <= MAX_DEPTH + 1
    requires var k := MaxLeaves(w.l, d - 1); MaxLeaves32(w.l, d - 1) == k && Word32(j * k) == j * k
    requires BeginChild(w.s, MaxLeaves(w.l, d - 1)) > j
    ensures var k := MaxLeaves(w.l, d - 1);
            && TraverseChild(w.l, w.v, t, w.s, true, w.isRight, w.grow, j) == Traverse(w.l, w.v, t.children[j], Span(k, k, j * k), true, false, true)
            && TraverseChild32(w.l, w.v, t, w.s, Flags(true, w.isRight, w.grow, false), j)
               == Traverse32(w.l, w.v, t.children[j], Span(k, k, j * k), Flags(true, false, true, false))
  {
    hide MaxLeaves, MaxLeaves32, CeilDivision, CeilDivision32, BeginChild, Traverse, Traverse32;
  }

  /** A read-only walk does not begin to the right of the last child. */
  lemma NotReadOnly(w: Walk, k: nat, j: nat, readOnly: bool)
    requires k > 0 && ReadOk(w, readOnly) && j + 1 == OldChildren(w, k) && BeginChild(w.s, k) > j && (w.grow || w.s.begin < w.s.end)
    ensures !readOnly
  {
    DivPosition(w.s.begin, k, j);
    CeilPosition(|w.x|, k, j);
    hide CeilDivision;
  }

  lemma {:induction false} VisitChild32Is(w: Walk, d: nat, t: Tree, isLeft: bool, readOnly: bool, j: nat)
    requires WalksOver(w, d, t, isLeft) && t.Inner? && t.depth == d > 0 && Fits(w, d) && d <= MAX_DEPTH + 1 && ReadOk(w, readOnly)
    requires var k := MaxLeaves(w.l, d - 1); MaxLeaves32(w.l, d - 1) == k && CeilDivision32(w.s.end, k) == CeilDivision(w.s.end, k)
    requires j < |t.children| && BeginChild(w.s, MaxLeaves(w.l, d - 1)) <= j < CeilDivision(w.s.end, MaxLeaves(w.l, d - 1))
    ensures TraverseChild32(w.l, w.v, t, w.s, Flags(isLeft, w.isRight, w.grow, readOnly), j)
            == Ok(TraverseChild(w.l, w.v, t, w.s, isLeft, w.isRight, w.grow, j))
    decreases d, 0, 0
  {
    var k := MaxLeaves(w.l, d - 1);
    var c, isLeft' := ChildWalk(w, k, j), isLeft && j == BeginChild(w.s, k);
    ChildOf(w, d, t, isLeft, j);
    assert WalkOk(w, d, isLeft);
    hide *;
    VisitUnfolds(w, t, isLeft, j);
    VisitUnfolds32(w, d, t, isLeft, readOnly, j);
    ChildWalkOk(w, d, isLeft, k, j);
    ChildFits(w, d, k, j);
    assert WalksOver(c, d - 1, t.children[j], isLeft') by { MakeWalksOver(c, d - 1, t.children[j], isLeft'); }
    ChildReadOk(w, k, j, readOnly);
    Traverse32Is(c, d - 1, t.children[j], isLeft', readOnly);
  }

  lemma VisitUnfolds32(w: Walk, d: nat, t: Tree, isLeft: bool, readOnly: bool, j: nat)
    requires t.Inner? && t.depth == d > 0 && d <= MAX_DEPTH + 1 && j < |t.children| == OldChildren(w, MaxLeaves(w.l, d - 1)) && Fits(w, d)
    requires var k := MaxLeaves(w.l, d - 1); MaxLeaves32(w.l, d - 1) == k && CeilDivision32(w.s.end, k) == CeilDivision(w.s.end, k)
    requires BeginChild(w.s, MaxLeaves(w.l, d - 1)) <= j < CeilDivision(w.s.end, MaxLeaves(w.l, d - 1))
    ensures var k := MaxLeaves(w.l, d - 1);
            var c := ChildWalk(w, k, j);
            TraverseChild32(w.l, w.v, t, w.s, Flags(isLeft, w.isRight, w.grow, readOnly), j)
            == Traverse32(c.l, c.v, t.children[j], c.s, Flags(isLeft && j == BeginChild(w.s, k), c.isRight, c.grow, readOnly))
  {
    SpanExact(w, d, MaxLeaves(w.l, d - 1), j);
    hide MaxLeaves, MaxLeaves32, CeilDivision, CeilDivision32, BeginChild, Traverse32, ChildSpan, ChildSpan32, ChildLeaves;
  }

  lemma ChildReadOk(w: Walk, k: nat, j: nat, readOnly: bool)
    requires k > 0 && ReadOk(w, readOnly) && j < CeilDivision(w.s.end, k)
    ensures ReadOk(ChildWalk(w, k, j), readOnly)
  {
    if readOnly {
      ChildPosition(w, k, j);
      ChildLeaf(w.x, k, j, 0);
      CeilOfMax(w.s.end, |w.x|, k);
      hide CeilDivision, ChildLeaves;
    }
  }

  // ----- The whole tree

  /** The sizes of a node fit into its 32-bit fields, with a factor of two to spare. */
  predicate SmallNodes(l: Layout) {
    l.maxBytes < U32_SIZE && l.maxChildren <= U32_SIZE / 2
  }

  /** The depth that a tree of depth `d` needs for `end` leaves. */
  function FinalDepth(l: Layout, d: nat, end: nat): (f: nat)
    ensures f >= d && end <= MaxLeaves(l, f)
    decreases MaxZeroSubtraction(end, MaxLeaves(l, d))
  {
    if end > MaxLeaves(l, d) then
      PowMono(l.maxChildren, d);
      FinalDepth(l, d + 1, end)
    else d
  }

  /** The capacity of that depth is not cut below `end`, its number of children can be rounded up,
      and its children can be loaded. The root is already there. */
  predicate RootFits(l: Layout, d: nat, end: nat) {
    var f := FinalDepth(l, d, end);
    f <= MAX_DEPTH + 1 && end <= MaxLeaves32(l, f) && (f > 0 ==> end + MaxLeaves(l, f - 1) - 1 < U32_SIZE)
  }

  lemma {:induction false} FinalAbove(l: Layout, d: nat, end: nat)
    requires end > MaxLeaves(l, d)
    ensures FinalDepth(l, d, end) == FinalDepth(l, d + 1, end) > d && MaxLeaves(l, d) <= MaxLeaves(l, FinalDepth(l, d, end) - 1)
    decreases MaxZeroSubtraction(end, MaxLeaves(l, d))
  {
    PowMono(l.maxChildren, d);
    if end > MaxLeaves(l, d + 1) {
      FinalAbove(l, d + 1, end);
    }
  }

  lemma OneLevel(l: Layout, d: nat)
    ensures MaxLeaves(l, 0) == 1 && MaxLeaves(l, 1) == l.maxChildren
    ensures d > 0 ==> MaxLeaves(l, d - 1) < MaxLeaves(l, d)
    ensures d > 1 ==> l.maxChildren <= MaxLeaves(l, d - 1)
  {
    if d > 0 {
      PowMono(l.maxChildren, d - 1);
    }
    if d > 1 {
      MulMono(1, MaxLeaves(l, d - 2), l.maxChildren);
    }
    assert Pow(l.maxChildren, 1) == l.maxChildren * Pow(l.maxChildren, 0);
  }

  /** The first part of the walk does not overflow. */
  lemma FirstFits(l: Layout, v: Visitor, t: Tree, begin: nat, end: nat)
    requires RootFits(l, Depth(t), end) && SmallNodes(l) && begin < end
    ensures Fits(FirstPart(l, v, t, begin, end), Depth(t)) && Depth(t) <= MAX_DEPTH + 1
    ensures end > MaxLeaves(l, Depth(t)) <==> end > MaxLeaves32(l, Depth(t))
    ensures var max, max' := MaxLeaves(l, Depth(t)), MaxLeaves32(l, Depth(t)); Min(begin, max) == Min(begin, max') && Min(end, max) == Min(end, max')
    ensures end > MaxLeaves(l, Depth(t)) ==> MaxLeaves32(l, Depth(t)) == MaxLeaves(l, Depth(t)) && RootFits(l, Depth(t) + 1, end) && Depth(t) <= MAX_DEPTH
  {
    var d, f := Depth(t), FinalDepth(l, Depth(t), end);
    OneLevel(l, d);
    OneLevel(l, f);
    if end > MaxLeaves(l, d) {
      FinalAbove(l, d, end);
      MaxLeaves32Is(l, d);
    }
    hide MaxLeaves, MaxLeaves32;
  }

  /** A read-only walk stays within the leaves, trims nothing, and its tree needs no collapsing. */
  ghost predicate RootReadOk(l: Layout, v: Visitor, t: Tree, end: nat, readOnly: bool) {
    readOnly ==> end <= |Leaves(t)| && v.trim.None? && IsTree(l, t)
  }

  lemma FirstOutcome32Is(l: Layout, v: Visitor, t: Tree, begin: nat, end: nat, isLeft: bool, readOnly: bool)
    requires RootOk(l, v, t, begin, end, isLeft) && RootFits(l, Depth(t), end) && SmallNodes(l) && RootReadOk(l, v, t, end, readOnly)
    ensures FirstOutcome32(l, v, t, begin, end, isLeft, readOnly) == Ok(FirstOutcome(l, v, t, begin, end, isLeft))
  {
    var w, d := FirstPart(l, v, t, begin, end), Depth(t);
    FirstFits(l, v, t, begin, end);
    if t.Leaf? {
      assert MaxLeaves(l, 0) == 1 == MaxLeaves32(l, 0);
    } else {
      FirstWalks(l, v, t, begin, end, isLeft, readOnly);
      hide MaxLeaves, MaxLeaves32, Traverse, Traverse32, WalksOver, Fits, ReadOk;
      Traverse32Is(w, d, t, isLeft, readOnly);
    }
  }

  lemma FirstWalks(l: Layout, v: Visitor, t: Tree, begin: nat, end: nat, isLeft: bool, readOnly: bool)
    requires RootOk(l, v, t, begin, end, isLeft) && RootReadOk(l, v, t, end, readOnly)
    ensures var w := FirstPart(l, v, t, begin, end); WalksOver(w, Depth(t), t, isLeft) && ReadOk(w, readOnly)
  {
    var w, d := FirstPart(l, v, t, begin, end), Depth(t);
    LeafCount(l, d, t);
    OneLevel(l, d);
    hide MaxLeaves, LeftMax, Leaves, KeepsFull;
  }

  /** Within these bounds the walk in 32 bits is the walk on unbounded numbers, and none of its
      assertions fails. */
  lemma {:induction false} Root32Is(l: Layout, v: Visitor, t: Tree, begin: nat, end: nat, isLeft: bool, readOnly: bool)
    requires RootOk(l, v, t, begin, end, isLeft) && RootFits(l, Depth(t), end) && SmallNodes(l) && RootReadOk(l, v, t, end, readOnly)
    ensures TraverseRoot32(l, v, t, begin, end, isLeft, readOnly) == Ok(TraverseRoot(l, v, t, begin, end, isLeft))
    decreases MaxZeroSubtraction(end, MaxLeaves(l, Depth(t)))
  {
    hide *;
    if end > MaxLeaves(l, Depth(t)) {
      var t' := DeeperTree(l, v, t, begin, end, isLeft);
      DeeperSetup(l, v, t, begin, end, isLeft, readOnly);
      Root32Is(l, v, t', Max(begin, MaxLeaves(l, Depth(t))), end, false, false);
      RootDeeper32(l, v, t, begin, end, isLeft);
    } else {
      RootFinal32(l, v, t, begin, end, isLeft, readOnly);
    }
  }

  /** The tree that the first part leaves, below a new root. */
  function DeeperTree(l: Layout, v: Visitor, t: Tree, begin: nat, end: nat, isLeft: bool): Tree {
    Inner(Depth(t) + 1, [FirstOutcome(l, v, t, begin, end, isLeft).tree])
  }

  lemma DeeperSetup(l: Layout, v: Visitor, t: Tree, begin: nat, end: nat, isLeft: bool, readOnly: bool)
    requires RootOk(l, v, t, begin, end, isLeft) && RootFits(l, Depth(t), end) && SmallNodes(l) && RootReadOk(l, v, t, end, readOnly)
    requires end > MaxLeaves(l, Depth(t))
    ensures var t' := DeeperTree(l, v, t, begin, end, isLeft);
            && RootOk(l, v, t', Max(begin, MaxLeaves(l, Depth(t))), end, false) && RootFits(l, Depth(t'), end) && RootReadOk(l, v, t', end, false)
            && MaxZeroSubtraction(end, MaxLeaves(l, Depth(t'))) < MaxZeroSubtraction(end, MaxLeaves(l, Depth(t)))
    ensures !readOnly
  {
    assert begin < end;
    hide RootOk, RootFits, MaxLeaves, MaxLeaves32, LeftMax, Leaves, FirstOutcome, FirstPart, Fits, SmallNodes;
    FirstFits(l, v, t, begin, end);
    DeeperOk(l, v, t, begin, end, isLeft);
    Capacity(l, Depth(t));
    ReadOnlyOutcome(l, v, t, begin, end, isLeft, readOnly);
  }

  lemma Capacity(l: Layout, d: nat)
    ensures MaxLeaves(l, d) < MaxLeaves(l, d + 1)
  {
    PowMono(l.maxChildren, d);
  }

  lemma RootDeeper32(l: Layout, v: Visitor, t: Tree, begin: nat, end: nat, isLeft: bool)
    requires RootOk(l, v, t, begin, end, isLeft) && RootFits(l, Depth(t), end) && SmallNodes(l) && end > MaxLeaves(l, Depth(t))
    requires var t', max := DeeperTree(l, v, t, begin, end, isLeft), MaxLeaves(l, Depth(t));
             TraverseRoot32(l, v, t', Max(begin, max), end, false, false) == Ok(TraverseRoot(l, v, t', Max(begin, max), end, false))
    ensures TraverseRoot32(l, v, t, begin, end, isLeft, false) == Ok(TraverseRoot(l, v, t, begin, end, isLeft))
  {
    assert begin < end;
    hide RootOk, RootFits, MaxLeaves, MaxLeaves32, FirstOutcome, FirstOutcome32, TraverseRoot, TraverseRoot32, FirstPart, Fits, SmallNodes;
    NotReading(l, v, t, end);
    RootUnfolds(l, v, t, begin, end, isLeft);
    FirstFits(l, v, t, begin, end);
    FirstOutcome32Is(l, v, t, begin, end, isLeft, false);
    Deeper32(l, v, t, begin, end, isLeft, FirstOutcome(l, v, t, begin, end, isLeft), MaxLeaves(l, Depth(t)));
  }

  lemma RootFinal32(l: Layout, v: Visitor, t: Tree, begin: nat, end: nat, isLeft: bool, readOnly: bool)
    requires RootOk(l, v, t, begin, end, isLeft) && RootFits(l, Depth(t), end) && SmallNodes(l) && RootReadOk(l, v, t, end, readOnly)
    requires end <= MaxLeaves(l, Depth(t))
    ensures TraverseRoot32(l, v, t, begin, end, isLeft, readOnly) == Ok(TraverseRoot(l, v, t, begin, end, isLeft))
  {
    assert begin < end;
    hide RootOk, RootFits, RootReadOk, MaxLeaves, MaxLeaves32, FirstOutcome, FirstOutcome32, TraverseRoot, TraverseRoot32, FirstPart, Fits, SmallNodes, Collapse;
    RootUnfolds(l, v, t, begin, end, isLeft);
    FirstFits(l, v, t, begin, end);
    FirstOutcome32Is(l, v, t, begin, end, isLeft, readOnly);
    ReadOnlyOutcome(l, v, t, begin, end, isLeft, readOnly);
    Final32(l, v, t, begin, end, isLeft, readOnly, FirstOutcome(l, v, t, begin, end, isLeft));
  }

  lemma NotReading(l: Layout, v: Visitor, t: Tree, end: nat)
    ensures RootReadOk(l, v, t, end, false)
  {
  }

  lemma Deeper32(l: Layout, v: Visitor, t: Tree, begin: nat, end: nat, isLeft: bool, r: Outcome, max: nat)
    requires begin <= end && FirstOutcome32(l, v, t, begin, end, isLeft, false) == Ok(r) && max == MaxLeaves32(l, Depth(t)) < end && Depth(t) <= MAX_DEPTH
    ensures var rest := TraverseRoot32(l, v, Inner(Depth(t) + 1, [r.tree]), Max(begin, max), end, false, false);
            TraverseRoot32(l, v, t, begin, end, isLeft, false) ==
              if rest.Err? then rest else Ok(Outcome(rest.value.tree, r.trace + rest.value.trace))
  {
    hide FirstOutcome32, MaxLeaves32;
  }

  lemma Final32(l: Layout, v: Visitor, t: Tree, begin: nat, end: nat, isLeft: bool, readOnly: bool, r: Outcome)
    requires begin <= end <= MaxLeaves32(l, Depth(t)) && FirstOutcome32(l, v, t, begin, end, isLeft, readOnly) == Ok(r)
    requires readOnly ==> r.tree.Leaf? || |r.tree.children| >= 2
    ensures TraverseRoot32(l, v, t, begin, end, isLeft, readOnly) == Ok(Outcome(Collapse(r.tree), r.trace))
  {
    hide FirstOutcome32, MaxLeaves32, Collapse;
  }

  lemma ReadOnlyOutcome(l: Layout, v: Visitor, t: Tree, begin: nat, end: nat, isLeft: bool, readOnly: bool)
    requires RootOk(l, v, t, begin, end, isLeft) && RootReadOk(l, v, t, end, readOnly)
    ensures readOnly ==> end <= MaxLeaves(l, Depth(t))
    ensures var r := FirstOutcome(l, v, t, begin, end, isLeft).tree; readOnly ==> r.Leaf? || |r.children| >= 2
  {
    if readOnly {
      var r, d := FirstOutcome(l, v, t, begin, end, isLeft).tree, Depth(t);
      FirstPartAchieves(l, v, t, begin, end, isLeft);
      LeafCount(l, d, t);
      LeafCount(l, d, r);
      assert |Leaves(r)| == |Leaves(t)|;
      hide MaxLeaves, Leaves, FirstOutcome, CeilDivision;
    }
  }

  /** The walk in 32 bits over any range of leaf indices that fits: exactly the callbacks of the
      range, in order, and a well-formed tree with the leaves of `After`. */
  lemma RootAchieves32(l: Layout, v: Visitor, t: Tree, begin: nat, end: nat, isLeft: bool, readOnly: bool)
    requires RootOk(l, v, t, begin, end, isLeft) && RootFits(l, Depth(t), end) && SmallNodes(l) && RootReadOk(l, v, t, end, readOnly)
    ensures var r, w := TraverseRoot32(l, v, t, begin, end, isLeft, readOnly), RootWalk(l, v, Leaves(t), begin, end);
            r.Ok? && IsTree(l, r.value.tree) && Leaves(r.value.tree) == w.After() && r.value.trace == w.Trace()
  {
    hide RootOk, RootFits, RootReadOk, TraverseRoot, TraverseRoot32, IsTree, Leaves;
    Root32Is(l, v, t, begin, end, isLeft, readOnly);
    RootAchieves(l, v, t, begin, end, isLeft);
  }
}
