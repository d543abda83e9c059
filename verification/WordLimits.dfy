/** When the walk in 32 bits is right: exactly if `RootFits` says so. */
module WordLimits {
  import opened Bytes
  import opened BlobMath
  import opened BlobTree
  import opened LeafTraverser
  import opened TraversalProofs
  import opened WordTraverser
  import opened WordProofs
  import opened WordFailures

  // ----- No leaf at or past the end of a walk is visited

  ghost predicate Below(trace: seq<Visit>, end: nat) {
    forall i | 0 <= i < |trace| :: trace[i].index < end
  }

  /** The part of the walk that a child sees ends within it. */
  lemma ChildEnds(s: Span, k: nat, j: nat)
    requires s.end < U32_SIZE && s.offset + s.end <= U32_SIZE && 0 < k < U32_SIZE && j < CeilDivision32(s.end, k)
    ensures var c := ChildSpan32(s, k, j); c.end < U32_SIZE && c.offset + c.end <= s.offset + s.end
  {
    CeilDivision32Is(s.end, k);
    CeilPosition(s.end, k, j);
    hide CeilDivision, CeilDivision32;
  }

  lemma {:induction false} CreateBelow(l: Layout, v: Visitor, s: Span, d: nat)
    requires s.end < U32_SIZE && s.offset + s.end <= U32_SIZE
    ensures var r := Create32(l, v, s, d); r.Ok? ==> Below(r.value.trace, s.offset + s.end)
    decreases d, 1, 0
  {
    if d > 0 && MaxLeaves32(l, d - 1) > 0 {
      CreateChildrenBelow(l, v, s, d, 0);
    }
    hide MaxLeaves32, CreateChildren32, Kept32;
  }

  lemma {:induction false} CreateChildrenBelow(l: Layout, v: Visitor, s: Span, d: nat, j: nat)
    requires d > 0 && MaxLeaves32(l, d - 1) > 0 && s.end < U32_SIZE && s.offset + s.end <= U32_SIZE
    ensures var r := CreateChildren32(l, v, s, d, j); r.Ok? ==> Below(r.value.trace, s.offset + s.end)
    decreases d, 0, CeilDivision32(s.end, MaxLeaves32(l, d - 1)) - j
  {
    var k := MaxLeaves32(l, d - 1);
    hide MaxLeaves32, CeilDivision32, ChildSpan32, Create32;
    if j < CeilDivision32(s.end, k) {
      ChildEnds(s, k, j);
      CreateBelow(l, v, ChildSpan32(s, k, j), d - 1);
      CreateChildrenBelow(l, v, s, d, j + 1);
    }
  }

  lemma {:induction false} TraverseBelow(l: Layout, v: Visitor, t: Tree, s: Span, f: Flags)
    requires s.end < U32_SIZE && s.offset + s.end <= U32_SIZE
    ensures var r := Traverse32(l, v, t, s, f); r.Ok? ==> Below(r.value.trace, s.offset + s.end)
    decreases t, 2, 0
  {
    if t.Inner? && t.depth > 0 && MaxLeaves32(l, t.depth - 1) > 0 {
      TraverseChildrenBelow(l, v, t, s, f, 0);
      CreateChildrenBelow(l, v, s, t.depth, |t.children|);
    }
    hide MaxLeaves32, CreateChildren32, TraverseChildren32, Kept32, CeilDivision32;
  }

  lemma {:induction false} TraverseChildrenBelow(l: Layout, v: Visitor, t: Tree, s: Span, f: Flags, j: nat)
    requires t.Inner? && t.depth > 0 && MaxLeaves32(l, t.depth - 1) > 0 && s.end < U32_SIZE && s.offset + s.end <= U32_SIZE
    ensures var r := TraverseChildren32(l, v, t, s, f, j); r.Ok? ==> Below(r.value.trace, s.offset + s.end)
    decreases t, 1, |t.children| - j
  {
    hide MaxLeaves32, TraverseChild32;
    if j < |t.children| {
      TraverseChildBelow(l, v, t, s, f, j);
      TraverseChildrenBelow(l, v, t, s, f, j + 1);
    }
  }

  lemma {:induction false} TraverseChildBelow(l: Layout, v: Visitor, t: Tree, s: Span, f: Flags, j: nat)
    requires t.Inner? && t.depth > 0 && MaxLeaves32(l, t.depth - 1) > 0 && j < |t.children| && s.end < U32_SIZE && s.offset + s.end <= U32_SIZE
    ensures var r := TraverseChild32(l, v, t, s, f, j); r.Ok? ==> Below(r.value.trace, s.offset + s.end)
    decreases t, 0, 0
  {
    var k, n := MaxLeaves32(l, t.depth - 1), |t.children|;
    var beginChild, endChild := BeginChild(s, k), CeilDivision32(s.end, k);
    TraverseNothing(l, v, t.children[j], Span(k, k, Word32(j * k)), Flags(true, false, true, f.readOnly));
    if beginChild <= j < endChild {
      ChildEnds(s, k, j);
      TraverseBelow(l, v, t.children[j], ChildSpan32(s, k, j),
                    Flags(f.isLeft && j == beginChild, f.isRight && j == n - 1 && n == endChild, (f.grow || endChild > n) && j == n - 1, f.readOnly));
    }
    hide MaxLeaves32, Traverse32, CeilDivision32, BeginChild, ChildSpan32, Word32;
  }

  /** The part of the walk before a level is added does not reach the last leaf. */
  lemma FirstBelow(l: Layout, v: Visitor, t: Tree, begin: nat, end: nat, isLeft: bool)
    requires t.Inner? && MaxLeaves32(l, t.depth) < end
    ensures var r := FirstOutcome32(l, v, t, begin, end, isLeft, false); r.Ok? ==> Below(r.value.trace, end - 1)
  {
    var max := MaxLeaves32(l, t.depth);
    TraverseBelow(l, v, t, Span(Min(begin, max), max, 0), Flags(isLeft, false, true, false));
    hide MaxLeaves32, Traverse32;
  }

  // ----- Once the tree is too deep

  /** The walk either gets deeper than `f` or does not visit leaf end-1. */
  ghost predicate Wrong(r: Result<Outcome>, f: nat, end: nat)
    requires end > 0
  {
    r.Ok? ==> Depth(r.value.tree) > f || Below(r.value.trace, end - 1)
  }

  /** What a resize trims at. */
  predicate TrimsAtEnd(v: Visitor, begin: nat, end: nat) {
    v.trim.Some? ==> begin + 1 == end && v.trim.value == end
  }

  lemma AtLeastTwo(a: nat, b: nat)
    requires 0 < b < a
    ensures CeilDivision(a, b) >= 2
  {
    CeilPosition(a, b, 1);
    hide CeilDivision;
  }

  lemma OneSibling(n: nat, m: nat)
    requires 0 < n <= m <= U32_SIZE / 2
    ensures CeilDivision32(n, m) == 1
  {
    CeilDivision32Is(n, m);
    CeilIs(n, m, 1);
  }

  /** Trimming leaves the children that hold the walk. */
  lemma KeepsTwo(l: Layout, v: Visitor, begin: nat, end: nat, d: nat, children: seq<Tree>)
    requires d > 0 && MaxLeaves32(l, d - 1) > 0 && SmallNodes(l) && TrimsAtEnd(v, begin, end)
    requires 2 <= CeilDivision32(end, MaxLeaves32(l, d - 1)) <= l.maxChildren && |children| >= 2
    ensures var r := Kept32(l, v, Span(begin, end, 0), d, children); r.Ok? ==> |r.value| >= 2
  {
    var n := CeilDivision32(end, MaxLeaves32(l, d - 1));
    OneSibling(n, l.maxChildren);
    hide CeilDivision32, MaxLeaves32;
  }

  lemma {:induction false} AllTraversed(l: Layout, v: Visitor, t: Tree, s: Span, f: Flags, j: nat)
    requires t.Inner? && t.depth > 0 && MaxLeaves32(l, t.depth - 1) > 0 && j <= |t.children|
    ensures var r := TraverseChildren32(l, v, t, s, f, j); r.Ok? ==> |r.value.trees| == |t.children| - j
    decreases |t.children| - j
  {
    hide MaxLeaves32, TraverseChild32;
    if j < |t.children| {
      AllTraversed(l, v, t, s, f, j + 1);
    }
  }

  lemma {:induction false} AllCreated(l: Layout, v: Visitor, s: Span, d: nat, j: nat)
    requires d > 0 && MaxLeaves32(l, d - 1) > 0
    ensures var r := CreateChildren32(l, v, s, d, j); r.Ok? ==> |r.value.trees| == MaxZeroSubtraction(CeilDivision32(s.end, MaxLeaves32(l, d - 1)), j)
    decreases CeilDivision32(s.end, MaxLeaves32(l, d - 1)) - j
  {
    hide MaxLeaves32, Create32, ChildSpan32, CeilDivision32;
    if j < CeilDivision32(s.end, MaxLeaves32(l, d - 1)) {
      AllCreated(l, v, s, d, j + 1);
    }
  }

  /** A walk past the capacity of one child leaves at least two, unless the rounding overflows. */
  lemma TwoChildren(l: Layout, v: Visitor, t: Tree, begin: nat, end: nat, f: Flags)
    requires t.Inner? && t.depth > 0 && SmallNodes(l) && TrimsAtEnd(v, begin, end) && begin < end
    requires MaxLeaves32(l, t.depth - 1) > 0 && CeilDivision32(end, MaxLeaves32(l, t.depth - 1)) >= 2
    ensures var r := Traverse32(l, v, t, Span(begin, end, 0), f); r.Ok? ==> r.value.tree.Inner? && r.value.tree.depth == t.depth && |r.value.tree.children| >= 2
  {
    hide MaxLeaves32, CreateChildren32, TraverseChildren32, Kept32, CeilDivision32, SmallNodes, TrimsAtEnd;
    var s, n := Span(begin, end, 0), |t.children|;
    AllTraversed(l, v, t, s, f, 0);
    AllCreated(l, v, s, t.depth, n);
    var existing, created := TraverseChildren32(l, v, t, s, f, 0), CreateChildren32(l, v, s, t.depth, n);
    if existing.Ok? && created.Ok? && CeilDivision32(end, MaxLeaves32(l, t.depth - 1)) <= l.maxChildren {
      KeepsTwo(l, v, begin, end, t.depth, existing.value.trees + created.value.trees);
    }
  }

  /** The last stage, above the depth at which the walk should have ended. */
  lemma LastStage(l: Layout, v: Visitor, t: Tree, begin: nat, end: nat, isLeft: bool, f: nat)
    requires t.Inner? && t.depth > f && SmallNodes(l) && TrimsAtEnd(v, begin, end) && begin < end < U32_SIZE
    requires MaxLeaves32(l, t.depth - 1) < end <= MaxLeaves32(l, t.depth)
    ensures Wrong(TraverseRoot32(l, v, t, begin, end, isLeft, false), f, end)
  {
    var k, s, fl := MaxLeaves32(l, t.depth - 1), Span(begin, end, 0), Flags(isLeft, true, false, false);
    if k > 0 {
      CeilDivision32Is(end, k);
      AtLeastTwo(end, k);
      hide MaxLeaves32, CeilDivision, CeilDivision32, Traverse32, SmallNodes;
      if CeilDivision32(end, k) == 0 {
        NoChildVisited(l, v, t, s, fl);
      } else {
        TwoChildren(l, v, t, begin, end, fl);
      }
    } else {
      hide MaxLeaves32;
    }
  }

  /** Every stage above that depth. */
  lemma {:induction false} TooDeepIsWrong(l: Layout, v: Visitor, t: Tree, begin: nat, end: nat, isLeft: bool, f: nat)
    requires t.Inner? && t.depth > f && SmallNodes(l) && TrimsAtEnd(v, begin, end) && begin < end < U32_SIZE && MaxLeaves32(l, t.depth - 1) < end
    ensures Wrong(TraverseRoot32(l, v, t, begin, end, isLeft, false), f, end)
    decreases MaxZeroSubtraction(MAX_DEPTH + 1, t.depth)
  {
    hide MaxLeaves32, TraverseRoot32, SmallNodes, FirstOutcome32, Wrong;
    var max := MaxLeaves32(l, t.depth);
    if end <= max {
      LastStage(l, v, t, begin, end, isLeft, f);
    } else {
      var r := FirstOutcome32(l, v, t, begin, end, isLeft, false);
      if r.Ok? && t.depth <= MAX_DEPTH {
        TooDeepIsWrong(l, v, Inner(t.depth + 1, [r.value.tree]), Max(begin, max), end, false, f);
      }
      WrongAbove(l, v, t, begin, end, isLeft, f);
    }
  }

  /** A wrong rest makes the whole wrong, as the part before it does not reach the last leaf. */
  lemma WrongAbove(l: Layout, v: Visitor, t: Tree, begin: nat, end: nat, isLeft: bool, f: nat)
    requires t.Inner? && begin < end && MaxLeaves32(l, t.depth) < end
    requires var r := FirstOutcome32(l, v, t, begin, end, isLeft, false);
             r.Ok? && t.depth <= MAX_DEPTH ==>
               Wrong(TraverseRoot32(l, v, Inner(t.depth + 1, [r.value.tree]), Max(begin, MaxLeaves32(l, t.depth)), end, false, false), f, end)
    ensures Wrong(TraverseRoot32(l, v, t, begin, end, isLeft, false), f, end)
  {
    hide MaxLeaves32, FirstOutcome32;
    FirstBelow(l, v, t, begin, end, isLeft);
  }

  /** The right outcome is not of that kind. */
  lemma RightReachesEnd(l: Layout, v: Visitor, t: Tree, begin: nat, end: nat, isLeft: bool)
    requires RootOk(l, v, t, begin, end, isLeft) && end <= MaxLeaves(l, Depth(t))
    ensures !Wrong(Ok(TraverseRoot(l, v, t, begin, end, isLeft)), Depth(t), end)
  {
    var r := TraverseRoot(l, v, t, begin, end, isLeft);
    RootOkIs(l, v, t, begin, end, isLeft);
    hide RootOk, MaxLeaves, TraverseRoot, FirstOutcome, Leaves, LeftMax, Walk.After, Walk.SlotAt, FirstPart, Collapse;
    RootAchieves(l, v, t, begin, end, isLeft);
    assert r.trace[end - 1 - begin].index == end - 1;
    RootUnfolds(l, v, t, begin, end, isLeft);
    FirstPartAchieves(l, v, t, begin, end, isLeft);
    SameDepth(l, Depth(t), FirstOutcome(l, v, t, begin, end, isLeft).tree);
  }

  lemma {:induction false} SameDepth(l: Layout, d: nat, t: Tree)
    requires LeftMax(l, d, t)
    ensures Depth(Collapse(t)) <= d
    decreases d
  {
    if t.Inner? && |t.children| == 1 {
      SameDepth(l, d - 1, t.children[0]);
    }
  }

  // ----- Walks that do not fit

  lemma LeafIsNotCut(l: Layout)
    ensures MaxLeaves(l, 0) == 1 == MaxLeaves32(l, 0)
  {
  }

  /** If the capacity is cut below the end of the walk, levels are added that do not belong there. */
  lemma CutIsWrong(l: Layout, v: Visitor, t: Tree, begin: nat, end: nat, isLeft: bool)
    requires RootOk(l, v, t, begin, end, isLeft) && SmallNodes(l) && MaxLeaves32(l, Depth(t)) < end <= MaxLeaves(l, Depth(t)) && end < U32_SIZE
    ensures TraverseRoot32(l, v, t, begin, end, isLeft, false) != Ok(TraverseRoot(l, v, t, begin, end, isLeft))
  {
    hide RootOk, MaxLeaves, MaxLeaves32, TraverseRoot, TraverseRoot32, FirstOutcome32, SmallNodes, LeftMax, KeepsFull, Wrong;
    var d, max := Depth(t), MaxLeaves32(l, Depth(t));
    LeafIsNotCut(l);
    RightReachesEnd(l, v, t, begin, end, isLeft);
    RootOkIs(l, v, t, begin, end, isLeft);
    var r := FirstOutcome32(l, v, t, begin, end, isLeft, false);
    if r.Ok? && d <= MAX_DEPTH {
      TooDeepIsWrong(l, v, Inner(d + 1, [r.value.tree]), Max(begin, max), end, false, d);
    }
    WrongAbove(l, v, t, begin, end, isLeft, d);
  }

  /** A node whose children cannot be loaded. */
  lemma UnloadableIsWrong(l: Layout, v: Visitor, t: Tree, begin: nat, end: nat, readOnly: bool)
    requires RootOk(l, v, t, begin, end, true) && Depth(t) > MAX_DEPTH + 1 && end <= MaxLeaves32(l, Depth(t)) && end < U32_SIZE
    ensures TraverseRoot32(l, v, t, begin, end, true, readOnly) != Ok(TraverseRoot(l, v, t, begin, end, true))
  {
    var f := Flags(true, true, false, readOnly);
    RootOkIs(l, v, t, begin, end, true);
    InnerChildren(l, Depth(t), t);
    hide RootOk, MaxLeaves32, TraverseRoot, LeftMax, Traverse32, KeepsFull;
    SomeVisits(l, v, t, begin, end, true);
    NodeFails(l, v, t, Span(begin, end, 0), f);
  }

  lemma InnerChildren(l: Layout, d: nat, t: Tree)
    requires LeftMax(l, d, t) && d > 1
    ensures t.Inner? && t.depth == d && t.children != [] && forall i | 0 <= i < |t.children| :: t.children[i].Inner?
  {
  }

  lemma NodeFails(l: Layout, v: Visitor, t: Tree, s: Span, f: Flags)
    requires t.Inner? && t.depth > MAX_DEPTH + 1 && t.children != [] && forall i | 0 <= i < |t.children| :: t.children[i].Inner?
    requires f.isLeft && s.begin < s.end < U32_SIZE
    ensures var r := Traverse32(l, v, t, s, f); r.Ok? ==> r.value.trace == []
  {
    hide MaxLeaves32, CeilDivision, CeilDivision32, TraverseChildren32, CreateChildren32, Kept32;
    var k := MaxLeaves32(l, t.depth - 1);
    if k > 0 {
      CeilDivision32Is(s.end, k);
      if CeilDivision32(s.end, k) == 0 {
        NoChildVisited(l, v, t, s, f);
      } else {
        BeforeEnd(s.begin, s.end, k);
        FirstChildFails(l, v, t, s, f, 0, Min(s.begin / k, |t.children| - 1));
      }
    }
  }

  lemma BeforeEnd(begin: nat, end: nat, k: nat)
    requires begin < end && k > 0
    ensures begin / k < CeilDivision(end, k)
  {
    CeilPosition(end, k, begin / k);
    DivBounds(begin, k);
    hide CeilDivision;
  }

  lemma {:induction false} FirstChildFails(l: Layout, v: Visitor, t: Tree, s: Span, f: Flags, i: nat, j: nat)
    requires t.Inner? && t.depth > MAX_DEPTH + 1 && MaxLeaves32(l, t.depth - 1) > 0 && i <= j < |t.children| && t.children[j].Inner? && f.isLeft
    requires var k := MaxLeaves32(l, t.depth - 1); j == Min(s.begin / k, |t.children| - 1) && s.begin / k < CeilDivision32(s.end, k)
    ensures TraverseChildren32(l, v, t, s, f, i).Err?
    decreases j - i
  {
    hide MaxLeaves32, CeilDivision32, Traverse32;
    if i < j {
      FirstChildFails(l, v, t, s, f, i + 1, j);
    }
  }

  lemma NotFitsLater(l: Layout, d: nat, end: nat)
    requires end < U32_SIZE && end > MaxLeaves(l, d) && !RootFits(l, d, end)
    ensures !RootFits(l, d + 1, end) && MaxLeaves32(l, d) == MaxLeaves(l, d) < U32_SIZE
    ensures MaxZeroSubtraction(end, MaxLeaves(l, d + 1)) < MaxZeroSubtraction(end, MaxLeaves(l, d))
  {
    FinalAbove(l, d, end);
    MaxLeaves32Is(l, d);
    WordProofs.Capacity(l, d);
    hide MaxLeaves, MaxLeaves32, FinalDepth;
  }

  /** A walk that does not fit does not do what it should. */
  lemma {:induction false} NotFittingIsWrong(l: Layout, v: Visitor, t: Tree, begin: nat, end: nat, isLeft: bool)
    requires RootOk(l, v, t, begin, end, isLeft) && Representable(l, t, end) && SmallNodes(l) && !RootFits(l, Depth(t), end)
    requires isLeft || Depth(t) <= MAX_DEPTH + 1
    ensures TraverseRoot32(l, v, t, begin, end, isLeft, false) != Ok(TraverseRoot(l, v, t, begin, end, isLeft))
    decreases MaxZeroSubtraction(end, MaxLeaves(l, Depth(t)))
  {
    hide RootOk, MaxLeaves, MaxLeaves32, LeftMax, Leaves, TraverseRoot, TraverseRoot32, FinalDepth, RootFits, SmallNodes, DeeperTree;
    var d, max := Depth(t), MaxLeaves(l, Depth(t));
    if end <= max {
      NotFittingHere(l, v, t, begin, end, isLeft, false);
    } else {
      NotFitsLater(l, d, end);
      if d > MAX_DEPTH {
        NoFurtherLevel(l, v, t, begin, end, isLeft);
      } else if d > 0 && max + MaxLeaves(l, d - 1) - 1 >= U32_SIZE {
        FirstFails(l, v, t, begin, end, isLeft);
      } else {
        DeeperIsOk(l, v, t, begin, end, isLeft);
        NotFittingIsWrong(l, v, DeeperTree(l, v, t, begin, end, isLeft), Max(begin, max), end, false);
        WrongBelow(l, v, t, begin, end, isLeft);
      }
    }
  }

  lemma NoFurtherLevel(l: Layout, v: Visitor, t: Tree, begin: nat, end: nat, isLeft: bool)
    requires Depth(t) > MAX_DEPTH && end > MaxLeaves32(l, Depth(t))
    ensures TraverseRoot32(l, v, t, begin, end, isLeft, false).Err?
  {
    hide MaxLeaves32, FirstOutcome32;
  }

  /** The last level of the walk, or all of a read-only one. */
  lemma NotFittingHere(l: Layout, v: Visitor, t: Tree, begin: nat, end: nat, isLeft: bool, readOnly: bool)
    requires RootOk(l, v, t, begin, end, isLeft) && Representable(l, t, end) && SmallNodes(l) && !RootFits(l, Depth(t), end)
    requires (isLeft || Depth(t) <= MAX_DEPTH + 1) && end <= MaxLeaves(l, Depth(t))
    ensures TraverseRoot32(l, v, t, begin, end, isLeft, readOnly) != Ok(TraverseRoot(l, v, t, begin, end, isLeft))
  {
    hide RootOk, MaxLeaves, MaxLeaves32, LeftMax, Leaves, TraverseRoot, TraverseRoot32, FinalDepth, SmallNodes;
    FinalHere(l, Depth(t), end);
    if end > MaxLeaves32(l, Depth(t)) {
      if readOnly {
        NoReadPastCapacity(l, v, t, begin, end, isLeft);
      } else {
        CutIsWrong(l, v, t, begin, end, isLeft);
      }
    } else if Depth(t) > MAX_DEPTH + 1 {
      UnloadableIsWrong(l, v, t, begin, end, readOnly);
    } else {
      OverflowsAtOnce(l, v, t, begin, end, isLeft, readOnly);
    }
  }

  lemma NoReadPastCapacity(l: Layout, v: Visitor, t: Tree, begin: nat, end: nat, isLeft: bool)
    requires end > MaxLeaves32(l, Depth(t))
    ensures TraverseRoot32(l, v, t, begin, end, isLeft, true).Err?
  {
    hide MaxLeaves32, FirstOutcome32;
  }

  /** A walk in 32 bits is right exactly if it fits. */
  lemma WalkIsRightIff(l: Layout, v: Visitor, t: Tree, begin: nat, end: nat)
    requires RootOk(l, v, t, begin, end, true) && Representable(l, t, end) && SmallNodes(l)
    ensures TraverseRoot32(l, v, t, begin, end, true, false) == Ok(TraverseRoot(l, v, t, begin, end, true)) <==> RootFits(l, Depth(t), end)
  {
    hide RootOk, MaxLeaves, RootFits, TraverseRoot, TraverseRoot32, SmallNodes;
    NotReading(l, v, t, end);
    if RootFits(l, Depth(t), end) {
      Root32Is(l, v, t, begin, end, true, false);
    } else {
      NotFittingIsWrong(l, v, t, begin, end, true);
    }
  }

  /** And so is a read-only one within the leaves of the tree. */
  lemma ReadIsRightIff(l: Layout, v: Visitor, t: Tree, begin: nat, end: nat)
    requires RootOk(l, v, t, begin, end, true) && RootReadOk(l, v, t, end, true) && Representable(l, t, end) && SmallNodes(l)
    ensures TraverseRoot32(l, v, t, begin, end, true, true) == Ok(TraverseRoot(l, v, t, begin, end, true)) <==> RootFits(l, Depth(t), end)
  {
    hide RootOk, RootReadOk, MaxLeaves, RootFits, TraverseRoot, TraverseRoot32, SmallNodes, FirstOutcome;
    ReadOnlyOutcome(l, v, t, begin, end, true, true);
    if RootFits(l, Depth(t), end) {
      Root32Is(l, v, t, begin, end, true, true);
    } else {
      NotFittingHere(l, v, t, begin, end, true, true);
    }
  }

  // ----- A capacity that is cut to a positive number

  /** With blocks of 26024 bytes a node has 1626 children, and the capacity of depth 3 is cut from
      4298942376 leaves to 3975080. */
  function CutBlob(l: Layout): Tree {
    Inner(3, [Full(l, 2), Full(l, 2), Thin(2)])
  }

  lemma Powers1626(l: Layout)
    requires l.maxChildren == 1626
    ensures MaxLeaves(l, 2) == 2643876 && MaxLeaves(l, 3) == 4298942376 && MaxLeaves32(l, 3) == 3975080
  {
    assert Pow(1626, 1) == 1626 * Pow(1626, 0);
    assert Pow(1626, 2) == 1626 * Pow(1626, 1);
    assert Pow(1626, 3) == 1626 * Pow(1626, 2);
  }

  lemma CutBlobIs(l: Layout)
    requires l.maxChildren == 1626
    ensures IsTree(l, CutBlob(l)) && |Leaves(CutBlob(l))| == 5287753
  {
    var a, b := Full(l, 2), Thin(2);
    Powers1626(l);
    FullIs(l, 2);
    ThinIs(l, 2);
    hide Full, Thin, MaxLeaves, MaxLeaves32;
    LeavesLength([a, a, b], MaxLeaves(l, 2));
    assert Leaves(CutBlob(l)) == LeavesOf([a, a, b]);
  }

  /** A blob of 5287753 such leaves: reading its last leaf fails, and writing it goes wrong. */
  lemma CutBlobIsUnreadable(v: Visitor)
    ensures LayoutFor(26024).Ok?
    ensures var l := LayoutFor(26024).value;
            var t, end := CutBlob(l), 5287753;
            && IsTree(l, t) && |Leaves(t)| == end && TraverseRoot32(l, v, t, end - 1, end, true, true).Err?
            && (v.trim.None? ==> TraverseRoot32(l, v, t, end - 1, end, true, false) != Ok(TraverseRoot(l, v, t, end - 1, end, true)))
  {
    var l := LayoutFor(26024).value;
    hide CutBlob, TraverseRoot32, TraverseRoot, Leaves, IsTree;
    CutBlobFails(l, v);
  }

  lemma CutBlobFails(l: Layout, v: Visitor)
    requires l.maxChildren == 1626 && SmallNodes(l)
    ensures var t, end := CutBlob(l), 5287753;
            && IsTree(l, t) && |Leaves(t)| == end && TraverseRoot32(l, v, t, end - 1, end, true, true).Err?
            && (v.trim.None? ==> TraverseRoot32(l, v, t, end - 1, end, true, false) != Ok(TraverseRoot(l, v, t, end - 1, end, true)))
  {
    var t, end := CutBlob(l), 5287753;
    assert Depth(t) == 3;
    hide CutBlob, TraverseRoot32, TraverseRoot, Leaves, MaxLeaves, MaxLeaves32, LeftMax, SmallNodes;
    CutBlobIs(l);
    Powers1626(l);
    NoReadPastCapacity(l, v, t, end - 1, end, true);
    if v.trim.None? {
      CutIsWrong(l, v, t, end - 1, end, true);
    }
  }
}
