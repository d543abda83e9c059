/** Walks that the 32-bit arithmetic gets wrong. */
module WordFailures {
  import opened Bytes
  import opened BlobMath
  import opened BlobTree
  import opened LeafTraverser
  import opened TraversalProofs
  import opened WordTraverser
  import opened WordProofs

  // ----- Walks over no leaf make no callback

  lemma EmptyChild(s: Span, k: nat, j: nat)
    requires s.begin == s.end < U32_SIZE && 0 < k < U32_SIZE && j < CeilDivision32(s.end, k)
    ensures var c := ChildSpan32(s, k, j); c.begin == c.end < U32_SIZE
  {
    CeilDivision32Is(s.end, k);
    CeilPosition(s.end, k, j);
    hide CeilDivision, CeilDivision32;
  }

  lemma {:induction false} CreateNothing(l: Layout, v: Visitor, s: Span, d: nat)
    requires s.begin == s.end < U32_SIZE
    ensures var r := Create32(l, v, s, d); r.Ok? ==> r.value.trace == []
    decreases d, 1, 0
  {
    if d > 0 && MaxLeaves32(l, d - 1) > 0 {
      CreateNoChildren(l, v, s, d, 0);
    }
    hide MaxLeaves32, CreateChildren32, Kept32;
  }

  lemma {:induction false} CreateNoChildren(l: Layout, v: Visitor, s: Span, d: nat, j: nat)
    requires d > 0 && MaxLeaves32(l, d - 1) > 0 && s.begin == s.end < U32_SIZE
    ensures var r := CreateChildren32(l, v, s, d, j); r.Ok? ==> r.value.trace == []
    decreases d, 0, CeilDivision32(s.end, MaxLeaves32(l, d - 1)) - j
  {
    var k := MaxLeaves32(l, d - 1);
    hide MaxLeaves32, CeilDivision32, ChildSpan32, Create32;
    if j < CeilDivision32(s.end, k) {
      EmptyChild(s, k, j);
      CreateNothing(l, v, ChildSpan32(s, k, j), d - 1);
      CreateNoChildren(l, v, s, d, j + 1);
    }
  }

  lemma {:induction false} TraverseNothing(l: Layout, v: Visitor, t: Tree, s: Span, f: Flags)
    requires s.begin == s.end < U32_SIZE
    ensures var r := Traverse32(l, v, t, s, f); r.Ok? ==> r.value.trace == []
    decreases t, 2, 0
  {
    if t.Inner? && t.depth > 0 && MaxLeaves32(l, t.depth - 1) > 0 {
      TraverseNoChildren(l, v, t, s, f, 0);
      CreateNoChildren(l, v, s, t.depth, |t.children|);
    }
    hide MaxLeaves32, CreateChildren32, TraverseChildren32, Kept32, CeilDivision32;
  }

  lemma {:induction false} TraverseNoChildren(l: Layout, v: Visitor, t: Tree, s: Span, f: Flags, j: nat)
    requires t.Inner? && t.depth > 0 && MaxLeaves32(l, t.depth - 1) > 0 && s.begin == s.end < U32_SIZE
    ensures var r := TraverseChildren32(l, v, t, s, f, j); r.Ok? ==> r.value.trace == []
    decreases t, 1, |t.children| - j
  {
    hide MaxLeaves32, TraverseChild32;
    if j < |t.children| {
      TraverseNoChild(l, v, t, s, f, j);
      TraverseNoChildren(l, v, t, s, f, j + 1);
    }
  }

  lemma {:induction false} TraverseNoChild(l: Layout, v: Visitor, t: Tree, s: Span, f: Flags, j: nat)
    requires t.Inner? && t.depth > 0 && MaxLeaves32(l, t.depth - 1) > 0 && j < |t.children| && s.begin == s.end < U32_SIZE
    ensures var r := TraverseChild32(l, v, t, s, f, j); r.Ok? ==> r.value.trace == []
    decreases t, 0, 0
  {
    var k, n := MaxLeaves32(l, t.depth - 1), |t.children|;
    var beginChild, endChild := BeginChild(s, k), CeilDivision32(s.end, k);
    TraverseNothing(l, v, t.children[j], Span(k, k, Word32(j * k)), Flags(true, false, true, f.readOnly));
    if beginChild <= j < endChild {
      EmptyChild(s, k, j);
      TraverseNothing(l, v, t.children[j], ChildSpan32(s, k, j),
                      Flags(f.isLeft && j == beginChild, f.isRight && j == n - 1 && n == endChild, (f.grow || endChild > n) && j == n - 1, f.readOnly));
    }
    hide MaxLeaves32, Traverse32, CeilDivision32, BeginChild, ChildSpan32, Word32;
  }

  // ----- The rounding division overflows

  /** If the number of children comes out as zero, the walk fails or visits no leaf. */
  lemma {:induction false} NoChildVisited(l: Layout, v: Visitor, t: Tree, s: Span, f: Flags)
    requires t.Inner? && t.depth > 0 && MaxLeaves32(l, t.depth - 1) > 0 && CeilDivision32(s.end, MaxLeaves32(l, t.depth - 1)) == 0
    ensures var r := Traverse32(l, v, t, s, f); r.Ok? ==> r.value.trace == []
    ensures f.grow && t.children != [] ==> Traverse32(l, v, t, s, f).Err?
  {
    OnlyFilled(l, v, t, s, f, 0);
    assert CreateChildren32(l, v, s, t.depth, |t.children|) == Ok(Outcomes([], []));
    hide MaxLeaves32, CreateChildren32, TraverseChildren32, Kept32, CeilDivision32;
  }

  lemma {:induction false} OnlyFilled(l: Layout, v: Visitor, t: Tree, s: Span, f: Flags, j: nat)
    requires t.Inner? && t.depth > 0 && MaxLeaves32(l, t.depth - 1) > 0 && CeilDivision32(s.end, MaxLeaves32(l, t.depth - 1)) == 0
    ensures var r := TraverseChildren32(l, v, t, s, f, j); r.Ok? ==> r.value.trace == []
    decreases |t.children| - j
  {
    if j < |t.children| {
      var k := MaxLeaves32(l, t.depth - 1);
      TraverseNothing(l, v, t.children[j], Span(k, k, Word32(j * k)), Flags(true, false, true, f.readOnly));
      hide MaxLeaves32, CeilDivision32, Traverse32, BeginChild;
      OnlyFilled(l, v, t, s, f, j + 1);
    }
  }

  /** The sum that rounds up the number of children overflows at the final depth. */
  predicate Overflows(l: Layout, d: nat, end: nat) {
    var f := FinalDepth(l, d, end);
    f > 0 && end + MaxLeaves(l, f - 1) - 1 >= U32_SIZE
  }

  /** What the indices of a walk must satisfy to be 32-bit numbers at all. */
  ghost predicate Representable(l: Layout, t: Tree, end: nat) {
    end < U32_SIZE && (Depth(t) > 0 ==> MaxLeaves(l, Depth(t) - 1) < U32_SIZE)
  }

  lemma OverflowsAtOnce(l: Layout, v: Visitor, t: Tree, begin: nat, end: nat, isLeft: bool, readOnly: bool)
    requires RootOk(l, v, t, begin, end, isLeft) && Representable(l, t, end)
    requires end <= MaxLeaves(l, Depth(t)) && end <= MaxLeaves32(l, Depth(t)) && Overflows(l, Depth(t), end)
    ensures TraverseRoot32(l, v, t, begin, end, isLeft, readOnly) != Ok(TraverseRoot(l, v, t, begin, end, isLeft))
  {
    var d := Depth(t);
    assert t.Inner? && t.depth == d && begin < end;
    MaxLeaves32Is(l, d - 1);
    CeilDivision32Is(end, MaxLeaves(l, d - 1));
    hide RootOk, MaxLeaves, MaxLeaves32, CeilDivision, CeilDivision32, TraverseRoot, Collapse, Traverse32, FinalDepth;
    NoChildVisited(l, v, t, Span(begin, end, 0), Flags(isLeft, true, false, readOnly));
    SomeVisits(l, v, t, begin, end, isLeft);
  }

  lemma SomeVisits(l: Layout, v: Visitor, t: Tree, begin: nat, end: nat, isLeft: bool)
    requires RootOk(l, v, t, begin, end, isLeft)
    ensures TraverseRoot(l, v, t, begin, end, isLeft).trace != []
  {
    assert begin < end;
    hide RootOk, TraverseRoot, IsTree, Leaves, Walk.After, Walk.SlotAt;
    RootAchieves(l, v, t, begin, end, isLeft);
  }

  /** At a depth that is not yet the final one, the overflow is caught by an assertion. */
  lemma OverflowsEarly(l: Layout, v: Visitor, t: Tree, begin: nat, end: nat, isLeft: bool)
    requires RootOk(l, v, t, begin, end, isLeft) && end < U32_SIZE && end > MaxLeaves(l, Depth(t)) && Depth(t) > 0
    requires MaxLeaves(l, Depth(t)) + MaxLeaves(l, Depth(t) - 1) - 1 >= U32_SIZE
    ensures FirstOutcome32(l, v, t, begin, end, isLeft, false).Err?
  {
    var d, max := Depth(t), MaxLeaves(l, Depth(t));
    assert t.Inner? && t.depth == d && t.children != [];
    OneLevel(l, d);
    MaxLeaves32Is(l, d);
    MaxLeaves32Is(l, d - 1);
    CeilDivision32Is(max, MaxLeaves(l, d - 1));
    hide MaxLeaves, MaxLeaves32, LeftMax, Leaves, CeilDivision, CeilDivision32, Traverse32;
    NoChildVisited(l, v, t, Span(Min(begin, max), Min(end, max), 0), Flags(isLeft, false, true, false));
  }

  /** The first part fits as long as its own sum does not overflow. */
  lemma FirstPartExact(l: Layout, v: Visitor, t: Tree, begin: nat, end: nat, isLeft: bool)
    requires RootOk(l, v, t, begin, end, isLeft) && end < U32_SIZE && end > MaxLeaves(l, Depth(t)) && SmallNodes(l) && Depth(t) <= MAX_DEPTH
    requires Depth(t) > 0 ==> MaxLeaves(l, Depth(t)) + MaxLeaves(l, Depth(t) - 1) - 1 < U32_SIZE
    ensures FirstOutcome32(l, v, t, begin, end, isLeft, false) == Ok(FirstOutcome(l, v, t, begin, end, isLeft))
  {
    var w, d := FirstPart(l, v, t, begin, end), Depth(t);
    OneLevel(l, d);
    MaxLeaves32Is(l, d);
    if t.Leaf? {
      assert MaxLeaves(l, 0) == 1;
    } else {
      NotReading(l, v, t, end);
      FirstWalks(l, v, t, begin, end, isLeft, false);
      assert Fits(w, d);
      hide MaxLeaves, MaxLeaves32, Traverse, Traverse32, WalksOver, Fits, ReadOk, LeftMax, Leaves;
      Traverse32Is(w, d, t, isLeft, false);
    }
  }

  lemma FinalHere(l: Layout, d: nat, end: nat)
    requires end <= MaxLeaves(l, d)
    ensures FinalDepth(l, d, end) == d
  {
  }

  lemma DeeperIsOk(l: Layout, v: Visitor, t: Tree, begin: nat, end: nat, isLeft: bool)
    requires RootOk(l, v, t, begin, end, isLeft) && end > MaxLeaves(l, Depth(t))
    ensures var t' := DeeperTree(l, v, t, begin, end, isLeft);
            Depth(t') == Depth(t) + 1 && RootOk(l, v, t', Max(begin, MaxLeaves(l, Depth(t))), end, false)
  {
    hide RootOk, MaxLeaves, Leaves, FirstOutcome, FirstPart;
    DeeperOk(l, v, t, begin, end, isLeft);
  }

  /** A wrong rest makes the whole wrong. */
  lemma WrongBelow(l: Layout, v: Visitor, t: Tree, begin: nat, end: nat, isLeft: bool)
    requires RootOk(l, v, t, begin, end, isLeft) && end < U32_SIZE && SmallNodes(l) && Depth(t) <= MAX_DEPTH
    requires MaxLeaves32(l, Depth(t)) == MaxLeaves(l, Depth(t)) < end
    requires Depth(t) > 0 ==> MaxLeaves(l, Depth(t)) + MaxLeaves(l, Depth(t) - 1) - 1 < U32_SIZE
    requires var t', max := DeeperTree(l, v, t, begin, end, isLeft), MaxLeaves(l, Depth(t));
             TraverseRoot32(l, v, t', Max(begin, max), end, false, false) != Ok(TraverseRoot(l, v, t', Max(begin, max), end, false))
    ensures TraverseRoot32(l, v, t, begin, end, isLeft, false) != Ok(TraverseRoot(l, v, t, begin, end, isLeft))
  {
    assert begin < end;
    hide RootOk, MaxLeaves, MaxLeaves32, FirstOutcome, FirstOutcome32, TraverseRoot, TraverseRoot32, SmallNodes;
    var r, t', max := FirstOutcome(l, v, t, begin, end, isLeft), DeeperTree(l, v, t, begin, end, isLeft), MaxLeaves(l, Depth(t));
    FirstPartExact(l, v, t, begin, end, isLeft);
    RootUnfolds(l, v, t, begin, end, isLeft);
    Deeper32(l, v, t, begin, end, isLeft, r, max);
    SameTail(r, TraverseRoot(l, v, t', Max(begin, max), end, false), TraverseRoot32(l, v, t', Max(begin, max), end, false, false));
  }

  lemma FirstFails(l: Layout, v: Visitor, t: Tree, begin: nat, end: nat, isLeft: bool)
    requires RootOk(l, v, t, begin, end, isLeft) && end < U32_SIZE && end > MaxLeaves(l, Depth(t)) && Depth(t) > 0
    requires MaxLeaves(l, Depth(t)) + MaxLeaves(l, Depth(t) - 1) - 1 >= U32_SIZE
    ensures TraverseRoot32(l, v, t, begin, end, isLeft, false).Err?
  {
    OverflowsEarly(l, v, t, begin, end, isLeft);
    hide FirstOutcome32, MaxLeaves32, MaxLeaves, LeftMax, Leaves, KeepsFull;
  }

  lemma SameTail(r: Outcome, rest: Outcome, rest': Result<Outcome>)
    requires rest' != Ok(rest)
    ensures rest'.Ok? ==> Outcome(rest'.value.tree, r.trace + rest'.value.trace) != Outcome(rest.tree, r.trace + rest.trace)
  {
    if rest'.Ok? && r.trace + rest'.value.trace == r.trace + rest.trace {
      assert (r.trace + rest'.value.trace)[|r.trace|..] == rest'.value.trace;
      assert (r.trace + rest.trace)[|r.trace|..] == rest.trace;
    }
  }

  // ----- The capacity is cut to nothing

  /** Over a tree whose capacity comes out as zero, every walk fails. */
  lemma NoCapacity(l: Layout, v: Visitor, t: Tree, begin: nat, end: nat, isLeft: bool, readOnly: bool)
    requires LeftMax(l, Depth(t), t) && Depth(t) > 0 && MaxLeaves32(l, Depth(t)) == 0 && begin < end
    ensures TraverseRoot32(l, v, t, begin, end, isLeft, readOnly).Err?
  {
    var d := Depth(t);
    assert t.Inner? && t.depth == d && t.children != [];
    hide MaxLeaves32, LeftMax, Leaves;
    if MaxLeaves32(l, d - 1) > 0 {
      CeilDivision32Is(0, MaxLeaves32(l, d - 1));
      CeilIs(0, MaxLeaves32(l, d - 1), 0);
      hide CeilDivision32, Traverse32;
      NoChildVisited(l, v, t, Span(0, 0, 0), Flags(isLeft, false, true, readOnly));
    }
  }

  /** All nodes and leaves that depth `d` has room for. */
  function Full(l: Layout, d: nat): Tree {
    if d == 0 then Leaf(Zeros(l.maxBytes)) else Inner(d, Repeat(Full(l, d - 1), l.maxChildren))
  }

  /** One leaf at depth `d`. */
  function Thin(d: nat): Tree {
    if d == 0 then Leaf([]) else Inner(d, [Thin(d - 1)])
  }

  lemma {:induction false} FullIs(l: Layout, d: nat)
    ensures LeftMax(l, d, Full(l, d)) && |Leaves(Full(l, d))| == MaxLeaves(l, d)
  {
    if d > 0 {
      var c, m, k := Full(l, d - 1), l.maxChildren, MaxLeaves(l, d - 1);
      FullIs(l, d - 1);
      assert MaxLeaves(l, d) == m * k;
      LeavesLength(Repeat(c, m), k);
      MulAdd(m - 1, 1, k);
    }
  }

  lemma {:induction false} ThinIs(l: Layout, d: nat)
    ensures LeftMax(l, d, Thin(d)) && Leaves(Thin(d)) == [[]]
  {
    if d > 0 {
      ThinIs(l, d - 1);
      SingletonLeaves(Thin(d - 1));
    }
  }

  /** A blob with 2^28 + 1 leaves, in blocks of 264 bytes. */
  function HugeBlob(l: Layout): Tree {
    Inner(8, [Full(l, 7), Thin(7)])
  }

  lemma HugeBlobIs(l: Layout)
    requires l.maxChildren == 16
    ensures IsTree(l, HugeBlob(l)) && |Leaves(HugeBlob(l))| == 0x1000_0001 && MaxLeaves32(l, 8) == 0
  {
    var a, b := Full(l, 7), Thin(7);
    Powers16(l);
    FullIs(l, 7);
    ThinIs(l, 7);
    hide Full, Thin, MaxLeaves, MaxLeaves32;
    LeavesLength([a, b], MaxLeaves(l, 7));
    assert Leaves(HugeBlob(l)) == LeavesOf([a, b]);
  }

  lemma Powers16(l: Layout)
    requires l.maxChildren == 16
    ensures MaxLeaves(l, 7) == 0x1000_0000 && MaxLeaves32(l, 8) == 0
  {
    assert Pow(16, 1) == 16 * Pow(16, 0);
    assert Pow(16, 2) == 16 * Pow(16, 1);
    assert Pow(16, 3) == 16 * Pow(16, 2);
    assert Pow(16, 4) == 16 * Pow(16, 3);
    assert Pow(16, 5) == 16 * Pow(16, 4);
    assert Pow(16, 6) == 16 * Pow(16, 5);
    assert Pow(16, 7) == 16 * Pow(16, 6);
    assert Pow(16, 8) == 16 * Pow(16, 7);
  }

  /** With blocks of 264 bytes, a blob of 2^28 + 1 leaves cannot be read or written at all: every
      walk over it fails. */
  lemma HugeBlobIsUnreadable(v: Visitor, begin: nat, end: nat, readOnly: bool)
    requires begin < end
    ensures LayoutFor(264).Ok?
    ensures var l := LayoutFor(264).value;
            var t := HugeBlob(l);
            IsTree(l, t) && |Leaves(t)| == 0x1000_0001 && TraverseRoot32(l, v, t, begin, end, true, readOnly).Err?
  {
    var l := LayoutFor(264).value;
    HugeBlobIs(l);
    hide LayoutFor, HugeBlob, TraverseRoot32, Leaves;
    assert Depth(HugeBlob(l)) == 8 by { HugeDepth(l); }
    NoCapacity(l, v, HugeBlob(l), begin, end, true, readOnly);
  }

  lemma HugeDepth(l: Layout)
    ensures Depth(HugeBlob(l)) == 8
  {
  }
}
