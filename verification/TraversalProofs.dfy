/** What a walk over the leaves does to a left-max tree: it stays left-max, its leaves change
    exactly as `Walk.After` says, and the callbacks are those of `Walk.Trace`, in order. */
module TraversalProofs {
  import opened Bytes
  import opened BlobMath
  import opened BlobTree
  import opened LeafTraverser

  // ----- The walk seen from one child

  /** The number of pieces of length `k` that hold the old leaves. */
  function OldChildren(w: Walk, k: nat): nat
    requires k > 0
  {
    CeilDivision(|w.x|, k)
  }

  function ChildLeaves(x: seq<LeafData>, k: nat, j: nat): seq<LeafData> {
    if j * k < |x| then Chunk(x, k, j) else []
  }

  function ChildWalk(w: Walk, k: nat, j: nat): Walk
    requires k > 0
  {
    var n, endChild := OldChildren(w, k), CeilDivision(w.s.end, k);
    Walk(w.l, w.v, ChildLeaves(w.x, k, j), ChildSpan(w.s, k, j),
         w.isRight && j == n - 1 && n == endChild, (w.grow || endChild > n) && j == n - 1)
  }

  /** The walk that only fills the last old child up. */
  function FillWalk(w: Walk, k: nat, j: nat): Walk {
    Walk(w.l, w.v, ChildLeaves(w.x, k, j), Span(k, k, j * k), false, true)
  }

  /** What callers of the walk over a subtree of depth `d` guarantee. */
  ghost predicate WalkOk(w: Walk, d: nat, isLeft: bool) {
    && w.s.begin <= w.s.end && 1 <= w.s.end <= MaxLeaves(w.l, d)
    && (w.s.begin < w.s.end || w.grow)
    && (w.grow ==> w.s.end == MaxLeaves(w.l, d) && !w.isRight)
    && w.x != []
    && (isLeft || w.s.begin == 0 || FullFirstChild(w, d))
    && TrimOk(w, d)
  }

  /** A root that has just been put above a full tree, and a walk to the right of that. */
  ghost predicate FullFirstChild(w: Walk, d: nat) {
    d > 0 && |w.x| == MaxLeaves(w.l, d - 1) <= w.s.begin && |w.x[|w.x| - 1]| == w.l.maxBytes
  }

  /** Trimming happens for walks over the one leaf that is to become the last. */
  ghost predicate TrimOk(w: Walk, d: nat) {
    w.Trims() ==>
      && w.s.begin + 1 == w.s.end && w.v.trim.value == w.s.offset + w.s.end
      && w.s.offset % MaxLeaves(w.l, d) == 0
  }

  /** The arithmetic of child `j`: `base` is its first leaf, `n` the number of old children. */
  ghost predicate Position(w: Walk, k: nat, j: nat, n: nat, e: nat) {
    && k > 0 && n == OldChildren(w, k) && e == CeilDivision(w.s.end, k)
    && (j < n ==> j * k < |w.x|) && (j >= n ==> j * k >= |w.x|)
    && (j < n - 1 ==> j * k + k < |w.x|) && (j >= n - 1 ==> j * k + k >= |w.x|)
    && (j < e ==> j * k < w.s.end) && (j >= e ==> j * k >= w.s.end)
    && (j < e - 1 ==> j * k + k < w.s.end) && (j >= e - 1 ==> j * k + k >= w.s.end)
    && (j < BeginChild(w.s, k) ==> j * k + k <= w.s.begin) && (j >= BeginChild(w.s, k) ==> w.s.begin < j * k + k)
  }

  lemma CeilPosition(a: nat, k: nat, j: nat)
    requires k > 0
    ensures var q := CeilDivision(a, k);
            && (j < q ==> j * k < a) && (j >= q ==> j * k >= a)
            && (j < q - 1 ==> j * k + k < a) && (j >= q - 1 ==> j * k + k >= a)
  {
    hide CeilDivision;
    var q := CeilDivision(a, k);
    CeilBounds(a, k);
    MulAdd(j, 1, k);
    if q > 0 {
      MulAdd(q - 1, 1, k);
    }
    if j >= q { MulMono(q, j, k); }
    if j < q { MulMono(j, q - 1, k); }
    if j + 1 < q { MulMono(j + 1, q - 1, k); }
    if j + 1 >= q { MulMono(q, j + 1, k); }
  }

  lemma DivPosition(a: nat, k: nat, j: nat)
    requires k > 0
    ensures (j < a / k ==> j * k + k <= a) && (j >= a / k ==> a < j * k + k)
  {
    DivBounds(a, k);
    MulAdd(j, 1, k);
    if j < a / k { MulMono(j + 1, a / k, k); }
    if j >= a / k { MulMono(a / k, j, k); }
  }

  lemma ChildPosition(w: Walk, k: nat, j: nat)
    requires k > 0
    ensures Position(w, k, j, OldChildren(w, k), CeilDivision(w.s.end, k))
  {
    CeilPosition(|w.x|, k, j);
    CeilPosition(w.s.end, k, j);
    DivPosition(w.s.begin, k, j);
  }

  lemma ChildLeaf(x: seq<LeafData>, k: nat, j: nat, i: nat)
    requires i < k
    ensures |ChildLeaves(x, k, j)| == Min(k, MaxZeroSubtraction(|x|, j * k))
    ensures i < |ChildLeaves(x, k, j)| ==> ChildLeaves(x, k, j)[i] == x[j * k + i]
  {
  }

  /** A child sees its leaves as the whole walk does. */
  lemma ChildSlot(w: Walk, k: nat, j: nat, i: nat)
    requires k > 0 && i < k && j < CeilDivision(w.s.end, k) && !(w.grow && w.isRight)
    requires w.grow ==> |w.x| <= w.s.end
    ensures ChildWalk(w, k, j).SlotAt(i) == w.SlotAt(j * k + i)
  {
    hide CeilDivision, ChildLeaves, ResizeLeaf;
    ChildPosition(w, k, j);
    ChildLeaf(w.x, k, j, i);
  }

  lemma FillSlot(w: Walk, k: nat, j: nat, i: nat)
    requires k > 0 && i < k && j + 1 == OldChildren(w, k) && !(w.grow && w.isRight)
    requires BeginChild(w.s, k) > j && (w.grow || w.s.begin < w.s.end)
    ensures FillWalk(w, k, j).SlotAt(i) == w.SlotAt(j * k + i)
  {
    hide CeilDivision, ChildLeaves, ResizeLeaf;
    ChildPosition(w, k, j);
    ChildLeaf(w.x, k, j, i);
  }

  /** The number of leaves a child ends up with is the length of its chunk of the result. */
  lemma ChildCount(w: Walk, k: nat, j: nat)
    requires k > 0 && j < CeilDivision(w.s.end, k) && w.s.begin <= w.s.end
    requires w.Trims() ==> w.s.begin + 1 == w.s.end
    requires BeginChild(w.s, k) <= j || OldChildren(w, k) <= j
    ensures j * k < w.Count() && ChildWalk(w, k, j).Count() == Min(k, w.Count() - j * k)
  {
    hide CeilDivision, ChildLeaves;
    ChildPosition(w, k, j);
    ChildLeaf(w.x, k, j, 0);
  }

  lemma InSpan(w: Walk, k: nat, j: nat, i: nat)
    requires k > 0 && i < k
    ensures var s := ChildSpan(w.s, k, j);
            (s.begin <= i < s.end <==> w.s.begin <= j * k + i < w.s.end) && s.offset + i == w.s.offset + (j * k + i)
  {
  }

  lemma ChildLeafAt(w: Walk, k: nat, j: nat, i: nat)
    requires k > 0 && i < k && j < CeilDivision(w.s.end, k) && !(w.grow && w.isRight)
    requires w.grow ==> |w.x| <= w.s.end
    ensures ChildWalk(w, k, j).LeafAt(i) == w.LeafAt(j * k + i)
  {
    hide CeilDivision, ChildLeaves, ChildWalk, Walk.SlotAt, ChildSpan;
    ChildWalkFields(w, k, j);
    ChildSlot(w, k, j, i);
    InSpan(w, k, j, i);
  }

  /** After the walk, a child that lies in it holds its chunk of the result. */
  lemma ChildAfter(w: Walk, k: nat, j: nat)
    requires k > 0 && j < CeilDivision(w.s.end, k) && w.s.begin <= w.s.end && !(w.grow && w.isRight)
    requires w.grow ==> |w.x| <= w.s.end
    requires w.Trims() ==> w.s.begin + 1 == w.s.end
    requires BeginChild(w.s, k) <= j || OldChildren(w, k) <= j
    ensures IsChunk(ChildWalk(w, k, j).After(), w.After(), k, j)
  {
    hide CeilDivision, ChildLeaves, ChildWalk, Walk.Count, Walk.LeafAt, ChildSpan, BeginChild, OldChildren;
    var c := ChildWalk(w, k, j);
    ChildCount(w, k, j);
    ChildWalkFields(w, k, j);
    forall i | 0 <= i < |c.After()| ensures c.After()[i] == w.After()[j * k + i] {
      ChildLeafAt(w, k, j, i);
    }
  }

  lemma ChildWalkFields(w: Walk, k: nat, j: nat)
    requires k > 0
    ensures var c := ChildWalk(w, k, j);
            c.l == w.l && c.v == w.v && c.s == ChildSpan(w.s, k, j) && c.x == ChildLeaves(w.x, k, j)
  {
  }

  /** The walk that fills the last child up leaves its chunk of the result there. */
  lemma FillAfter(w: Walk, k: nat, j: nat)
    requires k > 0 && j + 1 == OldChildren(w, k) && !(w.grow && w.isRight) && !(w.Trims() && w.s.begin + 1 != w.s.end)
    requires BeginChild(w.s, k) > j && w.s.begin <= w.s.end && (w.grow || w.s.begin < w.s.end)
    ensures IsChunk(FillWalk(w, k, j).After(), w.After(), k, j)
  {
    hide CeilDivision, ChildLeaves, Walk.SlotAt;
    var c := FillWalk(w, k, j);
    ChildPosition(w, k, j);
    ChildLeaf(w.x, k, j, 0);
    assert |c.After()| == k && j * k + k <= |w.After()|;
    forall i | 0 <= i < k ensures c.After()[i] == w.After()[j * k + i] {
      FillSlot(w, k, j, i);
    }
  }

  lemma UntouchedLeaf(w: Walk, p: nat)
    requires p < |w.x| && !(w.s.begin <= p < w.s.end)
    requires p == |w.x| - 1 && (w.grow || w.s.end > |w.x|) ==> |w.x[p]| == w.l.maxBytes
    ensures w.LeafAt(p) == w.x[p]
  {
  }

  /** The children that the walk leaves alone. */
  ghost predicate Untouched(w: Walk, d: nat, isLeft: bool, k: nat, j: nat) {
    && d > 0 && k == MaxLeaves(w.l, d - 1)
    && WalkOk(w, d, isLeft) && j < OldChildren(w, k) && |w.x| <= MaxLeaves(w.l, d)
    && (j < BeginChild(w.s, k) || (j >= CeilDivision(w.s.end, k) && !w.Trims()))
    && (isLeft ==> j + 1 < OldChildren(w, k) || j >= BeginChild(w.s, k))
  }

  lemma UntouchedCount(w: Walk, d: nat, isLeft: bool, k: nat, j: nat)
    requires Untouched(w, d, isLeft, k, j)
    ensures j * k <= w.Count() && |ChildLeaves(w.x, k, j)| == Min(k, w.Count() - j * k)
  {
    ChildPosition(w, k, j);
    ChildPosition(w, k, 0);
    hide CeilDivision, MaxLeaves, ChildLeaves, BeginChild, TrimOk;
    ChildLeaf(w.x, k, j, 0);
  }

  lemma UntouchedPosition(w: Walk, d: nat, isLeft: bool, k: nat, j: nat, i: nat)
    requires Untouched(w, d, isLeft, k, j) && i < k && j * k + i < |w.x|
    ensures w.LeafAt(j * k + i) == w.x[j * k + i]
  {
    ChildPosition(w, k, j);
    ChildPosition(w, k, 0);
    hide CeilDivision, MaxLeaves, ResizeLeaf, ChildLeaves, Walk.LeafAt, BeginChild, TrimOk;
    UntouchedLeaf(w, j * k + i);
  }

  /** A child that the walk does not enter keeps its leaves, as the result says it should. */
  lemma UntouchedAfter(w: Walk, d: nat, isLeft: bool, k: nat, j: nat)
    requires Untouched(w, d, isLeft, k, j)
    ensures IsChunk(ChildLeaves(w.x, k, j), w.After(), k, j)
  {
    hide Untouched, ChildLeaves, Walk.LeafAt, Walk.Count;
    var c := ChildLeaves(w.x, k, j);
    UntouchedCount(w, d, isLeft, k, j);
    forall i | 0 <= i < |c| ensures c[i] == w.After()[j * k + i] {
      ChildLeaf(w.x, k, j, i);
      UntouchedPosition(w, d, isLeft, k, j, i);
    }
  }

  // ----- Callbacks

  /** The callbacks for the leaves of child `j`. */
  function ChildTrace(w: Walk, k: nat, j: nat): seq<Visit> {
    w.Visits(Max(w.s.begin, j * k), Min(w.s.end, j * k + k))
  }

  /** A child makes the callbacks of its part of the walk. */
  lemma ChildVisits(w: Walk, k: nat, j: nat)
    requires k > 0 && j < CeilDivision(w.s.end, k) && !(w.grow && w.isRight) && w.s.begin <= w.s.end
    requires w.grow ==> |w.x| <= w.s.end
    ensures ChildWalk(w, k, j).Trace() == ChildTrace(w, k, j)
  {
    hide CeilDivision, ChildLeaves, ChildWalk, Walk.SlotAt, VisitOf, Walk.Visits;
    var c, s := ChildWalk(w, k, j), ChildSpan(w.s, k, j);
    ChildWalkFields(w, k, j);
    SpanPlace(w, k, j);
    hide ChildSpan;
    forall i | 0 <= i < |c.Trace()| ensures c.Trace()[i] == ChildTrace(w, k, j)[i] {
      ChildSlot(w, k, j, s.begin + i);
      assert j * k + (s.begin + i) == Max(w.s.begin, j * k) + i;
    }
  }

  /** Where the span of a child lies in the whole walk. */
  lemma SpanPlace(w: Walk, k: nat, j: nat)
    requires k > 0 && j < CeilDivision(w.s.end, k) && w.s.begin <= w.s.end
    ensures var s := ChildSpan(w.s, k, j);
            && s.offset == w.s.offset + j * k && s.end <= k && j * k + s.end == Min(w.s.end, j * k + k)
            && (if s.begin < s.end then j * k + s.begin == Max(w.s.begin, j * k) else Max(w.s.begin, j * k) >= Min(w.s.end, j * k + k))
  {
    hide CeilDivision;
    ChildPosition(w, k, j);
  }

  lemma JoinVisits(w: Walk, a: nat, b: nat, c: nat)
    requires a <= b <= c
    ensures w.Visits(a, b) + w.Visits(b, c) == w.Visits(a, c)
  {
  }

  /** The callbacks of consecutive children, put one after the other. */
  lemma NextVisits(w: Walk, k: nat, j: nat, end: nat)
    requires end == w.s.end || j * k + k <= end <= w.s.end
    ensures ChildTrace(w, k, j) + w.Visits(Max(w.s.begin, (j + 1) * k), end)
            == w.Visits(Max(w.s.begin, j * k), end)
  {
  }

  lemma NextVisitsWithin(w: Walk, k: nat, j: nat, n: nat)
    requires j < n
    ensures ChildTrace(w, k, j) + w.Visits(Max(w.s.begin, (j + 1) * k), Min(w.s.end, n * k))
            == w.Visits(Max(w.s.begin, j * k), Min(w.s.end, n * k))
  {
    hide Walk.SlotAt, Walk.Visits;
    MulAdd(j, 1, k);
    MulMono(j + 1, n, k);
    NextVisits(w, k, j, Min(w.s.end, n * k));
  }

  // ----- Trimming

  lemma MultipleShift(offset: nat, m: nat, k: nat, j: nat)
    requires m > 0 && k > 0 && offset % (m * k) == 0
    ensures (offset + j * k) % k == 0
  {
    var q := offset / (m * k);
    assert offset == q * (m * k) + 0;
    MulAssoc(q, m, k);
    MulAdd(q * m, j, k);
    ModAdd(q * m + j, 0, k);
  }

  /** The trimming formula, which works with leaf numbers of the whole tree, keeps as many
      children of a right border node as its part of the leaves needs; always at least one and
      at most the maximum. */
  lemma NeededIs(l: Layout, offset: nat, end: nat, d: nat)
    requires d > 0 && offset % MaxLeaves(l, d) == 0 && 1 <= end <= MaxLeaves(l, d)
    ensures NeededChildren(l, offset + end, d) == CeilDivision(end, MaxLeaves(l, d - 1))
    ensures 1 <= CeilDivision(end, MaxLeaves(l, d - 1)) <= l.maxChildren
  {
    var m, k := l.maxChildren, MaxLeaves(l, d - 1);
    assert MaxLeaves(l, d) == m * k;
    hide CeilDivision, MaxLeaves;
    var q, c := offset / (m * k), CeilDivision(end, k);
    assert offset == q * (m * k) by { DivBounds(offset, m * k); }
    MulAssoc(q, m, k);
    CeilShift(q * m, end, k);
    CeilPosition(end, k, m);
    CeilPosition(end, k, 0);
    CeilShift(q, c, m);
    CeilIs(c, m, 1);
    assert (q + 1 - 1) * m == q * m;
  }

  lemma TrimChild(w: Walk, d: nat, k: nat, j: nat)
    requires d > 0 && k == MaxLeaves(w.l, d - 1) && TrimOk(w, d) && w.s.begin <= w.s.end
    requires j < CeilDivision(w.s.end, k)
    ensures TrimOk(ChildWalk(w, k, j), d - 1)
  {
    assert MaxLeaves(w.l, d) == w.l.maxChildren * k;
    hide CeilDivision, MaxLeaves, ChildLeaves;
    ChildPosition(w, k, j);
    if w.Trims() {
      MultipleShift(w.s.offset, w.l.maxChildren, k, j);
    }
  }

  // ----- Subtrees

  /** `r` is a correct outcome of the walk `w` over a subtree of depth `d`. */
  ghost predicate Achieves(r: Outcome, w: Walk, d: nat) {
    LeftMax(w.l, d, r.tree) && Leaves(r.tree) == w.After() && r.trace == w.Trace()
  }

  /** The trees hold the chunks of the result from number `j` on. */
  ghost predicate HoldChunks(w: Walk, d: nat, ts: seq<Tree>, j: nat)
    requires d > 0
  {
    forall i | 0 <= i < |ts| :: ChildDone(w, d, ts[i], j + i)
  }

  ghost predicate ChildDone(w: Walk, d: nat, t: Tree, j: nat)
    requires d > 0
  {
    var k := MaxLeaves(w.l, d - 1);
    LeftMax(w.l, d - 1, t) && (j * k < w.Count() ==> HoldsChunk(t, w.After(), k, j))
  }

  lemma ConsChunks(w: Walk, d: nat, t: Tree, ts: seq<Tree>, j: nat)
    requires d > 0 && ChildDone(w, d, t, j) && HoldChunks(w, d, ts, j + 1)
    ensures HoldChunks(w, d, [t] + ts, j)
  {
  }

  lemma AppendChunks(w: Walk, d: nat, ts: seq<Tree>, us: seq<Tree>)
    requires d > 0 && HoldChunks(w, d, ts, 0) && HoldChunks(w, d, us, |ts|)
    ensures HoldChunks(w, d, ts + us, 0)
  {
  }

  /** Children that hold the chunks, with the surplus trimmed, make up the result. */
  lemma AssembleNode(w: Walk, d: nat, ts: seq<Tree>)
    requires d > 0 && w.s.begin <= w.s.end && 1 <= w.s.end <= MaxLeaves(w.l, d) && |w.x| <= MaxLeaves(w.l, d)
    requires TrimOk(w, d) && HoldChunks(w, d, ts, 0)
    requires |ts| == Max(OldChildren(w, MaxLeaves(w.l, d - 1)), CeilDivision(w.s.end, MaxLeaves(w.l, d - 1)))
    ensures var kept := if w.s.begin < w.s.end then Backtrack(w.l, w.v, d, ts) else ts;
            LeftMax(w.l, d, Inner(d, kept)) && Leaves(Inner(d, kept)) == w.After()
  {
    var m, k := w.l.maxChildren, MaxLeaves(w.l, d - 1);
    assert MaxLeaves(w.l, d) == m * k;
    hide MaxLeaves, CeilDivision, NeededChildren;
    var kept := if w.s.begin < w.s.end then Backtrack(w.l, w.v, d, ts) else ts;
    var n, e := OldChildren(w, k), CeilDivision(w.s.end, k);
    if w.Trims() {
      NeededIs(w.l, w.s.offset, w.s.end, d);
      assert kept == ts[..e];
    }
    CeilPosition(|w.x|, k, m);
    CeilPosition(w.s.end, k, m);
    CeilOfMax(|w.x|, w.s.end, k);
    assert |kept| == CeilDivision(w.Count(), k) <= m;
    forall j | 0 <= j < |kept| ensures LeftMax(w.l, d - 1, kept[j]) && HoldsChunk(kept[j], w.After(), k, j) {
      CeilPosition(w.Count(), k, j);
      assert kept[j] == ts[j] && ChildDone(w, d, ts[j], 0 + j);
    }
    LeftMaxFromChunks(w.l, d, kept, w.After());
  }

  lemma CeilOfMax(a: nat, b: nat, k: nat)
    requires k > 0
    ensures CeilDivision(Max(a, b), k) == Max(CeilDivision(a, k), CeilDivision(b, k))
  {
    var lo, hi := Min(a, b), Max(a, b);
    hide CeilDivision;
    CeilPosition(hi, k, CeilDivision(hi, k));
    if CeilDivision(hi, k) < CeilDivision(lo, k) {
      CeilPosition(lo, k, CeilDivision(hi, k));
      assert false;
    }
  }

  /** A new subtree holds the created leaves, after zeroes left of the walk. */
  lemma {:induction false} CreateAchieves(w: Walk, d: nat)
    requires w.x == [] && w.s.begin <= w.s.end && 1 <= w.s.end <= MaxLeaves(w.l, d) && TrimOk(w, d)
    requires !(w.grow && w.isRight) && !w.grow
    ensures Achieves(Create(w.l, w.v, w.s, d), w, d)
    decreases d, 1, 0
  {
    if d == 0 {
      assert Leaves(Create(w.l, w.v, w.s, d).tree) == w.After();
    } else {
      var k := MaxLeaves(w.l, d - 1);
      hide MaxLeaves, LeftMax;
      assert OldChildren(w, k) == 0 by { CeilIs(0, k, 0); }
      CreateChildrenAchieve(w, d, 0);
      AssembleNode(w, d, CreateChildren(w.l, w.v, w.s, d, 0).trees);
      assert Max(w.s.begin, 0 * k) == w.s.begin;
    }
  }

  ghost predicate CreatedFrom(w: Walk, d: nat, r: Outcomes, j: nat)
    requires d > 0
  {
    var k := MaxLeaves(w.l, d - 1);
    && |r.trees| == MaxZeroSubtraction(CeilDivision(w.s.end, k), j)
    && HoldChunks(w, d, r.trees, j)
    && r.trace == w.Visits(Max(w.s.begin, j * k), w.s.end)
  }

  lemma {:induction false} CreateChildrenAchieve(w: Walk, d: nat, j: nat)
    requires d > 0 && j >= OldChildren(w, MaxLeaves(w.l, d - 1))
    requires w.s.begin <= w.s.end && w.s.end <= MaxLeaves(w.l, d) && TrimOk(w, d) && !(w.grow && w.isRight)
    requires w.grow ==> |w.x| <= w.s.end
    ensures CreatedFrom(w, d, CreateChildren(w.l, w.v, w.s, d, j), j)
    decreases d, 0, CeilDivision(w.s.end, MaxLeaves(w.l, d - 1)) - j
  {
    var k := MaxLeaves(w.l, d - 1);
    hide MaxLeaves, LeftMax, CeilDivision, Create, HoldChunks, ChildWalk;
    ChildPosition(w, k, j);
    if j < CeilDivision(w.s.end, k) {
      var c := ChildWalk(w, k, j);
      NewChild(w, d, k, j);
      CreateAchieves(c, d - 1);
      ChildAfter(w, k, j);
      ChildVisits(w, k, j);
      CreateChildrenAchieve(w, d, j + 1);
      NextVisits(w, k, j, w.s.end);
      ConsChunks(w, d, Create(w.l, w.v, ChildSpan(w.s, k, j), d - 1).tree, CreateChildren(w.l, w.v, w.s, d, j + 1).trees, j);
    } else {
      NoChunks(w, d, j);
    }
  }

  lemma NoChunks(w: Walk, d: nat, j: nat)
    requires d > 0
    ensures HoldChunks(w, d, [], j)
  {
  }

  /** A child right of the old ones starts without leaves. */
  lemma NewChild(w: Walk, d: nat, k: nat, j: nat)
    requires d > 0 && k == MaxLeaves(w.l, d - 1) && OldChildren(w, k) <= j < CeilDivision(w.s.end, k)
    requires w.s.begin <= w.s.end && TrimOk(w, d)
    ensures var c := ChildWalk(w, k, j);
            && c.l == w.l && c.v == w.v && c.s == ChildSpan(w.s, k, j)
            && c.x == [] && !c.grow && c.s.begin <= c.s.end && 1 <= c.s.end <= k && TrimOk(c, d - 1)
  {
    hide MaxLeaves, CeilDivision;
    ChildPosition(w, k, j);
    TrimChild(w, d, k, j);
  }

  /** The subtree that `w` walks over is `t`. */
  ghost predicate WalksOver(w: Walk, d: nat, t: Tree, isLeft: bool) {
    LeftMax(w.l, d, t) && w.x == Leaves(t) && WalkOk(w, d, isLeft)
  }

  lemma {:induction false} TraverseAchieves(w: Walk, d: nat, t: Tree, isLeft: bool)
    requires WalksOver(w, d, t, isLeft)
    ensures Achieves(Traverse(w.l, w.v, t, w.s, isLeft, w.isRight, w.grow), w, d)
    decreases d, 2, 0
  {
    if t.Leaf? {
      LeafAchieves(w, t, isLeft);
    } else {
      var k := MaxLeaves(w.l, d - 1);
      LeafCount(w.l, d, t);
      var old', new' := TraverseChildren(w.l, w.v, t, w.s, isLeft, w.isRight, w.grow, 0),
                        CreateChildren(w.l, w.v, w.s, d, |t.children|);
      hide MaxLeaves, LeftMax, CeilDivision, HoldChunks, Create, CreateChildren, TraverseChildren, Backtrack, Leaves;
      TraverseChildrenAchieve(w, d, t, isLeft, 0);
      CreateChildrenAchieve(w, d, |t.children|);
      AppendChunks(w, d, old'.trees, new'.trees);
      AssembleNode(w, d, old'.trees + new'.trees);
      AllVisits(w, k, |t.children|);
    }
  }

  lemma LeafAchieves(w: Walk, t: Tree, isLeft: bool)
    requires t.Leaf? && WalksOver(w, 0, t, isLeft)
    ensures Achieves(Traverse(w.l, w.v, t, w.s, isLeft, w.isRight, w.grow), w, 0)
  {
  }

  lemma AllVisits(w: Walk, k: nat, n: nat)
    requires w.s.begin <= w.s.end
    ensures w.Visits(Max(w.s.begin, 0 * k), Min(w.s.end, n * k)) + w.Visits(Max(w.s.begin, n * k), w.s.end) == w.Trace()
  {
    VisitsAround(w, n * k);
  }

  lemma VisitsAround(w: Walk, m: nat)
    requires w.s.begin <= w.s.end
    ensures w.Visits(w.s.begin, Min(w.s.end, m)) + w.Visits(Max(w.s.begin, m), w.s.end) == w.Trace()
  {
    hide Walk.SlotAt, Walk.Visits, VisitOf;
    if m <= w.s.begin {
      assert w.Visits(w.s.begin, m) == [];
    } else if m >= w.s.end {
      assert w.Visits(m, w.s.end) == [];
    } else {
      JoinVisits(w, w.s.begin, m, w.s.end);
    }
  }

  lemma {:induction false} TraverseChildrenAchieve(w: Walk, d: nat, t: Tree, isLeft: bool, j: nat)
    requires WalksOver(w, d, t, isLeft) && t.Inner? && j <= |t.children|
    ensures var r, n, k := TraverseChildren(w.l, w.v, t, w.s, isLeft, w.isRight, w.grow, j), |t.children|, MaxLeaves(w.l, d - 1);
            && |r.trees| == n - j
            && HoldChunks(w, d, r.trees, j)
            && r.trace == w.Visits(Max(w.s.begin, j * k), Min(w.s.end, n * k))
    decreases d, 1, |t.children| - j
  {
    hide MaxLeaves, LeftMax, CeilDivision, HoldChunks, TraverseChild, Leaves, WalkOk, WalksOver, ChildDone, Walk.After, Walk.Visits;
    NodeOk(w, d, t, isLeft);
    var n, k := |t.children|, MaxLeaves(w.l, d - 1);
    if j < n {
      TraverseChildAchieves(w, d, t, isLeft, j);
      TraverseChildrenAchieve(w, d, t, isLeft, j + 1);
      ConsChunks(w, d, TraverseChild(w.l, w.v, t, w.s, isLeft, w.isRight, w.grow, j).tree,
                 TraverseChildren(w.l, w.v, t, w.s, isLeft, w.isRight, w.grow, j + 1).trees, j);
      NextVisitsWithin(w, k, j, n);
    } else {
      NoChunks(w, d, j);
    }
  }

  /** Child `j` has been walked over with outcome `r`. */
  ghost predicate ChildAchieved(w: Walk, d: nat, r: Outcome, j: nat)
    requires d > 0
  {
    var k := MaxLeaves(w.l, d - 1);
    ChildDone(w, d, r.tree, j) && r.trace == ChildTrace(w, k, j)
  }

  lemma {:induction false} TraverseChildAchieves(w: Walk, d: nat, t: Tree, isLeft: bool, j: nat)
    requires WalksOver(w, d, t, isLeft) && t.Inner? && j < |t.children|
    ensures ChildAchieved(w, d, TraverseChild(w.l, w.v, t, w.s, isLeft, w.isRight, w.grow, j), j)
    decreases d, 0, 1
  {
    var n, k := |t.children|, MaxLeaves(w.l, d - 1);
    assert t.depth == d > 0;
    hide *;
    var beginChild, endChild := BeginChild(w.s, k), CeilDivision(w.s.end, k);
    if beginChild >= n && isLeft && j == n - 1 {
      FillChild(w, d, t, isLeft, j);
    } else if beginChild <= j < endChild {
      VisitChild(w, d, t, isLeft, j);
    } else {
      SkipChild(w, d, t, isLeft, j);
    }
  }

  /** From the outcome of the walk that the child sees. */
  lemma ChildAchievedBy(w: Walk, d: nat, r: Outcome, c: Walk, j: nat)
    requires d > 0 && c.l == w.l && Achieves(r, c, d - 1)
    requires var k := MaxLeaves(w.l, d - 1);
             && IsChunk(c.After(), w.After(), k, j)
             && c.Trace() == ChildTrace(w, k, j)
    ensures ChildAchieved(w, d, r, j)
  {
  }

  lemma {:induction false} FillChild(w: Walk, d: nat, t: Tree, isLeft: bool, j: nat)
    requires WalksOver(w, d, t, isLeft) && t.Inner? && j + 1 == |t.children|
    requires isLeft && BeginChild(w.s, MaxLeaves(w.l, d - 1)) > j
    ensures ChildAchieved(w, d, TraverseChild(w.l, w.v, t, w.s, isLeft, w.isRight, w.grow, j), j)
    decreases d, 0, 0
  {
    var k := MaxLeaves(w.l, d - 1);
    var c, r := FillWalk(w, k, j), TraverseChild(w.l, w.v, t, w.s, isLeft, w.isRight, w.grow, j);
    assert r == Traverse(c.l, c.v, t.children[j], c.s, true, c.isRight, c.grow) && c.l == w.l && c.x == ChildLeaves(w.x, k, j);
    ChildOf(w, d, t, isLeft, j);
    hide *;
    FillOk(w, d, k, j);
    assert WalksOver(c, d - 1, t.children[j], true) by { MakeWalksOver(c, d - 1, t.children[j], true); }
    TraverseAchieves(c, d - 1, t.children[j], true);
    FillFacts(w, d, k, j);
    ChildAchievedBy(w, d, r, c, j);
  }

  lemma VisitUnfolds(w: Walk, t: Tree, isLeft: bool, j: nat)
    requires t.Inner? && t.depth > 0 && j < |t.children| == OldChildren(w, MaxLeaves(w.l, t.depth - 1))
    requires BeginChild(w.s, MaxLeaves(w.l, t.depth - 1)) <= j < CeilDivision(w.s.end, MaxLeaves(w.l, t.depth - 1))
    ensures var k := MaxLeaves(w.l, t.depth - 1);
            var c := ChildWalk(w, k, j);
            && TraverseChild(w.l, w.v, t, w.s, isLeft, w.isRight, w.grow, j)
               == Traverse(c.l, c.v, t.children[j], c.s, isLeft && j == BeginChild(w.s, k), c.isRight, c.grow)
            && c.l == w.l && c.x == ChildLeaves(w.x, k, j)
  {
  }

  lemma MakeWalksOver(w: Walk, d: nat, t: Tree, isLeft: bool)
    requires LeftMax(w.l, d, t) && w.x == Leaves(t) && WalkOk(w, d, isLeft)
    ensures WalksOver(w, d, t, isLeft)
  {
  }

  lemma NodeOk(w: Walk, d: nat, t: Tree, isLeft: bool)
    requires WalksOver(w, d, t, isLeft) && t.Inner?
    ensures WalkOk(w, d, isLeft) && t.depth == d > 0 && MaxLeaves(w.l, d - 1) > 0
  {
  }

  lemma {:induction false} VisitChild(w: Walk, d: nat, t: Tree, isLeft: bool, j: nat)
    requires WalksOver(w, d, t, isLeft) && t.Inner? && j < |t.children|
    requires BeginChild(w.s, MaxLeaves(w.l, d - 1)) <= j < CeilDivision(w.s.end, MaxLeaves(w.l, d - 1))
    ensures ChildAchieved(w, d, TraverseChild(w.l, w.v, t, w.s, isLeft, w.isRight, w.grow, j), j)
    decreases d, 0, 0
  {
    NodeOk(w, d, t, isLeft);
    hide *;
    var k := MaxLeaves(w.l, d - 1);
    var c, r := ChildWalk(w, k, j), TraverseChild(w.l, w.v, t, w.s, isLeft, w.isRight, w.grow, j);
    var isLeft' := isLeft && j == BeginChild(w.s, k);
    ChildOf(w, d, t, isLeft, j);
    VisitUnfolds(w, t, isLeft, j);
    ChildWalkOk(w, d, isLeft, k, j);
    assert WalksOver(c, d - 1, t.children[j], isLeft') by { MakeWalksOver(c, d - 1, t.children[j], isLeft'); }
    TraverseAchieves(c, d - 1, t.children[j], isLeft');
    ChildAfter(w, k, j);
    ChildVisits(w, k, j);
    ChildAchievedBy(w, d, r, c, j);
  }

  lemma SkipChild(w: Walk, d: nat, t: Tree, isLeft: bool, j: nat)
    requires WalksOver(w, d, t, isLeft) && t.Inner? && j < |t.children|
    requires !(BeginChild(w.s, MaxLeaves(w.l, d - 1)) <= j < CeilDivision(w.s.end, MaxLeaves(w.l, d - 1)))
    requires !(isLeft && BeginChild(w.s, MaxLeaves(w.l, d - 1)) >= |t.children| && j + 1 == |t.children|)
    ensures ChildAchieved(w, d, TraverseChild(w.l, w.v, t, w.s, isLeft, w.isRight, w.grow, j), j)
  {
    var k := MaxLeaves(w.l, d - 1);
    ChildOf(w, d, t, isLeft, j);
    hide MaxLeaves, LeftMax, CeilDivision, Leaves, Traverse, WalkOk, ChildLeaves, Chunk;
    NotVisited(w, k, j);
    if j < BeginChild(w.s, k) || !w.Trims() {
      UntouchedAfter(w, d, isLeft, k, j);
    }
  }

  /** Child `j` of the tree holds chunk `j` of the leaves. */
  lemma ChildOf(w: Walk, d: nat, t: Tree, isLeft: bool, j: nat)
    requires WalksOver(w, d, t, isLeft) && t.Inner? && j < |t.children|
    ensures var n, k, child := |t.children|, MaxLeaves(w.l, d - 1), t.children[j];
            && LeftMax(w.l, d - 1, child) && Leaves(child) == ChildLeaves(w.x, k, j) && Leaves(child) != []
            && n == OldChildren(w, k) <= w.l.maxChildren && |w.x| <= MaxLeaves(w.l, d)
            && (w.grow ==> |w.x| <= w.s.end && !w.isRight) && (w.Trims() ==> w.s.begin + 1 == w.s.end)
            && w.s.begin <= w.s.end && (w.grow || w.s.begin < w.s.end)
  {
    var k := MaxLeaves(w.l, d - 1);
    LeafCount(w.l, d, t);
    LeafCount(w.l, d - 1, t.children[j]);
    hide MaxLeaves, CeilDivision;
    LeavesSplit(t.children, k, j);
    ChildPosition(w, k, j);
  }

  lemma FillFacts(w: Walk, d: nat, k: nat, j: nat)
    requires k > 0 && j + 1 == OldChildren(w, k) && !(w.grow && w.isRight) && (w.Trims() ==> w.s.begin + 1 == w.s.end)
    requires BeginChild(w.s, k) > j && w.s.begin <= w.s.end && (w.grow || w.s.begin < w.s.end)
    ensures IsChunk(FillWalk(w, k, j).After(), w.After(), k, j)
    ensures ChildTrace(w, k, j) == []
  {
    hide CeilDivision, Chunk;
    FillAfter(w, k, j);
    DivPosition(w.s.begin, k, j);
  }

  lemma NotVisited(w: Walk, k: nat, j: nat)
    requires k > 0 && !(BeginChild(w.s, k) <= j < CeilDivision(w.s.end, k))
    ensures ChildTrace(w, k, j) == []
    ensures j >= CeilDivision(w.s.end, k) && w.Trims() ==> j * k >= w.Count()
  {
    hide CeilDivision;
    DivPosition(w.s.begin, k, j);
    CeilPosition(w.s.end, k, j);
  }

  lemma FillOk(w: Walk, d: nat, k: nat, j: nat)
    requires d > 0 && k == MaxLeaves(w.l, d - 1) && ChildLeaves(w.x, k, j) != []
    ensures WalkOk(FillWalk(w, k, j), d - 1, true) && FillWalk(w, k, j).Trace() == []
  {
  }

  /** A child that the walk enters has at least one leaf of it. */
  lemma ChildSpanOk(w: Walk, d: nat, isLeft: bool, k: nat, j: nat)
    requires d > 0 && k == MaxLeaves(w.l, d - 1) && WalkOk(w, d, isLeft)
    requires BeginChild(w.s, k) <= j < CeilDivision(w.s.end, k)
    ensures var s := ChildSpan(w.s, k, j); s.begin < s.end <= k
  {
    var m := w.l.maxChildren;
    assert MaxLeaves(w.l, d) == m * k;
    hide MaxLeaves, CeilDivision, TrimOk, FullFirstChild;
    ChildPosition(w, k, j);
    if w.s.begin == w.s.end {
      DivIs(m * k, k, m);
      CeilIs(m * k, k, m);
      assert false;
    }
  }

  lemma ChildGrowOk(w: Walk, d: nat, isLeft: bool, k: nat, j: nat)
    requires d > 0 && k == MaxLeaves(w.l, d - 1) && WalkOk(w, d, isLeft)
    requires j < CeilDivision(w.s.end, k) && OldChildren(w, k) <= w.l.maxChildren
    ensures var c := ChildWalk(w, k, j); c.grow ==> c.s.end == k && !c.isRight
  {
    var m := w.l.maxChildren;
    assert MaxLeaves(w.l, d) == m * k;
    hide MaxLeaves, CeilDivision, TrimOk, FullFirstChild, ChildLeaves;
    ChildPosition(w, k, j);
    MulAdd(j, 1, k);
    if j < m {
      MulMono(j + 1, m, k);
    }
  }

  lemma ChildLeftOk(w: Walk, d: nat, isLeft: bool, k: nat, j: nat)
    requires d > 0 && k == MaxLeaves(w.l, d - 1) && WalkOk(w, d, isLeft)
    requires BeginChild(w.s, k) <= j < OldChildren(w, k)
    ensures (isLeft && j == BeginChild(w.s, k)) || ChildSpan(w.s, k, j).begin == 0
  {
    hide MaxLeaves, TrimOk;
    if j > BeginChild(w.s, k) {
      DivPosition(w.s.begin, k, BeginChild(w.s, k));
      MulAdd(BeginChild(w.s, k), 1, k);
      MulMono(BeginChild(w.s, k) + 1, j, k);
    } else if !isLeft && w.s.begin != 0 {
      CeilIs(k, k, 1);
      DivPosition(w.s.begin, k, 0);
      assert false;
    }
  }

  lemma ChildWalkOk(w: Walk, d: nat, isLeft: bool, k: nat, j: nat)
    requires d > 0 && k == MaxLeaves(w.l, d - 1) && WalkOk(w, d, isLeft) && OldChildren(w, k) <= w.l.maxChildren
    requires BeginChild(w.s, k) <= j < CeilDivision(w.s.end, k) && j < OldChildren(w, k)
    ensures WalkOk(ChildWalk(w, k, j), d - 1, isLeft && j == BeginChild(w.s, k))
  {
    TrimChild(w, d, k, j);
    ChildSpanOk(w, d, isLeft, k, j);
    ChildGrowOk(w, d, isLeft, k, j);
    ChildLeftOk(w, d, isLeft, k, j);
    ChildWalkFields(w, k, j);
    ChildLeaf(w.x, k, j, 0);
    ChildPosition(w, k, j);
    hide MaxLeaves, CeilDivision, ChildLeaves, TrimOk, ChildWalk, ChildSpan, FullFirstChild;
  }

  // ----- The whole tree

  /** A stored tree: left-max, and no deeper than it has to be. */
  ghost predicate IsTree(l: Layout, t: Tree) {
    LeftMax(l, Depth(t), t) && (t.Inner? ==> |t.children| >= 2)
  }

  lemma {:induction false} CollapseKeeps(l: Layout, t: Tree)
    requires LeftMax(l, Depth(t), t)
    ensures IsTree(l, Collapse(t)) && Leaves(Collapse(t)) == Leaves(t)
    decreases Depth(t)
  {
    if t.Inner? && |t.children| == 1 {
      var c := t.children[0];
      assert LeftMax(l, Depth(t) - 1, c) && Depth(c) == Depth(t) - 1;
      CollapseKeeps(l, c);
      assert t.children == [c];
      SingletonLeaves(c);
    }
  }

  lemma SingletonLeaves(t: Tree)
    ensures LeavesOf([t]) == Leaves(t)
  {
  }

  /** The walk over the leaves begin..end of a whole tree. */
  function RootWalk(l: Layout, v: Visitor, x: seq<LeafData>, begin: nat, end: nat): Walk {
    Walk(l, v, x, Span(begin, end, 0), true, false)
  }

  /** The callbacks leave every leaf but the last of the walk full. */
  ghost predicate KeepsFull(l: Layout, v: Visitor, begin: nat, end: nat) {
    && (forall i: nat | begin <= i && i + 1 < end :: |v.onCreate(i)| == l.maxBytes)
    && (forall i: nat, x: LeafData | begin <= i && i + 1 < end && |x| == l.maxBytes :: |v.onExisting(i, false, x)| == l.maxBytes)
  }

  ghost predicate RootOk(l: Layout, v: Visitor, t: Tree, begin: nat, end: nat, isLeft: bool) {
    && LeftMax(l, Depth(t), t) && begin < end && KeepsFull(l, v, begin, end)
    && (v.trim.Some? ==> begin + 1 == end && v.trim.value == end)
    && (isLeft || FullFirstChild(RootWalk(l, v, Leaves(t), begin, end), Depth(t)))
  }

  /** The part of the walk that fits into the tree as deep as it is. */
  function FirstPart(l: Layout, v: Visitor, t: Tree, begin: nat, end: nat): Walk {
    var max := MaxLeaves(l, Depth(t));
    Walk(l, v, Leaves(t), Span(Min(begin, max), Min(end, max), 0), !(end > max), end > max)
  }

  function FirstOutcome(l: Layout, v: Visitor, t: Tree, begin: nat, end: nat, isLeft: bool): Outcome {
    var w := FirstPart(l, v, t, begin, end);
    Traverse(l, v, t, w.s, isLeft, w.isRight, w.grow)
  }

  lemma RootUnfolds(l: Layout, v: Visitor, t: Tree, begin: nat, end: nat, isLeft: bool)
    requires begin < end
    ensures var max, r := MaxLeaves(l, Depth(t)), FirstOutcome(l, v, t, begin, end, isLeft);
            TraverseRoot(l, v, t, begin, end, isLeft) ==
              if end > max then
                var rest := TraverseRoot(l, v, Inner(Depth(t) + 1, [r.tree]), Max(begin, max), end, false);
                Outcome(rest.tree, r.trace + rest.trace)
              else Outcome(Collapse(r.tree), r.trace)
  {
  }

  lemma FirstPartAchieves(l: Layout, v: Visitor, t: Tree, begin: nat, end: nat, isLeft: bool)
    requires RootOk(l, v, t, begin, end, isLeft)
    ensures Achieves(FirstOutcome(l, v, t, begin, end, isLeft), FirstPart(l, v, t, begin, end), Depth(t))
  {
    var w, d := FirstPart(l, v, t, begin, end), Depth(t);
    LeafCount(l, d, t);
    if d > 0 {
      PowMono(l.maxChildren, d - 1);
      assert MaxLeaves(l, d - 1) < MaxLeaves(l, d);
    }
    hide MaxLeaves, LeftMax, Leaves, Traverse, KeepsFull;
    assert WalkOk(w, d, isLeft);
    TraverseAchieves(w, d, t, isLeft);
  }

  /** Where the first part and the whole walk both have a say, they agree. */
  lemma FirstPartAgrees(l: Layout, v: Visitor, t: Tree, begin: nat, end: nat, i: nat)
    requires LeftMax(l, Depth(t), t) && begin < end && MaxLeaves(l, Depth(t)) < end && i < MaxLeaves(l, Depth(t))
    ensures var w, first := RootWalk(l, v, Leaves(t), begin, end), FirstPart(l, v, t, begin, end);
            first.SlotAt(i) == w.SlotAt(i) && first.LeafAt(i) == w.LeafAt(i)
  {
  }

  /** A tree of full size below a new root. */
  lemma NewRoot(l: Layout, d: nat, t: Tree)
    requires LeftMax(l, d, t)
    ensures LeftMax(l, d + 1, Inner(d + 1, [t])) && Leaves(Inner(d + 1, [t])) == Leaves(t)
  {
    SingletonLeaves(t);
  }

  /** The tree after the first part, below a new root, with the rest of the walk to come. */
  lemma DeeperOk(l: Layout, v: Visitor, t: Tree, begin: nat, end: nat, isLeft: bool)
    requires RootOk(l, v, t, begin, end, isLeft) && MaxLeaves(l, Depth(t)) < end
    ensures var r := FirstOutcome(l, v, t, begin, end, isLeft);
            var t' := Inner(Depth(t) + 1, [r.tree]);
            && Leaves(t') == FirstPart(l, v, t, begin, end).After()
            && |Leaves(t')| == MaxLeaves(l, Depth(t)) && |Leaves(t')[|Leaves(t')| - 1]| == l.maxBytes
            && RootOk(l, v, t', Max(begin, MaxLeaves(l, Depth(t))), end, false)
  {
    hide MaxLeaves, LeftMax, FirstOutcome, FirstPart, Walk.Count, Walk.LeafAt, Leaves, RootOk, KeepsFull, Achieves, Traverse;
    var r, w, max := FirstOutcome(l, v, t, begin, end, isLeft), FirstPart(l, v, t, begin, end), MaxLeaves(l, Depth(t));
    var t' := Inner(Depth(t) + 1, [r.tree]);
    RootOkIs(l, v, t, begin, end, isLeft);
    FirstPartAchieves(l, v, t, begin, end, isLeft);
    SameLayout(l, v, t, begin, end);
    AchievesIs(r, w, Depth(t));
    NewRoot(l, Depth(t), r.tree);
    FirstCount(l, v, t, begin, end);
    LastIsFull(l, v, t, begin, end);
    KeepsFullLater(l, v, begin, end, Max(begin, max));
    SomeLeaf(l, Depth(t));
    MakeDeeperOk(l, v, t', Depth(t), begin, end);
  }

  lemma RootOkIs(l: Layout, v: Visitor, t: Tree, begin: nat, end: nat, isLeft: bool)
    requires RootOk(l, v, t, begin, end, isLeft)
    ensures LeftMax(l, Depth(t), t) && begin < end && KeepsFull(l, v, begin, end) && (v.trim.Some? ==> begin + 1 == end && v.trim.value == end)
  {
    hide LeftMax, KeepsFull, FullFirstChild;
  }

  lemma AchievesIs(r: Outcome, w: Walk, d: nat)
    requires Achieves(r, w, d)
    ensures LeftMax(w.l, d, r.tree) && Leaves(r.tree) == w.After()
  {
  }

  lemma SameLayout(l: Layout, v: Visitor, t: Tree, begin: nat, end: nat)
    ensures FirstPart(l, v, t, begin, end).l == l
  {
  }

  lemma SomeLeaf(l: Layout, d: nat)
    ensures MaxLeaves(l, d) > 0
  {
  }

  lemma MakeDeeperOk(l: Layout, v: Visitor, t: Tree, d: nat, begin: nat, end: nat)
    requires LeftMax(l, d + 1, t) && Depth(t) == d + 1 && begin < end && MaxLeaves(l, d) < end
    requires |Leaves(t)| == MaxLeaves(l, d) > 0 && |Leaves(t)[|Leaves(t)| - 1]| == l.maxBytes
    requires KeepsFull(l, v, Max(begin, MaxLeaves(l, d)), end) && (v.trim.Some? ==> begin + 1 == end && v.trim.value == end)
    ensures RootOk(l, v, t, Max(begin, MaxLeaves(l, d)), end, false)
  {
    hide LeftMax, KeepsFull, MaxLeaves, Leaves;
  }

  lemma FirstCount(l: Layout, v: Visitor, t: Tree, begin: nat, end: nat)
    requires LeftMax(l, Depth(t), t) && begin < end && MaxLeaves(l, Depth(t)) < end
    requires v.trim.Some? ==> begin + 1 == end
    ensures FirstPart(l, v, t, begin, end).Count() == MaxLeaves(l, Depth(t))
  {
    LeafCount(l, Depth(t), t);
    hide MaxLeaves, LeftMax, Leaves;
  }

  lemma KeepsFullLater(l: Layout, v: Visitor, begin: nat, end: nat, begin': nat)
    requires KeepsFull(l, v, begin, end) && begin <= begin'
    ensures KeepsFull(l, v, begin', end)
  {
  }

  lemma LastIsFull(l: Layout, v: Visitor, t: Tree, begin: nat, end: nat)
    requires LeftMax(l, Depth(t), t) && KeepsFull(l, v, begin, end) && begin < end && MaxLeaves(l, Depth(t)) < end
    ensures |FirstPart(l, v, t, begin, end).LeafAt(MaxLeaves(l, Depth(t)) - 1)| == l.maxBytes
  {
    LeafCount(l, Depth(t), t);
    hide MaxLeaves, LeftMax, Leaves, ResizeLeaf;
  }

  /** The rest of the walk, over the tree that the first part left. */
  ghost predicate RestOk(l: Layout, v: Visitor, t: Tree, begin: nat, end: nat, x: seq<LeafData>) {
    && LeftMax(l, Depth(t), t) && begin < end && MaxLeaves(l, Depth(t)) < end
    && (v.trim.Some? ==> begin + 1 == end)
    && x == FirstPart(l, v, t, begin, end).After() && |x| == MaxLeaves(l, Depth(t)) && |x[|x| - 1]| == l.maxBytes
  }

  function RestPart(l: Layout, v: Visitor, t: Tree, begin: nat, end: nat, x: seq<LeafData>): Walk {
    RootWalk(l, v, x, Max(begin, MaxLeaves(l, Depth(t))), end)
  }

  lemma RestLeaf(l: Layout, v: Visitor, t: Tree, begin: nat, end: nat, x: seq<LeafData>, i: nat)
    requires RestOk(l, v, t, begin, end, x) && i < end
    ensures RestPart(l, v, t, begin, end, x).LeafAt(i) == RootWalk(l, v, Leaves(t), begin, end).LeafAt(i)
    ensures i >= MaxLeaves(l, Depth(t)) ==>
              RestPart(l, v, t, begin, end, x).SlotAt(i) == RootWalk(l, v, Leaves(t), begin, end).SlotAt(i)
  {
    hide MaxLeaves, LeftMax, Leaves, ResizeLeaf, FirstPart, Walk.LeafAt, Walk.SlotAt;
    if i < MaxLeaves(l, Depth(t)) {
      FirstPartAgrees(l, v, t, begin, end, i);
      RestOldLeaf(l, v, t, begin, end, x, i);
    } else {
      LeafCount(l, Depth(t), t);
      RestNewSlot(l, v, Leaves(t), x, begin, Max(begin, MaxLeaves(l, Depth(t))), end, i);
    }
  }

  lemma RestOldLeaf(l: Layout, v: Visitor, t: Tree, begin: nat, end: nat, x: seq<LeafData>, i: nat)
    requires RestOk(l, v, t, begin, end, x) && i < MaxLeaves(l, Depth(t))
    ensures RestPart(l, v, t, begin, end, x).LeafAt(i) == FirstPart(l, v, t, begin, end).LeafAt(i)
  {
    hide MaxLeaves, LeftMax, Leaves, FirstPart;
  }

  /** Past the old leaves both walks make new ones. */
  lemma RestNewSlot(l: Layout, v: Visitor, x: seq<LeafData>, y: seq<LeafData>, begin: nat, begin': nat, end: nat, i: nat)
    requires |x| <= |y| <= i < end && (begin == begin' || begin < begin' == |y|)
    ensures var w, w' := RootWalk(l, v, x, begin, end), RootWalk(l, v, y, begin', end); w'.SlotAt(i) == w.SlotAt(i) && w'.LeafAt(i) == w.LeafAt(i)
  {
  }

  lemma RestAfter(l: Layout, v: Visitor, t: Tree, begin: nat, end: nat, x: seq<LeafData>)
    requires RestOk(l, v, t, begin, end, x)
    ensures RestPart(l, v, t, begin, end, x).After() == RootWalk(l, v, Leaves(t), begin, end).After()
  {
    RestCount(l, v, t, begin, end, x);
    hide MaxLeaves, LeftMax, Leaves, FirstPart, Walk.LeafAt, Walk.Count, RestPart, RootWalk;
    var y, y' := RootWalk(l, v, Leaves(t), begin, end).After(), RestPart(l, v, t, begin, end, x).After();
    forall i | 0 <= i < end ensures y[i] == y'[i] {
      RestLeaf(l, v, t, begin, end, x, i);
    }
  }

  lemma RestCount(l: Layout, v: Visitor, t: Tree, begin: nat, end: nat, x: seq<LeafData>)
    requires RestOk(l, v, t, begin, end, x)
    ensures RestPart(l, v, t, begin, end, x).Count() == RootWalk(l, v, Leaves(t), begin, end).Count() == end
  {
    LeafCount(l, Depth(t), t);
    hide MaxLeaves, LeftMax, Leaves, FirstPart, Walk.LeafAt;
  }

  lemma RestTrace(l: Layout, v: Visitor, t: Tree, begin: nat, end: nat, x: seq<LeafData>)
    requires RestOk(l, v, t, begin, end, x)
    ensures FirstPart(l, v, t, begin, end).Trace() + RestPart(l, v, t, begin, end, x).Trace()
            == RootWalk(l, v, Leaves(t), begin, end).Trace()
  {
    var max, w := MaxLeaves(l, Depth(t)), RootWalk(l, v, Leaves(t), begin, end);
    var first, rest := FirstPart(l, v, t, begin, end), RestPart(l, v, t, begin, end, x);
    hide MaxLeaves, LeftMax, Leaves, VisitOf, Walk.SlotAt;
    forall i | 0 <= i < |first.Trace()| ensures first.Trace()[i] == w.Visits(Min(begin, max), max)[i] {
      FirstPartAgrees(l, v, t, begin, end, Min(begin, max) + i);
    }
    assert first.Trace() == w.Visits(Min(begin, max), max);
    forall i | 0 <= i < |rest.Trace()| ensures rest.Trace()[i] == w.Visits(Max(begin, max), end)[i] {
      RestLeaf(l, v, t, begin, end, x, Max(begin, max) + i);
    }
    assert rest.Trace() == w.Visits(Max(begin, max), end);
    if begin < max {
      JoinVisits(w, begin, max, end);
    } else {
      assert w.Visits(max, max) == [] && [] + w.Trace() == w.Trace();
    }
  }

  /** The outcome of the walk over begin..end is a well-formed tree with the leaves of `After`, and
      its callbacks are those of `Trace`. */
  ghost predicate RootAchieved(l: Layout, v: Visitor, t: Tree, begin: nat, end: nat, r: Outcome) {
    var w := RootWalk(l, v, Leaves(t), begin, end);
    IsTree(l, r.tree) && Leaves(r.tree) == w.After() && r.trace == w.Trace()
  }

  /** A walk over any range of leaf indices leaves a well-formed tree whose leaves are those of
      `After`, and makes exactly the callbacks for begin..end, in order. */
  lemma {:induction false} RootAchieves(l: Layout, v: Visitor, t: Tree, begin: nat, end: nat, isLeft: bool)
    requires RootOk(l, v, t, begin, end, isLeft)
    ensures RootAchieved(l, v, t, begin, end, TraverseRoot(l, v, t, begin, end, isLeft))
    decreases MaxZeroSubtraction(end, MaxLeaves(l, Depth(t)))
  {
    var max, r := MaxLeaves(l, Depth(t)), FirstOutcome(l, v, t, begin, end, isLeft);
    if end > max {
      var t' := Inner(Depth(t) + 1, [r.tree]);
      DeeperOk(l, v, t, begin, end, isLeft);
      PowMono(l.maxChildren, Depth(t));
      assert max < MaxLeaves(l, Depth(t'));
      hide MaxLeaves, LeftMax, Leaves, FirstOutcome, TraverseRoot;
      RootAchieves(l, v, t', Max(begin, max), end, false);
      RootDeeper(l, v, t, begin, end, isLeft);
    } else {
      RootFinal(l, v, t, begin, end, isLeft);
    }
  }

  /** A walk that fits into the tree. */
  lemma RootFinal(l: Layout, v: Visitor, t: Tree, begin: nat, end: nat, isLeft: bool)
    requires RootOk(l, v, t, begin, end, isLeft) && end <= MaxLeaves(l, Depth(t))
    ensures RootAchieved(l, v, t, begin, end, TraverseRoot(l, v, t, begin, end, isLeft))
  {
    var r := FirstOutcome(l, v, t, begin, end, isLeft);
    RootUnfolds(l, v, t, begin, end, isLeft);
    FirstPartAchieves(l, v, t, begin, end, isLeft);
    assert Depth(r.tree) == Depth(t) && begin < end;
    hide MaxLeaves, Leaves, FirstOutcome, TraverseRoot, Collapse, RootOk, Walk.LeafAt;
    assert FirstPart(l, v, t, begin, end) == RootWalk(l, v, Leaves(t), begin, end);
    CollapseKeeps(l, r.tree);
  }

  /** A walk that goes on below a new root. */
  lemma RootDeeper(l: Layout, v: Visitor, t: Tree, begin: nat, end: nat, isLeft: bool)
    requires RootOk(l, v, t, begin, end, isLeft) && end > MaxLeaves(l, Depth(t))
    requires var max, t' := MaxLeaves(l, Depth(t)), Inner(Depth(t) + 1, [FirstOutcome(l, v, t, begin, end, isLeft).tree]);
             RootAchieved(l, v, t', Max(begin, max), end, TraverseRoot(l, v, t', Max(begin, max), end, false))
    ensures RootAchieved(l, v, t, begin, end, TraverseRoot(l, v, t, begin, end, isLeft))
  {
    var r, x := FirstOutcome(l, v, t, begin, end, isLeft), FirstPart(l, v, t, begin, end).After();
    var t' := Inner(Depth(t) + 1, [r.tree]);
    assert begin < end && LeftMax(l, Depth(t), t) && (v.trim.Some? ==> begin + 1 == end);
    hide MaxLeaves, LeftMax, Leaves, FirstOutcome, TraverseRoot, FirstPart, RootOk, Walk.LeafAt, Walk.After, Walk.Trace, IsTree;
    DeeperOk(l, v, t, begin, end, isLeft);
    RootUnfolds(l, v, t, begin, end, isLeft);
    FirstPartAchieves(l, v, t, begin, end, isLeft);
    RestAfter(l, v, t, begin, end, x);
    RestTrace(l, v, t, begin, end, x);
  }
}
