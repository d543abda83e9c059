/** The tree of nodes in which a blob is stored, and the counts that DataTree.cpp derives from
    its right border without visiting the rest. */
module BlobTree {
  import opened Bytes
  import opened BlobMath

  datatype Tree = Leaf(data: seq<Byte>) | Inner(depth: nat, children: seq<Tree>)

  type LeafData = seq<Byte>

  function Depth(t: Tree): nat {
    if t.Leaf? then 0 else t.depth
  }

  /** The leaves from left to right. */
  function Leaves(t: Tree): seq<LeafData>
    decreases t
  {
    match t
    case Leaf(data) => [data]
    case Inner(_, children) => LeavesOf(children)
  }

  function LeavesOf(ts: seq<Tree>): seq<LeafData>
    decreases ts
  {
    if ts == [] then [] else Leaves(ts[0]) + LeavesOf(ts[1..])
  }

  function MaxLeaves(l: Layout, depth: nat): (n: nat)
    ensures n > 0
  {
    Pow(l.maxChildren, depth)
  }

  /** All leaves are at depth `d`, and every child that has a right sibling holds as many
      leaves as its depth allows. */
  ghost predicate LeftMax(l: Layout, d: nat, t: Tree)
    decreases d
  {
    match t
    case Leaf(_) => d == 0
    case Inner(depth, children) =>
      && d > 0 && depth == d && 1 <= |children| <= l.maxChildren
      && (forall j | 0 <= j < |children| :: LeftMax(l, d - 1, children[j]))
      && (forall j | 0 <= j < |children| - 1 :: |Leaves(children[j])| == MaxLeaves(l, d - 1))
  }

  /** The `j`-th piece of a sequence cut into pieces of length `k`. */
  function Chunk<T>(x: seq<T>, k: nat, j: nat): seq<T>
    requires j * k <= |x|
  {
    x[j * k..Min(j * k + k, |x|)]
  }

  ghost predicate ChunkSizes(ts: seq<Tree>, k: nat) {
    && ts != []
    && (forall j | 0 <= j < |ts| - 1 :: |Leaves(ts[j])| == k)
    && 1 <= |Leaves(ts[|ts| - 1])| <= k
  }

  lemma {:induction false} LeavesLength(ts: seq<Tree>, k: nat)
    requires ChunkSizes(ts, k)
    ensures |LeavesOf(ts)| == (|ts| - 1) * k + |Leaves(ts[|ts| - 1])|
  {
    if |ts| == 1 {
      assert ts[1..] == [];
    } else {
      assert ts[1..][|ts| - 2] == ts[|ts| - 1];
      LeavesLength(ts[1..], k);
      MulAdd(|ts| - 2, 1, k);
    }
  }

  /** The leaves of the `j`-th child are the `j`-th chunk. */
  lemma {:induction false} LeavesSplit(ts: seq<Tree>, k: nat, j: nat)
    requires ChunkSizes(ts, k) && j < |ts|
    ensures j * k <= |LeavesOf(ts)| && Leaves(ts[j]) == Chunk(LeavesOf(ts), k, j)
  {
    LeavesLength(ts, k);
    if |ts| == 1 {
      assert ts[1..] == [];
      assert Leaves(ts[0]) + [] == Leaves(ts[0]);
    } else if j == 0 {
      LeavesLength(ts[1..], k);
    } else {
      var rest := ts[1..];
      LeavesSplit(rest, k, j - 1);
      MulAdd(j - 1, 1, k);
      DropChunk(Leaves(ts[0]), LeavesOf(rest), k, j);
    }
  }

  lemma DropChunk<T>(a: seq<T>, b: seq<T>, k: nat, j: nat)
    requires |a| == k && j > 0 && (j - 1) * k <= |b|
    ensures j * k <= |a + b| && Chunk(a + b, k, j) == Chunk(b, k, j - 1)
  {
  }

  ghost predicate IsChunk<T>(c: seq<T>, x: seq<T>, k: nat, j: nat) {
    j * k <= |x| && c == Chunk(x, k, j)
  }

  /** `t` holds the `j`-th chunk of `x`. */
  ghost predicate HoldsChunk(t: Tree, x: seq<LeafData>, k: nat, j: nat) {
    IsChunk(Leaves(t), x, k, j)
  }

  lemma ChunkFirst<T>(x: seq<T>, k: nat)
    ensures Chunk(x, k, 0) == x[..Min(k, |x|)]
  {
  }

  lemma ChunkNext<T>(x: seq<T>, k: nat, j: nat)
    requires k <= |x|
    requires (j + 1) * k <= |x|
    ensures j * k <= |x[k..]| && Chunk(x[k..], k, j) == Chunk(x, k, j + 1)
  {
  }

  /** Every chunk but the last is complete. */
  lemma ChunkLength<T>(x: seq<T>, k: nat, n: nat, j: nat)
    requires n * k - k < |x| <= n * k && j < n
    ensures j * k < |x| && |Chunk(x, k, j)| == if j < n - 1 then k else |x| - j * k
    ensures 1 <= |Chunk(x, k, j)| <= k
  {
    MulAdd(n - 1, 1, k);
    MulAdd(j, 1, k);
    MulMono(j, n - 1, k);
    if j < n - 1 {
      MulMono(j + 1, n - 1, k);
    }
  }

  /** Conversely, children that hold the chunks of `x` hold `x`. */
  lemma {:induction false} LeavesJoin(ts: seq<Tree>, x: seq<LeafData>, k: nat)
    requires k > 0 && |ts| > 0 && |ts| * k - k < |x| <= |ts| * k
    requires forall j | 0 <= j < |ts| :: HoldsChunk(ts[j], x, k, j)
    ensures LeavesOf(ts) == x
    decreases |ts|
  {
    hide Chunk;
    var rest := ts[1..];
    assert LeavesOf(ts) == Leaves(ts[0]) + LeavesOf(rest);
    ChunkFirst(x, k);
    assert HoldsChunk(ts[0], x, k, 0);
    if |ts| == 1 {
      assert rest == [];
      assert x[..Min(k, |x|)] == x;
    } else {
      MulAdd(|ts| - 1, 1, k);
      MulMono(1, |ts| - 1, k);
      forall j | 0 <= j < |rest| ensures HoldsChunk(rest[j], x[k..], k, j) {
        assert rest[j] == ts[j + 1] && HoldsChunk(ts[j + 1], x, k, j + 1);
        ChunkNext(x, k, j);
      }
      LeavesJoin(rest, x[k..], k);
      assert x[..k] + x[k..] == x;
    }
  }

  /** A left-max tree of depth `d` holds between one and M^d leaves. */
  lemma {:induction false} LeafCount(l: Layout, d: nat, t: Tree)
    requires LeftMax(l, d, t)
    ensures 1 <= |Leaves(t)| <= MaxLeaves(l, d)
    ensures t.Inner? ==> ChunkSizes(t.children, MaxLeaves(l, d - 1))
    ensures t.Inner? ==> LastChild(l, d, t)
    decreases d
  {
    if t.Inner? {
      var m, k := |t.children|, MaxLeaves(l, d - 1);
      LeafCount(l, d - 1, t.children[m - 1]);
      LeavesLength(t.children, k);
      MulAdd(m - 1, 1, k);
      MulMono(m, l.maxChildren, k);
      CeilIs(|Leaves(t)|, k, m);
    }
  }

  /** The number of leaves, from the number of children and the last child. */
  ghost predicate LastChild(l: Layout, d: nat, t: Tree)
    requires t.Inner? && t.children != [] && d > 0
  {
    var m, k := |t.children|, MaxLeaves(l, d - 1);
    && |Leaves(t)| == (m - 1) * k + |Leaves(t.children[m - 1])|
    && (m - 1) * k < |Leaves(t)| <= m * k
    && CeilDivision(|Leaves(t)|, k) == m
  }

  lemma HeldLength(t: Tree, x: seq<LeafData>, k: nat, n: nat, j: nat)
    requires n * k - k < |x| <= n * k && j < n && HoldsChunk(t, x, k, j)
    ensures j < n - 1 ==> |Leaves(t)| == k
  {
    ChunkLength(x, k, n, j);
  }

  /** Building an inner node from chunks gives a left-max tree. */
  lemma LeftMaxFromChunks(l: Layout, d: nat, ts: seq<Tree>, x: seq<LeafData>)
    requires d > 0 && x != []
    requires |ts| == CeilDivision(|x|, MaxLeaves(l, d - 1)) <= l.maxChildren
    requires forall j | 0 <= j < |ts| :: LeftMax(l, d - 1, ts[j])
    requires forall j | 0 <= j < |ts| :: HoldsChunk(ts[j], x, MaxLeaves(l, d - 1), j)
    ensures LeftMax(l, d, Inner(d, ts)) && Leaves(Inner(d, ts)) == x
  {
    hide HoldsChunk, CeilDivision, MaxLeaves;
    var k := MaxLeaves(l, d - 1);
    CeilBounds(|x|, k);
    LeavesJoin(ts, x, k);
    forall j | 0 <= j < |ts| - 1 ensures |Leaves(ts[j])| == k {
      HeldLength(ts[j], x, k, |ts|, j);
    }
  }

  // ----- Sizes from the right border

  datatype SizeCache = SizeCache(numLeaves: nat, numBytes: nat)

  /** _computeSizeCache: descends along the last children only. */
  function ComputeSizeCache(l: Layout, t: Tree): SizeCache
    decreases t
  {
    match t
    case Leaf(data) => SizeCache(1, |data|)
    case Inner(depth, children) =>
      if depth == 0 || children == [] then SizeCache(0, 0)   // no inner node looks like this
      else
        var left := (|children| - 1) * MaxLeaves(l, depth - 1);
        var right := ComputeSizeCache(l, children[|children| - 1]);
        SizeCache(left + right.numLeaves, FullBytes(l, left) + right.numBytes)
  }

  /** Every leaf but the last is full. */
  ghost predicate LeafSizes(l: Layout, x: seq<LeafData>) {
    && x != []
    && (forall i | 0 <= i < |x| - 1 :: |x[i]| == l.maxBytes)
    && |x[|x| - 1]| <= l.maxBytes
  }

  /** The bytes of `n` full leaves. */
  function FullBytes(l: Layout, n: nat): nat {
    n * l.maxBytes
  }

  lemma FullBytesAdd(l: Layout, a: nat, b: nat)
    ensures FullBytes(l, a + b) == FullBytes(l, a) + FullBytes(l, b)
    ensures FullBytes(l, 0) == 0 && FullBytes(l, 1) == l.maxBytes
  {
  }

  function TotalBytes(x: seq<LeafData>): nat {
    if x == [] then 0 else |x[0]| + TotalBytes(x[1..])
  }

  lemma {:induction false} TotalOfFull(l: Layout, x: seq<LeafData>)
    requires LeafSizes(l, x)
    ensures TotalBytes(x) == FullBytes(l, |x| - 1) + |x[|x| - 1]|
  {
    hide FullBytes;
    if |x| == 1 {
      FullBytesAdd(l, 0, 0);
    } else {
      assert x[1..][|x| - 2] == x[|x| - 1];
      TotalOfFull(l, x[1..]);
      FullBytesAdd(l, |x| - 2, 1);
    }
  }

  lemma SuffixLeafSizes(l: Layout, x: seq<LeafData>, p: nat)
    requires LeafSizes(l, x) && p < |x|
    ensures LeafSizes(l, x[p..]) && x[p..][|x| - p - 1] == x[|x| - 1]
  {
  }

  /** A prefix of full leaves contributes its length times the leaf size. */
  lemma SuffixSizes(l: Layout, x: seq<LeafData>, p: nat)
    requires LeafSizes(l, x) && p < |x|
    ensures LeafSizes(l, x[p..]) && TotalBytes(x) == FullBytes(l, p) + TotalBytes(x[p..])
  {
    hide TotalBytes, FullBytes, LeafSizes;
    SuffixLeafSizes(l, x, p);
    TotalOfFull(l, x);
    TotalOfFull(l, x[p..]);
    FullBytesAdd(l, p, |x| - p - 1);
  }

  /** The last child holds the last leaves. */
  lemma LastLeaves(l: Layout, d: nat, t: Tree)
    requires LeftMax(l, d, t) && t.Inner?
    ensures var m, k := |t.children|, MaxLeaves(l, d - 1);
            var last := t.children[m - 1];
            && |Leaves(t)| == (m - 1) * k + |Leaves(last)| && |Leaves(last)| > 0
            && Leaves(last) == Leaves(t)[(m - 1) * k..]
  {
    hide MaxLeaves;
    LeafCount(l, d, t);
    LeavesSplit(t.children, MaxLeaves(l, d - 1), |t.children| - 1);
  }

  lemma OneLeafTotal(x: LeafData)
    ensures TotalBytes([x]) == |x|
  {
  }

  /** The right border determines the number of leaves and of bytes of the whole tree. */
  lemma {:induction false} SizeCacheIsExact(l: Layout, d: nat, t: Tree)
    requires LeftMax(l, d, t) && LeafSizes(l, Leaves(t))
    ensures ComputeSizeCache(l, t) == SizeCache(|Leaves(t)|, TotalBytes(Leaves(t)))
    decreases d
  {
    hide MaxLeaves, CeilDivision, TotalBytes, FullBytes, LeafSizes;
    if t.Leaf? {
      OneLeafTotal(t.data);
    } else {
      var m, k := |t.children|, MaxLeaves(l, d - 1);
      var x, last := Leaves(t), t.children[m - 1];
      LastLeaves(l, d, t);
      SuffixSizes(l, x, (m - 1) * k);
      SizeCacheIsExact(l, d - 1, last);
    }
  }

  /** _leavesPerFullChild and _maxLeavesForTreeDepth: the 64-bit power, cut to 32 bits. */
  function MaxLeaves32(l: Layout, depth: nat): (n: nat)
    ensures n < U32_SIZE
  {
    Word32(Pow64(l.maxChildren, depth))
  }

  lemma MaxLeaves32Is(l: Layout, depth: nat)
    requires MaxLeaves(l, depth) < U32_SIZE
    ensures MaxLeaves32(l, depth) == MaxLeaves(l, depth)
  {
  }

  /** _computeSizeCache with the widths of the source: leaves are counted in 32 bits, bytes in 64. */
  function ComputeSizeCache32(l: Layout, t: Tree): (c: SizeCache)
    ensures t.Inner? ==> c.numLeaves < U32_SIZE && c.numBytes < U64_SIZE
    decreases t
  {
    match t
    case Leaf(data) => SizeCache(1, |data|)
    case Inner(depth, children) =>
      if depth == 0 || children == [] then SizeCache(0, 0)   // no inner node looks like this
      else
        var left := Word32(Word32(|children| - 1) * MaxLeaves32(l, depth - 1));
        var right := ComputeSizeCache32(l, children[|children| - 1]);
        SizeCache(Word32(left + right.numLeaves), Word64(Word64(FullBytes(l, left)) + right.numBytes))
  }

  /** The size that is computed is the size of the tree exactly if that can be represented. */
  lemma {:induction false} SizeCache32Iff(l: Layout, d: nat, t: Tree)
    requires LeftMax(l, d, t) && LeafSizes(l, Leaves(t)) && l.maxBytes < U32_SIZE
    ensures ComputeSizeCache32(l, t) == SizeCache(|Leaves(t)|, TotalBytes(Leaves(t)))
            <==> |Leaves(t)| < U32_SIZE && TotalBytes(Leaves(t)) < U64_SIZE
    decreases d
  {
    hide MaxLeaves, MaxLeaves32, CeilDivision, TotalBytes, FullBytes, LeafSizes, Word32, Word64;
    if t.Leaf? {
      OneLeafTotal(t.data);
      LeafFits(l, t.data);
    } else if |Leaves(t)| < U32_SIZE && TotalBytes(Leaves(t)) < U64_SIZE {
      var m, k := |t.children|, MaxLeaves(l, d - 1);
      var last := t.children[m - 1];
      LastLeaves(l, d, t);
      SuffixSizes(l, Leaves(t), (m - 1) * k);
      SizeCache32Iff(l, d - 1, last);
      LeftFits(l, d, m);
    }
  }

  lemma LeafFits(l: Layout, x: LeafData)
    requires LeafSizes(l, [x])
    ensures |x| <= l.maxBytes
  {
  }

  /** The leaves of the full children, in 32 bits. */
  lemma LeftFits(l: Layout, d: nat, m: nat)
    requires d > 0 && m > 0 && (m - 1) * MaxLeaves(l, d - 1) < U32_SIZE
    ensures Word32(Word32(m - 1) * MaxLeaves32(l, d - 1)) == (m - 1) * MaxLeaves(l, d - 1)
  {
    var k := MaxLeaves(l, d - 1);
    if m > 1 {
      MulMono(1, m - 1, k);
      MaxLeaves32Is(l, d - 1);
      MulMono(1, k, m - 1);
    }
  }

  // ----- Number of nodes

  function Nodes(t: Tree): nat
    decreases t
  {
    match t
    case Leaf(_) => 1
    case Inner(_, children) => 1 + NodesOf(children)
  }

  function NodesOf(ts: seq<Tree>): nat
    decreases ts
  {
    if ts == [] then 0 else Nodes(ts[0]) + NodesOf(ts[1..])
  }

  /** The sum over the levels that numNodes computes by repeated rounding division. */
  function LevelSum(l: Layout, n: nat, d: nat): nat
    decreases d
  {
    if d == 0 then n else n + LevelSum(l, CeilDivision(n, l.maxChildren), d - 1)
  }

  /** The number of nodes on the top level. */
  function TopLevel(l: Layout, n: nat, d: nat): nat
    decreases d
  {
    if d == 0 then n else TopLevel(l, CeilDivision(n, l.maxChildren), d - 1)
  }

  lemma {:induction false} LevelSumTop(l: Layout, n: nat, d: nat)
    requires d > 0
    ensures LevelSum(l, n, d) == LevelSum(l, n, d - 1) + TopLevel(l, n, d)
    decreases d
  {
    if d > 1 {
      LevelSumTop(l, CeilDivision(n, l.maxChildren), d - 1);
    }
  }

  lemma {:induction false} OneRoot(l: Layout, n: nat, d: nat)
    requires 1 <= n <= MaxLeaves(l, d)
    ensures TopLevel(l, n, d) == 1
    decreases d
  {
    if d > 0 {
      var c, m := CeilDivision(n, l.maxChildren), l.maxChildren;
      CeilBounds(n, m);
      if c > MaxLeaves(l, d - 1) {
        MulMono(MaxLeaves(l, d - 1) + 1, c, m);
        MulAdd(MaxLeaves(l, d - 1), 1, m);
        assert false;
      }
      OneRoot(l, c, d - 1);
    }
  }

  /** Full subtrees can be taken out of the level sum. */
  lemma {:induction false} LevelSumSplit(l: Layout, q: nat, r: nat, e: nat)
    ensures LevelSum(l, q * MaxLeaves(l, e) + r, e) == q * LevelSum(l, MaxLeaves(l, e), e) + LevelSum(l, r, e)
    decreases e
  {
    if e > 0 {
      var m, k := l.maxChildren, MaxLeaves(l, e - 1);
      assert MaxLeaves(l, e) == k * m;
      MulAssoc(q, k, m);
      CeilShift(q * k, r, m);
      CeilShift(k, 0, m);
      assert CeilDivision(0, m) == 0 by { CeilIs(0, m, 0); }
      LevelSumSplit(l, q, CeilDivision(r, m), e - 1);
      MulAdd3(q, k * m, LevelSum(l, k, e - 1));
    }
  }

  lemma MulAssoc(a: nat, b: nat, c: nat)
    ensures a * (b * c) == (a * b) * c
  {
  }

  lemma MulAdd3(a: nat, b: nat, c: nat)
    ensures a * (b + c) == a * b + a * c
  {
  }

  lemma {:induction false} NodesOfChunks(l: Layout, d: nat, ts: seq<Tree>)
    requires ts != [] && forall j | 0 <= j < |ts| :: LeftMax(l, d, ts[j])
    requires forall j | 0 <= j < |ts| - 1 :: |Leaves(ts[j])| == MaxLeaves(l, d)
    requires forall j | 0 <= j < |ts| :: Nodes(ts[j]) == LevelSum(l, |Leaves(ts[j])|, d)
    ensures NodesOf(ts) == (|ts| - 1) * LevelSum(l, MaxLeaves(l, d), d) + LevelSum(l, |Leaves(ts[|ts| - 1])|, d)
    decreases |ts|
  {
    if |ts| == 1 {
      assert ts[1..] == [];
    } else {
      var rest := ts[1..];
      assert forall j | 0 <= j < |rest| :: rest[j] == ts[j + 1];
      NodesOfChunks(l, d, rest);
      MulAdd(|ts| - 2, 1, LevelSum(l, MaxLeaves(l, d), d));
    }
  }

  lemma LevelSumLeaf(l: Layout, n: nat)
    ensures LevelSum(l, n, 0) == n
  {
  }

  /** The level sum is the number of nodes. */
  lemma {:induction false} LevelSumIsNodes(l: Layout, d: nat, t: Tree)
    requires LeftMax(l, d, t)
    ensures Nodes(t) == LevelSum(l, |Leaves(t)|, d)
    decreases d
  {
    hide MaxLeaves, CeilDivision, TopLevel, LevelSum;
    if t.Leaf? {
      LevelSumLeaf(l, 1);
    } else {
      var ts := t.children;
      forall j | 0 <= j < |ts| ensures Nodes(ts[j]) == LevelSum(l, |Leaves(ts[j])|, d - 1) {
        LevelSumIsNodes(l, d - 1, ts[j]);
      }
      LeafCount(l, d, t);
      NodesOfChunks(l, d - 1, ts);
      LevelSumSplit(l, |ts| - 1, |Leaves(ts[|ts| - 1])|, d - 1);
      LevelSumTop(l, |Leaves(t)|, d);
      OneRoot(l, |Leaves(t)|, d);
    }
  }

  lemma {:induction false} LevelSumAtLeast(l: Layout, n: nat, d: nat)
    ensures LevelSum(l, n, d) >= n
  {
  }

  /** The same sum in 32 bits. */
  function LevelSum32(l: Layout, n: nat, d: nat): nat
    decreases d
  {
    if d == 0 then n else Word32(n + LevelSum32(l, CeilDivision32(n, l.maxChildren), d - 1))
  }

  lemma {:induction false} LevelSum32IsMod(l: Layout, n: nat, d: nat)
    requires n + l.maxChildren - 1 < U32_SIZE && l.maxChildren < U32_SIZE
    ensures LevelSum32(l, n, d) == Word32(LevelSum(l, n, d))
    decreases d
  {
    hide CeilDivision32, CeilDivision, Word32;
    if d > 0 {
      var c := CeilDivision(n, l.maxChildren);
      CeilDivision32Is(n, l.maxChildren);
      CeilAtMost(n, l.maxChildren);
      LevelSum32IsMod(l, c, d - 1);
      AddMod(n, LevelSum(l, c, d - 1));
    } else {
      Word32Is(n);
    }
  }

  lemma Word32Is(n: nat)
    requires n < U32_SIZE
    ensures Word32(n) == n
  {
  }

  lemma AddMod(a: nat, b: nat)
    ensures Word32(a + Word32(b)) == Word32(a + b)
  {
  }

  /** Once the rounding division overflows, nothing but the leaves is counted. */
  lemma {:induction false} LevelSum32Overflows(l: Layout, n: nat, d: nat)
    requires d > 0 && n < U32_SIZE <= n + l.maxChildren - 1 && l.maxChildren < U32_SIZE
    ensures LevelSum32(l, n, d) == n
  {
    CeilDivision32Is(n, l.maxChildren);
    LevelSum32OfNothing(l, d - 1);
  }

  lemma {:induction false} LevelSum32OfNothing(l: Layout, d: nat)
    requires l.maxChildren < U32_SIZE
    ensures LevelSum32(l, 0, d) == 0
    decreases d
  {
    if d > 0 {
      CeilDivision32Is(0, l.maxChildren);
      CeilIs(0, l.maxChildren, 0);
      LevelSum32OfNothing(l, d - 1);
    }
  }

  lemma {:induction false} LevelSum32Bound(l: Layout, n: nat, d: nat)
    requires n < U32_SIZE
    ensures LevelSum32(l, n, d) < U32_SIZE
  {
  }

  /** Counting the nodes works exactly if their number can be represented and the division that
      rounds up the number of leaves does not overflow. */
  lemma NumNodesIff(l: Layout, t: Tree)
    requires LeftMax(l, Depth(t), t) && l.maxChildren < U32_SIZE
    ensures LevelSum32(l, Word32(|Leaves(t)|), Depth(t)) == Nodes(t)
            <==> Nodes(t) < U32_SIZE && (Depth(t) == 0 || |Leaves(t)| + l.maxChildren - 1 < U32_SIZE)
  {
    var n, d := |Leaves(t)|, Depth(t);
    LevelSumIsNodes(l, d, t);
    hide LeftMax, Leaves, Nodes;
    NodesAboveLeaves(l, n, d);
    LevelSum32Bound(l, Word32(n), d);
    if n < U32_SIZE {
      if n + l.maxChildren - 1 < U32_SIZE {
        LevelSum32IsMod(l, n, d);
      } else if d > 0 {
        LevelSum32Overflows(l, n, d);
      }
    }
  }

  lemma NodesAboveLeaves(l: Layout, n: nat, d: nat)
    ensures LevelSum(l, n, d) >= n && (d > 0 && n > 0 ==> LevelSum(l, n, d) > n)
  {
    if d > 0 {
      LevelSumAtLeast(l, CeilDivision(n, l.maxChildren), d - 1);
      CeilBounds(n, l.maxChildren);
    }
  }

  /** What is counted, and what is still to be counted apart from `current`, in 32 bits. */
  function Counted(total: nat, current: nat, rest: nat): nat
    requires current <= U32_SIZE
  {
    Word32(total + rest + U32_SIZE - current)
  }

  lemma CountedAtFirst(l: Layout, n: nat, d: nat)
    requires n < U32_SIZE
    ensures Counted(n, n, LevelSum32(l, n, d)) == LevelSum32(l, n, d)
  {
    LevelSum32Bound(l, n, d);
    hide LevelSum32;
  }

  lemma CountedNext(l: Layout, total: nat, current: nat, d: nat)
    requires d > 0 && total < U32_SIZE && current < U32_SIZE && l.maxChildren < U32_SIZE
    ensures var next := CeilDivision32(current, l.maxChildren);
            && next < U32_SIZE
            && Counted(total, current, LevelSum32(l, current, d)) == Counted(Word32(total + next), next, LevelSum32(l, next, d - 1))
  {
    hide CeilDivision32, CeilDivision, Word32, LevelSum32;
    var next := CeilDivision32(current, l.maxChildren);
    CeilDivision32Is(current, l.maxChildren);
    CeilAtMost(current, l.maxChildren);
    LevelSum32Unfolds(l, current, d);
    NextLevel(total, current, next, LevelSum32(l, next, d - 1));
  }

  lemma LevelSum32Unfolds(l: Layout, n: nat, d: nat)
    requires d > 0
    ensures LevelSum32(l, n, d) == Word32(n + LevelSum32(l, CeilDivision32(n, l.maxChildren), d - 1))
  {
  }

  lemma NextLevel(total: nat, current: nat, next: nat, rest: nat)
    requires current < U32_SIZE && next < U32_SIZE
    ensures Word32(total + Word32(current + rest) + U32_SIZE - current) == Word32(Word32(total + next) + rest + U32_SIZE - next)
  {
  }

  lemma CountedAtLast(l: Layout, total: nat, current: nat)
    requires total < U32_SIZE && current < U32_SIZE
    ensures Counted(total, current, LevelSum32(l, current, 0)) == total
  {
  }

  /** A number of leaves that fits into 32 bits is the cached one. */
  lemma CachedLeaves(l: Layout, t: Tree)
    requires LeftMax(l, Depth(t), t) && LeafSizes(l, Leaves(t)) && l.maxBytes < U32_SIZE
    ensures ComputeSizeCache32(l, t).numLeaves < U32_SIZE
    ensures |Leaves(t)| < U32_SIZE ==> ComputeSizeCache32(l, t) == SizeCache(|Leaves(t)|, TotalBytes(Leaves(t)))
  {
    var x := Leaves(t);
    if |x| < U32_SIZE {
      TotalOfFull(l, x);
      MulMono(|x| - 1, U32_SIZE - 2, l.maxBytes);
      MulMono(l.maxBytes, U32_SIZE - 1, U32_SIZE - 2);
      SizeCache32Iff(l, Depth(t), t);
    }
  }

  /** numNodes, which counts from the cached number of leaves. */
  method NumNodes(l: Layout, t: Tree, numLeaves: nat) returns (total: nat)
    requires LeftMax(l, Depth(t), t) && LeafSizes(l, Leaves(t)) && l.maxBytes < U32_SIZE && l.maxChildren < U32_SIZE
    requires numLeaves == ComputeSizeCache32(l, t).numLeaves
    ensures total == Nodes(t) <==> Nodes(t) < U32_SIZE && (Depth(t) == 0 || |Leaves(t)| + l.maxChildren - 1 < U32_SIZE)
  {
    hide LeftMax, LeafSizes, Leaves, Nodes, ComputeSizeCache32, LevelSum, LevelSum32, Word32, Counted, CeilDivision32;
    CachedLeaves(l, t);
    NumNodesIff(l, t);
    LevelSumIsNodes(l, Depth(t), t);
    LevelSumAtLeast(l, |Leaves(t)|, Depth(t));
    var current: nat := numLeaves;
    total := current;
    var level: nat := 0;
    CountedAtFirst(l, current, Depth(t));
    while level < Depth(t)
      invariant level <= Depth(t) && current < U32_SIZE && total < U32_SIZE
      invariant Counted(total, current, LevelSum32(l, current, Depth(t) - level)) == LevelSum32(l, numLeaves, Depth(t))
    {
      CountedNext(l, total, current, Depth(t) - level);
      current := CeilDivision32(current, l.maxChildren);
      total := Word32(total + current);
      level := level + 1;
    }
    CountedAtLast(l, total, current);
  }

  /** A tree of two leaves whose nodes are not counted, with the largest nodes there can be. */
  lemma NumNodesOverflows(l: Layout)
    requires l.maxChildren == U32_SIZE - 1
    ensures var t := Inner(1, [Leaf(Repeat(0, l.maxBytes)), Leaf([])]);
            LeftMax(l, 1, t) && Nodes(t) == 3 && LevelSum32(l, |Leaves(t)|, 1) == 2
  {
    var a, b := Leaf(Repeat(0, l.maxBytes)), Leaf([]);
    var t := Inner(1, [a, b]);
    assert [a, b][1..] == [b] && [b][1..] == [];
    assert LeavesOf([b]) == Leaves(b) + LeavesOf([]) && Leaves(t) == Leaves(a) + LeavesOf([b]);
    assert |Leaves(a)| == 1 && |Leaves(b)| == 1 && LeavesOf([]) == [];
    assert NodesOf([b]) == Nodes(b) + NodesOf([]) && NodesOf([a, b]) == Nodes(a) + NodesOf([b]);
    CeilDivision32Is(2, l.maxChildren);
    assert MaxLeaves(l, 0) == 1;
  }

  lemma CeilAtMost(a: nat, b: nat)
    requires b > 0
    ensures CeilDivision(a, b) <= a
  {
    hide CeilDivision;
    CeilBounds(a, b);
    var q := CeilDivision(a, b);
    if q > a {
      MulMono(a + 1, q, b);
      MulAdd(a, 1, b);
      MulMono(1, b, a);
      assert false;
    }
  }
}
