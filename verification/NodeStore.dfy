/** Model of the block level below DataTree: nodes live in a block store under their ids
    (DataNodeStore.cpp), leaves are fixed-size buffers (DataLeafNode.cpp), and shrinking a blob
    deletes blocks (DataTree.cpp, LeafTraverser.cpp). */
module NodeStore {
  import opened Bytes
  import opened BlobMath
  import opened BlobTree
  import opened LeafTraverser
  import opened TraversalProofs

  // ----- A leaf block

  /** The data region of a leaf block has a fixed size; `size` says how much of it is in use. */
  class DataLeafNode {
    const data: array<Byte>
    var size: nat

    ghost predicate Valid()
      reads this, data
    {
      && size <= data.Length
      && forall p | size <= p < data.Length :: data[p] == 0
    }

    ghost function Contents(): LeafData
      reads this, data
      requires Valid()
    {
      data[..size]
    }

    /** DataNodeView::serialize_ fills what the initial data leaves free with zeroes. */
    constructor (maxBytes: nat, initial: LeafData)
      requires |initial| <= maxBytes
      ensures Valid() && fresh(data) && data.Length == maxBytes && Contents() == initial
    {
      data := new Byte[maxBytes](i => if 0 <= i < |initial| then initial[i] else 0);
      size := |initial|;
    }

    method Write(source: seq<Byte>, offset: nat) returns (ok: bool)
      requires Valid()
      modifies data
      ensures Valid() && ok == (offset + |source| <= size)
      ensures Contents() == if ok then old(Contents())[..offset] + source + old(Contents())[offset + |source|..] else old(Contents())
    {
      if offset > size || offset + |source| > size {
        return false;
      }
      WriteRegion(source, offset);
      ok := true;
    }

    method WriteRegion(source: seq<Byte>, offset: nat)
      requires offset + |source| <= data.Length
      modifies data
      ensures data[..] == old(data[..])[..offset] + source + old(data[..])[offset + |source|..]
    {
      for i := 0 to |source|
        invariant forall p | 0 <= p < data.Length :: data[p] == if offset <= p < offset + i then source[p - offset] else old(data[p])
      {
        data[offset + i] := source[i];
      }
    }

    /** Shrinking zeroes the bytes it gives up, so that growing again later reads zeroes. */
    method Resize(newSize: nat) returns (ok: bool)
      requires Valid()
      modifies this`size, data
      ensures Valid() && ok == (newSize <= data.Length)
      ensures Contents() == if ok then ResizeLeaf(old(Contents()), newSize) else old(Contents())
    {
      if newSize > data.Length {
        return false;
      }
      if newSize < size {
        WriteRegion(Zeros(size - newSize), newSize);
      }
      size := newSize;
      ok := true;
      assert Contents() == ResizeLeaf(old(Contents()), newSize);
    }
  }

  /** Shrinking a leaf and growing it back leaves zeroes in place of the bytes given up. */
  lemma ShrinkThenGrow(x: LeafData, small: nat, big: nat)
    requires small <= |x| && small <= big
    ensures ResizeLeaf(ResizeLeaf(x, small), big) == x[..small] + Zeros(big - small)
  {
  }

  // ----- Trees with block ids

  type BlockId = nat

  datatype Node = LeafBlock(data: LeafData) | InnerBlock(depth: nat, childIds: seq<BlockId>)

  datatype IdTree =
    | IdLeaf(id: BlockId, data: LeafData)
    | IdInner(id: BlockId, depth: nat, children: seq<IdTree>)

  type Blocks = map<BlockId, Node>

  ghost function Ids(t: IdTree): set<BlockId> {
    match t
    case IdLeaf(id, _) => {id}
    case IdInner(id, _, children) => {id} + set c, x | c in children && x in Ids(c) :: x
  }

  ghost function IdsOf(ts: seq<IdTree>): set<BlockId> {
    set c, x | c in ts && x in Ids(c) :: x
  }

  function ChildIds(ts: seq<IdTree>): (r: seq<BlockId>)
    ensures |r| == |ts| && forall i | 0 <= i < |ts| :: r[i] == ts[i].id
  {
    seq(|ts|, i requires 0 <= i < |ts| => ts[i].id)
  }

  function NodeOf(t: IdTree): Node {
    match t
    case IdLeaf(_, data) => LeafBlock(data)
    case IdInner(_, depth, children) => InnerBlock(depth, ChildIds(children))
  }

  /** Every node of the tree is in the store under its id. */
  ghost predicate Stored(b: Blocks, t: IdTree) {
    && t.id in b && b[t.id] == NodeOf(t)
    && (t.IdInner? ==> forall c | c in t.children :: Stored(b, c))
  }

  /** No two nodes share an id. */
  ghost predicate Distinct(t: IdTree) {
    t.IdInner? ==>
      && t.id !in IdsOf(t.children)
      && (forall c | c in t.children :: Distinct(c))
      && (forall i, j | 0 <= i < j < |t.children| :: Ids(t.children[i]) !! Ids(t.children[j]))
  }

  ghost predicate SameOn(b: Blocks, b': Blocks, s: set<BlockId>) {
    forall x | x in s :: x in b ==> x in b' && b'[x] == b[x]
  }

  lemma {:induction false} StoredFrame(b: Blocks, b': Blocks, t: IdTree)
    requires Stored(b, t) && SameOn(b, b', Ids(t))
    ensures Stored(b', t)
    decreases t
  {
    assert t.id in Ids(t);
    if t.IdInner? {
      forall c | c in t.children ensures Stored(b', c) {
        assert Ids(c) <= Ids(t);
        StoredFrame(b, b', c);
      }
    }
  }

  lemma IdsOfCons(c: IdTree, ts: seq<IdTree>)
    ensures IdsOf([c] + ts) == Ids(c) + IdsOf(ts)
  {
  }

  lemma IdsOfSnoc(ts: seq<IdTree>, c: IdTree)
    ensures IdsOf(ts + [c]) == IdsOf(ts) + Ids(c)
  {
  }

  /** A child is disjoint from any siblings. */
  lemma DisjointSiblings(t: IdTree, i: nat, ts: seq<IdTree>)
    requires Distinct(t) && t.IdInner? && i < |t.children|
    requires forall c | c in ts :: exists j: nat :: j < |t.children| && j != i && t.children[j] == c
    ensures Ids(t.children[i]) !! IdsOf(ts)
  {
  }

  /** All children of a node at depth `d` are at depth `d - 1`. */
  ghost predicate Layered(d: nat, t: IdTree)
    decreases d
  {
    match t
    case IdLeaf(_, _) => d == 0
    case IdInner(_, depth, children) => d > 0 && depth == d && forall c | c in children :: Layered(d - 1, c)
  }

  /** `b'` is `b` with changes only at `ids`. */
  ghost predicate Outside(b: Blocks, b': Blocks, ids: set<BlockId>) {
    forall x | x !in ids :: (x in b <==> x in b') && (x in b ==> b'[x] == b[x])
  }

  // ----- Deleting blocks

  class DataNodeStore {
    var blocks: Blocks

    constructor ()
      ensures blocks == map[]
    {
      blocks := map[];
    }

    /** removeSubtree deletes the blocks of the subtree and no others. */
    method RemoveSubtree(depth: nat, id: BlockId, ghost t: IdTree)
      requires Stored(blocks, t) && Distinct(t) && Layered(depth, t) && t.id == id
      modifies this
      ensures blocks == old(blocks) - Ids(t)
      decreases depth
    {
      if depth == 0 {
        blocks := blocks - {id};
      } else {
        var childIds := blocks[id].childIds;
        var i := 0;
        while i < |childIds|
          invariant 0 <= i <= |childIds|
          invariant blocks == old(blocks) - IdsOf(t.children[..i])
        {
          ghost var c := t.children[i];
          RemainingStored(old(blocks), blocks, t, i);
          assert c in t.children;
          RemoveSubtree(depth - 1, childIds[i], c);
          IdsOfSnoc(t.children[..i], c);
          assert t.children[..i + 1] == t.children[..i] + [c];
          i := i + 1;
        }
        assert t.children[..i] == t.children;
        blocks := blocks - {id};
        assert Ids(t) == {id} + IdsOf(t.children);
      }
    }

    /** The loop of the trimming callback: the last child goes, with its whole subtree, until
        `needed` children are left. */
    method TrimChildren(depth: nat, id: BlockId, needed: nat, ghost t: IdTree)
      requires Stored(blocks, t) && Distinct(t) && Layered(depth, t) && t.id == id && t.IdInner?
      requires 1 <= needed <= |t.children|
      modifies this
      ensures blocks == Trimmed(old(blocks), t, needed)
    {
      NothingTrimmed(blocks, t);
      assert blocks[id] == NodeOf(t);
      hide Stored, Distinct, Ids, IdsOf, Trimmed;
      var numChildren := |blocks[id].childIds|;
      while numChildren > needed
        invariant needed <= numChildren <= |t.children|
        invariant blocks == Trimmed(old(blocks), t, numChildren)
      {
        ghost var c := t.children[numChildren - 1];
        TrimmedNode(old(blocks), t, numChildren);
        var ids := blocks[id].childIds;
        TrimmedStored(old(blocks), blocks, t, numChildren - 1, numChildren);
        assert c in t.children;
        assert Distinct(c) by { ChildDistinct(t, numChildren - 1); }
        RemoveSubtree(depth - 1, ids[numChildren - 1], c);
        TrimStep(old(blocks), t, numChildren);
        blocks := blocks[id := InnerBlock(depth, ids[..numChildren - 1])];
        numChildren := numChildren - 1;
      }
    }

    /** The walk of a shrinking resize over a stored subtree: it descends to the new last leaf,
        resizes it, and trims each node on the way back. Exactly the blocks of the dropped
        subtrees disappear, and what is left is the tree of `Cut`. */
    method Shrink(l: Layout, depth: nat, id: BlockId, end: nat, size: nat, newNumLeaves: nat, ghost offset: nat, ghost t: IdTree)
      requires Stored(blocks, t) && Distinct(t) && LeftMax(l, depth, Erase(t)) && t.id == id
      requires 1 <= end <= |Leaves(Erase(t))| && newNumLeaves == offset + end && offset % MaxLeaves(l, depth) == 0
      modifies this
      ensures Became(old(blocks), blocks, t, Cut(l, t, end, size))
      decreases depth
    {
      hide *;
      if depth == 0 {
        LeafBecame(l, blocks, t, end, size);
        blocks := blocks[id := LeafBlock(ResizeLeaf(blocks[id].data, size))];
      } else {
        var k := MaxLeaves(l, depth - 1);
        ShrinkSetup(l, depth, t, end, offset);
        var j := CeilDivision(end, k) - 1;
        ghost var c := t.children[j];
        StoredChild(blocks, t, j);
        Shrink(l, depth - 1, blocks[id].childIds[j], LastEnd(end, k), size, newNumLeaves, offset + LastBase(end, k), c);
        ghost var c' := Cut(l, c, LastEnd(end, k), size);
        ghost var t1 := t.(children := t.children[j := c']);
        CutIds(l, c, LastEnd(end, k), size);
        ReplaceChild(old(blocks), blocks, depth, t, j, c');
        var needed := NeededChildren(l, newNumLeaves, depth);
        ghost var b1 := blocks;
        TrimChildren(depth, id, needed, t1);
        TrimmedBecame(l, old(blocks), b1, t, j, c', end, size);
      }
    }

    /** _whileRootHasOnlyOneChildRemoveRootReturnChild */
    method RemoveChain(id: BlockId, ghost t: IdTree) returns (bottom: BlockId)
      requires Stored(blocks, t) && Distinct(t) && t.id == id
      modifies this
      ensures bottom == Bottom(t).id && blocks == old(blocks) - (Ids(t) - Ids(Bottom(t)))
      decreases t
    {
      if blocks[id].LeafBlock? || |blocks[id].childIds| != 1 {
        return id;
      }
      ghost var c := t.children[0];
      StoredChild(blocks, t, 0);
      BottomIds(blocks, t);
      OnlyChildIds(t);
      OwnIdNotBelow(t, 0);
      var childId := blocks[id].childIds[0];
      hide Ids, Stored, Distinct;
      bottom := RemoveChain(childId, c);
      blocks := blocks - {id};
    }

    /** _whileRootHasOnlyOneChildReplaceRootWithItsChild */
    method LowerRoot(root: BlockId, ghost t: IdTree)
      requires Stored(blocks, t) && Distinct(t) && t.id == root
      modifies this
      ensures Became(old(blocks), blocks, t, CollapseIds(t))
    {
      BecameSame(blocks, t);
      if blocks[root].InnerBlock? && |blocks[root].childIds| == 1 {
        ghost var c := t.children[0];
        CollapseBecame(blocks, t);
        BottomIds(blocks, t);
        StoredChild(blocks, t, 0);
        var childId := blocks[root].childIds[0];
        ghost var z := Bottom(t);
        assert z == Bottom(c) && z.id in Ids(z);
        hide *;
        var bottom := RemoveChain(childId, c);
        blocks := blocks[root := blocks[bottom]];
        blocks := blocks - {bottom};
      }
    }

    /** A shrinking resize of a whole blob: of the blob's blocks exactly those of the nodes that
        are left stay, under the same root id, and no other block is touched. */
    method ShrinkBlob(l: Layout, root: BlockId, n: nat, size: nat, ghost t: IdTree)
      requires Stored(blocks, t) && Distinct(t) && LeftMax(l, Depth(Erase(t)), Erase(t)) && t.id == root
      requires 1 <= n <= |Leaves(Erase(t))|
      modifies this
      ensures Became(old(blocks), blocks, t, CutRoot(l, t, n, size))
    {
      hide Stored, Distinct, LeftMax, Leaves, Ids, Became, CollapseIds, Cut;
      RootDepth(l, blocks, t);
      var depth := if blocks[root].LeafBlock? then 0 else blocks[root].depth;
      Shrink(l, depth, root, n, size, n, 0, t);
      ghost var b1 := blocks;
      CutIds(l, t, n, size);
      BecameStored(old(blocks), b1, t, Cut(l, t, n, size));
      LowerRoot(root, Cut(l, t, n, size));
      BecameTwice(old(blocks), b1, blocks, t, Cut(l, t, n, size), CutRoot(l, t, n, size));
    }
  }

  lemma RootDepth(l: Layout, b: Blocks, t: IdTree)
    requires Stored(b, t)
    ensures t.id in b && Depth(Erase(t)) == if b[t.id].LeafBlock? then 0 else b[t.id].depth
  {
  }

  // ----- Lowering the root

  /** The end of a chain of nodes with one child each. */
  function Bottom(t: IdTree): IdTree
    decreases t
  {
    if t.IdInner? && |t.children| == 1 then Bottom(t.children[0]) else t
  }

  /** The tree after its root has taken over the content of the end of the chain. */
  function CollapseIds(t: IdTree): IdTree {
    Bottom(t).(id := t.id)
  }

  lemma {:induction false} CollapseErases(t: IdTree)
    ensures Erase(CollapseIds(t)) == Collapse(Erase(t)) == Erase(Bottom(t))
    decreases t
  {
    if t.IdInner? && |t.children| == 1 {
      CollapseErases(t.children[0]);
      EraseChild(t, 0);
    }
  }

  lemma {:induction false} BottomIds(b: Blocks, t: IdTree)
    requires Stored(b, t) && Distinct(t)
    ensures Stored(b, Bottom(t)) && Distinct(Bottom(t)) && Ids(Bottom(t)) <= Ids(t) && t.id in Ids(t)
    ensures t.IdInner? && |t.children| == 1 ==> t.id !in Ids(Bottom(t))
    decreases t
  {
    if t.IdInner? && |t.children| == 1 {
      StoredChild(b, t, 0);
      BottomIds(b, t.children[0]);
      OwnIdNotBelow(t, 0);
      assert t.children[0] in t.children;
    }
  }

  lemma OnlyChildIds(t: IdTree)
    requires t.IdInner? && |t.children| == 1
    ensures Ids(t) == {t.id} + Ids(t.children[0])
  {
  }

  lemma {:induction false} CollapseBecame(b: Blocks, t: IdTree)
    requires Stored(b, t) && Distinct(t) && t.IdInner? && |t.children| == 1
    ensures Bottom(t).id in b
    ensures var z := Bottom(t);
            Became(b, (b - (Ids(t.children[0]) - Ids(z)))[t.id := b[z.id]] - {z.id}, t, CollapseIds(t))
  {
    var z, c := Bottom(t), t.children[0];
    assert z == Bottom(c);
    hide Stored, Distinct, Ids, Bottom;
    BottomIds(b, t);
    StoredChild(b, t, 0);
    BottomIds(b, c);
    OwnIdNotBelow(t, 0);
    OnlyChildIds(t);
    StoredIds(b, z);
    OwnId(z);
    var b' := (b - (Ids(c) - Ids(z)))[t.id := b[z.id]] - {z.id};
    MovedTree(b, b', z, t.id);
    RootMoved(b, b', t, z, Ids(c));
  }

  lemma OwnId(t: IdTree)
    ensures t.id in Ids(t)
  {
  }

  /** The ids that are left, and the blocks outside the tree. */
  lemma RootMoved(b: Blocks, b': Blocks, t: IdTree, z: IdTree, below: set<BlockId>)
    requires Ids(t) == {t.id} + below && Ids(z) <= below && t.id !in below && z.id in Ids(z) && z.id in b
    requires Ids(z) <= b.Keys && b' == (b - (below - Ids(z)))[t.id := b[z.id]] - {z.id}
    requires Ids(CollapseIds(t)) == Ids(z) - {z.id} + {t.id}
    ensures Ids(CollapseIds(t)) <= Ids(t) && Outside(b, b', Ids(t))
    ensures forall x | x in Ids(t) :: x in b' <==> x in Ids(CollapseIds(t))
  {
    hide Ids, CollapseIds;
  }

  /** A tree whose root block has been moved to another id. */
  lemma MovedTree(b: Blocks, b': Blocks, z: IdTree, id: BlockId)
    requires Stored(b, z) && Distinct(z) && id !in Ids(z) && z.id in b
    requires id in b' && b'[id] == b[z.id] && SameOn(b, b', Ids(z) - {z.id})
    ensures Stored(b', z.(id := id)) && Ids(z.(id := id)) == Ids(z) - {z.id} + {id}
  {
    var z' := z.(id := id);
    assert NodeOf(z') == NodeOf(z);
    if z.IdInner? {
      assert Ids(z') == {id} + IdsOf(z.children) && Ids(z) == {z.id} + IdsOf(z.children);
      forall c | c in z.children ensures Stored(b', c) {
        assert Ids(c) <= IdsOf(z.children);
        StoredFrame(b, b', c);
      }
    }
  }

  /** The blob cut after `n` leaves, as the resize leaves it. */
  function CutRoot(l: Layout, t: IdTree, n: nat, size: nat): IdTree {
    CollapseIds(Cut(l, t, n, size))
  }

  lemma BecameTwice(b: Blocks, b1: Blocks, b2: Blocks, t: IdTree, t1: IdTree, t2: IdTree)
    requires Became(b, b1, t, t1) && Became(b1, b2, t1, t2)
    ensures Became(b, b2, t, t2)
  {
  }

  lemma BecameStored(b: Blocks, b': Blocks, t: IdTree, t': IdTree)
    requires Became(b, b', t, t')
    ensures Stored(b', t')
  {
  }

  lemma BecameSame(b: Blocks, t: IdTree)
    requires Stored(b, t)
    ensures Became(b, b, t, t)
  {
  }

  /** Shrinking a blob of at least `n` leaves leaves a well-formed tree with the first `n` leaves,
      and its nodes are those of the walk that DataTree makes. */
  lemma CutRootIsShrunk(l: Layout, t: IdTree, n: nat, size: nat)
    requires LeftMax(l, Depth(Erase(t)), Erase(t)) && 1 <= n <= |Leaves(Erase(t))|
    ensures var r, x := Erase(CutRoot(l, t, n, size)), Leaves(Erase(t));
            && r == TraverseRoot(l, ResizingVisitor(n, size), Erase(t), n - 1, n, true).tree
            && IsTree(l, r) && Leaves(r) == x[..n - 1] + [ResizeLeaf(x[n - 1], size)]
  {
    hide MaxLeaves, LeftMax, Leaves, Erase, Cut, Traverse, TraverseRoot, Collapse, CollapseIds, RootOk, IsTree, Depth, FirstOutcome;
    var v, e := ResizingVisitor(n, size), Erase(t);
    var d := Depth(e);
    LeafCount(l, d, e);
    ShrinkRootOk(l, e, n, size);
    RootAchieves(l, v, e, n - 1, n, true);
    RootUnfolds(l, v, e, n - 1, n, true);
    FirstIsAll(l, v, e, n);
    CutIsTraverse(l, d, t, n, size, n, 0, true, true);
    CollapseErases(Cut(l, t, n, size));
    ShrunkLeaves(l, Leaves(e), n, size);
  }

  /** A walk that fits into the tree is its own first part. */
  lemma FirstIsAll(l: Layout, v: Visitor, t: Tree, n: nat)
    requires 1 <= n <= MaxLeaves(l, Depth(t))
    ensures FirstOutcome(l, v, t, n - 1, n, true) == Traverse(l, v, t, Span(n - 1, n, 0), true, true, false)
  {
    hide MaxLeaves, Traverse, Leaves;
  }

  lemma ShrinkRootOk(l: Layout, t: Tree, n: nat, size: nat)
    requires LeftMax(l, Depth(t), t) && n >= 1
    ensures RootOk(l, ResizingVisitor(n, size), t, n - 1, n, true)
  {
  }

  lemma ShrunkLeaves(l: Layout, x: seq<LeafData>, n: nat, size: nat)
    requires 1 <= n <= |x|
    ensures RootWalk(l, ResizingVisitor(n, size), x, n - 1, n).After() == x[..n - 1] + [ResizeLeaf(x[n - 1], size)]
  {
  }

  /** The store after all but the first `m` children of `t` have been deleted. */
  ghost function Trimmed(b: Blocks, t: IdTree, m: nat): Blocks
    requires t.IdInner? && m <= |t.children|
  {
    (b - IdsOf(t.children[m..]))[t.id := InnerBlock(t.depth, ChildIds(t.children[..m]))]
  }

  lemma NothingTrimmed(b: Blocks, t: IdTree)
    requires Stored(b, t) && t.IdInner?
    ensures Trimmed(b, t, |t.children|) == b
  {
    assert t.children[|t.children|..] == [] && t.children[..|t.children|] == t.children;
  }

  lemma TrimmedNode(b: Blocks, t: IdTree, m: nat)
    requires t.IdInner? && m <= |t.children|
    ensures t.id in Trimmed(b, t, m) && Trimmed(b, t, m)[t.id] == InnerBlock(t.depth, ChildIds(t.children[..m]))
  {
  }

  lemma ChildDistinct(t: IdTree, i: nat)
    requires Distinct(t) && t.IdInner? && i < |t.children|
    ensures Distinct(t.children[i])
  {
  }

  lemma TrimStep(b: Blocks, t: IdTree, m: nat)
    requires t.IdInner? && 1 <= m <= |t.children| && Distinct(t)
    ensures (Trimmed(b, t, m) - Ids(t.children[m - 1]))[t.id := InnerBlock(t.depth, ChildIds(t.children[..m])[..m - 1])]
            == Trimmed(b, t, m - 1)
  {
    var c := t.children[m - 1];
    IdsOfCons(c, t.children[m..]);
    assert t.children[m - 1..] == [c] + t.children[m..];
    assert ChildIds(t.children[..m])[..m - 1] == ChildIds(t.children[..m - 1]);
    OwnIdNotBelow(t, m - 1);
    hide Distinct, Ids, IdsOf;
  }

  // ----- Shrinking a tree

  function Erase(t: IdTree): Tree {
    match t
    case IdLeaf(_, data) => Leaf(data)
    case IdInner(_, depth, children) =>
      Inner(depth, seq(|children|, i requires 0 <= i < |children| => Erase(children[i])))
  }

  /** Where the last of the children that `end` leaves need begins, and how many leaves it needs. */
  function LastBase(end: nat, k: nat): nat
    requires k > 0
  {
    MaxZeroSubtraction(CeilDivision(end, k), 1) * k
  }

  function LastEnd(end: nat, k: nat): nat
    requires k > 0
  {
    MaxZeroSubtraction(end, LastBase(end, k))
  }

  /** The tree cut after `end` leaves, with its new last leaf resized: along the right border
      each node keeps the children it needs. */
  function Cut(l: Layout, t: IdTree, end: nat, size: nat): IdTree {
    match t
    case IdLeaf(id, data) => IdLeaf(id, ResizeLeaf(data, size))
    case IdInner(id, depth, children) =>
      if depth == 0 then t   // no inner node looks like this
      else
        var k := MaxLeaves(l, depth - 1);
        var c := CeilDivision(end, k);
        if 1 <= c <= |children|
        then IdInner(id, depth, children[..c - 1] + [Cut(l, children[c - 1], LastEnd(end, k), size)])
        else t
  }

  lemma {:induction false} LayeredErase(l: Layout, d: nat, t: IdTree)
    requires LeftMax(l, d, Erase(t))
    ensures Layered(d, t)
    decreases d
  {
    if t.IdInner? {
      forall c | c in t.children ensures Layered(d - 1, c) {
        var i :| 0 <= i < |t.children| && t.children[i] == c;
        assert Erase(t).children[i] == Erase(c);
        LayeredErase(l, d - 1, c);
      }
    }
  }

  lemma {:induction false} TraversedTrees(l: Layout, v: Visitor, t: Tree, s: Span, isLeft: bool, isRight: bool, grow: bool, j: nat)
    requires t.Inner? && t.depth > 0 && j <= |t.children|
    ensures var ts := TraverseChildren(l, v, t, s, isLeft, isRight, grow, j).trees;
            && |ts| == |t.children| - j
            && forall i | 0 <= i < |ts| :: ts[i] == TraverseChild(l, v, t, s, isLeft, isRight, grow, j + i).tree
    decreases |t.children| - j
  {
    hide TraverseChild;
    if j < |t.children| {
      TraversedTrees(l, v, t, s, isLeft, isRight, grow, j + 1);
      var ts, rest := TraverseChildren(l, v, t, s, isLeft, isRight, grow, j).trees, TraverseChildren(l, v, t, s, isLeft, isRight, grow, j + 1).trees;
      forall i | 0 <= i < |ts| ensures ts[i] == TraverseChild(l, v, t, s, isLeft, isRight, grow, j + i).tree {
        if i > 0 {
          assert ts[i] == rest[i - 1] && j + 1 + (i - 1) == j + i;
        }
      }
    }
  }

  /** The one child that a walk over leaf `end - 1` enters. */
  lemma OnlyChild(end: nat, k: nat, offset: nat)
    requires k > 0 && end > 0
    ensures var c, s := CeilDivision(end, k), Span(end - 1, end, offset);
            && c > 0 && BeginChild(s, k) == c - 1 && 1 <= LastEnd(end, k) <= k && LastBase(end, k) + LastEnd(end, k) == end
            && ChildSpan(s, k, c - 1) == Span(LastEnd(end, k) - 1, LastEnd(end, k), offset + LastBase(end, k))
  {
    var c := CeilDivision(end, k);
    CeilBounds(end, k);
    MulAdd(c - 1, 1, k);
    DivIs(end - 1, k, c - 1);
  }

  lemma CutChild(l: Layout, d: nat, t: IdTree, end: nat)
    requires t.IdInner? && LeftMax(l, d, Erase(t)) && 1 <= end <= |Leaves(Erase(t))|
    ensures var k := MaxLeaves(l, d - 1);
            var c := CeilDivision(end, k);
            && 1 <= c <= |t.children| && LeftMax(l, d - 1, Erase(t.children[c - 1]))
            && 1 <= LastEnd(end, k) <= |Leaves(Erase(t.children[c - 1]))|
  {
    var e, k, n := Erase(t), MaxLeaves(l, d - 1), |t.children|;
    LeafCount(l, d, e);
    CeilOfMax(end, |Leaves(e)|, k);
    CeilPosition(end, k, 0);
    CeilPosition(end, k, CeilDivision(end, k) - 1);
    hide MaxLeaves, CeilDivision;
    var c := CeilDivision(end, k);
    LeavesSplit(e.children, k, c - 1);
    assert e.children[c - 1] == Erase(t.children[c - 1]);
    MulAdd(c - 1, 1, k);
  }

  /** A walk over leaf `end - 1`, which exists, enters child `c - 1` and leaves the ones before it alone. */
  lemma ChildOfShrink(l: Layout, v: Visitor, t: Tree, s: Span, isLeft: bool, isRight: bool, i: nat)
    requires t.Inner? && t.depth > 0
    requires var k := MaxLeaves(l, t.depth - 1); CeilDivision(s.end, k) == BeginChild(s, k) + 1 <= |t.children|
    requires i <= BeginChild(s, MaxLeaves(l, t.depth - 1))
    ensures var k, n := MaxLeaves(l, t.depth - 1), |t.children|;
            TraverseChild(l, v, t, s, isLeft, isRight, false, i).tree ==
              if i == BeginChild(s, k)
              then Traverse(l, v, t.children[i], ChildSpan(s, k, i), isLeft, isRight && i == n - 1, false).tree
              else t.children[i]
  {
  }

  lemma CutUnfolds(l: Layout, t: IdTree, end: nat, size: nat)
    requires t.IdInner? && t.depth > 0
    requires 1 <= CeilDivision(end, MaxLeaves(l, t.depth - 1)) <= |t.children|
    ensures var k := MaxLeaves(l, t.depth - 1);
            var c := CeilDivision(end, k);
            var e := Erase(Cut(l, t, end, size));
            && e.Inner? && e.depth == t.depth && |e.children| == c
            && e.children[c - 1] == Erase(Cut(l, t.children[c - 1], LastEnd(end, k), size))
            && forall i | 0 <= i < c - 1 :: e.children[i] == Erase(t.children[i])
  {
  }

  lemma CutLeaf(l: Layout, t: IdTree, end: nat, size: nat, n: nat, offset: nat, isLeft: bool, isRight: bool)
    requires LeftMax(l, 0, Erase(t)) && 1 <= end <= |Leaves(Erase(t))|
    ensures Erase(Cut(l, t, end, size))
            == Traverse(l, ResizingVisitor(n, size), Erase(t), Span(end - 1, end, offset), isLeft, isRight, false).tree
  {
  }

  lemma ResizingVisitorTrims(n: nat, size: nat)
    ensures ResizingVisitor(n, size).trim == Some(n)
  {
  }

  /** The nodes that the walk of a shrinking resize leaves are those of `Cut`. */
  lemma {:induction false} CutIsTraverse(l: Layout, d: nat, t: IdTree, end: nat, size: nat, n: nat, offset: nat, isLeft: bool, isRight: bool)
    requires LeftMax(l, d, Erase(t)) && 1 <= end <= |Leaves(Erase(t))| && offset % MaxLeaves(l, d) == 0 && n == offset + end
    ensures Erase(Cut(l, t, end, size))
            == Traverse(l, ResizingVisitor(n, size), Erase(t), Span(end - 1, end, offset), isLeft, isRight, false).tree
    decreases d
  {
    hide *;
    if d == 0 {
      CutLeaf(l, t, end, size, n, offset, isLeft, isRight);
    } else {
      var v, s, k := ResizingVisitor(n, size), Span(end - 1, end, offset), MaxLeaves(l, d - 1);
      ShrinkSetup(l, d, t, end, offset);
      OnlyChild(end, k, offset);
      ResizingVisitorTrims(n, size);
      var c := CeilDivision(end, k);
      CutIsTraverse(l, d - 1, t.children[c - 1], LastEnd(end, k), size, n, offset + LastBase(end, k), isLeft, isRight && c - 1 == |t.children| - 1);
      CutMatches(l, v, t, s, size, isLeft, isRight);
    }
  }

  /** If the child at the border matches, so does the node. */
  lemma CutMatches(l: Layout, v: Visitor, t: IdTree, s: Span, size: nat, isLeft: bool, isRight: bool)
    requires t.IdInner? && t.depth > 0 && s.begin < s.end && v.trim.Some?
    requires var c := CeilDivision(s.end, MaxLeaves(l, t.depth - 1));
             && NeededChildren(l, v.trim.value, t.depth) == c && 1 <= c <= |t.children|
             && BeginChild(s, MaxLeaves(l, t.depth - 1)) == c - 1
    requires var k, n := MaxLeaves(l, t.depth - 1), |t.children|;
             var c := CeilDivision(s.end, k);
             Erase(Cut(l, t.children[c - 1], LastEnd(s.end, k), size))
             == Traverse(l, v, Erase(t.children[c - 1]), ChildSpan(s, k, c - 1), isLeft, isRight && c - 1 == n - 1, false).tree
    ensures Erase(Cut(l, t, s.end, size)) == Traverse(l, v, Erase(t), s, isLeft, isRight, false).tree
  {
    hide *;
    var k, e := MaxLeaves(l, t.depth - 1), Erase(t);
    var c := CeilDivision(s.end, k);
    EraseChild(t, c - 1);
    ShrunkNode(l, v, e, s, isLeft, isRight);
    CutUnfolds(l, t, s.end, size);
    var r, cut := Traverse(l, v, e, s, isLeft, isRight, false).tree, Erase(Cut(l, t, s.end, size));
    forall i | 0 <= i < c ensures cut.children[i] == r.children[i] {
      ChildOfShrink(l, v, e, s, isLeft, isRight, i);
      EraseChild(t, i);
    }
    assert cut.children == r.children;
  }

  lemma EraseChild(t: IdTree, i: nat)
    requires t.IdInner? && i < |t.children|
    ensures Erase(t).Inner? && Erase(t).depth == t.depth && |Erase(t).children| == |t.children|
    ensures Erase(t).children[i] == Erase(t.children[i])
  {
  }

  /** The node itself, after the walk: the children it still needs. */
  lemma ShrunkNode(l: Layout, v: Visitor, t: Tree, s: Span, isLeft: bool, isRight: bool)
    requires t.Inner? && t.depth > 0 && s.begin < s.end && v.trim.Some?
    requires var c := CeilDivision(s.end, MaxLeaves(l, t.depth - 1)); NeededChildren(l, v.trim.value, t.depth) == c <= |t.children|
    ensures var r, c := Traverse(l, v, t, s, isLeft, isRight, false).tree, CeilDivision(s.end, MaxLeaves(l, t.depth - 1));
            && r.Inner? && r.depth == t.depth && |r.children| == c
            && forall i | 0 <= i < c :: r.children[i] == TraverseChild(l, v, t, s, isLeft, isRight, false, i).tree
  {
    var c := CeilDivision(s.end, MaxLeaves(l, t.depth - 1));
    assert CreateChildren(l, v, s, t.depth, |t.children|).trees == [];
    hide MaxLeaves, CeilDivision, NeededChildren, TraverseChildren, CreateChildren, TraverseChild;
    TraversedTrees(l, v, t, s, isLeft, isRight, false, 0);
    var ts := TraverseChildren(l, v, t, s, isLeft, isRight, false, 0).trees;
    TraverseKeeps(l, v, t, s, isLeft, isRight, c, ts);
    forall i | 0 <= i < c ensures ts[i] == TraverseChild(l, v, t, s, isLeft, isRight, false, i).tree {
      assert ts[i] == TraverseChild(l, v, t, s, isLeft, isRight, false, 0 + i).tree;
    }
  }

  lemma TraverseKeeps(l: Layout, v: Visitor, t: Tree, s: Span, isLeft: bool, isRight: bool, c: nat, ts: seq<Tree>)
    requires t.Inner? && t.depth > 0 && s.begin < s.end && v.trim.Some? && c <= |ts|
    requires NeededChildren(l, v.trim.value, t.depth) == c
    requires ts == TraverseChildren(l, v, t, s, isLeft, isRight, false, 0).trees
    requires CreateChildren(l, v, s, t.depth, |t.children|).trees == []
    ensures Traverse(l, v, t, s, isLeft, isRight, false).tree == Inner(t.depth, ts[..c])
  {
  }

  /** The subtree `t` of `b` has been replaced by `t'`, whose nodes have ids of `t`: the blocks
      of the other nodes of `t` are gone, and nothing else has changed. */
  ghost predicate Became(b: Blocks, b': Blocks, t: IdTree, t': IdTree) {
    && Stored(b', t') && t'.id == t.id && Ids(t') <= Ids(t)
    && Outside(b, b', Ids(t))
    && forall x | x in Ids(t) :: x in b' <==> x in Ids(t')
  }

  lemma ShrinkSetup(l: Layout, d: nat, t: IdTree, end: nat, offset: nat)
    requires d > 0 && LeftMax(l, d, Erase(t)) && 1 <= end <= |Leaves(Erase(t))| && offset % MaxLeaves(l, d) == 0
    ensures t.IdInner? && t.depth == d && Layered(d, t)
    ensures var k := MaxLeaves(l, d - 1);
            var c := CeilDivision(end, k);
            && 1 <= c <= |t.children| && LeftMax(l, d - 1, Erase(t.children[c - 1]))
            && 1 <= LastEnd(end, k) <= |Leaves(Erase(t.children[c - 1]))|
            && LastBase(end, k) + LastEnd(end, k) == end && (offset + LastBase(end, k)) % k == 0
            && NeededChildren(l, offset + end, d) == c
  {
    var k := MaxLeaves(l, d - 1);
    assert MaxLeaves(l, d) == l.maxChildren * k;
    LeafCount(l, d, Erase(t));
    CutChild(l, d, t, end);
    MultipleShift(offset, l.maxChildren, k, CeilDivision(end, k) - 1);
    assert (offset + LastBase(end, k)) % k == 0;
    LayeredErase(l, d, t);
    hide MaxLeaves, CeilDivision, Leaves, NeededChildren, LastBase, LastEnd, BeginChild, ChildSpan;
    OnlyChild(end, k, offset);
    NeededIs(l, offset, end, d);
  }

  lemma LeafBecame(l: Layout, b: Blocks, t: IdTree, end: nat, size: nat)
    requires Stored(b, t) && LeftMax(l, 0, Erase(t))
    ensures t.id in b && b[t.id].LeafBlock?
    ensures Became(b, b[t.id := LeafBlock(ResizeLeaf(b[t.id].data, size))], t, Cut(l, t, end, size))
  {
  }

  lemma StoredChild(b: Blocks, t: IdTree, j: nat)
    requires Stored(b, t) && Distinct(t) && t.IdInner? && j < |t.children|
    ensures Stored(b, t.children[j]) && Distinct(t.children[j])
    ensures t.id in b && b[t.id] == NodeOf(t) && b[t.id].InnerBlock? && |b[t.id].childIds| == |t.children|
    ensures b[t.id].childIds[j] == t.children[j].id
  {
  }

  lemma {:induction false} CutIds(l: Layout, t: IdTree, end: nat, size: nat)
    ensures Cut(l, t, end, size).id == t.id && Ids(Cut(l, t, end, size)) <= Ids(t)
    ensures Distinct(t) ==> Distinct(Cut(l, t, end, size))
    ensures forall d :: Layered(d, t) ==> Layered(d, Cut(l, t, end, size))
    decreases t
  {
    if t.IdInner? && t.depth > 0 {
      var k := MaxLeaves(l, t.depth - 1);
      var c := CeilDivision(end, k);
      if 1 <= c <= |t.children| {
        CutIds(l, t.children[c - 1], LastEnd(end, k), size);
        KeptIds(t, c - 1, Cut(l, t.children[c - 1], LastEnd(end, k), size));
      }
    }
  }

  lemma KeptIds(t: IdTree, j: nat, c': IdTree)
    requires t.IdInner? && j < |t.children| && Ids(c') <= Ids(t.children[j])
    requires Distinct(t.children[j]) ==> Distinct(c')
    requires forall d :: Layered(d, t.children[j]) ==> Layered(d, c')
    ensures var t' := t.(children := t.children[..j] + [c']);
            && Ids(t') <= Ids(t) && (Distinct(t) ==> Distinct(t'))
            && forall d :: Layered(d, t) ==> Layered(d, t')
  {
    var t' := t.(children := t.children[..j] + [c']);
    assert t.children[j] in t.children;
    forall c | c in t'.children ensures c == c' || c in t.children {
    }
    assert IdsOf(t'.children) <= IdsOf(t.children);
    if Distinct(t) {
      forall a, b | 0 <= a < b < |t'.children| ensures Ids(t'.children[a]) !! Ids(t'.children[b]) {
        assert Ids(t.children[a]) !! Ids(t.children[b]);
      }
    }
  }

  /** Replacing one child of a stored tree. */
  lemma ReplaceChild(b: Blocks, b': Blocks, d: nat, t: IdTree, j: nat, c': IdTree)
    requires Stored(b, t) && Distinct(t) && Layered(d, t) && t.IdInner? && j < |t.children|
    requires Became(b, b', t.children[j], c') && Distinct(c')
    requires forall e :: Layered(e, t.children[j]) ==> Layered(e, c')
    ensures var t' := t.(children := t.children[j := c']);
            Stored(b', t') && Distinct(t') && Layered(d, t')
  {
    var t' := t.(children := t.children[j := c']);
    assert t.children[j] in t.children;
    OwnIdNotBelow(t, j);
    assert ChildIds(t'.children) == ChildIds(t.children);
    forall i | 0 <= i < |t.children| ensures Stored(b', t'.children[i]) {
      if i != j {
        SiblingStored(b, b', t, i, j);
      }
    }
    ReplacedDistinct(t, j, c');
    forall c | c in t'.children ensures Layered(d - 1, c) {
      assert c == c' || c in t.children;
    }
  }

  lemma SiblingStored(b: Blocks, b': Blocks, t: IdTree, i: nat, j: nat)
    requires Stored(b, t) && Distinct(t) && t.IdInner? && i < |t.children| && j < |t.children| && i != j
    requires Outside(b, b', Ids(t.children[j]))
    ensures Stored(b', t.children[i])
  {
    assert t.children[i] in t.children;
    assert Ids(t.children[i]) !! Ids(t.children[j]);
    StoredFrame(b, b', t.children[i]);
  }

  lemma ReplacedDistinct(t: IdTree, j: nat, c': IdTree)
    requires Distinct(t) && t.IdInner? && j < |t.children| && Distinct(c') && Ids(c') <= Ids(t.children[j])
    ensures Distinct(t.(children := t.children[j := c']))
    ensures IdsOf(t.children[j := c']) <= IdsOf(t.children)
  {
  }

  /** After trimming, the node is the one of `Cut`. */
  lemma TrimmedBecame(l: Layout, b: Blocks, b1: Blocks, t: IdTree, j: nat, c': IdTree, end: nat, size: nat)
    requires t.IdInner? && t.depth > 0 && j < |t.children|
    requires var k := MaxLeaves(l, t.depth - 1); CeilDivision(end, k) == j + 1 && c' == Cut(l, t.children[j], LastEnd(end, k), size)
    requires Stored(b, t) && Distinct(t) && Became(b, b1, t.children[j], c')
    requires var t1 := t.(children := t.children[j := c']); Stored(b1, t1) && Distinct(t1)
    ensures Became(b, Trimmed(b1, t.(children := t.children[j := c']), j + 1), t, Cut(l, t, end, size))
  {
    CutIs(l, t, end, size);
    hide *;
    KeptBecame(b, b1, t, j, c');
  }

  lemma CutIs(l: Layout, t: IdTree, end: nat, size: nat)
    requires t.IdInner? && t.depth > 0 && 1 <= CeilDivision(end, MaxLeaves(l, t.depth - 1)) <= |t.children|
    ensures var k := MaxLeaves(l, t.depth - 1);
            var j := CeilDivision(end, k) - 1;
            Cut(l, t, end, size) == t.(children := t.children[..j] + [Cut(l, t.children[j], LastEnd(end, k), size)])
  {
  }

  lemma {:induction false} StoredIds(b: Blocks, t: IdTree)
    requires Stored(b, t)
    ensures Ids(t) <= b.Keys
    decreases t
  {
    if t.IdInner? {
      forall c | c in t.children ensures Ids(c) <= b.Keys {
        StoredIds(b, c);
      }
    }
  }

  /** The first `j` children of `t` and a replacement for the next one are what is left. */
  lemma KeptBecame(b: Blocks, b1: Blocks, t: IdTree, j: nat, c': IdTree)
    requires t.IdInner? && j < |t.children| && Stored(b, t) && Distinct(t) && Became(b, b1, t.children[j], c')
    requires var t1 := t.(children := t.children[j := c']); Stored(b1, t1) && Distinct(t1)
    ensures Became(b, Trimmed(b1, t.(children := t.children[j := c']), j + 1), t, t.(children := t.children[..j] + [c']))
  {
    KeptBlocks(b, b1, t, j, c');
    hide Stored, Distinct, Ids, IdsOf, Trimmed, Outside;
    KeptStored(b1, t, j, c');
    KeptSubset(t, j, c');
    TrimmedOutside(b, b1, t, j, c');
  }

  lemma KeptStored(b1: Blocks, t: IdTree, j: nat, c': IdTree)
    requires t.IdInner? && j < |t.children|
    requires var t1 := t.(children := t.children[j := c']); Stored(b1, t1) && Distinct(t1)
    ensures Stored(Trimmed(b1, t.(children := t.children[j := c']), j + 1), t.(children := t.children[..j] + [c']))
  {
    var t1 := t.(children := t.children[j := c']);
    var t' := t.(children := t.children[..j] + [c']);
    var b2 := Trimmed(b1, t1, j + 1);
    assert t1.children[..j + 1] == t'.children;
    forall i | 0 <= i < |t'.children| ensures Stored(b2, t'.children[i]) {
      assert t'.children[i] == t1.children[i];
      TrimmedStored(b1, b2, t1, i, j + 1);
    }
  }

  lemma KeptBlocks(b: Blocks, b1: Blocks, t: IdTree, j: nat, c': IdTree)
    requires t.IdInner? && j < |t.children| && Stored(b, t) && Distinct(t) && Became(b, b1, t.children[j], c')
    ensures forall x | x in Ids(t) ::
              x in Trimmed(b1, t.(children := t.children[j := c']), j + 1) <==> x in Ids(t.(children := t.children[..j] + [c']))
  {
    hide Stored, Distinct, Became, IdsOf;
    var b2 := Trimmed(b1, t.(children := t.children[j := c']), j + 1);
    var t' := t.(children := t.children[..j] + [c']);
    assert Ids(c') <= Ids(t.children[j]) by { BecameIds(b, b1, t.children[j], c'); }
    forall x | x in Ids(t) ensures x in b2 <==> x in Ids(t') {
      if x != t.id {
        var c :| c in t.children && x in Ids(c);
        var i :| 0 <= i < |t.children| && t.children[i] == c;
        BlockKept(b, b1, t, j, c', i, x);
        KeptIn(t, j, c', i, x);
      }
    }
  }

  lemma BecameIds(b: Blocks, b': Blocks, t: IdTree, t': IdTree)
    requires Became(b, b', t, t')
    ensures Ids(t') <= Ids(t)
  {
  }

  lemma KeptSubset(t: IdTree, j: nat, c': IdTree)
    requires t.IdInner? && j < |t.children| && Ids(c') <= Ids(t.children[j])
    ensures Ids(t.(children := t.children[..j] + [c'])) <= Ids(t)
  {
  }

  lemma TrimmedOutside(b: Blocks, b1: Blocks, t: IdTree, j: nat, c': IdTree)
    requires t.IdInner? && j < |t.children| && Outside(b, b1, Ids(t.children[j]))
    ensures Outside(b, Trimmed(b1, t.(children := t.children[j := c']), j + 1), Ids(t))
  {
  }

  /** Which blocks of the `i`-th child are left. */
  ghost predicate Left(j: nat, c': IdTree, i: nat, x: BlockId) {
    i < j || (i == j && x in Ids(c'))
  }

  lemma BlockKept(b: Blocks, b1: Blocks, t: IdTree, j: nat, c': IdTree, i: nat, x: BlockId)
    requires t.IdInner? && j < |t.children| && i < |t.children| && Stored(b, t) && Distinct(t)
    requires Became(b, b1, t.children[j], c') && x in Ids(t.children[i])
    ensures x in Trimmed(b1, t.(children := t.children[j := c']), j + 1) <==> Left(j, c', i, x)
  {
    var t1 := t.(children := t.children[j := c']);
    var rest := t.children[j + 1..];
    assert t1.children[j + 1..] == rest;
    OwnIdNotBelow(t, i);
    if i > j {
      assert t.children[i] == rest[i - j - 1];
      assert x in IdsOf(rest);
    } else {
      forall c | c in rest ensures exists m: nat :: m < |t.children| && m != i && t.children[m] == c {
        var m :| 0 <= m < |rest| && rest[m] == c;
        assert t.children[j + 1 + m] == c;
      }
      DisjointSiblings(t, i, rest);
      if i < j {
        assert t.children[i] in t.children;
        StoredIds(b, t.children[i]);
        assert Ids(t.children[i]) !! Ids(t.children[j]);
      }
    }
  }

  lemma KeptIn(t: IdTree, j: nat, c': IdTree, i: nat, x: BlockId)
    requires t.IdInner? && j < |t.children| && i < |t.children| && Distinct(t)
    requires Ids(c') <= Ids(t.children[j]) && x in Ids(t.children[i])
    ensures x in Ids(t.(children := t.children[..j] + [c'])) <==> Left(j, c', i, x)
  {
  }

  lemma RemainingStored(b: Blocks, b': Blocks, t: IdTree, i: nat)
    requires Stored(b, t) && Distinct(t) && t.IdInner? && i < |t.children|
    requires b' == b - IdsOf(t.children[..i])
    ensures Stored(b', t.children[i])
  {
    forall c | c in t.children[..i] ensures exists j: nat :: j < |t.children| && j != i && t.children[j] == c {
      var j :| 0 <= j < i && t.children[..i][j] == c;
      assert t.children[j] == c;
    }
    DisjointSiblings(t, i, t.children[..i]);
    assert t.children[i] in t.children;
    StoredFrame(b, b', t.children[i]);
  }

  lemma TrimmedStored(b: Blocks, b': Blocks, t: IdTree, i: nat, m: nat)
    requires Stored(b, t) && Distinct(t) && t.IdInner? && i < m <= |t.children|
    requires b' == Trimmed(b, t, m)
    ensures Stored(b', t.children[i])
  {
    var rest := t.children[m..];
    forall c | c in rest ensures exists j: nat :: j < |t.children| && j != i && t.children[j] == c {
      var j :| 0 <= j < |rest| && rest[j] == c;
      assert t.children[m + j] == c;
    }
    DisjointSiblings(t, i, rest);
    OwnIdNotBelow(t, i);
    assert t.children[i] in t.children;
    StoredFrame(b, b', t.children[i]);
  }

  lemma OwnIdNotBelow(t: IdTree, i: nat)
    requires Distinct(t) && t.IdInner? && i < |t.children|
    ensures t.id !in Ids(t.children[i])
  {
  }
}
