/** Model of DataTree.cpp: reading, writing and resizing a blob through walks over its leaves.
    Every operation is proved to act on the flat bytes of the blob. */
module DataTree {
  import opened Bytes
  import opened BlobMath
  import opened BlobTree
  import opened LeafTraverser
  import opened TraversalProofs
  import opened BlobBytes
  import opened WordTraverser
  import opened WordProofs
  import opened WordFailures
  import opened WordLimits

  // ----- The part of a leaf that lies in a byte range

  function DataBegin(l: Layout, offset: nat, i: nat): nat {
    MaxZeroSubtraction(offset, FullBytes(l, i))
  }

  function DataEnd(l: Layout, endByte: nat, i: nat): nat {
    Min(l.maxBytes, MaxZeroSubtraction(endByte, FullBytes(l, i)))
  }

  function FirstLeaf(l: Layout, offset: nat): nat {
    offset / l.maxBytes
  }

  function EndLeaf(l: Layout, endByte: nat): nat {
    CeilDivision(endByte, l.maxBytes)
  }

  /** Where leaf `i` lies relative to the bytes offset..endByte. */
  ghost predicate Place(l: Layout, offset: nat, endByte: nat, i: nat) {
    var first, b := FullBytes(l, i), l.maxBytes;
    && (i < FirstLeaf(l, offset) <==> first + b <= offset)
    && (i < EndLeaf(l, endByte) <==> first < endByte)
    && (i + 1 < EndLeaf(l, endByte) <==> first + b < endByte)
  }

  lemma PlaceOf(l: Layout, offset: nat, endByte: nat, i: nat)
    ensures Place(l, offset, endByte, i)
  {
    DivPosition(offset, l.maxBytes, i);
    CeilPosition(endByte, l.maxBytes, i);
  }

  lemma RangeNotEmpty(l: Layout, offset: nat, endByte: nat)
    requires offset < endByte
    ensures FirstLeaf(l, offset) < EndLeaf(l, endByte)
  {
    DivBounds(offset, l.maxBytes);
    CeilPosition(endByte, l.maxBytes, FirstLeaf(l, offset));
  }

  /** The slices of consecutive leaves partition the byte range: together they cover exactly
      the positions offset..endByte, each in one leaf. */
  lemma SlicesPartition(l: Layout, offset: nat, endByte: nat, p: nat)
    requires offset < endByte
    ensures var i := p / l.maxBytes;
            var r := p - FullBytes(l, i);
            && FullBytes(l, i) <= p < FullBytes(l, i) + l.maxBytes
            && (offset <= p < endByte <==>
                  FirstLeaf(l, offset) <= i < EndLeaf(l, endByte) && DataBegin(l, offset, i) <= r < DataEnd(l, endByte, i))
  {
    var i := p / l.maxBytes;
    DivBounds(p, l.maxBytes);
    PlaceOf(l, offset, endByte, i);
  }

  // ----- Writing

  /** DataLeafNode::write, which asserts that the range lies in the leaf. */
  function PutBytes(x: LeafData, begin: nat, d: seq<Byte>): LeafData {
    if begin + |d| <= |x| then x[..begin] + d + x[begin + |d|..] else x
  }

  /** The bytes of the source that go to leaf `i`. */
  function SourceSlice(l: Layout, offset: nat, source: seq<Byte>, i: nat): seq<Byte> {
    var first, endByte := FullBytes(l, i), offset + |source|;
    var lo := MaxZeroSubtraction(first + DataBegin(l, offset, i), offset);
    var hi := MaxZeroSubtraction(first + DataEnd(l, endByte, i), offset);
    if lo <= hi <= |source| then source[lo..hi] else []
  }

  function WriteExisting(l: Layout, offset: nat, source: seq<Byte>, i: nat, isRightBorder: bool, x: LeafData): LeafData {
    var b, e, d := DataBegin(l, offset, i), DataEnd(l, offset + |source|, i), SourceSlice(l, offset, source, i);
    var y := if isRightBorder && |x| < e then ResizeLeaf(x, e) else x;
    if b == 0 && e == l.maxBytes then d else PutBytes(y, b, d)
  }

  function WriteCreated(l: Layout, offset: nat, source: seq<Byte>, i: nat): LeafData {
    Zeros(DataBegin(l, offset, i)) + SourceSlice(l, offset, source, i)
  }

  function WriteVisitor(l: Layout, offset: nat, source: seq<Byte>): Visitor {
    Visitor((i: nat, isRightBorder: bool, x: LeafData) => WriteExisting(l, offset, source, i, isRightBorder, x),
            (i: nat) => WriteCreated(l, offset, source, i), None)
  }

  /** The byte that a write leaves at position `p`, over the old byte `before`. */
  function ByteAfter(offset: nat, source: seq<Byte>, p: nat, before: Byte): Byte {
    if offset <= p < offset + |source| then source[p - offset] else before
  }

  ghost predicate InRange(l: Layout, offset: nat, source: seq<Byte>, i: nat) {
    source != [] && FirstLeaf(l, offset) <= i < EndLeaf(l, offset + |source|)
  }

  lemma MakeInRange(l: Layout, offset: nat, source: seq<Byte>, i: nat)
    requires source != [] && FirstLeaf(l, offset) <= i < EndLeaf(l, offset + |source|)
    ensures InRange(l, offset, source, i)
  {
  }

  lemma SliceSize(l: Layout, offset: nat, source: seq<Byte>, i: nat)
    requires InRange(l, offset, source, i)
    ensures var b, e := DataBegin(l, offset, i), DataEnd(l, offset + |source|, i);
            b < e <= l.maxBytes && |SourceSlice(l, offset, source, i)| == e - b
  {
    PlaceOf(l, offset, offset + |source|, i);
    hide FullBytes;
  }

  lemma SliceByte(l: Layout, offset: nat, source: seq<Byte>, i: nat, r: nat)
    requires InRange(l, offset, source, i) && r < l.maxBytes
    ensures var b, e, p := DataBegin(l, offset, i), DataEnd(l, offset + |source|, i), FullBytes(l, i) + r;
            && |SourceSlice(l, offset, source, i)| == e - b
            && (b <= r < e <==> offset <= p < offset + |source|)
            && (b <= r < e ==> SourceSlice(l, offset, source, i)[r - b] == source[p - offset])
  {
    PlaceOf(l, offset, offset + |source|, i);
    hide FullBytes;
  }

  lemma WriteExistingIs(l: Layout, offset: nat, source: seq<Byte>, i: nat, isRightBorder: bool, x: LeafData)
    requires InRange(l, offset, source, i) && |x| <= l.maxBytes
    requires isRightBorder || DataEnd(l, offset + |source|, i) <= |x|
    ensures var y := WriteExisting(l, offset, source, i, isRightBorder, x);
            && |y| == Max(|x|, DataEnd(l, offset + |source|, i))
            && forall r: nat | r < |y| :: y[r] == ByteAfter(offset, source, FullBytes(l, i) + r, ByteAt(x, r))
  {
    hide FullBytes, SourceSlice, DataBegin, DataEnd;
    var y := WriteExisting(l, offset, source, i, isRightBorder, x);
    SliceSize(l, offset, source, i);
    forall r: nat | r < |y| ensures y[r] == ByteAfter(offset, source, FullBytes(l, i) + r, ByteAt(x, r)) {
      SliceByte(l, offset, source, i, r);
    }
  }

  lemma WriteCreatedIs(l: Layout, offset: nat, source: seq<Byte>, i: nat)
    requires InRange(l, offset, source, i)
    ensures var y := WriteCreated(l, offset, source, i);
            && |y| == DataEnd(l, offset + |source|, i)
            && forall r: nat | r < |y| :: y[r] == ByteAfter(offset, source, FullBytes(l, i) + r, 0)
  {
    hide FullBytes, SourceSlice, DataBegin, DataEnd;
    var y := WriteCreated(l, offset, source, i);
    SliceSize(l, offset, source, i);
    forall r: nat | r < |y| ensures y[r] == ByteAfter(offset, source, FullBytes(l, i) + r, 0) {
      SliceByte(l, offset, source, i, r);
    }
  }

  function WriteWalk(l: Layout, x: seq<LeafData>, offset: nat, source: seq<Byte>): Walk {
    RootWalk(l, WriteVisitor(l, offset, source), x, FirstLeaf(l, offset), EndLeaf(l, offset + |source|))
  }

  lemma WriteLeafAt(l: Layout, x: seq<LeafData>, offset: nat, source: seq<Byte>, i: nat)
    requires source != []
    ensures var w, visited := WriteWalk(l, x, offset, source), InRange(l, offset, source, i);
            var slot := w.SlotAt(i);
            && (slot.Old? <==> i < |x|)
            && w.LeafAt(i) ==
                 match slot
                 case Old(leaf, right) => if visited then WriteExisting(l, offset, source, i, right, leaf) else leaf
                 case New => if visited then WriteCreated(l, offset, source, i) else Zeros(l.maxBytes)
  {
  }

  /** Leaf `i` after the write holds its part of `s'`. */
  ghost predicate LeafHolds(l: Layout, leaf: LeafData, s': seq<Byte>, i: nat) {
    && Agrees(leaf, s', FullBytes(l, i))
    && FullBytes(l, i) <= |s'| && |leaf| == Min(l.maxBytes, |s'| - FullBytes(l, i))
  }

  lemma WriteOldVisited(l: Layout, x: seq<LeafData>, s: seq<Byte>, offset: nat, source: seq<Byte>, i: nat)
    requires Holds(l, x, s) && InRange(l, offset, source, i) && i < |x|
    ensures LeafHolds(l, WriteWalk(l, x, offset, source).LeafAt(i), Written(s, offset, source), i)
  {
    hide FullBytes, Holds, FirstLeaf, EndLeaf, WriteExisting, Written, ByteAt, Walk.LeafAt, ResizeLeaf, WriteVisitor;
    var w, endByte := WriteWalk(l, x, offset, source), offset + |source|;
    var slot := w.SlotAt(i);
    WriteLeafAt(l, x, offset, source, i);
    SlotHolds(w, s, i);
    HoldsSizes(l, x, s);
    PlaceOf(l, offset, endByte, i);
    PlaceOf(l, offset, endByte, |x| - 1);
    LengthFrom(l, x, s, i);
    assert slot.isRightBorder || DataEnd(l, endByte, i) <= |slot.leaf|;
    WriteExistingIs(l, offset, source, i, slot.isRightBorder, slot.leaf);
    OverAgrees(slot.leaf, w.LeafAt(i), s, offset, source, FullBytes(l, i));
  }

  /** If `y` is `x` with the source put over it, and `x` agrees with `s`, then `y` agrees with
      `s` after the write. */
  lemma OverAgrees(x: LeafData, y: LeafData, s: seq<Byte>, offset: nat, source: seq<Byte>, first: nat)
    requires source != [] && Agrees(x, s, first) && |x| <= |y|
    requires |x| < |y| ==> |s| <= first + |x|
    requires forall r: nat | r < |y| :: y[r] == ByteAfter(offset, source, first + r, ByteAt(x, r))
    ensures Agrees(y, Written(s, offset, source), first)
  {
  }

  /** How many bytes there are from leaf `i` on. */
  lemma LengthFrom(l: Layout, x: seq<LeafData>, s: seq<Byte>, i: nat)
    requires Holds(l, x, s) && i < |x|
    ensures FullBytes(l, i) + |x[i]| <= |s|
    ensures i < |x| - 1 ==> FullBytes(l, i) + l.maxBytes <= |s|
    ensures i == |x| - 1 ==> |s| == FullBytes(l, i) + |x[i]|
  {
    if i < |x| - 1 {
      FullBytesAdd(l, i, 1);
      FullBytesAdd(l, i + 1, |x| - 2 - i);
    }
  }

  lemma WriteOldSkipped(l: Layout, x: seq<LeafData>, s: seq<Byte>, offset: nat, source: seq<Byte>, i: nat)
    requires Holds(l, x, s) && source != [] && !InRange(l, offset, source, i) && i < |x|
    ensures LeafHolds(l, WriteWalk(l, x, offset, source).LeafAt(i), Written(s, offset, source), i)
  {
    hide FullBytes, Holds, FirstLeaf, EndLeaf, WriteExisting, Written, ByteAt, Walk.LeafAt, ResizeLeaf, WriteVisitor;
    var w, endByte := WriteWalk(l, x, offset, source), offset + |source|;
    WriteLeafAt(l, x, offset, source, i);
    HoldsSizes(l, x, s);
    SlotHolds(w, s, i);
    PlaceOf(l, offset, endByte, i);
    PlaceOf(l, offset, endByte, |x| - 1);
    LengthFrom(l, x, s, i);
    var leaf := w.SlotAt(i).leaf;
    forall r: nat | r < |leaf| ensures leaf[r] == ByteAfter(offset, source, FullBytes(l, i) + r, ByteAt(leaf, r)) {
      InLeaf(leaf, r);
    }
    OverAgrees(leaf, leaf, s, offset, source, FullBytes(l, i));
  }

  lemma InLeaf(leaf: LeafData, r: nat)
    requires r < |leaf|
    ensures ByteAt(leaf, r) == leaf[r]
  {
  }

  lemma WriteNewVisited(l: Layout, x: seq<LeafData>, s: seq<Byte>, offset: nat, source: seq<Byte>, i: nat)
    requires Holds(l, x, s) && InRange(l, offset, source, i) && i >= |x|
    ensures LeafHolds(l, WriteWalk(l, x, offset, source).LeafAt(i), Written(s, offset, source), i)
  {
    hide FullBytes, Holds, FirstLeaf, EndLeaf, Written, WriteCreated, Walk.LeafAt, WriteVisitor;
    var y, endByte := WriteCreated(l, offset, source, i), offset + |source|;
    WriteLeafAt(l, x, offset, source, i);
    PastTheEnd(l, x, s, i);
    PlaceOf(l, offset, endByte, i);
    WriteCreatedIs(l, offset, source, i);
    OverAgrees([], y, s, offset, source, FullBytes(l, i));
  }

  lemma WriteNewSkipped(l: Layout, x: seq<LeafData>, s: seq<Byte>, offset: nat, source: seq<Byte>, i: nat)
    requires Holds(l, x, s) && source != [] && |x| <= i < FirstLeaf(l, offset)
    ensures LeafHolds(l, WriteWalk(l, x, offset, source).LeafAt(i), Written(s, offset, source), i)
  {
    hide FullBytes, Holds, FirstLeaf, EndLeaf, Written, WriteCreated, Walk.LeafAt, WriteVisitor;
    var y := Zeros(l.maxBytes);
    WriteLeafAt(l, x, offset, source, i);
    PastTheEnd(l, x, s, i);
    PlaceOf(l, offset, offset + |source|, i);
    OverAgrees([], y, s, offset, source, FullBytes(l, i));
  }

  /** A write through the walk leaves leaves that hold the written bytes. */
  lemma WriteHolds(l: Layout, x: seq<LeafData>, s: seq<Byte>, offset: nat, source: seq<Byte>)
    requires Holds(l, x, s) && source != []
    ensures Holds(l, WriteWalk(l, x, offset, source).After(), Written(s, offset, source))
  {
    hide FullBytes, Holds, EndLeaf, FirstLeaf, Written, Walk.LeafAt, WriteVisitor, LeafHolds, InRange;
    var w, s' := WriteWalk(l, x, offset, source), Written(s, offset, source);
    var y, endByte := w.After(), offset + |source|;
    WriteNeverTrims(l, offset, source);
    HoldsSizes(l, x, s);
    forall i | 0 <= i < |y| ensures LeafHolds(l, y[i], s', i) {
      if i >= |x| {
        if i < FirstLeaf(l, offset) {
          WriteNewSkipped(l, x, s, offset, source, i);
        } else {
          assert InRange(l, offset, source, i) by { MakeInRange(l, offset, source, i); }
          WriteNewVisited(l, x, s, offset, source, i);
        }
      } else if InRange(l, offset, source, i) {
        WriteOldVisited(l, x, s, offset, source, i);
      } else {
        WriteOldSkipped(l, x, s, offset, source, i);
      }
    }
    PlaceOf(l, offset, endByte, |y| - 1);
    FullBytesAdd(l, |x| - 1, 1);
    FullBytesAdd(l, |x|, |y| - |x|);
    FullBytesAdd(l, |y| - 1, 1);
    LeavesHold(l, y, s');
  }

  lemma LeavesHold(l: Layout, y: seq<LeafData>, s: seq<Byte>)
    requires y != [] && |s| <= FullBytes(l, |y|)
    requires forall i | 0 <= i < |y| :: LeafHolds(l, y[i], s, i)
    ensures Holds(l, y, s)
  {
    hide FullBytes;
    FullBytesAdd(l, |y| - 1, 1);
    forall i | 0 <= i < |y| - 1 ensures |y[i]| == l.maxBytes {
      assert LeafHolds(l, y[i], s, i) && LeafHolds(l, y[|y| - 1], s, |y| - 1);
      FullBytesAdd(l, i, 1);
      FullBytesAdd(l, i + 1, |y| - 2 - i);
    }
    assert LeafHolds(l, y[|y| - 1], s, |y| - 1);
  }

  lemma WriteKeepsFull(l: Layout, offset: nat, source: seq<Byte>)
    requires source != []
    ensures KeepsFull(l, WriteVisitor(l, offset, source), FirstLeaf(l, offset), EndLeaf(l, offset + |source|))
  {
    var v, begin, end := WriteVisitor(l, offset, source), FirstLeaf(l, offset), EndLeaf(l, offset + |source|);
    forall i: nat | begin <= i && i + 1 < end ensures |v.onCreate(i)| == l.maxBytes {
      PlaceOf(l, offset, offset + |source|, i);
      WriteCreatedIs(l, offset, source, i);
    }
    forall i: nat, x: LeafData | begin <= i && i + 1 < end && |x| == l.maxBytes
      ensures |v.onExisting(i, false, x)| == l.maxBytes
    {
      PlaceOf(l, offset, offset + |source|, i);
      WriteExistingIs(l, offset, source, i, false, x);
    }
  }

  // ----- Growing

  /** The flag blobIsGrowingFromThisTraversal, from the callbacks of the walk. */
  predicate Grows(l: Layout, endByte: nat, visit: Visit) {
    visit.Created? || (visit.isRightBorder && |visit.leaf| < DataEnd(l, endByte, visit.index))
  }

  predicate IsGrowing(l: Layout, endByte: nat, trace: seq<Visit>) {
    exists k | 0 <= k < |trace| :: Grows(l, endByte, trace[k])
  }

  /** The flag is set exactly if the write ends past the end of the blob. */
  lemma GrowingIs(l: Layout, x: seq<LeafData>, s: seq<Byte>, offset: nat, source: seq<Byte>)
    requires Holds(l, x, s) && source != []
    ensures IsGrowing(l, offset + |source|, WriteWalk(l, x, offset, source).Trace()) <==> |s| < offset + |source|
  {
    var w, endByte := WriteWalk(l, x, offset, source), offset + |source|;
    var trace, begin, end := w.Trace(), FirstLeaf(l, offset), EndLeaf(l, endByte);
    hide Grows, FirstLeaf, EndLeaf, Holds, Walk.SlotAt, VisitOf;
    forall k | 0 <= k < |trace| && Grows(l, endByte, trace[k]) ensures |s| < endByte {
      assert trace[k] == VisitOf(w.SlotAt(begin + k), begin + k);
      GrowsAt(l, x, s, offset, source, begin + k);
    }
    if |s| < endByte {
      GrowsLast(l, x, s, offset, source);
      assert trace[end - 1 - begin] == VisitOf(w.SlotAt(end - 1), end - 1);
      assert Grows(l, endByte, trace[end - 1 - begin]);
    }
  }

  lemma GrowsAt(l: Layout, x: seq<LeafData>, s: seq<Byte>, offset: nat, source: seq<Byte>, i: nat)
    requires Holds(l, x, s) && InRange(l, offset, source, i)
    ensures Grows(l, offset + |source|, VisitOf(WriteWalk(l, x, offset, source).SlotAt(i), i)) ==> |s| < offset + |source|
  {
    hide FullBytes, Holds, EndLeaf, FirstLeaf, WriteVisitor;
    PlaceOf(l, offset, offset + |source|, i);
    if i >= |x| {
      PastTheEnd(l, x, s, i);
    } else {
      LengthFrom(l, x, s, i);
    }
  }

  lemma GrowsLast(l: Layout, x: seq<LeafData>, s: seq<Byte>, offset: nat, source: seq<Byte>)
    requires Holds(l, x, s) && source != [] && |s| < offset + |source|
    ensures var end := EndLeaf(l, offset + |source|);
            && FirstLeaf(l, offset) < end && |x| <= end
            && Grows(l, offset + |source|, VisitOf(WriteWalk(l, x, offset, source).SlotAt(end - 1), end - 1))
  {
    hide FullBytes, Holds, EndLeaf, FirstLeaf, ResizeLeaf, WriteVisitor;
    var endByte := offset + |source|;
    HoldsSizes(l, x, s);
    RangeNotEmpty(l, offset, endByte);
    PlaceOf(l, offset, endByte, |x| - 1);
    LengthFrom(l, x, s, |x| - 1);
  }

  lemma WriteNeverTrims(l: Layout, offset: nat, source: seq<Byte>)
    ensures WriteVisitor(l, offset, source).trim.None?
  {
  }

  /** The size after a write, as the cache records it. */
  lemma WriteSize(l: Layout, x: seq<LeafData>, s: seq<Byte>, offset: nat, source: seq<Byte>)
    requires Holds(l, x, s) && source != []
    ensures var y, endByte := WriteWalk(l, x, offset, source).After(), offset + |source|;
            && (|s| < endByte ==> |y| == EndLeaf(l, endByte) && |Written(s, offset, source)| == endByte)
            && (|s| >= endByte ==> |y| == |x| && |Written(s, offset, source)| == |s|)
  {
    hide FullBytes, Holds, EndLeaf, FirstLeaf, Written, Walk.LeafAt, WriteVisitor;
    var endByte := offset + |source|;
    HoldsSizes(l, x, s);
    LengthFrom(l, x, s, |x| - 1);
    PlaceOf(l, offset, endByte, |x| - 1);
    assert WriteVisitor(l, offset, source).trim.None? by { WriteNeverTrims(l, offset, source); }
  }

  // ----- Resizing

  function NewNumLeaves(l: Layout, numBytes: nat): nat {
    Max(1, EndLeaf(l, numBytes))
  }

  function NewLastLeafSize(l: Layout, numBytes: nat): nat {
    MaxZeroSubtraction(numBytes, FullBytes(l, NewNumLeaves(l, numBytes) - 1))
  }

  function ResizeVisitor(l: Layout, numBytes: nat): Visitor {
    ResizingVisitor(NewNumLeaves(l, numBytes), NewLastLeafSize(l, numBytes))
  }

  function ResizeWalk(l: Layout, x: seq<LeafData>, numBytes: nat): Walk {
    var n := NewNumLeaves(l, numBytes);
    RootWalk(l, ResizeVisitor(l, numBytes), x, n - 1, n)
  }

  lemma NewSizes(l: Layout, numBytes: nat)
    ensures var n, last := NewNumLeaves(l, numBytes), NewLastLeafSize(l, numBytes);
            && numBytes == FullBytes(l, n - 1) + last && last <= l.maxBytes
            && forall i: nat | i < n - 1 :: FullBytes(l, i) + l.maxBytes <= numBytes
  {
    var n := NewNumLeaves(l, numBytes);
    FullBytesAdd(l, 0, 0);
    PlaceOf(l, 0, numBytes, n - 1);
    forall i: nat | i < n - 1 ensures FullBytes(l, i) + l.maxBytes <= numBytes {
      PlaceOf(l, 0, numBytes, i);
    }
  }

  lemma AgreesWithin(leaf: LeafData, s: seq<Byte>, first: nat, n: nat)
    requires Agrees(leaf, s, first) && first + |leaf| <= n
    ensures Agrees(leaf, Resized(s, n), first)
  {
  }

  lemma ResizeLeafHolds(l: Layout, x: seq<LeafData>, s: seq<Byte>, numBytes: nat, i: nat)
    requires Holds(l, x, s) && i < NewNumLeaves(l, numBytes)
    ensures LeafHolds(l, ResizeWalk(l, x, numBytes).LeafAt(i), Resized(s, numBytes), i)
  {
    var w, n, size := ResizeWalk(l, x, numBytes), NewNumLeaves(l, numBytes), NewLastLeafSize(l, numBytes);
    var slot, y := w.SlotAt(i), w.LeafAt(i);
    NewSizes(l, numBytes);
    if slot.Old? {
      SlotHolds(w, s, i);
    } else {
      PastTheEnd(l, x, s, i);
    }
    hide FullBytes, Holds, NewNumLeaves, NewLastLeafSize, Resized, ResizeLeaf;
    if i == n - 1 {
      var old' := if slot.Old? then slot.leaf else [];
      assert y == if slot.Old? then ResizeLeaf(slot.leaf, size) else Zeros(size);
      if slot.Old? {
        AgreesResize(slot.leaf, s, FullBytes(l, i), size);
      }
    }
    AgreesWithin(y, s, FullBytes(l, i), numBytes);
  }

  lemma ResizeHolds(l: Layout, x: seq<LeafData>, s: seq<Byte>, numBytes: nat)
    requires Holds(l, x, s)
    ensures Holds(l, ResizeWalk(l, x, numBytes).After(), Resized(s, numBytes))
  {
    var w, n := ResizeWalk(l, x, numBytes), NewNumLeaves(l, numBytes);
    NewSizes(l, numBytes);
    FullBytesAdd(l, n - 1, 1);
    forall i | 0 <= i < n ensures LeafHolds(l, w.After()[i], Resized(s, numBytes), i) {
      ResizeLeafHolds(l, x, s, numBytes, i);
    }
    LeavesHold(l, w.After(), Resized(s, numBytes));
  }

  // ----- The tree is determined by the bytes

  lemma {:induction false} SameLeavesSameTree(l: Layout, d: nat, t: Tree, t': Tree)
    requires LeftMax(l, d, t) && LeftMax(l, d, t') && Leaves(t) == Leaves(t')
    ensures t == t'
    decreases d
  {
    if t.Inner? {
      var k := MaxLeaves(l, d - 1);
      LeafCount(l, d, t);
      LeafCount(l, d, t');
      assert |t.children| == |t'.children|;
      forall j | 0 <= j < |t.children| ensures t.children[j] == t'.children[j] {
        LeavesSplit(t.children, k, j);
        LeavesSplit(t'.children, k, j);
        SameLeavesSameTree(l, d - 1, t.children[j], t'.children[j]);
      }
    }
  }

  lemma DepthIsMinimal(l: Layout, t: Tree)
    requires IsTree(l, t)
    ensures Depth(t) > 0 ==> MaxLeaves(l, Depth(t) - 1) < |Leaves(t)|
  {
    if t.Inner? {
      LeafCount(l, t.depth, t);
      MulMono(1, |t.children| - 1, MaxLeaves(l, t.depth - 1));
    }
  }

  lemma {:induction false} MaxLeavesMono(l: Layout, a: nat, b: nat)
    requires a <= b
    ensures MaxLeaves(l, a) <= MaxLeaves(l, b)
    decreases b - a
  {
    if a < b {
      PowMono(l.maxChildren, a);
      MaxLeavesMono(l, a + 1, b);
    }
  }

  /** Two stored trees with the same bytes in their leaves are the same tree. */
  lemma UniqueTree(l: Layout, t: Tree, t': Tree)
    requires IsTree(l, t) && IsTree(l, t') && Leaves(t) == Leaves(t')
    ensures t == t'
  {
    DepthIsMinimal(l, t);
    DepthIsMinimal(l, t');
    LeafCount(l, Depth(t), t);
    LeafCount(l, Depth(t'), t');
    hide MaxLeaves, LeftMax, Leaves;
    if Depth(t) < Depth(t') {
      MaxLeavesMono(l, Depth(t), Depth(t') - 1);
      assert false;
    }
    if Depth(t') < Depth(t) {
      MaxLeavesMono(l, Depth(t'), Depth(t) - 1);
      assert false;
    }
    SameLeavesSameTree(l, Depth(t), t, t');
  }

  // ----- Reading

  /** Reading leaves the leaves as they are and must never create any. */
  function ReadVisitor(l: Layout): Visitor {
    Visitor((_, _, x) => x, _ => Zeros(l.maxBytes), None)
  }

  function ReadWalk(l: Layout, x: seq<LeafData>, offset: nat, endByte: nat): Walk {
    RootWalk(l, ReadVisitor(l), x, FirstLeaf(l, offset), EndLeaf(l, endByte))
  }

  /** A read within the blob only visits existing leaves, none of which has to grow, and each
      holds the whole slice that is asked of it. */
  lemma ReadVisits(l: Layout, x: seq<LeafData>, s: seq<Byte>, offset: nat, endByte: nat, i: nat)
    requires Holds(l, x, s) && offset < endByte <= |s| && FirstLeaf(l, offset) <= i < EndLeaf(l, endByte)
    ensures i < |x| && DataBegin(l, offset, i) < DataEnd(l, endByte, i) <= |x[i]| && Agrees(x[i], s, FullBytes(l, i))
    ensures var visit := VisitOf(ReadWalk(l, x, offset, endByte).SlotAt(i), i);
            visit.Existing? && visit.leaf == x[i] && visit.index == i && !Grows(l, endByte, visit)
  {
    ReadEnds(l, x, s, offset, endByte);
    assert Agrees(x[i], s, FullBytes(l, i));
    LengthFrom(l, x, s, i);
    hide FullBytes, EndLeaf, FirstLeaf, Agrees;
    PlaceOf(l, offset, endByte, i);
  }

  lemma ReadEnds(l: Layout, x: seq<LeafData>, s: seq<Byte>, offset: nat, endByte: nat)
    requires Holds(l, x, s) && offset < endByte <= |s|
    ensures EndLeaf(l, endByte) <= |x|
  {
    hide FullBytes, EndLeaf, FirstLeaf, Agrees;
    PlaceOf(l, offset, endByte, |x|);
    FullBytesAdd(l, |x| - 1, 1);
  }

  /** A read leaves the tree as it was. */
  lemma ReadChangesNothing(l: Layout, t: Tree, offset: nat, endByte: nat)
    requires IsTree(l, t) && LeafSizes(l, Leaves(t)) && offset < endByte <= |Flat(Leaves(t))|
    ensures var r, w := TraverseRoot(l, ReadVisitor(l), t, FirstLeaf(l, offset), EndLeaf(l, endByte), true),
                        ReadWalk(l, Leaves(t), offset, endByte);
            r.tree == t && r.trace == w.Trace()
  {
    var x, w := Leaves(t), ReadWalk(l, Leaves(t), offset, endByte);
    FlatHolds(l, x);
    ReadEnds(l, x, Flat(x), offset, endByte);
    RangeNotEmpty(l, offset, endByte);
    hide FirstLeaf, EndLeaf, Leaves, LeftMax, TraverseRoot, Flat;
    RootAchieves(l, ReadVisitor(l), t, FirstLeaf(l, offset), EndLeaf(l, endByte), true);
    assert w.After() == x;
    UniqueTree(l, t, TraverseRoot(l, ReadVisitor(l), t, FirstLeaf(l, offset), EndLeaf(l, endByte), true).tree);
  }

  /** How far a read has come after the leaves before number `i`. */
  ghost function ReadUpTo(l: Layout, offset: nat, endByte: nat, i: nat): (p: nat)
    ensures offset <= p
  {
    Max(offset, Min(endByte, FullBytes(l, i)))
  }

  lemma ReadAdvances(l: Layout, offset: nat, endByte: nat, i: nat)
    requires offset < endByte && FirstLeaf(l, offset) <= i < EndLeaf(l, endByte)
    ensures FullBytes(l, i) + DataBegin(l, offset, i) == ReadUpTo(l, offset, endByte, i)
    ensures FullBytes(l, i) + DataEnd(l, endByte, i) == ReadUpTo(l, offset, endByte, i + 1)
  {
    hide FullBytes, EndLeaf, FirstLeaf;
    PlaceOf(l, offset, endByte, i);
    FullBytesAdd(l, i, 1);
  }

  lemma ReadLimits(l: Layout, offset: nat, endByte: nat)
    requires offset < endByte
    ensures ReadUpTo(l, offset, endByte, FirstLeaf(l, offset)) == offset
    ensures ReadUpTo(l, offset, endByte, EndLeaf(l, endByte)) == endByte
  {
  }

  /** memcpy of leaf[begin..end] to target[at..]. */
  method CopyLeaf(target: array<Byte>, at: nat, leaf: LeafData, begin: nat, end: nat)
    requires begin <= end <= |leaf| && at + (end - begin) <= target.Length
    modifies target
    ensures forall p | 0 <= p < target.Length ::
      target[p] == if at <= p < at + (end - begin) then leaf[begin + (p - at)] else old(target[p])
  {
    for i := 0 to end - begin
      invariant forall p | 0 <= p < target.Length ::
        target[p] == if at <= p < at + i then leaf[begin + (p - at)] else old(target[p])
    {
      target[at + i] := leaf[begin + i];
    }
  }

  ghost predicate HasRead(target: array<Byte>, s: seq<Byte>, offset: nat, upTo: nat)
    requires offset <= upTo
    reads target
  {
    upTo - offset <= target.Length && upTo <= |s| && forall p | 0 <= p < upTo - offset :: target[p] == s[offset + p]
  }

  // ----- Words

  /** ceilDivision of 64-bit numbers. */
  function CeilDivision64(dividend: nat, divisor: nat): nat
    requires divisor > 0
  {
    Word64(dividend + divisor - 1) / divisor
  }

  /** The leaf indices of a byte range, as the source computes them. */
  function FirstLeaf32(l: Layout, offset: nat): nat {
    Word32(offset / l.maxBytes)
  }

  function EndLeaf32(l: Layout, endByte: nat): nat {
    Word32(CeilDivision64(endByte, l.maxBytes))
  }

  /** A walk over a tree of depth `d` up to byte `endByte` computes without overflow. */
  predicate BytesFit(l: Layout, d: nat, endByte: nat) {
    endByte + l.maxBytes - 1 < U64_SIZE && RootFits(l, d, NewNumLeaves(l, endByte))
  }

  /** The blob can be walked over up to byte `endByte`. */
  predicate Readable(l: Layout, t: Tree, endByte: nat) {
    RootFits(l, Depth(t), EndLeaf(l, endByte))
  }

  lemma RootFitsSmall(l: Layout, d: nat, end: nat)
    requires RootFits(l, d, end)
    ensures end < U32_SIZE
  {
  }

  lemma IndicesExact(l: Layout, d: nat, offset: nat, endByte: nat)
    requires BytesFit(l, d, endByte) && offset < endByte
    ensures FirstLeaf32(l, offset) == FirstLeaf(l, offset) < EndLeaf(l, endByte) == EndLeaf32(l, endByte) == NewNumLeaves(l, endByte)
    ensures RootFits(l, d, EndLeaf(l, endByte)) && EndLeaf(l, endByte) < U32_SIZE
  {
    RangeNotEmpty(l, offset, endByte);
    RootFitsSmall(l, d, NewNumLeaves(l, endByte));
    hide RootFits, FirstLeaf;
  }

  /** The bytes of a blob can be counted in 64 bits, with a leaf to spare. */
  lemma BytesSmall(l: Layout, x: seq<LeafData>)
    requires LeafSizes(l, x) && |x| < U32_SIZE && l.maxBytes < U32_SIZE
    ensures |Flat(x)| + l.maxBytes - 1 < U64_SIZE
  {
    FlatLength(x);
    TotalOfFull(l, x);
    MulMono(|x| - 1, U32_SIZE - 2, l.maxBytes);
    MulMono(l.maxBytes, U32_SIZE - 1, U32_SIZE - 2);
    hide Flat, TotalBytes, LeafSizes;
  }

  /** Within the blob the leaf indices of a range are exact. */
  lemma ReadIndices(l: Layout, x: seq<LeafData>, offset: nat, endByte: nat)
    requires LeafSizes(l, x) && l.maxBytes < U32_SIZE && |x| < U32_SIZE && offset < endByte <= |Flat(x)|
    ensures FirstLeaf32(l, offset) == FirstLeaf(l, offset) < EndLeaf32(l, endByte) == EndLeaf(l, endByte) <= |x|
  {
    BytesSmall(l, x);
    FlatHolds(l, x);
    RangeNotEmpty(l, offset, endByte);
    ReadEnds(l, x, Flat(x), offset, endByte);
    hide Flat, LeafSizes, Holds, FirstLeaf;
  }

  lemma ReadRootOk(l: Layout, t: Tree, offset: nat, endByte: nat)
    requires IsTree(l, t) && offset < endByte
    ensures RootOk(l, ReadVisitor(l), t, FirstLeaf(l, offset), EndLeaf(l, endByte), true)
  {
    RangeNotEmpty(l, offset, endByte);
    hide FirstLeaf, EndLeaf, LeftMax;
  }

  /** The walk of a read within the blob, in 32 bits, visits the leaves of the range and changes
      nothing, exactly if the blob can be walked over that far. */
  lemma ReadWalksIff(l: Layout, t: Tree, offset: nat, endByte: nat)
    requires IsTree(l, t) && LeafSizes(l, Leaves(t)) && SmallNodes(l) && |Leaves(t)| < U32_SIZE && offset < endByte <= |Flat(Leaves(t))|
    ensures FirstLeaf32(l, offset) == FirstLeaf(l, offset) < EndLeaf32(l, endByte) == EndLeaf(l, endByte)
    ensures TraverseRoot32(l, ReadVisitor(l), t, FirstLeaf(l, offset), EndLeaf(l, endByte), true, true)
            == Ok(Outcome(t, ReadWalk(l, Leaves(t), offset, endByte).Trace()))
            <==> Readable(l, t, endByte)
  {
    SmallMaxBytes(l);
    ReadIndices(l, Leaves(t), offset, endByte);
    DepthIsMinimal(l, t);
    ReadRootOk(l, t, offset, endByte);
    assert ReadVisitor(l).trim.None?;
    hide FirstLeaf, EndLeaf, FirstLeaf32, EndLeaf32, Leaves, LeafSizes, LeftMax, TraverseRoot, TraverseRoot32, Flat, IsTree, ReadVisitor, RootOk, RootFits, MaxLeaves, SmallNodes;
    ReadChangesNothing(l, t, offset, endByte);
    ReadIsRightIff(l, ReadVisitor(l), t, FirstLeaf(l, offset), EndLeaf(l, endByte));
  }

  // ----- Reading into a buffer

  /** What a read needs of a leaf to copy its slice of `s`. */
  ghost predicate CanRead(l: Layout, leaf: LeafData, offset: nat, endByte: nat, i: nat, s: seq<Byte>) {
    && offset < endByte <= |s| && endByte < U64_SIZE && FirstLeaf(l, offset) <= i < EndLeaf(l, endByte)
    && Agrees(leaf, s, FullBytes(l, i)) && DataBegin(l, offset, i) < DataEnd(l, endByte, i) <= |leaf|
  }

  /** The arithmetic of one leaf in 64 and 32 bits is exact. */
  lemma SliceExact(l: Layout, leaf: LeafData, offset: nat, endByte: nat, i: nat, s: seq<Byte>)
    requires CanRead(l, leaf, offset, endByte, i, s) && l.maxBytes < U32_SIZE
    ensures var first := FullBytes(l, i);
            && Word64(first) == first < endByte
            && Word32(MaxZeroSubtraction(offset, first)) == DataBegin(l, offset, i) && Word32(Min(l.maxBytes, endByte - first)) == DataEnd(l, endByte, i)
            && offset <= first + DataBegin(l, offset, i) && first + DataEnd(l, endByte, i) <= endByte
            && first + DataBegin(l, offset, i) == ReadUpTo(l, offset, endByte, i) && first + DataEnd(l, endByte, i) == ReadUpTo(l, offset, endByte, i + 1)
            && Agrees(leaf, s, first) && DataBegin(l, offset, i) < DataEnd(l, endByte, i) <= |leaf| && endByte <= |s|
  {
    hide FirstLeaf, EndLeaf, ReadUpTo, Agrees, FullBytes;
    PlaceOf(l, offset, endByte, i);
    ReadAdvances(l, offset, endByte, i);
  }

  /** One leaf of a read, with the assertions of the source. */
  method ReadLeaf(l: Layout, target: array<Byte>, visit: Visit, offset: nat, count: nat, endByte: nat, ghost s: seq<Byte>) returns (r: Result<()>)
    requires count <= target.Length && SmallNodes(l)
    modifies target
    ensures forall p | count <= p < target.Length :: target[p] == old(target[p])
    ensures visit.Existing? && CanRead(l, visit.leaf, offset, endByte, visit.index, s) && endByte == offset + count
            && old(HasRead(target, s, offset, ReadUpTo(l, offset, endByte, visit.index))) ==>
              r.Ok? && HasRead(target, s, offset, ReadUpTo(l, offset, endByte, visit.index + 1))
  {
    hide FullBytes, FirstLeaf, EndLeaf, DataBegin, DataEnd, Word32, Word64, Agrees, SmallNodes, ReadUpTo, CanRead;
    if visit.Created? {
      return Err("reading creates a leaf");
    }
    var i, leaf := visit.index, visit.leaf;
    ghost var can := CanRead(l, leaf, offset, endByte, i, s) && endByte == offset + count && HasRead(target, s, offset, ReadUpTo(l, offset, endByte, i));
    if can {
      SmallMaxBytes(l);
      SliceExact(l, leaf, offset, endByte, i, s);
    }
    var first := Word64(FullBytes(l, i));
    if endByte <= first {
      return Err("too far right");
    }
    var b, e := Word32(MaxZeroSubtraction(offset, first)), Word32(Min(l.maxBytes, endByte - first));
    if b > e || e > |leaf| || first + b < offset || first + e > offset + count {
      return Err("out of bounds");
    }
    CopyLeaf(target, first + b - offset, leaf, b, e);
    if can {
      Copied(l, target, old(target[..]), leaf, s, offset, first, b, e);
    }
    r := Ok(());
  }

  /** After the slice of a leaf has been copied, the read has come as far as the slice. */
  lemma Copied(l: Layout, target: array<Byte>, before: seq<Byte>, leaf: LeafData, s: seq<Byte>, offset: nat, first: nat, b: nat, e: nat)
    requires Agrees(leaf, s, first) && offset <= first + b && b <= e <= |leaf| && first + e <= |s| && first + e - offset <= target.Length == |before|
    requires forall p | 0 <= p < first + b - offset :: before[p] == s[offset + p]
    requires forall p | 0 <= p < target.Length ::
               target[p] == if first + b - offset <= p < first + b - offset + (e - b) then leaf[b + (p - (first + b - offset))] else before[p]
    ensures HasRead(target, s, offset, first + e)
  {
    forall p | 0 <= p < first + e - offset ensures target[p] == s[offset + p] {
      if p >= first + b - offset {
        var r: nat := offset + p - first;
        assert leaf[r] == ByteAt(s, first + r);
      }
    }
  }

  /** Each visit of a read brings the next leaf, and it can be read. */
  ghost predicate CanReadAll(l: Layout, trace: seq<Visit>, offset: nat, endByte: nat, s: seq<Byte>) {
    var begin := FirstLeaf(l, offset);
    && offset < endByte && begin + |trace| == EndLeaf(l, endByte)
    && forall k | 0 <= k < |trace| ::
      trace[k].Existing? && trace[k].index == begin + k && CanRead(l, trace[k].leaf, offset, endByte, begin + k, s)
  }

  lemma VisitedLeaves(l: Layout, x: seq<LeafData>, s: seq<Byte>, offset: nat, endByte: nat)
    requires Holds(l, x, s) && offset < endByte <= |s| && endByte < U64_SIZE
    ensures CanReadAll(l, ReadWalk(l, x, offset, endByte).Trace(), offset, endByte, s)
  {
    hide Holds, FirstLeaf, EndLeaf, Agrees, Walk.SlotAt, VisitOf, DataBegin, DataEnd, FullBytes, ReadVisitor;
    var begin, trace := FirstLeaf(l, offset), ReadWalk(l, x, offset, endByte).Trace();
    RangeNotEmpty(l, offset, endByte);
    forall k | 0 <= k < |trace|
      ensures trace[k].Existing? && trace[k].index == begin + k && CanRead(l, trace[k].leaf, offset, endByte, begin + k, s)
    {
      ReadVisits(l, x, s, offset, endByte, begin + k);
    }
  }

  /** The callbacks of a read. */
  method ReadLeaves(l: Layout, target: array<Byte>, trace: seq<Visit>, offset: nat, count: nat, endByte: nat, ghost s: seq<Byte>) returns (r: Result<()>)
    requires count <= target.Length && SmallNodes(l)
    modifies target
    ensures forall p | count <= p < target.Length :: target[p] == old(target[p])
    ensures CanReadAll(l, trace, offset, endByte, s) && endByte == offset + count ==> r.Ok? && HasRead(target, s, offset, endByte)
  {
    ghost var fits := CanReadAll(l, trace, offset, endByte, s) && endByte == offset + count;
    ghost var begin := FirstLeaf(l, offset);
    if fits {
      CanReadLimits(l, trace, offset, endByte, s);
    }
    hide FirstLeaf, EndLeaf, ReadUpTo, CanRead, SmallNodes;
    for k := 0 to |trace|
      invariant fits ==> HasRead(target, s, offset, ReadUpTo(l, offset, endByte, begin + k))
      invariant forall p | count <= p < target.Length :: target[p] == old(target[p])
    {
      var _ :- ReadLeaf(l, target, trace[k], offset, count, endByte, s);
    }
    r := Ok(());
  }

  lemma CanReadLimits(l: Layout, trace: seq<Visit>, offset: nat, endByte: nat, s: seq<Byte>)
    requires CanReadAll(l, trace, offset, endByte, s)
    ensures ReadUpTo(l, offset, endByte, FirstLeaf(l, offset)) == offset <= |s|
    ensures ReadUpTo(l, offset, endByte, FirstLeaf(l, offset) + |trace|) == endByte
  {
    ReadLimits(l, offset, endByte);
    RangeNotEmpty(l, offset, endByte);
    hide FirstLeaf, EndLeaf, ReadUpTo;
    assert CanRead(l, trace[0].leaf, offset, endByte, FirstLeaf(l, offset), s);
  }

  /** _doReadBytes */
  method DoReadBytes(l: Layout, t: Tree, target: array<Byte>, offset: nat, count: nat) returns (r: Result<()>)
    requires IsTree(l, t) && LeafSizes(l, Leaves(t)) && SmallNodes(l) && |Leaves(t)| < U32_SIZE && count <= target.Length
    modifies target
    ensures forall p | count <= p < target.Length :: target[p] == old(target[p])
    ensures count == 0 ==> r.Ok?
    ensures Readable(l, t, offset + count) && offset + count <= |Flat(Leaves(t))| ==> r.Ok? && HasRead(target, Flat(Leaves(t)), offset, offset + count)
  {
    if count == 0 {
      return Ok(());
    }
    ghost var s := Flat(Leaves(t));
    var endByte := Sum64(offset, count);
    if Readable(l, t, offset + count) && offset + count <= |s| {
      ReadSetup(l, t, offset, count);
    }
    hide *;
    var begin, end := FirstLeaf32(l, offset), EndLeaf32(l, endByte);
    if end <= begin {
      return Ok(());
    }
    var o :- TraverseRoot32(l, ReadVisitor(l), t, begin, end, true, true);
    r := ReadLeaves(l, target, o.trace, offset, count, endByte, s);
  }

  /** Where the blob is readable, the walk of a read visits the leaves of the range. */
  lemma ReadSetup(l: Layout, t: Tree, offset: nat, count: nat)
    requires IsTree(l, t) && LeafSizes(l, Leaves(t)) && SmallNodes(l) && |Leaves(t)| < U32_SIZE && count > 0
    requires Readable(l, t, offset + count) && offset + count <= |Flat(Leaves(t))|
    ensures Sum64(offset, count) == offset + count && FirstLeaf32(l, offset) < EndLeaf32(l, offset + count)
    ensures var r := TraverseRoot32(l, ReadVisitor(l), t, FirstLeaf32(l, offset), EndLeaf32(l, offset + count), true, true);
            r.Ok? && CanReadAll(l, r.value.trace, offset, offset + count, Flat(Leaves(t)))
  {
    hide *;
    SmallMaxBytes(l);
    BytesSmall(l, Leaves(t));
    SumExact(offset, count);
    FlatHolds(l, Leaves(t));
    ReadWalksIff(l, t, offset, offset + count);
    VisitedLeaves(l, Leaves(t), Flat(Leaves(t)), offset, offset + count);
  }

  // ----- Signed arithmetic

  const I64_LIMIT: nat := 0x8000_0000_0000_0000

  /** static_cast<int64_t> */
  function Int64(x: nat): int {
    if x < I64_LIMIT then x else x - U64_SIZE
  }

  /** How many bytes _tryReadBytes takes to be there. */
  function RealCount(size: nat, offset: nat, count: nat): nat {
    var there := Int64(size) - Int64(offset);
    var wanted := if Int64(count) < there then Int64(count) else there;
    if wanted < 0 then 0 else wanted
  }

  /** Whether the casts to signed numbers do no harm. */
  predicate CastsFit(size: nat, offset: nat, count: nat) {
    if size < I64_LIMIT <= offset then count == 0 || count >= I64_LIMIT
    else if offset < I64_LIMIT <= size then count == 0
    else count < I64_LIMIT || size <= offset
  }

  /** It is the number of bytes that are there exactly in these cases. */
  lemma RealCountIff(size: nat, offset: nat, count: nat)
    requires size < U64_SIZE && offset < U64_SIZE && count < U64_SIZE
    ensures RealCount(size, offset, count) == Min(count, MaxZeroSubtraction(size, offset)) <==> CastsFit(size, offset, count)
  {
  }

  /** For example, five bytes are claimed to be there at the end of the address space. */
  lemma ReadsPastTheEnd(size: nat)
    requires 4 <= size < I64_LIMIT
    ensures RealCount(size, U64_SIZE - 1, 5) == 5
  {
  }

  /** The size that is computed in 32 and 64 bits is the size of the blob. */
  lemma TreeSize(l: Layout, t: Tree)
    requires SmallNodes(l) && IsTree(l, t) && LeafSizes(l, Leaves(t)) && |Leaves(t)| < U32_SIZE
    ensures ComputeSizeCache32(l, t) == SizeCache(|Leaves(t)|, |Flat(Leaves(t))|)
  {
    CachedLeaves(l, t);
    FlatLength(Leaves(t));
  }

  ghost predicate WellFormed(l: Layout, t: Tree) {
    SmallNodes(l) && IsTree(l, t) && LeafSizes(l, Leaves(t)) && |Leaves(t)| < U32_SIZE
  }

  /** What is cached equals a fresh computation. */
  ghost predicate CacheOk(l: Layout, t: Tree, cache: Option<SizeCache>) {
    cache.Some? ==> cache.value == ComputeSizeCache32(l, t)
  }

  // ----- The class

  class DataTree {
    const layout: Layout
    var root: Tree
    var sizeCache: Option<SizeCache>

    ghost predicate Valid()
      reads this
    {
      WellFormed(layout, root) && CacheOk(layout, root, sizeCache)
    }

    /** The bytes of the blob. */
    ghost function Contents(): seq<Byte>
      reads this`root
    {
      Flat(Leaves(root))
    }

    /** DataTreeStore::createNewTree. The size field of a node has 32 bits. */
    constructor (layout_: Layout)
      requires SmallNodes(layout_)
      ensures Valid() && Contents() == [] && layout == layout_
    {
      layout := layout_;
      root := Leaf([]);
      sizeCache := None;
      new;
      assert Leaves(root) == [[]] && Leaves(root)[1..] == [];
    }

    /** _getOrComputeSizeCache: what is cached always equals a fresh computation. */
    method GetOrComputeSizeCache() returns (size: SizeCache)
      requires Valid()
      modifies this`sizeCache
      ensures Valid() && size == SizeCache(|Leaves(root)|, |Contents()|) && sizeCache == Some(size)
    {
      TreeSize(layout, root);
      hide IsTree, LeafSizes, Leaves, Flat, ComputeSizeCache32;
      if sizeCache.None? {
        sizeCache := Some(ComputeSizeCache32(layout, root));
      }
      size := sizeCache.value;
    }

    /** resizeNumBytes. Where the arithmetic does not overflow, the bytes are resized and the cached
        size equals a fresh computation. */
    method ResizeNumBytes(numBytes: nat) returns (r: Result<()>)
      requires Valid() && numBytes < U64_SIZE
      modifies this
      ensures BytesFit(layout, Depth(old(root)), numBytes) ==> r.Ok? && Valid() && sizeCache.Some? && Contents() == Resized(old(Contents()), numBytes)
    {
      hide WellFormed, CacheOk, Leaves, Flat, TraverseRoot32, BytesFit, NewNumLeaves, NewLastLeafSize, Resized, Word32, Word64, Minus32, CeilDivision64, FullBytes, ResizingVisitor, Max, ResizeIs, Depth;
      ghost var t, fits := root, BytesFit(layout, Depth(root), numBytes);
      var n := Word32(Max(1, CeilDivision64(numBytes, layout.maxBytes)));
      var begin := Minus32(n, 1);
      var size := Word32(Word64(numBytes + U64_SIZE - Word64(FullBytes(layout, begin))));
      Parts(layout, root);
      if fits {
        ResizeExact(layout, Depth(root), numBytes);
        ResizeWalks(layout, root, numBytes);
      }
      if begin < n {
        var o :- TraverseRoot32(layout, ResizingVisitor(n, size), root, begin, n, true, false);
        root := o.tree;
      }
      sizeCache := Some(SizeCache(n, numBytes));
      if fits {
        ResizeSize(layout, t, numBytes, root);
      }
      r := Ok(());
    }

    /** writeBytes. Where the arithmetic does not overflow, the bytes are written and the cached size
        equals a fresh computation. */
    method WriteBytes(source: seq<Byte>, offset: nat) returns (r: Result<()>)
      requires Valid() && offset < U64_SIZE && |source| < U64_SIZE
      modifies this
      ensures source == [] || BytesFit(layout, Depth(old(root)), offset + |source|) ==>
                r.Ok? && Valid() && Contents() == Written(old(Contents()), offset, source)
    {
      hide WellFormed, CacheOk, Leaves, Flat, TraverseRoot32, BytesFit, EndLeaf, FirstLeaf, FirstLeaf32, EndLeaf32, Written, IsGrowing, WriteVisitor, Sum64, WriteIs, Depth;
      if source == [] {
        WriteNothing(Contents(), offset);
        return Ok(());
      }
      ghost var t, fits := root, BytesFit(layout, Depth(root), offset + |source|);
      var endByte := Sum64(offset, |source|);
      if fits {
        WriteWalks(layout, root, offset, source);
      }
      var begin, end := FirstLeaf32(layout, offset), EndLeaf32(layout, endByte);
      if end <= begin {
        return Ok(());
      }
      var o :- TraverseRoot32(layout, WriteVisitor(layout, offset, source), root, begin, end, true, false);
      root := o.tree;
      if IsGrowing(layout, endByte, o.trace) {
        sizeCache := Some(SizeCache(end, endByte));
      }
      if fits {
        WrittenSize(layout, t, old(sizeCache), offset, source, o);
      }
      r := Ok(());
    }

    /** _tryReadBytes: reads what there is of the requested range, if the blob can be walked over
        that far and the casts to signed numbers do no harm. */
    method TryReadBytes(target: array<Byte>, offset: nat, count: nat) returns (r: Result<nat>)
      requires Valid() && count <= target.Length && offset < U64_SIZE && count < U64_SIZE
      modifies this`sizeCache, target
      ensures Valid() && Contents() == old(Contents())
      ensures var there := Min(count, MaxZeroSubtraction(|Contents()|, offset));
              (there == 0 || Readable(layout, root, offset + there)) && CastsFit(|Contents()|, offset, count) ==>
                && r == Ok(Min(count, MaxZeroSubtraction(|Contents()|, offset)))
                && (r.value > 0 ==> target[..r.value] == Contents()[offset..offset + r.value])
                && forall p | r.value <= p < target.Length :: target[p] == old(target[p])
    {
      var size := GetOrComputeSizeCache();
      BytesSmall(layout, Leaves(root));
      RealCountIff(size.numBytes, offset, count);
      hide IsTree, LeafSizes, ComputeSizeCache32, Flat, Leaves, SmallNodes, Readable, CastsFit;
      var realCount := RealCount(size.numBytes, offset, count);
      AtMostCount(size.numBytes, offset, count);
      hide RealCount;
      var _ :- DoReadBytes(layout, root, target, offset, realCount);
      r := Ok(realCount);
    }

    /** readBytes: refuses a range that is not within the blob. The end of the range is computed in
        64 bits. */
    method ReadBytes(target: array<Byte>, offset: nat, count: nat) returns (r: Result<()>)
      requires Valid() && count <= target.Length && offset < U64_SIZE && count < U64_SIZE
      modifies this`sizeCache, target
      ensures Valid() && Contents() == old(Contents())
      ensures |Contents()| < I64_LIMIT && count < I64_LIMIT && (count == 0 || offset + count > |Contents()| || Readable(layout, root, offset + count)) ==>
                && (r.Ok? <==> offset + count <= |Contents()|)
                && (r.Ok? ==> target[..count] == Contents()[offset..offset + count])
    {
      hide DataTree.Valid, DataTree.Contents, Sum64, Readable;
      var size := GetOrComputeSizeCache();
      if offset <= size.numBytes < I64_LIMIT && count < I64_LIMIT {
        SumExact(offset, count);
      }
      if offset > size.numBytes || Sum64(offset, count) > size.numBytes {
        return Err("read outside blob");
      }
      var n :- TryReadBytes(target, offset, count);
      if n != count {
        return Err("couldn't read all requested bytes");
      }
      if count == 0 {
        assert target[..count] == [] == Contents()[offset..offset + count];
      }
      r := Ok(());
    }
  }

  lemma AtMostCount(size: nat, offset: nat, count: nat)
    requires count < U64_SIZE
    ensures RealCount(size, offset, count) <= count
  {
  }

  /** The new number of leaves and the size of the last one, in 32 and 64 bits. */
  lemma ResizeExact(l: Layout, d: nat, numBytes: nat)
    requires BytesFit(l, d, numBytes) && SmallNodes(l)
    ensures var n := NewNumLeaves(l, numBytes);
            && Word32(Max(1, CeilDivision64(numBytes, l.maxBytes))) == n < U32_SIZE && Minus32(n, 1) == n - 1
            && Word32(Word64(numBytes + U64_SIZE - Word64(FullBytes(l, n - 1)))) == NewLastLeafSize(l, numBytes)
  {
    hide *;
    var n, last, b := NewNumLeaves(l, numBytes), NewLastLeafSize(l, numBytes), l.maxBytes;
    FitsLeaves(l, d, numBytes);
    NewSizes(l, numBytes);
    SmallMaxBytes(l);
    NumLeavesExact(l, numBytes);
    Words(n);
    Words(FullBytes(l, n - 1));
    Words(last);
    MinusExact(n);
  }

  lemma Parts(l: Layout, t: Tree)
    requires WellFormed(l, t)
    ensures SmallNodes(l) && IsTree(l, t) && LeafSizes(l, Leaves(t))
  {
  }

  lemma SmallMaxBytes(l: Layout)
    requires SmallNodes(l)
    ensures l.maxBytes < U32_SIZE
  {
  }

  lemma NumLeavesExact(l: Layout, numBytes: nat)
    requires numBytes + l.maxBytes - 1 < U64_SIZE
    ensures Max(1, CeilDivision64(numBytes, l.maxBytes)) == NewNumLeaves(l, numBytes)
  {
  }

  lemma Words(x: nat)
    ensures x < U32_SIZE ==> Word32(x) == x
    ensures x < U64_SIZE ==> Word64(x) == Word64(x + U64_SIZE) == x
  {
  }

  lemma MinusExact(n: nat)
    requires 0 < n < U32_SIZE
    ensures Minus32(n, 1) == n - 1
  {
  }

  /** The size that a resize caches is the one that would be computed. */
  lemma ResizeSize(l: Layout, t: Tree, numBytes: nat, t': Tree)
    requires WellFormed(l, t) && ResizeIs(l, t, numBytes, t') && NewNumLeaves(l, numBytes) < U32_SIZE
    ensures WellFormed(l, t') && CacheOk(l, t', Some(SizeCache(NewNumLeaves(l, numBytes), numBytes)))
    ensures Flat(Leaves(t')) == Resized(Flat(Leaves(t)), numBytes)
  {
    hide SmallNodes, NewNumLeaves, ComputeSizeCache32, IsTree, Leaves, LeafSizes, Flat;
    TreeSize(l, t');
  }

  lemma WriteNothing(s: seq<Byte>, offset: nat)
    ensures Written(s, offset, []) == s
  {
  }

  /** The size after a write is the one that the source caches or leaves in the cache. */
  lemma WrittenSize(l: Layout, t: Tree, cache: Option<SizeCache>, offset: nat, source: seq<Byte>, r: Outcome)
    requires WellFormed(l, t) && CacheOk(l, t, cache) && EndLeaf(l, offset + |source|) < U32_SIZE && WriteIs(l, t, offset, source, r)
    ensures var endByte := offset + |source|;
            WellFormed(l, r.tree) && CacheOk(l, r.tree, if IsGrowing(l, endByte, r.trace) then Some(SizeCache(EndLeaf(l, endByte), endByte)) else cache)
    ensures Flat(Leaves(r.tree)) == Written(Flat(Leaves(t)), offset, source)
  {
    hide SmallNodes, ComputeSizeCache32, IsTree, Leaves, LeafSizes, Flat, EndLeaf, IsGrowing, Written;
    TreeSize(l, t);
    TreeSize(l, r.tree);
  }

  /** The tree `t` is resized to `t'`. */
  ghost predicate ResizeIs(l: Layout, t: Tree, numBytes: nat, t': Tree) {
    && IsTree(l, t') && LeafSizes(l, Leaves(t')) && |Leaves(t')| == NewNumLeaves(l, numBytes)
    && Flat(Leaves(t')) == Resized(Flat(Leaves(t)), numBytes)
  }

  function ResizeRoot32(l: Layout, t: Tree, numBytes: nat): Result<Outcome> {
    var n := NewNumLeaves(l, numBytes);
    TraverseRoot32(l, ResizeVisitor(l, numBytes), t, n - 1, n, true, false)
  }

  /** A resize through the walk in 32 bits is the resize of the flat bytes. */
  lemma ResizeWalks(l: Layout, t: Tree, numBytes: nat)
    requires WellFormed(l, t) && BytesFit(l, Depth(t), numBytes)
    ensures ResizeRoot32(l, t, numBytes).Ok? && ResizeIs(l, t, numBytes, ResizeRoot32(l, t, numBytes).value.tree)
  {
    hide *;
    Parts(l, t);
    ResizeOk(l, t, numBytes);
    var n := NewNumLeaves(l, numBytes);
    FitsLeaves(l, Depth(t), numBytes);
    NotReading(l, ResizeVisitor(l, numBytes), t, n);
    Root32Is(l, ResizeVisitor(l, numBytes), t, n - 1, n, true, false);
    ResizeRoot32Is(l, t, numBytes);
  }

  lemma FewLeaves(l: Layout, t: Tree, end: nat)
    requires WellFormed(l, t) && end < U32_SIZE
    ensures Representable(l, t, end)
  {
    DepthIsMinimal(l, t);
    hide Leaves, LeafSizes, MaxLeaves, LeftMax, SmallNodes;
  }

  lemma FitIs(l: Layout, d: nat, endByte: nat)
    requires endByte + l.maxBytes - 1 < U64_SIZE
    ensures BytesFit(l, d, endByte) <==> RootFits(l, d, NewNumLeaves(l, endByte))
    ensures endByte > 0 ==> NewNumLeaves(l, endByte) == EndLeaf(l, endByte)
  {
    hide RootFits;
  }

  /** The walk of a resize to a number of leaves that can be represented is right exactly if it
      fits. */
  lemma ResizeIsRightIff(l: Layout, t: Tree, numBytes: nat)
    requires WellFormed(l, t) && numBytes + l.maxBytes - 1 < U64_SIZE && NewNumLeaves(l, numBytes) < U32_SIZE
    ensures var n := NewNumLeaves(l, numBytes);
            && n > 0
            && (ResizeRoot32(l, t, numBytes) == Ok(TraverseRoot(l, ResizeVisitor(l, numBytes), t, n - 1, n, true)) <==> BytesFit(l, Depth(t), numBytes))
  {
    hide *;
    var n := NewNumLeaves(l, numBytes);
    Parts(l, t);
    ResizeRootOk(l, t, numBytes);
    FewLeaves(l, t, n);
    FitIs(l, Depth(t), numBytes);
    ResizeRoot32Is(l, t, numBytes);
    WalkIsRightIff(l, ResizeVisitor(l, numBytes), t, n - 1, n);
  }

  /** And so is the walk of a write. */
  lemma WriteIsRightIff(l: Layout, t: Tree, offset: nat, source: seq<Byte>)
    requires WellFormed(l, t) && source != [] && offset + |source| + l.maxBytes - 1 < U64_SIZE && EndLeaf(l, offset + |source|) < U32_SIZE
    ensures var v, begin, end := WriteVisitor(l, offset, source), FirstLeaf(l, offset), EndLeaf(l, offset + |source|);
            TraverseRoot32(l, v, t, begin, end, true, false) == Ok(TraverseRoot(l, v, t, begin, end, true)) <==> BytesFit(l, Depth(t), offset + |source|)
  {
    hide *;
    var endByte := offset + |source|;
    Parts(l, t);
    WriteOk(l, t, offset, source);
    FewLeaves(l, t, EndLeaf(l, endByte));
    FitIs(l, Depth(t), endByte);
    WalkIsRightIff(l, WriteVisitor(l, offset, source), t, FirstLeaf(l, offset), EndLeaf(l, endByte));
  }

  lemma SumExact(a: nat, b: nat)
    requires a + b < U64_SIZE
    ensures Sum64(a, b) == a + b
  {
  }

  lemma FitsLeaves(l: Layout, d: nat, numBytes: nat)
    requires BytesFit(l, d, numBytes)
    ensures RootFits(l, d, NewNumLeaves(l, numBytes)) && 0 < NewNumLeaves(l, numBytes) < U32_SIZE && numBytes + l.maxBytes - 1 < U64_SIZE
  {
    RootFitsSmall(l, d, NewNumLeaves(l, numBytes));
    hide RootFits, EndLeaf;
  }

  lemma ResizeRoot32Is(l: Layout, t: Tree, numBytes: nat)
    ensures var n := NewNumLeaves(l, numBytes);
            n > 0 && ResizeRoot32(l, t, numBytes) == TraverseRoot32(l, ResizeVisitor(l, numBytes), t, n - 1, n, true, false)
  {
    hide TraverseRoot32, ResizeVisitor, EndLeaf;
  }

  lemma ResizeOk(l: Layout, t: Tree, numBytes: nat)
    requires IsTree(l, t) && LeafSizes(l, Leaves(t))
    ensures var n, v := NewNumLeaves(l, numBytes), ResizeVisitor(l, numBytes);
            && n > 0 && RootOk(l, v, t, n - 1, n, true) && ResizeIs(l, t, numBytes, TraverseRoot(l, v, t, n - 1, n, true).tree)
  {
    hide *;
    var n, v, x := NewNumLeaves(l, numBytes), ResizeVisitor(l, numBytes), Leaves(t);
    ResizeRootOk(l, t, numBytes);
    FlatHolds(l, x);
    ResizeHolds(l, x, Flat(x), numBytes);
    ResizeWalkIs(l, x, numBytes);
    RootAchieves(l, v, t, n - 1, n, true);
    AchievedIs(l, v, t, n - 1, n, TraverseRoot(l, v, t, n - 1, n, true));
    var y := ResizeWalk(l, x, numBytes).After();
    HoldsIsFlat(l, y, Resized(Flat(x), numBytes));
    HoldsSizes(l, y, Resized(Flat(x), numBytes));
    MakeResizeIs(l, t, numBytes, TraverseRoot(l, v, t, n - 1, n, true).tree);
  }

  lemma AchievedIs(l: Layout, v: Visitor, t: Tree, begin: nat, end: nat, r: Outcome)
    requires RootAchieved(l, v, t, begin, end, r)
    ensures IsTree(l, r.tree) && Leaves(r.tree) == RootWalk(l, v, Leaves(t), begin, end).After()
  {
  }

  lemma ResizeRootOk(l: Layout, t: Tree, numBytes: nat)
    requires IsTree(l, t)
    ensures var n := NewNumLeaves(l, numBytes); n > 0 && RootOk(l, ResizeVisitor(l, numBytes), t, n - 1, n, true)
  {
    hide LeftMax, EndLeaf;
  }

  lemma ResizeWalkIs(l: Layout, x: seq<LeafData>, numBytes: nat)
    ensures var n := NewNumLeaves(l, numBytes);
            && n > 0 && ResizeWalk(l, x, numBytes) == RootWalk(l, ResizeVisitor(l, numBytes), x, n - 1, n)
            && |ResizeWalk(l, x, numBytes).After()| == n
  {
    hide EndLeaf, Walk.LeafAt;
  }

  lemma MakeResizeIs(l: Layout, t: Tree, numBytes: nat, t': Tree)
    requires IsTree(l, t') && LeafSizes(l, Leaves(t')) && |Leaves(t')| == NewNumLeaves(l, numBytes)
    requires Flat(Leaves(t')) == Resized(Flat(Leaves(t)), numBytes)
    ensures ResizeIs(l, t, numBytes, t')
  {
  }

  /** The write turns the tree `t` into the outcome `r`, whose visits tell whether the blob grows. */
  ghost predicate WriteIs(l: Layout, t: Tree, offset: nat, source: seq<Byte>, r: Outcome) {
    var s, endByte, y := Flat(Leaves(t)), offset + |source|, Leaves(r.tree);
    && IsTree(l, r.tree) && LeafSizes(l, y) && Flat(y) == Written(s, offset, source)
    && (IsGrowing(l, endByte, r.trace) <==> |s| < endByte)
    && (|s| < endByte ==> |y| == EndLeaf(l, endByte) && |Flat(y)| == endByte)
    && (|s| >= endByte ==> |y| == |Leaves(t)| && |Flat(y)| == |s|)
  }

  /** A write through the walk in 32 bits is the write on the flat bytes. */
  lemma WriteWalks(l: Layout, t: Tree, offset: nat, source: seq<Byte>)
    requires WellFormed(l, t) && source != [] && BytesFit(l, Depth(t), offset + |source|)
    ensures var endByte, begin, end := offset + |source|, FirstLeaf(l, offset), EndLeaf(l, offset + |source|);
            var r := TraverseRoot32(l, WriteVisitor(l, offset, source), t, begin, end, true, false);
            && Sum64(offset, |source|) == endByte && FirstLeaf32(l, offset) == begin < end == EndLeaf32(l, endByte) < U32_SIZE
            && r.Ok? && WriteIs(l, t, offset, source, r.value)
  {
    hide *;
    Parts(l, t);
    var endByte := offset + |source|;
    FitsLeaves(l, Depth(t), endByte);
    SumExact(offset, |source|);
    IndicesExact(l, Depth(t), offset, endByte);
    WriteOk(l, t, offset, source);
    NotReading(l, WriteVisitor(l, offset, source), t, EndLeaf(l, endByte));
    Root32Is(l, WriteVisitor(l, offset, source), t, FirstLeaf(l, offset), EndLeaf(l, endByte), true, false);
  }

  /** Everything a write needs to know about its walk. */
  lemma WriteOk(l: Layout, t: Tree, offset: nat, source: seq<Byte>)
    requires IsTree(l, t) && LeafSizes(l, Leaves(t)) && source != []
    ensures WriteIs(l, t, offset, source, TraverseRoot(l, WriteVisitor(l, offset, source), t, FirstLeaf(l, offset), EndLeaf(l, offset + |source|), true))
    ensures RootOk(l, WriteVisitor(l, offset, source), t, FirstLeaf(l, offset), EndLeaf(l, offset + |source|), true)
  {
    var x, v := Leaves(t), WriteVisitor(l, offset, source);
    FlatHolds(l, x);
    WriteKeepsFull(l, offset, source);
    RangeNotEmpty(l, offset, offset + |source|);
    WriteNeverTrims(l, offset, source);
    hide FirstLeaf, EndLeaf, Leaves, LeftMax, TraverseRoot, Flat, WriteVisitor, Written, IsGrowing, KeepsFull;
    RootAchieves(l, v, t, FirstLeaf(l, offset), EndLeaf(l, offset + |source|), true);
    WriteHolds(l, x, Flat(x), offset, source);
    GrowingIs(l, x, Flat(x), offset, source);
    WriteSize(l, x, Flat(x), offset, source);
    HoldsSizes(l, WriteWalk(l, x, offset, source).After(), Written(Flat(x), offset, source));
    HoldsIsFlat(l, WriteWalk(l, x, offset, source).After(), Written(Flat(x), offset, source));
  }
}
