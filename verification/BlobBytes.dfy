/** A blob as one flat byte sequence, cut into leaves. */
module BlobBytes {
  import opened Bytes
  import opened BlobMath
  import opened BlobTree
  import opened LeafTraverser

  function Flat(x: seq<LeafData>): seq<Byte> {
    if x == [] then [] else x[0] + Flat(x[1..])
  }

  lemma {:induction false} FlatLength(x: seq<LeafData>)
    ensures |Flat(x)| == TotalBytes(x)
  {
    if x != [] {
      FlatLength(x[1..]);
    }
  }

  /** The byte at position `p`, with zeroes after the end. */
  function ByteAt(s: seq<Byte>, p: nat): Byte {
    if p < |s| then s[p] else 0
  }

  /** `leaf` agrees with `s` from position `first` on. */
  ghost predicate Agrees(leaf: LeafData, s: seq<Byte>, first: nat) {
    forall r: nat | r < |leaf| :: leaf[r] == ByteAt(s, first + r)
  }

  /** The leaves hold `s`: all but the last are full, and each agrees with its part of `s`. */
  ghost predicate Holds(l: Layout, x: seq<LeafData>, s: seq<Byte>) {
    && LeafSizes(l, x) && |s| == FullBytes(l, |x| - 1) + |x[|x| - 1]|
    && forall i | 0 <= i < |x| :: Agrees(x[i], s, FullBytes(l, i))
  }

  lemma {:induction false} FlatHolds(l: Layout, x: seq<LeafData>)
    requires LeafSizes(l, x)
    ensures Holds(l, x, Flat(x))
  {
    FlatLength(x);
    TotalOfFull(l, x);
    hide FullBytes, Flat, TotalBytes, Agrees;
    forall i | 0 <= i < |x| ensures Agrees(x[i], Flat(x), FullBytes(l, i)) {
      FlatAgrees(l, x, i);
    }
  }

  lemma {:induction false} FlatAgrees(l: Layout, x: seq<LeafData>, i: nat)
    requires LeafSizes(l, x) && i < |x|
    ensures Agrees(x[i], Flat(x), FullBytes(l, i))
    decreases |x|
  {
    var rest := x[1..];
    assert Flat(x) == x[0] + Flat(rest);
    hide FullBytes, Flat, Agrees;
    if i == 0 {
      FullBytesAdd(l, 0, 0);
      AgreesPrefix(x[0], Flat(rest));
    } else {
      SuffixLeafSizes(l, x, 1);
      assert rest[i - 1] == x[i];
      FlatAgrees(l, rest, i - 1);
      FullBytesAdd(l, i - 1, 1);
      AgreesShift(x[i], x[0], Flat(rest), FullBytes(l, i - 1));
    }
  }

  lemma AgreesPrefix(leaf: LeafData, b: seq<Byte>)
    ensures Agrees(leaf, leaf + b, 0)
  {
  }

  lemma AgreesShift(leaf: LeafData, a: seq<Byte>, b: seq<Byte>, first: nat)
    requires Agrees(leaf, b, first)
    ensures Agrees(leaf, a + b, first + |a|)
  {
  }

  /** The leaves determine the bytes. */
  lemma HoldsIsFlat(l: Layout, x: seq<LeafData>, s: seq<Byte>)
    requires Holds(l, x, s)
    ensures Flat(x) == s
  {
    hide FullBytes, Holds, Agrees, LeafSizes, Flat;
    HoldsSizes(l, x, s);
    FlatHolds(l, x);
    HoldsSizes(l, x, Flat(x));
    forall p | 0 <= p < |s| ensures Flat(x)[p] == s[p] {
      SameByte(l, x, s, Flat(x), p);
    }
  }

  lemma HoldsSizes(l: Layout, x: seq<LeafData>, s: seq<Byte>)
    requires Holds(l, x, s)
    ensures x != [] && LeafSizes(l, x) && |s| == FullBytes(l, |x| - 1) + |x[|x| - 1]|
  {
  }

  lemma SameByte(l: Layout, x: seq<LeafData>, s: seq<Byte>, s': seq<Byte>, p: nat)
    requires Holds(l, x, s) && Holds(l, x, s') && p < |s|
    ensures |s'| == |s| && s[p] == s'[p]
  {
    var i := LeafOf(l, x, p);
    var first := FullBytes(l, i);
    hide FullBytes, LeafSizes;
    assert Agrees(x[i], s, first) && Agrees(x[i], s', first);
    assert x[i][p - first] == ByteAt(s, first + (p - first));
    assert x[i][p - first] == ByteAt(s', first + (p - first));
  }

  /** The leaf that holds position `p`. */
  lemma LeafOf(l: Layout, x: seq<LeafData>, p: nat) returns (i: nat)
    requires LeafSizes(l, x) && p < FullBytes(l, |x| - 1) + |x[|x| - 1]|
    ensures i < |x| && FullBytes(l, i) <= p < FullBytes(l, i) + |x[i]|
  {
    if p >= FullBytes(l, |x| - 1) {
      i := |x| - 1;
    } else {
      i := p / l.maxBytes;
      DivBounds(p, l.maxBytes);
      if i >= |x| - 1 {
        MulMono(|x| - 1, i, l.maxBytes);
        assert false;
      }
    }
  }

  // ----- The operations on flat bytes

  /** The first `n` bytes, with zeroes if there are fewer. */
  function Resized(s: seq<Byte>, n: nat): (r: seq<Byte>)
    ensures |r| == n
    ensures forall p | 0 <= p < n :: r[p] == ByteAt(s, p)
  {
    if n <= |s| then s[..n] else s + Zeros(n - |s|)
  }

  /** `source` put at `offset`, with zeroes in a gap before it; nothing else changes. */
  function Written(s: seq<Byte>, offset: nat, source: seq<Byte>): (r: seq<Byte>)
    ensures source == [] ==> r == s
    ensures source != [] ==> |r| == Max(|s|, offset + |source|)
    ensures source != [] ==> forall p | 0 <= p < |r| ::
      r[p] == if offset <= p < offset + |source| then source[p - offset] else ByteAt(s, p)
  {
    if source == [] then s
    else
      var padded := if |s| < offset + |source| then Resized(s, offset + |source|) else s;
      padded[..offset] + source + padded[offset + |source|..]
  }

  // ----- What the walk presents

  /** Every position of a walk holds the old bytes, zero-extended; an old leaf that is not full
      ends where the blob ends. */
  lemma SlotHolds(w: Walk, s: seq<Byte>, i: nat)
    requires Holds(w.l, w.x, s) && w.SlotAt(i).Old? && !w.grow
    ensures var leaf := w.SlotAt(i).leaf;
            && Agrees(leaf, s, FullBytes(w.l, i)) && |leaf| <= w.l.maxBytes
            && (|leaf| < w.l.maxBytes ==> i == |w.x| - 1 && |s| == FullBytes(w.l, i) + |leaf|)
            && (w.s.end > |w.x| ==> |leaf| == w.l.maxBytes)
            && (w.s.end <= |w.x| ==> leaf == w.x[i])
  {
  }

  /** Growing a leaf that ends where the blob ends keeps it in agreement; so does shrinking. */
  lemma AgreesResize(leaf: LeafData, s: seq<Byte>, first: nat, size: nat)
    requires Agrees(leaf, s, first) && (size <= |leaf| || |s| <= first + |leaf|)
    ensures Agrees(ResizeLeaf(leaf, size), s, first)
  {
  }

  /** Positions past the last leaf are past the end of the blob. */
  lemma PastTheEnd(l: Layout, x: seq<LeafData>, s: seq<Byte>, i: nat)
    requires Holds(l, x, s) && i >= |x|
    ensures |s| <= FullBytes(l, i)
  {
  }
}
