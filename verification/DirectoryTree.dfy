/** Model of the directory tree: CryDevice.cpp, CryNode.cpp and CryDir.cpp over the blobs of the
    file system. A directory blob lists its children, and every blob points to its parent. */
module DirectoryTree {
  import opened Bytes

  type BlobId = nat
  type Name = string
  type Path = seq<Name>

  const ROOT: BlobId := 0

  datatype Kind = DIR | FILE | SYMLINK
  datatype Entry = Entry(id: BlobId, kind: Kind)

  /** Only directories have entries. The parent pointer of the root is null. */
  datatype Blob = Blob(kind: Kind, parent: Option<BlobId>, entries: map<Name, Entry>)

  type Blobs = map<BlobId, Blob>

  datatype Error = EBUSY | EINVAL | ENOENT | EIO | EISDIR | ENOTEMPTY | ENOTDIR | EEXIST | AssertionFailed

  // ----- Looking up a path

  datatype Walked = At(id: BlobId) | Missing | Failed(error: Error)

  /** One path component. */
  function Step(s: Blobs, x: BlobId, n: Name): (w: Walked)
    requires x in s
    ensures w.At? ==> w.id in s
  {
    if s[x].kind != DIR then Failed(ENOTDIR)
    else if n !in s[x].entries then Missing
    else
      var c := s[x].entries[n].id;
      if c !in s then Failed(EIO)
      else if s[c].parent != Some(x) then Failed(AssertionFailed)   // "Blob has wrong parent pointer"
      else At(c)
  }

  function Walk(s: Blobs, x: BlobId, path: Path): (w: Walked)
    requires x in s
    ensures w.At? ==> w.id in s
    decreases |path|
  {
    if path == [] then At(x)
    else var next := Step(s, x, path[0]); if next.At? then Walk(s, next.id, path[1..]) else next
  }

  /** The lookup of a rename: it gives up when an ancestor of the target is the moved blob. */
  function WalkAvoiding(s: Blobs, x: BlobId, path: Path, avoid: BlobId): (w: Walked)
    requires x in s
    ensures w.At? ==> w.id in s
    decreases |path|
  {
    if path == [] then At(x)
    else if x == avoid then Failed(EINVAL)
    else var next := Step(s, x, path[0]); if next.At? then WalkAvoiding(s, next.id, path[1..], avoid) else next
  }

  // ----- Well-formed trees

  /** An entry of `d`: the blob exists, is of the kind that the entry says, and points back. */
  predicate EntryOk(s: Blobs, d: BlobId, e: Entry) {
    e.id in s && s[e.id].kind == e.kind && s[e.id].parent == Some(d)
  }

  ghost predicate DirOk(s: Blobs, d: BlobId)
    requires d in s
  {
    && (s[d].kind != DIR ==> s[d].entries == map[])
    && (forall n | n in s[d].entries :: EntryOk(s, d, s[d].entries[n]))
    && (forall n, m | n in s[d].entries && m in s[d].entries && n != m :: s[d].entries[n].id != s[d].entries[m].id)
  }

  ghost predicate Valid(s: Blobs) {
    && ROOT in s && s[ROOT].kind == DIR && s[ROOT].parent == None
    && forall d | d in s :: DirOk(s, d)
  }

  // ----- Trees in which names may have lost their blobs

  ghost predicate Lists(s: Blobs, d: BlobId, n: Name, b: BlobId) {
    d in s && n in s[d].entries && s[d].entries[n].id == b
  }

  /** An entry of `d`: in order, or without its blob, which was no directory. */
  predicate EntryFits(s: Blobs, d: BlobId, e: Entry) {
    if e.id in s then EntryOk(s, d, e) else e.kind != DIR
  }

  /** Well-formed, but for names that have lost their blobs: no blob is listed twice, and every
      listed blob that is there is of the listed kind and points back. */
  ghost predicate Consistent(s: Blobs) {
    && ROOT in s && s[ROOT].kind == DIR && s[ROOT].parent == None
    && (forall d | d in s && s[d].kind != DIR :: s[d].entries == map[])
    && (forall d, n | d in s && n in s[d].entries :: EntryFits(s, d, s[d].entries[n]))
    && (forall b, d, n, d', n' | Lists(s, d, n, b) && Lists(s, d', n', b) :: d == d' && n == n')
  }

  /** The blob is listed, but not there. */
  ghost predicate IsLost(s: Blobs, b: BlobId) {
    b !in s && exists d, n :: Lists(s, d, n, b)
  }

  lemma ValidIsConsistent(s: Blobs)
    requires Valid(s)
    ensures Consistent(s)
  {
    forall d, n | d in s && n in s[d].entries ensures EntryFits(s, d, s[d].entries[n]) {
      assert DirOk(s, d);
    }
    forall b, d, n, d', n' | Lists(s, d, n, b) && Lists(s, d', n', b) ensures d == d' && n == n' {
      assert DirOk(s, d) && DirOk(s, d');
      assert EntryOk(s, d, s[d].entries[n]) && EntryOk(s, d', s[d'].entries[n']);
    }
  }

  lemma RootIsThere(s: Blobs)
    requires Valid(s) || Consistent(s)
    ensures ROOT in s
  {
  }

  /** A tree is well-formed exactly if it is consistent and no name has lost its blob. */
  lemma ValidIff(s: Blobs)
    ensures Valid(s) <==> Consistent(s) && forall b :: !IsLost(s, b)
  {
    if Valid(s) {
      ValidIsConsistent(s);
      assert forall d | d in s :: DirOk(s, d);
    }
    if Consistent(s) && forall b :: !IsLost(s, b) {
      forall d | d in s ensures DirOk(s, d) {
        forall n | n in s[d].entries ensures EntryOk(s, d, s[d].entries[n]) {
          assert EntryFits(s, d, s[d].entries[n]) && Lists(s, d, n, s[d].entries[n].id);
          assert !IsLost(s, s[d].entries[n].id);
        }
        forall n, m | n in s[d].entries && m in s[d].entries && n != m ensures s[d].entries[n].id != s[d].entries[m].id {
          assert Lists(s, d, n, s[d].entries[n].id) && Lists(s, d, m, s[d].entries[m].id);
        }
      }
    }
  }

  lemma {:induction false} WalkAppend(s: Blobs, x: BlobId, p: Path, q: Path)
    requires x in s
    ensures var w := Walk(s, x, p); Walk(s, x, p + q) == if w.At? then Walk(s, w.id, q) else w
    decreases |p|
  {
    if p == [] {
      assert p + q == q;
    } else {
      assert (p + q)[0] == p[0] && (p + q)[1..] == p[1..] + q;
      var next := Step(s, x, p[0]);
      if next.At? {
        WalkAppend(s, next.id, p[1..], q);
      }
    }
  }

  lemma WalkSnoc(s: Blobs, x: BlobId, p: Path, n: Name)
    requires x in s
    ensures var w := Walk(s, x, p); Walk(s, x, p + [n]) == if w.At? then Step(s, w.id, n) else w
  {
    WalkAppend(s, x, p, [n]);
    var w := Walk(s, x, p);
    if w.At? {
      var next := Step(s, w.id, n);
      assert [n][1..] == [];
    }
  }

  function Front(p: Path): Path
    requires p != []
  {
    p[..|p| - 1]
  }

  function Last(p: Path): Name
    requires p != []
  {
    p[|p| - 1]
  }

  lemma FrontLast(p: Path)
    requires p != []
    ensures p == Front(p) + [Last(p)]
  {
  }

  /** Parent pointers make paths unique: no two paths from the root lead to the same blob. So the
      part of the graph below the root is a tree. */
  lemma {:induction false} UniquePath(s: Blobs, p: Path, q: Path)
    requires Consistent(s) && Walk(s, ROOT, p).At? && Walk(s, ROOT, p) == Walk(s, ROOT, q)
    ensures p == q
    decreases |p|
  {
    if p != [] {
      LastStep(s, p);
    }
    if q != [] {
      LastStep(s, q);
    }
    if p != [] && q != [] {
      var d := Walk(s, ROOT, Front(p)).id;
      var c := Walk(s, ROOT, p).id;
      assert s[c].parent == Some(d);
      assert Lists(s, d, Last(p), c) && Lists(s, Walk(s, ROOT, Front(q)).id, Last(q), c);
      UniquePath(s, Front(p), Front(q));
      FrontLast(p);
      FrontLast(q);
    }
  }

  lemma LastStep(s: Blobs, p: Path)
    requires ROOT in s && p != [] && Walk(s, ROOT, p).At?
    ensures var w, c := Walk(s, ROOT, Front(p)), Walk(s, ROOT, p).id;
            && w.At? && Step(s, w.id, Last(p)) == At(c)
            && Last(p) in s[w.id].entries && s[w.id].entries[Last(p)].id == c && s[c].parent == Some(w.id)
  {
    FrontLast(p);
    WalkSnoc(s, ROOT, Front(p), Last(p));
  }

  /** In particular there is no cycle below the root. */
  lemma NoCycle(s: Blobs, p: Path, c: Path)
    requires Consistent(s) && Walk(s, ROOT, p).At? && c != []
    ensures Walk(s, Walk(s, ROOT, p).id, c) != Walk(s, ROOT, p)
  {
    WalkAppend(s, ROOT, p, c);
    if Walk(s, ROOT, p + c) == Walk(s, ROOT, p) {
      UniquePath(s, p, p + c);
    }
  }

  /** In a well-formed tree no lookup fails for want of a blob or for a wrong parent pointer. */
  lemma {:induction false} LookupsAreSound(s: Blobs, x: BlobId, path: Path)
    requires Valid(s) && x in s
    ensures Walk(s, x, path).Failed? ==> Walk(s, x, path).error == ENOTDIR
    decreases |path|
  {
    if path != [] {
      assert DirOk(s, x);
      var next := Step(s, x, path[0]);
      if next.At? {
        LookupsAreSound(s, next.id, path[1..]);
      }
    }
  }

  /** The name has lost its blob. */
  predicate LostName(s: Blobs, d: BlobId, n: Name) {
    d in s && n in s[d].entries && s[d].entries[n].id !in s
  }

  predicate LostAt(s: Blobs, x: BlobId, path: Path, i: nat)
    requires x in s && i < |path|
  {
    var w := Walk(s, x, path[..i]);
    w.At? && LostName(s, w.id, path[i])
  }

  ghost predicate MeetsLostName(s: Blobs, x: BlobId, path: Path)
    requires x in s
  {
    exists i :: 0 <= i < |path| && LostAt(s, x, path, i)
  }

  /** In a consistent tree, a lookup fails at a component that is not a directory or at a name that
      has lost its blob, with EIO exactly in the second case, and never for a wrong parent pointer. */
  lemma {:induction false} LookupFailsIff(s: Blobs, x: BlobId, path: Path)
    requires Consistent(s) && x in s
    ensures var w := Walk(s, x, path);
            && (w.Failed? ==> w.error == ENOTDIR || w.error == EIO)
            && (w == Failed(EIO) <==> MeetsLostName(s, x, path))
    decreases |path|
  {
    if path != [] {
      var p, n := Front(path), Last(path);
      LookupFailsIff(s, x, p);
      FrontLast(path);
      WalkSnoc(s, x, p, n);
      MeetsLater(s, x, path);
      var w := Walk(s, x, p);
      if w.At? && n in s[w.id].entries {
        assert EntryFits(s, w.id, s[w.id].entries[n]);
      }
    }
  }

  lemma MeetsLater(s: Blobs, x: BlobId, path: Path)
    requires x in s && path != []
    ensures var w := Walk(s, x, Front(path));
            MeetsLostName(s, x, path) <==> MeetsLostName(s, x, Front(path)) || (w.At? && LostName(s, w.id, Last(path)))
  {
    hide LostAt, Walk, LostName;
    var p := Front(path);
    LostAtLast(s, x, path);
    if i :| 0 <= i < |path| && LostAt(s, x, path, i) {
      if i < |p| {
        LostAtFront(s, x, path, i);
      }
    }
    if i :| 0 <= i < |p| && LostAt(s, x, p, i) {
      LostAtFront(s, x, path, i);
    }
  }

  lemma LostAtFront(s: Blobs, x: BlobId, path: Path, i: nat)
    requires x in s && path != [] && i < |Front(path)|
    ensures LostAt(s, x, path, i) <==> LostAt(s, x, Front(path), i)
  {
    assert path[..i] == Front(path)[..i];
  }

  lemma LostAtLast(s: Blobs, x: BlobId, path: Path)
    requires x in s && path != []
    ensures LostAt(s, x, path, |path| - 1) <==> Walk(s, x, Front(path)).At? && LostName(s, Walk(s, x, Front(path)).id, Last(path))
  {
  }

  ghost predicate Passes(s: Blobs, x: BlobId, path: Path, b: BlobId)
    requires x in s
  {
    exists i :: 0 <= i < |path| && Walk(s, x, path[..i]) == At(b)
  }

  /** The avoiding lookup is the plain one, unless it comes through the blob it avoids. */
  lemma {:induction false} AvoidingIs(s: Blobs, x: BlobId, path: Path, b: BlobId)
    requires x in s
    ensures WalkAvoiding(s, x, path, b) == if Passes(s, x, path, b) then Failed(EINVAL) else Walk(s, x, path)
    decreases |path|
  {
    if path != [] {
      var next := Step(s, x, path[0]);
      if x == b {
        assert path[..0] == [] && Walk(s, x, path[..0]) == At(b);
      } else {
        if next.At? {
          AvoidingIs(s, next.id, path[1..], b);
        }
        PassesNext(s, x, path, b);
      }
    }
  }

  lemma PassesNext(s: Blobs, x: BlobId, path: Path, b: BlobId)
    requires x in s && path != [] && x != b
    ensures Passes(s, x, path, b) <==> Step(s, x, path[0]).At? && Passes(s, Step(s, x, path[0]).id, path[1..], b)
  {
    var next := Step(s, x, path[0]);
    forall i | 1 <= i <= |path| ensures Walk(s, x, path[..i]) == if next.At? then Walk(s, next.id, path[1..][..i - 1]) else next {
      assert path[..i][0] == path[0] && path[..i][1..] == path[1..][..i - 1];
    }
    if Passes(s, x, path, b) {
      var i :| 0 <= i < |path| && Walk(s, x, path[..i]) == At(b);
      assert path[..0] == [];
      assert Walk(s, next.id, path[1..][..i - 1]) == At(b);
    }
    if next.At? && Passes(s, next.id, path[1..], b) {
      var i :| 0 <= i < |path[1..]| && Walk(s, next.id, path[1..][..i]) == At(b);
      assert Walk(s, x, path[..i + 1]) == At(b);
    }
  }

  // ----- Comparing two states

  /** Lookups agree as long as every step on the way does. */
  lemma {:induction false} SameWalk(s: Blobs, s': Blobs, x: BlobId, path: Path)
    requires x in s && x in s'
    requires forall i | 0 <= i < |path| :: SameStepAt(s, s', x, path, i)
    ensures Walk(s', x, path) == Walk(s, x, path)
    decreases |path|
  {
    if path != [] {
      var p, n := Front(path), Last(path);
      forall i | 0 <= i < |p| ensures SameStepAt(s, s', x, p, i) {
        assert p[..i] == path[..i] && SameStepAt(s, s', x, path, i);
      }
      SameWalk(s, s', x, p);
      FrontLast(path);
      WalkSnoc(s, x, p, n);
      WalkSnoc(s', x, p, n);
      assert SameStepAt(s, s', x, path, |p|);
    }
  }

  predicate SameStep(s: Blobs, s': Blobs, x: BlobId, n: Name)
    requires x in s
  {
    x in s' && Step(s', x, n) == Step(s, x, n)
  }

  predicate SameStepAt(s: Blobs, s': Blobs, x: BlobId, path: Path, i: nat)
    requires x in s && i < |path|
  {
    var w := Walk(s, x, path[..i]);
    w.At? ==> SameStep(s, s', w.id, path[i])
  }

  predicate IsPrefix(p: Path, q: Path) {
    |p| <= |q| && q[..|p|] == p
  }

  // ----- Operations

  /** What has become of the blobs, and the error that was thrown, if any. */
  datatype Outcome = Outcome(blobs: Blobs, error: Option<Error>)

  /** CryDevice::Load */
  datatype Loaded = RootNode | Node(parent: BlobId, entry: Entry) | NoNode | LoadError(error: Error)

  function Load(s: Blobs, path: Path): (r: Loaded)
    requires ROOT in s
    ensures r.Node? ==> path != [] && Walk(s, ROOT, Front(path)) == At(r.parent) && r.parent in s && s[r.parent].kind == DIR
    ensures r.Node? ==> Last(path) in s[r.parent].entries && s[r.parent].entries[Last(path)] == r.entry
  {
    if path == [] then RootNode
    else
      var w := Walk(s, ROOT, Front(path));
      if w.Failed? then LoadError(w.error)
      else if w.Missing? then NoNode
      else if s[w.id].kind != DIR then LoadError(ENOTDIR)
      else if Last(path) !in s[w.id].entries then NoNode
      else Node(w.id, s[w.id].entries[Last(path)])
  }

  function WithEntries(s: Blobs, d: BlobId, entries: map<Name, Entry>): Blobs
    requires d in s
  {
    s[d := s[d].(entries := entries)]
  }

  /** DirEntryList::remove(blockId) */
  function WithoutId(entries: map<Name, Entry>, id: BlobId): map<Name, Entry> {
    map n | n in entries && entries[n].id != id :: entries[n]
  }

  function Unlinked(s: Blobs, p: BlobId, b: BlobId): Blobs
    requires p in s
  {
    WithEntries(s, p, WithoutId(s[p].entries, b)) - {b}
  }

  /** CryNode::LoadBlob */
  function LoadBlobError(s: Blobs, p: Option<BlobId>, b: BlobId): Option<Error> {
    if b !in s then Some(EIO)
    else if p.Some? && s[b].parent != p then Some(AssertionFailed)
    else None
  }

  /** CryDir::remove, CryFile::remove and CrySymlink::remove on the node at `path`. */
  function Remove(s: Blobs, path: Path): Outcome
    requires ROOT in s
  {
    match Load(s, path)
    case LoadError(e) => Outcome(s, Some(e))
    case NoNode => Outcome(s, Some(ENOENT))
    case RootNode => Outcome(s, Some(if s[ROOT].entries != map[] then ENOTEMPTY else EIO))
    case Node(p, e) =>
      var loadError := LoadBlobError(s, Some(p), e.id);
      if e.kind == DIR && loadError.Some? then Outcome(s, loadError)
      else if e.kind == DIR && s[e.id].kind != DIR then Outcome(s, Some(AssertionFailed))
      else if e.kind == DIR && s[e.id].entries != map[] then Outcome(s, Some(ENOTEMPTY))
      else Outcome(Unlinked(s, p, e.id), if e.id in s then None else Some(EIO))
  }

  /** CryDir::createAndOpenFile, createDir and createSymlink in the directory at `dir`; `b` is the
      id of the new blob. */
  function Create(s: Blobs, dir: Path, n: Name, kind: Kind, b: BlobId): Outcome
    requires ROOT in s && b !in s
  {
    match Load(s, dir)
    case LoadError(e) => Outcome(s, Some(e))
    case NoNode => Outcome(s, Some(EIO))
    case RootNode => CreateIn(s, ROOT, n, kind, b)
    case Node(p, e) =>
      var loadError := LoadBlobError(s, Some(p), e.id);
      if e.kind != DIR then Outcome(s, Some(ENOTDIR))
      else if loadError.Some? then Outcome(s, loadError)
      else if s[e.id].kind != DIR then Outcome(s, Some(AssertionFailed))
      else CreateIn(s, e.id, n, kind, b)
  }

  /** The blob is created first. If the name is taken it stays behind. */
  function CreateIn(s: Blobs, d: BlobId, n: Name, kind: Kind, b: BlobId): Outcome
    requires d in s && b !in s
  {
    var s' := s[b := Blob(kind, Some(d), map[])];
    if n in s[d].entries then Outcome(s', Some(EEXIST))
    else Outcome(WithEntries(s', d, s[d].entries[n := Entry(b, kind)]), None)
  }

  /** The blob listed as `n`, unless it is `b` itself. */
  function Overwritten(s: Blobs, t: BlobId, n: Name, b: BlobId): Option<BlobId>
    requires t in s
  {
    if n in s[t].entries && s[t].entries[n].id != b then Some(s[t].entries[n].id) else None
  }

  /** `e` is listed in `t` instead of `p`, and what was listed there is gone. */
  function Relisted(s: Blobs, p: BlobId, fn: Name, t: BlobId, tn: Name, e: Entry): Blobs
    requires p in s && t in s
  {
    var x := Overwritten(s, t, tn, e.id);
    var s1 := WithEntries(s, p, s[p].entries - {fn});
    var s2 := WithEntries(s1, t, s1[t].entries[tn := e]);
    if x.Some? then s2 - {x.value} else s2
  }

  function WithParent(s: Blobs, b: BlobId, t: BlobId): Blobs
    requires b in s
  {
    s[b := s[b].(parent := Some(t))]
  }

  /** DirEntryList::_checkAllowedOverwrite */
  function OverwriteError(there: Kind, moved: Kind): Option<Error> {
    if there == moved then None
    else if there == DIR then Some(EISDIR)
    else if moved == DIR then Some(ENOTDIR)
    else None
  }

  /** CryNode::rename on the node at `from`. */
  function Rename(s: Blobs, from: Path, to: Path): Outcome
    requires ROOT in s
  {
    match Load(s, from)
    case LoadError(e) => Outcome(s, Some(e))
    case NoNode => Outcome(s, Some(ENOENT))
    case RootNode => Outcome(s, Some(EBUSY))
    case Node(p, e) =>
      if to == [] then Outcome(s, Some(EBUSY))
      else
        var w := WalkAvoiding(s, ROOT, Front(to), e.id);
        if w.Failed? then Outcome(s, Some(w.error))
        else if w.Missing? then Outcome(s, Some(ENOENT))
        else if s[w.id].kind != DIR then Outcome(s, Some(ENOTDIR))
        else if w.id == e.id then Outcome(s, Some(EINVAL))
        else if w.id == p then RenameWithin(s, p, Last(from), Last(to), e)
        else RenameAcross(s, p, Last(from), w.id, Last(to), e)
  }

  /** DirEntryList::rename: kinds are compared before anything is overwritten. */
  function RenameWithin(s: Blobs, p: BlobId, fn: Name, tn: Name, e: Entry): Outcome
    requires p in s
  {
    var x := Overwritten(s, p, tn, e.id);
    if x.Some? && OverwriteError(s[p].entries[tn].kind, e.kind).Some? then Outcome(s, OverwriteError(s[p].entries[tn].kind, e.kind))
    else if x.Some? && x.value !in s then Outcome(s, Some(EIO))
    else Outcome(Relisted(s, p, fn, p, tn, e), None)
  }

  /** The target of another directory is removed before the kinds are compared. */
  function RenameAcross(s: Blobs, p: BlobId, fn: Name, t: BlobId, tn: Name, e: Entry): Outcome
    requires p in s && t in s
  {
    var x := Overwritten(s, t, tn, e.id);
    if x.None? then AttachBlob(s, p, fn, t, tn, e)
    else
      var kind := s[t].entries[tn].kind;
      if kind == DIR && e.kind != DIR then Outcome(s, Some(EISDIR))
      else if x.value !in s then Outcome(s, Some(EIO))
      else if kind == DIR && s[x.value].kind != DIR then Outcome(s, Some(EIO))
      else if kind == DIR && s[x.value].entries != map[] then Outcome(s, Some(ENOTEMPTY))
      else if OverwriteError(kind, e.kind).Some? then Outcome(s - {x.value}, OverwriteError(kind, e.kind))
      else AttachBlob(s, p, fn, t, tn, e)
  }

  function AttachBlob(s: Blobs, p: BlobId, fn: Name, t: BlobId, tn: Name, e: Entry): Outcome
    requires p in s && t in s
  {
    var s' := Relisted(s, p, fn, t, tn, e);
    var loadError := LoadBlobError(s', Some(p), e.id);
    if loadError.Some? then Outcome(s', loadError) else Outcome(WithParent(s', e.id, t), None)
  }
}
