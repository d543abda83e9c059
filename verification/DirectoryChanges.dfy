/** What removing and creating nodes does to every path of the directory tree. */
module DirectoryChanges {
  import opened Bytes
  import opened DirectoryTree
  import opened DirectoryLinks
  import opened DirectoryMoves

  // ----- Remove

  lemma UnlinkedBlob(s: Blobs, p: BlobId, b: BlobId, z: BlobId)
    requires p in s && p != b
    ensures var s' := Unlinked(s, p, b);
            && (z in s' <==> z in s && z != b)
            && (z in s' ==> s'[z] == s[z].(entries := if z == p then WithoutId(s[z].entries, b) else s[z].entries))
  {
  }

  lemma UnlinkedStep(s: Blobs, p: BlobId, n: Name, z: BlobId, k: Name)
    requires Consistent(s) && p in s && n in s[p].entries && s[p].entries[n].id != p
    requires z in s && z != s[p].entries[n].id && (z, k) != (p, n)
    ensures SameStep(s, Unlinked(s, p, s[p].entries[n].id), z, k)
  {
    var b := s[p].entries[n].id;
    UnlinkedBlob(s, p, b, z);
    if k in s[z].entries {
      UnlinkedBlob(s, p, b, s[z].entries[k].id);
      assert Lists(s, z, k, s[z].entries[k].id) && Lists(s, p, n, b);
    }
    hide Unlinked;
  }

  /** Nothing is left at and below `path`; every other path leads where it did. */
  ghost predicate Gone(s: Blobs, s': Blobs, path: Path) {
    && ROOT in s && ROOT in s'
    && forall q: Path :: Walk(s', ROOT, q) == if IsPrefix(path, q) then Missing else Walk(s, ROOT, q)
  }

  /** `path` leads to the entry `Last(path)` of `p`. */
  ghost predicate Listed(s: Blobs, path: Path, p: BlobId) {
    Consistent(s) && path != [] && Walk(s, ROOT, Front(path)) == At(p) && Last(path) in s[p].entries
  }

  lemma UnlinkedStepAt(s: Blobs, path: Path, p: BlobId, a: Path, n: Name)
    requires Listed(s, path, p) && Walk(s, ROOT, a).At? && a != path && a + [n] != path
    ensures SameStep(s, Unlinked(s, p, s[p].entries[Last(path)].id), Walk(s, ROOT, a).id, n)
  {
    var z, b := Walk(s, ROOT, a).id, s[p].entries[Last(path)].id;
    EntryFound(s, path, p);
    FrontLast(path);
    if z == p {
      UniquePath(s, a, Front(path));
    }
    if z == b {
      UniquePath(s, a, path);
    }
    hide Walk, Consistent, Unlinked;
    UnlinkedStep(s, p, Last(path), z, n);
  }

  lemma UnlinkedElsewhere(s: Blobs, path: Path, p: BlobId, q: Path)
    requires Listed(s, path, p) && !IsPrefix(path, q)
    ensures var s' := Unlinked(s, p, s[p].entries[Last(path)].id); ROOT in s' && Walk(s', ROOT, q) == Walk(s, ROOT, q)
  {
    var s' := Unlinked(s, p, s[p].entries[Last(path)].id);
    UnlinkedRoot(s, path, p);
    hide Consistent, Unlinked, Listed, Walk, Step, IsPrefix;
    forall i | 0 <= i < |q| ensures SameStepAt(s, s', ROOT, q, i) {
      if Walk(s, ROOT, q[..i]).At? {
        NotOnPath(path, q, i);
        UnlinkedStepAt(s, path, p, q[..i], q[i]);
      }
    }
    SameWalk(s, s', ROOT, q);
  }

  lemma UnlinkedRoot(s: Blobs, path: Path, p: BlobId)
    requires Listed(s, path, p)
    ensures var b := s[p].entries[Last(path)].id;
            var s' := Unlinked(s, p, b);
            b != ROOT && b != p && ROOT in s' && p in s' && Step(s', p, Last(path)) == Missing
  {
    var b := s[p].entries[Last(path)].id;
    EntryFound(s, path, p);
    UnlinkedBlob(s, p, b, ROOT);
    UnlinkedBlob(s, p, b, p);
    hide Unlinked;
  }

  lemma UnlinkedGone(s: Blobs, path: Path, p: BlobId, q: Path)
    requires Listed(s, path, p) && IsPrefix(path, q)
    ensures var s' := Unlinked(s, p, s[p].entries[Last(path)].id); ROOT in s' && Walk(s', ROOT, q) == Missing
  {
    var s', f, r := Unlinked(s, p, s[p].entries[Last(path)].id), Front(path), q[|path|..];
    assert q == path + r && !IsPrefix(path, f) && Walk(s, ROOT, f) == At(p);
    FrontLast(path);
    hide Consistent, Unlinked, Walk, Step, IsPrefix, Front, Last, Listed;
    UnlinkedRoot(s, path, p);
    UnlinkedElsewhere(s, path, p, f);
    WalkSnoc(s', ROOT, f, Last(path));
    WalkAppend(s', ROOT, path, r);
  }

  /** Every blob that is left is as before, but for the one entry. */
  ghost predicate BlobsStay(s: Blobs, s': Blobs, path: Path)
    requires ROOT in s
  {
    && path != []
    && var w := Walk(s, ROOT, Front(path));
    w.At? && forall z | z in s' :: z in s && s'[z] == if z == w.id then s[z].(entries := s[z].entries - {Last(path)}) else s[z]
  }

  lemma UnlinkedBlobs(s: Blobs, path: Path, p: BlobId)
    requires Listed(s, path, p)
    ensures ROOT in s && BlobsStay(s, Unlinked(s, p, s[p].entries[Last(path)].id), path)
  {
    var b := s[p].entries[Last(path)].id;
    EntryFound(s, path, p);
    UnlinkedIs(s, p, Last(path));
    hide Consistent, Walk, Unlinked;
    forall z | z in Unlinked(s, p, b) ensures z in s && Unlinked(s, p, b)[z] == if z == p then s[z].(entries := s[z].entries - {Last(path)}) else s[z] {
      UnlinkedBlob(s, p, b, z);
    }
  }

  /** The error of a removal, from the path alone. */
  function RemoveError(s: Blobs, path: Path): Option<Error>
    requires ROOT in s
  {
    var w := Walk(s, ROOT, path);
    if path == [] then Some(if s[ROOT].entries != map[] then ENOTEMPTY else EIO)
    else if w.Failed? then Some(w.error)
    else if w.Missing? then Some(ENOENT)
    else if s[w.id].entries != map[] then Some(ENOTEMPTY)
    else None
  }

  /** Exactly the existing nodes other than the root and non-empty directories are removed. A name
      that has lost its blob is removed as well, with an error. */
  ghost predicate Removes(s: Blobs, path: Path, o: Outcome)
    requires ROOT in s
  {
    var w := Walk(s, ROOT, path);
    && Consistent(o.blobs) && NoNewLoss(s, o.blobs)
    && (o.error.None? <==> path != [] && w.At? && s[w.id].entries == map[])
    && (o.error.None? || LeadsToLost(s, path) ==> Gone(s, o.blobs, path) && BlobsStay(s, o.blobs, path))
    && (o.error.None? ==> o.blobs.Keys == s.Keys - {w.id})
    && (LeadsToLost(s, path) ==> o.error == Some(EIO) && o.blobs.Keys == s.Keys)
    && (o.error.Some? && !LeadsToLost(s, path) ==> o.blobs == s)
    && o.error == RemoveError(s, path)
  }

  lemma RemoveWorks(s: Blobs, path: Path)
    requires Consistent(s)
    ensures ROOT in s && Removes(s, path, Remove(s, path))
  {
    RootIsThere(s);
    LoadFinds(s, path);
    LookupFailsIff(s, ROOT, path);
    LostIsFound(s, path);
    var r := Load(s, path);
    assert r.Node? ==> Listed(s, path, r.parent) && (r.entry.id in s && r.entry.kind != DIR ==> s[r.entry.id].entries == map[]);
    hide Consistent, Walk, Unlinked, Gone, BlobsStay, Load, Listed, Remove, LeadsToLost, MeetsLostName;
    RemoveKeeps(s, path);
    if r.Node? {
      UnlinkedWorks(s, path, r.parent);
      UnlinkedBlobs(s, path, r.parent);
      RemoveCases(s, path, r.parent, r.entry);
    } else {
      RemoveRefused(s, path);
    }
  }

  lemma RemoveRefused(s: Blobs, path: Path)
    requires ROOT in s && !Load(s, path).Node?
    ensures var o := Remove(s, path);
            && o.blobs == s && (path == [] ==> o.error == Some(if s[ROOT].entries != map[] then ENOTEMPTY else EIO))
            && (path != [] ==> o.error == Some(if Load(s, path).NoNode? then ENOENT else Load(s, path).error))
  {
    hide Walk;
  }

  lemma RemoveCases(s: Blobs, path: Path, p: BlobId, e: Entry)
    requires ROOT in s && Load(s, path) == Node(p, e) && EntryFits(s, p, e) && (e.id in s && e.kind != DIR ==> s[e.id].entries == map[])
    ensures Remove(s, path) ==
            if e.id !in s then Outcome(Unlinked(s, p, e.id), Some(EIO))
            else if s[e.id].entries != map[] then Outcome(s, Some(ENOTEMPTY))
            else Outcome(Unlinked(s, p, e.id), None)
  {
    hide Load, Unlinked;
  }

  lemma UnlinkedWorks(s: Blobs, path: Path, p: BlobId)
    requires Listed(s, path, p)
    ensures var b := s[p].entries[Last(path)].id;
            var s' := Unlinked(s, p, b);
            Gone(s, s', path) && s'.Keys == s.Keys - {b}
  {
    var b := s[p].entries[Last(path)].id;
    var s' := Unlinked(s, p, b);
    assert ROOT in s && path != [];
    UnlinkedRoot(s, path, p);
    hide Walk, Consistent, Unlinked, Listed, IsPrefix;
    forall q: Path ensures Walk(s', ROOT, q) == if IsPrefix(path, q) then Missing else Walk(s, ROOT, q) {
      if IsPrefix(path, q) {
        UnlinkedGone(s, path, p, q);
      } else {
        UnlinkedElsewhere(s, path, p, q);
      }
    }
    forall z ensures z in s' <==> z in s && z != b {
      UnlinkedBlob(s, p, b, z);
    }
  }

  // ----- Create

  function Linked(s: Blobs, d: BlobId, n: Name, kind: Kind, b: BlobId): Blobs
    requires d in s && b !in s
  {
    WithEntries(s[b := Blob(kind, Some(d), map[])], d, s[d].entries[n := Entry(b, kind)])
  }

  /** Only the path `dir/n` leads to something new, which is empty. */
  ghost predicate Added(s: Blobs, s': Blobs, path: Path, kind: Kind, b: BlobId) {
    && ROOT in s && ROOT in s'
    && forall q: Path :: Walk(s', ROOT, q) ==
         if q == path then At(b)
         else if IsPrefix(path, q) then (if kind == DIR then Missing else Failed(ENOTDIR))
         else Walk(s, ROOT, q)
  }

  lemma LinkedStep(s: Blobs, d: BlobId, n: Name, kind: Kind, b: BlobId, z: BlobId, k: Name)
    requires Consistent(s) && d in s && b !in s && Unlisted(s, b) && z in s && (z, k) != (d, n)
    ensures SameStep(s, Linked(s, d, n, kind, b), z, k)
  {
    if k in s[z].entries {
      assert Lists(s, z, k, s[z].entries[k].id);
    }
  }

  lemma LinkedElsewhere(s: Blobs, dir: Path, d: BlobId, n: Name, kind: Kind, b: BlobId, q: Path)
    requires Consistent(s) && Walk(s, ROOT, dir) == At(d) && b !in s && Unlisted(s, b) && !IsPrefix(dir + [n], q)
    ensures Walk(Linked(s, d, n, kind, b), ROOT, q) == Walk(s, ROOT, q)
  {
    var s' := Linked(s, d, n, kind, b);
    forall i | 0 <= i < |q| ensures SameStepAt(s, s', ROOT, q, i) {
      var w := Walk(s, ROOT, q[..i]);
      if w.At? {
        NotOnPath(dir + [n], q, i);
        if w.id == d {
          UniquePath(s, q[..i], dir);
        }
        LinkedStep(s, d, n, kind, b, w.id, q[i]);
      }
    }
    hide Consistent, Linked;
    SameWalk(s, s', ROOT, q);
  }

  lemma LinkedThere(s: Blobs, dir: Path, d: BlobId, n: Name, kind: Kind, b: BlobId, q: Path)
    requires Consistent(s) && Walk(s, ROOT, dir) == At(d) && s[d].kind == DIR && b !in s && Unlisted(s, b) && IsPrefix(dir + [n], q)
    ensures Walk(Linked(s, d, n, kind, b), ROOT, q) == if q == dir + [n] then At(b) else if kind == DIR then Missing else Failed(ENOTDIR)
  {
    var s', path := Linked(s, d, n, kind, b), dir + [n];
    var r := q[|path|..];
    assert q == path + r && !IsPrefix(path, dir);
    assert s'[b] == Blob(kind, Some(d), map[]) && Step(s', d, n) == At(b);
    hide Consistent, Linked;
    LinkedElsewhere(s, dir, d, n, kind, b, dir);
    WalkSnoc(s', ROOT, dir, n);
    WalkAppend(s', ROOT, path, r);
    assert r == [] <==> q == path;
  }

  lemma UnlistedBlob(s: Blobs, b: BlobId, blob: Blob, q: Path)
    requires Consistent(s) && b !in s && Unlisted(s, b)
    ensures Walk(s[b := blob], ROOT, q) == Walk(s, ROOT, q)
  {
    var s' := s[b := blob];
    forall i | 0 <= i < |q| ensures SameStepAt(s, s', ROOT, q, i) {
      var w := Walk(s, ROOT, q[..i]);
      if w.At? && q[i] in s[w.id].entries {
        assert Lists(s, w.id, q[i], s[w.id].entries[q[i]].id);
      }
    }
    SameWalk(s, s', ROOT, q);
  }

  /** The error of a creation, from the path alone. */
  function CreateError(s: Blobs, dir: Path, n: Name): Option<Error>
    requires ROOT in s
  {
    var w := Walk(s, ROOT, dir);
    if LeadsToLost(s, dir) then Some(ENOTDIR)
    else if w.Failed? then Some(w.error)
    else if w.Missing? then Some(EIO)
    else if s[w.id].kind != DIR then Some(ENOTDIR)
    else if n in s[w.id].entries then Some(EEXIST)
    else None
  }

  /** Creation works exactly in existing directories and under new names. Under a name that is
      taken it changes no path, but leaves a new blob behind. */
  ghost predicate Creates(s: Blobs, dir: Path, n: Name, kind: Kind, b: BlobId, o: Outcome)
    requires ROOT in s
  {
    var w := Walk(s, ROOT, dir);
    && Consistent(o.blobs) && NoNewLoss(s, o.blobs)
    && (o.error.None? <==> IsDirAt(s, dir) && n !in s[w.id].entries)
    && (o.error == Some(EEXIST) <==> IsDirAt(s, dir) && n in s[w.id].entries)
    && (o.error.None? ==> Added(s, o.blobs, dir + [n], kind, b) && o.blobs.Keys == s.Keys + {b})
    && (o.error.None? ==>
          && o.blobs[b] == Blob(kind, Some(w.id), map[])
          && forall z | z in s :: o.blobs[z] == if z == w.id then s[z].(entries := s[z].entries[n := Entry(b, kind)]) else s[z])
    && (o.error == Some(EEXIST) ==> o.blobs == s[b := Blob(kind, Some(w.id), map[])] && forall q: Path :: Walk(o.blobs, ROOT, q) == Walk(s, ROOT, q))
    && (o.error.Some? && o.error != Some(EEXIST) ==> o.blobs == s)
    && o.error == CreateError(s, dir, n)
  }

  lemma CreateWorks(s: Blobs, dir: Path, n: Name, kind: Kind, b: BlobId)
    requires Consistent(s) && b !in s && Unlisted(s, b)
    ensures ROOT in s && Creates(s, dir, n, kind, b, Create(s, dir, n, kind, b))
  {
    hide Consistent, Walk, Added, Linked, Load, Create, Unlisted;
    RootIsThere(s);
    CreateKeeps(s, dir, n, kind, b);
    if IsDirAt(s, dir) {
      var d := Walk(s, ROOT, dir).id;
      CreateSplits(s, dir, d, n, kind, b);
      LinkedAdds(s, dir, d, n, kind, b);
      LinkedKeys(s, d, n, kind, b);
      LinkedBlobs(s, d, n, kind, b);
      LostIsFound(s, dir);
      UnlistedBlobs(s, b, Blob(kind, Some(d), map[]));
    } else {
      CreateRefused(s, dir, n, kind, b);
    }
  }

  lemma CreateRefused(s: Blobs, dir: Path, n: Name, kind: Kind, b: BlobId)
    requires Consistent(s) && b !in s && !IsDirAt(s, dir)
    ensures var o := Create(s, dir, n, kind, b); o.blobs == s && o.error.Some? && o.error != Some(EEXIST) && o.error == CreateError(s, dir, n)
  {
    LoadFinds(s, dir);
    LostIsFound(s, dir);
    hide Consistent, CreateIn, LostAt;
  }

  lemma LinkedBlobs(s: Blobs, d: BlobId, n: Name, kind: Kind, b: BlobId)
    requires d in s && b !in s
    ensures var s' := Linked(s, d, n, kind, b);
            && b in s' && s'[b] == Blob(kind, Some(d), map[])
            && forall z | z in s :: z in s' && s'[z] == if z == d then s[z].(entries := s[z].entries[n := Entry(b, kind)]) else s[z]
  {
  }

  lemma CreateSplits(s: Blobs, dir: Path, d: BlobId, n: Name, kind: Kind, b: BlobId)
    requires Consistent(s) && b !in s && Unlisted(s, b) && Walk(s, ROOT, dir) == At(d) && s[d].kind == DIR
    ensures Create(s, dir, n, kind, b) == CreateIn(s, d, n, kind, b)
    ensures n !in s[d].entries ==> CreateIn(s, d, n, kind, b).blobs == Linked(s, d, n, kind, b)
  {
    LoadFinds(s, dir);
    hide Consistent;
  }

  /** Where paths lead after the entry has been added. */
  lemma LinkedAdds(s: Blobs, dir: Path, d: BlobId, n: Name, kind: Kind, b: BlobId)
    requires Consistent(s) && b !in s && Unlisted(s, b) && Walk(s, ROOT, dir) == At(d) && s[d].kind == DIR
    ensures Added(s, Linked(s, d, n, kind, b), dir + [n], kind, b)
  {
    assert ROOT in s;
    LinkedKeys(s, d, n, kind, b);
    hide Walk, Consistent, Linked, IsPrefix;
    forall q: Path ensures Walk(Linked(s, d, n, kind, b), ROOT, q) ==
         if q == dir + [n] then At(b)
         else if IsPrefix(dir + [n], q) then (if kind == DIR then Missing else Failed(ENOTDIR))
         else Walk(s, ROOT, q)
    {
      PrefixOfItself(dir + [n]);
      if IsPrefix(dir + [n], q) {
        LinkedThere(s, dir, d, n, kind, b, q);
      } else {
        LinkedElsewhere(s, dir, d, n, kind, b, q);
      }
    }
  }

  lemma LinkedKeys(s: Blobs, d: BlobId, n: Name, kind: Kind, b: BlobId)
    requires d in s && b !in s
    ensures Linked(s, d, n, kind, b).Keys == s.Keys + {b}
  {
  }

  /** Nothing leads to a blob that no directory lists. */
  lemma UnlistedBlobs(s: Blobs, b: BlobId, blob: Blob)
    requires Consistent(s) && b !in s && Unlisted(s, b)
    ensures forall q: Path :: Walk(s[b := blob], ROOT, q) == Walk(s, ROOT, q)
  {
    hide Walk;
    forall q: Path ensures Walk(s[b := blob], ROOT, q) == Walk(s, ROOT, q) {
      UnlistedBlob(s, b, blob, q);
    }
  }

  lemma PrefixOfItself(p: Path)
    ensures IsPrefix(p, p)
  {
  }
}
