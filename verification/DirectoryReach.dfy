/** Which operations make blobs unreachable. */
module DirectoryReach {
  import opened Bytes
  import opened DirectoryTree
  import opened DirectoryLinks
  import opened DirectoryMoves
  import opened DirectoryChanges

  ghost predicate Reachable(s: Blobs, x: BlobId)
    requires ROOT in s
  {
    exists p: Path :: Walk(s, ROOT, p) == At(x)
  }

  ghost predicate AllReachable(s: Blobs)
    requires ROOT in s
  {
    forall x | x in s :: Reachable(s, x)
  }

  // ----- Create and remove

  /** Creation leaves an unreachable blob exactly if the name is taken. */
  lemma CreateLoses(s: Blobs, dir: Path, n: Name, kind: Kind, b: BlobId)
    requires Consistent(s) && AllReachable(s) && b !in s && Unlisted(s, b)
    ensures var o := Create(s, dir, n, kind, b);
            ROOT in o.blobs && (AllReachable(o.blobs) <==> !(IsDirAt(s, dir) && n in s[Walk(s, ROOT, dir).id].entries))
  {
    var o := Create(s, dir, n, kind, b);
    CreateWorks(s, dir, n, kind, b);
    RootIsThere(o.blobs);
    WalkSnoc(s, ROOT, dir, n);
    hide Create, Walk, Consistent, IsPrefix, Unlisted;
    if o.error == Some(EEXIST) {
      Unreachable(s, o.blobs, b);
    } else if o.error.None? {
      AddedReachable(s, o.blobs, dir + [n], kind, b);
    }
  }

  lemma Unreachable(s: Blobs, s': Blobs, b: BlobId)
    requires ROOT in s && ROOT in s' && b !in s && b in s'
    requires forall q: Path :: Walk(s', ROOT, q) == Walk(s, ROOT, q)
    ensures !AllReachable(s')
  {
  }

  lemma AddedReachable(s: Blobs, s': Blobs, path: Path, kind: Kind, b: BlobId)
    requires Added(s, s', path, kind, b) && path != [] && !Walk(s, ROOT, path).At?
    requires AllReachable(s) && s'.Keys == s.Keys + {b}
    ensures AllReachable(s')
  {
    hide Walk, IsPrefix;
    forall x | x in s' ensures Reachable(s', x) {
      if x == b {
        assert Walk(s', ROOT, path) == At(b);
      } else {
        assert x in s'.Keys;
        assert Reachable(s, x);
        var p: Path :| Walk(s, ROOT, p) == At(x);
        NothingPast(s, path, p);
        assert Walk(s', ROOT, p) == At(x);
      }
    }
  }

  /** Nothing is found past a path that leads nowhere. */
  lemma NothingPast(s: Blobs, path: Path, p: Path)
    requires ROOT in s && !Walk(s, ROOT, path).At? && Walk(s, ROOT, p).At?
    ensures !IsPrefix(path, p)
  {
    if IsPrefix(path, p) {
      assert p == path + p[|path|..];
      WalkAppend(s, ROOT, path, p[|path|..]);
    }
  }

  /** None of the entries has a blob. */
  ghost predicate Barren(s: Blobs, x: BlobId)
    requires x in s
  {
    forall n | n in s[x].entries :: s[x].entries[n].id !in s
  }

  /** Below such a blob there is only itself. */
  lemma NothingBelow(s: Blobs, path: Path, p: Path)
    requires ROOT in s && Walk(s, ROOT, path).At? && Barren(s, Walk(s, ROOT, path).id)
    requires Walk(s, ROOT, p).At? && Walk(s, ROOT, p) != Walk(s, ROOT, path)
    ensures !IsPrefix(path, p)
  {
    if IsPrefix(path, p) {
      var r := p[|path|..];
      assert p == path + r;
      WalkAppend(s, ROOT, path, r);
    }
  }

  /** Removing makes no other blob unreachable. */
  lemma RemoveLoses(s: Blobs, path: Path)
    requires Consistent(s) && AllReachable(s)
    ensures ROOT in Remove(s, path).blobs && AllReachable(Remove(s, path).blobs)
  {
    var o, w := Remove(s, path), Walk(s, ROOT, path);
    RemoveWorks(s, path);
    RootIsThere(o.blobs);
    LostIsFound(s, path);
    hide Remove, Consistent, Walk, LeadsToLost, MeetsLostName, IsPrefix;
    if o.error.None? || LeadsToLost(s, path) {
      forall x | x in o.blobs ensures Reachable(o.blobs, x) {
        assert x in o.blobs.Keys;
        assert Reachable(s, x);
        var p: Path :| Walk(s, ROOT, p) == At(x);
        if w.At? {
          NothingBelow(s, path, p);
        } else {
          NothingPast(s, path, p);
        }
        assert Walk(o.blobs, ROOT, p) == At(x);
      }
    }
  }

  // ----- Moves

  lemma MoveLoses(s: Blobs, m: Move)
    requires CanMove(s, m) && AllReachable(s)
    ensures var x, s' := Target(s, m), AfterMove(s, m);
            ROOT in s' && (AllReachable(s') <==> (x.Some? ==> Barren(s, x.value)))
  {
    var x, s' := Target(s, m), AfterMove(s, m);
    RootStays(s, m);
    MoveFacts(s, m);
    if x.Some? && !Barren(s, x.value) {
      var n :| n in s[x.value].entries && s[x.value].entries[n].id in s;
      ChildOfOverwritten(s, m, x.value, n);
    } else {
      MoveMoves(s, m);
      hide AfterMove, Consistent, CanMove, Barren;
      forall z | z in s' ensures Reachable(s', z) {
        StillReachable(s, m, z);
      }
    }
  }

  lemma ChildOfOverwritten(s: Blobs, m: Move, x: BlobId, n: Name)
    requires CanMove(s, m) && Target(s, m) == Some(x) && n in s[x].entries && s[x].entries[n].id in s
    ensures ROOT in AfterMove(s, m) && !AllReachable(AfterMove(s, m))
  {
    var s', c := AfterMove(s, m), s[x].entries[n].id;
    RootStays(s, m);
    MoveFacts(s, m);
    MoveApart(s, m);
    assert Front(m.to + [n]) == m.to && Last(m.to + [n]) == n;
    EntryFound(s, m.to + [n], x);
    assert Lists(s, x, n, c) && Lists(s, m.p, Last(m.from), m.e.id);
    MovedBlob(s, m, c);
    MovedBlob(s, m, x);
    hide AfterMove, CanMove, Consistent;
    forall p: Path ensures Walk(s', ROOT, p) != At(c) {
      if p != [] && Walk(s', ROOT, p) == At(c) {
        LastStep(s', p);
      }
    }
    assert !Reachable(s', c);
  }

  lemma HaveRoots(s: Blobs, s': Blobs, from: Path, to: Path)
    requires Moved(s, s', from, to)
    ensures ROOT in s && ROOT in s'
  {
  }

  lemma StillReachable(s: Blobs, m: Move, z: BlobId)
    requires CanMove(s, m) && AllReachable(s) && Moved(s, AfterMove(s, m), m.from, m.to) && z in AfterMove(s, m)
    requires Target(s, m).Some? ==> Barren(s, Target(s, m).value)
    ensures ROOT in AfterMove(s, m) && Reachable(AfterMove(s, m), z)
  {
    hide Consistent, CanMove, AfterMove, Walk, Moved, Target, Barren;
    MoveApart(s, m);
    HaveRoots(s, AfterMove(s, m), m.from, m.to);
    MovedBlob(s, m, z);
    assert Reachable(s, z);
    var p: Path :| Walk(s, ROOT, p) == At(z);
    NewPath(s, m, p, z);
  }

  /** Where a blob is found after the move. */
  lemma NewPath(s: Blobs, m: Move, p: Path, z: BlobId)
    requires CanMove(s, m) && Moved(s, AfterMove(s, m), m.from, m.to) && Walk(s, ROOT, p) == At(z) && Target(s, m) != Some(z)
    requires Target(s, m).Some? ==> Barren(s, Target(s, m).value)
    ensures var q := if IsPrefix(m.from, p) then m.to + p[|m.from|..] else p;
            ROOT in AfterMove(s, m) && Walk(AfterMove(s, m), ROOT, q) == At(z)
  {
    hide AfterMove, Consistent, Walk, CanMove, Barren;
    if IsPrefix(m.from, p) {
      var r := p[|m.from|..];
      assert p == m.from + r && (m.to + r)[|m.to|..] == r && IsPrefix(m.to, m.to + r);
    } else {
      TargetPathFree(s, m, p, z);
    }
  }

  lemma TargetPathFree(s: Blobs, m: Move, p: Path, z: BlobId)
    requires CanMove(s, m) && Walk(s, ROOT, p) == At(z) && !IsPrefix(m.from, p) && Target(s, m) != Some(z)
    requires Target(s, m).Some? ==> Barren(s, Target(s, m).value)
    ensures !IsPrefix(m.to, p)
  {
    MoveFacts(s, m);
    if Target(s, m).Some? {
      NothingBelow(s, m.to, p);
    } else if m.from != m.to {
      UnusedTarget(s, m);
      NothingPast(s, m.to, p);
    }
  }

  // ----- Rename

  /** A directory is renamed over a directory that is not empty, next to it. */
  ghost predicate Orphans(s: Blobs, from: Path, to: Path)
    requires ROOT in s
  {
    && from != [] && to != [] && from != to && Front(from) == Front(to)
    && IsDirAt(s, from) && IsDirAt(s, to) && !Barren(s, Walk(s, ROOT, to).id)
  }

  /** What is overwritten by a rename within a directory. */
  lemma WithinTarget(s: Blobs, from: Path, to: Path, p: BlobId, e: Entry)
    requires ROOT in s && from != [] && to != [] && TargetIs(s, from, to, p, p, e)
    ensures var o, x := RenameWithin(s, p, Last(from), Last(to), e), Overwritten(s, p, Last(to), e.id);
            Orphans(s, from, to) <==> o.error.None? && x.Some? && x.value in s && !Barren(s, x.value)
  {
    hide Walk, LeadsToLost, Relisted;
  }

  lemma WithinLoses(s: Blobs, from: Path, to: Path, p: BlobId, e: Entry)
    requires FindsDir(s, from, to, p, p, e) && ROOT in s && AllReachable(s)
    ensures p in s
    ensures var o := RenameWithin(s, p, Last(from), Last(to), e); ROOT in o.blobs && (AllReachable(o.blobs) <==> !Orphans(s, from, to))
  {
    TargetFacts(s, from, to, p, p, e);
    hide Walk, WalkAvoiding, Load, Consistent, AllReachable, CanMove, AfterMove, RenameWithin, Reachable, LeadsToLost, FindsDir, Barren, Orphans;
    var o, m := RenameWithin(s, p, Last(from), Last(to), e), Move(from, to, p, p, e);
    WithinTarget(s, from, to, p, e);
    WithinWorks(s, from, to, p, e);
    if o.error.None? {
      TargetThere(s, m);
      MoveLoses(s, m);
    }
  }

  lemma TargetThere(s: Blobs, m: Move)
    requires CanMove(s, m)
    ensures Target(s, m).Some? ==> Target(s, m).value in s
  {
  }

  lemma AcrossTarget(s: Blobs, p: BlobId, fn: Name, t: BlobId, tn: Name, e: Entry)
    requires p in s && t in s && t != p && s[p].entries != map[] && s[p].kind == DIR && EntryFits(s, p, e)
    requires tn in s[t].entries ==>
               var y := s[t].entries[tn]; EntryFits(s, t, y) && y.id != e.id && (y.id in s && y.kind != DIR ==> s[y.id].entries == map[])
    ensures var o, x := RenameAcross(s, p, fn, t, tn, e), Overwritten(s, t, tn, e.id);
            (o.blobs != s && o == AttachBlob(s, p, fn, t, tn, e) && x.Some? && x.value in s && x.value != p
             && !(e.kind == DIR && s[t].entries[tn].kind != DIR))
            ==> Barren(s, x.value)
  {
    AcrossCases(s, p, fn, t, tn, e);
    hide AttachBlob, RenameAcross;
  }

  lemma AcrossLoses(s: Blobs, from: Path, to: Path, p: BlobId, t: BlobId, e: Entry)
    requires FindsDir(s, from, to, p, t, e) && t != p && ROOT in s && AllReachable(s) && !Dangles(s, from, to)
    ensures p in s && !Orphans(s, from, to)
    ensures var o := RenameAcross(s, p, Last(from), t, Last(to), e); ROOT in o.blobs && AllReachable(o.blobs)
  {
    TargetFacts(s, from, to, p, t, e);
    AcrossIs(s, from, to, p, t, e);
    hide Walk, WalkAvoiding, Load, Consistent, AllReachable, CanMove, AfterMove, RenameAcross, Reachable, LeadsToLost, FindsDir, Barren, Dangles, AttachBlob;
    var m := Move(from, to, p, t, e);
    if RenameAcross(s, p, Last(from), t, Last(to), e).blobs != s {
      MoveLoses(s, m);
    }
  }

  lemma AcrossIs(s: Blobs, from: Path, to: Path, p: BlobId, t: BlobId, e: Entry)
    requires FindsDir(s, from, to, p, t, e) && t != p && ROOT in s && !Dangles(s, from, to)
    ensures p in s && from != []
    ensures var o, m := RenameAcross(s, p, Last(from), t, Last(to), e), Move(from, to, p, t, e);
            o.blobs == s || (CanMove(s, m) && o.blobs == AfterMove(s, m) && (Target(s, m).Some? ==> Target(s, m).value in s && Barren(s, Target(s, m).value)))
  {
    TargetFacts(s, from, to, p, t, e);
    assert Consistent(s) && Load(s, from) == Node(p, e) && to != [];
    hide Walk, WalkAvoiding, Load, Consistent, CanMove, CanRelist, RenameAcross, LeadsToLost, Barren, Dangles, AttachBlob, Attached;
    DanglesIff(s, from, to, p, e);
    var n, x := Last(to), Overwritten(s, t, Last(to), e.id);
    AcrossCases(s, p, Last(from), t, n, e);
    AcrossTarget(s, p, Last(from), t, n, e);
    if x.Some? ==> x.value in s && x.value != p {
      CheckedMove(s, from, to, p, t, e);
      AttachBlobIs(s, p, Last(from), t, n, e);
    }
  }

  /** A rename makes blobs unreachable exactly if it overwrites a directory that is not empty, next
      to it. */
  lemma RenameLoses(s: Blobs, from: Path, to: Path)
    requires Consistent(s) && AllReachable(s)
    ensures var o := Rename(s, from, to); ROOT in o.blobs && (AllReachable(o.blobs) <==> !Orphans(s, from, to))
  {
    RootIsThere(s);
    LoadFinds(s, from);
    var r := Load(s, from);
    hide Walk, WalkAvoiding, Load, AllReachable, Reachable, Dangles, Consistent, FindsDir, Barren, RenameWithin, RenameAcross;
    if Dangles(s, from, to) {
      DanglesIs(s, from, to);
      RenameWorks(s, from, to);
      DanglingLoses(s, to);
    } else if r.Node? && to != [] {
      var p, e, w := r.parent, r.entry, WalkAvoiding(s, ROOT, Front(to), r.entry.id);
      if Orphans(s, from, to) {
        OrphansFound(s, from, to, p, e);
      }
      if w.At? && s[w.id].kind == DIR && w.id != e.id {
        MakeFindsDir(s, from, to, p, w.id, e);
        if w.id == p {
          WithinLoses(s, from, to, p, e);
        } else {
          AcrossLoses(s, from, to, p, w.id, e);
        }
      }
    }
  }

  lemma DanglesIs(s: Blobs, from: Path, to: Path)
    requires ROOT in s && Dangles(s, from, to)
    ensures to != [] && IsNonDirAt(s, to) && !Orphans(s, from, to)
  {
  }

  /** Without a blob that is no directory, every other one is found where it was. */
  lemma DanglingLoses(s: Blobs, path: Path)
    requires Consistent(s) && AllReachable(s) && path != [] && IsNonDirAt(s, path)
    ensures var s' := s - {Walk(s, ROOT, path).id}; ROOT in s' && AllReachable(s')
  {
    var x := Walk(s, ROOT, path).id;
    var s' := s - {x};
    LastStep(s, path);
    assert Barren(s, x) && x != ROOT;
    hide Consistent, Walk;
    forall z | z in s' ensures Reachable(s', z) {
      assert Reachable(s, z);
      var q: Path :| Walk(s, ROOT, q) == At(z);
      NothingBelow(s, path, q);
      WithoutLeaf(s, path, q);
    }
  }

  lemma WithoutLeaf(s: Blobs, path: Path, q: Path)
    requires Consistent(s) && path != [] && Walk(s, ROOT, path).At? && !IsPrefix(path, q)
    ensures var s' := s - {Walk(s, ROOT, path).id}; ROOT in s' && Walk(s', ROOT, q) == Walk(s, ROOT, q)
  {
    var s' := s - {Walk(s, ROOT, path).id};
    LastStep(s, path);
    hide Consistent, Walk, Step, IsPrefix;
    forall i | 0 <= i < |q| ensures SameStepAt(s, s', ROOT, q, i) {
      if Walk(s, ROOT, q[..i]).At? {
        NotOnPath(path, q, i);
        WithoutLeafStep(s, path, q[..i], q[i]);
      }
    }
    SameWalk(s, s', ROOT, q);
  }

  lemma WithoutLeafStep(s: Blobs, path: Path, a: Path, n: Name)
    requires Consistent(s) && path != [] && Walk(s, ROOT, path).At? && Walk(s, ROOT, a).At? && a != path && a + [n] != path
    ensures SameStep(s, s - {Walk(s, ROOT, path).id}, Walk(s, ROOT, a).id, n)
  {
    var x, z := Walk(s, ROOT, path).id, Walk(s, ROOT, a).id;
    if z == x {
      UniquePath(s, a, path);
    }
    WalkSnoc(s, ROOT, a, n);
    if Step(s, z, n) == At(x) {
      UniquePath(s, a + [n], path);
    }
    if n in s[z].entries {
      assert EntryFits(s, z, s[z].entries[n]);
    }
    hide Consistent, Walk;
  }

  /** If the rename would orphan something, it finds its way. */
  lemma OrphansFound(s: Blobs, from: Path, to: Path, p: BlobId, e: Entry)
    requires Consistent(s) && Load(s, from) == Node(p, e) && to != [] && Orphans(s, from, to)
    ensures WalkAvoiding(s, ROOT, Front(to), e.id) == At(p) && s[p].kind == DIR && p != e.id
  {
    LoadFinds(s, from);
    AvoidingIs(s, ROOT, Front(to), e.id);
    var q := Front(to);
    assert q == Front(from);
    forall i | 0 <= i < |q| ensures Walk(s, ROOT, q[..i]) != At(e.id) {
      if Walk(s, ROOT, q[..i]) == At(e.id) {
        UniquePath(s, q[..i], from);
      }
    }
  }
}
