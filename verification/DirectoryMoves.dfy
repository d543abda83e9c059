/** What a rename does to every path of the directory tree. */
module DirectoryMoves {
  import opened Bytes
  import opened DirectoryTree
  import opened DirectoryLinks

  // ----- What a move does to paths

  /** The entry `e` of `p` goes from `from` to `to`, into the directory `t`. */
  datatype Move = Move(from: Path, to: Path, p: BlobId, t: BlobId, e: Entry)

  /** The checks of rename have passed. */
  ghost predicate CanMove(s: Blobs, m: Move) {
    && Consistent(s) && m.from != [] && m.to != []
    && Walk(s, ROOT, Front(m.from)) == At(m.p) && Last(m.from) in s[m.p].entries && s[m.p].entries[Last(m.from)] == m.e
    && Walk(s, ROOT, Front(m.to)) == At(m.t) && s[m.t].kind == DIR
    && !Passes(s, ROOT, Front(m.to), m.e.id) && m.t != m.e.id
    && (Target(s, m).Some? ==> Target(s, m).value in s && Target(s, m).value != m.p)
  }

  function Target(s: Blobs, m: Move): Option<BlobId>
    requires m.t in s && m.to != []
  {
    Overwritten(s, m.t, Last(m.to), m.e.id)
  }

  function AfterMove(s: Blobs, m: Move): Blobs
    requires m.p in s && m.t in s && m.from != [] && m.to != []
  {
    Attached(s, m.p, Last(m.from), m.t, Last(m.to), m.e)
  }

  /** Where an entry leads, which may have lost its blob. */
  function Leads(s: Blobs, b: BlobId): Walked {
    if b in s then At(b) else Failed(EIO)
  }

  lemma MoveFacts(s: Blobs, m: Move)
    requires CanMove(s, m)
    ensures Walk(s, ROOT, m.from) == Leads(s, m.e.id) && EntryFits(s, m.p, m.e) && m.e.id != m.p && m.e.id != ROOT && s[m.p].kind == DIR
    ensures var x := Target(s, m);
            x.Some? ==> && Walk(s, ROOT, m.to) == At(x.value) && EntryOk(s, m.t, s[m.t].entries[Last(m.to)])
                        && x.value != m.t && x.value != ROOT && x.value != m.e.id
    ensures !IsPrefix(m.from, Front(m.to))
    ensures Target(s, m).Some? ==> m.from != m.to
  {
    EntryFound(s, m.from, m.p);
    var x, q := Target(s, m), Front(m.to);
    if x.Some? {
      EntryFound(s, m.to, m.t);
    }
    assert |m.from| == |q| ==> q[..|m.from|] == q;
    if IsPrefix(m.from, q) {
      assert q == m.from + q[|m.from|..];
      WalkAppend(s, ROOT, m.from, q[|m.from|..]);
    }
    hide Consistent;
  }

  /** The blobs that play a part in a move are different ones. */
  predicate Apart(s: Blobs, m: Move) {
    && m.from != [] && m.to != [] && m.p in s && m.t in s
    && m.e.id != m.p && m.e.id != m.t
    && Target(s, m) != Some(m.p) && Target(s, m) != Some(m.t) && Target(s, m) != Some(m.e.id)
  }

  function EntriesAfter(s: Blobs, m: Move, z: BlobId): map<Name, Entry>
    requires Apart(s, m) && z in s
  {
    var entries := if z == m.p then s[z].entries - {Last(m.from)} else s[z].entries;
    if z == m.t then entries[Last(m.to) := m.e] else entries
  }

  /** One blob after the move. */
  lemma MovedBlob(s: Blobs, m: Move, z: BlobId)
    requires Apart(s, m)
    ensures var s' := AfterMove(s, m);
            && (z in s' <==> z in s && Some(z) != Target(s, m))
            && (z in s' ==> s'[z] == Blob(s[z].kind, if z == m.e.id then Some(m.t) else s[z].parent, EntriesAfter(s, m, z)))
  {
  }

  lemma MoveApart(s: Blobs, m: Move)
    requires CanMove(s, m)
    ensures Apart(s, m)
  {
    MoveFacts(s, m);
  }

  /** Every other edge is as before. */
  lemma MovedStep(s: Blobs, m: Move, z: BlobId, n: Name)
    requires Consistent(s) && Apart(s, m) && z in s && Some(z) != Target(s, m)
    requires Last(m.from) in s[m.p].entries && s[m.p].entries[Last(m.from)] == m.e
    requires (z, n) != (m.p, Last(m.from)) && (z, n) != (m.t, Last(m.to))
    ensures SameStep(s, AfterMove(s, m), z, n)
  {
    hide AfterMove;
    MovedBlob(s, m, z);
    if n in s[z].entries {
      var c := s[z].entries[n].id;
      MovedBlob(s, m, c);
      assert Lists(s, z, n, c) && Lists(s, m.p, Last(m.from), m.e.id);
      assert Target(s, m).Some? ==> Lists(s, m.t, Last(m.to), Target(s, m).value);
    }
  }

  /** The same for a blob reached from the root: the path says which edge it is. */
  lemma MovedStepAt(s: Blobs, m: Move, a: Path, n: Name)
    requires CanMove(s, m) && Walk(s, ROOT, a).At?
    requires a + [n] != m.from && a + [n] != m.to && (Target(s, m).Some? ==> a != m.to)
    ensures SameStep(s, AfterMove(s, m), Walk(s, ROOT, a).id, n)
  {
    var z := Walk(s, ROOT, a).id;
    MoveFacts(s, m);
    MoveApart(s, m);
    FrontLast(m.from);
    FrontLast(m.to);
    if z == m.p {
      UniquePath(s, a, Front(m.from));
    }
    if z == m.t {
      UniquePath(s, a, Front(m.to));
    }
    if Some(z) == Target(s, m) {
      UniquePath(s, a, m.to);
    }
    hide Consistent, Walk, AfterMove, Apart, Front, Last;
    MovedStep(s, m, z, n);
  }

  /** A path that comes through neither place leads where it did. */
  lemma OtherPaths(s: Blobs, m: Move, q: Path)
    requires CanMove(s, m) && !IsPrefix(m.from, q) && !IsPrefix(m.to, q)
    ensures ROOT in AfterMove(s, m) && Walk(AfterMove(s, m), ROOT, q) == Walk(s, ROOT, q)
  {
    var s' := AfterMove(s, m);
    RootStays(s, m);
    hide Consistent, CanMove, AfterMove, Walk, Step, IsPrefix;
    forall i | 0 <= i < |q| ensures SameStepAt(s, s', ROOT, q, i) {
      if Walk(s, ROOT, q[..i]).At? {
        NotOnPath(m.from, q, i);
        NotOnPath(m.to, q, i);
        MovedStepAt(s, m, q[..i], q[i]);
      }
    }
    SameWalk(s, s', ROOT, q);
  }

  lemma NotOnPath(path: Path, q: Path, i: nat)
    requires !IsPrefix(path, q) && i < |q|
    ensures q[..i] != path && q[..i] + [q[i]] != path
  {
  }

  lemma RootStays(s: Blobs, m: Move)
    requires CanMove(s, m)
    ensures ROOT in AfterMove(s, m) && (m.e.id in AfterMove(s, m) <==> m.e.id in s)
  {
    MoveFacts(s, m);
    MoveApart(s, m);
    MovedBlob(s, m, ROOT);
    MovedBlob(s, m, m.e.id);
  }

  /** Below the moved blob nothing changes. */
  lemma SubtreeUnchanged(s: Blobs, m: Move, q: Path)
    requires CanMove(s, m) && m.e.id in s
    ensures m.e.id in AfterMove(s, m) && Walk(AfterMove(s, m), m.e.id, q) == Walk(s, m.e.id, q)
  {
    var s', b := AfterMove(s, m), m.e.id;
    RootStays(s, m);
    MoveFacts(s, m);
    hide Consistent, CanMove, AfterMove;
    forall i | 0 <= i < |q| ensures SameStepAt(s, s', b, q, i) {
      WalkAppend(s, ROOT, m.from, q[..i]);
      if Walk(s, b, q[..i]).At? {
        NotBelow(m, q[..i], q[i]);
        MovedStepAt(s, m, m.from + q[..i], q[i]);
      }
    }
    SameWalk(s, s', b, q);
  }

  /** The target is not below the moved blob. */
  lemma NotBelow(m: Move, a: Path, n: Name)
    requires m.from != [] && m.to != [] && !IsPrefix(m.from, Front(m.to))
    ensures m.from + a + [n] != m.from && m.from + a + [n] != m.to
    ensures m.from != m.to ==> m.from + a != m.to
  {
  }

  lemma TargetReached(s: Blobs, m: Move)
    requires CanMove(s, m)
    ensures ROOT in AfterMove(s, m) && Walk(AfterMove(s, m), ROOT, m.to) == Leads(s, m.e.id)
  {
    var s', q := AfterMove(s, m), Front(m.to);
    RootStays(s, m);
    MoveFacts(s, m);
    MoveApart(s, m);
    MovedBlob(s, m, m.t);
    MovedBlob(s, m, m.e.id);
    FrontLast(m.to);
    assert Step(s', m.t, Last(m.to)) == Leads(s, m.e.id);
    hide Consistent, AfterMove, Apart, Step, Leads;
    forall i | 0 <= i < |q| ensures SameStepAt(s, s', ROOT, q, i) {
      if Walk(s, ROOT, q[..i]).At? {
        assert q[..i] + [q[i]] == q[..i + 1];
        assert |q[..i + 1]| < |m.to|;
        assert IsPrefix(q[..i + 1], q);
        MovedStepAt(s, m, q[..i], q[i]);
      }
    }
    SameWalk(s, s', ROOT, q);
    WalkSnoc(s', ROOT, q, Last(m.to));
  }

  lemma SourceUnlisted(s: Blobs, m: Move)
    requires CanMove(s, m) && m.from != m.to
    ensures m.p in AfterMove(s, m) && Step(AfterMove(s, m), m.p, Last(m.from)) == Missing
  {
    MoveFacts(s, m);
    MoveApart(s, m);
    MovedBlob(s, m, m.p);
    if m.p == m.t && Last(m.from) == Last(m.to) {
      UniquePath(s, Front(m.from), Front(m.to));
      FrontLast(m.from);
      FrontLast(m.to);
    }
    hide Consistent, AfterMove, CanMove;
  }

  lemma SourceGone(s: Blobs, m: Move, q: Path)
    requires CanMove(s, m) && IsPrefix(m.from, q) && !IsPrefix(m.to, q)
    ensures ROOT in AfterMove(s, m) && Walk(AfterMove(s, m), ROOT, q) == Missing
  {
    var s', f, r := AfterMove(s, m), Front(m.from), q[|m.from|..];
    assert Walk(s, ROOT, f) == At(m.p);
    PathThrough(m.from, m.to, q);
    RootStays(s, m);
    hide Consistent, AfterMove, Step, CanMove, Walk, IsPrefix, Front, Last;
    SourceUnlisted(s, m);
    OtherPaths(s, m, f);
    WalkSnoc(s', ROOT, f, Last(m.from));
    WalkAppend(s', ROOT, m.from, r);
  }

  lemma PathThrough(from: Path, to: Path, q: Path)
    requires from != [] && to != [] && IsPrefix(from, q) && !IsPrefix(to, q)
    ensures q == from + q[|from|..] && from == Front(from) + [Last(from)] && from != to
    ensures !IsPrefix(from, Front(from)) && !IsPrefix(to, Front(from))
  {
  }

  /** Where paths lead after a move: what was below `from` is below `to`, nothing is left below
      `from`, and every other path leads where it did. */
  ghost predicate Moved(s: Blobs, s': Blobs, from: Path, to: Path) {
    && ROOT in s && ROOT in s'
    && forall q: Path :: Walk(s', ROOT, q) ==
         if IsPrefix(to, q) then Walk(s, ROOT, from + q[|to|..])
         else if IsPrefix(from, q) then Missing
         else Walk(s, ROOT, q)
  }

  lemma MoveMoves(s: Blobs, m: Move)
    requires CanMove(s, m)
    ensures Moved(s, AfterMove(s, m), m.from, m.to)
  {
    var s' := AfterMove(s, m);
    assert ROOT in s;
    RootStays(s, m);
    hide Consistent, AfterMove, CanMove, Walk, IsPrefix;
    forall q: Path ensures Walk(s', ROOT, q) ==
         if IsPrefix(m.to, q) then Walk(s, ROOT, m.from + q[|m.to|..])
         else if IsPrefix(m.from, q) then Missing
         else Walk(s, ROOT, q)
    {
      if IsPrefix(m.to, q) {
        BelowTarget(s, m, q);
      } else if IsPrefix(m.from, q) {
        SourceGone(s, m, q);
      } else {
        OtherPaths(s, m, q);
      }
    }
  }

  lemma BelowTarget(s: Blobs, m: Move, q: Path)
    requires CanMove(s, m) && IsPrefix(m.to, q)
    ensures ROOT in AfterMove(s, m) && Walk(AfterMove(s, m), ROOT, q) == Walk(s, ROOT, m.from + q[|m.to|..])
  {
    var s', r := AfterMove(s, m), q[|m.to|..];
    assert q == m.to + r;
    MoveFacts(s, m);
    TargetReached(s, m);
    hide Consistent, AfterMove, CanMove, Walk;
    WalkAppend(s', ROOT, m.to, r);
    WalkAppend(s, ROOT, m.from, r);
    if m.e.id in s {
      SubtreeUnchanged(s, m, r);
    }
  }

  lemma UnusedTarget(s: Blobs, m: Move)
    requires CanMove(s, m) && Target(s, m).None? && m.from != m.to
    ensures Walk(s, ROOT, m.to) == Missing
  {
    FrontLast(m.from);
    FrontLast(m.to);
    WalkSnoc(s, ROOT, Front(m.to), Last(m.to));
    if Last(m.to) in s[m.t].entries {
      assert Lists(s, m.t, Last(m.to), m.e.id) && Lists(s, m.p, Last(m.from), m.e.id);
      UniquePath(s, Front(m.to), Front(m.from));
    }
  }

  /** Blob `z` after the entry `e` has gone from `fn` in `p` to `tn` in `t`. */
  function MovedTo(x: Blob, z: BlobId, p: BlobId, fn: Name, t: BlobId, tn: Name, e: Entry): Blob {
    var left := if z == p then x.entries - {fn} else x.entries;
    Blob(x.kind, if z == e.id then Some(t) else x.parent, if z == t then left[tn := e] else left)
  }

  /** What has become of every blob: the moved one points to its new directory, the two directories
      list it in the new place only, and what was there is gone. Nothing else has changed. */
  ghost predicate BlobsMoved(s: Blobs, s': Blobs, from: Path, to: Path)
    requires ROOT in s
  {
    && from != [] && to != []
    && var source, target := Walk(s, ROOT, Front(from)), Walk(s, ROOT, Front(to));
    && source.At? && target.At? && Last(from) in s[source.id].entries
    && s'.Keys == (if from != to && Walk(s, ROOT, to).At? then s.Keys - {Walk(s, ROOT, to).id} else s.Keys)
    && AllMovedTo(s, s', source.id, Last(from), target.id, Last(to), s[source.id].entries[Last(from)])
  }

  ghost predicate AllMovedTo(s: Blobs, s': Blobs, p: BlobId, fn: Name, t: BlobId, tn: Name, e: Entry) {
    forall z | z in s' :: z in s && s'[z] == MovedTo(s[z], z, p, fn, t, tn, e)
  }

  lemma MoveBlobs(s: Blobs, m: Move)
    requires CanMove(s, m)
    ensures ROOT in s && BlobsMoved(s, AfterMove(s, m), m.from, m.to)
  {
    hide Consistent, AfterMove, Walk, CanMove, AllMovedTo, Target;
    MoveApart(s, m);
    TargetIff(s, m);
    MoveRoots(s, m);
    AllMoved(s, m);
  }

  lemma AllMoved(s: Blobs, m: Move)
    requires Apart(s, m)
    ensures var s' := AfterMove(s, m);
            && AllMovedTo(s, s', m.p, Last(m.from), m.t, Last(m.to), m.e)
            && s'.Keys == if Target(s, m).Some? then s.Keys - {Target(s, m).value} else s.Keys
  {
    hide AfterMove, MovedTo;
    var s' := AfterMove(s, m);
    forall z ensures z in s' <==> z in s && Some(z) != Target(s, m) {
      MovedBlob(s, m, z);
    }
    forall z | z in s' ensures z in s && s'[z] == MovedTo(s[z], z, m.p, Last(m.from), m.t, Last(m.to), m.e) {
      MovedBlob(s, m, z);
      MovedToIs(s, m, z);
    }
  }

  lemma MovedToIs(s: Blobs, m: Move, z: BlobId)
    requires Apart(s, m) && z in s
    ensures MovedTo(s[z], z, m.p, Last(m.from), m.t, Last(m.to), m.e)
            == Blob(s[z].kind, if z == m.e.id then Some(m.t) else s[z].parent, EntriesAfter(s, m, z))
  {
  }

  lemma MoveRoots(s: Blobs, m: Move)
    requires CanMove(s, m)
    ensures ROOT in s && m.from != [] && m.to != [] && Walk(s, ROOT, Front(m.from)) == At(m.p) && Walk(s, ROOT, Front(m.to)) == At(m.t)
    ensures Last(m.from) in s[m.p].entries && s[m.p].entries[Last(m.from)] == m.e
  {
  }

  /** Something is overwritten exactly if the new path leads to another blob. */
  lemma TargetIff(s: Blobs, m: Move)
    requires CanMove(s, m)
    ensures ROOT in s && Target(s, m) == if m.from != m.to && Walk(s, ROOT, m.to).At? then Some(Walk(s, ROOT, m.to).id) else None
  {
    MoveFacts(s, m);
    if m.from == m.to {
      assert m.p == m.t && Target(s, m).None?;
    } else if Target(s, m).None? {
      UnusedTarget(s, m);
    }
    hide Consistent, Walk;
  }

  // ----- Rename

  /** The name at the end of the path has lost its blob. */
  predicate LeadsToLost(s: Blobs, path: Path)
    requires ROOT in s
  {
    path != [] && LostAt(s, ROOT, path, |path| - 1)
  }

  lemma LostIsFound(s: Blobs, path: Path)
    requires Consistent(s)
    ensures LeadsToLost(s, path) <==> Load(s, path).Node? && Load(s, path).entry.id !in s
    ensures LeadsToLost(s, path) ==> Walk(s, ROOT, path) == Failed(EIO)
  {
    LoadFinds(s, path);
    if path != [] {
      LostAtLast(s, ROOT, path);
      FrontLast(path);
      WalkSnoc(s, ROOT, Front(path), Last(path));
      var w := Walk(s, ROOT, Front(path));
      assert w.At? && Last(path) in s[w.id].entries ==> s[w.id].kind == DIR;
      hide Consistent, LostAt;
    }
  }

  /** A name that has lost its blob is renamed into another directory, and nothing is in the way. */
  predicate MovesLostName(s: Blobs, from: Path, to: Path)
    requires ROOT in s
  {
    && LeadsToLost(s, from) && to != [] && Front(from) != Front(to)
    && IsDirAt(s, Front(to)) && !IsDirAt(s, to) && !LeadsToLost(s, to)
  }

  /** The move that a rename makes once the target directory has been found. */
  lemma CheckedMove(s: Blobs, from: Path, to: Path, p: BlobId, t: BlobId, e: Entry)
    requires FindsDir(s, from, to, p, t, e) && var x := Overwritten(s, t, Last(to), e.id); x.Some? ==> x.value in s && x.value != p
    ensures CanMove(s, Move(from, to, p, t, e)) && CanRelist(s, p, Last(from), t, Last(to), e)
  {
    var m := Move(from, to, p, t, e);
    AvoidingIs(s, ROOT, Front(to), e.id);
    assert CanMove(s, m);
    MoveFacts(s, m);
    hide Consistent, Load, Walk, WalkAvoiding;
  }

  /** The rename has found the directory `t`. */
  ghost predicate FindsDir(s: Blobs, from: Path, to: Path, p: BlobId, t: BlobId, e: Entry) {
    && Consistent(s) && Load(s, from) == Node(p, e) && to != []
    && WalkAvoiding(s, ROOT, Front(to), e.id) == At(t) && t in s && s[t].kind == DIR && t != e.id
  }

  /** What is there under the new name, in terms of paths. */
  ghost predicate TargetIs(s: Blobs, from: Path, to: Path, p: BlobId, t: BlobId, e: Entry)
    requires ROOT in s && from != [] && to != []
  {
    var n, w := Last(to), Walk(s, ROOT, to);
    && p in s && t in s && EntryFits(s, p, e) && s[p].entries != map[] && s[p].kind == DIR && (t == p <==> Front(from) == Front(to))
    && Walk(s, ROOT, from) == Leads(s, e.id) && Walk(s, ROOT, Front(to)) == At(t)
    && (LeadsToLost(s, from) <==> e.id !in s) && (LeadsToLost(s, to) <==> n in s[t].entries && s[t].entries[n].id !in s)
    && (if n in s[t].entries then
          var y := s[t].entries[n];
          && w == Leads(s, y.id) && EntryFits(s, t, y) && (y.id == e.id <==> from == to)
          && (y.id in s && y.kind != DIR ==> s[y.id].entries == map[])
        else w.Missing? && from != to)
  }

  lemma TargetFacts(s: Blobs, from: Path, to: Path, p: BlobId, t: BlobId, e: Entry)
    requires FindsDir(s, from, to, p, t, e)
    ensures ROOT in s && from != [] && TargetIs(s, from, to, p, t, e)
  {
    LoadFinds(s, from);
    AvoidingIs(s, ROOT, Front(to), e.id);
    LostIsFound(s, from);
    LostAtLast(s, ROOT, to);
    FrontLast(to);
    FrontLast(from);
    WalkSnoc(s, ROOT, Front(to), Last(to));
    if t == p {
      UniquePath(s, Front(from), Front(to));
    }
    if Last(to) in s[t].entries {
      EntryFound(s, to, t);
      var y := s[t].entries[Last(to)].id;
      assert Lists(s, t, Last(to), y) && Lists(s, p, Last(from), e.id);
      if y == e.id {
        assert t == p && Last(to) == Last(from);
      }
    }
    hide Load, LostAt, WalkAvoiding, Passes;
  }

  lemma RenameSplits(s: Blobs, from: Path, to: Path, p: BlobId, t: BlobId, e: Entry)
    requires ROOT in s && Load(s, from) == Node(p, e) && to != [] && WalkAvoiding(s, ROOT, Front(to), e.id) == At(t)
    requires s[t].kind == DIR && t != e.id
    ensures Rename(s, from, to) ==
            if t == p then RenameWithin(s, p, Last(from), Last(to), e) else RenameAcross(s, p, Last(from), t, Last(to), e)
  {
    hide Walk, WalkAvoiding, RenameWithin, RenameAcross;
  }

  /** Within a directory: nothing changes, or the entry moves. */
  lemma WithinWorks(s: Blobs, from: Path, to: Path, p: BlobId, e: Entry)
    requires FindsDir(s, from, to, p, p, e)
    ensures var o, m := RenameWithin(s, p, Last(from), Last(to), e), Move(from, to, p, p, e);
            if o.error.None? then CanMove(s, m) && o.blobs == AfterMove(s, m) else o.blobs == s
  {
    TargetFacts(s, from, to, p, p, e);
    var x := Overwritten(s, p, Last(to), e.id);
    if x.Some? {
      EntryFound(s, to, p);
    }
    hide Consistent, Load, Walk, WalkAvoiding, Relisted, Attached, CanRelist, CanMove, TargetIs;
    if RenameWithin(s, p, Last(from), Last(to), e).error.None? {
      CheckedMove(s, from, to, p, p, e);
      WithinAttaches(s, p, Last(from), Last(to), e);
    }
  }

  /** What happens across directories, in terms of the entry under the new name. */
  lemma AcrossCases(s: Blobs, p: BlobId, fn: Name, t: BlobId, tn: Name, e: Entry)
    requires p in s && t in s && t != p && s[p].entries != map[] && s[p].kind == DIR && EntryFits(s, p, e)
    requires tn in s[t].entries ==> EntryFits(s, t, s[t].entries[tn]) && s[t].entries[tn].id != e.id
    ensures var o, x := RenameAcross(s, p, fn, t, tn, e), Overwritten(s, t, tn, e.id);
            if e.kind == DIR && x.Some? && s[t].entries[tn].kind != DIR && x.value in s then o == Outcome(s - {x.value}, Some(ENOTDIR))
            else if x.None? || (x.value in s && x.value != p && (s[t].entries[tn].kind == DIR ==> e.kind == DIR && s[x.value].entries == map[]))
            then o == AttachBlob(s, p, fn, t, tn, e)
            else o.blobs == s && o.error.Some?
  {
    hide AttachBlob;
  }

  /** Across directories: nothing changes, or the entry moves, or the target loses its blob. */
  lemma AcrossWorks(s: Blobs, from: Path, to: Path, p: BlobId, t: BlobId, e: Entry)
    requires FindsDir(s, from, to, p, t, e) && t != p
    ensures ROOT in s && from != [] && p in s
    ensures var o, m := RenameAcross(s, p, Last(from), t, Last(to), e), Move(from, to, p, t, e);
            if FindsNonDir(s, to, p, e) then o == Outcome(s - {s[t].entries[Last(to)].id}, Some(ENOTDIR))
            else if o.error.None? || MovesLostName(s, from, to) then CanMove(s, m) && o == Outcome(AfterMove(s, m), if e.id in s then None else Some(EIO))
            else o.blobs == s
  {
    TargetFacts(s, from, to, p, t, e);
    var n, x := Last(to), Overwritten(s, t, Last(to), e.id);
    assert n in s[t].entries ==> s[t].entries[n].id != e.id;
    AcrossCases(s, p, Last(from), t, n, e);
    hide Consistent, Load, Walk, WalkAvoiding, AttachBlob, Attached, CanMove, CanRelist, RenameAcross, LeadsToLost;
    if x.Some? ==> x.value in s && x.value != p {
      CheckedMove(s, from, to, p, t, e);
      AttachBlobIs(s, p, Last(from), t, n, e);
    }
  }

  /** A successful rename moves exactly what was below `from`. A failing one changes nothing, with
      two exceptions: a directory renamed over a non-directory of another directory is refused
      after that blob has been deleted, and a name that has lost its blob is moved to another
      directory before that is noticed. Only in the first case a name loses its blob. */
  ghost predicate Renames(s: Blobs, from: Path, to: Path, o: Outcome)
    requires ROOT in s
  {
    && Consistent(o.blobs) && (NoNewLoss(s, o.blobs) <==> !Dangles(s, from, to))
    && (o.error.None? || MovesLostName(s, from, to) ==> Moved(s, o.blobs, from, to) && BlobsMoved(s, o.blobs, from, to))
    && (MovesLostName(s, from, to) ==> o.error == Some(EIO))
    && (Dangles(s, from, to) ==> o.error == Some(ENOTDIR) && o.blobs == s - {Walk(s, ROOT, to).id})
    && (o.error.Some? && !Dangles(s, from, to) && !MovesLostName(s, from, to) ==> o.blobs == s)
    && o.error != Some(AssertionFailed)
  }

  lemma RenameWorks(s: Blobs, from: Path, to: Path)
    requires Consistent(s)
    ensures Renames(s, from, to, Rename(s, from, to))
  {
    RootIsThere(s);
    hide Consistent, Walk, WalkAvoiding, Load, Rename, Renames, LostAt, FindsDir;
    LoadFinds(s, from);
    var r := Load(s, from);
    if r.Node? && to != [] {
      var w := WalkAvoiding(s, ROOT, Front(to), r.entry.id);
      if w.At? && s[w.id].kind == DIR && w.id != r.entry.id {
        MakeFindsDir(s, from, to, r.parent, w.id, r.entry);
        RenameFound(s, from, to, r.parent, w.id, r.entry);
      } else {
        RenameNotFound(s, from, to, r.parent, r.entry);
      }
    } else {
      RenameNotLoaded(s, from, to);
    }
  }

  lemma MakeFindsDir(s: Blobs, from: Path, to: Path, p: BlobId, t: BlobId, e: Entry)
    requires Consistent(s) && Load(s, from) == Node(p, e) && to != []
    requires WalkAvoiding(s, ROOT, Front(to), e.id) == At(t) && t in s && s[t].kind == DIR && t != e.id
    ensures FindsDir(s, from, to, p, t, e)
  {
  }

  /** The source cannot be loaded, or one of the paths is that of the root. */
  lemma RenameNotLoaded(s: Blobs, from: Path, to: Path)
    requires Consistent(s) && (!Load(s, from).Node? || to == [])
    ensures Renames(s, from, to, Rename(s, from, to))
  {
    RootIsThere(s);
    LoadFinds(s, from);
    RenameKeeps(s, from, to);
    LostIsFound(s, from);
    assert Rename(s, from, to).blobs == s && Rename(s, from, to).error.Some?;
    hide Walk, Consistent, Load, WalkAvoiding, Moved, BlobsMoved, Rename;
  }

  /** The target directory is not there, or not one, or the moved blob. */
  lemma RenameNotFound(s: Blobs, from: Path, to: Path, p: BlobId, e: Entry)
    requires Consistent(s) && Load(s, from) == Node(p, e) && to != []
    requires var w := WalkAvoiding(s, ROOT, Front(to), e.id); !(w.At? && s[w.id].kind == DIR && w.id != e.id)
    ensures Renames(s, from, to, Rename(s, from, to))
  {
    RootIsThere(s);
    assert Rename(s, from, to).blobs == s && Rename(s, from, to).error.Some?;
    hide Walk, Consistent, Load, WalkAvoiding, Moved, BlobsMoved, Rename, Dangles, LeadsToLost, Passes;
    RenameKeeps(s, from, to);
    DanglesIff(s, from, to, p, e);
    LostIsFound(s, from);
    if e.id !in s {
      NotPassed(s, Front(to), e.id);
      AvoidingIs(s, ROOT, Front(to), e.id);
    }
  }

  lemma RenameFound(s: Blobs, from: Path, to: Path, p: BlobId, t: BlobId, e: Entry)
    requires FindsDir(s, from, to, p, t, e)
    ensures ROOT in s && Renames(s, from, to, Rename(s, from, to))
  {
    TargetFacts(s, from, to, p, t, e);
    assert Consistent(s) && Load(s, from) == Node(p, e) && to != [] && WalkAvoiding(s, ROOT, Front(to), e.id) == At(t) && s[t].kind == DIR && t != e.id;
    hide Walk, WalkAvoiding, Consistent, Load, CanMove, AfterMove, Rename, RenameWithin, RenameAcross, Moved, BlobsMoved, Dangles, FindsDir, LeadsToLost;
    RenameKeeps(s, from, to);
    DanglesIff(s, from, to, p, e);
    RenameSplits(s, from, to, p, t, e);
    var m, o := Move(from, to, p, t, e), Rename(s, from, to);
    if t == p {
      WithinWorks(s, from, to, p, e);
    } else {
      AcrossWorks(s, from, to, p, t, e);
    }
    if !Dangles(s, from, to) && (o.error.None? || MovesLostName(s, from, to)) {
      MoveMoves(s, m);
      MoveBlobs(s, m);
    }
  }

  /** On a well-formed tree, the tree stays well-formed outside the first exception. */
  lemma RenameKeepsValid(s: Blobs, from: Path, to: Path)
    requires Valid(s)
    ensures Valid(Rename(s, from, to).blobs) <==> !Dangles(s, from, to)
  {
    ValidIff(s);
    RootIsThere(s);
    hide Valid, Consistent, Rename, Dangles, Moved, MovesLostName;
    RenameWorks(s, from, to);
    LossIff(s, Rename(s, from, to).blobs);
  }

  /** From a well-formed tree: none has lost its blob exactly if none has lost it now. */
  lemma LossIff(s: Blobs, s': Blobs)
    requires Valid(s) && Consistent(s')
    ensures Valid(s') <==> NoNewLoss(s, s')
  {
    ValidIff(s);
    ValidIff(s');
    hide Valid, Consistent;
  }

  /** The error of a rename, from the paths alone. */
  function RenameError(s: Blobs, from: Path, to: Path): Option<Error>
    requires ROOT in s
  {
    var source, lost := Walk(s, ROOT, from), LeadsToLost(s, from);
    if from == [] then Some(EBUSY)
    else if source.Failed? && !lost then Some(source.error)
    else if source.Missing? then Some(ENOENT)
    else if to == [] then Some(EBUSY)
    else if IsPrefix(from, to) && from != to then
      Some(if lost then EIO else if IsDirAt(s, from) || |to| > |from| + 1 then EINVAL else ENOTDIR)
    else
      var parent, target, within := Walk(s, ROOT, Front(to)), Walk(s, ROOT, to), Front(from) == Front(to);
      if parent.Missing? then Some(ENOENT)
      else if parent.Failed? then Some(parent.error)
      else if s[parent.id].kind != DIR then Some(ENOTDIR)
      else if from == to then None
      else if target.Missing? then (if lost && !within then Some(EIO) else None)
      else if IsDirAt(s, to) && !IsDirAt(s, from) then Some(EISDIR)
      else if !target.At? then Some(if IsDirAt(s, from) && within then ENOTDIR else EIO)
      else if !IsDirAt(s, to) && IsDirAt(s, from) then Some(ENOTDIR)
      else if lost && !within then Some(EIO)
      else if s[target.id].entries != map[] && !within then Some(ENOTEMPTY)
      else None
  }

  /** A rename fails exactly in these cases, with these errors. */
  lemma RenameErrorIs(s: Blobs, from: Path, to: Path)
    requires Consistent(s)
    ensures ROOT in s && Rename(s, from, to).error == RenameError(s, from, to)
  {
    RootIsThere(s);
    LoadFinds(s, from);
    LostIsFound(s, from);
    var r := Load(s, from);
    if r.Node? && to != [] {
      if IsPrefix(from, to) && from != to {
        BelowItselfIsRefused(s, from, to);
      } else {
        TargetErrors(s, from, to, r.parent, r.entry);
      }
    }
    hide Walk, Consistent, LeadsToLost;
  }

  lemma TargetErrors(s: Blobs, from: Path, to: Path, p: BlobId, e: Entry)
    requires Consistent(s) && Load(s, from) == Node(p, e) && to != [] && (IsPrefix(from, to) ==> from == to)
    ensures ROOT in s && Rename(s, from, to).error == RenameError(s, from, to)
  {
    RootIsThere(s);
    LoadFinds(s, from);
    LostIsFound(s, from);
    if e.id in s {
      NotThroughItself(s, from, to, e.id);
    } else {
      NotPassed(s, Front(to), e.id);
    }
    AvoidingIs(s, ROOT, Front(to), e.id);
    var w := Walk(s, ROOT, Front(to));
    if w.At? && s[w.id].kind == DIR {
      OverwriteErrors(s, from, to, p, w.id, e);
    }
    hide Walk, WalkAvoiding, Consistent, Load, LeadsToLost, Passes;
  }

  lemma NotThroughItself(s: Blobs, from: Path, to: Path, b: BlobId)
    requires Consistent(s) && from != [] && to != [] && Walk(s, ROOT, from) == At(b) && (IsPrefix(from, to) ==> from == to)
    ensures !Passes(s, ROOT, Front(to), b) && Walk(s, ROOT, Front(to)) != At(b)
  {
    var q := Front(to);
    forall i | 0 <= i <= |q| ensures Walk(s, ROOT, q[..i]) != At(b) {
      assert to[..i] == q[..i];
      if Walk(s, ROOT, q[..i]) == At(b) {
        UniquePath(s, q[..i], from);
      }
    }
    assert q[..|q|] == q;
  }

  lemma OverwriteErrors(s: Blobs, from: Path, to: Path, p: BlobId, t: BlobId, e: Entry)
    requires FindsDir(s, from, to, p, t, e) && (IsPrefix(from, to) ==> from == to)
    ensures ROOT in s && Rename(s, from, to).error == RenameError(s, from, to)
  {
    TargetFacts(s, from, to, p, t, e);
    hide Consistent, Load, WalkAvoiding, Walk, RenameAcross, RenameWithin, Rename, FindsDir, LeadsToLost;
    if t == p {
      WithinErrorIs(s, from, to, p, e);
    } else {
      AcrossErrorIs(s, from, to, p, t, e);
    }
    RenameIs(s, from, to, p, t, e);
  }

  lemma RenameIs(s: Blobs, from: Path, to: Path, p: BlobId, t: BlobId, e: Entry)
    requires FindsDir(s, from, to, p, t, e) && p in s
    ensures ROOT in s && from != []
    ensures Rename(s, from, to) == if t == p then RenameWithin(s, p, Last(from), Last(to), e) else RenameAcross(s, p, Last(from), t, Last(to), e)
  {
    RootIsThere(s);
    RenameSplits(s, from, to, p, t, e);
    hide Rename, RenameWithin, RenameAcross, Consistent, Walk, WalkAvoiding;
  }

  /** The error, from what is there under the new name. */
  function NameError(s: Blobs, p: BlobId, t: BlobId, n: Name, e: Entry): Option<Error>
    requires t in s
  {
    var lostMoves := if t != p && e.id !in s then Some(EIO) else None;
    if n !in s[t].entries || s[t].entries[n].id == e.id then lostMoves
    else
      var y := s[t].entries[n];
      if y.kind == DIR && e.kind != DIR then Some(EISDIR)
      else if y.id !in s then Some(if t == p && e.kind == DIR then ENOTDIR else EIO)
      else if y.kind != DIR && e.kind == DIR then Some(ENOTDIR)
      else if t != p && s[y.id].entries != map[] then Some(ENOTEMPTY)
      else lostMoves
  }

  lemma WithinErrorIs(s: Blobs, from: Path, to: Path, p: BlobId, e: Entry)
    requires ROOT in s && from != [] && to != [] && TargetIs(s, from, to, p, p, e)
    ensures RenameWithin(s, p, Last(from), Last(to), e).error == NameError(s, p, p, Last(to), e)
  {
    hide Walk, LeadsToLost;
  }

  lemma AcrossErrorIs(s: Blobs, from: Path, to: Path, p: BlobId, t: BlobId, e: Entry)
    requires FindsDir(s, from, to, p, t, e) && ROOT in s && from != [] && TargetIs(s, from, to, p, t, e) && t != p
    ensures RenameAcross(s, p, Last(from), t, Last(to), e).error == NameError(s, p, t, Last(to), e)
  {
    var n, x := Last(to), Overwritten(s, t, Last(to), e.id);
    assert FindsDir(s, from, to, p, t, e);
    hide Consistent, Load, WalkAvoiding, Walk, AttachBlob, CanMove, CanRelist, LeadsToLost, FindsDir;
    if x.Some? ==> x.value in s && x.value != p {
      CheckedMove(s, from, to, p, t, e);
      AttachBlobIs(s, p, Last(from), t, n, e);
    }
  }
}
