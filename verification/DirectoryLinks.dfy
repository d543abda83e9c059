/** What every operation keeps, on well-formed trees and on those in which names have lost their
    blobs: parent pointers, kinds, and that no blob is listed twice. */
module DirectoryLinks {
  import opened Bytes
  import opened DirectoryTree

  // ----- Paths in a consistent tree

  /** What a listed name leads to in a consistent tree. */
  lemma EntryFound(s: Blobs, path: Path, d: BlobId)
    requires Consistent(s) && path != [] && Walk(s, ROOT, Front(path)) == At(d) && Last(path) in s[d].entries
    ensures var e := s[d].entries[Last(path)];
            && EntryFits(s, d, e) && e.id != d && e.id != ROOT && s[d].kind == DIR
            && Walk(s, ROOT, path) == if e.id in s then At(e.id) else Failed(EIO)
  {
    var e := s[d].entries[Last(path)];
    assert EntryFits(s, d, e);
    FrontLast(path);
    WalkSnoc(s, ROOT, Front(path), Last(path));
    if e.id == d {
      UniquePath(s, path, Front(path));
    }
  }

  /** What Load finds in a consistent tree. */
  lemma LoadFinds(s: Blobs, path: Path)
    requires Consistent(s)
    ensures var r, w := Load(s, path), Walk(s, ROOT, path);
            && (r.RootNode? <==> path == [])
            && (r.Node? ==> && EntryFits(s, r.parent, r.entry) && r.entry.id != r.parent && r.entry.id != ROOT
                            && w == (if r.entry.id in s then At(r.entry.id) else Failed(EIO)))
            && (r.NoNode? ==> w.Missing?) && (r.LoadError? ==> w == Failed(r.error) && (r.error == ENOTDIR || r.error == EIO))
  {
    if path != [] {
      FrontLast(path);
      WalkSnoc(s, ROOT, Front(path), Last(path));
      LookupFailsIff(s, ROOT, Front(path));
      var r := Load(s, path);
      if r.Node? {
        EntryFound(s, path, r.parent);
      }
      hide MeetsLostName, Consistent;
    }
  }

  lemma PrefixOfFront(from: Path, to: Path)
    requires to != []
    ensures IsPrefix(from, to) && from != to ==> IsPrefix(from, Front(to))
  {
  }

  predicate IsDirAt(s: Blobs, path: Path)
    requires ROOT in s
  {
    var w := Walk(s, ROOT, path);
    w.At? && s[w.id].kind == DIR
  }

  predicate IsNonDirAt(s: Blobs, path: Path)
    requires ROOT in s
  {
    var w := Walk(s, ROOT, path);
    w.At? && s[w.id].kind != DIR
  }

  /** A directory is renamed over something else in another directory. */
  predicate Dangles(s: Blobs, from: Path, to: Path)
    requires ROOT in s
  {
    && from != [] && to != [] && Front(from) != Front(to)
    && IsDirAt(s, from) && IsNonDirAt(s, to) && !IsPrefix(from, to)
  }

  /** The exception, in terms of what the rename finds. */
  ghost predicate FindsNonDir(s: Blobs, to: Path, p: BlobId, e: Entry)
    requires ROOT in s && to != []
  {
    var w := WalkAvoiding(s, ROOT, Front(to), e.id);
    && w.At? && s[w.id].kind == DIR && w.id != e.id && w.id != p
    && e.kind == DIR && Last(to) in s[w.id].entries && s[w.id].entries[Last(to)].kind != DIR && s[w.id].entries[Last(to)].id in s
  }

  lemma DanglesIff(s: Blobs, from: Path, to: Path, p: BlobId, e: Entry)
    requires Consistent(s) && Load(s, from) == Node(p, e) && to != []
    ensures Dangles(s, from, to) <==> FindsNonDir(s, to, p, e)
  {
    LoadFinds(s, from);
    hide Consistent, Load, Walk, WalkAvoiding, Step;
    if Dangles(s, from, to) {
      DanglesFinds(s, from, to, p, e);
    }
    if FindsNonDir(s, to, p, e) {
      FindsDangles(s, from, to, p, e);
    }
  }

  lemma NeverThrough(s: Blobs, from: Path, to: Path, b: BlobId, i: nat)
    requires Consistent(s) && to != [] && Walk(s, ROOT, from) == At(b) && !IsPrefix(from, to) && i < |to|
    ensures Walk(s, ROOT, Front(to)[..i]) != At(b)
  {
    var q := Front(to);
    assert to[..i] == q[..i];
    if Walk(s, ROOT, q[..i]) == At(b) {
      UniquePath(s, q[..i], from);
    }
  }

  lemma DanglesFinds(s: Blobs, from: Path, to: Path, p: BlobId, e: Entry)
    requires Consistent(s) && Load(s, from) == Node(p, e) && EntryFits(s, p, e) && Dangles(s, from, to)
    requires Walk(s, ROOT, from) == if e.id in s then At(e.id) else Failed(EIO)
    ensures FindsNonDir(s, to, p, e)
  {
    var q := Front(to);
    LastStep(s, to);
    var t := Walk(s, ROOT, q).id;
    EntryFound(s, to, t);
    hide Consistent, Load, WalkAvoiding, Step, Walk;
    AvoidingIs(s, ROOT, q, e.id);
    if t == p {
      UniquePath(s, q, Front(from));
    }
    forall i | 0 <= i <= |q| ensures Walk(s, ROOT, q[..i]) != At(e.id) {
      NeverThrough(s, from, to, e.id, i);
    }
    assert q[..|q|] == q;
  }

  lemma FindsDangles(s: Blobs, from: Path, to: Path, p: BlobId, e: Entry)
    requires Consistent(s) && Load(s, from) == Node(p, e) && EntryFits(s, p, e) && to != []
    requires Walk(s, ROOT, from) == if e.id in s then At(e.id) else Failed(EIO)
    requires FindsNonDir(s, to, p, e)
    ensures Dangles(s, from, to)
  {
    var q := Front(to);
    AvoidingIs(s, ROOT, q, e.id);
    var t := Walk(s, ROOT, q).id;
    EntryFound(s, to, t);
    PrefixOfFront(from, to);
    assert |from| == |q| ==> q[..|from|] == q;
    hide Consistent, Load, Step;
  }

  /** Nothing can be moved below itself, in any tree that a run can lead to. */
  lemma BelowItselfIsRefused(s: Blobs, from: Path, to: Path)
    requires Consistent(s) && from != [] && IsPrefix(from, to) && from != to
    ensures var o, w := Rename(s, from, to), Walk(s, ROOT, from);
            && o.blobs == s && o.error.Some? && o.error != Some(AssertionFailed)
            && (w.At? ==> o.error == Some(if IsDirAt(s, from) || |to| > |from| + 1 then EINVAL else ENOTDIR))
            && (w.Failed? ==> o.error == Some(w.error)) && (w.Missing? ==> o.error == Some(ENOENT))
  {
    LoadFinds(s, from);
    PrefixOfFront(from, to);
    var q, r, w := Front(to), Load(s, from), Walk(s, ROOT, from);
    assert q == from + q[|from|..];
    WalkAppend(s, ROOT, from, q[|from|..]);
    if r.Node? && !w.At? {
      NotPassed(s, q, r.entry.id);
      AvoidingIs(s, ROOT, q, r.entry.id);
    }
    if r.Node? && w.At? {
      ThroughItself(s, from, q, r.entry.id);
    }
    hide Walk, WalkAvoiding, Consistent;
  }

  lemma NotPassed(s: Blobs, q: Path, b: BlobId)
    requires ROOT in s && b !in s
    ensures !Passes(s, ROOT, q, b)
  {
  }

  lemma ThroughItself(s: Blobs, from: Path, q: Path, b: BlobId)
    requires Consistent(s) && Walk(s, ROOT, from) == At(b) && IsPrefix(from, q)
    ensures WalkAvoiding(s, ROOT, q, b) == if q == from then At(b) else Failed(EINVAL)
  {
    AvoidingIs(s, ROOT, q, b);
    if q == from {
      forall i | 0 <= i < |q| ensures Walk(s, ROOT, q[..i]) != At(b) {
        if Walk(s, ROOT, q[..i]) == At(b) {
          UniquePath(s, q[..i], from);
        }
      }
    } else {
      assert Walk(s, ROOT, q[..|from|]) == At(b);
    }
    hide Walk, WalkAvoiding, Consistent;
  }

  ghost predicate Unlisted(s: Blobs, b: BlobId) {
    forall d, n :: !Lists(s, d, n, b)
  }

  /** No name has lost its blob that had not lost it before. */
  ghost predicate NoNewLoss(s: Blobs, s': Blobs) {
    forall b :: IsLost(s', b) ==> IsLost(s, b)
  }

  // ----- Single changes

  lemma DropEntry(s: Blobs, p: BlobId, n: Name)
    requires Consistent(s) && p in s
    ensures var s' := WithEntries(s, p, s[p].entries - {n});
            && Consistent(s') && NoNewLoss(s, s')
            && forall d, m, b :: Lists(s', d, m, b) <==> Lists(s, d, m, b) && !(d == p && m == n)
  {
    var s' := WithEntries(s, p, s[p].entries - {n});
    forall d, m | d in s' && m in s'[d].entries ensures EntryFits(s', d, s'[d].entries[m]) {
      assert EntryFits(s, d, s[d].entries[m]);
    }
    assert forall d, m, b :: Lists(s', d, m, b) <==> Lists(s, d, m, b) && !(d == p && m == n);
  }

  /** A blob that is not listed, or no directory. */
  lemma DropBlob(s: Blobs, x: BlobId)
    requires Consistent(s) && x in s && x != ROOT && (Unlisted(s, x) || s[x].kind != DIR)
    ensures Consistent(s - {x}) && (Unlisted(s, x) ==> NoNewLoss(s, s - {x}))
    ensures forall d, m, b :: Lists(s - {x}, d, m, b) <==> Lists(s, d, m, b) && d != x
  {
    var s' := s - {x};
    assert forall d, m, b :: Lists(s', d, m, b) <==> Lists(s, d, m, b) && d != x;
    forall d, m | d in s' && m in s'[d].entries ensures EntryFits(s', d, s'[d].entries[m]) {
      assert EntryFits(s, d, s[d].entries[m]) && Lists(s, d, m, s[d].entries[m].id);
    }
  }

  lemma AddBlob(s: Blobs, b: BlobId, kind: Kind, parent: Option<BlobId>)
    requires Consistent(s) && b !in s && Unlisted(s, b)
    ensures var s' := s[b := Blob(kind, parent, map[])];
            && Consistent(s') && NoNewLoss(s, s')
            && forall d, m, c :: Lists(s', d, m, c) <==> Lists(s, d, m, c)
  {
    var s' := s[b := Blob(kind, parent, map[])];
    assert forall d, m, c :: Lists(s', d, m, c) <==> Lists(s, d, m, c);
    forall d, m | d in s' && m in s'[d].entries ensures EntryFits(s', d, s'[d].entries[m]) {
      assert EntryFits(s, d, s[d].entries[m]) && Lists(s, d, m, s[d].entries[m].id);
    }
  }

  lemma AddEntry(s: Blobs, t: BlobId, n: Name, e: Entry)
    requires Consistent(s) && t in s && s[t].kind == DIR && n !in s[t].entries && Unlisted(s, e.id) && EntryFits(s, t, e)
    ensures var s' := WithEntries(s, t, s[t].entries[n := e]);
            && Consistent(s')
            && forall d, m, b :: Lists(s', d, m, b) <==> Lists(s, d, m, b) || (d == t && m == n && b == e.id)
  {
    var s' := WithEntries(s, t, s[t].entries[n := e]);
    assert forall d, m, b :: Lists(s', d, m, b) <==> Lists(s, d, m, b) || (d == t && m == n && b == e.id);
    forall d, m | d in s' && m in s'[d].entries ensures EntryFits(s', d, s'[d].entries[m]) {
      if !(d == t && m == n) {
        assert EntryFits(s, d, s[d].entries[m]);
      }
    }
  }

  lemma Reparent(s: Blobs, b: BlobId, t: BlobId)
    requires Consistent(s) && b in s && b != ROOT && Unlisted(s, b)
    ensures var s' := WithParent(s, b, t);
            Consistent(s') && forall d, m, c :: Lists(s', d, m, c) <==> Lists(s, d, m, c)
  {
    var s' := WithParent(s, b, t);
    assert forall d, m, c :: Lists(s', d, m, c) <==> Lists(s, d, m, c);
    forall d, m | d in s' && m in s'[d].entries ensures EntryFits(s', d, s'[d].entries[m]) {
      assert EntryFits(s, d, s[d].entries[m]) && Lists(s, d, m, s[d].entries[m].id);
    }
  }

  // ----- Creating and removing

  /** What every operation keeps, and which assertion never fails. */
  ghost predicate Keeps(o: Outcome) {
    Consistent(o.blobs) && o.error != Some(AssertionFailed)
  }

  lemma CreateInKeeps(s: Blobs, d: BlobId, n: Name, kind: Kind, b: BlobId)
    requires Consistent(s) && d in s && s[d].kind == DIR && b !in s && Unlisted(s, b)
    ensures Keeps(CreateIn(s, d, n, kind, b)) && NoNewLoss(s, CreateIn(s, d, n, kind, b).blobs)
  {
    var s' := s[b := Blob(kind, Some(d), map[])];
    AddBlob(s, b, kind, Some(d));
    if n !in s[d].entries {
      AddEntry(s', d, n, Entry(b, kind));
      hide Consistent;
    }
  }

  lemma CreateKeeps(s: Blobs, dir: Path, n: Name, kind: Kind, b: BlobId)
    requires Consistent(s) && b !in s && Unlisted(s, b)
    ensures Keeps(Create(s, dir, n, kind, b)) && NoNewLoss(s, Create(s, dir, n, kind, b).blobs)
  {
    LoadFinds(s, dir);
    var r := Load(s, dir);
    var d := if r.Node? then r.entry.id else ROOT;
    assert ROOT in s && s[ROOT].kind == DIR;
    hide Consistent, Load, Walk, Unlisted, IsLost, CreateIn;
    if d in s && s[d].kind == DIR {
      CreateInKeeps(s, d, n, kind, b);
    }
  }

  lemma UnlinkedIs(s: Blobs, p: BlobId, n: Name)
    requires Consistent(s) && p in s && n in s[p].entries
    ensures WithoutId(s[p].entries, s[p].entries[n].id) == s[p].entries - {n}
  {
    forall m | m in s[p].entries && s[p].entries[m].id == s[p].entries[n].id ensures m == n {
      assert Lists(s, p, m, s[p].entries[n].id) && Lists(s, p, n, s[p].entries[n].id);
    }
  }

  lemma UnlinkedKeeps(s: Blobs, p: BlobId, n: Name)
    requires Consistent(s) && p in s && n in s[p].entries && s[p].entries[n].id != ROOT
    ensures var s' := Unlinked(s, p, s[p].entries[n].id); Consistent(s') && NoNewLoss(s, s')
  {
    var b, s1 := s[p].entries[n].id, WithEntries(s, p, s[p].entries - {n});
    assert Lists(s, p, n, b);
    UnlinkedIs(s, p, n);
    DropEntry(s, p, n);
    assert Unlisted(s1, b);
    hide Consistent;
    if b in s1 {
      DropBlob(s1, b);
    } else {
      assert s1 - {b} == s1;
    }
  }

  lemma RemoveKeeps(s: Blobs, path: Path)
    requires Consistent(s)
    ensures Keeps(Remove(s, path)) && NoNewLoss(s, Remove(s, path).blobs)
  {
    LoadFinds(s, path);
    assert ROOT in s;
    hide Consistent, Load, Walk, IsLost, Unlinked;
    var r := Load(s, path);
    if r.Node? {
      UnlinkedKeeps(s, r.parent, Last(path));
    }
  }

  // ----- Renaming

  /** The entry `e` of `p` can be listed in `t` under the name `tn`. */
  ghost predicate CanRelist(s: Blobs, p: BlobId, fn: Name, t: BlobId, tn: Name, e: Entry) {
    && Consistent(s) && p in s && t in s && s[t].kind == DIR && fn in s[p].entries && s[p].entries[fn] == e
    && e.id != ROOT && e.id != p && e.id != t
    && var x := Overwritten(s, t, tn, e.id);
    x.Some? ==> x.value in s && x.value != ROOT && x.value != t && x.value != p
  }

  /** The entry is listed there, and its blob points there. */
  function Attached(s: Blobs, p: BlobId, fn: Name, t: BlobId, tn: Name, e: Entry): Blobs
    requires p in s && t in s
  {
    var s' := Relisted(s, p, fn, t, tn, e);
    if e.id in s' then WithParent(s', e.id, t) else s'
  }

  /** Without the entry and without what is overwritten. */
  function Detached(s: Blobs, p: BlobId, fn: Name, t: BlobId, tn: Name, e: Entry): Blobs
    requires p in s && t in s
  {
    var s1 := WithEntries(s, p, s[p].entries - {fn});
    var s2 := WithEntries(s1, t, s1[t].entries - {tn});
    var x := Overwritten(s, t, tn, e.id);
    if x.Some? then s2 - {x.value} else s2
  }

  lemma DetachKeeps(s: Blobs, p: BlobId, fn: Name, t: BlobId, tn: Name, e: Entry)
    requires CanRelist(s, p, fn, t, tn, e)
    ensures var s' := Detached(s, p, fn, t, tn, e);
            && Consistent(s') && NoNewLoss(s, s') && Unlisted(s', e.id)
            && t in s' && s'[t].kind == DIR && tn !in s'[t].entries && (e.id in s' <==> e.id in s) && (e.id in s ==> s'[e.id].kind == e.kind)
  {
    var s1 := WithEntries(s, p, s[p].entries - {fn});
    var s2 := WithEntries(s1, t, s1[t].entries - {tn});
    var x := Overwritten(s, t, tn, e.id);
    assert EntryFits(s, p, e) && Lists(s, p, fn, e.id);
    assert x.Some? ==> Lists(s, t, tn, x.value);
    DropEntry(s, p, fn);
    DropEntry(s1, t, tn);
    assert Unlisted(s2, e.id);
    if x.Some? {
      assert Unlisted(s2, x.value);
      hide Consistent, IsLost;
      DropBlob(s2, x.value);
    }
    hide Consistent, IsLost;
  }

  lemma AttachIs(s: Blobs, p: BlobId, fn: Name, t: BlobId, tn: Name, e: Entry)
    requires CanRelist(s, p, fn, t, tn, e)
    ensures var s1 := Detached(s, p, fn, t, tn, e);
            var s2 := if e.id in s1 then WithParent(s1, e.id, t) else s1;
            t in s2 && Attached(s, p, fn, t, tn, e) == WithEntries(s2, t, s2[t].entries[tn := e])
  {
    hide Consistent;
    var m := WithEntries(s, p, s[p].entries - {fn})[t].entries;
    assert (m - {tn})[tn := e] == m[tn := e];
    var s1 := Detached(s, p, fn, t, tn, e);
    var s2 := if e.id in s1 then WithParent(s1, e.id, t) else s1;
    assert s1[t].entries == m - {tn};
    var a, b := Attached(s, p, fn, t, tn, e), WithEntries(s2, t, s2[t].entries[tn := e]);
    assert a.Keys == b.Keys;
    forall z | z in a ensures a[z] == b[z] {
    }
  }

  lemma AttachKeeps(s: Blobs, p: BlobId, fn: Name, t: BlobId, tn: Name, e: Entry)
    requires CanRelist(s, p, fn, t, tn, e)
    ensures var s' := Attached(s, p, fn, t, tn, e); Consistent(s') && NoNewLoss(s, s')
  {
    var s1 := Detached(s, p, fn, t, tn, e);
    var s2 := if e.id in s1 then WithParent(s1, e.id, t) else s1;
    assert EntryFits(s, p, e) && Lists(s, p, fn, e.id);
    AttachIs(s, p, fn, t, tn, e);
    DetachKeeps(s, p, fn, t, tn, e);
    hide Attached, Detached, Consistent, CanRelist;
    if e.id in s1 {
      Reparent(s1, e.id, t);
    }
    AddEntry(s2, t, tn, e);
  }

  /** Within a directory the parent stays. */
  lemma WithinAttaches(s: Blobs, p: BlobId, fn: Name, tn: Name, e: Entry)
    requires CanRelist(s, p, fn, p, tn, e)
    ensures Relisted(s, p, fn, p, tn, e) == Attached(s, p, fn, p, tn, e)
  {
    assert EntryFits(s, p, e);
    hide Consistent;
  }

  lemma WithinKeeps(s: Blobs, from: Path, to: Path, p: BlobId, e: Entry)
    requires Consistent(s) && Load(s, from) == Node(p, e) && to != [] && Walk(s, ROOT, Front(to)) == At(p)
    ensures var o := RenameWithin(s, p, Last(from), Last(to), e); Keeps(o) && NoNewLoss(s, o.blobs)
  {
    LoadFinds(s, from);
    if Last(to) in s[p].entries {
      EntryFound(s, to, p);
    }
    hide Consistent, Load, Walk, IsLost, Relisted, Attached;
    if RenameWithin(s, p, Last(from), Last(to), e).error.None? {
      WithinAttaches(s, p, Last(from), Last(to), e);
      AttachKeeps(s, p, Last(from), p, Last(to), e);
    }
  }

  lemma AttachBlobIs(s: Blobs, p: BlobId, fn: Name, t: BlobId, tn: Name, e: Entry)
    requires CanRelist(s, p, fn, t, tn, e)
    ensures AttachBlob(s, p, fn, t, tn, e) == Outcome(Attached(s, p, fn, t, tn, e), if e.id in s then None else Some(EIO))
  {
    assert EntryFits(s, p, e);
    hide Consistent;
  }

  /** The entry that a rename to another directory overwrites. */
  lemma AcrossCanRelist(s: Blobs, from: Path, to: Path, p: BlobId, t: BlobId, e: Entry)
    requires Consistent(s) && Load(s, from) == Node(p, e) && to != [] && Walk(s, ROOT, Front(to)) == At(t) && s[t].kind == DIR && t != e.id && t != p
    ensures var n := Last(to);
            n in s[t].entries ==>
              var y := s[t].entries[n];
              && EntryFits(s, t, y) && y.id != t && y.id != ROOT && y.id != e.id && Overwritten(s, t, n, e.id) == Some(y.id)
              && (y.id == p ==> y.kind == DIR && s[p].entries != map[])
    ensures Last(to) in s[t].entries ==> Walk(s, ROOT, to) == if s[t].entries[Last(to)].id in s then At(s[t].entries[Last(to)].id) else Failed(EIO)
    ensures var x := Overwritten(s, t, Last(to), e.id);
            (x.Some? ==> x.value in s && x.value != p) ==> CanRelist(s, p, Last(from), t, Last(to), e)
  {
    LoadFinds(s, from);
    if Last(to) in s[t].entries {
      EntryFound(s, to, t);
      assert Lists(s, p, Last(from), e.id) && Lists(s, t, Last(to), s[t].entries[Last(to)].id);
    }
    hide Load, Walk;
  }

  lemma AcrossKeeps(s: Blobs, from: Path, to: Path, p: BlobId, t: BlobId, e: Entry)
    requires Consistent(s) && Load(s, from) == Node(p, e) && to != [] && Walk(s, ROOT, Front(to)) == At(t) && s[t].kind == DIR && t != e.id && t != p
    ensures var o, n := RenameAcross(s, p, Last(from), t, Last(to), e), Last(to);
            && Keeps(o)
            && if e.kind == DIR && n in s[t].entries && s[t].entries[n].kind != DIR && s[t].entries[n].id in s
               then o == Outcome(s - {s[t].entries[n].id}, Some(ENOTDIR)) && IsLost(o.blobs, s[t].entries[n].id)
               else NoNewLoss(s, o.blobs)
  {
    AcrossCanRelist(s, from, to, p, t, e);
    var n, x, o := Last(to), Overwritten(s, t, Last(to), e.id), RenameAcross(s, p, Last(from), t, Last(to), e);
    hide Load, Walk, Consistent, AttachBlob, CanRelist;
    if e.kind == DIR && n in s[t].entries && s[t].entries[n].kind != DIR && s[t].entries[n].id in s {
      DropBlob(s, x.value);
      assert Lists(s, t, n, x.value);
    } else if o == AttachBlob(s, p, Last(from), t, n, e) && (x.Some? ==> x.value in s && x.value != p) {
      AttachBlobIs(s, p, Last(from), t, n, e);
      AttachKeeps(s, p, Last(from), t, n, e);
    }
  }

  /** Every rename keeps the tree consistent. It makes a name lose its blob exactly if it is one of
      a directory over a non-directory of another directory. */
  lemma RenameKeeps(s: Blobs, from: Path, to: Path)
    requires Consistent(s)
    ensures var o := Rename(s, from, to);
            && Keeps(o)
            && if Dangles(s, from, to) then Walk(s, ROOT, to).At? && IsLost(o.blobs, Walk(s, ROOT, to).id) else NoNewLoss(s, o.blobs)
  {
    LoadFinds(s, from);
    var r := Load(s, from);
    if r.Node? && to != [] {
      var p, e := r.parent, r.entry;
      var w := WalkAvoiding(s, ROOT, Front(to), e.id);
      AvoidingIs(s, ROOT, Front(to), e.id);
      LookupFailsIff(s, ROOT, Front(to));
      DanglesIff(s, from, to, p, e);
      assert ROOT in s;
      hide Load, Walk, WalkAvoiding, Consistent, IsLost, MeetsLostName, RenameWithin, RenameAcross, Dangles;
      if w.At? && s[w.id].kind == DIR && w.id != e.id {
        if w.id == p {
          WithinKeeps(s, from, to, p, e);
        } else {
          AcrossKeeps(s, from, to, p, w.id, e);
          AcrossCanRelist(s, from, to, p, w.id, e);
        }
      }
    }
  }
}
