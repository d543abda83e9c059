/** The steps of CryDevice, CryNode and CryDir on the blobs of the file system. */
module CryDevice {
  import opened Bytes
  import opened DirectoryTree
  import opened DirectoryLinks
  import opened DirectoryMoves
  import opened DirectoryChanges
  import opened DirectoryRuns

  class CryDevice {
    var blobs: Blobs

    /** The root blob is there and has no parent, as the lookup asserts. */
    ghost predicate HasRoot()
      reads this
    {
      ROOT in blobs && blobs[ROOT].parent == None
    }

    constructor ()
      ensures blobs == Init() && Valid(blobs)
    {
      blobs := Init();
    }

    /** The loop over the path components; `avoid` stands for the callback of a rename. */
    method LoadBlobWithAncestors(path: Path, avoid: Option<BlobId>) returns (w: Walked)
      requires HasRoot()
      ensures w == if avoid.Some? then WalkAvoiding(blobs, ROOT, path, avoid.value) else Walk(blobs, ROOT, path)
    {
      var current := ROOT;
      var i := 0;
      while i < |path|
        invariant 0 <= i <= |path| && current in blobs
        invariant if avoid.Some? then WalkAvoiding(blobs, ROOT, path, avoid.value) == WalkAvoiding(blobs, current, path[i..], avoid.value)
                  else Walk(blobs, ROOT, path) == Walk(blobs, current, path[i..])
      {
        assert path[i..][0] == path[i] && path[i..][1..] == path[i + 1..];
        if avoid == Some(current) {
          return Failed(EINVAL);
        }
        if blobs[current].kind != DIR {
          return Failed(ENOTDIR);
        }
        if path[i] !in blobs[current].entries {
          return Missing;
        }
        var child := blobs[current].entries[path[i]].id;
        if child !in blobs {
          return Failed(EIO);
        }
        if blobs[child].parent != Some(current) {
          return Failed(AssertionFailed);
        }
        current := child;
        i := i + 1;
      }
      w := At(current);
    }

    method LoadNode(path: Path) returns (r: Loaded)
      requires HasRoot()
      ensures r == Load(blobs, path)
    {
      if path == [] {
        return RootNode;
      }
      var w := LoadBlobWithAncestors(path[..|path| - 1], None);
      match w
      case Failed(e) => return LoadError(e);
      case Missing => return NoNode;
      case At(d) =>
        if blobs[d].kind != DIR {
          return LoadError(ENOTDIR);
        }
        if path[|path| - 1] !in blobs[d].entries {
          return NoNode;
        }
        r := Node(d, blobs[d].entries[path[|path| - 1]]);
    }

    /** Exactly the nodes that may be removed are removed, and no other path is touched. */
    method RemoveNode(path: Path) returns (error: Option<Error>)
      requires HasRoot()
      modifies this
      ensures Outcome(blobs, error) == Remove(old(blobs), path)
      ensures old(Consistent(blobs)) ==> Removes(old(blobs), path, Outcome(blobs, error))
    {
      if Consistent(blobs) {
        RemoveWorks(blobs, path);
      }
      hide Removes, Consistent;
      var r := LoadNode(path);
      match r
      case LoadError(e) => return Some(e);
      case NoNode => return Some(ENOENT);
      case RootNode => return Some(if blobs[ROOT].entries != map[] then ENOTEMPTY else EIO);
      case Node(p, e) =>
        if e.kind == DIR {
          if e.id !in blobs {
            return Some(EIO);
          }
          if blobs[e.id].parent != Some(p) || blobs[e.id].kind != DIR {
            return Some(AssertionFailed);
          }
          if blobs[e.id].entries != map[] {
            return Some(ENOTEMPTY);
          }
        }
        error := if e.id in blobs then None else Some(EIO);
        blobs := blobs[p := blobs[p].(entries := WithoutId(blobs[p].entries, e.id))];
        blobs := blobs - {e.id};
    }

    /** The new node is where it should be, and no other path is touched. */
    method CreateNode(dir: Path, name: Name, kind: Kind, id: BlobId) returns (error: Option<Error>)
      requires HasRoot() && id !in blobs
      modifies this
      ensures Outcome(blobs, error) == Create(old(blobs), dir, name, kind, id)
      ensures old(Consistent(blobs) && Unlisted(blobs, id)) ==> Creates(old(blobs), dir, name, kind, id, Outcome(blobs, error))
    {
      if Consistent(blobs) && Unlisted(blobs, id) {
        CreateWorks(blobs, dir, name, kind, id);
      }
      hide Creates, Consistent, Unlisted;
      var r := LoadNode(dir);
      var d := ROOT;
      match r {
        case LoadError(e) => return Some(e);
        case NoNode => return Some(EIO);
        case RootNode =>
        case Node(p, e) =>
          if e.kind != DIR {
            return Some(ENOTDIR);
          }
          if e.id !in blobs {
            return Some(EIO);
          }
          if blobs[e.id].parent != Some(p) || blobs[e.id].kind != DIR {
            return Some(AssertionFailed);
          }
          d := e.id;
      }
      blobs := blobs[id := Blob(kind, Some(d), map[])];
      if name in blobs[d].entries {
        return Some(EEXIST);
      }
      blobs := blobs[d := blobs[d].(entries := blobs[d].entries[name := Entry(id, kind)])];
      error := None;
    }

    /** DirEntryList::rename */
    method RenameChild(p: BlobId, fn: Name, tn: Name, e: Entry) returns (error: Option<Error>)
      requires p in blobs
      modifies this
      ensures Outcome(blobs, error) == RenameWithin(old(blobs), p, fn, tn, e)
    {
      ghost var s := blobs;
      if tn in blobs[p].entries && blobs[p].entries[tn].id != e.id {
        var x := blobs[p].entries[tn];
        var notAllowed := OverwriteError(x.kind, e.kind);
        if notAllowed.Some? {
          return notAllowed;
        }
        if x.id !in blobs {
          return Some(EIO);
        }
        blobs := blobs[p := blobs[p].(entries := (blobs[p].entries - {tn} - {fn})[tn := e])];
        blobs := blobs - {x.id};
        assert (s[p].entries - {tn} - {fn})[tn := e] == (s[p].entries - {fn})[tn := e];
      } else {
        blobs := blobs[p := blobs[p].(entries := (blobs[p].entries - {fn})[tn := e])];
      }
      error := None;
    }

    /** DirEntryList::addOrOverwrite: the blob is deleted first. */
    method AddOrOverwriteChild(t: BlobId, tn: Name, e: Entry) returns (error: Option<Error>)
      requires t in blobs
      modifies this
      ensures var s := old(blobs);
              if tn !in s[t].entries then error == None && blobs == WithEntries(s, t, s[t].entries[tn := e])
              else
                var x := s[t].entries[tn];
                if x.id !in s then error == Some(EIO) && blobs == s
                else if OverwriteError(x.kind, e.kind).Some? then error == OverwriteError(x.kind, e.kind) && blobs == s - {x.id}
                else error == None && blobs == (if x.id == t then s - {t} else WithEntries(s - {x.id}, t, s[t].entries[tn := e]))
    {
      if tn in blobs[t].entries {
        var x := blobs[t].entries[tn];
        if x.id !in blobs {
          return Some(EIO);
        }
        var entries := blobs[t].entries;
        blobs := blobs - {x.id};
        var notAllowed := OverwriteError(x.kind, e.kind);
        if notAllowed.Some? {
          return notAllowed;
        }
        if x.id != t {
          blobs := blobs[t := blobs[t].(entries := entries[tn := e])];
        }
      } else {
        blobs := blobs[t := blobs[t].(entries := blobs[t].entries[tn := e])];
      }
      error := None;
    }

    /** The move across directories. If the entry under the new name is about another blob than
        those that the move needs, the outcome is that of RenameAcross. */
    method MoveChild(p: BlobId, fn: Name, t: BlobId, tn: Name, e: Entry) returns (error: Option<Error>)
      requires p in blobs && t in blobs && p != t
      modifies this
      ensures old(NameIsFree(blobs, p, t, tn, e)) ==> Outcome(blobs, error) == RenameAcross(old(blobs), p, fn, t, tn, e)
    {
      ghost var s := blobs;
      if tn in blobs[t].entries && blobs[t].entries[tn].kind == DIR {
        var x := blobs[t].entries[tn].id;
        if e.kind != DIR {
          return Some(EISDIR);
        }
        if x !in blobs || blobs[x].kind != DIR {
          return Some(EIO);
        }
        if blobs[x].entries != map[] {
          return Some(ENOTEMPTY);
        }
      }
      error := AddOrOverwriteChild(t, tn, e);
      if error.Some? {
        return;
      }
      if p in blobs {
        blobs := blobs[p := blobs[p].(entries := blobs[p].entries - {fn})];
      }
      assert NameIsFree(s, p, t, tn, e) ==> blobs == Relisted(s, p, fn, t, tn, e);
      if e.id !in blobs {
        return Some(EIO);
      }
      if blobs[e.id].parent != Some(p) {
        return Some(AssertionFailed);
      }
      blobs := blobs[e.id := blobs[e.id].(parent := Some(t))];
    }

    /** What was below `from` is below `to`, or the error is the one that the paths call for. */
    method RenameNode(from: Path, to: Path) returns (error: Option<Error>)
      requires HasRoot()
      modifies this
      ensures old(Consistent(blobs)) ==> Renames(old(blobs), from, to, Outcome(blobs, error)) && error == RenameError(old(blobs), from, to)
    {
      if Consistent(blobs) {
        RenameWorks(blobs, from, to);
        RenameErrorIs(blobs, from, to);
      }
      hide Renames, RenameError, Rename, Consistent;
      error := RenameSteps(from, to);
    }

    method RenameSteps(from: Path, to: Path) returns (error: Option<Error>)
      requires HasRoot()
      modifies this
      ensures old(Consistent(blobs)) ==> Outcome(blobs, error) == Rename(old(blobs), from, to)
    {
      var r := LoadNode(from);
      match r
      case LoadError(e) => return Some(e);
      case NoNode => return Some(ENOENT);
      case RootNode => return Some(EBUSY);
      case Node(p, e) =>
        if to == [] {
          return Some(EBUSY);
        }
        var w := LoadBlobWithAncestors(to[..|to| - 1], Some(e.id));
        match w
        case Failed(e') => return Some(e');
        case Missing => return Some(ENOENT);
        case At(t) =>
          if blobs[t].kind != DIR {
            return Some(ENOTDIR);
          }
          if t == e.id {
            return Some(EINVAL);
          }
          if t == p {
            hide Consistent, Walk, WalkAvoiding, Load, RenameWithin;
            error := RenameChild(p, Last(from), Last(to), e);
          } else {
            if Consistent(blobs) {
              AcrossIsFree(blobs, from, to, p, t, e);
            }
            hide Consistent, Walk, WalkAvoiding, Load, RenameAcross, NameIsFree;
            error := MoveChild(p, Last(from), t, Last(to), e);
          }
    }
  }

  /** The entry under the new name is about another blob than those that the move needs. */
  predicate NameIsFree(s: Blobs, p: BlobId, t: BlobId, tn: Name, e: Entry) {
    && p in s && t in s && p != t && e.id != p && e.id != t
    && (tn in s[t].entries ==>
          var y := s[t].entries[tn];
          y.id != e.id && y.id != t && (y.id == p ==> y.kind == DIR && s[p].entries != map[]))
  }

  lemma AcrossIsFree(s: Blobs, from: Path, to: Path, p: BlobId, t: BlobId, e: Entry)
    requires Consistent(s) && Load(s, from) == Node(p, e) && to != [] && WalkAvoiding(s, ROOT, Front(to), e.id) == At(t)
    requires s[t].kind == DIR && t != e.id && t != p
    ensures NameIsFree(s, p, t, Last(to), e)
  {
    AvoidingIs(s, ROOT, Front(to), e.id);
    LoadFinds(s, from);
    hide Consistent, Walk, WalkAvoiding, Load;
    AcrossCanRelist(s, from, to, p, t, e);
  }
}
