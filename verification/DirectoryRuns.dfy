/** What every run of operations keeps, and runs in which the exceptions occur. */
module DirectoryRuns {
  import opened Bytes
  import opened DirectoryTree
  import opened DirectoryLinks
  import opened DirectoryMoves
  import opened DirectoryChanges
  import opened DirectoryReach

  // ----- Runs

  datatype Action =
    | DoCreate(dir: Path, name: Name, kind: Kind, id: BlobId)
    | DoRemove(path: Path)
    | DoRename(from: Path, to: Path)

  /** The id of a new blob is new: there is no such blob, and no name that has lost one. */
  ghost predicate Enabled(s: Blobs, a: Action) {
    ROOT in s && (a.DoCreate? ==> a.id !in s && Unlisted(s, a.id))
  }

  function Do(s: Blobs, a: Action): Outcome
    requires Enabled(s, a)
  {
    match a
    case DoCreate(dir, name, kind, id) => Create(s, dir, name, kind, id)
    case DoRemove(path) => Remove(s, path)
    case DoRename(from, to) => Rename(s, from, to)
  }

  ghost predicate IsRun(s: Blobs, run: seq<Action>)
    decreases |run|
  {
    run == [] || (Enabled(s, run[0]) && IsRun(Do(s, run[0]).blobs, run[1..]))
  }

  function Exec(s: Blobs, run: seq<Action>): Blobs
    requires IsRun(s, run)
    decreases |run|
  {
    if run == [] then s else Exec(Do(s, run[0]).blobs, run[1..])
  }

  /** The step makes a name lose its blob. */
  predicate Loses(s: Blobs, a: Action)
    requires ROOT in s
  {
    a.DoRename? && Dangles(s, a.from, a.to)
  }

  ghost predicate NeverLoses(s: Blobs, run: seq<Action>)
    requires IsRun(s, run)
    decreases |run|
  {
    run == [] || (!Loses(s, run[0]) && NeverLoses(Do(s, run[0]).blobs, run[1..]))
  }

  /** No assertion fails in any step, in particular none about parent pointers. */
  ghost predicate NeverAsserts(s: Blobs, run: seq<Action>)
    requires IsRun(s, run)
    decreases |run|
  {
    run == [] || (Do(s, run[0]).error != Some(AssertionFailed) && NeverAsserts(Do(s, run[0]).blobs, run[1..]))
  }

  /** A new file system. */
  function Init(): Blobs {
    map[ROOT := Blob(DIR, None, map[])]
  }

  /** No assertion about parent pointers fails in the step, and no listed blob is missing. */
  predicate Sound(a: Action, o: Outcome) {
    && o.error != Some(AssertionFailed)
    && (o.error == Some(EIO) ==> a.DoCreate? || a == DoRemove([]))
  }

  /** Every step keeps the tree consistent and fails no assertion. A name loses its blob in a rename
      of a directory over a non-directory of another directory, and in no other step. */
  lemma StepKeepsConsistent(s: Blobs, a: Action)
    requires Consistent(s) && Enabled(s, a)
    ensures Keeps(Do(s, a))
    ensures NoNewLoss(s, Do(s, a).blobs) <==> !Loses(s, a)
  {
    match a
    case DoCreate(dir, name, kind, id) => CreateKeeps(s, dir, name, kind, id);
    case DoRemove(path) => RemoveKeeps(s, path);
    case DoRename(from, to) =>
      RenameKeeps(s, from, to);
      hide Consistent, Dangles, Rename, Walk;
      if Dangles(s, from, to) {
        var b := Walk(s, ROOT, to).id;
        assert IsLost(Rename(s, from, to).blobs, b) && !IsLost(s, b);
      }
  }

  lemma {:induction false} RunKeepsConsistent(s: Blobs, run: seq<Action>)
    requires Consistent(s) && IsRun(s, run)
    ensures Consistent(Exec(s, run)) && NeverAsserts(s, run)
    decreases |run|
  {
    hide Consistent, Do, Loses, NoNewLoss;
    if run != [] {
      StepKeepsConsistent(s, run[0]);
      RunKeepsConsistent(Do(s, run[0]).blobs, run[1..]);
    }
  }

  lemma StepKeepsValid(s: Blobs, a: Action)
    requires Valid(s) && Enabled(s, a)
    ensures Sound(a, Do(s, a))
    ensures Valid(Do(s, a).blobs) <==> !Loses(s, a)
  {
    hide Valid, Consistent, Create, Remove, Rename, Dangles, MeetsLostName;
    ValidIsConsistent(s);
    StepKeepsConsistent(s, a);
    LossIff(s, Do(s, a).blobs);
    match a
    case DoCreate(dir, name, kind, id) =>
    case DoRemove(path) =>
      RemoveWorks(s, path);
      NothingLost(s, path);
    case DoRename(from, to) => RenameMissesNothing(s, from, to);
  }

  /** In a well-formed tree no path meets a name that has lost its blob. */
  lemma NothingLost(s: Blobs, path: Path)
    requires Valid(s)
    ensures ROOT in s && !MeetsLostName(s, ROOT, path) && !LeadsToLost(s, path) && Walk(s, ROOT, path) != Failed(EIO)
  {
    RootIsThere(s);
    ValidIsConsistent(s);
    LookupsAreSound(s, ROOT, path);
    LookupFailsIff(s, ROOT, path);
    LostIsFound(s, path);
    hide Valid, Consistent, Walk, LeadsToLost;
  }

  lemma RenameMissesNothing(s: Blobs, from: Path, to: Path)
    requires Valid(s)
    ensures ROOT in s && Rename(s, from, to).error != Some(EIO)
  {
    hide Valid, Consistent, Rename, Walk, MeetsLostName, LeadsToLost;
    NothingLost(s, from);
    ValidIsConsistent(s);
    RenameErrorIs(s, from, to);
    LookupFailsIff(s, ROOT, from);
    if to != [] {
      NothingLost(s, to);
      NothingLost(s, Front(to));
      LookupFailsIff(s, ROOT, Front(to));
      LookupFailsIff(s, ROOT, to);
      if IsDirAt(s, Front(to)) {
        UnderDir(s, to);
      }
    }
  }

  /** Under a directory a name leads to a blob or nowhere. */
  lemma UnderDir(s: Blobs, path: Path)
    requires Valid(s) && path != [] && IsDirAt(s, Front(path))
    ensures !Walk(s, ROOT, path).Failed?
  {
    LookupsAreSound(s, ROOT, path);
    FrontLast(path);
    WalkSnoc(s, ROOT, Front(path), Last(path));
    hide Valid, Walk;
  }

  lemma {:induction false} RunKeepsValid(s: Blobs, run: seq<Action>)
    requires Valid(s) && IsRun(s, run) && NeverLoses(s, run)
    ensures Valid(Exec(s, run))
    decreases |run|
  {
    hide Valid, Do, Loses;
    if run != [] {
      StepKeepsValid(s, run[0]);
      RunKeepsValid(Do(s, run[0]).blobs, run[1..]);
    }
  }

  /** The blobs below the root form a tree: each is reached by one path only, its parent pointer
      names the directory that lists it, and there is no way back up. */
  ghost predicate IsTree(s: Blobs)
    requires ROOT in s
  {
    && (forall p, q: Path :: Walk(s, ROOT, p).At? && Walk(s, ROOT, p) == Walk(s, ROOT, q) ==> p == q)
    && (forall p: Path :: p != [] && Walk(s, ROOT, p).At? ==>
          Walk(s, ROOT, Front(p)).At? && s[Walk(s, ROOT, p).id].parent == Some(Walk(s, ROOT, Front(p)).id))
    && (forall p, c: Path :: Walk(s, ROOT, p).At? && c != [] ==> Walk(s, Walk(s, ROOT, p).id, c) != Walk(s, ROOT, p))
  }

  lemma ConsistentIsTree(s: Blobs)
    requires Consistent(s)
    ensures IsTree(s)
  {
    assert ROOT in s;
    hide Consistent, Walk;
    forall p, q: Path | Walk(s, ROOT, p).At? && Walk(s, ROOT, p) == Walk(s, ROOT, q) ensures p == q {
      UniquePath(s, p, q);
    }
    forall p: Path | p != [] && Walk(s, ROOT, p).At?
      ensures Walk(s, ROOT, Front(p)).At? && s[Walk(s, ROOT, p).id].parent == Some(Walk(s, ROOT, Front(p)).id)
    {
      LastStep(s, p);
    }
    forall p, c: Path | Walk(s, ROOT, p).At? && c != [] ensures Walk(s, Walk(s, ROOT, p).id, c) != Walk(s, ROOT, p) {
      NoCycle(s, p, c);
    }
  }

  /** After every run the blobs below the root form a tree, no assertion has failed, a lookup fails
      only at a component that is not a directory or at a name that has lost its blob, and nothing
      can be moved below itself. If no step has made a name lose its blob, none has. */
  lemma EveryRunKeepsTree(run: seq<Action>)
    requires IsRun(Init(), run)
    ensures var s := Exec(Init(), run);
            && ROOT in s && IsTree(s) && NeverAsserts(Init(), run)
            && (forall p: Path :: Walk(s, ROOT, p).Failed? ==> Walk(s, ROOT, p).error == if MeetsLostName(s, ROOT, p) then EIO else ENOTDIR)
            && (forall from, to: Path :: from != [] && IsPrefix(from, to) && from != to ==> Rename(s, from, to).blobs == s && Rename(s, from, to).error.Some?)
            && (NeverLoses(Init(), run) ==> Valid(s))
  {
    InitIsValid();
    hide *;
    var s := Exec(Init(), run);
    ValidIsConsistent(Init());
    RunKeepsConsistent(Init(), run);
    RootIsThere(s);
    ConsistentIsTree(s);
    if NeverLoses(Init(), run) {
      RunKeepsValid(Init(), run);
    }
    forall p: Path | Walk(s, ROOT, p).Failed? ensures Walk(s, ROOT, p).error == if MeetsLostName(s, ROOT, p) then EIO else ENOTDIR {
      LookupFailsIff(s, ROOT, p);
    }
    forall from, to: Path | from != [] && IsPrefix(from, to) && from != to ensures Rename(s, from, to).blobs == s && Rename(s, from, to).error.Some? {
      BelowItselfIsRefused(s, from, to);
    }
  }

  lemma InitIsValid()
    ensures Valid(Init())
  {
  }

  // ----- Runs in which the exceptions occur

  /** A directory "a" with a file "f" in it, and the entries of the root. */
  function Example(top: map<Name, Entry>): Blobs {
    map[ROOT := Blob(DIR, None, top), 1 := Blob(DIR, Some(ROOT), map["f" := Entry(2, FILE)]), 2 := Blob(FILE, Some(1), map[])]
  }

  function ExampleOne(): Blobs {
    map[ROOT := Blob(DIR, None, map["a" := Entry(1, DIR)]), 1 := Blob(DIR, Some(ROOT), map[])]
  }

  function ExampleTwo(): Blobs {
    Example(map["a" := Entry(1, DIR)])
  }

  /** And next to it an empty directory "b". */
  function ExampleThree(): Blobs {
    Example(map["a" := Entry(1, DIR), "b" := Entry(3, DIR)])[3 := Blob(DIR, Some(ROOT), map[])]
  }

  lemma CreatesOne()
    ensures Create(Init(), [], "a", DIR, 1) == Outcome(ExampleOne(), None)
  {
    var s := Init();
    assert Load(s, []) == RootNode;
    assert CreateIn(s, ROOT, "a", DIR, 1).blobs == ExampleOne();
  }

  lemma CreatesTwo()
    ensures Create(ExampleOne(), ["a"], "f", FILE, 2) == Outcome(ExampleTwo(), None)
  {
    var s := ExampleOne();
    assert Front(["a"]) == [] && Last(["a"]) == "a";
    assert Load(s, ["a"]) == Node(ROOT, Entry(1, DIR));
    assert CreateIn(s, 1, "f", FILE, 2).blobs == ExampleTwo();
  }

  lemma CreatesThree()
    ensures Create(ExampleTwo(), [], "b", DIR, 3) == Outcome(ExampleThree(), None)
  {
    var s := ExampleTwo();
    assert Load(s, []) == RootNode;
    assert CreateIn(s, ROOT, "b", DIR, 3).blobs == ExampleThree();
  }

  function ExampleRun(): seq<Action> {
    [DoCreate([], "a", DIR, 1), DoCreate(["a"], "f", FILE, 2), DoCreate([], "b", DIR, 3)]
  }

  lemma OneStep(s: Blobs, a: Action, s': Blobs, rest: seq<Action>)
    requires Enabled(s, a) && a.DoCreate? && Do(s, a).blobs == s' && IsRun(s', rest) && NeverLoses(s', rest)
    ensures IsRun(s, [a] + rest) && Exec(s, [a] + rest) == Exec(s', rest) && NeverLoses(s, [a] + rest)
  {
    assert ([a] + rest)[1..] == rest;
  }

  lemma ExampleRunIs()
    ensures IsRun(Init(), ExampleRun()) && Exec(Init(), ExampleRun()) == ExampleThree() && NeverLoses(Init(), ExampleRun())
  {
    var a, b, c := DoCreate([], "a", DIR, 1), DoCreate(["a"], "f", FILE, 2), DoCreate([], "b", DIR, 3);
    CreatesOne();
    CreatesTwo();
    CreatesThree();
    assert Enabled(Init(), a) && Enabled(ExampleOne(), b) && Enabled(ExampleTwo(), c);
    hide Create, Example, ExampleOne, ExampleTwo, ExampleThree, Init;
    OneStep(ExampleTwo(), c, ExampleThree(), []);
    OneStep(ExampleOne(), b, ExampleTwo(), [c] + []);
    OneStep(Init(), a, ExampleOne(), [b] + ([c] + []));
    assert ExampleRun() == [a] + ([b] + ([c] + []));
  }

  lemma ExampleIsValid()
    ensures Valid(ExampleThree())
  {
    ExampleRunIs();
    assert Valid(Init());
    RunKeepsValid(Init(), ExampleRun());
  }

  lemma ExampleWalks()
    ensures var s := ExampleThree();
            Load(s, ["b"]) == Node(ROOT, Entry(3, DIR)) && WalkAvoiding(s, ROOT, [], 3) == At(ROOT) && WalkAvoiding(s, ROOT, ["a"], 3) == At(1)
    ensures Front(["b"]) == [] && Last(["b"]) == "b" && Front(["a"]) == [] && Last(["a"]) == "a"
    ensures Front(["a", "f"]) == ["a"] && Last(["a", "f"]) == "f"
  {
    var s := ExampleThree();
    assert Front(["b"]) == [] && ["a"][1..] == [] && Front(["a", "f"]) == ["a"];
    assert Step(s, ROOT, "a") == At(1);
  }

  /** A directory renamed over a file of another directory. The name of the file is still there, but
      its blob is not. */
  lemma RenameOverFile()
    ensures IsRun(Init(), ExampleRun())
    ensures var o := Rename(Exec(Init(), ExampleRun()), ["b"], ["a", "f"]);
            o.error == Some(ENOTDIR) && ROOT in o.blobs && Walk(o.blobs, ROOT, ["a", "f"]) == Failed(EIO)
  {
    ExampleRunIs();
    ExampleWalks();
    var s := ExampleThree();
    assert RenameAcross(s, ROOT, "b", 1, "f", Entry(3, DIR)) == Outcome(s - {2}, Some(ENOTDIR));
    var o := Rename(s, ["b"], ["a", "f"]);
    assert o == Outcome(s - {2}, Some(ENOTDIR));
    assert ["a", "f"][1..] == ["f"];
    assert Step(o.blobs, ROOT, "a") == At(1) && Step(o.blobs, 1, "f") == Failed(EIO);
  }

  /** A blob whose directory is gone cannot be reached. */
  lemma LostWithItsParent(s: Blobs, x: BlobId)
    requires ROOT in s && x in s && x != ROOT && s[x].parent.Some? && s[x].parent.value !in s
    ensures !Reachable(s, x)
  {
    forall p: Path ensures Walk(s, ROOT, p) != At(x) {
      if p != [] && Walk(s, ROOT, p) == At(x) {
        LastStep(s, p);
      }
    }
  }

  lemma ExampleOverwrites()
    ensures var s := ExampleThree();
            var o := Rename(s, ["b"], ["a"]);
            && o.error.None? && 2 in o.blobs && o.blobs[2].parent == Some(1) && 1 !in o.blobs && !Dangles(s, ["b"], ["a"])
  {
    ExampleWalks();
    var s := ExampleThree();
    assert Rename(s, ["b"], ["a"]) == Outcome(Relisted(s, ROOT, "b", ROOT, "a", Entry(3, DIR)), None);
  }

  /** An empty directory renamed over the directory next to it, which has a file: the rename
      succeeds, and the file cannot be reached any more. */
  lemma RenameLosesFile()
    ensures IsRun(Init(), ExampleRun())
    ensures var o := Rename(Exec(Init(), ExampleRun()), ["b"], ["a"]);
            o.error.None? && Valid(o.blobs) && 2 in o.blobs && !Reachable(o.blobs, 2)
  {
    ExampleRunIs();
    ExampleIsValid();
    var s := ExampleThree();
    var o := Rename(s, ["b"], ["a"]);
    ExampleOverwrites();
    hide Rename, ExampleThree, Dangles, Valid, Consistent;
    RenameKeepsValid(s, ["b"], ["a"]);
    RootIsThere(o.blobs);
    LostWithItsParent(o.blobs, 2);
  }

  /** Creating a name that is taken leaves a blob that cannot be reached. */
  lemma CreateLosesBlob()
    ensures IsRun(Init(), ExampleRun())
    ensures var o := Create(Exec(Init(), ExampleRun()), [], "a", FILE, 4);
            o.error == Some(EEXIST) && ROOT in o.blobs && 4 in o.blobs && !Reachable(o.blobs, 4)
  {
    ExampleRunIs();
    ExampleIsValid();
    var s := ExampleThree();
    assert IsDirAt(s, []) && Walk(s, ROOT, []) == At(ROOT) && "a" in s[ROOT].entries && 4 !in s && Unlisted(s, 4);
    hide ExampleThree, Create, Valid, Consistent, Unlisted;
    ValidIsConsistent(s);
    CreateWorks(s, [], "a", FILE, 4);
    var o := Create(s, [], "a", FILE, 4);
    RootIsThere(o.blobs);
    forall p: Path ensures Walk(o.blobs, ROOT, p) != At(4) {
      assert Walk(o.blobs, ROOT, p) == Walk(s, ROOT, p);
    }
  }
}
