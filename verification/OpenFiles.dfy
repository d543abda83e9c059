/** Model of FuseOpenFileList.h and IdList.h. Each method is one critical section of the mutex; a
    call of `load` has two, around its callback, and a `close` that has to wait tries again later.
    So a run of any number of threads is a sequence of calls. */
module OpenFiles {
  import opened Bytes

  type File = nat   // an identity, the address of the object

  const INT_MAX: nat := 0x7FFF_FFFF

  /** The callbacks that are running, each with its descriptor and the file it uses. */
  type Callbacks = multiset<(nat, File)>

  /** Refcounts and files have the same descriptors, a refcount is the number of running callbacks,
      and a running callback uses a file that is still there. */
  ghost predicate Counts(files: map<nat, File>, refcounts: map<nat, nat>, running: Callbacks) {
    && refcounts.Keys == files.Keys
    && (forall d | d in files :: refcounts[d] == running[(d, files[d])])
    && (forall e | e in running :: e.0 in files && files[e.0] == e.1)
  }

  /** The descriptors so far are 1, 2, 3 and so on, up to the counter. */
  ghost predicate Consecutive(handedOut: seq<nat>, counter: nat) {
    |handedOut| == counter && forall i | 0 <= i < |handedOut| :: handedOut[i] == i + 1
  }

  lemma NextDescriptor(handedOut: seq<nat>, counter: nat)
    requires Consecutive(handedOut, counter)
    ensures Consecutive(handedOut + [counter + 1], counter + 1) && counter + 1 !in handedOut
  {
  }

  lemma Opened(files: map<nat, File>, refcounts: map<nat, nat>, running: Callbacks, d: nat, f: File)
    requires Counts(files, refcounts, running) && d !in files
    ensures Counts(files[d := f], refcounts[d := 0], running)
  {
  }

  lemma Started(files: map<nat, File>, refcounts: map<nat, nat>, running: Callbacks, d: nat)
    requires Counts(files, refcounts, running) && d in files
    ensures Counts(files, refcounts[d := refcounts[d] + 1], running + multiset{(d, files[d])})
  {
  }

  lemma Ended(files: map<nat, File>, refcounts: map<nat, nat>, running: Callbacks, d: nat, f: File)
    requires Counts(files, refcounts, running) && (d, f) in running
    ensures d in files && files[d] == f && d in refcounts && refcounts[d] > 0
    ensures Counts(files, refcounts[d := refcounts[d] - 1], running - multiset{(d, f)})
  {
  }

  lemma Closed(files: map<nat, File>, refcounts: map<nat, nat>, running: Callbacks, d: nat)
    requires Counts(files, refcounts, running) && d in files && refcounts[d] == 0
    ensures Counts(files - {d}, refcounts - {d}, running)
    ensures forall f: File :: (d, f) !in running
  {
  }

  class FuseOpenFileList {
    var files: map<nat, File>        // IdList::_entries
    var idCounter: nat               // IdList::_id_counter
    var refcounts: map<nat, nat>
    ghost var running: Callbacks
    ghost var handedOut: seq<nat>    // every descriptor that open has returned

    ghost predicate Valid()
      reads this
    {
      && Counts(files, refcounts, running) && Consecutive(handedOut, idCounter)
      && forall d | d in files :: d in handedOut
    }

    constructor ()
      ensures Valid() && files == map[] && handedOut == [] && running == multiset{}
    {
      files, idCounter, refcounts, running, handedOut := map[], 0, map[], multiset{}, [];
    }

    /** A descriptor is never handed out twice. */
    method Open(file: File) returns (d: nat)
      requires Valid() && idCounter < INT_MAX
      modifies this
      ensures Valid() && d !in old(handedOut) && d == |old(handedOut)| + 1 && handedOut == old(handedOut) + [d]
      ensures files == old(files)[d := file] && running == old(running)
    {
      d := idCounter + 1;
      NextDescriptor(handedOut, idCounter);
      Opened(files, refcounts, running, d, file);
      idCounter := d;
      files := files[d := file];
      refcounts := refcounts[d := 0];
      handedOut := handedOut + [d];
    }

    /** The part of load before the callback. */
    method LoadBegin(d: nat) returns (r: Result<File>)
      requires Valid()
      modifies this
      ensures Valid() && files == old(files) && handedOut == old(handedOut)
      ensures r.Ok? <==> d in files
      ensures r.Ok? ==> r.value == files[d] && running == old(running) + multiset{(d, r.value)}
      ensures r.Err? ==> running == old(running)
    {
      if d !in refcounts {
        return Err("EBADF");
      }
      Started(files, refcounts, running, d);
      hide Consecutive;
      refcounts := refcounts[d := refcounts[d] + 1];
      running := running + multiset{(d, files[d])};
      r := Ok(files[d]);
    }

    /** The part of load after the callback. The refcount is still there. */
    method LoadEnd(d: nat, ghost file: File) returns (r: Result<()>)
      requires Valid() && (d, file) in running
      modifies this
      ensures Valid() && r.Ok? && files == old(files) && handedOut == old(handedOut)
      ensures running == old(running) - multiset{(d, file)}
    {
      Ended(files, refcounts, running, d, file);
      if d !in refcounts {
        return Err("out of range");
      }
      refcounts := refcounts[d := refcounts[d] - 1];
      running := running - multiset{(d, file)};
      r := Ok(());
    }

    /** One attempt of close, with the mutex: it fails on an unknown descriptor, has to wait while
        a callback uses the file, and otherwise removes the file. */
    method TryClose(d: nat) returns (r: Result<bool>)
      requires Valid()
      modifies this
      ensures Valid() && running == old(running) && handedOut == old(handedOut)
      ensures r.Err? <==> d !in old(files)
      ensures r == Ok(true) ==> files == old(files) - {d} && forall f: File :: (d, f) !in running
      ensures r == Ok(false) <==> d in old(files) && (d, old(files)[d]) in running
      ensures r != Ok(true) ==> files == old(files)
    {
      if d !in refcounts {
        return Err("out of range");
      }
      if refcounts[d] != 0 {
        return Ok(false);
      }
      Closed(files, refcounts, running, d);
      files := files - {d};
      refcounts := refcounts - {d};
      r := Ok(true);
    }
  }
}
