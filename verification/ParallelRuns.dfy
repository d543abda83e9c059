/** ParallelAccessStore with any number of threads. A step is one critical section of the mutex, or
    one access without it: `remove` of a key looks for it before it takes the mutex, and waits
    without the mutex until the resource has been handed over. A thread that owns several
    references counts as several threads here. */
module ParallelRuns {
  import opened Bytes
  import opened Holders
  import opened ParallelAccess

  datatype Pc =
    | Idle
    | Using(key: Key, resource: Resource)
    | Promised(key: Key, resource: Resource)   // remove of a reference, before the reference is destroyed
    | Looked(key: Key)                         // remove of a key that was found open
    | Absent(key: Key)                         // remove of a key that was not found open
    | Waiting(key: Key)                        // remove, waiting for the resource
    | Taken(key: Key, resource: Resource)      // remove, with the resource
  {
    function Held(): Option<(Key, Resource)> {
      if Using? || Promised? then Some((key, resource)) else None
    }

    /** The promise of the key belongs to this remove. */
    predicate Removes(k: Key) {
      (Promised? || Waiting? || Taken?) && key == k
    }
  }

  datatype Action =
    | Load(key: Key)
    | Add(key: Key)
    | LoadOrAdd(key: Key)
    | Release
    | RemoveReference
    | DestroyReference
    | RemoveKey(key: Key)
    | AddPromise
    | RemoveAbsent
    | Take
    | Finish

  /** The blocks of the base store are `base`. Resources are numbered as they are made, each for the
      key that `owner` says. A failing assertion and a second value for one promise are faults,
      which end the run. */
  datatype State = State(open: Open, promises: Promises, refs: References, base: set<Key>, owner: seq<Key>, pcs: map<Tid, Pc>, fault: bool) {
    function At(t: Tid): Pc {
      if t in pcs then pcs[t] else Idle
    }

    function Goes(t: Tid, pc: Pc): State {
      this.(pcs := pcs[t := pc])
    }

    /** A reference to the open resource, or to a new one. */
    function Acquires(t: Tid, k: Key): State {
      var r := if k in open then open[k].resource else |owner|;
      this.(open := Referenced(open, k, r), refs := refs + multiset{(k, r)},
            owner := if k in open then owner else owner + [k], pcs := pcs[t := Using(k, r)])
    }

    /** The critical section of release. */
    function Releases(t: Tid, k: Key, r: Resource, pc: Pc): State {
      if k !in open || open[k].refCount == 0 then this.(fault := true)
      else if open[k].refCount > 1 then Without(t, k, r, pc, promises)
      else if k !in promises then Without(t, k, r, pc, promises)
      else if promises[k].None? then Without(t, k, r, pc, promises[k := Some(open[k].resource)])
      else this.(fault := true)
    }

    function Without(t: Tid, k: Key, r: Resource, pc: Pc, promises': Promises): State
      requires k in open && open[k].refCount > 0
    {
      this.(open := Released(open, k), refs := refs - multiset{(k, r)}, promises := promises', pcs := pcs[t := pc])
    }

    function Promises(t: Tid, k: Key, pc: Pc): State {
      if k in promises then this.(fault := true) else this.(promises := promises[k := None], pcs := pcs[t := pc])
    }
  }

  ghost predicate Init(s: State) {
    s == State(map[], map[], multiset{}, s.base, [], map[], false)
  }

  predicate Enabled(s: State, t: Tid, a: Action) {
    && !s.fault
    && var pc := s.At(t);
    match a
    case Load(_) | Add(_) | LoadOrAdd(_) | RemoveKey(_) => pc.Idle?
    case Release | RemoveReference => pc.Using?
    case DestroyReference => pc.Promised?
    case AddPromise => pc.Looked?
    case RemoveAbsent => pc.Absent?
    case Take => pc.Waiting? && pc.key in s.promises && s.promises[pc.key].Some?
    case Finish => pc.Taken?
  }

  function Do(s: State, t: Tid, a: Action): State
    requires Enabled(s, t, a)
  {
    var pc := s.At(t);
    match a
    case Load(k) => if k in s.open || k in s.base then s.Acquires(t, k) else s
    case Add(k) => if k in s.open then s.(fault := true) else s.(base := s.base + {k}).Acquires(t, k)
    case LoadOrAdd(k) => (if k in s.open then s else s.(base := s.base + {k})).Acquires(t, k)
    case Release => s.Releases(t, pc.key, pc.resource, Idle)
    case RemoveReference => s.Promises(t, pc.key, Promised(pc.key, pc.resource))
    case DestroyReference => s.Releases(t, pc.key, pc.resource, Waiting(pc.key))
    case RemoveKey(k) => s.Goes(t, if k in s.open then Looked(k) else Absent(k))
    case AddPromise => s.Promises(t, pc.key, Waiting(pc.key))
    case RemoveAbsent => s.(base := s.base - {pc.key}).Goes(t, Idle)
    case Take => s.Goes(t, Taken(pc.key, s.promises[pc.key].value))
    case Finish => s.(promises := s.promises - {pc.key}, base := s.base - {pc.key}).Goes(t, Idle)
  }

  type Run = seq<(Tid, Action)>

  predicate IsRun(s: State, run: Run)
    decreases |run|
  {
    run == [] || (Enabled(s, run[0].0, run[0].1) && IsRun(Do(s, run[0].0, run[0].1), run[1..]))
  }

  function Exec(s: State, run: Run): State
    requires IsRun(s, run)
    decreases |run|
  {
    if run == [] then s else Exec(Do(s, run[0].0, run[0].1), run[1..])
  }

  // ----- What every step keeps

  ghost function Held(pcs: map<Tid, Pc>): map<Tid, Option<(Key, Resource)>> {
    map t | t in pcs :: pcs[t].Held()
  }

  /** The references are those that the threads hold, and the counts are right. */
  ghost predicate RefsOk(s: State) {
    Counts(s.open, s.refs) && Tally(Held(s.pcs), s.refs)
  }

  /** What the promise of its key is to a thread. */
  ghost predicate PromiseOk(promises: Promises, pc: Pc) {
    && (pc.Promised? ==> pc.key in promises && promises[pc.key].None?)
    && (pc.Waiting? ==> pc.key in promises)
    && (pc.Taken? ==> pc.key in promises && promises[pc.key] == Some(pc.resource))
  }

  /** Each promise belongs to exactly one remove. */
  ghost predicate OneRemover(pcs: map<Tid, Pc>, promises: Promises) {
    && (forall t | t in pcs :: PromiseOk(promises, pcs[t]))
    && (forall t, t', k | t in pcs && t' in pcs && pcs[t].Removes(k) && pcs[t'].Removes(k) :: t == t')
    && (forall k | k in promises :: exists t :: t in pcs && pcs[t].Removes(k))
  }

  /** Resources belong to their keys, and one that has been handed over is older than an open one. */
  ghost predicate Owned(open: Open, promises: Promises, owner: seq<Key>) {
    && (forall k | k in open :: open[k].resource < |owner| && owner[open[k].resource] == k)
    && (forall k | k in promises && promises[k].Some? :: promises[k].value < |owner| && owner[promises[k].value] == k)
    && (forall k | k in promises && k in open && promises[k].Some? :: promises[k].value < open[k].resource)
  }

  ghost predicate Inv(s: State) {
    RefsOk(s) && OneRemover(s.pcs, s.promises) && Owned(s.open, s.promises, s.owner)
  }

  lemma HeldGoes(pcs: map<Tid, Pc>, t: Tid, pc: Pc)
    ensures Held(pcs[t := pc]) == Held(pcs)[t := pc.Held()]
  {
  }

  lemma AcquireKeepsRefs(s: State, t: Tid, k: Key)
    requires RefsOk(s) && s.At(t).Idle?
    ensures RefsOk(s.Acquires(t, k))
  {
    hide Counts, Tally, Referenced;
    var r := if k in s.open then s.open[k].resource else |s.owner|;
    ReferencedCounts(s.open, s.refs, k, r);
    HeldGoes(s.pcs, t, Using(k, r));
    Takes(Held(s.pcs), s.refs, t, (k, r));
  }

  /** Thread `t` keeps its promise, or never had one. */
  lemma SameRemovers(pcs: map<Tid, Pc>, promises: Promises, t: Tid, pc: Pc, promises': Promises)
    requires OneRemover(pcs, promises) && promises'.Keys == promises.Keys
    requires forall k :: (t in pcs && pcs[t].Removes(k)) <==> pc.Removes(k)
    requires forall t' | t' in pcs && t' != t :: PromiseOk(promises', pcs[t'])
    requires PromiseOk(promises', pc)
    ensures OneRemover(pcs[t := pc], promises')
  {
    hide PromiseOk, Pc.Removes;
    var pcs' := pcs[t := pc];
    forall k | k in promises' ensures exists t' :: t' in pcs' && pcs'[t'].Removes(k) {
      var t' :| t' in pcs && pcs[t'].Removes(k);
      assert pcs'[t'].Removes(k);
    }
  }

  lemma AcquireKeeps(s: State, t: Tid, k: Key)
    requires Inv(s) && s.At(t).Idle?
    ensures Inv(s.Acquires(t, k))
  {
    hide RefsOk, OneRemover, Owned, Referenced;
    AcquireKeepsRefs(s, t, k);
    AcquireOwned(s, k);
    AcquireRemovers(s, t, s.Acquires(t, k).pcs[t]);
  }

  lemma AcquireRemovers(s: State, t: Tid, pc: Pc)
    requires OneRemover(s.pcs, s.promises) && s.At(t).Idle? && pc.Using?
    ensures OneRemover(s.pcs[t := pc], s.promises)
  {
    SameRemovers(s.pcs, s.promises, t, pc, s.promises);
  }

  lemma AcquireOwned(s: State, k: Key)
    requires Owned(s.open, s.promises, s.owner)
    ensures var r := if k in s.open then s.open[k].resource else |s.owner|;
            Owned(Referenced(s.open, k, r), s.promises, if k in s.open then s.owner else s.owner + [k])
  {
  }

  /** What a thread that holds a reference knows. */
  lemma HolderKnows(s: State, t: Tid)
    requires RefsOk(s) && s.At(t).Held().Some?
    ensures var e := s.At(t).Held().value;
            && e in s.refs && e.0 in s.open && s.open[e.0].resource == e.1 && s.open[e.0].refCount == s.refs[e] > 0
  {
    var e := s.At(t).Held().value;
    assert Held(s.pcs)[t] == Some(e);
    HeldIff(Held(s.pcs), s.refs, e);
    ReleasedCounts(s.open, s.refs, e.0, e.1);
    hide Counts, Tally;
  }

  lemma WithoutKeepsRefs(s: State, t: Tid, k: Key, r: Resource, pc: Pc, promises': Promises)
    requires RefsOk(s) && s.At(t).Held() == Some((k, r)) && pc.Held().None?
    ensures k in s.open && s.open[k].refCount > 0 && RefsOk(s.Without(t, k, r, pc, promises'))
  {
    HolderKnows(s, t);
    hide Counts, Tally, Released;
    ReleasedCounts(s.open, s.refs, k, r);
    HeldGoes(s.pcs, t, pc);
    Drops(Held(s.pcs), s.refs, t, (k, r));
  }

  /** The promise stays as it is, or the last reference hands the resource over. */
  ghost predicate HandsOver(s: State, k: Key, promises': Promises) {
    || promises' == s.promises
    || (k in s.open && s.open[k].refCount == 1 && k in s.promises && s.promises[k].None? && promises' == s.promises[k := Some(s.open[k].resource)])
  }

  /** Two threads with references to the same key count as two. */
  lemma NotLast(s: State, t: Tid, t': Tid, k: Key, r: Resource)
    requires RefsOk(s) && t in s.pcs && t' in s.pcs && t != t' && s.pcs[t].Held() == Some((k, r)) && s.pcs[t'].Held().Some? && s.pcs[t'].key == k
    ensures k in s.open && s.open[k].refCount > 1
  {
    HolderKnows(s, t);
    HolderKnows(s, t');
    hide Counts, Tally;
    if s.refs[(k, r)] == 1 {
      OneHolder(Held(s.pcs), s.refs, (k, r), t, t');
    }
  }

  lemma WithoutKeepsRemovers(s: State, t: Tid, k: Key, r: Resource, pc: Pc, promises': Promises)
    requires RefsOk(s) && OneRemover(s.pcs, s.promises) && s.At(t).Held() == Some((k, r)) && HandsOver(s, k, promises')
    requires if s.At(t).Using? then pc == Idle else pc == Waiting(k)
    ensures OneRemover(s.pcs[t := pc], promises')
  {
    forall t' | t' in s.pcs && t' != t ensures PromiseOk(promises', s.pcs[t']) {
      assert PromiseOk(s.promises, s.pcs[t']);
      hide RefsOk, OneRemover;
      if s.pcs[t'].Promised? && s.pcs[t'].key == k {
        NotLast(s, t, t', k, r);
      }
    }
    assert PromiseOk(s.promises, s.pcs[t]);
    hide RefsOk, OneRemover;
    SameRemovers(s.pcs, s.promises, t, pc, promises');
  }

  lemma WithoutOwned(s: State, k: Key, promises': Promises)
    requires Owned(s.open, s.promises, s.owner) && k in s.open && s.open[k].refCount > 0 && HandsOver(s, k, promises')
    ensures Owned(Released(s.open, k), promises', s.owner)
  {
  }

  lemma ReleaseKeeps(s: State, t: Tid, k: Key, r: Resource, pc: Pc)
    requires Inv(s) && s.At(t).Held() == Some((k, r)) && !s.fault
    requires if s.At(t).Using? then pc == Idle else pc == Waiting(k)
    ensures Inv(s.Releases(t, k, r, pc))
  {
    hide Counts, Tally, OneRemover, Owned, Released;
    HolderKnows(s, t);
    var promises' := s.Releases(t, k, r, pc).promises;
    if !s.Releases(t, k, r, pc).fault {
      WithoutKeepsRefs(s, t, k, r, pc, promises');
      WithoutKeepsRemovers(s, t, k, r, pc, promises');
      WithoutOwned(s, k, promises');
    }
  }

  lemma PromiseKeepsRemovers(pcs: map<Tid, Pc>, promises: Promises, t: Tid, k: Key, pc: Pc)
    requires OneRemover(pcs, promises) && k !in promises && (pc.Promised? || pc.Waiting?) && pc.key == k
    requires t in pcs && (pcs[t].Using? || pcs[t].Looked?)
    ensures OneRemover(pcs[t := pc], promises[k := None])
  {
    var pcs' := pcs[t := pc];
    assert pcs'[t].Removes(k);
    forall k' | k' in promises ensures exists t' :: t' in pcs' && pcs'[t'].Removes(k') {
      var t' :| t' in pcs && pcs[t'].Removes(k');
      assert pcs'[t'].Removes(k');
    }
  }

  /** A new promise for the thread that removes. */
  lemma PromiseKeeps(s: State, t: Tid, k: Key, pc: Pc)
    requires Inv(s) && (pc.Promised? || pc.Waiting?) && pc.key == k
    requires t in s.pcs && (s.pcs[t].Using? || s.pcs[t].Looked?) && pc.Held() == s.pcs[t].Held()
    ensures Inv(s.Promises(t, k, pc))
  {
    hide OneRemover, Counts, Tally;
    if k !in s.promises {
      PromiseKeepsRemovers(s.pcs, s.promises, t, k, pc);
      OthersKeepRefs(s, t, pc);
    }
  }

  lemma FinishKeepsRemovers(pcs: map<Tid, Pc>, promises: Promises, t: Tid)
    requires OneRemover(pcs, promises) && t in pcs && pcs[t].Taken?
    ensures OneRemover(pcs[t := Idle], promises - {pcs[t].key})
  {
    var pcs', k := pcs[t := Idle], pcs[t].key;
    assert pcs[t].Removes(k);
    forall t' | t' in pcs' ensures PromiseOk(promises - {k}, pcs'[t']) {
      assert PromiseOk(promises, pcs[t']);
      assert pcs'[t'].Removes(k) ==> t' == t;
    }
    forall k' | k' in promises && k' != k ensures exists t' :: t' in pcs' && pcs'[t'].Removes(k') {
      var t' :| t' in pcs && pcs[t'].Removes(k');
      assert pcs'[t'].Removes(k');
    }
  }

  /** Steps that neither acquire, release nor add a promise. */
  lemma OthersKeep(s: State, t: Tid, a: Action)
    requires Inv(s) && Enabled(s, t, a) && (a.RemoveKey? || a.RemoveAbsent? || a.Take? || a.Finish?)
    ensures Inv(Do(s, t, a))
  {
    hide OneRemover, Owned, Counts, Tally;
    var s' := Do(s, t, a);
    OthersKeepRefs(s, t, s'.pcs[t]);
    OthersKeepRemovers(s, t, a);
    OthersOwned(s, s.At(t));
  }

  lemma OthersKeepRefs(s: State, t: Tid, pc: Pc)
    requires RefsOk(s) && s.At(t).Held() == pc.Held()
    ensures Counts(s.open, s.refs) && Tally(Held(s.pcs[t := pc]), s.refs)
  {
    HeldGoes(s.pcs, t, pc);
    hide Counts, Tally;
    Keeps(Held(s.pcs), s.refs, t, pc.Held());
  }

  lemma OthersKeepRemovers(s: State, t: Tid, a: Action)
    requires OneRemover(s.pcs, s.promises) && Enabled(s, t, a) && (a.RemoveKey? || a.RemoveAbsent? || a.Take? || a.Finish?)
    ensures OneRemover(Do(s, t, a).pcs, Do(s, t, a).promises)
  {
    if a.Finish? {
      FinishKeepsRemovers(s.pcs, s.promises, t);
      hide OneRemover;
    } else {
      SameRemovers(s.pcs, s.promises, t, Do(s, t, a).pcs[t], s.promises);
    }
  }

  lemma OthersOwned(s: State, pc: Pc)
    requires Owned(s.open, s.promises, s.owner)
    ensures pc.Taken? ==> Owned(s.open, s.promises - {pc.key}, s.owner)
  {
  }

  lemma StepKeepsInv(s: State, t: Tid, a: Action)
    requires Inv(s) && Enabled(s, t, a)
    ensures Inv(Do(s, t, a))
  {
    match a
    case Load(k) => AcquireKeeps(s, t, k);
    case Add(k) => AcquireKeeps(s.(base := s.base + {k}), t, k);
    case LoadOrAdd(k) => AcquireKeeps(if k in s.open then s else s.(base := s.base + {k}), t, k);
    case Release => ReleaseKeeps(s, t, s.At(t).key, s.At(t).resource, Idle);
    case DestroyReference => ReleaseKeeps(s, t, s.At(t).key, s.At(t).resource, Waiting(s.At(t).key));
    case RemoveReference => PromiseKeeps(s, t, s.At(t).key, Promised(s.At(t).key, s.At(t).resource));
    case AddPromise => PromiseKeeps(s, t, s.At(t).key, Waiting(s.At(t).key));
    case _ => OthersKeep(s, t, a);
  }

  // ----- Whole runs

  lemma {:induction false} RunKeepsInv(s: State, run: Run)
    requires Inv(s) && IsRun(s, run)
    ensures Inv(Exec(s, run))
    decreases |run|
  {
    hide Inv;
    if run != [] {
      StepKeepsInv(s, run[0].0, run[0].1);
      RunKeepsInv(Do(s, run[0].0, run[0].1), run[1..]);
    }
  }

  lemma InitInv(s: State)
    requires Init(s)
    ensures Inv(s)
  {
    forall e: Thing ensures s.refs[e] == |HoldersOf(Held(s.pcs), e)| {
      assert HoldersOf(Held(s.pcs), e) == {};
    }
  }

  /** Threads that use a key share its one open resource. A resource that has been handed over to a
      remove is used by nobody, and no other remove has it. */
  ghost predicate Safe(s: State) {
    && (forall k :: k in s.open <==> exists t :: t in s.pcs && s.pcs[t].Held().Some? && s.pcs[t].key == k)
    && (forall t | t in s.pcs && s.pcs[t].Held().Some? :: s.pcs[t].key in s.open && s.open[s.pcs[t].key].resource == s.pcs[t].resource)
    && (forall t, t' | t in s.pcs && t' in s.pcs && s.pcs[t].Taken? && s.pcs[t'].Held().Some? :: s.pcs[t].resource != s.pcs[t'].resource)
    && (forall t, t' | t in s.pcs && t' in s.pcs && s.pcs[t].Taken? && s.pcs[t'].Taken? && s.pcs[t].resource == s.pcs[t'].resource :: t == t')
  }

  lemma OpenIffHeld(s: State, k: Key)
    requires RefsOk(s)
    ensures k in s.open <==> exists t :: t in s.pcs && s.pcs[t].Held().Some? && s.pcs[t].key == k
  {
    if k in s.open {
      var r := s.open[k].resource;
      assert s.refs[(k, r)] > 0;
      HeldIff(Held(s.pcs), s.refs, (k, r));
    } else if t :| t in s.pcs && s.pcs[t].Held().Some? && s.pcs[t].key == k {
      HolderKnows(s, t);
    }
  }

  lemma TakenIsUnused(s: State, t: Tid, t': Tid)
    requires Inv(s) && t in s.pcs && t' in s.pcs && s.pcs[t].Taken?
    ensures s.pcs[t'].Held().Some? ==> s.pcs[t].resource != s.pcs[t'].resource
    ensures s.pcs[t'].Taken? && s.pcs[t].resource == s.pcs[t'].resource ==> t == t'
  {
    var k := s.pcs[t].key;
    assert PromiseOk(s.promises, s.pcs[t]) && PromiseOk(s.promises, s.pcs[t']);
    assert s.pcs[t].Removes(k);
    assert s.pcs[t'].Taken? ==> s.pcs[t'].Removes(s.pcs[t'].key);
    if s.pcs[t'].Held().Some? {
      HolderKnows(s, t');
    }
    hide RefsOk;
  }

  lemma InvIsSafe(s: State)
    requires Inv(s)
    ensures Safe(s)
  {
    forall k ensures k in s.open <==> exists t :: t in s.pcs && s.pcs[t].Held().Some? && s.pcs[t].key == k {
      OpenIffHeld(s, k);
    }
    forall t | t in s.pcs && s.pcs[t].Held().Some? ensures s.pcs[t].key in s.open && s.open[s.pcs[t].key].resource == s.pcs[t].resource {
      HolderKnows(s, t);
    }
    hide RefsOk, OneRemover, Owned;
    forall t, t' | t in s.pcs && t' in s.pcs && s.pcs[t].Taken?
      ensures s.pcs[t'].Held().Some? ==> s.pcs[t].resource != s.pcs[t'].resource
      ensures s.pcs[t'].Taken? && s.pcs[t].resource == s.pcs[t'].resource ==> t == t'
    {
      TakenIsUnused(s, t, t');
    }
  }

  lemma EveryRunIsSafe(s: State, run: Run)
    requires Init(s) && IsRun(s, run)
    ensures Safe(Exec(s, run))
  {
    InitInv(s);
    RunKeepsInv(s, run);
    InvIsSafe(Exec(s, run));
    hide *;
  }

  // ----- Faults

  /** A second remove of the key, an add under an open key, or the last release of a resource after
      the remove of the key has already been given one. */
  predicate Faults(s: State, t: Tid, a: Action) {
    var pc := s.At(t);
    match a
    case Add(k) => k in s.open
    case RemoveReference => pc.Using? && pc.key in s.promises
    case AddPromise => pc.Looked? && pc.key in s.promises
    case Release => pc.Using? && pc.key in s.promises && s.promises[pc.key].Some? && s.refs[(pc.key, pc.resource)] == 1
    case _ => false
  }

  /** A step fails exactly in these cases. The destructor of a reference always finds its key, and a
      remove that destroys its own reference does not fail. */
  lemma FaultIff(s: State, t: Tid, a: Action)
    requires Inv(s) && Enabled(s, t, a)
    ensures Do(s, t, a).fault <==> Faults(s, t, a)
  {
    var pc := s.At(t);
    if pc.Held().Some? {
      HolderKnows(s, t);
    }
    if t in s.pcs {
      assert PromiseOk(s.promises, s.pcs[t]);
    }
    hide RefsOk, OneRemover, Owned, Released;
  }

  // ----- Waiting removes

  /** Every remove that waits has its resource, or somebody still uses it. */
  ghost predicate Served(s: State) {
    forall t | t in s.pcs && s.pcs[t].Waiting? && s.pcs[t].key in s.promises && s.promises[s.pcs[t].key].None? :: s.pcs[t].key in s.open
  }

  /** The last reference is gone before the remove that saw it adds its promise. */
  predicate Strands(s: State, t: Tid, a: Action) {
    a.AddPromise? && s.At(t).Looked? && s.At(t).key !in s.promises && s.At(t).key !in s.open
  }

  /** The step of thread `t` does no harm to the removes that wait. */
  lemma StaysServed(s: State, s': State, t: Tid)
    requires OneRemover(s.pcs, s.promises) && Served(s) && t in s'.pcs && s'.pcs == s.pcs[t := s'.pcs[t]]
    requires var pc := s'.pcs[t]; pc.Waiting? && pc.key in s'.promises && s'.promises[pc.key].None? ==> pc.key in s'.open
    requires forall k | k in s.promises && k in s'.promises && s'.promises[k].None? :: s.promises[k].None? && (k in s.open ==> k in s'.open)
    ensures Served(s')
  {
    forall t' | t' in s'.pcs && s'.pcs[t'].Waiting? && s'.pcs[t'].key in s'.promises && s'.promises[s'.pcs[t'].key].None?
      ensures s'.pcs[t'].key in s'.open
    {
      if t' != t {
        assert PromiseOk(s.promises, s.pcs[t']);
      }
    }
  }

  lemma AcquireServed(s: State, t: Tid, k: Key)
    requires OneRemover(s.pcs, s.promises) && Served(s)
    ensures Served(s.Acquires(t, k))
  {
    hide OneRemover, Served;
    StaysServed(s, s.Acquires(t, k), t);
  }

  lemma ReleaseServed(s: State, t: Tid, k: Key, r: Resource, pc: Pc)
    requires OneRemover(s.pcs, s.promises) && Served(s) && !s.fault
    requires pc.Idle? || (pc == Waiting(k) && k in s.promises && s.promises[k].None?)
    ensures Served(s.Releases(t, k, r, pc))
  {
    var s' := s.Releases(t, k, r, pc);
    if !s'.fault {
      hide OneRemover, Served;
      StaysServed(s, s', t);
    }
  }

  lemma PromiseServed(s: State, t: Tid, k: Key, pc: Pc)
    requires OneRemover(s.pcs, s.promises) && Served(s) && !s.fault && (pc.Promised? || pc == Waiting(k))
    ensures Served(s.Promises(t, k, pc)) <==> !(pc.Waiting? && k !in s.promises && k !in s.open)
  {
    var s' := s.Promises(t, k, pc);
    if !s'.fault {
      if pc.Waiting? && k !in s.open {
        assert s'.pcs[t].Waiting?;
      } else {
        hide OneRemover, Served;
        StaysServed(s, s', t);
      }
    }
  }

  lemma OthersServed(s: State, t: Tid, a: Action)
    requires OneRemover(s.pcs, s.promises) && Served(s) && Enabled(s, t, a) && (a.RemoveKey? || a.RemoveAbsent? || a.Take? || a.Finish?)
    ensures Served(Do(s, t, a))
  {
    hide OneRemover, Served;
    StaysServed(s, Do(s, t, a), t);
  }

  /** Adding a block to the base store is nothing to the waiting removes. */
  lemma BaseServed(s: State, k: Key)
    requires Served(s)
    ensures Served(s.(base := s.base + {k}))
  {
  }

  lemma FaultServed(s: State)
    requires Served(s)
    ensures Served(s.(fault := true))
  {
  }

  lemma PromisedOk(s: State, t: Tid)
    requires OneRemover(s.pcs, s.promises)
    ensures PromiseOk(s.promises, s.At(t))
  {
  }

  lemma ServedIff(s: State, t: Tid, a: Action)
    requires Inv(s) && Served(s) && Enabled(s, t, a)
    ensures Served(Do(s, t, a)) <==> !Strands(s, t, a)
  {
    hide RefsOk, Owned, OneRemover, Served;
    var pc := s.At(t);
    PromisedOk(s, t);
    match a
    case Load(k) => AcquireServed(s, t, k);
    case Add(k) =>
      BaseServed(s, k);
      FaultServed(s);
      AcquireServed(s.(base := s.base + {k}), t, k);
    case LoadOrAdd(k) =>
      BaseServed(s, k);
      AcquireServed(if k in s.open then s else s.(base := s.base + {k}), t, k);
    case Release => ReleaseServed(s, t, pc.key, pc.resource, Idle);
    case DestroyReference => ReleaseServed(s, t, pc.key, pc.resource, Waiting(pc.key));
    case RemoveReference => PromiseServed(s, t, pc.key, Promised(pc.key, pc.resource));
    case AddPromise => PromiseServed(s, t, pc.key, Waiting(pc.key));
    case _ => OthersServed(s, t, a);
  }

  ghost predicate NeverStrands(s: State, run: Run)
    requires IsRun(s, run)
    decreases |run|
  {
    run == [] || (!Strands(s, run[0].0, run[0].1) && NeverStrands(Do(s, run[0].0, run[0].1), run[1..]))
  }

  lemma {:induction false} RunKeepsServed(s: State, run: Run)
    requires Inv(s) && Served(s) && IsRun(s, run) && NeverStrands(s, run)
    ensures Served(Exec(s, run))
    decreases |run|
  {
    hide Inv, Served, Strands;
    if run != [] {
      StepKeepsInv(s, run[0].0, run[0].1);
      ServedIff(s, run[0].0, run[0].1);
      RunKeepsServed(Do(s, run[0].0, run[0].1), run[1..]);
    }
  }

  /** The step that a thread takes next. */
  function Next(pc: Pc): Action
    requires !pc.Idle?
  {
    match pc
    case Using(_, _) => Release
    case Promised(_, _) => DestroyReference
    case Looked(_) => AddPromise
    case Absent(_) => RemoveAbsent
    case Waiting(_) => Take
    case Taken(_, _) => Finish
  }

  /** Whoever is at work can go on, or waits for a resource that somebody uses who can go on. */
  lemma SomebodyMoves(s: State, t: Tid) returns (t': Tid)
    requires Inv(s) && Served(s) && !s.fault && !s.At(t).Idle?
    ensures !s.At(t').Idle? && Enabled(s, t', Next(s.At(t')))
    ensures t' == t || (s.At(t).Waiting? && s.At(t').Held().Some? && s.At(t').key == s.At(t).key)
  {
    hide RefsOk, Owned, OneRemover, Enabled, Next, PromiseOk;
    PromisedOk(s, t);
    t' := t;
    if s.At(t).Waiting? {
      WaitsFor(s, s.At(t));
      if s.promises[s.At(t).key].None? {
        OpenIffHeld(s, s.At(t).key);
        t' :| t' in s.pcs && s.pcs[t'].Held().Some? && s.pcs[t'].key == s.At(t).key;
      }
    }
    NextEnabled(s, t');
  }

  lemma WaitsFor(s: State, pc: Pc)
    requires PromiseOk(s.promises, pc) && pc.Waiting?
    ensures pc.key in s.promises
  {
  }

  lemma NextEnabled(s: State, t: Tid)
    requires !s.fault && !s.At(t).Idle?
    requires s.At(t).Waiting? ==> s.At(t).key in s.promises && s.promises[s.At(t).key].Some?
    ensures Enabled(s, t, Next(s.At(t)))
  {
  }

  /** In a run in which no remove is stranded, nobody waits for nothing. */
  lemma NoDeadlock(s: State, run: Run, t: Tid) returns (t': Tid)
    requires Init(s) && IsRun(s, run) && NeverStrands(s, run)
    requires !Exec(s, run).fault && !Exec(s, run).At(t).Idle?
    ensures var s' := Exec(s, run); !s'.At(t').Idle? && Enabled(s', t', Next(s'.At(t')))
  {
    InitInv(s);
    assert Served(s);
    hide Inv, Served, Init, Exec, NeverStrands, IsRun, Enabled, Next;
    RunKeepsInv(s, run);
    RunKeepsServed(s, run);
    t' := SomebodyMoves(Exec(s, run), t);
  }

  /** The remove in thread `w` waits for a resource that nobody uses. */
  ghost predicate WaitsInVain(s: State, w: Tid, k: Key) {
    s.At(w) == Waiting(k) && k in s.promises && s.promises[k].None? && k !in s.open
  }

  predicate Opens(a: Action, k: Key) {
    (a.Load? || a.Add? || a.LoadOrAdd?) && a.key == k
  }

  /** A stranded remove goes on only after the key has been opened again. */
  lemma {:induction false} StrandedWaits(s: State, run: Run, w: Tid, k: Key)
    requires Inv(s) && WaitsInVain(s, w, k) && IsRun(s, run) && forall i | 0 <= i < |run| :: !Opens(run[i].1, k)
    ensures WaitsInVain(Exec(s, run), w, k)
    decreases |run|
  {
    hide Inv, WaitsInVain, Enabled, Do, Opens;
    if run != [] {
      StepKeepsInv(s, run[0].0, run[0].1);
      StrandedStep(s, run[0].0, run[0].1, w, k);
      StrandedWaits(Do(s, run[0].0, run[0].1), run[1..], w, k);
    }
  }

  lemma StrandedStep(s: State, t: Tid, a: Action, w: Tid, k: Key)
    requires Inv(s) && WaitsInVain(s, w, k) && Enabled(s, t, a) && !Opens(a, k)
    ensures WaitsInVain(Do(s, t, a), w, k)
  {
    assert t != w;
    PromisedOk(s, t);
    if s.At(t).Held().Some? {
      HolderKnows(s, t);
    }
    hide RefsOk, Owned, OneRemover;
    if a.Load? || a.Add? || a.LoadOrAdd? {
      StrandedAcquire(s, t, a, w, k);
    } else if a.Release? || a.DestroyReference? {
      var pc := s.At(t);
      StrandedRelease(s, t, pc.key, pc.resource, if a.Release? then Idle else Waiting(pc.key), w, k);
      hide WaitsInVain, State.Releases;
    } else {
      StrandedOther(s, t, a, w, k);
    }
  }

  lemma StrandedAcquire(s: State, t: Tid, a: Action, w: Tid, k: Key)
    requires t != w && WaitsInVain(s, w, k) && Enabled(s, t, a) && !Opens(a, k) && (a.Load? || a.Add? || a.LoadOrAdd?)
    ensures WaitsInVain(Do(s, t, a), w, k)
  {
  }

  lemma StrandedRelease(s: State, t: Tid, k': Key, r: Resource, pc: Pc, w: Tid, k: Key)
    requires t != w && WaitsInVain(s, w, k) && k' in s.open
    ensures WaitsInVain(s.Releases(t, k', r, pc), w, k)
  {
    hide Released;
    if s.open[k'].refCount > 0 {
      NoNewKey(s.open, k');
    }
  }

  lemma NoNewKey(open: Open, k: Key)
    requires k in open && open[k].refCount > 0
    ensures Released(open, k).Keys <= open.Keys
  {
  }

  lemma StrandedOther(s: State, t: Tid, a: Action, w: Tid, k: Key)
    requires t != w && WaitsInVain(s, w, k) && Enabled(s, t, a) && PromiseOk(s.promises, s.At(t))
    requires a.RemoveReference? || a.RemoveKey? || a.AddPromise? || a.RemoveAbsent? || a.Take? || a.Finish?
    ensures WaitsInVain(Do(s, t, a), w, k)
  {
  }

  // ----- Blocks that are in use

  /** The block of every reference is in the base store. */
  ghost predicate Backed(s: State) {
    forall k | k in s.open :: k in s.base
  }

  /** A remove ends after the key has been opened again. */
  predicate RemovesUsed(s: State, t: Tid, a: Action) {
    var pc := s.At(t);
    (a.Finish? && pc.Taken? && pc.key in s.open) || (a.RemoveAbsent? && pc.Absent? && pc.key in s.open)
  }

  lemma BackedIff(s: State, t: Tid, a: Action)
    requires Inv(s) && Backed(s) && Enabled(s, t, a)
    ensures Backed(Do(s, t, a)) <==> !RemovesUsed(s, t, a)
  {
    hide Inv, Released;
    if a.Release? || a.DestroyReference? {
      var pc := s.At(t);
      if pc.key in s.open && s.open[pc.key].refCount > 0 {
        NoNewKey(s.open, pc.key);
      }
    }
  }

  ghost predicate NeverRemovesUsed(s: State, run: Run)
    requires IsRun(s, run)
    decreases |run|
  {
    run == [] || (!RemovesUsed(s, run[0].0, run[0].1) && NeverRemovesUsed(Do(s, run[0].0, run[0].1), run[1..]))
  }

  lemma {:induction false} RunKeepsBacked(s: State, run: Run)
    requires Inv(s) && Backed(s) && IsRun(s, run) && NeverRemovesUsed(s, run)
    ensures Inv(Exec(s, run)) && Backed(Exec(s, run))
    decreases |run|
  {
    hide Inv, Backed, RemovesUsed;
    if run != [] {
      StepKeepsInv(s, run[0].0, run[0].1);
      BackedIff(s, run[0].0, run[0].1);
      RunKeepsBacked(Do(s, run[0].0, run[0].1), run[1..]);
    }
  }

  /** In a run without such a step, the block of every thread's reference is in the base store. */
  lemma EveryReferenceIsBacked(s: State, run: Run, t: Tid)
    requires Init(s) && IsRun(s, run) && NeverRemovesUsed(s, run) && Exec(s, run).At(t).Held().Some?
    ensures Exec(s, run).At(t).key in Exec(s, run).base
  {
    InitInv(s);
    assert Backed(s);
    hide Init, IsRun, Exec, RefsOk, OneRemover, Owned, NeverRemovesUsed;
    RunKeepsBacked(s, run);
    HolderKnows(Exec(s, run), t);
  }

  // ----- Runs in which removing goes wrong

  function Start(k: Key): State {
    State(map[], map[], multiset{}, {k}, [], map[], false)
  }

  /** Thread 1 uses the block. */
  function InUse(k: Key): State {
    State(map[k := OpenResource(0, 1)], map[], multiset{(k, 0)}, {k}, [k], map[1 := Using(k, 0)], false)
  }

  /** Thread 1 removes the block, and nobody else uses it. */
  function HandedOver(k: Key): State {
    State(map[], map[k := Some(0)], multiset{}, {k}, [k], map[1 := Waiting(k)], false)
  }

  lemma FirstStep(s: State, t: Tid, a: Action, s': State, rest: Run)
    requires Enabled(s, t, a) && Do(s, t, a) == s' && IsRun(s', rest)
    ensures IsRun(s, [(t, a)] + rest) && Exec(s, [(t, a)] + rest) == Exec(s', rest)
  {
    assert ([(t, a)] + rest)[1..] == rest;
    hide Enabled, Do;
  }

  lemma LoadStep(k: Key)
    ensures Enabled(Start(k), 1, Load(k)) && Do(Start(k), 1, Load(k)) == InUse(k)
  {
  }

  lemma HandOver(k: Key, rest: Run)
    requires IsRun(HandedOver(k), rest)
    ensures var run := [(1, Load(k))] + ([(1, RemoveReference)] + ([(1, DestroyReference)] + rest));
            IsRun(Start(k), run) && Exec(Start(k), run) == Exec(HandedOver(k), rest)
  {
    LoadStep(k);
    HandOverSteps(k);
    hide *;
    var s := Do(InUse(k), 1, RemoveReference);
    FirstStep(s, 1, DestroyReference, HandedOver(k), rest);
    FirstStep(InUse(k), 1, RemoveReference, s, [(1, DestroyReference)] + rest);
    FirstStep(Start(k), 1, Load(k), InUse(k), [(1, RemoveReference)] + ([(1, DestroyReference)] + rest));
  }

  lemma HandOverSteps(k: Key)
    ensures Enabled(InUse(k), 1, RemoveReference)
    ensures var s := Do(InUse(k), 1, RemoveReference); Enabled(s, 1, DestroyReference) && Do(s, 1, DestroyReference) == HandedOver(k)
  {
    assert Do(InUse(k), 1, RemoveReference) == InUse(k).(promises := map[k := None], pcs := map[1 := Promised(k, 0)]);
  }

  /** A thread loads the block again before the remove has ended: its release sets the promise a
      second time. */
  lemma ReleasedTwice(k: Key) returns (run: Run)
    ensures IsRun(Start(k), run) && Exec(Start(k), run).fault
    ensures forall i | 0 <= i < |run| :: !run[i].1.Add?
  {
    var s, s' := HandedOver(k), Again(k, Waiting(k));
    AgainStep(k, Waiting(k));
    assert Enabled(s', 2, Release) && Do(s', 2, Release) == s'.(fault := true);
    FirstStep(s', 2, Release, s'.(fault := true), []);
    FirstStep(s, 2, Load(k), s', [(2, Release)] + []);
    HandOver(k, [(2, Load(k))] + ([(2, Release)] + []));
    run := [(1, Load(k))] + ([(1, RemoveReference)] + ([(1, DestroyReference)] + ([(2, Load(k))] + ([(2, Release)] + []))));
  }

  /** Thread 2 has loaded the block again. */
  function Again(k: Key, pc: Pc): State {
    State(map[k := OpenResource(1, 1)], map[k := Some(0)], multiset{(k, 1)}, {k}, [k, k], map[1 := pc, 2 := Using(k, 1)], false)
  }

  lemma AgainStep(k: Key, pc: Pc)
    ensures var s := HandedOver(k).(pcs := map[1 := pc]); Enabled(s, 2, Load(k)) && Do(s, 2, Load(k)) == Again(k, pc)
  {
  }

  /** The last reference is released between the look and the promise of a remove, which then waits
      for nothing. */
  lemma Stranded(k: Key) returns (run: Run)
    ensures IsRun(Start(k), run)
    ensures WaitsInVain(Exec(Start(k), run), 2, k)
  {
    var s1 := InUse(k).(pcs := map[1 := Using(k, 0), 2 := Looked(k)]);
    var s2 := State(map[], map[], multiset{}, {k}, [k], map[1 := Idle, 2 := Looked(k)], false);
    var s3 := s2.(promises := map[k := None], pcs := map[1 := Idle, 2 := Waiting(k)]);
    assert Enabled(InUse(k), 2, RemoveKey(k)) && Do(InUse(k), 2, RemoveKey(k)) == s1;
    assert Enabled(s1, 1, Release) && Do(s1, 1, Release) == s2;
    assert Enabled(s2, 2, AddPromise) && Do(s2, 2, AddPromise) == s3;
    LoadStep(k);
    FirstStep(s2, 2, AddPromise, s3, []);
    FirstStep(s1, 1, Release, s2, [(2, AddPromise)] + []);
    FirstStep(InUse(k), 2, RemoveKey(k), s1, [(1, Release)] + ([(2, AddPromise)] + []));
    FirstStep(Start(k), 1, Load(k), InUse(k), [(2, RemoveKey(k))] + ([(1, Release)] + ([(2, AddPromise)] + [])));
    run := [(1, Load(k))] + ([(2, RemoveKey(k))] + ([(1, Release)] + ([(2, AddPromise)] + [])));
  }

  /** The block of a reference is removed from the base store. */
  lemma RemovedInUse(k: Key) returns (run: Run)
    ensures IsRun(Start(k), run)
    ensures var s := Exec(Start(k), run); !s.fault && s.At(2) == Using(k, 1) && k !in s.base
  {
    var s, s1, s2 := HandedOver(k), HandedOver(k).(pcs := map[1 := Taken(k, 0)]), Again(k, Taken(k, 0));
    var s3 := s2.(promises := map[], base := {}, pcs := map[1 := Idle, 2 := Using(k, 1)]);
    AgainStep(k, Taken(k, 0));
    assert Enabled(s, 1, Take) && Do(s, 1, Take) == s1;
    assert Enabled(s2, 1, Finish) && Do(s2, 1, Finish) == s3;
    FirstStep(s2, 1, Finish, s3, []);
    FirstStep(s1, 2, Load(k), s2, [(1, Finish)] + []);
    FirstStep(s, 1, Take, s1, [(2, Load(k))] + ([(1, Finish)] + []));
    HandOver(k, [(1, Take)] + ([(2, Load(k))] + ([(1, Finish)] + [])));
    run := [(1, Load(k))] + ([(1, RemoveReference)] + ([(1, DestroyReference)] + ([(1, Take)] + ([(2, Load(k))] + ([(1, Finish)] + [])))));
  }
}
