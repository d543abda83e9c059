/** What the calls of ParallelAccessStore come to: which resource a thread is given, and what is in
    the base store after a remove has returned, whatever else is scheduled in between. */
module ParallelCalls {
  import opened Bytes
  import opened Holders
  import opened ParallelAccess
  import opened ParallelRuns

  // ----- Removing

  /** The thread is in a call of remove for this key. */
  predicate Removing(pc: Pc, k: Key) {
    (pc.Promised? || pc.Looked? || pc.Absent? || pc.Waiting? || pc.Taken?) && pc.key == k
  }

  /** The step of thread `t` is the last one of a remove of `k`. */
  predicate Ends(s: State, t: Tid, a: Action, k: Key)
    requires Enabled(s, t, a)
  {
    Removing(s.At(t), k) && !Removing(Do(s, t, a).At(t), k)
  }

  /** The step makes a new block. */
  predicate Makes(s: State, a: Action, k: Key) {
    (a.Add? || a.LoadOrAdd?) && a.key == k && k !in s.open
  }

  /** The base store gains a block when one is made and loses it when a remove of it ends, and not
      otherwise. */
  lemma BaseIff(s: State, t: Tid, a: Action, k: Key)
    requires Enabled(s, t, a)
    ensures k in Do(s, t, a).base <==> Makes(s, a, k) || (k in s.base && !Ends(s, t, a, k))
  {
    hide Released, Referenced;
    if a.Load? || a.Add? || a.LoadOrAdd? {
      MakingBase(s, t, a, k);
    } else if a.Release? || a.DestroyReference? {
      ReleasingBase(s, t, a, k);
    } else {
      RemovingBase(s, t, a, k);
    }
    hide Do, Enabled;
  }

  lemma MakingBase(s: State, t: Tid, a: Action, k: Key)
    requires Enabled(s, t, a) && (a.Load? || a.Add? || a.LoadOrAdd?)
    ensures (k in Do(s, t, a).base <==> Makes(s, a, k) || k in s.base) && !Ends(s, t, a, k)
  {
    hide Referenced;
  }

  lemma ReleasingBase(s: State, t: Tid, a: Action, k: Key)
    requires Enabled(s, t, a) && (a.Release? || a.DestroyReference?)
    ensures Do(s, t, a).base == s.base && !Ends(s, t, a, k)
  {
    hide Released;
  }

  lemma RemovingBase(s: State, t: Tid, a: Action, k: Key)
    requires Enabled(s, t, a) && !(a.Load? || a.Add? || a.LoadOrAdd? || a.Release? || a.DestroyReference?)
    ensures k in Do(s, t, a).base <==> k in s.base && !Ends(s, t, a, k)
  {
  }

  ghost predicate EverMakes(s: State, run: Run, k: Key)
    requires IsRun(s, run)
    decreases |run|
  {
    run != [] && (Makes(s, run[0].1, k) || EverMakes(Do(s, run[0].0, run[0].1), run[1..], k))
  }

  ghost predicate EverEnds(s: State, run: Run, k: Key)
    requires IsRun(s, run)
    decreases |run|
  {
    run != [] && (Ends(s, run[0].0, run[0].1, k) || EverEnds(Do(s, run[0].0, run[0].1), run[1..], k))
  }

  /** What is not in the base store stays out until it is made. */
  lemma {:induction false} StaysOut(s: State, run: Run, k: Key)
    requires IsRun(s, run) && k !in s.base && !EverMakes(s, run, k)
    ensures k !in Exec(s, run).base
    decreases |run|
  {
    if run != [] {
      BaseIff(s, run[0].0, run[0].1, k);
      hide Do, Enabled, Makes, Ends;
      StaysOut(Do(s, run[0].0, run[0].1), run[1..], k);
    }
  }

  /** What is in the base store stays there until a remove of it ends. */
  lemma {:induction false} StaysIn(s: State, run: Run, k: Key)
    requires IsRun(s, run) && k in s.base && !EverEnds(s, run, k)
    ensures k in Exec(s, run).base
    decreases |run|
  {
    if run != [] {
      BaseIff(s, run[0].0, run[0].1, k);
      hide Do, Enabled, Makes, Ends;
      StaysIn(Do(s, run[0].0, run[0].1), run[1..], k);
    }
  }

  /** A block that is not made again after a remove of it has ended is not in the base store. */
  lemma RemovedForGood(s: State, t: Tid, a: Action, run: Run, k: Key)
    requires Enabled(s, t, a) && Ends(s, t, a, k) && IsRun(Do(s, t, a), run) && !EverMakes(Do(s, t, a), run, k)
    ensures k !in Exec(Do(s, t, a), run).base
  {
    BaseIff(s, t, a, k);
    EndsMakesNothing(s, t, a, k);
    hide Do, Enabled, Makes, Ends;
    StaysOut(Do(s, t, a), run, k);
  }

  lemma EndsMakesNothing(s: State, t: Tid, a: Action, k: Key)
    requires Enabled(s, t, a) && Ends(s, t, a, k)
    ensures !Makes(s, a, k)
  {
  }

  /** A step of another thread does not move this one. */
  lemma OtherThread(s: State, t: Tid, a: Action, w: Tid)
    requires Enabled(s, t, a) && t != w
    ensures Do(s, t, a).At(w) == s.At(w)
  {
    hide Released, Referenced;
  }

  /** A call of remove that has returned: the block is not in the base store, unless it has been
      made again in the meantime. */
  lemma {:induction false} RemoveWorks(s: State, run: Run, t: Tid, k: Key)
    requires Removing(s.At(t), k) && IsRun(s, run) && !Removing(Exec(s, run).At(t), k) && !EverMakes(s, run, k)
    ensures k !in Exec(s, run).base
    decreases |run|
  {
    var w, a := run[0].0, run[0].1;
    if w == t && Ends(s, w, a, k) {
      hide Do, Enabled, Makes, Ends;
      RemovedForGood(s, t, a, run[1..], k);
    } else {
      if w != t {
        OtherThread(s, w, a, t);
      }
      hide Do, Enabled, Makes;
      RemoveWorks(Do(s, w, a), run[1..], t, k);
    }
  }

  /** Both ways of calling remove get there. */
  lemma RemoveBegins(s: State, t: Tid, k: Key)
    requires !s.fault
    ensures s.At(t).Idle? ==> Enabled(s, t, RemoveKey(k)) && Removing(Do(s, t, RemoveKey(k)).At(t), k)
    ensures s.At(t).Using? && s.At(t).key == k && k !in s.promises ==>
              Enabled(s, t, RemoveReference) && Removing(Do(s, t, RemoveReference).At(t), k)
  {
  }

  // ----- Loading and adding

  /** A load gives the one open resource of the key, or a new one if the block exists, and is the
      only thing that changes. */
  lemma LoadWorks(s: State, t: Tid, k: Key)
    requires Inv(s) && Enabled(s, t, Load(k))
    ensures var s' := Do(s, t, Load(k));
            && s'.base == s.base && !s'.fault && s'.promises == s.promises
            && (s'.At(t).Idle? <==> k !in s.open && k !in s.base)
            && (s'.At(t).Idle? ==> s'.open == s.open && s'.refs == s.refs)
            && (!s'.At(t).Idle? ==> s'.At(t).Using? && s'.At(t).key == k && s'.refs == s.refs + multiset{(k, s'.At(t).resource)})
            && (forall w | w in s.pcs && w != t && s.pcs[w].Held().Some? && s.pcs[w].key == k :: s'.At(t) == Using(k, s.pcs[w].resource))
  {
    forall w | w in s.pcs && w != t && s.pcs[w].Held().Some? && s.pcs[w].key == k ensures Do(s, t, Load(k)).At(t) == Using(k, s.pcs[w].resource) {
      HolderKnows(s, w);
    }
    hide Inv, Referenced;
  }

  /** An add makes the block and is given its first resource; loadOrAdd does so unless it is open. */
  lemma AddWorks(s: State, t: Tid, k: Key)
    requires Inv(s) && !s.fault && s.At(t).Idle?
    ensures var s' := Do(s, t, Add(k)); !s'.fault ==> s'.At(t) == Using(k, |s.owner|) && s'.base == s.base + {k}
    ensures var s' := Do(s, t, LoadOrAdd(k));
            && !s'.fault && s'.At(t).Using? && s'.At(t).key == k && s'.base == (if k in s.open then s.base else s.base + {k})
            && s'.At(t).resource == if k in s.open then s.open[k].resource else |s.owner|
  {
    hide Inv, Referenced;
  }

  /** A release gives the reference back. */
  lemma ReleaseWorks(s: State, t: Tid)
    requires Inv(s) && Enabled(s, t, Release) && !Faults(s, t, Release)
    ensures var s' := Do(s, t, Release);
            s'.At(t).Idle? && s'.refs == s.refs - multiset{(s.At(t).key, s.At(t).resource)} && s'.base == s.base
  {
    FaultIff(s, t, Release);
    hide Inv, Released, Faults;
  }
}
