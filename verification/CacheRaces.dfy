/** The two ways in which the cache protocol breaks its promise. */
module CacheRaces {
  import opened Bytes
  import opened QueueMap
  import opened CacheProtocol
  import opened CacheProofs

  // ----- The two exceptions are real

  lemma Extend(s0: State, run: seq<Action>, a: Action) returns (run': seq<Action>)
    requires IsRun(s0, run) && Enabled(Exec(s0, run), a)
    ensures IsRun(s0, run') && Exec(s0, run') == Do(Exec(s0, run), a)
    decreases |run|
  {
    hide Do, Enabled;
    if run == [] {
      run' := [a];
      assert run'[1..] == [];
    } else {
      var rest := Extend(Do(s0, run[0]), run[1..], a);
      run' := [run[0]] + rest;
      assert run'[1..] == rest;
    }
  }

  /** The next step of the client of `k`. */
  lemma Advance(s0: State, run: seq<Action>, k: Key, step: ClientStep) returns (run': seq<Action>)
    requires IsRun(s0, run) && Placement(Exec(s0, run)) && ClientEnabled(Exec(s0, run), k, step)
    ensures IsRun(s0, run') && Exec(s0, run') == DoClient(Exec(s0, run), k, step) && Placement(Exec(s0, run'))
    ensures ViewOf(Exec(s0, run'), k) == ClientView(ViewOf(Exec(s0, run), k), step, k in Exec(s0, run).locked)
  {
    hide Placement, DoClient, ClientEnabled, ViewOf, ClientView, IsRun, Exec, AtStep, OtherViewsKept;
    ClientKeepsPlacement(Exec(s0, run), k, step);
    run' := Extend(s0, run, ByClient(k, step));
  }

  /** The next step of an eviction of another key. */
  lemma EvictOther(s0: State, run: seq<Action>, t: Thread, step: EvictStep, k: Key) returns (run': seq<Action>)
    requires IsRun(s0, run) && Placement(Exec(s0, run)) && EvictEnabled(Exec(s0, run), t, step)
    requires EvictKey(Exec(s0, run), t, step) != Some(k)
    ensures IsRun(s0, run') && Exec(s0, run') == DoEvict(Exec(s0, run), t, step) && Placement(Exec(s0, run'))
    ensures ViewOf(Exec(s0, run'), k) == ViewOf(Exec(s0, run), k)
  {
    hide Placement, DoEvict, EvictEnabled, ViewOf, IsRun, Exec, AtEvict, EvictView;
    var s := Exec(s0, run);
    if step.EvictRelock? {
      MutexStepKeepsPlacement(s, ByEvictor(t, step));
    } else {
      EvictKeepsPlacement(s, t, step);
    }
    run' := Extend(s0, run, ByEvictor(t, step));
  }

  /** The key is in nobody's hands. */
  predicate Idle(v: View) {
    v.eviction.None? && v.client.None?
  }

  lemma NotHeld(s: State, k: Key)
    requires Placement(s) && EvictionOf(s, k).None? && (k in s.clients ==> !s.clients[k].pc.HasKey())
    ensures k !in s.locked
  {
    var t := if k in s.holder then s.holder[k] else Client(k);
    assert k in s.holder <==> HasLock(s, t, k);
  }

  // ----- Getting the mutex

  /** How far the owner of the mutex is from giving it up. */
  ghost function OwnerLeft(s: State): nat {
    if s.mutex.None? then 0
    else if s.mutex.value in s.evictions || s.mutex.value.Flusher? || s.mutex.value.key !in s.clients then 1
    else
      var pc := s.clients[s.mutex.value.key].pc;
      if pc.PopMutex? then 4
      else if pc.PopKey? then 3
      else if pc.Found? then 2
      else if |s.queue| == MAX_ENTRIES then 3
      else 1
  }

  lemma OwnerAdvances(s: State)
    requires Placement(s) && s.mutex.Some? && Enabled(s, MutexOwnerStep(s))
    ensures OwnerLeft(Do(s, MutexOwnerStep(s))) < OwnerLeft(s)
    ensures Do(s, MutexOwnerStep(s)).history == s.history
  {
    var t := s.mutex.value;
    assert EvictionMutex(s, t);
    if t.Client? {
      assert ClientMutex(s, t.key);
    }
    hide Placement, MutexInv, LocksInv, ViewOf;
    if MutexOwnerStep(s).ByClient? {
      ClientOwnerAdvances(s, t.key);
    } else {
      EvictOwnerAdvances(s, t);
    }
  }

  lemma ClientOwnerAdvances(s: State, k: Key)
    requires s.mutex == Some(Client(k)) && k in s.clients && Client(k) !in s.evictions && |s.queue| <= MAX_ENTRIES
    requires MutexOwnerStep(s).ByClient? && Enabled(s, MutexOwnerStep(s))
    ensures OwnerLeft(Do(s, MutexOwnerStep(s))) < OwnerLeft(s)
    ensures Do(s, MutexOwnerStep(s)).history == s.history
  {
    hide AskedForKey, TakenOut, PopReleased, Decided, Woken, PopLocked, Destroyed, PushLocked, Inserted, Recorded;
  }

  lemma EvictOwnerAdvances(s: State, t: Thread)
    requires s.mutex == Some(t) && |s.queue| <= MAX_ENTRIES && (t in s.evictions ==> s.queue != [])
    requires !MutexOwnerStep(s).ByClient? && Enabled(s, MutexOwnerStep(s))
    ensures OwnerLeft(Do(s, MutexOwnerStep(s))) < OwnerLeft(s)
    ensures Do(s, MutexOwnerStep(s)).history == s.history
  {
    hide EraseKey, DoClient;
  }

  /** Whoever has the mutex can give it up without touching an idle key that is not queued. */
  lemma FreeMutex(s0: State, run: seq<Action>, k: Key) returns (run': seq<Action>)
    requires IsRun(s0, run) && Placement(Exec(s0, run)) && Idle(ViewOf(Exec(s0, run), k)) && ViewOf(Exec(s0, run), k).queued.None?
    ensures IsRun(s0, run') && Placement(Exec(s0, run')) && Exec(s0, run').mutex.None?
    ensures ViewOf(Exec(s0, run'), k) == ViewOf(Exec(s0, run), k) && Exec(s0, run').history == Exec(s0, run).history
    decreases OwnerLeft(Exec(s0, run))
  {
    var s := Exec(s0, run);
    if s.mutex.None? {
      run' := run;
    } else {
      MutexOwnerMoves(s);
      OwnerAdvances(s);
      var a := MutexOwnerStep(s);
      OwnerLeavesKey(s, k);
      hide Placement, IsRun, Exec, Do, Enabled, ViewOf, MutexOwnerStep, OwnerLeft;
      StepKeepsPlacement(s, a);
      run' := Extend(s0, run, a);
      run' := FreeMutex(s0, run', k);
    }
  }

  lemma OwnerLeavesKey(s: State, k: Key)
    requires Placement(s) && s.mutex.Some? && Enabled(s, MutexOwnerStep(s)) && Idle(ViewOf(s, k)) && ViewOf(s, k).queued.None?
    ensures ViewOf(Do(s, MutexOwnerStep(s)), k) == ViewOf(s, k)
  {
    var a := MutexOwnerStep(s);
    OwnerElsewhere(s, k);
    hide Placement, ViewOf, DoClient, DoEvict, MutexOwnerStep;
    if OnlyMutex(a) {
      MutexStepKeepsPlacement(s, a);
    } else if a.ByClient? {
      ClientKeepsPlacement(s, a.k, a.client);
    } else {
      EvictKeepsPlacement(s, a.t, a.evict);
    }
  }

  lemma OwnerElsewhere(s: State, k: Key)
    requires Placement(s) && s.mutex.Some? && Enabled(s, MutexOwnerStep(s)) && Idle(ViewOf(s, k)) && ViewOf(s, k).queued.None?
    ensures var a := MutexOwnerStep(s);
            && (a.ByClient? ==> a.k != k)
            && (a.ByEvictor? ==> !a.evict.EvictRelock? && EvictKey(s, a.t, a.evict) != Some(k))
  {
    assert EvictionMutex(s, s.mutex.value);
    assert s.queue != [] ==> Find(s.queue, s.queue[0].0).Some?;
    hide Placement, MutexInv, LocksInv, After, EvictionOf;
  }

  // ----- Whole operations of one client

  /** An operation on an idle key, up to its decision. */
  lemma Operation(s0: State, run: seq<Action>, k: Key, op: Op) returns (run': seq<Action>)
    requires IsRun(s0, run) && Placement(Exec(s0, run)) && Exec(s0, run).mutex.None? && Idle(ViewOf(Exec(s0, run), k))
    ensures IsRun(s0, run') && Placement(Exec(s0, run')) && Exec(s0, run').mutex.None?
    ensures var s, s', v := Exec(s0, run), Exec(s0, run'), ViewOf(Exec(s0, run), k);
            var d := DecisionFor(op, v.queued, v.base, v.notInBase);
            && s'.history == s.history + [Event(k, op, d.outcome)]
            && ViewOf(s', k) == View(None, None, if d.next.Some? then Some(ClientState(op, d.next.value)) else None,
                                     d.base, v.notInBase, None, EffectAt(v.logical, op))
  {
    var s := Exec(s0, run);
    NotHeld(s, k);
    run' := Ask(s0, run, k, op);
    run' := Answered(s0, run', k);
  }

  lemma Ask(s0: State, run: seq<Action>, k: Key, op: Op) returns (run': seq<Action>)
    requires IsRun(s0, run) && Placement(Exec(s0, run)) && Exec(s0, run).mutex.None? && Idle(ViewOf(Exec(s0, run), k))
    requires k !in Exec(s0, run).locked
    ensures IsRun(s0, run') && Placement(Exec(s0, run'))
    ensures ViewOf(Exec(s0, run'), k) == ViewOf(Exec(s0, run), k).(client := Some(ClientState(op, PopKey)))
    ensures Exec(s0, run').history == Exec(s0, run).history
  {
    hide Placement, IsRun, Exec, EvictionOf, After, Find, Decided, Woken, TakenOut, PopReleased, Destroyed, PushLocked, Inserted, Recorded, View.Placed, View.Right;
    run' := Advance(s0, run, k, Begin(op));
    run' := Advance(s0, run', k, PopLock);
    run' := Advance(s0, run', k, PopKeyLock);
  }

  lemma Answered(s0: State, run: seq<Action>, k: Key) returns (run': seq<Action>)
    requires IsRun(s0, run) && Placement(Exec(s0, run)) && EvictionOf(Exec(s0, run), k).None?
    requires k in Exec(s0, run).clients && Exec(s0, run).clients[k].pc.PopKey?
    ensures IsRun(s0, run') && Placement(Exec(s0, run')) && Exec(s0, run').mutex.None?
    ensures var s, s', v := Exec(s0, run), Exec(s0, run'), ViewOf(Exec(s0, run), k);
            var op := s.clients[k].op;
            var d := DecisionFor(op, v.queued, v.base, v.notInBase);
            && s'.history == s.history + [Event(k, op, d.outcome)]
            && ViewOf(s', k) == View(None, None, if d.next.Some? then Some(ClientState(op, d.next.value)) else None,
                                     d.base, v.notInBase, None, EffectAt(v.logical, op))
  {
    hide Placement, IsRun, Exec, EvictionOf, After, Find, DecisionFor, EffectAt, Put, Removed, EraseKey, AskedForKey, Woken, PopLocked, Destroyed, PushLocked, Inserted, Recorded, View.Placed, View.Right;
    run' := Advance(s0, run, k, Take);
    run' := Advance(s0, run', k, PopRelease);
    run' := Advance(s0, run', k, Decide);
  }

  /** A push of the client of `k`, evicting another entry if the cache is full. */
  lemma Push(s0: State, run: seq<Action>, k: Key) returns (run': seq<Action>)
    requires IsRun(s0, run) && Placement(Exec(s0, run)) && Exec(s0, run).mutex.None?
    requires k in Exec(s0, run).clients && Exec(s0, run).clients[k].pc.PushStart?
    ensures IsRun(s0, run') && Placement(Exec(s0, run')) && Exec(s0, run').mutex.None? && Exec(s0, run').history == Exec(s0, run).history
    ensures var v, c := ViewOf(Exec(s0, run), k), Exec(s0, run).clients[k];
            ViewOf(Exec(s0, run'), k) == v.(queued := Some(c.pc.b), pushed := Some(Pushed(c.pc.b, false)),
                                            client := if c.pc.creates then Some(ClientState(c.op, Recording)) else None)
  {
    run' := PushBegins(s0, run, k);
    var s := Exec(s0, run');
    if |s.queue| == MAX_ENTRIES {
      run' := MakeRoom(s0, run', k);
    }
    run' := PushEnds(s0, run', k);
  }

  lemma PushBegins(s0: State, run: seq<Action>, k: Key) returns (run': seq<Action>)
    requires IsRun(s0, run) && Placement(Exec(s0, run)) && Exec(s0, run).mutex.None?
    requires k in Exec(s0, run).clients && Exec(s0, run).clients[k].pc.PushStart?
    ensures IsRun(s0, run') && Placement(Exec(s0, run')) && Exec(s0, run').history == Exec(s0, run).history
    ensures Exec(s0, run').mutex == Some(Client(k)) && Client(k) !in Exec(s0, run').evictions
    ensures var v, c := ViewOf(Exec(s0, run), k), Exec(s0, run).clients[k];
            ViewOf(Exec(s0, run'), k) == v.(client := Some(ClientState(c.op, Pushing(c.pc.b, c.pc.creates))))
  {
    var s := Exec(s0, run);
    assert EvictionMutex(s, Client(k)) && ClientMutex(s, k);
    hide Placement, IsRun, Exec, EvictionOf, After, Find, View.Placed, View.Right, Decided, Inserted, TakenOut, AskedForKey, Woken, PopReleased;
    run' := Advance(s0, run, k, PushLock);
  }

  lemma PushEnds(s0: State, run: seq<Action>, k: Key) returns (run': seq<Action>)
    requires IsRun(s0, run) && Placement(Exec(s0, run)) && Client(k) !in Exec(s0, run).evictions && |Exec(s0, run).queue| < MAX_ENTRIES
    requires k in Exec(s0, run).clients && Exec(s0, run).clients[k].pc.Pushing?
    ensures IsRun(s0, run') && Placement(Exec(s0, run')) && Exec(s0, run').mutex.None? && Exec(s0, run').history == Exec(s0, run).history
    ensures var v, c := ViewOf(Exec(s0, run), k), Exec(s0, run).clients[k];
            ViewOf(Exec(s0, run'), k) == v.(queued := Some(c.pc.b), pushed := Some(Pushed(c.pc.b, false)),
                                            client := if c.pc.creates then Some(ClientState(c.op, Recording)) else None)
  {
    hide Placement, IsRun, Exec, EvictionOf, After, Find, View.Placed, View.Right, Decided, TakenOut, AskedForKey, Woken, PopReleased;
    run' := Advance(s0, run, k, Insert);
  }

  /** The pushing client evicts the oldest entry. */
  lemma MakeRoom(s0: State, run: seq<Action>, k: Key) returns (run': seq<Action>)
    requires IsRun(s0, run) && Placement(Exec(s0, run)) && Exec(s0, run).mutex == Some(Client(k)) && Client(k) !in Exec(s0, run).evictions
    requires k in Exec(s0, run).clients && Exec(s0, run).clients[k].pc.Pushing? && |Exec(s0, run).queue| == MAX_ENTRIES
    ensures IsRun(s0, run') && Placement(Exec(s0, run')) && Client(k) !in Exec(s0, run').evictions && |Exec(s0, run').queue| < MAX_ENTRIES
    ensures ViewOf(Exec(s0, run'), k) == ViewOf(Exec(s0, run), k) && Exec(s0, run').history == Exec(s0, run).history
    ensures Exec(s0, run').clients == Exec(s0, run).clients
  {
    var s := Exec(s0, run);
    assert s.queue != [];
    OldestNotLocked(s, Client(k));
    OldestIsOther(s, k);
    hide Placement, IsRun, Exec, ViewOf;
    run' := TakeOldest(s0, run, k, s.queue[0].0);
    run' := FlushOldest(s0, run', k, s.queue[0].0);
  }

  lemma OldestIsOther(s: State, k: Key)
    requires Placement(s) && k in s.clients && s.clients[k].pc.HasBlock() && s.queue != []
    ensures s.queue[0].0 != k
  {
    assert ViewOf(s, k).Placed();
    PlacedInsert(s, k);
    assert s.queue[0].0 in Keys(s.queue);
  }

  lemma TakeOldest(s0: State, run: seq<Action>, k: Key, x: Key) returns (run': seq<Action>)
    requires IsRun(s0, run) && Placement(Exec(s0, run)) && Exec(s0, run).mutex == Some(Client(k)) && Client(k) !in Exec(s0, run).evictions
    requires k in Exec(s0, run).clients && Exec(s0, run).clients[k].pc.Pushing? && |Exec(s0, run).queue| == MAX_ENTRIES
    requires Exec(s0, run).queue[0].0 == x != k && x !in Exec(s0, run).locked
    ensures IsRun(s0, run') && Placement(Exec(s0, run')) && |Exec(s0, run').queue| < MAX_ENTRIES && Exec(s0, run').mutex.None?
    ensures ViewOf(Exec(s0, run'), k) == ViewOf(Exec(s0, run), k) && Exec(s0, run').history == Exec(s0, run).history
    ensures Exec(s0, run').clients == Exec(s0, run).clients
    ensures Client(k) in Exec(s0, run').evictions && Exec(s0, run').evictions[Client(k)].Flushing? && Exec(s0, run').evictions[Client(k)].key == x
  {
    hide Placement, IsRun, Exec, ViewOf;
    run' := EvictOther(s0, run, Client(k), EvictLock, k);
    run' := EvictOther(s0, run', Client(k), EvictPop, k);
  }

  lemma FlushOldest(s0: State, run: seq<Action>, k: Key, x: Key) returns (run': seq<Action>)
    requires IsRun(s0, run) && Placement(Exec(s0, run)) && Exec(s0, run).mutex.None? && x != k
    requires Client(k) in Exec(s0, run).evictions && Exec(s0, run).evictions[Client(k)].Flushing? && Exec(s0, run).evictions[Client(k)].key == x
    ensures IsRun(s0, run') && Placement(Exec(s0, run')) && Client(k) !in Exec(s0, run').evictions && Exec(s0, run').queue == Exec(s0, run).queue
    ensures ViewOf(Exec(s0, run'), k) == ViewOf(Exec(s0, run), k) && Exec(s0, run').history == Exec(s0, run).history
    ensures Exec(s0, run').clients == Exec(s0, run).clients
  {
    hide Placement, IsRun, Exec, ViewOf, EraseKey, WriteBack;
    run' := EvictOther(s0, run, Client(k), EvictStore, k);
    run' := EvictOther(s0, run', Client(k), EvictErase, k);
    run' := EvictOther(s0, run', Client(k), EvictRelease, k);
    run' := EvictOther(s0, run', Client(k), EvictRelock, k);
  }

  // ----- The race

  /** After a flush that overtook the recording of a creation, the block can be loaded, removed and
      loaded again, with the answers of `LostRemoval`. */
  function LostRemoval(k: Key, d: Data): seq<Event> {
    [Event(k, Load, Loaded(Some(d))), Event(k, Remove, Removal(true)), Event(k, Load, Loaded(Some(d)))]
  }

  lemma LostRemovalIsIllegal(initial: Store, h: seq<Event>, k: Key, d: Data)
    ensures !Legal(initial, h + LostRemoval(k, d))
  {
    hide After, Legal, Effect, Answer;
    var e := LostRemoval(k, d);
    var h1, h2 := h + [e[0]], h + [e[0]] + [e[1]];
    Three(h, e);
    LogicalStep(initial, h1, e[1]);
    OneKeyOnly(After(initial, h1), k, Remove, k);
    LogicalStep(initial, h2, e[2]);
    OneKeyOnly(After(initial, h2), k, Load, k);
  }

  /** A step that races is fatal: whatever else is going on, the run can be continued so that the
      answers are not those of a plain map. */
  lemma RaceIsFatal(s: State, a: Action) returns (run: seq<Action>)
    requires Inv(s) && Enabled(s, a) && Races(s, a)
    ensures IsRun(Do(s, a), run) && !Legal(s.initial, Exec(Do(s, a), run).history)
    ensures exists d: Data :: Exec(Do(s, a), run).history == s.history + LostRemoval(s.evictions[a.t].key, d)
  {
    var k, s1 := s.evictions[a.t].key, Do(s, a);
    var d := RacedView(s, a);
    run := [];
    assert Exec(s1, run) == s1;
    hide Inv, IsRun, Exec, Do, Placement, ViewOf, Enabled, Legal;
    run := AfterRace(s1, run, a.t, k, d);
    LostRemovalIsIllegal(s.initial, s.history, k, d);
  }

  /** What the race leaves: the block is in the base store, and its creator will record that it is not. */
  ghost predicate Raced(v: View, d: Data) {
    && v.queued.None? && v.eviction.Some? && v.eviction.value.Erased? && v.base == Some(d) && v.logical == Some(d)
    && v.client.Some? && v.client.value.pc.Recording?
  }

  lemma RacedView(s: State, a: Action) returns (d: Data)
    requires Inv(s) && Enabled(s, a) && Races(s, a)
    ensures var k, s' := s.evictions[a.t].key, Do(s, a);
            && Placement(s') && s'.history == s.history && s'.initial == s.initial && Raced(ViewOf(s', k), d)
            && a.t in s'.evictions && s'.evictions[a.t] == Erased(k)
  {
    var k := s.evictions[a.t].key;
    var v := ViewOf(s, k);
    EvictKeepsPlacement(s, a.t, a.evict);
    assert v.Placed() && v.Right();
    EvictionIs(s, a.t);
    hide Inv, Placement, LocksInv, MutexInv, Find, After;
    d := v.base.value;
  }

  lemma AfterRace(s0: State, run: seq<Action>, t: Thread, k: Key, d: Data) returns (run': seq<Action>)
    requires IsRun(s0, run) && Placement(Exec(s0, run)) && Raced(ViewOf(Exec(s0, run), k), d)
    requires t in Exec(s0, run).evictions && Exec(s0, run).evictions[t] == Erased(k)
    ensures IsRun(s0, run') && Exec(s0, run').history == Exec(s0, run).history + LostRemoval(k, d)
  {
    run' := FinishRace(s0, run, t, k, d);
    hide Placement, IsRun, Exec, EvictionOf, After, Find, ViewOf, View.Placed, View.Right, Idle;
    run' := FreeMutex(s0, run', k);
    run' := LoadAndRemove(s0, run', k, d);
  }

  /** The eviction lets go of the key, and the creation is recorded. */
  lemma FinishRace(s0: State, run: seq<Action>, t: Thread, k: Key, d: Data) returns (run': seq<Action>)
    requires IsRun(s0, run) && Placement(Exec(s0, run)) && Raced(ViewOf(Exec(s0, run), k), d)
    requires t in Exec(s0, run).evictions && Exec(s0, run).evictions[t] == Erased(k)
    ensures IsRun(s0, run') && Placement(Exec(s0, run')) && Exec(s0, run').history == Exec(s0, run).history
    ensures Resurrectable(ViewOf(Exec(s0, run'), k), d)
  {
    hide Placement, IsRun, Exec, EvictionOf, After, Find, View.Placed, View.Right, DoEvict, DoClient;
    run' := LetGo(s0, run, t, k);
    run' := Advance(s0, run', k, Record);
  }

  lemma LetGo(s0: State, run: seq<Action>, t: Thread, k: Key) returns (run': seq<Action>)
    requires IsRun(s0, run) && Placement(Exec(s0, run)) && t in Exec(s0, run).evictions && Exec(s0, run).evictions[t] == Erased(k)
    ensures IsRun(s0, run') && Placement(Exec(s0, run')) && Exec(s0, run').history == Exec(s0, run).history
    ensures ViewOf(Exec(s0, run'), k) == ViewOf(Exec(s0, run), k).(eviction := None)
  {
    hide Placement, IsRun, Exec, ViewOf, DoEvict, AtEvict;
    var s := Exec(s0, run);
    EvictKeepsPlacement(s, t, EvictRelease);
    assert EvictKey(s, t, EvictRelease) == Some(k);
    run' := Extend(s0, run, ByEvictor(t, EvictRelease));
  }

  ghost predicate Resurrectable(v: View, d: Data) {
    Idle(v) && v.queued.None? && v.base == Some(d) && v.notInBase && v.logical == Some(d)
  }

  lemma LoadAndRemove(s0: State, run: seq<Action>, k: Key, d: Data) returns (run': seq<Action>)
    requires IsRun(s0, run) && Placement(Exec(s0, run)) && Exec(s0, run).mutex.None? && Resurrectable(ViewOf(Exec(s0, run), k), d)
    ensures IsRun(s0, run') && Exec(s0, run').history == Exec(s0, run).history + LostRemoval(k, d)
  {
    var h := Exec(s0, run).history;
    hide Placement, IsRun, Exec, ViewOf;
    run' := LoadIt(s0, run, k, d);
    run' := RemoveIt(s0, run', k, d);
    run' := Operation(s0, run', k, Load);
    Three(h, LostRemoval(k, d));
  }

  lemma Three(h: seq<Event>, e: seq<Event>)
    requires |e| == 3
    ensures h + [e[0]] + [e[1]] + [e[2]] == h + e
  {
  }

  lemma LoadIt(s0: State, run: seq<Action>, k: Key, d: Data) returns (run': seq<Action>)
    requires IsRun(s0, run) && Placement(Exec(s0, run)) && Exec(s0, run).mutex.None? && Resurrectable(ViewOf(Exec(s0, run), k), d)
    ensures IsRun(s0, run') && Placement(Exec(s0, run')) && Exec(s0, run').mutex.None?
    ensures Exec(s0, run').history == Exec(s0, run).history + [Event(k, Load, Loaded(Some(d)))]
    ensures var v := ViewOf(Exec(s0, run'), k); Idle(v) && v.queued == Some(Block(d, false)) && v.base == Some(d) && v.notInBase
  {
    hide Placement, IsRun, Exec, EvictionOf, After, Find, View.Placed, View.Right;
    run' := Operation(s0, run, k, Load);
    run' := Push(s0, run', k);
  }

  lemma RemoveIt(s0: State, run: seq<Action>, k: Key, d: Data) returns (run': seq<Action>)
    requires IsRun(s0, run) && Placement(Exec(s0, run)) && Exec(s0, run).mutex.None?
    requires var v := ViewOf(Exec(s0, run), k); Idle(v) && v.queued == Some(Block(d, false)) && v.base == Some(d) && v.notInBase
    ensures IsRun(s0, run') && Placement(Exec(s0, run')) && Exec(s0, run').mutex.None?
    ensures Exec(s0, run').history == Exec(s0, run).history + [Event(k, Remove, Removal(true))]
    ensures var v := ViewOf(Exec(s0, run'), k); Idle(v) && v.queued.None? && v.base == Some(d)
  {
    hide Placement, IsRun, Exec, EvictionOf, After, Find, View.Placed, View.Right;
    run' := Operation(s0, run, k, Remove);
    run' := Advance(s0, run', k, Destroy);
  }

  /** The race is reachable: a new block is flushed before its creation has been recorded, and then
      the removed block is loaded again. */
  lemma RemovedBlockComesBack(k: Key, d: Data) returns (run: seq<Action>)
    ensures IsRun(Init(map[]), run)
    ensures Exec(Init(map[]), run).history == [Event(k, TryCreate(d), Created(true))] + LostRemoval(k, d)
  {
    var s0 := Init(map[]);
    run := CreateNew(k, d);
    run := PushNew(s0, run, k, d);
    run := FlushNew(s0, run, k, d);
    InitInv(map[]);
    RunKeepsPlacement(s0, run);
    AfterFlush(k, d);
    hide IsRun, Exec, ViewOf, Placement;
    run := AfterRace(s0, run, Flusher(0), k, d);
  }

  /** The states on the way to the race. */
  function Creating(k: Key, d: Data, pc: Pc): State {
    Init(map[]).(clients := map[k := ClientState(TryCreate(d), pc)],
                 history := if pc.PushStart? || pc.Recording? then [Event(k, TryCreate(d), Created(true))] else [])
  }

  function FlushedEarly(k: Key, d: Data): State {
    Creating(k, d, Recording).(locked := [k], holder := map[k := Flusher(0)], evictions := map[Flusher(0) := Erased(k)],
                               base := map[k := d], pushed := map[k := Pushed(Block(d, true), true)])
  }

  lemma CreateNew(k: Key, d: Data) returns (run: seq<Action>)
    ensures IsRun(Init(map[]), run) && Exec(Init(map[]), run) == Creating(k, d, PushStart(Block(d, true), true))
  {
    run := AskForNew(k, d);
    var s0 := Init(map[]);
    hide IsRun, Exec;
    run := Extend(s0, run, ByClient(k, Take));
    run := Extend(s0, run, ByClient(k, PopRelease));
    assert Exec(s0, run).holder == map[] && Exec(s0, run) == Creating(k, d, Popped(None));
    run := DecideNew(s0, run, k, d);
  }

  lemma AskForNew(k: Key, d: Data) returns (run: seq<Action>)
    ensures IsRun(Init(map[]), run)
    ensures Exec(Init(map[]), run) == Creating(k, d, PopKey).(mutex := Some(Client(k)), locked := [k], holder := map[k := Client(k)])
  {
    var s0 := Init(map[]);
    run := [];
    assert Exec(s0, run) == s0;
    hide IsRun, Exec;
    run := Extend(s0, run, ByClient(k, Begin(TryCreate(d))));
    run := Extend(s0, run, ByClient(k, PopLock));
    run := Extend(s0, run, ByClient(k, PopKeyLock));
  }

  lemma DecideNew(s0: State, run: seq<Action>, k: Key, d: Data) returns (run': seq<Action>)
    requires IsRun(s0, run) && Exec(s0, run) == Creating(k, d, Popped(None))
    ensures IsRun(s0, run') && Exec(s0, run') == Creating(k, d, PushStart(Block(d, true), true))
  {
    hide IsRun, Exec;
    run' := Extend(s0, run, ByClient(k, Decide));
    assert Exec(s0, run').pushed == map[] && Exec(s0, run').base == map[];
  }

  lemma PushNew(s0: State, run: seq<Action>, k: Key, d: Data) returns (run': seq<Action>)
    requires IsRun(s0, run) && Exec(s0, run) == Creating(k, d, PushStart(Block(d, true), true))
    ensures IsRun(s0, run')
    ensures Exec(s0, run') == Creating(k, d, Recording).(queue := [(k, Block(d, true))], pushed := map[k := Pushed(Block(d, true), false)])
  {
    hide IsRun, Exec;
    run' := Extend(s0, run, ByClient(k, PushLock));
    run' := Extend(s0, run', ByClient(k, Insert));
  }

  function Storing(k: Key, d: Data, e: Eviction): State {
    Creating(k, d, Recording).(locked := [k], holder := map[k := Flusher(0)], evictions := map[Flusher(0) := e],
                               pushed := map[k := Pushed(Block(d, true), false)])
  }

  lemma FlushNew(s0: State, run: seq<Action>, k: Key, d: Data) returns (run': seq<Action>)
    requires IsRun(s0, run)
    requires Exec(s0, run) == Creating(k, d, Recording).(queue := [(k, Block(d, true))], pushed := map[k := Pushed(Block(d, true), false)])
    ensures IsRun(s0, run') && Exec(s0, run') == FlushedEarly(k, d)
  {
    hide IsRun, Exec;
    run' := TakeNew(s0, run, k, d);
    run' := Extend(s0, run', ByEvictor(Flusher(0), EvictStore));
    run' := Extend(s0, run', ByEvictor(Flusher(0), EvictErase));
  }

  lemma TakeNew(s0: State, run: seq<Action>, k: Key, d: Data) returns (run': seq<Action>)
    requires IsRun(s0, run)
    requires Exec(s0, run) == Creating(k, d, Recording).(queue := [(k, Block(d, true))], pushed := map[k := Pushed(Block(d, true), false)])
    ensures IsRun(s0, run') && Exec(s0, run') == Storing(k, d, Flushing(k, Block(d, true)))
  {
    hide IsRun, Exec;
    run' := Extend(s0, run, FlushLock(0));
    run' := Extend(s0, run', ByEvictor(Flusher(0), EvictLock));
    assert Exec(s0, run') == Storing(k, d, KeyLocked(k)).(queue := [(k, Block(d, true))], mutex := Some(Flusher(0)));
    run' := Extend(s0, run', ByEvictor(Flusher(0), EvictPop));
  }

  lemma AfterFlush(k: Key, d: Data)
    ensures Raced(ViewOf(FlushedEarly(k, d), k), d)
  {
    NewLogical(k, d);
    hide After;
    var s := FlushedEarly(k, d);
    assert Find(s.queue, k) == None;
    assert EvictionOf(s, k) == Some(Erased(k));
    hide Find, EvictionOf;
  }

  lemma NewLogical(k: Key, d: Data)
    ensures Lookup(After(map[], [Event(k, TryCreate(d), Created(true))]), k) == Some(d)
  {
    var e := Event(k, TryCreate(d), Created(true));
    assert [e][..0] == [];
    assert After(map[], []) == map[];
  }

  // ----- The clash

  /** A step that clashes has already given the wrong answer. */
  lemma ClashIsFatal(s: State, a: Action)
    requires Inv(s) && Enabled(s, a) && Clashes(s, a)
    ensures !Legal(s.initial, Do(s, a).history)
  {
    assert ViewOf(s, a.k).Placed() && ViewOf(s, a.k).Right();
    hide Placement, Legal, ViewOf;
    DecideLegal(s, a.k);
  }

  /** Creating a block that exists in the base store succeeds. */
  lemma ExistingBlockIsCreated(k: Key, d: Data, d': Data) returns (run: seq<Action>)
    ensures IsRun(Init(map[k := d]), run)
    ensures Exec(Init(map[k := d]), run).history == [Event(k, TryCreate(d'), Created(true))]
  {
    var s0 := Init(map[k := d]);
    run := [];
    assert Exec(s0, run) == s0 && s0.history == [];
    AtFirst(map[k := d], k);
    hide IsRun, Exec, Placement, ViewOf, Init;
    run := Operation(s0, run, k, TryCreate(d'));
    assert [] + [Event(k, TryCreate(d'), Created(true))] == [Event(k, TryCreate(d'), Created(true))];
  }

  lemma AtFirst(base: Store, k: Key)
    ensures var s := Init(base); Placement(s) && s.mutex.None? && ViewOf(s, k).queued.None? && Idle(ViewOf(s, k)) && ViewOf(s, k).base == Lookup(base, k)
  {
    InitInv(base);
    hide Placement, After;
  }
}
