/** What every step and every run of the cache protocol keeps. */
module CacheProofs {
  import opened Bytes
  import opened QueueMap
  import opened CacheProtocol

  // ----- The mutex

  /** A client's step, as far as the mutex is concerned. */
  ghost predicate MutexStep(s: State, s': State, k: Key) {
    && s'.evictions == s.evictions && SameBut(s.clients, s'.clients, k) && ClientMutex(s', k)
    && Client(k) !in s.evictions
    && (s'.mutex != s.mutex ==> (s.mutex.None? || s.mutex == Some(Client(k))) && (s'.mutex.None? || s'.mutex == Some(Client(k))))
    && (s'.queue != s.queue ==> s.mutex == Some(Client(k)))
  }

  lemma LockMutexStep(s: State, k: Key, step: ClientStep)
    requires step.PopLock? || step.PopWake?
    requires ClientEnabled(s, k, step) && ClientMutex(s, k) && EvictionMutex(s, Client(k))
    ensures MutexStep(s, DoClient(s, k, step), k)
  {
    hide AskedForKey, TakenOut, PopReleased, Decided, Destroyed, PushLocked, Inserted, Recorded;
  }

  lemma AskMutexStep(s: State, k: Key)
    requires ClientEnabled(s, k, PopKeyLock) && ClientMutex(s, k) && EvictionMutex(s, Client(k))
    ensures MutexStep(s, DoClient(s, k, PopKeyLock), k)
  {
    hide Woken, TakenOut, PopReleased, Decided, Destroyed, PushLocked, Inserted, Recorded, PopLocked;
  }

  lemma TakeMutexStep(s: State, k: Key, step: ClientStep)
    requires step.Take? || step.PopRelease?
    requires ClientEnabled(s, k, step) && ClientMutex(s, k) && EvictionMutex(s, Client(k))
    ensures MutexStep(s, DoClient(s, k, step), k)
  {
    hide AskedForKey, Woken, Decided, Destroyed, PushLocked, Inserted, Recorded, PopLocked, Removed, Find, EraseKey;
  }

  lemma DecideMutexStep(s: State, k: Key)
    requires ClientEnabled(s, k, Decide) && ClientMutex(s, k) && EvictionMutex(s, Client(k))
    ensures MutexStep(s, DoClient(s, k, Decide), k)
  {
    hide AskedForKey, Woken, TakenOut, PopReleased, Destroyed, PushLocked, Inserted, Recorded, PopLocked, Put;
  }

  lemma InsertMutexStep(s: State, k: Key)
    requires ClientEnabled(s, k, Insert) && ClientMutex(s, k) && EvictionMutex(s, Client(k))
    ensures MutexStep(s, DoClient(s, k, Insert), k)
  {
    hide AskedForKey, Woken, TakenOut, PopReleased, Decided, Destroyed, PushLocked, Recorded, PopLocked, Keys;
  }

  lemma OtherMutexStep(s: State, k: Key, step: ClientStep)
    requires step.Begin? || step.Destroy? || step.PushLock? || step.Record?
    requires ClientEnabled(s, k, step) && ClientMutex(s, k) && EvictionMutex(s, Client(k))
    ensures MutexStep(s, DoClient(s, k, step), k)
  {
    hide AskedForKey, Woken, TakenOut, PopReleased, Decided, Inserted, PopLocked;
  }

  lemma ClientStepMutex(s: State, k: Key, step: ClientStep)
    requires ClientEnabled(s, k, step) && ClientMutex(s, k) && EvictionMutex(s, Client(k))
    ensures MutexStep(s, DoClient(s, k, step), k)
  {
    hide *;
    if step.Decide? {
      DecideMutexStep(s, k);
    } else if step.PopKeyLock? {
      AskMutexStep(s, k);
    } else if step.PopLock? || step.PopWake? {
      LockMutexStep(s, k, step);
    } else if step.Take? || step.PopRelease? {
      TakeMutexStep(s, k, step);
    } else if step.Insert? {
      InsertMutexStep(s, k);
    } else {
      OtherMutexStep(s, k, step);
    }
  }

  lemma ClientKeepsMutexInv(s: State, k: Key, step: ClientStep)
    requires ClientEnabled(s, k, step) && MutexInv(s)
    ensures MutexInv(DoClient(s, k, step))
  {
    hide DoClient;
    assert ClientMutex(s, k) && EvictionMutex(s, Client(k));
    ClientStepMutex(s, k, step);
    var s' := DoClient(s, k, step);
    forall y: Key ensures ClientMutex(s', y) {
      assert ClientMutex(s, y);
    }
    forall t: Thread ensures EvictionMutex(s', t) {
      assert EvictionMutex(s, t);
    }
  }

  /** An eviction step, as far as the mutex is concerned. */
  ghost predicate EvictMutexStep(s: State, s': State, t: Thread) {
    && s'.clients == s.clients && EvictionMutex(s', t)
    && (forall u | u != t :: (u in s.evictions <==> u in s'.evictions) && (u in s.evictions ==> s.evictions[u] == s'.evictions[u]))
    && (s'.mutex != s.mutex ==> (s.mutex.None? || s.mutex == Some(t)) && (s'.mutex.None? || s'.mutex == Some(t)))
    && (s'.queue != s.queue ==> s.mutex == Some(t))
    && (t.Client? ==> t.key in s.clients && s.clients[t.key].pc.Pushing?)
    && (s'.mutex == Some(t) <==> t !in s'.evictions || s'.evictions[t].KeyLocked?)
  }

  lemma EvictStepMutex(s: State, t: Thread, step: EvictStep)
    requires EvictEnabled(s, t, step) && EvictionMutex(s, t)
    ensures EvictMutexStep(s, DoEvict(s, t, step), t)
  {
    hide EraseKey, WriteBack;
  }

  lemma EvictKeepsMutexInv(s: State, t: Thread, step: EvictStep)
    requires EvictEnabled(s, t, step) && MutexInv(s)
    ensures MutexInv(DoEvict(s, t, step))
  {
    var s' := DoEvict(s, t, step);
    hide DoEvict;
    assert EvictionMutex(s, t);
    EvictStepMutex(s, t, step);
    forall y: Key ensures ClientMutex(s', y) {
      assert ClientMutex(s, y);
    }
    forall u: Thread ensures EvictionMutex(s', u) {
      assert EvictionMutex(s, u);
    }
  }

  // ----- The lock pool

  lemma {:induction false} EraseOnce(s: seq<Key>, k: Key)
    requires NoDuplicates(s)
    ensures NoDuplicates(EraseKey(s, k)) && forall x: Key :: x in EraseKey(s, k) <==> x in s && x != k
  {
    if s != [] {
      EraseOnce(s[1..], k);
      var r := EraseKey(s[1..], k);
      forall x: Key ensures x in EraseKey(s, k) <==> x in s && x != k {
        assert x in s <==> x == s[0] || x in s[1..];
      }
      assert s[0] !in s[1..];
    }
  }

  // ----- One key at a time

  lemma LogicalStep(initial: Store, h: seq<Event>, e: Event)
    ensures After(initial, h + [e]) == Effect(After(initial, h), e.key, e.op)
    ensures Legal(initial, h) && e.outcome == Answer(After(initial, h), e.key, e.op) ==> Legal(initial, h + [e])
    ensures Legal(initial, h + [e]) ==> e.outcome == Answer(After(initial, h), e.key, e.op)
  {
    var h' := h + [e];
    assert h'[..|h'| - 1] == h;
    assert forall i | 0 <= i < |h| :: h'[..i] == h[..i] && h'[i] == h[i];
    assert h'[|h|] == e;
  }

  lemma FindAppended(q: Items<Key, Block>, k: Key, b: Block, y: Key)
    ensures Find(q + [(k, b)], y) == if Find(q, y).None? && y == k then Some(b) else Find(q, y)
  {
    var q' := q + [(k, b)];
    if q != [] {
      assert q'[1..] == q[1..] + [(k, b)];
      FindAppended(q[1..], k, b, y);
    }
  }

  lemma DistinctTail(q: Items<Key, Block>)
    requires DistinctKeys(q) && q != []
    ensures DistinctKeys(q[1..]) && Find(q[1..], q[0].0).None?
  {
  }

  /** The pieces of a view that a client's step of `k` can reach. */
  ghost predicate ClientFrame(s: State, s': State, k: Key) {
    && s'.initial == s.initial && s'.evictions == s.evictions
    && SameBut(s.holder, s'.holder, k) && SameBut(s.clients, s'.clients, k) && SameBut(s.base, s'.base, k)
    && SameBut(s.pushed, s'.pushed, k)
    && (forall y | y != k :: y in s.notInBase <==> y in s'.notInBase)
    && (forall y | y != k :: Find(s'.queue, y) == Find(s.queue, y))
    && (forall y | y != k :: Lookup(s'.Logical(), y) == Lookup(s.Logical(), y))
  }

  lemma TakeFrames(s: State, k: Key)
    requires ClientEnabled(s, k, Take) && DistinctKeys(s.queue)
    ensures ClientFrame(s, DoClient(s, k, Take), k)
  {
    hide AskedForKey, Woken, PopReleased, Decided, Destroyed, PushLocked, Inserted, Recorded, PopLocked, After, Find, DistinctKeys;
    RemovedIsDeletion(s.queue, k);
  }

  lemma LogicalFrame(initial: Store, h: seq<Event>, e: Event)
    ensures SameBut(After(initial, h), After(initial, h + [e]), e.key)
  {
  }

  lemma DecideFrames(s: State, k: Key)
    requires ClientEnabled(s, k, Decide)
    ensures ClientFrame(s, DoClient(s, k, Decide), k)
  {
    hide Put, After, DecisionFor, Find, Effect, Answer, Legal;
    var d := DecisionFor(s.clients[k].op, s.clients[k].pc.r, Lookup(s.base, k), k in s.notInBase);
    LogicalFrame(s.initial, s.history, Event(k, s.clients[k].op, d.outcome));
  }

  lemma InsertFrames(s: State, k: Key)
    requires ClientEnabled(s, k, Insert)
    ensures ClientFrame(s, DoClient(s, k, Insert), k)
  {
    hide AskedForKey, Woken, TakenOut, PopReleased, Decided, Destroyed, PushLocked, Recorded, PopLocked, After, Keys, Find;
    var s' := DoClient(s, k, Insert);
    forall y | y != k ensures Find(s'.queue, y) == Find(s.queue, y) {
      FindAppended(s.queue, k, s.clients[k].pc.b, y);
    }
  }

  lemma LockFrames(s: State, k: Key)
    requires ClientEnabled(s, k, PopKeyLock)
    ensures ClientFrame(s, DoClient(s, k, PopKeyLock), k)
  {
    hide Woken, TakenOut, PopReleased, Decided, Destroyed, PushLocked, Inserted, Recorded, PopLocked, After, Find, Lookup, Goto, Lock;
  }

  lemma WakeFrames(s: State, k: Key)
    requires ClientEnabled(s, k, PopWake)
    ensures ClientFrame(s, DoClient(s, k, PopWake), k)
  {
    hide AskedForKey, TakenOut, PopReleased, Decided, Destroyed, PushLocked, Inserted, Recorded, PopLocked, After, Find, Lookup;
  }

  lemma ReleaseFrames(s: State, k: Key)
    requires ClientEnabled(s, k, PopRelease)
    ensures ClientFrame(s, DoClient(s, k, PopRelease), k)
  {
    hide AskedForKey, Woken, TakenOut, Decided, Destroyed, PushLocked, Inserted, Recorded, PopLocked, After, Find, Lookup, EraseKey;
  }

  lemma OtherFrames(s: State, k: Key, step: ClientStep)
    requires step.Begin? || step.PopLock? || step.Destroy? || step.PushLock? || step.Record?
    requires ClientEnabled(s, k, step)
    ensures ClientFrame(s, DoClient(s, k, step), k)
  {
    hide AskedForKey, Woken, TakenOut, PopReleased, Decided, Inserted, After, Find, Lookup;
  }

  lemma ClientFrames(s: State, k: Key, step: ClientStep)
    requires ClientEnabled(s, k, step) && DistinctKeys(s.queue)
    ensures ClientFrame(s, DoClient(s, k, step), k)
  {
    hide *;
    if step.Decide? {
      DecideFrames(s, k);
    } else if step.Insert? {
      InsertFrames(s, k);
    } else if step.Take? {
      TakeFrames(s, k);
    } else if step.PopKeyLock? {
      LockFrames(s, k);
    } else if step.PopWake? {
      WakeFrames(s, k);
    } else if step.PopRelease? {
      ReleaseFrames(s, k);
    } else {
      OtherFrames(s, k, step);
    }
  }

  lemma ClientFrameViews(s: State, s': State, k: Key)
    requires ClientFrame(s, s', k)
    ensures forall y | y != k :: ViewOf(s', y) == ViewOf(s, y)
  {
    hide Find, After;
  }

  /** Nobody evicts the key of a client that holds it. */
  lemma NotEvicted(s: State, k: Key)
    requires LocksInv(s) && MutexInv(s) && k in s.clients && s.clients[k].pc.HasKey()
    ensures EvictionOf(s, k).None? && k in s.holder && s.holder[k] == Client(k) && k in s.locked && Client(k) !in s.evictions
  {
    assert HasLock(s, Client(k), k);
    assert EvictionMutex(s, Client(k));
  }

  lemma NotLocked(s: State, k: Key)
    requires LocksInv(s) && k !in s.locked
    ensures EvictionOf(s, k).None? && k !in s.holder
  {
  }

  /** What a client's step does to the view of its key. */
  function ClientView(v: View, step: ClientStep, locked: bool): View
    requires step.Begin? || v.client.Some?
  {
    if step.Begin? then v.(client := Some(ClientState(step.op, PopStart)))
    else
      var op, pc := v.client.value.op, v.client.value.pc;
      match step
      case PopLock => v.(client := Some(ClientState(op, PopMutex)))
      case PopKeyLock => v.(client := Some(ClientState(op, if locked then PopWait else PopKey)))
      case PopWake => v.(client := Some(ClientState(op, PopKey)))
      case Take =>
        v.(queued := None, pushed := if v.queued.Some? then None else v.pushed, client := Some(ClientState(op, Found(v.queued))))
      case PopRelease => if pc.Found? then v.(client := Some(ClientState(op, Popped(pc.r)))) else v
      case Decide =>
        if pc.Popped? then
          var d := DecisionFor(op, pc.r, v.base, v.notInBase);
          v.(base := d.base, pushed := None, logical := EffectAt(v.logical, op),
             client := if d.next.Some? then Some(ClientState(op, d.next.value)) else None)
        else v
      case Destroy => if pc.Discard? then v.(base := if pc.b.dirty then Some(pc.b.data) else v.base, notInBase := false, client := None) else v
      case PushLock => if pc.PushStart? then v.(client := Some(ClientState(op, Pushing(pc.b, pc.creates)))) else v
      case Insert =>
        if pc.Pushing? then
          v.(queued := Some(pc.b), pushed := Some(Pushed(pc.b, false)),
             client := if pc.creates then Some(ClientState(op, Recording)) else None)
        else v
      case Record => v.(notInBase := true, client := None)
  }

  /** The client is where the step starts. */
  predicate AtStep(v: View, step: ClientStep) {
    if step.Begin? then v.client.None?
    else
      && v.client.Some?
      && var pc := v.client.value.pc;
      match step
      case PopLock => pc.PopStart?
      case PopKeyLock => pc.PopMutex?
      case PopWake => pc.PopWait?
      case Take => pc.PopKey? && v.eviction.None?
      case PopRelease => pc.Found?
      case Decide => pc.Popped?
      case Destroy => pc.Discard?
      case PushLock => pc.PushStart?
      case Insert => pc.Pushing?
      case Record => pc.Recording?
  }

  predicate ClashesView(v: View, step: ClientStep) {
    step.Decide? && v.client.Some? && v.client.value.op.TryCreate? && v.client.value.pc == Popped(None) && v.base.Some?
  }

  /** Placement is kept whatever the step, and so is the right value, unless the creation clashes. */
  lemma ClientViewKeeps(v: View, step: ClientStep, locked: bool)
    requires v.Placed() && AtStep(v, step)
    ensures ClientView(v, step, locked).Placed()
    ensures v.Right() && !ClashesView(v, step) ==> ClientView(v, step, locked).Right()
  {
  }

  /** The answer is that of the plain map, unless the creation clashes. */
  lemma DecisionIsRight(v: View)
    requires v.Placed() && v.Right() && AtStep(v, Decide)
    ensures var op := v.client.value.op;
            DecisionFor(op, v.client.value.pc.r, v.base, v.notInBase).outcome == AnswerAt(v.logical, op) <==> !ClashesView(v, Decide)
  {
  }

  lemma TakeView(s: State, k: Key)
    requires ClientEnabled(s, k, Take) && DistinctKeys(s.queue)
    ensures ViewOf(DoClient(s, k, Take), k) == ClientView(ViewOf(s, k), Take, k in s.locked).(eviction := EvictionOf(DoClient(s, k, Take), k))
  {
    hide AskedForKey, Woken, PopReleased, Decided, Destroyed, PushLocked, Inserted, Recorded, PopLocked, After, Find, DistinctKeys, EvictionOf;
    RemovedIsDeletion(s.queue, k);
  }

  lemma InsertView(s: State, k: Key)
    requires ClientEnabled(s, k, Insert) && Find(s.queue, k).None?
    ensures ViewOf(DoClient(s, k, Insert), k) == ClientView(ViewOf(s, k), Insert, k in s.locked).(eviction := EvictionOf(DoClient(s, k, Insert), k))
  {
    hide AskedForKey, Woken, TakenOut, PopReleased, Decided, Destroyed, PushLocked, Recorded, PopLocked, After, Keys, Find, EvictionOf;
    FindAppended(s.queue, k, s.clients[k].pc.b, k);
  }

  lemma DecideView(s: State, k: Key)
    requires ClientEnabled(s, k, Decide)
    ensures ViewOf(DoClient(s, k, Decide), k) == ClientView(ViewOf(s, k), Decide, k in s.locked).(eviction := EvictionOf(DoClient(s, k, Decide), k))
  {
    hide AskedForKey, Woken, TakenOut, PopReleased, Destroyed, PushLocked, Inserted, Recorded, PopLocked, Put, After, DecisionFor, Find, Effect, Answer, Legal, EffectAt, EvictionOf;
    var op, r := s.clients[k].op, s.clients[k].pc.r;
    var d := DecisionFor(op, r, Lookup(s.base, k), k in s.notInBase);
    LogicalStep(s.initial, s.history, Event(k, op, d.outcome));
    OneKeyOnly(s.Logical(), k, op, k);
  }

  lemma OtherView(s: State, k: Key, step: ClientStep)
    requires !step.Take? && !step.Insert? && !step.Decide? && ClientEnabled(s, k, step)
    ensures ViewOf(DoClient(s, k, step), k) == ClientView(ViewOf(s, k), step, k in s.locked).(eviction := EvictionOf(DoClient(s, k, step), k))
  {
    hide TakenOut, Decided, Inserted, After, Find, EraseKey, EvictionOf;
  }

  /** A client's step does not change who evicts its key. */
  lemma SameEviction(s: State, k: Key, step: ClientStep)
    requires ClientEnabled(s, k, step) && LocksInv(s) && MutexInv(s)
    ensures EvictionOf(DoClient(s, k, step), k) == EvictionOf(s, k)
    ensures step.Take? || step.PopRelease? ==> EvictionOf(s, k).None? && k in s.locked
  {
    assert ClientMutex(s, k) && EvictionMutex(s, Client(k));
    if step.Take? || step.PopRelease? {
      NotEvicted(s, k);
    }
    if k !in s.locked {
      NotLocked(s, k);
    }
    hide LocksInv, MutexInv;
    ClientStepMutex(s, k, step);
    HolderStep(s, k, step);
    hide ClientEnabled, DoClient, ClientMutex, EvictionMutex;
  }

  /** What a client's step does to the lock of its key. */
  lemma HolderStep(s: State, k: Key, step: ClientStep)
    requires ClientEnabled(s, k, step)
    ensures Lookup(DoClient(s, k, step).holder, k) ==
            if step.PopWake? || (step.PopKeyLock? && k !in s.locked) then Some(Client(k))
            else if step.PopRelease? then None
            else Lookup(s.holder, k)
  {
    hide TakenOut, Decided, Destroyed, PushLocked, Inserted, Recorded, PopLocked, EraseKey;
  }

  lemma ClientViewIs(s: State, k: Key, step: ClientStep)
    requires ClientEnabled(s, k, step) && Placement(s)
    ensures AtStep(ViewOf(s, k), step)
    ensures ViewOf(DoClient(s, k, step), k) == ClientView(ViewOf(s, k), step, k in s.locked)
    ensures (step.PopRelease? ==> k in s.locked) && (step.Insert? ==> k !in Keys(s.queue))
  {
    assert ViewOf(s, k).Placed();
    SameEviction(s, k, step);
    PlacedInsert(s, k);
    hide Placement, LocksInv, MutexInv, EvictionOf, Find, DoClient, Keys, After, DistinctKeys, View.Placed;
    if step.Take? {
      TakeView(s, k);
    } else if step.Insert? {
      InsertView(s, k);
    } else if step.Decide? {
      DecideView(s, k);
    } else {
      OtherView(s, k, step);
    }
    hide *;
  }

  lemma PlacedInsert(s: State, k: Key)
    requires ViewOf(s, k).Placed()
    ensures k in s.clients && s.clients[k].pc.HasBlock() ==> Find(s.queue, k).None? && k !in Keys(s.queue)
  {
    hide After, EvictionOf;
  }

  /** A lock is taken: the thread that has it now is the only one. */
  lemma HoldersAfterLock(s: State, s': State, k: Key, t: Thread)
    requires LocksInv(s) && k !in s.locked && HasLock(s', t, k)
    requires s'.locked == s.locked + [k] && s'.holder == s.holder[k := t]
    requires forall u: Thread, y: Key | u != t || y != k :: HasLock(s', u, y) <==> HasLock(s, u, y)
    ensures LocksInv(s')
  {
  }

  lemma HoldersAfterRelease(s: State, s': State, k: Key, t: Thread)
    requires LocksInv(s) && HasLock(s, t, k) && !HasLock(s', t, k)
    requires s'.locked == EraseKey(s.locked, k) && s'.holder == s.holder - {k}
    requires forall u: Thread, y: Key | u != t || y != k :: HasLock(s', u, y) <==> HasLock(s, u, y)
    ensures LocksInv(s')
  {
    EraseOnce(s.locked, k);
    forall u: Thread, y: Key ensures HasLock(s', u, y) <==> y in s'.holder && s'.holder[y] == u {
      assert HasLock(s, u, y) <==> y in s.holder && s.holder[y] == u;
    }
    hide HasLock;
  }

  lemma HoldersSame(s: State, s': State)
    requires LocksInv(s) && s'.locked == s.locked && s'.holder == s.holder
    requires forall u: Thread, y: Key :: HasLock(s', u, y) <==> HasLock(s, u, y)
    ensures LocksInv(s')
  {
  }

  /** Which locks a client's step of `k` can change. */
  lemma ClientHolders(s: State, s': State, k: Key)
    requires s'.evictions == s.evictions && SameBut(s.clients, s'.clients, k)
    ensures forall u: Thread, y: Key | u != Client(k) || y != k :: HasLock(s', u, y) <==> HasLock(s, u, y)
  {
  }

  lemma ClientKeepsLocksInv(s: State, k: Key, step: ClientStep)
    requires ClientEnabled(s, k, step) && MutexInv(s) && LocksInv(s)
    ensures LocksInv(DoClient(s, k, step))
  {
    assert ClientMutex(s, k) && EvictionMutex(s, Client(k));
    hide LocksInv, MutexInv;
    ClientStepMutex(s, k, step);
    var s' := DoClient(s, k, step);
    ClientHolders(s, s', k);
    hide Decided, Removed, Find, EraseKey, Keys, After, ClientMutex, EvictionMutex;
    if (step.PopKeyLock? && k !in s.locked) || step.PopWake? {
      HoldersAfterLock(s, s', k, Client(k));
    } else if step.PopRelease? {
      HoldersAfterRelease(s, s', k, Client(k));
    } else {
      OtherHolders(s, k, step);
      HoldersSame(s, s');
    }
  }

  lemma OtherHolders(s: State, k: Key, step: ClientStep)
    requires ClientEnabled(s, k, step) && Client(k) !in s.evictions
    requires !(step.PopKeyLock? && k !in s.locked) && !step.PopWake? && !step.PopRelease?
    ensures var s' := DoClient(s, k, step);
            s'.locked == s.locked && s'.holder == s.holder && (HasLock(s', Client(k), k) <==> HasLock(s, Client(k), k))
  {
    hide Woken, TakenOut, PopReleased, Decided, Destroyed, PushLocked, Inserted, Recorded, PopLocked, Put;
    HasKeyStep(s, k, step);
  }

  /** Where the lock of its key is not involved, a client has it as before. */
  lemma HasKeyStep(s: State, k: Key, step: ClientStep)
    requires ClientEnabled(s, k, step)
    requires !(step.PopKeyLock? && k !in s.locked) && !step.PopWake? && !step.PopRelease?
    ensures var s' := DoClient(s, k, step);
            (k in s'.clients && s'.clients[k].pc.HasKey()) <==> (k in s.clients && s.clients[k].pc.HasKey())
  {
    hide Removed, Find, Keys, Woken, PopReleased, Put;
  }

  // ----- Evictions

  /** The key that a step of the thread is about, if any. */
  function EvictKey(s: State, t: Thread, step: EvictStep): Option<Key>
    requires EvictEnabled(s, t, step)
  {
    if step.EvictLock? then Some(s.queue[0].0)
    else if step.EvictRelock? then None
    else Some(s.evictions[t].key)
  }

  lemma EvictHolders(s: State, t: Thread, step: EvictStep)
    requires EvictEnabled(s, t, step)
    ensures forall u: Thread, y: Key | u != t || Some(y) != EvictKey(s, t, step) :: HasLock(DoEvict(s, t, step), u, y) <==> HasLock(s, u, y)
  {
  }

  lemma EvictKeepsLocksInv(s: State, t: Thread, step: EvictStep)
    requires EvictEnabled(s, t, step) && MutexInv(s) && LocksInv(s)
    ensures LocksInv(DoEvict(s, t, step))
  {
    var s' := DoEvict(s, t, step);
    EvictHolders(s, t, step);
    if step.EvictLock? {
      HoldersAfterLock(s, s', s.queue[0].0, t);
    } else if step.EvictRelease? {
      var k := s.evictions[t].key;
      assert HasLock(s, t, k);
      NotOwnKey(s, t);
      HoldersAfterRelease(s, s', k, t);
    } else {
      HoldersSame(s, s');
    }
  }

  /** A thread does not evict a key that it holds as a client. */
  lemma NotOwnKey(s: State, t: Thread)
    requires MutexInv(s) && t in s.evictions
    ensures t.Client? ==> t.key in s.clients && s.clients[t.key].pc.Pushing?
  {
    assert EvictionMutex(s, t);
  }

  /** The pieces of a view that an eviction step of key `k` can reach. */
  ghost predicate EvictFrame(s: State, s': State, k: Key) {
    && s'.initial == s.initial && s'.history == s.history && s'.clients == s.clients
    && SameBut(s.base, s'.base, k) && SameBut(s.pushed, s'.pushed, k)
    && (forall y | y != k :: y in s.notInBase <==> y in s'.notInBase)
    && (forall y | y != k :: Find(s'.queue, y) == Find(s.queue, y))
    && (forall y | y != k :: EvictionOf(s', y) == EvictionOf(s, y))
  }

  lemma EvictFrames(s: State, t: Thread, step: EvictStep)
    requires EvictEnabled(s, t, step) && !step.EvictRelock? && EvictionMutex(s, t)
    ensures EvictFrame(s, DoEvict(s, t, step), EvictKey(s, t, step).value)
  {
    hide After, EraseKey;
  }

  lemma EvictFrameViews(s: State, s': State, k: Key)
    requires EvictFrame(s, s', k)
    ensures forall y | y != k :: ViewOf(s', y) == ViewOf(s, y)
  {
    hide Find, After, EvictionOf;
  }

  lemma RelockViews(s: State, t: Thread)
    requires EvictEnabled(s, t, EvictRelock)
    ensures forall y :: ViewOf(DoEvict(s, t, EvictRelock), y) == ViewOf(s, y)
  {
    hide Find, After;
  }

  lemma EvictionIs(s: State, t: Thread)
    requires LocksInv(s) && t in s.evictions && !s.evictions[t].Relocking?
    ensures var k := s.evictions[t].key; k in s.holder && s.holder[k] == t && k in s.locked && EvictionOf(s, k) == Some(s.evictions[t])
  {
    assert HasLock(s, t, s.evictions[t].key);
  }

  /** What an eviction step does to the view of its key. */
  function EvictView(v: View, step: EvictStep, k: Key): View {
    match step
    case EvictLock => v.(eviction := Some(KeyLocked(k)))
    case EvictPop => if v.queued.Some? then v.(queued := None, eviction := Some(Flushing(k, v.queued.value))) else v
    case EvictStore =>
      if v.eviction.Some? && v.eviction.value.Flushing? then
        var b := v.eviction.value.b;
        v.(base := if b.dirty then Some(b.data) else v.base, eviction := Some(Stored(k, b)))
      else v
    case EvictErase =>
      v.(notInBase := false, eviction := Some(Erased(k)),
         pushed := if v.pushed.Some? then Some(v.pushed.value.(flushed := true)) else None)
    case EvictRelease => v.(eviction := None)
    case EvictRelock => v
  }

  predicate AtEvict(v: View, step: EvictStep) {
    match step
    case EvictLock => v.queued.Some? && v.eviction.None?
    case EvictPop => v.queued.Some? && v.eviction.Some? && v.eviction.value.KeyLocked?
    case EvictStore => v.eviction.Some? && v.eviction.value.Flushing?
    case EvictErase => v.eviction.Some? && v.eviction.value.Stored?
    case EvictRelease => v.eviction.Some? && v.eviction.value.Erased?
    case EvictRelock => true
  }

  predicate RacesView(v: View, step: EvictStep) {
    step.EvictErase? && v.client.Some? && v.client.value.pc.Recording?
  }

  lemma EvictViewKeeps(v: View, step: EvictStep, k: Key)
    requires v.Placed() && AtEvict(v, step)
    ensures EvictView(v, step, k).Placed()
    ensures v.Right() ==> (EvictView(v, step, k).Right() <==> !RacesView(v, step))
  {
  }

  lemma EvictLockView(s: State, t: Thread)
    requires EvictEnabled(s, t, EvictLock) && LocksInv(s)
    ensures var k := s.queue[0].0; AtEvict(ViewOf(s, k), EvictLock) && ViewOf(DoEvict(s, t, EvictLock), k) == EvictView(ViewOf(s, k), EvictLock, k)
  {
    NotLocked(s, s.queue[0].0);
    hide LocksInv, After;
  }

  lemma EvictPopView(s: State, t: Thread)
    requires EvictEnabled(s, t, EvictPop) && LocksInv(s) && EvictionMutex(s, t) && DistinctKeys(s.queue)
    ensures var k := s.evictions[t].key; AtEvict(ViewOf(s, k), EvictPop) && ViewOf(DoEvict(s, t, EvictPop), k) == EvictView(ViewOf(s, k), EvictPop, k)
  {
    EvictionIs(s, t);
    DistinctTail(s.queue);
    hide LocksInv, After, DistinctKeys;
  }

  lemma EvictOtherView(s: State, t: Thread, step: EvictStep)
    requires step.EvictStore? || step.EvictErase? || step.EvictRelease?
    requires EvictEnabled(s, t, step) && LocksInv(s)
    ensures var k := s.evictions[t].key; AtEvict(ViewOf(s, k), step) && ViewOf(DoEvict(s, t, step), k) == EvictView(ViewOf(s, k), step, k)
  {
    EvictionIs(s, t);
    hide LocksInv, After, Find, EraseKey;
  }

  lemma EvictViewIs(s: State, t: Thread, step: EvictStep)
    requires EvictEnabled(s, t, step) && !step.EvictRelock? && Placement(s)
    ensures var k := EvictKey(s, t, step).value;
            AtEvict(ViewOf(s, k), step) && ViewOf(DoEvict(s, t, step), k) == EvictView(ViewOf(s, k), step, k)
    ensures step.EvictRelease? ==> s.evictions[t].key in s.locked
  {
    assert EvictionMutex(s, t);
    if step.EvictRelease? {
      EvictionIs(s, t);
    }
    hide LocksInv, MutexInv, ViewOf, DoEvict, DistinctKeys, EvictView, AtEvict, EvictionMutex;
    if step.EvictLock? {
      EvictLockView(s, t);
    } else if step.EvictPop? {
      EvictPopView(s, t);
    } else {
      EvictOtherView(s, t, step);
    }
  }

  // ----- Every step keeps the placement

  lemma ClientKeepsQueueInv(s: State, k: Key, step: ClientStep)
    requires ClientEnabled(s, k, step) && QueueInv(s) && (step.PopRelease? ==> k in s.locked) && (step.Insert? ==> k !in Keys(s.queue))
    ensures QueueInv(DoClient(s, k, step))
  {
    hide AskedForKey, Woken, Decided, Destroyed, Recorded, PopLocked, DistinctKeys, Find, EraseKey, Keys, Removed;
    if step.Take? {
      RemovedIsDeletion(s.queue, k);
    } else if step.Insert? {
      KeysAppend(s.queue, (k, s.clients[k].pc.b));
    }
  }

  lemma EvictKeepsQueueInv(s: State, t: Thread, step: EvictStep)
    requires EvictEnabled(s, t, step) && QueueInv(s) && EvictionMutex(s, t) && (step.EvictRelease? ==> s.evictions[t].key in s.locked)
    ensures QueueInv(DoEvict(s, t, step))
  {
    if s.queue != [] {
      DistinctTail(s.queue);
    }
    hide DistinctKeys, Find, EraseKey, After;
  }

  /** All views but one are as before. */
  ghost predicate OtherViewsKept(s: State, s': State, k: Key) {
    forall y: Key | y != k :: ViewOf(s', y) == ViewOf(s, y)
  }

  lemma ClientKeepsPlacement(s: State, k: Key, step: ClientStep)
    requires ClientEnabled(s, k, step) && Placement(s)
    ensures Placement(DoClient(s, k, step)) && OtherViewsKept(s, DoClient(s, k, step), k)
    ensures AtStep(ViewOf(s, k), step) && ViewOf(DoClient(s, k, step), k) == ClientView(ViewOf(s, k), step, k in s.locked)
  {
    var s' := DoClient(s, k, step);
    ClientViewIs(s, k, step);
    assert ViewOf(s, k).Placed();
    hide LocksInv, MutexInv, DoClient, ViewOf, Keys, DistinctKeys, ClientFrame, ClientEnabled, View.Placed, AtStep, ClientView;
    ClientKeepsMutexInv(s, k, step);
    ClientKeepsLocksInv(s, k, step);
    ClientKeepsQueueInv(s, k, step);
    ClientFrames(s, k, step);
    ClientFrameViews(s, s', k);
    ClientViewKeeps(ViewOf(s, k), step, k in s.locked);
  }

  lemma EvictKeepsPlacement(s: State, t: Thread, step: EvictStep)
    requires EvictEnabled(s, t, step) && !step.EvictRelock? && Placement(s)
    ensures var k, s' := EvictKey(s, t, step).value, DoEvict(s, t, step);
            && Placement(s') && OtherViewsKept(s, s', k)
            && AtEvict(ViewOf(s, k), step) && ViewOf(s', k) == EvictView(ViewOf(s, k), step, k)
  {
    var k, s' := EvictKey(s, t, step).value, DoEvict(s, t, step);
    EvictViewIs(s, t, step);
    assert ViewOf(s, k).Placed() && EvictionMutex(s, t);
    hide LocksInv, MutexInv, DoEvict, ViewOf, Keys, DistinctKeys, EvictFrame, EvictionMutex, View.Placed, AtEvict, EvictView;
    EvictKeepsMutexInv(s, t, step);
    EvictKeepsLocksInv(s, t, step);
    EvictKeepsQueueInv(s, t, step);
    EvictFrames(s, t, step);
    EvictFrameViews(s, s', k);
    EvictViewKeeps(ViewOf(s, k), step, k);
  }

  /** Steps that concern nothing but the mutex. */
  predicate OnlyMutex(a: Action) {
    a.FlushLock? || a.FlushUnlock? || (a.ByEvictor? && a.evict.EvictRelock?)
  }

  lemma MutexStepKeepsPlacement(s: State, a: Action)
    requires Enabled(s, a) && OnlyMutex(a) && Placement(s)
    ensures var s' := Do(s, a);
            Placement(s') && s'.history == s.history && s'.initial == s.initial && forall y: Key :: ViewOf(s', y) == ViewOf(s, y)
  {
    if a.ByEvictor? {
      assert EvictionMutex(s, a.t);
      EvictKeepsMutexInv(s, a.t, a.evict);
      EvictKeepsLocksInv(s, a.t, a.evict);
      RelockViews(s, a.t);
      EvictKeepsQueueInv(s, a.t, a.evict);
    } else {
      FlusherKeepsPlacement(s, a);
    }
    hide LocksInv, MutexInv, ViewOf, DistinctKeys;
  }

  lemma FlusherKeepsPlacement(s: State, a: Action)
    requires Enabled(s, a) && (a.FlushLock? || a.FlushUnlock?) && Placement(s)
    ensures var s' := Do(s, a); Placement(s') && forall y: Key :: ViewOf(s', y) == ViewOf(s, y)
  {
    var s' := Do(s, a);
    HoldersSame(s, s');
    assert forall y: Key :: ViewOf(s', y) == ViewOf(s, y);
    forall k: Key ensures ClientMutex(s', k) {
      assert ClientMutex(s, k);
    }
    forall t: Thread ensures EvictionMutex(s', t) {
      assert EvictionMutex(s, t);
    }
    hide LocksInv, ViewOf, DistinctKeys, ClientMutex, EvictionMutex;
  }

  /** Every step keeps the placement, without exception. */
  lemma StepKeepsPlacement(s: State, a: Action)
    requires Enabled(s, a) && Placement(s)
    ensures Placement(Do(s, a)) && Do(s, a).initial == s.initial
  {
    hide Placement, DoClient, DoEvict, OtherViewsKept, ViewOf;
    if OnlyMutex(a) {
      MutexStepKeepsPlacement(s, a);
    } else if a.ByClient? {
      ClientKeepsPlacement(s, a.k, a.client);
    } else {
      EvictKeepsPlacement(s, a.t, a.evict);
    }
  }

  // ----- Every step but two keeps the values

  /** The history stays legal unless the creation clashes. */
  lemma DecideLegal(s: State, k: Key)
    requires ClientEnabled(s, k, Decide) && Legal(s.initial, s.history) && ViewOf(s, k).Placed() && ViewOf(s, k).Right()
    ensures var s' := DoClient(s, k, Decide); Legal(s'.initial, s'.history) <==> !Clashes(s, ByClient(k, Decide))
  {
    hide Put, After, DecisionFor, Find, Effect, Answer, Legal, AnswerAt, View.Placed, View.Right, EvictionOf;
    var op, r, v, m := s.clients[k].op, s.clients[k].pc.r, ViewOf(s, k), s.Logical();
    var d := DecisionFor(op, r, v.base, v.notInBase);
    DecisionIsRight(v);
    OneKeyOnly(m, k, op, k);
    LogicalStep(s.initial, s.history, Event(k, op, d.outcome));
  }

  lemma ClashViews(s: State, a: Action)
    ensures a.ByClient? ==> (Clashes(s, a) <==> ClashesView(ViewOf(s, a.k), a.client))
  {
    hide After, Find, EvictionOf;
  }

  lemma RaceViews(s: State, t: Thread, step: EvictStep)
    requires EvictEnabled(s, t, step) && !step.EvictRelock?
    ensures Races(s, ByEvictor(t, step)) <==> RacesView(ViewOf(s, EvictKey(s, t, step).value), step)
  {
    hide After, Find, EvictionOf;
  }

  lemma ClientStepIff(s: State, k: Key, step: ClientStep)
    requires ClientEnabled(s, k, step) && Inv(s)
    ensures Inv(DoClient(s, k, step)) <==> !Clashes(s, ByClient(k, step))
  {
    var s', v := DoClient(s, k, step), ViewOf(s, k);
    ClientKeepsPlacement(s, k, step);
    assert v.Placed() && v.Right();
    hide Placement, DoClient, ViewOf, Legal, View.Placed, View.Right, AtStep, ClientView;
    ClientViewKeeps(v, step, k in s.locked);
    ClashViews(s, ByClient(k, step));
    if step.Decide? {
      DecideLegal(s, k);
    }
  }

  lemma EvictStepIff(s: State, t: Thread, step: EvictStep)
    requires EvictEnabled(s, t, step) && !step.EvictRelock? && Inv(s)
    ensures Inv(DoEvict(s, t, step)) <==> !Races(s, ByEvictor(t, step))
  {
    var k, s' := EvictKey(s, t, step).value, DoEvict(s, t, step);
    EvictKeepsPlacement(s, t, step);
    assert ViewOf(s, k).Placed() && ViewOf(s, k).Right();
    hide Placement, DoEvict, ViewOf, Legal, View.Placed, View.Right, AtEvict, EvictView;
    EvictViewKeeps(ViewOf(s, k), step, k);
    RaceViews(s, t, step);
  }

  /** A step keeps the values right exactly if it is neither a clashing creation nor the end of a
      flush that overtakes the recording of a creation. */
  lemma StepKeepsInvIff(s: State, a: Action)
    requires Enabled(s, a) && Inv(s)
    ensures Inv(Do(s, a)) <==> !Clashes(s, a) && !Races(s, a)
  {
    if OnlyMutex(a) {
      MutexStepKeepsPlacement(s, a);
      hide Placement, ViewOf, DoEvict;
    } else if a.ByClient? {
      hide Inv, DoClient;
      ClientStepIff(s, a.k, a.client);
    } else {
      hide Inv, DoEvict;
      EvictStepIff(s, a.t, a.evict);
    }
  }

  // ----- Runs

  predicate IsRun(s: State, run: seq<Action>)
    decreases |run|
  {
    run == [] || (Enabled(s, run[0]) && IsRun(Do(s, run[0]), run[1..]))
  }

  function Exec(s: State, run: seq<Action>): State
    requires IsRun(s, run)
    decreases |run|
  {
    if run == [] then s else Exec(Do(s, run[0]), run[1..])
  }

  /** No step of the run is a clashing creation or an overtaking flush. */
  predicate Orderly(s: State, run: seq<Action>)
    requires IsRun(s, run)
    decreases |run|
  {
    run == [] || (!Clashes(s, run[0]) && !Races(s, run[0]) && Orderly(Do(s, run[0]), run[1..]))
  }

  /** The placement along every run. */
  lemma {:induction false} RunKeepsPlacement(s: State, run: seq<Action>)
    requires IsRun(s, run) && Placement(s)
    ensures Placement(Exec(s, run)) && Exec(s, run).initial == s.initial
    decreases |run|
  {
    hide Placement, Do, Enabled;
    if run != [] {
      StepKeepsPlacement(s, run[0]);
      RunKeepsPlacement(Do(s, run[0]), run[1..]);
    }
  }

  lemma {:induction false} RunKeepsInv(s: State, run: seq<Action>)
    requires IsRun(s, run) && Orderly(s, run) && Inv(s)
    ensures Inv(Exec(s, run)) && Exec(s, run).initial == s.initial
    decreases |run|
  {
    hide Inv, Do, Enabled;
    if run != [] {
      StepKeepsInvIff(s, run[0]);
      RunKeepsInv(Do(s, run[0]), run[1..]);
    }
  }

  /** Where the value of a key is, outside of the base store. */
  predicate InQueue(s: State, k: Key) { Find(s.queue, k).Some? }
  predicate BeingFlushed(s: State, t: Thread, k: Key) { Evicts(s, t, k) && !s.evictions[t].KeyLocked? }
  predicate HeldByClient(s: State, k: Key) { k in s.clients && s.clients[k].pc.HasBlock() }

  ghost predicate OnePlace(s: State, k: Key) {
    && !(InQueue(s, k) && HeldByClient(s, k))
    && (forall t :: BeingFlushed(s, t, k) ==> !InQueue(s, k) && !HeldByClient(s, k))
    && (forall t, u :: BeingFlushed(s, t, k) && BeingFlushed(s, u, k) ==> t == u)
  }

  /** When pop has found nothing, the value pushed last has been completely flushed, and the base
      store has it. */
  ghost predicate FlushedBefore(s: State, k: Key) {
    k in s.clients && s.clients[k].pc == Popped(None) && k in s.pushed ==>
      s.pushed[k].flushed && Lookup(s.base, k) == Some(s.pushed[k].b.data)
  }

  /** When pop has found nothing, the base store has the current value, or none if there is none. */
  ghost predicate NeverStale(s: State, k: Key) {
    k in s.clients && s.clients[k].pc == Popped(None) ==> Lookup(s.base, k) == Lookup(s.Logical(), k)
  }

  lemma KeyIsSafe(s: State, k: Key)
    requires Placement(s)
    ensures OnePlace(s, k) && FlushedBefore(s, k)
  {
    var v := ViewOf(s, k);
    assert v.Placed();
    forall t | Evicts(s, t, k) ensures v.eviction == Some(s.evictions[t]) && k in s.holder && s.holder[k] == t {
      EvictionIs(s, t);
    }
    hide Placement, LocksInv, MutexInv, After, Find, EvictionOf;
  }

  lemma KeyIsFresh(s: State, k: Key)
    requires Inv(s)
    ensures NeverStale(s, k)
  {
    var v := ViewOf(s, k);
    assert v.Placed() && v.Right();
    hide Inv, Placement, After, Find, EvictionOf;
  }

  /** In every interleaving of any number of clients (one per key), evictions and flushers: a value
      is in one place at a time, pop finds nothing only after the value pushed last has been
      completely flushed, the cache does not outgrow its limit, and no assertion fails. */
  lemma EveryRunIsSafe(base: Store, run: seq<Action>)
    requires IsRun(Init(base), run)
    ensures var s := Exec(Init(base), run);
            && !s.fault && |s.queue| <= MAX_ENTRIES
            && (forall k: Key :: OnePlace(s, k)) && (forall k: Key :: FlushedBefore(s, k))
  {
    InitInv(base);
    RunKeepsPlacement(Init(base), run);
    var s := Exec(Init(base), run);
    forall k: Key ensures OnePlace(s, k) && FlushedBefore(s, k) {
      KeyIsSafe(s, k);
    }
  }

  /** In every run without the two exceptions the operations answer like those of a plain map, in
      the order of their decisions, and a load from the base store is never stale. */
  lemma OrderlyRunIsAMap(base: Store, run: seq<Action>)
    requires IsRun(Init(base), run) && Orderly(Init(base), run)
    ensures var s := Exec(Init(base), run);
            Legal(base, s.history) && forall k: Key :: NeverStale(s, k)
  {
    InitInv(base);
    RunKeepsInv(Init(base), run);
    var s := Exec(Init(base), run);
    forall k: Key ensures NeverStale(s, k) {
      KeyIsFresh(s, k);
    }
  }

  /** With everything flushed and nobody at work, the base store is that plain map. */
  lemma FlushedMeansStored(base: Store, run: seq<Action>)
    requires IsRun(Init(base), run) && Orderly(Init(base), run)
    ensures var s := Exec(Init(base), run);
            s.queue == [] && s.clients == map[] && s.evictions == map[] ==> s.base == After(base, s.history) && s.notInBase == {}
  {
    InitInv(base);
    RunKeepsInv(Init(base), run);
    var s := Exec(Init(base), run);
    if s.queue == [] && s.clients == map[] && s.evictions == map[] {
      forall k: Key ensures Lookup(s.base, k) == Lookup(After(base, s.history), k) && k !in s.notInBase {
        assert ViewOf(s, k).Right();
      }
      SameMap(s.base, After(base, s.history));
    }
  }

  lemma SameMap<V>(m: map<Key, V>, n: map<Key, V>)
    requires forall k: Key :: Lookup(m, k) == Lookup(n, k)
    ensures m == n
  {
    forall k: Key ensures k in m <==> k in n {
      assert Lookup(m, k) == Lookup(n, k);
    }
    forall k | k in m ensures m[k] == n[k] {
      assert Lookup(m, k) == Lookup(n, k);
    }
  }

  // ----- No deadlock

  /** Someone is in the middle of something. */
  predicate Busy(s: State) {
    s.clients != map[] || s.evictions != map[] || s.mutex.Some?
  }

  /** The next step of a thread that has the mutex is enabled: it never waits for a key lock
      without giving up the mutex. */
  ghost function MutexOwnerStep(s: State): Action
    requires s.mutex.Some?
  {
    var t := s.mutex.value;
    if t in s.evictions then ByEvictor(t, EvictPop)
    else if t.Flusher? then FlushUnlock(t.id)
    else if t.key in s.clients then
      var pc := s.clients[t.key].pc;
      if pc.PopMutex? then ByClient(t.key, PopKeyLock)
      else if pc.PopKey? then ByClient(t.key, Take)
      else if pc.Found? then ByClient(t.key, PopRelease)
      else if |s.queue| == MAX_ENTRIES then ByEvictor(t, EvictLock)
      else ByClient(t.key, Insert)
    else FlushUnlock(0)
  }

  /** The oldest entry is not locked while another thread than its evictor has the mutex. */
  lemma OldestNotLocked(s: State, t: Thread)
    requires Placement(s) && s.mutex == Some(t) && t !in s.evictions && s.queue != []
    requires t.Client? ==> t.key in s.clients && s.clients[t.key].pc.Pushing?
    ensures s.queue[0].0 !in s.locked
  {
    var k := s.queue[0].0;
    assert ViewOf(s, k).Placed();
    assert Find(s.queue, k).Some?;
    var u := if k in s.holder then s.holder[k] else t;
    assert EvictionMutex(s, u) && ClientMutex(s, k);
    assert k in s.holder ==> HasLock(s, u, k);
    hide After;
  }

  lemma MutexOwnerMoves(s: State)
    requires Placement(s) && s.mutex.Some?
    ensures Enabled(s, MutexOwnerStep(s))
  {
    var t := s.mutex.value;
    assert EvictionMutex(s, t);
    if t.Client? {
      assert ClientMutex(s, t.key);
    }
    if t !in s.evictions && s.queue != [] && t.Client? && s.clients[t.key].pc.Pushing? {
      OldestNotLocked(s, t);
    }
    hide LocksInv, MutexInv, DistinctKeys, ViewOf;
  }

  function EvictorStep(e: Eviction): EvictStep {
    match e
    case KeyLocked(_) => EvictPop
    case Flushing(_, _) => EvictStore
    case Stored(_, _) => EvictErase
    case Erased(_) => EvictRelease
    case Relocking => EvictRelock
  }

  function ClientNext(pc: Pc): ClientStep {
    match pc
    case PopStart => PopLock
    case PopMutex => PopKeyLock
    case PopWait => PopWake
    case PopKey => Take
    case Found(_) => PopRelease
    case Popped(_) => Decide
    case PushStart(_, _) => PushLock
    case Pushing(_, _) => Insert
    case Recording => Record
    case Discard(_) => Destroy
  }

  /** With the mutex free, every client can go on, except one that waits for a key, or that is
      evicting; and then the thread that has the key, or that evicts, can go on. */
  lemma ClientMoves(s: State, k: Key) returns (a: Action)
    requires Placement(s) && s.mutex.None? && k in s.clients
    ensures Enabled(s, a) && !a.FlushLock? && !(a.ByClient? && a.client.Begin?)
  {
    var pc := s.clients[k].pc;
    assert ClientMutex(s, k);
    if pc.PopWait? && k in s.locked {
      var t := s.holder[k];
      assert HasLock(s, t, k) && EvictionMutex(s, t);
      a := ByEvictor(t, EvictorStep(s.evictions[t]));
    } else if pc.Pushing? {
      assert EvictionMutex(s, Client(k));
      a := ByEvictor(Client(k), EvictorStep(s.evictions[Client(k)]));
    } else {
      a := ByClient(k, ClientNext(pc));
    }
  }

  lemma SomethingMoves(s: State) returns (a: Action)
    requires Placement(s) && Busy(s)
    ensures Enabled(s, a) && !a.FlushLock? && !(a.ByClient? && a.client.Begin?)
  {
    hide LocksInv, DistinctKeys, MutexInv, ViewOf;
    if s.mutex.Some? {
      MutexOwnerMoves(s);
      a := MutexOwnerStep(s);
    } else if s.clients != map[] {
      var k :| k in s.clients;
      a := ClientMoves(s, k);
    } else {
      var t :| t in s.evictions;
      NoKeyLocked(s, t);
      a := ByEvictor(t, EvictorStep(s.evictions[t]));
    }
  }

  lemma NoKeyLocked(s: State, t: Thread)
    requires MutexInv(s) && s.mutex.None? && t in s.evictions
    ensures !s.evictions[t].KeyLocked?
  {
    assert EvictionMutex(s, t);
  }

  /** In every run: whenever anything is under way, a step of something under way is enabled. */
  lemma NoDeadlock(base: Store, run: seq<Action>) returns (a: Action)
    requires IsRun(Init(base), run) && Busy(Exec(Init(base), run))
    ensures Enabled(Exec(Init(base), run), a) && !a.FlushLock? && !(a.ByClient? && a.client.Begin?)
  {
    InitInv(base);
    RunKeepsPlacement(Init(base), run);
    a := SomethingMoves(Exec(Init(base), run));
  }
}
