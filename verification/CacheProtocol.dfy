/** Step model of CachingBlockStore2 on top of Cache.h and LockPool.h: any number of clients, at
    most one per block id, and any number of flusher threads.

    A thread that holds the cache mutex can be interleaved with threads that do not need it: the
    evictions, which run the destructor of a cached block (its write-back to the base store)
    with the mutex released. Waiting for the mutex or for a key of the lock pool means that the
    step is not enabled. A failed assertion of the source sets `fault`. */
module CacheProtocol {
  import opened Bytes
  import opened QueueMap

  type Key = nat
  type Data = seq<Byte>
  type Store = map<Key, Data>

  const MAX_ENTRIES: nat := 1000

  // ----- The plain map that the clients are promised

  datatype Op = Load | Store(data: Data) | TryCreate(data: Data) | Remove

  datatype Outcome = Loaded(found: Option<Data>) | Done | Created(ok: bool) | Removal(ok: bool) | Failed

  datatype Event = Event(key: Key, op: Op, outcome: Outcome)

  function Lookup<V>(m: map<Key, V>, k: Key): Option<V> {
    if k in m then Some(m[k]) else None
  }

  function Effect(m: Store, k: Key, op: Op): Store {
    match op
    case Load => m
    case Store(d) => m[k := d]
    case TryCreate(d) => if k in m then m else m[k := d]
    case Remove => m - {k}
  }

  function Answer(m: Store, k: Key, op: Op): Outcome {
    match op
    case Load => Loaded(Lookup(m, k))
    case Store(_) => Done
    case TryCreate(_) => Created(k !in m)
    case Remove => Removal(k in m)
  }

  /** The same for one key. */
  function EffectAt(v: Option<Data>, op: Op): Option<Data> {
    match op
    case Load => v
    case Store(d) => Some(d)
    case TryCreate(d) => if v.Some? then v else Some(d)
    case Remove => None
  }

  function AnswerAt(v: Option<Data>, op: Op): Outcome {
    match op
    case Load => Loaded(v)
    case Store(_) => Done
    case TryCreate(_) => Created(v.None?)
    case Remove => Removal(v.Some?)
  }

  lemma OneKeyOnly(m: Store, k: Key, op: Op, y: Key)
    ensures Lookup(Effect(m, k, op), y) == if y == k then EffectAt(Lookup(m, k), op) else Lookup(m, y)
    ensures Answer(m, k, op) == AnswerAt(Lookup(m, k), op)
  {
  }

  /** The plain map after the operations of a history, whatever they answered. */
  function After(initial: Store, h: seq<Event>): Store {
    if h == [] then initial
    else var e := h[|h| - 1]; Effect(After(initial, h[..|h| - 1]), e.key, e.op)
  }

  /** Every operation answered what the plain map answers. */
  ghost predicate Legal(initial: Store, h: seq<Event>) {
    forall i | 0 <= i < |h| :: h[i].outcome == Answer(After(initial, h[..i]), h[i].key, h[i].op)
  }

  // ----- States

  /** CachedBlock */
  datatype Block = Block(data: Data, dirty: bool)

  datatype Thread = Client(key: Key) | Flusher(id: nat)

  /** Where a client stands in its operation. */
  datatype Pc =
    | PopStart                            // wants the mutex
    | PopMutex                            // has the mutex, wants the key
    | PopWait                             // waits for the key, mutex given up meanwhile
    | PopKey                              // has the mutex and the key
    | Found(r: Option<Block>)             // has taken the entry, still has the mutex and the key
    | Popped(r: Option<Block>)            // pop has returned
    | PushStart(b: Block, creates: bool)  // wants the mutex
    | Pushing(b: Block, creates: bool)    // in push, possibly evicting another entry
    | Recording                           // pushed a new block, not yet in the not-in-base set
    | Discard(b: Block)                   // about to destroy the block it popped
  {
    predicate HasKey() { PopKey? || Found? }
    predicate HasBlock() { Found? || Popped? || PushStart? || Pushing? || Discard? }
    predicate Unrecorded() { Recording? || ((PushStart? || Pushing?) && creates) }
  }

  datatype ClientState = ClientState(op: Op, pc: Pc)

  /** Where a thread stands in _deleteEntry. */
  datatype Eviction =
    | KeyLocked(key: Key)             // has the mutex and the key of the oldest entry
    | Flushing(key: Key, b: Block)    // mutex released, destructor not yet run
    | Stored(key: Key, b: Block)      // the destructor has written the block back
    | Erased(key: Key)                // the destructor has run
    | Relocking                       // key released, wants the mutex again
  {
    predicate Has(k: Key) { !Relocking? && key == k }
  }

  /** The value of a key that was pushed last, and whether its destructor has run. */
  datatype Pushed = Pushed(b: Block, flushed: bool)

  datatype State = State(
    initial: Store,
    mutex: Option<Thread>,
    locked: seq<Key>,                    // LockPool::_lockedLocks
    holder: map<Key, Thread>,            // who locked them
    queue: Items<Key, Block>,
    evictions: map<Thread, Eviction>,
    clients: map<Key, ClientState>,
    base: Store,
    notInBase: set<Key>,
    pushed: map<Key, Pushed>,            // the value pushed last, until a client takes over
    history: seq<Event>,
    fault: bool)
  {
    function Logical(): Store { After(initial, history) }
  }

  function Init(base: Store): State {
    State(base, None, [], map[], [], map[], map[], base, {}, map[], [], false)
  }

  // ----- Steps

  datatype ClientStep =
    | Begin(op: Op) | PopLock | PopKeyLock | PopWake | Take | PopRelease
    | Decide | Destroy | PushLock | Insert | Record

  datatype EvictStep = EvictLock | EvictPop | EvictStore | EvictErase | EvictRelease | EvictRelock

  datatype Action = ByClient(k: Key, client: ClientStep) | ByEvictor(t: Thread, evict: EvictStep) | FlushLock(id: nat) | FlushUnlock(id: nat)

  function EraseKey(s: seq<Key>, k: Key): seq<Key> {
    if s == [] then [] else if s[0] == k then s[1..] else [s[0]] + EraseKey(s[1..], k)
  }

  predicate ClientEnabled(s: State, k: Key, step: ClientStep) {
    if step.Begin? then k !in s.clients
    else
      && k in s.clients
      && var pc := s.clients[k].pc;
      match step
      case PopLock => pc.PopStart? && s.mutex.None?
      case PopKeyLock => pc.PopMutex?
      case PopWake => pc.PopWait? && s.mutex.None? && k !in s.locked
      case Take => pc.PopKey?
      case PopRelease => pc.Found?
      case Decide => pc.Popped?
      case Destroy => pc.Discard?
      case PushLock => pc.PushStart? && s.mutex.None?
      case Insert => pc.Pushing? && Client(k) !in s.evictions && |s.queue| != MAX_ENTRIES
      case Record => pc.Recording?
  }

  /** The maps differ at most at `k`. */
  ghost predicate SameBut<V>(m: map<Key, V>, m': map<Key, V>, k: Key) {
    forall y | y != k :: (y in m <==> y in m') && (y in m ==> m[y] == m'[y])
  }

  function Goto(s: State, k: Key, pc: Pc): (s': State)
    requires k in s.clients
    ensures s' == s.(clients := s'.clients) && SameBut(s.clients, s'.clients, k)
    ensures k in s'.clients && s'.clients[k] == ClientState(s.clients[k].op, pc)
  {
    s.(clients := s.clients[k := s.clients[k].(pc := pc)])
  }

  function Finish(s: State, k: Key): (s': State)
    ensures s' == s.(clients := s'.clients) && SameBut(s.clients, s'.clients, k) && k !in s'.clients
  {
    s.(clients := s.clients - {k})
  }

  function Lock(s: State, k: Key, t: Thread): (s': State)
    ensures s' == s.(locked := s'.locked, holder := s'.holder) && SameBut(s.holder, s'.holder, k)
  {
    s.(locked := s.locked + [k], holder := s.holder[k := t])
  }

  function Release(s: State, k: Key): State {
    s.(locked := EraseKey(s.locked, k), holder := s.holder - {k}, fault := s.fault || k !in s.locked)
  }

  /** What CachingBlockStore2 does with the answer of pop: what it answers, what the base store
      then holds for the key, and how it goes on, if it does. */
  datatype Decision = Decision(outcome: Outcome, base: Option<Data>, next: Option<Pc>)

  function DecisionFor(op: Op, popped: Option<Block>, base: Option<Data>, notInBase: bool): Decision {
    match op
    case Load =>
      if popped.Some? then Decision(Loaded(Some(popped.value.data)), base, Some(PushStart(popped.value, false)))
      else if base.Some? then Decision(Loaded(base), base, Some(PushStart(Block(base.value, false), false)))
      else Decision(Loaded(None), base, None)
    case Store(d) =>
      if popped.Some? then Decision(Done, base, Some(PushStart(Block(d, true), false)))
      else Decision(Done, Some(d), Some(PushStart(Block(d, false), false)))
    case TryCreate(d) =>
      if popped.Some? then Decision(Created(false), base, Some(PushStart(popped.value, false)))
      else Decision(Created(true), base, Some(PushStart(Block(d, true), true)))
    case Remove =>
      if popped.None? then Decision(Removal(base.Some?), None, None)
      else if notInBase then Decision(Removal(true), base, Some(Discard(popped.value.(dirty := false))))
      else if base.Some? then Decision(Removal(true), None, Some(Discard(popped.value.(dirty := false))))
      else Decision(Failed, None, Some(Discard(popped.value)))   // "wasn't found there"
  }

  function Put<V>(m: map<Key, V>, k: Key, v: Option<V>): (m': map<Key, V>)
    ensures Lookup(m', k) == v && SameBut(m, m', k)
  {
    if v.Some? then m[k := v.value] else m - {k}
  }

  function Decided(s: State, k: Key): (s': State)
    requires k in s.clients && s.clients[k].pc.Popped?
    ensures s' == s.(base := s'.base, pushed := s'.pushed, history := s'.history, clients := s'.clients)
  {
    var op := s.clients[k].op;
    var d := DecisionFor(op, s.clients[k].pc.r, Lookup(s.base, k), k in s.notInBase);
    s.(base := Put(s.base, k, d.base),
       pushed := s.pushed - {k},
       history := s.history + [Event(k, op, d.outcome)],
       clients := Put(s.clients, k, if d.next.Some? then Some(ClientState(op, d.next.value)) else None))
  }

  function WriteBack(base: Store, k: Key, b: Block): Store {
    if b.dirty then base[k := b.data] else base
  }

  function Begun(s: State, k: Key, op: Op): State {
    s.(clients := s.clients[k := ClientState(op, PopStart)])
  }

  function PopLocked(s: State, k: Key): (s': State)
    requires k in s.clients
    ensures s' == s.(mutex := Some(Client(k)), clients := s'.clients)
  {
    Goto(s.(mutex := Some(Client(k))), k, PopMutex)
  }

  function AskedForKey(s: State, k: Key): (s': State)
    requires k in s.clients
    ensures s' == s.(mutex := s'.mutex, locked := s'.locked, holder := s'.holder, clients := s'.clients)
    ensures k in s'.clients && if k in s.locked then s'.mutex.None? else s'.mutex == s.mutex && s'.clients[k].pc.PopKey?
  {
    if k in s.locked then Goto(s.(mutex := None), k, PopWait)
    else Goto(Lock(s, k, Client(k)), k, PopKey)
  }

  function Woken(s: State, k: Key): (s': State)
    requires k in s.clients
    ensures s' == s.(mutex := Some(Client(k)), locked := s'.locked, holder := s'.holder, clients := s'.clients)
  {
    Goto(Lock(s.(mutex := Some(Client(k))), k, Client(k)), k, PopKey)
  }

  function TakenOut(s: State, k: Key): (s': State)
    requires k in s.clients
    ensures s' == s.(queue := s'.queue, pushed := s'.pushed, clients := s'.clients)
    ensures k in s'.clients && s'.clients[k].pc.Found?
  {
    var found := Find(s.queue, k);
    Goto(s.(queue := Removed(s.queue, k), pushed := if found.Some? then s.pushed - {k} else s.pushed), k, Found(found))
  }

  function PopReleased(s: State, k: Key): (s': State)
    requires k in s.clients && s.clients[k].pc.Found?
    ensures s' == s.(mutex := None, locked := s'.locked, holder := s'.holder, clients := s'.clients, fault := s'.fault)
  {
    Goto(Release(s, k).(mutex := None), k, Popped(s.clients[k].pc.r))
  }

  function Destroyed(s: State, k: Key): (s': State)
    requires k in s.clients && s.clients[k].pc.Discard?
    ensures s' == s.(base := s'.base, notInBase := s'.notInBase, clients := s'.clients)
  {
    Finish(s.(base := WriteBack(s.base, k, s.clients[k].pc.b), notInBase := s.notInBase - {k}), k)
  }

  function PushLocked(s: State, k: Key): (s': State)
    requires k in s.clients && s.clients[k].pc.PushStart?
    ensures s' == s.(mutex := Some(Client(k)), clients := s'.clients, fault := s'.fault)
  {
    Goto(s.(mutex := Some(Client(k)), fault := s.fault || |s.queue| > MAX_ENTRIES), k,
         Pushing(s.clients[k].pc.b, s.clients[k].pc.creates))
  }

  function Inserted(s: State, k: Key): (s': State)
    requires k in s.clients && s.clients[k].pc.Pushing?
    ensures s' == s.(queue := s'.queue, pushed := s'.pushed, mutex := None, clients := s'.clients, fault := s'.fault)
  {
    var b := s.clients[k].pc.b;
    var s' := s.(queue := s.queue + [(k, b)], pushed := s.pushed[k := Pushed(b, false)],
                 mutex := None, fault := s.fault || k in Keys(s.queue));
    if s.clients[k].pc.creates then Goto(s', k, Recording) else Finish(s', k)
  }

  function Recorded(s: State, k: Key): (s': State)
    ensures s' == s.(notInBase := s'.notInBase, clients := s'.clients)
  {
    Finish(s.(notInBase := s.notInBase + {k}), k)
  }

  function DoClient(s: State, k: Key, step: ClientStep): (s': State)
    requires ClientEnabled(s, k, step)
    ensures s'.initial == s.initial && s'.evictions == s.evictions && (!step.Decide? ==> s'.history == s.history)
  {
    match step
    case Begin(op) => Begun(s, k, op)
    case PopLock => PopLocked(s, k)
    case PopKeyLock => AskedForKey(s, k)
    case PopWake => Woken(s, k)
    case Take => TakenOut(s, k)
    case PopRelease => PopReleased(s, k)
    case Decide => Decided(s, k)
    case Destroy => Destroyed(s, k)
    case PushLock => PushLocked(s, k)
    case Insert => Inserted(s, k)
    case Record => Recorded(s, k)
  }

  /** A client evicts while its push finds the cache full; a flusher may evict whenever it has
      the mutex and finds an entry. The key of the entry is locked without giving up the mutex. */
  predicate EvictEnabled(s: State, t: Thread, step: EvictStep) {
    if step.EvictLock? then
      && s.mutex == Some(t) && t !in s.evictions && s.queue != [] && s.queue[0].0 !in s.locked
      && (t.Client? ==> t.key in s.clients && s.clients[t.key].pc.Pushing? && |s.queue| == MAX_ENTRIES)
    else
      && t in s.evictions
      && match step
         case EvictPop => s.evictions[t].KeyLocked?
         case EvictStore => s.evictions[t].Flushing?
         case EvictErase => s.evictions[t].Stored?
         case EvictRelease => s.evictions[t].Erased?
         case EvictRelock => s.evictions[t].Relocking? && s.mutex.None?
  }

  function DoEvict(s: State, t: Thread, step: EvictStep): (s': State)
    requires EvictEnabled(s, t, step)
    ensures s'.initial == s.initial && s'.history == s.history && s'.clients == s.clients
  {
    match step
    case EvictLock =>
      var k := s.queue[0].0;
      Lock(s, k, t).(evictions := s.evictions[t := KeyLocked(k)])
    case EvictPop =>
      if s.queue == [] then s.(fault := true)
      else s.(queue := s.queue[1..], mutex := None, evictions := s.evictions[t := Flushing(s.evictions[t].key, s.queue[0].1)])
    case EvictStore =>
      var k, b := s.evictions[t].key, s.evictions[t].b;
      s.(base := WriteBack(s.base, k, b), evictions := s.evictions[t := Stored(k, b)])
    case EvictErase =>
      var k := s.evictions[t].key;
      s.(notInBase := s.notInBase - {k}, evictions := s.evictions[t := Erased(k)],
         pushed := if k in s.pushed then s.pushed[k := s.pushed[k].(flushed := true)] else s.pushed)
    case EvictRelease =>
      Release(s, s.evictions[t].key).(evictions := s.evictions[t := Relocking])
    case EvictRelock => s.(mutex := Some(t), evictions := s.evictions - {t})
  }

  predicate Enabled(s: State, a: Action) {
    match a
    case ByClient(k, step) => ClientEnabled(s, k, step)
    case ByEvictor(t, step) => EvictEnabled(s, t, step)
    case FlushLock(id) => s.mutex.None? && Flusher(id) !in s.evictions
    case FlushUnlock(id) => s.mutex == Some(Flusher(id)) && Flusher(id) !in s.evictions
  }

  function Do(s: State, a: Action): (s': State)
    requires Enabled(s, a)
    ensures s'.initial == s.initial
  {
    match a
    case ByClient(k, step) => DoClient(s, k, step)
    case ByEvictor(t, step) => DoEvict(s, t, step)
    case FlushLock(id) => s.(mutex := Some(Flusher(id)))
    case FlushUnlock(id) => s.(mutex := None)
  }

  // ----- Invariant

  /** All that the state says about one key. */
  datatype View = View(
    queued: Option<Block>,
    eviction: Option<Eviction>,
    client: Option<ClientState>,
    base: Option<Data>,
    notInBase: bool,
    pushed: Option<Pushed>,
    logical: Option<Data>)
  {
    predicate Taken() { client.Some? && client.value.pc.HasBlock() }

    predicate Unrecorded() { client.Some? && client.value.pc.Unrecorded() }

    /** A clean block is the one in the base store. */
    predicate CleanIsBase(b: Block) { !b.dirty ==> base == Some(b.data) }

    /** The value pushed last, if nobody has taken over since, is completely flushed. */
    predicate Flushed() { pushed.Some? ==> pushed.value.flushed && base == Some(pushed.value.b.data) }

    /** The value of the key is in at most one of queue, eviction and client. */
    predicate Placed() {
      if queued.Some? then
        && !Taken() && (eviction.None? || eviction.value.KeyLocked?)
        && pushed == Some(Pushed(queued.value, false)) && CleanIsBase(queued.value)
      else if eviction.Some? then
        && !Taken()
        && match eviction.value
           case Flushing(_, b) => pushed == Some(Pushed(b, false)) && CleanIsBase(b)
           case Stored(_, b) => pushed == Some(Pushed(b, false)) && base == Some(b.data)
           case Erased(_) => Flushed()
           case _ => false
      else if Taken() then
        match client.value.pc
        case Found(r) => if r.Some? then pushed.None? && CleanIsBase(r.value) else Flushed()
        case Popped(r) => if r.Some? then pushed.None? && CleanIsBase(r.value) else Flushed()
        case PushStart(b, _) => pushed.None? && CleanIsBase(b)
        case Pushing(b, _) => pushed.None? && CleanIsBase(b)
        case _ => pushed.None?
      else Flushed()
    }

    /** The cached block `b` is the current value, and `notInBase` tells whether the base store
        lacks it. */
    predicate Cached(b: Block) {
      && logical == Some(b.data)
      && if Unrecorded() then base.None? && !notInBase else notInBase == base.None?
    }

    /** The base store can be asked instead of the cache. */
    predicate Clean() { base == logical && !Unrecorded() && !notInBase }

    /** The value is the right one, wherever it is. */
    predicate Right() {
      if queued.Some? then Cached(queued.value)
      else if eviction.Some? then
        match eviction.value
        case Flushing(_, b) => Cached(b)
        case Stored(_, _) => base == logical
        case _ => Clean()
      else if Taken() then
        match client.value.pc
        case Found(r) => if r.Some? then Cached(r.value) else Clean()
        case Popped(r) => if r.Some? then Cached(r.value) else Clean()
        case PushStart(b, _) => Cached(b)
        case Pushing(b, _) => Cached(b)
        case Discard(b) => !b.dirty && logical.None? && base.None?
        case _ => Clean()
      else Clean()
    }
  }

  predicate Evicts(s: State, t: Thread, k: Key) {
    t in s.evictions && s.evictions[t].Has(k)
  }

  predicate HasLock(s: State, t: Thread, k: Key) {
    Evicts(s, t, k) || (t == Client(k) && k in s.clients && s.clients[k].pc.HasKey())
  }

  function EvictionOf(s: State, k: Key): Option<Eviction> {
    if k in s.holder && Evicts(s, s.holder[k], k) then Some(s.evictions[s.holder[k]]) else None
  }

  function ViewOf(s: State, k: Key): View {
    View(Find(s.queue, k), EvictionOf(s, k), Lookup(s.clients, k), Lookup(s.base, k), k in s.notInBase,
         Lookup(s.pushed, k), Lookup(s.Logical(), k))
  }

  ghost predicate NoDuplicates(s: seq<Key>) {
    forall i, j | 0 <= i < j < |s| :: s[i] != s[j]
  }

  ghost predicate LocksInv(s: State) {
    && NoDuplicates(s.locked)
    && (forall k: Key :: k in s.locked <==> k in s.holder)
    && (forall t: Thread, k: Key :: HasLock(s, t, k) <==> k in s.holder && s.holder[k] == t)
  }

  /** A client has the mutex exactly in these places. */
  predicate ClientMutex(s: State, k: Key) {
    s.mutex == Some(Client(k)) <==>
      && k in s.clients
      && var pc := s.clients[k].pc;
      (pc.PopMutex? || pc.PopKey? || pc.Found? || (pc.Pushing? && (Client(k) !in s.evictions || s.evictions[Client(k)].KeyLocked?)))
  }

  predicate EvictionMutex(s: State, t: Thread) {
    t in s.evictions ==>
      && (s.mutex == Some(t) <==> s.evictions[t].KeyLocked?)
      && (s.evictions[t].KeyLocked? ==> s.queue != [] && s.queue[0].0 == s.evictions[t].key)
      && (t.Client? ==> t.key in s.clients && s.clients[t.key].pc.Pushing?)
  }

  ghost predicate MutexInv(s: State) {
    && (forall k: Key :: ClientMutex(s, k))
    && (forall t: Thread :: EvictionMutex(s, t))
  }

  ghost predicate QueueInv(s: State) {
    !s.fault && DistinctKeys(s.queue) && |s.queue| <= MAX_ENTRIES
  }

  /** Where everything is: this holds in every run. */
  ghost predicate Placement(s: State) {
    QueueInv(s) && MutexInv(s) && LocksInv(s) && forall k: Key :: ViewOf(s, k).Placed()
  }

  /** The values are right, too. */
  ghost predicate Inv(s: State) {
    Placement(s) && Legal(s.initial, s.history) && forall k: Key :: ViewOf(s, k).Right()
  }

  lemma InitInv(base: Store)
    ensures Inv(Init(base))
  {
  }

  /** The two steps that break the promise. A block that is in the base store but not in the
      cache is created again; and the flush of a new block ends before tryCreate has recorded that
      the block is not in the base store. */
  predicate Clashes(s: State, a: Action) {
    && a.ByClient? && a.client.Decide? && a.k in s.clients && a.k in s.base
    && s.clients[a.k].op.TryCreate? && s.clients[a.k].pc == Popped(None)
  }

  predicate Races(s: State, a: Action) {
    && a.ByEvictor? && a.evict.EvictErase? && a.t in s.evictions && s.evictions[a.t].Stored?
    && var k := s.evictions[a.t].key;
    k in s.clients && s.clients[k].pc.Recording?
  }
}
