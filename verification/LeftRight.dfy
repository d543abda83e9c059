/** Model of the LeftRight primitive (cpp-utils/thread/LeftRight.h): wait-free readers over two
    copies of the data, and one writer at a time.

    Every atomic access is a step of its own, and a run is any interleaving of steps by any
    number of readers, a writer and the destructor. In particular the load of the counter
    index and the increment of that counter are two steps. A call of the write function may
    leave any value in its copy while it runs, and may throw on either of its two calls. */
module LeftRight {

  datatype Side = Zero | One {
    function Flip(): Side { if Zero? then One else Zero }
  }

  datatype Pair<+X> = Pair(zero: X, one: X) {
    function Get(i: Side): X { if i.Zero? then zero else one }
  }

  function Put<X>(p: Pair<X>, i: Side, x: X): Pair<X> {
    if i.Zero? then p.(zero := x) else p.(one := x)
  }

  type ReaderId = nat

  /** Where a call of `read` stands. `seen` is the number of writes whose data switch came
      before the reader loaded the data index. */
  datatype Reader =
    | Loaded(counter: Side)
    | Counted(counter: Side)
    | Passed(counter: Side)
    | Reading(counter: Side, copy: Side, seen: nat)
    | Leaving(counter: Side)
  {
    predicate Holds(c: Side) { !Loaded? && counter == c }
    predicate PastCheck() { Passed? || Reading? }
    predicate Inside(copy': Side) { Reading? && copy == copy' }
    function StepsLeft(): (n: nat)
      ensures 1 <= n <= 5
    {
      match this
      case Loaded(_) => 5
      case Counted(_) => 4
      case Passed(_) => 3
      case Reading(_, _, _) => 2
      case Leaving(_) => 1
    }
  }

  /** Where the holder of the write mutex stands. `data` and `counter` are the writer's local
      indices; `start` is the value its write function was called on. */
  datatype Writer<!T> =
    | Idle
    | Locked(f: T -> T)
    | Entered(f: T -> T)
    | Writing(f: T -> T, second: bool, data: Side, start: T)
    | Recovering(f: T -> T, second: bool, data: Side)
    | Wrote(f: T -> T, data: Side)
    | Switched(f: T -> T, data: Side)
    | WaitingOld(f: T -> T, data: Side, counter: Side)
    | DrainedOld(f: T -> T, data: Side, counter: Side)
    | WaitingNew(f: T -> T, data: Side, counter: Side)
  {
    predicate Writes(copy: Side) { (Writing? || Recovering?) && copy == data.Flip() }
    predicate Waits() { WaitingOld? || WaitingNew? }
  }

  datatype Destructor = NotStarted | Flagged | NoWriter | SawZero | Destroyed

  datatype State<!T> = State(
    counterIndex: Side,
    dataIndex: Side,
    counters: Pair<int>,
    data: Pair<T>,
    inDestruction: bool,
    readers: map<ReaderId, Reader>,
    writer: Writer<T>,
    destructor: Destructor,
    log: seq<T -> T>)   // the write functions whose data switch has happened, in order

  function Init<T>(init: T): State<T> {
    State(Zero, Zero, Pair(0, 0), Pair(init, init), false, map[], Idle, NotStarted, [])
  }

  /** The state that the first writes of the log produce. */
  function Replay<T>(init: T, log: seq<T -> T>): T {
    if log == [] then init else log[|log| - 1](Replay(init, log[..|log| - 1]))
  }

  // ----- Steps

  datatype ReadStep = Enter | Increment | CheckAlive | LoadData | Finish | Leave

  datatype WriteStep<!T> =
    | Acquire(f: T -> T) | Check | LoadIndex | Scribble(v: T) | Return | Throw | Recover
    | SwitchData | LoadCounter | SeeZero | SwitchCounter

  datatype DestroyStep = Flag | Lock | SeeFirstZero | SeeSecondZero | Retry

  datatype Action<!T> = ByReader(r: ReaderId, read: ReadStep) | ByWriter(write: WriteStep<T>) | ByDestructor(destroy: DestroyStep)

  predicate ReadEnabled<T>(s: State<T>, r: ReaderId, step: ReadStep) {
    match step
    case Enter => r !in s.readers
    case Increment => r in s.readers && s.readers[r].Loaded?
    case CheckAlive => r in s.readers && s.readers[r].Counted?
    case LoadData => r in s.readers && s.readers[r].Passed?
    case Finish => r in s.readers && s.readers[r].Reading?
    case Leave => r in s.readers && s.readers[r].Leaving?
  }

  function DoRead<T>(s: State<T>, r: ReaderId, step: ReadStep): (s': State<T>)
    requires ReadEnabled(s, r, step)
    ensures s' == s.(readers := s'.readers, counters := s'.counters)
  {
    if step.Enter? then s.(readers := s.readers[r := Loaded(s.counterIndex)])
    else
      var c := s.readers[r].counter;
      match step
      case Increment =>
        s.(readers := s.readers[r := Counted(c)], counters := Put(s.counters, c, s.counters.Get(c) + 1))
      case CheckAlive => s.(readers := s.readers[r := if s.inDestruction then Leaving(c) else Passed(c)])
      case LoadData => s.(readers := s.readers[r := Reading(c, s.dataIndex, |s.log|)])
      case Finish => s.(readers := s.readers[r := Leaving(c)])
      case Leave =>
        s.(readers := s.readers - {r}, counters := Put(s.counters, c, s.counters.Get(c) - 1))
  }

  predicate WriteEnabled<T>(s: State<T>, step: WriteStep<T>) {
    match step
    case Acquire(_) => s.writer.Idle?
    case Check => s.writer.Locked?
    case LoadIndex => s.writer.Entered?
    case Scribble(_) => s.writer.Writing? || s.writer.Recovering?
    case Return => s.writer.Writing?
    case Throw => s.writer.Writing?
    case Recover => s.writer.Recovering?
    case SwitchData => s.writer.Wrote?
    case LoadCounter => s.writer.Switched?
    case SeeZero => s.writer.Waits() && s.counters.Get(s.writer.counter.Flip()) == 0
    case SwitchCounter => s.writer.DrainedOld?
  }

  function DoWrite<T>(s: State<T>, step: WriteStep<T>): (s': State<T>)
    requires WriteEnabled(s, step)
    ensures s'.readers == s.readers && s'.counters == s.counters
    ensures s'.inDestruction == s.inDestruction && s'.destructor == s.destructor
  {
    var w := s.writer;
    match step
    case Acquire(f) => s.(writer := Locked(f))
    case Check => s.(writer := if s.inDestruction then Idle else Entered(w.f))
    case LoadIndex => s.(writer := Writing(w.f, false, s.dataIndex, s.data.Get(s.dataIndex.Flip())))
    case Scribble(v) => s.(data := Put(s.data, w.data.Flip(), v))
    case Return =>
      s.(data := Put(s.data, w.data.Flip(), w.f(w.start)),
         writer := if w.second then Idle else Wrote(w.f, w.data))
    case Throw => s.(writer := Recovering(w.f, w.second, w.data))
    case Recover => s.(data := Put(s.data, w.data.Flip(), s.data.Get(w.data)), writer := Idle)
    case SwitchData =>
      s.(dataIndex := w.data.Flip(), writer := Switched(w.f, w.data.Flip()), log := s.log + [w.f])
    case LoadCounter => s.(writer := WaitingOld(w.f, w.data, s.counterIndex))
    case SeeZero =>
      s.(writer := if w.WaitingOld? then DrainedOld(w.f, w.data, w.counter)
                   else Writing(w.f, true, w.data, s.data.Get(w.data.Flip())))
    case SwitchCounter =>
      s.(counterIndex := w.counter.Flip(), writer := WaitingNew(w.f, w.data, w.counter.Flip()))
  }

  predicate DestroyEnabled<T>(s: State<T>, step: DestroyStep) {
    match step
    case Flag => s.destructor.NotStarted?
    case Lock => s.destructor.Flagged? && s.writer.Idle?
    case SeeFirstZero => s.destructor.NoWriter? && s.counters.zero == 0
    case SeeSecondZero => s.destructor.SawZero? && s.counters.one == 0
    case Retry => s.destructor.SawZero? && s.counters.one != 0
  }

  function DoDestroy<T>(s: State<T>, step: DestroyStep): (s': State<T>)
    requires DestroyEnabled(s, step)
    ensures s' == s.(inDestruction := s'.inDestruction, destructor := s'.destructor)
  {
    match step
    case Flag => s.(inDestruction := true, destructor := Flagged)
    case Lock => s.(destructor := NoWriter)
    case SeeFirstZero => s.(destructor := SawZero)
    case SeeSecondZero => s.(destructor := Destroyed)
    case Retry => s.(destructor := NoWriter)
  }

  predicate Enabled<T>(s: State<T>, a: Action<T>) {
    match a
    case ByReader(r, step) => ReadEnabled(s, r, step)
    case ByWriter(step) => WriteEnabled(s, step)
    case ByDestructor(step) => DestroyEnabled(s, step)
  }

  function Do<T>(s: State<T>, a: Action<T>): State<T>
    requires Enabled(s, a)
  {
    match a
    case ByReader(r, step) => DoRead(s, r, step)
    case ByWriter(step) => DoWrite(s, step)
    case ByDestructor(step) => DoDestroy(s, step)
  }

  /** The actions form a run from `s`. */
  predicate IsRun<T>(s: State<T>, run: seq<Action<T>>)
    decreases |run|
  {
    run == [] || (Enabled(s, run[0]) && IsRun(Do(s, run[0]), run[1..]))
  }

  function Exec<T>(s: State<T>, run: seq<Action<T>>): State<T>
    requires IsRun(s, run)
    decreases |run|
  {
    if run == [] then s else Exec(Do(s, run[0]), run[1..])
  }

  // ----- Invariant

  function Holders(readers: map<ReaderId, Reader>, c: Side): set<ReaderId> {
    set r | r in readers && readers[r].Holds(c)
  }

  ghost predicate CountersCount<T>(s: State<T>) {
    && s.counters.zero == |Holders(s.readers, Zero)|
    && s.counters.one == |Holders(s.readers, One)|
  }

  function Current<T>(init: T, s: State<T>): T {
    Replay(init, s.log)
  }

  function Previous<T>(init: T, s: State<T>): T
    requires s.log != []
  {
    Replay(init, s.log[..|s.log| - 1])
  }

  ghost predicate DataInv<T>(init: T, s: State<T>) {
    && s.data.Get(s.dataIndex) == Current(init, s)
    && var back := s.data.Get(s.dataIndex.Flip());
    match s.writer
    case Idle => back == Current(init, s)
    case Locked(_) => back == Current(init, s)
    case Entered(_) => back == Current(init, s)
    case Writing(f, second, d, start) =>
      && d == s.dataIndex
      && if second then s.log != [] && f == s.log[|s.log| - 1] && start == Previous(init, s)
         else start == Current(init, s)
    case Recovering(_, _, d) => d == s.dataIndex
    case Wrote(f, d) => d == s.dataIndex && back == f(Current(init, s))
    case Switched(f, d) =>
      d == s.dataIndex && s.log != [] && f == s.log[|s.log| - 1] && back == Previous(init, s)
    case WaitingOld(f, d, c) =>
      && d == s.dataIndex && c == s.counterIndex
      && s.log != [] && f == s.log[|s.log| - 1] && back == Previous(init, s)
    case DrainedOld(f, d, c) =>
      && d == s.dataIndex && c == s.counterIndex
      && s.log != [] && f == s.log[|s.log| - 1] && back == Previous(init, s)
    case WaitingNew(f, d, c) =>
      && d == s.dataIndex && c == s.counterIndex
      && s.log != [] && f == s.log[|s.log| - 1] && back == Previous(init, s)
  }

  /** A reader inside the background copy is one the writer still has to wait for. */
  predicate Blocks<T>(w: Writer<T>, c: Side) {
    match w
    case Switched(_, _) => true
    case WaitingOld(_, _, _) => true
    case DrainedOld(_, _, cw) => c == cw
    case WaitingNew(_, _, cw) => c == cw.Flip()
    case _ => false
  }

  predicate ReaderInv<T>(s: State<T>, r: Reader) {
    r.Reading? ==>
      if r.copy == s.dataIndex then r.seen == |s.log|
      else r.seen == |s.log| - 1 && Blocks(s.writer, r.counter)
  }

  ghost predicate ReadersInv<T>(s: State<T>) {
    forall r | r in s.readers :: ReaderInv(s, s.readers[r])
  }

  ghost predicate DestructorInv<T>(s: State<T>) {
    && s.inDestruction == !s.destructor.NotStarted?
    && (s.destructor.NoWriter? || s.destructor.SawZero? || s.destructor.Destroyed? ==>
          s.writer.Idle? || s.writer.Locked?)
    && (forall r | r in s.readers && s.readers[r].PastCheck() ::
          && !s.destructor.Destroyed?
          && (s.destructor.SawZero? ==> s.readers[r].counter.One?))
  }

  ghost predicate Inv<T>(init: T, s: State<T>) {
    CountersCount(s) && DataInv(init, s) && ReadersInv(s) && DestructorInv(s)
  }

  lemma InitInv<T>(init: T)
    ensures Inv(init, Init(init))
  {
  }

  // ----- Every step keeps the invariant

  lemma SizeWithout<X>(s: set<X>, x: X)
    ensures |s - {x}| == |s| - if x in s then 1 else 0
  {
  }

  lemma SizeChange<X>(s: set<X>, s': set<X>, x: X)
    requires forall y | y != x :: y in s <==> y in s'
    ensures |s'| == |s| - (if x in s then 1 else 0) + (if x in s' then 1 else 0)
  {
    assert s - {x} == s' - {x};
    SizeWithout(s, x);
    SizeWithout(s', x);
  }

  lemma HoldersUpdate(readers: map<ReaderId, Reader>, r: ReaderId, v: Reader, c: Side)
    ensures |Holders(readers[r := v], c)| == |Holders(readers, c)|
              - (if r in readers && readers[r].Holds(c) then 1 else 0) + (if v.Holds(c) then 1 else 0)
  {
    SizeChange(Holders(readers, c), Holders(readers[r := v], c), r);
  }

  lemma HoldersRemove(readers: map<ReaderId, Reader>, r: ReaderId, c: Side)
    requires r in readers
    ensures |Holders(readers - {r}, c)| == |Holders(readers, c)| - if readers[r].Holds(c) then 1 else 0
  {
    assert Holders(readers - {r}, c) == Holders(readers, c) - {r};
    SizeWithout(Holders(readers, c), r);
  }

  lemma CountersKept<T>(s: State<T>, r: ReaderId, step: ReadStep)
    requires ReadEnabled(s, r, step) && CountersCount(s)
    ensures CountersCount(DoRead(s, r, step))
  {
    var s' := DoRead(s, r, step);
    if step.Leave? {
      HoldersRemove(s.readers, r, Zero);
      HoldersRemove(s.readers, r, One);
    } else {
      HoldersUpdate(s.readers, r, s'.readers[r], Zero);
      HoldersUpdate(s.readers, r, s'.readers[r], One);
    }
  }

  lemma DataKept<T>(init: T, s: State<T>, step: WriteStep<T>)
    requires WriteEnabled(s, step) && DataInv(init, s)
    ensures DataInv(init, DoWrite(s, step))
  {
  }

  /** A counter that reads zero has no holder. */
  lemma ZeroMeansNoHolder<T>(s: State<T>, c: Side)
    requires CountersCount(s) && s.counters.Get(c) == 0
    ensures forall r | r in s.readers :: !s.readers[r].Holds(c)
  {
    var holders := Holders(s.readers, c);
    assert holders == {};
    forall r | r in s.readers ensures !s.readers[r].Holds(c) {
      assert r !in holders;
    }
  }

  lemma ReadersKept<T>(init: T, s: State<T>, step: WriteStep<T>)
    requires WriteEnabled(s, step) && Inv(init, s)
    ensures ReadersInv(DoWrite(s, step))
  {
    if step.SeeZero? {
      ZeroMeansNoHolder(s, s.writer.counter.Flip());
    }
  }

  lemma DestructorKept<T>(s: State<T>, step: DestroyStep)
    requires DestroyEnabled(s, step) && CountersCount(s) && DestructorInv(s)
    ensures DestructorInv(DoDestroy(s, step))
  {
    if step.SeeFirstZero? {
      ZeroMeansNoHolder(s, Zero);
    } else if step.SeeSecondZero? {
      ZeroMeansNoHolder(s, One);
    }
  }

  lemma StepKeepsInv<T>(init: T, s: State<T>, a: Action<T>)
    requires Enabled(s, a) && Inv(init, s)
    ensures Inv(init, Do(s, a))
  {
    match a
    case ByReader(r, step) =>
      ReadKeepsInv(init, s, r, step);
    case ByWriter(step) =>
      WriteKeepsInv(init, s, step);
    case ByDestructor(step) =>
      hide DataInv;
      DestructorKept(s, step);
  }

  lemma ReadKeepsInv<T>(init: T, s: State<T>, r: ReaderId, step: ReadStep)
    requires ReadEnabled(s, r, step) && Inv(init, s)
    ensures Inv(init, DoRead(s, r, step))
  {
    hide CountersCount, Replay;
    CountersKept(s, r, step);
  }

  lemma WriteKeepsInv<T>(init: T, s: State<T>, step: WriteStep<T>)
    requires WriteEnabled(s, step) && Inv(init, s)
    ensures Inv(init, DoWrite(s, step))
  {
    hide DataInv, ReadersInv;
    DataKept(init, s, step);
    ReadersKept(init, s, step);
  }

  lemma {:induction false} RunKeepsInv<T>(init: T, s: State<T>, run: seq<Action<T>>)
    requires IsRun(s, run) && Inv(init, s)
    ensures Inv(init, Exec(s, run))
    decreases |run|
  {
    if run != [] {
      StepKeepsInv(init, s, run[0]);
      RunKeepsInv(init, Do(s, run[0]), run[1..]);
    }
  }

  // ----- Safety of every run

  /** No reader is inside the copy that the writer is changing. */
  ghost predicate Exclusion<T>(s: State<T>) {
    forall r, copy: Side | r in s.readers && s.readers[r].Inside(copy) :: !s.writer.Writes(copy)
  }

  /** Outside of a write both copies are what the logged writes produce. */
  ghost predicate Agreement<T>(init: T, s: State<T>) {
    s.writer.Idle? ==> s.data == Pair(Replay(init, s.log), Replay(init, s.log))
  }

  /** All through its read function, a reader sees the state produced by exactly the writes
      that had switched when it loaded the data index. */
  ghost predicate StableReads<T>(init: T, s: State<T>) {
    forall r | r in s.readers && s.readers[r].Reading? ::
      && s.readers[r].seen <= |s.log|
      && s.data.Get(s.readers[r].copy) == Replay(init, s.log[..s.readers[r].seen])
  }

  /** Once the destructor has returned nobody touches the data any more. */
  ghost predicate DestroyedMeansUnused<T>(s: State<T>) {
    s.destructor.Destroyed? ==>
      && !s.writer.Writing? && !s.writer.Recovering?
      && forall r | r in s.readers :: !s.readers[r].PastCheck()
  }

  lemma EveryRunIsSafe<T>(init: T, run: seq<Action<T>>)
    requires IsRun(Init(init), run)
    ensures var s := Exec(Init(init), run);
            Exclusion(s) && Agreement(init, s) && StableReads(init, s) && DestroyedMeansUnused(s)
  {
    InitInv(init);
    RunKeepsInv(init, Init(init), run);
    var s := Exec(Init(init), run);
    forall r | r in s.readers && s.readers[r].Reading?
      ensures s.readers[r].seen <= |s.log|
      ensures s.data.Get(s.readers[r].copy) == Replay(init, s.log[..s.readers[r].seen])
    {
      assert ReaderInv(s, s.readers[r]);
      assert s.log[..|s.log|] == s.log;
    }
  }

  /** A write that throws leaves the old or the new state, according to which call threw, and
      in either case both copies agree again. */
  lemma ThrowingWrite<T>(init: T, s: State<T>)
    requires Inv(init, s) && s.writer.Writing?
    ensures var f, second := s.writer.f, s.writer.second;
            var s' := DoWrite(DoWrite(s, Throw), Recover);
            && s'.log == s.log && s'.writer.Idle?
            && s'.data == Pair(Replay(init, s.log), Replay(init, s.log))
            && (second ==> s.log != [] && Replay(init, s.log) == f(Replay(init, s.log[..|s.log| - 1])))
  {
  }

  // ----- Non-starvation

  /** The readers that hold counter `c` or can still increment it. */
  function Blockers<T>(s: State<T>, c: Side): set<ReaderId> {
    set r | r in s.readers && s.readers[r].counter == c
  }

  /** While the writer waits on a counter, no reader joins the ones it waits for. */
  lemma BlockersNeverGrow<T>(init: T, s: State<T>, a: Action<T>)
    requires Inv(init, s) && Enabled(s, a)
    requires s.writer.Waits() && Do(s, a).writer == s.writer
    ensures Blockers(Do(s, a), s.writer.counter.Flip()) <= Blockers(s, s.writer.counter.Flip())
  {
    hide Inv;
    WaitCounter(init, s);
  }

  /** With no such reader left the wait is over. */
  lemma NoBlockersEndsWait<T>(init: T, s: State<T>)
    requires Inv(init, s) && s.writer.Waits()
    requires Blockers(s, s.writer.counter.Flip()) == {}
    ensures Enabled(s, ByWriter(SeeZero))
  {
    var c := s.writer.counter.Flip();
    assert Holders(s.readers, c) <= Blockers(s, c);
    assert |Holders(s.readers, c)| == 0;
  }

  function Cost(r: Reader, c: Side): nat {
    if r.counter == c then r.StepsLeft() else 0
  }

  /** The steps that the readers on counter `c` have left, in total. */
  ghost function Work(readers: map<ReaderId, Reader>, c: Side): nat {
    if readers == map[] then 0
    else
      var r :| r in readers;
      Cost(readers[r], c) + Work(readers - {r}, c)
  }

  lemma {:induction false} WorkSplit(readers: map<ReaderId, Reader>, c: Side, r: ReaderId)
    requires r in readers
    ensures Work(readers, c) == Cost(readers[r], c) + Work(readers - {r}, c)
    decreases |readers|
  {
    var q :| q in readers && Work(readers, c) == Cost(readers[q], c) + Work(readers - {q}, c);
    if q != r {
      WorkSplit(readers - {q}, c, r);
      WorkSplit(readers - {r}, c, q);
      assert readers - {q} - {r} == readers - {r} - {q};
    }
  }

  lemma WorkUpdate(readers: map<ReaderId, Reader>, c: Side, r: ReaderId, v: Reader)
    ensures Work(readers[r := v], c) ==
            Cost(v, c) + Work(readers, c) - if r in readers then Cost(readers[r], c) else 0
  {
    var updated := readers[r := v];
    WorkSplit(updated, c, r);
    assert updated - {r} == readers - {r};
    if r in readers {
      WorkSplit(readers, c, r);
    } else {
      assert readers - {r} == readers;
    }
  }

  /** A step by one of the readers that the writer waits for. */
  predicate BlockerStep<T>(s: State<T>, a: Action<T>, c: Side) {
    a.ByReader? && a.r in Blockers(s, c)
  }

  lemma WorkDecreases<T>(init: T, s: State<T>, a: Action<T>)
    requires Inv(init, s) && Enabled(s, a)
    requires s.writer.Waits() && Do(s, a).writer == s.writer
    ensures var c := s.writer.counter.Flip();
            Work(Do(s, a).readers, c) + (if BlockerStep(s, a, c) then 1 else 0) <= Work(s.readers, c)
  {
    var c := s.writer.counter.Flip();
    WaitCounter(init, s);
    if a.ByReader? {
      CostDecreases(s, a.r, a.read, c);
      hide *;
      if a.read.Leave? {
        WorkSplit(s.readers, c, a.r);
      } else {
        WorkUpdate(s.readers, c, a.r, DoRead(s, a.r, a.read).readers[a.r]);
      }
    }
  }

  /** New readers take the other counter. */
  lemma WaitCounter<T>(init: T, s: State<T>)
    requires Inv(init, s) && s.writer.Waits()
    ensures s.counterIndex == s.writer.counter
  {
  }

  /** The same for the one reader that takes the step. */
  lemma CostDecreases<T>(s: State<T>, r: ReaderId, step: ReadStep, c: Side)
    requires ReadEnabled(s, r, step) && s.counterIndex != c
    ensures var before, after := s.readers, DoRead(s, r, step).readers;
            && (if r in Blockers(s, c) then 1 else 0) + (if r in after then Cost(after[r], c) else 0) <= (if r in before then Cost(before[r], c) else 0)
            && if step.Leave? then r in before && after == before - {r} else r in after && after == before[r := after[r]]
  {
  }

  /** The writer stays in the same wait all along the run. */
  predicate WaitsThrough<T>(s: State<T>, run: seq<Action<T>>)
    requires IsRun(s, run)
    decreases |run|
  {
    run == [] || (run[0] != ByWriter(SeeZero) && WaitsThrough(Do(s, run[0]), run[1..]))
  }

  function BlockerSteps<T>(s: State<T>, run: seq<Action<T>>, c: Side): nat
    requires IsRun(s, run)
    decreases |run|
  {
    if run == [] then 0
    else (if BlockerStep(s, run[0], c) then 1 else 0) + BlockerSteps(Do(s, run[0]), run[1..], c)
  }

  /** However long a wait lasts and whatever else is scheduled, the readers it waits for take
      at most the steps they had left when it began; new readers never add to that. */
  lemma {:induction false} WaitIsBounded<T>(init: T, s: State<T>, run: seq<Action<T>>)
    requires Inv(init, s) && s.writer.Waits() && IsRun(s, run) && WaitsThrough(s, run)
    ensures var c := s.writer.counter.Flip();
            BlockerSteps(s, run, c) + Work(Exec(s, run).readers, c) <= Work(s.readers, c)
    ensures Blockers(Exec(s, run), s.writer.counter.Flip()) <= Blockers(s, s.writer.counter.Flip())
    decreases |run|
  {
    if run != [] {
      var s' := Do(s, run[0]);
      StepKeepsInv(init, s, run[0]);
      assert s'.writer == s.writer;
      WorkDecreases(init, s, run[0]);
      BlockersNeverGrow(init, s, run[0]);
      WaitIsBounded(init, s', run[1..]);
    }
  }

  function NextStep(r: Reader): ReadStep {
    match r
    case Loaded(_) => Increment
    case Counted(_) => CheckAlive
    case Passed(_) => LoadData
    case Reading(_, _, _) => Finish
    case Leaving(_) => Leave
  }

  /** Readers are wait-free: whatever the writer does, a reader's next step is enabled, and it
      is at least one step closer to returning. */
  lemma ReadersAreWaitFree<T>(s: State<T>, r: ReaderId)
    requires r in s.readers
    ensures ReadEnabled(s, r, NextStep(s.readers[r]))
    ensures var s' := DoRead(s, r, NextStep(s.readers[r]));
            r in s'.readers ==> s'.readers[r].StepsLeft() < s.readers[r].StepsLeft()
  {
  }
}
