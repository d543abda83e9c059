/** What a call of LeftRight's write, read and destructor comes to, from its first step to its last,
    whatever else is scheduled in between. */
module LeftRightCalls {
  import opened LeftRight

  // ----- Write

  /** The write in progress, if any, is the one of `f` that found `log0`, and the log says how far
      it has come. */
  ghost predicate InWrite<T>(s: State<T>, f: T -> T, log0: seq<T -> T>) {
    && (!s.writer.Idle? ==> s.writer.f == f)
    && match s.writer
       case Idle => false
       case Locked(_) => s.log == log0
       case Entered(_) => s.log == log0
       case Writing(_, second, _, _) => s.log == if second then log0 + [f] else log0
       case Recovering(_, second, _) => s.log == if second then log0 + [f] else log0
       case Wrote(_, _) => s.log == log0
       case _ => s.log == log0 + [f]
  }

  /** The step makes a write fail without effect: it comes after the destructor has begun, or the
      first call of the write function throws. */
  ghost predicate Drops<T>(s: State<T>, a: Action<T>) {
    || (a == ByWriter(Check) && s.inDestruction)
    || (a == ByWriter(Throw) && s.writer.Writing? && !s.writer.second)
  }

  ghost predicate EverDrops<T>(s: State<T>, run: seq<Action<T>>)
    requires IsRun(s, run)
    decreases |run|
  {
    run != [] && (Drops(s, run[0]) || EverDrops(Do(s, run[0]), run[1..]))
  }

  ghost predicate Acquires<T>(a: Action<T>) {
    a.ByWriter? && a.write.Acquire?
  }

  /** Has been dropped: on its way out, without a trace in the log. */
  ghost predicate Dropped<T>(s: State<T>, log0: seq<T -> T>) {
    s.log == log0 && (s.writer.Idle? || (s.writer.Recovering? && !s.writer.second))
  }

  lemma WriteProgress<T>(s: State<T>, a: Action<T>, f: T -> T, log0: seq<T -> T>)
    requires InWrite(s, f, log0) && Enabled(s, a) && !Acquires(a)
    requires !(s.writer.Recovering? && !s.writer.second)
    ensures var s' := Do(s, a);
            if Drops(s, a) then Dropped(s', log0)
            else if s'.writer.Idle? then s'.log == log0 + [f]
            else InWrite(s', f, log0) && !(s'.writer.Recovering? && !s'.writer.second)
  {
  }

  lemma {:induction false} DroppedStays<T>(s: State<T>, run: seq<Action<T>>, log0: seq<T -> T>)
    requires Dropped(s, log0) && IsRun(s, run) && forall i | 0 <= i < |run| :: !Acquires(run[i])
    ensures Dropped(Exec(s, run), log0)
    decreases |run|
  {
    if run != [] {
      DroppedStays(Do(s, run[0]), run[1..], log0);
    }
  }

  lemma {:induction false} IdleStays<T>(s: State<T>, run: seq<Action<T>>)
    requires s.writer.Idle? && IsRun(s, run) && forall i | 0 <= i < |run| :: !Acquires(run[i])
    ensures Exec(s, run).writer.Idle? && Exec(s, run).log == s.log && !EverDrops(s, run)
    decreases |run|
  {
    if run != [] {
      IdleStays(Do(s, run[0]), run[1..]);
    }
  }

  lemma {:induction false} WriteFrom<T>(s: State<T>, run: seq<Action<T>>, f: T -> T, log0: seq<T -> T>)
    requires InWrite(s, f, log0) && !(s.writer.Recovering? && !s.writer.second)
    requires IsRun(s, run) && forall i | 0 <= i < |run| :: !Acquires(run[i])
    requires Exec(s, run).writer.Idle?
    ensures Exec(s, run).log == if EverDrops(s, run) then log0 else log0 + [f]
    decreases |run|
  {
    if run != [] {
      var s', rest := Do(s, run[0]), run[1..];
      WriteProgress(s, run[0], f, log0);
      hide InWrite, Do, Enabled, Drops;
      if Drops(s, run[0]) {
        DroppedStays(s', rest, log0);
      } else if s'.writer.Idle? {
        IdleStays(s', rest);
      } else {
        WriteFrom(s', rest, f, log0);
      }
    }
  }

  /** A call of write that has returned, from taking the mutex to giving it up: it is logged, and
      both copies are what `f` makes of the old value, unless it came after the destructor had begun
      or the first call of `f` threw, and then nothing has changed. */
  lemma WriteEnds<T>(init: T, s: State<T>, f: T -> T, run: seq<Action<T>>)
    requires Inv(init, s) && s.writer.Idle? && IsRun(s, [ByWriter(Acquire(f))] + run)
    requires forall i | 0 <= i < |run| :: !Acquires(run[i])
    requires Exec(s, [ByWriter(Acquire(f))] + run).writer.Idle?
    ensures var s', dropped := Exec(s, [ByWriter(Acquire(f))] + run), EverDrops(Do(s, ByWriter(Acquire(f))), run);
            && s.data.zero == s.data.one
            && s'.log == (if dropped then s.log else s.log + [f])
            && s'.data == if dropped then s.data else Pair(f(s.data.zero), f(s.data.zero))
  {
    var a := ByWriter(Acquire(f));
    var all, s1 := [a] + run, Do(s, a);
    assert all[0] == a && all[1..] == run;
    assert InWrite(s1, f, s.log);
    WriteFrom(s1, run, f, s.log);
    RunKeepsInv(init, s, all);
    ReplaySnoc(init, s.log, f);
    IdleAgrees(init, s);
    IdleAgrees(init, Exec(s, all));
  }

  lemma ReplaySnoc<T>(init: T, log: seq<T -> T>, f: T -> T)
    ensures Replay(init, log + [f]) == f(Replay(init, log))
  {
    assert (log + [f])[..|log|] == log;
  }

  lemma IdleAgrees<T>(init: T, s: State<T>)
    requires Inv(init, s) && s.writer.Idle?
    ensures s.data == Pair(Replay(init, s.log), Replay(init, s.log))
  {
    hide Replay;
  }

  /** Without a destructor and without a throw, every write takes effect. */
  lemma WriteTakesEffect<T>(init: T, s: State<T>, f: T -> T, run: seq<Action<T>>)
    requires Inv(init, s) && s.writer.Idle? && !s.inDestruction && IsRun(s, [ByWriter(Acquire(f))] + run)
    requires forall i | 0 <= i < |run| :: !Acquires(run[i]) && run[i] != ByWriter(Throw) && run[i] != ByDestructor(Flag)
    requires Exec(s, [ByWriter(Acquire(f))] + run).writer.Idle?
    ensures var s' := Exec(s, [ByWriter(Acquire(f))] + run);
            s'.log == s.log + [f] && s'.data == Pair(f(s.data.zero), f(s.data.zero))
  {
    var all := [ByWriter(Acquire(f))] + run;
    assert all[1..] == run;
    NeverDrops(Do(s, all[0]), run);
    hide Inv, Exec, IsRun;
    WriteEnds(init, s, f, run);
  }

  lemma {:induction false} NeverDrops<T>(s: State<T>, run: seq<Action<T>>)
    requires !s.inDestruction && IsRun(s, run)
    requires forall i | 0 <= i < |run| :: run[i] != ByWriter(Throw) && run[i] != ByDestructor(Flag)
    ensures !EverDrops(s, run) && !Exec(s, run).inDestruction
    decreases |run|
  {
    if run != [] {
      NeverDrops(Do(s, run[0]), run[1..]);
    }
  }

  /** The step that a write takes next, if nothing throws. */
  ghost function NextWrite<T>(w: Writer<T>): WriteStep<T>
    requires !w.Idle?
  {
    match w
    case Locked(_) => Check
    case Entered(_) => LoadIndex
    case Writing(_, _, _, _) => Return
    case Recovering(_, _, _) => Recover
    case Wrote(_, _) => SwitchData
    case Switched(_, _) => LoadCounter
    case WaitingOld(_, _, _) => SeeZero
    case DrainedOld(_, _, _) => SwitchCounter
    case WaitingNew(_, _, _) => SeeZero
  }

  ghost function WriteStepsLeft<T>(w: Writer<T>): nat {
    match w
    case Idle => 0
    case Recovering(_, _, _) => 1
    case Writing(_, second, _, _) => if second then 1 else 7
    case WaitingNew(_, _, _) => 2
    case DrainedOld(_, _, _) => 3
    case WaitingOld(_, _, _) => 4
    case Switched(_, _) => 5
    case Wrote(_, _) => 6
    case Entered(_) => 8
    case Locked(_) => 9
  }

  /** The next step is enabled unless the writer has to wait for readers, and brings it closer to
      returning. */
  lemma WriterMoves<T>(s: State<T>)
    requires !s.writer.Idle? && (s.writer.Waits() ==> s.counters.Get(s.writer.counter.Flip()) == 0)
    ensures WriteEnabled(s, NextWrite(s.writer)) && WriteStepsLeft(DoWrite(s, NextWrite(s.writer)).writer) < WriteStepsLeft(s.writer)
  {
  }

  /** With nobody reading, a write can always be completed. */
  lemma {:induction false} WriterFinishes<T>(init: T, s: State<T>) returns (run: seq<Action<T>>)
    requires Inv(init, s) && s.readers == map[]
    ensures IsRun(s, run) && Exec(s, run).writer.Idle?
    ensures forall i | 0 <= i < |run| :: !Acquires(run[i]) && run[i] != ByWriter(Throw) && run[i] != ByDestructor(Flag)
    decreases WriteStepsLeft(s.writer)
  {
    if s.writer.Idle? {
      return [];
    }
    assert Holders(s.readers, Zero) == {} && Holders(s.readers, One) == {};
    WriterMoves(s);
    var a := ByWriter(NextWrite(s.writer));
    StepKeepsInv(init, s, a);
    var rest := WriterFinishes(init, Do(s, a));
    run := [a] + rest;
    assert run[1..] == rest;
  }

  /** So from any such state a write of `f` can be made, and takes effect. */
  lemma WriteSucceeds<T>(init: T, s: State<T>, f: T -> T) returns (run: seq<Action<T>>)
    requires Inv(init, s) && s.readers == map[] && s.writer.Idle? && !s.inDestruction
    ensures IsRun(s, [ByWriter(Acquire(f))] + run) && Exec(s, [ByWriter(Acquire(f))] + run).log == s.log + [f]
  {
    var a := ByWriter(Acquire(f));
    StepKeepsInv(init, s, a);
    run := WriterFinishes(init, Do(s, a));
    assert ([a] + run)[1..] == run;
    hide Inv;
    WriteTakesEffect(init, s, f, run);
  }

  // ----- Read

  /** The run has a step in which the reader gets at the data that is in the foreground then. */
  ghost predicate Reads<T>(s: State<T>, run: seq<Action<T>>, r: ReaderId)
    requires IsRun(s, run)
    decreases |run|
  {
    && run != []
    && var s' := Do(s, run[0]);
    || (run[0].ByReader? && run[0].r == r && r in s'.readers && s'.readers[r].Reading? && (r in s.readers ==> !s.readers[r].Reading?)
        && s'.readers[r].copy == s.dataIndex && s'.readers[r].seen == |s.log|)
    || Reads(s', run[1..], r)
  }

  /** The reader looks for the destructor, and it has begun. */
  ghost predicate Refused<T>(s: State<T>, run: seq<Action<T>>, r: ReaderId)
    requires IsRun(s, run)
    decreases |run|
  {
    && run != []
    && ((run[0] == ByReader(r, CheckAlive) && s.inDestruction) || Refused(Do(s, run[0]), run[1..], r))
  }

  lemma OtherReader<T>(s: State<T>, a: Action<T>, r: ReaderId)
    requires Enabled(s, a) && !(a.ByReader? && a.r == r)
    ensures var s' := Do(s, a); (r in s'.readers <==> r in s.readers) && (r in s.readers ==> s'.readers[r] == s.readers[r])
  {
  }

  /** A call of read that has returned: it has read the data in the foreground exactly if the
      destructor had not begun when it looked. */
  lemma {:induction false} ReadEnds<T>(s: State<T>, run: seq<Action<T>>, r: ReaderId)
    requires r in s.readers && IsRun(s, run) && r !in Exec(s, run).readers
    requires forall i | 0 <= i < |run| :: run[i] != ByReader(r, Enter)
    ensures s.readers[r].Loaded? || s.readers[r].Counted? ==> (Reads(s, run, r) <==> !Refused(s, run, r))
    ensures s.readers[r].Passed? ==> Reads(s, run, r) && !Refused(s, run, r)
    ensures s.readers[r].Reading? || s.readers[r].Leaving? ==> !Reads(s, run, r) && !Refused(s, run, r)
    decreases |run|
  {
    var a, s' := run[0], Do(s, run[0]);
    if a.ByReader? && a.r == r {
      if a.read.Leave? {
        NoMoreReads(s', run[1..], r);
      } else {
        ReadEnds(s', run[1..], r);
      }
    } else {
      OtherReader(s, a, r);
      hide Do, Enabled;
      ReadEnds(s', run[1..], r);
    }
  }

  lemma {:induction false} NoMoreReads<T>(s: State<T>, run: seq<Action<T>>, r: ReaderId)
    requires r !in s.readers && IsRun(s, run) && forall i | 0 <= i < |run| :: run[i] != ByReader(r, Enter)
    ensures !Reads(s, run, r) && !Refused(s, run, r) && r !in Exec(s, run).readers
    decreases |run|
  {
    if run != [] {
      if !(run[0].ByReader? && run[0].r == r) {
        OtherReader(s, run[0], r);
        hide Do, Enabled;
      }
      NoMoreReads(Do(s, run[0]), run[1..], r);
    }
  }

  // ----- The destructor

  /** Once the destructor has begun, it stays so, and every later look finds it. */
  lemma {:induction false} DestructionStays<T>(s: State<T>, run: seq<Action<T>>)
    requires IsRun(s, run) && s.inDestruction
    ensures Exec(s, run).inDestruction
    decreases |run|
  {
    if run != [] {
      DestructionStays(Do(s, run[0]), run[1..]);
    }
  }

  /** From its first step on, nothing that begins gets at the data: no write is logged that begins,
      and no read reads. */
  lemma FlaggedRefuses<T>(init: T, s: State<T>, run: seq<Action<T>>, f: T -> T)
    requires Inv(init, s) && IsRun(s, [ByDestructor(Flag)] + run) && Exec(s, [ByDestructor(Flag)] + run).writer.Idle?
    ensures var s1 := Exec(s, [ByDestructor(Flag)] + run);
            && s1.inDestruction && Enabled(s1, ByWriter(Acquire(f)))
            && Enabled(Do(s1, ByWriter(Acquire(f))), ByWriter(Check))
            && Do(Do(s1, ByWriter(Acquire(f))), ByWriter(Check)) == s1
  {
    var all := [ByDestructor(Flag)] + run;
    assert all[1..] == run;
    DestructionStays(Do(s, all[0]), run);
  }

  /** The destructor ends once there is neither a writer nor a reader. */
  lemma DestructorEnds<T>(init: T, s: State<T>)
    requires Inv(init, s) && s.destructor.NotStarted? && s.writer.Idle? && s.readers == map[]
    ensures var run := [ByDestructor(Flag), ByDestructor(Lock), ByDestructor(SeeFirstZero), ByDestructor(SeeSecondZero)];
            IsRun(s, run) && Exec(s, run).destructor.Destroyed?
  {
    assert Holders(s.readers, Zero) == {} && Holders(s.readers, One) == {};
    var a, b, c, d: Action<T> := ByDestructor(Flag), ByDestructor(Lock), ByDestructor(SeeFirstZero), ByDestructor(SeeSecondZero);
    var s1 := Do(s, a);
    var s2 := Do(s1, b);
    var s3 := Do(s2, c);
    assert Enabled(s3, d) && Do(s3, d).destructor.Destroyed?;
    hide Do, Enabled, Inv;
    FirstStep(s3, d, []);
    FirstStep(s2, c, [d] + []);
    FirstStep(s1, b, [c] + ([d] + []));
    FirstStep(s, a, [b] + ([c] + ([d] + [])));
    assert [a] + ([b] + ([c] + ([d] + []))) == [a, b, c, d];
  }

  lemma FirstStep<T>(s: State<T>, a: Action<T>, rest: seq<Action<T>>)
    requires Enabled(s, a) && IsRun(Do(s, a), rest)
    ensures IsRun(s, [a] + rest) && Exec(s, [a] + rest) == Exec(Do(s, a), rest)
  {
    assert ([a] + rest)[1..] == rest;
  }
}
