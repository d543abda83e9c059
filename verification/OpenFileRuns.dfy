/** FuseOpenFileList with any number of threads. A step is one critical section of the mutex. A
    `load` has two, around its callback; a `close` that has to wait tests again later. */
module OpenFileRuns {
  import opened Bytes
  import opened Holders
  import opened OpenFiles

  datatype Pc =
    | Idle
    | InCallback(descriptor: nat, file: File)
    | Closing(descriptor: nat)     // close, waiting for the callbacks to end
  {
    function Held(): Option<(nat, File)> {
      if InCallback? then Some((descriptor, file)) else None
    }
  }

  datatype Action =
    | Open(file: File)
    | LoadBegin(descriptor: nat)
    | LoadEnd
    | Close(descriptor: nat)
    | Retry

  /** How a step ends for its caller. */
  datatype Answer = Nothing | Descriptor(d: nat) | Busy | BadDescriptor

  datatype State = State(files: map<nat, File>, refcounts: map<nat, nat>, counter: nat, running: Callbacks, handedOut: seq<nat>, pcs: map<Tid, Pc>, answer: Answer) {
    function At(t: Tid): Pc {
      if t in pcs then pcs[t] else Idle
    }

    function Goes(t: Tid, pc: Pc, answer': Answer): State {
      this.(pcs := pcs[t := pc], answer := answer')
    }

    /** One test of a close, which ends if it can. */
    function Closes(t: Tid, d: nat): State {
      if d !in refcounts then Goes(t, Idle, BadDescriptor)
      else if refcounts[d] != 0 then Goes(t, Closing(d), Busy)
      else this.(files := files - {d}, refcounts := refcounts - {d}).Goes(t, Idle, Nothing)
    }
  }

  ghost predicate Init(s: State) {
    s == State(map[], map[], 0, multiset{}, [], map[], Nothing)
  }

  predicate Enabled(s: State, t: Tid, a: Action) {
    match a
    case Open(_) => s.At(t).Idle? && s.counter < INT_MAX
    case LoadBegin(_) | Close(_) => s.At(t).Idle?
    case LoadEnd => s.At(t).InCallback?
    case Retry => s.At(t).Closing?
  }

  function Do(s: State, t: Tid, a: Action): State
    requires Enabled(s, t, a)
  {
    match a
    case Open(f) =>
      var d := s.counter + 1;
      s.(files := s.files[d := f], refcounts := s.refcounts[d := 0], counter := d, handedOut := s.handedOut + [d]).Goes(t, Idle, Descriptor(d))
    case LoadBegin(d) =>
      if d !in s.refcounts || d !in s.files then s.Goes(t, Idle, BadDescriptor)
      else
        var f := s.files[d];
        s.(refcounts := s.refcounts[d := s.refcounts[d] + 1], running := s.running + multiset{(d, f)}).Goes(t, InCallback(d, f), Nothing)
    case LoadEnd =>
      var d, f := s.At(t).descriptor, s.At(t).file;
      if d !in s.refcounts || s.refcounts[d] == 0 then s.(running := s.running - multiset{(d, f)}).Goes(t, Idle, BadDescriptor)
      else s.(refcounts := s.refcounts[d := s.refcounts[d] - 1], running := s.running - multiset{(d, f)}).Goes(t, Idle, Nothing)
    case Close(d) => s.Closes(t, d)
    case Retry => s.Closes(t, s.At(t).descriptor)
  }

  type Run = seq<(Tid, Action)>

  predicate IsRun(s: State, run: Run)
    decreases |run|
  {
    run == [] || (Enabled(s, run[0].0, run[0].1) && IsRun(Do(s, run[0].0, run[0].1), run[1..]))
  }

  function Exec(s: State, run: Run): State
    requires IsRun(s, run)
    decreases |run|
  {
    if run == [] then s else Exec(Do(s, run[0].0, run[0].1), run[1..])
  }

  // ----- What every step keeps

  ghost function Held(pcs: map<Tid, Pc>): map<Tid, Option<(nat, File)>> {
    map t | t in pcs :: pcs[t].Held()
  }

  /** The running callbacks are those of the threads. */
  ghost predicate Inv(s: State) {
    && Counts(s.files, s.refcounts, s.running) && Tally(Held(s.pcs), s.running)
    && Consecutive(s.handedOut, s.counter) && (forall d | d in s.files :: d in s.handedOut)
    && forall t | t in s.pcs && s.pcs[t].Closing? :: s.pcs[t].descriptor in s.handedOut
  }

  lemma HeldGoes(pcs: map<Tid, Pc>, t: Tid, pc: Pc)
    ensures Held(pcs[t := pc]) == Held(pcs)[t := pc.Held()]
  {
  }

  lemma GoesKeeps(s: State, t: Tid, pc: Pc, a: Answer)
    requires Inv(s) && s.At(t).Held() == pc.Held() && (pc.Closing? ==> pc.descriptor in s.handedOut)
    ensures Inv(s.Goes(t, pc, a))
  {
    HeldGoes(s.pcs, t, pc);
    hide Counts, Tally, Consecutive;
    Keeps(Held(s.pcs), s.running, t, pc.Held());
  }

  lemma OpenKeeps(s: State, t: Tid, f: File)
    requires Inv(s) && Enabled(s, t, Open(f))
    ensures Inv(Do(s, t, Open(f)))
  {
    var d := s.counter + 1;
    NextDescriptor(s.handedOut, s.counter);
    hide Tally, Consecutive;
    Opened(s.files, s.refcounts, s.running, d, f);
    hide Counts;
    GoesKeeps(s.(files := s.files[d := f], refcounts := s.refcounts[d := 0], counter := d, handedOut := s.handedOut + [d]), t, Idle, Descriptor(d));
  }

  lemma SameDescriptors(s: State)
    requires Counts(s.files, s.refcounts, s.running)
    ensures s.refcounts.Keys == s.files.Keys
  {
  }

  lemma LoadKeeps(s: State, t: Tid, d: nat)
    requires Inv(s) && s.At(t).Idle? && d in s.files
    ensures Inv(Do(s, t, LoadBegin(d)))
  {
    hide Counts, Tally, Consecutive;
    var f := s.files[d];
    SameDescriptors(s);
    Started(s.files, s.refcounts, s.running, d);
    LoadTally(s, t, d, f);
    assert Do(s, t, LoadBegin(d)).pcs == s.pcs[t := InCallback(d, f)];
  }

  lemma LoadTally(s: State, t: Tid, d: nat, f: File)
    requires Tally(Held(s.pcs), s.running) && s.At(t).Idle?
    ensures Tally(Held(s.pcs[t := InCallback(d, f)]), s.running + multiset{(d, f)})
  {
    hide Tally;
    HeldGoes(s.pcs, t, InCallback(d, f));
    Takes(Held(s.pcs), s.running, t, (d, f));
  }

  /** The file of a callback is still there, and counted. */
  lemma CallbackKnows(s: State, t: Tid)
    requires Inv(s) && s.At(t).InCallback?
    ensures var d, f := s.At(t).descriptor, s.At(t).file;
            && (d, f) in s.running && d in s.files && s.files[d] == f && d in s.refcounts && s.refcounts[d] > 0
  {
    var d, f := s.At(t).descriptor, s.At(t).file;
    assert Held(s.pcs)[t] == Some((d, f));
    HeldIff(Held(s.pcs), s.running, (d, f));
    Ended(s.files, s.refcounts, s.running, d, f);
    hide Counts, Tally, Consecutive;
  }

  /** A load never fails at its end: its descriptor is still known. */
  lemma LoadEndWorks(s: State, t: Tid)
    requires Inv(s) && s.At(t).InCallback?
    ensures Inv(Do(s, t, LoadEnd)) && Do(s, t, LoadEnd).answer == Nothing && Do(s, t, LoadEnd).files == s.files
  {
    var d, f := s.At(t).descriptor, s.At(t).file;
    CallbackKnows(s, t);
    hide Counts, Tally, Consecutive;
    Ended(s.files, s.refcounts, s.running, d, f);
    HeldGoes(s.pcs, t, Idle);
    Drops(Held(s.pcs), s.running, t, (d, f));
  }

  lemma CloseKeeps(s: State, t: Tid, d: nat)
    requires Inv(s) && s.At(t).Held().None?
    ensures Inv(s.Closes(t, d))
  {
    if d !in s.refcounts {
      GoesKeeps(s, t, Idle, BadDescriptor);
    } else if s.refcounts[d] != 0 {
      assert d in s.files;
      GoesKeeps(s, t, Closing(d), Busy);
    } else {
      Closed(s.files, s.refcounts, s.running, d);
      hide Counts, Tally, Consecutive;
      GoesKeeps(s.(files := s.files - {d}, refcounts := s.refcounts - {d}), t, Idle, Nothing);
    }
  }

  lemma StepKeepsInv(s: State, t: Tid, a: Action)
    requires Inv(s) && Enabled(s, t, a)
    ensures Inv(Do(s, t, a))
  {
    match a
    case Open(f) => OpenKeeps(s, t, f);
    case LoadBegin(d) =>
      if d in s.files {
        LoadKeeps(s, t, d);
      } else {
        GoesKeeps(s, t, Idle, BadDescriptor);
      }
    case LoadEnd => LoadEndWorks(s, t);
    case Close(d) => CloseKeeps(s, t, d);
    case Retry => CloseKeeps(s, t, s.At(t).descriptor);
  }

  lemma {:induction false} RunKeepsInv(s: State, run: Run)
    requires Inv(s) && IsRun(s, run)
    ensures Inv(Exec(s, run))
    decreases |run|
  {
    hide Inv;
    if run != [] {
      StepKeepsInv(s, run[0].0, run[0].1);
      RunKeepsInv(Do(s, run[0].0, run[0].1), run[1..]);
    }
  }

  lemma InitInv(s: State)
    requires Init(s)
    ensures Inv(s)
  {
    forall e: Thing ensures s.running[e] == |HoldersOf(Held(s.pcs), e)| {
      assert HoldersOf(Held(s.pcs), e) == {};
    }
  }

  // ----- Whole runs

  /** No callback outlives its file, no two files get the same descriptor, and the refcount of a
      descriptor is the number of threads in a callback on it. */
  ghost predicate Safe(s: State) {
    && (forall t | t in s.pcs && s.pcs[t].InCallback? :: s.pcs[t].descriptor in s.files && s.files[s.pcs[t].descriptor] == s.pcs[t].file)
    && (forall i, j | 0 <= i < j < |s.handedOut| :: s.handedOut[i] != s.handedOut[j])
    && s.refcounts.Keys == s.files.Keys
    && forall d | d in s.refcounts :: s.refcounts[d] == |Users(s, d)|
  }

  ghost function Users(s: State, d: nat): set<Tid> {
    set t | t in s.pcs && s.pcs[t].InCallback? && s.pcs[t].descriptor == d
  }

  lemma CountIs(s: State, d: nat)
    requires Inv(s) && d in s.refcounts
    ensures s.refcounts[d] == |Users(s, d)|
  {
    var e := (d, s.files[d]);
    assert s.refcounts[d] == s.running[e] == |HoldersOf(Held(s.pcs), e)|;
    forall t | t in Users(s, d) ensures t in HoldersOf(Held(s.pcs), e) {
      CallbackKnows(s, t);
    }
    assert HoldersOf(Held(s.pcs), e) == Users(s, d);
  }

  lemma InvIsSafe(s: State)
    requires Inv(s)
    ensures Safe(s)
  {
    assert forall i, j | 0 <= i < j < |s.handedOut| :: s.handedOut[i] != s.handedOut[j];
    assert s.refcounts.Keys == s.files.Keys;
    hide Inv, Users;
    forall t | t in s.pcs && s.pcs[t].InCallback?
      ensures s.pcs[t].descriptor in s.files && s.files[s.pcs[t].descriptor] == s.pcs[t].file
    {
      CallbackKnows(s, t);
    }
    forall d | d in s.refcounts ensures s.refcounts[d] == |Users(s, d)| {
      CountIs(s, d);
    }
  }

  lemma EveryRunIsSafe(s: State, run: Run)
    requires Init(s) && IsRun(s, run)
    ensures Safe(Exec(s, run))
  {
    InitInv(s);
    RunKeepsInv(s, run);
    InvIsSafe(Exec(s, run));
    hide *;
  }

  // ----- Opening and loading

  /** An open gives the number of files opened so far, and lists the file under it. */
  lemma OpenIs(s: State, t: Tid, f: File)
    requires Inv(s) && Enabled(s, t, Open(f))
    ensures var s', d := Do(s, t, Open(f)), |s.handedOut| + 1;
            s'.answer == Descriptor(d) && d !in s.handedOut && s'.handedOut == s.handedOut + [d] && s'.files == s.files[d := f] && s'.At(t).Idle?
  {
    NextDescriptor(s.handedOut, s.counter);
    hide Counts, Tally;
  }

  /** A load runs its callback on the file of the descriptor, or fails exactly if there is none. */
  lemma LoadIs(s: State, t: Tid, d: nat)
    requires Inv(s) && Enabled(s, t, LoadBegin(d))
    ensures var s' := Do(s, t, LoadBegin(d));
            && s'.files == s.files && s'.handedOut == s.handedOut
            && (s'.answer == BadDescriptor <==> d !in s.files)
            && s'.At(t) == if d in s.files then InCallback(d, s.files[d]) else Idle
  {
    SameDescriptors(s);
    hide Counts, Tally, Consecutive;
  }

  // ----- Closing

  /** A close or its retry removes the file exactly if the descriptor is open and no callback runs on
      it, waits exactly if one does, and fails exactly if the descriptor is not open (any more). */
  lemma CloseIs(s: State, t: Tid, a: Action)
    requires Inv(s) && Enabled(s, t, a) && (a.Close? || a.Retry?)
    ensures var s', d := Do(s, t, a), if a.Close? then a.descriptor else s.At(t).descriptor;
            && (s'.answer == BadDescriptor <==> d !in s.files)
            && (s'.At(t) == Closing(d) <==> d in s.files && Users(s, d) != {})
            && s'.files == (if d in s.files && Users(s, d) == {} then s.files - {d} else s.files)
  {
    var d := if a.Close? then a.descriptor else s.At(t).descriptor;
    assert s.refcounts.Keys == s.files.Keys;
    if d in s.refcounts {
      CountIs(s, d);
    }
    hide Inv, Users;
  }

  /** A close that waits has a callback to wait for, which can end, or it does not have to wait any
      longer. */
  lemma WaitsForSomebody(s: State, t: Tid)
    requires Inv(s) && s.At(t).Closing?
    ensures !Do(s, t, Retry).At(t).Closing? || exists t' :: s.At(t').InCallback? && s.At(t').descriptor == s.At(t).descriptor && Enabled(s, t', LoadEnd)
  {
    var d := s.At(t).descriptor;
    CloseIs(s, t, Retry);
    if Users(s, d) != {} {
      var t' :| t' in Users(s, d);
      assert s.At(t').InCallback?;
    }
  }

  /** A closed descriptor stays closed. */
  lemma {:induction false} ClosedForGood(s: State, run: Run, d: nat)
    requires Inv(s) && IsRun(s, run) && d in s.handedOut && d !in s.files
    ensures d !in Exec(s, run).files
    decreases |run|
  {
    if run != [] {
      var t, a := run[0].0, run[0].1;
      StepKeepsInv(s, t, a);
      StaysClosed(s, t, a, d);
      hide Inv, Enabled, Do;
      ClosedForGood(Do(s, t, a), run[1..], d);
    }
  }

  lemma StaysClosed(s: State, t: Tid, a: Action, d: nat)
    requires Inv(s) && Enabled(s, t, a) && d in s.handedOut && d !in s.files
    ensures d in Do(s, t, a).handedOut && d !in Do(s, t, a).files
  {
    hide Counts, Tally;
  }

  // ----- A close that waits forever

  /** Thread 0 closes a file on which thread `t` runs a callback. Thread `t'` is idle. */
  function OneRuns(f: File, t: Tid, t': Tid): State {
    State(map[1 := f], map[1 := 1], 1, multiset{(1, f)}, [1], map[0 := Closing(1), t := InCallback(1, f), t' := Idle], Nothing)
  }

  function BothRun(f: File, t: Tid, t': Tid, answer: Answer): State {
    State(map[1 := f], map[1 := 2], 1, multiset{(1, f), (1, f)}, [1], map[0 := Closing(1), t := InCallback(1, f), t' := InCallback(1, f)], answer)
  }

  lemma FirstStep(s: State, t: Tid, a: Action, s': State, rest: Run)
    requires Enabled(s, t, a) && Do(s, t, a) == s' && IsRun(s', rest)
    ensures IsRun(s, [(t, a)] + rest) && Exec(s, [(t, a)] + rest) == Exec(s', rest)
  {
    assert ([(t, a)] + rest)[1..] == rest;
    hide Enabled, Do;
  }

  lemma BeginStep(f: File, t: Tid, t': Tid)
    requires t != 0 && t' != 0 && t != t'
    ensures var s := OneRuns(f, t, t'); Enabled(s, t', LoadBegin(1)) && Do(s, t', LoadBegin(1)) == BothRun(f, t, t', Nothing)
  {
  }

  lemma TestStep(f: File, t: Tid, t': Tid)
    requires t != 0 && t' != 0 && t != t'
    ensures var s := BothRun(f, t, t', Nothing); Enabled(s, 0, Retry) && Do(s, 0, Retry) == BothRun(f, t, t', Busy)
  {
  }

  lemma EndStep(f: File, t: Tid, t': Tid, answer: Answer)
    requires t != 0 && t' != 0 && t != t'
    ensures var s := BothRun(f, t, t', answer); Enabled(s, t, LoadEnd) && Do(s, t, LoadEnd) == OneRuns(f, t', t)
  {
    assert multiset{(1, f), (1, f)} - multiset{(1, f)} == multiset{(1, f)};
  }

  /** Thread `t'` begins a load before thread `t` ends its own. */
  lemma Overlap(f: File, t: Tid, t': Tid, rest: Run)
    requires t != 0 && t' != 0 && t != t' && IsRun(OneRuns(f, t', t), rest)
    ensures var run := [(t', LoadBegin(1))] + ([(0, Retry)] + ([(t, LoadEnd)] + rest));
            IsRun(OneRuns(f, t, t'), run) && Exec(OneRuns(f, t, t'), run) == Exec(OneRuns(f, t', t), rest)
  {
    hide *;
    BeginStep(f, t, t');
    TestStep(f, t, t');
    EndStep(f, t, t', Busy);
    FirstStep(BothRun(f, t, t', Busy), t, LoadEnd, OneRuns(f, t', t), rest);
    FirstStep(BothRun(f, t, t', Nothing), 0, Retry, BothRun(f, t, t', Busy), [(t, LoadEnd)] + rest);
    FirstStep(OneRuns(f, t, t'), t', LoadBegin(1), BothRun(f, t, t', Nothing), [(0, Retry)] + ([(t, LoadEnd)] + rest));
  }

  /** Loads that overlap keep a close waiting, however often it tests. */
  lemma {:induction false} StarvedClose(f: File, t: Tid, t': Tid, rounds: nat) returns (run: Run)
    requires t != 0 && t' != 0 && t != t'
    ensures IsRun(OneRuns(f, t, t'), run) && Exec(OneRuns(f, t, t'), run).At(0).Closing?
    ensures |run| == 3 * rounds && forall i | 0 <= i < rounds :: run[3 * i + 1] == (0, Retry)
    decreases rounds
  {
    if rounds == 0 {
      return [];
    }
    hide Exec, IsRun, OneRuns;
    var rest := StarvedClose(f, t', t, rounds - 1);
    Overlap(f, t, t', rest);
    run := [(t', LoadBegin(1))] + ([(0, Retry)] + ([(t, LoadEnd)] + rest));
    TestsOf(t, t', rest, rounds - 1);
  }

  lemma TestsOf(t: Tid, t': Tid, rest: Run, rounds: nat)
    requires |rest| == 3 * rounds && forall i | 0 <= i < rounds :: rest[3 * i + 1] == (0, Retry)
    ensures var run := [(t', LoadBegin(1))] + ([(0, Retry)] + ([(t, LoadEnd)] + rest));
            |run| == 3 * rounds + 3 && forall i | 0 <= i < rounds + 1 :: run[3 * i + 1] == (0, Retry)
  {
    var run := [(t', LoadBegin(1))] + ([(0, Retry)] + ([(t, LoadEnd)] + rest));
    forall i | 0 <= i < rounds + 1 ensures run[3 * i + 1] == (0, Retry) {
      if i > 0 {
        assert run[3 * i + 1] == rest[3 * (i - 1) + 1];
      }
    }
  }

  /** The state in which the close waits is reached from the start. */
  lemma WaitsIsReached(s: State, f: File)
    requires Init(s)
    ensures var run := [(0, Open(f))] + ([(1, LoadBegin(1))] + ([(0, Close(1))] + ([(2, LoadBegin(1))] + ([(2, LoadEnd)] + []))));
            IsRun(s, run) && Exec(s, run) == OneRuns(f, 1, 2)
  {
    Ends(OneRuns(f, 1, 2));
    hide *;
    OpenStep(s, f);
    LoadStep(f);
    CloseStep(f);
    SecondStep(f);
    EndStep(f, 2, 1, Nothing);
    SameBoth(f);
    FirstStep(BothRun(f, 1, 2, Nothing), 2, LoadEnd, OneRuns(f, 1, 2), []);
    FirstStep(OpenedOnce(f, 1, multiset{(1, f)}, map[0 := Closing(1), 1 := InCallback(1, f)], Busy), 2, LoadBegin(1), BothRun(f, 1, 2, Nothing), [(2, LoadEnd)] + []);
    FirstStep(OpenedOnce(f, 1, multiset{(1, f)}, map[0 := Idle, 1 := InCallback(1, f)], Nothing), 0, Close(1),
              OpenedOnce(f, 1, multiset{(1, f)}, map[0 := Closing(1), 1 := InCallback(1, f)], Busy), [(2, LoadBegin(1))] + ([(2, LoadEnd)] + []));
    FirstStep(OpenedOnce(f, 0, multiset{}, map[0 := Idle], Descriptor(1)), 1, LoadBegin(1),
              OpenedOnce(f, 1, multiset{(1, f)}, map[0 := Idle, 1 := InCallback(1, f)], Nothing), [(0, Close(1))] + ([(2, LoadBegin(1))] + ([(2, LoadEnd)] + [])));
    FirstStep(s, 0, Open(f), OpenedOnce(f, 0, multiset{}, map[0 := Idle], Descriptor(1)),
              [(1, LoadBegin(1))] + ([(0, Close(1))] + ([(2, LoadBegin(1))] + ([(2, LoadEnd)] + []))));
  }

  function OpenedOnce(f: File, n: nat, running: Callbacks, pcs: map<Tid, Pc>, answer: Answer): State {
    State(map[1 := f], map[1 := n], 1, running, [1], pcs, answer)
  }

  lemma OpenStep(s: State, f: File)
    requires Init(s)
    ensures Enabled(s, 0, Open(f)) && Do(s, 0, Open(f)) == OpenedOnce(f, 0, multiset{}, map[0 := Idle], Descriptor(1))
  {
  }

  lemma LoadStep(f: File)
    ensures var s := OpenedOnce(f, 0, multiset{}, map[0 := Idle], Descriptor(1));
            Enabled(s, 1, LoadBegin(1)) && Do(s, 1, LoadBegin(1)) == OpenedOnce(f, 1, multiset{(1, f)}, map[0 := Idle, 1 := InCallback(1, f)], Nothing)
  {
  }

  lemma CloseStep(f: File)
    ensures var s := OpenedOnce(f, 1, multiset{(1, f)}, map[0 := Idle, 1 := InCallback(1, f)], Nothing);
            Enabled(s, 0, Close(1)) && Do(s, 0, Close(1)) == OpenedOnce(f, 1, multiset{(1, f)}, map[0 := Closing(1), 1 := InCallback(1, f)], Busy)
  {
  }

  lemma SecondStep(f: File)
    ensures var s := OpenedOnce(f, 1, multiset{(1, f)}, map[0 := Closing(1), 1 := InCallback(1, f)], Busy);
            Enabled(s, 2, LoadBegin(1)) && Do(s, 2, LoadBegin(1)) == BothRun(f, 1, 2, Nothing)
  {
  }

  lemma SameBoth(f: File)
    ensures BothRun(f, 1, 2, Nothing) == BothRun(f, 2, 1, Nothing)
  {
  }

  lemma Ends(s: State)
    ensures IsRun(s, []) && Exec(s, []) == s
  {
  }
}
