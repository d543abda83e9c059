/** Model of KnownBlockVersions.cpp: which versions of a block, written by which client, may still
    be shown to this client. */
module KnownBlockVersions {
  import opened Bytes

  const ID_LENGTH: nat := 16
  const DELETED: ClientId := 0   // CLIENT_ID_FOR_DELETED_BLOCK
  const MAX_VERSION: Version := 0xFFFF_FFFF_FFFF_FFFF

  type BlockId = s: seq<Byte> | |s| == 16 witness [0, 0, 0, 0, 0, 0, 0, 0, 0, 0, 0, 0, 0, 0, 0, 0]
  type ClientId = c: nat | c < U32_SIZE
  type Version = v: nat | v < U64_SIZE

  datatype Versions = Versions(known: map<(ClientId, BlockId), Version>, last: map<BlockId, ClientId>) {
    /** A missing entry counts, and is created, as zero. */
    function Known(c: ClientId, b: BlockId): Version { if (c, b) in known then known[(c, b)] else 0 }
    function Last(b: BlockId): ClientId { if b in last then last[b] else DELETED }

    function Exists(b: BlockId): bool { b in last && last[b] != DELETED }

    function WithKnown(c: ClientId, b: BlockId, v: Version): Versions { this.(known := known[(c, b) := v]) }
    function WithLast(b: BlockId, c: ClientId): Versions { this.(last := last[b := c]) }
  }

  // ----- The operations as functions

  /** The pair has been superseded: by a newer version of the same client, by another client, or
      by a deletion. */
  predicate Dead(s: Versions, c: ClientId, b: BlockId, v: Version) {
    s.Known(c, b) > v || (s.Known(c, b) == v && s.Last(b) != c)
  }

  function Checked(s: Versions, c: ClientId, b: BlockId, v: Version): Versions {
    var s' := s.WithKnown(c, b, s.Known(c, b));
    if s.Known(c, b) > v then s'
    else if s.Known(c, b) == v && s.Last(b) != c then s'.WithLast(b, s.Last(b))
    else s'.WithKnown(c, b, v).WithLast(b, c)
  }

  /** Accepting a pair makes it the current one of its client and block, and touches nothing else.
      Refusing it changes nothing that matters. */
  lemma CheckedIs(s: Versions, c: ClientId, b: BlockId, v: Version, c': ClientId, b': BlockId)
    ensures var s', accepted := Checked(s, c, b, v), !Dead(s, c, b, v);
            && s'.Known(c', b') == (if accepted && (c', b') == (c, b) then v else s.Known(c', b'))
            && s'.Last(b') == (if accepted && b' == b then c else s.Last(b'))
            && (s'.Exists(b') <==> s'.Last(b') != DELETED)
  {
  }

  /** The next version, in 64 bits. */
  function NextVersion(s: Versions, me: ClientId, b: BlockId): Version {
    (s.Known(me, b) + 1) % U64_SIZE
  }

  function Incremented(s: Versions, me: ClientId, b: BlockId): Versions {
    if NextVersion(s, me, b) == MAX_VERSION then s.WithKnown(me, b, s.Known(me, b))
    else s.WithKnown(me, b, NextVersion(s, me, b)).WithLast(b, me)
  }

  /** A successful increment makes the next version the current one of this client, and this client
      the last updater of the block. A refused one changes nothing that matters. In either case
      nothing else is touched. */
  lemma IncrementIs(s: Versions, me: ClientId, b: BlockId, c': ClientId, b': BlockId)
    ensures var s', v, refused := Incremented(s, me, b), s.Known(me, b), s.Known(me, b) + 1 == MAX_VERSION;
            && s'.Known(c', b') == (if refused || (c', b') != (me, b) then s.Known(c', b') else if v < MAX_VERSION then v + 1 else 0)
            && s'.Last(b') == (if refused || b' != b then s.Last(b') else me)
  {
  }

  // ----- Runs

  datatype Action =
    | Check(c: ClientId, b: BlockId, v: Version)
    | Increment(b: BlockId)
    | MarkDeleted(b: BlockId)

  /** What the assertions of checkAndUpdateVersion let through. */
  predicate Proper(a: Action) {
    a.Check? ==> a.c != DELETED && a.v > 0
  }

  function Do(s: Versions, me: ClientId, a: Action): Versions {
    match a
    case Check(c, b, v) => Checked(s, c, b, v)
    case Increment(b) => Incremented(s, me, b)
    case MarkDeleted(b) => s.WithLast(b, DELETED)
  }

  predicate Accepts(s: Versions, a: Action, c: ClientId, b: BlockId, v: Version) {
    a == Check(c, b, v) && !Dead(s, c, b, v)
  }

  /** incrementVersion refuses to reach the highest version, but wraps around if a block with that
      version has been accepted before. */
  predicate Wraps(s: Versions, me: ClientId, a: Action) {
    a.Increment? && s.Known(me, a.b) == MAX_VERSION
  }

  ghost predicate Monotone(s: Versions, s': Versions) {
    forall c: ClientId, b: BlockId :: s.Known(c, b) <= s'.Known(c, b)
  }

  /** Known versions decrease only in a step that wraps around. */
  lemma MonotoneIff(s: Versions, me: ClientId, a: Action)
    requires Proper(a)
    ensures Monotone(s, Do(s, me, a)) <==> !Wraps(s, me, a)
  {
  }

  function Exec(s: Versions, me: ClientId, run: seq<Action>): Versions {
    if run == [] then s else Do(Exec(s, me, run[..|run| - 1]), me, run[|run| - 1])
  }

  /** No step of the run wraps around, and all of them get past the assertions. */
  ghost predicate ProperRun(s: Versions, me: ClientId, run: seq<Action>) {
    forall i | 0 <= i < |run| :: Proper(run[i]) && !Wraps(Exec(s, me, run[..i]), me, run[i])
  }

  lemma ProperPrefix(s: Versions, me: ClientId, run: seq<Action>)
    requires ProperRun(s, me, run) && run != []
    ensures ProperRun(s, me, run[..|run| - 1])
  {
    var r := run[..|run| - 1];
    assert forall i | 0 <= i < |r| :: r[i] == run[i] && r[..i] == run[..i];
  }

  lemma {:induction false} RunIsMonotone(s: Versions, me: ClientId, run: seq<Action>)
    requires ProperRun(s, me, run)
    ensures Monotone(s, Exec(s, me, run))
  {
    if run != [] {
      var r, a := run[..|run| - 1], run[|run| - 1];
      ProperPrefix(s, me, run);
      RunIsMonotone(s, me, r);
      MonotoneIff(Exec(s, me, r), me, a);
    }
  }

  /** A wrap-around of this client's version of the same block. */
  predicate Revives(s: Versions, me: ClientId, a: Action, c: ClientId, b: BlockId) {
    Wraps(s, me, a) && a.b == b && c == me
  }

  /** A superseded pair becomes acceptable again in a reviving step, and in no other. */
  lemma DeadIff(s: Versions, me: ClientId, a: Action, c: ClientId, b: BlockId, v: Version)
    requires Proper(a) && Dead(s, c, b, v) && c != DELETED && v > 0
    ensures Dead(Do(s, me, a), c, b, v) <==> !Revives(s, me, a, c, b)
  {
  }

  /** No step from `i` up to `k` revives the client's versions of the block. */
  ghost predicate NoRevival(s: Versions, me: ClientId, run: seq<Action>, i: nat, k: nat, c: ClientId, b: BlockId)
    requires i <= k <= |run|
  {
    forall j | i <= j < k :: Proper(run[j]) && !Revives(Exec(s, me, run[..j]), me, run[j], c, b)
  }

  /** The step supersedes the pair. */
  predicate Supersedes(s: Versions, me: ClientId, a: Action, c: ClientId, b: BlockId, v: Version) {
    match a
    case Check(c', b', v') => b' == b && (c', v') != (c, v) && !Dead(s, c', b', v')
    case Increment(b') => b' == b && NextVersion(s, me, b) != MAX_VERSION
    case MarkDeleted(b') => b' == b
  }

  lemma ExecNext(s: Versions, me: ClientId, run: seq<Action>, j: nat)
    requires j < |run|
    ensures Exec(s, me, run[..j + 1]) == Do(Exec(s, me, run[..j]), me, run[j])
  {
    var r := run[..j + 1];
    assert r[..|r| - 1] == run[..j] && r[|r| - 1] == run[j];
  }

  /** If step `i` of a run accepts a pair and a later step `j` supersedes it, by another client, a
      newer version or a deletion, then no later step `k` accepts it again, unless a step between
      revives it. */
  lemma SupersededIsNeverAccepted(s: Versions, me: ClientId, run: seq<Action>, i: nat, j: nat, k: nat, c: ClientId, b: BlockId, v: Version)
    requires i < j < k < |run| && Proper(run[i]) && NoRevival(s, me, run, i, k, c, b)
    requires Accepts(Exec(s, me, run[..i]), run[i], c, b, v)
    requires Supersedes(Exec(s, me, run[..j]), me, run[j], c, b, v)
    ensures !Accepts(Exec(s, me, run[..k]), run[k], c, b, v)
  {
    hide Exec, Do, Dead, Revives, Supersedes;
    SeenAfter(s, me, run, i, j, c, b, v);
    var t := Exec(s, me, run[..j]);
    ExecNext(s, me, run, j);
    SupersededIsDead(t, me, run[j], c, b, v);
    DeadLater(s, me, run, j + 1, k, c, b, v);
  }

  lemma SupersededIsDead(s: Versions, me: ClientId, a: Action, c: ClientId, b: BlockId, v: Version)
    requires Proper(a) && !Revives(s, me, a, c, b) && c != DELETED && s.Known(c, b) >= v && Supersedes(s, me, a, c, b, v)
    ensures Dead(Do(s, me, a), c, b, v)
  {
  }

  lemma {:induction false} DeadLater(s: Versions, me: ClientId, run: seq<Action>, j: nat, k: nat, c: ClientId, b: BlockId, v: Version)
    requires j <= k <= |run| && NoRevival(s, me, run, j, k, c, b) && c != DELETED && v > 0 && Dead(Exec(s, me, run[..j]), c, b, v)
    ensures Dead(Exec(s, me, run[..k]), c, b, v)
    decreases k
  {
    hide Exec, Dead, Do, Revives;
    if j < k {
      DeadLater(s, me, run, j, k - 1, c, b, v);
      ExecNext(s, me, run, k - 1);
      DeadIff(Exec(s, me, run[..k - 1]), me, run[k - 1], c, b, v);
    }
  }

  /** One known version decreases only in a reviving step. */
  lemma KnownGrows(s: Versions, me: ClientId, a: Action, c: ClientId, b: BlockId)
    ensures s.Known(c, b) <= Do(s, me, a).Known(c, b) <==> !Revives(s, me, a, c, b)
  {
  }

  /** An accepted version stays known. */
  lemma {:induction false} SeenAfter(s: Versions, me: ClientId, run: seq<Action>, i: nat, j: nat, c: ClientId, b: BlockId, v: Version)
    requires i < j <= |run| && NoRevival(s, me, run, i, j, c, b) && Accepts(Exec(s, me, run[..i]), run[i], c, b, v)
    ensures Exec(s, me, run[..j]).Known(c, b) >= v
    decreases j
  {
    hide Exec, Do, Dead, Revives;
    ExecNext(s, me, run, j - 1);
    if i < j - 1 {
      SeenAfter(s, me, run, i, j - 1, c, b, v);
      KnownGrows(Exec(s, me, run[..j - 1]), me, run[j - 1], c, b);
    } else {
      AcceptedIsKnown(Exec(s, me, run[..i]), me, c, b, v);
    }
  }

  lemma AcceptedIsKnown(s: Versions, me: ClientId, c: ClientId, b: BlockId, v: Version)
    requires !Dead(s, c, b, v)
    ensures Do(s, me, Check(c, b, v)).Known(c, b) == v
  {
  }

  // ----- What is accepted, from the history alone

  /** The step shows or makes version `v` of the block by client `c`. */
  predicate Writes(s: Versions, me: ClientId, a: Action, c: ClientId, b: BlockId, v: Version) {
    match a
    case Check(_, _, _) => Accepts(s, a, c, b, v)
    case Increment(b') => b' == b && c == me && s.Known(me, b) + 1 == v && v != MAX_VERSION
    case MarkDeleted(_) => false
  }

  /** The step shows or makes any version of the block, or deletes it. */
  predicate Touches(s: Versions, me: ClientId, a: Action, b: BlockId) {
    match a
    case Check(c, b', v) => b' == b && !Dead(s, c, b, v)
    case Increment(b') => b' == b && s.Known(me, b) + 1 != MAX_VERSION
    case MarkDeleted(b') => b' == b
  }

  function Start(): Versions {
    Versions(map[], map[])
  }

  /** The state before step `i`. */
  function Before(me: ClientId, run: seq<Action>, i: nat): Versions
    requires i <= |run|
  {
    Exec(Start(), me, run[..i])
  }

  lemma NextIs(me: ClientId, run: seq<Action>, i: nat)
    requires i < |run|
    ensures Before(me, run, i + 1) == Do(Before(me, run, i), me, run[i])
  {
    ExecNext(Start(), me, run, i);
  }

  ghost predicate WritesAt(me: ClientId, run: seq<Action>, i: nat, c: ClientId, b: BlockId, v: Version)
    requires i < |run|
  {
    Writes(Before(me, run, i), me, run[i], c, b, v)
  }

  ghost predicate TouchesAt(me: ClientId, run: seq<Action>, i: nat, b: BlockId)
    requires i < |run|
  {
    Touches(Before(me, run, i), me, run[i], b)
  }

  /** What a step does to one client's version of a block. */
  lemma KnownAfter(s: Versions, me: ClientId, a: Action, c: ClientId, b: BlockId)
    requires !Revives(s, me, a, c, b)
    ensures var k, k' := s.Known(c, b), Do(s, me, a).Known(c, b);
            && (k' == k || Writes(s, me, a, c, b, k')) && k <= k'
            && forall v: Version :: Writes(s, me, a, c, b, v) ==> v == k'
  {
  }

  /** The known version is the highest one that has been shown or made. */
  lemma {:induction false} KnownIsMax(me: ClientId, run: seq<Action>, k: nat, c: ClientId, b: BlockId)
    requires k <= |run| && NoRevival(Start(), me, run, 0, k, c, b)
    ensures forall i: nat, v: Version | i < k && WritesAt(me, run, i, c, b, v) :: v <= Before(me, run, k).Known(c, b)
    ensures var m := Before(me, run, k).Known(c, b); m == 0 || exists i: nat :: i < k && WritesAt(me, run, i, c, b, m)
    decreases k
  {
    hide Exec, Before, WritesAt, Revives, Proper;
    if k == 0 {
      AtStart(me, run, c, b);
    } else {
      KnownIsMax(me, run, k - 1, c, b);
      KnownAt(me, run, k - 1, c, b);
    }
  }

  lemma AtStart(me: ClientId, run: seq<Action>, c: ClientId, b: BlockId)
    ensures Before(me, run, 0).Known(c, b) == 0 && Before(me, run, 0).Last(b) == DELETED
  {
    assert run[..0] == [];
  }

  /** The same for one step of the run. */
  lemma KnownAt(me: ClientId, run: seq<Action>, i: nat, c: ClientId, b: BlockId)
    requires i < |run| && NoRevival(Start(), me, run, 0, i + 1, c, b)
    ensures var k, k' := Before(me, run, i).Known(c, b), Before(me, run, i + 1).Known(c, b);
            && (k' == k || WritesAt(me, run, i, c, b, k')) && k <= k'
            && forall v: Version :: WritesAt(me, run, i, c, b, v) ==> v == k'
  {
    NextIs(me, run, i);
    hide Exec, Do, Writes, Revives;
    KnownAfter(Before(me, run, i), me, run[i], c, b);
  }

  /** What a step does to the last updater of a block. */
  lemma LastAfter(s: Versions, me: ClientId, a: Action, b: BlockId)
    requires Proper(a) && me != DELETED && !(Wraps(s, me, a) && a.b == b)
    ensures var s' := Do(s, me, a);
            && (!Touches(s, me, a, b) ==> s'.Last(b) == s.Last(b) && forall c: ClientId :: s'.Known(c, b) == s.Known(c, b))
            && (Touches(s, me, a, b) ==> s'.Last(b) == DELETED || Writes(s, me, a, s'.Last(b), b, s'.Known(s'.Last(b), b)))
            && (forall c: ClientId, v: Version :: Writes(s, me, a, c, b, v) ==> Touches(s, me, a, b) && s'.Last(b) == c && s'.Known(c, b) == v)
            && (a == MarkDeleted(b) ==> s'.Last(b) == DELETED)
  {
  }

  /** Step `i` shows or makes the pair, and nothing happens to the block afterwards. */
  ghost predicate IsLatest(me: ClientId, run: seq<Action>, k: nat, i: nat, c: ClientId, b: BlockId, v: Version)
    requires k <= |run|
  {
    i < k && WritesAt(me, run, i, c, b, v) && forall j: nat | i < j < k :: !TouchesAt(me, run, j, b)
  }

  /** No step wraps this block's version around. */
  ghost predicate NoWrap(me: ClientId, run: seq<Action>, k: nat, b: BlockId)
    requires k <= |run|
  {
    forall j: nat | j < k :: Proper(run[j]) && !(Wraps(Before(me, run, j), me, run[j]) && run[j].b == b)
  }

  lemma {:induction false} LastIsLatest(me: ClientId, run: seq<Action>, k: nat, c: ClientId, b: BlockId, v: Version)
    requires k <= |run| && me != DELETED && c != DELETED && NoWrap(me, run, k, b)
    ensures (exists i: nat :: IsLatest(me, run, k, i, c, b, v)) <==> Before(me, run, k).Last(b) == c && Before(me, run, k).Known(c, b) == v
    decreases k
  {
    hide Exec, Before, WritesAt, TouchesAt, NoWrap;
    if k == 0 {
      AtStart(me, run, c, b);
    } else {
      LastAt(me, run, k - 1, c, b, v);
      NoWrapBefore(me, run, k, b);
      LastIsLatest(me, run, k - 1, c, b, v);
      LatestStep(me, run, k - 1, k, c, b, v);
    }
  }

  lemma NoWrapBefore(me: ClientId, run: seq<Action>, k: nat, b: BlockId)
    requires 0 < k <= |run| && NoWrap(me, run, k, b)
    ensures NoWrap(me, run, k - 1, b)
  {
  }

  /** The same for one step of the run. */
  lemma LastAt(me: ClientId, run: seq<Action>, i: nat, c: ClientId, b: BlockId, v: Version)
    requires i < |run| && me != DELETED && c != DELETED && NoWrap(me, run, i + 1, b)
    ensures var s, s' := Before(me, run, i), Before(me, run, i + 1);
            && (WritesAt(me, run, i, c, b, v) ==> TouchesAt(me, run, i, b))
            && (TouchesAt(me, run, i, b) ==> (WritesAt(me, run, i, c, b, v) <==> s'.Last(b) == c && s'.Known(c, b) == v))
            && (!TouchesAt(me, run, i, b) ==> s'.Last(b) == s.Last(b) && s'.Known(c, b) == s.Known(c, b))
  {
    var s, a := Before(me, run, i), run[i];
    assert !(Wraps(s, me, a) && a.b == b) && Proper(a);
    NextIs(me, run, i);
    hide Exec, Do, Writes, Before, Touches, Wraps, Proper, NoWrap;
    LastAfter(s, me, a, b);
  }

  lemma LatestStep(me: ClientId, run: seq<Action>, k: nat, next: nat, c: ClientId, b: BlockId, v: Version)
    requires k < next == k + 1 <= |run| && (WritesAt(me, run, k, c, b, v) ==> TouchesAt(me, run, k, b))
    ensures (exists i: nat :: IsLatest(me, run, next, i, c, b, v)) <==>
              WritesAt(me, run, k, c, b, v) || (!TouchesAt(me, run, k, b) && exists i: nat :: IsLatest(me, run, k, i, c, b, v))
  {
    hide WritesAt, TouchesAt;
    if WritesAt(me, run, k, c, b, v) {
      assert IsLatest(me, run, next, k, c, b, v);
    }
    if i: nat :| IsLatest(me, run, next, i, c, b, v) {
      if i < k {
        assert IsLatest(me, run, k, i, c, b, v);
      }
    }
    if !TouchesAt(me, run, k, b) {
      if i: nat :| IsLatest(me, run, k, i, c, b, v) {
        assert IsLatest(me, run, next, i, c, b, v);
      }
    }
  }

  /** A pair is acceptable exactly if its version is higher than all that its client has shown or
      made of the block, or if it is the latest thing that has happened to the block. */
  lemma AcceptableIff(me: ClientId, run: seq<Action>, k: nat, c: ClientId, b: BlockId, v: Version)
    requires k <= |run| && me != DELETED && c != DELETED && v > 0 && NoWrap(me, run, k, b)
    ensures !Dead(Before(me, run, k), c, b, v) <==>
              || (forall i: nat, v': Version | i < k && WritesAt(me, run, i, c, b, v') :: v' < v)
              || (exists i: nat :: IsLatest(me, run, k, i, c, b, v))
  {
    var m := Before(me, run, k).Known(c, b);
    WrapRevives(me, run, k, c, b);
    KnownIsMax(me, run, k, c, b);
    LastIsLatest(me, run, k, c, b, v);
    hide Before, WritesAt, TouchesAt;
    if i: nat :| IsLatest(me, run, k, i, c, b, v) {
      assert WritesAt(me, run, i, c, b, v);
    }
  }

  /** A block should exist exactly if the latest thing that has happened to it is no deletion. */
  lemma ShouldExistIff(me: ClientId, run: seq<Action>, k: nat, b: BlockId)
    requires k <= |run| && me != DELETED && NoWrap(me, run, k, b)
    ensures Before(me, run, k).Exists(b) <==> exists i: nat, c: ClientId, v: Version :: c != DELETED && IsLatest(me, run, k, i, c, b, v)
  {
    var s := Before(me, run, k);
    var c, v := s.Last(b), s.Known(s.Last(b), b);
    assert s.Exists(b) <==> c != DELETED;
    hide Before, Versions.Exists, Versions.Last, Versions.Known, NoWrap;
    if c != DELETED {
      LastIsLatest(me, run, k, c, b, v);
    }
    if i: nat, c': ClientId, v': Version :| c' != DELETED && IsLatest(me, run, k, i, c', b, v') {
      LastIsLatest(me, run, k, c', b, v');
    }
  }

  lemma WrapRevives(me: ClientId, run: seq<Action>, k: nat, c: ClientId, b: BlockId)
    requires k <= |run| && NoWrap(me, run, k, b)
    ensures NoRevival(Start(), me, run, 0, k, c, b)
  {
    hide Exec, Wraps, Proper;
    forall j | 0 <= j < k ensures Proper(run[j]) && !Revives(Exec(Start(), me, run[..j]), me, run[j], c, b) {
      assert Before(me, run, j) == Exec(Start(), me, run[..j]);
    }
  }

  /** Increments in a row make consecutive versions. */
  lemma {:induction false} ConsecutiveVersions(s: Versions, me: ClientId, b: BlockId, n: nat)
    requires s.Known(me, b) + n < MAX_VERSION
    ensures Exec(s, me, seq(n, _ => Increment(b))).Known(me, b) == s.Known(me, b) + n
  {
    if n > 0 {
      var run := seq(n, _ => Increment(b));
      assert run[..n - 1] == seq(n - 1, _ => Increment(b));
      ConsecutiveVersions(s, me, b, n - 1);
      hide Do;
      IncrementIs(Exec(s, me, run[..n - 1]), me, b, me, b);
      assert Exec(s, me, run) == Do(Exec(s, me, run[..n - 1]), me, Increment(b));
      DoIncrement(Exec(s, me, run[..n - 1]), me, b);
    }
  }

  lemma DoIncrement(s: Versions, me: ClientId, b: BlockId)
    ensures Do(s, me, Increment(b)) == Incremented(s, me, b)
  {
  }

  /** A roll-back that is accepted: version `v` is seen, superseded by the highest version, and
      accepted again after the block has been written. */
  lemma RollBack(me: ClientId, b: BlockId, v: Version)
    requires me != DELETED && 0 < v < MAX_VERSION
    ensures var s := Versions(map[], map[]);
            var run := [Check(me, b, v), Check(me, b, MAX_VERSION), Increment(b), Check(me, b, v)];
            && (forall i | 0 <= i < |run| :: Proper(run[i]))
            && Accepts(Exec(s, me, run[..0]), run[0], me, b, v)
            && Supersedes(Exec(s, me, run[..1]), me, run[1], me, b, v)
            && Accepts(Exec(s, me, run[..3]), run[3], me, b, v)
  {
    var s := Versions(map[], map[]);
    var run := [Check(me, b, v), Check(me, b, MAX_VERSION), Increment(b), Check(me, b, v)];
    assert Exec(s, me, run[..0]) == s;
    ExecNext(s, me, run, 0);
    ExecNext(s, me, run, 1);
    ExecNext(s, me, run, 2);
    hide Exec;
    assert Exec(s, me, run[..1]).Known(me, b) == v;
    assert Exec(s, me, run[..2]).Known(me, b) == MAX_VERSION;
    assert Exec(s, me, run[..3]).Known(me, b) == 0;
  }

  /** The wrap-around is reachable: accepting the highest version of this client's own blocks and
      then writing the block makes the known version zero. */
  lemma WrapAround(me: ClientId, b: BlockId)
    requires me != DELETED
    ensures var run := [Check(me, b, MAX_VERSION), Increment(b)];
            && Proper(run[0]) && Accepts(Versions(map[], map[]), run[0], me, b, MAX_VERSION)
            && Exec(Versions(map[], map[]), me, run).Known(me, b) == 0
  {
  }

  // ----- The object

  class KnownBlockVersions {
    var knownVersions: map<(ClientId, BlockId), Version>
    var lastUpdateClientId: map<BlockId, ClientId>
    var violationOnPreviousRun: bool
    const myClientId: ClientId

    function State(): Versions
      reads this
    {
      Versions(knownVersions, lastUpdateClientId)
    }

    constructor (me: ClientId)
      requires me != DELETED
      ensures State() == Versions(map[], map[]) && !violationOnPreviousRun && myClientId == me
    {
      knownVersions, lastUpdateClientId, violationOnPreviousRun, myClientId := map[], map[], false, me;
    }

    method CheckAndUpdateVersion(clientId: ClientId, blockId: BlockId, version: Version) returns (r: Result<bool>)
      modifies this`knownVersions, this`lastUpdateClientId
      ensures r.Err? <==> clientId == DELETED || version == 0
      ensures r.Err? ==> State() == old(State())
      ensures r.Ok? ==> r.value == !Dead(old(State()), clientId, blockId, version)
      ensures r.Ok? ==> State() == Do(old(State()), myClientId, Check(clientId, blockId, version))
    {
      if clientId == DELETED {
        return Err("This is not a valid client id");
      }
      if version == 0 {
        return Err("Version has to be >0");
      }
      var key := (clientId, blockId);
      if key !in knownVersions {
        knownVersions := knownVersions[key := 0];
      }
      if knownVersions[key] > version {
        assert knownVersions == old(knownVersions)[key := knownVersions[key]];
        return Ok(false);
      }
      if blockId !in lastUpdateClientId {
        lastUpdateClientId := lastUpdateClientId[blockId := 0];
      }
      if knownVersions[key] == version && lastUpdateClientId[blockId] != clientId {
        assert lastUpdateClientId == old(lastUpdateClientId)[blockId := lastUpdateClientId[blockId]];
        assert knownVersions == old(knownVersions)[key := version];
        return Ok(false);
      }
      knownVersions := knownVersions[key := version];
      lastUpdateClientId := lastUpdateClientId[blockId := clientId];
      r := Ok(true);
    }

    method IncrementVersion(blockId: BlockId) returns (r: Result<Version>)
      modifies this`knownVersions, this`lastUpdateClientId
      ensures State() == Do(old(State()), myClientId, Increment(blockId))
      ensures r.Err? <==> NextVersion(old(State()), myClientId, blockId) == MAX_VERSION
      ensures r.Ok? ==> r.value == State().Known(myClientId, blockId) == NextVersion(old(State()), myClientId, blockId)
      ensures r.Err? <==> old(State()).Known(myClientId, blockId) + 1 == MAX_VERSION
      ensures r.Ok? ==> r.value == if old(State()).Known(myClientId, blockId) < MAX_VERSION then old(State()).Known(myClientId, blockId) + 1 else 0
    {
      var key := (myClientId, blockId);
      if key !in knownVersions {
        knownVersions := knownVersions[key := 0];
      }
      var newVersion := (knownVersions[key] + 1) % U64_SIZE;
      if newVersion == MAX_VERSION {
        assert knownVersions == old(knownVersions)[key := knownVersions[key]];
        return Err("Version overflow");
      }
      knownVersions := knownVersions[key := newVersion];
      lastUpdateClientId := lastUpdateClientId[blockId := myClientId];
      r := Ok(newVersion);
    }

    method MarkBlockAsDeleted(blockId: BlockId)
      modifies this`lastUpdateClientId
      ensures State() == Do(old(State()), myClientId, MarkDeleted(blockId))
    {
      lastUpdateClientId := lastUpdateClientId[blockId := DELETED];
    }

    method BlockShouldExist(blockId: BlockId) returns (r: bool)
      ensures r == State().Exists(blockId)
    {
      if blockId !in lastUpdateClientId {
        return false;
      }
      r := lastUpdateClientId[blockId] != DELETED;
    }

    method ExistingBlocks() returns (r: set<BlockId>)
      ensures forall b: BlockId :: b in r <==> State().Exists(b)
    {
      r := {};
      var rest := lastUpdateClientId.Keys;
      while rest != {}
        invariant rest <= lastUpdateClientId.Keys
        invariant forall b: BlockId :: b in r <==> State().Exists(b) && b !in rest
        decreases |rest|
      {
        var b :| b in rest;
        if lastUpdateClientId[b] != DELETED {
          r := r + {b};
        }
        rest := rest - {b};
      }
    }
  }
}
