/** Model of IntegrityBlockStore2.cpp: every block carries a header that names the block, the
    client that wrote it and a version. */
module IntegrityStore {
  import opened Bytes
  import opened KnownBlockVersions

  type Data = seq<Byte>
  type Store = map<BlockId, Data>

  const FORMAT_OLD: nat := 0
  const FORMAT: nat := 1
  const ID_OFFSET: nat := 2
  const CLIENT_OFFSET: nat := ID_OFFSET + 16
  const VERSION_OFFSET: nat := CLIENT_OFFSET + 4
  const HEADER_LENGTH: nat := VERSION_OFFSET + 8

  // ----- Headers

  function Prepend(b: BlockId, c: ClientId, v: Version, data: Data): (r: Data)
    ensures |r| == HEADER_LENGTH + |data|
  {
    ToBytes(FORMAT, 2) + b + ToBytes(c, 4) + ToBytes(v, 8) + data
  }

  function ReadFormat(x: Data): nat
    requires |x| >= 2
  {
    FromBytes(x[..2])
  }

  function ReadId(x: Data): BlockId
    requires |x| >= HEADER_LENGTH
  {
    x[ID_OFFSET..CLIENT_OFFSET]
  }

  function ReadClient(x: Data): ClientId
    requires |x| >= HEADER_LENGTH
  {
    Capacities();
    FromBytes(x[CLIENT_OFFSET..VERSION_OFFSET])
  }

  function ReadVersion(x: Data): Version
    requires |x| >= HEADER_LENGTH
  {
    Capacities();
    FromBytes(x[VERSION_OFFSET..HEADER_LENGTH])
  }

  function RemoveHeader(x: Data): Data
    requires |x| >= HEADER_LENGTH
  {
    x[HEADER_LENGTH..]
  }

  /** What has been written can be read back. */
  lemma HeaderRoundTrip(b: BlockId, c: ClientId, v: Version, data: Data)
    ensures var x := Prepend(b, c, v, data);
            && ReadFormat(x) == FORMAT && ReadId(x) == b && ReadClient(x) == c && ReadVersion(x) == v
            && RemoveHeader(x) == data
  {
    var x := Prepend(b, c, v, data);
    Capacities();
    FromToBytes(FORMAT, 2);
    FromToBytes(c, 4);
    FromToBytes(v, 8);
    hide ToBytes, FromBytes, Capacity;
    assert x[..2] == ToBytes(FORMAT, 2);
    assert x[ID_OFFSET..CLIENT_OFFSET] == b;
    assert x[CLIENT_OFFSET..VERSION_OFFSET] == ToBytes(c, 4);
    assert x[VERSION_OFFSET..HEADER_LENGTH] == ToBytes(v, 8);
    assert x[HEADER_LENGTH..] == data;
  }

  /** And the other way round: a block of the current format is the one that these fields make. */
  lemma HeaderDetermines(x: Data)
    requires |x| >= HEADER_LENGTH && ReadFormat(x) == FORMAT
    ensures x == Prepend(ReadId(x), ReadClient(x), ReadVersion(x), RemoveHeader(x))
  {
    ToFromBytes(x[..2]);
    ToFromBytes(x[CLIENT_OFFSET..VERSION_OFFSET]);
    ToFromBytes(x[VERSION_OFFSET..HEADER_LENGTH]);
    hide ToBytes, FromBytes;
    assert x == x[..2] + x[ID_OFFSET..CLIENT_OFFSET] + x[CLIENT_OFFSET..VERSION_OFFSET] + x[VERSION_OFFSET..HEADER_LENGTH] + x[HEADER_LENGTH..];
  }

  /** A block of the current format that names `b`, a client and a version. */
  predicate WellFormed(b: BlockId, x: Data) {
    |x| >= HEADER_LENGTH && ReadFormat(x) == FORMAT && ReadId(x) == b && ReadClient(x) != DELETED && ReadVersion(x) > 0
  }

  /** _migrateBlock: the old format lacks the block id. */
  function Migrate(b: BlockId, x: Data): Data
    requires |x| >= 2
  {
    ToBytes(FORMAT, 2) + b + x[2..]
  }

  function PrependOld(c: ClientId, v: Version, data: Data): Data {
    ToBytes(FORMAT_OLD, 2) + ToBytes(c, 4) + ToBytes(v, 8) + data
  }

  /** A migrated block is the block in the new format. */
  lemma MigrateIsPrepend(b: BlockId, c: ClientId, v: Version, data: Data)
    ensures ReadFormat(PrependOld(c, v, data)) == FORMAT_OLD
    ensures Migrate(b, PrependOld(c, v, data)) == Prepend(b, c, v, data)
  {
    var x := PrependOld(c, v, data);
    Capacities();
    FromToBytes(FORMAT_OLD, 2);
    hide ToBytes, FromBytes, Capacity;
    assert x[..2] == ToBytes(FORMAT_OLD, 2);
    assert x[2..] == ToBytes(c, 4) + ToBytes(v, 8) + data;
  }

  /** The block in the current format. */
  function Current(b: BlockId, x: Data): Data
    requires |x| >= 2
  {
    if ReadFormat(x) == FORMAT_OLD then Migrate(b, x) else x
  }

  /** A block of the old format that names a client and a version. */
  lemma OldIsWellFormed(b: BlockId, c: ClientId, v: Version, data: Data)
    requires c != DELETED && v > 0
    ensures var x := Current(b, PrependOld(c, v, data));
            WellFormed(b, x) && ReadClient(x) == c && ReadVersion(x) == v && RemoveHeader(x) == data
  {
    MigrateIsPrepend(b, c, v, data);
    HeaderRoundTrip(b, c, v, data);
  }

  /** What the header checks find in a block of the current format. */
  datatype Verdict = Fine | Superseded | Foreign | Malformed

  predicate IsMalformed(b: BlockId, x: Data) {
    || |x| < HEADER_LENGTH || ReadFormat(x) != FORMAT
    || (ReadId(x) == b && (ReadClient(x) == DELETED || ReadVersion(x) == 0))
  }

  function Judge(s: Versions, b: BlockId, x: Data): (v: Verdict)
    ensures v.Fine? || v.Superseded? <==> WellFormed(b, x)
  {
    if IsMalformed(b, x) then Malformed
    else if ReadId(x) != b then Foreign
    else if Dead(s, ReadClient(x), b, ReadVersion(x)) then Superseded
    else Fine
  }

  /** What is known after the checks. */
  function Learned(s: Versions, b: BlockId, x: Data): Versions {
    if WellFormed(b, x) then Checked(s, ReadClient(x), b, ReadVersion(x)) else s
  }

  /** A block written by any client is fine until something supersedes it, and then superseded; under
      another id it is foreign. */
  lemma JudgeWritten(s: Versions, b: BlockId, b': BlockId, c: ClientId, v: Version, data: Data)
    requires c != DELETED && v > 0
    ensures Judge(s, b', Prepend(b, c, v, data)) == if b' != b then Foreign else if Dead(s, c, b, v) then Superseded else Fine
  {
    HeaderRoundTrip(b, c, v, data);
    hide Prepend, RemoveHeader;
  }

  // ----- Stores written by one honest client

  /** The block was written last by this client, in its current version. */
  predicate HonestBlock(s: Versions, me: ClientId, b: BlockId, x: Data) {
    && |x| >= HEADER_LENGTH && x == Prepend(b, me, s.Known(me, b), RemoveHeader(x))
    && 0 < s.Known(me, b) < MAX_VERSION && s.Last(b) == me
  }

  ghost predicate Honest(s: Versions, me: ClientId, base: Store) {
    && me != DELETED
    && (forall b: BlockId :: s.Known(me, b) < MAX_VERSION)
    && (forall b | b in base :: HonestBlock(s, me, b, base[b]))
    && (forall b: BlockId :: s.Exists(b) <==> b in base)
  }

  /** The blocks without their headers. */
  function Contents(base: Store): Store {
    map b | b in base && |base[b]| >= HEADER_LENGTH :: RemoveHeader(base[b])
  }

  function Lookup(m: Store, b: BlockId): Option<Data> {
    if b in m then Some(m[b]) else None
  }

  lemma ContentsOfStore(base: Store, b: BlockId, x: Data)
    requires |x| >= HEADER_LENGTH
    ensures Contents(base[b := x]) == Contents(base)[b := RemoveHeader(x)]
  {
  }

  /** Writing the block with its next version. */
  lemma StoreKeepsHonest(s: Versions, me: ClientId, base: Store, b: BlockId, data: Data)
    requires Honest(s, me, base) && NextVersion(s, me, b) != MAX_VERSION
    ensures var s', base' := Incremented(s, me, b), base[b := Prepend(b, me, NextVersion(s, me, b), data)];
            Honest(s', me, base') && Contents(base') == Contents(base)[b := data]
  {
    hide Prepend, Contents, RemoveHeader;
    var v := NextVersion(s, me, b);
    HeaderRoundTrip(b, me, v, data);
    assert v == s.Known(me, b) + 1;
    var s', x := Incremented(s, me, b), Prepend(b, me, v, data);
    ContentsOfStore(base, b, x);
    assert s'.Known(me, b) == v && s'.Last(b) == me && s'.Exists(b);
    forall y: BlockId | y != b ensures s'.Known(me, y) == s.Known(me, y) && s'.Last(y) == s.Last(y) && (s'.Exists(y) <==> s.Exists(y)) {
    }
    hide Incremented, NextVersion, Versions.Known, Versions.Last, Versions.Exists;
    forall y | y in base && y != b ensures HonestBlock(s', me, y, base[y]) {
      assert HonestBlock(s, me, y, base[y]);
    }
    assert HonestBlock(s', me, b, x);
  }

  lemma RemoveKeepsHonest(s: Versions, me: ClientId, base: Store, b: BlockId)
    requires Honest(s, me, base)
    ensures Honest(s.WithLast(b, DELETED), me, base - {b}) && Contents(base - {b}) == Contents(base) - {b}
  {
    hide Prepend;
    var s', base' := s.WithLast(b, DELETED), base - {b};
    forall y: BlockId ensures s'.Known(me, y) < MAX_VERSION {
      assert s.Known(me, y) < MAX_VERSION;
    }
    forall y | y in base' ensures HonestBlock(s', me, y, base'[y]) {
      assert HonestBlock(s, me, y, base[y]);
    }
    forall y: BlockId ensures s'.Exists(y) <==> y in base' {
      assert s.Exists(y) <==> y in base;
    }
  }

  /** A refused increment changes nothing that matters. */
  lemma OverflowKeepsHonest(s: Versions, me: ClientId, base: Store, b: BlockId)
    requires Honest(s, me, base) && NextVersion(s, me, b) == MAX_VERSION
    ensures Honest(Incremented(s, me, b), me, base)
  {
    hide Prepend;
    var s' := Incremented(s, me, b);
    assert forall c: ClientId, y: BlockId :: s'.Known(c, y) == s.Known(c, y);
    assert s'.last == s.last;
    forall y | y in base ensures HonestBlock(s', me, y, base[y]) {
      assert HonestBlock(s, me, y, base[y]);
    }
    forall y: BlockId ensures s'.Exists(y) <==> y in base {
      assert s.Exists(y) <==> y in base;
    }
  }

  /** An honest block passes the version check, which then changes nothing. */
  lemma HonestPasses(s: Versions, me: ClientId, base: Store, b: BlockId)
    requires Honest(s, me, base) && b in base
    ensures var x := base[b];
            && |x| >= HEADER_LENGTH && ReadFormat(x) == FORMAT && ReadId(x) == b && ReadClient(x) == me
            && ReadVersion(x) == s.Known(me, b) > 0 && !Dead(s, me, b, ReadVersion(x))
            && Checked(s, me, b, ReadVersion(x)) == s && b in Contents(base) && RemoveHeader(x) == Contents(base)[b]
  {
    var x := base[b];
    assert HonestBlock(s, me, b, x);
    HeaderRoundTrip(b, me, s.Known(me, b), RemoveHeader(x));
    hide Prepend;
    assert s.known[(me, b) := s.Known(me, b)] == s.known && s.last[b := me] == s.last;
  }

  /** A create that fails because the block exists has still advanced the version: the block in
      the base store is superseded. */
  lemma FailedCreateSupersedes(s: Versions, me: ClientId, base: Store, b: BlockId)
    requires Honest(s, me, base) && b in base && NextVersion(s, me, b) != MAX_VERSION
    ensures Dead(Incremented(s, me, b), me, b, s.Known(me, b)) && !Honest(Incremented(s, me, b), me, base)
  {
    var s', x := Incremented(s, me, b), base[b];
    assert HonestBlock(s, me, b, x);
    assert s'.Known(me, b) == s.Known(me, b) + 1;
    HeaderRoundTrip(b, me, s.Known(me, b), RemoveHeader(x));
    HeaderRoundTrip(b, me, s'.Known(me, b), RemoveHeader(x));
    hide Prepend;
    assert !HonestBlock(s', me, b, x);
  }

  class IntegrityBlockStore {
    var base: Store
    const versions: KnownBlockVersions
    const allowViolations: bool
    const missingIsViolation: bool
    var violations: nat     // calls of onIntegrityViolation

    /** The only client so far, over a base store that nobody else changes. */
    ghost predicate IsHonest()
      reads this, versions
    {
      Honest(versions.State(), versions.myClientId, base)
    }

    constructor (me: ClientId, allow: bool, missing: bool)
      requires me != DELETED
      ensures IsHonest() && base == map[] && violations == 0 && fresh(versions)
    {
      base, violations, allowViolations, missingIsViolation := map[], 0, allow, missing;
      versions := new KnownBlockVersions(me);
    }

    /** Violations have been reported, unless they are allowed, if there were some. */
    twostate predicate Reported(some: bool)
      reads this, versions
    {
      var reported := some && !allowViolations;
      && violations == (if reported then old(violations) + 1 else old(violations))
      && versions.violationOnPreviousRun == (old(versions.violationOnPreviousRun) || reported)
    }

    method ViolationDetected()
      modifies this`violations, versions`violationOnPreviousRun
      ensures Reported(true)
    {
      if !allowViolations {
        versions.violationOnPreviousRun := true;
        violations := violations + 1;
      }
    }

    /** The honest case continues exactly if the block did not exist. */
    method TryCreate(b: BlockId, data: Data) returns (r: Result<bool>)
      modifies this`base, versions`knownVersions, versions`lastUpdateClientId
      ensures versions.State() == Do(old(versions.State()), versions.myClientId, Increment(b))
      ensures r.Err? <==> NextVersion(old(versions.State()), versions.myClientId, b) == MAX_VERSION
      ensures r.Ok? ==> r.value == (b !in old(base))
      ensures r.Ok? && !r.value ==> base == old(base)
      ensures r == Ok(true) ==> base == old(base)[b := Prepend(b, versions.myClientId, NextVersion(old(versions.State()), versions.myClientId, b), data)]
      ensures old(IsHonest()) && r.Ok? ==> (IsHonest() <==> r.value)
      ensures old(IsHonest()) && r == Ok(true) ==> Contents(base) == Contents(old(base))[b := data]
      ensures r.Err? ==> base == old(base) && (old(IsHonest()) ==> IsHonest())
    {
      ghost var s, me := versions.State(), versions.myClientId;
      if Honest(s, me, base) {
        if NextVersion(s, me, b) == MAX_VERSION {
          OverflowKeepsHonest(s, me, base, b);
        } else if b in base {
          FailedCreateSupersedes(s, me, base, b);
        } else {
          StoreKeepsHonest(s, me, base, b, data);
        }
      }
      hide Honest, Contents, Prepend;
      var v :- versions.IncrementVersion(b);
      if b in base {
        return Ok(false);
      }
      base := base[b := Prepend(b, versions.myClientId, v, data)];
      r := Ok(true);
    }

    method Remove(b: BlockId) returns (r: bool)
      modifies this`base, versions`lastUpdateClientId
      ensures r == (b in old(base)) && base == old(base) - {b}
      ensures versions.State() == Do(old(versions.State()), versions.myClientId, MarkDeleted(b))
      ensures old(IsHonest()) ==> IsHonest() && Contents(base) == Contents(old(base)) - {b}
    {
      if Honest(versions.State(), versions.myClientId, base) {
        RemoveKeepsHonest(versions.State(), versions.myClientId, base, b);
      }
      versions.MarkBlockAsDeleted(b);
      r := b in base;
      base := base - {b};
    }

    method Store(b: BlockId, data: Data) returns (r: Result<()>)
      modifies this`base, versions`knownVersions, versions`lastUpdateClientId
      ensures versions.State() == Do(old(versions.State()), versions.myClientId, Increment(b))
      ensures r.Err? <==> NextVersion(old(versions.State()), versions.myClientId, b) == MAX_VERSION
      ensures base == if r.Err? then old(base) else
                        old(base)[b := Prepend(b, versions.myClientId, NextVersion(old(versions.State()), versions.myClientId, b), data)]
      ensures old(IsHonest()) ==> IsHonest()
      ensures old(IsHonest()) && r.Ok? ==> Contents(base) == Contents(old(base))[b := data]
    {
      ghost var s, me := versions.State(), versions.myClientId;
      if Honest(s, me, base) {
        if NextVersion(s, me, b) == MAX_VERSION {
          OverflowKeepsHonest(s, me, base, b);
        } else {
          StoreKeepsHonest(s, me, base, b, data);
        }
      }
      hide Honest, Contents, Prepend;
      var v :- versions.IncrementVersion(b);
      base := base[b := Prepend(b, versions.myClientId, v, data)];
      r := Ok(());
    }

    /** _checkHeader. Exactly the blocks that are fine pass. A foreign or superseded one is reported,
        and a malformed one is an error. */
    method CheckHeader(b: BlockId, x: Data) returns (r: Result<bool>)
      modifies this`violations, versions
      ensures var verdict := Judge(old(versions.State()), b, x);
              && (r.Err? <==> verdict.Malformed?) && (r.Ok? ==> r.value == verdict.Fine?)
              && Reported(verdict.Foreign? || verdict.Superseded?)
      ensures versions.State() == Learned(old(versions.State()), b, x)
    {
      if |x| < HEADER_LENGTH {
        return Err("reads past the end of the block");
      }
      if ReadFormat(x) != FORMAT {
        return Err("The versioned block has the wrong format.");
      }
      if ReadId(x) != b {
        ViolationDetected();
        return Ok(false);
      }
      var ok :- versions.CheckAndUpdateVersion(ReadClient(x), b, ReadVersion(x));
      if !ok {
        ViolationDetected();
      }
      r := Ok(ok);
    }

    /** Data is only returned from a block that is fine, unless violations are allowed. A missing
        block, a foreign and a superseded one are reported. A block of the old format is stored
        again in the new one, as the next version of this client. In the honest case the data
        stored last is returned, without complaint. */
    method Load(b: BlockId) returns (r: Result<Option<Data>>)
      modifies this`base, this`violations, versions
      ensures b !in old(base) ==>
                && r == Ok(None) && base == old(base) && versions.State() == old(versions.State())
                && Reported(missingIsViolation && old(versions.State()).Exists(b))
      ensures b in old(base) && |old(base)[b]| < 2 ==> r.Err? && base == old(base) && versions.State() == old(versions.State()) && Reported(false)
      ensures b in old(base) && |old(base)[b]| >= 2 ==>
                var x, me := Current(b, old(base)[b]), versions.myClientId;
                var verdict, s := Judge(old(versions.State()), b, x), Learned(old(versions.State()), b, x);
                && Reported(verdict.Foreign? || verdict.Superseded?)
                && if verdict.Malformed? then r.Err? && base == old(base) && versions.State() == s
                   else if !verdict.Fine? && !allowViolations then r == Ok(None) && base == old(base) && versions.State() == s
                   else if x == old(base)[b] then r == Ok(Some(RemoveHeader(x))) && base == old(base) && versions.State() == s
                   else
                     && versions.State() == Do(s, me, Increment(b))
                     && if NextVersion(s, me, b) == MAX_VERSION then r.Err? && base == old(base)
                        else r == Ok(Some(RemoveHeader(x))) && base == old(base)[b := Prepend(b, me, NextVersion(s, me, b), RemoveHeader(x))]
      ensures old(IsHonest()) ==>
                && r == Ok(Lookup(Contents(old(base)), b)) && violations == old(violations)
                && IsHonest() && base == old(base)
    {
      if b !in base {
        var should := versions.BlockShouldExist(b);
        if missingIsViolation && should {
          ViolationDetected();
        }
        return Ok(None);
      }
      if |base[b]| < 2 {
        return Err("reads past the end of the block");
      }
      var x := base[b];
      var old_format := ReadFormat(x) == FORMAT_OLD;
      if old(IsHonest()) {
        HonestPasses(versions.State(), versions.myClientId, base, b);
      }
      if old_format {
        x := Migrate(b, x);
      }
      hide Honest, Prepend, Contents, Migrate;
      var ok :- CheckHeader(b, x);
      if !ok && !allowViolations {
        return Ok(None);
      }
      if old_format {
        var _ :- Store(b, RemoveHeader(x));
      }
      r := Ok(Some(RemoveHeader(x)));
    }

    /** The ids given to the callback. */
    method ForEachBlock() returns (ids: set<BlockId>)
      modifies this`violations, versions`violationOnPreviousRun
      ensures ids == base.Keys
      ensures Reported(missingIsViolation && exists b: BlockId :: versions.State().Exists(b) && b !in base)
      ensures IsHonest() ==> violations == old(violations)
    {
      ids := base.Keys;
      if !missingIsViolation {
        return;
      }
      var existing := versions.ExistingBlocks();
      if existing - ids != {} {
        var b :| b in existing - ids;
        assert versions.State().Exists(b) && b !in base;
        ViolationDetected();
      } else {
        forall b: BlockId | versions.State().Exists(b) ensures b in base {
          assert b !in existing - ids;
        }
      }
    }
  }
}
