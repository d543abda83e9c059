/** Model of the integrity state file: Serializer.h, Deserializer.h and the save and load functions
    of KnownBlockVersions.cpp. */
module StateFile {
  import opened Bytes
  import opened KnownBlockVersions

  type KnownEntry = ((ClientId, BlockId), Version)
  type LastEntry = (BlockId, ClientId)

  const HEADER_TEXT: string := "cryfs.integritydata.knownblockversions;1"
  const OLD_HEADER_TEXT: string := "cryfs.integritydata.knownblockversions;0"

  function Text(s: string): (r: seq<Byte>)
    ensures |r| == |s|
    ensures forall i | 0 <= i < |s| && 0 < s[i] as int < 256 :: r[i] == s[i] as int
  {
    seq(|s|, i requires 0 <= i < |s| => if (s[i] as int) < 256 then s[i] as int else 0)
  }

  function Header(): (r: seq<Byte>)
    ensures |r| == |HEADER_TEXT|
  {
    Text(HEADER_TEXT)
  }

  function OldHeader(): seq<Byte> {
    Text(OLD_HEADER_TEXT)
  }

  // ----- Writing

  class Serializer {
    const result: array<Byte>
    var pos: nat

    ghost predicate Valid()
      reads this
    {
      pos <= result.Length
    }

    ghost function Written(): seq<Byte>
      reads this, result
      requires Valid()
    {
      result[..pos]
    }

    constructor (size: nat)
      ensures Valid() && fresh(result) && result.Length == size && Written() == []
    {
      result := new Byte[size](_ => 0);
      pos := 0;
    }

    /** All writes come down to copying bytes to the current position. */
    method WriteData(data: seq<Byte>) returns (r: Result<()>)
      requires Valid()
      modifies this`pos, result
      ensures Valid() && (r.Ok? <==> |old(Written())| + |data| <= result.Length)
      ensures Written() == if r.Ok? then old(Written()) + data else old(Written())
    {
      if pos + |data| > result.Length {
        return Err("Serialization failed - size overflow");
      }
      for i := 0 to |data|
        invariant pos == old(pos)
        invariant result[..pos] == old(result[..pos]) && result[pos..pos + i] == data[..i]
      {
        result[pos + i] := data[i];
      }
      assert result[pos..pos + |data|] == data;
      assert result[..pos + |data|] == result[..pos] + result[pos..pos + |data|];
      pos := pos + |data|;
      r := Ok(());
    }

    /** serialize<uintN_t> */
    method WriteUint(value: nat, width: nat) returns (r: Result<()>)
      requires Valid()
      modifies this`pos, result
      ensures Valid() && (r.Ok? <==> |old(Written())| + width <= result.Length)
      ensures Written() == if r.Ok? then old(Written()) + ToBytes(value, width) else old(Written())
    {
      r := WriteData(ToBytes(value, width));
    }

    method WriteString(text: seq<Byte>) returns (r: Result<()>)
      requires Valid()
      modifies this`pos, result
      ensures Valid() && (r.Ok? <==> |old(Written())| + |text| + 1 <= result.Length)
      ensures Written() == if r.Ok? then old(Written()) + (text + [0]) else old(Written())
    {
      r := WriteData(text + [0]);
    }

    method Finished() returns (r: Result<seq<Byte>>)
      requires Valid()
      ensures r.Ok? <==> |Written()| == result.Length
      ensures r.Ok? ==> r.value == Written()
    {
      if pos != result.Length {
        return Err("Serialization failed - size not fully used.");
      }
      r := Ok(result[..]);
    }
  }

  // ----- The format

  function KnownBytes(e: KnownEntry): (r: seq<Byte>)
    ensures |r| == 28
  {
    ToBytes(e.0.0, 4) + e.0.1 + ToBytes(e.1, 8)
  }

  function LastBytes(e: LastEntry): (r: seq<Byte>)
    ensures |r| == 20
  {
    e.0 + ToBytes(e.1, 4)
  }

  function AllKnownBytes(s: seq<KnownEntry>): (r: seq<Byte>)
    ensures |r| == 28 * |s|
  {
    if s == [] then [] else KnownBytes(s[0]) + AllKnownBytes(s[1..])
  }

  function AllLastBytes(s: seq<LastEntry>): (r: seq<Byte>)
    ensures |r| == 20 * |s|
  {
    if s == [] then [] else LastBytes(s[0]) + AllLastBytes(s[1..])
  }

  function Tables(known: seq<KnownEntry>, last: seq<LastEntry>): (r: seq<Byte>)
    ensures |r| == 16 + 28 * |known| + 20 * |last|
  {
    ToBytes(|known|, 8) + AllKnownBytes(known) + (ToBytes(|last|, 8) + AllLastBytes(last))
  }

  function FileBytes(violation: bool, known: seq<KnownEntry>, last: seq<LastEntry>): seq<Byte> {
    Header() + [0] + [if violation then 1 else 0] + Tables(known, last)
  }

  /** The format before the flag was added. */
  function OldFileBytes(known: seq<KnownEntry>, last: seq<LastEntry>): seq<Byte> {
    OldHeader() + [0] + Tables(known, last)
  }

  /** The size that the serializer is created with. */
  function FileSize(numKnown: nat, numLast: nat): nat {
    (|HEADER_TEXT| + 1) + 1 + 8 + numKnown * (4 + ID_LENGTH + 8) + 8 + numLast * (ID_LENGTH + 4)
  }

  /** The entries in some order of iteration. */
  ghost predicate Lists<K, V>(s: seq<(K, V)>, m: map<K, V>) {
    && (forall i, j | 0 <= i < j < |s| :: s[i].0 != s[j].0)
    && (forall e | e in s :: e.0 in m && m[e.0] == e.1)
    && (forall k | k in m :: (k, m[k]) in s)
  }

  // ----- Reading, as functions of the bytes left

  datatype Parsed<+T> = Parsed(value: T, rest: seq<Byte>)

  function ParseUint(s: seq<Byte>, width: nat): (r: Result<Parsed<nat>>)
    ensures r.Ok? ==> r.value.value < Capacity(width)
  {
    if |s| < width then Err("Deserialization failed - size overflow")
    else Ok(Parsed(FromBytes(s[..width]), s[width..]))
  }

  /** The source copies these bytes without looking whether they are there. */
  function ParseId(s: seq<Byte>): Result<Parsed<BlockId>> {
    if |s| < ID_LENGTH then Err("reads past the end of the file") else Ok(Parsed(s[..ID_LENGTH], s[ID_LENGTH..]))
  }

  function FirstZero(s: seq<Byte>): (r: Option<nat>)
    ensures r.Some? ==> r.value < |s| && s[r.value] == 0 && forall i | 0 <= i < r.value :: s[i] != 0
    ensures r.None? ==> forall i | 0 <= i < |s| :: s[i] != 0
  {
    if s == [] then None
    else if s[0] == 0 then Some(0)
    else var r := FirstZero(s[1..]); if r.Some? then Some(r.value + 1) else None
  }

  function ParseString(s: seq<Byte>): Result<Parsed<seq<Byte>>> {
    var zero := FirstZero(s);
    if zero.None? then Err("Deserialization failed - missing nullbyte for string termination")
    else Ok(Parsed(s[..zero.value], s[zero.value + 1..]))
  }

  function ParseBool(s: seq<Byte>): Result<Parsed<bool>> {
    var b :- ParseUint(s, 1);
    if b.value == 1 then Ok(Parsed(true, b.rest))
    else if b.value == 0 then Ok(Parsed(false, b.rest))
    else Err("Read invalid bool value")
  }

  function ParseKnownEntry(s: seq<Byte>): Result<Parsed<KnownEntry>> {
    var client :- ParseUint(s, 4);
    var id :- ParseId(client.rest);
    var version :- ParseUint(id.rest, 8);
    Capacities();
    Ok(Parsed(((client.value, id.value), version.value), version.rest))
  }

  function ParseLastEntry(s: seq<Byte>): Result<Parsed<LastEntry>> {
    var id :- ParseId(s);
    var client :- ParseUint(id.rest, 4);
    Capacities();
    Ok(Parsed((id.value, client.value), client.rest))
  }

  /** insert() of an unordered_map keeps an entry that is already there. */
  function InsertNew<K, V>(m: map<K, V>, k: K, v: V): map<K, V> {
    if k in m then m else m[k := v]
  }

  function ParseKnown(n: nat, s: seq<Byte>, m: map<(ClientId, BlockId), Version>): Result<Parsed<map<(ClientId, BlockId), Version>>> {
    if n == 0 then Ok(Parsed(m, s))
    else var e :- ParseKnownEntry(s); ParseKnown(n - 1, e.rest, InsertNew(m, e.value.0, e.value.1))
  }

  function ParseLast(n: nat, s: seq<Byte>, m: map<BlockId, ClientId>): Result<Parsed<map<BlockId, ClientId>>> {
    if n == 0 then Ok(Parsed(m, s))
    else var e :- ParseLastEntry(s); ParseLast(n - 1, e.rest, InsertNew(m, e.value.0, e.value.1))
  }

  function ParseTables(s: seq<Byte>): Result<Versions> {
    var n :- ParseUint(s, 8);
    var known :- ParseKnown(n.value, n.rest, map[]);
    var n' :- ParseUint(known.rest, 8);
    var last :- ParseLast(n'.value, n'.rest, map[]);
    if last.rest != [] then Err("Deserialization failed - size not fully used.")
    else Ok(Versions(known.value, last.value))
  }

  /** The flag and the tables. */
  function ParseFile(s: seq<Byte>): Result<(bool, Versions)> {
    var header :- ParseString(s);
    if header.value == OldHeader() then
      var v :- ParseTables(header.rest);
      Ok((false, v))
    else if header.value != Header() then Err("Invalid local state: Invalid integrity file header.")
    else
      var flag :- ParseBool(header.rest);
      var v :- ParseTables(flag.rest);
      Ok((flag.value, v))
  }

  // ----- Round trip

  lemma ParseWrittenUint(v: nat, width: nat, rest: seq<Byte>)
    requires v < Capacity(width)
    ensures ParseUint(ToBytes(v, width) + rest, width) == Ok(Parsed(v, rest))
  {
  }

  lemma ParseWrittenId(b: BlockId, rest: seq<Byte>)
    ensures ParseId(b + rest) == Ok(Parsed(b, rest))
  {
  }

  lemma ParseWrittenKnown(e: KnownEntry, rest: seq<Byte>)
    ensures ParseKnownEntry(KnownBytes(e) + rest) == Ok(Parsed(e, rest))
  {
    hide ToBytes, ParseUint, ParseId, Capacity;
    var tail := ToBytes(e.1, 8) + rest;
    Capacities();
    assert KnownBytes(e) + rest == ToBytes(e.0.0, 4) + (e.0.1 + tail);
    ParseWrittenUint(e.0.0, 4, e.0.1 + tail);
    ParseWrittenId(e.0.1, tail);
    ParseWrittenUint(e.1, 8, rest);
  }

  lemma ParseWrittenLast(e: LastEntry, rest: seq<Byte>)
    ensures ParseLastEntry(LastBytes(e) + rest) == Ok(Parsed(e, rest))
  {
    hide ToBytes, ParseUint, ParseId, Capacity;
    Capacities();
    assert LastBytes(e) + rest == e.0 + (ToBytes(e.1, 4) + rest);
    ParseWrittenId(e.0, ToBytes(e.1, 4) + rest);
    ParseWrittenUint(e.1, 4, rest);
  }

  function InsertAll<K, V>(s: seq<(K, V)>, m: map<K, V>): map<K, V> {
    if s == [] then m else InsertAll(s[1..], InsertNew(m, s[0].0, s[0].1))
  }

  lemma {:induction false} ParseAllKnown(s: seq<KnownEntry>, rest: seq<Byte>, m: map<(ClientId, BlockId), Version>)
    ensures ParseKnown(|s|, AllKnownBytes(s) + rest, m) == Ok(Parsed(InsertAll(s, m), rest))
  {
    hide ParseKnownEntry, KnownBytes;
    if s == [] {
      assert [] + rest == rest;
    } else {
      var tail := AllKnownBytes(s[1..]) + rest;
      assert AllKnownBytes(s) + rest == KnownBytes(s[0]) + tail;
      ParseWrittenKnown(s[0], tail);
      ParseAllKnown(s[1..], rest, InsertNew(m, s[0].0, s[0].1));
    }
  }

  lemma {:induction false} ParseAllLast(s: seq<LastEntry>, rest: seq<Byte>, m: map<BlockId, ClientId>)
    ensures ParseLast(|s|, AllLastBytes(s) + rest, m) == Ok(Parsed(InsertAll(s, m), rest))
  {
    hide ParseLastEntry, LastBytes;
    if s == [] {
      assert [] + rest == rest;
    } else {
      var tail := AllLastBytes(s[1..]) + rest;
      assert AllLastBytes(s) + rest == LastBytes(s[0]) + tail;
      ParseWrittenLast(s[0], tail);
      ParseAllLast(s[1..], rest, InsertNew(m, s[0].0, s[0].1));
    }
  }

  lemma {:induction false} InsertAllHas<K, V>(s: seq<(K, V)>, m: map<K, V>, k: K)
    requires forall i, j | 0 <= i < j < |s| :: s[i].0 != s[j].0
    ensures k in InsertAll(s, m) <==> k in m || exists i :: 0 <= i < |s| && s[i].0 == k
    ensures k in m ==> InsertAll(s, m)[k] == m[k]
    ensures forall i | 0 <= i < |s| && s[i].0 == k && k !in m :: InsertAll(s, m)[k] == s[i].1
  {
    if s != [] {
      var t, m' := s[1..], InsertNew(m, s[0].0, s[0].1);
      assert forall i | 0 <= i < |t| :: t[i] == s[i + 1];
      InsertAllHas(t, m', k);
      forall i | 0 <= i < |s| && s[i].0 == k && k !in m ensures InsertAll(s, m)[k] == s[i].1 {
        if i > 0 {
          assert t[i - 1] == s[i];
        }
      }
    }
  }

  /** Whatever the order, inserting all entries of a map gives the map. */
  lemma InsertListed<K(!new), V>(s: seq<(K, V)>, m: map<K, V>)
    requires Lists(s, m)
    ensures InsertAll(s, map[]) == m
  {
    var r: map<K, V> := InsertAll(s, map[]);
    forall k ensures k in r <==> k in m {
      InsertAllHas(s, map[], k);
      if k in m {
        assert (k, m[k]) in s;
        var i :| 0 <= i < |s| && s[i] == (k, m[k]);
      }
    }
    forall k | k in m ensures r[k] == m[k] {
      InsertAllHas(s, map[], k);
      assert (k, m[k]) in s;
      var i :| 0 <= i < |s| && s[i] == (k, m[k]);
    }
  }

  lemma ParseTerminated(text: seq<Byte>, rest: seq<Byte>)
    requires forall i | 0 <= i < |text| :: text[i] != 0
    ensures ParseString(text + [0] + rest) == Ok(Parsed(text, rest))
  {
    var s := text + [0] + rest;
    assert s[|text|] == 0 && s[..|text|] == text && s[|text| + 1..] == rest;
    assert forall i | 0 <= i < |text| :: s[i] == text[i];
    assert FirstZero(s) == Some(|text|);
  }

  lemma HeadersDiffer()
    ensures Header() != OldHeader()
    ensures forall i | 0 <= i < |Header()| :: Header()[i] != 0
    ensures forall i | 0 <= i < |OldHeader()| :: OldHeader()[i] != 0
  {
    assert Header()[39] == 49 && OldHeader()[39] == 48;
  }

  lemma ParseWrittenBool(b: bool, rest: seq<Byte>)
    ensures ParseBool([if b then 1 else 0] + rest) == Ok(Parsed(b, rest))
  {
  }

  /** Loading a saved state gives back the flag and both maps, whatever order the entries were
      written in, and nothing is left over. */
  lemma RoundTrip(violation: bool, known: seq<KnownEntry>, last: seq<LastEntry>, v: Versions)
    requires Lists(known, v.known) && Lists(last, v.last) && |known| < U64_SIZE && |last| < U64_SIZE
    ensures ParseFile(FileBytes(violation, known, last)) == Ok((violation, v))
  {
    hide Lists, FileBytes, ParseFile, InsertAll;
    FileParses(violation, known, last);
    InsertListed(known, v.known);
    InsertListed(last, v.last);
  }

  /** A file of the old format is read as one without violation. */
  lemma OldRoundTrip(known: seq<KnownEntry>, last: seq<LastEntry>, v: Versions)
    requires Lists(known, v.known) && Lists(last, v.last) && |known| < U64_SIZE && |last| < U64_SIZE
    ensures ParseFile(OldFileBytes(known, last)) == Ok((false, v))
  {
    hide Lists, OldFileBytes, ParseFile, InsertAll;
    FileParses(false, known, last);
    InsertListed(known, v.known);
    InsertListed(last, v.last);
  }

  lemma TablesParse(known: seq<KnownEntry>, last: seq<LastEntry>)
    requires |known| < U64_SIZE && |last| < U64_SIZE
    ensures ParseTables(Tables(known, last)) == Ok(Versions(InsertAll(known, map[]), InsertAll(last, map[])))
  {
    Capacities();
    hide ToBytes, ParseUint, ParseKnown, ParseLast, AllKnownBytes, AllLastBytes, InsertAll, Capacity;
    var tail := ToBytes(|last|, 8) + AllLastBytes(last);
    assert Tables(known, last) == ToBytes(|known|, 8) + (AllKnownBytes(known) + tail);
    ParseWrittenUint(|known|, 8, AllKnownBytes(known) + tail);
    ParseAllKnown(known, tail, map[]);
    ParseWrittenUint(|last|, 8, AllLastBytes(last));
    assert AllLastBytes(last) + [] == AllLastBytes(last);
    ParseAllLast(last, [], map[]);
  }

  // ----- What can be loaded

  lemma UintOf(s: seq<Byte>, width: nat)
    requires ParseUint(s, width).Ok?
    ensures var p := ParseUint(s, width).value; s == ToBytes(p.value, width) + p.rest
  {
    ToFromBytes(s[..width]);
  }

  lemma KnownEntryOf(s: seq<Byte>)
    requires ParseKnownEntry(s).Ok?
    ensures var p := ParseKnownEntry(s).value; s == KnownBytes(p.value) + p.rest
  {
    var client := ParseUint(s, 4).value;
    var id := ParseId(client.rest).value;
    UintOf(s, 4);
    UintOf(id.rest, 8);
    assert client.rest == id.value + id.rest;
    hide ToBytes, ParseUint;
  }

  lemma LastEntryOf(s: seq<Byte>)
    requires ParseLastEntry(s).Ok?
    ensures var p := ParseLastEntry(s).value; s == LastBytes(p.value) + p.rest
  {
    var id := ParseId(s).value;
    UintOf(id.rest, 4);
    assert s == id.value + id.rest;
    hide ToBytes, ParseUint;
  }

  lemma {:induction false} KnownOf(n: nat, s: seq<Byte>, m: map<(ClientId, BlockId), Version>) returns (es: seq<KnownEntry>)
    requires ParseKnown(n, s, m).Ok?
    ensures var p := ParseKnown(n, s, m).value; |es| == n && s == AllKnownBytes(es) + p.rest && p.value == InsertAll(es, m)
  {
    if n == 0 {
      return [];
    }
    hide ParseKnownEntry, KnownBytes, InsertNew;
    var e := ParseKnownEntry(s).value;
    KnownEntryOf(s);
    var rest := KnownOf(n - 1, e.rest, InsertNew(m, e.value.0, e.value.1));
    es := [e.value] + rest;
    assert es[1..] == rest;
    Associative(KnownBytes(e.value), AllKnownBytes(rest), ParseKnown(n, s, m).value.rest);
  }

  lemma {:induction false} LastOf(n: nat, s: seq<Byte>, m: map<BlockId, ClientId>) returns (es: seq<LastEntry>)
    requires ParseLast(n, s, m).Ok?
    ensures var p := ParseLast(n, s, m).value; |es| == n && s == AllLastBytes(es) + p.rest && p.value == InsertAll(es, m)
  {
    if n == 0 {
      return [];
    }
    hide ParseLastEntry, LastBytes, InsertNew;
    var e := ParseLastEntry(s).value;
    LastEntryOf(s);
    var rest := LastOf(n - 1, e.rest, InsertNew(m, e.value.0, e.value.1));
    es := [e.value] + rest;
    assert es[1..] == rest;
    Associative(LastBytes(e.value), AllLastBytes(rest), ParseLast(n, s, m).value.rest);
  }

  /** The entries from which the tables of a file are made. */
  lemma TablesOf(s: seq<Byte>) returns (known: seq<KnownEntry>, last: seq<LastEntry>)
    requires ParseTables(s).Ok?
    ensures s == Tables(known, last) && |known| < U64_SIZE && |last| < U64_SIZE
    ensures ParseTables(s).value == Versions(InsertAll(known, map[]), InsertAll(last, map[]))
  {
    hide ToBytes, FromBytes, Capacity, ParseUint, ParseKnown, ParseLast, AllKnownBytes, AllLastBytes, InsertAll;
    Capacities();
    var n := ParseUint(s, 8).value;
    UintOf(s, 8);
    var k := ParseKnown(n.value, n.rest, map[]).value;
    var n' := ParseUint(k.rest, 8).value;
    UintOf(k.rest, 8);
    known := KnownOf(n.value, n.rest, map[]);
    last := LastOf(n'.value, n'.rest, map[]);
    Nothing(AllLastBytes(last));
    Associative(ToBytes(n.value, 8), AllKnownBytes(known), k.rest);
  }

  lemma Associative(a: seq<Byte>, b: seq<Byte>, c: seq<Byte>)
    ensures a + (b + c) == a + b + c
  {
  }

  lemma Nothing(a: seq<Byte>)
    ensures a + [] == a
  {
  }

  /** The file is written in the current format, or in the old one and without the flag. */
  ghost predicate IsFile(s: seq<Byte>, violation: bool, known: seq<KnownEntry>, last: seq<LastEntry>) {
    s == FileBytes(violation, known, last) || (s == OldFileBytes(known, last) && !violation)
  }

  lemma BoolOf(s: seq<Byte>)
    requires ParseBool(s).Ok?
    ensures var p := ParseBool(s).value; s == [if p.value then 1 else 0] + p.rest
  {
    assert s[..1] == [s[0]];
  }

  lemma StringOf(s: seq<Byte>)
    requires ParseString(s).Ok?
    ensures var p := ParseString(s).value; s == p.value + [0] + p.rest
  {
  }

  lemma FileOf(s: seq<Byte>) returns (known: seq<KnownEntry>, last: seq<LastEntry>)
    requires ParseFile(s).Ok?
    ensures IsFile(s, ParseFile(s).value.0, known, last) && |known| < U64_SIZE && |last| < U64_SIZE
    ensures ParseFile(s).value.1 == Versions(InsertAll(known, map[]), InsertAll(last, map[]))
  {
    HeadersDiffer();
    var header := ParseString(s).value;
    StringOf(s);
    hide Header, OldHeader, Tables, ParseTables, ParseString, InsertAll;
    if header.value == OldHeader() {
      known, last := TablesOf(header.rest);
    } else {
      BoolOf(header.rest);
      hide ParseBool;
      var flag := ParseBool(header.rest).value;
      known, last := TablesOf(flag.rest);
      assert s == Header() + [0] + [if flag.value then 1 else 0] + Tables(known, last);
    }
  }

  /** Exactly the files in these formats can be loaded, and loading gives the flag and what the
      entries make. In particular nothing may be left over. */
  lemma ParseIff(s: seq<Byte>, violation: bool, v: Versions)
    ensures ParseFile(s) == Ok((violation, v)) <==>
              exists known: seq<KnownEntry>, last: seq<LastEntry> ::
                && IsFile(s, violation, known, last) && |known| < U64_SIZE && |last| < U64_SIZE
                && v == Versions(InsertAll(known, map[]), InsertAll(last, map[]))
  {
    hide ParseFile, InsertAll, FileBytes, OldFileBytes;
    if ParseFile(s) == Ok((violation, v)) {
      var known, last := FileOf(s);
    }
    if known: seq<KnownEntry>, last: seq<LastEntry> :|
        && IsFile(s, violation, known, last) && |known| < U64_SIZE && |last| < U64_SIZE
        && v == Versions(InsertAll(known, map[]), InsertAll(last, map[])) {
      FileParses(violation, known, last);
    }
  }

  lemma FileParses(violation: bool, known: seq<KnownEntry>, last: seq<LastEntry>)
    requires |known| < U64_SIZE && |last| < U64_SIZE
    ensures var v := Versions(InsertAll(known, map[]), InsertAll(last, map[]));
            && ParseFile(FileBytes(violation, known, last)) == Ok((violation, v))
            && ParseFile(OldFileBytes(known, last)) == Ok((false, v))
  {
    hide Header, OldHeader, Tables, ParseTables, ParseBool, ParseString, InsertAll;
    HeadersDiffer();
    var flag: seq<Byte> := [if violation then 1 else 0];
    Associative(Header() + [0], flag, Tables(known, last));
    ParseTerminated(Header(), flag + Tables(known, last));
    ParseWrittenBool(violation, Tables(known, last));
    ParseTerminated(OldHeader(), Tables(known, last));
    TablesParse(known, last);
  }

  /** Of two entries with the same key the first one counts. */
  lemma {:induction false} FirstWins<K, V>(s: seq<(K, V)>, m: map<K, V>, i: nat)
    requires i < |s| && s[i].0 !in m && forall j | 0 <= j < i :: s[j].0 != s[i].0
    ensures s[i].0 in InsertAll(s, m) && InsertAll(s, m)[s[i].0] == s[i].1
  {
    if i == 0 {
      StaysInserted(s[1..], InsertNew(m, s[0].0, s[0].1), s[0].0);
    } else {
      FirstWins(s[1..], InsertNew(m, s[0].0, s[0].1), i - 1);
    }
  }

  lemma {:induction false} StaysInserted<K, V>(s: seq<(K, V)>, m: map<K, V>, k: K)
    requires k in m
    ensures k in InsertAll(s, m) && InsertAll(s, m)[k] == m[k]
  {
    if s != [] {
      StaysInserted(s[1..], InsertNew(m, s[0].0, s[0].1), k);
    }
  }

  // ----- The deserializer

  class Deserializer {
    const source: seq<Byte>
    var pos: nat

    ghost predicate Valid()
      reads this
    {
      pos <= |source|
    }

    ghost function Rest(): seq<Byte>
      reads this
      requires Valid()
    {
      source[pos..]
    }

    constructor (source_: seq<Byte>)
      ensures Valid() && Rest() == source_
    {
      source, pos := source_, 0;
    }

    /** What a read of `p` bytes' worth leaves. */
    ghost predicate Reads<T>(r: Result<T>, p: Result<Parsed<T>>)
      reads this
    {
      && Valid() && (r.Ok? <==> p.Ok?)
      && (r.Ok? ==> r.value == p.value.value && Rest() == p.value.rest)
      && (r.Err? ==> r.error == p.error)
    }

    method ReadUint(width: nat) returns (r: Result<nat>)
      requires Valid()
      modifies this
      ensures Reads(r, old(ParseUint(Rest(), width)))
    {
      if pos + width > |source| {
        return Err("Deserialization failed - size overflow");
      }
      assert source[pos..][..width] == source[pos..pos + width];
      r := Ok(FromBytes(source[pos..pos + width]));
      pos := pos + width;
    }

    method ReadId() returns (r: Result<BlockId>)
      requires Valid()
      modifies this
      ensures Reads(r, old(ParseId(Rest())))
    {
      if pos + ID_LENGTH > |source| {
        return Err("reads past the end of the file");
      }
      assert source[pos..][..ID_LENGTH] == source[pos..pos + ID_LENGTH];
      r := Ok(source[pos..pos + ID_LENGTH]);
      pos := pos + ID_LENGTH;
    }

    method ReadBool() returns (r: Result<bool>)
      requires Valid()
      modifies this
      ensures Reads(r, old(ParseBool(Rest())))
    {
      var b :- ReadUint(1);
      if b == 1 {
        return Ok(true);
      } else if b == 0 {
        return Ok(false);
      }
      r := Err("Read invalid bool value");
    }

    method ReadString() returns (r: Result<seq<Byte>>)
      requires Valid()
      modifies this
      ensures Reads(r, old(ParseString(Rest())))
    {
      var size := 0;
      while pos + size < |source| && source[pos + size] != 0
        invariant pos + size <= |source|
        invariant forall i | 0 <= i < size :: Rest()[i] != 0
      {
        size := size + 1;
      }
      ZeroAt(Rest(), size);
      assert Rest()[..size] == source[pos..pos + size];
      if pos + size == |source| {
        return Err("Deserialization failed - missing nullbyte for string termination");
      }
      r := Ok(source[pos..pos + size]);
      pos := pos + size + 1;
    }

    method ReadKnownEntry() returns (r: Result<KnownEntry>)
      requires Valid()
      modifies this
      ensures Reads(r, old(ParseKnownEntry(Rest())))
    {
      Capacities();
      var client :- ReadUint(4);
      var id :- ReadId();
      var version :- ReadUint(8);
      r := Ok(((client, id), version));
    }

    method ReadLastEntry() returns (r: Result<LastEntry>)
      requires Valid()
      modifies this
      ensures Reads(r, old(ParseLastEntry(Rest())))
    {
      Capacities();
      var id :- ReadId();
      var client :- ReadUint(4);
      r := Ok((id, client));
    }

    method ReadKnownVersions() returns (r: Result<map<(ClientId, BlockId), Version>>)
      requires Valid()
      modifies this
      ensures var n := old(ParseUint(Rest(), 8));
              Reads(r, if n.Ok? then ParseKnown(n.value.value, n.value.rest, map[]) else Err(n.error))
    {
      hide ParseUint, ParseKnownEntry;
      var n :- ReadUint(8);
      ghost var start := Rest();
      var m: map<(ClientId, BlockId), Version> := map[];
      var i := 0;
      while i < n
        invariant i <= n && Valid() && ParseKnown(n, start, map[]) == ParseKnown(n - i, Rest(), m)
      {
        var e :- ReadKnownEntry();
        m := InsertNew(m, e.0, e.1);
        i := i + 1;
      }
      r := Ok(m);
    }

    method ReadLastUpdateClientIds() returns (r: Result<map<BlockId, ClientId>>)
      requires Valid()
      modifies this
      ensures var n := old(ParseUint(Rest(), 8));
              Reads(r, if n.Ok? then ParseLast(n.value.value, n.value.rest, map[]) else Err(n.error))
    {
      hide ParseUint, ParseLastEntry;
      var n :- ReadUint(8);
      ghost var start := Rest();
      var m: map<BlockId, ClientId> := map[];
      var i := 0;
      while i < n
        invariant i <= n && Valid() && ParseLast(n, start, map[]) == ParseLast(n - i, Rest(), m)
      {
        var e :- ReadLastEntry();
        m := InsertNew(m, e.0, e.1);
        i := i + 1;
      }
      r := Ok(m);
    }

    method ReadTables() returns (r: Result<Versions>)
      requires Valid()
      modifies this
      ensures r == old(ParseTables(Rest()))
    {
      hide ParseUint, ParseKnown, ParseLast;
      var known :- ReadKnownVersions();
      var last :- ReadLastUpdateClientIds();
      if pos != |source| {
        return Err("Deserialization failed - size not fully used.");
      }
      r := Ok(Versions(known, last));
    }
  }

  lemma ZeroAt(s: seq<Byte>, i: nat)
    requires i <= |s| && (forall j | 0 <= j < i :: s[j] != 0) && (i < |s| ==> s[i] == 0)
    ensures FirstZero(s) == if i < |s| then Some(i) else None
  {
  }

  /** _loadStateFile. With the round trip, what has been saved is loaded. */
  method LoadStateFile(file: seq<Byte>) returns (r: Result<(bool, Versions)>)
    ensures r == ParseFile(file)
  {
    hide ParseString, ParseTables, ParseBool, Header, OldHeader;
    var d := new Deserializer(file);
    var header :- d.ReadString();
    if header == OldHeader() {
      var v :- d.ReadTables();
      return Ok((false, v));
    }
    if header != Header() {
      return Err("Invalid local state: Invalid integrity file header.");
    }
    var flag :- d.ReadBool();
    var v :- d.ReadTables();
    r := Ok((flag, v));
  }

  /** The entries of a map in some order. */
  method Listing<K(==), V>(m: map<K, V>) returns (s: seq<(K, V)>)
    ensures Lists(s, m) && |s| == |m|
  {
    s := [];
    var rest := m.Keys;
    while rest != {}
      invariant rest <= m.Keys && |s| + |rest| == |m|
      invariant forall i, j | 0 <= i < j < |s| :: s[i].0 != s[j].0
      invariant forall e | e in s :: e.0 in m && e.0 !in rest && m[e.0] == e.1
      invariant forall k | k in m && k !in rest :: (k, m[k]) in s
      decreases |rest|
    {
      var k :| k in rest;
      rest := rest - {k};
      s := s + [(k, m[k])];
    }
  }

  lemma {:induction false} AllKnownSnoc(s: seq<KnownEntry>, e: KnownEntry)
    ensures AllKnownBytes(s + [e]) == AllKnownBytes(s) + KnownBytes(e)
  {
    hide KnownBytes;
    var t := s + [e];
    if s == [] {
      assert t[1..] == [] && KnownBytes(e) + [] == KnownBytes(e) && [] + KnownBytes(e) == KnownBytes(e);
    } else {
      assert t[1..] == s[1..] + [e];
      AllKnownSnoc(s[1..], e);
      assert KnownBytes(s[0]) + (AllKnownBytes(s[1..]) + KnownBytes(e)) == KnownBytes(s[0]) + AllKnownBytes(s[1..]) + KnownBytes(e);
    }
  }

  lemma {:induction false} AllLastSnoc(s: seq<LastEntry>, e: LastEntry)
    ensures AllLastBytes(s + [e]) == AllLastBytes(s) + LastBytes(e)
  {
    hide LastBytes;
    var t := s + [e];
    if s == [] {
      assert t[1..] == [] && LastBytes(e) + [] == LastBytes(e) && [] + LastBytes(e) == LastBytes(e);
    } else {
      assert t[1..] == s[1..] + [e];
      AllLastSnoc(s[1..], e);
      assert LastBytes(s[0]) + (AllLastBytes(s[1..]) + LastBytes(e)) == LastBytes(s[0]) + AllLastBytes(s[1..]) + LastBytes(e);
    }
  }

  method WriteKnownEntry(s: Serializer, e: KnownEntry) returns (r: Result<()>)
    requires s.Valid()
    modifies s`pos, s.result
    ensures s.Valid() && (|old(s.Written())| + 28 <= s.result.Length ==> r.Ok? && s.Written() == old(s.Written()) + KnownBytes(e))
  {
    hide ToBytes;
    var _ :- s.WriteUint(e.0.0, 4);
    var _ :- s.WriteData(e.0.1);
    r := s.WriteUint(e.1, 8);
    assert |old(s.Written())| + 28 <= s.result.Length ==> s.Written() == old(s.Written()) + ToBytes(e.0.0, 4) + e.0.1 + ToBytes(e.1, 8);
    assert old(s.Written()) + ToBytes(e.0.0, 4) + e.0.1 + ToBytes(e.1, 8) == old(s.Written()) + KnownBytes(e);
  }

  method WriteLastEntry(s: Serializer, e: LastEntry) returns (r: Result<()>)
    requires s.Valid()
    modifies s`pos, s.result
    ensures s.Valid() && (|old(s.Written())| + 20 <= s.result.Length ==> r.Ok? && s.Written() == old(s.Written()) + LastBytes(e))
  {
    hide ToBytes;
    var _ :- s.WriteData(e.0);
    r := s.WriteUint(e.1, 4);
    assert old(s.Written()) + e.0 + ToBytes(e.1, 4) == old(s.Written()) + LastBytes(e);
  }

  method WriteKnownVersions(s: Serializer, entries: seq<KnownEntry>) returns (r: Result<()>)
    requires s.Valid()
    modifies s`pos, s.result
    ensures s.Valid()
    ensures |old(s.Written())| + 8 + 28 * |entries| <= s.result.Length ==>
              r.Ok? && s.Written() == old(s.Written()) + (ToBytes(|entries|, 8) + AllKnownBytes(entries))
  {
    hide ToBytes, KnownBytes;
    ghost var before, fits := s.Written(), |s.Written()| + 8 + 28 * |entries| <= s.result.Length;
    var _ :- s.WriteUint(|entries|, 8);
    for i := 0 to |entries|
      invariant s.Valid() && (fits ==> s.Written() == before + (ToBytes(|entries|, 8) + AllKnownBytes(entries[..i])))
    {
      var _ :- WriteKnownEntry(s, entries[i]);
      AllKnownSnoc(entries[..i], entries[i]);
      assert entries[..i + 1] == entries[..i] + [entries[i]];
      Regroup(before, ToBytes(|entries|, 8), AllKnownBytes(entries[..i]), KnownBytes(entries[i]));
    }
    assert entries[..|entries|] == entries;
    r := Ok(());
  }

  method WriteLastUpdateClientIds(s: Serializer, entries: seq<LastEntry>) returns (r: Result<()>)
    requires s.Valid()
    modifies s`pos, s.result
    ensures s.Valid()
    ensures |old(s.Written())| + 8 + 20 * |entries| <= s.result.Length ==>
              r.Ok? && s.Written() == old(s.Written()) + (ToBytes(|entries|, 8) + AllLastBytes(entries))
  {
    hide ToBytes, LastBytes;
    ghost var before, fits := s.Written(), |s.Written()| + 8 + 20 * |entries| <= s.result.Length;
    var _ :- s.WriteUint(|entries|, 8);
    for i := 0 to |entries|
      invariant s.Valid() && (fits ==> s.Written() == before + (ToBytes(|entries|, 8) + AllLastBytes(entries[..i])))
    {
      var _ :- WriteLastEntry(s, entries[i]);
      AllLastSnoc(entries[..i], entries[i]);
      assert entries[..i + 1] == entries[..i] + [entries[i]];
      Regroup(before, ToBytes(|entries|, 8), AllLastBytes(entries[..i]), LastBytes(entries[i]));
    }
    assert entries[..|entries|] == entries;
    r := Ok(());
  }

  lemma Regroup(a: seq<Byte>, b: seq<Byte>, c: seq<Byte>, d: seq<Byte>)
    ensures a + (b + c) + d == a + (b + (c + d))
  {
  }

  method WriteState(s: Serializer, violation: bool, known: seq<KnownEntry>, last: seq<LastEntry>) returns (r: Result<()>)
    requires s.Valid() && s.Written() == []
    modifies s`pos, s.result
    ensures s.Valid()
    ensures FileSize(|known|, |last|) <= s.result.Length ==> r.Ok? && s.Written() == FileBytes(violation, known, last)
  {
    hide ToBytes, AllKnownBytes, AllLastBytes, Header;
    var _ :- s.WriteString(Header());
    var _ :- s.WriteData([if violation then 1 else 0]);
    var _ :- WriteKnownVersions(s, known);
    r := WriteLastUpdateClientIds(s, last);
    FileIs(violation, known, last);
  }

  lemma FileIs(violation: bool, known: seq<KnownEntry>, last: seq<LastEntry>)
    ensures FileBytes(violation, known, last) ==
            [] + (Header() + [0]) + [if violation then 1 else 0] + (ToBytes(|known|, 8) + AllKnownBytes(known)) + (ToBytes(|last|, 8) + AllLastBytes(last))
    ensures |FileBytes(violation, known, last)| == FileSize(|known|, |last|)
  {
  }

  /** _saveStateFile. The size computed in advance is the size written, so that saving always
      succeeds, and loading the file gives back the state, in whatever order it was written. */
  method SaveStateFile(violation: bool, v: Versions) returns (r: Result<seq<Byte>>)
    requires FileSize(|v.known|, |v.last|) < U64_SIZE
    ensures r.Ok? && |r.value| == FileSize(|v.known|, |v.last|) && ParseFile(r.value) == Ok((violation, v))
  {
    hide Lists, FileBytes, ParseFile;
    var s := new Serializer(FileSize(|v.known|, |v.last|));
    var known := Listing(v.known);
    var last := Listing(v.last);
    var written := WriteState(s, violation, known, last);
    FileIs(violation, known, last);
    RoundTrip(violation, known, last, v);
    match written
    case Ok(_) => r := s.Finished();
    case Err(e) => r := Err(e);
  }
}
