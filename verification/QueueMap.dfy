/** Model of QueueMap.h: a hash map whose entries are threaded on a doubly linked ring through
    a sentinel, so that it is a queue and a map at once. */
module QueueMap {
  import opened Bytes

  // ----- The insertion-ordered sequence of distinct keys that the ring represents

  type Items<K, V> = seq<(K, V)>

  ghost predicate DistinctKeys<K, V>(s: Items<K, V>) {
    forall i, j :: 0 <= i < j < |s| ==> s[i].0 != s[j].0
  }

  function Keys<K, V>(s: Items<K, V>): set<K> {
    set i | 0 <= i < |s| :: s[i].0
  }

  function Find<K(==), V>(s: Items<K, V>, k: K): (r: Option<V>)
    ensures r.None? <==> forall i :: 0 <= i < |s| ==> s[i].0 != k
    ensures r.Some? ==> (k, r.value) in s
  {
    if s == [] then None
    else if s[0].0 == k then Some(s[0].1)
    else Find(s[1..], k)
  }

  /** The sequence without its entry for `k`; the others keep their order. */
  function Removed<K(==), V>(s: Items<K, V>, k: K): (r: Items<K, V>)
    ensures forall e :: e in r ==> e in s
  {
    if s == [] then []
    else if s[0].0 == k then s[1..]
    else [s[0]] + Removed(s[1..], k)
  }

  lemma KeysCons<K, V>(e: (K, V), s: Items<K, V>)
    ensures Keys([e] + s) == {e.0} + Keys(s)
    ensures DistinctKeys(s) && e.0 !in Keys(s) ==> DistinctKeys([e] + s)
  {
    var whole := [e] + s;
    assert whole[0] == e && whole[1..] == s;
    forall i | 1 <= i < |whole| ensures whole[i].0 in Keys(s) {
      assert whole[i] == s[i - 1];
    }
    forall i | 0 <= i < |s| ensures s[i].0 in Keys(whole) {
      assert whole[i + 1] == s[i];
    }
    if DistinctKeys(s) && e.0 !in Keys(s) {
      forall i, j | 0 <= i < j < |whole| ensures whole[i].0 != whole[j].0 {
        assert whole[j] == s[j - 1] && (i == 0 || whole[i] == s[i - 1]);
      }
    }
  }

  lemma KeysAppend<K, V>(s: Items<K, V>, e: (K, V))
    ensures Keys(s + [e]) == Keys(s) + {e.0}
    ensures DistinctKeys(s) && e.0 !in Keys(s) ==> DistinctKeys(s + [e])
  {
    var whole := s + [e];
    assert forall i :: 0 <= i < |s| ==> whole[i] == s[i];
    assert whole[|s|] == e;
  }

  lemma {:induction false} RemovedAt<K, V>(s: Items<K, V>, i: nat)
    requires i < |s| && DistinctKeys(s)
    ensures Removed(s, s[i].0) == s[..i] + s[i + 1..]
    ensures Find(s, s[i].0) == Some(s[i].1)
  {
    if i == 0 {
      assert s[..0] == [];
    } else {
      var t := s[1..];
      assert s[0].0 != s[i].0 && t[i - 1] == s[i];
      RemovedAt(t, i - 1);
      CutOut(s, i);
    }
  }

  lemma CutOut<X>(s: seq<X>, i: nat)
    requires 0 < i < |s|
    ensures [s[0]] + (s[1..][..i - 1] + s[1..][i..]) == s[..i] + s[i + 1..]
  {
    assert [s[0]] + s[1..][..i - 1] == s[..i];
    assert s[1..][i..] == s[i + 1..];
  }

  lemma {:induction false} RemovedAbsent<K, V>(s: Items<K, V>, k: K)
    requires k !in Keys(s)
    ensures Removed(s, k) == s && Find(s, k) == None
  {
    if s != [] {
      assert s[0].0 in Keys(s);
      forall i | 0 <= i < |s[1..]| ensures s[1..][i].0 in Keys(s) {
        assert s[1..][i] == s[i + 1];
      }
      assert k !in Keys(s[1..]);
      RemovedAbsent(s[1..], k);
    }
  }

  /** As a map: removal deletes exactly one key and keeps every other binding. */
  lemma {:induction false} RemovedIsDeletion<K, V>(s: Items<K, V>, k: K)
    requires DistinctKeys(s)
    ensures DistinctKeys(Removed(s, k)) && Keys(Removed(s, k)) == Keys(s) - {k}
    ensures forall q | q != k :: Find(Removed(s, k), q) == Find(s, q)
    ensures Find(Removed(s, k), k) == None
    ensures |Removed(s, k)| == |s| - if k in Keys(s) then 1 else 0
  {
    if s != [] {
      assert forall i :: 1 <= i < |s| ==> s[1..][i - 1] == s[i];
      assert Keys(s) == {s[0].0} + Keys(s[1..]);
      if s[0].0 == k {
        assert k !in Keys(s[1..]);
        RemovedAbsent(s[1..], k);
      } else {
        RemovedIsDeletion(s[1..], k);
        var r := Removed(s[1..], k);
        KeysCons(s[0], r);
        assert ([s[0]] + r)[1..] == r;
        assert s[0].0 !in Keys(s[1..]);
      }
    }
  }

  // ----- The ring

  class Entry<K(==), V> {
    var prev: Entry<K, V>
    var next: Entry<K, V>
    const key: Option<K>     // none in the sentinel; set once when the entry is created
    const value: Option<V>

    constructor Sentinel()
      ensures prev == this && next == this && key == None && value == None
    {
      prev, next, key, value := this, this, None, None;
    }

    constructor (prev_: Entry<K, V>, next_: Entry<K, V>, key_: K, value_: V)
      ensures prev == prev_ && next == next_ && key == Some(key_) && value == Some(value_)
    {
      prev, next, key, value := prev_, next_, Some(key_), Some(value_);
    }
  }

  /** A doubly linked cycle of distinct entries. */
  ghost predicate IsRing<K, V>(ring: seq<Entry<K, V>>)
    reads ring
  {
    && ring != []
    && (forall i, j :: 0 <= i < j < |ring| ==> ring[i] != ring[j])
    && (forall i {:trigger ring[i].next} :: 0 <= i < |ring| - 1 ==> ring[i].next == ring[i + 1])
    && (forall i {:trigger ring[i].prev} :: 1 <= i < |ring| ==> ring[i].prev == ring[i - 1])
    && ring[|ring| - 1].next == ring[0]
    && ring[0].prev == ring[|ring| - 1]
  }

  ghost predicate Holds<K, V>(e: Entry<K, V>, item: (K, V)) {
    e.key == Some(item.0) && e.value == Some(item.1)
  }

  ghost predicate Stores<K, V>(entries: map<K, Entry<K, V>>, k: K, e: Entry<K, V>) {
    k in entries && entries[k] == e
  }

  /** The hash map, the ring (the sentinel, then the entries from oldest to newest) and the
      abstract contents agree. */
  ghost predicate Agrees<K, V>(entries: map<K, Entry<K, V>>, ring: seq<Entry<K, V>>, contents: Items<K, V>)
  {
    && |ring| == |contents| + 1
    && (forall i :: 1 <= i < |ring| ==> Holds(ring[i], contents[i - 1]) && Stores(entries, contents[i - 1].0, ring[i]))
    && entries.Keys == Keys(contents)
    && DistinctKeys(contents)
  }

  lemma AgreesAppended<K, V>(entries: map<K, Entry<K, V>>, ring: seq<Entry<K, V>>, contents: Items<K, V>,
                             key: K, value: V, e: Entry<K, V>)
    requires Agrees(entries, ring, contents) && key !in entries
    requires e.key == Some(key) && e.value == Some(value)
    ensures Agrees(entries[key := e], ring + [e], contents + [(key, value)])
  {
    KeysAppend(contents, (key, value));
    assert forall i :: 0 <= i < |contents| ==> contents[i].0 in Keys(contents);
  }

  lemma StillAgrees<K, V>(entries: map<K, Entry<K, V>>, ring: seq<Entry<K, V>>, contents: Items<K, V>, i: nat, j: nat)
    requires Agrees(entries, ring, contents) && 1 <= i < |ring| && 1 <= j < |ring| - 1
    ensures var c, r := contents[..i - 1] + contents[i..], ring[..i] + ring[i + 1..];
            Holds(r[j], c[j - 1]) && Stores(entries - {contents[i - 1].0}, c[j - 1].0, r[j])
  {
  }

  lemma HeldValue<K, V>(e: Entry<K, V>, item: (K, V))
    ensures Holds(e, item) ==> e.value == Some(item.1)
  {
  }

  lemma AgreesRemoved<K, V>(entries: map<K, Entry<K, V>>, ring: seq<Entry<K, V>>, contents: Items<K, V>, i: nat)
    requires Agrees(entries, ring, contents) && 1 <= i < |ring|
    ensures var k := contents[i - 1].0;
            && Agrees(entries - {k}, ring[..i] + ring[i + 1..], Removed(contents, k))
            && Find(contents, k) == ring[i].value
  {
    hide Keys, DistinctKeys, Removed, Find, Holds, Stores;
    var k := contents[i - 1].0;
    var c, r := contents[..i - 1] + contents[i..], ring[..i] + ring[i + 1..];
    RemovedAt(contents, i - 1);
    RemovedIsDeletion(contents, k);
    HeldValue(ring[i], contents[i - 1]);
    forall j | 1 <= j < |r| ensures Holds(r[j], c[j - 1]) && Stores(entries - {k}, c[j - 1].0, r[j]) {
      StillAgrees(entries, ring, contents, i, j);
    }
  }

  class QueueMap<K(==), V> {
    var entries: map<K, Entry<K, V>>
    const sentinel: Entry<K, V>
    ghost var ring: seq<Entry<K, V>>
    ghost var Contents: Items<K, V>
    ghost var Repr: set<object>

    ghost predicate Valid()
      reads this, Repr
      ensures Valid() ==> this in Repr
    {
      && this in Repr && (forall n :: n in ring ==> n in Repr)
      && IsRing(ring) && ring[0] == sentinel && Agrees(entries, ring, Contents)
    }

    constructor ()
      ensures Valid() && fresh(Repr) && Contents == []
    {
      var s := new Entry<K, V>.Sentinel();
      entries, sentinel, ring, Contents := map[], s, [s], [];
      Repr := {this, s};
    }

    /** Links `e`, which already points to its neighbours, in front of the sentinel. */
    static method AppendToQueue(s: Entry<K, V>, e: Entry<K, V>, ghost ring: seq<Entry<K, V>>)
      requires IsRing(ring) && ring[0] == s && e !in ring
      requires e.prev == s.prev && e.next == s
      modifies s.prev`next, s`prev
      ensures IsRing(ring + [e])
    {
      s.prev.next := e;
      s.prev := e;
    }

    /** Unlinks the entry at ring position `i`. */
    static method RemoveFromQueue(e: Entry<K, V>, ghost ring: seq<Entry<K, V>>, ghost i: nat)
      requires IsRing(ring) && 1 <= i < |ring| && ring[i] == e
      modifies e.prev`next, e.next`prev
      ensures IsRing(ring[..i] + ring[i + 1..])
    {
      e.prev.next := e.next;
      e.next.prev := e.prev;
    }

    /** What `Valid` says, as facts about the ring and about the map. */
    ghost predicate Parts()
      reads this, Repr
    {
      && this in Repr && ring != [] && ring[0] == sentinel && (forall n :: n in ring ==> n in Repr)
      && IsRing(ring) && Agrees(entries, ring, Contents)
    }

    lemma ValidIsParts()
      ensures Valid() <==> Parts()
    {
    }

    lemma Neighbours(i: nat)
      requires Parts() && i < |ring|
      ensures ring[i].prev in ring && ring[i].next in ring
    {
    }

    lemma KeysAgree()
      requires Parts()
      ensures entries.Keys == Keys(Contents)
    {
    }

    method Push(key: K, value: V) returns (ok: bool)
      requires Valid()
      modifies Repr
      ensures Valid() && fresh(Repr - old(Repr))
      ensures ok == (key !in Keys(old(Contents)))
      ensures Contents == if ok then old(Contents) + [(key, value)] else old(Contents)
    {
      hide Agrees, IsRing, Valid;
      ValidIsParts();
      KeysAgree();
      if key in entries {
        return false;
      }
      Neighbours(0);
      var e := new Entry(sentinel.prev, sentinel, key, value);
      AppendToQueue(sentinel, e, ring);
      AgreesAppended(entries, ring, Contents, key, value, e);
      entries := entries[key := e];
      ring := ring + [e];
      Contents := Contents + [(key, value)];
      Repr := Repr + {e};
      ok := true;
      ValidIsParts();
    }

    /** Removes the entry at ring position `i` from the ring and from the map. */
    method RemoveEntry(e: Entry<K, V>, key: K, ghost i: nat)
      requires Valid() && 1 <= i < |ring| && e == ring[i] && key == Contents[i - 1].0
      modifies Repr
      ensures Valid() && Repr == old(Repr)
      ensures Contents == Removed(old(Contents), key)
    {
      hide Agrees, IsRing, Valid;
      ValidIsParts();
      AgreesRemoved(entries, ring, Contents, i);
      Neighbours(i);
      RemoveFromQueue(e, ring, i);
      entries := entries - {key};
      ring := ring[..i] + ring[i + 1..];
      Contents := Removed(Contents, key);
      ValidIsParts();
    }

    method PopKey(key: K) returns (r: Option<V>)
      requires Valid()
      modifies Repr
      ensures Valid() && Repr == old(Repr)
      ensures r == Find(old(Contents), key)
      ensures Contents == Removed(old(Contents), key)
    {
      if key !in entries {
        RemovedAbsent(Contents, key);
        return None;
      }
      ghost var i :| 0 <= i < |Contents| && Contents[i].0 == key;
      RemovedAt(Contents, i);
      var e := entries[key];
      ghost var node := ring[i + 1];
      assert Holds(node, Contents[i]) && Stores(entries, key, node);
      r := e.value;
      RemoveEntry(e, key, i + 1);
    }

    lemma OldestIsNext()
      requires Valid()
      ensures sentinel.next == if Contents == [] then sentinel else ring[1]
      ensures Contents != [] ==> ring[1] != sentinel
    {
    }

    method Pop() returns (r: Option<V>)
      requires Valid()
      modifies Repr
      ensures Valid() && Repr == old(Repr)
      ensures old(Contents) == [] ==> r == None && Contents == []
      ensures old(Contents) != [] ==> r == Some(old(Contents)[0].1) && Contents == old(Contents)[1..]
    {
      OldestIsNext();
      if sentinel.next == sentinel {
        return None;
      }
      RemovedAt(Contents, 0);
      r := PopKey(sentinel.next.key.value);
    }

    method PeekKey() returns (r: Option<K>)
      requires Valid()
      ensures r == if Contents == [] then None else Some(Contents[0].0)
    {
      OldestIsNext();
      r := if sentinel.next == sentinel then None else sentinel.next.key;
    }

    method Peek() returns (r: Option<V>)
      requires Valid()
      ensures r == if Contents == [] then None else Some(Contents[0].1)
    {
      OldestIsNext();
      r := if sentinel.next == sentinel then None else sentinel.next.value;
    }

    method Size() returns (n: nat)
      requires Valid()
      ensures n == |Contents|
    {
      KeysSize(Contents);
      n := |entries|;
    }
  }

  lemma {:induction false} KeysSize<K, V>(s: Items<K, V>)
    requires DistinctKeys(s)
    ensures |Keys(s)| == |s|
  {
    if s != [] {
      KeysSize(s[1..]);
      assert forall i :: 1 <= i < |s| ==> s[1..][i - 1] == s[i];
      assert Keys(s) == {s[0].0} + Keys(s[1..]);
      assert s[0].0 !in Keys(s[1..]);
    }
  }
}
