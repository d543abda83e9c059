/** Model of CachingBlockStore2.cpp as one thread sees it: a write-back cache, kept in a QueueMap,
    in front of a base store. Together they must look like one plain map. */
module CachingBlockStore {
  import opened Bytes
  import opened QueueMap
  import opened CacheProtocol
  import opened CacheProofs

  type Cached = Items<Key, Block>

  /** What the store holds for `k`: the cached block if there is one. */
  function Value(base: Store, c: Cached, k: Key): Option<Data> {
    var b := Find(c, k);
    if b.Some? then Some(b.value.data) else Lookup(base, k)
  }

  /** The base overridden by the cache. */
  function Overridden(base: Store, c: Cached): (m: Store)
    ensures forall k: Key :: Lookup(m, k) == Value(base, c, k)
  {
    var m := map k | k in base.Keys + Keys(c) && Value(base, c, k).Some? :: Value(base, c, k).value;
    m
  }

  /** A clean block is the one in the base store, and `notInBase` has the cached keys that the base
      store lacks. */
  predicate KeyOk(base: Store, notInBase: set<Key>, c: Cached, k: Key) {
    var b := Find(c, k);
    if b.Some? then (!b.value.dirty ==> Lookup(base, k) == Some(b.value.data)) && (k in notInBase <==> k !in base)
    else k !in notInBase
  }

  /** This holds of all keys but the one that an operation has popped. */
  ghost predicate Consistent(base: Store, notInBase: set<Key>, c: Cached, popped: set<Key>) {
    && DistinctKeys(c) && |c| <= MAX_ENTRIES
    && (forall k: Key :: k !in popped ==> KeyOk(base, notInBase, c, k))
    && (forall k: Key :: k in popped ==> Find(c, k).None?)
  }

  /** Nothing has changed as far as a caller can tell. */
  ghost predicate SameValues(base: Store, notInBase: set<Key>, c: Cached, base': Store, notInBase': set<Key>, c': Cached, popped: set<Key>) {
    && (forall k: Key :: Value(base', c', k) == Value(base, c, k))
    && (forall k: Key :: k in popped ==> (k in notInBase <==> k in notInBase'))
  }

  /** Evicting the oldest entry, as another key sees it. */
  lemma EvictedOther(base: Store, notInBase: set<Key>, c: Cached, y: Key)
    requires c != [] && y != c[0].0
    ensures var k, b := c[0].0, c[0].1;
            var base', notInBase' := WriteBack(base, k, b), notInBase - {k};
            && Find(c[1..], y) == Find(c, y) && Value(base', c[1..], y) == Value(base, c, y)
            && (KeyOk(base', notInBase', c[1..], y) <==> KeyOk(base, notInBase, c, y))
  {
  }

  /** And as its own key sees it: the base store has the value now. */
  lemma EvictedSelf(base: Store, notInBase: set<Key>, c: Cached)
    requires c != [] && DistinctKeys(c) && KeyOk(base, notInBase, c, c[0].0)
    ensures var k, b := c[0].0, c[0].1;
            var base', notInBase' := WriteBack(base, k, b), notInBase - {k};
            && Find(c[1..], k).None? && Value(base', c[1..], k) == Value(base, c, k)
            && KeyOk(base', notInBase', c[1..], k) && k in base'
  {
    DistinctTail(c);
    assert Find(c, c[0].0) == Some(c[0].1);
    hide DistinctKeys;
  }

  lemma EvictOldest(base: Store, notInBase: set<Key>, c: Cached, popped: set<Key>)
    requires Consistent(base, notInBase, c, popped) && c != []
    ensures var k, b := c[0].0, c[0].1;
            var base', notInBase' := WriteBack(base, k, b), notInBase - {k};
            && Consistent(base', notInBase', c[1..], popped)
            && SameValues(base, notInBase, c, base', notInBase', c[1..], popped)
            && k in base'
  {
    var k := c[0].0;
    var base', notInBase', c' := WriteBack(base, k, c[0].1), notInBase - {k}, c[1..];
    assert Find(c, k).Some?;
    assert k !in popped && KeyOk(base, notInBase, c, k);
    DistinctTail(c);
    hide Find, Value, KeyOk, WriteBack, DistinctKeys;
    EvictedSelf(base, notInBase, c);
    forall y: Key ensures Value(base', c', y) == Value(base, c, y) && (Find(c, y).None? ==> Find(c', y).None?)
                       && (KeyOk(base, notInBase, c, y) ==> KeyOk(base', notInBase', c', y))
    {
      if y != k {
        EvictedOther(base, notInBase, c, y);
      }
    }
  }

  lemma SameValuesTwice(b1: Store, n1: set<Key>, c1: Cached, b2: Store, n2: set<Key>, c2: Cached, b3: Store, n3: set<Key>, c3: Cached, popped: set<Key>)
    requires SameValues(b1, n1, c1, b2, n2, c2, popped) && SameValues(b2, n2, c2, b3, n3, c3, popped)
    ensures SameValues(b1, n1, c1, b3, n3, c3, popped)
  {
  }

  lemma PopKeeps(base: Store, notInBase: set<Key>, c: Cached, k: Key)
    requires Consistent(base, notInBase, c, {})
    ensures Consistent(base, notInBase, Removed(c, k), {k})
    ensures forall y: Key :: y != k ==> Value(base, Removed(c, k), y) == Value(base, c, y)
    ensures KeyOk(base, notInBase, c, k)
  {
    RemovedIsDeletion(c, k);
    hide Removed, DistinctKeys;
    forall y: Key | y != k ensures KeyOk(base, notInBase, Removed(c, k), y) {
      assert KeyOk(base, notInBase, c, y);
    }
  }

  /** Pushing a block whose key satisfies the invariant ends the operation. */
  lemma PushKeeps(base: Store, notInBase: set<Key>, c: Cached, k: Key, b: Block)
    requires Consistent(base, notInBase, c, {k}) && |c| < MAX_ENTRIES
    ensures k !in Keys(c)
    ensures var c' := c + [(k, b)];
            && (Consistent(base, notInBase, c', {}) <==>
                  (!b.dirty ==> Lookup(base, k) == Some(b.data)) && (k in notInBase <==> k !in base))
            && forall y: Key :: Value(base, c', y) == if y == k then Some(b.data) else Value(base, c, y)
  {
    var c' := c + [(k, b)];
    KeysAppend(c, (k, b));
    forall y: Key ensures Find(c', y) == if y == k then Some(b) else Find(c, y) {
      FindAppended(c, k, b, y);
    }
    hide Find, DistinctKeys, Keys;
    forall y: Key | y != k ensures KeyOk(base, notInBase, c', y) {
      assert KeyOk(base, notInBase, c, y);
    }
    assert KeyOk(base, notInBase, c', k) <==> (!b.dirty ==> Lookup(base, k) == Some(b.data)) && (k in notInBase <==> k !in base);
  }

  lemma ChangePopped(base: Store, notInBase: set<Key>, c: Cached, k: Key, base': Store, notInBase': set<Key>)
    requires Consistent(base, notInBase, c, {k}) && SameBut(base, base', k) && notInBase' - {k} == notInBase - {k}
    ensures Consistent(base', notInBase', c, {k})
    ensures forall y: Key :: y != k ==> Value(base', c, y) == Value(base, c, y)
  {
    forall y: Key | y != k ensures KeyOk(base', notInBase', c, y) {
      assert KeyOk(base, notInBase, c, y);
      assert y in notInBase <==> y in notInBase - {k};
      assert y in notInBase' <==> y in notInBase' - {k};
    }
  }

  /** A popped key that is not pushed back. */
  lemma DropPopped(base: Store, notInBase: set<Key>, c: Cached, k: Key)
    requires Consistent(base, notInBase, c, {k}) && k !in notInBase
    ensures Consistent(base, notInBase, c, {})
  {
  }

  /** Two stores with the same value for every key. */
  lemma SameStore(m: Store, base: Store, c: Cached)
    requires forall k: Key :: Lookup(m, k) == Value(base, c, k)
    ensures m == Overridden(base, c)
  {
    hide Value, Overridden;
    SameMap(m, Overridden(base, c));
  }

  /** The key has just been pushed. */
  ghost predicate JustPushed(base: Store, notInBase: set<Key>, c: Cached, k: Key, b: Block) {
    && c != [] && |c| <= MAX_ENTRIES && c[|c| - 1] == (k, b)
    && Consistent(base, notInBase, c[..|c| - 1], {k})
  }

  lemma PushedIs(base: Store, notInBase: set<Key>, c: Cached, k: Key, b: Block)
    requires Consistent(base, notInBase, c, {k}) && |c| < MAX_ENTRIES
    ensures k !in Keys(c) && JustPushed(base, notInBase, c + [(k, b)], k, b)
    ensures forall y: Key :: Value(base, c + [(k, b)], y) == if y == k then Some(b.data) else Value(base, c, y)
  {
  }

  /** The invariant holds again exactly if it holds of the pushed key. */
  lemma PushedIff(base: Store, notInBase: set<Key>, c: Cached, k: Key, b: Block)
    requires JustPushed(base, notInBase, c, k, b)
    ensures Consistent(base, notInBase, c, {}) <==>
              (!b.dirty ==> Lookup(base, k) == Some(b.data)) && (k in notInBase <==> k !in base)
  {
    hide Consistent;
    assert c == c[..|c| - 1] + [(k, b)];
    PushKeeps(base, notInBase, c[..|c| - 1], k, b);
  }

  lemma PushedRecorded(base: Store, notInBase: set<Key>, c: Cached, k: Key, b: Block)
    requires JustPushed(base, notInBase, c, k, b)
    ensures JustPushed(base, notInBase + {k}, c, k, b)
  {
  }

  /** Only the oldest entry has to go, and only from a full cache. */
  ghost function WithSpace(c: Cached): Cached {
    if |c| < MAX_ENTRIES then c else c[1..]
  }

  /** The block was cached last. */
  ghost predicate Newest(c: Cached, k: Key, b: Block) {
    c != [] && c[|c| - 1] == (k, b)
  }

  lemma PushedIsNewest(base: Store, notInBase: set<Key>, c: Cached, k: Key, b: Block)
    requires JustPushed(base, notInBase, c, k, b)
    ensures Newest(c, k, b)
  {
  }

  class CachingBlockStore {
    var base: Store
    var notInBase: set<Key>
    const cache: QueueMap<Key, Block>
    ghost var Repr: set<object>

    ghost predicate Owned()
      reads this, Repr
    {
      this in Repr && cache in Repr && cache.Repr <= Repr && this !in cache.Repr && cache.Valid()
    }

    ghost predicate Valid()
      reads this, Repr
    {
      Owned() && Consistent(base, notInBase, cache.Contents, {})
    }

    ghost function Contents(): Store
      reads this, Repr
      requires Owned()
    {
      Overridden(base, cache.Contents)
    }

    constructor (base_: Store)
      ensures Valid() && fresh(Repr) && Contents() == base_ && base == base_ && cache.Contents == []
    {
      base, notInBase := base_, {};
      cache := new QueueMap();
      new;
      Repr := {this, cache} + cache.Repr;
      SameStore(base_, base, cache.Contents);
    }

    /** ~CachedBlock */
    method Destroy(k: Key, b: Block)
      modifies this`base, this`notInBase
      ensures base == WriteBack(old(base), k, b) && notInBase == old(notInBase) - {k}
    {
      if b.dirty {
        base := base[k := b.data];
      }
      notInBase := notInBase - {k};
    }

    /** Cache::_deleteEntry */
    method DeleteEntry(ghost popped: set<Key>)
      requires Owned() && Consistent(base, notInBase, cache.Contents, popped) && cache.Contents != []
      modifies Repr
      ensures Owned() && fresh(Repr - old(Repr))
      ensures Consistent(base, notInBase, cache.Contents, popped) && cache.Contents == old(cache.Contents)[1..]
      ensures SameValues(old(base), old(notInBase), old(cache.Contents), base, notInBase, cache.Contents, popped)
    {
      hide Consistent, SameValues;
      EvictOldest(base, notInBase, cache.Contents, popped);
      var key := cache.PeekKey();
      var value := cache.Pop();
      Destroy(key.value, value.value);
    }

    /** Cache::pop */
    method Pop(k: Key) returns (r: Option<Block>)
      requires Valid()
      modifies Repr
      ensures Owned() && Repr == old(Repr) && base == old(base) && notInBase == old(notInBase)
      ensures r == Find(old(cache.Contents), k) && KeyOk(base, notInBase, old(cache.Contents), k)
      ensures Consistent(base, notInBase, cache.Contents, {k})
      ensures forall y: Key :: y != k ==> Value(base, cache.Contents, y) == Value(base, old(cache.Contents), y)
    {
      hide Consistent, Find, Removed, Value;
      PopKeeps(base, notInBase, cache.Contents, k);
      r := cache.PopKey(k);
    }

    /** Cache::_makeSpaceForEntry */
    method MakeSpaceForEntry(ghost popped: set<Key>)
      requires Owned() && Consistent(base, notInBase, cache.Contents, popped)
      modifies Repr
      ensures Owned() && fresh(Repr - old(Repr)) && Consistent(base, notInBase, cache.Contents, popped)
      ensures |cache.Contents| < MAX_ENTRIES && cache.Contents == WithSpace(old(cache.Contents))
      ensures SameValues(old(base), old(notInBase), old(cache.Contents), base, notInBase, cache.Contents, popped)
    {
      var n := cache.Size();
      SameValuesAtFirst(base, notInBase, cache.Contents, popped);
      AtMostMax(base, notInBase, cache.Contents, popped);
      hide Consistent, Value, SameValues;
      while n == MAX_ENTRIES
        invariant Owned() && fresh(Repr - old(Repr)) && Consistent(base, notInBase, cache.Contents, popped)
        invariant n == |cache.Contents| <= MAX_ENTRIES
        invariant cache.Contents == if n == MAX_ENTRIES then old(cache.Contents) else WithSpace(old(cache.Contents))
        invariant SameValues(old(base), old(notInBase), old(cache.Contents), base, notInBase, cache.Contents, popped)
        decreases n
      {
        ghost var b1, n1, c1 := base, notInBase, cache.Contents;
        DeleteEntry(popped);
        SameValuesTwice(old(base), old(notInBase), old(cache.Contents), b1, n1, c1, base, notInBase, cache.Contents, popped);
        n := cache.Size();
      }
    }

    /** Cache::push */
    method Push(k: Key, b: Block)
      requires Owned() && Consistent(base, notInBase, cache.Contents, {k})
      modifies Repr
      ensures Owned() && fresh(Repr - old(Repr)) && JustPushed(base, notInBase, cache.Contents, k, b)
      ensures cache.Contents == WithSpace(old(cache.Contents)) + [(k, b)]
      ensures Lookup(base, k) == old(Lookup(base, k)) && (k in notInBase <==> k in old(notInBase))
      ensures forall y: Key :: Value(base, cache.Contents, y) == if y == k then Some(b.data) else Value(old(base), old(cache.Contents), y)
    {
      PoppedValue(base, notInBase, cache.Contents, k);
      hide Consistent, Value, JustPushed;
      MakeSpaceForEntry({k});
      PoppedValue(base, notInBase, cache.Contents, k);
      PushedIs(base, notInBase, cache.Contents, k, b);
      var ok := cache.Push(k, b);
      Repr := Repr + cache.Repr;
    }

    /** The value is created unless it exists, and the answer says so, exactly if the block is
        cached or the base store does not have it. Otherwise the block of the base store is
        overridden, and recorded as not being in the base store. */
    method TryCreate(k: Key, data: Data) returns (ok: bool)
      requires Valid()
      modifies Repr
      ensures Owned() && fresh(Repr - old(Repr))
      ensures ok == (k !in Keys(old(cache.Contents)))
      ensures Contents() == if ok then old(Contents())[k := data] else old(Contents())
      ensures ok ==> Newest(cache.Contents, k, Block(data, true)) && k in notInBase
      ensures Lookup(base, k) == old(Lookup(base, k))
      ensures var fine := k in Keys(old(cache.Contents)) || k !in old(base);
              && (Valid() <==> fine)
              && (Created(ok) == Answer(old(Contents()), k, Op.TryCreate(data)) <==> fine)
    {
      hide Consistent, Value, Overridden, Keys, Find, JustPushed, QueueMap.Valid, Newest;
      ValueOfPopped(base, notInBase, cache.Contents, k);
      ghost var base0, c0 := base, cache.Contents;
      var popped := Pop(k);
      if popped.Some? {
        Push(k, popped.value);
        PushedIff(base, notInBase, cache.Contents, k, popped.value);
        Updated(base0, c0, base, cache.Contents, k, Some(popped.value.data));
        ok := false;
      } else {
        Push(k, Block(data, true));
        PushedIsNewest(base, notInBase, cache.Contents, k, Block(data, true));
        PushedRecorded(base, notInBase, cache.Contents, k, Block(data, true));
        notInBase := notInBase + {k};
        PushedIff(base, notInBase, cache.Contents, k, Block(data, true));
        Updated(base0, c0, base, cache.Contents, k, Some(data));
        ok := true;
      }
    }

    /** The error "wasn't found there" of the source does not occur. */
    method Remove(k: Key) returns (r: Result<bool>)
      requires Valid()
      modifies Repr
      ensures Valid() && Repr == old(Repr)
      ensures r.Ok? && Removal(r.value) == Answer(old(Contents()), k, Op.Remove)
      ensures Contents() == Effect(old(Contents()), k, Op.Remove)
    {
      hide Consistent, Value, Overridden, Keys, Find, QueueMap.Valid;
      ValueOfPopped(base, notInBase, cache.Contents, k);
      ghost var base0, c0 := base, cache.Contents;
      var popped := Pop(k);
      ghost var base1, n1 := base, notInBase;
      if popped.Some? {
        if k !in notInBase {
          var existed := k in base;
          base := base - {k};
          if !existed {
            return Err("wasn't found there");
          }
        }
        Destroy(k, popped.value.(dirty := false));
        r := Ok(true);
      } else {
        r := Ok(k in base);
        base := base - {k};
      }
      ChangePopped(base1, n1, cache.Contents, k, base, notInBase);
      PoppedValue(base, notInBase, cache.Contents, k);
      DropPopped(base, notInBase, cache.Contents, k);
      Updated(base0, c0, base, cache.Contents, k, None);
    }

    method Load(k: Key) returns (r: Option<Data>)
      requires Valid()
      modifies Repr
      ensures Valid() && fresh(Repr - old(Repr))
      ensures Loaded(r) == Answer(old(Contents()), k, Op.Load)
      ensures Contents() == old(Contents())
      ensures r.Some? ==> Newest(cache.Contents, k, if k in Keys(old(cache.Contents)) then Find(old(cache.Contents), k).value else Block(r.value, false))
      ensures r.None? ==> base == old(base) && notInBase == old(notInBase)
      ensures Lookup(base, k) == old(Lookup(base, k))
    {
      hide Consistent, Value, Overridden, Keys, Find, JustPushed, QueueMap.Valid, Newest;
      ValueOfPopped(base, notInBase, cache.Contents, k);
      ghost var base0, c0 := base, cache.Contents;
      var popped := Pop(k);
      if popped.None? {
        if k !in base {
          PoppedValue(base, notInBase, cache.Contents, k);
          DropPopped(base, notInBase, cache.Contents, k);
          Updated(base0, c0, base, cache.Contents, k, None);
          return None;
        }
        popped := Some(Block(base[k], false));
      }
      Push(k, popped.value);
      PushedIsNewest(base, notInBase, cache.Contents, k, popped.value);
      PushedIff(base, notInBase, cache.Contents, k, popped.value);
      Updated(base0, c0, base, cache.Contents, k, Some(popped.value.data));
      r := Some(popped.value.data);
    }

    method Store(k: Key, data: Data)
      requires Valid()
      modifies Repr
      ensures Valid() && fresh(Repr - old(Repr))
      ensures Contents() == Effect(old(Contents()), k, Op.Store(data))
      ensures Newest(cache.Contents, k, Block(data, k in Keys(old(cache.Contents))))
      ensures Lookup(base, k) == if k in Keys(old(cache.Contents)) then old(Lookup(base, k)) else Some(data)
    {
      hide Consistent, Value, Overridden, Keys, Find, JustPushed, QueueMap.Valid, Newest;
      ValueOfPopped(base, notInBase, cache.Contents, k);
      ghost var base0, c0 := base, cache.Contents;
      var popped := Pop(k);
      var b := Block(data, popped.Some?);
      if popped.None? {
        ChangePopped(base, notInBase, cache.Contents, k, base[k := data], notInBase);
        base := base[k := data];
      }
      Push(k, b);
      PushedIsNewest(base, notInBase, cache.Contents, k, b);
      PushedIff(base, notInBase, cache.Contents, k, b);
      Updated(base0, c0, base, cache.Contents, k, Some(data));
    }

    method NumBlocks() returns (n: nat)
      requires Valid()
      ensures n == |Contents()|
    {
      SplitKeys(base, notInBase, cache.Contents);
      n := |base| + |notInBase|;
      assert |base| == |base.Keys| && |Contents()| == |Contents().Keys|;
    }

    /** The ids given to the callback: every block once. */
    method ForEachBlock() returns (ids: seq<Key>)
      requires Valid()
      ensures NoDuplicates(ids) && forall k: Key :: k in ids <==> k in Contents()
    {
      SplitKeys(base, notInBase, cache.Contents);
      var cached := Listed(notInBase);
      var stored := Listed(base.Keys);
      DisjointAppend(cached, stored);
      ids := cached + stored;
    }

    /** Flushing empties the cache and makes the base store what the caller sees. */
    method Flush()
      requires Valid()
      modifies Repr
      ensures Valid() && fresh(Repr - old(Repr))
      ensures Contents() == old(Contents()) && base == Contents() && notInBase == {} && cache.Contents == []
    {
      ghost var base0, c0 := base, cache.Contents;
      SameValuesAtFirst(base, notInBase, cache.Contents, {});
      var n := cache.Size();
      hide Consistent, SameValues, Value, Overridden;
      while n > 0
        invariant Owned() && fresh(Repr - old(Repr)) && Consistent(base, notInBase, cache.Contents, {})
        invariant n == |cache.Contents|
        invariant SameValues(base0, old(notInBase), c0, base, notInBase, cache.Contents, {})
        decreases n
      {
        ghost var b1, n1, c1 := base, notInBase, cache.Contents;
        DeleteEntry({});
        SameValuesTwice(base0, old(notInBase), c0, b1, n1, c1, base, notInBase, cache.Contents, {});
        n := cache.Size();
      }
      FlushedStore(base0, old(notInBase), c0, base, notInBase);
    }
  }

  lemma AtMostMax(base: Store, notInBase: set<Key>, c: Cached, popped: set<Key>)
    requires Consistent(base, notInBase, c, popped)
    ensures |c| <= MAX_ENTRIES
  {
  }

  lemma SameValuesAtFirst(base: Store, notInBase: set<Key>, c: Cached, popped: set<Key>)
    ensures SameValues(base, notInBase, c, base, notInBase, c, popped)
  {
  }

  lemma FlushedStore(base: Store, notInBase: set<Key>, c: Cached, base': Store, notInBase': set<Key>)
    requires SameValues(base, notInBase, c, base', notInBase', [], {}) && Consistent(base', notInBase', [], {})
    ensures Overridden(base, c) == base' == Overridden(base', []) && notInBase' == {}
  {
    SameStore(base', base, c);
    SameStore(base', base', []);
    forall k: Key ensures k !in notInBase' {
      assert KeyOk(base', notInBase', [], k);
    }
  }

  /** The blocks are those of the base store and, apart from them, those of `notInBase`. */
  lemma SplitKeys(base: Store, notInBase: set<Key>, c: Cached)
    requires Consistent(base, notInBase, c, {})
    ensures Overridden(base, c).Keys == base.Keys + notInBase && base.Keys !! notInBase
  {
    var m := Overridden(base, c);
    forall k: Key ensures k in m <==> k in base || k in notInBase {
      assert Lookup(m, k) == Value(base, c, k);
      assert KeyOk(base, notInBase, c, k);
    }
    forall k: Key ensures !(k in base && k in notInBase) {
      assert KeyOk(base, notInBase, c, k);
    }
  }

  lemma DisjointAppend(a: seq<Key>, b: seq<Key>)
    requires NoDuplicates(a) && NoDuplicates(b) && forall k | k in b :: k !in a
    ensures NoDuplicates(a + b)
  {
    forall i, j | 0 <= i < j < |a + b| ensures (a + b)[i] != (a + b)[j] {
      if i < |a| <= j {
        assert b[j - |a|] in b && a[i] in a;
      }
    }
  }

  /** The elements of a set, in some order. */
  method Listed(s: set<Key>) returns (r: seq<Key>)
    ensures NoDuplicates(r) && forall k: Key :: k in r <==> k in s
  {
    r := [];
    var rest := s;
    while rest != {}
      invariant NoDuplicates(r) && rest <= s && forall k: Key :: k in r <==> k in s - rest
      decreases |rest|
    {
      var k :| k in rest;
      DisjointAppend(r, [k]);
      rest := rest - {k};
      r := r + [k];
    }
  }

  lemma ValueOfPopped(base: Store, notInBase: set<Key>, c: Cached, k: Key)
    ensures Value(base, c, k) == if k in Keys(c) then Some(Find(c, k).value.data) else Lookup(base, k)
    ensures Find(c, k).Some? <==> k in Keys(c)
    ensures Lookup(Overridden(base, c), k) == Value(base, c, k)
  {
  }

  /** The store after the value of one key has been set. */
  lemma Updated(base: Store, c: Cached, base': Store, c': Cached, k: Key, v: Option<Data>)
    requires forall y: Key :: Value(base', c', y) == if y == k then v else Value(base, c, y)
    ensures var m, m' := Overridden(base, c), Overridden(base', c');
            && (v.Some? ==> m' == m[k := v.value]) && (v.None? ==> m' == m - {k}) && (Lookup(m, k) == v ==> m' == m)
  {
    hide Value, Overridden;
    var m := Overridden(base, c);
    SameStore(if v.Some? then m[k := v.value] else m - {k}, base', c');
    if Lookup(m, k) == v {
      SameStore(m, base', c');
    }
  }

  lemma PoppedValue(base: Store, notInBase: set<Key>, c: Cached, k: Key)
    requires Consistent(base, notInBase, c, {k})
    ensures Value(base, c, k) == Lookup(base, k)
  {
  }
}
