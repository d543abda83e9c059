/** Model of ParallelAccessStore.h: references to one open resource per key, counted. Each method
    is one critical section of the mutex, so a run of any number of threads is a sequence of
    calls. */
module ParallelAccess {
  import opened Bytes

  type Key = nat
  type Resource = nat   // an identity, the address of the object

  datatype OpenResource = OpenResource(resource: Resource, refCount: nat)

  type Open = map<Key, OpenResource>

  /** A remove that waits for a resource, and the resource once it has been handed over. */
  type Promises = map<Key, Option<Resource>>

  /** The references that exist, each with the key and the resource it was given. */
  type References = multiset<(Key, Resource)>

  /** A key is open exactly as long as a reference exists, the count is the number of references,
      and all of them share the one resource. */
  ghost predicate Counts(open: Open, refs: References) {
    && (forall k | k in open :: open[k].refCount > 0 && open[k].refCount == refs[(k, open[k].resource)])
    && (forall e | e in refs :: e.0 in open && open[e.0].resource == e.1)
  }

  lemma OpenIffReferenced(open: Open, refs: References, k: Key)
    requires Counts(open, refs)
    ensures k in open <==> exists r: Resource :: (k, r) in refs
    ensures forall r: Resource, r': Resource :: (k, r) in refs && (k, r') in refs ==> r == r'
  {
  }

  /** One more reference to the open resource of the key, or the first one to `r`. */
  function Referenced(open: Open, k: Key, r: Resource): Open {
    open[k := if k in open then open[k].(refCount := open[k].refCount + 1) else OpenResource(r, 1)]
  }

  /** One reference less. The last one closes the key. */
  function Released(open: Open, k: Key): Open
    requires k in open && open[k].refCount > 0
  {
    if open[k].refCount == 1 then open - {k} else open[k := open[k].(refCount := open[k].refCount - 1)]
  }

  lemma ReferencedCounts(open: Open, refs: References, k: Key, r: Resource)
    requires Counts(open, refs) && (k in open ==> r == open[k].resource)
    ensures Counts(Referenced(open, k, r), refs + multiset{(k, r)})
  {
  }

  lemma ReleasedCounts(open: Open, refs: References, k: Key, r: Resource)
    requires Counts(open, refs) && (k, r) in refs
    ensures k in open && open[k].resource == r && open[k].refCount == refs[(k, r)] > 0
    ensures Counts(Released(open, k), refs - multiset{(k, r)})
  {
  }

  class ParallelAccessStore {
    var openResources: Open
    var resourcesToRemove: Promises
    ghost var references: References

    ghost predicate Valid()
      reads this
    {
      Counts(openResources, references)
    }

    constructor ()
      ensures Valid() && openResources == map[] && resourcesToRemove == map[] && references == multiset{}
    {
      openResources, resourcesToRemove, references := map[], map[], multiset{};
    }

    method IsOpened(key: Key) returns (r: bool)
      requires Valid()
      ensures r <==> exists x: Resource :: (key, x) in references
    {
      OpenIffReferenced(openResources, references, key);
      r := key in openResources;
    }

    /** _add, on a resource that is not in the map yet. */
    method Add(key: Key, resource: Resource) returns (r: Result<Resource>)
      requires Valid()
      modifies this`openResources, this`references
      ensures Valid() && (r.Err? <==> exists x: Resource :: (key, x) in old(references))
      ensures r.Ok? ==> r.value == resource && references == old(references) + multiset{(key, resource)}
      ensures r.Err? ==> references == old(references) && openResources == old(openResources)
    {
      OpenIffReferenced(openResources, references, key);
      if key in openResources {
        return Err("Inserting failed. Already exists.");
      }
      ReferencedCounts(openResources, references, key, resource);
      openResources := openResources[key := OpenResource(resource, 1)];
      references := references + multiset{(key, resource)};
      r := Ok(resource);
    }

    /** Another reference to an open resource. */
    method GetReference(key: Key) returns (r: Resource)
      requires Valid() && key in openResources
      modifies this`openResources, this`references
      ensures Valid() && (key, r) in old(references) && references == old(references) + multiset{(key, r)}
    {
      r := openResources[key].resource;
      ReferencedCounts(openResources, references, key, r);
      references := references + multiset{(key, r)};
      openResources := openResources[key := openResources[key].(refCount := openResources[key].refCount + 1)];
    }

    /** `base` is what the base store would load. It is asked only if there is no reference yet. */
    method Load(key: Key, base: Option<Resource>) returns (r: Option<Resource>)
      requires Valid()
      modifies this`openResources, this`references
      ensures Valid()
      ensures r.None? <==> base.None? && !exists x: Resource :: (key, x) in old(references)
      ensures references == if r.Some? then old(references) + multiset{(key, r.value)} else old(references)
      ensures r.Some? ==> (key, r.value) in old(references) || (r == base && !exists x: Resource :: (key, x) in old(references))
    {
      OpenIffReferenced(openResources, references, key);
      if key in openResources {
        var x := GetReference(key);
        return Some(x);
      }
      if base.None? {
        return None;
      }
      var _ := Add(key, base.value);
      r := base;
    }

    method LoadOrAdd(key: Key, added: Resource) returns (r: Resource)
      requires Valid()
      modifies this`openResources, this`references
      ensures Valid() && references == old(references) + multiset{(key, r)}
      ensures (key, r) in old(references) || (r == added && !exists x: Resource :: (key, x) in old(references))
    {
      OpenIffReferenced(openResources, references, key);
      if key in openResources {
        r := GetReference(key);
      } else {
        var _ := Add(key, added);
        r := added;
      }
    }

    /** The first part of remove: _resourceToRemoveFuture. */
    method AddPromise(key: Key) returns (r: Result<()>)
      modifies this`resourcesToRemove
      ensures r.Err? <==> key in old(resourcesToRemove)
      ensures resourcesToRemove == if r.Ok? then old(resourcesToRemove)[key := None] else old(resourcesToRemove)
    {
      if key in resourcesToRemove {
        return Err("Inserting failed");
      }
      resourcesToRemove := resourcesToRemove[key := None];
      r := Ok(());
    }

    /** The destructor of a reference. The assertion that the key is found does not fail. The last
        reference hands the resource over to a waiting remove, if there is one, and fails if the
        remove already has one. */
    method Release(key: Key, ghost resource: Resource) returns (r: Result<()>)
      requires Valid() && (key, resource) in references
      modifies this
      ensures r.Err? <==> old(references)[(key, resource)] == 1 && key in old(resourcesToRemove) && old(resourcesToRemove)[key].Some?
      ensures r.Ok? ==> Valid() && references == old(references) - multiset{(key, resource)}
      ensures r.Ok? ==> (key in openResources <==> (key, resource) in references)
      ensures r.Ok? && (key, resource) !in references && key in old(resourcesToRemove) ==>
                resourcesToRemove == old(resourcesToRemove)[key := Some(resource)]
      ensures (key, resource) in references || key !in old(resourcesToRemove) ==> resourcesToRemove == old(resourcesToRemove)
    {
      hide Counts;
      ReleasedCounts(openResources, references, key, resource);
      if key !in openResources {
        return Err("Didn't find key");
      }
      var n := openResources[key].refCount - 1;
      if n == 0 {
        if key in resourcesToRemove {
          if resourcesToRemove[key].Some? {
            return Err("promise already satisfied");
          }
          resourcesToRemove := resourcesToRemove[key := Some(openResources[key].resource)];
        }
        openResources := openResources - {key};
      } else {
        openResources := openResources[key := openResources[key].(refCount := n)];
      }
      references := references - multiset{(key, resource)};
      r := Ok(());
    }
  }
}
