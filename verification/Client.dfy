/** cache/cache.go and client.go: reads through the reconstruction LRU, and writes that invalidate it. */
module Client {
  import opened Values
  import opened Plain
  import opened Unstructured
  import opened Heaps
  import opened Decomposing
  import opened Refcounts
  import opened Meanings
  import opened DedupStores
  import opened Recency
  import opened Lru
  import opened Coherence

  class Cache {
    const store: DedupStore
    const reconstructLRU: LruCache?<Value>

    ghost function StoreFrame(): set<object> {
      {store, store.values, store.subtrees}
    }

    ghost function LruFrame(): set<object>
      reads reconstructLRU
    {
      if reconstructLRU == null then {} else reconstructLRU.Repr()
    }

    ghost predicate Valid()
      reads this, StoreFrame(), reconstructLRU, LruFrame()
    {
      && store.Valid()
      && (reconstructLRU != null ==> reconstructLRU.Valid())
      && StoreFrame() !! LruFrame()
    }

    /** The machine state this cache stands for. */
    ghost function C(): CacheState
      reads this, StoreFrame(), reconstructLRU, LruFrame()
    {
      if reconstructLRU == null then CacheState(store.A().objs, [], 0)
      else CacheState(store.A().objs, reconstructLRU.Contents(), reconstructLRU.capacity)
    }

    /** A size of zero or less disables the LRU. */
    constructor (hash: Node -> uint64, render: Value -> string, size: int)
      ensures Valid() && fresh(StoreFrame()) && fresh(LruFrame())
      ensures C() == Start(if size <= 0 then 0 else size)
    {
      hide HeapOk, Rooted, Meaning, Linked, DedupStore.Valid, DedupStore.CountsExact;
      store := new DedupStore(hash, render);
      if size > 0 {
        reconstructLRU := new LruCache(size);
      } else {
        reconstructLRU := null;
      }
    }

    method InvalidateLRU(key: ObjectKey)
      requires Valid()
      modifies LruFrame()
      ensures Valid() && LruFrame() <= old(LruFrame())
      ensures C() == old(C()).(lru := Invalidated(old(C()), key))
    {
      if reconstructLRU != null {
        reconstructLRU.Delete(LruKey(key));
      }
    }

    method Get(key: ObjectKey) returns (r: Option<Value>)
      requires Valid()
      modifies LruFrame()
      ensures Valid() && fresh(LruFrame() - old(LruFrame()))
      ensures r == Answer(old(C()), key)
      ensures C() == AfterStep(old(C()), Read(key))
    {
      hide HeapOk, Rooted, Meaning, Linked, Got, PutIn, Find;
      if reconstructLRU == null {
        r := store.Get(key);
        return;
      }
      var hit := reconstructLRU.Get(LruKey(key));
      assert store.Valid() && store.A() == old(store.A());
      if hit.Some? {
        return hit;
      }
      AbsentGot(old(reconstructLRU.Contents()), LruKey(key));
      r := store.Get(key);
      if r.Some? {
        reconstructLRU.Put(LruKey(key), r.value);
        assert store.Valid() && store.A() == old(store.A());
      }
    }
  }

  lemma MissFinds(s: Entries<Value>, key: string)
    ensures Find(Without(s, key), key) == None
  {
    forall e ensures e in Without(s, key) ==> e.0 != key { WithoutIn(s, key, e); }
    FindHas(Without(s, key), key);
  }

  /** Whatever the cache was like before, a write is what the next read of its object answers. */
  lemma WriteIsRead(c: CacheState, gvk: GroupVersionKind, obj: map<string, Raw>)
    ensures var d := AfterStep(c, Write(ArrivingKey(gvk, obj), Canon(RawMap(obj))));
            forall namespace, name :: Named(obj, namespace, name) ==>
              && Lookup(d.objs, ObjectKey(gvk, namespace, name)) == Some(Canon(RawMap(obj)))
              && Answer(d, ObjectKey(gvk, namespace, name)) == Some(Canon(RawMap(obj)))
  {
    hide Canon, LruKey, Find, Without;
    MissFinds(c.lru, LruKey(ArrivingKey(gvk, obj)));
    forall namespace, name | Named(obj, namespace, name)
      ensures ArrivingKey(gvk, obj) == ObjectKey(gvk, namespace, name)
    {
      KeyIsNamed(gvk, obj, namespace, name);
    }
  }

  lemma RemoveIsRead(c: CacheState, key: ObjectKey)
    ensures Answer(AfterStep(c, Remove(key)), key) == None
  {
    hide LruKey, Find, Without;
    MissFinds(c.lru, LruKey(key));
  }

  /** Through any cache, of any size and contents: an object of the store's own types, written through, is read back
      under its own namespace and name exactly as it was, and once deleted it is not found. */
  method ReadYourWrite(client: DedupClient, gvk: GroupVersionKind, m: map<string, Value>, meta: map<string, Value>,
      namespace: string, name: string) returns (written: Option<Value>, deleted: Option<Value>)
    requires client.cache.Valid()
    requires "metadata" in m && m["metadata"] == Map(meta)
    requires "namespace" in meta && meta["namespace"] == Leaf(Str(namespace))
    requires "name" in meta && meta["name"] == Leaf(Str(name))
    modifies client.cache.StoreFrame(), client.cache.LruFrame()
    ensures client.cache.Valid()
    ensures written == Some(Map(m)) && deleted == None
  {
    hide Cache.Valid, Cache.C, Canon, AsRaw, AfterStep, Answer;
    var key, obj := ObjectKey(gvk, namespace, name), AsRawFields(m);
    OwnTypes(m, meta, namespace, name);
    client.WriteThrough(gvk, obj);
    written := client.cache.Get(key);
    RemoveIsRead(client.cache.C(), key);
    client.Delete(gvk, namespace, name);
    deleted := client.cache.Get(key);
  }

  lemma OwnTypes(m: map<string, Value>, meta: map<string, Value>, namespace: string, name: string)
    requires "metadata" in m && m["metadata"] == Map(meta)
    requires "namespace" in meta && meta["namespace"] == Leaf(Str(namespace))
    requires "name" in meta && meta["name"] == Leaf(Str(name))
    ensures Named(AsRawFields(m), namespace, name) && Canon(RawMap(AsRawFields(m))) == Map(m)
  {
    hide Canon;
    FieldsRestored(m);
    assert AsRawFields(m)["metadata"] == AsRaw(Map(meta)) == RawMap(AsRawFields(meta));
    StringField(meta, "namespace", namespace);
    StringField(meta, "name", name);
  }

  lemma StringField(m: map<string, Value>, f: string, s: string)
    requires f in m && m[f] == Leaf(Str(s))
    ensures f in AsRawFields(m) && AsRawFields(m)[f] == RawLeaf(RString(s))
  {
    assert AsRaw(m[f]) == RawLeaf(AsRawScalar(Str(s)));
  }

  lemma AbsentGot(s: Entries<Value>, key: string)
    ensures Find(s, key).None? ==> Got(s, key) == s
  {
  }

  class DedupClient {
    const cache: Cache

    constructor (cache: Cache)
      ensures this.cache == cache
    {
      this.cache := cache;
    }

    /** What Create, Update and Patch do with the object the API server returned. */
    method WriteThrough(gvk: GroupVersionKind, result: map<string, Raw>)
      requires cache.Valid()
      modifies cache.StoreFrame(), cache.LruFrame()
      ensures cache.Valid() && cache.LruFrame() <= old(cache.LruFrame())
      ensures cache.C() == AfterStep(old(cache.C()), Write(ArrivingKey(gvk, result), Canon(RawMap(result))))
      ensures old(OwnKeys(cache.C().objs)) && Tidy(result) ==> OwnKeys(cache.C().objs)
      ensures forall namespace, name :: Named(result, namespace, name) ==>
                && Lookup(cache.C().objs, ObjectKey(gvk, namespace, name)) == Some(Canon(RawMap(result)))
                && Answer(cache.C(), ObjectKey(gvk, namespace, name)) == Some(Canon(RawMap(result)))
    {
      hide HeapOk, Rooted, Meaning, Linked, OwnKeys, Plainly, Canon, Upserted, Lookup;
      hide Decomposed, UpsertCounters, CountedModulo, Fits, Returns, DedupStore.CountsExact;
      UpsertedObjects(cache.store.A(), ArrivingKey(gvk, result), Canon(RawMap(result)));
      var key := ArrivingKey(gvk, result);
      WriteIsRead(cache.C(), gvk, result);
      ArriveOwnKey(cache.C().objs, gvk, result);
      cache.store.Upsert(key, result);
      cache.InvalidateLRU(key);
    }

    method Delete(gvk: GroupVersionKind, namespace: string, name: string)
      requires cache.Valid()
      modifies cache.StoreFrame(), cache.LruFrame()
      ensures cache.Valid() && cache.LruFrame() <= old(cache.LruFrame())
      ensures cache.C() == AfterStep(old(cache.C()), Remove(ObjectKey(gvk, namespace, name)))
      ensures old(OwnKeys(cache.C().objs)) ==> OwnKeys(cache.C().objs)
    {
      hide HeapOk, Rooted, Meaning, Linked, OwnKeys;
      FewerOwnKeys(cache.C().objs, ObjectKey(gvk, namespace, name));
      var key := ObjectKey(gvk, namespace, name);
      cache.store.Delete(key);
      cache.InvalidateLRU(key);
    }

    /** Deletes every listed object under the name the object itself carries, one after the other. */
    method DeleteAllOf(gvk: GroupVersionKind, namespace: string) returns (ghost removed: seq<ObjectKey>)
      requires cache.Valid()
      modifies cache.StoreFrame(), cache.LruFrame()
      ensures cache.Valid() && cache.LruFrame() <= old(cache.LruFrame())
      ensures cache.C() == RunFrom(old(cache.C()), Removals(removed))
      ensures (set k | k in removed) == DerivedKeys(old(cache.C().objs), gvk, namespace)
      ensures cache.C().objs == old(cache.C().objs) - DerivedKeys(old(cache.C().objs), gvk, namespace)
      ensures old(OwnKeys(cache.C().objs)) ==>
                && cache.C().objs == old(cache.C().objs) - MatchingKeys(old(cache.C().objs), gvk, namespace)
                && OwnKeys(cache.C().objs)
    {
      hide AfterStep, RunFrom, IsListing, HeapOk, Rooted, Meaning, Linked, OwnKeys, DerivedKeys, MatchingKeys;
      hide DedupStore.Valid, DedupStore.A;
      ghost var c := cache.C();
      var items := cache.store.List(gvk, ListOptions(map[], map[], namespace));
      ghost var keys :| IsListing(cache.store.render, c.objs, gvk, ListOptions(map[], map[], namespace), keys, items);
      ListedKeys(cache.store.render, c.objs, gvk, namespace, keys, items);
      removed := [];
      NoRemovals(c);
      var i := 0;
      while i < |items|
        invariant 0 <= i <= |items| && |removed| == i
        invariant cache.Valid() && cache.LruFrame() <= old(cache.LruFrame())
        invariant forall j :: 0 <= j < i ==> removed[j] == StoredKey(gvk, items[j])
        invariant cache.C() == RunFrom(c, Removals(removed))
      {
        var key := StoredKey(gvk, items[i]);
        Delete(gvk, key.namespace, key.name);
        OneMoreRemoval(c, removed, key);
        removed := removed + [key];
        i := i + 1;
      }
      SameKeys(gvk, items, removed);
      RemovalsRemove(c, removed);
      OwnRemoved(c.objs, gvk, namespace);
    }
  }

  lemma SameKeys(gvk: GroupVersionKind, items: seq<Value>, removed: seq<ObjectKey>)
    requires |removed| == |items| && forall j :: 0 <= j < |items| ==> removed[j] == StoredKey(gvk, items[j])
    ensures (set k | k in removed) == set j | 0 <= j < |items| :: StoredKey(gvk, items[j])
  {
  }

  /** When every object carries its own key, the keys the objects carry are those of the kind and namespace. */
  lemma OwnRemoved(objs: Objects, gvk: GroupVersionKind, namespace: string)
    ensures OwnKeys(objs) ==>
              && DerivedKeys(objs, gvk, namespace) == MatchingKeys(objs, gvk, namespace)
              && OwnKeys(objs - MatchingKeys(objs, gvk, namespace))
  {
    if OwnKeys(objs) { DerivedAreMatching(objs, gvk, namespace); }
  }

  lemma NoRemovals(c: CacheState)
    ensures RunFrom(c, Removals([])) == c
  {
  }

  lemma ListedKeys(render: Value -> string, objs: Objects, gvk: GroupVersionKind, namespace: string,
      keys: seq<ObjectKey>, items: seq<Value>)
    requires IsListing(render, objs, gvk, ListOptions(map[], map[], namespace), keys, items)
    ensures (set j | 0 <= j < |items| :: StoredKey(gvk, items[j])) == DerivedKeys(objs, gvk, namespace)
  {
    var got := set j | 0 <= j < |items| :: StoredKey(gvk, items[j]);
    forall k | k in objs && k.gvk == gvk && (namespace == "" || k.namespace == namespace)
      ensures StoredKey(gvk, objs[k]) in got
    {
      assert Accepts(render, ListOptions(map[], map[], namespace), gvk, k, objs[k]);
      assert k in keys;
      var j :| 0 <= j < |keys| && keys[j] == k;
      assert items[j] == objs[k];
    }
    forall j | 0 <= j < |items| ensures StoredKey(gvk, items[j]) in DerivedKeys(objs, gvk, namespace) {
      assert keys[j] in keys;
    }
  }
}
