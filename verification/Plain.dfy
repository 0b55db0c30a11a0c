/** What the store means: a plain map of objects, plus the distinct values and scalars interned so far. */
module Plain {
  import opened Sums
  import opened Values
  import opened Counting

  datatype GroupVersionKind = GroupVersionKind(group: string, version: string, kind: string)

  datatype ObjectKey = ObjectKey(gvk: GroupVersionKind, namespace: string, name: string)

  datatype Option<T> = None | Some(value: T)

  type Objects = map<ObjectKey, Value>

  datatype PlainStore = PlainStore(objs: Objects, nodes: set<Value>, scalars: set<Scalar>)

  const EMPTY := PlainStore(map[], {}, {})

  ghost function LiveNodes(objs: Objects): set<Value> {
    set k, u | k in objs && u in Sub(objs[k]) :: u
  }

  ghost function LiveScalars(objs: Objects): set<Scalar> {
    set k, s | k in objs && s in Scalars(objs[k]) :: s
  }

  ghost function Upserted(p: PlainStore, key: ObjectKey, v: Value): PlainStore {
    PlainStore(p.objs[key := v], p.nodes + Sub(v), p.scalars + Scalars(v))
  }

  lemma UpsertedObjects(p: PlainStore, key: ObjectKey, v: Value)
    ensures Upserted(p, key, v).objs == p.objs[key := v]
  {
  }

  ghost function Deleted(p: PlainStore, key: ObjectKey): PlainStore {
    p.(objs := p.objs - {key})
  }

  ghost function Collected(p: PlainStore): PlainStore {
    PlainStore(p.objs, LiveNodes(p.objs), LiveScalars(p.objs))
  }

  function Lookup(objs: Objects, key: ObjectKey): Option<Value> {
    if key in objs then Some(objs[key]) else None
  }

  /** Everything the objects mention has been interned. */
  ghost predicate Interned(p: PlainStore) {
    LiveNodes(p.objs) <= p.nodes && LiveScalars(p.objs) <= p.scalars
  }

  // ---------- counting ----------

  /** How often u occurs in the stored objects, every occurrence counted. */
  ghost function Uses(objs: Objects, u: Value): nat {
    SumMap(map k | k in objs :: Count(objs[k], u))
  }

  const LIMIT := 0x1_0000_0000

  /** No value occurs so often that a uint32 cannot count it. */
  ghost predicate Fits(objs: Objects) {
    forall u :: Uses(objs, u) < LIMIT
  }

  ghost function TotalSize(objs: Objects): nat {
    SumMap(map k | k in objs :: TreeSize(objs[k]))
  }

  /** Fewer than 2^32 tree positions in all is enough for every count to fit. */
  lemma SmallFits(objs: Objects)
    requires TotalSize(objs) < LIMIT
    ensures Fits(objs)
  {
    hide SumMap;
    forall u ensures Uses(objs, u) < LIMIT {
      forall k | k in objs ensures Count(objs[k], u) <= TreeSize(objs[k]) { CountAtMost(objs[k], u); }
      SumMapAtMost(map k | k in objs :: Count(objs[k], u), map k | k in objs :: TreeSize(objs[k]));
    }
  }

  /** A value is used exactly when it is a subvalue of some stored object. */
  lemma UsedIsLive(objs: Objects, u: Value)
    ensures Uses(objs, u) > 0 <==> u in LiveNodes(objs)
  {
    hide SumMap;
    var c := map k | k in objs :: Count(objs[k], u);
    SumMapPositive(c);
    forall k | k in objs ensures c[k] > 0 <==> u in Sub(objs[k]) { CountPositive(objs[k], u); }
    if k :| k in c && c[k] > 0 { assert u in Sub(objs[k]); }
    if k :| k in objs && u in Sub(objs[k]) { assert c[k] > 0; }
  }

  lemma UsesUpsert(objs: Objects, key: ObjectKey, v: Value, u: Value)
    ensures Uses(objs[key := v], u) == Uses(objs - {key}, u) + Count(v, u)
  {
    hide SumMap, Count;
    var c := map k | k in objs :: Count(objs[k], u);
    var now := objs[key := v];
    SumMapSet(c, key, Count(v, u));
    assert (map k | k in now :: Count(now[k], u)) == c[key := Count(v, u)];
    var less := objs - {key};
    assert (map k | k in less :: Count(less[k], u)) == c - {key};
  }

  lemma UsesDelete(objs: Objects, key: ObjectKey, u: Value)
    requires key in objs
    ensures Uses(objs, u) == Uses(objs - {key}, u) + Count(objs[key], u)
  {
    hide Uses;
    UsesUpsert(objs, key, objs[key], u);
    assert objs[key := objs[key]] == objs;
  }
}
