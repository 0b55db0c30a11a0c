/** The store behind its reconstruction cache, as a machine of atomic steps: when a read through the cache
    answers what the store would. */
module Coherence {
  import opened Values
  import opened Plain
  import opened Recency

  // ---------- cache keys ----------

  /** "group/version/kind/namespace/name". */
  function LruKey(k: ObjectKey): string {
    k.gvk.group + "/" + (k.gvk.version + "/" + (k.gvk.kind + "/" + (k.namespace + "/" + k.name)))
  }

  ghost predicate NoSlash(k: ObjectKey) {
    '/' !in k.gvk.group && '/' !in k.gvk.version && '/' !in k.gvk.kind && '/' !in k.namespace
  }

  lemma SameHead(a: string, r: string, b: string, s: string)
    requires '/' !in a && '/' !in b && a + "/" + r == b + "/" + s
    ensures a == b && r == s
  {
    var t, u := a + "/" + r, b + "/" + s;
    assert (forall i :: 0 <= i < |a| ==> t[i] == a[i]) && forall i :: 0 <= i < |b| ==> u[i] == b[i];
    assert t[|a|] == '/' && u[|b|] == '/';
    assert a == t[..|a|] && b == u[..|b|];
    assert r == t[|a| + 1..] && s == u[|b| + 1..];
  }

  /** Without slashes before the name, different objects have different cache keys. */
  lemma LruKeyInjective(j: ObjectKey, k: ObjectKey)
    requires NoSlash(j) && NoSlash(k) && LruKey(j) == LruKey(k)
    ensures j == k
  {
    var jn, kn := j.namespace + "/" + j.name, k.namespace + "/" + k.name;
    var jk, kk := j.gvk.kind + "/" + jn, k.gvk.kind + "/" + kn;
    var jv, kv := j.gvk.version + "/" + jk, k.gvk.version + "/" + kk;
    SameHead(j.gvk.group, jv, k.gvk.group, kv);
    SameHead(j.gvk.version, jk, k.gvk.version, kk);
    SameHead(j.gvk.kind, jn, k.gvk.kind, kn);
    SameHead(j.namespace, j.name, k.namespace, k.name);
  }

  /** With a slash in the namespace they need not. */
  lemma SlashCollides()
    ensures exists j, k :: j != k && LruKey(j) == LruKey(k)
  {
    var pod := GroupVersionKind("", "v1", "Pod");
    var j, k := ObjectKey(pod, "a/b", "c"), ObjectKey(pod, "a", "b/c");
    assert j.namespace + "/" + j.name == k.namespace + "/" + k.name;
    assert j != k && LruKey(j) == LruKey(k);
  }

  // ---------- the machine ----------

  /** capacity 0 is a cache without reconstruction LRU. */
  datatype CacheState = CacheState(objs: Objects, lru: Entries<Value>, capacity: nat)

  /** Read, Write and Remove are the client's steps; the last two are an informer's, which leave the LRU alone. */
  datatype CacheStep =
    | Read(key: ObjectKey)
    | Write(key: ObjectKey, v: Value)
    | Remove(key: ObjectKey)
    | WatchWrite(key: ObjectKey, v: Value)
    | WatchRemove(key: ObjectKey)

  ghost function Answer(c: CacheState, key: ObjectKey): Option<Value> {
    var hit := Find(c.lru, LruKey(key));
    if c.capacity > 0 && hit.Some? then hit else Lookup(c.objs, key)
  }

  /** What a read does to the LRU: promote a hit, or put what the store had. */
  ghost function AfterRead(c: CacheState, key: ObjectKey): Entries<Value> {
    if c.capacity == 0 then c.lru
    else if Find(c.lru, LruKey(key)).Some? then Got(c.lru, LruKey(key))
    else if key in c.objs then PutIn(c.capacity, c.lru, LruKey(key), c.objs[key])
    else c.lru
  }

  ghost function Invalidated(c: CacheState, key: ObjectKey): Entries<Value> {
    if c.capacity == 0 then c.lru else Without(c.lru, LruKey(key))
  }

  ghost function AfterStep(c: CacheState, s: CacheStep): CacheState {
    match s
    case Read(key) => c.(lru := AfterRead(c, key))
    case Write(key, v) => c.(objs := c.objs[key := v], lru := Invalidated(c, key))
    case Remove(key) => c.(objs := c.objs - {key}, lru := Invalidated(c, key))
    case WatchWrite(key, v) => c.(objs := c.objs[key := v])
    case WatchRemove(key) => c.(objs := c.objs - {key})
  }

  /** Whatever the LRU holds for one of the keys is what the store holds for it. */
  ghost predicate Coherent(c: CacheState, keys: iset<ObjectKey>) {
    && Distinct(c.lru) && (c.capacity == 0 ==> c.lru == [])
    && forall k :: k in keys && Find(c.lru, LruKey(k)).Some? ==> Find(c.lru, LruKey(k)) == Lookup(c.objs, k)
  }

  ghost predicate InjectiveOn(keys: iset<ObjectKey>) {
    forall j, k :: j in keys && k in keys && LruKey(j) == LruKey(k) ==> j == k
  }

  lemma NoSlashInjective()
    ensures InjectiveOn(iset k: ObjectKey | NoSlash(k))
  {
    forall j, k | NoSlash(j) && NoSlash(k) && LruKey(j) == LruKey(k) ensures j == k {
      LruKeyInjective(j, k);
    }
  }

  /** The keys whose last write or removal, if any, was a client's: a client's step makes its key clean, an
      informer's step does not. */
  ghost function CleanAfter(clean: iset<ObjectKey>, keys: iset<ObjectKey>, s: CacheStep): iset<ObjectKey> {
    match s
    case Read(_) => clean
    case Write(key, _) => clean + (keys * iset{key})
    case Remove(key) => clean + (keys * iset{key})
    case WatchWrite(key, _) => clean - iset{key}
    case WatchRemove(key) => clean - iset{key}
  }

  /** Every step leaves the LRU right for the clean keys, provided no two of the keys read share a cache key. */
  lemma StepCoherent(c: CacheState, clean: iset<ObjectKey>, keys: iset<ObjectKey>, s: CacheStep)
    requires Coherent(c, clean) && InjectiveOn(keys) && clean <= keys && (s.Read? ==> s.key in keys)
    ensures Coherent(AfterStep(c, s), CleanAfter(clean, keys, s)) && CleanAfter(clean, keys, s) <= keys
  {
    var d := AfterStep(c, s);
    var key := LruKey(s.key);
    if c.capacity > 0 {
      StepDistinct(c, s);
      forall k | k in CleanAfter(clean, keys, s) && Find(d.lru, LruKey(k)).Some?
        ensures Find(d.lru, LruKey(k)) == Lookup(d.objs, k)
      {
        match s
        case Read(_) =>
          if Find(c.lru, key).Some? { FindGot(c.lru, key, LruKey(k)); }
          else if s.key in c.objs { FindPut(c.capacity, c.lru, key, c.objs[s.key], LruKey(k)); }
        case WatchWrite(_, _) =>
        case WatchRemove(_) =>
        case _ => FindInvalidated(c.lru, key, LruKey(k));
      }
    }
  }

  lemma StepDistinct(c: CacheState, s: CacheStep)
    requires Distinct(c.lru)
    ensures Distinct(AfterStep(c, s).lru)
  {
    var key := LruKey(s.key);
    GotOk(c.lru, key);
    WithoutDistinct(c.lru, key);
    if s.key in c.objs { FindPut(c.capacity, c.lru, key, c.objs[s.key], key); }
  }

  // ---------- whole runs ----------

  ghost function RunFrom(c: CacheState, steps: seq<CacheStep>): CacheState {
    if steps == [] then c else AfterStep(RunFrom(c, steps[..|steps| - 1]), steps[|steps| - 1])
  }

  ghost function Start(capacity: nat): CacheState {
    CacheState(map[], [], capacity)
  }

  /** Clients read only the keys of `keys`, informers write and remove only those of `watched`; clients write and
      remove anything. */
  ghost predicate Allowed(steps: seq<CacheStep>, keys: iset<ObjectKey>, watched: iset<ObjectKey>) {
    ReadsIn(steps, keys) && forall i :: 0 <= i < |steps| && Watching(steps[i]) ==> steps[i].key in watched
  }

  ghost predicate ReadsIn(steps: seq<CacheStep>, keys: iset<ObjectKey>) {
    forall i :: 0 <= i < |steps| && steps[i].Read? ==> steps[i].key in keys
  }

  ghost predicate Watching(s: CacheStep) {
    s.WatchWrite? || s.WatchRemove?
  }

  ghost function Clean(steps: seq<CacheStep>, keys: iset<ObjectKey>): iset<ObjectKey> {
    if steps == [] then keys else CleanAfter(Clean(steps[..|steps| - 1], keys), keys, steps[|steps| - 1])
  }

  ghost predicate RightRead(c: CacheState, steps: seq<CacheStep>, i: nat)
    requires i < |steps|
  {
    Answer(RunFrom(c, steps[..i]), steps[i].key) == Lookup(RunFrom(c, steps[..i]).objs, steps[i].key)
  }

  /** Every read answers what the store holds at that moment. */
  ghost predicate Transparent(c: CacheState, steps: seq<CacheStep>) {
    forall i :: 0 <= i < |steps| && steps[i].Read? ==> RightRead(c, steps, i)
  }

  lemma {:induction false} RunStaysCoherent(c: CacheState, steps: seq<CacheStep>, keys: iset<ObjectKey>)
    requires Coherent(c, keys) && InjectiveOn(keys) && ReadsIn(steps, keys)
    ensures Coherent(RunFrom(c, steps), Clean(steps, keys)) && Clean(steps, keys) <= keys
  {
    if steps != [] {
      var pre, last := steps[..|steps| - 1], steps[|steps| - 1];
      RunStaysCoherent(c, pre, keys);
      StepCoherent(RunFrom(c, pre), Clean(pre, keys), keys, last);
    }
  }

  /** In every run of clients and informers, a read is right if the last write or removal of its key was a client's,
      or there was none: clients read their own writes until an informer steps in. */
  lemma CleanReadIsRight(capacity: nat, steps: seq<CacheStep>, keys: iset<ObjectKey>, i: nat)
    requires InjectiveOn(keys) && ReadsIn(steps, keys)
    requires i < |steps| && steps[i].Read? && steps[i].key in Clean(steps[..i], keys)
    ensures RightRead(Start(capacity), steps, i)
  {
    RunStaysCoherent(Start(capacity), steps[..i], keys);
    CapacityStays(Start(capacity), steps[..i]);
  }

  lemma {:induction false} CapacityStays(c: CacheState, steps: seq<CacheStep>)
    ensures RunFrom(c, steps).capacity == c.capacity
  {
    if steps != [] {
      CapacityStays(c, steps[..|steps| - 1]);
    }
  }

  lemma {:induction false} UnwatchedIsClean(steps: seq<CacheStep>, keys: iset<ObjectKey>, watched: iset<ObjectKey>)
    requires Allowed(steps, keys, watched) && keys !! watched
    ensures Clean(steps, keys) == keys
  {
    if steps != [] {
      UnwatchedIsClean(steps[..|steps| - 1], keys, watched);
    }
  }

  // ---------- removing many objects ----------

  ghost function Removals(ks: seq<ObjectKey>): seq<CacheStep> {
    seq(|ks|, i requires 0 <= i < |ks| => Remove(ks[i]))
  }

  lemma OneMoreRemoval(c: CacheState, ks: seq<ObjectKey>, k: ObjectKey)
    ensures RunFrom(c, Removals(ks + [k])) == AfterStep(RunFrom(c, Removals(ks)), Remove(k))
  {
    var s := Removals(ks + [k]);
    assert s[..|s| - 1] == Removals(ks);
  }

  lemma {:induction false} RemovalsRemove(c: CacheState, ks: seq<ObjectKey>)
    ensures RunFrom(c, Removals(ks)).objs == c.objs - set k | k in ks
  {
    if ks != [] {
      var pre, k := ks[..|ks| - 1], ks[|ks| - 1];
      RemovalsRemove(c, pre);
      OneMoreRemoval(c, pre, k);
      assert ks == pre + [k];
      assert (set j | j in ks) == (set j | j in pre) + {k};
    }
  }

  // ---------- exactly when every read is right ----------

  /** One object read through a cache key shared with another. */
  lemma CollisionShows(capacity: nat, j: ObjectKey, k: ObjectKey, v: Value)
    requires capacity > 0 && j != k && LruKey(j) == LruKey(k)
    ensures !Transparent(Start(capacity), [Write(j, v), Read(j), Read(k)])
  {
    var steps := [Write(j, v), Read(j), Read(k)];
    var c0 := Start(capacity);
    var c1 := AfterStep(c0, steps[0]);
    var c2 := AfterStep(c1, steps[1]);
    Two(c0, steps);
    assert c1.lru == [] && c1.objs == map[j := v];
    assert c2.lru == [(LruKey(j), v)];
    assert Answer(c2, k) == Some(v) && Lookup(c2.objs, k) == None;
    assert steps[2].Read? && !RightRead(c0, steps, 2);
  }

  lemma Two(c: CacheState, steps: seq<CacheStep>)
    requires |steps| >= 2
    ensures RunFrom(c, steps[..2]) == AfterStep(AfterStep(c, steps[0]), steps[1])
  {
    assert steps[..2][..1] == [steps[0]] && steps[..1][..0] == [];
    assert RunFrom(c, [steps[0]]) == AfterStep(c, steps[0]);
  }

  /** An informer's write between two reads: the second read still answers the object the first one saw. */
  lemma StaleRead(capacity: nat, k: ObjectKey, v: Value, w: Value)
    requires capacity > 0 && v != w
    ensures !Transparent(Start(capacity), [Write(k, v), Read(k), WatchWrite(k, w), Read(k)])
  {
    var steps := [Write(k, v), Read(k), WatchWrite(k, w), Read(k)];
    var c0 := Start(capacity);
    var c2 := AfterStep(AfterStep(c0, steps[0]), steps[1]);
    Two(c0, steps);
    assert steps[..3][..2] == steps[..2];
    assert RunFrom(c0, steps[..3]) == AfterStep(c2, steps[2]);
    assert c2.lru == [(LruKey(k), v)];
    assert steps[3].Read? && !RightRead(c0, steps, 3);
  }

  /** Reads through the cache are right in every run of clients and informers if and only if no two of the keys read
      share a cache key, and no informer writes a key that is read. */
  lemma ReadsRightIff(capacity: nat, keys: iset<ObjectKey>, watched: iset<ObjectKey>)
    requires capacity > 0
    ensures InjectiveOn(keys) && keys !! watched <==>
            forall steps: seq<CacheStep> :: Allowed(steps, keys, watched) ==> Transparent(Start(capacity), steps)
  {
    if InjectiveOn(keys) && keys !! watched {
      forall steps: seq<CacheStep> | Allowed(steps, keys, watched) ensures Transparent(Start(capacity), steps) {
        AllowedIsRight(capacity, steps, keys, watched);
      }
    } else if j, k :| j in keys && k in keys && LruKey(j) == LruKey(k) && j != k {
      CollisionShows(capacity, j, k, Leaf(Nil));
      assert Allowed([Write(j, Leaf(Nil)), Read(j), Read(k)], keys, watched);
    } else {
      assert !(keys !! watched);
      var k :| k in keys && k in watched;
      var v, w := Leaf(Nil), Leaf(Bool(true));
      StaleRead(capacity, k, v, w);
      assert Allowed([Write(k, v), Read(k), WatchWrite(k, w), Read(k)], keys, watched);
    }
  }

  lemma AllowedIsRight(capacity: nat, steps: seq<CacheStep>, keys: iset<ObjectKey>, watched: iset<ObjectKey>)
    requires InjectiveOn(keys) && keys !! watched && Allowed(steps, keys, watched)
    ensures Transparent(Start(capacity), steps)
  {
    forall i | 0 <= i < |steps| && steps[i].Read? ensures RightRead(Start(capacity), steps, i) {
      UnwatchedIsClean(steps[..i], keys, watched);
      CleanReadIsRight(capacity, steps, keys, i);
    }
  }

  /** As an informer runs for every kind that is read, and may write any object of that kind, some run of any program
      that reads at all has a wrong read. */
  lemma WatchedKindsGoStale(capacity: nat, keys: iset<ObjectKey>, k: ObjectKey)
    requires capacity > 0 && k in keys
    ensures exists steps: seq<CacheStep> ::
              && Allowed(steps, keys, iset j: ObjectKey | exists r :: r in keys && j.gvk == r.gvk)
              && !Transparent(Start(capacity), steps)
  {
    var watched := iset j: ObjectKey | exists r :: r in keys && j.gvk == r.gvk;
    assert k in watched;
    ReadsRightIff(capacity, keys, watched);
  }

  /** Names without slashes, and informers that leave the keys read alone, are enough. */
  lemma SlashFreeIsRight(capacity: nat, steps: seq<CacheStep>)
    requires forall i :: 0 <= i < |steps| && steps[i].Read? ==> NoSlash(steps[i].key)
    requires forall i, j :: 0 <= i < |steps| && steps[i].Read? && 0 <= j < |steps| && Watching(steps[j]) ==>
               steps[j].key != steps[i].key
    ensures Transparent(Start(capacity), steps)
  {
    var keys := iset i | 0 <= i < |steps| && steps[i].Read? :: steps[i].key;
    NoSlashInjective();
    AllowedIsRight(capacity, steps, keys, iset k: ObjectKey | k !in keys);
  }
}
