/** Whole runs of one cache under clients and informers together: reads, writes through, deletions of single objects
    and of whole kinds, listed objects and watch events, in any order. */
module ClientRuns {
  import opened Values
  import opened Plain
  import opened Unstructured
  import opened Heaps
  import opened Meanings
  import opened DedupStores
  import opened Indexes
  import opened Inputs
  import opened Informers
  import opened Lru
  import opened Coherence
  import opened Client

  datatype Op =
    | ReadOp(key: ObjectKey)
    | WriteOp(gvk: GroupVersionKind, obj: map<string, Raw>)
    | DeleteOp(gvk: GroupVersionKind, namespace: string, name: string)
    | DeleteAllOp(gvk: GroupVersionKind, namespace: string)
    | InformOp(gvk: GroupVersionKind, x: Input)

  // ---------- what an operation does to a plain map of objects ----------

  ghost function Informed(objs: Objects, c: Change): Objects {
    match c
    case Sets(key, obj) => objs[key := Canon(RawMap(obj))]
    case Clears(key) => objs - {key}
    case Nothing => objs
  }

  ghost function PlainAfter(objs: Objects, op: Op): Objects {
    match op
    case ReadOp(_) => objs
    case WriteOp(gvk, obj) => objs[ArrivingKey(gvk, obj) := Canon(RawMap(obj))]
    case DeleteOp(gvk, namespace, name) => objs - {ObjectKey(gvk, namespace, name)}
    case DeleteAllOp(gvk, namespace) => objs - MatchingKeys(objs, gvk, namespace)
    case InformOp(gvk, x) => Informed(objs, ChangeOf(gvk, x))
  }

  ghost function PlainRun(ops: seq<Op>): Objects {
    if ops == [] then map[] else PlainAfter(PlainRun(ops[..|ops| - 1]), ops[|ops| - 1])
  }

  ghost predicate TidyOp(op: Op) {
    match op
    case WriteOp(_, obj) => Tidy(obj)
    case InformOp(gvk, x) => AllTidy([ChangeOf(gvk, x)])
    case _ => true
  }

  lemma PlainOwnKeys(objs: Objects, op: Op)
    requires OwnKeys(objs) && TidyOp(op)
    ensures OwnKeys(PlainAfter(objs, op))
  {
    hide Canon, Plainly, OwnKeys, MatchingKeys;
    match op
    case ReadOp(_) =>
    case WriteOp(gvk, obj) => ArriveOwnKey(objs, gvk, obj);
    case DeleteOp(gvk, namespace, name) => FewerOwnKeys(objs, ObjectKey(gvk, namespace, name));
    case DeleteAllOp(gvk, namespace) => OwnRemoved(objs, gvk, namespace);
    case InformOp(gvk, x) =>
      var c := ChangeOf(gvk, x);
      assert [c][0] == c;
      if c.Sets? { ArriveOwnKey(objs, gvk, c.obj); }
      if c.Clears? { FewerOwnKeys(objs, c.key); }
  }

  /** Every writer, client or informer, keeps each object under the key it carries: from an empty store it is so after
      every run. */
  lemma {:induction false} RunOwnKeys(ops: seq<Op>)
    requires forall i :: 0 <= i < |ops| ==> TidyOp(ops[i])
    ensures OwnKeys(PlainRun(ops))
  {
    hide PlainAfter, TidyOp;
    if ops != [] {
      RunOwnKeys(ops[..|ops| - 1]);
      PlainOwnKeys(PlainRun(ops[..|ops| - 1]), ops[|ops| - 1]);
    }
  }

  // ---------- an operation as steps of the cache ----------

  ghost function WatchSteps(c: Change): seq<CacheStep> {
    match c
    case Sets(key, obj) => [WatchWrite(key, Canon(RawMap(obj)))]
    case Clears(key) => [WatchRemove(key)]
    case Nothing => []
  }

  /** The steps an operation takes, the removals of a whole kind in any order. */
  ghost predicate StepsOf(objs: Objects, op: Op, steps: seq<CacheStep>) {
    match op
    case ReadOp(key) => steps == [Read(key)]
    case WriteOp(gvk, obj) => steps == [Write(ArrivingKey(gvk, obj), Canon(RawMap(obj)))]
    case DeleteOp(gvk, namespace, name) => steps == [Remove(ObjectKey(gvk, namespace, name))]
    case DeleteAllOp(gvk, namespace) =>
      exists ks :: steps == Removals(ks) && (set k | k in ks) == DerivedKeys(objs, gvk, namespace)
    case InformOp(gvk, x) => steps == WatchSteps(ChangeOf(gvk, x))
  }

  lemma OneStep(c: CacheState, s: CacheStep)
    ensures RunFrom(c, [s]) == AfterStep(c, s)
  {
    assert [s][..0] == [];
    assert RunFrom(c, [s][..0]) == c;
  }

  lemma {:induction false} RunAppend(c: CacheState, a: seq<CacheStep>, b: seq<CacheStep>)
    ensures RunFrom(c, a + b) == RunFrom(RunFrom(c, a), b)
  {
    hide AfterStep;
    if b == [] {
      assert a + b == a;
    } else {
      assert (a + b)[..|a + b| - 1] == a + b[..|b| - 1];
      RunAppend(c, a, b[..|b| - 1]);
    }
  }

  /** Seen from the objects alone, an operation is what it is on a plain map, given that objects carry their keys. */
  lemma StepsObjects(c: CacheState, op: Op, steps: seq<CacheStep>)
    requires StepsOf(c.objs, op, steps) && OwnKeys(c.objs)
    ensures RunFrom(c, steps).objs == PlainAfter(c.objs, op)
  {
    hide Canon, OwnKeys, MatchingKeys, DerivedKeys, RunFrom;
    match op
    case DeleteAllOp(gvk, namespace) =>
      var ks :| steps == Removals(ks) && (set k | k in ks) == DerivedKeys(c.objs, gvk, namespace);
      RemovalsRemove(c, ks);
      OwnRemoved(c.objs, gvk, namespace);
    case InformOp(gvk, x) =>
      NoSteps(c);
      if |steps| == 1 { OneStep(c, steps[0]); }
    case _ => OneStep(c, steps[0]);
  }

  lemma NoSteps(c: CacheState)
    ensures RunFrom(c, []) == c
  {
  }

  // ---------- one operation, performed ----------

  ghost predicate Wired(informers: map<GroupVersionKind, GVKInformer>, store: DedupStore, indexer: Indexer) {
    forall g :: g in informers ==>
      informers[g].gvk == g && informers[g].store == store && informers[g].indexer == indexer
  }

  /** The LRU shares no object with the informers' side. */
  ghost predicate Apart(cache: Cache, indexer: Indexer, informers: map<GroupVersionKind, GVKInformer>)
    reads cache, cache.reconstructLRU, cache.LruFrame()
  {
    indexer !in cache.LruFrame() && forall g :: g in informers ==> informers[g] !in cache.LruFrame()
  }

  /** An input of a kind without an informer starts one. */
  method Perform(client: DedupClient, indexer: Indexer, informers: map<GroupVersionKind, GVKInformer>, op: Op)
    returns (informers': map<GroupVersionKind, GVKInformer>, answer: Option<Value>, ghost steps: seq<CacheStep>)
    requires client.cache.Valid() && indexer.Valid()
    requires Wired(informers, client.cache.store, indexer) && Apart(client.cache, indexer, informers)
    modifies client.cache.StoreFrame(), client.cache.LruFrame(), indexer, informers.Values
    ensures client.cache.Valid() && indexer.Valid()
    ensures Wired(informers', client.cache.store, indexer) && Apart(client.cache, indexer, informers')
    ensures fresh(client.cache.LruFrame() - old(client.cache.LruFrame())) && fresh(informers'.Values - informers.Values)
    ensures client.cache.C() == RunFrom(old(client.cache.C()), steps)
    ensures StepsOf(old(client.cache.C().objs), op, steps)
    ensures op.ReadOp? ==> answer == Answer(old(client.cache.C()), op.key)
  {
    hide HeapOk, Rooted, Meaning, Linked, AfterStep, RunFrom, Canon, UpToDate, Inverse, NoEmptySets, OwnKeys;
    hide Cache.C, Indexer.Valid, DedupStore.Valid, DedupStore.A, Answer, MatchingKeys, DerivedKeys, Tidy, Named, Lookup;
    var cache := client.cache;
    ghost var c := cache.C();
    informers', answer := informers, None;
    match op
    case ReadOp(key) =>
      answer := cache.Get(key);
      steps := [Read(key)];
      OneStep(c, steps[0]);
    case WriteOp(gvk, obj) =>
      client.WriteThrough(gvk, obj);
      steps := [Write(ArrivingKey(gvk, obj), Canon(RawMap(obj)))];
      OneStep(c, steps[0]);
    case DeleteOp(gvk, namespace, name) =>
      client.Delete(gvk, namespace, name);
      steps := [Remove(ObjectKey(gvk, namespace, name))];
      OneStep(c, steps[0]);
    case DeleteAllOp(gvk, namespace) =>
      ghost var ks := client.DeleteAllOf(gvk, namespace);
      steps := Removals(ks);
    case InformOp(gvk, x) =>
      if gvk !in informers {
        var informer := new GVKInformer(gvk, cache.store, indexer);
        informers' := informers[gvk := informer];
      }
      steps := WatchSteps(ChangeOf(gvk, x));
      Inform(cache, indexer, informers'[gvk], x);
  }

  method Inform(cache: Cache, indexer: Indexer, informer: GVKInformer, x: Input)
    requires cache.Valid() && indexer.Valid() && informer.store == cache.store && informer.indexer == indexer
    requires indexer !in cache.LruFrame() && informer !in cache.LruFrame()
    modifies cache.StoreFrame(), indexer, informer
    ensures cache.Valid() && indexer.Valid() && cache.LruFrame() == old(cache.LruFrame())
    ensures cache.C() == RunFrom(old(cache.C()), WatchSteps(ChangeOf(informer.gvk, x)))
  {
    hide HeapOk, Rooted, Meaning, Linked, Canon, UpToDate, Inverse, NoEmptySets, OwnKeys, RunFrom, Named, Mirror;
    ghost var c := cache.C();
    WatchStepsRun(c, indexer.latest, indexer.funcs, ChangeOf(informer.gvk, x));
    match x
    case Listed(obj) => informer.Put(obj);
    case Watched(e) => var _ := informer.HandleEvent(e);
  }

  lemma WatchStepsRun(c: CacheState, latest: map<ObjectKey, Posting>, funcs: FuncMap, change: Change)
    ensures RunFrom(c, WatchSteps(change)) == c.(objs := Changed(Held(c.objs, latest), funcs, change).objs)
  {
    hide Canon, RunFrom;
    NoSteps(c);
    if !change.Nothing? { OneStep(c, WatchSteps(change)[0]); }
  }

  // ---------- whole runs ----------

  ghost function Flat(trace: seq<seq<CacheStep>>): seq<CacheStep> {
    if trace == [] then [] else Flat(trace[..|trace| - 1]) + trace[|trace| - 1]
  }

  ghost function StateAt(capacity: nat, trace: seq<seq<CacheStep>>, i: nat): CacheState
    requires i <= |trace|
  {
    RunFrom(Start(capacity), Flat(trace[..i]))
  }

  /** The trace is one of the operations', from an empty cache. */
  ghost predicate Traces(capacity: nat, ops: seq<Op>, trace: seq<seq<CacheStep>>) {
    |trace| == |ops| && forall i :: 0 <= i < |ops| ==> StepsOf(StateAt(capacity, trace, i).objs, ops[i], trace[i])
  }

  lemma TracesOne(capacity: nat, ops: seq<Op>, trace: seq<seq<CacheStep>>, op: Op, steps: seq<CacheStep>)
    requires Traces(capacity, ops, trace) && StepsOf(StateAt(capacity, trace, |trace|).objs, op, steps)
    ensures Traces(capacity, ops + [op], trace + [steps])
    ensures StateAt(capacity, trace + [steps], |trace| + 1) == RunFrom(StateAt(capacity, trace, |trace|), steps)
    ensures forall i :: 0 <= i <= |trace| ==> StateAt(capacity, trace + [steps], i) == StateAt(capacity, trace, i)
  {
    hide StepsOf, RunFrom;
    var now := trace + [steps];
    assert forall i :: 0 <= i <= |trace| ==> now[..i] == trace[..i];
    assert now[..|trace| + 1][..|trace|] == trace[..|trace|] && now[..|trace| + 1] == now;
    RunAppend(Start(capacity), Flat(trace[..|trace|]), steps);
  }

  method SetUp(size: int, hash: Node -> uint64, render: Value -> string) returns (client: DedupClient, indexer: Indexer)
    ensures client.cache.Valid() && indexer.Valid() && fresh(indexer)
    ensures fresh(client.cache.StoreFrame()) && fresh(client.cache.LruFrame())
    ensures client.cache.C() == Start(if size <= 0 then 0 else size)
    ensures Wired(map[], client.cache.store, indexer) && Apart(client.cache, indexer, map[])
  {
    hide Cache.C, Indexer.Valid, DedupStore.Valid;
    var cache := new Cache(hash, render, size);
    client := new DedupClient(cache);
    indexer := new Indexer();
  }

  ghost predicate Answered(capacity: nat, ops: seq<Op>, trace: seq<seq<CacheStep>>, answers: seq<Option<Value>>) {
    && Traces(capacity, ops, trace) && |answers| == |ops|
    && forall i :: 0 <= i < |ops| && ops[i].ReadOp? ==> answers[i] == Answer(StateAt(capacity, trace, i), ops[i].key)
  }

  lemma AnsweredOne(capacity: nat, ops: seq<Op>, trace: seq<seq<CacheStep>>, answers: seq<Option<Value>>, i: nat,
      steps: seq<CacheStep>, answer: Option<Value>)
    requires i < |ops| && Answered(capacity, ops[..i], trace, answers)
    requires StepsOf(StateAt(capacity, trace, i).objs, ops[i], steps)
    requires ops[i].ReadOp? ==> answer == Answer(StateAt(capacity, trace, i), ops[i].key)
    ensures Answered(capacity, ops[..i + 1], trace + [steps], answers + [answer])
    ensures StateAt(capacity, trace + [steps], i + 1) == RunFrom(StateAt(capacity, trace, i), steps)
  {
    hide StepsOf, RunFrom, StateAt, Answer;
    assert ops[..i + 1] == ops[..i] + [ops[i]];
    TracesOne(capacity, ops[..i], trace, ops[i], steps);
  }

  /** From an empty cache and index, every run of operations is a run of the machine, and reads answer as it does. */
  method Replay(ops: seq<Op>, size: int, hash: Node -> uint64, render: Value -> string)
    returns (cache: Cache, answers: seq<Option<Value>>, ghost trace: seq<seq<CacheStep>>)
    ensures cache.Valid() && |answers| == |ops|
    ensures var capacity := if size <= 0 then 0 else size;
            && Traces(capacity, ops, trace)
            && cache.C() == StateAt(capacity, trace, |ops|)
            && (forall i :: 0 <= i < |ops| && ops[i].ReadOp? ==>
                  answers[i] == Answer(StateAt(capacity, trace, i), ops[i].key))
            && ((forall i :: 0 <= i < |ops| ==> TidyOp(ops[i])) ==>
                  cache.C().objs == PlainRun(ops) && OwnKeys(cache.C().objs))
  {
    hide HeapOk, Rooted, Meaning, Linked, RunFrom, StateAt, Traces, StepsOf, UpToDate, Inverse, NoEmptySets, Answer;
    hide TidyOp, OwnKeys, PlainRun, Answered, Apart, Wired;
    hide Cache.Valid, Cache.C, Indexer.Valid, DedupStore.Valid, DedupStore.A;
    var client, indexer := SetUp(size, hash, render);
    cache := client.cache;
    var informers: map<GroupVersionKind, GVKInformer> := map[];
    ghost var capacity: nat := if size <= 0 then 0 else size;
    answers, trace := [], [];
    TracesNothing(capacity, ops);
    var i := 0;
    while i < |ops|
      invariant 0 <= i <= |ops| && |trace| == i
      invariant fresh(cache.StoreFrame()) && fresh(cache.LruFrame()) && fresh(indexer) && fresh(informers.Values)
      invariant client.cache == cache && cache.Valid() && indexer.Valid()
      invariant Wired(informers, cache.store, indexer) && Apart(cache, indexer, informers)
      invariant Answered(capacity, ops[..i], trace, answers) && cache.C() == StateAt(capacity, trace, i)
    {
      ghost var steps;
      var answer;
      informers, answer, steps := Perform(client, indexer, informers, ops[i]);
      AnsweredOne(capacity, ops, trace, answers, i, steps, answer);
      answers, trace := answers + [answer], trace + [steps];
      i := i + 1;
    }
    assert ops[..|ops|] == ops;
    TidyObjects(capacity, ops, trace, answers);
  }

  lemma TidyObjects(capacity: nat, ops: seq<Op>, trace: seq<seq<CacheStep>>, answers: seq<Option<Value>>)
    requires Answered(capacity, ops, trace, answers)
    ensures Traces(capacity, ops, trace) && |answers| == |ops|
    ensures forall i :: 0 <= i < |ops| && ops[i].ReadOp? ==>
              answers[i] == Answer(StateAt(capacity, trace, i), ops[i].key)
    ensures (forall i :: 0 <= i < |ops| ==> TidyOp(ops[i])) ==>
              StateAt(capacity, trace, |ops|).objs == PlainRun(ops) && OwnKeys(PlainRun(ops))
  {
    hide TidyOp, Traces, StateAt, PlainRun, OwnKeys;
    if forall i :: 0 <= i < |ops| ==> TidyOp(ops[i]) {
      assert ops[..|ops|] == ops;
      PlainObjects(capacity, ops, trace, |ops|);
    }
  }

  lemma TracesNothing(capacity: nat, ops: seq<Op>)
    ensures Answered(capacity, ops[..0], [], []) && StateAt(capacity, [], 0) == Start(capacity)
  {
  }

  lemma {:induction false} PlainObjects(capacity: nat, ops: seq<Op>, trace: seq<seq<CacheStep>>, i: nat)
    requires Traces(capacity, ops, trace) && i <= |ops| && forall j :: 0 <= j < |ops| ==> TidyOp(ops[j])
    ensures StateAt(capacity, trace, i).objs == PlainRun(ops[..i]) && OwnKeys(PlainRun(ops[..i]))
  {
    hide StepsOf, TidyOp, PlainAfter, OwnKeys;
    if i == 0 {
      TracesNothing(capacity, ops);
      RunOwnKeys([]);
      assert trace[..0] == [] && ops[..0] == [];
    } else {
      PlainObjects(capacity, ops, trace, i - 1);
      assert trace[..i][..i - 1] == trace[..i - 1] && ops[..i][..i - 1] == ops[..i - 1];
      RunAppend(Start(capacity), Flat(trace[..i - 1]), trace[i - 1]);
      StepsObjects(StateAt(capacity, trace, i - 1), ops[i - 1], trace[i - 1]);
      PlainOwnKeys(PlainRun(ops[..i - 1]), ops[i - 1]);
    }
  }

  // ---------- reads that answer as a plain map would ----------

  /** Reads stay within the keys, and informers send nothing of them. */
  ghost predicate ReadsApart(ops: seq<Op>, keys: iset<ObjectKey>) {
    forall i :: 0 <= i < |ops| ==>
      && (ops[i].ReadOp? ==> ops[i].key in keys)
      && (ops[i].InformOp? ==> forall k :: k in keys ==> !Touches(ChangeOf(ops[i].gvk, ops[i].x), k))
  }

  lemma {:induction false} FlatAllowed(capacity: nat, ops: seq<Op>, trace: seq<seq<CacheStep>>, keys: iset<ObjectKey>,
      i: nat)
    requires Traces(capacity, ops, trace) && ReadsApart(ops, keys) && i <= |ops|
    ensures Allowed(Flat(trace[..i]), keys, iset k: ObjectKey | k !in keys)
  {
    hide Canon;
    if i > 0 {
      FlatAllowed(capacity, ops, trace, keys, i - 1);
      assert trace[..i][..i - 1] == trace[..i - 1];
      assert StepsOf(StateAt(capacity, trace, i - 1).objs, ops[i - 1], trace[i - 1]);
      StepsAllowed(StateAt(capacity, trace, i - 1).objs, ops[i - 1], trace[i - 1], keys);
    }
  }

  lemma StepsAllowed(objs: Objects, op: Op, steps: seq<CacheStep>, keys: iset<ObjectKey>)
    requires StepsOf(objs, op, steps) && (op.ReadOp? ==> op.key in keys)
    requires op.InformOp? ==> forall k :: k in keys ==> !Touches(ChangeOf(op.gvk, op.x), k)
    ensures Allowed(steps, keys, iset k: ObjectKey | k !in keys)
  {
    hide Canon, DerivedKeys;
  }

  /** In every run in which no two of the keys read share a cache key and informers leave them alone, each read answers
      what a plain map that went through the same operations holds. */
  lemma ReadsArePlain(capacity: nat, ops: seq<Op>, trace: seq<seq<CacheStep>>, keys: iset<ObjectKey>, i: nat)
    requires Traces(capacity, ops, trace) && forall j :: 0 <= j < |ops| ==> TidyOp(ops[j])
    requires InjectiveOn(keys) && ReadsApart(ops, keys) && i < |ops| && ops[i].ReadOp?
    ensures Answer(StateAt(capacity, trace, i), ops[i].key) == Lookup(PlainRun(ops[..i]), ops[i].key)
  {
    hide StepsOf, TidyOp;
    var watched := iset k: ObjectKey | k !in keys;
    FlatAllowed(capacity, ops, trace, keys, i);
    UnwatchedIsClean(Flat(trace[..i]), keys, watched);
    RunStaysCoherent(Start(capacity), Flat(trace[..i]), keys);
    PlainObjects(capacity, ops, trace, i);
  }
}
