/** The cache's reads and writes taken apart at their locks: a read looks into the LRU, fetches from the store and fills
    the LRU; a write changes the store and then invalidates the entry; an informer changes the store alone. The
    sections of different calls interleave. */
module LockSections {
  import opened Values
  import opened Plain
  import opened Recency
  import opened Coherence

  /** Where a goroutine stands: a read that missed, one that fetched, or a write that has not invalidated yet. */
  datatype Call = Idle | Missed(key: ObjectKey) | Fetched(key: ObjectKey, v: Value) | Wrote(key: ObjectKey)

  datatype State = State(c: CacheState, calls: map<nat, Call>)

  datatype Section =
    | Look(t: nat, key: ObjectKey)
    | Fetch(t: nat)
    | Fill(t: nat)
    | StoreWrite(t: nat, key: ObjectKey, v: Value)
    | StoreRemove(t: nat, key: ObjectKey)
    | Invalidate(t: nat)
    | Inform(t: nat, key: ObjectKey, o: Option<Value>)

  function Of(s: State, t: nat): Call {
    if t in s.calls then s.calls[t] else Idle
  }

  ghost function Started(capacity: nat): State {
    State(Start(capacity), map[])
  }

  ghost predicate Enabled(s: State, step: Section) {
    match step
    case Fetch(t) => Of(s, t).Missed?
    case Fill(t) => Of(s, t).Fetched?
    case Invalidate(t) => Of(s, t).Wrote?
    case _ => Of(s, step.t).Idle?
  }

  /** What a read finds in its first section, if the LRU is on and holds the key. */
  ghost function Hit(c: CacheState, key: ObjectKey): Option<Value> {
    if c.capacity > 0 then Find(c.lru, LruKey(key)) else None
  }

  ghost function Do(s: State, step: Section): State
    requires Enabled(s, step)
  {
    match step
    case Look(t, key) =>
      if Hit(s.c, key).Some? then s.(c := s.c.(lru := Got(s.c.lru, LruKey(key))))
      else s.(calls := s.calls[t := Missed(key)])
    case Fetch(t) =>
      var key := Of(s, t).key;
      s.(calls := s.calls[t := if s.c.capacity > 0 && key in s.c.objs then Fetched(key, s.c.objs[key]) else Idle])
    case Fill(t) =>
      var key, v := Of(s, t).key, Of(s, t).v;
      State(s.c.(lru := PutIn(s.c.capacity, s.c.lru, LruKey(key), v)), s.calls[t := Idle])
    case StoreWrite(t, key, v) => State(s.c.(objs := s.c.objs[key := v]), s.calls[t := Wrote(key)])
    case StoreRemove(t, key) => State(s.c.(objs := s.c.objs - {key}), s.calls[t := Wrote(key)])
    case Invalidate(t) => State(s.c.(lru := Invalidated(s.c, Of(s, t).key)), s.calls[t := Idle])
    case Inform(_, key, o) => s.(c := s.c.(objs := if o.Some? then s.c.objs[key := o.value] else s.c.objs - {key}))
  }

  /** The state after the steps, if each of them was enabled in turn. */
  ghost function After(s: State, steps: seq<Section>): Option<State>
    decreases |steps|
  {
    if steps == [] then Some(s)
    else if Enabled(s, steps[0]) then After(Do(s, steps[0]), steps[1..])
    else None
  }

  /** A look into the LRU that finds the key finds what the store holds at that moment. */
  ghost predicate RightLook(s: State, step: Section) {
    step.Look? && Hit(s.c, step.key).Some? ==> Hit(s.c, step.key) == Lookup(s.c.objs, step.key)
  }

  ghost predicate AllRight(s: State, steps: seq<Section>)
    decreases |steps|
  {
    steps == [] ||
    (Enabled(s, steps[0]) ==> RightLook(s, steps[0]) && AllRight(Do(s, steps[0]), steps[1..]))
  }

  ghost predicate AtRest(s: State) {
    forall t :: Of(s, t) == Idle
  }

  // ---------- programs ----------

  /** Which goroutine may read which key, which may write or remove it through the client, and which informer may. */
  datatype Program = Program(rd: iset<(nat, ObjectKey)>, wr: iset<(nat, ObjectKey)>, wt: iset<(nat, ObjectKey)>)

  ghost function ReadKeys(p: Program): iset<ObjectKey> {
    iset x | x in p.rd :: x.1
  }

  ghost predicate May(p: Program, step: Section) {
    match step
    case Look(t, key) => (t, key) in p.rd
    case StoreWrite(t, key, _) => (t, key) in p.wr
    case StoreRemove(t, key) => (t, key) in p.wr
    case Inform(t, key, _) => (t, key) in p.wt
    case _ => true
  }

  ghost predicate RunOf(p: Program, steps: seq<Section>) {
    forall i :: 0 <= i < |steps| ==> May(p, steps[i])
  }

  /** No goroutine writes a key that another reads. */
  ghost predicate OwnWrites(p: Program) {
    forall t, u, k :: (t, k) in p.rd && (u, k) in p.wr ==> t == u
  }

  /** No informer writes a key that is read, and no key that is read shares its cache key with one that is read and
      written. */
  ghost predicate Separate(p: Program) {
    && (forall t, u, k :: (t, k) in p.rd ==> (u, k) !in p.wt)
    && forall t, u, v, j, k :: (t, j) in p.rd && (u, j) in p.wr && (v, k) in p.rd && LruKey(j) == LruKey(k) ==> j == k
  }

  // ---------- what a run keeps ----------

  /** A write of a key that some read has fetched and not yet filled in. */
  ghost predicate Disturbs(s: State, step: Section) {
    && (step.StoreWrite? || step.StoreRemove?)
    && exists t :: t in s.calls && s.calls[t].Fetched? && s.calls[t].key == step.key
  }

  ghost predicate Writing(s: State, k: ObjectKey) {
    exists t :: t in s.calls && s.calls[t] == Wrote(k)
  }

  /** Unless a write of the key is on its way to invalidate it, what the LRU holds is what the store holds. */
  ghost predicate OkFor(s: State, k: ObjectKey) {
    Find(s.c.lru, LruKey(k)).Some? && !Writing(s, k) ==> Find(s.c.lru, LruKey(k)) == Lookup(s.c.objs, k)
  }

  ghost predicate CallOk(s: State, p: Program, t: nat) {
    match Of(s, t)
    case Idle => true
    case Missed(k) => (t, k) in p.rd
    case Wrote(k) => (t, k) in p.wr
    case Fetched(k, v) => (t, k) in p.rd && s.c.capacity > 0 && Lookup(s.c.objs, k) == Some(v)
  }

  /** What is stored was written. */
  ghost predicate Known(s: State, p: Program) {
    forall k :: k in s.c.objs ==> exists u: nat :: (u, k) in p.wr || (u, k) in p.wt
  }

  ghost predicate Invariant(s: State, p: Program) {
    && Distinct(s.c.lru) && (s.c.capacity == 0 ==> s.c.lru == []) && Known(s, p)
    && (forall k :: k in ReadKeys(p) ==> OkFor(s, k))
    && forall t :: CallOk(s, p, t)
  }

  lemma CallsKept(s: State, p: Program, step: Section, t: nat)
    requires Invariant(s, p) && Separate(p) && Enabled(s, step) && May(p, step) && !Disturbs(s, step)
    ensures CallOk(Do(s, step), p, t)
  {
    hide Find, Got, PutIn, Distinct, OkFor, Known;
    assert CallOk(s, p, t) && CallOk(s, p, step.t);
    if t != step.t {
      assert Of(Do(s, step), t) == Of(s, t);
      if Of(s, t).Fetched? && (step.StoreWrite? || step.StoreRemove?) { assert t in s.calls; }
    }
  }

  lemma WritingKept(s: State, step: Section, k: ObjectKey)
    requires Enabled(s, step) && Writing(s, k) && !(step.Invalidate? && Of(s, step.t) == Wrote(k))
    ensures Writing(Do(s, step), k)
  {
    hide Find, Got, PutIn;
    var t :| t in s.calls && s.calls[t] == Wrote(k);
    assert Of(s, t) == Wrote(k);
    var r := Do(s, step);
    assert t in r.calls && r.calls[t] == Wrote(k);
  }

  lemma WriteWrites(s: State, step: Section)
    requires Enabled(s, step) && (step.StoreWrite? || step.StoreRemove?)
    ensures Writing(Do(s, step), step.key)
  {
    var r := Do(s, step);
    assert step.t in r.calls && r.calls[step.t] == Wrote(step.key);
  }

  lemma NothingFound(key: string)
    ensures Find<Value>([], key) == None
  {
  }

  /** A fill touches the cache key of no other key that is read. */
  lemma FillsOwn(s: State, p: Program, t: nat, k: ObjectKey)
    requires Invariant(s, p) && Separate(p) && Of(s, t).Fetched? && k in ReadKeys(p)
    requires LruKey(Of(s, t).key) == LruKey(k)
    ensures Of(s, t).key == k
  {
    hide Distinct, OkFor, LruKey;
    assert CallOk(s, p, t);
    var j := Of(s, t).key;
    assert j in s.c.objs;
    var u: nat :| (u, j) in p.wr || (u, j) in p.wt;
    var x :| x in p.rd && x.1 == k;
    assert (x.0, k) in p.rd;
  }

  lemma OkKept(s: State, p: Program, step: Section, k: ObjectKey)
    requires Invariant(s, p) && Separate(p) && k in ReadKeys(p)
    requires Enabled(s, step) && May(p, step) && !Disturbs(s, step)
    ensures OkFor(Do(s, step), k)
  {
    hide Find, Got, PutIn, Without, Known, Distinct, LruKey;
    var r := Do(s, step);
    assert OkFor(s, k) && CallOk(s, p, step.t);
    LruKept(s, p, step);
    NothingFound(LruKey(k));
    match step {
      case Look(_, key) => FindGot(s.c.lru, LruKey(key), LruKey(k));
      case Fill(t) =>
        FindPut(s.c.capacity, s.c.lru, LruKey(Of(s, t).key), Of(s, t).v, LruKey(k));
        if LruKey(Of(s, t).key) == LruKey(k) { FillsOwn(s, p, t, k); }
      case Invalidate(t) => FindInvalidated(s.c.lru, LruKey(Of(s, t).key), LruKey(k));
      case StoreWrite(_, _, _) => WriteWrites(s, step);
      case StoreRemove(_, _) => WriteWrites(s, step);
      case Inform(_, key, _) =>
        var x :| x in p.rd && x.1 == k;
        assert (x.0, k) in p.rd;
      case Fetch(_) =>
    }
    if Writing(s, k) && !(step.Invalidate? && Of(s, step.t) == Wrote(k)) { WritingKept(s, step, k); }
  }

  lemma LruKept(s: State, p: Program, step: Section)
    requires Invariant(s, p) && Enabled(s, step)
    ensures Distinct(Do(s, step).c.lru) && Do(s, step).c.capacity == s.c.capacity
    ensures s.c.capacity == 0 ==> Do(s, step).c.lru == []
  {
    hide Find, Got, PutIn, Without, Known, OkFor;
    assert CallOk(s, p, step.t);
    match step
    case Look(_, key) => FindGot(s.c.lru, LruKey(key), "");
    case Fill(t) => FindPut(s.c.capacity, s.c.lru, LruKey(Of(s, t).key), Of(s, t).v, "");
    case Invalidate(t) => FindInvalidated(s.c.lru, LruKey(Of(s, t).key), "");
    case _ =>
  }

  lemma KnownKept(s: State, p: Program, step: Section)
    requires Known(s, p) && Enabled(s, step) && May(p, step)
    ensures Known(Do(s, step), p)
  {
    hide Find, Got, PutIn, Without, Distinct;
  }

  lemma StepKeeps(s: State, p: Program, step: Section)
    requires Invariant(s, p) && Separate(p) && Enabled(s, step) && May(p, step) && !Disturbs(s, step)
    ensures Invariant(Do(s, step), p)
  {
    hide OkFor, CallOk, Disturbs, Distinct, Find, PutIn, Got, Known, Separate, May;
    LruKept(s, p, step);
    KnownKept(s, p, step);
    forall k | k in ReadKeys(p) ensures OkFor(Do(s, step), k) { OkKept(s, p, step, k); }
    forall t ensures CallOk(Do(s, step), p, t) { CallsKept(s, p, step, t); }
  }

  lemma StartOk(capacity: nat, p: Program)
    ensures Invariant(Started(capacity), p)
  {
  }

  /** When no call is under way, the invariant is coherence. */
  lemma RestIsCoherent(s: State, p: Program)
    requires Invariant(s, p) && AtRest(s)
    ensures Coherent(s.c, ReadKeys(p))
  {
    hide Find, Known;
    forall k | k in ReadKeys(p) && Find(s.c.lru, LruKey(k)).Some?
      ensures Find(s.c.lru, LruKey(k)) == Lookup(s.c.objs, k)
    {
      assert OkFor(s, k);
      assert forall t :: t in s.calls ==> s.calls[t] == Of(s, t);
    }
  }

  // ---------- runs in which no write comes between a fetch and its fill ----------

  ghost predicate Calm(s: State, steps: seq<Section>)
    decreases |steps|
  {
    steps == [] ||
    (Enabled(s, steps[0]) ==> !Disturbs(s, steps[0]) && Calm(Do(s, steps[0]), steps[1..]))
  }

  lemma {:induction false} RunKeeps(s: State, p: Program, steps: seq<Section>)
    requires Invariant(s, p) && Separate(p) && RunOf(p, steps) && Calm(s, steps) && After(s, steps).Some?
    ensures Invariant(After(s, steps).value, p)
    decreases |steps|
  {
    hide Invariant, Separate, May, Do, Enabled, Disturbs;
    if steps != [] {
      assert May(p, steps[0]);
      StepKeeps(s, p, steps[0]);
      RunKeeps(Do(s, steps[0]), p, steps[1..]);
    }
  }

  /** A run in which no write of a key starts between a fetch of it and the fill leaves the cache coherent whenever it
      comes to rest, whoever writes. */
  lemma CalmIsCoherent(capacity: nat, p: Program, steps: seq<Section>)
    requires Separate(p) && RunOf(p, steps) && Calm(Started(capacity), steps)
    requires After(Started(capacity), steps).Some? && AtRest(After(Started(capacity), steps).value)
    ensures Coherent(After(Started(capacity), steps).value.c, ReadKeys(p))
  {
    hide Invariant, Separate, May, Do, Enabled, Disturbs;
    StartOk(capacity, p);
    RunKeeps(Started(capacity), p, steps);
    RestIsCoherent(After(Started(capacity), steps).value, p);
  }

  // ---------- exactly when a program is safe ----------

  lemma OwnNeverDisturbs(s: State, p: Program, step: Section)
    requires Invariant(s, p) && OwnWrites(p) && Enabled(s, step) && May(p, step)
    ensures !Disturbs(s, step)
  {
    hide Distinct, OkFor, Known;
    assert forall t :: t in s.calls ==> CallOk(s, p, t) && Of(s, t) == s.calls[t];
  }

  /** The only goroutine that writes a key is not writing it while it reads. */
  lemma OwnLookIsRight(s: State, p: Program, step: Section)
    requires Invariant(s, p) && OwnWrites(p) && Enabled(s, step) && May(p, step)
    ensures RightLook(s, step)
  {
    hide Distinct, Known, Find;
    if step.Look? {
      assert (step.t, step.key) in p.rd && step.key in ReadKeys(p);
      assert OkFor(s, step.key);
      assert forall u :: u in s.calls ==> CallOk(s, p, u) && Of(s, u) == s.calls[u];
    }
  }

  lemma {:induction false} SafeRun(s: State, p: Program, steps: seq<Section>)
    requires Invariant(s, p) && Separate(p) && OwnWrites(p) && RunOf(p, steps)
    ensures AllRight(s, steps) && (After(s, steps).Some? ==> Invariant(After(s, steps).value, p))
    decreases |steps|
  {
    hide Invariant, Separate, OwnWrites, May, Do, Enabled, Disturbs, RightLook;
    if steps != [] && Enabled(s, steps[0]) {
      assert May(p, steps[0]);
      OwnNeverDisturbs(s, p, steps[0]);
      OwnLookIsRight(s, p, steps[0]);
      StepKeeps(s, p, steps[0]);
      SafeRun(Do(s, steps[0]), p, steps[1..]);
    }
  }

  /** The sections in which a goroutine reads a key that is not in the LRU, up to the fill. */
  ghost function HalfRead(t: nat, k: ObjectKey): seq<Section> {
    [Look(t, k), Fetch(t)]
  }

  ghost function WholeWrite(u: nat, k: ObjectKey, o: Option<Value>): seq<Section> {
    [if o.Some? then StoreWrite(u, k, o.value) else StoreRemove(u, k), Invalidate(u)]
  }

  lemma {:induction false} AfterAppend(s: State, a: seq<Section>, b: seq<Section>)
    requires After(s, a).Some?
    ensures After(s, a + b) == After(After(s, a).value, b)
    decreases |a|
  {
    hide Do, Enabled;
    if a == [] {
      assert a + b == b;
    } else {
      assert (a + b)[0] == a[0] && (a + b)[1..] == a[1..] + b;
      AfterAppend(Do(s, a[0]), a[1..], b);
    }
  }

  lemma AfterTwo(s: State, a: Section, b: Section)
    requires Enabled(s, a) && Enabled(Do(s, a), b)
    ensures After(s, [a, b]) == Some(Do(Do(s, a), b))
  {
    hide Do, Enabled;
    assert [a, b][1..] == [b] && [b][1..] == [];
    assert After(Do(s, a), [b]) == Some(Do(Do(s, a), b));
  }

  /** A write through and half a read by another goroutine, or the same one, after the write. */
  lemma Fetches(capacity: nat, t: nat, u: nat, k: ObjectKey, v: Value)
    requires capacity > 0
    ensures var r := After(Started(capacity), WholeWrite(u, k, Some(v)) + HalfRead(t, k));
            && r.Some? && r.value.c == CacheState(map[k := v], [], capacity) && Of(r.value, t) == Fetched(k, v)
            && forall x :: x != t ==> Of(r.value, x) == Idle
  {
    var s0 := Started(capacity);
    var s1 := Do(s0, StoreWrite(u, k, v));
    var s2 := Do(s1, Invalidate(u));
    AfterTwo(s0, StoreWrite(u, k, v), Invalidate(u));
    assert s2.c.objs == map[k := v] && s2.c.lru == [];
    assert Hit(s2.c, k) == None;
    AfterTwo(s2, Look(t, k), Fetch(t));
    AfterAppend(s0, WholeWrite(u, k, Some(v)), HalfRead(t, k));
  }

  /** If another goroutine writes or removes the key there, the LRU holds the old object once all calls are over. */
  lemma OtherWriteGoesStale(capacity: nat, t: nat, u: nat, k: ObjectKey, v: Value, o: Option<Value>)
    requires capacity > 0 && t != u && o != Some(v)
    ensures var steps := WholeWrite(u, k, Some(v)) + HalfRead(t, k) + (WholeWrite(u, k, o) + [Fill(t)]);
            var r := After(Started(capacity), steps);
            && r.Some? && AtRest(r.value) && r.value.c.capacity == capacity
            && Find(r.value.c.lru, LruKey(k)) == Some(v) && Lookup(r.value.c.objs, k) == o
  {
    Fetches(capacity, t, u, k, v);
    var first := WholeWrite(u, k, Some(v)) + HalfRead(t, k);
    var s := After(Started(capacity), first).value;
    var write := WholeWrite(u, k, o)[0];
    var s1 := Do(s, write);
    var s2 := Do(s1, Invalidate(u));
    assert Of(s1, u) == Wrote(k) && Of(s1, t) == Fetched(k, v) && Of(s2, t) == Fetched(k, v);
    AfterTwo(s, write, Invalidate(u));
    AfterAppend(s, WholeWrite(u, k, o), [Fill(t)]);
    assert s2.c.lru == [];
    var s3 := Do(s2, Fill(t));
    assert [Fill(t)][1..] == [] && After(s2, [Fill(t)]) == Some(s3);
    assert s3.c.lru == [(LruKey(k), v)];
    AfterAppend(Started(capacity), first, WholeWrite(u, k, o) + [Fill(t)]);
    assert After(Started(capacity), first + (WholeWrite(u, k, o) + [Fill(t)])) == Some(s3);
    assert Lookup(s3.c.objs, k) == o;
    assert Find(s3.c.lru, LruKey(k)) == Some(v);
    forall x: nat ensures Of(s3, x) == Idle { assert x != t ==> Of(s, x) == Idle; }
  }

  /** A read of j fills in the cache key it shares with k. */
  lemma SharedKeyGoesStale(capacity: nat, t: nat, u: nat, j: ObjectKey, k: ObjectKey, v: Value)
    requires capacity > 0 && j != k && LruKey(j) == LruKey(k)
    ensures var r := After(Started(capacity), WholeWrite(u, j, Some(v)) + HalfRead(t, j) + [Fill(t)]);
            && r.Some? && AtRest(r.value) && r.value.c.capacity == capacity
            && Find(r.value.c.lru, LruKey(k)) == Some(v) && Lookup(r.value.c.objs, k) == None
  {
    Fetches(capacity, t, u, j, v);
    var first := WholeWrite(u, j, Some(v)) + HalfRead(t, j);
    var s := After(Started(capacity), first).value;
    var r := Do(s, Fill(t));
    assert [Fill(t)][1..] == [] && After(s, [Fill(t)]) == Some(r);
    assert r.c.lru == [(LruKey(j), v)];
    AfterAppend(Started(capacity), first, [Fill(t)]);
    assert After(Started(capacity), first + [Fill(t)]) == Some(r);
    assert Find(r.c.lru, LruKey(k)) == Some(v);
    forall x: nat ensures Of(r, x) == Idle { assert x != t ==> Of(s, x) == Idle; }
  }

  /** An informer writes after the fill. */
  lemma InformerGoesStale(capacity: nat, t: nat, u: nat, k: ObjectKey, v: Value, o: Option<Value>)
    requires capacity > 0 && o != Some(v)
    ensures var steps := [Inform(u, k, Some(v))] + HalfRead(t, k) + [Fill(t), Inform(u, k, o)];
            var r := After(Started(capacity), steps);
            && r.Some? && AtRest(r.value) && r.value.c.capacity == capacity
            && Find(r.value.c.lru, LruKey(k)) == Some(v) && Lookup(r.value.c.objs, k) == o
  {
    var s0 := Started(capacity);
    var s1 := Do(s0, Inform(u, k, Some(v)));
    assert [Inform(u, k, Some(v))][1..] == [] && After(s0, [Inform(u, k, Some(v))]) == Some(s1);
    assert s1.c.objs == map[k := v] && Hit(s1.c, k) == None;
    AfterTwo(s1, Look(t, k), Fetch(t));
    AfterAppend(s0, [Inform(u, k, Some(v))], HalfRead(t, k));
    var s3 := Do(Do(s1, Look(t, k)), Fetch(t));
    assert Of(s3, t) == Fetched(k, v) && s3.c == s1.c;
    var s4 := Do(s3, Fill(t));
    assert s4.c.lru == [(LruKey(k), v)];
    AfterTwo(s3, Fill(t), Inform(u, k, o));
    AfterAppend(s0, [Inform(u, k, Some(v))] + HalfRead(t, k), [Fill(t), Inform(u, k, o)]);
  }

  // ---------- undisturbed, the sections make up the atomic steps ----------

  ghost function WholeRead(c: CacheState, t: nat, k: ObjectKey): seq<Section> {
    if Hit(c, k).Some? then [Look(t, k)]
    else HalfRead(t, k) + if c.capacity > 0 && k in c.objs then [Fill(t)] else []
  }

  /** A read whose sections nothing interrupts is the atomic read, and a write the atomic write or removal. */
  lemma SectionsMakeSteps(s: State, t: nat, k: ObjectKey, o: Option<Value>)
    requires Of(s, t) == Idle
    ensures var r := After(s, WholeRead(s.c, t, k));
            r.Some? && r.value.c == AfterStep(s.c, Read(k)) && Of(r.value, t) == Idle
    ensures var r := After(s, WholeWrite(t, k, o));
            && r.Some? && Of(r.value, t) == Idle
            && r.value.c == AfterStep(s.c, if o.Some? then Write(k, o.value) else Remove(k))
  {
    hide Find, Got, PutIn, Without;
    var write := WholeWrite(t, k, o)[0];
    AfterTwo(s, write, Invalidate(t));
    if Hit(s.c, k).Some? {
      assert [Look(t, k)][1..] == [] && After(s, [Look(t, k)]) == Some(Do(s, Look(t, k)));
    } else {
      AfterTwo(s, Look(t, k), Fetch(t));
      var r := Do(Do(s, Look(t, k)), Fetch(t));
      if s.c.capacity > 0 && k in s.c.objs {
        assert [Fill(t)][1..] == [] && After(r, [Fill(t)]) == Some(Do(r, Fill(t)));
        AfterAppend(s, HalfRead(t, k), [Fill(t)]);
      } else {
        assert HalfRead(t, k) + [] == HalfRead(t, k);
      }
    }
  }

  ghost predicate RestsCoherent(capacity: nat, p: Program, steps: seq<Section>) {
    var r := After(Started(capacity), steps);
    r.Some? && AtRest(r.value) ==> Coherent(r.value.c, ReadKeys(p))
  }

  /** A run of the program that is at rest with a stale entry for a key it reads. */
  ghost predicate Stale(capacity: nat, p: Program, steps: seq<Section>, t: nat, k: ObjectKey) {
    && RunOf(p, steps) && (t, k) in p.rd
    && var r := After(Started(capacity), steps);
       && r.Some? && AtRest(r.value) && r.value.c.capacity == capacity
       && Find(r.value.c.lru, LruKey(k)).Some? && Find(r.value.c.lru, LruKey(k)) != Lookup(r.value.c.objs, k)
  }

  lemma UnsafeGoesStale(capacity: nat, p: Program)
    requires capacity > 0 && !(OwnWrites(p) && Separate(p))
    ensures exists steps, t, k :: Stale(capacity, p, steps, t, k)
  {
    hide After, Find, AtRest, LruKey;
    var v, w := Leaf(Nil), Leaf(Bool(true));
    if t, u, k :| (t, k) in p.rd && (u, k) in p.wr && t != u {
      OtherWriteGoesStale(capacity, t, u, k, v, Some(w));
      var steps := WholeWrite(u, k, Some(v)) + HalfRead(t, k) + (WholeWrite(u, k, Some(w)) + [Fill(t)]);
      assert Stale(capacity, p, steps, t, k);
    } else if t, u, k :| (t, k) in p.rd && (u, k) in p.wt {
      InformerGoesStale(capacity, t, u, k, v, Some(w));
      assert Stale(capacity, p, [Inform(u, k, Some(v))] + HalfRead(t, k) + [Fill(t), Inform(u, k, Some(w))], t, k);
    } else {
      var t, u, x, j, k :| (t, j) in p.rd && (u, j) in p.wr && (x, k) in p.rd && LruKey(j) == LruKey(k) && j != k;
      SharedKeyGoesStale(capacity, t, u, j, k, v);
      assert Stale(capacity, p, WholeWrite(u, j, Some(v)) + HalfRead(t, j) + [Fill(t)], x, k);
    }
  }

  lemma {:induction false} RightAppend(s: State, a: seq<Section>, step: Section)
    requires After(s, a).Some? && Enabled(After(s, a).value, step) && AllRight(s, a + [step])
    ensures RightLook(After(s, a).value, step)
    decreases |a|
  {
    hide Do, Enabled, RightLook;
    if a == [] {
      assert (a + [step])[0] == step;
    } else {
      assert (a + [step])[0] == a[0] && (a + [step])[1..] == a[1..] + [step];
      RightAppend(Do(s, a[0]), a[1..], step);
    }
  }

  /** With the LRU on, every run of a program leaves the cache coherent whenever it comes to rest if and only if no
      goroutine writes a key that another reads, no informer writes a key that is read, and no key that is read shares
      its cache key with one that is read and written. */
  lemma RestCoherentIff(capacity: nat, p: Program)
    requires capacity > 0
    ensures OwnWrites(p) && Separate(p) <==> forall steps :: RunOf(p, steps) ==> RestsCoherent(capacity, p, steps)
  {
    hide After, Find, AtRest, OwnWrites, Separate, Invariant;
    if OwnWrites(p) && Separate(p) {
      forall steps | RunOf(p, steps) ensures RestsCoherent(capacity, p, steps) {
        StartOk(capacity, p);
        SafeRun(Started(capacity), p, steps);
        var r := After(Started(capacity), steps);
        if r.Some? && AtRest(r.value) { RestIsCoherent(r.value, p); }
      }
    } else {
      UnsafeGoesStale(capacity, p);
      var steps, t, k :| Stale(capacity, p, steps, t, k);
      assert (t, k).1 in ReadKeys(p);
      assert !RestsCoherent(capacity, p, steps);
    }
  }

  /** And, under the same condition and no other, every look into the LRU in every run finds nothing or what the store
      holds at that moment. */
  lemma LooksRightIff(capacity: nat, p: Program)
    requires capacity > 0
    ensures OwnWrites(p) && Separate(p) <==> forall steps :: RunOf(p, steps) ==> AllRight(Started(capacity), steps)
  {
    hide After, Find, OwnWrites, Separate, Invariant, AllRight;
    if OwnWrites(p) && Separate(p) {
      forall steps | RunOf(p, steps) ensures AllRight(Started(capacity), steps) {
        StartOk(capacity, p);
        SafeRun(Started(capacity), p, steps);
      }
    } else {
      UnsafeGoesStale(capacity, p);
      var steps, t, k :| Stale(capacity, p, steps, t, k);
      var s := After(Started(capacity), steps).value;
      assert Of(s, t) == Idle && !RightLook(s, Look(t, k));
      if AllRight(Started(capacity), steps + [Look(t, k)]) { RightAppend(Started(capacity), steps, Look(t, k)); }
      assert RunOf(p, steps + [Look(t, k)]);
    }
  }
}
