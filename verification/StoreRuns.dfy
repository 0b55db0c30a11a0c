/** Whole runs of the store against the plain store. */
module StoreRuns {
  import opened Sums
  import opened Values
  import opened Counting
  import opened Plain
  import opened Unstructured
  import opened Heaps
  import opened Identities
  import opened Decomposing
  import opened Refcounts
  import opened Meanings
  import opened DedupStores

  datatype Op =
    | UpsertOp(key: ObjectKey, obj: map<string, Raw>)
    | DeleteOp(key: ObjectKey)
    | GetOp(key: ObjectKey)
    | ListOp(gvk: GroupVersionKind, opts: ListOptions)
    | GCOp

  datatype Answer =
    | NoAnswer
    | Found(r: Option<Value>)
    | Listing(result: seq<Value>)
    | Removed(nodes: nat, values: nat)

  ghost function After(p: PlainStore, op: Op): PlainStore {
    match op
    case UpsertOp(key, obj) => Upserted(p, key, Canon(RawMap(obj)))
    case DeleteOp(key) => Deleted(p, key)
    case GCOp => Collected(p)
    case _ => p
  }

  ghost function Run(p: PlainStore, ops: seq<Op>): PlainStore {
    if ops == [] then p else After(Run(p, ops[..|ops| - 1]), ops[|ops| - 1])
  }

  /** The answer the plain store p gives. */
  ghost predicate Right(render: Value -> string, p: PlainStore, op: Op, a: Answer) {
    match op
    case UpsertOp(_, _) => a == NoAnswer
    case DeleteOp(_) => a == NoAnswer
    case GetOp(key) => a == Found(Lookup(p.objs, key))
    case ListOp(gvk, opts) => a.Listing? && exists keys :: IsListing(render, p.objs, gvk, opts, keys, a.result)
    case GCOp => a == Removed(Gap(|p.nodes|, |Collected(p).nodes|), Gap(|p.scalars|, |Collected(p).scalars|))
  }

  ghost function Gap(a: nat, b: nat): nat {
    if a < b then 0 else a - b
  }

  ghost predicate AllFit(ops: seq<Op>) {
    forall i :: 0 <= i <= |ops| ==> Fits(Run(EMPTY, ops[..i]).objs)
  }

  method Step(s: DedupStore, op: Op) returns (a: Answer)
    requires s.Valid()
    modifies s, s.values, s.subtrees
    ensures s.Valid() && s.A() == After(old(s.A()), op)
    ensures Right(s.render, old(s.A()), op, a)
    ensures old(s.CountsExact()) ==> (s.CountsExact() <==> Fits(s.A().objs))
    ensures Evolves(old(s.H()), s.H())
  {
    hide HeapOk, Counted, Fits, IsListing, Collected, Upserted, Deleted, Meaning, Rooted, Decomposed, Evolves, Returns;
    hide CountedModulo, UpsertCounters, Lookup, Shrunk, NonZero, LiveNodes, LiveScalars, Objs, Canon, Val, Vals, Scals;
    hide Interned, Grown, DedupStore.Valid, DedupStore.A, DedupStore.CountsExact;
    ghost var h := s.H();
    ValidHeap(s);
    EvolvesNot(h);
    match op
    case UpsertOp(key, obj) =>
      s.Upsert(key, obj);
      DecomposedEvolves(h, Canon(RawMap(obj)), s.H(), s.objects[key]);
      a := NoAnswer;
    case DeleteOp(key) =>
      s.Delete(key);
      a := NoAnswer;
      Exact(s);
    case GetOp(key) =>
      var r := s.Get(key);
      a := Found(r);
      Exact(s);
    case ListOp(gvk, opts) =>
      var result := s.List(gvk, opts);
      a := Listing(result);
      Exact(s);
    case GCOp =>
      var n, v := s.GC();
      a := Removed(n, v);
      ValidHeap(s);
      ShrunkEvolves(h, s.H());
      Exact(s);
  }

  lemma ValidHeap(s: DedupStore)
    requires s.Valid()
    ensures HeapOk(s.H())
  {
  }

  lemma DecomposedEvolves(h: Heap, v: Value, g: Heap, id: nat)
    requires HeapOk(h) && Decomposed(h, v, g, id)
    ensures Evolves(h, g)
  {
    DecomposedGrown(h, v, g, id);
  }

  lemma ShrunkEvolves(h: Heap, g: Heap)
    requires HeapOk(g) && Shrunk(h, g)
    ensures Evolves(h, g)
  {
  }

  lemma Exact(s: DedupStore)
    requires s.Valid()
    ensures s.CountsExact() ==> Fits(s.A().objs)
  {
    if s.CountsExact() {
      CountedFits(s.H(), s.objects, s.refcounts);
    }
  }

  /** From an empty store, every run answers as the plain store does, whatever the hash; and as long as every
      count fitted before the last step, the counters are exact if and only if every count still fits. `heaps` are
      the heaps the run passes through. */
  method Replay(ops: seq<Op>, hash: Node -> uint64, render: Value -> string) returns (s: DedupStore,
      answers: seq<Answer>, ghost heaps: seq<Heap>)
    ensures |answers| == |ops|
    ensures forall i :: 0 <= i < |ops| ==> Right(render, Run(EMPTY, ops[..i]), ops[i], answers[i])
    ensures s.Valid() && s.A() == Run(EMPTY, ops)
    ensures ops != [] && AllFit(ops[..|ops| - 1]) ==> (s.CountsExact() <==> Fits(Run(EMPTY, ops).objs))
    ensures |heaps| == |ops| + 1 && heaps[|ops|] == s.H() && Chain(heaps)
    ensures forall i :: 0 <= i <= |ops| ==> HoldsWhat(heaps[i], Run(EMPTY, ops[..i]))
  {
    hide Fits, HeapOk, Right, After, AllFit, Meaning, Counted, Rooted, Evolves, HoldsWhat, Chain, Run, Held;
    s := new DedupStore(hash, render);
    answers := [];
    heaps := [s.H()];
    ChainStart(s.H());
    RunStart(ops, s.H(), s.objects);
    var i := 0;
    while i < |ops|
      invariant 0 <= i <= |ops| && |answers| == i
      invariant fresh(s) && fresh(s.values) && fresh(s.subtrees) && s.render == render
      invariant s.Valid() && s.A() == Run(EMPTY, ops[..i])
      invariant forall j :: 0 <= j < i ==> Right(render, Run(EMPTY, ops[..j]), ops[j], answers[j])
      invariant AllFit(ops[..i]) ==> s.CountsExact()
      invariant i > 0 && AllFit(ops[..i - 1]) ==> (s.CountsExact() <==> Fits(Run(EMPTY, ops[..i]).objs))
      invariant |heaps| == i + 1 && heaps[i] == s.H() && Chain(heaps) && Held(ops, heaps)
    {
      FitSoFar(ops, i);
      RunStep(ops, i);
      var a := Step(s, ops[i]);
      ChainAppend(heaps, s.H());
      HeldStep(ops, heaps, s.H(), s.objects);
      answers, heaps := answers + [a], heaps + [s.H()];
      i := i + 1;
    }
    assert ops[..|ops|] == ops;
    HeldAll(ops, heaps);
  }

  /** The pools hold exactly the values and scalars the plain store knows. */
  ghost predicate HoldsWhat(h: Heap, p: PlainStore) {
    Vals(h) == p.nodes && Scals(h) == p.scalars
  }

  ghost predicate Held(ops: seq<Op>, heaps: seq<Heap>) {
    |heaps| <= |ops| + 1 && forall j :: 0 <= j < |heaps| ==> HoldsWhat(heaps[j], Run(EMPTY, ops[..j]))
  }

  lemma RunStart(ops: seq<Op>, h: Heap, roots: Roots)
    requires Meaning(h, roots) == EMPTY
    ensures Held(ops, [h]) && Run(EMPTY, ops[..0]) == EMPTY
  {
  }

  lemma HeldStep(ops: seq<Op>, heaps: seq<Heap>, h: Heap, roots: Roots)
    requires Held(ops, heaps) && |heaps| <= |ops| && Meaning(h, roots) == Run(EMPTY, ops[..|heaps|])
    ensures Held(ops, heaps + [h])
  {
    hide Run, Vals, Scals;
    assert HoldsWhat(h, Meaning(h, roots));
  }

  lemma HeldAll(ops: seq<Op>, heaps: seq<Heap>)
    requires Held(ops, heaps) && |heaps| == |ops| + 1
    ensures forall i :: 0 <= i <= |ops| ==> HoldsWhat(heaps[i], Run(EMPTY, ops[..i]))
  {
  }

  lemma ChainStart(h: Heap)
    requires HeapOk(h)
    ensures Chain([h])
  {
  }

  lemma RunStep(ops: seq<Op>, i: nat)
    requires i < |ops|
    ensures Run(EMPTY, ops[..i + 1]) == After(Run(EMPTY, ops[..i]), ops[i])
    ensures ops[..i + 1][..i] == ops[..i]
  {
    assert ops[..i + 1][..i] == ops[..i];
  }

  lemma FitSoFar(ops: seq<Op>, i: nat)
    requires i < |ops|
    ensures AllFit(ops[..i + 1]) ==> AllFit(ops[..i]) && Fits(Run(EMPTY, ops[..i + 1]).objs)
  {
    if AllFit(ops[..i + 1]) {
      forall j | 0 <= j <= i ensures Fits(Run(EMPTY, ops[..i][..j]).objs) {
        assert ops[..i][..j] == ops[..i + 1][..j];
      }
      assert ops[..i + 1][..i + 1] == ops[..i + 1];
    }
  }

  // ---------- consequences for whole runs ----------

  ghost predicate ReadOnly(op: Op) {
    op.GetOp? || op.ListOp?
  }

  lemma {:induction false} ReadsKeep(ops: seq<Op>, i: nat, j: nat)
    requires i <= j <= |ops| && forall k :: i <= k < j ==> ReadOnly(ops[k])
    ensures Run(EMPTY, ops[..j]) == Run(EMPTY, ops[..i])
    decreases j
  {
    if i < j {
      ReadsKeep(ops, i, j - 1);
      assert ops[..j][..j - 1] == ops[..j - 1];
    }
  }

  /** A GC with only reads since the last one removes nothing. */
  lemma SecondGCRemovesNothing(render: Value -> string, ops: seq<Op>, i: nat, j: nat)
    requires i < j < |ops| && ops[i] == GCOp && ops[j] == GCOp
    requires forall k :: i < k < j ==> ReadOnly(ops[k])
    ensures forall a :: Right(render, Run(EMPTY, ops[..j]), ops[j], a) ==> a == Removed(0, 0)
  {
    hide Run, IsListing, LiveNodes, LiveScalars;
    ReadsKeep(ops, i + 1, j);
    RunStep(ops, i);
    CollectedTwice(Run(EMPTY, ops[..i]));
  }

  lemma CollectedTwice(p: PlainStore)
    ensures Collected(Collected(p)) == Collected(p)
  {
  }

  lemma AfterObjects(p: PlainStore, q: PlainStore, op: Op)
    requires p.objs == q.objs
    ensures After(p, op).objs == After(q, op).objs
  {
  }

  lemma RunAppend(ops: seq<Op>, op: Op)
    ensures Run(EMPTY, ops + [op]) == After(Run(EMPTY, ops), op)
  {
    assert (ops + [op])[..|ops|] == ops;
  }

  /** GC is invisible to every later Get: dropping a GC from a run changes no object. */
  lemma {:induction false} GCKeepsObjects(before: seq<Op>, after: seq<Op>)
    ensures Run(EMPTY, before + [GCOp] + after).objs == Run(EMPTY, before + after).objs
  {
    hide Run, After;
    if after == [] {
      RunAppend(before, GCOp);
      CollectedObjects(Run(EMPTY, before));
      assert before + [GCOp] + after == before + [GCOp] && before + after == before;
    } else {
      var rest, last := after[..|after| - 1], after[|after| - 1];
      GCKeepsObjects(before, rest);
      AfterObjects(Run(EMPTY, before + [GCOp] + rest), Run(EMPTY, before + rest), last);
      RunAppend(before + [GCOp] + rest, last);
      RunAppend(before + rest, last);
      assert after == rest + [last];
      assert before + [GCOp] + after == (before + [GCOp] + rest) + [last];
      assert before + after == (before + rest) + [last];
    }
  }

  lemma CollectedObjects(p: PlainStore)
    ensures After(p, GCOp).objs == p.objs
  {
  }

  /** Into any store: an object of the store's own types comes back as it was, whatever is stored or collected in
      between under other keys. */
  method StoredIsRead(s: DedupStore, key: ObjectKey, m: map<string, Value>, between: seq<Op>) returns (r: Option<Value>)
    requires s.Valid()
    requires forall i :: 0 <= i < |between| && (between[i].UpsertOp? || between[i].DeleteOp?) ==> between[i].key != key
    modifies s, s.values, s.subtrees
    ensures s.Valid() && r == Some(Map(m))
  {
    hide DedupStore.Valid, DedupStore.A, DedupStore.CountsExact, HeapOk, Evolves, Right, Upserted, Canon, AsRaw, Fits;
    hide Returns, Decomposed, UpsertCounters, CountedModulo, LiveNodes, LiveScalars, DedupStore.H;
    FieldsRestored(m);
    UpsertedObjects(s.A(), key, Canon(RawMap(AsRawFields(m))));
    s.Upsert(key, AsRawFields(m));
    var i := 0;
    while i < |between|
      invariant 0 <= i <= |between| && s.Valid()
      invariant Lookup(s.A().objs, key) == Some(Map(m))
    {
      OthersKeep(s.A(), between[i], key);
      var _ := Step(s, between[i]);
      i := i + 1;
    }
    r := s.Get(key);
  }

  lemma OthersKeep(p: PlainStore, op: Op, key: ObjectKey)
    requires op.UpsertOp? || op.DeleteOp? ==> op.key != key
    ensures Lookup(After(p, op).objs, key) == Lookup(p.objs, key)
  {
    hide Canon, LiveNodes, LiveScalars;
  }

  // ---------- a run whose counters wrap ----------

  /** An object holding n nils. */
  function Nils(n: nat): map<string, Raw> {
    map["a" := RawSlice(seq(n, _ => RawLeaf(RNil)))]
  }

  /** One holding 2^32 of them: its nil node occurs once more often than a uint32 can count. */
  function Wrapping(): map<string, Raw> {
    Nils(LIMIT)
  }

  lemma WrappingDoesNotFit(key: ObjectKey)
    ensures AllFit([]) && !Fits(Run(EMPTY, [UpsertOp(key, Wrapping())]).objs)
  {
    var nil, v := Leaf(Nil), Canon(RawMap(Wrapping()));
    var op := UpsertOp(key, Wrapping());
    var objs := Run(EMPTY, [op]).objs;
    RunAppend([], op);
    assert [] + [op] == [op];
    assert objs == map[key := v];
    NilsIn(LIMIT);
    AtLeastOne(objs, key, nil);
    NothingStored();
  }

  lemma NilsItems(n: nat)
    ensures var v := Canon(RawMap(Nils(n)));
            && v.Map? && v.entries.Keys == {"a"} && v.entries["a"].Slice? && |v.entries["a"].items| == n
            && forall i :: 0 <= i < n ==> v.entries["a"].items[i] == Leaf(Nil)
  {
    NilItems(seq(n, _ => RawLeaf(RNil)));
  }

  lemma NilItems(elems: seq<Raw>)
    requires forall i :: 0 <= i < |elems| ==> elems[i] == RawLeaf(RNil)
    ensures forall i :: 0 <= i < |elems| ==> Canon(RawSlice(elems)).items[i] == Leaf(Nil)
  {
  }

  /** It holds n nils, and takes n + 2 positions. */
  lemma NilsIn(n: nat)
    ensures Count(Canon(RawMap(Nils(n))), Leaf(Nil)) == n && TreeSize(Canon(RawMap(Nils(n)))) == n + 2
  {
    hide SumMap, Canon;
    var v := Canon(RawMap(Nils(n)));
    NilsItems(n);
    var w := v.entries["a"];
    NilsCount(w.items);
    OneSum(map k | k in v.entries :: Count(v.entries[k], Leaf(Nil)), "a");
    OneSum(map k | k in v.entries :: TreeSize(v.entries[k]), "a");
  }

  /** Storing that object again loses whatever the nil counter had counted besides. */
  lemma WrappingDoesNotReturn(h: Heap, x: nat, rc: Counts)
    requires x in h.n.live && Val(h, x) == Leaf(Nil) && At(rc, x) > 0
    ensures !Returns(h, Canon(RawMap(Wrapping())), rc)
  {
    hide Canon, Val, Count;
    NilsIn(LIMIT);
    assert Wrapped(LIMIT) == 0;
    assert !ReturnsAt(rc, x, Count(Canon(RawMap(Wrapping())), Val(h, x)));
  }

  lemma NilsCount(items: seq<Value>)
    requires forall i :: 0 <= i < |items| ==> items[i] == Leaf(Nil)
    ensures Count(Slice(items), Leaf(Nil)) == |items| && TreeSize(Slice(items)) == |items| + 1
  {
    assert Count(Leaf(Nil), Leaf(Nil)) == 1 && TreeSize(Leaf(Nil)) == 1;
    SumSeqConstant(seq(|items|, i requires 0 <= i < |items| => Count(items[i], Leaf(Nil))), 1);
    SumSeqConstant(seq(|items|, i requires 0 <= i < |items| => TreeSize(items[i])), 1);
  }

  lemma OneSum<K(!new)>(m: map<K, nat>, k: K)
    requires m.Keys == {k}
    ensures SumMap(m) == m[k]
  {
    SumMapSplit(m, k);
    assert m - {k} == map[];
  }

  lemma AtLeastOne(objs: Objects, key: ObjectKey, u: Value)
    requires key in objs
    ensures Uses(objs, u) >= Count(objs[key], u)
  {
    hide SumMap, Count;
    SumMapSplit(map k | k in objs :: Count(objs[k], u), key);
  }

  lemma NothingStored()
    ensures AllFit([])
  {
    forall u ensures Uses(map[], u) < LIMIT { NoUses(u); }
  }

  lemma NoUses(u: Value)
    ensures Uses(map[], u) == 0
  {
    var none: Objects := map[];
    assert (map k | k in none :: Count(none[k], u)) == map[];
  }

  /** The nils of one object after the other. */
  lemma TwoUses(j: ObjectKey, k: ObjectKey, m: nat, n: nat)
    requires j != k
    ensures Uses(map[j := Canon(RawMap(Nils(m)))], Leaf(Nil)) == m
    ensures Uses(map[j := Canon(RawMap(Nils(m)))][k := Canon(RawMap(Nils(n)))], Leaf(Nil)) == m + n
  {
    hide Uses, Canon, Count, Nils;
    var v, w := Canon(RawMap(Nils(m))), Canon(RawMap(Nils(n)));
    var none: Objects := map[];
    NilsIn(m);
    NilsIn(n);
    NoUses(Leaf(Nil));
    UsesUpsert(none, j, v, Leaf(Nil));
    assert none[j := v] == map[j := v] && none - {j} == none;
    UsesUpsert(map[j := v], k, w, Leaf(Nil));
    assert map[j := v] - {k} == map[j := v];
  }

  lemma FewFit(j: ObjectKey, n: nat)
    requires n + 2 < LIMIT
    ensures Fits(map[j := Canon(RawMap(Nils(n)))])
  {
    hide Canon, TreeSize, Nils;
    var v := Canon(RawMap(Nils(n)));
    var objs: Objects := map[j := v];
    NilsIn(n);
    OneSum(map k | k in objs :: TreeSize(objs[k]), j);
    SmallFits(objs);
  }

  /** Beside an object with five nils, storing that object leaves the nil counter at 5, the remainder of 2^32 + 5; and
      storing it once more, which changes nothing else, leaves it at 0. */
  method StoreAgain(j: ObjectKey, k: ObjectKey, hash: Node -> uint64, render: Value -> string) returns (s: DedupStore,
      ghost id: nat, before: Counts, after: Counts, ghost h: Heap, ghost roots: Roots)
    requires j != k
    ensures s.Valid() && s.A().objs == map[j := Canon(RawMap(Nils(5))), k := Canon(RawMap(Wrapping()))]
    ensures id in s.H().n.live && Val(s.H(), id) == Leaf(Nil)
    ensures At(before, id) == Wrapped(LIMIT + 5) == 5 && At(after, id) == 0
    ensures s.H() == h && s.objects == roots && s.refcounts == after
  {
    hide HeapOk, Rooted, Canon, Val, Vals, Scals, Counted, CountedModulo, Fits, Decomposed, UpsertCounters, Returns;
    hide Uses, Nils, LiveNodes, LiveScalars;
    s := new DedupStore(hash, render);
    ghost var v, w := Canon(RawMap(Nils(5))), Canon(RawMap(Wrapping()));
    s.Upsert(j, Nils(5));
    assert s.A().objs == map[j := v];
    FewFit(j, 5);
    s.Upsert(k, Wrapping());
    assert s.A().objs == map[j := v][k := w];
    before := s.refcounts;
    h, roots := s.H(), s.objects;
    id := NilHeld(h, roots, k, before);
    TwoUses(j, k, 5, LIMIT);
    ModuloAt(h, s.A().objs, before, id, LIMIT + 5);
    s.Upsert(k, Wrapping());
    after := s.refcounts;
    LessThenWrapped(map[j := v][k := w], k, h, before, after, id);
    assert s.A().objs == map[j := v][k := w];
  }

  lemma ModuloAt(h: Heap, objs: Objects, rc: Counts, id: nat, n: nat)
    requires CountedModulo(h, objs, rc) && id in h.n.live && Uses(objs, Val(h, id)) == n
    ensures At(rc, id) == Wrapped(n)
  {
  }

  /** The nils of a stored object are interned. */
  lemma NilHeld(h: Heap, roots: Roots, k: ObjectKey, rc: Counts) returns (id: nat)
    requires HeapOk(h) && Rooted(h, roots) && Lookup(Objs(h, roots), k) == Some(Canon(RawMap(Wrapping())))
    ensures id in h.n.live && Val(h, id) == Leaf(Nil)
  {
    hide Canon, Val, HeapOk, Rooted, Wrapping;
    NilInside();
    RootsInterned(h, roots);
    SubsAlready(Objs(h, roots), k);
    id :| id in h.n.live && Val(h, id) == Leaf(Nil);
  }

  lemma NilInside()
    ensures Leaf(Nil) in Sub(Canon(RawMap(Wrapping())))
  {
    hide Canon;
    NilsIn(LIMIT);
    CountPositive(Canon(RawMap(Wrapping())), Leaf(Nil));
  }

  /** Less than 2^32 can be taken off, all of 2^32 is added. */
  lemma LessThenWrapped(objs: Objects, k: ObjectKey, h: Heap, rc: Counts, rc2: Counts, id: nat)
    requires Lookup(objs, k) == Some(Canon(RawMap(Wrapping())))
    requires UpsertCounters(objs, k, Canon(RawMap(Wrapping())), h, rc, rc2)
    requires id in h.n.live && Val(h, id) == Leaf(Nil)
    ensures At(rc2, id) == 0
  {
    hide Canon, Val, Count;
    var v := Canon(RawMap(Wrapping()));
    var rc1 :| UpsertVia(objs, k, v, h, rc, rc1, rc2);
    NilsIn(LIMIT);
    assert CountsIn(v)(Val(h, id)) == LIMIT;
    assert At(rc1, id) == 0 && AddedAt(rc1, rc2, id, LIMIT) && Wrapped(LIMIT) == 0;
  }
}
