/** From heap and roots to the plain store they stand for, and what each operation does to it. */
module Meanings {
  import opened Pools
  import opened Values
  import opened Counting
  import opened Plain
  import opened Heaps
  import opened Decomposing
  import opened Refcounts
  import opened MarkSweep

  type Roots = map<ObjectKey, nat>

  ghost predicate Rooted(h: Heap, roots: Roots) {
    forall k :: k in roots ==> roots[k] in h.n.live && NodeAt(h, roots[k]).MapNode?
  }

  ghost function Objs(h: Heap, roots: Roots): Objects {
    map k | k in roots :: Val(h, roots[k])
  }

  ghost function Meaning(h: Heap, roots: Roots): PlainStore {
    PlainStore(Objs(h, roots), Vals(h), Scals(h))
  }

  lemma RootIsMap(h: Heap, roots: Roots, key: ObjectKey)
    requires Rooted(h, roots) && key in roots
    ensures roots[key] in h.n.live && Val(h, roots[key]).Map?
    ensures key in Objs(h, roots) && Objs(h, roots)[key] == Val(h, roots[key])
  {
  }

  lemma MapIsMapNode(h: Heap, id: nat)
    ensures Val(h, id).Map? <==> NodeAt(h, id).MapNode?
  {
  }

  /** Everything the stored objects mention is in the pools. */
  lemma RootsInterned(h: Heap, roots: Roots)
    requires HeapOk(h) && Rooted(h, roots)
    ensures Interned(Meaning(h, roots))
  {
    var objs := Objs(h, roots);
    forall u | u in LiveNodes(objs) ensures u in Vals(h) {
      var k :| k in objs && u in Sub(objs[k]);
      SubsPresent(h, roots[k], u);
      var x :| x in h.n.live && x <= roots[k] && Val(h, x) == u;
    }
    forall s | s in LiveScalars(objs) ensures s in Scals(h) {
      var k :| k in objs && s in Scalars(objs[k]);
      ScalarsPresent(h, roots[k], s);
    }
  }

  lemma RootsKept(h: Heap, roots: Roots, g: Heap)
    requires HeapOk(h) && Rooted(h, roots) && Grown(h, g)
    ensures Rooted(g, roots) && Objs(g, roots) == Objs(h, roots)
    ensures forall k :: k in roots ==> roots[k] in g.n.live
  {
    GrownKeeps(h, g);
  }

  lemma UpsertMeaning(h: Heap, roots: Roots, key: ObjectKey, v: Value, g: Heap, root: nat)
    requires HeapOk(h) && Rooted(h, roots) && v.Map? && Decomposed(h, v, g, root)
    ensures Rooted(g, roots[key := root])
    ensures Meaning(g, roots[key := root]) == Upserted(Meaning(h, roots), key, v)
  {
    hide HeapOk, NodeAt;
    DecomposedGrown(h, v, g, root);
    RootsKept(h, roots, g);
    hide Val;
    var now := roots[key := root];
    MapIsMapNode(g, root);
    assert Objs(g, now) == Objs(h, roots)[key := v];
    assert Meaning(g, now).objs == Upserted(Meaning(h, roots), key, v).objs;
  }

  /** What an upsert does to the counters: off with the old tree, if any, and on with the new one. */
  ghost predicate UpsertCounters(objs: Objects, key: ObjectKey, v: Value, g: Heap, rc: Counts, rc2: Counts) {
    exists rc1 :: UpsertVia(objs, key, v, g, rc, rc1, rc2)
  }

  ghost predicate UpsertVia(objs: Objects, key: ObjectKey, v: Value, g: Heap, rc: Counts, rc1: Counts, rc2: Counts) {
    && (if key in objs then Decremented(g, rc, rc1, CountsIn(objs[key])) else rc1 == rc)
    && Incremented(g, rc1, rc2, CountsIn(v))
  }

  lemma UpsertCounts(h: Heap, roots: Roots, rc: Counts, key: ObjectKey, v: Value, g: Heap, root: nat, rc2: Counts)
    requires HeapOk(h) && Rooted(h, roots) && v.Map? && Decomposed(h, v, g, root)
    requires Counted(h, Objs(h, roots), rc)
    requires UpsertCounters(Objs(h, roots), key, v, g, rc, rc2)
    ensures CountedModulo(g, Objs(h, roots)[key := v], rc2)
    ensures Counted(g, Objs(h, roots)[key := v], rc2) <==> Fits(Objs(h, roots)[key := v])
    ensures Lookup(Objs(h, roots), key) == Some(v) ==> rc2 == rc
  {
    hide Counted, CountedModulo, Incremented, Decremented, Fits;
    var objs := Objs(h, roots);
    var rc1 :| UpsertVia(objs, key, v, g, rc, rc1, rc2);
    RootsInterned(h, roots);
    CountedGrown(h, objs, rc, g);
    if key in objs {
      DecrementCounts(g, objs, rc, key, rc1);
    } else {
      assert objs - {key} == objs;
    }
    UpsertMeaning(h, roots, key, v, g, root);
    RootsInterned(g, roots[key := root]);
    IncrementCounts(g, objs, rc1, key, v, rc2);
    if Lookup(objs, key) == Some(v) {
      CountsBack(g, objs, rc, key, rc1, rc2);
    }
  }

  /** Upserting what the key already holds adds nothing and finds the same root, whatever the counters say. */
  lemma SameObject(h: Heap, roots: Roots, key: ObjectKey, v: Value, g: Heap, root: nat)
    requires HeapOk(h) && Rooted(h, roots) && Decomposed(h, v, g, root)
    requires Lookup(Objs(h, roots), key) == Some(v)
    ensures g == h && roots[key := root] == roots
  {
    var objs := Objs(h, roots);
    RootsInterned(h, roots);
    SubsAlready(objs, key);
    DecomposedAgain(h, v, g, root);
    Canonical(g, root, roots[key]);
  }

  /** Then the counters end where they were exactly when none of them stopped at zero on the way down, or wrapped
      back to where it was on the way up. */
  lemma SameCountersIff(h: Heap, roots: Roots, rc: Counts, key: ObjectKey, v: Value, rc2: Counts)
    requires UpsertCounters(Objs(h, roots), key, v, h, rc, rc2) && Lookup(Objs(h, roots), key) == Some(v)
    ensures rc2 == rc <==> Returns(h, v, rc)
  {
    hide Incremented, Decremented, Returns;
    var rc1 :| UpsertVia(Objs(h, roots), key, v, h, rc, rc1, rc2);
    ReturnsIff(h, v, rc, rc1, rc2);
  }

  /** All an upsert changes, given what decompose, decRef and incRef did. */
  lemma UpsertDone(h: Heap, roots: Roots, rc: Counts, key: ObjectKey, v: Value, g: Heap, root: nat, rc2: Counts)
    requires HeapOk(h) && Rooted(h, roots) && v.Map? && Decomposed(h, v, g, root)
    requires UpsertCounters(Objs(h, roots), key, v, g, rc, rc2)
    ensures Rooted(g, roots[key := root])
    ensures Meaning(g, roots[key := root]) == Upserted(Meaning(h, roots), key, v)
    ensures Counted(h, Objs(h, roots), rc) ==>
              && CountedModulo(g, Objs(g, roots[key := root]), rc2)
              && (Counted(g, Objs(g, roots[key := root]), rc2) <==> Fits(Objs(g, roots[key := root])))
              && (Lookup(Objs(h, roots), key) == Some(v) ==> rc2 == rc)
    ensures Lookup(Objs(h, roots), key) == Some(v) ==>
              g == h && roots[key := root] == roots && (rc2 == rc <==> Returns(h, v, rc))
  {
    hide Decomposed, Counted, CountedModulo, Fits, Incremented, Decremented, UpsertCounters;
    hide Returns, HeapOk, Rooted, Objs;
    UpsertMeaning(h, roots, key, v, g, root);
    if Lookup(Objs(h, roots), key) == Some(v) {
      SameObject(h, roots, key, v, g, root);
      SameCountersIff(h, roots, rc, key, v, rc2);
    }
    if Counted(h, Objs(h, roots), rc) {
      UpsertCounts(h, roots, rc, key, v, g, root, rc2);
    }
  }

  lemma DecomposedGrown(h: Heap, v: Value, g: Heap, id: nat)
    requires HeapOk(h) && Decomposed(h, v, g, id)
    ensures Grown(h, g) && HeapOk(g) && id in g.n.live && Val(g, id) == v
  {
  }

  lemma SubsAlready(objs: Objects, key: ObjectKey)
    requires key in objs
    ensures Sub(objs[key]) <= LiveNodes(objs) && Scalars(objs[key]) <= LiveScalars(objs)
  {
  }

  lemma DeleteMeaning(h: Heap, roots: Roots, key: ObjectKey)
    requires Rooted(h, roots)
    ensures Rooted(h, roots - {key}) && Meaning(h, roots - {key}) == Deleted(Meaning(h, roots), key)
  {
    assert Objs(h, roots - {key}) == Objs(h, roots) - {key};
  }

  /** All a delete changes, given what decRef did. */
  lemma DeleteDone(h: Heap, roots: Roots, rc: Counts, key: ObjectKey, rc1: Counts)
    requires Rooted(h, roots) && key in roots
    requires Decremented(h, rc, rc1, CountsIn(Val(h, roots[key])))
    ensures Rooted(h, roots - {key}) && Meaning(h, roots - {key}) == Deleted(Meaning(h, roots), key)
    ensures Counted(h, Objs(h, roots), rc) ==> Counted(h, Objs(h, roots - {key}), rc1)
  {
    hide Counted, Decremented, Val;
    DeleteMeaning(h, roots, key);
    if Counted(h, Objs(h, roots), rc) {
      DecrementCounts(h, Objs(h, roots), rc, key, rc1);
    }
  }

  lemma NothingToDelete(h: Heap, roots: Roots, key: ObjectKey)
    requires key !in roots
    ensures roots - {key} == roots && Deleted(Meaning(h, roots), key) == Meaning(h, roots)
  {
    assert Objs(h, roots) - {key} == Objs(h, roots);
  }

  lemma SweptRoots(h: Heap, roots: Roots, g: Heap)
    requires HeapOk(h) && Rooted(h, roots) && Within(g.n, h.n)
    requires forall x :: x in h.n.live ==> (x in g.n.live <==> Val(h, x) in LiveNodes(Objs(h, roots)))
    requires forall id :: id in g.n.live ==> Val(g, id) == Val(h, id)
    ensures Rooted(g, roots) && Objs(g, roots) == Objs(h, roots)
  {
    hide HeapOk, Val, LiveNodes, Sub;
    var objs := Objs(h, roots);
    forall k | k in roots
      ensures roots[k] in g.n.live && NodeAt(g, roots[k]) == NodeAt(h, roots[k]) && Val(g, roots[k]) == Val(h, roots[k])
    {
      SubsAlready(objs, k);
      InOwnSub(objs[k]);
    }
    assert Objs(g, roots) == objs;
  }

  /** What GC leaves: the same objects, and exactly what they mention. */
  lemma SweptMeaning(h: Heap, roots: Roots, g: Heap, ns: set<nat>, vs: set<nat>)
    requires HeapOk(h) && Rooted(h, roots) && MarksLive(h, Objs(h, roots), ns, vs)
    requires g == Heap(Sweep(h.v, vs, Nil), Sweep(h.n, ns, ZERO_NODE))
    ensures HeapOk(g) && Within(g.n, h.n) && Within(g.v, h.v)
    ensures Rooted(g, roots) && Meaning(g, roots) == Collected(Meaning(h, roots))
    ensures |h.n.live - ns| == |Vals(h)| - |Vals(g)| && |h.v.live - vs| == |Scals(h)| - |Scals(g)|
    ensures forall rc :: Counted(h, Objs(h, roots), rc) ==>
              Counted(g, Objs(h, roots), NonZero(rc)) && NonZero(rc).Keys == g.n.live
  {
    hide HeapOk, Counted;
    var objs := Objs(h, roots);
    RootsInterned(h, roots);
    SweptHeap(h, objs, ns, vs, g);
    SweptRoots(h, roots, g);
    PerfectSharing(h);
    PerfectSharing(g);
    SweptSizes(h.n, ns, ZERO_NODE);
    SweptSizes(h.v, vs, Nil);
    forall rc | Counted(h, objs, rc) ensures Counted(g, objs, NonZero(rc)) && NonZero(rc).Keys == g.n.live {
      CountedSwept(h, objs, rc, g);
    }
  }

  ghost function NonZero(rc: Counts): Counts {
    map id | id in rc && rc[id] != 0 :: rc[id]
  }

  /** Sweeping loses no counter that counts, and leaves one for every node that stays. */
  lemma CountedSwept(h: Heap, objs: Objects, rc: Counts, g: Heap)
    requires Counted(h, objs, rc) && Vals(g) == LiveNodes(objs) && g.n.live <= h.n.live
    requires forall x :: x in h.n.live ==> (x in g.n.live <==> Val(h, x) in LiveNodes(objs))
    requires forall id :: id in g.n.live ==> Val(g, id) == Val(h, id)
    ensures Counted(g, objs, NonZero(rc)) && NonZero(rc).Keys == g.n.live
  {
    forall x: nat ensures At(NonZero(rc), x) == At(rc, x) && (x in NonZero(rc) <==> At(rc, x) > 0) {}
    forall x: nat | x in h.n.live ensures x in g.n.live <==> At(rc, x) > 0 {
      UsedIsLive(objs, Val(h, x));
    }
  }

  /** Counting and tracing agree: a counter is positive exactly when its node can be reached from a root. */
  lemma CountingIsTracing(h: Heap, roots: Roots, rc: Counts, x: nat)
    requires HeapOk(h) && Rooted(h, roots) && Counted(h, Objs(h, roots), rc) && x in h.n.live
    ensures At(rc, x) > 0 <==> exists k :: k in roots && Reaches(h, roots[k], x)
  {
    hide HeapOk, Reaches;
    var objs := Objs(h, roots);
    UsedIsLive(objs, Val(h, x));
    forall k | k in roots ensures Reaches(h, roots[k], x) <==> Val(h, x) in Sub(objs[k]) {
      ReachesIsSub(h, roots[k], x);
    }
    if k :| k in objs && Val(h, x) in Sub(objs[k]) { assert Reaches(h, roots[k], x); }
    if k :| k in roots && Reaches(h, roots[k], x) { assert Val(h, x) in Sub(objs[k]); }
  }

  /** Exact counters fit a uint32 by themselves. */
  lemma CountedFits(h: Heap, roots: Roots, rc: Counts)
    requires HeapOk(h) && Rooted(h, roots) && Counted(h, Objs(h, roots), rc)
    ensures Fits(Objs(h, roots))
  {
    hide HeapOk;
    var objs := Objs(h, roots);
    RootsInterned(h, roots);
    forall u ensures Uses(objs, u) < LIMIT {
      UsedIsLive(objs, u);
      if u in Vals(h) { var x :| x in h.n.live && Val(h, x) == u; }
    }
  }
}
