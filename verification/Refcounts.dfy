/** Reference counts: what incRef and decRef do to the map of uint32 counters. */
module Refcounts {
  import opened Values
  import opened Counting
  import opened Plain
  import opened Heaps

  type Counts = map<nat, uint32>

  /** Go's read of a counter that may be missing. */
  function At(rc: Counts, id: nat): uint32 {
    if id in rc then rc[id] else 0
  }

  /** A uint32 counter keeps the remainder modulo 2^32. */
  function Wrapped(n: nat): uint32 {
    if n < LIMIT then n else Wrapped(n - LIMIT)
  }

  lemma {:induction false} WrappedTwice(a: nat, b: nat)
    ensures Wrapped(Wrapped(a) + b) == Wrapped(a + b)
  {
    if a >= LIMIT {
      WrappedTwice(a - LIMIT, b);
    }
  }

  /** One more, and one less unless there is none to take. */
  function BumpAt(rc: Counts, id: nat): Counts {
    rc[id := Wrapped(At(rc, id) + 1)]
  }

  function DropAt(rc: Counts, id: nat): Counts {
    if At(rc, id) > 0 then rc[id := At(rc, id) - 1] else rc
  }

  /** rc' adds n to the counter of x, wrapping at 2^32, and creates it if n is positive. */
  ghost predicate AddedAt(rc: Counts, rc': Counts, x: nat, n: nat) {
    At(rc', x) == Wrapped(At(rc, x) + n) && (x in rc' <==> x in rc || n > 0)
  }

  /** rc' adds f to every live counter. */
  ghost predicate Incremented(h: Heap, rc: Counts, rc': Counts, f: Value -> nat) {
    && (forall x: nat :: x in h.n.live ==> AddedAt(rc, rc', x, f(Val(h, x))))
    && (forall x: nat :: x !in h.n.live ==> At(rc', x) == At(rc, x) && (x in rc' <==> x in rc))
  }

  ghost function Less(a: nat, b: nat): nat {
    if a < b then 0 else a - b
  }

  /** rc' takes f off every live counter, stopping at 0. */
  ghost predicate Decremented(h: Heap, rc: Counts, rc': Counts, f: Value -> nat) {
    && rc'.Keys == rc.Keys
    && (forall x: nat :: x in h.n.live ==> At(rc', x) == Less(At(rc, x), f(Val(h, x))))
    && (forall x: nat :: x !in h.n.live ==> At(rc', x) == At(rc, x))
  }

  lemma AddedThen(rc: Counts, rc1: Counts, rc2: Counts, x: nat, m: nat, n: nat)
    requires AddedAt(rc, rc1, x, m) && AddedAt(rc1, rc2, x, n)
    ensures AddedAt(rc, rc2, x, m + n)
  {
    WrappedTwice(At(rc, x) + m, n);
  }

  lemma IncrementedThen(h: Heap, rc: Counts, rc1: Counts, rc2: Counts, f: Value -> nat, g: Value -> nat,
      fg: Value -> nat)
    requires Incremented(h, rc, rc1, f) && Incremented(h, rc1, rc2, g)
    requires forall u :: fg(u) == f(u) + g(u)
    ensures Incremented(h, rc, rc2, fg)
  {
    forall x: nat | x in h.n.live ensures AddedAt(rc, rc2, x, fg(Val(h, x))) {
      AddedThen(rc, rc1, rc2, x, f(Val(h, x)), g(Val(h, x)));
    }
  }

  lemma DecrementedThen(h: Heap, rc: Counts, rc1: Counts, rc2: Counts, f: Value -> nat, g: Value -> nat,
      fg: Value -> nat)
    requires Decremented(h, rc, rc1, f) && Decremented(h, rc1, rc2, g)
    requires forall u :: fg(u) == f(u) + g(u)
    ensures Decremented(h, rc, rc2, fg)
  {
  }

  // ---------- what the first i children contribute ----------

  /** Occurrences of u at the root of id or below its first i children. */
  ghost function SoFar(h: Heap, id: nat, i: nat, u: Value): nat
    requires i <= |Kids(NodeAt(h, id))|
  {
    (if u == Val(h, id) then 1 else 0) +
    match NodeAt(h, id)
    case ScalarNode(_) => 0
    case MapNode(es) => CountEntries(EntriesVal(h, id, es[..i]), u)
    case SliceNode(items) => CountItems(NodeVal(h, id, SliceNode(items[..i])).items, u)
  }

  ghost function SoFars(h: Heap, id: nat, i: nat): Value -> nat
    requires i <= |Kids(NodeAt(h, id))|
  {
    u => SoFar(h, id, i, u)
  }

  ghost function CountsIn(v: Value): Value -> nat {
    u => Count(v, u)
  }

  lemma SoFarStart(h: Heap, id: nat, u: Value)
    ensures SoFar(h, id, 0, u) == if u == Val(h, id) then 1 else 0
  {
  }

  lemma MapStep(h: Heap, id: nat, es: seq<Entry>, i: nat, u: Value)
    requires Distinct(h, id, es) && i < |es|
    ensures CountEntries(EntriesVal(h, id, es[..i + 1]), u) ==
            CountEntries(EntriesVal(h, id, es[..i]), u) + Count(Val(h, es[i].child), u)
  {
    var pre := es[..i];
    var m, k := EntriesVal(h, id, pre), KeyOf(h, es[i]);
    assert es[..i + 1][..i] == pre && es[..i + 1][i] == es[i];
    assert forall j :: 0 <= j < i ==> pre[j] == es[j];
    if k in m { var j := KeyIndex(h, id, pre, k); assert false; }
    CountEntriesAdd(m, k, Val(h, es[i].child), u);
  }

  lemma SliceStep(h: Heap, id: nat, items: seq<nat>, i: nat, u: Value)
    requires i < |items| && items[i] < id
    ensures CountItems(NodeVal(h, id, SliceNode(items[..i + 1])).items, u) ==
            CountItems(NodeVal(h, id, SliceNode(items[..i])).items, u) + Count(Val(h, items[i]), u)
  {
    var s := NodeVal(h, id, SliceNode(items[..i])).items;
    assert NodeVal(h, id, SliceNode(items[..i + 1])).items == s + [Val(h, items[i])];
    CountItemsAdd(s, Val(h, items[i]), u);
  }

  lemma SoFarStep(h: Heap, id: nat, i: nat, u: Value)
    requires HeapOk(h) && id in h.n.live && i < |Kids(NodeAt(h, id))|
    ensures SoFar(h, id, i + 1, u) == SoFar(h, id, i, u) + Count(Val(h, Kids(NodeAt(h, id))[i]), u)
  {
    var node := NodeAt(h, id);
    assert NodeOk(h, id, node);
    match node
    case MapNode(es) =>
      NodeOkDistinct(h, id, node);
      MapStep(h, id, es, i, u);
    case SliceNode(items) =>
      SliceStep(h, id, items, i, u);
    case ScalarNode(_) =>
  }

  lemma SoFarAll(h: Heap, id: nat, u: Value)
    requires HeapOk(h) && id in h.n.live
    ensures SoFar(h, id, |Kids(NodeAt(h, id))|, u) == Count(Val(h, id), u)
  {
    var node := NodeAt(h, id);
    Unfold(h, id, node);
    match node
    case MapNode(es) => assert es[..|es|] == es;
    case SliceNode(items) => assert items[..|items|] == items;
    case ScalarNode(_) =>
  }

  lemma SoFarAdd(h: Heap, id: nat, i: nat)
    requires HeapOk(h) && id in h.n.live && i < |Kids(NodeAt(h, id))|
    ensures forall u :: SoFars(h, id, i + 1)(u) == SoFars(h, id, i)(u) + CountsIn(Val(h, Kids(NodeAt(h, id))[i]))(u)
  {
    forall u ensures SoFars(h, id, i + 1)(u) == SoFars(h, id, i)(u) + CountsIn(Val(h, Kids(NodeAt(h, id))[i]))(u) {
      SoFarStep(h, id, i, u);
    }
  }

  lemma SoFarWhole(h: Heap, id: nat)
    requires HeapOk(h) && id in h.n.live
    ensures forall u :: SoFars(h, id, |Kids(NodeAt(h, id))|)(u) == CountsIn(Val(h, id))(u)
  {
    forall u ensures SoFars(h, id, |Kids(NodeAt(h, id))|)(u) == CountsIn(Val(h, id))(u) {
      SoFarAll(h, id, u);
    }
  }

  /** The first step at id itself: one more, or one less if there is one to take. */
  lemma BumpedOne(h: Heap, rc: Counts, id: nat)
    requires HeapOk(h) && id in h.n.live
    ensures Incrementing(h, rc, BumpAt(rc, id), id, 0)
  {
    var rc' := BumpAt(rc, id);
    forall x: nat | x in h.n.live ensures AddedAt(rc, rc', x, SoFar(h, id, 0, Val(h, x))) {
      Canonical(h, x, id);
      SoFarStart(h, id, Val(h, x));
    }
  }

  lemma DroppedOne(h: Heap, rc: Counts, id: nat)
    requires HeapOk(h) && id in h.n.live
    ensures Decrementing(h, rc, DropAt(rc, id), id, 0)
  {
    forall x: nat | x in h.n.live ensures SoFar(h, id, 0, Val(h, x)) == if x == id then 1 else 0 {
      Canonical(h, x, id);
      SoFarStart(h, id, Val(h, x));
    }
  }

  /** rc' is rc after incRef has handled id and its first i children. */
  ghost predicate Incrementing(h: Heap, rc: Counts, rc': Counts, id: nat, i: nat) {
    i <= |Kids(NodeAt(h, id))| && Incremented(h, rc, rc', SoFars(h, id, i))
  }

  lemma IncrementingStep(h: Heap, rc: Counts, rc1: Counts, rc2: Counts, id: nat, i: nat)
    requires HeapOk(h) && id in h.n.live && i < |Kids(NodeAt(h, id))|
    requires Incrementing(h, rc, rc1, id, i) && Incremented(h, rc1, rc2, CountsIn(Val(h, Kids(NodeAt(h, id))[i])))
    ensures Incrementing(h, rc, rc2, id, i + 1)
  {
    SoFarAdd(h, id, i);
    IncrementedThen(h, rc, rc1, rc2, SoFars(h, id, i), CountsIn(Val(h, Kids(NodeAt(h, id))[i])), SoFars(h, id, i + 1));
  }

  lemma IncrementingDone(h: Heap, rc: Counts, rc': Counts, id: nat)
    requires HeapOk(h) && id in h.n.live && Incrementing(h, rc, rc', id, |Kids(NodeAt(h, id))|)
    ensures Incremented(h, rc, rc', CountsIn(Val(h, id)))
  {
    SoFarWhole(h, id);
  }

  /** rc' is rc after decRef has handled id and its first i children. */
  ghost predicate Decrementing(h: Heap, rc: Counts, rc': Counts, id: nat, i: nat) {
    i <= |Kids(NodeAt(h, id))| && Decremented(h, rc, rc', SoFars(h, id, i))
  }

  lemma DecrementingStep(h: Heap, rc: Counts, rc1: Counts, rc2: Counts, id: nat, i: nat)
    requires HeapOk(h) && id in h.n.live && i < |Kids(NodeAt(h, id))|
    requires Decrementing(h, rc, rc1, id, i) && Decremented(h, rc1, rc2, CountsIn(Val(h, Kids(NodeAt(h, id))[i])))
    ensures Decrementing(h, rc, rc2, id, i + 1)
  {
    SoFarAdd(h, id, i);
    DecrementedThen(h, rc, rc1, rc2, SoFars(h, id, i), CountsIn(Val(h, Kids(NodeAt(h, id))[i])), SoFars(h, id, i + 1));
  }

  lemma DecrementingDone(h: Heap, rc: Counts, rc': Counts, id: nat)
    requires HeapOk(h) && id in h.n.live && Decrementing(h, rc, rc', id, |Kids(NodeAt(h, id))|)
    ensures Decremented(h, rc, rc', CountsIn(Val(h, id)))
  {
    SoFarWhole(h, id);
  }

  // ---------- counters are the occurrence counts of the stored objects ----------

  /** Every counter is the number of occurrences of its node in the trees of all stored objects. */
  ghost predicate Counted(h: Heap, objs: Objects, rc: Counts) {
    && (forall x: nat :: x in h.n.live ==> At(rc, x) == Uses(objs, Val(h, x)))
    && (forall x: nat :: x !in h.n.live ==> At(rc, x) == 0)
  }

  /** Every counter is that number modulo 2^32. */
  ghost predicate CountedModulo(h: Heap, objs: Objects, rc: Counts) {
    && (forall x: nat :: x in h.n.live ==> At(rc, x) == Wrapped(Uses(objs, Val(h, x))))
    && (forall x: nat :: x !in h.n.live ==> At(rc, x) == 0)
  }

  /** Nodes interned since then are not used by any object yet. */
  lemma CountedGrown(h: Heap, objs: Objects, rc: Counts, g: Heap)
    requires HeapOk(h) && Grown(h, g) && LiveNodes(objs) <= Vals(h) && Counted(h, objs, rc)
    ensures Counted(g, objs, rc)
  {
    GrownKeeps(h, g);
    forall x: nat | x in g.n.live ensures At(rc, x) == Uses(objs, Val(g, x)) {
      if x !in h.n.live {
        UsedIsLive(objs, Val(g, x));
        if Val(g, x) in Vals(h) {
          var y :| y in h.n.live && Val(h, y) == Val(g, x);
          Canonical(g, x, y);
          assert false;
        }
      }
    }
  }

  /** Taking out one object's occurrences, as decRef does, never saturates. */
  lemma DecrementCounts(h: Heap, objs: Objects, rc: Counts, key: ObjectKey, rc': Counts)
    requires Counted(h, objs, rc) && key in objs
    requires Decremented(h, rc, rc', CountsIn(objs[key]))
    ensures Counted(h, objs - {key}, rc')
    ensures forall x: nat :: x in h.n.live ==> At(rc, x) >= Count(objs[key], Val(h, x))
  {
    forall x: nat | x in h.n.live
      ensures At(rc', x) == Uses(objs - {key}, Val(h, x)) && At(rc, x) >= Count(objs[key], Val(h, x))
    {
      UsesDelete(objs, key, Val(h, x));
    }
  }

  /** Adding an object's occurrences, as incRef does, keeps the counts exactly when they all fit a uint32. */
  lemma IncrementCounts(h: Heap, objs: Objects, rc: Counts, key: ObjectKey, v: Value, rc': Counts)
    requires Counted(h, objs - {key}, rc) && LiveNodes(objs[key := v]) <= Vals(h)
    requires Incremented(h, rc, rc', CountsIn(v))
    ensures CountedModulo(h, objs[key := v], rc')
    ensures Counted(h, objs[key := v], rc') <==> Fits(objs[key := v])
  {
    var now := objs[key := v];
    forall x: nat | x in h.n.live ensures At(rc', x) == Wrapped(Uses(now, Val(h, x))) {
      AddedUses(objs, rc, key, v, rc', x, Val(h, x));
    }
    WrappedCounts(h, now, rc');
  }

  lemma AddedUses(objs: Objects, rc: Counts, key: ObjectKey, v: Value, rc': Counts, x: nat, u: Value)
    requires At(rc, x) == Uses(objs - {key}, u) && AddedAt(rc, rc', x, Count(v, u))
    ensures At(rc', x) == Wrapped(Uses(objs[key := v], u))
  {
    UsesUpsert(objs, key, v, u);
    AddedTotal(rc, rc', x, Count(v, u), Uses(objs[key := v], u));
  }

  lemma AddedTotal(rc: Counts, rc': Counts, x: nat, n: nat, total: nat)
    requires AddedAt(rc, rc', x, n) && At(rc, x) + n == total
    ensures At(rc', x) == Wrapped(total)
  {
  }

  lemma Wraps(n: nat)
    ensures Wrapped(n) == n <==> n < LIMIT
  {
  }

  /** Counters that agree with the counts modulo 2^32 agree with them exactly when the counts fit. */
  lemma WrappedCounts(h: Heap, objs: Objects, rc: Counts)
    requires LiveNodes(objs) <= Vals(h) && CountedModulo(h, objs, rc)
    ensures Counted(h, objs, rc) <==> Fits(objs)
  {
    if Counted(h, objs, rc) {
      forall u ensures Uses(objs, u) < LIMIT {
        UsedIsLive(objs, u);
        if u in Vals(h) { var x :| x in h.n.live && Val(h, x) == u; Wraps(Uses(objs, u)); }
      }
    }
    if Fits(objs) {
      forall x: nat | x in h.n.live ensures At(rc, x) == Uses(objs, Val(h, x)) {
        Wraps(Uses(objs, Val(h, x)));
      }
    }
  }

  /** Upserting what a key already holds puts every counter back. */
  lemma CountsBack(h: Heap, objs: Objects, rc: Counts, key: ObjectKey, rc1: Counts, rc2: Counts)
    requires Counted(h, objs, rc) && key in objs
    requires Decremented(h, rc, rc1, CountsIn(objs[key]))
    requires Incremented(h, rc1, rc2, CountsIn(objs[key]))
    ensures rc2 == rc
  {
    DecrementCounts(h, objs, rc, key, rc1);
    forall x: nat ensures At(rc2, x) == At(rc, x) && (x in rc2 <==> x in rc) {
      if x in h.n.live {
        BackAt(rc, rc1, rc2, x, Count(objs[key], Val(h, x)));
      }
    }
    SameCounts(rc, rc2);
  }

  lemma BackAt(rc: Counts, rc1: Counts, rc2: Counts, x: nat, n: nat)
    requires At(rc, x) >= n && At(rc1, x) == Less(At(rc, x), n) && AddedAt(rc1, rc2, x, n) && (x in rc1 <==> x in rc)
    ensures At(rc2, x) == At(rc, x) && (x in rc2 <==> x in rc)
  {
  }

  /** Taking n off a counter, down to zero, and adding n again gives the counter back. */
  ghost predicate ReturnsAt(rc: Counts, x: nat, n: nat) {
    (At(rc, x) >= n || At(rc, x) == Wrapped(n)) && (n > 0 ==> x in rc)
  }

  ghost predicate Returns(h: Heap, v: Value, rc: Counts) {
    forall x: nat :: x in h.n.live ==> ReturnsAt(rc, x, Count(v, Val(h, x)))
  }

  lemma ReturnsAtIff(rc: Counts, rc1: Counts, rc2: Counts, x: nat, n: nat)
    requires At(rc1, x) == Less(At(rc, x), n) && AddedAt(rc1, rc2, x, n) && (x in rc1 <==> x in rc)
    ensures At(rc2, x) == At(rc, x) && (x in rc2 <==> x in rc) <==> ReturnsAt(rc, x, n)
  {
  }

  lemma ReturnsIff(h: Heap, v: Value, rc: Counts, rc1: Counts, rc2: Counts)
    requires Decremented(h, rc, rc1, CountsIn(v)) && Incremented(h, rc1, rc2, CountsIn(v))
    ensures rc2 == rc <==> Returns(h, v, rc)
  {
    hide ReturnsAt, AddedAt;
    forall x: nat | x in h.n.live
      ensures At(rc2, x) == At(rc, x) && (x in rc2 <==> x in rc) <==> ReturnsAt(rc, x, Count(v, Val(h, x)))
    {
      ReturnsAtIff(rc, rc1, rc2, x, Count(v, Val(h, x)));
    }
    if Returns(h, v, rc) { SameCounts(rc, rc2); }
  }

  lemma SameCounts(rc: Counts, rc': Counts)
    requires forall x: nat :: At(rc, x) == At(rc', x) && (x in rc <==> x in rc')
    ensures rc == rc'
  {
    assert forall x: nat :: x in rc && x in rc' ==> rc[x] == At(rc, x) == At(rc', x);
  }
}
