/** How long an id means the same thing: heaps that follow each other as the store works. */
module Identities {
  import opened Pools
  import opened Heaps

  /** g is h after a collection: some ids left, and no slot came or went. */
  ghost predicate Shrunk(h: Heap, g: Heap) {
    && Within(g.n, h.n) && |g.n.slots| == |h.n.slots|
    && Within(g.v, h.v) && |g.v.slots| == |h.v.slots|
  }

  ghost predicate Evolves(h: Heap, g: Heap) {
    HeapOk(g) && (Grown(h, g) || Shrunk(h, g))
  }

  ghost predicate Chain(heaps: seq<Heap>) {
    && |heaps| > 0 && HeapOk(heaps[0])
    && forall i, j :: 0 <= i && j == i + 1 && j < |heaps| ==> Evolves(heaps[i], heaps[j])
  }

  lemma ChainAppend(heaps: seq<Heap>, g: Heap)
    requires Chain(heaps) && Evolves(heaps[|heaps| - 1], g)
    ensures Chain(heaps + [g])
  {
    hide Evolves, HeapOk;
  }

  lemma EvolvesNot(h: Heap)
    requires HeapOk(h)
    ensures Evolves(h, h)
  {
  }

  lemma ChainOk(heaps: seq<Heap>, i: nat)
    requires Chain(heaps) && i < |heaps|
    ensures HeapOk(heaps[i])
  {
    if i > 0 { assert Evolves(heaps[i - 1], heaps[i]); }
  }

  /** Every heap of a chain is a DAG ordered by id: the children of a live node are positive, live and smaller, and the
      values it mentions are live. */
  lemma ChainIsOrdered(heaps: seq<Heap>, i: nat, id: nat)
    requires Chain(heaps) && i < |heaps| && id in heaps[i].n.live
    ensures forall c :: c in Kids(NodeAt(heaps[i], id)) ==> 0 < c < id && c in heaps[i].n.live
    ensures forall v :: v in Refs(NodeAt(heaps[i], id)) ==> v == 0 || v in heaps[i].v.live
  {
    hide Chain;
    ChainOk(heaps, i);
    KidsBelow(heaps[i], id);
    assert NodeOk(heaps[i], id, NodeAt(heaps[i], id));
  }

  // ---------- an id that was given up is never used again ----------

  lemma {:induction false} NodeIdGone(heaps: seq<Heap>, i: nat, j: nat, id: nat)
    requires Chain(heaps) && i <= j < |heaps|
    requires id < |heaps[i].n.slots| && id !in heaps[i].n.live
    ensures id < |heaps[j].n.slots| && id !in heaps[j].n.live
    decreases j
  {
    hide HeapOk;
    if i < j {
      NodeIdGone(heaps, i, j - 1, id);
      assert Evolves(heaps[j - 1], heaps[j]);
    }
  }

  lemma {:induction false} ValueIdGone(heaps: seq<Heap>, i: nat, j: nat, id: nat)
    requires Chain(heaps) && i <= j < |heaps|
    requires id < |heaps[i].v.slots| && id !in heaps[i].v.live
    ensures id < |heaps[j].v.slots| && id !in heaps[j].v.live
    decreases j
  {
    hide HeapOk;
    if i < j {
      ValueIdGone(heaps, i, j - 1, id);
      assert Evolves(heaps[j - 1], heaps[j]);
    }
  }

  // ---------- a value that stays keeps its id ----------

  lemma NodeIdStep(h: Heap, g: Heap, id: nat)
    requires HeapOk(h) && Evolves(h, g) && id in h.n.live && Val(h, id) in Vals(g)
    ensures id in g.n.live && Val(g, id) == Val(h, id)
  {
    hide Val;
    if Grown(h, g) {
      GrownKeeps(h, g);
    } else {
      var y :| y in g.n.live && Val(g, y) == Val(h, id);
      KeptVal(h, g, y);
      Canonical(h, id, y);
    }
  }

  lemma KeptVal(h: Heap, g: Heap, y: nat)
    requires HeapOk(h) && HeapOk(g) && Shrunk(h, g) && y in g.n.live
    ensures y in h.n.live && Val(h, y) == Val(g, y)
  {
    WithinVal(g, h, y, y, g.n.slots[y]);
  }

  /** Whatever is collected around it, a value that is held throughout keeps its id. */
  lemma {:induction false} NodeIdKept(heaps: seq<Heap>, i: nat, j: nat, id: nat)
    requires Chain(heaps) && i <= j < |heaps| && id in heaps[i].n.live
    requires forall m :: i <= m <= j ==> Val(heaps[i], id) in Vals(heaps[m])
    ensures id in heaps[j].n.live && Val(heaps[j], id) == Val(heaps[i], id)
    decreases j
  {
    hide HeapOk, Val, Vals, Evolves;
    if i < j {
      NodeIdKept(heaps, i, j - 1, id);
      ChainOk(heaps, j - 1);
      assert Evolves(heaps[j - 1], heaps[j]);
      NodeIdStep(heaps[j - 1], heaps[j], id);
    }
  }

  lemma ValueIdStep(h: Heap, g: Heap, id: nat)
    requires HeapOk(h) && Evolves(h, g) && id in h.v.live && ScalarAt(h, id) in Scals(g)
    ensures id in g.v.live && ScalarAt(g, id) == ScalarAt(h, id)
  {
    if Grown(h, g) {
      GrownKeeps(h, g);
    } else {
      var y :| y in g.v.live && ScalarAt(g, y) == ScalarAt(h, id);
      assert y in h.v.live && h.v.slots[y] == h.v.slots[id];
    }
  }

  lemma {:induction false} ValueIdKept(heaps: seq<Heap>, i: nat, j: nat, id: nat)
    requires Chain(heaps) && i <= j < |heaps| && id in heaps[i].v.live
    requires forall m :: i <= m <= j ==> ScalarAt(heaps[i], id) in Scals(heaps[m])
    ensures id in heaps[j].v.live && ScalarAt(heaps[j], id) == ScalarAt(heaps[i], id)
    decreases j
  {
    hide HeapOk, ScalarAt, Scals, Evolves;
    if i < j {
      ValueIdKept(heaps, i, j - 1, id);
      ChainOk(heaps, j - 1);
      assert Evolves(heaps[j - 1], heaps[j]);
      ValueIdStep(heaps[j - 1], heaps[j], id);
    }
  }
}
