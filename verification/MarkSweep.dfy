/** Mark and sweep: what GC's walk collects, and what sweeping to the marks leaves. */
module MarkSweep {
  import opened Pools
  import opened Values
  import opened Counting
  import opened Plain
  import opened Heaps

  /** The live ids whose value is in us, and the live value ids whose scalar is in ss. */
  ghost predicate Marked(h: Heap, ns: set<nat>, vs: set<nat>, ns': set<nat>, vs': set<nat>, us: set<Value>,
      ss: set<Scalar>) {
    && (forall x: nat :: x in h.n.live ==> (x in ns' <==> x in ns || Val(h, x) in us))
    && (forall x: nat :: x in ns' ==> x in h.n.live)
    && (forall i: nat :: i in h.v.live ==> (i in vs' <==> i in vs || ScalarAt(h, i) in ss))
  }

  /** Everything below y has been marked. */
  ghost predicate Done(h: Heap, ns: set<nat>, vs: set<nat>, y: nat) {
    && (forall x: nat :: x in h.n.live && Val(h, x) in Sub(Val(h, y)) ==> x in ns)
    && (forall i: nat :: i in h.v.live && ScalarAt(h, i) in Scalars(Val(h, y)) ==> i in vs)
  }

  ghost predicate DoneUpTo(h: Heap, ns: set<nat>, vs: set<nat>, id: nat) {
    forall y: nat :: y in ns && y <= id ==> Done(h, ns, vs, y)
  }

  /** What a node contributes by itself and through its first i children. */
  ghost function SubsSoFar(h: Heap, id: nat, i: nat): set<Value>
    requires i <= |Kids(NodeAt(h, id))|
  {
    {Val(h, id)} + set j, u | 0 <= j < i && u in Sub(Val(h, Kids(NodeAt(h, id))[j])) :: u
  }

  ghost function KeysSoFar(h: Heap, node: Node, i: nat): set<Scalar>
    requires node.MapNode? ==> i <= |node.entries|
  {
    match node
    case ScalarNode(vid) => {ScalarAt(h, vid)} - {Nil}
    case MapNode(es) => set j | 0 <= j < i :: ScalarAt(h, es[j].key)
    case SliceNode(_) => {}
  }

  ghost function ScalarsSoFar(h: Heap, id: nat, i: nat): set<Scalar>
    requires i <= |Kids(NodeAt(h, id))|
  {
    KeysSoFar(h, NodeAt(h, id), i) + set j, s | 0 <= j < i && s in Scalars(Val(h, Kids(NodeAt(h, id))[j])) :: s
  }

  lemma SoFarIsAll(h: Heap, id: nat)
    requires HeapOk(h) && id in h.n.live
    ensures SubsSoFar(h, id, |Kids(NodeAt(h, id))|) == Sub(Val(h, id))
    ensures ScalarsSoFar(h, id, |Kids(NodeAt(h, id))|) == Scalars(Val(h, id))
  {
    var node := NodeAt(h, id);
    var n := |Kids(node)|;
    assert NodeOk(h, id, node);
    forall u ensures u in SubsSoFar(h, id, n) <==> u in Sub(Val(h, id)) {
      KidsSub(h, id, node, u);
      if KidHolds(h, node, u) {
        var c :| c in Kids(node) && u in Sub(Val(h, c));
        var j :| 0 <= j < n && Kids(node)[j] == c;
      }
    }
    forall s ensures s in ScalarsSoFar(h, id, n) <==> s in Scalars(Val(h, id)) {
      KidsScalars(h, id, node, s);
      UsesKeySoFar(h, id, node, s);
      if KidUses(h, node, s) {
        var c :| c in Kids(node) && s in Scalars(Val(h, c));
        var j :| 0 <= j < n && Kids(node)[j] == c;
      }
    }
  }

  lemma UsesKeySoFar(h: Heap, id: nat, node: Node, s: Scalar)
    requires HeapOk(h) && NodeOk(h, id, node)
    ensures UsesKey(h, node, s) <==> s in KeysSoFar(h, node, |Kids(node)|)
  {
    match node
    case ScalarNode(vid) => assert vid in Refs(node);
    case SliceNode(_) =>
    case MapNode(es) =>
      forall j | 0 <= j < |es| ensures es[j].key in Refs(node) && ScalarAt(h, es[j].key) != Nil { KidIn(es, j); }
      if r :| r in Refs(node) && ScalarAt(h, r) == s { var j :| 0 <= j < |es| && es[j].key == r; }
  }

  lemma DoneBelow(h: Heap, ns: set<nat>, vs: set<nat>, w: Value, y: nat)
    requires HeapOk(h) && y in h.n.live && Val(h, y) in Sub(w)
    requires forall x: nat :: x in h.n.live && Val(h, x) in Sub(w) ==> x in ns
    requires forall i: nat :: i in h.v.live && ScalarAt(h, i) in Scalars(w) ==> i in vs
    ensures Done(h, ns, vs, y)
  {
    SubTransitive(w, Val(h, y));
  }

  /** Half-way through id's children, whatever is marked below the next child is complete. */
  lemma ReadyForChild(h: Heap, ns: set<nat>, vs: set<nat>, ns': set<nat>, vs': set<nat>, id: nat, i: nat, child: nat)
    requires HeapOk(h) && id in h.n.live && child < id
    requires i <= |Kids(NodeAt(h, id))|
    requires DoneUpTo(h, ns, vs, id) && ns <= h.n.live
    requires Marked(h, ns, vs, ns', vs', SubsSoFar(h, id, i), ScalarsSoFar(h, id, i))
    ensures DoneUpTo(h, ns', vs', child)
  {
    forall y: nat | y in ns' && y <= child ensures Done(h, ns', vs', y) {
      if y in ns {
        assert Done(h, ns, vs, y);
      } else {
        Canonical(h, y, id);
        var j :| 0 <= j < i && Val(h, y) in Sub(Val(h, Kids(NodeAt(h, id))[j]));
        DoneBelow(h, ns', vs', Val(h, Kids(NodeAt(h, id))[j]), y);
      }
    }
  }

  /** id itself and its first i children have been marked, on top of (ns, vs). */
  ghost predicate Marking(h: Heap, ns: set<nat>, vs: set<nat>, ns': set<nat>, vs': set<nat>, id: nat, i: nat) {
    && i <= |Kids(NodeAt(h, id))| && ns <= h.n.live && DoneUpTo(h, ns, vs, id)
    && Marked(h, ns, vs, ns', vs', SubsSoFar(h, id, i), ScalarsSoFar(h, id, i))
  }

  lemma SeenIsDone(h: Heap, ns: set<nat>, vs: set<nat>, id: nat)
    requires HeapOk(h) && id in h.n.live && id in ns && ns <= h.n.live && DoneUpTo(h, ns, vs, id)
    ensures Marked(h, ns, vs, ns, vs, Sub(Val(h, id)), Scalars(Val(h, id)))
  {
    assert Done(h, ns, vs, id);
  }

  /** A scalar node marks its value id; any other node marks nothing but itself at first. */
  lemma MarkingStart(h: Heap, ns: set<nat>, vs: set<nat>, id: nat)
    requires HeapOk(h) && id in h.n.live && ns <= h.n.live && DoneUpTo(h, ns, vs, id)
    ensures Marking(h, ns, vs, ns + {id}, match NodeAt(h, id) case ScalarNode(vid) => vs + {vid} case _ => vs, id, 0)
  {
    var vs' := match NodeAt(h, id) case ScalarNode(vid) => vs + {vid} case _ => vs;
    forall x: nat | x in h.n.live ensures x in ns + {id} <==> x in ns || Val(h, x) in SubsSoFar(h, id, 0) {
      Canonical(h, x, id);
    }
    forall i: nat | i in h.v.live ensures i in vs' <==> i in vs || ScalarAt(h, i) in ScalarsSoFar(h, id, 0) {
      assert NodeOk(h, id, NodeAt(h, id));
    }
  }

  lemma MarkingReady(h: Heap, ns: set<nat>, vs: set<nat>, ns': set<nat>, vs': set<nat>, vs1: set<nat>, id: nat, i: nat)
    requires HeapOk(h) && id in h.n.live && i < |Kids(NodeAt(h, id))|
    requires Marking(h, ns, vs, ns', vs', id, i) && vs' <= vs1
    ensures ns' <= h.n.live && DoneUpTo(h, ns', vs1, Kids(NodeAt(h, id))[i])
  {
    var child := Kids(NodeAt(h, id))[i];
    KidsBelow(h, id);
    ReadyForChild(h, ns, vs, ns', vs', id, i, child);
    forall y: nat | y in ns' && y <= child ensures Done(h, ns', vs1, y) {
      assert Done(h, ns', vs', y);
    }
  }

  /** Marking the key of a map entry, if there is one, and then everything below the next child. */
  lemma MarkingStep(h: Heap, ns: set<nat>, vs: set<nat>, ns1: set<nat>, vs1: set<nat>, ns2: set<nat>,
      vs2: set<nat>, id: nat, i: nat)
    requires HeapOk(h) && id in h.n.live && i < |Kids(NodeAt(h, id))|
    requires Marking(h, ns, vs, ns1, vs1, id, i)
    requires var child := Val(h, Kids(NodeAt(h, id))[i]);
             var keyed := match NodeAt(h, id) case MapNode(es) => vs1 + {es[i].key} case _ => vs1;
             Marked(h, ns1, keyed, ns2, vs2, Sub(child), Scalars(child))
    ensures Marking(h, ns, vs, ns2, vs2, id, i + 1)
  {
    var kids := Kids(NodeAt(h, id));
    var child := Val(h, kids[i]);
    forall x: nat | x in h.n.live ensures x in ns2 <==> x in ns || Val(h, x) in SubsSoFar(h, id, i + 1) {
      assert Val(h, x) in SubsSoFar(h, id, i + 1) <==> Val(h, x) in SubsSoFar(h, id, i) || Val(h, x) in Sub(child);
    }
    forall j: nat | j in h.v.live ensures j in vs2 <==> j in vs || ScalarAt(h, j) in ScalarsSoFar(h, id, i + 1) {
      NextScalars(h, id, i, ScalarAt(h, j));
      if NodeAt(h, id).MapNode? {
        var k := NodeAt(h, id).entries[i].key;
        assert NodeOk(h, id, NodeAt(h, id));
        assert ScalarAt(h, j) == ScalarAt(h, k) <==> j == k;
      }
    }
  }

  lemma NextScalars(h: Heap, id: nat, i: nat, s: Scalar)
    requires i < |Kids(NodeAt(h, id))|
    ensures s in ScalarsSoFar(h, id, i + 1) <==>
            || s in ScalarsSoFar(h, id, i) || s in Scalars(Val(h, Kids(NodeAt(h, id))[i]))
            || (NodeAt(h, id).MapNode? && s == ScalarAt(h, NodeAt(h, id).entries[i].key))
  {
    assert s in KeysSoFar(h, NodeAt(h, id), i + 1) <==>
           || s in KeysSoFar(h, NodeAt(h, id), i)
           || (NodeAt(h, id).MapNode? && s == ScalarAt(h, NodeAt(h, id).entries[i].key));
  }

  lemma MarkingDone(h: Heap, ns: set<nat>, vs: set<nat>, ns': set<nat>, vs': set<nat>, id: nat)
    requires HeapOk(h) && id in h.n.live && Marking(h, ns, vs, ns', vs', id, |Kids(NodeAt(h, id))|)
    ensures Marked(h, ns, vs, ns', vs', Sub(Val(h, id)), Scalars(Val(h, id)))
  {
    SoFarIsAll(h, id);
  }

  // ---------- marking from all roots ----------

  ghost function NodesBelow(objs: Objects, ks: set<ObjectKey>): set<Value> {
    set k, u | k in ks && k in objs && u in Sub(objs[k]) :: u
  }

  ghost function ScalarsBelow(objs: Objects, ks: set<ObjectKey>): set<Scalar> {
    set k, s | k in ks && k in objs && s in Scalars(objs[k]) :: s
  }

  /** The roots of the keys ks have been walked. */
  ghost predicate RootsMarked(h: Heap, objs: Objects, ks: set<ObjectKey>, ns: set<nat>, vs: set<nat>) {
    Marked(h, {}, {}, ns, vs, NodesBelow(objs, ks), ScalarsBelow(objs, ks))
  }

  lemma NoRootsMarked(h: Heap, objs: Objects)
    ensures RootsMarked(h, objs, {}, {}, {})
  {
  }

  lemma RootReady(h: Heap, objs: Objects, ks: set<ObjectKey>, ns: set<nat>, vs: set<nat>, key: ObjectKey, root: nat)
    requires HeapOk(h) && RootsMarked(h, objs, ks, ns, vs)
    requires root in h.n.live && key in objs && objs[key] == Val(h, root)
    ensures ns <= h.n.live && DoneUpTo(h, ns, vs, root) && root != 0
  {
    forall y: nat | y in ns && y <= root ensures Done(h, ns, vs, y) {
      var k :| k in ks && k in objs && Val(h, y) in Sub(objs[k]);
      DoneBelow(h, ns, vs, objs[k], y);
    }
  }

  lemma RootMarked(h: Heap, objs: Objects, ks: set<ObjectKey>, ns: set<nat>, vs: set<nat>, key: ObjectKey,
      root: nat, ns': set<nat>, vs': set<nat>)
    requires RootsMarked(h, objs, ks, ns, vs) && key in objs && objs[key] == Val(h, root)
    requires Marked(h, ns, vs, ns', vs', Sub(Val(h, root)), Scalars(Val(h, root)))
    ensures RootsMarked(h, objs, ks + {key}, ns', vs')
  {
    assert NodesBelow(objs, ks + {key}) == NodesBelow(objs, ks) + Sub(objs[key]);
    assert ScalarsBelow(objs, ks + {key}) == ScalarsBelow(objs, ks) + Scalars(objs[key]);
  }

  lemma AllRootsMarked(h: Heap, objs: Objects, ns: set<nat>, vs: set<nat>)
    requires RootsMarked(h, objs, objs.Keys, ns, vs)
    ensures MarksLive(h, objs, ns, vs)
  {
    assert NodesBelow(objs, objs.Keys) == LiveNodes(objs);
    assert ScalarsBelow(objs, objs.Keys) == LiveScalars(objs);
  }

  // ---------- sweeping to the marks ----------

  lemma LiveClosed(objs: Objects, w: Value)
    requires w in LiveNodes(objs)
    ensures Sub(w) <= LiveNodes(objs) && Scalars(w) <= LiveScalars(objs)
  {
    var k :| k in objs && w in Sub(objs[k]);
    SubTransitive(objs[k], w);
  }

  /** The marks are exactly what the stored objects mention. */
  ghost predicate MarksLive(h: Heap, objs: Objects, ns: set<nat>, vs: set<nat>) {
    && ns <= h.n.live
    && (forall x: nat :: x in h.n.live ==> (x in ns <==> Val(h, x) in LiveNodes(objs)))
    && (forall i: nat :: i in h.v.live ==> (i in vs <==> ScalarAt(h, i) in LiveScalars(objs)))
  }

  /** A marked node mentions only marked ids. */
  lemma MarkedClosed(h: Heap, objs: Objects, ns: set<nat>, vs: set<nat>, id: nat)
    requires HeapOk(h) && MarksLive(h, objs, ns, vs) && id in ns
    ensures forall c :: c in Kids(h.n.slots[id]) ==> c in ns
    ensures forall r :: r in Refs(h.n.slots[id]) ==> r == 0 || r in vs
  {
    var node := h.n.slots[id];
    LiveClosed(objs, Val(h, id));
    forall c | c in Kids(node) ensures c in ns {
      InOwnSub(Val(h, c));
      KidsSub(h, id, node, Val(h, c));
      assert KidHolds(h, node, Val(h, c));
    }
    forall r | r in Refs(node) && r != 0 ensures r in vs {
      KidsScalars(h, id, node, ScalarAt(h, r));
      assert r in h.v.live;
      assert UsesKey(h, node, ScalarAt(h, r));
    }
  }

  lemma SweptOk(h: Heap, objs: Objects, ns: set<nat>, vs: set<nat>, g: Heap)
    requires HeapOk(h) && MarksLive(h, objs, ns, vs)
    requires g == Heap(Sweep(h.v, vs, Nil), Sweep(h.n, ns, ZERO_NODE))
    ensures HeapOk(g) && Within(g.n, h.n) && Within(g.v, h.v)
  {
    SweepOk(h.n, ns, ZERO_NODE);
    SweepOk(h.v, vs, Nil);
    forall id | id in g.n.live ensures NodeOk(g, id, g.n.slots[id]) {
      MarkedClosed(h, objs, ns, vs, id);
      var node := h.n.slots[id];
      assert g.n.slots[id] == node && NodeOk(h, id, node);
      match node
      case MapNode(es) =>
        forall i | 0 <= i < |es|
          ensures es[i].key in g.v.live && g.v.slots[es[i].key].Str? && es[i].child in g.n.live && es[i].child < id
        {
          KidIn(es, i);
          assert es[i].key != 0;
        }
      case SliceNode(items) =>
        forall i | 0 <= i < |items| ensures items[i] in g.n.live && items[i] < id { assert items[i] in Kids(node); }
      case ScalarNode(vid) => assert vid in Refs(node);
    }
  }

  /** Sweeping to the marks leaves exactly what the stored objects mention, with every value as it was. */
  lemma SweptHeap(h: Heap, objs: Objects, ns: set<nat>, vs: set<nat>, g: Heap)
    requires HeapOk(h) && MarksLive(h, objs, ns, vs)
    requires g == Heap(Sweep(h.v, vs, Nil), Sweep(h.n, ns, ZERO_NODE))
    requires LiveNodes(objs) <= Vals(h) && LiveScalars(objs) <= Scals(h)
    ensures HeapOk(g) && g.n.live == ns && Within(g.n, h.n) && Within(g.v, h.v)
    ensures forall id :: id in g.n.live ==> Val(g, id) == Val(h, id)
    ensures Vals(g) == LiveNodes(objs) && Scals(g) == LiveScalars(objs)
  {
    SweptOk(h, objs, ns, vs, g);
    forall id | id in g.n.live ensures Val(g, id) == Val(h, id) {
      WithinVal(g, h, id, id, g.n.slots[id]);
    }
    forall u ensures u in Vals(g) <==> u in LiveNodes(objs) {
      if u in LiveNodes(objs) {
        var x :| x in h.n.live && Val(h, x) == u;
        assert x in g.n.live && Val(g, x) == u;
      }
    }
    forall s ensures s in Scals(g) <==> s in LiveScalars(objs) {
      if s in Scals(g) { var i :| i in g.v.live && ScalarAt(g, i) == s; assert ScalarAt(h, i) == s; }
      if s in LiveScalars(objs) {
        var i :| i in h.v.live && ScalarAt(h, i) == s;
        assert i in g.v.live && ScalarAt(g, i) == s;
      }
    }
  }

  // ---------- sharing is perfect: one live id per distinct value ----------

  ghost function ValsOf(h: Heap, s: set<nat>): set<Value> {
    set id | id in s :: Val(h, id)
  }

  ghost function ScalsOf(h: Heap, s: set<nat>): set<Scalar> {
    set i | i in s :: ScalarAt(h, i)
  }

  lemma {:induction false} DistinctVals(h: Heap, s: set<nat>)
    requires HeapOk(h) && s <= h.n.live
    ensures |ValsOf(h, s)| == |s|
    decreases |s|
  {
    if s != {} {
      var x :| x in s;
      var r := s - {x};
      DistinctVals(h, r);
      forall id | id in r ensures Val(h, id) != Val(h, x) { Canonical(h, id, x); }
      assert ValsOf(h, s) == ValsOf(h, r) + {Val(h, x)};
      assert Val(h, x) !in ValsOf(h, r);
    }
  }

  lemma {:induction false} DistinctScals(h: Heap, s: set<nat>)
    requires HeapOk(h) && s <= h.v.live
    ensures |ScalsOf(h, s)| == |s|
    decreases |s|
  {
    if s != {} {
      var x :| x in s;
      var r := s - {x};
      DistinctScals(h, r);
      assert ScalsOf(h, s) == ScalsOf(h, r) + {ScalarAt(h, x)};
      assert ScalarAt(h, x) !in ScalsOf(h, r);
    }
  }

  /** The pools hold one indexed entry per distinct value and per distinct scalar. */
  lemma PerfectSharing(h: Heap)
    requires HeapOk(h)
    ensures |h.n.live| == |Vals(h)| && |h.v.live| == |Scals(h)|
  {
    DistinctVals(h, h.n.live);
    DistinctScals(h, h.v.live);
    assert Vals(h) == ValsOf(h, h.n.live) && Scals(h) == ScalsOf(h, h.v.live);
  }

  lemma SweptSizes<T>(p: Pool<T>, keep: set<nat>, zero: T)
    ensures |p.live - keep| == |p.live| - |Sweep(p, keep, zero).live|
  {
    assert p.live == (p.live - keep) + (p.live * keep);
  }
}
