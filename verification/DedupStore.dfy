/** store/dedup_store.go: the deduplicated object store. */
module DedupStores {
  import opened Values
  import opened Plain
  import opened Unstructured
  import opened Heaps
  import opened Identities
  import opened Decomposing
  import opened Refcounts
  import opened MarkSweep
  import opened Meanings
  import opened ValuePools
  import opened NodePools

  // ---------- sort.Slice over map entries ----------

  function InsertEntry(s: seq<Entry>, e: Entry): seq<Entry> {
    if s == [] || e.key < s[0].key then [e] + s else [s[0]] + InsertEntry(s[1..], e)
  }

  function SortEntries(s: seq<Entry>): seq<Entry> {
    if s == [] then [] else InsertEntry(SortEntries(s[..|s| - 1]), s[|s| - 1])
  }

  lemma {:induction false} InsertSorts(s: seq<Entry>, e: Entry)
    requires Sorted(s) && forall i :: 0 <= i < |s| ==> s[i].key != e.key
    ensures Sorted(InsertEntry(s, e)) && forall x :: x in InsertEntry(s, e) <==> x in s || x == e
  {
    if s != [] && e.key >= s[0].key {
      InsertSorts(s[1..], e);
      var r := InsertEntry(s[1..], e);
      assert forall x :: x in s <==> x == s[0] || x in s[1..];
      forall i | 0 <= i < |r| ensures s[0].key < r[i].key { assert r[i] in r; }
    }
  }

  /** Entries with different keys are sorted by key, none lost and none added. */
  lemma {:induction false} SortSorts(s: seq<Entry>)
    requires forall i, j :: 0 <= i < j < |s| ==> s[i].key != s[j].key
    ensures Sorted(SortEntries(s)) && forall x :: x in SortEntries(s) <==> x in s
  {
    if s != [] {
      var r, e := s[..|s| - 1], s[|s| - 1];
      SortSorts(r);
      var t := SortEntries(r);
      forall i | 0 <= i < |t| ensures t[i].key != e.key {
        assert t[i] in r;
        var j :| 0 <= j < |r| && r[j] == t[i];
      }
      InsertSorts(t, e);
      assert s == r + [e];
    }
  }

  lemma KeysDiffer(h: Heap, m: map<string, Value>, ks: seq<string>, es: seq<Entry>)
    requires EntriesHold(h, m, ks, es)
    ensures forall i, j :: 0 <= i < j < |es| ==> es[i].key != es[j].key
  {
    forall i, j | 0 <= i < j < |es| ensures es[i].key != es[j].key {
      assert EntryHolds(h, m, ks[i], es[i]) && EntryHolds(h, m, ks[j], es[j]);
    }
  }

  /** The two sets that GC's walk fills. */
  class Marks {
    var nodes: set<nat>
    var values: set<nat>

    constructor ()
      ensures nodes == {} && values == {}
    {
      nodes, values := {}, {};
    }
  }

  class DedupStore {
    const values: ValueInternPool
    const subtrees: SubtreeInternPool
    const render: Value -> string
    var objects: map<ObjectKey, nat>
    var refcounts: Counts

    ghost function H(): Heap
      reads values, subtrees
    {
      Heap(values.P(), subtrees.P())
    }

    ghost predicate Ready()
      reads values, subtrees
    {
      values.Valid() && subtrees.Valid() && HeapOk(H())
    }

    ghost predicate Valid()
      reads this, values, subtrees
    {
      Ready() && Rooted(H(), objects)
    }

    /** The plain store this store stands for. */
    ghost function A(): PlainStore
      reads this, values, subtrees
    {
      Meaning(H(), objects)
    }

    /** Every counter equals the number of occurrences of its node in the stored objects. */
    ghost predicate CountsExact()
      reads this, values, subtrees
    {
      Counted(H(), A().objs, refcounts)
    }

    constructor (hash: Node -> uint64, render: Value -> string)
      ensures Valid() && fresh(values) && fresh(subtrees)
      ensures A() == EMPTY && CountsExact() && this.render == render
    {
      values := new ValueInternPool();
      subtrees := new SubtreeInternPool(hash);
      this.render := render;
      objects := map[];
      refcounts := map[];
      new;
      values.PoolOk();
      subtrees.PoolOk();
      assert A().objs == map[];
      assert H().n.live == {} && H().v.live == {};
    }

    // ---------- decompose and reconstruct ----------

    /** Interns v and everything below it. */
    method Decompose(v: Raw) returns (id: nat)
      requires Ready()
      modifies values, subtrees
      ensures Ready()
      ensures Decomposed(old(H()), Canon(v), H(), id)
      decreases v, 1
    {
      match v
      case RawLeaf(r) =>
        id := DecomposeLeaf(r);
      case RawMap(_) =>
        id := DecomposeMap(v);
      case RawSlice(_) =>
        id := DecomposeSlice(v);
    }

    method DecomposeLeaf(r: RawScalar) returns (id: nat)
      requires Ready()
      modifies values, subtrees
      ensures Ready()
      ensures Decomposed(old(H()), Leaf(Normalize(r)), H(), id)
    {
      ghost var h := H();
      var vid := 0;
      if r != RNil {
        vid := values.Intern(r);
      }
      ghost var g := H();
      id := subtrees.Intern(ScalarNode(vid));
      LeafDecomposed(h, Normalize(r), vid, g, H(), id);
    }

    /** The fields of a map are visited in any order; sorting by key id removes its effect. */
    method DecomposeMap(v: Raw) returns (id: nat)
      requires Ready() && v.RawMap?
      modifies values, subtrees
      ensures Ready()
      ensures Decomposed(old(H()), Canon(v), H(), id)
      decreases v, 0
    {
      ghost var h, m := H(), Canon(v).entries;
      ghost var ks: seq<string> := [];
      var entries: seq<Entry> := [];
      var todo := v.fields.Keys;
      GatheredNothing(h, m);
      while todo != {}
        invariant Remaining(m.Keys, todo, ks)
        invariant Ready() && Gathered(h, m, H(), ks, entries)
        decreases todo
      {
        var k :| k in todo;
        RemainingStep(m.Keys, todo, ks, k);
        ghost var g := H();
        var e := DecomposeField(k, v.fields[k], m);
        GatherStep(h, m, g, ks, entries, k, H(), e);
        entries := entries + [e];
        todo := todo - {k};
        ks := ks + [k];
      }
      id := InternMap(h, m, ks, entries);
    }

    method DecomposeField(k: string, v: Raw, ghost m: map<string, Value>) returns (e: Entry)
      requires Ready() && k in m && m[k] == Canon(v)
      modifies values, subtrees
      ensures Ready()
      ensures FieldDecomposed(old(H()), m, k, H(), e)
      decreases v, 2
    {
      ghost var g := H();
      var keyId := values.Intern(RString(k));
      ghost var g' := H();
      AddsScalar(g, Str(k), g');
      var valId := Decompose(v);
      e := Entry(keyId, valId);
      OneField(m, k, g, g', keyId, H(), valId);
    }

    method InternMap(ghost h: Heap, ghost m: map<string, Value>, ghost ks: seq<string>,
        entries: seq<Entry>) returns (id: nat)
      requires Ready() && HeapOk(h) && Gathered(h, m, H(), ks, entries) && m.Keys == set k | k in ks
      modifies subtrees
      ensures Ready()
      ensures Decomposed(h, Map(m), H(), id)
    {
      KeysDiffer(H(), m, ks, entries);
      SortSorts(entries);
      var sorted := SortEntries(entries);
      ghost var g := H();
      id := subtrees.Intern(MapNode(sorted));
      MapDecomposed(h, m, g, ks, entries, sorted, H(), id);
    }

    method DecomposeSlice(v: Raw) returns (id: nat)
      requires Ready() && v.RawSlice?
      modifies values, subtrees
      ensures Ready()
      ensures Decomposed(old(H()), Canon(v), H(), id)
      decreases v, 0
    {
      ghost var h, s := H(), Canon(v).items;
      var items: seq<nat> := [];
      var i := 0;
      ListedNothing(h, s);
      while i < |v.elems|
        invariant 0 <= i <= |v.elems|
        invariant Ready() && Listed(h, s, H(), i, items)
      {
        ghost var g := H();
        var item := Decompose(v.elems[i]);
        ListStep(h, s, g, i, items, H(), item);
        items := items + [item];
        i := i + 1;
      }
      ghost var g := H();
      id := subtrees.Intern(SliceNode(items));
      SliceDecomposed(h, s, g, items, H(), id);
    }

    /** Rebuilds the tree below an id. */
    method Reconstruct(id: nat) returns (v: Value)
      requires Ready() && id in H().n.live
      ensures v == Val(H(), id)
      decreases id, 1
    {
      var node := subtrees.Resolve(id);
      match node
      case ScalarNode(vid) =>
        var s := values.Resolve(vid);
        v := Leaf(s);
      case MapNode(es) =>
        v := ReconstructMap(id, es);
      case SliceNode(items) =>
        v := ReconstructSlice(id, items);
    }

    method ReconstructMap(id: nat, es: seq<Entry>) returns (v: Value)
      requires Ready() && id in H().n.live && NodeAt(H(), id) == MapNode(es)
      ensures v == Val(H(), id)
      decreases id, 0
    {
      ghost var h := H();
      hide HeapOk, Val, EntriesVal;
      MapVal(h, id, es);
      assert es[..0] == [];
      var m: map<string, Value> := map[];
      var i := 0;
      while i < |es|
        invariant 0 <= i <= |es| && H() == h
        invariant m == EntriesVal(h, id, es[..i])
      {
        var key := values.Resolve(es[i].key);
        var child := Reconstruct(es[i].child);
        EntriesValStep(h, id, es, i);
        m := m[(if key.Str? then key.s else "") := child];
        i := i + 1;
      }
      assert es[..|es|] == es;
      v := Map(m);
    }

    method ReconstructSlice(id: nat, items: seq<nat>) returns (v: Value)
      requires Ready() && id in H().n.live && NodeAt(H(), id) == SliceNode(items)
      ensures v == Val(H(), id)
      decreases id, 0
    {
      ghost var h := H();
      hide HeapOk, Val;
      KidsBelow(h, id);
      var sl: seq<Value> := [];
      var i := 0;
      while i < |items|
        invariant 0 <= i <= |items| && |sl| == i && H() == h
        invariant forall j :: 0 <= j < i ==> sl[j] == Val(h, items[j])
      {
        assert items[i] == Kids(NodeAt(h, id))[i];
        var item := Reconstruct(items[i]);
        sl := sl + [item];
        i := i + 1;
      }
      SliceVal(h, id, items, sl);
      v := Slice(sl);
    }

    // ---------- reference counts ----------

    /** Adds one for every occurrence in the tree below id. */
    method IncRef(id: nat, ghost h: Heap)
      requires HeapOk(h) && subtrees.nodes == h.n.slots && (id == 0 || id in h.n.live)
      modifies this`refcounts
      ensures id == 0 ==> refcounts == old(refcounts)
      ensures id != 0 ==> Incremented(h, old(refcounts), refcounts, CountsIn(Val(h, id)))
      decreases id, 1
    {
      hide Incrementing, Incremented, BumpAt, HeapOk;
      if id == 0 {
        return;
      }
      ghost var rc := refcounts;
      BumpedOne(h, refcounts, id);
      refcounts := BumpAt(refcounts, id);
      var node := subtrees.Resolve(id);
      IncRefAll(id, Kids(node), h, rc);
      IncrementingDone(h, rc, refcounts, id);
    }

    /** The children of id, map entries and slice items alike. */
    method IncRefAll(id: nat, kids: seq<nat>, ghost h: Heap, ghost rc: Counts)
      requires HeapOk(h) && subtrees.nodes == h.n.slots && id in h.n.live && kids == Kids(NodeAt(h, id))
      requires Incrementing(h, rc, refcounts, id, 0)
      modifies this`refcounts
      ensures Incrementing(h, rc, refcounts, id, |kids|)
      decreases id, 0
    {
      hide Incrementing, Incremented, HeapOk, Kids;
      KidsBelow(h, id);
      var i := 0;
      while i < |kids|
        invariant 0 <= i <= |kids|
        invariant Incrementing(h, rc, refcounts, id, i)
      {
        ghost var before := refcounts;
        IncRef(kids[i], h);
        IncrementingStep(h, rc, before, refcounts, id, i);
        i := i + 1;
      }
    }

    /** Takes one off, down to zero, for every occurrence in the tree below id. */
    method DecRef(id: nat, ghost h: Heap)
      requires HeapOk(h) && subtrees.nodes == h.n.slots && (id == 0 || id in h.n.live)
      modifies this`refcounts
      ensures id == 0 ==> refcounts == old(refcounts)
      ensures id != 0 ==> Decremented(h, old(refcounts), refcounts, CountsIn(Val(h, id)))
      decreases id, 1
    {
      hide Decrementing, Decremented, DropAt, HeapOk;
      if id == 0 {
        return;
      }
      ghost var rc := refcounts;
      DroppedOne(h, refcounts, id);
      refcounts := DropAt(refcounts, id);
      var node := subtrees.Resolve(id);
      DecRefAll(id, Kids(node), h, rc);
      DecrementingDone(h, rc, refcounts, id);
    }

    /** The children of id, map entries and slice items alike. */
    method DecRefAll(id: nat, kids: seq<nat>, ghost h: Heap, ghost rc: Counts)
      requires HeapOk(h) && subtrees.nodes == h.n.slots && id in h.n.live && kids == Kids(NodeAt(h, id))
      requires Decrementing(h, rc, refcounts, id, 0)
      modifies this`refcounts
      ensures Decrementing(h, rc, refcounts, id, |kids|)
      decreases id, 0
    {
      hide Decrementing, Decremented, HeapOk, Kids;
      KidsBelow(h, id);
      var i := 0;
      while i < |kids|
        invariant 0 <= i <= |kids|
        invariant Decrementing(h, rc, refcounts, id, i)
      {
        ghost var before := refcounts;
        DecRef(kids[i], h);
        DecrementingStep(h, rc, before, refcounts, id, i);
        i := i + 1;
      }
    }

    // ---------- garbage collection ----------

    /** Marks the node id, and every node and value below it. Ids still in progress are above id. */
    method Walk(id: nat, marks: Marks, ghost h: Heap)
      requires HeapOk(h) && subtrees.nodes == h.n.slots && (id == 0 || id in h.n.live)
      requires marks.nodes <= h.n.live && DoneUpTo(h, marks.nodes, marks.values, id)
      modifies marks
      ensures id == 0 ==> marks.nodes == old(marks.nodes) && marks.values == old(marks.values)
      ensures id != 0 ==>
                Marked(h, old(marks.nodes), old(marks.values), marks.nodes, marks.values,
                       Sub(Val(h, id)), Scalars(Val(h, id)))
      decreases id, 1
    {
      hide HeapOk, Marking, Marked, DoneUpTo;
      if id == 0 {
        return;
      }
      if id in marks.nodes {
        SeenIsDone(h, marks.nodes, marks.values, id);
        return;
      }
      ghost var ns, vs := marks.nodes, marks.values;
      marks.nodes := marks.nodes + {id};
      MarkingStart(h, ns, vs, id);
      var node := subtrees.Resolve(id);
      match node {
        case ScalarNode(vid) =>
          marks.values := marks.values + {vid};
        case MapNode(es) =>
          WalkMap(id, es, marks, h, ns, vs);
        case SliceNode(items) =>
          WalkSlice(id, items, marks, h, ns, vs);
      }
      MarkingDone(h, ns, vs, marks.nodes, marks.values, id);
    }

    method WalkMap(id: nat, es: seq<Entry>, marks: Marks, ghost h: Heap, ghost ns: set<nat>, ghost vs: set<nat>)
      requires HeapOk(h) && subtrees.nodes == h.n.slots && id in h.n.live && NodeAt(h, id) == MapNode(es)
      requires Marking(h, ns, vs, marks.nodes, marks.values, id, 0)
      modifies marks
      ensures Marking(h, ns, vs, marks.nodes, marks.values, id, |es|)
      decreases id, 0
    {
      hide HeapOk, Marking, DoneUpTo, Marked;
      KidsBelow(h, id);
      var i := 0;
      while i < |es|
        invariant 0 <= i <= |es|
        invariant Marking(h, ns, vs, marks.nodes, marks.values, id, i)
      {
        ghost var ns1, vs1 := marks.nodes, marks.values;
        MarkingReady(h, ns, vs, ns1, vs1, vs1 + {es[i].key}, id, i);
        marks.values := marks.values + {es[i].key};
        assert es[i].child == Kids(NodeAt(h, id))[i];
        Walk(es[i].child, marks, h);
        MarkingStep(h, ns, vs, ns1, vs1, marks.nodes, marks.values, id, i);
        i := i + 1;
      }
    }

    method WalkSlice(id: nat, items: seq<nat>, marks: Marks, ghost h: Heap, ghost ns: set<nat>, ghost vs: set<nat>)
      requires HeapOk(h) && subtrees.nodes == h.n.slots && id in h.n.live && NodeAt(h, id) == SliceNode(items)
      requires Marking(h, ns, vs, marks.nodes, marks.values, id, 0)
      modifies marks
      ensures Marking(h, ns, vs, marks.nodes, marks.values, id, |items|)
      decreases id, 0
    {
      hide HeapOk, Marking, DoneUpTo, Marked;
      KidsBelow(h, id);
      var i := 0;
      while i < |items|
        invariant 0 <= i <= |items|
        invariant Marking(h, ns, vs, marks.nodes, marks.values, id, i)
      {
        ghost var ns1, vs1 := marks.nodes, marks.values;
        MarkingReady(h, ns, vs, ns1, vs1, vs1, id, i);
        Walk(items[i], marks, h);
        MarkingStep(h, ns, vs, ns1, vs1, marks.nodes, marks.values, id, i);
        i := i + 1;
      }
    }

    // ---------- the public operations ----------

    method Upsert(key: ObjectKey, obj: map<string, Raw>)
      requires Valid()
      modifies this`objects, this`refcounts, values, subtrees
      ensures Valid()
      ensures A() == Upserted(old(A()), key, Canon(RawMap(obj)))
      ensures key in objects && objects == old(objects)[key := objects[key]]
      ensures Decomposed(old(H()), Canon(RawMap(obj)), H(), objects[key])
      ensures UpsertCounters(old(A()).objs, key, Canon(RawMap(obj)), H(), old(refcounts), refcounts)
      ensures old(CountsExact()) ==> (CountsExact() <==> Fits(A().objs)) && CountedModulo(H(), A().objs, refcounts)
      ensures Lookup(old(A()).objs, key) == Some(Canon(RawMap(obj))) ==> H() == old(H()) && objects == old(objects)
      ensures Lookup(old(A()).objs, key) == Some(Canon(RawMap(obj))) ==>
                (refcounts == old(refcounts) <==> Returns(H(), Canon(RawMap(obj)), old(refcounts)))
      ensures Lookup(old(A()).objs, key) == Some(Canon(RawMap(obj))) && old(CountsExact()) ==>
                refcounts == old(refcounts)
    {
      hide HeapOk, Decomposed, UpsertCounters, Counted, CountedModulo, Fits, Upserted, Rooted, Canon, Val;
      hide Vals, Scals, Grown, Objs, NodeAt, Returns, Lookup, ValueInternPool.Valid, SubtreeInternPool.Valid;
      ghost var h, was, rc, v := H(), objects, refcounts, Canon(RawMap(obj));
      var newRoot := Decompose(RawMap(obj));
      ghost var g := H();
      CanonIsMap(obj);
      DecomposedGrown(h, v, g, newRoot);
      RootsKept(h, was, g);
      Replace(key, newRoot, g);
      UpsertDone(h, was, rc, key, v, g, newRoot, refcounts);
    }

    /** Points key at newRoot, moving the reference counts from the old root, if any, to the new one. */
    method Replace(key: ObjectKey, newRoot: nat, ghost h: Heap)
      requires HeapOk(h) && subtrees.nodes == h.n.slots && newRoot in h.n.live
      requires Rooted(h, objects)
      modifies this`objects, this`refcounts
      ensures objects == old(objects)[key := newRoot]
      ensures UpsertCounters(Objs(h, old(objects)), key, Val(h, newRoot), h, old(refcounts), refcounts)
    {
      hide HeapOk, Incremented, Decremented, Val;
      ghost var rc := refcounts;
      LiveNotZero(h);
      if key in objects {
        DecRef(objects[key], h);
      }
      ghost var rc1 := refcounts;
      objects := objects[key := newRoot];
      IncRef(newRoot, h);
      assert UpsertVia(Objs(h, old(objects)), key, Val(h, newRoot), h, rc, rc1, refcounts);
    }

    method Delete(key: ObjectKey)
      requires Valid()
      modifies this`objects, this`refcounts
      ensures Valid() && H() == old(H())
      ensures A() == Deleted(old(A()), key) && objects == old(objects) - {key}
      ensures old(CountsExact()) ==> CountsExact()
    {
      hide HeapOk, Decremented, Counted, Val, Vals, Scals, Deleted;
      ghost var h, was, rc := H(), objects, refcounts;
      LiveNotZero(h);
      if key in objects {
        DecRef(objects[key], h);
        objects := objects - {key};
        DeleteDone(h, was, rc, key, refcounts);
      } else {
        NothingToDelete(h, was, key);
      }
    }

    /** A present key is always found: every root is a map node. */
    method Get(key: ObjectKey) returns (r: Option<Value>)
      requires Valid()
      ensures r == Lookup(A().objs, key)
    {
      if key !in objects {
        return None;
      }
      var raw := Reconstruct(objects[key]);
      RootIsMap(H(), objects, key);
      r := if raw.Map? then Some(raw) else None;
    }

    method List(gvk: GroupVersionKind, opts: ListOptions) returns (result: seq<Value>)
      requires Valid()
      ensures exists keys :: IsListing(render, A().objs, gvk, opts, keys, result)
    {
      hide HeapOk;
      ghost var keys: seq<ObjectKey> := [];
      result := [];
      var todo := objects.Keys;
      ghost var objs := A().objs;
      while todo != {}
        invariant todo <= objects.Keys
        invariant ListedSoFar(render, objs, gvk, opts, todo, keys, result)
        decreases todo
      {
        var key :| key in todo;
        RootIsMap(H(), objects, key);
        var obj := Reconstruct(objects[key]);
        var accepted := Filter(gvk, opts, key, obj);
        ListedStep(render, objs, gvk, opts, todo, keys, result, key);
        if accepted {
          result, keys := result + [obj], keys + [key];
        }
        todo := todo - {key};
      }
      assert IsListing(render, A().objs, gvk, opts, keys, result);
    }

    /** The filters of List, in the order they are applied. */
    method Filter(gvk: GroupVersionKind, opts: ListOptions, key: ObjectKey, obj: Value) returns (ok: bool)
      requires obj.Map?
      ensures ok <==> Accepts(render, opts, gvk, key, obj)
    {
      if key.gvk != gvk {
        return false;
      }
      if opts.namespace != "" && key.namespace != opts.namespace {
        return false;
      }
      if |opts.labels| > 0 {
        var labelsOk := LabelsMatch(GetLabels(obj), opts.labels);
        if !labelsOk {
          return false;
        }
      }
      if |opts.fields| > 0 {
        ok := FieldsMatch(render, obj, opts.fields);
        return;
      }
      ok := true;
    }

    method GC() returns (nodesRemoved: nat, valuesRemoved: nat)
      requires Valid()
      modifies this`refcounts, values, subtrees
      ensures Valid()
      ensures A() == Collected(old(A()))
      ensures nodesRemoved == |old(A()).nodes| - |A().nodes|
      ensures valuesRemoved == |old(A()).scalars| - |A().scalars|
      ensures Shrunk(old(H()), H())
      ensures |H().n.live| == |LiveNodes(A().objs)| && |H().v.live| == |LiveScalars(A().objs)|
      ensures refcounts == NonZero(old(refcounts))
      ensures old(CountsExact()) ==> CountsExact() && refcounts.Keys == H().n.live
    {
      hide HeapOk, Counted;
      ghost var h, rc, objs := H(), refcounts, A().objs;
      DropZeros();
      var marks := new Marks();
      MarkRoots(marks);
      nodesRemoved := subtrees.DeleteUnreachable(marks.nodes);
      valuesRemoved := values.DeleteUnreachable(marks.values);
      SweptMeaning(h, objects, H(), marks.nodes, marks.values);
      PerfectSharing(H());
    }

    /** Step 1 of GC. */
    method DropZeros()
      modifies this`refcounts
      ensures refcounts == NonZero(old(refcounts))
    {
      var todo := refcounts.Keys;
      while todo != {}
        invariant todo <= old(refcounts).Keys
        invariant refcounts ==
                    map id | id in old(refcounts) && (id in todo || old(refcounts)[id] != 0) :: old(refcounts)[id]
        decreases todo
      {
        var id :| id in todo;
        if refcounts[id] == 0 {
          refcounts := refcounts - {id};
        }
        todo := todo - {id};
      }
    }

    /** Step 2 of GC: the roots are visited in any order. */
    method MarkRoots(marks: Marks)
      requires Valid() && marks.nodes == {} && marks.values == {}
      modifies marks
      ensures MarksLive(H(), A().objs, marks.nodes, marks.values)
    {
      hide HeapOk, RootsMarked, Marked, DoneUpTo, Val, MarksLive, NodeAt, Objs, Rooted;
      var roots := objects;
      ghost var h, objs := H(), Objs(H(), roots);
      var todo := roots.Keys;
      ghost var done: set<ObjectKey> := {};
      NoRootsMarked(h, objs);
      while todo != {}
        invariant todo <= roots.Keys && done == roots.Keys - todo
        invariant RootsMarked(h, objs, done, marks.nodes, marks.values)
        decreases todo
      {
        var key :| key in todo;
        ghost var ns, vs := marks.nodes, marks.values;
        RootIsMap(h, roots, key);
        RootReady(h, objs, done, ns, vs, key, roots[key]);
        Walk(roots[key], marks, h);
        RootMarked(h, objs, done, ns, vs, key, roots[key], marks.nodes, marks.values);
        KeysDone(roots.Keys, todo, done, key);
        todo, done := todo - {key}, done + {key};
      }
      AllKeys(h, roots, done);
      AllRootsMarked(h, objs, marks.nodes, marks.values);
    }
  }

  lemma KeysDone(all: set<ObjectKey>, todo: set<ObjectKey>, done: set<ObjectKey>, key: ObjectKey)
    requires todo <= all && done == all - todo && key in todo
    ensures todo - {key} <= all && done + {key} == all - (todo - {key})
  {
  }

  lemma AllKeys(h: Heap, roots: Roots, done: set<ObjectKey>)
    ensures done == roots.Keys - {} ==> done == Objs(h, roots).Keys
  {
  }
}
