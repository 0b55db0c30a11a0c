/** What decompose does to the heap, step by step, on values. */
module Decomposing {
  import opened Pools
  import opened Values
  import opened Heaps

  /** g is h after interning exactly the values vs and the scalars ss. */
  ghost predicate Adds(h: Heap, g: Heap, vs: set<Value>, ss: set<Scalar>) {
    Grown(h, g) && Vals(g) == Vals(h) + vs && Scals(g) == Scals(h) + ss
  }

  ghost predicate Holds(h: Heap, id: nat, v: Value) {
    id in h.n.live && Val(h, id) == v
  }

  /** g is h after decomposing v, whose root is id: nothing but v's own subvalues and scalars is new. */
  ghost predicate Decomposed(h: Heap, v: Value, g: Heap, id: nat) {
    Adds(h, g, Sub(v), Scalars(v)) && Holds(g, id, v)
  }

  lemma AddsNothing(h: Heap)
    requires HeapOk(h)
    ensures Adds(h, h, {}, {})
  {
  }

  lemma AddsGrown(h: Heap, g: Heap, vs: set<Value>, ss: set<Scalar>)
    requires Adds(h, g, vs, ss)
    ensures HeapOk(g) && Grown(h, g)
  {
  }

  lemma AddsTransitive(h: Heap, g: Heap, f: Heap, vs: set<Value>, ss: set<Scalar>, us: set<Value>, ts: set<Scalar>)
    requires Adds(h, g, vs, ss) && Adds(g, f, us, ts)
    ensures Adds(h, f, vs + us, ss + ts)
  {
    GrownTransitive(h, g, f);
  }

  /** Interning one scalar, and one node. */
  lemma AddsScalar(h: Heap, s: Scalar, g: Heap)
    requires HeapOk(h) && s != Nil && g == h.(v := Insert(h.v, s))
    ensures Adds(h, g, {}, {s})
  {
    AddScalar(h, s);
  }

  lemma AddsNode(h: Heap, node: Node, v: Value, g: Heap, id: nat)
    requires HeapOk(h) && NodeOk(h, |h.n.slots|, node) && NodeVal(h, |h.n.slots|, node) == v
    requires g == h.(n := Insert(h.n, node)) && id in g.n.live && g.n.slots[id] == node
    ensures Adds(h, g, {v}, {}) && Holds(g, id, v)
  {
    AddNode(h, node);
  }

  lemma LeafDecomposed(h: Heap, s: Scalar, vid: nat, g: Heap, f: Heap, id: nat)
    requires HeapOk(h)
    requires if s == Nil then vid == 0 && g == h
             else g == h.(v := Insert(h.v, s)) && vid in g.v.live && g.v.slots[vid] == s
    requires f == g.(n := Insert(g.n, ScalarNode(vid))) && id in f.n.live && f.n.slots[id] == ScalarNode(vid)
    ensures Decomposed(h, Leaf(s), f, id)
  {
    if s == Nil { AddsNothing(h); } else { AddsScalar(h, s, g); }
    AddsNode(g, ScalarNode(vid), Leaf(s), f, id);
    AddsTransitive(h, g, f, {}, Scalars(Leaf(s)), {Leaf(s)}, {});
    assert {} + Sub(Leaf(s)) == Sub(Leaf(s));
  }

  // ---------- maps ----------

  ghost function SubsOf(m: map<string, Value>, ks: set<string>): set<Value> {
    set k, u | k in ks && k in m && u in Sub(m[k]) :: u
  }

  ghost function ScalarsOf(m: map<string, Value>, ks: set<string>): set<Scalar> {
    (set k | k in ks && k in m :: Str(k)) + set k, s | k in ks && k in m && s in Scalars(m[k]) :: s
  }

  /** e stands for the field k of m. */
  ghost predicate EntryHolds(h: Heap, m: map<string, Value>, k: string, e: Entry) {
    e.key in h.v.live && ScalarAt(h, e.key) == Str(k) && k in m && Holds(h, e.child, m[k])
  }

  /** The entries stand for the fields ks of m, in the order given. */
  ghost predicate EntriesHold(h: Heap, m: map<string, Value>, ks: seq<string>, es: seq<Entry>) {
    && |es| == |ks|
    && (forall i :: 0 <= i < |es| ==> EntryHolds(h, m, ks[i], es[i]))
    && (forall i, j :: 0 <= i < j < |ks| ==> ks[i] != ks[j])
  }

  lemma EntriesHoldStep(m: map<string, Value>, h: Heap, ks: seq<string>, es: seq<Entry>, k: string, e: Entry, g: Heap)
    requires HeapOk(h) && Grown(h, g)
    requires EntriesHold(h, m, ks, es) && EntryHolds(g, m, k, e) && k !in ks
    ensures EntriesHold(g, m, ks + [k], es + [e])
  {
    GrownKeeps(h, g);
    forall i | 0 <= i < |es| ensures EntryHolds(g, m, ks[i], es[i]) {
      assert EntryHolds(h, m, ks[i], es[i]);
    }
  }

  /** The fields ks of m have been decomposed into `es`. */
  ghost predicate Gathered(h: Heap, m: map<string, Value>, g: Heap, ks: seq<string>, es: seq<Entry>) {
    Adds(h, g, SubsOf(m, set k | k in ks), ScalarsOf(m, set k | k in ks)) && EntriesHold(g, m, ks, es)
  }

  /** The keys not visited yet, beside those visited. */
  ghost predicate Remaining(all: set<string>, todo: set<string>, ks: seq<string>) {
    todo !! (set k | k in ks) && all == todo + set k | k in ks
  }

  lemma RemainingStep(all: set<string>, todo: set<string>, ks: seq<string>, k: string)
    requires Remaining(all, todo, ks) && k in todo
    ensures Remaining(all, todo - {k}, ks + [k]) && k !in ks && k in all
  {
    assert (set j | j in ks + [k]) == (set j | j in ks) + {k};
  }

  lemma GatheredNothing(h: Heap, m: map<string, Value>)
    requires HeapOk(h)
    ensures Gathered(h, m, h, [], [])
  {
    var none: seq<string> := [];
    assert SubsOf(m, set k | k in none) == {} && ScalarsOf(m, set k | k in none) == {};
  }

  lemma OneMoreField(m: map<string, Value>, ks: seq<string>, k: string)
    requires k in m
    ensures SubsOf(m, set j | j in ks + [k]) == SubsOf(m, set j | j in ks) + Sub(m[k])
    ensures ScalarsOf(m, set j | j in ks + [k]) == ScalarsOf(m, set j | j in ks) + {Str(k)} + Scalars(m[k])
  {
    assert (set j | j in ks + [k]) == (set j | j in ks) + {k};
  }

  /** f is g after interning the field k of m as the entry e. */
  ghost predicate FieldDecomposed(g: Heap, m: map<string, Value>, k: string, f: Heap, e: Entry)
    requires k in m
  {
    Adds(g, f, Sub(m[k]), {Str(k)} + Scalars(m[k])) && EntryHolds(f, m, k, e)
  }

  lemma OneField(m: map<string, Value>, k: string, g: Heap, g': Heap, keyId: nat, f: Heap, valId: nat)
    requires HeapOk(g) && k in m
    requires g' == g.(v := Insert(g.v, Str(k))) && keyId in g'.v.live && g'.v.slots[keyId] == Str(k)
    requires Decomposed(g', m[k], f, valId)
    ensures FieldDecomposed(g, m, k, f, Entry(keyId, valId))
  {
    AddsScalar(g, Str(k), g');
    AddsTransitive(g, g', f, {}, {Str(k)}, Sub(m[k]), Scalars(m[k]));
    assert {} + Sub(m[k]) == Sub(m[k]);
    GrownKeeps(g', f);
  }

  lemma GatherStep(h: Heap, m: map<string, Value>, g: Heap, ks: seq<string>, es: seq<Entry>, k: string, f: Heap,
      e: Entry)
    requires HeapOk(h) && Gathered(h, m, g, ks, es)
    requires k in m && k !in ks && FieldDecomposed(g, m, k, f, e)
    ensures Gathered(h, m, f, ks + [k], es + [e])
  {
    hide HeapOk, Adds, EntryHolds, EntriesHold, Sub, Scalars, SubsOf, ScalarsOf;
    var vs, ss := SubsOf(m, set j | j in ks), ScalarsOf(m, set j | j in ks);
    AddsGrown(g, f, Sub(m[k]), {Str(k)} + Scalars(m[k]));
    AddsGrown(h, g, vs, ss);
    AddsTransitive(h, g, f, vs, ss, Sub(m[k]), {Str(k)} + Scalars(m[k]));
    OneMoreField(m, ks, k);
    assert ss + ({Str(k)} + Scalars(m[k])) == ss + {Str(k)} + Scalars(m[k]);
    EntriesHoldStep(m, g, ks, es, k, e, f);
  }

  lemma GrownTransitive(h: Heap, g: Heap, f: Heap)
    requires Grown(h, g) && Grown(g, f)
    ensures Grown(h, f)
  {
    GrewTransitive(h.n, g.n, f.n);
    GrewTransitive(h.v, g.v, f.v);
  }

  /** Sorted entries for all the fields of m make a node for m. */
  lemma MapNodeVal(h: Heap, m: map<string, Value>, ks: seq<string>, es: seq<Entry>, sorted: seq<Entry>)
    requires HeapOk(h) && EntriesHold(h, m, ks, es) && m.Keys == set k | k in ks
    requires Sorted(sorted) && forall e :: e in sorted <==> e in es
    ensures NodeOk(h, |h.n.slots|, MapNode(sorted))
    ensures NodeVal(h, |h.n.slots|, MapNode(sorted)) == Map(m)
  {
    var b := |h.n.slots|;
    forall i | 0 <= i < |sorted| ensures EntryHolds(h, m, KeyOf(h, sorted[i]), sorted[i]) {
      assert sorted[i] in es;
      var j :| 0 <= j < |es| && es[j] == sorted[i];
      assert EntryHolds(h, m, ks[j], es[j]);
    }
    assert NodeOk(h, b, MapNode(sorted));
    Unfold(h, b, MapNode(sorted));
    EntriesMap(h, b, m, ks, es, sorted);
  }

  lemma EntriesMap(h: Heap, b: nat, m: map<string, Value>, ks: seq<string>, es: seq<Entry>, sorted: seq<Entry>)
    requires EntriesHold(h, m, ks, es) && m.Keys == set k | k in ks
    requires forall e :: e in sorted <==> e in es
    requires forall i :: 0 <= i < |sorted| ==> EntryHolds(h, m, KeyOf(h, sorted[i]), sorted[i])
    requires Distinct(h, b, sorted)
    ensures EntriesVal(h, b, sorted) == m
  {
    var n := EntriesVal(h, b, sorted);
    forall k | k in m ensures k in n {
      assert k in ks;
      var j :| 0 <= j < |ks| && ks[j] == k;
      assert es[j] in sorted && EntryHolds(h, m, ks[j], es[j]);
      var i :| 0 <= i < |sorted| && sorted[i] == es[j];
      EntryAt(h, b, sorted, i);
    }
    forall k | k in n ensures k in m && n[k] == m[k] {
      var i := KeyIndex(h, b, sorted, k);
    }
  }

  lemma MapDecomposed(h: Heap, m: map<string, Value>, g: Heap, ks: seq<string>, es: seq<Entry>, sorted: seq<Entry>,
      f: Heap, id: nat)
    requires HeapOk(h) && Gathered(h, m, g, ks, es) && m.Keys == set k | k in ks
    requires Sorted(sorted) && forall e :: e in sorted <==> e in es
    requires f == g.(n := Insert(g.n, MapNode(sorted))) && id in f.n.live && f.n.slots[id] == MapNode(sorted)
    ensures Decomposed(h, Map(m), f, id)
  {
    hide HeapOk, Adds, EntriesHold, Sorted, Val, NodeVal, NodeOk;
    AddsGrown(h, g, SubsOf(m, m.Keys), ScalarsOf(m, m.Keys));
    MapNodeVal(g, m, ks, es, sorted);
    AddsNode(g, MapNode(sorted), Map(m), f, id);
    AddsTransitive(h, g, f, SubsOf(m, m.Keys), ScalarsOf(m, m.Keys), {Map(m)}, {});
    SubsOfAll(m);
  }

  lemma SubsOfAll(m: map<string, Value>)
    ensures Sub(Map(m)) == SubsOf(m, m.Keys) + {Map(m)}
    ensures Scalars(Map(m)) == ScalarsOf(m, m.Keys) + {}
  {
  }

  // ---------- slices ----------

  ghost function SubsUpTo(s: seq<Value>, n: nat): set<Value> {
    set i, u | 0 <= i < n && i < |s| && u in Sub(s[i]) :: u
  }

  ghost function ScalarsUpTo(s: seq<Value>, n: nat): set<Scalar> {
    set i, x | 0 <= i < n && i < |s| && x in Scalars(s[i]) :: x
  }

  /** The items stand for the first elements of s. */
  ghost predicate ItemsHold(h: Heap, s: seq<Value>, items: seq<nat>) {
    |items| <= |s| && forall i :: 0 <= i < |items| ==> Holds(h, items[i], s[i])
  }

  /** The first n elements of s have been decomposed into `items`. */
  ghost predicate Listed(h: Heap, s: seq<Value>, g: Heap, n: nat, items: seq<nat>) {
    Adds(h, g, SubsUpTo(s, n), ScalarsUpTo(s, n)) && |items| == n && ItemsHold(g, s, items)
  }

  lemma ListedNothing(h: Heap, s: seq<Value>)
    requires HeapOk(h)
    ensures Listed(h, s, h, 0, [])
  {
    assert SubsUpTo(s, 0) == {} && ScalarsUpTo(s, 0) == {};
  }

  lemma OneMoreItem(s: seq<Value>, n: nat)
    requires n < |s|
    ensures SubsUpTo(s, n + 1) == SubsUpTo(s, n) + Sub(s[n])
    ensures ScalarsUpTo(s, n + 1) == ScalarsUpTo(s, n) + Scalars(s[n])
  {
  }

  lemma ListStep(h: Heap, s: seq<Value>, g: Heap, n: nat, items: seq<nat>, f: Heap, id: nat)
    requires HeapOk(h) && Listed(h, s, g, n, items) && n < |s|
    requires Decomposed(g, s[n], f, id)
    ensures Listed(h, s, f, n + 1, items + [id])
  {
    OneMoreItem(s, n);
    AddsTransitive(h, g, f, SubsUpTo(s, n), ScalarsUpTo(s, n), Sub(s[n]), Scalars(s[n]));
    ItemsHoldStep(s, g, items, f, id);
  }

  lemma ItemsHoldStep(s: seq<Value>, g: Heap, items: seq<nat>, f: Heap, id: nat)
    requires HeapOk(g) && Grown(g, f) && ItemsHold(g, s, items)
    requires |items| < |s| && Holds(f, id, s[|items|])
    ensures ItemsHold(f, s, items + [id])
  {
    GrownKeeps(g, f);
    forall i | 0 <= i < |items| ensures Holds(f, items[i], s[i]) {
      assert Holds(g, items[i], s[i]);
    }
  }

  lemma SliceDecomposed(h: Heap, s: seq<Value>, g: Heap, items: seq<nat>, f: Heap, id: nat)
    requires HeapOk(h) && Listed(h, s, g, |s|, items)
    requires f == g.(n := Insert(g.n, SliceNode(items))) && id in f.n.live && f.n.slots[id] == SliceNode(items)
    ensures Decomposed(h, Slice(s), f, id)
  {
    var b := |g.n.slots|;
    assert NodeOk(g, b, SliceNode(items)) by {
      assert forall i :: 0 <= i < |items| ==> Holds(g, items[i], s[i]);
    }
    Unfold(g, b, SliceNode(items));
    assert NodeVal(g, b, SliceNode(items)).items == s;
    AddsNode(g, SliceNode(items), Slice(s), f, id);
    hide HeapOk, Adds, Val, NodeVal;
    AddsTransitive(h, g, f, SubsUpTo(s, |s|), ScalarsUpTo(s, |s|), {Slice(s)}, {});
    SubsUpToAll(s);
  }

  lemma SubsUpToAll(s: seq<Value>)
    ensures Sub(Slice(s)) == SubsUpTo(s, |s|) + {Slice(s)}
    ensures Scalars(Slice(s)) == ScalarsUpTo(s, |s|) + {}
  {
  }

  // ---------- decomposing what is there already ----------

  /** Decomposing a value the heap already holds changes nothing. */
  lemma DecomposedAgain(h: Heap, v: Value, g: Heap, id: nat)
    requires HeapOk(h) && Decomposed(h, v, g, id)
    requires Sub(v) <= Vals(h) && Scalars(v) <= Scals(h)
    ensures g == h
  {
    GrownKeeps(h, g);
    forall x | x in g.n.live ensures x in h.n.live {
      assert Val(g, x) in Vals(g);
      var y :| y in h.n.live && Val(h, y) == Val(g, x);
      Canonical(g, x, y);
    }
    forall i | i in g.v.live ensures i in h.v.live {
      assert ScalarAt(g, i) in Scals(g);
      var j :| j in h.v.live && ScalarAt(h, j) == ScalarAt(g, i);
    }
    NothingNew(h.n, g.n);
    NothingNew(h.v, g.v);
  }

  lemma NothingNew<T>(p: Pool<T>, q: Pool<T>)
    requires Grew(p, q) && q.live <= p.live
    requires forall i :: i in p.live ==> i < |p.slots|
    ensures p == q
  {
    assert |p.slots| !in q.live;
    assert q.slots == p.slots;
    assert q.live == p.live;
  }
}
