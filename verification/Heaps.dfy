/** The hash-consed node heap: two pools, the trees their ids stand for, and what shares them. */
module Heaps {
  import opened Pools
  import opened Values
  import opened Counting

  datatype Entry = Entry(key: nat, child: nat)

  datatype Node =
    | ScalarNode(vid: nat)
    | MapNode(entries: seq<Entry>)
    | SliceNode(items: seq<nat>)

  /** The zero Node, held by the sentinel slot and by freed slots; it looks like scalar nil. */
  const ZERO_NODE := ScalarNode(0)

  datatype Heap = Heap(v: Pool<Scalar>, n: Pool<Node>)

  ghost predicate Sorted(es: seq<Entry>) {
    forall i, j :: 0 <= i < j < |es| ==> es[i].key < es[j].key
  }

  /** `node` may sit at an id of at least `b`: all it mentions is live, and its children are below b. */
  ghost predicate NodeOk(h: Heap, b: nat, node: Node) {
    match node
    case ScalarNode(vid) => vid == 0 || vid in h.v.live
    case MapNode(es) =>
      && Sorted(es)
      && forall i :: 0 <= i < |es| ==>
           && es[i].key in h.v.live && es[i].key < |h.v.slots| && h.v.slots[es[i].key].Str?
           && es[i].child in h.n.live && es[i].child < b
    case SliceNode(items) => forall i :: 0 <= i < |items| ==> items[i] in h.n.live && items[i] < b
  }

  /** The heap is a DAG ordered by id, over two well-formed pools. */
  ghost predicate HeapOk(h: Heap) {
    && Ok(h.v, Nil) && (forall i :: i in h.v.live ==> h.v.slots[i] != Nil)
    && Ok(h.n, ZERO_NODE)
    && forall id :: id in h.n.live ==> NodeOk(h, id, h.n.slots[id])
  }

  function Kids(node: Node): seq<nat> {
    match node
    case ScalarNode(_) => []
    case MapNode(es) => seq(|es|, i requires 0 <= i < |es| => es[i].child)
    case SliceNode(items) => items
  }

  /** The value ids a node mentions. */
  ghost function Refs(node: Node): set<nat> {
    match node
    case ScalarNode(vid) => {vid}
    case MapNode(es) => set i | 0 <= i < |es| :: es[i].key
    case SliceNode(_) => {}
  }

  // ---------- what an id stands for ----------

  ghost function NodeAt(h: Heap, id: nat): Node {
    if id < |h.n.slots| then h.n.slots[id] else ZERO_NODE
  }

  ghost function ScalarAt(h: Heap, vid: nat): Scalar {
    if vid < |h.v.slots| then h.v.slots[vid] else Nil
  }

  ghost function KeyOf(h: Heap, e: Entry): string {
    var s := ScalarAt(h, e.key);
    if s.Str? then s.s else ""
  }

  /** The tree below an id. The guards `< b` only serve termination: they hold in every good heap. */
  ghost function Val(h: Heap, id: nat): Value
    decreases id, 1
  {
    NodeVal(h, id, NodeAt(h, id))
  }

  ghost function NodeVal(h: Heap, b: nat, node: Node): Value
    decreases b, 0, 1
  {
    match node
    case ScalarNode(vid) => Leaf(ScalarAt(h, vid))
    case MapNode(es) => Map(EntriesVal(h, b, es))
    case SliceNode(items) =>
      Slice(seq(|items|, i requires 0 <= i < |items| => if items[i] < b then Val(h, items[i]) else Leaf(Nil)))
  }

  ghost function EntriesVal(h: Heap, b: nat, es: seq<Entry>): map<string, Value>
    decreases b, 0, 0, |es|
  {
    if es == [] then map[]
    else
      var e := es[|es| - 1];
      var rest := EntriesVal(h, b, es[..|es| - 1]);
      if e.child < b then rest[KeyOf(h, e) := Val(h, e.child)] else rest
  }

  lemma EntriesValStep(h: Heap, b: nat, es: seq<Entry>, i: nat)
    requires i < |es| && es[i].child < b
    ensures EntriesVal(h, b, es[..i + 1]) == EntriesVal(h, b, es[..i])[KeyOf(h, es[i]) := Val(h, es[i].child)]
  {
    assert es[..i + 1][..i] == es[..i];
  }

  ghost function Vals(h: Heap): set<Value> {
    set id | id in h.n.live :: Val(h, id)
  }

  ghost function Scals(h: Heap): set<Scalar> {
    set i | i in h.v.live :: ScalarAt(h, i)
  }

  /** One unfolding of NodeVal, by node kind. */
  lemma Unfold(h: Heap, b: nat, node: Node)
    requires HeapOk(h) && NodeOk(h, b, node)
    ensures node.ScalarNode? ==> NodeVal(h, b, node) == Leaf(ScalarAt(h, node.vid))
    ensures node.MapNode? ==> NodeVal(h, b, node) == Map(EntriesVal(h, b, node.entries)) && Distinct(h, b, node.entries)
    ensures node.SliceNode? ==>
              && NodeVal(h, b, node).Slice? && |NodeVal(h, b, node).items| == |node.items|
              && forall i :: 0 <= i < |node.items| ==> NodeVal(h, b, node).items[i] == Val(h, node.items[i])
  {
    if node.MapNode? { NodeOkDistinct(h, b, node); }
  }

  /** The entries' keys are different strings, and the children are below b. */
  ghost predicate Distinct(h: Heap, b: nat, es: seq<Entry>) {
    && (forall i :: 0 <= i < |es| ==> es[i].child < b)
    && forall i, j :: 0 <= i < j < |es| ==> KeyOf(h, es[i]) != KeyOf(h, es[j])
  }

  lemma NodeOkDistinct(h: Heap, b: nat, node: Node)
    requires HeapOk(h) && NodeOk(h, b, node) && node.MapNode?
    ensures Distinct(h, b, node.entries)
  {
    var es := node.entries;
    forall i, j | 0 <= i < j < |es| ensures KeyOf(h, es[i]) != KeyOf(h, es[j]) {
      assert es[i].key < es[j].key;
      assert h.v.slots[es[i].key] != h.v.slots[es[j].key];
    }
  }

  /** A map node reconstructs to the map of its entries, key by key. */
  lemma {:induction false} EntriesShape(h: Heap, b: nat, es: seq<Entry>)
    requires Distinct(h, b, es)
    ensures forall i :: 0 <= i < |es| ==>
              KeyOf(h, es[i]) in EntriesVal(h, b, es) && EntriesVal(h, b, es)[KeyOf(h, es[i])] == Val(h, es[i].child)
    ensures forall k :: k in EntriesVal(h, b, es) ==> exists i :: 0 <= i < |es| && KeyOf(h, es[i]) == k
  {
    if es != [] {
      var rest := es[..|es| - 1];
      EntriesShape(h, b, rest);
      var m, r := EntriesVal(h, b, es), EntriesVal(h, b, rest);
      forall i | 0 <= i < |es| ensures KeyOf(h, es[i]) in m && m[KeyOf(h, es[i])] == Val(h, es[i].child) {
        if i < |rest| { assert rest[i] == es[i]; }
      }
      forall k | k in m ensures exists i :: 0 <= i < |es| && KeyOf(h, es[i]) == k {
        if k in r {
          var i :| 0 <= i < |rest| && KeyOf(h, rest[i]) == k;
          assert es[i] == rest[i];
        } else {
          assert KeyOf(h, es[|es| - 1]) == k;
        }
      }
    }
  }

  // ---------- hash-consing is canonical ----------

  lemma SomeIn(s: seq<Entry>)
    ensures s == [] || exists e :: e in s
  {
    if s != [] { assert s[0] in s; }
  }

  lemma TailIn(a: seq<Entry>, b: seq<Entry>)
    requires Sorted(a) && a != [] && b != [] && a[0] == b[0] && forall e :: e in a ==> e in b
    ensures forall e :: e in a[1..] ==> e in b[1..]
  {
    forall e | e in a[1..] ensures e in b[1..] {
      var i :| 1 <= i < |a| && a[i] == e;
      assert a[i] in b;
      var j :| 0 <= j < |b| && b[j] == e;
      assert b[1..][j - 1] == e;
    }
  }

  /** Strictly sorted entry lists with the same elements are the same list. */
  lemma {:induction false} SortedUnique(a: seq<Entry>, b: seq<Entry>)
    requires Sorted(a) && Sorted(b)
    requires forall e :: e in a <==> e in b
    ensures a == b
  {
    if a == [] {
      SomeIn(b);
    } else {
      assert a[0] in b && b != [] && b[0] in a;
      assert a[0] == b[0];
      TailIn(a, b);
      TailIn(b, a);
      SortedUnique(a[1..], b[1..]);
    }
  }

  /** Every entry of a map node whose reconstruction equals y's is an entry of y. */
  lemma EntriesIncluded(h: Heap, x: nat, y: nat, e: Entry)
    requires HeapOk(h) && x in h.n.live && y in h.n.live
    requires h.n.slots[x].MapNode? && h.n.slots[y].MapNode? && Val(h, x) == Val(h, y)
    requires e in h.n.slots[x].entries
    requires forall d :: d in h.n.live && d < y && Val(h, d) == Val(h, e.child) ==> d == e.child
    ensures e in h.n.slots[y].entries
  {
    var a, b := h.n.slots[x].entries, h.n.slots[y].entries;
    Unfold(h, x, h.n.slots[x]);
    Unfold(h, y, h.n.slots[y]);
    EntriesShape(h, x, a);
    EntriesShape(h, y, b);
    var i :| 0 <= i < |a| && a[i] == e;
    var j :| 0 <= j < |b| && KeyOf(h, b[j]) == KeyOf(h, e);
    assert h.v.slots[b[j].key] == h.v.slots[e.key];
    assert b[j] == e;
  }

  /** Indexed ids are equal exactly when the values they reconstruct are. */
  lemma {:induction false} Canonical(h: Heap, x: nat, y: nat)
    requires HeapOk(h) && x in h.n.live && y in h.n.live
    ensures x == y <==> Val(h, x) == Val(h, y)
    decreases x + y
  {
    if Val(h, x) == Val(h, y) {
      Unfold(h, x, h.n.slots[x]);
      Unfold(h, y, h.n.slots[y]);
      match (h.n.slots[x], h.n.slots[y])
      case (ScalarNode(_), _) =>
      case (SliceNode(a), SliceNode(b)) =>
        forall i | 0 <= i < |a| ensures a[i] == b[i] {
          assert Val(h, x).items[i] == Val(h, a[i]) && Val(h, y).items[i] == Val(h, b[i]);
          Canonical(h, a[i], b[i]);
        }
        assert a == b;
      case (MapNode(a), MapNode(b)) =>
        forall e ensures e in a <==> e in b {
          if e in a {
            forall d | d in h.n.live && d < y && Val(h, d) == Val(h, e.child) ensures d == e.child {
              Canonical(h, d, e.child);
            }
            EntriesIncluded(h, x, y, e);
          }
          if e in b {
            forall d | d in h.n.live && d < x && Val(h, d) == Val(h, e.child) ensures d == e.child {
              Canonical(h, d, e.child);
            }
            EntriesIncluded(h, y, x, e);
          }
        }
        SortedUnique(a, b);
      case _ =>
    }
  }

  // ---------- growing and shrinking the heap leaves values alone ----------

  lemma {:induction false} EntriesAgree(h: Heap, b: nat, g: Heap, c: nat, es: seq<Entry>)
    requires forall i :: 0 <= i < |es| ==>
               && es[i].child < b && es[i].child < c
               && KeyOf(h, es[i]) == KeyOf(g, es[i]) && Val(h, es[i].child) == Val(g, es[i].child)
    ensures EntriesVal(h, b, es) == EntriesVal(g, c, es)
  {
    if es != [] {
      var rest := es[..|es| - 1];
      assert forall i :: 0 <= i < |rest| ==> rest[i] == es[i];
      EntriesAgree(h, b, g, c, rest);
    }
  }

  /** A live id keeps its value in any well-formed heap that still has its slots. */
  lemma {:induction false} WithinVal(h: Heap, g: Heap, b: nat, c: nat, node: Node)
    requires HeapOk(h) && HeapOk(g) && Within(h.v, g.v) && Within(h.n, g.n)
    requires NodeOk(h, b, node) && NodeOk(g, c, node)
    ensures NodeVal(h, b, node) == NodeVal(g, c, node)
    decreases b
  {
    forall k | k in Kids(node) ensures Val(h, k) == Val(g, k) {
      WithinVal(h, g, k, k, h.n.slots[k]);
    }
    match node
    case ScalarNode(_) =>
    case MapNode(es) =>
      forall i | 0 <= i < |es| ensures Val(h, es[i].child) == Val(g, es[i].child) {
        assert Kids(node)[i] == es[i].child;
      }
      EntriesAgree(h, b, g, c, es);
    case SliceNode(items) =>
  }

  /** g is h after interning: both pools grew, and g is well formed. */
  ghost predicate Grown(h: Heap, g: Heap) {
    HeapOk(g) && Grew(h.v, g.v) && Grew(h.n, g.n)
  }

  lemma GrownKeeps(h: Heap, g: Heap)
    requires HeapOk(h) && Grown(h, g)
    ensures forall id :: id in h.n.live ==> id in g.n.live && Val(g, id) == Val(h, id)
    ensures forall i :: i in h.v.live ==> i in g.v.live && ScalarAt(g, i) == ScalarAt(h, i)
  {
    forall id | id in h.n.live ensures id in g.n.live && Val(g, id) == Val(h, id) {
      WithinVal(h, g, id, id, h.n.slots[id]);
    }
  }

  lemma AddScalar(h: Heap, s: Scalar)
    requires HeapOk(h) && s != Nil
    ensures Grown(h, h.(v := Insert(h.v, s)))
    ensures Scals(h.(v := Insert(h.v, s))) == Scals(h) + {s} && Vals(h.(v := Insert(h.v, s))) == Vals(h)
  {
    var g := h.(v := Insert(h.v, s));
    InsertOk(h.v, s, Nil);
    forall id | id in g.n.live ensures NodeOk(g, id, g.n.slots[id]) { assert NodeOk(h, id, h.n.slots[id]); }
    GrownKeeps(h, g);
    forall x ensures x in Scals(g) <==> x in Scals(h) + {s} {
      if x in Scals(h) { var i :| i in h.v.live && ScalarAt(h, i) == x; assert i in g.v.live && ScalarAt(g, i) == x; }
      if x == s { var i :| i in g.v.live && g.v.slots[i] == s; assert ScalarAt(g, i) == s; }
    }
  }

  lemma AddNode(h: Heap, node: Node)
    requires HeapOk(h) && NodeOk(h, |h.n.slots|, node)
    ensures Grown(h, h.(n := Insert(h.n, node)))
    ensures Scals(h.(n := Insert(h.n, node))) == Scals(h)
    ensures Vals(h.(n := Insert(h.n, node))) == Vals(h) + {NodeVal(h, |h.n.slots|, node)}
    ensures forall id :: id in Insert(h.n, node).live && Insert(h.n, node).slots[id] == node ==>
              Val(h.(n := Insert(h.n, node)), id) == NodeVal(h, |h.n.slots|, node)
  {
    var g := h.(n := Insert(h.n, node));
    var b := |h.n.slots|;
    InsertOk(h.n, node, ZERO_NODE);
    forall id | id in g.n.live ensures NodeOk(g, id, g.n.slots[id]) {
      if id in h.n.live { assert NodeOk(h, id, h.n.slots[id]); } else { assert NodeOk(h, b, node); }
    }
    GrownKeeps(h, g);
    assert NodeOk(g, b, node);
    forall id | id in g.n.live && g.n.slots[id] == node ensures Val(g, id) == NodeVal(h, b, node) {
      WithinVal(h, g, b, b, node);
      WithinVal(g, g, id, b, node);
    }
    forall x ensures x in Vals(g) <==> x in Vals(h) + {NodeVal(h, b, node)} {
      if x in Vals(h) { var id :| id in h.n.live && Val(h, id) == x; assert id in g.n.live && Val(g, id) == x; }
      if x == NodeVal(h, b, node) { var id :| id in g.n.live && g.n.slots[id] == node; assert Val(g, id) == x; }
    }
  }

  // ---------- children and subvalues ----------

  /** What a node contributes through its children, and by itself, to Sub and Scalars. */
  ghost predicate KidHolds(h: Heap, node: Node, u: Value) {
    exists c :: c in Kids(node) && u in Sub(Val(h, c))
  }

  ghost predicate KidUses(h: Heap, node: Node, s: Scalar) {
    exists c :: c in Kids(node) && s in Scalars(Val(h, c))
  }

  lemma KeyIndex(h: Heap, b: nat, es: seq<Entry>, k: string) returns (i: nat)
    requires Distinct(h, b, es) && k in EntriesVal(h, b, es)
    ensures i < |es| && KeyOf(h, es[i]) == k && EntriesVal(h, b, es)[k] == Val(h, es[i].child)
  {
    EntriesShape(h, b, es);
    i :| 0 <= i < |es| && KeyOf(h, es[i]) == k;
  }

  lemma EntryAt(h: Heap, b: nat, es: seq<Entry>, i: nat)
    requires Distinct(h, b, es) && i < |es|
    ensures KeyOf(h, es[i]) in EntriesVal(h, b, es) && EntriesVal(h, b, es)[KeyOf(h, es[i])] == Val(h, es[i].child)
  {
    EntriesShape(h, b, es);
  }

  lemma KidIndex(es: seq<Entry>, c: nat) returns (i: nat)
    requires c in Kids(MapNode(es))
    ensures i < |es| && es[i].child == c
  {
    i :| 0 <= i < |es| && Kids(MapNode(es))[i] == c;
  }

  lemma KidIn(es: seq<Entry>, i: nat)
    requires i < |es|
    ensures es[i].child in Kids(MapNode(es)) && es[i].key in Refs(MapNode(es))
  {
    assert Kids(MapNode(es))[i] == es[i].child;
  }

  lemma KidsSub(h: Heap, b: nat, node: Node, u: Value)
    requires HeapOk(h) && NodeOk(h, b, node)
    ensures u in Sub(NodeVal(h, b, node)) <==> u == NodeVal(h, b, node) || KidHolds(h, node, u)
  {
    Unfold(h, b, node);
    match node
    case ScalarNode(_) =>
    case SliceNode(items) => ItemsSub(h, items, NodeVal(h, b, node).items, u);
    case MapNode(es) => EntriesSub(h, b, es, u);
  }

  lemma ItemsSub(h: Heap, items: seq<nat>, s: seq<Value>, u: Value)
    requires |s| == |items| && forall i :: 0 <= i < |s| ==> s[i] == Val(h, items[i])
    ensures u in Sub(Slice(s)) <==> u == Slice(s) || KidHolds(h, SliceNode(items), u)
  {
    hide Val;
    if i :| 0 <= i < |s| && u in Sub(s[i]) { assert items[i] in Kids(SliceNode(items)); }
    if c :| c in Kids(SliceNode(items)) && u in Sub(Val(h, c)) {
      var i :| 0 <= i < |items| && items[i] == c;
      assert u in Sub(s[i]);
    }
  }

  lemma EntriesSub(h: Heap, b: nat, es: seq<Entry>, u: Value)
    requires Distinct(h, b, es)
    ensures u in Sub(Map(EntriesVal(h, b, es))) <==> u == Map(EntriesVal(h, b, es)) || KidHolds(h, MapNode(es), u)
  {
    hide Val, EntriesVal, Kids, Distinct;
    var m := EntriesVal(h, b, es);
    if k :| k in m && u in Sub(m[k]) {
      var i := KeyIndex(h, b, es, k);
      KidIn(es, i);
    }
    if c :| c in Kids(MapNode(es)) && u in Sub(Val(h, c)) {
      var i := KidIndex(es, c);
      EntryAt(h, b, es, i);
    }
  }

  lemma KidsScalars(h: Heap, b: nat, node: Node, s: Scalar)
    requires HeapOk(h) && NodeOk(h, b, node)
    ensures s in Scalars(NodeVal(h, b, node)) <==> UsesKey(h, node, s) || KidUses(h, node, s)
  {
    hide Val;
    Unfold(h, b, node);
    match node
    case ScalarNode(vid) => assert vid in Refs(node);
    case SliceNode(items) =>
      ItemsScalars(h, items, NodeVal(h, b, node).items, s);
    case MapNode(es) =>
      MapScalars(h, b, es, s);
  }

  lemma ItemsScalars(h: Heap, items: seq<nat>, t: seq<Value>, s: Scalar)
    requires |t| == |items| && forall i :: 0 <= i < |items| ==> t[i] == Val(h, items[i])
    ensures s in Scalars(Slice(t)) <==> KidUses(h, SliceNode(items), s)
  {
    hide Val;
    if i :| 0 <= i < |t| && s in Scalars(t[i]) { assert items[i] in Kids(SliceNode(items)); }
    if c :| c in Kids(SliceNode(items)) && s in Scalars(Val(h, c)) {
      var i :| 0 <= i < |items| && items[i] == c;
      assert s in Scalars(t[i]);
    }
  }

  ghost predicate UsesKey(h: Heap, node: Node, s: Scalar) {
    s != Nil && exists r :: r in Refs(node) && ScalarAt(h, r) == s
  }

  lemma MapScalars(h: Heap, b: nat, es: seq<Entry>, s: Scalar)
    requires HeapOk(h) && NodeOk(h, b, MapNode(es)) && Distinct(h, b, es)
    ensures s in Scalars(Map(EntriesVal(h, b, es))) <==> UsesKey(h, MapNode(es), s) || KidUses(h, MapNode(es), s)
  {
    if s in Scalars(Map(EntriesVal(h, b, es))) {
      MapScalarsFrom(h, b, es, s);
    }
    if r :| s != Nil && r in Refs(MapNode(es)) && ScalarAt(h, r) == s {
      var i :| 0 <= i < |es| && es[i].key == r;
      EntryAt(h, b, es, i);
    }
    if c :| c in Kids(MapNode(es)) && s in Scalars(Val(h, c)) {
      var i := KidIndex(es, c);
      EntryAt(h, b, es, i);
    }
  }

  lemma MapScalarsFrom(h: Heap, b: nat, es: seq<Entry>, s: Scalar)
    requires HeapOk(h) && NodeOk(h, b, MapNode(es)) && Distinct(h, b, es)
    requires s in Scalars(Map(EntriesVal(h, b, es)))
    ensures UsesKey(h, MapNode(es), s) || KidUses(h, MapNode(es), s)
  {
    var m := EntriesVal(h, b, es);
    if k :| k in m && s == Str(k) {
      var i := KeyIndex(h, b, es, k);
      KidIn(es, i);
      assert ScalarAt(h, es[i].key) == s;
    } else {
      var k :| k in m && s in Scalars(m[k]);
      var i := KeyIndex(h, b, es, k);
      KidIn(es, i);
    }
  }

  /** A map node's value is read off its entries, first to last. */
  lemma MapVal(h: Heap, id: nat, es: seq<Entry>)
    requires HeapOk(h) && id in h.n.live && NodeAt(h, id) == MapNode(es)
    ensures Val(h, id) == Map(EntriesVal(h, id, es)) && EntriesVal(h, id, []) == map[]
    ensures forall i :: 0 <= i < |es| ==> es[i].child in h.n.live && es[i].child < id
  {
    assert NodeOk(h, id, MapNode(es));
  }

  lemma SliceVal(h: Heap, id: nat, items: seq<nat>, sl: seq<Value>)
    requires HeapOk(h) && id in h.n.live && NodeAt(h, id) == SliceNode(items)
    requires |sl| == |items| && forall i :: 0 <= i < |sl| ==> sl[i] == Val(h, items[i])
    ensures Val(h, id) == Slice(sl)
  {
    Unfold(h, id, SliceNode(items));
    assert Val(h, id).items == sl;
  }

  lemma LiveNotZero(h: Heap)
    requires HeapOk(h)
    ensures 0 !in h.n.live
  {
  }

  lemma KidsBelow(h: Heap, id: nat)
    requires HeapOk(h) && id in h.n.live
    ensures forall i :: 0 <= i < |Kids(NodeAt(h, id))| ==>
              Kids(NodeAt(h, id))[i] in h.n.live && 0 < Kids(NodeAt(h, id))[i] < id
  {
    assert NodeOk(h, id, NodeAt(h, id));
  }

  /** Every subvalue of a live id is itself held by a live id, no larger. */
  lemma {:induction false} SubsPresent(h: Heap, id: nat, u: Value)
    requires HeapOk(h) && id in h.n.live && u in Sub(Val(h, id))
    ensures exists x :: x in h.n.live && x <= id && Val(h, x) == u
  {
    if u != Val(h, id) {
      KidsSub(h, id, h.n.slots[id], u);
      var c :| c in Kids(h.n.slots[id]) && u in Sub(Val(h, c));
      SubsPresent(h, c, u);
    }
  }

  ghost predicate IsPath(h: Heap, p: seq<nat>) {
    forall i :: 0 < i < |p| ==> p[i] in Kids(NodeAt(h, p[i - 1]))
  }

  /** x can be reached from r by following child edges. */
  ghost predicate Reaches(h: Heap, r: nat, x: nat) {
    exists p: seq<nat> :: |p| > 0 && p[0] == r && p[|p| - 1] == x && IsPath(h, p)
  }

  lemma {:induction false} PathInSub(h: Heap, p: seq<nat>)
    requires HeapOk(h) && |p| > 0 && IsPath(h, p) && p[0] in h.n.live
    ensures p[|p| - 1] in h.n.live && Val(h, p[|p| - 1]) in Sub(Val(h, p[0]))
    decreases |p|
  {
    InOwnSub(Val(h, p[0]));
    if |p| > 1 {
      var node := h.n.slots[p[0]];
      assert p[1] in Kids(node);
      var t := p[1..];
      assert forall i :: 0 < i < |t| ==> t[i] == p[i + 1] && t[i - 1] == p[i];
      PathInSub(h, t);
      KidsSub(h, p[0], node, Val(h, p[|p| - 1]));
    }
  }

  lemma PathPrepend(h: Heap, r: nat, c: nat, x: nat)
    requires c in Kids(NodeAt(h, r)) && Reaches(h, c, x)
    ensures Reaches(h, r, x)
  {
    var p: seq<nat> :| |p| > 0 && p[0] == c && p[|p| - 1] == x && IsPath(h, p);
    var q := [r] + p;
    assert forall i :: 0 < i < |q| ==> q[i] == p[i - 1];
    assert IsPath(h, q);
  }

  /** Following edges from r reaches exactly the ids whose value is a subvalue of r's. */
  lemma {:induction false} ReachesIsSub(h: Heap, r: nat, x: nat)
    requires HeapOk(h) && r in h.n.live && x in h.n.live
    ensures Reaches(h, r, x) <==> Val(h, x) in Sub(Val(h, r))
    decreases r
  {
    if Reaches(h, r, x) {
      var p: seq<nat> :| |p| > 0 && p[0] == r && p[|p| - 1] == x && IsPath(h, p);
      PathInSub(h, p);
    }
    if Val(h, x) in Sub(Val(h, r)) {
      if x == r {
        assert IsPath(h, [r]) && [r][0] == r;
      } else {
        Canonical(h, x, r);
        KidsSub(h, r, h.n.slots[r], Val(h, x));
        var c :| c in Kids(h.n.slots[r]) && Val(h, x) in Sub(Val(h, c));
        ReachesIsSub(h, c, x);
        PathPrepend(h, r, c, x);
      }
    }
  }

  /** Every scalar below a live id is held by a live value id. */
  lemma {:induction false} ScalarsPresent(h: Heap, id: nat, s: Scalar)
    requires HeapOk(h) && id in h.n.live && s in Scalars(Val(h, id))
    ensures exists i :: i in h.v.live && ScalarAt(h, i) == s
  {
    var node := NodeAt(h, id);
    assert NodeOk(h, id, node);
    KidsScalars(h, id, node, s);
    if UsesKey(h, node, s) {
      var r :| r in Refs(node) && ScalarAt(h, r) == s;
      assert r in h.v.live;
    } else {
      var c :| c in Kids(node) && s in Scalars(Val(h, c));
      KidsBelow(h, id);
      ScalarsPresent(h, c, s);
    }
  }
}
