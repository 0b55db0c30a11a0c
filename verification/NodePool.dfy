/** store/subtree.go: the pool of distinct nodes, found through hash buckets. */
module NodePools {
  import opened Pools
  import opened Values
  import opened Plain
  import opened Heaps

  type Buckets = map<uint64, seq<nat>>

  /** Go's read of a map entry that may be missing. */
  function Bucket(index: Buckets, h: uint64): seq<nat> {
    if h in index then index[h] else []
  }

  ghost predicate InBucket(index: Buckets, h: uint64, id: nat) {
    id in Bucket(index, h)
  }

  ghost predicate NoDup(s: seq<nat>) {
    forall i, j :: 0 <= i < j < |s| ==> s[i] != s[j]
  }

  /** Buckets list distinct in-range ids under the hash of their node; no two ids hold equal nodes;
      a slot outside every bucket is zero. The hash itself is arbitrary: everything may collide. */
  ghost predicate BucketsOk(hash: Node -> uint64, nodes: seq<Node>, index: Buckets) {
    && |nodes| > 0
    && (forall h, id: nat :: InBucket(index, h, id) ==> 0 < id < |nodes| && hash(nodes[id]) == h)
    && (forall h :: NoDup(Bucket(index, h)))
    && (forall h, x: nat, y: nat :: InBucket(index, h, x) && InBucket(index, h, y) && nodes[x] == nodes[y] ==> x == y)
    && (forall id: nat :: id < |nodes| && !InBucket(index, hash(nodes[id]), id) ==> nodes[id] == ZERO_NODE)
  }

  ghost function AsPool(hash: Node -> uint64, nodes: seq<Node>, index: Buckets): Pool<Node> {
    Pool(nodes, set id: nat | id < |nodes| && InBucket(index, hash(nodes[id]), id))
  }

  function Extend(index: Buckets, h: uint64, id: nat): Buckets {
    index[h := Bucket(index, h) + [id]]
  }

  lemma ExtendInBucket(index: Buckets, h: uint64, id: nat)
    ensures forall g, x: nat :: InBucket(Extend(index, h, id), g, x) <==> InBucket(index, g, x) || (g == h && x == id)
  {
  }

  lemma ExtendNoDup(index: Buckets, h: uint64, id: nat)
    requires (forall g :: NoDup(Bucket(index, g))) && !InBucket(index, h, id)
    ensures forall g :: NoDup(Bucket(Extend(index, h, id), g))
  {
    forall g ensures NoDup(Bucket(Extend(index, h, id), g)) {
      assert NoDup(Bucket(index, g));
      assert forall i :: 0 <= i < |Bucket(index, h)| ==> Bucket(index, h)[i] != id;
    }
  }

  /** Appending a node no live slot holds, and listing it in its bucket, inserts it. */
  lemma Append(hash: Node -> uint64, nodes: seq<Node>, index: Buckets, node: Node)
    requires BucketsOk(hash, nodes, index) && !Has(AsPool(hash, nodes, index), node)
    ensures BucketsOk(hash, nodes + [node], Extend(index, hash(node), |nodes|))
    ensures |nodes| in AsPool(hash, nodes + [node], Extend(index, hash(node), |nodes|)).live
    ensures AsPool(hash, nodes + [node], Extend(index, hash(node), |nodes|)) == Insert(AsPool(hash, nodes, index), node)
  {
    var h := hash(node);
    var p := AsPool(hash, nodes, index);
    var now, at := nodes + [node], Extend(index, h, |nodes|);
    assert !InBucket(index, h, |nodes|);
    ExtendNoDup(index, h, |nodes|);
    ExtendInBucket(index, h, |nodes|);
    assert forall x: nat :: InBucket(index, h, x) ==> x in p.live && !HeldAt(p, x, node);
    assert AsPool(hash, now, at).live == p.live + {|nodes|};
  }

  // ---------- what each locked section does to slots and buckets ----------

  /** The first candidate that holds the node. */
  function Scan(nodes: seq<Node>, candidates: seq<nat>, node: Node): Option<nat> {
    if candidates == [] then None
    else if candidates[0] < |nodes| && nodes[candidates[0]] == node then Some(candidates[0])
    else Scan(nodes, candidates[1..], node)
  }

  function FindNode(hash: Node -> uint64, nodes: seq<Node>, index: Buckets, node: Node): Option<nat> {
    Scan(nodes, Bucket(index, hash(node)), node)
  }

  datatype Written = Written(nodes: seq<Node>, index: Buckets, id: nat)

  /** A new slot for the node, whether or not another one holds it. */
  function Appended(hash: Node -> uint64, nodes: seq<Node>, index: Buckets, node: Node): Written {
    Written(nodes + [node], Extend(index, hash(node), |nodes|), |nodes|)
  }

  /** The write section: scan again, then append. */
  function WriteNode(hash: Node -> uint64, nodes: seq<Node>, index: Buckets, node: Node): Written {
    var found := FindNode(hash, nodes, index, node);
    if found.Some? then Written(nodes, index, found.value) else Appended(hash, nodes, index, node)
  }

  lemma {:induction false} ScanFinds(nodes: seq<Node>, candidates: seq<nat>, node: Node)
    ensures var found := Scan(nodes, candidates, node);
            && (found.Some? ==> found.value in candidates && found.value < |nodes| && nodes[found.value] == node)
            && (found.None? ==> forall c :: c in candidates && c < |nodes| ==> nodes[c] != node)
  {
    if candidates != [] {
      ScanFinds(nodes, candidates[1..], node);
      assert forall c :: c in candidates <==> c == candidates[0] || c in candidates[1..];
    }
  }

  ghost predicate HeldIn(hash: Node -> uint64, nodes: seq<Node>, index: Buckets, node: Node, id: nat) {
    InBucket(index, hash(node), id) && id < |nodes| && nodes[id] == node
  }

  /** The scan of one bucket finds the node if it is in the pool at all, under whatever id holds it. */
  lemma FindNodeIff(hash: Node -> uint64, nodes: seq<Node>, index: Buckets, node: Node)
    requires BucketsOk(hash, nodes, index)
    ensures forall id: nat :: FindNode(hash, nodes, index, node) == Some(id) <==> HeldIn(hash, nodes, index, node, id)
    ensures FindNode(hash, nodes, index, node).None? <==> !Has(AsPool(hash, nodes, index), node)
  {
    var p, found := AsPool(hash, nodes, index), FindNode(hash, nodes, index, node);
    ScanFinds(nodes, Bucket(index, hash(node)), node);
    assert forall id: nat :: HeldIn(hash, nodes, index, node, id) <==> HeldAt(p, id, node);
    if found.Some? { assert HeldIn(hash, nodes, index, node, found.value); }
  }

  /** Writing a node inserts it. */
  lemma WrittenIsInsert(hash: Node -> uint64, nodes: seq<Node>, index: Buckets, node: Node)
    requires BucketsOk(hash, nodes, index)
    ensures var w := WriteNode(hash, nodes, index, node);
            && BucketsOk(hash, w.nodes, w.index)
            && AsPool(hash, w.nodes, w.index) == Insert(AsPool(hash, nodes, index), node)
            && HeldIn(hash, w.nodes, w.index, node, w.id)
  {
    FindNodeIff(hash, nodes, index, node);
    if FindNode(hash, nodes, index, node).None? { Append(hash, nodes, index, node); }
  }

  /** The id is in no bucket. */
  ghost predicate Unlisted(index: Buckets, id: nat) {
    forall h :: !InBucket(index, h, id)
  }

  /** Writing a node leaves every other node where it is held, and what is in no bucket stays out of them. */
  lemma WriteKeepsOthers(hash: Node -> uint64, nodes: seq<Node>, index: Buckets, node: Node)
    ensures var w := WriteNode(hash, nodes, index, node);
            && |nodes| <= |w.nodes|
            && (forall y, id: nat :: HeldIn(hash, nodes, index, y, id) ==> HeldIn(hash, w.nodes, w.index, y, id))
            && forall id: nat :: id < |nodes| && Unlisted(index, id) ==> Unlisted(w.index, id)
  {
    hide FindNode, Bucket;
    ExtendInBucket(index, hash(node), |nodes|);
  }

  /** Appending is right exactly when the node is not there yet. */
  lemma AppendedIff(hash: Node -> uint64, nodes: seq<Node>, index: Buckets, node: Node)
    requires BucketsOk(hash, nodes, index)
    ensures var w := Appended(hash, nodes, index, node);
            BucketsOk(hash, w.nodes, w.index) <==> FindNode(hash, nodes, index, node).None?
  {
    var w := Appended(hash, nodes, index, node);
    FindNodeIff(hash, nodes, index, node);
    ExtendInBucket(index, hash(node), |nodes|);
    if id: nat :| HeldIn(hash, nodes, index, node, id) {
      assert InBucket(w.index, hash(node), id) && InBucket(w.index, hash(node), |nodes|);
    } else {
      Append(hash, nodes, index, node);
    }
  }

  /** The ids of a bucket that survive: the sentinel and the live ones, in order. */
  function Keep(s: seq<nat>, live: set<nat>): seq<nat> {
    if s == [] then []
    else
      var id := s[|s| - 1];
      Keep(s[..|s| - 1], live) + if id == 0 || id in live then [id] else []
  }

  lemma {:induction false} KeepIn(s: seq<nat>, live: set<nat>, id: nat)
    ensures id in Keep(s, live) <==> id in s && (id == 0 || id in live)
  {
    if s != [] {
      KeepIn(s[..|s| - 1], live, id);
      assert s == s[..|s| - 1] + [s[|s| - 1]];
    }
  }

  lemma {:induction false} KeepNoDup(s: seq<nat>, live: set<nat>)
    requires NoDup(s)
    ensures NoDup(Keep(s, live))
  {
    if s != [] {
      KeepNoDup(s[..|s| - 1], live);
      KeepIn(s[..|s| - 1], live, s[|s| - 1]);
    }
  }

  ghost function Dropped(s: seq<nat>, live: set<nat>): set<nat> {
    set id | id in s && id != 0 && id !in live
  }

  lemma KeepStep(s: seq<nat>, live: set<nat>, i: nat)
    requires i < |s|
    ensures Keep(s[..i + 1], live) == Keep(s[..i], live) + if s[i] == 0 || s[i] in live then [s[i]] else []
  {
    assert s[..i + 1][..i] == s[..i];
  }

  lemma ZeroedOne(was: seq<Node>, nodes: seq<Node>, gone: set<nat>, id: nat)
    requires Zeroed(was, nodes, gone) && id < |was|
    ensures Zeroed(was, nodes[id := ZERO_NODE], gone + {id})
  {
  }

  lemma NothingSwept(s: seq<nat>, live: set<nat>, nodes: seq<Node>)
    ensures Keep(s[..0], live) == [] && Dropped(s[..0], live) == {} && Zeroed(nodes, nodes, {})
  {
  }

  lemma DroppedStep(s: seq<nat>, live: set<nat>, i: nat)
    requires NoDup(s) && i < |s|
    ensures s[i] !in Dropped(s[..i], live)
    ensures Dropped(s[..i + 1], live) == Dropped(s[..i], live) + if s[i] == 0 || s[i] in live then {} else {s[i]}
  {
    assert s[..i + 1] == s[..i] + [s[i]];
  }

  ghost predicate Zeroed(was: seq<Node>, nodes: seq<Node>, gone: set<nat>) {
    |nodes| == |was| && forall i :: 0 <= i < |was| ==> nodes[i] == if i in gone then ZERO_NODE else was[i]
  }

  /** `gone` lists the unreachable ids of the buckets in `done`. */
  ghost predicate GoneOk(hash: Node -> uint64, was: seq<Node>, index: Buckets, live: set<nat>, done: set<uint64>,
      gone: set<nat>) {
    forall id: nat :: id in gone <==>
      id < |was| && id !in live && hash(was[id]) in done && InBucket(index, hash(was[id]), id)
  }

  /** `kept` lists the other ids of those buckets. */
  ghost predicate KeptOk(index: Buckets, live: set<nat>, done: set<uint64>, kept: Buckets) {
    && (forall h :: Bucket(kept, h) == if h in done then Keep(Bucket(index, h), live) else [])
    && forall h :: h in kept ==> kept[h] != []
  }

  /** The rebuilt index: empty buckets are left out. */
  ghost function KeptBuckets(index: Buckets, live: set<nat>): Buckets {
    map h | h in index && Keep(index[h], live) != [] :: Keep(index[h], live)
  }

  ghost function KeptNodes(hash: Node -> uint64, nodes: seq<Node>, index: Buckets, live: set<nat>): seq<Node> {
    Sweep(AsPool(hash, nodes, index), live, ZERO_NODE).slots
  }

  lemma AllDone(index: Buckets, live: set<nat>, kept: Buckets)
    requires KeptOk(index, live, index.Keys, kept)
    ensures kept == KeptBuckets(index, live)
  {
    forall h ensures h in kept <==> h in index && Keep(index[h], live) != [] {
      assert Bucket(kept, h) == if h in index then Keep(Bucket(index, h), live) else [];
    }
    forall h | h in kept ensures kept[h] == Keep(index[h], live) {
      assert Bucket(kept, h) == Keep(Bucket(index, h), live);
    }
  }

  function SetBucket(kept: Buckets, h: uint64, ids: seq<nat>): Buckets {
    if |ids| > 0 then kept[h := ids] else kept
  }

  lemma KeptStep(index: Buckets, live: set<nat>, done: set<uint64>, kept: Buckets, h: uint64)
    requires KeptOk(index, live, done, kept) && h in index && h !in done
    ensures KeptOk(index, live, done + {h}, SetBucket(kept, h, Keep(index[h], live)))
  {
    forall g: uint64
      ensures Bucket(SetBucket(kept, h, Keep(index[h], live)), g) ==
              if g in done + {h} then Keep(Bucket(index, g), live) else []
    {
      assert Bucket(kept, g) == if g in done then Keep(Bucket(index, g), live) else [];
    }
  }

  /** No id is dropped twice. */
  lemma GoneStep(hash: Node -> uint64, was: seq<Node>, index: Buckets, live: set<nat>, done: set<uint64>,
      gone: set<nat>, h: uint64)
    requires BucketsOk(hash, was, index) && GoneOk(hash, was, index, live, done, gone)
    requires h in index && h !in done
    ensures |gone + Dropped(index[h], live)| == |gone| + |Dropped(index[h], live)|
    ensures GoneOk(hash, was, index, live, done + {h}, gone + Dropped(index[h], live))
  {
    var drop := Dropped(index[h], live);
    forall id: nat ensures id in drop <==> InBucket(index, h, id) && id !in live {
      assert InBucket(index, h, id) <==> id in index[h];
    }
    forall id: nat
      ensures id in gone + drop <==>
              id < |was| && id !in live && hash(was[id]) in done + {h} && InBucket(index, hash(was[id]), id)
    {
      assert InBucket(index, h, id) ==> id < |was| && hash(was[id]) == h;
    }
    assert gone !! drop;
    DisjointSize(gone, drop);
  }

  lemma DisjointSize(a: set<nat>, b: set<nat>)
    requires a !! b
    ensures |a + b| == |a| + |b|
  {
  }

  ghost predicate AllKept(index: Buckets, live: set<nat>, kept: Buckets) {
    forall h :: Bucket(kept, h) == Keep(Bucket(index, h), live)
  }

  lemma KeptInBucket(index: Buckets, live: set<nat>, kept: Buckets)
    requires AllKept(index, live, kept)
    ensures forall h, id: nat :: InBucket(kept, h, id) <==> InBucket(index, h, id) && (id == 0 || id in live)
  {
    forall h, id: nat ensures InBucket(kept, h, id) <==> InBucket(index, h, id) && (id == 0 || id in live) {
      KeepIn(Bucket(index, h), live, id);
    }
  }

  lemma KeptNoDup(index: Buckets, live: set<nat>, kept: Buckets)
    requires AllKept(index, live, kept)
    requires forall h :: NoDup(Bucket(index, h))
    ensures forall h :: NoDup(Bucket(kept, h))
  {
    forall h ensures NoDup(Bucket(kept, h)) {
      KeepNoDup(Bucket(index, h), live);
    }
  }

  lemma Progress(all: set<uint64>, todo: set<uint64>, done: set<uint64>, h: uint64)
    requires todo <= all && done == all - todo && h in todo
    ensures todo - {h} <= all && done + {h} == all - (todo - {h})
  {
  }

  lemma NothingGone(hash: Node -> uint64, was: seq<Node>, index: Buckets, live: set<nat>)
    ensures GoneOk(hash, was, index, live, {}, {}) && KeptOk(index, live, {}, map[]) && Zeroed(was, was, {})
  {
  }

  lemma BucketInRange(hash: Node -> uint64, was: seq<Node>, index: Buckets, h: uint64, nodes: seq<Node>, gone: set<nat>)
    requires BucketsOk(hash, was, index) && h in index && Zeroed(was, nodes, gone)
    ensures NoDup(index[h]) && forall id :: id in index[h] ==> 0 < id < |nodes|
  {
    assert NoDup(Bucket(index, h));
    assert forall id :: id in index[h] ==> InBucket(index, h, id);
  }

  lemma ZeroedTwice(was: seq<Node>, mid: seq<Node>, nodes: seq<Node>, a: set<nat>, b: set<nat>)
    requires Zeroed(was, mid, a) && Zeroed(mid, nodes, b)
    ensures Zeroed(was, nodes, a + b)
  {
  }

  /** When every bucket is done, the pool is swept. */
  lemma Swept(hash: Node -> uint64, was: seq<Node>, index: Buckets, live: set<nat>, nodes: seq<Node>,
      kept: Buckets, gone: set<nat>)
    requires BucketsOk(hash, was, index) && Zeroed(was, nodes, gone)
    requires GoneOk(hash, was, index, live, index.Keys, gone) && KeptOk(index, live, index.Keys, kept)
    ensures BucketsOk(hash, nodes, kept)
    ensures AsPool(hash, nodes, kept) == Sweep(AsPool(hash, was, index), live, ZERO_NODE)
    ensures nodes == KeptNodes(hash, was, index, live)
    ensures gone == AsPool(hash, was, index).live - live
  {
    KeptInBucket(index, live, kept);
    KeptNoDup(index, live, kept);
    GoneAll(hash, was, index, live, gone);
    SweptBuckets(hash, was, index, live, nodes, kept, gone);
    var p, q := AsPool(hash, was, index), AsPool(hash, nodes, kept);
    forall id: nat ensures id in q.live <==> id in p.live * live {
      if id < |was| && id !in gone {
        assert nodes[id] == was[id];
      }
    }
    assert q.live == p.live * live;
    assert nodes == Sweep(p, live, ZERO_NODE).slots;
  }

  lemma GoneAll(hash: Node -> uint64, was: seq<Node>, index: Buckets, live: set<nat>, gone: set<nat>)
    requires BucketsOk(hash, was, index) && GoneOk(hash, was, index, live, index.Keys, gone)
    ensures gone == AsPool(hash, was, index).live - live
  {
    assert forall h, id: nat :: InBucket(index, h, id) ==> h in index;
  }

  lemma SweptBuckets(hash: Node -> uint64, was: seq<Node>, index: Buckets, live: set<nat>, nodes: seq<Node>,
      kept: Buckets, gone: set<nat>)
    requires BucketsOk(hash, was, index) && Zeroed(was, nodes, gone)
    requires gone == AsPool(hash, was, index).live - live
    requires forall h, id: nat :: InBucket(kept, h, id) <==> InBucket(index, h, id) && (id == 0 || id in live)
    requires forall h :: NoDup(Bucket(kept, h))
    ensures BucketsOk(hash, nodes, kept)
    ensures forall id: nat :: id in gone ==> !InBucket(kept, hash(nodes[id]), id)
  {
    forall h, id: nat | InBucket(kept, h, id) ensures 0 < id < |nodes| && nodes[id] == was[id] && hash(nodes[id]) == h {
      assert InBucket(index, h, id);
    }
    forall id: nat | id < |nodes| && !InBucket(kept, hash(nodes[id]), id) ensures nodes[id] == ZERO_NODE {
      if id !in gone { assert nodes[id] == was[id]; }
    }
  }

  class SubtreeInternPool {
    const hash: Node -> uint64
    var nodes: seq<Node>
    var index: Buckets

    ghost predicate Valid()
      reads this
    {
      BucketsOk(hash, nodes, index)
    }

    ghost function P(): Pool<Node>
      reads this
    {
      AsPool(hash, nodes, index)
    }

    constructor (hash: Node -> uint64)
      ensures Valid() && this.hash == hash && P() == Pool([ZERO_NODE], {}) && nodes == [ZERO_NODE] && index == map[]
    {
      this.hash := hash;
      nodes := [ZERO_NODE];
      index := map[];
    }

    lemma PoolOk()
      requires Valid()
      ensures Ok(P(), ZERO_NODE)
    {
    }

    /** Compares two nodes field by field, as the pool does. */
    method Equal(a: Node, b: Node) returns (same: bool)
      ensures same <==> a == b
    {
      match (a, b)
      case (ScalarNode(x), ScalarNode(y)) =>
        same := x == y;
      case (MapNode(x), MapNode(y)) =>
        same := |x| == |y|;
        var i := 0;
        while same && i < |x|
          invariant same ==> i <= |x| == |y|
          invariant same ==> x[..i] == y[..i]
          invariant !same ==> x != y
        {
          if x[i].key != y[i].key || x[i].child != y[i].child {
            same := false;
          }
          i := i + 1;
        }
        assert same ==> x[..|x|] == y[..|y|];
      case (SliceNode(x), SliceNode(y)) =>
        same := |x| == |y|;
        var i := 0;
        while same && i < |x|
          invariant same ==> i <= |x| == |y|
          invariant same ==> x[..i] == y[..i]
          invariant !same ==> x != y
        {
          if x[i] != y[i] {
            same := false;
          }
          i := i + 1;
        }
        assert same ==> x[..|x|] == y[..|y|];
      case _ =>
        same := false;
    }

    /** Scans the bucket of the node's hash for an equal node: all of the section under the read lock, and the start
        of the one under the write lock. */
    method Find(node: Node) returns (found: Option<nat>)
      requires Valid()
      ensures found == FindNode(hash, nodes, index, node)
      ensures found.Some? ==> HeldAt(P(), found.value, node)
      ensures found.None? ==> !Has(P(), node)
    {
      FindNodeIff(hash, nodes, index, node);
      found := None;
      var h := hash(node);
      if h in index {
        var candidates := index[h];
        var i := 0;
        while i < |candidates| && found.None?
          invariant 0 <= i <= |candidates|
          invariant Scan(nodes, candidates, node) == if found.Some? then found else Scan(nodes, candidates[i..], node)
        {
          var id := candidates[i];
          assert InBucket(index, h, id) && candidates[i..][1..] == candidates[i + 1..];
          var same := Equal(nodes[id], node);
          if same {
            found := Some(id);
          }
          i := i + 1;
        }
        assert i == |candidates| ==> candidates[i..] == [];
      }
    }

    method Intern(node: Node) returns (id: nat)
      requires Valid()
      modifies this
      ensures Valid()
      ensures P() == Insert(old(P()), node)
      ensures id in P().live && P().slots[id] == node
    {
      var found := Find(node);
      if found.Some? {
        return found.value;
      }
      WrittenIsInsert(hash, nodes, index, node);
      id := InternLocked(node);
    }

    /** The section under the write lock: other calls may have come in between, so scan again. */
    method InternLocked(node: Node) returns (id: nat)
      requires Valid()
      modifies this
      ensures Written(nodes, index, id) == WriteNode(hash, old(nodes), old(index), node)
    {
      var found := Find(node);
      if found.Some? {
        return found.value;
      }
      id := |nodes|;
      var h := hash(node);
      nodes := nodes + [node];
      index := Extend(index, h, id);
    }

    method Resolve(id: nat) returns (node: Node)
      ensures node == if id < |nodes| then nodes[id] else ZERO_NODE
    {
      if id >= |nodes| {
        return ZERO_NODE;
      }
      return nodes[id];
    }

    /** Handles one bucket: zeroes its unreachable slots and returns the ids to keep. */
    method SweepBucket(candidates: seq<nat>, live: set<nat>) returns (kept: seq<nat>, removed: nat)
      requires NoDup(candidates) && forall id :: id in candidates ==> id < |nodes|
      modifies this`nodes
      ensures kept == Keep(candidates, live)
      ensures removed == |Dropped(candidates, live)|
      ensures Zeroed(old(nodes), nodes, Dropped(candidates, live))
    {
      hide Keep, Dropped, Zeroed, NoDup;
      kept, removed := [], 0;
      ghost var gone: set<nat> := {};
      var i := 0;
      NothingSwept(candidates, live, nodes);
      while i < |candidates|
        invariant 0 <= i <= |candidates| && |nodes| == |old(nodes)|
        invariant kept == Keep(candidates[..i], live)
        invariant gone == Dropped(candidates[..i], live) && removed == |gone|
        invariant Zeroed(old(nodes), nodes, gone)
      {
        var id := candidates[i];
        assert id in candidates;
        DroppedStep(candidates, live, i);
        KeepStep(candidates, live, i);
        if id == 0 || id in live {
          kept := kept + [id];
        } else {
          ZeroedOne(old(nodes), nodes, gone, id);
          nodes := nodes[id := ZERO_NODE];
          removed := removed + 1;
          gone := gone + {id};
        }
        i := i + 1;
      }
      assert candidates[..|candidates|] == candidates;
    }

    /** Drops every node outside `live`; buckets are visited in any order. */
    method DeleteUnreachable(live: set<nat>) returns (removed: nat)
      requires Valid()
      modifies this
      ensures Valid()
      ensures P() == Sweep(old(P()), live, ZERO_NODE)
      ensures removed == |old(P()).live - live|
      ensures nodes == KeptNodes(hash, old(nodes), old(index), live) && index == KeptBuckets(old(index), live)
    {
      hide BucketsOk, GoneOk, KeptOk, KeptNodes, KeptBuckets, Zeroed, Dropped, Keep, SetBucket, NoDup, AsPool, Sweep;
      NothingGone(hash, nodes, index, live);
      removed := 0;
      var newIndex: Buckets := map[];
      var todo := index.Keys;
      ghost var was, had, done, gone: set<nat> := nodes, index, {}, {};
      while todo != {}
        invariant index == had && done == had.Keys - todo && todo <= had.Keys
        invariant removed == |gone| && Zeroed(was, nodes, gone)
        invariant GoneOk(hash, was, had, live, done, gone) && KeptOk(had, live, done, newIndex)
      {
        var h :| h in todo;
        var candidates := index[h];
        KeptStep(had, live, done, newIndex, h);
        GoneStep(hash, was, had, live, done, gone, h);
        BucketInRange(hash, was, had, h, nodes, gone);
        ghost var mid := nodes;
        var kept, dropped := SweepBucket(candidates, live);
        removed := removed + dropped;
        ZeroedTwice(was, mid, nodes, gone, Dropped(candidates, live));
        gone := gone + Dropped(candidates, live);
        newIndex := SetBucket(newIndex, h, kept);
        Progress(had.Keys, todo, done, h);
        todo, done := todo - {h}, done + {h};
      }
      assert done == had.Keys;
      Swept(hash, was, had, live, nodes, newIndex, gone);
      AllDone(had, live, newIndex);
      index := newIndex;
    }
  }
}
