/** Double-checked interning with its two locked sections apart: a call that missed under the read lock looks again
    under the write lock, and other calls, or a deletion, may come in between. The state is that of the two pools:
    slots, the index of the scalars and the hash buckets of the nodes. */
module Interning {
  import opened Plain
  import opened Values
  import opened Heaps
  import opened NodePools
  import V = ValuePools

  /** What is interned; a nil scalar never gets as far as a lock. */
  datatype Item = OfScalar(s: Scalar) | OfNode(node: Node)

  /** Missed is a call between its read section, which did not find the item, and its write section. */
  datatype Thread = Idle | Missed(item: Item)

  datatype Event =
    | Returned(thread: nat, item: Item, id: nat)
    | ScalarsDeleted(live: set<nat>)
    | NodesDeleted(live: set<nat>)

  datatype State = State(values: seq<Scalar>, index: map<Scalar, nat>, nodes: seq<Node>, buckets: Buckets,
                         threads: map<nat, Thread>, log: seq<Event>)

  datatype Step =
    | ReadSection(thread: nat, item: Item)
    | WriteSection(thread: nat)
    | DeleteScalars(live: set<nat>)
    | DeleteNodes(live: set<nat>)

  const START := State([Nil], map[], [ZERO_NODE], map[], map[], [])

  function Of(s: State, t: nat): Thread {
    if t in s.threads then s.threads[t] else Idle
  }

  function Look(hash: Node -> uint64, s: State, item: Item): Option<nat> {
    match item
    case OfScalar(x) => V.FindValue(s.index, x)
    case OfNode(node) => FindNode(hash, s.nodes, s.buckets, node)
  }

  ghost predicate Enabled(s: State, step: Step) {
    match step
    case ReadSection(t, item) => Of(s, t).Idle? && item != OfScalar(Nil)
    case WriteSection(t) => Of(s, t).Missed?
    case _ => true
  }

  ghost function Do(hash: Node -> uint64, s: State, step: Step): State
    requires Enabled(s, step)
  {
    match step
    case ReadSection(t, item) =>
      var found := Look(hash, s, item);
      if found.Some? then s.(log := s.log + [Returned(t, item, found.value)])
      else s.(threads := s.threads[t := Missed(item)])
    case WriteSection(t) => Write(hash, s, t, Of(s, t).item)
    case DeleteScalars(live) =>
      s.(values := V.KeptValues(s.values, live), index := V.KeptIndex(s.index, live),
         log := s.log + [ScalarsDeleted(live)])
    case DeleteNodes(live) =>
      s.(nodes := KeptNodes(hash, s.nodes, s.buckets, live), buckets := KeptBuckets(s.buckets, live),
         log := s.log + [NodesDeleted(live)])
  }

  ghost function Write(hash: Node -> uint64, s: State, t: nat, item: Item): State {
    var r := s.(threads := s.threads[t := Idle]);
    match item
    case OfScalar(x) =>
      var w := V.WriteValue(s.values, s.index, x);
      r.(values := w.values, index := w.index, log := s.log + [Returned(t, item, w.id)])
    case OfNode(node) =>
      var w := WriteNode(hash, s.nodes, s.buckets, node);
      r.(nodes := w.nodes, buckets := w.index, log := s.log + [Returned(t, item, w.id)])
  }

  /** The state after the steps, if each of them was enabled in turn. */
  ghost function After(hash: Node -> uint64, steps: seq<Step>): Option<State> {
    if steps == [] then Some(START)
    else
      var r := After(hash, steps[..|steps| - 1]);
      if r.Some? && Enabled(r.value, steps[|steps| - 1]) then Some(Do(hash, r.value, steps[|steps| - 1])) else None
  }

  ghost predicate Runs(hash: Node -> uint64, steps: seq<Step>, s: State) {
    After(hash, steps) == Some(s)
  }

  // ---------- what every interleaving keeps ----------

  /** Slots and index are mutually inverse, and so are slots and buckets. */
  ghost predicate PoolsOk(hash: Node -> uint64, s: State) {
    V.Inverse(s.values, s.index) && BucketsOk(hash, s.nodes, s.buckets)
  }

  ghost predicate Holds(hash: Node -> uint64, s: State, item: Item, id: nat) {
    match item
    case OfScalar(x) => x in s.index && s.index[x] == id
    case OfNode(node) => HeldIn(hash, s.nodes, s.buckets, node, id)
  }

  /** The id was given out and holds nothing any more. */
  ghost predicate GivenUp(s: State, item: Item, id: nat) {
    match item
    case OfScalar(_) => id < |s.values| && s.values[id] == Nil
    case OfNode(_) => id < |s.nodes| && Unlisted(s.buckets, id)
  }

  ghost predicate Drops(e: Event, item: Item, id: nat) {
    match e
    case Returned(_, _, _) => false
    case ScalarsDeleted(live) => item.OfScalar? && id !in live
    case NodesDeleted(live) => item.OfNode? && id !in live
  }

  /** No deletion since log[i] dropped the id it returned. */
  ghost predicate Survives(log: seq<Event>, i: nat)
    requires i < |log| && log[i].Returned?
  {
    forall j :: i < j < |log| ==> !Drops(log[j], log[i].item, log[i].id)
  }

  /** What a call returned is still held there, unless a deletion dropped it; then its id holds nothing. */
  ghost predicate LogOk(hash: Node -> uint64, s: State, i: nat)
    requires i < |s.log| && s.log[i].Returned?
  {
    var e := s.log[i];
    && e.item != OfScalar(Nil)
    && if Survives(s.log, i) then Holds(hash, s, e.item, e.id) else GivenUp(s, e.item, e.id)
  }

  ghost predicate Invariant(hash: Node -> uint64, s: State) {
    && PoolsOk(hash, s)
    && (forall t :: t in s.threads ==> s.threads[t] != Missed(OfScalar(Nil)))
    && forall i :: 0 <= i < |s.log| && s.log[i].Returned? ==> LogOk(hash, s, i)
  }

  /** From s to r everything held stays held, but for what the event e drops, and what was given up stays so. */
  ghost predicate Carries(hash: Node -> uint64, s: State, r: State, e: Event) {
    && (forall item, id: nat :: Holds(hash, s, item, id) ==>
          if Drops(e, item, id) then GivenUp(r, item, id) else Holds(hash, r, item, id))
    && forall item, id: nat :: GivenUp(s, item, id) ==> GivenUp(r, item, id)
  }

  lemma LookIff(hash: Node -> uint64, s: State, item: Item)
    requires PoolsOk(hash, s)
    ensures forall id: nat :: Look(hash, s, item) == Some(id) <==> Holds(hash, s, item, id)
  {
    if item.OfNode? { FindNodeIff(hash, s.nodes, s.buckets, item.node); }
  }

  lemma NoEffect(hash: Node -> uint64, s: State, r: State, e: Event)
    requires e.Returned? && (r.values, r.index, r.nodes, r.buckets) == (s.values, s.index, s.nodes, s.buckets)
    ensures Carries(hash, s, r, e) && (PoolsOk(hash, s) ==> PoolsOk(hash, r))
  {
    assert forall item, id: nat :: Holds(hash, s, item, id) ==> Holds(hash, r, item, id);
    assert forall item, id: nat :: GivenUp(s, item, id) ==> GivenUp(r, item, id);
  }

  /** What a write section brings about: its item is held where it returned. */
  ghost predicate Writes(hash: Node -> uint64, s: State, r: State, item: Item) {
    && PoolsOk(hash, r) && |r.log| == |s.log| + 1
    && var e := r.log[|s.log|];
       && e.Returned? && e.item == item && Holds(hash, r, item, e.id)
       && r.log == s.log + [e] && Carries(hash, s, r, e)
  }

  lemma ScalarCarries(hash: Node -> uint64, s: State, t: nat, x: Scalar)
    requires PoolsOk(hash, s) && x != Nil
    ensures Writes(hash, s, Write(hash, s, t, OfScalar(x)), OfScalar(x))
  {
    hide BucketsOk, HeldIn, InBucket, Unlisted;
    var r := Write(hash, s, t, OfScalar(x));
    V.WrittenIsInsert(s.values, s.index, x);
    assert forall y, id: nat :: Holds(hash, s, OfNode(y), id) ==> Holds(hash, r, OfNode(y), id);
    assert forall y, id: nat :: GivenUp(s, OfNode(y), id) ==> GivenUp(r, OfNode(y), id);
  }

  lemma NodeCarries(hash: Node -> uint64, s: State, t: nat, node: Node)
    requires PoolsOk(hash, s)
    ensures Writes(hash, s, Write(hash, s, t, OfNode(node)), OfNode(node))
  {
    hide V.Inverse, BucketsOk, InBucket, HeldIn, Unlisted, WriteNode;
    var r := Write(hash, s, t, OfNode(node));
    WrittenIsInsert(hash, s.nodes, s.buckets, node);
    WriteKeepsOthers(hash, s.nodes, s.buckets, node);
    assert forall y, id: nat :: Holds(hash, s, OfScalar(y), id) ==> Holds(hash, r, OfScalar(y), id);
  }

  lemma ScalarsGone(hash: Node -> uint64, s: State, live: set<nat>)
    requires PoolsOk(hash, s)
    ensures var r := Do(hash, s, DeleteScalars(live));
            PoolsOk(hash, r) && Carries(hash, s, r, ScalarsDeleted(live))
  {
    var r := Do(hash, s, DeleteScalars(live));
    assert forall y, id: nat :: Holds(hash, s, OfNode(y), id) ==> Holds(hash, r, OfNode(y), id);
  }

  lemma KeptIn(index: Buckets, live: set<nat>)
    ensures forall h, id: nat :: InBucket(KeptBuckets(index, live), h, id) <==>
              InBucket(index, h, id) && (id == 0 || id in live)
    ensures (forall h :: NoDup(Bucket(index, h))) ==> forall h :: NoDup(Bucket(KeptBuckets(index, live), h))
  {
    var kept := KeptBuckets(index, live);
    forall h ensures Bucket(kept, h) == Keep(Bucket(index, h), live) {}
    KeptInBucket(index, live, kept);
    if forall h :: NoDup(Bucket(index, h)) { KeptNoDup(index, live, kept); }
  }

  lemma NodesGone(hash: Node -> uint64, s: State, live: set<nat>)
    requires PoolsOk(hash, s)
    ensures var r := Do(hash, s, DeleteNodes(live));
            PoolsOk(hash, r) && Carries(hash, s, r, NodesDeleted(live))
  {
    var r := Do(hash, s, DeleteNodes(live));
    var p := AsPool(hash, s.nodes, s.buckets);
    KeptIn(s.buckets, live);
    SweptBuckets(hash, s.nodes, s.buckets, live, r.nodes, r.buckets, p.live - live);
    forall node, id: nat | Holds(hash, s, OfNode(node), id)
      ensures if id in live then Holds(hash, r, OfNode(node), id) else GivenUp(r, OfNode(node), id)
    {
      assert InBucket(s.buckets, hash(node), id);
    }
  }

  lemma Onward(hash: Node -> uint64, s: State, r: State, e: Event, i: nat)
    requires i < |s.log| && s.log[i].Returned? && LogOk(hash, s, i)
    requires r.log == s.log + [e] && Carries(hash, s, r, e)
    ensures LogOk(hash, r, i)
  {
    var l := s.log[i];
    assert r.log[i] == l && r.log[|s.log|] == e;
    assert Survives(r.log, i) <==> Survives(s.log, i) && !Drops(e, l.item, l.id) by {
      assert forall j :: 0 <= j < |s.log| ==> r.log[j] == s.log[j];
    }
  }

  lemma Logged(hash: Node -> uint64, s: State, r: State, e: Event)
    requires Invariant(hash, s) && r.log == s.log + [e] && Carries(hash, s, r, e)
    requires e.Returned? ==> e.item != OfScalar(Nil) && Holds(hash, r, e.item, e.id)
    ensures forall i :: 0 <= i < |r.log| && r.log[i].Returned? ==> LogOk(hash, r, i)
  {
    forall i | 0 <= i < |r.log| && r.log[i].Returned? ensures LogOk(hash, r, i) {
      if i < |s.log| { Onward(hash, s, r, e, i); }
    }
  }

  lemma StepKeeps(hash: Node -> uint64, s: State, step: Step)
    requires Invariant(hash, s) && Enabled(s, step)
    ensures Invariant(hash, Do(hash, s, step))
  {
    hide PoolsOk, Carries, LogOk, Holds;
    var r := Do(hash, s, step);
    match step
    case ReadSection(t, item) =>
      LookIff(hash, s, item);
      var e := Returned(t, item, 0);
      if Look(hash, s, item).Some? { e := r.log[|s.log|]; }
      NoEffect(hash, s, r, e);
      if Look(hash, s, item).Some? {
        HoldsStays(hash, s, r, e);
        Logged(hash, s, r, e);
      } else {
        SameLog(hash, s, r);
      }
    case WriteSection(t) =>
      match Of(s, t).item {
        case OfScalar(x) => ScalarCarries(hash, s, t, x);
        case OfNode(node) => NodeCarries(hash, s, t, node);
      }
      Logged(hash, s, r, r.log[|s.log|]);
    case DeleteScalars(live) =>
      ScalarsGone(hash, s, live);
      Logged(hash, s, r, ScalarsDeleted(live));
    case DeleteNodes(live) =>
      NodesGone(hash, s, live);
      Logged(hash, s, r, NodesDeleted(live));
  }

  lemma HoldsStays(hash: Node -> uint64, s: State, r: State, e: Event)
    requires e.Returned? && Carries(hash, s, r, e) && Holds(hash, s, e.item, e.id)
    ensures Holds(hash, r, e.item, e.id)
  {
  }

  lemma SameLog(hash: Node -> uint64, s: State, r: State)
    requires Invariant(hash, s) && r == s.(threads := r.threads)
    ensures forall i :: 0 <= i < |r.log| && r.log[i].Returned? ==> LogOk(hash, r, i)
  {
    forall i | 0 <= i < |r.log| && r.log[i].Returned? ensures LogOk(hash, r, i) {
      assert LogOk(hash, s, i);
    }
  }

  lemma {:induction false} RunsKeep(hash: Node -> uint64, steps: seq<Step>, s: State)
    requires Runs(hash, steps, s)
    ensures Invariant(hash, s)
  {
    hide Invariant, Do, Enabled;
    if steps == [] {
      StartOk(hash);
    } else {
      var pre, last := steps[..|steps| - 1], steps[|steps| - 1];
      var r := After(hash, pre).value;
      RunsKeep(hash, pre, r);
      StepKeeps(hash, r, last);
    }
  }

  lemma StartOk(hash: Node -> uint64)
    ensures Invariant(hash, START)
  {
  }

  /** In every interleaving of calls and deletions, slots and index are mutually inverse in both pools: no two ids
      hold equal content, and what an id holds is found under it. */
  lemma NeverTwice(hash: Node -> uint64, steps: seq<Step>, s: State)
    requires Runs(hash, steps, s)
    ensures V.Inverse(s.values, s.index) && BucketsOk(hash, s.nodes, s.buckets)
    ensures forall item, i: nat, j: nat :: Holds(hash, s, item, i) && Holds(hash, s, item, j) ==> i == j
    ensures forall item, i: nat :: Holds(hash, s, item, i) <==> Look(hash, s, item) == Some(i)
  {
    hide Invariant, Runs;
    RunsKeep(hash, steps, s);
    KeptPools(hash, s);
    forall item ensures forall i: nat :: Holds(hash, s, item, i) <==> Look(hash, s, item) == Some(i) {
      LookIff(hash, s, item);
    }
  }

  lemma KeptPools(hash: Node -> uint64, s: State)
    requires Invariant(hash, s)
    ensures PoolsOk(hash, s)
  {
  }

  lemma {:induction false} LogGrows(hash: Node -> uint64, steps: seq<Step>, s: State, n: nat)
    requires Runs(hash, steps, s) && n <= |s.log|
    ensures exists pre, r :: Runs(hash, pre, r) && r.log == s.log[..n]
  {
    if |s.log| == n {
      assert Runs(hash, steps, s) && s.log == s.log[..n];
    } else {
      assert steps != [];
      var pre, last := steps[..|steps| - 1], steps[|steps| - 1];
      var r := After(hash, pre).value;
      OneEvent(hash, r, last);
      assert n <= |r.log| && r.log[..n] == s.log[..n];
      LogGrows(hash, pre, r, n);
    }
  }

  lemma OneEvent(hash: Node -> uint64, s: State, step: Step)
    requires Enabled(s, step)
    ensures s.log <= Do(hash, s, step).log && |Do(hash, s, step).log| <= |s.log| + 1
  {
  }

  /** Two calls for the same content return the same id if and only if no deletion between their deciding sections
      dropped the first one's id: whoever makes the calls, and whatever else goes on. */
  lemma SameIdIff(hash: Node -> uint64, steps: seq<Step>, s: State, i: nat, j: nat)
    requires Runs(hash, steps, s) && i < j < |s.log| && s.log[i].Returned? && s.log[j].Returned?
    requires s.log[i].item == s.log[j].item
    ensures s.log[i].id == s.log[j].id <==>
            forall k :: i < k < j ==> !Drops(s.log[k], s.log[i].item, s.log[i].id)
  {
    hide Runs, Invariant, PoolsOk, LogOk;
    LogGrows(hash, steps, s, j + 1);
    var pre, r :| Runs(hash, pre, r) && r.log == s.log[..j + 1];
    RunsKeep(hash, pre, r);
    KeptPools(hash, r);
    assert r.log[i] == s.log[i] && r.log[j] == s.log[j];
    assert forall k :: 0 <= k <= j ==> r.log[k] == s.log[k];
    assert Survives(r.log, i) <==> forall k :: i < k < j ==> !Drops(s.log[k], s.log[i].item, s.log[i].id);
    LastHolds(hash, r, i, j);
  }

  lemma LastHolds(hash: Node -> uint64, r: State, i: nat, j: nat)
    requires Invariant(hash, r) && i < j == |r.log| - 1 && r.log[i].Returned? && r.log[j].Returned?
    requires r.log[i].item == r.log[j].item
    ensures r.log[i].id == r.log[j].id <==> Survives(r.log, i)
  {
    var item := r.log[i].item;
    assert LogOk(hash, r, i) && LogOk(hash, r, j) && Survives(r.log, j);
    assert Holds(hash, r, item, r.log[j].id);
    LookIff(hash, r, item);
  }

  // ---------- the second look is needed ----------

  /** After two calls for one item both missed, appending without a second look in each write section puts it in the
      pool twice, and index and slots no longer agree. */
  lemma RecheckNeeded(hash: Node -> uint64, x: Scalar, node: Node)
    requires x != Nil
    ensures exists s :: Runs(hash, [ReadSection(0, OfScalar(x)), ReadSection(1, OfScalar(x))], s) &&
              BothMissed(s, OfScalar(x)) &&
              var w := V.Appended(s.values, s.index, x);
              var u := V.Appended(w.values, w.index, x);
              !V.Inverse(u.values, u.index) && w.id != u.id
    ensures exists s :: Runs(hash, [ReadSection(0, OfNode(node)), ReadSection(1, OfNode(node))], s) &&
              BothMissed(s, OfNode(node)) &&
              var w := Appended(hash, s.nodes, s.buckets, node);
              var u := Appended(hash, w.nodes, w.index, node);
              !BucketsOk(hash, u.nodes, u.index) && w.id != u.id
  {
    TwoMisses(hash, OfScalar(x));
    TwoMisses(hash, OfNode(node));
    var s := START.(threads := map[0 := Missed(OfScalar(x)), 1 := Missed(OfScalar(x))]);
    var w := V.Appended(s.values, s.index, x);
    V.AppendedIff(s.values, s.index, x);
    V.AppendedIff(w.values, w.index, x);
    var t := START.(threads := map[0 := Missed(OfNode(node)), 1 := Missed(OfNode(node))]);
    var a := Appended(hash, t.nodes, t.buckets, node);
    StartOk(hash);
    FindNodeIff(hash, t.nodes, t.buckets, node);
    AppendedIff(hash, t.nodes, t.buckets, node);
    AppendedIff(hash, a.nodes, a.index, node);
    FindNodeIff(hash, a.nodes, a.index, node);
    assert HeldIn(hash, a.nodes, a.index, node, a.id);
    assert Runs(hash, [ReadSection(0, OfScalar(x)), ReadSection(1, OfScalar(x))], s) && BothMissed(s, OfScalar(x));
    assert Runs(hash, [ReadSection(0, OfNode(node)), ReadSection(1, OfNode(node))], t) && BothMissed(t, OfNode(node));
  }

  ghost predicate BothMissed(s: State, item: Item) {
    Of(s, 0) == Missed(item) && Of(s, 1) == Missed(item)
  }

  lemma TwoMisses(hash: Node -> uint64, item: Item)
    requires item != OfScalar(Nil)
    ensures Runs(hash, [ReadSection(0, item), ReadSection(1, item)],
                 START.(threads := map[0 := Missed(item), 1 := Missed(item)]))
  {
    var steps := [ReadSection(0, item), ReadSection(1, item)];
    var s1 := START.(threads := map[0 := Missed(item)]);
    assert steps[..1] == [steps[0]] && steps[..1][..0] == [];
    assert Look(hash, START, item) == None && Look(hash, s1, item) == None;
    assert After(hash, steps[..1]) == Some(s1);
  }

  // ---------- the pools run this machine ----------

  /** Any enabled steps, performed section by section on two pools, leave them as the machine says. */
  method Execute(hash: Node -> uint64, steps: seq<Step>)
    returns (values: V.ValueInternPool, subtrees: SubtreeInternPool, threads: map<nat, Thread>, log: seq<Event>)
    requires After(hash, steps).Some?
    ensures values.Valid() && subtrees.Valid() && subtrees.hash == hash
    ensures After(hash, steps) ==
            Some(State(values.values, values.index, subtrees.nodes, subtrees.index, threads, log))
  {
    hide After, Do, Enabled;
    values := new V.ValueInternPool();
    subtrees := new SubtreeInternPool(hash);
    threads, log := map[], [];
    AfterNothing(hash, steps);
    var i := 0;
    while i < |steps|
      invariant 0 <= i <= |steps|
      invariant fresh(values) && fresh(subtrees) && subtrees.hash == hash && values.Valid() && subtrees.Valid()
      invariant After(hash, steps[..i]) ==
                Some(State(values.values, values.index, subtrees.nodes, subtrees.index, threads, log))
    {
      ghost var s := State(values.values, values.index, subtrees.nodes, subtrees.index, threads, log);
      AfterNext(hash, steps, i);
      RunsKeep(hash, steps[..i + 1], Do(hash, s, steps[i]));
      threads, log := Perform(values, subtrees, threads, log, steps[i]);
      i := i + 1;
    }
    assert steps[..|steps|] == steps;
  }

  lemma AfterNothing(hash: Node -> uint64, steps: seq<Step>)
    ensures After(hash, steps[..0]) == Some(START)
  {
  }

  lemma {:induction false} AfterPrefix(hash: Node -> uint64, steps: seq<Step>, i: nat)
    requires After(hash, steps).Some? && i <= |steps|
    ensures After(hash, steps[..i]).Some?
    decreases |steps|
  {
    if i == |steps| {
      assert steps[..i] == steps;
    } else {
      AfterPrefix(hash, steps[..|steps| - 1], i);
      assert steps[..|steps| - 1][..i] == steps[..i];
    }
  }

  lemma AfterNext(hash: Node -> uint64, steps: seq<Step>, i: nat)
    requires After(hash, steps).Some? && i < |steps|
    ensures var r := After(hash, steps[..i]);
            && r.Some? && Enabled(r.value, steps[i])
            && After(hash, steps[..i + 1]) == Some(Do(hash, r.value, steps[i]))
  {
    hide Do, Enabled;
    AfterPrefix(hash, steps, i + 1);
    assert steps[..i + 1][..i] == steps[..i];
  }

  method Perform(values: V.ValueInternPool, subtrees: SubtreeInternPool, threads: map<nat, Thread>, log: seq<Event>,
      step: Step) returns (threads': map<nat, Thread>, log': seq<Event>)
    requires values.Valid() && subtrees.Valid()
    requires Enabled(State(values.values, values.index, subtrees.nodes, subtrees.index, threads, log), step)
    modifies values, subtrees
    ensures State(values.values, values.index, subtrees.nodes, subtrees.index, threads', log') ==
            Do(subtrees.hash, State(old(values.values), old(values.index), old(subtrees.nodes), old(subtrees.index),
                                    threads, log), step)
  {
    hide V.Inverse, BucketsOk, V.KeptValues, V.KeptIndex, KeptNodes, KeptBuckets, V.AsPool, AsPool, FindNode;
    threads', log' := threads, log;
    match step
    case ReadSection(t, item) =>
      var found: Option<nat>;
      match item {
        case OfScalar(x) => found := values.Find(x);
        case OfNode(node) => found := subtrees.Find(node);
      }
      if found.Some? {
        log' := log + [Returned(t, item, found.value)];
      } else {
        threads' := threads[t := Missed(item)];
      }
    case WriteSection(t) =>
      var item, id := threads[t].item, 0;
      match item {
        case OfScalar(x) => id := values.InternLocked(x);
        case OfNode(node) => id := subtrees.InternLocked(node);
      }
      threads', log' := threads[t := Idle], log + [Returned(t, item, id)];
    case DeleteScalars(live) =>
      var _ := values.DeleteUnreachable(live);
      log' := log + [ScalarsDeleted(live)];
    case DeleteNodes(live) =>
      var _ := subtrees.DeleteUnreachable(live);
      log' := log + [NodesDeleted(live)];
  }
}
