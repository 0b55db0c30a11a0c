/** Whole runs of the index: what Lookup finds after any registrations, updates and removals. */
module IndexRuns {
  import opened Values
  import opened Plain
  import opened Indexes

  datatype Op =
    | AddOp(gvk: GroupVersionKind, field: string, fn: IndexerFunc)
    | UpdateOp(key: ObjectKey, obj: Raw)
    | RemoveOp(key: ObjectKey)

  /** The functions registered, and for every key its latest object with the functions it was indexed with. */
  datatype Indexed = Indexed(funcs: map<GroupVersionKind, Funcs>, latest: map<ObjectKey, Posting>)

  const NOTHING := Indexed(map[], map[])

  ghost function After(s: Indexed, op: Op): Indexed {
    match op
    case AddOp(gvk, field, fn) => s.(funcs := AddedTo(s.funcs, gvk, field, fn))
    case UpdateOp(key, obj) => s.(latest := s.latest[key := Posting(obj, FuncsFor(s.funcs, key.gvk))])
    case RemoveOp(key) => s.(latest := s.latest - {key})
  }

  ghost function Run(s: Indexed, ops: seq<Op>): Indexed {
    if ops == [] then s else After(Run(s, ops[..|ops| - 1]), ops[|ops| - 1])
  }

  method Perform(indexer: Indexer, ops: seq<Op>)
    requires indexer.Valid()
    modifies indexer
    ensures indexer.Valid()
    ensures Indexed(indexer.funcs, indexer.latest) == Run(Indexed(old(indexer.funcs), old(indexer.latest)), ops)
  {
    hide UpToDate, Inverse, NoEmptySets, AddedTo;
    ghost var start := Indexed(indexer.funcs, indexer.latest);
    var i := 0;
    while i < |ops|
      invariant 0 <= i <= |ops| && indexer.Valid()
      invariant Indexed(indexer.funcs, indexer.latest) == Run(start, ops[..i])
    {
      assert ops[..i + 1][..i] == ops[..i];
      match ops[i] {
        case AddOp(gvk, field, fn) => var _ := indexer.AddIndex(gvk, field, fn);
        case UpdateOp(key, obj) => indexer.UpdateIndex(key, obj);
        case RemoveOp(key) => indexer.RemoveIndex(key);
      }
      i := i + 1;
    }
    assert ops[..|ops|] == ops;
  }

  // ---------- with the functions registered first ----------

  ghost predicate Registering(regs: seq<Op>) {
    forall i :: 0 <= i < |regs| ==> regs[i].AddOp?
  }

  ghost predicate Changing(ops: seq<Op>) {
    forall i :: 0 <= i < |ops| ==> !ops[i].AddOp?
  }

  ghost function Registrations(regs: seq<Op>): map<GroupVersionKind, Funcs> {
    Run(NOTHING, regs).funcs
  }

  /** regs[i] is the first registration for its kind and field. */
  ghost predicate FirstFor(regs: seq<Op>, i: int, gvk: GroupVersionKind, field: string) {
    && 0 <= i < |regs| && regs[i].AddOp? && regs[i].gvk == gvk && regs[i].field == field
    && forall j :: 0 <= j < i && regs[j].AddOp? ==> (regs[j].gvk, regs[j].field) != (gvk, field)
  }

  /** A function is registered exactly when it was the first one offered for its kind and field. */
  lemma {:induction false} FirstStays(regs: seq<Op>, gvk: GroupVersionKind, field: string, fn: IndexerFunc)
    ensures field in FuncsFor(Registrations(regs), gvk) && FuncsFor(Registrations(regs), gvk)[field] == fn <==>
            exists i :: FirstFor(regs, i, gvk, field) && regs[i].fn == fn
  {
    if regs != [] {
      var pre, n := regs[..|regs| - 1], |regs| - 1;
      var funcs := FuncsFor(Registrations(pre), gvk);
      FirstStays(pre, gvk, field, fn);
      if field in funcs { FirstStays(pre, gvk, field, funcs[field]); }
      forall i | i < n ensures FirstFor(pre, i, gvk, field) <==> FirstFor(regs, i, gvk, field) {
        assert forall j :: 0 <= j <= i ==> pre[j] == regs[j];
      }
      if field in funcs {
        var i :| FirstFor(pre, i, gvk, field);
        assert FirstFor(regs, i, gvk, field) && !FirstFor(regs, n, gvk, field);
      } else if FirstEver(pre, gvk, field) {
        var i :| FirstFor(pre, i, gvk, field);
        FirstStays(pre, gvk, field, pre[i].fn);
      } else {
        NoneYet(pre, gvk, field);
        assert FirstFor(regs, n, gvk, field) <==>
               regs[n].AddOp? && regs[n].gvk == gvk && regs[n].field == field;
      }
    }
  }

  ghost predicate FirstEver(regs: seq<Op>, gvk: GroupVersionKind, field: string) {
    exists i :: FirstFor(regs, i, gvk, field)
  }

  lemma {:induction false} NoneYet(regs: seq<Op>, gvk: GroupVersionKind, field: string)
    requires !FirstEver(regs, gvk, field)
    ensures forall j :: 0 <= j < |regs| && regs[j].AddOp? ==> (regs[j].gvk, regs[j].field) != (gvk, field)
  {
    if regs != [] {
      var pre := regs[..|regs| - 1];
      forall i | FirstFor(pre, i, gvk, field) ensures FirstFor(regs, i, gvk, field) {
        assert forall j :: 0 <= j <= i ==> pre[j] == regs[j];
      }
      NoneYet(pre, gvk, field);
      assert forall j :: 0 <= j < |pre| ==> pre[j] == regs[j];
      assert !FirstFor(regs, |regs| - 1, gvk, field);
    }
  }

  /** ops[i] is the last update of key k, with no removal of it since. */
  ghost predicate LastFor(ops: seq<Op>, i: int, k: ObjectKey) {
    && 0 <= i < |ops| && ops[i].UpdateOp? && ops[i].key == k
    && forall j :: i < j < |ops| && !ops[j].AddOp? ==> ops[j].key != k
  }

  ghost predicate Latest(ops: seq<Op>, k: ObjectKey, obj: Raw) {
    exists i :: LastFor(ops, i, k) && ops[i].obj == obj
  }

  lemma {:induction false} RunIsLatest(funcs: map<GroupVersionKind, Funcs>, ops: seq<Op>, k: ObjectKey, obj: Raw)
    requires Changing(ops)
    ensures Run(Indexed(funcs, map[]), ops).funcs == funcs
    ensures var latest := Run(Indexed(funcs, map[]), ops).latest;
            k in latest && latest[k].obj == obj <==> Latest(ops, k, obj)
    ensures var latest := Run(Indexed(funcs, map[]), ops).latest;
            k in latest ==> latest[k].funcs == FuncsFor(funcs, k.gvk)
  {
    if ops != [] {
      var pre, n := ops[..|ops| - 1], |ops| - 1;
      RunIsLatest(funcs, pre, k, obj);
      forall i | i < n && ops[n].key != k ensures LastFor(pre, i, k) <==> LastFor(ops, i, k) {
        assert forall j :: 0 <= j < n ==> pre[j] == ops[j];
      }
      if ops[n].key != k {
        if i :| LastFor(pre, i, k) && pre[i].obj == obj { assert LastFor(ops, i, k); }
        if i :| LastFor(ops, i, k) && ops[i].obj == obj { assert LastFor(pre, i, k); }
      } else {
        assert LastFor(ops, n, k) <==> ops[n].UpdateOp?;
      }
    }
  }

  lemma {:induction false} RunSplit(s: Indexed, a: seq<Op>, b: seq<Op>)
    ensures Run(s, a + b) == Run(Run(s, a), b)
  {
    if b == [] {
      assert a + b == a;
    } else {
      assert (a + b)[..|a + b| - 1] == a + b[..|b| - 1];
      RunSplit(s, a, b[..|b| - 1]);
    }
  }

  lemma {:induction false} NothingIndexed(regs: seq<Op>)
    requires Registering(regs)
    ensures Run(NOTHING, regs).latest == map[]
  {
    if regs != [] {
      NothingIndexed(regs[..|regs| - 1]);
    }
  }

  /** The first function registered for k's kind and the field gives the value for k's latest object, which was not
      removed since. */
  ghost predicate Finds(regs: seq<Op>, ops: seq<Op>, k: ObjectKey, field: string, value: string) {
    exists i, j :: FirstFor(regs, i, k.gvk, field) && LastFor(ops, j, k) && value in regs[i].fn(ops[j].obj)
  }

  /** With every function registered before the first object, any updates and removals leave an index in which
      Lookup finds, once each, exactly the keys of the kind whose latest object, not removed since, has the value
      among what the first function registered for the field gives. */
  method LookupAfter(regs: seq<Op>, ops: seq<Op>, gvk: GroupVersionKind, field: string, value: string)
    returns (result: seq<ObjectKey>)
    requires Registering(regs) && Changing(ops)
    ensures forall i, j :: 0 <= i < j < |result| ==> result[i] != result[j]
    ensures forall k :: k in result <==> k.gvk == gvk && Finds(regs, ops, k, field, value)
  {
    hide UpToDate, Inverse, NoEmptySets, Run, Finds;
    var indexer := new Indexer();
    Perform(indexer, regs + ops);
    RunSplit(NOTHING, regs, ops);
    NothingIndexed(regs);
    result := indexer.Lookup(gvk, field, value);
    forall k: ObjectKey ensures Wanted(indexer.latest, k, field, value) <==> Finds(regs, ops, k, field, value) {
      WantedAfter(regs, ops, indexer.latest, k, field, value);
    }
  }

  lemma WantedAfter(regs: seq<Op>, ops: seq<Op>, latest: map<ObjectKey, Posting>, k: ObjectKey, field: string,
      value: string)
    requires Registering(regs) && Changing(ops) && latest == Run(Indexed(Registrations(regs), map[]), ops).latest
    ensures Wanted(latest, k, field, value) <==> Finds(regs, ops, k, field, value)
  {
    hide Run;
    var funcs := Registrations(regs);
    if Wanted(latest, k, field, value) {
      RunIsLatest(funcs, ops, k, latest[k].obj);
      FirstStays(regs, k.gvk, field, latest[k].funcs[field]);
      var i :| FirstFor(regs, i, k.gvk, field) && regs[i].fn == latest[k].funcs[field];
      var j :| LastFor(ops, j, k) && ops[j].obj == latest[k].obj;
      assert FirstFor(regs, i, k.gvk, field) && LastFor(ops, j, k) && value in regs[i].fn(ops[j].obj);
    }
    if Finds(regs, ops, k, field, value) {
      var i, j :| FirstFor(regs, i, k.gvk, field) && LastFor(ops, j, k) && value in regs[i].fn(ops[j].obj);
      RunIsLatest(funcs, ops, k, ops[j].obj);
      FirstStays(regs, k.gvk, field, regs[i].fn);
    }
  }
}
