/** Running informers and clients share one store and one index. An informer's Run handles an input in two atomic steps,
    first the store, then the index; a client writes the store alone. All these steps interleave in any way. */
module Interleaving {
  import opened Values
  import opened Plain
  import opened Unstructured
  import opened Heaps
  import opened Decomposing
  import opened Refcounts
  import opened Meanings
  import opened DedupStores
  import opened Indexes
  import opened Inputs
  import opened Sessions
  import IndexRuns

  /** One call of an informer's Run. A kind has one informer, but nothing keeps it from being run more than once. */
  datatype Run = Run(gvk: GroupVersionKind, id: nat)

  /** `pending` holds, per Run, a change that has reached the store but not yet the index. `inputs` is all that was sent
      of each kind, and `written` the keys a client wrote or removed after an informer last stored them. */
  datatype State = State(objs: Objects, latest: map<ObjectKey, Posting>, pending: map<Run, Change>,
                         inputs: map<GroupVersionKind, seq<Input>>, written: set<ObjectKey>)

  datatype Step =
    | ToStore(run: Run, x: Input)
    | ToIndex(run: Run)
    | ClientWrite(key: ObjectKey, obj: map<string, Raw>)
    | ClientRemove(key: ObjectKey)

  const START := State(map[], map[], map[], map[], {})

  function InputsOf(s: State, gvk: GroupVersionKind): seq<Input> {
    if gvk in s.inputs then s.inputs[gvk] else []
  }

  /** A Run finishes one input before the next. */
  predicate Enabled(s: State, step: Step) {
    match step
    case ToStore(run, _) => run !in s.pending
    case ToIndex(run) => run in s.pending
    case _ => true
  }

  ghost function Do(funcs: FuncMap, s: State, step: Step): State
    requires Enabled(s, step)
  {
    match step
    case ToStore(run, x) =>
      var c, t := ChangeOf(run.gvk, x), s.(inputs := s.inputs[run.gvk := InputsOf(s, run.gvk) + [x]]);
      if c.Nothing? then t
      else t.(objs := Changed(Held(s.objs, s.latest), funcs, c).objs, pending := s.pending[run := c],
              written := s.written - {c.key})
    case ToIndex(run) =>
      s.(latest := Changed(Held(s.objs, s.latest), funcs, s.pending[run]).latest, pending := s.pending - {run})
    case ClientWrite(key, obj) => s.(objs := s.objs[key := Canon(RawMap(obj))], written := s.written + {key})
    case ClientRemove(key) => s.(objs := s.objs - {key}, written := s.written + {key})
  }

  /** The state after the steps, if each of them was enabled in turn. */
  ghost function After(funcs: FuncMap, steps: seq<Step>): Option<State> {
    if steps == [] then Some(START)
    else
      var r := After(funcs, steps[..|steps| - 1]);
      if r.Some? && Enabled(r.value, steps[|steps| - 1]) then Some(Do(funcs, r.value, steps[|steps| - 1])) else None
  }

  ghost predicate Runs(funcs: FuncMap, steps: seq<Step>, s: State) {
    After(funcs, steps) == Some(s)
  }

  ghost predicate ByRun(step: Step, runs: iset<Run>) {
    step.ToStore? || step.ToIndex? ==> step.run in runs
  }

  /** The steps of the given Runs, and of clients. */
  ghost predicate By(steps: seq<Step>, runs: iset<Run>) {
    forall i :: 0 <= i < |steps| ==> ByRun(steps[i], runs)
  }

  /** Every kind is run at most once. */
  ghost predicate OneEach(runs: iset<Run>) {
    forall q, r :: q in runs && r in runs && q.gvk == r.gvk ==> q == r
  }

  // ---------- what every interleaving keeps when each kind is run once ----------

  ghost function Sent(s: State, gvk: GroupVersionKind): seq<Change> {
    Changes(gvk, InputsOf(s, gvk))
  }

  ghost predicate UnderWay(s: State, gvk: GroupVersionKind) {
    exists r :: r in s.pending && r.gvk == gvk
  }

  /** The changes of a kind that have reached the index. */
  ghost function Done(s: State, gvk: GroupVersionKind): seq<Change> {
    var cs := Sent(s, gvk);
    if UnderWay(s, gvk) && cs != [] then cs[..|cs| - 1] else cs
  }

  ghost function AsObject(c: Option<Change>): Option<Value> {
    if c.Some? then ObjectOf(c.value) else None
  }

  ghost function AsPosting(funcs: FuncMap, c: Option<Change>): Option<Posting> {
    if c.Some? then PostingOf(funcs, c.value) else None
  }

  /** The index holds what the last change of the key that reached it says, and so does the store unless a client
      wrote since. */
  ghost predicate Good(funcs: FuncMap, s: State, k: ObjectKey) {
    && PostingAt(s.latest, k) == AsPosting(funcs, LastOn(Done(s, k.gvk), k))
    && (k !in s.written ==> Lookup(s.objs, k) == AsObject(LastOn(Sent(s, k.gvk), k)))
  }

  /** What is pending is the last change sent. */
  ghost predicate PendingOk(s: State, r: Run) {
    r in s.pending ==>
      var c, cs := s.pending[r], Sent(s, r.gvk);
      !c.Nothing? && c.key.gvk == r.gvk && cs != [] && cs[|cs| - 1] == c
  }

  ghost predicate Known(s: State, runs: iset<Run>) {
    forall r :: r in s.pending ==> r in runs
  }

  ghost predicate Invariant(funcs: FuncMap, s: State, runs: iset<Run>) {
    Known(s, runs) && (forall r :: PendingOk(s, r)) && forall k :: Good(funcs, s, k)
  }

  /** Between two inputs of its only Run, nothing of a kind is under way. */
  lemma IdleKind(s: State, runs: iset<Run>, run: Run)
    requires Known(s, runs) && OneEach(runs) && run in runs && run !in s.pending
    ensures !UnderWay(s, run.gvk)
  {
  }

  lemma SentOne(funcs: FuncMap, s: State, run: Run, x: Input, g: GroupVersionKind)
    requires run !in s.pending && !UnderWay(s, run.gvk)
    ensures var t, c := Do(funcs, s, ToStore(run, x)), ChangeOf(run.gvk, x);
            && Sent(t, g) == (if g == run.gvk then Sent(s, g) + [c] else Sent(s, g))
            && Done(t, g) == (if g == run.gvk && c.Nothing? then Sent(s, g) + [c] else Done(s, g))
  {
    hide Sent, Canon, UnderWay;
    var t, c := Do(funcs, s, ToStore(run, x)), ChangeOf(run.gvk, x);
    OneMoreSent(funcs, s, run, x, g);
    StillUnderWay(s, t, run, !c.Nothing?, g);
    if g == run.gvk { assert (Sent(s, g) + [c])[..|Sent(s, g)|] == Sent(s, g); }
  }

  lemma OneMoreSent(funcs: FuncMap, s: State, run: Run, x: Input, g: GroupVersionKind)
    requires run !in s.pending
    ensures Sent(Do(funcs, s, ToStore(run, x)), g) ==
            if g == run.gvk then Sent(s, g) + [ChangeOf(run.gvk, x)] else Sent(s, g)
  {
    hide Canon;
    var t := Do(funcs, s, ToStore(run, x));
    assert InputsOf(t, g) == if g == run.gvk then InputsOf(s, g) + [x] else InputsOf(s, g);
    ChangesAppend(run.gvk, InputsOf(s, run.gvk), [x]);
    assert Changes(run.gvk, [x]) == [ChangeOf(run.gvk, x)];
  }

  lemma StillUnderWay(s: State, t: State, run: Run, added: bool, g: GroupVersionKind)
    requires t.pending.Keys == s.pending.Keys + if added then {run} else {}
    ensures UnderWay(t, g) <==> UnderWay(s, g) || (added && g == run.gvk)
  {
    assert forall r :: r in t.pending <==> r in s.pending || (added && r == run);
  }

  lemma ToStoreKeeps(funcs: FuncMap, s: State, run: Run, x: Input, k: ObjectKey)
    requires Good(funcs, s, k) && run !in s.pending && !UnderWay(s, run.gvk)
    ensures Good(funcs, Do(funcs, s, ToStore(run, x)), k)
  {
    hide Canon, LastOn, Sent, Done, UnderWay;
    SentOne(funcs, s, run, x, k.gvk);
    var c := ChangeOf(run.gvk, x);
    LastOnOne(Sent(s, k.gvk), c, k);
    NothingUnderWay(s, run.gvk);
  }

  lemma NothingUnderWay(s: State, gvk: GroupVersionKind)
    ensures !UnderWay(s, gvk) ==> Done(s, gvk) == Sent(s, gvk)
  {
  }

  lemma ToIndexKeeps(funcs: FuncMap, s: State, runs: iset<Run>, run: Run, k: ObjectKey)
    requires Good(funcs, s, k) && run in s.pending && PendingOk(s, run) && Known(s, runs) && OneEach(runs)
    ensures Good(funcs, Do(funcs, s, ToIndex(run)), k)
  {
    hide Canon, LastOn;
    var t, cs, c := Do(funcs, s, ToIndex(run)), Sent(s, run.gvk), s.pending[run];
    assert Sent(t, k.gvk) == Sent(s, k.gvk);
    FewerUnderWay(s, t, runs, run, k.gvk);
    assert cs == cs[..|cs| - 1] + [c];
    LastOnOne(cs[..|cs| - 1], c, k);
  }

  lemma FewerUnderWay(s: State, t: State, runs: iset<Run>, run: Run, g: GroupVersionKind)
    requires Known(s, runs) && OneEach(runs) && run in s.pending && t.pending == s.pending - {run}
    ensures UnderWay(s, run.gvk) && (UnderWay(t, g) <==> UnderWay(s, g) && g != run.gvk)
  {
    assert forall r :: r in t.pending <==> r in s.pending && r != run;
  }

  lemma ClientKeeps(funcs: FuncMap, s: State, step: Step, k: ObjectKey)
    requires Good(funcs, s, k) && (step.ClientWrite? || step.ClientRemove?)
    ensures Good(funcs, Do(funcs, s, step), k)
  {
    hide Canon, LastOn;
    var t := Do(funcs, s, step);
    assert Sent(t, k.gvk) == Sent(s, k.gvk) && Done(t, k.gvk) == Done(s, k.gvk);
  }

  lemma PendingKept(funcs: FuncMap, s: State, runs: iset<Run>, step: Step, r: Run)
    requires PendingOk(s, r) && Known(s, runs) && OneEach(runs) && Enabled(s, step) && ByRun(step, runs)
    ensures PendingOk(Do(funcs, s, step), r)
  {
    hide Canon, Sent, Done, UnderWay, OneEach, LastOn;
    match step
    case ToStore(run, x) =>
      IdleKind(s, runs, run);
      if r in s.pending { OthersIdle(s, run, r); }
      SentOne(funcs, s, run, x, r.gvk);
    case _ => SameSent(funcs, s, step, r.gvk);
  }

  lemma OthersIdle(s: State, run: Run, r: Run)
    requires !UnderWay(s, run.gvk) && r in s.pending
    ensures r.gvk != run.gvk
  {
  }

  lemma SameSent(funcs: FuncMap, s: State, step: Step, g: GroupVersionKind)
    requires Enabled(s, step) && !step.ToStore?
    ensures Sent(Do(funcs, s, step), g) == Sent(s, g)
  {
    hide Canon;
  }

  lemma StepKeeps(funcs: FuncMap, s: State, runs: iset<Run>, step: Step)
    requires Invariant(funcs, s, runs) && OneEach(runs) && Enabled(s, step) && ByRun(step, runs)
    ensures Invariant(funcs, Do(funcs, s, step), runs)
  {
    hide Good, PendingOk, OneEach, UnderWay, Canon;
    forall r ensures PendingOk(Do(funcs, s, step), r) { PendingKept(funcs, s, runs, step, r); }
    if step.ToStore? { IdleKind(s, runs, step.run); }
    forall k ensures Good(funcs, Do(funcs, s, step), k) {
      match step
      case ToStore(run, x) => ToStoreKeeps(funcs, s, run, x, k);
      case ToIndex(run) => ToIndexKeeps(funcs, s, runs, run, k);
      case _ => ClientKeeps(funcs, s, step, k);
    }
  }

  lemma {:induction false} RunsKeep(funcs: FuncMap, steps: seq<Step>, s: State, runs: iset<Run>)
    requires Runs(funcs, steps, s) && By(steps, runs) && OneEach(runs)
    ensures Invariant(funcs, s, runs)
  {
    hide Do, OneEach, ByRun;
    if steps == [] {
      StartOk(funcs, runs);
    } else {
      var r := After(funcs, steps[..|steps| - 1]).value;
      RunsKeep(funcs, steps[..|steps| - 1], r, runs);
      assert ByRun(steps[|steps| - 1], runs);
      StepKeeps(funcs, r, runs, steps[|steps| - 1]);
    }
  }

  lemma StartOk(funcs: FuncMap, runs: iset<Run>)
    ensures Invariant(funcs, START, runs)
  {
  }

  // ---------- quiescent points ----------

  /** What one informer would have gathered alone. */
  ghost function Alone(s: State, gvk: GroupVersionKind): Arrivals {
    ArriveAll(map[], Sent(s, gvk))
  }

  lemma LastKey(cs: seq<Change>, k: ObjectKey)
    ensures LastOn(cs, k).Some? ==> Touches(LastOn(cs, k).value, k)
  {
  }

  lemma QuietAt(funcs: FuncMap, s: State, k: ObjectKey)
    requires Good(funcs, s, k) && s.pending == map[]
    ensures var a := Alone(s, k.gvk);
            && (k in s.latest <==> k in a)
            && (k in a ==> s.latest[k] == Posting(a[k], FuncsFor(funcs, k.gvk)))
            && (k !in s.written ==> Lookup(s.objs, k) == if k in a then Some(Canon(a[k])) else None)
  {
    hide Canon, LastOn, Sent, ArriveAll;
    NothingUnderWay(s, k.gvk);
    ArrivedLast(Sent(s, k.gvk), k);
    LastKey(Sent(s, k.gvk), k);
  }

  /** At every quiescent point of every interleaving in which each kind is run at most once, whatever the other kinds
      and the clients did: the index finds for each kind exactly the objects its informer would have gathered alone, and
      the store holds them in canonical form, but for the keys a client wrote since. Without such keys, store and index
      agree. */
  lemma QuiescentAgrees(funcs: FuncMap, steps: seq<Step>, s: State, runs: iset<Run>)
    requires Runs(funcs, steps, s) && s.pending == map[] && By(steps, runs) && OneEach(runs)
    ensures forall k: ObjectKey, field, value :: Wanted(s.latest, k, field, value) <==>
              && k in Alone(s, k.gvk)
              && field in FuncsFor(funcs, k.gvk) && value in FuncsFor(funcs, k.gvk)[field](Alone(s, k.gvk)[k])
    ensures forall k: ObjectKey :: k !in s.written ==> Lookup(s.objs, k) == Lookup(Stored(Alone(s, k.gvk)), k)
    ensures Current(s.latest, funcs)
    ensures s.written == {} ==> Agree(s.objs, s.latest)
  {
    hide Canon, Alone, Good, After;
    RunsKeep(funcs, steps, s, runs);
    forall k: ObjectKey
      ensures var a := Alone(s, k.gvk);
              && (k in s.latest <==> k in a)
              && (k in a ==> s.latest[k] == Posting(a[k], FuncsFor(funcs, k.gvk)))
              && (k !in s.written ==> Lookup(s.objs, k) == if k in a then Some(Canon(a[k])) else None)
    {
      assert Good(funcs, s, k);
      QuietAt(funcs, s, k);
    }
    if s.written == {} { QuietObjects(s); }
  }

  lemma QuietObjects(s: State)
    requires s.written == {}
    requires forall k: ObjectKey :: k in s.latest <==> k in Alone(s, k.gvk)
    requires forall k: ObjectKey :: k in s.latest ==> s.latest[k].obj == Alone(s, k.gvk)[k]
    requires forall k: ObjectKey ::
               Lookup(s.objs, k) == if k in Alone(s, k.gvk) then Some(Canon(Alone(s, k.gvk)[k])) else None
    ensures Agree(s.objs, s.latest)
  {
    hide Canon, Alone;
    forall k: ObjectKey ensures k in s.objs <==> k in s.latest {
      assert Lookup(s.objs, k) == if k in Alone(s, k.gvk) then Some(Canon(Alone(s, k.gvk)[k])) else None;
    }
  }

  /** What a kind's informer made of whole sessions of lists and watches, read off at a quiescent point. */
  lemma SessionsAtRest(funcs: FuncMap, steps: seq<Step>, s: State, runs: iset<Run>, sessions: seq<Session>,
      k: ObjectKey)
    requires Runs(funcs, steps, s) && s.pending == map[] && By(steps, runs) && OneEach(runs)
    requires InputsOf(s, k.gvk) == RunInputs(sessions)
    ensures var r := Fold(Held(map[], map[]), funcs, RunChanges(k.gvk, sessions));
            && PostingAt(s.latest, k) == PostingAt(r.latest, k)
            && (k !in s.written ==> Lookup(s.objs, k) == Lookup(r.objs, k))
  {
    hide Canon, Fold, LastOn, Changes, Do, After;
    RunsKeep(funcs, steps, s, runs);
    assert Good(funcs, s, k);
    NothingUnderWay(s, k.gvk);
    LastDecides(Held(map[], map[]), funcs, RunChanges(k.gvk, sessions), k);
  }

  // ---------- what was sent and written, told by the steps ----------

  /** What the steps bring of a kind, in order. */
  ghost function Brought(steps: seq<Step>, gvk: GroupVersionKind): seq<Input> {
    if steps == [] then []
    else
      var last := steps[|steps| - 1];
      Brought(steps[..|steps| - 1], gvk) + if last.ToStore? && last.run.gvk == gvk then [last.x] else []
  }

  lemma DoBrings(funcs: FuncMap, s: State, step: Step, gvk: GroupVersionKind)
    requires Enabled(s, step)
    ensures InputsOf(Do(funcs, s, step), gvk) ==
            InputsOf(s, gvk) + if step.ToStore? && step.run.gvk == gvk then [step.x] else []
  {
    hide Canon, ChangeOf;
  }

  lemma NothingSent(gvk: GroupVersionKind)
    ensures InputsOf(START, gvk) == []
  {
  }

  lemma {:induction false} InputsAreBrought(funcs: FuncMap, steps: seq<Step>, s: State, gvk: GroupVersionKind)
    requires Runs(funcs, steps, s)
    ensures InputsOf(s, gvk) == Brought(steps, gvk)
  {
    hide Do, InputsOf;
    if steps != [] {
      var r := After(funcs, steps[..|steps| - 1]).value;
      InputsAreBrought(funcs, steps[..|steps| - 1], r, gvk);
      DoBrings(funcs, r, steps[|steps| - 1], gvk);
    } else {
      NothingSent(gvk);
    }
  }

  ghost predicate ByClient(step: Step, k: ObjectKey) {
    (step.ClientWrite? || step.ClientRemove?) && step.key == k
  }

  ghost predicate ByInformer(step: Step, k: ObjectKey) {
    step.ToStore? &&
    match step.x
    case Listed(obj) => ArrivingKey(step.run.gvk, obj) == k
    case Watched(e) => About(step.run.gvk, e, k)
  }

  /** A client wrote or removed the key, and no informer has stored or removed it since. */
  ghost predicate ClientLast(steps: seq<Step>, k: ObjectKey) {
    exists i :: 0 <= i < |steps| && ByClient(steps[i], k) && forall j :: i < j < |steps| ==> !ByInformer(steps[j], k)
  }

  lemma ClientLastOne(steps: seq<Step>, k: ObjectKey)
    requires steps != []
    ensures ClientLast(steps, k) <==>
            || ByClient(steps[|steps| - 1], k)
            || (ClientLast(steps[..|steps| - 1], k) && !ByInformer(steps[|steps| - 1], k))
  {
    hide ByClient, ByInformer;
    var n, pre := |steps| - 1, steps[..|steps| - 1];
    assert forall j :: 0 <= j < n ==> pre[j] == steps[j];
    if ClientLast(pre, k) && !ByInformer(steps[n], k) {
      var i :| 0 <= i < |pre| && ByClient(pre[i], k) && forall j :: i < j < |pre| ==> !ByInformer(pre[j], k);
      assert ByClient(steps[i], k);
    }
    if ByClient(steps[n], k) { assert ClientLast(steps, k); }
    if ClientLast(steps, k) && !ByClient(steps[n], k) {
      var i :| 0 <= i < |steps| && ByClient(steps[i], k) && forall j :: i < j < |steps| ==> !ByInformer(steps[j], k);
      assert ByClient(pre[i], k);
    }
  }

  lemma {:induction false} WrittenIff(funcs: FuncMap, steps: seq<Step>, s: State, k: ObjectKey)
    requires Runs(funcs, steps, s)
    ensures k in s.written <==> ClientLast(steps, k)
  {
    hide Canon, ArrivingKey;
    if steps != [] {
      var r := After(funcs, steps[..|steps| - 1]).value;
      WrittenIff(funcs, steps[..|steps| - 1], r, k);
      ClientLastOne(steps, k);
    }
  }

  /** The step leaves the key in the store with this object, or without any. */
  ghost predicate Leaves(step: Step, v: Option<Value>) {
    match step
    case ClientWrite(_, obj) => v == Some(Canon(RawMap(obj)))
    case ClientRemove(_) => v == None
    case ToStore(_, Listed(obj)) => v == Some(Canon(RawMap(obj)))
    case ToStore(_, Watched(e)) =>
      v == if e.kind != Deleted && e.obj.Some? then Some(Canon(RawMap(e.obj.value))) else None
    case ToIndex(_) => false
  }

  lemma StepLeaves(funcs: FuncMap, s: State, step: Step, k: ObjectKey)
    requires Enabled(s, step)
    ensures var t := Do(funcs, s, step);
            if ByClient(step, k) || ByInformer(step, k) then Leaves(step, Lookup(t.objs, k))
            else Lookup(t.objs, k) == Lookup(s.objs, k)
  {
    hide Canon, ArrivingKey;
  }

  /** In every interleaving, however often a kind is run, the store holds for a key what the last step that wrote or
      removed it says, a client's or an informer's. */
  lemma {:induction false} LastStepDecides(funcs: FuncMap, steps: seq<Step>, s: State, i: nat, k: ObjectKey)
    requires Runs(funcs, steps, s) && i < |steps| && (ByClient(steps[i], k) || ByInformer(steps[i], k))
    requires forall j :: i < j < |steps| ==> !ByClient(steps[j], k) && !ByInformer(steps[j], k)
    ensures Leaves(steps[i], Lookup(s.objs, k))
    decreases |steps|
  {
    hide Do, Enabled, ByClient, ByInformer, Leaves, Lookup;
    var n := |steps| - 1;
    var r := After(funcs, steps[..n]).value;
    StepLeaves(funcs, r, steps[n], k);
    if i < n {
      LastStepDecides(funcs, steps[..n], r, i, k);
    }
  }

  // ---------- a kind that is run twice ----------

  ghost predicate InformersOnly(steps: seq<Step>) {
    forall i :: 0 <= i < |steps| ==> steps[i].ToStore? || steps[i].ToIndex?
  }

  lemma {:induction false} NothingWritten(funcs: FuncMap, steps: seq<Step>, s: State)
    requires Runs(funcs, steps, s) && InformersOnly(steps)
    ensures s.written == {}
  {
    hide Canon;
    if steps != [] {
      NothingWritten(funcs, steps[..|steps| - 1], After(funcs, steps[..|steps| - 1]).value);
    }
  }

  /** Two Runs of one kind, each with its own state of an object: the second to reach the store is the first to reach
      the index. */
  ghost function Crossing(q: Run, r: Run, a: map<string, Raw>, b: map<string, Raw>): seq<Step> {
    [ToStore(q, Listed(a)), ToStore(r, Listed(b)), ToIndex(r), ToIndex(q)]
  }

  /** They leave the store on one state and the index on the other. */
  lemma CrossingDisagrees(funcs: FuncMap, q: Run, r: Run, a: map<string, Raw>, b: map<string, Raw>)
    requires q != r && q.gvk == r.gvk && ArrivingKey(q.gvk, a) == ArrivingKey(q.gvk, b)
    ensures var t, k := After(funcs, Crossing(q, r, a, b)), ArrivingKey(q.gvk, a);
            && t.Some? && t.value.pending == map[]
            && Lookup(t.value.objs, k) == Some(Canon(RawMap(b)))
            && PostingAt(t.value.latest, k) == Some(Posting(RawMap(a), FuncsFor(funcs, q.gvk)))
  {
    hide Do, Enabled, After, ArrivingKey;
    var steps := Crossing(q, r, a, b);
    CrossingStates(funcs, q, r, a, b);
    var s1 := Do(funcs, START, steps[0]);
    var s2 := Do(funcs, s1, steps[1]);
    var s3 := Do(funcs, s2, steps[2]);
    AfterNothing(funcs, steps);
    AfterOne(funcs, steps[..0], START, steps[0]);
    assert steps[..0] + [steps[0]] == [steps[0]];
    AfterOne(funcs, [steps[0]], s1, steps[1]);
    assert [steps[0]] + [steps[1]] == [steps[0], steps[1]];
    AfterOne(funcs, [steps[0], steps[1]], s2, steps[2]);
    assert [steps[0], steps[1]] + [steps[2]] == [steps[0], steps[1], steps[2]];
    AfterOne(funcs, [steps[0], steps[1], steps[2]], s3, steps[3]);
    assert steps == [steps[0], steps[1], steps[2]] + [steps[3]];
  }

  lemma CrossingStates(funcs: FuncMap, q: Run, r: Run, a: map<string, Raw>, b: map<string, Raw>)
    requires q != r && q.gvk == r.gvk && ArrivingKey(q.gvk, a) == ArrivingKey(q.gvk, b)
    ensures var steps, k := Crossing(q, r, a, b), ArrivingKey(q.gvk, a);
            && Enabled(START, steps[0])
            && var s1 := Do(funcs, START, steps[0]);
            && Enabled(s1, steps[1])
            && var s2 := Do(funcs, s1, steps[1]);
            && Enabled(s2, steps[2])
            && var s3 := Do(funcs, s2, steps[2]);
            && Enabled(s3, steps[3])
            && var s4 := Do(funcs, s3, steps[3]);
            && s4.pending == map[] && Lookup(s4.objs, k) == Some(Canon(RawMap(b)))
            && PostingAt(s4.latest, k) == Some(Posting(RawMap(a), FuncsFor(funcs, q.gvk)))
  {
    hide Canon, RawMeta;
    var steps, k := Crossing(q, r, a, b), ArrivingKey(q.gvk, a);
    var s1 := Do(funcs, START, steps[0]);
    assert s1.pending == map[q := Sets(k, a)];
    var s2 := Do(funcs, s1, steps[1]);
    assert s2.pending == map[q := Sets(k, a), r := Sets(k, b)];
    var s3 := Do(funcs, s2, steps[2]);
    assert s3.pending == map[q := Sets(k, a)] && s3.objs == s2.objs;
    assert k.gvk == q.gvk;
  }

  lemma AfterOne(funcs: FuncMap, pre: seq<Step>, s: State, step: Step)
    requires After(funcs, pre) == Some(s) && Enabled(s, step)
    ensures After(funcs, pre + [step]) == Some(Do(funcs, s, step))
  {
    hide Do, Enabled;
    assert (pre + [step])[..|pre|] == pre;
  }

  /** Store and index agree at every quiescent point of every interleaving of the given Runs if and only if each kind
      is run at most once. */
  lemma AgreeIff(funcs: FuncMap, runs: iset<Run>)
    ensures OneEach(runs) <==>
            forall steps, s ::
              Runs(funcs, steps, s) && By(steps, runs) && InformersOnly(steps) && s.pending == map[] ==>
                Agree(s.objs, s.latest)
  {
    hide Canon, After, Agree;
    if OneEach(runs) {
      forall steps, s | Runs(funcs, steps, s) && By(steps, runs) && InformersOnly(steps) && s.pending == map[]
        ensures Agree(s.objs, s.latest)
      {
        NothingWritten(funcs, steps, s);
        QuiescentAgrees(funcs, steps, s, runs);
      }
    } else {
      var q, r :| q in runs && r in runs && q.gvk == r.gvk && q != r;
      var a: map<string, Raw>, b: map<string, Raw> := map[], map["spec" := RawLeaf(RNil)];
      CrossingDisagrees(funcs, q, r, a, b);
      var s := After(funcs, Crossing(q, r, a, b)).value;
      TwoStates(s.objs, s.latest, ArrivingKey(q.gvk, a), a, b);
      assert Runs(funcs, Crossing(q, r, a, b), s);
    }
  }

  lemma TwoStates(objs: Objects, latest: map<ObjectKey, Posting>, k: ObjectKey, a: map<string, Raw>,
      b: map<string, Raw>)
    requires a == map[] && "spec" in b && Lookup(objs, k) == Some(Canon(RawMap(b)))
    requires PostingAt(latest, k).Some? && latest[k].obj == RawMap(a)
    ensures !Agree(objs, latest)
  {
    assert "spec" in Canon(RawMap(b)).entries && "spec" !in Canon(RawMap(a)).entries;
  }

  // ---------- the store and the index run this machine ----------

  /** Any enabled steps, performed one by one on a store and an index, leave them as the machine says. */
  method Execute(store: DedupStore, indexer: Indexer, steps: seq<Step>)
    requires store.Valid() && indexer.Valid() && store.A().objs == map[] && indexer.latest == map[]
    requires After(indexer.funcs, steps).Some?
    modifies store, store.values, store.subtrees, indexer
    ensures store.Valid() && indexer.Valid() && indexer.funcs == old(indexer.funcs)
    ensures var s := After(indexer.funcs, steps).value; store.A().objs == s.objs && indexer.latest == s.latest
  {
    hide HeapOk, Rooted, Meaning, UpToDate, Inverse, NoEmptySets, Do, After, Enabled;
    hide DedupStore.Valid, DedupStore.A, Indexer.Valid;
    var pending: map<Run, Change> := map[];
    ghost var funcs, s := indexer.funcs, START;
    var i := 0;
    AfterNothing(funcs, steps);
    while i < |steps|
      invariant 0 <= i <= |steps|
      invariant store.Valid() && indexer.Valid() && indexer.funcs == funcs
      invariant After(funcs, steps[..i]) == Some(s)
      invariant store.A().objs == s.objs && indexer.latest == s.latest && pending == s.pending
    {
      AfterNext(funcs, steps, i);
      pending := Perform(store, indexer, pending, steps[i], s);
      s := Do(funcs, s, steps[i]);
      i := i + 1;
    }
    assert steps[..|steps|] == steps;
  }

  /** One step; `s` is the state it starts from. */
  method Perform(store: DedupStore, indexer: Indexer, pending: map<Run, Change>, step: Step, ghost s: State)
    returns (pending': map<Run, Change>)
    requires store.Valid() && indexer.Valid()
    requires store.A().objs == s.objs && indexer.latest == s.latest && pending == s.pending && Enabled(s, step)
    modifies store, store.values, store.subtrees, indexer
    ensures store.Valid() && indexer.Valid() && indexer.funcs == old(indexer.funcs)
    ensures var t := Do(indexer.funcs, s, step);
            store.A().objs == t.objs && indexer.latest == t.latest && pending' == t.pending
  {
    hide HeapOk, Rooted, Meaning, Canon, Upserted, UpToDate, Inverse, NoEmptySets, Returns, Fits, Decomposed, ChangeOf;
    hide Vals, Scals, DedupStore.CountsExact, DedupStore.Valid, DedupStore.A, Indexer.Valid, Lookup;
    pending' := pending;
    match step
    case ToStore(run, x) =>
      match ChangeOf(run.gvk, x) {
        case Sets(key, obj) => Upsert(store, key, obj);
        case Clears(key) => Delete(store, key);
        case Nothing =>
      }
      if !ChangeOf(run.gvk, x).Nothing? {
        pending' := pending[run := ChangeOf(run.gvk, x)];
      }
    case ToIndex(run) =>
      match pending[run] {
        case Sets(key, obj) => indexer.UpdateIndex(key, RawMap(obj));
        case Clears(key) => indexer.RemoveIndex(key);
        case Nothing =>
      }
      pending' := pending - {run};
    case ClientWrite(key, obj) => Upsert(store, key, obj);
    case ClientRemove(key) => Delete(store, key);
  }

  /** The store's own operations, seen from its objects alone. */
  method Upsert(store: DedupStore, key: ObjectKey, obj: map<string, Raw>)
    requires store.Valid()
    modifies store, store.values, store.subtrees
    ensures store.Valid() && store.A().objs == old(store.A().objs)[key := Canon(RawMap(obj))]
  {
    hide HeapOk, Rooted, Meaning, Canon, Returns, Fits, Decomposed, DedupStore.CountsExact, Lookup;
    store.Upsert(key, obj);
  }

  method Delete(store: DedupStore, key: ObjectKey)
    requires store.Valid()
    modifies store, store.values, store.subtrees
    ensures store.Valid() && store.A().objs == old(store.A().objs) - {key}
  {
    hide HeapOk, Rooted, Meaning, DedupStore.CountsExact;
    store.Delete(key);
  }

  lemma AfterNothing(funcs: FuncMap, steps: seq<Step>)
    ensures After(funcs, steps[..0]) == Some(START)
  {
  }

  lemma {:induction false} AfterPrefix(funcs: FuncMap, steps: seq<Step>, i: nat)
    requires After(funcs, steps).Some? && i <= |steps|
    ensures After(funcs, steps[..i]).Some?
    decreases |steps|
  {
    hide Do, Enabled;
    if i == |steps| {
      assert steps[..i] == steps;
    } else {
      AfterPrefix(funcs, steps[..|steps| - 1], i);
      assert steps[..|steps| - 1][..i] == steps[..i];
    }
  }

  lemma AfterNext(funcs: FuncMap, steps: seq<Step>, i: nat)
    requires After(funcs, steps).Some? && i < |steps|
    ensures var r := After(funcs, steps[..i]);
            && r.Some? && Enabled(r.value, steps[i])
            && After(funcs, steps[..i + 1]) == Some(Do(funcs, r.value, steps[i]))
  {
    hide Do, Enabled;
    AfterPrefix(funcs, steps, i + 1);
    assert steps[..i + 1][..i] == steps[..i];
  }

  /** From an empty store and an index with its functions registered first: after any interleaving that comes to rest,
      if each kind was run once, Lookup finds, once each, exactly the objects of the kind that its informer would have
      gathered alone and whose field has the value. */
  method Serve(regs: seq<IndexRuns.Op>, steps: seq<Step>, hash: Node -> uint64, render: Value -> string,
               gvk: GroupVersionKind, field: string, value: string)
    returns (store: DedupStore, result: seq<ObjectKey>)
    requires IndexRuns.Registering(regs) && After(IndexRuns.Registrations(regs), steps).Some?
    ensures store.Valid() && store.A().objs == After(IndexRuns.Registrations(regs), steps).value.objs
    ensures forall i, j :: 0 <= i < j < |result| ==> result[i] != result[j]
    ensures var funcs := IndexRuns.Registrations(regs); var s := After(funcs, steps).value;
            forall k: ObjectKey :: k in result <==> k.gvk == gvk && Wanted(s.latest, k, field, value)
    ensures var funcs := IndexRuns.Registrations(regs); var s := After(funcs, steps).value;
            s.pending == map[] && OneEach(RunsIn(steps)) ==>
              forall k: ObjectKey :: k in result <==>
                && k.gvk == gvk && k in Alone(s, gvk)
                && field in FuncsFor(funcs, gvk) && value in FuncsFor(funcs, gvk)[field](Alone(s, gvk)[k])
  {
    hide HeapOk, Rooted, Meaning, UpToDate, Inverse, NoEmptySets, Do, After, Alone, Wanted, OneEach, RunsIn;
    hide IndexRuns.Run;
    store := new DedupStore(hash, render);
    var indexer := new Indexer();
    IndexRuns.Perform(indexer, regs);
    IndexRuns.NothingIndexed(regs);
    ghost var funcs := indexer.funcs;
    Execute(store, indexer, steps);
    result := indexer.Lookup(gvk, field, value);
    ghost var s := After(funcs, steps).value;
    ByRunsIn(steps);
    if s.pending == map[] && OneEach(RunsIn(steps)) { QuiescentAgrees(funcs, steps, s, RunsIn(steps)); }
  }

  ghost function RunsIn(steps: seq<Step>): iset<Run> {
    iset i | 0 <= i < |steps| && (steps[i].ToStore? || steps[i].ToIndex?) :: steps[i].run
  }

  lemma ByRunsIn(steps: seq<Step>)
    ensures By(steps, RunsIn(steps))
  {
  }
}
