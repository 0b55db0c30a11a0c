/** cache/informer.go: list and watch over the store, the field index and the handlers. */
module Informers {
  import opened Values
  import opened Plain
  import opened Unstructured
  import opened Heaps
  import opened Decomposing
  import opened Meanings
  import opened Refcounts
  import opened DedupStores
  import opened Indexes
  import opened Inputs
  import opened Sessions

  datatype Note =
    | OnAdd(obj: map<string, Raw>)
    | OnUpdate(was: Value, obj: map<string, Raw>)
    | OnDelete(obj: map<string, Raw>)

  class GVKInformer {
    const gvk: GroupVersionKind
    const store: DedupStore
    const indexer: Indexer
    var handlers: nat
    var log: seq<(nat, Note)>
    var hasSynced: bool

    ghost function StoreFrame(): set<object> {
      {store, store.values, store.subtrees, indexer}
    }

    /** Clients write the store too, so nothing more than this can be relied on when a step begins. */
    ghost predicate Valid()
      reads StoreFrame()
    {
      store.Valid() && indexer.Valid()
    }

    ghost function Now(): Held
      reads StoreFrame()
    {
      Held(store.A().objs, indexer.latest)
    }

    constructor (gvk: GroupVersionKind, store: DedupStore, indexer: Indexer)
      ensures this.gvk == gvk && this.store == store && this.indexer == indexer
      ensures handlers == 0 && log == [] && !hasSynced
    {
      this.gvk, this.store, this.indexer := gvk, store, indexer;
      handlers, log, hasSynced := 0, [], false;
    }

    method AddEventHandler()
      modifies this`handlers
      ensures handlers == old(handlers) + 1
    {
      handlers := handlers + 1;
    }

    /** Stores and indexes one arriving object. */
    method Put(obj: map<string, Raw>)
      requires Valid()
      modifies StoreFrame()
      ensures Valid() && indexer.funcs == old(indexer.funcs)
      ensures Now() == Changed(old(Now()), indexer.funcs, Sets(ArrivingKey(gvk, obj), obj))
      ensures old(OwnKeys(Now().objs)) && Tidy(obj) ==> OwnKeys(Now().objs)
      ensures forall namespace, name :: Named(obj, namespace, name) ==>
                && Lookup(Now().objs, ObjectKey(gvk, namespace, name)) == Some(Canon(RawMap(obj)))
                && PostingAt(Now().latest, ObjectKey(gvk, namespace, name)) ==
                     Some(Posting(RawMap(obj), FuncsFor(indexer.funcs, gvk)))
    {
      hide OwnKeys, Plainly, HeapOk, Rooted, Meaning, Canon, Upserted, UpToDate, Inverse, NoEmptySets;
      hide Returns, Fits, Lookup, Decomposed, Vals, Scals, DedupStore.CountsExact;
      ArriveOwnKey(store.A().objs, gvk, obj);
      KeysAreNamed(gvk, obj);
      SetsHolds(Now(), indexer.funcs, gvk, obj);
      UpsertedObjects(store.A(), ArrivingKey(gvk, obj), Canon(RawMap(obj)));
      store.Upsert(ArrivingKey(gvk, obj), obj);
      assert indexer.Valid() && indexer.latest == old(indexer.latest);
      indexer.UpdateIndex(ArrivingKey(gvk, obj), RawMap(obj));
      assert store.Valid();
    }

    method Drop(key: ObjectKey)
      requires Valid()
      modifies StoreFrame()
      ensures Valid() && indexer.funcs == old(indexer.funcs)
      ensures Now() == Changed(old(Now()), indexer.funcs, Clears(key))
      ensures old(OwnKeys(Now().objs)) ==> OwnKeys(Now().objs)
    {
      hide HeapOk, Rooted, Meaning, Canon, UpToDate, Inverse, NoEmptySets, OwnKeys;
      FewerOwnKeys(store.A().objs, key);
      store.Delete(key);
      assert indexer.Valid() && indexer.latest == old(indexer.latest);
      indexer.RemoveIndex(key);
      assert store.Valid();
    }

    /** The list call: None stands for an API error. Objects that are no longer listed stay. */
    method List(items: Option<seq<map<string, Raw>>>) returns (ok: bool)
      requires Valid()
      modifies StoreFrame()
      ensures Valid() && indexer.funcs == old(indexer.funcs) && ok == items.Some?
      ensures Now() == Fold(old(Now()), indexer.funcs, Changes(gvk, Listing(Items(items))))
      ensures old(OwnKeys(Now().objs)) && AllTidy(Changes(gvk, Listing(Items(items)))) ==> OwnKeys(Now().objs)
    {
      hide HeapOk, Rooted, Meaning, Canon, UpToDate, Inverse, NoEmptySets, Changed, OwnKeys, AllTidy;
      hide DedupStore.Valid, Indexer.Valid;
      ghost var h, inputs := Now(), Listing(Items(items));
      OwnKeysAfter(gvk, h, indexer.funcs, inputs);
      if items.None? {
        NoItems(h, indexer.funcs, gvk);
        return false;
      }
      ghost var cs := Changes(gvk, inputs);
      var i := 0;
      while i < |items.value|
        invariant 0 <= i <= |items.value|
        invariant Valid() && indexer.funcs == old(indexer.funcs)
        invariant Now() == Fold(h, indexer.funcs, cs[..i])
      {
        assert cs[..i + 1] == cs[..i] + [cs[i]];
        FoldOne(h, indexer.funcs, cs[..i], cs[i]);
        Put(items.value[i]);
        i := i + 1;
      }
      assert cs[..|cs|] == cs;
      ok := true;
    }

    /** Calls every handler in turn. */
    method Notify(note: Note)
      modifies this`log
      ensures old(log) <= log && |log| == |old(log)| + handlers
      ensures forall i :: |old(log)| <= i < |log| ==> log[i] == (i - |old(log)|, note)
      ensures forall i :: 0 <= i < handlers ==> Mirror(gvk, log, i) == Heard(gvk, Mirror(gvk, old(log), i), note)
    {
      hide Heard;
      var i := 0;
      while i < handlers
        invariant 0 <= i <= handlers
        invariant old(log) <= log && |log| == |old(log)| + i
        invariant forall j :: |old(log)| <= j < |log| ==> log[j] == (j - |old(log)|, note)
        invariant forall j :: 0 <= j < handlers ==>
                    Mirror(gvk, log, j) ==
                      if j < i then Heard(gvk, Mirror(gvk, old(log), j), note) else Mirror(gvk, old(log), j)
      {
        MirrorOne(gvk, log, (i, note));
        log := log + [(i, note)];
        i := i + 1;
      }
    }

    /** Bookmarks and unknown events pass without effect; an error, or an event that carries a foreign object, breaks
        the watch. Every handler is told of an addition, modification or deletion, the i-th by the i-th call. */
    method HandleEvent(e: Event) returns (ok: bool)
      requires Valid()
      modifies this`log, StoreFrame()
      ensures Valid() && indexer.funcs == old(indexer.funcs)
      ensures ok <==> e.kind in {Bookmark, OtherType} || (e.kind in {Added, Modified, Deleted} && e.obj.Some?)
      ensures Now() == Changed(old(Now()), indexer.funcs, ChangeOf(gvk, Watched(e)))
      ensures e.kind in {Added, Modified} && e.obj.Some? ==>
                forall namespace, name :: Named(e.obj.value, namespace, name) ==>
                  Lookup(Now().objs, ObjectKey(gvk, namespace, name)) == Some(Canon(RawMap(e.obj.value)))
      ensures e.kind == Deleted && e.obj.Some? ==>
                forall namespace, name :: Named(e.obj.value, namespace, name) ==>
                  Lookup(Now().objs, ObjectKey(gvk, namespace, name)) == None
      ensures old(OwnKeys(Now().objs)) && AllTidy([ChangeOf(gvk, Watched(e))]) ==> OwnKeys(Now().objs)
      ensures old(log) <= log
      ensures |log| == |old(log)| + if e.kind in {Added, Modified, Deleted} && e.obj.Some? then handlers else 0
      ensures forall i :: |old(log)| <= i < |log| ==>
                && e.obj.Some?
                && log[i].0 == i - |old(log)|
                && (e.kind == Deleted ==> log[i].1 == OnDelete(e.obj.value))
                && (e.kind == Added ==> log[i].1 == OnAdd(e.obj.value))
                && (e.kind == Modified ==>
                      match Lookup(old(Now().objs), ArrivingKey(gvk, e.obj.value))
                      case Some(was) => log[i].1 == OnUpdate(was, e.obj.value)
                      case None => log[i].1 == OnAdd(e.obj.value))
      ensures forall i :: 0 <= i < handlers ==>
                Mirror(gvk, log, i) == Arrives(Mirror(gvk, old(log), i), ChangeOf(gvk, Watched(e)))
    {
      hide HeapOk, Rooted, Meaning, Canon, UpToDate, Inverse, NoEmptySets, OwnKeys, Plainly, Mirror, Named, Lookup;
      hide DedupStore.Valid, Indexer.Valid;
      if e.kind == Bookmark || e.kind == OtherType {
        return true;
      }
      if e.kind == Error || e.obj.None? {
        return false;
      }
      var obj := e.obj.value;
      var key := ArrivingKey(gvk, obj);
      assert e.kind != Deleted ==> [ChangeOf(gvk, Watched(e))][0] == Sets(key, obj);
      if e.kind == Deleted {
        KeysAreNamed(gvk, obj);
        GoneAfter(store.A().objs, key);
        Drop(key);
        Notify(OnDelete(obj));
      } else {
        var was: Option<Value> := None;
        if e.kind == Modified {
          was := store.Get(key);
        }
        Put(obj);
        Notify(if was.Some? then OnUpdate(was.value, obj) else OnAdd(obj));
      }
      ok := true;
    }

    /** Handles the events in order until one fails or the channel closes. */
    method WatchLoop(events: seq<Event>) returns (handled: nat)
      requires Valid()
      modifies this`log, StoreFrame()
      ensures Valid() && indexer.funcs == old(indexer.funcs)
      ensures handled <= |events| && events[..handled] == Handled(events)
      ensures Now() == Fold(old(Now()), indexer.funcs, Changes(gvk, Watching(Handled(events))))
      ensures old(OwnKeys(Now().objs)) && AllTidy(Changes(gvk, Watching(Handled(events)))) ==> OwnKeys(Now().objs)
      ensures old(log) <= log && forall i :: |old(log)| <= i < |log| ==> log[i].0 < handlers
      ensures forall i :: 0 <= i < handlers ==>
                Mirror(gvk, log, i) == ArriveAll(Mirror(gvk, old(log), i), Changes(gvk, Watching(Handled(events))))
    {
      hide HeapOk, Rooted, Meaning, Canon, UpToDate, Inverse, NoEmptySets, Changed, ChangeOf, Fails, Mirror, Arrives;
      hide DedupStore.Valid, DedupStore.A, Indexer.Valid, Fold, ArriveAll, Named, Lookup;
      hide OwnKeys, AllTidy;
      ghost var h, inputs := Now(), Watching(events);
      ghost var cs := Changes(gvk, inputs);
      var going := true;
      handled := 0;
      NothingYet(h, indexer.funcs);
      while going && handled < |events|
        invariant handled <= |events| && (going || handled < |events|)
        invariant Valid() && indexer.funcs == old(indexer.funcs)
        invariant forall i :: 0 <= i < handled ==> !Fails(events[i])
        invariant !going ==> Fails(events[handled])
        invariant Now() == Fold(h, indexer.funcs, cs[..handled])
        invariant old(log) <= log && forall i :: |old(log)| <= i < |log| ==> log[i].0 < handlers
        invariant forall i :: 0 <= i < handlers ==>
                    Mirror(gvk, log, i) == ArriveAll(Mirror(gvk, old(log), i), cs[..handled])
        decreases |events| - handled, going
      {
        assert cs[..handled + 1] == cs[..handled] + [cs[handled]];
        FoldOne(h, indexer.funcs, cs[..handled], cs[handled]);
        ArriveOne(cs[..handled], cs[handled]);
        PassesIff(events[handled]);
        FailedChangesNothing(gvk, Now(), indexer.funcs, events[handled]);
        going := HandleEvent(events[handled]);
        if going {
          handled := handled + 1;
        }
      }
      HandledIs(events, handled);
      assert cs[..handled] == Changes(gvk, Watching(Handled(events)));
      OwnKeysAfter(gvk, h, indexer.funcs, Watching(Handled(events)));
    }

    /** The whole life of an informer: if the first list succeeds, a watch, and then for every further session a
        re-list, whose failure changes nothing, and a new watch. */
    method Run(first: Session, more: seq<Session>) returns (ok: bool)
      requires Valid()
      modifies this`log, this`hasSynced, StoreFrame()
      ensures Valid() && indexer.funcs == old(indexer.funcs) && ok == first.listing.Some?
      ensures hasSynced == (old(hasSynced) || ok)
      ensures Now() == Fold(old(Now()), indexer.funcs, RunChanges(gvk, if ok then [first] + more else []))
      ensures old(OwnKeys(Now().objs)) && AllTidy(RunChanges(gvk, if ok then [first] + more else [])) ==>
                OwnKeys(Now().objs)
      ensures old(log) <= log && forall i :: |old(log)| <= i < |log| ==> log[i].0 < handlers
      ensures forall i :: 0 <= i < handlers ==>
                Mirror(gvk, log, i) ==
                  ArriveAll(Mirror(gvk, old(log), i), WatchedChanges(gvk, if ok then [first] + more else []))
    {
      hide HeapOk, Rooted, Meaning, Canon, UpToDate, Inverse, NoEmptySets, Changed, Changes, OwnKeys, AllTidy, Mirror;
      hide Handled, RunInputs, SessionInputs, Fold, Items, Listing, Watching, RunChanges, ArriveAll, WatchedInputs;
      hide WatchedChanges;
      hide DedupStore.Valid, DedupStore.A, Indexer.Valid;
      ghost var h, funcs := Now(), indexer.funcs;
      NothingRun(h, funcs, gvk);
      ghost var n, before := handlers, log;
      ghost var mirrors := seq(n, i requires 0 <= i < n => Mirror(gvk, before, i));
      forall i | 0 <= i < n
        ensures mirrors[i] == Mirror(gvk, before, i) == ArriveAll(Mirror(gvk, before, i), WatchedChanges(gvk, []))
      {
        NothingWatched(gvk, mirrors[i]);
      }
      ok := List(first.listing);
      if !ok {
        NoItems(h, funcs, gvk);
        return;
      }
      hasSynced := true;
      var _ := WatchLoop(first.events);
      OneSession(h, funcs, gvk, [], first);
      OneWatch(gvk, mirrors, [], first);
      assert [] + [first] == [first] && [first] + more[..0] == [first];
      var i := 0;
      while i < |more|
        invariant 0 <= i <= |more| && hasSynced
        invariant Valid() && indexer.funcs == funcs
        invariant Now() == Fold(h, funcs, RunChanges(gvk, [first] + more[..i]))
        invariant old(log) <= log && forall j :: |old(log)| <= j < |log| ==> log[j].0 < handlers
        invariant forall j :: 0 <= j < handlers ==>
                    Mirror(gvk, log, j) == ArriveAll(mirrors[j], WatchedChanges(gvk, [first] + more[..i]))
      {
        var _ := List(more[i].listing);
        var _ := WatchLoop(more[i].events);
        OneSession(h, funcs, gvk, [first] + more[..i], more[i]);
        OneWatch(gvk, mirrors, [first] + more[..i], more[i]);
        assert [first] + more[..i] + [more[i]] == [first] + more[..i + 1];
        i := i + 1;
      }
      assert more[..|more|] == more;
      OwnKeysAfterRun(gvk, h, funcs, [first] + more);
    }
  }

  // ---------- what handlers make of what they are told ----------

  /** What is left of a handler's picture of the kind after one more note. */
  ghost function Heard(gvk: GroupVersionKind, a: Arrivals, note: Note): Arrivals {
    match note
    case OnAdd(obj) => a[ArrivingKey(gvk, obj) := RawMap(obj)]
    case OnUpdate(_, obj) => a[ArrivingKey(gvk, obj) := RawMap(obj)]
    case OnDelete(obj) => a - {ArrivingKey(gvk, obj)}
  }

  /** The picture the i-th handler has after all it was told. */
  ghost function Mirror(gvk: GroupVersionKind, log: seq<(nat, Note)>, i: nat): Arrivals {
    if log == [] then map[]
    else
      var before, last := Mirror(gvk, log[..|log| - 1], i), log[|log| - 1];
      if last.0 == i then Heard(gvk, before, last.1) else before
  }

  lemma MirrorOne(gvk: GroupVersionKind, log: seq<(nat, Note)>, entry: (nat, Note))
    ensures forall i: nat :: Mirror(gvk, log + [entry], i) ==
              if entry.0 == i then Heard(gvk, Mirror(gvk, log, i), entry.1) else Mirror(gvk, log, i)
  {
    assert (log + [entry])[..|log|] == log;
  }

  ghost function WatchedChanges(gvk: GroupVersionKind, sessions: seq<Session>): seq<Change> {
    Changes(gvk, WatchedInputs(sessions))
  }

  lemma NothingWatched(gvk: GroupVersionKind, a: Arrivals)
    ensures ArriveAll(a, WatchedChanges(gvk, [])) == a
  {
  }

  lemma NothingYet(h: Held, funcs: FuncMap)
    ensures Fold(h, funcs, []) == h && forall a :: ArriveAll(a, []) == a
  {
  }

  lemma ArriveOne(cs: seq<Change>, c: Change)
    ensures forall a :: ArriveAll(a, cs + [c]) == Arrives(ArriveAll(a, cs), c)
  {
    assert (cs + [c])[..|cs|] == cs;
  }

  lemma {:induction false} ArriveAppend(a: Arrivals, b: seq<Change>, c: seq<Change>)
    ensures ArriveAll(a, b + c) == ArriveAll(ArriveAll(a, b), c)
  {
    hide Arrives;
    if c == [] {
      assert b + c == b;
    } else {
      assert (b + c)[..|b + c| - 1] == b + c[..|c| - 1];
      ArriveAppend(a, b, c[..|c| - 1]);
    }
  }

  lemma OneWatch(gvk: GroupVersionKind, mirrors: seq<Arrivals>, sessions: seq<Session>, s: Session)
    ensures forall i :: 0 <= i < |mirrors| ==>
              ArriveAll(ArriveAll(mirrors[i], WatchedChanges(gvk, sessions)), Changes(gvk, Watching(Handled(s.events))))
              == ArriveAll(mirrors[i], WatchedChanges(gvk, sessions + [s]))
  {
    hide ArriveAll, Changes;
    WatchedInputsOne(sessions, s);
    ChangesAppend(gvk, WatchedInputs(sessions), Watching(Handled(s.events)));
    forall i | 0 <= i < |mirrors|
      ensures ArriveAll(ArriveAll(mirrors[i], WatchedChanges(gvk, sessions)),
                        Changes(gvk, Watching(Handled(s.events)))) ==
              ArriveAll(mirrors[i], WatchedChanges(gvk, sessions + [s]))
    {
      ArriveAppend(mirrors[i], WatchedChanges(gvk, sessions), Changes(gvk, Watching(Handled(s.events))));
    }
  }

  lemma KeysAreNamed(gvk: GroupVersionKind, obj: map<string, Raw>)
    ensures forall namespace, name :: Named(obj, namespace, name) ==>
              ArrivingKey(gvk, obj) == ObjectKey(gvk, namespace, name)
  {
    forall namespace, name | Named(obj, namespace, name)
      ensures ArrivingKey(gvk, obj) == ObjectKey(gvk, namespace, name)
    {
      KeyIsNamed(gvk, obj, namespace, name);
    }
  }

  lemma SetsHolds(h: Held, funcs: FuncMap, gvk: GroupVersionKind, obj: map<string, Raw>)
    ensures var k, r := ArrivingKey(gvk, obj), Changed(h, funcs, Sets(ArrivingKey(gvk, obj), obj));
            && Lookup(r.objs, k) == Some(Canon(RawMap(obj)))
            && PostingAt(r.latest, k) == Some(Posting(RawMap(obj), FuncsFor(funcs, gvk)))
  {
  }

  lemma GoneAfter(objs: Objects, key: ObjectKey)
    ensures Lookup(objs - {key}, key) == None
  {
  }

  lemma FailedChangesNothing(gvk: GroupVersionKind, h: Held, funcs: FuncMap, e: Event)
    ensures Fails(e) ==> Changed(h, funcs, ChangeOf(gvk, Watched(e))) == h
    ensures Fails(e) ==> forall a :: Arrives(a, ChangeOf(gvk, Watched(e))) == a
  {
  }

  lemma OwnKeysAfter(gvk: GroupVersionKind, h: Held, funcs: FuncMap, inputs: seq<Input>)
    ensures OwnKeys(h.objs) && AllTidy(Changes(gvk, inputs)) ==> OwnKeys(Fold(h, funcs, Changes(gvk, inputs)).objs)
  {
    ChangesUnderOwn(gvk, inputs);
    FoldOwnKeys(h, funcs, Changes(gvk, inputs));
  }

  lemma OwnKeysAfterRun(gvk: GroupVersionKind, h: Held, funcs: FuncMap, sessions: seq<Session>)
    ensures OwnKeys(h.objs) && AllTidy(RunChanges(gvk, sessions)) ==>
              OwnKeys(Fold(h, funcs, RunChanges(gvk, sessions)).objs)
  {
    OwnKeysAfter(gvk, h, funcs, RunInputs(sessions));
  }

  lemma NothingRun(h: Held, funcs: FuncMap, gvk: GroupVersionKind)
    ensures Fold(h, funcs, RunChanges(gvk, [])) == h
  {
  }

  lemma NoItems(h: Held, funcs: FuncMap, gvk: GroupVersionKind)
    ensures Fold(h, funcs, Changes(gvk, Listing(Items(None)))) == h
  {
  }

  /** A list and a watch take the fold of some sessions to that of one more. */
  lemma OneSession(h: Held, funcs: FuncMap, gvk: GroupVersionKind, sessions: seq<Session>, s: Session)
    ensures Fold(Fold(Fold(h, funcs, RunChanges(gvk, sessions)), funcs, Changes(gvk, Listing(Items(s.listing)))), funcs,
                 Changes(gvk, Watching(Handled(s.events)))) ==
            Fold(h, funcs, RunChanges(gvk, sessions + [s]))
  {
    hide Fold, Changes;
    var a, b, c := RunInputs(sessions), Listing(Items(s.listing)), Watching(Handled(s.events));
    RunInputsOne(sessions, s);
    ChangesAppend(gvk, a, b + c);
    ChangesAppend(gvk, b, c);
    FoldAppend(h, funcs, Changes(gvk, a), Changes(gvk, b + c));
    FoldAppend(Fold(h, funcs, Changes(gvk, a)), funcs, Changes(gvk, b), Changes(gvk, c));
  }

  // ---------- from an empty store ----------

  /** Registers index functions for a kind, in any order. */
  method RegisterAll(indexer: Indexer, gvk: GroupVersionKind, fields: Funcs)
    requires indexer.Valid() && indexer.funcs == map[] && indexer.latest == map[]
    modifies indexer
    ensures indexer.Valid() && indexer.latest == map[] && indexer.Registered(gvk) == fields
  {
    var todo := fields.Keys;
    while todo != {}
      invariant indexer.Valid() && indexer.latest == map[] && todo <= fields.Keys
      invariant forall f :: f in indexer.Registered(gvk) <==> f in fields && f !in todo
      invariant forall f :: f in indexer.Registered(gvk) ==> indexer.Registered(gvk)[f] == fields[f]
      decreases todo
    {
      var f :| f in todo;
      var ok := indexer.AddIndex(gvk, f, fields[f]);
      assert ok;
      todo := todo - {f};
    }
    assert indexer.Registered(gvk) == fields;
  }

  /** From an empty store and an empty index, with the index functions registered first: after any sessions the store
      holds, in canonical form, what arrived last under each key and was not deleted since, and Lookup finds exactly
      those of its objects whose field has the value. */
  method FromEmpty(gvk: GroupVersionKind, fields: Funcs, first: Session, more: seq<Session>, hash: Node -> uint64,
                   render: Value -> string, field: string, value: string)
    returns (store: DedupStore, result: seq<ObjectKey>)
    ensures store.Valid()
    ensures var cs := RunChanges(gvk, if first.listing.Some? then [first] + more else []);
            && store.A().objs == Stored(ArriveAll(map[], cs))
            && (AllTidy(cs) ==> OwnKeys(store.A().objs))
    ensures forall i, j :: 0 <= i < j < |result| ==> result[i] != result[j]
    ensures var held := ArriveAll(map[], RunChanges(gvk, if first.listing.Some? then [first] + more else []));
            forall k :: k in result <==>
              k.gvk == gvk && k in held && field in fields && value in fields[field](held[k])
  {
    hide HeapOk, Rooted, Meaning, Canon, UpToDate, Inverse, NoEmptySets, Fold, ArriveAll, Matches, Wanted, OwnKeys;
    hide AllTidy, Changes, Stored, RunInputs;
    store := new DedupStore(hash, render);
    var indexer := new Indexer();
    RegisterAll(indexer, gvk, fields);
    var informer := new GVKInformer(gvk, store, indexer);
    var ok := informer.Run(first, more);
    result := indexer.Lookup(gvk, field, value);
    ghost var cs, h, funcs := RunChanges(gvk, if ok then [first] + more else []), informer.Now(), indexer.funcs;
    EmptyMatches(funcs);
    FoldMatches(Held(map[], map[]), funcs, map[], cs);
    MatchesIsStored(h, funcs, ArriveAll(map[], cs));
    WantedIs(h, funcs, ArriveAll(map[], cs), gvk, fields, field, value);
  }

  lemma EmptyMatches(funcs: FuncMap)
    ensures Matches(Held(map[], map[]), funcs, map[]) && OwnKeys(map[])
  {
  }

  lemma WantedIs(h: Held, funcs: FuncMap, a: Arrivals, gvk: GroupVersionKind, fields: Funcs, field: string,
      value: string)
    requires Matches(h, funcs, a) && FuncsFor(funcs, gvk) == fields
    ensures forall k: ObjectKey :: k.gvk == gvk && Wanted(h.latest, k, field, value) <==>
              k.gvk == gvk && k in a && field in fields && value in fields[field](a[k])
  {
    hide Canon;
    forall k: ObjectKey | k.gvk == gvk
      ensures Wanted(h.latest, k, field, value) <==> k in a && field in fields && value in fields[field](a[k])
    {
      LookupMatchesStore(h, funcs, a, k, field, value);
    }
  }
}
