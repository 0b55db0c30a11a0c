/** What reaches an informer, listed objects and watch events, and what it makes of store and index. */
module Inputs {
  import opened Values
  import opened Plain
  import opened Unstructured
  import opened Indexes

  datatype EventType = Added | Modified | Deleted | Bookmark | Error | OtherType

  /** A watch event; `obj` is None when it carries something else than an Unstructured. */
  datatype Event = Event(kind: EventType, obj: Option<map<string, Raw>>)

  datatype Input = Listed(obj: map<string, Raw>) | Watched(e: Event)

  /** What an input asks for. */
  datatype Change = Sets(key: ObjectKey, obj: map<string, Raw>) | Clears(key: ObjectKey) | Nothing

  predicate Fails(e: Event) {
    e.kind == Error || (e.kind in {Added, Modified, Deleted} && e.obj.None?)
  }

  function ChangeOf(gvk: GroupVersionKind, x: Input): Change {
    match x
    case Listed(obj) => Sets(ArrivingKey(gvk, obj), obj)
    case Watched(e) =>
      if Fails(e) || e.kind in {Bookmark, OtherType} then Nothing
      else if e.kind == Deleted then Clears(ArrivingKey(gvk, e.obj.value))
      else Sets(ArrivingKey(gvk, e.obj.value), e.obj.value)
  }

  ghost function Changes(gvk: GroupVersionKind, inputs: seq<Input>): seq<Change> {
    seq(|inputs|, i requires 0 <= i < |inputs| => ChangeOf(gvk, inputs[i]))
  }

  lemma ChangesAppend(gvk: GroupVersionKind, a: seq<Input>, b: seq<Input>)
    ensures Changes(gvk, a + b) == Changes(gvk, a) + Changes(gvk, b)
  {
  }

  // ---------- store and index under changes ----------

  /** What the store holds and what the index was told last. */
  datatype Held = Held(objs: Objects, latest: map<ObjectKey, Posting>)

  type FuncMap = map<GroupVersionKind, Funcs>

  ghost function Changed(h: Held, funcs: FuncMap, c: Change): Held {
    match c
    case Sets(key, obj) =>
      Held(h.objs[key := Canon(RawMap(obj))], h.latest[key := Posting(RawMap(obj), FuncsFor(funcs, key.gvk))])
    case Clears(key) => Held(h.objs - {key}, h.latest - {key})
    case Nothing => h
  }

  ghost function Fold(h: Held, funcs: FuncMap, cs: seq<Change>): Held {
    if cs == [] then h else Changed(Fold(h, funcs, cs[..|cs| - 1]), funcs, cs[|cs| - 1])
  }

  lemma FoldOne(h: Held, funcs: FuncMap, cs: seq<Change>, c: Change)
    ensures Fold(h, funcs, cs + [c]) == Changed(Fold(h, funcs, cs), funcs, c)
  {
    assert (cs + [c])[..|cs|] == cs;
  }

  lemma {:induction false} FoldAppend(h: Held, funcs: FuncMap, a: seq<Change>, b: seq<Change>)
    ensures Fold(h, funcs, a + b) == Fold(Fold(h, funcs, a), funcs, b)
  {
    hide Changed;
    if b == [] {
      assert a + b == a;
    } else {
      assert (a + b)[..|a + b| - 1] == a + b[..|b| - 1];
      FoldAppend(h, funcs, a, b[..|b| - 1]);
    }
  }

  // ---------- what one event does ----------

  /** The event is about the key: it adds, modifies or deletes an object that carries it. */
  ghost predicate About(gvk: GroupVersionKind, e: Event, k: ObjectKey) {
    e.kind in {Added, Modified, Deleted} && e.obj.Some? && ArrivingKey(gvk, e.obj.value) == k
  }

  /** The watch goes on after the event: it is none of errors and foreign objects. */
  ghost predicate Passes(e: Event) {
    e.kind in {Bookmark, OtherType} || (e.kind in {Added, Modified, Deleted} && e.obj.Some?)
  }

  lemma PassesIff(e: Event)
    ensures Passes(e) <==> !Fails(e)
  {
  }

  lemma AboutIff(gvk: GroupVersionKind, e: Event, k: ObjectKey)
    ensures About(gvk, e, k) <==> Touches(ChangeOf(gvk, Watched(e)), k)
  {
  }

  /** An addition or a modification leaves the object in the store, in canonical form, and in the index, as it arrived;
      a deletion leaves it in neither; a bookmark, an error or a foreign object changes nothing. */
  lemma EventDoes(gvk: GroupVersionKind, h: Held, funcs: FuncMap, cs: seq<Change>, e: Event)
    ensures var was, r := Fold(h, funcs, cs), Fold(h, funcs, cs + [ChangeOf(gvk, Watched(e))]);
            && (e.kind in {Added, Modified} && e.obj.Some? ==>
                  && Lookup(r.objs, ArrivingKey(gvk, e.obj.value)) == Some(Canon(RawMap(e.obj.value)))
                  && PostingAt(r.latest, ArrivingKey(gvk, e.obj.value)) ==
                       Some(Posting(RawMap(e.obj.value), FuncsFor(funcs, gvk))))
            && (e.kind == Deleted && e.obj.Some? ==>
                  && Lookup(r.objs, ArrivingKey(gvk, e.obj.value)) == None
                  && PostingAt(r.latest, ArrivingKey(gvk, e.obj.value)) == None)
            && forall k :: !About(gvk, e, k) ==>
                 Lookup(r.objs, k) == Lookup(was.objs, k) && PostingAt(r.latest, k) == PostingAt(was.latest, k)
  {
    hide Canon;
    FoldOne(h, funcs, cs, ChangeOf(gvk, Watched(e)));
  }

  // ---------- the last change of a key decides ----------

  predicate Touches(c: Change, k: ObjectKey) {
    !c.Nothing? && c.key == k
  }

  function LastOn(cs: seq<Change>, k: ObjectKey): Option<Change> {
    if cs == [] then None
    else if Touches(cs[|cs| - 1], k) then Some(cs[|cs| - 1])
    else LastOn(cs[..|cs| - 1], k)
  }

  /** It is what it is called. */
  lemma {:induction false} LastOnIs(cs: seq<Change>, k: ObjectKey)
    ensures LastOn(cs, k).None? <==> forall i :: 0 <= i < |cs| ==> !Touches(cs[i], k)
    ensures forall i :: 0 <= i < |cs| && Touches(cs[i], k) && (forall j :: i < j < |cs| ==> !Touches(cs[j], k)) ==>
              LastOn(cs, k) == Some(cs[i])
  {
    if cs != [] {
      var pre := cs[..|cs| - 1];
      LastOnIs(pre, k);
      assert forall i :: 0 <= i < |pre| ==> pre[i] == cs[i];
    }
  }

  lemma LastOnOne(cs: seq<Change>, c: Change, k: ObjectKey)
    ensures LastOn(cs + [c], k) == if Touches(c, k) then Some(c) else LastOn(cs, k)
  {
    assert (cs + [c])[..|cs|] == cs;
  }

  lemma {:induction false} LastOnAppend(a: seq<Change>, b: seq<Change>, k: ObjectKey)
    ensures LastOn(a + b, k) == if LastOn(b, k).Some? then LastOn(b, k) else LastOn(a, k)
  {
    if b == [] {
      assert a + b == a;
    } else {
      assert (a + b)[..|a + b| - 1] == a + b[..|b| - 1];
      LastOnAppend(a, b[..|b| - 1], k);
    }
  }

  ghost function PostingAt(latest: map<ObjectKey, Posting>, k: ObjectKey): Option<Posting> {
    if k in latest then Some(latest[k]) else None
  }

  ghost function ObjectOf(c: Change): Option<Value> {
    if c.Sets? then Some(Canon(RawMap(c.obj))) else None
  }

  ghost function PostingOf(funcs: FuncMap, c: Change): Option<Posting> {
    if c.Sets? then Some(Posting(RawMap(c.obj), FuncsFor(funcs, c.key.gvk))) else None
  }

  /** Whatever was there before, store and index hold for a key what its last change says, and are as they were if
      there was none. */
  lemma {:induction false} LastDecides(h: Held, funcs: FuncMap, cs: seq<Change>, k: ObjectKey)
    ensures var r, c := Fold(h, funcs, cs), LastOn(cs, k);
            && Lookup(r.objs, k) == (if c.Some? then ObjectOf(c.value) else Lookup(h.objs, k))
            && PostingAt(r.latest, k) == (if c.Some? then PostingOf(funcs, c.value) else PostingAt(h.latest, k))
  {
    hide Canon;
    if cs != [] {
      LastDecides(h, funcs, cs[..|cs| - 1], k);
    }
  }

  // ---------- store and index agree ----------

  type Arrivals = map<ObjectKey, Raw>

  /** Store and index hold the same objects: the store their canonical form, the index the objects as they arrived. */
  ghost predicate Agree(objs: Objects, latest: map<ObjectKey, Posting>) {
    objs.Keys == latest.Keys && forall k :: k in objs ==> objs[k] == Canon(latest[k].obj)
  }

  /** Every object was indexed with the functions registered now. */
  ghost predicate Current(latest: map<ObjectKey, Posting>, funcs: FuncMap) {
    forall k :: k in latest ==> latest[k].funcs == FuncsFor(funcs, k.gvk)
  }

  ghost function Arrived(latest: map<ObjectKey, Posting>): Arrivals {
    map k | k in latest :: latest[k].obj
  }

  ghost function Stored(a: Arrivals): Objects {
    map k | k in a :: Canon(a[k])
  }

  ghost function Arrives(a: Arrivals, c: Change): Arrivals {
    match c
    case Sets(key, obj) => a[key := RawMap(obj)]
    case Clears(key) => a - {key}
    case Nothing => a
  }

  /** The objects as they arrived, by their last change. */
  ghost function ArriveAll(a: Arrivals, cs: seq<Change>): Arrivals {
    if cs == [] then a else Arrives(ArriveAll(a, cs[..|cs| - 1]), cs[|cs| - 1])
  }

  lemma {:induction false} ArrivedLast(cs: seq<Change>, k: ObjectKey)
    ensures var c, a := LastOn(cs, k), ArriveAll(map[], cs);
            (k in a <==> c.Some? && c.value.Sets?) && (k in a ==> a[k] == RawMap(c.value.obj))
  {
    if cs != [] {
      ArrivedLast(cs[..|cs| - 1], k);
    }
  }

  ghost predicate Matches(h: Held, funcs: FuncMap, a: Arrivals) {
    Agree(h.objs, h.latest) && Current(h.latest, funcs) && Arrived(h.latest) == a
  }

  lemma ChangedMatches(h: Held, funcs: FuncMap, a: Arrivals, c: Change)
    requires Matches(h, funcs, a)
    ensures Matches(Changed(h, funcs, c), funcs, Arrives(a, c))
  {
    hide Agree, Current, Arrived;
    AgreeChanged(h, funcs, c);
    ArrivedChanged(h, funcs, c);
  }

  lemma AgreeChanged(h: Held, funcs: FuncMap, c: Change)
    requires Agree(h.objs, h.latest) && Current(h.latest, funcs)
    ensures Agree(Changed(h, funcs, c).objs, Changed(h, funcs, c).latest) && Current(Changed(h, funcs, c).latest, funcs)
  {
    hide Canon;
  }

  lemma ArrivedChanged(h: Held, funcs: FuncMap, c: Change)
    ensures Arrived(Changed(h, funcs, c).latest) == Arrives(Arrived(h.latest), c)
  {
    hide Canon;
  }

  /** Changes keep store and index in agreement, and both hold what arrived. */
  lemma {:induction false} FoldMatches(h: Held, funcs: FuncMap, a: Arrivals, cs: seq<Change>)
    requires Matches(h, funcs, a)
    ensures Matches(Fold(h, funcs, cs), funcs, ArriveAll(a, cs))
  {
    hide Changed, Matches, Arrives;
    if cs != [] {
      FoldMatches(h, funcs, a, cs[..|cs| - 1]);
      ChangedMatches(Fold(h, funcs, cs[..|cs| - 1]), funcs, ArriveAll(a, cs[..|cs| - 1]), cs[|cs| - 1]);
    }
  }

  lemma MatchesIsStored(h: Held, funcs: FuncMap, a: Arrivals)
    requires Matches(h, funcs, a)
    ensures h.objs == Stored(a)
  {
    hide Canon;
  }

  /** Where store and index agree, Lookup finds exactly the stored objects of the kind that have the value among what
      the registered function gives for the object as it arrived. */
  lemma LookupMatchesStore(h: Held, funcs: FuncMap, a: Arrivals, k: ObjectKey, field: string, value: string)
    requires Matches(h, funcs, a)
    ensures Wanted(h.latest, k, field, value) <==>
            && k in h.objs && h.objs[k] == Canon(a[k])
            && field in FuncsFor(funcs, k.gvk) && value in FuncsFor(funcs, k.gvk)[field](a[k])
  {
    hide Canon;
  }

  // ---------- objects keep their own names ----------

  ghost predicate AllTidy(cs: seq<Change>) {
    forall i :: 0 <= i < |cs| && cs[i].Sets? ==> Tidy(cs[i].obj)
  }

  /** Every object is set under the key it carries. */
  ghost predicate UnderOwn(cs: seq<Change>) {
    forall i :: 0 <= i < |cs| && cs[i].Sets? ==> cs[i].key == ArrivingKey(cs[i].key.gvk, cs[i].obj)
  }

  lemma ChangesUnderOwn(gvk: GroupVersionKind, inputs: seq<Input>)
    ensures UnderOwn(Changes(gvk, inputs))
    ensures forall i :: 0 <= i < |inputs| ==> var c := Changes(gvk, inputs)[i]; !c.Nothing? ==> c.key.gvk == gvk
  {
  }

  /** Changes keep every stored object under the key it carries. */
  lemma {:induction false} FoldOwnKeys(h: Held, funcs: FuncMap, cs: seq<Change>)
    requires UnderOwn(cs)
    ensures OwnKeys(h.objs) && AllTidy(cs) ==> OwnKeys(Fold(h, funcs, cs).objs)
  {
    hide OwnKeys, Canon, Plainly;
    if cs != [] && OwnKeys(h.objs) && AllTidy(cs) {
      var pre, c := cs[..|cs| - 1], cs[|cs| - 1];
      FoldOwnKeys(h, funcs, pre);
      var r := Fold(h, funcs, pre);
      match c {
        case Sets(key, obj) => ArriveOwnKey(r.objs, key.gvk, obj);
        case Clears(key) => FewerOwnKeys(r.objs, key);
        case Nothing =>
      }
    }
  }

  // ---------- lists and re-lists ----------

  ghost function Listing(items: seq<map<string, Raw>>): seq<Input> {
    seq(|items|, i requires 0 <= i < |items| => Listed(items[i]))
  }

  ghost function Watching(events: seq<Event>): seq<Input> {
    seq(|events|, i requires 0 <= i < |events| => Watched(events[i]))
  }

  ghost predicate ListedKey(gvk: GroupVersionKind, items: seq<map<string, Raw>>, k: ObjectKey) {
    exists i :: 0 <= i < |items| && ArrivingKey(gvk, items[i]) == k
  }

  lemma {:induction false} ListLastOn(gvk: GroupVersionKind, items: seq<map<string, Raw>>, k: ObjectKey)
    ensures var c := LastOn(Changes(gvk, Listing(items)), k);
            (c.Some? <==> ListedKey(gvk, items, k)) && (c.Some? ==> c.value.Sets?)
  {
    var cs := Changes(gvk, Listing(items));
    LastOnIs(cs, k);
    if ListedKey(gvk, items, k) {
      var i :| 0 <= i < |items| && ArrivingKey(gvk, items[i]) == k;
      assert Touches(cs[i], k);
    }
    OnlySets(cs, k);
    forall i | 0 <= i < |cs| && Touches(cs[i], k) ensures ListedKey(gvk, items, k) {
      assert ArrivingKey(gvk, items[i]) == k;
    }
  }

  lemma {:induction false} OnlySets(cs: seq<Change>, k: ObjectKey)
    requires forall i :: 0 <= i < |cs| ==> cs[i].Sets?
    ensures LastOn(cs, k).Some? ==> LastOn(cs, k).value.Sets?
  {
    if cs != [] {
      OnlySets(cs[..|cs| - 1], k);
    }
  }

  /** A list never removes anything: what is there afterwards was there before or is listed. */
  lemma ListOnlyAdds(gvk: GroupVersionKind, h: Held, funcs: FuncMap, items: seq<map<string, Raw>>, k: ObjectKey)
    ensures var r := Fold(h, funcs, Changes(gvk, Listing(items)));
            && (k in r.objs <==> k in h.objs || ListedKey(gvk, items, k))
            && (!ListedKey(gvk, items, k) ==> Lookup(r.objs, k) == Lookup(h.objs, k))
  {
    ListLastOn(gvk, items, k);
    LastDecides(h, funcs, Changes(gvk, Listing(items)), k);
  }

  /** A re-list brings the kind in line with the server if and only if nothing had vanished since. */
  lemma RelistExactIff(gvk: GroupVersionKind, h: Held, funcs: FuncMap, items: seq<map<string, Raw>>)
    ensures var r := Fold(h, funcs, Changes(gvk, Listing(items)));
            (forall k :: k in r.objs && k.gvk == gvk ==> ListedKey(gvk, items, k)) <==>
            (forall k :: k in h.objs && k.gvk == gvk ==> ListedKey(gvk, items, k))
  {
    var r := Fold(h, funcs, Changes(gvk, Listing(items)));
    forall k ensures k in r.objs <==> k in h.objs || ListedKey(gvk, items, k) {
      ListOnlyAdds(gvk, h, funcs, items, k);
    }
  }
}
