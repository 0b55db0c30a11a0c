/** An informer's life: a list and a watch, then a re-list and a new watch each time the watch breaks. */
module Sessions {
  import opened Values
  import opened Plain
  import opened Unstructured
  import opened Indexes
  import opened Inputs

  /** One list call, None for an API error, and the events the watch after it sends before its channel closes. A
      watch that cannot be started sends none. */
  datatype Session = Session(listing: Option<seq<map<string, Raw>>>, events: seq<Event>)

  /** The events up to the first one that breaks the watch. */
  ghost function Handled(events: seq<Event>): seq<Event> {
    if events == [] || Fails(events[0]) then [] else [events[0]] + Handled(events[1..])
  }

  lemma {:induction false} HandledIs(events: seq<Event>, n: nat)
    requires n <= |events| && (forall i :: 0 <= i < n ==> !Fails(events[i])) && (n < |events| ==> Fails(events[n]))
    ensures Handled(events) == events[..n]
  {
    if n > 0 {
      HandledIs(events[1..], n - 1);
      assert events[..n] == [events[0]] + events[1..][..n - 1];
    }
  }

  ghost function Items(listing: Option<seq<map<string, Raw>>>): seq<map<string, Raw>> {
    if listing.Some? then listing.value else []
  }

  ghost function SessionInputs(s: Session): seq<Input> {
    Listing(Items(s.listing)) + Watching(Handled(s.events))
  }

  ghost function RunInputs(sessions: seq<Session>): seq<Input> {
    if sessions == [] then [] else RunInputs(sessions[..|sessions| - 1]) + SessionInputs(sessions[|sessions| - 1])
  }

  lemma RunInputsOne(sessions: seq<Session>, s: Session)
    ensures RunInputs(sessions + [s]) == RunInputs(sessions) + SessionInputs(s)
  {
    assert (sessions + [s])[..|sessions|] == sessions;
  }

  ghost function SessionChanges(gvk: GroupVersionKind, s: Session): seq<Change> {
    Changes(gvk, SessionInputs(s))
  }

  ghost function RunChanges(gvk: GroupVersionKind, sessions: seq<Session>): seq<Change> {
    Changes(gvk, RunInputs(sessions))
  }

  ghost predicate Untouched(gvk: GroupVersionKind, s: Session, k: ObjectKey) {
    LastOn(SessionChanges(gvk, s), k).None?
  }

  // ---------- what a run leaves, key by key ----------

  /** The last session that touched a key decides. */
  lemma {:induction false} LastSession(gvk: GroupVersionKind, sessions: seq<Session>, n: nat, k: ObjectKey)
    requires n < |sessions| && !Untouched(gvk, sessions[n], k)
    requires forall m :: n < m < |sessions| ==> Untouched(gvk, sessions[m], k)
    ensures LastOn(RunChanges(gvk, sessions), k) == LastOn(SessionChanges(gvk, sessions[n]), k)
    decreases |sessions|
  {
    hide LastOn, Changes, SessionInputs;
    var pre, last := sessions[..|sessions| - 1], sessions[|sessions| - 1];
    ChangesAppend(gvk, RunInputs(pre), SessionInputs(last));
    LastOnAppend(RunChanges(gvk, pre), SessionChanges(gvk, last), k);
    if n < |sessions| - 1 {
      assert Untouched(gvk, sessions[|sessions| - 1], k);
      LastSession(gvk, pre, n, k);
    }
  }

  lemma {:induction false} NeverTouched(gvk: GroupVersionKind, sessions: seq<Session>, k: ObjectKey)
    requires forall m :: 0 <= m < |sessions| ==> Untouched(gvk, sessions[m], k)
    ensures LastOn(RunChanges(gvk, sessions), k).None?
  {
    if sessions != [] {
      var pre, last := sessions[..|sessions| - 1], sessions[|sessions| - 1];
      NeverTouched(gvk, pre, k);
      assert Untouched(gvk, sessions[|sessions| - 1], k);
      ChangesAppend(gvk, RunInputs(pre), SessionInputs(last));
      LastOnAppend(RunChanges(gvk, pre), SessionChanges(gvk, last), k);
    }
  }

  // ---------- the same, told by the events themselves ----------

  /** The watch gets as far as event i. */
  ghost predicate Reaches(events: seq<Event>, i: int) {
    0 <= i < |events| && forall j :: 0 <= j <= i ==> Passes(events[j])
  }

  lemma {:induction false} HandledReaches(events: seq<Event>)
    ensures Handled(events) <= events
    ensures forall i :: Reaches(events, i) <==> 0 <= i < |Handled(events)|
  {
    if events != [] {
      PassesIff(events[0]);
      HandledReaches(events[1..]);
      forall i | 0 < i < |events| ensures Reaches(events, i) <==> Passes(events[0]) && Reaches(events[1..], i - 1) {
        if Reaches(events, i) { assert forall j :: 0 <= j <= i - 1 ==> events[1..][j] == events[j + 1]; }
        if Passes(events[0]) && Reaches(events[1..], i - 1) {
          assert forall j :: 0 < j <= i ==> events[j] == events[1..][j - 1];
        }
      }
    }
  }

  /** Of the events the watch gets to, none after the i-th is about the key. */
  ghost predicate QuietSince(gvk: GroupVersionKind, events: seq<Event>, i: int, k: ObjectKey) {
    forall j :: i < j && Reaches(events, j) ==> !About(gvk, events[j], k)
  }

  /** The session lists no object of the key and its watch gets to no event about it. */
  ghost predicate Quiet(gvk: GroupVersionKind, s: Session, k: ObjectKey) {
    !ListedKey(gvk, Items(s.listing), k) && QuietSince(gvk, s.events, -1, k)
  }

  lemma SessionSplit(gvk: GroupVersionKind, s: Session, k: ObjectKey)
    ensures SessionChanges(gvk, s) ==
            Changes(gvk, Listing(Items(s.listing))) + Changes(gvk, Watching(Handled(s.events)))
    ensures var c := LastOn(Changes(gvk, Watching(Handled(s.events))), k);
            LastOn(SessionChanges(gvk, s), k) ==
              if c.Some? then c else LastOn(Changes(gvk, Listing(Items(s.listing))), k)
  {
    hide LastOn, Changes;
    ChangesAppend(gvk, Listing(Items(s.listing)), Watching(Handled(s.events)));
    LastOnAppend(Changes(gvk, Listing(Items(s.listing))), Changes(gvk, Watching(Handled(s.events))), k);
  }

  /** The last event about the key, if there is one, decides what the watch leaves of it. */
  lemma WatchLastOn(gvk: GroupVersionKind, events: seq<Event>, k: ObjectKey)
    ensures var c := LastOn(Changes(gvk, Watching(Handled(events))), k);
            && (c.None? <==> QuietSince(gvk, events, -1, k))
            && forall i :: Reaches(events, i) && About(gvk, events[i], k) && QuietSince(gvk, events, i, k) ==>
                 c == Some(ChangeOf(gvk, Watched(events[i])))
  {
    hide ChangeOf, LastOn, About, Touches;
    var cs := Changes(gvk, Watching(Handled(events)));
    HandledReaches(events);
    LastOnIs(cs, k);
    forall i | 0 <= i < |cs|
      ensures cs[i] == ChangeOf(gvk, Watched(events[i])) && (About(gvk, events[i], k) <==> Touches(cs[i], k))
    {
      AboutIff(gvk, events[i], k);
    }
  }

  lemma QuietIff(gvk: GroupVersionKind, s: Session, k: ObjectKey)
    ensures Quiet(gvk, s, k) <==> Untouched(gvk, s, k)
  {
    hide LastOn, Changes, ListedKey, QuietSince;
    SessionSplit(gvk, s, k);
    WatchLastOn(gvk, s.events, k);
    ListLastOn(gvk, Items(s.listing), k);
  }

  ghost predicate QuietAfter(gvk: GroupVersionKind, sessions: seq<Session>, n: int, k: ObjectKey) {
    forall m: nat :: n < m < |sessions| ==> Quiet(gvk, sessions[m], k)
  }

  lemma SessionDecides(gvk: GroupVersionKind, h: Held, funcs: FuncMap, sessions: seq<Session>, n: nat, k: ObjectKey,
      c: Change)
    requires n < |sessions| && LastOn(SessionChanges(gvk, sessions[n]), k) == Some(c)
    requires QuietAfter(gvk, sessions, n, k)
    ensures var r := Fold(h, funcs, RunChanges(gvk, sessions));
            Lookup(r.objs, k) == ObjectOf(c) && PostingAt(r.latest, k) == PostingOf(funcs, c)
  {
    hide Canon, Fold, LastOn, Quiet, RunChanges, SessionChanges;
    forall m | n < m < |sessions| ensures Untouched(gvk, sessions[m], k) {
      assert Quiet(gvk, sessions[m], k);
      QuietIff(gvk, sessions[m], k);
    }
    LastSession(gvk, sessions, n, k);
    LastDecides(h, funcs, RunChanges(gvk, sessions), k);
  }

  /** The i-th listed object of session n is the last thing heard of its key. */
  ghost predicate LastListed(gvk: GroupVersionKind, sessions: seq<Session>, n: nat, i: nat) {
    && n < |sessions| && i < |Items(sessions[n].listing)|
    && var items := Items(sessions[n].listing);
       var k := ArrivingKey(gvk, items[i]);
       && (forall j :: i < j < |items| ==> ArrivingKey(gvk, items[j]) != k)
       && QuietSince(gvk, sessions[n].events, -1, k)
       && QuietAfter(gvk, sessions, n, k)
  }

  /** The i-th event of session n is: the watch got to it, and to none about the key after it. */
  ghost predicate LastEvent(gvk: GroupVersionKind, sessions: seq<Session>, n: nat, i: nat, k: ObjectKey) {
    && n < |sessions| && Reaches(sessions[n].events, i) && About(gvk, sessions[n].events[i], k)
    && QuietSince(gvk, sessions[n].events, i, k)
    && QuietAfter(gvk, sessions, n, k)
  }

  /** An object listed in some session, and neither listed again nor touched by an event since, is held with that
      listing, in store and index, whatever sessions follow. */
  lemma ListedIsHeld(gvk: GroupVersionKind, h: Held, funcs: FuncMap, sessions: seq<Session>, n: nat, i: nat)
    requires LastListed(gvk, sessions, n, i)
    ensures var obj := Items(sessions[n].listing)[i];
            var k, r := ArrivingKey(gvk, obj), Fold(h, funcs, RunChanges(gvk, sessions));
            && Lookup(r.objs, k) == Some(Canon(RawMap(obj)))
            && PostingAt(r.latest, k) == Some(Posting(RawMap(obj), FuncsFor(funcs, gvk)))
  {
    hide Canon, Fold, LastOn, RunChanges, QuietSince, QuietAfter, SessionChanges;
    var items, s := Items(sessions[n].listing), sessions[n];
    var k, cs := ArrivingKey(gvk, items[i]), Changes(gvk, Listing(items));
    LastOnIs(cs, k);
    assert cs[i] == Sets(k, items[i]) && Touches(cs[i], k);
    SessionSplit(gvk, s, k);
    WatchLastOn(gvk, s.events, k);
    SessionDecides(gvk, h, funcs, sessions, n, k, Sets(k, items[i]));
  }

  /** The same for the last event: an object last added or modified is held with that state, and one last deleted is
      gone from both. */
  lemma EventDecides(gvk: GroupVersionKind, h: Held, funcs: FuncMap, sessions: seq<Session>, n: nat, i: nat,
      k: ObjectKey)
    requires LastEvent(gvk, sessions, n, i, k)
    ensures var e := sessions[n].events[i];
            var r := Fold(h, funcs, RunChanges(gvk, sessions));
            && (e.kind == Deleted ==> Lookup(r.objs, k) == None && PostingAt(r.latest, k) == None)
            && (e.kind != Deleted ==>
                  && Lookup(r.objs, k) == Some(Canon(RawMap(e.obj.value)))
                  && PostingAt(r.latest, k) == Some(Posting(RawMap(e.obj.value), FuncsFor(funcs, gvk))))
  {
    hide Canon, Fold, LastOn, RunChanges, QuietSince, QuietAfter, SessionChanges;
    var s := sessions[n];
    SessionSplit(gvk, s, k);
    WatchLastOn(gvk, s.events, k);
    SessionDecides(gvk, h, funcs, sessions, n, k, ChangeOf(gvk, Watched(s.events[i])));
  }

  /** A key no session is about is as it was. */
  lemma UntouchedStays(gvk: GroupVersionKind, h: Held, funcs: FuncMap, sessions: seq<Session>, k: ObjectKey)
    requires QuietAfter(gvk, sessions, -1, k)
    ensures var r := Fold(h, funcs, RunChanges(gvk, sessions));
            Lookup(r.objs, k) == Lookup(h.objs, k) && PostingAt(r.latest, k) == PostingAt(h.latest, k)
  {
    hide Fold, LastOn, Quiet;
    forall m | 0 <= m < |sessions| ensures Untouched(gvk, sessions[m], k) {
      assert Quiet(gvk, sessions[m], k);
      QuietIff(gvk, sessions[m], k);
    }
    NeverTouched(gvk, sessions, k);
    LastDecides(h, funcs, RunChanges(gvk, sessions), k);
  }

  /** The input sends the object: it is listed, added or modified. */
  ghost predicate Sends(x: Input, obj: map<string, Raw>) {
    match x
    case Listed(o) => o == obj
    case Watched(e) => e.kind in {Added, Modified} && e.obj == Some(obj)
  }

  ghost predicate SendsKey(gvk: GroupVersionKind, x: Input, k: ObjectKey) {
    exists obj :: Sends(x, obj) && ArrivingKey(gvk, obj) == k
  }

  ghost predicate DeletesKey(gvk: GroupVersionKind, x: Input, k: ObjectKey) {
    x.Watched? && x.e.kind == Deleted && x.e.obj.Some? && ArrivingKey(gvk, x.e.obj.value) == k
  }

  lemma SendsIff(gvk: GroupVersionKind, x: Input, k: ObjectKey)
    ensures forall obj :: Sends(x, obj) ==> ChangeOf(gvk, x) == Sets(ArrivingKey(gvk, obj), obj)
    ensures DeletesKey(gvk, x, k) <==> ChangeOf(gvk, x) == Clears(k)
    ensures SendsKey(gvk, x, k) <==> Touches(ChangeOf(gvk, x), k) && !DeletesKey(gvk, x, k)
  {
    var c := ChangeOf(gvk, x);
    if c.Sets? { assert Sends(x, c.obj); }
  }

  /** inputs[i] is the last one to send an object of the key, which no input after it deletes. */
  ghost predicate LastSent(gvk: GroupVersionKind, inputs: seq<Input>, i: nat, k: ObjectKey) {
    && i < |inputs| && SendsKey(gvk, inputs[i], k)
    && forall j :: i < j < |inputs| ==> !SendsKey(gvk, inputs[j], k) && !DeletesKey(gvk, inputs[j], k)
  }

  lemma {:induction false} LastSender(gvk: GroupVersionKind, inputs: seq<Input>, i: nat, k: ObjectKey) returns (n: nat)
    requires i < |inputs| && SendsKey(gvk, inputs[i], k)
    requires forall j :: i < j < |inputs| ==> !DeletesKey(gvk, inputs[j], k)
    ensures i <= n && LastSent(gvk, inputs, n, k)
  {
    hide SendsKey, DeletesKey;
    n := |inputs| - 1;
    if !SendsKey(gvk, inputs[n], k) {
      n := LastSender(gvk, inputs[..n], i, k);
    }
  }

  /** Nothing listed, added or modified and not deleted since is missing or stale: it is held as it was last sent. */
  lemma SetStays(gvk: GroupVersionKind, h: Held, funcs: FuncMap, inputs: seq<Input>, i: nat, k: ObjectKey)
    requires i < |inputs| && SendsKey(gvk, inputs[i], k)
    requires forall j :: i < j < |inputs| ==> !DeletesKey(gvk, inputs[j], k)
    ensures exists n, obj :: i <= n && LastSent(gvk, inputs, n, k) && Sends(inputs[n], obj) &&
              var r := Fold(h, funcs, Changes(gvk, inputs));
              && Lookup(r.objs, k) == Some(Canon(RawMap(obj)))
              && PostingAt(r.latest, k) == Some(Posting(RawMap(obj), FuncsFor(funcs, gvk)))
  {
    hide Canon, Fold, LastOn, ChangeOf, Sends, DeletesKey;
    var n := LastSender(gvk, inputs, i, k);
    var cs := Changes(gvk, inputs);
    var obj :| Sends(inputs[n], obj) && ArrivingKey(gvk, obj) == k;
    forall j | n <= j < |inputs|
      ensures Touches(cs[j], k) <==> SendsKey(gvk, inputs[j], k) || DeletesKey(gvk, inputs[j], k)
    {
      SendsIff(gvk, inputs[j], k);
    }
    SendsIff(gvk, inputs[n], k);
    assert cs[n] == Sets(k, obj);
    LastOnIs(cs, k);
    LastDecides(h, funcs, cs, k);
  }

  /** An object listed once, that had vanished from the server by the re-list, is still there. */
  lemma VanishedSurvives(gvk: GroupVersionKind, funcs: FuncMap, obj: map<string, Raw>)
    ensures var sessions := [Session(Some([obj]), []), Session(Some([]), [])];
            var r := Fold(Held(map[], map[]), funcs, RunChanges(gvk, sessions));
            ArrivingKey(gvk, obj) in r.objs && !ListedKey(gvk, Items(sessions[1].listing), ArrivingKey(gvk, obj))
  {
    var sessions := [Session(Some([obj]), []), Session(Some([]), [])];
    assert SessionInputs(sessions[1]) == [];
    ListedIsHeld(gvk, Held(map[], map[]), funcs, sessions, 0, 0);
  }

  // ---------- what handlers hear ----------

  /** Handlers are told of watch events only. */
  ghost function WatchedInputs(sessions: seq<Session>): seq<Input> {
    if sessions == [] then []
    else WatchedInputs(sessions[..|sessions| - 1]) + Watching(Handled(sessions[|sessions| - 1].events))
  }

  lemma WatchedInputsOne(sessions: seq<Session>, s: Session)
    ensures WatchedInputs(sessions + [s]) == WatchedInputs(sessions) + Watching(Handled(s.events))
  {
    assert (sessions + [s])[..|sessions|] == sessions;
  }

  /** What the informer gathered, and what a handler that believes all it is told has gathered. */
  ghost function Gathered(gvk: GroupVersionKind, sessions: seq<Session>): Arrivals {
    ArriveAll(map[], RunChanges(gvk, sessions))
  }

  ghost function HeardOf(gvk: GroupVersionKind, sessions: seq<Session>): Arrivals {
    ArriveAll(map[], Changes(gvk, WatchedInputs(sessions)))
  }

  ghost predicate Lists(sessions: seq<Session>, listings: seq<Option<seq<map<string, Raw>>>>) {
    |sessions| == |listings| && forall i :: 0 <= i < |sessions| ==> sessions[i].listing == listings[i]
  }

  lemma {:induction false} NothingListed(sessions: seq<Session>)
    requires forall i :: 0 <= i < |sessions| ==> Items(sessions[i].listing) == []
    ensures RunInputs(sessions) == WatchedInputs(sessions)
  {
    hide Items, Listing, Watching, Handled;
    if sessions != [] {
      var pre, last := sessions[..|sessions| - 1], sessions[|sessions| - 1];
      assert forall i :: 0 <= i < |pre| ==> pre[i] == sessions[i];
      NothingListed(pre);
      WatchOnly(last);
    }
  }

  lemma WatchOnly(s: Session)
    ensures Items(s.listing) == [] ==> SessionInputs(s) == Watching(Handled(s.events))
  {
    hide Handled;
    if Items(s.listing) == [] { assert Listing(Items(s.listing)) == []; }
  }

  lemma {:induction false} NothingHeard(sessions: seq<Session>)
    requires forall i :: 0 <= i < |sessions| ==> sessions[i].events == []
    ensures WatchedInputs(sessions) == []
  {
    if sessions != [] {
      NothingHeard(sessions[..|sessions| - 1]);
    }
  }

  /** An object that was listed is gathered, if no event ever came. */
  lemma {:induction false} ListedGathered(gvk: GroupVersionKind, sessions: seq<Session>, n: nat, i: nat)
    requires forall m :: 0 <= m < |sessions| ==> sessions[m].events == []
    requires n < |sessions| && i < |Items(sessions[n].listing)|
    ensures ArrivingKey(gvk, Items(sessions[n].listing)[i]) in Gathered(gvk, sessions)
    decreases |sessions|
  {
    hide LastOn, Changes;
    var k := ArrivingKey(gvk, Items(sessions[n].listing)[i]);
    var pre, last := sessions[..|sessions| - 1], sessions[|sessions| - 1];
    var items := Items(last.listing);
    assert SessionInputs(last) == Listing(items);
    ChangesAppend(gvk, RunInputs(pre), Listing(items));
    LastOnAppend(RunChanges(gvk, pre), Changes(gvk, Listing(items)), k);
    ListLastOn(gvk, items, k);
    ArrivedLast(RunChanges(gvk, sessions), k);
    if n < |sessions| - 1 {
      ListedGathered(gvk, pre, n, i);
      ArrivedLast(RunChanges(gvk, pre), k);
    }
  }

  lemma AllHeard(gvk: GroupVersionKind, sessions: seq<Session>)
    requires forall i :: 0 <= i < |sessions| ==> Items(sessions[i].listing) == []
    ensures HeardOf(gvk, sessions) == Gathered(gvk, sessions)
  {
    NothingListed(sessions);
  }

  lemma ListedUnheard(gvk: GroupVersionKind, sessions: seq<Session>, n: nat)
    requires forall i :: 0 <= i < |sessions| ==> sessions[i].events == []
    requires n < |sessions| && Items(sessions[n].listing) != []
    ensures HeardOf(gvk, sessions) != Gathered(gvk, sessions)
  {
    hide RunChanges;
    NothingHeard(sessions);
    ListedGathered(gvk, sessions, n, 0);
    assert HeardOf(gvk, sessions) == map[];
  }

  /** A handler that keeps what it is told has, whatever events come, just what the informer gathered, if and only if no
      list ever has an object in it. */
  lemma HandlersKnowAllIff(gvk: GroupVersionKind, listings: seq<Option<seq<map<string, Raw>>>>)
    ensures (forall sessions :: Lists(sessions, listings) ==> HeardOf(gvk, sessions) == Gathered(gvk, sessions)) <==>
            (forall i :: 0 <= i < |listings| ==> Items(listings[i]) == [])
  {
    hide HeardOf, Gathered;
    if forall i :: 0 <= i < |listings| ==> Items(listings[i]) == [] {
      forall sessions | Lists(sessions, listings) ensures HeardOf(gvk, sessions) == Gathered(gvk, sessions) {
        AllHeard(gvk, sessions);
      }
    } else {
      var n :| 0 <= n < |listings| && Items(listings[n]) != [];
      var silent := seq(|listings|, i requires 0 <= i < |listings| => Session(listings[i], []));
      ListedUnheard(gvk, silent, n);
      assert Lists(silent, listings);
    }
  }
}
