/** cache/lru.go: the map of entries and the list of the same entries, kept in step. */
module Lru {
  import opened Plain
  import opened Recency

  class LruEntry<V> {
    const key: string
    var val: V

    constructor (key: string, val: V)
      ensures this.key == key && this.val == val
    {
      this.key, this.val := key, val;
    }
  }

  /** container/list's Remove, by identity. */
  function RemoveElem<V>(s: seq<LruEntry<V>>, e: LruEntry<V>): seq<LruEntry<V>> {
    if s == [] then [] else if s[0] == e then s[1..] else [s[0]] + RemoveElem(s[1..], e)
  }

  ghost function Pairs<V>(s: seq<LruEntry<V>>): Entries<V>
    reads s
  {
    seq(|s|, i requires 0 <= i < |s| reads s => (s[i].key, s[i].val))
  }

  ghost predicate KeysDistinct<V>(s: seq<LruEntry<V>>) {
    forall i, j :: 0 <= i < j < |s| ==> s[i].key != s[j].key
  }

  /** Removing an entry by identity removes its key from the contents. */
  lemma {:induction false} RemoveIsWithout<V>(s: seq<LruEntry<V>>, e: LruEntry<V>)
    requires KeysDistinct(s) && e in s
    ensures Pairs(RemoveElem(s, e)) == Without(Pairs(s), e.key)
    ensures KeysDistinct(RemoveElem(s, e)) && |RemoveElem(s, e)| == |s| - 1
    ensures forall x :: x in RemoveElem(s, e) <==> x in s && x != e
  {
    var p, t := Pairs(s), s[1..];
    assert p[1..] == Pairs(t);
    assert forall i :: 0 <= i < |t| ==> t[i] == s[i + 1];
    if s[0] == e {
      AbsentWithout(t, e.key);
      forall x ensures x in t <==> x in s && x != e {
        if x in t { var i :| 0 <= i < |t| && t[i] == x; }
      }
    } else {
      assert e in t;
      var r := RemoveElem(t, e);
      RemoveIsWithout(t, e);
      assert s[0].key != e.key;
      assert Pairs([s[0]] + r) == [p[0]] + Pairs(r);
      forall i | 0 <= i < |r| ensures r[i].key != s[0].key { assert r[i] in t; }
    }
  }

  lemma {:induction false} AbsentWithout<V>(s: seq<LruEntry<V>>, key: string)
    requires forall i :: 0 <= i < |s| ==> s[i].key != key
    ensures Without(Pairs(s), key) == Pairs(s)
  {
    if s != [] {
      AbsentWithout(s[1..], key);
      assert Pairs(s)[1..] == Pairs(s[1..]);
    }
  }

  /** Map and list hold the same entries, each under its key, once. */
  ghost predicate Linked<V>(items: map<string, LruEntry<V>>, order: seq<LruEntry<V>>) {
    && |items| == |order|
    && (forall k :: k in items ==> items[k].key == k && items[k] in order)
    && (forall e :: e in order ==> e.key in items && items[e.key] == e)
    && KeysDistinct(order)
  }

  lemma LinkedOther<V>(items: map<string, LruEntry<V>>, order: seq<LruEntry<V>>, e: LruEntry<V>, x: LruEntry<V>)
    requires Linked(items, order) && e in order && x in RemoveElem(order, e)
    ensures x in order && x != e && x.key != e.key
  {
    hide Pairs, Without;
    RemoveIsWithout(order, e);
    assert x in order;
    assert items[x.key] == x && items[e.key] == e;
  }

  lemma LinkedMove<V>(items: map<string, LruEntry<V>>, order: seq<LruEntry<V>>, e: LruEntry<V>)
    requires Linked(items, order) && e in order
    ensures Linked(items, [e] + RemoveElem(order, e))
    ensures forall x :: x in [e] + RemoveElem(order, e) ==> x in order
  {
    var r := RemoveElem(order, e);
    RemoveIsWithout(order, e);
    forall i | 0 <= i < |r| ensures r[i].key != e.key {
      LinkedOther(items, order, e, r[i]);
    }
    forall x | x in [e] + r ensures x in order {
      if x != e { assert x in r; LinkedOther(items, order, e, x); }
    }
  }

  lemma LinkedAdd<V>(items: map<string, LruEntry<V>>, order: seq<LruEntry<V>>, e: LruEntry<V>)
    requires Linked(items, order) && e.key !in items
    ensures Linked(items[e.key := e], [e] + order)
  {
    forall i | 0 <= i < |order| ensures order[i].key != e.key { assert order[i] in order; }
  }

  lemma LinkedRemove<V>(items: map<string, LruEntry<V>>, order: seq<LruEntry<V>>, e: LruEntry<V>)
    requires Linked(items, order) && e in order
    ensures Linked(items - {e.key}, RemoveElem(order, e))
    ensures forall x :: x in RemoveElem(order, e) ==> x in order
  {
    RemoveIsWithout(order, e);
    var r := RemoveElem(order, e);
    forall x | x in r ensures x in order && x.key != e.key {
      LinkedOther(items, order, e, x);
    }
    forall k | k in items - {e.key} ensures items[k] in r {
      assert items[k] in order && items[k] != e;
      RemoveIsWithout(order, e);
    }
    assert (items - {e.key}).Keys == items.Keys - {e.key};
  }

  lemma {:induction false} RemoveLast<V>(s: seq<LruEntry<V>>)
    requires s != [] && KeysDistinct(s)
    ensures RemoveElem(s, s[|s| - 1]) == s[..|s| - 1]
  {
    if |s| > 1 {
      assert s[0].key != s[|s| - 1].key;
      RemoveLast(s[1..]);
    }
  }

  /** Taking out the last entry by identity is dropping the end of the list. */
  lemma EvictOk<V>(items: map<string, LruEntry<V>>, order: seq<LruEntry<V>>)
    requires Linked(items, order) && order != []
    ensures Linked(items - {order[|order| - 1].key}, order[..|order| - 1])
    ensures Pairs(order[..|order| - 1]) == Pairs(order)[..|order| - 1]
    ensures forall e :: e in order[..|order| - 1] ==> e in order
  {
    var last := order[|order| - 1];
    assert last in order;
    LinkedRemove(items, order, last);
    RemoveLast(order);
  }

  lemma LinkedContents<V>(items: map<string, LruEntry<V>>, order: seq<LruEntry<V>>)
    requires Linked(items, order)
    ensures Distinct(Pairs(order))
    ensures forall key :: key in items <==> Find(Pairs(order), key).Some?
    ensures forall key :: key in items ==> Find(Pairs(order), key) == Some(items[key].val)
  {
    var c := Pairs(order);
    forall key ensures key in items <==> Find(c, key).Some?
      ensures key in items ==> Find(c, key) == Some(items[key].val)
    {
      FindHas(c, key);
      if key in items {
        var i :| 0 <= i < |order| && order[i] == items[key];
        assert c[i].0 == key;
      }
      if Has(c, key) { var i :| 0 <= i < |c| && c[i].0 == key; assert order[i] in order; }
    }
  }

  class LruCache<V> {
    const capacity: nat
    var items: map<string, LruEntry<V>>
    var order: seq<LruEntry<V>>

    ghost predicate Valid()
      reads this
    {
      0 < capacity && |order| <= capacity && Linked(items, order)
    }

    ghost function Repr(): set<object>
      reads this
    {
      var entries: set<object> := set e: LruEntry<V> | e in order :: e;
      {this} + entries
    }

    /** The contents, most recently used first. */
    ghost function Contents(): Entries<V>
      reads this, Repr()
    {
      assert forall e :: e in order ==> e in Repr();
      Pairs(order)
    }

    constructor (capacity: int)
      ensures Valid() && fresh(Repr()) && Contents() == []
      ensures this.capacity == if capacity <= 0 then 1 else capacity
    {
      this.capacity := if capacity <= 0 then 1 else capacity;
      items := map[];
      order := [];
    }

    /** A hit moves the entry to the front. */
    method Get(key: string) returns (r: Option<V>)
      requires Valid()
      modifies this
      ensures Valid() && Repr() <= old(Repr())
      ensures r == Find(old(Contents()), key)
      ensures Contents() == Got(old(Contents()), key)
    {
      hide Linked;
      LinkedContents(items, order);
      if key !in items {
        return None;
      }
      var entry := items[key];
      EntryOf(items, order, key);
      RemoveIsWithout(order, entry);
      MoveFront(order, entry);
      LinkedMove(items, order, entry);
      order := [entry] + RemoveElem(order, entry);
      r := Some(entry.val);
    }

    /** Updates or inserts at the front; a full cache first drops its last entry. */
    method Put(key: string, val: V)
      requires Valid()
      modifies Repr()
      ensures Valid() && fresh(Repr() - old(Repr()))
      ensures Contents() == PutIn(capacity, old(Contents()), key, val)
    {
      hide Linked, PutIn;
      LinkedContents(items, order);
      SizesAgree(items, order);
      PutCases(capacity, Contents(), key, val);
      if key in items {
        Update(key, val);
        return;
      }
      if |items| >= capacity {
        Evict();
      }
      Insert(key, val);
    }

    method Evict()
      requires Valid() && |order| > 0
      modifies this
      ensures Linked(items, order) && |order| == |old(order)| - 1
      ensures Repr() <= old(Repr()) && forall k :: k in items ==> k in old(items)
      ensures Contents() == old(Contents())[..|old(Contents())| - 1]
    {
      hide Linked;
      ghost var was := order;
      EvictOk(items, order);
      var evicted := order[|order| - 1];
      order := order[..|order| - 1];
      items := items - {evicted.key};
      assert forall e :: e in order ==> e in was;
      assert forall x :: x in Repr() ==> x in old(Repr());
    }

    method Update(key: string, val: V)
      requires Valid() && key in items
      modifies Repr()
      ensures Valid() && Repr() <= old(Repr())
      ensures Contents() == [(key, val)] + Without(old(Contents()), key)
    {
      hide Linked;
      var entry := items[key];
      EntryOf(items, order, key);
      RemoveIsWithout(order, entry);
      LinkedMove(items, order, entry);
      ghost var rest := RemoveElem(order, entry);
      OthersStay(order, entry);
      SetVal(entry, val, rest);
      order := [entry] + RemoveElem(order, entry);
      assert Pairs([entry] + rest) == [(key, val)] + Pairs(rest);
    }

    static method SetVal(entry: LruEntry<V>, val: V, ghost rest: seq<LruEntry<V>>)
      requires entry !in rest
      modifies entry
      ensures entry.val == val && Pairs(rest) == old(Pairs(rest))
    {
      entry.val := val;
    }

    method Insert(key: string, val: V)
      requires Linked(items, order) && |order| < capacity && key !in items
      modifies this
      ensures Valid() && fresh(Repr() - old(Repr()))
      ensures Contents() == [(key, val)] + old(Contents())
    {
      hide Linked;
      ghost var was, had := order, Pairs(order);
      var entry := new LruEntry(key, val);
      LinkedAdd(items, order, entry);
      order := [entry] + order;
      items := items[key := entry];
      assert Pairs(was) == had;
      assert Pairs([entry] + was) == [(key, val)] + Pairs(was);
    }

    method Delete(key: string)
      requires Valid()
      modifies this
      ensures Valid() && Repr() <= old(Repr())
      ensures Contents() == Without(old(Contents()), key)
    {
      hide Linked;
      LinkedContents(items, order);
      if key !in items {
        FindHas(Contents(), key);
        WithoutDistinct(Contents(), key);
        return;
      }
      var entry := items[key];
      EntryOf(items, order, key);
      RemoveIsWithout(order, entry);
      LinkedRemove(items, order, entry);
      order := RemoveElem(order, entry);
      items := items - {key};
    }
  }

  lemma EntryOf<V>(items: map<string, LruEntry<V>>, order: seq<LruEntry<V>>, key: string)
    requires Linked(items, order) && key in items
    ensures items[key] in order && items[key].key == key && KeysDistinct(order)
  {
  }

  lemma SizesAgree<V>(items: map<string, LruEntry<V>>, order: seq<LruEntry<V>>)
    requires Linked(items, order)
    ensures |items| == |order|
  {
  }

  lemma PutCases<V>(capacity: nat, s: Entries<V>, key: string, val: V)
    ensures PutIn(capacity, s, key, val) ==
            if Find(s, key).Some? then [(key, val)] + Without(s, key)
            else [(key, val)] + if |s| >= capacity && s != [] then s[..|s| - 1] else s
  {
  }

  lemma OthersStay<V>(s: seq<LruEntry<V>>, e: LruEntry<V>)
    requires KeysDistinct(s) && e in s
    ensures e !in RemoveElem(s, e)
  {
    RemoveIsWithout(s, e);
  }

  lemma {:induction false} MoveFront<V>(s: seq<LruEntry<V>>, e: LruEntry<V>)
    requires e in s
    ensures Pairs([e] + RemoveElem(s, e)) == [(e.key, e.val)] + Pairs(RemoveElem(s, e))
  {
  }
}
