/** store/intern.go: the pool of distinct scalars. */
module ValuePools {
  import opened Pools
  import opened Values
  import opened Plain

  /** Slots and index are mutually inverse, apart from the nil sentinel and freed slots. */
  ghost predicate Inverse(values: seq<Scalar>, index: map<Scalar, nat>) {
    && |values| > 0 && values[0] == Nil
    && Nil !in index
    && (forall s :: s in index ==> 0 < index[s] < |values| && values[index[s]] == s)
    && (forall i :: 0 <= i < |values| && values[i] != Nil ==> values[i] in index && index[values[i]] == i)
  }

  /** The ids the index still knows are the slots that hold something. */
  ghost function AsPool(values: seq<Scalar>): Pool<Scalar> {
    Pool(values, set i | 0 <= i < |values| && values[i] != Nil)
  }

  /** The unreachable values `gone` have been dropped from `was` and `had`, and nothing else. */
  ghost predicate Dropping(was: seq<Scalar>, had: map<Scalar, nat>, values: seq<Scalar>, index: map<Scalar, nat>,
      live: set<nat>, gone: set<nat>) {
    && Inverse(values, index) && |values| == |was|
    && (forall i :: i in gone ==> i < |was| && was[i] != Nil && i !in live)
    && (forall i :: 0 <= i < |was| ==> values[i] == if i in gone then Nil else was[i])
    && (forall s :: s in index <==> s in had && had[s] !in gone)
    && (forall s :: s in index ==> index[s] == had[s])
  }

  lemma DropOne(was: seq<Scalar>, had: map<Scalar, nat>, values: seq<Scalar>, index: map<Scalar, nat>,
      live: set<nat>, gone: set<nat>, val: Scalar)
    requires Inverse(was, had) && Dropping(was, had, values, index, live, gone)
    requires val in index && index[val] !in live
    ensures index[val] < |values| && index[val] !in gone
    ensures Dropping(was, had, values[index[val] := Nil], index - {val}, live, gone + {index[val]})
  {
    var next := index - {val};
    forall s ensures s in next <==> s in had && had[s] !in gone + {index[val]} {
      if s in had && s != val { assert was[had[s]] == s; }
    }
  }

  // ---------- what each locked section does to slots and index ----------

  function FindValue(index: map<Scalar, nat>, s: Scalar): Option<nat> {
    if s in index then Some(index[s]) else None
  }

  datatype Written = Written(values: seq<Scalar>, index: map<Scalar, nat>, id: nat)

  /** A new slot for s, whether or not another one holds it. */
  function Appended(values: seq<Scalar>, index: map<Scalar, nat>, s: Scalar): Written {
    Written(values + [s], index[s := |values|], |values|)
  }

  /** The write section: look again, then append. */
  function WriteValue(values: seq<Scalar>, index: map<Scalar, nat>, s: Scalar): Written {
    var found := FindValue(index, s);
    if found.Some? then Written(values, index, found.value) else Appended(values, index, s)
  }

  /** Appending is right exactly when the value is not there yet. */
  lemma AppendedIff(values: seq<Scalar>, index: map<Scalar, nat>, s: Scalar)
    requires Inverse(values, index) && s != Nil
    ensures var w := Appended(values, index, s); Inverse(w.values, w.index) <==> FindValue(index, s).None?
  {
    var w := Appended(values, index, s);
    if s in index { assert w.values[index[s]] == s && w.index[s] != index[s]; }
  }

  ghost function KeptIndex(index: map<Scalar, nat>, live: set<nat>): map<Scalar, nat> {
    map s | s in index && index[s] in live :: index[s]
  }

  ghost function KeptValues(values: seq<Scalar>, live: set<nat>): seq<Scalar> {
    seq(|values|, i requires 0 <= i < |values| => if i in live then values[i] else Nil)
  }

  class ValueInternPool {
    var values: seq<Scalar>
    var index: map<Scalar, nat>

    ghost predicate Valid()
      reads this
    {
      Inverse(values, index)
    }

    ghost function P(): Pool<Scalar>
      reads this
    {
      AsPool(values)
    }

    constructor ()
      ensures Valid() && P() == Pool([Nil], {}) && values == [Nil] && index == map[]
    {
      values := [Nil];
      index := map[];
    }

    lemma PoolOk()
      requires Valid()
      ensures Ok(P(), Nil) && forall i :: i in P().live ==> P().slots[i] != Nil
    {
    }

    method Intern(v: RawScalar) returns (id: nat)
      requires Valid()
      modifies this
      ensures Valid()
      ensures Normalize(v) == Nil ==> id == 0 && P() == old(P())
      ensures Normalize(v) != Nil ==>
                P() == Insert(old(P()), Normalize(v)) && id in P().live && P().slots[id] == Normalize(v)
    {
      if v == RNil {
        return 0;
      }
      var s := Normalize(v);
      ghost var was, had := values, index;
      var found := Find(s);
      if found.Some? {
        assert HeldAt(P(), found.value, s);
        return found.value;
      }
      id := InternLocked(s);
      WrittenIsInsert(was, had, s);
    }

    /** The section under the read lock. */
    method Find(s: Scalar) returns (found: Option<nat>)
      ensures found == FindValue(index, s)
    {
      if s in index {
        return Some(index[s]);
      }
      return None;
    }

    /** The section under the write lock: other calls may have come in between, so look again. */
    method InternLocked(s: Scalar) returns (id: nat)
      modifies this
      ensures Written(values, index, id) == WriteValue(old(values), old(index), s)
    {
      if s in index {
        return index[s];
      }
      id := |values|;
      values := values + [s];
      index := index[s := id];
    }

    /** A reference past the end reads as nil, as in Go. */
    method Resolve(id: nat) returns (s: Scalar)
      ensures s == if id < |values| then values[id] else Nil
    {
      if id >= |values| {
        return Nil;
      }
      return values[id];
    }

    /** Drops every value outside `live`; entries are visited in any order. */
    method DeleteUnreachable(live: set<nat>) returns (removed: nat)
      requires Valid()
      modifies this
      ensures Valid()
      ensures P() == Sweep(old(P()), live, Nil)
      ensures removed == |old(P()).live - live|
      ensures values == KeptValues(old(values), live) && index == KeptIndex(old(index), live)
    {
      hide Inverse, Dropping;
      removed := 0;
      var todo := index.Keys;
      ghost var was, had := values, index;
      ghost var gone: set<nat> := {};
      NothingDropped(values, index, live);
      while todo != {}
        invariant todo <= index.Keys
        invariant Dropping(was, had, values, index, live, gone) && removed == |gone|
        invariant forall s :: s in index && s !in todo ==> index[s] in live
        decreases todo
      {
        var val :| val in todo;
        var vid := index[val];
        if vid != 0 && vid !in live {
          DropOne(was, had, values, index, live, gone, val);
          index := index - {val};
          values := values[vid := Nil];
          removed := removed + 1;
          gone := gone + {vid};
        } else {
          NeverZero(was, had, values, index, live, gone, val);
        }
        todo := todo - {val};
      }
      Swept(was, had, values, index, gone, live);
    }
  }

  lemma NothingDropped(values: seq<Scalar>, index: map<Scalar, nat>, live: set<nat>)
    requires Inverse(values, index)
    ensures Dropping(values, index, values, index, live, {})
  {
  }

  lemma NeverZero(was: seq<Scalar>, had: map<Scalar, nat>, values: seq<Scalar>, index: map<Scalar, nat>,
      live: set<nat>, gone: set<nat>, val: Scalar)
    requires Dropping(was, had, values, index, live, gone) && val in index
    ensures index[val] != 0
  {
  }

  lemma WrittenIsInsert(values: seq<Scalar>, index: map<Scalar, nat>, s: Scalar)
    requires Inverse(values, index) && s != Nil
    ensures var w := WriteValue(values, index, s);
            && Inverse(w.values, w.index) && AsPool(w.values) == Insert(AsPool(values), s)
            && w.id in AsPool(w.values).live && w.values[w.id] == s && w.index[s] == w.id
  {
    var w, p := WriteValue(values, index, s), AsPool(values);
    if s in index {
      assert HeldAt(p, index[s], s);
    } else {
      assert !Has(p, s);
      assert AsPool(w.values).live == p.live + {|values|};
    }
  }

  /** Once every id left in the index is live, what was zeroed is what sweeping zeroes. */
  lemma Swept(was: seq<Scalar>, had: map<Scalar, nat>, values: seq<Scalar>, index: map<Scalar, nat>, gone: set<nat>,
      live: set<nat>)
    requires Inverse(was, had) && Dropping(was, had, values, index, live, gone)
    requires forall s :: s in index ==> index[s] in live
    ensures Inverse(values, index)
    ensures AsPool(values) == Sweep(AsPool(was), live, Nil) && gone == AsPool(was).live - live
    ensures values == KeptValues(was, live) && index == KeptIndex(had, live)
  {
    forall i ensures i in gone <==> i in AsPool(was).live - live {
      assert i in AsPool(was).live && i !in gone ==> values[i] in index;
    }
    assert AsPool(values).slots == Sweep(AsPool(was), live, Nil).slots;
    assert AsPool(values).live == Sweep(AsPool(was), live, Nil).live;
  }
}
