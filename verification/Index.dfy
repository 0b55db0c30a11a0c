/** cache/index.go: field indexes, as a forward map and a reverse map that are kept mutually inverse. */
module Indexes {
  import opened Values
  import opened Plain

  type IndexerFunc = Raw -> seq<string>
  type Funcs = map<string, IndexerFunc>
  type FieldData = map<string, set<ObjectKey>>
  type Forward = map<GroupVersionKind, map<string, FieldData>>
  type Reverse = map<ObjectKey, map<string, set<string>>>

  ghost predicate InForward(data: Forward, g: GroupVersionKind, f: string, v: string, k: ObjectKey) {
    g in data && f in data[g] && v in data[g][f] && k in data[g][f][v]
  }

  ghost predicate InReverse(reverse: Reverse, k: ObjectKey, f: string, v: string) {
    k in reverse && f in reverse[k] && v in reverse[k][f]
  }

  ghost predicate Inverse(data: Forward, reverse: Reverse) {
    forall g, f, v, k :: InForward(data, g, f, v, k) <==> k.gvk == g && InReverse(reverse, k, f, v)
  }

  ghost predicate NoEmptySets(data: Forward) {
    forall g, f, v :: g in data && f in data[g] && v in data[g][f] ==> data[g][f][v] != {}
  }

  // ---------- one entry more, one entry less ----------

  function FieldsOf(data: Forward, g: GroupVersionKind): map<string, FieldData> {
    if g in data then data[g] else map[]
  }

  function ValuesOf(fields: map<string, FieldData>, f: string): FieldData {
    if f in fields then fields[f] else map[]
  }

  function KeysOf(values: FieldData, v: string): set<ObjectKey> {
    if v in values then values[v] else {}
  }

  function Post(data: Forward, f: string, v: string, k: ObjectKey): Forward {
    var fields := FieldsOf(data, k.gvk);
    var values := ValuesOf(fields, f);
    data[k.gvk := fields[f := values[v := KeysOf(values, v) + {k}]]]
  }

  /** Deletes the key from its set, and the set with it once it is empty; a missing map is left missing. */
  function Unpost(data: Forward, f: string, v: string, k: ObjectKey): Forward {
    if k.gvk in data && f in data[k.gvk] then
      var values := data[k.gvk][f];
      var rest := KeysOf(values, v) - {k};
      data[k.gvk := data[k.gvk][f := if rest == {} then values - {v} else values[v := rest]]]
    else data
  }

  function PostReverse(reverse: Reverse, f: string, v: string, k: ObjectKey): Reverse {
    var fields := if k in reverse then reverse[k] else map[];
    var values := if f in fields then fields[f] else {};
    reverse[k := fields[f := values + {v}]]
  }

  lemma PostAdds(data: Forward, f: string, v: string, k: ObjectKey)
    ensures forall g, f', v', k' :: InForward(Post(data, f, v, k), g, f', v', k') <==>
              InForward(data, g, f', v', k') || (g, f', v', k') == (k.gvk, f, v, k)
    ensures NoEmptySets(data) ==> NoEmptySets(Post(data, f, v, k))
  {
  }

  lemma UnpostRemoves(data: Forward, f: string, v: string, k: ObjectKey)
    ensures forall g, f', v', k' :: InForward(Unpost(data, f, v, k), g, f', v', k') <==>
              InForward(data, g, f', v', k') && (g, f', v', k') != (k.gvk, f, v, k)
    ensures NoEmptySets(data) ==> NoEmptySets(Unpost(data, f, v, k))
  {
    var next := Unpost(data, f, v, k);
    forall g, f', v', k'
      ensures InForward(next, g, f', v', k') <==> InForward(data, g, f', v', k') && (g, f', v', k') != (k.gvk, f, v, k)
    {
      if g == k.gvk && f' == f && v' == v && f in FieldsOf(data, g) {
        var rest := KeysOf(data[g][f], v) - {k};
        assert k' in rest <==> k' in KeysOf(data[g][f], v) && k' != k;
      }
    }
  }

  lemma PostReverseAdds(reverse: Reverse, f: string, v: string, k: ObjectKey)
    ensures forall k', f', v' :: InReverse(PostReverse(reverse, f, v, k), k', f', v') <==>
              InReverse(reverse, k', f', v') || (k', f', v') == (k, f, v)
  {
  }

  // ---------- what is indexed ----------

  /** The object a key was last indexed with, and the functions registered at that time. */
  datatype Posting = Posting(obj: Raw, funcs: Funcs)

  ghost predicate Wanted(latest: map<ObjectKey, Posting>, k: ObjectKey, f: string, v: string) {
    k in latest && f in latest[k].funcs && v in latest[k].funcs[f](latest[k].obj)
  }

  /** The reverse map holds exactly the values the functions gave for each key's latest object. */
  ghost predicate UpToDate(reverse: Reverse, latest: map<ObjectKey, Posting>) {
    forall k, f, v :: InReverse(reverse, k, f, v) <==> Wanted(latest, k, f, v)
  }

  function FuncsFor(funcs: map<GroupVersionKind, Funcs>, gvk: GroupVersionKind): Funcs {
    if gvk in funcs then funcs[gvk] else map[]
  }

  /** The first function registered for a kind and field stays. */
  function AddedTo(funcs: map<GroupVersionKind, Funcs>, gvk: GroupVersionKind, field: string, fn: IndexerFunc):
      map<GroupVersionKind, Funcs> {
    if field in FuncsFor(funcs, gvk) then funcs else funcs[gvk := FuncsFor(funcs, gvk)[field := fn]]
  }

  class Indexer {
    var funcs: map<GroupVersionKind, Funcs>
    var data: Forward
    var reverse: Reverse
    ghost var latest: map<ObjectKey, Posting>

    ghost predicate Valid()
      reads this
    {
      Inverse(data, reverse) && NoEmptySets(data) && UpToDate(reverse, latest)
    }

    constructor ()
      ensures Valid() && funcs == map[] && latest == map[]
    {
      funcs, data, reverse, latest := map[], map[], map[], map[];
    }

    /** Registers an index function; a second one for the same kind and field is refused. */
    method AddIndex(gvk: GroupVersionKind, field: string, fn: IndexerFunc) returns (ok: bool)
      requires Valid()
      modifies this`funcs
      ensures Valid()
      ensures ok <==> field !in old(Registered(gvk))
      ensures funcs == AddedTo(old(funcs), gvk, field, fn)
    {
      if gvk !in funcs {
        funcs := funcs[gvk := map[]];
      }
      if field in funcs[gvk] {
        return false;
      }
      var added: Funcs := map[field := fn];
      assert funcs[gvk] + added == FuncsFor(old(funcs), gvk)[field := fn];
      funcs := funcs[gvk := funcs[gvk] + added];
      assert funcs == AddedTo(old(funcs), gvk, field, fn);
      ok := true;
    }

    function Registered(gvk: GroupVersionKind): Funcs
      reads this
    {
      FuncsFor(funcs, gvk)
    }

    /** The keys of the kind whose latest object has the value in the field, each once. */
    method Lookup(gvk: GroupVersionKind, field: string, value: string) returns (result: seq<ObjectKey>)
      requires Valid()
      ensures forall i, j :: 0 <= i < j < |result| ==> result[i] != result[j]
      ensures forall k :: k in result <==> k.gvk == gvk && Wanted(latest, k, field, value)
    {
      var todo := KeysOf(ValuesOf(FieldsOf(data, gvk), field), value);
      forall k ensures k in todo <==> k.gvk == gvk && Wanted(latest, k, field, value) {
        assert k in todo <==> InForward(data, gvk, field, value, k);
        assert InReverse(reverse, k, field, value) <==> Wanted(latest, k, field, value);
      }
      result := Enumerate(todo);
    }

    method UpdateIndex(key: ObjectKey, obj: Raw)
      requires Valid()
      modifies this`data, this`reverse, this`latest
      ensures Valid()
      ensures latest == old(latest)[key := Posting(obj, Registered(key.gvk))]
    {
      hide Inverse, NoEmptySets;
      Clear(key);
      var fns := Registered(key.gvk);
      ghost var others := latest;
      latest := latest[key := Posting(obj, map[])];
      assert UpToDate(reverse, latest);
      var todo := fns.Keys;
      ghost var done: Funcs := map[];
      while todo != {}
        invariant todo <= fns.Keys && (forall f :: f in done <==> f in fns && f !in todo)
        invariant forall f :: f in done ==> done[f] == fns[f]
        invariant latest == others[key := Posting(obj, done)]
        invariant Valid()
        decreases todo
      {
        var field :| field in todo;
        PostAll(key, field, obj, fns[field](obj), done, fns[field]);
        todo := todo - {field};
        done := done[field := fns[field]];
      }
      assert done == fns;
    }

    /** Posts the values one function gave. */
    method PostAll(key: ObjectKey, field: string, obj: Raw, values: seq<string>, ghost done: Funcs,
        ghost fn: IndexerFunc)
      requires Valid() && key in latest && latest[key] == Posting(obj, done)
      requires field !in done && values == fn(obj)
      modifies this`data, this`reverse, this`latest
      ensures Valid()
      ensures latest == old(latest)[key := Posting(obj, done[field := fn])]
    {
      hide Inverse, NoEmptySets;
      ghost var was := reverse;
      var i := 0;
      while i < |values|
        invariant 0 <= i <= |values| && latest == old(latest)
        invariant Inverse(data, reverse) && NoEmptySets(data)
        invariant forall k, f, v :: InReverse(reverse, k, f, v) <==>
                    InReverse(was, k, f, v) || (k == key && f == field && v in values[..i])
      {
        PostOne(data, reverse, field, values[i], key);
        assert values[..i + 1] == values[..i] + [values[i]];
        data := Post(data, field, values[i], key);
        reverse := PostReverse(reverse, field, values[i], key);
        i := i + 1;
      }
      assert values[..|values|] == values;
      latest := latest[key := Posting(obj, done[field := fn])];
      NowWanted(was, reverse, old(latest), key, field, obj, done, fn);
    }

    method RemoveIndex(key: ObjectKey)
      requires Valid()
      modifies this`data, this`reverse, this`latest
      ensures Valid()
      ensures latest == old(latest) - {key}
    {
      Clear(key);
    }

    /** Takes out everything the reverse map lists for the key. */
    method Clear(key: ObjectKey)
      requires Valid()
      modifies this`data, this`reverse, this`latest
      ensures Valid()
      ensures latest == old(latest) - {key}
    {
      if key in reverse {
        var todo := reverse[key].Keys;
        while todo != {}
          invariant reverse == old(reverse) && latest == old(latest)
          invariant todo <= reverse[key].Keys
          invariant NoEmptySets(data)
          invariant forall g, f, v, k :: InForward(data, g, f, v, k) <==>
                      k.gvk == g && InReverse(reverse, k, f, v) && (k == key ==> f in todo)
          decreases todo
        {
          var field :| field in todo;
          UnpostAll(key, field, reverse[key][field]);
          todo := todo - {field};
        }
      }
      assert forall g, f, v, k :: InForward(data, g, f, v, k) <==>
               k.gvk == g && InReverse(reverse, k, f, v) && k != key;
      reverse := reverse - {key};
      latest := latest - {key};
      WithoutKey(old(reverse), reverse, old(latest), key);
    }

    method UnpostAll(key: ObjectKey, field: string, values: set<string>)
      requires NoEmptySets(data)
      modifies this`data
      ensures NoEmptySets(data)
      ensures forall g, f, v, k :: InForward(data, g, f, v, k) <==>
                InForward(old(data), g, f, v, k) && !(g == key.gvk && k == key && f == field && v in values)
    {
      var todo := values;
      while todo != {}
        invariant todo <= values && NoEmptySets(data)
        invariant forall g, f, v, k :: InForward(data, g, f, v, k) <==>
                    InForward(old(data), g, f, v, k) && !(g == key.gvk && k == key && f == field && v in values - todo)
        decreases todo
      {
        var v :| v in todo;
        UnpostRemoves(data, field, v, key);
        data := Unpost(data, field, v, key);
        todo := todo - {v};
      }
    }
  }

  lemma PostOne(data: Forward, reverse: Reverse, f: string, v: string, k: ObjectKey)
    requires Inverse(data, reverse) && NoEmptySets(data)
    ensures Inverse(Post(data, f, v, k), PostReverse(reverse, f, v, k)) && NoEmptySets(Post(data, f, v, k))
    ensures forall k', f', v' :: InReverse(PostReverse(reverse, f, v, k), k', f', v') <==>
              InReverse(reverse, k', f', v') || (k', f', v') == (k, f, v)
  {
    PostAdds(data, f, v, k);
    PostReverseAdds(reverse, f, v, k);
  }

  lemma WithoutKey(was: Reverse, now: Reverse, latest: map<ObjectKey, Posting>, key: ObjectKey)
    requires UpToDate(was, latest) && now == was - {key}
    ensures forall k, f, v :: InReverse(now, k, f, v) <==> InReverse(was, k, f, v) && k != key
    ensures UpToDate(now, latest - {key})
  {
    forall k, f, v ensures InReverse(now, k, f, v) <==> Wanted(latest - {key}, k, f, v) {
      assert InReverse(was, k, f, v) <==> Wanted(latest, k, f, v);
    }
  }

  lemma NowWanted(was: Reverse, now: Reverse, latest: map<ObjectKey, Posting>, key: ObjectKey, field: string,
      obj: Raw, done: Funcs, fn: IndexerFunc)
    requires UpToDate(was, latest) && key in latest && latest[key] == Posting(obj, done) && field !in done
    requires forall k, f, v :: InReverse(now, k, f, v) <==>
               InReverse(was, k, f, v) || (k == key && f == field && v in fn(obj))
    ensures UpToDate(now, latest[key := Posting(obj, done[field := fn])])
  {
  }

  method Enumerate(s: set<ObjectKey>) returns (result: seq<ObjectKey>)
    ensures forall i, j :: 0 <= i < j < |result| ==> result[i] != result[j]
    ensures forall k :: k in result <==> k in s
  {
    result := [];
    var todo := s;
    while todo != {}
      invariant todo <= s
      invariant forall i, j :: 0 <= i < j < |result| ==> result[i] != result[j]
      invariant forall k :: k in result <==> k in s && k !in todo
      decreases todo
    {
      var k :| k in todo;
      result := result + [k];
      todo := todo - {k};
    }
  }
}
