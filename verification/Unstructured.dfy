/** Reading fields of stored objects, and the filters List applies to them. */
module Unstructured {
  import opened Values
  import opened Plain

  function Field(v: Value, name: string): Option<Value> {
    if v.Map? && name in v.entries then Some(v.entries[name]) else None
  }

  /** A nested string field; anything else there reads as "". */
  function MetaString(v: Value, name: string): string {
    var meta := Field(v, "metadata");
    if meta.None? then "" else
    var f := Field(meta.value, name);
    if f.Some? && f.value.Leaf? && f.value.scalar.Str? then f.value.scalar.s else ""
  }

  /** The same on an object as it arrives. */
  function RawMeta(obj: map<string, Raw>, name: string): string {
    if "metadata" in obj && obj["metadata"].RawMap? && name in obj["metadata"].fields then
      var f := obj["metadata"].fields[name];
      if f.RawLeaf? && f.raw.RString? then f.raw.s else ""
    else ""
  }

  function ArrivingKey(gvk: GroupVersionKind, obj: map<string, Raw>): ObjectKey {
    ObjectKey(gvk, RawMeta(obj, "namespace"), RawMeta(obj, "name"))
  }

  function StoredKey(gvk: GroupVersionKind, v: Value): ObjectKey {
    ObjectKey(gvk, MetaString(v, "namespace"), MetaString(v, "name"))
  }

  /** The field is not of a type outside the store's switch, which would be stored as its text. */
  ghost predicate Plainly(obj: map<string, Raw>, name: string) {
    "metadata" in obj && obj["metadata"].RawMap? && name in obj["metadata"].fields ==>
      var f := obj["metadata"].fields[name];
      f.RawLeaf? && f.raw.ROther? ==> f.raw.text == ""
  }

  /** Storing an object keeps its own name exactly when the name is not such an exotic value. */
  lemma MetaKept(obj: map<string, Raw>, name: string)
    ensures MetaString(Canon(RawMap(obj)), name) == RawMeta(obj, name) <==> Plainly(obj, name)
  {
    var v := Canon(RawMap(obj));
    if "metadata" in obj {
      assert Field(v, "metadata") == Some(Canon(obj["metadata"]));
      if obj["metadata"].RawMap? && name in obj["metadata"].fields {
        assert Field(Canon(obj["metadata"]), name) == Some(Canon(obj["metadata"].fields[name]));
      }
    }
  }

  /** The object's metadata field is the string, or the string is empty and there is no such field. */
  ghost predicate Carries(obj: map<string, Raw>, name: string, s: string) {
    if "metadata" in obj && obj["metadata"].RawMap? && name in obj["metadata"].fields
    then obj["metadata"].fields[name] == RawLeaf(RString(s))
    else s == ""
  }

  /** The object calls itself by this namespace and name; objects outside namespaces have none. */
  ghost predicate Named(obj: map<string, Raw>, namespace: string, name: string) {
    Carries(obj, "namespace", namespace) && Carries(obj, "name", name)
  }

  /** An object arrives under the namespace and name in its own metadata, and reads as such once stored. */
  lemma KeyIsNamed(gvk: GroupVersionKind, obj: map<string, Raw>, namespace: string, name: string)
    requires Named(obj, namespace, name)
    ensures ArrivingKey(gvk, obj) == ObjectKey(gvk, namespace, name)
    ensures StoredKey(gvk, Canon(RawMap(obj))) == ObjectKey(gvk, namespace, name)
    ensures Tidy(obj)
  {
    MetaKept(obj, "namespace");
    MetaKept(obj, "name");
  }

  /** Every stored object's own namespace and name are those of its key. */
  ghost predicate OwnKeys(objs: Objects) {
    forall k :: k in objs ==> StoredKey(k.gvk, objs[k]) == k
  }

  /** The object's namespace and name survive being stored. */
  ghost predicate Tidy(obj: map<string, Raw>) {
    Plainly(obj, "namespace") && Plainly(obj, "name")
  }

  /** Storing an object under the key it carries keeps all keys own, unless its name is exotic. */
  lemma ArriveOwnKey(objs: Objects, gvk: GroupVersionKind, obj: map<string, Raw>)
    ensures OwnKeys(objs) && Tidy(obj) ==> OwnKeys(objs[ArrivingKey(gvk, obj) := Canon(RawMap(obj))])
  {
    MetaKept(obj, "namespace");
    MetaKept(obj, "name");
  }

  lemma FewerOwnKeys(objs: Objects, key: ObjectKey)
    ensures OwnKeys(objs) ==> OwnKeys(objs - {key})
  {
  }

  /** The keys that listing a kind, in one namespace or all, and reading each object's own name gives. */
  ghost function DerivedKeys(objs: Objects, gvk: GroupVersionKind, namespace: string): set<ObjectKey> {
    set k | k in objs && k.gvk == gvk && (namespace == "" || k.namespace == namespace) :: StoredKey(gvk, objs[k])
  }

  ghost function MatchingKeys(objs: Objects, gvk: GroupVersionKind, namespace: string): set<ObjectKey> {
    set k | k in objs && k.gvk == gvk && (namespace == "" || k.namespace == namespace)
  }

  lemma DerivedAreMatching(objs: Objects, gvk: GroupVersionKind, namespace: string)
    requires OwnKeys(objs)
    ensures DerivedKeys(objs, gvk, namespace) == MatchingKeys(objs, gvk, namespace)
  {
  }

  predicate AllStrings(m: map<string, Value>) {
    forall k :: k in m ==> m[k].Leaf? && m[k].scalar.Str?
  }

  /** The labels of an object: none unless every label is a string. */
  function GetLabels(v: Value): map<string, string> {
    var meta := Field(v, "metadata");
    if meta.None? then map[] else
    var labels := Field(meta.value, "labels");
    if labels.Some? && labels.value.Map? && AllStrings(labels.value.entries)
    then map k | k in labels.value.entries :: labels.value.entries[k].scalar.s
    else map[]
  }

  function StringFields(ls: map<string, string>): map<string, Raw> {
    map k | k in ls :: RawLeaf(RString(ls[k]))
  }

  /** The object's metadata.labels is the map of these strings, or it has none and there are none. */
  ghost predicate Labelled(obj: map<string, Raw>, ls: map<string, string>) {
    if "metadata" in obj && obj["metadata"].RawMap? && "labels" in obj["metadata"].fields
    then obj["metadata"].fields["labels"] == RawMap(StringFields(ls))
    else ls == map[]
  }

  lemma LabelsValue(obj: map<string, Raw>)
    requires "metadata" in obj && obj["metadata"].RawMap? && "labels" in obj["metadata"].fields
    ensures var meta := Field(Canon(RawMap(obj)), "metadata");
            meta.Some? && Field(meta.value, "labels") == Some(Canon(obj["metadata"].fields["labels"]))
  {
    assert Field(Canon(RawMap(obj)), "metadata") == Some(Canon(obj["metadata"]));
  }

  lemma StringsStored(ls: map<string, string>)
    ensures Canon(RawMap(StringFields(ls))) == Map(map k | k in ls :: Leaf(Str(ls[k])))
  {
    var fields := StringFields(ls);
    assert forall k :: k in fields ==> Canon(fields[k]) == Leaf(Str(ls[k]));
  }

  /** A stored object's labels are those in its metadata. */
  lemma LabelsAre(obj: map<string, Raw>, ls: map<string, string>)
    requires Labelled(obj, ls)
    ensures GetLabels(Canon(RawMap(obj))) == ls
  {
    if "metadata" in obj && obj["metadata"].RawMap? && "labels" in obj["metadata"].fields {
      hide Canon;
      LabelsValue(obj);
      StringsStored(ls);
    }
  }

  /** One label that is not a string hides them all, and so do labels that are not a map. */
  lemma OddLabelsHide(obj: map<string, Raw>, labels: Raw)
    requires "metadata" in obj && obj["metadata"].RawMap? && "labels" in obj["metadata"].fields
    requires labels == obj["metadata"].fields["labels"]
    requires labels.RawMap? ==>
               exists k :: k in labels.fields && !(labels.fields[k].RawLeaf? && Normalize(labels.fields[k].raw).Str?)
    ensures GetLabels(Canon(RawMap(obj))) == map[]
  {
    LabelsValue(obj);
    if labels.RawMap? {
      var k :| k in labels.fields && !(labels.fields[k].RawLeaf? && Normalize(labels.fields[k].raw).Str?);
      assert Canon(labels).entries[k] == Canon(labels.fields[k]);
      assert !AllStrings(Canon(labels).entries);
    }
  }

  /** Splits at dots; there is always at least one part. */
  function Split(s: string): (parts: seq<string>)
    ensures |parts| > 0
  {
    if s == "" then [""]
    else if s[0] == '.' then [""] + Split(s[1..])
    else
      var rest := Split(s[1..]);
      [[s[0]] + rest[0]] + rest[1..]
  }

  function Join(parts: seq<string>): string
    requires |parts| > 0
  {
    if |parts| == 1 then parts[0] else parts[0] + "." + Join(parts[1..])
  }

  lemma JoinCons(c: char, rest: seq<string>)
    requires |rest| > 0
    ensures Join([[c] + rest[0]] + rest[1..]) == [c] + Join(rest)
  {
    var parts := [[c] + rest[0]] + rest[1..];
    assert parts[1..] == rest[1..];
    if |rest| > 1 {
      ConsAssoc(c, rest[0], Join(rest[1..]));
    }
  }

  lemma ConsAssoc(c: char, a: string, b: string)
    ensures ([c] + a) + "." + b == [c] + (a + "." + b)
  {
  }

  /** The parts are what lies between the dots, and nothing is lost. */
  lemma {:induction false} SplitJoins(s: string)
    ensures Join(Split(s)) == s && forall i :: 0 <= i < |Split(s)| ==> '.' !in Split(s)[i]
  {
    if s != "" {
      SplitJoins(s[1..]);
      var rest := Split(s[1..]);
      if s[0] == '.' {
        assert ([""] + rest)[1..] == rest;
        assert "" + "." + s[1..] == s;
      } else {
        JoinCons(s[0], rest);
      }
    }
  }

  function Descend(v: Value, parts: seq<string>): Option<Value> {
    if parts == [] then Some(v)
    else
      var f := Field(v, parts[0]);
      if f.None? then None else Descend(f.value, parts[1..])
  }

  /** Strings compare as they are, everything else by its rendering. */
  function Text(render: Value -> string, v: Value): string {
    if v.Leaf? && v.scalar.Str? then v.scalar.s else render(v)
  }

  datatype ListOptions = ListOptions(labels: map<string, string>, fields: map<string, string>, namespace: string)

  /** An absent label reads as "", so a selector asking for "" accepts it. */
  ghost predicate LabelsAccept(labels: map<string, string>, selector: map<string, string>) {
    forall k :: k in selector ==> (if k in labels then labels[k] else "") == selector[k]
  }

  /** The documented meaning: every selector label is present and equal. */
  ghost predicate AllPresent(labels: map<string, string>, selector: map<string, string>) {
    forall k :: k in selector ==> k in labels && labels[k] == selector[k]
  }

  /** A selector is applied as documented, to every object, exactly when it asks for no empty label. */
  lemma AsDocumentedIff(selector: map<string, string>)
    ensures (forall labels :: LabelsAccept(labels, selector) <==> AllPresent(labels, selector)) <==>
            (forall k :: k in selector ==> selector[k] != "")
  {
    if k :| k in selector && selector[k] == "" {
      var labels := selector - {k};
      assert LabelsAccept(labels, selector) && !AllPresent(labels, selector);
    }
  }

  ghost predicate FieldAccepts(render: Value -> string, v: Value, path: string, want: string) {
    var f := Descend(v, Split(path));
    f.Some? && Text(render, f.value) == want
  }

  /** The trees met on the way from obj along the parts, obj first. */
  ghost predicate Along(obj: Value, parts: seq<string>, trail: seq<Value>) {
    && |trail| == |parts| + 1 && trail[0] == obj
    && forall i :: 0 <= i < |parts| ==>
         trail[i].Map? && parts[i] in trail[i].entries && trail[i + 1] == trail[i].entries[parts[i]]
  }

  lemma {:induction false} DescendAlong(obj: Value, parts: seq<string>, trail: seq<Value>)
    requires Along(obj, parts, trail)
    ensures Descend(obj, parts) == Some(trail[|parts|])
  {
    if parts != [] {
      assert trail[1..][0] == trail[1];
      DescendAlong(trail[1], parts[1..], trail[1..]);
    }
  }

  lemma {:induction false} TrailTo(obj: Value, parts: seq<string>) returns (trail: seq<Value>)
    requires Descend(obj, parts).Some?
    ensures Along(obj, parts, trail)
  {
    if parts == [] {
      trail := [obj];
    } else {
      var rest := TrailTo(obj.entries[parts[0]], parts[1..]);
      trail := [obj] + rest;
    }
  }

  /** The path leads through maps that have each of its parts, to a string that is the wanted one or to anything else
      whose rendering is. */
  ghost predicate HasAt(render: Value -> string, obj: Value, path: string, want: string) {
    exists trail :: Along(obj, Split(path), trail) &&
      want == match trail[|Split(path)|] { case Leaf(Str(s)) => s case v => render(v) }
  }

  lemma FieldAcceptsIff(render: Value -> string, obj: Value, path: string, want: string)
    ensures FieldAccepts(render, obj, path, want) <==> HasAt(render, obj, path, want)
  {
    var parts := Split(path);
    if FieldAccepts(render, obj, path, want) {
      var trail := TrailTo(obj, parts);
      DescendAlong(obj, parts, trail);
    }
    if HasAt(render, obj, path, want) {
      var trail :| Along(obj, parts, trail) &&
        want == match trail[|parts|] { case Leaf(Str(s)) => s case v => render(v) };
      DescendAlong(obj, parts, trail);
    }
  }

  /** The one-field maps along a path, down to v. */
  function Nest(parts: seq<string>, v: Value): Value {
    if parts == [] then v else Map(map[parts[0] := Nest(parts[1..], v)])
  }

  lemma {:induction false} DescendNest(parts: seq<string>, v: Value)
    ensures Descend(Nest(parts, v), parts) == Some(v)
  {
    if parts != [] {
      DescendNest(parts[1..], v);
    }
  }

  /** What lies at a path is compared as it is if it is a string, and by its rendering otherwise. */
  lemma NestAccepted(render: Value -> string, path: string, v: Value, want: string)
    ensures FieldAccepts(render, Nest(Split(path), v), path, want) <==>
            want == match v { case Leaf(Str(s)) => s case _ => render(v) }
  {
    DescendNest(Split(path), v);
  }

  ghost predicate Accepts(render: Value -> string, opts: ListOptions, gvk: GroupVersionKind, key: ObjectKey, v: Value) {
    && key.gvk == gvk
    && (opts.namespace == "" || key.namespace == opts.namespace)
    && LabelsAccept(GetLabels(v), opts.labels)
    && forall f :: f in opts.fields ==> FieldAccepts(render, v, f, opts.fields[f])
  }

  /** `result` lists the accepted objects of objs, each once, in the order of `keys`. */
  ghost predicate IsListing(render: Value -> string, objs: Objects, gvk: GroupVersionKind, opts: ListOptions,
                            keys: seq<ObjectKey>, result: seq<Value>) {
    && |keys| == |result|
    && (forall i, j :: 0 <= i < j < |keys| ==> keys[i] != keys[j])
    && (forall i :: 0 <= i < |keys| ==> keys[i] in objs && result[i] == objs[keys[i]])
    && (forall k :: k in keys <==> k in objs && Accepts(render, opts, gvk, k, objs[k]))
  }

  /** A stored object is listed exactly when it is of the kind, in the namespace if one is given, carries every label
      asked for, an absent one reading as "", and has every field asked for at the end of its path. */
  lemma ListedIff(render: Value -> string, objs: Objects, gvk: GroupVersionKind, opts: ListOptions,
                  keys: seq<ObjectKey>, result: seq<Value>, k: ObjectKey, obj: map<string, Raw>,
                  ls: map<string, string>)
    requires IsListing(render, objs, gvk, opts, keys, result)
    requires k in objs && objs[k] == Canon(RawMap(obj)) && Labelled(obj, ls)
    ensures (exists i :: 0 <= i < |keys| && keys[i] == k && result[i] == objs[k]) <==>
            && k.gvk == gvk
            && (opts.namespace == "" || opts.namespace == k.namespace)
            && (forall l :: l in opts.labels ==> opts.labels[l] == if l in ls then ls[l] else "")
            && forall f :: f in opts.fields ==> HasAt(render, objs[k], f, opts.fields[f])
  {
    hide Canon, FieldAccepts, HasAt, Labelled;
    LabelsAre(obj, ls);
    forall f | f in opts.fields
      ensures FieldAccepts(render, objs[k], f, opts.fields[f]) <==> HasAt(render, objs[k], f, opts.fields[f])
    {
      FieldAcceptsIff(render, objs[k], f, opts.fields[f]);
    }
  }

  method LabelsMatch(objLabels: map<string, string>, selector: map<string, string>) returns (ok: bool)
    ensures ok <==> LabelsAccept(objLabels, selector)
  {
    var todo := selector.Keys;
    while todo != {}
      invariant todo <= selector.Keys
      invariant forall k :: k in selector && k !in todo ==> (if k in objLabels then objLabels[k] else "") == selector[k]
      decreases todo
    {
      var k :| k in todo;
      if (if k in objLabels then objLabels[k] else "") != selector[k] {
        return false;
      }
      todo := todo - {k};
    }
    return true;
  }

  method FieldMatches(render: Value -> string, obj: Value, field: string, value: string) returns (ok: bool)
    ensures ok <==> FieldAccepts(render, obj, field, value)
  {
    var parts := Split(field);
    var current := obj;
    var i := 0;
    while i < |parts|
      invariant 0 <= i <= |parts|
      invariant Descend(obj, parts) == Descend(current, parts[i..])
    {
      if !current.Map? || parts[i] !in current.entries {
        return false;
      }
      assert parts[i..][1..] == parts[i + 1..];
      current := current.entries[parts[i]];
      i := i + 1;
    }
    return Text(render, current) == value;
  }

  method FieldsMatch(render: Value -> string, obj: Value, selectors: map<string, string>) returns (ok: bool)
    ensures ok <==> forall f :: f in selectors ==> FieldAccepts(render, obj, f, selectors[f])
  {
    var todo := selectors.Keys;
    while todo != {}
      invariant todo <= selectors.Keys
      invariant forall f :: f in selectors && f !in todo ==> FieldAccepts(render, obj, f, selectors[f])
      decreases todo
    {
      var f :| f in todo;
      var accepted := FieldMatches(render, obj, f, selectors[f]);
      if !accepted {
        return false;
      }
      todo := todo - {f};
    }
    return true;
  }

  /** The objects outside `todo` have been filtered into `result`. */
  ghost predicate ListedSoFar(render: Value -> string, objs: Objects, gvk: GroupVersionKind, opts: ListOptions,
                              todo: set<ObjectKey>, keys: seq<ObjectKey>, result: seq<Value>) {
    && |keys| == |result|
    && (forall i, j :: 0 <= i < j < |keys| ==> keys[i] != keys[j])
    && (forall i :: 0 <= i < |keys| ==> keys[i] in objs && result[i] == objs[keys[i]])
    && (forall k :: k in keys <==> k in objs && k !in todo && Accepts(render, opts, gvk, k, objs[k]))
  }

  lemma ListedStep(render: Value -> string, objs: Objects, gvk: GroupVersionKind, opts: ListOptions,
                   todo: set<ObjectKey>, keys: seq<ObjectKey>, result: seq<Value>, key: ObjectKey)
    requires ListedSoFar(render, objs, gvk, opts, todo, keys, result) && key in todo && key in objs
    ensures if Accepts(render, opts, gvk, key, objs[key])
            then ListedSoFar(render, objs, gvk, opts, todo - {key}, keys + [key], result + [objs[key]])
            else ListedSoFar(render, objs, gvk, opts, todo - {key}, keys, result)
  {
    hide Accepts;
    assert key !in keys;
    assert forall k :: k in keys + [key] <==> k in keys || k == key;
  }
}
