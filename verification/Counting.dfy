/** How often one tree occurs in another, and what a plain map of objects shares. */
module Counting {
  import opened Sums
  import opened Values

  /** The number of occurrences of u in the tree v, v itself included. */
  ghost function Count(v: Value, u: Value): nat {
    (if v == u then 1 else 0) +
    match v
    case Leaf(_) => 0
    case Map(m) => SumMap(map k | k in m :: Count(m[k], u))
    case Slice(s) => SumSeq(seq(|s|, i requires 0 <= i < |s| => Count(s[i], u)))
  }

  /** The number of positions in the tree v. */
  ghost function TreeSize(v: Value): nat {
    1 +
    match v
    case Leaf(_) => 0
    case Map(m) => SumMap(map k | k in m :: TreeSize(m[k]))
    case Slice(s) => SumSeq(seq(|s|, i requires 0 <= i < |s| => TreeSize(s[i])))
  }

  ghost function CountEntries(m: map<string, Value>, u: Value): nat {
    SumMap(map k | k in m :: Count(m[k], u))
  }

  ghost function CountItems(s: seq<Value>, u: Value): nat {
    SumSeq(seq(|s|, i requires 0 <= i < |s| => Count(s[i], u)))
  }

  lemma CountEntriesAdd(m: map<string, Value>, k: string, v: Value, u: Value)
    requires k !in m
    ensures CountEntries(m[k := v], u) == CountEntries(m, u) + Count(v, u)
  {
    hide SumMap, Count;
    var c := map j | j in m :: Count(m[j], u);
    SumMapSet(c, k, Count(v, u));
    assert c - {k} == c;
    var n := m[k := v];
    assert (map j | j in n :: Count(n[j], u)) == c[k := Count(v, u)];
  }

  lemma CountItemsAdd(s: seq<Value>, v: Value, u: Value)
    ensures CountItems(s + [v], u) == CountItems(s, u) + Count(v, u)
  {
    var t := s + [v];
    var c := seq(|t|, i requires 0 <= i < |t| => Count(t[i], u));
    assert c[..|s|] == seq(|s|, i requires 0 <= i < |s| => Count(s[i], u));
    assert c[|s|] == Count(v, u);
  }

  lemma {:induction false} CountPositive(v: Value, u: Value)
    ensures Count(v, u) > 0 <==> u in Sub(v)
  {
    match v
    case Leaf(_) =>
    case Map(m) =>
      forall k | k in m ensures Count(m[k], u) > 0 <==> u in Sub(m[k]) { CountPositive(m[k], u); }
      var c := map k | k in m :: Count(m[k], u);
      SumMapPositive(c);
      if k :| k in m && u in Sub(m[k]) { assert c[k] > 0; }
      if k :| k in c && c[k] > 0 { assert u in Sub(m[k]); }
    case Slice(s) =>
      forall i | 0 <= i < |s| ensures Count(s[i], u) > 0 <==> u in Sub(s[i]) { CountPositive(s[i], u); }
      var c := seq(|s|, i requires 0 <= i < |s| => Count(s[i], u));
      SumSeqPositive(c);
      if i :| 0 <= i < |s| && u in Sub(s[i]) { assert c[i] > 0; }
      if i :| 0 <= i < |c| && c[i] > 0 { assert u in Sub(s[i]); }
  }

  /** Each occurrence takes a position of its own. */
  lemma {:induction false} CountAtMost(v: Value, u: Value)
    ensures Count(v, u) <= TreeSize(v)
  {
    match v
    case Leaf(_) =>
    case Map(m) =>
      forall k | k in m ensures Count(m[k], u) <= TreeSize(m[k]) { CountAtMost(m[k], u); }
      SumMapAtMost(map k | k in m :: Count(m[k], u), map k | k in m :: TreeSize(m[k]));
    case Slice(s) =>
      forall i | 0 <= i < |s| ensures Count(s[i], u) <= TreeSize(s[i]) { CountAtMost(s[i], u); }
      SumSeqAtMost(seq(|s|, i requires 0 <= i < |s| => Count(s[i], u)),
                   seq(|s|, i requires 0 <= i < |s| => TreeSize(s[i])));
  }

  /** Subvalues of subvalues are subvalues, and so are their scalars. */
  lemma {:induction false} SubTransitive(v: Value, w: Value)
    requires w in Sub(v)
    ensures Sub(w) <= Sub(v) && Scalars(w) <= Scalars(v)
  {
    if w != v {
      match v
      case Map(m) =>
        var k :| k in m && w in Sub(m[k]);
        SubTransitive(m[k], w);
      case Slice(s) =>
        var i :| 0 <= i < |s| && w in Sub(s[i]);
        SubTransitive(s[i], w);
      case Leaf(_) =>
    }
  }

  lemma InOwnSub(v: Value)
    ensures v in Sub(v)
  {
  }
}
