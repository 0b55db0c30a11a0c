/** Sums over sequences and over maps, the latter independent of the order keys are visited in. */
module Sums {

  ghost function SumSeq(s: seq<nat>): nat {
    if s == [] then 0 else SumSeq(s[..|s| - 1]) + s[|s| - 1]
  }

  ghost function SumMap<K(!new)>(m: map<K, nat>): nat
    decreases |m|
  {
    if m == map[] then 0
    else
      var k :| k in m;
      RemoveShrinks(m, k);
      m[k] + SumMap(m - {k})
  }

  lemma RemoveShrinks<K, V>(m: map<K, V>, k: K)
    requires k in m
    ensures |m - {k}| < |m|
  {
    assert (m - {k}).Keys == m.Keys - {k};
    assert |(m - {k}).Keys| == |m.Keys| - 1;
  }

  /** Any key may be taken out first. */
  lemma {:induction false} SumMapSplit<K(!new)>(m: map<K, nat>, k: K)
    requires k in m
    ensures SumMap(m) == m[k] + SumMap(m - {k})
    decreases |m|
  {
    var j :| j in m && SumMap(m) == m[j] + SumMap(m - {j});
    if j != k {
      RemoveShrinks(m, j);
      RemoveShrinks(m, k);
      SumMapSplit(m - {j}, k);
      SumMapSplit(m - {k}, j);
      assert m - {j} - {k} == m - {k} - {j};
    }
  }

  lemma SumMapSet<K(!new)>(m: map<K, nat>, k: K, n: nat)
    ensures SumMap(m[k := n]) == SumMap(m - {k}) + n
  {
    SumMapSplit(m[k := n], k);
    assert m[k := n] - {k} == m - {k};
  }

  lemma {:induction false} SumMapAtMost<K(!new)>(m: map<K, nat>, n: map<K, nat>)
    requires m.Keys == n.Keys && forall k :: k in m ==> m[k] <= n[k]
    ensures SumMap(m) <= SumMap(n)
    decreases |m|
  {
    if m == map[] {
      assert n == map[];
    } else {
      var k :| k in m;
      RemoveShrinks(m, k);
      SumMapSplit(m, k);
      SumMapSplit(n, k);
      SumMapAtMost(m - {k}, n - {k});
    }
  }

  lemma {:induction false} SumMapPositive<K(!new)>(m: map<K, nat>)
    ensures SumMap(m) > 0 <==> exists k :: k in m && m[k] > 0
    decreases |m|
  {
    if m != map[] {
      var k :| k in m && SumMap(m) == m[k] + SumMap(m - {k});
      RemoveShrinks(m, k);
      SumMapPositive(m - {k});
      if j :| j in m - {k} && (m - {k})[j] > 0 { assert m[j] > 0; }
      if j :| j in m && m[j] > 0 { assert j == k || (m - {k})[j] > 0; }
    }
  }

  lemma {:induction false} SumSeqPositive(s: seq<nat>)
    ensures SumSeq(s) > 0 <==> exists i :: 0 <= i < |s| && s[i] > 0
  {
    if s != [] {
      var r := s[..|s| - 1];
      SumSeqPositive(r);
      if i :| 0 <= i < |r| && r[i] > 0 { assert s[i] > 0; }
      if i :| 0 <= i < |s| && s[i] > 0 { assert i == |s| - 1 || r[i] > 0; }
    }
  }

  lemma {:induction false} SumSeqAtMost(s: seq<nat>, t: seq<nat>)
    requires |s| == |t| && forall i :: 0 <= i < |s| ==> s[i] <= t[i]
    ensures SumSeq(s) <= SumSeq(t)
  {
    if s != [] {
      SumSeqAtMost(s[..|s| - 1], t[..|t| - 1]);
    }
  }

  lemma {:induction false} SumSeqConstant(s: seq<nat>, c: nat)
    requires forall i :: 0 <= i < |s| ==> s[i] == c
    ensures SumSeq(s) == |s| * c
  {
    if s != [] {
      SumSeqConstant(s[..|s| - 1], c);
    }
  }
}
