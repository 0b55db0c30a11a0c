/** Recency lists: what the LRU cache does to its contents, most recently used first. */
module Recency {
  import opened Plain

  type Entries<V> = seq<(string, V)>

  ghost predicate Distinct<V>(s: Entries<V>) {
    forall i, j :: 0 <= i < j < |s| ==> s[i].0 != s[j].0
  }

  ghost predicate Has<V>(s: Entries<V>, key: string) {
    exists i :: 0 <= i < |s| && s[i].0 == key
  }

  ghost function Find<V>(s: Entries<V>, key: string): Option<V> {
    if s == [] then None else if s[0].0 == key then Some(s[0].1) else Find(s[1..], key)
  }

  ghost function Without<V>(s: Entries<V>, key: string): Entries<V> {
    if s == [] then [] else if s[0].0 == key then Without(s[1..], key) else [s[0]] + Without(s[1..], key)
  }

  ghost function Got<V>(s: Entries<V>, key: string): Entries<V> {
    var f := Find(s, key);
    if f.Some? then [(key, f.value)] + Without(s, key) else s
  }

  ghost function PutIn<V>(capacity: nat, s: Entries<V>, key: string, val: V): Entries<V> {
    if Find(s, key).Some? then [(key, val)] + Without(s, key)
    else [(key, val)] + if |s| >= capacity && s != [] then s[..|s| - 1] else s
  }

  lemma {:induction false} FindHas<V>(s: Entries<V>, key: string)
    ensures Find(s, key).Some? <==> Has(s, key)
    ensures forall i :: 0 <= i < |s| && Distinct(s) && s[i].0 == key ==> Find(s, key) == Some(s[i].1)
  {
    if s != [] {
      FindHas(s[1..], key);
      if s[0].0 != key {
        assert forall i :: 0 < i < |s| ==> s[i] == s[1..][i - 1];
        if Has(s[1..], key) { var i :| 0 <= i < |s[1..]| && s[1..][i].0 == key; assert s[i + 1].0 == key; }
      }
    }
  }

  lemma {:induction false} WithoutIn<V>(s: Entries<V>, key: string, e: (string, V))
    ensures e in Without(s, key) <==> e in s && e.0 != key
  {
    if s != [] {
      WithoutIn(s[1..], key, e);
      assert e in s <==> e == s[0] || e in s[1..];
    }
  }

  lemma {:induction false} WithoutDistinct<V>(s: Entries<V>, key: string)
    requires Distinct(s)
    ensures Distinct(Without(s, key)) && !Has(Without(s, key), key) && |Without(s, key)| <= |s|
    ensures Has(s, key) ==> |Without(s, key)| == |s| - 1
    ensures !Has(s, key) ==> Without(s, key) == s
  {
    if s != [] {
      var t := s[1..];
      assert forall i :: 0 < i < |s| ==> s[i] == t[i - 1];
      WithoutDistinct(t, key);
      var w := Without(t, key);
      forall i | 0 <= i < |w| ensures w[i].0 != s[0].0 && w[i].0 != key {
        WithoutIn(t, key, w[i]);
        assert w[i] in t;
      }
      assert Has(s, key) <==> s[0].0 == key || Has(t, key);
      if s[0].0 == key { assert !Has(t, key); }
    }
  }

  lemma FindWithout<V>(s: Entries<V>, key: string, other: string)
    requires Distinct(s) && other != key
    ensures Find(Without(s, key), other) == Find(s, other)
  {
    FindHas(s, other);
    FindHas(Without(s, key), other);
    WithoutDistinct(s, key);
    if Has(s, other) {
      var i :| 0 <= i < |s| && s[i].0 == other;
      WithoutIn(s, key, s[i]);
      assert s[i] in Without(s, key);
      var j :| 0 <= j < |Without(s, key)| && Without(s, key)[j] == s[i];
    }
    if Has(Without(s, key), other) {
      var j :| 0 <= j < |Without(s, key)| && Without(s, key)[j].0 == other;
      WithoutIn(s, key, Without(s, key)[j]);
    }
  }

  /** Every operation keeps keys distinct and the size within the capacity. */
  lemma GotOk<V>(s: Entries<V>, key: string)
    requires Distinct(s)
    ensures Distinct(Got(s, key)) && |Got(s, key)| == |s|
  {
    FindHas(s, key);
    WithoutDistinct(s, key);
    assert forall i :: 0 <= i < |Without(s, key)| ==> Without(s, key)[i].0 != key;
  }

  lemma PutOk<V>(capacity: nat, s: Entries<V>, key: string, val: V)
    requires Distinct(s) && |s| <= capacity && capacity > 0
    ensures Distinct(PutIn(capacity, s, key, val)) && |PutIn(capacity, s, key, val)| <= capacity
  {
    hide Without;
    FindHas(s, key);
    WithoutDistinct(s, key);
    var rest := if Find(s, key).Some? then Without(s, key) else if |s| >= capacity && s != [] then s[..|s| - 1] else s;
    assert Distinct(rest) && |rest| < capacity;
    assert forall i :: 0 <= i < |rest| ==> rest[i].0 != key;
    ConsDistinct((key, val), rest);
  }

  lemma ConsDistinct<V>(e: (string, V), rest: Entries<V>)
    requires Distinct(rest) && forall i :: 0 <= i < |rest| ==> rest[i].0 != e.0
    ensures Distinct([e] + rest)
  {
  }

  // ---------- runs ----------

  datatype CacheOp<V> = GetOp(key: string) | PutOp(key: string, val: V) | DeleteOp(key: string)

  ghost function Step<V>(capacity: nat, s: Entries<V>, op: CacheOp<V>): Entries<V> {
    match op
    case GetOp(key) => Got(s, key)
    case PutOp(key, val) => PutIn(capacity, s, key, val)
    case DeleteOp(key) => Without(s, key)
  }

  ghost function Run<V>(capacity: nat, ops: seq<CacheOp<V>>): Entries<V> {
    if ops == [] then [] else Step(capacity, Run(capacity, ops[..|ops| - 1]), ops[|ops| - 1])
  }

  lemma StepOk<V>(capacity: nat, s: Entries<V>, op: CacheOp<V>)
    requires Distinct(s) && |s| <= capacity && capacity > 0
    ensures Distinct(Step(capacity, s, op)) && |Step(capacity, s, op)| <= capacity
  {
    match op
    case GetOp(key) => GotOk(s, key);
    case PutOp(key, val) => PutOk(capacity, s, key, val);
    case DeleteOp(key) => WithoutDistinct(s, key);
  }

  /** At every point of every run keys are distinct and the size is within the capacity. */
  lemma {:induction false} RunOk<V>(capacity: nat, ops: seq<CacheOp<V>>)
    requires capacity > 0
    ensures Distinct(Run(capacity, ops)) && |Run(capacity, ops)| <= capacity
  {
    if ops != [] {
      RunOk(capacity, ops[..|ops| - 1]);
      StepOk(capacity, Run(capacity, ops[..|ops| - 1]), ops[|ops| - 1]);
    }
  }

  // ---------- a larger cache never does worse ----------

  ghost predicate Subseq<V>(a: Entries<V>, b: Entries<V>) {
    a == [] || (b != [] && if a[0] == b[0] then Subseq(a[1..], b[1..]) else Subseq(a, b[1..]))
  }

  lemma {:induction false} SubseqTail<V>(a: Entries<V>, b: Entries<V>)
    requires Subseq(a, b) && a != []
    ensures Subseq(a[1..], b)
    decreases |b|
  {
    if a[0] == b[0] {
      if a[1..] != [] {
        if a[1..][0] == b[0] { SubseqTail(a[1..], b[1..]); }
      }
    } else {
      SubseqTail(a, b[1..]);
      if a[1..] != [] && a[1..][0] == b[0] { SubseqTail(a[1..], b[1..]); }
    }
  }

  lemma SubseqCons<V>(a: Entries<V>, b: Entries<V>, e: (string, V))
    requires Subseq(a, b)
    ensures Subseq(a, [e] + b) && Subseq([e] + a, [e] + b)
  {
    assert ([e] + b)[1..] == b && ([e] + a)[1..] == a;
    if a != [] && a[0] == e { SubseqTail(a, b); }
  }

  lemma {:induction false} SubseqWithout<V>(a: Entries<V>, b: Entries<V>, key: string)
    requires Subseq(a, b)
    ensures Subseq(Without(a, key), Without(b, key))
    decreases |b|
  {
    if a != [] {
      if a[0] == b[0] {
        SubseqWithout(a[1..], b[1..], key);
        if a[0].0 != key { SubseqCons(Without(a[1..], key), Without(b[1..], key), a[0]); }
      } else {
        SubseqWithout(a, b[1..], key);
        SubseqCons(Without(a, key), Without(b[1..], key), b[0]);
      }
    }
  }

  lemma {:induction false} SubseqInit<V>(a: Entries<V>, b: Entries<V>)
    requires Subseq(a, b) && a != []
    ensures Subseq(a[..|a| - 1], b) && Subseq(a[..|a| - 1], b[..|b| - 1])
    decreases |b|
  {
    if |a| > 1 {
      assert a[..|a| - 1][1..] == a[1..][..|a| - 2];
      if a[0] == b[0] {
        SubseqInit(a[1..], b[1..]);
        assert |b| > 1;
        assert b[..|b| - 1][1..] == b[1..][..|b| - 2];
      } else {
        SubseqInit(a, b[1..]);
        assert |b| > 1;
        assert b[..|b| - 1][1..] == b[1..][..|b| - 2];
      }
    }
  }

  lemma {:induction false} SubseqIn<V>(a: Entries<V>, b: Entries<V>)
    requires Subseq(a, b)
    ensures |a| <= |b| && forall e :: e in a ==> e in b
    decreases |b|
  {
    if a != [] {
      if a[0] == b[0] { SubseqIn(a[1..], b[1..]); } else { SubseqIn(a, b[1..]); }
      assert forall e :: e in a ==> e == a[0] || e in a[1..];
    }
  }

  /** The recency list of a cache of capacity k beside that of one of capacity m. */
  ghost predicate Beside<V>(k: nat, m: nat, a: Entries<V>, b: Entries<V>) {
    && Distinct(a) && Distinct(b) && |a| <= k && |b| <= m
    && Subseq(a, b) && |b| - |a| <= m - k
  }

  lemma FoundInBoth<V>(a: Entries<V>, b: Entries<V>, key: string)
    requires Distinct(a) && Distinct(b) && Subseq(a, b) && Find(a, key).Some?
    ensures Find(b, key) == Find(a, key)
  {
    FindHas(a, key);
    FindHas(b, key);
    SubseqIn(a, b);
    var i :| 0 <= i < |a| && a[i].0 == key;
    assert a[i] in b;
  }

  lemma StepBeside<V>(k: nat, m: nat, a: Entries<V>, b: Entries<V>, op: CacheOp<V>)
    requires 0 < k <= m && Beside(k, m, a, b)
    ensures Beside(k, m, Step(k, a, op), Step(m, b, op))
  {
    var key := op.key;
    StepOk(k, a, op);
    StepOk(m, b, op);
    FindHas(a, key);
    FindHas(b, key);
    WithoutDistinct(a, key);
    WithoutDistinct(b, key);
    SubseqWithout(a, b, key);
    SubseqIn(a, b);
    if Find(a, key).Some? { FoundInBoth(a, b, key); }
    match op
    case DeleteOp(_) =>
    case GetOp(_) =>
      if Find(a, key).Some? {
        SubseqCons(Without(a, key), Without(b, key), (key, Find(a, key).value));
      } else if Find(b, key).Some? {
        SubseqCons(a, Without(b, key), (key, Find(b, key).value));
      }
    case PutOp(_, val) => PutBeside(k, m, a, b, key, val);
  }

  lemma PutBeside<V>(k: nat, m: nat, a: Entries<V>, b: Entries<V>, key: string, val: V)
    requires 0 < k <= m && Beside(k, m, a, b)
    ensures Subseq(PutIn(k, a, key, val), PutIn(m, b, key, val))
    ensures |PutIn(m, b, key, val)| - |PutIn(k, a, key, val)| <= m - k
  {
    FindHas(a, key);
    FindHas(b, key);
    WithoutDistinct(a, key);
    WithoutDistinct(b, key);
    SubseqWithout(a, b, key);
    if Find(a, key).Some? { FoundInBoth(a, b, key); }
    if Find(a, key).None? && |a| >= k {
      SubseqInit(a, b);
      SubseqInit(a, Without(b, key));
    }
    var rest := if Find(a, key).Some? then Without(a, key) else if |a| >= k then a[..|a| - 1] else a;
    var more := if Find(b, key).Some? then Without(b, key) else if |b| >= m then b[..|b| - 1] else b;
    assert Subseq(rest, more);
    SubseqCons(rest, more, (key, val));
  }

  /** Over every run, the contents of a smaller cache are a subsequence of those of a larger one, and the sizes
      differ by no more than the capacities; so each hit of the smaller is a hit of the larger, with the same value. */
  lemma {:induction false} LargerNeverWorse<V>(k: nat, m: nat, ops: seq<CacheOp<V>>)
    requires 0 < k <= m
    ensures Beside(k, m, Run(k, ops), Run(m, ops))
    ensures forall key :: Find(Run(k, ops), key).Some? ==> Find(Run(m, ops), key) == Find(Run(k, ops), key)
  {
    if ops != [] {
      var pre := ops[..|ops| - 1];
      LargerNeverWorse(k, m, pre);
      StepBeside(k, m, Run(k, pre), Run(m, pre), ops[|ops| - 1]);
    }
    forall key | Find(Run(k, ops), key).Some? ensures Find(Run(m, ops), key) == Find(Run(k, ops), key) {
      FoundInBoth(Run(k, ops), Run(m, ops), key);
    }
  }

  // ---------- what a hit answers ----------

  /** A put leaves every other entry as it was, or drops it. */
  lemma FindPut<V>(capacity: nat, s: Entries<V>, key: string, val: V, other: string)
    requires Distinct(s)
    ensures Distinct(PutIn(capacity, s, key, val))
    ensures other == key ==> Find(PutIn(capacity, s, key, val), other) == Some(val)
    ensures other != key && Find(PutIn(capacity, s, key, val), other).Some? ==>
              Find(PutIn(capacity, s, key, val), other) == Find(s, other)
  {
    var t := PutIn(capacity, s, key, val);
    FindHas(s, key);
    WithoutDistinct(s, key);
    if Find(s, key).Some? {
      assert t[1..] == Without(s, key);
      assert forall i :: 0 <= i < |Without(s, key)| ==> Without(s, key)[i].0 != key;
      if other != key { FindWithout(s, key, other); }
    } else {
      var rest := if |s| >= capacity && s != [] then s[..|s| - 1] else s;
      assert t[1..] == rest;
      FindPrefix(s, rest, other);
    }
  }

  lemma FindPrefix<V>(s: Entries<V>, rest: Entries<V>, other: string)
    requires Distinct(s) && rest <= s
    ensures Find(rest, other).Some? ==> Find(rest, other) == Find(s, other)
  {
    FindHas(rest, other);
    FindHas(s, other);
    if Find(rest, other).Some? {
      var i :| 0 <= i < |rest| && rest[i].0 == other;
      assert s[i] == rest[i];
    }
  }

  lemma FindGot<V>(s: Entries<V>, key: string, other: string)
    requires Distinct(s)
    ensures Distinct(Got(s, key)) && Find(Got(s, key), other) == Find(s, other)
  {
    GotOk(s, key);
    if Find(s, key).Some? {
      assert Got(s, key)[1..] == Without(s, key);
      if other != key { FindWithout(s, key, other); }
    }
  }

  lemma FindInvalidated<V>(s: Entries<V>, key: string, other: string)
    requires Distinct(s)
    ensures Distinct(Without(s, key))
    ensures Find(Without(s, key), other) == if other == key then None else Find(s, other)
  {
    WithoutDistinct(s, key);
    FindHas(Without(s, key), key);
    if other != key { FindWithout(s, key, other); }
  }

  /** ops[i] put this value, and no put or delete of the key came after it. */
  ghost predicate LastPut<V>(ops: seq<CacheOp<V>>, i: int, key: string, val: V) {
    0 <= i < |ops| && ops[i] == PutOp(key, val) && forall j :: i < j < |ops| ==> ops[j].key != key || ops[j].GetOp?
  }

  /** At every point of every run, a hit answers the value that was put last, and was not deleted since. */
  lemma {:induction false} HitIsLastPut<V>(capacity: nat, ops: seq<CacheOp<V>>, key: string)
    requires capacity > 0
    ensures var f := Find(Run(capacity, ops), key); f.Some? ==> exists i :: LastPut(ops, i, key, f.value)
  {
    if ops != [] {
      var pre, op := ops[..|ops| - 1], ops[|ops| - 1];
      var s := Run(capacity, pre);
      HitIsLastPut(capacity, pre, key);
      RunOk(capacity, pre);
      match op {
        case PutOp(k, val) => FindPut(capacity, s, k, val, key);
        case GetOp(k) => FindGot(s, k, key);
        case DeleteOp(k) => FindInvalidated(s, k, key);
      }
      var f := Find(Run(capacity, ops), key);
      if f.Some? {
        if op.PutOp? && op.key == key {
          assert LastPut(ops, |ops| - 1, key, f.value);
        } else {
          var i :| LastPut(pre, i, key, f.value);
          assert LastPut(ops, i, key, f.value);
        }
      }
    }
  }

  // ---------- the list is in order of last use ----------

  /** The number of the last operation that put the key or got it with success; 0 if there is none. */
  ghost function LastUse<V>(capacity: nat, ops: seq<CacheOp<V>>, key: string): nat {
    if ops == [] then 0
    else
      var pre, op := ops[..|ops| - 1], ops[|ops| - 1];
      if op.key == key && (op.PutOp? || (op.GetOp? && Find(Run(capacity, pre), key).Some?)) then |ops|
      else LastUse(capacity, pre, key)
  }

  lemma {:induction false} LastUseBound<V>(capacity: nat, ops: seq<CacheOp<V>>, key: string)
    ensures LastUse(capacity, ops, key) <= |ops|
  {
    if ops != [] { LastUseBound(capacity, ops[..|ops| - 1], key); }
  }

  /** Strictly later used entries come strictly earlier. */
  ghost predicate InOrder<V>(capacity: nat, ops: seq<CacheOp<V>>, s: Entries<V>) {
    forall i, j :: 0 <= i < j < |s| ==> LastUse(capacity, ops, s[i].0) > LastUse(capacity, ops, s[j].0)
  }

  lemma {:induction false} WithoutInOrder<V>(capacity: nat, ops: seq<CacheOp<V>>, s: Entries<V>, key: string)
    requires InOrder(capacity, ops, s)
    ensures InOrder(capacity, ops, Without(s, key))
  {
    if s != [] {
      var t := s[1..];
      assert forall i :: 0 <= i < |t| ==> t[i] == s[i + 1];
      WithoutInOrder(capacity, ops, t, key);
      var w := Without(t, key);
      forall i | 0 <= i < |w| ensures LastUse(capacity, ops, s[0].0) > LastUse(capacity, ops, w[i].0) {
        WithoutIn(t, key, w[i]);
        assert w[i] in t;
      }
    }
  }

  /** What one more operation leaves behind the front keeps its order, and the front is the newest. */
  lemma FrontInOrder<V>(capacity: nat, ops: seq<CacheOp<V>>, front: (string, V), rest: Entries<V>)
    requires ops != [] && InOrder(capacity, ops[..|ops| - 1], rest)
    requires forall i :: 0 <= i < |rest| ==> rest[i].0 != ops[|ops| - 1].key
    requires front.0 == ops[|ops| - 1].key && LastUse(capacity, ops, front.0) == |ops|
    ensures InOrder(capacity, ops, [front] + rest)
  {
    var pre := ops[..|ops| - 1];
    forall i | 0 <= i < |rest| ensures LastUse(capacity, ops, rest[i].0) == LastUse(capacity, pre, rest[i].0) < |ops| {
      LastUseBound(capacity, pre, rest[i].0);
    }
  }

  lemma PutInOrder<V>(capacity: nat, ops: seq<CacheOp<V>>)
    requires ops != [] && ops[|ops| - 1].PutOp?
    requires var s := Run(capacity, ops[..|ops| - 1]); Distinct(s) && InOrder(capacity, ops[..|ops| - 1], s)
    ensures InOrder(capacity, ops, Run(capacity, ops))
  {
    var pre, op := ops[..|ops| - 1], ops[|ops| - 1];
    var s := Run(capacity, pre);
    FindHas(s, op.key);
    WithoutDistinct(s, op.key);
    WithoutInOrder(capacity, pre, s, op.key);
    var w := Without(s, op.key);
    assert forall i :: 0 <= i < |w| ==> w[i].0 != op.key;
    var rest := if Find(s, op.key).Some? then w else if |s| >= capacity && s != [] then s[..|s| - 1] else s;
    assert InOrder(capacity, pre, rest);
    hide Run, InOrder;
    FrontInOrder(capacity, ops, (op.key, op.val), rest);
    RunIs(capacity, ops);
  }

  lemma RunIs<V>(capacity: nat, ops: seq<CacheOp<V>>)
    requires ops != []
    ensures Run(capacity, ops) == Step(capacity, Run(capacity, ops[..|ops| - 1]), ops[|ops| - 1])
  {
  }

  /** Over every run the recency list is strictly ordered by last use. */
  lemma {:induction false} OrderIsRecency<V>(capacity: nat, ops: seq<CacheOp<V>>)
    requires capacity > 0
    ensures InOrder(capacity, ops, Run(capacity, ops))
  {
    if ops != [] {
      var pre, op := ops[..|ops| - 1], ops[|ops| - 1];
      var s := Run(capacity, pre);
      OrderIsRecency(capacity, pre);
      RunOk(capacity, pre);
      if op.PutOp? {
        PutInOrder(capacity, ops);
      } else {
        FindHas(s, op.key);
        WithoutDistinct(s, op.key);
        WithoutInOrder(capacity, pre, s, op.key);
        var w := Without(s, op.key);
        assert forall i :: 0 <= i < |w| ==> w[i].0 != op.key;
        if op.GetOp? && Find(s, op.key).Some? {
          FrontInOrder(capacity, ops, (op.key, Find(s, op.key).value), w);
        } else {
          assert Run(capacity, ops) == w;
          assert forall i :: 0 <= i < |w| ==> LastUse(capacity, ops, w[i].0) == LastUse(capacity, pre, w[i].0);
        }
      }
    }
  }

  /** A put of a key pushes out at most the last entry, and only of a full cache without that key. */
  lemma PutPushesLast<V>(capacity: nat, s: Entries<V>, key: string, val: V, i: nat)
    requires Distinct(s) && i < |s| && |s| <= capacity && capacity > 0
    ensures Has(PutIn(capacity, s, key, val), s[i].0) <==> Has(s, key) || |s| < capacity || i < |s| - 1
  {
    var t := PutIn(capacity, s, key, val);
    FindHas(s, key);
    assert t[0].0 == key;
    if Has(s, key) {
      if s[i].0 != key {
        WithoutIn(s, key, s[i]);
        assert s[i] in Without(s, key);
        var j :| 0 <= j < |Without(s, key)| && Without(s, key)[j] == s[i];
        assert t[j + 1].0 == s[i].0;
      }
    } else if |s| < capacity || i < |s| - 1 {
      assert t[i + 1] == s[i];
    }
  }

  /** The one key a put pushes out of a full cache is the one whose last use is oldest. */
  lemma EvictsOldest<V>(capacity: nat, ops: seq<CacheOp<V>>, key: string, val: V, gone: string, other: string)
    requires capacity > 0
    requires var s := Run(capacity, ops);
             Has(s, gone) && !Has(PutIn(capacity, s, key, val), gone) && Has(s, other) && other != gone
    ensures |Run(capacity, ops)| == capacity && !Has(Run(capacity, ops), key)
    ensures LastUse(capacity, ops, gone) < LastUse(capacity, ops, other)
    ensures Has(PutIn(capacity, Run(capacity, ops), key, val), other)
  {
    hide Run, LastUse, PutIn;
    var s := Run(capacity, ops);
    RunOk(capacity, ops);
    OrderIsRecency(capacity, ops);
    var g :| 0 <= g < |s| && s[g].0 == gone;
    var o :| 0 <= o < |s| && s[o].0 == other;
    PutPushesLast(capacity, s, key, val, g);
    PutPushesLast(capacity, s, key, val, o);
  }
}
