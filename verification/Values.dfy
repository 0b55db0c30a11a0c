/** The JSON-like trees the store holds: what callers pass in (Raw) and what comes back (Value). */
module Values {

  type int64 = n: int | -0x8000_0000_0000_0000 <= n < 0x8000_0000_0000_0000
  type uint64 = n: int | 0 <= n < 0x1_0000_0000_0000_0000
  type int32 = n: int | -0x8000_0000 <= n < 0x8000_0000
  type uint32 = n: int | 0 <= n < 0x1_0000_0000

  /** A float64 up to Go's ==, without NaN: both zeros are one value. */
  datatype Float = Finite(r: real) | PosInf | NegInf

  datatype Scalar = Nil | Str(s: string) | Int(n: int64) | Flt(f: Float) | Bool(b: bool)

  datatype Value =
    | Leaf(scalar: Scalar)
    | Map(entries: map<string, Value>)
    | Slice(items: seq<Value>)

  /** Scalars by their Go dynamic type; Other is any type outside the switch, by its "%v" text. */
  datatype RawScalar =
    | RNil | RString(s: string) | RInt64(i: int64) | RFloat64(f: Float) | RBool(b: bool)
    | RInt(n: int64) | RInt32(n32: int32) | RUint(u: uint64) | RUint32(u32: uint32) | RUint64(u64: uint64)
    | ROther(text: string)

  datatype Raw =
    | RawLeaf(raw: RawScalar)
    | RawMap(fields: map<string, Raw>)
    | RawSlice(elems: seq<Raw>)

  /** Go's conversion of a uint64 to an int64 keeps the bits. */
  function Wrap(u: uint64): int64 {
    if u < 0x8000_0000_0000_0000 then u else u - 0x1_0000_0000_0000_0000
  }

  function Normalize(r: RawScalar): Scalar {
    match r
    case RNil => Nil
    case RString(s) => Str(s)
    case RInt64(i) => Int(i)
    case RFloat64(f) => Flt(f)
    case RBool(b) => Bool(b)
    case RInt(n) => Int(n)
    case RInt32(n) => Int(n)
    case RUint(u) => Int(Wrap(u))
    case RUint32(u) => Int(u)
    case RUint64(u) => Int(Wrap(u))
    case ROther(text) => Str(text)
  }

  function Canon(v: Raw): Value {
    match v
    case RawLeaf(r) => Leaf(Normalize(r))
    case RawMap(fields) => Map(map k | k in fields :: Canon(fields[k]))
    case RawSlice(elems) => Slice(seq(|elems|, i requires 0 <= i < |elems| => Canon(elems[i])))
  }

  lemma CanonIsMap(fields: map<string, Raw>)
    ensures Canon(RawMap(fields)).Map?
  {
  }

  // ---------- what canonical form means ----------

  const TWO64 := 0x1_0000_0000_0000_0000

  /** An integer of another type than int64. */
  predicate OtherInteger(r: RawScalar) {
    r.RInt? || r.RInt32? || r.RUint? || r.RUint32? || r.RUint64?
  }

  function Number(r: RawScalar): int
    requires OtherInteger(r)
  {
    if r.RInt? then r.n else if r.RInt32? then r.n32 else if r.RUint? then r.u else if r.RUint32? then r.u32 else r.u64
  }

  /** A stored scalar in the type the store itself uses for it. */
  function AsRawScalar(s: Scalar): RawScalar {
    match s
    case Nil => RNil
    case Str(t) => RString(t)
    case Int(n) => RInt64(n)
    case Flt(f) => RFloat64(f)
    case Bool(b) => RBool(b)
  }

  /** A stored tree as an input of the store's own types. */
  function AsRaw(v: Value): Raw {
    match v
    case Leaf(s) => RawLeaf(AsRawScalar(s))
    case Map(m) => RawMap(map k | k in m :: AsRaw(m[k]))
    case Slice(items) => RawSlice(seq(|items|, i requires 0 <= i < |items| => AsRaw(items[i])))
  }

  function AsRawFields(m: map<string, Value>): map<string, Raw> {
    AsRaw(Map(m)).fields
  }

  /** Scalars of the store's types stand for themselves, other integers for the int64 congruent to them modulo 2^64,
      and everything else for its text. */
  ghost predicate ScalarStandsFor(r: RawScalar, s: Scalar) {
    if OtherInteger(r) then s.Int? && (s.n - Number(r)) % TWO64 == 0
    else if r.ROther? then s == Str(r.text)
    else r == AsRawScalar(s)
  }

  /** Maps and slices keep their keys, lengths and order. */
  ghost predicate StandsFor(raw: Raw, v: Value) {
    match raw
    case RawLeaf(r) => v.Leaf? && ScalarStandsFor(r, v.scalar)
    case RawMap(fields) =>
      v.Map? && v.entries.Keys == fields.Keys && forall k :: k in fields ==> StandsFor(fields[k], v.entries[k])
    case RawSlice(elems) =>
      v.Slice? && |v.items| == |elems| && forall i :: 0 <= i < |elems| ==> StandsFor(elems[i], v.items[i])
  }

  lemma Congruent(a: int64, b: int64)
    requires (a - b) % TWO64 == 0
    ensures a == b
  {
  }

  lemma NormalizeIff(r: RawScalar, s: Scalar)
    ensures Normalize(r) == s <==> ScalarStandsFor(r, s)
  {
    if OtherInteger(r) && s.Int? && (s.n - Number(r)) % TWO64 == 0 {
      assert (Normalize(r).n - Number(r)) % TWO64 == 0;
      assert (s.n - Normalize(r).n) % TWO64 == 0;
      Congruent(s.n, Normalize(r).n);
    }
  }

  /** The canonical form of a tree is the one stored tree it stands for. */
  lemma {:induction false} CanonIff(raw: Raw, v: Value)
    ensures Canon(raw) == v <==> StandsFor(raw, v)
  {
    hide Normalize, ScalarStandsFor;
    match raw {
      case RawLeaf(r) => if v.Leaf? { NormalizeIff(r, v.scalar); }
      case RawMap(fields) =>
        if v.Map? && v.entries.Keys == fields.Keys {
          forall k | k in fields ensures Canon(fields[k]) == v.entries[k] <==> StandsFor(fields[k], v.entries[k]) {
            CanonIff(fields[k], v.entries[k]);
          }
          var c := map k | k in fields :: Canon(fields[k]);
          assert c == v.entries <==> forall k :: k in fields ==> Canon(fields[k]) == v.entries[k];
        }
      case RawSlice(elems) =>
        if v.Slice? && |v.items| == |elems| {
          forall i | 0 <= i < |elems| ensures Canon(elems[i]) == v.items[i] <==> StandsFor(elems[i], v.items[i]) {
            CanonIff(elems[i], v.items[i]);
          }
        }
    }
  }

  /** A tree of the store's own types is stored as it is. */
  lemma {:induction false} CanonRestores(v: Value)
    ensures Canon(AsRaw(v)) == v
  {
    match v {
      case Leaf(s) => assert Normalize(AsRawScalar(s)) == s;
      case Map(m) => forall k | k in m ensures Canon(AsRaw(m[k])) == m[k] { CanonRestores(m[k]); }
      case Slice(items) =>
        forall i | 0 <= i < |items| ensures Canon(AsRaw(items[i])) == items[i] { CanonRestores(items[i]); }
    }
  }

  lemma FieldsRestored(m: map<string, Value>)
    ensures Canon(RawMap(AsRawFields(m))) == Map(m)
  {
    CanonRestores(Map(m));
  }

  /** An integer keeps its value exactly when that is below 2^63; otherwise it turns negative. */
  lemma IntegersWrap(r: RawScalar)
    requires OtherInteger(r)
    ensures Normalize(r).Int? && (Normalize(r).n - Number(r)) % TWO64 == 0
    ensures Normalize(r).n == Number(r) <==> Number(r) < 0x8000_0000_0000_0000
  {
  }

  /** The distinct subvalues of v, v included. */
  ghost function Sub(v: Value): set<Value> {
    match v
    case Leaf(_) => {v}
    case Map(m) => {v} + set k, u | k in m && u in Sub(m[k]) :: u
    case Slice(s) => {v} + set i, u | 0 <= i < |s| && u in Sub(s[i]) :: u
  }

  /** The distinct non-nil scalars and map keys in v. */
  ghost function Scalars(v: Value): set<Scalar> {
    match v
    case Leaf(s) => {s} - {Nil}
    case Map(m) => (set k | k in m :: Str(k)) + set k, s | k in m && s in Scalars(m[k]) :: s
    case Slice(items) => set i, s | 0 <= i < |items| && s in Scalars(items[i]) :: s
  }
}
