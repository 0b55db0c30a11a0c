/** Interning pools, abstractly: numbered slots, some of which the pool's index still knows.
    Both pools of the store (scalars and nodes) are instances. Slot 0 is the sentinel, ids are
    never handed out twice, and a slot that left the index holds the zero content. */
module Pools {

  datatype Pool<T> = Pool(slots: seq<T>, live: set<nat>)

  ghost predicate Ok<T(!new)>(p: Pool<T>, zero: T) {
    && |p.slots| > 0
    && (forall i :: i in p.live ==> 0 < i < |p.slots|)
    && (forall i, j :: i in p.live && j in p.live && p.slots[i] == p.slots[j] ==> i == j)
    && (forall i :: 0 <= i < |p.slots| && i !in p.live ==> p.slots[i] == zero)
  }

  ghost predicate HeldAt<T>(p: Pool<T>, i: nat, x: T) {
    i in p.live && i < |p.slots| && p.slots[i] == x
  }

  ghost predicate Has<T(!new)>(p: Pool<T>, x: T) {
    exists i :: HeldAt(p, i, x)
  }

  /** What interning `x` makes of the pool. */
  ghost function Insert<T(!new)>(p: Pool<T>, x: T): Pool<T> {
    if Has(p, x) then p else Pool(p.slots + [x], p.live + {|p.slots|})
  }

  /** What deleting everything outside `keep` makes of the pool. */
  ghost function Sweep<T>(p: Pool<T>, keep: set<nat>, zero: T): Pool<T> {
    Pool(seq(|p.slots|, i requires 0 <= i < |p.slots| => if i in p.live && i !in keep then zero else p.slots[i]),
         p.live * keep)
  }

  /** q is p after some interning: old slots untouched, every new slot live. */
  ghost predicate Grew<T>(p: Pool<T>, q: Pool<T>) {
    && p.slots <= q.slots
    && forall i: nat :: i in q.live <==> i in p.live || |p.slots| <= i < |q.slots|
  }

  /** Every live slot of p is a live slot of q with the same content. */
  ghost predicate Within<T>(p: Pool<T>, q: Pool<T>) {
    && p.live <= q.live
    && forall i :: i in p.live ==> i < |p.slots| && i < |q.slots| && p.slots[i] == q.slots[i]
  }

  lemma InsertOk<T(!new)>(p: Pool<T>, x: T, zero: T)
    requires Ok(p, zero)
    ensures Ok(Insert(p, x), zero) && Grew(p, Insert(p, x)) && Within(p, Insert(p, x))
    ensures Has(Insert(p, x), x)
  {
    var q := Insert(p, x);
    if !Has(p, x) {
      assert HeldAt(q, |p.slots|, x);
      assert forall i :: i in p.live ==> !HeldAt(p, i, x);
    }
  }

  lemma SweepOk<T(!new)>(p: Pool<T>, keep: set<nat>, zero: T)
    requires Ok(p, zero)
    ensures Ok(Sweep(p, keep, zero), zero) && Within(Sweep(p, keep, zero), p)
  {
  }

  lemma GrewTransitive<T>(p: Pool<T>, q: Pool<T>, r: Pool<T>)
    requires Grew(p, q) && Grew(q, r)
    ensures Grew(p, r)
  {
  }
}
