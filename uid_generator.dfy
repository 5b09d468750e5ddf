/** The UID generator shared by every entity store. Its implementation is not
    part of this model; this module gives it the behaviour its callers rely on:
    a set of live ids over a growable index space in which slot 0 is the
    reserved invalid id, `generate` hands out a fresh id and may grow the
    capacity, `erase` reports whether the id was live, `reserve` never shrinks. */
module UIDs {

  /** The invalid id. Every store keeps a dummy entry in this slot. */
  const InvalidUID: nat := 0

  datatype UIDGenerator = UIDGenerator(live: set<nat>, capacity: nat) {

    /** The invalid id is never live and every live id indexes the capacity. */
    predicate Valid() {
      InvalidUID !in live && forall id :: id in live ==> id < capacity
    }

    predicate Has(id: nat) {
      id in live
    }

    /** True when some slot other than the dummy one is free. */
    predicate HasFreeSlot() {
      exists id :: 0 < id < capacity && id !in live
    }

    /** Smallest free slot at or above `from`, or `capacity` when there is none. */
    function FirstFree(from: nat): (id: nat)
      requires 0 < from <= capacity
      ensures from <= id <= capacity
      ensures id < capacity ==> id !in live
      ensures forall j :: from <= j < id ==> j in live
      decreases capacity - from
    {
      if from == capacity then capacity
      else if from !in live then from
      else FirstFree(from + 1)
    }

    /** Hands out a fresh live id. When every slot is taken the capacity
        doubles (to 2 from an empty index space); otherwise it is unchanged. */
    function Generate(): (r: (UIDGenerator, nat))
      requires Valid()
      ensures r.0.Valid()
      ensures r.1 != InvalidUID && r.1 !in live && r.1 < r.0.capacity
      ensures r.0.live == live + {r.1}
      ensures r.0.capacity >= capacity
      ensures HasFreeSlot() <==> r.0.capacity == capacity
    {
      if capacity == 0 then
        (UIDGenerator({1}, 2), 1)
      else
        var id := FirstFree(1);
        if id < capacity then
          (UIDGenerator(live + {id}, capacity), id)
        else
          assert !HasFreeSlot() by {
            forall j | 0 < j < capacity ensures j in live { }
          }
          (UIDGenerator(live + {capacity}, 2 * capacity), capacity)
    }

    /** Frees `id` for reuse and reports whether it was live. */
    function Erase(id: nat): (r: (UIDGenerator, bool))
      requires Valid()
      ensures r.0.Valid()
      ensures r.1 <==> id in live
      ensures r.0.live == live - {id} && r.0.capacity == capacity
    {
      (UIDGenerator(live - {id}, capacity), id in live)
    }

    /** Grows the capacity to at least `newCapacity`; never shrinks it. */
    function Reserve(newCapacity: nat): (g: UIDGenerator)
      requires Valid()
      ensures g.Valid()
      ensures g.capacity >= newCapacity && g.capacity >= capacity
      ensures g.capacity == capacity || g.capacity == newCapacity
      ensures g.live == live
    {
      UIDGenerator(live, if newCapacity > capacity then newCapacity else capacity)
    }
  }

  /** A generator over `capacity` slots with no live id. */
  function NewGenerator(capacity: nat): (g: UIDGenerator)
    ensures g.Valid() && g.live == {} && g.capacity == capacity
  {
    UIDGenerator({}, capacity)
  }

  /** Two ids generated in a row without an erase in between differ, and both are live. */
  lemma GenerateTwiceDistinct(g: UIDGenerator)
    requires g.Valid()
    ensures var (g1, a) := g.Generate(); var (g2, b) := g1.Generate(); a != b && g2.Has(a) && g2.Has(b)
  {
  }

  /** An erased id is no longer live, and the next generate may hand it out again. */
  lemma {:induction false} EraseMakesReusable(g: UIDGenerator, id: nat)
    requires g.Valid() && g.Has(id)
    ensures var (g1, ok) := g.Erase(id); ok && !g1.Has(id) && g1.HasFreeSlot()
    ensures g.Erase(id).0.Generate().0.capacity == g.capacity
  {
    var (g1, ok) := g.Erase(id);
    assert 0 < id < g1.capacity && id !in g1.live;
  }
}

/** Helpers shared by the structure-of-arrays stores. */
module Storage {

  /** No element occurs twice. */
  predicate Distinct<T(==)>(s: seq<T>) {
    forall i, j :: 0 <= i < j < |s| ==> s[i] != s[j]
  }

  function Min(a: nat, b: nat): nat {
    if a < b then a else b
  }

  /** Allocates an array of `newCapacity` elements, copies the first
      `copyable` elements of `src` into it and fills the rest with the
      element type's default value `fill` (what `new T[n]` default-constructs). */
  method ResizeAndCopy<T>(src: array<T>, newCapacity: nat, copyable: nat, fill: T) returns (r: array<T>)
    requires copyable <= src.Length && copyable <= newCapacity
    ensures fresh(r) && r.Length == newCapacity
    ensures r[..copyable] == src[..copyable]
    ensures forall i :: copyable <= i < newCapacity ==> r[i] == fill
  {
    r := new T[newCapacity](_ => fill);
    var i := 0;
    while i < copyable
      invariant 0 <= i <= copyable
      invariant forall j :: 0 <= j < i ==> r[j] == src[j]
      invariant forall j :: copyable <= j < newCapacity ==> r[j] == fill
    {
      r[i] := src[i];
      i := i + 1;
    }
  }
}
