/**
 * The slot pool that every long-lived object of the simulation lives in,
 * seen from outside: a map from slot index to record, bounded by the
 * maximum population of its typed identifier.
 *
 * The allocator itself (block growth, lowest-free-slot reuse) is not part
 * of this model; an allocation may pick any free index below the limit.
 */
module Pool {

  datatype Option<+T> = None | Some(value: T)

  /**
   * The parameters of a `PoolID<TBase, TTag, TEnd, TInvalid>`: `range` is
   * the number of values of the underlying integer type, `end` the maximum
   * population (and the first index that is never handed out) and
   * `invalid` the sentinel.
   */
  datatype IdSpace = IdSpace(range: nat, end: nat, invalid: nat) {
    /** The sentinel is representable and is never an index of a slot. */
    predicate Valid() {
      end <= invalid < range
    }
  }

  /** The slot indices below `n`. */
  function Indices(n: nat): (s: set<nat>)
    ensures forall i: nat :: i in s <==> i < n
  {
    if n == 0 then {} else Indices(n - 1) + {n - 1}
  }

  lemma {:induction false} IndicesCardinality(n: nat)
    ensures |Indices(n)| == n
  {
    if n == 0 {
      assert Indices(0) == {};
    } else {
      IndicesCardinality(n - 1);
      assert Indices(n) == Indices(n - 1) + {n - 1};
    }
  }

  /** A subset of a finite set is no larger than it. */
  lemma {:induction false} SubsetCardinality(a: set<nat>, b: set<nat>)
    requires a <= b
    ensures |a| <= |b|
    decreases b
  {
    if b != {} {
      var x :| x in b;
      SubsetCardinality(a - {x}, b - {x});
    }
  }

  /** A pool of records of type `T`: the live slots and their contents. */
  datatype Pool<T> = Pool(ids: IdSpace, items: map<nat, T>) {

    /** Every live slot has an index below the population limit. */
    ghost predicate Valid() {
      ids.Valid() && forall i :: i in items ==> i < ids.end
    }

    /** The number of live slots. */
    function Size(): nat {
      |items|
    }

    /** `PoolItem::IsValidID`: the index names a live slot. */
    predicate IsValidID(i: int)
      ensures Valid() && IsValidID(i) ==> i < ids.end && i != ids.invalid
    {
      i >= 0 && i in items
    }

    /**
     * `PoolItem::GetIfValid`: the record in a live slot, or nothing. What
     * it finds always sits below the limit, so the sentinel finds nothing.
     */
    function GetIfValid(i: int): (r: Option<T>)
      ensures Valid() && r.Some? ==> 0 <= i < ids.end
      ensures Valid() && i == ids.invalid ==> r == None
    {
      if IsValidID(i) then Some(items[i]) else None
    }

    /**
     * `PoolItem::CanAllocateItem()`: one more item fits under the limit,
     * which on a valid pool is exactly when some index below the limit is
     * free for the `new` that follows.
     */
    predicate CanAllocateItem()
      ensures Valid() ==> (CanAllocateItem() <==> exists i: nat :: i < ids.end && i !in items)
    {
      CapacityMeansFreeSlot(items, ids.end);
      |items| < ids.end
    }
  }

  /** A subset no smaller than its superset is all of it. */
  lemma {:induction false} EqualCardinalitySubset(a: set<nat>, b: set<nat>)
    requires a <= b && |b| <= |a|
    ensures a == b
  {
    forall x | x in b
      ensures x in a
    {
      if x !in a {
        SubsetCardinality(a, b - {x});
      }
    }
  }

  /**
   * Pigeonhole for slot indices: when every live index lies below `end`,
   * there are fewer than `end` live slots exactly when some index below
   * `end` is free.
   */
  lemma CapacityMeansFreeSlot<T>(items: map<nat, T>, end: nat)
    ensures (forall i :: i in items ==> i < end) ==>
      (|items| < end <==> exists i: nat :: i < end && i !in items)
  {
    if forall i :: i in items ==> i < end {
      assert items.Keys <= Indices(end);
      IndicesCardinality(end);
      if |items| < end {
        if forall i: nat :: i < end ==> i in items {
          assert Indices(end) <= items.Keys;
          SubsetCardinality(Indices(end), items.Keys);
          assert false;
        }
      } else {
        EqualCardinalitySubset(items.Keys, Indices(end));
        assert forall i: nat :: i < end ==> i in items;
      }
    }
  }

  /**
   * The population of a valid pool never exceeds its limit, and the
   * sentinel never names a live slot.
   */
  lemma PopulationBounded<T>(p: Pool<T>)
    requires p.Valid()
    ensures p.Size() <= p.ids.end
    ensures !p.IsValidID(p.ids.invalid)
  {
    assert p.items.Keys <= Indices(p.ids.end);
    SubsetCardinality(p.items.Keys, Indices(p.ids.end));
    IndicesCardinality(p.ids.end);
  }
}
