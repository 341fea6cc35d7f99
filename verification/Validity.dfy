/** Intervals of validity (DDCore/src/IOV.cpp, DDCore/include/DD4hep/IOV.h). */
module Validity {

  const MIN_KEY: int := -0x8000_0000_0000_0000
  const MAX_KEY: int := 0x7fff_ffff_ffff_ffff

  type Stamp = x: int | MIN_KEY <= x <= MAX_KEY witness 0

  datatype Key = Key(first: Stamp, second: Stamp)

  /** `typed` tells whether the interval carries a type descriptor (a non-null `iovType`). */
  datatype Iov = Iov(typed: bool, key: Key)

  const FOREVER := Key(MIN_KEY, MAX_KEY)

  predicate Covers(k: Key, t: int) {
    k.first <= t <= k.second
  }

  /** `key_contains_range(key, test)`. */
  predicate ContainsRange(key: Key, test: Key) {
    key.first <= test.first && key.second >= test.second
  }

  predicate Within(a: Key, b: Key) {
    ContainsRange(b, a)
  }

  /** The keys-only intersection, `iov_intersection(const Key&)`. */
  function Meet(a: Key, b: Key): Key {
    Key(if b.first > a.first then b.first else a.first,
        if b.second < a.second then b.second else a.second)
  }

  /** `iov_intersection(const IOV&)`: an untyped receiver is overwritten. */
  function Intersection(a: Iov, b: Iov): Iov {
    if !a.typed then b else Iov(true, Meet(a.key, b.key))
  }

  function Union(a: Iov, b: Iov): Iov {
    if !a.typed then b
    else Iov(true, Key(if b.key.first < a.key.first then b.key.first else a.key.first,
                       if b.key.second > a.key.second then b.key.second else a.key.second))
  }

  /** Keys of an interval which covers nothing: what `reset` leaves behind. */
  const NOTHING := Key(MAX_KEY, MIN_KEY)

  lemma IntersectionCovers(a: Iov, b: Iov, t: int)
    requires a.typed
    ensures Covers(Intersection(a, b).key, t) <==> Covers(a.key, t) && Covers(b.key, t)
  {
  }

  /** The union is the smallest interval around both; what is without a type is overwritten. */
  lemma UnionIsHull(a: Iov, b: Iov, k: Key)
    ensures a.typed ==> Union(a, b).typed
    ensures a.typed ==> (ContainsRange(k, Union(a, b).key) <==> ContainsRange(k, a.key) && ContainsRange(k, b.key))
    ensures !a.typed ==> Union(a, b) == b && Intersection(a, b) == b
  {
  }

  /** An interval that spans something is inside another exactly when the other covers all its points. */
  lemma WithinIsPointwise(a: Key, b: Key)
    requires a.first <= a.second
    ensures Within(a, b) <==> forall t: int :: Covers(a, t) ==> Covers(b, t)
  {
    if forall t: int :: Covers(a, t) ==> Covers(b, t) {
      assert Covers(a, a.first) && Covers(a, a.second);
    }
  }

  /** The mutable interval object with its in-place operations. */
  class IntervalOfValidity {
    var typed: bool
    var first: Stamp
    var second: Stamp

    ghost function View(): Iov
      reads this
    {
      Iov(typed, Key(first, second))
    }

    constructor (iov: Iov)
      ensures View() == iov
    {
      typed, first, second := iov.typed, iov.key.first, iov.key.second;
    }

    method Reset()
      modifies this
      ensures View() == Iov(old(typed), NOTHING)
    {
      first := MAX_KEY;
      second := MIN_KEY;
    }

    method Invert()
      modifies this
      ensures View() == Iov(old(typed), Key(old(second), old(first)))
    {
      var tmp := first;
      first := second;
      second := tmp;
    }

    method Intersect(validity: Iov)
      modifies this
      ensures View() == Intersection(old(View()), validity)
      ensures old(typed) ==> forall t :: Covers(View().key, t) <==> Covers(old(View()).key, t) && Covers(validity.key, t)
    {
      if !typed {
        typed, first, second := validity.typed, validity.key.first, validity.key.second;
      } else if validity.key.first > first {
        first := validity.key.first;
      }
      if validity.key.second < second {
        second := validity.key.second;
      }
    }

    method IntersectKey(validity: Key)
      modifies this
      ensures View() == Iov(old(typed), Meet(old(View()).key, validity))
    {
      if validity.first > first {
        first := validity.first;
      }
      if validity.second < second {
        second := validity.second;
      }
    }

    method Unite(validity: Iov)
      modifies this
      ensures View() == Union(old(View()), validity)
      ensures old(typed) ==> forall k :: ContainsRange(k, View().key) <==>
                                         ContainsRange(k, old(View()).key) && ContainsRange(k, validity.key)
    {
      if !typed {
        typed, first, second := validity.typed, validity.key.first, validity.key.second;
      } else if validity.key.first < first {
        first := validity.key.first;
      }
      if validity.key.second > second {
        second := validity.key.second;
      }
    }
  }
}
