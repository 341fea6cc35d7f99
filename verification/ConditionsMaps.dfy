/**
 Conditions by detector and item key, in ordered maps: range scans against the scan of everything
 (DDCore/src/ConditionsMap.cpp).
 */
module ConditionsMaps {
  import opened Wrappers
  import opened Conditions

  datatype Entry = Entry(key: Key64, condition: Condition)

  predicate InRange(x: int, low: int, up: int) {
    low <= x <= up
  }

  /** The keys of a detector with items in a range are those between the hashes of the ends. */
  lemma RangeOfDetector(det: Key32, lower: Key32, upper: Key32, key: Key64)
    ensures InRange(key, HashOf(det, lower), HashOf(det, upper)) <==>
            key / WORD == det && InRange(key % WORD, lower, upper)
  {
  }

  /** In the order of the keys; equal keys only in a multimap. */
  predicate Sorted(data: seq<Entry>, multi: bool) {
    forall i, j :: 0 <= i < j < |data| ==> Before(data[i], data[j], multi)
  }

  predicate Before(a: Entry, b: Entry, multi: bool) {
    a.key < b.key || (multi && a.key == b.key)
  }

  function LowerBound(data: seq<Entry>, low: Key64): (i: nat)
    ensures i <= |data|
    ensures forall j :: 0 <= j < i ==> data[j].key < low
    ensures i < |data| ==> data[i].key >= low
  {
    if data == [] || data[0].key >= low then 0
    else
      var i := LowerBound(data[1..], low);
      assert forall j :: 0 < j <= i ==> data[j] == data[1..][j - 1];
      i + 1
  }

  /** What the ordered scan visits from an entry on. */
  function UpTo(data: seq<Entry>, up: Key64): seq<Condition> {
    if data == [] || data[0].key > up then [] else [data[0].condition] + UpTo(data[1..], up)
  }

  /** `ConditionsMapping::scan` over a range. */
  function RangeScan(data: seq<Entry>, low: Key64, up: Key64): seq<Condition> {
    UpTo(data[LowerBound(data, low)..], up)
  }

  /** `ConditionsMap::scan` over a range: of everything, what has its own hash in the range. */
  function FilteredScan(data: seq<Entry>, low: Key64, up: Key64): seq<Condition> {
    if data == [] then []
    else (if InRange(data[0].condition.hash, low, up) then [data[0].condition] else []) +
         FilteredScan(data[1..], low, up)
  }

  /** Everything entered under a key in the range. */
  function ByKey(data: seq<Entry>, low: Key64, up: Key64): seq<Condition> {
    if data == [] then []
    else (if InRange(data[0].key, low, up) then [data[0].condition] else []) + ByKey(data[1..], low, up)
  }

  /** Each entry in the range gives its condition once, in its place. */
  lemma {:induction false} ByKeyJoins(data: seq<Entry>, more: seq<Entry>, low: Key64, up: Key64)
    ensures ByKey(data + more, low, up) == ByKey(data, low, up) + ByKey(more, low, up)
    ensures |data| == 1 ==> ByKey(data, low, up) == if low <= data[0].key <= up then [data[0].condition] else []
    decreases |data|
  {
    if data == [] {
      assert data + more == more;
    } else {
      assert (data + more)[1..] == data[1..] + more;
      ByKeyJoins(data[1..], more, low, up);
    }
  }

  /** A range scan visits each entry in the range once, in the order of the keys. */
  lemma RangeScanIsExact(data: seq<Entry>, multi: bool, low: Key64, up: Key64, i: nat)
    requires Sorted(data, multi) && i < |data|
    ensures RangeScan(data, low, up) ==
            ByKey(data[..i], low, up) + (if low <= data[i].key <= up then [data[i].condition] else []) +
            ByKey(data[i + 1..], low, up)
  {
    RangeScanIsByKey(data, multi, low, up);
    assert data == data[..i] + ([data[i]] + data[i + 1..]);
    ByKeyJoins(data[..i], [data[i]] + data[i + 1..], low, up);
    ByKeyJoins([data[i]], data[i + 1..], low, up);
  }

  lemma {:induction false} UpToIsByKey(data: seq<Entry>, multi: bool, low: Key64, up: Key64)
    requires Sorted(data, multi) && (data != [] ==> data[0].key >= low)
    ensures UpTo(data, up) == ByKey(data, low, up)
  {
    if data != [] {
      UpToIsByKey(data[1..], multi, low, up);
      if data[0].key > up {
        NoneByKey(data[1..], low, up);
      }
    }
  }

  lemma {:induction false} NoneByKey(data: seq<Entry>, low: Key64, up: Key64)
    requires forall i :: 0 <= i < |data| ==> !InRange(data[i].key, low, up)
    ensures ByKey(data, low, up) == []
  {
    if data != [] {
      NoneByKey(data[1..], low, up);
    }
  }

  lemma {:induction false} RangeScanIsByKey(data: seq<Entry>, multi: bool, low: Key64, up: Key64)
    requires Sorted(data, multi)
    ensures RangeScan(data, low, up) == ByKey(data, low, up)
  {
    if data == [] || data[0].key >= low {
      assert data[0..] == data;
      UpToIsByKey(data, multi, low, up);
    } else {
      RangeScanIsByKey(data[1..], multi, low, up);
    }
  }

  /** The two notions of being in the range are the same for an entry. */
  predicate SameRange(e: Entry, low: Key64, up: Key64) {
    InRange(e.key, low, up) <==> InRange(e.condition.hash, low, up)
  }

  lemma {:induction false} ByKeyMembers(data: seq<Entry>, low: Key64, up: Key64)
    ensures forall e :: e in data && InRange(e.key, low, up) ==> e.condition in ByKey(data, low, up)
    ensures forall c :: c in FilteredScan(data, low, up) ==> InRange(c.hash, low, up)
  {
    if data != [] {
      ByKeyMembers(data[1..], low, up);
      assert forall e :: e in data <==> e == data[0] || e in data[1..];
    }
  }

  lemma {:induction false} FilterLengths(data: seq<Entry>, low: Key64, up: Key64)
    requires forall e :: e in data && InRange(e.key, low, up) ==> InRange(e.condition.hash, low, up)
    ensures |ByKey(data, low, up)| <= |FilteredScan(data, low, up)|
    ensures |ByKey(data, low, up)| == |FilteredScan(data, low, up)| ==> forall e :: e in data ==> SameRange(e, low, up)
  {
    if data != [] {
      assert forall e :: e in data <==> e == data[0] || e in data[1..];
      FilterLengths(data[1..], low, up);
    }
  }

  lemma {:induction false} SameRangeSameScan(data: seq<Entry>, low: Key64, up: Key64)
    requires forall e :: e in data ==> SameRange(e, low, up)
    ensures ByKey(data, low, up) == FilteredScan(data, low, up)
  {
    if data != [] {
      assert data[0] in data;
      SameRangeSameScan(data[1..], low, up);
    }
  }

  /**
   The scan of a range from its lower bound visits what the filtered scan of everything visits,
   in the same order, exactly when no condition has a hash that puts it on the other side of the range
   than its key does.
   */
  lemma RangeScanIsFiltered(data: seq<Entry>, multi: bool, low: Key64, up: Key64)
    requires Sorted(data, multi)
    ensures RangeScan(data, low, up) == FilteredScan(data, low, up) <==> forall e :: e in data ==> SameRange(e, low, up)
  {
    RangeScanIsByKey(data, multi, low, up);
    ByKeyMembers(data, low, up);
    if forall e :: e in data ==> SameRange(e, low, up) {
      SameRangeSameScan(data, low, up);
    } else if ByKey(data, low, up) == FilteredScan(data, low, up) {
      FilterLengths(data, low, up);
    }
  }

  /** Entries hold conditions whose hash is their key: then both scans agree on every range. */
  lemma ScansAgree(data: seq<Entry>, multi: bool, det: Key32, lower: Key32, upper: Key32)
    requires Sorted(data, multi) && forall e :: e in data ==> e.condition.hash == e.key
    ensures RangeScan(data, HashOf(det, lower), HashOf(det, upper)) ==
            FilteredScan(data, HashOf(det, lower), HashOf(det, upper))
    ensures forall c :: c in RangeScan(data, HashOf(det, lower), HashOf(det, upper)) <==>
              Entry(c.hash, c) in data && c.hash / WORD == det && InRange(c.hash % WORD, lower, upper)
  {
    var low, up := HashOf(det, lower), HashOf(det, upper);
    RangeScanIsFiltered(data, multi, low, up);
    FilteredMembers(data, low, up);
    forall c: Condition ensures InRange(c.hash, low, up) <==> c.hash / WORD == det && InRange(c.hash % WORD, lower, upper) {
      RangeOfDetector(det, lower, upper, c.hash);
    }
  }

  lemma {:induction false} FilteredMembers(data: seq<Entry>, low: Key64, up: Key64)
    requires forall e :: e in data ==> e.condition.hash == e.key
    ensures forall c :: c in FilteredScan(data, low, up) <==> Entry(c.hash, c) in data && InRange(c.hash, low, up)
  {
    if data != [] {
      assert data[0] in data;
      FilteredMembers(data[1..], low, up);
      assert forall e :: e in data <==> e == data[0] || e in data[1..];
      assert data[0] == Entry(data[0].condition.hash, data[0].condition);
    }
  }

  /** The index after the last entry whose key is at most `key`. */
  function UpperBound(data: seq<Entry>, key: Key64): (i: nat)
    ensures i <= |data|
    ensures forall j :: 0 <= j < i ==> data[j].key <= key
    ensures i < |data| ==> data[i].key > key
  {
    if data == [] || data[0].key > key then 0
    else
      var i := UpperBound(data[1..], key);
      assert forall j :: 0 < j <= i ==> data[j] == data[1..][j - 1];
      i + 1
  }

  predicate Present(data: seq<Entry>, key: Key64) {
    var i := LowerBound(data, key);
    i < |data| && data[i].key == key
  }

  lemma PresentIs(data: seq<Entry>, multi: bool, key: Key64)
    requires Sorted(data, multi)
    ensures Present(data, key) <==> exists e :: e in data && e.key == key
  {
    var i := LowerBound(data, key);
    if e :| e in data && e.key == key {
      var j :| 0 <= j < |data| && data[j] == e;
      assert i <= j;
    }
  }

  function Inserted(data: seq<Entry>, e: Entry): seq<Entry> {
    var i := UpperBound(data, e.key);
    data[..i] + [e] + data[i..]
  }

  lemma InsertedMultiset(data: seq<Entry>, e: Entry)
    ensures multiset(Inserted(data, e)) == multiset(data) + multiset{e}
  {
    var i := UpperBound(data, e.key);
    assert data == data[..i] + data[i..];
  }

  lemma InsertedSorted(data: seq<Entry>, multi: bool, e: Entry)
    requires Sorted(data, multi) && (multi || !Present(data, e.key))
    ensures Sorted(Inserted(data, e), multi)
  {
    PresentIs(data, multi, e.key);
    var i := UpperBound(data, e.key);
    var more := Inserted(data, e);
    assert |more| == |data| + 1;
    forall j, k | 0 <= j < k < |more| ensures Before(more[j], more[k], multi) {
      InsertedAt(data, e, j);
      InsertedAt(data, e, k);
      assert j < i ==> data[j] in data;
    }
  }

  lemma InsertedAt(data: seq<Entry>, e: Entry, j: nat)
    requires j <= |data|
    ensures var i := UpperBound(data, e.key);
            Inserted(data, e)[j] == if j < i then data[j] else if j == i then e else data[j - 1]
  {
    var i := UpperBound(data, e.key);
    assert data[..i] + [e] + data[i..] == Inserted(data, e);
  }

  /** `ConditionsMapping` over `std::map`, or over `std::multimap` if `multi`. */
  class ConditionsMapping {
    const multi: bool
    var data: seq<Entry>

    ghost predicate Valid()
      reads this
    {
      Sorted(data, multi)
    }

    constructor (multi: bool)
      ensures Valid() && this.multi == multi && data == []
    {
      this.multi, data := multi, [];
    }

    method Insert(det: Key32, item: Key32, condition: Condition) returns (done: bool)
      requires Valid()
      modifies this
      ensures Valid()
      ensures done <==> multi || !Present(old(data), HashOf(det, item))
      ensures if done then multiset(data) == old(multiset(data)) + multiset{Entry(HashOf(det, item), condition)}
              else data == old(data)
    {
      var e := Entry(HashOf(det, item), condition);
      done := multi || !Present(data, e.key);
      if done {
        InsertedSorted(data, multi, e);
        InsertedMultiset(data, e);
        data := Inserted(data, e);
      }
    }

    /** Some condition under the key, if there is one. */
    method Get(det: Key32, item: Key32) returns (r: Option<Condition>)
      requires Valid()
      ensures r.Some? ==> Entry(HashOf(det, item), r.value) in data
      ensures r == None ==> forall e :: e in data ==> e.key != HashOf(det, item)
    {
      var key := HashOf(det, item);
      PresentIs(data, multi, key);
      var i := LowerBound(data, key);
      r := if i < |data| && data[i].key == key then Some(data[i].condition) else None;
    }

    /** The scan of a range, with what the processor is given collected in `visited`. */
    method ScanRange(det: Key32, lower: Key32, upper: Key32) returns (visited: seq<Condition>)
      ensures visited == RangeScan(data, HashOf(det, lower), HashOf(det, upper))
    {
      var up := HashOf(det, upper);
      var first := LowerBound(data, HashOf(det, lower));
      visited := [];
      while first < |data| && data[first].key <= up
        invariant 0 <= first <= |data|
        invariant visited + UpTo(data[first..], up) == RangeScan(data, HashOf(det, lower), up)
      {
        assert data[first..][1..] == data[first + 1..];
        visited := visited + [data[first].condition];
        first := first + 1;
      }
    }

    /** `ConditionsMap::get` over a range: the scan of everything behind a filter. */
    method GetRange(det: Key32, lower: Key32, upper: Key32) returns (result: seq<Condition>)
      ensures result == FilteredScan(data, HashOf(det, lower), HashOf(det, upper))
    {
      var low, up := HashOf(det, lower), HashOf(det, upper);
      result := [];
      var i := 0;
      assert data[0..] == data;
      while i < |data|
        invariant 0 <= i <= |data|
        invariant result + FilteredScan(data[i..], low, up) == FilteredScan(data, low, up)
      {
        assert data[i..][1..] == data[i + 1..];
        if low <= data[i].condition.hash <= up {
          result := result + [data[i].condition];
        }
        i := i + 1;
      }
    }
  }
}
