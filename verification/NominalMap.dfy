/** Alignments laid over the nominal ones (DDCore/src/AlignmentNominalMap.cpp). */
module NominalMap {
  import opened Wrappers
  import opened Conditions
  import opened ConditionsMaps

  /** The entries which the ordered scan visits, from an entry on. */
  function Part(data: seq<Entry>, up: Key64): seq<Entry> {
    if data == [] || data[0].key > up then [] else [data[0]] + Part(data[1..], up)
  }

  function Range(data: seq<Entry>, low: Key64, up: Key64): seq<Entry> {
    Part(data[LowerBound(data, low)..], up)
  }

  predicate HasKey(data: seq<Entry>, key: Key64) {
    exists e :: e in data && e.key == key
  }

  /** `get` by the hash of the key: the entry, or by default the nominal alignment. */
  function Lookup(data: seq<Entry>, key: Key64, alignHash: Key64, default: Condition): Option<Condition> {
    var i := LowerBound(data, key);
    if i < |data| && data[i].key == key then Some(data[i].condition)
    else if key == alignHash then Some(default)
    else None
  }

  /** What the scan of a range visits; the nominal alignment stands under its own hash. */
  function Overlaid(data: seq<Entry>, low: Key64, up: Key64, alignHash: Key64, default: Condition): seq<Entry> {
    var range := Range(data, low, up);
    if alignHash != 0 && !HasKey(range, alignHash) && InRange(alignHash, low, up)
    then range + [Entry(alignHash, default)] else range
  }

  lemma {:induction false} PartMembers(data: seq<Entry>, up: Key64)
    requires Sorted(data, false)
    ensures forall e :: e in Part(data, up) <==> e in data && e.key <= up
    ensures Sorted(Part(data, up), false)
  {
    if data != [] {
      PartMembers(data[1..], up);
      assert forall e :: e in data <==> e == data[0] || e in data[1..];
      forall e | e in data[1..] ensures Before(data[0], e, false) {
        var i :| 0 <= i < |data[1..]| && data[1..][i] == e;
        assert Before(data[0], data[i + 1], false);
      }
    }
  }

  lemma RangeMembers(data: seq<Entry>, low: Key64, up: Key64)
    requires Sorted(data, false)
    ensures forall e :: e in Range(data, low, up) <==> e in data && InRange(e.key, low, up)
    ensures Sorted(Range(data, low, up), false)
  {
    var i := LowerBound(data, low);
    PartMembers(data[i..], up);
    FromLowerBound(data, low);
    forall e | e in data && low <= e.key ensures e in data[i..] {
      var j :| 0 <= j < |data| && data[j] == e;
      assert e == data[i..][j - i];
    }
  }

  lemma FromLowerBound(data: seq<Entry>, low: Key64)
    requires Sorted(data, false)
    ensures forall e :: e in data[LowerBound(data, low)..] ==> e in data && low <= e.key
  {
    var i := LowerBound(data, low);
    forall e | e in data[i..] ensures e in data && low <= e.key {
      var k :| 0 <= k < |data[i..]| && data[i..][k] == e;
      assert data[i + k] == e;
      assert k > 0 ==> Before(data[i], data[i + k], false);
    }
  }

  lemma LookupEntry(data: seq<Entry>, e: Entry, alignHash: Key64, default: Condition)
    requires Sorted(data, false) && e in data
    ensures Lookup(data, e.key, alignHash, default) == Some(e.condition)
  {
    var i := LowerBound(data, e.key);
    var j :| 0 <= j < |data| && data[j] == e;
    assert i < j ==> Before(data[i], data[j], false);
  }

  lemma LookupNone(data: seq<Entry>, key: Key64, alignHash: Key64, default: Condition)
    requires !HasKey(data, key)
    ensures Lookup(data, key, alignHash, default) == if key == alignHash then Some(default) else None
  {
    var i := LowerBound(data, key);
    if i < |data| {
      assert data[i] in data;
    }
  }

  lemma SortedKeysDiffer(data: seq<Entry>)
    requires Sorted(data, false)
    ensures forall i, j :: 0 <= i < j < |data| ==> data[i].key != data[j].key
  {
    forall i, j | 0 <= i < j < |data| ensures data[i].key != data[j].key {
      assert Before(data[i], data[j], false);
    }
  }

  /** Each key at most once, and with what `get` returns for it. */
  lemma OverlaidIsLookup(data: seq<Entry>, low: Key64, up: Key64, alignHash: Key64, default: Condition)
    requires Sorted(data, false)
    ensures var r := Overlaid(data, low, up, alignHash, default);
            && (forall i, j :: 0 <= i < j < |r| ==> r[i].key != r[j].key)
            && forall e :: e in r ==>
                 InRange(e.key, low, up) && Lookup(data, e.key, alignHash, default) == Some(e.condition)
  {
    RangeMembers(data, low, up);
    var range := Range(data, low, up);
    SortedKeysDiffer(range);
    var r := Overlaid(data, low, up, alignHash, default);
    forall e | e in r ensures InRange(e.key, low, up) && Lookup(data, e.key, alignHash, default) == Some(e.condition) {
      if e in range {
        LookupEntry(data, e, alignHash, default);
      } else {
        LookupNone(data, alignHash, alignHash, default);
      }
    }
    forall i, j | 0 <= i < j < |r| ensures r[i].key != r[j].key {
      assert r[i] == range[i] && range[i] in range;
    }
  }

  /**
   Every key in the range that `get` knows is visited, exactly unless the hash of the alignment
   is zero, lies in the range and has no entry.
   */
  lemma OverlaidIsComplete(data: seq<Entry>, low: Key64, up: Key64, alignHash: Key64, default: Condition)
    requires Sorted(data, false)
    ensures Complete(data, low, up, alignHash, default) <==>
            !(alignHash == 0 && InRange(0, low, up) && !HasKey(data, 0))
  {
    RangeMembers(data, low, up);
    var range := Range(data, low, up);
    var r := Overlaid(data, low, up, alignHash, default);
    if alignHash == 0 && InRange(0, low, up) && !HasKey(data, 0) {
      LookupNone(data, 0, 0, default);
      assert Lookup(data, 0, alignHash, default).Some? && !HasKey(r, 0);
    } else {
      forall key: Key64 | InRange(key, low, up) && Lookup(data, key, alignHash, default).Some? ensures HasKey(r, key) {
        if e :| e in data && e.key == key {
          assert e in range && e in r;
        } else {
          LookupNone(data, key, alignHash, default);
          assert Entry(alignHash, default) in r;
        }
      }
    }
  }

  ghost predicate Complete(data: seq<Entry>, low: Key64, up: Key64, alignHash: Key64, default: Condition) {
    forall key: Key64 :: InRange(key, low, up) && Lookup(data, key, alignHash, default).Some? ==>
                           HasKey(Overlaid(data, low, up, alignHash, default), key)
  }

  function ConditionsOf(data: seq<Entry>): seq<Condition> {
    if data == [] then [] else [data[0].condition] + ConditionsOf(data[1..])
  }

  lemma {:induction false} ConditionsEnd(data: seq<Entry>, e: Entry)
    ensures ConditionsOf(data + [e]) == ConditionsOf(data) + [e.condition]
  {
    if data != [] {
      assert (data + [e])[1..] == data[1..] + [e];
      ConditionsEnd(data[1..], e);
    }
  }

  /** `alignmentKey` is a fixed hash; `nominal` gives the default alignment of an element. */
  class AlignmentsNominalMap {
    const alignmentKey: Key32
    const nominal: Key32 -> Condition
    var data: seq<Entry>

    ghost predicate Valid()
      reads this
    {
      Sorted(data, false)
    }

    constructor (alignmentKey: Key32, nominal: Key32 -> Condition)
      ensures Valid() && data == [] && this.alignmentKey == alignmentKey && this.nominal == nominal
    {
      this.alignmentKey, this.nominal, data := alignmentKey, nominal, [];
    }

    method Insert(det: Key32, item: Key32, condition: Condition) returns (done: bool)
      requires Valid()
      modifies this
      ensures Valid()
      ensures done <==> !Present(old(data), HashOf(det, item))
      ensures if done then multiset(data) == old(multiset(data)) + multiset{Entry(HashOf(det, item), condition)}
              else data == old(data)
    {
      var e := Entry(HashOf(det, item), condition);
      done := !Present(data, e.key);
      if done {
        InsertedSorted(data, false, e);
        InsertedMultiset(data, e);
        data := Inserted(data, e);
      }
    }

    method Get(det: Key32, item: Key32) returns (r: Option<Condition>)
      ensures r == Lookup(data, HashOf(det, item), HashOf(det, alignmentKey), nominal(det))
    {
      var i := LowerBound(data, HashOf(det, item));
      if i < |data| && data[i].key == HashOf(det, item) {
        return Some(data[i].condition);
      }
      return if item == alignmentKey then Some(nominal(det)) else None;
    }

    /** The scan of a range, with what the processor is given collected in `visited`. */
    method ScanRange(det: Key32, lower: Key32, upper: Key32) returns (visited: seq<Condition>)
      requires Valid()
      ensures visited == ConditionsOf(Overlaid(data, HashOf(det, lower), HashOf(det, upper),
                                             HashOf(det, alignmentKey), nominal(det)))
    {
      var low, up := HashOf(det, lower), HashOf(det, upper);
      var alignHash;
      visited, alignHash := ScanEntries(low, up, HashOf(det, alignmentKey));
      RangeOfDetector(det, lower, upper, HashOf(det, alignmentKey));
      if alignHash != 0 {
        if lower <= alignmentKey && upper >= alignmentKey {
          visited := visited + [nominal(det)];
          ConditionsEnd(Range(data, low, up), Entry(HashOf(det, alignmentKey), nominal(det)));
        }
      }
    }

    /** The loop over the entries; the hash of the alignment is cleared when it is met. */
    method ScanEntries(low: Key64, up: Key64, hash: Key64) returns (visited: seq<Condition>, alignHash: Key64)
      requires Valid()
      ensures visited == ConditionsOf(Range(data, low, up))
      ensures alignHash == if HasKey(Range(data, low, up), hash) then 0 else hash
    {
      visited, alignHash := [], hash;
      var i := LowerBound(data, low);
      ghost var done: seq<Entry> := [];
      while i < |data| && data[i].key <= up
        invariant LowerBound(data, low) <= i <= |data|
        invariant done + Part(data[i..], up) == Range(data, low, up)
        invariant visited == ConditionsOf(done)
        invariant alignHash == if HasKey(done, hash) then 0 else hash
      {
        PartNext(done, data, i, up);
        NotBelow(data, low, i);
        if low <= data[i].key && up >= data[i].key {
          visited := visited + [data[i].condition];
          if data[i].key == alignHash {
            alignHash := 0;
          }
        }
        ConditionsEnd(done, data[i]);
        HasKeyEnd(done, data[i], hash);
        done := done + [data[i]];
        i := i + 1;
      }
      assert done == Range(data, low, up);
    }
  }

  lemma NotBelow(data: seq<Entry>, low: Key64, i: nat)
    requires Sorted(data, false) && LowerBound(data, low) <= i < |data|
    ensures data[i].key >= low
  {
    FromLowerBound(data, low);
    assert data[LowerBound(data, low)..][i - LowerBound(data, low)] == data[i];
  }

  lemma PartNext(done: seq<Entry>, data: seq<Entry>, i: nat, up: Key64)
    requires i < |data| && data[i].key <= up
    ensures done + Part(data[i..], up) == (done + [data[i]]) + Part(data[i + 1..], up)
  {
    assert data[i..][1..] == data[i + 1..];
  }

  lemma HasKeyEnd(data: seq<Entry>, e: Entry, key: Key64)
    ensures HasKey(data + [e], key) <==> HasKey(data, key) || e.key == key
  {
    assert e in data + [e];
    if x :| x in data && x.key == key {
      assert x in data + [e];
    }
  }
}
