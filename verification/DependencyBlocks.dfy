/** The blocks in which the second pass registers the derived conditions. */
module DependencyBlocks {
  import opened Validity
  import opened Wrappers
  import opened DependencyEngine

  type Blocks = map<Key, seq<Hash>>

  /** One block for each validity, holding the conditions in the order of the table. */
  function BlocksOf(items: map<Hash, Work>, order: seq<Hash>): (b: Blocks)
    requires forall k :: k in order ==> k in items
    decreases order
  {
    if order == [] then map[]
    else
      var b, k := BlocksOf(items, Front(order)), Last(order);
      Add(b, items[k].iov.key, k)
  }

  function Add(b: Blocks, v: Key, k: Hash): Blocks {
    b[v := (if v in b then b[v] else []) + [k]]
  }

  /** Number of conditions in all blocks. */
  ghost function Size(b: Blocks): nat {
    SizeOver(b, b.Keys)
  }

  ghost function SizeOver(b: Blocks, keys: set<Key>): nat
    requires keys <= b.Keys
  {
    if keys == {} then 0
    else
      var v :| v in keys;
      |b[v]| + SizeOver(b, keys - {v})
  }

  lemma {:induction false} SizeWithout(b: Blocks, keys: set<Key>, v: Key)
    requires keys <= b.Keys && v in keys
    ensures SizeOver(b, keys) == |b[v]| + SizeOver(b, keys - {v})
    decreases keys
  {
    var u :| u in keys && SizeOver(b, keys) == |b[u]| + SizeOver(b, keys - {u});
    if u != v {
      SizeWithout(b, keys - {u}, v);
      SizeWithout(b, keys - {v}, u);
      assert keys - {u} - {v} == keys - {v} - {u};
    }
  }

  lemma {:induction false} SizeSame(b: Blocks, d: Blocks, keys: set<Key>)
    requires keys <= b.Keys && keys <= d.Keys && forall v :: v in keys ==> b[v] == d[v]
    ensures SizeOver(b, keys) == SizeOver(d, keys)
    decreases keys
  {
    if keys != {} {
      var v :| v in keys;
      SizeSame(b, d, keys - {v});
      SizeWithout(b, keys, v);
      SizeWithout(d, keys, v);
    }
  }

  lemma SizeOfAdd(b: Blocks, v: Key, k: Hash)
    ensures Size(Add(b, v, k)) == Size(b) + 1
  {
    var d := Add(b, v, k);
    SizeWithout(d, d.Keys, v);
    if v in b {
      SizeWithout(b, b.Keys, v);
      SizeSame(b, d, b.Keys - {v});
      assert d.Keys - {v} == b.Keys - {v};
    } else {
      SizeSame(b, d, b.Keys);
      assert d.Keys - {v} == b.Keys;
    }
  }

  /** `k` is in the block of its validity and in no other. */
  predicate Filed(b: Blocks, items: map<Hash, Work>, k: Hash)
    requires k in items
  {
    && items[k].iov.key in b && k in b[items[k].iov.key]
    && forall v :: v in b && k in b[v] ==> v == items[k].iov.key
  }

  /** The blocks partition the table: each condition is in exactly one block, once; the key of
      a block is the validity of all in it; no block is empty; the sizes sum to the table's. */
  lemma {:induction false} BlocksPartition(items: map<Hash, Work>, order: seq<Hash>)
    requires Distinct(order) && forall k :: k in order ==> k in items
    ensures var b := BlocksOf(items, order);
            && (forall k :: k in order ==> Filed(b, items, k))
            && (forall v :: v in b ==> b[v] != [] && Distinct(b[v]))
            && (forall v, k :: v in b && k in b[v] ==> k in order && items[k].iov.key == v)
            && Size(b) == |order|
    decreases order
  {
    if order != [] {
      var k := Last(order);
      assert order == Front(order) + [k];
      BlocksPartition(items, Front(order));
      SizeOfAdd(BlocksOf(items, Front(order)), items[k].iov.key, k);
      assert k !in Front(order);
    }
  }

  /** What of the table has the validity `v`, in its order. */
  function With(items: map<Hash, Work>, order: seq<Hash>, v: Key): seq<Hash>
    requires forall k :: k in order ==> k in items
  {
    if order == [] then []
    else
      assert order[0] in order;
      (if items[order[0]].iov.key == v then [order[0]] else []) + With(items, order[1..], v)
  }

  lemma {:induction false} WithLast(items: map<Hash, Work>, order: seq<Hash>, v: Key)
    requires order != [] && forall k :: k in order ==> k in items
    ensures Last(order) in order && forall k :: k in Front(order) ==> k in items
    ensures With(items, order, v) ==
            With(items, Front(order), v) + if items[Last(order)].iov.key == v then [Last(order)] else []
    decreases |order|
  {
    assert order == Front(order) + [Last(order)];
    if |order| > 1 {
      assert Front(order)[1..] == Front(order[1..]) && Last(order[1..]) == Last(order) && Front(order)[0] == order[0];
      WithLast(items, order[1..], v);
    }
  }

  /** Each block lists what has its validity in the order of the table. */
  lemma {:induction false} BlocksInOrder(items: map<Hash, Work>, order: seq<Hash>, v: Key)
    requires forall k :: k in order ==> k in items
    ensures var b := BlocksOf(items, order); (if v in b then b[v] else []) == With(items, order, v)
    decreases |order|
  {
    if order != [] {
      WithLast(items, order, v);
      BlocksInOrder(items, Front(order), v);
    }
  }

  /** The keys of the blocks are the validities of the table. */
  lemma {:induction false} BlockKeys(items: map<Hash, Work>, order: seq<Hash>)
    requires forall k :: k in order ==> k in items
    ensures BlocksOf(items, order).Keys == set k | k in order :: items[k].iov.key
    decreases order
  {
    if order != [] {
      assert order == Front(order) + [Last(order)];
      BlockKeys(items, Front(order));
    }
  }
}
