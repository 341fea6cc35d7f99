/** The cache of conditions pools as the objects of DDCond/src/ConditionsIOVPool.cpp. */
module ConditionsIOVPools {
  import opened Wrappers
  import opened Validity
  import opened Conditions
  import opened ConditionsCache

  class ConditionsPool {
    const key: Key
    var age: int
    var conditions: seq<Condition>

    constructor (key: Key)
      ensures this.key == key && View() == Pool(key, 0, [])
    {
      this.key, age, conditions := key, 0, [];
    }

    function View(): Pool
      reads this
    {
      Pool(key, age, conditions)
    }
  }

  function Views(pools: seq<ConditionsPool>): (r: seq<Pool>)
    reads pools
    ensures |r| == |pools| && forall i :: 0 <= i < |r| ==> r[i] == pools[i].View()
  {
    if pools == [] then [] else [pools[0].View()] + Views(pools[1..])
  }

  /** The pools that contain the request, as objects. */
  function HitPools(pools: seq<ConditionsPool>, req: Key): seq<ConditionsPool> {
    if pools == [] then []
    else if ContainsRange(pools[0].key, req) then [pools[0]] + HitPools(pools[1..], req)
    else HitPools(pools[1..], req)
  }

  lemma {:induction false} HitPoolsAreHits(pools: seq<ConditionsPool>, req: Key)
    ensures forall p :: p in HitPools(pools, req) ==> p in pools
    ensures Views(HitPools(pools, req)) == Hits(Views(pools), req)
  {
    if pools != [] {
      HitPoolsAreHits(pools[1..], req);
      var hits := HitPools(pools[1..], req);
      assert Views(pools)[1..] == Views(pools[1..]);
      assert ([pools[0]] + hits)[1..] == hits;
    }
  }

  /** The conditions of a pool under one key. */
  function Matching(conditions: seq<Condition>, key: Key64): seq<Condition> {
    if conditions == [] then []
    else (if conditions[0].hash == key then [conditions[0]] else []) + Matching(conditions[1..], key)
  }

  function AllMatching(pools: seq<Pool>, key: Key64): seq<Condition> {
    if pools == [] then [] else Matching(pools[0].conditions, key) + AllMatching(pools[1..], key)
  }

  lemma {:induction false} MatchingJoins(conditions: seq<Condition>, more: seq<Condition>, key: Key64)
    ensures Matching(conditions + more, key) == Matching(conditions, key) + Matching(more, key)
    decreases |conditions|
  {
    if conditions == [] {
      assert conditions + more == more;
    } else {
      assert (conditions + more)[1..] == conditions[1..] + more;
      MatchingJoins(conditions[1..], more, key);
    }
  }

  lemma {:induction false} MatchingCounts(conditions: seq<Condition>, key: Key64, x: Condition)
    ensures multiset(Matching(conditions, key))[x] == if x.hash == key then multiset(conditions)[x] else 0
    decreases |conditions|
  {
    if conditions != [] {
      assert conditions == [conditions[0]] + conditions[1..];
      MatchingCounts(conditions[1..], key, x);
    }
  }

  /** Exactly the conditions with the key are kept, as often as they are there, and in their order. */
  lemma MatchingIs(conditions: seq<Condition>, more: seq<Condition>, key: Key64)
    ensures Matching(conditions + more, key) == Matching(conditions, key) + Matching(more, key)
    ensures forall x :: multiset(Matching(conditions, key))[x] == if x.hash == key then multiset(conditions)[x] else 0
  {
    MatchingJoins(conditions, more, key);
    forall x ensures multiset(Matching(conditions, key))[x] == if x.hash == key then multiset(conditions)[x] else 0 {
      MatchingCounts(conditions, key, x);
    }
  }

  lemma {:induction false} AllMatchingIs(pools: seq<Pool>, key: Key64)
    ensures AllMatching(pools, key) == Matching(Contents(pools), key)
    decreases |pools|
  {
    if pools != [] {
      AllMatchingIs(pools[1..], key);
      MatchingIs(pools[0].conditions, Contents(pools[1..]), key);
    }
  }

  class ConditionsIOVPool {
    /** In the order of their keys, as in the map of the source. */
    var elements: seq<ConditionsPool>

    ghost predicate Shows(pools: seq<Pool>)
      reads this, elements
    {
      Distinct(elements) && Views(elements) == pools
    }

    constructor ()
      ensures Shows([])
    {
      elements := [];
    }

    /** One round of the selection. */
    method Visit(p: ConditionsPool, req: Key, valid: seq<Condition>, validity: IntervalOfValidity)
      returns (num: nat, result: seq<Condition>)
      modifies p, validity
      ensures p.View() == Aged(old(p.View()), req)
      ensures validity.View() == Cut(old(validity.View()), Hits([old(p.View())], req))
      ensures result == valid + (if Hit(old(p.View()), req) then old(p.conditions) else [])
      ensures num == |result| - |valid|
    {
      if !ContainsRange(p.key, req) {
        p.age := p.age + 1;
        return 0, valid;
      }
      validity.IntersectKey(p.key);
      num := |p.conditions|;
      result := valid + p.conditions;
      p.age := 0;
    }

    /** The selection has gone past the first `i` pools. */
    ghost predicate HalfAged(pools: seq<Pool>, req: Key, i: nat)
      reads this, elements
    {
      && i <= |elements| == |pools|
      && (forall j :: 0 <= j < i ==> elements[j].View() == Aged(pools[j], req))
      && (forall j :: i <= j < |elements| ==> elements[j].View() == pools[j])
    }

    method VisitAt(i: nat, req: Key, valid: seq<Condition>, validity: IntervalOfValidity, ghost pools: seq<Pool>)
      returns (num: nat, result: seq<Condition>)
      requires Distinct(elements) && i < |elements| && HalfAged(pools, req, i)
      modifies elements, validity
      ensures HalfAged(pools, req, i + 1)
      ensures Cut(validity.View(), Hits(pools[i + 1..], req)) == Cut(old(validity.View()), Hits(pools[i..], req))
      ensures result + Contents(Hits(pools[i + 1..], req)) == valid + Contents(Hits(pools[i..], req))
      ensures num == |result| - |valid|
    {
      SelectNext(validity.View(), valid, pools[i..], req);
      assert pools[i..][1..] == pools[i + 1..];
      num, result := Visit(elements[i], req, valid, validity);
    }

    /** The overload that collects conditions. */
    method Select(req: Key, valid: seq<Condition>, validity: IntervalOfValidity, ghost pools: seq<Pool>)
      returns (num: nat, result: seq<Condition>)
      requires Shows(pools)
      modifies elements, validity
      ensures Shows(AgedAll(pools, req)) && elements == old(elements)
      ensures validity.View() == Cut(old(validity.View()), Hits(pools, req))
      ensures result == valid + Contents(Hits(pools, req)) && num == |Contents(Hits(pools, req))|
    {
      num, result := 0, valid;
      var i := 0;
      ghost var entry := validity.View();
      assert pools[0..] == pools;
      while i < |elements|
        invariant 0 <= i <= |elements| && HalfAged(pools, req, i)
        invariant Cut(validity.View(), Hits(pools[i..], req)) == Cut(entry, Hits(pools, req))
        invariant result + Contents(Hits(pools[i..], req)) == valid + Contents(Hits(pools, req))
        invariant num == |result| - |valid|
      {
        var more;
        more, result := VisitAt(i, req, result, validity, pools);
        num := num + more;
        i := i + 1;
      }
    }

    /** The overload for one condition key; no age changes. */
    method SelectKey(key: Key64, req: Key, result: seq<Condition>, ghost pools: seq<Pool>)
      returns (num: nat, all: seq<Condition>)
      requires Shows(pools)
      ensures all == result + AllMatching(Hits(pools, req), key) && num == |all| - |result|
      ensures forall x :: multiset(all)[x] ==
                          multiset(result)[x] + if x.hash == key then multiset(Contents(Hits(pools, req)))[x] else 0
    {
      AllMatchingIs(Hits(pools, req), key);
      MatchingIs(Contents(Hits(pools, req)), [], key);
      all := result;
      var i := 0;
      assert pools[0..] == pools;
      while i < |elements|
        invariant 0 <= i <= |elements|
        invariant |all| >= |result|
        invariant all + AllMatching(Hits(pools[i..], req), key) == result + AllMatching(Hits(pools, req), key)
      {
        assert pools[i..][1..] == pools[i + 1..];
        if ContainsRange(elements[i].key, req) {
          MatchingFirst(pools[i], Hits(pools[i + 1..], req), key, all);
          all := all + Matching(elements[i].conditions, key);
        }
        i := i + 1;
      }
      num := |all| - |result|;
    }

    /** The overload that collects pools; no age changes. */
    method CollectPools(req: Key, valid: seq<ConditionsPool>) returns (num: nat, all: seq<ConditionsPool>)
      ensures all == valid + HitPools(elements, req) && num == |HitPools(elements, req)|
      ensures Views(all) == Views(valid) + Hits(Views(elements), req)
    {
      num, all := 0, valid;
      var i := 0;
      assert elements[0..] == elements;
      while i < |elements|
        invariant 0 <= i <= |elements|
        invariant all + HitPools(elements[i..], req) == valid + HitPools(elements, req)
        invariant num + |HitPools(elements[i..], req)| == |HitPools(elements, req)|
      {
        assert elements[i..][1..] == elements[i + 1..];
        if ContainsRange(elements[i].key, req) {
          assert HitPools(elements[i..], req) == [elements[i]] + HitPools(elements[i + 1..], req);
          num, all := num + 1, all + [elements[i]];
        }
        i := i + 1;
      }
      HitPoolsAreHits(elements, req);
      ViewsJoin(valid, HitPools(elements, req));
    }

    /** The same with the validity of all the pools collected, those handed in included. */
    method SelectPools(req: Key, valid: seq<ConditionsPool>, validity: IntervalOfValidity)
      returns (num: nat, all: seq<ConditionsPool>)
      modifies validity
      ensures all == valid + HitPools(elements, req) && num == |HitPools(elements, req)|
      ensures validity.View() == SelectedValidity(old(validity.View()), Views(all))
      ensures Exact(validity.View(), Views(all)) <==>
              (!old(validity.View()).typed && Views(all) != []) || !Common(Views(all))
    {
      num, all := CollectPools(req, valid);
      validity.Invert();
      validity.Reset();
      IntersectAll(all, validity);
      PoolSelectionIsExact(old(validity.View()), Views(all));
    }

    /** The loop over the pools collected. */
    method IntersectAll(all: seq<ConditionsPool>, validity: IntervalOfValidity)
      modifies validity
      ensures validity.View() == CutTyped(old(validity.View()), Views(all))
    {
      ghost var entry := validity.View();
      ghost var views := Views(all);
      var i := 0;
      assert views[0..] == views;
      while i < |all|
        invariant 0 <= i <= |all|
        invariant CutTyped(validity.View(), views[i..]) == CutTyped(entry, views)
        invariant Views(all) == views
      {
        assert views[i..][1..] == views[i + 1..];
        validity.Intersect(Iov(true, all[i].key));
        i := i + 1;
      }
    }

    /** `Manager_Type1::registerIOV`: the pool of these keys, made if there is none. */
    method Register(key: Key, ghost c: Cache) returns (p: ConditionsPool)
      requires Shows(c.pools)
      modifies this
      ensures Shows(Step(c, Event.Register(key)).pools)
      ensures p in elements && p.key == key
      ensures !Present(c.pools, key) ==> p.age == 0 && p.conditions == []
    {
      var i := 0;
      while i < |elements|
        invariant 0 <= i <= |elements|
        invariant forall j :: 0 <= j < i ==> c.pools[j].key != key
      {
        if elements[i].key == key {
          RegisterFinds(c, key, i);
          return elements[i];
        }
        i := i + 1;
      }
      RegisterEnters(c, key);
      p := new ConditionsPool(key);
      Emplace(p, c.pools);
    }

    /** The place of a key behind all that are not greater. */
    method Position(key: Key, ghost pools: seq<Pool>) returns (i: nat)
      requires Shows(pools)
      ensures i <= |elements| && (forall j :: 0 <= j < i ==> !Less(key, pools[j].key))
      ensures i < |elements| ==> Less(key, pools[i].key)
    {
      i := 0;
      while i < |elements| && !Less(key, elements[i].key)
        invariant 0 <= i <= |elements|
        invariant forall j :: 0 <= j < i ==> !Less(key, pools[j].key)
      {
        i := i + 1;
      }
    }

    method Emplace(p: ConditionsPool, ghost pools: seq<Pool>)
      requires Shows(pools) && p !in elements
      modifies this
      ensures Shows(Enter(pools, p.View())) && p in elements
    {
      var i := Position(p.key, pools);
      EnterAt(pools, p.View(), i);
      ViewsInserted(elements, p, i);
      DistinctInserted(elements, p, i);
      elements := elements[..i] + [p] + elements[i..];
    }

    /** Removes the pools whose age is at least `maxAge`. */
    method Clean(maxAge: int, ghost c: Cache) returns (count: nat)
      requires Shows(c.pools)
      modifies this
      ensures Shows(Step(c, Event.Clean(maxAge)).pools)
      ensures c.cleaned + count == Step(c, Event.Clean(maxAge)).cleaned
    {
      count := CleanBy(p => Old(p, maxAge), c);
    }

    /** Removes the pools that the policy asks for. */
    method CleanBy(policy: Pool -> bool, ghost c: Cache) returns (count: nat)
      requires Shows(c.pools)
      modifies this
      ensures Shows(Keep(c.pools, policy)) && count == |Contents(Removed(c.pools, policy))|
    {
      var rest: seq<ConditionsPool> := [];
      count := 0;
      var i := 0;
      assert c.pools[0..] == c.pools;
      while i < |elements|
        invariant elements == old(elements) && |elements| == |c.pools| && Taken(rest, elements, i)
        invariant Views(rest) + Keep(c.pools[i..], policy) == Keep(c.pools, policy)
        invariant count + |Contents(Removed(c.pools[i..], policy))| == |Contents(Removed(c.pools, policy))|
      {
        var p := elements[i];
        assert c.pools[i..][1..] == c.pools[i + 1..] && c.pools[i..][0] == p.View();
        CleanNext(Views(rest), c.pools[i..], policy);
        ViewsEnd(rest, p);
        TakenNext(rest, elements, i);
        if policy(p.View()) {
          count := count + |p.conditions|;
        } else {
          rest := rest + [p];
        }
        i := i + 1;
      }
      assert Keep(c.pools[i..], policy) == [] && Removed(c.pools[i..], policy) == [];
      elements := rest;
    }
  }

  lemma MatchingFirst(p: Pool, rest: seq<Pool>, key: Key64, all: seq<Condition>)
    ensures all + AllMatching([p] + rest, key) == (all + Matching(p.conditions, key)) + AllMatching(rest, key)
  {
    assert ([p] + rest)[1..] == rest;
  }

  lemma {:induction false} ViewsEnd(pools: seq<ConditionsPool>, p: ConditionsPool)
    ensures Views(pools + [p]) == Views(pools) + [p.View()]
  {
    assert forall i :: 0 <= i < |pools| ==> (pools + [p])[i] == pools[i];
  }

  /** `rest` holds pools of the first `i` ones. */
  predicate Taken(rest: seq<ConditionsPool>, pools: seq<ConditionsPool>, i: nat) {
    i <= |pools| && Distinct(rest) && forall p :: p in rest ==> p in pools[..i]
  }

  lemma TakenNext(rest: seq<ConditionsPool>, pools: seq<ConditionsPool>, i: nat)
    requires Distinct(pools) && i < |pools| && Taken(rest, pools, i)
    ensures Taken(rest, pools, i + 1) && Taken(rest + [pools[i]], pools, i + 1)
  {
    assert pools[i] !in pools[..i] && pools[..i + 1] == pools[..i] + [pools[i]];
  }

  lemma RegisterFinds(c: Cache, key: Key, i: nat)
    requires i < |c.pools| && c.pools[i].key == key
    ensures Step(c, Event.Register(key)).pools == c.pools
  {
    assert c.pools[i] in c.pools;
  }

  lemma RegisterEnters(c: Cache, key: Key)
    requires forall j :: 0 <= j < |c.pools| ==> c.pools[j].key != key
    ensures Step(c, Event.Register(key)).pools == Enter(c.pools, Pool(key, 0, []))
  {
  }

  lemma DistinctInserted(pools: seq<ConditionsPool>, p: ConditionsPool, i: nat)
    requires i <= |pools| && Distinct(pools) && p !in pools
    ensures Distinct(pools[..i] + [p] + pools[i..])
  {
    var more := pools[..i] + [p] + pools[i..];
    forall j, k | 0 <= j < k < |more| ensures more[j] != more[k] {
      assert more[j] == if j < i then pools[j] else if j == i then p else pools[j - 1];
      assert more[k] == if k < i then pools[k] else if k == i then p else pools[k - 1];
    }
  }

  lemma ViewsJoin(a: seq<ConditionsPool>, b: seq<ConditionsPool>)
    ensures Views(a + b) == Views(a) + Views(b)
  {
    assert forall i :: 0 <= i < |a| + |b| ==> (a + b)[i] == if i < |a| then a[i] else b[i - |a|];
  }

  lemma ViewsSliced(pools: seq<ConditionsPool>, i: nat)
    requires i <= |pools|
    ensures Views(pools[..i]) == Views(pools)[..i] && Views(pools[i..]) == Views(pools)[i..]
  {
    assert pools == pools[..i] + pools[i..];
    ViewsJoin(pools[..i], pools[i..]);
    Halves(Views(pools[..i]), Views(pools[i..]));
  }

  lemma Halves(a: seq<Pool>, b: seq<Pool>)
    ensures (a + b)[..|a|] == a && (a + b)[|a|..] == b
  {
  }

  lemma ViewsInserted(pools: seq<ConditionsPool>, p: ConditionsPool, i: nat)
    requires i <= |pools|
    ensures Views(pools[..i] + [p] + pools[i..]) == Views(pools)[..i] + [p.View()] + Views(pools)[i..]
  {
    ViewsSliced(pools, i);
    ViewsJoin(pools[..i] + [p], pools[i..]);
    ViewsEnd(pools[..i], p);
  }

  lemma CleanNext(rest: seq<Pool>, pools: seq<Pool>, policy: Pool -> bool)
    requires pools != []
    ensures if policy(pools[0]) then
              && Keep(pools, policy) == Keep(pools[1..], policy)
              && |Contents(Removed(pools, policy))| == |pools[0].conditions| + |Contents(Removed(pools[1..], policy))|
            else
              && rest + Keep(pools, policy) == rest + [pools[0]] + Keep(pools[1..], policy)
              && Removed(pools, policy) == Removed(pools[1..], policy)
  {
    if policy(pools[0]) {
      var gone := Removed(pools[1..], policy);
      assert ([pools[0]] + gone)[1..] == gone;
    }
  }

  lemma EnterLater(pools: seq<Pool>, p: Pool)
    requires pools != [] && !Less(p.key, pools[0].key)
    ensures Enter(pools, p) == [pools[0]] + Enter(pools[1..], p)
  {
  }

  lemma FirstInFront(pools: seq<Pool>, i: nat)
    requires 0 < i <= |pools|
    ensures pools[..i] == [pools[0]] + pools[1..][..i - 1] && pools[i..] == pools[1..][i - 1..]
  {
  }

  lemma {:induction false} EnterAt(pools: seq<Pool>, p: Pool, i: nat)
    requires i <= |pools| && forall j :: 0 <= j < i ==> !Less(p.key, pools[j].key)
    requires i < |pools| ==> Less(p.key, pools[i].key)
    ensures Enter(pools, p) == pools[..i] + [p] + pools[i..]
    decreases i
  {
    if i > 0 {
      var rest := pools[1..];
      assert forall j :: 0 <= j < |rest| ==> rest[j] == pools[j + 1];
      EnterAt(rest, p, i - 1);
      EnterLater(pools, p);
      FirstInFront(pools, i);
    }
  }

  /** One round of the selection leaves as much to do as the rest of the pools asks for. */
  lemma SelectNext(v: Iov, valid: seq<Condition>, pools: seq<Pool>, req: Key)
    requires pools != []
    ensures Cut(v, Hits(pools, req)) == Cut(Cut(v, Hits([pools[0]], req)), Hits(pools[1..], req))
    ensures valid + Contents(Hits(pools, req)) ==
            valid + (if Hit(pools[0], req) then pools[0].conditions else []) + Contents(Hits(pools[1..], req))
  {
    var rest := Hits(pools[1..], req);
    if Hit(pools[0], req) {
      assert Hits(pools, req) == [pools[0]] + rest && ([pools[0]] + rest)[1..] == rest;
      assert Hits([pools[0]], req) == [pools[0]];
    } else {
      assert Hits([pools[0]], req) == [];
    }
  }
}
