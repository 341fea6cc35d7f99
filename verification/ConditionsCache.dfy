/**
 The cache of conditions pools by interval of validity: selection, ageing and cleaning
 (DDCond/src/ConditionsIOVPool.cpp, DDCond/src/Type1/Manager_Type1.cpp).
 */
module ConditionsCache {
  import opened Wrappers
  import opened Validity
  import opened Conditions

  /** A pool is entered under the keys of its own, typed, interval. */
  datatype Pool = Pool(key: Key, age: int, conditions: seq<Condition>)

  predicate Hit(p: Pool, req: Key) {
    ContainsRange(p.key, req)
  }

  function Hits(pools: seq<Pool>, req: Key): seq<Pool> {
    if pools == [] then []
    else if Hit(pools[0], req) then [pools[0]] + Hits(pools[1..], req)
    else Hits(pools[1..], req)
  }

  /** Every condition of the pools. */
  function Contents(pools: seq<Pool>): seq<Condition> {
    if pools == [] then [] else pools[0].conditions + Contents(pools[1..])
  }

  /** The interval cut down to the keys of the pools, one after the other. */
  function Cut(v: Iov, pools: seq<Pool>): Iov
    decreases |pools|
  {
    if pools == [] then v else Cut(Iov(v.typed, Meet(v.key, pools[0].key)), pools[1..])
  }

  function CutTyped(v: Iov, pools: seq<Pool>): Iov
    decreases |pools|
  {
    if pools == [] then v else CutTyped(Intersection(v, Iov(true, pools[0].key)), pools[1..])
  }

  function Aged(p: Pool, req: Key): Pool {
    p.(age := if Hit(p, req) then 0 else p.age + 1)
  }

  function AgedAll(pools: seq<Pool>, req: Key): (r: seq<Pool>)
    ensures |r| == |pools| && forall i :: 0 <= i < |r| ==> r[i] == Aged(pools[i], req)
  {
    if pools == [] then [] else [Aged(pools[0], req)] + AgedAll(pools[1..], req)
  }

  function Keep(pools: seq<Pool>, remove: Pool -> bool): seq<Pool> {
    if pools == [] then []
    else if remove(pools[0]) then Keep(pools[1..], remove)
    else [pools[0]] + Keep(pools[1..], remove)
  }

  function Removed(pools: seq<Pool>, remove: Pool -> bool): seq<Pool> {
    if pools == [] then []
    else if remove(pools[0]) then [pools[0]] + Removed(pools[1..], remove)
    else Removed(pools[1..], remove)
  }

  // The validity that a selection returns.

  lemma {:induction false} HitsAre(pools: seq<Pool>, req: Key)
    ensures forall p :: p in Hits(pools, req) <==> p in pools && Hit(p, req)
  {
    if pools != [] {
      HitsAre(pools[1..], req);
      assert forall p :: p in pools <==> p == pools[0] || p in pools[1..];
    }
  }

  lemma {:induction false} HitsCount(pools: seq<Pool>, req: Key, p: Pool)
    ensures multiset(Hits(pools, req))[p] == if Hit(p, req) then multiset(pools)[p] else 0
    decreases |pools|
  {
    if pools != [] {
      assert pools == [pools[0]] + pools[1..];
      HitsCount(pools[1..], req, p);
    }
  }

  /** Every pool hit is there once for each time it is in the cache, in the same order. */
  lemma {:induction false} HitsJoin(pools: seq<Pool>, more: seq<Pool>, req: Key)
    ensures Hits(pools + more, req) == Hits(pools, req) + Hits(more, req)
    ensures forall p :: multiset(Hits(pools, req))[p] == if Hit(p, req) then multiset(pools)[p] else 0
    decreases |pools|
  {
    forall p ensures multiset(Hits(pools, req))[p] == if Hit(p, req) then multiset(pools)[p] else 0 {
      HitsCount(pools, req, p);
    }
    if pools == [] {
      assert pools + more == more;
    } else {
      assert (pools + more)[1..] == pools[1..] + more;
      HitsJoin(pools[1..], more, req);
    }
  }

  lemma {:induction false} CutCovers(v: Iov, pools: seq<Pool>, t: int)
    ensures Covers(Cut(v, pools).key, t) <==> Covers(v.key, t) && forall p :: p in pools ==> Covers(p.key, t)
    decreases |pools|
  {
    if pools != [] {
      CutCovers(Iov(v.typed, Meet(v.key, pools[0].key)), pools[1..], t);
      assert forall p :: p in pools <==> p == pools[0] || p in pools[1..];
    }
  }

  /** The returned interval is exactly the common part of the entry interval and all pools selected. */
  lemma {:induction false} SelectionIsExact(pools: seq<Pool>, req: Key, v: Iov, t: int)
    ensures Covers(Cut(v, Hits(pools, req)).key, t) <==>
            Covers(v.key, t) && forall p :: p in pools && Hit(p, req) ==> Covers(p.key, t)
  {
    HitsAre(pools, req);
    CutCovers(v, Hits(pools, req), t);
  }

  lemma {:induction false} CutContains(v: Iov, pools: seq<Pool>, k: Key)
    ensures ContainsRange(Cut(v, pools).key, k) <==>
            ContainsRange(v.key, k) && forall p :: p in pools ==> ContainsRange(p.key, k)
    decreases |pools|
  {
    if pools != [] {
      CutContains(Iov(v.typed, Meet(v.key, pools[0].key)), pools[1..], k);
      assert forall p :: p in pools <==> p == pools[0] || p in pools[1..];
    }
  }

  /** It contains the request if the entry interval did, and no request inside it loses a pool. */
  lemma SelectionStaysGood(pools: seq<Pool>, req: Key, v: Iov, later: Key)
    ensures ContainsRange(v.key, req) ==> ContainsRange(Cut(v, Hits(pools, req)).key, req)
    ensures ContainsRange(Cut(v, Hits(pools, req)).key, later) ==>
              forall p :: p in Hits(pools, req) ==> p in Hits(pools, later)
  {
    HitsAre(pools, req);
    HitsAre(pools, later);
    CutContains(v, Hits(pools, req), req);
    CutContains(v, Hits(pools, req), later);
  }

  /** A later request inside the returned interval is answered with an interval inside it. */
  lemma SelectionNests(pools: seq<Pool>, req: Key, v: Iov, later: Key)
    requires ContainsRange(Cut(v, Hits(pools, req)).key, later)
    ensures ContainsRange(Cut(v, Hits(pools, req)).key, Cut(v, Hits(pools, later)).key)
  {
    var k := Cut(v, Hits(pools, later)).key;
    SelectionStaysGood(pools, req, v, later);
    CutContains(v, Hits(pools, later), k);
    CutContains(v, Hits(pools, req), k);
  }

  // Selecting pools: the interval is inverted and reset before it is cut down.

  /** `cond_validity.invert().reset()` and the intersections that follow. */
  function SelectedValidity(v: Iov, pools: seq<Pool>): Iov {
    CutTyped(Iov(v.typed, NOTHING), pools)
  }

  lemma {:induction false} TypedNothingStays(pools: seq<Pool>)
    ensures CutTyped(Iov(true, NOTHING), pools) == Iov(true, NOTHING)
  {
    if pools != [] {
      TypedNothingStays(pools[1..]);
    }
  }

  lemma {:induction false} CutTypedIsCut(v: Iov, pools: seq<Pool>)
    requires v.typed
    ensures CutTyped(v, pools) == Cut(v, pools)
    decreases |pools|
  {
    if pools != [] {
      CutTypedIsCut(Intersection(v, Iov(true, pools[0].key)), pools[1..]);
    }
  }

  /** The interval covers what all the pools cover. */
  ghost predicate Exact(v: Iov, pools: seq<Pool>) {
    forall t: Stamp :: Covers(v.key, t) <==> AllCover(pools, t)
  }

  predicate AllCover(pools: seq<Pool>, t: int) {
    forall p :: p in pools ==> Covers(p.key, t)
  }

  /** Some time is covered by all the pools. */
  ghost predicate Common(pools: seq<Pool>) {
    exists t: Stamp :: AllCover(pools, t)
  }

  /**
   The result covers what all the pools collected cover exactly when the interval was handed in
   without a type and there is a pool, or else when the pools have no time in common.
   */
  lemma PoolSelectionIsExact(v: Iov, all: seq<Pool>)
    ensures Exact(SelectedValidity(v, all), all) <==> (!v.typed && all != []) || !Common(all)
  {
    var r := SelectedValidity(v, all);
    if v.typed {
      TypedNothingStays(all);
    } else if all == [] {
      assert AllCover(all, 0) && !Covers(r.key, 0);
    } else {
      var first := Iov(true, all[0].key);
      CutTypedIsCut(first, all[1..]);
      forall t: Stamp ensures Covers(r.key, t) <==> AllCover(all, t) {
        CutCovers(first, all[1..], t);
        assert forall p :: p in all <==> p == all[0] || p in all[1..];
      }
    }
  }

  /** Pools selected for a request that spans something have a time in common. */
  lemma SelectedHaveCommon(pools: seq<Pool>, req: Key)
    requires req.first <= req.second
    ensures Common(Hits(pools, req))
  {
    HitsAre(pools, req);
    assert AllCover(Hits(pools, req), req.first);
  }

  // Cleaning.

  lemma {:induction false} KeepsExactly(pools: seq<Pool>, remove: Pool -> bool)
    ensures forall p :: p in Keep(pools, remove) <==> p in pools && !remove(p)
    ensures |Contents(pools)| == |Contents(Keep(pools, remove))| + |Contents(Removed(pools, remove))|
    decreases |pools|
  {
    if pools != [] {
      KeepsExactly(pools[1..], remove);
      assert forall p :: p in pools <==> p == pools[0] || p in pools[1..];
    }
  }

  /** The pools are divided between what is kept and what is removed. */
  lemma {:induction false} KeepDivides(pools: seq<Pool>, remove: Pool -> bool)
    ensures multiset(pools) == multiset(Keep(pools, remove)) + multiset(Removed(pools, remove))
    decreases |pools|
  {
    if pools != [] {
      KeepDivides(pools[1..], remove);
      assert pools == [pools[0]] + pools[1..];
    }
  }

  /** So are their conditions. */
  lemma {:induction false} ContentsDivide(pools: seq<Pool>, remove: Pool -> bool)
    ensures multiset(Contents(pools)) ==
            multiset(Contents(Keep(pools, remove))) + multiset(Contents(Removed(pools, remove)))
    decreases |pools|
  {
    if pools != [] {
      ContentsDivide(pools[1..], remove);
      var keep, gone := Keep(pools[1..], remove), Removed(pools[1..], remove);
      ContentsFirst(pools[0], keep);
      ContentsFirst(pools[0], gone);
      ToEither(multiset(pools[0].conditions), multiset(Contents(keep)), multiset(Contents(gone)));
    }
  }

  lemma ContentsFirst(p: Pool, rest: seq<Pool>)
    ensures multiset(Contents([p] + rest)) == multiset(p.conditions) + multiset(Contents(rest))
  {
    assert ([p] + rest)[1..] == rest;
  }

  lemma ToEither(x: multiset<Condition>, keep: multiset<Condition>, gone: multiset<Condition>)
    ensures x + (keep + gone) == (x + keep) + gone == keep + (x + gone)
  {
  }

  // Runs.

  /** Pools in the order of their keys, and what has been put in and cleaned away so far. */
  datatype Cache = Cache(pools: seq<Pool>, inserted: nat, cleaned: nat)

  datatype Event =
    | Register(key: Key)
    | Insert(key: Key, condition: Condition)
    | Select(req: Key)
    | Peek(req: Key)
    | Clean(maxAge: int)
    | CleanBy(policy: Pool -> bool)

  predicate Less(a: Key, b: Key) {
    a.first < b.first || (a.first == b.first && a.second < b.second)
  }

  predicate Present(pools: seq<Pool>, key: Key) {
    exists p :: p in pools && p.key == key
  }

  /** `elements.emplace`. */
  function Enter(pools: seq<Pool>, p: Pool): (r: seq<Pool>)
    ensures forall q :: q in r <==> q == p || q in pools
    ensures |Contents(r)| == |Contents(pools)| + |p.conditions|
  {
    if pools == [] || Less(p.key, pools[0].key) then
      assert ([p] + pools)[1..] == pools;
      [p] + pools
    else
      var r := Enter(pools[1..], p);
      assert ([pools[0]] + r)[1..] == r;
      assert forall q :: q in pools <==> q == pools[0] || q in pools[1..];
      [pools[0]] + r
  }

  function Put(pools: seq<Pool>, key: Key, c: Condition): (r: seq<Pool>)
    ensures |r| == |pools|
    ensures forall i :: 0 <= i < |r| ==> r[i].key == pools[i].key && r[i].age == pools[i].age
    ensures |Contents(r)| == |Contents(pools)| + if Present(pools, key) then 1 else 0
  {
    if pools == [] then []
    else
      assert forall q :: q in pools <==> q == pools[0] || q in pools[1..];
      if pools[0].key == key then
        var r := pools[0].(conditions := pools[0].conditions + [c]);
        assert ([r] + pools[1..])[1..] == pools[1..] && pools[0] in pools;
        [r] + pools[1..]
      else
        var r := Put(pools[1..], key, c);
        assert ([pools[0]] + r)[1..] == r;
        [pools[0]] + r
  }

  lemma {:induction false} EnterContents(pools: seq<Pool>, p: Pool)
    ensures multiset(Contents(Enter(pools, p))) == multiset(Contents(pools)) + multiset(p.conditions)
    decreases |pools|
  {
    var r := Enter(pools, p);
    assert ([p] + pools)[1..] == pools;
    if r != [p] + pools {
      EnterContents(pools[1..], p);
      assert r[1..] == Enter(pools[1..], p);
    }
  }

  /** A condition goes to the end of the first pool of its key, and no other pool changes. */
  lemma {:induction false} PutIs(pools: seq<Pool>, key: Key, c: Condition, i: nat)
    requires i < |pools| && pools[i].key == key && forall j :: 0 <= j < i ==> pools[j].key != key
    ensures Put(pools, key, c) == pools[i := pools[i].(conditions := pools[i].conditions + [c])]
    decreases i
  {
    if i > 0 {
      PutIs(pools[1..], key, c, i - 1);
    }
  }

  lemma {:induction false} PutContents(pools: seq<Pool>, key: Key, c: Condition)
    requires Present(pools, key)
    ensures multiset(Contents(Put(pools, key, c))) == multiset(Contents(pools)) + multiset{c}
    decreases |pools|
  {
    var first, rest := pools[0], pools[1..];
    ContentsFirst(first, rest);
    assert pools == [first] + rest;
    if first.key == key {
      ContentsFirst(first.(conditions := first.conditions + [c]), rest);
    } else {
      assert forall q :: q in pools <==> q == first || q in rest;
      PutContents(rest, key, c);
      ContentsFirst(first, Put(rest, key, c));
    }
  }

  predicate Old(p: Pool, maxAge: int) {
    p.age >= maxAge
  }

  function CleanPools(c: Cache, remove: Pool -> bool): Cache {
    c.(pools := Keep(c.pools, remove), cleaned := c.cleaned + |Contents(Removed(c.pools, remove))|)
  }

  function Step(c: Cache, e: Event): Cache {
    match e
    case Register(k) => if Present(c.pools, k) then c else c.(pools := Enter(c.pools, Pool(k, 0, [])))
    case Insert(k, x) =>
      if Present(c.pools, k) then c.(pools := Put(c.pools, k, x), inserted := c.inserted + 1) else c
    case Select(req) => c.(pools := AgedAll(c.pools, req))
    case Peek(req) => c
    case Clean(maxAge) => CleanPools(c, p => Old(p, maxAge))
    case CleanBy(policy) => CleanPools(c, policy)
  }

  function Run(c: Cache, events: seq<Event>): Cache {
    if events == [] then c else Step(Run(c, Front(events)), Last(events))
  }

  lemma {:induction false} AgedContents(pools: seq<Pool>, req: Key)
    ensures Contents(AgedAll(pools, req)) == Contents(pools)
  {
    if pools != [] {
      AgedContents(pools[1..], req);
      assert AgedAll(pools, req)[1..] == AgedAll(pools[1..], req);
    }
  }

  /** Nothing is lost: what was put in is there, or was counted by a `clean`. */
  lemma {:induction false} RunConserves(c: Cache, events: seq<Event>)
    requires c.inserted == |Contents(c.pools)| + c.cleaned
    ensures var r := Run(c, events); r.inserted == |Contents(r.pools)| + r.cleaned
    decreases |events|
  {
    if events != [] {
      var b := Run(c, Front(events));
      RunConserves(c, Front(events));
      match Last(events) {
        case Select(req) => AgedContents(b.pools, req);
        case Clean(maxAge) => KeepsExactly(b.pools, p => Old(p, maxAge));
        case CleanBy(policy) => KeepsExactly(b.pools, policy);
        case _ =>
      }
    }
  }

  /** The conditions put in by one step, and those cleaned away. */
  function StepIn(c: Cache, e: Event): seq<Condition> {
    if e.Insert? && Present(c.pools, e.key) then [e.condition] else []
  }

  function StepOut(c: Cache, e: Event): seq<Condition> {
    match e
    case Clean(maxAge) => Contents(Removed(c.pools, p => Old(p, maxAge)))
    case CleanBy(policy) => Contents(Removed(c.pools, policy))
    case _ => []
  }

  /** The same for a whole run. */
  function PutIn(c: Cache, events: seq<Event>): seq<Condition> {
    if events == [] then [] else PutIn(c, Front(events)) + StepIn(Run(c, Front(events)), Last(events))
  }

  function CleanedOut(c: Cache, events: seq<Event>): seq<Condition> {
    if events == [] then [] else CleanedOut(c, Front(events)) + StepOut(Run(c, Front(events)), Last(events))
  }

  lemma StepConserves(c: Cache, e: Event)
    ensures multiset(Contents(Step(c, e).pools)) + multiset(StepOut(c, e)) ==
            multiset(Contents(c.pools)) + multiset(StepIn(c, e))
  {
    match e {
      case Register(k) => EnterContents(c.pools, Pool(k, 0, []));
      case Insert(k, x) => if Present(c.pools, k) { PutContents(c.pools, k, x); }
      case Select(req) => AgedContents(c.pools, req);
      case Clean(maxAge) => ContentsDivide(c.pools, p => Old(p, maxAge));
      case CleanBy(policy) => ContentsDivide(c.pools, policy);
      case Peek(_) =>
    }
  }

  lemma Balance(start: multiset<Condition>, mid: multiset<Condition>, end: multiset<Condition>,
                out: multiset<Condition>, more: multiset<Condition>, put: multiset<Condition>, next: multiset<Condition>)
    requires mid + out == start + put && end + more == mid + next
    ensures end + (out + more) == start + (put + next)
  {
    forall x ensures (end + (out + more))[x] == (start + (put + next))[x] {
      assert (mid + out)[x] == (start + put)[x] && (end + more)[x] == (mid + next)[x];
    }
  }

  /** The same by the conditions themselves: each one that was there or put in is there or was cleaned away. */
  lemma {:induction false} RunConservesConditions(c: Cache, events: seq<Event>)
    ensures multiset(Contents(Run(c, events).pools)) + multiset(CleanedOut(c, events)) ==
            multiset(Contents(c.pools)) + multiset(PutIn(c, events))
    decreases |events|
  {
    if events != [] {
      var front, e := Front(events), Last(events);
      var b := Run(c, front);
      RunConservesConditions(c, front);
      StepConserves(b, e);
      Balance(multiset(Contents(c.pools)), multiset(Contents(b.pools)), multiset(Contents(Step(b, e).pools)),
              multiset(CleanedOut(c, front)), multiset(StepOut(b, e)), multiset(PutIn(c, front)), multiset(StepIn(b, e)));
    }
  }

  // Ages.

  predicate IsHit(e: Event, key: Key) {
    e.Select? && ContainsRange(key, e.req)
  }

  predicate IsMiss(e: Event, key: Key) {
    e.Select? && !ContainsRange(key, e.req)
  }

  function Misses(events: seq<Event>, key: Key): nat {
    if events == [] then 0
    else Misses(Front(events), key) + if IsMiss(Last(events), key) then 1 else 0
  }

  /** What a step leaves was there before, aged by one only if an ageing selection missed it. */
  lemma StepAges(c: Cache, e: Event, q: Pool)
    requires q in Step(c, e).pools
    ensures (e == Register(q.key) && !Present(c.pools, q.key) && q.age == 0 && q.conditions == []) ||
            exists p :: p in c.pools && p.key == q.key &&
              q.age == if IsHit(e, q.key) then 0 else if IsMiss(e, q.key) then p.age + 1 else p.age
  {
    match e {
      case Insert(k, x) =>
        var i :| 0 <= i < |Step(c, e).pools| && Step(c, e).pools[i] == q;
        assert c.pools[i] in c.pools;
      case Select(req) =>
        var i :| 0 <= i < |Step(c, e).pools| && Step(c, e).pools[i] == q;
        assert c.pools[i] in c.pools;
      case Clean(maxAge) =>
        KeepsExactly(c.pools, p => Old(p, maxAge));
        assert q in c.pools;
      case CleanBy(policy) =>
        KeepsExactly(c.pools, policy);
        assert q in c.pools;
      case _ =>
    }
  }

  /** The pool of that key is there all the time. */
  predicate Stays(c: Cache, events: seq<Event>, key: Key) {
    forall j :: 0 <= j <= |events| ==> Present(Run(c, events[..j]).pools, key)
  }

  lemma StaysShorter(c: Cache, events: seq<Event>, key: Key)
    requires events != [] && Stays(c, events, key)
    ensures Stays(c, Front(events), key) && Present(Run(c, Front(events)).pools, key)
  {
    var front := Front(events);
    assert forall j :: 0 <= j <= |front| ==> front[..j] == events[..j];
    assert events[..|front|] == front;
  }

  /** A pool that stays, and is never hit, ages by the ageing selections that miss it. */
  lemma {:induction false} AgeNeverHit(c: Cache, events: seq<Event>, p0: Pool, q: Pool)
    requires Sorted(c.pools) && p0 in c.pools
    requires Stays(c, events, p0.key) && q in Run(c, events).pools && q.key == p0.key
    requires forall e :: e in events ==> !IsHit(e, p0.key)
    ensures q.age == p0.age + Misses(events, p0.key)
    decreases |events|
  {
    if events != [] {
      var b, last := Run(c, Front(events)), Last(events);
      StaysShorter(c, events, p0.key);
      StepAges(b, last, q);
      var p :| p in b.pools && p.key == q.key &&
        q.age == if IsHit(last, q.key) then 0 else if IsMiss(last, q.key) then p.age + 1 else p.age;
      assert last in events && forall e :: e in Front(events) ==> e in events;
      AgeNeverHit(c, Front(events), p0, p);
    } else {
      SortedOnce(c.pools, p0, q);
    }
  }

  /** Its age is the number of ageing selections that have missed it since the last that hit it. */
  lemma {:induction false} AgeSinceHit(c: Cache, events: seq<Event>, i: nat, q: Pool)
    requires i < |events| && IsHit(events[i], q.key) && forall e :: e in events[i + 1..] ==> !IsHit(e, q.key)
    requires Stays(c, events, q.key) && q in Run(c, events).pools
    ensures q.age == Misses(events[i + 1..], q.key)
    decreases |events|
  {
    var front, last := Front(events), Last(events);
    var b := Run(c, front);
    StaysShorter(c, events, q.key);
    StepAges(b, last, q);
    var p :| p in b.pools && p.key == q.key &&
      q.age == if IsHit(last, q.key) then 0 else if IsMiss(last, q.key) then p.age + 1 else p.age;
    if i < |front| {
      var since := events[i + 1..];
      assert Front(since) == front[i + 1..] && Last(since) == last;
      assert last in since && forall e :: e in Front(since) ==> e in since;
      AgeSinceHit(c, front, i, p);
    }
  }

  /** `clean(n)` leaves such a pool in the cache exactly when fewer than `n` selections have missed it. */
  lemma RecentlyUsedIsKept(c: Cache, events: seq<Event>, i: nat, q: Pool, n: int)
    requires i < |events| && IsHit(events[i], q.key) && forall e :: e in events[i + 1..] ==> !IsHit(e, q.key)
    requires Stays(c, events, q.key) && q in Run(c, events).pools
    ensures q in Run(c, events + [Clean(n)]).pools <==> Misses(events[i + 1..], q.key) < n
  {
    AgeSinceHit(c, events, i, q);
    var b := Run(c, events);
    assert Front(events + [Clean(n)]) == events && Last(events + [Clean(n)]) == Clean(n);
    KeepsExactly(b.pools, p => Old(p, n));
  }

  // The pools stay in the order of their keys, one for each.

  predicate Sorted(pools: seq<Pool>) {
    pools != [] ==> (forall p :: p in pools[1..] ==> Less(pools[0].key, p.key)) && Sorted(pools[1..])
  }

  lemma {:induction false} EnterSorted(pools: seq<Pool>, p: Pool)
    requires Sorted(pools) && !Present(pools, p.key)
    ensures Sorted(Enter(pools, p))
  {
    if pools == [] || Less(p.key, pools[0].key) {
      assert ([p] + pools)[1..] == pools;
      assert forall q :: q in pools ==> q == pools[0] || q in pools[1..];
    } else {
      assert pools[0] in pools && !Present(pools[1..], p.key);
      EnterSorted(pools[1..], p);
      var r := Enter(pools[1..], p);
      assert ([pools[0]] + r)[1..] == r;
    }
  }

  lemma {:induction false} KeepSorted(pools: seq<Pool>, remove: Pool -> bool)
    requires Sorted(pools)
    ensures Sorted(Keep(pools, remove))
  {
    if pools != [] {
      KeepSorted(pools[1..], remove);
      KeepsExactly(pools[1..], remove);
      var keep := Keep(pools[1..], remove);
      assert ([pools[0]] + keep)[1..] == keep;
    }
  }

  lemma {:induction false} SameKeysSorted(pools: seq<Pool>, more: seq<Pool>)
    requires Sorted(pools) && |more| == |pools| && forall i :: 0 <= i < |pools| ==> more[i].key == pools[i].key
    ensures Sorted(more)
  {
    if pools != [] {
      forall p | p in more[1..] ensures Less(more[0].key, p.key) {
        var i :| 0 <= i < |more[1..]| && more[1..][i] == p;
        assert pools[1..][i] in pools[1..];
      }
      SameKeysSorted(pools[1..], more[1..]);
    }
  }

  lemma {:induction false} RunKeepsSorted(c: Cache, events: seq<Event>)
    requires Sorted(c.pools)
    ensures Sorted(Run(c, events).pools)
    decreases |events|
  {
    if events != [] {
      var b := Run(c, Front(events));
      RunKeepsSorted(c, Front(events));
      match Last(events) {
        case Register(k) => if !Present(b.pools, k) { EnterSorted(b.pools, Pool(k, 0, [])); }
        case Insert(k, x) => SameKeysSorted(b.pools, Put(b.pools, k, x));
        case Select(req) => SameKeysSorted(b.pools, AgedAll(b.pools, req));
        case Peek(req) =>
        case Clean(maxAge) => KeepSorted(b.pools, p => Old(p, maxAge));
        case CleanBy(policy) => KeepSorted(b.pools, policy);
      }
    }
  }

  lemma {:induction false} SortedOnce(pools: seq<Pool>, p: Pool, q: Pool)
    requires Sorted(pools) && p in pools && q in pools && p.key == q.key
    ensures p == q
  {
    if p != pools[0] && q != pools[0] {
      SortedOnce(pools[1..], p, q);
    }
  }
}
