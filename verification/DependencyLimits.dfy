/** A run in which the validity of a condition is wider than that of a condition it depends on. */
module DependencyLimits {
  import opened Validity
  import opened Wrappers
  import opened DependencyEngine
  import opened DependencyRuns
  import opened DependencyInvariants
  import opened DependencyTheorems
  import F = DependencyForgotten

  /** At most the validity of the item in progress has changed. */
  predicate OnlyNarrowed(s: Engine, r: Engine) {
    && s.current.Some? && r.current == s.current && s.current.value in s.items && s.current.value in r.items
    && r.items == s.items[s.current.value := s.items[s.current.value].(iov := r.items[s.current.value].iov)]
  }

  lemma VisitResolved(c: Config, s: Engine, a: Access)
    requires WellFormed(c, s) && s.stack != [] && FindsResolved(c, s, a)
    ensures Visit(c, s, a).Done? && OnlyNarrowed(s, Visit(c, s, a).s)
  {
    assert Get(c, s, a.key, a.required) == Done(Apply(c, s, FromResolved(a.key)));
    var s1 := Apply(c, s, FromResolved(a.key));
    assert Visit(c, s, a) == Done(if a.limits then Apply(c, s1, Limit(a.key)) else s1);
  }

  lemma NarrowedTwice(s: Engine, t: Engine, r: Engine)
    requires OnlyNarrowed(s, t) && OnlyNarrowed(t, r)
    ensures OnlyNarrowed(s, r)
  {
  }

  lemma {:induction false} ReadsOfResolved(c: Config, s: Engine, accesses: seq<Access>)
    requires WellFormed(c, s) && s.stack != []
    requires forall a :: a in accesses ==> FindsResolved(c, s, a)
    ensures RunAll(c, s, accesses).Done? && OnlyNarrowed(s, RunAll(c, s, accesses).s)
    decreases accesses
  {
    if accesses != [] {
      VisitResolved(c, s, accesses[0]);
      var r := Visit(c, s, accesses[0]).s;
      StillResolved(c, s, r, accesses);
      ReadsOfResolved(c, r, accesses[1..]);
      NarrowedTwice(s, r, RunAll(c, r, accesses[1..]).s);
    }
  }

  lemma StillResolved(c: Config, s: Engine, r: Engine, accesses: seq<Access>)
    requires forall a :: a in accesses ==> FindsResolved(c, s, a)
    requires r.items.Keys == s.items.Keys && forall k :: k in s.items ==> r.items[k].state == s.items[k].state
    ensures forall a :: a in accesses ==> FindsResolved(c, r, a)
  {
  }

  // An example. Item `second` reads a pool condition, items `first` and `third` read `second`.

  ghost predicate Example(c: Config, first: Hash, second: Hash, third: Hash, p: Hash) {
    && Distinct([first, second, third]) && c.deps.Keys == {first, second, third}
    && p in c.pool && c.pool[p].typed && c.validity.typed && c.pool.Keys !! c.deps.Keys
    && c.deps[first] == Dependency([Single(second, true, true)], [], true)
    && c.deps[second] == Dependency([Single(p, true, true)], [], true)
    && c.deps[third] == Dependency([Single(second, true, true)], [], true)
  }

  predicate OnlyChanged(s: Engine, r: Engine, keys: set<Hash>) {
    r.items.Keys == s.items.Keys && forall k :: k in s.items && k !in keys ==> r.items[k] == s.items[k]
  }

  lemma ReadFromPool(c: Config, s: Engine, p: Hash)
    requires WellFormed(c, s) && s.stack != [] && p in c.pool && c.pool[p].typed
    requires !s.items[s.current.value].iovSet
    ensures var r, k := RunAll(c, s, [Single(p, true, true)]), s.current.value;
            && r.Done? && OnlyChanged(s, r.s, {k})
            && r.s.items[k] == s.items[k].(iov := c.pool[p], iovSet := true)
  {
    var a := Single(p, true, true);
    F.OneAccess(c, s, a);
    var s1 := Apply(c, s, FromPool(p));
    assert Get(c, s, p, true) == Done(s1);
    assert Visit(c, s, a) == Done(Apply(c, s1, Limit(p)));
  }

  lemma RunNothing(c: Config, s: Engine)
    requires WellFormed(c, s) && s.stack != []
    ensures RunAll(c, s, []) == Done(s)
  {
  }

  /** What entering and leaving an empty resolve callback does to the items. */
  lemma ResolvedAtOnce(s: Engine, k: Hash, into: Hash)
    requires k in s.items && into in s.items && s.items[k].iovSet && s.items[k].iov.typed
    ensures var r := AfterResolve(BeforeResolve(s, k), k, into);
            && OnlyChanged(s, r, {k, into}) && r.items[k] == s.items[k].(state := RESOLVED)
            && (into != k ==> r.items[into] == DoIntersection(s.items[into], s.items[k].iov))
  {
  }

  /** A resolve callback which accesses nothing. */
  lemma ResolveNothing(c: Config, s: Engine, k: Hash)
    requires WellFormed(c, s) && k in s.items && s.items[k].state == CREATED && c.deps[k].resolve == []
    requires s.current.Some? && (s.stack == [] ==> s.current == Some(k)) && s.items[k].iov.typed
    ensures var r, into := Resolve(c, s, k), s.current.value;
            && r.Done? && OnlyChanged(s, r.s, {k, into})
            && r.s.items[k] == s.items[k].(state := RESOLVED)
            && (into != k ==> r.s.items[into] == DoIntersection(s.items[into], s.items[k].iov))
  {
    ResolveUnfolds(c, s, k);
    RunNothing(c, BeforeResolve(s, k));
    ResolvedAtOnce(s, k, s.current.value);
  }

  predicate Untouched(s: Engine, k: Hash) {
    k in s.items && s.items[k].state == INVALID && s.items[k].callstack == 0 && !s.items[k].iovSet
  }

  /** Item `k` reads one pool condition and is not created yet; the item in progress is another one. */
  predicate PoolReader(c: Config, s: Engine, k: Hash, p: Hash) {
    && WellFormed(c, s) && s.stack != [] && s.current.value != k && !s.items[s.current.value].iovSet
    && Untouched(s, k) && k !in c.pool
    && c.deps[k] == Dependency([Single(p, true, true)], [], true) && p in c.pool && c.pool[p].typed
  }

  lemma CreateFromPool(c: Config, s: Engine, k: Hash, p: Hash)
    requires PoolReader(c, s, k, p)
    ensures var r, reader := Create(c, s, k), s.current.value;
            && r.Done? && OnlyChanged(s, r.s, {k, reader})
            && r.s.items[k] == Work(CREATED, 0, c.pool[p], true, true)
            && r.s.items[reader] == s.items[reader].(iov := c.pool[p], iovSet := true)
  {
    CreateUnfolds(c, s, k);
    var s1 := Apply(c, s, EnterCreate(k));
    ReadFromPool(c, s1, p);
    var s2 := RunAll(c, s1, [Single(p, true, true)]).s;
    assert s2.items[k] == Work(INVALID, 1, c.pool[p], true, false);
    LeaveAfterPool(c, s2, k, s.current.value);
  }

  lemma LeaveAfterPool(c: Config, s2: Engine, k: Hash, reader: Hash)
    requires Ready(c, s2, LeaveCreate(k, Some(reader))) && reader != k && reader in s2.items
    requires s2.items[k].iovSet && s2.items[k].callstack == 1
    ensures var r := Apply(c, s2, LeaveCreate(k, Some(reader)));
            && OnlyChanged(s2, r, {k, reader})
            && r.items[k] == Work(CREATED, 0, s2.items[k].iov, true, true)
            && r.items[reader] == DoIntersection(s2.items[reader], s2.items[k].iov)
  {
  }

  lemma CreateAndResolveFromPool(c: Config, s: Engine, k: Hash, p: Hash)
    requires PoolReader(c, s, k, p)
    ensures var r, reader := CreateAndResolve(c, s, k), s.current.value;
            && r.Done? && OnlyChanged(s, r.s, {k, reader})
            && r.s.items[k] == Work(RESOLVED, 0, c.pool[p], true, true)
            && r.s.items[reader] == s.items[reader].(iov := c.pool[p], iovSet := true)
  {
    CreateFromPool(c, s, k, p);
    var r := Create(c, s, k);
    ResolveNothing(c, r.s, k);
    assert CreateAndResolve(c, s, k) == Resolve(c, r.s, k);
  }

  /** An item which reads item `k` before anything has created that. */
  lemma ReadThroughPoolReader(c: Config, s: Engine, k: Hash, p: Hash)
    requires PoolReader(c, s, k, p)
    ensures var r, reader := RunAll(c, s, [Single(k, true, true)]), s.current.value;
            && r.Done? && OnlyChanged(s, r.s, {k, reader})
            && r.s.items[k] == Work(RESOLVED, 0, c.pool[p], true, true)
            && r.s.items[reader] == s.items[reader].(iov := c.pool[p], iovSet := true)
  {
    F.OneAccess(c, s, Single(k, true, true));
    CreateAndResolveFromPool(c, s, k, p);
    VisitThrough(c, s, k);
    LimitedAlready(c, CreateAndResolve(c, s, k).s, k);
  }

  lemma LimitedAlready(c: Config, s: Engine, k: Hash)
    requires Ready(c, s, Limit(k)) && k !in c.pool && s.items[s.current.value].iov == s.items[k].iov
    requires s.items[k].iov.typed
    ensures Apply(c, s, Limit(k)).items == s.items
  {
  }

  lemma VisitThrough(c: Config, s: Engine, k: Hash)
    requires WellFormed(c, s) && s.stack != [] && Untouched(s, k) && k !in c.pool
    ensures var r := CreateAndResolve(c, s, k);
            r.Done? ==> Visit(c, s, Single(k, true, true)) == Done(Apply(c, r.s, Limit(k)))
  {
    assert Get(c, s, k, true) == CreateAndResolve(c, s, k);
  }

  lemma FirstIsLimited(c: Config, first: Hash, second: Hash, third: Hash, p: Hash)
    requires Example(c, first, second, third, p) && first != second
    ensures var s := Initial(c);
            var r := Create(c, s, first);
            && r.Done? && OnlyChanged(s, r.s, {first, second})
            && r.s.items[second] == Work(RESOLVED, 0, c.pool[p], true, true)
            && r.s.items[first] == Work(CREATED, 0, c.pool[p], true, true)
  {
    var s := Initial(c);
    EnteringShrinks(c, s, first);
    var s1 := Apply(c, s, EnterCreate(first));
    ReadThroughPoolReader(c, s1, second, p);
    var s2 := RunAll(c, s1, [Single(second, true, true)]).s;
    CreationContinues(c, s, first, s2);
    assert Create(c, s, first) == Done(Apply(c, s2, LeaveCreate(first, None)));
  }

  /** A creation which finds all it asks for resolved changes no other item. */
  lemma NothingElse(c: Config, s: Engine, k: Hash)
    requires WellFormed(c, s) && s.stack == [] && s.current == None
    requires Untouched(s, k) && c.deps[k].succeeds && forall x :: x in c.deps[k].create ==> FindsResolved(c, s, x)
    ensures var r := Create(c, s, k); r.Done? && forall j :: j in s.items && j != k ==> r.s.items[j] == s.items[j]
  {
    EnteringShrinks(c, s, k);
    var s1 := Apply(c, s, EnterCreate(k));
    ReadsOfResolved(c, s1, c.deps[k].create);
    CreationContinues(c, s, k, RunAll(c, s1, c.deps[k].create).s);
  }

  lemma {:induction false} NothingToResolve(c: Config, s: Engine, keys: seq<Hash>)
    requires WellFormed(c, s) && s.stack == []
    requires forall k :: k in keys ==> k in s.items && s.items[k].state != INVALID && c.deps[k].resolve == []
    requires forall k :: k in s.items ==> s.items[k].iov.typed
    ensures var r := ResolveFrom(c, s, keys);
            r.Done? && r.s.items.Keys == s.items.Keys && forall k :: k in s.items ==> r.s.items[k].iov == s.items[k].iov
    decreases keys
  {
    if keys != [] {
      var s1 := Apply(c, s, Select(keys[0]));
      if s1.items[keys[0]].state != RESOLVED {
        ResolveNothing(c, s1, keys[0]);
      }
      var t := ResolveNext(c, s, keys[0]).s;
      StillTyped(c, s, t, keys);
      NothingToResolve(c, t, keys[1..]);
      ResolveFirst(c, s, keys);
    }
  }

  lemma StillTyped(c: Config, s: Engine, t: Engine, keys: seq<Hash>)
    requires forall k :: k in keys ==> k in s.items && s.items[k].state != INVALID
    requires forall k :: k in s.items ==> s.items[k].iov.typed
    requires t.items.Keys == s.items.Keys
    requires forall k :: k in s.items ==> t.items[k].iov == s.items[k].iov && Advances(s.items[k], t.items[k])
    ensures forall k :: k in keys ==> k in t.items && t.items[k].state != INVALID
    ensures forall k :: k in t.items ==> t.items[k].iov.typed
  {
  }

  /** What the first pass of the example leaves. */
  lemma FirstPass(c: Config, first: Hash, second: Hash, third: Hash, p: Hash)
    requires Example(c, first, second, third, p) && first != second && second != third && first != third
    ensures var r := ComputeFrom(c, Initial(c), [first, second, third]);
            && r.Done?
            && r.s.items[first].iov == r.s.items[second].iov == c.pool[p]
            && r.s.items[third].iov.key == FOREVER
  {
    FirstIsLimited(c, first, second, third, p);
    var s1 := Create(c, Initial(c), first).s;
    ReadyForThird(c, s1, first, second, third, p);
    NothingElse(c, s1, third);
    ThirdForgets(c, s1, second, third);
    OnlyThird(c, s1, first, second, third);
  }

  /** Item `first` has been created, and `second` resolved with it. */
  lemma ReadyForThird(c: Config, s: Engine, first: Hash, second: Hash, third: Hash, p: Hash)
    requires Example(c, first, second, third, p) && second != third && first != third
    requires WellFormed(c, s) && OnlyChanged(Initial(c), s, {first, second}) && s.stack == [] && s.current == None
    requires s.items[second].state == RESOLVED
    ensures F.CanCreate(c, s, third) && Untouched(s, third)
    ensures c.deps[third].create == [Single(second, true, true)] && FindsResolved(c, s, Single(second, true, true))
  {
  }

  lemma ThirdForgets(c: Config, s: Engine, second: Hash, third: Hash)
    requires F.CanCreate(c, s, third) && !s.items[third].iovSet && Create(c, s, third).Done?
    requires c.deps[third].create == [Single(second, true, true)] && FindsResolved(c, s, Single(second, true, true))
    ensures third in Create(c, s, third).s.items && Create(c, s, third).s.items[third].iov.key == FOREVER
  {
    var all := c.deps[third].create;
    assert all[1..] == [] && F.Idle(c, s, all[0]) && F.Idles(c, s, all) == 1;
    F.CreationForgets(c, s, third);
  }

  lemma OnlyThird(c: Config, s: Engine, first: Hash, second: Hash, third: Hash)
    requires c.deps.Keys == {first, second, third}
    requires WellFormed(c, s) && s.stack == [] && s.current == None
    requires s.items[second].condition && !s.items[third].condition
    requires Create(c, Initial(c), first) == Done(s) && Create(c, s, third).Done?
    ensures ComputeFrom(c, Initial(c), [first, second, third]) == Create(c, s, third)
  {
    var r := Create(c, s, third);
    assert [first, second, third][1..] == [second, third] && [second, third][1..] == [third] && [third][1..] == [];
    ComputeFirst(c, Initial(c), [first, second, third]);
    ComputeFirst(c, s, [second, third]);
    ComputeFirst(c, s, [third]);
    assert ComputeFrom(c, r.s, []) == r;
  }

  lemma TypesKept(c: Config, order: seq<Hash>)
    requires Lists(c, order) && Typed(c)
    ensures var r := ComputeFrom(c, Initial(c), order);
            r.Done? ==> forall k :: k in r.s.items ==> r.s.items[k].iov.typed
  {
    ValiditiesStable(c);
    InitiallySound(c);
    ComputeKeeps(c, Initial(c), order, s => Validities(c, s));
  }

  /** Items `first` and `third` ask for the same condition: `first` is limited by it and `third`,
      created later, is not. */
  lemma LaterReaderIsNotLimited(c: Config, first: Hash, second: Hash, third: Hash, p: Hash)
    requires Example(c, first, second, third, p) && Typed(c)
    ensures var order := [first, second, third];
            && Lists(c, order) && Run(c, order).Done?
            && Final(c, order, first) == Final(c, order, second) == c.pool[p].key
            && Final(c, order, third) == FOREVER
  {
    var order := [first, second, third];
    assert first != second && second != third && first != third by {
      assert order[0] != order[1] && order[1] != order[2] && order[0] != order[2];
    }
    assert Lists(c, order);
    BothPasses(c, first, second, third, p);
  }

  lemma NoneResolves(c: Config, first: Hash, second: Hash, third: Hash, p: Hash)
    requires Example(c, first, second, third, p)
    ensures forall k :: k in c.deps ==> c.deps[k].resolve == []
  {
  }

  lemma BothPasses(c: Config, first: Hash, second: Hash, third: Hash, p: Hash)
    requires Example(c, first, second, third, p) && Typed(c) && Lists(c, [first, second, third])
    requires first != second && second != third && first != third
    ensures var order := [first, second, third];
            && Run(c, order).Done?
            && Final(c, order, first) == Final(c, order, second) == c.pool[p].key
            && Final(c, order, third) == FOREVER
  {
    var order := [first, second, third];
    FirstPass(c, first, second, third, p);
    NoneResolves(c, first, second, third, p);
    SecondPass(c, order);
  }

  lemma SecondPass(c: Config, order: seq<Hash>)
    requires Lists(c, order) && ComputeFrom(c, Initial(c), order).Done?
    requires Typed(c) && forall k :: k in c.deps ==> c.deps[k].resolve == []
    ensures Run(c, order).Done?
    ensures forall k :: k in c.deps ==> Final(c, order, k) == ComputeFrom(c, Initial(c), order).s.items[k].iov.key
  {
    TypesKept(c, order);
    NothingToResolve(c, Apply(c, ComputeFrom(c, Initial(c), order).s, StartResolve), order);
  }
}
