/** What holds of every run of the engine that does not throw, and when it does not throw. */
module DependencyTheorems {
  import opened Validity
  import opened Wrappers
  import opened DependencyEngine
  import opened DependencyRuns
  import opened DependencyInvariants

  ghost predicate Sound(c: Config, s: Engine) {
    StackOk(c, s) && Counted(s) && Ordered(c, s.log) && Served(c, s)
  }

  lemma SoundIsStable(c: Config)
    ensures Stable(c, s => Sound(c, s))
  {
    forall s, m | Enabled(c, s, m) && Sound(c, s) ensures Sound(c, Apply(c, s, m)) {
      Effect(c, s, m);
      StackStep(c, s, m);
      CountStep(s, Apply(c, s, m));
      OrderStep(c, s, m);
      ServeStep(c, s, m);
    }
  }

  lemma InitiallySound(c: Config)
    ensures Sound(c, Initial(c)) && StackOk(c, Initial(c))
    ensures Initial(c).log == [] && forall k :: k in Initial(c).items ==> !Initial(c).items[k].iovSet
  {
    assert Made(Initial(c)) == {};
  }

  lemma RunIsSound(c: Config, order: seq<Hash>)
    requires Lists(c, order)
    ensures Run(c, order).Done? ==> Sound(c, Run(c, order).s)
  {
    SoundIsStable(c);
    InitiallySound(c);
    RunKeeps(c, order, s => Sound(c, s));
  }

  /** The state a run that does not throw ends in. */
  ghost predicate Complete(c: Config, s: Engine) {
    && s.items.Keys == c.deps.Keys && s.stack == []
    && forall k :: k in s.items ==> s.items[k].state == RESOLVED
  }

  ghost predicate EachOnce(c: Config, s: Engine) {
    && s.numCallback == |c.deps|
    && forall k :: k in s.items ==>
         && s.items[k].callstack == 0
         && multiset(s.log)[CreateBegin(k)] == 1 && multiset(s.log)[CreateEnd(k)] == 1
         && multiset(s.log)[ResolveBegin(k)] == 1 && multiset(s.log)[ResolveEnd(k)] == 1
  }

  lemma CompleteOnce(c: Config, s: Engine)
    requires Complete(c, s) && Guarded(s) && Counted(s)
    ensures EachOnce(c, s)
  {
    assert Made(s) == c.deps.Keys;
    forall k | k in s.items ensures CountedAt(s, k) && Finished(s, k) {
    }
  }

  /** A run that does not throw calls each creation callback once and each resolve callback
      once, resolves every item, counts one callback per item and leaves nothing in progress. */
  lemma EachCallbackOnce(c: Config, order: seq<Hash>)
    requires Lists(c, order)
    ensures var r := Run(c, order); r.Done? ==> Complete(c, r.s) && EachOnce(c, r.s)
  {
    RunIsSound(c, order);
    if Run(c, order).Done? {
      CompleteOnce(c, Run(c, order).s);
    }
  }

  // Creation cycles.

  /** Each key of `cycle` is asked for by the creation callback of the one before it. */
  ghost predicate CreationCycle(c: Config, cycle: seq<Hash>) {
    && |cycle| > 1 && cycle[0] == Last(cycle)
    && (forall k :: k in cycle ==> k in c.deps && k !in c.pool)
    && (forall i :: 0 < i < |cycle| ==> Asks(c, Creating(cycle[i - 1]), cycle[i]))
  }

  lemma {:induction false} EndsBefore(c: Config, log: seq<Event>, path: seq<Hash>, i: nat) returns (j: nat)
    requires Ordered(c, log) && i < |log| && path != [] && log[i] == CreateEnd(path[0])
    requires forall k :: k in path ==> k in c.deps && k !in c.pool
    requires forall n :: 0 < n < |path| ==> Asks(c, Creating(path[n - 1]), path[n])
    ensures j <= i && log[j] == CreateEnd(Last(path)) && (|path| > 1 ==> j < i)
    decreases |path|
  {
    if |path| == 1 {
      j := i;
    } else {
      assert Asks(c, Creating(path[0]), path[1]);
      assert CreateEnd(path[1]) in log[..i];
      var n :| 0 <= n < i && log[..i][n] == CreateEnd(path[1]);
      forall m | 0 < m < |path[1..]| ensures Asks(c, Creating(path[1..][m - 1]), path[1..][m]) {
        assert Asks(c, Creating(path[m]), path[m + 1]);
      }
      j := EndsBefore(c, log, path[1..], n);
    }
  }

  lemma {:induction false} NoEndOnCycle(c: Config, log: seq<Event>, cycle: seq<Hash>, i: nat)
    requires Ordered(c, log) && CreationCycle(c, cycle)
    ensures i < |log| ==> log[i] != CreateEnd(cycle[0])
    decreases i
  {
    if i < |log| && log[i] == CreateEnd(cycle[0]) {
      var j := EndsBefore(c, log, cycle, i);
      NoEndOnCycle(c, log, cycle, j);
    }
  }

  /** With a cycle of creations the first pass throws, whatever the order of the items. */
  lemma CreationCycleThrows(c: Config, order: seq<Hash>, cycle: seq<Hash>)
    requires Lists(c, order) && CreationCycle(c, cycle)
    ensures ComputeFrom(c, Initial(c), order).Thrown?
  {
    SoundIsStable(c);
    InitiallySound(c);
    ComputeKeeps(c, Initial(c), order, s => Sound(c, s));
    var r := ComputeFrom(c, Initial(c), order);
    if r.Done? {
      assert cycle[0] in cycle;
      assert CountedAt(r.s, cycle[0]);
      assert CreateEnd(cycle[0]) in r.s.log;
      var i :| 0 <= i < |r.s.log| && r.s.log[i] == CreateEnd(cycle[0]);
      NoEndOnCycle(c, r.s.log, cycle, i);
    }
  }

  /** Every creation finishes after the creations it asked for. */
  lemma CreationsFinishInOrder(c: Config, order: seq<Hash>, k: Hash, a: Access, i: nat)
    requires Lists(c, order) && k in c.deps && a in c.deps[k].create && Derived(c, a)
    ensures var r := Run(c, order);
            r.Done? && i < |r.s.log| && r.s.log[i] == CreateEnd(k) ==> CreateEnd(a.key) in r.s.log[..i]
  {
    RunIsSound(c, order);
  }

  // Acyclic access graphs.

  /** No access graph cycle, no missing condition, no failing callback; `early` holds what
      creation callbacks can reach, where access by detector is not allowed yet. */
  ghost predicate WellFounded(c: Config, rank: Hash -> nat, early: set<Hash>) {
    forall k :: k in c.deps ==>
      && c.deps[k].succeeds
      && (forall a :: a in c.deps[k].create ==> Descends(c, rank, k, a) && Early(c, early, a))
      && (forall a :: a in c.deps[k].resolve ==> Descends(c, rank, k, a) && (k in early ==> Early(c, early, a)))
  }

  predicate Descends(c: Config, rank: Hash -> nat, k: Hash, a: Access) {
    a.Single? && a.key !in c.pool ==> if a.key in c.deps then rank(a.key) < rank(k) else !a.required
  }

  predicate Early(c: Config, early: set<Hash>, a: Access) {
    a.Single? && (Derived(c, a) ==> a.key in early)
  }

  /** Creations in progress are all above `bound`. */
  ghost predicate Above(s: Engine, rank: Hash -> nat, bound: nat) {
    forall k :: k in s.items && s.items[k].callstack > 0 ==> rank(k) >= bound
  }

  lemma {:induction false} RunAllCompletes(c: Config, s: Engine, accesses: seq<Access>, rank: Hash -> nat, early: set<Hash>)
    requires WellFounded(c, rank, early) && WellFormed(c, s) && s.stack != []
    requires Above(s, rank, rank(s.current.value))
    requires forall a :: a in accesses ==> Descends(c, rank, s.current.value, a) && (s.mode != RESOLVED ==> Early(c, early, a))
    ensures RunAll(c, s, accesses).Done?
    decreases Fresh(s), Pending(s), |accesses|, 0
  {
    if accesses != [] {
      VisitCompletes(c, s, accesses[0], rank, early);
      var r := Visit(c, s, accesses[0]);
      assert Fresh(r.s) <= Fresh(s) && Pending(r.s) <= Pending(s);
      RunAllCompletes(c, r.s, accesses[1..], rank, early);
    }
  }

  lemma {:induction false} VisitCompletes(c: Config, s: Engine, a: Access, rank: Hash -> nat, early: set<Hash>)
    requires WellFounded(c, rank, early) && WellFormed(c, s) && s.stack != []
    requires Above(s, rank, rank(s.current.value))
    requires Descends(c, rank, s.current.value, a) && (s.mode != RESOLVED ==> Early(c, early, a))
    ensures Visit(c, s, a).Done?
    decreases Fresh(s), Pending(s), 0, 3
  {
    if a.Single? {
      GetCompletes(c, s, a.key, a.required, rank, early);
    }
  }

  lemma {:induction false} GetCompletes(c: Config, s: Engine, key: Hash, required: bool, rank: Hash -> nat, early: set<Hash>)
    requires WellFounded(c, rank, early) && WellFormed(c, s) && s.stack != []
    requires key !in c.pool && key in c.deps ==>
      Above(s, rank, rank(key) + 1) && (s.mode != RESOLVED ==> key in early)
    requires key !in c.pool && key !in c.deps ==> !required
    ensures Get(c, s, key, required).Done?
    decreases Fresh(s), Pending(s), 0, 2
  {
    if key !in c.pool && key in c.deps && s.items[key].state != RESOLVED {
      if s.items[key].state == CREATED {
        ResolveCompletes(c, s, key, rank, early);
      } else {
        CreateCompletes(c, s, key, rank, early);
        var r := Create(c, s, key);
        assert key in Fresh(s) && key !in Fresh(r.s);
        assert Fresh(r.s) < Fresh(s);
        ResolveCompletes(c, r.s, key, rank, early);
      }
    }
  }

  lemma {:induction false} CreateCompletes(c: Config, s: Engine, key: Hash, rank: Hash -> nat, early: set<Hash>)
    requires WellFounded(c, rank, early) && WellFormed(c, s)
    requires key in s.items && s.items[key].state == INVALID
    requires s.stack == [] ==> s.current == None
    requires Above(s, rank, rank(key) + 1)
    ensures Create(c, s, key).Done?
    decreases Fresh(s), Pending(s), 0, 0
  {
    EnteringShrinks(c, s, key);
    RunAllCompletes(c, Apply(c, s, EnterCreate(key)), c.deps[key].create, rank, early);
  }

  lemma {:induction false} ResolveCompletes(c: Config, s: Engine, key: Hash, rank: Hash -> nat, early: set<Hash>)
    requires WellFounded(c, rank, early) && WellFormed(c, s)
    requires key in s.items && s.items[key].state == CREATED
    requires s.current.Some? && (s.stack == [] ==> s.current == Some(key))
    requires Above(s, rank, rank(key) + 1)
    requires s.mode != RESOLVED ==> key in early
    ensures Resolve(c, s, key).Done?
    decreases Fresh(s), Pending(s), 0, 0
  {
    EnteringShrinks(c, s, key);
    RunAllCompletes(c, Apply(c, s, EnterResolve(key)), c.deps[key].resolve, rank, early);
  }

  lemma {:induction false} ComputeCompletes(c: Config, s: Engine, keys: seq<Hash>, rank: Hash -> nat, early: set<Hash>)
    requires WellFounded(c, rank, early) && WellFormed(c, s) && s.stack == [] && s.current == None
    requires forall k :: k in keys ==> k in s.items
    requires forall k :: k in s.items ==> s.items[k].callstack == 0
    ensures ComputeFrom(c, s, keys).Done?
    decreases keys
  {
    if keys != [] {
      if s.items[keys[0]].condition {
        ComputeCompletes(c, s, keys[1..], rank, early);
      } else {
        CreateCompletes(c, s, keys[0], rank, early);
        ComputeCompletes(c, Create(c, s, keys[0]).s, keys[1..], rank, early);
      }
    }
  }

  lemma {:induction false} ResolvePassCompletes(c: Config, s: Engine, keys: seq<Hash>, rank: Hash -> nat, early: set<Hash>)
    requires WellFounded(c, rank, early) && WellFormed(c, s) && s.stack == [] && s.mode == RESOLVED
    requires forall k :: k in keys ==> k in s.items && s.items[k].state != INVALID
    requires forall k :: k in s.items ==> s.items[k].callstack == 0
    ensures ResolveFrom(c, s, keys).Done?
    decreases keys
  {
    if keys != [] {
      var s1 := Apply(c, s, Select(keys[0]));
      if s1.items[keys[0]].state != RESOLVED {
        ResolveCompletes(c, s1, keys[0], rank, early);
      }
      ResolvePassCompletes(c, ResolveNext(c, s, keys[0]).s, keys[1..], rank, early);
    }
  }

  /** Without a cycle among the accesses, and with every required condition there, a run completes. */
  lemma AcyclicRunCompletes(c: Config, order: seq<Hash>, rank: Hash -> nat, early: set<Hash>)
    requires Lists(c, order) && WellFounded(c, rank, early)
    ensures Run(c, order).Done?
  {
    ComputeCompletes(c, Initial(c), order, rank, early);
    var r := ComputeFrom(c, Initial(c), order);
    ResolvePassCompletes(c, Apply(c, r.s, StartResolve), order, rank, early);
  }

  // Validities.

  ghost predicate Validities(c: Config, s: Engine) {
    Sound(c, s) && AllTyped(s) && Contained(c, s)
  }

  lemma ValiditiesStable(c: Config)
    requires Typed(c)
    ensures Stable(c, s => Validities(c, s))
  {
    SoundIsStable(c);
    forall s, m | Enabled(c, s, m) && Validities(c, s) ensures Validities(c, Apply(c, s, m)) {
      TypeStep(c, s, m);
      ContainStep(c, s, m);
    }
  }

  lemma RunValidities(c: Config, order: seq<Hash>)
    requires Lists(c, order) && Typed(c)
    ensures Run(c, order).Done? ==> Validities(c, Run(c, order).s)
  {
    ValiditiesStable(c);
    InitiallySound(c);
    RunKeeps(c, order, s => Validities(c, s));
  }

  function Final(c: Config, order: seq<Hash>, k: Hash): Key
    requires Lists(c, order)
  {
    var s := Run(c, order).s;
    if k in s.items then s.items[k].iov.key else FOREVER
  }

  /** What item `k` has read with access `a` contains its validity, unless the access found the
      derived condition `RESOLVED`, and that was before the reader's validity was set (`isSet` says that
      it was), or while the callback of that condition was in progress, or without the context. */
  ghost predicate Limits(c: Config, s: Engine, k: Hash, a: Access, isSet: bool)
    requires k in s.items
  {
    && (ReadsPool(c, a) ==> Within(s.items[k].iov.key, c.pool[a.key].key))
    && (a.Bulk? ==> forall v :: v in a.found ==> Within(s.items[k].iov.key, v.key))
    && (Derived(c, a) && a.key in s.items ==>
          || Within(s.items[k].iov.key, s.items[a.key].iov.key)
          || ReadUnfinished(k, a.key) in s.log
          || (!isSet && ReadUnset(k, a.key) in s.log)
          || (!a.limits && ReadResolved(k, a.key) in s.log))
  }

  lemma ServedLimits(c: Config, s: Engine, k: Hash, a: Access, isSet: bool)
    requires Contained(c, s) && k in s.items && Answered(c, s, k, a, isSet)
    ensures Limits(c, s, k, a, isSet)
  {
    if a.Bulk? {
      forall v | v in a.found ensures Within(s.items[k].iov.key, v.key) {
        assert ContainedAt(c, s, ReadBulk(k, v));
      }
    } else {
      assert ReadPool(k, a.key) in s.log ==> ContainedAt(c, s, ReadPool(k, a.key));
      assert ReadThrough(k, a.key) in s.log ==> ContainedAt(c, s, ReadThrough(k, a.key));
      assert Limited(k, a.key) in s.log ==> ContainedAt(c, s, Limited(k, a.key));
    }
  }

  /** The validity of `k` is set whenever it makes access `a`. */
  predicate MadeWhenSet(c: Config, k: Hash, a: Access)
    requires k in c.deps
  {
    a in c.deps[k].resolve || a in AfterPool(c, c.deps[k].create)
  }

  /** The validity of a derived condition lies inside that of every pool condition its
      callbacks read, by key, by detector or by item, and inside that of every derived condition they read, unless that one was
      found `RESOLVED` by a creation callback that had read no pool condition before, or while it
      was in progress, or without the context. */
  lemma ValidityIsContained(c: Config, order: seq<Hash>, k: Hash, a: Access)
    requires Lists(c, order) && Typed(c)
    requires k in c.deps && (a in c.deps[k].create || a in c.deps[k].resolve)
    ensures var r := Run(c, order); r.Done? ==> k in r.s.items && Limits(c, r.s, k, a, MadeWhenSet(c, k, a))
  {
    RunValidities(c, order);
    var r := Run(c, order);
    if r.Done? {
      assert Finished(r.s, k) && CreationAnswered(c, r.s, k) && ResolutionAnswered(c, r.s, k);
      ServedLimits(c, r.s, k, a, MadeWhenSet(c, k, a));
    }
  }

  /** No read has found a condition whose resolve callback was in progress. */
  ghost predicate NoneUnfinished(s: Engine) {
    forall e :: e in s.log ==> !e.ReadUnfinished?
  }

  lemma {:induction false} RanksFall(c: Config, stack: seq<Frame>, rank: Hash -> nat, early: set<Hash>, i: nat, j: nat)
    requires WellFounded(c, rank, early) && Chained(c, stack) && i <= j < |stack|
    requires forall f :: f in stack ==> f.key in c.deps
    ensures rank(stack[j].key) <= rank(stack[i].key)
    decreases j - i
  {
    if i < j {
      RanksFall(c, stack, rank, early, i, j - 1);
      assert Asks(c, stack[j - 1], stack[j].key);
      assert stack[j] in stack && stack[j - 1] in stack;
    }
  }

  /** Without cycles every condition that is found `RESOLVED` is finished. */
  lemma ResolvedIsFinished(c: Config, s: Engine, key: Hash, rank: Hash -> nat, early: set<Hash>)
    requires WellFounded(c, rank, early) && Enabled(c, s, FromResolved(key)) && StackOk(c, s)
    ensures Finished(s, key)
  {
    var f := Last(s.stack);
    assert f in s.stack;
    if Resolving(key) in s.stack {
      var i :| 0 <= i < |s.stack| && s.stack[i] == Resolving(key);
      RanksFall(c, s.stack, rank, early, i, |s.stack| - 1);
    }
  }

  lemma NoneUnfinishedStep(c: Config, s: Engine, m: Step)
    requires Enabled(c, s, m) && NoneUnfinished(s) && (m.FromResolved? ==> Finished(s, m.key))
    ensures NoneUnfinished(Apply(c, s, m))
  {
  }

  lemma NoneUnfinishedStable(c: Config, rank: Hash -> nat, early: set<Hash>)
    requires WellFounded(c, rank, early)
    ensures Stable(c, s => StackOk(c, s) && NoneUnfinished(s))
  {
    forall s, m | Enabled(c, s, m) && StackOk(c, s) && NoneUnfinished(s)
      ensures StackOk(c, Apply(c, s, m)) && NoneUnfinished(Apply(c, s, m))
    {
      StackStep(c, s, m);
      if m.FromResolved? {
        ResolvedIsFinished(c, s, m.key, rank, early);
      }
      NoneUnfinishedStep(c, s, m);
    }
  }

  lemma RunNoneUnfinished(c: Config, order: seq<Hash>, rank: Hash -> nat, early: set<Hash>)
    requires Lists(c, order) && WellFounded(c, rank, early) && Run(c, order).Done?
    ensures NoneUnfinished(Run(c, order).s)
  {
    NoneUnfinishedStable(c, rank, early);
    InitiallySound(c);
    RunKeeps(c, order, s => StackOk(c, s) && NoneUnfinished(s));
  }

  /** Without cycles, what a resolve callback reads through the context contains its validity, and
      so does what a creation callback reads through it behind a pool condition (for what it reads
      before, see `DependencyForgotten`). */
  lemma AcyclicValidityIsContained(c: Config, order: seq<Hash>, k: Hash, a: Access, rank: Hash -> nat, early: set<Hash>)
    requires Lists(c, order) && Typed(c) && WellFounded(c, rank, early)
    requires k in c.deps && MadeWhenSet(c, k, a) && Derived(c, a) && a.limits
    ensures Run(c, order).Done? && Within(Final(c, order, k), Final(c, order, a.key))
  {
    AcyclicRunCompletes(c, order, rank, early);
    RunNoneUnfinished(c, order, rank, early);
    RunValidities(c, order);
    var s := Run(c, order).s;
    assert Finished(s, k) && CreationAnswered(c, s, k) && ResolutionAnswered(c, s, k);
    assert Answered(c, s, k, a, true);
    ServedLimits(c, s, k, a, true);
  }

  /** Of two accesses of a creation callback, the second comes behind the first if that is to the pool. */
  lemma {:induction false} BehindPool(c: Config, accesses: seq<Access>, i: nat, j: nat)
    requires i < j < |accesses| && ReadsPool(c, accesses[i])
    ensures accesses[j] in AfterPool(c, accesses)
  {
    if !ReadsPool(c, accesses[0]) {
      BehindPool(c, accesses[1..], i - 1, j - 1);
    }
  }

  /** The same by the places of the two accesses in the creation callback. */
  lemma ReadBehindPoolIsContained(
      c: Config, order: seq<Hash>, k: Hash, i: nat, j: nat, rank: Hash -> nat, early: set<Hash>)
    requires Lists(c, order) && Typed(c) && WellFounded(c, rank, early) && k in c.deps
    requires i < j < |c.deps[k].create| && ReadsPool(c, c.deps[k].create[i])
    requires Derived(c, c.deps[k].create[j]) && c.deps[k].create[j].limits
    ensures Run(c, order).Done? && Within(Final(c, order, k), Final(c, order, c.deps[k].create[j].key))
  {
    BehindPool(c, c.deps[k].create, i, j);
    AcyclicValidityIsContained(c, order, k, c.deps[k].create[j], rank, early);
  }

  ghost predicate CoveringIfClosed(c: Config, s: Engine, keys: set<Hash>, t: int) {
    StackOk(c, s) && (Closed(s.log, keys) ==> Covering(s, keys, t))
  }

  lemma CoveringStable(c: Config, keys: set<Hash>, t: int)
    requires Spanned(c, keys, t)
    ensures Stable(c, s => CoveringIfClosed(c, s, keys, t))
  {
    forall s, m | Enabled(c, s, m) && CoveringIfClosed(c, s, keys, t) ensures CoveringIfClosed(c, Apply(c, s, m), keys, t) {
      StackStep(c, s, m);
      if Closed(Apply(c, s, m).log, keys) {
        ClosedBefore(s.log, Apply(c, s, m).log, keys);
        CoverStep(c, s, m, keys, t);
      }
    }
  }

  lemma ClosedBefore(log: seq<Event>, more: seq<Event>, keys: set<Hash>)
    requires log <= more && Closed(more, keys)
    ensures Closed(log, keys)
  {
  }

  /**
   A validity is not narrowed by anything else than pool reads, reads that find a condition
   `INVALID` or `CREATED`, and context reads: it covers every point of time covered by all that its
   item reads in these ways, and the items which these reads lead to. What is only read directly
   and found `RESOLVED` has no influence.
   */
  lemma ValidityCovers(c: Config, order: seq<Hash>, keys: set<Hash>, t: int, k: Hash)
    requires Lists(c, order) && Spanned(c, keys, t) && k in keys && k in c.deps
    ensures Run(c, order).Done? && Closed(Run(c, order).s.log, keys) ==> Covers(Final(c, order, k), t)
  {
    if Run(c, order).Done? && Closed(Run(c, order).s.log, keys) {
      RunCovering(c, order, keys, t);
      CoveredAt(c, Run(c, order).s, keys, t, k);
    }
  }

  lemma RunCovering(c: Config, order: seq<Hash>, keys: set<Hash>, t: int)
    requires Lists(c, order) && Spanned(c, keys, t) && Run(c, order).Done? && Closed(Run(c, order).s.log, keys)
    ensures Covering(Run(c, order).s, keys, t)
  {
    CoveringStable(c, keys, t);
    InitiallySound(c);
    assert Covering(Initial(c), keys, t);
    RunKeeps(c, order, s => CoveringIfClosed(c, s, keys, t));
  }

  lemma CoveredAt(c: Config, s: Engine, keys: set<Hash>, t: int, k: Hash)
    requires WellFormed(c, s) && Covering(s, keys, t) && k in keys && k in s.items && s.items[k].state == RESOLVED
    ensures Covers(s.items[k].iov.key, t)
  {
  }
}
