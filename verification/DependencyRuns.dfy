/**
 Every run of the engine is a sequence of enabled elementary steps, so whatever each
 enabled step keeps holds at the end of a run (`RunKeeps`). The invariants of single
 steps are below; the results about whole runs are in `DependencyTheorems`.
 */
module DependencyRuns {
  import opened Validity
  import opened Wrappers
  import opened DependencyEngine

  /** The accesses of the callback in progress. */
  function Active(c: Config, f: Frame): seq<Access>
    requires f.key in c.deps
  {
    match f
    case Creating(k) => c.deps[k].create
    case Resolving(k) => c.deps[k].resolve
  }

  predicate Asks(c: Config, f: Frame, k: Hash) {
    f.key in c.deps && exists a :: a in Active(c, f) && a.Single? && a.key == k
  }

  /** One of them is made through the context. */
  predicate AsksLimit(c: Config, f: Frame, k: Hash) {
    f.key in c.deps && exists a :: a in Active(c, f) && a.Single? && a.key == k && a.limits
  }

  predicate AsksBulk(c: Config, f: Frame, v: Iov) {
    f.key in c.deps && exists a :: a in Active(c, f) && a.Bulk? && v in a.found
  }

  /** The accesses of the creation callback have been served. */
  predicate CreationAnswered(c: Config, s: Engine, k: Hash)
    requires k in c.deps
  {
    AnsweredAll(c, s, k, c.deps[k].create, false)
  }

  /** The same for the resolve callback; its validity has been set by the creation. */
  predicate ResolutionAnswered(c: Config, s: Engine, k: Hash)
    requires k in c.deps
  {
    AnsweredAll(c, s, k, c.deps[k].resolve, true)
  }

  /** When the engine takes a step. */
  predicate Enabled(c: Config, s: Engine, m: Step) {
    && Ready(c, s, m)
    && match m
       case EnterCreate(k) => s.stack != [] ==> k !in c.pool && Asks(c, Last(s.stack), k)
       case LeaveCreate(k, _) => c.deps[k].succeeds && CreationAnswered(c, s, k)
       case EnterResolve(k) => s.stack != [] ==> k !in c.pool && Asks(c, Last(s.stack), k)
       case LeaveResolve(k, _) => ResolutionAnswered(c, s, k)
       case FromPool(k) => Asks(c, Last(s.stack), k)
       case FromResolved(k) => k !in c.pool && Asks(c, Last(s.stack), k)
       case Limit(k) => AsksLimit(c, Last(s.stack), k) && (k !in c.pool ==> s.items[k].state == RESOLVED)
       case Narrow(v) => AsksBulk(c, Last(s.stack), v)
       case LimitBulk(v) => AsksBulk(c, Last(s.stack), v) && ReadBulk(s.current.value, v) in s.log
       case Select(_) => true
       case StartResolve => true
  }

  ghost predicate Stable(c: Config, inv: Engine -> bool) {
    forall s, m :: Enabled(c, s, m) && inv(s) ==> inv(Apply(c, s, m))
  }

  lemma NarrowAllKeeps(c: Config, s: Engine, found: seq<Iov>, inv: Engine -> bool)
    requires Stable(c, inv) && WellFormed(c, s) && s.stack != [] && inv(s)
    requires forall v :: v in found ==> AsksBulk(c, Last(s.stack), v)
    ensures inv(NarrowAll(c, s, found))
    decreases found
  {
    if found != [] {
      assert Enabled(c, s, Narrow(found[0]));
      NarrowAllKeeps(c, Apply(c, s, Narrow(found[0])), found[1..], inv);
    }
  }

  lemma LimitAllKeeps(c: Config, s: Engine, found: seq<Iov>, inv: Engine -> bool)
    requires Stable(c, inv) && WellFormed(c, s) && s.stack != [] && inv(s)
    requires forall v :: v in found ==> AsksBulk(c, Last(s.stack), v) && ReadBulk(s.current.value, v) in s.log
    ensures inv(LimitAll(c, s, found))
    decreases found
  {
    if found != [] {
      assert Enabled(c, s, LimitBulk(found[0]));
      LimitAllKeeps(c, Apply(c, s, LimitBulk(found[0])), found[1..], inv);
    }
  }

  lemma {:induction false} RunAllKeeps(c: Config, s: Engine, accesses: seq<Access>, inv: Engine -> bool)
    requires Stable(c, inv) && WellFormed(c, s) && s.stack != [] && inv(s)
    requires forall a :: a in accesses ==> a in Active(c, Last(s.stack))
    ensures var r := RunAll(c, s, accesses); r.Done? ==> inv(r.s)
    decreases Fresh(s), Pending(s), |accesses|, 0
  {
    if accesses != [] {
      var r := Visit(c, s, accesses[0]);
      VisitKeeps(c, s, accesses[0], inv);
      if r.Done? {
        assert Fresh(r.s) <= Fresh(s) && Pending(r.s) <= Pending(s);
        RunAllKeeps(c, r.s, accesses[1..], inv);
      }
    }
  }

  lemma {:induction false} VisitKeeps(c: Config, s: Engine, a: Access, inv: Engine -> bool)
    requires Stable(c, inv) && WellFormed(c, s) && s.stack != [] && inv(s)
    requires a in Active(c, Last(s.stack))
    ensures var r := Visit(c, s, a); r.Done? ==> inv(r.s)
    decreases Fresh(s), Pending(s), 0, 2
  {
    match a
    case Bulk(found, limits) =>
      NarrowAllKeeps(c, s, found, inv);
      if limits {
        LimitAllKeeps(c, NarrowAll(c, s, found), found, inv);
      }
    case Single(key, limits, required) =>
      GetKeeps(c, s, key, required, inv);
      var r := Get(c, s, key, required);
      if r.Done? && limits && (key in c.pool || key in s.items) {
        assert Enabled(c, r.s, Limit(key));
      }
  }

  lemma {:induction false} GetKeeps(c: Config, s: Engine, key: Hash, required: bool, inv: Engine -> bool)
    requires Stable(c, inv) && WellFormed(c, s) && s.stack != [] && inv(s)
    requires Asks(c, Last(s.stack), key)
    ensures var r := Get(c, s, key, required); r.Done? ==> inv(r.s)
    ensures var r := Get(c, s, key, required); r.Done? && key !in c.pool && key in s.items ==> r.s.items[key].state == RESOLVED
    decreases Fresh(s), Pending(s), 0, 1
  {
    if key in c.pool {
      assert Enabled(c, s, FromPool(key));
    } else if key in s.items {
      if s.items[key].state == RESOLVED {
        assert Enabled(c, s, FromResolved(key));
      } else if s.items[key].state == CREATED {
        ResolveKeeps(c, s, key, inv);
      } else {
        CreateKeeps(c, s, key, inv);
        var r := Create(c, s, key);
        if r.Done? {
          assert key in Fresh(s) && key !in Fresh(r.s);
          assert Fresh(r.s) < Fresh(s);
          ResolveKeeps(c, r.s, key, inv);
        }
      }
    }
  }

  lemma {:induction false} CreateKeeps(c: Config, s: Engine, key: Hash, inv: Engine -> bool)
    requires Stable(c, inv) && WellFormed(c, s) && inv(s)
    requires key in s.items && s.items[key].state == INVALID
    requires s.stack == [] ==> s.current == None
    requires s.stack != [] ==> key !in c.pool && Asks(c, Last(s.stack), key)
    ensures var r := Create(c, s, key); r.Done? ==> inv(r.s)
    decreases Fresh(s), Pending(s), 0, 0
  {
    if s.items[key].callstack == 0 {
      CreateUnfolds(c, s, key);
      assert Enabled(c, s, EnterCreate(key));
      var s1 := Apply(c, s, EnterCreate(key));
      RunAllKeeps(c, s1, c.deps[key].create, inv);
      var r := RunAll(c, s1, c.deps[key].create);
      if r.Done? && c.deps[key].succeeds {
        assert Enabled(c, r.s, LeaveCreate(key, s.current));
      }
    }
  }

  lemma {:induction false} ResolveKeeps(c: Config, s: Engine, key: Hash, inv: Engine -> bool)
    requires Stable(c, inv) && WellFormed(c, s) && inv(s)
    requires key in s.items && s.items[key].state == CREATED
    requires s.current.Some? && (s.stack == [] ==> s.current == Some(key))
    requires s.stack != [] ==> key !in c.pool && Asks(c, Last(s.stack), key)
    ensures var r := Resolve(c, s, key); r.Done? ==> inv(r.s)
    decreases Fresh(s), Pending(s), 0, 0
  {
    EnteringShrinks(c, s, key);
    assert Enabled(c, s, EnterResolve(key));
    var s1 := Apply(c, s, EnterResolve(key));
    RunAllKeeps(c, s1, c.deps[key].resolve, inv);
    var r := RunAll(c, s1, c.deps[key].resolve);
    if r.Done? {
      ResolutionContinues(c, s, key, r.s);
      assert Enabled(c, r.s, LeaveResolve(key, s.current.value));
    }
  }

  lemma {:induction false} ComputeKeeps(c: Config, s: Engine, keys: seq<Hash>, inv: Engine -> bool)
    requires Stable(c, inv) && WellFormed(c, s) && s.stack == [] && s.current == None && inv(s)
    requires forall k :: k in keys ==> k in s.items
    ensures var r := ComputeFrom(c, s, keys); r.Done? ==> inv(r.s)
    decreases keys
  {
    if keys != [] {
      if s.items[keys[0]].condition {
        ComputeKeeps(c, s, keys[1..], inv);
      } else {
        CreateKeeps(c, s, keys[0], inv);
        var r := Create(c, s, keys[0]);
        if r.Done? {
          ComputeKeeps(c, r.s, keys[1..], inv);
        }
      }
    }
  }

  lemma ResolveNextKeeps(c: Config, s: Engine, key: Hash, inv: Engine -> bool)
    requires Stable(c, inv) && WellFormed(c, s) && s.stack == [] && inv(s)
    requires key in s.items && s.items[key].state != INVALID
    ensures var r := ResolveNext(c, s, key); r.Done? ==> inv(r.s)
  {
    assert Enabled(c, s, Select(key));
    var s1 := Apply(c, s, Select(key));
    if s1.items[key].state != RESOLVED {
      ResolveKeeps(c, s1, key, inv);
    }
  }

  lemma {:induction false} ResolvePassKeeps(c: Config, s: Engine, keys: seq<Hash>, inv: Engine -> bool)
    requires Stable(c, inv) && WellFormed(c, s) && s.stack == [] && inv(s)
    requires forall k :: k in keys ==> k in s.items && s.items[k].state != INVALID
    ensures var r := ResolveFrom(c, s, keys); r.Done? ==> inv(r.s)
    decreases keys
  {
    if keys != [] {
      ResolveNextKeeps(c, s, keys[0], inv);
      var r := ResolveNext(c, s, keys[0]);
      if r.Done? {
        ResolvePassKeeps(c, r.s, keys[1..], inv);
      }
    }
  }

  /** What every enabled step keeps holds at the end of every run that does not throw. */
  lemma RunKeeps(c: Config, order: seq<Hash>, inv: Engine -> bool)
    requires Lists(c, order) && Stable(c, inv) && inv(Initial(c))
    ensures Run(c, order).Done? ==> inv(Run(c, order).s)
  {
    ComputeKeeps(c, Initial(c), order, inv);
    var r := ComputeFrom(c, Initial(c), order);
    if r.Done? {
      assert Enabled(c, r.s, StartResolve);
      ResolvePassKeeps(c, Apply(c, r.s, StartResolve), order, inv);
    }
  }
}
