/**
 What an item holds as its validity before that is set is never read: states of the engine that
 differ in nothing else, and in the log, behave alike.
 */
module DependencyUnset {
  import opened Validity
  import opened Wrappers
  import opened DependencyEngine

  predicate SameWork(w: Work, v: Work) {
    v.(iov := w.iov) == w && (w.iovSet ==> v.iov == w.iov)
  }

  predicate Alike(s: Engine, t: Engine) {
    && t.current == s.current && t.mode == s.mode && t.numCallback == s.numCallback && t.stack == s.stack
    && t.items.Keys == s.items.Keys
    && forall k :: k in s.items ==> SameWork(s.items[k], t.items[k])
  }

  predicate AlikeEnds(r: Outcome, q: Outcome) {
    if r.Done? then q.Done? && Alike(r.s, q.s) else q.Thrown? && q.error == r.error
  }

  lemma WellFormedAlike(c: Config, s: Engine, t: Engine)
    requires WellFormed(c, s) && Alike(s, t)
    ensures WellFormed(c, t) && Fresh(t) == Fresh(s) && Pending(t) == Pending(s)
  {
  }

  lemma StepAlike(c: Config, s: Engine, t: Engine, m: Step)
    requires Ready(c, s, m) && Alike(s, t)
    requires m.Limit? && m.key !in c.pool ==> s.items[m.key].iovSet
    ensures Ready(c, t, m) && Alike(Apply(c, s, m), Apply(c, t, m))
  {
    ReadyAlike(c, s, t, m);
    match m
    case LeaveCreate(k, previous) => AfterCreateAlike(c, s, t, k, previous);
    case LeaveResolve(k, previous) => AfterResolveAlike(s, t, k, previous);
    case EnterCreate(_) =>
    case EnterResolve(_) =>
    case Select(_) =>
    case StartResolve =>
    case _ => ReadAlike(c, s, t, m);
  }

  lemma ReadyAlike(c: Config, s: Engine, t: Engine, m: Step)
    requires Ready(c, s, m) && Alike(s, t)
    ensures Ready(c, t, m)
  {
    WellFormedAlike(c, s, t);
  }

  lemma ReadAlike(c: Config, s: Engine, t: Engine, m: Step)
    requires Ready(c, s, m) && Ready(c, t, m) && Alike(s, t)
    requires m.FromPool? || m.FromResolved? || m.Limit? || m.Narrow? || m.LimitBulk?
    requires m.Limit? && m.key !in c.pool ==> s.items[m.key].iovSet
    ensures Alike(Apply(c, s, m), Apply(c, t, m))
  {
  }

  lemma AfterCreateAlike(c: Config, s: Engine, t: Engine, key: Hash, previous: Option<Hash>)
    requires Alike(s, t) && s.stack != [] && key in s.items && s.items[key].callstack > 0
    requires previous.Some? ==> previous.value in s.items
    ensures Alike(AfterCreate(c, s, key, previous), AfterCreate(c, t, key, previous))
  {
  }

  lemma AfterResolveAlike(s: Engine, t: Engine, key: Hash, previous: Hash)
    requires Alike(s, t) && s.stack != [] && key in s.items && previous in s.items && s.items[key].iovSet
    ensures Alike(AfterResolve(s, key, previous), AfterResolve(t, key, previous))
  {
  }

  lemma {:induction false} NarrowAllAlike(c: Config, s: Engine, t: Engine, found: seq<Iov>)
    requires WellFormed(c, s) && s.stack != [] && Alike(s, t) && WellFormed(c, t)
    ensures Alike(NarrowAll(c, s, found), NarrowAll(c, t, found))
    decreases found
  {
    if found != [] {
      StepAlike(c, s, t, Narrow(found[0]));
      NarrowAllAlike(c, Apply(c, s, Narrow(found[0])), Apply(c, t, Narrow(found[0])), found[1..]);
    }
  }

  lemma {:induction false} LimitAllAlike(c: Config, s: Engine, t: Engine, found: seq<Iov>)
    requires WellFormed(c, s) && s.stack != [] && Alike(s, t) && WellFormed(c, t)
    ensures Alike(LimitAll(c, s, found), LimitAll(c, t, found))
    decreases found
  {
    if found != [] {
      StepAlike(c, s, t, LimitBulk(found[0]));
      LimitAllAlike(c, Apply(c, s, LimitBulk(found[0])), Apply(c, t, LimitBulk(found[0])), found[1..]);
    }
  }

  lemma {:induction false} RunAllAlike(c: Config, s: Engine, t: Engine, accesses: seq<Access>)
    requires WellFormed(c, s) && s.stack != [] && Alike(s, t) && WellFormed(c, t)
    ensures AlikeEnds(RunAll(c, s, accesses), RunAll(c, t, accesses))
    decreases Fresh(s), Pending(s), |accesses|, 0
  {
    if accesses != [] {
      VisitAlike(c, s, t, accesses[0]);
      var r := Visit(c, s, accesses[0]);
      if r.Done? {
        assert Fresh(r.s) <= Fresh(s) && Pending(r.s) <= Pending(s);
        RunAllAlike(c, r.s, Visit(c, t, accesses[0]).s, accesses[1..]);
      }
    }
  }

  lemma {:induction false} VisitAlike(c: Config, s: Engine, t: Engine, a: Access)
    requires WellFormed(c, s) && s.stack != [] && Alike(s, t) && WellFormed(c, t)
    ensures AlikeEnds(Visit(c, s, a), Visit(c, t, a))
    decreases Fresh(s), Pending(s), 0, 2
  {
    match a
    case Bulk(found, limits) => BulkAlike(c, s, t, found, limits);
    case Single(key, limits, required) =>
      GetAlike(c, s, t, key, required);
      if limits {
        LimitedAlike(c, s, t, key, required);
      }
  }

  lemma BulkIs(c: Config, s: Engine, found: seq<Iov>, limits: bool)
    requires WellFormed(c, s) && s.stack != []
    ensures var s1 := NarrowAll(c, s, found);
            Visit(c, s, Bulk(found, limits)) ==
              if s.mode != RESOLVED then Thrown(s, BulkBeforeResolve)
              else Done(if limits then LimitAll(c, s1, found) else s1)
  {
  }

  lemma BulkAlike(c: Config, s: Engine, t: Engine, found: seq<Iov>, limits: bool)
    requires WellFormed(c, s) && s.stack != [] && Alike(s, t) && WellFormed(c, t)
    ensures AlikeEnds(Visit(c, s, Bulk(found, limits)), Visit(c, t, Bulk(found, limits)))
  {
    BulkIs(c, s, found, limits);
    BulkIs(c, t, found, limits);
    NarrowAllAlike(c, s, t, found);
    if limits {
      LimitAllAlike(c, NarrowAll(c, s, found), NarrowAll(c, t, found), found);
    }
  }

  lemma LimitedAlike(c: Config, s: Engine, t: Engine, key: Hash, required: bool)
    requires WellFormed(c, s) && s.stack != [] && Alike(s, t) && WellFormed(c, t)
    requires AlikeEnds(Get(c, s, key, required), Get(c, t, key, required))
    ensures AlikeEnds(Visit(c, s, Single(key, true, required)), Visit(c, t, Single(key, true, required)))
  {
    var r, q := Get(c, s, key, required), Get(c, t, key, required);
    if r.Done? && (key in c.pool || key in s.items) {
      assert Answered(c, r.s, s.current.value, Single(key, false, required), s.items[s.current.value].iovSet);
      StepAlike(c, r.s, q.s, Limit(key));
    }
  }

  lemma {:induction false} GetAlike(c: Config, s: Engine, t: Engine, key: Hash, required: bool)
    requires WellFormed(c, s) && s.stack != [] && Alike(s, t) && WellFormed(c, t)
    ensures AlikeEnds(Get(c, s, key, required), Get(c, t, key, required))
    decreases Fresh(s), Pending(s), 0, 1
  {
    if key in c.pool {
      StepAlike(c, s, t, FromPool(key));
    } else if key in s.items {
      if s.items[key].state == RESOLVED {
        StepAlike(c, s, t, FromResolved(key));
      } else if s.items[key].state == CREATED {
        ResolveAlike(c, s, t, key);
      } else {
        CreateAndResolveAlike(c, s, t, key);
      }
    }
  }

  lemma {:induction false} CreateAndResolveAlike(c: Config, s: Engine, t: Engine, key: Hash)
    requires WellFormed(c, s) && s.stack != [] && Alike(s, t) && WellFormed(c, t)
    requires key in s.items && s.items[key].state == INVALID
    ensures AlikeEnds(CreateAndResolve(c, s, key), CreateAndResolve(c, t, key))
    decreases Fresh(s), Pending(s), 0, 0, 1
  {
    CreateAlike(c, s, t, key);
    var r := Create(c, s, key);
    if r.Done? {
      assert key in Fresh(s) && key !in Fresh(r.s);
      assert Fresh(r.s) < Fresh(s);
      ResolveAlike(c, r.s, Create(c, t, key).s, key);
    }
  }

  lemma {:induction false} CreateAlike(c: Config, s: Engine, t: Engine, key: Hash)
    requires WellFormed(c, s) && Alike(s, t) && WellFormed(c, t)
    requires key in s.items && s.items[key].state == INVALID
    requires s.stack == [] ==> s.current == None
    ensures AlikeEnds(Create(c, s, key), Create(c, t, key))
    decreases Fresh(s), Pending(s), 0, 0, 0
  {
    if s.items[key].callstack == 0 {
      EnteringShrinks(c, s, key);
      StepAlike(c, s, t, EnterCreate(key));
      CreateUnfolds(c, s, key);
      CreateUnfolds(c, t, key);
      var s1, t1 := Apply(c, s, EnterCreate(key)), Apply(c, t, EnterCreate(key));
      RunAllAlike(c, s1, t1, c.deps[key].create);
      var r := RunAll(c, s1, c.deps[key].create);
      if r.Done? {
        StepAlike(c, r.s, RunAll(c, t1, c.deps[key].create).s, LeaveCreate(key, s.current));
      }
    }
  }

  lemma {:induction false} ResolveAlike(c: Config, s: Engine, t: Engine, key: Hash)
    requires WellFormed(c, s) && Alike(s, t) && WellFormed(c, t)
    requires key in s.items && s.items[key].state == CREATED
    requires s.current.Some? && (s.stack == [] ==> s.current == Some(key))
    ensures AlikeEnds(Resolve(c, s, key), Resolve(c, t, key))
    decreases Fresh(s), Pending(s), 0, 0, 0
  {
    StepAlike(c, s, t, EnterResolve(key));
    var s1, t1 := BeforeResolve(s, key), BeforeResolve(t, key);
    ResolveUnfolds(c, s, key);
    ResolveUnfolds(c, t, key);
    RunAllAlike(c, s1, t1, c.deps[key].resolve);
    var r, q := RunAll(c, s1, c.deps[key].resolve), RunAll(c, t1, c.deps[key].resolve);
    if r.Done? {
      AfterResolveAlike(r.s, q.s, key, s.current.value);
    }
  }
}
