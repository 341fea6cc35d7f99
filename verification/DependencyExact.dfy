/** What the validity of a derived condition comes out as, exactly: what narrows it, and nothing else. */
module DependencyExact {
  import opened Validity
  import opened Wrappers
  import opened DependencyEngine
  import opened DependencyRuns
  import opened DependencyInvariants
  import opened DependencyTheorems

  /** The reader has been narrowed. */
  predicate Narrows(e: Event) {
    e.ReadPool? || e.ReadBulk? || e.Passed? || e.ReadThrough? || e.Limited? || e.LimitedEarly?
  }

  /** Time `t` is covered by what the reader was narrowed with, as state `s` shows it. */
  predicate Bounds(c: Config, s: Engine, e: Event, t: int)
    requires Narrows(e)
  {
    if e.ReadBulk? then Covers(e.found.key, t)
    else if e.key in c.pool then Covers(c.pool[e.key].key, t)
    else e.key in s.items ==> Covers(s.items[e.key].iov.key, t)
  }

  ghost predicate Bounded(c: Config, s: Engine, k: Hash, t: int) {
    forall e :: e in s.log && Narrows(e) && e.reader == k ==> Bounds(c, s, e, t)
  }

  ghost predicate EventsSet(c: Config, s: Engine) {
    forall e :: e in s.log && Narrows(e) && !e.ReadBulk? && e.key !in c.pool ==>
      e.key in s.items && s.items[e.key].iovSet
  }

  /** A validity that is set covers all that its narrowings leave. */
  ghost predicate Lower(c: Config, s: Engine, t: int) {
    forall k :: k in s.items && s.items[k].iovSet && Bounded(c, s, k, t) ==> Covers(s.items[k].iov.key, t)
  }

  lemma EventsSetStep(c: Config, s: Engine, m: Step)
    requires Enabled(c, s, m) && EventsSet(c, s)
    ensures EventsSet(c, Apply(c, s, m))
  {
    var r := Apply(c, s, m);
    forall e | e in r.log && Narrows(e) && !e.ReadBulk? && e.key !in c.pool ensures e.key in r.items && r.items[e.key].iovSet {
      if e in s.log {
        SetStays(c, s, m, e.key);
      } else {
        NewlySet(c, s, m, e);
      }
    }
  }

  lemma SetStays(c: Config, s: Engine, m: Step, k: Hash)
    requires Ready(c, s, m) && k in s.items && s.items[k].iovSet
    ensures k in Apply(c, s, m).items && Apply(c, s, m).items[k].iovSet
  {
  }

  lemma NewlySet(c: Config, s: Engine, m: Step, e: Event)
    requires Enabled(c, s, m) && e in Apply(c, s, m).log && e !in s.log && Narrows(e) && !e.ReadBulk? && e.key !in c.pool
    ensures e.key in Apply(c, s, m).items && Apply(c, s, m).items[e.key].iovSet
  {
  }

  lemma BoundedBefore(c: Config, s: Engine, r: Engine, k: Hash, t: int)
    requires s.log <= r.log && Narrower(s, r) && EventsSet(c, s) && Bounded(c, r, k, t)
    ensures Bounded(c, s, k, t)
  {
    forall e | e in s.log && Narrows(e) && e.reader == k ensures Bounds(c, s, e, t) {
      assert Bounds(c, r, e, t);
    }
  }

  lemma LowerLeave(c: Config, s: Engine, m: Step, k: Hash, t: Stamp)
    requires Enabled(c, s, m) && StackOk(c, s) && AllTyped(s) && (m.LeaveCreate? || m.LeaveResolve?)
    requires k in s.items && (s.items[k].iovSet ==> Covers(s.items[k].iov.key, t))
    ensures var r := Apply(c, s, m); r.items[k].iovSet && Bounded(c, r, k, t) ==> Covers(r.items[k].iov.key, t)
  {
    var r := Apply(c, s, m);
    if |s.stack| > 1 {
      var g := Last(Front(s.stack));
      assert g in s.stack && g.key != Last(s.stack).key;
      assert (if m.LeaveCreate? then Passed(g.key, m.key) else ReadThrough(g.key, m.key)) in r.log;
    }
  }

  lemma LowerRead(c: Config, s: Engine, m: Step, k: Hash, t: Stamp)
    requires Enabled(c, s, m) && AllTyped(s) && !m.LeaveCreate? && !m.LeaveResolve?
    requires k in s.items && (s.items[k].iovSet ==> Covers(s.items[k].iov.key, t))
    requires m.LimitBulk? ==> Bounded(c, s, Last(s.stack).key, t) || k != Last(s.stack).key
    ensures var r := Apply(c, s, m); r.items[k].iovSet && Bounded(c, r, k, t) ==> Covers(r.items[k].iov.key, t)
  {
    var r := Apply(c, s, m);
    if r.items[k].iovSet && Bounded(c, r, k, t) && s.stack != [] && k == s.current.value {
      match m
      case FromPool(p) => assert ReadPool(k, p) in r.log;
      case Narrow(v) => assert ReadBulk(k, v) in r.log;
      case LimitBulk(v) => assert ReadBulk(k, v) in s.log && Bounds(c, s, ReadBulk(k, v), t);
      case Limit(x) => assert Limited(k, x) in r.log || LimitedEarly(k, x) in r.log;
      case _ =>
    }
  }

  lemma LowerStep(c: Config, s: Engine, m: Step, t: Stamp)
    requires Enabled(c, s, m) && StackOk(c, s) && AllTyped(s) && Typed(c) && EventsSet(c, s) && Lower(c, s, t)
    ensures Lower(c, Apply(c, s, m), t)
  {
    var r := Apply(c, s, m);
    NarrowStep(c, s, m);
    forall k | k in r.items && r.items[k].iovSet && Bounded(c, r, k, t) ensures Covers(r.items[k].iov.key, t) {
      BoundedBefore(c, s, r, k, t);
      if m.LeaveCreate? || m.LeaveResolve? {
        LowerLeave(c, s, m, k, t);
      } else {
        LowerRead(c, s, m, k, t);
      }
    }
  }

  ghost predicate Exactly(c: Config, s: Engine, t: int) {
    StackOk(c, s) && AllTyped(s) && EventsSet(c, s) && Lower(c, s, t)
  }

  lemma RunIsLower(c: Config, order: seq<Hash>, t: Stamp)
    requires Lists(c, order) && Typed(c)
    ensures Run(c, order).Done? ==> Lower(c, Run(c, order).s, t)
  {
    forall s, m | Enabled(c, s, m) && Exactly(c, s, t) ensures Exactly(c, Apply(c, s, m), t) {
      StackStep(c, s, m);
      TypeStep(c, s, m);
      EventsSetStep(c, s, m);
      LowerStep(c, s, m, t);
    }
    InitiallySound(c);
    assert EventsSet(c, Initial(c)) && Lower(c, Initial(c), t);
    RunKeeps(c, order, s => Exactly(c, s, t));
  }

  // What has been created for a reader is resolved for it.

  predicate Owes(s: Engine, reader: Hash, key: Hash) {
    Passed(reader, key) in s.log && ReadThrough(reader, key) !in s.log
  }

  /** Nothing is owed in `r` that was not owed in `s`. */
  ghost predicate OwesNoMore(s: Engine, r: Engine) {
    forall reader, key :: Owes(r, reader, key) ==> Owes(s, reader, key)
  }

  /** Nothing else but that `reader` owes `last`. */
  ghost predicate OwesLast(s: Engine, r: Engine, reader: Option<Hash>, last: Hash) {
    forall k: Hash, key: Hash :: Owes(r, k, key) ==> Owes(s, k, key) || (reader == Some(k) && key == last)
  }

  lemma OwesNothingNew(c: Config, s: Engine, m: Step)
    requires Ready(c, s, m) && !m.LeaveCreate?
    ensures OwesNoMore(s, Apply(c, s, m))
  {
  }

  lemma {:induction false} NarrowAllOwes(c: Config, s: Engine, found: seq<Iov>)
    requires WellFormed(c, s) && s.stack != []
    ensures OwesNoMore(s, NarrowAll(c, s, found))
    decreases found
  {
    if found != [] {
      OwesNothingNew(c, s, Narrow(found[0]));
      NarrowAllOwes(c, Apply(c, s, Narrow(found[0])), found[1..]);
    }
  }

  lemma {:induction false} LimitAllOwes(c: Config, s: Engine, found: seq<Iov>)
    requires WellFormed(c, s) && s.stack != []
    ensures OwesNoMore(s, LimitAll(c, s, found))
    decreases found
  {
    if found != [] {
      OwesNothingNew(c, s, LimitBulk(found[0]));
      LimitAllOwes(c, Apply(c, s, LimitBulk(found[0])), found[1..]);
    }
  }

  lemma {:induction false} RunAllOwes(c: Config, s: Engine, accesses: seq<Access>)
    requires WellFormed(c, s) && s.stack != []
    ensures var r := RunAll(c, s, accesses); r.Done? ==> OwesNoMore(s, r.s)
    decreases Fresh(s), Pending(s), |accesses|, 0
  {
    if accesses != [] {
      VisitOwes(c, s, accesses[0]);
      var r := Visit(c, s, accesses[0]);
      if r.Done? {
        assert Fresh(r.s) <= Fresh(s) && Pending(r.s) <= Pending(s);
        RunAllOwes(c, r.s, accesses[1..]);
      }
    }
  }

  lemma {:induction false} VisitOwes(c: Config, s: Engine, a: Access)
    requires WellFormed(c, s) && s.stack != []
    ensures var r := Visit(c, s, a); r.Done? ==> OwesNoMore(s, r.s)
    decreases Fresh(s), Pending(s), 0, 2
  {
    match a
    case Bulk(found, limits) =>
      NarrowAllOwes(c, s, found);
      if limits {
        LimitAllOwes(c, NarrowAll(c, s, found), found);
      }
    case Single(key, limits, required) =>
      GetOwes(c, s, key, required);
      var r := Get(c, s, key, required);
      if r.Done? && limits && (key in c.pool || key in s.items) {
        OwesNothingNew(c, r.s, Limit(key));
      }
  }

  lemma {:induction false} GetOwes(c: Config, s: Engine, key: Hash, required: bool)
    requires WellFormed(c, s) && s.stack != []
    ensures var r := Get(c, s, key, required); r.Done? ==> OwesNoMore(s, r.s)
    decreases Fresh(s), Pending(s), 0, 1
  {
    if key in c.pool {
      OwesNothingNew(c, s, FromPool(key));
    } else if key in s.items {
      if s.items[key].state == RESOLVED {
        OwesNothingNew(c, s, FromResolved(key));
      } else if s.items[key].state == CREATED {
        ResolveOwes(c, s, key);
      } else {
        CreateOwes(c, s, key);
        var r := Create(c, s, key);
        if r.Done? {
          assert key in Fresh(s) && key !in Fresh(r.s);
          assert Fresh(r.s) < Fresh(s);
          ResolveOwes(c, r.s, key);
        }
      }
    }
  }

  lemma {:induction false} CreateOwes(c: Config, s: Engine, key: Hash)
    requires WellFormed(c, s) && key in s.items && s.items[key].state == INVALID
    requires s.stack == [] ==> s.current == None
    ensures var r := Create(c, s, key); r.Done? ==> OwesLast(s, r.s, s.current, key)
    decreases Fresh(s), Pending(s), 0, 0
  {
    if s.items[key].callstack == 0 {
      CreateUnfolds(c, s, key);
      var s1 := Apply(c, s, EnterCreate(key));
      OwesNothingNew(c, s, EnterCreate(key));
      RunAllOwes(c, s1, c.deps[key].create);
    }
  }

  lemma {:induction false} ResolveOwes(c: Config, s: Engine, key: Hash)
    requires WellFormed(c, s) && key in s.items && s.items[key].state == CREATED
    requires s.current.Some? && (s.stack == [] ==> s.current == Some(key))
    ensures var r := Resolve(c, s, key); r.Done? ==> OwesNoMore(s, r.s)
    decreases Fresh(s), Pending(s), 0, 0
  {
    ResolveUnfolds(c, s, key);
    var s1 := BeforeResolve(s, key);
    OwesBefore(s, key);
    RunAllOwes(c, s1, c.deps[key].resolve);
    var r := RunAll(c, s1, c.deps[key].resolve);
    if r.Done? {
      OwesAfter(r.s, key, s.current.value);
    }
  }

  lemma OwesBefore(s: Engine, key: Hash)
    requires key in s.items
    ensures OwesNoMore(s, BeforeResolve(s, key))
  {
  }

  lemma OwesAfter(s: Engine, key: Hash, previous: Hash)
    requires key in s.items && previous in s.items && s.stack != []
    ensures OwesNoMore(s, AfterResolve(s, key, previous))
  {
  }

  lemma {:induction false} ComputeOwes(c: Config, s: Engine, keys: seq<Hash>)
    requires WellFormed(c, s) && s.stack == [] && s.current == None
    requires forall k :: k in keys ==> k in s.items
    ensures var r := ComputeFrom(c, s, keys); r.Done? ==> OwesNoMore(s, r.s)
    decreases keys
  {
    if keys != [] {
      if s.items[keys[0]].condition {
        ComputeOwes(c, s, keys[1..]);
      } else {
        CreateOwes(c, s, keys[0]);
        var r := Create(c, s, keys[0]);
        if r.Done? {
          ComputeOwes(c, r.s, keys[1..]);
        }
      }
    }
  }

  lemma {:induction false} ResolvePassOwes(c: Config, s: Engine, keys: seq<Hash>)
    requires WellFormed(c, s) && s.stack == []
    requires forall k :: k in keys ==> k in s.items && s.items[k].state != INVALID
    ensures var r := ResolveFrom(c, s, keys); r.Done? ==> OwesNoMore(s, r.s)
    decreases keys
  {
    if keys != [] {
      var s1 := Apply(c, s, Select(keys[0]));
      OwesNothingNew(c, s, Select(keys[0]));
      if s1.items[keys[0]].state != RESOLVED {
        ResolveOwes(c, s1, keys[0]);
      }
      var r := ResolveNext(c, s, keys[0]);
      if r.Done? {
        ResolvePassOwes(c, r.s, keys[1..]);
      }
    }
  }

  lemma RunOwesNothing(c: Config, order: seq<Hash>)
    requires Lists(c, order)
    ensures Run(c, order).Done? ==> forall reader, key :: !Owes(Run(c, order).s, reader, key)
  {
    ComputeOwes(c, Initial(c), order);
    var r := ComputeFrom(c, Initial(c), order);
    if r.Done? {
      OwesNothingNew(c, r.s, StartResolve);
      ResolvePassOwes(c, Apply(c, r.s, StartResolve), order);
    }
  }

  // Narrowings come from accesses.

  /** The reader has an access of that kind. */
  predicate AskedBy(c: Config, e: Event)
    requires Narrows(e)
  {
    && e.reader in c.deps
    && exists a :: a in c.deps[e.reader].create + c.deps[e.reader].resolve &&
                   if e.ReadBulk? then a.Bulk? && e.found in a.found
                   else a.Single? && a.key == e.key && (e.Limited? || e.LimitedEarly? ==> a.limits)
  }

  ghost predicate AllAsked(c: Config, s: Engine) {
    forall e :: e in s.log && Narrows(e) ==> AskedBy(c, e)
  }

  lemma AskedFrame(c: Config, f: Frame, a: Access)
    requires f.key in c.deps && a in Active(c, f)
    ensures a in c.deps[f.key].create + c.deps[f.key].resolve
  {
  }

  lemma AskedStep(c: Config, s: Engine, m: Step, e: Event)
    requires Enabled(c, s, m) && StackOk(c, s) && e in Apply(c, s, m).log && e !in s.log && Narrows(e)
    ensures AskedBy(c, e)
  {
    if m.LeaveCreate? || m.LeaveResolve? {
      AskedOnLeave(c, s, m, e);
    } else {
      AskedOnRead(c, s, m, e);
    }
  }

  lemma AskedOnLeave(c: Config, s: Engine, m: Step, e: Event)
    requires Enabled(c, s, m) && StackOk(c, s) && e in Apply(c, s, m).log && e !in s.log && Narrows(e)
    requires m.LeaveCreate? || m.LeaveResolve?
    ensures AskedBy(c, e)
  {
    var n := |s.stack|;
    assert n > 1 && Last(Front(s.stack)) == s.stack[n - 2];
    var f := s.stack[n - 2];
    assert Asks(c, f, s.stack[n - 1].key);
    var a :| a in Active(c, f) && a.Single? && a.key == m.key;
    AskedFrame(c, f, a);
  }

  lemma AskedOnRead(c: Config, s: Engine, m: Step, e: Event)
    requires Enabled(c, s, m) && e in Apply(c, s, m).log && e !in s.log && Narrows(e)
    requires !m.LeaveCreate? && !m.LeaveResolve?
    ensures AskedBy(c, e)
  {
    var f := Last(s.stack);
    var a :| a in Active(c, f) && if e.ReadBulk? then a.Bulk? && e.found in a.found
                                  else a.Single? && a.key == e.key && (e.Limited? || e.LimitedEarly? ==> a.limits);
    AskedFrame(c, f, a);
  }

  lemma RunAsks(c: Config, order: seq<Hash>)
    requires Lists(c, order)
    ensures Run(c, order).Done? ==> AllAsked(c, Run(c, order).s)
  {
    forall s, m | Enabled(c, s, m) && StackOk(c, s) && AllAsked(c, s)
      ensures StackOk(c, Apply(c, s, m)) && AllAsked(c, Apply(c, s, m))
    {
      StackStep(c, s, m);
      forall e | e in Apply(c, s, m).log && Narrows(e) ensures AskedBy(c, e) {
        if e !in s.log {
          AskedStep(c, s, m, e);
        }
      }
    }
    InitiallySound(c);
    RunKeeps(c, order, s => StackOk(c, s) && AllAsked(c, s));
  }

  // Without cycles no condition is found while its callback is in progress.

  ghost predicate NoneEarly(s: Engine) {
    forall e :: e in s.log ==> !e.LimitedEarly?
  }

  lemma NoneEarlyStep(c: Config, s: Engine, m: Step, rank: Hash -> nat, early: set<Hash>)
    requires WellFounded(c, rank, early) && Enabled(c, s, m) && StackOk(c, s) && NoneEarly(s)
    ensures NoneEarly(Apply(c, s, m))
  {
    if m.Limit? && m.key !in c.pool {
      ResolvedIsFinished(c, s, m.key, rank, early);
    }
    StillNoneEarly(c, s, m);
  }

  lemma StillNoneEarly(c: Config, s: Engine, m: Step)
    requires Enabled(c, s, m) && NoneEarly(s) && (m.Limit? && m.key !in c.pool ==> Finished(s, m.key))
    ensures NoneEarly(Apply(c, s, m))
  {
  }

  lemma RunNoneEarly(c: Config, order: seq<Hash>, rank: Hash -> nat, early: set<Hash>)
    requires Lists(c, order) && WellFounded(c, rank, early)
    ensures Run(c, order).Done? ==> NoneEarly(Run(c, order).s)
  {
    forall s, m | Enabled(c, s, m) && StackOk(c, s) && NoneEarly(s)
      ensures StackOk(c, Apply(c, s, m)) && NoneEarly(Apply(c, s, m))
    {
      StackStep(c, s, m);
      NoneEarlyStep(c, s, m, rank, early);
    }
    InitiallySound(c);
    RunKeeps(c, order, s => StackOk(c, s) && NoneEarly(s));
  }

  // Main results.

  function ValidityIn(s: Engine, k: Hash): Key {
    if k in s.items then s.items[k].iov.key else FOREVER
  }

  /** The point of time is covered by all that item `k` has read in a way that narrows, as `s` shows it. */
  ghost predicate ReadsCover(c: Config, s: Engine, k: Hash, t: int) {
    && (forall p :: ReadPool(k, p) in s.log && p in c.pool ==> Covers(c.pool[p].key, t))
    && (forall v :: ReadBulk(k, v) in s.log ==> Covers(v.key, t))
    && (forall x :: ReadThrough(k, x) in s.log ==> Covers(ValidityIn(s, x), t))
    && (forall x :: Limited(k, x) in s.log ==> Covers(if x in c.pool then c.pool[x].key else ValidityIn(s, x), t))
  }

  ghost predicate EarlyReadsCover(s: Engine, k: Hash, t: int) {
    forall x :: LimitedEarly(k, x) in s.log ==> Covers(ValidityIn(s, x), t)
  }

  lemma ReadBounds(c: Config, s: Engine, k: Hash, t: int, e: Event)
    requires ReadsCover(c, s, k, t) && EarlyReadsCover(s, k, t) && Contained(c, s)
    requires forall reader, key :: !Owes(s, reader, key)
    requires forall x :: LimitedEarly(k, x) in s.log || ReadThrough(k, x) in s.log ==> x !in c.pool
    requires e in s.log && Narrows(e) && e.reader == k
    ensures Bounds(c, s, e, t)
  {
    match e
    case Passed(_, x) => assert !Owes(s, k, x) && ReadThrough(k, x) in s.log;
    case ReadPool(_, p) => assert ContainedAt(c, s, e);
    case _ =>
  }

  ghost predicate NotFromPool(c: Config, s: Engine) {
    forall k, x :: LimitedEarly(k, x) in s.log || ReadThrough(k, x) in s.log ==> x !in c.pool
  }

  lemma NotFromPoolStep(c: Config, s: Engine, m: Step)
    requires Enabled(c, s, m) && StackOk(c, s) && NotFromPool(c, s)
    ensures NotFromPool(c, Apply(c, s, m))
  {
    var n := |s.stack|;
    assert n > 1 ==> s.stack[n - 1].key !in c.pool;
  }

  lemma RunNotFromPool(c: Config, order: seq<Hash>)
    requires Lists(c, order)
    ensures Run(c, order).Done? ==> NotFromPool(c, Run(c, order).s)
  {
    forall s, m | Enabled(c, s, m) && StackOk(c, s) && NotFromPool(c, s)
      ensures StackOk(c, Apply(c, s, m)) && NotFromPool(c, Apply(c, s, m))
    {
      StackStep(c, s, m);
      NotFromPoolStep(c, s, m);
    }
    InitiallySound(c);
    RunKeeps(c, order, s => StackOk(c, s) && NotFromPool(c, s));
  }

  lemma AllBounded(c: Config, s: Engine, k: Hash, t: int)
    requires ReadsCover(c, s, k, t) && EarlyReadsCover(s, k, t) && Contained(c, s) && NotFromPool(c, s)
    requires forall reader, key :: !Owes(s, reader, key)
    ensures Bounded(c, s, k, t)
  {
    forall e | e in s.log && Narrows(e) && e.reader == k ensures Bounds(c, s, e, t) {
      ReadBounds(c, s, k, t, e);
    }
  }

  lemma ReadsContain(c: Config, s: Engine, k: Hash, t: int)
    requires Contained(c, s) && k in s.items && Covers(s.items[k].iov.key, t)
    ensures ReadsCover(c, s, k, t)
  {
    forall p | ReadPool(k, p) in s.log && p in c.pool ensures Covers(c.pool[p].key, t) {
      assert ContainedAt(c, s, ReadPool(k, p));
    }
    forall v | ReadBulk(k, v) in s.log ensures Covers(v.key, t) {
      assert ContainedAt(c, s, ReadBulk(k, v));
    }
    forall x | ReadThrough(k, x) in s.log ensures Covers(ValidityIn(s, x), t) {
      assert ContainedAt(c, s, ReadThrough(k, x));
    }
    forall x | Limited(k, x) in s.log ensures Covers(if x in c.pool then c.pool[x].key else ValidityIn(s, x), t) {
      assert ContainedAt(c, s, Limited(k, x));
    }
  }

  /**
   In any run, a final validity covers what is covered by all that its item has read from the pool,
   has found `INVALID` or `CREATED`, or has read through the context; every such read comes from an
   access of that kind.
   */
  lemma OnlyReadsNarrow(c: Config, order: seq<Hash>, k: Hash, t: Stamp)
    requires Lists(c, order) && Typed(c) && k in c.deps && Run(c, order).Done?
    requires ReadsCover(c, Run(c, order).s, k, t) && EarlyReadsCover(Run(c, order).s, k, t)
    ensures Covers(Final(c, order, k), t) && AllAsked(c, Run(c, order).s)
  {
    RunIsLower(c, order, t);
    RunOwesNothing(c, order);
    RunNotFromPool(c, order);
    RunAsks(c, order);
    RunValidities(c, order);
    AllBounded(c, Run(c, order).s, k, t);
  }

  /**
   Without cycles, the final validity of an item is exactly the common part of the final validities
   of all that it has read from the pool, has found `INVALID` or `CREATED`, or has read through the
   context with its own validity set; without any such read it is unlimited.
   */
  lemma ValidityIsExact(c: Config, order: seq<Hash>, k: Hash, t: Stamp, rank: Hash -> nat, early: set<Hash>)
    requires Lists(c, order) && Typed(c) && WellFounded(c, rank, early) && k in c.deps
    ensures Run(c, order).Done? && AllAsked(c, Run(c, order).s)
    ensures Covers(Final(c, order, k), t) <==> ReadsCover(c, Run(c, order).s, k, t)
  {
    AcyclicRunCompletes(c, order, rank, early);
    RunNoneEarly(c, order, rank, early);
    RunValidities(c, order);
    RunAsks(c, order);
    if ReadsCover(c, Run(c, order).s, k, t) {
      OnlyReadsNarrow(c, order, k, t);
    }
    if Covers(Final(c, order, k), t) {
      ReadsContain(c, Run(c, order).s, k, t);
    }
  }
}
