/** What each enabled step of the engine keeps. */
module DependencyInvariants {
  import opened Validity
  import opened Wrappers
  import opened DependencyEngine
  import opened DependencyRuns

  // The three kinds of steps: a callback starts, a callback returns, and all others.

  predicate Entered(s: Engine, r: Engine, f: Frame) {
    && f.key in s.items && r.items.Keys == s.items.Keys
    && r.stack == s.stack + [f] && r.numCallback == s.numCallback
    && r.log == s.log + [if f.Creating? then CreateBegin(f.key) else ResolveBegin(f.key)]
    && (forall k :: k in s.items && k != f.key ==> r.items[k] == s.items[k])
    && (var w, v := s.items[f.key], r.items[f.key];
        && v.iov == w.iov && v.iovSet == w.iovSet
        && (if f.Creating? then w.state == INVALID && w.callstack == 0 && v.state == INVALID && v.callstack == 1
            else w.state == CREATED && v.state == RESOLVED && v.callstack == w.callstack))
  }

  predicate Left(s: Engine, r: Engine, f: Frame) {
    && s.stack != [] && f == Last(s.stack) && f.key in s.items && r.items.Keys == s.items.Keys
    && r.stack == Front(s.stack)
    && r.numCallback == s.numCallback + (if f.Creating? then 1 else 0)
    && r.log == s.log + [if f.Creating? then CreateEnd(f.key) else ResolveEnd(f.key)] +
                (if r.stack == [] then []
                 else [if f.Creating? then Passed(Last(r.stack).key, f.key) else ReadThrough(Last(r.stack).key, f.key)])
    && (forall k :: k in s.items && k != f.key ==>
          r.items[k].state == s.items[k].state && r.items[k].callstack == s.items[k].callstack)
    && (forall k :: k in s.items && k != f.key && (r.stack == [] || k != Last(r.stack).key) ==>
          r.items[k] == s.items[k])
    && (f.Creating? ==> r.items[f.key].state == CREATED && r.items[f.key].callstack == s.items[f.key].callstack - 1)
    && (f.Resolving? ==> r.items[f.key].state == RESOLVED && r.items[f.key].callstack == s.items[f.key].callstack
                         && s.items[f.key].state == RESOLVED)
  }

  predicate Stayed(s: Engine, r: Engine) {
    && r.stack == s.stack && r.numCallback == s.numCallback && r.items.Keys == s.items.Keys
    && (r.log == s.log || (r.log != [] && r.log == s.log + [Last(r.log)] && Reading(Last(r.log))))
    && (forall k :: k in s.items ==>
          r.items[k].state == s.items[k].state && r.items[k].callstack == s.items[k].callstack)
    && (forall k :: k in s.items && (s.stack == [] || k != Last(s.stack).key) ==> r.items[k] == s.items[k])
  }

  predicate Reading(e: Event) {
    e.ReadPool? || e.ReadBulk? || e.ReadResolved? || e.ReadUnset? || e.ReadUnfinished? || e.Limited? || e.LimitedEarly?
  }

  ghost predicate Moved(s: Engine, r: Engine) {
    || (exists f :: Entered(s, r, f))
    || (exists f :: Left(s, r, f))
    || Stayed(s, r)
  }

  lemma Effect(c: Config, s: Engine, m: Step)
    requires Enabled(c, s, m) && StackOk(c, s)
    ensures Moved(s, Apply(c, s, m))
  {
    match m
    case EnterCreate(k) => EffectEnter(c, s, m, Creating(k));
    case EnterResolve(k) => EffectEnter(c, s, m, Resolving(k));
    case LeaveCreate(k, _) => EffectLeaveCreate(c, s, m);
    case LeaveResolve(k, _) => EffectLeaveResolve(c, s, m);
    case _ => EffectStay(c, s, m);
  }

  lemma EffectEnter(c: Config, s: Engine, m: Step, f: Frame)
    requires Ready(c, s, m) && m == (if f.Creating? then EnterCreate(f.key) else EnterResolve(f.key))
    ensures Entered(s, Apply(c, s, m), f)
  {
  }

  lemma EffectLeaveCreate(c: Config, s: Engine, m: Step)
    requires Ready(c, s, m) && Guarded(s) && m.LeaveCreate?
    ensures Left(s, Apply(c, s, m), Creating(m.key))
  {
    if |s.stack| > 1 {
      assert s.stack[|s.stack| - 2].key != s.stack[|s.stack| - 1].key;
    }
  }

  lemma EffectLeaveResolve(c: Config, s: Engine, m: Step)
    requires Ready(c, s, m) && Guarded(s) && m.LeaveResolve?
    ensures Left(s, Apply(c, s, m), Resolving(m.key))
  {
    if |s.stack| > 1 {
      assert s.stack[|s.stack| - 2].key != s.stack[|s.stack| - 1].key;
    }
  }

  lemma EffectStay(c: Config, s: Engine, m: Step)
    requires Ready(c, s, m)
    requires !m.EnterCreate? && !m.LeaveCreate? && !m.EnterResolve? && !m.LeaveResolve?
    ensures Stayed(s, Apply(c, s, m))
  {
  }

  /** The recursion guard, the states and the callbacks in progress agree; every callback in
      progress was started by an access of the one below it. */
  ghost predicate StackOk(c: Config, s: Engine) {
    && Guarded(s)
    && Chained(c, s.stack)
  }

  ghost predicate Chained(c: Config, stack: seq<Frame>) {
    forall i :: 0 < i < |stack| ==> stack[i].key !in c.pool && Asks(c, stack[i - 1], stack[i].key)
  }

  ghost predicate Guarded(s: Engine) {
    && (forall i, j :: 0 <= i < j < |s.stack| ==> s.stack[i].key != s.stack[j].key)
    && (forall k :: k in s.items ==>
          && s.items[k].callstack == (if Creating(k) in s.stack then 1 else 0)
          && (Creating(k) in s.stack ==> s.items[k].state == INVALID)
          && (Resolving(k) in s.stack ==> s.items[k].state == RESOLVED))
  }

  lemma StackStep(c: Config, s: Engine, m: Step)
    requires Enabled(c, s, m) && StackOk(c, s)
    ensures StackOk(c, Apply(c, s, m))
  {
    Effect(c, s, m);
    GuardStep(s, Apply(c, s, m));
    ChainStep(c, s, m);
  }

  lemma ChainStep(c: Config, s: Engine, m: Step)
    requires Enabled(c, s, m) && Chained(c, s.stack)
    ensures Chained(c, Apply(c, s, m).stack)
  {
  }

  lemma GuardStep(s: Engine, r: Engine)
    requires Guarded(s) && Moved(s, r)
    ensures Guarded(r)
  {
    if f :| Entered(s, r, f) {
      GuardEnter(s, r, f);
    } else if f :| Left(s, r, f) {
      GuardLeave(s, r, f);
    }
  }

  lemma GuardEnter(s: Engine, r: Engine, f: Frame)
    requires Guarded(s) && Entered(s, r, f)
    ensures Guarded(r)
  {
    assert Creating(f.key) !in s.stack && Resolving(f.key) !in s.stack;
    forall i | 0 <= i < |s.stack| ensures s.stack[i].key != f.key {
      assert s.stack[i] in s.stack;
    }
  }

  lemma GuardLeave(s: Engine, r: Engine, f: Frame)
    requires Guarded(s) && Left(s, r, f)
    ensures Guarded(r)
  {
    Popped(s);
  }

  lemma Popped(s: Engine)
    requires s.stack != [] && Guarded(s)
    ensures forall f :: f in s.stack <==> f in Front(s.stack) || f == Last(s.stack)
    ensures forall f :: f in Front(s.stack) ==> f.key != Last(s.stack).key
  {
  }

  /** How often each callback has begun and ended. */
  ghost predicate Counted(s: Engine) {
    && (forall k :: k in s.items ==> CountedAt(s, k))
    && s.numCallback == |Made(s)|
  }

  ghost predicate CountedAt(s: Engine, k: Hash)
    requires k in s.items
  {
    var w, n := s.items[k], multiset(s.log);
    && n[CreateBegin(k)] == (if w.state == INVALID && w.callstack == 0 then 0 else 1)
    && n[CreateEnd(k)] == (if w.state == INVALID then 0 else 1)
    && n[ResolveBegin(k)] == (if w.state == RESOLVED then 1 else 0)
    && n[ResolveEnd(k)] == (if Finished(s, k) then 1 else 0)
  }

  function Made(s: Engine): set<Hash> {
    set k | k in s.items && s.items[k].state != INVALID
  }

  lemma CountStep(s: Engine, r: Engine)
    requires Guarded(s) && Counted(s) && Moved(s, r)
    ensures Counted(r)
  {
    if f :| Entered(s, r, f) {
      CountEnter(s, r, f);
    } else if f :| Left(s, r, f) {
      CountLeave(s, r, f);
    } else {
      CountStay(s, r);
    }
  }

  lemma CountEnter(s: Engine, r: Engine, f: Frame)
    requires Guarded(s) && Counted(s) && Entered(s, r, f)
    ensures Counted(r)
  {
    forall k | k in s.items ensures CountedAt(r, k) {
      assert CountedAt(s, k);
    }
    assert Made(r) == Made(s);
  }

  lemma CountLeave(s: Engine, r: Engine, f: Frame)
    requires Guarded(s) && Counted(s) && Left(s, r, f)
    ensures Counted(r)
  {
    forall k | k in r.items ensures CountedAt(r, k) {
      CountLeaveAt(s, r, f, k);
    }
    MadeLeave(s, r, f);
  }

  lemma MadeLeave(s: Engine, r: Engine, f: Frame)
    requires Guarded(s) && Left(s, r, f)
    ensures |Made(r)| == |Made(s)| + (if f.Creating? then 1 else 0)
  {
    assert f in s.stack;
    if f.Creating? {
      assert Made(r) == Made(s) + {f.key};
    } else {
      assert Made(r) == Made(s);
    }
  }

  lemma CountLeaveAt(s: Engine, r: Engine, f: Frame, k: Hash)
    requires Guarded(s) && Left(s, r, f) && k in s.items && CountedAt(s, k)
    ensures CountedAt(r, k)
  {
    Popped(s);
    LeaveLog(s, r, f, CreateBegin(k));
    LeaveLog(s, r, f, CreateEnd(k));
    LeaveLog(s, r, f, ResolveBegin(k));
    LeaveLog(s, r, f, ResolveEnd(k));
    assert k != f.key ==> (Finished(r, k) <==> Finished(s, k));
  }

  lemma LeaveLog(s: Engine, r: Engine, f: Frame, x: Event)
    requires Left(s, r, f) && !x.ReadThrough? && !x.Passed?
    ensures multiset(r.log)[x] ==
      multiset(s.log)[x] + (if x == (if f.Creating? then CreateEnd(f.key) else ResolveEnd(f.key)) then 1 else 0)
  {
  }

  lemma CountStay(s: Engine, r: Engine)
    requires Counted(s) && Stayed(s, r)
    ensures Counted(r)
  {
    forall k | k in s.items ensures CountedAt(r, k) {
      assert CountedAt(s, k);
    }
    assert Made(r) == Made(s);
  }

  /** A creation that has ended ended after every creation it asked for. */
  ghost predicate Ordered(c: Config, log: seq<Event>) {
    forall i, k, a :: 0 <= i < |log| && log[i] == CreateEnd(k) && k in c.deps && a in c.deps[k].create && Derived(c, a) ==>
      CreateEnd(a.key) in log[..i]
  }

  predicate Derived(c: Config, a: Access) {
    a.Single? && a.key !in c.pool && a.key in c.deps
  }

  lemma OrderStep(c: Config, s: Engine, m: Step)
    requires Enabled(c, s, m) && StackOk(c, s) && Counted(s) && Ordered(c, s.log)
    ensures Ordered(c, Apply(c, s, m).log)
  {
    if m.LeaveCreate? {
      forall a | a in c.deps[m.key].create && Derived(c, a) ensures CreateEnd(a.key) in s.log {
        assert Answered(c, s, m.key, a, false);
        assert CountedAt(s, a.key);
      }
      OrderAppend(c, s.log, EndEvents(m.key, m.previous));
    } else {
      var more := NoCreateEnd(c, s, m);
      OrderAppend(c, s.log, more);
    }
  }

  lemma NoCreateEnd(c: Config, s: Engine, m: Step) returns (more: seq<Event>)
    requires Ready(c, s, m) && !m.LeaveCreate?
    ensures Apply(c, s, m).log == s.log + more && forall e :: e in more ==> !e.CreateEnd?
  {
    more := Apply(c, s, m).log[|s.log|..];
  }

  lemma OrderAppend(c: Config, log: seq<Event>, more: seq<Event>)
    requires Ordered(c, log)
    requires forall k, a :: CreateEnd(k) in more && k in c.deps && a in c.deps[k].create && Derived(c, a) ==>
      CreateEnd(a.key) in log
    ensures Ordered(c, log + more)
  {
    var all := log + more;
    forall i, k, a | 0 <= i < |all| && all[i] == CreateEnd(k) && k in c.deps && a in c.deps[k].create && Derived(c, a)
      ensures CreateEnd(a.key) in all[..i]
    {
      if i < |log| {
        assert all[..i] == log[..i];
      } else {
        assert all[i] == more[i - |log|];
        assert all[..i] == log + more[..i - |log|];
      }
    }
  }

  /** Every access of a callback that has returned has been served. */
  ghost predicate Served(c: Config, s: Engine) {
    && s.items.Keys == c.deps.Keys
    && (forall k :: k in s.items && s.items[k].state != INVALID ==> c.deps[k].succeeds && CreationAnswered(c, s, k))
    && (forall k :: Finished(s, k) ==> ResolutionAnswered(c, s, k))
  }

  lemma ServeStep(c: Config, s: Engine, m: Step)
    requires Enabled(c, s, m) && StackOk(c, s) && Served(c, s)
    ensures Served(c, Apply(c, s, m))
  {
    Effect(c, s, m);
    var r := Apply(c, s, m);
    match m
    case LeaveCreate(k, _) => ServeLeave(c, s, r, Creating(k));
    case LeaveResolve(k, _) => ServeLeave(c, s, r, Resolving(k));
    case EnterCreate(k) => ServeOther(c, s, r);
    case EnterResolve(k) => ServeOther(c, s, r);
    case _ => ServeOther(c, s, r);
  }

  lemma StillAnswered(c: Config, s: Engine, r: Engine, reader: Hash)
    requires reader in c.deps && s.log <= r.log && r.items.Keys == s.items.Keys && (s.mode == RESOLVED ==> r.mode == RESOLVED)
    requires forall k :: k in s.items && s.items[k].state == RESOLVED ==> r.items[k].state == RESOLVED
    ensures CreationAnswered(c, s, reader) ==> CreationAnswered(c, r, reader)
    ensures ResolutionAnswered(c, s, reader) ==> ResolutionAnswered(c, r, reader)
  {
    assert forall a, isSet :: Answered(c, s, reader, a, isSet) ==> Answered(c, r, reader, a, isSet);
  }

  lemma ServeLeave(c: Config, s: Engine, r: Engine, f: Frame)
    requires Guarded(s) && Served(c, s) && Left(s, r, f) && r.mode == s.mode
    requires if f.Creating? then c.deps[f.key].succeeds && CreationAnswered(c, s, f.key) else ResolutionAnswered(c, s, f.key)
    ensures Served(c, r)
  {
    Popped(s);
    forall k | k in r.items && r.items[k].state != INVALID ensures c.deps[k].succeeds && CreationAnswered(c, r, k) {
      StillAnswered(c, s, r, k);
    }
    forall k | Finished(r, k) ensures ResolutionAnswered(c, r, k) {
      StillAnswered(c, s, r, k);
    }
  }

  lemma ServeOther(c: Config, s: Engine, r: Engine)
    requires Guarded(s) && Served(c, s) && (s.mode == RESOLVED ==> r.mode == RESOLVED)
    requires Stayed(s, r) || exists f :: Entered(s, r, f)
    ensures Served(c, r)
  {
    forall k | k in r.items && r.items[k].state != INVALID ensures c.deps[k].succeeds && CreationAnswered(c, r, k) {
      StillAnswered(c, s, r, k);
    }
    forall k | Finished(r, k) ensures ResolutionAnswered(c, r, k) {
      assert Finished(s, k);
      StillAnswered(c, s, r, k);
    }
  }

  // Validities.

  predicate Typed(c: Config) {
    && c.validity.typed
    && (forall k :: k in c.pool ==> c.pool[k].typed)
    && (forall k :: k in c.deps ==> forall a :: a in c.deps[k].create + c.deps[k].resolve ==>
          a.Bulk? ==> forall v :: v in a.found ==> v.typed)
  }

  ghost predicate AllTyped(s: Engine) {
    forall k :: k in s.items ==> s.items[k].iov.typed
  }

  lemma TypeStep(c: Config, s: Engine, m: Step)
    requires Typed(c) && Enabled(c, s, m) && AllTyped(s)
    ensures AllTyped(Apply(c, s, m))
  {
  }

  predicate Inside(s: Engine, reader: Hash, v: Iov) {
    reader in s.items && s.items[reader].iovSet && Within(s.items[reader].iov.key, v.key)
  }

  /** The validity of a finished item is fixed: `s0` comes before `r`. */
  ghost predicate Fixed(s0: Engine, r: Engine) {
    forall k :: Finished(s0, k) ==> Finished(r, k) && r.items[k].iov == s0.items[k].iov
  }

  lemma FixStep(c: Config, s: Engine, m: Step)
    requires Enabled(c, s, m) && StackOk(c, s)
    ensures Fixed(s, Apply(c, s, m))
  {
    forall k | Finished(s, k) ensures Finished(Apply(c, s, m), k) && Apply(c, s, m).items[k].iov == s.items[k].iov {
      FixedAt(c, s, m, k);
    }
  }

  lemma FixedAt(c: Config, s: Engine, m: Step, k: Hash)
    requires Enabled(c, s, m) && StackOk(c, s) && Finished(s, k)
    ensures Finished(Apply(c, s, m), k) && Apply(c, s, m).items[k].iov == s.items[k].iov
  {
    Effect(c, s, m);
    NotLast(s, k);
    FixedByMoving(s, Apply(c, s, m), k);
  }

  lemma NotLast(s: Engine, k: Hash)
    requires Guarded(s) && Finished(s, k)
    ensures s.stack != [] ==> Last(s.stack).key != k
  {
  }

  lemma FixedByMoving(s: Engine, r: Engine, k: Hash)
    requires Guarded(s) && Finished(s, k) && Moved(s, r) && (s.stack != [] ==> Last(s.stack).key != k)
    ensures Finished(r, k) && r.items[k].iov == s.items[k].iov
  {
    if f :| Left(s, r, f) {
      FixedByLeaving(s, r, f, k);
    } else if f :| Entered(s, r, f) {
      assert f.key != k;
    }
  }

  lemma FixedByLeaving(s: Engine, r: Engine, f: Frame, k: Hash)
    requires Guarded(s) && Finished(s, k) && Left(s, r, f) && f.key != k
    ensures Finished(r, k) && r.items[k].iov == s.items[k].iov
  {
    if |s.stack| > 1 {
      assert Last(Front(s.stack)) in s.stack;
      assert Last(Front(s.stack)).key != k;
    }
    assert forall g :: g in r.stack ==> g in s.stack;
  }

  /** `r` comes after `s0`: a validity once set only shrinks, and a finished one stays. */
  ghost predicate Narrower(s0: Engine, r: Engine) {
    && r.items.Keys == s0.items.Keys
    && Fixed(s0, r)
    && (forall k :: k in s0.items && s0.items[k].iovSet ==> Inside(r, k, s0.items[k].iov))
  }

  lemma NarrowStep(c: Config, s: Engine, m: Step)
    requires Enabled(c, s, m) && StackOk(c, s) && AllTyped(s) && Typed(c)
    ensures Narrower(s, Apply(c, s, m))
  {
    FixStep(c, s, m);
    Shrinks(c, s, m);
  }

  lemma Shrinks(c: Config, s: Engine, m: Step)
    requires Enabled(c, s, m) && AllTyped(s)
    ensures forall k :: k in s.items && s.items[k].iovSet ==> Inside(Apply(c, s, m), k, s.items[k].iov)
  {
  }

  lemma NarrowerIsTransitive(s: Engine, t: Engine, r: Engine)
    requires Narrower(s, t) && Narrower(t, r)
    ensures Narrower(s, r)
  {
  }

  /** What a reader has been narrowed with contains its validity. */
  ghost predicate Contained(c: Config, s: Engine) {
    forall e :: e in s.log ==> ContainedAt(c, s, e)
  }

  predicate ContainedAt(c: Config, s: Engine, e: Event) {
    && (e.ReadPool? ==> e.key in c.pool && Inside(s, e.reader, c.pool[e.key]))
    && (e.ReadBulk? ==> Inside(s, e.reader, e.found))
    && (e.Limited? && e.key in c.pool ==> Inside(s, e.reader, c.pool[e.key]))
    && (e.ReadThrough? || (e.Limited? && e.key !in c.pool) ==>
          Finished(s, e.key) && Inside(s, e.reader, s.items[e.key].iov))
  }

  lemma ContainStep(c: Config, s: Engine, m: Step)
    requires Enabled(c, s, m) && StackOk(c, s) && AllTyped(s) && Typed(c) && Contained(c, s)
    ensures Contained(c, Apply(c, s, m))
  {
    var r := Apply(c, s, m);
    NarrowStep(c, s, m);
    Effect(c, s, m);
    forall e | e in r.log ensures ContainedAt(c, r, e) {
      if e in s.log {
        StillContained(c, s, r, e);
      } else {
        NewlyContained(c, s, m, e);
      }
    }
  }

  lemma StillContained(c: Config, s: Engine, r: Engine, e: Event)
    requires ContainedAt(c, s, e) && Narrower(s, r)
    ensures ContainedAt(c, r, e)
  {
  }

  lemma NewlyContained(c: Config, s: Engine, m: Step, e: Event)
    requires Enabled(c, s, m) && StackOk(c, s) && AllTyped(s) && Typed(c)
    requires e in Apply(c, s, m).log && e !in s.log
    ensures ContainedAt(c, Apply(c, s, m), e)
  {
    if m.LeaveResolve? {
      LeaveContained(c, s, m, e);
    } else {
      ReadContained(c, s, m, e);
    }
  }

  lemma LeaveContained(c: Config, s: Engine, m: Step, e: Event)
    requires Enabled(c, s, m) && StackOk(c, s) && AllTyped(s) && m.LeaveResolve?
    requires e in Apply(c, s, m).log && e !in s.log
    ensures ContainedAt(c, Apply(c, s, m), e)
  {
    Popped(s);
    if |s.stack| > 1 {
      assert Last(Front(s.stack)) in Front(s.stack);
    }
  }

  lemma ReadContained(c: Config, s: Engine, m: Step, e: Event)
    requires Enabled(c, s, m) && StackOk(c, s) && AllTyped(s) && Typed(c) && !m.LeaveResolve?
    requires e in Apply(c, s, m).log && e !in s.log
    ensures ContainedAt(c, Apply(c, s, m), e)
  {
    match m
    case FromPool(k) => NowInside(s.items[s.current.value], c.pool[k]);
    case Narrow(v) => NowInside(s.items[s.current.value], v);
    case Limit(k) => LimitContained(c, s, k);
    case _ =>
  }

  lemma NowInside(w: Work, v: Iov)
    requires w.iovSet ==> w.iov.typed
    ensures DoIntersection(w, v).iovSet && Within(DoIntersection(w, v).iov.key, v.key)
  {
  }

  lemma LimitContained(c: Config, s: Engine, k: Hash)
    requires Ready(c, s, Limit(k)) && AllTyped(s)
    ensures var r, reader := Apply(c, s, Limit(k)), s.current.value;
            Settled(c, s, reader, k) ==>
              && Inside(r, reader, if k in c.pool then c.pool[k] else r.items[k].iov)
              && (k !in c.pool ==> Finished(r, k))
  {
  }

  /** Point `t` of time is inside every validity of the pool that the items of `keys` access, and their accesses
      through the context lead to `keys` only. */
  predicate Spanned(c: Config, keys: set<Hash>, t: int) {
    && MIN_KEY <= t <= MAX_KEY
    && forall k :: k in keys && k in c.deps ==>
         && (forall a :: a in c.deps[k].create ==> SpannedBy(c, keys, t, a))
         && (forall a :: a in c.deps[k].resolve ==> SpannedBy(c, keys, t, a))
  }

  predicate SpannedBy(c: Config, keys: set<Hash>, t: int, a: Access) {
    match a
    case Single(key, limits, _) =>
      if key in c.pool then Covers(c.pool[key].key, t) else key in c.deps && limits ==> key in keys
    case Bulk(found, _) => forall v :: v in found ==> Covers(v.key, t)
  }

  /** What the items of `keys` have found `INVALID` or `CREATED` is in `keys` as well. */
  ghost predicate Closed(log: seq<Event>, keys: set<Hash>) {
    forall e :: e in log && (e.Passed? || e.ReadThrough?) && e.reader in keys ==> e.key in keys
  }

  ghost predicate Covering(s: Engine, keys: set<Hash>, t: int) {
    forall k :: k in keys && k in s.items && s.items[k].iovSet ==> Covers(s.items[k].iov.key, t)
  }

  lemma CoverStep(c: Config, s: Engine, m: Step, keys: set<Hash>, t: int)
    requires Enabled(c, s, m) && StackOk(c, s) && Spanned(c, keys, t) && Covering(s, keys, t)
    requires Closed(Apply(c, s, m).log, keys)
    ensures Covering(Apply(c, s, m), keys, t)
  {
    match m
    case LeaveCreate(k, previous) => CoverLeave(c, s, m, keys, t);
    case LeaveResolve(k, into) => CoverLeave(c, s, m, keys, t);
    case EnterCreate(k) =>
    case EnterResolve(k) =>
    case Select(k) =>
    case StartResolve =>
    case _ =>
      var f := Last(s.stack);
      assert f.key in keys ==> forall a :: a in Active(c, f) ==> SpannedBy(c, keys, t, a);
      CoverRead(c, s, m, keys, t);
  }

  lemma CoverRead(c: Config, s: Engine, m: Step, keys: set<Hash>, t: int)
    requires Enabled(c, s, m) && s.stack != [] && Covering(s, keys, t)
    requires m.FromPool? || m.FromResolved? || m.Limit? || m.Narrow? || m.LimitBulk?
    requires Last(s.stack).key in keys ==> forall a :: a in Active(c, Last(s.stack)) ==> SpannedBy(c, keys, t, a)
    ensures Covering(Apply(c, s, m), keys, t)
  {
  }

  lemma CoverLeave(c: Config, s: Engine, m: Step, keys: set<Hash>, t: int)
    requires Enabled(c, s, m) && StackOk(c, s) && Spanned(c, keys, t) && Covering(s, keys, t)
    requires Closed(Apply(c, s, m).log, keys)
    requires m.LeaveCreate? || m.LeaveResolve?
    ensures Covering(Apply(c, s, m), keys, t)
  {
    var f := Last(s.stack);
    if |s.stack| > 1 {
      LedTo(c, s, m, keys);
    }
  }

  /** What has asked for the callback that ends leads to its key. */
  lemma LedTo(c: Config, s: Engine, m: Step, keys: set<Hash>)
    requires Ready(c, s, m) && (m.LeaveCreate? || m.LeaveResolve?) && |s.stack| > 1 && Closed(Apply(c, s, m).log, keys)
    ensures Last(Front(s.stack)).key in keys ==> Last(s.stack).key in keys
  {
    var f, g := Last(s.stack), Last(Front(s.stack));
    assert (if m.LeaveCreate? then Passed(g.key, f.key) else ReadThrough(g.key, f.key)) in Apply(c, s, m).log;
  }
}
