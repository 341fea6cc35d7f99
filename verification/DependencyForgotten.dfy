/** Which of its reads limit the validity of a condition that is created, and which are forgotten. */
module DependencyForgotten {
  import opened Validity
  import opened Wrappers
  import opened DependencyEngine
  import opened DependencyRuns
  import opened DependencyInvariants
  import opened DependencyNarrowing
  import opened DependencyUnset

  /** An access which sets no validity: what it asks for is `RESOLVED`, or not there. */
  predicate Idle(c: Config, s: Engine, a: Access) {
    match a
    case Single(key, _, _) => key !in c.pool && (key in s.items ==> s.items[key].state == RESOLVED)
    case Bulk(found, _) => found == []
  }

  /** How many accesses are idle before the first that is not. */
  function Idles(c: Config, s: Engine, accesses: seq<Access>): (n: nat)
    ensures n <= |accesses|
    ensures forall i :: 0 <= i < n ==> Idle(c, s, accesses[i])
    ensures n < |accesses| ==> !Idle(c, s, accesses[n])
  {
    if accesses == [] || !Idle(c, s, accesses[0]) then 0 else 1 + Idles(c, s, accesses[1..])
  }

  /** The number of accesses that the creation of `k` from state `s` forgets. */
  function Forgets(c: Config, s: Engine, k: Hash): (n: nat)
    requires k in s.items && k in c.deps
    ensures n <= |c.deps[k].create|
  {
    if s.items[k].iovSet then 0 else Idles(c, s, c.deps[k].create)
  }

  /** The validity given to a condition whose creation callback has returned. */
  function Made(c: Config, w: Work): Iov {
    if w.iovSet then w.iov else Iov(c.validity.typed, FOREVER)
  }

  predicate CanCreate(c: Config, s: Engine, k: Hash) {
    Ready(c, s, EnterCreate(k)) && (s.stack == [] ==> s.current == None)
  }

  /** Some of the accesses of the creation callback, from its start. */
  function Creation(c: Config, s: Engine, k: Hash, accesses: seq<Access>): (r: Outcome)
    requires CanCreate(c, s, k)
    ensures r.Done? ==> k in r.s.items && WellFormed(c, r.s) && r.s.stack == s.stack + [Creating(k)]
  {
    EnteringShrinks(c, s, k);
    RunAll(c, Apply(c, s, EnterCreate(k)), accesses)
  }

  lemma {:induction false} RunAllSplit(c: Config, s: Engine, xs: seq<Access>, ys: seq<Access>)
    requires WellFormed(c, s) && s.stack != []
    ensures var r := RunAll(c, s, xs);
            RunAll(c, s, xs + ys) == if r.Thrown? then r else RunAll(c, r.s, ys)
    decreases |xs|
  {
    if xs == [] {
      assert xs + ys == ys;
    } else {
      assert (xs + ys)[0] == xs[0] && (xs + ys)[1..] == xs[1..] + ys;
      var r := Visit(c, s, xs[0]);
      if r.Done? {
        RunAllSplit(c, r.s, xs[1..], ys);
      }
    }
  }

  lemma IdleVisit(c: Config, s: Engine, a: Access)
    requires WellFormed(c, s) && s.stack != [] && !s.items[s.current.value].iovSet && Idle(c, s, a)
    ensures var r := Visit(c, s, a); r.Done? ==> Alike(s, r.s)
  {
    match a
    case Bulk(found, limits) => BulkIs(c, s, found, limits);
    case Single(key, limits, required) => IdleRead(c, s, key, required);
  }

  lemma IdleRead(c: Config, s: Engine, key: Hash, required: bool)
    requires WellFormed(c, s) && s.stack != [] && !s.items[s.current.value].iovSet && Idle(c, s, Single(key, false, required))
    ensures var r := Get(c, s, key, required);
            r.Done? ==> Alike(s, r.s) && (key in s.items ==> Alike(s, Apply(c, r.s, Limit(key))))
  {
  }

  lemma {:induction false} IdleRun(c: Config, s: Engine, accesses: seq<Access>)
    requires WellFormed(c, s) && s.stack != [] && !s.items[s.current.value].iovSet
    requires forall a :: a in accesses ==> Idle(c, s, a)
    ensures var r := RunAll(c, s, accesses); r.Done? ==> Alike(s, r.s)
    decreases |accesses|
  {
    if accesses != [] {
      IdleVisit(c, s, accesses[0]);
      var r := Visit(c, s, accesses[0]);
      if r.Done? {
        forall a | a in accesses[1..] ensures Idle(c, r.s, a) {
          assert a in accesses;
          IdleAlike(c, s, r.s, a);
        }
        IdleRun(c, r.s, accesses[1..]);
      }
    }
  }

  lemma IdleAlike(c: Config, s: Engine, t: Engine, a: Access)
    requires Idle(c, s, a) && Alike(s, t)
    ensures Idle(c, t, a)
  {
  }

  /** The forgotten accesses leave nothing behind. */
  lemma ForgottenRun(c: Config, s: Engine, k: Hash)
    requires CanCreate(c, s, k)
    ensures var n, all := Forgets(c, s, k), c.deps[k].create;
            var a, b, r := Creation(c, s, k, all[..n]), Creation(c, s, k, all[n..]), Creation(c, s, k, all);
            && (r.Done? <==> a.Done? && b.Done?)
            && (r.Done? ==> SameWork(b.s.items[k], r.s.items[k]))
  {
    var n, all := Forgets(c, s, k), c.deps[k].create;
    EnteringShrinks(c, s, k);
    var s1 := Apply(c, s, EnterCreate(k));
    assert all == all[..n] + all[n..];
    RunAllSplit(c, s1, all[..n], all[n..]);
    if s.items[k].iovSet {
      assert all[..0] == [] && all[0..] == all;
    } else {
      forall a | a in all[..n] ensures Idle(c, s1, a) {
      }
      IdleRun(c, s1, all[..n]);
      var a := RunAll(c, s1, all[..n]);
      if a.Done? {
        RunAllAlike(c, s1, a.s, all[n..]);
      }
    }
  }

  /** A creation that succeeds ends with the step that leaves its callback. */
  lemma CreationEnds(c: Config, s: Engine, k: Hash)
    requires CanCreate(c, s, k)
    ensures var q, r := Creation(c, s, k, c.deps[k].create), Create(c, s, k);
            && (r.Done? <==> q.Done? && c.deps[k].succeeds)
            && (r.Done? ==>
                  && Ready(c, q.s, LeaveCreate(k, s.current))
                  && r.s == AfterCreate(c, q.s, k, s.current))
  {
    CreateUnfolds(c, s, k);
  }

  lemma CreationMakes(c: Config, s: Engine, k: Hash)
    requires CanCreate(c, s, k)
    ensures var q, r := Creation(c, s, k, c.deps[k].create), Create(c, s, k);
            && (r.Done? <==> q.Done? && c.deps[k].succeeds)
            && (r.Done? ==> k in r.s.items && r.s.items[k].iov == Made(c, q.s.items[k]))
  {
    CreationEnds(c, s, k);
  }

  /**
   The validity of a created condition is the one it would have without the accesses before the
   first that is not idle: if there is no other, it is unlimited.
   */
  lemma CreationForgets(c: Config, s: Engine, k: Hash)
    requires CanCreate(c, s, k)
    ensures var n, all := Forgets(c, s, k), c.deps[k].create;
            var a, b, r := Creation(c, s, k, all[..n]), Creation(c, s, k, all[n..]), Create(c, s, k);
            && (r.Done? <==> a.Done? && b.Done? && c.deps[k].succeeds)
            && (r.Done? ==> k in r.s.items && r.s.items[k].iov == Made(c, b.s.items[k]))
            && (r.Done? && n == |all| && !s.items[k].iovSet ==> r.s.items[k].iov.key == FOREVER)
  {
    var n, all := Forgets(c, s, k), c.deps[k].create;
    ForgottenRun(c, s, k);
    CreationMakes(c, s, k);
    EnteringShrinks(c, s, k);
    if n == |all| {
      assert all[n..] == [];
    }
  }

  /**
   A forgotten read of a condition limits the validity exactly when that of the other accesses
   lies inside that of the condition already.
   */
  lemma ForgottenRead(c: Config, s: Engine, k: Hash, a: Access)
    requires CanCreate(c, s, k) && a in c.deps[k].create[..Forgets(c, s, k)] && a.Single? && a.key in s.items
    ensures var b, r := Creation(c, s, k, c.deps[k].create[Forgets(c, s, k)..]), Create(c, s, k);
            r.Done? ==>
              && b.Done? && k in r.s.items
              && (Within(r.s.items[k].iov.key, s.items[a.key].iov.key) <==>
                  Within(Made(c, b.s.items[k]).key, s.items[a.key].iov.key))
  {
    CreationForgets(c, s, k);
  }

  // The accesses that count.

  /** An access that is not idle sets the validity of its reader. */
  lemma Sets(c: Config, s: Engine, a: Access)
    requires WellFormed(c, s) && s.stack != [] && !Idle(c, s, a)
    ensures var r, reader := Visit(c, s, a), s.current.value;
            r.Done? ==> reader in r.s.items && r.s.items[reader].iovSet
  {
    match a
    case Bulk(found, limits) =>
      if s.mode == RESOLVED {
        NarrowFirst(c, s, found);
      }
    case Single(key, limits, required) =>
      if key !in c.pool {
        ThroughSets(c, s, key, required);
      }
  }

  lemma ThroughSets(c: Config, s: Engine, key: Hash, required: bool)
    requires WellFormed(c, s) && s.stack != [] && key !in c.pool && key in s.items && s.items[key].state != RESOLVED
    ensures var r, reader := Get(c, s, key, required), s.current.value;
            r.Done? ==> reader in r.s.items && r.s.items[reader].iovSet
  {
    if s.items[key].state == CREATED {
      ResolveSets(c, s, key);
    } else if Create(c, s, key).Done? {
      ResolveSets(c, Create(c, s, key).s, key);
    }
  }

  lemma ResolveSets(c: Config, s: Engine, key: Hash)
    requires WellFormed(c, s) && s.stack != [] && key in s.items && s.items[key].state == CREATED
    ensures var r, reader := Resolve(c, s, key), s.current.value;
            r.Done? ==> reader in r.s.items && r.s.items[reader].iovSet
  {
    ResolveUnfolds(c, s, key);
  }

  /** The validity of what a single access asks for, as state `s` shows it. */
  function Asked(c: Config, s: Engine, a: Access): Key
    requires a.Single? && (a.key in c.pool || a.key in s.items)
  {
    if a.key in c.pool then c.pool[a.key].key else s.items[a.key].iov.key
  }

  /** Right after it a context access, or one to the pool, limits what its reader holds. */
  lemma LimitsNow(c: Config, s: Engine, a: Access)
    requires WellFormed(c, s) && s.stack != [] && a.Single? && (a.key in c.pool || a.key in s.items)
    requires a.limits || a.key in c.pool
    ensures var r, reader := Visit(c, s, a), s.current.value;
            r.Done? && reader in r.s.items && r.s.items[reader].iov.typed ==>
              Within(r.s.items[reader].iov.key, Asked(c, r.s, a))
  {
    var r := Get(c, s, a.key, a.required);
    if r.Done? && a.limits {
      LimitedNow(c, r.s, a);
    }
  }

  lemma LimitedNow(c: Config, s: Engine, a: Access)
    requires WellFormed(c, s) && s.stack != [] && a.Single? && (a.key in c.pool || a.key in s.items)
    ensures var r, reader := Apply(c, s, Limit(a.key)), s.current.value;
            r.items[reader].iov.typed ==> Within(r.items[reader].iov.key, Asked(c, r, a))
  {
  }

  /** While the creation of `k` is in progress, the items of the callbacks below it stay as they are. */
  ghost predicate Beneath(s0: Engine, k: Hash, r: Engine)
    requires s0.stack != []
  {
    k in r.items && r.items[k].state == INVALID ==>
      && s0.stack <= r.stack
      && forall f :: f in Front(s0.stack) ==> f.key in s0.items && f.key in r.items && r.items[f.key] == s0.items[f.key]
  }

  predicate IsCreation(s0: Engine, k: Hash) {
    s0.stack != [] && Last(s0.stack) == Creating(k)
  }

  lemma BelowDiffer(s0: Engine, r: Engine, f: Frame, i: nat)
    requires s0.stack != [] && s0.stack <= r.stack && Guarded(r) && f in Front(s0.stack)
    requires |s0.stack| - 1 <= i < |r.stack|
    ensures r.stack[i].key != f.key && f in r.stack
  {
    var j :| 0 <= j < |s0.stack| - 1 && s0.stack[j] == f;
    assert r.stack[j] == f;
  }

  lemma BeneathStep(s0: Engine, k: Hash, s: Engine, r: Engine)
    requires IsCreation(s0, k) && k in s.items && Guarded(s) && Moved(s, r) && Beneath(s0, k, s)
    ensures Beneath(s0, k, r)
  {
    if f :| Entered(s, r, f) {
      BeneathEnter(s0, k, s, r, f);
    } else if f :| Left(s, r, f) {
      BeneathLeave(s0, k, s, r, f);
    } else if s.items[k].state == INVALID {
      forall g | g in Front(s0.stack) ensures r.items[g.key] == s0.items[g.key] {
        BelowDiffer(s0, s, g, |s.stack| - 1);
      }
    }
  }

  lemma BeneathEnter(s0: Engine, k: Hash, s: Engine, r: Engine, f: Frame)
    requires IsCreation(s0, k) && k in s.items && Guarded(s) && Entered(s, r, f) && Beneath(s0, k, s)
    ensures Beneath(s0, k, r)
  {
    if s.items[k].state == INVALID {
      forall g | g in Front(s0.stack) ensures r.items[g.key] == s0.items[g.key] {
        BelowDiffer(s0, s, g, |s0.stack| - 1);
      }
    }
  }

  lemma BeneathLeave(s0: Engine, k: Hash, s: Engine, r: Engine, f: Frame)
    requires IsCreation(s0, k) && k in s.items && Guarded(s) && Left(s, r, f) && Beneath(s0, k, s)
    ensures Beneath(s0, k, r)
  {
    if r.items[k].state == INVALID {
      assert s0.stack != s.stack;
      forall g | g in Front(s0.stack) ensures r.items[g.key] == s0.items[g.key] {
        BelowDiffer(s0, s, g, |s.stack| - 1);
        BelowDiffer(s0, s, g, |s.stack| - 2);
      }
    }
  }

  ghost predicate InCreation(c: Config, s0: Engine, k: Hash, s: Engine)
    requires s0.stack != []
  {
    StackOk(c, s) && AllTyped(s) && Beneath(s0, k, s)
  }

  lemma InCreationStable(c: Config, s0: Engine, k: Hash)
    requires Typed(c) && IsCreation(s0, k) && k in c.deps
    ensures Stable(c, s => InCreation(c, s0, k, s))
  {
    forall s, m | Enabled(c, s, m) && InCreation(c, s0, k, s) ensures InCreation(c, s0, k, Apply(c, s, m)) {
      StackStep(c, s, m);
      TypeStep(c, s, m);
      Effect(c, s, m);
      BeneathStep(s0, k, s, Apply(c, s, m));
    }
  }

  /** The engine is about to call the creation callback of `k`, in a run with typed intervals. */
  ghost predicate AboutToCreate(c: Config, s: Engine, k: Hash) {
    && Typed(c) && CanCreate(c, s, k) && StackOk(c, s) && AllTyped(s)
    && (s.stack != [] ==> k !in c.pool && Asks(c, Last(s.stack), k))
  }

  /** The callback has just been entered: `s1` is the state it starts from. */
  ghost predicate Started(c: Config, s1: Engine, k: Hash) {
    && Typed(c) && WellFormed(c, s1) && k in c.deps && IsCreation(s1, k) && InCreation(c, s1, k, s1)
  }

  lemma StartsInCreation(c: Config, s: Engine, k: Hash)
    requires AboutToCreate(c, s, k)
    ensures var s1 := Apply(c, s, EnterCreate(k));
            && Started(c, s1, k)
            && s1.items[k].iovSet == s.items[k].iovSet && s1.items[k].state == INVALID
            && forall a :: Idle(c, s, a) <==> Idle(c, s1, a)
  {
    EnteringShrinks(c, s, k);
    StackStep(c, s, EnterCreate(k));
    TypeStep(c, s, EnterCreate(k));
  }

  /** A state in the middle of the callback. */
  ghost predicate During(c: Config, s1: Engine, k: Hash, s: Engine)
    requires s1.stack != []
  {
    WellFormed(c, s) && s.stack == s1.stack && InCreation(c, s1, k, s)
  }

  /** The states before and after access `j` of the creation of `k`. */
  lemma AtAccess(c: Config, s1: Engine, k: Hash, j: nat) returns (u: Engine, t: Engine)
    requires Started(c, s1, k) && j < |c.deps[k].create| && RunAll(c, s1, c.deps[k].create).Done?
    ensures var all := c.deps[k].create;
            && RunAll(c, s1, all[..j]) == Done(u) && During(c, s1, k, u)
            && Visit(c, u, all[j]) == Done(t) && During(c, s1, k, t)
            && RunAll(c, s1, all) == RunAll(c, t, all[j + 1..])
  {
    var all := c.deps[k].create;
    assert all == all[..j] + all[j..] && all[j..][0] == all[j] && all[j..][1..] == all[j + 1..];
    RunAllSplit(c, s1, all[..j], all[j..]);
    u := RunAll(c, s1, all[..j]).s;
    t := Visit(c, u, all[j]).s;
    InCreationStable(c, s1, k);
    RunAllKeeps(c, s1, all[..j], r => InCreation(c, s1, k, r));
    VisitKeeps(c, u, all[j], r => InCreation(c, s1, k, r));
  }

  /** Behind an access that is not idle the validity is set. */
  lemma {:induction false} SetBehind(c: Config, s: Engine, accesses: seq<Access>, i: nat)
    requires WellFormed(c, s) && s.stack != [] && i < |accesses| && !Idle(c, s, accesses[i])
    ensures var r, reader := RunAll(c, s, accesses), s.current.value;
            r.Done? ==> reader in r.s.items && r.s.items[reader].iovSet
    decreases |accesses|
  {
    var v, reader := Visit(c, s, accesses[0]), s.current.value;
    if v.Done? && !v.s.items[reader].iovSet {
      if !Idle(c, s, accesses[0]) {
        Sets(c, s, accesses[0]);
      }
      assert Advances(s.items[reader], v.s.items[reader]);
      IdleVisit(c, s, accesses[0]);
      if Idle(c, v.s, accesses[i]) {
        IdleBack(c, s, v.s, accesses[i]);
      }
      SetBehind(c, v.s, accesses[1..], i - 1);
    } else if v.Done? {
      StaysSet(c, v.s, accesses[1..]);
    }
  }

  lemma StaysSet(c: Config, s: Engine, accesses: seq<Access>)
    requires WellFormed(c, s) && s.stack != [] && s.items[s.current.value].iovSet
    ensures var r, reader := RunAll(c, s, accesses), s.current.value;
            r.Done? ==> reader in r.s.items && r.s.items[reader].iovSet
  {
    var r, reader := RunAll(c, s, accesses), s.current.value;
    assert r.Done? ==> Advances(s.items[reader], r.s.items[reader]);
  }

  lemma IdleBack(c: Config, s: Engine, t: Engine, a: Access)
    requires Idle(c, t, a) && Alike(s, t)
    ensures Idle(c, s, a)
  {
  }

  /** Access `j` finds the validity set, or sets it. */
  lemma SetAt(c: Config, s1: Engine, all: seq<Access>, n: nat, j: nat, u: Engine, t: Engine)
    requires WellFormed(c, s1) && s1.stack != [] && n <= j < |all|
    requires s1.items[s1.current.value].iovSet || !Idle(c, s1, all[n])
    requires RunAll(c, s1, all[..j]) == Done(u) && Visit(c, u, all[j]) == Done(t)
    ensures s1.current.value in t.items && t.items[s1.current.value].iovSet
  {
    RunUpTo(c, s1, all, j, u, t);
    NthUpTo(all, n, j);
    SetAfter(c, s1, all[..j] + [all[j]], n);
  }

  lemma NthUpTo(all: seq<Access>, n: nat, j: nat)
    requires n <= j < |all|
    ensures |all[..j] + [all[j]]| == j + 1 && (all[..j] + [all[j]])[n] == all[n]
  {
  }

  lemma SetAfter(c: Config, s1: Engine, upTo: seq<Access>, n: nat)
    requires WellFormed(c, s1) && s1.stack != [] && n < |upTo|
    requires s1.items[s1.current.value].iovSet || !Idle(c, s1, upTo[n])
    ensures var r, reader := RunAll(c, s1, upTo), s1.current.value;
            r.Done? ==> reader in r.s.items && r.s.items[reader].iovSet
  {
    if s1.items[s1.current.value].iovSet {
      StaysSet(c, s1, upTo);
    } else {
      SetBehind(c, s1, upTo, n);
    }
  }

  lemma RunUpTo(c: Config, s1: Engine, all: seq<Access>, j: nat, u: Engine, t: Engine)
    requires WellFormed(c, s1) && s1.stack != [] && j < |all|
    requires RunAll(c, s1, all[..j]) == Done(u) && Visit(c, u, all[j]) == Done(t)
    ensures RunAll(c, s1, all[..j] + [all[j]]) == Done(t)
  {
    RunAllSplit(c, s1, all[..j], [all[j]]);
    OneAccess(c, u, all[j]);
  }

  lemma OneAccess(c: Config, s: Engine, a: Access)
    requires WellFormed(c, s) && s.stack != []
    ensures RunAll(c, s, [a]) == Visit(c, s, a)
  {
    assert [a][1..] == [];
    var r := Visit(c, s, a);
    if r.Done? {
      assert RunAll(c, r.s, []) == r;
    }
  }

  /** From an access on, the validity of `k` shrinks, and that of a condition it has found stays. */
  lemma UntilTheEnd(c: Config, s1: Engine, k: Hash, t: Engine, rest: seq<Access>, key: Hash)
    requires Started(c, s1, k) && During(c, s1, k, t) && k in t.items && t.items[k].iovSet
    requires RunAll(c, t, rest).Done? && forall a :: a in rest ==> a in c.deps[k].create
    ensures var v := RunAll(c, t, rest).s;
            && During(c, s1, k, v)
            && k in v.items && v.items[k].iovSet && Within(v.items[k].iov.key, t.items[k].iov.key)
            && (key in t.items && t.items[key].state == RESOLVED ==>
                  key != k && key in v.items && v.items[key].iovSet && v.items[key].iov == t.items[key].iov)
  {
    InCreationStable(c, s1, k);
    RunAllKeeps(c, t, rest, r => InCreation(c, s1, k, r));
    CallbackNarrows(c, t, rest);
    FoundStays(c, s1, k, t, RunAll(c, t, rest).s, key);
  }

  lemma FoundStays(c: Config, s1: Engine, k: Hash, t: Engine, v: Engine, key: Hash)
    requires Started(c, s1, k) && During(c, s1, k, t) && During(c, s1, k, v) && Narrower(t, v)
    ensures key in t.items && t.items[key].state == RESOLVED ==>
              key != k && key in v.items && v.items[key].iovSet && v.items[key].iov == t.items[key].iov
  {
    assert Creating(k) in t.stack && Creating(k) in v.stack;
    if key in t.items && t.items[key].state == RESOLVED && !Finished(t, key) {
      UnfinishedBelow(s1, k, key);
    }
  }

  lemma UnfinishedBelow(s1: Engine, k: Hash, key: Hash)
    requires IsCreation(s1, k) && Resolving(key) in s1.stack
    ensures Resolving(key) in Front(s1.stack)
  {
    assert s1.stack == Front(s1.stack) + [Creating(k)];
  }

  /** At the end of the callback what was read with access `j` contains the validity. */
  lemma ReadContains(c: Config, s1: Engine, k: Hash, n: nat, j: nat)
    requires Started(c, s1, k) && n <= j < |c.deps[k].create|
    requires s1.items[k].iovSet || !Idle(c, s1, c.deps[k].create[n])
    requires var a := c.deps[k].create[j]; a.Single? && (a.key in c.pool || (a.key in s1.items && a.limits))
    ensures var a, r := c.deps[k].create[j], RunAll(c, s1, c.deps[k].create);
            r.Done? ==>
              && During(c, s1, k, r.s) && k in r.s.items && r.s.items[k].iovSet
              && (a.key in c.pool || (a.key in r.s.items && a.key != k && r.s.items[a.key].iovSet))
              && Within(r.s.items[k].iov.key, Asked(c, r.s, a))
  {
    var all := c.deps[k].create;
    if RunAll(c, s1, all).Done? {
      var u, t := AtAccess(c, s1, k, j);
      SetAt(c, s1, all, n, j, u, t);
      LimitsNow(c, u, all[j]);
      UntilTheEnd(c, s1, k, t, all[j + 1..], all[j].key);
      if all[j].key !in c.pool {
        FoundResolved(c, u, all[j]);
      }
    }
  }

  lemma FoundResolved(c: Config, s: Engine, a: Access)
    requires WellFormed(c, s) && s.stack != [] && a.Single? && a.key !in c.pool && a.key in s.items
    ensures var r := Visit(c, s, a); r.Done? ==> a.key in r.s.items && r.s.items[a.key].state == RESOLVED
  {
  }

  /** The end of the creation leaves every validity that contains the new one as it is, or at it. */
  lemma LeaveContains(items: map<Hash, Work>, k: Hash, previous: Option<Hash>, typed: bool, key: Hash)
    requires k in items && items[k].callstack > 0 && (previous.Some? ==> previous.value in items)
    requires items[k].iovSet && key in items && key != k && items[key].iovSet && items[key].iov.typed
    requires Within(items[k].iov.key, items[key].iov.key) && previous != Some(k)
    ensures var r := FinishIn(items, k, previous, typed);
            k in r && key in r && Within(r[k].iov.key, r[key].iov.key)
  {
  }

  /** The end of a creation narrows the item that has asked for it. */
  lemma CreationPassesOn(c: Config, s: Engine, k: Hash)
    requires CanCreate(c, s, k) && StackOk(c, s) && AllTyped(s) && Typed(c) && s.stack != [] && k !in c.pool
    requires Asks(c, Last(s.stack), k)
    ensures var r, reader := Create(c, s, k), s.current.value;
            r.Done? ==>
              && reader != k && reader in r.s.items && r.s.items[reader].iovSet
              && Within(r.s.items[reader].iov.key, r.s.items[k].iov.key)
  {
    if Create(c, s, k).Done? {
      var s1 := Apply(c, s, EnterCreate(k));
      CreateUnfolds(c, s, k);
      StartsInCreation(c, s, k);
      InCreationStable(c, s1, k);
      RunAllKeeps(c, s1, c.deps[k].create, r => InCreation(c, s1, k, r));
      var v := RunAll(c, s1, c.deps[k].create).s;
      NotItself(v, k, s.current);
      PassesOn(v.items, k, s.current.value, c.validity.typed);
    }
  }

  lemma PassesOn(items: map<Hash, Work>, k: Hash, previous: Hash, typed: bool)
    requires k in items && items[k].callstack > 0 && previous in items && previous != k
    requires items[previous].iov.typed
    ensures var r := FinishIn(items, k, Some(previous), typed);
            r[previous].iovSet && Within(r[previous].iov.key, r[k].iov.key)
  {
  }

  /**
   What a creation callback reads through the context, or from the pool, behind its forgotten
   accesses contains the validity of the created condition.
   */
  lemma LaterReadsLimit(c: Config, s: Engine, k: Hash, j: nat)
    requires AboutToCreate(c, s, k) && Forgets(c, s, k) <= j < |c.deps[k].create|
    requires var a := c.deps[k].create[j];
             a.Single? && (a.key in c.pool || (a.key in s.items && a.limits))
    ensures var a, r := c.deps[k].create[j], Create(c, s, k);
            r.Done? ==>
              && k in r.s.items && (a.key in c.pool || a.key in r.s.items)
              && Within(r.s.items[k].iov.key, Asked(c, r.s, a))
  {
    if Create(c, s, k).Done? {
      CreationMakes(c, s, k);
      CreationContains(c, s, k, j);
      if c.deps[k].create[j].key !in c.pool {
        EndContains(c, s, k, c.deps[k].create[j].key);
      }
    }
  }

  lemma CreationContains(c: Config, s: Engine, k: Hash, j: nat)
    requires AboutToCreate(c, s, k) && Forgets(c, s, k) <= j < |c.deps[k].create|
    requires var a := c.deps[k].create[j];
             a.Single? && (a.key in c.pool || (a.key in s.items && a.limits))
    ensures var a, r := c.deps[k].create[j], Creation(c, s, k, c.deps[k].create);
            r.Done? ==>
              && Guarded(r.s) && AllTyped(r.s) && k in r.s.items && r.s.items[k].iovSet
              && (a.key in c.pool || (a.key in r.s.items && a.key != k && r.s.items[a.key].iovSet))
              && Within(r.s.items[k].iov.key, Asked(c, r.s, a))
  {
    StartsInCreation(c, s, k);
    ReadContains(c, Apply(c, s, EnterCreate(k)), k, Forgets(c, s, k), j);
  }

  lemma EndContains(c: Config, s: Engine, k: Hash, key: Hash)
    requires CanCreate(c, s, k) && Create(c, s, k).Done? && key != k
    requires var v := Creation(c, s, k, c.deps[k].create).s;
             && Guarded(v) && AllTyped(v) && k in v.items && v.items[k].iovSet && key in v.items && v.items[key].iovSet
             && Within(v.items[k].iov.key, v.items[key].iov.key)
    ensures var r := Create(c, s, k).s;
            k in r.items && key in r.items && Within(r.items[k].iov.key, r.items[key].iov.key)
  {
    CreationEnds(c, s, k);
    var v := Creation(c, s, k, c.deps[k].create).s;
    NotItself(v, k, s.current);
    LeaveContains(v.items, k, s.current, c.validity.typed, key);
  }

  lemma {:induction false} NarrowAllInside(c: Config, s: Engine, found: seq<Iov>, v: Iov)
    requires WellFormed(c, s) && s.stack != [] && s.items[s.current.value].iov.typed
    requires forall w :: w in found ==> w.typed
    requires v in found || Inside(s, s.current.value, v)
    ensures Inside(NarrowAll(c, s, found), s.current.value, v)
    ensures NarrowAll(c, s, found).items[s.current.value].iov.typed
    decreases found
  {
    if found != [] {
      NarrowAllInside(c, Apply(c, s, Narrow(found[0])), found[1..], v);
    }
  }

  lemma {:induction false} LimitAllInside(c: Config, s: Engine, found: seq<Iov>, v: Iov)
    requires WellFormed(c, s) && s.stack != [] && s.items[s.current.value].iov.typed
    requires Inside(s, s.current.value, v)
    ensures Inside(LimitAll(c, s, found), s.current.value, v)
    decreases found
  {
    if found != [] {
      LimitAllInside(c, Apply(c, s, LimitBulk(found[0])), found[1..], v);
    }
  }

  /** Right after an access by detector or by item each condition found limits what its reader holds. */
  lemma BulkLimitsNow(c: Config, s: Engine, a: Access, v: Iov)
    requires WellFormed(c, s) && s.stack != [] && s.items[s.current.value].iov.typed
    requires a.Bulk? && v in a.found && forall w :: w in a.found ==> w.typed
    ensures var r := Visit(c, s, a); r.Done? ==> Inside(r.s, s.current.value, v)
  {
    BulkIs(c, s, a.found, a.limits);
    NarrowAllInside(c, s, a.found, v);
    if a.limits {
      LimitAllInside(c, NarrowAll(c, s, a.found), a.found, v);
    }
  }

  /** Access by detector or by item is never forgotten: all it finds contains the validity. */
  lemma BulkReadsLimit(c: Config, s: Engine, k: Hash, j: nat, v: Iov)
    requires AboutToCreate(c, s, k) && j < |c.deps[k].create|
    requires c.deps[k].create[j].Bulk? && v in c.deps[k].create[j].found
    ensures var r := Create(c, s, k); r.Done? ==> k in r.s.items && Within(r.s.items[k].iov.key, v.key)
  {
    if Create(c, s, k).Done? {
      CreationMakes(c, s, k);
      StartsInCreation(c, s, k);
      BulkContains(c, Apply(c, s, EnterCreate(k)), k, j, v);
    }
  }

  lemma BulkContains(c: Config, s1: Engine, k: Hash, j: nat, v: Iov)
    requires Started(c, s1, k) && j < |c.deps[k].create|
    requires c.deps[k].create[j].Bulk? && v in c.deps[k].create[j].found
    ensures var r := RunAll(c, s1, c.deps[k].create); r.Done? ==> Inside(r.s, k, v)
  {
    var all := c.deps[k].create;
    if RunAll(c, s1, all).Done? {
      var u, t := AtAccess(c, s1, k, j);
      BulkAt(c, s1, k, all[j], u, v);
      InsideToTheEnd(c, s1, k, t, all[j + 1..], v);
    }
  }

  lemma InsideToTheEnd(c: Config, s1: Engine, k: Hash, t: Engine, rest: seq<Access>, v: Iov)
    requires Started(c, s1, k) && During(c, s1, k, t) && Inside(t, k, v)
    requires RunAll(c, t, rest).Done? && forall a :: a in rest ==> a in c.deps[k].create
    ensures Inside(RunAll(c, t, rest).s, k, v)
  {
    UntilTheEnd(c, s1, k, t, rest, k);
  }

  lemma BulkAt(c: Config, s1: Engine, k: Hash, a: Access, u: Engine, v: Iov)
    requires Started(c, s1, k) && During(c, s1, k, u) && a in c.deps[k].create && a.Bulk? && v in a.found
    ensures WellFormed(c, u) && u.stack != []
    ensures var r := Visit(c, u, a); r.Done? ==> Inside(r.s, k, v)
  {
    FoundTyped(c, k, a);
    ReaderTyped(c, s1, k, u);
    BulkLimitsNow(c, u, a, v);
  }

  lemma ReaderTyped(c: Config, s1: Engine, k: Hash, u: Engine)
    requires Started(c, s1, k) && During(c, s1, k, u)
    ensures WellFormed(c, u) && u.stack != [] && u.current == Some(k) && u.items[k].iov.typed
  {
  }

  lemma FoundTyped(c: Config, k: Hash, a: Access)
    requires Typed(c) && k in c.deps && a in c.deps[k].create && a.Bulk?
    ensures forall v :: v in a.found ==> v.typed
  {
    assert a in c.deps[k].create + c.deps[k].resolve;
  }

  lemma NotItself(s1: Engine, k: Hash, previous: Option<Hash>)
    requires IsCreation(s1, k) && Guarded(s1)
    requires previous.Some? ==> |s1.stack| > 1 && previous.value == Last(Front(s1.stack)).key
    ensures previous != Some(k)
  {
  }
}
