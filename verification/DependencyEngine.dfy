/**
 The engine which creates and resolves derived conditions, as functions on values
 (DDCond/src/ConditionsDependencyHandler.cpp; class `DependencyHandler.Handler` is the
 in-place form and is proved equal to these functions).

 A user callback is the finite list of accesses it makes. Every callback of an item is
 invoked at most once in a run, so a list covers callbacks which choose their accesses
 from what they have read so far.
 */
module DependencyEngine {
  import opened Validity
  import opened Wrappers

  type Hash = nat

  datatype State = INVALID | CREATED | RESOLVED

  /** One access of a callback. `limits`: made through the update context, which narrows the
      validity once more. `Bulk` is the access by detector or by item; `found` are the
      validities of the conditions the user pool returns. */
  datatype Access =
    | Single(key: Hash, limits: bool, required: bool)
    | Bulk(found: seq<Iov>, limits: bool)

  datatype Dependency = Dependency(create: seq<Access>, resolve: seq<Access>, succeeds: bool)

  datatype Config = Config(deps: map<Hash, Dependency>, pool: map<Hash, Iov>, validity: Iov)

  datatype Work = Work(state: State, callstack: nat, iov: Iov, iovSet: bool, condition: bool)

  datatype Frame = Creating(key: Hash) | Resolving(key: Hash)

  datatype Event =
    | CreateBegin(key: Hash)
    | CreateEnd(key: Hash)
    | ResolveBegin(key: Hash)
    | ResolveEnd(key: Hash)
    | ReadPool(reader: Hash, key: Hash)      // found in the user pool
    | ReadBulk(reader: Hash, found: Iov)     // the same by detector or by item
    | Passed(reader: Hash, key: Hash)        // created for the reader, which has been narrowed by it
    | ReadThrough(reader: Hash, key: Hash)   // found CREATED or INVALID, so resolved on the way
    | ReadResolved(reader: Hash, key: Hash)  // found RESOLVED and settled: returned as it is
    | ReadUnset(reader: Hash, key: Hash)     // found RESOLVED before the reader's validity was set
    | ReadUnfinished(reader: Hash, key: Hash) // found RESOLVED, but its callback has not returned
    | Limited(reader: Hash, key: Hash)       // narrowed by the context with a settled condition
    | LimitedEarly(reader: Hash, key: Hash)  // the same while the callback of the condition is in progress

  datatype Error = InfiniteRecursion | InvalidCallback | MissingCondition | BulkBeforeResolve

  /** `stack` (the callbacks in progress) and `log` (what happened) are bookkeeping of the model. */
  datatype Engine = Engine(
    items: map<Hash, Work>,
    current: Option<Hash>,
    mode: State,
    numCallback: nat,
    stack: seq<Frame>,
    log: seq<Event>)

  datatype Outcome = Done(s: Engine) | Thrown(s: Engine, error: Error)

  function Initial(c: Config): Engine {
    Engine(map k | k in c.deps :: Work(INVALID, 0, c.validity, false, false), None, CREATED, 0, [], [])
  }

  /** `Work::do_intersection`. */
  function DoIntersection(w: Work, v: Iov): Work {
    if !w.iovSet then w.(iov := v, iovSet := true) else w.(iov := Intersection(w.iov, v))
  }

  predicate WellFormed(c: Config, s: Engine) {
    && s.items.Keys == c.deps.Keys
    && (s.current.Some? ==> s.current.value in s.items)
    && (forall f :: f in s.stack ==> f.key in s.items)
    && (s.stack != [] ==> s.current == Some(Last(s.stack).key))
    && (forall k :: k in s.items ==>
          (s.items[k].condition <==> s.items[k].state != INVALID) &&
          (s.items[k].state != INVALID ==> s.items[k].iovSet))
  }

  /** The resolve callback of `k` has returned. */
  predicate Finished(s: Engine, k: Hash) {
    k in s.items && s.items[k].state == RESOLVED && Resolving(k) !in s.stack
  }

  /** The reader's validity has been set and the validity of `k` no longer changes. */
  predicate Settled(c: Config, s: Engine, reader: Hash, k: Hash) {
    reader in s.items && s.items[reader].iovSet && (k in c.pool || Finished(s, k))
  }

  // What bounds the recursion, and what only grows.

  function Fresh(s: Engine): set<Hash> {
    set k | k in s.items && s.items[k].state == INVALID && s.items[k].callstack == 0
  }

  function Pending(s: Engine): set<Hash> {
    set k | k in s.items && s.items[k].state != RESOLVED
  }

  predicate Advances(w: Work, v: Work) {
    && (v.state == INVALID && v.callstack == 0 ==> w.state == INVALID && w.callstack == 0)
    && (v.state != RESOLVED ==> w.state != RESOLVED)
    && (w.state != INVALID ==> v.state != INVALID)
    && (w.iovSet ==> v.iovSet)
  }

  predicate Grows(s: Engine, r: Engine) {
    && r.mode == s.mode
    && s.log <= r.log
    && r.items.Keys == s.items.Keys
    && (forall k :: k in s.items ==> Advances(s.items[k], r.items[k]))
  }

  /** What holds after any part of a run; a part that completes restores the work pointer. */
  predicate Continues(c: Config, s: Engine, r: Outcome) {
    && Grows(s, r.s)
    && (r.Done? ==>
          && WellFormed(c, r.s) && r.s.stack == s.stack && r.s.current == s.current
          && (forall k :: k in s.items ==> r.s.items[k].callstack == s.items[k].callstack))
  }

  predicate ReadsPool(c: Config, a: Access) {
    a.Single? && a.key in c.pool
  }

  predicate FindsResolved(c: Config, s: Engine, a: Access) {
    a.Single? && a.key !in c.pool && a.key in s.items && s.items[a.key].state == RESOLVED
  }

  /** The accesses behind the first one to a pool condition. */
  function AfterPool(c: Config, accesses: seq<Access>): (r: seq<Access>)
    ensures forall a :: a in r ==> a in accesses
  {
    if accesses == [] then []
    else if ReadsPool(c, accesses[0]) then accesses[1..]
    else AfterPool(c, accesses[1..])
  }

  /** Access `a` of item `reader` has been served; `isSet` if the reader's validity was set before. */
  predicate Answered(c: Config, s: Engine, reader: Hash, a: Access, isSet: bool) {
    if a.Bulk? then s.mode == RESOLVED && forall v :: v in a.found ==> ReadBulk(reader, v) in s.log
    else
      && (a.key in c.pool ==> ReadPool(reader, a.key) in s.log)
      && (a.key !in c.pool && a.key in c.deps ==>
            && a.key in s.items && s.items[a.key].state == RESOLVED
            && (ReadThrough(reader, a.key) in s.log || ReadUnfinished(reader, a.key) in s.log ||
                (!isSet && ReadUnset(reader, a.key) in s.log) ||
                (if a.limits then Limited(reader, a.key) else ReadResolved(reader, a.key)) in s.log))
      && (a.required ==> a.key in c.pool || a.key in c.deps)
  }

  /** All the accesses of a callback have been served, and set the validity on the way. */
  predicate AnsweredAll(c: Config, s: Engine, reader: Hash, accesses: seq<Access>, isSet: bool) {
    && (forall a :: a in accesses ==> Answered(c, s, reader, a, isSet))
    && (forall a :: a in AfterPool(c, accesses) ==> Answered(c, s, reader, a, true))
  }

  lemma StaysAnswered(c: Config, s: Engine, r: Engine, reader: Hash, a: Access, isSet: bool, wasSet: bool)
    requires Answered(c, s, reader, a, isSet) && Grows(s, r) && (wasSet ==> isSet)
    ensures Answered(c, r, reader, a, wasSet)
  {
  }

  /** The first access leads from `s` to `s1` and the others lead on to `r`. */
  lemma AllAnswered(c: Config, s: Engine, s1: Engine, r: Outcome, accesses: seq<Access>)
    requires accesses != [] && s.current.Some? && s.current.value in s.items && Grows(s, s1) && Grows(s1, r.s)
    requires var reader := s.current.value;
             && Answered(c, s1, reader, accesses[0], s.items[reader].iovSet)
             && (ReadsPool(c, accesses[0]) ==> s1.items[reader].iovSet)
             && (r.Done? ==> AnsweredAll(c, r.s, reader, accesses[1..], s1.items[reader].iovSet))
    ensures r.Done? ==> AnsweredAll(c, r.s, s.current.value, accesses, s.items[s.current.value].iovSet)
  {
    if r.Done? {
      var reader := s.current.value;
      var isSet := s.items[reader].iovSet;
      assert s1.items.Keys == s.items.Keys && Advances(s.items[reader], s1.items[reader]);
      forall a | a in accesses ensures Answered(c, r.s, reader, a, isSet) {
        if a in accesses[1..] {
          GrowsIsReflexive(r.s);
          StaysAnswered(c, r.s, r.s, reader, a, s1.items[reader].iovSet, isSet);
        } else {
          StaysAnswered(c, s1, r.s, reader, a, isSet, isSet);
        }
      }
    }
  }

  lemma GrowsIsReflexive(s: Engine)
    ensures Grows(s, s)
  {
  }

  /** How `get` has found a derived condition. */
  predicate Got(c: Config, s: Engine, reader: Hash, key: Hash, isSet: bool) {
    || ReadThrough(reader, key) in s.log
    || ReadUnfinished(reader, key) in s.log
    || (!isSet && ReadUnset(reader, key) in s.log)
    || (ReadResolved(reader, key) in s.log && Settled(c, s, reader, key))
  }

  // The elementary steps of a run.

  datatype Step =
    | EnterCreate(key: Hash)
    | LeaveCreate(key: Hash, previous: Option<Hash>)
    | EnterResolve(key: Hash)
    | LeaveResolve(key: Hash, into: Hash)
    | FromPool(key: Hash)
    | FromResolved(key: Hash)
    | Limit(key: Hash)
    | Narrow(found: Iov)
    | LimitBulk(found: Iov)
    | Select(key: Hash)
    | StartResolve

  predicate Ready(c: Config, s: Engine, m: Step) {
    && WellFormed(c, s)
    && match m
       case EnterCreate(k) => k in s.items && s.items[k].state == INVALID && s.items[k].callstack == 0
       case LeaveCreate(k, previous) =>
         && s.stack != [] && Last(s.stack) == Creating(k) && s.items[k].callstack > 0
         && previous == (if |s.stack| > 1 then Some(Last(Front(s.stack)).key) else None)
       case EnterResolve(k) => k in s.items && s.items[k].state == CREATED
       case LeaveResolve(k, previous) =>
         && s.stack != [] && Last(s.stack) == Resolving(k) && s.items[k].state == RESOLVED
         && previous == (if |s.stack| > 1 then Last(Front(s.stack)).key else k)
       case FromPool(k) => s.stack != [] && k in c.pool
       case FromResolved(k) => s.stack != [] && k in s.items && s.items[k].state == RESOLVED
       case Limit(k) => s.stack != [] && (k in c.pool || k in s.items)
       case Narrow(_) => s.stack != []
       case LimitBulk(_) => s.stack != []
       case Select(k) => s.stack == [] && k in s.items
       case StartResolve => s.stack == []
  }

  /** The creation callback has returned a condition. */
  function Finish(w: Work, typed: bool): Work
    requires w.callstack > 0
  {
    Work(CREATED, w.callstack - 1, if w.iovSet then w.iov else Iov(typed, FOREVER), true, true)
  }

  function FinishIn(items: map<Hash, Work>, k: Hash, previous: Option<Hash>, typed: bool): map<Hash, Work>
    requires k in items && items[k].callstack > 0 && (previous.Some? ==> previous.value in items)
  {
    var w := Finish(items[k], typed);
    var made := items[k := w];
    if previous.Some? then made[previous.value := DoIntersection(made[previous.value], w.iov)] else made
  }

  function EndEvents(k: Hash, previous: Option<Hash>): seq<Event> {
    [CreateEnd(k)] + if previous.Some? then [Passed(previous.value, k)] else []
  }

  /** The end of a creation: the item is there, and what asked for it is limited by it. */
  function AfterCreate(c: Config, s: Engine, k: Hash, previous: Option<Hash>): Engine
    requires k in s.items && s.items[k].callstack > 0 && s.stack != []
    requires previous.Some? ==> previous.value in s.items
  {
    s.(items := FinishIn(s.items, k, previous, c.validity.typed), current := previous, numCallback := s.numCallback + 1,
       stack := Front(s.stack), log := s.log + EndEvents(k, previous))
  }

  function BeforeResolve(s: Engine, k: Hash): Engine
    requires k in s.items
  {
    s.(items := s.items[k := s.items[k].(state := RESOLVED)], current := Some(k),
       stack := s.stack + [Resolving(k)], log := s.log + [ResolveBegin(k)])
  }

  /** `previous == k` is the top of the second pass, where the intersection is with itself. */
  function AfterResolve(s: Engine, k: Hash, previous: Hash): Engine
    requires k in s.items && previous in s.items && s.stack != []
  {
    s.(items := s.items[previous := DoIntersection(s.items[previous], s.items[k].iov)],
       current := Some(previous), stack := Front(s.stack),
       log := s.log + [ResolveEnd(k)] + if |s.stack| > 1 then [ReadThrough(previous, k)] else [])
  }

  /** How a `RESOLVED` condition has been found. */
  function Found(c: Config, s: Engine, reader: Hash, k: Hash): Event
    requires reader in s.items
  {
    if Settled(c, s, reader, k) then ReadResolved(reader, k)
    else if !s.items[reader].iovSet then ReadUnset(reader, k)
    else ReadUnfinished(reader, k)
  }

  /** What the reader holds is overwritten later if it has not been set. */
  function LimitEvents(c: Config, s: Engine, reader: Hash, k: Hash): seq<Event>
    requires reader in s.items
  {
    if Settled(c, s, reader, k) then [Limited(reader, k)]
    else if s.items[reader].iovSet then [LimitedEarly(reader, k)]
    else []
  }

  function Apply(c: Config, s: Engine, m: Step): Engine
    requires Ready(c, s, m)
  {
    match m
    case EnterCreate(k) =>
      s.(items := s.items[k := s.items[k].(callstack := s.items[k].callstack + 1)], current := Some(k),
         stack := s.stack + [Creating(k)], log := s.log + [CreateBegin(k)])
    case LeaveCreate(k, previous) => AfterCreate(c, s, k, previous)
    case EnterResolve(k) => BeforeResolve(s, k)
    case LeaveResolve(k, previous) => AfterResolve(s, k, previous)
    case FromPool(k) =>
      var reader := s.current.value;
      s.(items := s.items[reader := DoIntersection(s.items[reader], c.pool[k])], log := s.log + [ReadPool(reader, k)])
    case FromResolved(k) =>
      var reader := s.current.value;
      s.(log := s.log + [Found(c, s, reader, k)])
    case Limit(k) =>
      var reader := s.current.value;
      var v := if k in c.pool then c.pool[k] else s.items[k].iov;
      s.(items := s.items[reader := s.items[reader].(iov := Intersection(s.items[reader].iov, v))],
         log := s.log + LimitEvents(c, s, reader, k))
    case Narrow(v) =>
      var reader := s.current.value;
      s.(items := s.items[reader := DoIntersection(s.items[reader], v)], log := s.log + [ReadBulk(reader, v)])
    case LimitBulk(v) =>
      var reader := s.current.value;
      s.(items := s.items[reader := s.items[reader].(iov := Intersection(s.items[reader].iov, v))])
    case Select(k) => s.(current := Some(k))
    case StartResolve => s.(mode := RESOLVED)
  }

  function NarrowAll(c: Config, s: Engine, found: seq<Iov>): (r: Engine)
    requires WellFormed(c, s) && s.stack != []
    ensures Continues(c, s, Done(r))
    ensures forall v :: v in found ==> ReadBulk(s.current.value, v) in r.log
    decreases found
  {
    if found == [] then s
    else
      var t := Apply(c, s, Narrow(found[0]));
      var r := NarrowAll(c, t, found[1..]);
      assert ReadBulk(s.current.value, found[0]) in t.log && t.log <= r.log;
      r
  }

  function LimitAll(c: Config, s: Engine, found: seq<Iov>): (r: Engine)
    requires WellFormed(c, s) && s.stack != []
    ensures Continues(c, s, Done(r))
    decreases found
  {
    if found == [] then s else LimitAll(c, Apply(c, s, LimitBulk(found[0])), found[1..])
  }

  /** The body of one callback: its accesses in order. */
  function RunAll(c: Config, s: Engine, accesses: seq<Access>): (r: Outcome)
    requires WellFormed(c, s) && s.stack != []
    ensures Continues(c, s, r)
    ensures r.Done? ==> AnsweredAll(c, r.s, s.current.value, accesses, s.items[s.current.value].iovSet)
    decreases Fresh(s), Pending(s), |accesses|, 0
  {
    if accesses == [] then Done(s)
    else
      var r := Visit(c, s, accesses[0]);
      assert Fresh(r.s) <= Fresh(s) && Pending(r.s) <= Pending(s);
      if r.Thrown? then r
      else
        var t := RunAll(c, r.s, accesses[1..]);
        AllAnswered(c, s, r.s, t, accesses);
        t
  }

  /** `ConditionUpdateContext::condition` and `conditions`, or the resolver used directly. */
  function Visit(c: Config, s: Engine, a: Access): (r: Outcome)
    requires WellFormed(c, s) && s.stack != []
    ensures Continues(c, s, r)
    ensures r.Done? ==> Answered(c, r.s, s.current.value, a, s.items[s.current.value].iovSet)
    ensures r.Done? && ReadsPool(c, a) ==> r.s.items[s.current.value].iovSet
    ensures FindsResolved(c, s, a) && !a.limits ==> r.Done? && r.s.items == s.items
    ensures a.Bulk? && s.mode != RESOLVED ==> r == Thrown(s, BulkBeforeResolve)
    decreases Fresh(s), Pending(s), 0, 2
  {
    match a
    case Bulk(found, limits) =>
      if s.mode != RESOLVED then Thrown(s, BulkBeforeResolve)
      else
        var s1 := NarrowAll(c, s, found);
        ContinuesIsTransitive(c, s, s1, LimitAll(c, s1, found));
        Done(if limits then LimitAll(c, s1, found) else s1)
    case Single(key, limits, required) =>
      var r := Get(c, s, key, required);
      if r.Done? && limits && (key in c.pool || key in s.items) then
        LimitContinues(c, s, r.s, a);
        Done(Apply(c, r.s, Limit(key)))
      else r
  }

  lemma ContinuesIsTransitive(c: Config, s: Engine, t: Engine, r: Engine)
    requires Continues(c, s, Done(t)) && Continues(c, t, Done(r))
    ensures Continues(c, s, Done(r))
  {
    GrowsIsTransitive(s, t, r);
  }

  /** The limit by the context, after `get` has served access `a`. */
  lemma LimitContinues(c: Config, s: Engine, s1: Engine, a: Access)
    requires s.stack != [] && s.current.Some? && s.current.value in s.items
    requires Continues(c, s, Done(s1)) && a.Single? && a.limits && (a.key in c.pool || a.key in s.items)
    requires var reader, isSet := s.current.value, s.items[s.current.value].iovSet;
             && Answered(c, s1, reader, Single(a.key, false, a.required), isSet)
             && (a.key !in c.pool && a.key in c.deps ==> Got(c, s1, reader, a.key, isSet))
    ensures var r := Apply(c, s1, Limit(a.key));
            && Continues(c, s, Done(r)) && Answered(c, r, s.current.value, a, s.items[s.current.value].iovSet)
            && r.items[s.current.value].iovSet == s1.items[s.current.value].iovSet
  {
    var r := Apply(c, s1, Limit(a.key));
    ContinuesIsTransitive(c, s, s1, r);
    StaysAnswered(c, s1, r, s.current.value, Single(a.key, false, a.required),
                  s.items[s.current.value].iovSet, s.items[s.current.value].iovSet);
  }

  lemma GrowsIsTransitive(s: Engine, t: Engine, r: Engine)
    requires Grows(s, t) && Grows(t, r)
    ensures Grows(s, r)
  {
  }

  /** A completed creation, between entering and leaving. */
  lemma CreationContinues(c: Config, s: Engine, key: Hash, s2: Engine)
    requires Ready(c, s, EnterCreate(key)) && (s.stack == [] ==> s.current == None)
    requires Continues(c, Apply(c, s, EnterCreate(key)), Done(s2))
    ensures Ready(c, s2, LeaveCreate(key, s.current))
    ensures Continues(c, s, Done(Apply(c, s2, LeaveCreate(key, s.current))))
    ensures s2.items[key].callstack > 0 && Apply(c, s2, LeaveCreate(key, s.current)).items[key].state == CREATED
  {
    CreationLeaves(c, s, key, s2);
    var s1 := Apply(c, s, EnterCreate(key));
    forall k | k in s.items
      ensures var r := Apply(c, s2, LeaveCreate(key, s.current));
              Advances(s.items[k], r.items[k]) && r.items[k].callstack == s.items[k].callstack
    {
      CreationAdvances(s.items, s1.items, s2.items, key, s.current, c.validity.typed, k);
    }
  }

  lemma CreationAdvances(items: map<Hash, Work>, items1: map<Hash, Work>, items2: map<Hash, Work>, key: Hash,
                         previous: Option<Hash>, typed: bool, k: Hash)
    requires key in items && k in items && items2.Keys == items.Keys
    requires items1 == items[key := items[key].(callstack := items[key].callstack + 1)]
    requires items[key].state == INVALID && items[key].callstack == 0
    requires forall j :: j in items ==> Advances(items1[j], items2[j]) && items2[j].callstack == items1[j].callstack
    requires previous.Some? ==> previous.value in items
    ensures var r := FinishIn(items2, key, previous, typed);
            Advances(items[k], r[k]) && r[k].callstack == items[k].callstack
  {
    assert Advances(items1[k], items2[k]);
  }

  lemma CreationLeaves(c: Config, s: Engine, key: Hash, s2: Engine)
    requires Ready(c, s, EnterCreate(key)) && (s.stack == [] ==> s.current == None)
    requires WellFormed(c, s2) && s2.items.Keys == s.items.Keys && s2.items[key].callstack > 0
    requires s2.stack == s.stack + [Creating(key)]
    ensures Ready(c, s2, LeaveCreate(key, s.current))
    ensures WellFormed(c, Apply(c, s2, LeaveCreate(key, s.current)))
    ensures Apply(c, s2, LeaveCreate(key, s.current)).stack == s.stack
  {
    assert Front(s2.stack) == s.stack && Last(s2.stack) == Creating(key);
  }

  /** A completed resolution, between entering and leaving. */
  lemma ResolutionContinues(c: Config, s: Engine, key: Hash, s2: Engine)
    requires Ready(c, s, EnterResolve(key))
    requires s.current.Some? && (s.stack == [] ==> s.current == Some(key))
    requires Continues(c, Apply(c, s, EnterResolve(key)), Done(s2))
    ensures Ready(c, s2, LeaveResolve(key, s.current.value))
    ensures Continues(c, s, Done(Apply(c, s2, LeaveResolve(key, s.current.value))))
  {
    var s1 := Apply(c, s, EnterResolve(key));
    assert Advances(s1.items[key], s2.items[key]);
    ResolutionLeaves(c, s, key, s2);
    forall k | k in s.items
      ensures var r := Apply(c, s2, LeaveResolve(key, s.current.value));
              Advances(s.items[k], r.items[k]) && r.items[k].callstack == s.items[k].callstack
    {
      ResolutionAdvances(s.items, s1.items, s2.items, key, s.current.value, k);
    }
  }

  lemma ResolutionAdvances(items: map<Hash, Work>, items1: map<Hash, Work>, items2: map<Hash, Work>, key: Hash,
                           previous: Hash, k: Hash)
    requires key in items && k in items && previous in items && items2.Keys == items.Keys
    requires items1 == items[key := items[key].(state := RESOLVED)] && items[key].state == CREATED
    requires forall j :: j in items ==> Advances(items1[j], items2[j]) && items2[j].callstack == items1[j].callstack
    ensures var r := items2[previous := DoIntersection(items2[previous], items2[key].iov)];
            Advances(items[k], r[k]) && r[k].callstack == items[k].callstack
  {
    assert Advances(items1[k], items2[k]);
  }

  lemma ResolutionLeaves(c: Config, s: Engine, key: Hash, s2: Engine)
    requires Ready(c, s, EnterResolve(key))
    requires s.current.Some? && (s.stack == [] ==> s.current == Some(key))
    requires WellFormed(c, s2) && s2.items.Keys == s.items.Keys && s2.items[key].state == RESOLVED
    requires s2.stack == s.stack + [Resolving(key)]
    ensures Ready(c, s2, LeaveResolve(key, s.current.value))
    ensures WellFormed(c, Apply(c, s2, LeaveResolve(key, s.current.value)))
    ensures Apply(c, s2, LeaveResolve(key, s.current.value)).stack == s.stack
  {
    assert Front(s2.stack) == s.stack && Last(s2.stack) == Resolving(key);
  }

  lemma EnteringShrinks(c: Config, s: Engine, key: Hash)
    ensures Ready(c, s, EnterCreate(key)) ==>
              var s1 := Apply(c, s, EnterCreate(key));
              WellFormed(c, s1) && Grows(s, s1) && Fresh(s1) < Fresh(s)
    ensures Ready(c, s, EnterResolve(key)) ==>
              var s1 := Apply(c, s, EnterResolve(key));
              WellFormed(c, s1) && Grows(s, s1) && Fresh(s1) <= Fresh(s) && Pending(s1) < Pending(s)
  {
    if Ready(c, s, EnterCreate(key)) {
      var s1 := Apply(c, s, EnterCreate(key));
      assert key in Fresh(s) && key !in Fresh(s1);
    }
    if Ready(c, s, EnterResolve(key)) {
      var s1 := Apply(c, s, EnterResolve(key));
      assert key in Pending(s) && key !in Pending(s1);
    }
  }

  /** `ConditionsDependencyHandler::get`. */
  function Get(c: Config, s: Engine, key: Hash, required: bool): (r: Outcome)
    requires WellFormed(c, s) && s.stack != []
    ensures Continues(c, s, r)
    ensures r.Done? ==> Answered(c, r.s, s.current.value, Single(key, false, required), s.items[s.current.value].iovSet)
    ensures r.Done? && key !in c.pool && key in c.deps ==> Got(c, r.s, s.current.value, key, s.items[s.current.value].iovSet)
    ensures r.Done? && key in c.pool ==> r.s.items[s.current.value].iovSet
    ensures key !in c.pool && key in s.items && s.items[key].state == RESOLVED ==> r.Done? && r.s.items == s.items
    ensures key !in c.pool && key !in s.items ==> r == if required then Thrown(s, MissingCondition) else Done(s)
    decreases Fresh(s), Pending(s), 0, 1
  {
    if key in c.pool then Done(Apply(c, s, FromPool(key)))
    else if key in s.items then
      if s.items[key].state == RESOLVED then Done(Apply(c, s, FromResolved(key)))
      else if s.items[key].state == CREATED then Resolve(c, s, key)
      else CreateAndResolve(c, s, key)
    else if required then Thrown(s, MissingCondition)
    else Done(s)
  }

  /** The `INVALID` branch of `get`. After the callback the item is always `CREATED`, so the
      early return for cross-dependencies is never taken. */
  function CreateAndResolve(c: Config, s: Engine, key: Hash): (r: Outcome)
    requires WellFormed(c, s) && s.stack != [] && key in s.items && s.items[key].state == INVALID
    ensures Continues(c, s, r)
    ensures r.Done? ==> r.s.items[key].state == RESOLVED && ReadThrough(s.current.value, key) in r.s.log
    decreases Fresh(s), Pending(s), 0, 0, 1
  {
    var r := Create(c, s, key);
    if r.Thrown? then r
    else
      assert Fresh(r.s) <= Fresh(s) && Pending(r.s) <= Pending(s);
      assert key in Fresh(s) && key !in Fresh(r.s);
      var t := Resolve(c, r.s, key);
      GrowsIsTransitive(s, r.s, t.s);
      t
  }

  /** What a callback without result leaves behind. */
  function Abort(s: Engine, key: Hash, previous: Option<Hash>): Engine
    requires key in s.items && s.items[key].callstack > 0
  {
    s.(items := s.items[key := s.items[key].(callstack := s.items[key].callstack - 1)], current := previous)
  }

  lemma AbortGrows(c: Config, s: Engine, s2: Engine, key: Hash)
    requires Ready(c, s, EnterCreate(key)) && Grows(s, s2) && s2.items[key].callstack > 0
    ensures Grows(s, Abort(s2, key, s.current))
  {
  }

  /** `ConditionsDependencyHandler::do_callback`. */
  function Create(c: Config, s: Engine, key: Hash): (r: Outcome)
    requires WellFormed(c, s) && key in s.items && s.items[key].state == INVALID
    requires s.stack == [] ==> s.current == None
    ensures Continues(c, s, r)
    ensures r.Done? ==> s.items[key].callstack == 0 && r.s.items[key].state == CREATED
    ensures s.items[key].callstack > 0 ==> r.Thrown? && r.error == InfiniteRecursion && r.s.items == s.items
    decreases Fresh(s), Pending(s), 0, 0, 0
  {
    if s.items[key].callstack > 0 then Thrown(s.(current := Some(key)), InfiniteRecursion)
    else
      EnteringShrinks(c, s, key);
      var s1 := Apply(c, s, EnterCreate(key));
      var r := RunAll(c, s1, c.deps[key].create);
      GrowsIsTransitive(s, s1, r.s);
      if r.Thrown? then r
      else if !c.deps[key].succeeds then
        assert r.s.items[key].callstack == s1.items[key].callstack;
        AbortGrows(c, s, r.s, key);
        Thrown(Abort(r.s, key, s.current), InvalidCallback)
      else
        CreationContinues(c, s, key, r.s);
        Done(Apply(c, r.s, LeaveCreate(key, s.current)))
  }

  /** `ConditionsDependencyHandler::Work::resolve`. */
  function Resolve(c: Config, s: Engine, key: Hash): (r: Outcome)
    requires WellFormed(c, s) && key in s.items && s.items[key].state == CREATED
    requires s.current.Some? && (s.stack == [] ==> s.current == Some(key))
    ensures Continues(c, s, r)
    ensures r.Done? && s.stack != [] ==> ReadThrough(s.current.value, key) in r.s.log
    ensures r.Done? ==> r.s.items[key].state == RESOLVED
    decreases Fresh(s), Pending(s), 0, 0, 0
  {
    EnteringShrinks(c, s, key);
    var s1 := Apply(c, s, EnterResolve(key));
    var r := RunAll(c, s1, c.deps[key].resolve);
    GrowsIsTransitive(s, s1, r.s);
    if r.Thrown? then r
    else
      ResolutionContinues(c, s, key, r.s);
      Done(Apply(c, r.s, LeaveResolve(key, s.current.value)))
  }

  // One step of each loop and call, for the in-place form.

  lemma NarrowFirst(c: Config, s: Engine, found: seq<Iov>)
    requires WellFormed(c, s) && s.stack != [] && found != []
    ensures var t := Apply(c, s, Narrow(found[0]));
            WellFormed(c, t) && t.stack != [] && NarrowAll(c, s, found) == NarrowAll(c, t, found[1..])
  {
  }

  lemma LimitFirst(c: Config, s: Engine, found: seq<Iov>)
    requires WellFormed(c, s) && s.stack != [] && found != []
    ensures var t := Apply(c, s, LimitBulk(found[0]));
            WellFormed(c, t) && t.stack != [] && LimitAll(c, s, found) == LimitAll(c, t, found[1..])
  {
  }

  lemma CreateUnfolds(c: Config, s: Engine, key: Hash)
    requires WellFormed(c, s) && key in s.items && s.items[key].state == INVALID && s.items[key].callstack == 0
    requires s.stack == [] ==> s.current == None
    ensures var s1 := Apply(c, s, EnterCreate(key));
            WellFormed(c, s1) && s1.stack != [] && Fresh(s1) < Fresh(s) && s1.items[key].callstack == 1
    ensures var r := RunAll(c, Apply(c, s, EnterCreate(key)), c.deps[key].create);
            if r.Thrown? then Create(c, s, key) == r
            else
              && key in r.s.items && r.s.items[key].callstack == 1
              && Ready(c, r.s, LeaveCreate(key, s.current))
              && Create(c, s, key) ==
                   if c.deps[key].succeeds then Done(Apply(c, r.s, LeaveCreate(key, s.current)))
                   else Thrown(Abort(r.s, key, s.current), InvalidCallback)
  {
    EnteringShrinks(c, s, key);
    var s1 := Apply(c, s, EnterCreate(key));
    assert s1.items[key].callstack == 1;
    var r := RunAll(c, s1, c.deps[key].create);
    if r.Done? {
      CreationLeaves(c, s, key, r.s);
    }
  }

  lemma ResolveUnfolds(c: Config, s: Engine, key: Hash)
    requires WellFormed(c, s) && key in s.items && s.items[key].state == CREATED
    requires s.current.Some? && (s.stack == [] ==> s.current == Some(key))
    ensures var s1 := BeforeResolve(s, key);
            WellFormed(c, s1) && s1.stack != [] && Fresh(s1) == Fresh(s) && Pending(s1) < Pending(s)
    ensures var r := RunAll(c, BeforeResolve(s, key), c.deps[key].resolve);
            if r.Thrown? then Resolve(c, s, key) == r
            else
              && key in r.s.items && s.current.value in r.s.items && r.s.stack != []
              && Resolve(c, s, key) == Done(AfterResolve(r.s, key, s.current.value))
  {
    EnteringShrinks(c, s, key);
    assert Fresh(s) <= Fresh(BeforeResolve(s, key));
    var r := RunAll(c, Apply(c, s, EnterResolve(key)), c.deps[key].resolve);
    if r.Done? {
      ResolutionContinues(c, s, key, r.s);
    }
  }

  /** First pass, over the keys still to do. */
  function ComputeFrom(c: Config, s: Engine, keys: seq<Hash>): (r: Outcome)
    requires WellFormed(c, s) && s.stack == [] && s.current == None
    requires forall k :: k in keys ==> k in s.items
    ensures Continues(c, s, r)
    ensures r.Done? ==> forall k :: k in keys ==> r.s.items[k].state != INVALID
    decreases keys
  {
    if keys == [] then Done(s)
    else if s.items[keys[0]].condition then ComputeFrom(c, s, keys[1..])
    else
      var r := Create(c, s, keys[0]);
      if r.Thrown? then r
      else
        var t := ComputeFrom(c, r.s, keys[1..]);
        GrowsIsTransitive(s, r.s, t.s);
        t
  }

  /** One item of the second pass. */
  function ResolveNext(c: Config, s: Engine, key: Hash): (r: Outcome)
    requires WellFormed(c, s) && s.stack == []
    requires key in s.items && s.items[key].state != INVALID
    ensures Grows(s, r.s)
    ensures r.Done? ==> WellFormed(c, r.s) && r.s.stack == [] && r.s.items[key].state == RESOLVED
    ensures r.Done? ==> forall k :: k in s.items ==> r.s.items[k].callstack == s.items[k].callstack
  {
    var s1 := Apply(c, s, Select(key));
    if s1.items[key].state == RESOLVED then Done(s1) else Resolve(c, s1, key)
  }

  /** Second pass, over the keys still to do. */
  function ResolveFrom(c: Config, s: Engine, keys: seq<Hash>): (r: Outcome)
    requires WellFormed(c, s) && s.stack == []
    requires forall k :: k in keys ==> k in s.items && s.items[k].state != INVALID
    ensures Grows(s, r.s)
    ensures r.Done? ==> WellFormed(c, r.s) && r.s.stack == []
    ensures r.Done? ==> forall k :: k in keys ==> r.s.items[k].state == RESOLVED
    decreases keys
  {
    if keys == [] then Done(s)
    else
      var r := ResolveNext(c, s, keys[0]);
      if r.Thrown? then r
      else
        var t := ResolveFrom(c, r.s, keys[1..]);
        GrowsIsTransitive(s, r.s, t.s);
        t
  }

  lemma ComputeFirst(c: Config, s: Engine, keys: seq<Hash>)
    requires WellFormed(c, s) && s.stack == [] && s.current == None
    requires keys != [] && forall k :: k in keys ==> k in s.items
    ensures ComputeFrom(c, s, keys) ==
      if s.items[keys[0]].condition then ComputeFrom(c, s, keys[1..])
      else if Create(c, s, keys[0]).Thrown? then Create(c, s, keys[0])
      else ComputeFrom(c, Create(c, s, keys[0]).s, keys[1..])
  {
  }

  lemma ResolveFirst(c: Config, s: Engine, keys: seq<Hash>)
    requires WellFormed(c, s) && s.stack == [] && keys != []
    requires forall k :: k in keys ==> k in s.items && s.items[k].state != INVALID
    ensures var r := ResolveNext(c, s, keys[0]);
            ResolveFrom(c, s, keys) == if r.Thrown? then r else ResolveFrom(c, r.s, keys[1..])
  {
  }

  /** `order` lists every work item once: the table is an ordered map. */
  predicate Lists(c: Config, order: seq<Hash>) {
    && Distinct(order)
    && (forall k :: k in order ==> k in c.deps)
    && (forall k :: k in c.deps ==> k in order)
  }

  /** A whole run: `compute()` and then `resolve()`. */
  function Run(c: Config, order: seq<Hash>): (r: Outcome)
    requires Lists(c, order)
    ensures r.Done? ==> WellFormed(c, r.s) && r.s.stack == []
    ensures r.Done? ==> forall k :: k in c.deps ==> r.s.items[k].state == RESOLVED
  {
    var r := ComputeFrom(c, Initial(c), order);
    if r.Thrown? then r else ResolveFrom(c, Apply(c, r.s, StartResolve), order)
  }
}
