/**
 The engine in place: work items are objects, and the handler and the update context
 change them (DDCond/src/ConditionsDependencyHandler.cpp, DDCore/src/ConditionDerived.cpp).
 Each method leaves the state `DependencyEngine` gives, also when it throws.
 */
module DependencyHandler {
  import opened Validity
  import opened Wrappers
  import E = DependencyEngine
  import B = DependencyBlocks
  import I = DependencyInvariants
  import T = DependencyTheorems
  import N = DependencyNarrowing

  type Hash = E.Hash

  class Work {
    const target: Hash
    var iov: Iov
    var iovSet: bool
    var condition: bool
    var callstack: nat
    var state: E.State

    ghost function View(): E.Work
      reads this
    {
      E.Work(state, callstack, iov, iovSet, condition)
    }

    constructor (target: Hash, validity: Iov)
      ensures this.target == target && View() == E.Work(E.INVALID, 0, validity, false, false)
    {
      this.target := target;
      iov, iovSet, condition, callstack, state := validity, false, false, 0, E.INVALID;
    }

    /** The creation callback has returned a condition. */
    method Finish(typed: bool)
      requires callstack > 0
      modifies this
      ensures View() == E.Finish(old(View()), typed)
    {
      condition := true;
      callstack := callstack - 1;
      if !iovSet {
        iov := Iov(typed, FOREVER);
        iovSet := true;
      }
      state := E.CREATED;
    }

    method DoIntersection(v: Iov)
      modifies this`iov, this`iovSet
      ensures View() == E.DoIntersection(old(View()), v)
    {
      if !iovSet {
        iov := v;
        iovSet := true;
      } else {
        iov := Intersection(iov, v);
      }
    }
  }

  class Handler {
    const config: E.Config
    const order: seq<Hash>
    const todo: map<Hash, Work>
    var currentWork: Work?
    var mode: E.State
    var numCallback: nat
    ghost var stack: seq<E.Frame>
    ghost var log: seq<E.Event>

    /** Every work item is filed under its own key. */
    ghost predicate Shape()
      reads `currentWork
    {
      && E.Lists(config, order) && todo.Keys == config.deps.Keys
      && (forall k :: k in todo ==> todo[k].target == k)
      && (currentWork != null ==> currentWork.target in todo && todo[currentWork.target] == currentWork)
    }

    ghost function Items(): map<Hash, E.Work>
      reads todo.Values
    {
      map k | k in todo :: todo[k].View()
    }

    ghost function Abs(): E.Engine
      reads this, todo.Values
    {
      E.Engine(Items(), if currentWork == null then None else Some(currentWork.target), mode, numCallback, stack, log)
    }

    ghost predicate Ends(r: E.Outcome, error: Option<E.Error>)
      reads this, todo.Values
    {
      Abs() == r.s && error == (if r.Done? then None else Some(r.error))
    }

    constructor (config: E.Config, order: seq<Hash>)
      requires E.Lists(config, order)
      ensures Shape() && this.config == config && this.order == order && fresh(todo.Values)
      ensures Abs() == E.Initial(config)
    {
      var t: map<Hash, Work> := map[];
      for i := 0 to |order|
        invariant forall k :: k in t <==> k in order[..i]
        invariant forall k :: k in t ==>
          fresh(t[k]) && t[k].target == k && t[k].View() == E.Work(E.INVALID, 0, config.validity, false, false)
      {
        var w := new Work(order[i], config.validity);
        t := t[order[i] := w];
      }
      this.config, this.order, todo := config, order, t;
      currentWork, mode, numCallback, stack, log := null, E.CREATED, 0, [], [];
    }

    /** Serves the accesses of one callback. */
    method Callback(accesses: seq<E.Access>) returns (error: Option<E.Error>)
      requires Shape() && E.WellFormed(config, Abs()) && stack != []
      modifies this, todo.Values
      ensures Shape() && Ends(E.RunAll(config, old(Abs()), accesses), error)
      decreases E.Fresh(Abs()), E.Pending(Abs()), |accesses|, 1
    {
      ghost var s0 := Abs();
      ghost var goal := E.RunAll(config, s0, accesses);
      var i := 0;
      while i < |accesses|
        invariant 0 <= i <= |accesses|
        invariant Shape() && E.WellFormed(config, Abs()) && stack != []
        invariant E.Fresh(Abs()) <= E.Fresh(s0) && E.Pending(Abs()) <= E.Pending(s0)
        invariant E.RunAll(config, Abs(), accesses[i..]) == goal
      {
        ghost var s := Abs();
        assert accesses[i..][0] == accesses[i] && accesses[i..][1..] == accesses[i + 1..];
        NotMore(E.Fresh(s), E.Fresh(s0));
        NotMore(E.Pending(s), E.Pending(s0));
        error := Access(accesses[i]);
        if error.Some? {
          return;
        }
        i := i + 1;
      }
      error := None;
    }

    /** The accessors of the update context, or the resolver used directly. */
    method Access(a: E.Access) returns (error: Option<E.Error>)
      requires Shape() && E.WellFormed(config, Abs()) && stack != []
      modifies this, todo.Values
      ensures Shape() && Ends(E.Visit(config, old(Abs()), a), error)
      ensures a.Single? && !a.limits && a.key !in config.pool && a.key in todo && old(todo[a.key].state) == E.RESOLVED ==>
                error == None && forall k :: k in todo ==> todo[k].View() == old(todo[k].View())
      decreases E.Fresh(Abs()), E.Pending(Abs()), 0, 4
    {
      match a
      case Bulk(found, limits) =>
        if mode != E.RESOLVED {
          return Some(E.BulkBeforeResolve);
        }
        NarrowAll(found);
        if limits {
          LimitAll(found);
        }
        return None;
      case Single(key, limits, required) =>
        error := Get(key, required);
        if error == None && limits && (key in config.pool || key in todo) {
          LimitBy(key);
        }
    }

    // The elementary changes.

    /** Nothing but `work` has changed. */
    twostate lemma OneChanged(work: Work)
      requires Shape() && work.target in todo && todo[work.target] == work
      requires forall k :: k in todo && k != work.target ==> todo[k].View() == old(todo[k].View())
      ensures Items() == old(Items())[work.target := work.View()]
    {
    }

    twostate lemma NoneChanged()
      requires forall k :: k in todo ==> todo[k].View() == old(todo[k].View())
      ensures Items() == old(Items())
    {
    }

    method NarrowCurrent(v: Iov)
      requires Shape() && E.WellFormed(config, Abs()) && stack != []
      modifies this`log, todo.Values
      ensures Shape() && Abs() == E.Apply(config, old(Abs()), E.Narrow(v))
    {
      currentWork.DoIntersection(v);
      log := log + [E.ReadBulk(currentWork.target, v)];
      OneChanged(currentWork);
    }

    method LimitCurrent(v: Iov)
      requires Shape() && E.WellFormed(config, Abs()) && stack != []
      modifies todo.Values
      ensures Shape() && Abs() == E.Apply(config, old(Abs()), E.LimitBulk(v))
    {
      currentWork.iov := Intersection(currentWork.iov, v);
      OneChanged(currentWork);
    }

    method ReadPool(key: Hash)
      requires Shape() && E.WellFormed(config, Abs()) && stack != [] && key in config.pool
      modifies this`log, todo.Values
      ensures Shape() && Abs() == E.Apply(config, old(Abs()), E.FromPool(key))
    {
      PassOn(currentWork, config.pool[key]);
      log := log + [E.ReadPool(currentWork.target, key)];
    }

    /** A resolved condition is returned as it is. */
    ghost method ReadResolved(key: Hash)
      requires Shape() && E.WellFormed(config, Abs()) && stack != [] && key in todo && todo[key].state == E.RESOLVED
      modifies this`log
      ensures Shape() && Abs() == E.Apply(config, old(Abs()), E.FromResolved(key))
    {
      var reader := currentWork.target;
      log := log + [E.Found(config, Abs(), reader, key)];
    }

    method LimitBy(key: Hash)
      requires Shape() && E.WellFormed(config, Abs()) && stack != [] && (key in config.pool || key in todo)
      modifies this`log, todo.Values
      ensures Shape() && Abs() == E.Apply(config, old(Abs()), E.Limit(key))
    {
      log := log + E.LimitEvents(config, Abs(), currentWork.target, key);
      var v := if key in config.pool then config.pool[key] else todo[key].iov;
      currentWork.iov := Intersection(currentWork.iov, v);
      OneChanged(currentWork);
    }

    method Enter(work: Work)
      requires Shape() && E.WellFormed(config, Abs())
      requires work.target in todo && todo[work.target] == work && work.state == E.INVALID && work.callstack == 0
      modifies this, work
      ensures Shape() && Abs() == E.Apply(config, old(Abs()), E.EnterCreate(work.target))
    {
      currentWork := work;
      work.callstack := work.callstack + 1;
      stack, log := stack + [E.Creating(work.target)], log + [E.CreateBegin(work.target)];
      OneChanged(work);
    }

    method Leave(work: Work, previous: Work?)
      requires Shape() && stack != [] && work.callstack > 0
      requires work.target in todo && todo[work.target] == work
      requires previous != null ==> previous.target in todo && todo[previous.target] == previous
      modifies this, todo.Values
      ensures Shape()
      ensures Abs() == E.AfterCreate(config, old(Abs()), work.target, if previous == null then None else Some(previous.target))
    {
      FinishAndPassOn(work, previous);
      Count(work, previous);
    }

    method Count(work: Work, previous: Work?)
      requires Shape() && stack != [] && (previous != null ==> previous.target in todo && todo[previous.target] == previous)
      modifies this
      ensures Shape()
      ensures Abs() == old(Abs()).(current := if previous == null then None else Some(previous.target),
                                   numCallback := old(numCallback) + 1, stack := Front(old(stack)),
                                   log := old(log) +
                                          E.EndEvents(work.target, if previous == null then None else Some(previous.target)))
    {
      currentWork := previous;
      numCallback := numCallback + 1;
      stack := Front(stack);
      log := log + E.EndEvents(work.target, if previous == null then None else Some(previous.target));
      NoneChanged();
    }

    method FinishAndPassOn(work: Work, previous: Work?)
      requires Shape() && work.target in todo && todo[work.target] == work && work.callstack > 0
      requires previous != null ==> previous.target in todo && todo[previous.target] == previous
      modifies todo.Values
      ensures Items() == E.FinishIn(old(Items()), work.target,
                                    if previous == null then None else Some(previous.target), config.validity.typed)
    {
      FinishItem(work);
      PassOn(previous, work.iov);
    }

    method FinishItem(work: Work)
      requires Shape() && work.target in todo && todo[work.target] == work && work.callstack > 0
      modifies work
      ensures Items() == old(Items())[work.target := E.Finish(old(Items())[work.target], config.validity.typed)]
      ensures work.iov == Items()[work.target].iov
    {
      work.Finish(config.validity.typed);
      OneChanged(work);
    }

    method PassOn(previous: Work?, v: Iov)
      requires Shape() && (previous != null ==> previous.target in todo && todo[previous.target] == previous)
      modifies todo.Values
      ensures Items() ==
        if previous == null then old(Items())
        else old(Items())[previous.target := E.DoIntersection(old(Items())[previous.target], v)]
    {
      if previous != null {
        previous.DoIntersection(v);
        OneChanged(previous);
      }
    }

    method Abort(work: Work, previous: Work?)
      requires Shape() && work.target in todo && todo[work.target] == work && work.callstack > 0
      requires previous != null ==> previous.target in todo && todo[previous.target] == previous
      modifies this, work
      ensures Shape()
      ensures Abs() == E.Abort(old(Abs()), work.target, if previous == null then None else Some(previous.target))
    {
      work.callstack := work.callstack - 1;
      currentWork := previous;
      OneChanged(work);
    }

    method EnterResolution(work: Work)
      requires Shape() && work.target in todo && todo[work.target] == work
      modifies this, work
      ensures Shape() && Abs() == E.BeforeResolve(old(Abs()), work.target)
    {
      work.state := E.RESOLVED;
      currentWork := work;
      stack, log := stack + [E.Resolving(work.target)], log + [E.ResolveBegin(work.target)];
      OneChanged(work);
    }

    method LeaveResolution(work: Work, previous: Work)
      requires Shape() && work.target in todo && todo[work.target] == work && stack != []
      requires previous.target in todo && todo[previous.target] == previous
      modifies this, todo.Values
      ensures Shape() && Abs() == E.AfterResolve(old(Abs()), work.target, previous.target)
    {
      PassOn(previous, work.iov);
      label Passed:
      currentWork := previous;
      stack := Front(stack);
      log := log + [E.ResolveEnd(work.target)] + if stack != [] then [E.ReadThrough(previous.target, work.target)] else [];
      NoneChanged@Passed();
    }

    method NarrowAll(found: seq<Iov>)
      requires Shape() && E.WellFormed(config, Abs()) && stack != []
      modifies this`log, todo.Values
      ensures Shape() && Abs() == E.NarrowAll(config, old(Abs()), found)
    {
      ghost var s := Abs();
      for i := 0 to |found|
        invariant Shape() && Abs() == s && E.WellFormed(config, s) && s.stack != []
        invariant E.NarrowAll(config, s, found[i..]) == E.NarrowAll(config, old(Abs()), found)
      {
        assert found[i..][0] == found[i] && found[i..][1..] == found[i + 1..];
        E.NarrowFirst(config, s, found[i..]);
        NarrowCurrent(found[i]);
        s := E.Apply(config, s, E.Narrow(found[i]));
      }
    }

    method LimitAll(found: seq<Iov>)
      requires Shape() && E.WellFormed(config, Abs()) && stack != []
      modifies todo.Values
      ensures Shape() && Abs() == E.LimitAll(config, old(Abs()), found)
    {
      ghost var s := Abs();
      for i := 0 to |found|
        invariant Shape() && Abs() == s && E.WellFormed(config, s) && s.stack != []
        invariant E.LimitAll(config, s, found[i..]) == E.LimitAll(config, old(Abs()), found)
      {
        assert found[i..][0] == found[i] && found[i..][1..] == found[i + 1..];
        E.LimitFirst(config, s, found[i..]);
        LimitCurrent(found[i]);
        s := E.Apply(config, s, E.LimitBulk(found[i]));
      }
    }

    method Get(key: Hash, required: bool) returns (error: Option<E.Error>)
      requires Shape() && E.WellFormed(config, Abs()) && stack != []
      modifies this, todo.Values
      ensures Shape() && Ends(E.Get(config, old(Abs()), key, required), error)
      ensures key !in config.pool && key in todo && old(todo[key].state) == E.RESOLVED ==>
                error == None && forall k :: k in todo ==> todo[k].View() == old(todo[k].View())
      decreases E.Fresh(Abs()), E.Pending(Abs()), 0, 3
    {
      if key in config.pool {
        ReadPool(key);
        return None;
      }
      if key in todo {
        var w := todo[key];
        if w.state == E.RESOLVED {
          ReadResolved(key);
          return None;
        } else if w.state == E.CREATED {
          error := Resolve(w);
          return;
        } else {
          error := CreateAndResolve(w);
          return;
        }
      }
      return if required then Some(E.MissingCondition) else None;
    }

    /** The `INVALID` branch of `get`. */
    method CreateAndResolve(work: Work) returns (error: Option<E.Error>)
      requires Shape() && E.WellFormed(config, Abs()) && stack != []
      requires work.target in todo && todo[work.target] == work && work.state == E.INVALID
      modifies this, todo.Values
      ensures Shape() && Ends(E.CreateAndResolve(config, old(Abs()), work.target), error)
      decreases E.Fresh(Abs()), E.Pending(Abs()), 0, 2
    {
      ghost var s := Abs();
      error := DoCallback(work);
      if error == None {
        assert E.Fresh(Abs()) < E.Fresh(s) by {
          assert work.target in E.Fresh(s) && work.target !in E.Fresh(Abs());
        }
        error := Resolve(work);
      }
    }

    method DoCallback(work: Work) returns (error: Option<E.Error>)
      requires Shape() && E.WellFormed(config, Abs())
      requires work.target in todo && todo[work.target] == work && work.state == E.INVALID
      requires stack == [] ==> currentWork == null
      modifies this, todo.Values
      ensures Shape() && Ends(E.Create(config, old(Abs()), work.target), error)
      decreases E.Fresh(Abs()), E.Pending(Abs()), 0, 1
    {
      ghost var s := Abs();
      var previous := currentWork;
      if work.callstack > 0 {
        currentWork := work;
        assert Items() == s.items;
        return Some(E.InfiniteRecursion);
      }
      E.CreateUnfolds(config, s, work.target);
      Enter(work);
      error := Callback(config.deps[work.target].create);
      if error.Some? {
        return;
      }
      if !config.deps[work.target].succeeds {
        Abort(work, previous);
        return Some(E.InvalidCallback);
      }
      Leave(work, previous);
    }

    method Resolve(work: Work) returns (error: Option<E.Error>)
      requires Shape() && E.WellFormed(config, Abs())
      requires work.target in todo && todo[work.target] == work && work.state == E.CREATED
      requires currentWork != null && (stack == [] ==> currentWork == work)
      modifies this, todo.Values
      ensures Shape() && Ends(E.Resolve(config, old(Abs()), work.target), error)
      decreases E.Fresh(Abs()), E.Pending(Abs()), 0, 1
    {
      ghost var s := Abs();
      var previous := currentWork;
      E.ResolveUnfolds(config, s, work.target);
      EnterResolution(work);
      error := Callback(config.deps[work.target].resolve);
      if error == None {
        LeaveResolution(work, previous);
      }
    }

    /** First pass: create what is missing. */
    method Compute() returns (error: Option<E.Error>)
      requires Shape() && E.WellFormed(config, Abs()) && stack == [] && currentWork == null
      modifies this, todo.Values
      ensures Shape() && Ends(E.ComputeFrom(config, old(Abs()), order), error)
    {
      ghost var s := Abs();
      for i := 0 to |order|
        invariant Shape() && Abs() == s && E.WellFormed(config, s) && s.stack == [] && s.current == None
        invariant E.ComputeFrom(config, s, order[i..]) == E.ComputeFrom(config, old(Abs()), order)
      {
        assert order[i..][0] == order[i] && order[i..][1..] == order[i + 1..];
        E.ComputeFirst(config, s, order[i..]);
        var w := todo[order[i]];
        if !w.condition {
          error := DoCallback(w);
          if error.Some? {
            return;
          }
          s := Abs();
        }
      }
      error := None;
    }

    /** One item of the second pass. */
    method ResolveNext(work: Work) returns (error: Option<E.Error>)
      requires Shape() && E.WellFormed(config, Abs()) && stack == []
      requires work.target in todo && todo[work.target] == work && work.state != E.INVALID
      modifies this, todo.Values
      ensures Shape() && Ends(E.ResolveNext(config, old(Abs()), work.target), error)
    {
      ghost var s := Abs();
      currentWork := work;
      assert Abs() == E.Apply(config, s, E.Select(work.target));
      if work.state != E.RESOLVED {
        error := Resolve(work);
      } else {
        error := None;
      }
    }

    /** Second pass: resolve what has been created, then register it in one block per validity. */
    method ResolveAll() returns (error: Option<E.Error>, pools: B.Blocks)
      requires Shape() && E.WellFormed(config, Abs()) && stack == []
      requires forall k :: k in todo ==> todo[k].state != E.INVALID && todo[k].callstack == 0
      modifies this, todo.Values
      ensures Shape() && Ends(E.ResolveFrom(config, E.Apply(config, old(Abs()), E.StartResolve), order), error)
      ensures error == None ==> pools == B.BlocksOf(Items(), order)
    {
      ghost var goal := StartResolving();
      error, pools := ResolvePass(goal);
      if error == None {
        pools := Register(goal, pools);
      }
    }

    method StartResolving() returns (ghost goal: E.Outcome)
      requires Shape() && E.WellFormed(config, Abs()) && stack == []
      requires forall k :: k in todo ==> todo[k].state != E.INVALID && todo[k].callstack == 0
      modifies this`mode
      ensures goal == E.ResolveFrom(config, E.Apply(config, old(Abs()), E.StartResolve), order)
      ensures Passing(0, goal, map[])
    {
      ghost var s := Abs();
      assert forall k :: k in todo ==> s.items[k] == todo[k].View();
      StartPass(config, s, order);
      mode := E.RESOLVED;
      NoneChanged();
      assert Abs() == E.Apply(config, s, E.StartResolve);
      goal := E.ResolveFrom(config, Abs(), order);
    }

    /** `i` items of the second pass are done, of which the whole gives `goal`. */
    ghost predicate Passing(i: nat, goal: E.Outcome, pools: B.Blocks)
      reads this, todo.Values
    {
      && Shape() && InPass(config, Abs(), order, i)
      && E.ResolveFrom(config, Abs(), order[i..]) == goal
      && Empty(pools, Items(), order[..i])
    }

    method ResolvePass(ghost goal: E.Outcome) returns (error: Option<E.Error>, pools: B.Blocks)
      requires Passing(0, goal, map[])
      modifies this, todo.Values
      ensures Shape() && (error.Some? ==> Ends(goal, error))
      ensures error == None ==> Passing(|order|, goal, pools)
    {
      pools, error := map[], None;
      for i := 0 to |order|
        invariant Passing(i, goal, pools) && error == None
      {
        error, pools := PassItem(i, goal, pools);
        if error.Some? {
          return;
        }
      }
    }

    method PassItem(i: nat, ghost goal: E.Outcome, before: B.Blocks) returns (error: Option<E.Error>, pools: B.Blocks)
      requires i < |order| && Passing(i, goal, before)
      modifies this, todo.Values
      ensures Shape() && (error.Some? ==> Ends(goal, error))
      ensures error == None ==> Passing(i + 1, goal, pools)
    {
      var w := todo[order[i]];
      NextInPass(config, Abs(), order, i);
      EmptyNext(config, Abs(), order, i, before);
      error := ResolveNext(w);
      pools := WithBlock(before, w.iov.key);
    }

    /** Puts every condition into the block of its validity. */
    method Register(ghost goal: E.Outcome, empty: B.Blocks) returns (pools: B.Blocks)
      requires Passing(|order|, goal, empty)
      ensures goal == E.Done(Abs()) && pools == B.BlocksOf(Items(), order)
    {
      PassEnds(config, Abs(), order, goal);
      assert order[..|order|] == order;
      ghost var items := Items();
      pools := empty;
      for i := 0 to |order|
        invariant Filling(items, order, i, pools)
      {
        var w := todo[order[i]];
        assert items[order[i]] == w.View();
        FillNext(items, order, i, pools);
        pools := pools[w.iov.key := pools[w.iov.key] + [w.target]];
      }
      Filled(items, order, pools);
    }
  }

  /** Every derived condition is registered once, in the block of its final validity. */
  ghost predicate Registered(config: E.Config, s: E.Engine, callbacks: nat, pools: B.Blocks) {
    && callbacks == |config.deps| && B.Size(pools) == |config.deps|
    && forall k :: k in config.deps ==> k in s.items && B.Filed(pools, s.items, k)
  }

  /** Both passes over a fresh handler, as the user pool runs them. */
  method Derive(config: E.Config, order: seq<Hash>) returns (error: Option<E.Error>, callbacks: nat, pools: B.Blocks)
    requires E.Lists(config, order)
    ensures error == var r := E.Run(config, order); if r.Done? then None else Some(r.error)
    ensures error == None ==> Registered(config, E.Run(config, order).s, callbacks, pools)
  {
    var handler := new Handler(config, order);
    error := handler.Compute();
    if error.Some? {
      return error, 0, map[];
    }
    ghost var s := handler.Abs();
    ReadyToResolve(config, order);
    assert forall k :: k in handler.todo ==> s.items[k] == handler.todo[k].View();
    error, pools := handler.ResolveAll();
    callbacks := handler.numCallback;
    if error == None {
      RunRegisters(config, order, handler.Abs(), pools);
    }
  }

  lemma RunRegisters(config: E.Config, order: seq<Hash>, s: E.Engine, pools: B.Blocks)
    requires E.Lists(config, order) && E.Run(config, order) == E.Done(s)
    requires (forall k :: k in order ==> k in s.items) && pools == B.BlocksOf(s.items, order)
    ensures Registered(config, s, s.numCallback, pools)
  {
    T.EachCallbackOnce(config, order);
    BlocksRegister(config, order, s, pools);
  }

  lemma BlocksRegister(config: E.Config, order: seq<Hash>, s: E.Engine, pools: B.Blocks)
    requires E.Lists(config, order) && s.numCallback == |config.deps|
    requires (forall k :: k in order ==> k in s.items) && pools == B.BlocksOf(s.items, order)
    ensures Registered(config, s, s.numCallback, pools)
  {
    B.BlocksPartition(s.items, order);
    OrderSize(config.deps.Keys, order);
    assert |config.deps.Keys| == |config.deps|;
  }

  lemma ReadyToResolve(config: E.Config, order: seq<Hash>)
    requires E.Lists(config, order) && E.ComputeFrom(config, E.Initial(config), order).Done?
    ensures var s := E.ComputeFrom(config, E.Initial(config), order).s;
            && E.Run(config, order) == E.ResolveFrom(config, E.Apply(config, s, E.StartResolve), order)
            && forall k :: k in s.items ==> s.items[k].state != E.INVALID && s.items[k].callstack == 0
  {
  }

  lemma {:induction false} OrderSize(keys: set<Hash>, order: seq<Hash>)
    requires Distinct(order) && keys == set k | k in order
    ensures |order| == |keys|
    decreases order
  {
    if order != [] {
      assert order == Front(order) + [Last(order)];
      OrderSize(keys - {Last(order)}, Front(order));
    }
  }

  lemma NotMore(a: set<Hash>, b: set<Hash>)
    requires a <= b
    ensures a < b || a == b
  {
  }

  function WithBlock(pools: B.Blocks, v: Key): B.Blocks {
    if v in pools then pools else pools[v := []]
  }

  /** `i` items of the second pass are done. */
  ghost predicate InPass(c: E.Config, s: E.Engine, order: seq<Hash>, i: nat) {
    && E.Lists(c, order) && i <= |order|
    && E.WellFormed(c, s) && s.stack == [] && I.StackOk(c, s)
    && (forall k :: k in order ==> s.items[k].state != E.INVALID)
    && (forall j :: 0 <= j < i ==> E.Finished(s, order[j]))
  }

  lemma StartPass(c: E.Config, s: E.Engine, order: seq<Hash>)
    requires E.Lists(c, order) && E.WellFormed(c, s) && s.stack == []
    requires forall k :: k in s.items ==> s.items[k].state != E.INVALID && s.items[k].callstack == 0
    ensures InPass(c, E.Apply(c, s, E.StartResolve), order, 0)
    ensures order[0..] == order && order[..0] == [] && order[..|order|] == order
  {
  }

  lemma PassEnds(c: E.Config, s: E.Engine, order: seq<Hash>, goal: E.Outcome)
    requires InPass(c, s, order, |order|) && E.ResolveFrom(c, s, order[|order|..]) == goal
    ensures goal == E.Done(s)
  {
    assert order[|order|..] == [];
  }

  lemma NextInPass(c: E.Config, s: E.Engine, order: seq<Hash>, i: nat)
    requires InPass(c, s, order, i) && i < |order|
    ensures var r := E.ResolveNext(c, s, order[i]);
            && E.ResolveFrom(c, s, order[i..]) == (if r.Thrown? then r else E.ResolveFrom(c, r.s, order[i + 1..]))
            && (r.Done? ==> InPass(c, r.s, order, i + 1))
  {
    assert order[i..][0] == order[i] && order[i..][1..] == order[i + 1..];
    E.ResolveFirst(c, s, order[i..]);
    N.ResolveNextFixes(c, s, order[i]);
  }

  lemma OneMore(order: seq<Hash>, i: nat)
    requires i < |order|
    ensures order[..i + 1] == order[..i] + [order[i]]
  {
  }

  lemma AllFinished(c: E.Config, s: E.Engine, order: seq<Hash>, i: nat)
    requires InPass(c, s, order, i)
    ensures forall k :: k in order[..i] ==> E.Finished(s, k)
  {
  }

  lemma EmptyNext(c: E.Config, s: E.Engine, order: seq<Hash>, i: nat, pools: B.Blocks)
    requires InPass(c, s, order, i) && i < |order| && Empty(pools, s.items, order[..i])
    ensures var r := E.ResolveNext(c, s, order[i]);
            r.Done? ==> Empty(WithBlock(pools, r.s.items[order[i]].iov.key), r.s.items, order[..i + 1])
  {
    N.ResolveNextFixes(c, s, order[i]);
    OneMore(order, i);
    var r := E.ResolveNext(c, s, order[i]);
    if r.Done? {
      AllFinished(c, s, order, i);
      EmptyAfter(pools, s, r.s, order[..i], order[i]);
    }
  }

  ghost predicate Filling(items: map<Hash, E.Work>, order: seq<Hash>, i: nat, pools: B.Blocks) {
    && (forall k :: k in order ==> k in items) && i <= |order|
    && pools.Keys == Validities(items, order)
    && var b := B.BlocksOf(items, order[..i]);
       forall v :: v in pools ==> pools[v] == if v in b then b[v] else []
  }

  lemma FillNext(items: map<Hash, E.Work>, order: seq<Hash>, i: nat, pools: B.Blocks)
    requires Filling(items, order, i, pools) && i < |order|
    ensures var v := items[order[i]].iov.key;
            v in pools && Filling(items, order, i + 1, pools[v := pools[v] + [order[i]]])
  {
    OneMore(order, i);
    assert Front(order[..i + 1]) == order[..i];
    assert order[i] in order;
  }

  lemma Filled(items: map<Hash, E.Work>, order: seq<Hash>, pools: B.Blocks)
    requires Filling(items, order, |order|, pools)
    ensures pools == B.BlocksOf(items, order)
  {
    assert order[..|order|] == order;
    B.BlockKeys(items, order);
  }

  ghost function Validities(items: map<Hash, E.Work>, order: seq<Hash>): set<Key>
    requires forall k :: k in order ==> k in items
  {
    set k | k in order :: items[k].iov.key
  }

  /** The blocks before anything is put in. */
  ghost predicate Empty(pools: B.Blocks, items: map<Hash, E.Work>, order: seq<Hash>) {
    && (forall k :: k in order ==> k in items)
    && pools.Keys == Validities(items, order)
    && forall v :: v in pools ==> pools[v] == []
  }

  lemma EmptyAfter(pools: B.Blocks, s: E.Engine, t: E.Engine, order: seq<Hash>, k: Hash)
    requires I.Fixed(s, t) && (forall j :: j in order ==> E.Finished(s, j)) && k in t.items
    requires Empty(pools, s.items, order)
    ensures Empty(WithBlock(pools, t.items[k].iov.key), t.items, order + [k])
  {
    assert forall j :: j in order ==> t.items[j].iov == s.items[j].iov;
  }
}
