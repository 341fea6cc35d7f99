/** What later states of a run leave of earlier ones: finished items, and validities once set but for narrowing. */
module DependencyNarrowing {
  import opened Wrappers
  import opened DependencyEngine
  import opened DependencyRuns
  import opened DependencyInvariants

  /** `r` comes after `s`: finished items stay, and with typed validities those which are set only shrink. */
  ghost predicate Follows(c: Config, s: Engine, r: Engine) {
    Fixed(s, r) && (Typed(c) ==> Narrower(s, r))
  }

  ghost predicate InRun(c: Config, s: Engine) {
    StackOk(c, s) && (Typed(c) ==> AllTyped(s))
  }

  lemma InitiallyInRun(c: Config)
    ensures InRun(c, Initial(c))
  {
  }

  lemma FollowsSelf(c: Config, s: Engine)
    requires InRun(c, s)
    ensures Follows(c, s, s)
  {
  }

  lemma FollowsStep(c: Config, s: Engine, m: Step)
    requires Enabled(c, s, m) && InRun(c, s)
    ensures InRun(c, Apply(c, s, m)) && Follows(c, s, Apply(c, s, m))
  {
    StackStep(c, s, m);
    FixStep(c, s, m);
    if Typed(c) {
      TypeStep(c, s, m);
      NarrowStep(c, s, m);
    }
  }

  lemma FollowsIsTransitive(c: Config, s: Engine, t: Engine, r: Engine)
    requires Follows(c, s, t) && Follows(c, t, r)
    ensures Follows(c, s, r)
  {
    if Typed(c) {
      NarrowerIsTransitive(s, t, r);
    }
  }

  lemma FollowsStable(c: Config, s0: Engine)
    ensures Stable(c, s => InRun(c, s) && Follows(c, s0, s))
  {
    forall s, m | Enabled(c, s, m) && InRun(c, s) && Follows(c, s0, s)
      ensures InRun(c, Apply(c, s, m)) && Follows(c, s0, Apply(c, s, m))
    {
      FollowsStep(c, s, m);
      FollowsIsTransitive(c, s0, s, Apply(c, s, m));
    }
  }

  /** During any callback, validities which are set only shrink and finished ones stay. */
  lemma CallbackNarrows(c: Config, s: Engine, accesses: seq<Access>)
    requires WellFormed(c, s) && s.stack != [] && InRun(c, s)
    requires forall a :: a in accesses ==> a in Active(c, Last(s.stack))
    ensures RunAll(c, s, accesses).Done? ==> Follows(c, s, RunAll(c, s, accesses).s)
  {
    FollowsStable(c, s);
    FollowsSelf(c, s);
    RunAllKeeps(c, s, accesses, r => InRun(c, r) && Follows(c, s, r));
  }

  /** The same from any point of the first pass to its end. */
  lemma ComputeNarrows(c: Config, s: Engine, keys: seq<Hash>)
    requires WellFormed(c, s) && s.stack == [] && s.current == None && InRun(c, s)
    requires forall k :: k in keys ==> k in s.items
    ensures var r := ComputeFrom(c, s, keys); r.Done? ==> InRun(c, r.s) && Follows(c, s, r.s)
  {
    FollowsStable(c, s);
    FollowsSelf(c, s);
    ComputeKeeps(c, s, keys, r => InRun(c, r) && Follows(c, s, r));
  }

  /** The same from any point of the second pass to its end. */
  lemma ResolvePassNarrows(c: Config, s: Engine, keys: seq<Hash>)
    requires WellFormed(c, s) && s.stack == [] && InRun(c, s)
    requires forall k :: k in keys ==> k in s.items && s.items[k].state != INVALID
    ensures var r := ResolveFrom(c, s, keys); r.Done? ==> InRun(c, r.s) && Follows(c, s, r.s)
  {
    FollowsStable(c, s);
    FollowsSelf(c, s);
    ResolvePassKeeps(c, s, keys, r => InRun(c, r) && Follows(c, s, r));
  }

  /** Each item of the second pass leaves finished items alone, for any kind of validities. */
  lemma ResolveNextFixes(c: Config, s: Engine, key: Hash)
    requires WellFormed(c, s) && s.stack == [] && StackOk(c, s)
    requires key in s.items && s.items[key].state != INVALID
    ensures var r := ResolveNext(c, s, key); r.Done? ==> StackOk(c, r.s) && Fixed(s, r.s) && Finished(r.s, key)
  {
    var inv := r => StackOk(c, r) && Fixed(s, r);
    forall t, m | Enabled(c, t, m) && inv(t) ensures inv(Apply(c, t, m)) {
      StackStep(c, t, m);
      FixStep(c, t, m);
    }
    ResolveNextKeeps(c, s, key, inv);
  }

  // Whole runs.

  ghost predicate Next(c: Config, s: Engine, r: Engine) {
    exists m :: Enabled(c, s, m) && r == Apply(c, s, m)
  }

  /** The states of a run so far, each reached from the one before by an enabled step. */
  ghost predicate Trace(c: Config, states: seq<Engine>) {
    states != [] && states[0] == Initial(c) && forall i :: 0 < i < |states| ==> Next(c, states[i - 1], states[i])
  }

  ghost predicate Reached(c: Config, s: Engine) {
    exists states :: Trace(c, states) && Last(states) == s
  }

  lemma ReachedNext(c: Config, s: Engine, m: Step)
    requires Enabled(c, s, m) && Reached(c, s)
    ensures Reached(c, Apply(c, s, m))
  {
    var states :| Trace(c, states) && Last(states) == s;
    var more := states + [Apply(c, s, m)];
    forall i | 0 < i < |more| ensures Next(c, more[i - 1], more[i]) {
      assert i < |states| ==> Next(c, states[i - 1], states[i]);
    }
    assert Trace(c, more);
  }

  lemma RunIsReached(c: Config, order: seq<Hash>)
    requires Lists(c, order)
    ensures Run(c, order).Done? ==> Reached(c, Run(c, order).s)
  {
    forall s, m | Enabled(c, s, m) && Reached(c, s) ensures Reached(c, Apply(c, s, m)) {
      ReachedNext(c, s, m);
    }
    assert Trace(c, [Initial(c)]);
    RunKeeps(c, order, s => Reached(c, s));
  }

  lemma NextFollows(c: Config, s: Engine, r: Engine)
    requires Next(c, s, r) && InRun(c, s)
    ensures InRun(c, r) && Follows(c, s, r)
  {
    var m :| Enabled(c, s, m) && r == Apply(c, s, m);
    FollowsStep(c, s, m);
  }

  /** Any state of a run follows all the states before, those inside callbacks included. */
  lemma {:induction false} TraceNarrows(c: Config, states: seq<Engine>, i: nat, j: nat)
    requires Trace(c, states) && i <= j < |states|
    ensures InRun(c, states[j]) && Follows(c, states[i], states[j])
    decreases j
  {
    if j == 0 {
      InitiallyInRun(c);
      FollowsSelf(c, states[0]);
    } else {
      TraceNarrows(c, states, if i < j then i else j - 1, j - 1);
      NextFollows(c, states[j - 1], states[j]);
      if i < j {
        FollowsIsTransitive(c, states[i], states[j - 1], states[j]);
      } else {
        FollowsSelf(c, states[j]);
      }
    }
  }

  /** A run that does not throw goes through states of which each follows all the ones before. */
  lemma RunNarrows(c: Config, order: seq<Hash>)
    requires Lists(c, order)
    ensures Run(c, order).Done? ==>
              exists states :: Trace(c, states) && Last(states) == Run(c, order).s &&
                               forall i, j :: 0 <= i <= j < |states| ==> Follows(c, states[i], states[j])
  {
    if Run(c, order).Done? {
      RunIsReached(c, order);
      var states :| Trace(c, states) && Last(states) == Run(c, order).s;
      forall i, j | 0 <= i <= j < |states| ensures Follows(c, states[i], states[j]) {
        TraceNarrows(c, states, i, j);
      }
    }
  }

  // The points between two items of a pass.

  lemma Halves(order: seq<Hash>, i: nat)
    requires i <= |order|
    ensures order == order[..i] + order[i..]
  {
  }

  lemma {:induction false} ComputeSplit(c: Config, s: Engine, done: seq<Hash>, todo: seq<Hash>)
    requires WellFormed(c, s) && s.stack == [] && s.current == None
    requires forall k :: k in done + todo ==> k in s.items
    ensures var r := ComputeFrom(c, s, done);
            ComputeFrom(c, s, done + todo) == if r.Thrown? then r else ComputeFrom(c, r.s, todo)
    decreases done
  {
    if done == [] {
      assert done + todo == todo;
    } else {
      assert (done + todo)[1..] == done[1..] + todo;
      ComputeFirst(c, s, done);
      ComputeFirst(c, s, done + todo);
      if s.items[done[0]].condition {
        ComputeSplit(c, s, done[1..], todo);
      } else if Create(c, s, done[0]).Done? {
        ComputeSplit(c, Create(c, s, done[0]).s, done[1..], todo);
      }
    }
  }

  lemma {:induction false} ResolveSplit(c: Config, s: Engine, done: seq<Hash>, todo: seq<Hash>)
    requires WellFormed(c, s) && s.stack == []
    requires forall k :: k in done + todo ==> k in s.items && s.items[k].state != INVALID
    ensures var r := ResolveFrom(c, s, done);
            ResolveFrom(c, s, done + todo) == if r.Thrown? then r else ResolveFrom(c, r.s, todo)
    decreases done
  {
    if done == [] {
      assert done + todo == todo;
    } else {
      assert (done + todo)[1..] == done[1..] + todo;
      ResolveFirst(c, s, done);
      ResolveFirst(c, s, done + todo);
      var r := ResolveNext(c, s, done[0]);
      if r.Done? {
        ResolveSplit(c, r.s, done[1..], todo);
      }
    }
  }

  /** Some items into the first pass, and at its end. */
  lemma ComputeTail(c: Config, s: Engine, done: seq<Hash>, todo: seq<Hash>)
    requires WellFormed(c, s) && s.stack == [] && s.current == None && InRun(c, s)
    requires forall k :: k in done + todo ==> k in s.items
    ensures var r, t := ComputeFrom(c, s, done), ComputeFrom(c, s, done + todo);
            t.Done? ==> r.Done? && InRun(c, t.s) && Follows(c, r.s, t.s)
  {
    ComputeSplit(c, s, done, todo);
    ComputeNarrows(c, s, done);
    var r := ComputeFrom(c, s, done);
    if r.Done? {
      ComputeNarrows(c, r.s, todo);
    }
  }

  /** Some items into the second pass, and at its end. */
  lemma ResolveTail(c: Config, s: Engine, done: seq<Hash>, todo: seq<Hash>)
    requires WellFormed(c, s) && s.stack == [] && InRun(c, s)
    requires forall k :: k in done + todo ==> k in s.items && s.items[k].state != INVALID
    ensures var r, t := ResolveFrom(c, s, done), ResolveFrom(c, s, done + todo);
            t.Done? ==> r.Done? && Follows(c, r.s, t.s) && forall k :: k in done ==> Finished(r.s, k)
  {
    ResolveSplit(c, s, done, todo);
    ResolvePassNarrows(c, s, done);
    var r := ResolveFrom(c, s, done);
    if r.Done? {
      ResolvePassNarrows(c, r.s, todo);
    }
  }

  lemma StartFollows(c: Config, s: Engine)
    requires WellFormed(c, s) && s.stack == [] && InRun(c, s)
    ensures var r := Apply(c, s, StartResolve); InRun(c, r) && Follows(c, s, r)
  {
    FollowsStep(c, s, StartResolve);
  }

  /** What follows to the end of the first pass also follows to the end of the second. */
  lemma SecondPassFollows(c: Config, r: Engine, s: Engine, keys: seq<Hash>)
    requires WellFormed(c, s) && s.stack == [] && InRun(c, s) && Follows(c, r, s)
    requires forall k :: k in keys ==> k in s.items && s.items[k].state != INVALID
    ensures var t := ResolveFrom(c, Apply(c, s, StartResolve), keys);
            InRun(c, Apply(c, s, StartResolve)) && (t.Done? ==> Follows(c, r, t.s))
  {
    StartFollows(c, s);
    var start := Apply(c, s, StartResolve);
    FollowsIsTransitive(c, r, s, start);
    ResolvePassNarrows(c, start, keys);
    var t := ResolveFrom(c, start, keys);
    if t.Done? {
      FollowsIsTransitive(c, r, start, t.s);
    }
  }

  /** The end of a run follows the state after any number of items of its first pass. */
  lemma ComputedToEnd(c: Config, order: seq<Hash>, i: nat)
    requires Lists(c, order) && i <= |order| && Run(c, order).Done?
    ensures var r := ComputeFrom(c, Initial(c), order[..i]); r.Done? && Follows(c, r.s, Run(c, order).s)
  {
    Halves(order, i);
    InitiallyInRun(c);
    ComputeTail(c, Initial(c), order[..i], order[i..]);
    SecondPassFollows(c, ComputeFrom(c, Initial(c), order[..i]).s, ComputeFrom(c, Initial(c), order).s, order);
  }

  /** The state in which the second pass begins. */
  function AtSecondPass(c: Config, order: seq<Hash>): (s: Engine)
    requires Lists(c, order) && Run(c, order).Done?
    ensures WellFormed(c, s) && s.stack == [] && forall k :: k in order ==> k in s.items && s.items[k].state != INVALID
    ensures Run(c, order) == ResolveFrom(c, s, order)
  {
    StartKeeps(c, ComputeFrom(c, Initial(c), order).s, order);
    Apply(c, ComputeFrom(c, Initial(c), order).s, StartResolve)
  }

  lemma StartKeeps(c: Config, s: Engine, order: seq<Hash>)
    requires WellFormed(c, s) && s.stack == [] && forall k :: k in order ==> k in s.items && s.items[k].state != INVALID
    ensures var r := Apply(c, s, StartResolve);
            WellFormed(c, r) && r.stack == [] && forall k :: k in order ==> k in r.items && r.items[k].state != INVALID
  {
  }

  lemma SecondPassInRun(c: Config, order: seq<Hash>)
    requires Lists(c, order) && Run(c, order).Done?
    ensures InRun(c, AtSecondPass(c, order))
  {
    InitiallyInRun(c);
    ComputeNarrows(c, Initial(c), order);
    StartFollows(c, ComputeFrom(c, Initial(c), order).s);
  }

  /**
   It follows the state after any number of items of the second pass; these items are finished
   there, so that their validities never change again.
   */
  lemma ResolvedToEnd(c: Config, order: seq<Hash>, i: nat)
    requires Lists(c, order) && i <= |order| && Run(c, order).Done?
    ensures var r := ResolveFrom(c, AtSecondPass(c, order), order[..i]);
            r.Done? && Follows(c, r.s, Run(c, order).s) && forall k :: k in order[..i] ==> Finished(r.s, k)
  {
    Halves(order, i);
    SecondPassInRun(c, order);
    ResolveTail(c, AtSecondPass(c, order), order[..i], order[i..]);
  }
}
