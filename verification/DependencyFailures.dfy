/** Which tables of derived conditions make a run throw. */
module DependencyFailures {
  import opened Validity
  import opened Wrappers
  import opened DependencyEngine
  import opened DependencyRuns
  import opened DependencyInvariants
  import opened DependencyTheorems

  /** The accesses of `k` that the first pass may serve: all of the creation, or of a resolution on the way. */
  function ServedFirst(c: Config, k: Hash, first: bool): seq<Access>
    requires k in c.deps
  {
    if first then c.deps[k].create else c.deps[k].resolve
  }

  /** A creation callback of the first item reads the second one, whose resolve callback reads the third, and so on. */
  ghost predicate EarlyPath(c: Config, path: seq<Hash>) {
    && path != [] && (forall k :: k in path ==> k in c.deps)
    && forall i :: 0 < i < |path| ==> ReadsNext(c, path[i - 1], i == 1, path[i])
  }

  ghost predicate ReadsNext(c: Config, k: Hash, first: bool, next: Hash) {
    k in c.deps && exists a :: a in ServedFirst(c, k, first) && Derived(c, a) && a.key == next
  }

  /** At its end there is an access by detector or by item, which is an error before the second pass. */
  ghost predicate BulkTooEarly(c: Config, path: seq<Hash>) {
    EarlyPath(c, path) && exists a :: a in ServedFirst(c, Last(path), |path| == 1) && a.Bulk?
  }

  /** No callback fails, and no required condition is missing. */
  predicate AllProvided(c: Config) {
    forall k :: k in c.deps ==>
      c.deps[k].succeeds &&
      forall a :: a in c.deps[k].create + c.deps[k].resolve ==>
        a.Single? && a.required ==> a.key in c.pool || a.key in c.deps
  }

  /** What the first pass leaves. */
  ghost predicate FirstPassDone(c: Config, s: Engine) {
    && Served(c, s) && s.stack == [] && s.mode != RESOLVED
    && forall k :: k in c.deps ==> s.items[k].state != INVALID
  }

  lemma FirstPassLeaves(c: Config, order: seq<Hash>)
    requires Lists(c, order)
    ensures var r := ComputeFrom(c, Initial(c), order); r.Done? ==> FirstPassDone(c, r.s)
  {
    SoundIsStable(c);
    InitiallySound(c);
    ComputeKeeps(c, Initial(c), order, s => Sound(c, s));
  }

  /** Everything on such a path has been resolved in the first pass. */
  lemma {:induction false} ResolvedEarly(c: Config, s: Engine, path: seq<Hash>, i: nat)
    requires FirstPassDone(c, s) && EarlyPath(c, path) && 0 < i < |path|
    ensures path[i] in s.items && s.items[path[i]].state == RESOLVED
    decreases i
  {
    var k := path[i - 1];
    assert k in path && ReadsNext(c, k, i == 1, path[i]);
    var a :| a in ServedFirst(c, k, i == 1) && Derived(c, a) && a.key == path[i];
    if i == 1 {
      assert CreationAnswered(c, s, k) && Answered(c, s, k, a, false);
    } else {
      ResolvedEarly(c, s, path, i - 1);
      assert Finished(s, k) && ResolutionAnswered(c, s, k) && Answered(c, s, k, a, true);
    }
  }

  lemma NoBulkAt(c: Config, s: Engine, k: Hash, first: bool, a: Access)
    requires FirstPassDone(c, s) && k in c.deps && (first || Finished(s, k)) && a in ServedFirst(c, k, first)
    ensures !a.Bulk?
  {
    if first {
      assert CreationAnswered(c, s, k) && Answered(c, s, k, a, false);
    } else {
      assert ResolutionAnswered(c, s, k) && Answered(c, s, k, a, true);
    }
  }

  lemma NoBulkEarly(c: Config, s: Engine, path: seq<Hash>)
    requires FirstPassDone(c, s)
    ensures !BulkTooEarly(c, path)
  {
    if EarlyPath(c, path) {
      assert Last(path) in path;
      if |path| > 1 {
        ResolvedEarly(c, s, path, |path| - 1);
      }
      forall a | a in ServedFirst(c, Last(path), |path| == 1) ensures !a.Bulk? {
        NoBulkAt(c, s, Last(path), |path| == 1, a);
      }
    }
  }

  /** Access by detector or by item anywhere on the way of the first pass makes the run throw. */
  lemma BulkTooEarlyThrows(c: Config, order: seq<Hash>, path: seq<Hash>)
    requires Lists(c, order) && BulkTooEarly(c, path)
    ensures Run(c, order).Thrown?
  {
    FirstPassLeaves(c, order);
    var r := ComputeFrom(c, Initial(c), order);
    if r.Done? {
      NoBulkEarly(c, r.s, path);
    }
  }

  /** A failing callback, or a required condition that is not there, makes the run throw. */
  lemma UnprovidedThrows(c: Config, order: seq<Hash>)
    requires Lists(c, order) && !AllProvided(c)
    ensures Run(c, order).Thrown?
  {
    RunIsSound(c, order);
    var r := Run(c, order);
    if r.Done? {
      forall k | k in c.deps
        ensures c.deps[k].succeeds &&
                forall a :: a in c.deps[k].create + c.deps[k].resolve ==>
                  a.Single? && a.required ==> a.key in c.pool || a.key in c.deps
      {
        AnsweredProvided(c, r.s, k);
      }
    }
  }

  lemma AnsweredProvided(c: Config, s: Engine, k: Hash)
    requires Served(c, s) && k in c.deps && Finished(s, k)
    ensures c.deps[k].succeeds
    ensures forall a :: a in c.deps[k].create + c.deps[k].resolve ==>
              a.Single? && a.required ==> a.key in c.pool || a.key in c.deps
  {
    assert CreationAnswered(c, s, k) && ResolutionAnswered(c, s, k);
    forall a | a in c.deps[k].create + c.deps[k].resolve && a.Single? && a.required
      ensures a.key in c.pool || a.key in c.deps
    {
      if a in c.deps[k].create {
        assert Answered(c, s, k, a, false);
      } else {
        assert Answered(c, s, k, a, true);
      }
    }
  }

  /** The accesses to derived conditions go down in rank: there is no cycle. */
  ghost predicate Ranked(c: Config, rank: Hash -> nat) {
    forall k :: k in c.deps ==>
      forall a :: a in c.deps[k].create + c.deps[k].resolve && Derived(c, a) ==> rank(a.key) < rank(k)
  }

  ghost predicate ReachedEarly(c: Config, k: Hash) {
    exists path: seq<Hash> :: EarlyPath(c, path) && |path| > 1 && Last(path) == k
  }

  ghost function EarlySet(c: Config): set<Hash> {
    set k | k in c.deps && ReachedEarly(c, k)
  }

  lemma CreateReaches(c: Config, k: Hash, a: Access)
    requires k in c.deps && a in c.deps[k].create
    requires forall path: seq<Hash> :: !BulkTooEarly(c, path)
    ensures Early(c, EarlySet(c), a)
  {
    var path := [k];
    assert EarlyPath(c, path) && Last(path) == k && !BulkTooEarly(c, path);
    assert a in ServedFirst(c, k, true);
    if Derived(c, a) {
      var more := [k, a.key];
      assert ReadsNext(c, k, true, a.key);
      assert EarlyPath(c, more) && Last(more) == a.key;
    }
  }

  lemma ResolveReaches(c: Config, k: Hash, a: Access)
    requires k in EarlySet(c) && a in c.deps[k].resolve
    requires forall path: seq<Hash> :: !BulkTooEarly(c, path)
    ensures Early(c, EarlySet(c), a)
  {
    var path: seq<Hash> :| EarlyPath(c, path) && |path| > 1 && Last(path) == k;
    assert !BulkTooEarly(c, path);
    assert a in ServedFirst(c, k, false);
    if Derived(c, a) {
      var more := path + [a.key];
      forall i | 0 < i < |more| ensures ReadsNext(c, more[i - 1], i == 1, more[i]) {
        if i < |path| {
          assert ReadsNext(c, path[i - 1], i == 1, path[i]);
        } else {
          assert more[i - 1] == k && more[i] == a.key;
        }
      }
      assert EarlyPath(c, more) && Last(more) == a.key;
    }
  }

  lemma RankedIsWellFounded(c: Config, rank: Hash -> nat)
    requires Ranked(c, rank) && AllProvided(c) && forall path: seq<Hash> :: !BulkTooEarly(c, path)
    ensures WellFounded(c, rank, EarlySet(c))
  {
    forall k, a | k in c.deps && (a in c.deps[k].create || a in c.deps[k].resolve) ensures Descends(c, rank, k, a) {
      assert a in c.deps[k].create + c.deps[k].resolve;
    }
    forall k, a | k in c.deps && a in c.deps[k].create ensures Early(c, EarlySet(c), a) {
      CreateReaches(c, k, a);
    }
    forall k, a | k in c.deps && a in c.deps[k].resolve && k in EarlySet(c) ensures Early(c, EarlySet(c), a) {
      ResolveReaches(c, k, a);
    }
  }

  /**
   Without a cycle, a run completes exactly when no callback fails, no required condition is
   missing, and no access by detector or by item is made on the way of the first pass.
   */
  lemma AcyclicRunCompletesIff(c: Config, order: seq<Hash>, rank: Hash -> nat)
    requires Lists(c, order) && Ranked(c, rank)
    ensures Run(c, order).Done? <==> AllProvided(c) && forall path: seq<Hash> :: !BulkTooEarly(c, path)
  {
    if !AllProvided(c) {
      UnprovidedThrows(c, order);
    } else if path: seq<Hash> :| BulkTooEarly(c, path) {
      BulkTooEarlyThrows(c, order, path);
    } else {
      RankedIsWellFounded(c, rank);
      AcyclicRunCompletes(c, order, rank, EarlySet(c));
    }
  }
}
