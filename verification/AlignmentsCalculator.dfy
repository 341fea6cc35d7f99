/**
 World transformations of detector elements from alignment deltas
 (DDCore/src/AlignmentsCalculator.cpp, DDCore/src/AlignmentTools.cpp). Transformations are
 of any type with a product and a unit; no law of the product is used.
 */
module AlignmentsCalculator {
  import opened Wrappers
  import opened AlignmentOrder

  datatype Ops<!T> = Ops(mul: (T, T) -> T, unit: T)

  /** The geometry, its nominal transformations (to the parent element and to the world), the
      deltas, and the alignments known before. */
  datatype Setting<!T> = Setting(
    ops: Ops<T>, t: Tree, detector: map<Det, T>, world: map<Det, T>, deltas: map<Det, T>, before: map<Det, T>)

  predicate Proper<T>(s: Setting<T>) {
    && s.detector.Keys == s.t.parent.Keys && s.world.Keys == s.t.parent.Keys
    && (forall c :: c in s.t.parent && s.t.parent[c].Some? ==> s.t.parent[c].value in s.t.parent)
  }

  /** The parent's world transformation as `compute` finds it. */
  function ParentWorld<T>(s: Setting<T>, mapping: map<Det, T>, d: Det): T
    requires Proper(s) && d in s.t.parent
  {
    match s.t.parent[d]
    case None => s.ops.unit
    case Some(p) => if p in mapping then mapping[p] else s.world[p]
  }

  function Local<T>(s: Setting<T>, d: Det): T
    requires d in s.detector
  {
    s.ops.mul(s.detector[d], if d in s.deltas then s.deltas[d] else s.ops.unit)
  }

  /** `Calculator::compute` for one entry. */
  function Compute<T>(s: Setting<T>, mapping: map<Det, T>, d: Det): map<Det, T>
    requires Proper(s) && d in s.t.parent
  {
    mapping[d := s.ops.mul(ParentWorld(s, mapping, d), Local(s, d))]
  }

  function ComputeAll<T>(s: Setting<T>, entries: seq<Det>): (m: map<Det, T>)
    requires Proper(s) && forall d :: d in entries ==> d in s.t.parent
    ensures forall d :: d in m <==> d in s.before || d in entries
    decreases entries
  {
    if entries == [] then s.before
    else
      assert entries == Front(entries) + [Last(entries)];
      Compute(s, ComputeAll(s, Front(entries)), Last(entries))
  }

  /** What the world transformation of an affected element is meant to be: the parent's aligned
      one, or that of an earlier alignment or the nominal one when the parent is not affected,
      times the nominal transformation to the parent, times the delta. */
  ghost function Aligned<T>(s: Setting<T>, height: Det -> nat, d: Det): T
    requires IsTree(s.t, height) && Proper(s) && d in s.t.parent
    decreases |s.t.path[d]|
  {
    s.ops.mul(AlignedParent(s, height, d), s.ops.mul(s.detector[d], if d in s.deltas then s.deltas[d] else s.ops.unit))
  }

  ghost function AlignedParent<T>(s: Setting<T>, height: Det -> nat, d: Det): T
    requires IsTree(s.t, height) && Proper(s) && d in s.t.parent
    decreases |s.t.path[d]|, 0
  {
    match s.t.parent[d]
    case None => s.ops.unit
    case Some(p) =>
      if Affected(s.t, height, s.deltas.Keys, p) then Aligned(s, height, p)
      else if p in s.before then s.before[p] else s.world[p]
  }

  /** `after` is `before` with the aligned transformations of `entries`. */
  ghost predicate AlignedIn<T>(s: Setting<T>, height: Det -> nat, entries: seq<Det>, after: map<Det, T>)
    requires IsTree(s.t, height) && Proper(s)
  {
    && (forall d :: d in entries ==> d in s.t.parent)
    && Puts(s, entries, AlignedMap(s, height, entries), after)
  }

  ghost function AlignedMap<T>(s: Setting<T>, height: Det -> nat, entries: seq<Det>): map<Det, T>
    requires IsTree(s.t, height) && Proper(s)
  {
    map d | d in entries && d in s.t.parent :: Aligned(s, height, d)
  }

  predicate Puts<T(==)>(s: Setting<T>, entries: seq<Det>, want: map<Det, T>, after: map<Det, T>) {
    && (forall d :: d in entries ==> d in after && d in want && after[d] == want[d])
    && (forall d :: d in after ==> d in s.before || d in entries)
    && (forall d :: d in s.before && d !in entries ==> d in after && after[d] == s.before[d])
  }

  /** Each transformation of `all` is the product with that of the parent. */
  ghost predicate Products<T>(s: Setting<T>, all: seq<Det>, want: map<Det, T>)
    requires Proper(s)
  {
    forall d :: d in all ==> d in want && d in s.t.parent && want[d] == s.ops.mul(WantedParent(s, all, want, d), Local(s, d))
  }

  ghost function WantedParent<T>(s: Setting<T>, all: seq<Det>, want: map<Det, T>, d: Det): T
    requires Proper(s) && d in s.t.parent
  {
    match s.t.parent[d]
    case None => s.ops.unit
    case Some(p) => if p in all && p in want then want[p] else if p in s.before then s.before[p] else s.world[p]
  }

  lemma {:induction false} ComputeInOrder<T>(s: Setting<T>, all: seq<Det>, want: map<Det, T>, n: nat)
    requires Proper(s) && Distinct(all) && ParentsFirst(s.t, all) && Products(s, all, want) && n <= |all|
    ensures forall d :: d in all[..n] ==> d in s.t.parent
    ensures Puts(s, all[..n], want, ComputeAll(s, all[..n]))
    decreases n
  {
    assert forall d :: d in all[..n] ==> d in all;
    if n > 0 {
      ComputeInOrder(s, all, want, n - 1);
      LastOf(all, n);
      ComputeNext(s, all, want, n - 1, ComputeAll(s, all[..n - 1]));
    }
  }

  lemma LastOf(all: seq<Det>, n: nat)
    requires Distinct(all) && 0 < n <= |all|
    ensures Front(all[..n]) == all[..n - 1] && Last(all[..n]) == all[n - 1]
    ensures all[..n] == all[..n - 1] + [all[n - 1]] && all[n - 1] !in all[..n - 1]
  {
  }

  lemma ComputeNext<T>(s: Setting<T>, all: seq<Det>, want: map<Det, T>, n: nat, m: map<Det, T>)
    requires Proper(s) && ParentsFirst(s.t, all) && Products(s, all, want) && n < |all| && all[n] !in all[..n]
    requires Puts(s, all[..n], want, m)
    ensures all[n] in s.t.parent && ParentWorld(s, m, all[n]) == WantedParent(s, all, want, all[n])
    ensures Puts(s, all[..n] + [all[n]], want, Compute(s, m, all[n]))
  {
    var d := all[n];
    assert d in all;
    if s.t.parent[d].Some? {
      var p := s.t.parent[d].value;
      if p in all {
        assert p in all[..n];
      } else {
        assert p !in all[..n];
      }
    }
  }

  lemma AlignedAreProducts<T>(s: Setting<T>, height: Det -> nat, all: seq<Det>)
    requires IsTree(s.t, height) && Proper(s)
    requires forall d :: d in all <==> Affected(s.t, height, s.deltas.Keys, d)
    ensures Products(s, all, AlignedMap(s, height, all))
  {
    var want := AlignedMap(s, height, all);
    forall d | d in all ensures want[d] == s.ops.mul(WantedParent(s, all, want, d), Local(s, d)) {
      assert want[d] == Aligned(s, height, d);
      if s.t.parent[d].Some? && s.t.parent[d].value in all {
        assert want[s.t.parent[d].value] == Aligned(s, height, s.t.parent[d].value);
      }
    }
  }

  /** Without a gap among the deltas exactly the elements at or below a delta are computed, and
      each gets its aligned world transformation, whatever the transformations are. */
  lemma NoGapAligns<T>(s: Setting<T>, height: Det -> nat, order: seq<Det>)
    requires IsTree(s.t, height) && Proper(s) && InPathOrder(s.t, order) && s.deltas.Keys == Elements(order)
    requires NoGap(s.t, height, s.deltas.Keys)
    ensures var e := Entries(s.t, height, order);
            && (forall d :: d in e <==> Affected(s.t, height, s.deltas.Keys, d))
            && AlignedIn(s, height, e, ComputeAll(s, e))
  {
    EntriesAreAffected(s.t, height, order);
    ParentsFirstIffNoGap(s.t, height, order);
    var e := Entries(s.t, height, order);
    AlignedAreProducts(s, height, e);
    ComputeInOrder(s, e, AlignedMap(s, height, e), |e|);
    assert e[..|e|] == e;
  }

  // With a gap the result is wrong for some transformations.

  /** Shifts along one axis: nominally none, and by one for every delta. */
  ghost function Shifts(t: Tree, deltas: set<Det>): Setting<int> {
    Setting(Ops((a, b) => a + b, 0), t, map d | d in t.parent.Keys :: 0, map d | d in t.parent.Keys :: 0,
            map d | d in deltas :: 1, map[])
  }

  lemma ShiftsAreProper(t: Tree, height: Det -> nat, deltas: set<Det>)
    requires IsTree(t, height)
    ensures Proper(Shifts(t, deltas)) && Shifts(t, deltas).deltas.Keys == deltas
  {
  }

  lemma {:induction false} ShiftedBelow(t: Tree, height: Det -> nat, deltas: set<Det>, d: Det)
    requires IsTree(t, height) && d in t.parent && Proper(Shifts(t, deltas))
    ensures var a := Aligned(Shifts(t, deltas), height, d);
            a >= 0 && (Affected(t, height, deltas, d) ==> a >= 1)
    decreases |t.path[d]|
  {
    ShiftsAreProper(t, height, deltas);
    if t.parent[d].Some? {
      ShiftedBelow(t, height, deltas, t.parent[d].value);
      if Affected(t, height, deltas, d) && d !in deltas {
        var a :| a in deltas && AtOrAbove(t, height, a, d);
        assert AtOrAbove(t, height, a, t.parent[d].value);
      }
    }
  }

  lemma {:induction false} ComputedAt<T>(s: Setting<T>, entries: seq<Det>, i: nat)
    requires Proper(s) && (forall d :: d in entries ==> d in s.t.parent)
    requires Distinct(entries) && i < |entries|
    ensures forall d :: d in entries[..i] ==> d in s.t.parent
    ensures ComputeAll(s, entries)[entries[i]] ==
              s.ops.mul(ParentWorld(s, ComputeAll(s, entries[..i]), entries[i]), Local(s, entries[i]))
    decreases |entries|
  {
    assert forall d :: d in entries[..i] ==> d in entries;
    if i == |entries| - 1 {
      assert Front(entries) == entries[..i];
    } else {
      ComputedAt(s, Front(entries), i);
      assert Front(entries)[..i] == entries[..i];
      assert entries[i] != Last(entries);
    }
  }

  /** With a gap among the deltas there are transformations for which some element is not aligned. */
  lemma GapMisaligns(t: Tree, height: Det -> nat, order: seq<Det>)
    requires IsTree(t, height) && InPathOrder(t, order) && !NoGap(t, height, Elements(order))
    ensures var s, e := Shifts(t, Elements(order)), Entries(t, height, order);
            && Proper(s) && (forall d :: d in e ==> d in t.parent)
            && !AlignedIn(s, height, e, ComputeAll(s, e))
  {
    var i := GapChildFirst(t, height, order);
    EntriesAreAffected(t, height, order);
    ShiftsAreProper(t, height, Elements(order));
    var s, e := Shifts(t, Elements(order)), Entries(t, height, order);
    assert order[i] in Elements(order);
    OrphanAt(s, e, i);
    OrphanIsMisaligned(t, height, Elements(order), e, ComputeAll(s, e), e[i]);
  }

  lemma OrphanIsMisaligned(t: Tree, height: Det -> nat, deltas: set<Det>, e: seq<Det>, m: map<Det, int>, d: Det)
    requires IsTree(t, height) && Proper(Shifts(t, deltas)) && d in e && d in t.parent && d in deltas
    requires t.parent[d].Some? && Affected(t, height, deltas, t.parent[d].value)
    requires d in m && m[d] == 1
    ensures !AlignedIn(Shifts(t, deltas), height, e, m)
  {
    ShiftedBelow(t, height, deltas, t.parent[d].value);
    ShiftsAreProper(t, height, deltas);
    assert Local(Shifts(t, deltas), d) == 1;
    assert Aligned(Shifts(t, deltas), height, d) >= 2;
    assert AlignedMap(Shifts(t, deltas), height, e)[d] == Aligned(Shifts(t, deltas), height, d);
  }

  /** A shifted element computed before its parent is shifted by its own delta only. */
  lemma OrphanAt(s: Setting<int>, e: seq<Det>, i: nat)
    requires Proper(s) && (forall d :: d in e ==> d in s.t.parent) && Distinct(e) && i < |e|
    requires s == Shifts(s.t, s.deltas.Keys) && e[i] in s.deltas
    requires s.t.parent[e[i]].Some? && s.t.parent[e[i]].value !in e[..i]
    ensures ComputeAll(s, e)[e[i]] == 1
  {
    ComputedAt(s, e, i);
    assert s.deltas[e[i]] == 1 && s.detector[e[i]] == 0;
  }

  /** Deltas that do nothing reproduce the nominal geometry. */
  lemma {:induction false} IdentityDeltasAreNominal<T>(s: Setting<T>, height: Det -> nat, d: Det)
    requires IsTree(s.t, height) && Proper(s) && d in s.t.parent && s.before == map[]
    requires forall x: T {:trigger s.ops.mul(x, s.ops.unit)} :: s.ops.mul(x, s.ops.unit) == x
    requires forall k :: k in s.deltas ==> s.deltas[k] == s.ops.unit
    requires forall k :: k in s.t.parent ==> s.world[k] == s.ops.mul(ParentWorld(s, map[], k), s.detector[k])
    ensures Aligned(s, height, d) == s.world[d]
    decreases |s.t.path[d]|
  {
    assert Local(s, d) == s.detector[d];
    if s.t.parent[d].Some? {
      IdentityDeltasAreNominal(s, height, s.t.parent[d].value);
    }
  }

  // The in-place form.

  datatype Entry<T> = Entry(det: Det, delta: Option<T>, valid: bool)

  class Context<T> {
    var detectors: map<Det, nat>
    var entries: seq<Entry<T>>
    var mapping: map<Det, T>
    ghost var dets: seq<Det>

    /** The index of elements and the list of entries agree. */
    ghost predicate Indexed()
      reads this
    {
      && |dets| == |entries| && (forall i :: 0 <= i < |dets| ==> dets[i] == entries[i].det)
      && (forall d :: d in detectors <==> d in dets)
    }

    /** Entry `i` on has no delta and nothing has been computed. */
    ghost predicate Derived(i: nat)
      reads this
    {
      forall j :: i <= j < |entries| ==> entries[j].delta == None && !entries[j].valid
    }

    constructor (mapping: map<Det, T>)
      ensures Indexed() && entries == [] && dets == [] && this.mapping == mapping
    {
      detectors, entries, this.mapping, dets := map[], [], mapping, [];
    }

    method Insert(d: Det, delta: Option<T>)
      requires Indexed()
      modifies this
      ensures Indexed() && mapping == old(mapping) && dets == old(dets) + [d]
      ensures entries == old(entries) + [Entry(d, delta, false)]
    {
      if d !in detectors {
        detectors := detectors[d := |entries|];
      }
      entries := entries + [Entry(d, delta, false)];
      dets := dets + [d];
    }

    method Resolve(t: Tree, ghost height: Det -> nat, d: Det)
      requires IsTree(t, height) && d in t.parent && Indexed()
      modifies this
      ensures Indexed() && mapping == old(mapping) && dets == AlignmentOrder.Resolve(t, height, old(dets), d)
      ensures old(entries) <= entries && Derived(|old(entries)|)
      decreases height(d)
    {
      if d !in detectors {
        Insert(d, None);
      }
      var children := t.children[d];
      for i := 0 to |children|
        invariant Indexed() && mapping == old(mapping)
        invariant ResolveAll(t, height, dets, d, children[i..]) == AlignmentOrder.Resolve(t, height, old(dets), d)
        invariant old(entries) <= entries && Derived(|old(entries)|)
      {
        assert children[i..][0] == children[i] && children[i..][1..] == children[i + 1..];
        Resolve(t, height, children[i]);
      }
    }

    /** One entry: an element whose entry is valid already is skipped. */
    method ComputeEntry(s: Setting<T>, i: nat) returns (computed: nat)
      requires Proper(s) && i < |entries| && entries[i].det in s.t.parent
      requires entries[i].delta == DeltaOf(s, entries[i].det)
      modifies this`entries, this`mapping
      ensures entries == old(entries)[i := old(entries)[i].(valid := true)]
      ensures if old(entries)[i].valid then computed == 0 && mapping == old(mapping)
              else computed == 1 && mapping == Compute(s, old(mapping), entries[i].det)
    {
      var e := entries[i];
      if e.valid {
        return 0;
      }
      entries := entries[i := e.(valid := true)];
      var parent :=
        match s.t.parent[e.det]
        case None => s.ops.unit
        case Some(p) => if p in mapping then mapping[p] else s.world[p];
      var delta := if e.delta.Some? then e.delta.value else s.ops.unit;
      mapping := mapping[e.det := s.ops.mul(parent, s.ops.mul(s.detector[e.det], delta))];
      computed := 1;
    }
  }

  /** `AlignmentsCalculator::compute` for deltas in the order of their paths. */
  method ComputeAlignments<T>(s: Setting<T>, ghost height: Det -> nat, order: seq<Det>)
    returns (computed: nat, mapping: map<Det, T>)
    requires IsTree(s.t, height) && Proper(s) && InPathOrder(s.t, order) && s.deltas.Keys == Elements(order)
    ensures computed == |Entries(s.t, height, order)|
    ensures forall d :: d in Entries(s.t, height, order) ==> d in s.t.parent
    ensures mapping == ComputeAll(s, Entries(s.t, height, order))
    ensures NoGap(s.t, height, s.deltas.Keys) ==> AlignedIn(s, height, Entries(s.t, height, order), mapping)
  {
    var context := new Context(s.before);
    ListDeltas(context, s, order);
    ResolveAllDeltas(context, s.t, height, order);
    EntriesAreAffected(s.t, height, order);
    EntriesHaveDeltas(s, order, context.dets, context.entries);
    computed := ComputeEntries(context, s);
    mapping := context.mapping;
    if NoGap(s.t, height, s.deltas.Keys) {
      NoGapAligns(s, height, order);
    }
  }

  method ComputeEntries<T>(context: Context<T>, s: Setting<T>) returns (computed: nat)
    requires Proper(s) && context.Indexed() && context.mapping == s.before
    requires forall d :: d in context.dets ==> d in s.t.parent
    requires forall i :: 0 <= i < |context.entries| ==>
               !context.entries[i].valid && context.entries[i].delta == DeltaOf(s, context.entries[i].det)
    modifies context
    ensures computed == |context.dets| && context.dets == old(context.dets)
    ensures context.mapping == ComputeAll(s, context.dets)
  {
    computed := 0;
    ghost var e := context.dets;
    ghost var before := context.entries;
    for i := 0 to |context.entries|
      invariant |context.entries| == |before| == |e| && computed == i && context.dets == e
      invariant (forall d :: d in e[..i] ==> d in s.t.parent) && context.mapping == ComputeAll(s, e[..i])
      invariant forall j :: i <= j < |before| ==> context.entries[j] == before[j]
    {
      assert Front(e[..i + 1]) == e[..i] && Last(e[..i + 1]) == e[i] && e[i] in e;
      var n := context.ComputeEntry(s, i);
      computed := computed + n;
    }
    assert e[..|e|] == e;
  }

  function DeltaOf<T>(s: Setting<T>, d: Det): Option<T> {
    if d in s.deltas then Some(s.deltas[d]) else None
  }

  ghost predicate DeltaEntries<T>(s: Setting<T>, order: seq<Det>, n: nat, entries: seq<Entry<T>>) {
    && n <= |order| && |entries| >= n
    && forall i :: 0 <= i < n ==> order[i] in s.deltas && entries[i] == Entry(order[i], Some(s.deltas[order[i]]), false)
  }

  method ListDeltas<T>(context: Context<T>, s: Setting<T>, order: seq<Det>)
    requires context.Indexed() && context.dets == [] && forall d :: d in order ==> d in s.deltas
    modifies context
    ensures context.Indexed() && context.dets == order && context.mapping == old(context.mapping)
    ensures DeltaEntries(s, order, |order|, context.entries)
  {
    for i := 0 to |order|
      invariant context.Indexed() && context.dets == order[..i] && context.mapping == old(context.mapping)
      invariant DeltaEntries(s, order, i, context.entries)
    {
      context.Insert(order[i], Some(s.deltas[order[i]]));
    }
  }

  method ResolveAllDeltas<T>(context: Context<T>, t: Tree, ghost height: Det -> nat, order: seq<Det>)
    requires IsTree(t, height) && InPathOrder(t, order) && context.Indexed() && context.dets == order
    modifies context
    ensures context.Indexed() && context.dets == Entries(t, height, order) && context.mapping == old(context.mapping)
    ensures old(context.entries) <= context.entries && context.Derived(|order|)
  {
    for i := 0 to |order|
      invariant context.Indexed() && context.mapping == old(context.mapping)
      invariant ResolveDeltas(t, height, context.dets, order[i..]) == Entries(t, height, order)
      invariant old(context.entries) <= context.entries && context.Derived(|order|)
    {
      assert order[i..][0] == order[i] && order[i..][1..] == order[i + 1..];
      context.Resolve(t, height, order[i]);
    }
  }

  lemma EntriesHaveDeltas<T>(s: Setting<T>, order: seq<Det>, e: seq<Det>, entries: seq<Entry<T>>)
    requires s.deltas.Keys == Elements(order) && order <= e && Distinct(e) && |e| == |entries|
    requires forall i :: 0 <= i < |e| ==> e[i] == entries[i].det
    requires DeltaEntries(s, order, |order|, entries)
    requires forall i :: |order| <= i < |entries| ==> entries[i].delta == None && !entries[i].valid
    ensures forall i :: 0 <= i < |entries| ==>
              !entries[i].valid &&
              entries[i].delta == DeltaOf(s, entries[i].det)
  {
    assert forall i :: |order| <= i < |e| ==> e[i] !in s.deltas;
  }
}
