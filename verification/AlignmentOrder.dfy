/**
 The elements affected by a set of alignment deltas, and the order in which their
 transformations are computed (DDCore/src/AlignmentsCalculator.cpp).
 */
module AlignmentOrder {
  import opened Wrappers

  type Det = nat

  /** Detector elements by handle. Children are in the order of their names. */
  datatype Tree = Tree(parent: map<Det, Option<Det>>, children: map<Det, seq<Det>>, path: map<Det, string>)

  /** Parents and children agree, a path extends the parent's, and no two elements share one. */
  ghost predicate IsTree(t: Tree, height: Det -> nat) {
    && t.children.Keys == t.parent.Keys && t.path.Keys == t.parent.Keys
    && (forall d, c :: d in t.children && c in t.children[d] ==>
          c in t.parent && t.parent[c] == Some(d) && height(c) < height(d))
    && (forall c :: c in t.parent && t.parent[c].Some? ==>
          var d := t.parent[c].value;
          d in t.children && c in t.children[d] && t.path[d] + "/" <= t.path[c])
    && (forall d, e :: d in t.path && e in t.path && t.path[d] == t.path[e] ==> d == e)
  }

  /** `a` is `d` or above it. */
  ghost predicate AtOrAbove(t: Tree, height: Det -> nat, a: Det, d: Det)
    requires IsTree(t, height) && d in t.parent
    decreases |t.path[d]|
  {
    a == d || (t.parent[d].Some? && AtOrAbove(t, height, a, t.parent[d].value))
  }

  ghost predicate Affected(t: Tree, height: Det -> nat, deltas: set<Det>, d: Det)
    requires IsTree(t, height)
  {
    d in t.parent && exists a :: a in deltas && AtOrAbove(t, height, a, d)
  }

  function Elements(order: seq<Det>): set<Det> {
    set d | d in order
  }

  /** A delta below another one has one on its parent. */
  ghost predicate NoGap(t: Tree, height: Det -> nat, deltas: set<Det>)
    requires IsTree(t, height)
  {
    forall d :: d in deltas && d in t.parent && t.parent[d].Some? && Affected(t, height, deltas, t.parent[d].value) ==>
      t.parent[d].value in deltas
  }

  /** `std::string::operator<`. */
  predicate Less(a: string, b: string) {
    b != "" && (a == "" || a[0] < b[0] || (a[0] == b[0] && Less(a[1..], b[1..])))
  }

  lemma {:induction false} PrefixIsLess(a: string, b: string)
    requires a <= b && |a| < |b|
    ensures Less(a, b)
    decreases |a|
  {
    if a != "" {
      PrefixIsLess(a[1..], b[1..]);
    }
  }

  lemma {:induction false} LessIsAsymmetric(a: string, b: string)
    requires Less(a, b)
    ensures !Less(b, a)
    decreases |a|
  {
    if a != "" && a[0] == b[0] {
      LessIsAsymmetric(a[1..], b[1..]);
    }
  }

  /** `order` is the set of deltas in the order of their paths. */
  ghost predicate InPathOrder(t: Tree, order: seq<Det>) {
    && (forall d :: d in order ==> d in t.path)
    && (forall i, j :: 0 <= i < j < |order| ==> Less(t.path[order[i]], t.path[order[j]]))
  }

  /** `Calculator::resolve` on the list of elements: append what is missing, parents first. */
  ghost function Resolve(t: Tree, height: Det -> nat, found: seq<Det>, d: Det): seq<Det>
    requires IsTree(t, height) && d in t.parent
    decreases height(d), 1, 0
  {
    ResolveAll(t, height, if d in found then found else found + [d], d, t.children[d])
  }

  ghost function ResolveAll(t: Tree, height: Det -> nat, found: seq<Det>, d: Det, children: seq<Det>): seq<Det>
    requires IsTree(t, height) && d in t.parent && forall c :: c in children ==> c in t.children[d]
    decreases height(d), 0, |children|
  {
    if children == [] then found
    else
      assert children[0] in children;
      ResolveAll(t, height, Resolve(t, height, found, children[0]), d, children[1..])
  }

  ghost function ResolveDeltas(t: Tree, height: Det -> nat, found: seq<Det>, order: seq<Det>): seq<Det>
    requires IsTree(t, height) && forall d :: d in order ==> d in t.parent
    decreases order
  {
    if order == [] then found
    else
      assert order[0] in order;
      ResolveDeltas(t, height, Resolve(t, height, found, order[0]), order[1..])
  }

  /** `more` extends `found` by elements of the tree, each after its parent unless that is `top`'s. */
  ghost predicate Extends(t: Tree, found: seq<Det>, more: seq<Det>, top: Option<Det>) {
    && found <= more && Distinct(more)
    && forall i :: |found| <= i < |more| ==>
         && more[i] in t.parent
         && (Some(more[i]) == top || (t.parent[more[i]].Some? && t.parent[more[i]].value in more[..i]))
  }

  lemma ExtendsTwice(t: Tree, a: seq<Det>, b: seq<Det>, c: seq<Det>, top: Option<Det>)
    requires Extends(t, a, b, top) && Extends(t, b, c, None)
    ensures Extends(t, a, c, top)
  {
    forall i | |a| <= i < |c|
      ensures c[i] in t.parent
      ensures Some(c[i]) == top || (t.parent[c[i]].Some? && t.parent[c[i]].value in c[..i])
    {
      if i < |b| {
        assert c[..i] == b[..i] && c[i] == b[i];
      }
    }
  }

  lemma WithoutTop(t: Tree, a: seq<Det>, b: seq<Det>, top: Det)
    requires Extends(t, a, b, Some(top)) && Distinct(b)
    requires top in t.parent && t.parent[top].Some? && t.parent[top].value in a
    ensures Extends(t, a, b, None)
  {
    forall i | |a| <= i < |b| ensures t.parent[b[i]].Some? && t.parent[b[i]].value in b[..i] {
      assert t.parent[top].value in b[..i] by {
        assert a == b[..|a|];
        var j :| 0 <= j < |a| && a[j] == t.parent[top].value;
        assert b[..i][j] == a[j];
      }
    }
  }

  lemma {:induction false} ResolveExtends(t: Tree, height: Det -> nat, found: seq<Det>, d: Det)
    requires IsTree(t, height) && d in t.parent && Distinct(found)
    ensures Extends(t, found, Resolve(t, height, found, d), if d in found then None else Some(d))
    ensures forall x :: x in Resolve(t, height, found, d) <==>
              x in found || (x in t.parent && AtOrAbove(t, height, d, x))
    decreases height(d), 1, 0
  {
    var f1 := if d in found then found else found + [d];
    assert d in f1;
    ResolveAllExtends(t, height, f1, d, t.children[d]);
    var r := Resolve(t, height, found, d);
    ExtendsTwice(t, found, f1, r, if d in found then None else Some(d));
    forall x ensures x in r <==> x in found || (x in t.parent && AtOrAbove(t, height, d, x)) {
      SubtreeFirst(t, height, d, x);
    }
  }

  lemma {:induction false} ResolveAllExtends(t: Tree, height: Det -> nat, found: seq<Det>, d: Det, children: seq<Det>)
    requires IsTree(t, height) && d in t.parent && Distinct(found) && d in found
    requires forall c :: c in children ==> c in t.children[d]
    ensures Extends(t, found, ResolveAll(t, height, found, d, children), None)
    ensures forall x :: x in ResolveAll(t, height, found, d, children) <==>
              x in found || BelowSome(t, height, children, x)
    decreases height(d), 0, |children|
  {
    if children != [] {
      var c := children[0];
      assert c in children;
      ResolveExtends(t, height, found, c);
      var f1 := Resolve(t, height, found, c);
      if c !in found {
        WithoutTop(t, found, f1, c);
      }
      var j :| 0 <= j < |found| && found[j] == d;
      assert f1[j] == d;
      ResolveAllExtends(t, height, f1, d, children[1..]);
      ExtendsTwice(t, found, f1, ResolveAll(t, height, found, d, children), None);
      forall x ensures BelowSome(t, height, children, x) <==>
          (x in t.parent && AtOrAbove(t, height, c, x)) || BelowSome(t, height, children[1..], x) {
        BelowSomeFirst(t, height, children, x);
      }
    }
  }

  ghost predicate BelowSome(t: Tree, height: Det -> nat, tops: seq<Det>, x: Det)
    requires IsTree(t, height)
  {
    x in t.parent && exists c :: c in tops && AtOrAbove(t, height, c, x)
  }

  lemma BelowSomeFirst(t: Tree, height: Det -> nat, tops: seq<Det>, x: Det)
    requires IsTree(t, height) && tops != []
    ensures BelowSome(t, height, tops, x) <==>
              (x in t.parent && AtOrAbove(t, height, tops[0], x)) || BelowSome(t, height, tops[1..], x)
  {
    assert forall c :: c in tops <==> c == tops[0] || c in tops[1..];
  }

  /** What is at or below `d` is `d` or at or below one of its children. */
  lemma {:induction false} SubtreeFirst(t: Tree, height: Det -> nat, d: Det, x: Det)
    requires IsTree(t, height) && d in t.parent
    ensures x in t.parent && AtOrAbove(t, height, d, x) <==> x == d || BelowSome(t, height, t.children[d], x)
    decreases if x in t.path then |t.path[x]| else 0
  {
    if x in t.parent && x != d && t.parent[x].Some? {
      var p := t.parent[x].value;
      SubtreeFirst(t, height, d, p);
      if AtOrAbove(t, height, d, x) {
        if p == d {
          assert x in t.children[d] && AtOrAbove(t, height, x, x);
        } else {
          var c :| c in t.children[d] && AtOrAbove(t, height, c, p);
          assert AtOrAbove(t, height, c, x);
        }
      }
      if BelowSome(t, height, t.children[d], x) {
        var c :| c in t.children[d] && AtOrAbove(t, height, c, x);
        if c == x {
          assert p == d;
        } else {
          assert AtOrAbove(t, height, c, p);
        }
      }
    }
  }

  lemma {:induction false} ResolveDeltasExtends(t: Tree, height: Det -> nat, found: seq<Det>, order: seq<Det>)
    requires IsTree(t, height) && Distinct(found) && forall d :: d in order ==> d in t.parent && d in found
    ensures Extends(t, found, ResolveDeltas(t, height, found, order), None)
    ensures forall x :: x in ResolveDeltas(t, height, found, order) <==> x in found || BelowSome(t, height, order, x)
    decreases order
  {
    if order != [] {
      assert order[0] in order;
      ResolveExtends(t, height, found, order[0]);
      var f1 := Resolve(t, height, found, order[0]);
      forall d | d in order[1..] ensures d in f1 {
        assert d in order;
      }
      ResolveDeltasExtends(t, height, f1, order[1..]);
      ExtendsTwice(t, found, f1, ResolveDeltas(t, height, found, order), None);
      forall x ensures BelowSome(t, height, order, x) <==>
          (x in t.parent && AtOrAbove(t, height, order[0], x)) || BelowSome(t, height, order[1..], x) {
        BelowSomeFirst(t, height, order, x);
      }
    }
  }

  /** The elements in the order of computation: the deltas by path, then the rest. */
  ghost function Entries(t: Tree, height: Det -> nat, order: seq<Det>): seq<Det>
    requires IsTree(t, height) && InPathOrder(t, order)
  {
    ResolveDeltas(t, height, order, order)
  }

  /** Affected elements come after their affected parents. */
  ghost predicate ParentsFirst(t: Tree, entries: seq<Det>) {
    forall i :: 0 <= i < |entries| && entries[i] in t.parent && t.parent[entries[i]].Some? &&
                t.parent[entries[i]].value in entries ==>
      t.parent[entries[i]].value in entries[..i]
  }

  lemma OrderIsDistinct(t: Tree, order: seq<Det>)
    requires InPathOrder(t, order)
    ensures Distinct(order)
  {
    forall i, j | 0 <= i < j < |order| && order[i] == order[j] ensures false {
      LessIsAsymmetric(t.path[order[i]], t.path[order[j]]);
    }
  }

  /** Exactly the elements at or below a delta, each once. */
  lemma EntriesAreAffected(t: Tree, height: Det -> nat, order: seq<Det>)
    requires IsTree(t, height) && InPathOrder(t, order)
    ensures var e := Entries(t, height, order);
            && Distinct(e) && Extends(t, order, e, None)
            && forall x :: x in e <==> Affected(t, height, Elements(order), x)
  {
    OrderIsDistinct(t, order);
    ResolveDeltasExtends(t, height, order, order);
    var e := Entries(t, height, order);
    var deltas := Elements(order);
    forall x ensures x in e <==> Affected(t, height, deltas, x) {
      if x in order {
        assert AtOrAbove(t, height, x, x) && x in deltas;
      }
      if BelowSome(t, height, order, x) {
        var c :| c in order && AtOrAbove(t, height, c, x);
        assert c in deltas;
      }
      if Affected(t, height, deltas, x) {
        var a :| a in deltas && AtOrAbove(t, height, a, x);
        assert BelowSome(t, height, order, x);
      }
    }
  }

  /** Parents are computed first exactly when the deltas have no gap. */
  lemma ParentsFirstIffNoGap(t: Tree, height: Det -> nat, order: seq<Det>)
    requires IsTree(t, height) && InPathOrder(t, order)
    ensures ParentsFirst(t, Entries(t, height, order)) <==> NoGap(t, height, Elements(order))
  {
    if NoGap(t, height, Elements(order)) {
      NoGapParentsFirst(t, height, order);
    } else {
      var _ := GapChildFirst(t, height, order);
    }
  }

  lemma NoGapParentsFirst(t: Tree, height: Det -> nat, order: seq<Det>)
    requires IsTree(t, height) && InPathOrder(t, order) && NoGap(t, height, Elements(order))
    ensures ParentsFirst(t, Entries(t, height, order))
  {
    EntriesAreAffected(t, height, order);
    var e := Entries(t, height, order);
    forall i | 0 <= i < |e| && t.parent[e[i]].Some? && t.parent[e[i]].value in e
      ensures t.parent[e[i]].value in e[..i]
    {
      if i < |order| {
        assert e[i] == order[i] && e[..i] == order[..i];
        DeltaAfterParent(t, height, order, i);
      }
    }
  }

  /** A delta with a gap above it is computed before its affected parent. */
  lemma GapChildFirst(t: Tree, height: Det -> nat, order: seq<Det>) returns (i: nat)
    requires IsTree(t, height) && InPathOrder(t, order) && !NoGap(t, height, Elements(order))
    ensures var e := Entries(t, height, order);
            && i < |order| <= |e| && e[i] == order[i] && t.parent[e[i]].Some?
            && t.parent[e[i]].value in e && t.parent[e[i]].value !in e[..i]
  {
    EntriesAreAffected(t, height, order);
    var e, deltas := Entries(t, height, order), Elements(order);
    var d :| d in deltas && d in t.parent && t.parent[d].Some? && Affected(t, height, deltas, t.parent[d].value)
             && t.parent[d].value !in deltas;
    i :| 0 <= i < |order| && order[i] == d;
    StartsWith(order, e, i);
  }

  lemma StartsWith(order: seq<Det>, e: seq<Det>, i: nat)
    requires order <= e && i < |order|
    ensures e[i] == order[i] && e[..i] == order[..i]
  {
  }

  lemma DeltaAfterParent(t: Tree, height: Det -> nat, order: seq<Det>, i: nat)
    requires IsTree(t, height) && InPathOrder(t, order) && i < |order|
    requires t.parent[order[i]].Some? && t.parent[order[i]].value in order
    ensures t.parent[order[i]].value in order[..i]
  {
    var p := t.parent[order[i]].value;
    var j :| 0 <= j < |order| && order[j] == p;
    PrefixIsLess(t.path[p], t.path[order[i]]);
    if j > i {
      LessIsAsymmetric(t.path[p], t.path[order[i]]);
    }
    assert p != order[i];
    assert order[..i][j] == p;
  }
}
