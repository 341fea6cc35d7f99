/**
 Nominal transformations of detector elements from their placements (DDCore/src/AlignmentTools.cpp,
 DDCore/src/DetectorTools.cpp), over any associative product with a unit.
 */
module NominalTransforms {
  import opened Wrappers
  import opened PlacementPaths
  import A = AlignmentsCalculator

  ghost predicate IsMonoid<T(!new)>(ops: A.Ops<T>) {
    && (forall a, b, c :: ops.mul(a, ops.mul(b, c)) == ops.mul(ops.mul(a, b), c))
    && (forall a :: ops.mul(ops.unit, a) == a && ops.mul(a, ops.unit) == a)
  }

  /** `MultiplyLeft` with the matrix of each node in turn. */
  function Up<T>(ops: A.Ops<T>, matrix: Node -> T, nodes: seq<Node>): T {
    if nodes == [] then ops.unit else ops.mul(matrix(Last(nodes)), Up(ops, matrix, Front(nodes)))
  }

  /** `placementTrafo`: all nodes of a path but the last. */
  function PlacementTrafo<T>(ops: A.Ops<T>, matrix: Node -> T, path: seq<Node>): T {
    if path == [] then ops.unit else Up(ops, matrix, Front(path))
  }

  /** Transformations act on points, one after the other. */
  ghost predicate IsAction<T(!new), P(!new)>(ops: A.Ops<T>, act: (T, P) -> P) {
    && (forall a, b, x :: act(ops.mul(a, b), x) == act(a, act(b, x)))
    && (forall x :: act(ops.unit, x) == x)
  }

  /** A point after the matrix of the first node, then that of the next, and so on. */
  function Carried<T, P>(act: (T, P) -> P, matrix: Node -> T, nodes: seq<Node>, x: P): P
    decreases |nodes|
  {
    if nodes == [] then x else Carried(act, matrix, nodes[1..], act(matrix(nodes[0]), x))
  }

  lemma {:induction false} CarriedLast<T, P>(act: (T, P) -> P, matrix: Node -> T, nodes: seq<Node>, x: P)
    requires nodes != []
    ensures Carried(act, matrix, nodes, x) == act(matrix(Last(nodes)), Carried(act, matrix, Front(nodes), x))
    decreases |nodes|
  {
    if |nodes| > 1 {
      assert Last(nodes[1..]) == Last(nodes) && Front(nodes[1..]) == Front(nodes)[1..];
      CarriedLast(act, matrix, nodes[1..], act(matrix(nodes[0]), x));
    }
  }

  lemma {:induction false} UpCarries<T(!new), P(!new)>(
      ops: A.Ops<T>, matrix: Node -> T, nodes: seq<Node>, act: (T, P) -> P, x: P)
    requires IsAction(ops, act)
    ensures act(Up(ops, matrix, nodes), x) == Carried(act, matrix, nodes, x)
    decreases |nodes|
  {
    if nodes != [] {
      UpCarries(ops, matrix, Front(nodes), act, x);
      CarriedLast(act, matrix, nodes, x);
    }
  }

  /** Of a path the matrices of all nodes but the last act, the lowest first. */
  lemma PlacementCarries<T(!new), P(!new)>(ops: A.Ops<T>, matrix: Node -> T, path: seq<Node>, act: (T, P) -> P, x: P)
    requires IsAction(ops, act) && path != []
    ensures act(PlacementTrafo(ops, matrix, path), x) == Carried(act, matrix, path[..|path| - 1], x)
  {
    UpCarries(ops, matrix, Front(path), act, x);
  }

  /** A node in its mother has its own matrix. */
  lemma PairHasMatrix<T(!new)>(ops: A.Ops<T>, matrix: Node -> T, n: Node, mother: Node)
    requires IsMonoid(ops)
    ensures PlacementTrafo(ops, matrix, [n, mother]) == matrix(n)
  {
    assert Front([n, mother]) == [n] && Last([n]) == n && Front([n]) == [];
    assert Up(ops, matrix, [n]) == ops.mul(matrix(n), Up(ops, matrix, [])) == ops.mul(matrix(n), ops.unit);
  }

  /** The same in the loop of the source. */
  method ComputePlacementTrafo<T(!new), P(!new)>(ops: A.Ops<T>, matrix: Node -> T, path: seq<Node>, ghost act: (T, P) -> P)
    returns (mat: T)
    ensures mat == PlacementTrafo(ops, matrix, path)
    ensures IsAction(ops, act) && path != [] ==> forall x :: act(mat, x) == Carried(act, matrix, path[..|path| - 1], x)
  {
    if IsAction(ops, act) && path != [] {
      forall x ensures act(PlacementTrafo(ops, matrix, path), x) == Carried(act, matrix, path[..|path| - 1], x) {
        PlacementCarries(ops, matrix, path, act, x);
      }
    }
    mat := ops.unit;
    if path != [] {
      for i := 0 to |path| - 1
        invariant mat == Up(ops, matrix, path[..i])
      {
        assert Front(path[..i + 1]) == path[..i] && Last(path[..i + 1]) == path[i];
        mat := ops.mul(matrix(path[i]), mat);
      }
    }
  }

  /**
   `computeIdeal`: the transformation to the world of the element with the lowest of these
   placements, made from that of its parent; `None` if a placement is not found below the next.
   */
  function NominalWorld<T>(ops: A.Ops<T>, matrix: Node -> T, placements: seq<Node>): Option<T> {
    if |placements| <= 1 then Some(ops.unit)
    else
      var path := Make(placements[..2]);
      var parent := NominalWorld(ops, matrix, placements[1..]);
      if path == None || parent == None then None
      else Some(ops.mul(parent.value, PlacementTrafo(ops, matrix, path.value)))
  }

  lemma {:induction false} UpJoins<T(!new)>(ops: A.Ops<T>, matrix: Node -> T, a: seq<Node>, b: seq<Node>)
    requires IsMonoid(ops)
    ensures Up(ops, matrix, a + b) == ops.mul(Up(ops, matrix, b), Up(ops, matrix, a))
    decreases |b|
  {
    if b == [] {
      assert a + b == a;
    } else {
      assert Last(a + b) == Last(b) && Front(a + b) == a + Front(b);
      UpJoins(ops, matrix, a, Front(b));
    }
  }

  /** The path between two neighbours is what fills the hole between them. */
  lemma MakePair(placements: seq<Node>)
    requires |placements| > 1
    ensures var low := FindChild(placements[1], placements[0]);
            Make(placements[..2]) == if low == None then None else Some(low.value + [placements[1]])
  {
    var pair := placements[..2];
    assert pair[1..] == [placements[1]] && Make(pair[1..]) == Some([placements[1]]);
  }

  /** One element more: its own path to the parent joins the path of the parent. */
  lemma PathProductStep<T(!new)>(ops: A.Ops<T>, matrix: Node -> T, low: seq<Node>, next: Node, up: seq<Node>)
    requires IsMonoid(ops) && up != []
    ensures ops.mul(PlacementTrafo(ops, matrix, up), PlacementTrafo(ops, matrix, low + [next])) ==
            PlacementTrafo(ops, matrix, low + up)
  {
    assert Front(low + [next]) == low;
    assert Front(low + up) == low + Front(up);
    UpJoins(ops, matrix, low, Front(up));
  }

  lemma {:induction false} MakeIsPath(placements: seq<Node>)
    requires placements != []
    ensures Make(placements).Some? ==> Make(placements).value != []
  {
    if |placements| > 1 {
      MakeIsPath(placements[1..]);
    }
  }

  lemma {:induction false} NominalWorldIsProduct<T(!new)>(ops: A.Ops<T>, matrix: Node -> T, placements: seq<Node>)
    requires IsMonoid(ops) && placements != []
    ensures var path := Make(placements);
            NominalWorld(ops, matrix, placements) ==
            if path == None then None else Some(PlacementTrafo(ops, matrix, path.value))
    decreases |placements|
  {
    if |placements| == 1 {
      assert Make(placements) == Some(placements) && Front(placements) == [];
    } else {
      var low, up := FindChild(placements[1], placements[0]), Make(placements[1..]);
      NominalWorldIsProduct(ops, matrix, placements[1..]);
      MakePair(placements);
      MakeIsPath(placements[1..]);
      if low.Some? && up.Some? {
        PathProductStep(ops, matrix, low.value, placements[1], up.value);
      }
    }
  }

  /**
   The nominal transformation to the world, multiplied up element by element, is the product of
   the matrices along the assembled placement path, and exists exactly when that does: it carries
   a point by the matrix of the lowest node, then by that of the next, and so on below the top.
   */
  lemma NominalWorldIsPathProduct<T(!new), P(!new)>(
      ops: A.Ops<T>, matrix: Node -> T, placements: seq<Node>, act: (T, P) -> P, x: P)
    requires IsMonoid(ops) && placements != []
    ensures var path, world := Make(placements), NominalWorld(ops, matrix, placements);
            && world == (if path == None then None else Some(PlacementTrafo(ops, matrix, path.value)))
            && (path.Some? ==> path.value != [])
            && (path.Some? && IsAction(ops, act) ==>
                  act(world.value, x) == Carried(act, matrix, path.value[..|path.value| - 1], x))
  {
    NominalWorldIsProduct(ops, matrix, placements);
    MakeIsPath(placements);
    var path := Make(placements);
    if path.Some? && IsAction(ops, act) {
      PlacementCarries(ops, matrix, path.value, act, x);
    }
  }
}
