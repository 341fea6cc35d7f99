/**
 Collecting a geometry: nodes by depth, volumes daughters-first, shapes operands-first
 (DDCore/src/GeoHandler.cpp). Nodes, volumes, shapes and matrices are named by their address.
 */
module GeometryScan {
  import opened Wrappers

  type Node = nat
  type Volume = nat
  type ShapeId = nat
  type Matrix = nat

  datatype Shape =
    | Simple(id: ShapeId)
    | Composite(id: ShapeId, left: Shape, leftMatrix: Matrix, right: Shape, rightMatrix: Matrix)

  datatype Trafo = Trafo(node: string, matrix: Matrix)

  datatype Placed = Placed(name: string, volume: Volume, matrix: Matrix)
  datatype Content = Content(name: string, shape: Shape, daughters: seq<Node>)

  datatype Geometry = Geometry(nodes: map<Node, Placed>, volumes: map<Volume, Content>)

  function Daughters(g: Geometry, n: Node): seq<Node>
    requires n in g.nodes && g.nodes[n].volume in g.volumes
  {
    g.volumes[g.nodes[n].volume].daughters
  }

  /** The graph of volumes is closed and has no cycle: daughters have a smaller rank. */
  ghost predicate Acyclic(g: Geometry, rank: Volume -> nat) {
    && (forall n :: n in g.nodes ==> g.nodes[n].volume in g.volumes)
    && (forall v, d :: v in g.volumes && d in g.volumes[v].daughters ==>
          d in g.nodes && rank(g.nodes[d].volume) < rank(v))
  }

  ghost function Rank(g: Geometry, rank: Volume -> nat, n: Node): nat {
    if n in g.nodes then rank(g.nodes[n].volume) else 0
  }

  lemma DaughterOk(g: Geometry, rank: Volume -> nat, n: Node, d: Node)
    requires Acyclic(g, rank) && n in g.nodes
    ensures d in Daughters(g, n) ==> d in g.nodes && Rank(g, rank, d) < Rank(g, rank, n)
  {
  }

  // Nodes by depth.

  type Levels = map<nat, seq<Node>>

  function AddNode(data: Levels, level: nat, n: Node): Levels {
    if level in data && n in data[level] then data
    else data[level := (if level in data then data[level] else []) + [n]]
  }

  ghost function Collect(g: Geometry, rank: Volume -> nat, data: Levels, n: Node, level: nat): Levels
    requires Acyclic(g, rank) && n in g.nodes
    decreases Rank(g, rank, n), 1, 0
  {
    CollectAll(g, rank, AddNode(data, level, n), n, Daughters(g, n), level + 1)
  }

  ghost function CollectAll(g: Geometry, rank: Volume -> nat, data: Levels, n: Node, nodes: seq<Node>, level: nat): Levels
    requires Acyclic(g, rank) && n in g.nodes && forall d :: d in nodes ==> d in Daughters(g, n)
    decreases Rank(g, rank, n), 0, |nodes|
  {
    if nodes == [] then data
    else
      DaughterOk(g, rank, n, nodes[0]);
      CollectAll(g, rank, Collect(g, rank, data, nodes[0], level), n, nodes[1..], level)
  }

  /** A chain of placements, each node a daughter of the one before. */
  ghost predicate Chain(g: Geometry, p: seq<Node>) {
    && (forall n :: n in p ==> n in g.nodes && g.nodes[n].volume in g.volumes)
    && (forall i :: 0 < i < |p| ==> p[i] in Daughters(g, p[i - 1]))
  }

  /** `m` is `k` placements below `n`. */
  ghost predicate Below(g: Geometry, n: Node, m: Node, k: nat) {
    exists p :: Chain(g, p) && |p| == k + 1 && p[0] == n && p[k] == m
  }

  ghost predicate BelowAny(g: Geometry, nodes: seq<Node>, m: Node, k: nat) {
    exists d :: d in nodes && Below(g, d, m, k)
  }

  lemma BelowAnyFirst(g: Geometry, nodes: seq<Node>, m: Node, k: nat)
    requires nodes != []
    ensures BelowAny(g, nodes, m, k) <==> Below(g, nodes[0], m, k) || BelowAny(g, nodes[1..], m, k)
  {
    assert forall d :: d in nodes <==> d == nodes[0] || d in nodes[1..];
  }

  lemma BelowSelf(g: Geometry, rank: Volume -> nat, n: Node, m: Node)
    requires Acyclic(g, rank) && n in g.nodes
    ensures Below(g, n, m, 0) <==> m == n
  {
    assert Chain(g, [n]);
  }

  lemma BelowFirst(g: Geometry, rank: Volume -> nat, n: Node, m: Node, k: nat)
    requires Acyclic(g, rank) && n in g.nodes && k > 0
    ensures Below(g, n, m, k) <==> BelowAny(g, Daughters(g, n), m, k - 1)
  {
    if Below(g, n, m, k) {
      var p :| Chain(g, p) && |p| == k + 1 && p[0] == n && p[k] == m;
      assert forall i :: 0 < i < |p[1..]| ==> p[1..][i] == p[i + 1] && p[1..][i - 1] == p[i];
      assert Chain(g, p[1..]);
      assert p[1] in Daughters(g, n) && Below(g, p[1], m, k - 1);
    }
    if d :| d in Daughters(g, n) && Below(g, d, m, k - 1) {
      var p :| Chain(g, p) && |p| == k && p[0] == d && p[k - 1] == m;
      assert Chain(g, [n] + p);
    }
  }

  lemma BelowLast(g: Geometry, n: Node, m: Node, k: nat, d: Node)
    requires Below(g, n, m, k) && m in g.nodes && g.nodes[m].volume in g.volumes && d in Daughters(g, m)
    requires d in g.nodes && g.nodes[d].volume in g.volumes
    ensures Below(g, n, d, k + 1)
  {
    var p :| Chain(g, p) && |p| == k + 1 && p[0] == n && p[k] == m;
    assert Chain(g, p + [d]);
  }

  predicate InLevel(data: Levels, level: nat, m: Node) {
    level in data && m in data[level]
  }

  lemma {:induction false} CollectAdds(g: Geometry, rank: Volume -> nat, data: Levels, n: Node, level: nat, l: nat, m: Node)
    requires Acyclic(g, rank) && n in g.nodes
    ensures InLevel(Collect(g, rank, data, n, level), l, m) <==>
              InLevel(data, l, m) || (l >= level && Below(g, n, m, l - level))
    decreases Rank(g, rank, n), 1, 0
  {
    CollectAllAdds(g, rank, AddNode(data, level, n), n, Daughters(g, n), level + 1, l, m);
    BelowSelf(g, rank, n, m);
    if l > level {
      BelowFirst(g, rank, n, m, l - level);
    }
  }

  lemma {:induction false} CollectAllAdds(g: Geometry, rank: Volume -> nat, data: Levels, n: Node, nodes: seq<Node>, level: nat, l: nat, m: Node)
    requires Acyclic(g, rank) && n in g.nodes && forall d :: d in nodes ==> d in Daughters(g, n)
    ensures InLevel(CollectAll(g, rank, data, n, nodes, level), l, m) <==>
              InLevel(data, l, m) || (l >= level && BelowAny(g, nodes, m, l - level))
    decreases Rank(g, rank, n), 0, |nodes|
  {
    if nodes != [] {
      DaughterOk(g, rank, n, nodes[0]);
      CollectAdds(g, rank, data, nodes[0], level, l, m);
      CollectAllAdds(g, rank, Collect(g, rank, data, nodes[0], level), n, nodes[1..], level, l, m);
      if l >= level {
        BelowAnyFirst(g, nodes, m, l - level);
      }
    }
  }

  /** No node twice at one depth, and no depth without nodes. */
  ghost predicate Tidy(data: Levels) {
    forall l :: l in data ==> data[l] != [] && Distinct(data[l])
  }

  lemma {:induction false} CollectTidy(g: Geometry, rank: Volume -> nat, data: Levels, n: Node, level: nat)
    requires Acyclic(g, rank) && n in g.nodes && Tidy(data)
    ensures Tidy(Collect(g, rank, data, n, level))
    decreases Rank(g, rank, n), 1, 0
  {
    CollectAllTidy(g, rank, AddNode(data, level, n), n, Daughters(g, n), level + 1);
  }

  lemma {:induction false} CollectAllTidy(g: Geometry, rank: Volume -> nat, data: Levels, n: Node, nodes: seq<Node>, level: nat)
    requires Acyclic(g, rank) && n in g.nodes && Tidy(data) && forall d :: d in nodes ==> d in Daughters(g, n)
    ensures Tidy(CollectAll(g, rank, data, n, nodes, level))
    decreases Rank(g, rank, n), 0, |nodes|
  {
    if nodes != [] {
      DaughterOk(g, rank, n, nodes[0]);
      CollectTidy(g, rank, data, nodes[0], level);
      CollectAllTidy(g, rank, Collect(g, rank, data, nodes[0], level), n, nodes[1..], level);
    }
  }

  /** What has been collected from `top`: at each depth the nodes a chain of that length leads to. */
  ghost predicate LevelsOf(g: Geometry, top: Node, data: Levels) {
    Tidy(data) && forall l: nat, m :: InLevel(data, l, m) <==> Below(g, top, m, l)
  }

  lemma CollectIsExact(g: Geometry, rank: Volume -> nat, top: Node)
    requires Acyclic(g, rank) && top in g.nodes
    ensures LevelsOf(g, top, Collect(g, rank, map[], top, 0))
  {
    CollectTidy(g, rank, map[], top, 0);
    forall l: nat, m ensures InLevel(Collect(g, rank, map[], top, 0), l, m) <==> Below(g, top, m, l) {
      CollectAdds(g, rank, map[], top, 0, l, m);
    }
  }

  // The order of the nodes at a depth.

  /** The nodes `k` placements below `n`, in the order of a walk that goes down before it goes on. */
  ghost function At(g: Geometry, rank: Volume -> nat, n: Node, k: nat): seq<Node>
    requires Acyclic(g, rank) && n in g.nodes
    decreases Rank(g, rank, n), 1, 0
  {
    if k == 0 then [n] else AtAll(g, rank, n, Daughters(g, n), k - 1)
  }

  ghost function AtAll(g: Geometry, rank: Volume -> nat, n: Node, nodes: seq<Node>, k: nat): seq<Node>
    requires Acyclic(g, rank) && n in g.nodes && forall d :: d in nodes ==> d in Daughters(g, n)
    decreases Rank(g, rank, n), 0, |nodes|
  {
    if nodes == [] then []
    else
      DaughterOk(g, rank, n, nodes[0]);
      At(g, rank, nodes[0], k) + AtAll(g, rank, n, nodes[1..], k)
  }

  /** The nodes of `more` at the end of `nodes`, where they are new. */
  function Extend(nodes: seq<Node>, more: seq<Node>): seq<Node>
    decreases |more|
  {
    if more == [] then nodes
    else Extend(if more[0] in nodes then nodes else nodes + [more[0]], more[1..])
  }

  lemma {:induction false} ExtendTwice(nodes: seq<Node>, a: seq<Node>, b: seq<Node>)
    ensures Extend(nodes, a + b) == Extend(Extend(nodes, a), b)
    decreases |a|
  {
    if a == [] {
      assert a + b == b;
    } else {
      assert (a + b)[1..] == a[1..] + b;
      ExtendTwice(if a[0] in nodes then nodes else nodes + [a[0]], a[1..], b);
    }
  }

  function Level(data: Levels, l: nat): seq<Node> {
    if l in data then data[l] else []
  }

  lemma {:induction false} CollectInOrder(g: Geometry, rank: Volume -> nat, data: Levels, n: Node, level: nat, l: nat)
    requires Acyclic(g, rank) && n in g.nodes
    ensures Level(Collect(g, rank, data, n, level), l) ==
            if l < level then Level(data, l) else Extend(Level(data, l), At(g, rank, n, l - level))
    decreases Rank(g, rank, n), 1, 0
  {
    CollectAllInOrder(g, rank, AddNode(data, level, n), n, Daughters(g, n), level + 1, l);
    assert [n][1..] == [];
  }

  lemma {:induction false} CollectAllInOrder(
      g: Geometry, rank: Volume -> nat, data: Levels, n: Node, nodes: seq<Node>, level: nat, l: nat)
    requires Acyclic(g, rank) && n in g.nodes && forall d :: d in nodes ==> d in Daughters(g, n)
    ensures Level(CollectAll(g, rank, data, n, nodes, level), l) ==
            if l < level then Level(data, l) else Extend(Level(data, l), AtAll(g, rank, n, nodes, l - level))
    decreases Rank(g, rank, n), 0, |nodes|
  {
    if nodes != [] {
      DaughterOk(g, rank, n, nodes[0]);
      CollectInOrder(g, rank, data, nodes[0], level, l);
      CollectAllInOrder(g, rank, Collect(g, rank, data, nodes[0], level), n, nodes[1..], level, l);
      if l >= level {
        ExtendTwice(Level(data, l), At(g, rank, nodes[0], l - level), AtAll(g, rank, n, nodes[1..], l - level));
      }
    }
  }

  /** At each depth stand the first occurrences of that walk. */
  ghost predicate InWalkOrder(g: Geometry, rank: Volume -> nat, top: Node, data: Levels)
    requires Acyclic(g, rank) && top in g.nodes
  {
    forall l: nat :: Level(data, l) == Extend([], At(g, rank, top, l))
  }

  lemma CollectWalks(g: Geometry, rank: Volume -> nat, top: Node)
    requires Acyclic(g, rank) && top in g.nodes
    ensures InWalkOrder(g, rank, top, Collect(g, rank, map[], top, 0))
  {
    forall l: nat ensures Level(Collect(g, rank, map[], top, 0), l) == Extend([], At(g, rank, top, l)) {
      CollectInOrder(g, rank, map[], top, 0, l);
    }
  }

  /** The depths in use are `0 .. |data| - 1`. */
  lemma {:induction false} DepthsAreContiguous(g: Geometry, top: Node, data: Levels, l: nat)
    requires LevelsOf(g, top, data) && top in g.nodes && g.nodes[top].volume in g.volumes
    ensures l in data ==> forall i: nat :: i <= l ==> i in data
    decreases l
  {
    if l in data && l > 0 {
      var m := data[l][0];
      assert InLevel(data, l, m);
      var p :| Chain(g, p) && |p| == l + 1 && p[0] == top && p[l] == m;
      assert Chain(g, p[..l]);
      assert Below(g, top, p[l - 1], l - 1);
      assert InLevel(data, l - 1, p[l - 1]);
      DepthsAreContiguous(g, top, data, l - 1);
    }
  }

  /** No chain is longer than the rank of its top. */
  lemma {:induction false} DepthBound(g: Geometry, rank: Volume -> nat, p: seq<Node>)
    requires Acyclic(g, rank) && Chain(g, p) && p != []
    ensures |p| <= Rank(g, rank, p[0]) + 1
    decreases |p|
  {
    if |p| > 1 {
      DaughterOk(g, rank, p[0], p[1]);
      assert forall i :: 0 < i < |p[1..]| ==> p[1..][i] == p[i + 1] && p[1..][i - 1] == p[i];
      DepthBound(g, rank, p[1..]);
    }
  }

  // Volumes and shapes, deepest nodes first.

  datatype Info = Info(volumes: seq<Volume>, volumeSet: set<Volume>, solids: seq<Shape>, solidSet: set<ShapeId>, trafos: seq<Trafo>)

  function AddShape(info: Info, s: Shape): Info {
    if s.id in info.solidSet then info
    else info.(solids := info.solids + [s], solidSet := info.solidSet + {s.id})
  }

  function CollectSolid(info: Info, name: string, node: string, s: Shape, matrix: Matrix): Info
    decreases s
  {
    var info1 :=
      if s.Simple? then info
      else CollectSolid(CollectSolid(info, name + "_left", name + "_left", s.left, s.leftMatrix),
                        name + "_right", name + "_right", s.right, s.rightMatrix);
    var info2 := AddShape(info1, s);
    info2.(trafos := info2.trafos + [Trafo(node, matrix)])
  }

  function AddVolume(info: Info, v: Volume): Info {
    if v in info.volumeSet then info
    else info.(volumes := info.volumes + [v], volumeSet := info.volumeSet + {v})
  }

  function Visit(g: Geometry, info: Info, n: Node): Info
    requires n in g.nodes && g.nodes[n].volume in g.volumes
  {
    var p := g.nodes[n];
    var c := g.volumes[p.volume];
    CollectSolid(AddVolume(info, p.volume), c.name, p.name, c.shape, p.matrix)
  }

  function VisitAll(g: Geometry, info: Info, nodes: seq<Node>): Info
    requires forall n :: n in nodes ==> n in g.nodes && g.nodes[n].volume in g.volumes
  {
    if nodes == [] then info else Visit(g, VisitAll(g, info, Front(nodes)), Last(nodes))
  }

  predicate Known(g: Geometry, data: Levels) {
    forall l, n :: l in data && n in data[l] ==> n in g.nodes && g.nodes[n].volume in g.volumes
  }

  /** The levels `l, l + 1, .. depth - 1`, deepest first. */
  function VisitLevels(g: Geometry, info: Info, data: Levels, l: nat, depth: nat): Info
    requires l <= depth && Known(g, data) && forall i :: l <= i < depth ==> i in data
    decreases depth - l
  {
    if l == depth then info else VisitAll(g, VisitLevels(g, info, data, l + 1, depth), data[l])
  }

  lemma {:induction false} CollectSolidKeepsVolumes(info: Info, name: string, node: string, s: Shape, matrix: Matrix)
    ensures var r := CollectSolid(info, name, node, s, matrix); r.volumes == info.volumes && r.volumeSet == info.volumeSet
    decreases s
  {
    if s.Composite? {
      CollectSolidKeepsVolumes(info, name + "_left", name + "_left", s.left, s.leftMatrix);
      CollectSolidKeepsVolumes(CollectSolid(info, name + "_left", name + "_left", s.left, s.leftMatrix),
                               name + "_right", name + "_right", s.right, s.rightMatrix);
    }
  }

  /** Each volume once, and every daughter volume strictly before all its mothers. */
  ghost predicate DaughtersFirst(g: Geometry, info: Info) {
    && Distinct(info.volumes)
    && (forall v :: v in info.volumes <==> v in info.volumeSet)
    && (forall i, d :: 0 <= i < |info.volumes| && info.volumes[i] in g.volumes && d in g.volumes[info.volumes[i]].daughters ==>
          d in g.nodes && g.nodes[d].volume in info.volumes[..i])
  }

  lemma AddVolumeKeeps(g: Geometry, info: Info, v: Volume)
    requires DaughtersFirst(g, info) && v in g.volumes
    requires forall d :: d in g.volumes[v].daughters ==> d in g.nodes && g.nodes[d].volume in info.volumeSet
    ensures DaughtersFirst(g, AddVolume(info, v))
  {
    var r := AddVolume(info, v);
    forall i, d | 0 <= i < |r.volumes| && r.volumes[i] in g.volumes && d in g.volumes[r.volumes[i]].daughters
      ensures d in g.nodes && g.nodes[d].volume in r.volumes[..i]
    {
      if i < |info.volumes| {
        assert r.volumes[..i] == info.volumes[..i];
      } else {
        assert r.volumes[..i] == info.volumes;
      }
    }
  }

  lemma VisitKeeps(g: Geometry, info: Info, n: Node)
    requires n in g.nodes && g.nodes[n].volume in g.volumes && DaughtersFirst(g, info)
    requires forall d :: d in Daughters(g, n) ==> d in g.nodes && g.nodes[d].volume in info.volumeSet
    ensures var r := Visit(g, info, n);
            DaughtersFirst(g, r) && r.volumeSet == info.volumeSet + {g.nodes[n].volume}
  {
    var p := g.nodes[n];
    AddVolumeKeeps(g, info, p.volume);
    var c := g.volumes[p.volume];
    CollectSolidKeepsVolumes(AddVolume(info, p.volume), c.name, p.name, c.shape, p.matrix);
  }

  lemma {:induction false} VisitAllKeeps(g: Geometry, info: Info, nodes: seq<Node>)
    requires forall n :: n in nodes ==> n in g.nodes && g.nodes[n].volume in g.volumes
    requires DaughtersFirst(g, info)
    requires forall n, d :: n in nodes && d in Daughters(g, n) ==> d in g.nodes && g.nodes[d].volume in info.volumeSet
    ensures var r := VisitAll(g, info, nodes);
            DaughtersFirst(g, r) && r.volumeSet == info.volumeSet + set n | n in nodes :: g.nodes[n].volume
    decreases nodes
  {
    if nodes != [] {
      assert nodes == Front(nodes) + [Last(nodes)];
      VisitAllKeeps(g, info, Front(nodes));
      VisitKeeps(g, VisitAll(g, info, Front(nodes)), Last(nodes));
    }
  }

  /** The volumes of the nodes at the depths `l .. depth - 1`. */
  ghost predicate AtDepths(g: Geometry, data: Levels, l: nat, depth: nat, v: Volume) {
    exists i: nat, n :: l <= i < depth && InLevel(data, i, n) && n in g.nodes && g.nodes[n].volume == v
  }

  lemma DaughterDeeper(g: Geometry, rank: Volume -> nat, top: Node, data: Levels, l: nat, depth: nat, n: Node, d: Node)
    requires Acyclic(g, rank) && LevelsOf(g, top, data) && Known(g, data)
    requires l in data && n in data[l] && d in Daughters(g, n) && forall i :: i in data ==> i < depth
    ensures d in g.nodes && AtDepths(g, data, l + 1, depth, g.nodes[d].volume)
  {
    DaughterOk(g, rank, n, d);
    assert InLevel(data, l, n);
    BelowLast(g, top, n, l, d);
    assert InLevel(data, l + 1, d);
  }

  /** `r` holds the volumes of `info` and those at the depths `l .. depth - 1`. */
  ghost predicate VolumesAdded(g: Geometry, info: Info, data: Levels, l: nat, depth: nat, r: Info) {
    forall v :: v in r.volumeSet <==> v in info.volumeSet || AtDepths(g, data, l, depth, v)
  }

  lemma DaughtersVisited(g: Geometry, rank: Volume -> nat, top: Node, info: Info, data: Levels, l: nat, depth: nat, t: Info)
    requires Acyclic(g, rank) && LevelsOf(g, top, data) && Known(g, data)
    requires l in data && (forall i :: i in data ==> i < depth) && VolumesAdded(g, info, data, l + 1, depth, t)
    ensures forall n, d :: n in data[l] && d in Daughters(g, n) ==> d in g.nodes && g.nodes[d].volume in t.volumeSet
  {
    forall n, d | n in data[l] && d in Daughters(g, n) ensures d in g.nodes && g.nodes[d].volume in t.volumeSet {
      DaughterDeeper(g, rank, top, data, l, depth, n, d);
    }
  }

  lemma LevelAdded(g: Geometry, info: Info, data: Levels, l: nat, depth: nat, t: Info, r: Info)
    requires l < depth && l in data && Known(g, data) && VolumesAdded(g, info, data, l + 1, depth, t)
    requires r.volumeSet == t.volumeSet + set n | n in data[l] :: g.nodes[n].volume
    ensures VolumesAdded(g, info, data, l, depth, r)
  {
    forall v ensures v in r.volumeSet <==> v in info.volumeSet || AtDepths(g, data, l, depth, v) {
      AtDepthsFirst(g, data, l, depth, v);
    }
  }

  lemma {:induction false} VisitLevelsKeeps(g: Geometry, rank: Volume -> nat, top: Node, info: Info, data: Levels, l: nat, depth: nat)
    requires Acyclic(g, rank) && LevelsOf(g, top, data) && Known(g, data)
    requires l <= depth && (forall i :: l <= i < depth ==> i in data) && (forall i :: i in data ==> i < depth)
    requires DaughtersFirst(g, info)
    ensures DaughtersFirst(g, VisitLevels(g, info, data, l, depth))
    ensures VolumesAdded(g, info, data, l, depth, VisitLevels(g, info, data, l, depth))
    decreases depth - l
  {
    if l < depth {
      VisitLevelsKeeps(g, rank, top, info, data, l + 1, depth);
      var t := VisitLevels(g, info, data, l + 1, depth);
      DaughtersVisited(g, rank, top, info, data, l, depth, t);
      VisitAllKeeps(g, t, data[l]);
      LevelAdded(g, info, data, l, depth, t, VisitAll(g, t, data[l]));
    }
  }

  lemma AtDepthsFirst(g: Geometry, data: Levels, l: nat, depth: nat, v: Volume)
    requires l < depth && l in data && Known(g, data)
    ensures AtDepths(g, data, l, depth, v) <==>
              AtDepths(g, data, l + 1, depth, v) || v in set n | n in data[l] :: g.nodes[n].volume
  {
    if n :| n in data[l] && g.nodes[n].volume == v {
      assert InLevel(data, l, n);
    }
  }

  /** Volume `v` is that of a node in the hierarchy of `top`. */
  ghost predicate Reachable(g: Geometry, top: Node, v: Volume) {
    exists k: nat, n :: Below(g, top, n, k) && n in g.nodes && g.nodes[n].volume == v
  }

  /** From nothing, the scan lists each reachable volume once and daughters before mothers. */
  lemma VolumesAreOrdered(g: Geometry, rank: Volume -> nat, top: Node, data: Levels, depth: nat)
    requires Acyclic(g, rank) && top in g.nodes && LevelsOf(g, top, data) && Known(g, data)
    requires forall i: nat :: i in data <==> i < depth
    ensures var r := VisitLevels(g, Info([], {}, [], {}, []), data, 0, depth);
            && DaughtersFirst(g, r)
            && forall v :: v in r.volumes <==> Reachable(g, top, v)
  {
    var empty := Info([], {}, [], {}, []);
    VisitLevelsKeeps(g, rank, top, empty, data, 0, depth);
    var r := VisitLevels(g, empty, data, 0, depth);
    forall v ensures v in r.volumes <==> Reachable(g, top, v) {
      if k: nat, n :| Below(g, top, n, k) && n in g.nodes && g.nodes[n].volume == v {
        assert InLevel(data, k, n);
        assert AtDepths(g, data, 0, depth, v);
      }
      if AtDepths(g, data, 0, depth, v) {
        var i: nat, n :| 0 <= i < depth && InLevel(data, i, n) && n in g.nodes && g.nodes[n].volume == v;
        assert Below(g, top, n, i);
      }
    }
  }

  // Shapes.

  function Ids(s: Shape): set<ShapeId> {
    {s.id} + if s.Simple? then {} else Ids(s.left) + Ids(s.right)
  }

  /** The placements inside a shape: those of the operands, then its own. */
  function Trafos(name: string, node: string, s: Shape, matrix: Matrix): seq<Trafo>
    decreases s
  {
    (if s.Simple? then []
     else Trafos(name + "_left", name + "_left", s.left, s.leftMatrix) +
          Trafos(name + "_right", name + "_right", s.right, s.rightMatrix)) + [Trafo(node, matrix)]
  }

  predicate Listed(solids: seq<Shape>, id: ShapeId) {
    exists i :: 0 <= i < |solids| && solids[i].id == id
  }

  /** Each shape once, list and set agreeing, and both operands before each composite. */
  ghost predicate OperandsFirst(info: Info) {
    && (forall i, j :: 0 <= i < j < |info.solids| ==> info.solids[i].id != info.solids[j].id)
    && (forall id :: id in info.solidSet <==> Listed(info.solids, id))
    && (forall i :: 0 <= i < |info.solids| && info.solids[i].Composite? ==>
          Listed(info.solids[..i], info.solids[i].left.id) && Listed(info.solids[..i], info.solids[i].right.id))
  }

  lemma AddShapeKeeps(info: Info, s: Shape)
    requires OperandsFirst(info)
    requires s.Composite? ==> s.left.id in info.solidSet && s.right.id in info.solidSet
    ensures OperandsFirst(AddShape(info, s)) && AddShape(info, s).solidSet == info.solidSet + {s.id}
  {
    if s.id !in info.solidSet {
      var r := AddShape(info, s);
      var n := |info.solids|;
      forall i | 0 <= i < |r.solids| && r.solids[i].Composite?
        ensures Listed(r.solids[..i], r.solids[i].left.id) && Listed(r.solids[..i], r.solids[i].right.id)
      {
        assert r.solids[..i] == info.solids[..i];
        assert info.solids[..n] == info.solids;
      }
      forall id ensures id in r.solidSet <==> Listed(r.solids, id) {
        if id == s.id {
          assert r.solids[n].id == id;
        } else if i :| 0 <= i < n && info.solids[i].id == id {
          assert r.solids[i].id == id;
        }
      }
      forall i, j | 0 <= i < j < |r.solids| ensures r.solids[i].id != r.solids[j].id {
        assert j == n ==> Listed(info.solids, r.solids[i].id);
      }
    }
  }

  /** `r` is `info` with the parts of `s` added, operands first, and their placements listed. */
  ghost predicate ShapeAdded(info: Info, s: Shape, trafos: seq<Trafo>, r: Info) {
    OperandsFirst(r) && r.solidSet == info.solidSet + Ids(s) && r.trafos == info.trafos + trafos
  }

  lemma {:induction false} CollectSolidKeeps(info: Info, name: string, node: string, s: Shape, matrix: Matrix)
    requires OperandsFirst(info)
    ensures ShapeAdded(info, s, Trafos(name, node, s, matrix), CollectSolid(info, name, node, s, matrix))
    decreases s
  {
    if s.Simple? {
      AddShapeKeeps(info, s);
    } else {
      var ln, rn := name + "_left", name + "_right";
      CollectSolidKeeps(info, ln, ln, s.left, s.leftMatrix);
      var l := CollectSolid(info, ln, ln, s.left, s.leftMatrix);
      CollectSolidKeeps(l, rn, rn, s.right, s.rightMatrix);
      var r := CollectSolid(l, rn, rn, s.right, s.rightMatrix);
      CompositeAdded(info, l, r, s, Trafos(ln, ln, s.left, s.leftMatrix), Trafos(rn, rn, s.right, s.rightMatrix), Trafo(node, matrix));
      assert CollectSolid(info, name, node, s, matrix) == AddShape(r, s).(trafos := r.trafos + [Trafo(node, matrix)]);
    }
  }

  lemma PlacementsAside(info: Info, trafos: seq<Trafo>)
    requires OperandsFirst(info)
    ensures OperandsFirst(info.(trafos := trafos))
  {
  }

  lemma PlacementsInOrder(all: seq<Trafo>, left: seq<Trafo>, right: seq<Trafo>, own: Trafo)
    ensures ((all + left) + right) + [own] == all + (left + right + [own])
  {
  }

  lemma OperandsHeld(info: Info, l: Info, r: Info, s: Shape)
    requires s.Composite? && l.solidSet == info.solidSet + Ids(s.left) && r.solidSet == l.solidSet + Ids(s.right)
    ensures s.left.id in r.solidSet && s.right.id in r.solidSet
    ensures r.solidSet + {s.id} == info.solidSet + Ids(s)
  {
  }

  lemma CompositeAdded(info: Info, l: Info, r: Info, s: Shape, left: seq<Trafo>, right: seq<Trafo>, own: Trafo)
    requires s.Composite? && ShapeAdded(info, s.left, left, l) && ShapeAdded(l, s.right, right, r)
    ensures ShapeAdded(info, s, left + right + [own], AddShape(r, s).(trafos := r.trafos + [own]))
  {
    OperandsHeld(info, l, r, s);
    AddShapeKeeps(r, s);
    PlacementsInOrder(info.trafos, left, right, own);
    PlacementsAside(AddShape(r, s), r.trafos + [own]);
  }

  /** `id` is the shape of the volume of `n`, or an operand in it. */
  predicate HasShape(g: Geometry, n: Node, id: ShapeId) {
    n in g.nodes && g.nodes[n].volume in g.volumes && id in Ids(g.volumes[g.nodes[n].volume].shape)
  }

  ghost predicate ShapeAmong(g: Geometry, nodes: seq<Node>, id: ShapeId) {
    exists n :: n in nodes && HasShape(g, n, id)
  }

  lemma ShapeAmongLast(g: Geometry, nodes: seq<Node>, id: ShapeId)
    requires nodes != []
    ensures ShapeAmong(g, nodes, id) <==> ShapeAmong(g, Front(nodes), id) || HasShape(g, Last(nodes), id)
  {
    assert nodes == Front(nodes) + [Last(nodes)];
  }

  lemma VisitSolids(g: Geometry, info: Info, n: Node, id: ShapeId)
    requires n in g.nodes && g.nodes[n].volume in g.volumes && OperandsFirst(info)
    ensures OperandsFirst(Visit(g, info, n))
    ensures id in Visit(g, info, n).solidSet <==> id in info.solidSet || HasShape(g, n, id)
  {
    var p := g.nodes[n];
    var c := g.volumes[p.volume];
    CollectSolidKeeps(AddVolume(info, p.volume), c.name, p.name, c.shape, p.matrix);
  }

  lemma {:induction false} VisitAllSolids(g: Geometry, info: Info, nodes: seq<Node>, id: ShapeId)
    requires forall n :: n in nodes ==> n in g.nodes && g.nodes[n].volume in g.volumes
    requires OperandsFirst(info)
    ensures OperandsFirst(VisitAll(g, info, nodes))
    ensures id in VisitAll(g, info, nodes).solidSet <==> id in info.solidSet || ShapeAmong(g, nodes, id)
    decreases nodes
  {
    if nodes != [] {
      ShapeAmongLast(g, nodes, id);
      assert nodes == Front(nodes) + [Last(nodes)];
      VisitAllSolids(g, info, Front(nodes), id);
      VisitSolids(g, VisitAll(g, info, Front(nodes)), Last(nodes), id);
    }
  }

  /** The shapes of the nodes at the depths `l .. depth - 1`, with their operands. */
  ghost predicate ShapeAtDepths(g: Geometry, data: Levels, l: nat, depth: nat, id: ShapeId) {
    exists i: nat, n :: l <= i < depth && InLevel(data, i, n) && HasShape(g, n, id)
  }

  lemma ShapeAtDepthsFirst(g: Geometry, data: Levels, l: nat, depth: nat, id: ShapeId)
    requires l < depth && l in data
    ensures ShapeAtDepths(g, data, l, depth, id) <==> ShapeAtDepths(g, data, l + 1, depth, id) || ShapeAmong(g, data[l], id)
  {
    if n :| n in data[l] && HasShape(g, n, id) {
      assert InLevel(data, l, n);
    }
  }

  lemma {:induction false} VisitLevelsSolids(g: Geometry, info: Info, data: Levels, l: nat, depth: nat, id: ShapeId)
    requires l <= depth && Known(g, data) && forall i :: l <= i < depth ==> i in data
    requires OperandsFirst(info)
    ensures OperandsFirst(VisitLevels(g, info, data, l, depth))
    ensures id in VisitLevels(g, info, data, l, depth).solidSet <==>
            id in info.solidSet || ShapeAtDepths(g, data, l, depth, id)
    decreases depth - l
  {
    if l < depth {
      ShapeAtDepthsFirst(g, data, l, depth, id);
      VisitLevelsSolids(g, info, data, l + 1, depth, id);
      VisitAllSolids(g, VisitLevels(g, info, data, l + 1, depth), data[l], id);
    }
  }

  /** `id` is a shape, or an operand in one, of a volume in the hierarchy of `top`. */
  ghost predicate ReachableShape(g: Geometry, top: Node, id: ShapeId) {
    exists v :: Reachable(g, top, v) && v in g.volumes && id in Ids(g.volumes[v].shape)
  }

  lemma AllShapesReachable(g: Geometry, top: Node, data: Levels, depth: nat, id: ShapeId)
    requires LevelsOf(g, top, data) && forall i: nat :: i in data <==> i < depth
    ensures ShapeAtDepths(g, data, 0, depth, id) <==> ReachableShape(g, top, id)
  {
    if ShapeAtDepths(g, data, 0, depth, id) {
      var i: nat, n :| 0 <= i < depth && InLevel(data, i, n) && HasShape(g, n, id);
      assert Below(g, top, n, i);
      assert Reachable(g, top, g.nodes[n].volume);
    }
    if v :| Reachable(g, top, v) && v in g.volumes && id in Ids(g.volumes[v].shape) {
      var k: nat, n :| Below(g, top, n, k) && n in g.nodes && g.nodes[n].volume == v;
      assert InLevel(data, k, n) && HasShape(g, n, id);
    }
  }

  /** From nothing, the scan lists each shape of a reachable volume once, and operands before composites. */
  lemma SolidsAreOrdered(g: Geometry, top: Node, data: Levels, depth: nat)
    requires LevelsOf(g, top, data) && Known(g, data) && forall i: nat :: i in data <==> i < depth
    ensures var r := VisitLevels(g, Info([], {}, [], {}, []), data, 0, depth);
            && OperandsFirst(r)
            && forall id :: Listed(r.solids, id) <==> ReachableShape(g, top, id)
  {
    var empty := Info([], {}, [], {}, []);
    VisitLevelsSolids(g, empty, data, 0, depth, 0);
    var r := VisitLevels(g, empty, data, 0, depth);
    forall id ensures Listed(r.solids, id) <==> ReachableShape(g, top, id) {
      VisitLevelsSolids(g, empty, data, 0, depth, id);
      AllShapesReachable(g, top, data, depth, id);
    }
  }

  // The whole scan, in the order of the nodes visited.

  /** The nodes at the depths `l .. depth - 1`, deepest first. */
  function Visited(data: Levels, l: nat, depth: nat): seq<Node>
    requires l <= depth
    decreases depth - l
  {
    if l == depth then [] else Visited(data, l + 1, depth) + Level(data, l)
  }

  predicate AllKnown(g: Geometry, nodes: seq<Node>) {
    forall n :: n in nodes ==> n in g.nodes && g.nodes[n].volume in g.volumes
  }

  function VolumesOf(g: Geometry, nodes: seq<Node>): seq<Volume>
    requires AllKnown(g, nodes)
  {
    seq(|nodes|, i requires 0 <= i < |nodes| => g.nodes[nodes[i]].volume)
  }

  /** A shape behind its operands. */
  function Parts(s: Shape): seq<Shape> {
    (if s.Simple? then [] else Parts(s.left) + Parts(s.right)) + [s]
  }

  function AllParts(g: Geometry, nodes: seq<Node>): seq<Shape>
    requires AllKnown(g, nodes)
  {
    if nodes == [] then []
    else AllParts(g, Front(nodes)) + Parts(g.volumes[g.nodes[Last(nodes)].volume].shape)
  }

  /** The placements of each node visited: in its own shape by the names of the volume, itself by its own name. */
  function AllTrafos(g: Geometry, nodes: seq<Node>): seq<Trafo>
    requires AllKnown(g, nodes)
  {
    if nodes == [] then []
    else
      var p := g.nodes[Last(nodes)];
      var c := g.volumes[p.volume];
      AllTrafos(g, Front(nodes)) + Trafos(c.name, p.name, c.shape, p.matrix)
  }

  function FirstVolumes(all: seq<Volume>): seq<Volume> {
    if all == [] then []
    else FirstVolumes(Front(all)) + if Last(all) in Front(all) then [] else [Last(all)]
  }

  function FirstShapes(all: seq<Shape>): seq<Shape> {
    if all == [] then []
    else FirstShapes(Front(all)) + if Listed(Front(all), Last(all).id) then [] else [Last(all)]
  }

  /** What has been collected once the shapes `all` have come by. */
  ghost predicate ShapesSeen(info: Info, all: seq<Shape>) {
    info.solids == FirstShapes(all) && forall id :: id in info.solidSet <==> Listed(all, id)
  }

  /** What has been collected once the nodes `done` have been visited. */
  ghost predicate Scanned(g: Geometry, info: Info, done: seq<Node>)
    requires AllKnown(g, done)
  {
    && info.trafos == AllTrafos(g, done)
    && info.volumes == FirstVolumes(VolumesOf(g, done))
    && (forall v :: v in info.volumeSet <==> v in VolumesOf(g, done))
    && ShapesSeen(info, AllParts(g, done))
  }

  lemma AddShapeSeen(info: Info, all: seq<Shape>, s: Shape)
    requires ShapesSeen(info, all)
    ensures ShapesSeen(AddShape(info, s), all + [s])
  {
    assert Front(all + [s]) == all && Last(all + [s]) == s;
    var more := all + [s];
    forall id ensures id in AddShape(info, s).solidSet <==> Listed(more, id) {
      if i :| 0 <= i < |all| && all[i].id == id {
        assert more[i].id == id;
      }
      assert more[|all|].id == s.id;
    }
  }

  /** From `info`, which has seen `all`, to `r`: the shapes `parts` and the placements `trafos` have come by. */
  ghost predicate Seen(info: Info, all: seq<Shape>, parts: seq<Shape>, trafos: seq<Trafo>, r: Info) {
    ShapesSeen(r, all + parts) && r.trafos == info.trafos + trafos
  }

  lemma PartsInOrder(all: seq<Shape>, left: seq<Shape>, right: seq<Shape>, s: Shape)
    ensures ((all + left) + right) + [s] == all + (left + right + [s])
  {
  }

  lemma CompositeSeen(info: Info, l: Info, r: Info, all: seq<Shape>, s: Shape, left: seq<Trafo>, right: seq<Trafo>, own: Trafo)
    requires s.Composite? && Seen(info, all, Parts(s.left), left, l) && Seen(l, all + Parts(s.left), Parts(s.right), right, r)
    ensures Seen(info, all, Parts(s), left + right + [own], AddShape(r, s).(trafos := r.trafos + [own]))
  {
    AddShapeSeen(r, (all + Parts(s.left)) + Parts(s.right), s);
    PartsInOrder(all, Parts(s.left), Parts(s.right), s);
    PlacementsInOrder(info.trafos, left, right, own);
  }

  lemma {:induction false} CollectSolidSeen(info: Info, name: string, node: string, s: Shape, matrix: Matrix, all: seq<Shape>)
    requires ShapesSeen(info, all)
    ensures Seen(info, all, Parts(s), Trafos(name, node, s, matrix), CollectSolid(info, name, node, s, matrix))
    decreases s
  {
    if s.Simple? {
      AddShapeSeen(info, all, s);
    } else {
      var ln, rn := name + "_left", name + "_right";
      var l := CollectSolid(info, ln, ln, s.left, s.leftMatrix);
      var r := CollectSolid(l, rn, rn, s.right, s.rightMatrix);
      CollectSolidSeen(info, ln, ln, s.left, s.leftMatrix, all);
      CollectSolidSeen(l, rn, rn, s.right, s.rightMatrix, all + Parts(s.left));
      CompositeSeen(info, l, r, all, s,
                    Trafos(ln, ln, s.left, s.leftMatrix), Trafos(rn, rn, s.right, s.rightMatrix), Trafo(node, matrix));
      assert CollectSolid(info, name, node, s, matrix) == AddShape(r, s).(trafos := r.trafos + [Trafo(node, matrix)]);
    }
  }

  lemma VisitScans(g: Geometry, info: Info, done: seq<Node>, n: Node)
    requires AllKnown(g, done + [n]) && AllKnown(g, done) && Scanned(g, info, done)
    requires n in g.nodes && g.nodes[n].volume in g.volumes
    ensures Scanned(g, Visit(g, info, n), done + [n])
  {
    var p := g.nodes[n];
    var c := g.volumes[p.volume];
    var start := AddVolume(info, p.volume);
    assert Front(done + [n]) == done && Last(done + [n]) == n;
    var before, after := VolumesOf(g, done), VolumesOf(g, done + [n]);
    assert after == before + [p.volume] && Front(after) == before && Last(after) == p.volume;
    CollectSolidSeen(start, c.name, p.name, c.shape, p.matrix, AllParts(g, done));
    CollectSolidKeepsVolumes(start, c.name, p.name, c.shape, p.matrix);
  }

  lemma {:induction false} VisitAllScans(g: Geometry, info: Info, done: seq<Node>, nodes: seq<Node>)
    requires AllKnown(g, done) && AllKnown(g, nodes) && Scanned(g, info, done)
    ensures AllKnown(g, done + nodes) && Scanned(g, VisitAll(g, info, nodes), done + nodes)
    decreases |nodes|
  {
    if nodes == [] {
      assert done + nodes == done;
    } else {
      assert nodes == Front(nodes) + [Last(nodes)];
      VisitAllScans(g, info, done, Front(nodes));
      VisitScans(g, VisitAll(g, info, Front(nodes)), done + Front(nodes), Last(nodes));
      assert (done + Front(nodes)) + [Last(nodes)] == done + nodes;
    }
  }

  lemma {:induction false} VisitLevelsScans(g: Geometry, data: Levels, l: nat, depth: nat)
    requires l <= depth && Known(g, data) && forall i :: l <= i < depth ==> i in data
    ensures AllKnown(g, Visited(data, l, depth))
    ensures Scanned(g, VisitLevels(g, Info([], {}, [], {}, []), data, l, depth), Visited(data, l, depth))
    decreases depth - l
  {
    if l < depth {
      VisitLevelsScans(g, data, l + 1, depth);
      VisitAllScans(g, VisitLevels(g, Info([], {}, [], {}, []), data, l + 1, depth), Visited(data, l + 1, depth), data[l]);
    }
  }

  // The in-place form.

  class GeometryInfo {
    var volumes: seq<Volume>
    var volumeSet: set<Volume>
    var solids: seq<Shape>
    var solidSet: set<ShapeId>
    var trafos: seq<Trafo>

    ghost function View(): Info
      reads this
    {
      Info(volumes, volumeSet, solids, solidSet, trafos)
    }

    constructor ()
      ensures View() == Info([], {}, [], {}, [])
    {
      volumes, volumeSet, solids, solidSet, trafos := [], {}, [], {}, [];
    }

    method CollectShape(name: string, node: string, s: Shape, matrix: Matrix)
      modifies this
      ensures View() == CollectSolid(old(View()), name, node, s, matrix)
      decreases s
    {
      if s.Composite? {
        CollectShape(name + "_left", name + "_left", s.left, s.leftMatrix);
        CollectShape(name + "_right", name + "_right", s.right, s.rightMatrix);
      }
      if s.id !in solidSet {
        solidSet := solidSet + {s.id};
        solids := solids + [s];
      }
      trafos := trafos + [Trafo(node, matrix)];
    }

    method CollectLevel(g: Geometry, nodes: seq<Node>)
      requires forall n :: n in nodes ==> n in g.nodes && g.nodes[n].volume in g.volumes
      modifies this
      ensures View() == VisitAll(g, old(View()), nodes)
    {
      for i := 0 to |nodes|
        invariant View() == VisitAll(g, old(View()), nodes[..i])
      {
        assert Front(nodes[..i + 1]) == nodes[..i] && Last(nodes[..i + 1]) == nodes[i];
        var p := g.nodes[nodes[i]];
        if p.volume !in volumeSet {
          volumeSet := volumeSet + {p.volume};
          volumes := volumes + [p.volume];
        }
        var c := g.volumes[p.volume];
        CollectShape(c.name, p.name, c.shape, p.matrix);
      }
      assert nodes[..|nodes|] == nodes;
    }

    /** The descending loop over the depths. */
    method CollectLevels(g: Geometry, levels: Levels, depth: nat)
      requires Known(g, levels) && forall i: nat :: i < depth ==> i in levels
      modifies this
      ensures View() == VisitLevels(g, old(View()), levels, 0, depth)
    {
      var l := depth;
      while l > 0
        invariant 0 <= l <= depth
        invariant View() == VisitLevels(g, old(View()), levels, l, depth)
      {
        l := l - 1;
        CollectLevel(g, levels[l]);
      }
    }
  }

  class GeoHandler {
    var data: Levels
    var setData: map<nat, set<Node>>

    /** Vector and set of each depth hold the same nodes. */
    ghost predicate Agree()
      reads this
    {
      setData.Keys == data.Keys && forall l, n :: l in data ==> (n in setData[l] <==> n in data[l])
    }

    constructor ()
      ensures Agree() && data == map[]
    {
      data, setData := map[], map[];
    }

    method ICollect(g: Geometry, ghost rank: Volume -> nat, n: Node, level: nat)
      requires Acyclic(g, rank) && n in g.nodes && Agree()
      modifies this
      ensures Agree() && data == Collect(g, rank, old(data), n, level)
      decreases Rank(g, rank, n)
    {
      if level !in setData || n !in setData[level] {
        setData := setData[level := (if level in setData then setData[level] else {}) + {n}];
        data := data[level := (if level in data then data[level] else []) + [n]];
      }
      var nodes := Daughters(g, n);
      for i := 0 to |nodes|
        invariant Agree()
        invariant CollectAll(g, rank, data, n, nodes[i..], level + 1) == Collect(g, rank, old(data), n, level)
      {
        DaughterOk(g, rank, n, nodes[i]);
        assert nodes[i..][0] == nodes[i] && nodes[i..][1..] == nodes[i + 1..];
        ICollect(g, rank, nodes[i], level + 1);
      }
    }

    /** `collect(element)`: the nodes below `top` by depth. */
    method CollectNodes(g: Geometry, ghost rank: Volume -> nat, top: Node)
      requires Acyclic(g, rank) && top in g.nodes
      modifies this
      ensures Agree() && LevelsOf(g, top, data) && InWalkOrder(g, rank, top, data)
    {
      data, setData := map[], map[];
      ICollect(g, rank, top, 0);
      CollectIsExact(g, rank, top);
      CollectWalks(g, rank, top);
    }

    /** `collect(element, info)` with an empty `info`. */
    method CollectInfo(g: Geometry, ghost rank: Volume -> nat, top: Node) returns (info: GeometryInfo, ghost depth: nat)
      requires Acyclic(g, rank) && top in g.nodes
      modifies this
      ensures LevelsOf(g, top, data) && Known(g, data) && InWalkOrder(g, rank, top, data)
      ensures DaughtersFirst(g, info.View()) && OperandsFirst(info.View())
      ensures forall v :: v in info.volumes <==> Reachable(g, top, v)
      ensures forall id :: Listed(info.solids, id) <==> ReachableShape(g, top, id)
      ensures forall i: nat :: i in data <==> i < depth
      ensures AllKnown(g, Visited(data, 0, depth)) && Scanned(g, info.View(), Visited(data, 0, depth))
    {
      CollectNodes(g, rank, top);
      KnownLevels(g, top, data);
      var levels := Depth(g, rank, top, data);
      depth := levels;
      info := new GeometryInfo();
      info.CollectLevels(g, data, levels);
      VolumesAreOrdered(g, rank, top, data, depth);
      SolidsAreOrdered(g, top, data, depth);
      VisitLevelsScans(g, data, 0, depth);
    }
  }

  /** One past the largest depth in use. */
  method Depth(g: Geometry, ghost rank: Volume -> nat, top: Node, data: Levels) returns (depth: nat)
    requires Acyclic(g, rank) && top in g.nodes && LevelsOf(g, top, data)
    ensures forall i: nat :: i in data <==> i < depth
  {
    depth := 0;
    while depth in data
      invariant forall i: nat :: i < depth ==> i in data
      decreases Rank(g, rank, top) + 1 - depth
    {
      LevelBound(g, rank, top, data, depth);
      depth := depth + 1;
    }
    forall i: nat | i in data ensures i < depth {
      DepthsAreContiguous(g, top, data, i);
    }
  }

  lemma KnownLevels(g: Geometry, top: Node, data: Levels)
    requires LevelsOf(g, top, data)
    ensures Known(g, data)
  {
    forall l, n | l in data && n in data[l] ensures n in g.nodes && g.nodes[n].volume in g.volumes {
      assert InLevel(data, l, n);
    }
  }

  lemma LevelBound(g: Geometry, rank: Volume -> nat, top: Node, data: Levels, l: nat)
    requires Acyclic(g, rank) && LevelsOf(g, top, data) && l in data
    ensures l <= Rank(g, rank, top)
  {
    assert InLevel(data, l, data[l][0]);
    var p :| Chain(g, p) && |p| == l + 1 && p[0] == top;
    DepthBound(g, rank, p);
  }
}
