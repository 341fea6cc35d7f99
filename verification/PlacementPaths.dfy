/**
 Paths of placements: assembling, printing and finding them again (DDCore/src/DetectorTools.cpp).
 `address` tells placements with equal content apart.
 */
module PlacementPaths {
  import opened Wrappers
  import opened Paths

  datatype Node = Node(address: nat, name: string, daughters: seq<Node>)

  /** The first daughter of that name (`TGeoVolume::GetNode`). */
  function GetNode(daughters: seq<Node>, name: string): (r: Option<Node>)
    ensures r.Some? ==> r.value in daughters && r.value.name == name
    ensures r == None ==> forall d :: d in daughters ==> d.name != name
  {
    if daughters == [] then None
    else if daughters[0].name == name then Some(daughters[0])
    else GetNode(daughters[1..], name)
  }

  /** `findNode` below `node`, after the slash at position `at`. */
  function FindBelow(node: Node, path: string, at: nat): Option<Node>
    requires at < |path|
    decreases |path| - at
  {
    var slash := Find(path, at + 1);
    var end := if slash.Some? then slash.value else |path|;
    var found := GetNode(node.daughters, path[at + 1..end]);
    if found == None then None
    else if end >= |path| - 1 then found
    else FindBelow(found.value, path, end)
  }

  /** `findNode`: the node at an absolute placement path. */
  function FindNode(top: Node, path: string): Option<Node> {
    if |path| == 0 then None
    else
      var first := Find(path, 0);
      if first == None then (if path == top.name then Some(top) else None)
      else
        var start := if first.value > 0 then 0 else 1;
        var slash := if first.value > 0 then first else Find(path, 1);
        var end := if slash.Some? then slash.value else |path|;
        if path[start..end] != top.name then None
        else if end >= |path| - 1 then Some(top)
        else FindBelow(top, path, end)
  }

  /** The same in the loop of the source. */
  method FindNodeLoop(top: Node, path: string) returns (r: Option<Node>)
    ensures r == FindNode(top, path)
  {
    if |path| == 0 {
      return None;
    }
    var first := Find(path, 0);
    if first == None {
      return if path == top.name then Some(top) else None;
    }
    var start := if first.value > 0 then 0 else 1;
    var slash := if first.value > 0 then first else Find(path, 1);
    var end := if slash.Some? then slash.value else |path|;
    if path[start..end] != top.name {
      return None;
    }
    if end >= |path| - 1 {
      return Some(top);
    }
    var node, at := top, end;
    while true
      invariant at < |path| && FindBelow(node, path, at) == FindNode(top, path)
      decreases |path| - at
    {
      slash := Find(path, at + 1);
      end := if slash.Some? then slash.value else |path|;
      var found := GetNode(node.daughters, path[at + 1..end]);
      if found == None {
        return None;
      }
      if end >= |path| - 1 {
        return found;
      }
      node, at := found.value, end;
    }
  }

  // Finding what has been printed.

  /** A chain without holes, top first: each node is a daughter of the one before. */
  predicate Chain(p: seq<Node>) {
    forall i :: 0 < i < |p| ==> p[i] in p[i - 1].daughters
  }

  /** Sibling names differ along the chain. */
  predicate SiblingsDiffer(p: seq<Node>) {
    forall n :: n in p ==> DaughtersDiffer(n)
  }

  predicate DaughtersDiffer(n: Node) {
    forall a, b :: a in n.daughters && b in n.daughters && a.name == b.name ==> a == b
  }

  function Names(p: seq<Node>): seq<string> {
    if p == [] then [] else [p[0].name] + Names(p[1..])
  }

  /** The names lead down the chain below a node, daughter by daughter. */
  predicate Leads(node: Node, p: seq<Node>)
    decreases |p|
  {
    p != [] ==>
      GetNode(node.daughters, p[0].name) == Some(p[0]) && IsName(p[0].name) && Leads(p[0], p[1..])
  }

  lemma {:induction false} LeadsByNames(node: Node, p: seq<Node>)
    requires Leads(node, p)
    ensures forall n :: n in Names(p) ==> IsName(n)
    decreases |p|
  {
    if p != [] {
      LeadsByNames(p[0], p[1..]);
    }
  }

  lemma {:induction false} ChainLeads(p: seq<Node>)
    requires p != [] && Chain(p) && SiblingsDiffer(p) && forall n :: n in p ==> IsName(n.name)
    ensures Leads(p[0], p[1..])
    decreases |p|
  {
    if |p| > 1 {
      assert p[0] in p && p[1] in p && p[1] in p[0].daughters && DaughtersDiffer(p[0]);
      ChainLeads(p[1..]);
    }
  }

  /** From `at` on, the names stand in the path one after the other, each behind a slash. */
  predicate Segments(path: string, at: nat, names: seq<string>)
    decreases |names|
  {
    names != [] ==>
      var e, rest := at + 1 + |names[0]|, names[1..];
      && at < e <= |path| && path[at] == '/' && path[at + 1..e] == names[0]
      && Find(path, at + 1) == (if rest == [] then None else Some(e))
      && (if rest == [] then e == |path| else e < |path| - 1)
      && Segments(path, e, rest)
  }

  lemma {:induction false} PrintedSegments(path: string, at: nat, names: seq<string>)
    requires at <= |path| && path[at..] == Print(names) && forall n :: n in names ==> IsName(n)
    ensures Segments(path, at, names)
    decreases |names|
  {
    if names != [] {
      assert names == [names[0]] + names[1..];
      NameAt(path, at, names[0], names[1..]);
      PrintedSegments(path, at + 1 + |names[0]|, names[1..]);
    }
  }

  lemma FindBelowStep(node: Node, next: Node, rest: seq<string>, path: string, at: nat)
    requires GetNode(node.daughters, next.name) == Some(next) && Segments(path, at, [next.name] + rest)
    ensures var e := at + 1 + |next.name|;
            && at < e <= |path| && Segments(path, e, rest)
            && (if rest == [] then FindBelow(node, path, at) == Some(next)
                else e < |path| && FindBelow(node, path, at) == FindBelow(next, path, e))
  {
    SegmentsFirst(path, at, next.name, rest);
  }

  lemma SegmentsFirst(path: string, at: nat, name: string, rest: seq<string>)
    requires Segments(path, at, [name] + rest)
    ensures var e := at + 1 + |name|;
            && at < e <= |path| && path[at] == '/' && path[at + 1..e] == name && Segments(path, e, rest)
            && Find(path, at + 1) == (if rest == [] then None else Some(e))
            && (if rest == [] then e == |path| else e < |path| - 1)
  {
    assert ([name] + rest)[1..] == rest;
  }

  lemma {:induction false} FindBelowPrinted(node: Node, p: seq<Node>, path: string, at: nat)
    requires p != [] && Leads(node, p) && Segments(path, at, Names(p))
    ensures at < |path| && FindBelow(node, path, at) == Some(Last(p))
    decreases |p|
  {
    var next, rest := p[0], p[1..];
    assert Names(p) == [next.name] + Names(rest);
    FindBelowStep(node, next, Names(rest), path, at);
    if rest != [] {
      assert Last(rest) == Last(p);
      FindBelowPrinted(next, rest, path, at + 1 + |next.name|);
    }
  }

  lemma FindNodeStep(top: Node, rest: seq<string>, path: string)
    requires Segments(path, 0, [top.name] + rest)
    ensures var e := 1 + |top.name|;
            && e <= |path| && Segments(path, e, rest)
            && (if rest == [] then FindNode(top, path) == Some(top)
                else e < |path| && FindNode(top, path) == FindBelow(top, path, e))
  {
    assert ([top.name] + rest)[1..] == rest;
  }

  lemma FindNodeSegments(p: seq<Node>, path: string)
    requires p != [] && Leads(p[0], p[1..]) && Segments(path, 0, Names(p))
    ensures FindNode(p[0], path) == Some(Last(p))
  {
    FindNodeStep(p[0], Names(p[1..]), path);
    if |p| > 1 {
      FindBelowPrinted(p[0], p[1..], path, 1 + |p[0].name|);
    }
  }

  lemma PrintedFromStart(names: seq<string>)
    requires forall n :: n in names ==> IsName(n)
    ensures Segments(Print(names), 0, names)
  {
    var path := Print(names);
    assert path[0..] == path;
    PrintedSegments(path, 0, names);
  }

  lemma NamesOfChain(p: seq<Node>)
    requires p != [] && IsName(p[0].name) && Leads(p[0], p[1..])
    ensures forall n :: n in Names(p) ==> IsName(n)
  {
    LeadsByNames(p[0], p[1..]);
  }

  /** Printing a chain without holes and looking the text up leads to its lowest node. */
  lemma FindNodePrinted(p: seq<Node>)
    requires p != [] && Chain(p) && SiblingsDiffer(p) && forall n :: n in p ==> IsName(n.name)
    ensures FindNode(p[0], Print(Names(p))) == Some(Last(p))
  {
    assert p[0] in p;
    ChainLeads(p);
    NamesOfChain(p);
    PrintedFromStart(Names(p));
    FindNodeSegments(p, Print(Names(p)));
  }

  /** The text is the printed names, with or without a slash at the end. */
  predicate Spells(text: string, names: seq<string>) {
    text == Print(names) || text == Print(names) + "/"
  }

  lemma SpellsFirst(text: string, name: string, tail: string, names: seq<string>)
    requires text == "/" + name + tail && Spells(tail, names)
    ensures Spells(text, [name] + names)
  {
    PrintFirst(name, names);
    assert "/" + name + (Print(names) + "/") == ("/" + name + Print(names)) + "/";
  }

  lemma ChainFirst(n: Node, p: seq<Node>)
    requires p != [] && p[0] in n.daughters && Chain(p)
    ensures Chain([n] + p) && Names([n] + p) == [n.name] + Names(p)
  {
    var q := [n] + p;
    assert q[1..] == p;
    forall i | 0 < i < |q| ensures q[i] in q[i - 1].daughters {
      assert q[i] == p[i - 1];
    }
  }

  /** What is found below a node hangs on a chain below it whose names are spelled by the rest of the path. */
  lemma {:induction false} FindBelowSound(node: Node, path: string, at: nat) returns (p: seq<Node>)
    requires at < |path| && path[at] == '/' && FindBelow(node, path, at).Some?
    ensures p != [] && Chain(p) && p[0] in node.daughters && Some(Last(p)) == FindBelow(node, path, at)
    ensures Spells(path[at..], Names(p))
    decreases |path| - at
  {
    var slash := Find(path, at + 1);
    var end := if slash.Some? then slash.value else |path|;
    var found := GetNode(node.daughters, path[at + 1..end]).value;
    assert path[at..] == "/" + found.name + path[end..];
    if end >= |path| - 1 {
      p := [found];
      assert p[1..] == [] && (path[end..] == "" || path[end..] == "/");
      SpellsFirst(path[at..], found.name, path[end..], []);
    } else {
      var q := FindBelowSound(found, path, end);
      p := [found] + q;
      ChainFirst(found, q);
      SpellsFirst(path[at..], found.name, path[end..], Names(q));
    }
  }

  lemma FindNodeRest(top: Node, path: string, text: string, end: nat) returns (p: seq<Node>)
    requires end <= |path| && text == "/" + top.name + path[end..] && (end < |path| ==> path[end] == '/')
    requires end >= |path| - 1 || FindBelow(top, path, end).Some?
    ensures p != [] && p[0] == top && Chain(p) && Spells(text, Names(p))
    ensures Last(p) == if end >= |path| - 1 then top else FindBelow(top, path, end).value
  {
    if end >= |path| - 1 {
      p := [top];
      assert p[1..] == [] && (path[end..] == "" || path[end..] == "/");
      SpellsFirst(text, top.name, path[end..], []);
    } else {
      var q := FindBelowSound(top, path, end);
      p := [top] + q;
      ChainFirst(top, q);
      SpellsFirst(text, top.name, path[end..], Names(q));
    }
  }

  /** The path leads from `top` to `n`: its names are those on a chain, the slash ahead of the first may be missing. */
  ghost predicate LeadsTo(top: Node, path: string, n: Node) {
    exists p: seq<Node> :: p != [] && p[0] == top && Last(p) == n && Chain(p) &&
                           (Spells(path, Names(p)) || Spells("/" + path, Names(p)))
  }

  /** A node is found at no other place: a path that leads nowhere finds nothing. */
  lemma FindNodeSound(top: Node, path: string)
    ensures FindNode(top, path).Some? ==> LeadsTo(top, path, FindNode(top, path).value)
  {
    var r := FindNode(top, path);
    if r.Some? {
      var first := Find(path, 0);
      if first == None {
        var p := FindNodeRest(top, path, "/" + path, |path|);
      } else {
        var start := if first.value > 0 then 0 else 1;
        var slash := if first.value > 0 then first else Find(path, 1);
        var end := if slash.Some? then slash.value else |path|;
        var text := if start == 0 then "/" + path else path;
        assert path[start..end] == top.name;
        assert text == "/" + path[start..end] + path[end..];
        var p := FindNodeRest(top, path, text, end);
      }
    }
  }

  // Assembling the chain.

  /** `findChildByName`: from a node with the name of `child` up to a daughter of `parent`. */
  function FindChild(parent: Node, child: Node): Option<seq<Node>>
    decreases parent, 1
  {
    if parent.name == child.name then Some([child])
    else
      var daughter := GetNode(parent.daughters, child.name);
      if daughter.Some? then Some([daughter.value]) else FindChildIn(parent, parent.daughters, child)
  }

  function FindChildIn(parent: Node, daughters: seq<Node>, child: Node): Option<seq<Node>>
    requires forall d :: d in daughters ==> d in parent.daughters
    decreases parent, 0, |daughters|
  {
    if daughters == [] then None
    else
      assert daughters[0] in daughters;
      var sub := FindChild(daughters[0], child);
      if sub.Some? then Some(sub.value + [daughters[0]]) else FindChildIn(parent, daughters[1..], child)
  }

  /** The same with the two loops of the source, appending to `path`. */
  method FindChildByName(parent: Node, child: Node, path: seq<Node>) returns (found: bool, all: seq<Node>)
    ensures found == FindChild(parent, child).Some?
    ensures all == path + (if found then FindChild(parent, child).value else [])
    decreases parent
  {
    if parent.name == child.name {
      return true, path + [child];
    }
    var i := 0;
    while i < |parent.daughters|
      invariant 0 <= i <= |parent.daughters|
      invariant GetNode(parent.daughters, child.name) == GetNode(parent.daughters[i..], child.name)
    {
      if parent.daughters[i].name == child.name {
        return true, path + [parent.daughters[i]];
      }
      assert parent.daughters[i..][1..] == parent.daughters[i + 1..];
      i := i + 1;
    }
    i := 0;
    assert parent.daughters[0..] == parent.daughters;
    while i < |parent.daughters|
      invariant 0 <= i <= |parent.daughters|
      invariant FindChild(parent, child) == FindChildIn(parent, parent.daughters[i..], child)
    {
      var daughter := parent.daughters[i];
      var sub;
      found, sub := FindChildByName(daughter, child, []);
      assert parent.daughters[i..][1..] == parent.daughters[i + 1..];
      if found {
        assert sub == FindChild(daughter, child).value;
        return true, path + sub + [daughter];
      }
      i := i + 1;
    }
    return false, path;
  }

  /** `n` is below `parent`. */
  ghost predicate Below(parent: Node, n: Node)
    decreases parent
  {
    exists d :: d in parent.daughters && (d == n || Below(d, n))
  }

  /** Lowest first: each node is a daughter of the next, and the last of `parent`. */
  predicate Climbs(p: seq<Node>, parent: Node) {
    p != [] && Last(p) in parent.daughters && Gapless(p)
  }

  predicate Gapless(p: seq<Node>) {
    forall i :: 0 < i < |p| ==> p[i - 1] in p[i].daughters
  }

  lemma {:induction false} FindChildClimbs(parent: Node, child: Node)
    requires parent.name != child.name
    ensures var r := FindChild(parent, child);
            && (r.Some? ==> Climbs(r.value, parent) && r.value[0].name == child.name && Below(parent, r.value[0]))
            && (r == None ==> forall n :: Below(parent, n) ==> n.name != child.name)
    decreases parent, 1
  {
    var daughter := GetNode(parent.daughters, child.name);
    if daughter == None {
      FindChildInClimbs(parent, parent.daughters, child);
    }
  }

  lemma {:induction false} FindChildInClimbs(parent: Node, daughters: seq<Node>, child: Node)
    requires forall d :: d in daughters ==> d in parent.daughters && d.name != child.name
    ensures var r := FindChildIn(parent, daughters, child);
            && (r.Some? ==> Climbs(r.value, parent) && r.value[0].name == child.name && Below(parent, r.value[0]))
            && (r == None ==> forall d, n :: d in daughters && (d == n || Below(d, n)) ==> n.name != child.name)
    decreases parent, 0, |daughters|
  {
    if daughters != [] {
      var d := daughters[0];
      assert d in daughters;
      FindChildClimbs(d, child);
      var sub := FindChild(d, child);
      if sub.Some? {
        var p := sub.value + [d];
        forall i | 0 < i < |p| ensures p[i - 1] in p[i].daughters {
        }
      } else {
        FindChildInClimbs(parent, daughters[1..], child);
        assert forall x :: x in daughters <==> x == d || x in daughters[1..];
      }
    }
  }

  /** A daughter of the name goes before anything further down, and the first such daughter before the others. */
  lemma FindChildPrefers(parent: Node, child: Node, i: nat)
    requires parent.name != child.name && i < |parent.daughters|
    requires forall j :: 0 <= j < i ==> parent.daughters[j].name != child.name
    requires parent.daughters[i].name == child.name
    ensures FindChild(parent, child) == Some([parent.daughters[i]])
  {
    GetNodeFirst(parent.daughters, child.name, i);
  }

  lemma {:induction false} GetNodeFirst(daughters: seq<Node>, name: string, i: nat)
    requires i < |daughters| && daughters[i].name == name && forall j :: 0 <= j < i ==> daughters[j].name != name
    ensures GetNode(daughters, name) == Some(daughters[i])
    decreases i
  {
    if i > 0 {
      GetNodeFirst(daughters[1..], name, i - 1);
    }
  }

  /** Without such a daughter, the first one with the name somewhere below it is searched further. */
  lemma FindChildDescends(parent: Node, child: Node, i: nat)
    requires i < |parent.daughters| && parent.name != child.name
    requires forall d :: d in parent.daughters ==> d.name != child.name
    requires forall j, n :: 0 <= j < i && Below(parent.daughters[j], n) ==> n.name != child.name
    requires exists n :: Below(parent.daughters[i], n) && n.name == child.name
    ensures var r := FindChild(parent, child); r.Some? && r.value != [] && Last(r.value) == parent.daughters[i]
  {
    assert GetNode(parent.daughters, child.name) == None;
    FindChildInFirst(parent, parent.daughters, child, i);
  }

  lemma {:induction false} FindChildInFirst(parent: Node, daughters: seq<Node>, child: Node, i: nat)
    requires forall d :: d in daughters ==> d in parent.daughters && d.name != child.name
    requires i < |daughters| && forall j, n :: 0 <= j < i && Below(daughters[j], n) ==> n.name != child.name
    requires exists n :: Below(daughters[i], n) && n.name == child.name
    ensures var r := FindChildIn(parent, daughters, child); r.Some? && r.value != [] && Last(r.value) == daughters[i]
    decreases i
  {
    assert daughters[0] in daughters;
    FindChildClimbs(daughters[0], child);
    if i > 0 {
      assert forall d :: d in daughters[1..] ==> d in daughters;
      FindChildInFirst(parent, daughters[1..], child, i - 1);
    }
  }

  /** `elementPath`: the placements from an element up to the top, without the missing ones. */
  function ElementPath(placements: seq<Option<Node>>): seq<Node> {
    if placements == [] then []
    else (if placements[0].Some? then [placements[0].value] else []) + ElementPath(placements[1..])
  }

  /** Each placement that is not missing is there once, in its place. */
  lemma {:induction false} ElementPathIs(placements: seq<Option<Node>>, i: nat)
    requires i < |placements|
    ensures ElementPath(placements) ==
            ElementPath(placements[..i]) +
            (match placements[i] case Some(n) => [n] case None => []) +
            ElementPath(placements[i + 1..])
    decreases i
  {
    if i == 0 {
      assert placements[..0] == [];
    } else {
      ElementPathIs(placements[1..], i - 1);
      SlicedFirst(placements, i);
      ElementPathFirst(placements[0], placements[1..][..i - 1]);
      ElementPathFirst(placements[0], placements[1..]);
    }
  }

  lemma SlicedFirst(placements: seq<Option<Node>>, i: nat)
    requires 0 < i < |placements|
    ensures placements == [placements[0]] + placements[1..] && placements[..i] == [placements[0]] + placements[1..][..i - 1]
    ensures placements[1..][i - 1] == placements[i] && placements[1..][i..] == placements[i + 1..]
  {
  }

  lemma ElementPathFirst(first: Option<Node>, rest: seq<Option<Node>>)
    ensures ElementPath([first] + rest) == (match first case Some(n) => [n] case None => []) + ElementPath(rest)
  {
    assert ([first] + rest)[1..] == rest;
  }

  /** `makePlacementPath`, with `None` for its exception. */
  function Make(nodes: seq<Node>): Option<seq<Node>> {
    if |nodes| <= 1 then Some(nodes)
    else
      var low := FindChild(nodes[1], nodes[0]);
      if low == None then None
      else
        var up := Make(nodes[1..]);
        if up == None then None else Some(low.value + up.value)
  }

  function Continue(all: seq<Node>, up: Option<seq<Node>>): Option<seq<Node>> {
    if up == None then None else Some(all + up.value)
  }

  /** The same in the loop of the source. */
  method MakePlacementPath(nodes: seq<Node>) returns (r: Option<seq<Node>>)
    ensures r == Make(nodes)
  {
    if nodes == [] {
      return Some([]);
    }
    var all: seq<Node> := [];
    var i := 0;
    assert nodes[0..] == nodes && forall s: seq<Node> :: all + s == s;
    while i < |nodes| - 1
      invariant 0 <= i < |nodes|
      invariant Make(nodes) == Continue(all, Make(nodes[i..]))
    {
      var found, more := FindChildByName(nodes[i + 1], nodes[i], all);
      ghost var low := FindChild(nodes[i + 1], nodes[i]);
      assert nodes[i..][1..] == nodes[i + 1..] && nodes[i..][1] == nodes[i + 1];
      assert Make(nodes[i..]) == if low == None then None else Continue(low.value, Make(nodes[i + 1..]));
      if !found {
        return None;
      }
      assert forall s: seq<Node> :: (all + low.value) + s == all + (low.value + s);
      all := more;
      i := i + 1;
    }
    assert nodes[i..] == [nodes[|nodes| - 1]];
    all := all + [nodes[|nodes| - 1]];
    return Some(all);
  }

  /** `placementPath(nodes, reverse = true)`: the names from the last node to the first. */
  function PlacementPath(nodes: seq<Node>): string {
    if nodes == [] then "" else "/" + Last(nodes).name + PlacementPath(Front(nodes))
  }

  lemma ConcatAssociates(path: string, name: string, rest: string)
    ensures path + ("/" + name + rest) == (path + "/" + name) + rest
  {
  }

  /** The same in the loop of the source. */
  method PrintPlacementPath(nodes: seq<Node>) returns (path: string)
    ensures path == PlacementPath(nodes)
  {
    path := "";
    var i := |nodes|;
    assert nodes[..i] == nodes;
    while i > 0
      invariant 0 <= i <= |nodes|
      invariant PlacementPath(nodes) == path + PlacementPath(nodes[..i])
    {
      i := i - 1;
      assert Front(nodes[..i + 1]) == nodes[..i];
      ConcatAssociates(path, nodes[i].name, PlacementPath(nodes[..i]));
      path := path + "/" + nodes[i].name;
    }
  }

  function Reverse(nodes: seq<Node>): (r: seq<Node>)
    ensures |r| == |nodes| && forall n :: n in r <==> n in nodes
    ensures forall i :: 0 <= i < |r| ==> r[i] == nodes[|nodes| - 1 - i]
  {
    if nodes == [] then []
    else
      var r := [Last(nodes)] + Reverse(Front(nodes));
      assert forall n :: n in nodes <==> n == Last(nodes) || n in Front(nodes);
      r
  }

  lemma {:induction false} PlacementPathPrints(nodes: seq<Node>)
    ensures PlacementPath(nodes) == Print(Names(Reverse(nodes)))
    decreases |nodes|
  {
    if nodes != [] {
      PlacementPathPrints(Front(nodes));
      var rest := Reverse(Front(nodes));
      assert ([Last(nodes)] + rest)[1..] == rest;
      PrintFirst(Last(nodes).name, Names(rest));
    }
  }

  lemma {:induction false} BelowIsSmaller(parent: Node, n: Node)
    requires Below(parent, n)
    ensures parent != n && (parent decreases to n)
    decreases parent
  {
    var d :| d in parent.daughters && (d == n || Below(d, n));
    if d != n {
      BelowIsSmaller(d, n);
    }
  }

  lemma {:induction false} BelowTransitive(a: Node, b: Node, c: Node)
    requires Below(a, b) && Below(b, c)
    ensures Below(a, c)
    decreases a
  {
    var d :| d in a.daughters && (d == b || Below(d, b));
    if d != b {
      BelowTransitive(d, b, c);
    }
  }

  /** From `top` down no other node has the name of `n`. */
  ghost predicate OnlyNamed(top: Node, n: Node) {
    forall m :: InTree(top, m) && m.name == n.name ==> m == n
  }

  /** Each placement, lowest first, is the only one of its name below the next one. */
  ghost predicate EachFound(nodes: seq<Node>) {
    forall i :: 0 < i < |nodes| ==> OnlyNamed(nodes[i], nodes[i - 1])
  }

  /** Printed names can be told apart on the way down from `top`. */
  ghost predicate Readable(top: Node) {
    forall n :: InTree(top, n) ==> DaughtersDiffer(n) && IsName(n.name)
  }

  ghost predicate NamesUnique(top: Node) {
    forall a, b :: InTree(top, a) && InTree(top, b) && a.name == b.name ==> a == b
  }

  ghost predicate InTree(top: Node, n: Node) {
    n == top || Below(top, n)
  }

  /** Each node, lowest first, is somewhere below the next one. */
  ghost predicate Nested(nodes: seq<Node>) {
    forall i :: 0 < i < |nodes| ==> Below(nodes[i], nodes[i - 1])
  }

  lemma NestedTail(nodes: seq<Node>)
    requires |nodes| > 1 && Nested(nodes)
    ensures Nested(nodes[1..]) && Below(nodes[1], nodes[0])
  {
    var up := nodes[1..];
    assert forall i :: 0 < i < |up| ==> up[i] == nodes[i + 1] && up[i - 1] == nodes[i];
  }

  lemma {:induction false} NestedInTree(nodes: seq<Node>)
    requires nodes != [] && Nested(nodes)
    ensures forall n :: n in nodes ==> InTree(Last(nodes), n)
  {
    if |nodes| > 1 {
      var up := nodes[1..];
      NestedTail(nodes);
      NestedInTree(up);
      assert up[0] in up && InTree(Last(up), up[0]) && Below(up[0], nodes[0]);
      if up[0] != Last(up) {
        BelowTransitive(Last(up), up[0], nodes[0]);
      }
    }
  }

  /** One hole is filled: the search from `parent` climbs from `child` itself. */
  lemma HoleFilled(parent: Node, child: Node)
    requires OnlyNamed(parent, child) && Below(parent, child)
    ensures var r := FindChild(parent, child);
            r.Some? && Climbs(r.value, parent) && r.value[0] == child
  {
    BelowIsSmaller(parent, child);
    assert InTree(parent, parent) && InTree(parent, child);
    FindChildClimbs(parent, child);
    var r := FindChild(parent, child);
    assert r.Some? && InTree(parent, r.value[0]);
  }

  /** Joining a climb to `up[0]` with what continues from there. */
  lemma ClimbOn(low: seq<Node>, up: seq<Node>)
    requires up != [] && Climbs(low, up[0]) && Gapless(up)
    ensures Gapless(low + up)
  {
    var p := low + up;
    forall i | 0 < i < |p| ensures p[i - 1] in p[i].daughters {
      if i > |low| {
        assert p[i - 1] == up[i - 1 - |low|] && p[i] == up[i - |low|];
      }
    }
  }

  /** A path without holes from the first node to the last. */
  predicate Joins(r: Option<seq<Node>>, nodes: seq<Node>)
    requires nodes != []
  {
    r.Some? && r.value != [] && r.value[0] == nodes[0] && Last(r.value) == Last(nodes) && Gapless(r.value)
  }

  lemma MakeJoins(nodes: seq<Node>)
    requires |nodes| > 1 && Joins(Make(nodes[1..]), nodes[1..])
    requires var low := FindChild(nodes[1], nodes[0]);
             low.Some? && Climbs(low.value, nodes[1]) && low.value[0] == nodes[0]
    ensures Joins(Make(nodes), nodes)
  {
    var low, up := FindChild(nodes[1], nodes[0]).value, Make(nodes[1..]).value;
    ClimbOn(low, up);
    assert Make(nodes) == Some(low + up) && Last(low + up) == Last(up);
  }

  lemma {:induction false} MakeClimbs(nodes: seq<Node>)
    requires nodes != [] && Nested(nodes) && EachFound(nodes)
    ensures Joins(Make(nodes), nodes)
    decreases |nodes|
  {
    if |nodes| > 1 {
      NestedTail(nodes);
      var up := nodes[1..];
      assert forall i :: 0 < i < |up| ==> up[i] == nodes[i + 1] && up[i - 1] == nodes[i];
      MakeClimbs(up);
      HoleFilled(nodes[1], nodes[0]);
      MakeJoins(nodes);
    }
  }

  /** The exception is thrown exactly when a name is missing in the tree above it. */
  lemma {:induction false} MakeFails(nodes: seq<Node>)
    ensures Make(nodes) == None <==> exists i :: 0 < i < |nodes| && Missing(nodes[i], nodes[i - 1].name)
  {
    if |nodes| > 1 {
      var up := nodes[1..];
      MakeFails(up);
      assert forall i :: 0 < i < |up| ==> up[i] == nodes[i + 1] && up[i - 1] == nodes[i];
      if nodes[1].name != nodes[0].name {
        FindChildClimbs(nodes[1], nodes[0]);
      }
      assert FindChild(nodes[1], nodes[0]) == None <==> Missing(nodes[1], nodes[0].name);
      if j: int :| 0 < j < |up| && Missing(up[j], up[j - 1].name) {
        assert Missing(nodes[j + 1], nodes[j].name);
      }
    }
  }

  ghost predicate Missing(top: Node, name: string) {
    forall n :: InTree(top, n) ==> n.name != name
  }

  /**
   When each placement is found by its name below the next one, the path assembled for placements
   nested up to `top` has no holes, and looking its printed form up from `top` leads back to the
   lowest placement.
   */
  lemma PathLeadsBack(top: Node, nodes: seq<Node>)
    requires nodes != [] && Nested(nodes) && Last(nodes) == top && EachFound(nodes) && Readable(top)
    ensures Joins(Make(nodes), nodes) && FindNode(top, PlacementPath(Make(nodes).value)) == Some(nodes[0])
  {
    MakeClimbs(nodes);
    var path := Make(nodes).value;
    var p := Reverse(path);
    assert Nested(path);
    NestedInTree(path);
    ChainOf(path);
    forall n | n in p ensures DaughtersDiffer(n) {
      assert InTree(top, n);
    }
    PlacementPathPrints(path);
    FindNodePrinted(p);
  }

  /** Names which no two nodes share are enough, for any placements. */
  lemma UniqueNamesFind(top: Node, nodes: seq<Node>)
    requires nodes != [] && Nested(nodes) && Last(nodes) == top && NamesUnique(top)
    ensures EachFound(nodes) && forall n :: InTree(top, n) ==> DaughtersDiffer(n)
  {
    NestedInTree(nodes);
    forall i, m | 0 < i < |nodes| && InTree(nodes[i], m) && m.name == nodes[i - 1].name ensures m == nodes[i - 1] {
      assert nodes[i] in nodes && nodes[i - 1] in nodes;
      InTreeTransitive(top, nodes[i], m);
    }
    forall n | InTree(top, n) ensures DaughtersDiffer(n) {
      DaughtersInTree(top, n);
    }
  }

  lemma InTreeTransitive(top: Node, n: Node, m: Node)
    requires InTree(top, n) && InTree(n, m)
    ensures InTree(top, m)
  {
    if n != top && m != n {
      BelowTransitive(top, n, m);
    }
  }

  /** `elementPath`: the placements on the way up, without the missing ones. */
  method ElementPlacements(placements: seq<Option<Node>>) returns (nodes: seq<Node>)
    ensures nodes == ElementPath(placements)
  {
    nodes := [];
    assert placements[0..] == placements;
    for i := 0 to |placements|
      invariant nodes + ElementPath(placements[i..]) == ElementPath(placements)
    {
      assert placements[i..][1..] == placements[i + 1..];
      if placements[i].Some? {
        nodes := nodes + [placements[i].value];
      }
    }
  }

  /** `placementPath(element)`: collected, assembled and printed; `None` for the exception. */
  method PrintedPath(placements: seq<Option<Node>>, ghost top: Node) returns (path: Option<string>)
    ensures path == if Make(ElementPath(placements)) == None then None
                    else Some(PlacementPath(Make(ElementPath(placements)).value))
    ensures var nodes := ElementPath(placements);
            nodes != [] && Nested(nodes) && Last(nodes) == top && EachFound(nodes) && Readable(top) ==>
              path.Some? && FindNode(top, path.value) == Some(nodes[0])
  {
    var nodes := ElementPlacements(placements);
    var all := MakePlacementPath(nodes);
    if all == None {
      path := None;
    } else {
      var text := PrintPlacementPath(all.value);
      path := Some(text);
    }
    if nodes != [] && Nested(nodes) && Last(nodes) == top && EachFound(nodes) && Readable(top) {
      PathLeadsBack(top, nodes);
    }
  }

  lemma DaughtersInTree(top: Node, n: Node)
    requires InTree(top, n) && NamesUnique(top)
    ensures DaughtersDiffer(n)
  {
    forall d | d in n.daughters ensures InTree(top, d) {
      assert Below(n, d);
      InTreeTransitive(top, n, d);
    }
  }

  lemma ChainOf(path: seq<Node>)
    requires Gapless(path)
    ensures Chain(Reverse(path))
  {
    var p := Reverse(path);
    forall i | 0 < i < |p| ensures p[i] in p[i - 1].daughters {
      var k := |path| - i;
      assert p[i] == path[k - 1] && p[i - 1] == path[k];
    }
  }
}
