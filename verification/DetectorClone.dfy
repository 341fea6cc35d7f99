/** Deep copies of detector element trees (DDCore/src/DetectorInterna.cpp). */
module DetectorClone {
  import opened Wrappers

  const COPY_PLACEMENT: bv8 := 1
  const PROPAGATE_PARENT_ID: bv8 := 8

  /** The fields of an element that are values; placements are given by their addresses. */
  datatype Data = Data(
    name: string, title: string, id: int, typeFlag: nat, flag: nat, key: nat, level: int, combineHits: int,
    path: string, placementPath: string, placement: Option<nat>, idealPlace: Option<nat>,
    nominal: Option<nat>, survey: Option<nat>)

  datatype Tree = Tree(data: Data, children: map<string, Tree>)

  function CopyData(d: Data, name: string, title: string, id: int, flg: bv8): Data {
    var placed := flg & COPY_PLACEMENT == COPY_PLACEMENT;
    Data(name, title, id, d.typeFlag, 0, 0, -1, d.combineHits, "", "",
         if placed then d.placement else None, if placed then d.idealPlace else None, None, None)
  }

  function ChildId(d: Data, id: int, flg: bv8): int {
    if flg & PROPAGATE_PARENT_ID != 0 then id else d.id
  }

  /** `c` is a copy of `t`: its children are the copies of those of `t`, under their own names. */
  predicate IsClone(t: Tree, c: Tree, name: string, title: string, id: int, flg: bv8)
    decreases t
  {
    && c.data == CopyData(t.data, name, title, id, flg)
    && (forall m :: m in c.children ==> exists n :: n in t.children && t.children[n].data.name == m)
    && forall n :: n in t.children ==> IsChildClone(t, n, c, id, flg)
  }

  predicate IsChildClone(t: Tree, n: string, c: Tree, id: int, flg: bv8)
    requires n in t.children
    decreases t, 0
  {
    var d := t.children[n];
    && d.data.name in c.children
    && IsClone(d, c.children[d.data.name], d.data.name, d.data.title, ChildId(d.data, id, flg), COPY_PLACEMENT)
  }

  /** No two children of one element, anywhere in the tree, have the same name. */
  predicate NamesDiffer(t: Tree)
    decreases t
  {
    && (forall n, m :: n in t.children && m in t.children && t.children[n].data.name == t.children[m].data.name ==> n == m)
    && forall n :: n in t.children ==> NamesDiffer(t.children[n])
  }

  /** The children of `t` under the names `done` have been copied. */
  predicate Copied(t: Tree, done: set<string>, trees: map<string, Tree>, id: int, flg: bv8)
    requires done <= t.children.Keys
  {
    && (forall n, m :: n in done && m in done && t.children[n].data.name == t.children[m].data.name ==> n == m)
    && (forall n :: n in done ==> NamesDiffer(t.children[n]))
    && (forall m :: m in trees ==> exists n :: n in done && t.children[n].data.name == m)
    && forall n :: n in done ==> IsChildClone(t, n, Tree(t.data, trees), id, flg)
  }

  lemma CopiedOneMore(t: Tree, done: set<string>, trees: map<string, Tree>, id: int, flg: bv8, n: string, c: Tree)
    requires done <= t.children.Keys && Copied(t, done, trees, id, flg)
    requires n in t.children && n !in done && NamesDiffer(t.children[n]) && t.children[n].data.name !in trees
    requires var d := t.children[n].data;
             IsClone(t.children[n], c, d.name, d.title, ChildId(d, id, flg), COPY_PLACEMENT)
    ensures Copied(t, done + {n}, trees[t.children[n].data.name := c], id, flg)
  {
    var name := t.children[n].data.name;
    var more := trees[name := c];
    forall m | m in done ensures t.children[m].data.name != name && IsChildClone(t, m, Tree(t.data, more), id, flg) {
      assert IsChildClone(t, m, Tree(t.data, trees), id, flg);
    }
    assert IsChildClone(t, n, Tree(t.data, more), id, flg);
  }

  lemma CopiedAll(t: Tree, trees: map<string, Tree>, name: string, title: string, id: int, flg: bv8)
    requires Copied(t, t.children.Keys, trees, id, flg)
    ensures NamesDiffer(t) && IsClone(t, Tree(CopyData(t.data, name, title, id, flg), trees), name, title, id, flg)
  {
    var c := Tree(CopyData(t.data, name, title, id, flg), trees);
    forall n | n in t.children ensures IsChildClone(t, n, c, id, flg) {
      assert IsChildClone(t, n, Tree(t.data, trees), id, flg);
    }
  }

  lemma OneLess(all: set<string>, todo: set<string>, n: string)
    requires n in todo && todo <= all
    ensures all - (todo - {n}) == all - todo + {n}
  {
  }

  lemma Renamed(t: Tree, c: Tree, id: int, flg: bv8, name: string, title: string)
    requires IsClone(t, c, "", "", id, flg)
    ensures IsClone(t, Tree(c.data.(name := name, title := title), c.children), name, title, id, flg)
  {
    var r := Tree(c.data.(name := name, title := title), c.children);
    forall n | n in t.children ensures IsChildClone(t, n, r, id, flg) {
      assert IsChildClone(t, n, c, id, flg);
    }
  }

  /** The element at a path of child names. */
  function NodeAt(t: Tree, p: seq<string>): Option<Tree> {
    if p == [] then Some(t)
    else if p[0] in t.children then NodeAt(t.children[p[0]], p[1..])
    else None
  }

  /** Children are entered under their names, as `add` does it. */
  predicate Named(t: Tree)
    decreases t
  {
    forall n :: n in t.children ==> t.children[n].data.name == n && Named(t.children[n])
  }

  /** Nothing is cached, and nothing but the type and the hit flag is taken over with the placements. */
  predicate Fresh(d: Data, e: Data) {
    && e.key == 0 && e.level == -1 && e.path == "" && e.placementPath == "" && e.flag == 0
    && e.nominal == None && e.survey == None && e.typeFlag == d.typeFlag && e.combineHits == d.combineHits
  }

  predicate Placed(d: Data, e: Data, placed: bool) {
    if placed then e.placement == d.placement && e.idealPlace == d.idealPlace
    else e.placement == None && e.idealPlace == None
  }

  lemma CopyIsFresh(d: Data, name: string, title: string, id: int, flg: bv8)
    ensures var e := CopyData(d, name, title, id, flg);
            Fresh(d, e) && Placed(d, e, flg & 1 != 0) && e.name == name && e.title == title && e.id == id
  {
    LowestBit(flg);
  }

  lemma LowestBit(flg: bv8)
    ensures flg & 1 == 1 <==> flg & 1 != 0
  {
  }

  /**
   The copy has the elements of the original, at the same paths, and nothing cached. Everywhere
   below the top the placements, names and titles are those of the original, at the top the
   placements exactly if the flags ask for it; the new identifier reaches the direct children
   exactly if the flags ask for it, and no element further down.
   */
  lemma {:induction false} CloneIsIsomorphic(
      t: Tree, c: Tree, name: string, title: string, id: int, flg: bv8, p: seq<string>)
    requires Named(t) && IsClone(t, c, name, title, id, flg)
    ensures NodeAt(c, p).Some? <==> NodeAt(t, p).Some?
    ensures NodeAt(t, p).Some? ==>
              var d, e := NodeAt(t, p).value.data, NodeAt(c, p).value.data;
              && Fresh(d, e) && Placed(d, e, p != [] || flg & 1 != 0)
              && e.name == (if p == [] then name else d.name) && e.title == (if p == [] then title else d.title)
              && e.id == if p == [] || (|p| == 1 && flg & 8 != 0) then id else d.id
    decreases |p|
  {
    if p == [] {
      CopyIsFresh(t.data, name, title, id, flg);
    } else {
      var n := p[0];
      if n in t.children {
        assert IsChildClone(t, n, c, id, flg);
        var d := t.children[n].data;
        CloneIsIsomorphic(t.children[n], c.children[n], n, d.title, ChildId(d, id, flg), COPY_PLACEMENT, p[1..]);
      }
    }
  }

  /** Trees whose children are entered under their names can be copied. */
  lemma {:induction false} NamedCanBeCopied(t: Tree)
    requires Named(t)
    ensures NamesDiffer(t)
    decreases t
  {
    forall n | n in t.children ensures NamesDiffer(t.children[n]) {
      NamedCanBeCopied(t.children[n]);
    }
  }

  /** Below an element: its children are linked to it and hold the trees, all inside `all`. */
  ghost predicate Kids(o: DetElementObject, children: map<string, DetElementObject>, t: Tree,
                       all: set<DetElementObject>)
    reads all
    decreases t
  {
    children.Keys == t.children.Keys && forall n :: n in children ==> IsKid(o, n, children[n], t, all)
  }

  ghost predicate IsKid(o: DetElementObject, n: string, d: DetElementObject, t: Tree, all: set<DetElementObject>)
    requires n in t.children
    reads all
    decreases t, 0
  {
    d in all && d.parent == o && d.data == t.children[n].data && Kids(d, d.children, t.children[n], all)
  }

  lemma {:induction false} KidsInMore(o: DetElementObject, children: map<string, DetElementObject>, t: Tree,
                                      all: set<DetElementObject>, more: set<DetElementObject>)
    requires Kids(o, children, t, all) && all <= more
    ensures Kids(o, children, t, more)
    decreases t
  {
    forall n | n in children ensures IsKid(o, n, children[n], t, more) {
      assert IsKid(o, n, children[n], t, all);
      KidsInMore(children[n], children[n].children, t.children[n], all, more);
    }
  }

  lemma KidsOnly(o: DetElementObject, children: map<string, DetElementObject>, t: Tree, data: Data,
                 all: set<DetElementObject>)
    requires Kids(o, children, t, all)
    ensures Kids(o, children, Tree(data, t.children), all)
  {
    forall n | n in children ensures IsKid(o, n, children[n], Tree(data, t.children), all) {
      assert IsKid(o, n, children[n], t, all);
    }
  }

  class DetElementObject {
    var data: Data
    var parent: DetElementObject?
    var children: map<string, DetElementObject>

    constructor (data: Data)
      ensures this.data == data && parent == null && children == map[]
    {
      this.data, parent, children := data, null, map[];
    }

    /** Enters a child under its name and links it, unless the name is taken. */
    method Emplace(child: DetElementObject, ghost t: Tree, ghost below: set<DetElementObject>,
                   ghost tree: Tree, ghost more: set<DetElementObject>)
      returns (ok: bool, ghost all: set<DetElementObject>)
      requires this != child && this !in below + more && child !in below + more
      requires Kids(this, children, t, below) && Kids(child, child.children, tree, more) && child.data == tree.data
      modifies this`children, child`parent
      ensures ok == (child.data.name !in old(children)) && all == below + {child} + more
      ensures ok ==> Kids(this, children, Tree(t.data, t.children[child.data.name := tree]), all)
    {
      all := below + {child} + more;
      ok := child.data.name !in children;
      if ok {
        var name := child.data.name;
        children := children[name := child];
        child.parent := this;
        ghost var grown := Tree(t.data, t.children[name := tree]);
        assert Kids(child, child.children, tree, more);
        KidsInMore(child, child.children, tree, more, all);
        forall n | n in children ensures IsKid(this, n, children[n], grown, all) {
          if n != name {
            assert IsKid(this, n, children[n], t, below);
            KidsInMore(children[n], children[n].children, t.children[n], below, all);
          }
        }
      }
    }

    /**
     A copy with the tree `c`, all of it new; `t` is the tree of this object. `ok` is false for
     the `Double-Insert` error.
     */
    method Clone(newId: int, flg: bv8, ghost t: Tree, ghost all: set<DetElementObject>)
      returns (ok: bool, obj: DetElementObject, ghost c: Tree, ghost below: set<DetElementObject>)
      requires data == t.data && Kids(this, children, t, all)
      ensures ok <==> NamesDiffer(t)
      ensures fresh(obj) && fresh(below) && obj !in below
      ensures ok ==> obj.parent == null && obj.data == c.data && Kids(obj, obj.children, c, below)
      ensures ok ==> IsClone(t, c, "", "", newId, flg)
      ensures Fresh(data, obj.data) && Placed(data, obj.data, flg & 1 != 0) && obj.data.id == newId
      decreases t, 0
    {
      CopyIsFresh(data, "", "", newId, flg);
      obj := new DetElementObject(CopyData(data, "", "", newId, flg));
      ok, c, below := CloneChildren(obj, newId, flg, t, all);
      if ok {
        CopiedAll(t, c.children, "", "", newId, flg);
      }
    }

    /** The children of `done` have been copied: `c` is the tree of the copy so far. */
    ghost predicate Half(t: Tree, done: set<string>, newId: int, flg: bv8, c: Tree, below: set<DetElementObject>)
      reads this, below
    {
      && this !in below && c.data == data && Kids(this, children, c, below)
      && done <= t.children.Keys && Copied(t, done, c.children, newId, flg)
    }

    /** The loop over the children. */
    method CloneChildren(obj: DetElementObject, newId: int, flg: bv8, ghost t: Tree, ghost all: set<DetElementObject>)
      returns (ok: bool, ghost c: Tree, ghost below: set<DetElementObject>)
      requires Kids(this, children, t, all) && obj != this && obj !in all && obj.children == map[]
      modifies obj`children
      ensures fresh(below) && obj !in below
      ensures if ok then obj.Half(t, t.children.Keys, newId, flg, c, below) else !NamesDiffer(t)
      decreases t, 0, 0
    {
      below := {};
      c := Tree(obj.data, map[]);
      var todo := children.Keys;
      ghost var done: set<string> := {};
      while todo != {}
        invariant todo <= children.Keys && done == t.children.Keys - todo
        invariant fresh(below) && obj.Half(t, done, newId, flg, c, below)
        decreases todo
      {
        var n :| n in todo;
        ok, c, below := CloneChild(n, obj, newId, flg, t, all, done, c, below);
        if !ok {
          return;
        }
        OneLess(t.children.Keys, todo, n);
        todo, done := todo - {n}, done + {n};
      }
      ok := true;
    }

    /** One round of the loop over the children. */
    method CloneChild(n: string, obj: DetElementObject, newId: int, flg: bv8,
                      ghost t: Tree, ghost all: set<DetElementObject>, ghost done: set<string>,
                      ghost c: Tree, ghost below: set<DetElementObject>)
      returns (ok: bool, ghost more: Tree, ghost larger: set<DetElementObject>)
      requires Kids(this, children, t, all) && n in children && obj != this && obj !in all
      requires obj.Half(t, done, newId, flg, c, below) && n !in done
      modifies obj`children
      ensures fresh(larger - below) && obj !in larger
      ensures if ok then obj.Half(t, done + {n}, newId, flg, more, larger) else !NamesDiffer(t)
      decreases t.children[n], 2
    {
      more, larger := c, below;
      var d := children[n];
      assert IsKid(this, n, d, t, all);
      var child;
      ghost var tree, inside;
      ok, child, tree, inside :=
        d.CloneNamed(d.data.name, ChildId(d.data, newId, flg), COPY_PLACEMENT, t.children[n], all);
      if ok {
        ok, larger := obj.Emplace(child, c, below, tree, inside);
        if ok {
          CopiedOneMore(t, done, c.children, newId, flg, n, tree);
          more := Tree(c.data, c.children[child.data.name := tree]);
        }
      }
    }

    method SetNames(newName: string, newTitle: string)
      modifies this`data
      ensures data == old(data).(name := newName, title := newTitle)
    {
      data := data.(name := newName, title := newTitle);
    }

    /** `DetElement::clone`: the copy gets a name and the title of this object. */
    method CloneNamed(newName: string, newId: int, flg: bv8, ghost t: Tree, ghost all: set<DetElementObject>)
      returns (ok: bool, obj: DetElementObject, ghost c: Tree, ghost below: set<DetElementObject>)
      requires data == t.data && Kids(this, children, t, all)
      ensures ok <==> NamesDiffer(t)
      ensures fresh(obj) && fresh(below) && obj !in below
      ensures ok ==> obj.parent == null && obj.data == c.data && Kids(obj, obj.children, c, below)
      ensures ok ==> IsClone(t, c, newName, t.data.title, newId, flg)
      ensures Fresh(data, obj.data) && Placed(data, obj.data, flg & 1 != 0)
      ensures obj.data.id == newId && obj.data.name == newName && obj.data.title == data.title
      decreases t, 1
    {
      ok, obj, c, below := Clone(newId, flg, t, all);
      obj.SetNames(newName, data.title);
      if ok {
        KidsOnly(obj, obj.children, c, obj.data, below);
        Renamed(t, c, newId, flg, newName, t.data.title);
        c := Tree(obj.data, c.children);
      }
    }
  }
}
