/** Detector elements as the objects of DDCore/src/DetElement.cpp. */
module DetElements {
  import opened Wrappers
  import opened Paths
  import opened DetectorTree

  /** Path and level are cached together. */
  predicate InStep<D(==)>(f: Forest<D>) {
    forall d :: d in f ==> (f[d].path == "" <==> f[d].level < 0)
  }

  lemma MakePathInStep<D>(f: Forest<D>, d: D)
    requires InStep(f) && d in f && (f[d].parent.Some? ==> f[d].parent.value in f && f[f[d].parent.value].path != "")
    ensures InStep(MakePath(f, d)) && MakePath(f, d)[d].path != ""
  {
  }

  lemma {:induction false} CacheInStep<D>(f: Forest<D>, way: map<D, seq<D>>, d: D)
    requires Rooted(f, way) && InStep(f) && d in f
    ensures var g := Cache(f, way, d); InStep(g) && g[d].path != "" && Rooted(g, way)
    decreases assert RootedAt(f, way, d); |way[d]|
  {
    assert RootedAt(f, way, d);
    var g := Cache(f, way, d);
    if f[d].path == "" {
      if f[d].parent.Some? {
        CacheInStep(f, way, f[d].parent.value);
        assert SameShape(f[d], Cache(f, way, f[d].parent.value)[d]);
        MakePathInStep(Cache(f, way, f[d].parent.value), d);
      } else {
        MakePathInStep(f, d);
      }
    }
    forall x | x in g ensures RootedAt(g, way, x) {
      assert RootedAt(f, way, x) && SameShape(f[x], g[x]);
    }
  }

  /** In every state of a run the caches are in step. */
  lemma RunInStep<D>(s: State<D>)
    requires Inv(s)
    ensures InStep(s.f)
  {
    forall d | d in s.f ensures s.f[d].path == "" <==> s.f[d].level < 0 {
      assert CachedWell(s, d);
    }
  }

  /** The objects hold the elements of `f`. */
  ghost predicate Shown(f: Forest<DetElement>)
    reads f.Keys
  {
    forall d :: d in f ==> d.Is(f[d])
  }

  class DetElement {
    var name: string
    var parent: DetElement?
    var children: map<string, DetElement>
    var path: string
    var level: int

    ghost predicate Is(e: Element<DetElement>)
      reads this
    {
      && name == e.name && children == e.children && path == e.path && level == e.level
      && match e.parent
         case None => parent == null
         case Some(p) => parent == p
    }

    constructor (name: string)
      ensures Is(Element(name, None, map[], "", -1))
    {
      this.name, parent, children, path, level := name, null, map[], "", -1;
    }

    method MakePath(ghost f: Forest<DetElement>, ghost way: map<DetElement, seq<DetElement>>)
      requires Shown(f) && Rooted(f, way) && InStep(f) && this in f && path == ""
      modifies f.Keys
      ensures Shown(Cache(f, way, this))
      decreases assert RootedAt(f, way, this); |way[this]|, 0
    {
      assert RootedAt(f, way, this);
      ghost var e := f[this];
      if parent != null {
        ghost var g := Cache(f, way, parent);
        CacheInStep(f, way, parent);
        CacheLeaves(f, way, parent, this);
        var p := parent.Path(f, way);
        var l := parent.Level(g, way);
        assert Cache(g, way, parent) == g;
        Keep(p + "/" + name, if level < 0 then l + 1 else level, g);
      } else {
        Keep("/" + name, 0, f);
      }
    }

    method Keep(newPath: string, newLevel: int, ghost g: Forest<DetElement>)
      requires Shown(g) && this in g
      modifies this
      ensures Shown(g[this := g[this].(path := newPath, level := newLevel)])
    {
      path := newPath;
      level := newLevel;
    }

    method Path(ghost f: Forest<DetElement>, ghost way: map<DetElement, seq<DetElement>>) returns (p: string)
      requires Shown(f) && Rooted(f, way) && InStep(f) && this in f
      modifies f.Keys
      ensures Shown(Cache(f, way, this)) && p == Cache(f, way, this)[this].path
      decreases assert RootedAt(f, way, this); |way[this]|, 1
    {
      if path == "" {
        MakePath(f, way);
      }
      assert this in Cache(f, way, this);
      return path;
    }

    method Level(ghost f: Forest<DetElement>, ghost way: map<DetElement, seq<DetElement>>) returns (l: int)
      requires Shown(f) && Rooted(f, way) && InStep(f) && this in f
      modifies f.Keys
      ensures Shown(Cache(f, way, this)) && l == Cache(f, way, this)[this].level
      decreases assert RootedAt(f, way, this); |way[this]|, 1
    {
      if level < 0 {
        MakePath(f, way);
      }
      assert this in Cache(f, way, this);
      return level;
    }

    /** The state afterwards is that of the run; `ok` is false for the `Double-Insert` error. */
    method Add(child: DetElement, ghost s: State<DetElement>) returns (ok: bool)
      requires Inv(s) && Shown(s.f) && Legal(s, Event.Add(this, child))
      modifies s.f.Keys
      ensures Shown(Apply(s, Event.Add(this, child)).f)
      ensures ok == (child.name !in old(children))
      ensures ok ==> child.parent == this && children == old(children)[child.name := child]
      ensures ok ==> forall d :: d in s.f ==> d.name == old(d.name) && d.path == old(d.path) && d.level == old(d.level)
      ensures forall d :: d in s.f ==> d.name == old(d.name)
      ensures forall d :: d in s.f && !(ok && d == child) ==> d.parent == old(d.parent)
      ensures forall d :: d in s.f && !(ok && d == this) ==> d.children == old(d.children)
    {
      ok := child.name !in children;
      if ok {
        assert WayAt(s.f, s.way, this) && WayAt(s.f, s.way, child);
        Attach(child, s.f);
      } else {
        RunInStep(s);
        Refuse(s.f, s.way);
      }
    }

    method Attach(child: DetElement, ghost f: Forest<DetElement>)
      requires Shown(f) && this in f && child in f && this != child
      modifies `children, child`parent
      ensures Shown(DetectorTree.Attach(f, this, child))
      ensures child.parent == this && children == old(children)[child.name := child]
    {
      children := children[child.name := child];
      child.parent := this;
    }

    /** The message of the error reads the path. */
    method Refuse(ghost f: Forest<DetElement>, ghost way: map<DetElement, seq<DetElement>>)
      requires Shown(f) && Rooted(f, way) && InStep(f) && this in f
      modifies f.Keys
      ensures Shown(Cache(f, way, this))
      ensures forall d :: d in f ==> d.name == old(d.name) && d.parent == old(d.parent) && d.children == old(d.children)
    {
      var _ := Path(f, way);
      forall d | d in f ensures d.name == old(d.name) && d.parent == old(d.parent) && d.children == old(d.children) {
        assert SameShape(f[d], Cache(f, way, this)[d]) && old(d.Is(f[d])) && d.Is(Cache(f, way, this)[d]);
      }
    }

    method TopElement(ghost f: Forest<DetElement>, ghost way: map<DetElement, seq<DetElement>>)
      returns (top: DetElement)
      requires Shown(f) && Rooted(f, way) && this in f
      ensures top == Top(f, way, this)
      decreases assert RootedAt(f, way, this); |way[this]|
    {
      assert RootedAt(f, way, this);
      if parent != null {
        top := parent.TopElement(f, way);
      } else {
        top := this;
      }
    }

    method FindDaughterElement(subpath: string, ghost f: Forest<DetElement>,
                               ghost way: map<DetElement, seq<DetElement>>)
      returns (r: Option<DetElement>)
      requires Shown(f) && Rooted(f, way) && Kids(f) && this in f
      ensures r == FindDaughter(f, way, this, subpath)
      decreases |subpath|
    {
      var idx := Find(subpath, 1);
      if subpath != "" && subpath[0] == '/' {
        var top := TopElement(f, way);
        if idx == None {
          return Some(top);
        }
        r := top.FindDaughterElement(subpath[idx.value + 1..], f, way);
      } else {
        var name := if idx == None then subpath else subpath[..idx.value];
        if name !in children {
          return None;
        }
        assert IsChild(f, this, name, f[this].children[name]);
        if idx == None {
          return Some(children[name]);
        }
        r := children[name].FindDaughterElement(subpath[idx.value + 1..], f, way);
      }
    }
  }
}
