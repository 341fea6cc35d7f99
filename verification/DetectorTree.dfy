/**
 Detector elements: attaching them, their cached paths and levels (DDCore/src/DetElement.cpp),
 and looking an element up by its path (DDCore/src/DetectorTools.cpp).
 */
module DetectorTree {
  import opened Wrappers
  import opened Paths

  /** The fields of an element; `path == ""` and `level < 0` say that nothing is cached. */
  datatype Element<D> =
    Element(name: string, parent: Option<D>, children: map<string, D>, path: string, level: int)

  type Forest<D> = map<D, Element<D>>

  /**
   All elements, with what the proofs keep beside them: the names, the way from the top down to
   each element, and the elements that had a cached path when they were attached.
   */
  datatype State<D> = State(f: Forest<D>, names: map<D, string>, way: map<D, seq<D>>, late: set<D>)

  datatype Event<D> = Create(d: D, name: string) | Add(parent: D, child: D) | Read(d: D)

  predicate RootedAt<D(==)>(f: Forest<D>, way: map<D, seq<D>>, d: D)
    requires d in f
  {
    d in way && match f[d].parent
                case None => true
                case Some(p) => p in f && p in way && |way[p]| < |way[d]|
  }

  predicate Rooted<D(==)>(f: Forest<D>, way: map<D, seq<D>>) {
    forall d {:trigger RootedAt(f, way, d)} :: d in f ==> RootedAt(f, way, d)
  }

  /** `make_path` for an element whose parent, if any, has a path. */
  function MakePath<D(==)>(f: Forest<D>, d: D): Forest<D>
    requires d in f && (f[d].parent.Some? ==> f[d].parent.value in f)
  {
    match f[d].parent
    case None => f[d := f[d].(path := "/" + f[d].name, level := 0)]
    case Some(p) =>
      f[d := f[d].(path := f[p].path + "/" + f[d].name, level := if f[d].level < 0 then f[p].level + 1 else f[d].level)]
  }

  /** `path()`, `level()`: what is not cached yet is made from the parent, and cached there as well. */
  function Cache<D(==)>(f: Forest<D>, way: map<D, seq<D>>, d: D): (g: Forest<D>)
    requires Rooted(f, way) && d in f
    ensures g.Keys == f.Keys && forall x :: x in f ==> SameShape(f[x], g[x])
    decreases assert RootedAt(f, way, d); |way[d]|
  {
    assert RootedAt(f, way, d);
    if f[d].path != "" then f
    else if f[d].parent == None then MakePath(f, d)
    else MakePath(Cache(f, way, f[d].parent.value), d)
  }

  predicate SameShape<D(==)>(e: Element<D>, g: Element<D>) {
    g.name == e.name && g.parent == e.parent && g.children == e.children
  }

  /** `topElement` */
  function Top<D(==)>(f: Forest<D>, way: map<D, seq<D>>, d: D): (r: D)
    requires Rooted(f, way) && d in f
    ensures r in f && f[r].parent == None
    decreases assert RootedAt(f, way, d); |way[d]|
  {
    assert RootedAt(f, way, d);
    if f[d].parent.Some? then Top(f, way, f[d].parent.value) else d
  }

  predicate Legal<D(==)>(s: State<D>, event: Event<D>) {
    match event
    case Create(d, name) => d !in s.f
    // An element is attached once, and not below itself.
    case Add(p, c) => p in s.f && c in s.f && s.f[c].parent == None && Way(s.way, p)[0] != c
    case Read(d) => d in s.f
  }

  function Way<D(==)>(way: map<D, seq<D>>, d: D): (w: seq<D>)
    ensures w != []
  {
    if d in way && way[d] != [] then way[d] else [d]
  }

  /** `add`: a name that is taken is an error, whose message reads the path of the parent. */
  function Apply<D(==)>(s: State<D>, event: Event<D>): State<D>
    requires Rooted(s.f, s.way) && Legal(s, event)
  {
    match event
    case Create(d, name) =>
      State(s.f[d := Element(name, None, map[], "", -1)], s.names[d := name], s.way[d := [d]], s.late)
    case Add(p, c) =>
      if s.f[c].name in s.f[p].children then s.(f := Cache(s.f, s.way, p))
      else
        s.(f := Attach(s.f, p, c), way := Longer(s.way, p, c),
           late := if s.f[c].path != "" then s.late + {c} else s.late)
    case Read(d) => s.(f := Cache(s.f, s.way, d))
  }

  function Attach<D(==)>(f: Forest<D>, p: D, c: D): Forest<D>
    requires p in f && c in f
  {
    var g := f[p := f[p].(children := f[p].children[f[c].name := c])];
    g[c := g[c].(parent := Some(p))]
  }

  function Longer<D(==)>(way: map<D, seq<D>>, p: D, c: D): map<D, seq<D>> {
    map d | d in way :: if Way(way, d)[0] == c then Way(way, p) + Way(way, d) else Way(way, d)
  }

  // What every run keeps.

  predicate WayAt<D(==)>(f: Forest<D>, way: map<D, seq<D>>, d: D)
    requires d in f
  {
    d in way && match f[d].parent
                case None => way[d] == [d]
                case Some(p) => p in f && p in way && way[p] != [] && way[d] == way[p] + [d]
  }

  predicate Ways<D(==)>(f: Forest<D>, way: map<D, seq<D>>) {
    && way.Keys == f.Keys
    && forall d {:trigger WayAt(f, way, d)} :: d in f ==> WayAt(f, way, d)
  }

  /** The part of a way that is at and below its last late element. */
  function Kept<D(==)>(w: seq<D>, late: set<D>): (r: seq<D>)
    requires w != []
    ensures r != [] && |r| <= |w|
  {
    if |w| == 1 || Last(w) in late then [Last(w)] else Kept(Front(w), late) + [Last(w)]
  }

  function NameOf<D(==)>(names: map<D, string>, d: D): string {
    if d in names then names[d] else ""
  }

  function Text<D(==)>(names: map<D, string>, w: seq<D>): string {
    if w == [] then "" else Text(names, Front(w)) + "/" + NameOf(names, Last(w))
  }

  /** What is cached, if anything, belongs to the way `w`. */
  predicate Right<D(==)>(e: Element<D>, names: map<D, string>, w: seq<D>) {
    if e.path == "" then e.level < 0 else e.path == Text(names, w) && e.level == |w| - 1
  }

  predicate CachedWell<D(==)>(s: State<D>, d: D)
    requires d in s.f
  {
    var e := s.f[d];
    && Right(e, s.names, Kept(Way(s.way, d), s.late))
    && e.name == NameOf(s.names, d)
    && (d in s.late ==> e.path != "" && e.parent.Some?)
    && (e.path != "" && d !in s.late && e.parent.Some? ==> e.parent.value in s.f && s.f[e.parent.value].path != "")
  }

  predicate Caches<D(==)>(s: State<D>) {
    forall d {:trigger CachedWell(s, d)} :: d in s.f ==> CachedWell(s, d)
  }

  /** An element is the child of its parent under its name, and no other way round. */
  predicate Kids<D(==)>(f: Forest<D>) {
    && (forall p, n :: p in f && n in f[p].children ==> f[p].children[n] in f && IsChild(f, p, n, f[p].children[n]))
    && (forall c {:trigger f[c]} :: c in f && f[c].parent.Some? ==>
          f[c].parent.value in f && IsKnown(f, f[c].parent.value, c))
  }

  predicate IsChild<D(==)>(f: Forest<D>, p: D, n: string, c: D)
    requires c in f
  {
    f[c].parent == Some(p) && f[c].name == n
  }

  predicate IsKnown<D(==)>(f: Forest<D>, p: D, c: D)
    requires p in f && c in f
  {
    f[c].name in f[p].children && f[p].children[f[c].name] == c
  }

  // Reading a path.

  lemma KeptEnd<D>(w: seq<D>, d: D, late: set<D>)
    requires w != [] && d !in late
    ensures Kept(w + [d], late) == Kept(w, late) + [d]
  {
    assert Front(w + [d]) == w && Last(w + [d]) == d;
  }

  lemma TextEnd<D>(names: map<D, string>, w: seq<D>, d: D)
    ensures Text(names, w + [d]) == Text(names, w) + "/" + NameOf(names, d)
  {
    assert Front(w + [d]) == w && Last(w + [d]) == d;
  }

  /** Making the path of an element whose parent is cached. */
  lemma MakePathRight<D>(s: State<D>, d: D)
    requires Ways(s.f, s.way) && d in s.f && s.f[d].path == "" && CachedWell(s, d)
    requires match s.f[d].parent
             case None => true
             case Some(p) => p in s.f && s.f[p].path != "" && CachedWell(s, p)
    ensures var g := MakePath(s.f, d);
            g[d].path != "" && Right(g[d], s.names, Kept(Way(s.way, d), s.late))
  {
    assert WayAt(s.f, s.way, d);
    match s.f[d].parent {
      case None => TextEnd<D>(s.names, [], d);
      case Some(p) =>
        KeptEnd(s.way[p], d, s.late);
        TextEnd(s.names, Kept(s.way[p], s.late), d);
    }
  }

  lemma MakePathKeeps<D>(s: State<D>, d: D)
    requires Ways(s.f, s.way) && Caches(s) && d in s.f && s.f[d].path == ""
    requires s.f[d].parent.Some? ==> s.f[d].parent.value in s.f && s.f[s.f[d].parent.value].path != ""
    ensures Caches(s.(f := MakePath(s.f, d))) && MakePath(s.f, d)[d].path != ""
  {
    var t := s.(f := MakePath(s.f, d));
    assert CachedWell(s, d);
    if s.f[d].parent.Some? {
      assert CachedWell(s, s.f[d].parent.value);
    }
    MakePathRight(s, d);
    forall x | x in t.f ensures CachedWell(t, x) {
      assert CachedWell(s, x);
    }
  }

  lemma {:induction false} CacheKeeps<D>(s: State<D>, d: D)
    requires Rooted(s.f, s.way) && Ways(s.f, s.way) && Caches(s) && d in s.f
    ensures var g := Cache(s.f, s.way, d);
            && Caches(s.(f := g)) && g[d].path != "" && Ways(g, s.way) && Rooted(g, s.way)
    decreases assert RootedAt(s.f, s.way, d); |s.way[d]|
  {
    assert RootedAt(s.f, s.way, d);
    var g := Cache(s.f, s.way, d);
    if s.f[d].path == "" {
      if s.f[d].parent.Some? {
        var p := s.f[d].parent.value;
        CacheKeeps(s, p);
        CacheLeaves(s.f, s.way, p, d);
        MakePathKeeps(s.(f := Cache(s.f, s.way, p)), d);
      } else {
        MakePathKeeps(s, d);
      }
    }
    forall x | x in g ensures WayAt(g, s.way, x) && RootedAt(g, s.way, x) {
      assert WayAt(s.f, s.way, x) && RootedAt(s.f, s.way, x);
    }
  }

  /** Elements with a longer way are left alone. */
  lemma {:induction false} CacheLeaves<D>(f: Forest<D>, way: map<D, seq<D>>, d: D, x: D)
    requires Rooted(f, way) && d in f && x in f
    requires d in way && x in way && |way[d]| < |way[x]|
    ensures Cache(f, way, d)[x] == f[x]
    decreases |way[d]|
  {
    assert RootedAt(f, way, d);
    if f[d].path == "" && f[d].parent.Some? {
      CacheLeaves(f, way, f[d].parent.value, x);
    }
  }

  // Attaching an element.

  lemma {:induction false} WaysInside<D>(f: Forest<D>, way: map<D, seq<D>>, d: D)
    requires Ways(f, way) && d in f
    ensures forall x :: x in way[d] ==> x in f
    decreases |way[d]|
  {
    assert WayAt(f, way, d);
    if f[d].parent.Some? {
      WaysInside(f, way, f[d].parent.value);
    }
  }

  /** An element without a parent is at the top of every way it is on. */
  lemma {:induction false} TopOnly<D>(f: Forest<D>, way: map<D, seq<D>>, c: D, d: D)
    requires Ways(f, way) && c in f && f[c].parent == None && d in f && way[d] != []
    ensures c !in way[d][1..]
    decreases |way[d]|
  {
    assert WayAt(f, way, d);
    if f[d].parent.Some? {
      var p := f[d].parent.value;
      TopOnly(f, way, c, p);
      assert way[d][1..] == way[p][1..] + [d];
    }
  }

  /** A cached element below a top that is not has a late element on its way. */
  lemma {:induction false} LateBelow<D>(s: State<D>, d: D)
    requires Ways(s.f, s.way) && Caches(s) && d in s.f && s.f[d].path != ""
    requires var top := Way(s.way, d)[0]; top in s.f && s.f[top].path == ""
    ensures exists x :: x in s.way[d] && x in s.late
    decreases |s.way[d]|
  {
    assert WayAt(s.f, s.way, d) && CachedWell(s, d);
    if d in s.late {
      assert d in s.way[d];
    } else if s.f[d].parent.Some? {
      var p := s.f[d].parent.value;
      LateBelow(s, p);
      var x :| x in s.way[p] && x in s.late;
      assert x in s.way[d];
    }
  }

  lemma {:induction false} KeptBelow<D>(u: seq<D>, w: seq<D>, late: set<D>)
    requires w != [] && exists x :: x in w && x in late
    ensures Kept(u + w, late) == Kept(w, late)
    decreases |w|
  {
    assert Last(u + w) == Last(w) && Front(u + w) == u + Front(w);
    if Last(w) !in late {
      var x :| x in w && x in late;
      assert x in Front(w);
      KeptBelow(u, Front(w), late);
    } else if |w| == 1 && u == [] {
      assert u + w == w;
    }
  }

  lemma {:induction false} KeptWithTop<D>(w: seq<D>, late: set<D>, c: D)
    requires w != [] && c !in w[1..]
    ensures Kept(w, late + {c}) == Kept(w, late)
    decreases |w|
  {
    if |w| > 1 {
      assert Last(w) in w[1..] && Front(w)[1..] == w[1..|w| - 1];
      assert forall x :: x in Front(w)[1..] ==> x in w[1..];
      KeptWithTop(Front(w), late, c);
    }
  }

  /** Attaching an element changes no part of a way that anything cached belongs to. */
  lemma KeptOnAdd<D>(s: State<D>, p: D, c: D, d: D)
    requires Ways(s.f, s.way) && Caches(s) && Legal(s, Add(p, c)) && d in s.f && s.f[d].path != ""
    ensures var late := if s.f[c].path != "" then s.late + {c} else s.late;
            Kept(Way(Longer(s.way, p, c), d), late) == Kept(Way(s.way, d), s.late)
  {
    var w, u := Way(s.way, d), Way(s.way, p);
    assert WayAt(s.f, s.way, d);
    TopOnly(s.f, s.way, c, d);
    if s.f[c].path != "" {
      KeptWithTop(w, s.late, c);
      if w[0] == c {
        KeptBelow(u, w, s.late + {c});
      }
    } else if w[0] == c {
      LateBelow(s, d);
      KeptBelow(u, w, s.late);
    }
  }

  lemma AddKeepsWays<D>(f: Forest<D>, way: map<D, seq<D>>, p: D, c: D)
    requires Ways(f, way) && p in f && c in f && f[c].parent == None && Way(way, p)[0] != c
    ensures Ways(Attach(f, p, c), Longer(way, p, c))
  {
    var g, longer := Attach(f, p, c), Longer(way, p, c);
    assert WayAt(f, way, p) && WayAt(f, way, c);
    forall d | d in g ensures WayAt(g, longer, d) {
      assert WayAt(f, way, d);
      if d != c && f[d].parent.Some? {
        var q := f[d].parent.value;
        assert WayAt(f, way, q) && way[d][0] == way[q][0];
        assert (way[p] + way[q]) + [d] == way[p] + (way[q] + [d]);
      }
    }
  }

  lemma AddKeepsKids<D>(f: Forest<D>, p: D, c: D)
    requires Kids(f) && p in f && c in f && f[c].parent == None && p != c && f[c].name !in f[p].children
    ensures Kids(Attach(f, p, c))
  {
    var g := Attach(f, p, c);
    forall q, n | q in g && n in g[q].children
      ensures g[q].children[n] in g && IsChild(g, q, n, g[q].children[n])
    {
      if q != p || n != f[c].name {
        assert n in f[q].children && IsChild(f, q, n, f[q].children[n]);
      }
    }
    forall x | x in g && g[x].parent.Some?
      ensures g[x].parent.value in g && IsKnown(g, g[x].parent.value, x)
    {
      if x != c {
        assert f[x].parent.value in f && IsKnown(f, f[x].parent.value, x);
      }
    }
  }

  lemma AddKeepsCaches<D>(s: State<D>, p: D, c: D)
    requires Rooted(s.f, s.way) && Ways(s.f, s.way) && Caches(s) && Legal(s, Add(p, c))
    requires s.f[c].name !in s.f[p].children
    ensures Caches(Apply(s, Add(p, c)))
  {
    var t := Apply(s, Add(p, c));
    forall d | d in t.f ensures CachedWell(t, d) {
      assert CachedWell(s, d);
      if s.f[d].path != "" {
        KeptOnAdd(s, p, c, d);
      }
    }
  }

  lemma CreateKeepsWays<D>(s: State<D>, d: D, name: string)
    requires Rooted(s.f, s.way) && Ways(s.f, s.way) && d !in s.f
    ensures var t := Apply(s, Create(d, name)); Ways(t.f, t.way)
  {
    var t := Apply(s, Create(d, name));
    forall x | x in t.f ensures WayAt(t.f, t.way, x) {
      if x != d {
        assert WayAt(s.f, s.way, x);
      }
    }
  }

  lemma CreateKeepsCaches<D>(s: State<D>, d: D, name: string)
    requires Rooted(s.f, s.way) && Ways(s.f, s.way) && Caches(s) && d !in s.f && s.late <= s.f.Keys
    ensures Caches(Apply(s, Create(d, name)))
  {
    var t := Apply(s, Create(d, name));
    forall x | x in t.f ensures CachedWell(t, x) {
      if x != d {
        assert WayAt(s.f, s.way, x) && CachedWell(s, x);
        WaysInside(s.f, s.way, x);
        KeptInside(Way(s.way, x), s.late);
        SameText(s.names, t.names, Kept(Way(s.way, x), s.late));
      }
    }
  }

  lemma CreateKeepsKids<D>(f: Forest<D>, d: D, name: string)
    requires Kids(f) && d !in f
    ensures Kids(f[d := Element(name, None, map[], "", -1)])
  {
    var g := f[d := Element(name, None, map[], "", -1)];
    forall q, n | q in g && n in g[q].children
      ensures g[q].children[n] in g && IsChild(g, q, n, g[q].children[n])
    {
      assert n in f[q].children && IsChild(f, q, n, f[q].children[n]);
    }
    forall x | x in g && g[x].parent.Some?
      ensures g[x].parent.value in g && IsKnown(g, g[x].parent.value, x)
    {
      assert f[x].parent.value in f && IsKnown(f, f[x].parent.value, x);
    }
  }

  lemma {:induction false} KeptInside<D>(w: seq<D>, late: set<D>)
    requires w != []
    ensures forall x :: x in Kept(w, late) ==> x in w
    decreases |w|
  {
    if |w| > 1 && Last(w) !in late {
      KeptInside(Front(w), late);
    }
  }

  lemma {:induction false} SameText<D>(names: map<D, string>, more: map<D, string>, w: seq<D>)
    requires forall x :: x in w ==> NameOf(names, x) == NameOf(more, x)
    ensures Text(names, w) == Text(more, w)
    decreases |w|
  {
    if w != [] {
      assert Last(w) in w;
      SameText(names, more, Front(w));
    }
  }

  // Runs.

  ghost predicate Inv<D>(s: State<D>) {
    Rooted(s.f, s.way) && Ways(s.f, s.way) && Kids(s.f) && Caches(s) && s.late <= s.f.Keys
  }

  lemma WaysRooted<D>(f: Forest<D>, way: map<D, seq<D>>)
    requires Ways(f, way)
    ensures Rooted(f, way)
  {
    forall d | d in f ensures RootedAt(f, way, d) {
      assert WayAt(f, way, d);
    }
  }

  lemma CacheKeepsKids<D>(f: Forest<D>, way: map<D, seq<D>>, d: D)
    requires Rooted(f, way) && Kids(f) && d in f
    ensures Kids(Cache(f, way, d))
  {
    var g := Cache(f, way, d);
    forall q, n | q in g && n in g[q].children
      ensures g[q].children[n] in g && IsChild(g, q, n, g[q].children[n])
    {
      assert SameShape(f[q], g[q]) && IsChild(f, q, n, f[q].children[n]);
    }
    forall x | x in g && g[x].parent.Some?
      ensures g[x].parent.value in g && IsKnown(g, g[x].parent.value, x)
    {
      assert SameShape(f[x], g[x]) && IsKnown(f, f[x].parent.value, x);
      assert SameShape(f[f[x].parent.value], g[f[x].parent.value]);
    }
  }

  lemma StepKeeps<D>(s: State<D>, event: Event<D>)
    requires Inv(s) && Legal(s, event)
    ensures Inv(Apply(s, event))
  {
    match event {
      case Create(d, name) =>
        CreateKeepsWays(s, d, name);
        CreateKeepsCaches(s, d, name);
        CreateKeepsKids(s.f, d, name);
      case Add(p, c) =>
        if s.f[c].name in s.f[p].children {
          CacheKeeps(s, p);
          CacheKeepsKids(s.f, s.way, p);
        } else {
          assert WayAt(s.f, s.way, p) && WayAt(s.f, s.way, c);
          AddKeepsWays(s.f, s.way, p, c);
          AddKeepsKids(s.f, p, c);
          AddKeepsCaches(s, p, c);
        }
      case Read(d) =>
        CacheKeeps(s, d);
        CacheKeepsKids(s.f, s.way, d);
    }
    WaysRooted(Apply(s, event).f, Apply(s, event).way);
  }

  // What each event does.

  /** A new element stands alone. */
  lemma CreateMakes<D>(s: State<D>, d: D, name: string)
    requires Inv(s) && d !in s.f
    ensures var t := Apply(s, Create(d, name));
            && t.f.Keys == s.f.Keys + {d} && t.late == s.late && d in t.way && t.way[d] == [d]
            && t.f[d].name == name && t.f[d].parent == None && t.f[d].children == map[]
            && t.f[d].path == "" && t.f[d].level < 0
            && forall x :: x in s.f ==> t.f[x] == s.f[x] && x in t.way && t.way[x] == s.way[x]
  {
  }

  /** Neither a name nor a link differs. */
  ghost predicate SameLinks<D>(f: Forest<D>, g: Forest<D>) {
    && g.Keys == f.Keys
    && forall d :: d in f ==> g[d].name == f[d].name && g[d].parent == f[d].parent && g[d].children == f[d].children
  }

  ghost predicate SameCaches<D>(f: Forest<D>, g: Forest<D>) {
    g.Keys == f.Keys && forall d :: d in f ==> g[d].path == f[d].path && g[d].level == f[d].level
  }

  /** `g` differs from `f` in one thing: `c` hangs below `p` under its name. */
  ghost predicate Attached<D>(f: Forest<D>, g: Forest<D>, p: D, c: D)
    requires p in f && c in f
  {
    && SameCaches(f, g) && (forall d :: d in f ==> g[d].name == f[d].name)
    && g[c].parent == Some(p) && f[c].name in g[p].children && g[p].children[f[c].name] == c
    && (forall n :: n != f[c].name ==>
          (n in g[p].children <==> n in f[p].children) && (n in f[p].children ==> g[p].children[n] == f[p].children[n]))
    && (forall d :: d in f && d != c ==> g[d].parent == f[d].parent)
    && (forall d :: d in f && d != p ==> g[d].children == f[d].children)
  }

  lemma AttachIs<D>(f: Forest<D>, p: D, c: D)
    requires p in f && c in f && p != c
    ensures Attached(f, Attach(f, p, c), p, c)
  {
  }

  /** `more` are the ways when all that is below `c` also is below `p`. */
  ghost predicate Lengthened<D>(way: map<D, seq<D>>, more: map<D, seq<D>>, p: D, c: D)
    requires p in way && c in way
  {
    && more.Keys == way.Keys && more[p] == way[p] && more[c] == way[p] + [c]
    && forall d :: d in way && way[d] != [] ==> more[d] == if way[d][0] == c then way[p] + way[d] else way[d]
  }

  lemma LongerIs<D>(f: Forest<D>, way: map<D, seq<D>>, p: D, c: D)
    requires Ways(f, way) && p in f && c in f && f[c].parent == None && Way(way, p)[0] != c
    ensures Lengthened(way, Longer(way, p, c), p, c)
  {
    assert WayAt(f, way, p) && WayAt(f, way, c);
  }

  /** Under a free name the child is attached, and nothing else changes; it is late exactly if it has a cached path. */
  lemma AddAttaches<D>(s: State<D>, p: D, c: D)
    requires Inv(s) && Legal(s, Add(p, c)) && s.f[c].name !in s.f[p].children
    ensures p in s.way && c in s.way
    ensures var t := Apply(s, Add(p, c));
            && Attached(s.f, t.f, p, c) && Lengthened(s.way, t.way, p, c)
            && Kids(t.f) && Child(t.f, p, s.f[c].name) == Some(c)
            && forall d :: d in t.late <==> d in s.late || (d == c && s.f[c].path != "")
  {
    assert WayAt(s.f, s.way, p) && WayAt(s.f, s.way, c);
    AttachIs(s.f, p, c);
    LongerIs(s.f, s.way, p, c);
    StepKeeps(s, Add(p, c));
  }

  /** Under a name that is taken nothing is attached; the path of the parent is read. */
  lemma AddRefused<D>(s: State<D>, p: D, c: D)
    requires Inv(s) && Legal(s, Add(p, c)) && s.f[c].name in s.f[p].children
    ensures var t := Apply(s, Add(p, c));
            SameLinks(s.f, t.f) && t.way == s.way && t.late == s.late && t == Apply(s, Read(p))
  {
    CacheShape(s.f, s.way, p);
  }

  lemma CacheShape<D>(f: Forest<D>, way: map<D, seq<D>>, d: D)
    requires Rooted(f, way) && d in f
    ensures SameLinks(f, Cache(f, way, d))
  {
    forall x | x in f ensures SameShape(f[x], Cache(f, way, d)[x]) {
    }
  }

  /** What is cached for `d` in `g`, which has just been made from its parent. */
  predicate FromParent<D(==)>(g: Forest<D>, d: D)
    requires d in g && (g[d].parent.Some? ==> g[d].parent.value in g)
  {
    match g[d].parent
    case None => g[d].path == "/" + g[d].name && g[d].level == 0
    case Some(p) => g[d].path == g[p].path + "/" + g[d].name && g[d].level == g[p].level + 1
  }

  /** From `f` to `g`, element `x` is left alone or has its path made from its parent. */
  ghost predicate MadeOrKept<D>(f: Forest<D>, g: Forest<D>, x: D)
    requires x in f && x in g
  {
    && (g[x].parent.Some? ==> g[x].parent.value in g)
    && (if f[x].path != "" || g[x].path == "" then g[x] == f[x] else FromParent(g, x))
  }

  /** Reading caches a path; what is cached already stays, and all that is new is made from the parents. */
  lemma ReadCaches<D>(s: State<D>, d: D)
    requires Inv(s) && d in s.f
    ensures var t := Apply(s, Read(d));
            && SameLinks(s.f, t.f) && t.way == s.way && t.late == s.late && t.f[d].path != ""
            && forall x :: x in s.f ==> MadeOrKept(s.f, t.f, x)
  {
    CacheShape(s.f, s.way, d);
    CacheKeeps(s, d);
    forall x | x in s.f ensures MadeOrKept(s.f, Cache(s.f, s.way, d), x) {
      CacheMade(s, d, x);
    }
  }

  lemma MakePathMade<D>(f: Forest<D>, g: Forest<D>, d: D, x: D)
    requires g.Keys == f.Keys && d in f && x in f && MadeOrKept(f, g, x)
    requires g[d] == f[d] && f[d].path == "" && f[d].level < 0
    requires f[d].parent.Some? ==> f[d].parent.value in f && f[d].parent.value != d
    requires g[x].parent == Some(d) ==> g[x] == f[x]
    ensures MadeOrKept(f, MakePath(g, d), x)
  {
  }

  lemma {:induction false} CacheMade<D>(s: State<D>, d: D, x: D)
    requires Rooted(s.f, s.way) && Ways(s.f, s.way) && Caches(s) && d in s.f && x in s.f
    ensures MadeOrKept(s.f, Cache(s.f, s.way, d), x)
    decreases assert RootedAt(s.f, s.way, d); |s.way[d]|
  {
    assert RootedAt(s.f, s.way, d) && RootedAt(s.f, s.way, x) && CachedWell(s, d);
    if s.f[d].path == "" {
      if s.f[d].parent.Some? {
        var p := s.f[d].parent.value;
        CacheMade(s, p, x);
        CacheLeaves(s.f, s.way, p, d);
        if s.f[x].parent == Some(d) {
          CacheLeaves(s.f, s.way, p, x);
        }
        MakePathMade(s.f, Cache(s.f, s.way, p), d, x);
      } else {
        MakePathMade(s.f, s.f, d, x);
      }
    }
  }

  /** The state after a run, if every event of it was legal. */
  function Run<D(==)>(events: seq<Event<D>>): (r: Option<State<D>>)
    ensures r.Some? ==> Inv(r.value)
  {
    if events == [] then Some(State(map[], map[], map[], {}))
    else
      var before := Run(Front(events));
      if before.Some? && Legal(before.value, Last(events)) then
        StepKeeps(before.value, Last(events));
        Some(Apply(before.value, Last(events)))
      else None
  }

  // Looking an element up.

  /** `child(name)`, with `None` for its exception. */
  function Child<D(==)>(f: Forest<D>, e: D, name: string): (r: Option<D>)
    requires Kids(f) && e in f
    ensures r.Some? ==> r.value in f && f[r.value].parent == Some(e)
  {
    if name in f[e].children then
      assert IsChild(f, e, name, f[e].children[name]);
      Some(f[e].children[name])
    else None
  }

  /** `findDaughterElement`, with `None` for an exception. */
  function FindDaughter<D(==)>(f: Forest<D>, way: map<D, seq<D>>, e: D, path: string): (r: Option<D>)
    requires Rooted(f, way) && Kids(f) && e in f
    ensures r.Some? ==> r.value in f
    decreases |path|
  {
    var slash := Find(path, 1);
    if path != "" && path[0] == '/' then
      if slash == None then Some(Top(f, way, e))
      else FindDaughter(f, way, Top(f, way, e), path[slash.value + 1..])
    else if slash == None then Child(f, e, path)
    else
      var node := Child(f, e, path[..slash.value]);
      if node == None then None else FindDaughter(f, way, node.value, path[slash.value + 1..])
  }

  /** Child by child. */
  function Descend<D(==)>(f: Forest<D>, e: D, names: seq<string>): (r: Option<D>)
    requires Kids(f) && e in f
    ensures r.Some? ==> r.value in f
    decreases |names|
  {
    if names == [] then Some(e)
    else
      var node := Child(f, e, names[0]);
      if node == None then None else Descend(f, node.value, names[1..])
  }

  lemma {:induction false} DescendEnd<D>(f: Forest<D>, e: D, names: seq<string>, name: string)
    requires Kids(f) && e in f
    ensures Descend(f, e, names + [name]) ==
            var up := Descend(f, e, names); if up == None then None else Child(f, up.value, name)
    decreases |names|
  {
    if names == [] {
      assert ([name])[1..] == [];
    } else {
      assert (names + [name])[0] == names[0] && (names + [name])[1..] == names[1..] + [name];
      var node := Child(f, e, names[0]);
      if node.Some? {
        DescendEnd(f, node.value, names[1..], name);
      }
    }
  }

  lemma {:induction false} DescendDepth<D>(f: Forest<D>, way: map<D, seq<D>>, e: D, names: seq<string>)
    requires Kids(f) && Ways(f, way) && e in f
    ensures var r := Descend(f, e, names); r.Some? ==> |way[r.value]| == |way[e]| + |names|
    decreases |names|
  {
    if names != [] {
      var node := Child(f, e, names[0]);
      if node.Some? {
        assert WayAt(f, way, node.value);
        DescendDepth(f, way, node.value, names[1..]);
      }
    }
  }

  lemma {:induction false} TopIs<D>(f: Forest<D>, way: map<D, seq<D>>, d: D)
    requires Rooted(f, way) && Ways(f, way) && d in f
    ensures way[d] != [] && Top(f, way, d) == way[d][0]
    decreases |way[d]|
  {
    assert WayAt(f, way, d) && RootedAt(f, way, d);
    if f[d].parent.Some? {
      TopIs(f, way, f[d].parent.value);
    }
  }

  /** The names on a way. */
  function Labels<D(==)>(names: map<D, string>, w: seq<D>): (r: seq<string>)
    ensures |r| == |w|
  {
    if w == [] then [] else Labels(names, Front(w)) + [NameOf(names, Last(w))]
  }

  lemma {:induction false} TextPrints<D>(names: map<D, string>, w: seq<D>)
    ensures Text(names, w) == Print(Labels(names, w))
    decreases |w|
  {
    if w != [] {
      TextPrints(names, Front(w));
      var labels := Labels(names, w);
      PrintLast(labels);
      assert Front(labels) == Labels(names, Front(w));
    }
  }

  /** From the top, the names on its way lead to an element. */
  lemma {:induction false} DescendWay<D>(s: State<D>, d: D)
    requires Inv(s) && d in s.f
    ensures s.way[d] != [] && s.way[d][0] in s.f
    ensures Descend(s.f, s.way[d][0], Labels(s.names, s.way[d])[1..]) == Some(d)
    decreases |s.way[d]|
  {
    assert WayAt(s.f, s.way, d) && CachedWell(s, d);
    if s.f[d].parent.Some? {
      var p := s.f[d].parent.value;
      DescendWay(s, p);
      assert IsKnown(s.f, p, d);
      assert Front(s.way[d]) == s.way[p] && Last(s.way[d]) == d;
      var labels := Labels(s.names, s.way[p]);
      assert Labels(s.names, s.way[d])[1..] == labels[1..] + [s.f[d].name];
      DescendEnd(s.f, s.way[d][0], labels[1..], s.f[d].name);
    }
  }

  /** The first name of a printed path, without the leading slash. */
  lemma FirstName(name: string, rest: seq<string>)
    requires IsName(name) && forall n :: n in rest ==> IsName(n)
    ensures var text := Print([name] + rest)[1..];
            && text != "" && text[0] != '/'
            && Find(text, 1) == (if rest == [] then None else Some(|name|))
            && (if rest == [] then text == name
                else |name| < |text| && text[..|name|] == name && text[|name| + 1..] == Print(rest)[1..])
  {
    PrintFirst(name, rest);
    PrintLonger(rest);
    var text := Print([name] + rest)[1..];
    assert text == name + Print(rest);
    if rest == [] {
      FindNone(text, 1);
    } else {
      assert text[|name|] == Print(rest)[0] == '/';
      FindIs(text, 1, |name|);
    }
  }

  lemma {:induction false} FindDescends<D>(f: Forest<D>, way: map<D, seq<D>>, e: D, names: seq<string>)
    requires Rooted(f, way) && Kids(f) && e in f
    requires names != [] && forall n :: n in names ==> IsName(n)
    ensures Print(names) != "" && FindDaughter(f, way, e, Print(names)[1..]) == Descend(f, e, names)
    decreases |names|
  {
    var name, rest := names[0], names[1..];
    assert names == [name] + rest;
    FirstName(name, rest);
    if rest != [] {
      var node := Child(f, e, name);
      if node.Some? {
        FindDescends(f, way, node.value, rest);
      }
    }
  }

  /** Of an absolute path the first name only stands for the top. */
  lemma FindAbsolute<D>(f: Forest<D>, way: map<D, seq<D>>, e: D, names: seq<string>)
    requires Rooted(f, way) && Kids(f) && e in f
    requires names != [] && forall n :: n in names ==> IsName(n)
    ensures FindDaughter(f, way, e, Print(names)) == Descend(f, Top(f, way, e), names[1..])
  {
    var name, rest := names[0], names[1..];
    var path := Print(names);
    assert names == [name] + rest && path[0..] == path;
    NameAt(path, 0, name, rest);
    if rest != [] {
      FindDescends(f, way, Top(f, way, e), rest);
      assert path[1 + |name| + 1..] == Print(rest)[1..];
    }
  }

  // Main results, for every run.

  /** Neither the element nor one above it had a cached path when it was attached. */
  predicate OnTime<D(==)>(s: State<D>, d: D) {
    forall x :: x in Way(s.way, d) ==> x !in s.late
  }

  lemma {:induction false} KeptIsAll<D>(names: map<D, string>, w: seq<D>, late: set<D>)
    requires w != [] && w[0] !in late
    ensures if forall x :: x in w ==> x !in late then Kept(w, late) == w
            else |Kept(w, late)| < |w| && |Text(names, Kept(w, late))| < |Text(names, w)|
    decreases |w|
  {
    assert w == Front(w) + [Last(w)];
    assert forall x :: x in w <==> x in Front(w) || x == Last(w);
    if |w| == 1 {
      assert Front(w) == [];
    } else {
      if Last(w) in late {
        TextEnd<D>(names, [], Last(w));
        assert [] + [Last(w)] == [Last(w)];
      } else {
        KeptIsAll(names, Front(w), late);
        TextEnd(names, Kept(Front(w), late), Last(w));
      }
    }
  }

  /** A cached path and level are those of the place of the element exactly when it is on time. */
  lemma CachedIsExact<D>(events: seq<Event<D>>, d: D)
    requires Run(events).Some? && d in Run(events).value.f && Run(events).value.f[d].path != ""
    ensures var s := Run(events).value;
            && (OnTime(s, d) <==> s.f[d].path == Print(Labels(s.names, Way(s.way, d))))
            && (OnTime(s, d) <==> s.f[d].level == |Way(s.way, d)| - 1)
  {
    var s := Run(events).value;
    var w := Way(s.way, d);
    TopIs(s.f, s.way, d);
    assert CachedWell(s, d) && CachedWell(s, Top(s.f, s.way, d));
    KeptIsAll(s.names, w, s.late);
    TextPrints(s.names, w);
  }

  /**
   Looking up the cached path of an element, from anywhere in its tree, gives the element back
   exactly when it is on time.
   */
  lemma PathFindsElement<D>(events: seq<Event<D>>, d: D, e: D)
    requires Run(events).Some?
    requires var s := Run(events).value;
             && d in s.f && e in s.f && s.f[d].path != "" && Way(s.way, e)[0] == Way(s.way, d)[0]
             && forall x :: x in s.f ==> IsName(s.f[x].name)
    ensures var s := Run(events).value;
            OnTime(s, d) <==> FindDaughter(s.f, s.way, e, s.f[d].path) == Some(d)
  {
    var s := Run(events).value;
    var w := Way(s.way, d);
    var k := Kept(w, s.late);
    var labels := Labels(s.names, k);
    TopIs(s.f, s.way, d);
    TopIs(s.f, s.way, e);
    assert CachedWell(s, d) && CachedWell(s, w[0]);
    KeptIsAll(s.names, w, s.late);
    TextPrints(s.names, k);
    LabelsAreNames(s, d);
    FindAbsolute(s.f, s.way, e, labels);
    if OnTime(s, d) {
      DescendWay(s, d);
    } else {
      DescendDepth(s.f, s.way, w[0], labels[1..]);
      assert WayAt(s.f, s.way, w[0]);
    }
  }

  lemma LabelsAreNames<D>(s: State<D>, d: D)
    requires Inv(s) && d in s.f && forall x :: x in s.f ==> IsName(s.f[x].name)
    ensures forall n :: n in Labels(s.names, Kept(Way(s.way, d), s.late)) ==> IsName(n)
  {
    var k := Kept(Way(s.way, d), s.late);
    assert WayAt(s.f, s.way, d);
    WaysInside(s.f, s.way, d);
    KeptInside(Way(s.way, d), s.late);
    forall x | x in k ensures IsName(NameOf(s.names, x)) {
      assert CachedWell(s, x);
    }
    LabelsOf(s.names, k);
  }

  lemma {:induction false} LabelsOf<D>(names: map<D, string>, w: seq<D>)
    requires forall x :: x in w ==> IsName(NameOf(names, x))
    ensures forall n :: n in Labels(names, w) ==> IsName(n)
    decreases |w|
  {
    if w != [] {
      assert Last(w) in w;
      LabelsOf(names, Front(w));
    }
  }
}
