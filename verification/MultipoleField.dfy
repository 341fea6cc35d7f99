/** The multipole field and its bounding-box pre-filter, in exact reals (DDCore/src/FieldTypes.cpp). */
module MultipoleField {
  import opened Wrappers

  const EPS := 0.0000000001

  datatype Vec = Vec(x: real, y: real, z: real)

  const ORIGIN := Vec(0.0, 0.0, 0.0)
  const X_AXIS := Vec(1.0, 0.0, 0.0)
  const Y_AXIS := Vec(0.0, 1.0, 0.0)
  const Z_AXIS := Vec(0.0, 0.0, 1.0)

  function Row(a: real, b: real, c: real, p: Vec): real {
    var v := Products(a, b, c, p);
    v.x + v.y + v.z
  }

  function Products(a: real, b: real, c: real, p: Vec): Vec {
    Vec(a * p.x, b * p.y, c * p.z)
  }

  datatype Rotation = Rotation(xx: real, xy: real, xz: real, yx: real, yy: real, yz: real, zx: real, zy: real, zz: real) {
    function Apply(p: Vec): Vec {
      Vec(Row(xx, xy, xz, p), Row(yx, yy, yz, p), Row(zx, zy, zz, p))
    }
  }

  const IDENTITY := Rotation(1.0, 0.0, 0.0, 0.0, 1.0, 0.0, 0.0, 0.0, 1.0)

  datatype Transform = Transform(rotation: Rotation, translation: Vec) {
    function Apply(p: Vec): Vec {
      Add(rotation.Apply(p), translation)
    }

    /** Tests on the rotation and the translation as `fieldComponents` makes them. */
    predicate Rotated() {
      rotation.xx + rotation.yy + rotation.zz < 3.0 - EPS
    }

    predicate Moved() {
      Abs(translation.x) + Abs(translation.y) + Abs(translation.z) >= EPS
    }

    /** The tests leave no tolerance: what counts as unrotated or unmoved is exactly that. */
    predicate Exact() {
      Rotated() || (rotation == IDENTITY && (Moved() || translation == ORIGIN))
    }
  }

  function Add(a: Vec, b: Vec): Vec {
    Vec(a.x + b.x, a.y + b.y, a.z + b.z)
  }

  function Sub(a: Vec, b: Vec): Vec {
    Vec(a.x - b.x, a.y - b.y, a.z - b.z)
  }

  function Abs(x: real): real {
    if x < 0.0 then -x else x
  }

  ghost predicate IsInverse(t: Transform, inverse: Transform) {
    forall p :: t.Apply(inverse.Apply(p)) == p && inverse.Apply(t.Apply(p)) == p
  }

  // The bounding box.

  /** The bounding box of a shape: its centre and half lengths. */
  datatype Box = Box(origin: Vec, half: Vec) {
    predicate Holds(p: Vec) {
      && Abs(p.x - origin.x) <= half.x && Abs(p.y - origin.y) <= half.y && Abs(p.z - origin.z) <= half.z
    }

    /** The box around this one after a transformation. */
    function Around(t: Transform): Box {
      var r := t.rotation;
      Box(t.Apply(origin),
          Vec(Row(Abs(r.xx), Abs(r.xy), Abs(r.xz), half),
              Row(Abs(r.yx), Abs(r.yy), Abs(r.yz), half),
              Row(Abs(r.zx), Abs(r.zy), Abs(r.zz), half)))
    }
  }

  lemma AbsProduct(a: real, d: real, h: real)
    requires Abs(d) <= h
    ensures Abs(a * d) <= Abs(a) * h
  {
    if a >= 0.0 {
      assert a * d <= a * h && a * -h <= a * d;
    } else {
      assert -a * d <= -a * h && -a * -h <= -a * d;
    }
  }

  lemma Triangle(v: Vec, h: Vec)
    requires Abs(v.x) <= h.x && Abs(v.y) <= h.y && Abs(v.z) <= h.z
    ensures Abs(v.x + v.y + v.z) <= h.x + h.y + h.z
  {
  }

  /** A row of the rotation takes a distance no further than the half lengths allow. */
  lemma RowBound(a: real, b: real, c: real, d: Vec, h: Vec)
    requires Abs(d.x) <= h.x && Abs(d.y) <= h.y && Abs(d.z) <= h.z
    ensures Abs(Row(a, b, c, d)) <= Row(Abs(a), Abs(b), Abs(c), h)
  {
    AbsProduct(a, d.x, h.x);
    AbsProduct(b, d.y, h.y);
    AbsProduct(c, d.z, h.z);
    Triangle(Products(a, b, c, d), Products(Abs(a), Abs(b), Abs(c), h));
  }

  lemma RowDifference(a: real, b: real, c: real, p: Vec, o: Vec)
    ensures Row(a, b, c, p) - Row(a, b, c, o) == Row(a, b, c, Sub(p, o))
  {
    assert a * p.x - a * o.x == a * (p.x - o.x);
    assert b * p.y - b * o.y == b * (p.y - o.y);
    assert c * p.z - c * o.z == c * (p.z - o.z);
  }

  lemma RowInside(a: real, b: real, c: real, p: Vec, box: Box)
    requires box.Holds(p)
    ensures Abs(Row(a, b, c, p) - Row(a, b, c, box.origin)) <= Row(Abs(a), Abs(b), Abs(c), box.half)
  {
    RowDifference(a, b, c, p, box.origin);
    RowBound(a, b, c, Sub(p, box.origin), box.half);
  }

  /** No image of a point of the box is outside the box around it. */
  lemma AroundHolds(box: Box, t: Transform, p: Vec)
    requires box.Holds(p)
    ensures box.Around(t).Holds(t.Apply(p))
  {
    var r := t.rotation;
    RowInside(r.xx, r.xy, r.xz, p, box);
    RowInside(r.yx, r.yy, r.yz, p, box);
    RowInside(r.zx, r.zy, r.zz, p, box);
  }

  /** As far from the centre as the box goes, on the side that makes `a * x` grow, or shrink if `sign` is -1. */
  function Reach(sign: real, a: real, h: real): real {
    if a < 0.0 then -sign * h else sign * h
  }

  function Corner(sign: real, a: real, b: real, c: real, box: Box): Vec {
    Add(box.origin, Vec(Reach(sign, a, box.half.x), Reach(sign, b, box.half.y), Reach(sign, c, box.half.z)))
  }

  lemma ReachProduct(sign: real, a: real, h: real)
    requires sign == 1.0 || sign == -1.0
    ensures a * Reach(sign, a, h) == sign * (Abs(a) * h)
    ensures h >= 0.0 ==> Abs(Reach(sign, a, h)) <= h
  {
  }

  lemma CornerTouches(sign: real, a: real, b: real, c: real, box: Box)
    requires sign == 1.0 || sign == -1.0
    requires box.half.x >= 0.0 && box.half.y >= 0.0 && box.half.z >= 0.0
    ensures var p := Corner(sign, a, b, c, box);
            && box.Holds(p)
            && Row(a, b, c, p) == Row(a, b, c, box.origin) + sign * Row(Abs(a), Abs(b), Abs(c), box.half)
  {
    var x, y, z := Reach(sign, a, box.half.x), Reach(sign, b, box.half.y), Reach(sign, c, box.half.z);
    ReachProduct(sign, a, box.half.x);
    ReachProduct(sign, b, box.half.y);
    ReachProduct(sign, c, box.half.z);
    RowDifference(a, b, c, Corner(sign, a, b, c, box), box.origin);
    SubAdd(box.origin, x, y, z);
    RowReaches(sign, a, b, c, Vec(x, y, z), box.half);
  }

  lemma RowReaches(sign: real, a: real, b: real, c: real, d: Vec, h: Vec)
    requires a * d.x == sign * (Abs(a) * h.x) && b * d.y == sign * (Abs(b) * h.y) && c * d.z == sign * (Abs(c) * h.z)
    ensures Row(a, b, c, d) == sign * Row(Abs(a), Abs(b), Abs(c), h)
  {
    SignSum(sign, Abs(a) * h.x, Abs(b) * h.y, Abs(c) * h.z);
  }

  lemma SignSum(sign: real, x: real, y: real, z: real)
    ensures sign * x + sign * y + sign * z == sign * (x + y + z)
  {
  }

  lemma SubAdd(o: Vec, x: real, y: real, z: real)
    ensures Sub(Add(o, Vec(x, y, z)), o) == Vec(x, y, z)
  {
  }

  /** The box around is no larger than needed: points of the box come to lie on each of its six faces. */
  lemma AroundIsTight(box: Box, t: Transform, sign: real)
    requires sign == 1.0 || sign == -1.0
    requires box.half.x >= 0.0 && box.half.y >= 0.0 && box.half.z >= 0.0
    ensures var around := box.Around(t);
            && (exists p :: box.Holds(p) && t.Apply(p).x == around.origin.x + sign * around.half.x)
            && (exists p :: box.Holds(p) && t.Apply(p).y == around.origin.y + sign * around.half.y)
            && (exists p :: box.Holds(p) && t.Apply(p).z == around.origin.z + sign * around.half.z)
  {
    var r := t.rotation;
    CornerTouches(sign, r.xx, r.xy, r.xz, box);
    CornerTouches(sign, r.yx, r.yy, r.yz, box);
    CornerTouches(sign, r.zx, r.zy, r.zz, box);
    assert box.Holds(Corner(sign, r.xx, r.xy, r.xz, box));
    assert box.Holds(Corner(sign, r.yx, r.yy, r.yz, box));
    assert box.Holds(Corner(sign, r.zx, r.zy, r.zz, box));
  }

  // The series.

  /** A complex number, for the reference form of the series. */
  datatype Complex = Complex(re: real, im: real)

  function Times(a: Complex, b: Complex): Complex {
    Complex(a.re * b.re - a.im * b.im, a.re * b.im + a.im * b.re)
  }

  function Power(a: Complex, n: nat): Complex {
    if n == 0 then Complex(1.0, 0.0) else Times(Power(a, n - 1), a)
  }

  function Factorial(n: nat): (r: real)
    ensures r > 0.0
  {
    if n == 0 then 1.0 else n as real * Factorial(n - 1)
  }

  /** The sum of (c + i s) (x + i y)^n / n! over the first `n` orders; its parts are By and Bx. */
  function Series(coefficients: seq<real>, skews: seq<real>, at: Complex, n: nat): Complex
    requires n <= |coefficients| && n <= |skews|
  {
    if n == 0 then Complex(0.0, 0.0)
    else
      var term := Times(Complex(coefficients[n - 1], skews[n - 1]), Power(at, n - 1));
      Sum(Series(coefficients, skews, at, n - 1), Complex(term.re / Factorial(n - 1), term.im / Factorial(n - 1)))
  }

  function Sum(a: Complex, b: Complex): Complex {
    Complex(a.re + b.re, a.im + b.im)
  }

  function Octupole(c: real, s: real, x: real, y: real): Complex {
    var x2, y2 := x * x, y * y;
    Complex((1.0 / 6.0) * (c * (x2 * x - 3.0 * x * y2) + s * (y2 * y - 3.0 * x2 * y)),
            (1.0 / 6.0) * (c * (3.0 * x2 * y - y2 * y) + s * (x2 * x - 3.0 * x * y2)))
  }

  function Sextupole(c: real, s: real, x: real, y: real): Complex {
    var xy, x2, y2 := x * y, x * x, y * y;
    Complex((1.0 / 2.0) * (c * (x2 - y2) - s * 2.0 * xy), (1.0 / 2.0) * (c * 2.0 * xy + s * (x2 - y2)))
  }

  function Quadrupole(c: real, s: real, x: real, y: real): Complex {
    Complex(c * x - s * y, c * y + s * x)
  }

  /** By and Bx of the source, falling through from the highest order; none for too many orders. */
  function Multipole(c: seq<real>, s: seq<real>, p: Vec): Option<Complex>
    requires |s| >= |c|
  {
    if |c| > 4 then None
    else
      Some(FallThrough(|c|,
                       if |c| < 1 then ZERO else Complex(c[0], s[0]),
                       if |c| < 2 then ZERO else Quadrupole(c[1], s[1], p.x, p.y),
                       if |c| < 3 then ZERO else Sextupole(c[2], s[2], p.x, p.y),
                       if |c| < 4 then ZERO else Octupole(c[3], s[3], p.x, p.y)))
  }

  const ZERO := Complex(0.0, 0.0)

  /** The cases of the switch, entered at the highest order. */
  function FallThrough(orders: nat, b1: Complex, b2: Complex, b3: Complex, b4: Complex): Complex {
    var from4 := if orders < 4 then ZERO else Sum(ZERO, b4);
    var from3 := if orders < 3 then from4 else Sum(from4, b3);
    var from2 := if orders < 2 then from3 else Sum(from3, b2);
    if orders < 1 then from2 else Sum(from2, b1)
  }

  function UpTo(orders: nat, b1: Complex, b2: Complex, b3: Complex, b4: Complex): Complex {
    if orders == 0 then ZERO
    else if orders == 1 then Sum(ZERO, b1)
    else if orders == 2 then Sum(Sum(ZERO, b1), b2)
    else if orders == 3 then Sum(Sum(Sum(ZERO, b1), b2), b3)
    else Sum(Sum(Sum(Sum(ZERO, b1), b2), b3), b4)
  }

  lemma FallThroughIsUpTo(orders: nat, b1: Complex, b2: Complex, b3: Complex, b4: Complex)
    requires orders <= 4
    ensures FallThrough(orders, b1, b2, b3, b4) == UpTo(orders, b1, b2, b3, b4)
  {
  }

  lemma Powers(x: real, y: real)
    ensures Power(Complex(x, y), 0) == Complex(1.0, 0.0)
    ensures Power(Complex(x, y), 1) == Complex(x, y)
    ensures Power(Complex(x, y), 2) == Complex(x * x - y * y, 2.0 * (x * y))
    ensures Power(Complex(x, y), 3) == Complex(x * x * x - 3.0 * x * (y * y), 3.0 * (x * x) * y - y * y * y)
  {
    var a := Complex(x, y);
    assert Power(a, 1) == Times(Power(a, 0), a);
    assert Power(a, 2) == Times(Power(a, 1), a);
    assert Power(a, 3) == Times(Power(a, 2), a);
  }

  /** The term of one order of the series. */
  function Term(c: real, s: real, power: Complex, factorial: real): Complex
    requires factorial > 0.0
  {
    Complex((c * power.re - s * power.im) / factorial, (c * power.im + s * power.re) / factorial)
  }

  lemma SeriesStep(c: seq<real>, s: seq<real>, at: Complex, n: nat)
    requires n < |c| && n < |s|
    ensures Series(c, s, at, n + 1) == Sum(Series(c, s, at, n), Term(c[n], s[n], Power(at, n), Factorial(n)))
  {
  }

  lemma OctupoleIs(c: real, s: real, x: real, y: real)
    ensures Octupole(c, s, x, y) == Term(c, s, Power(Complex(x, y), 3), 6.0)
  {
    Powers(x, y);
    var re, im := x * x * x - 3.0 * x * (y * y), 3.0 * (x * x) * y - y * y * y;
    var x2, y2 := x * x, y * y;
    assert x2 * x - 3.0 * x * y2 == re && 3.0 * x2 * y - y2 * y == im && y2 * y - 3.0 * x2 * y == -im;
    Sixths(c, s, re, im);
  }

  lemma Sixths(c: real, s: real, re: real, im: real)
    ensures (1.0 / 6.0) * (c * re + s * -im) == (c * re - s * im) / 6.0
    ensures (1.0 / 6.0) * (c * im + s * re) == (c * im + s * re) / 6.0
  {
    assert s * -im == -(s * im);
  }

  lemma SextupoleIs(c: real, s: real, x: real, y: real)
    ensures Sextupole(c, s, x, y) == Term(c, s, Power(Complex(x, y), 2), 2.0)
  {
    Powers(x, y);
  }

  lemma LowOrders(c: seq<real>, s: seq<real>, x: real, y: real)
    requires |c| <= |s|
    ensures |c| > 0 ==> Term(c[0], s[0], Power(Complex(x, y), 0), 1.0) == Complex(c[0], s[0])
    ensures |c| > 1 ==> Term(c[1], s[1], Power(Complex(x, y), 1), 1.0) == Quadrupole(c[1], s[1], x, y)
  {
    Powers(x, y);
  }

  lemma Factorials()
    ensures Factorial(0) == 1.0 && Factorial(1) == 1.0 && Factorial(2) == 2.0 && Factorial(3) == 6.0
  {
    assert Factorial(2) == 2.0 * Factorial(1) && Factorial(3) == 3.0 * Factorial(2);
  }

  lemma SeriesIsUpTo(c: seq<real>, s: seq<real>, x: real, y: real, b1: Complex, b2: Complex, b3: Complex, b4: Complex)
    requires |c| <= |s| && |c| <= 4
    requires |c| > 0 ==> b1 == Term(c[0], s[0], Power(Complex(x, y), 0), 1.0)
    requires |c| > 1 ==> b2 == Term(c[1], s[1], Power(Complex(x, y), 1), 1.0)
    requires |c| > 2 ==> b3 == Term(c[2], s[2], Power(Complex(x, y), 2), 2.0)
    requires |c| > 3 ==> b4 == Term(c[3], s[3], Power(Complex(x, y), 3), 6.0)
    ensures Series(c, s, Complex(x, y), |c|) == UpTo(|c|, b1, b2, b3, b4)
  {
    Factorials();
    if 0 < |c| { SeriesStep(c, s, Complex(x, y), 0); }
    if 1 < |c| { SeriesStep(c, s, Complex(x, y), 1); }
    if 2 < |c| { SeriesStep(c, s, Complex(x, y), 2); }
    if 3 < |c| { SeriesStep(c, s, Complex(x, y), 3); }
  }

  /** The field computed, for up to four orders, is the complex power series. */
  lemma MultipoleIsSeries(c: seq<real>, s: seq<real>, p: Vec)
    requires |c| <= |s|
    ensures Multipole(c, s, p) == if |c| <= 4 then Some(Series(c, s, Complex(p.x, p.y), |c|)) else None
  {
    if |c| <= 4 {
      var b1 := if |c| < 1 then ZERO else Complex(c[0], s[0]);
      var b2 := if |c| < 2 then ZERO else Quadrupole(c[1], s[1], p.x, p.y);
      var b3 := if |c| < 3 then ZERO else Sextupole(c[2], s[2], p.x, p.y);
      var b4 := if |c| < 4 then ZERO else Octupole(c[3], s[3], p.x, p.y);
      LowOrders(c, s, p.x, p.y);
      if 2 < |c| { SextupoleIs(c[2], s[2], p.x, p.y); }
      if 3 < |c| { OctupoleIs(c[3], s[3], p.x, p.y); }
      SeriesIsUpTo(c, s, p.x, p.y, b1, b2, b3, b4);
      FallThroughIsUpTo(|c|, b1, b2, b3, b4);
    }
  }

  // The field with its bounding volume.

  datatype Shape = Shape(contains: Vec -> bool, box: Option<Box>)

  /** Everything the field is made of; `inverse` is what the inversion of `transform` returns. */
  datatype Setup = Setup(coefficients: seq<real>, skews: seq<real>, bz: real, volume: Option<Shape>,
                         transform: Transform, inverse: Transform)
  {
    predicate Valid() {
      |skews| >= |coefficients|
    }

    function Local(pos: Vec): Vec {
      if transform.Rotated() then inverse.Apply(pos) else if transform.Moved() then Sub(pos, transform.translation) else pos
    }

    /** What is added to the field at a local position; none for the exception. */
    function Contribution(local: Vec): Option<Vec>
      requires Valid()
    {
      if volume.Some? && !volume.value.contains(local) then Some(ORIGIN)
      else
        var b := Multipole(coefficients, skews, local);
        if b == None then None else Some(transform.rotation.Apply(Vec(b.value.im, b.value.re, bz)))
    }

    /** The definition, without the pre-filter and without short cuts. */
    function Reference(pos: Vec): Option<Vec>
      requires Valid()
    {
      Contribution(inverse.Apply(pos))
    }

    /** What is computed: positions outside the transformed box are rejected first. */
    function Filtered(pos: Vec): Option<Vec>
      requires Valid()
    {
      if volume.Some? && volume.value.box.Some? && !volume.value.box.value.Around(transform).Holds(pos)
      then Some(ORIGIN)
      else Contribution(Local(pos))
    }

    ghost predicate BoxHoldsVolume() {
      volume.Some? && volume.value.box.Some? ==>
        forall p :: volume.value.contains(p) ==> volume.value.box.value.Holds(p)
    }
  }

  lemma LocalIsInverse(s: Setup, pos: Vec)
    requires s.transform.Exact() && IsInverse(s.transform, s.inverse)
    ensures s.Local(pos) == s.inverse.Apply(pos)
  {
    if !s.transform.Rotated() {
      var p := s.inverse.Apply(pos);
      assert s.transform.Apply(p) == pos;
      assert s.transform.rotation.Apply(p) == p;
    }
  }

  /** The pre-filter rejects no position that the volume accepts: with and without it the result is the same. */
  lemma FilterAgrees(s: Setup, pos: Vec)
    requires s.Valid() && s.transform.Exact() && IsInverse(s.transform, s.inverse) && s.BoxHoldsVolume()
    ensures s.Filtered(pos) == s.Reference(pos)
  {
    LocalIsInverse(s, pos);
    var p := s.inverse.Apply(pos);
    if s.volume.Some? && s.volume.value.box.Some? && s.volume.value.contains(p) {
      AroundHolds(s.volume.value.box.value, s.transform, p);
      assert s.transform.Apply(p) == pos;
    }
  }

  lemma RowOfAxes(a: real, b: real, c: real)
    ensures Row(a, b, c, ORIGIN) == 0.0
    ensures Row(a, b, c, X_AXIS) == a && Row(a, b, c, Y_AXIS) == b && Row(a, b, c, Z_AXIS) == c
  {
  }

  lemma ImagesOfAxes(r: Rotation)
    ensures r.Apply(ORIGIN) == ORIGIN
    ensures r.Apply(X_AXIS) == Vec(r.xx, r.yx, r.zx)
    ensures r.Apply(Y_AXIS) == Vec(r.xy, r.yy, r.zy)
    ensures r.Apply(Z_AXIS) == Vec(r.xz, r.yz, r.zz)
  {
    RowOfAxes(r.xx, r.xy, r.xz);
    RowOfAxes(r.yx, r.yy, r.yz);
    RowOfAxes(r.zx, r.zy, r.zz);
  }

  /** The rotation whose columns, moved by the translation, are the unit vectors moved by `d`. */
  lemma ColumnsGiveShift(r: Rotation, translation: Vec, d: Vec)
    requires translation == d
    requires Add(Vec(r.xx, r.yx, r.zx), translation) == Add(X_AXIS, d)
    requires Add(Vec(r.xy, r.yy, r.zy), translation) == Add(Y_AXIS, d)
    requires Add(Vec(r.xz, r.yz, r.zz), translation) == Add(Z_AXIS, d)
    ensures r == IDENTITY
  {
  }

  lemma ShiftIsUndone(t: Transform, inverse: Transform, d: Vec, p: Vec)
    requires IsInverse(t, inverse) && inverse.Apply(Add(p, d)) == Sub(Add(p, d), d)
    ensures t.Apply(p) == Add(p, d)
  {
    assert t.Apply(inverse.Apply(Add(p, d))) == Add(p, d);
  }

  /** The short cuts undo the transformation everywhere exactly when the tests leave no tolerance. */
  lemma ShortCutsIffExact(s: Setup)
    requires IsInverse(s.transform, s.inverse)
    ensures (forall pos :: s.Local(pos) == s.inverse.Apply(pos)) <==> s.transform.Exact()
  {
    var t := s.transform;
    if t.Exact() {
      forall pos ensures s.Local(pos) == s.inverse.Apply(pos) {
        LocalIsInverse(s, pos);
      }
    } else if forall pos :: s.Local(pos) == s.inverse.Apply(pos) {
      var d := if t.Moved() then t.translation else ORIGIN;
      forall p ensures t.Apply(p) == Add(p, d) {
        assert s.Local(Add(p, d)) == Sub(Add(p, d), d);
        ShiftIsUndone(t, s.inverse, d, p);
      }
      ImagesOfAxes(t.rotation);
      assert t.Apply(ORIGIN) == Add(ORIGIN, d) && t.Apply(X_AXIS) == Add(X_AXIS, d);
      assert t.Apply(Y_AXIS) == Add(Y_AXIS, d) && t.Apply(Z_AXIS) == Add(Z_AXIS, d);
      ColumnsGiveShift(t.rotation, t.translation, d);
      assert false;
    }
  }

  /** An invertible transformation does not take the z axis to nothing. */
  lemma AxisIsKept(t: Transform, inverse: Transform)
    requires IsInverse(t, inverse)
    ensures t.rotation.Apply(Z_AXIS) != ORIGIN
  {
    assert inverse.Apply(t.Apply(ORIGIN)) == ORIGIN && inverse.Apply(t.Apply(Z_AXIS)) == Z_AXIS;
    ImagesOfAxes(t.rotation);
  }

  /** A field along the z axis in a volume that holds a single point. */
  function AtPoint(t: Transform, inverse: Transform, point: Vec): Setup {
    Setup([], [], 1.0, Some(Shape(p => p == point, None)), t, inverse)
  }

  lemma AtPointDiffers(t: Transform, inverse: Transform, pos: Vec)
    requires IsInverse(t, inverse)
    requires AtPoint(t, inverse, inverse.Apply(pos)).Local(pos) != inverse.Apply(pos)
    ensures var s := AtPoint(t, inverse, inverse.Apply(pos)); s.Filtered(pos) != s.Reference(pos)
  {
    AxisIsKept(t, inverse);
    assert Multipole([], [], inverse.Apply(pos)) == Some(ZERO);
  }

  /** What the pre-filter and the short cuts are for, for every field in the frame of `t`. */
  ghost predicate AlwaysAgrees(t: Transform, inverse: Transform) {
    forall s: Setup, pos | s.transform == t && s.inverse == inverse && s.Valid() && s.BoxHoldsVolume() ::
      s.Filtered(pos) == s.Reference(pos)
  }

  /**
   The result is that of the definition for every field and position exactly when the tests leave
   no tolerance: for any other transformation there are a field and a position with another result.
   */
  lemma AgreesIffExact(t: Transform, inverse: Transform)
    requires IsInverse(t, inverse)
    ensures AlwaysAgrees(t, inverse) <==> t.Exact()
  {
    if t.Exact() {
      forall s: Setup, pos | s.transform == t && s.inverse == inverse && s.Valid() && s.BoxHoldsVolume()
        ensures s.Filtered(pos) == s.Reference(pos)
      {
        FilterAgrees(s, pos);
      }
    } else {
      var any := AtPoint(t, inverse, ORIGIN);
      ShortCutsIffExact(any);
      var pos :| any.Local(pos) != inverse.Apply(pos);
      var s := AtPoint(t, inverse, inverse.Apply(pos));
      assert s.Local(pos) == any.Local(pos);
      AtPointDiffers(t, inverse, pos);
      assert s.Valid() && s.BoxHoldsVolume();
    }
  }

  lemma ShiftApplies(d: real, p: Vec)
    ensures IDENTITY.Apply(p) == p
    ensures Transform(IDENTITY, Vec(d, 0.0, 0.0)).Apply(p) == Vec(p.x + d, p.y, p.z)
  {
  }

  lemma ShiftInverse(d: real)
    ensures IsInverse(Transform(IDENTITY, Vec(d, 0.0, 0.0)), Transform(IDENTITY, Vec(-d, 0.0, 0.0)))
  {
    var t, u := Transform(IDENTITY, Vec(d, 0.0, 0.0)), Transform(IDENTITY, Vec(-d, 0.0, 0.0));
    forall p ensures t.Apply(u.Apply(p)) == p && u.Apply(t.Apply(p)) == p {
      ShiftApplies(d, p);
      ShiftApplies(-d, p);
      ShiftApplies(d, u.Apply(p));
      ShiftApplies(-d, t.Apply(p));
    }
  }

  predicate Left(p: Vec) {
    p.x <= 0.0
  }

  /** A field bounded by a half-space, in a frame that is shifted by `d`. */
  function Shifted(d: real, coefficients: seq<real>, skews: seq<real>, bz: real): Setup {
    Setup(coefficients, skews, bz, Some(Shape(Left, None)),
          Transform(IDENTITY, Vec(d, 0.0, 0.0)), Transform(IDENTITY, Vec(-d, 0.0, 0.0)))
  }

  /**
   An example: a shift within the tolerance is not undone before the volume is asked, so that
   nothing is added at a position which the volume accepts.
   */
  lemma ToleranceMatters(d: real, coefficients: seq<real>, skews: seq<real>, bz: real)
    requires 0.0 < d < EPS && |skews| >= |coefficients| && bz != 0.0
    ensures var s, pos := Shifted(d, coefficients, skews, bz), Vec(d / 2.0, 0.0, 0.0);
            IsInverse(s.transform, s.inverse) && s.BoxHoldsVolume() && s.Filtered(pos) != s.Reference(pos)
  {
    var s, pos := Shifted(d, coefficients, skews, bz), Vec(d / 2.0, 0.0, 0.0);
    ShiftInverse(d);
    ShiftApplies(-d, pos);
    assert !s.transform.Rotated() && !s.transform.Moved();
    var b := Multipole(coefficients, skews, s.inverse.Apply(pos));
    if b.Some? {
      ShiftApplies(d, Vec(b.value.im, b.value.re, bz));
    }
  }

  /** The volume does not hold the position in the frame of the field. */
  predicate Rejects(s: Setup, pos: Vec) {
    s.volume.Some? && !s.volume.value.contains(s.inverse.Apply(pos))
  }

  /** The series at that position gives By and Bx; the field is rotated into the world. */
  function FieldAt(s: Setup, pos: Vec): Vec
    requires s.Valid()
  {
    var p := s.inverse.Apply(pos);
    var b := Series(s.coefficients, s.skews, Complex(p.x, p.y), |s.coefficients|);
    s.transform.rotation.Apply(Vec(b.im, b.re, s.bz))
  }

  ghost predicate Regular(s: Setup) {
    s.Valid() && s.transform.Exact() && IsInverse(s.transform, s.inverse) && s.BoxHoldsVolume()
  }

  /** Where the volume accepts a position the rotated series is added, elsewhere nothing. */
  lemma FilteredIsSeries(s: Setup, pos: Vec)
    requires Regular(s)
    ensures s.Filtered(pos) ==
            if Rejects(s, pos) then Some(ORIGIN)
            else if |s.coefficients| <= 4 then Some(FieldAt(s, pos))
            else None
  {
    FilterAgrees(s, pos);
    MultipoleIsSeries(s.coefficients, s.skews, s.inverse.Apply(pos));
  }

  /** `more` is `field` with `v` added to its first three entries. */
  predicate Added(field: seq<real>, more: seq<real>, v: Vec) {
    && |more| == |field| >= 3
    && more[0] == field[0] + v.x && more[1] == field[1] + v.y && more[2] == field[2] + v.z
    && more[3..] == field[3..]
  }

  lemma NothingAdded(s: Setup, pos: Vec, field: seq<real>)
    requires s.Valid()
    ensures |field| >= 3 ==> Added(field, field, ORIGIN)
    ensures forall more :: Added(field, more, ORIGIN) ==> more == field
    ensures Regular(s) ==> s.Filtered(pos) ==
                           if Rejects(s, pos) then Some(ORIGIN)
                           else if |s.coefficients| <= 4 then Some(FieldAt(s, pos))
                           else None
  {
    forall more | Added(field, more, ORIGIN) ensures more == field {
      assert field == field[..3] + field[3..] && more == more[..3] + more[3..];
    }
    if Regular(s) {
      FilteredIsSeries(s, pos);
    }
  }

  class MultipoleFieldObject {
    const setup: Setup
    // The flags and the values remembered by the first call.
    var initialized: bool
    var identity: bool
    var positionOnly: bool
    var hasBox: bool
    var inverse: Transform
    var rotation: Rotation
    var translation: Vec
    var boxMin: Vec
    var boxMax: Vec

    ghost predicate Valid()
      reads this
    {
      && setup.Valid()
      && (initialized ==>
            && identity == (!setup.transform.Rotated() && !setup.transform.Moved())
            && positionOnly == !setup.transform.Rotated()
            && inverse == setup.inverse && rotation == setup.transform.rotation
            && translation == setup.transform.translation
            && hasBox == (setup.volume.Some? && setup.volume.value.box.Some?)
            && (hasBox ==>
                  var box := setup.volume.value.box.value.Around(setup.transform);
                  boxMin == Sub(box.origin, box.half) && boxMax == Add(box.origin, box.half)))
    }

    constructor (setup: Setup)
      requires setup.Valid()
      ensures Valid() && !initialized && this.setup == setup
    {
      this.setup := setup;
      initialized, identity, positionOnly, hasBox := false, false, false, false;
      inverse, rotation := Transform(IDENTITY, ORIGIN), IDENTITY;
      translation, boxMin, boxMax := ORIGIN, ORIGIN, ORIGIN;
    }

    method Initialize()
      requires Valid() && !initialized
      modifies this
      ensures Valid() && initialized
    {
      initialized := true;
      positionOnly := !setup.transform.Rotated();
      identity := !setup.transform.Rotated() && !setup.transform.Moved();
      inverse := setup.inverse;
      rotation := setup.transform.rotation;
      translation := setup.transform.translation;
      hasBox := setup.volume.Some? && setup.volume.value.box.Some?;
      if hasBox {
        var box := setup.volume.value.box.value.Around(setup.transform);
        boxMin := Sub(box.origin, box.half);
        boxMax := Add(box.origin, box.half);
      }
    }

    /** Adds to the first three entries of `field`; `ok` is false for the exception. */
    method FieldComponents(pos: Vec, field: array<real>) returns (ok: bool)
      requires Valid() && field.Length >= 3
      modifies this, field
      ensures Valid()
      ensures var r := setup.Filtered(pos);
              (ok <==> r.Some?) && if ok then Added(old(field[..]), field[..], r.value) else field[..] == old(field[..])
      ensures Regular(setup) && Rejects(setup, pos) ==> ok && field[..] == old(field[..])
      ensures Regular(setup) && !Rejects(setup, pos) ==>
                && (ok <==> |setup.coefficients| <= 4)
                && if ok then Added(old(field[..]), field[..], FieldAt(setup, pos)) else field[..] == old(field[..])
    {
      NothingAdded(setup, pos, field[..]);
      if !initialized {
        Initialize();
      }
      ok := AddFiltered(pos, field);
    }

    /** All that follows the first call's preparations. */
    method AddFiltered(pos: Vec, field: array<real>) returns (ok: bool)
      requires Valid() && initialized && field.Length >= 3
      modifies field
      ensures var r := setup.Filtered(pos);
              (ok <==> r.Some?) && if ok then Added(old(field[..]), field[..], r.value) else field[..] == old(field[..])
    {
      var outside := BoxRejects(pos);
      if outside {
        return true;
      }
      var p := if identity then pos else if positionOnly then Sub(pos, translation) else inverse.Apply(pos);
      if setup.volume == None || setup.volume.value.contains(p) {
        var b := Multipole(setup.coefficients, setup.skews, p);
        if b == None {
          return false;
        }
        var f := rotation.Apply(Vec(b.value.im, b.value.re, setup.bz));
        AddTo(field, f);
      }
      ok := true;
    }

    method BoxRejects(pos: Vec) returns (outside: bool)
      requires Valid() && initialized
      ensures outside <==> setup.volume.Some? && setup.volume.value.box.Some? &&
                           !setup.volume.value.box.value.Around(setup.transform).Holds(pos)
    {
      outside := hasBox &&
                 (pos.x < boxMin.x || pos.x > boxMax.x ||
                  pos.y < boxMin.y || pos.y > boxMax.y ||
                  pos.z < boxMin.z || pos.z > boxMax.z);
    }

    static method AddTo(field: array<real>, f: Vec)
      requires field.Length >= 3
      modifies field
      ensures Added(old(field[..]), field[..], f)
    {
      field[0] := field[0] + f.x;
      field[1] := field[1] + f.y;
      field[2] := field[2] + f.z;
    }
  }
}
