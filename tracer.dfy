/**
 * The Rust tracer (src/main.rs): the `Point` value type with its operators,
 * the `Ray` and `Sphere` records, and `intersects`, which writes the hit
 * distance through a `&mut f64` out-parameter.
 */
module RustTracer {

  import opened SquareRoot
  import opened Quadratic

  /** `Point` is `Copy`: a value used for points and directions alike. */
  datatype Point = Point(x: real, y: real, z: real)

  datatype Ray = Ray(e: Point, d: Point)

  datatype Sphere = Sphere(c: Point, r: real)

  /** The tolerance `intersects` compares the discriminant against. */
  const Epsilon: real := 0.1

  function Origin(): Point {
    Point(0.0, 0.0, 0.0)
  }

  function Dot(p: Point, other: Point): real {
    p.x * other.x + p.y * other.y + p.z * other.z
  }

  /** `powf(2.0)` of each coordinate, summed, then the square root. */
  function Magnitude(p: Point, sqrt: real -> real): (r: real)
    requires IsSqrt(sqrt)
    ensures 0.0 <= r && r * r == Dot(p, p)
  {
    var s := p.x * p.x + p.y * p.y + p.z * p.z;
    assert RootAt(sqrt, s);
    sqrt(s)
  }

  /** The `-` operator (`impl Sub for Point`). */
  function Sub(p: Point, other: Point): (r: Point)
    ensures Add(r, other) == p
  {
    Point(p.x - other.x, p.y - other.y, p.z - other.z)
  }

  /** The `+` operator (`impl Add for Point`). */
  function Add(p: Point, other: Point): Point {
    Point(p.x + other.x, p.y + other.y, p.z + other.z)
  }

  /** The `*` operator by an `f64` on the right (`impl Mul<f64> for Point`). */
  function Mul(p: Point, rhs: real): Point {
    Point(rhs * p.x, rhs * p.y, rhs * p.z)
  }

  /** The `==` operator (`impl PartialEq for Point`): exact, with no tolerance. */
  function Eq(p: Point, other: Point): (r: bool)
    ensures r <==> p == other
  {
    p.x == other.x && p.y == other.y && p.z == other.z
  }

  /** A, B and C of `intersects`: the quadratic in t whose roots are the hits. */
  function Coefficients(ray: Ray, sphere: Sphere): Quadratic {
    var oc := Sub(ray.e, sphere.c);
    Quadratic(Dot(ray.d, ray.d), Dot(Mul(ray.d, 2.0), oc), Dot(oc, oc) - sphere.r * sphere.r)
  }

  /** e + t·d, the point at parameter t along the ray. */
  function PointAt(ray: Ray, t: real): Point {
    Add(ray.e, Mul(ray.d, t))
  }

  /** p lies on the sphere's surface: |p − c|² = r². */
  predicate OnSphere(p: Point, sphere: Sphere) {
    Dot(Sub(p, sphere.c), Sub(p, sphere.c)) == sphere.r * sphere.r
  }

  /** The caller-owned `f64` that `intersects` receives as `&mut f64`. */
  class Cell {
    var value: real

    constructor (value: real)
      ensures this.value == value
    {
      this.value := value;
    }
  }

  /**
   * `intersects(&ray, &sphere, t)`. Below the tolerance it reports no hit
   * and leaves `*t` alone; above it, it stores the root of smaller absolute
   * value; exactly at the tolerance it stores −B / (2A).
   */
  method Intersects(ray: Ray, sphere: Sphere, t: Cell, sqrt: real -> real) returns (hit: bool)
    requires IsSqrt(sqrt)
    modifies t
    ensures hit <==> Epsilon <= Discriminant(Coefficients(ray, sphere))
    ensures !hit ==> t.value == old(t.value)
    ensures Epsilon < Discriminant(Coefficients(ray, sphere)) ==>
              NearestRoot(Coefficients(ray, sphere), t.value) && OnSphere(PointAt(ray, t.value), sphere)
    ensures Discriminant(Coefficients(ray, sphere)) == Epsilon ==>
              IsVertex(Coefficients(ray, sphere), t.value)
  {
    var e := ray.e;
    var d := ray.d;
    var c := sphere.c;
    var r := sphere.r;

    var a := Dot(d, d);
    var b := Dot(Mul(d, 2.0), Sub(e, c));
    var cc := Dot(Sub(e, c), Sub(e, c)) - r * r;
    ghost var q := Quadratic(a, b, cc);
    assert q == Coefficients(ray, sphere);

    var discriminant := b * b - 4.0 * a * cc;
    assert discriminant == Discriminant(q);
    var epsilon := Epsilon;  // `let epsilon = 0.1` (src/main.rs:114)

    if discriminant < epsilon {
      return false;
    } else if discriminant > epsilon {
      DirectionNonZero(ray, sphere);
      ghost var s := sqrt(discriminant);
      assert RootAt(sqrt, discriminant);
      SqrtZeroIff(sqrt, discriminant);
      FormulaShift(q, s);
      var t1 := (-b + sqrt(b * b - 4.0 * a * cc)) / (2.0 * a);
      var t2 := (-b - sqrt(b * b - 4.0 * a * cc)) / (2.0 * a);
      assert t1 == (-q.b + s) / (2.0 * q.a) && t2 == (-q.b - s) / (2.0 * q.a);
      assert 0.0 < q.a && 0.0 < s && s * s == Discriminant(q);
      assert 2.0 * q.a * t1 + q.b == s && 2.0 * q.a * t2 + q.b == -s;
      SmallerAbsoluteRootIsNearest(q, s, t1, t2);
      if Abs(t1) < Abs(t2) {
        t.value := t1;
      } else {
        t.value := t2;
      }
      HitsSolveSphere(ray, sphere, t.value);
      return true;
    } else {
      DirectionNonZero(ray, sphere);
      t.value := -b / (2.0 * a);
      return true;
    }
  }

  /** A·t² + B·t + C is |e + t·d − c|² − r², so its roots are the ray's hits. */
  lemma {:induction false} SphereEquation(ray: Ray, sphere: Sphere, t: real)
    ensures Eval(Coefficients(ray, sphere), t) ==
            Dot(Sub(PointAt(ray, t), sphere.c), Sub(PointAt(ray, t), sphere.c)) - sphere.r * sphere.r
  {
    var oc := Sub(ray.e, sphere.c);
    var dt := Mul(ray.d, t);
    assert Sub(PointAt(ray, t), sphere.c) == Add(oc, dt);
    DotAdd(oc, dt, Add(oc, dt));
    DotAdd(Add(oc, dt), oc, dt);
    DotSymmetric(oc, Add(oc, dt));
    DotSymmetric(dt, Add(oc, dt));
    DotAdd(oc, oc, dt);
    DotAdd(dt, oc, dt);
    DotMul(ray.d, t, oc);
    DotMul(ray.d, t, dt);
    DotSymmetric(ray.d, dt);
    DotMul(ray.d, t, ray.d);
    DotMul(ray.d, 2.0, oc);
    DotSymmetric(oc, dt);
  }

  /** A hit parameter t puts e + t·d on the sphere exactly when it is a root. */
  lemma HitsSolveSphere(ray: Ray, sphere: Sphere, t: real)
    ensures IsRoot(Coefficients(ray, sphere), t) <==> OnSphere(PointAt(ray, t), sphere)
  {
    SphereEquation(ray, sphere, t);
  }

  /** |p|² vanishes only at the origin. */
  lemma DotSelfZeroIff(p: Point)
    ensures Dot(p, p) == 0.0 <==> p == Origin()
  {
    if p != Origin() {
      NonNegativeSquare(p.x);
      NonNegativeSquare(p.y);
      NonNegativeSquare(p.z);
      if p.x != 0.0 {
        PositiveSquare(p.x);
      } else if p.y != 0.0 {
        PositiveSquare(p.y);
      } else {
        PositiveSquare(p.z);
      }
      calc {
        Dot(p, p);
      ==
        p.x * p.x + p.y * p.y + p.z * p.z;
      >
        0.0;
      }
    }
  }

  /** A zero direction makes A and B zero, and with them the discriminant. */
  lemma ZeroDirectionZeroDiscriminant(ray: Ray, sphere: Sphere)
    ensures Coefficients(ray, sphere).a == 0.0 ==> Discriminant(Coefficients(ray, sphere)) == 0.0
  {
    ZeroDirectionZeroB(ray, sphere);
    var q := Coefficients(ray, sphere);
    if q.a == 0.0 {
      DegenerateDiscriminant(q);
    }
  }

  /** B = (2·d)·(e − c) vanishes with |d|². */
  lemma ZeroDirectionZeroB(ray: Ray, sphere: Sphere)
    ensures Dot(ray.d, ray.d) == 0.0 ==> Coefficients(ray, sphere).b == 0.0
  {
    DotSelfZeroIff(ray.d);
    if ray.d == Origin() {
      ScaledOriginDot(2.0, Sub(ray.e, sphere.c));
    }
  }

  /**
   * Reaching the tolerance forces A > 0, so neither division by 2A in
   * `intersects` can be by zero.
   */
  lemma DirectionNonZero(ray: Ray, sphere: Sphere)
    requires Epsilon <= Discriminant(Coefficients(ray, sphere))
    ensures 0.0 < Coefficients(ray, sphere).a
  {
    DotSelfNonNegative(ray.d);
    ZeroDirectionZeroDiscriminant(ray, sphere);
  }

  /** In the tolerance branch, e + t·d lies strictly inside the sphere, not on it. */
  lemma TangentPointInside(ray: Ray, sphere: Sphere, t: real)
    requires Discriminant(Coefficients(ray, sphere)) == Epsilon
    requires IsVertex(Coefficients(ray, sphere), t)
    ensures Dot(Sub(PointAt(ray, t), sphere.c), Sub(PointAt(ray, t), sphere.c)) < sphere.r * sphere.r
  {
    var q := Coefficients(ray, sphere);
    DirectionNonZero(ray, sphere);
    VertexValue(q, t);
    SphereEquation(ray, sphere, t);
    assert Eval(q, t) < 0.0;
  }

  /** In the tolerance branch, e + t·d is the point of the ray nearest the centre. */
  lemma TangentPointNearestCentre(ray: Ray, sphere: Sphere, t: real, s: real)
    requires Discriminant(Coefficients(ray, sphere)) == Epsilon
    requires IsVertex(Coefficients(ray, sphere), t)
    ensures Dot(Sub(PointAt(ray, t), sphere.c), Sub(PointAt(ray, t), sphere.c)) <=
            Dot(Sub(PointAt(ray, s), sphere.c), Sub(PointAt(ray, s), sphere.c))
  {
    DirectionNonZero(ray, sphere);
    VertexMinimises(Coefficients(ray, sphere), t, s);
    SphereEquation(ray, sphere, t);
    SphereEquation(ray, sphere, s);
  }

  lemma DotSymmetric(p: Point, other: Point)
    ensures Dot(p, other) == Dot(other, p)
  {
  }

  lemma DotAdd(p: Point, b: Point, c: Point)
    ensures Dot(p, Add(b, c)) == Dot(p, b) + Dot(p, c)
  {
  }

  lemma DotMul(p: Point, k: real, other: Point)
    ensures Dot(Mul(p, k), other) == k * Dot(p, other)
  {
  }

  lemma ScaledOriginDot(k: real, p: Point)
    ensures Dot(Mul(Origin(), k), p) == 0.0
  {
  }

  lemma DotSelfNonNegative(p: Point)
    ensures 0.0 <= Dot(p, p)
  {
  }

  lemma OriginIsNeutral(p: Point, sqrt: real -> real)
    requires IsSqrt(sqrt)
    ensures Add(p, Origin()) == p && Sub(p, Origin()) == p
    ensures Dot(Origin(), p) == 0.0
    ensures Magnitude(Origin(), sqrt) == 0.0
  {
    SqrtZeroIff(sqrt, 0.0);
  }

  /** The test `point_subtraction`. */
  lemma PointSubtraction()
    ensures Eq(Sub(Point(1.0, 2.0, 4.0), Point(2.0, 0.0, 2.0)), Point(-1.0, 2.0, 2.0))
  {
  }

  /** The test `point_equality`, and that no tolerance applies. */
  lemma PointEquality()
    ensures Eq(Point(1.0, 2.0, 4.0), Point(1.0, 2.0, 4.0))
    ensures !Eq(Point(1.0, 2.0, 4.000000000001), Point(1.0, 2.0, 4.0))
  {
  }

  /**
   * The scenes of the tests: the ray from the origin towards −z and a
   * sphere of radius r centred at (cx, 0, cz), for which A = 1, B = 2·cz and
   * C = cx² + cz² − r².
   */
  lemma AxisCoefficients(cx: real, cz: real, r: real)
    ensures Coefficients(Ray(Origin(), Point(0.0, 0.0, -1.0)), Sphere(Point(cx, 0.0, cz), r))
         == Quadratic(1.0, 2.0 * cz, cx * cx + cz * cz - r * r)
  {
    AxisB(cx, cz);
    AxisC(cx, cz);
  }

  /** B of a test scene. */
  lemma AxisB(cx: real, cz: real)
    ensures Dot(Mul(Point(0.0, 0.0, -1.0), 2.0), Sub(Origin(), Point(cx, 0.0, cz))) == 2.0 * cz
  {
    assert Mul(Point(0.0, 0.0, -1.0), 2.0) == Point(0.0, 0.0, -2.0);
    assert Sub(Origin(), Point(cx, 0.0, cz)) == Point(-cx, 0.0, -cz);
  }

  /** C + r² of a test scene. */
  lemma AxisC(cx: real, cz: real)
    ensures Dot(Sub(Origin(), Point(cx, 0.0, cz)), Sub(Origin(), Point(cx, 0.0, cz))) == cx * cx + cz * cz
  {
  }

  /**
   * `intersects` on the test scenes. The discriminant is 4·(r² − cx²): the
   * ray is reported to hit exactly when that reaches the tolerance, and
   * above it the stored parameter is −cz − h for a centre ahead of the eye
   * (cz ≤ 0) and −cz + h for one behind it, h being the half chord
   * √(r² − cx²). A miss leaves the caller's 0.0 in place.
   */
  method AxisScene(cx: real, cz: real, r: real, sqrt: real -> real) returns (hit: bool, t: real)
    requires IsSqrt(sqrt)
    ensures hit <==> Epsilon <= 4.0 * (r * r - cx * cx)
    ensures !hit ==> t == 0.0
    ensures Epsilon == 4.0 * (r * r - cx * cx) ==> t == -cz
    ensures Epsilon < 4.0 * (r * r - cx * cx) ==>
              t == if cz <= 0.0 then -cz - sqrt(r * r - cx * cx) else -cz + sqrt(r * r - cx * cx)
  {
    var sphere := Sphere(Point(cx, 0.0, cz), r);
    var ray := Ray(Origin(), Point(0.0, 0.0, -1.0));
    var cell := new Cell(0.0);
    AxisCoefficients(cx, cz, r);
    hit := Intersects(ray, sphere, cell, sqrt);
    t := cell.value;
    AxisOutcome(Quadratic(1.0, 2.0 * cz, cx * cx + cz * cz - r * r), cx, cz, r, hit, t, sqrt);
  }

  /** What the contract of `intersects` gives on a test scene, in closed form. */
  lemma AxisOutcome(q: Quadratic, cx: real, cz: real, r: real, hit: bool, t: real, sqrt: real -> real)
    requires IsSqrt(sqrt)
    requires q == Quadratic(1.0, 2.0 * cz, cx * cx + cz * cz - r * r)
    requires hit <==> Epsilon <= Discriminant(q)
    requires !hit ==> t == 0.0
    requires Epsilon < Discriminant(q) ==> NearestRoot(q, t)
    requires Discriminant(q) == Epsilon ==> IsVertex(q, t)
    ensures hit <==> Epsilon <= 4.0 * (r * r - cx * cx)
    ensures Epsilon == 4.0 * (r * r - cx * cx) ==> t == -cz
    ensures Epsilon < 4.0 * (r * r - cx * cx) ==>
              t == if cz <= 0.0 then -cz - sqrt(r * r - cx * cx) else -cz + sqrt(r * r - cx * cx)
  {
    var k := r * r - cx * cx;
    assert Discriminant(q) == 4.0 * k;
    if Epsilon < 4.0 * k {
      assert q.c == cz * cz - k;
      AxisNearest(q, cz, k, t, sqrt);
    }
  }

  /** The nearest root of t² + 2·cz·t + cz² − k, for k > 0, is −cz ∓ √k. */
  lemma AxisNearest(q: Quadratic, cz: real, k: real, t: real, sqrt: real -> real)
    requires IsSqrt(sqrt)
    requires q.a == 1.0 && q.b == 2.0 * cz && q.c == cz * cz - k
    requires 0.0 < k
    requires NearestRoot(q, t)
    ensures t == if cz <= 0.0 then -cz - sqrt(k) else -cz + sqrt(k)
  {
    var h := sqrt(k);
    assert RootAt(sqrt, k);
    SqrtZeroIff(sqrt, k);
    assert q.c == (-cz) * (-cz) - h * h;
    NearestOfSymmetricRoots(q, -cz, h, t);
  }

  /** The test `simple_intersection`: the sphere at (0, 0, −8) of radius 2 is hit at t = 6. */
  method SimpleIntersection(sqrt: real -> real) returns (hit: bool, t: real)
    requires IsSqrt(sqrt)
    ensures hit && t == 6.0
  {
    hit, t := AxisScene(0.0, -8.0, 2.0, sqrt);
    SqrtOfSquare(sqrt, 2.0);
  }

  /**
   * The mirrored sphere at (0, 0, 8), behind the eye: `intersects` still
   * reports a hit, at the negative parameter −6.
   */
  method SphereBehindEye(sqrt: real -> real) returns (hit: bool, t: real)
    requires IsSqrt(sqrt)
    ensures hit && t == -6.0
  {
    hit, t := AxisScene(0.0, 8.0, 2.0, sqrt);
    SqrtOfSquare(sqrt, 2.0);
  }

  /**
   * A sphere of radius 0.5125 centred at (0.4875, 0, −8) makes the
   * discriminant exactly 0.1: the tolerance branch stores −B / (2A) = 8.
   */
  method ToleranceBranch(sqrt: real -> real) returns (hit: bool, t: real)
    requires IsSqrt(sqrt)
    ensures hit && t == 8.0
  {
    hit, t := AxisScene(0.4875, -8.0, 0.5125, sqrt);
  }

  /**
   * A sphere of radius 0.1 at (0, 0, −8) is crossed at t = 7.9 and t = 8.1,
   * but its discriminant 0.04 is below the tolerance: no hit, `*t` untouched.
   */
  method SmallSphereMissed(sqrt: real -> real) returns (hit: bool, t: real)
    requires IsSqrt(sqrt)
    ensures !hit && t == 0.0
  {
    hit, t := AxisScene(0.0, -8.0, 0.1, sqrt);
  }
}
