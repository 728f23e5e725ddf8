/**
 * The Go tracer's `Ray` (ray.go): a point on the ray at a parameter, the
 * ray–sphere intersection `HitSphere` with its −1.0 sentinel, and the
 * branch `Color` takes on the result. Every method has a value receiver and
 * changes nothing, so each is a function here.
 */
module GoRay {

  import opened SquareRoot
  import opened Quadratic
  import opened GoVector

  datatype Ray = Ray(origin: Vec3, direction: Vec3)

  /** origin + t·direction. */
  function At(r: Ray, t: real): (p: Vec3)
    ensures Subtract(p, r.origin) == Multiply(r.direction, t)
  {
    Add(r.origin, Multiply(r.direction, t))
  }

  /** a, b and c of `HitSphere`: the quadratic in t whose roots are the hits. */
  function HitCoefficients(r: Ray, center: Vec3, radius: real): Quadratic {
    var oc := Subtract(r.origin, center);
    Quadratic(Dot(r.direction, r.direction), 2.0 * Dot(oc, r.direction), Dot(oc, oc) - radius * radius)
  }

  /** The point p lies on the sphere: |p − center|² = radius². */
  predicate OnSphere(p: Vec3, center: Vec3, radius: real) {
    Squares(Subtract(p, center)) == radius * radius
  }

  /**
   * `r.HitSphere(center, radius)`: −1.0 when the discriminant is negative,
   * otherwise (−b − √disc) / (2a), which for a > 0 is the lesser root. Go
   * divides 0 by 0 when the direction is zero; here it must be non-zero.
   */
  function HitSphere(r: Ray, center: Vec3, radius: real, sqrt: real -> real): (t: real)
    requires IsSqrt(sqrt)
    requires r.direction != Zero
    ensures Discriminant(HitCoefficients(r, center, radius)) < 0.0 ==> t == -1.0
    ensures 0.0 <= Discriminant(HitCoefficients(r, center, radius)) ==>
              LeastRoot(HitCoefficients(r, center, radius), t)
  {
    var q := HitCoefficients(r, center, radius);
    var discriminant := Discriminant(q);
    if discriminant < 0.0 then
      -1.0
    else
      LeastHit(r, center, radius, sqrt);
      (-q.b - sqrt(discriminant)) / (2.0 * q.a)
  }

  /** For a non-zero direction with a real root, (−b − √disc) / (2a) is the least root. */
  lemma LeastHit(r: Ray, center: Vec3, radius: real, sqrt: real -> real)
    requires IsSqrt(sqrt)
    requires r.direction != Zero
    requires 0.0 <= Discriminant(HitCoefficients(r, center, radius))
    ensures 0.0 < HitCoefficients(r, center, radius).a
    ensures var q := HitCoefficients(r, center, radius);
            LeastRoot(q, (-q.b - sqrt(Discriminant(q))) / (2.0 * q.a))
  {
    var q := HitCoefficients(r, center, radius);
    SquaresZeroIff(r.direction);
    assert 0.0 < q.a;
    assert RootAt(sqrt, Discriminant(q));
    LowerRootIsLeast(q, sqrt(Discriminant(q)));
  }

  /** a·t² + b·t + c is |At(t) − center|² − radius². */
  lemma {:induction false} HitEquation(r: Ray, center: Vec3, radius: real, t: real)
    ensures Eval(HitCoefficients(r, center, radius), t) ==
            Squares(Subtract(At(r, t), center)) - radius * radius
  {
    var oc := Subtract(r.origin, center);
    var d := r.direction;
    var q := HitCoefficients(r, center, radius);
    var w := Subtract(At(r, t), center);
    AtOffset(r, center, t);
    SquaresOfOffset(oc, d, t);
    EvalExpanded(q, t);
    Rearranged(Eval(q, t), Squares(w), q, Dot(d, d), Dot(oc, d), Dot(oc, oc), radius * radius, t);
  }

  /** At(t) − center = (origin − center) + t·direction. */
  lemma AtOffset(r: Ray, center: Vec3, t: real)
    ensures Subtract(At(r, t), center) == Add(Subtract(r.origin, center), Multiply(r.direction, t))
  {
  }

  /** |oc + t·d|² = |oc|² + 2t·(oc·d) + t²·|d|². */
  lemma SquaresOfOffset(oc: Vec3, d: Vec3, t: real)
    ensures Squares(Add(oc, Multiply(d, t))) == Dot(oc, oc) + 2.0 * (t * Dot(oc, d)) + t * (t * Dot(d, d))
  {
    var dt := Multiply(d, t);
    var w := Add(oc, dt);
    assert Dot(w, w) == Dot(oc, w) + Dot(dt, w) by { DotBilinear(oc, dt, w, t); }
    assert Dot(oc, w) == Dot(oc, oc) + Dot(oc, dt) by { DotBilinear(oc, oc, dt, t); }
    assert Dot(dt, w) == Dot(dt, oc) + Dot(dt, dt) by { DotBilinear(dt, oc, dt, t); }
    assert Dot(dt, oc) == Dot(oc, dt) by { DotSymmetric(dt, oc); }
    assert Dot(oc, dt) == t * Dot(oc, d) by { DotBilinear(oc, d, d, t); }
    assert Dot(dt, dt) == t * Dot(d, dt) by { DotBilinear(d, dt, d, t); }
    assert Dot(d, dt) == t * Dot(d, d) by { DotBilinear(d, d, d, t); }
  }

  /**
   * a·t·t + b·t + c, rearranged. A separate lemma so that `HitEquation`'s
   * proof obligation stays small: its body then only combines named facts.
   */
  lemma EvalExpanded(q: Quadratic, t: real)
    ensures Eval(q, t) == q.c + q.b * t + t * (t * q.a)
  {
  }

  /**
   * The scalar step of `HitEquation`, with every vector term passed in as a
   * named real, so the solver sees no products of coordinates there and the
   * proof obligation of `HitEquation` stays small.
   */
  lemma Rearranged(e: real, sq: real, q: Quadratic, a: real, b: real, c: real, r2: real, t: real)
    requires e == q.c + q.b * t + t * (t * q.a)
    requires q == Quadratic(a, 2.0 * b, c - r2)
    requires sq == c + 2.0 * (t * b) + t * (t * a)
    ensures e == sq - r2
  {
  }

  /** A parameter is a root of the quadratic exactly when At(t) is on the sphere. */
  lemma RootIffOnSphere(r: Ray, center: Vec3, radius: real, t: real)
    ensures IsRoot(HitCoefficients(r, center, radius), t) <==> OnSphere(At(r, t), center, radius)
  {
    HitEquation(r, center, radius, t);
  }

  /** A returned parameter other than the sentinel case puts At(t) on the sphere. */
  lemma HitIsOnSphere(r: Ray, center: Vec3, radius: real, sqrt: real -> real)
    requires IsSqrt(sqrt)
    requires r.direction != Zero
    requires 0.0 <= Discriminant(HitCoefficients(r, center, radius))
    ensures OnSphere(At(r, HitSphere(r, center, radius, sqrt)), center, radius)
  {
    RootIffOnSphere(r, center, radius, HitSphere(r, center, radius, sqrt));
  }

  /**
   * The sentinel is returned exactly when the ray's line misses the sphere:
   * some point At(t) lies on it if and only if the discriminant is non-negative.
   */
  lemma MeetsSphereIff(r: Ray, center: Vec3, radius: real, sqrt: real -> real)
    requires IsSqrt(sqrt)
    requires r.direction != Zero
    ensures (exists t :: OnSphere(At(r, t), center, radius)) <==>
            0.0 <= Discriminant(HitCoefficients(r, center, radius))
  {
    var q := HitCoefficients(r, center, radius);
    SquaresZeroIff(r.direction);
    RootExistsIff(q, sqrt);
    if 0.0 <= Discriminant(q) {
      var t :| IsRoot(q, t);
      RootIffOnSphere(r, center, radius, t);
    } else {
      forall t ensures !OnSphere(At(r, t), center, radius) {
        RootIffOnSphere(r, center, radius, t);
      }
    }
  }

  /**
   * The sentinel −1.0 can also be a genuine root: from an origin strictly
   * inside the sphere, with At(−1) on it, `HitSphere` returns −1.0 although
   * the ray meets the sphere.
   */
  lemma SentinelIsAlsoAHit(r: Ray, center: Vec3, radius: real, sqrt: real -> real)
    requires IsSqrt(sqrt)
    requires r.direction != Zero
    requires Squares(Subtract(r.origin, center)) < radius * radius
    requires OnSphere(At(r, -1.0), center, radius)
    ensures 0.0 <= Discriminant(HitCoefficients(r, center, radius))
    ensures HitSphere(r, center, radius, sqrt) == -1.0
  {
    var q := HitCoefficients(r, center, radius);
    RootIffOnSphere(r, center, radius, -1.0);
    if Discriminant(q) < 0.0 {
      NoRootWhenNegative(q, -1.0);
    }
    SquaresZeroIff(r.direction);
    var t := HitSphere(r, center, radius, sqrt);
    assert t <= -1.0;
    if t != -1.0 {
      VietaProduct(q, t, -1.0);
    }
  }

  /** The sphere `Color` draws. */
  const SphereCenter := Vec3(0.0, 0.0, -1.0)

  const SphereRadius := 0.5

  /**
   * What `Color` computes before its conversion to 8-bit channels: the unit
   * normal at the hit point, or the sky blend factor.
   */
  datatype Shade = Normal(n: Vec3) | Sky(blend: real)

  /**
   * `r.Color()`: the normal branch exactly when `HitSphere` returns t > 0;
   * the normal is then the unit vector from the centre through At(t), and
   * otherwise the blend 0.5·(unit direction's y + 1) lies in [0, 1].
   */
  function Color(r: Ray, sqrt: real -> real): (s: Shade)
    requires IsSqrt(sqrt)
    requires r.direction != Zero
    ensures s.Normal? <==> HitSphere(r, SphereCenter, SphereRadius, sqrt) > 0.0
    ensures s.Normal? ==> 0.0 <= Discriminant(HitCoefficients(r, SphereCenter, SphereRadius))
    ensures s.Normal? ==> Squares(s.n) == 1.0
    ensures s.Normal? ==>
              Multiply(s.n, SphereRadius) == Subtract(At(r, HitSphere(r, SphereCenter, SphereRadius, sqrt)), SphereCenter)
    ensures s.Sky? ==> 0.0 <= s.blend <= 1.0
  {
    var t := HitSphere(r, SphereCenter, SphereRadius, sqrt);
    if t > 0.0 then
      NormalOfHit(r, t, sqrt);
      Normal(Unit(Subtract(At(r, t), SphereCenter), sqrt))
    else
      BlendInRange(r.direction, sqrt);
      Sky(0.5 * (Unit(r.direction, sqrt).y + 1.0))
  }

  /** At a hit of the sphere the offset from the centre is non-zero, with magnitude the radius. */
  lemma NormalOfHit(r: Ray, t: real, sqrt: real -> real)
    requires IsSqrt(sqrt)
    requires r.direction != Zero
    requires t == HitSphere(r, SphereCenter, SphereRadius, sqrt) && t > 0.0
    ensures 0.0 <= Discriminant(HitCoefficients(r, SphereCenter, SphereRadius))
    ensures Subtract(At(r, t), SphereCenter) != Zero
    ensures Magnitude(Subtract(At(r, t), SphereCenter), sqrt) == SphereRadius
  {
    var v := Subtract(At(r, t), SphereCenter);
    HitIsOnSphere(r, SphereCenter, SphereRadius, sqrt);
    assert Squares(v) == SphereRadius * SphereRadius;
    SquaresZeroIff(v);
    EqualSquares(Magnitude(v, sqrt), SphereRadius);
  }

  /** The y-coordinate of a unit vector lies in [−1, 1], so the blend lies in [0, 1]. */
  lemma BlendInRange(d: Vec3, sqrt: real -> real)
    requires IsSqrt(sqrt)
    requires d != Zero
    ensures 0.0 <= 0.5 * (Unit(d, sqrt).y + 1.0) <= 1.0
  {
    var u := Unit(d, sqrt);
    NonNegativeSquare(u.x);
    NonNegativeSquare(u.z);
    AtMostOne(u.y);
  }

  /** A real whose square is at most 1 lies in [−1, 1]. */
  lemma AtMostOne(y: real)
    requires y * y <= 1.0
    ensures -1.0 <= y <= 1.0
  {
  }

  /** At(0) is the origin. */
  lemma AtZero(r: Ray)
    ensures At(r, 0.0) == r.origin
  {
  }
}
