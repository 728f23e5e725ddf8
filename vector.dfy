/**
 * The Go tracer's `Vec3` (vector.go): a value type with three real
 * coordinates. Every operation has a value receiver and returns a fresh
 * vector or number, so each is a function here; the receiver is the first
 * parameter.
 */
module GoVector {

  import opened SquareRoot

  datatype Vec3 = Vec3(x: real, y: real, z: real)

  /** Go's zero value `Vec3{}`. */
  const Zero := Vec3(0.0, 0.0, 0.0)

  function Negative(v: Vec3): (r: Vec3)
    ensures Add(v, r) == Zero
  {
    Vec3(-v.x, -v.y, -v.z)
  }

  function Add(v: Vec3, u: Vec3): Vec3 {
    Vec3(v.x + u.x, v.y + u.y, v.z + u.z)
  }

  function Subtract(v: Vec3, u: Vec3): (r: Vec3)
    ensures Add(r, u) == v
  {
    Vec3(v.x - u.x, v.y - u.y, v.z - u.z)
  }

  function Multiply(v: Vec3, scalar: real): Vec3 {
    Vec3(v.x * scalar, v.y * scalar, v.z * scalar)
  }

  /** Go divides by zero into infinities; here the scalar must be non-zero. */
  function Divide(v: Vec3, scalar: real): (r: Vec3)
    requires scalar != 0.0
    ensures r == Multiply(v, 1.0 / scalar)
    ensures Multiply(r, scalar) == v
  {
    Vec3(v.x / scalar, v.y / scalar, v.z / scalar)
  }

  function Squares(v: Vec3): (r: real)
    ensures r == Dot(v, v)
    ensures 0.0 <= r
  {
    (v.x * v.x) + (v.y * v.y) + (v.z * v.z)
  }

  function Magnitude(v: Vec3, sqrt: real -> real): (r: real)
    requires IsSqrt(sqrt)
    ensures 0.0 <= r && r * r == Squares(v)
    ensures r == 0.0 <==> v == Zero
  {
    var s := Squares(v);
    SqrtZeroIff(sqrt, s);
    SquaresZeroIff(v);
    assert RootAt(sqrt, s);
    sqrt(s)
  }

  function Dot(v: Vec3, u: Vec3): real {
    u.x * v.x + u.y * v.y + u.z * v.z
  }

  function Cross(v: Vec3, u: Vec3): (r: Vec3)
    ensures Dot(r, v) == 0.0 && Dot(r, u) == 0.0
  {
    Vec3(u.y * v.z - u.z * v.y,
         u.z * v.x - u.x * v.z,
         u.x * v.y - u.y * v.x)
  }

  /** Go divides the zero vector by its zero magnitude; here v must be non-zero. */
  function Unit(v: Vec3, sqrt: real -> real): (r: Vec3)
    requires IsSqrt(sqrt)
    requires v != Zero
    ensures Squares(r) == 1.0
    ensures Multiply(r, Magnitude(v, sqrt)) == v
  {
    var m := Magnitude(v, sqrt);
    var r := Divide(v, m);
    assert Squares(r) == Squares(v) / (m * m) by {
      assert r.x * r.x == (v.x * v.x) / (m * m);
      assert r.y * r.y == (v.y * v.y) / (m * m);
      assert r.z * r.z == (v.z * v.z) / (m * m);
    }
    r
  }

  /** The sum of squares of a vector vanishes only at the zero vector. */
  lemma SquaresZeroIff(v: Vec3)
    ensures Squares(v) == 0.0 <==> v == Zero
  {
    if v != Zero {
      NonNegativeSquare(v.x);
      NonNegativeSquare(v.y);
      NonNegativeSquare(v.z);
      if v.x != 0.0 {
        PositiveSquare(v.x);
      } else if v.y != 0.0 {
        PositiveSquare(v.y);
      } else {
        PositiveSquare(v.z);
      }
      calc {
        Squares(v);
      ==
        v.x * v.x + v.y * v.y + v.z * v.z;
      >
        0.0;
      }
    }
  }

  lemma NegativeInvolution(v: Vec3)
    ensures Negative(Negative(v)) == v
  {
  }

  lemma SubtractIsAddNegative(v: Vec3, u: Vec3)
    ensures Subtract(v, u) == Add(v, Negative(u))
  {
  }

  lemma DotSymmetric(v: Vec3, u: Vec3)
    ensures Dot(v, u) == Dot(u, v)
  {
  }

  /** Dot is linear in each argument (with symmetry, in both). */
  lemma DotBilinear(v: Vec3, u: Vec3, w: Vec3, k: real)
    ensures Dot(v, Add(u, w)) == Dot(v, u) + Dot(v, w)
    ensures Dot(Add(v, u), w) == Dot(v, w) + Dot(u, w)
    ensures Dot(Multiply(v, k), u) == k * Dot(v, u)
    ensures Dot(v, Multiply(u, k)) == k * Dot(v, u)
  {
  }

  lemma CrossAnticommutative(v: Vec3, u: Vec3)
    ensures Cross(v, u) == Negative(Cross(u, v))
  {
  }

  lemma CrossSelfIsZero(v: Vec3)
    ensures Cross(v, v) == Zero
  {
  }

  /**
   * `v.Cross(u)` takes the coordinates of u first, so the receiver is the
   * right-hand factor: x̂.Cross(ŷ) is −ẑ, the conventional u × v.
   */
  lemma CrossOrientation()
    ensures Cross(Vec3(1.0, 0.0, 0.0), Vec3(0.0, 1.0, 0.0)) == Vec3(0.0, 0.0, -1.0)
  {
  }

  /** Scaling a vector by k scales its sum of squares by k². */
  lemma SquaresOfMultiply(v: Vec3, k: real)
    ensures Squares(Multiply(v, k)) == (k * k) * Squares(v)
  {
    var w := Multiply(v, k);
    calc {
      Squares(w);
    ==
      w.x * w.x + w.y * w.y + w.z * w.z;
    == { assert w.x * w.x == (k * k) * (v.x * v.x);
         assert w.y * w.y == (k * k) * (v.y * v.y);
         assert w.z * w.z == (k * k) * (v.z * v.z); }
      (k * k) * (v.x * v.x) + (k * k) * (v.y * v.y) + (k * k) * (v.z * v.z);
    ==
      (k * k) * (v.x * v.x + v.y * v.y + v.z * v.z);
    ==
      (k * k) * Squares(v);
    }
  }

  /** The magnitude of a scaled vector scales by the scalar's absolute value. */
  lemma MagnitudeOfMultiply(v: Vec3, k: real, sqrt: real -> real)
    requires IsSqrt(sqrt)
    ensures Magnitude(Multiply(v, k), sqrt) == (if k < 0.0 then -k else k) * Magnitude(v, sqrt)
  {
    var ak := if k < 0.0 then -k else k;
    var m, mw := Magnitude(v, sqrt), Magnitude(Multiply(v, k), sqrt);
    SquaresOfMultiply(v, k);
    calc {
      (ak * m) * (ak * m);
    ==
      (ak * ak) * (m * m);
    == { assert ak * ak == k * k; }
      (k * k) * Squares(v);
    ==
      mw * mw;
    }
    NonNegativeProduct(ak, m);
    EqualSquares(mw, ak * m);
  }

  /** A unit vector is its own unit vector. */
  lemma UnitOfUnit(v: Vec3, sqrt: real -> real)
    requires IsSqrt(sqrt)
    requires v != Zero
    ensures Unit(Unit(v, sqrt), sqrt) == Unit(v, sqrt)
  {
    var u := Unit(v, sqrt);
    assert Squares(u) == 1.0 * 1.0;
    SqrtOfSquare(sqrt, 1.0);
  }
}
