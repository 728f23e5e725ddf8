/**
 * The square root both tracers call (`f64::sqrt` in Rust, `math.Sqrt` in Go).
 * Dafny's `real` has no square-root function, so the model takes the square
 * root as a parameter `sqrt: real -> real` and every member that needs it
 * requires `IsSqrt(sqrt)`: on the non-negative reals `sqrt` returns the
 * non-negative number whose square is its argument.
 */
module SquareRoot {

  /** `sqrt` behaves as the square root on every non-negative real. */
  ghost predicate IsSqrt(sqrt: real -> real) {
    forall x: real :: RootAt(sqrt, x)
  }

  /**
   * `sqrt(x)` is the square root of x, if x is non-negative. Proofs name
   * the point they need, `assert RootAt(sqrt, x)`, to use `IsSqrt` there.
   */
  predicate RootAt(sqrt: real -> real, x: real) {
    0.0 <= x ==> 0.0 <= sqrt(x) && sqrt(x) * sqrt(x) == x
  }

  /** The square root is unique: a non-negative `y` is the square root of `y * y`. */
  lemma SqrtOfSquare(sqrt: real -> real, y: real)
    requires IsSqrt(sqrt)
    requires 0.0 <= y
    ensures sqrt(y * y) == y
  {
    assert RootAt(sqrt, y * y);
    EqualSquares(sqrt(y * y), y);
  }

  /** Two non-negative reals with the same square are equal. */
  lemma EqualSquares(s: real, y: real)
    requires 0.0 <= s && 0.0 <= y
    requires s * s == y * y
    ensures s == y
  {
    ZeroProduct(s - y, s + y);
  }

  /** A product of reals is zero only when a factor is. */
  lemma ZeroProduct(d: real, e: real)
    requires d * e == 0.0
    ensures d == 0.0 || e == 0.0
  {
    if d != 0.0 {
      assert e == (d * e) / d;
    }
  }

  /** A non-zero factor cancels from both sides. */
  lemma CancelFactor(k: real, x: real, y: real)
    requires k != 0.0 && k * x == k * y
    ensures x == y
  {
    ZeroProduct(k, x - y);
  }

  /** A positive product with a positive factor has a positive cofactor. */
  lemma PositiveFactor(k: real, x: real)
    requires 0.0 < k && 0.0 < k * x
    ensures 0.0 < x
  {
    assert x == (k * x) / k;
  }

  /** The square root vanishes exactly at zero. */
  lemma SqrtZeroIff(sqrt: real -> real, x: real)
    requires IsSqrt(sqrt)
    requires 0.0 <= x
    ensures sqrt(x) == 0.0 <==> x == 0.0
  {
    assert RootAt(sqrt, x);
    if x == 0.0 {
      ZeroProduct(sqrt(x), sqrt(x));
    }
  }

  /** A product of non-negative reals is non-negative. */
  lemma NonNegativeProduct(a: real, b: real)
    requires 0.0 <= a && 0.0 <= b
    ensures 0.0 <= a * b
  {
  }

  /** The square of a real is non-negative. */
  lemma NonNegativeSquare(a: real)
    ensures 0.0 <= a * a
  {
    if a < 0.0 {
      assert a * a == (-a) * (-a);
    }
  }

  /** The square of a non-zero real is positive. */
  lemma PositiveSquare(a: real)
    requires a != 0.0
    ensures 0.0 < a * a
  {
    if a < 0.0 {
      assert a * a == (-a) * (-a);
    }
  }
}
