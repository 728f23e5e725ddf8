/**
 * The quadratic a·t² + b·t + c in the ray parameter t that both tracers solve
 * to intersect a ray with a sphere, and the algebra of its roots.
 */
module Quadratic {

  import opened SquareRoot

  datatype Quadratic = Quadratic(a: real, b: real, c: real)

  /** The value a·t² + b·t + c. */
  function Eval(q: Quadratic, t: real): real {
    q.a * t * t + q.b * t + q.c
  }

  /** b² − 4ac, written as both sources write it. */
  function Discriminant(q: Quadratic): real {
    q.b * q.b - 4.0 * q.a * q.c
  }

  predicate IsRoot(q: Quadratic, t: real) {
    Eval(q, t) == 0.0
  }

  /** Over the reals, |t| as `f64::abs` computes it. */
  function Abs(t: real): (r: real)
    ensures 0.0 <= r && (r == t || r == -t)
  {
    if t < 0.0 then -t else t
  }

  /**
   * t is the root nearest to 0 in absolute value; of two roots equally far
   * from 0 it is the lesser.
   */
  ghost predicate NearestRoot(q: Quadratic, t: real) {
    && IsRoot(q, t)
    && forall s :: IsRoot(q, s) ==> Abs(t) <= Abs(s) && (Abs(s) == Abs(t) ==> t <= s)
  }

  /** t is the least root. */
  ghost predicate LeastRoot(q: Quadratic, t: real) {
    IsRoot(q, t) && forall s :: IsRoot(q, s) ==> t <= s
  }

  /** t is where the quadratic's derivative 2a·t + b vanishes. */
  predicate IsVertex(q: Quadratic, t: real) {
    2.0 * q.a * t + q.b == 0.0
  }

  /** With a = b = 0 the discriminant is zero. */
  lemma DegenerateDiscriminant(q: Quadratic)
    requires q.a == 0.0 && q.b == 0.0
    ensures Discriminant(q) == 0.0
  {
  }

  /** Completing the square: 4a·(a·t² + b·t + c) = (2a·t + b)² − (b² − 4ac). */
  lemma CompletedSquare(q: Quadratic, t: real)
    ensures 4.0 * q.a * Eval(q, t) == (2.0 * q.a * t + q.b) * (2.0 * q.a * t + q.b) - Discriminant(q)
  {
  }

  /**
   * Given a square root s of the discriminant, the roots are exactly the t
   * with 2a·t + b = ±s.
   */
  lemma RootIffShifted(q: Quadratic, s: real, t: real)
    requires q.a != 0.0
    requires s * s == Discriminant(q)
    ensures IsRoot(q, t) <==> (2.0 * q.a * t + q.b == s || 2.0 * q.a * t + q.b == -s)
  {
    var u := 2.0 * q.a * t + q.b;
    CompletedSquare(q, t);
    assert 4.0 * q.a * Eval(q, t) == (u - s) * (u + s);
    if IsRoot(q, t) {
      ZeroProduct(u - s, u + s);
    } else {
      assert 4.0 * q.a * Eval(q, t) != 0.0;
    }
  }

  /** The quadratic formula: (−b ± s) / (2a) are the two roots. */
  lemma QuadraticFormula(q: Quadratic, s: real)
    requires q.a != 0.0
    requires s * s == Discriminant(q)
    ensures IsRoot(q, (-q.b + s) / (2.0 * q.a))
    ensures IsRoot(q, (-q.b - s) / (2.0 * q.a))
  {
    var t1 := (-q.b + s) / (2.0 * q.a);
    var t2 := (-q.b - s) / (2.0 * q.a);
    assert 2.0 * q.a * t1 == -q.b + s;
    assert 2.0 * q.a * t2 == -q.b - s;
    RootIffShifted(q, s, t1);
    RootIffShifted(q, s, t2);
  }

  /** A negative discriminant leaves no real root. */
  lemma NoRootWhenNegative(q: Quadratic, t: real)
    requires Discriminant(q) < 0.0
    ensures !IsRoot(q, t)
  {
    if q.a != 0.0 {
      var u := 2.0 * q.a * t + q.b;
      CompletedSquare(q, t);
      assert 4.0 * q.a * Eval(q, t) == u * u - Discriminant(q) > 0.0;
    }
  }

  /** For a ≠ 0, a real root exists exactly when the discriminant is non-negative. */
  lemma RootExistsIff(q: Quadratic, sqrt: real -> real)
    requires q.a != 0.0
    requires IsSqrt(sqrt)
    ensures (exists t :: IsRoot(q, t)) <==> 0.0 <= Discriminant(q)
  {
    if 0.0 <= Discriminant(q) {
      assert RootAt(sqrt, Discriminant(q));
      QuadraticFormula(q, sqrt(Discriminant(q)));
    } else {
      forall t ensures !IsRoot(q, t) {
        NoRootWhenNegative(q, t);
      }
    }
  }

  /** With a > 0 and s ≥ 0, (−b − s) / (2a) is the least root. */
  lemma LowerRootIsLeast(q: Quadratic, s: real)
    requires 0.0 < q.a
    requires 0.0 <= s && s * s == Discriminant(q)
    ensures LeastRoot(q, (-q.b - s) / (2.0 * q.a))
  {
    var t := (-q.b - s) / (2.0 * q.a);
    QuadraticFormula(q, s);
    assert 2.0 * q.a * t + q.b == -s;
    forall r | IsRoot(q, r) ensures t <= r {
      RootIffShifted(q, s, r);
      assert 2.0 * q.a * t <= 2.0 * q.a * r;
    }
  }

  /** Dividing by 2a and multiplying back: 2a·((−b ± s) / (2a)) + b = ±s. */
  lemma FormulaShift(q: Quadratic, s: real)
    requires q.a != 0.0
    ensures 2.0 * q.a * ((-q.b + s) / (2.0 * q.a)) + q.b == s
    ensures 2.0 * q.a * ((-q.b - s) / (2.0 * q.a)) + q.b == -s
  {
  }

  /**
   * With a > 0 and s > 0 the roots are t1 = (−b + s) / (2a) and t2 = (−b − s) / (2a);
   * keeping t1 when its absolute value is strictly smaller, and t2 otherwise,
   * keeps the nearest root.
   */
  lemma SmallerAbsoluteRootIsNearest(q: Quadratic, s: real, t1: real, t2: real)
    requires 0.0 < q.a
    requires 0.0 < s && s * s == Discriminant(q)
    requires 2.0 * q.a * t1 + q.b == s && 2.0 * q.a * t2 + q.b == -s
    ensures NearestRoot(q, if Abs(t1) < Abs(t2) then t1 else t2)
  {
    var t := if Abs(t1) < Abs(t2) then t1 else t2;
    RootIffShifted(q, s, t1);
    RootIffShifted(q, s, t2);
    assert t2 < t1 by {
      assert 2.0 * q.a * (t1 - t2) == 2.0 * s;
      PositiveFactor(2.0 * q.a, t1 - t2);
    }
    forall r | IsRoot(q, r) ensures Abs(t) <= Abs(r) && (Abs(r) == Abs(t) ==> t <= r) {
      RootIffShifted(q, s, r);
      if 2.0 * q.a * r + q.b == s {
        CancelFactor(2.0 * q.a, r, t1);
      } else {
        CancelFactor(2.0 * q.a, r, t2);
      }
    }
  }

  /**
   * The monic quadratic (t − r1)(t − r2) has discriminant (r1 − r2)² and
   * exactly the roots r1 and r2.
   */
  lemma MonicRoots(q: Quadratic, r1: real, r2: real, t: real)
    requires q.a == 1.0 && q.b == -(r1 + r2) && q.c == r1 * r2
    ensures Discriminant(q) == (r1 - r2) * (r1 - r2)
    ensures IsRoot(q, t) <==> t == r1 || t == r2
  {
    assert Eval(q, t) == (t - r1) * (t - r2);
    if IsRoot(q, t) {
      ZeroProduct(t - r1, t - r2);
    }
  }

  /**
   * When the roots are m + h and m − h with h > 0, the nearest root is
   * m − h for m ≥ 0 and m + h for m < 0.
   */
  lemma NearestOfSymmetricRoots(q: Quadratic, m: real, h: real, t: real)
    requires q.a == 1.0 && q.b == -2.0 * m && q.c == m * m - h * h
    requires 0.0 < h
    requires NearestRoot(q, t)
    ensures t == if 0.0 <= m then m - h else m + h
  {
    assert q.b == -((m + h) + (m - h)) && q.c == (m + h) * (m - h);
    MonicRoots(q, m + h, m - h, t);
    MonicRoots(q, m + h, m - h, m + h);
    MonicRoots(q, m + h, m - h, m - h);
    if 0.0 <= m {
      assert Abs(m - h) <= Abs(m + h);
    } else {
      assert Abs(m + h) < Abs(m - h);
    }
  }

  /** Vieta: two distinct roots s1, s2 satisfy b = −a·(s1 + s2) and c = a·s1·s2. */
  lemma VietaProduct(q: Quadratic, s1: real, s2: real)
    requires IsRoot(q, s1) && IsRoot(q, s2) && s1 != s2
    ensures q.b == -q.a * (s1 + s2)
    ensures q.c == q.a * (s1 * s2)
  {
    assert (s1 - s2) * (q.a * (s1 + s2) + q.b) == Eval(q, s1) - Eval(q, s2);
    assert q.a * (s1 + s2) + q.b == 0.0 by {
      ZeroProduct(s1 - s2, q.a * (s1 + s2) + q.b);
    }
    assert q.c == -(q.a * s1 * s1) - q.b * s1;
  }

  /** At the vertex the quadratic takes the value −(b² − 4ac) / (4a). */
  lemma VertexValue(q: Quadratic, t: real)
    requires q.a != 0.0
    requires IsVertex(q, t)
    ensures Eval(q, t) == -Discriminant(q) / (4.0 * q.a)
  {
    CompletedSquare(q, t);
  }

  /** For a > 0 the vertex is where the quadratic is least. */
  lemma VertexMinimises(q: Quadratic, t: real, s: real)
    requires 0.0 < q.a
    requires IsVertex(q, t)
    ensures Eval(q, t) <= Eval(q, s)
  {
    assert Eval(q, s) - Eval(q, t) == (s - t) * (q.a * (s - t) + (2.0 * q.a * t + q.b));
    assert Eval(q, s) - Eval(q, t) == q.a * ((s - t) * (s - t));
    assert 0.0 <= (s - t) * (s - t);
  }
}
