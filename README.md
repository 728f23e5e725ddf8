# Ray–sphere intersection in two small ray tracers

The repository holds two toy ray tracers that share one piece of geometry:
a ray `e + t·d` meets a sphere `|p − c| = r` where the quadratic
`A·t² + B·t + C` in `t` vanishes, with `A = d·d`, `B = 2·d·(e − c)` and
`C = |e − c|² − r²`.

- The Rust tracer (`src/main.rs`) has a `Point` value type with `origin`,
  `dot`, `magnitude` and the `-`, `+`, `* f64` and `==` operators, the `Ray`
  and `Sphere` records, and `intersects`. That function compares the
  discriminant with the tolerance 0.1. Below it, it reports no hit and leaves
  the caller's `f64` alone. Above it, it writes the root of smaller absolute
  value through its `&mut f64` parameter. Exactly at it, it writes −B / (2A).
- The Go tracer (`vector.go`, `ray.go`) has a `Vec3` value type with
  `Negative`, `Add`, `Subtract`, `Multiply`, `Divide`, `Squares`, `Magnitude`,
  `Dot`, `Cross` and `Unit`. Its `Ray` has `At`, and `HitSphere`, which returns
  the lesser root (−b − √disc) / (2a), or the sentinel −1.0 for a negative
  discriminant. `Color` draws the sphere's normal when that result is
  positive, and otherwise a sky gradient.

The project has five modules:

| file | module | models |
|---|---|---|
| `sqrt.dfy` | `SquareRoot` | the square root both tracers call, as a parameter constrained by `IsSqrt` |
| `quadratic.dfy` | `Quadratic` | the quadratic in `t`, its discriminant, its roots and its vertex |
| `tracer.dfy` | `RustTracer` | `src/main.rs` |
| `vector.dfy` | `GoVector` | `vector.go` |
| `ray.dfy` | `GoRay` | `ray.go` |

Coordinates are Dafny `real` numbers, not IEEE doubles. Dafny has no
square-root function on `real`, so every member that takes a root receives
`sqrt: real -> real` and requires `IsSqrt(sqrt)`: for every `x ≥ 0`,
`sqrt(x) ≥ 0` and `sqrt(x)² = x`. This stands for `f64::sqrt` and
`math.Sqrt`.

The Go methods have value receivers, and the Rust operators take their
operands by value or, for `==`, by shared reference. None of them mutates;
each returns a fresh value, so each is a function. `intersects` writes through its
out-parameter, so it is a method. The caller's `f64` is a `Cell` object that
the method `modifies`.

Behaviour of the code worth knowing (the model follows the code throughout):

- **A sphere behind the eye is a hit.** `intersects` never checks the sign of
  `t`, so a sphere centred at (0, 0, 8) is reported hit at t = −6.
  `RustTracer.SphereBehindEye` proves this.
- **The tolerance branch does not store a hit point.** When the discriminant
  is exactly 0.1, the stored −B / (2A) is the vertex of the quadratic, not a
  root. The point there lies strictly inside the sphere
  (`RustTracer.TangentPointInside`); it is the point of the ray nearest the
  centre (`RustTracer.TangentPointNearestCentre`).
- **A small sphere that the ray crosses can be missed.** A discriminant that
  is positive but below 0.1 is reported as a miss
  (`RustTracer.SmallSphereMissed`).
- **−1.0 does not always mean "no hit".** `HitSphere` returns −1.0 for a
  negative discriminant, but −1.0 can also be a genuine lesser root. The
  converse "−1.0 only on a miss" therefore does not hold
  (`GoRay.SentinelIsAlsoAHit`).
- **`Cross` is reversed.** `v.Cross(u)` computes the conventional u × v
  (`GoVector.CrossOrientation`). Orthogonality and anticommutativity hold
  either way.
- **The test call has the wrong arity.** The test `simple_intersection`
  (src/main.rs:249) calls `intersects` with two arguments, but the function
  takes three. The model calls the three-argument form and supplies a cell
  that holds 0.0.

## Model

| member | source | states |
|---|---|---|
| RustTracer.Origin | src/main.rs:15-21 | no ensures of its own: the point (0, 0, 0); `RustTracer.OriginIsNeutral` characterises it |
| RustTracer.Dot | src/main.rs:23-25 | no ensures of its own: the sum of coordinate products; `RustTracer.DotSymmetric`, `RustTracer.DotAdd`, `RustTracer.DotMul` and `RustTracer.DotSelfZeroIff` characterise it |
| RustTracer.Magnitude | src/main.rs:27-29 | the magnitude is non-negative and its square is `dot(p, p)` |
| RustTracer.Sub | src/main.rs:35-41 | `(p − q) + q = p`, with `+` componentwise |
| RustTracer.Add | src/main.rs:44-54 | no ensures of its own: componentwise `+`; the ensures of `RustTracer.Sub` makes it the inverse of `-`, and `RustTracer.DotAdd` relates it to `dot` |
| RustTracer.Mul | src/main.rs:56-66 | no ensures of its own: `rhs` times each coordinate; `RustTracer.DotMul` characterises it |
| RustTracer.Eq | src/main.rs:68-72 | `==` holds exactly when all three coordinates are equal, with no tolerance |
| RustTracer.OriginIsNeutral | src/main.rs:15-21 | the origin is neutral for `+` and `-`, its dot with any point is 0 and its magnitude is 0 |
| RustTracer.DotSelfNonNegative | src/main.rs:23-25 | `dot(v, v) ≥ 0` for every point |
| RustTracer.DotSelfZeroIff | src/main.rs:23-25 | `dot(v, v) = 0` exactly at the origin |
| RustTracer.DotSymmetric | src/main.rs:23-25 | `dot` is symmetric |
| RustTracer.DotAdd | src/main.rs:23-25 | `dot(a, b + c) = dot(a, b) + dot(a, c)` |
| RustTracer.DotMul | src/main.rs:59-65 | `dot(a * k, b) = k · dot(a, b)` |
| RustTracer.ScaledOriginDot | src/main.rs:59-65 | a scaled origin has dot 0 with every point |
| RustTracer.PointSubtraction | src/main.rs:192-210 | the test `point_subtraction`: (1, 2, 4) − (2, 0, 2) == (−1, 2, 2) |
| RustTracer.PointEquality | src/main.rs:213-225 | the test `point_equality`: (1, 2, 4) == (1, 2, 4), and a difference of 10⁻¹² in one coordinate breaks equality |
| RustTracer.Cell.constructor | src/main.rs:102 | the caller's `f64` that `intersects` writes through `t: &mut f64` holds its initial value |
| RustTracer.Intersects | src/main.rs:102-136 | returns true exactly when the discriminant is at least 0.1; on false `*t` is unchanged; above 0.1 `*t` is the root nearest 0 and `e + t·d` lies on the sphere; at exactly 0.1 `*t` is the vertex −B / (2A) |
| RustTracer.Coefficients | src/main.rs:108-110 | no ensures of its own: the record (A, B, C); `RustTracer.SphereEquation` characterises it |
| RustTracer.SphereEquation | src/main.rs:108-110 | `A·t² + B·t + C = |e + t·d − c|² − r²` for every t |
| RustTracer.HitsSolveSphere | src/main.rs:108-127 | t is a root of the quadratic exactly when `e + t·d` lies on the sphere |
| RustTracer.ZeroDirectionZeroB | src/main.rs:109 | B vanishes when `d·d` does |
| RustTracer.ZeroDirectionZeroDiscriminant | src/main.rs:108-112 | A = 0 forces the discriminant to 0 |
| RustTracer.DirectionNonZero | src/main.rs:114-132 | a discriminant of at least 0.1 forces A > 0, so no branch that divides by 2A divides by zero |
| RustTracer.TangentPointInside | src/main.rs:128-132 | at discriminant 0.1 the stored point is strictly inside the sphere, not on it |
| RustTracer.TangentPointNearestCentre | src/main.rs:128-132 | at discriminant 0.1 the stored point is the point of the ray nearest the centre |
| RustTracer.AxisCoefficients | src/main.rs:108-110 | for the ray from the origin along −z and the sphere at (cx, 0, cz), A = 1, B = 2·cz and C = cx² + cz² − r² |
| RustTracer.AxisB | src/main.rs:109 | proof step: B of that ray and sphere is 2·cz |
| RustTracer.AxisC | src/main.rs:110 | proof step: C + r² of that ray and sphere is cx² + cz² |
| RustTracer.AxisScene | src/main.rs:102-136 | on that scene: a hit exactly when 4·(r² − cx²) ≥ 0.1; a miss leaves 0.0; at 0.1, t = −cz; above it, t = −cz ∓ √(r² − cx²), the sign depending on whether the centre is ahead of or behind the eye |
| RustTracer.AxisOutcome | src/main.rs:112-132 | the three branches of `intersects` on that scene, in closed form |
| RustTracer.AxisNearest | src/main.rs:120-126 | the root nearest 0 of t² + 2·cz·t + cz² − k, for k > 0, is −cz − √k for cz ≤ 0 and −cz + √k otherwise |
| RustTracer.SimpleIntersection | src/main.rs:228-249 | the test `simple_intersection`: the sphere at (0, 0, −8) of radius 2 is hit, at t = 6 |
| RustTracer.SphereBehindEye | src/main.rs:116-127 | the sphere at (0, 0, 8) of radius 2 is also reported hit, at t = −6 |
| RustTracer.ToleranceBranch | src/main.rs:128-132 | the sphere at (0.4875, 0, −8) of radius 0.5125 has discriminant exactly 0.1 and is hit at t = 8 |
| RustTracer.SmallSphereMissed | src/main.rs:116-117 | the sphere at (0, 0, −8) of radius 0.1 is reported missed and t keeps 0.0 |
| Quadratic.Abs | src/main.rs:122 | `abs` is non-negative and is t or −t |
| Quadratic.DegenerateDiscriminant | src/main.rs:112 | proof step: with A = B = 0 the discriminant is 0 |
| Quadratic.CompletedSquare | src/main.rs:112 | `4A·(A·t² + B·t + C) = (2A·t + B)² − (B² − 4AC)` |
| Quadratic.RootIffShifted | src/main.rs:120-121 | given s with s² equal to the discriminant, t is a root exactly when 2A·t + B = ±s |
| Quadratic.QuadraticFormula | src/main.rs:120-121 | (−B ± s) / (2A) are both roots |
| Quadratic.NoRootWhenNegative | ray.go:23-24 | a negative discriminant leaves no real root |
| Quadratic.RootExistsIff | ray.go:22-26 | for a ≠ 0 a root exists exactly when the discriminant is non-negative |
| Quadratic.LowerRootIsLeast | ray.go:26 | for a > 0, (−b − s) / (2a) is the least root |
| Quadratic.FormulaShift | src/main.rs:120-121 | proof step: `2A·((−B ± s) / (2A)) + B = ±s` |
| Quadratic.SmallerAbsoluteRootIsNearest | src/main.rs:120-126 | keeping t1 when `t1.abs() < t2.abs()`, and t2 otherwise, keeps the root nearest 0, the lesser one on a tie |
| Quadratic.MonicRoots | src/main.rs:120-121 | (t − r1)(t − r2) has discriminant (r1 − r2)² and exactly the roots r1 and r2 |
| Quadratic.NearestOfSymmetricRoots | src/main.rs:122-126 | with roots m ± h, h > 0, the nearest root is m − h for m ≥ 0 and m + h otherwise |
| Quadratic.VietaProduct | ray.go:22-26 | two distinct roots s1, s2 give b = −a·(s1 + s2) and c = a·s1·s2 |
| Quadratic.VertexValue | src/main.rs:131 | at −B / (2A) the quadratic equals −disc / (4A) |
| Quadratic.VertexMinimises | src/main.rs:131 | for A > 0, −B / (2A) minimises the quadratic |
| GoVector.Negative | vector.go:14-16 | `v.Add(v.Negative())` is the zero vector |
| GoVector.NegativeInvolution | vector.go:14-16 | `Negative` is an involution |
| GoVector.Add | vector.go:18-20 | no ensures of its own: componentwise sum; the ensures of `GoVector.Subtract` and `GoVector.Negative` make it their inverse, and `GoVector.DotBilinear` relates it to `Dot` |
| GoVector.Subtract | vector.go:22-24 | `v.Subtract(u).Add(u) == v` |
| GoVector.SubtractIsAddNegative | vector.go:18-24 | `v.Subtract(u) == v.Add(u.Negative())` |
| GoVector.Multiply | vector.go:26-28 | no ensures of its own: each coordinate times the scalar; `GoVector.DotBilinear` and `GoVector.SquaresOfMultiply` characterise it |
| GoVector.Divide | vector.go:30-32 | for s ≠ 0, `Divide(s) == Multiply(1/s)`, and multiplying back by s restores v |
| GoVector.Squares | vector.go:34-36 | `Squares() == v.Dot(v)`, and it is non-negative |
| GoVector.SquaresZeroIff | vector.go:34-36 | `Squares()` is 0 exactly for the zero vector |
| GoVector.Magnitude | vector.go:38-40 | `Magnitude()` is non-negative, its square is `Squares()`, and it is 0 exactly for the zero vector |
| GoVector.Dot | vector.go:46-48 | no ensures of its own: the sum of coordinate products; `GoVector.DotSymmetric` and `GoVector.DotBilinear` characterise it |
| GoVector.DotSymmetric | vector.go:46-48 | `Dot` is symmetric |
| GoVector.DotBilinear | vector.go:46-48 | `Dot` is additive and homogeneous in each argument |
| GoVector.Cross | vector.go:50-56 | `v.Cross(u)` is orthogonal to both v and u |
| GoVector.CrossAnticommutative | vector.go:50-56 | `v.Cross(u) == u.Cross(v).Negative()` |
| GoVector.CrossSelfIsZero | vector.go:50-56 | `v.Cross(v)` is the zero vector |
| GoVector.CrossOrientation | vector.go:50-56 | x̂.Cross(ŷ) is −ẑ: the receiver is the right-hand factor |
| GoVector.SquaresOfMultiply | vector.go:26-36 | `Multiply(k).Squares() == k²·Squares()` |
| GoVector.MagnitudeOfMultiply | vector.go:26-40 | `Multiply(k).Magnitude() == |k|·Magnitude()` |
| GoVector.Unit | vector.go:58-60 | for non-zero v, `v.Unit().Squares() == 1`, and scaling the unit vector by `v.Magnitude()` gives back v |
| GoVector.UnitOfUnit | vector.go:58-60 | `Unit` is idempotent |
| GoRay.At | ray.go:13-15 | `r.At(t) − origin == direction · t` |
| GoRay.AtZero | ray.go:13-15 | `At(0)` is the origin |
| GoRay.HitSphere | ray.go:17-29 | −1.0 when the discriminant is negative; otherwise the least root of a·t² + b·t + c |
| GoRay.LeastHit | ray.go:19-26 | with a non-zero direction, a > 0, and (−b − √disc) / (2a) is the least root |
| GoRay.HitCoefficients | ray.go:18-21 | no ensures of its own: the record (a, b, c); `GoRay.HitEquation` characterises it |
| GoRay.HitEquation | ray.go:18-21 | `a·t² + b·t + c = |At(t) − center|² − radius²` for every t |
| GoRay.AtOffset | ray.go:14-18 | proof step: `At(t) − center = oc + direction · t` |
| GoRay.SquaresOfOffset | ray.go:19-21 | proof step: `|oc + t·d|² = oc·oc + 2t·(oc·d) + t²·(d·d)` |
| GoRay.RootIffOnSphere | ray.go:18-26 | t is a root exactly when `At(t)` lies on the sphere |
| GoRay.HitIsOnSphere | ray.go:25-26 | for a non-negative discriminant, `At(HitSphere(...))` lies on the sphere |
| GoRay.MeetsSphereIff | ray.go:22-26 | some `At(t)` lies on the sphere exactly when the discriminant is non-negative, so −1.0 from a negative discriminant means the ray's line misses the sphere |
| GoRay.SentinelIsAlsoAHit | ray.go:23-26 | from inside the sphere with `At(−1)` on it, `HitSphere` returns −1.0 although the discriminant is non-negative |
| GoRay.Color | ray.go:31-40 | the normal branch is taken exactly when `HitSphere` against (0, 0, −1), 0.5 returns t > 0; then the discriminant was non-negative, and the normal is the unit vector from the centre through `At(t)`; otherwise the blend factor lies in [0, 1] |
| GoRay.NormalOfHit | ray.go:32-34 | at a hit with t > 0 the offset from the centre is non-zero and has magnitude 0.5 |
| GoRay.BlendInRange | ray.go:38 | `0.5·(direction.Unit().y + 1)` lies in [0, 1] |

## Left out

- `main` and `print_row` in src/main.rs (src/main.rs:96-100, 138-184) and all of `main.go`: camera set-up, the render loops, P3 text output, timing and PNG encoding are I/O with no stated contract.
- The `Pixel` record and the `as u8` / `uint8(...)` colour conversions (src/main.rs:169-173, ray.go:35, ray.go:39): float-to-integer casts with saturation or truncation have no counterpart on reals, so `GoRay.Color` stops at the normal or the blend factor.
- `Vec3.String` (vector.go:42-44): string formatting through `fmt`.
- IEEE-754 rounding, NaN and infinities. Coordinates are reals, `powf(2.0)` is `x·x`, and `f64::sqrt` / `math.Sqrt` are the `sqrt` parameter.
- GoRay.HitSphere: requires a non-zero direction. With a zero direction Go computes 0 / 0 (NaN), since the discriminant is then 0 and not negative.
- GoVector.Unit: requires a non-zero vector. Go divides the zero vector by a zero magnitude.
- GoVector.Divide: requires a non-zero scalar. Go divides into infinities or NaN.
- GoRay.Color: requires a non-zero direction, for the `HitSphere` and `Unit` calls it makes.
- RustTracer.Intersects: needs no precondition. A discriminant of at least 0.1 already forces A > 0 (`RustTracer.DirectionNonZero`), so over the reals neither division by 2A is by zero.
