/** Scalar helpers shared by the gaze controller, the geometry and the shaders:
    three.js `MathUtils.clamp` / `MathUtils.lerp` and the GLSL built-ins
    `clamp`, `mix` and `smoothstep`, over `real`.

    Transcendental and library functions whose definitions are not part of the
    model (`Math.sin`, `Math.cos`, `Math.sqrt`, the shader's `snoise`) are passed
    around as function values; the predicates below state the only facts the
    model relies on. */
module Numeric {

  /** `Math.PI` as a double, written out. */
  const Pi: real := 3.141592653589793

  datatype Vec3 = Vec3(x: real, y: real, z: real)

  function Dot(a: Vec3, b: Vec3): real
  {
    a.x * b.x + a.y * b.y + a.z * b.z
  }

  function Scale(v: Vec3, k: real): Vec3
  {
    Vec3(v.x * k, v.y * k, v.z * k)
  }

  function Min(a: real, b: real): real { if a <= b then a else b }
  function Max(a: real, b: real): real { if a <= b then b else a }

  /** A stand-in for `Math.sin` / `Math.cos`: every value lies in [-1, 1]. */
  ghost predicate Bounded(wave: real -> real)
  {
    forall u :: -1.0 <= wave(u) <= 1.0
  }

  /** A stand-in for `Math.sqrt` / GLSL `sqrt` on non-negative arguments. */
  ghost predicate IsSqrt(sqrt: real -> real)
  {
    forall v :: 0.0 <= v ==> 0.0 <= sqrt(v) && sqrt(v) * sqrt(v) == v
  }

  /** `MathUtils.clamp(value, min, max)`, i.e. `Math.max(min, Math.min(max, value))`.
      GLSL `clamp` agrees with it whenever `lo <= hi`. */
  function Clamp(v: real, lo: real, hi: real): (r: real)
    ensures lo <= hi ==> lo <= r <= hi
    ensures lo <= v <= hi ==> r == v
    ensures lo <= hi && v < lo ==> r == lo
    ensures lo <= hi && hi < v ==> r == hi
  {
    Max(lo, Min(hi, v))
  }

  /** `MathUtils.lerp(x, y, t)`, i.e. `(1 - t) * x + t * y`; GLSL `mix(x, y, t)`
      is the same expression. */
  function Lerp(x: real, y: real, t: real): (r: real)
    // the distance to the target shrinks by the factor (1 - t)
    ensures r - y == (1.0 - t) * (x - y)
    // equivalently, the step taken is a fraction t of the remaining gap
    ensures r == x + (y - x) * t
    ensures t == 0.0 ==> r == x
    ensures t == 1.0 ==> r == y
  {
    (1.0 - t) * x + t * y
  }

  /** For a weight in [0, 1] the interpolant lies between its end points and
      strictly closer to the target unless the weight is zero. */
  lemma LerpBetween(x: real, y: real, t: real)
    requires 0.0 <= t <= 1.0
    ensures Min(x, y) <= Lerp(x, y, t) <= Max(x, y)
    ensures t > 0.0 && x != y ==> Abs(Lerp(x, y, t) - y) < Abs(x - y)
  {
    var g := Abs(x - y);
    MulNonneg(1.0 - t, g);
    MulAtMost(1.0 - t, g);
    assert Abs(Lerp(x, y, t) - y) == (1.0 - t) * g;
    if t > 0.0 && x != y {
      MulBelow(1.0 - t, g);
    }
  }

  lemma MulNonneg(a: real, b: real)
    requires 0.0 <= a && 0.0 <= b
    ensures 0.0 <= a * b
  {
  }

  lemma MulPositive(a: real, b: real)
    requires 0.0 < a && 0.0 < b
    ensures 0.0 < a * b
  {
  }

  lemma SquareNonneg(a: real)
    ensures 0.0 <= a * a
  {
    if a < 0.0 {
      assert a * a == (-a) * (-a);
      MulNonneg(-a, -a);
    } else {
      MulNonneg(a, a);
    }
  }

  lemma MulAtMost(a: real, b: real)
    requires 0.0 <= a <= 1.0 && 0.0 <= b
    ensures a * b <= b
  {
  }

  lemma MulBelow(a: real, b: real)
    requires 0.0 <= a < 1.0 && 0.0 < b
    ensures a * b < b
  {
  }

  function Abs(v: real): real { if v < 0.0 then -v else v }

  /** GLSL `smoothstep(edge0, edge1, x)` as section 8.3 of the OpenGL ES Shading
      Language 3.00 specification defines it; the result is undefined there
      unless `edge0 < edge1`. */
  function SmoothStep(edge0: real, edge1: real, x: real): (r: real)
    requires edge0 < edge1
    ensures 0.0 <= r <= 1.0
    ensures x <= edge0 ==> r == 0.0
    ensures edge1 <= x ==> r == 1.0
  {
    var u := (x - edge0) / (edge1 - edge0);
    DivideRange(x - edge0, edge1 - edge0);
    var t := Clamp(u, 0.0, 1.0);
    HermiteUnit(t);
    t * t * (3.0 - 2.0 * t)
  }

  /** The smoothstep polynomial maps [0, 1] into [0, 1]. */
  lemma HermiteUnit(t: real)
    requires 0.0 <= t <= 1.0
    ensures 0.0 <= t * t * (3.0 - 2.0 * t) <= 1.0
  {
    assert 1.0 - t * t * (3.0 - 2.0 * t) == (1.0 - t) * (1.0 - t) * (1.0 + 2.0 * t);
    MulNonneg(1.0 - t, 1.0 - t);
    MulNonneg((1.0 - t) * (1.0 - t), 1.0 + 2.0 * t);
    MulNonneg(t, t);
    MulNonneg(t * t, 3.0 - 2.0 * t);
  }

  lemma DivideRange(a: real, b: real)
    requires 0.0 < b
    ensures a <= 0.0 ==> a / b <= 0.0
    ensures b <= a ==> 1.0 <= a / b
    ensures 0.0 < a < b ==> 0.0 < a / b < 1.0
  {
  }
}
