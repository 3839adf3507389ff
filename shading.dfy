/** The scalar rules of the two fragment shaders that have a contract of their
    own: the fractal noise sum `fbm`, the iris's radial coordinate, and the
    reflection mask of the cornea. The simplex kernel `snoise` is a function
    value; the bound the model uses (`BoundedNoise`) is its documented range. */
module Shading {
  import opened Numeric

  const IrisRadius: real := 0.46

  /** `snoise(v)` stays in [-1, 1]. */
  ghost predicate BoundedNoise(noise: (real, real) -> real)
  {
    forall x, y :: -1.0 <= noise(x, y) <= 1.0
  }

  /** `n` octaves of `fbm` starting at point (x, y) with amplitude `amp`: each
      octave adds `amp * snoise(p)`, then doubles `p` and halves `amp`. */
  function Octaves(noise: (real, real) -> real, x: real, y: real, amp: real, n: nat): real
    decreases n
  {
    if n == 0 then 0.0 else amp * noise(x, y) + Octaves(noise, x * 2.0, y * 2.0, amp * 0.5, n - 1)
  }

  /** Total amplitude of `n` octaves starting at `amp`. */
  function Amplitude(amp: real, n: nat): real
    decreases n
  {
    if n == 0 then 0.0 else amp + Amplitude(amp * 0.5, n - 1)
  }

  /** The sum is bounded by the total amplitude. */
  lemma {:induction false} OctavesBound(noise: (real, real) -> real, x: real, y: real, amp: real, n: nat)
    requires BoundedNoise(noise)
    requires 0.0 <= amp
    ensures -Amplitude(amp, n) <= Octaves(noise, x, y, amp, n) <= Amplitude(amp, n)
    decreases n
  {
    if n > 0 {
      OctavesBound(noise, x * 2.0, y * 2.0, amp * 0.5, n - 1);
      var v := noise(x, y);
      assert -1.0 <= v <= 1.0;
      MulNonneg(1.0 + v, amp);
      MulNonneg(1.0 - v, amp);
      assert (1.0 + v) * amp == amp + amp * v;
      assert (1.0 - v) * amp == amp - amp * v;
    }
  }

  /** Five octaves from amplitude 0.5 add up to 0.96875, inside [-1, 1]. */
  lemma FbmAmplitude()
    ensures Amplitude(0.5, 5) == 0.96875
  {
    assert Amplitude(0.03125, 1) == 0.03125;
    assert Amplitude(0.0625, 2) == 0.09375;
    assert Amplitude(0.125, 3) == 0.21875;
    assert Amplitude(0.25, 4) == 0.46875;
  }

  /** `fbm(p)`: the five-octave loop of the fragment shader. */
  method Fbm(px: real, py: real, noise: (real, real) -> real) returns (f: real)
    ensures f == Octaves(noise, px, py, 0.5, 5)
    ensures BoundedNoise(noise) ==> -0.96875 <= f <= 0.96875
  {
    f := 0.0;
    var amp := 0.5;
    var x, y := px, py;
    var i := 0;
    while i < 5
      invariant 0 <= i <= 5
      invariant f + Octaves(noise, x, y, amp, 5 - i) == Octaves(noise, px, py, 0.5, 5)
    {
      f := f + amp * noise(x, y);
      x, y := x * 2.0, y * 2.0;
      amp := amp * 0.5;
      i := i + 1;
    }
    if BoundedNoise(noise) {
      OctavesBound(noise, px, py, 0.5, 5);
      FbmAmplitude();
    }
  }

  /** `clamp((r - pupilRadius) / (irisRadius - pupilRadius), 0.0, 1.0)`: the
      iris's own radial coordinate, 0 at the pupil edge and 1 at the limbus. */
  function NormalizedR(r: real, pupilRadius: real): (n: real)
    requires pupilRadius != IrisRadius
    ensures 0.0 <= n <= 1.0
    ensures pupilRadius < IrisRadius && r <= pupilRadius ==> n == 0.0
    ensures pupilRadius < IrisRadius && IrisRadius <= r ==> n == 1.0
    ensures pupilRadius < r < IrisRadius ==> 0.0 < n < 1.0 && n * (IrisRadius - pupilRadius) == r - pupilRadius
  {
    IrisFraction(r, pupilRadius);
    Clamp((r - pupilRadius) / (IrisRadius - pupilRadius), 0.0, 1.0)
  }

  lemma IrisFraction(r: real, pupilRadius: real)
    requires pupilRadius != IrisRadius
    ensures var u := (r - pupilRadius) / (IrisRadius - pupilRadius);
      pupilRadius < IrisRadius ==>
        (r <= pupilRadius ==> u <= 0.0) &&
        (IrisRadius <= r ==> 1.0 <= u) &&
        (pupilRadius < r < IrisRadius ==> 0.0 < u < 1.0)
  {
    if pupilRadius < IrisRadius {
      DivideRange(r - pupilRadius, IrisRadius - pupilRadius);
    }
  }

  /** Across the iris the coordinate never decreases outward. */
  lemma NormalizedRMonotone(r1: real, r2: real, pupilRadius: real)
    requires pupilRadius < IrisRadius
    requires r1 <= r2
    ensures NormalizedR(r1, pupilRadius) <= NormalizedR(r2, pupilRadius)
  {
    var d := IrisRadius - pupilRadius;
    assert (r2 - pupilRadius) / d - (r1 - pupilRadius) / d == (r2 - r1) / d;
    DivideRange(r1 - r2, d);
  }

  /** `1 - smoothstep(edge0, edge1, x)`: a fade from 1 to 0. */
  function FadeOut(edge0: real, edge1: real, x: real): (m: real)
    requires edge0 < edge1
    ensures 0.0 <= m <= 1.0
    ensures x <= edge0 ==> m == 1.0
    ensures edge1 <= x ==> m == 0.0
  {
    1.0 - SmoothStep(edge0, edge1, x)
  }

  /** The cornea's reflection alpha: the incoming alpha times the anatomical
      fade on the local radius and the two eyelid fades on the world height.
      It never raises a non-negative alpha, leaves it alone near the iris and
      the horizon, and clears it at the far rim and behind the eyelids. */
  function CorneaAlpha(alpha: real, corneaR: real, worldY: real): (a: real)
    ensures 0.0 <= alpha ==> 0.0 <= a <= alpha
    ensures corneaR <= 0.5 && -0.35 <= worldY <= 0.35 ==> a == alpha
    ensures 0.85 <= corneaR || 0.7 <= worldY || worldY <= -0.7 ==> a == 0.0
  {
    var anatomicalMask := FadeOut(0.5, 0.85, corneaR);
    var topMask := FadeOut(0.35, 0.7, worldY);
    var bottomMask := FadeOut(0.35, 0.7, -worldY);
    var m := anatomicalMask * topMask * bottomMask;
    UnitProduct(anatomicalMask, topMask, bottomMask);
    ScaleDown(alpha, m);
    alpha * m
  }

  lemma ScaleDown(alpha: real, m: real)
    requires 0.0 <= m <= 1.0
    ensures 0.0 <= alpha ==> 0.0 <= alpha * m <= alpha
  {
    if 0.0 <= alpha {
      MulAtMost(m, alpha);
      MulNonneg(alpha, m);
    }
  }

  lemma UnitProduct(a: real, b: real, c: real)
    requires 0.0 <= a <= 1.0 && 0.0 <= b <= 1.0 && 0.0 <= c <= 1.0
    ensures 0.0 <= a * b * c <= 1.0
  {
    var ab := a * b;
    MulNonneg(a, b);
    MulAtMost(a, b);
    assert 0.0 <= ab <= 1.0;
    MulNonneg(ab, c);
    MulAtMost(ab, c);
    assert 0.0 <= ab * c <= 1.0;
  }
}
