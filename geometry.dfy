/** Mesh-build-time deformation of the two concentric shells of the eye.

    Inner shell (radius 1, vertex shader): vertices on the front cap inside the
    iris radius are pushed back into a parabolic bowl, and their normals are
    replaced by the bowl's analytic normal.

    Outer shell (the cornea, radius 1.01, built once on the CPU): vertices on the
    front cap inside the limbus are pushed forward along a cubic Hermite dome. */
module Geometry {
  import opened Numeric

  const IrisRadius: real := 0.46
  const BowlDepth: real := 0.2
  const LimbusRadius: real := 0.55
  const BulgeHeight: real := 0.06

  /** `length(position.xy)` squared. */
  function RadiusSq(p: Vec3): real
  {
    p.x * p.x + p.y * p.y
  }

  /** The cap the iris bowl applies to: `position.z > 0 && r < irisRadius`,
      with the radius test done on squares (see `CapByLength`). */
  predicate InIrisCap(p: Vec3)
  {
    p.z > 0.0 && RadiusSq(p) < IrisRadius * IrisRadius
  }

  /** `1 - pow(r / irisRadius, 2)` in terms of `r * r`. */
  function Bowl(r2: real): real
  {
    1.0 - r2 / (IrisRadius * IrisRadius)
  }

  /** The z offset the bowl gives a point of the front cap at (x, y). */
  function BowlHeight(x: real, y: real): (h: real)
    // inside the iris the bowl sinks by at most the depth, by exactly the
    // depth on the axis, and not at all on the rim
    ensures x * x + y * y < IrisRadius * IrisRadius ==> -BowlDepth <= h < 0.0
    ensures x == 0.0 && y == 0.0 ==> h == -BowlDepth
    ensures x * x + y * y == IrisRadius * IrisRadius ==> h == 0.0
  {
    SquareNonneg(x);
    SquareNonneg(y);
    if x * x + y * y < IrisRadius * IrisRadius then BowlRange(x * x + y * y); -(Bowl(x * x + y * y) * BowlDepth)
    else -(Bowl(x * x + y * y) * BowlDepth)
  }

  /** `dzdx` / `dzdy` of the shader: `2 * c * depth / irisRadius^2`. */
  function BowlSlope(c: real): (k: real)
    // proportional to the coordinate: flat on the axis, rising outward
    ensures k == c * (2.0 * BowlDepth / (IrisRadius * IrisRadius))
    ensures k == 0.0 <==> c == 0.0
    ensures 0.0 < c ==> 0.0 < k
  {
    2.0 * c * BowlDepth / (IrisRadius * IrisRadius)
  }

  /** The displaced vertex position of the inner shell. */
  function BowlPosition(p: Vec3): (q: Vec3)
    ensures q.x == p.x && q.y == p.y
    // the cap and nothing else moves
    ensures q != p <==> InIrisCap(p)
    // the displacement is the bowl height at (x, y)
    ensures InIrisCap(p) ==> q.z == p.z + BowlHeight(p.x, p.y)
    // inside the cap z moves back by at most the depth, never forward
    ensures InIrisCap(p) ==> p.z - BowlDepth <= q.z < p.z
    // the bottom of the bowl, on the axis, is exactly `depth` deep
    ensures InIrisCap(p) && p.x == 0.0 && p.y == 0.0 ==> q.z == p.z - BowlDepth
  {
    if InIrisCap(p) then
      BowlRange(RadiusSq(p));
      Vec3(p.x, p.y, p.z + BowlHeight(p.x, p.y))
    else
      p
  }

  lemma BowlRange(r2: real)
    requires 0.0 <= r2 < IrisRadius * IrisRadius
    ensures 0.0 < Bowl(r2) <= 1.0
  {
  }

  /** The bowl is 1 on the axis and 0 on the iris rim, so the displacement
      meets the undeformed sphere without a step. */
  lemma BowlEnds()
    ensures Bowl(0.0) == 1.0
    ensures Bowl(IrisRadius * IrisRadius) == 0.0
  {
  }

  /** The squared-radius test agrees with the shader's `length(position.xy) <
      0.46` and `pow(r / 0.46, 2)` for the true length `r`. */
  lemma CapByLength(p: Vec3, r: real)
    requires 0.0 <= r && r * r == RadiusSq(p)
    ensures InIrisCap(p) <==> p.z > 0.0 && r < IrisRadius
    ensures (r / IrisRadius) * (r / IrisRadius) == RadiusSq(p) / (IrisRadius * IrisRadius)
  {
    SquareBelow(r, IrisRadius);
  }

  /** For non-negative `r` and positive `bound`, `r < bound` iff `r * r < bound * bound`. */
  lemma SquareBelow(r: real, bound: real)
    requires 0.0 <= r && 0.0 < bound
    ensures r < bound <==> r * r < bound * bound
  {
    assert (bound - r) * (bound + r) == bound * bound - r * r;
    if r < bound {
      MulPositive(bound - r, bound + r);
    } else {
      MulNonneg(r - bound, r + bound);
      assert (r - bound) * (r + bound) == -((bound - r) * (bound + r));
    }
  }

  /** The shader's slopes are the partial derivatives of the displacement: the
      change over a step `h` is `h * slope` plus a term of order `h * h`. Hence
      the direction `(-dzdx, -dzdy, 1)` is perpendicular to both tangents
      `(1, 0, dzdx)` and `(0, 1, dzdy)` of the bowl. */
  lemma BowlSlopeIsDerivative(x: real, y: real, h: real)
    ensures BowlHeight(x + h, y) - BowlHeight(x, y)
         == h * BowlSlope(x) + BowlDepth * h * h / (IrisRadius * IrisRadius)
    ensures BowlHeight(x, y + h) - BowlHeight(x, y)
         == h * BowlSlope(y) + BowlDepth * h * h / (IrisRadius * IrisRadius)
    ensures Dot(BowlNormalDirection(Vec3(x, y, 0.0)), Vec3(1.0, 0.0, BowlSlope(x))) == 0.0
    ensures Dot(BowlNormalDirection(Vec3(x, y, 0.0)), Vec3(0.0, 1.0, BowlSlope(y))) == 0.0
  {
    var k := BowlDepth / (IrisRadius * IrisRadius);
    assert BowlHeight(x + h, y) == -BowlDepth + k * ((x + h) * (x + h) + y * y);
    assert BowlHeight(x, y + h) == -BowlDepth + k * (x * x + (y + h) * (y + h));
    assert BowlHeight(x, y) == -BowlDepth + k * (x * x + y * y);
    assert BowlSlope(x) == 2.0 * x * k && BowlSlope(y) == 2.0 * y * k;
    assert BowlDepth * h * h / (IrisRadius * IrisRadius) == k * h * h;
  }

  /** `vec3(-dzdx, -dzdy, 1.0)` before normalisation. */
  function BowlNormalDirection(p: Vec3): Vec3
  {
    Vec3(-BowlSlope(p.x), -BowlSlope(p.y), 1.0)
  }

  /** GLSL `normalize(v)`: `v / length(v)`. The result has length 1, points the
      same way as `v` and is parallel to it. */
  function Normalize(v: Vec3, sqrt: real -> real): (u: Vec3)
    requires IsSqrt(sqrt)
    requires 0.0 < Dot(v, v)
    ensures Dot(u, u) == 1.0
    ensures 0.0 < Dot(u, v)
    ensures u.x * v.y == u.y * v.x && u.y * v.z == u.z * v.y && u.x * v.z == u.z * v.x
  {
    var len := sqrt(Dot(v, v));
    assert len != 0.0;
    var k := 1.0 / len;
    assert k * k * (len * len) == 1.0;
    assert Dot(Scale(v, k), Scale(v, k)) == k * k * Dot(v, v);
    assert Dot(Scale(v, k), v) == k * Dot(v, v);
    MulPositive(k, Dot(v, v));
    Scale(v, k)
  }

  /** The object-space normal of the inner shell: replaced on the iris cap (the
      same cap `BowlPosition` displaces) by the unit normal of the bowl, kept
      everywhere else. */
  function BowlNormal(p: Vec3, n: Vec3, sqrt: real -> real): (m: Vec3)
    requires IsSqrt(sqrt)
    ensures !InIrisCap(p) ==> m == n
    ensures InIrisCap(p) ==> Dot(m, m) == 1.0 && 0.0 < Dot(m, BowlNormalDirection(p))
    ensures InIrisCap(p) ==>
      m.x * BowlSlope(p.y) == m.y * BowlSlope(p.x) && -m.x == m.z * BowlSlope(p.x) && -m.y == m.z * BowlSlope(p.y)
  {
    if InIrisCap(p) then
      var d := BowlNormalDirection(p);
      SquareNonneg(d.x);
      SquareNonneg(d.y);
      Normalize(d, sqrt)
    else
      n
  }

  // ---------------------------------------------------------------------
  // Cornea

  /** The cap the cornea bulge applies to: `z > 0 && r < limbus`, with the
      radius test done on squares. */
  predicate InCorneaCap(p: Vec3)
  {
    p.z > 0.0 && RadiusSq(p) < LimbusRadius * LimbusRadius
  }

  /** The dome profile `2 t^3 - 3 t^2 + 1`. */
  function Hermite(t: real): (f: real)
    // a double root at the base: the dome meets the sphere tangentially
    ensures f == (1.0 - t) * (1.0 - t) * (1.0 + 2.0 * t)
  {
    2.0 * t * t * t - 3.0 * t * t + 1.0
  }

  /** Its derivative `6 t^2 - 6 t`. */
  function HermiteSlope(t: real): real
  {
    6.0 * t * t - 6.0 * t
  }

  /** The profile is 1 at the apex and 0 at the base; `HermiteSlope` is its
      derivative (the change over a step `h` is `h * slope` plus a term of order
      `h * h`), and it vanishes at both ends, so the dome has neither a tip nor
      a crease. */
  lemma HermiteProfile(t: real, h: real)
    ensures Hermite(0.0) == 1.0 && Hermite(1.0) == 0.0
    ensures HermiteSlope(0.0) == 0.0 && HermiteSlope(1.0) == 0.0
    ensures Hermite(t + h) - Hermite(t) == h * HermiteSlope(t) + h * h * (6.0 * t - 3.0 + 2.0 * h)
  {
    assert (t + h) * (t + h) == t * t + 2.0 * t * h + h * h;
    assert (t + h) * (t + h) * (t + h) == t * t * t + 3.0 * t * t * h + 3.0 * t * h * h + h * h * h;
  }

  /** On [0, 1] the profile stays in [0, 1]. */
  lemma HermiteRange(t: real)
    requires 0.0 <= t <= 1.0
    ensures 0.0 <= Hermite(t) <= 1.0
  {
    HermiteUnit(t);
    assert Hermite(t) == 1.0 - t * t * (3.0 - 2.0 * t);
  }

  /** Before the base the profile is strictly positive: `f(t) = (1 - t)^2 (1 + 2 t)`. */
  lemma HermitePositive(t: real)
    requires 0.0 <= t < 1.0
    ensures 0.0 < Hermite(t)
  {
    var u := 1.0 - t;
    var w := u * (1.0 + 2.0 * t);
    MulPositive(u, 1.0 + 2.0 * t);
    MulPositive(u, w);
    assert Hermite(t) == u * w;
  }

  /** The profile falls monotonically from apex to base. */
  lemma HermiteFalls(s: real, t: real)
    requires 0.0 <= s <= t <= 1.0
    ensures Hermite(t) <= Hermite(s)
  {
    // Hermite(s) - Hermite(t) == (t - s) * g, and g is a sum of products of
    // numbers in [0, 1]
    var g := 2.0 * s * (1.0 - s) + 2.0 * t * (1.0 - t) + s * (1.0 - t) + t * (1.0 - s);
    assert Hermite(s) - Hermite(t) == (t - s) * g;
    MulNonneg(s, 1.0 - s);
    MulNonneg(t, 1.0 - t);
    MulNonneg(s, 1.0 - t);
    MulNonneg(t, 1.0 - s);
    MulNonneg(t - s, g);
  }

  /** The z offset the bulge gives a cap vertex at radial distance `r`:
      `f(r / limbus) * 0.06`. */
  function BulgeOffset(r: real): real
  {
    Hermite(r / LimbusRadius) * BulgeHeight
  }

  /** The dome is exactly `bulgeHeight` high at the apex and meets the sphere
      at the limbus. */
  lemma BulgeOffsetEnds()
    ensures BulgeOffset(0.0) == BulgeHeight
    ensures BulgeOffset(LimbusRadius) == 0.0
  {
    assert 0.0 / LimbusRadius == 0.0 && LimbusRadius / LimbusRadius == 1.0;
    assert Hermite(0.0) == 1.0 && Hermite(1.0) == 0.0;
  }

  /** Inside the limbus the dome height lies in (0, bulgeHeight]. */
  lemma BulgeOffsetRange(r: real)
    requires 0.0 <= r < LimbusRadius
    ensures 0.0 < BulgeOffset(r) <= BulgeHeight
  {
    var t := r / LimbusRadius;
    assert 0.0 <= t < 1.0;
    HermiteRange(t);
    HermitePositive(t);
    MulPositive(Hermite(t), BulgeHeight);
    MulAtMost(Hermite(t), BulgeHeight);
  }

  /** One vertex of the cornea bulge loop. */
  function BulgeVertex(v: Vec3, sqrt: real -> real): (w: Vec3)
    requires IsSqrt(sqrt)
    ensures w.x == v.x && w.y == v.y
    // only the front cap inside the limbus moves
    ensures w != v <==> InCorneaCap(v)
    // it moves forward along the dome, by at most the bulge height
    ensures InCorneaCap(v) ==> w.z == v.z + BulgeOffset(sqrt(RadiusSq(v)))
    ensures InCorneaCap(v) ==> v.z < w.z <= v.z + BulgeHeight
  {
    if v.z > 0.0 then
      var r := sqrt(RadiusSq(v));
      RadiusSqNonneg(v);
      SquareBelow(r, LimbusRadius);
      if r < LimbusRadius then
        BulgeOffsetRange(r);
        Vec3(v.x, v.y, v.z + BulgeOffset(r))
      else
        v
    else
      v
  }

  /** On the axis the cornea rises by exactly the bulge height. */
  lemma BulgeApex(v: Vec3, sqrt: real -> real)
    requires IsSqrt(sqrt)
    requires v.x == 0.0 && v.y == 0.0 && v.z > 0.0
    ensures BulgeVertex(v, sqrt).z == v.z + BulgeHeight
  {
    var r := sqrt(RadiusSq(v));
    assert RadiusSq(v) == 0.0;
    if r > 0.0 {
      MulPositive(r, r);
    }
    BulgeOffsetEnds();
  }

  lemma RadiusSqNonneg(v: Vec3)
    ensures 0.0 <= RadiusSq(v)
  {
    SquareNonneg(v.x);
    SquareNonneg(v.y);
  }

  /** The loop over the cornea's position buffer: every vertex is replaced by
      its bulged position, in place; x, y and every vertex off the cap are left
      as they were. */
  method BulgeCornea(pos: array<Vec3>, sqrt: real -> real)
    requires IsSqrt(sqrt)
    modifies pos
    ensures forall i :: 0 <= i < pos.Length ==> pos[i] == BulgeVertex(old(pos[i]), sqrt)
    ensures forall i :: 0 <= i < pos.Length ==> pos[i].x == old(pos[i].x) && pos[i].y == old(pos[i].y)
    ensures forall i :: 0 <= i < pos.Length && !InCorneaCap(old(pos[i])) ==> pos[i] == old(pos[i])
  {
    var i := 0;
    while i < pos.Length
      invariant 0 <= i <= pos.Length
      invariant forall k :: 0 <= k < i ==> pos[k] == BulgeVertex(old(pos[k]), sqrt)
      invariant forall k :: i <= k < pos.Length ==> pos[k] == old(pos[k])
    {
      ghost var v := pos[i];
      var x, y, z := pos[i].x, pos[i].y, pos[i].z;
      if z > 0.0 {
        var r := sqrt(x * x + y * y);
        assert x * x + y * y == RadiusSq(v);
        var limbus := LimbusRadius;
        if r < limbus {
          var t := r / limbus;
          var f := 2.0 * t * t * t - 3.0 * t * t + 1.0;
          var bulge := f * BulgeHeight;
          assert bulge == BulgeOffset(r);
          pos[i] := Vec3(x, y, z + bulge);
        }
      }
      i := i + 1;
    }
  }
}
