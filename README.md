# eye-sim: a verified model of the eye and face components

This project models the two components of eye-sim that contain logic: the
procedural `Eye` and the rigged `Face` that carries two of them. It states
and proves, in Dafny, what they promise.

- `numeric.dfy` (`Numeric`) holds the shared scalar helpers: three.js
  `MathUtils.clamp` and `MathUtils.lerp`, GLSL `clamp`, `mix` and
  `smoothstep`, `Math.PI`, and a three-component vector. `Math.sin`,
  `Math.cos` and `Math.sqrt` are function values. The only facts the model
  assumes about them are stated as predicates: `Bounded` (values in [-1, 1])
  and `IsSqrt`.
- `gaze.dfy` (`Gaze`) models the per-frame callback of `Eye`. It covers the
  four animation modes, the saccade state machine with its persistent
  `{nextMoveTime, targetX, targetY}` record, hippus, and the exponential
  smoothing of the eyeball group's rotation. `EyeGaze` is a class whose
  fields the `Frame` method updates in place. Every `Math.random()` result is
  an explicit draw in [0, 1).
- `geometry.dfy` (`Geometry`) models two mesh deformations:
  - the iris bowl of the inner shell's vertex shader, for both position and
    normal;
  - the cornea bulge loop, an in-place pass over the outer shell's position
    buffer, held as an array.
- `shading.dfy` (`Shading`) models three scalar parts of the fragment
  shaders: the five-octave `fbm` loop (with `snoise` as a bounded function
  value), the iris's radial coordinate `normalizedR`, and the cornea's
  reflection alpha mask.
- `face.dfy` (`Face`) models the `Face` component:
  - collecting morph meshes and building the node-name record from a scene
    traversal;
  - the fallback node lookups;
  - the per-frame blendshape and bone writes;
  - the view-mode effect, which hides the built-in eyes and caches each
    mesh's original material;
  - the placement of the two custom eyes, the right one mirrored.

  Scene objects form a class whose fields these operations update in place.
  A traversal is the sequence of objects in visiting order.

## Model

| member | source | states |
|---|---|---|
| Numeric.Clamp | src/components/Eye.tsx:49-50 | For `lo <= hi` the result lies in [lo, hi]. It equals the value inside the range, `lo` below it and `hi` above it. |
| Numeric.Lerp | src/components/Eye.tsx:81-82 | The remaining distance to the target is `(1 - t)` times the old distance. Equivalently, the step is a fraction `t` of the gap. Weight 0 keeps the start and weight 1 lands on the target. |
| Numeric.LerpBetween | src/components/Eye.tsx:81-82 | For a weight in [0, 1] the smoothed rotation lies between the old rotation and the target. For any positive weight it is strictly closer to a different target. |
| Numeric.SmoothStep | src/components/Eye.tsx:307-312 | For increasing edges the result lies in [0, 1]. It is 0 at or below the lower edge and 1 at or above the upper edge. |
| Gaze.Pause | src/components/Eye.tsx:52 | A dart's pause lies in [0.5, 1.5) and a micro-saccade's in [0.05, 0.25). |
| Gaze.Jump | src/components/Eye.tsx:38-53 | A fired saccade leaves the target inside the clamp box [-0.8, 0.8] x [-0.5, 0.5]. It schedules the next move strictly after `t`, within the pause range of the branch taken. The branch is a dart exactly when the first draw exceeds 0.8. |
| Gaze.SaccadeStep | src/components/Eye.tsx:37-54 | Up to `nextMoveTime` the record is unchanged. After it, the next move lies in the future. The clamp box is preserved. |
| Gaze.MacroTargetUnclamped | src/components/Eye.tsx:40-50 | A dart lands in [-0.6, 0.6) x [-0.4, 0.4), so the clamp leaves its target as drawn. |
| Gaze.MicroStepSmall | src/components/Eye.tsx:43-50 | From inside the box, a micro-saccade moves each coordinate by at most 0.1. It moves exactly by the drawn delta when the clamp does not apply. |
| Gaze.SaccadeAlwaysInSocket | src/components/Eye.tsx:19-54 | Starting inside the clamp box, as the initial record `(0, 0)` is, the target stays inside it across any sequence of frames. |
| Gaze.ModeAim | src/components/Eye.tsx:25-62 | The smoothing speeds are 0.08, 0.02, 0.4 and 0.05 for mouse, calm, saccades and scanning. The mouse target is pointer·π/4. The saccade target is the stored record. With bounded sine and cosine, calm targets stay within 0.25 / 0.15 and scanning targets within 0.5 / 0.1. |
| Gaze.Hippus | src/components/Eye.tsx:65-66 | With a bounded sine, the pupil size stays within ±0.015 of the configured size. |
| Gaze.EaseGap | src/components/Eye.tsx:81-82 | After `n` frames at a held target, the gap is `(1 - speed)^n` times the initial gap. |
| Gaze.PowerShrinks | src/components/Eye.tsx:81-82 | For a factor in [0, 1) every power lies in [0, 1], and a positive power is at most the factor. So the gap never grows. |
| Gaze.EyeGaze.constructor | src/components/Eye.tsx:19 | The initial record is `{0, 0, 0}`, inside the clamp box. |
| Gaze.EyeGaze.Frame | src/components/Eye.tsx:21-83 | The saccade record advances by `SaccadeStep` only in saccade mode and otherwise stays unchanged. When the group is mounted, rotation y eases toward the mode's yaw and rotation x toward minus its pitch, at the mode's speed; otherwise both stay. The returned pupil size is the configured size plus hippus. The clamp box is an invariant. |
| Geometry.BowlPosition | src/components/Eye.tsx:110-117 | x and y are kept. A vertex moves exactly when it lies on the front cap inside the iris radius. There z moves by the bowl height at (x, y): back by at most the 0.2 depth, and by exactly the depth on the axis. |
| Geometry.BowlHeight | src/components/Eye.tsx:115-116 | Inside the iris radius, the bowl sinks by at most the 0.2 depth. It sinks by exactly the depth on the axis and not at all on the rim. |
| Geometry.BowlSlope | src/components/Eye.tsx:129-130 | The slope is `2 * 0.2 / 0.46²` times the coordinate. It is zero exactly on the axis and positive for positive coordinates. |
| Geometry.BowlEnds | src/components/Eye.tsx:115 | The bowl factor is 1 on the axis and 0 at the iris rim, so the bowl meets the sphere without a step. |
| Geometry.CapByLength | src/components/Eye.tsx:110-115 | The squared-radius cap test agrees with `length(position.xy) < 0.46`. `pow(r / 0.46, 2)` equals the squared radius over 0.46². |
| Geometry.BowlSlopeIsDerivative | src/components/Eye.tsx:129-131 | `dzdx` and `dzdy` are the partial derivatives of the displacement. The direction `(-dzdx, -dzdy, 1)` is perpendicular to both tangents of the bowl. |
| Geometry.Normalize | src/components/Eye.tsx:131 | `normalize` yields a unit vector parallel to its argument and pointing the same way. |
| Geometry.BowlNormal | src/components/Eye.tsx:125-132 | The normal is replaced on exactly the cap that the position displaces, by a unit vector along `(-dzdx, -dzdy, 1)`. Elsewhere it is kept. |
| Geometry.Hermite | src/components/Eye.tsx:336 | The profile `2t³ - 3t² + 1` factors as `(1 - t)²(1 + 2t)`. Its double root at the base means the dome meets the sphere tangentially. |
| Geometry.BulgeOffset | src/components/Eye.tsx:335-337 | Defines the bulge at radius r as `f(r / 0.55) * 0.06`. Its values are given by `BulgeOffsetEnds` and `BulgeOffsetRange`. |
| Geometry.HermiteProfile | src/components/Eye.tsx:332-336 | The dome profile is 1 at the tip and 0 at the base. Its derivative vanishes at both ends. |
| Geometry.HermiteRange | src/components/Eye.tsx:336 | On [0, 1] the profile stays in [0, 1]. |
| Geometry.HermitePositive | src/components/Eye.tsx:336 | Before the base the profile is strictly positive. |
| Geometry.HermiteFalls | src/components/Eye.tsx:336 | The profile falls monotonically from tip to base. |
| Geometry.BulgeOffsetEnds | src/components/Eye.tsx:335-337 | The bulge is exactly 0.06 at the apex and 0 at the limbus. |
| Geometry.BulgeOffsetRange | src/components/Eye.tsx:335-337 | Inside the limbus the bulge lies in (0, 0.06]. |
| Geometry.BulgeVertex | src/components/Eye.tsx:325-339 | x and y are kept. A vertex moves exactly when `z > 0` and `r < 0.55`. It then moves forward by the dome height at its radius, which lies in (0, 0.06]. |
| Geometry.BulgeApex | src/components/Eye.tsx:328-338 | The vertex on the axis rises by exactly 0.06. |
| Geometry.BulgeCornea | src/components/Eye.tsx:324-341 | Every buffer entry is replaced by its bulged position. x and y are unchanged everywhere, and every vertex off the cap is unchanged. |
| Shading.Octaves | src/components/Eye.tsx:174-183 | Defines the octave sum: each octave adds amplitude times noise, then doubles the point and halves the amplitude. `Fbm` is proved equal to it and `OctavesBound` bounds it. |
| Shading.OctavesBound | src/components/Eye.tsx:174-183 | With a noise bounded by 1, a sum of octaves is bounded by the total of its amplitudes. |
| Shading.FbmAmplitude | src/components/Eye.tsx:176-180 | Five octaves starting at amplitude 0.5 total 0.96875. |
| Shading.Fbm | src/components/Eye.tsx:174-183 | The loop computes the five-octave sum. With a noise bounded by 1, the result lies in [-0.96875, 0.96875]. |
| Shading.NormalizedR | src/components/Eye.tsx:205-206 | The coordinate lies in [0, 1]. It is 0 inside the pupil, 1 at or beyond the limbus, and in between the fraction of the way from the pupil edge to the limbus. |
| Shading.NormalizedRMonotone | src/components/Eye.tsx:206 | The coordinate never decreases outward. |
| Shading.FadeOut | src/components/Eye.tsx:307-312 | `1 - smoothstep` lies in [0, 1]. It is 1 up to the lower edge and 0 from the upper edge on. |
| Shading.CorneaAlpha | src/components/Eye.tsx:306-315 | The mask never raises a non-negative alpha. It leaves alpha unchanged near the iris and the horizon (r ≤ 0.5, \|y\| ≤ 0.35). It clears alpha at the rim (r ≥ 0.85) and behind the eyelids (\|y\| ≥ 0.7). |
| Face.MorphMeshes | src/components/Face.tsx:33-41 | The collected list holds exactly the traversed objects that are meshes with influences, and is no longer than the traversal. |
| Face.CollectMorphMeshes | src/components/Face.tsx:33-41 | The push loop returns exactly `MorphMeshes` of the traversal. |
| Face.NameMap | src/components/Face.tsx:44-50 | The record has a key for exactly the names in the traversal. Each key maps to a traversed object of that name. |
| Face.NameMapLastWins | src/components/Face.tsx:46-48 | A name maps to the last traversed object carrying it: a later child overwrites an earlier one. |
| Face.BuildNodeMap | src/components/Face.tsx:44-50 | The traversal callback builds exactly that record. |
| Face.FirstPresent | src/components/Face.tsx:93 | `nodes[a] \|\| nodes[b] \|\| …` finds nothing exactly when no key is present. Otherwise it yields a node of the record, stored under a present key that no earlier key precedes. |
| Face.EyeLookupOrder | src/components/Face.tsx:155-156 | When both are present, the frame loop (lines 100 and 103) picks `grp_eyeLeft` / `grp_eyeRight` while the portals pick `eyeLeft` / `eyeRight`. With only one of the two present, both uses agree. |
| Face.ApplyControls | src/components/Face.tsx:83-88 | Writing the controls keeps the number of influences. |
| Face.ControlsLeaveOthers | src/components/Face.tsx:84-87 | An influence whose index no control's name maps to keeps its value. This includes every influence when no name is in the dictionary. |
| Face.ControlsLastWins | src/components/Face.tsx:83-87 | A control whose name has an index, and whose index no later control writes, leaves its value there. |
| Face.WriteControls | src/components/Face.tsx:83-88 | The in-place loop leaves the influence array equal to `ApplyControls` of its old contents. |
| Face.ApplyBlendshapes | src/components/Face.tsx:81-90 | Every mesh with a dictionary and influences gets `ApplyControls` of its old influences. The frame allows no other array to change. |
| Face.LastWrite | src/components/Face.tsx:96-104 | After a sequence of writes to looked-up nodes, an object holds the last value written to it, or its old value when no write hit it. |
| Face.RigYaw | src/components/Face.tsx:96-104 | A node's new yaw is the last of the three yaw writes (head, left eye, right eye) that hits it. |
| Face.RotateNodes | src/components/Face.tsx:94-104 | The head node takes pitch and roll. Yaw follows the write order head, left eye, right eye, so a node found in two roles keeps the last yaw. |
| Face.ApplyRig | src/components/Face.tsx:92-104 | On the head node, x and z become head pitch and roll. On the head and eye nodes, y follows the write order (head, left eye, right eye). Every other rotation is unchanged, including every rotation when no node is found. |
| Face.LowerChar | src/components/Face.tsx:115-116 | Lowering leaves no ASCII capital. It shifts capitals by 32 and keeps every other character. |
| Face.Lower | src/components/Face.tsx:115-116 | Lowering keeps the length and leaves no ASCII capital. It shifts each capital by 32 and keeps every other character. |
| Face.LowerIdempotent | src/components/Face.tsx:115-116 | Lowering keeps the length, is idempotent, and leaves no capital. |
| Face.Includes | src/components/Face.tsx:117 | `includes` holds exactly when the substring occurs at some offset. |
| Face.ParentName | src/components/Face.tsx:116 | With the `\|\| ''` fallback, the parent's name is empty exactly when there is no parent or the parent's name is empty. Otherwise it is the parent's name. |
| Face.EyeHidden | src/components/Face.tsx:117 | A mesh is hidden exactly when custom eyes are shown and `eye` occurs in its own lower-cased name or its parent's. |
| Face.PortalEyeNodesHidden | src/components/Face.tsx:115-118 | While custom eyes are shown, a mesh named `eyeLeft` or `eyeRight` is hidden, whatever its parent. These are the names the portals prefer at lines 155-156. |
| Face.EyeHiddenIgnoresCase | src/components/Face.tsx:115-117 | The hiding rule is insensitive to case, and nothing is hidden while the custom eyes are off. `EyeLeft` and a child of `grp_eyeRight` are hidden; `head` is not. |
| Face.StyleMesh | src/components/Face.tsx:110-150 | A mesh is visible exactly when the eye rule does not hide it. The original material is cached only when none is cached yet. A known view mode's material is built from the cached original. |
| Face.RestyleKeepsOriginal | src/components/Face.tsx:123-126 | After two passes the cache still holds the material from before the first pass. A second pass builds from it, not from the first pass's material. |
| Face.StyleScene | src/components/Face.tsx:108-153 | Every traversed mesh is styled as `StyleMesh` states. Every object that is not a mesh keeps its visibility and materials. |
| Face.Mirror | src/components/Face.tsx:162-168 | The right eye's group keeps the scale of the left one. |
| Face.MirrorInvolution | src/components/Face.tsx:162-168 | Mirroring twice gives the left placement back. A placement is its own mirror exactly when x, yaw and roll are 0. |
| Face.EyePortals | src/components/Face.tsx:155-172 | No eye is mounted while custom eyes are off. Each eye is mounted exactly when its node is found, under the node the portal lookup finds. The right eye's placement is the mirror of the left one's. |

## Left out

- `snoise`, `Math.sin`, `Math.cos` and `Math.sqrt` are function values. The model relies only on their bounds and on the defining property of the square root; their definitions (the simplex kernel's `mod`/`floor`/`fract` arithmetic) are not modelled.
- The iris, sclera and pupil colour synthesis of the fragment shader, beyond `normalizedR`, is not modelled. It is visual, depends on `atan` and `pow`, and several of its `smoothstep` calls use decreasing edges, which GLSL leaves undefined.
- The following are library behaviour: `computeVertexNormals`, sphere tessellation, the uniform plumbing through `userData.shader`, three.js material construction, GLTF/KTX2 loading, control panels, and React/`useFrame` scheduling.
- Floating-point rounding: all arithmetic is over `real`.
- Gaze.EyeGaze.Frame: the pupil size is returned rather than written into the `uPupilSize` uniform, and the colour uniforms are not modelled.
- Geometry.BulgeCornea: the position buffer is an array of vectors, not the flat float array of three components per vertex that three.js stores.
- Shading.NormalizedR: requires the pupil radius to differ from 0.46. At 0.46 the shader divides by zero, and GLSL leaves the result undefined.
- Numeric.SmoothStep: requires increasing edges, as all modelled uses have. Section 8.3 of the OpenGL ES Shading Language 3.00 specification leaves other edges undefined.
- Face.LowerChar: lowers ASCII letters only, not the full Unicode case mapping of `toLowerCase`.
- Face.Lower: the pointwise ASCII lowering, so it keeps the length, which `toLowerCase` does not always do (some characters lower to two). The hiding rule is unaffected, because only `E`/`e` and `Y`/`y` lower to the letters of `eye`.
- Face.ApplyBlendshapes: requires every dictionary index to address an existing influence, since three.js builds both together. A JavaScript array's growth on an out-of-range write is not modelled. It also requires distinct influence arrays, because the traversal lists each mesh once and each mesh owns its array.
- Face.StyleScene: requires the traversal to list each object once. The tree walk of `traverse` itself is not modelled; a traversal is its visiting sequence.
- Face.StyleMesh: the constructed materials are a function parameter `build(mode, original)`, and view-mode strings other than the five known ones are `Unknown`.
- `Eye` accepts an `isRightEye` prop but never reads it. The only left/right difference is the mirrored placement of the right eye's portal group (`Face.Mirror`). Each eye's own rotation follows the same targets, with no yaw negation inside `Eye`. The model follows the code.
