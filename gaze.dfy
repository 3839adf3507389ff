/** The per-frame gaze controller of one eye (the `useFrame` callback of the
    `Eye` component): pick a target yaw/pitch and a smoothing speed for the
    selected animation mode, advance the saccade state machine, compute the
    hippus-modulated pupil size, and ease the eyeball group's rotation toward
    the target.

    Every `Math.random()` call is an explicit draw in [0, 1); `Math.sin` and
    `Math.cos` are function values assumed only to be bounded by 1. */
module Gaze {
  import opened Numeric

  datatype Mode = Mouse | Calm | Saccades | Scanning

  /** The pointer in normalised device coordinates. */
  datatype Pointer = Pointer(x: real, y: real)

  /** The persistent saccade record `{ nextMoveTime, targetX, targetY }`. */
  datatype Saccade = Saccade(nextMoveTime: real, targetX: real, targetY: real)

  /** The four `Math.random()` results a fired saccade consumes, in call order:
      the macro/micro choice, the yaw draw, the pitch draw, the pause draw. */
  datatype Draws = Draws(choice: real, first: real, second: real, pause: real)

  /** A target yaw, a target pitch and the smoothing speed for this frame. */
  datatype Aim = Aim(yaw: real, pitch: real, speed: real)

  const MaxYaw: real := 0.8
  const MaxPitch: real := 0.5

  /** The initial saccade record `{ nextMoveTime: 0, targetX: 0, targetY: 0 }`. */
  const InitialSaccade: Saccade := Saccade(0.0, 0.0, 0.0)

  predicate IsRandom(u: real)
  {
    0.0 <= u < 1.0
  }

  predicate ValidDraws(d: Draws)
  {
    IsRandom(d.choice) && IsRandom(d.first) && IsRandom(d.second) && IsRandom(d.pause)
  }

  /** The clamp box that keeps the eye from rolling back into the head. */
  predicate InSocket(x: real, y: real)
  {
    -MaxYaw <= x <= MaxYaw && -MaxPitch <= y <= MaxPitch
  }

  /** A fired saccade is a large dart when the first draw exceeds 0.8. */
  predicate IsMacro(d: Draws)
  {
    d.choice > 0.8
  }

  /** Fixation pause after a saccade: `random * 1.0 + 0.5` after a dart,
      `random * 0.2 + 0.05` after a micro-saccade. */
  function Pause(macro: bool, u: real): (p: real)
    requires IsRandom(u)
    ensures macro ==> 0.5 <= p < 1.5
    ensures !macro ==> 0.05 <= p < 0.25
  {
    if macro then u * 1.0 + 0.5 else u * 0.2 + 0.05
  }

  /** The body of the saccade branch once `t > nextMoveTime`: a dart to a fresh
      target or a small delta added to the old one, clamped to the socket, and
      the next move scheduled. */
  function Jump(s: Saccade, t: real, d: Draws): (s': Saccade)
    requires ValidDraws(d)
    ensures InSocket(s'.targetX, s'.targetY)
    ensures t < s'.nextMoveTime
    ensures IsMacro(d) ==> t + 0.5 <= s'.nextMoveTime < t + 1.5
    ensures !IsMacro(d) ==> t + 0.05 <= s'.nextMoveTime < t + 0.25
  {
    var macro := d.choice > 0.8;
    var x := if macro then (d.first - 0.5) * 1.2 else s.targetX + (d.first - 0.5) * 0.2;
    var y := if macro then (d.second - 0.5) * 0.8 else s.targetY + (d.second - 0.5) * 0.2;
    Saccade(t + Pause(macro, d.pause), Clamp(x, -MaxYaw, MaxYaw), Clamp(y, -MaxPitch, MaxPitch))
  }

  /** One frame of the saccade state machine. */
  function SaccadeStep(s: Saccade, t: real, d: Draws): (s': Saccade)
    requires ValidDraws(d)
    // hold: before the scheduled time nothing changes
    ensures t <= s.nextMoveTime ==> s' == s
    // fire: after it, the next move is strictly in the future
    ensures s.nextMoveTime < t ==> t < s'.nextMoveTime
    // the clamp box is an invariant of the record
    ensures InSocket(s.targetX, s.targetY) ==> InSocket(s'.targetX, s'.targetY)
  {
    if t > s.nextMoveTime then Jump(s, t, d) else s
  }

  /** A dart lands in [-0.6, 0.6) x [-0.4, 0.4), so the clamp leaves it alone. */
  lemma MacroTargetUnclamped(s: Saccade, t: real, d: Draws)
    requires ValidDraws(d) && IsMacro(d)
    ensures Jump(s, t, d).targetX == (d.first - 0.5) * 1.2
    ensures Jump(s, t, d).targetY == (d.second - 0.5) * 0.8
    ensures -0.6 <= Jump(s, t, d).targetX < 0.6
    ensures -0.4 <= Jump(s, t, d).targetY < 0.4
  {
  }

  /** A micro-saccade from inside the socket moves each coordinate by less than
      0.1, and exactly by its delta when the clamp does not bite. */
  lemma MicroStepSmall(s: Saccade, t: real, d: Draws)
    requires ValidDraws(d) && !IsMacro(d)
    requires InSocket(s.targetX, s.targetY)
    ensures Abs(Jump(s, t, d).targetX - s.targetX) <= 0.1
    ensures Abs(Jump(s, t, d).targetY - s.targetY) <= 0.1
    ensures InSocket(s.targetX + (d.first - 0.5) * 0.2, s.targetY + (d.second - 0.5) * 0.2) ==>
      Jump(s, t, d).targetX == s.targetX + (d.first - 0.5) * 0.2 &&
      Jump(s, t, d).targetY == s.targetY + (d.second - 0.5) * 0.2
  {
  }

  /** The saccade state after a run of frames, each with its own clock value
      and draws. */
  function SaccadeRun(s: Saccade, ts: seq<real>, ds: seq<Draws>): Saccade
    requires |ts| == |ds|
    requires forall i :: 0 <= i < |ds| ==> ValidDraws(ds[i])
    decreases |ts|
  {
    if ts == [] then s else SaccadeRun(SaccadeStep(s, ts[0], ds[0]), ts[1..], ds[1..])
  }

  /** From any record inside the clamp box (the initial record `(0, 0)` is
      one), the targets stay in the box over any number of frames. */
  lemma {:induction false} SaccadeAlwaysInSocket(s: Saccade, ts: seq<real>, ds: seq<Draws>)
    requires |ts| == |ds|
    requires forall i :: 0 <= i < |ds| ==> ValidDraws(ds[i])
    requires InSocket(s.targetX, s.targetY)
    ensures InSocket(SaccadeRun(s, ts, ds).targetX, SaccadeRun(s, ts, ds).targetY)
    decreases |ts|
  {
    if ts != [] {
      var s' := SaccadeStep(s, ts[0], ds[0]);
      assert forall i :: 0 <= i < |ds[1..]| ==> ValidDraws(ds[1..][i]) by {
        forall i | 0 <= i < |ds[1..]| ensures ValidDraws(ds[1..][i]) {
          assert ds[1..][i] == ds[i + 1];
        }
      }
      SaccadeAlwaysInSocket(s', ts[1..], ds[1..]);
    }
  }

  /** The target and smoothing speed of one frame. `s` is the saccade record
      after this frame's saccade step (only read in saccade mode). */
  function ModeAim(mode: Mode, t: real, pointer: Pointer, sin: real -> real, cos: real -> real, s: Saccade): (a: Aim)
    ensures 0.0 < a.speed < 1.0
    ensures mode == Mouse ==> a.speed == 0.08 && a.yaw == pointer.x * Pi / 4.0 && a.pitch == pointer.y * Pi / 4.0
    ensures mode == Calm ==> a.speed == 0.02
    ensures mode == Saccades ==> a.speed == 0.4 && a.yaw == s.targetX && a.pitch == s.targetY
    ensures mode == Scanning ==> a.speed == 0.05
    ensures mode == Calm && Bounded(sin) && Bounded(cos) ==> Abs(a.yaw) <= 0.25 && Abs(a.pitch) <= 0.15
    ensures mode == Scanning && Bounded(sin) ==> Abs(a.yaw) <= 0.5 && Abs(a.pitch) <= 0.1
  {
    match mode
    case Mouse => Aim(pointer.x * Pi / 4.0, pointer.y * Pi / 4.0, 0.08)
    case Calm =>
      Aim(sin(t * 0.5) * 0.15 + sin(t * 0.2) * 0.1, cos(t * 0.4) * 0.1 + sin(t * 0.1) * 0.05, 0.02)
    case Saccades => Aim(s.targetX, s.targetY, 0.4)
    case Scanning => Aim(sin(t * 1.2) * 0.5, sin(t * 0.5) * 0.1, 0.05)
  }

  /** Hippus: the small oscillation added to the configured pupil size. */
  function Hippus(sin: real -> real, t: real): (h: real)
    ensures Bounded(sin) ==> -0.015 <= h <= 0.015
  {
    sin(t * 2.0) * 0.005 + sin(t * 0.5) * 0.01
  }

  /** Exponential smoothing toward a fixed target for `n` frames. */
  function Ease(x: real, target: real, speed: real, n: nat): real
    decreases n
  {
    if n == 0 then x else Ease(Lerp(x, target, speed), target, speed, n - 1)
  }

  function Power(q: real, n: nat): real
  {
    if n == 0 then 1.0 else q * Power(q, n - 1)
  }

  /** After `n` frames at a held target the remaining gap is exactly
      `(1 - speed)^n` times the initial gap. */
  lemma {:induction false} EaseGap(x: real, target: real, speed: real, n: nat)
    ensures Ease(x, target, speed, n) - target == Power(1.0 - speed, n) * (x - target)
    decreases n
  {
    if n > 0 {
      var q := 1.0 - speed;
      var x' := Lerp(x, target, speed);
      EaseGap(x', target, speed, n - 1);
      var p := Power(q, n - 1);
      var g := x - target;
      assert x' - target == q * g;
      assert Power(q, n) == q * p;
      Regroup(p, q, g);
    }
  }

  lemma Regroup(p: real, q: real, g: real)
    ensures p * (q * g) == (q * p) * g
  {
  }

  /** For a speed in (0, 1] the gap never grows and the factor stays in [0, 1). */
  lemma {:induction false} PowerShrinks(q: real, n: nat)
    requires 0.0 <= q < 1.0
    ensures 0.0 <= Power(q, n) <= 1.0
    ensures n > 0 ==> Power(q, n) <= q
  {
    if n > 0 {
      PowerShrinks(q, n - 1);
      MulNonneg(q, Power(q, n - 1));
      MulAtMost(Power(q, n - 1), q);
    }
  }

  /** The eyeball group's rotation together with the saccade record: the state
      the frame callback updates in place. */
  class EyeGaze {
    var rotX: real
    var rotY: real
    var nextMoveTime: real
    var targetX: real
    var targetY: real

    ghost predicate Valid()
      reads this
    {
      InSocket(targetX, targetY)
    }

    function SaccadeState(): Saccade
      reads this
    {
      Saccade(nextMoveTime, targetX, targetY)
    }

    constructor ()
      ensures Valid()
      ensures rotX == 0.0 && rotY == 0.0
      ensures SaccadeState() == InitialSaccade
    {
      rotX, rotY := 0.0, 0.0;
      nextMoveTime, targetX, targetY := 0.0, 0.0, 0.0;
    }

    /** One rendered frame at clock time `t`. `mounted` says whether the
        eyeball group is attached; the result is the pupil size sent to the
        shader. */
    method Frame(mode: Mode, t: real, pointer: Pointer, draws: Draws,
                 sin: real -> real, cos: real -> real, pupilSize: real, mounted: bool)
      returns (pupil: real)
      requires Valid()
      requires ValidDraws(draws)
      modifies this
      ensures Valid()
      ensures SaccadeState() ==
        if mode == Saccades then SaccadeStep(old(SaccadeState()), t, draws) else old(SaccadeState())
      ensures var aim := ModeAim(mode, t, pointer, sin, cos, SaccadeState());
        if mounted then
          rotY == Lerp(old(rotY), aim.yaw, aim.speed) && rotX == Lerp(old(rotX), -aim.pitch, aim.speed)
        else
          rotY == old(rotY) && rotX == old(rotX)
      ensures pupil == pupilSize + Hippus(sin, t)
    {
      var goalX, goalY, lerpSpeed := 0.0, 0.0, 0.08;
      if mode == Mouse {
        goalX := pointer.x * Pi / 4.0;
        goalY := pointer.y * Pi / 4.0;
      } else if mode == Calm {
        goalX := sin(t * 0.5) * 0.15 + sin(t * 0.2) * 0.1;
        goalY := cos(t * 0.4) * 0.1 + sin(t * 0.1) * 0.05;
        lerpSpeed := 0.02;
      } else if mode == Saccades {
        if t > nextMoveTime {
          var isMacro := draws.choice > 0.8;
          if isMacro {
            targetX := (draws.first - 0.5) * 1.2;
            targetY := (draws.second - 0.5) * 0.8;
          } else {
            targetX := targetX + (draws.first - 0.5) * 0.2;
            targetY := targetY + (draws.second - 0.5) * 0.2;
          }
          targetX := Clamp(targetX, -MaxYaw, MaxYaw);
          targetY := Clamp(targetY, -MaxPitch, MaxPitch);
          var pause := if isMacro then draws.pause * 1.0 + 0.5 else draws.pause * 0.2 + 0.05;
          nextMoveTime := t + pause;
        }
        goalX := targetX;
        goalY := targetY;
        lerpSpeed := 0.4;
      } else if mode == Scanning {
        goalX := sin(t * 1.2) * 0.5;
        goalY := sin(t * 0.5) * 0.1;
        lerpSpeed := 0.05;
      }

      pupil := pupilSize;
      pupil := pupil + (sin(t * 2.0) * 0.005 + sin(t * 0.5) * 0.01);

      if mounted {
        rotY := Lerp(rotY, goalX, lerpSpeed);
        rotX := Lerp(rotX, -goalY, lerpSpeed);
      }
    }
  }
}
