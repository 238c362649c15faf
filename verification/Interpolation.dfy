/** Smoothing between received snapshots (runtime/src/Interpolation.cpp), over the reals. */
module Interpolation {
  import opened NetworkState

  datatype Axis = X | Y | Z
  datatype Angle = Pitch | Yaw | Roll

  function Coordinate(v: Vector3, a: Axis): real {
    match a case X => v.x case Y => v.y case Z => v.z
  }

  function Degrees(r: Rotation3, a: Angle): real {
    match a case Pitch => r.pitch case Yaw => r.yaw case Roll => r.roll
  }

  /** The fields of an `InterpolatedEntity`. */
  datatype Motion = Motion(previous: Snapshot, target: Snapshot, startMs: int, durationMs: int, hasTarget: bool)

  const FRESH := Motion(BLANK, BLANK, 0, 100, false)

  function Lerp(from: real, to: real, t: real): real {
    from + (to - from) * t
  }

  /** C's `fmod(x, 360.0)`: the quotient is cut off towards zero, so the sign is that of x. */
  function Fmod360(x: real): real {
    x - 360.0 * Truncate(x / 360.0) as real
  }

  /** The signed step `LerpAngle` takes over a whole transition. */
  function AngleStep(from: real, to: real): real {
    var delta := Fmod360(to - from + 180.0);
    (if delta < 0.0 then delta + 360.0 else delta) - 180.0
  }

  function LerpAngle(from: real, to: real, t: real): real {
    from + AngleStep(from, to) * t
  }

  /** How far into the transition `now` is, clamped to [0, 1]. */
  function Progress(m: Motion, nowMs: int): (t: real)
    ensures 0.0 <= t <= 1.0
  {
    var t := if m.durationMs > 0 then (nowMs - m.startMs) as real / m.durationMs as real else 1.0;
    if t < 0.0 then 0.0 else if t > 1.0 then 1.0 else t
  }

  function LerpVector(from: Vector3, to: Vector3, t: real): Vector3 {
    Vector3(Lerp(from.x, to.x, t), Lerp(from.y, to.y, t), Lerp(from.z, to.z, t))
  }

  function LerpRotation(from: Rotation3, to: Rotation3, t: real): Rotation3 {
    Rotation3(LerpAngle(from.pitch, to.pitch, t), LerpAngle(from.yaw, to.yaw, t), LerpAngle(from.roll, to.roll, t))
  }

  function Shown(m: Motion, nowMs: int): Snapshot {
    if !m.hasTarget then BLANK
    else
      var t := Progress(m, nowMs);
      Snapshot(
        LerpVector(m.previous.position, m.target.position, t),
        LerpRotation(m.previous.rotation, m.target.rotation, t),
        m.target.basicState,
        nowMs)
  }

  function Retargeted(m: Motion, s: Snapshot, nowMs: int): Motion {
    if !m.hasTarget then Motion(s, s, nowMs, m.durationMs, true)
    else Motion(Shown(m, nowMs), s, nowMs, m.durationMs, true)
  }

  // ---------- the object ----------

  class InterpolatedEntity {
    var previous: Snapshot
    var target: Snapshot
    var transitionStartMs: int
    var durationMs: int
    var hasTarget: bool

    ghost function State(): Motion reads this {
      Motion(previous, target, transitionStartMs, durationMs, hasTarget)
    }

    constructor ()
      ensures State() == FRESH
    {
      previous, target, transitionStartMs, durationMs, hasTarget := BLANK, BLANK, 0, 100, false;
    }

    method Current(nowMs: int) returns (result: Snapshot)
      ensures result == Shown(State(), nowMs)
    {
      if !hasTarget { return BLANK; }
      var elapsed := nowMs - transitionStartMs;
      var t := if durationMs > 0 then elapsed as real / durationMs as real else 1.0;
      if t < 0.0 { t := 0.0; }
      if t > 1.0 { t := 1.0; }
      result := Snapshot(
        LerpVector(previous.position, target.position, t),
        LerpRotation(previous.rotation, target.rotation, t),
        target.basicState,
        nowMs);
    }

    method SetTarget(newState: Snapshot, nowMs: int)
      modifies this
      ensures State() == Retargeted(old(State()), newState, nowMs)
    {
      if !hasTarget {
        previous := newState;
        target := newState;
        transitionStartMs := nowMs;
        hasTarget := true;
        return;
      }
      previous := Current(nowMs);
      target := newState;
      transitionStartMs := nowMs;
    }
  }

  // ---------- shortest arc ----------

  /** Two angles that look the same. */
  ghost predicate Congruent(a: real, b: real) {
    exists k: int :: Turns(a, b, k)
  }

  ghost predicate Turns(a: real, b: real, k: int) { a == b + 360.0 * k as real }

  lemma Fmod360Range(x: real)
    ensures -360.0 < Fmod360(x) < 360.0
    ensures x >= 0.0 ==> Fmod360(x) >= 0.0
    ensures x < 0.0 ==> Fmod360(x) <= 0.0
  {
    var q := x / 360.0;
    assert x == 360.0 * q;
    if q >= 0.0 {
      assert q.Floor as real <= q < q.Floor as real + 1.0;
    } else {
      assert (0.0 - q).Floor as real <= 0.0 - q < (0.0 - q).Floor as real + 1.0;
    }
  }

  /** The step is at most half a turn either way, ends on the target angle up to whole turns, and is the
      smallest step that does. */
  lemma ShortestArc(from: real, to: real)
    ensures -180.0 <= AngleStep(from, to) < 180.0
    ensures Congruent(from + AngleStep(from, to), to)
    ensures forall step: real :: Congruent(from + step, to) ==> Magnitude(AngleStep(from, to)) <= Magnitude(step)
  {
    var x := to - from + 180.0;
    Fmod360Range(x);
    var d := AngleStep(from, to);
    var k := if Fmod360(x) < 0.0 then 1 - Truncate(x / 360.0) else -Truncate(x / 360.0);
    assert d == to - from + 360.0 * k as real;
    assert Turns(from + d, to, k);
    forall step: real | Congruent(from + step, to)
      ensures Magnitude(d) <= Magnitude(step)
    {
      var j :| Turns(from + step, to, j);
      assert step == d + 360.0 * (j - k) as real;
      if j - k >= 1 { assert 360.0 * (j - k) as real >= 360.0; }
      if j - k <= -1 { assert 360.0 * (j - k) as real <= -360.0; }
    }
  }

  function Magnitude(x: real): real { if x < 0.0 then 0.0 - x else x }

  // ---------- one transition ----------

  lemma LerpBetween(from: real, to: real, t: real, lo: real, hi: real)
    requires 0.0 <= t <= 1.0 && lo <= from <= hi && lo <= to <= hi
    ensures lo <= Lerp(from, to, t) <= hi
  {
    var gap := if to >= from then to - from else from - to;
    NonNegative(gap, t);
    NonNegative(gap, 1.0 - t);
    assert gap * (1.0 - t) == gap - gap * t;
    assert (to - from) * t == if to >= from then gap * t else 0.0 - gap * t;
  }

  lemma NonNegative(a: real, b: real)
    requires a >= 0.0 && b >= 0.0
    ensures a * b >= 0.0
  {
  }

  /** What is left of a gap only shrinks as more of it is covered. */
  lemma RemainderShrinks(gap: real, t: real, u: real)
    requires 0.0 <= t <= u <= 1.0
    ensures Magnitude(gap - gap * u) <= Magnitude(gap - gap * t)
  {
    var size := Magnitude(gap);
    NonNegative(size, u - t);
    NonNegative(size, 1.0 - u);
    assert size * (u - t) == size * u - size * t && size * (1.0 - u) == size - size * u;
    assert gap * t == if gap < 0.0 then 0.0 - size * t else size * t;
    assert gap * u == if gap < 0.0 then 0.0 - size * u else size * u;
  }

  lemma LerpApproaches(from: real, to: real, t: real, u: real)
    requires 0.0 <= t <= u <= 1.0
    ensures Magnitude(to - Lerp(from, to, u)) <= Magnitude(to - Lerp(from, to, t))
  {
    var gap := to - from;
    assert to - Lerp(from, to, t) == gap - gap * t && to - Lerp(from, to, u) == gap - gap * u;
    RemainderShrinks(gap, t, u);
  }

  lemma StepApproaches(from: real, step: real, t: real, u: real)
    requires 0.0 <= t <= u <= 1.0
    ensures Magnitude(from + step - (from + step * u)) <= Magnitude(from + step - (from + step * t))
  {
    RemainderShrinks(step, t, u);
    assert from + step - (from + step * t) == step - step * t;
    assert from + step - (from + step * u) == step - step * u;
  }

  lemma TurnApproaches(from: real, to: real, t: real, u: real)
    requires 0.0 <= t <= u <= 1.0
    ensures var end := from + AngleStep(from, to);
      Magnitude(end - LerpAngle(from, to, u)) <= Magnitude(end - LerpAngle(from, to, t))
  {
    var step := AngleStep(from, to);
    StepApproaches(from, step, t, u);
    assert LerpAngle(from, to, t) == from + step * t && LerpAngle(from, to, u) == from + step * u;
  }

  lemma ProgressMonotone(m: Motion, a: int, b: int)
    requires a <= b
    ensures Progress(m, a) <= Progress(m, b)
  {
    if m.durationMs > 0 {
      var d := m.durationMs as real;
      var x, y := (a - m.startMs) as real, (b - m.startMs) as real;
      assert x <= y;
      DivideMonotone(x, y, d);
    }
  }

  lemma DivideMonotone(x: real, y: real, d: real)
    requires x <= y && d > 0.0
    ensures x / d <= y / d
  {
    var gap := y / d - x / d;
    assert gap * d == y - x;
    assert gap >= 0.0 || (0.0 - gap) * d > 0.0 by {
      if gap < 0.0 { NonNegative(0.0 - gap, d); }
    }
  }

  /** How much of the transition has passed, in milliseconds: none before it starts, all of it once it is over. */
  function Passed(m: Motion, nowMs: int): int {
    if m.durationMs <= 0 then 1
    else if nowMs < m.startMs then 0
    else if nowMs - m.startMs > m.durationMs then m.durationMs
    else nowMs - m.startMs
  }

  /** A transition that takes no time is over at once. */
  function Whole(m: Motion): int { if m.durationMs <= 0 then 1 else m.durationMs }

  lemma Ratio(x: real, d: real)
    requires d > 0.0
    ensures x / d * d == x
    ensures x <= 0.0 ==> x / d <= 0.0
    ensures x >= d ==> x / d >= 1.0
    ensures 0.0 <= x <= d ==> 0.0 <= x / d <= 1.0
  {
    assert 0.0 / d == 0.0 && d / d == 1.0;
    if x <= 0.0 { DivideMonotone(x, 0.0, d); }
    if x >= d { DivideMonotone(d, x, d); }
    if 0.0 <= x <= d {
      DivideMonotone(0.0, x, d);
      DivideMonotone(x, d, d);
    }
  }

  lemma ProgressExactly(m: Motion, nowMs: int)
    ensures Progress(m, nowMs) * Whole(m) as real == Passed(m, nowMs) as real
  {
    if m.durationMs > 0 { Ratio((nowMs - m.startMs) as real, m.durationMs as real); }
  }

  lemma LerpExactly(from: real, gap: real, t: real, whole: real, passed: real)
    requires t * whole == passed
    ensures (from + gap * t - from) * whole == gap * passed
  {
    assert from + gap * t - from == gap * t;
    assert gap * t * whole == gap * (t * whole);
  }

  lemma AxisShown(m: Motion, nowMs: int, axis: Axis)
    requires m.hasTarget
    ensures var from, to := Coordinate(m.previous.position, axis), Coordinate(m.target.position, axis);
      Coordinate(Shown(m, nowMs).position, axis) == from + (to - from) * Progress(m, nowMs)
  {
  }

  lemma AngleShown(m: Motion, nowMs: int, angle: Angle)
    requires m.hasTarget
    ensures var from, to := Degrees(m.previous.rotation, angle), Degrees(m.target.rotation, angle);
      Degrees(Shown(m, nowMs).rotation, angle) == from + AngleStep(from, to) * Progress(m, nowMs)
  {
    hide AngleStep;
  }

  /** The way covered is to the whole way as the time passed is to the whole time: positions along the straight line,
      angles along the shortest arc. */
  lemma ShownExactly(m: Motion, nowMs: int, axis: Axis, angle: Angle)
    requires m.hasTarget
    ensures var shown := Shown(m, nowMs);
      var from, to := Coordinate(m.previous.position, axis), Coordinate(m.target.position, axis);
      (Coordinate(shown.position, axis) - from) * Whole(m) as real == (to - from) * Passed(m, nowMs) as real
    ensures var shown := Shown(m, nowMs);
      var from, to := Degrees(m.previous.rotation, angle), Degrees(m.target.rotation, angle);
      (Degrees(shown.rotation, angle) - from) * Whole(m) as real == AngleStep(from, to) * Passed(m, nowMs) as real
  {
    hide Shown, AngleStep, Progress, Coordinate, Degrees, Passed, Whole;
    var t, whole, passed := Progress(m, nowMs), Whole(m) as real, Passed(m, nowMs) as real;
    ProgressExactly(m, nowMs);
    AxisShown(m, nowMs, axis);
    AngleShown(m, nowMs, angle);
    var from := Coordinate(m.previous.position, axis);
    LerpExactly(from, Coordinate(m.target.position, axis) - from, t, whole, passed);
    var start := Degrees(m.previous.rotation, angle);
    LerpExactly(start, AngleStep(start, Degrees(m.target.rotation, angle)), t, whole, passed);
  }

  /** The rest is not smoothed: the other state is the target's at once, and the time is now. */
  lemma ShownNow(m: Motion, nowMs: int)
    requires m.hasTarget
    ensures Shown(m, nowMs).basicState == m.target.basicState && Shown(m, nowMs).timestampMs == nowMs
  {
  }

  /** Before its first target an entity shows nothing; at it, just that, without a transition. */
  lemma FirstTarget(s: Snapshot, setMs: int, nowMs: int)
    ensures Shown(FRESH, nowMs) == Snapshot(Vector3(0.0, 0.0, 0.0), Rotation3(0.0, 0.0, 0.0), [], 0)
    ensures FRESH.durationMs == 100
    ensures var shown := Shown(Retargeted(FRESH, s, setMs), nowMs);
      shown.position == s.position && shown.rotation == s.rotation && shown.basicState == s.basicState
  {
    var m := Retargeted(FRESH, s, setMs);
    forall a: Angle ensures AngleStep(Degrees(s.rotation, a), Degrees(s.rotation, a)) == 0.0 {
      assert Turns(Degrees(s.rotation, a), Degrees(s.rotation, a), 0);
      ZeroStep(Degrees(s.rotation, a), Degrees(s.rotation, a));
    }
    assert AngleStep(Degrees(s.rotation, Pitch), Degrees(s.rotation, Pitch)) == 0.0;
    assert AngleStep(Degrees(s.rotation, Yaw), Degrees(s.rotation, Yaw)) == 0.0;
    assert AngleStep(Degrees(s.rotation, Roll), Degrees(s.rotation, Roll)) == 0.0;
  }

  /** As time advances no coordinate moves away from the current target. */
  lemma NeverRetreats(m: Motion, a: int, b: int, axis: Axis)
    requires m.hasTarget && a <= b
    ensures Magnitude(Coordinate(m.target.position, axis) - Coordinate(Shown(m, b).position, axis)) <=
      Magnitude(Coordinate(m.target.position, axis) - Coordinate(Shown(m, a).position, axis))
  {
    ProgressMonotone(m, a, b);
    LerpApproaches(Coordinate(m.previous.position, axis), Coordinate(m.target.position, axis), Progress(m, a),
      Progress(m, b));
  }

  /** Nor does any angle turn away from the copy of its target the transition ends on. */
  lemma NeverTurnsBack(m: Motion, a: int, b: int, angle: Angle)
    requires m.hasTarget && a <= b
    ensures var from := Degrees(m.previous.rotation, angle);
      var end := from + AngleStep(from, Degrees(m.target.rotation, angle));
      Magnitude(end - Degrees(Shown(m, b).rotation, angle)) <= Magnitude(end - Degrees(Shown(m, a).rotation, angle))
  {
    ProgressMonotone(m, a, b);
    var from, to := Degrees(m.previous.rotation, angle), Degrees(m.target.rotation, angle);
    var t, u := Progress(m, a), Progress(m, b);
    TurnApproaches(from, to, t, u);
    assert Degrees(Shown(m, a).rotation, angle) == LerpAngle(from, to, t);
    assert Degrees(Shown(m, b).rotation, angle) == LerpAngle(from, to, u);
  }

  lemma InstantRetarget(m: Motion, s: Snapshot, nowMs: int)
    requires m.hasTarget && m.durationMs <= 0
    ensures var before, after := Shown(m, nowMs), Shown(Retargeted(m, s, nowMs), nowMs);
      after.position == s.position && forall a: Angle ::
        Degrees(after.rotation, a) == Degrees(before.rotation, a) <==>
        Congruent(Degrees(before.rotation, a), Degrees(s.rotation, a))
  {
    var before, next := Shown(m, nowMs), Retargeted(m, s, nowMs);
    assert Progress(next, nowMs) == 1.0;
    forall a: Angle
      ensures Degrees(Shown(next, nowMs).rotation, a) == Degrees(before.rotation, a) <==>
        Congruent(Degrees(before.rotation, a), Degrees(s.rotation, a))
    {
      ZeroStep(Degrees(before.rotation, a), Degrees(s.rotation, a));
    }
  }

  lemma SameRotation(r: Rotation3, q: Rotation3)
    ensures r == q <==> forall a: Angle :: Degrees(r, a) == Degrees(q, a)
  {
    if forall a: Angle :: Degrees(r, a) == Degrees(q, a) {
      assert Degrees(r, Pitch) == Degrees(q, Pitch) && Degrees(r, Yaw) == Degrees(q, Yaw);
      assert Degrees(r, Roll) == Degrees(q, Roll);
    }
  }

  /** A retarget shows no jump at its own instant exactly when transitions take time, or when the new
      target already is what is shown (the same place, the same way up to whole turns). */
  lemma RetargetContinuous(m: Motion, s: Snapshot, nowMs: int)
    requires m.hasTarget
    ensures var before, after := Shown(m, nowMs), Shown(Retargeted(m, s, nowMs), nowMs);
      (after.position == before.position && after.rotation == before.rotation) <==>
      (m.durationMs > 0 || (s.position == before.position && forall a: Angle ::
        Congruent(Degrees(before.rotation, a), Degrees(s.rotation, a))))
  {
    if m.durationMs > 0 {
      assert Progress(Retargeted(m, s, nowMs), nowMs) == 0.0;
    } else {
      InstantRetarget(m, s, nowMs);
      SameRotation(Shown(Retargeted(m, s, nowMs), nowMs).rotation, Shown(m, nowMs).rotation);
    }
  }

  /** There is nothing to turn exactly when the angles already look the same. */
  lemma ZeroStep(from: real, to: real)
    ensures AngleStep(from, to) == 0.0 <==> Congruent(from, to)
  {
    ShortestArc(from, to);
    if Congruent(from, to) {
      assert Congruent(from + 0.0, to);
      assert Magnitude(AngleStep(from, to)) <= Magnitude(0.0);
    }
  }

  // ---------- whole runs ----------

  datatype Call = SetTo(s: Snapshot, nowMs: int) | Duration(ms: int)

  function Run(m: Motion, calls: seq<Call>): Motion
    decreases |calls|
  {
    if calls == [] then m
    else
      var next := match calls[0] case SetTo(s, now) => Retargeted(m, s, now) case Duration(ms) => m.(durationMs := ms);
      Run(next, calls[1..])
  }

  /** Every coordinate received so far lies in [lo, hi]. */
  ghost predicate ReceivedWithin(calls: seq<Call>, axis: Axis, lo: real, hi: real) {
    forall i :: 0 <= i < |calls| && calls[i].SetTo? ==> lo <= Coordinate(calls[i].s.position, axis) <= hi
  }

  ghost predicate Within(m: Motion, axis: Axis, lo: real, hi: real) {
    m.hasTarget ==>
      lo <= Coordinate(m.previous.position, axis) <= hi && lo <= Coordinate(m.target.position, axis) <= hi
  }

  lemma {:induction false} RunWithin(m: Motion, calls: seq<Call>, axis: Axis, lo: real, hi: real)
    requires Within(m, axis, lo, hi) && ReceivedWithin(calls, axis, lo, hi)
    ensures Within(Run(m, calls), axis, lo, hi)
    ensures m.hasTarget || (exists i :: 0 <= i < |calls| && calls[i].SetTo?) ==> Run(m, calls).hasTarget
    decreases |calls|
  {
    if calls != [] {
      var next := match calls[0] case SetTo(s, now) => Retargeted(m, s, now) case Duration(ms) => m.(durationMs := ms);
      if calls[0].SetTo? && m.hasTarget {
        LerpBetween(Coordinate(m.previous.position, axis), Coordinate(m.target.position, axis),
          Progress(m, calls[0].nowMs), lo, hi);
      }
      assert forall i :: 0 <= i < |calls[1..]| ==> calls[1..][i] == calls[i + 1];
      RunWithin(next, calls[1..], axis, lo, hi);
      if i :| 0 <= i < |calls| && calls[i].SetTo? {
        assert i == 0 || calls[1..][i - 1].SetTo?;
      }
    }
  }

  /** However often and whenever an entity is retargeted, whatever the durations, each coordinate it shows
      stays between the least and the greatest value it ever received. */
  lemma SmoothRun(calls: seq<Call>, axis: Axis, lo: real, hi: real, nowMs: int)
    requires ReceivedWithin(calls, axis, lo, hi) && exists i :: 0 <= i < |calls| && calls[i].SetTo?
    ensures lo <= Coordinate(Shown(Run(FRESH, calls), nowMs).position, axis) <= hi
  {
    RunWithin(FRESH, calls, axis, lo, hi);
    var m := Run(FRESH, calls);
    LerpBetween(Coordinate(m.previous.position, axis), Coordinate(m.target.position, axis), Progress(m, nowMs), lo, hi);
  }

  /** Once a transition is over the entity stands on its last target: the same place, and the same way
      up to whole turns, however far the angles have wound up before. */
  lemma SettlesOnTarget(m: Motion, nowMs: int)
    requires m.hasTarget && nowMs - m.startMs >= m.durationMs
    ensures Shown(m, nowMs).position == m.target.position && Shown(m, nowMs).basicState == m.target.basicState
    ensures forall a: Angle :: Congruent(Degrees(Shown(m, nowMs).rotation, a), Degrees(m.target.rotation, a))
  {
    if m.durationMs > 0 {
      var d := m.durationMs as real;
      DivideMonotone(d, (nowMs - m.startMs) as real, d);
    }
    assert Progress(m, nowMs) == 1.0;
    forall a: Angle ensures Congruent(Degrees(Shown(m, nowMs).rotation, a), Degrees(m.target.rotation, a)) {
      ShortestArc(Degrees(m.previous.rotation, a), Degrees(m.target.rotation, a));
    }
  }

  /** The last target set in a run is the one the entity is heading for. */
  lemma {:induction false} RunTarget(m: Motion, calls: seq<Call>, s: Snapshot, nowMs: int)
    ensures var run := Run(m, calls + [SetTo(s, nowMs)]); run.target == s && run.hasTarget && run.startMs == nowMs
    decreases |calls|
  {
    var all := calls + [SetTo(s, nowMs)];
    if calls == [] {
      assert all[1..] == [];
    } else {
      var next :=
        match calls[0] case SetTo(s', now) => Retargeted(m, s', now) case Duration(ms) => m.(durationMs := ms);
      assert all[1..] == calls[1..] + [SetTo(s, nowMs)];
      RunTarget(next, calls[1..], s, nowMs);
    }
  }

  /** Whatever happened to an entity before, with whatever durations and however far its angles have wound up:
      once the transition of its last retarget is over it stands on what it was last told, the same place and
      the same way up to whole turns, and stays there. */
  lemma SettlesAfterRun(m: Motion, calls: seq<Call>, s: Snapshot, startMs: int, nowMs: int)
    requires nowMs - startMs >= Run(m, calls + [SetTo(s, startMs)]).durationMs
    ensures var shown := Shown(Run(m, calls + [SetTo(s, startMs)]), nowMs);
      && shown.position == s.position && shown.basicState == s.basicState
      && forall a: Angle :: Congruent(Degrees(shown.rotation, a), Degrees(s.rotation, a))
  {
    RunTarget(m, calls, s, startMs);
    SettlesOnTarget(Run(m, calls + [SetTo(s, startMs)]), nowMs);
  }
}
