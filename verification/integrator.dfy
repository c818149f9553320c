/** Per-ball integration of one fixed sub-step (src/Colisoes.cpp:62-96):
    gravity, translation, multiplicative friction, the stop snap, the derived
    rolling angular velocity and the floor bounce. */
module Integrator {
  import opened Vectors
  import opened GameObjects

  /** Squared horizontal speed. The source compares glm::length of the x/z
      velocity with the threshold; comparing squares is the same test. */
  function HorizontalSpeedSq(v: Vec3): real { v.x * v.x + v.z * v.z }

  function Abs(a: real): real { if a < 0.0 then -a else a }

  const StopThresholdSq: real := 0.0001  // StopThreshold squared

  /** Gravity on the vertical velocity, translation by the new velocity, then
      friction on the horizontal components. Returns (position, velocity). */
  function ApplyForces(p: Vec3, v: Vec3): (r: (Vec3, Vec3))
    ensures r.0 == Add(p, Scale(FixedDt, Vec3(v.x, v.y - Gravity * FixedDt, v.z)))
    ensures r.1.y == v.y - Gravity * FixedDt
    ensures Flat(r.1) == Scale2(Friction, Flat(v))
    ensures HorizontalSpeedSq(r.1) == Friction * Friction * HorizontalSpeedSq(v)
  {
    var v1 := Vec3(v.x, v.y - Gravity * FixedDt, v.z);
    (Add(p, Scale(FixedDt, v1)), Vec3(v1.x * Friction, v1.y, v1.z * Friction))
  }

  /** Below the stop threshold both horizontal components become exactly 0. */
  function SnapHorizontal(v: Vec3): (r: Vec3)
    ensures r.y == v.y
    ensures HorizontalSpeedSq(v) < StopThresholdSq <==> r.x == 0.0 && r.z == 0.0
    ensures HorizontalSpeedSq(v) >= StopThresholdSq ==> r == v
    ensures (r.x == 0.0 && r.z == 0.0) || HorizontalSpeedSq(r) >= StopThresholdSq
  {
    if HorizontalSpeedSq(v) < StopThresholdSq then Vec3(0.0, v.y, 0.0) else v
  }

  /** The derived angular velocity (up x v) / radius for the horizontal
      velocity h, or zero at or below the threshold. */
  function RollingVelocity(h: Vec2, radius: real): (w: Vec3)
    requires radius > 0.0
    ensures w.y == 0.0
    ensures Dot2(h, h) <= StopThresholdSq ==> w == Zero3
  {
    if Dot2(h, h) > StopThresholdSq then
      Scale(1.0 / radius, Cross(Vec3(0.0, 1.0, 0.0), Vec3(h.x, 0.0, h.z)))
    else Zero3
  }

  /** Above the threshold the ball rolls without slipping: the contact point
      (centre minus radius along the surface normal) has zero horizontal
      velocity, the spin axis is perpendicular to the motion, and
      |w| * radius equals the horizontal speed. */
  lemma RollingWithoutSlipping(h: Vec2, radius: real)
    requires radius > 0.0 && Dot2(h, h) > StopThresholdSq
    ensures Flat(Add(Vec3(h.x, 0.0, h.z), Cross(RollingVelocity(h, radius), Vec3(0.0, -radius, 0.0)))) == Vec2(0.0, 0.0)
    ensures RollingVelocity(h, radius).x * h.x + RollingVelocity(h, radius).z * h.z == 0.0
    ensures Dot(RollingVelocity(h, radius), RollingVelocity(h, radius)) * (radius * radius) == Dot2(h, h)
  {
    var w := RollingVelocity(h, radius);
    assert w == Vec3(h.z / radius, 0.0, -h.x / radius);
    assert w.x * radius == h.z && w.z * radius == -h.x;
    assert Dot(w, w) * (radius * radius) == (w.x * radius) * (w.x * radius) + (w.z * radius) * (w.z * radius);
  }

  /** The floor bounce. Returns (position, velocity). */
  function FloorBounce(p: Vec3, v: Vec3, radius: real): (r: (Vec3, Vec3))
    ensures r.0.y - radius >= FeltY
    ensures p.y - radius >= FeltY ==> r == (p, v)
    ensures p.y - radius < FeltY ==>
              r.0 == Vec3(p.x, FeltY + radius, p.z) &&
              r.1.x == v.x && r.1.z == v.z &&
              (if Restitution * v.y < StopThreshold && -StopThreshold < Restitution * v.y
               then r.1.y == 0.0 else r.1.y == -Restitution * v.y)
    ensures p.y - radius < FeltY && v.y <= 0.0 ==> r.1.y >= 0.0
    ensures Abs(r.1.y) <= Abs(v.y)
  {
    if p.y - radius < FeltY then
      var vy := v.y * -Restitution;
      var vy' := if Abs(vy) < StopThreshold then 0.0 else vy;
      (Vec3(p.x, FeltY + radius, p.z), Vec3(v.x, vy', v.z))
    else (p, v)
  }

  /** One sub-step of free motion for an active ball. */
  function Integrate(b: Ball): (r: Ball)
    requires b.radius > 0.0
    ensures r.radius == b.radius && r.active == b.active && r.textureUnit == b.textureUnit
    ensures r.position.y - r.radius >= FeltY
    ensures (r.velocity.x == 0.0 && r.velocity.z == 0.0) || HorizontalSpeedSq(r.velocity) >= StopThresholdSq
    ensures r.angularVelocity == RollingVelocity(Flat(r.velocity), r.radius)
  {
    var pv1 := ApplyForces(b.position, b.velocity);
    var v2 := SnapHorizontal(pv1.1);
    var w := RollingVelocity(Flat(v2), b.radius);
    var pv3 := FloorBounce(pv1.0, v2, b.radius);
    assert Flat(pv3.1) == Flat(v2);
    b.(position := pv3.0, velocity := pv3.1, angularVelocity := w)
  }

  lemma NoSpinAtRest(radius: real)
    requires radius > 0.0
    ensures RollingVelocity(Vec2(0.0, 0.0), radius) == Zero3
  {
  }

  /** Friction never speeds a ball up horizontally. */
  lemma FrictionSlows(v: Vec3)
    ensures HorizontalSpeedSq(ApplyForces(Zero3, v).1) <= HorizontalSpeedSq(v)
  {
    var h := HorizontalSpeedSq(v);
    assert 0.0 <= h by {
      assert v.x * v.x >= 0.0 && v.z * v.z >= 0.0;
    }
    assert HorizontalSpeedSq(ApplyForces(Zero3, v).1) == 0.9801 * h;
  }

  /** A ball whose horizontal velocity after friction is below the threshold
      ends the integration with no horizontal velocity and no spin. */
  lemma SnappedBallRests(b: Ball)
    requires b.radius > 0.0
    requires HorizontalSpeedSq(ApplyForces(b.position, b.velocity).1) < StopThresholdSq
    ensures Integrate(b).velocity.x == 0.0 && Integrate(b).velocity.z == 0.0
    ensures Integrate(b).angularVelocity == Zero3
  {
    var pv1 := ApplyForces(b.position, b.velocity);
    var v2 := SnapHorizontal(pv1.1);
    assert v2.x == 0.0 && v2.z == 0.0;
    SnapThenBounceRests(pv1.0, v2, b.radius);
    NoSpinAtRest(b.radius);
  }

  /** The floor bounce keeps a snapped horizontal velocity at zero. */
  lemma SnapThenBounceRests(p: Vec3, v: Vec3, radius: real)
    requires v.x == 0.0 && v.z == 0.0
    ensures FloorBounce(p, v, radius).1.x == 0.0 && FloorBounce(p, v, radius).1.z == 0.0
    ensures Flat(v) == Vec2(0.0, 0.0)
  {
  }

  /** A ball already below the stop threshold stops dead in one sub-step:
      horizontal velocity exactly zero, no spin. */
  lemma SlowBallStops(b: Ball)
    requires b.radius > 0.0
    requires HorizontalSpeedSq(b.velocity) < StopThresholdSq
    ensures Integrate(b).velocity.x == 0.0 && Integrate(b).velocity.z == 0.0
    ensures Integrate(b).angularVelocity == Zero3
  {
    FrictionSlows(b.velocity);
    assert ApplyForces(b.position, b.velocity).1 == ApplyForces(Zero3, b.velocity).1;
    SnappedBallRests(b);
  }
}
