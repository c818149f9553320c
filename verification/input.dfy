/** The game-state side of the keyboard callback (src/main.cpp:1882-2145) and
    the per-frame meter update (src/main.cpp:880-896): cue-ball positioning,
    the aiming toggle on T, charging and firing on P, and the C key. */
module Input {
  import opened Vectors
  import opened GameObjects
  import opened ShotPower
  import opened Camera

  datatype Key = KeyLeft | KeyRight | KeyUp | KeyDown | KeyEnter | KeySpace | KeyT | KeyP | KeyC | OtherKey

  datatype KeyAction = Press | Release | Repeat

  /** The state the callback reads and writes. */
  datatype Game = Game(
    balls: seq<Ball>,
    positioning: bool,
    aiming: bool,
    pHeld: bool,
    meter: Meter,
    cam: Cam)

  /** g_BallStepSize: how far one arrow event moves the cue ball. */
  const BallStepSize: real := 0.02

  /** The cue-ball positioning block: any event (press, repeat or release)
      moves ball 0 for the arrow keys and pins it to the table height. */
  function PositionCueBall(b: Ball, key: Key): (r: Ball)
    ensures r.position.y == BallYAxis
    ensures r == b.(position := r.position)
    ensures key == KeyLeft ==> r.position.x == b.position.x - BallStepSize && r.position.z == b.position.z
    ensures key == KeyRight ==> r.position.x == b.position.x + BallStepSize && r.position.z == b.position.z
    ensures key == KeyUp ==> r.position.x == b.position.x && r.position.z == b.position.z - BallStepSize
    ensures key == KeyDown ==> r.position.x == b.position.x && r.position.z == b.position.z + BallStepSize
    ensures key !in {KeyLeft, KeyRight, KeyUp, KeyDown} ==> r.position == b.position.(y := BallYAxis)
  {
    var p := b.position;
    var x := if key == KeyLeft then p.x - BallStepSize else if key == KeyRight then p.x + BallStepSize else p.x;
    var z := if key == KeyUp then p.z - BallStepSize else if key == KeyDown then p.z + BallStepSize else p.z;
    b.(position := Vec3(x, BallYAxis, z))
  }

  /** The positioning block for the whole game. Enter or Space ends it. */
  function Positioning(g: Game, key: Key): (r: Game)
    requires |g.balls| > 0
    ensures |r.balls| == |g.balls| && r.balls[1..] == g.balls[1..]
    ensures !g.positioning ==> r == g
    ensures g.positioning ==> r.balls[0] == PositionCueBall(g.balls[0], key)
    ensures r.positioning <==> g.positioning && key != KeyEnter && key != KeySpace
    ensures r == g.(balls := r.balls, positioning := r.positioning)
  {
    if g.positioning then
      g.(balls := g.balls[0 := PositionCueBall(g.balls[0], key)],
         positioning := !(key == KeyEnter || key == KeySpace))
    else g
  }

  /** T toggles aiming; switching it on re-seeds the aiming angle from the
      camera's theta. */
  function PressT(g: Game): (r: Game)
    ensures r.aiming == !g.aiming || (g.balls == [] && r == g)
    ensures r.aiming && !g.aiming ==> r.cam.aimingAngle == g.cam.view.theta + Pi
    ensures r == g.(aiming := r.aiming, cam := r.cam) && r.cam == g.cam.(aimingAngle := r.cam.aimingAngle)
  {
    if !g.aiming && g.balls != [] then g.(aiming := true, cam := g.cam.(aimingAngle := g.cam.view.theta + Pi))
    else if g.aiming then g.(aiming := false)
    else g
  }

  /** Whether a P press starts a charge: aiming, with the cue ball in play. */
  predicate CanCharge(g: Game) {
    g.aiming && g.balls != [] && g.balls[0].active
  }

  /** P pressed: charging starts from an empty, rising meter, but only while
      aiming with the cue ball in play; only the P flag and the meter change. */
  function PressP(g: Game): (r: Game)
    ensures r == g.(pHeld := r.pHeld, meter := r.meter)
    ensures r.pHeld <==> g.pHeld || CanCharge(g)
    ensures r.pHeld && !g.pHeld ==>
              ValidMeter(r.meter) && r.meter.percentage == 0.0 && r.aiming && r.balls != [] && r.balls[0].active
    ensures CanCharge(g) ==> r.meter == FreshMeter
    ensures !CanCharge(g) ==> r == g
  {
    if g.aiming && g.balls != [] && g.balls[0].active then g.(pHeld := true, meter := FreshMeter)
    else g
  }

  /** The game after a run of frames with the given frame times: the meter
      follows Charge while P is held, and nothing else changes. */
  function HoldFrames(g: Game, dts: seq<real>): (r: Game)
    ensures r == g.(meter := r.meter)
    ensures g.pHeld ==> r.meter == Charge(g.meter, dts)
    ensures !g.pHeld ==> r == g
    decreases |dts|
  {
    if dts == [] then g else HoldFrames(FrameMeter(g, dts[0]), dts[1..])
  }

  /** P released: the shot. `direction` is the aiming direction
      normalize(sin a, 0, cos a) for the aiming angle a. The cue ball gets the
      meter's speed along it and aiming ends; nothing else moves. */
  function ReleaseP(g: Game, direction: Vec3): (r: Game)
    ensures |r.balls| == |g.balls| && (g.balls != [] ==> r.balls[1..] == g.balls[1..])
    ensures !g.pHeld ==> r == g
    ensures g.pHeld ==> !r.pHeld && r.meter == g.meter && r.cam == g.cam && r.positioning == g.positioning
    ensures g.pHeld && g.balls != [] && g.balls[0].active ==>
              !r.aiming && r.balls[0] == g.balls[0].(velocity := Scale(ShotMagnitude(g.meter.percentage), direction))
    ensures g.pHeld && !(g.balls != [] && g.balls[0].active) ==> r == g.(pHeld := false)
  {
    if g.pHeld then
      var g1 := g.(pHeld := false);
      if g.balls != [] && g.balls[0].active then
        var speed := ShotMagnitude(g.meter.percentage);
        g1.(balls := g.balls[0 := g.balls[0].(velocity := Scale(speed, direction))], aiming := false)
      else g1
    else g
  }

  /** KeyCallback, in the source's order: positioning, T, P press, P release,
      C. `lookPhi` and `lookTheta` are the atan2 angles the C key computes. */
  function KeyCallback(g: Game, key: Key, action: KeyAction, direction: Vec3, lookPhi: real, lookTheta: real): (r: Game)
    requires |g.balls| > 0
    ensures |r.balls| == |g.balls|
    ensures r.positioning <==> g.positioning && key != KeyEnter && key != KeySpace
  {
    var g1 := Positioning(g, key);
    var g2 := if key == KeyT && action == Press then PressT(g1) else g1;
    var g3 := if key == KeyP && action == Press then PressP(g2) else g2;
    var g4 := if key == KeyP && action == Release then ReleaseP(g3, direction) else g3;
    if key == KeyC && action == Press then g4.(cam := PressC(g4.cam, lookPhi, lookTheta)) else g4
  }

  /** The meter advances once per frame while P is held. */
  function FrameMeter(g: Game, dt: real): (r: Game)
    ensures ValidMeter(g.meter) ==> ValidMeter(r.meter)
    ensures g.pHeld ==> r.meter == UpdateMeter(g.meter, dt)
    ensures r == g.(meter := r.meter) && (!g.pHeld ==> r == g)
  {
    if g.pHeld then g.(meter := UpdateMeter(g.meter, dt)) else g
  }

  /** Only Enter or Space ends positioning, and the keyboard never starts it:
      the flag the physics raises is cleared exactly by these two keys. */
  lemma OnlyConfirmClearsFlag(g: Game, key: Key, action: KeyAction, direction: Vec3, lookPhi: real, lookTheta: real)
    requires |g.balls| > 0
    ensures var r := KeyCallback(g, key, action, direction, lookPhi, lookTheta);
            (g.positioning && !r.positioning <==> g.positioning && (key == KeyEnter || key == KeySpace)) &&
            (r.positioning ==> g.positioning)
  {
  }

  /** While positioning, every key event leaves the cue ball at table height,
      whatever else the event does. */
  lemma PositioningPinsHeight(g: Game, key: Key, action: KeyAction, direction: Vec3, lookPhi: real, lookTheta: real)
    requires |g.balls| > 0 && g.positioning
    ensures KeyCallback(g, key, action, direction, lookPhi, lookTheta).balls[0].position.y == BallYAxis
  {
  }

  /** The positioning block runs for every key event, release included, so a
      tap of an arrow key (press then release) moves the cue ball two steps;
      no other ball moves. */
  lemma ArrowTapMovesTwice(g: Game, key: Key, direction: Vec3, lookPhi: real, lookTheta: real)
    requires |g.balls| > 0 && g.positioning && key in {KeyLeft, KeyRight, KeyUp, KeyDown}
    ensures var r := KeyCallback(KeyCallback(g, key, Press, direction, lookPhi, lookTheta), key, Release, direction, lookPhi, lookTheta);
            r.balls[1..] == g.balls[1..] &&
            (key == KeyLeft ==> r.balls[0].position.x == g.balls[0].position.x - BallStepSize - BallStepSize) &&
            (key == KeyRight ==> r.balls[0].position.x == g.balls[0].position.x + BallStepSize + BallStepSize) &&
            (key == KeyUp ==> r.balls[0].position.z == g.balls[0].position.z - BallStepSize - BallStepSize) &&
            (key == KeyDown ==> r.balls[0].position.z == g.balls[0].position.z + BallStepSize + BallStepSize)
  {
  }

  /** A shot from a charged meter gives the cue ball a speed between the
      minimum and maximum magnitudes along a unit aiming direction. */
  lemma ShotSpeedInRange(g: Game, direction: Vec3)
    requires g.pHeld && |g.balls| > 0 && g.balls[0].active && ValidMeter(g.meter)
    requires Dot(direction, direction) == 1.0
    ensures var v := ReleaseP(g, direction).balls[0].velocity;
            MinShotPowerMagnitude * MinShotPowerMagnitude <= Dot(v, v) <= MaxShotPowerMagnitude * MaxShotPowerMagnitude
  {
    var s := ShotMagnitude(g.meter.percentage);
    var v := ReleaseP(g, direction).balls[0].velocity;
    assert v == Scale(s, direction);
    assert Dot(v, v) == s * s * Dot(direction, direction);
    assert 0.5 <= s <= 12.0;
    calc { s * s; <= 12.0 * s; <= 144.0; }
    calc { s * s; >= 0.5 * s; >= 0.25; }
  }

  /** A whole shot: P pressed while aiming with the cue ball in play, held for
      any run of frames and released fires the cue ball along the unit aiming
      direction at the speed of the meter reading those frames leave, which
      lies between the minimum and maximum magnitudes; aiming ends and no
      other ball moves. */
  lemma ChargedShotInRange(g: Game, dts: seq<real>, direction: Vec3)
    requires CanCharge(g) && Dot(direction, direction) == 1.0
    ensures var r := ReleaseP(HoldFrames(PressP(g), dts), direction);
            var v := r.balls[0].velocity;
            |r.balls| == |g.balls| && r.balls[1..] == g.balls[1..] && !r.aiming && !r.pHeld &&
            v == Scale(ShotMagnitude(Charge(FreshMeter, dts).percentage), direction) &&
            MinShotPowerMagnitude * MinShotPowerMagnitude <= Dot(v, v) <= MaxShotPowerMagnitude * MaxShotPowerMagnitude
  {
    var h := HoldFrames(PressP(g), dts);
    ChargeStaysValid(FreshMeter, dts);
    ShotSpeedInRange(h, direction);
  }
}
