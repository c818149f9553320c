/** Pocket capture of src/Colisoes.cpp:185-209: the first pocket whose sphere
    reaches the ball captures it. The cue ball is put back on its spot and
    raises the positioning flag; any other ball leaves play. */
module PocketCapture {
  import opened Vectors
  import opened Numeric
  import opened GameObjects

  /** The ball's centre is within the radius sum of the pocket's centre
      (3-D distance, compared through squares). */
  predicate InPocket(b: Ball, pk: Pocket) {
    var gap := Sub(b.position, pk.position);
    0.0 <= b.radius + pk.radius && Dot(gap, gap) <= (b.radius + pk.radius) * (b.radius + pk.radius)
  }

  /** The source's test, glm::length(position - pocket) <= radius sum. */
  function Reaches(b: Ball, pk: Pocket, sqrt: real -> real): (r: bool)
    requires IsSqrt(sqrt)
    ensures r <==> InPocket(b, pk)
  {
    var gap := Sub(b.position, pk.position);
    var dist := Length(gap, sqrt);
    RootBelow(Dot(gap, gap), dist, if b.radius + pk.radius < 0.0 then 0.0 else b.radius + pk.radius);
    dist <= b.radius + pk.radius
  }

  /** The index of the first pocket that reaches the ball, or |pockets| if none. */
  function FirstPocket(b: Ball, pockets: seq<Pocket>, sqrt: real -> real): (k: nat)
    requires IsSqrt(sqrt)
    ensures k <= |pockets|
    ensures k < |pockets| ==> InPocket(b, pockets[k])
    ensures forall m :: 0 <= m < k ==> !InPocket(b, pockets[m])
    decreases |pockets|
  {
    if pockets == [] then 0
    else if Reaches(b, pockets[0], sqrt) then 0
    else 1 + FirstPocket(b, pockets[1..], sqrt)
  }

  /** Some pocket reaches the ball. */
  ghost predicate Captured(b: Ball, pockets: seq<Pocket>) {
    exists k :: 0 <= k < |pockets| && InPocket(b, pockets[k])
  }

  /** The cue ball is the ball drawn with texture unit 0. */
  predicate IsCue(b: Ball) { b.textureUnit == 0 }

  /** The pocket loop for one ball. Returns the ball and whether the cue ball
      was re-spotted (which raises the positioning flag). The loop stops at the
      first pocket, so a ball is captured at most once. */
  function Pocketing(b: Ball, pockets: seq<Pocket>, sqrt: real -> real): (r: (Ball, bool))
    requires IsSqrt(sqrt)
    ensures r.0.radius == b.radius && r.0.textureUnit == b.textureUnit
    ensures r.0.angularVelocity == b.angularVelocity
    ensures !Captured(b, pockets) ==> r == (b, false)
    ensures Captured(b, pockets) && IsCue(b) ==>
              r.1 && r.0.active == b.active && r.0.position == CueSpot && r.0.velocity == Zero3
    ensures Captured(b, pockets) && !IsCue(b) ==>
              !r.1 && !r.0.active && r.0.position == Sentinel && r.0.velocity == Zero3
  {
    var k := FirstPocket(b, pockets, sqrt);
    if k < |pockets| then
      if IsCue(b) then (b.(position := CueSpot, velocity := Zero3), true)
      else (b.(active := false, position := Sentinel, velocity := Zero3), false)
    else (b, false)
  }
}
