/** The records of include/game_objects.h and the physical and table constants
    that src/Colisoes.cpp and src/main.cpp share. */
module GameObjects {
  import opened Vectors
  import opened Numeric

  /** The outcome of a physics computation: a value, or `Degenerate` where the
      source normalises a zero-length vector and its floats become NaN. */
  datatype Outcome<+T> = Ok(value: T) | Degenerate

  /** A pool ball (GameBall). The cosmetic orientation quaternion and the
      rendering-only fields (object name, object and shader ids) are not kept.
      `textureUnit == 0` marks the cue ball. */
  datatype Ball = Ball(
    position: Vec3,
    velocity: Vec3,
    radius: real,
    active: bool,
    textureUnit: int,
    angularVelocity: Vec3)

  /** One straight wall (cushion) or pocket-mouth guard; only x and z matter. */
  datatype BoundingSegment = BoundingSegment(p1: Vec3, p2: Vec3)

  /** A pocket sink: centre and capture radius. */
  datatype Pocket = Pocket(position: Vec3, radius: real)

  // Table geometry.
  const BallYAxis: real := -0.2667
  const BallRadius: real := 0.02625
  const TableWidth: real := 1.0415
  const TableDepth: real := 2.2845
  const TableHalfWidth: real := TableWidth / 2.0
  const TableHalfDepth: real := TableDepth / 2.0
  const FeltY: real := BallYAxis - BallRadius

  // Uniform grid over the table: cells four radii wide.
  const GridCellSize: real := BallRadius * 4.0
  const GridCols: int := Trunc(TableWidth / GridCellSize) + 1
  const GridRows: int := Trunc(TableDepth / GridCellSize) + 1

  // Physics.
  const Gravity: real := 9.8
  const Restitution: real := 0.8
  const Friction: real := 0.99
  const StopThreshold: real := 0.01
  const FixedDt: real := 1.0 / 120.0

  /** Where a pocketed cue ball is put back (also its opening spot). */
  const CueSpot: Vec3 := Vec3(-0.0020, BallYAxis, 0.5680)

  /** Where a pocketed object ball is parked, far outside the table. */
  const Sentinel: Vec3 := Vec3(1000.0, 1000.0, 1000.0)

  lemma GridDimensions()
    ensures GridCols == 10 && GridRows == 22
  {
  }

  /** Every ball has a positive radius (the integrator divides by it). */
  ghost predicate PositiveRadii(balls: seq<Ball>) {
    forall k :: 0 <= k < |balls| ==> balls[k].radius > 0.0
  }
}
