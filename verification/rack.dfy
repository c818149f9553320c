/** The opening layout of src/main.cpp:521-574: the cue ball first, then the
    fifteen object balls of the triangle, row by row, numbered 1..15. */
module Rack {
  import opened Vectors
  import opened Numeric
  import opened GameObjects

  const BallDiameter: real := BallRadius * 2.0
  /** z of the ball at the tip of the triangle. */
  const RackTipZ: real := -0.60
  /** x shift of each row: half a diameter. */
  const RackRowXOffset: real := BallDiameter / 2.0

  /** z distance between rows, D * sqrt(3) / 2 (computed with glm::sqrt). */
  function RackRowZOffset(sqrt: real -> real): (dz: real)
    requires IsSqrt(sqrt)
    ensures 0.0 <= dz && dz * dz == BallDiameter * BallDiameter * 3.0 / 4.0
  {
    var s := sqrt(3.0);
    assert BallDiameter * s / 2.0 * (BallDiameter * s / 2.0) == BallDiameter * BallDiameter * (s * s) / 4.0;
    BallDiameter * s / 2.0
  }

  /** Centre of the ball in column `col` of rack row `row`. */
  function RackPosition(row: nat, col: nat, dz: real): Vec3 {
    Vec3(col as real * BallDiameter - row as real * RackRowXOffset, BallYAxis, RackTipZ - row as real * dz)
  }

  /** Index in the ball list of the ball in column `col` of row `row`. */
  function RackSlot(row: nat, col: nat): nat {
    row * (row + 1) / 2 + col + 1
  }

  /** A ball at rest on the felt, in play, drawn with texture `unit`. */
  function RestingBall(position: Vec3, unit: int): Ball {
    Ball(position, Zero3, BallRadius, true, unit, Zero3)
  }

  /** The ball list is a fresh rack: ball k is drawn with texture k and every
      ball is in play, at rest, at table height and of the standard radius. */
  ghost predicate FreshBall(b: Ball, k: int) {
    b.textureUnit == k && b.active && b.radius == BallRadius &&
    b.velocity == Zero3 && b.angularVelocity == Zero3 && b.position.y == BallYAxis
  }

  /** The nested row/column loops with the source's two `> 15` guards. */
  method SetupRack(sqrt: real -> real) returns (balls: seq<Ball>)
    requires IsSqrt(sqrt)
    ensures |balls| == 16
    ensures forall k :: 0 <= k < |balls| ==> FreshBall(balls[k], k)
    ensures balls[0].position == CueSpot
    ensures forall row: nat, col: nat :: col <= row < 5 ==>
              RackSlot(row, col) < |balls| && balls[RackSlot(row, col)].position == RackPosition(row, col, RackRowZOffset(sqrt))
  {
    var dz := RackRowZOffset(sqrt);
    balls := [RestingBall(CueSpot, 0)];
    var counter := 1;
    var row := 0;
    while row < 5
      invariant 0 <= row <= 5
      invariant counter == RackSlot(row, 0) && |balls| == counter
      invariant forall k :: 0 <= k < |balls| ==> FreshBall(balls[k], k)
      invariant balls[0].position == CueSpot
      invariant forall r: nat, c: nat :: c <= r < row ==>
                  RackSlot(r, c) < |balls| && balls[RackSlot(r, c)].position == RackPosition(r, c, dz)
    {
      var col := 0;
      while col <= row
        invariant 0 <= col <= row + 1
        invariant counter == RackSlot(row, col) && |balls| == counter
        invariant forall k :: 0 <= k < |balls| ==> FreshBall(balls[k], k)
        invariant balls[0].position == CueSpot
        invariant forall r: nat, c: nat :: (c <= r < row || (r == row && c < col)) ==>
                    RackSlot(r, c) < |balls| && balls[RackSlot(r, c)].position == RackPosition(r, c, dz)
      {
        if counter > 15 {
          break;
        }
        balls := balls + [RestingBall(RackPosition(row, col, dz), counter)];
        counter := counter + 1;
        col := col + 1;
      }
      if counter > 15 {
        break;
      }
      row := row + 1;
    }
  }

  /** Neighbouring rack balls touch: their centres are exactly one diameter
      apart, along the row and to both balls of the next row. */
  lemma RackNeighboursTouch(row: nat, col: nat, dz: real)
    requires dz * dz == BallDiameter * BallDiameter * 3.0 / 4.0
    ensures var d := Sub(RackPosition(row, col + 1, dz), RackPosition(row, col, dz));
            Dot(d, d) == BallDiameter * BallDiameter
    ensures var d := Sub(RackPosition(row + 1, col, dz), RackPosition(row, col, dz));
            Dot(d, d) == BallDiameter * BallDiameter
    ensures var d := Sub(RackPosition(row + 1, col + 1, dz), RackPosition(row, col, dz));
            Dot(d, d) == BallDiameter * BallDiameter
  {
    var d1 := Sub(RackPosition(row, col + 1, dz), RackPosition(row, col, dz));
    var d2 := Sub(RackPosition(row + 1, col, dz), RackPosition(row, col, dz));
    var d3 := Sub(RackPosition(row + 1, col + 1, dz), RackPosition(row, col, dz));
    assert d1 == Vec3(BallDiameter, 0.0, 0.0);
    assert d2 == Vec3(-RackRowXOffset, 0.0, -dz);
    assert d3 == Vec3(RackRowXOffset, 0.0, -dz);
  }

  /** Slots are numbered row by row, left to right: a later position in the
      triangle always has a larger index, so no two rack balls share one. */
  lemma RackSlotOrder(r1: nat, c1: nat, r2: nat, c2: nat)
    requires c1 <= r1 && c2 <= r2
    requires r1 < r2 || (r1 == r2 && c1 < c2)
    ensures RackSlot(r1, c1) < RackSlot(r2, c2)
  {
    if r1 < r2 {
      assert RackSlot(r1, c1) <= RackSlot(r1 + 1, 0) by {
        assert (r1 + 1) * (r1 + 2) / 2 == r1 * (r1 + 1) / 2 + r1 + 1;
      }
      RowStartGrows(r1 + 1, r2);
    }
  }

  lemma {:induction false} RowStartGrows(a: nat, b: nat)
    requires a <= b
    ensures RackSlot(a, 0) <= RackSlot(b, 0)
    decreases b - a
  {
    if a < b {
      assert (a + 1) * (a + 2) / 2 == a * (a + 1) / 2 + a + 1;
      RowStartGrows(a + 1, b);
    }
  }

  /** The slots of the 5-row triangle are exactly the indices 1..15. */
  lemma RackSlotsCover(k: nat)
    requires 1 <= k <= 15
    ensures exists row: nat, col: nat :: col <= row < 5 && RackSlot(row, col) == k
  {
    if k == 1 { assert RackSlot(0, 0) == k; }
    else if k <= 3 { assert RackSlot(1, k - 2) == k; }
    else if k <= 6 { assert RackSlot(2, k - 4) == k; }
    else if k <= 10 { assert RackSlot(3, k - 7) == k; }
    else { assert RackSlot(4, k - 11) == k; }
  }
}
