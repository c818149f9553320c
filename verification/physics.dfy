/** One fixed physics sub-step of src/Colisoes.cpp:56-210: every active ball
    in index order is integrated, collided with its higher-indexed neighbours,
    reflected off the pocket guards and then the cushions, and tested against
    the pockets. The grid is the one built at the start of the sub-step. */
module Physics {
  import opened Vectors
  import opened Numeric
  import opened GameObjects
  import opened SpatialGrid
  import opened Integrator
  import opened BallCollision
  import opened SegmentCollision
  import opened PocketCapture

  /** The static geometry the sub-step tests against. */
  datatype Table = Table(guards: seq<BoundingSegment>, cushions: seq<BoundingSegment>, pockets: seq<Pocket>)

  /** `after` is a possible later state of `before`: same balls, same radii
      and textures; an inactive ball never changes (so is never reactivated);
      the cue ball is never taken out of play. */
  ghost predicate Successor(before: seq<Ball>, after: seq<Ball>) {
    |after| == |before| &&
    forall k :: 0 <= k < |before| ==>
      after[k].radius == before[k].radius && after[k].textureUnit == before[k].textureUnit &&
      (!before[k].active ==> after[k] == before[k]) &&
      (before[k].active && IsCue(before[k]) ==> after[k].active)
  }

  /** Every ball out of play is parked at the sentinel, at rest. */
  ghost predicate Parked(balls: seq<Ball>) {
    forall k :: 0 <= k < |balls| && !balls[k].active ==>
      balls[k].position == Sentinel && balls[k].velocity == Zero3
  }

  lemma SuccessorTransitive(a: seq<Ball>, b: seq<Ball>, c: seq<Ball>)
    requires Successor(a, b) && Successor(b, c)
    ensures Successor(a, c)
  {
  }

  lemma SuccessorKeepsRadii(a: seq<Ball>, b: seq<Ball>)
    requires Successor(a, b) && PositiveRadii(a)
    ensures PositiveRadii(b)
  {
  }

  /** The walls and pockets for ball b, after the pair loop. Returns the ball
      and whether the cue ball was re-spotted. */
  function Boundaries(b: Ball, table: Table, sqrt: real -> real): (r: Outcome<(Ball, bool)>)
    requires IsSqrt(sqrt)
    ensures r.Ok? ==> r.value.0.radius == b.radius && r.value.0.textureUnit == b.textureUnit
    ensures r.Ok? && b.active && IsCue(b) ==> r.value.0.active
    ensures r.Ok? && b.active && !r.value.0.active ==> r.value.0.position == Sentinel && r.value.0.velocity == Zero3
    ensures r.Ok? && r.value.1 ==> IsCue(b)
  {
    match SegmentPass(b, table.guards, sqrt)
    case Degenerate => Degenerate
    case Ok(b3) =>
      match SegmentPass(b3, table.cushions, sqrt)
      case Degenerate => Degenerate
      case Ok(b4) => Ok(Pocketing(b4, table.pockets, sqrt))
  }

  /** The cells ball b queries: the 3x3 block around its own (clamped) cell. */
  function QueryCells(b: Ball): (cells: seq<(int, int)>)
    ensures forall k :: 0 <= k < |cells| ==> InBounds(cells[k].0, cells[k].1)
  {
    NeighbourCells(Column(b.position.x), Row(b.position.z))
  }

  /** The body of the sub-step loop for ball i. */
  function StepBall(grid: Grid, balls: seq<Ball>, i: nat, flag: bool, table: Table, sqrt: real -> real)
    : (r: Outcome<(seq<Ball>, bool)>)
    requires i < |balls| && WellFormed(grid, |balls|) && PositiveRadii(balls) && IsSqrt(sqrt)
    ensures r.Ok? ==> Successor(balls, r.value.0)
    ensures r.Ok? && Parked(balls) ==> Parked(r.value.0)
    ensures r.Ok? ==> (flag ==> r.value.1) && (r.value.1 != flag ==> balls[i].active && IsCue(balls[i]))
    ensures r.Ok? ==> forall k :: 0 <= k < i ==> r.value.0[k] == balls[k]
    ensures !balls[i].active ==> r == Ok((balls, flag))
  {
    if !balls[i].active then Ok((balls, flag))
    else
      var b1 := Integrate(balls[i]);
      var balls1 := balls[i := b1];
      var cands := Candidates(grid, QueryCells(b1));
      CandidatesBelow(grid, QueryCells(b1), |balls|);
      match PairPass(balls1, i, cands, sqrt)
      case Degenerate => Degenerate
      case Ok(balls2) => FinishBall(balls, balls1, balls2, i, cands, flag, table, sqrt)
  }

  /** The rest of the loop body once the pair loop is done: walls and pockets
      for ball i, written back into the table. */
  function FinishBall(balls: seq<Ball>, balls1: seq<Ball>, balls2: seq<Ball>, i: nat, cands: seq<nat>,
                      flag: bool, table: Table, sqrt: real -> real): (r: Outcome<(seq<Ball>, bool)>)
    requires i < |balls| && balls[i].active && IsSqrt(sqrt)
    requires |balls1| == |balls| && balls1 == balls[i := balls1[i]] && SameIdentity(balls[i], balls1[i])
    requires OnlyMoved(balls1, balls2, {i} + Partners(balls1, i, cands))
    ensures r.Ok? ==> Successor(balls, r.value.0)
    ensures r.Ok? && Parked(balls) ==> Parked(r.value.0)
    ensures r.Ok? ==> (flag ==> r.value.1) && (r.value.1 != flag ==> IsCue(balls[i]))
    ensures r.Ok? ==> forall k :: 0 <= k < i ==> r.value.0[k] == balls[k]
  {
    match Boundaries(balls2[i], table, sqrt)
    case Degenerate => Degenerate
    case Ok(bf) =>
      StepBallFacts(balls, balls1, balls2, i, cands, bf.0);
      Ok((balls2[i := bf.0], flag || bf.1))
  }

  /** The bookkeeping behind StepBall's contract. */
  lemma StepBallFacts(balls: seq<Ball>, balls1: seq<Ball>, balls2: seq<Ball>, i: nat, cands: seq<nat>, b: Ball)
    requires i < |balls| && balls[i].active
    requires |balls1| == |balls| && balls1 == balls[i := balls1[i]] && SameIdentity(balls[i], balls1[i])
    requires OnlyMoved(balls1, balls2, {i} + Partners(balls1, i, cands))
    requires b.radius == balls2[i].radius && b.textureUnit == balls2[i].textureUnit
    requires IsCue(balls2[i]) ==> b.active
    requires !b.active ==> b.position == Sentinel && b.velocity == Zero3
    ensures Successor(balls, balls2[i := b])
    ensures Parked(balls) ==> Parked(balls2[i := b])
    ensures forall k :: 0 <= k < i ==> balls2[i := b][k] == balls[k]
  {
    var after := balls2[i := b];
    forall k | 0 <= k < |balls| && k != i
      ensures after[k] == balls2[k]
      ensures !balls[k].active || k < i ==> after[k] == balls[k]
      ensures SameIdentity(balls[k], after[k])
    {
      assert balls1[k] == balls[k];
      if k in Partners(balls1, i, cands) {
        assert IsPartner(balls1, i, k);
      }
    }
  }

  /** The sub-step loop from ball i onwards. */
  function StepFrom(grid: Grid, balls: seq<Ball>, i: nat, flag: bool, table: Table, sqrt: real -> real)
    : (r: Outcome<(seq<Ball>, bool)>)
    requires i <= |balls| && WellFormed(grid, |balls|) && PositiveRadii(balls) && IsSqrt(sqrt)
    ensures r.Ok? ==> Successor(balls, r.value.0)
    ensures r.Ok? && Parked(balls) ==> Parked(r.value.0)
    ensures r.Ok? ==> (flag ==> r.value.1)
    decreases |balls| - i
  {
    if i == |balls| then Ok((balls, flag))
    else
      match StepBall(grid, balls, i, flag, table, sqrt)
      case Degenerate => Degenerate
      case Ok(next) =>
        SuccessorKeepsRadii(balls, next.0);
        var r := StepFrom(grid, next.0, i + 1, next.1, table, sqrt);
        if r.Ok? then SuccessorTransitive(balls, next.0, r.value.0); r else r
  }

  /** One whole sub-step: rebuild the grid, then run every ball. */
  function Substep(balls: seq<Ball>, flag: bool, table: Table, sqrt: real -> real): (r: Outcome<(seq<Ball>, bool)>)
    requires PositiveRadii(balls) && IsSqrt(sqrt)
    ensures r.Ok? ==> Successor(balls, r.value.0)
    ensures r.Ok? && Parked(balls) ==> Parked(r.value.0)
    ensures r.Ok? ==> (flag ==> r.value.1)
  {
    GridOfWellFormed(balls);
    StepFrom(GridOf(balls), balls, 0, flag, table, sqrt)
  }
}
