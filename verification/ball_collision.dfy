/** Ball-ball collisions of src/Colisoes.cpp:98-131: the 3x3 neighbourhood
    query on the grid, the j > i pair rule, and the symmetric push plus
    equal-mass impulse. */
module BallCollision {
  import opened Vectors
  import opened Numeric
  import opened GameObjects
  import opened SpatialGrid

  /** The fields a collision never changes. */
  predicate SameIdentity(b: Ball, b': Ball) {
    b'.radius == b.radius && b'.active == b.active && b'.textureUnit == b.textureUnit
  }

  /** Kinetic energy of a pair of unit-mass balls, doubled. */
  function PairEnergy(a: Ball, b: Ball): real {
    Dot(a.velocity, a.velocity) + Dot(b.velocity, b.velocity)
  }

  /** Resolves an overlap between `a` and `b`, given the centre distance `dist`
      and the unit normal `n` from b towards a (d = dist * n). Both centres move
      half the penetration along n; unless the pair is already separating, an
      impulse of -(1 + e) * proj / 2 along n goes to a and its opposite to b. */
  function Resolve(a: Ball, b: Ball, dist: real, n: Vec3): (r: (Ball, Ball))
    requires Dot(n, n) == 1.0 && Sub(a.position, b.position) == Scale(dist, n)
    requires 0.0 <= dist < a.radius + b.radius
    ensures SameIdentity(a, r.0) && SameIdentity(b, r.1)
    ensures r.0.angularVelocity == a.angularVelocity && r.1.angularVelocity == b.angularVelocity
    ensures Add(r.0.position, r.1.position) == Add(a.position, b.position)
    ensures Add(r.0.velocity, r.1.velocity) == Add(a.velocity, b.velocity)
    ensures Dot(Sub(a.velocity, b.velocity), n) > 0.0 ==>
              r.0.velocity == a.velocity && r.1.velocity == b.velocity
  {
    var penetration := a.radius + b.radius - dist;
    var push := Scale(penetration / 2.0, n);
    var a1 := a.(position := Add(a.position, push));
    var b1 := b.(position := Sub(b.position, push));
    var proj := Dot(Sub(a.velocity, b.velocity), n);
    if proj > 0.0 then (a1, b1)
    else
      var impulse := Scale(ImpulseSize(proj), n);
      (a1.(velocity := Add(a.velocity, impulse)), b1.(velocity := Sub(b.velocity, impulse)))
  }

  /** After the push the centres are exactly one radius sum apart, along n. */
  lemma PushRestoresContact(a: Ball, b: Ball, dist: real, n: Vec3)
    requires Dot(n, n) == 1.0 && Sub(a.position, b.position) == Scale(dist, n)
    requires 0.0 <= dist < a.radius + b.radius
    ensures Sub(Resolve(a, b, dist, n).0.position, Resolve(a, b, dist, n).1.position) == Scale(a.radius + b.radius, n)
    ensures Dot(Sub(Resolve(a, b, dist, n).0.position, Resolve(a, b, dist, n).1.position),
                Sub(Resolve(a, b, dist, n).0.position, Resolve(a, b, dist, n).1.position))
            == (a.radius + b.radius) * (a.radius + b.radius)
  {
    var s := a.radius + b.radius;
    PushedPositions(a, b, dist, n);
    SymmetricPush(a.position, b.position, dist, s, n);
    ScaledUnitLength(s, n);
  }

  lemma PushedPositions(a: Ball, b: Ball, dist: real, n: Vec3)
    requires Dot(n, n) == 1.0 && Sub(a.position, b.position) == Scale(dist, n)
    requires 0.0 <= dist < a.radius + b.radius
    ensures Resolve(a, b, dist, n).0.position == Add(a.position, Scale((a.radius + b.radius - dist) / 2.0, n))
    ensures Resolve(a, b, dist, n).1.position == Sub(b.position, Scale((a.radius + b.radius - dist) / 2.0, n))
  {
  }

  lemma SymmetricPush(pa: Vec3, pb: Vec3, dist: real, s: real, n: Vec3)
    requires Sub(pa, pb) == Scale(dist, n)
    ensures Sub(Add(pa, Scale((s - dist) / 2.0, n)), Sub(pb, Scale((s - dist) / 2.0, n))) == Scale(s, n)
  {
    var h := (s - dist) / 2.0;
    assert pa.x - pb.x == dist * n.x && pa.y - pb.y == dist * n.y && pa.z - pb.z == dist * n.z;
    assert h * n.x + h * n.x + dist * n.x == s * n.x;
    assert h * n.y + h * n.y + dist * n.y == s * n.y;
    assert h * n.z + h * n.z + dist * n.z == s * n.z;
  }

  lemma ScaledUnitLength(s: real, n: Vec3)
    requires Dot(n, n) == 1.0
    ensures Dot(Scale(s, n), Scale(s, n)) == s * s
  {
    assert Dot(Scale(s, n), Scale(s, n)) == (s * s) * Dot(n, n);
  }

  /** The impulse an approaching pair exchanges along n. */
  function ImpulseSize(proj: real): real { -(1.0 + Restitution) * proj / 2.0 }

  /** For an approaching pair the velocities change by opposite impulses. */
  lemma ApproachVelocities(a: Ball, b: Ball, dist: real, n: Vec3)
    requires Dot(n, n) == 1.0 && Sub(a.position, b.position) == Scale(dist, n)
    requires 0.0 <= dist < a.radius + b.radius
    requires Dot(Sub(a.velocity, b.velocity), n) <= 0.0
    ensures Resolve(a, b, dist, n).0.velocity == Add(a.velocity, Scale(ImpulseSize(Dot(Sub(a.velocity, b.velocity), n)), n))
    ensures Resolve(a, b, dist, n).1.velocity == Sub(b.velocity, Scale(ImpulseSize(Dot(Sub(a.velocity, b.velocity), n)), n))
  {
  }

  /** Opposite impulses k n change the normal relative velocity by 2k. */
  lemma RelativeAfterImpulse(va: Vec3, vb: Vec3, k: real, n: Vec3)
    requires Dot(n, n) == 1.0
    ensures Dot(Sub(Add(va, Scale(k, n)), Sub(vb, Scale(k, n))), n) == Dot(Sub(va, vb), n) + 2.0 * k
  {
    assert Sub(Add(va, Scale(k, n)), Sub(vb, Scale(k, n))) == Add(Sub(va, vb), Scale(2.0 * k, n));
    DotAddScaled(Sub(va, vb), 2.0 * k, n);
  }

  /** Opposite impulses m change the summed squared speeds by
      2 (va - vb).m + 2 |m|^2. */
  lemma EnergyAfterImpulse(va: Vec3, vb: Vec3, m: Vec3)
    ensures Dot(Add(va, m), Add(va, m)) + Dot(Sub(vb, m), Sub(vb, m))
            == Dot(va, va) + Dot(vb, vb) + 2.0 * Dot(Sub(va, vb), m) + 2.0 * Dot(m, m)
  {
  }

  lemma DotScale(v: Vec3, k: real, n: Vec3)
    ensures Dot(v, Scale(k, n)) == k * Dot(v, n)
  {
  }

  /** For an approaching pair the normal relative velocity is reversed and
      scaled by the restitution coefficient, so afterwards the pair separates. */
  lemma ImpulseReversesApproach(a: Ball, b: Ball, dist: real, n: Vec3)
    requires Dot(n, n) == 1.0 && Sub(a.position, b.position) == Scale(dist, n)
    requires 0.0 <= dist < a.radius + b.radius
    requires Dot(Sub(a.velocity, b.velocity), n) <= 0.0
    ensures Dot(Sub(Resolve(a, b, dist, n).0.velocity, Resolve(a, b, dist, n).1.velocity), n)
            == -Restitution * Dot(Sub(a.velocity, b.velocity), n)
    ensures Dot(Sub(Resolve(a, b, dist, n).0.velocity, Resolve(a, b, dist, n).1.velocity), n) >= 0.0
  {
    var proj := Dot(Sub(a.velocity, b.velocity), n);
    ApproachVelocities(a, b, dist, n);
    RelativeAfterImpulse(a.velocity, b.velocity, ImpulseSize(proj), n);
  }

  lemma DotAddScaled(v: Vec3, k: real, n: Vec3)
    requires Dot(n, n) == 1.0
    ensures Dot(Add(v, Scale(k, n)), n) == Dot(v, n) + k
  {
    assert Dot(Add(v, Scale(k, n)), n) == Dot(v, n) + k * Dot(n, n);
  }

  /** The collision never adds energy: the pair energy (the sum of squared
      speeds, twice the kinetic energy of two unit masses) drops by exactly
      (1 - e^2) / 2 * proj^2 for an approaching pair, so the kinetic energy
      drops by (1 - e^2) / 4 * proj^2, and is unchanged otherwise; the normal
      relative speed never grows. */
  lemma CollisionDissipates(a: Ball, b: Ball, dist: real, n: Vec3)
    requires Dot(n, n) == 1.0 && Sub(a.position, b.position) == Scale(dist, n)
    requires 0.0 <= dist < a.radius + b.radius
    ensures var proj := Dot(Sub(a.velocity, b.velocity), n);
            PairEnergy(Resolve(a, b, dist, n).0, Resolve(a, b, dist, n).1)
            == PairEnergy(a, b) - (if proj <= 0.0 then (1.0 - Restitution * Restitution) / 2.0 * (proj * proj) else 0.0)
    ensures PairEnergy(Resolve(a, b, dist, n).0, Resolve(a, b, dist, n).1) <= PairEnergy(a, b)
    ensures var proj := Dot(Sub(a.velocity, b.velocity), n);
            var post := Dot(Sub(Resolve(a, b, dist, n).0.velocity, Resolve(a, b, dist, n).1.velocity), n);
            post * post <= proj * proj
  {
    var proj := Dot(Sub(a.velocity, b.velocity), n);
    var r := Resolve(a, b, dist, n);
    var e := (1.0 - Restitution * Restitution) / 2.0 * (proj * proj);
    if proj <= 0.0 {
      ApproachLosesEnergy(a, b, dist, n);
      assert 0.0 <= e;
    } else {
      assert r.0.velocity == a.velocity && r.1.velocity == b.velocity;
    }
  }

  /** CollisionDissipates for an approaching pair. */
  lemma ApproachLosesEnergy(a: Ball, b: Ball, dist: real, n: Vec3)
    requires Dot(n, n) == 1.0 && Sub(a.position, b.position) == Scale(dist, n)
    requires 0.0 <= dist < a.radius + b.radius
    requires Dot(Sub(a.velocity, b.velocity), n) <= 0.0
    ensures var proj := Dot(Sub(a.velocity, b.velocity), n);
            PairEnergy(Resolve(a, b, dist, n).0, Resolve(a, b, dist, n).1)
            == PairEnergy(a, b) - (1.0 - Restitution * Restitution) / 2.0 * (proj * proj)
    ensures var proj := Dot(Sub(a.velocity, b.velocity), n);
            var post := Dot(Sub(Resolve(a, b, dist, n).0.velocity, Resolve(a, b, dist, n).1.velocity), n);
            0.0 <= proj * proj && post * post <= proj * proj
  {
    var proj := Dot(Sub(a.velocity, b.velocity), n);
    var r := Resolve(a, b, dist, n);
    var k := ImpulseSize(proj);
    ApproachVelocities(a, b, dist, n);
    EnergyAfterImpulse(a.velocity, b.velocity, Scale(k, n));
    DotScale(Sub(a.velocity, b.velocity), k, n);
    ScaledUnitLength(k, n);
    ImpulseReversesApproach(a, b, dist, n);
    DissipationScalar(proj, k, Dot(Sub(r.0.velocity, r.1.velocity), n));
  }

  /** The scalar facts behind CollisionDissipates. */
  lemma DissipationScalar(proj: real, k: real, post: real)
    requires k == ImpulseSize(proj) && post == -Restitution * proj
    ensures 2.0 * k * proj + 2.0 * k * k == -((1.0 - Restitution * Restitution) / 2.0 * (proj * proj))
    ensures 0.0 <= proj * proj && post * post <= proj * proj
  {
    assert post * post == 0.64 * (proj * proj);
  }

  /** The centres of a and b are closer than the radius sum. */
  predicate Overlap(a: Ball, b: Ball) {
    var d := Sub(a.position, b.position);
    var s := a.radius + b.radius;
    0.0 < s && Dot(d, d) < s * s
  }

  /** What resolving the pair (a, b) into (a2, b2) guarantees, in terms of the
      offset d = a - b between the centres before the collision: identities and
      the summed positions and velocities are kept; the pair changes exactly
      when it overlaps; an overlapping pair ends one radius sum apart, an
      approaching one (w = (va - vb).d <= 0) has its approach along d reversed
      and damped by the restitution coefficient, a separating one keeps its
      velocities; and the sum of squared speeds never grows. */
  ghost predicate PairResolved(a: Ball, b: Ball, a2: Ball, b2: Ball) {
    var d := Sub(a.position, b.position);
    var w := Dot(Sub(a.velocity, b.velocity), d);
    var s := a.radius + b.radius;
    SameIdentity(a, a2) && SameIdentity(b, b2) &&
    Add(a2.position, b2.position) == Add(a.position, b.position) &&
    Add(a2.velocity, b2.velocity) == Add(a.velocity, b.velocity) &&
    ((a2, b2) == (a, b) <==> !Overlap(a, b)) &&
    (Overlap(a, b) ==>
       Dot(Sub(a2.position, b2.position), Sub(a2.position, b2.position)) == s * s &&
       (w <= 0.0 ==> Dot(Sub(a2.velocity, b2.velocity), d) == -Restitution * w) &&
       (0.0 < w ==> a2.velocity == a.velocity && b2.velocity == b.velocity)) &&
    PairEnergy(a2, b2) <= PairEnergy(a, b)
  }

  /** Looks for an overlap between balls a and b (glm::length through `sqrt`)
      and resolves it. Coincident centres cannot be normalised: Degenerate. */
  function Collide(a: Ball, b: Ball, sqrt: real -> real): (r: Outcome<(Ball, Ball)>)
    requires IsSqrt(sqrt)
    ensures r.Degenerate? <==> a.position == b.position && 0.0 < a.radius + b.radius
    ensures r.Ok? ==> PairResolved(a, b, r.value.0, r.value.1)
  {
    var d := Sub(a.position, b.position);
    var dist := Length(d, sqrt);
    SubZero(a.position, b.position);
    OverlapByLength(a, b, dist);
    if dist < a.radius + b.radius then
      if dist == 0.0 then Degenerate
      else
        var n := Normalize(d, dist);
        PushRestoresContact(a, b, dist, n);
        CollisionAlongOffset(a, b, dist, n);
        Ok(Resolve(a, b, dist, n))
    else Ok((a, b))
  }

  /** The velocity facts of Resolve restated along the offset d = dist n that
      the simulation actually measures, rather than along the unit normal. */
  lemma CollisionAlongOffset(a: Ball, b: Ball, dist: real, n: Vec3)
    requires Dot(n, n) == 1.0 && Sub(a.position, b.position) == Scale(dist, n)
    requires 0.0 < dist < a.radius + b.radius
    ensures var d := Sub(a.position, b.position);
            var w := Dot(Sub(a.velocity, b.velocity), d);
            var r := Resolve(a, b, dist, n);
            (w <= 0.0 ==> Dot(Sub(r.0.velocity, r.1.velocity), d) == -Restitution * w) &&
            (0.0 < w ==> r.0.velocity == a.velocity && r.1.velocity == b.velocity) &&
            PairEnergy(r.0, r.1) <= PairEnergy(a, b)
  {
    var r := Resolve(a, b, dist, n);
    var proj := Dot(Sub(a.velocity, b.velocity), n);
    var post := Dot(Sub(r.0.velocity, r.1.velocity), n);
    DotScale(Sub(a.velocity, b.velocity), dist, n);
    DotScale(Sub(r.0.velocity, r.1.velocity), dist, n);
    CollisionDissipates(a, b, dist, n);
    if proj <= 0.0 {
      ImpulseReversesApproach(a, b, dist, n);
      assert dist * post == -Restitution * (dist * proj);
    } else {
      assert 0.0 < dist * proj;
    }
  }

  /** The source's length test is the overlap test. */
  lemma OverlapByLength(a: Ball, b: Ball, dist: real)
    requires 0.0 <= dist && dist * dist == Dot(Sub(a.position, b.position), Sub(a.position, b.position))
    ensures dist < a.radius + b.radius <==> Overlap(a, b)
  {
    var s := a.radius + b.radius;
    if 0.0 <= s {
      RootBelow(Dot(Sub(a.position, b.position), Sub(a.position, b.position)), dist, s);
    }
  }

  // ---- Pair selection ----

  /** The 3x3 offsets in the loop order of the source: dc outer, dr inner. */
  const Offsets: seq<(int, int)> :=
    [(-1, -1), (-1, 0), (-1, 1), (0, -1), (0, 0), (0, 1), (1, -1), (1, 0), (1, 1)]

  predicate InBounds(c: int, r: int) { 0 <= c < GridCols && 0 <= r < GridRows }

  ghost predicate Distinct<T>(s: seq<T>) {
    forall p, q :: 0 <= p < q < |s| ==> s[p] != s[q]
  }

  function KeepInBounds(col: int, row: int, offs: seq<(int, int)>): (cells: seq<(int, int)>)
    ensures forall k :: 0 <= k < |cells| ==> InBounds(cells[k].0, cells[k].1)
    ensures forall cell :: cell in cells <==>
              InBounds(cell.0, cell.1) && (cell.0 - col, cell.1 - row) in offs
  {
    if offs == [] then []
    else
      var cell := (col + offs[0].0, row + offs[0].1);
      (if InBounds(cell.0, cell.1) then [cell] else []) + KeepInBounds(col, row, offs[1..])
  }

  /** The cells the source visits around (col, row): the in-bounds ones of the
      3x3 block, in loop order. */
  function NeighbourCells(col: int, row: int): (cells: seq<(int, int)>)
    ensures forall k :: 0 <= k < |cells| ==> InBounds(cells[k].0, cells[k].1)
  {
    KeepInBounds(col, row, Offsets)
  }

  /** The neighbour cells are exactly the in-bounds cells within one step
      (both directions of the equivalence), each listed once. */
  lemma NeighbourCellsExact(col: int, row: int)
    ensures forall c, r :: (c, r) in NeighbourCells(col, row) <==>
              InBounds(c, r) && -1 <= c - col <= 1 && -1 <= r - row <= 1
    ensures Distinct(NeighbourCells(col, row))
  {
    OffsetsBlock();
    KeepBlock(col, row, Offsets);
    NeighbourCellsDistinct(col, row);
  }

  lemma NeighbourCellsDistinct(col: int, row: int)
    ensures Distinct(NeighbourCells(col, row))
  {
    OffsetsDistinct();
    KeepDistinct(col, row, Offsets);
  }

  /** Filtering any listing of the 3x3 block keeps exactly its in-bounds cells. */
  lemma KeepBlock(col: int, row: int, offs: seq<(int, int)>)
    requires forall dc, dr :: (dc, dr) in offs <==> -1 <= dc <= 1 && -1 <= dr <= 1
    ensures forall c, r :: (c, r) in KeepInBounds(col, row, offs) <==>
              InBounds(c, r) && -1 <= c - col <= 1 && -1 <= r - row <= 1
  {
    forall c, r
      ensures (c, r) in KeepInBounds(col, row, offs) <==>
              InBounds(c, r) && -1 <= c - col <= 1 && -1 <= r - row <= 1
    {
      assert (c, r).0 - col == c - col && (c, r).1 - row == r - row;
    }
  }

  lemma OffsetsBlock()
    ensures forall dc, dr :: (dc, dr) in Offsets <==> -1 <= dc <= 1 && -1 <= dr <= 1
  {
    forall dc, dr
      ensures (dc, dr) in Offsets <==> -1 <= dc <= 1 && -1 <= dr <= 1
    {
      OffsetsExact(dc, dr);
    }
  }

  /** No offset is listed twice: each one encodes its own position. */
  lemma OffsetsDistinct()
    ensures Distinct(Offsets)
  {
    assert forall k :: 0 <= k < |Offsets| ==> 3 * (Offsets[k].0 + 1) + (Offsets[k].1 + 1) == k;
  }

  /** The offsets are exactly the steps of at most one cell in each direction. */
  lemma OffsetsExact(dc: int, dr: int)
    ensures (dc, dr) in Offsets <==> -1 <= dc <= 1 && -1 <= dr <= 1
  {
    assert forall k :: 0 <= k < |Offsets| ==> -1 <= Offsets[k].0 <= 1 && -1 <= Offsets[k].1 <= 1;
    if -1 <= dc <= 1 && -1 <= dr <= 1 {
      var k := 3 * (dc + 1) + (dr + 1);
      assert Offsets[k] == (dc, dr);
    }
  }

  lemma {:induction false} KeepDistinct(col: int, row: int, offs: seq<(int, int)>)
    requires Distinct(offs)
    ensures Distinct(KeepInBounds(col, row, offs))
  {
    if offs != [] {
      KeepDistinct(col, row, offs[1..]);
      var head := if InBounds(col + offs[0].0, row + offs[0].1) then [(col + offs[0].0, row + offs[0].1)] else [];
      var tail := KeepInBounds(col, row, offs[1..]);
      assert offs[0] !in offs[1..];
      DistinctConcat(head, tail);
    }
  }

  lemma DistinctConcat<T>(a: seq<T>, b: seq<T>)
    requires Distinct(a) && Distinct(b)
    requires forall x :: x in a ==> x !in b
    ensures Distinct(a + b)
  {
    forall p, q | 0 <= p < q < |a + b|
      ensures (a + b)[p] != (a + b)[q]
    {
      if q >= |a| && p < |a| {
        assert (a + b)[p] in a;
        assert (a + b)[q] in b;
      }
    }
  }

  /** The indices filed under the given cells, bucket after bucket. */
  function Candidates(grid: Grid, cells: seq<(int, int)>): seq<nat>
    requires |grid| == GridCols && forall c :: 0 <= c < GridCols ==> |grid[c]| == GridRows
    requires forall k :: 0 <= k < |cells| ==> InBounds(cells[k].0, cells[k].1)
  {
    if cells == [] then []
    else
      assert InBounds(cells[0].0, cells[0].1);
      grid[cells[0].0][cells[0].1] + Candidates(grid, cells[1..])
  }

  /** Candidates drawn from a well-formed grid for n balls are below n. */
  lemma {:induction false} CandidatesBelow(grid: Grid, cells: seq<(int, int)>, n: nat)
    requires WellFormed(grid, n)
    requires forall m :: 0 <= m < |cells| ==> InBounds(cells[m].0, cells[m].1)
    ensures forall k :: 0 <= k < |Candidates(grid, cells)| ==> Candidates(grid, cells)[k] < n
  {
    if cells != [] {
      CandidatesBelow(grid, cells[1..], n);
      var head := grid[cells[0].0][cells[0].1];
      assert forall k :: 0 <= k < |head| ==> head[k] < n;
    }
  }

  /** Every candidate taken from the grid of `balls` is an active ball whose
      own cell is one of the queried cells. */
  lemma {:induction false} CandidateCell(balls: seq<Ball>, cells: seq<(int, int)>, k: nat)
    requires forall m :: 0 <= m < |cells| ==> InBounds(cells[m].0, cells[m].1)
    requires k in Candidates(GridOf(balls), cells)
    ensures k < |balls| && balls[k].active
    ensures (Column(balls[k].position.x), Row(balls[k].position.z)) in cells
  {
    var c0, r0 := cells[0].0, cells[0].1;
    if k in GridOf(balls)[c0][r0] {
      BucketMembers(balls, c0, r0, |balls|, k);
    } else {
      CandidateCell(balls, cells[1..], k);
    }
  }

  /** Conversely, every active ball whose own cell is queried is a candidate. */
  lemma {:induction false} CandidatesComplete(balls: seq<Ball>, cells: seq<(int, int)>, k: nat)
    requires forall m :: 0 <= m < |cells| ==> InBounds(cells[m].0, cells[m].1)
    requires k < |balls| && balls[k].active
    requires (Column(balls[k].position.x), Row(balls[k].position.z)) in cells
    ensures k in Candidates(GridOf(balls), cells)
  {
    var c0, r0 := cells[0].0, cells[0].1;
    BucketMembers(balls, c0, r0, |balls|, k);
    if cells[0] != (Column(balls[k].position.x), Row(balls[k].position.z)) {
      CandidatesComplete(balls, cells[1..], k);
    }
  }

  /** Over distinct cells the candidates of one grid contain no index twice. */
  lemma {:induction false} CandidatesDistinct(balls: seq<Ball>, cells: seq<(int, int)>)
    requires forall m :: 0 <= m < |cells| ==> InBounds(cells[m].0, cells[m].1)
    requires Distinct(cells)
    ensures Distinct(Candidates(GridOf(balls), cells))
  {
    if cells != [] {
      var c0, r0 := cells[0].0, cells[0].1;
      var head := GridOf(balls)[c0][r0];
      var tail := Candidates(GridOf(balls), cells[1..]);
      CandidatesDistinct(balls, cells[1..]);
      BucketIncreasing(balls, c0, r0, |balls|);
      forall x | x in head
        ensures x !in tail
      {
        BucketMembers(balls, c0, r0, |balls|, x);
        if x in tail {
          CandidateCell(balls, cells[1..], x);
        }
      }
      DistinctConcat(head, tail);
    }
  }

  /** j is a partner of i: the source resolves (i, j) only for active j > i. */
  predicate IsPartner(balls: seq<Ball>, i: nat, j: nat) {
    i < j < |balls| && balls[j].active
  }

  /** Balls `after` keep every identity of `before`, and every ball outside
      `moved` is untouched. */
  ghost predicate OnlyMoved(before: seq<Ball>, after: seq<Ball>, moved: set<nat>) {
    |after| == |before| &&
    (forall k :: 0 <= k < |before| ==> SameIdentity(before[k], after[k])) &&
    (forall k :: 0 <= k < |before| && k !in moved ==> after[k] == before[k])
  }

  /** Collides balls i and j of the table and writes both back. */
  function CollideAt(balls: seq<Ball>, i: nat, j: nat, sqrt: real -> real): (r: Outcome<seq<Ball>>)
    requires i < |balls| && j < |balls| && i != j && IsSqrt(sqrt)
    ensures r.Ok? ==> OnlyMoved(balls, r.value, {i, j})
    ensures r.Degenerate? <==> balls[i].position == balls[j].position && 0.0 < balls[i].radius + balls[j].radius
    ensures r.Ok? ==> (r.value == balls <==> !Overlap(balls[i], balls[j]))
    ensures r.Ok? ==> PairResolved(balls[i], balls[j], r.value[i], r.value[j])
  {
    match Collide(balls[i], balls[j], sqrt)
    case Degenerate => Degenerate
    case Ok(ab) =>
      WriteBack(balls, i, j, ab.0, ab.1);
      assert balls[i := ab.0][j := ab.1] == balls ==> ab == (balls[i], balls[j]) by {
        if balls[i := ab.0][j := ab.1] == balls {
          assert balls[i := ab.0][j := ab.1][i] == ab.0 && balls[i := ab.0][j := ab.1][j] == ab.1;
        }
      }
      Ok(balls[i := ab.0][j := ab.1])
  }

  lemma WriteBack(balls: seq<Ball>, i: nat, j: nat, a: Ball, b: Ball)
    requires i < |balls| && j < |balls| && i != j
    requires SameIdentity(balls[i], a) && SameIdentity(balls[j], b)
    ensures OnlyMoved(balls, balls[i := a][j := b], {i, j})
  {
  }

  /** The partners of i among the candidates. */
  ghost function Partners(balls: seq<Ball>, i: nat, cands: seq<nat>): set<nat> {
    set k | k in cands && IsPartner(balls, i, k)
  }

  /** The collision loop of ball i over the candidate list. Only ball i and its
      partners can change; identities never change. */
  function PairPass(balls: seq<Ball>, i: nat, cands: seq<nat>, sqrt: real -> real): (r: Outcome<seq<Ball>>)
    requires i < |balls| && IsSqrt(sqrt)
    requires forall k :: 0 <= k < |cands| ==> cands[k] < |balls|
    ensures r.Ok? ==> OnlyMoved(balls, r.value, {i} + Partners(balls, i, cands))
    decreases |cands|
  {
    if cands == [] then Ok(balls)
    else
      match PairHead(balls, i, cands[0], sqrt)
      case Degenerate => Degenerate
      case Ok(next) =>
        var r := PairPass(next, i, cands[1..], sqrt);
        PassTail(balls, next, r, i, cands, if IsPartner(balls, i, cands[0]) then {i, cands[0]} else {});
        r
  }

  /** One iteration of the collision loop: candidate j is skipped unless it is
      a partner of i, in which case the pair is collided. */
  function PairHead(balls: seq<Ball>, i: nat, j: nat, sqrt: real -> real): (r: Outcome<seq<Ball>>)
    requires i < |balls| && j < |balls| && IsSqrt(sqrt)
    ensures r.Ok? ==> OnlyMoved(balls, r.value, if IsPartner(balls, i, j) then {i, j} else {})
    ensures r.Degenerate? <==> IsPartner(balls, i, j) && balls[i].position == balls[j].position &&
                               0.0 < balls[i].radius + balls[j].radius
    ensures !IsPartner(balls, i, j) ==> r == Ok(balls)
    ensures r.Ok? && IsPartner(balls, i, j) ==>
              (r.value == balls <==> !Overlap(balls[i], balls[j])) &&
              PairResolved(balls[i], balls[j], r.value[i], r.value[j])
  {
    if j <= i || !balls[j].active then Ok(balls)
    else CollideAt(balls, i, j, sqrt)
  }

  /** Composes the effect of the first candidate with that of the rest. */
  lemma PassTail(balls: seq<Ball>, mid: seq<Ball>, r: Outcome<seq<Ball>>, i: nat, cands: seq<nat>, moved: set<nat>)
    requires cands != [] && OnlyMoved(balls, mid, moved)
    requires moved <= {i} + Partners(balls, i, cands)
    requires r.Ok? ==> OnlyMoved(mid, r.value, {i} + Partners(mid, i, cands[1..]))
    ensures r.Ok? ==> OnlyMoved(balls, r.value, {i} + Partners(balls, i, cands))
  {
    if r.Ok? {
      forall k | k in Partners(mid, i, cands[1..])
        ensures k in Partners(balls, i, cands)
      {
        assert SameIdentity(balls[k], mid[k]);
      }
    }
  }

  /** Ball b's own cell is within one step of (col, row). */
  predicate NearCell(b: Ball, col: int, row: int) {
    -1 <= Column(b.position.x) - col <= 1 && -1 <= Row(b.position.z) - row <= 1
  }

  /** Pair selection: for the grid built at the start of the sub-step, the
      candidates of the cell (col, row) are exactly the balls active at the
      start whose own cell is within one step of it, each listed once. */
  lemma PairSelection(start: seq<Ball>, col: int, row: int)
    ensures var cands := Candidates(GridOf(start), NeighbourCells(col, row));
            (forall k :: 0 <= k < |cands| ==> cands[k] < |start| && start[cands[k]].active) &&
            Distinct(cands) &&
            (forall j :: 0 <= j < |start| && start[j].active && NearCell(start[j], col, row) ==> j in cands)
  {
    var cells := NeighbourCells(col, row);
    var cands := Candidates(GridOf(start), cells);
    NeighbourCellsDistinct(col, row);
    CandidatesDistinct(start, cells);
    forall k | 0 <= k < |cands|
      ensures cands[k] < |start| && start[cands[k]].active
    {
      CandidateCell(start, cells, cands[k]);
    }
    NeighboursAreCandidates(start, col, row);
  }

  /** Every ball active at the start whose cell is within one step is queried. */
  lemma NeighboursAreCandidates(start: seq<Ball>, col: int, row: int)
    ensures forall j :: 0 <= j < |start| && start[j].active && NearCell(start[j], col, row) ==>
              j in Candidates(GridOf(start), NeighbourCells(col, row))
  {
    forall j | 0 <= j < |start| && start[j].active && NearCell(start[j], col, row)
      ensures j in Candidates(GridOf(start), NeighbourCells(col, row))
    {
      NearCellQueried(start[j], col, row);
      CandidatesComplete(start, NeighbourCells(col, row), j);
    }
  }

  lemma NearCellQueried(b: Ball, col: int, row: int)
    requires NearCell(b, col, row)
    ensures (Column(b.position.x), Row(b.position.z)) in NeighbourCells(col, row)
  {
    NeighbourCellsExact(col, row);
  }
}
