/** The uniform broad-phase grid of src/Colisoes.cpp:29-39 (duplicated in
    src/main.cpp:353-371): GridCols x GridRows buckets of ball indices,
    rebuilt from scratch at the start of every physics sub-step. */
module SpatialGrid {
  import opened Vectors
  import opened Numeric
  import opened GameObjects

  /** grid[col][row] lists the indices of the balls in that cell. */
  type Grid = seq<seq<seq<nat>>>

  /** The column of an x coordinate: truncating cast, then clamp. */
  function Column(x: real): (c: int)
    ensures 0 <= c < GridCols
  {
    ClampInt(Trunc((x + TableHalfWidth) / GridCellSize), 0, GridCols - 1)
  }

  /** The row of a z coordinate: truncating cast, then clamp. */
  function Row(z: real): (r: int)
    ensures 0 <= r < GridRows
  {
    ClampInt(Trunc((z + TableHalfDepth) / GridCellSize), 0, GridRows - 1)
  }

  /** Ball `b` is filed under cell (c, r): it is active and its centre maps there. */
  predicate InCell(b: Ball, c: int, r: int) {
    b.active && Column(b.position.x) == c && Row(b.position.z) == r
  }

  /** The reference content of one bucket: indices below n of the balls filed
      under (c, r), in increasing order. */
  function Bucket(balls: seq<Ball>, c: int, r: int, n: nat): seq<nat>
    requires n <= |balls|
  {
    if n == 0 then []
    else Bucket(balls, c, r, n - 1) + (if InCell(balls[n - 1], c, r) then [n - 1] else [])
  }

  /** The reference grid: every bucket as Bucket defines it. */
  function GridOf(balls: seq<Ball>): Grid {
    seq(GridCols, c => seq(GridRows, r => Bucket(balls, c, r, |balls|)))
  }

  /** Well-formed grid for n balls: the right shape, indices below n. */
  ghost predicate WellFormed(grid: Grid, n: nat) {
    |grid| == GridCols &&
    (forall c :: 0 <= c < GridCols ==> |grid[c]| == GridRows) &&
    (forall c, r, k :: 0 <= c < GridCols && 0 <= r < GridRows && 0 <= k < |grid[c][r]| ==>
       grid[c][r][k] < n)
  }

  ghost predicate StrictlyIncreasing(s: seq<nat>) {
    forall p, q :: 0 <= p < q < |s| ==> s[p] < s[q]
  }

  /** updateSpatialGrid: one pass over the balls in index order, appending each
      active ball's index to the bucket of its clamped cell. */
  method UpdateSpatialGrid(balls: seq<Ball>) returns (grid: Grid)
    ensures grid == GridOf(balls)
    ensures WellFormed(grid, |balls|)
  {
    grid := seq(GridCols, c => seq(GridRows, r => []));
    var i := 0;
    while i < |balls|
      invariant 0 <= i <= |balls|
      invariant |grid| == GridCols
      invariant forall c :: 0 <= c < GridCols ==> |grid[c]| == GridRows
      invariant forall c, r :: 0 <= c < GridCols && 0 <= r < GridRows ==>
                  grid[c][r] == Bucket(balls, c, r, i)
    {
      if balls[i].active {
        var col := Column(balls[i].position.x);
        var row := Row(balls[i].position.z);
        grid := grid[col := grid[col][row := grid[col][row] + [i]]];
      }
      i := i + 1;
    }
    forall c | 0 <= c < GridCols
      ensures grid[c] == GridOf(balls)[c]
    {
    }
    GridOfWellFormed(balls);
  }

  /** Membership in a bucket is exactly "filed under that cell". */
  lemma {:induction false} BucketMembers(balls: seq<Ball>, c: int, r: int, n: nat, k: nat)
    requires n <= |balls|
    ensures k in Bucket(balls, c, r, n) <==> k < n && InCell(balls[k], c, r)
  {
    if n > 0 {
      BucketMembers(balls, c, r, n - 1, k);
    }
  }

  /** Each bucket lists its indices in strictly increasing order. */
  lemma {:induction false} BucketIncreasing(balls: seq<Ball>, c: int, r: int, n: nat)
    requires n <= |balls|
    ensures StrictlyIncreasing(Bucket(balls, c, r, n))
  {
    if n > 0 {
      BucketIncreasing(balls, c, r, n - 1);
      var prev := Bucket(balls, c, r, n - 1);
      forall k | 0 <= k < |prev|
        ensures prev[k] < n - 1
      {
        BucketMembers(balls, c, r, n - 1, prev[k]);
      }
    }
  }

  lemma GridOfWellFormed(balls: seq<Ball>)
    ensures WellFormed(GridOf(balls), |balls|)
  {
    forall c, r, k | 0 <= c < GridCols && 0 <= r < GridRows && 0 <= k < |GridOf(balls)[c][r]|
      ensures GridOf(balls)[c][r][k] < |balls|
    {
      BucketMembers(balls, c, r, |balls|, GridOf(balls)[c][r][k]);
    }
  }

  /** Every active ball is in exactly one bucket (its own clamped cell, which is
      in bounds), inactive balls are in none, and every bucket is sorted. */
  lemma ActiveBallInExactlyOneBucket(balls: seq<Ball>, i: nat)
    requires i < |balls|
    ensures balls[i].active ==> i in GridOf(balls)[Column(balls[i].position.x)][Row(balls[i].position.z)]
    ensures forall c, r :: 0 <= c < GridCols && 0 <= r < GridRows && i in GridOf(balls)[c][r] ==>
              balls[i].active && c == Column(balls[i].position.x) && r == Row(balls[i].position.z)
    ensures forall c, r :: 0 <= c < GridCols && 0 <= r < GridRows ==> StrictlyIncreasing(GridOf(balls)[c][r])
  {
    forall c, r | 0 <= c < GridCols && 0 <= r < GridRows
      ensures i in GridOf(balls)[c][r] <==> InCell(balls[i], c, r)
      ensures StrictlyIncreasing(GridOf(balls)[c][r])
    {
      BucketMembers(balls, c, r, |balls|, i);
      BucketIncreasing(balls, c, r, |balls|);
    }
  }

  /** For a centre on the nominal table the clamp never fires: the cell's
      extent contains the point. */
  lemma CellContainsPoint(p: Vec3)
    requires -TableHalfWidth <= p.x <= TableHalfWidth
    requires -TableHalfDepth <= p.z <= TableHalfDepth
    ensures Column(p.x) as real * GridCellSize <= p.x + TableHalfWidth < (Column(p.x) + 1) as real * GridCellSize
    ensures Row(p.z) as real * GridCellSize <= p.z + TableHalfDepth < (Row(p.z) + 1) as real * GridCellSize
  {
    GridDimensions();
    var qc := (p.x + TableHalfWidth) / GridCellSize;
    var qr := (p.z + TableHalfDepth) / GridCellSize;
    assert 0.0 <= qc < 10.0;
    assert 0.0 <= qr < 22.0;
  }
}
