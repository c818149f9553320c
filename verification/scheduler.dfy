/** The fixed-step scheduler of src/Colisoes.cpp:42-55 and 212: the frame time
    is added to a persistent accumulator, and whole 1/120 s sub-steps are run
    while the accumulator holds one. */
module Scheduler {
  import opened Numeric
  import opened GameObjects
  import opened SpatialGrid
  import opened Physics

  /** The state SimularColisoes keeps between calls: the static accumulator,
      the balls, and the cue-ball positioning flag it may raise. */
  datatype World = World(accumulator: real, balls: seq<Ball>, positioning: bool)

  /** n sub-steps in a row, the last applied to the state left by the others. */
  function Run(balls: seq<Ball>, flag: bool, n: nat, table: Table, sqrt: real -> real): (r: Outcome<(seq<Ball>, bool)>)
    requires PositiveRadii(balls) && IsSqrt(sqrt)
    ensures r.Ok? ==> Successor(balls, r.value.0)
    ensures r.Ok? && Parked(balls) ==> Parked(r.value.0)
    ensures r.Ok? ==> (flag ==> r.value.1)
    decreases n
  {
    if n == 0 then Ok((balls, flag))
    else
      match Run(balls, flag, n - 1, table, sqrt)
      case Degenerate => Degenerate
      case Ok(s) =>
        SuccessorKeepsRadii(balls, s.0);
        var r := Substep(s.0, s.1, table, sqrt);
        if r.Ok? then SuccessorTransitive(balls, s.0, r.value.0); r else r
  }

  /** Once a run has hit a degenerate configuration, every longer run has too. */
  lemma {:induction false} DegenerateStays(balls: seq<Ball>, flag: bool, n: nat, m: nat, table: Table, sqrt: real -> real)
    requires PositiveRadii(balls) && IsSqrt(sqrt) && n <= m
    requires Run(balls, flag, n, table, sqrt).Degenerate?
    ensures Run(balls, flag, m, table, sqrt).Degenerate?
    decreases m
  {
    if n < m {
      DegenerateStays(balls, flag, n, m - 1, table, sqrt);
    }
  }

  /** The number of sub-steps an accumulator of `a` seconds holds. */
  function StepCount(a: real): (n: nat)
    ensures 0.0 <= a ==> n as real * FixedDt <= a < (n + 1) as real * FixedDt
    ensures a < FixedDt ==> n == 0
  {
    if a < 0.0 then 0 else (a * 120.0).Floor
  }

  /** SimularColisoes. Also returns the number of sub-steps it ran. The balls
      and flag it leaves are those of Run, so Run's contract (Successor, flag
      kept, Parked kept) carries over. */
  method SimularColisoes(w: World, deltaTime: real, table: Table, sqrt: real -> real)
    returns (r: Outcome<World>, steps: nat)
    requires PositiveRadii(w.balls) && IsSqrt(sqrt)
    ensures r.Ok? <==> Run(w.balls, w.positioning, StepCount(w.accumulator + deltaTime), table, sqrt).Ok?
    ensures r.Ok? ==> steps == StepCount(w.accumulator + deltaTime)
    ensures r.Ok? ==> r.value.accumulator == w.accumulator + deltaTime - steps as real * FixedDt
    ensures r.Ok? ==> r.value.accumulator < FixedDt
    ensures r.Ok? && 0.0 <= w.accumulator + deltaTime ==> 0.0 <= r.value.accumulator
    ensures r.Ok? ==> Run(w.balls, w.positioning, steps, table, sqrt) == Ok((r.value.balls, r.value.positioning))
  {
    var total := w.accumulator + deltaTime;
    var ok, acc, balls, flag;
    ok, acc, balls, flag, steps := Drain(w.balls, w.positioning, total, table, sqrt);
    if ok {
      StepsTaken(total, steps, acc);
      r := Ok(World(acc, balls, flag));
    } else {
      DegenerateStays(w.balls, w.positioning, steps, StepCount(total), table, sqrt);
      r := Degenerate;
    }
  }

  /** The loop of SimularColisoes: whole sub-steps while the accumulator holds
      one. Stops early, with ok false, at a degenerate configuration. */
  method Drain(balls0: seq<Ball>, flag0: bool, total: real, table: Table, sqrt: real -> real)
    returns (ok: bool, acc: real, balls: seq<Ball>, flag: bool, steps: nat)
    requires PositiveRadii(balls0) && IsSqrt(sqrt)
    ensures ok ==> acc == total - steps as real * FixedDt && acc < FixedDt && (0 < steps ==> 0.0 <= acc)
    ensures ok ==> Run(balls0, flag0, steps, table, sqrt) == Ok((balls, flag))
    ensures !ok ==> Run(balls0, flag0, steps, table, sqrt).Degenerate? && steps <= StepCount(total)
  {
    acc := total;
    balls, flag := balls0, flag0;
    steps := 0;
    while acc >= FixedDt
      invariant acc == total - steps as real * FixedDt
      invariant 0 < steps ==> 0.0 <= acc
      invariant Run(balls0, flag0, steps, table, sqrt) == Ok((balls, flag))
      decreases (acc * 120.0).Floor
    {
      RunNext(balls0, flag0, steps, table, sqrt);
      var next := RunSubstep(balls, flag, table, sqrt);
      if next.Degenerate? {
        StepsBelow(total, steps);
        return false, acc, balls, flag, steps + 1;
      }
      balls, flag := next.value.0, next.value.1;
      acc := acc - FixedDt;
      steps := steps + 1;
    }
    ok := true;
  }

  /** One pass of the loop body: rebuild the grid, then run every ball. */
  method RunSubstep(balls: seq<Ball>, flag: bool, table: Table, sqrt: real -> real)
    returns (r: Outcome<(seq<Ball>, bool)>)
    requires PositiveRadii(balls) && IsSqrt(sqrt)
    ensures r == Substep(balls, flag, table, sqrt)
  {
    var grid := UpdateSpatialGrid(balls);
    r := StepFrom(grid, balls, 0, flag, table, sqrt);
  }

  /** A run one step longer is one more sub-step on the state it reached. */
  lemma RunNext(balls: seq<Ball>, flag: bool, n: nat, table: Table, sqrt: real -> real)
    requires PositiveRadii(balls) && IsSqrt(sqrt)
    requires Run(balls, flag, n, table, sqrt).Ok?
    ensures PositiveRadii(Run(balls, flag, n, table, sqrt).value.0)
    ensures Run(balls, flag, n + 1, table, sqrt) ==
              Substep(Run(balls, flag, n, table, sqrt).value.0, Run(balls, flag, n, table, sqrt).value.1, table, sqrt)
  {
    SuccessorKeepsRadii(balls, Run(balls, flag, n, table, sqrt).value.0);
  }

  /** A loop that stops with less than one sub-step left ran StepCount steps. */
  lemma StepsTaken(a: real, steps: nat, acc: real)
    requires acc == a - steps as real * FixedDt && acc < FixedDt
    requires 0 < steps ==> 0.0 <= acc
    ensures steps == StepCount(a)
  {
    var n := StepCount(a);
    if 0 < steps {
      assert n as real * FixedDt <= a < (n + 1) as real * FixedDt;
      assert steps as real * FixedDt <= a < (steps + 1) as real * FixedDt;
    }
  }

  /** While a whole sub-step is left, StepCount lies beyond the steps run. */
  lemma StepsBelow(a: real, steps: nat)
    requires (steps + 1) as real * FixedDt <= a
    ensures steps + 1 <= StepCount(a)
  {
    var n := StepCount(a);
    assert a < (n + 1) as real * FixedDt;
  }
}
