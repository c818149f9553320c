/** The shot-power meter of src/main.cpp:880-896 and its mapping to a cue-ball
    speed (src/main.cpp:2028-2041): while P is held the percentage runs up and
    down between 0 and 100 at 100 % per five seconds. */
module ShotPower {

  /** Seconds for the meter to go from 0 to 100 %. */
  const MaxShotChargeTime: real := 5.0
  const MinShotPowerMagnitude: real := 0.50
  const MaxShotPowerMagnitude: real := 12.0

  /** The meter: a percentage and the ping-pong direction (+1 charging, -1 draining). */
  datatype Meter = Meter(percentage: real, direction: real)

  /** The meter as a P press leaves it. */
  const FreshMeter: Meter := Meter(0.0, 1.0)

  predicate ValidMeter(m: Meter) {
    0.0 <= m.percentage <= 100.0 && (m.direction == 1.0 || m.direction == -1.0)
  }

  /** One frame of charging: move by direction * 20 %/s * dt, then bounce off
      the ends. */
  function UpdateMeter(m: Meter, dt: real): (r: Meter)
    ensures 0.0 <= r.percentage <= 100.0
    ensures (m.direction == 1.0 || m.direction == -1.0) ==> ValidMeter(r)
    ensures r.percentage == 100.0 && r.direction != m.direction ==> r.direction == -1.0
    ensures r.percentage == 0.0 && r.direction != m.direction ==> r.direction == 1.0
    ensures 0.0 < r.percentage < 100.0 ==>
              r.direction == m.direction &&
              r.percentage == m.percentage + m.direction * (100.0 / MaxShotChargeTime) * dt
    ensures var p := m.percentage + m.direction * (100.0 / MaxShotChargeTime) * dt;
            (p >= 100.0 ==> r == Meter(100.0, -1.0)) &&
            (p < 100.0 && p <= 0.0 ==> r == Meter(0.0, 1.0)) &&
            (0.0 < p < 100.0 ==> r == Meter(p, m.direction))
  {
    var p := m.percentage + m.direction * (100.0 / MaxShotChargeTime) * dt;
    if p >= 100.0 then Meter(100.0, -1.0)
    else if p <= 0.0 then Meter(0.0, 1.0)
    else Meter(p, m.direction)
  }

  /** The meter after a run of frames with the given frame times. */
  function Charge(m: Meter, dts: seq<real>): Meter
    decreases |dts|
  {
    if dts == [] then m else Charge(UpdateMeter(m, dts[0]), dts[1..])
  }

  /** However long P is held, the meter stays within [0, 100] with a
      direction of +1 or -1, whatever the frame times. */
  lemma {:induction false} ChargeStaysValid(m: Meter, dts: seq<real>)
    requires ValidMeter(m)
    ensures ValidMeter(Charge(m, dts))
    decreases |dts|
  {
    if dts != [] {
      ChargeStaysValid(UpdateMeter(m, dts[0]), dts[1..]);
    }
  }

  /** The speed given to the cue ball for a meter reading. */
  function ShotMagnitude(percentage: real): (s: real)
    ensures 0.0 <= percentage <= 100.0 ==> MinShotPowerMagnitude <= s <= MaxShotPowerMagnitude
    ensures percentage == 0.0 ==> s == MinShotPowerMagnitude
    ensures percentage == 100.0 ==> s == MaxShotPowerMagnitude
  {
    MinShotPowerMagnitude + (MaxShotPowerMagnitude - MinShotPowerMagnitude) * (percentage / 100.0)
  }

  /** The mapping is strictly increasing, and the reading can be recovered
      from the speed. */
  lemma ShotMagnitudeMonotone(p: real, q: real)
    ensures p < q ==> ShotMagnitude(p) < ShotMagnitude(q)
    ensures ShotMagnitude(p) == ShotMagnitude(q) ==> p == q
    ensures (ShotMagnitude(p) - MinShotPowerMagnitude) / (MaxShotPowerMagnitude - MinShotPowerMagnitude) * 100.0 == p
  {
  }
}
