/**
 * A model of the kinematics and fuel calculator: one immutable parameter
 * record and three pure calculations over it (new distance, remaining fuel,
 * new velocity). Quantities are idealised reals; the one thrown error is a
 * failure value of a result type.
 */
module Kinematics {

  /** Seconds in one hour: elapsed times are given in s, rates in km/h. */
  const SecondsPerHour: real := 3600.0

  /** Metres in one kilometre. */
  const MetresPerKm: real := 1000.0

  /** The factor the calculator multiplies an acceleration in m/s² by to
      obtain what it treats as km/h² (the calculator's own constant). */
  const CodeAccelerationFactor: real := 3600.0

  /** The dimensionally correct factor: 1 m/s² = 3600² m/h² = 3600²/1000 km/h². */
  const KmPerHourSquaredPerMetrePerSecondSquared: real := SecondsPerHour * SecondsPerHour / MetresPerKm

  /** The parameter record: vel in km/h, acc in m/s², time in s, d in km,
      fuel in kg and fbr (fuel burn rate) in kg/s. */
  datatype Parameters = Parameters(vel: real, acc: real, time: real, d: real, fuel: real, fbr: real)

  /** The one failure the calculator raises. */
  datatype Error = NotEnoughFuel

  /** Either a computed value or the failure that was raised instead. */
  datatype Result<T> = Ok(value: T) | Err(error: Error)

  /** The fixed parameter set the calculator is run on. */
  const Given: Parameters := Parameters(vel := 10000.0, acc := 3.0, time := 3600.0, d := 0.0, fuel := 5000.0, fbr := 0.5)

  /** An elapsed time in s expressed in h. */
  function SecondsToHours(seconds: real): (hours: real)
    ensures hours * SecondsPerHour == seconds
  {
    seconds / SecondsPerHour
  }

  /** A product of two non-negative reals is non-negative: the one sign fact
      the monotonicity proofs need. */
  lemma ProductNonNegative(a: real, b: real)
    requires a >= 0.0 && b >= 0.0
    ensures a * b >= 0.0
  {
  }

  // ---------------------------------------------------------------------
  // The three calculations
  // ---------------------------------------------------------------------

  /** Distance reached after moving at `vel` for `time`, starting from `d`. */
  function CalcNewDistance(p: Parameters): (r: real)
    ensures (r - p.d) * SecondsPerHour == p.vel * p.time
  {
    p.d + p.vel * SecondsToHours(p.time)
  }

  /** Fuel left after burning at `fbr` for `time`; fails when that would
      use more fuel than there is. */
  function CalcRemainingFuel(p: Parameters): (r: Result<real>)
    ensures r.Err? <==> p.fbr * p.time > p.fuel
    ensures r.Err? ==> r.error == NotEnoughFuel
    ensures r.Ok? ==> r.value >= 0.0 && r.value + p.fbr * p.time == p.fuel
  {
    var fuelUsed := p.fbr * p.time;
    if fuelUsed > p.fuel then Err(NotEnoughFuel) else Ok(p.fuel - fuelUsed)
  }

  /** Velocity after accelerating at `acc` for `time`, as the calculator
      computes it: with the factor CodeAccelerationFactor, the gain in km/h
      comes out as acc * time, a figure in m/s. */
  function CalcNewVel(p: Parameters): (r: real)
    ensures r == p.vel + p.acc * p.time
  {
    var accInKmh2 := p.acc * CodeAccelerationFactor;
    p.vel + accInKmh2 * SecondsToHours(p.time)
  }

  // ---------------------------------------------------------------------
  // Distance
  // ---------------------------------------------------------------------

  /** No time elapsed: the distance is unchanged; one hour: it grows by vel. */
  lemma DistanceAtZeroAndOneHour(p: Parameters)
    ensures CalcNewDistance(p.(time := 0.0)) == p.d
    ensures CalcNewDistance(p.(time := SecondsPerHour)) == p.d + p.vel
  {
  }

  /** At a non-negative velocity, a longer time never gives a shorter distance. */
  lemma DistanceMonotoneInTime(p: Parameters, t1: real, t2: real)
    requires p.vel >= 0.0 && t1 <= t2
    ensures CalcNewDistance(p.(time := t1)) <= CalcNewDistance(p.(time := t2))
  {
  }

  /** At a non-negative velocity and time, the distance never falls below its start. */
  lemma DistanceNotBelowStart(p: Parameters)
    requires p.vel >= 0.0 && p.time >= 0.0
    ensures CalcNewDistance(p) >= p.d
  {
  }

  /** Moving for t1 and then for t2 from the distance reached ends where
      moving for t1 + t2 does. */
  lemma DistanceComposes(p: Parameters, t1: real, t2: real)
    ensures CalcNewDistance(p.(time := t1 + t2))
         == CalcNewDistance(p.(time := t2, d := CalcNewDistance(p.(time := t1))))
  {
  }

  /** The distance agrees with the same motion worked out in SI units
      (velocity in m/s, distance covered in m) and converted back to km. */
  lemma DistanceAgreesWithSI(p: Parameters)
    ensures CalcNewDistance(p) == p.d + KmhToMps(p.vel) * p.time / MetresPerKm
  {
  }

  // ---------------------------------------------------------------------
  // Fuel
  // ---------------------------------------------------------------------

  /** The check is strict: burning exactly the fuel there is succeeds and leaves none. */
  lemma FuelExactlyEnough(p: Parameters)
    requires p.fbr * p.time == p.fuel
    ensures CalcRemainingFuel(p) == Ok(0.0)
  {
  }

  /** At a non-negative burn rate, a longer time never leaves more fuel, and
      once the fuel runs short it stays short. */
  lemma FuelMonotoneInTime(p: Parameters, t1: real, t2: real)
    requires p.fbr >= 0.0 && t1 <= t2
    ensures CalcRemainingFuel(p.(time := t1)).Err? ==> CalcRemainingFuel(p.(time := t2)).Err?
    ensures CalcRemainingFuel(p.(time := t2)).Ok? ==>
              CalcRemainingFuel(p.(time := t1)).Ok?
              && CalcRemainingFuel(p.(time := t2)).value <= CalcRemainingFuel(p.(time := t1)).value
  {
    var early, late := p.(time := t1), p.(time := t2);
    ProductNonNegative(p.fbr, t2 - t1);
    assert p.fbr * t2 == p.fbr * t1 + p.fbr * (t2 - t1);
    assert early.fbr * early.time <= late.fbr * late.time;
  }

  /** Burning for t1 and then for t2 on what is left fails exactly when
      burning for t1 + t2 does, and otherwise leaves the same fuel. */
  lemma FuelComposes(p: Parameters, t1: real, t2: real)
    requires p.fbr >= 0.0 && t2 >= 0.0
    ensures CalcRemainingFuel(p.(time := t1 + t2))
         == match CalcRemainingFuel(p.(time := t1))
            case Err(e) => Err(e)
            case Ok(left) => CalcRemainingFuel(p.(time := t2, fuel := left))
  {
    var whole, first := p.(time := t1 + t2), p.(time := t1);
    assert whole.fbr * whole.time == first.fbr * first.time + p.fbr * t2;
    ProductNonNegative(p.fbr, t2);
    match CalcRemainingFuel(first)
    case Err(_) =>
    case Ok(left) =>
      var second := p.(time := t2, fuel := left);
      assert second.fbr * second.time == p.fbr * t2;
      assert CalcRemainingFuel(whole).Err? == CalcRemainingFuel(second).Err?;
      if CalcRemainingFuel(whole).Ok? {
        assert CalcRemainingFuel(whole).value == CalcRemainingFuel(second).value;
      }
  }

  // ---------------------------------------------------------------------
  // Velocity
  // ---------------------------------------------------------------------

  /** No time elapsed or no acceleration: the velocity is unchanged. */
  lemma VelocityUnchangedWithoutAcceleration(p: Parameters)
    requires p.time == 0.0 || p.acc == 0.0
    ensures CalcNewVel(p) == p.vel
  {
  }

  /** At a non-negative acceleration, a longer time never gives a lower velocity. */
  lemma VelocityMonotoneInTime(p: Parameters, t1: real, t2: real)
    requires p.acc >= 0.0 && t1 <= t2
    ensures CalcNewVel(p.(time := t1)) <= CalcNewVel(p.(time := t2))
  {
    ProductNonNegative(p.acc, t2 - t1);
    assert p.acc * t2 == p.acc * t1 + p.acc * (t2 - t1);
  }

  /** Accelerating for t1 and then for t2 from the velocity reached ends
      where accelerating for t1 + t2 does. */
  lemma VelocityComposes(p: Parameters, t1: real, t2: real)
    ensures CalcNewVel(p.(time := t1 + t2))
         == CalcNewVel(p.(time := t2, vel := CalcNewVel(p.(time := t1))))
  {
  }

  // ---------------------------------------------------------------------
  // The acceleration factor, and the velocity worked out in SI units
  // ---------------------------------------------------------------------

  /** A velocity in km/h expressed in m/s. */
  function KmhToMps(v: real): (r: real)
    ensures r * SecondsPerHour == v * MetresPerKm
  {
    v * MetresPerKm / SecondsPerHour
  }

  /** A velocity in m/s expressed in km/h. */
  function MpsToKmh(v: real): (r: real)
    ensures r * MetresPerKm == v * SecondsPerHour
  {
    v * SecondsPerHour / MetresPerKm
  }

  /** Reference velocity: v + a t worked out in m/s, reported in km/h. */
  function ReferenceNewVel(p: Parameters): real
  {
    MpsToKmh(KmhToMps(p.vel) + p.acc * p.time)
  }

  /** The calculator's factor is not the dimensionally correct one. */
  lemma CodeFactorIsNotDimensional()
    ensures KmPerHourSquaredPerMetrePerSecondSquared == 12960.0
    ensures CodeAccelerationFactor != KmPerHourSquaredPerMetrePerSecondSquared
  {
  }

  /** The calculator's velocity matches the reference exactly when nothing
      is gained (no acceleration or no time). */
  lemma CalcNewVelAgreesOnlyWithoutGain(p: Parameters)
    ensures CalcNewVel(p) == ReferenceNewVel(p) <==> p.acc * p.time == 0.0
  {
  }

  /** Velocity after accelerating at `acc` for `time`, with the
      dimensionally correct factor. */
  function CalcNewVelCorrected(p: Parameters): (r: real)
    ensures r == ReferenceNewVel(p)
  {
    var accInKmh2 := p.acc * KmPerHourSquaredPerMetrePerSecondSquared;
    p.vel + accInKmh2 * SecondsToHours(p.time)
  }

  // ---------------------------------------------------------------------
  // The fixed parameter set, and what each calculation reads
  // ---------------------------------------------------------------------

  /** On the fixed parameters the calculator yields velocity 20800 km/h,
      distance 10000 km and 3200 kg of fuel left; the corrected velocity
      would be 48880 km/h. */
  lemma GivenScenario()
    ensures CalcNewVel(Given) == 20800.0
    ensures CalcNewDistance(Given) == 10000.0
    ensures CalcRemainingFuel(Given) == Ok(3200.0)
    ensures CalcNewVelCorrected(Given) == 48880.0
  {
  }

  /** Burning 1 kg/s for 200 s with 100 kg on board fails. */
  lemma FuelShortfallExample()
    ensures CalcRemainingFuel(Parameters(vel := 0.0, acc := 0.0, time := 200.0, d := 0.0, fuel := 100.0, fbr := 1.0))
         == Err(NotEnoughFuel)
  {
  }

  /** Each calculation depends only on the fields it reads from the record. */
  lemma CalculationsReadOnlyTheirFields(p: Parameters, q: Parameters)
    ensures p.d == q.d && p.vel == q.vel && p.time == q.time ==> CalcNewDistance(p) == CalcNewDistance(q)
    ensures p.fuel == q.fuel && p.fbr == q.fbr && p.time == q.time ==> CalcRemainingFuel(p) == CalcRemainingFuel(q)
    ensures p.vel == q.vel && p.acc == q.acc && p.time == q.time ==> CalcNewVel(p) == CalcNewVel(q)
  {
    if p.fuel == q.fuel && p.fbr == q.fbr && p.time == q.time {
      var used := p.fbr * p.time;
      assert q.fbr * q.time == used;
      if used > p.fuel {
        assert CalcRemainingFuel(p) == Err(NotEnoughFuel) == CalcRemainingFuel(q);
      } else {
        assert CalcRemainingFuel(p).Ok? && CalcRemainingFuel(q).Ok?;
        assert CalcRemainingFuel(p).value == p.fuel - used == CalcRemainingFuel(q).value;
      }
    }
  }
}
