# Kinematics and fuel calculator

This project models the calculator in `index.js`. The calculator takes one
parameter record and derives three quantities from it. The record holds
`vel` (km/h), `acc` (m/s²), `time` (s), `d` (km), `fuel` (kg) and `fbr`, the
fuel burn rate (kg/s).

- `calcNewDistance` converts `time` to hours and adds `vel` times that to `d`.
- `calcRemainingFuel` works out the fuel used, `fbr * time`. It throws
  "Not enough fuel for the operation." when that is more than `fuel`.
  Otherwise it returns what is left.
- `calcNewVel` multiplies `acc` by 3600 and adds that times the hours to `vel`.

In Dafny (`kinematics.dfy`, module `Kinematics`):

- The record is the immutable datatype `Parameters`, with the source's field names.
- The three calculations are functions over `real`. The numbers are
  idealised, not IEEE doubles.
- The throw becomes the `Err(NotEnoughFuel)` case of a `Result`.
- The fixed parameter set is the constant `Given`.

Each calculation has partner lemmas:

- boundary values;
- monotonicity in `time` (for a non-negative `vel`, `fbr` or `acc`);
- composition: running for `t1` and then for `t2` is the same as running for
  `t1 + t2`;
- for distance and velocity, a comparison with the same motion worked out in
  SI units (m, s).

The SI comparison shows that the distance is right and that the velocity is
not (see Findings).

The model follows the code as written:

- The header comment at index.js:4 asks for calculation errors to be picked
  up. Dimensional analysis gives a factor of 12960 for acceleration (see
  Findings). The code uses 3600 (`index.js:36`), and so does `CalcNewVel`.
- The header comment at index.js:5 asks for an error when a parameter is
  wrong, for example in the wrong unit. The code raises no such error. The
  model accepts every real and has only the insufficient-fuel failure.

## Model

| member | source | states |
|---|---|---|
| `Kinematics.SecondsToHours` | index.js:20 | the hours, multiplied by 3600, give back the seconds |
| `Kinematics.CalcNewDistance` | index.js:19-21 | the distance covered beyond `d` is `vel * time / 3600`, i.e. vel (km/h) times the time in hours |
| `Kinematics.DistanceAtZeroAndOneHour` | index.js:20 | with `time = 0` the result is `d`; with `time = 3600` (one hour) it is `d + vel` |
| `Kinematics.DistanceMonotoneInTime` | index.js:19-21 | for `vel >= 0`, a longer time never gives a smaller distance |
| `Kinematics.DistanceNotBelowStart` | index.js:19-21 | for `vel >= 0` and `time >= 0`, the result is at least `d` |
| `Kinematics.DistanceComposes` | index.js:19-21 | moving for `t1` and then for `t2` from the distance reached ends where moving for `t1 + t2` does |
| `Kinematics.DistanceAgreesWithSI` | index.js:20 | the result equals the same motion worked out in m/s and metres, converted back to km, so the distance conversion is dimensionally right |
| `Kinematics.CalcRemainingFuel` | index.js:24-30 | fails with `NotEnoughFuel` exactly when `fbr * time > fuel`; otherwise the fuel left plus the fuel used equals `fuel`, and the fuel left is never negative |
| `Kinematics.FuelExactlyEnough` | index.js:26 | the check is strict: when `fbr * time == fuel` the call succeeds and returns 0 |
| `Kinematics.FuelMonotoneInTime` | index.js:24-30 | for `fbr >= 0`: if the call fails for some time, it fails for every longer time; if it succeeds for a longer time, it succeeds for a shorter one and leaves at least as much fuel |
| `Kinematics.FuelComposes` | index.js:24-30 | for `fbr >= 0` and `t2 >= 0`: burning for `t1` and then for `t2` on what is left fails exactly when burning for `t1 + t2` fails; otherwise both leave the same fuel |
| `Kinematics.FuelShortfallExample` | index.js:26-28 | with 100 kg on board, burning 1 kg/s for 200 s fails with `NotEnoughFuel` |
| `Kinematics.CalcNewVel` | index.js:34-38 | with the code's factor 3600, the result simplifies to `vel + acc * time` |
| `Kinematics.VelocityUnchangedWithoutAcceleration` | index.js:36-37 | with `time = 0` or `acc = 0`, the result is `vel` |
| `Kinematics.VelocityMonotoneInTime` | index.js:34-38 | for `acc >= 0`, a longer time never gives a lower velocity |
| `Kinematics.VelocityComposes` | index.js:34-38 | accelerating for `t1` and then for `t2` from the velocity reached ends where accelerating for `t1 + t2` does |
| `Kinematics.CodeFactorIsNotDimensional` | index.js:36 | 1 m/s² is 3600²/1000 = 12960 km/h², which is not the code's factor of 3600 |
| `Kinematics.CalcNewVelAgreesOnlyWithoutGain` | index.js:36-37 | the code's velocity equals the velocity worked out in SI units exactly when `acc * time == 0` |
| `Kinematics.CalcNewVelCorrected` | index.js:35-37 | with the factor 12960, the velocity equals `v + a t` worked out in m/s and converted to km/h |
| `Kinematics.GivenScenario` | index.js:41-43 | for the parameters at index.js:9-16, the three calls give velocity 20800, distance 10000 and fuel left 3200 (1800 kg used, which is at most 5000, so no failure); the corrected velocity would be 48880 |
| `Kinematics.CalculationsReadOnlyTheirFields` | index.js:19-38 | each calculation depends only on the fields it destructures: two records that agree on those fields give equal results |

## Findings

| source | as written | input that shows it | evidently intended | confidence | as-written member | corrected member |
|---|---|---|---|---|---|---|
| index.js:36 | `accInKmh2 = acc * 3600`; the comment says 1 m/s² is 3600 km/h² | `Given` (vel 10000, acc 3, time 3600): the code gives 20800 km/h, and the same motion in SI units gives 48880 km/h | `acc * 12960` (3600²/1000), the factor that turns m/s² into km/h² | high (dimensional analysis; not executed) | `Kinematics.CalcNewVelAgreesOnlyWithoutGain` (about `Kinematics.CalcNewVel`) | `Kinematics.CalcNewVelCorrected` |

The rest of the model keeps `CalcNewVel` with the code's factor, because it
models the code as it stands. `CalcNewVelCorrected` sits beside it, with the
intended property proved.

## Left out

- Console output and the `toFixed(2)` formatting of the results (index.js:45-47).
- The top-level `try`/`catch` that prints the error's message (index.js:40-50).
  This is I/O. The model instead returns the failure value. The message
  text "Not enough fuel for the operation." (index.js:27) is printed only
  there (index.js:48-49), so the failure value carries no text.
- IEEE-754 behaviour: NaN, Infinity, rounding and the error in `time / 3600`.
  The model uses exact reals.
- An error for a wrongly given parameter. The header comment at index.js:5
  asks for one, for example for a parameter in the wrong unit. The code
  raises none, so there is nothing to model.
- Purity and determinism need no lemma: the calculations are Dafny functions
  over an immutable datatype. They cannot change their argument, and equal
  inputs give equal outputs.
