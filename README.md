# fan_ctrl — a verified model of the control step

`fan_ctrl.py` drives a PWM-controlled CPU fan on a Raspberry Pi. Every few
seconds it reads the CPU temperature and smooths it with an exponential
filter. It maps the smoothed value through a piecewise-linear table of
temperature and speed steps. It then decides whether to change the fan's duty
cycle: small changes are suppressed (hysteresis), targets below a minimum stop
the fan, and low targets get a short 100% "kick" first. A bench mode
(`-TEST`) instead sweeps the duty through a fixed ramp.

This project models that core in Dafny and proves what it promises:

- `rounding.dfy` (`Rounding`): Python's `round(x, 0)` and `round(x, 1)` as exact
  half-to-even rounding over reals.
- `filter.dfy` (`TemperatureFilter`): the blend `(1 - r) * old + r * new` and
  the rounded value one poll stores.
- `curve.dfy` (`SpeedCurve`): the clamps, the segment loop without `break`, and
  the interpolation.
- `duty.dfy` (`DutyDecision`): the hysteresis gate, the floor to 0 and the kick,
  as an `Action` value and the duties it sends.
- `sweep.dfy` (`BenchSweep`): the bench-mode duty `counter % 21 * 5`.
- `config.dfy` (`FanConfig`): the configuration constants and the shipped values.
- `fan_ctrl.dfy` (`FanControl`): the `FanCtrl` object. Its fields are the filter
  history, the carried target and the applied duty. Its methods are start-up,
  one poll (`Step`) and the bench sweep (`Test`). The duties sent to the fan are
  kept in a ghost log, `commands`.

Three points of the code's behaviour that the model keeps as written:

- The value stored as the next filter history is the blend rounded to one
  decimal, not the raw blend.
- Start-up only checks that the two tables have the same length. It does not
  check that the temperatures increase. So the curve is modelled for any
  tables, and the strict-increase properties are lemmas that assume it.
- A length mismatch ends the program with exit status 0, not a failure status.
  `Create` returns `None` in that case, before anything is sent to the fan.

Numbers: temperatures and the filter ratio are `real`. Speeds and the duty
constants are `int`, as in the shipped configuration. `round(x, 0)` of an
interpolant always gives a whole number, so the target is an `int` too.

## Model

| member | source | states |
|---|---|---|
| `Rounding.RoundHalfEven` | fan_ctrl.py:127 | the result is an integer within 1/2 of `x`, and when `x` is exactly halfway it is the even neighbour |
| `Rounding.RoundHalfEvenUnique` | fan_ctrl.py:127 | any integer with those two properties equals `RoundHalfEven(x)`, so the rounding is fully determined |
| `Rounding.RoundMonotone` | fan_ctrl.py:127 | `round(_, 0)` is monotone |
| `Rounding.RoundTenths` | fan_ctrl.py:97 | `round(x, 1)` is a whole number of tenths within 0.05 of `x`, and when `x` is exactly halfway between two tenths it is the even one |
| `Rounding.RoundTenthsUnique` | fan_ctrl.py:97 | any tenth with those three properties equals `RoundTenths(x)`, so the rounding to tenths is fully determined |
| `TemperatureFilter.Filtered` | fan_ctrl.py:91-92 | with ratio 1 the filter returns the new reading; with ratio 0 it returns the old temperature |
| `TemperatureFilter.FilteredBetween` | fan_ctrl.py:91-92 | for a ratio in 0..1 the blend lies between the old temperature and the reading, both included |
| `TemperatureFilter.FilterStep` | fan_ctrl.py:97 | the temperature one poll computes and stores: the blend of the old temperature and the reading, rounded half-to-even to one decimal |
| `TemperatureFilter.FilterStepNear` | fan_ctrl.py:95-99 | the stored temperature is on the tenths grid and within 0.05 of the interval between old temperature and reading |
| `TemperatureFilter.FilterStepBetween` | fan_ctrl.py:95-99 | if the old temperature and the reading are whole tenths, the stored temperature lies between them |
| `TemperatureFilter.FilterStepSteady` | fan_ctrl.py:95-99 | a reading equal to the stored temperature (a whole number of tenths) leaves it unchanged |
| `SpeedCurve.Matches` | fan_ctrl.py:125 | segment `i` contains the temperature: `tempSteps[i] <= temp < tempSteps[i+1]`, with `i` a segment index |
| `SpeedCurve.Interpolate` | fan_ctrl.py:126 | the unrounded interpolant of a matching segment: slope times distance from the segment's start, plus its speed |
| `SpeedCurve.Scan` | fan_ctrl.py:124-127 | the speed after the first `n` iterations of the segment loop: each matching segment overwrites it with its rounded interpolant, and no match leaves the carried speed |
| `SpeedCurve.Target` | fan_ctrl.py:114-127 | the target speed of a poll: the first speed at or below the first step, the last speed at or above the last step, otherwise the segment loop |
| `SpeedCurve.InterpolateBetween` | fan_ctrl.py:126 | the interpolant of a matching segment lies between its two speeds, and equals the first speed at the segment's start |
| `SpeedCurve.InterpolateMonotone` | fan_ctrl.py:126 | within one segment with non-falling speeds, the interpolant does not fall as the temperature rises |
| `SpeedCurve.FindSegment` | fan_ctrl.py:122-127 | strictly between the first and last step some segment contains the temperature, whatever the order of the steps |
| `SpeedCurve.SegmentUnique` | fan_ctrl.py:124-125 | with strictly increasing steps at most one segment contains a temperature |
| `SpeedCurve.ScanPicksLastMatch` | fan_ctrl.py:124-127 | the loop without `break` leaves the rounded interpolant of the last matching segment |
| `SpeedCurve.ScanForgetsCarried` | fan_ctrl.py:124-127 | once a segment matches, the speed carried in from the previous poll does not affect the result |
| `SpeedCurve.TargetIgnoresCarried` | fan_ctrl.py:114-127 | for any tables of equal, non-zero length, the target never depends on the carried speed: the loop always assigns it |
| `SpeedCurve.TargetClamps` | fan_ctrl.py:114-120 | at or below the first step the target is the first speed; at or above the last step it is the last speed |
| `SpeedCurve.TargetInterpolates` | fan_ctrl.py:122-127 | with strictly increasing steps, a temperature in segment `i` gets the half-to-even rounding of segment `i`'s interpolant |
| `SpeedCurve.TargetBetween` | fan_ctrl.py:122-127 | the target in segment `i` lies between `speedSteps[i]` and `speedSteps[i+1]` |
| `SpeedCurve.TargetWithin` | fan_ctrl.py:114-127 | if every speed and the carried speed lie in a range, so does the target |
| `SpeedCurve.TargetWithinTable` | fan_ctrl.py:114-127 | with increasing steps and non-falling speeds, the target lies between the first and the last speed |
| `SpeedCurve.TargetMonotone` | fan_ctrl.py:114-127 | with increasing steps and non-falling speeds, the target is monotone non-decreasing in the temperature |
| `FanConfig.ShippedIsSound` | fan_ctrl.py:31-44 | the shipped tables have equal lengths, increasing temperatures and non-falling speeds, all duties are in 0..100, and the ratio is in (0, 1] |
| `DutyDecision.Floored` | fan_ctrl.py:130-132 | an applied duty is 0 or at least `FAN_MIN`, and differs from the target only when the target is below `FAN_MIN` |
| `DutyDecision.Decide` | fan_ctrl.py:129-139 | no change exactly when the target is within `FAN_HYST` of the applied duty, compared before the floor; otherwise the floored duty is applied, with a kick exactly when `FAN_MIN < duty < FAN_KICK_MAX` |
| `DutyDecision.Commands` | fan_ctrl.py:133-137 | an action sends nothing, or ends with its duty; it sends two commands exactly for a kick, and the first is 100 |
| `DutyDecision.CommandsFloorAndKick` | fan_ctrl.py:130-137 | a change sends `[d]` or `[100, d]` with `d` the floored target; the 100 comes first exactly when `FAN_MIN < d < FAN_KICK_MAX`; a target below `FAN_MIN` ends in 0 |
| `DutyDecision.AppliedAfter` | fan_ctrl.py:139 | the duty remembered as applied after an action: its duty, or the old one when nothing changed |
| `DutyDecision.AppliedIsLastSent` | fan_ctrl.py:137-139 | the remembered duty after a decision is the last duty sent, or the old one when nothing was sent |
| `DutyDecision.CommandsInRange` | fan_ctrl.py:129-139 | for a target in 0..100, every command sent is in 0..100 |
| `DutyDecision.StoppedFanIsResent` | fan_ctrl.py:129-139 | a fan at 0 with a target above the band but below `FAN_MIN` is sent 0 again at every poll |
| `BenchSweep.SweepDuty` | fan_ctrl.py:150-152 | the bench duty is a multiple of 5 in 0..100 |
| `BenchSweep.SweepClampsAreNoOps` | fan_ctrl.py:150-152 | the min/max clamps never change `counter % 21 * 5`, negative counters included |
| `BenchSweep.SweepDecrement` | fan_ctrl.py:150-158 | each decrement of the counter lowers the duty by 5, wrapping from 0 to 100 |
| `BenchSweep.SweepRun` | fan_ctrl.py:148-158 | the `k`-th duty of a run is the duty of counter `start - k` |
| `BenchSweep.SweepRunIsRamp` | fan_ctrl.py:148-158 | every duty of a run is a multiple of 5 in 0..100, and consecutive duties step down by 5 or wrap from 0 to 100 |
| `BenchSweep.SweepFromStart` | fan_ctrl.py:148-150 | from counter 9997 the sweep sends 5, 0, 100, 95 |
| `FanControl.FanCtrl.Running` | fan_ctrl.py:106-108 | the loop state: the tables can be indexed, the fan has been started, the remembered duty (`fanSpeedOld`) is the last duty sent (kept by fan_ctrl.py:137-139), and with in-range duties the carried target and every command are in 0..100 |
| `FanControl.FanCtrl.constructor` | fan_ctrl.py:66-67 | the first reading becomes the filter history, and nothing has been sent to the fan |
| `FanControl.Create` | fan_ctrl.py:66-72 | start-up fails exactly when the tables differ in length, and then no controller exists and no command was sent |
| `FanControl.FanCtrl.StartLoop` | fan_ctrl.py:105-108 | the fan is started at `FAN_START`, which is also the applied duty and the carried target; the loop invariant `Running` holds |
| `FanControl.FanCtrl.GetCpuTemp` | fan_ctrl.py:95-102 | the returned and stored temperature is the rounded blend of the old one and the reading; nothing else changes |
| `FanControl.FanCtrl.ComputeTarget` | fan_ctrl.py:114-127 | the clamps and the segment loop leave `Target` of the temperature in `fanSpeed`; a loop invariant ties each iteration to `Scan` |
| `FanControl.FanCtrl.ApplyDuty` | fan_ctrl.py:129-139 | the duties sent are `Commands(Decide(...))`, and the applied duty and the carried target are updated as the decision says |
| `FanControl.FanCtrl.Step` | fan_ctrl.py:110-142 | one poll stores the filtered temperature, sends the decision for its target, leaves the target (floored when a change was sent) as the carried speed, and keeps `Running`: the applied duty equals the last duty sent, and with in-range duties every command is in 0..100 |
| `FanControl.FanCtrl.Test` | fan_ctrl.py:144-158 | the bench mode starts the fan at 0 and then sends the sweep duties from counter 9997 down, one per step |
| `FanControl.ShippedCurveRoundsHalfToEven` | fan_ctrl.py:122-127 | with the shipped tables, 45 °C interpolates to 62.5 %, which rounds to 62 |
| `FanControl.ShippedKickFromStop` | fan_ctrl.py:129-139 | with the shipped constants, a stopped fan asked for 20 % is sent 100 and then 20 |
| `FanControl.ShippedFloorToZero` | fan_ctrl.py:129-139 | with the shipped constants, a fan at 50 asked for 10 % is sent 0 |

## Left out

- Reading the sensor (`readSystemTemp`, fan_ctrl.py:81-87): it runs `vcgencmd` and parses the text it prints. Each poll's raw reading is a parameter instead. A failing read, which ends the program through the exception hook, is not modelled.
- All `RPi.GPIO` calls: pin set-up, PWM creation, `start`, `ChangeDutyCycle`, `cleanup`. `start` and `ChangeDutyCycle` are entries of the ghost log `commands`. `ChangeDutyCycle` refuses duties outside 0..100; that refusal is not modelled. `Running` proves instead that, when the configured duties are in 0..100, nothing outside that range is ever sent.
- `time.sleep`: the poll interval `WAIT_TIME`, the kick length `FAN_KICK_TIME` and the one-second pause of the bench mode. A kick is the duty 100 followed by the final duty in the log.
- The endless `while` loops. `Step` is one iteration of the control loop; `Test(n)` is the first `n` iterations of the bench loop.
- The exception hook, `sys.argv` dispatch, `print` output and the `__main__` block (fan_ctrl.py:51-60, fan_ctrl.py:161-166).
- `FAN_PIN` and `PWM_FREQ`: hardware settings that no decision depends on.
- Binary floating point. The filter, the interpolation and both `round` calls are computed exactly over reals. The rounding is exact half-to-even.
- Speed steps that are not whole numbers: the model types speeds as integers, as the shipped table is.
- Empty tables: the source fails with an index error at the first poll. `StartLoop` and `Step` require non-empty tables (`Usable`) instead.
