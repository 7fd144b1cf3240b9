/**
 * The fan controller object.  It is created from the configuration and a
 * first temperature reading (refusing tables of different lengths before
 * any command reaches the fan), starts the fan at the start duty, and then
 * runs one control step per poll: filter the reading, compute the target
 * from the speed curve, and decide and send the duty.  The bench test mode
 * instead sweeps the duty through a fixed ramp.
 *
 * The sensor is a parameter (the raw reading of each poll) and the PWM
 * line is the ghost log `commands` of the duties sent to it, oldest first.
 * `fanSpeed` and `fanSpeedOld` are local variables of the source's control
 * loop; they are fields here because one call of Step is one iteration of
 * that loop and both carry over to the next.
 */
module FanControl {
  import opened Rounding
  import opened SpeedCurve
  import opened FanConfig
  import opened TemperatureFilter
  import opened DutyDecision
  import opened BenchSweep

  datatype Option<T> = None | Some(value: T)

  class FanCtrl {
    const cfg: Config
    var cpuTempOld: real      // the filtered temperature of the previous poll
    var fanSpeed: int         // the target of the latest poll (floored when a change was applied)
    var fanSpeedOld: int      // the duty last applied
    ghost var commands: seq<int>

    /**
     * The control loop is running: the tables can be indexed, the fan has
     * been started, and the remembered duty is the last one sent.  When the
     * configuration keeps its duties in 0..100, so do the carried target and
     * every command.
     */
    ghost predicate Running()
      reads this
    {
      && cfg.Usable()
      && |commands| >= 1
      && fanSpeedOld == commands[|commands| - 1]
      && (cfg.DutiesInRange() ==>
            0 <= fanSpeed <= 100 && forall k :: 0 <= k < |commands| ==> 0 <= commands[k] <= 100)
    }

    /** Remembers the first reading as the filter's history. Nothing is sent to the fan yet. */
    constructor (cfg: Config, firstReading: real)
      requires cfg.TablesAgree()
      ensures this.cfg == cfg && cpuTempOld == firstReading && commands == []
    {
      this.cfg := cfg;
      cpuTempOld := firstReading;
      fanSpeed, fanSpeedOld := 0, 0;
      commands := [];
    }

    /** Entering the control loop: the fan starts at the start duty, which is also the applied duty and the carried target. */
    method StartLoop()
      requires cfg.Usable() && commands == []
      modifies this`fanSpeed, this`fanSpeedOld, this`commands
      ensures Running()
      ensures fanSpeedOld == cfg.fanStart && fanSpeed == cfg.fanStart
      ensures commands == [cfg.fanStart]
    {
      fanSpeedOld := cfg.fanStart;
      fanSpeed := cfg.fanStart;
      commands := [cfg.fanStart];
    }

    /** One filter step: the stored temperature becomes the rounded blend of the old one and the reading, and is returned. */
    method GetCpuTemp(reading: real) returns (cpuTemp: real)
      requires Running()
      modifies this`cpuTempOld
      ensures Running()
      ensures cpuTemp == FilterStep(cfg.ratio, old(cpuTempOld), reading)
      ensures cpuTempOld == cpuTemp
      ensures fanSpeed == old(fanSpeed) && fanSpeedOld == old(fanSpeedOld) && commands == old(commands)
    {
      cpuTemp := RoundTenths(Filtered(cfg.ratio, cpuTempOld, reading));
      cpuTempOld := cpuTemp;
    }

    /** The speed curve: clamp outside the table, otherwise the segment loop (no `break`). */
    method ComputeTarget(cpuTemp: real)
      requires Running()
      modifies this`fanSpeed
      ensures Running()
      ensures fanSpeed == Target(cfg.tempSteps, cfg.speedSteps, cpuTemp, old(fanSpeed))
    {
      var temps, speeds := cfg.tempSteps, cfg.speedSteps;
      if cpuTemp <= temps[0] {
        fanSpeed := speeds[0];
      } else if cpuTemp >= temps[|temps| - 1] {
        fanSpeed := speeds[|speeds| - 1];
      } else {
        for i := 0 to |temps| - 1
          invariant fanSpeed == Scan(temps, speeds, cpuTemp, old(fanSpeed), i)
        {
          if temps[i] <= cpuTemp && cpuTemp < temps[i + 1] {
            fanSpeed := RoundHalfEven(Interpolate(temps, speeds, i, cpuTemp));
          }
        }
      }
      if cfg.DutiesInRange() {
        TargetWithin(temps, speeds, cpuTemp, old(fanSpeed), 0, 100);
      }
    }

    /** The duty decision: gate, floor, optional kick, send, remember. */
    method ApplyDuty()
      requires Running()
      modifies this`fanSpeed, this`fanSpeedOld, this`commands
      ensures Running()
      ensures var a := Decide(cfg, old(fanSpeed), old(fanSpeedOld));
        && commands == old(commands) + Commands(a)
        && fanSpeedOld == AppliedAfter(a, old(fanSpeedOld))
        && fanSpeed == (if a.NoChange? then old(fanSpeed) else a.duty)
    {
      if Abs(fanSpeed - fanSpeedOld) > cfg.hyst {
        if fanSpeed < cfg.fanMin {
          fanSpeed := 0;
        }
        if cfg.fanMin < fanSpeed < cfg.kickMax {
          commands := commands + [100];
        }
        commands := commands + [fanSpeed];
        fanSpeedOld := fanSpeed;
      }
    }

    /** One poll of the control loop, from the raw reading to the commands sent. */
    method Step(reading: real)
      requires Running()
      modifies this`cpuTempOld, this`fanSpeed, this`fanSpeedOld, this`commands
      ensures Running()
      ensures cpuTempOld == FilterStep(cfg.ratio, old(cpuTempOld), reading)
      ensures var target := Target(cfg.tempSteps, cfg.speedSteps, cpuTempOld, old(fanSpeed));
        var a := Decide(cfg, target, old(fanSpeedOld));
        && commands == old(commands) + Commands(a)
        && fanSpeedOld == AppliedAfter(a, old(fanSpeedOld))
        && fanSpeed == (if a.NoChange? then target else a.duty)
    {
      var cpuTemp := GetCpuTemp(reading);
      ComputeTarget(cpuTemp);
      ApplyDuty();
    }

    /** The first `n` steps of the bench sweep: the fan starts at 0, then each step sends the sweep duty and counts down. */
    method Test(n: nat)
      modifies this`commands
      ensures commands == old(commands) + [0] + SweepRun(SweepStart, n)
    {
      commands := commands + [0];
      var counter := SweepStart;
      var k := 0;
      while k < n
        invariant 0 <= k <= n && counter == SweepStart - k
        invariant commands == old(commands) + [0] + SweepRun(SweepStart, k)
      {
        var duty := SweepDuty(counter);
        commands := commands + [duty];
        counter := counter - 1;
        k := k + 1;
      }
    }
  }

  /** Start-up: the first reading is taken, then tables of different lengths end the program before the fan is touched. */
  method Create(cfg: Config, firstReading: real) returns (r: Option<FanCtrl>)
    ensures r.None? <==> !cfg.TablesAgree()
    ensures r.Some? ==>
      (fresh(r.value) && r.value.cfg == cfg && r.value.cpuTempOld == firstReading && r.value.commands == [])
  {
    if !cfg.TablesAgree() {
      return None;
    }
    var ctl := new FanCtrl(cfg, firstReading);
    return Some(ctl);
  }

  /** With the shipped tables, 45 C interpolates to 62.5 %, which rounds to the even 62. */
  lemma ShippedCurveRoundsHalfToEven(carried: int)
    ensures Target(Shipped.tempSteps, Shipped.speedSteps, 45.0, carried) == 62
  {
    var temps, speeds := Shipped.tempSteps, Shipped.speedSteps;
    assert Matches(temps, 1, 45.0);
    assert Interpolate(temps, speeds, 1, 45.0) == 62.5;
    ShippedIsSound();
    TargetInterpolates(temps, speeds, 1, 45.0, carried);
  }

  /** With the shipped constants, a fan at 0 asked for 20 % is kicked at 100 % first. */
  lemma ShippedKickFromStop()
    ensures Commands(Decide(Shipped, 20, 0)) == [100, 20]
  {
  }

  /** With the shipped constants, a fan at 50 asked for 10 % is stopped. */
  lemma ShippedFloorToZero()
    ensures Commands(Decide(Shipped, 10, 50)) == [0]
  {
  }
}
