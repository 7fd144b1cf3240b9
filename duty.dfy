/**
 * The duty decision of one poll: given the target speed from the curve and
 * the duty last applied, either leave the fan alone (the change is within
 * the hysteresis band), or apply a new duty, floored to 0 below the
 * minimum, and preceded by a 100% kick when it lies strictly between the
 * minimum and the kick ceiling.
 */
module DutyDecision {
  import opened FanConfig

  datatype Action =
    | NoChange             // nothing is sent to the fan
    | Direct(duty: int)    // the duty is sent as it is
    | Kick(duty: int)      // 100% is sent first, then the duty

  function Abs(x: int): int { if x < 0 then -x else x }

  /** The duty a change applies: targets below the minimum are applied as 0. */
  function Floored(cfg: Config, target: int): (d: int)
    ensures d == 0 || d >= cfg.fanMin
    ensures d == target || (d == 0 && target < cfg.fanMin)
  {
    if target < cfg.fanMin then 0 else target
  }

  /**
   * The decision. The hysteresis gate compares the target as the curve
   * gave it (before the floor) with the duty last applied.
   */
  function Decide(cfg: Config, target: int, applied: int): (a: Action)
    ensures a.NoChange? <==> Abs(target - applied) <= cfg.hyst
    ensures !a.NoChange? ==> a.duty == Floored(cfg, target)
    ensures !a.NoChange? ==> (a.Kick? <==> cfg.fanMin < a.duty < cfg.kickMax)
  {
    if Abs(target - applied) <= cfg.hyst then NoChange
    else
      var duty := Floored(cfg, target);
      if cfg.fanMin < duty < cfg.kickMax then Kick(duty) else Direct(duty)
  }

  /** The duties an action sends to the fan, in order. */
  function Commands(a: Action): (cs: seq<int>)
    ensures a.NoChange? <==> cs == []
    ensures !a.NoChange? ==> cs[|cs| - 1] == a.duty
    ensures a.Kick? <==> |cs| == 2
    ensures |cs| == 2 ==> cs[0] == 100
  {
    match a
    case NoChange => []
    case Direct(d) => [d]
    case Kick(d) => [100, d]
  }

  /** The duty the controller remembers as applied after the action. */
  function AppliedAfter(a: Action, applied: int): int {
    if a.NoChange? then applied else a.duty
  }

  /**
   * Floor and kick, as seen on the wire: whatever a poll sends ends in a
   * duty that is 0 or at least the minimum, and it is preceded by a single
   * 100% command exactly when that duty lies strictly between the minimum
   * and the kick ceiling (so a duty equal to the minimum gets no kick).
   */
  lemma CommandsFloorAndKick(cfg: Config, target: int, applied: int)
    requires Abs(target - applied) > cfg.hyst
    ensures var cs := Commands(Decide(cfg, target, applied));
      && (cs == [Floored(cfg, target)] || cs == [100, Floored(cfg, target)])
      && (|cs| == 2 <==> cfg.fanMin < Floored(cfg, target) < cfg.kickMax)
      && (target < cfg.fanMin ==> cs[|cs| - 1] == 0)
  {
  }

  /** The applied duty after a poll is the last duty sent, or unchanged when nothing was sent. */
  lemma AppliedIsLastSent(cfg: Config, target: int, applied: int)
    ensures var a := Decide(cfg, target, applied);
      var cs := Commands(a);
      AppliedAfter(a, applied) == if cs == [] then applied else cs[|cs| - 1]
  {
  }

  /** With any duties in 0..100 and a target in 0..100, everything sent is in 0..100. */
  lemma CommandsInRange(cfg: Config, target: int, applied: int)
    requires 0 <= target <= 100
    ensures forall k :: 0 <= k < |Commands(Decide(cfg, target, applied))| ==>
      0 <= Commands(Decide(cfg, target, applied))[k] <= 100
  {
  }

  /**
   * Because the gate looks at the target before the floor, a fan stopped
   * at 0 whose target sits below the minimum but beyond the band is sent 0
   * again at every poll.
   */
  lemma StoppedFanIsResent(cfg: Config, target: int)
    requires 0 <= cfg.hyst < target < cfg.fanMin
    ensures Decide(cfg, target, 0) == Direct(0)
    ensures AppliedAfter(Decide(cfg, target, 0), 0) == 0
  {
  }
}
