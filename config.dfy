/**
 * The controller's static configuration: the speed-curve tables and the
 * constants that tune the filter and the duty decision.  Pin number, PWM
 * frequency and the waiting times are hardware and timing details and are
 * not part of the model.
 */
module FanConfig {
  import opened SpeedCurve

  datatype Config = Config(
    tempSteps: seq<real>,  // temperature steps, degrees Celsius
    speedSteps: seq<int>,  // fan speed wanted at each step, percent
    hyst: int,             // a new target must differ from the applied duty by more than this
    fanMin: int,           // targets below this are applied as 0
    ratio: real,           // weight of the newest reading in the temperature filter
    fanStart: int,         // duty the fan is started with
    kickMax: int           // targets strictly between fanMin and this get a 100% kick first
  )
  {
    /** The only check the program makes: one speed per temperature step. */
    predicate TablesAgree() {
      |tempSteps| == |speedSteps|
    }

    /** What a control step needs in order to index the tables. */
    predicate Usable() {
      SpeedCurve.Usable(tempSteps, speedSteps)
    }

    /** Every duty the configuration can ask for is a valid percentage. */
    predicate DutiesInRange() {
      SpeedsWithin(speedSteps, 0, 100) && 0 <= fanStart <= 100
    }

    /** The shape the curve is meant to have: rising temperatures, non-falling speeds. */
    predicate WellShaped() {
      Usable() && Increasing(tempSteps) && NonDecreasing(speedSteps)
    }
  }

  /** The configuration the program ships with. */
  const Shipped: Config := Config(
    tempSteps := [35.0, 40.0, 50.0, 60.0],
    speedSteps := [0, 40, 85, 100],
    hyst := 1,
    fanMin := 15,
    ratio := 0.7,
    fanStart := 50,
    kickMax := 25
  )

  /** The shipped tables agree, are well shaped and keep every duty in 0..100. */
  lemma ShippedIsSound()
    ensures Shipped.TablesAgree() && Shipped.WellShaped() && Shipped.DutiesInRange()
    ensures 0.0 < Shipped.ratio <= 1.0
  {
  }
}
