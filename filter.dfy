/**
 * Exponential smoothing of the CPU temperature: each poll blends the
 * previous (filtered) temperature with the new reading, and the blend is
 * rounded to one decimal before it is stored as the next "previous".
 */
module TemperatureFilter {
  import opened Rounding

  function MinReal(a: real, b: real): real { if a <= b then a else b }
  function MaxReal(a: real, b: real): real { if a <= b then b else a }

  /**
   * The blend `(1 - ratio) * previous + ratio * reading`: ratio 1 keeps
   * only the reading and ratio 0 only the history.
   */
  function Filtered(ratio: real, previous: real, reading: real): (r: real)
    ensures ratio == 1.0 ==> r == reading
    ensures ratio == 0.0 ==> r == previous
  {
    (1.0 - ratio) * previous + ratio * reading
  }

  /** For a ratio in 0..1 the blend is a convex combination: it lies between the two temperatures. */
  lemma FilteredBetween(ratio: real, previous: real, reading: real)
    requires 0.0 <= ratio <= 1.0
    ensures MinReal(previous, reading) <= Filtered(ratio, previous, reading) <= MaxReal(previous, reading)
  {
    assert Filtered(ratio, previous, reading) == previous + ratio * (reading - previous);
    if previous <= reading {
      ScaleBetween(ratio, reading - previous);
    } else {
      ScaleBetween(ratio, previous - reading);
      assert ratio * (reading - previous) == -(ratio * (previous - reading));
    }
  }

  /** Scaling a non-negative distance by a factor in 0..1 gives a part of it. */
  lemma ScaleBetween(k: real, d: real)
    requires 0.0 <= k <= 1.0 && 0.0 <= d
    ensures 0.0 <= k * d <= d
  {
  }

  /** The temperature one poll stores and uses: the blend rounded to one decimal. */
  function FilterStep(ratio: real, previous: real, reading: real): real {
    RoundTenths(Filtered(ratio, previous, reading))
  }

  /**
   * The stored temperature is on the tenths grid and within half a tenth of
   * the blend, hence within half a tenth of the interval between the
   * previous temperature and the reading.
   */
  lemma FilterStepNear(ratio: real, previous: real, reading: real)
    requires 0.0 <= ratio <= 1.0
    ensures OnTenths(FilterStep(ratio, previous, reading))
    ensures MinReal(previous, reading) - 0.05 <= FilterStep(ratio, previous, reading)
    ensures FilterStep(ratio, previous, reading) <= MaxReal(previous, reading) + 0.05
  {
    FilteredBetween(ratio, previous, reading);
  }

  /**
   * When both temperatures are whole tenths (as every stored temperature
   * is, and as the sensor reports), the stored temperature stays between
   * them without any rounding slack.
   */
  lemma FilterStepBetween(ratio: real, previous: real, reading: real)
    requires 0.0 <= ratio <= 1.0 && OnTenths(previous) && OnTenths(reading)
    ensures MinReal(previous, reading) <= FilterStep(ratio, previous, reading) <= MaxReal(previous, reading)
  {
    var lo, hi := MinReal(previous, reading), MaxReal(previous, reading);
    var blend := Filtered(ratio, previous, reading);
    FilteredBetween(ratio, previous, reading);
    RoundTenthsMonotone(lo, blend);
    RoundTenthsMonotone(blend, hi);
    RoundTenthsOnGrid(lo);
    RoundTenthsOnGrid(hi);
  }

  /** A steady reading equal to the stored temperature leaves it where it is. */
  lemma FilterStepSteady(ratio: real, t: real)
    requires OnTenths(t)
    ensures FilterStep(ratio, t, t) == t
  {
    assert Filtered(ratio, t, t) == t;
    RoundTenthsOnGrid(t);
  }
}
