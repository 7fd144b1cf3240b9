/**
 * The bench sweep of the test mode: a counter that starts at 9997 and
 * counts down once per step, mapped to the duty `counter % 21 * 5` and
 * clamped to 0..100.  The modulo is Python's, which for a positive divisor
 * is never negative, like Dafny's.
 */
module BenchSweep {

  /** The counter the sweep starts from. */
  const SweepStart: int := 9997

  /** The duty for one counter value: a multiple of 5 in 0..100. */
  function SweepDuty(counter: int): (d: int)
    ensures d % 5 == 0 && 0 <= d <= 100
  {
    var raw := counter % 21 * 5;
    var capped := if raw < 100 then raw else 100;
    if capped > 0 then capped else 0
  }

  /** The clamps never change anything, for negative counters too. */
  lemma SweepClampsAreNoOps(counter: int)
    ensures SweepDuty(counter) == counter % 21 * 5
  {
  }

  /** Each decrement of the counter lowers the duty by 5, wrapping from 0 to 100. */
  lemma SweepDecrement(counter: int)
    ensures SweepDuty(counter - 1) == if SweepDuty(counter) == 0 then 100 else SweepDuty(counter) - 5
  {
    var q := counter / 21;
    var r := counter % 21;
    assert counter == 21 * q + r;
    if r == 0 {
      assert counter - 1 == 21 * (q - 1) + 20;
    } else {
      assert counter - 1 == 21 * q + (r - 1);
    }
  }

  /** The duties of the first `n` steps starting from counter `start`. */
  function SweepRun(start: int, n: nat): (ds: seq<int>)
    ensures |ds| == n
    ensures forall k :: 0 <= k < n ==> ds[k] == SweepDuty(start - k)
  {
    if n == 0 then [] else SweepRun(start, n - 1) + [SweepDuty(start - (n - 1))]
  }

  /** Every duty of a run is a multiple of 5 in 0..100, and consecutive duties step down by 5 or wrap from 0 to 100. */
  lemma SweepRunIsRamp(start: int, n: nat)
    ensures forall k :: 0 <= k < n ==> SweepRun(start, n)[k] % 5 == 0 && 0 <= SweepRun(start, n)[k] <= 100
    ensures forall k :: 0 <= k < n - 1 ==>
      SweepRun(start, n)[k + 1] == if SweepRun(start, n)[k] == 0 then 100 else SweepRun(start, n)[k] - 5
  {
    forall k | 0 <= k < n - 1
      ensures SweepRun(start, n)[k + 1] == if SweepRun(start, n)[k] == 0 then 100 else SweepRun(start, n)[k] - 5
    {
      SweepDecrement(start - k);
      assert start - k - 1 == start - (k + 1);
    }
  }

  /** From the shipped start the sweep runs 5, 0, 100, 95. */
  lemma SweepFromStart()
    ensures SweepRun(SweepStart, 4) == [5, 0, 100, 95]
  {
  }
}
