/**
 * The speed curve of the fan controller: a table of temperature steps and
 * the fan speed (a whole percent) wanted at each step.  Below the first
 * step the first speed applies, above the last step the last speed, and in
 * between the speed is linearly interpolated between the two neighbouring
 * steps and rounded to a whole percent, half to even.
 *
 * The interpolation is a `for` loop over all segments without a `break`:
 * the value it leaves behind is that of the LAST segment that contains the
 * temperature, or the speed carried over from the previous poll when none
 * does.  Scan models that loop; the lemmas below show that inside the
 * table some segment always matches, and that with strictly increasing
 * temperature steps exactly one does.
 */
module SpeedCurve {
  import opened Rounding

  /** The tables can be indexed at their first and last step and have one speed per temperature. */
  predicate Usable(temps: seq<real>, speeds: seq<int>) {
    |temps| == |speeds| && |temps| >= 1
  }

  /** Strictly increasing temperature steps. */
  predicate Increasing(temps: seq<real>) {
    forall i, j :: 0 <= i < j < |temps| ==> temps[i] < temps[j]
  }

  /** Non-decreasing speeds. */
  predicate NonDecreasing(speeds: seq<int>) {
    forall i, j :: 0 <= i <= j < |speeds| ==> speeds[i] <= speeds[j]
  }

  /** Every speed of the table lies in `lo..hi`. */
  predicate SpeedsWithin(speeds: seq<int>, lo: int, hi: int) {
    forall i :: 0 <= i < |speeds| ==> lo <= speeds[i] <= hi
  }

  /** Segment `i` (from step `i` to step `i + 1`) contains `temp`: the test of the loop body. */
  predicate Matches(temps: seq<real>, i: int, temp: real) {
    0 <= i < |temps| - 1 && temps[i] <= temp < temps[i + 1]
  }

  function Min(a: int, b: int): int { if a <= b then a else b }
  function Max(a: int, b: int): int { if a <= b then b else a }

  /** The unrounded interpolant of segment `i`: slope times distance from the segment's start, plus its speed. */
  function Interpolate(temps: seq<real>, speeds: seq<int>, i: int, temp: real): real
    requires |temps| == |speeds| && Matches(temps, i, temp)
  {
    (speeds[i + 1] - speeds[i]) as real / (temps[i + 1] - temps[i]) * (temp - temps[i]) + speeds[i] as real
  }

  /** The speed left behind by the first `n` iterations of the segment loop, starting from `carried`. */
  function Scan(temps: seq<real>, speeds: seq<int>, temp: real, carried: int, n: nat): int
    requires |temps| == |speeds| && n < |temps|
  {
    if n == 0 then carried
    else if Matches(temps, n - 1, temp) then RoundHalfEven(Interpolate(temps, speeds, n - 1, temp))
    else Scan(temps, speeds, temp, carried, n - 1)
  }

  /** The target speed for `temp`, given the speed `carried` over from the previous poll. */
  function Target(temps: seq<real>, speeds: seq<int>, temp: real, carried: int): int
    requires Usable(temps, speeds)
  {
    if temp <= temps[0] then speeds[0]
    else if temp >= temps[|temps| - 1] then speeds[|speeds| - 1]
    else Scan(temps, speeds, temp, carried, |temps| - 1)
  }

  // ---------------------------------------------------------------------
  // The interpolant

  /** The interpolant of a segment lies between the segment's two speeds and starts at the first. */
  lemma InterpolateBetween(temps: seq<real>, speeds: seq<int>, i: int, temp: real)
    requires |temps| == |speeds| && Matches(temps, i, temp)
    ensures Min(speeds[i], speeds[i + 1]) as real <= Interpolate(temps, speeds, i, temp)
    ensures Interpolate(temps, speeds, i, temp) <= Max(speeds[i], speeds[i + 1]) as real
    ensures temp == temps[i] ==> Interpolate(temps, speeds, i, temp) == speeds[i] as real
  {
    var width := temps[i + 1] - temps[i];
    var rise := (speeds[i + 1] - speeds[i]) as real;
    var f := (temp - temps[i]) / width;
    FractionBelowOne(temp - temps[i], width);
    assert Interpolate(temps, speeds, i, temp) == rise * f + speeds[i] as real;
    if rise >= 0.0 {
      assert 0.0 <= rise * f <= rise;
    } else {
      assert rise <= rise * f <= 0.0;
    }
  }

  /** A distance short of the segment's width is a fraction below one of it. */
  lemma FractionBelowOne(u: real, w: real)
    requires 0.0 <= u < w
    ensures 0.0 <= u / w < 1.0
  {
    var f := u / w;
    assert f * w == u;
    assert (1.0 - f) * w == w - u;
    if f >= 1.0 {
      assert false;
    }
  }

  /** Within one segment whose speeds do not fall, the interpolant does not fall either. */
  lemma InterpolateMonotone(temps: seq<real>, speeds: seq<int>, i: int, a: real, b: real)
    requires |temps| == |speeds| && Matches(temps, i, a) && Matches(temps, i, b)
    requires speeds[i] <= speeds[i + 1] && a <= b
    ensures Interpolate(temps, speeds, i, a) <= Interpolate(temps, speeds, i, b)
  {
    var slope := (speeds[i + 1] - speeds[i]) as real / (temps[i + 1] - temps[i]);
    assert slope >= 0.0;
    assert slope * (b - temps[i]) - slope * (a - temps[i]) == slope * (b - a);
  }

  // ---------------------------------------------------------------------
  // The segment loop

  /** Inside the table some segment contains the temperature, whatever the order of the steps. */
  lemma {:induction false} FindSegment(temps: seq<real>, temp: real, k: nat) returns (i: nat)
    requires k < |temps| && temps[k] <= temp < temps[|temps| - 1]
    ensures k <= i && Matches(temps, i, temp)
    decreases |temps| - k
  {
    if temp < temps[k + 1] {
      i := k;
    } else {
      i := FindSegment(temps, temp, k + 1);
    }
  }

  /** With strictly increasing steps at most one segment contains a temperature. */
  lemma SegmentUnique(temps: seq<real>, temp: real, i: int, j: int)
    requires Increasing(temps) && Matches(temps, i, temp) && Matches(temps, j, temp)
    ensures i == j
  {
  }

  /**
   * With no `break`, the loop leaves the interpolant of the LAST matching
   * segment among the first `n`, whenever one of them matches.
   */
  lemma {:induction false} ScanPicksLastMatch(temps: seq<real>, speeds: seq<int>, temp: real, carried: int, n: nat, k: nat)
    returns (i: nat)
    requires |temps| == |speeds| && n < |temps| && k < n && Matches(temps, k, temp)
    ensures k <= i < n && Matches(temps, i, temp)
    ensures Scan(temps, speeds, temp, carried, n) == RoundHalfEven(Interpolate(temps, speeds, i, temp))
    ensures forall j :: i < j < n ==> !Matches(temps, j, temp)
  {
    if Matches(temps, n - 1, temp) {
      i := n - 1;
    } else {
      i := ScanPicksLastMatch(temps, speeds, temp, carried, n - 1, k);
    }
  }

  /** Once some segment has matched, the carried-over speed no longer matters. */
  lemma {:induction false} ScanForgetsCarried(temps: seq<real>, speeds: seq<int>, temp: real, c1: int, c2: int, n: nat, k: nat)
    requires |temps| == |speeds| && n < |temps| && k < n && Matches(temps, k, temp)
    ensures Scan(temps, speeds, temp, c1, n) == Scan(temps, speeds, temp, c2, n)
  {
    if !Matches(temps, n - 1, temp) {
      ScanForgetsCarried(temps, speeds, temp, c1, c2, n - 1, k);
    }
  }

  /** A speed that stays in `lo..hi` through the whole loop, when the table and the carried speed do. */
  lemma {:induction false} ScanWithin(temps: seq<real>, speeds: seq<int>, temp: real, carried: int, n: nat, lo: int, hi: int)
    requires |temps| == |speeds| && n < |temps|
    requires SpeedsWithin(speeds, lo, hi) && lo <= carried <= hi
    ensures lo <= Scan(temps, speeds, temp, carried, n) <= hi
  {
    if n == 0 {
    } else if Matches(temps, n - 1, temp) {
      InterpolateBetween(temps, speeds, n - 1, temp);
      RoundBetween(Interpolate(temps, speeds, n - 1, temp), Min(speeds[n - 1], speeds[n]), Max(speeds[n - 1], speeds[n]));
    } else {
      ScanWithin(temps, speeds, temp, carried, n - 1, lo, hi);
    }
  }

  // ---------------------------------------------------------------------
  // The curve

  /** The target never depends on the speed carried over from the previous poll. */
  lemma TargetIgnoresCarried(temps: seq<real>, speeds: seq<int>, temp: real, c1: int, c2: int)
    requires Usable(temps, speeds)
    ensures Target(temps, speeds, temp, c1) == Target(temps, speeds, temp, c2)
  {
    if temps[0] < temp < temps[|temps| - 1] {
      var k := FindSegment(temps, temp, 0);
      ScanForgetsCarried(temps, speeds, temp, c1, c2, |temps| - 1, k);
    }
  }

  /** Clamps: at or below the first step the first speed, at or above the last step the last speed. */
  lemma TargetClamps(temps: seq<real>, speeds: seq<int>, temp: real, carried: int)
    requires Usable(temps, speeds) && Increasing(temps)
    ensures temp <= temps[0] ==> Target(temps, speeds, temp, carried) == speeds[0]
    ensures temp >= temps[|temps| - 1] ==> Target(temps, speeds, temp, carried) == speeds[|speeds| - 1]
  {
  }

  /**
   * With strictly increasing steps, a temperature in segment `i` gets the
   * half-to-even rounding of that segment's interpolant (at the first step
   * this agrees with the clamp).
   */
  lemma TargetInterpolates(temps: seq<real>, speeds: seq<int>, i: int, temp: real, carried: int)
    requires Usable(temps, speeds) && Increasing(temps) && Matches(temps, i, temp)
    ensures Target(temps, speeds, temp, carried) == RoundHalfEven(Interpolate(temps, speeds, i, temp))
  {
    if temp <= temps[0] {
      assert i == 0 && temp == temps[0];
      InterpolateBetween(temps, speeds, i, temp);
      RoundOfInteger(speeds[0]);
    } else {
      assert temps[i + 1] <= temps[|temps| - 1];
      var j := ScanPicksLastMatch(temps, speeds, temp, carried, |temps| - 1, i);
      SegmentUnique(temps, temp, i, j);
    }
  }

  /** The target in segment `i` lies between the segment's two speeds. */
  lemma TargetBetween(temps: seq<real>, speeds: seq<int>, i: int, temp: real, carried: int)
    requires Usable(temps, speeds) && Increasing(temps) && Matches(temps, i, temp)
    ensures Min(speeds[i], speeds[i + 1]) <= Target(temps, speeds, temp, carried) <= Max(speeds[i], speeds[i + 1])
  {
    TargetInterpolates(temps, speeds, i, temp, carried);
    InterpolateBetween(temps, speeds, i, temp);
    RoundBetween(Interpolate(temps, speeds, i, temp), Min(speeds[i], speeds[i + 1]), Max(speeds[i], speeds[i + 1]));
  }

  /** When every speed of the table and the carried speed lie in `lo..hi`, so does the target. */
  lemma TargetWithin(temps: seq<real>, speeds: seq<int>, temp: real, carried: int, lo: int, hi: int)
    requires Usable(temps, speeds) && SpeedsWithin(speeds, lo, hi) && lo <= carried <= hi
    ensures lo <= Target(temps, speeds, temp, carried) <= hi
  {
    ScanWithin(temps, speeds, temp, carried, |temps| - 1, lo, hi);
  }

  /** With non-decreasing speeds the target lies between the first and the last speed. */
  lemma TargetWithinTable(temps: seq<real>, speeds: seq<int>, temp: real, carried: int)
    requires Usable(temps, speeds) && Increasing(temps) && NonDecreasing(speeds)
    ensures speeds[0] <= Target(temps, speeds, temp, carried) <= speeds[|speeds| - 1]
  {
    if temps[0] < temp < temps[|temps| - 1] {
      var i := FindSegment(temps, temp, 0);
      TargetBetween(temps, speeds, i, temp, carried);
    }
  }

  /** Monotone curve: with increasing steps and non-decreasing speeds, a warmer CPU never gets a lower target. */
  lemma TargetMonotone(temps: seq<real>, speeds: seq<int>, a: real, b: real, carried: int)
    requires Usable(temps, speeds) && Increasing(temps) && NonDecreasing(speeds) && a <= b
    ensures Target(temps, speeds, a, carried) <= Target(temps, speeds, b, carried)
  {
    var last := |temps| - 1;
    if a <= temps[0] {
      TargetWithinTable(temps, speeds, b, carried);
    } else if b >= temps[last] {
      TargetWithinTable(temps, speeds, a, carried);
    } else {
      var i := FindSegment(temps, a, 0);
      var j := FindSegment(temps, b, 0);
      TargetInterpolates(temps, speeds, i, a, carried);
      TargetInterpolates(temps, speeds, j, b, carried);
      var ia, jb := Interpolate(temps, speeds, i, a), Interpolate(temps, speeds, j, b);
      if i == j {
        InterpolateMonotone(temps, speeds, i, a, b);
      } else {
        assert i < j;
        InterpolateBetween(temps, speeds, i, a);
        InterpolateBetween(temps, speeds, j, b);
        assert ia <= speeds[i + 1] as real <= speeds[j] as real <= jb;
      }
      RoundMonotone(ia, jb);
    }
  }
}
