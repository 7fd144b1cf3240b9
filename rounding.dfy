/**
 * Python's built-in `round` on floats, idealised over exact reals:
 * `round(x, 0)` goes to the nearest whole number and `round(x, 1)` to the
 * nearest tenth, and in both a tie goes to the even neighbour
 * (banker's rounding).
 */
module Rounding {

  /** True when `x` is a whole number of tenths (a value `round(_, 1)` can return). */
  predicate OnTenths(x: real) {
    (x * 10.0).Floor as real == x * 10.0
  }

  /** `round(x, 0)`: the nearest integer, ties to the even one. */
  function RoundHalfEven(x: real): (r: int)
    ensures x - 0.5 <= r as real <= x + 0.5
    ensures (r as real - x == 0.5 || x - r as real == 0.5) ==> r % 2 == 0
  {
    var f := x.Floor;
    var frac := x - f as real;
    if frac < 0.5 then f
    else if frac > 0.5 then f + 1
    else if f % 2 == 0 then f
    else f + 1
  }

  /** The two properties above single out one integer: RoundHalfEven is THE half-to-even rounding. */
  lemma RoundHalfEvenUnique(x: real, n: int)
    requires x - 0.5 <= n as real <= x + 0.5
    requires (n as real - x == 0.5 || x - n as real == 0.5) ==> n % 2 == 0
    ensures n == RoundHalfEven(x)
  {
  }

  /** Rounding an integer gives it back. */
  lemma RoundOfInteger(n: int)
    ensures RoundHalfEven(n as real) == n
  {
  }

  /** Rounding is monotone. */
  lemma RoundMonotone(x: real, y: real)
    requires x <= y
    ensures RoundHalfEven(x) <= RoundHalfEven(y)
  {
  }

  /** A value between two integers rounds to a value between them. */
  lemma RoundBetween(x: real, lo: int, hi: int)
    requires lo as real <= x <= hi as real
    ensures lo <= RoundHalfEven(x) <= hi
  {
    RoundMonotone(lo as real, x);
    RoundMonotone(x, hi as real);
    RoundOfInteger(lo);
    RoundOfInteger(hi);
  }

  /** `round(x, 1)`: the nearest tenth, ties to the even tenth. */
  function RoundTenths(x: real): (r: real)
    ensures OnTenths(r)
    ensures x - 0.05 <= r <= x + 0.05
    ensures (r - x == 0.05 || x - r == 0.05) ==> (r * 10.0).Floor % 2 == 0
  {
    var n := RoundHalfEven(x * 10.0);
    var r := n as real / 10.0;
    assert r * 10.0 == n as real;
    assert (r * 10.0).Floor == n;
    assert x * 10.0 - 0.5 <= r * 10.0 <= x * 10.0 + 0.5;
    r
  }

  /** The three properties above single out one tenth: RoundTenths is THE half-to-even rounding to tenths. */
  lemma RoundTenthsUnique(x: real, t: real)
    requires OnTenths(t) && x - 0.05 <= t <= x + 0.05
    requires (t - x == 0.05 || x - t == 0.05) ==> (t * 10.0).Floor % 2 == 0
    ensures t == RoundTenths(x)
  {
    var n := (t * 10.0).Floor;
    assert n as real == t * 10.0;
    assert x * 10.0 - 0.5 <= n as real <= x * 10.0 + 0.5;
    assert (n as real - x * 10.0 == 0.5 || x * 10.0 - n as real == 0.5) ==> n % 2 == 0;
    RoundHalfEvenUnique(x * 10.0, n);
  }

  /** A value that is already on the tenths grid is left as it is. */
  lemma RoundTenthsOnGrid(x: real)
    requires OnTenths(x)
    ensures RoundTenths(x) == x
  {
    RoundOfInteger((x * 10.0).Floor);
  }

  /** Rounding to tenths is monotone. */
  lemma RoundTenthsMonotone(x: real, y: real)
    requires x <= y
    ensures RoundTenths(x) <= RoundTenths(y)
  {
    RoundMonotone(x * 10.0, y * 10.0);
  }
}
