/** Percentages of an allowance, and which announcement a position calls for. */
module Thresholds {
  import opened Wrappers

  const WARNING_PERCENT := 80
  const HARD_PERCENT := 100

  /** `n / d` rounded to the nearest integer, a tie going to the even one. */
  function RoundHalfEven(n: int, d: int): int
    requires d > 0
  {
    var floor, rest := n / d, n % d;
    if 2 * rest < d || (2 * rest == d && floor % 2 == 0) then floor else floor + 1
  }

  /** `part` is at least `threshold` percent of `whole` once that percentage is rounded to tenths. */
  predicate PercentReaches(part: int, whole: int, threshold: int) {
    10000 * part >= (100 * threshold - 5) * whole
  }

  /** Rounding half to even reaches a whole percentage from exactly 0.05 below it, whatever the numbers. */
  lemma PercentReachesByRounding(part: int, whole: int, threshold: int)
    requires whole > 0
    ensures PercentReaches(part, whole, threshold) <==> RoundHalfEven(1000 * part, whole) >= 10 * threshold
  {
    var floor, rest := 1000 * part / whole, 1000 * part % whole;
    var target := 10 * threshold;
    assert 1000 * part == floor * whole + rest;
    assert PercentReaches(part, whole, threshold) <==> 2 * floor * whole + 2 * rest >= (2 * target - 1) * whole;
    if floor >= target {
      ScaleOrder(target, floor, whole);
    } else if floor <= target - 2 {
      ScaleOrder(floor, target - 2, whole);
    }
  }

  lemma ScaleOrder(a: int, b: int, c: int)
    requires a <= b && c > 0
    ensures a * c <= b * c
  {
  }

  /** How far through its period a moment is, from 0 to 1, on one clock. */
  function ElapsedFraction(start: int, end: int, now: int): real
    requires start < end
  {
    if now <= start then 0.0 else if now >= end then 1.0 else (now - start) as real / (end - start) as real
  }

  const LATE_FRACTION := 0.66

  /** The fraction passes the limit exactly when the elapsed time does, so once late a period stays late. */
  lemma LateExactlyWhen(start: int, end: int, now: int)
    requires start < end
    ensures ElapsedFraction(start, end, now) > LATE_FRACTION <==> 100 * (now - start) > 66 * (end - start)
  {
    if start < now < end {
      QuotientExceeds((now - start) as real, (end - start) as real, LATE_FRACTION);
    }
  }

  lemma QuotientExceeds(x: real, d: real, limit: real)
    requires d > 0.0
    ensures x / d > limit <==> x > limit * d
  {
    var q := x / d;
    assert q * d == x;
    assert q > limit ==> (q - limit) * d > 0.0;
    assert q <= limit ==> (limit - q) * d >= 0.0;
  }

  /** The announcement due, given the position, whether it is late in the period, and what was announced before. */
  function Due(used: int, included: int, late: bool, already: int): Option<int> {
    if included <= 0 then None
    else if PercentReaches(used, included, HARD_PERCENT) && already < HARD_PERCENT then Some(HARD_PERCENT)
    else if PercentReaches(used, included, WARNING_PERCENT) && already < WARNING_PERCENT && !late then Some(WARNING_PERCENT)
    else None
  }
}
