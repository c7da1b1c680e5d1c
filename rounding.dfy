/**
 * Python's `round(x, -1)` on any quotient `num / den`:
 * the nearest multiple of 10, with a tie going to the even multiple of 10
 * (banker's rounding, as Python 3 does for `round`).
 */
module Rounding {

  function Abs(x: int): (r: nat)
    ensures r == x || r == -x
  {
    if x < 0 then -x else x
  }

  /** `round(num / den, -1)` with Python's round-half-to-even rule. */
  function RoundTo10HalfEven(num: int, den: int): (r: int)
    requires den > 0
    // a multiple of 10 ...
    ensures r % 10 == 0
    // ... at distance at most 5 from num / den ...
    ensures Abs(r * den - num) <= 5 * den
    // ... and on an exact tie, the even multiple of 10
    ensures Abs(r * den - num) == 5 * den ==> (r / 10) % 2 == 0
  {
    var step := 10 * den;
    var q := num / step;
    var rem := num % step;
    assert q * step + rem == num;
    assert 10 * q * den == q * step;
    assert 10 * (q + 1) * den == q * step + step;
    if 2 * rem < step then 10 * q
    else if 2 * rem > step then 10 * (q + 1)
    else if q % 2 == 0 then 10 * q
    else 10 * (q + 1)
  }

  /** Multiplying by a positive denominator keeps an inequality. */
  lemma MulMonotone(x: int, y: int, den: int)
    requires den > 0 && x <= y
    ensures x * den <= y * den
  {
    assert y * den - x * den == (y - x) * den;
  }

  /**
   * The three clauses of RoundTo10HalfEven's contract pin the result down:
   * any multiple of 10 that is within half a step of num / den, and even on
   * a tie, is the rounded value.
   */
  lemma RoundTo10Unique(num: int, den: int, m: int)
    requires den > 0
    requires m % 10 == 0
    requires Abs(m * den - num) <= 5 * den
    requires Abs(m * den - num) == 5 * den ==> (m / 10) % 2 == 0
    ensures m == RoundTo10HalfEven(num, den)
  {
    var r := RoundTo10HalfEven(num, den);
    if m != r {
      var hi, lo := if m > r then m else r, if m > r then r else m;
      TwoNearestMultiples(num, den, hi, lo);
    }
  }

  /**
   * Two distinct multiples of 10 both within half a step of num / den are
   * the two ends of a tie, ten apart.
   */
  lemma TwoNearestMultiples(num: int, den: int, hi: int, lo: int)
    requires den > 0
    requires hi % 10 == 0 && lo % 10 == 0 && lo < hi
    requires Abs(hi * den - num) <= 5 * den && Abs(lo * den - num) <= 5 * den
    ensures hi == lo + 10
    ensures hi * den - num == 5 * den && lo * den - num == -5 * den
  {
    assert hi - lo >= 10;
    assert hi * den - lo * den == (hi - lo) * den;
    MulMonotone(10, hi - lo, den);
    if hi - lo >= 20 {
      MulMonotone(20, hi - lo, den);
      assert false;
    }
    assert hi - lo == 10;
  }
}
