/**
 * The concentration key of the catalog: `f"U-{int(c)}"` for a present
 * concentration cell, "Unknown" for an empty one.
 */
module Labels {
  import opened Wrappers

  /** Python's int() on a float: truncation toward zero. */
  function Trunc(x: real): (i: int)
    ensures x >= 0.0 ==> 0 <= i && i as real <= x < i as real + 1.0
    ensures x < 0.0 ==> i <= 0 && i as real - 1.0 < x <= i as real
  {
    if x >= 0.0 then x.Floor else -((-x).Floor)
  }

  predicate IsDigit(ch: char)
  {
    '0' <= ch <= '9'
  }

  predicate AllDigits(s: string)
  {
    forall k :: 0 <= k < |s| ==> IsDigit(s[k])
  }

  function DigitChar(d: nat): (ch: char)
    requires d < 10
    ensures IsDigit(ch) && ch as int - '0' as int == d
  {
    ('0' as int + d) as char
  }

  /** Decimal digits of n, most significant first, without leading zeros. */
  function NatToDecimal(n: nat): (s: string)
    ensures |s| > 0 && AllDigits(s)
    ensures |s| > 1 ==> s[0] != '0'
    decreases n
  {
    if n < 10 then [DigitChar(n)] else NatToDecimal(n / 10) + [DigitChar(n % 10)]
  }

  /** The number a string of decimal digits denotes. */
  function DecimalValue(s: string): nat
    requires AllDigits(s)
  {
    if s == [] then 0
    else 10 * DecimalValue(s[..|s| - 1]) + (s[|s| - 1] as int - '0' as int)
  }

  /** Reading back the digits of n gives n. */
  lemma {:induction false} DecimalRoundTrip(n: nat)
    ensures DecimalValue(NatToDecimal(n)) == n
  {
    var s := NatToDecimal(n);
    if n >= 10 {
      DecimalRoundTrip(n / 10);
      assert s[..|s| - 1] == NatToDecimal(n / 10);
    }
  }

  /** Python's str() on an int: an optional minus sign, then the digits. */
  function IntToDecimal(i: int): (s: string)
    ensures |s| > 0
    ensures i < 0 <==> s[0] == '-'
  {
    if i < 0 then "-" + NatToDecimal(-i) else NatToDecimal(i)
  }

  /** Different integers print differently. */
  lemma IntToDecimalInjective(i: int, j: int)
    ensures IntToDecimal(i) == IntToDecimal(j) <==> i == j
  {
    if IntToDecimal(i) == IntToDecimal(j) {
      if i < 0 {
        assert j < 0;
        assert NatToDecimal(-i) == IntToDecimal(i)[1..] == IntToDecimal(j)[1..] == NatToDecimal(-j);
        DecimalRoundTrip(-i);
        DecimalRoundTrip(-j);
      } else {
        assert j >= 0;
        DecimalRoundTrip(i);
        DecimalRoundTrip(j);
      }
    }
  }

  /** The default key for a row whose concentration cell is empty. */
  const UnknownConcentration := "Unknown"

  /** The concentration key a row is filed under. */
  function ConcentrationLabel(c: Option<real>): (key: string)
    ensures c.None? <==> key == UnknownConcentration
    ensures c.Some? ==> |key| > 2 && key[..2] == "U-"
  {
    match c
    case None => UnknownConcentration
    case Some(x) =>
      var key := "U-" + IntToDecimal(Trunc(x));
      assert key[1] == '-' != UnknownConcentration[1];
      key
  }

  /**
   * Two present concentrations share a key exactly when they truncate to the
   * same integer (100.0 and 100.7 both give "U-100").
   */
  lemma ConcentrationLabelsAgree(x: real, y: real)
    ensures ConcentrationLabel(Some(x)) == ConcentrationLabel(Some(y)) <==> Trunc(x) == Trunc(y)
  {
    var lx, ly := ConcentrationLabel(Some(x)), ConcentrationLabel(Some(y));
    if lx == ly {
      assert lx[2..] == IntToDecimal(Trunc(x));
      assert ly[2..] == IntToDecimal(Trunc(y));
      IntToDecimalInjective(Trunc(x), Trunc(y));
    }
  }
}
