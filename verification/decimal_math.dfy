/**
 * C# `decimal` arithmetic is exact base-10 arithmetic; the model uses `real`
 * and spells out the two rounding modes the core uses:
 *   decimal.Round(x, 2)                                 (to even at the midpoint)
 *   decimal.Round(x, 4, MidpointRounding.AwayFromZero)  (away from zero at the midpoint)
 */
module DecimalMath {

  /** x is a whole number of hundredths. */
  predicate HasTwoDecimals(x: real) {
    (x * 100.0).Floor as real == x * 100.0
  }

  /** x is a whole number of ten-thousandths. */
  predicate HasFourDecimals(x: real) {
    (x * 10000.0).Floor as real == x * 10000.0
  }

  /**
   * decimal.Round(x, 2): the nearest multiple of 0.01; at an exact midpoint the
   * one whose last digit is even (banker's rounding).
   */
  function Round2(x: real): (r: real)
    ensures -0.005 <= r - x <= 0.005
  {
    var y := x * 100.0;
    var f := y.Floor;
    var d := y - f as real;
    var n := if d < 0.5 then f else if d > 0.5 then f + 1 else if f % 2 == 0 then f else f + 1;
    assert (n as real / 100.0) * 100.0 == n as real;
    n as real / 100.0
  }

  /**
   * The result of Round2 has two decimals, a midpoint goes to the even
   * neighbour, and a value that already has two decimals is kept.
   */
  lemma Round2Digits(x: real)
    ensures HasTwoDecimals(Round2(x))
    ensures (Round2(x) - x == 0.005 || x - Round2(x) == 0.005) ==> (Round2(x) * 100.0).Floor % 2 == 0
    ensures HasTwoDecimals(x) ==> Round2(x) == x
  {
    var y := x * 100.0;
    var f := y.Floor;
    var d := y - f as real;
    var n := if d < 0.5 then f else if d > 0.5 then f + 1 else if f % 2 == 0 then f else f + 1;
    var r := Round2(x);
    assert r == n as real / 100.0;
    assert r * 100.0 == n as real by {
      assert (n as real / 100.0) * 100.0 == n as real;
    }
    assert (r * 100.0).Floor == n;
    if r - x == 0.005 || x - r == 0.005 {
      assert d == 0.5;
    }
    if HasTwoDecimals(x) {
      assert f as real == y;
    }
  }

  /** The integer nearest to y, a midpoint going away from zero. */
  function NearestAwayFromZero(y: real): (n: int)
    ensures -0.5 <= n as real - y <= 0.5
    ensures y >= 0.0 ==> n as real - y > -0.5
    ensures y < 0.0 ==> n as real - y < 0.5
    ensures y.Floor as real == y ==> n as real == y
  {
    if y >= 0.0 then
      var f := (y + 0.5).Floor;
      assert f as real <= y + 0.5 < f as real + 1.0;
      assert y.Floor as real == y ==> f == y.Floor by {
        if y.Floor as real == y {
          var d := f - y.Floor;
          assert -0.5 < d as real <= 0.5;
        }
      }
      f
    else
      var f := (-y + 0.5).Floor;
      assert f as real <= -y + 0.5 < f as real + 1.0;
      assert y.Floor as real == y ==> -f == y.Floor by {
        if y.Floor as real == y {
          var d := f + y.Floor;
          assert -0.5 <= d as real < 0.5;
        }
      }
      -f
  }

  /**
   * decimal.Round(x, 4, MidpointRounding.AwayFromZero): the nearest multiple of
   * 0.0001; at an exact midpoint the one farther from zero.
   */
  function Round4AwayFromZero(x: real): (r: real)
    ensures -0.00005 <= r - x <= 0.00005
    ensures x >= 0.0 ==> r - x > -0.00005
    ensures x < 0.0 ==> r - x < 0.00005
  {
    NearestAwayFromZero(x * 10000.0) as real / 10000.0
  }

  /** The result of Round4AwayFromZero has four decimals, and a value that already has them is kept. */
  lemma Round4AwayFromZeroDigits(x: real)
    ensures HasFourDecimals(Round4AwayFromZero(x))
    ensures HasFourDecimals(x) ==> Round4AwayFromZero(x) == x
  {
    var n := NearestAwayFromZero(x * 10000.0);
    assert Round4AwayFromZero(x) * 10000.0 == n as real;
    if HasFourDecimals(x) {
      assert n as real == x * 10000.0;
    }
  }

  /** Rounding away from zero is symmetric about zero. */
  lemma Round4AwayFromZeroOdd(x: real)
    ensures Round4AwayFromZero(-x) == -Round4AwayFromZero(x)
  {
  }
}
