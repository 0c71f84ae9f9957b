/** Money arithmetic of the adjustment formula.

    Amounts are integer cents. The caller-supplied adjustment value is an
    exact decimal `digits / 10^scale`, so a fixed-mode value with more than two
    decimals still meets the final two-decimal rounding. `toFixed(2)` is
    modelled as rounding the exact value to the nearest cent, ties away from
    zero; the binary-double representation of the source is not modelled. */
module Money {

  /** An exact decimal number `digits / 10^scale`. */
  datatype Decimal = Decimal(digits: int, scale: nat)

  function Pow10(n: nat): (r: int)
    ensures r >= 1
  {
    if n == 0 then 1 else 10 * Pow10(n - 1)
  }

  /** `r` is `x / d` rounded to the nearest integer, ties away from zero. */
  predicate IsRoundHalfAway(x: int, d: int, r: int)
    requires d > 0
  {
    && -d <= 2 * (x - r * d) <= d
    && (2 * (x - r * d) == d ==> x < 0)
    && (2 * (x - r * d) == -d ==> x > 0)
  }

  /** `x / d` rounded half away from zero. */
  function RoundHalfAway(x: int, d: int): (r: int)
    requires d > 0
    ensures IsRoundHalfAway(x, d, r)
  {
    if x >= 0 then
      var q := (2 * x + d) / (2 * d);
      assert 2 * x + d == q * (2 * d) + (2 * x + d) % (2 * d);
      q
    else
      var q := (-2 * x + d) / (2 * d);
      assert -2 * x + d == q * (2 * d) + (-2 * x + d) % (2 * d);
      -q
  }

  /** A multiple of `d` strictly between `-2d` and `2d` is `-d`, `0` or `d`. */
  lemma SmallMultiple(k: int, d: int)
    requires d > 0 && -2 * d < k * d < 2 * d
    ensures -1 <= k <= 1
  {
  }

  lemma MultipleAtLeast(k: int, d: int)
    requires k >= 1 && d > 0
    ensures k * d >= d
  {
  }

  /** There is only one nearest integer with ties away from zero. */
  lemma RoundHalfAwayUnique(x: int, d: int, r: int)
    requires d > 0
    requires IsRoundHalfAway(x, d, r)
    ensures r == RoundHalfAway(x, d)
  {
    var r' := RoundHalfAway(x, d);
    var a, b := x - r * d, x - r' * d;
    assert (r' - r) * d == a - b;
    SmallMultiple(r' - r, d);
  }

  /** A whole number of units is not moved by rounding. */
  lemma RoundHalfAwayExact(k: int, d: int)
    requires d > 0
    ensures RoundHalfAway(k * d, d) == k
  {
    RoundHalfAwayUnique(k * d, d, k);
  }

  /** Rounding is monotone. */
  lemma RoundHalfAwayMonotone(x: int, y: int, d: int)
    requires d > 0 && x <= y
    ensures RoundHalfAway(x, d) <= RoundHalfAway(y, d)
  {
    var rx, ry := RoundHalfAway(x, d), RoundHalfAway(y, d);
    if rx > ry {
      MultipleAtLeast(rx - ry, d);
    }
  }
}
