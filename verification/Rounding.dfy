/** Python's `round(x, d)` over the reals: to the nearest multiple of 10^-d, ties to the even one. */
module Rounding {
  function Nearest(y: real): (n: int)
    ensures n as real - 0.5 <= y <= n as real + 0.5
  {
    var f := y.Floor;
    var rest := y - f as real;
    if rest < 0.5 then f
    else if rest > 0.5 then f + 1
    else if f % 2 == 0 then f
    else f + 1
  }

  /** Halfway between two integers it is the even one. */
  lemma NearestOfHalf(n: int)
    ensures Nearest(n as real + 0.5) == if n % 2 == 0 then n else n + 1
  {}

  lemma NearestMonotone(x: real, y: real)
    requires x <= y
    ensures Nearest(x) <= Nearest(y)
  {
    var f, g := x.Floor, y.Floor;
    assert f <= g;
  }

  lemma NearestFixesIntegers(n: int)
    ensures Nearest(n as real) == n
  {}

  /** Close to an integer there is no choice. */
  lemma NearestOf(n: int, y: real)
    requires n as real - 0.5 < y < n as real + 0.5
    ensures Nearest(y) == n
  {}

  /** `round(x, 4)`. */
  function Round4(x: real): real { Nearest(10000.0 * x) as real / 10000.0 }

  /** `round(x, 6)`. */
  function Round6(x: real): real { Nearest(1000000.0 * x) as real / 1000000.0 }

  /** Rounding goes to the nearest number with so many digits. */
  lemma RoundsToDigits(x: real)
    ensures -0.00005 <= Round4(x) - x <= 0.00005 && -0.0000005 <= Round6(x) - x <= 0.0000005
    ensures OnGrid(Round4(x), 10000.0) && OnGrid(Round6(x), 1000000.0)
  {
    var n, k := Nearest(10000.0 * x), Nearest(1000000.0 * x);
    assert 10000.0 * Round4(x) == n as real && 1000000.0 * Round6(x) == k as real;
  }

  /** So many times the number is an integer. */
  predicate OnGrid(x: real, times: real) { (times * x).Floor as real == times * x }

  lemma Round4Monotone(x: real, y: real)
    requires x <= y
    ensures Round4(x) <= Round4(y)
  {
    NearestMonotone(10000.0 * x, 10000.0 * y);
  }

  lemma Round4IsIdempotent(x: real)
    ensures Round4(Round4(x)) == Round4(x)
  {
    NearestFixesIntegers(Nearest(10000.0 * x));
  }

  /** Just above a multiple of 1/10000 the rounding is that multiple. */
  lemma Round4Near(x: real, y: real)
    requires Round4(x) <= y < Round4(x) + 0.00005
    ensures Round4(y) == Round4(x)
  {
    NearestOf(Nearest(10000.0 * x), 10000.0 * y);
  }

  lemma Round4KeepsUnit(x: real)
    requires 0.0 <= x <= 1.0
    ensures 0.0 <= Round4(x) <= 1.0
  {
    NearestMonotone(0.0, 10000.0 * x);
    NearestMonotone(10000.0 * x, 10000.0);
    NearestFixesIntegers(0);
    NearestFixesIntegers(10000);
  }
}
