/** Integer and real helpers that stand for the C and C++ library calls the
    source uses: `std::round`, integer division, `std::min` and `std::max`. */
module Numeric {

  function Min(a: int, b: int): int { if a <= b then a else b }

  function Max(a: int, b: int): int { if a <= b then b else a }

  function MinReal(a: real, b: real): real { if a <= b then a else b }

  function Abs(x: real): real { if x < 0.0 then -x else x }

  /** `std::round`: the nearest integer, halfway cases rounded away from zero. */
  function Round(x: real): (n: int)
    ensures x - 0.5 <= n as real <= x + 0.5
    ensures n as real - x == 0.5 ==> x > 0.0
    ensures x - n as real == 0.5 ==> x < 0.0
  {
    if x >= 0.0 then (x + 0.5).Floor else -((-x + 0.5).Floor)
  }

  /** No integer is strictly closer to `x` than `Round(x)`. */
  lemma RoundIsNearest(x: real, m: int)
    ensures Abs(x - Round(x) as real) <= Abs(x - m as real)
  {
    var n := Round(x);
    if m < n {
      assert m as real <= n as real - 1.0;
    } else if m > n {
      assert m as real >= n as real + 1.0;
    }
  }

  /** Rounding commutes with negation, so halfway cases go away from zero
      on both sides. */
  lemma RoundIsOdd(x: real)
    ensures Round(-x) == -Round(x)
  {
    if x > 0.0 {
      assert -x < 0.0;
    } else if x < 0.0 {
      assert -(-x) == x;
    }
  }

  /** Rounding leaves integers unchanged. */
  lemma RoundOfInt(k: int)
    ensures Round(k as real) == k
  {
  }

  /** C++ `/` on `int`: the quotient truncated toward zero. */
  function TruncDiv(a: int, b: int): (q: int)
    requires b > 0
    ensures 0 <= a ==> 0 <= q * b <= a < q * b + b
    ensures a <= 0 ==> q * b - b < a <= q * b <= 0
  {
    if a >= 0 then a / b else -((-a) / b)
  }
}
