/** `round(x, 4)` on the area, a NumPy `float64` (the count `np.sum` returns
    is a NumPy integer): NumPy scales by 10^4, rounds half to even and scales
    back. Taken on the exact value of `x`, that is the nearest multiple of
    1/10000, ties going to the even multiple. */
module Rounding {

  /** The nearest integer to `y`, a tie going to the even neighbour (the rule
      of NumPy's `round`). */
  function RoundHalfEven(y: real): (n: int)
    ensures -0.5 <= n as real - y <= 0.5
    ensures (n as real - y == 0.5 || y - n as real == 0.5) ==> n % 2 == 0
  {
    var f := y.Floor;
    var d := y - f as real;
    if d < 0.5 then f
    else if d > 0.5 then f + 1
    else if f % 2 == 0 then f
    else f + 1
  }

  /** The two properties in `RoundHalfEven`'s contract single out its result:
      no other integer has them. */
  lemma RoundHalfEvenUnique(y: real, m: int)
    requires -0.5 <= m as real - y <= 0.5
    requires (m as real - y == 0.5 || y - m as real == 0.5) ==> m % 2 == 0
    ensures m == RoundHalfEven(y)
  {
  }

  /** Rounding never reverses the order of two values. */
  lemma RoundHalfEvenMonotone(y: real, z: real)
    requires y <= z
    ensures RoundHalfEven(y) <= RoundHalfEven(z)
  {
  }

  /** Four decimal places. */
  const Scale: real := 10000.0

  /** `round(x, 4)`. */
  function Round4(x: real): (r: real)
    ensures -0.00005 <= r - x <= 0.00005
  {
    RoundHalfEven(x * Scale) as real / Scale
  }

  /** `round(x, 4)` is a whole number of ten-thousandths, keeps the order of
      its arguments and leaves 0 at 0. */
  lemma Round4Spec(x: real, z: real)
    ensures (Round4(x) * Scale).Floor as real == Round4(x) * Scale
    ensures x <= z ==> Round4(x) <= Round4(z)
    ensures Round4(0.0) == 0.0
  {
    if x <= z {
      RoundHalfEvenMonotone(x * Scale, z * Scale);
    }
    RoundHalfEvenUnique(0.0, 0);
  }
}
