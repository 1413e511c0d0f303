/** The IEEE limits the source compares against, as exact rationals. */
module Numeric {

  function Pow2(n: nat): (r: nat)
    ensures r >= 1
    ensures n > 0 ==> r >= 2
  {
    if n == 0 then 1 else 2 * Pow2(n - 1)
  }

  /** `std::numeric_limits<double>::min()`: the smallest positive normal double, 2^-1022. */
  function DoubleMinPositive(): (r: real)
    ensures 0.0 < r < 1.0
  {
    1.0 / (Pow2(1022) as real)
  }

  /** `std::numeric_limits<float>::min()`: the smallest positive normal float, 2^-126. */
  function FloatMinPositive(): (r: real)
    ensures 0.0 < r < 1.0
  {
    1.0 / (Pow2(126) as real)
  }

  /** `std::numeric_limits<float>::max()`: (2 - 2^-23) * 2^127. */
  const FloatMax: real := 340282346638528859811704183484516925440.0

  function Max(a: real, b: real): (r: real)
    ensures r >= a && r >= b
    ensures r == a || r == b
  {
    if a < b then b else a
  }

  function Abs(a: real): (r: real)
    ensures r >= 0.0
    ensures r == a || r == -a
  {
    if a < 0.0 then -a else a
  }
}
