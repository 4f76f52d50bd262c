/** The parts of Java's `int` arithmetic the library relies on. */
module JavaInt {

  const INT_MIN: int := -0x8000_0000
  const INT_MAX: int := 0x7fff_ffff

  /** Java's 32-bit `int`. */
  newtype int32 = x: int | -0x8000_0000 <= x < 0x8000_0000

  /** Java's `a / 2`: the quotient is truncated toward zero, so for a negative
      odd `a` it is one more than Dafny's (Euclidean) `a / 2`. */
  function Half(a: int): (q: int)
    ensures a >= 0 ==> 2 * q <= a < 2 * q + 2
    ensures a < 0 ==> 2 * q - 2 < a <= 2 * q
  {
    if a >= 0 then a / 2 else -((-a) / 2)
  }

  /** The two divisions part ways on every negative odd number. */
  lemma {:induction false} HalfDiffersFromEuclidean(a: int)
    requires a < 0 && a % 2 == 1
    ensures Half(a) == a / 2 + 1
  {
    assert a == 2 * (a / 2) + 1;
    assert -a == 2 * (-(a / 2) - 1) + 1;
    assert (-a) / 2 == -(a / 2) - 1;
  }

  /** Java's `(int) d` for a finite double: truncation toward zero, saturating
      at the ends of the `int` range. */
  function DoubleToInt(d: real): (r: int)
    ensures INT_MIN <= r <= INT_MAX
    ensures 0.0 <= d < INT_MAX as real + 1.0 ==> r as real <= d < r as real + 1.0
    ensures d >= INT_MAX as real + 1.0 ==> r == INT_MAX
    ensures INT_MIN as real - 1.0 < d <= 0.0 ==> r as real - 1.0 < d <= r as real
    ensures d <= INT_MIN as real - 1.0 ==> r == INT_MIN
  {
    if d >= 0.0 then
      (if d.Floor > INT_MAX then INT_MAX else d.Floor)
    else
      (if -((-d).Floor) < INT_MIN then INT_MIN else -((-d).Floor))
  }
}
