/**
 * Integer conversions of the C# runtime that the script relies on.
 * C# integer division and the (int)/(long) casts from fractional values
 * truncate toward zero, whereas Dafny's `/` is Euclidean; this module
 * writes the truncating form out.
 */
module IntCasts {

  /** Quotient of `a` by a positive `b`, rounded toward zero as C# does. */
  function TruncatingDiv(a: int, b: int): (q: int)
    requires b > 0
    ensures a >= 0 ==> q >= 0 && 0 <= a - q * b < b
    ensures a <= 0 ==> q <= 0 && -b < a - q * b <= 0
  {
    if a >= 0 then a / b else -((-a) / b)
  }
}
