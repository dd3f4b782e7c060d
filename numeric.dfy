/** Numeric conversions the C++ code performs implicitly. */
module Numeric {
  /** Conversion of a double to int, as when a double is assigned to an int
      or passed to an int parameter: truncation toward zero. */
  function Trunc(x: real): (r: int)
    ensures x >= 0.0 ==> 0 <= r && r as real <= x < r as real + 1.0
    ensures x < 0.0 ==> r <= 0 && r as real - 1.0 < x <= r as real
  {
    if x >= 0.0 then x.Floor else -((-x).Floor)
  }

  /** Truncation keeps a value between two integers that enclose it, and
      leaves an integral value unchanged. */
  lemma TruncBetween(x: real, lo: int, hi: int)
    requires lo as real <= x <= hi as real
    ensures lo <= Trunc(x) <= hi
    ensures x == x.Floor as real ==> Trunc(x) == x.Floor
  {
    if x < 0.0 {
      assert -x <= -(lo as real);
      assert (-x).Floor <= -lo;
    }
  }
}
