/** The value of decimal digits given as character codes. */
module Decimals {
  import opened Powers

  predicate IsDigitCode(c: int) {
    0x30 <= c <= 0x39
  }

  predicate AllDigits(s: seq<int>) {
    forall i :: 0 <= i < |s| ==> IsDigitCode(s[i])
  }

  function DigitsValue(s: seq<int>): (v: int)
    requires AllDigits(s)
    ensures 0 <= v < Pow(10, |s|)
  {
    if s == [] then 0 else
      assert IsDigitCode(s[|s| - 1]);
      10 * DigitsValue(s[..|s| - 1]) + (s[|s| - 1] - 0x30)
  }
}
