/** `round_to` with six decimal places: to the nearest, ties to even. */
module Rounding {

  function RoundTiesEven(x: real): (n: int)
    ensures -0.5 <= n as real - x <= 0.5
    ensures (n as real - x == 0.5 || n as real - x == -0.5) ==> n % 2 == 0
  {
    var f := x.Floor;
    var d := x - f as real;
    if d < 0.5 || (d == 0.5 && f % 2 == 0) then f else f + 1
  }

  function Round(value: real): real {
    RoundTiesEven(value * 1000000.0) as real / 1000000.0
  }

  /** A whole number of millionths, at most half a millionth away, and the even one of
      two that are equally near. */
  ghost predicate IsRounded(value: real, rounded: real) {
    exists n: int :: IsMillionths(rounded, n) && -0.0000005 <= rounded - value <= 0.0000005
      && (rounded - value == 0.0000005 || rounded - value == -0.0000005 ==> n % 2 == 0)
  }

  ghost predicate IsMillionths(rounded: real, n: int) {
    rounded * 1000000.0 == n as real
  }

  lemma RoundIsRounded(value: real)
    ensures IsRounded(value, Round(value))
  {
    assert IsMillionths(Round(value), RoundTiesEven(value * 1000000.0));
  }
}
