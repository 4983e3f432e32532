/**
  Rounding of exact rationals, as the rescaler uses it.

  The source computes with binary floating point; this model computes with
  Dafny's `real` (exact rationals), so representation error is not modelled.
  Two roundings occur:
  - Python's `int(x)` on a float truncates toward zero (`Trunc`);
  - numpy's `round_(x, 0)` rounds to the nearest integer, ties to even
    (`RoundHalfEven`).
 */
module Numeric {

  /** `n` is the integer nearest to `x`; on a tie (`x` exactly halfway between
      two integers) it is the even one. */
  ghost predicate IsNearestEven(x: real, n: int) {
    && -0.5 <= n as real - x <= 0.5
    && (n as real - x == 0.5 || n as real - x == -0.5 ==> n % 2 == 0)
  }

  /** Truncation toward zero: the integer part of `x`, as Python's `int()`. */
  function Trunc(x: real): (r: int)
    ensures 0.0 <= x ==> 0 <= r && r as real <= x < r as real + 1.0
    ensures x < 0.0 ==> r <= 0 && r as real - 1.0 < x <= r as real
  {
    if x >= 0.0 then x.Floor else -((-x).Floor)
  }

  /** Round half to even, as numpy's `round_` with zero decimals. */
  function RoundHalfEven(x: real): (r: int)
    ensures IsNearestEven(x, r)
  {
    var f := x.Floor;
    var d := x - f as real;
    if d < 0.5 then f
    else if d > 0.5 then f + 1
    else if f % 2 == 0 then f
    else f + 1
  }

  /** At most one integer is the nearest-even rounding of `x`, so
      `IsNearestEven` is a complete specification of `RoundHalfEven`. */
  lemma NearestEvenUnique(x: real, m: int, n: int)
    requires IsNearestEven(x, m) && IsNearestEven(x, n)
    ensures m == n
  {
  }

  /** Any integer that meets the specification is what `RoundHalfEven` returns. */
  lemma RoundHalfEvenIsNearestEven(x: real, n: int)
    requires IsNearestEven(x, n)
    ensures RoundHalfEven(x) == n
  {
    NearestEvenUnique(x, RoundHalfEven(x), n);
  }

  /** Rounding leaves integers where they are. */
  lemma RoundOfInteger(n: int)
    ensures RoundHalfEven(n as real) == n
  {
    RoundHalfEvenIsNearestEven(n as real, n);
  }

  /** Rounding is monotone. */
  lemma RoundMonotone(x: real, y: real)
    requires x <= y
    ensures RoundHalfEven(x) <= RoundHalfEven(y)
  {
  }

  /** Truncation toward zero is monotone. */
  lemma TruncMonotone(x: real, y: real)
    requires x <= y
    ensures Trunc(x) <= Trunc(y)
  {
  }
}
