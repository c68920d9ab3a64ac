/** Rounding and minimum as JavaScript's `Math.round` and `Math.min` compute them on exact
    reals. */
module Numeric {

  /** `Math.round`: the nearest integer, halves rounded towards +infinity. */
  function Round(x: real): (r: int)
    ensures x - 0.5 < r as real <= x + 0.5
  {
    (x + 0.5).Floor
  }

  predicate IsWhole(x: real) {
    x == x.Floor as real
  }

  /** Rounding never goes above a whole number that bounds the value. */
  lemma RoundBelowWhole(x: real, bound: real)
    requires IsWhole(bound) && x <= bound
    ensures Round(x) as real <= bound
  {
    var r := Round(x);
    var k := bound.Floor;
    assert r as real <= k as real + 0.5;
    assert r <= k;
  }

  /** Rounding a whole number gives it back. */
  lemma RoundWhole(x: real)
    requires IsWhole(x)
    ensures Round(x) == x.Floor
  {
  }

  function Min(x: real, y: real): (m: real)
    ensures m <= x && m <= y && (m == x || m == y)
  {
    if x <= y then x else y
  }
}
