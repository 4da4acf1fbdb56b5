/** Tolerant comparison of reals (ql/math/comparison.hpp). */
module Comparison {

  // 42 times the machine epsilon of an IEEE double, 2^-52.
  const TOLERANCE: real := 42.0 / 4503599627370496.0

  function Abs(x: real): real {
    if x < 0.0 then -x else x
  }

  predicate Close(x: real, y: real) {
    x == y ||
    var diff := Abs(x - y);
    if x == 0.0 || y == 0.0 then
      diff < TOLERANCE * TOLERANCE
    else
      diff <= TOLERANCE * Abs(x) && diff <= TOLERANCE * Abs(y)
  }

  predicate CloseEnough(x: real, y: real) {
    x == y ||
    var diff := Abs(x - y);
    if x == 0.0 || y == 0.0 then
      diff < TOLERANCE * TOLERANCE
    else
      diff <= TOLERANCE * Abs(x) || diff <= TOLERANCE * Abs(y)
  }

  lemma Symmetric(x: real, y: real)
    ensures Close(x, y) == Close(y, x)
    ensures CloseEnough(x, y) == CloseEnough(y, x)
  {
    assert Abs(x - y) == Abs(y - x);
  }

  /** The relation that the documentation of `close` gives. */
  predicate DocumentedClose(x: real, y: real) {
    Abs(x - y) <= TOLERANCE * Abs(x) && Abs(x - y) <= TOLERANCE * Abs(y)
  }

  /** The relation that the documentation of `close_enough` gives. */
  predicate DocumentedCloseEnough(x: real, y: real) {
    Abs(x - y) <= TOLERANCE * Abs(x) || Abs(x - y) <= TOLERANCE * Abs(y)
  }

  /** The code agrees with both, but for zero and the numbers next to it. */
  lemma ClosenessAsDocumented(x: real, y: real)
    ensures var nextToZero := x != y && (x == 0.0 || y == 0.0) && Abs(x - y) < TOLERANCE * TOLERANCE;
      && ((Close(x, y) <==> DocumentedClose(x, y)) <==> !nextToZero)
      && ((CloseEnough(x, y) <==> DocumentedCloseEnough(x, y)) <==> !nextToZero)
  {
  }

  /** Times within a century that are a day apart are not taken for each other. */
  lemma DaysApart(x: real, y: real)
    requires 0.0 <= x <= 100.0 && 0.0 <= y <= 100.0 && Abs(x - y) >= 1.0 / 366.0
    ensures !CloseEnough(x, y) && !Close(x, y)
  {
    assert TOLERANCE * Abs(x) <= TOLERANCE * 100.0 && TOLERANCE * Abs(y) <= TOLERANCE * 100.0;
  }

  lemma CloseIsCloseEnough(x: real, y: real)
    requires Close(x, y)
    ensures CloseEnough(x, y)
  {
  }

  /** On non-negative reals, whatever lies between a point and one close to it is close to the lower point. */
  lemma CloseBelow(x: real, y: real, z: real)
    requires 0.0 <= x <= y <= z
    requires CloseEnough(x, z)
    ensures CloseEnough(x, y)
  {
    if x > 0.0 {
      assert z - x <= TOLERANCE * z;
      assert (1.0 - TOLERANCE) * y <= (1.0 - TOLERANCE) * z;
    }
  }

  /** A point no farther from `t` than a lower point that is close to `t` is itself close to `t`. */
  lemma NearerIsCloseEnough(t: real, r: real, q: real)
    requires 0.0 < r <= t && 0.0 <= q
    requires CloseEnough(r, t)
    requires Abs(t - q) <= Abs(t - r)
    ensures CloseEnough(t, q)
  {
    assert Abs(t - r) <= TOLERANCE * t;
    assert TOLERANCE * t < t;
  }
}
