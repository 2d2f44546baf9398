/** The fallback rint of my_global.h, over the real values that a double can hold. */
module Rint {
  const MAX_EXACT_INTEGER: int := 0x1F_FFFF_FFFF_FFFF

  /** modf: the part of x before the point, cut off towards zero. */
  function Trunc(x: real): int {
    if x >= 0.0 then x.Floor else -(-x).Floor
  }

  /** All that the code needs of doubles: beyond MAX_EXACT_INTEGER there is no fraction. */
  predicate Exact(x: real) {
    !(-MAX_EXACT_INTEGER <= Trunc(x) <= MAX_EXACT_INTEGER) ==> x == Trunc(x) as real
  }

  /** Every value with a fraction that a double can hold is below 2^53 and included. */
  lemma ExactBelowLimit(x: real)
    ensures -9007199254740992.0 < x < 9007199254740992.0 ==> Exact(x)
    ensures Exact(x) && !(-9007199254740992.0 < x < 9007199254740992.0) ==> x == x.Floor as real
  {
  }

  type Double = x: real | Exact(x)

  /** n is within 1/2 of x, and even when two integers are (roundTiesToEven). */
  predicate IsNearest(x: real, n: int) {
    -0.5 <= x - n as real <= 0.5 && (x - n as real == 0.5 || x - n as real == -0.5 ==> n % 2 == 0)
  }

  /** The integer that roundTiesToEven gives. */
  function Nearest(x: real): (n: int)
    ensures IsNearest(x, n)
  {
    var n := (x + 0.5).Floor;
    if n as real == x + 0.5 && n % 2 != 0 then n - 1 else n
  }

  lemma NearestIsUnique(x: real, n: int)
    ensures IsNearest(x, n) <==> n == Nearest(x)
  {
  }

  lemma TruncIsTowardsZero(x: real)
    ensures x >= 0.0 ==> 0.0 <= x - Trunc(x) as real < 1.0
    ensures x <= 0.0 ==> -1.0 < x - Trunc(x) as real <= 0.0
  {
  }

  /** The fraction decides: to the nearer integer, and away from an odd one on a tie. */
  lemma RoundsAway(x: real, t: int, f: real)
    requires f == x - t as real
    ensures 0.5 < f < 1.0 || (f == 0.5 && t % 2 != 0) ==> IsNearest(x, t + 1)
    ensures -1.0 < f < -0.5 || (f == -0.5 && t % 2 != 0) ==> IsNearest(x, t - 1)
    ensures -0.5 < f < 0.5 || ((f == 0.5 || f == -0.5) && t % 2 == 0) ==> IsNearest(x, t)
  {
  }

  method Rint(x: Double) returns (i: real)
    ensures i == Nearest(x) as real
  {
    i := Trunc(x) as real;
    var f := x - i;
    var odd := i.Floor % 2 != 0;
    TruncIsTowardsZero(x);
    ghost var t := Trunc(x);
    RoundsAway(x, t, f);
    NearestIsUnique(x, t - 1);
    NearestIsUnique(x, t);
    NearestIsUnique(x, t + 1);
    assert Exact(x);
    assert f != 0.0 ==> -MAX_EXACT_INTEGER <= t <= MAX_EXACT_INTEGER;
    if x > 0.0 {
      i := i + if f > 0.5 || (f == 0.5 && i <= MAX_EXACT_INTEGER as real && odd) then 1.0 else 0.0;
    } else {
      i := i - if f < -0.5 || (f == -0.5 && i >= -MAX_EXACT_INTEGER as real && odd) then 1.0 else 0.0;
    }
    assert i == t as real || i == (t + 1) as real || i == (t - 1) as real;
  }

  lemma NearestIsOdd(x: real)
    ensures Nearest(-x) == -Nearest(x)
  {
  }

  lemma NearestIsIdempotent(x: real)
    ensures Nearest(Nearest(x) as real) == Nearest(x)
  {
  }

  lemma NearestIsMonotone(x: real, y: real)
    requires x <= y
    ensures Nearest(x) <= Nearest(y)
  {
  }
}
