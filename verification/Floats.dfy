/** Rounding to 64-bit floats. */
module Floats {
  const LEAST_EXPONENT: int := -1074
  const TOP_EXPONENT: int := 971

  function TwoTo(n: nat): (r: real)
    ensures r >= 1.0
  {
    if n == 0 then 1.0 else 2.0 * TwoTo(n - 1)
  }

  function Pow2(e: int): (r: real)
    ensures r > 0.0
  {
    if e >= 0 then TwoTo(e) else 1.0 / TwoTo(-e)
  }

  /** Short of what rounds to infinity. */
  predicate Representable(x: real) {
    var limit := TwoTo(1024) - TwoTo(970);
    -limit < x < limit
  }

  /** The first exponent from `e` on at which 53 bits reach `x`: floats near `x` are its multiples of that power of two. */
  function ExponentOf(x: real, e: int): (r: int)
    requires e <= TOP_EXPONENT
    ensures e <= r <= TOP_EXPONENT
    decreases TOP_EXPONENT - e
  {
    if e == TOP_EXPONENT || x < TwoTo(53) * Pow2(e) then e else ExponentOf(x, e + 1)
  }

  /** The whole number nearest to `y`, the even one of two. */
  function RoundEven(y: real): int {
    var f := y.Floor;
    var rest := y - f as real;
    if rest < 0.5 || (rest == 0.5 && f % 2 == 0) then f else f + 1
  }

  function Spacing(x: real): (r: real)
    ensures r > 0.0
  {
    Pow2(ExponentOf(if x < 0.0 then -x else x, LEAST_EXPONENT))
  }

  /** The spacing is that of 53 bits: it could not be finer, and is not coarser than need be. */
  lemma {:induction false} FiftyThreeBits(x: real, e: int)
    requires e <= TOP_EXPONENT
    ensures var r := ExponentOf(x, e); (r < TOP_EXPONENT ==> x < TwoTo(53) * Pow2(r)) && (r > e ==> x >= TwoTo(53) * Pow2(r - 1))
    decreases TOP_EXPONENT - e
  {
    hide TwoTo, Pow2;
    if e < TOP_EXPONENT && x >= TwoTo(53) * Pow2(e) {
      FiftyThreeBits(x, e + 1);
    }
  }

  /** How many spacings a number is. */
  function Units(x: real): real {
    x / Spacing(x)
  }

  /** The 64-bit float nearest to a number in range. */
  function Nearest(x: real): real {
    RoundEven(Units(x)) as real * Spacing(x)
  }

  lemma {:induction false} UnitsOf(x: real)
    ensures Units(x) * Spacing(x) == x
  {
    hide Spacing;
  }

  lemma {:induction false} HalfOff(y: real)
    ensures -0.5 <= y - RoundEven(y) as real <= 0.5
    ensures RoundEven(y) % 2 == 1 ==> -0.5 < y - RoundEven(y) as real < 0.5
  {
  }

  lemma {:induction false} Scaled(a: real, b: real, d: real, u: real)
    requires u > 0.0 && -d <= a - b <= d
    ensures -d * u <= a * u - b * u <= d * u
    ensures -d < a - b < d ==> -d * u < a * u - b * u < d * u
  {
    assert (a - b) * u == a * u - b * u;
    assert (d - (a - b)) * u >= 0.0 && (d + (a - b)) * u >= 0.0;
    if -d < a - b < d {
      assert (d - (a - b)) * u > 0.0 && (d + (a - b)) * u > 0.0;
    }
  }

  /** The spacing is a power of two from 2^-1074 to 2^971, the one at which the number has 53 bits. */
  lemma {:induction false} SpacingExactly(x: real) returns (e: int)
    ensures -1074 <= e <= 971 && Spacing(x) == Pow2(e)
    ensures e < 971 ==> (if x < 0.0 then -x else x) < TwoTo(53) * Pow2(e)
    ensures e > -1074 ==> (if x < 0.0 then -x else x) >= TwoTo(53) * Pow2(e - 1)
  {
    hide TwoTo, Pow2, ExponentOf;
    e := ExponentOf(if x < 0.0 then -x else x, LEAST_EXPONENT);
    FiftyThreeBits(if x < 0.0 then -x else x, LEAST_EXPONENT);
  }

  /** Rounding moves a number by half a spacing at most, and from a tie to the even one. */
  lemma {:induction false} NearestIsNearest(x: real)
    ensures -0.5 * Spacing(x) <= x - Nearest(x) <= 0.5 * Spacing(x)
    ensures RoundEven(Units(x)) % 2 == 1 ==> -0.5 * Spacing(x) < x - Nearest(x) < 0.5 * Spacing(x)
  {
    hide Spacing, Units, RoundEven;
    UnitsOf(x);
    HalfOff(Units(x));
    Scaled(Units(x), RoundEven(Units(x)) as real, 0.5, Spacing(x));
  }

  lemma {:induction false} WholePower(n: nat)
    ensures TwoTo(n).Floor as real == TwoTo(n)
  {
    if n > 0 {
      WholePower(n - 1);
      assert TwoTo(n) == (2 * TwoTo(n - 1).Floor) as real;
    }
  }

  lemma {:induction false} SmallExponent(x: real, e: int)
    requires x < TwoTo(53) && e <= 0
    ensures ExponentOf(x, e) <= 0
    decreases -e
  {
    hide TwoTo;
    if e < 0 {
      SmallExponent(x, e + 1);
    } else {
      assert Pow2(0) == 1.0 by {
        One();
      }
    }
  }

  lemma {:induction false} One()
    ensures TwoTo(0) == 1.0 && Pow2(0) == 1.0
  {
  }

  /** A whole number over a fraction of 1. */
  lemma {:induction false} Inverse(x: real, i: int, t: int, tr: real, u: real)
    requires t >= 1 && tr == t as real && x == i as real && u * tr == 1.0
    ensures x / u == (i * t) as real
  {
    assert (i * t) as real == x * tr;
    assert x * tr * u == x * (u * tr);
  }

  lemma {:induction false} RoundWhole(n: int)
    ensures RoundEven(n as real) == n
  {
  }

  lemma {:induction false} Reciprocal(e: int)
    requires e <= 0
    ensures Pow2(e) * TwoTo(-e) == 1.0
  {
    One();
    hide TwoTo;
  }

  /** Whole numbers below 2^53 are floats. */
  lemma {:induction false} WholeIsFloat(i: int)
    requires -TwoTo(53) < i as real < TwoTo(53)
    ensures Nearest(i as real) == i as real
  {
    hide TwoTo, ExponentOf, Pow2, RoundEven;
    var x := i as real;
    var e := ExponentOf(if x < 0.0 then -x else x, LEAST_EXPONENT);
    SmallExponent(if x < 0.0 then -x else x, LEAST_EXPONENT);
    UnitsOf(x);
    WholePower(-e);
    Reciprocal(e);
    Inverse(x, i, TwoTo(-e).Floor, TwoTo(-e), Pow2(e));
    RoundWhole(i * TwoTo(-e).Floor);
  }
}
