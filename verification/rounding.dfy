/** Exact rationals and the round-half-to-even rule that numpy's `round`
    applies to the target number of equal adjacent pairs. */
module Rounding {

  type Pos = x: int | x > 0 witness 1

  /** A rational number `num / den`; the denominator is always positive. */
  datatype Ratio = Ratio(num: int, den: Pos)

  function Abs(x: int): nat {
    if x < 0 then -x else x
  }

  function Min(a: int, b: int): int {
    if a <= b then a else b
  }

  predicate InUnitInterval(p: Ratio) {
    0 <= p.num <= p.den
  }

  /** `q / b` rounded to the nearest integer, ties going to the even neighbour.
      The result is within half a unit of `q / b`, and on a tie it is even. */
  function RoundHalfEven(q: int, b: Pos): (r: int)
    ensures 2 * Abs(q - r * b) <= b
    ensures 2 * Abs(q - r * b) == b ==> r % 2 == 0
  {
    var f := q / b;
    var rem := q % b;
    assert q == f * b + rem;
    if 2 * rem < b then f
    else if 2 * rem > b then f + 1
    else if f % 2 == 0 then f
    else f + 1
  }

  /** `b * |d| >= b` for every non-zero integer multiplier `d`. */
  lemma MultipleAtLeastUnit(d: int, b: Pos)
    requires d != 0
    ensures Abs(d * b) >= b
  {
    if d > 0 {
      assert d * b == (d - 1) * b + b;
      assert (d - 1) * b >= 0;
    } else {
      assert d * b == (d + 1) * b - b;
      assert (d + 1) * b <= 0;
    }
  }

  /** Two different multiples of `b` are at least `b` apart, so their
      distances to any `q` add up to at least `b`. */
  lemma MultiplesApart(q: int, b: Pos, r: int, e: int)
    requires e != r
    ensures Abs(q - r * b) + Abs(q - e * b) >= b
  {
    MultipleAtLeastUnit(e - r, b);
    assert (q - r * b) - (q - e * b) == (e - r) * b;
  }

  /** No integer multiple of `b` is closer to `q` than the rounded one. */
  lemma RoundIsNearest(q: int, b: Pos, e: int)
    ensures Abs(q - RoundHalfEven(q, b) * b) <= Abs(q - e * b)
  {
    var r := RoundHalfEven(q, b);
    if e != r {
      MultiplesApart(q, b, r, e);
    }
  }

  /** Away from a tie, the rounded multiple is the only nearest one. */
  lemma RoundIsUniqueNearest(q: int, b: Pos, e: int)
    requires 2 * Abs(q - RoundHalfEven(q, b) * b) != b
    requires Abs(q - e * b) <= Abs(q - RoundHalfEven(q, b) * b)
    ensures e == RoundHalfEven(q, b)
  {
    var r := RoundHalfEven(q, b);
    if e != r {
      MultiplesApart(q, b, r, e);
      assert false;
    }
  }

  /** An exact multiple rounds to itself. */
  lemma RoundExact(k: int, b: Pos)
    ensures RoundHalfEven(k * b, b) == k
  {
    var r := RoundHalfEven(k * b, b);
    if r != k {
      MultiplesApart(k * b, b, r, k);
      assert false;
    }
  }

  /** An integer within half a unit of `q / b` lies between any integer
      bounds of `q / b`. */
  lemma NearBetween(q: int, b: Pos, r: int, lo: int, hi: int)
    requires 2 * Abs(q - r * b) <= b
    requires lo * b <= q <= hi * b
    ensures lo <= r <= hi
  {
    if r < lo {
      assert q - r * b == (q - lo * b) + (lo - r) * b;
      MultipleAtLeastUnit(lo - r, b);
      assert false;
    }
    if r > hi {
      assert r * b - q == (hi * b - q) + (r - hi) * b;
      MultipleAtLeastUnit(r - hi, b);
      assert false;
    }
  }

  /** Rounding `q / b` lands between any integer bounds of `q / b`. */
  lemma RoundBetween(q: int, b: Pos, lo: int, hi: int)
    requires lo * b <= q <= hi * b
    ensures lo <= RoundHalfEven(q, b) <= hi
  {
    NearBetween(q, b, RoundHalfEven(q, b), lo, hi);
  }
}
