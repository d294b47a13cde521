/** The constrained search for the reference-flag stream
    (`create_ref_stream` in exp.py). The random draws are inputs: one initial
    draw and a supply of candidate draws, consumed in order. Rates are
    compared exactly: every rate of a draw of length `m` is a count of equal
    adjacent pairs over `m - 1`, so distances to the target become integers
    once scaled by `p.den * (m - 1)`. */
module RefStream {
  import opened Wrappers
  import opened Rounding

  /** Length of every random draw in exp.py, whatever `n_trials` is. */
  const SourceDrawLength: nat := 60
  /** Number of candidate draws exp.py examines, whatever `n_rep` is. */
  const SourceRepetitions: nat := 10000

  /** Number of positions `i` with `s[i] == s[i + 1]`. */
  function EqualPairs(s: seq<bool>): (c: nat)
    ensures |s| > 0 ==> c <= |s| - 1
  {
    if |s| < 2 then 0
    else (if s[0] == s[1] then 1 else 0) + EqualPairs(s[1..])
  }

  /** The observed proportion of equal adjacent pairs (`.mean()` of the
      pairwise comparison), as an exact real. */
  function Rate(s: seq<bool>): real
    requires |s| >= 2
  {
    EqualPairs(s) as real / (|s| - 1) as real
  }

  function RealAbs(x: real): real {
    if x < 0.0 then -x else x
  }

  function AsReal(p: Ratio): real {
    p.num as real / p.den as real
  }

  /** `|p - Rate(s)|` scaled by `p.den * (|s| - 1)`. */
  function Distance(p: Ratio, s: seq<bool>): nat {
    Abs(p.num * (|s| - 1) - EqualPairs(s) * p.den)
  }

  /** What the search aims at: the wanted proportion `p`, the trial count
      `n` the stopping target is computed for, and that target's number of
      equal pairs `round(p * (n - 1))`. */
  datatype Goal = Goal(p: Ratio, n: int, pairs: int)

  /** numpy's `round(p * (n - 1))`: half-way cases go to the even integer. */
  function TargetPairs(n: int, p: Ratio): int {
    RoundHalfEven(p.num * (n - 1), p.den)
  }

  function MakeGoal(n: int, p: Ratio): Goal {
    Goal(p, n, TargetPairs(n, p))
  }

  /** `closest_possible`, the best proportion `n - 1` pairs can achieve. */
  function ClosestPossible(n: int, p: Ratio): (c: Ratio)
    requires n >= 2
    ensures c.den == n - 1
    ensures InUnitInterval(p) ==> InUnitInterval(c)
  {
    assert InUnitInterval(p) ==> 0 <= TargetPairs(n, p) <= n - 1 by {
      if InUnitInterval(p) {
        TargetPairsInRange(n, p);
      }
    }
    Ratio(TargetPairs(n, p), n - 1)
  }

  /** For `p` in [0, 1], `0 <= p * (n - 1) <= n - 1`, and rounding keeps it
      there. */
  lemma TargetPairsInRange(n: int, p: Ratio)
    requires n >= 2 && InUnitInterval(p)
    ensures 0 <= TargetPairs(n, p) <= n - 1
  {
    var m := n - 1;
    assert 0 <= p.num * m;
    assert p.num * m <= m * p.den by {
      assert m * p.den - p.num * m == (p.den - p.num) * m;
    }
    RoundBetween(p.num * m, p.den, 0, m);
  }

  /** `current_prop == closest_possible`, cross-multiplied: the draw's
      proportion equals `pairs / (n - 1)`. */
  predicate Hits(g: Goal, s: seq<bool>) {
    EqualPairs(s) * (g.n - 1) == g.pairs * (|s| - 1)
  }

  /** A candidate draw with its first flag forced to a reference. */
  function Forced(s: seq<bool>): (r: seq<bool>)
    ensures |r| == |s|
    ensures |s| > 0 ==> r[0]
    ensures forall i :: 0 < i < |s| ==> r[i] == s[i]
  {
    if |s| == 0 then s else [true] + s[1..]
  }

  /** The result of a search: the returned stream, how many candidates were
      drawn, where the stream came from (0 for the initial draw, `j + 1` for
      candidate `j`) and whether the search stopped on hitting the target. */
  datatype Search = Search(stream: seq<bool>, examined: nat, origin: nat, early: bool)

  /** The search loop over the supplied candidates. A forced candidate
      replaces the incumbent only when strictly closer to `p`; the loop stops
      as soon as an accepted candidate's proportion is the target.
      The result is the incumbent or an accepted candidate, never farther
      from `p` than the incumbent; `FoldBeatsEarlier` and
      `FoldNoCloserExamined` show it is the earliest closest stream among
      the incumbent and the examined candidates. */
  function Fold(g: Goal, inc: seq<bool>, cands: seq<seq<bool>>): (r: Search)
    ensures r.examined <= |cands|
    ensures r.early || r.examined == |cands|
    ensures r.early ==> 0 < r.examined && r.origin == r.examined
    ensures r.early <==> r.origin > 0 && Hits(g, r.stream)
    ensures r.origin <= r.examined
    ensures r.origin == 0 ==> r.stream == inc
    ensures r.origin > 0 ==> r.stream == Forced(cands[r.origin - 1])
    ensures r.origin > 0 ==> Distance(g.p, r.stream) < Distance(g.p, inc)
    ensures Distance(g.p, r.stream) <= Distance(g.p, inc)
    decreases |cands|
  {
    if |cands| == 0 then Search(inc, 0, 0, false)
    else
      var c := Forced(cands[0]);
      var rest := cands[1..];
      if Distance(g.p, c) < Distance(g.p, inc) then
        if Hits(g, c) then Search(c, 1, 1, true)
        else
          var o := Fold(g, c, rest);
          Search(o.stream, o.examined + 1, o.origin + 1, o.early)
      else
        var o := Fold(g, inc, rest);
        Search(o.stream, o.examined + 1, if o.origin == 0 then 0 else o.origin + 1, o.early)
  }

  /** The incumbent after looking at a forced candidate `c`: `c` when it is
      strictly closer to `p`, the old incumbent otherwise. */
  function Keep(g: Goal, inc: seq<bool>, c: seq<bool>): (k: seq<bool>)
    ensures Distance(g.p, k) <= Distance(g.p, inc) && Distance(g.p, k) <= Distance(g.p, c)
  {
    if Distance(g.p, c) < Distance(g.p, inc) then c else inc
  }

  /** Unless the first candidate ends the search, the search continues from
      the kept incumbent over the remaining candidates. */
  lemma FoldContinues(g: Goal, inc: seq<bool>, cands: seq<seq<bool>>)
    requires |cands| > 0
    requires !(Distance(g.p, Forced(cands[0])) < Distance(g.p, inc) && Hits(g, Forced(cands[0])))
    ensures Fold(g, inc, cands).stream == Fold(g, Keep(g, inc, Forced(cands[0])), cands[1..]).stream
    ensures Fold(g, inc, cands).examined == Fold(g, Keep(g, inc, Forced(cands[0])), cands[1..]).examined + 1
    ensures Fold(g, inc, cands).origin > 1 ==> Fold(g, inc, cands).origin == Fold(g, Keep(g, inc, Forced(cands[0])), cands[1..]).origin + 1
    ensures Fold(g, inc, cands).origin > 1 ==> Fold(g, Keep(g, inc, Forced(cands[0])), cands[1..]).origin > 0
  {
  }

  /** The result is strictly closer to `p` than every candidate examined
      before the one it came from. */
  lemma {:induction false} FoldBeatsEarlier(g: Goal, inc: seq<bool>, cands: seq<seq<bool>>, j: nat)
    requires j + 1 < Fold(g, inc, cands).origin
    ensures Distance(g.p, Fold(g, inc, cands).stream) < Distance(g.p, Forced(cands[j]))
    decreases |cands|
  {
    var c := Forced(cands[0]);
    var rest := cands[1..];
    var next := Keep(g, inc, c);
    FoldContinues(g, inc, cands);
    if j > 0 {
      FoldBeatsEarlier(g, next, rest, j - 1);
      assert rest[j - 1] == cands[j];
    }
  }

  /** The result is no farther from `p` than any examined candidate. */
  lemma {:induction false} FoldNoCloserExamined(g: Goal, inc: seq<bool>, cands: seq<seq<bool>>, j: nat)
    requires j < Fold(g, inc, cands).examined
    ensures Distance(g.p, Fold(g, inc, cands).stream) <= Distance(g.p, Forced(cands[j]))
    decreases |cands|
  {
    var c := Forced(cands[0]);
    var rest := cands[1..];
    var next := Keep(g, inc, c);
    if Distance(g.p, c) < Distance(g.p, inc) && Hits(g, c) {
      assert Fold(g, inc, cands) == Search(c, 1, 1, true);
    } else {
      FoldContinues(g, inc, cands);
      var o := Fold(g, next, rest);
      assert Distance(g.p, o.stream) <= Distance(g.p, next);
      if j > 0 {
        FoldNoCloserExamined(g, next, rest, j - 1);
        assert rest[j - 1] == cands[j];
      }
    }
  }

  predicate AllOfLength(draws: seq<seq<bool>>, m: int) {
    forall j :: 0 <= j < |draws| ==> |draws[j]| == m
  }

  /** `create_ref_stream` as exp.py writes it: the draws have 60 flags and
      at most 10000 candidates are drawn, both regardless of `n` and `nRep`;
      the initial draw is returned unforced when no candidate beats it; and
      `n == 1` divides by zero. */
  function CreateRefStreamAsWritten(n: int, p: Ratio, nRep: nat, initial: seq<bool>, cands: seq<seq<bool>>)
    : (r: Result<Search, Error>)
    requires |initial| == SourceDrawLength && AllOfLength(cands, SourceDrawLength)
    ensures r.Err? <==> n == 1
    ensures r.Err? ==> r.error == ZeroPairs
    ensures r.Ok? ==> |r.value.stream| == SourceDrawLength
    ensures r.Ok? ==> r.value.examined <= SourceRepetitions
    ensures r.Ok? && r.value.origin == 0 ==> r.value.stream == initial
    ensures r.Ok? && r.value.origin > 0 ==> r.value.stream[0]
  {
    if n == 1 then Err(ZeroPairs)
    else Ok(Fold(MakeGoal(n, p), initial, cands[..Min(SourceRepetitions, |cands|)]))
  }

  /** `create_ref_stream` with the parameters honoured: draws of `n` flags,
      at most `nRep` candidates, the initial draw forced to start with a
      reference like every candidate, and the configuration checked first
      (at least two trials, `p` in [0, 1], a positive budget). The returned
      stream always has `n` flags and starts with a reference. */
  function CreateRefStream(n: nat, p: Ratio, nRep: nat, initial: seq<bool>, cands: seq<seq<bool>>)
    : (r: Result<Search, Error>)
    requires |initial| == n && AllOfLength(cands, n)
    ensures r.Err? <==> n < 2 || !InUnitInterval(p) || nRep == 0
    ensures n < 2 ==> r == Err(TrialCountTooSmall)
    ensures n >= 2 && !InUnitInterval(p) ==> r == Err(ProportionOutOfRange)
    ensures n >= 2 && InUnitInterval(p) && nRep == 0 ==> r == Err(RepetitionsNotPositive)
    ensures r.Ok? ==> |r.value.stream| == n && r.value.stream[0]
    ensures r.Ok? ==> 0 < r.value.examined <= nRep || (r.value.examined == |cands| == 0)
  {
    if n < 2 then Err(TrialCountTooSmall)
    else if !InUnitInterval(p) then Err(ProportionOutOfRange)
    else if nRep == 0 then Err(RepetitionsNotPositive)
    else Ok(Fold(MakeGoal(n, p), Forced(initial), cands[..Min(nRep, |cands|)]))
  }

  // ---------------------------------------------------------------------------
  // Counting equal pairs

  function Constant(len: nat, b: bool): (s: seq<bool>)
    ensures |s| == len
  {
    seq(len, _ => b)
  }

  /** `b, !b, b, !b, ...` */
  function Alternating(len: nat, b: bool): (s: seq<bool>)
    ensures |s| == len
  {
    seq(len, i => if i % 2 == 0 then b else !b)
  }

  /** Joining two non-empty streams adds the pair across the seam. */
  lemma {:induction false} EqualPairsAppend(a: seq<bool>, b: seq<bool>)
    requires |a| > 0 && |b| > 0
    ensures EqualPairs(a + b) == EqualPairs(a) + EqualPairs(b) + (if a[|a| - 1] == b[0] then 1 else 0)
  {
    if |a| == 1 {
      assert (a + b)[1..] == b;
    } else {
      assert (a + b)[1..] == a[1..] + b;
      EqualPairsAppend(a[1..], b);
    }
  }

  /** Every pair of a constant stream is equal. */
  lemma {:induction false} EqualPairsConstant(len: nat, b: bool)
    requires len > 0
    ensures EqualPairs(Constant(len, b)) == len - 1
  {
    if len > 1 {
      assert Constant(len, b)[1..] == Constant(len - 1, b);
      EqualPairsConstant(len - 1, b);
    }
  }

  /** No pair of an alternating stream is equal. */
  lemma {:induction false} EqualPairsAlternating(len: nat, b: bool)
    ensures EqualPairs(Alternating(len, b)) == 0
  {
    if len > 1 {
      assert Alternating(len, b)[1..] == Alternating(len - 1, !b);
      EqualPairsAlternating(len - 1, !b);
    }
  }

  /** A stream of `n` flags, starting with a reference, with exactly `e` equal
      adjacent pairs. */
  function WithEqualPairs(n: nat, e: nat): (s: seq<bool>)
    requires e < n
    ensures |s| == n && s[0]
    ensures EqualPairs(s) == e
  {
    EqualPairsConstant(e + 1, true);
    if e + 1 == n then Constant(n, true)
    else
      EqualPairsAlternating(n - e - 1, false);
      EqualPairsAppend(Constant(e + 1, true), Alternating(n - e - 1, false));
      Constant(e + 1, true) + Alternating(n - e - 1, false)
  }

  // ---------------------------------------------------------------------------
  // The stopping target

  /** For draws of `n` flags, hitting the target means having exactly
      `round(p * (n - 1))` equal pairs. */
  lemma HitsIffTargetPairs(n: int, p: Ratio, s: seq<bool>)
    requires n >= 2 && |s| == n
    ensures Hits(MakeGoal(n, p), s) <==> EqualPairs(s) == TargetPairs(n, p)
  {
    var e := EqualPairs(s);
    var k := TargetPairs(n, p);
    if e != k {
      MultipleAtLeastUnit(e - k, n - 1);
      assert e * (n - 1) - k * (n - 1) == (e - k) * (n - 1);
    }
  }

  /** `closest_possible` is the nearest proportion that `n - 1` pairs can
      express: no count of equal pairs is closer to `p`. */
  lemma ClosestPossibleIsNearest(n: int, p: Ratio, e: int)
    requires n >= 2
    ensures Abs(p.num * (n - 1) - ClosestPossible(n, p).num * p.den) <= Abs(p.num * (n - 1) - e * p.den)
  {
    RoundIsNearest(p.num * (n - 1), p.den, e);
  }

  /** For `p` in [0, 1] the target is reachable: some stream of `n` flags
      starting with a reference hits it. */
  lemma TargetIsReachable(n: nat, p: Ratio)
    requires n >= 2 && InUnitInterval(p)
    ensures exists w :: |w| == n && w[0] && Hits(MakeGoal(n, p), w)
  {
    var c := ClosestPossible(n, p);
    assert 0 <= c.num <= n - 1;
    var w := WithEqualPairs(n, c.num as nat);
    HitsIffTargetPairs(n, p, w);
    assert |w| == n && w[0] && Hits(MakeGoal(n, p), w);
  }

  /** A stream that hits the target is at least as close to `p` as any other
      stream of the same length. */
  lemma HitsAreClosest(n: int, p: Ratio, t: seq<bool>, s: seq<bool>)
    requires n >= 2 && |t| == n && |s| == n
    requires Hits(MakeGoal(n, p), t)
    ensures Distance(p, t) <= Distance(p, s)
  {
    HitsIffTargetPairs(n, p, t);
    RoundIsNearest(p.num * (n - 1), p.den, EqualPairs(s));
  }

  // ---------------------------------------------------------------------------
  // Integer distances measure the floating-point comparisons exactly

  lemma ProductAsReal(x: int, y: int)
    ensures (x * y) as real == x as real * y as real
  {
  }

  lemma AbsAsReal(z: int)
    ensures Abs(z) as real == RealAbs(z as real)
  {
  }

  lemma ScaleGap(a: real, b: real, e: real, d: real)
    requires b > 0.0 && d > 0.0
    ensures RealAbs(a / b - e / d) * (b * d) == RealAbs(a * d - e * b)
  {
    assert (a / b) * b == a;
    assert (e / d) * d == e;
    assert (a / b - e / d) * (b * d) == ((a / b) * b) * d - ((e / d) * d) * b;
    if a / b - e / d < 0.0 {
      assert (a / b - e / d) * (b * d) < 0.0;
    } else {
      assert (a / b - e / d) * (b * d) >= 0.0;
    }
  }

  /** The scaled distance is `|p - Rate(s)|` times `p.den * (|s| - 1)`. */
  lemma DistanceIsScaledGap(p: Ratio, s: seq<bool>)
    requires |s| >= 2
    ensures Distance(p, s) as real == RealAbs(AsReal(p) - Rate(s)) * (p.den * (|s| - 1)) as real
  {
    ScaledAbs(p.num, p.den, EqualPairs(s), |s| - 1);
    ProductAsReal(p.den, |s| - 1);
  }

  lemma ScaleOrder(x: real, y: real, c: real)
    requires c > 0.0
    ensures x * c < y * c <==> x < y
  {
    assert y * c - x * c == (y - x) * c;
    if x < y {
      assert (y - x) * c > 0.0;
    } else {
      assert (y - x) * c <= 0.0;
    }
  }

  /** An integer gap `|a * d - e * b|` is the real gap `|a / b - e / d|`
      scaled by `b * d`. */
  lemma ScaledAbs(a: int, b: Pos, e: int, d: int)
    requires d > 0
    ensures Abs(a * d - e * b) as real == RealAbs(a as real / b as real - e as real / d as real) * (b as real * d as real)
  {
    var g := a * d - e * b;
    ScaleGap(a as real, b as real, e as real, d as real);
    ProductAsReal(a, d);
    ProductAsReal(e, b);
    assert g as real == a as real * d as real - e as real * b as real;
    AbsAsReal(g);
  }

  /** The scaled integer gaps order two proportions over one denominator
      exactly as their real distances to `a / b` do. */
  lemma GapOrder(a: int, b: Pos, e1: int, e2: int, d: int)
    requires d > 0
    ensures Abs(a * d - e1 * b) < Abs(a * d - e2 * b)
        <==> RealAbs(a as real / b as real - e1 as real / d as real)
             < RealAbs(a as real / b as real - e2 as real / d as real)
  {
    var c := b as real * d as real;
    ScaledAbs(a, b, e1, d);
    ScaledAbs(a, b, e2, d);
    PositiveProduct(b as real, d as real);
    IntRealOrder(Abs(a * d - e1 * b), Abs(a * d - e2 * b),
                 RealAbs(a as real / b as real - e1 as real / d as real),
                 RealAbs(a as real / b as real - e2 as real / d as real), c);
  }

  lemma PositiveProduct(x: real, y: real)
    requires x > 0.0 && y > 0.0
    ensures x * y > 0.0
  {
  }

  /** Integers that are the same positive multiple of two reals are ordered
      as those reals are. */
  lemma IntRealOrder(i: int, j: int, x: real, y: real, c: real)
    requires c > 0.0 && i as real == x * c && j as real == y * c
    ensures i < j <==> x < y
  {
    ScaleOrder(x, y, c);
  }

  /** Among draws of one length, a smaller scaled distance is exactly a
      smaller `|p - rate|`, the test of `diff < current_diff`. */
  lemma CloserIffSmallerDistance(p: Ratio, s: seq<bool>, t: seq<bool>)
    requires |s| >= 2 && |t| == |s|
    ensures Distance(p, s) < Distance(p, t) <==> RealAbs(AsReal(p) - Rate(s)) < RealAbs(AsReal(p) - Rate(t))
  {
    GapOrder(p.num, p.den, EqualPairs(s), EqualPairs(t), |s| - 1);
  }

  lemma CrossMultiply(e: real, d: real, k: real, m: real)
    requires d > 0.0 && m > 0.0
    ensures e / d == k / m <==> e * m == k * d
  {
    assert (e / d) * d == e;
    assert (k / m) * m == k;
    if e / d == k / m {
      assert e * m == (e / d) * d * m;
      assert k * d == (k / m) * m * d;
    } else {
      ScaleOrder(e / d, k / m, d * m);
      ScaleOrder(k / m, e / d, d * m);
      assert (e / d) * (d * m) == e * m;
      assert (k / m) * (d * m) == k * d;
    }
  }

  /** Integer proportions are equal exactly when their cross products are. */
  lemma CrossMultiplyInt(e: int, d: int, k: int, m: int)
    requires d > 0 && m > 0
    ensures e as real / d as real == k as real / m as real <==> e * m == k * d
  {
    CrossMultiply(e as real, d as real, k as real, m as real);
    ProductAsReal(e, m);
    ProductAsReal(k, d);
  }

  /** `Hits` is exactly `current_prop == closest_possible`. */
  lemma HitsIffRateIsClosest(n: int, p: Ratio, s: seq<bool>)
    requires n >= 2 && |s| >= 2
    ensures Hits(MakeGoal(n, p), s) <==> Rate(s) == AsReal(ClosestPossible(n, p))
  {
    CrossMultiplyInt(EqualPairs(s), |s| - 1, TargetPairs(n, p), n - 1);
  }

  // ---------------------------------------------------------------------------
  // What the search achieves

  /** `p * (n - 1)` lies exactly half-way between two counts of equal pairs,
      so two proportions are equally close to `p`. */
  predicate IsTie(n: int, p: Ratio) {
    2 * Abs(p.num * (n - 1) - TargetPairs(n, p) * p.den) == p.den
  }

  /** When some examined candidate can reach the target and there is no tie,
      the search returns a stream whose proportion is the target. */
  lemma ReachableTargetIsFound(n: nat, p: Ratio, nRep: nat, initial: seq<bool>, cands: seq<seq<bool>>, j: nat)
    requires |initial| == n && AllOfLength(cands, n)
    requires n >= 2 && InUnitInterval(p) && !IsTie(n, p)
    requires j < Min(nRep, |cands|) && Hits(MakeGoal(n, p), Forced(cands[j]))
    ensures Hits(MakeGoal(n, p), CreateRefStream(n, p, nRep, initial, cands).value.stream)
  {
    var examined := cands[..Min(nRep, |cands|)];
    assert examined[j] == cands[j];
    FoldFindsReachableTarget(n, p, Forced(initial), examined, j);
  }

  /** The search-loop half of `ReachableTargetIsFound`. */
  lemma FoldFindsReachableTarget(n: nat, p: Ratio, inc: seq<bool>, cands: seq<seq<bool>>, j: nat)
    requires |inc| == n && AllOfLength(cands, n)
    requires n >= 2 && !IsTie(n, p)
    requires j < |cands| && Hits(MakeGoal(n, p), Forced(cands[j]))
    ensures Hits(MakeGoal(n, p), Fold(MakeGoal(n, p), inc, cands).stream)
  {
    var r := Fold(MakeGoal(n, p), inc, cands);
    if !r.early {
      FoldNoCloserExamined(MakeGoal(n, p), inc, cands, j);
      assert |r.stream| == n by {
        if r.origin > 0 {
          assert |cands[r.origin - 1]| == n;
        }
      }
      BestCountIsTarget(n, p, Forced(cands[j]), r.stream);
    }
  }

  /** Away from a tie, a stream of `n` flags no farther from `p` than one
      that hits the target hits it too. */
  lemma BestCountIsTarget(n: nat, p: Ratio, t: seq<bool>, s: seq<bool>)
    requires n >= 2 && !IsTie(n, p) && |t| == n && |s| == n
    requires Hits(MakeGoal(n, p), t) && Distance(p, s) <= Distance(p, t)
    ensures Hits(MakeGoal(n, p), s)
  {
    HitsIffTargetPairs(n, p, t);
    RoundIsUniqueNearest(p.num * (n - 1), p.den, EqualPairs(s));
    HitsIffTargetPairs(n, p, s);
  }

  /** On a tie the target can be missed although a candidate reaches it:
      with three trials and `p = 1/4`, both 0 and 1 equal pairs are a quarter
      away from `p`, the target is 0 pairs, and an initial draw with one
      equal pair is never replaced. */
  lemma TieCanMissTarget(nRep: nat)
    requires nRep >= 1
    ensures IsTie(3, Ratio(1, 4))
    ensures Hits(MakeGoal(3, Ratio(1, 4)), Forced([true, false, true]))
    ensures !Hits(MakeGoal(3, Ratio(1, 4)), CreateRefStream(3, Ratio(1, 4), nRep, [true, true, false], [[true, false, true]]).value.stream)
  {
    var g := MakeGoal(3, Ratio(1, 4));
    assert TargetPairs(3, Ratio(1, 4)) == 0;
    var initial := [true, true, false];
    var cand := [true, false, true];
    assert Forced(initial) == initial;
    assert Forced(cand) == cand;
    assert initial[1..] == [true, false] && [true, false][1..] == [false];
    assert cand[1..] == [false, true] && [false, true][1..] == [true];
    assert EqualPairs(initial) == 1;
    assert EqualPairs(cand) == 0;
    assert [[true, false, true]][..Min(nRep, 1)] == [cand];
    var r := Fold(g, initial, [cand]);
    assert r.stream == initial;
  }

  /** With four trials and `p = 1`, a first candidate of four references
      makes the search return a stream whose proportion is 1. */
  lemma AllSameTargetFound(nRep: nat, initial: seq<bool>, rest: seq<seq<bool>>)
    requires nRep >= 1 && |initial| == 4 && AllOfLength(rest, 4)
    ensures Rate(CreateRefStream(4, Ratio(1, 1), nRep, initial, [Constant(4, true)] + rest).value.stream) == 1.0
  {
    var p := Ratio(1, 1);
    var cands := [Constant(4, true)] + rest;
    RoundExact(3, 1);
    EqualPairsConstant(4, true);
    assert Forced(Constant(4, true)) == Constant(4, true);
    assert Forced(cands[0]) == Constant(4, true);
    ReachableTargetIsFound(4, p, nRep, initial, cands, 0);
    var s := CreateRefStream(4, p, nRep, initial, cands).value.stream;
    HitsIffTargetPairs(4, p, s);
  }

  // ---------------------------------------------------------------------------
  // The three places where exp.py ignores its own parameters

  /** A 60-flag initial draw starting with a non-reference whose 44 equal
      pairs are as close to 3/4 as 59 pairs allow. */
  function UnforcedBestDraw(): (s: seq<bool>)
    ensures |s| == SourceDrawLength
  {
    Constant(45, false) + Alternating(15, true)
  }

  /** No proportion over 59 pairs is exactly 3/4: `4 * e == 177` has no
      integer solution. */
  lemma NoDrawMatchesThreeQuarters(s: seq<bool>)
    requires |s| == 60
    ensures Distance(Ratio(3, 4), s) >= 1
  {
    var e: int := EqualPairs(s);
    assert Distance(Ratio(3, 4), s) == Abs(177 - e * 4);
    assert e <= 44 || e >= 45;
  }

  /** With `p = 3/4` and 60 flags no two counts of equal pairs are equally
      far from `p`: draws at the same distance have the same count, so no
      exact tie arises for floating-point rounding to break. */
  lemma NoTiesAtThreeQuarters(s: seq<bool>, t: seq<bool>)
    requires |s| == 60 && |t| == 60
    requires Distance(Ratio(3, 4), s) == Distance(Ratio(3, 4), t)
    ensures EqualPairs(s) == EqualPairs(t)
  {
    var e: int, f: int := EqualPairs(s), EqualPairs(t);
    assert Distance(Ratio(3, 4), s) == Abs(177 - e * 4);
    assert Distance(Ratio(3, 4), t) == Abs(177 - f * 4);
    assert (e + f) * 4 != 354;
  }

  /** With the default `p = 3/4` and 60 trials, no candidate can beat this
      initial draw, so exp.py returns it as it is: its first trial is not a
      reference, and the interpreter's assertion then fails. */
  lemma UnforcedInitialIsReturned(nRep: nat, cands: seq<seq<bool>>)
    requires AllOfLength(cands, SourceDrawLength)
    ensures CreateRefStreamAsWritten(60, Ratio(3, 4), nRep, UnforcedBestDraw(), cands).value.stream == UnforcedBestDraw()
    ensures !UnforcedBestDraw()[0]
  {
    var p := Ratio(3, 4);
    var initial := UnforcedBestDraw();
    EqualPairsConstant(45, false);
    EqualPairsAlternating(15, true);
    EqualPairsAppend(Constant(45, false), Alternating(15, true));
    assert EqualPairs(initial) == 44;
    assert Distance(p, initial) == 1;
    var examined := cands[..Min(SourceRepetitions, |cands|)];
    var r := Fold(MakeGoal(60, p), initial, examined);
    assert CreateRefStreamAsWritten(60, p, nRep, initial, cands).value == r;
    if r.origin > 0 {
      assert |examined[r.origin - 1]| == 60;
      NoDrawMatchesThreeQuarters(r.stream);
      assert false;
    }
  }

  /** exp.py draws 60 flags whatever `n_trials` is: asking for 4 trials
      yields a stream of 60. */
  lemma AsWrittenIgnoresTrialCount(p: Ratio, nRep: nat, initial: seq<bool>, cands: seq<seq<bool>>)
    requires |initial| == SourceDrawLength && AllOfLength(cands, SourceDrawLength)
    ensures |CreateRefStreamAsWritten(4, p, nRep, initial, cands).value.stream| == SourceDrawLength
  {
  }

  /** An alternating 60-flag draw starting with a reference is as far from
      `p = 1` as a draw can be. */
  lemma AlternatingDraw()
    ensures Forced(Alternating(60, true)) == Alternating(60, true)
    ensures Distance(Ratio(1, 1), Alternating(60, true)) == 59
  {
    EqualPairsAlternating(60, true);
    assert Forced(Alternating(60, true)) == Alternating(60, true);
  }

  /** A constant 60-flag draw of references hits `p = 1` exactly. */
  lemma ConstantDraw()
    ensures Forced(Constant(60, true)) == Constant(60, true)
    ensures Distance(Ratio(1, 1), Constant(60, true)) == 0
    ensures Hits(MakeGoal(60, Ratio(1, 1)), Constant(60, true))
  {
    EqualPairsConstant(60, true);
    RoundExact(59, 1);
    assert Forced(Constant(60, true)) == Constant(60, true);
  }

  /** A candidate that does not beat the incumbent is examined and dropped. */
  lemma FoldSkips(g: Goal, inc: seq<bool>, c: seq<bool>, rest: seq<seq<bool>>)
    requires Distance(g.p, Forced(c)) >= Distance(g.p, inc)
    ensures Fold(g, inc, [c] + rest) == Search(Fold(g, inc, rest).stream, Fold(g, inc, rest).examined + 1,
                                              if Fold(g, inc, rest).origin == 0 then 0 else Fold(g, inc, rest).origin + 1,
                                              Fold(g, inc, rest).early)
  {
    assert ([c] + rest)[0] == c;
    assert ([c] + rest)[1..] == rest;
  }

  /** A candidate that beats the incumbent and hits the target ends the
      search. */
  lemma FoldStopsOnHit(g: Goal, inc: seq<bool>, c: seq<bool>, rest: seq<seq<bool>>)
    requires Distance(g.p, Forced(c)) < Distance(g.p, inc) && Hits(g, Forced(c))
    ensures Fold(g, inc, [c] + rest) == Search(Forced(c), 1, 1, true)
  {
    assert ([c] + rest)[0] == c;
  }

  /** When the first of two candidates loses to the initial draw and the
      second beats it and hits the target, exp.py examines both. */
  lemma AsWrittenExaminesBoth(n: int, p: Ratio, nRep: nat, inc: seq<bool>, c0: seq<bool>, c1: seq<bool>)
    requires |inc| == SourceDrawLength && |c0| == SourceDrawLength && |c1| == SourceDrawLength && n != 1
    requires Distance(p, Forced(c0)) >= Distance(p, inc)
    requires Distance(p, Forced(c1)) < Distance(p, inc) && Hits(MakeGoal(n, p), Forced(c1))
    ensures CreateRefStreamAsWritten(n, p, nRep, inc, [c0, c1]).value.examined == 2
  {
    assert [c0, c1][..Min(SourceRepetitions, 2)] == [c0] + [c1];
    FoldStopsOnHit(MakeGoal(n, p), inc, c1, []);
    assert [c1] + [] == [c1];
    FoldSkips(MakeGoal(n, p), inc, c0, [c1]);
  }

  /** exp.py examines up to 10000 candidates whatever `n_rep` is: with
      `n_rep = 1` it still draws the second candidate and returns it. */
  lemma AsWrittenIgnoresRepetitions()
    ensures CreateRefStreamAsWritten(60, Ratio(1, 1), 1, Alternating(60, true),
                                     [Alternating(60, true), Constant(60, true)]).value.examined == 2
  {
    AlternatingDraw();
    ConstantDraw();
    AsWrittenExaminesBoth(60, Ratio(1, 1), 1, Alternating(60, true), Alternating(60, true), Constant(60, true));
  }

  /** With a budget of one, the corrected search returns the (forced)
      initial draw when the first candidate does not beat it. */
  lemma CorrectedExaminesOne(n: nat, p: Ratio, inc: seq<bool>, c0: seq<bool>, c1: seq<bool>)
    requires |inc| == n && |c0| == n && |c1| == n && n >= 2 && InUnitInterval(p)
    requires Distance(p, Forced(c0)) >= Distance(p, Forced(inc))
    ensures CreateRefStream(n, p, 1, inc, [c0, c1]).value.stream == Forced(inc)
  {
    assert [c0, c1][..Min(1, 2)] == [c0] + [];
    FoldSkips(MakeGoal(n, p), Forced(inc), c0, []);
  }

  /** The corrected search honours `n_rep = 1`: it draws only the first
      candidate, which does not beat the initial draw. */
  lemma CorrectedHonoursRepetitions()
    ensures CreateRefStream(60, Ratio(1, 1), 1, Alternating(60, true),
                            [Alternating(60, true), Constant(60, true)]).value.stream == Alternating(60, true)
  {
    AlternatingDraw();
    CorrectedExaminesOne(60, Ratio(1, 1), Alternating(60, true), Alternating(60, true), Constant(60, true));
  }
}
