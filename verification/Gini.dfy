/** The two Gini computations over expert read counts, with exact arithmetic. */
module Gini {
  import opened Base

  function Front(s: seq<int>): seq<int>
    requires s != []
  {
    s[..|s| - 1]
  }

  function Last(s: seq<int>): int
    requires s != []
  {
    s[|s| - 1]
  }

  /** The elements weighted by their position, counted from one. */
  function Weighted(s: seq<int>): int {
    if s == [] then 0 else Weighted(Front(s)) + |s| * Last(s)
  }

  /** The running totals. */
  function Cumulative(s: seq<int>): (c: seq<int>)
    ensures |c| == |s| && (s != [] ==> Last(c) == Sum(s))
  {
    if s == [] then [] else Cumulative(Front(s)) + [Sum(s)]
  }

  // ----- Sorting -----

  function Insert(x: int, s: seq<int>): (r: seq<int>)
    ensures |r| == |s| + 1
  {
    if s == [] then [x]
    else if Last(s) <= x then s + [x]
    else Insert(x, Front(s)) + [Last(s)]
  }

  function Sort(s: seq<int>): (r: seq<int>)
    ensures |r| == |s|
  {
    if s == [] then [] else Insert(Last(s), Sort(Front(s)))
  }

  ghost predicate Below(s: seq<int>, v: int) {
    forall i :: 0 <= i < |s| ==> s[i] <= v
  }

  ghost predicate Sorted(s: seq<int>) {
    s == [] || (Sorted(Front(s)) && Below(Front(s), Last(s)))
  }

  lemma Snoc(s: seq<int>, x: int)
    ensures Front(s + [x]) == s && Last(s + [x]) == x
  {
  }

  lemma {:induction false} InsertSorts(x: int, s: seq<int>)
    requires Sorted(s)
    ensures Sorted(Insert(x, s)) && forall v :: Below(s, v) && x <= v ==> Below(Insert(x, s), v)
  {
    if s != [] {
      if Last(s) <= x {
        Snoc(s, x);
      } else {
        InsertSorts(x, Front(s));
        Snoc(Insert(x, Front(s)), Last(s));
      }
    }
  }

  lemma {:induction false} SortSorts(s: seq<int>)
    ensures Sorted(Sort(s))
  {
    if s != [] {
      SortSorts(Front(s));
      InsertSorts(Last(s), Sort(Front(s)));
    }
  }

  // ----- Pairwise differences -----

  function Abs(x: int): nat {
    if x < 0 then -x else x
  }

  /** The sum of the distances from `v`. */
  ghost function Spread(s: seq<int>, v: int): nat {
    if s == [] then 0 else Spread(Front(s), v) + Abs(Last(s) - v)
  }

  /** The sum of the differences over all pairs. */
  ghost function Differences(s: seq<int>): nat {
    if s == [] then 0 else Differences(Front(s)) + Spread(Front(s), Last(s))
  }

  lemma {:induction false} InsertKeeps(x: int, s: seq<int>, v: int)
    ensures Sum(Insert(x, s)) == Sum(s) + x && Spread(Insert(x, s), v) == Spread(s, v) + Abs(x - v)
  {
    if s == [] {
      Snoc([], x);
    } else if Last(s) <= x {
      Snoc(s, x);
    } else {
      InsertKeeps(x, Front(s), v);
      Snoc(Insert(x, Front(s)), Last(s));
    }
  }

  lemma {:induction false} InsertDifferences(x: int, s: seq<int>)
    ensures Differences(Insert(x, s)) == Differences(s) + Spread(s, x)
  {
    if s == [] {
      Snoc([], x);
    } else if Last(s) <= x {
      Snoc(s, x);
    } else {
      InsertDifferences(x, Front(s));
      InsertKeeps(x, Front(s), Last(s));
      Snoc(Insert(x, Front(s)), Last(s));
    }
  }

  /** Sorting changes neither the total nor the pairwise differences. */
  lemma {:induction false} SortKeeps(s: seq<int>, v: int)
    ensures Sum(Sort(s)) == Sum(s) && Spread(Sort(s), v) == Spread(s, v)
    ensures Differences(Sort(s)) == Differences(s)
  {
    if s != [] {
      SortKeeps(Front(s), v);
      SortKeeps(Front(s), Last(s));
      InsertKeeps(Last(s), Sort(Front(s)), v);
      InsertDifferences(Last(s), Sort(Front(s)));
    }
  }

  // ----- The weighted sum of a sorted sequence -----

  lemma {:induction false} SpreadBelow(s: seq<int>, v: int)
    requires Below(s, v)
    ensures Spread(s, v) == |s| * v - Sum(s)
  {
    if s != [] {
      SpreadBelow(Front(s), v);
    }
  }

  /** On a sorted sequence the position weights add up the pairwise differences. */
  lemma {:induction false} WeightsAreDifferences(s: seq<int>)
    requires Sorted(s)
    ensures 2 * Weighted(s) - (|s| + 1) * Sum(s) == Differences(s)
  {
    if s != [] {
      var f, x, n := Front(s), Last(s), |s|;
      WeightsAreDifferences(f);
      SpreadBelow(f, x);
      WeightStep(Weighted(f), Sum(f), x, n);
    }
  }

  lemma WeightStep(w: int, t: int, x: int, n: int)
    ensures 2 * (w + n * x) - (n + 1) * (t + x) == (2 * w - n * t) + ((n - 1) * x - t)
  {
  }

  lemma {:induction false} CumulativeTotal(s: seq<int>, k: int)
    requires k == |s| + 1
    ensures Sum(Cumulative(s)) == k * Sum(s) - Weighted(s)
  {
    if s != [] {
      var f, x, n := Front(s), Last(s), |s|;
      CumulativeTotal(f, n);
      Snoc(Cumulative(f), Sum(s));
      CumulativeStep(Sum(f), Weighted(f), x, n);
    }
  }

  lemma CumulativeStep(t: int, w: int, x: int, n: int)
    ensures (n * t - w) + (t + x) == (n + 1) * (t + x) - (w + n * x)
  {
  }

  // ----- Bounds -----

  ghost predicate Counts(s: seq<int>) {
    forall i :: 0 <= i < |s| ==> s[i] >= 0
  }

  /** Twice the smaller of each pair, with `v`. */
  ghost function Overlap(s: seq<int>, v: int): int {
    if s == [] then 0 else Overlap(Front(s), v) + 2 * Min(Last(s), v)
  }

  ghost function Overlaps(s: seq<int>): int {
    if s == [] then 0 else Overlaps(Front(s)) + Overlap(Front(s), Last(s))
  }

  lemma {:induction false} SpreadAndOverlap(s: seq<int>, v: int, n: int)
    requires n == |s|
    ensures Spread(s, v) + Overlap(s, v) == Sum(s) + n * v
  {
    if s != [] {
      SpreadAndOverlap(Front(s), v, n - 1);
      MulSucc(v, n - 1);
    }
  }

  /** What the pairwise differences lack of their maximum is what the pairs share. */
  lemma {:induction false} DifferencesAndOverlaps(s: seq<int>, k: int)
    requires s != [] && k == |s| - 1
    ensures Differences(s) + Overlaps(s) == k * Sum(s)
  {
    var f, x := Front(s), Last(s);
    SpreadAndOverlap(f, x, k);
    if f != [] {
      DifferencesAndOverlaps(f, k - 1);
    }
    PairStep(Sum(f), x, k);
  }

  lemma PairStep(t: int, x: int, k: int)
    ensures (k - 1) * t + (t + k * x) == k * (t + x)
  {
  }

  lemma {:induction false} OverlapIsNonNegative(s: seq<int>, v: int)
    requires Counts(s) && v >= 0
    ensures Overlap(s, v) >= 0
    ensures Overlap(s, v) == 0 <==> v == 0 || forall i :: 0 <= i < |s| ==> s[i] == 0
  {
    if s != [] {
      OverlapIsNonNegative(Front(s), v);
    }
  }

  /** No two counts are both positive. */
  ghost predicate AllOnOne(s: seq<int>) {
    forall i, j :: 0 <= i < j < |s| ==> s[i] == 0 || s[j] == 0
  }

  lemma {:induction false} OverlapsVanishIff(s: seq<int>)
    requires Counts(s)
    ensures Overlaps(s) >= 0 && (Overlaps(s) == 0 <==> AllOnOne(s))
  {
    if s != [] {
      OverlapsVanishIff(Front(s));
      OverlapIsNonNegative(Front(s), Last(s));
    }
  }

  ghost predicate AllEqual(s: seq<int>) {
    forall i, j :: 0 <= i < j < |s| ==> s[i] == s[j]
  }

  lemma {:induction false} SpreadVanishesIff(s: seq<int>, v: int)
    ensures Spread(s, v) == 0 <==> forall i :: 0 <= i < |s| ==> s[i] == v
  {
    if s != [] {
      SpreadVanishesIff(Front(s), v);
    }
  }

  lemma AllEqualSplit(s: seq<int>)
    requires s != []
    ensures AllEqual(s) <==> AllEqual(Front(s)) && forall i :: 0 <= i < |Front(s)| ==> Front(s)[i] == Last(s)
  {
    var f := Front(s);
    assert forall i :: 0 <= i < |f| ==> f[i] == s[i];
  }

  lemma {:induction false} DifferencesVanishIff(s: seq<int>)
    ensures Differences(s) == 0 <==> AllEqual(s)
  {
    if s != [] {
      DifferencesVanishIff(Front(s));
      SpreadVanishesIff(Front(s), Last(s));
      AllEqualSplit(s);
    }
  }

  // ----- The two formulas -----

  /** The Gini coefficient as the normalised sum of pairwise differences. */
  ghost function Gini(s: seq<int>): real
    requires s != [] && Sum(s) != 0
  {
    Differences(s) as real / (|s| * Sum(s)) as real
  }

  lemma QuotientIs(a: real, b: real, q: real)
    requires b != 0.0 && q * b == a
    ensures a / b == q
  {
  }

  lemma DivTimes(a: real, b: real)
    requires b != 0.0
    ensures (a / b) * b == a
  {
  }

  lemma CommonDenominator(a: real, b: real, n: real, t: real)
    requires n != 0.0 && t != 0.0 && n * t != 0.0
    ensures a / (n * t) - b / n == (a - b * t) / (n * t)
  {
    var p, q := a / (n * t), b / n;
    DivTimes(a, n * t);
    DivTimes(b, n);
    assert (p - q) * (n * t) == p * (n * t) - (q * n) * t;
    QuotientIs(a - b * t, n * t, p - q);
  }

  lemma NonZeroProduct(n: int, t: int)
    requires n != 0 && t != 0
    ensures n * t != 0 && n as real * t as real == (n * t) as real
  {
  }

  lemma Product(n: int, t: int)
    ensures n as real * t as real == (n * t) as real
  {
  }

  /** The closed form of `gini`. */
  lemma CurveFormula(w: int, n: int, t: int, d: int)
    requires n != 0 && t != 0 && w - (n + 1) * t == d
    ensures n * t != 0 && w as real / (n * t) as real - (n + 1) as real / n as real == d as real / (n * t) as real
  {
    NonZeroProduct(n, t);
    Product(n + 1, t);
    CommonDenominator(w as real, (n + 1) as real, n as real, t as real);
  }

  lemma Cancel(a: real, b: real, t: real)
    requires t != 0.0 && a * t == b * t
    ensures a == b
  {
    QuotientIs(a * t, t, a);
    QuotientIs(b * t, t, b);
  }

  function SkewQuotient(c: int, n: int, t: int): real
    requires n != 0 && t != 0
  {
    ((n + 1) as real - 2.0 * (c as real / t as real)) / n as real
  }

  /** The closed form of the Gini in `summarize`. */
  lemma SkewFormula(c: int, n: int, t: int, d: int)
    requires n != 0 && t != 0 && 2 * c == (n + 1) * t - d
    ensures n * t != 0 && SkewQuotient(c, n, t) == d as real / (n * t) as real
  {
    NonZeroProduct(n, t);
    Product(n + 1, t);
    SkewReal(c as real, n as real, t as real, d as real);
  }

  lemma SkewReal(c: real, n: real, t: real, d: real)
    requires n != 0.0 && t != 0.0 && n * t != 0.0 && 2.0 * c == (n + 1.0) * t - d
    ensures ((n + 1.0) - 2.0 * (c / t)) / n == d / (n * t)
  {
    var share, q := c / t, d / (n * t);
    DivTimes(c, t);
    DivTimes(d, n * t);
    assert (q * n) * t == q * (n * t);
    assert ((n + 1.0) - 2.0 * share) * t == (n + 1.0) * t - 2.0 * (share * t);
    Cancel(q * n, (n + 1.0) - 2.0 * share, t);
    QuotientIs((n + 1.0) - 2.0 * share, n, q);
  }

  /** Over the sorted counts, both sums give the pairwise differences. */
  lemma SortedSums(counts: seq<int>, s: seq<int>, k: int)
    requires s == Sort(counts) && k == |s| + 1
    ensures |s| == |counts| && Sum(s) == Sum(counts)
    ensures 2 * Weighted(s) - k * Sum(s) == Differences(counts)
    ensures 2 * Sum(Cumulative(s)) == k * Sum(s) - Differences(counts)
  {
    SortKeeps(counts, 0);
    SortSorts(counts);
    WeightsAreDifferences(s);
    CumulativeTotal(s, k);
  }

  /** `gini`: twice the weighted sum, normalised. */
  method GiniOfCurve(counts: seq<int>) returns (g: real)
    ensures counts == [] || Sum(counts) == 0 ==> g == 0.0
    ensures counts != [] && Sum(counts) != 0 ==> g == Gini(counts)
  {
    var s := Sort(counts);
    var n, tot := |s|, Sum(s);
    SortedSums(counts, s, n + 1);
    if tot == 0 || n == 0 {
      return 0.0;
    }
    var cum := WeightedSum(s);
    CurveFormula(2 * cum, n, tot, Differences(counts));
    g := (2 * cum) as real / (n * tot) as real - (n + 1) as real / n as real;
  }

  /** The loop of `gini`. */
  method WeightedSum(s: seq<int>) returns (cum: int)
    ensures cum == Weighted(s)
  {
    cum := 0;
    for i := 0 to |s|
      invariant cum == Weighted(s[..i])
    {
      assert Front(s[..i + 1]) == s[..i];
      cum := cum + (i + 1) * s[i];
    }
    assert s[..|s|] == s;
  }

  /** The Gini of one layer in `summarize`, from the running totals. */
  function GiniOfSkew(counts: seq<int>): real
    requires counts != []
  {
    var x := Sort(counts);
    var cum := Cumulative(x);
    if Last(cum) > 0 then SkewQuotient(Sum(cum), |x|, Last(cum)) else 0.0
  }

  /** The two computations agree, and both are the normalised pairwise differences. */
  lemma SkewIsGini(counts: seq<int>)
    requires counts != [] && Sum(counts) > 0
    ensures GiniOfSkew(counts) == Gini(counts)
  {
    var x := Sort(counts);
    SortedSums(counts, x, |x| + 1);
    SkewOfSums(counts, x, Cumulative(x));
  }

  lemma SkewOfSums(counts: seq<int>, x: seq<int>, cum: seq<int>)
    requires counts != [] && Sum(counts) > 0 && |x| == |counts| && Sum(x) == Sum(counts)
    requires cum != [] && Last(cum) == Sum(x) && 2 * Sum(cum) == (|x| + 1) * Sum(x) - Differences(counts)
    ensures SkewQuotient(Sum(cum), |x|, Last(cum)) == Gini(counts)
  {
    SkewFormula(Sum(cum), |x|, Sum(x), Differences(counts));
  }

  // ----- The range of the coefficient -----

  lemma QuotientBounds(a: int, b: int, c: int)
    requires b > 0 && 0 <= a <= c
    ensures 0.0 <= a as real / b as real <= c as real / b as real
    ensures a as real / b as real == 0.0 <==> a == 0
    ensures a as real / b as real == c as real / b as real <==> a == c
  {
    DivTimes(a as real, b as real);
    DivTimes(c as real, b as real);
  }

  lemma Share(k: int, n: int, t: int)
    requires n > 0 && t > 0
    ensures n * t > 0 && (k * t) as real / (n * t) as real == k as real / n as real
  {
    NonZeroProduct(n, t);
    Product(k, t);
    var q := k as real / n as real;
    DivTimes(k as real, n as real);
    assert q * (n as real * t as real) == (q * n as real) * t as real;
    QuotientIs((k * t) as real, (n * t) as real, q);
  }

  /** Between 0, exactly when all counts are equal, and (n - 1) / n, exactly when one count has all. */
  lemma GiniRange(counts: seq<int>)
    requires counts != [] && Counts(counts) && Sum(counts) > 0
    ensures var n := |counts|;
            && 0.0 <= Gini(counts) <= (n - 1) as real / n as real
            && (Gini(counts) == 0.0 <==> AllEqual(counts))
            && (Gini(counts) == (n - 1) as real / n as real <==> AllOnOne(counts))
  {
    var n, t, d := |counts|, Sum(counts), Differences(counts);
    DifferencesVanishIff(counts);
    DifferencesAndOverlaps(counts, n - 1);
    OverlapsVanishIff(counts);
    Share(n - 1, n, t);
    QuotientBounds(d, n * t, (n - 1) * t);
  }

  /** So the coefficient stays below 1, whatever the counts. */
  lemma GiniIsBelowOne(counts: seq<int>)
    requires counts != [] && Counts(counts) && Sum(counts) > 0
    ensures Gini(counts) < 1.0
  {
    GiniRange(counts);
    BelowOne((|counts| - 1) as real, |counts| as real);
  }

  lemma BelowOne(k: real, n: real)
    requires 0.0 <= k < n
    ensures k / n < 1.0
  {
    DivTimes(k, n);
    assert (1.0 - k / n) * n == n - k;
  }

  /** The order of the counts does not matter. */
  lemma GiniIgnoresOrder(counts: seq<int>)
    requires counts != [] && Sum(counts) != 0
    ensures Sum(Sort(counts)) != 0 && Sort(counts) != [] && Gini(Sort(counts)) == Gini(counts)
  {
    SortKeeps(counts, 0);
  }
}
