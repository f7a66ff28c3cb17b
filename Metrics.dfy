/** Comparison metrics between two depth distributions: total variation and
    a normalised Wasserstein-1 distance, samsamplex/metrics.py. Depths are
    integers; the metrics are exact reals. */
module Metrics {
  import opened Wrappers
  import opened Text
  import opened Depth
  import opened Reals

  /** `MetricsResult`. */
  datatype MetricsResult = MetricsResult(wasserstein: real, tv: real)

  function Abs(x: real): real { if x < 0.0 then -x else x }

  predicate NonNegative(a: seq<int>) {
    forall i :: 0 <= i < |a| ==> a[i] >= 0
  }

  predicate InUnitInterval(xs: seq<real>) {
    forall i :: 0 <= i < |xs| ==> 0.0 <= xs[i] <= 1.0
  }

  /** The depths as reals (the `float64` conversion, exact here). */
  function AsReals(a: seq<int>): (r: seq<real>)
    ensures |r| == |a| && forall i :: 0 <= i < |a| ==> r[i] == a[i] as real
  {
    seq(|a|, i requires 0 <= i < |a| => a[i] as real)
  }

  // ---------------------------------------------------------------------------
  // Sums of absolute differences

  /** `np.sum(np.abs(x - y))` for two sequences of the same length. */
  function AbsDiffSum(x: seq<real>, y: seq<real>): real
    requires |x| == |y|
    decreases |x|
  {
    if |x| == 0 then 0.0
    else AbsDiffSum(x[..|x| - 1], y[..|y| - 1]) + Abs(x[|x| - 1] - y[|y| - 1])
  }

  lemma {:induction false} AbsDiffSumSymmetric(x: seq<real>, y: seq<real>)
    requires |x| == |y|
    ensures AbsDiffSum(x, y) == AbsDiffSum(y, x)
    decreases |x|
  {
    if |x| > 0 {
      AbsDiffSumSymmetric(x[..|x| - 1], y[..|y| - 1]);
    }
  }

  /** The sum is never negative, and it is 0 exactly when the sequences are
      equal. */
  lemma {:induction false} AbsDiffSumZero(x: seq<real>, y: seq<real>)
    requires |x| == |y|
    ensures AbsDiffSum(x, y) >= 0.0
    ensures AbsDiffSum(x, y) == 0.0 <==> x == y
    decreases |x|
  {
    if |x| > 0 {
      var n := |x|;
      AbsDiffSumZero(x[..n - 1], y[..n - 1]);
      assert x == x[..n - 1] + [x[n - 1]];
      assert y == y[..n - 1] + [y[n - 1]];
      if x == y {
        assert x[..n - 1] == y[..n - 1];
      }
    }
  }

  /** With every entry of both sequences in [0, 1], each term is at most 1. */
  lemma {:induction false} AbsDiffSumAtMostLength(x: seq<real>, y: seq<real>)
    requires |x| == |y| && InUnitInterval(x) && InUnitInterval(y)
    ensures AbsDiffSum(x, y) <= |x| as real
    decreases |x|
  {
    if |x| > 0 {
      var n := |x|;
      var fx, fy := x[..n - 1], y[..n - 1];
      assert InUnitInterval(fx) by {
        forall i | 0 <= i < |fx| ensures 0.0 <= fx[i] <= 1.0 {
          assert fx[i] == x[i];
        }
      }
      assert InUnitInterval(fy) by {
        forall i | 0 <= i < |fy| ensures 0.0 <= fy[i] <= 1.0 {
          assert fy[i] == y[i];
        }
      }
      AbsDiffSumAtMostLength(fx, fy);
      assert 0.0 <= x[n - 1] <= 1.0 && 0.0 <= y[n - 1] <= 1.0;
    }
  }

  // ---------------------------------------------------------------------------
  // _total_variation

  /** `_total_variation`: half the mean absolute difference; 0 for empty
      input. */
  function TotalVariation(a: seq<int>, b: seq<int>): real
    requires |a| == |b|
  {
    if |a| == 0 then 0.0 else AbsDiffSum(AsReals(a), AsReals(b)) / (2.0 * |a| as real)
  }

  /** Total variation is symmetric, never negative, and 0 exactly on equal
      inputs. */
  lemma TotalVariationMeaning(a: seq<int>, b: seq<int>)
    requires |a| == |b|
    ensures TotalVariation(a, b) == TotalVariation(b, a)
    ensures TotalVariation(a, b) >= 0.0
    ensures TotalVariation(a, b) == 0.0 <==> a == b
  {
    var x, y := AsReals(a), AsReals(b);
    AbsDiffSumSymmetric(x, y);
    AbsDiffSumZero(x, y);
    if |a| > 0 {
      var d := 2.0 * |a| as real;
      QuotientZero(AbsDiffSum(x, y), d);
      QuotientInUnitInterval(0.0, d);
      DivMonotone(0.0, AbsDiffSum(x, y), d);
      if x == y {
        assert forall i :: 0 <= i < |a| ==> a[i] as real == x[i] == y[i] == b[i] as real;
        assert a == b;
      }
    }
  }

  /** The documented values: 30 / 6 and 10 / 8. */
  lemma TotalVariationExamples()
    ensures TotalVariation([10, 10, 10], [20, 20, 20]) == 5.0
    ensures TotalVariation([10, 10, 10, 10], [10, 10, 10, 20]) == 1.25
  {
    var a, b := AsReals([10, 10, 10]), AsReals([20, 20, 20]);
    assert a == [10.0, 10.0, 10.0] && b == [20.0, 20.0, 20.0];
    assert a[..2] == [10.0, 10.0] && a[..2][..1] == [10.0] && a[..2][..1][..0] == [];
    assert b[..2] == [20.0, 20.0] && b[..2][..1] == [20.0] && b[..2][..1][..0] == [];
    assert AbsDiffSum([10.0], [20.0]) == 10.0;
    assert AbsDiffSum([10.0, 10.0], [20.0, 20.0]) == 20.0;
    assert AbsDiffSum(a, b) == 30.0;
    var c, d := AsReals([10, 10, 10, 10]), AsReals([10, 10, 10, 20]);
    assert c == [10.0, 10.0, 10.0, 10.0] && d == [10.0, 10.0, 10.0, 20.0];
    assert c[..3] == d[..3];
    AbsDiffSumZero(c[..3], d[..3]);
    assert AbsDiffSum(c, d) == 10.0;
  }

  // ---------------------------------------------------------------------------
  // Cumulative sums and the normalised CDF

  /** `np.cumsum` with a leading 0: entry k is the sum of the first k depths. */
  function CumSums(a: seq<int>): (c: seq<int>)
    ensures |c| == |a| + 1 && c[0] == 0
    decreases |a|
  {
    if |a| == 0 then [0]
    else
      var c := CumSums(a[..|a| - 1]);
      c + [c[|c| - 1] + a[|a| - 1]]
  }

  /** For non-negative depths the cumulative sums are non-negative and
      non-decreasing. */
  lemma {:induction false} CumSumsMonotone(a: seq<int>)
    requires NonNegative(a)
    ensures forall i, j :: 0 <= i <= j <= |a| ==> 0 <= CumSums(a)[i] <= CumSums(a)[j]
    decreases |a|
  {
    if |a| > 0 {
      var n := |a|;
      var front := a[..n - 1];
      assert NonNegative(front) by {
        forall i | 0 <= i < |front| ensures front[i] >= 0 {
          assert front[i] == a[i];
        }
      }
      CumSumsMonotone(front);
      var c, cf := CumSums(a), CumSums(front);
      assert c == cf + [cf[n - 1] + a[n - 1]];
      forall i, j | 0 <= i <= j <= n
        ensures 0 <= c[i] <= c[j]
      {
        if j < n {
          assert c[i] == cf[i] && c[j] == cf[j];
        } else {
          assert c[j] == cf[n - 1] + a[n - 1];
          if i < n {
            assert c[i] == cf[i];
          }
        }
      }
    }
  }

  /** The total of the depths. */
  function Total(a: seq<int>): int {
    CumSums(a)[|a|]
  }

  /** The cumulative sums divided by the total when it is positive, and left
      as they are otherwise (`cum /= total` only under `total > 0`). It starts
      at 0 and, with a positive total, ends at 1. */
  function Cdf(a: seq<int>): (f: seq<real>)
    ensures |f| == |a| + 1 && f[0] == 0.0
    ensures Total(a) > 0 ==> f[|a|] == 1.0
  {
    var c := CumSums(a);
    var t := c[|a|];
    var f := seq(|a| + 1, k requires 0 <= k <= |a| => if t > 0 then c[k] as real / t as real else c[k] as real);
    if t > 0 then
      DivSelf(t as real);
      f
    else f
  }

  /** For non-negative depths the CDF is non-decreasing and lies in [0, 1];
      with a zero total it is 0 everywhere. */
  lemma CdfShape(a: seq<int>)
    requires NonNegative(a)
    ensures forall i, j :: 0 <= i <= j <= |a| ==> Cdf(a)[i] <= Cdf(a)[j]
    ensures InUnitInterval(Cdf(a))
    ensures Total(a) == 0 ==> forall k :: 0 <= k <= |a| ==> Cdf(a)[k] == 0.0
  {
    CumSumsMonotone(a);
    var c, f, t := CumSums(a), Cdf(a), Total(a);
    forall i, j | 0 <= i <= j <= |a|
      ensures f[i] <= f[j]
    {
      if t > 0 {
        DivMonotone(c[i] as real, c[j] as real, t as real);
      }
    }
    forall k | 0 <= k <= |a|
      ensures 0.0 <= f[k] <= 1.0
    {
      if t > 0 {
        QuotientInUnitInterval(c[k] as real, t as real);
      }
    }
  }

  // ---------------------------------------------------------------------------
  // _wasserstein

  /** `_wasserstein`: the mean absolute difference of the two CDFs, over
      their n + 1 entries; 0 for empty input. */
  function Wasserstein(a: seq<int>, b: seq<int>): real
    requires |a| == |b|
  {
    if |a| == 0 then 0.0 else AbsDiffSum(Cdf(a), Cdf(b)) / (|a| + 1) as real
  }

  /** The distance is symmetric, never negative, and 0 exactly when the two
      CDFs agree (in particular on identical inputs). */
  lemma WassersteinMeaning(a: seq<int>, b: seq<int>)
    requires |a| == |b|
    ensures Wasserstein(a, b) == Wasserstein(b, a)
    ensures Wasserstein(a, b) >= 0.0
    ensures Wasserstein(a, b) == 0.0 <==> |a| == 0 || Cdf(a) == Cdf(b)
    ensures Wasserstein(a, a) == 0.0
  {
    AbsDiffSumSymmetric(Cdf(a), Cdf(b));
    AbsDiffSumZero(Cdf(a), Cdf(b));
    AbsDiffSumZero(Cdf(a), Cdf(a));
    if |a| > 0 {
      var d := (|a| + 1) as real;
      QuotientZero(AbsDiffSum(Cdf(a), Cdf(b)), d);
      DivMonotone(0.0, AbsDiffSum(Cdf(a), Cdf(b)), d);
    }
  }

  /** For non-negative depths the distance lies in [0, 1]: every CDF entry is
      in [0, 1], so each of the n + 1 terms is at most 1. */
  lemma WassersteinInUnitInterval(a: seq<int>, b: seq<int>)
    requires |a| == |b| && NonNegative(a) && NonNegative(b)
    ensures 0.0 <= Wasserstein(a, b) <= 1.0
  {
    if |a| > 0 {
      CdfShape(a);
      CdfShape(b);
      AbsDiffSumZero(Cdf(a), Cdf(b));
      AbsDiffSumAtMostLength(Cdf(a), Cdf(b));
      QuotientInUnitInterval(AbsDiffSum(Cdf(a), Cdf(b)), (|a| + 1) as real);
    }
  }

  /** A documented case: an even spread against everything at the end. */
  lemma WassersteinExample()
    ensures Wasserstein([10, 10, 10], [0, 0, 30]) == 0.25
  {
    ExampleCdfs();
    ExampleCdfDistance([0.0, 10.0 / 30.0, 20.0 / 30.0, 1.0], [0.0, 0.0, 0.0, 1.0]);
  }

  /** The CDFs of the example's two depth arrays. */
  lemma ExampleCdfs()
    ensures Cdf([10, 10, 10]) == [0.0, 10.0 / 30.0, 20.0 / 30.0, 1.0]
    ensures Cdf([0, 0, 30]) == [0.0, 0.0, 0.0, 1.0]
  {
    var a, b := [10, 10, 10], [0, 0, 30];
    assert a[..2] == [10, 10] && a[..2][..1] == [10] && a[..2][..1][..0] == [];
    assert b[..2] == [0, 0] && b[..2][..1] == [0] && b[..2][..1][..0] == [];
    assert CumSums(a) == [0, 10, 20, 30];
    assert CumSums(b) == [0, 0, 0, 30];
  }

  /** The summed CDF gap of the example. */
  lemma ExampleCdfDistance(fa: seq<real>, fb: seq<real>)
    requires fa == [0.0, 10.0 / 30.0, 20.0 / 30.0, 1.0] && fb == [0.0, 0.0, 0.0, 1.0]
    ensures AbsDiffSum(fa, fb) == 1.0
  {
    assert fa[..3] == [0.0, 10.0 / 30.0, 20.0 / 30.0] && fa[..3][..2] == [0.0, 10.0 / 30.0];
    assert fa[..3][..2][..1] == [0.0] && fa[..3][..2][..1][..0] == [];
    assert fb[..3] == [0.0, 0.0, 0.0] && fb[..3][..2] == [0.0, 0.0];
    assert fb[..3][..2][..1] == [0.0] && fb[..3][..2][..1][..0] == [];
    assert AbsDiffSum([0.0], [0.0]) == 0.0;
    assert AbsDiffSum([0.0, 10.0 / 30.0], [0.0, 0.0]) == 10.0 / 30.0;
    assert AbsDiffSum([0.0, 10.0 / 30.0, 20.0 / 30.0], [0.0, 0.0, 0.0]) == 1.0;
  }

  // ---------------------------------------------------------------------------
  // metrics_calculate

  /** `metrics_calculate`: a length mismatch raises; otherwise both metrics
      on the two depth arrays. */
  function MetricsCalculate(a: DepthArray, b: DepthArray): (r: Result<MetricsResult>)
    requires a.Valid() && b.Valid()
    ensures r.Failure? <==> a.Length() != b.Length()
  {
    if a.Length() != b.Length() then
      Failure("Depth arrays have different lengths (" + IntToString(a.Length()) + " vs "
              + IntToString(b.Length()) + ")")
    else
      Success(MetricsResult(Wasserstein(a.depths, b.depths), TotalVariation(a.depths, b.depths)))
  }

  /** Swapping the arrays gives the same metrics; an array against itself
      gives zero on both; total variation is positive exactly when the depths
      differ. */
  lemma MetricsMeaning(a: DepthArray, b: DepthArray)
    requires a.Valid() && b.Valid() && a.Length() == b.Length()
    ensures MetricsCalculate(a, b) == MetricsCalculate(b, a)
    ensures MetricsCalculate(a, a) == Success(MetricsResult(0.0, 0.0))
    ensures MetricsCalculate(a, b).value.tv > 0.0 <==> a.depths != b.depths
    ensures MetricsCalculate(a, b).value.wasserstein >= 0.0
  {
    WassersteinMeaning(a.depths, b.depths);
    WassersteinMeaning(b.depths, a.depths);
    TotalVariationMeaning(a.depths, b.depths);
    TotalVariationMeaning(a.depths, a.depths);
  }
}
