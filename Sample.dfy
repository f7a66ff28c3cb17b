/** Depth-matched sampling: per-position keep ratios, the per-read ratio
    statistics and the keep/count loop of samsamplex/sample.py. */
module Sample {
  import opened Wrappers
  import opened Depth
  import opened Reals

  // ---------------------------------------------------------------------------
  // _xxh32_fraction

  /** The divisor of the hash fraction, the largest 32-bit value. */
  const Uint32Max: int := 0xFFFF_FFFF

  newtype u32 = x: int | 0 <= x <= 0xFFFF_FFFF

  /** xxh32 of a read name's bytes under a seed. The hash itself is not part
      of this model: any function into 32 bits stands for it. */
  type Digest = (string, int) -> u32

  /** `_xxh32_fraction`: the digest scaled by the largest 32-bit value. It
      depends on nothing but the name and the seed, lies in [0, 1], and is 1
      exactly when the digest is the largest value. */
  function HashFraction(digest: Digest, name: string, seed: int): (f: real)
    ensures 0.0 <= f <= 1.0
    ensures f == 1.0 <==> digest(name, seed) == 0xFFFF_FFFF
  {
    digest(name, seed) as real / Uint32Max as real
  }

  // ---------------------------------------------------------------------------
  // _compute_ratios

  /** One position of `_compute_ratios`: 0 where the source has no coverage,
      else template/source capped at 1. */
  function Ratio(template: int, source: int): real {
    if source == 0 then 0.0
    else
      var q := template as real / source as real;
      if q < 1.0 then q else 1.0
  }

  /** For depths (non-negative), the ratio lies in [0, 1]; where the source
      is covered, it keeps exactly min(template, source) of the source's
      depth; it is 1 exactly where the template reaches the source depth, and
      0 exactly where either is 0. */
  lemma RatioMeaning(template: int, source: int)
    requires template >= 0 && source >= 0
    ensures 0.0 <= Ratio(template, source) <= 1.0
    ensures source > 0 ==>
      Ratio(template, source) * source as real == (if template < source then template else source) as real
    ensures Ratio(template, source) == 1.0 <==> source > 0 && template >= source
    ensures Ratio(template, source) == 0.0 <==> source == 0 || template == 0
  {
    if source > 0 {
      var q := template as real / source as real;
      assert q * source as real == template as real;
      if template < source {
        assert q < 1.0;
      } else {
        assert q >= 1.0;
      }
    }
  }

  /** What a ratio `r` means at a position with depths `template` and
      `source`: 0 where the source has no coverage; where it has, and the
      template depth is a depth (non-negative), a value in [0, 1] that scales
      the source depth down to min(template, source). */
  predicate ScalesTo(template: int, source: int, r: real) {
    && (source == 0 ==> r == 0.0)
    && (source > 0 && template >= 0 ==>
          0.0 <= r <= 1.0 && r * source as real == (if template < source then template else source) as real)
  }

  lemma RatioScales(template: int, source: int)
    ensures ScalesTo(template, source, Ratio(template, source))
  {
    if source > 0 && template >= 0 {
      RatioMeaning(template, source);
    }
  }

  /** `_compute_ratios`, position by position: each ratio scales the source
      depth down to the template's, capped at 1, and is 0 where the source
      has no coverage. */
  function ComputeRatios(template: seq<int>, source: seq<int>): (ratios: seq<real>)
    requires |template| == |source|
    ensures |ratios| == |template|
    ensures forall i :: 0 <= i < |ratios| ==> ScalesTo(template[i], source[i], ratios[i])
  {
    var r := seq(|template|, i requires 0 <= i < |template| => Ratio(template[i], source[i]));
    assert forall i | 0 <= i < |r| :: ScalesTo(template[i], source[i], r[i]) by {
      forall i | 0 <= i < |r| {
        RatioScales(template[i], source[i]);
      }
    }
    r
  }

  predicate InUnitInterval(xs: seq<real>) {
    forall i :: 0 <= i < |xs| ==> 0.0 <= xs[i] <= 1.0
  }

  // ---------------------------------------------------------------------------
  // Sums and the prefix sum

  function Sum(xs: seq<real>): real
    decreases |xs|
  {
    if |xs| == 0 then 0.0 else Sum(xs[..|xs| - 1]) + xs[|xs| - 1]
  }

  lemma {:induction false} SumAppend(a: seq<real>, b: seq<real>)
    ensures Sum(a + b) == Sum(a) + Sum(b)
    decreases |b|
  {
    if |b| == 0 {
      assert a + b == a;
    } else {
      var c := a + b;
      assert c[..|c| - 1] == a + b[..|b| - 1];
      SumAppend(a, b[..|b| - 1]);
    }
  }

  /** The running sums with a leading 0 (line 153): entry k is the sum of
      the first k ratios. */
  function PrefixSums(xs: seq<real>): (p: seq<real>)
    ensures |p| == |xs| + 1 && p[0] == 0.0
    decreases |xs|
  {
    if |xs| == 0 then [0.0]
    else
      var p := PrefixSums(xs[..|xs| - 1]);
      p + [p[|p| - 1] + xs[|xs| - 1]]
  }

  lemma {:induction false} PrefixSumAt(xs: seq<real>, k: nat)
    requires k <= |xs|
    ensures PrefixSums(xs)[k] == Sum(xs[..k])
    decreases |xs|
  {
    if |xs| > 0 {
      var front := xs[..|xs| - 1];
      if k < |xs| {
        PrefixSumAt(front, k);
        assert xs[..k] == front[..k];
      } else {
        PrefixSumAt(front, |front|);
        assert front[..|front|] == front;
        assert xs[..k] == xs;
      }
    }
  }

  /** A difference of two prefix sums is the sum of the slice between. */
  lemma PrefixDifference(xs: seq<real>, i: nat, j: nat)
    requires i <= j <= |xs|
    ensures PrefixSums(xs)[j] - PrefixSums(xs)[i] == Sum(xs[i..j])
  {
    PrefixSumAt(xs, i);
    PrefixSumAt(xs, j);
    SplitSum(xs[..j], i);
    assert xs[..j][..i] == xs[..i] && xs[..j][i..] == xs[i..j];
  }

  /** Cutting a sequence at `i` splits its sum. */
  lemma SplitSum(xs: seq<real>, i: nat)
    requires i <= |xs|
    ensures Sum(xs) == Sum(xs[..i]) + Sum(xs[i..])
  {
    assert xs == xs[..i] + xs[i..];
    SumAppend(xs[..i], xs[i..]);
  }

  // ---------------------------------------------------------------------------
  // Order statistics over reals

  function MinReal(xs: seq<real>): (m: real)
    requires |xs| > 0
    ensures m in xs && forall i :: 0 <= i < |xs| ==> m <= xs[i]
    decreases |xs|
  {
    if |xs| == 1 then xs[0]
    else
      var rest := MinReal(xs[1..]);
      assert xs == [xs[0]] + xs[1..];
      if xs[0] <= rest then xs[0] else rest
  }

  function MaxReal(xs: seq<real>): (m: real)
    requires |xs| > 0
    ensures m in xs && forall i :: 0 <= i < |xs| ==> xs[i] <= m
    decreases |xs|
  {
    if |xs| == 1 then xs[0]
    else
      var rest := MaxReal(xs[1..]);
      assert xs == [xs[0]] + xs[1..];
      if xs[0] >= rest then xs[0] else rest
  }

  predicate SortedReals(s: seq<real>) {
    forall i, j :: 0 <= i < j < |s| ==> s[i] <= s[j]
  }

  function Insert(x: real, s: seq<real>): (r: seq<real>)
    requires SortedReals(s)
    ensures SortedReals(r) && multiset(r) == multiset(s) + multiset{x}
    decreases |s|
  {
    if |s| == 0 then [x]
    else if x <= s[0] then
      ConsSorted(x, s);
      [x] + s
    else
      var rest := Insert(x, s[1..]);
      assert s == [s[0]] + s[1..];
      HeadBelow(s);
      BoundedByMultiset(s[0], rest, multiset(s[1..]) + multiset{x});
      ConsSorted(s[0], rest);
      [s[0]] + rest
  }

  /** A value below every element of a sorted sequence can be put in front. */
  lemma ConsSorted(h: real, t: seq<real>)
    requires SortedReals(t) && (|t| == 0 || h <= t[0])
    ensures SortedReals([h] + t)
  {
    var r := [h] + t;
    forall i, j | 0 <= i < j < |r| ensures r[i] <= r[j] {
      if i > 0 {
        assert r[i] == t[i - 1] && r[j] == t[j - 1];
      } else {
        assert t[0] <= t[j - 1];
      }
    }
  }

  /** The head of a sorted sequence is below everything after it. */
  lemma HeadBelow(s: seq<real>)
    requires SortedReals(s) && |s| > 0
    ensures forall y | y in multiset(s[1..]) :: s[0] <= y
  {
    forall y | y in multiset(s[1..]) ensures s[0] <= y {
      var k :| 0 <= k < |s[1..]| && s[1..][k] == y;
      assert s[k + 1] == y;
    }
  }

  /** A lower bound of a multiset bounds every element of a sequence with
      that multiset. */
  lemma BoundedByMultiset(h: real, t: seq<real>, m: multiset<real>)
    requires multiset(t) == m && forall y | y in m :: h <= y
    ensures |t| == 0 || h <= t[0]
  {
    if |t| > 0 {
      assert t[0] in multiset(t);
    }
  }

  /** A sorted copy, as `np.median` sorts before picking. */
  function SortReals(xs: seq<real>): (s: seq<real>)
    ensures SortedReals(s) && multiset(s) == multiset(xs)
    decreases |xs|
  {
    if |xs| == 0 then []
    else
      assert xs == [xs[0]] + xs[1..];
      Insert(xs[0], SortReals(xs[1..]))
  }

  /** `np.median`: the middle of the sorted values, or the average of the two
      middle ones for an even count. */
  function Median(xs: seq<real>): real
    requires |xs| > 0
  {
    SortedLength(xs);
    Middle(SortReals(xs))
  }

  /** The middle entry of a sequence, or the average of the two middle ones
      for an even length. */
  function Middle(s: seq<real>): real
    requires |s| > 0
  {
    var n := |s|;
    if n % 2 == 1 then s[n / 2] else (s[n / 2 - 1] + s[n / 2]) / 2.0
  }

  /** `s` is sorted, non-empty, and its ends lie within [lo, hi]. */
  predicate Bracketed(s: seq<real>, lo: real, hi: real) {
    SortedReals(s) && |s| > 0 && lo <= s[0] && s[|s| - 1] <= hi
  }

  /** The middle of a sorted sequence lies between its ends. */
  lemma MiddleBetween(s: seq<real>, lo: real, hi: real)
    requires Bracketed(s, lo, hi)
    ensures lo <= Middle(s) <= hi
  {
    var n := |s|;
    assert s[0] <= s[n / 2] <= s[n - 1];
    if n % 2 == 0 {
      assert s[0] <= s[n / 2 - 1] <= s[n - 1];
    }
  }

  /** Every element of a non-empty sequence lies between its minimum and maximum. */
  lemma ElementBetween(xs: seq<real>, x: real)
    requires x in multiset(xs)
    ensures MinReal(xs) <= x <= MaxReal(xs)
  {
    assert x in xs;
    var i :| 0 <= i < |xs| && xs[i] == x;
  }

  lemma SortedLength(xs: seq<real>)
    ensures |SortReals(xs)| == |xs|
  {
    assert |multiset(SortReals(xs))| == |multiset(xs)|;
  }

  /** The sorted copy starts at or above the minimum and ends at or below
      the maximum. */
  lemma SortedBracketed(xs: seq<real>)
    requires |xs| > 0
    ensures Bracketed(SortReals(xs), MinReal(xs), MaxReal(xs))
  {
    var s := SortReals(xs);
    SortedLength(xs);
    assert s[0] in multiset(s);
    ElementBetween(xs, s[0]);
    assert s[|s| - 1] in multiset(s);
    ElementBetween(xs, s[|s| - 1]);
  }

  /** The median lies between the minimum and the maximum. */
  lemma MedianBetween(xs: seq<real>)
    requires |xs| > 0
    ensures MinReal(xs) <= Median(xs) <= MaxReal(xs)
  {
    SortedBracketed(xs);
    MiddleBetween(SortReals(xs), MinReal(xs), MaxReal(xs));
  }

  /** `n` copies of `x` added up; kept apart from multiplication so that the
      sum bounds below stay linear. */
  function Times(n: nat, x: real): real
  {
    if n == 0 then 0.0 else Times(n - 1, x) + x
  }

  lemma {:induction false} TimesIsProduct(n: nat, x: real)
    ensures Times(n, x) == n as real * x
  {
    if n > 0 {
      TimesIsProduct(n - 1, x);
      assert n as real * x == (n - 1) as real * x + x;
    }
  }

  lemma {:induction false} TimesMonotone(n: nat, x: real, y: real)
    requires x <= y
    ensures Times(n, x) <= Times(n, y)
  {
    if n > 0 {
      TimesMonotone(n - 1, x, y);
    }
  }

  /** A sum of `n` values lies between `n` times their minimum and `n` times
      their maximum. */
  lemma {:induction false} SumBetween(xs: seq<real>)
    requires |xs| > 0
    ensures Times(|xs|, MinReal(xs)) <= Sum(xs) <= Times(|xs|, MaxReal(xs))
    decreases |xs|
  {
    var n := |xs|;
    var front := xs[..n - 1];
    if n > 1 {
      SumBetween(front);
      var lo, hi := MinReal(xs), MaxReal(xs);
      assert lo <= MinReal(front) && MaxReal(front) <= hi by {
        var i :| 0 <= i < |front| && front[i] == MinReal(front);
        var j :| 0 <= j < |front| && front[j] == MaxReal(front);
        assert xs[i] == front[i] && xs[j] == front[j];
      }
      TimesMonotone(n - 1, lo, MinReal(front));
      TimesMonotone(n - 1, MaxReal(front), hi);
    }
  }

  lemma TimesLower(n: nat, s: real, lo: real)
    requires n > 0 && Times(n, lo) <= s
    ensures lo <= s / n as real
  {
    TimesIsProduct(n, lo);
    var q := s / n as real;
    assert (q - lo) * n as real == s - n as real * lo;
    FactorNonNegative(q - lo, n as real);
  }

  lemma TimesUpper(n: nat, s: real, hi: real)
    requires n > 0 && s <= Times(n, hi)
    ensures s / n as real <= hi
  {
    TimesIsProduct(n, hi);
    var q := s / n as real;
    assert (hi - q) * n as real == hi * n as real - s;
    FactorNonNegative(hi - q, n as real);
  }

  /** The arithmetic mean lies between the minimum and the maximum. */
  lemma MeanBetween(xs: seq<real>)
    requires |xs| > 0
    ensures MinReal(xs) <= Sum(xs) / |xs| as real <= MaxReal(xs)
  {
    SumBetween(xs);
    TimesLower(|xs|, Sum(xs), MinReal(xs));
    TimesUpper(|xs|, Sum(xs), MaxReal(xs));
  }

  // ---------------------------------------------------------------------------
  // The per-read ratio statistics

  function MaxInt(a: int, b: int): int { if a >= b then a else b }
  function MinInt(a: int, b: int): int { if a <= b then a else b }

  /** `_get_mean_ratio`: over the read's span clipped to the region, the
      difference of two prefix sums divided by the clipped length; 0 when the
      clipped span is empty. */
  function MeanRatio(cumsum: seq<real>, regionStart: int, regionEnd: int, readStart: int, readEnd: int): real
    requires |cumsum| == regionEnd - regionStart + 1
  {
    var cs := MaxInt(readStart, regionStart);
    var ce := MinInt(readEnd, regionEnd);
    if cs >= ce then 0.0
    else (cumsum[ce - regionStart] - cumsum[cs - regionStart]) / (ce - cs) as real
  }

  /** The ratios of the read's span clipped to the region. */
  function Span(ratios: seq<real>, regionStart: int, regionEnd: int, readStart: int, readEnd: int): (span: seq<real>)
    requires |ratios| == regionEnd - regionStart
    ensures |span| == if MaxInt(readStart, regionStart) >= MinInt(readEnd, regionEnd) then 0
      else MinInt(readEnd, regionEnd) - MaxInt(readStart, regionStart)
  {
    var cs := MaxInt(readStart, regionStart);
    var ce := MinInt(readEnd, regionEnd);
    if cs >= ce then [] else ratios[cs - regionStart..ce - regionStart]
  }

  /** `_get_min_ratio`. */
  function MinRatio(ratios: seq<real>, regionStart: int, regionEnd: int, readStart: int, readEnd: int): real
    requires |ratios| == regionEnd - regionStart
  {
    var span := Span(ratios, regionStart, regionEnd, readStart, readEnd);
    if |span| == 0 then 0.0 else MinReal(span)
  }

  /** `_get_max_ratio`. */
  function MaxRatio(ratios: seq<real>, regionStart: int, regionEnd: int, readStart: int, readEnd: int): real
    requires |ratios| == regionEnd - regionStart
  {
    var span := Span(ratios, regionStart, regionEnd, readStart, readEnd);
    if |span| == 0 then 0.0 else MaxReal(span)
  }

  /** `_get_median_ratio`. */
  function MedianRatio(ratios: seq<real>, regionStart: int, regionEnd: int, readStart: int, readEnd: int): real
    requires |ratios| == regionEnd - regionStart
  {
    var span := Span(ratios, regionStart, regionEnd, readStart, readEnd);
    if |span| == 0 then 0.0 else Median(span)
  }

  /** The prefix-sum shortcut computes the arithmetic mean of the clipped
      span (0 when it is empty). */
  lemma MeanRatioIsSpanMean(ratios: seq<real>, regionStart: int, regionEnd: int, readStart: int, readEnd: int)
    requires |ratios| == regionEnd - regionStart
    ensures var span := Span(ratios, regionStart, regionEnd, readStart, readEnd);
      MeanRatio(PrefixSums(ratios), regionStart, regionEnd, readStart, readEnd)
        == if |span| == 0 then 0.0 else Sum(span) / |span| as real
  {
    var cs := MaxInt(readStart, regionStart);
    var ce := MinInt(readEnd, regionEnd);
    if cs < ce {
      var span := ratios[cs - regionStart..ce - regionStart];
      assert Span(ratios, regionStart, regionEnd, readStart, readEnd) == span;
      var p := PrefixSums(ratios);
      assert p[ce - regionStart] - p[cs - regionStart] == Sum(span) by {
        PrefixDifference(ratios, cs - regionStart, ce - regionStart);
      }
      MeanOfSlice(p, regionStart, regionEnd, readStart, readEnd, cs, ce, Sum(span), |span|);
    }
  }

  /** Where the read overlaps the region, the mean getter divides the
      difference of the two prefix sums by the overlap's length. */
  lemma MeanOfSlice(cumsum: seq<real>, regionStart: int, regionEnd: int, readStart: int, readEnd: int,
                    cs: int, ce: int, total: real, n: int)
    requires |cumsum| == regionEnd - regionStart + 1
    requires cs == MaxInt(readStart, regionStart) && ce == MinInt(readEnd, regionEnd) && cs < ce
    requires cumsum[ce - regionStart] - cumsum[cs - regionStart] == total && n == ce - cs
    ensures MeanRatio(cumsum, regionStart, regionEnd, readStart, readEnd) == total / n as real
  {
  }

  /** On a non-empty span of ratios in [0, 1], the minimum, median, mean and
      maximum are ordered and stay in [0, 1]. */
  lemma SpanStatisticsOrdered(span: seq<real>)
    requires |span| > 0 && InUnitInterval(span)
    ensures 0.0 <= MinReal(span) <= Median(span) <= MaxReal(span) <= 1.0
    ensures MinReal(span) <= Sum(span) / |span| as real <= MaxReal(span)
  {
    MedianBetween(span);
    MeanBetween(span);
    var i :| 0 <= i < |span| && span[i] == MinReal(span);
    var j :| 0 <= j < |span| && span[j] == MaxReal(span);
  }

  /** For the same read, the four statistics are ordered
      min <= median <= max and min <= mean <= max, and with ratios in [0, 1]
      each lies in [0, 1]. */
  lemma StatisticsOrdered(ratios: seq<real>, regionStart: int, regionEnd: int, readStart: int, readEnd: int)
    requires |ratios| == regionEnd - regionStart && InUnitInterval(ratios)
    ensures var lo := MinRatio(ratios, regionStart, regionEnd, readStart, readEnd);
      var hi := MaxRatio(ratios, regionStart, regionEnd, readStart, readEnd);
      var mean := MeanRatio(PrefixSums(ratios), regionStart, regionEnd, readStart, readEnd);
      var median := MedianRatio(ratios, regionStart, regionEnd, readStart, readEnd);
      && 0.0 <= lo <= median <= hi <= 1.0
      && lo <= mean <= hi
  {
    if MaxInt(readStart, regionStart) < MinInt(readEnd, regionEnd) {
      OverlapStatisticsOrdered(ratios, regionStart, regionEnd, readStart, readEnd);
    } else {
      EmptySpanStatistics(ratios, regionStart, regionEnd, readStart, readEnd);
    }
  }

  lemma OverlapStatisticsOrdered(ratios: seq<real>, regionStart: int, regionEnd: int, readStart: int, readEnd: int)
    requires |ratios| == regionEnd - regionStart && InUnitInterval(ratios)
    requires MaxInt(readStart, regionStart) < MinInt(readEnd, regionEnd)
    ensures var lo := MinRatio(ratios, regionStart, regionEnd, readStart, readEnd);
      var hi := MaxRatio(ratios, regionStart, regionEnd, readStart, readEnd);
      var mean := MeanRatio(PrefixSums(ratios), regionStart, regionEnd, readStart, readEnd);
      var median := MedianRatio(ratios, regionStart, regionEnd, readStart, readEnd);
      && 0.0 <= lo <= median <= hi <= 1.0
      && lo <= mean <= hi
  {
    OverlapMedianOrdered(ratios, regionStart, regionEnd, readStart, readEnd);
    OverlapMeanOrdered(ratios, regionStart, regionEnd, readStart, readEnd);
  }

  lemma OverlapMedianOrdered(ratios: seq<real>, regionStart: int, regionEnd: int, readStart: int, readEnd: int)
    requires |ratios| == regionEnd - regionStart && InUnitInterval(ratios)
    requires MaxInt(readStart, regionStart) < MinInt(readEnd, regionEnd)
    ensures 0.0 <= MinRatio(ratios, regionStart, regionEnd, readStart, readEnd)
      <= MedianRatio(ratios, regionStart, regionEnd, readStart, readEnd)
      <= MaxRatio(ratios, regionStart, regionEnd, readStart, readEnd) <= 1.0
  {
    var cs := MaxInt(readStart, regionStart);
    var ce := MinInt(readEnd, regionEnd);
    SliceInUnitInterval(ratios, cs - regionStart, ce - regionStart);
    SpanStatisticsOrdered(Span(ratios, regionStart, regionEnd, readStart, readEnd));
  }

  lemma OverlapMeanOrdered(ratios: seq<real>, regionStart: int, regionEnd: int, readStart: int, readEnd: int)
    requires |ratios| == regionEnd - regionStart
    requires MaxInt(readStart, regionStart) < MinInt(readEnd, regionEnd)
    ensures MinRatio(ratios, regionStart, regionEnd, readStart, readEnd)
      <= MeanRatio(PrefixSums(ratios), regionStart, regionEnd, readStart, readEnd)
      <= MaxRatio(ratios, regionStart, regionEnd, readStart, readEnd)
  {
    MeanRatioIsSpanMean(ratios, regionStart, regionEnd, readStart, readEnd);
    MeanBetween(Span(ratios, regionStart, regionEnd, readStart, readEnd));
  }

  /** A read that does not overlap the region gets 0 from every getter. */
  lemma EmptySpanStatistics(ratios: seq<real>, regionStart: int, regionEnd: int, readStart: int, readEnd: int)
    requires |ratios| == regionEnd - regionStart
    requires MaxInt(readStart, regionStart) >= MinInt(readEnd, regionEnd)
    ensures MinRatio(ratios, regionStart, regionEnd, readStart, readEnd) == 0.0
    ensures MaxRatio(ratios, regionStart, regionEnd, readStart, readEnd) == 0.0
    ensures MeanRatio(PrefixSums(ratios), regionStart, regionEnd, readStart, readEnd) == 0.0
    ensures MedianRatio(ratios, regionStart, regionEnd, readStart, readEnd) == 0.0
  {
  }

  lemma SliceInUnitInterval(xs: seq<real>, i: int, j: int)
    requires 0 <= i <= j <= |xs| && InUnitInterval(xs)
    ensures InUnitInterval(xs[i..j])
  {
    forall k | 0 <= k < j - i
      ensures 0.0 <= xs[i..j][k] <= 1.0
    {
      assert xs[i..j][k] == xs[i + k];
    }
  }

  /** The mean getter on a documented example: ratios 0.4 and 0.6 along the
      read give 0.5, and a read running past the region end is clipped. */
  lemma MeanRatioExamples()
    ensures MeanRatio(PrefixSums([0.2, 0.4, 0.6, 0.8]), 0, 4, 1, 3) == 0.5
    ensures MeanRatio(PrefixSums([1.0, 1.0, 1.0]), 0, 3, 1, 100) == 1.0
  {
    MeanRatioIsSpanMean([0.2, 0.4, 0.6, 0.8], 0, 4, 1, 3);
    assert [0.2, 0.4, 0.6, 0.8][1..3] == [0.4, 0.6];
    assert Sum([0.4, 0.6]) == 1.0 by { assert [0.4, 0.6][..1] == [0.4]; assert [0.4][..0] == []; }
    MeanRatioIsSpanMean([1.0, 1.0, 1.0], 0, 3, 1, 100);
    assert [1.0, 1.0, 1.0][1..3] == [1.0, 1.0];
    assert Sum([1.0, 1.0]) == 2.0 by { assert [1.0, 1.0][..1] == [1.0]; assert [1.0][..0] == []; }
  }

  /** The minimum, maximum and median getters on documented examples, and a
      read outside the region getting 0. */
  lemma RatioExamples()
    ensures MinRatio([0.1, 0.9, 0.3, 0.7], 0, 4, 1, 3) == 0.3
    ensures MaxRatio([0.1, 0.9, 0.3, 0.7], 0, 4, 2, 4) == 0.7
    ensures MedianRatio([0.2, 0.8, 0.4], 0, 3, 1, 2) == 0.8
    ensures MinRatio([0.5, 0.5], 0, 2, 5, 10) == 0.0
  {
    assert [0.1, 0.9, 0.3, 0.7][1..3] == [0.9, 0.3];
    assert [0.1, 0.9, 0.3, 0.7][2..4] == [0.3, 0.7];
    assert [0.2, 0.8, 0.4][1..2] == [0.8];
  }

  // ---------------------------------------------------------------------------
  // The stat dispatch and the keep/count loop

  datatype Stat = MeanStat | MinStat | MaxStat | MedianStat

  function ParseStat(stat: string): (s: Option<Stat>)
    ensures s.Some? <==> stat == "mean" || stat == "min" || stat == "max" || stat == "median"
  {
    if stat == "mean" then Some(MeanStat)
    else if stat == "min" then Some(MinStat)
    else if stat == "max" then Some(MaxStat)
    else if stat == "median" then Some(MedianStat)
    else None
  }

  /** The ratio lookup the dispatch selects, for a read spanning
      [readStart, readEnd). */
  function SpanRatio(stat: Stat, ratios: seq<real>, cumsum: seq<real>, regionStart: int, regionEnd: int,
                     readStart: int, readEnd: int): real
    requires |ratios| == regionEnd - regionStart && |cumsum| == |ratios| + 1
  {
    match stat
    case MeanStat => MeanRatio(cumsum, regionStart, regionEnd, readStart, readEnd)
    case MinStat => MinRatio(ratios, regionStart, regionEnd, readStart, readEnd)
    case MaxStat => MaxRatio(ratios, regionStart, regionEnd, readStart, readEnd)
    case MedianStat => MedianRatio(ratios, regionStart, regionEnd, readStart, readEnd)
  }

  /** Where every ratio of the clipped span is 0 (no overlap with the
      region, or no source coverage along the read), every statistic is 0. */
  lemma ZeroSpanZeroRatio(stat: Stat, ratios: seq<real>, regionStart: int, regionEnd: int, readStart: int, readEnd: int)
    requires |ratios| == regionEnd - regionStart
    requires forall x | x in Span(ratios, regionStart, regionEnd, readStart, readEnd) :: x == 0.0
    ensures SpanRatio(stat, ratios, PrefixSums(ratios), regionStart, regionEnd, readStart, readEnd) == 0.0
  {
    var span := Span(ratios, regionStart, regionEnd, readStart, readEnd);
    if |span| == 0 {
      EmptySpanStatistics(ratios, regionStart, regionEnd, readStart, readEnd);
    } else {
      ZeroSpanStatistics(span);
      if stat == MeanStat {
        MeanRatioIsSpanMean(ratios, regionStart, regionEnd, readStart, readEnd);
      }
    }
  }

  /** Each statistic of a non-empty span of zeros is 0. */
  predicate StatisticsZero(span: seq<real>)
    requires |span| > 0
  {
    MinReal(span) == 0.0 && MaxReal(span) == 0.0 && Median(span) == 0.0 && Sum(span) / |span| as real == 0.0
  }

  lemma ZeroSpanStatistics(span: seq<real>)
    requires |span| > 0 && forall x | x in span :: x == 0.0
    ensures StatisticsZero(span)
  {
    MedianBetween(span);
    MeanBetween(span);
  }

  predicate IsUnmapped(read: AlignedRead) {
    read.flag & Unmapped != 0
  }

  /** How a run of the sampling subcommand ends: it finishes with the reads
      written and the seen and kept counts, returns 1 for an unknown stat
      before reading anything, or raises (a mapped read whose reference end
      cannot be computed makes the span clipping fail). */
  datatype Outcome =
    | Finished(written: seq<AlignedRead>, total: nat, kept: nat)
    | UnknownStat
    | Raised(error: string)

  /** The keep test for a mapped read with a known end: its hash fraction is
      below its span's ratio. */
  predicate Keeps(read: AlignedRead, stat: Stat, ratios: seq<real>, regionStart: int, regionEnd: int, digest: Digest, seed: int)
    requires |ratios| == regionEnd - regionStart
  {
    && !IsUnmapped(read) && read.referenceEnd.Some?
    && HashFraction(digest, read.name, seed)
       < SpanRatio(stat, ratios, PrefixSums(ratios), regionStart, regionEnd, read.referenceStart, read.referenceEnd.value)
  }

  /** The error `sample_run` raises when a mapped read has no reference end:
      clipping the span takes `min(read_end, region_end)`, and `min` compares
      the region end (an `int`) with the current minimum `None` using `<`. */
  const NoEndError := "'<' not supported between instances of 'int' and 'NoneType'"

  /** One iteration of the keep/count loop on the outcome so far. */
  function SampleStep(o: Outcome, read: AlignedRead, stat: Stat, ratios: seq<real>, regionStart: int, regionEnd: int,
                      digest: Digest, seed: int): Outcome
    requires |ratios| == regionEnd - regionStart
  {
    match o
    case Finished(written, total, kept) =>
      if IsUnmapped(read) then o
      else if read.referenceEnd.None? then Raised(NoEndError)
      else if Keeps(read, stat, ratios, regionStart, regionEnd, digest, seed) then Finished(written + [read], total + 1, kept + 1)
      else Finished(written, total + 1, kept)
    case _ => o
  }

  /** The sampling loop's result after the reads `records`, in order. */
  function SampleSpec(records: seq<AlignedRead>, stat: Stat, ratios: seq<real>, regionStart: int, regionEnd: int,
                      digest: Digest, seed: int): (o: Outcome)
    requires |ratios| == regionEnd - regionStart
    ensures o.Finished? || o.Raised?
    decreases |records|
  {
    if |records| == 0 then Finished([], 0, 0)
    else
      SampleStep(SampleSpec(records[..|records| - 1], stat, ratios, regionStart, regionEnd, digest, seed),
                 records[|records| - 1], stat, ratios, regionStart, regionEnd, digest, seed)
  }

  /** Once raised, the outcome is final: the rest of the reads do not change it. */
  lemma {:induction false} RaisedSticks(records: seq<AlignedRead>, k: nat, stat: Stat, ratios: seq<real>,
                                        regionStart: int, regionEnd: int, digest: Digest, seed: int)
    requires |ratios| == regionEnd - regionStart && k <= |records|
    requires SampleSpec(records[..k], stat, ratios, regionStart, regionEnd, digest, seed).Raised?
    ensures SampleSpec(records, stat, ratios, regionStart, regionEnd, digest, seed)
      == SampleSpec(records[..k], stat, ratios, regionStart, regionEnd, digest, seed)
    decreases |records| - k
  {
    if k < |records| {
      assert records[..k + 1][..k] == records[..k];
      RaisedSticks(records, k + 1, stat, ratios, regionStart, regionEnd, digest, seed);
    } else {
      assert records[..k] == records;
    }
  }

  lemma SampleSpecSnoc(records: seq<AlignedRead>, k: nat, stat: Stat, ratios: seq<real>, regionStart: int,
                       regionEnd: int, digest: Digest, seed: int)
    requires |ratios| == regionEnd - regionStart && k < |records|
    ensures SampleSpec(records[..k + 1], stat, ratios, regionStart, regionEnd, digest, seed)
      == SampleStep(SampleSpec(records[..k], stat, ratios, regionStart, regionEnd, digest, seed),
                    records[k], stat, ratios, regionStart, regionEnd, digest, seed)
  {
    assert records[..k + 1][..k] == records[..k];
  }

  /** For a mapped read with a known end, the keep test compares the hash
      fraction with the ratio the dispatch selects. */
  lemma KeepsIs(read: AlignedRead, stat: Stat, ratios: seq<real>, regionStart: int, regionEnd: int,
                digest: Digest, seed: int, fraction: real, ratio: real)
    requires |ratios| == regionEnd - regionStart
    requires !IsUnmapped(read) && read.referenceEnd.Some?
    requires fraction == HashFraction(digest, read.name, seed)
    requires ratio == SpanRatio(stat, ratios, PrefixSums(ratios), regionStart, regionEnd, read.referenceStart, read.referenceEnd.value)
    ensures Keeps(read, stat, ratios, regionStart, regionEnd, digest, seed) <==> fraction < ratio
  {
  }

  /** The keep test inside the loop of `sample_run` for a mapped read with a
      known end: the read's hash fraction against the ratio of its span. */
  method KeepTest(read: AlignedRead, stat: Stat, ratios: seq<real>, cumsum: seq<real>, regionStart: int, regionEnd: int,
                  digest: Digest, seed: int) returns (keep: bool)
    requires |ratios| == regionEnd - regionStart && cumsum == PrefixSums(ratios)
    requires !IsUnmapped(read) && read.referenceEnd.Some?
    ensures keep == Keeps(read, stat, ratios, regionStart, regionEnd, digest, seed)
  {
    var fraction := HashFraction(digest, read.name, seed);
    var ratio := SpanRatio(stat, ratios, cumsum, regionStart, regionEnd, read.referenceStart, read.referenceEnd.value);
    KeepsIs(read, stat, ratios, regionStart, regionEnd, digest, seed, fraction, ratio);
    keep := fraction < ratio;
  }

  /** The statistics are ordered (min <= mean, median <= max), so the keep
      test is monotone in the statistic chosen: a read kept under "min" is
      kept under every statistic, and a read kept under any statistic is kept
      under "max". */
  lemma KeepsOrderedByStat(read: AlignedRead, stat: Stat, ratios: seq<real>, regionStart: int, regionEnd: int,
                           digest: Digest, seed: int)
    requires |ratios| == regionEnd - regionStart && InUnitInterval(ratios)
    ensures Keeps(read, MinStat, ratios, regionStart, regionEnd, digest, seed)
        ==> Keeps(read, stat, ratios, regionStart, regionEnd, digest, seed)
    ensures Keeps(read, stat, ratios, regionStart, regionEnd, digest, seed)
        ==> Keeps(read, MaxStat, ratios, regionStart, regionEnd, digest, seed)
  {
    if read.referenceEnd.Some? {
      StatisticsOrdered(ratios, regionStart, regionEnd, read.referenceStart, read.referenceEnd.value);
    }
  }

  /** An unmapped read is skipped: it is neither counted nor written. */
  lemma UnmappedStep(o: Outcome, read: AlignedRead, stat: Stat, ratios: seq<real>, regionStart: int, regionEnd: int,
                     digest: Digest, seed: int)
    requires |ratios| == regionEnd - regionStart
    requires o.Finished? && IsUnmapped(read)
    ensures SampleStep(o, read, stat, ratios, regionStart, regionEnd, digest, seed) == o
  {
  }

  /** A mapped read without a reference end makes the span clipping raise. */
  lemma NoEndStep(o: Outcome, read: AlignedRead, stat: Stat, ratios: seq<real>, regionStart: int, regionEnd: int,
                  digest: Digest, seed: int)
    requires |ratios| == regionEnd - regionStart
    requires o.Finished? && !IsUnmapped(read) && read.referenceEnd.None?
    ensures SampleStep(o, read, stat, ratios, regionStart, regionEnd, digest, seed) == Raised(NoEndError)
  {
  }

  /** A mapped read with a known end is counted, and written and counted as
      kept exactly when the keep test passes. */
  lemma MappedStep(o: Outcome, read: AlignedRead, stat: Stat, ratios: seq<real>, regionStart: int, regionEnd: int,
                   digest: Digest, seed: int, keep: bool)
    requires |ratios| == regionEnd - regionStart
    requires o.Finished? && !IsUnmapped(read) && read.referenceEnd.Some?
    requires keep == Keeps(read, stat, ratios, regionStart, regionEnd, digest, seed)
    ensures SampleStep(o, read, stat, ratios, regionStart, regionEnd, digest, seed)
      == if keep then Finished(o.written + [read], o.total + 1, o.kept + 1) else Finished(o.written, o.total + 1, o.kept)
  {
  }

  /** One iteration of the keep/count loop of `sample_run`: an unmapped read
      is skipped; a mapped read is counted, raises when it has no reference
      end, and is written and counted as kept when the keep test passes. */
  method ProcessRead(written: seq<AlignedRead>, total: nat, kept: nat, read: AlignedRead, stat: Stat, ratios: seq<real>,
                     cumsum: seq<real>, regionStart: int, regionEnd: int, digest: Digest, seed: int)
    returns (raised: bool, written': seq<AlignedRead>, total': nat, kept': nat)
    requires |ratios| == regionEnd - regionStart && cumsum == PrefixSums(ratios)
    ensures SampleStep(Finished(written, total, kept), read, stat, ratios, regionStart, regionEnd, digest, seed)
      == if raised then Raised(NoEndError) else Finished(written', total', kept')
  {
    if IsUnmapped(read) {
      UnmappedStep(Finished(written, total, kept), read, stat, ratios, regionStart, regionEnd, digest, seed);
      raised, written', total', kept' := false, written, total, kept;
    } else if read.referenceEnd.None? {
      NoEndStep(Finished(written, total, kept), read, stat, ratios, regionStart, regionEnd, digest, seed);
      raised, written', total', kept' := true, written, total + 1, kept;
    } else {
      var keep := KeepTest(read, stat, ratios, cumsum, regionStart, regionEnd, digest, seed);
      MappedStep(Finished(written, total, kept), read, stat, ratios, regionStart, regionEnd, digest, seed, keep);
      if keep {
        raised, written', total', kept' := false, written + [read], total + 1, kept + 1;
      } else {
        raised, written', total', kept' := false, written, total + 1, kept;
      }
    }
  }

  /** The stat dispatch and the keep/count loop of `sample_run`, over the
      reads the region fetch yields: an unknown stat returns before any read
      is looked at; unmapped reads are skipped without being counted; every
      other read is counted, and written and counted as kept iff its hash
      fraction is below its span's ratio. */
  method SampleRun(records: seq<AlignedRead>, ratios: seq<real>, regionStart: int, regionEnd: int,
                   stat: string, digest: Digest, seed: int) returns (o: Outcome)
    requires |ratios| == regionEnd - regionStart
    ensures ParseStat(stat).None? ==> o == UnknownStat
    ensures ParseStat(stat).Some? ==>
      o == SampleSpec(records, ParseStat(stat).value, ratios, regionStart, regionEnd, digest, seed)
  {
    var cumsum := PrefixSums(ratios);
    var parsed := ParseStat(stat);
    if parsed.None? {
      return UnknownStat;
    }
    var st := parsed.value;
    var written: seq<AlignedRead> := [];
    var total: nat := 0;
    var kept: nat := 0;
    var k := 0;
    while k < |records|
      invariant 0 <= k <= |records|
      invariant SampleSpec(records[..k], st, ratios, regionStart, regionEnd, digest, seed) == Finished(written, total, kept)
    {
      var read := records[k];
      SampleSpecSnoc(records, k, st, ratios, regionStart, regionEnd, digest, seed);
      var raised;
      raised, written, total, kept := ProcessRead(written, total, kept, read, st, ratios, cumsum, regionStart, regionEnd, digest, seed);
      if raised {
        RaisedSticks(records, k + 1, st, ratios, regionStart, regionEnd, digest, seed);
        return Raised(NoEndError);
      }
      k := k + 1;
    }
    assert records[..k] == records;
    return Finished(written, total, kept);
  }

  // ---------------------------------------------------------------------------
  // What the loop computes

  /** The reads that pass the keep test, in input order. */
  function KeptReads(records: seq<AlignedRead>, stat: Stat, ratios: seq<real>, regionStart: int, regionEnd: int,
                     digest: Digest, seed: int): seq<AlignedRead>
    requires |ratios| == regionEnd - regionStart
    decreases |records|
  {
    if |records| == 0 then []
    else
      var read := records[|records| - 1];
      KeptReads(records[..|records| - 1], stat, ratios, regionStart, regionEnd, digest, seed)
      + (if Keeps(read, stat, ratios, regionStart, regionEnd, digest, seed) then [read] else [])
  }

  /** The number of mapped records. */
  function MappedCount(records: seq<AlignedRead>): nat
    decreases |records|
  {
    if |records| == 0 then 0
    else MappedCount(records[..|records| - 1]) + (if IsUnmapped(records[|records| - 1]) then 0 else 1)
  }

  predicate HasMappedWithoutEnd(records: seq<AlignedRead>) {
    exists i :: 0 <= i < |records| && !IsUnmapped(records[i]) && records[i].referenceEnd.None?
  }

  lemma HasMappedWithoutEndAppend(records: seq<AlignedRead>, read: AlignedRead)
    ensures HasMappedWithoutEnd(records + [read])
      <==> HasMappedWithoutEnd(records) || (!IsUnmapped(read) && read.referenceEnd.None?)
  {
    var all := records + [read];
    if HasMappedWithoutEnd(records) {
      var i :| 0 <= i < |records| && !IsUnmapped(records[i]) && records[i].referenceEnd.None?;
      assert all[i] == records[i];
    }
    if HasMappedWithoutEnd(all) {
      var i :| 0 <= i < |all| && !IsUnmapped(all[i]) && all[i].referenceEnd.None?;
      if i < |records| {
        assert all[i] == records[i];
      }
    }
    if !IsUnmapped(read) && read.referenceEnd.None? {
      assert all[|records|] == read;
    }
  }

  /** What a run's outcome means for the reads it looked at: it raised iff
      some mapped read has no reference end; otherwise it has written exactly
      the reads that pass the keep test, in source order, counted every
      mapped read and no unmapped one, and the kept count is the number
      written, at most the seen count. */
  predicate Explains(o: Outcome, records: seq<AlignedRead>, stat: Stat, ratios: seq<real>, regionStart: int,
                     regionEnd: int, digest: Digest, seed: int)
    requires |ratios| == regionEnd - regionStart
  {
    && (o.Raised? <==> HasMappedWithoutEnd(records))
    && (o.Finished? ==>
          && o.written == KeptReads(records, stat, ratios, regionStart, regionEnd, digest, seed)
          && o.total == MappedCount(records)
          && o.kept == |o.written| <= o.total <= |records|)
  }

  lemma {:induction false} SampleMeaning(records: seq<AlignedRead>, stat: Stat, ratios: seq<real>, regionStart: int,
                                         regionEnd: int, digest: Digest, seed: int)
    requires |ratios| == regionEnd - regionStart
    ensures Explains(SampleSpec(records, stat, ratios, regionStart, regionEnd, digest, seed),
                     records, stat, ratios, regionStart, regionEnd, digest, seed)
    decreases |records|
  {
    if |records| > 0 {
      var front := records[..|records| - 1];
      var read := records[|records| - 1];
      assert records == front + [read];
      SampleMeaning(front, stat, ratios, regionStart, regionEnd, digest, seed);
      ExplainsStep(front, read, stat, ratios, regionStart, regionEnd, digest, seed);
    }
  }

  /** One more read keeps the outcome explained. */
  lemma ExplainsStep(front: seq<AlignedRead>, read: AlignedRead, stat: Stat, ratios: seq<real>, regionStart: int,
                     regionEnd: int, digest: Digest, seed: int)
    requires |ratios| == regionEnd - regionStart
    requires Explains(SampleSpec(front, stat, ratios, regionStart, regionEnd, digest, seed),
                      front, stat, ratios, regionStart, regionEnd, digest, seed)
    ensures Explains(SampleSpec(front + [read], stat, ratios, regionStart, regionEnd, digest, seed),
                     front + [read], stat, ratios, regionStart, regionEnd, digest, seed)
  {
    var all := front + [read];
    assert all[..|all| - 1] == front && all[|all| - 1] == read;
    HasMappedWithoutEndAppend(front, read);
  }

  /** A read whose span's ratio is 0 is never kept, since hash fractions are
      never negative; and with ratios at most 1 a read whose digest is the
      largest 32-bit value is never kept either, even where the template asks
      for every read. */
  lemma NeverKept(read: AlignedRead, stat: Stat, ratios: seq<real>, regionStart: int, regionEnd: int, digest: Digest, seed: int)
    requires |ratios| == regionEnd - regionStart && InUnitInterval(ratios)
    requires read.referenceEnd.Some?
    requires SpanRatio(stat, ratios, PrefixSums(ratios), regionStart, regionEnd, read.referenceStart, read.referenceEnd.value) == 0.0
             || digest(read.name, seed) == 0xFFFF_FFFF
    ensures !Keeps(read, stat, ratios, regionStart, regionEnd, digest, seed)
  {
    StatisticsOrdered(ratios, regionStart, regionEnd, read.referenceStart, read.referenceEnd.value);
  }
}
