/** The downsampling helpers and the TSV writer of the plot subcommand:
    samsamplex/plot.py. */
module Plot {
  import opened Wrappers
  import opened Text
  import opened Depth

  // ---------------------------------------------------------------------------
  // _pick_step

  /** A downsampling tier: regions of at most `threshold` positions are
      drawn every `step`-th position. */
  datatype Tier = Tier(threshold: int, step: int)

  /** `DOWNSAMPLE_TIERS`, searched in order. */
  const DownsampleTiers: seq<Tier> := [Tier(10_000, 1), Tier(100_000, 10), Tier(1_000_000, 100), Tier(10_000_000, 1000)]

  /** `DOWNSAMPLE_FALLBACK_STEP`, for regions beyond every threshold. */
  const DownsampleFallbackStep: int := 5000

  /** The step of the first tier whose threshold admits `n`, or `fallback`. */
  function FirstTier(tiers: seq<Tier>, n: int, fallback: int): int
    decreases |tiers|
  {
    if |tiers| == 0 then fallback
    else if n <= tiers[0].threshold then tiers[0].step
    else FirstTier(tiers[1..], n, fallback)
  }

  /** A table whose thresholds and steps both grow, with every step positive
      and at most the fallback. */
  predicate Ascending(tiers: seq<Tier>, fallback: int) {
    && (forall i :: 0 <= i < |tiers| ==> 1 <= tiers[i].step <= fallback)
    && (forall i, j :: 0 <= i < j < |tiers| ==>
          tiers[i].threshold < tiers[j].threshold && tiers[i].step <= tiers[j].step)
  }

  /** Over an ascending table the search gives a positive step that never
      shrinks as the region grows. */
  lemma {:induction false} FirstTierMonotone(tiers: seq<Tier>, fallback: int, n: int, m: int)
    requires Ascending(tiers, fallback) && fallback >= 1 && n <= m
    ensures 1 <= FirstTier(tiers, n, fallback) <= FirstTier(tiers, m, fallback) <= fallback
    decreases |tiers|
  {
    if |tiers| > 0 {
      var rest := tiers[1..];
      assert Ascending(rest, fallback) by {
        forall i | 0 <= i < |rest| ensures 1 <= rest[i].step <= fallback {
          assert rest[i] == tiers[i + 1];
        }
        forall i, j | 0 <= i < j < |rest|
          ensures rest[i].threshold < rest[j].threshold && rest[i].step <= rest[j].step
        {
          assert rest[i] == tiers[i + 1] && rest[j] == tiers[j + 1];
        }
      }
      FirstTierMonotone(rest, fallback, n, m);
      if |rest| > 0 {
        FirstTierAtLeast(rest, fallback, tiers[0].step, m);
      }
    }
  }

  /** Every step the search can reach in a table is at least a bound that
      all its steps and the fallback meet. */
  lemma {:induction false} FirstTierAtLeast(tiers: seq<Tier>, fallback: int, bound: int, n: int)
    requires forall i :: 0 <= i < |tiers| ==> bound <= tiers[i].step
    requires bound <= fallback
    ensures bound <= FirstTier(tiers, n, fallback)
    decreases |tiers|
  {
    if |tiers| > 0 && n > tiers[0].threshold {
      var rest := tiers[1..];
      forall i | 0 <= i < |rest| ensures bound <= rest[i].step {
        assert rest[i] == tiers[i + 1];
      }
      FirstTierAtLeast(rest, fallback, bound, n);
    }
  }

  /** `_pick_step`. */
  function PickStep(n: int): int {
    FirstTier(DownsampleTiers, n, DownsampleFallbackStep)
  }

  /** The tier table as documented: every base up to 10 kb, then every 10th,
      100th and 1000th base up to 100 kb, 1 Mb and 10 Mb, then every 5000th. */
  lemma PickStepTiers(n: int)
    ensures n <= 10_000 ==> PickStep(n) == 1
    ensures 10_000 < n <= 100_000 ==> PickStep(n) == 10
    ensures 100_000 < n <= 1_000_000 ==> PickStep(n) == 100
    ensures 1_000_000 < n <= 10_000_000 ==> PickStep(n) == 1000
    ensures 10_000_000 < n ==> PickStep(n) == 5000
  {
    var t := DownsampleTiers;
    assert t[1..] == [Tier(100_000, 10), Tier(1_000_000, 100), Tier(10_000_000, 1000)];
    assert t[1..][1..] == [Tier(1_000_000, 100), Tier(10_000_000, 1000)];
    assert t[1..][1..][1..] == [Tier(10_000_000, 1000)];
    assert t[1..][1..][1..][1..] == [];
  }

  /** `_pick_step` is at least 1 and never decreases as the region grows. */
  lemma PickStepMonotone(n: int, m: int)
    requires n <= m
    ensures 1 <= PickStep(n) <= PickStep(m)
  {
    FirstTierMonotone(DownsampleTiers, DownsampleFallbackStep, n, m);
  }

  // ---------------------------------------------------------------------------
  // _downsample

  /** `np.arange(start, stop, step)` for a positive step. */
  function Arange(start: int, stop: int, step: int): (r: seq<int>)
    requires step >= 1
    ensures forall i :: 0 <= i < |r| ==> start <= r[i] < stop
    ensures start < stop ==> |r| > 0 && r[0] == start
    decreases stop - start
  {
    if start >= stop then [] else [start] + Arange(start + step, stop, step)
  }

  predicate StrictlyIncreasing(xs: seq<int>) {
    forall i, j :: 0 <= i < j < |xs| ==> xs[i] < xs[j]
  }

  lemma {:induction false} ArangeIncreasing(start: int, stop: int, step: int)
    requires step >= 1
    ensures StrictlyIncreasing(Arange(start, stop, step))
    decreases stop - start
  {
    if start < stop {
      var r := Arange(start, stop, step);
      var rest := Arange(start + step, stop, step);
      ArangeIncreasing(start + step, stop, step);
      assert r == [start] + rest;
      forall i, j | 0 <= i < j < |r| ensures r[i] < r[j] {
        if i > 0 {
          assert r[i] == rest[i - 1] && r[j] == rest[j - 1];
        } else {
          assert r[j] == rest[j - 1];
        }
      }
    }
  }

  /** The members of the range are the values from `start` below `stop` that
      are a whole number of steps past `start`. */
  lemma {:induction false} ArangeMembers(start: int, stop: int, step: int, k: int)
    requires step >= 1
    ensures k in Arange(start, stop, step) <==> start <= k < stop && (k - start) % step == 0
    decreases stop - start
  {
    if start < stop {
      ArangeMembers(start + step, stop, step, k);
      if start < k < start + step {
        assert (k - start) % step == k - start;
      } else if k >= start + step {
        assert (k - start) % step == (k - start - step) % step by {
          ModSubtract(k - start, step);
        }
      }
    } else if start <= k < stop {
      assert false;
    }
  }

  lemma ModSubtract(x: int, step: int)
    requires step >= 1 && x >= step
    ensures x % step == (x - step) % step
  {
    var q, r := x / step, x % step;
    var q', r' := (x - step) / step, (x - step) % step;
    assert x == q * step + r && 0 <= r < step;
    assert x - step == q' * step + r' && 0 <= r' < step;
    assert (q - 1 - q') * step == r' - r;
    MultipleInsideStep(q - 1 - q', step, r' - r);
  }

  /** The only multiple of s strictly between -s and s is 0. */
  lemma MultipleInsideStep(d: int, s: int, e: int)
    requires s >= 1 && d * s == e && -s < e < s
    ensures d == 0
  {
  }

  /** The index list of `_downsample` over `n` positions: every `step`-th index
      from 0, and the last index appended when it is not already there. */
  function DownsampleIndices(n: int, step: int): (idx: seq<int>)
    requires n >= 1 && step >= 1
    ensures |idx| > 0
  {
    var r := Arange(0, n, step);
    if r[|r| - 1] != n - 1 then r + [n - 1] else r
  }

  /** The index list starts at 0, ends at n - 1, strictly increases, and holds
      exactly the multiples of the step below n together with n - 1. */
  lemma DownsampleIndicesMeaning(n: int, step: int)
    requires n >= 1 && step >= 1
    ensures var idx := DownsampleIndices(n, step);
      && idx[0] == 0 && idx[|idx| - 1] == n - 1
      && StrictlyIncreasing(idx)
      && forall k :: k in idx <==> (0 <= k < n && k % step == 0) || k == n - 1
  {
    var r := Arange(0, n, step);
    var idx := DownsampleIndices(n, step);
    ArangeIncreasing(0, n, step);
    forall k ensures k in r <==> 0 <= k < n && k % step == 0 {
      ArangeMembers(0, n, step, k);
    }
    if r[|r| - 1] != n - 1 {
      assert idx == r + [n - 1];
      forall i, j | 0 <= i < j < |idx| ensures idx[i] < idx[j] {
        if j == |r| {
          assert idx[i] == r[i];
        }
      }
    }
  }

  /** With step 1 the index list is every index, so `_downsample` keeps
      everything. */
  lemma DownsampleIndicesStepOne(n: int)
    requires n >= 1
    ensures DownsampleIndices(n, 1) == seq(n, i => i)
  {
    var idx := DownsampleIndices(n, 1);
    DownsampleIndicesMeaning(n, 1);
    IncreasingCoversRange(idx, n);
  }

  /** A strictly increasing sequence of indices below n that contains every
      index below n is exactly 0, 1, ..., n - 1. */
  lemma IncreasingCoversRange(idx: seq<int>, n: int)
    requires n >= 1 && StrictlyIncreasing(idx)
    requires forall k :: k in idx <==> 0 <= k < n
    ensures idx == seq(n, i => i)
  {
    forall i | 0 <= i < n ensures i < |idx| && idx[i] == i {
      IdentityPrefix(idx, n, i);
    }
    var m := |idx|;
    IdentityPrefix(idx, n, n - 1);
    forall k | 0 <= k < m ensures idx[k] >= 0 {
      assert idx[k] in idx;
    }
    AtLeastPosition(idx, m - 1);
    assert idx[m - 1] in idx;
  }

  lemma {:induction false} IdentityPrefix(idx: seq<int>, n: int, i: int)
    requires StrictlyIncreasing(idx)
    requires forall k :: k in idx <==> 0 <= k < n
    requires 0 <= i < n
    ensures i < |idx| && idx[i] == i
    decreases i
  {
    assert i in idx;
    var j :| 0 <= j < |idx| && idx[j] == i;
    if i == 0 {
      assert idx[0] in idx;
      assert idx[0] <= idx[j];
    } else {
      IdentityPrefix(idx, n, i - 1);
      assert j >= i;
      assert idx[i] in idx;
      assert idx[i - 1] < idx[i] <= idx[j];
    }
  }

  lemma {:induction false} AtLeastPosition(idx: seq<int>, i: int)
    requires 0 <= i < |idx| && StrictlyIncreasing(idx)
    requires forall k :: 0 <= k < |idx| ==> idx[k] >= 0
    ensures idx[i] >= i
    decreases i
  {
    if i > 0 {
      AtLeastPosition(idx, i - 1);
    }
  }

  /** `a[idx]`: the entries of `xs` at the given indices. */
  function Select(xs: seq<int>, idx: seq<int>): seq<int>
    requires forall i :: 0 <= i < |idx| ==> 0 <= idx[i] < |xs|
  {
    seq(|idx|, i requires 0 <= i < |idx| => xs[idx[i]])
  }

  /** `_downsample`: one index list, computed from the length of `positions`,
      applied to the positions and to every other array. */
  function Downsample(positions: seq<int>, arrays: seq<seq<int>>, step: int): (out: seq<seq<int>>)
    requires |positions| >= 1 && step >= 1
    requires forall j :: 0 <= j < |arrays| ==> |arrays[j]| >= |positions|
    ensures |out| == |arrays| + 1
  {
    var idx := DownsampleIndices(|positions|, step);
    DownsampleIndicesMeaning(|positions|, step);
    assert forall i :: 0 <= i < |idx| ==> idx[i] in idx;
    var all := [positions] + arrays;
    seq(|all|, j requires 0 <= j < |all| => Select(all[j], idx))
  }

  /** Every output is co-indexed: the same length, the index list's length,
      and its i-th entry comes from the i-th kept index. */
  lemma DownsampleCoIndexed(positions: seq<int>, arrays: seq<seq<int>>, step: int)
    requires |positions| >= 1 && step >= 1
    requires forall j :: 0 <= j < |arrays| ==> |arrays[j]| >= |positions|
    ensures var idx := DownsampleIndices(|positions|, step);
      var out := Downsample(positions, arrays, step);
      && (forall j :: 0 <= j < |out| ==> |out[j]| == |idx|)
      && (forall i :: 0 <= i < |idx| ==> 0 <= idx[i] < |positions| && out[0][i] == positions[idx[i]])
      && (forall j, i :: 0 <= j < |arrays| && 0 <= i < |idx| ==> out[j + 1][i] == arrays[j][idx[i]])
  {
    var idx := DownsampleIndices(|positions|, step);
    DownsampleIndicesMeaning(|positions|, step);
    assert forall i :: 0 <= i < |idx| ==> idx[i] in idx;
    var all := [positions] + arrays;
    forall j | 0 <= j < |arrays| ensures all[j + 1] == arrays[j] {
    }
  }

  /** With step 1 and arrays as long as the positions, `_downsample` returns
      its inputs unchanged. */
  lemma DownsampleStepOne(positions: seq<int>, arrays: seq<seq<int>>)
    requires |positions| >= 1
    requires forall j :: 0 <= j < |arrays| ==> |arrays[j]| == |positions|
    ensures Downsample(positions, arrays, 1) == [positions] + arrays
  {
    var n := |positions|;
    DownsampleIndicesStepOne(n);
    var idx := DownsampleIndices(n, 1);
    var all := [positions] + arrays;
    var out := Downsample(positions, arrays, 1);
    forall j | 0 <= j < |all| ensures out[j] == all[j] {
      assert |all[j]| == n;
      assert out[j] == Select(all[j], idx);
    }
  }

  // ---------------------------------------------------------------------------
  // write_tsv

  const TsvHeader: string := "position\tsource_depth\ttemplate_depth\toutput_depth"

  /** One data row: the 1-based position and the three depths, tab-separated. */
  function TsvRow(position: int, source: int, template: int, output: int): string {
    Join([IntToString(position), IntToString(source), IntToString(template), IntToString(output)], '\t')
  }

  /** What `write_tsv` writes, line by line without the newlines: the header,
      then for each kept index k, in order, the row for position
      `regionStart + 1 + k` with the three depths at k. */
  function TsvLines(regionStart: int, source: seq<int>, template: seq<int>, output: seq<int>, step: int): (lines: seq<string>)
    requires |source| >= 1 && step >= 1 && |template| >= |source| && |output| >= |source|
    ensures |lines| == 1 + |DownsampleIndices(|source|, step)|
  {
    var idx := DownsampleIndices(|source|, step);
    DownsampleIndicesMeaning(|source|, step);
    assert forall i :: 0 <= i < |idx| ==> idx[i] in idx;
    [TsvHeader] + seq(|idx|, i requires 0 <= i < |idx| =>
      TsvRow(regionStart + 1 + idx[i], source[idx[i]], template[idx[i]], output[idx[i]]))
  }

  /** `write_tsv`: downsamples the positions and the three depth arrays with
      one index list and writes the header and one row per kept index. */
  method WriteTsv(regionStart: int, source: DepthArray, template: DepthArray, output: DepthArray, step: int)
    returns (lines: seq<string>)
    requires source.Valid() && source.Length() >= 1 && step >= 1
    requires |template.depths| >= source.Length() && |output.depths| >= source.Length()
    ensures lines == TsvLines(regionStart, source.depths, template.depths, output.depths, step)
  {
    var n := source.Length();
    var positions := seq(n, i => i);
    var ds := Downsample(positions, [source.depths, template.depths, output.depths], step);
    DownsampleCoIndexed(positions, [source.depths, template.depths, output.depths], step);
    ghost var idx := DownsampleIndices(n, step);
    ghost var spec := TsvLines(regionStart, source.depths, template.depths, output.depths, step);
    var dsPos, dsSrc, dsTpl, dsOut := ds[0], ds[1], ds[2], ds[3];
    lines := [TsvHeader];
    var i := 0;
    while i < |dsPos|
      invariant 0 <= i <= |dsPos| == |idx|
      invariant lines == spec[..i + 1]
    {
      var position := regionStart + 1 + dsPos[i];
      TsvLineAt(regionStart, source.depths, template.depths, output.depths, step, i,
                dsPos[i], dsSrc[i], dsTpl[i], dsOut[i]);
      assert spec[..i + 2] == spec[..i + 1] + [spec[i + 1]];
      lines := lines + [TsvRow(position, dsSrc[i], dsTpl[i], dsOut[i])];
      i := i + 1;
    }
  }

  /** Line `i + 1` of the output is the row for the i-th kept index. */
  lemma TsvLineAt(regionStart: int, source: seq<int>, template: seq<int>, output: seq<int>, step: int, i: int,
                  k: int, s: int, t: int, o: int)
    requires |source| >= 1 && step >= 1 && |template| >= |source| && |output| >= |source|
    requires 0 <= i < |DownsampleIndices(|source|, step)|
    requires k == DownsampleIndices(|source|, step)[i]
    requires 0 <= k < |source| && s == source[k] && t == template[k] && o == output[k]
    ensures TsvLines(regionStart, source, template, output, step)[i + 1] == TsvRow(regionStart + 1 + k, s, t, o)
  {
  }

  /** Each field parses back to the integer at the same place. */
  predicate FieldsParseTo(fields: seq<string>, values: seq<int>) {
    |fields| == |values| && forall i :: 0 <= i < |fields| ==> ParseInt(fields[i]) == Some(values[i])
  }

  /** Each data row splits on tabs into four fields that parse back to the
      position and the three depths. */
  lemma TsvRowRoundTrip(position: int, source: int, template: int, output: int)
    ensures FieldsParseTo(SplitOn(TsvRow(position, source, template, output), '\t'), [position, source, template, output])
  {
    var values := [position, source, template, output];
    var parts := [IntToString(position), IntToString(source), IntToString(template), IntToString(output)];
    IntToStringFree(position, '\t');
    IntToStringFree(source, '\t');
    IntToStringFree(template, '\t');
    IntToStringFree(output, '\t');
    ParseIntOfIntToString(position);
    ParseIntOfIntToString(source);
    ParseIntOfIntToString(template);
    ParseIntOfIntToString(output);
    FourFields(parts, values, '\t');
    SplitOnJoin(parts, '\t');
  }

  /** Four fields, each free of the separator and parsing to its value. */
  lemma FourFields(parts: seq<string>, values: seq<int>, sep: char)
    requires |parts| == 4 && |values| == 4
    requires sep !in parts[0] && sep !in parts[1] && sep !in parts[2] && sep !in parts[3]
    requires ParseInt(parts[0]) == Some(values[0]) && ParseInt(parts[1]) == Some(values[1])
    requires ParseInt(parts[2]) == Some(values[2]) && ParseInt(parts[3]) == Some(values[3])
    ensures FieldsParseTo(parts, values) && forall i :: 0 <= i < |parts| ==> sep !in parts[i]
  {
    forall i | 0 <= i < 4 ensures sep !in parts[i] && ParseInt(parts[i]) == Some(values[i]) {
      assert i == 0 || i == 1 || i == 2 || i == 3;
    }
  }
}
