# samsamplex core, modelled in Dafny

samsamplex downsamples a BAM file so that its per-position read depth follows
the depth profile of a template. The core modelled here is:

- the depth layer (`depth.py`): parsing a samtools-style region string,
  resolving a contig name against the BAM header, and counting per-position
  depth from the alignments that `fetch` yields;
- the BED layer (`bed.py`): the relaxed contig-name match, writing a depth
  array as BED (per base, or collapsed into runs within a tolerance), reading
  BED depths back into an array, and combining several arrays position by
  position (`min`, `max`, `mean`, `random`);
- the sampler (`sample.py`): the per-read hash fraction, the per-position
  keep ratios, their prefix sums, the four statistics a read's span can be
  summarised by (mean, min, max, median), the choice among them, and the loop
  that keeps a read when its hash fraction is below its span's ratio;
- the comparison metrics (`metrics.py`): the Wasserstein distance between
  normalised cumulative profiles and the mean absolute difference;
- the plot data (`plot.py`): the step size picked from region length, the
  strided downsampling of positions and depths, and the rows of the TSV file.

One Dafny module per source file: `Depth`, `Bed`, `Sample`, `Metrics`,
`Plot`. Three helper modules support them: `Wrappers` (Option, Result),
`Text` (the part of Python's `str(int)`, `int(str)`, `split("\t")` and
`split()` the core relies on) and `Reals` (small facts about real division).
Output streams (BED lines, TSV lines, the reads written to the output BAM)
become returned sequences. Alignment records become `AlignedRead` values.
The BAM header becomes a map from contig name to length. The xxh32 digest and
Python's `random.Random` become function parameters (`Digest`, `RandInt`).
Depths are unbounded integers. Ratios, means and metrics are exact reals.

## Model

| member | source | states |
|---|---|---|
| Depth.RegionParse | samsamplex/depth.py:36-50 | a parsed region's contig is a non-empty, colon-free prefix of the input; its start and end are never below the whole-contig marker -1 |
| Depth.RegionParseAccepts | samsamplex/depth.py:42-44 | parsing succeeds exactly when the string matches `^([^:]+)(?::(\d+)(?:-(\d+))?)?$`, with `\d` read as `[0-9]`, and where `$` may also match before one final newline |
| Depth.CoordTextIff | samsamplex/depth.py:42 | the text after the colon is accepted exactly when it is `S` or `S-E` with decimal S and E |
| Depth.ParseCoordsIff | samsamplex/depth.py:42 | the coordinate part is accepted exactly when it is coordinate text, possibly followed by one newline |
| Depth.RegionParseStartEnd | samsamplex/depth.py:45-50 | `contig:S-E` parses to the 0-based half-open region (S-1, E) |
| Depth.RegionParseStartOnly | samsamplex/depth.py:45-50 | `contig:S` parses to start S-1 with the end left as whole contig (-1) |
| Depth.RegionParseContigOnly | samsamplex/depth.py:45-50 | a bare colon-free contig parses to the whole contig (-1, -1) |
| Depth.StartZeroIsWholeContig | samsamplex/depth.py:47 | start 0 becomes -1, so `contig:0` means the same as `contig` |
| Depth.RegionParseExamples | samsamplex/depth.py:36-50 | `chr1`, `chr1:1000` and `chr1:1000-2000` parse to (-1,-1), (999,-1) and (999,2000) |
| Depth.RegionParseRejects | samsamplex/depth.py:43-44 | an empty string or one starting with a colon is rejected |
| Depth.ResolveContigName | samsamplex/depth.py:53-74 | the name itself when the header has it; otherwise its one `chr` alternative when the header has that; otherwise nothing; a result is always in the header |
| Depth.CoverageAppend | samsamplex/depth.py:112-127 | a position's depth over a concatenation of record streams is the sum of their depths |
| Depth.CoverageAtMostReads | samsamplex/depth.py:112-127 | a position's depth never exceeds the number of records, and is 0 when no record covers it |
| Depth.CountCoverage | samsamplex/depth.py:110-127 | the whole counting loop leaves at each position of the clamped region the number of qualifying records (no unmapped, secondary, QC-fail or duplicate flag; known end) whose span contains it |
| Depth.DepthFromBam | samsamplex/depth.py:85-129 | fails when the contig does not resolve or the clamped start exceeds the clamped end; otherwise returns the resolved name, the clamped bounds (negative start to 0; negative or too large end to the contig length) and the coverage at every position |
| Bed.ContigNamesMatchIsEquivalence | samsamplex/bed.py:14-19 | two names match exactly when they are equal after dropping one leading `chr`; the match is reflexive, symmetric and transitive |
| Bed.ContigNamesMatchExamples | samsamplex/bed.py:14-19 | `chr1`/`1` and `chrX`/`X` match both ways; `chr1`/`chr2` do not |
| Bed.ResolveFindsEveryMatch | samsamplex/depth.py:53-74 | if any header name matches the contig under the relaxed match, resolution finds a name |
| Bed.ResolvedNameMatches | samsamplex/depth.py:53-74 | the resolved name matches the contig under the relaxed match unless the contig starts with `chrchr` |
| Bed.ResolutionAndMatchDisagree | samsamplex/depth.py:67-72 | resolution maps `chrchr1` to a header's `chr1`, which the relaxed match rejects |
| Bed.WriteBedOutput | samsamplex/bed.py:30-56 | the lines written are the formatted records of the array's encoding: nothing for an empty array, per base when collapse is 0, collapsed runs for any other collapse |
| Bed.WritePerBase | samsamplex/bed.py:41-44 | one line per position: contig, start+i, start+i+1, depth |
| Bed.WriteCollapsed | samsamplex/bed.py:45-56 | the run-collapsing loop writes exactly the records of the collapsing encoder, where a run breaks when a depth differs from the run's FIRST depth by more than collapse |
| Bed.CollapsedShape | samsamplex/bed.py:45-56 | collapsed records tile the region in order, neighbours' depths differ by more than collapse, and every record is within collapse of each depth it covers |
| Bed.NegativeCollapseIsPerBase | samsamplex/bed.py:41-56 | a negative tolerance breaks at every position, so the collapsing encoder produces the per-base records |
| Bed.ParseLine | samsamplex/bed.py:73-86 | empty and `#` lines are skipped; the fields are the tab split when it has at least four, else the whitespace words; fewer than four fields skip the line; a non-integer among fields 1-3 fails; otherwise the record is (field 0, int field 1, int field 2, int field 3) |
| Bed.ApplyEntry | samsamplex/bed.py:88-96 | writing a record into the array sets every covered position of the region to the record's depth and leaves the rest as it was |
| Bed.BedReadDepths | samsamplex/bed.py:62-98 | fails when the region is reversed or a line cannot be read; otherwise returns the region with the depths decoded from the lines |
| Bed.DecodeIsLastCover | samsamplex/bed.py:72-96 | decoding succeeds exactly when every line parses, and then each position holds the depth of the LAST record on a matching contig that covers it, or 0 |
| Bed.DecodeFailureSticks | samsamplex/bed.py:72-96 | once a prefix of the file fails to read, the whole file does |
| Bed.ParseFormatEntry | samsamplex/bed.py:25-27 | a written line (contig without tab or line break, not starting with `#`) reads back as the record it came from |
| Bed.ParseLinesOfLines | samsamplex/bed.py:25-27 | a whole file of written records reads back as the same records in order |
| Bed.PerBaseRoundTrip | samsamplex/bed.py:41-44 | reading back per-base output over the same region gives the original depths |
| Bed.CollapsedRoundTrip | samsamplex/bed.py:45-56 | reading back collapsed output gives, at every position, a depth within collapse of the original |
| Bed.ParseCombineMode | samsamplex/bed.py:123-141 | exactly `min`, `max`, `mean` and `random` are known modes |
| Bed.BedCombineDepths | samsamplex/bed.py:104-144 | no arrays fails; one array is returned as is; arrays of unequal length or an unknown mode fail; a result keeps the first array's contig, bounds and length |
| Bed.CombineMinMax | samsamplex/bed.py:123-126 | `min` (`max`) gives at each position a value that one of the arrays has there and that is below (above) every array's value |
| Bed.CombineMean | samsamplex/bed.py:127-128 | `mean` gives the floor of the positional average, which lies between the positional min and max |
| Bed.CombineRandom | samsamplex/bed.py:129-139 | with a draw that stays in its bounds, `random` gives at each position a value between the positional min and max |
| Bed.RandomPickAgreeing | samsamplex/bed.py:133-138 | at every position where min equals max the value is that common value, whatever the generator |
| Bed.RandomPickNoDraw | samsamplex/bed.py:133-138 | positions where min equals max take no draw: a prefix of them leaves the generator state unchanged for the rest |
| Bed.CombineIdentical | samsamplex/bed.py:104-144 | combining copies of one array under any known mode gives that array |
| Sample.HashFraction | samsamplex/sample.py:24-27 | the fraction lies in [0, 1] and is 1 exactly for the maximal 32-bit digest |
| Sample.RatioMeaning | samsamplex/sample.py:33-41 | a position's ratio lies in [0, 1], scales the source depth to min(template, source), is 1 exactly where the template reaches a covered source, and 0 exactly where either depth is 0 |
| Sample.ComputeRatios | samsamplex/sample.py:33-41 | one ratio per position: 0 where the source depth is 0; where it is positive (and the template depth non-negative), a value in [0, 1] that scales the source depth to min(template, source) |
| Sample.PrefixDifference | samsamplex/sample.py:153 | the difference of two prefix sums is the sum of the ratios between them |
| Sample.MeanRatioIsSpanMean | samsamplex/sample.py:44-54 | the prefix-sum mean equals the arithmetic mean of the read's span clipped to the region, and 0 for an empty clip |
| Sample.MedianBetween | samsamplex/sample.py:77-84 | the median (middle element, or mean of the two middle ones, of the sorted span) lies between the span's min and max |
| Sample.SortReals | samsamplex/sample.py:77-84 | sorting yields an ordered permutation of the span |
| Sample.StatisticsOrdered | samsamplex/sample.py:44-84 | for ratios in [0, 1]: 0 <= min <= median <= max <= 1 and min <= mean <= max over any read span |
| Sample.EmptySpanStatistics | samsamplex/sample.py:44-84 | a read outside the region gets 0 under every statistic |
| Sample.ZeroSpanZeroRatio | samsamplex/sample.py:44-84 | a span of zero ratios gives 0 under every statistic |
| Sample.MeanRatioExamples | samsamplex/sample.py:44-54 | the mean over [0.2,0.4,0.6,0.8] for span 1..3 is 0.5; a span beyond the region end is clipped |
| Sample.RatioExamples | samsamplex/sample.py:57-84 | min, max and median examples over clipped spans, and 0 for a span outside the region |
| Sample.ParseStat | samsamplex/sample.py:156-166 | exactly `mean`, `min`, `max` and `median` are known statistics |
| Sample.KeepsOrderedByStat | samsamplex/sample.py:156-182 | for ratios in [0, 1], a read kept under `min` is kept under every statistic, and a read kept under any statistic is kept under `max` |
| Sample.SampleRun | samsamplex/sample.py:156-186 | an unknown statistic returns before reading; otherwise the loop's outcome is the step-by-step specification of the stream |
| Sample.SampleMeaning | samsamplex/sample.py:171-186 | a finished run has seen exactly the mapped reads, written exactly the kept ones in stream order, and counted them; it raises exactly when a mapped read has no reference end |
| Sample.RaisedSticks | samsamplex/sample.py:176-182 | once the run raises, later reads change nothing |
| Sample.NeverKept | samsamplex/sample.py:179-182 | a read whose span ratio is 0, or whose digest is maximal, is never kept |
| Metrics.TotalVariationMeaning | samsamplex/metrics.py:47-52 | the mean absolute difference is symmetric, non-negative and 0 exactly for equal arrays |
| Metrics.TotalVariationExamples | samsamplex/metrics.py:47-52 | two worked values: 5.0 and 1.25 |
| Metrics.CdfShape | samsamplex/metrics.py:19-44 | for non-negative depths the normalised cumulative profile is non-decreasing and within [0, 1], and all 0 when the total is 0 |
| Metrics.WassersteinMeaning | samsamplex/metrics.py:19-44 | the distance is symmetric, non-negative, 0 for an array with itself, and 0 exactly when the profiles coincide or the arrays are empty |
| Metrics.WassersteinInUnitInterval | samsamplex/metrics.py:19-44 | for depth arrays the distance lies in [0, 1] |
| Metrics.WassersteinExample | samsamplex/metrics.py:19-44 | flat [10,10,10] against [0,0,30] gives 0.25 |
| Metrics.MetricsCalculate | samsamplex/metrics.py:55-65 | fails exactly when the two arrays have different lengths |
| Metrics.MetricsMeaning | samsamplex/metrics.py:55-65 | the result is symmetric, zero for an array with itself, and has a positive total variation exactly when the depths differ |
| Plot.PickStepTiers | samsamplex/plot.py:15-29 | step 1 up to 10 kb, then 10, 100, 1000 up to 100 kb, 1 Mb, 10 Mb, and 5000 beyond |
| Plot.PickStepMonotone | samsamplex/plot.py:24-29 | the step is positive and never shrinks as the region grows |
| Plot.ArangeMembers | samsamplex/plot.py:34 | the stride holds exactly the numbers from start below stop that are a multiple of step from start |
| Plot.DownsampleIndicesMeaning | samsamplex/plot.py:32-37 | kept indices start at 0, end at the last position, increase strictly, and are exactly the multiples of step plus the last index |
| Plot.DownsampleIndicesStepOne | samsamplex/plot.py:32-37 | step 1 keeps every index |
| Plot.DownsampleCoIndexed | samsamplex/plot.py:32-37 | positions and every array are sampled at the same kept indices |
| Plot.DownsampleStepOne | samsamplex/plot.py:32-37 | step 1 returns the inputs unchanged |
| Plot.WriteTsv | samsamplex/plot.py:43-60 | the lines written are the header then, for each kept index k in order, the row for 1-based position start+1+k with the three depths at k |
| Plot.TsvLineAt | samsamplex/plot.py:58-60 | the line after the header for the i-th kept index k holds position start+1+k and the three depths at k |
| Plot.TsvRowRoundTrip | samsamplex/plot.py:58-60 | a data row splits on tabs into four fields that parse back to the position and the three depths |
| Text.ParseIntOfIntToString | samsamplex/bed.py:25-27 | an integer written in decimal reads back as the same integer |
| Text.SplitOnJoin | samsamplex/bed.py:25-27 | splitting a tab-joined line gives back its fields when none holds a tab |
| Text.WordsKeepAllText | samsamplex/bed.py:78-79 | whitespace splitting loses exactly the whitespace |

## Left out

- The BAM and BED files themselves: `fetch` becomes the sequence of records it yields for the region, the header a map from name to length, a BED file its lines without terminators, and each output stream a returned sequence. Opening, indexing and sorting files, and the warnings about them, are left out.
- The xxh32 hash is a `Digest` parameter and Python's Mersenne Twister a `RandInt` parameter that threads its state; their internals are left out.
- Floating point: ratios, means and metrics are exact reals, so IEEE rounding is left out.
- numpy's 32-bit depth arrays: depths are unbounded integers, so int32 overflow is left out.
- Python's `int()` also accepts underscores between digits and non-ASCII digits; the model accepts ASCII digits with optional sign and surrounding whitespace only.
- Depth.RegionParseAccepts: reads the region pattern's `\d` as `[0-9]`; Python's `\d` on a str also matches every Unicode decimal digit (which `int()` then accepts), so a region such as `chr1:` followed by Arabic-Indic digits parses in the source and is rejected here.
- Logging, the progress lines every million reads, `metrics_print`, `write_png` and the matplotlib figure, `plot_run` and the command line are outside this model. `get_contig_length` is not modelled; `DepthFromBam` looks the length up in the header map.
- The region resolution and depth computation inside `sample_run` are left out. `Sample.SampleRun` starts from the ratios, the region with a negative start or end filled in (start 0, end the contig length) and the record stream. `sample_run` does not clamp an end beyond the contig.
- `Depth.CountCoverage` is the whole counting loop of `depth_from_bam`. `Sample.ProcessRead` is one iteration of the loop of `sample_run`, and `Sample.KeepTest` the keep decision inside it. Each is split out as a method of its own.
- Sample.HashFraction: the docstring promises [0, 1), but dividing by `UINT32_MAX` gives exactly 1.0 for the maximal digest; the model follows the code.
- Bed.ResolvedNameMatches: requires that the contig does not start with `chrchr`, because resolution and the relaxed match disagree there (see `Bed.ResolutionAndMatchDisagree`).
- Sample.ComputeRatios: requires template and source of equal length. The mismatch is reachable: `sample_run` reads the templates over the region end as given, while `depth_from_bam` clamps the end to the contig length, so a region ending past the contig gives a longer template array. numpy then raises, or broadcasts when one array has length 1; the model represents neither.
- Metrics.TotalVariation and Metrics.Wasserstein: require equal lengths, which `metrics_calculate` checks before calling them.
- Metrics.MetricsCalculate: requires arrays whose depth count equals their length, as every array the core builds has.
- Plot.Downsample, Plot.TsvLines and Plot.WriteTsv: require at least one position; the source raises an IndexError on an empty region, and the model does not represent that error.
- Plot.WriteTsv: the model writes one row per kept index of the source array; it does not model a template or output array shorter than the source.
