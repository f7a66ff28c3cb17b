/** The BED4 codec and the combination of several template depth arrays:
    samsamplex/bed.py. */
module Bed {
  import opened Wrappers
  import opened Text
  import opened Depth

  // ---------------------------------------------------------------------------
  // contig_names_match

  /** A contig name without one leading "chr". */
  function StripChr(name: string): string {
    if HasChrPrefix(name) then name[3..] else name
  }

  /** `contig_names_match`: equal names, or equal once a leading "chr" is
      dropped from each name that has one. */
  predicate ContigNamesMatch(name1: string, name2: string) {
    name1 == name2 || StripChr(name1) == StripChr(name2)
  }

  /** The relaxed match is "same name up to one leading chr", hence an
      equivalence: reflexive, symmetric and transitive. */
  lemma ContigNamesMatchIsEquivalence(a: string, b: string, c: string)
    ensures ContigNamesMatch(a, b) <==> StripChr(a) == StripChr(b)
    ensures ContigNamesMatch(a, a)
    ensures ContigNamesMatch(a, b) ==> ContigNamesMatch(b, a)
    ensures ContigNamesMatch(a, b) && ContigNamesMatch(b, c) ==> ContigNamesMatch(a, c)
  {
  }

  /** The documented examples: chr1 ~ 1, chrX ~ X, but not chr1 ~ chr2. */
  lemma ContigNamesMatchExamples()
    ensures ContigNamesMatch("chr1", "1") && ContigNamesMatch("1", "chr1")
    ensures ContigNamesMatch("chrX", "X") && ContigNamesMatch("X", "X")
    ensures !ContigNamesMatch("chr1", "chr2")
  {
    assert StripChr("chr1") == "1";
    assert StripChr("chr2") == "2";
    assert StripChr("chrX") == "X";
    assert !HasChrPrefix("1") && !HasChrPrefix("X");
  }

  /** Header resolution finds a name whenever the header holds one that
      matches the requested contig under the relaxed rule. */
  lemma ResolveFindsEveryMatch(references: set<string>, contig: string, x: string)
    requires x in references && ContigNamesMatch(x, contig)
    ensures ResolveContigName(references, contig).Some?
  {
    if contig !in references {
      if !HasChrPrefix(contig) && HasChrPrefix(x) {
        assert x == "chr" + contig;
      }
    }
  }

  /** What header resolution returns matches the requested contig under the
      relaxed rule, unless the name starts with "chr" twice. */
  lemma ResolvedNameMatches(references: set<string>, contig: string)
    requires ResolveContigName(references, contig).Some?
    requires !(HasChrPrefix(contig) && HasChrPrefix(contig[3..]))
    ensures ContigNamesMatch(ResolveContigName(references, contig).value, contig)
  {
    var alt := ChrAlternative(contig);
    if !HasChrPrefix(contig) {
      assert alt[..3] == "chr" && alt[3..] == contig;
    }
  }

  /** The two relaxations disagree on doubled prefixes: "chrchr1" resolves to
      a header's "chr1", which `contig_names_match` does not accept. */
  lemma ResolutionAndMatchDisagree()
    ensures ResolveContigName({"chr1"}, "chrchr1") == Some("chr1")
    ensures !ContigNamesMatch("chrchr1", "chr1")
  {
    assert HasChrPrefix("chrchr1") && "chrchr1"[3..] == "chr1";
    assert StripChr("chr1") == "1";
  }

  // ---------------------------------------------------------------------------
  // Writing

  /** One BED4 record: a contig, a 0-based half-open interval and a depth. */
  datatype BedEntry = BedEntry(chrom: string, start: int, end: int, depth: int)

  /** The line `write_bed_entry` writes (without its newline). */
  function FormatEntry(e: BedEntry): string {
    Join([e.chrom, IntToString(e.start), IntToString(e.end), IntToString(e.depth)], '\t')
  }

  function Lines(entries: seq<BedEntry>): (lines: seq<string>)
    ensures |lines| == |entries|
  {
    seq(|entries|, j requires 0 <= j < |entries| => FormatEntry(entries[j]))
  }

  function Abs(x: int): nat {
    if x < 0 then -x else x
  }

  /** The records of the collapsing encoder for `arr`: the open interval
      starts at index `anchor` and indices before `i` have been scanned. An
      index opens a new interval when its depth differs from the depth at the
      interval's FIRST index (not its neighbour's) by more than `k`. */
  function Collapsed(arr: DepthArray, k: int, anchor: nat, i: nat): seq<BedEntry>
    requires arr.Valid() && anchor < i <= |arr.depths|
    decreases |arr.depths| - i
  {
    var d := arr.depths;
    if i == |d| then [BedEntry(arr.contig, arr.start + anchor, arr.end, d[anchor])]
    else if Abs(d[i] - d[anchor]) > k then
      [BedEntry(arr.contig, arr.start + anchor, arr.start + i, d[anchor])] + Collapsed(arr, k, i, i + 1)
    else Collapsed(arr, k, anchor, i + 1)
  }

  /** One record per position. */
  function PerBase(arr: DepthArray): seq<BedEntry>
    requires arr.Valid()
  {
    seq(|arr.depths|, i requires 0 <= i < |arr.depths| =>
      BedEntry(arr.contig, arr.start + i, arr.start + i + 1, arr.depths[i]))
  }

  /** The records `write_bed_output` writes for `arr`: one per position when
      `collapse` is 0, the collapsed intervals otherwise, nothing when empty. */
  function EncodeEntries(arr: DepthArray, collapse: int): seq<BedEntry>
    requires arr.Valid()
  {
    if arr.Length() == 0 then []
    else if collapse == 0 then PerBase(arr)
    else Collapsed(arr, collapse, 0, 1)
  }

  /** `write_bed_output`: the lines written for `arr` are the formatted
      records of its encoding. */
  method WriteBedOutput(arr: DepthArray, collapse: int) returns (lines: seq<string>)
    requires arr.Valid()
    ensures lines == Lines(EncodeEntries(arr, collapse))
  {
    if arr.end - arr.start == 0 {
      lines := [];
    } else if collapse == 0 {
      lines := WritePerBase(arr);
    } else {
      lines := WriteCollapsed(arr, collapse);
    }
  }

  /** The per-position branch of `write_bed_output`. */
  method WritePerBase(arr: DepthArray) returns (lines: seq<string>)
    requires arr.Valid()
    ensures lines == Lines(PerBase(arr))
  {
    var n := arr.end - arr.start;
    lines := [];
    var i := 0;
    while i < n
      invariant 0 <= i <= n
      invariant lines == Lines(PerBase(arr)[..i])
    {
      var pos := arr.start + i;
      lines := lines + [FormatEntry(BedEntry(arr.contig, pos, pos + 1, arr.depths[i]))];
      i := i + 1;
    }
    assert PerBase(arr)[..n] == PerBase(arr);
  }

  /** One step of the collapsing scan keeps "records closed so far, then the
      records of the rest" equal to the whole encoding: a depth too far from
      the anchor's closes the open interval. */
  lemma CollapsedClose(arr: DepthArray, k: int, done: seq<BedEntry>, anchor: nat, i: nat)
    requires arr.Valid() && anchor < i < |arr.depths|
    requires done + Collapsed(arr, k, anchor, i) == Collapsed(arr, k, 0, 1)
    requires Abs(arr.depths[i] - arr.depths[anchor]) > k
    ensures (done + [BedEntry(arr.contig, arr.start + anchor, arr.start + i, arr.depths[anchor])]) + Collapsed(arr, k, i, i + 1)
        == Collapsed(arr, k, 0, 1)
  {
    var e := BedEntry(arr.contig, arr.start + anchor, arr.start + i, arr.depths[anchor]);
    var rest := Collapsed(arr, k, i, i + 1);
    assert Collapsed(arr, k, anchor, i) == [e] + rest;
    assert done + ([e] + rest) == (done + [e]) + rest;
  }

  /** A depth close to the anchor's extends the open interval. */
  lemma CollapsedExtend(arr: DepthArray, k: int, done: seq<BedEntry>, anchor: nat, i: nat)
    requires arr.Valid() && anchor < i < |arr.depths|
    requires done + Collapsed(arr, k, anchor, i) == Collapsed(arr, k, 0, 1)
    requires Abs(arr.depths[i] - arr.depths[anchor]) <= k
    ensures done + Collapsed(arr, k, anchor, i + 1) == Collapsed(arr, k, 0, 1)
  {
  }

  lemma LinesAppend(entries: seq<BedEntry>, e: BedEntry)
    ensures Lines(entries + [e]) == Lines(entries) + [FormatEntry(e)]
  {
  }

  /** The collapsing branch of `write_bed_output`: an interval stays open
      while depths stay within `collapse` of its first depth. */
  method WriteCollapsed(arr: DepthArray, collapse: int) returns (lines: seq<string>)
    requires arr.Valid() && |arr.depths| > 0
    ensures lines == Lines(Collapsed(arr, collapse, 0, 1))
  {
    var n := arr.end - arr.start;
    lines := [];
    var intervalStart := arr.start;
    var intervalDepth := arr.depths[0];
    ghost var written: seq<BedEntry> := [];
    ghost var anchor: nat := 0;
    var i := 1;
    while i < n
      invariant anchor < i <= n
      invariant intervalStart == arr.start + anchor && intervalDepth == arr.depths[anchor]
      invariant written + Collapsed(arr, collapse, anchor, i) == Collapsed(arr, collapse, 0, 1)
      invariant lines == Lines(written)
    {
      var current := arr.depths[i];
      if Abs(current - intervalDepth) > collapse {
        var e := BedEntry(arr.contig, intervalStart, arr.start + i, intervalDepth);
        CollapsedClose(arr, collapse, written, anchor, i);
        LinesAppend(written, e);
        lines := lines + [FormatEntry(e)];
        written := written + [e];
        intervalStart := arr.start + i;
        intervalDepth := current;
        anchor := i;
      } else {
        CollapsedExtend(arr, collapse, written, anchor, i);
      }
      i := i + 1;
    }
    var e := BedEntry(arr.contig, intervalStart, arr.end, intervalDepth);
    assert Collapsed(arr, collapse, anchor, n) == [e];
    LinesAppend(written, e);
    lines := lines + [FormatEntry(e)];
  }

  // ---------------------------------------------------------------------------
  // What the encoding means

  /** `es` lays out the contig `contig` over [from, to): consecutive,
      non-empty, touching intervals, the first starting at `from` and the
      last ending at `to`. */
  predicate Tiles(es: seq<BedEntry>, contig: string, from: int, to: int)
    decreases |es|
  {
    && |es| >= 1
    && es[0].chrom == contig && es[0].start == from && from < es[0].end
    && (if |es| == 1 then es[0].end == to else Tiles(es[1..], contig, es[0].end, to))
  }

  /** Each interval's depth differs from the previous interval's by more
      than `k`. */
  predicate Breaks(es: seq<BedEntry>, k: int)
    decreases |es|
  {
    |es| <= 1 || (Abs(es[1].depth - es[0].depth) > k && Breaks(es[1..], k))
  }

  lemma {:induction false} TilesBounds(es: seq<BedEntry>, contig: string, from: int, to: int)
    requires Tiles(es, contig, from, to)
    ensures forall j :: 0 <= j < |es| ==> from <= es[j].start < es[j].end <= to && es[j].chrom == contig
    decreases |es|
  {
    if |es| > 1 {
      TilesBounds(es[1..], contig, es[0].end, to);
      assert forall j :: 1 <= j < |es| ==> es[j] == es[1..][j - 1];
    }
  }

  /** Every position of a tiled range lies in one of the intervals. */
  lemma {:induction false} TilesFind(es: seq<BedEntry>, contig: string, from: int, to: int, pos: int) returns (j: nat)
    requires Tiles(es, contig, from, to) && from <= pos < to
    ensures j < |es| && es[j].start <= pos < es[j].end
    decreases |es|
  {
    if pos < es[0].end {
      j := 0;
    } else {
      var j' := TilesFind(es[1..], contig, es[0].end, to, pos);
      j := j' + 1;
    }
  }

  /** The per-position records tile the array's range, one position each,
      each carrying that position's depth. */
  lemma PerBaseTiles(arr: DepthArray)
    requires arr.Valid() && |arr.depths| > 0
    ensures Tiles(PerBase(arr), arr.contig, arr.start, arr.end)
    ensures forall q :: 0 <= q < |arr.depths| ==>
      PerBase(arr)[q].start == arr.start + q && PerBase(arr)[q].depth == arr.depths[q]
  {
    PerBaseTilesFrom(arr, 0);
  }

  lemma {:induction false} PerBaseTilesFrom(arr: DepthArray, q: nat)
    requires arr.Valid() && q < |arr.depths|
    ensures Tiles(PerBase(arr)[q..], arr.contig, arr.start + q, arr.end)
    decreases |arr.depths| - q
  {
    var es := PerBase(arr)[q..];
    if q + 1 < |arr.depths| {
      PerBaseTilesFrom(arr, q + 1);
      assert es[1..] == PerBase(arr)[q + 1..];
    }
  }

  /** Every position an interval of `es` covers has a depth within `k` of
      the interval's depth. */
  ghost predicate Approximates(es: seq<BedEntry>, arr: DepthArray, k: int) {
    forall j, q :: 0 <= j < |es| && 0 <= q < |arr.depths| && es[j].start <= arr.start + q < es[j].end ==>
      Abs(arr.depths[q] - es[j].depth) <= k
  }

  /** The shape of the collapsed records from index `from` on: they tile
      the rest of the range, neighbours differ by more than `k`, the first
      carries the depth at `from`, and every record approximates the depths
      it covers within `k`. */
  ghost predicate Shaped(es: seq<BedEntry>, arr: DepthArray, k: int, from: nat) {
    && from < |arr.depths|
    && Tiles(es, arr.contig, arr.start + from, arr.end)
    && Breaks(es, k)
    && es[0].depth == arr.depths[from]
    && Approximates(es, arr, k)
  }

  /** The collapsed records tile the array's range from `anchor`, each
      carrying the depth at its first position, every depth inside an
      interval within `k` of it, and each interval's depth more than `k`
      from the previous one's: the intervals are the maximal runs that stay
      within `k` of their first depth. */
  lemma {:induction false} CollapsedShape(arr: DepthArray, k: int, anchor: nat, i: nat)
    requires arr.Valid() && anchor < i <= |arr.depths| && k >= 0
    requires forall q :: anchor <= q < i ==> Abs(arr.depths[q] - arr.depths[anchor]) <= k
    ensures Shaped(Collapsed(arr, k, anchor, i), arr, k, anchor)
    decreases |arr.depths| - i
  {
    var d := arr.depths;
    if i == |d| {
    } else if Abs(d[i] - d[anchor]) > k {
      var rest := Collapsed(arr, k, i, i + 1);
      CollapsedShape(arr, k, i, i + 1);
      assert Collapsed(arr, k, anchor, i) == [BedEntry(arr.contig, arr.start + anchor, arr.start + i, d[anchor])] + rest;
      ConsShape(arr, k, anchor, i, rest);
    } else {
      CollapsedShape(arr, k, anchor, i + 1);
    }
  }

  /** Closing the interval opened at `anchor` in front of the intervals
      that follow keeps the shape of the encoding. */
  lemma ConsShape(arr: DepthArray, k: int, anchor: nat, i: nat, rest: seq<BedEntry>)
    requires arr.Valid() && anchor < i < |arr.depths| && k >= 0
    requires forall q :: anchor <= q < i ==> Abs(arr.depths[q] - arr.depths[anchor]) <= k
    requires Abs(arr.depths[i] - arr.depths[anchor]) > k
    requires Shaped(rest, arr, k, i)
    ensures Shaped([BedEntry(arr.contig, arr.start + anchor, arr.start + i, arr.depths[anchor])] + rest, arr, k, anchor)
  {
    var d := arr.depths;
    var es := [BedEntry(arr.contig, arr.start + anchor, arr.start + i, d[anchor])] + rest;
    assert es[1..] == rest;
    TilesBounds(rest, arr.contig, arr.start + i, arr.end);
    forall j, q | 0 <= j < |es| && 0 <= q < |d| && es[j].start <= arr.start + q < es[j].end
      ensures Abs(d[q] - es[j].depth) <= k
    {
      if j > 0 {
        assert es[j] == rest[j - 1];
      }
    }
  }

  /** With a negative threshold every position opens its own interval, as
      in the per-position mode. */
  lemma {:induction false} NegativeCollapseIsPerBase(arr: DepthArray, k: int, anchor: nat)
    requires arr.Valid() && anchor < |arr.depths| && k < 0
    ensures Collapsed(arr, k, anchor, anchor + 1) == PerBase(arr)[anchor..]
    decreases |arr.depths| - anchor
  {
    if anchor + 1 < |arr.depths| {
      NegativeCollapseIsPerBase(arr, k, anchor + 1);
      assert PerBase(arr)[anchor..] == [PerBase(arr)[anchor]] + PerBase(arr)[anchor + 1..];
    }
  }

  // ---------------------------------------------------------------------------
  // Reading

  /** How `bed_read_depths` reads one line (without its newline): skipped
      (blank, a comment, or fewer than four fields), an entry, or an error
      when a coordinate or the depth is not an integer. Fields are split on
      tabs, or on any whitespace when that gives fewer than four. */
  function ParseLine(line: string): (r: Result<Option<BedEntry>>)
    ensures |line| == 0 || line[0] == '#' ==> r == Success(None)
    ensures |line| > 0 && line[0] != '#' ==>
      var f := if |SplitOn(line, '\t')| >= 4 then SplitOn(line, '\t') else Words(line);
      && (|f| < 4 ==> r == Success(None))
      && (|f| >= 4 && (ParseInt(f[1]).None? || ParseInt(f[2]).None? || ParseInt(f[3]).None?) ==> r.Failure?)
      && (|f| >= 4 && ParseInt(f[1]).Some? && ParseInt(f[2]).Some? && ParseInt(f[3]).Some? ==>
            r == Success(Some(BedEntry(f[0], ParseInt(f[1]).value, ParseInt(f[2]).value, ParseInt(f[3]).value))))
  {
    if |line| == 0 || line[0] == '#' then Success(None) else ParseFields(Fields(line))
  }

  /** The fields of a line: split on tabs, or on runs of whitespace when the
      tabs give fewer than four. */
  function Fields(line: string): seq<string> {
    var tabbed := SplitOn(line, '\t');
    if |tabbed| < 4 then Words(line) else tabbed
  }

  /** A record from the first four fields; fewer fields are skipped. */
  function ParseFields(parts: seq<string>): Result<Option<BedEntry>> {
    if |parts| < 4 then Success(None)
    else if ParseInt(parts[1]).None? || ParseInt(parts[2]).None? || ParseInt(parts[3]).None? then
      Failure("invalid literal for int()")
    else Success(Some(BedEntry(parts[0], ParseInt(parts[1]).value, ParseInt(parts[2]).value, ParseInt(parts[3]).value)))
  }

  /** The entries of a file's lines in file order, or the first error. */
  function ParseLines(lines: seq<string>): Result<seq<BedEntry>>
    decreases |lines|
  {
    if |lines| == 0 then Success([])
    else match ParseLines(lines[..|lines| - 1])
      case Failure(msg) => Failure(msg)
      case Success(es) =>
        match ParseLine(lines[|lines| - 1])
        case Failure(msg) => Failure(msg)
        case Success(None) => Success(es)
        case Success(Some(e)) => Success(es + [e])
  }

  /** `e` applies to position `pos` of the queried contig. */
  predicate Covers(e: BedEntry, contig: string, pos: int) {
    ContigNamesMatch(e.chrom, contig) && e.start <= pos < e.end
  }

  /** The depth of the LAST entry that applies to `pos`, if any. */
  function LastCover(es: seq<BedEntry>, contig: string, pos: int): Option<int>
    decreases |es|
  {
    if |es| == 0 then None
    else match LastCover(es[1..], contig, pos)
      case Some(v) => Some(v)
      case None => if Covers(es[0], contig, pos) then Some(es[0].depth) else None
  }

  /** The slice assignment of one entry: the positions of the region that
      the entry covers get its depth; the others keep theirs. */
  function Overwrite(depths: seq<int>, e: BedEntry, contig: string, regionStart: int): (r: seq<int>)
    ensures |r| == |depths|
    ensures forall q :: 0 <= q < |depths| ==> r[q] == if Covers(e, contig, regionStart + q) then e.depth else depths[q]
  {
    seq(|depths|, q requires 0 <= q < |depths| =>
      if Covers(e, contig, regionStart + q) then e.depth else depths[q])
  }

  /** The depths `bed_read_depths` returns for [regionStart, regionEnd),
      when every line reads. */
  function DecodeLines(lines: seq<string>, contig: string, regionStart: int, regionEnd: int): (r: Result<seq<int>>)
    requires regionStart <= regionEnd
    ensures r.Success? ==> |r.value| == regionEnd - regionStart
    decreases |lines|
  {
    if |lines| == 0 then Success(seq(regionEnd - regionStart, _ => 0))
    else match DecodeLines(lines[..|lines| - 1], contig, regionStart, regionEnd)
      case Failure(msg) => Failure(msg)
      case Success(depths) =>
        match ParseLine(lines[|lines| - 1])
        case Failure(msg) => Failure(msg)
        case Success(None) => Success(depths)
        case Success(Some(e)) => Success(Overwrite(depths, e, contig, regionStart))
  }

  lemma {:induction false} DecodeFailureSticks(lines: seq<string>, k: nat, contig: string, regionStart: int, regionEnd: int)
    requires regionStart <= regionEnd && k <= |lines|
    requires DecodeLines(lines[..k], contig, regionStart, regionEnd).Failure?
    ensures DecodeLines(lines, contig, regionStart, regionEnd).Failure?
    decreases |lines| - k
  {
    if k < |lines| {
      assert lines[..k + 1][..k] == lines[..k];
      DecodeFailureSticks(lines, k + 1, contig, regionStart, regionEnd);
    } else {
      assert lines[..k] == lines;
    }
  }

  /** The body of `bed_read_depths`'s loop for one entry: when it is on the
      queried contig, its overlap with the region is overwritten in place. */
  method ApplyEntry(depths: array<int>, e: BedEntry, contig: string, regionStart: int, regionEnd: int)
    requires depths.Length == regionEnd - regionStart
    modifies depths
    ensures depths[..] == Overwrite(old(depths[..]), e, contig, regionStart)
  {
    if !ContigNamesMatch(e.chrom, contig) {
      return;
    }
    var ovStart := if e.start > regionStart then e.start else regionStart;
    var ovEnd := if e.end < regionEnd then e.end else regionEnd;
    if ovStart >= ovEnd {
      return;
    }
    var p := ovStart - regionStart;
    while p < ovEnd - regionStart
      invariant ovStart - regionStart <= p <= ovEnd - regionStart
      invariant forall q :: 0 <= q < depths.Length ==>
        depths[q] == if ovStart - regionStart <= q < p then e.depth else old(depths[q])
    {
      depths[p] := e.depth;
      p := p + 1;
    }
  }

  /** `bed_read_depths`: a negative-length region is an error; otherwise the
      lines are applied in order onto zeros, an entry overwriting the
      positions it covers, and the first unreadable line is an error. */
  method BedReadDepths(lines: seq<string>, contig: string, regionStart: int, regionEnd: int)
    returns (r: Result<DepthArray>)
    ensures regionStart > regionEnd ==> r.Failure?
    ensures regionStart <= regionEnd ==>
      match DecodeLines(lines, contig, regionStart, regionEnd)
      case Failure(_) => r.Failure?
      case Success(d) => r == Success(DepthArray(contig, regionStart, regionEnd, d))
  {
    if regionStart > regionEnd {
      return Failure("negative dimensions are not allowed");
    }
    var depths := new int[regionEnd - regionStart](_ => 0);
    var k := 0;
    assert lines[..0] == [];
    assert depths[..] == seq(regionEnd - regionStart, _ => 0);
    while k < |lines|
      invariant 0 <= k <= |lines|
      invariant DecodeLines(lines[..k], contig, regionStart, regionEnd) == Success(depths[..])
    {
      assert lines[..k + 1][..k] == lines[..k];
      match ParseLine(lines[k]) {
        case Failure(msg) =>
          DecodeFailureSticks(lines, k + 1, contig, regionStart, regionEnd);
          return Failure(msg);
        case Success(None) =>
        case Success(Some(e)) =>
          ApplyEntry(depths, e, contig, regionStart, regionEnd);
      }
      k := k + 1;
    }
    assert lines[..k] == lines;
    r := Success(DepthArray(contig, regionStart, regionEnd, depths[..]));
  }

  // ---------------------------------------------------------------------------
  // Reading back what was written

  /** A later entry overrides what earlier ones say about its positions. */
  lemma {:induction false} LastCoverAppend(es: seq<BedEntry>, e: BedEntry, contig: string, pos: int)
    ensures LastCover(es + [e], contig, pos) ==
      if Covers(e, contig, pos) then Some(e.depth) else LastCover(es, contig, pos)
    decreases |es|
  {
    if |es| == 0 {
      assert LastCover([e], contig, pos) == (if Covers(e, contig, pos) then Some(e.depth) else None);
    } else {
      assert (es + [e])[1..] == es[1..] + [e];
      LastCoverAppend(es[1..], e, contig, pos);
    }
  }

  /** The depth reading assigns to `pos` given entries `es`: the last
      covering entry's, 0 when none covers it. */
  function CoverDepth(es: seq<BedEntry>, contig: string, pos: int): int {
    match LastCover(es, contig, pos)
    case Some(v) => v
    case None => 0
  }

  /** `d` holds, at each position from `regionStart` on, the depth of the
      last entry of `es` on `contig` that covers it, and 0 where none does. */
  predicate LastCoverDepths(d: seq<int>, es: seq<BedEntry>, contig: string, regionStart: int) {
    forall q :: 0 <= q < |d| ==> d[q] == CoverDepth(es, contig, regionStart + q)
  }

  /** Reading gives, at every position of the region, the depth of the last
      entry of the file on the contig that covers it, and 0 where none does;
      it fails exactly when some line cannot be read. */
  lemma {:induction false} DecodeIsLastCover(lines: seq<string>, contig: string, regionStart: int, regionEnd: int)
    requires regionStart <= regionEnd
    ensures DecodeLines(lines, contig, regionStart, regionEnd).Success? <==> ParseLines(lines).Success?
    ensures DecodeLines(lines, contig, regionStart, regionEnd).Success? ==>
      LastCoverDepths(DecodeLines(lines, contig, regionStart, regionEnd).value, ParseLines(lines).value, contig, regionStart)
    decreases |lines|
  {
    if |lines| > 0 {
      var front := lines[..|lines| - 1];
      var last := lines[|lines| - 1];
      DecodeIsLastCover(front, contig, regionStart, regionEnd);
      assert lines == front + [last];
      var d0 := DecodeLines(front, contig, regionStart, regionEnd);
      var es0 := ParseLines(front);
      if ParseLine(last).Success? && ParseLine(last).value.Some? && es0.Success? {
        DecodeAppendEntry(front, last, d0.value, es0.value, contig, regionStart, regionEnd);
      }
    }
  }

  lemma DecodeAppendEntry(front: seq<string>, last: string, d0: seq<int>, es0: seq<BedEntry>,
                          contig: string, regionStart: int, regionEnd: int)
    requires regionStart <= regionEnd
    requires ParseLine(last).Success? && ParseLine(last).value.Some?
    requires ParseLines(front) == Success(es0)
    requires DecodeLines(front, contig, regionStart, regionEnd) == Success(d0)
    requires LastCoverDepths(d0, es0, contig, regionStart)
    ensures DecodeLines(front + [last], contig, regionStart, regionEnd).Success?
    ensures LastCoverDepths(DecodeLines(front + [last], contig, regionStart, regionEnd).value,
                            ParseLines(front + [last]).value, contig, regionStart)
  {
    var lines := front + [last];
    assert lines[..|lines| - 1] == front && lines[|lines| - 1] == last;
    var e := ParseLine(last).value.value;
    assert DecodeLines(lines, contig, regionStart, regionEnd) == Success(Overwrite(d0, e, contig, regionStart));
    assert ParseLines(lines) == Success(es0 + [e]);
    OverwriteLastCover(d0, es0, e, contig, regionStart);
  }

  lemma OverwriteLastCover(d0: seq<int>, es0: seq<BedEntry>, e: BedEntry, contig: string, regionStart: int)
    requires LastCoverDepths(d0, es0, contig, regionStart)
    ensures LastCoverDepths(Overwrite(d0, e, contig, regionStart), es0 + [e], contig, regionStart)
  {
    forall q | 0 <= q < |d0|
      ensures Overwrite(d0, e, contig, regionStart)[q] == CoverDepth(es0 + [e], contig, regionStart + q)
    {
      LastCoverAppend(es0, e, contig, regionStart + q);
    }
  }

  /** A record contig that survives the trip through a line: no tab in it,
      not starting like a comment, and no line break (a file read line by
      line with universal newlines splits at '\n' and at '\r'). */
  predicate PlainContig(contig: string) {
    && '\t' !in contig && '\n' !in contig && '\r' !in contig
    && (|contig| == 0 || contig[0] != '#')
  }

  /** Each written line reads back as the record it was written from. */
  lemma ParseFormatEntry(e: BedEntry)
    requires PlainContig(e.chrom)
    ensures ParseLine(FormatEntry(e)) == Success(Some(e))
  {
    var line := FormatEntry(e);
    var parts := [e.chrom, IntToString(e.start), IntToString(e.end), IntToString(e.depth)];
    FormatEntryFields(e);
    assert Fields(line) == parts;
    ParseFieldsOfEntry(e);
  }

  lemma ParseFieldsOfEntry(e: BedEntry)
    ensures ParseFields([e.chrom, IntToString(e.start), IntToString(e.end), IntToString(e.depth)]) == Success(Some(e))
  {
    ParseIntOfIntToString(e.start);
    ParseIntOfIntToString(e.end);
    ParseIntOfIntToString(e.depth);
    ParseFieldsOfInts(e.chrom, IntToString(e.start), IntToString(e.end), IntToString(e.depth), e.start, e.end, e.depth);
  }

  lemma ParseFieldsOfInts(chrom: string, a: string, b: string, c: string, start: int, end: int, depth: int)
    requires ParseInt(a) == Some(start) && ParseInt(b) == Some(end) && ParseInt(c) == Some(depth)
    ensures ParseFields([chrom, a, b, c]) == Success(Some(BedEntry(chrom, start, end, depth)))
  {
    var parts := [chrom, a, b, c];
    assert parts[1] == a && parts[2] == b && parts[3] == c;
  }

  /** A written line is non-empty, does not start a comment, and splits on
      tabs into its four fields. */
  lemma FormatEntryFields(e: BedEntry)
    requires PlainContig(e.chrom)
    ensures var line := FormatEntry(e);
      && |line| > 0 && line[0] != '#'
      && SplitOn(line, '\t') == [e.chrom, IntToString(e.start), IntToString(e.end), IntToString(e.depth)]
  {
    var parts := [e.chrom, IntToString(e.start), IntToString(e.end), IntToString(e.depth)];
    IntToStringFree(e.start, '\t');
    IntToStringFree(e.end, '\t');
    IntToStringFree(e.depth, '\t');
    SplitOnJoin(parts, '\t');
    var line := FormatEntry(e);
    assert line == e.chrom + ['\t'] + Join(parts[1..], '\t');
    assert line[|e.chrom|] == '\t';
  }

  /** The written lines read back as the written records. */
  lemma {:induction false} ParseLinesOfLines(es: seq<BedEntry>)
    requires forall j :: 0 <= j < |es| ==> PlainContig(es[j].chrom)
    ensures ParseLines(Lines(es)) == Success(es)
    decreases |es|
  {
    if |es| > 0 {
      var front := es[..|es| - 1];
      var last := es[|es| - 1];
      assert es == front + [last];
      ParseLinesOfLines(front);
      LinesAppend(front, last);
      ParseFormatEntry(last);
      ParseLinesSnoc(Lines(front), FormatEntry(last), front, last);
    }
  }

  lemma ParseLinesSnoc(front: seq<string>, line: string, es: seq<BedEntry>, e: BedEntry)
    requires ParseLines(front) == Success(es) && ParseLine(line) == Success(Some(e))
    ensures ParseLines(front + [line]) == Success(es + [e])
  {
    var lines := front + [line];
    assert lines[..|lines| - 1] == front;
  }

  /** Over a tiling, the last entry covering a position is the interval that
      holds it. */
  lemma {:induction false} TilesLastCover(es: seq<BedEntry>, contig: string, from: int, to: int, j: nat, pos: int)
    requires Tiles(es, contig, from, to) && j < |es| && es[j].start <= pos < es[j].end
    ensures LastCover(es, contig, pos) == Some(es[j].depth)
    decreases |es|
  {
    ContigNamesMatchIsEquivalence(contig, contig, contig);
    if |es| > 1 {
      if j == 0 {
        TilesMiss(es[1..], contig, es[0].end, to, pos);
      } else {
        TilesLastCover(es[1..], contig, es[0].end, to, j - 1, pos);
      }
    }
  }

  lemma TilesMiss(es: seq<BedEntry>, contig: string, from: int, to: int, pos: int)
    requires Tiles(es, contig, from, to) && pos < from
    ensures LastCover(es, contig, pos) == None
  {
    TilesBounds(es, contig, from, to);
    LastCoverNone(es, contig, pos);
  }

  lemma {:induction false} LastCoverNone(es: seq<BedEntry>, contig: string, pos: int)
    requires forall j :: 0 <= j < |es| ==> pos < es[j].start
    ensures LastCover(es, contig, pos) == None
    decreases |es|
  {
    if |es| > 0 {
      LastCoverNone(es[1..], contig, pos);
    }
  }

  /** Reading written records gives, at each position, the depth of the
      last record covering it. */
  lemma DecodeWritten(es: seq<BedEntry>, contig: string, from: int, to: int) returns (r: seq<int>)
    requires from <= to
    requires forall j :: 0 <= j < |es| ==> PlainContig(es[j].chrom)
    ensures DecodeLines(Lines(es), contig, from, to) == Success(r)
    ensures |r| == to - from
    ensures LastCoverDepths(r, es, contig, from)
  {
    ParseLinesOfLines(es);
    DecodeIsLastCover(Lines(es), contig, from, to);
    r := DecodeLines(Lines(es), contig, from, to).value;
  }

  /** Reading written records gives the depths `d` when `d` holds, at each
      position, the depth of the last record covering it. */
  lemma DecodeWrittenAs(es: seq<BedEntry>, contig: string, from: int, to: int, d: seq<int>)
    requires from <= to
    requires forall j :: 0 <= j < |es| ==> PlainContig(es[j].chrom)
    requires |d| == to - from && forall q :: 0 <= q < |d| ==> d[q] == CoverDepth(es, contig, from + q)
    ensures DecodeLines(Lines(es), contig, from, to) == Success(d)
  {
    var r := DecodeWritten(es, contig, from, to);
    assert r == d;
  }

  /** Per-position output reads back as exactly the depths written. */
  lemma PerBaseRoundTrip(arr: DepthArray)
    requires arr.Valid() && PlainContig(arr.contig)
    ensures DecodeLines(Lines(EncodeEntries(arr, 0)), arr.contig, arr.start, arr.end) == Success(arr.depths)
  {
    if |arr.depths| == 0 {
      DecodeWrittenAs([], arr.contig, arr.start, arr.end, arr.depths);
    } else {
      PerBaseCover(arr);
      DecodeWrittenAs(PerBase(arr), arr.contig, arr.start, arr.end, arr.depths);
    }
  }

  /** Each position's last covering per-position record is its own. */
  lemma PerBaseCover(arr: DepthArray)
    requires arr.Valid() && PlainContig(arr.contig) && |arr.depths| > 0
    ensures forall j :: 0 <= j < |PerBase(arr)| ==> PlainContig(PerBase(arr)[j].chrom)
    ensures forall q :: 0 <= q < |arr.depths| ==> arr.depths[q] == CoverDepth(PerBase(arr), arr.contig, arr.start + q)
  {
    var es := PerBase(arr);
    PerBaseTiles(arr);
    TilesBounds(es, arr.contig, arr.start, arr.end);
    forall q | 0 <= q < |arr.depths| ensures arr.depths[q] == CoverDepth(es, arr.contig, arr.start + q) {
      TilesLastCover(es, arr.contig, arr.start, arr.end, q, arr.start + q);
    }
  }

  /** Reading succeeded, with depths within `k` of `d` position by position. */
  predicate ReadsWithin(read: Result<seq<int>>, d: seq<int>, k: int) {
    read.Success? && |read.value| == |d| && forall q :: 0 <= q < |d| ==> Abs(read.value[q] - d[q]) <= k
  }

  /** Collapsed output reads back within `collapse` of the depths written,
      position by position. */
  lemma CollapsedRoundTrip(arr: DepthArray, collapse: int)
    requires arr.Valid() && PlainContig(arr.contig) && collapse > 0
    ensures ReadsWithin(DecodeLines(Lines(EncodeEntries(arr, collapse)), arr.contig, arr.start, arr.end), arr.depths, collapse)
  {
    if |arr.depths| == 0 {
      DecodeWrittenWithin([], arr.contig, arr.start, arr.end, arr.depths, collapse);
    } else {
      CollapsedCover(arr, collapse);
      DecodeWrittenWithin(EncodeEntries(arr, collapse), arr.contig, arr.start, arr.end, arr.depths, collapse);
    }
  }

  /** Reading written records gives depths within `k` of `d` when each
      position's last covering record is within `k` of it. */
  lemma DecodeWrittenWithin(es: seq<BedEntry>, contig: string, from: int, to: int, d: seq<int>, k: int)
    requires from <= to
    requires forall j :: 0 <= j < |es| ==> PlainContig(es[j].chrom)
    requires |d| == to - from && forall q :: 0 <= q < |d| ==> Abs(CoverDepth(es, contig, from + q) - d[q]) <= k
    ensures ReadsWithin(DecodeLines(Lines(es), contig, from, to), d, k)
  {
    var r := DecodeWritten(es, contig, from, to);
  }

  /** Each position's last covering collapsed record holds a depth within
      `collapse` of the position's own. */
  lemma CollapsedCover(arr: DepthArray, collapse: int)
    requires arr.Valid() && PlainContig(arr.contig) && |arr.depths| > 0 && collapse > 0
    ensures forall j :: 0 <= j < |EncodeEntries(arr, collapse)| ==> PlainContig(EncodeEntries(arr, collapse)[j].chrom)
    ensures forall q :: 0 <= q < |arr.depths| ==>
      Abs(CoverDepth(EncodeEntries(arr, collapse), arr.contig, arr.start + q) - arr.depths[q]) <= collapse
  {
    var es := Collapsed(arr, collapse, 0, 1);
    assert EncodeEntries(arr, collapse) == es;
    CollapsedShape(arr, collapse, 0, 1);
    TilesBounds(es, arr.contig, arr.start, arr.end);
    forall q | 0 <= q < |arr.depths| ensures Abs(CoverDepth(es, arr.contig, arr.start + q) - arr.depths[q]) <= collapse {
      var j := TilesFind(es, arr.contig, arr.start, arr.end, arr.start + q);
      TilesLastCover(es, arr.contig, arr.start, arr.end, j, arr.start + q);
    }
  }

  // ---------------------------------------------------------------------------
  // bed_combine_depths

  datatype CombineMode = MinMode | MaxMode | MeanMode | RandomMode

  function ParseCombineMode(mode: string): (m: Option<CombineMode>)
    ensures m.Some? <==> mode == "min" || mode == "max" || mode == "mean" || mode == "random"
  {
    if mode == "min" then Some(MinMode)
    else if mode == "max" then Some(MaxMode)
    else if mode == "mean" then Some(MeanMode)
    else if mode == "random" then Some(RandomMode)
    else None
  }

  /** `random.Random(seed).randint(lo, hi)` as a function of the generator's
      state: the value drawn and the state after the draw. The generator
      itself is not part of this model; a state is identified with the seed
      it was started from before the first draw. */
  type RandInt = (int, int, int) -> (int, int)

  /** What `randint` promises: a value in [lo, hi]. */
  ghost predicate DrawsInRange(randint: RandInt) {
    forall state: int, lo: int, hi: int :: lo <= hi ==> lo <= randint(state, lo, hi).0 <= hi
  }

  function SeqMin(xs: seq<int>): (m: int)
    requires |xs| > 0
    ensures m in xs && forall x | x in xs :: m <= x
    decreases |xs|
  {
    if |xs| == 1 then xs[0]
    else
      var rest := SeqMin(xs[1..]);
      assert xs == [xs[0]] + xs[1..];
      if xs[0] <= rest then xs[0] else rest
  }

  function SeqMax(xs: seq<int>): (m: int)
    requires |xs| > 0
    ensures m in xs && forall x | x in xs :: x <= m
    decreases |xs|
  {
    if |xs| == 1 then xs[0]
    else
      var rest := SeqMax(xs[1..]);
      assert xs == [xs[0]] + xs[1..];
      if xs[0] >= rest then xs[0] else rest
  }

  function SeqSum(xs: seq<int>): int
    decreases |xs|
  {
    if |xs| == 0 then 0 else xs[0] + SeqSum(xs[1..])
  }

  lemma {:induction false} MulMonotone(c: nat, x: int, y: int)
    requires x <= y
    ensures c * x <= c * y
    decreases c
  {
    if c > 0 {
      MulMonotone(c - 1, x, y);
      MulStep(c, x);
      MulStep(c, y);
    }
  }

  lemma MulStep(n: int, x: int)
    ensures n * (x + 1) == n * x + n
    ensures n * x == x + (n - 1) * x
  {
  }

  /** The floor quotient of Python's `//` for a positive divisor. */
  lemma FloorDivBounds(s: int, n: int)
    requires n > 0
    ensures n * (s / n) <= s < n * (s / n) + n
  {
  }

  lemma {:induction false} SeqSumBounds(xs: seq<int>)
    requires |xs| > 0
    ensures |xs| * SeqMin(xs) <= SeqSum(xs) <= |xs| * SeqMax(xs)
    decreases |xs|
  {
    if |xs| > 1 {
      var t := xs[1..];
      var n := |xs|;
      SeqSumBounds(t);
      assert t[0] in xs && SeqMin(t) in xs && SeqMax(t) in xs;
      var lo, hi := SeqMin(xs), SeqMax(xs);
      MulMonotone(n - 1, lo, SeqMin(t));
      MulMonotone(n - 1, SeqMax(t), hi);
      assert SeqSum(xs) == xs[0] + SeqSum(t);
      MulStep(n, lo);
      MulStep(n, hi);
    }
  }

  /** All arrays have the same number of positions. */
  predicate SameLength(rows: seq<seq<int>>) {
    forall a :: 0 <= a < |rows| ==> |rows[a]| == |rows[0]|
  }

  /** The values of all arrays at position `i`. */
  function Column(rows: seq<seq<int>>, i: nat): (col: seq<int>)
    requires |rows| > 0 && SameLength(rows) && i < |rows[0]|
    ensures |col| == |rows| && forall a :: 0 <= a < |rows| ==> col[a] == rows[a][i]
  {
    seq(|rows|, a requires 0 <= a < |rows| => rows[a][i])
  }

  /** The random-mode pick, position by position: the common value where
      all arrays agree, else one draw from `randint` over [min, max]. Only
      the positions that draw advance the generator. */
  function RandomPick(mins: seq<int>, maxs: seq<int>, state: int, randint: RandInt): (r: seq<int>)
    requires |mins| == |maxs|
    ensures |r| == |mins|
    decreases |mins|
  {
    if |mins| == 0 then []
    else if mins[0] == maxs[0] then [mins[0]] + RandomPick(mins[1..], maxs[1..], state, randint)
    else
      var (v, next) := randint(state, mins[0], maxs[0]);
      [v] + RandomPick(mins[1..], maxs[1..], next, randint)
  }

  /** The combined depths of arrays of equal length under `mode`. */
  function Combine(rows: seq<seq<int>>, mode: CombineMode, seed: int, randint: RandInt): (r: seq<int>)
    requires |rows| > 0 && SameLength(rows)
    ensures |r| == |rows[0]|
  {
    var n := |rows[0]|;
    match mode
    case MinMode => seq(n, i requires 0 <= i < n => SeqMin(Column(rows, i)))
    case MaxMode => seq(n, i requires 0 <= i < n => SeqMax(Column(rows, i)))
    case MeanMode => seq(n, i requires 0 <= i < n => SeqSum(Column(rows, i)) / |rows|)
    case RandomMode =>
      RandomPick(seq(n, i requires 0 <= i < n => SeqMin(Column(rows, i))),
                 seq(n, i requires 0 <= i < n => SeqMax(Column(rows, i))), seed, randint)
  }

  function Rows(arrays: seq<DepthArray>): (rows: seq<seq<int>>)
    ensures |rows| == |arrays| && forall a :: 0 <= a < |arrays| ==> rows[a] == arrays[a].depths
  {
    seq(|arrays|, a requires 0 <= a < |arrays| => arrays[a].depths)
  }

  /** `bed_combine_depths`: a single array is returned as it is, whatever
      the mode; otherwise the arrays are stacked (an error when there are
      none or their lengths differ), an unknown mode is an error, and the
      result carries the first array's contig and range. */
  function BedCombineDepths(arrays: seq<DepthArray>, mode: string, seed: int, randint: RandInt): (r: Result<DepthArray>)
    ensures |arrays| == 1 ==> r == Success(arrays[0])
    ensures |arrays| == 0 ==> r.Failure?
    ensures |arrays| > 1 && (!SameLength(Rows(arrays)) || ParseCombineMode(mode).None?) ==> r.Failure?
    ensures |arrays| > 1 && r.Success? ==>
      && r.value.contig == arrays[0].contig && r.value.start == arrays[0].start && r.value.end == arrays[0].end
      && |r.value.depths| == |arrays[0].depths|
  {
    if |arrays| == 1 then Success(arrays[0])
    else if |arrays| == 0 then Failure("need at least one array to stack")
    else if !SameLength(Rows(arrays)) then Failure("all input arrays must have the same shape")
    else match ParseCombineMode(mode)
      case None => Failure("Unknown combine mode: " + mode)
      case Some(m) =>
        Success(DepthArray(arrays[0].contig, arrays[0].start, arrays[0].end, Combine(Rows(arrays), m, seed, randint)))
  }

  /** "min" and "max" pick, at each position, a value one of the arrays has
      there, below (above) every array's value. */
  lemma CombineMinMax(arrays: seq<DepthArray>, seed: int, randint: RandInt, i: nat, a: nat)
    requires |arrays| > 1 && SameLength(Rows(arrays)) && i < |arrays[0].depths| && a < |arrays|
    ensures BedCombineDepths(arrays, "min", seed, randint).Success?
    ensures BedCombineDepths(arrays, "min", seed, randint).value.depths[i] <= arrays[a].depths[i]
    ensures exists b :: 0 <= b < |arrays| && BedCombineDepths(arrays, "min", seed, randint).value.depths[i] == arrays[b].depths[i]
    ensures BedCombineDepths(arrays, "max", seed, randint).Success?
    ensures arrays[a].depths[i] <= BedCombineDepths(arrays, "max", seed, randint).value.depths[i]
    ensures exists b :: 0 <= b < |arrays| && BedCombineDepths(arrays, "max", seed, randint).value.depths[i] == arrays[b].depths[i]
  {
    var col := Column(Rows(arrays), i);
    assert col[a] in col;
    var lo := SeqMin(col);
    var hi := SeqMax(col);
    var b :| 0 <= b < |col| && col[b] == lo;
    var c :| 0 <= c < |col| && col[c] == hi;
    assert BedCombineDepths(arrays, "min", seed, randint).value.depths[i] == arrays[b].depths[i];
    assert BedCombineDepths(arrays, "max", seed, randint).value.depths[i] == arrays[c].depths[i];
  }

  /** `m` is the floor of `s / n`, and lies between `lo` and `hi`. */
  predicate FloorMeanWithin(n: int, s: int, m: int, lo: int, hi: int) {
    n * m <= s < n * (m + 1) && lo <= m <= hi
  }

  /** "mean" is the floor of the average, hence between "min" and "max". */
  lemma CombineMean(arrays: seq<DepthArray>, seed: int, randint: RandInt, i: nat)
    requires |arrays| > 1 && SameLength(Rows(arrays)) && i < |arrays[0].depths|
    ensures BedCombineDepths(arrays, "mean", seed, randint).Success?
    ensures FloorMeanWithin(|arrays|, SeqSum(Column(Rows(arrays), i)), BedCombineDepths(arrays, "mean", seed, randint).value.depths[i],
                            SeqMin(Column(Rows(arrays), i)), SeqMax(Column(Rows(arrays), i)))
  {
    var col := Column(Rows(arrays), i);
    assert BedCombineDepths(arrays, "mean", seed, randint).value.depths[i] == SeqSum(col) / |col|;
    FloorMeanBetween(col);
  }

  /** The floor of the average of some integers lies between their minimum
      and maximum. */
  lemma FloorMeanBetween(xs: seq<int>)
    requires |xs| > 0
    ensures FloorMeanWithin(|xs|, SeqSum(xs), SeqSum(xs) / |xs|, SeqMin(xs), SeqMax(xs))
  {
    SeqSumBounds(xs);
    FloorBetween(|xs|, SeqSum(xs), SeqMin(xs), SeqMax(xs));
  }

  /** The floor quotient of a value between `n * lo` and `n * hi` lies
      between `lo` and `hi`. */
  lemma FloorBetween(n: int, s: int, lo: int, hi: int)
    requires n > 0 && n * lo <= s <= n * hi
    ensures FloorMeanWithin(n, s, s / n, lo, hi)
  {
    var m := s / n;
    FloorDivBounds(s, n);
    MulStep(n, m);
    Distribute(n, m + 1, lo);
    PositiveFactor(n, m + 1 - lo);
    Distribute(n, hi, m);
    NonNegativeFactor(n, hi - m);
  }

  lemma Distribute(n: int, a: int, b: int)
    ensures n * (a - b) == n * a - n * b
  {
  }

  lemma PositiveFactor(n: int, a: int)
    requires n > 0 && n * a > 0
    ensures a > 0
  {
  }

  lemma NonNegativeFactor(n: int, a: int)
    requires n > 0 && n * a >= 0
    ensures a >= 0
  {
  }

  lemma {:induction false} RandomPickInRange(mins: seq<int>, maxs: seq<int>, state: int, randint: RandInt)
    requires |mins| == |maxs| && DrawsInRange(randint)
    requires forall i :: 0 <= i < |mins| ==> mins[i] <= maxs[i]
    ensures forall i :: 0 <= i < |mins| ==>
      mins[i] <= RandomPick(mins, maxs, state, randint)[i] <= maxs[i]
    decreases |mins|
  {
    if |mins| > 0 {
      var next := if mins[0] == maxs[0] then state else randint(state, mins[0], maxs[0]).1;
      RandomPickInRange(mins[1..], maxs[1..], next, randint);
      var r := RandomPick(mins, maxs, state, randint);
      assert r[1..] == RandomPick(mins[1..], maxs[1..], next, randint);
      forall i | 1 <= i < |mins| ensures mins[i] <= r[i] <= maxs[i] {
        assert r[i] == r[1..][i - 1];
      }
    }
  }

  /** Where the minimum and maximum agree, "random" takes that value,
      whatever the generator does. */
  lemma {:induction false} RandomPickAgreeing(mins: seq<int>, maxs: seq<int>, state: int, randint: RandInt)
    requires |mins| == |maxs|
    ensures forall i :: 0 <= i < |mins| && mins[i] == maxs[i] ==> RandomPick(mins, maxs, state, randint)[i] == mins[i]
    decreases |mins|
  {
    if |mins| > 0 {
      var next := if mins[0] == maxs[0] then state else randint(state, mins[0], maxs[0]).1;
      RandomPickAgreeing(mins[1..], maxs[1..], next, randint);
      assert RandomPick(mins, maxs, state, randint)[1..] == RandomPick(mins[1..], maxs[1..], next, randint);
    }
  }

  /** Positions where the minimum and maximum agree take no draw: a prefix
      of them leaves the generator's state as it was for the rest. */
  lemma {:induction false} RandomPickNoDraw(agreed: seq<int>, mins: seq<int>, maxs: seq<int>, state: int, randint: RandInt)
    requires |mins| == |maxs|
    ensures RandomPick(agreed + mins, agreed + maxs, state, randint) == agreed + RandomPick(mins, maxs, state, randint)
    decreases |agreed|
  {
    if |agreed| > 0 {
      var lo, hi, rest := agreed + mins, agreed + maxs, agreed[1..];
      assert lo[0] == hi[0] == agreed[0];
      assert lo[1..] == rest + mins && hi[1..] == rest + maxs;
      RandomPickNoDraw(rest, mins, maxs, state, randint);
      var tail := RandomPick(mins, maxs, state, randint);
      assert RandomPick(lo, hi, state, randint) == [agreed[0]] + (rest + tail);
      assert agreed == [agreed[0]] + rest;
    } else {
      assert agreed + mins == mins && agreed + maxs == maxs;
    }
  }

  /** "random" picks, at each position, a value between the arrays' minimum
      and maximum there; where all arrays agree it is their common value and
      no draw happens, so identical arrays combine to themselves. */
  lemma CombineRandom(arrays: seq<DepthArray>, seed: int, randint: RandInt)
    requires |arrays| > 1 && SameLength(Rows(arrays)) && DrawsInRange(randint)
    ensures BedCombineDepths(arrays, "random", seed, randint).Success?
    ensures forall i :: 0 <= i < |arrays[0].depths| ==>
      SeqMin(Column(Rows(arrays), i)) <= BedCombineDepths(arrays, "random", seed, randint).value.depths[i]
        <= SeqMax(Column(Rows(arrays), i))
  {
    var rows := Rows(arrays);
    var n := |rows[0]|;
    var mins := seq(n, i requires 0 <= i < n => SeqMin(Column(rows, i)));
    var maxs := seq(n, i requires 0 <= i < n => SeqMax(Column(rows, i)));
    forall i | 0 <= i < n ensures mins[i] <= maxs[i] {
      assert Column(rows, i)[0] in Column(rows, i);
    }
    RandomPickInRange(mins, maxs, seed, randint);
  }

  /** Combining copies of one array gives that array back, in every mode. */
  lemma CombineIdentical(arrays: seq<DepthArray>, mode: string, seed: int, randint: RandInt)
    requires |arrays| > 1 && ParseCombineMode(mode).Some?
    requires forall a :: 0 <= a < |arrays| ==> arrays[a] == arrays[0]
    ensures BedCombineDepths(arrays, mode, seed, randint) == Success(arrays[0])
  {
    var rows := Rows(arrays);
    assert SameLength(rows);
    CombineCopies(rows, arrays[0].depths, ParseCombineMode(mode).value, seed, randint);
  }

  lemma CombineCopies(rows: seq<seq<int>>, d: seq<int>, m: CombineMode, seed: int, randint: RandInt)
    requires |rows| > 0 && SameLength(rows) && forall a :: 0 <= a < |rows| ==> rows[a] == d
    ensures Combine(rows, m, seed, randint) == d
  {
    var n := |d|;
    forall i | 0 <= i < n
      ensures SeqMin(Column(rows, i)) == d[i] && SeqMax(Column(rows, i)) == d[i]
      ensures SeqSum(Column(rows, i)) / |rows| == d[i]
    {
      ConstantColumn(rows, d, i);
    }
    var mins := seq(n, i requires 0 <= i < n => SeqMin(Column(rows, i)));
    var maxs := seq(n, i requires 0 <= i < n => SeqMax(Column(rows, i)));
    assert mins == d && maxs == d;
    RandomPickAgreeing(mins, maxs, seed, randint);
    assert RandomPick(mins, maxs, seed, randint) == mins;
  }

  lemma ConstantColumn(rows: seq<seq<int>>, d: seq<int>, i: nat)
    requires |rows| > 0 && SameLength(rows) && forall a :: 0 <= a < |rows| ==> rows[a] == d
    requires i < |d|
    ensures SeqMin(Column(rows, i)) == d[i] && SeqMax(Column(rows, i)) == d[i]
    ensures SeqSum(Column(rows, i)) / |rows| == d[i]
  {
    var col := Column(rows, i);
    assert col == seq(|rows|, _ => d[i]);
    ConstantSum(|rows|, d[i]);
    ExactDivision(|rows|, d[i]);
  }

  lemma {:induction false} ConstantSum(count: nat, v: int)
    ensures SeqSum(seq(count, _ => v)) == count * v
    decreases count
  {
    if count > 0 {
      ConstantSum(count - 1, v);
      assert seq(count, _ => v)[1..] == seq(count - 1, _ => v);
      MulStep(count, v);
    }
  }

  lemma ExactDivision(count: nat, v: int)
    requires count > 0
    ensures (count * v) / count == v
  {
    var q := (count * v) / count;
    FloorDivBounds(count * v, count);
    Distribute(count, v, q);
    NonNegativeFactor(count, v - q);
    MulStep(count, q);
    Distribute(count, q + 1, v);
    PositiveFactor(count, q + 1 - v);
  }
}
