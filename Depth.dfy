/** Regions, depth arrays, contig-name resolution and reference-span
    coverage: samsamplex/depth.py. */
module Depth {
  import opened Wrappers
  import opened Text

  /** The coordinate sentinel meaning "unresolved: use the whole contig". */
  const WholeContig: int := -1

  /** A genomic range, 0-based and half-open; either bound may be `WholeContig`. */
  datatype Region = Region(contig: string, start: int, end: int)

  /** Per-position depths over `[start, end)` of `contig`: `depths[i]` is the
      depth at position `start + i`. */
  datatype DepthArray = DepthArray(contig: string, start: int, end: int, depths: seq<int>) {
    function Length(): int { end - start }
    predicate Valid() { Length() == |depths| }
  }

  // ---------------------------------------------------------------------------
  // region_parse

  /** The first index of `c` in `s`, if any. */
  function IndexOf(s: string, c: char): (k: Option<nat>)
    ensures k.Some? ==> k.value < |s| && s[k.value] == c && c !in s[..k.value]
    ensures k.None? ==> c !in s
    decreases |s|
  {
    if |s| == 0 then None
    else if s[0] == c then Some(0)
    else match IndexOf(s[1..], c)
      case None => None
      case Some(k) => assert s[..k + 1] == [s[0]] + s[1..][..k]; Some(k + 1)
  }

  /** `t` matches `\d+` or `\d+-\d+`. */
  predicate CoordText(t: string) {
    || IsDigits(t)
    || exists j :: 0 < j < |t| && t[j] == '-' && IsDigits(t[..j]) && IsDigits(t[j + 1..])
  }

  /** `s` matches the region pattern `^([^:]+)(?::(\d+)(?:-(\d+))?)?$`, where
      Python's `$` also matches just before one final newline. */
  predicate MatchesRegionPattern(s: string) {
    || (|s| > 0 && ':' !in s)
    || exists k | 0 < k < |s| :: ContigThenCoords(s, k)
  }

  /** `s[..k]` is a colon-free contig, `s[k]` is a colon and the rest is
      coordinate text, possibly followed by one final newline. */
  predicate ContigThenCoords(s: string, k: int) {
    && 0 < k < |s| && s[k] == ':' && ':' !in s[..k]
    && (CoordText(s[k + 1..]) || (s[|s| - 1] == '\n' && CoordText(s[k + 1..|s| - 1])))
  }

  /** The coordinates after the colon: a 1-based start, optionally `-` and an
      end; the start is shifted to 0-based, the end is kept as written. One
      final newline is ignored. */
  function ParseCoords(t: string): Option<(int, int)> {
    StartEnd(if |t| > 0 && t[|t| - 1] == '\n' then t[..|t| - 1] else t)
  }

  /** `S` or `S-E` with decimal S and E, as (S - 1, E); the end is
      `WholeContig` when absent. */
  function StartEnd(u: string): Option<(int, int)> {
    match IndexOf(u, '-')
    case None =>
      if IsDigits(u) then Some((DigitsValue(u) - 1, WholeContig)) else None
    case Some(j) =>
      if IsDigits(u[..j]) && IsDigits(u[j + 1..])
      then Some((DigitsValue(u[..j]) - 1, DigitsValue(u[j + 1..])))
      else None
  }

  /** `region_parse`: a samtools-style region string to a 0-based half-open Region. */
  function RegionParse(s: string): (r: Result<Region>)
    ensures r.Success? ==> |r.value.contig| > 0 && ':' !in r.value.contig
    ensures r.Success? ==> |r.value.contig| <= |s| && r.value.contig == s[..|r.value.contig|]
    ensures r.Success? ==> r.value.start >= WholeContig && r.value.end >= WholeContig
  {
    match IndexOf(s, ':')
    case None =>
      if |s| > 0 then Success(Region(s, WholeContig, WholeContig))
      else Failure("Invalid region format: " + s)
    case Some(k) =>
      if k == 0 then Failure("Invalid region format: " + s)
      else match ParseCoords(s[k + 1..])
        case None => Failure("Invalid region format: " + s)
        case Some(coords) => Success(Region(s[..k], coords.0, coords.1))
  }

  /** The coordinate parser accepts exactly the text `\d+` or `\d+-\d+`. */
  lemma CoordTextIff(u: string)
    ensures CoordText(u) <==> StartEnd(u).Some?
  {
    match IndexOf(u, '-')
    case None =>
    case Some(j) =>
      assert !IsDigit(u[j]);
      if CoordText(u) {
        var j' :| 0 < j' < |u| && u[j'] == '-' && IsDigits(u[..j']) && IsDigits(u[j' + 1..]);
        DashIsFirst(u, j, j');
      }
  }

  /** A dash after a run of digits is the first dash. */
  lemma DashIsFirst(u: string, j: nat, j': nat)
    requires j < |u| && '-' !in u[..j]
    requires j' < |u| && u[j'] == '-' && forall i :: 0 <= i < j' ==> IsDigit(u[..j'][i])
    requires u[j] == '-'
    ensures j == j'
  {
    PrefixFree(u, '-', j);
    forall i | 0 <= i < j' ensures IsDigit(u[i]) {
      assert u[..j'][i] == u[i];
    }
  }

  lemma PrefixFree(s: string, c: char, j: nat)
    requires j <= |s| && c !in s[..j]
    ensures forall i :: 0 <= i < j ==> s[i] != c
  {
    forall i | 0 <= i < j ensures s[i] != c {
      assert s[..j][i] == s[i];
    }
  }

  lemma ParseCoordsIff(t: string)
    ensures ParseCoords(t).Some? <==>
      (CoordText(t) || (|t| > 0 && t[|t| - 1] == '\n' && CoordText(t[..|t| - 1])))
  {
    var u := if |t| > 0 && t[|t| - 1] == '\n' then t[..|t| - 1] else t;
    CoordTextIff(u);
    if |t| > 0 && t[|t| - 1] == '\n' {
      NewlineEndNotCoord(t);
    }
  }

  lemma NewlineEndNotCoord(t: string)
    requires |t| > 0 && t[|t| - 1] == '\n'
    ensures !CoordText(t)
  {
    assert !IsDigit(t[|t| - 1]);
    forall k | 0 < k <= |t| ensures !IsDigits(t[k..]) {
      if k < |t| {
        assert t[k..][|t| - k - 1] == '\n';
      }
    }
  }

  lemma FirstColonUnique(s: string, k: nat)
    requires k < |s| && s[k] == ':' && ':' !in s[..k]
    ensures forall k' | 0 < k' < |s| :: ContigThenCoords(s, k') ==> k' == k
  {
  }

  lemma ContigThenCoordsIff(s: string, k: nat)
    requires 0 < k < |s| && s[k] == ':' && ':' !in s[..k]
    ensures ContigThenCoords(s, k) <==> ParseCoords(s[k + 1..]).Some?
  {
    var t := s[k + 1..];
    ParseCoordsIff(t);
    if |t| > 0 {
      assert t[|t| - 1] == s[|s| - 1];
      assert t[..|t| - 1] == s[k + 1..|s| - 1];
    }
  }

  /** The parser accepts exactly the strings matching the region pattern. */
  lemma RegionParseAccepts(s: string)
    ensures RegionParse(s).Success? <==> MatchesRegionPattern(s)
  {
    match IndexOf(s, ':')
    case None =>
    case Some(k) =>
      FirstColonUnique(s, k);
      if k > 0 {
        ContigThenCoordsIff(s, k);
      }
  }

  lemma IndexOfAfter(a: string, c: char, b: string)
    requires c !in a
    ensures IndexOf(a + [c] + b, c) == Some(|a|)
  {
    assert (a + [c] + b)[|a|] == c;
    assert (a + [c] + b)[..|a|] == a;
  }

  /** A region string is its contig, a colon, and coordinate text. */
  lemma RegionParseContigColon(contig: string, t: string, start: int, end: int)
    requires |contig| > 0 && ':' !in contig && ParseCoords(t) == Some((start, end))
    ensures RegionParse(contig + ":" + t) == Success(Region(contig, start, end))
  {
    var s := contig + ":" + t;
    IndexOfAfter(contig, ':', t);
    assert s[|contig| + 1..] == t;
    assert s[..|contig|] == contig;
  }

  lemma Regroup3(x: string, a: string, y: string)
    ensures x + a + y == x + (a + y)
  {
  }

  lemma Regroup(x: string, a: string, y: string, b: string)
    ensures x + a + y + b == x + (a + y + b)
  {
  }

  lemma ParseCoordsStartEnd(start: nat, end: nat)
    ensures ParseCoords(NatToString(start) + "-" + NatToString(end)) == Some((start - 1, end))
  {
    var a, b := NatToString(start), NatToString(end);
    NatToStringValue(start);
    NatToStringValue(end);
    StartEndDash(a, b, start, end);
    var t := a + "-" + b;
    assert t[|t| - 1] == b[|b| - 1];
    ParseCoordsDigitLast(t);
  }

  /** Text ending in a digit has no newline to drop. */
  lemma ParseCoordsDigitLast(t: string)
    requires |t| > 0 && IsDigit(t[|t| - 1])
    ensures ParseCoords(t) == StartEnd(t)
  {
  }

  lemma StartEndDash(a: string, b: string, start: int, end: int)
    requires IsDigits(a) && IsDigits(b) && DigitsValue(a) == start && DigitsValue(b) == end
    ensures StartEnd(a + "-" + b) == Some((start - 1, end))
  {
    var t := a + "-" + b;
    IndexOfAfter(a, '-', b);
    assert t[..|a|] == a;
    assert t[|a| + 1..] == b;
    StartEndAt(t, |a|, start, end);
  }

  lemma StartEndAt(t: string, j: nat, start: int, end: int)
    requires IndexOf(t, '-') == Some(j) && j < |t|
    requires IsDigits(t[..j]) && IsDigits(t[j + 1..])
    requires DigitsValue(t[..j]) == start && DigitsValue(t[j + 1..]) == end
    ensures StartEnd(t) == Some((start - 1, end))
  {
  }

  lemma StartEndDigits(a: string, start: int)
    requires IsDigits(a) && DigitsValue(a) == start
    ensures StartEnd(a) == Some((start - 1, WholeContig))
  {
    forall i | 0 <= i < |a| ensures a[i] != '-' {
      assert IsDigit(a[i]);
    }
  }

  lemma ParseCoordsStartOnly(start: nat, newline: bool)
    ensures ParseCoords(NatToString(start) + (if newline then "\n" else "")) == Some((start - 1, WholeContig))
  {
    var a := NatToString(start);
    NatToStringValue(start);
    StartEndDigits(a, start);
    var t := a + (if newline then "\n" else "");
    if newline {
      assert t[..|t| - 1] == a;
    } else {
      assert t == a;
      ParseCoordsDigitLast(a);
    }
  }

  /** `contig:S-E` (1-based start S) parses to start `S - 1` and end `E`. */
  lemma RegionParseStartEnd(contig: string, start: nat, end: nat)
    requires |contig| > 0 && ':' !in contig
    ensures RegionParse(contig + ":" + NatToString(start) + "-" + NatToString(end))
         == Success(Region(contig, start - 1, end))
  {
    var a, b := NatToString(start), NatToString(end);
    ParseCoordsStartEnd(start, end);
    RegionParseContigColon(contig, a + "-" + b, start - 1, end);
    Regroup(contig + ":", a, "-", b);
  }

  /** `contig:S` parses to start `S - 1` and the whole-contig end; so does
      `contig:S` followed by one newline, because Python's `$` matches before it. */
  lemma RegionParseStartOnly(contig: string, start: nat, newline: bool)
    requires |contig| > 0 && ':' !in contig
    ensures RegionParse(contig + ":" + NatToString(start) + (if newline then "\n" else ""))
         == Success(Region(contig, start - 1, WholeContig))
  {
    var suffix := if newline then "\n" else "";
    ParseCoordsStartOnly(start, newline);
    RegionParseContigColon(contig, NatToString(start) + suffix, start - 1, WholeContig);
    Regroup3(contig + ":", NatToString(start), suffix);
  }

  /** A bare contig name parses to the whole contig. */
  lemma RegionParseContigOnly(contig: string)
    requires |contig| > 0 && ':' !in contig
    ensures RegionParse(contig) == Success(Region(contig, WholeContig, WholeContig))
  {
  }

  /** A 1-based start of 0 becomes the 0-based start -1, the whole-contig
      sentinel: `contig:0` cannot be told apart from `contig`. */
  lemma StartZeroIsWholeContig(contig: string)
    requires |contig| > 0 && ':' !in contig
    ensures RegionParse(contig + ":0") == RegionParse(contig)
  {
    RegionParseStartOnly(contig, 0, false);
    ZeroText(contig, NatToString(0));
  }

  lemma ZeroText(contig: string, zero: string)
    requires zero == "0"
    ensures contig + ":" + zero + "" == contig + ":0"
  {
  }

  lemma NatToStringExamples()
    ensures NatToString(1000) == "1000" && NatToString(2000) == "2000"
  {
    assert NatToString(1) == "1";
    assert NatToString(10) == "10";
    assert NatToString(100) == "100";
    assert NatToString(2) == "2";
    assert NatToString(20) == "20";
    assert NatToString(200) == "200";
  }

  /** The documented examples of region strings. */
  lemma RegionParseExamples()
    ensures RegionParse("chr1") == Success(Region("chr1", -1, -1))
    ensures RegionParse("chr1:1000") == Success(Region("chr1", 999, -1))
    ensures RegionParse("chr1:1000-2000") == Success(Region("chr1", 999, 2000))
  {
    NatToStringExamples();
    RegionParseContigOnly("chr1");
    RegionParseStartOnly("chr1", 1000, false);
    ExampleText(NatToString(1000), NatToString(2000));
    RegionParseStartEnd("chr1", 1000, 2000);
  }

  lemma ExampleText(a: string, b: string)
    requires a == "1000" && b == "2000"
    ensures "chr1" + ":" + a + "" == "chr1:1000"
    ensures "chr1" + ":" + a + "-" + b == "chr1:1000-2000"
  {
  }

  /** A region string must start with a non-empty contig name. */
  lemma RegionParseRejects(s: string)
    requires s == "" || s[0] == ':'
    ensures RegionParse(s).Failure?
  {
    if s != "" {
      assert IndexOf(s, ':') == Some(0);
    }
  }

  // ---------------------------------------------------------------------------
  // resolve_contig_name

  predicate HasChrPrefix(name: string) {
    |name| >= 3 && name[..3] == "chr"
  }

  /** The one alternative spelling that is tried: without the leading "chr"
      when the name has it, with "chr" prepended when it does not. */
  function ChrAlternative(name: string): string {
    if HasChrPrefix(name) then name[3..] else "chr" + name
  }

  /** `resolve_contig_name`: the name itself when the header has it, else its
      `chr` alternative when the header has that, else nothing. */
  function ResolveContigName(references: set<string>, contig: string): (r: Option<string>)
    ensures r.Some? ==> r.value in references
    ensures contig in references ==> r == Some(contig)
    ensures contig !in references ==> r == (if ChrAlternative(contig) in references then Some(ChrAlternative(contig)) else None)
  {
    if contig in references then Some(contig)
    else if HasChrPrefix(contig) && contig[3..] in references then Some(contig[3..])
    else if !HasChrPrefix(contig) && "chr" + contig in references then Some("chr" + contig)
    else None
  }

  // ---------------------------------------------------------------------------
  // depth_from_bam

  /** SAM flag bits that keep a record out of the coverage count: unmapped
      (0x4), secondary (0x100), QC-failed (0x200) and duplicate (0x400). */
  const DisqualifyingFlags: bv16 := 0x4 | 0x100 | 0x200 | 0x400

  /** The SAM flag bit of an unmapped record. */
  const Unmapped: bv16 := 0x4

  /** What the core uses of an alignment record: its name, flags and its
      half-open reference span (the end is absent when it cannot be computed). */
  datatype AlignedRead = AlignedRead(name: string, flag: bv16, referenceStart: int, referenceEnd: Option<int>)

  /** The record takes part in the coverage count. */
  predicate Counted(rec: AlignedRead) {
    rec.flag & DisqualifyingFlags == 0 && rec.referenceEnd.Some?
  }

  predicate Covers(rec: AlignedRead, pos: int) {
    Counted(rec) && rec.referenceStart <= pos < rec.referenceEnd.value
  }

  /** The number of counted records whose reference span contains `pos`. */
  function Coverage(records: seq<AlignedRead>, pos: int): nat
    decreases |records|
  {
    if |records| == 0 then 0
    else Coverage(records[..|records| - 1], pos) + (if Covers(records[|records| - 1], pos) then 1 else 0)
  }

  /** Coverage adds up over consecutive batches of records: the order in
      which records arrive does not matter, and each record contributes 1 to
      exactly the positions it covers. */
  lemma {:induction false} CoverageAppend(a: seq<AlignedRead>, b: seq<AlignedRead>, pos: int)
    ensures Coverage(a + b, pos) == Coverage(a, pos) + Coverage(b, pos)
    decreases |b|
  {
    if |b| == 0 {
      assert a + b == a;
    } else {
      var b' := b[..|b| - 1];
      assert (a + b)[..|a + b| - 1] == a + b';
      CoverageAppend(a, b', pos);
    }
  }

  lemma {:induction false} CoverageAtMostReads(records: seq<AlignedRead>, pos: int)
    ensures Coverage(records, pos) <= |records|
    ensures (forall k :: 0 <= k < |records| ==> !Covers(records[k], pos)) ==> Coverage(records, pos) == 0
    decreases |records|
  {
    if |records| > 0 {
      CoverageAtMostReads(records[..|records| - 1], pos);
    }
  }

  /** `depth_from_bam`'s clamping of the requested start to the contig. */
  function ClampStart(start: int): nat {
    if start < 0 then 0 else start
  }

  /** `depth_from_bam`'s clamping of the requested end to the contig. */
  function ClampEnd(end: int, contigLength: nat): nat {
    if end < 0 || end > contigLength then contigLength else end
  }

  /** `depth_from_bam` over the records that `fetch` yields for the region:
      resolve the contig against the header (name to length), clamp the
      bounds, then count every qualifying record at each position of its
      span clipped to the bounds. */
  method DepthFromBam(header: map<string, nat>, records: seq<AlignedRead>, contig: string, start: int, end: int)
    returns (r: Result<DepthArray>)
    ensures ResolveContigName(header.Keys, contig).None? ==> r.Failure?
    ensures ResolveContigName(header.Keys, contig).Some? ==>
      var name := ResolveContigName(header.Keys, contig).value;
      var s, e := ClampStart(start), ClampEnd(end, header[name]);
      && (r.Failure? <==> s > e)
      && (r.Success? ==>
            && r.value.contig == name && r.value.start == s && r.value.end == e && r.value.Valid()
            && forall i :: 0 <= i < |r.value.depths| ==> r.value.depths[i] == Coverage(records, s + i))
  {
    var resolved := ResolveContigName(header.Keys, contig);
    if resolved.None? {
      return Failure("Contig '" + contig + "' not found in BAM header");
    }
    var name := resolved.value;
    var contigLength := header[name];
    var s, e := start, end;
    if s < 0 {
      s := 0;
    }
    if e < 0 || e > contigLength {
      e := contigLength;
    }
    if s > e {
      return Failure("negative dimensions are not allowed");
    }
    var depths := CountCoverage(records, s, e);
    return Success(DepthArray(name, s, e, depths));
  }

  /** The counting loop of `depth_from_bam`: a zeroed array over [s, e),
      and for each qualifying record a +1 over its span clipped to [s, e). */
  method CountCoverage(records: seq<AlignedRead>, s: int, e: int) returns (counts: seq<int>)
    requires s <= e
    ensures |counts| == e - s
    ensures forall i :: 0 <= i < |counts| ==> counts[i] == Coverage(records, s + i)
  {
    var depths := new int[e - s](_ => 0);
    var k := 0;
    while k < |records|
      invariant 0 <= k <= |records|
      invariant forall i :: 0 <= i < depths.Length ==> depths[i] == Coverage(records[..k], s + i)
    {
      var rec := records[k];
      assert records[..k + 1][..k] == records[..k];
      if rec.flag & DisqualifyingFlags == 0 && rec.referenceEnd.Some? {
        var ovStart := if rec.referenceStart > s then rec.referenceStart else s;
        var ovEnd := if rec.referenceEnd.value < e then rec.referenceEnd.value else e;
        if ovStart < ovEnd {
          // depths[ovStart - s : ovEnd - s] += 1
          var p := ovStart - s;
          while p < ovEnd - s
            invariant ovStart - s <= p <= ovEnd - s
            invariant forall i :: 0 <= i < depths.Length ==>
              depths[i] == Coverage(records[..k], s + i) + (if ovStart - s <= i < p then 1 else 0)
          {
            depths[p] := depths[p] + 1;
            p := p + 1;
          }
        }
      }
      k := k + 1;
    }
    assert records[..|records|] == records;
    counts := depths[..];
  }
}
