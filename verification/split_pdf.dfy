/**
  Splitting a PDF: the strict range parser that turns "1-3,5,7-9" into
  groups of 0-based page indices (the first bad segment aborts the whole
  request with an error), and the three split modes with their output file
  names. The PDF library that copies pages and writes the files is not
  modelled: an output file is its name and the page indices copied into it.
 */
module SplitPdf {
  import opened Common
  import opened RangeSyntax

  datatype RangeError =
    | NoRanges
    | RangeOutOfBounds(segment: string)
    | StartExceedsEnd(segment: string)
    | PageOutOfBounds(page: nat)
    | InvalidFormat(segment: string)

  // ---------------------------------------------------------------------------
  // parseRanges
  // ---------------------------------------------------------------------------

  /** The indices `lo`, `lo + 1`, ..., `hi - 1`. */
  function Span(lo: int, hi: int): (r: seq<int>)
    requires lo <= hi
  {
    seq(hi - lo, i requires 0 <= i < hi - lo => lo + i)
  }

  /** The group one segment stands for, or the error it raises. */
  function SegmentGroup(seg: string, pageCount: nat): Result<seq<int>, RangeError> {
    match MatchRange(seg)
    case Some((a, b)) =>
      var start, end := Number(a), Number(b);
      if start < 1 || end < 1 || start > pageCount || end > pageCount then Failure(RangeOutOfBounds(seg))
      else if start > end then Failure(StartExceedsEnd(seg))
      else Success(Span(start - 1, end))
    case None =>
      if |seg| > 0 && AllDigits(seg) then
        var page := Number(seg);
        if page < 1 || page > pageCount then Failure(PageOutOfBounds(page)) else Success([page - 1])
      else Failure(InvalidFormat(seg))
  }

  /** The results of `f` on the items in order, or the error of the first
      item on which `f` fails. */
  function Collect<S, G, E>(items: seq<S>, f: S -> Result<G, E>): Result<seq<G>, E> {
    if |items| == 0 then Success([])
    else
      match Collect(items[..|items| - 1], f)
      case Failure(e) => Failure(e)
      case Success(done) =>
        match f(items[|items| - 1])
        case Failure(e) => Failure(e)
        case Success(g) => Success(done + [g])
  }

  /** The groups of the segments in order, or the error of the first segment
      that raises one. */
  function GroupsOf(segments: seq<string>, pageCount: nat): Result<seq<seq<int>>, RangeError> {
    Collect(segments, SegmentGroupFor(pageCount))
  }

  function SegmentGroupFor(pageCount: nat): string -> Result<seq<int>, RangeError> {
    seg => SegmentGroup(seg, pageCount)
  }

  /** What `parseRanges` returns or throws. */
  function RangeGroups(rangeStr: string, pageCount: nat): Result<seq<seq<int>>, RangeError> {
    var segments := Segments(rangeStr);
    if |segments| == 0 then Failure(NoRanges) else GroupsOf(segments, pageCount)
  }

  method ParseRanges(rangeStr: string, pageCount: nat) returns (r: Result<seq<seq<int>>, RangeError>)
    ensures r == RangeGroups(rangeStr, pageCount)
  {
    var segments := Segments(rangeStr);
    if |segments| == 0 {
      return Failure(NoRanges);
    }
    r := ParseSegments(segments, pageCount);
  }

  /** The `parseRanges` loop: the groups in order, or the first error. */
  method ParseSegments(segments: seq<string>, pageCount: nat) returns (r: Result<seq<seq<int>>, RangeError>)
    ensures r == GroupsOf(segments, pageCount)
  {
    var result: seq<seq<int>> := [];
    for k := 0 to |segments|
      invariant Collect(segments[..k], SegmentGroupFor(pageCount)) == Success(result)
    {
      assert segments[..k + 1][..k] == segments[..k];
      var group := ParseSegment(segments[k], pageCount);
      assert group == SegmentGroupFor(pageCount)(segments[k]);
      if group.Failure? {
        CollectFailurePersists(segments, k + 1, SegmentGroupFor(pageCount));
        return Failure(group.error);
      }
      result := result + [group.value];
    }
    assert segments[..|segments|] == segments;
    return Success(result);
  }

  /** The body of the `parseRanges` loop for one segment. */
  method ParseSegment(segment: string, pageCount: nat) returns (r: Result<seq<int>, RangeError>)
    ensures r == SegmentGroup(segment, pageCount)
  {
    var match_ := MatchRange(segment);
    if match_.Some? {
      var start, end := Number(match_.value.0), Number(match_.value.1);
      if start < 1 || end < 1 || start > pageCount || end > pageCount {
        return Failure(RangeOutOfBounds(segment));
      }
      if start > end {
        return Failure(StartExceedsEnd(segment));
      }
      var pages := PageSpan(start, end);
      assert pages == Span(start - 1, end);
      return Success(pages);
    } else if |segment| > 0 && AllDigits(segment) {
      var page := Number(segment);
      if page < 1 || page > pageCount {
        return Failure(PageOutOfBounds(page));
      }
      return Success([page - 1]);
    } else {
      return Failure(InvalidFormat(segment));
    }
  }

  /** The 0-based indices of the 1-based pages `start..end`, ascending. */
  method PageSpan(start: nat, end: nat) returns (pages: seq<int>)
    requires 1 <= start <= end
    ensures |pages| == end - start + 1
    ensures forall i :: 0 <= i < |pages| ==> pages[i] == start - 1 + i
  {
    pages := [];
    for p := start to end + 1
      invariant |pages| == p - start
      invariant forall i :: 0 <= i < |pages| ==> pages[i] == start - 1 + i
    {
      pages := pages + [p - 1];
    }
  }

  /** Once an item has failed, later items change nothing. */
  lemma {:induction false} CollectFailurePersists<S, G, E>(items: seq<S>, k: nat, f: S -> Result<G, E>)
    requires k <= |items| && Collect(items[..k], f).Failure?
    ensures Collect(items, f) == Collect(items[..k], f)
  {
    if k < |items| {
      var init := items[..|items| - 1];
      assert init[..k] == items[..k];
      CollectFailurePersists(init, k, f);
    } else {
      assert items[..k] == items;
    }
  }

  lemma {:induction false} CollectSuccess<S, G, E>(items: seq<S>, f: S -> Result<G, E>)
    ensures Collect(items, f).Success? <==> forall i :: 0 <= i < |items| ==> f(items[i]).Success?
    ensures Collect(items, f).Success? ==>
              && |Collect(items, f).value| == |items|
              && forall i :: 0 <= i < |items| ==> Collect(items, f).value[i] == f(items[i]).value
  {
    if |items| > 0 {
      var n := |items| - 1;
      var init := items[..n];
      CollectSuccess(init, f);
      assert forall i :: 0 <= i < n ==> init[i] == items[i];
    }
  }

  lemma {:induction false} CollectFailure<S, G, E>(items: seq<S>, f: S -> Result<G, E>)
    requires Collect(items, f).Failure?
    ensures exists i :: && 0 <= i < |items|
                        && f(items[i]) == Failure(Collect(items, f).error)
                        && forall j :: 0 <= j < i ==> f(items[j]).Success?
  {
    var n := |items| - 1;
    var init := items[..n];
    assert forall j :: 0 <= j < n ==> init[j] == items[j];
    if Collect(init, f).Failure? {
      CollectFailure(init, f);
      var i :| && 0 <= i < |init|
               && f(init[i]) == Failure(Collect(init, f).error)
               && forall j :: 0 <= j < i ==> f(init[j]).Success?;
      assert f(items[i]) == Failure(Collect(items, f).error);
    } else {
      CollectSuccess(init, f);
    }
  }

  /** The segment list succeeds exactly when every segment does, and then
      there is one group per segment, in input order. */
  lemma GroupsOfSuccess(segments: seq<string>, pageCount: nat)
    ensures GroupsOf(segments, pageCount).Success?
        <==> forall i :: 0 <= i < |segments| ==> SegmentGroup(segments[i], pageCount).Success?
    ensures GroupsOf(segments, pageCount).Success? ==>
              && |GroupsOf(segments, pageCount).value| == |segments|
              && forall i :: 0 <= i < |segments| ==>
                   GroupsOf(segments, pageCount).value[i] == SegmentGroup(segments[i], pageCount).value
  {
    CollectSuccess(segments, SegmentGroupFor(pageCount));
  }

  /** A failure is the error of the first segment that raises one: every
      segment before it succeeds. */
  lemma GroupsOfFailure(segments: seq<string>, pageCount: nat)
    requires GroupsOf(segments, pageCount).Failure?
    ensures exists i :: && 0 <= i < |segments|
                        && SegmentGroup(segments[i], pageCount) == Failure(GroupsOf(segments, pageCount).error)
                        && forall j :: 0 <= j < i ==> SegmentGroup(segments[j], pageCount).Success?
  {
    CollectFailure(segments, SegmentGroupFor(pageCount));
  }

  /** A group is never empty, and holds consecutive ascending indices within
      `[0, pageCount)`. */
  lemma SegmentGroupProperties(seg: string, pageCount: nat)
    requires SegmentGroup(seg, pageCount).Success?
    ensures |SegmentGroup(seg, pageCount).value| > 0
    ensures forall i :: 0 <= i < |SegmentGroup(seg, pageCount).value| ==>
              && SegmentGroup(seg, pageCount).value[i] == SegmentGroup(seg, pageCount).value[0] + i
              && 0 <= SegmentGroup(seg, pageCount).value[i] < pageCount
  {
  }

  /** A segment of the form `a-b` (with optional white space around the
      hyphen) stands for the indices `a - 1 .. b - 1`, or raises an error. */
  lemma RangeSegment(a: string, w1: string, w2: string, b: string, pageCount: nat)
    requires |a| > 0 && |b| > 0 && AllDigits(a) && AllDigits(b) && IsBlank(w1) && IsBlank(w2)
    ensures var start, end := Number(a), Number(b);
            SegmentGroup(a + w1 + "-" + w2 + b, pageCount) ==
              if start < 1 || end < 1 || start > pageCount || end > pageCount then
                Failure(RangeOutOfBounds(a + w1 + "-" + w2 + b))
              else if start > end then Failure(StartExceedsEnd(a + w1 + "-" + w2 + b))
              else Success(Span(start - 1, end))
  {
    MatchRangeComplete(a, w1, w2, b);
  }

  /** A bare number `n` stands for the group `[n - 1]`, or raises an error. */
  lemma BareNumberSegment(seg: string, pageCount: nat)
    requires |seg| > 0 && AllDigits(seg)
    ensures SegmentGroup(seg, pageCount) ==
              if 1 <= Number(seg) <= pageCount then Success([Number(seg) - 1])
              else Failure(PageOutOfBounds(Number(seg)))
  {
    DigitRunAfterDigits(seg, "");
    assert seg + "" == seg;
    assert seg[|seg|..] == "";
  }

  /** An error is "no ranges" exactly when nothing but commas and white space
      was given. */
  lemma NoRangesExactly(rangeStr: string, pageCount: nat)
    ensures RangeGroups(rangeStr, pageCount) == Failure(NoRanges) <==> |Segments(rangeStr)| == 0
  {
    var segments := Segments(rangeStr);
    if |segments| > 0 && GroupsOf(segments, pageCount).Failure? {
      GroupsOfFailure(segments, pageCount);
      var i :| 0 <= i < |segments| && SegmentGroup(segments[i], pageCount) == Failure(GroupsOf(segments, pageCount).error);
      SegmentNeverNoRanges(segments[i], pageCount);
    }
  }

  /** A single segment never raises the "no ranges" error. */
  lemma SegmentNeverNoRanges(seg: string, pageCount: nat)
    ensures SegmentGroup(seg, pageCount) != Failure(NoRanges)
  {
  }

  /** On success: one group per segment, in input order, none empty, every
      index within `[0, pageCount)`. */
  lemma RangeGroupsProperties(rangeStr: string, pageCount: nat)
    requires RangeGroups(rangeStr, pageCount).Success?
    ensures |RangeGroups(rangeStr, pageCount).value| == |Segments(rangeStr)|
    ensures NonEmptyGroups(RangeGroups(rangeStr, pageCount).value)
    ensures forall i, j :: 0 <= i < |RangeGroups(rangeStr, pageCount).value| &&
                           0 <= j < |RangeGroups(rangeStr, pageCount).value[i]| ==>
              0 <= RangeGroups(rangeStr, pageCount).value[i][j] < pageCount
  {
    var segments := Segments(rangeStr);
    var groups := RangeGroups(rangeStr, pageCount).value;
    GroupsOfSuccess(segments, pageCount);
    forall i | 0 <= i < |groups|
      ensures |groups[i]| > 0 && forall j :: 0 <= j < |groups[i]| ==> 0 <= groups[i][j] < pageCount
    {
      SegmentGroupProperties(segments[i], pageCount);
    }
  }

  // ---------------------------------------------------------------------------
  // splitPdf
  // ---------------------------------------------------------------------------

  datatype Mode = All | Ranges | Extract

  /** An output PDF: its file name and the source page indices it holds. */
  datatype OutputFile = OutputFile(filename: string, pages: seq<int>)

  /** `name.replace(/\.pdf$/i, '')`. */
  function BaseName(name: string): string {
    if |name| >= 4 && Lower(name[|name| - 4..]) == ".pdf" then name[..|name| - 4] else name
  }

  /** The file name is its base name followed by nothing or by a suffix that
      reads ".pdf" in any letter case. */
  lemma BaseNameProperties(name: string)
    ensures exists suffix :: name == BaseName(name) + suffix && (suffix == "" || Lower(suffix) == ".pdf")
    ensures forall base :: BaseName(base + ".pdf") == base && BaseName(base + ".PDF") == base
  {
    var suffix := if |name| >= 4 && Lower(name[|name| - 4..]) == ".pdf" then name[|name| - 4..] else "";
    assert name == BaseName(name) + suffix;
    forall base: string ensures BaseName(base + ".pdf") == base && BaseName(base + ".PDF") == base {
      assert (base + ".pdf")[|base|..] == ".pdf";
      assert (base + ".PDF")[|base|..] == ".PDF";
      assert (base + ".pdf")[..|base|] == base;
      assert (base + ".PDF")[..|base|] == base;
    }
  }

  /** `${baseName}_page_${i + 1}.pdf`. */
  function PageFileName(base: string, i: nat): string {
    base + "_page_" + NatToString(i + 1) + ".pdf"
  }

  /** `first` for a one-page group, `first-last` otherwise (1-based). */
  function RangeLabel(group: seq<int>): string
    requires |group| > 0 && group[0] >= 0 && Last(group) >= 0
  {
    var first, last := group[0] + 1, Last(group) + 1;
    if first == last then NatToString(first) else NatToString(first) + "-" + NatToString(last)
  }

  /** Index groups whose entries are all valid page indices. */
  predicate ValidGroups(groups: seq<seq<int>>) {
    forall i :: 0 <= i < |groups| ==> |groups[i]| > 0 && groups[i][0] >= 0 && Last(groups[i]) >= 0
  }

  /** 'all' mode: one file per page. */
  function AllFiles(base: string, pageCount: nat): seq<OutputFile> {
    seq(pageCount, i requires 0 <= i < pageCount => OutputFile(PageFileName(base, i), [i]))
  }

  /** 'ranges' mode: one file per group, `${baseName}_pages_${label}.pdf`. */
  function RangeFiles(base: string, groups: seq<seq<int>>): seq<OutputFile>
    requires ValidGroups(groups)
  {
    seq(|groups|, g requires 0 <= g < |groups| =>
      OutputFile(base + "_pages_" + RangeLabel(groups[g]) + ".pdf", groups[g]))
  }

  lemma RangeGroupsValid(ranges: string, pageCount: nat)
    requires RangeGroups(ranges, pageCount).Success?
    ensures ValidGroups(RangeGroups(ranges, pageCount).value)
  {
    var groups := RangeGroups(ranges, pageCount).value;
    RangeGroupsProperties(ranges, pageCount);
    forall i | 0 <= i < |groups| ensures |groups[i]| > 0 && groups[i][0] >= 0 && Last(groups[i]) >= 0 {
      assert |groups[i]| > 0;
      assert 0 <= groups[i][|groups[i]| - 1] < pageCount;
    }
  }

  /** The files `splitPdf` produces and the progress it reports, or the
      error `parseRanges` raises. */
  function SplitResult(name: string, mode: Mode, ranges: string, pageCount: nat)
    : Result<(seq<OutputFile>, seq<int>), RangeError>
  {
    var base := BaseName(name);
    match mode
    case All => Success((AllFiles(base, pageCount), ProgressReports(pageCount)))
    case Ranges =>
      (match RangeGroups(ranges, pageCount)
       case Failure(e) => Failure(e)
       case Success(groups) =>
         RangeGroupsValid(ranges, pageCount);
         Success((RangeFiles(base, groups), ProgressReports(|groups|))))
    case Extract =>
      (match RangeGroups(ranges, pageCount)
       case Failure(e) => Failure(e)
       case Success(groups) =>
         var allPages := Flatten(groups);
         Success(([OutputFile(base + "_extracted.pdf", allPages)], ProgressReports(|allPages|))))
  }

  method SplitPdf(name: string, mode: Mode, ranges: string, pageCount: nat)
    returns (r: Result<(seq<OutputFile>, seq<int>), RangeError>)
    ensures r == SplitResult(name, mode, ranges, pageCount)
  {
    var base := BaseName(name);
    var results: seq<OutputFile> := [];
    var progress: seq<int> := [];
    match mode
    case All =>
      for i := 0 to pageCount
        invariant results == AllFiles(base, pageCount)[..i]
        invariant progress == ProgressReports(pageCount)[..i]
      {
        NextPrefix(results, AllFiles(base, pageCount), i, OutputFile(PageFileName(base, i), [i]));
        NextPrefix(progress, ProgressReports(pageCount), i, Percent(i + 1, pageCount));
        results := results + [OutputFile(PageFileName(base, i), [i])];
        progress := progress + [Percent(i + 1, pageCount)];
      }
      assert AllFiles(base, pageCount)[..pageCount] == AllFiles(base, pageCount);
      assert ProgressReports(pageCount)[..pageCount] == ProgressReports(pageCount);
      return Success((results, progress));
    case Ranges =>
      var parsed := ParseRanges(ranges, pageCount);
      if parsed.Failure? {
        return Failure(parsed.error);
      }
      var groups := parsed.value;
      RangeGroupsValid(ranges, pageCount);
      var n := |groups|;
      for g := 0 to n
        invariant results == RangeFiles(base, groups)[..g]
        invariant progress == ProgressReports(n)[..g]
      {
        var group := groups[g];
        var file := OutputFile(base + "_pages_" + RangeLabel(group) + ".pdf", group);
        NextPrefix(results, RangeFiles(base, groups), g, file);
        NextPrefix(progress, ProgressReports(n), g, Percent(g + 1, n));
        results := results + [file];
        progress := progress + [Percent(g + 1, n)];
      }
      assert RangeFiles(base, groups)[..n] == RangeFiles(base, groups);
      assert ProgressReports(n)[..n] == ProgressReports(n);
      return Success((results, progress));
    case Extract =>
      var parsed := ParseRanges(ranges, pageCount);
      if parsed.Failure? {
        return Failure(parsed.error);
      }
      var allPages := Flatten(parsed.value);
      var n := |allPages|;
      for i := 0 to n
        invariant progress == ProgressReports(n)[..i]
      {
        NextPrefix(progress, ProgressReports(n), i, Percent(i + 1, n));
        progress := progress + [Percent(i + 1, n)];
      }
      assert ProgressReports(n)[..n] == ProgressReports(n);
      results := [OutputFile(base + "_extracted.pdf", allPages)];
      return Success((results, progress));
  }

  /** Distinct pages get distinct file names in 'all' mode. */
  lemma PageFileNamesDistinct(base: string, i: nat, j: nat)
    requires i != j
    ensures PageFileName(base, i) != PageFileName(base, j)
  {
    PageNumberInName(base, i);
    PageNumberInName(base, j);
  }

  /** The page number can be read back from the file name. */
  lemma PageNumberInName(base: string, i: nat)
    ensures var name := PageFileName(base, i);
            |name| >= |base| + 10 && DigitsValue(name[|base| + 6..|name| - 4], 10) == i + 1
  {
    var name := PageFileName(base, i);
    assert name[|base| + 6..|name| - 4] == NatToString(i + 1);
  }

  /** 'all' mode: file `i` holds exactly page `i`, and no two files share a name. */
  lemma AllFilesProperties(base: string, pageCount: nat)
    ensures |AllFiles(base, pageCount)| == pageCount
    ensures forall i :: 0 <= i < pageCount ==> AllFiles(base, pageCount)[i].pages == [i]
    ensures forall i, j :: 0 <= i < j < pageCount ==>
              AllFiles(base, pageCount)[i].filename != AllFiles(base, pageCount)[j].filename
  {
    forall i, j | 0 <= i < j < pageCount
      ensures AllFiles(base, pageCount)[i].filename != AllFiles(base, pageCount)[j].filename
    {
      PageFileNamesDistinct(base, i, j);
    }
  }

  /** For a group `parseRanges` returns, the label holds a hyphen exactly
      when the group has more than one page. */
  lemma RangeLabelShape(seg: string, pageCount: nat)
    requires SegmentGroup(seg, pageCount).Success?
    ensures var g := SegmentGroup(seg, pageCount).value;
            |g| > 0 && g[0] >= 0 && Last(g) >= 0 && ('-' in RangeLabel(g) <==> |g| > 1)
  {
    var g := SegmentGroup(seg, pageCount).value;
    SegmentGroupProperties(seg, pageCount);
    var first, last := g[0] + 1, Last(g) + 1;
    assert last == first + |g| - 1;
    var a, b := NatToString(first), NatToString(last);
    assert forall k :: 0 <= k < |a| ==> a[k] != '-';
    if first != last {
      assert (a + "-" + b)[|a|] == '-';
    }
  }

  /** 'extract' mode: one file holding the groups one after the other,
      repeated pages included, so its page count is the sum of the groups'. */
  lemma {:induction false} ExtractKeepsEveryPage(groups: seq<seq<int>>)
    ensures forall x :: x in Flatten(groups) <==> exists i :: 0 <= i < |groups| && x in groups[i]
    ensures |Flatten(groups)| == TotalLength(groups)
  {
    if |groups| > 0 {
      var init := groups[..|groups| - 1];
      ExtractKeepsEveryPage(init);
      assert forall i :: 0 <= i < |init| ==> init[i] == groups[i];
    }
  }

  function TotalLength(groups: seq<seq<int>>): nat {
    if |groups| == 0 then 0 else TotalLength(groups[..|groups| - 1]) + |Last(groups)|
  }
}
