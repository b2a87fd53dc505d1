/**
  Rotating PDF pages: the lenient page-list parser, which clamps spans to
  the document, skips anything it cannot read and never fails, and the
  rotation update, which adds the angle to the current rotation of every
  target page. A document's pages are represented by the array of their
  rotations; the PDF library that reads and writes them is not modelled.
 */
module RotatePdf {
  import opened Common
  import opened RangeSyntax

  function Max(a: int, b: int): int {
    if a >= b then a else b
  }

  function Min(a: int, b: int): int {
    if a <= b then a else b
  }

  // ---------------------------------------------------------------------------
  // parsePageRanges
  // ---------------------------------------------------------------------------

  /** The 1-based pages one part names: a span `a-b` clamped to
      `1..totalPages`, or the leading integer of anything else when it is a
      page of the document. */
  function PartPages(part: string, totalPages: nat): set<int> {
    match MatchRange(part)
    case Some((a, b)) =>
      Between(Max(1, Number(a)), Min(totalPages, Number(b)))
    case None =>
      match ParseInt(part, 10)
      case Some(num) => if 1 <= num <= totalPages then {num} else {}
      case None => {}
  }

  /** The integers from `lo` to `hi`. */
  function Between(lo: int, hi: int): set<int>
    decreases hi - lo
  {
    if hi < lo then {} else Between(lo, hi - 1) + {hi}
  }

  lemma {:induction false} BetweenMembers(lo: int, hi: int)
    ensures forall p :: p in Between(lo, hi) <==> lo <= p <= hi
    decreases hi - lo
  {
    if lo <= hi {
      BetweenMembers(lo, hi - 1);
    }
  }

  /** The union of `f` over the items. */
  function UnionOf<T>(items: seq<T>, f: T -> set<int>): set<int> {
    if |items| == 0 then {} else UnionOf(items[..|items| - 1], f) + f(Last(items))
  }

  lemma {:induction false} UnionOfMembers<T>(items: seq<T>, f: T -> set<int>)
    ensures forall p :: p in UnionOf(items, f) <==> exists i :: 0 <= i < |items| && p in f(items[i])
  {
    if |items| > 0 {
      var n := |items| - 1;
      UnionOfMembers(items[..n], f);
      assert forall i :: 0 <= i < n ==> items[..n][i] == items[i];
    }
  }

  function PartPagesFor(totalPages: nat): string -> set<int> {
    part => PartPages(part, totalPages)
  }

  /** The pages all the parts name together. */
  function PageSet(parts: seq<string>, totalPages: nat): set<int> {
    UnionOf(parts, PartPagesFor(totalPages))
  }

  predicate StrictlyAscending(s: seq<int>) {
    forall i, j :: 0 <= i < j < |s| ==> s[i] < s[j]
  }

  /** The parsed page list: the named pages, each once, in ascending order. */
  method ParsePageRanges(input: string, totalPages: nat) returns (result: seq<int>)
    ensures StrictlyAscending(result)
    ensures forall p :: p in result <==> p in PageSet(Segments(input), totalPages)
  {
    var pages: set<int> := {};
    var parts := Segments(input);
    for n := 0 to |parts|
      invariant pages == PageSet(parts[..n], totalPages)
    {
      pages := AddPart(pages, parts[n], totalPages);
      PageSetStep(parts, n, totalPages);
    }
    assert parts[..|parts|] == parts;
    PageSetInRange(parts, totalPages);
    result := Ascending(pages, totalPages);
  }

  lemma PageSetStep(parts: seq<string>, n: nat, totalPages: nat)
    requires n < |parts|
    ensures PageSet(parts[..n + 1], totalPages) == PageSet(parts[..n], totalPages) + PartPages(parts[n], totalPages)
  {
    assert parts[..n + 1][..n] == parts[..n];
  }

  /** The body of the parsing loop for one part. */
  method AddPart(pages: set<int>, part: string, totalPages: nat) returns (pages': set<int>)
    ensures pages' == pages + PartPages(part, totalPages)
  {
    pages' := pages;
    var rangeMatch := MatchRange(part);
    if rangeMatch.Some? {
      var start := Max(1, Number(rangeMatch.value.0));
      var end := Min(totalPages, Number(rangeMatch.value.1));
      var i := start;
      while i <= end
        invariant start <= i && (i <= end + 1 || i == start)
        invariant pages' == pages + Between(start, i - 1)
      {
        pages' := pages' + {i};
        i := i + 1;
      }
    } else {
      var num := ParseInt(part, 10);
      if num.Some? && num.value >= 1 && num.value <= totalPages {
        pages' := pages' + {num.value};
      }
    }
  }

  /** `Array.from(pages).sort((a, b) => a - b)` for a set of pages of the
      document: its members in ascending order. */
  method Ascending(pages: set<int>, totalPages: nat) returns (result: seq<int>)
    requires forall p :: p in pages ==> 1 <= p <= totalPages
    ensures StrictlyAscending(result)
    ensures forall p :: p in result <==> p in pages
  {
    result := [];
    for p := 1 to totalPages + 1
      invariant StrictlyAscending(result)
      invariant forall i :: 0 <= i < |result| ==> result[i] < p
      invariant forall q :: q in result <==> q in pages && q < p
    {
      if p in pages {
        result := result + [p];
      }
    }
  }

  /** Every page a part names is a page of the document. */
  lemma PartPagesInRange(part: string, totalPages: nat)
    ensures forall p :: p in PartPages(part, totalPages) ==> 1 <= p <= totalPages
  {
    if MatchRange(part).Some? {
      var (a, b) := MatchRange(part).value;
      BetweenMembers(Max(1, Number(a)), Min(totalPages, Number(b)));
    }
  }

  lemma PageSetInRange(parts: seq<string>, totalPages: nat)
    ensures forall p :: p in PageSet(parts, totalPages) ==> 1 <= p <= totalPages
  {
    PageSetMembers(parts, totalPages);
    forall i | 0 <= i < |parts| {
      PartPagesInRange(parts[i], totalPages);
    }
  }

  /** A page is in the result exactly when some part names it. */
  lemma PageSetMembers(parts: seq<string>, totalPages: nat)
    ensures forall p :: p in PageSet(parts, totalPages) <==>
              exists i :: 0 <= i < |parts| && p in PartPages(parts[i], totalPages)
  {
    UnionOfMembers(parts, PartPagesFor(totalPages));
  }

  /** Reordering or repeating parts changes nothing: only the set of parts
      matters. */
  lemma OnlyThePartsMatter(parts1: seq<string>, parts2: seq<string>, totalPages: nat)
    requires forall part :: part in parts1 <==> part in parts2
    ensures PageSet(parts1, totalPages) == PageSet(parts2, totalPages)
  {
    PageSetMembers(parts1, totalPages);
    PageSetMembers(parts2, totalPages);
    forall p | p in PageSet(parts1, totalPages) ensures p in PageSet(parts2, totalPages) {
      var i :| 0 <= i < |parts1| && p in PartPages(parts1[i], totalPages);
      assert parts1[i] in parts2;
      var j :| 0 <= j < |parts2| && parts2[j] == parts1[i];
    }
    forall p | p in PageSet(parts2, totalPages) ensures p in PageSet(parts1, totalPages) {
      var j :| 0 <= j < |parts2| && p in PartPages(parts2[j], totalPages);
      assert parts2[j] in parts1;
      var i :| 0 <= i < |parts1| && parts1[i] == parts2[j];
    }
  }

  /** A span part adds exactly the pages from `max(1, a)` to
      `min(totalPages, b)`: nothing when that is empty, and never an error. */
  lemma SpanPart(a: string, w1: string, w2: string, b: string, totalPages: nat)
    requires |a| > 0 && |b| > 0 && AllDigits(a) && AllDigits(b) && IsBlank(w1) && IsBlank(w2)
    ensures forall p :: p in PartPages(a + w1 + "-" + w2 + b, totalPages) <==>
              Max(1, Number(a)) <= p <= Min(totalPages, Number(b))
  {
    MatchRangeComplete(a, w1, w2, b);
    BetweenMembers(Max(1, Number(a)), Min(totalPages, Number(b)));
  }

  /** Any other part counts with its leading integer, when that is a page of
      the document. */
  lemma OtherPart(part: string, totalPages: nat)
    requires MatchRange(part).None?
    ensures PartPages(part, totalPages) ==
              if ParseInt(part, 10).Some? && 1 <= ParseInt(part, 10).value <= totalPages
              then {ParseInt(part, 10).value} else {}
  {
  }

  /** "3x" names page 3: parsing stops at the first non-digit. */
  lemma TrailingLetterIgnored()
    ensures PartPages("3x", 5) == {3}
  {
    NotASpan("3x");
    LeadingInteger("3x", 3);
  }

  /** "1-" is not a span and names page 1. */
  lemma OpenSpanReadsItsStart()
    ensures PartPages("1-", 5) == {1}
  {
    NotASpan("1-");
    LeadingInteger("1-", 1);
  }

  lemma NotASpan(part: string)
    requires |part| == 2 && IsDigit(part[0]) && !IsDigit(part[1]) && !IsSpace(part[1])
    requires part[1] != '-' || SkipSpaces(part, 2) == 2
    ensures MatchRange(part).None?
  {
    assert DigitRun(part[1..], 10) == 0;
    assert DigitRun(part, 10) == 1;
    assert SkipSpaces(part, 1) == 1;
  }

  lemma LeadingInteger(part: string, d: nat)
    requires |part| == 2 && d < 10 && part[0] == DigitChar(d) && !IsDigit(part[1])
    ensures ParseInt(part, 10) == Some(d)
  {
    var a := [part[0]];
    assert a[..0] == "";
    assert DigitsValue(a, 10) == d;
    assert part == a + part[1..];
    ParseIntLeadingDigits(a, part[1..]);
  }

  /** A strictly ascending list names each page at most once. */
  lemma AscendingHasNoRepeats(s: seq<int>, p: int)
    requires StrictlyAscending(s)
    ensures multiset(s)[p] <= 1
  {
    if |s| > 0 {
      var init := s[..|s| - 1];
      assert StrictlyAscending(init);
      AscendingHasNoRepeats(init, p);
      assert s == init + [Last(s)];
      if Last(s) == p {
        assert p !in init;
      }
    }
  }

  // ---------------------------------------------------------------------------
  // rotatePdf
  // ---------------------------------------------------------------------------

  /** `RotationAngle = 90 | 180 | 270`. */
  predicate IsRotationAngle(angle: int) {
    angle == 90 || angle == 180 || angle == 270
  }

  /** The 1-based pages to rotate: the given list without the numbers that
      are not pages of the document, or every page when no list is given. */
  function Targets(pageIndices: Option<seq<int>>, pageCount: nat): seq<int> {
    match pageIndices
    case None => seq(pageCount, i requires 0 <= i < pageCount => i + 1)
    case Some(indices) => InRange(indices, pageCount)
  }

  /** `.filter((i) => i >= 1 && i <= pages.length)`. */
  function InRange(indices: seq<int>, pageCount: nat): seq<int> {
    if |indices| == 0 then []
    else InRange(indices[..|indices| - 1], pageCount)
         + (if 1 <= Last(indices) <= pageCount then [Last(indices)] else [])
  }

  /** Each target page's rotation grows by the angle once per time the page
      is named; every other page keeps its rotation. */
  method RotatePages(rotation: array<int>, angle: int, pageIndices: Option<seq<int>>)
    requires IsRotationAngle(angle)
    modifies rotation
    ensures forall k :: 0 <= k < rotation.Length ==>
              rotation[k] == old(rotation[k]) + angle * multiset(Targets(pageIndices, rotation.Length))[k + 1]
  {
    var targets := Targets(pageIndices, rotation.Length);
    TargetsInRange(pageIndices, rotation.Length);
    RotateEach(rotation, angle, targets);
  }

  /** The loop over the target pages. */
  method RotateEach(rotation: array<int>, angle: int, targets: seq<int>)
    requires forall i :: 0 <= i < |targets| ==> 1 <= targets[i] <= rotation.Length
    modifies rotation
    ensures forall k :: 0 <= k < rotation.Length ==>
              rotation[k] == old(rotation[k]) + angle * multiset(targets)[k + 1]
  {
    for t := 0 to |targets|
      invariant forall k :: 0 <= k < rotation.Length ==>
                  rotation[k] == old(rotation[k]) + angle * multiset(targets[..t])[k + 1]
    {
      var pageNum := targets[t];
      CountSnoc(targets, t);
      ghost var c := multiset(targets[..t])[pageNum];
      assert angle * (c + 1) == angle * c + angle;
      rotation[pageNum - 1] := rotation[pageNum - 1] + angle;
    }
    assert targets[..|targets|] == targets;
  }

  lemma CountSnoc(s: seq<int>, t: nat)
    requires t < |s|
    ensures forall p :: multiset(s[..t + 1])[p] == multiset(s[..t])[p] + if p == s[t] then 1 else 0
  {
    assert s[..t + 1] == s[..t] + [s[t]];
  }

  /** Every target is a page of the document. */
  lemma {:induction false} TargetsInRange(pageIndices: Option<seq<int>>, pageCount: nat)
    ensures forall i :: 0 <= i < |Targets(pageIndices, pageCount)| ==>
              1 <= Targets(pageIndices, pageCount)[i] <= pageCount
  {
    if pageIndices.Some? {
      InRangeCounts(pageIndices.value, pageCount);
    }
  }

  /** The filter keeps every in-range occurrence and drops every other. */
  lemma {:induction false} InRangeCounts(indices: seq<int>, pageCount: nat)
    ensures forall p :: multiset(InRange(indices, pageCount))[p] ==
              if 1 <= p <= pageCount then multiset(indices)[p] else 0
    ensures forall i :: 0 <= i < |InRange(indices, pageCount)| ==> 1 <= InRange(indices, pageCount)[i] <= pageCount
  {
    if |indices| > 0 {
      var init := indices[..|indices| - 1];
      InRangeCounts(init, pageCount);
      assert indices == init + [Last(indices)];
    }
  }

  /** With no list, every page is rotated exactly once. */
  lemma EveryPageOnce(pageCount: nat, p: int)
    requires 1 <= p <= pageCount
    ensures multiset(Targets(None, pageCount))[p] == 1
  {
    var all := Targets(None, pageCount);
    AllPagesAscending(pageCount);
    AscendingHasNoRepeats(all, p);
    assert all[p - 1] == p;
  }

  lemma AllPagesAscending(pageCount: nat)
    ensures StrictlyAscending(Targets(None, pageCount))
  {
  }

  /** With a list, a page is rotated once per mention, and not at all when
      the list does not name it; numbers outside the document are ignored. */
  lemma ListedPagesOnly(indices: seq<int>, pageCount: nat, p: int)
    requires 1 <= p <= pageCount
    ensures multiset(Targets(Some(indices), pageCount))[p] == multiset(indices)[p]
    ensures p !in indices ==> multiset(Targets(Some(indices), pageCount))[p] == 0
  {
    InRangeCounts(indices, pageCount);
  }

  /** A list from `ParsePageRanges` names each page at most once, so each of
      its pages is rotated exactly once. */
  lemma ParsedListRotatesOnce(indices: seq<int>, pageCount: nat, p: int)
    requires StrictlyAscending(indices) && 1 <= p <= pageCount && p in indices
    ensures multiset(Targets(Some(indices), pageCount))[p] == 1
  {
    ListedPagesOnly(indices, pageCount, p);
    AscendingHasNoRepeats(indices, p);
  }
}
