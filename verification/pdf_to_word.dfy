/**
  PDF to Word reflow. For every page: scan the operator list for painted
  images and the vertical position they were painted at, keep the non-blank
  text runs, group them into lines by baseline, merge lines and images top to
  bottom, and emit one Word paragraph per item (bold headings, images capped
  at the usable page width), with a page break between pages and a progress
  report after each page.

  What the PDF decoder, the image encoder and the Word packer do is not
  modelled: text runs, operator lists and image-lookup outcomes are inputs,
  and paragraphs are plain values.
 */
module PdfToWord {
  import opened Common
  import StableSort

  // ---------------------------------------------------------------------------
  // Operator-list scan (extractPageImages)
  // ---------------------------------------------------------------------------

  /** How the resolved image object holds its pixels: an ImageBitmap in a
      `bitmap` field, an ImageBitmap itself, clamped RGBA bytes, plain bytes,
      or something else. */
  datatype ImageRepr = BitmapField | Bitmap | ClampedBytes | RawBytes | Unrecognised

  /** A resolved image object; a missing width or height reads as 0. */
  datatype ImageObject = ImageObject(width: int, height: int, repr: ImageRepr)

  /** One entry of the page's operator list, as far as the scan looks at it.
      `translateY` is `m[5]` of a transform whose matrix has one; a paint
      operator carries the outcome of resolving its image (`None` when the
      lookup failed, timed out or gave nothing). */
  datatype Op =
    | Transform(translateY: Option<real>)
    | PaintImage(lookup: Option<ImageObject>)
    | PaintInlineImage(inline: Option<ImageObject>)
    | OtherOp

  /** An extracted image: its pixel size and the Y it was painted at. */
  datatype PageImage = PageImage(width: int, height: int, y: real)

  /** Images smaller than this on either side are decoration, not content. */
  const MinImageSide: int := 20

  predicate SetsY(op: Op) {
    op.Transform? && op.translateY.Some?
  }

  /** The image object a paint operator yields, if any. */
  function PaintedObject(op: Op): Option<ImageObject> {
    match op
    case PaintImage(obj) => obj
    case PaintInlineImage(obj) => obj
    case _ => None
  }

  /** The image an operator contributes when painted at `y`: none unless it is
      a paint operator whose object resolved, is at least 20 x 20 and has a
      pixel representation the encoder understands. */
  function ImageFrom(op: Op, y: real): seq<PageImage> {
    match PaintedObject(op)
    case None => []
    case Some(obj) =>
      if obj.width < MinImageSide || obj.height < MinImageSide || obj.repr == Unrecognised then []
      else [PageImage(obj.width, obj.height, y)]
  }

  /** The running Y after scanning `ops`: starts at 0, replaced by every
      transform that has a translation component. */
  function YAfter(ops: seq<Op>): real {
    if |ops| == 0 then 0.0
    else if SetsY(ops[|ops| - 1]) then ops[|ops| - 1].translateY.value
    else YAfter(ops[..|ops| - 1])
  }

  /** The images extracted from `ops`, in scan order. */
  function Extracted(ops: seq<Op>): seq<PageImage> {
    if |ops| == 0 then []
    else Extracted(ops[..|ops| - 1]) + ImageFrom(ops[|ops| - 1], YAfter(ops[..|ops| - 1]))
  }

  method ExtractPageImages(ops: seq<Op>) returns (images: seq<PageImage>)
    ensures images == Extracted(ops)
  {
    images := [];
    var currentY := 0.0;
    for j := 0 to |ops|
      invariant images == Extracted(ops[..j])
      invariant currentY == YAfter(ops[..j])
    {
      assert ops[..j + 1][..j] == ops[..j];
      var paintY := currentY;
      if ops[j].Transform? && ops[j].translateY.Some? {
        currentY := ops[j].translateY.value;
      }
      var obj: Option<ImageObject> := None;
      if ops[j].PaintImage? {
        obj := ops[j].lookup;
      } else if ops[j].PaintInlineImage? {
        obj := ops[j].inline;
      }
      if obj.Some? {
        var w, h := obj.value.width, obj.value.height;
        if !(w < MinImageSide || h < MinImageSide) && obj.value.repr != Unrecognised {
          images := images + [PageImage(w, h, paintY)];
        }
      }
    }
    assert ops[..|ops|] == ops;
  }

  /** Every extracted image is at least 20 x 20. */
  lemma {:induction false} ExtractedAreLargeEnough(ops: seq<Op>)
    ensures forall img :: img in Extracted(ops) ==> img.width >= MinImageSide && img.height >= MinImageSide
  {
    if |ops| > 0 {
      ExtractedAreLargeEnough(ops[..|ops| - 1]);
    }
  }

  /** Operator `j` of `ops` paints `img`, at the Y left by the operators
      before it. */
  ghost predicate PaintedAt(ops: seq<Op>, j: int, img: PageImage) {
    0 <= j < |ops| && img in ImageFrom(ops[j], YAfter(ops[..j]))
  }

  lemma PaintedAtPrefix(ops: seq<Op>, n: nat, j: int, img: PageImage)
    requires n <= |ops| && j < n
    ensures PaintedAt(ops[..n], j, img) == PaintedAt(ops, j, img)
  {
    if 0 <= j {
      assert ops[..n][..j] == ops[..j];
    }
  }

  /** An image is extracted exactly when some operator paints it, at the Y
      left by the operators before it; operators that fail to resolve, are
      too small or are not understood contribute nothing. */
  lemma {:induction false} ExtractedMembership(ops: seq<Op>, img: PageImage)
    ensures img in Extracted(ops) <==> exists j :: PaintedAt(ops, j, img)
  {
    if |ops| > 0 {
      var n := |ops| - 1;
      var init := ops[..n];
      ExtractedMembership(init, img);
      if img in Extracted(ops) && img !in Extracted(init) {
        assert PaintedAt(ops, n, img);
      }
      if img in Extracted(init) {
        var j :| PaintedAt(init, j, img);
        PaintedAtPrefix(ops, n, j, img);
      }
      if exists j :: PaintedAt(ops, j, img) {
        var j :| PaintedAt(ops, j, img);
        if j < n {
          PaintedAtPrefix(ops, n, j, img);
        }
      }
    }
  }

  /** The Y an image is painted at is `m[5]` of the last transform before it ... */
  lemma {:induction false} YAfterLastTransform(ops: seq<Op>, k: nat)
    requires k < |ops| && SetsY(ops[k])
    requires forall i :: k < i < |ops| ==> !SetsY(ops[i])
    ensures YAfter(ops) == ops[k].translateY.value
  {
    if k < |ops| - 1 {
      var init := ops[..|ops| - 1];
      assert init[k] == ops[k];
      YAfterLastTransform(init, k);
    }
  }

  /** ... or 0 when no transform came before it. */
  lemma {:induction false} YAfterNoTransform(ops: seq<Op>)
    requires forall i :: 0 <= i < |ops| ==> !SetsY(ops[i])
    ensures YAfter(ops) == 0.0
  {
    if |ops| > 0 {
      YAfterNoTransform(ops[..|ops| - 1]);
    }
  }

  // ---------------------------------------------------------------------------
  // Text runs and line assembly
  // ---------------------------------------------------------------------------

  /** A positioned text item: its string, baseline Y (`transform[5]`),
      X (`transform[4]`) and height. */
  datatype TextRun = TextRun(str: string, y: real, x: real, height: real)

  datatype TextLine = TextLine(text: string, y: real, fontSize: real)

  /** A run whose trimmed string is not empty. */
  predicate HasText(r: TextRun) {
    Trim(r.str) != ""
  }

  /** Runs whose string is empty or white space only are dropped. */
  function KeepNonBlank(runs: seq<TextRun>): seq<TextRun> {
    if |runs| == 0 then []
    else (if HasText(runs[0]) then [runs[0]] else []) + KeepNonBlank(runs[1..])
  }

  /** The filter keeps exactly the runs with a non-blank string, in order. */
  lemma {:induction false} KeepNonBlankMembers(runs: seq<TextRun>)
    ensures forall r :: r in KeepNonBlank(runs) <==> r in runs && HasText(r)
    ensures |KeepNonBlank(runs)| <= |runs|
  {
    if |runs| > 0 {
      KeepNonBlankMembers(runs[1..]);
      var head := if HasText(runs[0]) then [runs[0]] else [];
      assert KeepNonBlank(runs) == head + KeepNonBlank(runs[1..]);
      forall r
        ensures r in KeepNonBlank(runs) <==> r in runs && HasText(r)
      {
        assert r in runs <==> r == runs[0] || r in runs[1..] by {
          assert runs == [runs[0]] + runs[1..];
        }
      }
    }
  }

  /** Baselines further apart than this are different lines. */
  const LineTolerance: real := 2.0

  /** `height || 12`: a run without a height counts as size 12. */
  function FontSizeOf(run: TextRun): real {
    if run.height == 0.0 then 12.0 else run.height
  }

  predicate Far(y1: real, y2: real) {
    Abs(y2 - y1) > LineTolerance
  }

  /** The loop state: finished lines, the line being built, the previous
      run's Y (`-Infinity` before the first run) and the current line's Y and
      font size. */
  datatype Assembly = Assembly(lines: seq<TextLine>, current: string, lastY: Option<real>,
                               lineY: real, lineFontSize: real)

  /** Ends the current line: it is kept, trimmed, unless it is blank. */
  function Flush(a: Assembly): seq<TextLine> {
    if Trim(a.current) != "" then a.lines + [TextLine(Trim(a.current), a.lineY, a.lineFontSize)]
    else a.lines
  }

  /** One iteration of the assembly loop. */
  function Step(a: Assembly, run: TextRun): Assembly {
    var breaks := a.lastY.Some? && Far(a.lastY.value, run.y);
    var lines := if breaks then Flush(a) else a.lines;
    var current := if breaks then "" else a.current;
    var lineY := if current == "" then run.y else a.lineY;
    var fontSize := if current == "" then FontSizeOf(run) else a.lineFontSize;
    Assembly(lines, current + (if current != "" then " " else "") + run.str, Some(run.y), lineY, fontSize)
  }

  function Assemble(runs: seq<TextRun>): Assembly {
    if |runs| == 0 then Assembly([], "", None, 0.0, 12.0)
    else Step(Assemble(runs[..|runs| - 1]), runs[|runs| - 1])
  }

  /** The lines the assembly loop produces for runs in the given order. */
  function GroupLines(runs: seq<TextRun>): seq<TextLine> {
    Flush(Assemble(runs))
  }

  method AssembleLines(runs: seq<TextRun>) returns (lines: seq<TextLine>)
    ensures lines == GroupLines(runs)
  {
    lines := [];
    var currentLine := "";
    var lastY: Option<real> := None;
    var lineY := 0.0;
    var lineFontSize := 12.0;
    for k := 0 to |runs|
      invariant Assemble(runs[..k]) == Assembly(lines, currentLine, lastY, lineY, lineFontSize)
    {
      assert runs[..k + 1][..k] == runs[..k];
      lines, currentLine, lastY, lineY, lineFontSize :=
        AddRun(lines, currentLine, lastY, lineY, lineFontSize, runs[k]);
    }
    assert runs[..|runs|] == runs;
    if Trim(currentLine) != "" {
      lines := lines + [TextLine(Trim(currentLine), lineY, lineFontSize)];
    }
  }

  /** The body of the assembly loop for one run. */
  method AddRun(lines: seq<TextLine>, currentLine: string, lastY: Option<real>, lineY: real,
                lineFontSize: real, run: TextRun)
    returns (lines': seq<TextLine>, currentLine': string, lastY': Option<real>, lineY': real,
             lineFontSize': real)
    ensures Assembly(lines', currentLine', lastY', lineY', lineFontSize')
         == Step(Assembly(lines, currentLine, lastY, lineY, lineFontSize), run)
  {
    lines', currentLine', lineY', lineFontSize' := lines, currentLine, lineY, lineFontSize;
    var y := run.y;
    var fs := if run.height == 0.0 then 12.0 else run.height;
    if lastY.Some? && Abs(y - lastY.value) > 2.0 {
      if Trim(currentLine') != "" {
        lines' := lines' + [TextLine(Trim(currentLine'), lineY', lineFontSize')];
      }
      currentLine' := "";
    }
    if currentLine' == "" {
      lineY' := y;
      lineFontSize' := fs;
    }
    currentLine' := currentLine' + (if currentLine' != "" then " " else "") + run.str;
    lastY' := Some(y);
  }

  /** Every emitted line has non-blank, trimmed text. */
  lemma {:induction false} LinesAreTrimmedAndNonBlank(runs: seq<TextRun>)
    ensures forall l :: l in GroupLines(runs) ==> l.text != "" && Trim(l.text) == l.text
  {
    LinesTrimmed(runs);
    var a := Assemble(runs);
    if Trim(a.current) != "" {
      TrimIdempotent(a.current);
    }
  }

  lemma {:induction false} LinesTrimmed(runs: seq<TextRun>)
    ensures forall l :: l in Assemble(runs).lines ==> l.text != "" && Trim(l.text) == l.text
  {
    if |runs| > 0 {
      var a := Assemble(runs[..|runs| - 1]);
      LinesTrimmed(runs[..|runs| - 1]);
      if Trim(a.current) != "" {
        TrimIdempotent(a.current);
      }
    }
  }

  lemma TrimIdempotent(s: string)
    ensures Trim(Trim(s)) == Trim(s)
  {
    TrimProperties(s);
    var t := Trim(s);
    if t != "" {
      assert LeadingSpaces(t) == 0;
      assert ContentEnd(t) == |t|;
      assert t[..|t|] == t;
    } else {
      assert LeadingSpaces(t) == 0;
    }
  }

  // --- An independent description of the grouping -----------------------

  /** `s` cut into maximal pieces: an element opens a new piece exactly when
      `brk` holds between it and the element before it. */
  function Groups<T>(s: seq<T>, brk: (T, T) -> bool): (g: seq<seq<T>>)
    ensures |s| > 0 ==> |g| > 0
    ensures NonEmptyGroups(g)
  {
    if |s| == 0 then []
    else
      var init, x := s[..|s| - 1], s[|s| - 1];
      var g := Groups(init, brk);
      if |init| == 0 || brk(Last(init), x) then g + [[x]]
      else g[..|g| - 1] + [Last(g) + [x]]
  }

  /** No break inside a piece. */
  ghost predicate Chained<T>(p: seq<T>, brk: (T, T) -> bool) {
    forall k :: 0 < k < |p| ==> !brk(p[k - 1], p[k])
  }

  ghost predicate AllChained<T>(g: seq<seq<T>>, brk: (T, T) -> bool) {
    forall i :: 0 <= i < |g| ==> Chained(g[i], brk)
  }

  /** A break between every two consecutive pieces: from the last element
      of one to the first element of the next. */
  ghost predicate Separated<T>(g: seq<seq<T>>, brk: (T, T) -> bool) {
    |g| <= 1 ||
    (&& Separated(g[..|g| - 1], brk)
     && |g[|g| - 2]| > 0 && |Last(g)| > 0
     && brk(Last(g[|g| - 2]), Last(g)[0]))
  }

  /** The last element of the last piece is the last element. */
  lemma {:induction false} GroupsLast<T>(s: seq<T>, brk: (T, T) -> bool)
    requires |s| > 0
    ensures Last(Last(Groups(s, brk))) == Last(s)
  {
  }

  lemma ChainedSnoc<T>(p: seq<T>, x: T, brk: (T, T) -> bool)
    requires |p| > 0 && Chained(p, brk) && !brk(Last(p), x)
    ensures Chained(p + [x], brk)
  {
    var q := p + [x];
    forall k | 0 < k < |q| ensures !brk(q[k - 1], q[k]) {
      if k < |p| {
        assert q[k - 1] == p[k - 1] && q[k] == p[k];
      }
    }
  }

  lemma AllChainedSnoc<T>(g: seq<seq<T>>, p: seq<T>, brk: (T, T) -> bool)
    requires AllChained(g, brk) && Chained(p, brk)
    ensures AllChained(g + [p], brk)
  {
    var G := g + [p];
    forall i | 0 <= i < |G| ensures Chained(G[i], brk) {
      if i < |g| {
        assert G[i] == g[i];
      }
    }
  }

  lemma SeparatedSnoc<T>(g: seq<seq<T>>, p: seq<T>, brk: (T, T) -> bool)
    requires Separated(g, brk) && |p| > 0
    requires |g| > 0 ==> |Last(g)| > 0 && brk(Last(Last(g)), p[0])
    ensures Separated(g + [p], brk)
  {
    assert (g + [p])[..|g|] == g;
  }

  /** Growing the last piece at its end keeps the breaks between pieces. */
  lemma SeparatedExtendLast<T>(g: seq<seq<T>>, x: T, brk: (T, T) -> bool)
    requires |g| > 0 && |Last(g)| > 0 && Separated(g, brk)
    ensures Separated(g[..|g| - 1] + [Last(g) + [x]], brk)
  {
    var m := |g| - 1;
    var h := g[..m] + [Last(g) + [x]];
    assert h[..m] == g[..m];
    if m > 0 {
      assert h[m - 1] == g[m - 1];
    }
  }

  /** One step of the grouping: the last element either opens a new piece or
      extends the last one. */
  lemma GroupsStep<T>(s: seq<T>, brk: (T, T) -> bool)
    requires |s| > 1
    ensures var init, x, g := s[..|s| - 1], s[|s| - 1], Groups(s[..|s| - 1], brk);
            && (brk(Last(init), x) ==> Groups(s, brk) == g + [[x]])
            && (!brk(Last(init), x) ==> Groups(s, brk) == g[..|g| - 1] + [Last(g) + [x]])
  {
  }

  /** The pieces cover the sequence in order. */
  lemma {:induction false} GroupsFlatten<T>(s: seq<T>, brk: (T, T) -> bool)
    ensures Flatten(Groups(s, brk)) == s
  {
    if |s| == 1 {
      assert Groups(s, brk) == [[s[0]]];
      FlattenSnoc([], [s[0]]);
    } else if |s| > 1 {
      var init, x := s[..|s| - 1], s[|s| - 1];
      assert s == init + [x];
      GroupsFlatten(init, brk);
      GroupsStep(s, brk);
      var g := Groups(init, brk);
      if brk(Last(init), x) {
        FlattenSnoc(g, [x]);
      } else {
        var m := |g| - 1;
        assert g == g[..m] + [Last(g)];
        FlattenSnoc(g[..m], Last(g) + [x]);
        FlattenSnoc(g[..m], Last(g));
      }
    }
  }

  /** Within a piece no two neighbours are separated by a break. */
  lemma {:induction false} GroupsChained<T>(s: seq<T>, brk: (T, T) -> bool)
    ensures AllChained(Groups(s, brk), brk)
  {
    if |s| > 0 {
      var init, x := s[..|s| - 1], s[|s| - 1];
      GroupsChained(init, brk);
      var g := Groups(init, brk);
      if |init| == 0 || brk(Last(init), x) {
        AllChainedSnoc(g, [x], brk);
      } else {
        var m := |g| - 1;
        GroupsLast(init, brk);
        assert g == g[..m] + [Last(g)];
        assert AllChained(g[..m], brk);
        ChainedSnoc(Last(g), x, brk);
        AllChainedSnoc(g[..m], Last(g) + [x], brk);
      }
    }
  }

  /** Between consecutive pieces there is a break. */
  lemma {:induction false} GroupsSeparated<T>(s: seq<T>, brk: (T, T) -> bool)
    ensures Separated(Groups(s, brk), brk)
  {
    if |s| == 1 {
      assert Groups(s, brk) == [[s[0]]];
    } else if |s| > 1 {
      var init, x := s[..|s| - 1], s[|s| - 1];
      GroupsSeparated(init, brk);
      GroupsStep(s, brk);
      var g := Groups(init, brk);
      if brk(Last(init), x) {
        GroupsLast(init, brk);
        SeparatedSnoc(g, [x], brk);
      } else {
        SeparatedExtendLast(g, x, brk);
      }
    }
  }

  /** Text runs start a new line when their baseline jumps by more than 2. */
  function NewLine(prev: TextRun, run: TextRun): bool {
    Far(prev.y, run.y)
  }

  /** The strings of a group joined with single spaces. */
  function JoinSpaced(g: seq<TextRun>): string
    requires |g| > 0
  {
    if |g| == 1 then g[0].str else JoinSpaced(g[..|g| - 1]) + " " + Last(g).str
  }

  /** The line a group of runs becomes: its joined, trimmed text, and the Y
      and font size of its first run. */
  function LineOf(g: seq<TextRun>): TextLine
    requires |g| > 0
  {
    TextLine(Trim(JoinSpaced(g)), g[0].y, FontSizeOf(g[0]))
  }

  function LinesOf(groups: seq<seq<TextRun>>): seq<TextLine>
    requires NonEmptyGroups(groups)
  {
    if |groups| == 0 then [] else LinesOf(groups[..|groups| - 1]) + [LineOf(Last(groups))]
  }

  predicate AllNonBlank(runs: seq<TextRun>) {
    forall i :: 0 <= i < |runs| ==> !IsBlank(runs[i].str)
  }

  lemma NonBlankSuffix(x: string, y: string)
    requires !IsBlank(y)
    ensures !IsBlank(x + y)
  {
    var i :| 0 <= i < |y| && !IsSpace(y[i]);
    assert (x + y)[|x| + i] == y[i];
  }

  /** A run that continues the current line is appended after one space. */
  lemma StepJoins(a: Assembly, run: TextRun)
    requires a.lastY.Some? && !Far(a.lastY.value, run.y) && a.current != ""
    ensures Step(a, run) == Assembly(a.lines, a.current + " " + run.str, Some(run.y), a.lineY, a.lineFontSize)
  {
  }

  /** A run far from the previous one ends the current line and starts a new one. */
  lemma StepBreaks(a: Assembly, run: TextRun)
    requires a.lastY.Some? && Far(a.lastY.value, run.y)
    ensures Step(a, run) == Assembly(Flush(a), run.str, Some(run.y), run.y, FontSizeOf(run))
  {
    assert "" + "" + run.str == run.str;
  }

  /** The loop state `a` corresponds to the groups `G`: the finished lines
      are those of all groups but the last, the line being built is the last
      group, and `prev` was the last run read. */
  ghost predicate Matches(a: Assembly, G: seq<seq<TextRun>>, prev: TextRun)
    requires |G| > 0 && NonEmptyGroups(G)
  {
    && a.lines == LinesOf(G[..|G| - 1])
    && a.current == JoinSpaced(Last(G))
    && !IsBlank(a.current)
    && a.lineY == Last(G)[0].y
    && a.lineFontSize == FontSizeOf(Last(G)[0])
    && a.lastY == Some(prev.y)
  }

  /** A far run closes the current group's line and opens a new group. */
  lemma MatchesAfterBreak(a: Assembly, g: seq<seq<TextRun>>, prev: TextRun, run: TextRun)
    requires |g| > 0 && NonEmptyGroups(g) && Matches(a, g, prev)
    requires Far(prev.y, run.y) && !IsBlank(run.str)
    ensures NonEmptyGroups(g + [[run]]) && Matches(Step(a, run), g + [[run]], run)
  {
    TrimKeepsContent(a.current);
    StepBreaks(a, run);
    var G := g + [[run]];
    assert G[..|G| - 1] == g;
    assert g == g[..|g| - 1] + [Last(g)];
    assert Flush(a) == LinesOf(g);
  }

  /** A near run joins the current group. */
  lemma MatchesAfterJoin(a: Assembly, g: seq<seq<TextRun>>, prev: TextRun, run: TextRun)
    requires |g| > 0 && NonEmptyGroups(g) && Matches(a, g, prev)
    requires !Far(prev.y, run.y) && !IsBlank(run.str)
    ensures var l := Last(g) + [run];
            NonEmptyGroups(g[..|g| - 1] + [l]) && Matches(Step(a, run), g[..|g| - 1] + [l], run)
  {
    StepJoins(a, run);
    NonBlankSuffix(a.current + " ", run.str);
    var l := Last(g) + [run];
    var G := g[..|g| - 1] + [l];
    assert G[..|G| - 1] == g[..|g| - 1];
    assert l[..|l| - 1] == Last(g);
  }

  /** The loop state after non-blank runs, in terms of the groups. */
  lemma {:induction false} AssembleIsGrouping(runs: seq<TextRun>)
    requires |runs| > 0 && AllNonBlank(runs)
    ensures Matches(Assemble(runs), Groups(runs, NewLine), Last(runs))
  {
    var init, run := runs[..|runs| - 1], runs[|runs| - 1];
    assert !IsBlank(run.str);
    if |init| == 0 {
      assert Groups(runs, NewLine) == [[run]];
      assert "" + "" + run.str == run.str;
    } else {
      assert AllNonBlank(init) by {
        forall i | 0 <= i < |init| ensures !IsBlank(init[i].str) {
          assert init[i] == runs[i];
        }
      }
      AssembleIsGrouping(init);
      GroupsStep(runs, NewLine);
      var g := Groups(init, NewLine);
      if NewLine(Last(init), run) {
        MatchesAfterBreak(Assemble(init), g, Last(init), run);
      } else {
        MatchesAfterJoin(Assemble(init), g, Last(init), run);
      }
    }
  }

  /** For runs that survived the blank filter, the assembly loop emits
      exactly one line per group: the group's joined text with the Y and font
      size of the group's first run. */
  lemma LinesFollowGroups(runs: seq<TextRun>)
    requires AllNonBlank(runs)
    ensures GroupLines(runs) == LinesOf(Groups(runs, NewLine))
  {
    if |runs| > 0 {
      AssembleIsGrouping(runs);
      var a := Assemble(runs);
      TrimKeepsContent(a.current);
    } else {
      assert Trim("") == "";
    }
  }

  /** After the blank filter every run is non-blank, so the lines of a page
      are exactly the lines of the groups of its non-blank runs. */
  lemma PageLinesFollowGroups(runs: seq<TextRun>)
    ensures AllNonBlank(KeepNonBlank(runs))
    ensures GroupLines(KeepNonBlank(runs)) == LinesOf(Groups(KeepNonBlank(runs), NewLine))
  {
    var kept := KeepNonBlank(runs);
    KeepNonBlankMembers(runs);
    forall i | 0 <= i < |kept| ensures !IsBlank(kept[i].str) {
      assert kept[i] in kept;
      TrimProperties(kept[i].str);
    }
    LinesFollowGroups(kept);
  }

  // ---------------------------------------------------------------------------
  // Merging lines and images
  // ---------------------------------------------------------------------------

  datatype ContentItem =
    | TextItem(text: string, fontSize: real, y: real)
    | ImageItem(width: int, height: int, y: real)

  function ItemY(c: ContentItem): real {
    c.y
  }

  function TextItems(lines: seq<TextLine>): seq<ContentItem> {
    seq(|lines|, i requires 0 <= i < |lines| => TextItem(lines[i].text, lines[i].fontSize, lines[i].y))
  }

  function ImageItems(images: seq<PageImage>): seq<ContentItem> {
    seq(|images|, i requires 0 <= i < |images| => ImageItem(images[i].width, images[i].height, images[i].y))
  }

  /** Text lines, then images, stably sorted by descending Y. */
  function MergeContent(lines: seq<TextLine>, images: seq<PageImage>): seq<ContentItem> {
    StableSort.SortDesc(TextItems(lines) + ImageItems(images), ItemY)
  }

  /** The merged content holds every line and image once, top of the page
      first; among items at the same Y the lines come first, in their order,
      then the images, in theirs. */
  lemma MergeContentProperties(lines: seq<TextLine>, images: seq<PageImage>)
    ensures multiset(MergeContent(lines, images)) == multiset(TextItems(lines)) + multiset(ImageItems(images))
    ensures forall i, j :: 0 <= i < j < |MergeContent(lines, images)| ==>
              MergeContent(lines, images)[i].y >= MergeContent(lines, images)[j].y
    ensures forall v :: StableSort.WithKey(MergeContent(lines, images), ItemY, v)
              == StableSort.WithKey(TextItems(lines), ItemY, v) + StableSort.WithKey(ImageItems(images), ItemY, v)
  {
    var all := TextItems(lines) + ImageItems(images);
    StableSort.SortProperties(all, ItemY);
    var m := MergeContent(lines, images);
    forall i, j | 0 <= i < j < |m| ensures m[i].y >= m[j].y {
      assert ItemY(m[i]) >= ItemY(m[j]);
    }
    forall v ensures StableSort.WithKey(m, ItemY, v)
              == StableSort.WithKey(TextItems(lines), ItemY, v) + StableSort.WithKey(ImageItems(images), ItemY, v) {
      StableSort.WithKeyConcat(TextItems(lines), ImageItems(images), ItemY, v);
    }
  }

  // ---------------------------------------------------------------------------
  // Paragraphs, sections and the document
  // ---------------------------------------------------------------------------

  /** The usable width of an A4 page at 96 dpi: `Math.round(6.3 * 96)`. */
  const MaxImageWidth: int := Round(6.3 * 96.0)

  lemma MaxImageWidthIs605()
    ensures MaxImageWidth == 605
  {
  }

  datatype Paragraph =
    | TextParagraph(text: string, bold: bool, size: int)
    | ImageParagraph(width: int, height: int)
    | EmptyParagraph
    | PageBreak

  /** The emitted size of an image: at most 605 wide; a wider image is scaled
      down to width 605 with its height rounded at the same ratio, a narrower
      one is left as it is. */
  function ScaleImage(width: int, height: int): (r: (int, int))
    ensures r.0 <= MaxImageWidth
    ensures width <= MaxImageWidth ==> r == (width, height)
    ensures width > MaxImageWidth ==>
              r.0 == MaxImageWidth
              && r.1 == Round(height as real * MaxImageWidth as real / width as real)
              && Abs(r.1 as real - height as real * MaxImageWidth as real / width as real) <= 0.5
  {
    if width > MaxImageWidth then
      var ratio := MaxImageWidth as real / width as real;
      (MaxImageWidth, Round(height as real * ratio))
    else (width, height)
  }

  /** Heading rule: text larger than 15 is bold. */
  const BoldAbove: real := 15.0

  function ParagraphOf(item: ContentItem): Paragraph {
    match item
    case TextItem(text, fontSize, _) => TextParagraph(text, fontSize > BoldAbove, Round(fontSize * 2.0))
    case ImageItem(w, h, _) =>
      var size := ScaleImage(w, h);
      ImageParagraph(size.0, size.1)
  }

  /** One paragraph per content item, in order. */
  function Paragraphs(content: seq<ContentItem>): seq<Paragraph> {
    seq(|content|, k requires 0 <= k < |content| => ParagraphOf(content[k]))
  }

  /** The paragraphs of one page: one per item, a placeholder when there is
      none, and a page break unless it is the last page. */
  function Section(content: seq<ContentItem>, isLast: bool): seq<Paragraph> {
    (if |content| == 0 then [EmptyParagraph] else Paragraphs(content))
    + (if isLast then [] else [PageBreak])
  }

  /** What the paragraph rules promise: a text item is bold exactly when its
      size exceeds 15 and gets run size round(2 * size); an image is never
      wider than 605; a page always has a paragraph; and a section ends with a
      page break exactly when it is not the last one. */
  lemma SectionProperties(content: seq<ContentItem>, isLast: bool)
    ensures |Section(content, isLast)| >= 1
    ensures forall k :: 0 <= k < |content| && content[k].TextItem? ==>
              Section(content, isLast)[k] == TextParagraph(content[k].text, content[k].fontSize > 15.0,
                                                           Round(2.0 * content[k].fontSize))
    ensures forall k :: 0 <= k < |content| && content[k].ImageItem? ==>
              Section(content, isLast)[k].ImageParagraph? && Section(content, isLast)[k].width <= 605
    ensures |content| == 0 ==> Section(content, isLast)[0] == EmptyParagraph
    ensures (Section(content, isLast)[|Section(content, isLast)| - 1] == PageBreak) <==> !isLast
    ensures forall k :: 0 <= k < |Section(content, isLast)| - 1 ==> Section(content, isLast)[k] != PageBreak
  {
    var s := Section(content, isLast);
    forall k | 0 <= k < |content| && content[k].TextItem?
      ensures s[k] == TextParagraph(content[k].text, content[k].fontSize > 15.0, Round(2.0 * content[k].fontSize))
    {
      assert s[k] == ParagraphOf(content[k]);
      assert content[k].fontSize * 2.0 == 2.0 * content[k].fontSize;
    }
    forall k | 0 <= k < |content| && content[k].ImageItem? ensures s[k].ImageParagraph? && s[k].width <= 605 {
      assert s[k] == ParagraphOf(content[k]);
    }
  }

  method BuildSection(content: seq<ContentItem>, isLast: bool) returns (paragraphs: seq<Paragraph>)
    ensures paragraphs == Section(content, isLast)
  {
    paragraphs := [];
    for k := 0 to |content|
      invariant |paragraphs| == k
      invariant forall i :: 0 <= i < k ==> paragraphs[i] == ParagraphOf(content[i])
    {
      var p: Paragraph;
      match content[k] {
        case TextItem(text, fontSize, _) =>
          var isBold := fontSize > 15.0;
          p := TextParagraph(text, isBold, Round(fontSize * 2.0));
        case ImageItem(w0, h0, _) =>
          var w, h := w0, h0;
          if w > MaxImageWidth {
            var r := MaxImageWidth as real / w as real;
            w := MaxImageWidth;
            h := Round(h as real * r);
          }
          p := ImageParagraph(w, h);
      }
      assert p == ParagraphOf(content[k]);
      paragraphs := paragraphs + [p];
    }
    assert |content| > 0 ==> paragraphs == Paragraphs(content);
    if |paragraphs| == 0 {
      paragraphs := paragraphs + [EmptyParagraph];
    }
    if !isLast {
      paragraphs := paragraphs + [PageBreak];
    }
  }

  /** What the converter is given for one page. */
  datatype PdfPage = PdfPage(runs: seq<TextRun>, ops: seq<Op>)

  /** The content of one page: its non-blank runs grouped into lines, and
      its extracted images, merged top to bottom. */
  function PageContent(page: PdfPage): seq<ContentItem> {
    MergeContent(GroupLines(KeepNonBlank(page.runs)), Extracted(page.ops))
  }

  /** The converted document: one section per page, only the last one
      without a trailing page break. */
  function Document(pages: seq<PdfPage>): seq<seq<Paragraph>> {
    seq(|pages|, i requires 0 <= i < |pages| => Section(PageContent(pages[i]), i == |pages| - 1))
  }

  /** Converts the pages in order into one section each and reports
      round(i / n * 100) after page i. */
  method ConvertPdfToWord(pages: seq<PdfPage>) returns (sections: seq<seq<Paragraph>>, progress: seq<int>)
    ensures sections == Document(pages)
    ensures progress == ProgressReports(|pages|)
  {
    sections := [];
    progress := [];
    var n := |pages|;
    for i := 0 to n
      invariant sections == Document(pages)[..i]
      invariant progress == ProgressReports(n)[..i]
    {
      var paragraphs := ConvertPage(pages, i);
      NextPrefix(sections, Document(pages), i, paragraphs);
      NextPrefix(progress, ProgressReports(n), i, Percent(i + 1, n));
      sections := sections + [paragraphs];
      progress := progress + [Percent(i + 1, n)];
    }
    assert Document(pages)[..n] == Document(pages);
    assert ProgressReports(n)[..n] == ProgressReports(n);
  }

  /** The body of the page loop: the page's lines and images, merged, as
      paragraphs. */
  method ConvertPage(pages: seq<PdfPage>, i: nat) returns (paragraphs: seq<Paragraph>)
    requires i < |pages|
    ensures paragraphs == Document(pages)[i]
  {
    var page := pages[i];
    var runs := KeepNonBlank(page.runs);
    var lines := AssembleLines(runs);
    var images := ExtractPageImages(page.ops);
    var content := MergeContent(lines, images);
    paragraphs := BuildSection(content, i == |pages| - 1);
  }
}
