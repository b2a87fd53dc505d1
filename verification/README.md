# KeepDF core logic in Dafny

KeepDF is a set of browser-side file tools. The tools cover:

- PDF: split, rotate, watermark, convert to Word;
- images: compress, crop, stitch, images to PDF;
- documents: Markdown or Word to PDF, word count;
- two small Cloudflare functions that count page views and serve a usage report;
- a stats dashboard that aggregates that report.

This project models the deterministic logic of those tools and proves what it promises. It covers:

- page-range parsing;
- output file naming;
- page, image and text placement;
- text-line assembly and content ordering in the PDF-to-Word converter;
- the choice among compressed encodings;
- the upload queue;
- the visitor counters and their aggregation.

The PDF, image and canvas libraries are outside the model. Whatever such a library returns becomes an input: page sizes, decoded image sizes, operator lists, text runs, encoded blobs, text widths and rendered canvas sizes. Geometry uses exact real arithmetic. `Math.round` is `floor(x + 1/2)`, and `Math.ceil` is the least integer not below its argument. `parseInt` reads a leading integer after optional white space and an optional sign.

One Dafny module models each source file:

| module | source file |
|---|---|
| `SplitPdf` | `split.ts` |
| `RotatePdf` | `rotatePdf.ts` |
| `Watermark` | `watermark.ts` |
| `PdfToWord` | `toWord.ts` |
| `CompressImage` | `compress.ts` |
| `Stitch` | `stitch.ts` |
| `ImageToPdf` | `toPdf.ts` |
| `MdToPdf` | `mdToPdf.ts` |
| `WordToPdf` | `wordToPdf.ts` |
| `WordCount` | `wordCount.ts` |
| `FileHelpers` | `fileHelpers.ts` |
| `Locales` | `locales.ts` |
| `FileUpload` | `useFileUpload.ts` |
| `Track` | `track.ts` |
| `StatsApi` | `stats.ts` |
| `StatsDashboard` | `StatsDashboard.tsx` |
| `PdfWatermark` | `PdfWatermark.tsx` |
| `CropImage` | `CropImage.tsx` |

Four shared modules support them:

- `Common`: the JavaScript string and number built-ins the tools use.
- `StableSort`: `Array.prototype.sort` with a descending numeric comparator.
- `RangeSyntax`: the `^(\d+)\s*-\s*(\d+)$` range pattern, shared by split and rotate.
- `Pagination`: the slicing loop shared by the Markdown and Word converters.

Two parts of the source change state in place, and both are classes:

- the upload queue is `FileUpload.FileQueue`, with a `files` field;
- the counters database is `Track.Collector`, with its two tables as a `map` and a `set`.

The form state of the watermark page is the class `PdfWatermark.WatermarkForm`. Rotating pages updates an `array` of page rotations.

## Model

| member | source | states |
|---|---|---|
| SplitPdf.SegmentGroup | src/lib/pdf/split.ts:21-51 | the definition of one segment's outcome; its properties are `RangeSegment`, `BareNumberSegment`, `SegmentGroupProperties` and `SegmentNeverNoRanges` |
| RangeSyntax.MatchRangeSound | src/lib/pdf/split.ts:21 | a segment the range pattern accepts is its first capture, blanks, '-', blanks, then its second capture, both captures being non-empty digit runs |
| RangeSyntax.MatchRangeComplete | src/lib/pdf/split.ts:21 | every string of that shape is accepted, with exactly those captures |
| RangeSyntax.SegmentsMembers | src/lib/pdf/split.ts:9-12 | the segments are exactly the non-empty trimmed comma-separated pieces |
| SplitPdf.ParseRanges | src/lib/pdf/split.ts:8-55 | the parsing loop yields exactly the groups, or the first error, of the reference definition `RangeGroups` |
| SplitPdf.ParseSegments | src/lib/pdf/split.ts:20-52 | the loop over the segments stops at the first failing segment and otherwise collects one group per segment |
| SplitPdf.ParseSegment | src/lib/pdf/split.ts:21-51 | one segment becomes a range group, a single page or the matching error |
| SplitPdf.PageSpan | src/lib/pdf/split.ts:36-39 | the inner loop lists the 0-based pages start-1 … end-1 in order |
| SplitPdf.GroupsOfSuccess | src/lib/pdf/split.ts:20-54 | parsing succeeds exactly when every segment does, and then group i is segment i's group |
| SplitPdf.GroupsOfFailure | src/lib/pdf/split.ts:20-52 | a failure is the error of the first failing segment, all earlier segments being valid |
| SplitPdf.SegmentGroupProperties | src/lib/pdf/split.ts:27-48 | a successful group is non-empty, consecutive and within 0..pageCount-1 |
| SplitPdf.RangeSegment | src/lib/pdf/split.ts:21-40 | "a - b" is out of bounds when either end is outside 1..pageCount, is invalid when a > b, and otherwise gives pages a-1 … b-1 |
| SplitPdf.BareNumberSegment | src/lib/pdf/split.ts:41-48 | a bare number is one 0-based page when it is within 1..pageCount, and out of bounds otherwise |
| SplitPdf.NoRangesExactly | src/lib/pdf/split.ts:14-16 | "No ranges specified" is raised exactly when there is no non-blank segment |
| SplitPdf.SegmentNeverNoRanges | src/lib/pdf/split.ts:20-52 | a single segment raises a range, page or format error, never "No ranges specified" |
| SplitPdf.RangeGroupsProperties | src/lib/pdf/split.ts:8-55 | on success there is one non-empty group per segment, and every index is within 0..pageCount-1 |
| SplitPdf.BaseName | src/lib/pdf/split.ts:66 | the definition of the base name; its property is `BaseNameProperties` |
| SplitPdf.BaseNameProperties | src/lib/pdf/split.ts:66 | the base name drops only a trailing ".pdf" in any letter case |
| SplitPdf.RangeGroupsValid | src/lib/pdf/split.ts:97-99 | every parsed group is non-empty with non-negative ends, so the file label is defined |
| SplitPdf.SplitResult | src/lib/pdf/split.ts:57-126 | the definition of the three modes' files; its properties are `SplitPdf`, `AllFilesProperties`, `PageNumberInName`, `PageFileNamesDistinct`, `RangeLabelShape` and `ExtractKeepsEveryPage` |
| SplitPdf.SplitPdf | src/lib/pdf/split.ts:57-126 | the three modes give the result of the reference definition `SplitResult`, and a parse error in ranges or extract mode is propagated |
| SplitPdf.PageFileNamesDistinct | src/lib/pdf/split.ts:78 | "all" mode gives distinct names to distinct pages |
| SplitPdf.PageNumberInName | src/lib/pdf/split.ts:78 | the "all" mode name is base + "_page_" + the 1-based page number + ".pdf" |
| SplitPdf.AllFilesProperties | src/lib/pdf/split.ts:70-82 | "all" mode yields one file per page, holding just that page, with pairwise distinct names |
| SplitPdf.RangeLabel | src/lib/pdf/split.ts:97-99 | the definition of a group's file label; its properties are `RangeLabelShape` and `RangeGroupsValid` |
| SplitPdf.RangeLabelShape | src/lib/pdf/split.ts:97-101 | a parsed group's file label holds a hyphen exactly when the group has more than one page |
| SplitPdf.ExtractKeepsEveryPage | src/lib/pdf/split.ts:108-111 | extract mode keeps every page of every group, repeats included, so its length is the sum of the groups' lengths |
| RotatePdf.PartPages | src/lib/pdf/rotatePdf.ts:10-18 | the definition of the pages one part names; its properties are `SpanPart`, `OtherPart`, `TrailingLetterIgnored` and `OpenSpanReadsItsStart` |
| RotatePdf.ParsePageRanges | src/lib/pdf/rotatePdf.ts:5-22 | the result is strictly ascending and holds exactly the pages the parts name |
| RotatePdf.AddPart | src/lib/pdf/rotatePdf.ts:10-18 | one loop step adds exactly the part's pages to the set |
| RotatePdf.Ascending | src/lib/pdf/rotatePdf.ts:21 | a set of pages in 1..totalPages is listed strictly ascending with the same members |
| RotatePdf.PageSetInRange | src/lib/pdf/rotatePdf.ts:12-17 | every page named is within 1..totalPages |
| RotatePdf.PageSetMembers | src/lib/pdf/rotatePdf.ts:9-19 | a page is in the result exactly when some part names it |
| RotatePdf.OnlyThePartsMatter | src/lib/pdf/rotatePdf.ts:6-21 | reordering or repeating parts leaves the result unchanged |
| RotatePdf.SpanPart | src/lib/pdf/rotatePdf.ts:10-14 | "a-b" adds exactly the pages max(1,a) … min(totalPages,b) |
| RotatePdf.OtherPart | src/lib/pdf/rotatePdf.ts:15-18 | any other part adds its leading integer when that is a page, and nothing otherwise |
| RotatePdf.TrailingLetterIgnored | src/lib/pdf/rotatePdf.ts:16 | "3x" names page 3, because parseInt stops at the first non-digit |
| RotatePdf.OpenSpanReadsItsStart | src/lib/pdf/rotatePdf.ts:10-17 | "1-" is not a span and names page 1 |
| RotatePdf.AscendingHasNoRepeats | src/lib/pdf/rotatePdf.ts:6 | a strictly ascending list names each page at most once |
| RotatePdf.Targets | src/lib/pdf/rotatePdf.ts:33-35 | the definition of the target pages; its properties are `TargetsInRange`, `EveryPageOnce`, `AllPagesAscending` and `ListedPagesOnly` |
| RotatePdf.RotatePages | src/lib/pdf/rotatePdf.ts:24-45 | each page's rotation grows by the angle once per occurrence of the page among the targets, and other pages keep theirs |
| RotatePdf.RotateEach | src/lib/pdf/rotatePdf.ts:37-41 | the loop adds the angle to page p's rotation once per occurrence of p in the targets |
| RotatePdf.TargetsInRange | src/lib/pdf/rotatePdf.ts:33-35 | every target is a page of the document |
| RotatePdf.EveryPageOnce | src/lib/pdf/rotatePdf.ts:35 | with no list, every page is rotated exactly once |
| RotatePdf.AllPagesAscending | src/lib/pdf/rotatePdf.ts:35 | with no list, the targets are 1 … n ascending |
| RotatePdf.ListedPagesOnly | src/lib/pdf/rotatePdf.ts:34 | with a list, a page is rotated once per mention and never when it is not mentioned |
| RotatePdf.ParsedListRotatesOnce | src/lib/pdf/rotatePdf.ts:21 | a list from the page-range parser rotates each named page exactly once |
| Watermark.StampFor | src/lib/pdf/watermark.ts:29-37 | the definition of one page's stamp; its properties are `StampProperties` and `OnePerPage` |
| Watermark.AddWatermark | src/lib/pdf/watermark.ts:22-50 | one stamp per page, each the placement of `StampFor`, and one progress report per page |
| Watermark.StampProperties | src/lib/pdf/watermark.ts:29-37 | the text is centred horizontally and at mid-height, with the given text and size; rotation is the option's for diagonal and 0 for center |
| Watermark.OnePerPage | src/lib/pdf/watermark.ts:22-49 | stamp i is on page i, and the last progress report is 100 |
| PdfWatermark.WatermarkForm.constructor | src/components/pdf/PdfWatermark.tsx:38-40 | the form starts diagonal with rotation -45 |
| PdfWatermark.WatermarkForm.SelectPosition | src/components/pdf/PdfWatermark.tsx:173-177 | selecting a position sets it and resets the rotation to -45 for diagonal and 0 for center |
| PdfWatermark.ResetMatchesDrawing | src/components/pdf/PdfWatermark.tsx:176-177 | the reset rotation is what the drawing uses for that position |
| PdfWatermark.SubstringProperties | src/components/pdf/PdfWatermark.tsx:18-20 | `substring` with ends in order inside the string gives the characters between them; ends out of order are swapped; an end below 0 reads as 0 and one past the string as its length |
| PdfWatermark.RemoveFirstProperties | src/components/pdf/PdfWatermark.tsx:16 | a string replace removes only the first '#', and leaves a string without '#' unchanged |
| PdfWatermark.RemoveFirstAt | src/components/pdf/PdfWatermark.tsx:16 | with the first '#' at position i, the replace yields the text before i followed by the text after it |
| PdfWatermark.HexToRgb | src/components/pdf/PdfWatermark.tsx:15-22 | the definition of the colour parse; its properties are `SixDigitColor`, `HashOptional`, `SecondHashKept`, `PairChannel`, `BlackPair` and `WhitePair` |
| PdfWatermark.HexPair | src/components/pdf/PdfWatermark.tsx:18-20 | two hex digits parse to 16·d0 + d1, which is at most 255 |
| PdfWatermark.Byte | src/components/pdf/PdfWatermark.tsx:18-20 | a hex pair's value is at most 255 |
| PdfWatermark.PairChannel | src/components/pdf/PdfWatermark.tsx:18-20 | a hex pair's channel is its byte value divided by 255, within [0, 1] |
| PdfWatermark.SixDigitColor | src/components/pdf/PdfWatermark.tsx:15-22 | six hex digits give the channels of characters 0-2, 2-4 and 4-6, with or without a leading '#' |
| PdfWatermark.HashOptional | src/components/pdf/PdfWatermark.tsx:16 | a leading '#' makes no difference to a colour without another '#' |
| PdfWatermark.SecondHashKept | src/components/pdf/PdfWatermark.tsx:16 | only the first '#' is removed: "##000000" has no red channel |
| PdfWatermark.BlackPair | src/components/pdf/PdfWatermark.tsx:18 | "00" is channel 0 |
| PdfWatermark.WhitePair | src/components/pdf/PdfWatermark.tsx:18 | "ff" is channel 1 |
| PdfToWord.ExtractPageImages | src/lib/pdf/toWord.ts:49-110 | the operator loop yields exactly the reference list `Extracted` |
| PdfToWord.ExtractedAreLargeEnough | src/lib/pdf/toWord.ts:86-88 | every extracted image is at least 20 by 20 |
| PdfToWord.ExtractedMembership | src/lib/pdf/toWord.ts:51-106 | an image is extracted exactly when some paint operator draws it, at the Y left by the transforms before it |
| PdfToWord.YAfterLastTransform | src/lib/pdf/toWord.ts:52-55 | the current Y is the translation of the last transform that sets one |
| PdfToWord.YAfterNoTransform | src/lib/pdf/toWord.ts:49 | with no such transform the current Y is 0 |
| PdfToWord.KeepNonBlankMembers | src/lib/pdf/toWord.ts:144 | the filter keeps exactly the runs with non-blank text |
| PdfToWord.GroupLines | src/lib/pdf/toWord.ts:152-173 | the definition of line assembly; its properties are `StepJoins`, `StepBreaks`, `LinesAreTrimmedAndNonBlank` and `LinesFollowGroups` |
| PdfToWord.AssembleLines | src/lib/pdf/toWord.ts:152-173 | the line loop yields exactly the reference lines `GroupLines` |
| PdfToWord.AddRun | src/lib/pdf/toWord.ts:159-172 | one loop iteration is one `Step` of the reference assembly |
| PdfToWord.StepJoins | src/lib/pdf/toWord.ts:166-171 | a run within 2 units of the previous one is appended after one space, and the line keeps its Y and font size |
| PdfToWord.StepBreaks | src/lib/pdf/toWord.ts:162-169 | a run more than 2 units away ends the line and starts a new one with its own Y and font size (height, or 12) |
| PdfToWord.LinesAreTrimmedAndNonBlank | src/lib/pdf/toWord.ts:163-173 | every emitted line is non-empty and trimmed |
| PdfToWord.GroupsFlatten | src/lib/pdf/toWord.ts:159-172 | the groups of runs, concatenated, are the runs |
| PdfToWord.GroupsChained | src/lib/pdf/toWord.ts:162 | within a group no two neighbours are more than 2 units apart |
| PdfToWord.GroupsSeparated | src/lib/pdf/toWord.ts:162 | between consecutive groups the boundary runs are more than 2 units apart |
| PdfToWord.LinesFollowGroups | src/lib/pdf/toWord.ts:152-173 | for non-blank runs, the lines are the groups, each joined with single spaces and trimmed, with its first run's Y and font size |
| PdfToWord.PageLinesFollowGroups | src/lib/pdf/toWord.ts:144-173 | the same for the filtered runs of a page |
| PdfToWord.MergeContent | src/lib/pdf/toWord.ts:183-192 | the definition of the merged page content; its property is `MergeContentProperties` |
| PdfToWord.MergeContentProperties | src/lib/pdf/toWord.ts:183-192 | the merged content is a permutation of lines and images, by non-increasing Y, with equal-Y items in insertion order (text first) |
| PdfToWord.MaxImageWidthIs605 | src/lib/pdf/toWord.ts:125 | the maximum image width is round(6.3 · 96) = 605 |
| PdfToWord.ScaleImage | src/lib/pdf/toWord.ts:212-218 | the emitted width is at most 605; a wider image is scaled to 605 with its height `Math.round(h · 605 / w)`, within 0.5 of the same ratio, and a narrower one is kept |
| PdfToWord.Section | src/lib/pdf/toWord.ts:197-239 | the definition of one page's paragraphs; its property is `SectionProperties` |
| PdfToWord.SectionProperties | src/lib/pdf/toWord.ts:197-239 | each text item becomes a paragraph, bold above size 15, at twice its size rounded; each image is at most 605 wide; an empty page gets one empty paragraph; a page break follows every page but the last |
| PdfToWord.BuildSection | src/lib/pdf/toWord.ts:195-239 | the paragraph loop yields exactly the reference section `Section` |
| PdfToWord.Document | src/lib/pdf/toWord.ts:129-243 | the definition of the whole document; `ConvertPdfToWord` and `ConvertPage` are proved against it |
| PdfToWord.ConvertPdfToWord | src/lib/pdf/toWord.ts:129-243 | the page loop yields exactly the reference document, and one progress report per page |
| PdfToWord.ConvertPage | src/lib/pdf/toWord.ts:143-241 | one page's filtering, line assembly, image extraction, merging and paragraph building give that page's reference section |
| StableSort.SortProperties | src/lib/pdf/toWord.ts:192 | the descending sort is a permutation, non-increasing in its key, and stable |
| CompressImage.SmallestIndex | src/lib/image/compress.ts:44 | the reduce ends on the first candidate of minimum size |
| CompressImage.Compress | src/lib/image/compress.ts:5-48 | the encoding loop and the choice give the reference result `Choose` of the successful encodings |
| CompressImage.Choose | src/lib/image/compress.ts:41-47 | the definition of the choice; its properties are `NeverLarger`, `SmallestWins` and `SmallestIndex` |
| CompressImage.CandidateOrder | src/lib/image/compress.ts:19-23 | the candidates are the successful WebP, JPEG and original-type encodings in that order, where a missing type is PNG |
| CompressImage.NeverLarger | src/lib/image/compress.ts:41-47 | the result is never larger than the file, and it is the file or a candidate (the file when there is none) |
| CompressImage.SmallestWins | src/lib/image/compress.ts:44-47 | if a candidate is strictly smaller than the file, the first smallest wins; otherwise the file is kept |
| Stitch.MaxAcross | src/lib/image/stitch.ts:20-24 | the maximum is at least every image's cross size and equals one of them |
| Stitch.StitchImages | src/lib/image/stitch.ts:11-46 | the canvas is the reference size, and image k is drawn at the reference placement |
| Stitch.CanvasProperties | src/lib/image/stitch.ts:19-25 | along the direction the canvas is the sizes plus the gaps; across it the canvas is the largest image |
| Stitch.OffsetFormula | src/lib/image/stitch.ts:28-43 | image k starts after the earlier sizes plus k gaps |
| Stitch.LastEndsAtEdge | src/lib/image/stitch.ts:19-43 | the last image ends exactly at the far edge of the canvas |
| Stitch.NoOverlap | src/lib/image/stitch.ts:37-42 | with non-negative spacing each image starts no earlier than any earlier one ends |
| Stitch.OffsetNonNegative | src/lib/image/stitch.ts:28-43 | with non-negative spacing the offsets are non-negative |
| Stitch.CrossOffsetInRange | src/lib/image/stitch.ts:35-41 | the cross offset is 0 at the start, centred, or flush with the far side at the end |
| Stitch.InsideCanvas | src/lib/image/stitch.ts:27-46 | with non-negative spacing every image lies inside the canvas |
| ImageToPdf.PageFor | src/lib/image/toPdf.ts:45-47 | every page is larger than the two margins on both sides |
| ImageToPdf.ImagesToPdf | src/lib/image/toPdf.ts:37-98 | one page per image (one page when there is none), all the same size, each image drawn on its own page by its mode, and one progress report per image |
| ImageToPdf.PageDim | src/lib/image/toPdf.ts:45-47 | the definition of a page size; its properties are `PageSizes` and `PageFor` |
| ImageToPdf.PageSizes | src/lib/image/toPdf.ts:45-47 | A4 is 210 × 297 mm and Letter 215.9 × 279.4 mm; an unknown key reads as A4; landscape swaps the sides |
| ImageToPdf.FitRect | src/lib/image/toPdf.ts:70-79 | the definition of fit mode; its property is `FitProperties` |
| ImageToPdf.FitProperties | src/lib/image/toPdf.ts:70-79 | fit keeps the aspect ratio, stays inside the 10 mm margins, touches them on one axis and is centred |
| ImageToPdf.FillRect | src/lib/image/toPdf.ts:80-89 | the definition of fill mode; its property is `FillProperties` |
| ImageToPdf.FillProperties | src/lib/image/toPdf.ts:80-89 | fill keeps the aspect ratio, covers the whole page and is centred |
| Pagination.Paginate | src/lib/doc/mdToPdf.ts:99-106 | the loop draws ⌈imgH / contentH⌉ slices, the k-th shifted up by k content heights, on as many pages (at least one) |
| Pagination.SlicesTile | src/lib/doc/mdToPdf.ts:99-106 | every height of the image falls in exactly one slice's window, and the last window is not empty |
| Pagination.AspectKept | src/lib/doc/mdToPdf.ts:90-91 | scaling the canvas to the content width keeps its aspect ratio |
| MdToPdf.LayoutFor | src/lib/doc/mdToPdf.ts:50-56 | the content area is positive for every page size and margin |
| MdToPdf.MdToPdf | src/lib/doc/mdToPdf.ts:40-112 | the slices of the canvas scaled to the content width, on the layout of the chosen size and margins |
| MdToPdf.LayoutValues | src/lib/doc/mdToPdf.ts:50-56 | margins are 10, 5 and 20 mm; "a4" is 210 × 297 and any other size 215.9 × 279.4; margin + content + margin is the page |
| WordToPdf.WordToPdf | src/lib/doc/wordToPdf.ts:29-117 | progress goes 10, 30, 50, 60, 70, 85, 100, and the canvas is sliced onto A4 with 10 mm margins |
| WordToPdf.MilestonesIncrease | src/lib/doc/wordToPdf.ts:33-112 | the progress reports strictly increase within 0..100 and end at 100; the content area is 190 × 277 mm |
| WordCount.CountWords | src/lib/doc/wordCount.ts:10-36 | the definition of `countWords`; its properties are `BlankTextCountsNothing`, `WordsCount`, `WordsPositive`, `SingleSentence`, `CharactersNoSpacesAtMost`, `ReadingTimeFormula` and `ParagraphFallbackUnused` |
| WordCount.BlankTextCountsNothing | src/lib/doc/wordCount.ts:11-13 | all six counts are 0 exactly for blank text; other text has at least one character and one word |
| WordCount.WordsCount | src/lib/doc/wordCount.ts:20-24 | for every text, words = the number of CJK characters + the number of maximal non-space runs once each CJK character is a space (`Runs`, counted independently of `split`) |
| WordCount.PiecesRuns | src/lib/doc/wordCount.ts:23 | splitting on `/\s+/` and dropping empty pieces leaves exactly one piece per maximal non-space run |
| WordCount.RunStartsOverSpaces | src/lib/doc/wordCount.ts:23 | white space starts no word |
| WordCount.WordsPositive | src/lib/doc/wordCount.ts:20-24 | a non-space character is a CJK word or part of a Latin word |
| WordCount.SingleSentence | src/lib/doc/wordCount.ts:27 | text that is not blank and has no sentence mark is one sentence |
| WordCount.CharactersNoSpacesAtMost | src/lib/doc/wordCount.ts:15-16 | removing white space never adds characters |
| WordCount.ReadingTimeFormula | src/lib/doc/wordCount.ts:33 | the reading time is ⌈3(2·latin + cjk) / 20⌉ seconds, and 0 exactly when there are no words |
| WordCount.ParagraphFallbackUnused | src/lib/doc/wordCount.ts:30 | for text that is not blank the paragraph count is the number of non-blank pieces, so the `|| 1` fallback never applies |
| WordCount.PiecesKeep | src/lib/doc/wordCount.ts:23-30 | a character that no separator match can contain ends up in some piece of the split |
| WordCount.MarkRunChars | src/lib/doc/wordCount.ts:27 | the run of sentence marks is maximal: it holds only marks and stops at the end of the text or at a character that is not a mark |
| WordCount.SpaceRunMatch | src/lib/doc/wordCount.ts:23 | `/\s+/` matches exactly at white space and takes the whole run of it |
| WordCount.SentenceMarksMatch | src/lib/doc/wordCount.ts:27 | the sentence-mark pattern matches exactly at a mark and takes the whole run of marks |
| WordCount.BlankLineMatch | src/lib/doc/wordCount.ts:30 | `/\n\s*\n/` matches exactly at a newline whose following white space holds another newline, and the greedy match ends just after the last newline of that white space |
| WordCount.LastNewlineProperties | src/lib/doc/wordCount.ts:30 | the backtracking point of `\s*\n` is the last newline of the white space, and there is none exactly when the white space holds no newline |
| FileHelpers.LastIndexOfProperties | src/lib/utils/fileHelpers.ts:13 | `lastIndexOf` is -1 exactly without the character, and otherwise the index of its last occurrence |
| FileHelpers.FormatFileSize | src/lib/utils/fileHelpers.ts:1-6 | the definition of `formatFileSize`; its properties are `SmallFileSize`, `LargeFileSize` and `UnitNames` |
| FileHelpers.UnitIndex | src/lib/utils/fileHelpers.ts:4 | the unit index is the i with 1024^i ≤ bytes < 1024^(i+1) |
| FileHelpers.UnitIndexUnique | src/lib/utils/fileHelpers.ts:4 | no other index satisfies those bounds |
| FileHelpers.SmallFileSize | src/lib/utils/fileHelpers.ts:2-5 | an empty file is "0 B", and below 1024 bytes the size is shown in whole bytes |
| FileHelpers.LargeFileSize | src/lib/utils/fileHelpers.ts:3-5 | from 1024 bytes on, the scaled size lies in [1, 1024) units and is shown rounded to the nearest tenth (so 1048575 bytes read "1024.0 KB") |
| FileHelpers.UnitNames | src/lib/utils/fileHelpers.ts:3-5 | the unit is KB, MB or GB by the power of 1024 reached, and "undefined" from 1024 GB on |
| FileHelpers.GetFileExtension | src/lib/utils/fileHelpers.ts:12-14 | the definition of `getFileExtension`; its properties are `ExtensionWithDot` and `ExtensionWithoutDot` |
| FileHelpers.ExtensionWithDot | src/lib/utils/fileHelpers.ts:12-14 | with a dot, the extension is the lower-cased suffix from the last dot |
| FileHelpers.ExtensionWithoutDot | src/lib/utils/fileHelpers.ts:12-14 | without a dot, `slice(-1)` yields the last character, lower-cased |
| FileHelpers.ReplaceExtension | src/lib/utils/fileHelpers.ts:16-19 | the definition of `replaceExtension`; its properties are `ReplaceExtensionShape` and `ReplaceThenGet` |
| FileHelpers.ReplaceExtensionShape | src/lib/utils/fileHelpers.ts:16-19 | the new name is the part before the last dot (or all but the last character), then "." and the new extension |
| FileHelpers.ReplaceThenGet | src/lib/utils/fileHelpers.ts:12-19 | replacing the extension and reading it back gives the new extension, lower-cased, with its dot |
| FileHelpers.ValidateFileType | src/lib/utils/fileHelpers.ts:21-26 | the definition of `validateFileType`; its properties are `AcceptsExactly` and `ValidateFileTypeProperties` |
| FileHelpers.AcceptsExactly | src/lib/utils/fileHelpers.ts:23-25 | `some` holds exactly when an entry equals the extension or the MIME type |
| FileHelpers.ValidateFileTypeProperties | src/lib/utils/fileHelpers.ts:21-26 | a file is valid exactly when an accepted entry equals its extension or type, and accepting more types never rejects it |
| Locales.IsLocale | src/i18n/locales.ts:23-25 | the definition of `isLocale`; its property is `IsLocaleExactly` |
| Locales.GetLocaleFromPath | src/i18n/locales.ts:27-31 | the result is always a supported locale |
| Locales.IsLocaleExactly | src/i18n/locales.ts:23-25 | the supported locales are exactly "en", "ja" and "zh" |
| Locales.FirstNonEmpty | src/i18n/locales.ts:28 | `filter(Boolean)[0]` is the first non-empty segment |
| Locales.EmptySegmentsSkipped | src/i18n/locales.ts:28-29 | "//ja/x" is a Japanese path |
| Locales.NoLocaleIsDefault | src/i18n/locales.ts:27-31 | a path without a locale segment reads as English |
| Locales.LocalePath | src/i18n/locales.ts:33-36 | the definition of `localePath`; its property is `LocalePathRoundTrip` |
| Locales.LocalePathRoundTrip | src/i18n/locales.ts:27-36 | the default locale leaves a path as it is, and any other prefixes it so that the path reads back as that locale |
| FileUpload.FileQueue.constructor | src/hooks/useFileUpload.ts:6 | the queue starts empty |
| FileUpload.FileQueue.AddFiles | src/hooks/useFileUpload.ts:8-23 | the valid files are appended as new pending entries, in order |
| FileUpload.FileQueue.RemoveFile | src/hooks/useFileUpload.ts:25-27 | the entries with the id are dropped |
| FileUpload.FileQueue.ClearFiles | src/hooks/useFileUpload.ts:29-31 | the queue is emptied |
| FileUpload.FileQueue.UpdateFile | src/hooks/useFileUpload.ts:33-40 | the entries with the id get the update's fields |
| FileUpload.FileQueue.MoveFile | src/hooks/useFileUpload.ts:42-49 | the entry at fromIndex is taken out and inserted at toIndex |
| FileUpload.AcceptedProperties | src/hooks/useFileUpload.ts:11 | the filter keeps exactly the valid files, in order, and distributes over concatenation |
| FileUpload.AddedEntries | src/hooks/useFileUpload.ts:12-20 | adding keeps the existing entries and appends one pending entry, at progress 0, per valid file, with that file's name and size |
| FileUpload.WithoutProperties | src/hooks/useFileUpload.ts:26 | removal leaves no entry with the id, keeps every other entry, and distributes over concatenation |
| FileUpload.ApplyProperties | src/hooks/useFileUpload.ts:36 | applying an update twice is applying it once, and an empty update changes nothing |
| FileUpload.UpdatedProperties | src/hooks/useFileUpload.ts:35-37 | an update keeps length and order, leaves other ids alone, applies to matching ones, and is idempotent unless it changes the id |
| FileUpload.MovedProperties | src/hooks/useFileUpload.ts:44-47 | a move keeps the length and the multiset of entries, puts the moved entry at its (clamped) target, and keeps the other entries in their order |
| FileUpload.MoveInPlace | src/hooks/useFileUpload.ts:44-47 | moving an entry onto its own index changes nothing |
| Track.Collector.constructor | functions/api/track.ts:1-3 | the tables start empty |
| Track.Handle | functions/api/track.ts:19-77 | the definition of one request's outcome; its properties are `StatusProperties`, `PageViewCounts`, `UsageCounts`, `OnlyOneRow` and `HandleKeepsConsistent` |
| Track.Valid | functions/api/track.ts:5-35 | the definition of a valid request; its property is `ValidExactly` |
| Track.Collector.Post | functions/api/track.ts:19-77 | one request answers with the reference status and leaves the reference tables of `Handle` |
| Track.StatusProperties | functions/api/track.ts:22-76 | an invalid request is answered 400 and changes nothing; every valid one is answered 204 |
| Track.ValidExactly | functions/api/track.ts:5-35 | a request is valid exactly when the body parsed, has a known path and the type is "pageview" or "usage" |
| Track.PageViewCounts | functions/api/track.ts:44-66 | a page view adds 1 to pv, adds 1 to uv exactly for a visitor new to the row, keeps uses, and records the visitor |
| Track.UsageCounts | functions/api/track.ts:67-74 | a usage event adds 1 to uses and changes nothing else |
| Track.OnlyOneRow | functions/api/track.ts:44-74 | only the request's (date, path) row changes, and no row disappears |
| Track.EmptyConsistent | functions/api/track.ts:44-66 | the empty tables are consistent: every row's uv is the number of its recorded visitors |
| Track.HandleKeepsConsistent | functions/api/track.ts:44-74 | every request keeps the tables consistent, so uv counts distinct visitors per day and path |
| StatsApi.HandleGet | functions/api/stats.ts:10-15 | the definition of the report request's answer; its property is `KeyGate` |
| StatsApi.Range | functions/api/stats.ts:15 | the definition of the report range; its properties are `RangeProperties`, `ParseThirty` and `NegativeRangeKept` |
| StatsApi.KeyGate | functions/api/stats.ts:10-13 | the report is served exactly for the right, non-empty key |
| StatsApi.RangeProperties | functions/api/stats.ts:15 | the range is at most 365; a missing, unparsable or zero value gives 30; any other value is its leading integer capped at 365 |
| StatsApi.ParseThirty | functions/api/stats.ts:15 | the default "30" parses to 30 |
| StatsApi.NegativeRangeKept | functions/api/stats.ts:15 | a negative range passes through: "-7" gives -7 |
| StatsDashboard.AggregateTools | src/components/stats/StatsDashboard.tsx:104-115 | the per-tool loop yields the reference map values `ToolMapValues` |
| StatsDashboard.AddRow | src/components/stats/StatsDashboard.tsx:106-114 | one iteration adds the row to its path's entry, or starts one |
| StatsDashboard.GroupCategories | src/components/stats/StatsDashboard.tsx:123-137 | the per-category loop yields the reference map values `CategoryMapValues` |
| StatsDashboard.AddTool | src/components/stats/StatsDashboard.tsx:125-136 | one iteration adds the tool to its category's entry, or starts one |
| StatsDashboard.Tools | src/components/stats/StatsDashboard.tsx:104-116 | the definition of the per-tool list; its properties are `AggregateTools`, `ToolsProperties` and `ToolsSorted` |
| StatsDashboard.ToolsProperties | src/components/stats/StatsDashboard.tsx:104-115 | each distinct path gets exactly one tool, whose counters are the sums over that path's rows |
| StatsDashboard.ToolsSorted | src/components/stats/StatsDashboard.tsx:116 | the tools are a permutation of the map's entries, by non-increasing uv, stably |
| StatsDashboard.TotalsProperties | src/components/stats/StatsDashboard.tsx:118-121 | the totals are the sums over all rows |
| StatsDashboard.CategoryOf | src/components/stats/StatsDashboard.tsx:126-127 | the definition of a path's category; its property is `CategoryOfPath` |
| StatsDashboard.Categories | src/components/stats/StatsDashboard.tsx:123-138 | the definition of the per-category list; its properties are `GroupCategories`, `CategoriesProperties` and `CategoriesSorted` |
| StatsDashboard.CategoryOfPath | src/components/stats/StatsDashboard.tsx:126-127 | "/c/…" and "/c" are in category c, and a non-empty path with no '/' at all is "other" |
| StatsDashboard.CategoriesProperties | src/components/stats/StatsDashboard.tsx:123-137 | each category appears once, exactly for the tools' categories, with its tools in order and their summed counters |
| StatsDashboard.CategoriesSorted | src/components/stats/StatsDashboard.tsx:138 | the categories are a permutation of the map's entries, by non-increasing uv, stably (equal uv keeps insertion order) |
| StatsDashboard.MaxUv | src/components/stats/StatsDashboard.tsx:140 | the definition of maxUv; its property is `MaxUvProperties` |
| StatsDashboard.MaxUvProperties | src/components/stats/StatsDashboard.tsx:140 | maxUv is at least 1 and every tool's uv, and is 1 or some tool's uv |
| CropImage.DefaultCrop | src/components/image/CropImage.tsx:39-53 | the definition of the default crop; its properties are `FreeformCrop` and `AspectCrop` |
| CropImage.FreeformCrop | src/components/image/CropImage.tsx:50-52 | without an aspect the crop is the centred 80 % box |
| CropImage.AspectCrop | src/components/image/CropImage.tsx:41-48 | with an aspect the crop keeps the ratio, fits 80 % of both sides, reaches 80 % on one, and is centred inside the image |
| CropImage.ToPixels | src/components/image/CropImage.tsx:83-91 | the definition of the pixel crop; its properties are `PixelCropProperties` and `PixelsInsideImage` |
| CropImage.PixelCropFor | src/components/image/CropImage.tsx:83-93 | the definition of the crop that goes ahead; its property is `PixelCropProperties` |
| CropImage.PixelCropProperties | src/components/image/CropImage.tsx:83-93 | each pixel value is within 0.5 of the scaled display value; cropping goes ahead exactly when both pixel sides are positive |
| CropImage.PixelsInsideImage | src/components/image/CropImage.tsx:83-91 | a crop inside the displayed image maps to pixels that start inside the natural image and end at most one pixel past it |
| Common.Trim | src/lib/pdf/split.ts:11 | the definition of `trim`; its property is `TrimProperties` |
| Common.TrimProperties | src/lib/pdf/split.ts:11 | `trim` removes a blank prefix and a blank suffix and nothing else: the result is `s[i..j]` with `s[..i]` and `s[j..]` white space, empty exactly for blank text, otherwise starting and ending with a non-space character |
| Common.Split | src/lib/pdf/split.ts:10 | the definition of `split` on one character; its property is `SplitProperties` |
| Common.SplitProperties | src/lib/pdf/split.ts:10 | splitting yields pieces without the separator that join back to the string |
| Common.ParseInt | src/lib/pdf/split.ts:24 | the definition of `parseInt`; its properties are `ParseIntDigits` and `ParseIntLeadingDigits` |
| Common.ParseIntDigits | src/lib/pdf/split.ts:24 | `parseInt` of a digit string is its decimal value |
| Common.ParseIntLeadingDigits | src/lib/pdf/rotatePdf.ts:16 | `parseInt` reads a leading run of decimal digits and ignores whatever follows a non-digit |
| Common.Round | src/lib/pdf/split.ts:81 | `Math.round`: the integer r with r − 1/2 ≤ x < r + 1/2, so halves round up |
| Common.PercentProperties | src/lib/pdf/split.ts:81 | progress percentages never go backwards, stay within 0..100 and are 100 once all the work is done |
| Common.ProgressReportsProperties | src/lib/pdf/split.ts:81 | a run of progress reports is non-decreasing within 0..100 and ends at 100 |

## Left out

- Everything the libraries do is outside the model: loading and saving PDFs, decoding and encoding images, rendering HTML, measuring text, and building documents. Their results are inputs here.
- Browser events, downloads, timers and the 5-second image lookup timeout are not modelled. An image whose lookup fails or times out is an operator that yields no image.
- Numbers are exact reals or unbounded integers. IEEE rounding, NaN and Infinity are not modelled.
- Strings are sequences of Unicode scalar values, where JavaScript uses UTF-16 code units; the two differ only outside the Basic Multilingual Plane. `toLowerCase` is modelled for ASCII letters only.
- PdfToWord.PageLinesFollowGroups: the sort at toWord.ts 146-150 is not modelled. Its comparator is not transitive (a 2-unit Y tolerance), so the order it gives depends on the engine. Line assembly is proved for the runs in the order given.
- RotatePdf.Ascending: `Array.from(pages).sort` is modelled by scanning 1..totalPages for members of the set. The result is the same, because every page in the set is in that range.
- RotatePdf.RotatePages: pdf-lib's `setRotation` throws when the new rotation is not a multiple of 90; that check is not modelled. The added angle always is one, but an existing /Rotate value is taken as it is, so a page whose rotation is not a multiple of 90 gets the sum where the source throws.
- FileUpload.FileQueue.AddFiles: ids come from a random generator, so they are a parameter. Their uniqueness is not assumed.
- FileUpload.FileQueue.MoveFile: requires a non-empty queue and a `fromIndex` below its length, so that the first `splice` removes an entry. Otherwise the source inserts `undefined`; the file list never calls it that way.
- FileUpload.FileQueue.UpdateFile: an update can set `result` and `error` but cannot clear them back to absent.
- FileHelpers.UnitIndex: it uses an exact logarithm. `Math.log(bytes) / Math.log(1024)` can round differently at exact powers of 1024.
- Track.Collector.Post: a JSON body that is not an object is treated like one without fields. The race between the visitor SELECT and the INSERT under concurrent requests is not modelled.
- Track: the visitor hash (SHA-256 of IP, user agent and date) and the UTC date are parameters.
- StatsApi: the date arithmetic for `since` and the SQL query are not modelled; the report range and the key check are.
- StatsDashboard: fetching, log-in state and rendering are not modelled; the aggregation is.
- Stitch.StitchImages: requires at least one image. With none, `Math.max()` is -Infinity; the page needs two images before it calls the function.
- ImageToPdf.ImagesToPdf, Pagination.ImageHeight, CropImage.ToPixels: images, canvases and displayed sizes must be non-zero. A zero size divides by zero in the source.
- ImageToPdf.PageDim: keys such as "constructor" that `PAGE_SIZES` inherits from the object prototype are not modelled.
- CompressImage.Compress: the quality is folded into the `encode` parameter.
- MdToPdf.MdToPdf: margins are a three-valued type. An unknown margins key, which gives NaN in the source, cannot occur.
- Watermark.AddWatermark: the colour and opacity are passed through to the drawing call and are not modelled. The range checks pdf-lib's `rgb` makes on the parsed channels are not modelled either.
- PdfWatermark.BlackPair: states the channel of one pair ("00" is 0); the full "#000000" follows with `SixDigitColor`.
- PdfWatermark.WhitePair: states the channel of one pair ("ff" is 1); the full "#ffffff" follows with `SixDigitColor`.
- JavaScript `Map` objects are modelled as sequences of entries in insertion order. Aliasing between the map's values and the sorted arrays is not modelled.
