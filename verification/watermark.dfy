/**
  Text watermarks on every page of a PDF: the text is centred horizontally
  with its baseline at mid-height, upright in centre mode and turned by the
  chosen angle in diagonal mode. Loading and saving the document and the
  font's metrics are left out: each page's size and the width of the text
  at the chosen size are inputs, and a drawing call becomes a `Stamp`.
 */
module Watermark {
  import opened Common

  datatype Position = Center | Diagonal

  /** A page's size, as the PDF library reports it. */
  datatype PageSize = PageSize(width: real, height: real)

  /** The options that decide where and how the text is drawn; colour and
      opacity are handed to the drawing call unchanged. */
  datatype Options = Options(text: string, fontSize: real, rotation: real, position: Position)

  /** One `drawText` call: the page it is on, the text, its baseline origin,
      its size and its rotation in degrees. */
  datatype Stamp = Stamp(page: nat, text: string, x: real, y: real, size: real, rotate: real)

  /** The rotation actually drawn: the caller's in diagonal mode, none in
      centre mode. */
  function RotationFor(position: Position, rotation: real): real {
    if position == Diagonal then rotation else 0.0
  }

  /** The stamp drawn on page `i`. */
  function StampFor(i: nat, size: PageSize, textWidth: real, o: Options): Stamp {
    Stamp(i, o.text, size.width / 2.0 - textWidth / 2.0, size.height / 2.0, o.fontSize,
          RotationFor(o.position, o.rotation))
  }

  /** `addWatermark` between loading and saving: one text per page, in page
      order, then a progress report. */
  method AddWatermark(pages: seq<PageSize>, textWidth: real, o: Options)
      returns (stamps: seq<Stamp>, progress: seq<int>)
    ensures |stamps| == |pages|
    ensures forall i :: 0 <= i < |pages| ==> stamps[i] == StampFor(i, pages[i], textWidth, o)
    ensures progress == ProgressReports(|pages|)
  {
    stamps := [];
    progress := [];
    for i := 0 to |pages|
      invariant |stamps| == i && |progress| == i
      invariant forall j :: 0 <= j < i ==> stamps[j] == StampFor(j, pages[j], textWidth, o)
      invariant forall j :: 0 <= j < i ==> progress[j] == Percent(j + 1, |pages|)
    {
      var width, height := pages[i].width, pages[i].height;
      var x, y, rotate;
      if o.position == Diagonal {
        x := width / 2.0 - textWidth / 2.0;
        y := height / 2.0;
        rotate := o.rotation;
      } else {
        x := width / 2.0 - textWidth / 2.0;
        y := height / 2.0;
        rotate := 0.0;
      }
      stamps := stamps + [Stamp(i, o.text, x, y, o.fontSize, rotate)];
      progress := progress + [Percent(i + 1, |pages|)];
    }
  }

  // ---------------------------------------------------------------------------
  // Properties
  // ---------------------------------------------------------------------------

  /** In both modes the text leaves equal room on its left and right and sits
      on the page's horizontal mid-line; only diagonal mode turns it, and by
      exactly the chosen angle. */
  lemma StampProperties(i: nat, size: PageSize, textWidth: real, o: Options)
    ensures var s := StampFor(i, size, textWidth, o);
            && s.page == i && s.text == o.text && s.size == o.fontSize
            && s.x == size.width - (s.x + textWidth)
            && s.y + s.y == size.height
            && (o.position == Center ==> s.rotate == 0.0)
            && (o.position == Diagonal ==> s.rotate == o.rotation)
  {
  }

  /** Pages are stamped in order, each once, and the progress reports rise to
      100 on the last page. */
  lemma OnePerPage(pages: seq<PageSize>, textWidth: real, o: Options, stamps: seq<Stamp>)
    requires |stamps| == |pages|
    requires forall i :: 0 <= i < |pages| ==> stamps[i] == StampFor(i, pages[i], textWidth, o)
    ensures forall i, j :: 0 <= i < j < |stamps| ==> stamps[i].page < stamps[j].page
    ensures forall i :: 0 <= i < |stamps| ==> stamps[i].page == i
    ensures |pages| > 0 ==> ProgressReports(|pages|)[|pages| - 1] == 100
  {
    ProgressReportsProperties(|pages|);
  }
}
