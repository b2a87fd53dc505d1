/**
  Images to PDF: one page per image, every page the chosen paper size in the
  chosen orientation, the image either fitted inside a 10 mm margin or
  scaled to cover the whole page, and centred either way. Lengths are in
  millimetres and exact; the PDF library's page and image calls become the
  list of pages and the rectangles drawn on them.
 */
module ImageToPdf {
  import opened Common

  datatype Orientation = Portrait | Landscape
  datatype FitMode = Fit | Fill

  /** A page or image size. */
  datatype Dim = Dim(w: real, h: real)

  /** Where and how large an image is drawn on its page. */
  datatype Rect = Rect(x: real, y: real, w: real, h: real)

  /** An image drawn on the page with the given index. */
  datatype Drawing = Drawing(page: nat, rect: Rect)

  const Margin: real := 10.0

  /** `PAGE_SIZES[pageSize] ?? PAGE_SIZES.a4`: ISO A4 or US Letter, with A4
      for any other key. */
  function PageDim(pageSize: string): Dim {
    if pageSize == "letter" then Dim(215.9, 279.4) else Dim(210.0, 297.0)
  }

  /** The page in the chosen orientation: landscape swaps the sides. */
  function PageFor(pageSize: string, orientation: Orientation): (d: Dim)
    ensures d.w > 2.0 * Margin && d.h > 2.0 * Margin
  {
    var dim := PageDim(pageSize);
    if orientation == Landscape then Dim(dim.h, dim.w) else dim
  }

  function Min(a: real, b: real): real { if a <= b then a else b }
  function Max(a: real, b: real): real { if a >= b then a else b }

  /** Fit mode: the largest scale that keeps the image inside the margins,
      centred in the margin box. */
  function FitRect(page: Dim, img: Dim): Rect
    requires img.w > 0.0 && img.h > 0.0
  {
    var availW := page.w - Margin * 2.0;
    var availH := page.h - Margin * 2.0;
    var scale := Min(availW / img.w, availH / img.h);
    var drawW := img.w * scale;
    var drawH := img.h * scale;
    Rect(Margin + (availW - drawW) / 2.0, Margin + (availH - drawH) / 2.0, drawW, drawH)
  }

  /** Fill mode: the smallest scale that covers the page, centred on it. */
  function FillRect(page: Dim, img: Dim): Rect
    requires img.w > 0.0 && img.h > 0.0
  {
    var scale := Max(page.w / img.w, page.h / img.h);
    var drawW := img.w * scale;
    var drawH := img.h * scale;
    Rect((page.w - drawW) / 2.0, (page.h - drawH) / 2.0, drawW, drawH)
  }

  function DrawRect(page: Dim, mode: FitMode, img: Dim): Rect
    requires img.w > 0.0 && img.h > 0.0
  {
    if mode == Fit then FitRect(page, img) else FillRect(page, img)
  }

  predicate Decoded(images: seq<Dim>) {
    forall i :: 0 <= i < |images| ==> images[i].w > 0.0 && images[i].h > 0.0
  }

  /** `imagesToPdf`: the document starts with one page; every image after
      the first adds a page; each image is drawn on the last page and then
      progress is reported. */
  method ImagesToPdf(images: seq<Dim>, pageSize: string, orientation: Orientation, mode: FitMode)
      returns (pages: seq<Dim>, drawn: seq<Drawing>, progress: seq<int>)
    requires Decoded(images)
    ensures |pages| == if |images| == 0 then 1 else |images|
    ensures forall p :: 0 <= p < |pages| ==> pages[p] == PageFor(pageSize, orientation)
    ensures |drawn| == |images|
    ensures forall i :: 0 <= i < |images| ==>
              drawn[i] == Drawing(i, DrawRect(PageFor(pageSize, orientation), mode, images[i]))
    ensures progress == ProgressReports(|images|)
  {
    var page := PageFor(pageSize, orientation);
    pages := [page];
    drawn := [];
    progress := [];
    for i := 0 to |images|
      invariant |pages| == if i == 0 then 1 else i
      invariant forall p :: 0 <= p < |pages| ==> pages[p] == page
      invariant |drawn| == i && |progress| == i
      invariant forall j :: 0 <= j < i ==> drawn[j] == Drawing(j, DrawRect(page, mode, images[j]))
      invariant forall j :: 0 <= j < i ==> progress[j] == Percent(j + 1, |images|)
    {
      if i > 0 {
        pages := pages + [page];
      }
      var rect := if mode == Fit then FitRect(page, images[i]) else FillRect(page, images[i]);
      drawn := drawn + [Drawing(|pages| - 1, rect)];
      progress := progress + [Percent(i + 1, |images|)];
    }
  }

  // ---------------------------------------------------------------------------
  // Properties
  // ---------------------------------------------------------------------------

  /** A4 is 210 by 297 mm and Letter 215.9 by 279.4 mm; an unknown size is
      A4; landscape swaps width and height. */
  lemma PageSizes(pageSize: string)
    ensures PageFor("a4", Portrait) == Dim(210.0, 297.0)
    ensures PageFor("letter", Portrait) == Dim(215.9, 279.4)
    ensures pageSize != "letter" ==> PageFor(pageSize, Portrait) == PageFor("a4", Portrait)
    ensures PageFor(pageSize, Landscape) == Dim(PageFor(pageSize, Portrait).h, PageFor(pageSize, Portrait).w)
  {
  }

  lemma ScaleBelow(size: real, scale: real, avail: real)
    requires size > 0.0 && scale <= avail / size
    ensures size * scale <= avail
  {
    assert size * scale <= size * (avail / size);
  }

  lemma ScaleAbove(size: real, scale: real, avail: real)
    requires size > 0.0 && scale >= avail / size
    ensures size * scale >= avail
  {
    assert size * scale >= size * (avail / size);
  }

  /** Fit mode keeps the aspect ratio, stays inside the margins, touches the
      margin box on at least one axis and is centred in it. */
  lemma FitProperties(page: Dim, img: Dim)
    requires img.w > 0.0 && img.h > 0.0
    requires page.w > 2.0 * Margin && page.h > 2.0 * Margin
    ensures var r := FitRect(page, img);
            && r.w * img.h == r.h * img.w
            && Margin <= r.x && r.x + r.w <= page.w - Margin
            && Margin <= r.y && r.y + r.h <= page.h - Margin
            && (r.w == page.w - 2.0 * Margin || r.h == page.h - 2.0 * Margin)
            && r.x - Margin == (page.w - Margin) - (r.x + r.w)
            && r.y - Margin == (page.h - Margin) - (r.y + r.h)
  {
    var availW := page.w - Margin * 2.0;
    var availH := page.h - Margin * 2.0;
    var scale := Min(availW / img.w, availH / img.h);
    ScaleBelow(img.w, scale, availW);
    ScaleBelow(img.h, scale, availH);
    assert img.w * scale * img.h == img.h * scale * img.w;
    if availW / img.w <= availH / img.h {
      assert img.w * (availW / img.w) == availW;
    } else {
      assert img.h * (availH / img.h) == availH;
    }
  }

  /** Fill mode keeps the aspect ratio, covers the whole page and is
      centred, so it starts at or before the page's top-left corner. */
  lemma FillProperties(page: Dim, img: Dim)
    requires img.w > 0.0 && img.h > 0.0
    ensures var r := FillRect(page, img);
            && r.w * img.h == r.h * img.w
            && r.w >= page.w && r.h >= page.h
            && r.x <= 0.0 && r.y <= 0.0
            && r.x == page.w - (r.x + r.w)
            && r.y == page.h - (r.y + r.h)
  {
    var scale := Max(page.w / img.w, page.h / img.h);
    var drawW, drawH := img.w * scale, img.h * scale;
    ScaleAbove(img.w, scale, page.w);
    ScaleAbove(img.h, scale, page.h);
    assert drawW * img.h == drawH * img.w;
    var r := FillRect(page, img);
    assert r == Rect((page.w - drawW) / 2.0, (page.h - drawH) / 2.0, drawW, drawH);
    assert r.x <= 0.0 && r.y <= 0.0;
  }
}
