/**
  Markdown to PDF: the rendered HTML is captured as one image at the width
  of the content box and sliced across pages of the chosen size with the
  chosen margins. Rendering and the PDF library are left out; the model is
  the page geometry and the slices drawn.
 */
module MdToPdf {
  import Pagination

  datatype Margins = Normal | Narrow | Wide

  /** The page and its content box, in millimetres. */
  datatype PageLayout = PageLayout(margin: real, pageW: real, pageH: real, contentW: real, contentH: real)

  /** `marginMap`: 10, 5 or 20 mm. */
  function MarginOf(m: Margins): real {
    match m
    case Normal => 10.0
    case Narrow => 5.0
    case Wide => 20.0
  }

  /** A4 for "a4", Letter for anything else; the content box is the page
      minus the margin on every side. */
  function LayoutFor(pageSize: string, margins: Margins): (l: PageLayout)
    ensures l.contentW > 0.0 && l.contentH > 0.0
  {
    var margin := MarginOf(margins);
    var pageW := if pageSize == "a4" then 210.0 else 215.9;
    var pageH := if pageSize == "a4" then 297.0 else 279.4;
    PageLayout(margin, pageW, pageH, pageW - margin * 2.0, pageH - margin * 2.0)
  }

  /** `mdToPdf` from the captured canvas on: the image height at content
      width, then the pagination loop. */
  method MdToPdf(canvasW: real, canvasH: real, pageSize: string, margins: Margins)
      returns (pages: nat, slices: seq<Pagination.Slice>)
    requires canvasW > 0.0
    ensures var l := LayoutFor(pageSize, margins);
            var imgH := Pagination.ImageHeight(canvasW, canvasH, l.contentW);
            && |slices| == Pagination.SliceCount(imgH, l.contentH)
            && pages == (if |slices| == 0 then 1 else |slices|)
            && forall k :: 0 <= k < |slices| ==> slices[k] == Pagination.SliceAt(k, l.margin, l.contentW, imgH, l.contentH)
  {
    var l := LayoutFor(pageSize, margins);
    var imgW := l.contentW;
    var imgH := (canvasH * l.contentW) / canvasW;
    pages, slices := Pagination.Paginate(l.margin, imgW, imgH, l.contentH);
  }

  /** The margins and page sizes, and the content boxes they leave. */
  lemma LayoutValues(pageSize: string, margins: Margins)
    ensures MarginOf(Normal) == 10.0 && MarginOf(Narrow) == 5.0 && MarginOf(Wide) == 20.0
    ensures LayoutFor("a4", margins).pageW == 210.0 && LayoutFor("a4", margins).pageH == 297.0
    ensures pageSize != "a4" ==> LayoutFor(pageSize, margins).pageW == 215.9 && LayoutFor(pageSize, margins).pageH == 279.4
    ensures var l := LayoutFor(pageSize, margins);
            l.margin + l.contentW + l.margin == l.pageW && l.margin + l.contentH + l.margin == l.pageH
    ensures LayoutFor("a4", Normal).contentW == 190.0 && LayoutFor("a4", Normal).contentH == 277.0
  {
  }
}
