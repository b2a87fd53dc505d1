/**
  Word to PDF: the document is converted to HTML, rendered as one image at
  the content width of an A4 page with 10 mm margins and sliced across
  pages, with progress reported at fixed points along the way. The
  converter, the renderer and the PDF library are left out.
 */
module WordToPdf {
  import Pagination

  const Margin: real := 10.0
  const PageW: real := 210.0
  const PageH: real := 297.0
  const ContentW: real := PageW - Margin * 2.0
  const ContentH: real := PageH - Margin * 2.0

  /** The progress values reported, in order. */
  const Milestones: seq<int> := [10, 30, 50, 60, 70, 85, 100]

  /** `wordToPdf` from the captured canvas on, with its progress reports. */
  method WordToPdf(canvasW: real, canvasH: real)
      returns (progress: seq<int>, pages: nat, slices: seq<Pagination.Slice>)
    requires canvasW > 0.0
    ensures progress == Milestones
    ensures var imgH := Pagination.ImageHeight(canvasW, canvasH, ContentW);
            && |slices| == Pagination.SliceCount(imgH, ContentH)
            && pages == (if |slices| == 0 then 1 else |slices|)
            && forall k :: 0 <= k < |slices| ==> slices[k] == Pagination.SliceAt(k, Margin, ContentW, imgH, ContentH)
  {
    progress := [10];
    progress := progress + [30];
    progress := progress + [50];
    progress := progress + [60];
    progress := progress + [70];
    progress := progress + [85];
    var imgH := (canvasH * ContentW) / canvasW;
    pages, slices := Pagination.Paginate(Margin, ContentW, imgH, ContentH);
    progress := progress + [100];
  }

  /** The progress values strictly increase, stay within 0..100 and end at
      100; the content box is 190 by 277 mm. */
  lemma MilestonesIncrease()
    ensures forall i, j :: 0 <= i < j < |Milestones| ==> 0 <= Milestones[i] < Milestones[j] <= 100
    ensures Milestones[|Milestones| - 1] == 100
    ensures ContentW == 190.0 && ContentH == 277.0
  {
  }
}
