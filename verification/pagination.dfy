/**
  Slicing one tall rendered image across pages, as the Markdown and Word
  converters do: the image is drawn whole on every page, shifted up by one
  content height per page, so that page `k` shows the window
  [k * contentH, (k + 1) * contentH) of it inside the margins.
 */
module Pagination {
  import opened Common

  /** One `addImage` call: the page it is on and the image's rectangle. */
  datatype Slice = Slice(page: nat, x: real, y: real, w: real, h: real)

  /** The rendered canvas scaled to the content width:
      `(canvas.height * contentW) / canvas.width`. */
  function ImageHeight(canvasW: real, canvasH: real, contentW: real): real
    requires canvasW > 0.0
  {
    (canvasH * contentW) / canvasW
  }

  /** How many times the loop runs: ⌈imgH / contentH⌉, none for an empty
      image. */
  function SliceCount(imgH: real, contentH: real): nat
    requires contentH > 0.0
  {
    if imgH <= 0.0 then 0 else Ceil(imgH / contentH)
  }

  /** Where slice `k` is drawn: the page's margin, shifted up by `k` pages. */
  function SliceAt(k: nat, margin: real, imgW: real, imgH: real, contentH: real): Slice {
    Slice(k, margin, margin - k as real * contentH, imgW, imgH)
  }

  /** `k * contentH < imgH` exactly for the slices the loop draws. */
  lemma CountBound(imgH: real, contentH: real, k: nat)
    requires contentH > 0.0
    ensures k as real * contentH < imgH <==> k < SliceCount(imgH, contentH)
  {
    var n := SliceCount(imgH, contentH);
    if imgH > 0.0 {
      var q := imgH / contentH;
      assert q * contentH == imgH;
      if k as real < q {
        assert k as real * contentH < q * contentH;
      } else {
        assert k as real * contentH >= q * contentH;
      }
    } else {
      assert k as real * contentH >= 0.0;
    }
  }

  /** The pagination loop: the document starts with one page, every slice
      after the first adds a page, and each slice is drawn at the margin,
      `yOffset` higher than the last. */
  method Paginate(margin: real, imgW: real, imgH: real, contentH: real)
      returns (pages: nat, slices: seq<Slice>)
    requires contentH > 0.0
    ensures |slices| == SliceCount(imgH, contentH)
    ensures pages == if |slices| == 0 then 1 else |slices|
    ensures forall k :: 0 <= k < |slices| ==> slices[k] == SliceAt(k, margin, imgW, imgH, contentH)
  {
    var yOffset := 0.0;
    var page := 0;
    pages := 1;
    slices := [];
    CountBound(imgH, contentH, 0);
    while yOffset < imgH
      invariant yOffset == page as real * contentH
      invariant page <= SliceCount(imgH, contentH)
      invariant |slices| == page
      invariant pages == if page == 0 then 1 else page
      invariant forall k :: 0 <= k < page ==> slices[k] == SliceAt(k, margin, imgW, imgH, contentH)
      decreases SliceCount(imgH, contentH) - page
    {
      CountBound(imgH, contentH, page);
      if page > 0 {
        pages := pages + 1;
      }
      slices := slices + [Slice(page, margin, margin - yOffset, imgW, imgH)];
      yOffset := yOffset + contentH;
      page := page + 1;
      assert yOffset == page as real * contentH;
    }
    CountBound(imgH, contentH, page);
  }

  // ---------------------------------------------------------------------------
  // Properties
  // ---------------------------------------------------------------------------

  /** The windows tile the image: every height in [0, imgH) lies in exactly
      one window, and the last window is not empty. */
  lemma SlicesTile(imgH: real, contentH: real, y: real)
    requires contentH > 0.0 && 0.0 <= y < imgH
    ensures var k := y / contentH;
            var n := SliceCount(imgH, contentH);
            && 0 <= k.Floor < n
            && k.Floor as real * contentH <= y < (k.Floor + 1) as real * contentH
    ensures SliceCount(imgH, contentH) > 0
    ensures (SliceCount(imgH, contentH) - 1) as real * contentH < imgH <= SliceCount(imgH, contentH) as real * contentH
  {
    var q := y / contentH;
    var k := q.Floor;
    assert q * contentH == y;
    assert k as real <= q < k as real + 1.0;
    assert k as real * contentH <= q * contentH;
    var next := (k + 1) as real;
    assert q < next;
    assert q * contentH < next * contentH;
    assert y < next * contentH;
    assert (y / contentH).Floor == k;
    assert y < ((y / contentH).Floor + 1) as real * contentH;
    assert k >= 0;
    CountBound(imgH, contentH, k);
    var n := SliceCount(imgH, contentH);
    CountBound(imgH, contentH, n - 1);
    CountBound(imgH, contentH, n);
  }

  /** Scaling to the content width keeps the canvas's aspect ratio. */
  lemma AspectKept(canvasW: real, canvasH: real, contentW: real)
    requires canvasW > 0.0
    ensures ImageHeight(canvasW, canvasH, contentW) * canvasW == canvasH * contentW
    ensures contentW > 0.0 ==> ImageHeight(canvasW, canvasH, contentW) / contentW == canvasH / canvasW
  {
    var h := ImageHeight(canvasW, canvasH, contentW);
    assert h * canvasW == canvasH * contentW;
    if contentW > 0.0 {
      assert h / contentW == (h * canvasW) / (contentW * canvasW);
    }
  }
}
