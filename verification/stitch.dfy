/**
  Stitching images into one canvas: the images are stacked along the chosen
  direction, in input order and separated by `spacing`, and aligned across
  it at the start, the centre or the end. The canvas is as long as the stack
  and as wide as the widest image. Decoding, drawing and encoding are left
  out; what is modelled is the canvas size and where each image is drawn.
 */
module Stitch {
  datatype Direction = Vertical | Horizontal
  datatype Align = Start | Center | End

  /** A decoded image: only its size matters here. */
  datatype Bitmap = Bitmap(width: nat, height: nat)

  datatype Canvas = Canvas(width: real, height: real)

  /** The top-left corner at which an image is drawn. */
  datatype Placement = Placement(x: real, y: real)

  /** The image's extent along the stacking direction. */
  function Along(b: Bitmap, d: Direction): real {
    if d == Vertical then b.height as real else b.width as real
  }

  /** The image's extent across the stacking direction. */
  function Across(b: Bitmap, d: Direction): real {
    if d == Vertical then b.width as real else b.height as real
  }

  /** `bitmaps.reduce((sum, b) => sum + b.height, 0)` (or `b.width`). */
  function SumAlong(images: seq<Bitmap>, d: Direction): real {
    if |images| == 0 then 0.0 else SumAlong(images[..|images| - 1], d) + Along(images[|images| - 1], d)
  }

  /** `Math.max(...bitmaps.map((b) => b.width))` (or `b.height`). */
  function MaxAcross(images: seq<Bitmap>, d: Direction): (m: real)
    requires |images| > 0
    ensures forall k :: 0 <= k < |images| ==> Across(images[k], d) <= m
    ensures exists k :: 0 <= k < |images| && Across(images[k], d) == m
  {
    if |images| == 1 then Across(images[0], d)
    else
      var rest := MaxAcross(images[..|images| - 1], d);
      var last := Across(images[|images| - 1], d);
      assert forall k :: 0 <= k < |images| - 1 ==> images[..|images| - 1][k] == images[k];
      if last > rest then last else rest
  }

  /** The stack's length: the sizes along plus `spacing * (n - 1)`. */
  function AlongTotal(images: seq<Bitmap>, d: Direction, spacing: real): real {
    SumAlong(images, d) + spacing * (|images| - 1) as real
  }

  /** The canvas: `totalWidth` by `totalHeight`. */
  function CanvasOf(images: seq<Bitmap>, d: Direction, spacing: real): Canvas
    requires |images| > 0
  {
    if d == Vertical then Canvas(MaxAcross(images, d), AlongTotal(images, d, spacing))
    else Canvas(AlongTotal(images, d, spacing), MaxAcross(images, d))
  }

  /** The canvas extent along and across the stacking direction. */
  function CanvasAlong(c: Canvas, d: Direction): real {
    if d == Vertical then c.height else c.width
  }

  function CanvasAcross(c: Canvas, d: Direction): real {
    if d == Vertical then c.width else c.height
  }

  /** The cross-axis offset of an image of extent `size` in `total`. */
  function CrossOffset(total: real, size: real, a: Align): real {
    match a
    case Start => 0.0
    case Center => (total - size) / 2.0
    case End => total - size
  }

  /** `offset` before image `k`: each earlier image adds its extent and the
      spacing. */
  function OffsetBefore(images: seq<Bitmap>, k: nat, d: Direction, spacing: real): real
    requires k <= |images|
  {
    if k == 0 then 0.0 else OffsetBefore(images, k - 1, d, spacing) + Along(images[k - 1], d) + spacing
  }

  /** Where image `k` is drawn on the canvas. */
  function PlacementAt(images: seq<Bitmap>, k: nat, d: Direction, a: Align, spacing: real): Placement
    requires k < |images|
  {
    var along := OffsetBefore(images, k, d, spacing);
    var across := CrossOffset(CanvasAcross(CanvasOf(images, d, spacing), d), Across(images[k], d), a);
    if d == Vertical then Placement(across, along) else Placement(along, across)
  }

  /** `stitchImages` up to the encoding: the canvas size, then the `draw`
      loop that places the images one after another. */
  method StitchImages(images: seq<Bitmap>, d: Direction, a: Align, spacing: real)
      returns (canvas: Canvas, placements: seq<Placement>)
    requires |images| > 0
    ensures canvas == CanvasOf(images, d, spacing)
    ensures |placements| == |images|
    ensures forall k :: 0 <= k < |images| ==> placements[k] == PlacementAt(images, k, d, a, spacing)
  {
    canvas := CanvasOf(images, d, spacing);
    var totalWidth, totalHeight := canvas.width, canvas.height;
    var offset := 0.0;
    placements := [];
    for k := 0 to |images|
      invariant |placements| == k
      invariant offset == OffsetBefore(images, k, d, spacing)
      invariant forall j :: 0 <= j < k ==> placements[j] == PlacementAt(images, j, d, a, spacing)
    {
      var bmp := images[k];
      var x, y := 0.0, 0.0;
      if d == Vertical {
        y := offset;
        if a == Center {
          x := (totalWidth - bmp.width as real) / 2.0;
        } else if a == End {
          x := totalWidth - bmp.width as real;
        }
        offset := offset + bmp.height as real + spacing;
      } else {
        x := offset;
        if a == Center {
          y := (totalHeight - bmp.height as real) / 2.0;
        } else if a == End {
          y := totalHeight - bmp.height as real;
        }
        offset := offset + bmp.width as real + spacing;
      }
      placements := placements + [Placement(x, y)];
    }
  }

  // ---------------------------------------------------------------------------
  // Properties
  // ---------------------------------------------------------------------------

  /** The canvas is exactly as wide (vertical) or as high (horizontal) as the
      largest image, and the other side is the sizes plus the gaps. */
  lemma CanvasProperties(images: seq<Bitmap>, d: Direction, spacing: real)
    requires |images| > 0
    ensures var c := CanvasOf(images, d, spacing);
            && CanvasAlong(c, d) == SumAlong(images, d) + spacing * (|images| - 1) as real
            && (forall k :: 0 <= k < |images| ==> Across(images[k], d) <= CanvasAcross(c, d))
            && (exists k :: 0 <= k < |images| && Across(images[k], d) == CanvasAcross(c, d))
  {
  }

  /** The offset before image `k` is the earlier sizes plus `k` gaps. */
  lemma {:induction false} OffsetFormula(images: seq<Bitmap>, k: nat, d: Direction, spacing: real)
    requires k <= |images|
    ensures OffsetBefore(images, k, d, spacing) == SumAlong(images[..k], d) + spacing * k as real
  {
    if k > 0 {
      OffsetFormula(images, k - 1, d, spacing);
      assert images[..k][..k - 1] == images[..k - 1];
      assert spacing * k as real == spacing * (k - 1) as real + spacing;
    }
  }

  /** The last image ends exactly at the far edge of the canvas. */
  lemma LastEndsAtEdge(images: seq<Bitmap>, d: Direction, spacing: real)
    requires |images| > 0
    ensures var n := |images|;
            OffsetBefore(images, n - 1, d, spacing) + Along(images[n - 1], d) == AlongTotal(images, d, spacing)
  {
    var n := |images|;
    OffsetFormula(images, n - 1, d, spacing);
    assert SumAlong(images, d) == SumAlong(images[..n - 1], d) + Along(images[n - 1], d);
  }

  /** With a non-negative spacing the images follow one another without
      overlapping: each starts no earlier than the previous one ends. */
  lemma {:induction false} NoOverlap(images: seq<Bitmap>, i: nat, j: nat, d: Direction, spacing: real)
    requires spacing >= 0.0 && i < j < |images|
    ensures OffsetBefore(images, i, d, spacing) + Along(images[i], d) <= OffsetBefore(images, j, d, spacing)
  {
    if i < j - 1 {
      NoOverlap(images, i, j - 1, d, spacing);
    }
  }

  /** The offsets are non-negative when the spacing is. */
  lemma {:induction false} OffsetNonNegative(images: seq<Bitmap>, k: nat, d: Direction, spacing: real)
    requires spacing >= 0.0 && k <= |images|
    ensures OffsetBefore(images, k, d, spacing) >= 0.0
  {
    if k > 0 {
      OffsetNonNegative(images, k - 1, d, spacing);
    }
  }

  /** The cross-axis offset lies between 0 and `total - size`: 0 for the
      start, the middle for the centre, `total - size` for the end. */
  lemma CrossOffsetInRange(total: real, size: real, a: Align)
    requires size <= total
    ensures 0.0 <= CrossOffset(total, size, a) <= total - size
    ensures a == Start ==> CrossOffset(total, size, a) == 0.0
    ensures a == End ==> CrossOffset(total, size, a) + size == total
    ensures a == Center ==> CrossOffset(total, size, a) == total - size - CrossOffset(total, size, a)
  {
  }

  /** With a non-negative spacing every image lies inside the canvas. */
  lemma InsideCanvas(images: seq<Bitmap>, k: nat, d: Direction, a: Align, spacing: real)
    requires spacing >= 0.0 && k < |images|
    ensures var p := PlacementAt(images, k, d, a, spacing);
            var c := CanvasOf(images, d, spacing);
            && 0.0 <= p.x && p.x + images[k].width as real <= c.width
            && 0.0 <= p.y && p.y + images[k].height as real <= c.height
  {
    var n := |images|;
    var c := CanvasOf(images, d, spacing);
    assert CanvasAlong(c, d) == AlongTotal(images, d, spacing);
    OffsetNonNegative(images, k, d, spacing);
    LastEndsAtEdge(images, d, spacing);
    if k < n - 1 {
      NoOverlap(images, k, n - 1, d, spacing);
    }
    assert Along(images[n - 1], d) >= 0.0;
    CrossOffsetInRange(CanvasAcross(c, d), Across(images[k], d), a);
  }
}
