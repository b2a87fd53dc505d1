/**
  The crop tool's geometry: the crop rectangle proposed when an image is
  shown, and the conversion of the chosen rectangle from display pixels to
  the image's own pixels before cropping. The crop itself is a canvas call
  and is left out.
 */
module CropImage {
  import opened Common

  /** A crop rectangle in display pixels. */
  datatype Crop = Crop(x: real, y: real, width: real, height: real)

  /** A crop rectangle in the image's own pixels. */
  datatype PixelCrop = PixelCrop(x: int, y: int, width: int, height: int)

  /** `createDefaultCrop`: 80% of the display, centred; with an aspect ratio
      (any value but none or 0, which are falsy) the width is 80% of the
      display's and the height follows from it, unless that height is over
      80% of the display's, in which case the height is 80% and the width
      follows. */
  function DefaultCrop(displayW: real, displayH: real, aspect: Option<real>): Crop {
    if aspect.Some? && aspect.value != 0.0 then
      var asp := aspect.value;
      var cw := displayW * 0.8;
      var ch := cw / asp;
      var tooTall := ch > displayH * 0.8;
      var h := if tooTall then displayH * 0.8 else ch;
      var w := if tooTall then h * asp else cw;
      Crop((displayW - w) / 2.0, (displayH - h) / 2.0, w, h)
    else
      var w := displayW * 0.8;
      var h := displayH * 0.8;
      Crop((displayW - w) / 2.0, (displayH - h) / 2.0, w, h)
  }

  /** The pixel crop in `handleCrop`: each side scaled by natural over
      display size and rounded. */
  function ToPixels(c: Crop, naturalW: real, naturalH: real, displayW: real, displayH: real): PixelCrop
    requires displayW > 0.0 && displayH > 0.0
  {
    var scaleX := naturalW / displayW;
    var scaleY := naturalH / displayH;
    PixelCrop(Round(c.x * scaleX), Round(c.y * scaleY), Round(c.width * scaleX), Round(c.height * scaleY))
  }

  /** `handleCrop`'s guard: the crop goes ahead only with a positive width
      and height in pixels. */
  function PixelCropFor(c: Crop, naturalW: real, naturalH: real, displayW: real, displayH: real): Option<PixelCrop>
    requires displayW > 0.0 && displayH > 0.0
  {
    var p := ToPixels(c, naturalW, naturalH, displayW, displayH);
    if p.width <= 0 || p.height <= 0 then None else Some(p)
  }

  // ---------------------------------------------------------------------------
  // Properties
  // ---------------------------------------------------------------------------

  /** Without an aspect ratio the crop is 80% of each side with a 10% border
      all round. */
  lemma FreeformCrop(displayW: real, displayH: real, aspect: Option<real>)
    requires aspect.None? || aspect.value == 0.0
    ensures DefaultCrop(displayW, displayH, aspect) ==
              Crop(displayW * 0.1, displayH * 0.1, displayW * 0.8, displayH * 0.8)
  {
  }

  /** With a positive aspect ratio the crop has that ratio, fits within 80%
      of the display on both axes and reaches 80% on at least one, and is
      centred inside the display. */
  lemma AspectCrop(displayW: real, displayH: real, a: real)
    requires displayW >= 0.0 && displayH >= 0.0 && a > 0.0
    ensures var c := DefaultCrop(displayW, displayH, Some(a));
            && c.width == c.height * a
            && 0.0 <= c.width <= displayW * 0.8 && 0.0 <= c.height <= displayH * 0.8
            && (c.width == displayW * 0.8 || c.height == displayH * 0.8)
            && c.x == displayW - (c.x + c.width) && c.y == displayH - (c.y + c.height)
            && 0.0 <= c.x && c.x + c.width <= displayW
            && 0.0 <= c.y && c.y + c.height <= displayH
  {
    var cw := displayW * 0.8;
    var ch := cw / a;
    assert ch * a == cw;
    if ch > displayH * 0.8 {
      assert displayH * 0.8 * a < ch * a;
    } else {
      assert ch >= 0.0;
    }
  }

  /** The pixel crop is within half a pixel of the scaled display crop on
      every side, and the crop goes ahead exactly when both rounded sides
      are positive. */
  lemma PixelCropProperties(c: Crop, naturalW: real, naturalH: real, displayW: real, displayH: real)
    requires displayW > 0.0 && displayH > 0.0
    ensures var p := ToPixels(c, naturalW, naturalH, displayW, displayH);
            var sx := naturalW / displayW;
            var sy := naturalH / displayH;
            && Abs(p.x as real - c.x * sx) <= 0.5 && Abs(p.y as real - c.y * sy) <= 0.5
            && Abs(p.width as real - c.width * sx) <= 0.5 && Abs(p.height as real - c.height * sy) <= 0.5
    ensures var r := PixelCropFor(c, naturalW, naturalH, displayW, displayH);
            var p := ToPixels(c, naturalW, naturalH, displayW, displayH);
            && (r.Some? <==> p.width > 0 && p.height > 0)
            && (r.Some? ==> r.value == p && r.value.width >= 1 && r.value.height >= 1)
  {
  }

  /** A crop inside the display maps to pixels inside the image, give or take
      the one pixel that rounding both the start and the size can add. */
  lemma PixelsInsideImage(c: Crop, naturalW: real, naturalH: real, displayW: real, displayH: real)
    requires displayW > 0.0 && displayH > 0.0 && naturalW >= 0.0 && naturalH >= 0.0
    requires 0.0 <= c.x && 0.0 <= c.width && c.x + c.width <= displayW
    requires 0.0 <= c.y && 0.0 <= c.height && c.y + c.height <= displayH
    ensures var p := ToPixels(c, naturalW, naturalH, displayW, displayH);
            && 0 <= p.x && 0 <= p.width && (p.x + p.width) as real <= naturalW + 1.0
            && 0 <= p.y && 0 <= p.height && (p.y + p.height) as real <= naturalH + 1.0
  {
    var p := ToPixels(c, naturalW, naturalH, displayW, displayH);
    AxisInside(c.x, c.width, displayW, naturalW, p.x, p.width);
    AxisInside(c.y, c.height, displayH, naturalH, p.y, p.height);
  }

  /** One axis of `PixelsInsideImage`. */
  lemma AxisInside(start: real, size: real, display: real, natural: real, ps: int, pw: int)
    requires display > 0.0 && natural >= 0.0
    requires 0.0 <= start && 0.0 <= size && start + size <= display
    requires ps == Round(start * (natural / display)) && pw == Round(size * (natural / display))
    ensures 0 <= ps && 0 <= pw && (ps + pw) as real <= natural + 1.0
  {
    var scale := natural / display;
    assert scale >= 0.0;
    assert (start + size) * scale <= display * scale;
    assert display * scale == natural;
    assert start * scale + size * scale <= natural;
  }
}
