/** The integer geometry of the image processor: the transparent-bounds crop and the
    fit-to-canvas sizing and centring (`auto_crop_transparent`, `resize_to_target`).
    Pixels are not modelled beyond the alpha band that the crop reads. */
module Geometry {
  import opened Py
  import opened Config

  /** A raster image: its size, its Pillow mode name and, row by row, the alpha of every
      pixel (the alpha band when the mode has one). */
  datatype Image = Image(width: nat, height: nat, mode: string, alpha: seq<seq<int>>)

  /** The alpha grid has `height` rows of `width` entries. */
  predicate WellFormed(img: Image) {
    && |img.alpha| == img.height
    && forall y :: 0 <= y < img.height ==> |img.alpha[y]| == img.width
  }

  /** An image whose alpha grid matches its size. */
  type Raster = img: Image | WellFormed(img) witness Image(0, 0, "RGBA", [])

  /** Pixel (x, y) has non-zero alpha. */
  predicate Visible(img: Image, x: int, y: int) {
    0 <= y < |img.alpha| && 0 <= x < |img.alpha[y]| && img.alpha[y][x] != 0
  }

  predicate RowVisible(img: Image, y: int) {
    exists x | 0 <= x < img.width :: Visible(img, x, y)
  }

  predicate ColumnVisible(img: Image, x: int) {
    exists y | 0 <= y < img.height :: Visible(img, x, y)
  }

  /** The first index in [lo, hi) where `p` holds, or `hi`. */
  function FirstWhere(p: int -> bool, lo: int, hi: int): (r: int)
    requires lo <= hi
    ensures lo <= r <= hi
    ensures r < hi ==> p(r)
    ensures forall i :: lo <= i < r ==> !p(i)
    decreases hi - lo
  {
    if lo == hi then hi else if p(lo) then lo else FirstWhere(p, lo + 1, hi)
  }

  /** The last index in [lo, hi) where `p` holds, or `lo - 1`. */
  function LastWhere(p: int -> bool, lo: int, hi: int): (r: int)
    requires lo <= hi
    ensures lo - 1 <= r < hi
    ensures r >= lo ==> p(r)
    ensures forall i :: r < i < hi ==> !p(i)
    decreases hi - lo
  {
    if lo == hi then lo - 1 else if p(hi - 1) then hi - 1 else LastWhere(p, lo, hi - 1)
  }

  /** A box (left, upper, right, lower) with exclusive right and lower edges. */
  datatype Box = Box(left: int, top: int, right: int, bottom: int)

  /** `b` lies in the image, holds every visible pixel, and each edge touches one. */
  ghost predicate IsTightBox(img: Image, b: Box) {
    && 0 <= b.left < b.right <= img.width
    && 0 <= b.top < b.bottom <= img.height
    && (forall x, y :: Visible(img, x, y) ==> b.left <= x < b.right && b.top <= y < b.bottom)
    && ColumnVisible(img, b.left) && ColumnVisible(img, b.right - 1)
    && RowVisible(img, b.top) && RowVisible(img, b.bottom - 1)
  }

  /** `img.getbbox()` for an RGBA image: the tight box of non-zero alpha, or None
      when every pixel is fully transparent. */
  function GetBBox(img: Image): (r: Option<Box>)
    requires WellFormed(img)
    ensures r.None? <==> forall x, y :: !Visible(img, x, y)
    ensures r.Some? ==> IsTightBox(img, r.value)
  {
    var rows := y => RowVisible(img, y);
    var columns := x => ColumnVisible(img, x);
    var top := FirstWhere(rows, 0, img.height);
    if top == img.height then
      forall x, y ensures !Visible(img, x, y) {
        assert 0 <= y < img.height ==> !rows(y);
      }
      None
    else
      var bottom := LastWhere(rows, 0, img.height) + 1;
      var left := FirstWhere(columns, 0, img.width);
      var right := LastWhere(columns, 0, img.width) + 1;
      var x0 :| 0 <= x0 < img.width && Visible(img, x0, top);
      assert columns(x0);
      assert Visible(img, x0, top);
      forall x, y | Visible(img, x, y) ensures left <= x < right && top <= y < bottom {
        assert rows(y);
        assert columns(x);
      }
      Some(Box(left, top, right, bottom))
  }

  function Max(a: int, b: int): int { if a >= b then a else b }

  function Min(a: int, b: int): int { if a <= b then a else b }

  /** The crop box of lines 56-59: the bounding box grown by `padding` on every side
      and clamped to the image. */
  function PaddedBox(img: Image, b: Box, padding: int): (c: Box)
    requires 0 <= b.left <= b.right <= img.width && 0 <= b.top <= b.bottom <= img.height
    ensures 0 <= c.left && 0 <= c.top && c.right <= img.width && c.bottom <= img.height
    ensures padding >= 0 ==> c.left <= b.left && c.top <= b.top && b.right <= c.right && b.bottom <= c.bottom
    ensures b.left - padding >= 0 ==> c.left == b.left - padding
    ensures b.left - padding < 0 ==> c.left == 0
    ensures b.top - padding >= 0 ==> c.top == b.top - padding
    ensures b.top - padding < 0 ==> c.top == 0
    ensures b.right + padding <= img.width ==> c.right == b.right + padding
    ensures b.right + padding > img.width ==> c.right == img.width
    ensures b.bottom + padding <= img.height ==> c.bottom == b.bottom + padding
    ensures b.bottom + padding > img.height ==> c.bottom == img.height
  {
    Box(Max(0, b.left - padding), Max(0, b.top - padding),
        Min(img.width, b.right + padding), Min(img.height, b.bottom + padding))
  }

  /** `img.crop(box)` for a box that lies in the image. */
  function Crop(img: Image, b: Box): (r: Image)
    requires WellFormed(img)
    requires 0 <= b.left <= b.right <= img.width && 0 <= b.top <= b.bottom <= img.height
    ensures WellFormed(r)
    ensures r.width == b.right - b.left && r.height == b.bottom - b.top && r.mode == img.mode
    ensures forall x, y :: 0 <= x < r.width && 0 <= y < r.height ==> r.alpha[y][x] == img.alpha[b.top + y][b.left + x]
  {
    Image(b.right - b.left, b.bottom - b.top, img.mode,
          seq(b.bottom - b.top, y requires 0 <= y < b.bottom - b.top => img.alpha[b.top + y][b.left..b.right]))
  }

  /** Why `resize_to_target` fails. */
  datatype GeometryError =
    | InvertedCrop                                   // Pillow's crop refuses right < left or lower < upper
    | InvalidCropDimensions(width: int, height: int) // lines 90-93
    | InvalidAvailable(width: int, height: int)      // lines 102-105
    | DivisionByZero                                 // line 118 or line 132
    | InvalidResize(width: int, height: int)         // Pillow's resize refuses a side below 1
    | InvalidCanvas                                  // Pillow's Image.new refuses a negative size
    | BadTransparencyMask                            // Pillow's paste refuses a mask without a usable band

  /** The exception each failure raises. */
  function AsException(e: GeometryError): PyException {
    match e
    case InvertedCrop => PyException(ValueError, "Coordinate 'right' is less than 'left'")
    case InvalidCropDimensions(w, h) =>
      PyException(ValueError, "Image has invalid dimensions after cropping: " + IntToString(w) + "x" + IntToString(h))
    case InvalidAvailable(w, h) =>
      PyException(ValueError, "Invalid dimensions after applying fill_ratio: " + IntToString(w) + "x" + IntToString(h))
    case DivisionByZero => PyException(ZeroDivisionError, "division by zero")
    case InvalidResize(_, _) => PyException(ValueError, "height and width must be > 0")
    case InvalidCanvas => PyException(ValueError, "Width and height must be >= 0")
    case BadTransparencyMask => PyException(ValueError, "bad transparency mask")
  }

  /** `auto_crop_transparent(img, padding)`: a None padding takes the configured one. */
  function AutoCrop(img: Image, padding: Option<int>, configPadding: int): (r: Result<Image, GeometryError>)
    requires WellFormed(img)
    ensures r.Ok? ==> WellFormed(r.value)
    ensures img.mode != "RGBA" ==> r == Ok(img)
    ensures GetBBox(img).None? ==> r == Ok(img)
    ensures r.Err? ==> r == Err(InvertedCrop) && (if padding.Some? then padding.value else configPadding) < 0
    ensures img.mode == "RGBA" && GetBBox(img).Some? && r.Ok? ==>
      var c := PaddedBox(img, GetBBox(img).value, if padding.Some? then padding.value else configPadding);
      c.left <= c.right && c.top <= c.bottom && r.value == Crop(img, c)
  {
    if img.mode != "RGBA" then Ok(img)
    else
      var pad := if padding.Some? then padding.value else configPadding;
      match GetBBox(img)
      case None => Ok(img)
      case Some(b) =>
        var c := PaddedBox(img, b, pad);
        if c.right < c.left || c.bottom < c.top then Err(InvertedCrop)
        else Ok(Crop(img, c))
  }

  /** A crop whose box holds every visible pixel keeps each of them, shifted by the box's corner. */
  lemma CropKeepsVisible(img: Image, c: Box)
    requires WellFormed(img)
    requires 0 <= c.left <= c.right <= img.width && 0 <= c.top <= c.bottom <= img.height
    requires forall x, y :: Visible(img, x, y) ==> c.left <= x < c.right && c.top <= y < c.bottom
    ensures forall x, y :: Visible(img, x, y) ==> Visible(Crop(img, c), x - c.left, y - c.top)
  {
    var out := Crop(img, c);
    forall x, y | Visible(img, x, y) ensures Visible(out, x - c.left, y - c.top) {
      assert out.alpha[y - c.top][x - c.left] == img.alpha[c.top + (y - c.top)][c.left + (x - c.left)];
    }
  }

  /** With a non-negative padding the padded box holds the bounding box, so the crop succeeds. */
  lemma AutoCropIsPaddedCrop(img: Image, padding: int)
    requires WellFormed(img) && img.mode == "RGBA" && GetBBox(img).Some? && padding >= 0
    ensures var b := GetBBox(img).value;
      var c := PaddedBox(img, b, padding);
      && c.left <= b.left < b.right <= c.right && c.top <= b.top < b.bottom <= c.bottom
      && AutoCrop(img, Some(padding), padding) == Ok(Crop(img, c))
  {
  }

  /** With a non-negative padding the crop succeeds, is no larger than the image, has
      positive area, and keeps every visible pixel. */
  lemma AutoCropKeepsContent(img: Image, padding: int)
    requires WellFormed(img) && img.mode == "RGBA" && GetBBox(img).Some? && padding >= 0
    ensures AutoCrop(img, Some(padding), padding).Ok?
    ensures var out := AutoCrop(img, Some(padding), padding).value;
      var c := PaddedBox(img, GetBBox(img).value, padding);
      && 0 < out.width <= img.width && 0 < out.height <= img.height
      && forall x, y :: Visible(img, x, y) ==> Visible(out, x - c.left, y - c.top)
  {
    var b := GetBBox(img).value;
    var c := PaddedBox(img, b, padding);
    AutoCropIsPaddedCrop(img, padding);
    CropKeepsVisible(img, c);
  }

  /** The crop keeps the full width exactly when the padded box reaches both side edges. */
  lemma AutoCropWidthUnchangedIff(img: Image, padding: int)
    requires WellFormed(img) && img.mode == "RGBA" && GetBBox(img).Some? && padding >= 0
    ensures AutoCrop(img, Some(padding), padding).Ok?
    ensures var b := GetBBox(img).value;
      AutoCrop(img, Some(padding), padding).value.width == img.width
      <==> b.left - padding <= 0 && b.right + padding >= img.width
  {
    AutoCropKeepsContent(img, padding);
  }

  /** With padding 0, a fully transparent first column is cut away. */
  lemma AutoCropDropsTransparentColumn(img: Image)
    requires WellFormed(img) && img.mode == "RGBA" && img.width > 0 && !ColumnVisible(img, 0)
    requires exists x, y :: Visible(img, x, y)
    ensures AutoCrop(img, Some(0), 0).Ok? && AutoCrop(img, Some(0), 0).value.width < img.width
  {
    var b := GetBBox(img).value;
    AutoCropKeepsContent(img, 0);
    assert b.left != 0;
  }

  /** A fully transparent RGBA image passes through the crop unchanged. */
  lemma FullyTransparentIsKept(img: Image, padding: Option<int>, configPadding: int)
    requires WellFormed(img) && img.mode == "RGBA"
    requires forall y, x :: 0 <= y < img.height && 0 <= x < img.width ==> img.alpha[y][x] == 0
    ensures AutoCrop(img, padding, configPadding) == Ok(img)
  {
    assert forall x, y :: !Visible(img, x, y);
  }

  datatype Size = Size(width: int, height: int)

  /** Lines 98-99: the target scaled by fill_ratio, each truncated by int(). */
  function Available(c: ProcessingConfig): Size {
    Size(Trunc(c.targetWidth as real * c.fillRatio), Trunc(c.targetHeight as real * c.fillRatio))
  }

  /** A non-negative side scaled by a ratio in [0, 1] and truncated stays within [0, side]. */
  lemma TruncScaled(w: int, f: real)
    requires w >= 0 && 0.0 <= f <= 1.0
    ensures 0 <= Trunc(w as real * f) <= w
    ensures Trunc(w as real * f) as real <= w as real * f < Trunc(w as real * f) as real + 1.0
  {
    var x := w as real * f;
    assert 0.0 <= x <= w as real * 1.0;
  }

  /** With a fill ratio in [0, 1] the available region is no larger than the target, and
      each side is the scaled target rounded down. */
  lemma AvailableWithinTarget(c: ProcessingConfig)
    requires c.targetWidth >= 0 && c.targetHeight >= 0 && 0.0 <= c.fillRatio <= 1.0
    ensures 0 <= Available(c).width <= c.targetWidth
    ensures 0 <= Available(c).height <= c.targetHeight
    ensures Available(c).width as real <= c.targetWidth as real * c.fillRatio < Available(c).width as real + 1.0
    ensures Available(c).height as real <= c.targetHeight as real * c.fillRatio < Available(c).height as real + 1.0
  {
    TruncScaled(c.targetWidth, c.fillRatio);
    TruncScaled(c.targetHeight, c.fillRatio);
  }

  /** Line 107, `current_aspect > available_width / available_height`, cross-multiplied. */
  predicate WiderThan(content: Size, avail: Size) {
    content.width * avail.height > avail.width * content.height
  }

  lemma FloorDivBounds(a: int, b: int)
    requires a >= 0 && b > 0
    ensures 0 <= a / b
    ensures (a / b) * b <= a < (a / b + 1) * b
  {
  }

  lemma MulLeftMonotone(x: int, y: int, c: int)
    requires c > 0 && x * c < y * c
    ensures x < y
  {
  }

  lemma MulLeftMonotoneLe(x: int, y: int, c: int)
    requires c > 0 && x * c <= y * c
    ensures x <= y
  {
    if x > y {
      MulLeftMonotone(y, x, c);
    }
  }

  /** Scaling `side` by `bound / other` with `0 <= bound < other` cannot grow it. */
  lemma ScaledDown(side: int, bound: int, other: int)
    requires other != 0
    ensures 0 <= bound < other && side >= 0 ==> 0 <= TruncDiv(side * bound, other) <= side
  {
    if 0 <= bound < other && side >= 0 {
      var q := TruncDiv(side * bound, other);
      FloorDivBounds(side * bound, other);
      assert side * bound <= side * other;
      MulLeftMonotone(q, side + 1, other);
    }
  }

  /** Lines 107-114: the content scaled to fill the available region on the constrained axis. */
  function Fit(content: Size, avail: Size): (s: Size)
    requires content.width > 0 && content.height > 0 && avail.width > 0 && avail.height > 0
    ensures WiderThan(content, avail) ==>
      && s.width == avail.width
      && s.height * content.width <= avail.width * content.height < (s.height + 1) * content.width
    ensures !WiderThan(content, avail) ==>
      && s.height == avail.height
      && s.width * content.height <= avail.height * content.width < (s.width + 1) * content.height
    ensures 0 <= s.width <= avail.width && 0 <= s.height <= avail.height
  {
    if WiderThan(content, avail) then
      var h := avail.width * content.height / content.width;
      FloorDivBounds(avail.width * content.height, content.width);
      assert h * content.width < avail.height * content.width;
      MulLeftMonotone(h, avail.height, content.width);
      Size(avail.width, h)
    else
      var w := avail.height * content.width / content.height;
      FloorDivBounds(avail.height * content.width, content.height);
      assert w * content.height <= avail.width * content.height;
      MulLeftMonotoneLe(w, avail.width, content.height);
      Size(w, avail.height)
  }

  /** On an aspect tie the code takes the height-constrained branch, and the content then
      fills the available region exactly on both axes. */
  lemma FitOnTie(content: Size, avail: Size)
    requires content.width > 0 && content.height > 0 && avail.width > 0 && avail.height > 0
    requires content.width * avail.height == avail.width * content.height
    ensures !WiderThan(content, avail)
    ensures Fit(content, avail) == avail
  {
    var w := Fit(content, avail).width;
    assert w * content.height <= avail.width * content.height < (w + 1) * content.height;
    if w < avail.width {
      MulLeftMonotone(w, avail.width, content.height);
      MulLeftMonotone(avail.width, w + 1, content.height);
    } else if w > avail.width {
      MulLeftMonotone(avail.width, w, content.height);
    }
  }

  /** `int(target * 0.95)` with 0.95 read as the exact rational 95/100. */
  function MaxExtent(target: int): (m: int)
    ensures target >= 0 ==> 0 <= m <= target && m * 100 <= target * 95 < (m + 1) * 100
  {
    FloorDivBounds(if target >= 0 then target * 95 else 0, 100);
    TruncDiv(target * 95, 100)
  }

  /** Lines 118-120: both sides scaled by min_dimension / min(side). */
  function Upscale(s: Size, minDimension: int): Size
    requires 0 < Min(s.width, s.height)
  {
    var m := Min(s.width, s.height);
    Size(s.width * minDimension / m, s.height * minDimension / m)
  }

  /** The smaller side becomes exactly min_dimension and no side shrinks. */
  lemma UpscaleReachesMinimum(s: Size, minDimension: int)
    requires 0 < Min(s.width, s.height) < minDimension
    ensures Min(Upscale(s, minDimension).width, Upscale(s, minDimension).height) == minDimension
    ensures Upscale(s, minDimension).width >= s.width && Upscale(s, minDimension).height >= s.height
  {
    var m := Min(s.width, s.height);
    UpscaleSide(s.width, m, minDimension);
    UpscaleSide(s.height, m, minDimension);
  }

  lemma QuotientAtLeast(a: int, b: int, k: int)
    requires a >= 0 && b > 0 && k * b <= a
    ensures k <= a / b
  {
    FloorDivBounds(a, b);
    MulLeftMonotone(k, a / b + 1, b);
  }

  lemma MulLe(a: int, b: int, c: int)
    requires a <= b && c >= 0
    ensures a * c <= b * c && c * a <= c * b
  {
    assert b * c - a * c == (b - a) * c;
  }

  lemma UpscaleSide(side: int, m: int, minDimension: int)
    requires 0 < m <= side && m < minDimension
    ensures side * minDimension / m >= minDimension
    ensures side * minDimension / m >= side
    ensures side == m ==> side * minDimension / m == minDimension
  {
    var p := side * minDimension;
    MulLe(m, side, minDimension);
    QuotientAtLeast(p, m, minDimension);
    MulLe(m, minDimension, side);
    QuotientAtLeast(p, m, side);
    if side == m {
      FloorDivBounds(p, m);
      MulLeftMonotoneLe(p / m, minDimension, m);
    }
  }

  /** Lines 126-129: a side beyond the width bound is set to it and the height follows. */
  function ClampWidth(s: Size, maxWidth: int): Size
    requires s.width > 0
  {
    if s.width > maxWidth then Size(maxWidth, TruncDiv(s.height * maxWidth, s.width))
    else s
  }

  /** The width is left alone within the bound and set to it beyond; the height never grows. */
  lemma ClampWidthBounds(s: Size, maxWidth: int)
    requires s.width > 0
    ensures s.width <= maxWidth ==> ClampWidth(s, maxWidth) == s
    ensures s.width > maxWidth ==> ClampWidth(s, maxWidth).width == maxWidth
    ensures maxWidth >= 0 && s.height >= 0 ==> 0 <= ClampWidth(s, maxWidth).height <= s.height
  {
    ScaledDown(s.height, maxWidth, s.width);
  }

  /** Lines 131-134: likewise for the height; `max_height / new_height` divides by zero
      when the height has fallen to 0. */
  function ClampHeight(s: Size, maxHeight: int): Result<Size, GeometryError> {
    if s.height > maxHeight then
      if s.height == 0 then Err(DivisionByZero)
      else Ok(Size(TruncDiv(s.width * maxHeight, s.height), maxHeight))
    else Ok(s)
  }

  /** ZeroDivisionError exactly when the height is over the bound and 0; otherwise the
      height ends within the bound and the width never grows. */
  lemma ClampHeightBounds(s: Size, maxHeight: int)
    ensures s.height <= maxHeight ==> ClampHeight(s, maxHeight) == Ok(s)
    ensures s.height > maxHeight && s.height == 0 ==> ClampHeight(s, maxHeight) == Err(DivisionByZero)
    ensures s.height > maxHeight && s.height != 0 ==>
      ClampHeight(s, maxHeight).Ok? && ClampHeight(s, maxHeight).value.height == maxHeight
    ensures s.height > maxHeight && maxHeight >= 0 && s.width >= 0 ==>
      ClampHeight(s, maxHeight).Ok? && 0 <= ClampHeight(s, maxHeight).value.width <= s.width
  {
    if s.height > maxHeight && s.height != 0 {
      ScaledDown(s.width, maxHeight, s.height);
    }
  }

  /** Lines 116-134: the minimum-size step, which runs only when the smaller side is below
      min_dimension, then clamps the width and after it the height to 95% of the target. */
  function EnforceMinimum(s: Size, minDimension: int, targetWidth: int, targetHeight: int): (r: Result<Size, GeometryError>)
    requires s.width >= 0 && s.height >= 0
    ensures Min(s.width, s.height) >= minDimension ==> r == Ok(s)
    ensures Min(s.width, s.height) < minDimension && Min(s.width, s.height) == 0 ==> r == Err(DivisionByZero)
  {
    var m := Min(s.width, s.height);
    if m >= minDimension then Ok(s)
    else if m == 0 then Err(DivisionByZero)
    else
      var up := Upscale(s, minDimension);
      UpscaleReachesMinimum(s, minDimension);
      var w := ClampWidth(up, MaxExtent(targetWidth));
      ClampHeight(w, MaxExtent(targetHeight))
  }

  /** A run of the minimum-size step on non-negative targets always succeeds and ends
      within 95% of the target on both sides. */
  lemma EnforceMinimumSucceeds(s: Size, minDimension: int, targetWidth: int, targetHeight: int)
    requires 0 < Min(s.width, s.height) < minDimension && targetWidth >= 0 && targetHeight >= 0
    ensures var r := EnforceMinimum(s, minDimension, targetWidth, targetHeight);
      r.Ok? && 0 <= r.value.width <= MaxExtent(targetWidth) && 0 <= r.value.height <= MaxExtent(targetHeight)
  {
    var up := Upscale(s, minDimension);
    UpscaleReachesMinimum(s, minDimension);
    var w := ClampWidth(up, MaxExtent(targetWidth));
    ClampWidthBounds(up, MaxExtent(targetWidth));
    ClampHeightBounds(w, MaxExtent(targetHeight));
  }

  /** The content's size on the canvas: crop, validate, fit and enforce the minimum. */
  function ContentSize(img: Image, c: ProcessingConfig): (r: Result<Size, GeometryError>)
    requires WellFormed(img)
    ensures c.autoCrop && AutoCrop(img, None, c.cropPadding).Err? ==> r == Err(InvertedCrop)
    ensures var cropped := if c.autoCrop then AutoCrop(img, None, c.cropPadding) else Ok(img);
      cropped.Ok? && (cropped.value.width <= 0 || cropped.value.height <= 0) ==>
        r == Err(InvalidCropDimensions(cropped.value.width, cropped.value.height))
    ensures var cropped := if c.autoCrop then AutoCrop(img, None, c.cropPadding) else Ok(img);
      cropped.Ok? && cropped.value.width > 0 && cropped.value.height > 0 ==>
        if Available(c).width <= 0 || Available(c).height <= 0 then
          r == Err(InvalidAvailable(Available(c).width, Available(c).height))
        else
          r == EnforceMinimum(Fit(Size(cropped.value.width, cropped.value.height), Available(c)),
                              c.minDimension, c.targetWidth, c.targetHeight)
  {
    var cropped :- if c.autoCrop then AutoCrop(img, None, c.cropPadding) else Ok(img);
    if cropped.width <= 0 || cropped.height <= 0 then
      Err(InvalidCropDimensions(cropped.width, cropped.height))
    else
      var avail := Available(c);
      if avail.width <= 0 || avail.height <= 0 then
        Err(InvalidAvailable(avail.width, avail.height))
      else
        EnforceMinimum(Fit(Size(cropped.width, cropped.height), avail), c.minDimension, c.targetWidth, c.targetHeight)
  }

  /** The canvas of lines 142-148: transparent RGBA of the target size, with the resized
      content pasted at its centre. */
  datatype Canvas = Canvas(width: int, height: int, mode: string, content: Size, pasteX: int, pasteY: int)

  /** `(target - side) // 2`: the paste offset on one axis. */
  function Centre(target: int, side: int): (offset: int)
    ensures 0 <= side <= target ==> 0 <= offset && offset + side <= target
    ensures offset <= target - side - offset <= offset + 1
  {
    (target - side) / 2
  }

  /** The modes Pillow's `paste` accepts as a mask (line 148 passes the content as its own mask). */
  predicate MaskMode(mode: string) {
    mode == "1" || mode == "L" || mode == "LA" || mode == "RGBA" || mode == "RGBa"
  }

  /** `resize_to_target`: the canvas, or why it could not be made. */
  function ResizeToTarget(img: Image, c: ProcessingConfig): (r: Result<Canvas, GeometryError>)
    requires WellFormed(img)
    ensures ContentSize(img, c).Err? ==> r == Err(ContentSize(img, c).error)
    ensures r.Ok? ==> ContentSize(img, c) == Ok(r.value.content)
    ensures r.Ok? ==> r.value.width == c.targetWidth && r.value.height == c.targetHeight && r.value.mode == "RGBA"
    ensures r.Ok? ==> r.value.content.width >= 1 && r.value.content.height >= 1 && MaskMode(img.mode)
    ensures r.Ok? ==> (r.value.pasteX == Centre(c.targetWidth, r.value.content.width)
                       && r.value.pasteY == Centre(c.targetHeight, r.value.content.height))
    ensures ContentSize(img, c).Ok? && r.Err? ==>
      var s := ContentSize(img, c).value;
      if s.width < 1 || s.height < 1 then r == Err(InvalidResize(s.width, s.height))
      else if c.targetWidth < 0 || c.targetHeight < 0 then r == Err(InvalidCanvas)
      else r == Err(BadTransparencyMask) && !MaskMode(img.mode)
  {
    var s :- ContentSize(img, c);
    if s.width < 1 || s.height < 1 then Err(InvalidResize(s.width, s.height))
    else if c.targetWidth < 0 || c.targetHeight < 0 then Err(InvalidCanvas)
    else if !MaskMode(img.mode) then Err(BadTransparencyMask)
    else Ok(Canvas(c.targetWidth, c.targetHeight, "RGBA", s,
                   Centre(c.targetWidth, s.width), Centre(c.targetHeight, s.height)))
  }

  /** Content whose mode cannot serve as a paste mask (an RGB image, for one) is refused at
      line 148 even when it sizes well. */
  lemma NonMaskContentIsRefused(img: Image, c: ProcessingConfig)
    requires WellFormed(img) && !MaskMode(img.mode) && c.targetWidth >= 0 && c.targetHeight >= 0
    requires ContentSize(img, c).Ok? && ContentSize(img, c).value.width >= 1 && ContentSize(img, c).value.height >= 1
    ensures ResizeToTarget(img, c) == Err(BadTransparencyMask)
    ensures AsException(ResizeToTarget(img, c).error) == PyException(ValueError, "bad transparency mask")
  {
  }

  /** With a fill ratio in (0, 1] and positive targets, the pasted content lies inside the canvas. */
  lemma ContentInsideCanvas(img: Image, c: ProcessingConfig)
    requires WellFormed(img) && c.targetWidth > 0 && c.targetHeight > 0 && 0.0 < c.fillRatio <= 1.0
    requires ResizeToTarget(img, c).Ok?
    ensures var canvas := ResizeToTarget(img, c).value;
      && 0 <= canvas.pasteX && canvas.pasteX + canvas.content.width <= canvas.width
      && 0 <= canvas.pasteY && canvas.pasteY + canvas.content.height <= canvas.height
  {
    AvailableWithinTarget(c);
    var cropped := if c.autoCrop then AutoCrop(img, None, c.cropPadding) else Ok(img);
    var fit := Fit(Size(cropped.value.width, cropped.value.height), Available(c));
    assert fit.width <= c.targetWidth && fit.height <= c.targetHeight;
    if Min(fit.width, fit.height) < c.minDimension {
      EnforceMinimumSucceeds(fit, c.minDimension, c.targetWidth, c.targetHeight);
    }
  }

  /** The worked example: a 2000 x 1000 image on the default 1000 x 1000 canvas at fill
      0.80 is fitted to 800 x 400, raised to 1000 x 500, clamped to 950 x 475 and pasted at (25, 262). */
  lemma WorkedExample(img: Image)
    requires WellFormed(img) && img.width == 2000 && img.height == 1000 && img.mode == "RGBA"
    ensures var c := DefaultConfig().(autoCrop := false);
      && Available(c) == Size(800, 800)
      && Fit(Size(2000, 1000), Size(800, 800)) == Size(800, 400)
      && Upscale(Size(800, 400), 500) == Size(1000, 500)
      && ResizeToTarget(img, c) == Ok(Canvas(1000, 1000, "RGBA", Size(950, 475), 25, 262))
  {
    var c := DefaultConfig().(autoCrop := false);
    assert 1000.0 * 0.80 == 800.0;
    assert Available(c) == Size(800, 800);
  }

  /** Content that truncates to zero width divides by zero at line 118: a 1 x 2000 image
      on a 1000 x 1000 canvas at fill 0.80 with min_dimension 500, without cropping. */
  lemma ThinContentDividesByZero(img: Image, c: ProcessingConfig)
    requires WellFormed(img) && img.width == 1 && img.height == 2000
    requires !c.autoCrop && c.targetWidth == 1000 && c.targetHeight == 1000
    requires c.fillRatio == 0.80 && c.minDimension == 500
    ensures ResizeToTarget(img, c) == Err(DivisionByZero)
  {
    assert 1000.0 * 0.80 == 800.0;
    assert Available(c) == Size(800, 800);
    assert Fit(Size(1, 2000), Size(800, 800)) == Size(0, 800);
  }
}
