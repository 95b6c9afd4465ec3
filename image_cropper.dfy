/** The crop step of the image cropper: a crop selection made on the
    displayed image is mapped to the decoded bitmap's pixels, drawn onto a
    canvas of the floored size and encoded as PNG.

    Numbers are exact reals: IEEE-754 rounding of the scale division is not
    modelled. Decoding, the 2D context and `toBlob` are browser services; their
    outcomes are parameters. */
module ImageCropper {
  import opened Wrappers

  /** A rectangle: a crop selection in display pixels, or its image in
      bitmap pixels. */
  datatype Rect = Rect(x: real, y: real, width: real, height: real)

  /** The rectangle scaled from a `fromW` x `fromH` image to a `toW` x `toH`
      one: every horizontal quantity by `toW / fromW`, every vertical one by
      `toH / fromH`. Offsets are not rounded. */
  function MapRect(r: Rect, fromW: real, fromH: real, toW: real, toH: real): (m: Rect)
    requires fromW > 0.0 && fromH > 0.0
    ensures m.x * fromW == r.x * toW && m.width * fromW == r.width * toW
    ensures m.y * fromH == r.y * toH && m.height * fromH == r.height * toH
  {
    var scaleX := toW / fromW;
    var scaleY := toH / fromH;
    Rect(r.x * scaleX, r.y * scaleY, r.width * scaleX, r.height * scaleY)
  }

  /** The crop in bitmap pixels: display pixels scaled by the bitmap's size
      over the displayed element's size, independently per axis. */
  function CropToBitmap(crop: Rect, displayW: nat, displayH: nat, bitmapW: nat, bitmapH: nat): (m: Rect)
    requires displayW > 0 && displayH > 0
    ensures m.x * displayW as real == crop.x * bitmapW as real
    ensures m.width * displayW as real == crop.width * bitmapW as real
    ensures m.y * displayH as real == crop.y * bitmapH as real
    ensures m.height * displayH as real == crop.height * bitmapH as real
    ensures crop.width == displayW as real ==> m.width == bitmapW as real
    ensures crop.height == displayH as real ==> m.height == bitmapH as real
  {
    MapRect(crop, displayW as real, displayH as real, bitmapW as real, bitmapH as real)
  }

  /** The canvas size: the mapped width and height, each floored to whole
      pixels. */
  function CanvasSize(m: Rect): (size: (int, int))
    ensures size.0 as real <= m.width < size.0 as real + 1.0
    ensures size.1 as real <= m.height < size.1 as real + 1.0
  {
    (m.width.Floor, m.height.Floor)
  }

  /** A crop inside the displayed image, with non-negative offsets and
      sizes. */
  predicate WithinDisplay(crop: Rect, displayW: nat, displayH: nat)
  {
    && 0.0 <= crop.x && 0.0 <= crop.y && 0.0 <= crop.width && 0.0 <= crop.height
    && crop.x + crop.width <= displayW as real && crop.y + crop.height <= displayH as real
  }

  lemma ScaledBelow(a: real, b: real, num: real, den: real)
    requires 0.0 <= a <= b && 0.0 <= num && den > 0.0
    ensures 0.0 <= a * (num / den) <= b * (num / den)
  {
  }

  /** A crop inside the display maps inside the bitmap, so the canvas is
      never larger than the bitmap. */
  lemma CropStaysInsideBitmap(crop: Rect, displayW: nat, displayH: nat, bitmapW: nat, bitmapH: nat)
    requires displayW > 0 && displayH > 0
    requires WithinDisplay(crop, displayW, displayH)
    ensures var m := CropToBitmap(crop, displayW, displayH, bitmapW, bitmapH);
      && 0.0 <= m.x && 0.0 <= m.width && m.x + m.width <= bitmapW as real
      && 0.0 <= m.y && 0.0 <= m.height && m.y + m.height <= bitmapH as real
      && 0 <= CanvasSize(m).0 <= bitmapW && 0 <= CanvasSize(m).1 <= bitmapH
  {
    var m := CropToBitmap(crop, displayW, displayH, bitmapW, bitmapH);
    var dw, dh, bw, bh := displayW as real, displayH as real, bitmapW as real, bitmapH as real;
    ScaledBelow(crop.x, crop.x + crop.width, bw, dw);
    ScaledBelow(crop.width, crop.x + crop.width, bw, dw);
    ScaledBelow(crop.x + crop.width, dw, bw, dw);
    ScaledBelow(crop.y, crop.y + crop.height, bh, dh);
    ScaledBelow(crop.height, crop.y + crop.height, bh, dh);
    ScaledBelow(crop.y + crop.height, dh, bh, dh);
    assert dw * (bw / dw) == bw;
    assert dh * (bh / dh) == bh;
    assert m.x + m.width == (crop.x + crop.width) * (bw / dw);
    assert m.y + m.height == (crop.y + crop.height) * (bh / dh);
  }

  /** Mapping back with the inverse scales gives the crop again: the two
      axes are scaled independently and nothing is rounded. */
  lemma MapRectRoundTrip(r: Rect, fromW: real, fromH: real, toW: real, toH: real)
    requires fromW > 0.0 && fromH > 0.0 && toW > 0.0 && toH > 0.0
    ensures MapRect(MapRect(r, fromW, fromH, toW, toH), toW, toH, fromW, fromH) == r
  {
    var m := MapRect(r, fromW, fromH, toW, toH);
    var back := MapRect(m, toW, toH, fromW, fromH);
    assert back.x * toW * fromW == r.x * toW * fromW;
    assert back.width * toW * fromW == r.width * toW * fromW;
    assert back.y * toH * fromH == r.y * toH * fromH;
    assert back.height * toH * fromH == r.height * toH * fromH;
  }

  /** `onImageLoad`: the first crop is the whole displayed image. */
  function InitialCrop(displayW: nat, displayH: nat): (crop: Rect)
    ensures WithinDisplay(crop, displayW, displayH)
    ensures crop.x == 0.0 && crop.y == 0.0
    ensures crop.width == displayW as real && crop.height == displayH as real
  {
    Rect(0.0, 0.0, displayW as real, displayH as real)
  }

  /** The first crop maps to the whole bitmap, and the canvas has the
      bitmap's size. */
  lemma InitialCropCoversBitmap(displayW: nat, displayH: nat, bitmapW: nat, bitmapH: nat)
    requires displayW > 0 && displayH > 0
    ensures CropToBitmap(InitialCrop(displayW, displayH), displayW, displayH, bitmapW, bitmapH)
         == Rect(0.0, 0.0, bitmapW as real, bitmapH as real)
    ensures CanvasSize(CropToBitmap(InitialCrop(displayW, displayH), displayW, displayH, bitmapW, bitmapH))
         == (bitmapW, bitmapH)
  {
    var dw, dh, bw, bh := displayW as real, displayH as real, bitmapW as real, bitmapH as real;
    assert dw * (bw / dw) == bw;
    assert dh * (bh / dh) == bh;
  }

  /** A 1000 x 800 selection at (200, 150) on an 800 x 600 rendering of a
      4000 x 3000 bitmap covers (1000, 750, 5000, 4000) of the bitmap, and the
      canvas is 5000 x 4000. */
  lemma WorkedExample()
    ensures CropToBitmap(Rect(200.0, 150.0, 1000.0, 800.0), 800, 600, 4000, 3000)
         == Rect(1000.0, 750.0, 5000.0, 4000.0)
    ensures CanvasSize(Rect(1000.0, 750.0, 5000.0, 4000.0)) == (5000, 4000)
  {
  }

  // ---------------------------------------------------------------------
  // getCroppedImg and handleConfirmCrop
  // ---------------------------------------------------------------------

  /** A decoded bitmap (`createImageBitmap` with the EXIF orientation
      applied): its size, and whether `close()` has released it. */
  class Bitmap {
    const width: nat
    const height: nat
    var closed: bool

    constructor (w: nat, h: nat)
      ensures width == w && height == h && !closed
    {
      width, height := w, h;
      closed := false;
    }
  }

  /** The encoded crop: its media type, the canvas size and the bitmap
      region drawn onto it. */
  datatype CroppedImage = CroppedImage(mimeType: string, width: int, height: int, region: Rect)

  const NoContextMessage: string := "Failed to get canvas context"
  const EmptyCanvasMessage: string := "Canvas is empty"

  /** `getCroppedImg`. `decoded` is what `createImageBitmap` gave;
      `contextAvailable` whether `getContext('2d')` returned a context;
      `blobProduced` whether `toBlob` handed back a blob. The bitmap is
      closed after drawing, and only then: the missing-context failure
      returns before the `close()` call. */
  method GetCroppedImg(decoded: Result<Bitmap, Thrown>, displayW: nat, displayH: nat, crop: Rect,
                       contextAvailable: bool, blobProduced: bool)
    returns (r: Result<CroppedImage, Thrown>)
    requires displayW > 0 && displayH > 0
    modifies if decoded.Ok? then {decoded.value} else {}
    ensures decoded.Err? ==> r == Err(decoded.error)
    ensures decoded.Ok? ==> decoded.value.closed == (old(decoded.value.closed) || contextAvailable)
    ensures decoded.Ok? && !contextAvailable ==> r == Err(Error(NoContextMessage))
    ensures decoded.Ok? && contextAvailable && !blobProduced ==> r == Err(Error(EmptyCanvasMessage))
    ensures decoded.Ok? && contextAvailable && blobProduced ==>
      var m := CropToBitmap(crop, displayW, displayH, decoded.value.width, decoded.value.height);
      r == Ok(CroppedImage("image/png", CanvasSize(m).0, CanvasSize(m).1, m))
  {
    if decoded.Err? {
      return Err(decoded.error);
    }
    var bitmap := decoded.value;
    var region := CropToBitmap(crop, displayW, displayH, bitmap.width, bitmap.height);
    var canvasWidth := region.width.Floor;
    var canvasHeight := region.height.Floor;
    if !contextAvailable {
      return Err(Error(NoContextMessage));
    }
    bitmap.closed := true;
    if !blobProduced {
      return Err(Error(EmptyCanvasMessage));
    }
    r := Ok(CroppedImage("image/png", canvasWidth, canvasHeight, region));
  }

  /** The confirm button is enabled only for a crop with a non-zero width
      and height (`disabled={!crop?.width || !crop?.height}`). */
  predicate ConfirmEnabled(crop: Option<Rect>)
    ensures ConfirmEnabled(crop) <==> crop.Some? && crop.value.width * crop.value.height != 0.0
  {
    crop.Some? && crop.value.width != 0.0 && crop.value.height != 0.0
  }

  /** `handleConfirmCrop`: nothing happens unless the image element is
      mounted and the crop has a non-zero width and height; otherwise the
      crop is made and `onCropComplete` receives it (the result), or the
      failure is only logged and nothing is delivered. */
  method HandleConfirmCrop(imageMounted: bool, crop: Option<Rect>, decoded: Result<Bitmap, Thrown>,
                           displayW: nat, displayH: nat, contextAvailable: bool, blobProduced: bool)
    returns (delivered: Option<CroppedImage>)
    requires displayW > 0 && displayH > 0
    modifies if decoded.Ok? then {decoded.value} else {}
    ensures !(imageMounted && ConfirmEnabled(crop)) ==> delivered.None?
    ensures !(imageMounted && ConfirmEnabled(crop)) && decoded.Ok? ==> decoded.value.closed == old(decoded.value.closed)
    ensures imageMounted && ConfirmEnabled(crop) && decoded.Ok? ==>
      decoded.value.closed == (old(decoded.value.closed) || contextAvailable)
    ensures delivered.Some? <==> imageMounted && ConfirmEnabled(crop) && decoded.Ok? && contextAvailable && blobProduced
    ensures delivered.Some? ==>
      var m := CropToBitmap(crop.value, displayW, displayH, decoded.value.width, decoded.value.height);
      delivered.value == CroppedImage("image/png", CanvasSize(m).0, CanvasSize(m).1, m)
  {
    delivered := None;
    if imageMounted && crop.Some? && crop.value.width != 0.0 && crop.value.height != 0.0 {
      var r := GetCroppedImg(decoded, displayW, displayH, crop.value, contextAvailable, blobProduced);
      if r.Ok? {
        delivered := Some(r.value);
      }
    }
  }
}
