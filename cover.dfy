/**
 * The cover image pipeline of `embed_metadata`: the downloaded thumbnail is
 * converted to RGB when it has an alpha channel or a palette, cropped to a
 * centred square when it is not square, shrunk to 600x600 when wider than
 * that, and encoded as JPEG. Pixels are not modelled, only the mode and the
 * geometry.
 */
module Cover {
  import opened Wrappers

  type Positive = n: nat | n > 0 witness 1

  /** A decoded image: its pixel mode and its size, which is never empty. */
  datatype Image = Image(mode: string, width: Positive, height: Positive)

  /** `(left, top, right, bottom)`, as a crop box is given. */
  datatype Box = Box(left: nat, top: nat, right: nat, bottom: nat)

  const MaxSide: Positive := 600

  /** The modes converted to RGB before anything else. */
  const ConvertedModes: set<string> := {"RGBA", "P", "LA"}

  /** The modes the JPEG encoder accepts; any other mode makes saving fail. */
  const JpegModes: set<string> := {"1", "L", "RGB", "RGBX", "CMYK", "YCbCr"}

  function Min(a: nat, b: nat): nat { if a <= b then a else b }

  function ToRgb(img: Image): Image
  {
    if img.mode in ConvertedModes then img.(mode := "RGB") else img
  }

  /** The centred square of side `min(w, h)`, offsets rounded down. */
  function CenterSquare(w: Positive, h: Positive): Box
  {
    var size := Min(w, h);
    var left := (w - size) / 2;
    var top := (h - size) / 2;
    Box(left, top, left + size, top + size)
  }

  /** The size of the image the crop gives: the box's extent. */
  function Crop(img: Image, box: Box): Image
    requires box.left < box.right && box.top < box.bottom
  {
    Image(img.mode, box.right - box.left, box.bottom - box.top)
  }

  /** The geometry steps: crop to a centred square unless already square, then shrink if too wide. */
  function Reshape(img: Image): Image
  {
    var sq := if img.width != img.height then Crop(img, CenterSquare(img.width, img.height)) else img;
    if sq.width > MaxSide then Image(sq.mode, MaxSide, MaxSide) else sq
  }

  /** The JPEG encoding of an image, or the encoder's error. Pixels are abstracted: the result is the image encoded. */
  function EncodeJpeg(img: Image): Result<Image>
  {
    if img.mode in JpegModes then Ok(img)
    else Err("cannot write mode " + img.mode + " as JPEG")
  }

  /**
   * The cover stored in the file, or why there is none: `fetched` is what
   * downloading and decoding the thumbnail gave.
   */
  function CoverArt(fetched: Result<Image>): Result<Image>
  {
    match fetched
    case Err(e) => Err(e)
    case Ok(img) => EncodeJpeg(Reshape(ToRgb(img)))
  }

  /**
   * The crop box lies inside the image, is a square of side `min(w, h)`,
   * spans the shorter dimension entirely and is centred along the longer
   * one, the extra pixel of an odd margin going to the right or the bottom.
   */
  lemma CenterSquareInside(w: Positive, h: Positive)
    ensures var b := CenterSquare(w, h);
      && b.right <= w && b.bottom <= h
      && b.right - b.left == b.bottom - b.top == Min(w, h)
      && (w <= h ==> b.left == 0 && b.right == w)
      && (h <= w ==> b.top == 0 && b.bottom == h)
      && 0 <= (w - b.right) - b.left <= 1
      && 0 <= (h - b.bottom) - b.top <= 1
  {
  }

  /** The result is square, of side `min(w, h, 600)`: never larger than the original in either direction. */
  lemma ReshapeSide(img: Image)
    ensures var r := Reshape(img);
      && r.width == r.height == Min(Min(img.width, img.height), MaxSide)
      && r.width <= img.width && r.height <= img.height
      && r.mode == img.mode
  {
    CenterSquareInside(img.width, img.height);
  }

  /** Only the three alpha or palette modes change, and they all become RGB. */
  lemma ToRgbModes(img: Image)
    ensures ToRgb(img).mode == (if img.mode in ConvertedModes then "RGB" else img.mode)
    ensures ToRgb(img).mode in JpegModes <==> img.mode in ConvertedModes || img.mode in JpegModes
    ensures ToRgb(img).width == img.width && ToRgb(img).height == img.height
  {
  }

  /**
   * A cover is produced exactly when the thumbnail was fetched and decoded
   * and its mode, after conversion, can be written as JPEG; it is then the
   * reshaped image, in RGB for the converted modes.
   */
  lemma CoverArtMeaning(fetched: Result<Image>)
    ensures CoverArt(fetched).Ok? <==>
      fetched.Ok? && (fetched.value.mode in ConvertedModes || fetched.value.mode in JpegModes)
    ensures CoverArt(fetched).Ok? ==>
      var c := CoverArt(fetched).value;
      && c.width == c.height == Min(Min(fetched.value.width, fetched.value.height), MaxSide)
      && c.mode == ToRgb(fetched.value).mode
  {
    if fetched.Ok? {
      ToRgbModes(fetched.value);
      ReshapeSide(ToRgb(fetched.value));
    }
  }
}
