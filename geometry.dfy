/**
 * Geometric transforms: horizontal flip, 90-degree counterclockwise rotation
 * and trailing zero padding. None of them writes to its argument. Padding
 * allocates a new buffer; the flip and the rotation are numpy views that
 * share memory with their argument, and are modelled here as values.
 */
module Geometry {
  import opened Images

  /** The order of a sequence reversed (the slice `s[::-1]`). */
  function Reverse<T>(s: seq<T>): (r: seq<T>)
    ensures |r| == |s|
  {
    seq(|s|, j requires 0 <= j < |s| => s[|s| - 1 - j])
  }

  /** `image[:, ::-1]`: every row has its column order reversed. */
  function Flip(img: Image): (r: Image)
    requires img.Valid()
    ensures r.Valid() && r.SameShape(img)
  {
    Image(img.height, img.width, img.channels,
      seq(img.height, i requires 0 <= i < img.height => Reverse(img.px[i])))
  }

  /** Swap of the two spatial axes, channels kept (`transpose` with axes (1, 0, 2)). */
  function Transpose(img: Image): (r: Image)
    requires img.Valid()
    ensures r.Valid()
    ensures r.height == img.width && r.width == img.height && r.channels == img.channels
  {
    Image(img.width, img.height, img.channels,
      seq(img.width, i requires 0 <= i < img.width =>
        seq(img.height, j requires 0 <= j < img.height => img.px[j][i])))
  }

  /**
   * `np.rot90(image)`: numpy computes a single counterclockwise quarter turn
   * in the plane of axes 0 and 1 as the transpose of the image flipped along
   * axis 1, which is how it is defined here.
   */
  function Rotate(img: Image): (r: Image)
    requires img.Valid()
    ensures r.Valid()
    ensures r.height == img.width && r.width == img.height && r.channels == img.channels
  {
    Transpose(Flip(img))
  }

  /** Flipping reverses the column index and keeps the rest. */
  lemma FlipAt(img: Image, i: nat, j: nat, k: nat)
    requires img.Valid() && img.InBounds(i, j, k)
    ensures Flip(img).At(i, j, k) == img.At(i, img.width - 1 - j, k)
  {
  }

  /** Flipping twice gives back the original buffer. */
  lemma FlipTwice(img: Image)
    requires img.Valid()
    ensures Flip(Flip(img)) == img
  {
    var r := Flip(Flip(img));
    forall i, j, k | r.InBounds(i, j, k)
      ensures r.At(i, j, k) == img.At(i, j, k)
    {
      FlipAt(Flip(img), i, j, k);
      FlipAt(img, i, img.width - 1 - j, k);
    }
    Extensionality(r, img);
  }

  /**
   * Row i of the rotated buffer is column W-1-i of the original, read top to
   * bottom: `out[i][j][k] == in[j][W-1-i][k]`.
   */
  lemma RotateAt(img: Image, i: nat, j: nat, k: nat)
    requires img.Valid() && Rotate(img).InBounds(i, j, k)
    ensures Rotate(img).At(i, j, k) == img.At(j, img.width - 1 - i, k)
  {
  }

  /** Two quarter turns are a half turn: both spatial indices are mirrored. */
  lemma RotateTwiceAt(img: Image, i: nat, j: nat, k: nat)
    requires img.Valid() && img.InBounds(i, j, k)
    ensures Rotate(Rotate(img)).At(i, j, k) == img.At(img.height - 1 - i, img.width - 1 - j, k)
  {
  }

  /** Four quarter turns give back the original buffer. */
  lemma RotateFourTimes(img: Image)
    requires img.Valid()
    ensures Rotate(Rotate(Rotate(Rotate(img)))) == img
  {
    var half := Rotate(Rotate(img));
    var r := Rotate(Rotate(half));
    forall i, j, k | r.InBounds(i, j, k)
      ensures r.At(i, j, k) == img.At(i, j, k)
    {
      RotateTwiceAt(half, i, j, k);
      RotateTwiceAt(img, img.height - 1 - i, img.width - 1 - j, k);
    }
    Extensionality(r, img);
  }

  function Max(a: int, b: int): int {
    if a < b then b else a
  }

  /**
   * The padding added along one axis, `max(target - current, 0)`: never
   * negative, and it brings the axis exactly to the target unless the axis is
   * already at least that long.
   */
  function PadAmount(target: int, current: nat): (p: nat)
    ensures current + p >= target
    ensures p == 0 || current + p == target
  {
    if target > current then target - current else 0
  }

  /**
   * `np.pad(image, [(0, pad_y), (0, pad_x), (0, 0)], mode='constant')`:
   * `pad_x` zero pixels appended to every row, then `pad_y` zero rows
   * appended below; the channel axis is never padded.
   */
  function Pad(img: Image, targetHeight: int, targetWidth: int): (r: Image)
    requires img.Valid()
    ensures r.Valid() && r.channels == img.channels
    ensures r.height == Max(img.height, targetHeight) && r.width == Max(img.width, targetWidth)
  {
    var padY := PadAmount(targetHeight, img.height);
    var padX := PadAmount(targetWidth, img.width);
    var zeroPixel := seq(img.channels, _ => 0 as u8);
    Image(img.height + padY, img.width + padX, img.channels,
      seq(img.height + padY, i requires 0 <= i < img.height + padY =>
        if i < img.height then img.px[i] + seq(padX, _ => zeroPixel)
        else seq(img.width + padX, _ => zeroPixel)))
  }

  /**
   * After padding, the top-left H by W region is the input and every added
   * row or column is zero.
   */
  lemma PadAt(img: Image, targetHeight: int, targetWidth: int, i: nat, j: nat, k: nat)
    requires img.Valid() && Pad(img, targetHeight, targetWidth).InBounds(i, j, k)
    ensures i < img.height && j < img.width ==>
              Pad(img, targetHeight, targetWidth).At(i, j, k) == img.At(i, j, k)
    ensures i >= img.height || j >= img.width ==>
              Pad(img, targetHeight, targetWidth).At(i, j, k) == 0
  {
  }

  /** Padding to targets no larger than the current size changes nothing. */
  lemma PadIdentity(img: Image, targetHeight: int, targetWidth: int)
    requires img.Valid() && targetHeight <= img.height && targetWidth <= img.width
    ensures Pad(img, targetHeight, targetWidth) == img
  {
    var r := Pad(img, targetHeight, targetWidth);
    forall i, j, k | r.InBounds(i, j, k)
      ensures r.At(i, j, k) == img.At(i, j, k)
    {
      PadAt(img, targetHeight, targetWidth, i, j, k);
    }
    Extensionality(r, img);
  }
}
