/**
 * The image buffer shared by every transform: a rectangular three-dimensional
 * array of unsigned 8-bit samples of shape (height, width, channels), indexed
 * [row][column][channel], as a numpy `uint8` array of rank 3 is.
 */
module Images {

  /** An unsigned 8-bit sample (numpy `uint8`). */
  type u8 = x: int | 0 <= x < 256

  /**
   * An image buffer. The shape is carried explicitly, so that a buffer with
   * no rows still has a width and a channel count, as an ndarray does.
   */
  datatype Image = Image(height: nat, width: nat, channels: nat, px: seq<seq<seq<u8>>>)
  {
    /** The nested sequences are rectangular and agree with the shape. */
    predicate Valid() {
      && |px| == height
      && (forall i | 0 <= i < height :: |px[i]| == width)
      && (forall i, j | 0 <= i < height && 0 <= j < width :: |px[i][j]| == channels)
    }

    predicate InBounds(i: int, j: int, k: int) {
      0 <= i < height && 0 <= j < width && 0 <= k < channels
    }

    /** The sample `image[i, j, k]`. */
    function At(i: int, j: int, k: int): u8
      requires Valid() && InBounds(i, j, k)
    {
      px[i][j][k]
    }

    predicate SameShape(other: Image) {
      height == other.height && width == other.width && channels == other.channels
    }
  }

  /** The extent of `img` along `axis` (0 = rows, 1 = columns, 2 = channels). */
  function Dim(img: Image, axis: nat): nat {
    if axis == 0 then img.height else if axis == 1 then img.width else img.channels
  }

  /**
   * Two valid buffers of the same shape that agree on every sample are the
   * same buffer.
   */
  lemma Extensionality(a: Image, b: Image)
    requires a.Valid() && b.Valid() && a.SameShape(b)
    requires forall i, j, k | a.InBounds(i, j, k) :: a.At(i, j, k) == b.At(i, j, k)
    ensures a == b
  {
    forall i | 0 <= i < a.height
      ensures a.px[i] == b.px[i]
    {
      forall j | 0 <= j < a.width
        ensures a.px[i][j] == b.px[i][j]
      {
        assert forall k | 0 <= k < a.channels :: a.px[i][j][k] == a.At(i, j, k);
      }
    }
  }

  /** The current contents of a mutable buffer, as a value. */
  function Snapshot(a: array3<u8>): (img: Image)
    reads a
    ensures img.Valid()
    ensures img.height == a.Length0 && img.width == a.Length1 && img.channels == a.Length2
    ensures forall i, j, k | img.InBounds(i, j, k) :: img.At(i, j, k) == a[i, j, k]
  {
    Image(a.Length0, a.Length1, a.Length2,
      seq(a.Length0, i reads a requires 0 <= i < a.Length0 =>
        seq(a.Length1, j reads a requires 0 <= j < a.Length1 =>
          seq(a.Length2, k reads a requires 0 <= k < a.Length2 => a[i, j, k]))))
  }
}
