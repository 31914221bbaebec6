/**
 * Compositing transforms: tiling a buffer on a grid and concatenating an
 * ordered list of buffers along one axis.
 */
module Compositing {
  import opened Images

  /** Euclidean division is unique: a quotient and remainder in range are the ones `/` and `%` give. */
  lemma DivModUnique(x: int, m: int, q: int, r: int)
    requires 0 < m && 0 <= r < m && x == q * m + r
    ensures x % m == r && x / m == q
  {
    var q0, r0 := x / m, x % m;
    assert x == q0 * m + r0;
    var d := q - q0;
    assert d * m == r0 - r;
  }

  lemma ModSub(j: int, m: int)
    requires 0 < m <= j
    ensures (j - m) % m == j % m
  {
    assert j == (j / m) * m + j % m;
    assert j - m == (j / m - 1) * m + j % m;
    DivModUnique(j - m, m, j / m - 1, j % m);
  }

  lemma MulStep(n: nat, m: nat)
    requires n > 0
    ensures n * m == m + (n - 1) * m
  {
  }

  /** `n` copies of `s` one after another. */
  function RepeatSeq<T>(s: seq<T>, n: nat): (r: seq<T>)
    ensures |r| == n * |s|
    ensures s == [] ==> r == []
    ensures forall j | 0 <= j < |r| :: r[j] == s[j % |s|]
    decreases n
  {
    if n == 0 || s == [] then []
    else
      var rest := RepeatSeq(s, n - 1);
      var r := s + rest;
      MulStep(n, |s|);
      forall j | 0 <= j < |r|
        ensures r[j] == s[j % |s|]
      {
        if j < |s| {
          DivModUnique(j, |s|, 0, j);
        } else {
          assert r[j] == rest[j - |s|];
          ModSub(j, |s|);
        }
      }
      r
  }

  /**
   * `np.tile(image, (num_rows, num_cols, 1))`: every row repeated `numCols`
   * times along the columns, then the whole block repeated `numRows` times
   * along the rows. numpy refuses negative repetition counts.
   */
  function Tile(img: Image, numRows: nat, numCols: nat): (r: Image)
    requires img.Valid()
    ensures r.Valid()
    ensures r.height == numRows * img.height && r.width == numCols * img.width
    ensures r.channels == img.channels
  {
    var wide := seq(img.height, i requires 0 <= i < img.height => RepeatSeq(img.px[i], numCols));
    Image(numRows * img.height, numCols * img.width, img.channels, RepeatSeq(wide, numRows))
  }

  /** Every sample of the tiled buffer is read from the input modulo its shape. */
  lemma TileAt(img: Image, numRows: nat, numCols: nat, i: nat, j: nat, k: nat)
    requires img.Valid() && Tile(img, numRows, numCols).InBounds(i, j, k)
    ensures img.height > 0 && img.width > 0
    ensures Tile(img, numRows, numCols).At(i, j, k) == img.At(i % img.height, j % img.width, k)
  {
  }

  lemma BlockIndex(a: nat, n: nat, size: nat, i: nat)
    requires a < n && i < size
    ensures a * size + i < n * size
    ensures (a * size + i) % size == i
  {
    assert (a + 1) * size == a * size + size;
    assert (a + 1) * size <= n * size;
    DivModUnique(a * size + i, size, a, i);
  }

  /** Block (a, b) of the r by c grid, each H by W, is exactly the input. */
  lemma TileBlock(img: Image, numRows: nat, numCols: nat, a: nat, b: nat, i: nat, j: nat, k: nat)
    requires img.Valid() && a < numRows && b < numCols && img.InBounds(i, j, k)
    ensures Tile(img, numRows, numCols).InBounds(a * img.height + i, b * img.width + j, k)
    ensures Tile(img, numRows, numCols).At(a * img.height + i, b * img.width + j, k) == img.At(i, j, k)
  {
    BlockIndex(a, numRows, img.height, i);
    BlockIndex(b, numCols, img.width, j);
    TileAt(img, numRows, numCols, a * img.height + i, b * img.width + j, k);
  }

  /** `a` and `b` have the same extent along every axis other than `axis`. */
  predicate AgreeExcept(a: Image, b: Image, axis: nat)
  {
    && (axis == 0 || a.height == b.height)
    && (axis == 1 || a.width == b.width)
    && (axis == 2 || a.channels == b.channels)
  }

  /**
   * `s` sits inside `r` as the slab starting at `offset` along `axis`: in
   * numpy terms `r[..., offset:offset + len, ...] == s`, with the slice on
   * `axis` and every other axis taken whole.
   */
  ghost predicate HoldsSlab(r: Image, axis: nat, offset: nat, s: Image) {
    && r.Valid() && s.Valid() && axis < 3
    && offset + Dim(s, axis) <= Dim(r, axis)
    && AgreeExcept(r, s, axis)
    && forall i, j, k | s.InBounds(i, j, k) ::
         r.At(if axis == 0 then offset + i else i,
              if axis == 1 then offset + j else j,
              if axis == 2 then offset + k else k) == s.At(i, j, k)
  }

  /** A buffer is its own slab at offset 0. */
  lemma HoldsItself(img: Image, axis: nat)
    requires img.Valid() && axis < 3
    ensures HoldsSlab(img, axis, 0, img)
  {
  }

  /** A slab of a slab is a slab of the whole, at the summed offset. */
  lemma HoldsSlabTransitive(r: Image, c: Image, s: Image, axis: nat, outer: nat, inner: nat, offset: nat)
    requires HoldsSlab(r, axis, outer, c) && HoldsSlab(c, axis, inner, s) && offset == outer + inner
    ensures HoldsSlab(r, axis, offset, s)
  {
  }

  /** Two buffers stacked along the rows (axis 0), the first on top. */
  function JoinRows(a: Image, b: Image): (r: Image)
    requires a.Valid() && b.Valid() && AgreeExcept(a, b, 0)
    ensures r.Valid() && r.height == a.height + b.height
    ensures HoldsSlab(r, 0, 0, a) && HoldsSlab(r, 0, a.height, b)
  {
    Image(a.height + b.height, a.width, a.channels, a.px + b.px)
  }

  /** Two buffers side by side along the columns (axis 1), the first on the left. */
  function JoinCols(a: Image, b: Image): (r: Image)
    requires a.Valid() && b.Valid() && AgreeExcept(a, b, 1)
    ensures r.Valid() && r.width == a.width + b.width
    ensures HoldsSlab(r, 1, 0, a) && HoldsSlab(r, 1, a.width, b)
  {
    Image(a.height, a.width + b.width, a.channels,
      seq(a.height, i requires 0 <= i < a.height => a.px[i] + b.px[i]))
  }

  /** Two buffers joined along the channels (axis 2), the first one's channels first. */
  function JoinChannels(a: Image, b: Image): (r: Image)
    requires a.Valid() && b.Valid() && AgreeExcept(a, b, 2)
    ensures r.Valid() && r.channels == a.channels + b.channels
    ensures HoldsSlab(r, 2, 0, a) && HoldsSlab(r, 2, a.channels, b)
  {
    Image(a.height, a.width, a.channels + b.channels,
      seq(a.height, i requires 0 <= i < a.height =>
        seq(a.width, j requires 0 <= j < a.width => a.px[i][j] + b.px[i][j])))
  }

  /** Two buffers joined along `axis`, the first in front. */
  function Join(a: Image, b: Image, axis: nat): (r: Image)
    requires a.Valid() && b.Valid() && axis < 3 && AgreeExcept(a, b, axis)
    ensures r.Valid()
    ensures Dim(r, axis) == Dim(a, axis) + Dim(b, axis)
    ensures HoldsSlab(r, axis, 0, a) && HoldsSlab(r, axis, Dim(a, axis), b)
  {
    if axis == 0 then JoinRows(a, b)
    else if axis == 1 then JoinCols(a, b)
    else JoinChannels(a, b)
  }

  /**
   * What `np.concatenate` demands of its list: at least one buffer, and all of
   * them agreeing with the first on every axis except `axis`.
   */
  predicate Compatible(images: seq<Image>, axis: nat)
  {
    && |images| > 0
    && forall n | 0 <= n < |images| :: images[n].Valid() && AgreeExcept(images[0], images[n], axis)
  }

  /** The summed extent of `images` along `axis`. */
  function SumDim(images: seq<Image>, axis: nat): nat
  {
    if images == [] then 0 else Dim(images[0], axis) + SumDim(images[1..], axis)
  }

  /** The buffers joined in order along `axis`. */
  function ConcatenateAlong(images: seq<Image>, axis: nat): (r: Image)
    requires axis < 3 && Compatible(images, axis)
    ensures r.Valid()
    ensures Dim(r, axis) == SumDim(images, axis)
    ensures AgreeExcept(r, images[0], axis)
    decreases |images|
  {
    if |images| == 1 then images[0]
    else
      var rest := images[1..];
      assert forall n | 0 <= n < |rest| :: rest[n] == images[n + 1];
      Join(images[0], ConcatenateAlong(rest, axis), axis)
  }

  /** numpy accepts the axes -3 .. 2 of a rank-3 array, negative ones counted from the end. */
  function NormalizeAxis(axis: int): (a: nat)
    requires -3 <= axis < 3
    ensures a < 3 && (a == axis || a == axis + 3)
  {
    if axis < 0 then axis + 3 else axis
  }

  /** `np.concatenate(images, axis=axis)`. */
  function Concatenate(images: seq<Image>, axis: int): (r: Image)
    requires -3 <= axis < 3 && Compatible(images, NormalizeAxis(axis))
    ensures r.Valid()
    ensures Dim(r, NormalizeAxis(axis)) == SumDim(images, NormalizeAxis(axis))
    ensures AgreeExcept(r, images[0], NormalizeAxis(axis))
  {
    ConcatenateAlong(images, NormalizeAxis(axis))
  }

  /** Dropping the first input: the rest is still compatible and the join unfolds once. */
  lemma ConcatenateStep(images: seq<Image>, axis: nat)
    requires axis < 3 && Compatible(images, axis) && |images| > 1
    ensures Compatible(images[1..], axis)
    ensures ConcatenateAlong(images, axis) == Join(images[0], ConcatenateAlong(images[1..], axis), axis)
  {
  }

  /** The offset of input n is the first extent plus the offset of input n - 1 among the rest. */
  lemma OffsetStep(images: seq<Image>, axis: nat, n: nat)
    requires axis < 3 && 0 < n <= |images|
    ensures SumDim(images[..n], axis) == Dim(images[0], axis) + SumDim(images[1..][..n - 1], axis)
  {
    assert images[..n][1..] == images[1..][..n - 1];
  }

  /** The first input is the slab at offset 0. */
  lemma FirstSlab(images: seq<Image>, axis: nat)
    requires axis < 3 && Compatible(images, axis)
    ensures HoldsSlab(ConcatenateAlong(images, axis), axis, 0, images[0])
  {
    if |images| == 1 {
      HoldsItself(images[0], axis);
    } else {
      ConcatenateStep(images, axis);
    }
  }

  /**
   * The inputs appear in order as consecutive slabs: input n starts at the
   * summed extent of the inputs before it and equals its source.
   */
  lemma {:induction false} ConcatenateSlabs(images: seq<Image>, axis: nat, n: nat)
    requires axis < 3 && Compatible(images, axis) && n < |images|
    ensures HoldsSlab(ConcatenateAlong(images, axis), axis, SumDim(images[..n], axis), images[n])
  {
    if n == 0 {
      assert images[..0] == [];
      FirstSlab(images, axis);
    } else {
      var rest := images[1..];
      ConcatenateStep(images, axis);
      var whole, tail := ConcatenateAlong(images, axis), ConcatenateAlong(rest, axis);
      ConcatenateSlabs(rest, axis, n - 1);
      OffsetStep(images, axis, n);
      HoldsSlabTransitive(whole, tail, rest[n - 1], axis,
        Dim(images[0], axis), SumDim(rest[..n - 1], axis), SumDim(images[..n], axis));
    }
  }

  /** Every position along `axis` of the summed extent falls inside the slab of some input. */
  lemma {:induction false} LocateSlab(images: seq<Image>, axis: nat, x: nat)
    requires axis < 3 && x < SumDim(images, axis)
    ensures exists n | 0 <= n < |images| ::
              SumDim(images[..n], axis) <= x < SumDim(images[..n], axis) + Dim(images[n], axis)
  {
    assert images[..0] == [];
    if x >= Dim(images[0], axis) {
      var rest := images[1..];
      LocateSlab(rest, axis, x - Dim(images[0], axis));
      var m :| 0 <= m < |rest| &&
        SumDim(rest[..m], axis) <= x - Dim(images[0], axis) < SumDim(rest[..m], axis) + Dim(rest[m], axis);
      assert images[..m + 1][1..] == rest[..m];
      assert images[m + 1] == rest[m];
    }
  }

  /** Two buffers holding the same slab at the same offset agree on it. */
  lemma SlabsAgree(r: Image, c: Image, axis: nat, offset: nat, s: Image, i: nat, j: nat, k: nat)
    requires r.Valid() && c.Valid() && s.Valid() && axis < 3
    requires HoldsSlab(r, axis, offset, s) && HoldsSlab(c, axis, offset, s)
    requires r.InBounds(i, j, k) && c.InBounds(i, j, k)
    requires var x := if axis == 0 then i else if axis == 1 then j else k;
             offset <= x < offset + Dim(s, axis)
    ensures r.At(i, j, k) == c.At(i, j, k)
  {
    var li := if axis == 0 then i - offset else i;
    var lj := if axis == 1 then j - offset else j;
    var lk := if axis == 2 then k - offset else k;
    assert s.InBounds(li, lj, lk);
    assert r.At(i, j, k) == s.At(li, lj, lk);
  }

  /**
   * The slabs and the extents determine the result: a buffer of the summed
   * extent along `axis`, agreeing with the inputs elsewhere, that holds every
   * input at its offset is the concatenation.
   */
  lemma ConcatenateUnique(images: seq<Image>, axis: nat, r: Image)
    requires axis < 3 && Compatible(images, axis) && r.Valid()
    requires Dim(r, axis) == SumDim(images, axis) && AgreeExcept(r, images[0], axis)
    requires forall n | 0 <= n < |images| :: HoldsSlab(r, axis, SumDim(images[..n], axis), images[n])
    ensures r == ConcatenateAlong(images, axis)
  {
    var c := ConcatenateAlong(images, axis);
    assert r.SameShape(c);
    forall i, j, k | r.InBounds(i, j, k)
      ensures r.At(i, j, k) == c.At(i, j, k)
    {
      var x := if axis == 0 then i else if axis == 1 then j else k;
      LocateSlab(images, axis, x);
      var n :| 0 <= n < |images| &&
        SumDim(images[..n], axis) <= x < SumDim(images[..n], axis) + Dim(images[n], axis);
      ConcatenateSlabs(images, axis, n);
      SlabsAgree(r, c, axis, SumDim(images[..n], axis), images[n], i, j, k);
    }
    Extensionality(r, c);
  }

  /** The reasons `np.concatenate` raises instead of returning. */
  datatype ConcatError = NoImages | AxisOutOfBounds | ShapeMismatch

  datatype Result<T> = Ok(value: T) | Err(error: ConcatError)

  /**
   * `np.concatenate` with its failures made visible, in the order numpy
   * checks them: an empty list, then an axis outside -3 .. 2, then a
   * mismatch on some other axis.
   */
  function TryConcatenate(images: seq<Image>, axis: int): (r: Result<Image>)
    requires forall n | 0 <= n < |images| :: images[n].Valid()
    ensures images == [] ==> r == Err(NoImages)
    ensures images != [] && !(-3 <= axis < 3) ==> r == Err(AxisOutOfBounds)
    ensures images != [] && -3 <= axis < 3 && !Compatible(images, NormalizeAxis(axis)) ==>
              r == Err(ShapeMismatch)
    ensures r.Ok? <==> -3 <= axis < 3 && Compatible(images, NormalizeAxis(axis))
    ensures r.Ok? ==> r.value == Concatenate(images, axis)
  {
    if images == [] then Err(NoImages)
    else if !(-3 <= axis < 3) then Err(AxisOutOfBounds)
    else if !Compatible(images, NormalizeAxis(axis)) then Err(ShapeMismatch)
    else Ok(Concatenate(images, axis))
  }
}
