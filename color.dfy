/**
 * Color transforms on mutable buffers: the channel filter, which works on a
 * copy, and the red-shirt recolor, which overwrites its argument in place.
 * Each is specified by a function on buffer values, and the properties are
 * proved about those functions.
 */
module Color {
  import opened Images

  /**
   * The channel loop touches channels 0, 1 and 2 only; a channel it zeroes
   * must exist (numpy raises an IndexError otherwise).
   */
  predicate FilterFits(channels: nat, filter: seq<int>) {
    && (0 !in filter ==> 0 < channels)
    && (1 !in filter ==> 1 < channels)
    && (2 !in filter ==> 2 < channels)
  }

  /** Whether the filter zeroes channel `k`: a color channel missing from the keep-list. */
  predicate Dropped(filter: seq<int>, k: int) {
    0 <= k < 3 && k !in filter
  }

  /** The buffer the channel filter produces from `img`. */
  function Filtered(img: Image, filter: seq<int>): (r: Image)
    requires img.Valid() && FilterFits(img.channels, filter)
    ensures r.Valid() && r.SameShape(img)
  {
    Image(img.height, img.width, img.channels,
      seq(img.height, i requires 0 <= i < img.height =>
        seq(img.width, j requires 0 <= j < img.width =>
          seq(img.channels, k requires 0 <= k < img.channels =>
            if Dropped(filter, k) then 0 else img.px[i][j][k]))))
  }

  /** `image.copy()`: a fresh buffer of the same shape and samples. */
  method Copy(image: array3<u8>) returns (copy: array3<u8>)
    ensures fresh(copy)
    ensures copy.Length0 == image.Length0 && copy.Length1 == image.Length1 && copy.Length2 == image.Length2
    ensures forall i, j, k | 0 <= i < image.Length0 && 0 <= j < image.Length1 && 0 <= k < image.Length2 ::
              copy[i, j, k] == image[i, j, k]
  {
    copy := new u8[image.Length0, image.Length1, image.Length2];
    forall i, j, k | 0 <= i < image.Length0 && 0 <= j < image.Length1 && 0 <= k < image.Length2 {
      copy[i, j, k] := image[i, j, k];
    }
  }

  /** `a[:, :, ch] = 0`: one channel plane set to zero, every other sample kept. */
  method ZeroChannel(a: array3<u8>, ch: nat)
    requires ch < a.Length2
    modifies a
    ensures forall i, j, k | 0 <= i < a.Length0 && 0 <= j < a.Length1 && 0 <= k < a.Length2 ::
              a[i, j, k] == if k == ch then 0 else old(a[i, j, k])
  {
    forall i, j | 0 <= i < a.Length0 && 0 <= j < a.Length1 {
      a[i, j, ch] := 0;
    }
  }

  /**
   * `create_color_filtered_image`: copy the buffer, then for each color
   * channel 0, 1, 2 not in `filter` set that whole channel plane to zero.
   * The argument is not modified.
   */
  method ColorFilter(image: array3<u8>, filter: seq<int>) returns (filtered: array3<u8>)
    requires FilterFits(image.Length2, filter)
    ensures fresh(filtered)
    ensures Snapshot(filtered) == Filtered(Snapshot(image), filter)
  {
    filtered := Copy(image);
    for ch := 0 to 3
      invariant forall i, j, k | 0 <= i < image.Length0 && 0 <= j < image.Length1 && 0 <= k < image.Length2 ::
                  filtered[i, j, k] == if k < ch && Dropped(filter, k) then 0 else image[i, j, k]
    {
      if ch !in filter {
        ZeroChannel(filtered, ch);
      }
    }
    Extensionality(Snapshot(filtered), Filtered(Snapshot(image), filter));
  }

  /**
   * A channel not in the keep-list is zero everywhere; every kept color
   * channel and every channel past the third (alpha) is unchanged.
   */
  lemma FilteredAt(img: Image, filter: seq<int>, i: nat, j: nat, k: nat)
    requires img.Valid() && FilterFits(img.channels, filter) && img.InBounds(i, j, k)
    ensures k < 3 && k !in filter ==> Filtered(img, filter).At(i, j, k) == 0
    ensures k >= 3 || k in filter ==> Filtered(img, filter).At(i, j, k) == img.At(i, j, k)
  {
  }

  /** An empty keep-list zeroes all of red, green and blue and leaves alpha alone. */
  lemma EmptyFilterClearsColor(img: Image)
    requires img.Valid() && img.channels >= 3
    ensures forall i, j, k | img.InBounds(i, j, k) ::
              Filtered(img, []).At(i, j, k) == if k < 3 then 0 else img.At(i, j, k)
  {
  }

  /** Keeping all three color channels gives back the same buffer. */
  lemma FullFilterIsIdentity(img: Image, filter: seq<int>)
    requires img.Valid() && 0 in filter && 1 in filter && 2 in filter
    ensures Filtered(img, filter) == img
  {
    Extensionality(Filtered(img, filter), img);
  }

  /** Filtering a second time with the same keep-list changes nothing. */
  lemma FilterIdempotent(img: Image, filter: seq<int>)
    requires img.Valid() && FilterFits(img.channels, filter)
    ensures Filtered(Filtered(img, filter), filter) == Filtered(img, filter)
  {
    Extensionality(Filtered(Filtered(img, filter), filter), Filtered(img, filter));
  }

  /** Filters commute: the result keeps exactly the channels both keep. */
  lemma FiltersCommute(img: Image, f: seq<int>, g: seq<int>)
    requires img.Valid() && FilterFits(img.channels, f) && FilterFits(img.channels, g)
    ensures Filtered(Filtered(img, f), g) == Filtered(Filtered(img, g), f)
  {
    Extensionality(Filtered(Filtered(img, f), g), Filtered(Filtered(img, g), f));
  }

  /** The inclusive lower bound of the red-shirt color range, as (R, G, B). */
  const Lower: seq<int> := [75, 5, 225]
  /** The inclusive upper bound of the red-shirt color range, as (R, G, B). */
  const Upper: seq<int> := [110, 45, 255]
  /** The replacement pixel written over every match, alpha included. */
  const Red: seq<u8> := [255, 0, 0, 255]

  /** A pixel matches when each of R, G and B lies within its inclusive bounds. */
  predicate InRange(r: int, g: int, b: int) {
    && Lower[0] <= r <= Upper[0]
    && Lower[1] <= g <= Upper[1]
    && Lower[2] <= b <= Upper[2]
  }

  predicate PixelMatches(p: seq<u8>)
    requires |p| >= 3
  {
    InRange(p[0], p[1], p[2])
  }

  /** The buffer the red-shirt recolor leaves behind. */
  function Recolored(img: Image): (r: Image)
    requires img.Valid() && img.channels == 4
    ensures r.Valid() && r.SameShape(img)
  {
    Image(img.height, img.width, img.channels,
      seq(img.height, i requires 0 <= i < img.height =>
        seq(img.width, j requires 0 <= j < img.width =>
          if PixelMatches(img.px[i][j]) then Red else img.px[i][j])))
  }

  /**
   * `create_red_shirt_image`: build the per-pixel mask from the original
   * samples, then overwrite every masked pixel with opaque red in place, and
   * return the same buffer.
   */
  method RedShirt(image: array3<u8>) returns (result: array3<u8>)
    requires image.Length2 == 4
    modifies image
    ensures result == image
    ensures Snapshot(image) == Recolored(old(Snapshot(image)))
  {
    var mask := new bool[image.Length0, image.Length1];
    forall i, j | 0 <= i < image.Length0 && 0 <= j < image.Length1 {
      mask[i, j] := InRange(image[i, j, 0], image[i, j, 1], image[i, j, 2]);
    }
    forall i, j, k | 0 <= i < image.Length0 && 0 <= j < image.Length1 && 0 <= k < 4 && mask[i, j] {
      image[i, j, k] := Red[k];
    }
    result := image;
    Extensionality(Snapshot(image), Recolored(old(Snapshot(image))));
  }

  /**
   * Every matching pixel becomes exactly (255, 0, 0, 255), alpha included;
   * every other pixel keeps all four samples.
   */
  lemma RecoloredAt(img: Image, i: nat, j: nat, k: nat)
    requires img.Valid() && img.channels == 4 && img.InBounds(i, j, k)
    ensures InRange(img.At(i, j, 0), img.At(i, j, 1), img.At(i, j, 2)) ==> Recolored(img).At(i, j, k) == Red[k]
    ensures !InRange(img.At(i, j, 0), img.At(i, j, 1), img.At(i, j, 2)) ==> Recolored(img).At(i, j, k) == img.At(i, j, k)
  {
  }

  /** After the recolor no pixel lies in the color range any more. */
  lemma RecolorLeavesNoMatch(img: Image)
    requires img.Valid() && img.channels == 4
    ensures forall i, j | 0 <= i < img.height && 0 <= j < img.width ::
              !InRange(Recolored(img).At(i, j, 0), Recolored(img).At(i, j, 1), Recolored(img).At(i, j, 2))
  {
  }

  /** Recoloring a second time changes nothing. */
  lemma RecolorIdempotent(img: Image)
    requires img.Valid() && img.channels == 4
    ensures Recolored(Recolored(img)) == Recolored(img)
  {
    RecolorLeavesNoMatch(img);
    var once := Recolored(img);
    forall i, j, k | once.InBounds(i, j, k)
      ensures Recolored(once).At(i, j, k) == once.At(i, j, k)
    {
      RecoloredAt(once, i, j, k);
    }
    Extensionality(Recolored(once), once);
  }
}
