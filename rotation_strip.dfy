/**
 * The rotation panel of the demo driver: four rotated copies of the input,
 * each padded to the largest height and width among them, joined side by
 * side. The driver builds its four copies by rotating the ORIGINAL image
 * each time, so all four are the same quarter turn; the padding step only
 * makes sense for the sequence of successive quarter turns, which is
 * modelled here as the intended behaviour.
 */
module RotationStrip {
  import opened Images
  import opened Geometry
  import opened Compositing

  function MaxHeight(panels: seq<Image>): nat {
    if panels == [] then 0 else Max(panels[0].height, MaxHeight(panels[1..]))
  }

  function MaxWidth(panels: seq<Image>): nat {
    if panels == [] then 0 else Max(panels[0].width, MaxWidth(panels[1..]))
  }

  /** Every panel fits within the largest height and width. */
  lemma {:induction false} MaxBounds(panels: seq<Image>)
    ensures forall n | 0 <= n < |panels| ::
              panels[n].height <= MaxHeight(panels) && panels[n].width <= MaxWidth(panels)
  {
    if panels != [] {
      MaxBounds(panels[1..]);
      assert forall n | 1 <= n < |panels| :: panels[n] == panels[1..][n - 1];
    }
  }

  /** Buffers of equal width have a summed width of count times that width. */
  lemma {:induction false} SumOfEqualWidths(images: seq<Image>, w: nat)
    requires forall n | 0 <= n < |images| :: images[n].width == w
    ensures SumDim(images, 1) == |images| * w
  {
    if images != [] {
      assert forall n | 0 <= n < |images[1..]| :: images[1..][n] == images[n + 1];
      SumOfEqualWidths(images[1..], w);
    }
  }

  lemma MaxOfFour(p: seq<Image>)
    requires |p| == 4
    ensures MaxHeight(p) == Max(p[0].height, Max(p[1].height, Max(p[2].height, p[3].height)))
    ensures MaxWidth(p) == Max(p[0].width, Max(p[1].width, Max(p[2].width, p[3].width)))
  {
    assert p[3..][1..] == [];
    assert MaxHeight(p[3..]) == p[3].height && MaxWidth(p[3..]) == p[3].width;
    assert p[2..][1..] == p[3..];
    assert MaxHeight(p[2..]) == Max(p[2].height, MaxHeight(p[3..]));
    assert MaxWidth(p[2..]) == Max(p[2].width, MaxWidth(p[3..]));
    assert p[1..][1..] == p[2..];
    assert MaxHeight(p[1..]) == Max(p[1].height, MaxHeight(p[2..]));
    assert MaxWidth(p[1..]) == Max(p[1].width, MaxWidth(p[2..]));
  }

  /** Every panel padded to the largest height and width among them. */
  function PadAll(panels: seq<Image>): (padded: seq<Image>)
    requires forall n | 0 <= n < |panels| :: panels[n].Valid()
    ensures |padded| == |panels|
    ensures forall n | 0 <= n < |padded| ::
              && padded[n].Valid()
              && padded[n].height == MaxHeight(panels) && padded[n].width == MaxWidth(panels)
              && padded[n].channels == panels[n].channels
  {
    var h, w := MaxHeight(panels), MaxWidth(panels);
    var padded := seq(|panels|, n requires 0 <= n < |panels| => Pad(panels[n], h, w));
    assert forall n | 0 <= n < |padded| ::
             padded[n].Valid() && padded[n].height == h && padded[n].width == w
             && padded[n].channels == panels[n].channels by {
      MaxBounds(panels);
      forall n | 0 <= n < |padded|
        ensures padded[n].Valid() && padded[n].height == h && padded[n].width == w
        ensures padded[n].channels == panels[n].channels
      {
        assert padded[n] == Pad(panels[n], h, w);
      }
    }
    padded
  }

  /**
   * Pad every panel to the largest height and width, then concatenate along
   * axis 1. The panels must share their channel count.
   */
  function PaddedStrip(panels: seq<Image>): (r: Image)
    requires |panels| > 0
    requires forall n | 0 <= n < |panels| :: panels[n].Valid() && panels[n].channels == panels[0].channels
    ensures r.Valid()
    ensures r.height == MaxHeight(panels) && r.width == |panels| * MaxWidth(panels)
    ensures r.channels == panels[0].channels
  {
    var padded := PadAll(panels);
    SumOfEqualWidths(padded, MaxWidth(panels));
    Concatenate(padded, 1)
  }

  /** The panels as the driver builds them: four turns of the original image. */
  function PanelsAsWritten(img: Image): (panels: seq<Image>)
    requires img.Valid()
    ensures |panels| == 4
  {
    seq(4, _ => Rotate(img))
  }

  /** The panels as the padding implies: the image turned by 90, 180, 270 and 360 degrees. */
  function Panels(img: Image): (panels: seq<Image>)
    requires img.Valid()
    ensures |panels| == 4
  {
    var one := Rotate(img);
    var two := Rotate(one);
    var three := Rotate(two);
    [one, two, three, Rotate(three)]
  }

  /**
   * As written, all four panels are the same single quarter turn, so the
   * strip is W by 4H, and on a buffer that is not square its second panel
   * is not the half turn the sequence calls for.
   */
  lemma AsWrittenPanelsRepeat(img: Image)
    requires img.Valid()
    ensures forall n | 0 <= n < 4 :: PanelsAsWritten(img)[n] == Rotate(img)
    ensures PaddedStrip(PanelsAsWritten(img)).height == img.width
    ensures PaddedStrip(PanelsAsWritten(img)).width == 4 * img.height
    ensures img.height != img.width ==> PanelsAsWritten(img)[1] != Panels(img)[1]
  {
    MaxOfFour(PanelsAsWritten(img));
  }

  /** Each intended panel is the previous one turned once more, and the last is the input. */
  lemma PanelsTurn(img: Image)
    requires img.Valid()
    ensures Panels(img)[0] == Rotate(img)
    ensures forall n | 0 <= n < 3 :: Panels(img)[n + 1] == Rotate(Panels(img)[n])
    ensures Panels(img)[3] == img
  {
    RotateFourTimes(img);
  }

  /** The intended strip is four M by M squares side by side, M = max(H, W). */
  lemma StripShape(img: Image)
    requires img.Valid()
    ensures PaddedStrip(Panels(img)).height == Max(img.height, img.width)
    ensures PaddedStrip(Panels(img)).width == 4 * Max(img.height, img.width)
    ensures PaddedStrip(Panels(img)).channels == img.channels
  {
    MaxOfFour(Panels(img));
  }
}
