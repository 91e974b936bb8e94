/** Band colour sampling: the blurred image's mean colour over a band mask,
    each channel clamped to [0, 255] and rounded to the nearest integer (ties
    away from zero), or black when the mask selects nothing. */
module Sampler {
  import opened Common

  const ChannelMax: real := 255.0

  datatype Channel = Blue | Green | Red

  function Component(p: Pixel, c: Channel): int {
    match c
    case Blue => p.b
    case Green => p.g
    case Red => p.r
  }

  /** Per-channel mean of the selected pixels, in blue, green, red order. */
  datatype Mean = Mean(b: real, g: real, r: real)

  function MeanComponent(m: Mean, c: Channel): real {
    match c
    case Blue => m.b
    case Green => m.g
    case Red => m.r
  }

  /** Sum of one channel over the pixels a mask selects. */
  function MaskedSum(img: seq<Pixel>, mask: seq<bool>, c: Channel): int
    requires |img| == |mask|
  {
    if mask == [] then 0
    else
      MaskedSum(img[..|img| - 1], mask[..|mask| - 1], c)
      + (if mask[|mask| - 1] then Component(img[|img| - 1], c) else 0)
  }

  /** The masked mean of a non-empty mask, as the mean primitive computes it. */
  function MaskedMean(img: seq<Pixel>, mask: seq<bool>): Mean
    requires |img| == |mask| && CountTrue(mask) > 0
  {
    var n := CountTrue(mask) as real;
    Mean(MaskedSum(img, mask, Blue) as real / n,
         MaskedSum(img, mask, Green) as real / n,
         MaskedSum(img, mask, Red) as real / n)
  }

  /** f64 clamp to the channel range. */
  function Clamp(x: real): (y: real)
    ensures 0.0 <= y <= ChannelMax
    ensures x < 0.0 ==> y == 0.0
    ensures x > ChannelMax ==> y == ChannelMax
    ensures 0.0 <= x <= ChannelMax ==> y == x
  {
    if x < 0.0 then 0.0 else if x > ChannelMax then ChannelMax else x
  }

  /** f64 round: to the nearest integer, halfway cases away from zero. */
  function Round(x: real): (n: int)
    ensures x >= 0.0 ==> x - 0.5 < n as real <= x + 0.5
    ensures x < 0.0 ==> x - 0.5 <= n as real < x + 0.5
  {
    if x >= 0.0 then (x + 0.5).Floor else -((-x + 0.5).Floor)
  }

  /** A mean channel value as a byte: clamped, then rounded to the nearest
      integer with halves going up; the cast to u8 keeps that integer. */
  function Quantize(x: real): (n: int)
    ensures IsByte(n)
    ensures Clamp(x) - 0.5 < n as real <= Clamp(x) + 0.5
  {
    Round(Clamp(x))
  }

  /** Quantisation preserves order. */
  lemma QuantizeMonotone(x: real, y: real)
    requires x <= y
    ensures Quantize(x) <= Quantize(y)
  {
    assert Clamp(x) <= Clamp(y);
  }

  /** A byte value is quantised to itself. */
  lemma QuantizeByte(n: int)
    requires IsByte(n)
    ensures Quantize(n as real) == n
  {}

  /** The three channels of a mean, each quantised. */
  function QuantizeMean(m: Mean): (p: Pixel)
    ensures ValidPixel(p)
    ensures forall c :: Component(p, c) == Quantize(MeanComponent(m, c))
  {
    Pixel(Quantize(m.b), Quantize(m.g), Quantize(m.r))
  }

  /** The colour of a band: the quantised masked mean, or black when the
      mask selects no pixel. */
  function BandColor(img: seq<Pixel>, mask: seq<bool>): (p: Pixel)
    requires |img| == |mask|
    ensures ValidPixel(p)
    ensures CountTrue(mask) == 0 ==> p == Pixel(0, 0, 0)
    ensures CountTrue(mask) > 0 && (forall i :: 0 <= i < |img| ==> ValidPixel(img[i])) ==>
              forall c :: MeanComponent(MaskedMean(img, mask), c) - 0.5 < Component(p, c) as real
                                                                    <= MeanComponent(MaskedMean(img, mask), c) + 0.5
  {
    if CountTrue(mask) > 0 then
      QuantizedMeanIsNearest(img, mask);
      QuantizeMean(MaskedMean(img, mask))
    else Pixel(0, 0, 0)
  }

  /** Over 8-bit pixels each channel of the quantised mean is the integer
      nearest to the mean of that channel. */
  lemma QuantizedMeanIsNearest(img: seq<Pixel>, mask: seq<bool>)
    requires |img| == |mask| && CountTrue(mask) > 0
    ensures (forall i :: 0 <= i < |img| ==> ValidPixel(img[i])) ==>
              forall c :: MeanComponent(MaskedMean(img, mask), c) - 0.5 < Component(QuantizeMean(MaskedMean(img, mask)), c) as real
                                                                    <= MeanComponent(MaskedMean(img, mask), c) + 0.5
  {
    if forall i :: 0 <= i < |img| ==> ValidPixel(img[i]) {
      MeanInChannelRange(img, mask, Blue);
      MeanInChannelRange(img, mask, Green);
      MeanInChannelRange(img, mask, Red);
      var p := QuantizeMean(MaskedMean(img, mask));
      forall c | true
        ensures MeanComponent(MaskedMean(img, mask), c) - 0.5 < Component(p, c) as real
                                                               <= MeanComponent(MaskedMean(img, mask), c) + 0.5
      {
        assert c == Blue || c == Green || c == Red;
      }
    }
  }

  /** Summing bytes over n selected pixels gives between 0 and 255 * n. */
  lemma {:induction false} MaskedSumBounds(img: seq<Pixel>, mask: seq<bool>, c: Channel)
    requires |img| == |mask|
    requires forall i :: 0 <= i < |img| ==> ValidPixel(img[i])
    ensures 0 <= MaskedSum(img, mask, c) <= 255 * CountTrue(mask)
  {
    if mask != [] {
      MaskedSumBounds(img[..|img| - 1], mask[..|mask| - 1], c);
    }
  }

  /** The mean of 8-bit pixels already lies in [0, 255], so for them the
      clamp never changes a channel. */
  lemma MeanInChannelRange(img: seq<Pixel>, mask: seq<bool>, c: Channel)
    requires |img| == |mask| && CountTrue(mask) > 0
    requires forall i :: 0 <= i < |img| ==> ValidPixel(img[i])
    ensures 0.0 <= MeanComponent(MaskedMean(img, mask), c) <= ChannelMax
    ensures Clamp(MeanComponent(MaskedMean(img, mask), c)) == MeanComponent(MaskedMean(img, mask), c)
  {
    MaskedSumBounds(img, mask, c);
    var n := CountTrue(mask) as real;
    var s := MaskedSum(img, mask, c) as real;
    assert MeanComponent(MaskedMean(img, mask), c) == s / n;
    QuotientBetween(s, n, 0.0, ChannelMax);
  }

  /** Over an image of one colour every selected pixel adds that colour. */
  lemma {:induction false} MaskedSumSolid(img: seq<Pixel>, mask: seq<bool>, p: Pixel, c: Channel)
    requires |img| == |mask|
    requires forall i :: 0 <= i < |img| ==> img[i] == p
    ensures MaskedSum(img, mask, c) == CountTrue(mask) * Component(p, c)
  {
    if mask != [] {
      MaskedSumSolid(img[..|img| - 1], mask[..|mask| - 1], p, c);
    }
  }

  /** Over an image of one colour the mean of any non-empty mask is that colour. */
  lemma SolidMean(img: seq<Pixel>, mask: seq<bool>, p: Pixel, c: Channel)
    requires |img| == |mask| && CountTrue(mask) > 0
    requires forall i :: 0 <= i < |img| ==> img[i] == p
    ensures MeanComponent(MaskedMean(img, mask), c) == Component(p, c) as real
  {
    MaskedSumSolid(img, mask, p, c);
    var n, v := CountTrue(mask), Component(p, c);
    assert MeanComponent(MaskedMean(img, mask), c) == (n * v) as real / n as real;
    RealQuotientOfProduct(n, v);
  }

  lemma RealQuotientOfProduct(n: nat, v: int)
    requires n > 0
    ensures (n * v) as real / n as real == v as real
  {
    assert (n * v) as real == v as real * n as real;
    QuotientBetween((n * v) as real, n as real, v as real, v as real);
  }

  /** A solid-colour image yields its own colour for every non-empty band. */
  lemma SolidBandColor(img: seq<Pixel>, mask: seq<bool>, p: Pixel)
    requires |img| == |mask| && CountTrue(mask) > 0 && ValidPixel(p)
    requires forall i :: 0 <= i < |img| ==> img[i] == p
    ensures BandColor(img, mask) == p
  {
    SolidMean(img, mask, p, Blue);
    SolidMean(img, mask, p, Green);
    SolidMean(img, mask, p, Red);
    QuantizeByte(p.b);
    QuantizeByte(p.g);
    QuantizeByte(p.r);
  }
}
