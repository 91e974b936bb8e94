/** The extraction pipeline: reject an empty image, fix the working size,
    estimate the dominant orientation, project the grid onto it, sample the
    two extreme bands and report their colours with the compass angle. The
    decoder's and the imaging primitives' outputs are inputs here. */
module GradientHex {
  import opened Common
  import opened Preprocess
  import opened Estimator
  import opened Compass
  import opened Projector
  import opened Sampler
  import opened HexColor

  /** The result: two `#rrggbb` colours and a bearing in degrees. */
  datatype GradientResult = GradientResult(startColor: string, endColor: string, angle: real)

  /** What the imaging primitives compute from the decoded image: the resized
      and blurred working image, and the gradient magnitude and angle fields of
      its luminance, row-major. */
  datatype Intermediates = Intermediates(blurred: Image, magnitude: seq<real>, direction: seq<real>)

  /** The primitives' outputs all have the working size. */
  predicate Fits(x: Intermediates, size: Size) {
    && size.height >= 0 && size.width >= 0
    && x.blurred.rows == size.height && x.blurred.cols == size.width
    && ValidImage(x.blurred)
    && |x.magnitude| == size.height * size.width
    && |x.direction| == size.height * size.width
  }

  /** Preconditions on the inputs: i32 dimensions, and primitive outputs of
      the working size whenever the image gets that far. */
  predicate Admissible(decoded: Image, x: Intermediates) {
    && decoded.rows <= I32Max && decoded.cols <= I32Max
    && (WorkingSize(decoded).Ok? ==> Fits(x, WorkingSize(decoded).value))
  }

  /** The dominant angle, in radians, of a working image with h rows. */
  function DominantOf(x: Intermediates, h: nat, w: nat, trig: Trig): real
    requires |x.magnitude| == h * w && |x.direction| == h * w && h * w > 0
  {
    DominantAngleOf(StrongCells(x.magnitude), x.direction, trig)
  }

  /** What extraction yields, stage by stage. */
  function Extract(decoded: Image, x: Intermediates, trig: Trig): Result<GradientResult>
    requires Admissible(decoded, x)
  {
    match WorkingSize(decoded)
    case Err(e) => Err(e)
    case Ok(size) =>
      if size.height == 0 then Err(PrimitiveFailure)
      else
        var h, w := size.height, size.width;
        assert h * w > 0;
        var theta := DominantOf(x, h, w, trig);
        var dx, dy := trig.cos(theta), trig.sin(theta);
        var t := ProjectionField(h, w, dx, dy);
        var band := FieldBand(t);
        var startBgr := BandColor(x.blurred.pixels, StartMask(t, band.low));
        var endBgr := BandColor(x.blurred.pixels, EndMask(t, band.high));
        Ok(GradientResult(Format(startBgr), Format(endBgr), CompassAngle(dx, dy, trig)))
  }

  /** The extraction as the source runs it: the strong-cell scan and the
      projection fill work on buffers; everything else is computed in place. */
  method ExtractGradientHex(decoded: Image, x: Intermediates, trig: Trig) returns (res: Result<GradientResult>)
    requires Admissible(decoded, x)
    ensures res == Extract(decoded, x, trig)
  {
    var size :- WorkingSize(decoded);
    if size.height == 0 {
      return Err(PrimitiveFailure);
    }
    var h: nat, w: nat := size.height, size.width;

    var maxVal := Max(x.magnitude);
    var threshold := StrongFraction * maxVal;
    var validMask := StrongMask(x.magnitude, threshold);
    var nonZeroCount := NonZeroCount(validMask);
    var maskData := new int[|validMask|](i requires 0 <= i < |validMask| => validMask[i]);
    var angleData := new real[|x.direction|](i requires 0 <= i < |x.direction| => x.direction[i]);
    assert maskData[..] == StrongCells(x.magnitude);
    assert angleData[..] == x.direction;
    var dominantAngle := DominantAngle(nonZeroCount, maskData, angleData, h, w, trig);

    var dx, dy := trig.cos(dominantAngle), trig.sin(dominantAngle);
    var angle := CompassAngle(dx, dy, trig);

    var t := new real[h * w];
    FillProjection(t, h, w, dx, dy);
    var minVal, maxT := Min(t[..]), Max(t[..]);
    var band := Thresholds(minVal, maxT);
    var startMask := StartMask(t[..], band.low);
    var endMask := EndMask(t[..], band.high);

    var startBgr := BandColor(x.blurred.pixels, startMask);
    var endBgr := BandColor(x.blurred.pixels, endMask);
    res := Ok(GradientResult(Format(startBgr), Format(endBgr), angle));
  }

  /** Extraction fails exactly when the image is empty (EmptyImage), when
      100 * rows leaves i32 (Overflow), or when the image is more than 100
      times wider than tall so that the working height is 0 (the resize
      primitive rejects it). */
  lemma ExtractErrors(decoded: Image, x: Intermediates, trig: Trig)
    requires Admissible(decoded, x)
    ensures IsEmpty(decoded) ==> Extract(decoded, x, trig) == Err(EmptyImage)
    ensures Extract(decoded, x, trig).Err? <==>
      IsEmpty(decoded) || ResizeDim * decoded.rows > I32Max || ResizeDim * decoded.rows < decoded.cols
  {
    if WorkingSize(decoded).Ok? {
      HeightZeroIffVeryWide(decoded);
    }
  }

  /** A successful result carries two colour strings and a bearing in [0, 360). */
  lemma ExtractOutputShape(decoded: Image, x: Intermediates, trig: Trig)
    requires Admissible(decoded, x) && Extract(decoded, x, trig).Ok?
    ensures IsColorString(Extract(decoded, x, trig).value.startColor)
    ensures IsColorString(Extract(decoded, x, trig).value.endColor)
    ensures 0.0 <= Extract(decoded, x, trig).value.angle < FullTurn
  {}

  /** Neither band falls back to black: both colours are quantised masked
      means of the blurred image over their non-empty bands. */
  lemma ExtractNeverFallsBack(decoded: Image, x: Intermediates, trig: Trig)
    requires Admissible(decoded, x) && Extract(decoded, x, trig).Ok?
    ensures var size := WorkingSize(decoded).value;
            var theta := DominantOf(x, size.height, size.width, trig);
            var t := ProjectionField(size.height, size.width, trig.cos(theta), trig.sin(theta));
            && |t| > 0
            && CountTrue(StartMask(t, FieldBand(t).low)) > 0
            && CountTrue(EndMask(t, FieldBand(t).high)) > 0
            && Extract(decoded, x, trig).value.startColor
               == Format(QuantizeMean(MaskedMean(x.blurred.pixels, StartMask(t, FieldBand(t).low))))
            && Extract(decoded, x, trig).value.endColor
               == Format(QuantizeMean(MaskedMean(x.blurred.pixels, EndMask(t, FieldBand(t).high))))
  {
    var size := WorkingSize(decoded).value;
    assert size.height * size.width > 0;
    var theta := DominantOf(x, size.height, size.width, trig);
    var t := ProjectionField(size.height, size.width, trig.cos(theta), trig.sin(theta));
    BandsNonEmpty(t);
  }

  /** An image whose magnitude field is zero everywhere and whose blurred
      pixels all have colour p yields the dominant angle 0, hence direction
      (1, 0) and the reported bearing 90, and p as both colours. The gradient
      primitives pad the border with zeros, so of the solid images only a
      black one has a zero magnitude field; for any other solid colour the
      border cells are strong and set the angle. */
  lemma FlatImage(decoded: Image, x: Intermediates, trig: Trig, p: Pixel)
    requires Admissible(decoded, x) && Extract(decoded, x, trig).Ok?
    requires forall i :: 0 <= i < |x.magnitude| ==> x.magnitude[i] == 0.0
    requires ValidPixel(p) && forall i :: 0 <= i < |x.blurred.pixels| ==> x.blurred.pixels[i] == p
    requires trig.cos(0.0) == 1.0 && trig.sin(0.0) == 0.0
    requires trig.atan2(0.0, 1.0) == 0.0 && trig.toDegrees(0.0) == 0.0
    ensures Extract(decoded, x, trig).value.angle == UpOffset
    ensures Extract(decoded, x, trig).value.startColor == Format(p)
    ensures Extract(decoded, x, trig).value.endColor == Format(p)
  {
    var size := WorkingSize(decoded).value;
    var h, w := size.height, size.width;
    assert h * w > 0;
    FlatFieldHasAngleZero(x.magnitude, x.direction, trig);
    assert DominantOf(x, h, w, trig) == 0.0;
    assert -0.0 == 0.0;
    RemEuclidKeepsNormalised(UpOffset);
    var t := ProjectionField(h, w, 1.0, 0.0);
    BandsNonEmpty(t);
    SolidBandColor(x.blurred.pixels, StartMask(t, FieldBand(t).low), p);
    SolidBandColor(x.blurred.pixels, EndMask(t, FieldBand(t).high), p);
  }
}
