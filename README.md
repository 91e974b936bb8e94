# Gradient extraction, modelled in Dafny

This project models `extract_gradient_hex` from `gradient-generator`. The function takes a raster image and estimates the two-colour linear gradient that best summarises it. It returns a start colour, an end colour (both `#rrggbb`) and a compass bearing in degrees.

The pipeline runs in order:

1. It rejects an empty image and resizes the image to a 100-pixel-wide working size.
2. It finds the cells whose gradient magnitude exceeds a tenth of the peak. If there are at least ten, their directions are averaged as doubled angles to give the dominant orientation; otherwise the orientation is 0.
3. It projects every cell `(x, y)` onto that orientation as `t = x*dx + y*dy`. The cells in the lowest and highest 15% of the projected range form the start band and the end band.
4. It quantises each band's mean colour to bytes and formats it as lowercase hex, red first.

Modules, one per stage:

- `Common` (common.dfy): the `Result` and `Error` types, pixels and images, row-major indexing, and the reductions `NonZeroCount`, `CountTrue`, `Min` and `Max`.
- `Preprocess` (preprocess.dfy): the empty-image check and the working-size rule.
- `Estimator` (estimator.dfy): the strong-cell mask, the row-major accumulation loop (`Accumulate`, a method over arrays) and the dominant angle with its fallback.
- `Compass` (compass.dfy): f64 `%` and `rem_euclid`, and the compass bearing.
- `Projector` (projector.dfy): the in-place projection fill (`FillProjection`, a method over an array), the band thresholds and the two band masks.
- `Sampler` (sampler.dfy): the masked mean, clamping, rounding and the black fallback.
- `HexColor` (hexcolor.dfy): the `#rrggbb` encoder and a parser that inverts it.
- `GradientHex` (gradient.dfy): the pipeline. `Extract` is the specification as a function. `ExtractGradientHex` is the method that runs the buffers step by step and is proved equal to `Extract`.

Three behaviours of the code are easy to misread. The model follows the code:

- The working height is `100 * h / w` in i32, which truncates; it is not rounded (3×2 gives 66, not 67). An image more than 100 times wider than tall gets height 0, and the resize primitive then fails.
- The decoder returns an empty image for a file it cannot read. Such a file is therefore reported as an empty image, not as a distinct decode error.
- A black image (luminance 0 everywhere) has a zero magnitude field. Its dominant angle is therefore 0 and its direction (1, 0), so the reported bearing is `(90 - 0) rem_euclid 360 = 90`, not 0 (see `GradientHex.FlatImage`). A solid image of any other colour is not flat to the gradient step. The Sobel filters pad the border with zeros (src/lib.rs:72 and 85), so its outer cells are strong and set the angle.

## Model

| member | source | states |
|---|---|---|
| `Preprocess.WorkingSize` | src/lib.rs:27-36 | An empty image (zero rows or columns) is `EmptyImage`. Otherwise `100 * rows` overflowing i32 is `Overflow`. Otherwise the result is always `Ok`: the width is 100 and the height is the truncated quotient, `cols*height <= 100*rows < cols*(height+1)`. |
| `Preprocess.HeightZeroIffVeryWide` | src/lib.rs:36 | The working height is 0 exactly when `100 * rows < cols`. |
| `Preprocess.DecoderSizedImagesDoNotOverflow` | src/lib.rs:36 | A non-empty image with at most 2^20 rows never overflows the i32 product. |
| `Preprocess.WorkingSizeExamples` | src/lib.rs:36 | 200×100 gives 100×50; 3×2 gives 100×66 (truncated). |
| `Common.IndexInGrid` | src/lib.rs:127-129 | Every cell `(y, x)` of a rows×cols grid has `y*cols + x < rows*cols`, and `(y, x)` is recovered by `/` and `%`. So distinct cells get distinct indices. |
| `Common.IndexOnto` | src/lib.rs:127-129 | Every buffer position below `rows*cols` is the index of a grid cell. With `IndexInGrid`, the scan visits each cell exactly once. |
| `Common.NonZeroCount` | src/lib.rs:114 | The number of non-zero cells never exceeds the buffer length. |
| `Common.CountTrue` | src/lib.rs:208 | The number of selected cells never exceeds the mask length. |
| `Common.CountTruePositive` | src/lib.rs:208-218 | A mask's count is positive if and only if some cell is selected. |
| `Common.Max` | src/lib.rs:92-100 | The result is an element of the field and no element exceeds it. |
| `Common.Min` | src/lib.rs:170-179 | The result is an element of the field and no element is below it. |
| `Estimator.StrongMask` | src/lib.rs:103-112 | The defining function of the binary threshold: 255 where the magnitude exceeds the threshold, 0 elsewhere, one cell per magnitude. `PeakIsStrong` and `FlatFieldHasAngleZero` characterise it. |
| `Estimator.StrongCells` | src/lib.rs:92-112 | The defining function of the strong-cell mask, thresholded at a tenth of the peak `Max`. `PeakIsStrong` characterises it. |
| `Estimator.DoubledSum` | src/lib.rs:123-138 | The defining function of the doubled-angle sum over the selected cells, in scan order. `ScanStep`, `Accumulate` and `DoubledSumBounded` characterise it. |
| `Estimator.DominantAngleOf` | src/lib.rs:114-147 | The defining function of the dominant angle: 0 below ten strong cells, otherwise half the atan2 of the averaged sums. `DominantAngle`, `DoubledSumBounded` and `FlatFieldHasAngleZero` characterise it. |
| `Estimator.Accumulate` | src/lib.rs:118-138 | The nested row-major scan returns the number of non-zero mask cells and the sums of `cos(2a)` and `sin(2a)` over exactly those cells. |
| `Estimator.ScanStep` | src/lib.rs:129-136 | Processing cell `idx` adds exactly that cell's contribution to the count and to both sums. |
| `Estimator.DominantAngle` | src/lib.rs:114-147 | The angle is 0 when `count_non_zero` reports fewer than 10 strong cells. Otherwise it is half the atan2 of the averaged sums. The `count == 0` fallback is shown unreachable (`assert false` there). |
| `Estimator.NonZeroCountPositive` | src/lib.rs:114 | A buffer with a non-zero cell has a positive count. |
| `Estimator.NonZeroCountNone` | src/lib.rs:114 | A buffer of zeros counts 0. |
| `Estimator.DoubledSumBounded` | src/lib.rs:131-144 | If cos and sin stay in [-1, 1], each sum lies within ±count. When the count is positive, each average lies in [-1, 1]. |
| `Estimator.PeakIsStrong` | src/lib.rs:92-114 | A magnitude field with a positive peak has at least one cell above `0.1 * max`. |
| `Estimator.FlatFieldHasAngleZero` | src/lib.rs:101-116 | An all-zero magnitude field (the field of a black image) selects no cell, so the dominant angle is 0. |
| `Compass.Trunc` | src/lib.rs:152 | The result is the integer part of q, rounded toward zero: `q - t` is in [0, 1) for q ≥ 0 and in (-1, 0] otherwise. |
| `Compass.FRem` | src/lib.rs:152 | The defining function of f64 `%`: x minus the truncated quotient times m. `FRemFullTurn` characterises it. |
| `Compass.RemEuclid` | src/lib.rs:152 | The defining function of f64 `rem_euclid`: the `%` remainder, plus abs(m) when it is negative. `RemEuclidFullTurn`, `RemEuclidUnique` and `RemEuclidIsFlooredRemainder` characterise it. |
| `Compass.FRemFullTurn` | src/lib.rs:152 | f64 `% 360` lies in (-360, 360), has the sign of x, and differs from x by whole turns. |
| `Compass.RemEuclidFullTurn` | src/lib.rs:152 | `rem_euclid(360)` lies in [0, 360) and differs from x by whole turns. |
| `Compass.RemEuclidUnique` | src/lib.rs:152 | Any r in [0, 360) that differs from x by whole turns is `rem_euclid(x, 360)`. |
| `Compass.RemEuclidIsFlooredRemainder` | src/lib.rs:152 | `rem_euclid(x, 360) == x - 360 * floor(x / 360)`. |
| `Compass.RemEuclidKeepsNormalised` | src/lib.rs:152 | An angle already in [0, 360) is unchanged, so normalising is idempotent. |
| `Compass.CompassAngle` | src/lib.rs:149-152 | The bearing lies in [0, 360) and differs from `90 - degrees(atan2(-dy, dx))` by whole turns. |
| `Projector.Project` | src/lib.rs:165 | The defining function of one cell's projection, `x*dx + y*dy`. `ProjectionFieldAt` and `FillProjection` characterise it. |
| `Projector.ProjectionField` | src/lib.rs:157-168 | The field has one cell per grid cell: `h * w` of them. |
| `Projector.ProjectionFieldAt` | src/lib.rs:162-166 | Cell `(y, x)` of the field, at index `y*w + x`, holds `x*dx + y*dy`. |
| `Projector.FillProjection` | src/lib.rs:157-168 | The nested loop leaves the buffer equal to the projection field: every cell written once, with its own projection. |
| `Projector.Thresholds` | src/lib.rs:181-182 | If `min <= max` then `min <= low <= high <= max`. If `min < max` then `low < high`. `low` is as far above `min` as `high` is below `max`. |
| `Projector.FieldBand` | src/lib.rs:170-182 | The defining function of the band limits of a field, taken from its `Min` and `Max`. `Thresholds` and `BandsNonEmpty` characterise it. |
| `Projector.StartMask` | src/lib.rs:184-190 | The defining function of the start band: the cells with `t <= low` (the inclusive range from minus infinity). `BandsNonEmpty`, `BandsDisjoint` and `ConstantFieldFillsBothBands` characterise it. |
| `Projector.EndMask` | src/lib.rs:192-198 | The defining function of the end band: the cells with `t >= high`. `BandsNonEmpty`, `BandsDisjoint` and `ConstantFieldFillsBothBands` characterise it. |
| `Projector.BandsDisjoint` | src/lib.rs:181-198 | When the field is not constant, no cell has both `t <= low` and `t >= high`. |
| `Projector.BandsNonEmpty` | src/lib.rs:170-218 | On a non-empty field each band selects at least one cell (an argmin and an argmax), so the black fallback is never taken. |
| `Projector.ConstantFieldFillsBothBands` | src/lib.rs:181-198 | When min equals max, every cell is in both bands. |
| `Sampler.MaskedSum` | src/lib.rs:201 | The defining function of one channel summed over the selected pixels. `MaskedSumBounds` and `MaskedSumSolid` characterise it. |
| `Sampler.MaskedMean` | src/lib.rs:201 | The defining function of the masked mean, each channel's sum divided by the selected count. `MeanInChannelRange` and `SolidMean` characterise it. |
| `Sampler.Clamp` | src/lib.rs:202-204 | The result is in [0, 255]. x below 0 gives 0, x above 255 gives 255, and x in range is returned unchanged. |
| `Sampler.Round` | src/lib.rs:202-204 | The result is the nearest integer, with halves rounded away from zero. |
| `Sampler.Quantize` | src/lib.rs:202-204 | The result is a byte within half a unit of the clamped value, halves rounding up. |
| `Sampler.QuantizeMonotone` | src/lib.rs:202-204 | Quantisation preserves order. |
| `Sampler.QuantizeByte` | src/lib.rs:202-204 | A byte value quantises to itself. |
| `Sampler.QuantizeMean` | src/lib.rs:200-206 | Each channel of the pixel is the quantised mean of that channel, in blue, green, red order. |
| `Sampler.BandColor` | src/lib.rs:200-218 | The colour is a valid pixel. A mask that selects nothing yields black (0, 0, 0). For a non-empty mask over 8-bit pixels, each channel is the integer nearest to that channel's masked mean (within half a unit). |
| `Sampler.QuantizedMeanIsNearest` | src/lib.rs:200-206 | Over 8-bit pixels, each channel of the quantised mean is within half a unit of the mean of that channel. |
| `Sampler.MaskedSumBounds` | src/lib.rs:201 | A channel summed over n selected 8-bit pixels lies in [0, 255·n]. |
| `Sampler.MeanInChannelRange` | src/lib.rs:201-204 | The masked mean of 8-bit pixels is already in [0, 255], so the clamp never changes it. |
| `Sampler.MaskedSumSolid` | src/lib.rs:201 | Over a one-colour image the masked sum is count × channel. |
| `Sampler.SolidMean` | src/lib.rs:201 | Over a one-colour image the mean of a non-empty mask is that colour. |
| `Sampler.SolidBandColor` | src/lib.rs:200-218 | A one-colour image yields its own colour for every non-empty band. |
| `HexColor.HexDigit` | src/lib.rs:220-224 | Each nibble becomes a lowercase hexadecimal digit. |
| `HexColor.DigitValue` | src/lib.rs:220-224 | A digit value exists if and only if the character is a lowercase hex digit, and it lies in [0, 16). |
| `HexColor.DigitRoundTrip` | src/lib.rs:220-224 | Reading back the digit of a nibble gives the nibble. |
| `HexColor.DigitValueRoundTrip` | src/lib.rs:220-224 | Writing the value of a lowercase digit gives the digit. |
| `HexColor.Hex2` | src/lib.rs:220-224 | `{:02x}` of a byte is exactly two lowercase hex digits. |
| `HexColor.Format` | src/lib.rs:220-224 | The string is `#` followed by six lowercase hex digits, so its length is 7. |
| `HexColor.ParseByte` | src/lib.rs:220-224 | Two characters parse if and only if both are lowercase hex digits, and the result is a byte. |
| `HexColor.Parse` | src/lib.rs:220-224 | A string parses if and only if it has the colour-string shape, and the result is a valid pixel. |
| `HexColor.ByteRoundTrip` | src/lib.rs:220-224 | Parsing the two digits of a byte gives the byte. |
| `HexColor.ParseFormat` | src/lib.rs:220-224 | `Parse(Format(p)) == Some(p)`: red, green and blue come back in place (BGR indices 2, 1, 0). |
| `HexColor.Hex2OfParsed` | src/lib.rs:220-224 | Formatting a parsed digit pair gives the same pair. |
| `HexColor.FormatParse` | src/lib.rs:220-224 | Every colour string is the format of the pixel it parses to, so the format is one-to-one onto colour strings. |
| `GradientHex.Extract` | src/lib.rs:20-231 | The defining function of the extraction, stage by stage. `ExtractGradientHex`, `ExtractErrors`, `ExtractOutputShape`, `ExtractNeverFallsBack` and `FlatImage` characterise it. |
| `GradientHex.ExtractGradientHex` | src/lib.rs:20-231 | The method, with its buffers, returns exactly what the stage-by-stage specification `Extract` gives. |
| `GradientHex.ExtractErrors` | src/lib.rs:27-40 | An empty image gives `EmptyImage`. Extraction fails if and only if the image is empty, `100*rows` overflows i32, or `100*rows < cols`. |
| `GradientHex.ExtractOutputShape` | src/lib.rs:220-230 | A result has two `#rrggbb` lowercase colour strings and a bearing in [0, 360). |
| `GradientHex.ExtractNeverFallsBack` | src/lib.rs:208-218 | Both bands are non-empty, so both colours are quantised masked means and never the black fallback. |
| `GradientHex.FlatImage` | src/lib.rs:101-224 | A zero magnitude field (in the source, a black image) with one colour after blurring yields bearing 90 and that colour as both start and end. This assumes cos, sin, atan2 and degrees are exact at 0. |

## Left out

- Image decoding (`imread`) and the path-to-string conversion are file I/O. The decoded image is an input. A file that cannot be read arrives as an empty image.
- The OpenCV primitives `resize`, `gaussian_blur`, `cvt_color`, `sobel` and `cart_to_polar` are external library code. Their outputs (blurred image, magnitude field, angle field) are inputs of working size (`GradientHex.Intermediates`).
- `threshold`, `convert_to`, `in_range`, `min_max_loc`, `count_non_zero` and `mean` are not reimplemented. Each is stated by its defining result: `StrongMask`, `StartMask`, `EndMask`, `Min`, `Max`, `NonZeroCount`, `CountTrue` and `MaskedMean`.
- `cos`, `sin`, `atan2` and `to_degrees` are floating-point library functions. They are uninterpreted fields of `Common.Trig`, and nothing is proved about the accuracy of the dominant direction.
- Floating point: all `f32`/`f64` values are exact reals. This drops f32 rounding in the projection and the f64 case where `rem_euclid` rounds up to exactly 360.0.
- `Compass.RemEuclid`: its range and whole-turn promises are proved for the modulus 360 only, the one modulus the extractor uses.
- The float-to-`u8` cast saturates and maps NaN to 0. Neither case arises after clamping and rounding in exact arithmetic, so the cast is the identity here.
- `Preprocess.WorkingSize`: an i32 overflow of `100 * rows` is modelled as an error, as in a checked build. Release-build wrap-around is not modelled. Decodable images (at most 2^20 rows) never reach it.
- `Mat::empty` is also true for a matrix with no data. The model treats empty as zero rows or zero columns.
- `anyhow` error contexts and the `Debug` derive carry no behaviour. Errors are the three kinds in `Common.Error`.
