# pixelmatch in Dafny

A model of the comparison core of pixelmatch-rs, a pixel-level image comparison library. It
takes two RGBA images and counts the pixels that differ perceptibly. Optionally, it also paints
a diff image.

The library decodes both images from PNG. The model starts from the decoded pixels:

- An `Image` (module `Pixels`) is a well-formed raster of `Rgba` byte quadruples.
- Its dimensions are at most 2^31 - 1, so the `as i32` casts in the neighbour scans never wrap.

The modules follow the structure of `src/lib.rs`:

- `Pixels`: images and pixel access.
  - The saturating `i32` addition and the clamping of neighbour coordinates to the image.
  - The 3×3 window of eight neighbours, visited in the source's loop order: `relative_x` outer, `relative_y` inner.
- `Metric`: the colour arithmetic.
  - `blend` composites a channel over white.
  - `rgb2y` / `rgb2i` / `rgb2q` convert to YIQ.
  - `color_delta` gives the signed, weighted YIQ distance, or only the brightness difference.
  - The saturating `as u8` cast, and the gray background pixel of `draw_gray_pixel`.
- `AntiAlias`:
  - `has_many_siblings`: are three or more neighbours identical to the pixel?
  - `antialiased`: a single pass over the window. It counts brightness-equal neighbours, returns early at the third, and remembers the first darkest and the first brightest neighbour.
- `Comparison`: `pixelmatch` itself.
  - The two dimension checks and the identical-images fast path.
  - The per-pixel classification of the main loop (`Classify`: match, anti-aliased or counted difference), the diff count and the painted output.
- `Tally` and `Optional`: helpers for counting flags, `Option` and `Result`.

Real numbers stand for `f32`.

The output image is a grid of `Option<Rgba>`:

- `None` is a pixel the algorithm never painted. It stays transparent black in the blank `new_rgba8` image.
- The whole rendering is stated declaratively by `Rendering` and `Renders`. `Pixelmatch` proves that its loop produces exactly that rendering.

About the alternative diff colour:

- `diff_color_alt` is used when the signed delta is negative.
- By `color_delta` (`src/lib.rs:313-317`), that happens exactly when the first image's pixel is the brighter one: Y1 > Y2, or "dark on light" in the option's own comment at `src/lib.rs:17`.
- The model follows the code, and `DiffColourFollowsBrightness` states the code's direction.

Modelling the scan order revealed a fact about corners:

- A corner pixel sees itself three times in its clamped window.
- So `has_many_siblings` always holds there, and `antialiased` never does.
- See `CornerHasManySiblings` and `CornerNeverAntialiased`.

## Model

| member | source | states |
|---|---|---|
| Pixels.SaturatingAddI32 | src/lib.rs:179-180 | `i32::saturating_add` stays in the i32 range: the exact sum when it fits, otherwise the bound it overflowed |
| Pixels.ClampAxis | src/lib.rs:179-186 | a neighbour coordinate always lies on the image: the shifted coordinate when that is on the image, otherwise 0 or size - 1 |
| Pixels.WindowOffsetsAreTheNestedLoops | src/lib.rs:172-176 | the eight offsets are exactly the non-zero offsets of the two nested `-1..=1` loops, in column-major order |
| Pixels.Neighbours | src/lib.rs:172-187 | the window has eight entries, each an in-bounds pixel, each the clamped offset of its loop step |
| Pixels.InteriorNeighbours | src/lib.rs:179-186 | away from the border no clamping happens: the k-th neighbour is the pixel shifted by the k-th offset |
| Pixels.CornerSelfIndices | src/lib.rs:179-186 | at a corner, three distinct window positions clamp back onto the corner pixel itself |
| Metric.Blend | src/lib.rs:341-344 | weight 0 gives white and weight 1 the channel itself; `BlendLightens` bounds the weights in between |
| Metric.Rgb2Y | src/lib.rs:346-348 | its weights sum to 1.00000001, so a gray level c has brightness 1.00000001 × c |
| Metric.Rgb2I | src/lib.rs:349-351 | its weights sum to 0, so a gray pixel has no in-phase chroma |
| Metric.Rgb2Q | src/lib.rs:352-354 | its weights sum to 0, so a gray pixel has no quadrature chroma |
| Metric.OverWhite | src/lib.rs:284-296 | compositing over white leaves an opaque pixel unchanged, turns a fully transparent one white, and only ever lightens a channel |
| Metric.BlendLightens | src/lib.rs:341-344 | `blend` of a channel in [0, 255] with a weight in [0, 1] lies between the channel and white |
| Metric.YiqDistanceSign | src/lib.rs:307-310 | the weighted YIQ distance is non-negative, symmetric, and positive whenever the brightnesses differ |
| Metric.ColorDelta | src/lib.rs:269-318 | specified by `ColorDeltaSpec` and `ColorDeltaSwap` (next rows) |
| Metric.ColorDeltaSpec | src/lib.rs:269-318 | bit-identical pixels give 0; the brightness-only delta is Y1 - Y2; the full delta has the YIQ distance as magnitude and is negative exactly when the first pixel is brighter |
| Metric.ColorDeltaSwap | src/lib.rs:298-317 | swapping the pixels negates the brightness delta, keeps the magnitude of the full delta, and negates the full delta when brightnesses differ |
| Metric.TransparentLooksWhite | src/lib.rs:280-296 | every fully transparent pixel differs from opaque white in its bytes, yet has delta 0 against it in both modes |
| Metric.AsU8 | src/lib.rs:331-334 | the `as u8` cast saturates at 0 and 255 and otherwise truncates toward zero |
| Metric.AsU8Monotone | src/lib.rs:331-334 | the `as u8` cast preserves order |
| Metric.GrayValue | src/lib.rs:331-334 | specified by `BlendCastLightens` and `GrayBackgroundLightens` (below) |
| Metric.GrayPixel | src/lib.rs:331-335 | the background pixel has the same value in red, green, blue and alpha |
| Metric.GrayWeightBounds | src/lib.rs:333 | for alpha in [0, 1] the weight `alpha * a / 255` lies in [0, 1]; it is 0 when either factor is 0 and 1 for full alpha on an opaque pixel |
| Metric.BlendCastLightens | src/lib.rs:331-334 | blending a non-negative brightness toward white never lowers its byte value; weight 0 gives white and weight 1 the unblended value |
| Metric.GrayBackgroundLightens | src/lib.rs:331-334 | the gray background is never darker than the pixel's own brightness; it is white when alpha or the pixel's opacity is 0, and the plain brightness when both are full |
| AntiAlias.SiblingScan | src/lib.rs:238-264 | specified by `SiblingScanCounts` (next row) |
| AntiAlias.SiblingScanCounts | src/lib.rs:238-264 | the early-exit loop over the window returns true exactly when three or more flags hold |
| AntiAlias.HasManySiblings | src/lib.rs:233-265 | `has_many_siblings` holds exactly when at least three of the eight window positions equal the centre |
| AntiAlias.CornerHasManySiblings | src/lib.rs:238-264 | every corner pixel has many siblings, because it sees itself three times |
| AntiAlias.BrightnessScan | src/lib.rs:172-217 | any position the scan remembers is one of the window's neighbours |
| AntiAlias.ScanStep | src/lib.rs:190-215 | one loop step either keeps each remembered position or replaces it by the current neighbour; `ScanStepZero`, `ScanStepMin`, `ScanStepMax` and `ScanStepKeep` state each branch |
| AntiAlias.ScanStepZero | src/lib.rs:191-198 | a zero delta, when it is not the third, only advances the zero count, and the invariant holds one step further |
| AntiAlias.ScanStepMin | src/lib.rs:201-208 | a delta below the running minimum makes the current neighbour the first least delta so far |
| AntiAlias.ScanStepMax | src/lib.rs:210-215 | a delta above the running maximum (and not below the minimum) makes the current neighbour the first greatest delta so far |
| AntiAlias.ScanStepKeep | src/lib.rs:201-215 | a non-zero delta inside [min, max] leaves the remembered extremes unchanged and the invariant holds |
| AntiAlias.ScanStepKeepsInvariant | src/lib.rs:190-215 | every loop step that does not return early keeps the scan invariant |
| AntiAlias.BrightnessScanKeepsInvariant | src/lib.rs:172-217 | the loop returns early exactly when more than two deltas are zero, and otherwise ends with the invariant over the whole window |
| AntiAlias.BrightnessScanSpec | src/lib.rs:162-217 | the early return happens exactly when more than two deltas are zero; otherwise min ≤ 0 ≤ max, min < 0 exactly when some delta is negative, and the remembered positions are those of the first least and first greatest delta |
| AntiAlias.ScanFoundMinimum | src/lib.rs:201-208 | after a full scan, min is negative exactly when a first least negative delta exists, and then min and its position are that delta and its neighbour |
| AntiAlias.ScanFoundMaximum | src/lib.rs:210-215 | after a full scan, max is positive exactly when a first greatest positive delta exists, and then max and its position are that delta and its neighbour |
| AntiAlias.Antialiased | src/lib.rs:154-230 | specified by `AntialiasedCharacterisation` (next row) |
| AntiAlias.AntialiasedCharacterisation | src/lib.rs:154-230 | `antialiased` holds exactly when at most two neighbours match the centre's brightness, some neighbour is darker and some brighter, and the first darkest or the first brightest neighbour has many siblings in both images |
| AntiAlias.FlatNeighbourhoodNotAntialiased | src/lib.rs:191-196 | three or more neighbours with the centre's brightness rule anti-aliasing out |
| AntiAlias.OneSidedNotAntialiased | src/lib.rs:219-222 | without both a darker and a brighter neighbour the pixel is not anti-aliased |
| AntiAlias.CornerNeverAntialiased | src/lib.rs:172-196 | a corner pixel is never anti-aliased: its three self-comparisons are zero deltas |
| Comparison.DefaultOptions | src/lib.rs:23-35 | the defaults of `Options::default()`; with the default threshold 0.1 the accepted squared distance of line 97 is 352.15 |
| Comparison.MaxDelta | src/lib.rs:96-98 | the accepted squared distance `35215 * threshold²` is never negative |
| Comparison.MaxDeltaMonotone | src/lib.rs:96-98 | a threshold of larger magnitude never gives a smaller accepted distance |
| Comparison.Classify | src/lib.rs:101-121 | specified by `ClassifySpec` (next row) |
| Comparison.ClassifySpec | src/lib.rs:101-143 | a pair matches exactly when its YIQ distance is within the accepted distance; beyond it, it is anti-aliasing exactly when detection is on and either image's pixel is anti-aliased against the other, and a counted difference otherwise; a counted pair is negative exactly when image 1's pixel is brighter; equal pixels always match |
| Comparison.BlankCanvas | src/lib.rs:64-70 | the fresh output image has the images' dimensions and no painted pixel |
| Comparison.PutPixel | src/lib.rs:125 | `put_pixel` sets exactly one pixel and leaves the shape and every other pixel unchanged |
| Comparison.DrawGrayPixel | src/lib.rs:320-339 | `draw_gray_pixel` fails with the out-of-bounds error exactly when the pixel is off the output; otherwise it puts the gray pixel there |
| Comparison.RenderingRenders | src/lib.rs:99-143 | every pixel of the rendering is what the main loop paints for that pixel |
| Comparison.ImagesIdentical | src/lib.rs:72-79 | the identity scan returns true exactly when every pixel pair is equal |
| Comparison.PaintBackground | src/lib.rs:82-88 | the fast path paints every output pixel with the gray background of image 1's pixel |
| Comparison.ComparePixel | src/lib.rs:101-142 | one main-loop step counts the pixel exactly when it is classified a difference, and changes only that output pixel, to its rendered value |
| Comparison.CompareRow | src/lib.rs:101-143 | one row of the main loop adds that row's difference count and paints that row of the rendering |
| Comparison.ComparePixels | src/lib.rs:96-143 | the main loop returns the number of counted differences and, when output was requested, exactly the rendering |
| Comparison.Pixelmatch | src/lib.rs:37-150 | unequal sizes fail first; a given width and height must both match; otherwise the result is the difference count, the same whether or not output is requested, and the output is present exactly when requested and renders every pixel; identical images give 0 and, outside mask mode, an all-gray output |
| Comparison.IdenticalCell | src/lib.rs:82-88 | an equal pixel pair is a match and is painted gray (or left blank in mask mode), as on the fast path |
| Comparison.IdenticalNoDiff | src/lib.rs:72-94 | identical images have difference count 0, so the fast path agrees with the main loop |
| Comparison.SelfComparisonIsZero | src/lib.rs:72-94 | comparing an image with itself gives 0 whatever the options |
| Comparison.DiffCountBounded | src/lib.rs:99-137 | the difference count never exceeds width × height |
| Comparison.DiffCountPointwise | src/lib.rs:101-137 | if every pixel counted under one set of options is also counted under another, the first count is at most the second |
| Comparison.IncludeAaNeverFewer | src/lib.rs:103-121 | turning anti-aliasing detection off (`include_aa`) never lowers the count |
| Comparison.IncludeAaCountsEveryExcess | src/lib.rs:103-121 | with `include_aa` a pixel is counted exactly when its YIQ distance exceeds the accepted distance |
| Comparison.ThresholdMonotone | src/lib.rs:96-103 | a threshold of larger magnitude never raises the count |
| Comparison.DiffMaskKeepsCount | src/lib.rs:101-137 | `diff_mask` changes only what is painted: the count is the same with or without it |
| Comparison.ZeroThresholdCountsNoFewer | src/lib.rs:96-137 | for any two images, the count at threshold 0.0 (with or without `diff_mask`, other options default) is at least the count at threshold 0.05 |
| Comparison.MaskDrawsOnlyDifferences | src/lib.rs:122-142 | in mask mode a pixel is painted exactly when it is counted; otherwise every pixel is painted |
| Comparison.DiffColourFollowsBrightness | src/lib.rs:122-136 | a counted pixel gets `diff_color_alt` (falling back to `diff_color`) exactly when image 1's pixel is brighter, else `diff_color`; an anti-aliased pixel outside mask mode gets `aa_color` |

## Left out

- PNG decoding of the inputs and encoding of the output (`PngDecoder`, `write_to`): the model starts from decoded pixels and returns the output grid. Their I/O errors are not modelled.
- The `output` writer: it is modelled as a flag saying whether output was requested.
- `src/main.rs`: the command-line front end is not part of this model.
- The integration tests: they compare PNG fixtures, which are not part of this model. Two of their expectations contradict the code; see "Findings".
- Error messages: the three error strings become the `Error` constructors `SizesDiffer`, `DataSizeMismatch` and `PixelOutOfBounds`.
- Floating point: every `f32` computation is done on exact reals. So rounding, NaN and infinities are not modelled. With `f32`, two nearly equal results can round differently from the exact values.
- Metric.AsU8: models the saturating cast on finite values only. The NaN-to-0 case cannot arise on reals.
- Image sizes: images wider or taller than 2^31 - 1 are excluded. The `width as i32 - 1` cast would wrap for them, and PNG does not allow them.
- The constant 35215: the source's comment says it is the largest possible YIQ distance. The model uses it as given and does not prove that bound.
- The threshold and alpha options: the source documents the range 0 to 1 but does not enforce it, and the model accepts any real.
- Metric.GrayBackgroundLightens: stated only for alpha in [0, 1], the documented range. Outside it the background can be darker than the pixel.
- Metric.GrayWeightBounds: stated only for alpha in [0, 1]. Outside it the weight can leave [0, 1].
- The `?` after `draw_gray_pixel` in both loops: the output always has the images' dimensions there, so the error path is unreachable. The model proves that and does not carry the error through.
- The `u8` counter `zeroes` and the `usize` counter `diff`: they cannot overflow (at most 3, and at most width × height). They are modelled as unbounded naturals.

## Findings

| source | as written | input that shows it | evidently intended | confidence | as-written member | corrected member |
|---|---|---|---|---|---|---|
| tests/integration_test.rs:37-72 | the test at line 61 expects 0 differences for `img_1a` against `img_1b` at threshold 0.0 with `diff_mask`; the test at line 37 expects 143 for the same pair at threshold 0.05 | the fixture pair `img_1a` / `img_1b`: the count at 0.0 is at least the count at 0.05, so the two expectations (0 and 143) cannot both hold | a pair whose expected count is 0 at threshold 0.0, for instance an image compared with itself | not executed | Comparison.ZeroThresholdCountsNoFewer | Comparison.SelfComparisonIsZero |
| tests/integration_test.rs:120-141 | the test at line 131 expects 0 differences for `img_6a` against `img_6b` at threshold 0.0; the test at line 120 expects 51 for the same pair at threshold 0.05 | the fixture pair `img_6a` / `img_6b`: the count at 0.0 is at least the count at 0.05, so the two expectations (0 and 51) cannot both hold | a pair whose expected count is 0 at threshold 0.0, for instance an image compared with itself | not executed | Comparison.ZeroThresholdCountsNoFewer | Comparison.SelfComparisonIsZero |
