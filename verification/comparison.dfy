/** `pixelmatch`: the dimension gate, the identical-image fast path, the per-pixel classifier,
    the diff counter and the rendering of the optional output image. */
module Comparison {
  import opened Optional
  import opened Pixels
  import opened Metric
  import opened AntiAlias

  /** `Options`; `threshold` and `alpha` are real numbers in place of `f32`. */
  datatype Options = Options(
    threshold: real,
    includeAa: bool,
    alpha: real,
    aaColor: Rgba,
    diffColor: Rgba,
    diffColorAlt: Option<Rgba>,
    diffMask: bool)

  /** `Options::default()`. */
  function DefaultOptions(): (o: Options)
    ensures MaxDelta(o.threshold) == 352.15
  {
    SqIsProduct(0.1);
    Options(0.1, false, 0.1, Rgba(255, 255, 0, 255), Rgba(255, 0, 0, 255), None, false)
  }

  /** The errors `pixelmatch` itself raises (decoding and encoding errors are not modelled). */
  datatype Error =
    | SizesDiffer       // "Image sizes do not match."
    | DataSizeMismatch  // "Image data size does not match width/height."
    | PixelOutOfBounds  // "Pixel is not in bounds of output."

  /** `35215 * threshold * threshold`: the largest YIQ distance still counted as a match. */
  function MaxDelta(threshold: real): (m: real)
    ensures m >= 0.0
  {
    SquareSign(threshold);
    MaxYiqDistance * Sq(threshold)
  }

  /** A threshold of larger magnitude tolerates at least as much. */
  lemma MaxDeltaMonotone(t1: real, t2: real)
    requires Abs(t1) <= Abs(t2)
    ensures MaxDelta(t1) <= MaxDelta(t2)
  {
    SquareMonotone(t1, t2);
  }

  /** How one pixel pair is classified. `Different` records whether the signed delta was
      negative, which selects the alternative diff colour. */
  datatype Verdict = Match | AntiAliased | Different(negative: bool)

  /** The classification step of the main loop at `(x, y)`; `ClassifySpec` states what it means. */
  function Classify(img1: Image, img2: Image, opts: Options, x: nat, y: nat): Verdict
    requires SameDimensions(img1, img2) && InBounds(img1, x, y)
  {
    var delta := ColorDelta(At(img1, x, y), At(img2, x, y), false);
    if Abs(delta) > MaxDelta(opts.threshold) then
      if !opts.includeAa && (Antialiased(img1, x, y, img2) || Antialiased(img2, x, y, img1)) then
        AntiAliased
      else
        Different(delta < 0.0)
    else
      Match
  }

  /** A pair matches exactly when its YIQ distance is within the threshold. Beyond it, the pair
      is anti-aliasing exactly when detection is on and either image's pixel is anti-aliased
      against the other image, and a counted difference otherwise. A counted pair's delta is
      negative exactly when the first image's pixel is brighter; an equal pair always matches. */
  lemma ClassifySpec(img1: Image, img2: Image, opts: Options, x: nat, y: nat)
    requires SameDimensions(img1, img2) && InBounds(img1, x, y)
    ensures var v := Classify(img1, img2, opts, x, y);
      var beyond := YiqDistance(At(img1, x, y), At(img2, x, y)) > MaxDelta(opts.threshold);
      var smoothed := !opts.includeAa && (Antialiased(img1, x, y, img2) || Antialiased(img2, x, y, img1));
      && (v.Match? <==> !beyond)
      && (v.AntiAliased? <==> beyond && smoothed)
      && (v.Different? <==> beyond && !smoothed)
      && (v.Different? ==> (v.negative <==> Luma(At(img1, x, y)) > Luma(At(img2, x, y))))
      && (At(img1, x, y) == At(img2, x, y) ==> v == Match)
  {
    ColorDeltaSpec(At(img1, x, y), At(img2, x, y));
  }

  /** The diff colour: `diff_color_alt.unwrap_or(diff_color)` for a negative delta, else `diff_color`. */
  function DiffColor(opts: Options, negative: bool): Rgba {
    if negative then opts.diffColorAlt.UnwrapOr(opts.diffColor) else opts.diffColor
  }

  /** What the main loop leaves at a pixel of the output, `None` being the untouched blank pixel:
      the gray background for a match and `aa_color` for anti-aliasing (neither in mask mode),
      the diff colour for a counted difference. */
  function Paint(opts: Options, v: Verdict, p1: Rgba): Option<Rgba> {
    match v
    case Match => if opts.diffMask then None else Some(GrayPixel(p1, opts.alpha))
    case AntiAliased => if opts.diffMask then None else Some(opts.aaColor)
    case Different(negative) => Some(DiffColor(opts, negative))
  }

  /** The rendered output pixel at `(x, y)`. */
  function Cell(img1: Image, img2: Image, opts: Options, x: nat, y: nat): Option<Rgba>
    requires SameDimensions(img1, img2) && InBounds(img1, x, y)
  {
    Paint(opts, Classify(img1, img2, opts, x, y), At(img1, x, y))
  }

  /** The number of pixels among the first `n` of row `y` that are classified `Different`. */
  function RowCount(img1: Image, img2: Image, opts: Options, y: nat, n: nat): (k: nat)
    requires SameDimensions(img1, img2) && y < img1.height && n <= img1.width
    ensures k <= n
  {
    if n == 0 then 0
    else RowCount(img1, img2, opts, y, n - 1) + (if Classify(img1, img2, opts, n - 1, y).Different? then 1 else 0)
  }

  lemma RowCountStep(img1: Image, img2: Image, opts: Options, y: nat, x: nat, counted: bool)
    requires SameDimensions(img1, img2) && y < img1.height && x < img1.width
    requires counted <==> Classify(img1, img2, opts, x, y).Different?
    ensures RowCount(img1, img2, opts, y, x + 1) == RowCount(img1, img2, opts, y, x) + if counted then 1 else 0
  {
  }

  /** The number of counted differences in the first `m` rows. */
  function CountRows(img1: Image, img2: Image, opts: Options, m: nat): nat
    requires SameDimensions(img1, img2) && m <= img1.height
  {
    if m == 0 then 0
    else CountRows(img1, img2, opts, m - 1) + RowCount(img1, img2, opts, m - 1, img1.width)
  }

  /** The number of pixels classified `Different`: what `pixelmatch` returns. */
  function DiffCount(img1: Image, img2: Image, opts: Options): nat
    requires SameDimensions(img1, img2)
  {
    CountRows(img1, img2, opts, img1.height)
  }

  /** The output image: `None` marks a pixel never written. */
  type Canvas = seq<seq<Option<Rgba>>>

  predicate Shaped(c: Canvas, width: nat, height: nat) {
    |c| == height && forall y :: 0 <= y < height ==> |c[y]| == width
  }

  /** `DynamicImage::new_rgba8(width, height)`: every pixel untouched. */
  function BlankCanvas(width: nat, height: nat): (c: Canvas)
    ensures Shaped(c, width, height)
    ensures forall y, x :: 0 <= y < height && 0 <= x < width ==> c[y][x] == None
  {
    seq(height, y => seq(width, x => None))
  }

  /** `put_pixel`: overwrite one pixel; every other pixel keeps its value. */
  function PutPixel(c: Canvas, x: nat, y: nat, color: Rgba): (r: Canvas)
    requires y < |c| && x < |c[y]|
    ensures |r| == |c| && forall yy :: 0 <= yy < |c| ==> |r[yy]| == |c[yy]|
    ensures r[y][x] == Some(color)
    ensures forall yy, xx :: 0 <= yy < |c| && 0 <= xx < |c[yy]| && (yy, xx) != (y, x) ==> r[yy][xx] == c[yy][xx]
  {
    c[y := c[y][x := Some(color)]]
  }

  /** `draw_gray_pixel`: fails when `(x, y)` is outside the output, otherwise writes the gray
      background pixel there. */
  function DrawGrayPixel(c: Canvas, x: nat, y: nat, p: Rgba, alpha: real): (r: Result<Canvas, Error>)
    ensures r.Err? <==> !(y < |c| && x < |c[y]|)
    ensures r.Err? ==> r.error == PixelOutOfBounds
    ensures r.Ok? ==> r.value == PutPixel(c, x, y, GrayPixel(p, alpha))
  {
    if y < |c| && x < |c[y]| then Ok(PutPixel(c, x, y, GrayPixel(p, alpha))) else Err(PixelOutOfBounds)
  }

  /** Every pixel of `c` is the one the comparison renders. */
  predicate Renders(c: Canvas, img1: Image, img2: Image, opts: Options)
    requires SameDimensions(img1, img2)
  {
    && Shaped(c, img1.width, img1.height)
    && forall y, x :: 0 <= y < img1.height && 0 <= x < img1.width ==> c[y][x] == Cell(img1, img2, opts, x, y)
  }

  /** The first `n` rendered pixels of row `y`. */
  function RenderRow(img1: Image, img2: Image, opts: Options, y: nat, n: nat): (row: seq<Option<Rgba>>)
    requires SameDimensions(img1, img2) && y < img1.height && n <= img1.width
    ensures |row| == n
  {
    if n == 0 then [] else RenderRow(img1, img2, opts, y, n - 1) + [Cell(img1, img2, opts, n - 1, y)]
  }

  /** The first `m` rendered rows. */
  function RenderRows(img1: Image, img2: Image, opts: Options, m: nat): (rows: Canvas)
    requires SameDimensions(img1, img2) && m <= img1.height
    ensures Shaped(rows, img1.width, m)
  {
    if m == 0 then [] else RenderRows(img1, img2, opts, m - 1) + [RenderRow(img1, img2, opts, m - 1, img1.width)]
  }

  /** The complete rendering, as one canvas. */
  function Rendering(img1: Image, img2: Image, opts: Options): (c: Canvas)
    requires SameDimensions(img1, img2)
    ensures Shaped(c, img1.width, img1.height)
  {
    RenderRows(img1, img2, opts, img1.height)
  }

  lemma {:induction false} RenderRowAt(img1: Image, img2: Image, opts: Options, y: nat, n: nat, x: nat)
    requires SameDimensions(img1, img2) && y < img1.height && x < n <= img1.width
    ensures RenderRow(img1, img2, opts, y, n)[x] == Cell(img1, img2, opts, x, y)
  {
    hide Cell, Classify;
    if x < n - 1 {
      RenderRowAt(img1, img2, opts, y, n - 1, x);
    }
  }

  lemma {:induction false} RenderRowsAt(img1: Image, img2: Image, opts: Options, m: nat, y: nat)
    requires SameDimensions(img1, img2) && y < m <= img1.height
    ensures RenderRows(img1, img2, opts, m)[y] == RenderRow(img1, img2, opts, y, img1.width)
  {
    hide Cell, Classify;
    if y < m - 1 {
      RenderRowsAt(img1, img2, opts, m - 1, y);
    }
  }

  /** The rendering holds, at every position, the pixel the comparison draws there. */
  lemma RenderingRenders(img1: Image, img2: Image, opts: Options)
    requires SameDimensions(img1, img2)
    ensures Renders(Rendering(img1, img2, opts), img1, img2, opts)
  {
    forall y, x | 0 <= y < img1.height && 0 <= x < img1.width
      ensures Rendering(img1, img2, opts)[y][x] == Cell(img1, img2, opts, x, y)
    {
      RenderRowsAt(img1, img2, opts, img1.height, y);
      RenderRowAt(img1, img2, opts, y, img1.width, x);
    }
  }

  /** Pixels before `(x, y)` in row-major order hold their value in `target`; the rest are
      untouched. */
  ghost predicate PaintedUpTo(c: Canvas, target: Canvas, width: nat, height: nat, x: nat, y: nat) {
    && Shaped(c, width, height)
    && Shaped(target, width, height)
    && forall yy, xx :: 0 <= yy < height && 0 <= xx < width ==>
         c[yy][xx] == (if yy < y || (yy == y && xx < x) then target[yy][xx] else None)
  }

  /** The result of a successful comparison: the diff count and, when requested, the output. */
  datatype Report = Report(diff: nat, output: Option<Canvas>)

  /** The fast-path scan: are all pixel pairs equal? Stops at the first unequal pair. */
  method ImagesIdentical(img1: Image, img2: Image) returns (identical: bool)
    requires SameDimensions(img1, img2)
    ensures identical <==> Identical(img1, img2)
  {
    var y := 0;
    while y < img1.height
      invariant 0 <= y <= img1.height
      invariant forall yy, xx :: 0 <= yy < y && 0 <= xx < img1.width ==> At(img1, xx, yy) == At(img2, xx, yy)
    {
      var x := 0;
      while x < img1.width
        invariant 0 <= x <= img1.width
        invariant forall yy, xx :: 0 <= yy < y && 0 <= xx < img1.width ==> At(img1, xx, yy) == At(img2, xx, yy)
        invariant forall xx :: 0 <= xx < x ==> At(img1, xx, y) == At(img2, xx, y)
      {
        if At(img1, x, y) != At(img2, x, y) {
          return false;
        }
        x := x + 1;
      }
      y := y + 1;
    }
    return true;
  }

  /** The fast path's drawing loop: the gray background of `img` over the whole output. */
  method PaintBackground(img: Image, alpha: real, blank: Canvas) returns (out: Canvas)
    requires blank == BlankCanvas(img.width, img.height)
    ensures Shaped(out, img.width, img.height)
    ensures forall y, x :: 0 <= y < img.height && 0 <= x < img.width ==> out[y][x] == Some(GrayPixel(At(img, x, y), alpha))
  {
    out := blank;
    var y := 0;
    while y < img.height
      invariant 0 <= y <= img.height
      invariant Shaped(out, img.width, img.height)
      invariant forall yy, xx :: 0 <= yy < img.height && 0 <= xx < img.width ==>
        out[yy][xx] == (if yy < y then Some(GrayPixel(At(img, xx, yy), alpha)) else None)
    {
      var x := 0;
      while x < img.width
        invariant 0 <= x <= img.width
        invariant Shaped(out, img.width, img.height)
        invariant forall yy, xx :: 0 <= yy < img.height && 0 <= xx < img.width ==>
          out[yy][xx] == (if yy < y || (yy == y && xx < x) then Some(GrayPixel(At(img, xx, yy), alpha)) else None)
      {
        var drawn := DrawGrayPixel(out, x, y, At(img, x, y), alpha);
        assert drawn.Ok?;
        out := drawn.value;
        x := x + 1;
      }
      y := y + 1;
    }
  }

  /** Write `v` at `(x, y)` when it is a colour; leave the output alone when it is `None`. */
  function Stamp(c: Canvas, x: nat, y: nat, v: Option<Rgba>): Canvas
    requires y < |c| && x < |c[y]|
  {
    match v
    case None => c
    case Some(color) => PutPixel(c, x, y, color)
  }

  /** Rendering one more pixel in row-major order extends the rendered prefix by that pixel. */
  lemma PaintStep(c: Canvas, target: Canvas, width: nat, height: nat, x: nat, y: nat)
    requires x < width && y < height
    requires PaintedUpTo(c, target, width, height, x, y)
    ensures PaintedUpTo(Stamp(c, x, y, target[y][x]), target, width, height, x + 1, y)
  {
  }

  /** A rendered full row is the same as a rendered prefix ending at the start of the next row;
      a blank output is the empty rendered prefix; a prefix covering every row is the target. */
  lemma PaintRowDone(c: Canvas, target: Canvas, width: nat, height: nat, y: nat)
    requires y < height
    requires PaintedUpTo(c, target, width, height, width, y)
    ensures PaintedUpTo(c, target, width, height, 0, y + 1)
  {
  }

  lemma PaintStart(target: Canvas, width: nat, height: nat)
    requires Shaped(target, width, height)
    ensures PaintedUpTo(BlankCanvas(width, height), target, width, height, 0, 0)
  {
  }

  lemma PaintEnd(c: Canvas, target: Canvas, width: nat, height: nat)
    requires PaintedUpTo(c, target, width, height, 0, height)
    ensures c == target
  {
    forall yy | 0 <= yy < height
      ensures c[yy] == target[yy]
    {
    }
  }

  /** The body of the main loop for one pixel pair: classify it, say whether it is counted, and
      draw into the output the colour its class gets (nothing in mask mode unless counted). */
  method ComparePixel(img1: Image, img2: Image, opts: Options, maxDelta: real, x: nat, y: nat, out: Option<Canvas>)
    returns (counted: bool, drawn: Option<Canvas>)
    requires SameDimensions(img1, img2) && InBounds(img1, x, y)
    requires maxDelta == MaxDelta(opts.threshold)
    requires out.Some? ==> Shaped(out.value, img1.width, img1.height)
    ensures counted <==> Classify(img1, img2, opts, x, y).Different?
    ensures drawn.Some? <==> out.Some?
    ensures out.Some? ==> drawn.value == Stamp(out.value, x, y, Cell(img1, img2, opts, x, y))
  {
    drawn := out;
    counted := false;
    var pixel1 := At(img1, x, y);
    var delta := ColorDelta(pixel1, At(img2, x, y), false);
    if Abs(delta) > maxDelta {
      if !opts.includeAa && (Antialiased(img1, x, y, img2) || Antialiased(img2, x, y, img1)) {
        if drawn.Some? && !opts.diffMask {
          drawn := Some(PutPixel(drawn.value, x, y, opts.aaColor));
        }
      } else {
        if drawn.Some? {
          var color := if delta < 0.0 then opts.diffColorAlt.UnwrapOr(opts.diffColor) else opts.diffColor;
          drawn := Some(PutPixel(drawn.value, x, y, color));
        }
        counted := true;
      }
    } else if drawn.Some? && !opts.diffMask {
      var gray := DrawGrayPixel(drawn.value, x, y, pixel1, opts.alpha);
      assert gray.Ok?;
      drawn := Some(gray.value);
    }
  }

  /** One row of the main loop: compare every pixel pair of row `y`, left to right. */
  method CompareRow(img1: Image, img2: Image, opts: Options, maxDelta: real, y: nat, out: Option<Canvas>, ghost target: Canvas)
    returns (rowDiff: nat, drawn: Option<Canvas>)
    requires SameDimensions(img1, img2) && y < img1.height
    requires maxDelta == MaxDelta(opts.threshold)
    requires Shaped(target, img1.width, img1.height) && target[y] == RenderRow(img1, img2, opts, y, img1.width)
    requires out.Some? ==> PaintedUpTo(out.value, target, img1.width, img1.height, 0, y)
    ensures rowDiff == RowCount(img1, img2, opts, y, img1.width)
    ensures drawn.Some? <==> out.Some?
    ensures drawn.Some? ==> PaintedUpTo(drawn.value, target, img1.width, img1.height, 0, y + 1)
  {
    hide Classify;
    rowDiff := 0;
    drawn := out;
    var x := 0;
    while x < img1.width
      invariant 0 <= x <= img1.width
      invariant rowDiff == RowCount(img1, img2, opts, y, x)
      invariant drawn.Some? <==> out.Some?
      invariant drawn.Some? ==> PaintedUpTo(drawn.value, target, img1.width, img1.height, x, y)
    {
      RenderRowAt(img1, img2, opts, y, img1.width, x);
      ghost var before := drawn;
      var counted;
      counted, drawn := ComparePixel(img1, img2, opts, maxDelta, x, y, drawn);
      if drawn.Some? {
        PaintStep(before.value, target, img1.width, img1.height, x, y);
        assert drawn.value == Stamp(before.value, x, y, target[y][x]);
      }
      RowCountStep(img1, img2, opts, y, x, counted);
      if counted {
        rowDiff := rowDiff + 1;
      }
      x := x + 1;
    }
    if drawn.Some? {
      PaintRowDone(drawn.value, target, img1.width, img1.height, y);
    }
  }

  /** The main loop: classify every pixel pair in row-major order, count the differences, and
      draw into the output when there is one. */
  method ComparePixels(img1: Image, img2: Image, opts: Options, blank: Option<Canvas>)
    returns (diff: nat, out: Option<Canvas>)
    requires SameDimensions(img1, img2)
    requires blank.Some? ==> blank.value == BlankCanvas(img1.width, img1.height)
    ensures diff == DiffCount(img1, img2, opts)
    ensures out.Some? <==> blank.Some?
    ensures out.Some? ==> out.value == Rendering(img1, img2, opts)
  {
    hide Classify;
    ghost var target := Rendering(img1, img2, opts);
    var maxDelta := MaxDelta(opts.threshold);
    diff := 0;
    out := blank;
    PaintStart(target, img1.width, img1.height);
    var y := 0;
    while y < img1.height
      invariant 0 <= y <= img1.height
      invariant diff == CountRows(img1, img2, opts, y)
      invariant out.Some? <==> blank.Some?
      invariant out.Some? ==> PaintedUpTo(out.value, target, img1.width, img1.height, 0, y)
    {
      RenderRowsAt(img1, img2, opts, img1.height, y);
      var rowDiff;
      rowDiff, out := CompareRow(img1, img2, opts, maxDelta, y, out, target);
      diff := diff + rowDiff;
      y := y + 1;
    }
    if out.Some? {
      PaintEnd(out.value, target, img1.width, img1.height);
    }
  }

  /** The dimensions pass both checks of `pixelmatch`. */
  predicate Accepted(img1: Image, img2: Image, width: Option<nat>, height: Option<nat>) {
    && SameDimensions(img1, img2)
    && !(width.Some? && height.Some? && (width.value != img1.width || height.value != img1.height))
  }

  /** `pixelmatch(img1, img2, output, width, height, options)` on decoded images; `output` says
      whether an output image was requested. Unequal sizes fail first; then explicit width and
      height, when both are given, must match; otherwise the result is the number of pixels
      classified `Different` (whether or not output was requested) and the output, when
      requested, holds the rendering of every pixel. Identical images give zero and, unless in
      mask mode, an all-gray output. */
  method Pixelmatch(img1: Image, img2: Image, output: bool, width: Option<nat>, height: Option<nat>, options: Option<Options>)
    returns (r: Result<Report, Error>)
    ensures !SameDimensions(img1, img2) ==> r == Err(SizesDiffer)
    ensures SameDimensions(img1, img2) && !Accepted(img1, img2, width, height) ==> r == Err(DataSizeMismatch)
    ensures Accepted(img1, img2, width, height) ==>
      && r.Ok?
      && r.value.diff == DiffCount(img1, img2, options.UnwrapOr(DefaultOptions()))
      && (r.value.output.Some? <==> output)
      && (output ==> Renders(r.value.output.value, img1, img2, options.UnwrapOr(DefaultOptions())))
    ensures Accepted(img1, img2, width, height) && Identical(img1, img2) ==>
      && r.Ok? && r.value.diff == 0
      && (output ==> forall y, x :: 0 <= y < img1.height && 0 <= x < img1.width ==>
            r.value.output.value[y][x] ==
              if options.UnwrapOr(DefaultOptions()).diffMask then None
              else Some(GrayPixel(At(img1, x, y), options.UnwrapOr(DefaultOptions()).alpha)))
  {
    if !SameDimensions(img1, img2) {
      return Err(SizesDiffer);
    }
    if width.Some? && height.Some? && (width.value != img1.width || height.value != img1.height) {
      return Err(DataSizeMismatch);
    }
    var opts := options.UnwrapOr(DefaultOptions());
    var canvas: Option<Canvas> := if output then Some(BlankCanvas(img1.width, img1.height)) else None;

    var identical := ImagesIdentical(img1, img2);
    if identical {
      IdenticalNoDiff(img1, img2, opts);
      if canvas.Some? && !opts.diffMask {
        var painted := PaintBackground(img1, opts.alpha, canvas.value);
        canvas := Some(painted);
      }
      forall y, x | 0 <= y < img1.height && 0 <= x < img1.width
        ensures Cell(img1, img2, opts, x, y) == if opts.diffMask then None else Some(GrayPixel(At(img1, x, y), opts.alpha))
      {
        IdenticalCell(img1, img2, opts, x, y);
      }
      return Ok(Report(0, canvas));
    }

    var diff, painted := ComparePixels(img1, img2, opts, canvas);
    RenderingRenders(img1, img2, opts);
    return Ok(Report(diff, painted));
  }

  /** An equal pixel pair always matches, so it is drawn as the gray background, or left blank
      in mask mode. */
  lemma IdenticalCell(img1: Image, img2: Image, opts: Options, x: nat, y: nat)
    requires SameDimensions(img1, img2) && InBounds(img1, x, y)
    requires At(img1, x, y) == At(img2, x, y)
    ensures Classify(img1, img2, opts, x, y) == Match
    ensures Cell(img1, img2, opts, x, y) == if opts.diffMask then None else Some(GrayPixel(At(img1, x, y), opts.alpha))
  {
    ClassifySpec(img1, img2, opts, x, y);
  }

  /** Identical images have no differences, whatever the options: the fast path's `Ok(0)` is
      what the full scan would return. */
  lemma IdenticalNoDiff(img1: Image, img2: Image, opts: Options)
    requires SameDimensions(img1, img2) && Identical(img1, img2)
    ensures DiffCount(img1, img2, opts) == 0
  {
    IdenticalRowsNoDiff(img1, img2, opts, img1.height);
  }

  lemma {:induction false} IdenticalRowsNoDiff(img1: Image, img2: Image, opts: Options, m: nat)
    requires SameDimensions(img1, img2) && Identical(img1, img2) && m <= img1.height
    ensures CountRows(img1, img2, opts, m) == 0
  {
    hide Classify;
    if m > 0 {
      IdenticalRowsNoDiff(img1, img2, opts, m - 1);
      IdenticalRowNoDiff(img1, img2, opts, m - 1, img1.width);
    }
  }

  lemma {:induction false} IdenticalRowNoDiff(img1: Image, img2: Image, opts: Options, y: nat, n: nat)
    requires SameDimensions(img1, img2) && Identical(img1, img2) && y < img1.height && n <= img1.width
    ensures RowCount(img1, img2, opts, y, n) == 0
  {
    hide Classify;
    if n > 0 {
      IdenticalRowNoDiff(img1, img2, opts, y, n - 1);
      IdenticalCell(img1, img2, opts, n - 1, y);
    }
  }

  /** An image compared with itself has no differences. */
  lemma SelfComparisonIsZero(img: Image, opts: Options)
    ensures DiffCount(img, img, opts) == 0
  {
    IdenticalNoDiff(img, img, opts);
  }

  /** There are never more differences than pixels. */
  lemma DiffCountBounded(img1: Image, img2: Image, opts: Options)
    requires SameDimensions(img1, img2)
    ensures DiffCount(img1, img2, opts) <= img1.width * img1.height
  {
    CountRowsBounded(img1, img2, opts, img1.height);
  }

  lemma {:induction false} CountRowsBounded(img1: Image, img2: Image, opts: Options, m: nat)
    requires SameDimensions(img1, img2) && m <= img1.height
    ensures CountRows(img1, img2, opts, m) <= img1.width * m
  {
    hide Classify;
    if m > 0 {
      CountRowsBounded(img1, img2, opts, m - 1);
      assert img1.width * (m - 1) + img1.width == img1.width * m;
    }
  }

  /** If every pixel counted under `o1` is counted under `o2`, `o2` counts at least as many. */
  lemma DiffCountPointwise(img1: Image, img2: Image, o1: Options, o2: Options)
    requires SameDimensions(img1, img2)
    requires forall x, y :: 0 <= x < img1.width && 0 <= y < img1.height && Classify(img1, img2, o1, x, y).Different? ==>
      Classify(img1, img2, o2, x, y).Different?
    ensures DiffCount(img1, img2, o1) <= DiffCount(img1, img2, o2)
  {
    hide Classify;
    forall y | 0 <= y < img1.height
      ensures RowCount(img1, img2, o1, y, img1.width) <= RowCount(img1, img2, o2, y, img1.width)
    {
      RowCountPointwise(img1, img2, o1, o2, y, img1.width);
    }
    CountRowsPointwise(img1, img2, o1, o2, img1.height);
  }

  lemma {:induction false} RowCountPointwise(img1: Image, img2: Image, o1: Options, o2: Options, y: nat, n: nat)
    requires SameDimensions(img1, img2) && y < img1.height && n <= img1.width
    requires forall x :: 0 <= x < n && Classify(img1, img2, o1, x, y).Different? ==>
      Classify(img1, img2, o2, x, y).Different?
    ensures RowCount(img1, img2, o1, y, n) <= RowCount(img1, img2, o2, y, n)
  {
    hide Classify;
    if n > 0 {
      RowCountPointwise(img1, img2, o1, o2, y, n - 1);
    }
  }

  lemma {:induction false} CountRowsPointwise(img1: Image, img2: Image, o1: Options, o2: Options, m: nat)
    requires SameDimensions(img1, img2) && m <= img1.height
    requires forall y :: 0 <= y < m ==> RowCount(img1, img2, o1, y, img1.width) <= RowCount(img1, img2, o2, y, img1.width)
    ensures CountRows(img1, img2, o1, m) <= CountRows(img1, img2, o2, m)
  {
    hide Classify;
    if m > 0 {
      CountRowsPointwise(img1, img2, o1, o2, m - 1);
    }
  }

  /** Turning anti-aliasing detection off (`include_aa`) never lowers the count. */
  lemma IncludeAaNeverFewer(img1: Image, img2: Image, opts: Options)
    requires SameDimensions(img1, img2)
    ensures DiffCount(img1, img2, opts.(includeAa := false)) <= DiffCount(img1, img2, opts.(includeAa := true))
  {
    forall x, y | 0 <= x < img1.width && 0 <= y < img1.height
      ensures Classify(img1, img2, opts.(includeAa := false), x, y).Different? ==>
        Classify(img1, img2, opts.(includeAa := true), x, y).Different?
    {
      ClassifySpec(img1, img2, opts.(includeAa := true), x, y);
    }
    DiffCountPointwise(img1, img2, opts.(includeAa := false), opts.(includeAa := true));
  }

  /** With `include_aa`, a pixel is counted exactly when its YIQ distance exceeds the scaled
      threshold. */
  lemma IncludeAaCountsEveryExcess(img1: Image, img2: Image, opts: Options, x: nat, y: nat)
    requires SameDimensions(img1, img2) && InBounds(img1, x, y) && opts.includeAa
    ensures Classify(img1, img2, opts, x, y).Different? <==>
      YiqDistance(At(img1, x, y), At(img2, x, y)) > MaxDelta(opts.threshold)
  {
    ClassifySpec(img1, img2, opts, x, y);
  }

  /** A threshold of larger magnitude never raises the count. */
  lemma ThresholdMonotone(img1: Image, img2: Image, opts: Options, t1: real, t2: real)
    requires SameDimensions(img1, img2)
    requires Abs(t1) <= Abs(t2)
    ensures DiffCount(img1, img2, opts.(threshold := t2)) <= DiffCount(img1, img2, opts.(threshold := t1))
  {
    MaxDeltaMonotone(t1, t2);
    forall x, y | 0 <= x < img1.width && 0 <= y < img1.height
      ensures Classify(img1, img2, opts.(threshold := t2), x, y).Different? ==>
        Classify(img1, img2, opts.(threshold := t1), x, y).Different?
    {
      ClassifySpec(img1, img2, opts.(threshold := t1), x, y);
      ClassifySpec(img1, img2, opts.(threshold := t2), x, y);
    }
    DiffCountPointwise(img1, img2, opts.(threshold := t2), opts.(threshold := t1));
  }

  /** The diff mask only changes what is painted: the count is the same with or without it. */
  lemma DiffMaskKeepsCount(img1: Image, img2: Image, opts: Options)
    requires SameDimensions(img1, img2)
    ensures DiffCount(img1, img2, opts.(diffMask := true)) == DiffCount(img1, img2, opts.(diffMask := false))
  {
    forall x, y | 0 <= x < img1.width && 0 <= y < img1.height
      ensures Classify(img1, img2, opts.(diffMask := true), x, y).Different? <==>
        Classify(img1, img2, opts.(diffMask := false), x, y).Different?
    {
      ClassifySpec(img1, img2, opts.(diffMask := true), x, y);
      ClassifySpec(img1, img2, opts.(diffMask := false), x, y);
    }
    DiffCountPointwise(img1, img2, opts.(diffMask := true), opts.(diffMask := false));
    DiffCountPointwise(img1, img2, opts.(diffMask := false), opts.(diffMask := true));
  }

  /** Whatever the images, a zero threshold counts at least as many pixels as 0.05, with or
      without the diff mask. So a pair of images with a positive count at 0.05 cannot have
      count 0 at 0.0. */
  lemma ZeroThresholdCountsNoFewer(img1: Image, img2: Image)
    requires SameDimensions(img1, img2)
    ensures DiffCount(img1, img2, DefaultOptions().(threshold := 0.05)) <=
      DiffCount(img1, img2, DefaultOptions().(threshold := 0.0))
    ensures DiffCount(img1, img2, DefaultOptions().(threshold := 0.05)) <=
      DiffCount(img1, img2, DefaultOptions().(threshold := 0.0, diffMask := true))
  {
    var d := DefaultOptions();
    ThresholdMonotone(img1, img2, d, 0.0, 0.05);
    DiffMaskKeepsCount(img1, img2, d.(threshold := 0.0));
    assert d.(threshold := 0.0).(diffMask := false) == d.(threshold := 0.0);
    assert d.(threshold := 0.0).(diffMask := true) == d.(threshold := 0.0, diffMask := true);
  }

  /** In mask mode a pixel is drawn exactly when it is counted; otherwise every pixel is drawn. */
  lemma MaskDrawsOnlyDifferences(img1: Image, img2: Image, opts: Options, x: nat, y: nat)
    requires SameDimensions(img1, img2) && InBounds(img1, x, y)
    ensures opts.diffMask ==> (Cell(img1, img2, opts, x, y).Some? <==> Classify(img1, img2, opts, x, y).Different?)
    ensures !opts.diffMask ==> Cell(img1, img2, opts, x, y).Some?
  {
  }

  /** A counted pixel is drawn in `diff_color_alt` (when set) exactly when the first image's
      pixel is the brighter one, and in `diff_color` otherwise; an anti-aliased pixel outside
      mask mode is drawn in `aa_color`. */
  lemma DiffColourFollowsBrightness(img1: Image, img2: Image, opts: Options, x: nat, y: nat)
    requires SameDimensions(img1, img2) && InBounds(img1, x, y)
    ensures Classify(img1, img2, opts, x, y).Different? ==>
      Cell(img1, img2, opts, x, y) ==
        Some(if Luma(At(img1, x, y)) > Luma(At(img2, x, y)) then opts.diffColorAlt.UnwrapOr(opts.diffColor) else opts.diffColor)
    ensures Classify(img1, img2, opts, x, y).AntiAliased? && !opts.diffMask ==>
      Cell(img1, img2, opts, x, y) == Some(opts.aaColor)
  {
    ClassifySpec(img1, img2, opts, x, y);
  }
}
