/** The perceptual colour metric: compositing over white, the YIQ transform and the signed
    weighted distance, plus the gray value drawn for matching pixels. Arithmetic is over `real`. */
module Metric {
  import opened Pixels

  /** Largest value of the unsigned distance; the threshold is scaled by it. */
  const MaxYiqDistance: real := 35215.0

  function Abs(v: real): real { if v < 0.0 then -v else v }

  /** `blend`: channel `c` composited with weight `a` over white. Weight 0 leaves white, weight 1
      the channel itself. */
  function Blend(c: real, a: real): (v: real)
    ensures a == 0.0 ==> v == 255.0
    ensures a == 1.0 ==> v == c
  {
    255.0 + (c - 255.0) * a
  }

  /** The YIQ brightness. Its weights sum to 1.00000001, so a gray level is scaled by that sum. */
  function Rgb2Y(r: real, g: real, b: real): (y: real)
    ensures r == g == b ==> y == 1.00000001 * r
  {
    r * 0.29889531 + g * 0.58662247 + b * 0.11448223
  }

  /** The in-phase chroma. Its weights sum to 0, so a gray level has none. */
  function Rgb2I(r: real, g: real, b: real): (i: real)
    ensures r == g == b ==> i == 0.0
  {
    r * 0.59597799 - g * 0.27417610 - b * 0.32180189
  }

  /** The quadrature chroma. Its weights sum to 0, so a gray level has none. */
  function Rgb2Q(r: real, g: real, b: real): (q: real)
    ensures r == g == b ==> q == 0.0
  {
    r * 0.21147017 - g * 0.52261711 + b * 0.31114694
  }

  datatype Rgb = Rgb(r: real, g: real, b: real)

  /** The colour `color_delta` works on: an opaque pixel as it is, any other one blended toward
      white by `a / 255`. Blending only lightens, and a fully transparent pixel becomes white. */
  function OverWhite(p: Rgba): (c: Rgb)
    ensures p.a == 255 ==> c == Rgb(p.r as real, p.g as real, p.b as real)
    ensures p.a == 0 ==> c == Rgb(255.0, 255.0, 255.0)
    ensures p.r as real <= c.r <= 255.0 && p.g as real <= c.g <= 255.0 && p.b as real <= c.b <= 255.0
  {
    if p.a < 255 then
      var a := p.a as real / 255.0;
      BlendLightens(p.r as real, a);
      BlendLightens(p.g as real, a);
      BlendLightens(p.b as real, a);
      Rgb(Blend(p.r as real, a), Blend(p.g as real, a), Blend(p.b as real, a))
    else
      Rgb(p.r as real, p.g as real, p.b as real)
  }

  /** A channel in `[0, 255]` blended with a weight in `[0, 1]` stays between itself and white. */
  lemma BlendLightens(c: real, a: real)
    requires 0.0 <= c <= 255.0 && 0.0 <= a <= 1.0
    ensures c <= Blend(c, a) <= 255.0
  {
    assert Blend(c, a) == c + (255.0 - c) * (1.0 - a);
    ProductNonNegative(255.0 - c, 1.0 - a, (255.0 - c) * (1.0 - a));
    ProductNonNegative(255.0 - c, a, (255.0 - c) * a);
  }

  /** Brightness (Y) of a pixel after compositing over white. */
  function Luma(p: Rgba): real {
    var c := OverWhite(p);
    Rgb2Y(c.r, c.g, c.b)
  }

  function InPhase(p: Rgba): real {
    var c := OverWhite(p);
    Rgb2I(c.r, c.g, c.b)
  }

  function Quadrature(p: Rgba): real {
    var c := OverWhite(p);
    Rgb2Q(c.r, c.g, c.b)
  }

  /** `v` multiplied by itself `n` times. */
  function Power(v: real, n: nat): real {
    if n == 0 then 1.0 else v * Power(v, n - 1)
  }

  /** The square `v * v`, written through `Power` so that proofs unfold it only on request. */
  function Sq(v: real): real { Power(v, 2) }

  lemma SqIsProduct(v: real)
    ensures Sq(v) == v * v
  {
    assert Power(v, 0) == 1.0;
    assert Power(v, 1) == v;
  }

  lemma ProductPositive(a: real, b: real, w: real)
    requires a > 0.0 && b > 0.0 && w == a * b
    ensures w > 0.0
  {
  }

  lemma ProductNonNegative(a: real, b: real, w: real)
    requires a >= 0.0 && b >= 0.0 && w == a * b
    ensures w >= 0.0
  {
  }

  /** Squares grow with the magnitude of their base. */
  lemma SquareMonotone(u: real, v: real)
    requires Abs(u) <= Abs(v)
    ensures Sq(u) <= Sq(v)
  {
    var a, b := Abs(u), Abs(v);
    SqIsProduct(u); SqIsProduct(v); SqIsProduct(a); SqIsProduct(b);
    assert Sq(u) == Sq(a) && Sq(v) == Sq(b);
    assert Sq(b) - Sq(a) == (b - a) * (b + a);
    ProductNonNegative(b - a, b + a, Sq(b) - Sq(a));
  }

  /** A square is never negative, is positive unless its base is zero, and ignores the sign of
      its base. */
  lemma SquareSign(v: real)
    ensures Sq(v) >= 0.0
    ensures v != 0.0 ==> Sq(v) > 0.0
    ensures Sq(-v) == Sq(v)
  {
    SqIsProduct(v);
    SqIsProduct(-v);
    if v > 0.0 {
      ProductPositive(v, v, Sq(v));
    } else if v < 0.0 {
      ProductPositive(-v, -v, Sq(v));
    }
  }

  /** `0.5053 * y * y + 0.299 * i * i + 0.1957 * q * q`: the weighted sum of squared YIQ differences. */
  function Weighted(y: real, i: real, q: real): real {
    0.5053 * Sq(y) + 0.299 * Sq(i) + 0.1957 * Sq(q)
  }

  /** The weighted sum is never negative, is positive whenever the brightness difference is,
      and does not change when all three differences change sign. */
  lemma WeightedSign(y: real, i: real, q: real)
    ensures Weighted(y, i, q) >= 0.0
    ensures y != 0.0 ==> Weighted(y, i, q) > 0.0
    ensures Weighted(-y, -i, -q) == Weighted(y, i, q)
  {
    SquareSign(y);
    SquareSign(i);
    SquareSign(q);
  }

  /** The unsigned weighted squared YIQ distance between two pixels. */
  function YiqDistance(p1: Rgba, p2: Rgba): real {
    Weighted(Luma(p1) - Luma(p2), InPhase(p1) - InPhase(p2), Quadrature(p1) - Quadrature(p2))
  }

  /** The distance is never negative, it is positive whenever the brightnesses differ, and it
      is symmetric. */
  lemma YiqDistanceSign(p1: Rgba, p2: Rgba)
    ensures YiqDistance(p1, p2) >= 0.0
    ensures Luma(p1) != Luma(p2) ==> YiqDistance(p1, p2) > 0.0
    ensures YiqDistance(p2, p1) == YiqDistance(p1, p2)
  {
    hide Luma, InPhase, Quadrature;
    var y := Luma(p1) - Luma(p2);
    var i := InPhase(p1) - InPhase(p2);
    var q := Quadrature(p1) - Quadrature(p2);
    WeightedSign(y, i, q);
    assert Luma(p2) - Luma(p1) == -y;
    assert InPhase(p2) - InPhase(p1) == -i;
    assert Quadrature(p2) - Quadrature(p1) == -q;
  }

  /** `color_delta(rgba1, rgba2, y_only)`; `ColorDeltaSpec` states what it means. */
  function ColorDelta(p1: Rgba, p2: Rgba, yOnly: bool): real {
    if p1.a == p2.a && p1.r == p2.r && p1.g == p2.g && p1.b == p2.b then
      0.0
    else
      var c1 := OverWhite(p1);
      var c2 := OverWhite(p2);
      var y1 := Rgb2Y(c1.r, c1.g, c1.b);
      var y2 := Rgb2Y(c2.r, c2.g, c2.b);
      var y := y1 - y2;
      if yOnly then
        y
      else
        var i := Rgb2I(c1.r, c1.g, c1.b) - Rgb2I(c2.r, c2.g, c2.b);
        var q := Rgb2Q(c1.r, c1.g, c1.b) - Rgb2Q(c2.r, c2.g, c2.b);
        var delta := Weighted(y, i, q);
        if y1 > y2 then -delta else delta
  }

  /** Bit-identical pixels give exactly zero. With `y_only` the delta is the brightness
      difference Y1 - Y2. Otherwise its magnitude is the weighted YIQ distance and it is
      negative exactly when the first pixel is the brighter one. */
  lemma ColorDeltaSpec(p1: Rgba, p2: Rgba)
    ensures p1 == p2 ==> ColorDelta(p1, p2, true) == 0.0 && ColorDelta(p1, p2, false) == 0.0
    ensures ColorDelta(p1, p2, true) == Luma(p1) - Luma(p2)
    ensures Abs(ColorDelta(p1, p2, false)) == YiqDistance(p1, p2)
    ensures ColorDelta(p1, p2, false) < 0.0 <==> Luma(p1) > Luma(p2)
  {
    YiqDistanceSign(p1, p2);
  }

  /** Swapping the pixels negates the brightness difference, keeps the magnitude of the full
      delta, and flips its sign whenever the brightnesses differ. */
  lemma ColorDeltaSwap(p1: Rgba, p2: Rgba)
    ensures ColorDelta(p2, p1, true) == -ColorDelta(p1, p2, true)
    ensures Abs(ColorDelta(p2, p1, false)) == Abs(ColorDelta(p1, p2, false))
    ensures Luma(p1) != Luma(p2) ==> ColorDelta(p2, p1, false) == -ColorDelta(p1, p2, false)
  {
    ColorDeltaSpec(p1, p2);
    ColorDeltaSpec(p2, p1);
    YiqDistanceSign(p1, p2);
  }

  /** A zero delta does not mean equal pixels: every fully transparent pixel composites to
      white, so it is zero apart from opaque white in both modes. */
  lemma TransparentLooksWhite(p: Rgba)
    requires p.a == 0
    ensures p != Rgba(255, 255, 255, 255)
    ensures ColorDelta(p, Rgba(255, 255, 255, 255), true) == 0.0
    ensures ColorDelta(p, Rgba(255, 255, 255, 255), false) == 0.0
  {
    var white := Rgba(255, 255, 255, 255);
    assert OverWhite(p) == OverWhite(white);
    ColorDeltaSpec(p, white);
    SqIsProduct(0.0);
    assert YiqDistance(p, white) == Weighted(0.0, 0.0, 0.0);
  }

  /** Rust's `v as u8` for a finite float: truncation toward zero, saturating at 0 and 255. */
  function AsU8(v: real): (b: byte)
    ensures v <= 0.0 ==> b == 0
    ensures v >= 255.0 ==> b == 255
    ensures 0.0 <= v < 256.0 ==> b as real <= v < b as real + 1.0
  {
    if v <= 0.0 then 0
    else if v >= 255.0 then 255
    else v.Floor as byte
  }

  /** The cast is monotone. */
  lemma AsU8Monotone(u: real, v: real)
    requires u <= v
    ensures AsU8(u) <= AsU8(v)
  {
  }

  /** The gray level `draw_gray_pixel` writes: the brightness of the raw RGB channels, blended
      toward white with weight `alpha * a / 255`, cast to `u8`. */
  function GrayValue(p: Rgba, alpha: real): byte {
    AsU8(Blend(Rgb2Y(p.r as real, p.g as real, p.b as real), GrayWeight(alpha, p.a)))
  }

  /** The blending weight of the background: `alpha * a / 255`. */
  function GrayWeight(alpha: real, a: byte): real {
    alpha * (a as real) / 255.0
  }

  /** The background pixel: the gray level in all four channels, alpha included. */
  function GrayPixel(p: Rgba, alpha: real): (g: Rgba)
    ensures g.r == g.g == g.b == g.a
  {
    var v := GrayValue(p, alpha);
    Rgba(v, v, v, v)
  }

  /** The weight `alpha * a / 255` of a pixel with alpha channel `a` lies in `[0, 1]`; it is zero
      when either factor is, and one when both are full. */
  lemma GrayWeightBounds(alpha: real, a: byte)
    requires 0.0 <= alpha <= 1.0
    ensures 0.0 <= GrayWeight(alpha, a) <= 1.0
    ensures alpha == 0.0 || a == 0 ==> GrayWeight(alpha, a) == 0.0
    ensures alpha == 1.0 && a == 255 ==> GrayWeight(alpha, a) == 1.0
  {
    var c := a as real;
    ProductNonNegative(alpha, c, alpha * c);
    ProductNonNegative(1.0 - alpha, c, (1.0 - alpha) * c);
    assert (1.0 - alpha) * c == c - alpha * c;
  }

  /** Blending a non-negative brightness toward white with a weight in `[0, 1]` never lowers its
      `u8` cast; weight zero gives white and weight one leaves it as it is. */
  lemma BlendCastLightens(y: real, w: real)
    requires 0.0 <= y && 0.0 <= w <= 1.0
    ensures AsU8(y) <= AsU8(Blend(y, w))
    ensures w == 0.0 ==> AsU8(Blend(y, w)) == 255
    ensures w == 1.0 ==> AsU8(Blend(y, w)) == AsU8(y)
  {
    if y <= 255.0 {
      BlendLightens(y, w);
      AsU8Monotone(y, Blend(y, w));
    } else {
      ProductNonNegative(y - 255.0, w, (y - 255.0) * w);
    }
  }

  /** For `alpha` in `[0, 1]` the background is never darker than the pixel's own brightness,
      it is pure white when `alpha` or the pixel's alpha is zero, and it is the pixel's own
      brightness when both are full. */
  lemma GrayBackgroundLightens(p: Rgba, alpha: real)
    requires 0.0 <= alpha <= 1.0
    ensures AsU8(Rgb2Y(p.r as real, p.g as real, p.b as real)) <= GrayValue(p, alpha)
    ensures alpha == 0.0 || p.a == 0 ==> GrayValue(p, alpha) == 255
    ensures alpha == 1.0 && p.a == 255 ==>
      GrayValue(p, alpha) == AsU8(Rgb2Y(p.r as real, p.g as real, p.b as real))
  {
    GrayWeightBounds(alpha, p.a);
    BlendCastLightens(Rgb2Y(p.r as real, p.g as real, p.b as real), GrayWeight(alpha, p.a));
  }
}
