/** Decoded RGBA images and the clamped 3x3 neighbourhood that both neighbour scans walk. */
module Pixels {

  /** One 8-bit channel (`u8`). */
  newtype byte = x: int | 0 <= x < 256

  /** One pixel, as `Rgba<u8>`: red, green, blue, alpha. */
  datatype Rgba = Rgba(r: byte, g: byte, b: byte, a: byte)

  const I32Min: int := -0x8000_0000
  const I32Max: int := 0x7fff_ffff

  /** A decoded raster: `rows[y][x]` is the pixel in column `x` of row `y`. */
  datatype Raster = Raster(width: nat, height: nat, rows: seq<seq<Rgba>>)

  /** A raster whose rows agree with its dimensions. The dimensions stay within the largest
      PNG dimension (2^31 - 1, section 11.2.2 of the PNG specification), so the `as i32`
      casts of coordinates and sizes in the neighbour scans never wrap. */
  predicate WellFormed(raster: Raster) {
    && raster.width <= I32Max
    && raster.height <= I32Max
    && |raster.rows| == raster.height
    && forall y :: 0 <= y < |raster.rows| ==> |raster.rows[y]| == raster.width
  }

  /** An image as the comparison reads it after decoding. */
  type Image = raster: Raster | WellFormed(raster) witness Raster(0, 0, [])

  predicate InBounds(img: Image, x: int, y: int) {
    0 <= x < img.width && 0 <= y < img.height
  }

  /** `get_pixel(x, y)`. */
  function At(img: Image, x: int, y: int): Rgba
    requires InBounds(img, x, y)
  {
    img.rows[y][x]
  }

  predicate SameDimensions(img1: Image, img2: Image) {
    img1.width == img2.width && img1.height == img2.height
  }

  /** Every pixel pair at the same coordinate is equal. */
  predicate Identical(img1: Image, img2: Image)
    requires SameDimensions(img1, img2)
  {
    forall x, y :: 0 <= x < img1.width && 0 <= y < img1.height ==> At(img1, x, y) == At(img2, x, y)
  }

  /** `a.saturating_add(b)` on `i32`. */
  function SaturatingAddI32(a: int, b: int): (s: int)
    requires I32Min <= a <= I32Max && I32Min <= b <= I32Max
    ensures I32Min <= s <= I32Max
    ensures I32Min <= a + b <= I32Max ==> s == a + b
    ensures a + b > I32Max ==> s == I32Max
    ensures a + b < I32Min ==> s == I32Min
  {
    if a + b > I32Max then I32Max
    else if a + b < I32Min then I32Min
    else a + b
  }

  function Max(a: int, b: int): int { if a >= b then a else b }
  function Min(a: int, b: int): int { if a <= b then a else b }

  /** One axis of a neighbour coordinate:
      `(c as i32).saturating_add(rel).max(0).min(size as i32 - 1) as u32`.
      The result is the shifted coordinate when that lies on the image and otherwise the
      nearest edge; it is never outside `[0, size - 1]`. */
  function ClampAxis(c: nat, rel: int, size: nat): (n: nat)
    requires c < size <= I32Max
    requires -1 <= rel <= 1
    ensures n < size
    ensures 0 <= c + rel < size ==> n == c + rel
    ensures c + rel < 0 ==> n == 0
    ensures c + rel >= size ==> n == size - 1
  {
    Min(Max(SaturatingAddI32(c, rel), 0), size - 1)
  }

  /** The eight offsets of the 3x3 window without its centre, in the order the scans visit them:
      the column offset is the outer loop and the row offset the inner one. */
  const WindowOffsets: seq<(int, int)> :=
    [(-1, -1), (-1, 0), (-1, 1), (0, -1), (0, 1), (1, -1), (1, 0), (1, 1)]

  /** The window offsets are the two nested loops over `-1..=1` with `(0, 0)` skipped: every
      non-zero offset occurs, and they come in column-major lexicographic order. */
  lemma WindowOffsetsAreTheNestedLoops()
    ensures |WindowOffsets| == 8
    ensures forall rx, ry :: -1 <= rx <= 1 && -1 <= ry <= 1 && (rx, ry) != (0, 0) ==> (rx, ry) in WindowOffsets
    ensures forall i, j :: 0 <= i < j < 8 ==>
      WindowOffsets[i].0 < WindowOffsets[j].0 ||
      (WindowOffsets[i].0 == WindowOffsets[j].0 && WindowOffsets[i].1 < WindowOffsets[j].1)
  {
  }

  /** The clamped neighbour `k` (0 to 7, in scan order) of the pixel at `(x, y)`. */
  function Neighbour(img: Image, x: nat, y: nat, k: nat): (n: (nat, nat))
    requires InBounds(img, x, y) && k < 8
    ensures InBounds(img, n.0, n.1)
  {
    (ClampAxis(x, WindowOffsets[k].0, img.width), ClampAxis(y, WindowOffsets[k].1, img.height))
  }

  /** All eight clamped neighbours of `(x, y)` in scan order; every one of them lies on the image,
      so each pixel read of the scans is in bounds. */
  function Neighbours(img: Image, x: nat, y: nat): (ns: seq<(nat, nat)>)
    requires InBounds(img, x, y)
    ensures |ns| == 8
    ensures forall k :: 0 <= k < 8 ==> InBounds(img, ns[k].0, ns[k].1)
    ensures forall k :: 0 <= k < 8 ==> ns[k] == Neighbour(img, x, y, k)
  {
    seq(8, k requires 0 <= k < 8 => Neighbour(img, x, y, k))
  }

  /** Away from the border the window is the plain 3x3 block: each neighbour is the pixel at
      the offset, with no clamping. */
  lemma InteriorNeighbours(img: Image, x: nat, y: nat)
    requires 1 <= x && x + 1 < img.width && 1 <= y && y + 1 < img.height
    ensures forall k :: 0 <= k < 8 ==>
      Neighbours(img, x, y)[k] == (x + WindowOffsets[k].0, y + WindowOffsets[k].1)
  {
  }

  /** Clamping duplicates the border instead of skipping it, so at each corner three of the eight
      neighbours are the corner pixel itself. The indices are those three, in scan order. */
  function CornerSelfIndices(img: Image, x: nat, y: nat): (ks: (nat, nat, nat))
    requires InBounds(img, x, y)
    requires (x == 0 || x == img.width - 1) && (y == 0 || y == img.height - 1)
    ensures ks.0 < ks.1 < ks.2 < 8
    ensures Neighbours(img, x, y)[ks.0] == (x, y)
    ensures Neighbours(img, x, y)[ks.1] == (x, y)
    ensures Neighbours(img, x, y)[ks.2] == (x, y)
  {
    if x == 0 && y == 0 then (0, 1, 3)
    else if x == 0 then (1, 2, 4)
    else if y == 0 then (3, 5, 6)
    else (4, 6, 7)
  }
}
