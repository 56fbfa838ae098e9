/**
 * The fragment stage of the dither shader: every fragment is reduced to a cell
 * of an 8x8 tile from its window coordinate, the cell gives a threshold k/64,
 * and the fragment is white when the luminance reaches the threshold and black
 * otherwise, always fully opaque.
 *
 * GLSL arithmetic is modelled exactly over `real`: `mod(a, b)` is
 * `a - b * floor(a / b)` and `int(v)` truncates toward zero.
 */
module Dither {

  /** Side of the square dither tile, in pixels. */
  const TileSize: int := 8

  /** Number of cells in the tile; the threshold numerator is reduced modulo this. */
  const Cells: int := 64

  /** GLSL `mod(a, b)` for a positive divisor: floored, never negative. */
  function GlslMod(a: real, b: real): (r: real)
    requires b > 0.0
    ensures 0.0 <= r < b
    ensures (a - r) / b == ((a - r) / b).Floor as real
  {
    var q := (a / b).Floor;
    FloorDivBounds(a, b);
    a - b * q as real
  }

  /** `b * floor(a / b) <= a < b * floor(a / b) + b` for a positive divisor. */
  lemma FloorDivBounds(a: real, b: real)
    requires b > 0.0
    ensures var q := (a / b).Floor as real;
      b * q <= a < b * q + b && (a - (a - b * q)) / b == q
  {
    var q := (a / b).Floor as real;
    var f := a / b;
    assert q <= f < q + 1.0;
    assert a == b * f;
    assert b * q <= a by {
      NonNegativeProduct(b, f - q);
      assert a - b * q == b * (f - q);
    }
    assert a < b * q + b by {
      PositiveProduct(b, q + 1.0 - f);
      assert b * q + b - a == b * (q + 1.0 - f);
    }
    assert (a - (a - b * q)) == b * q;
  }

  lemma NonNegativeProduct(x: real, y: real)
    requires x > 0.0 && y >= 0.0
    ensures x * y >= 0.0
  {
  }

  lemma PositiveProduct(x: real, y: real)
    requires x > 0.0 && y > 0.0
    ensures x * y > 0.0
  {
  }

  /** GLSL `int(v)`: truncation toward zero. */
  function GlslInt(v: real): (n: int)
    ensures v >= 0.0 ==> n as real <= v < n as real + 1.0
    ensures v < 0.0 ==> n as real - 1.0 < v <= n as real
  {
    if v >= 0.0 then v.Floor else -((-v).Floor)
  }

  /** GLSL `step(edge, v)`: 0.0 when `v < edge`, 1.0 otherwise. */
  function Step(edge: real, v: real): (r: real)
    ensures r == 1.0 <==> v >= edge
    ensures r == 0.0 <==> v < edge
  {
    if v < edge then 0.0 else 1.0
  }

  /**
   * The tile cell of one window coordinate: `int(mod(gl_FragCoord.x, 8.0))`.
   * For every coordinate, not only pixel centres, the cell lies in 0..7.
   */
  function TileIndex(fragCoord: real): (i: int)
    ensures 0 <= i < TileSize
  {
    GlslInt(GlslMod(fragCoord, TileSize as real))
  }

  /** `mod(float(x * y), 64.0) / 64.0` for the two tile cells: always in `[0, 1)`. */
  function Threshold(xi: int, yi: int): (t: real)
    ensures 0.0 <= t < 1.0
  {
    GlslMod((xi * yi) as real, Cells as real) / Cells as real
  }

  /** The luminance the shader dithers: `dot(vec3(1.0), vec3(0.299, 0.587, 0.114))`. */
  const Gray: real := 1.0 * 0.299 + 1.0 * 0.587 + 1.0 * 0.114

  /** An RGBA fragment colour. */
  datatype Rgba = Rgba(r: real, g: real, b: real, a: real)

  /**
   * `gl_FragColor = vec4(vec3(step(threshold, gray)), 1.0)`: binary and
   * opaque. The three channels are equal, each is 1 exactly when the
   * luminance reaches the threshold and 0 otherwise, and alpha is 1.
   */
  function DitherColour(threshold: real, gray: real): (c: Rgba)
    ensures c.r == c.g == c.b
    ensures c.r == 1.0 <==> gray >= threshold
    ensures c.r == 0.0 <==> gray < threshold
    ensures c.a == 1.0
  {
    var c := Step(threshold, gray);
    Rgba(c, c, c, 1.0)
  }

  /** The threshold of the fragment at window coordinate `(fx, fy)`. */
  function FragThreshold(fx: real, fy: real): real
  {
    Threshold(TileIndex(fx), TileIndex(fy))
  }

  /** The whole fragment shader, as a function of `gl_FragCoord.xy`. */
  function Shade(fx: real, fy: real): Rgba
  {
    DitherColour(FragThreshold(fx, fy), Gray)
  }

  /** The fragment covering pixel `(px, py)`: its window coordinate is the pixel centre. */
  function PixelColour(px: nat, py: nat): Rgba
  {
    Shade(px as real + 0.5, py as real + 0.5)
  }

  /** The threshold the shader uses for pixel `(px, py)`. */
  function PixelThreshold(px: nat, py: nat): real
  {
    FragThreshold(px as real + 0.5, py as real + 0.5)
  }

  /** `floor(q + f) == q` for an integer `q` and `0 <= f < 1`. */
  lemma FloorOfIntPlusFraction(q: int, f: real)
    requires 0.0 <= f < 1.0
    ensures (q as real + f).Floor == q
  {
  }

  /**
   * The cell of a pixel centre is the pixel index modulo 8: the half-pixel
   * offset of `gl_FragCoord` never moves a pixel into the next cell.
   */
  lemma {:induction false} TileIndexOfPixelCentre(p: int)
    ensures TileIndex(p as real + 0.5) == p % TileSize
  {
    var q, r := p / 8, p % 8;
    var v := p as real + 0.5;
    assert p == 8 * q + r;
    assert v / 8.0 == q as real + (r as real + 0.5) / 8.0;
    FloorOfIntPlusFraction(q, (r as real + 0.5) / 8.0);
    assert (v / 8.0).Floor == q;
    assert GlslMod(v, 8.0) == r as real + 0.5;
    FloorOfIntPlusFraction(r, 0.5);
  }

  /**
   * For cells of the tile the product `xi * yi` is at most 49, so the `mod 64`
   * never changes it: the threshold is exactly `xi * yi / 64`, lies in
   * `[0, 49/64]`, and is 0 on the first row and the first column of the tile.
   */
  lemma {:induction false} ThresholdExact(xi: int, yi: int)
    requires 0 <= xi < TileSize && 0 <= yi < TileSize
    ensures 0 <= xi * yi <= 49
    ensures Threshold(xi, yi) == (xi * yi) as real / 64.0
    ensures 0.0 <= Threshold(xi, yi) <= 49.0 / 64.0
    ensures xi == 0 || yi == 0 ==> Threshold(xi, yi) == 0.0
  {
    var k := xi * yi;
    assert k <= 7 * yi <= 49 by {
      assert xi * yi <= 7 * yi;
    }
    FloorOfIntPlusFraction(0, k as real / 64.0);
    assert GlslMod(k as real, 64.0) == k as real;
  }

  /** Every fragment's threshold lies in `[0, 49/64]`, whatever its coordinate. */
  lemma FragThresholdBounds(fx: real, fy: real)
    ensures 0.0 <= FragThreshold(fx, fy) <= 49.0 / 64.0
  {
    ThresholdExact(TileIndex(fx), TileIndex(fy));
  }

  /** A pixel's threshold depends only on `(px mod 8, py mod 8)`. */
  lemma PixelThresholdByCell(px: nat, py: nat)
    ensures PixelThreshold(px, py) == (((px % 8) * (py % 8)) as real) / 64.0
  {
    TileIndexOfPixelCentre(px);
    TileIndexOfPixelCentre(py);
    ThresholdExact(px % 8, py % 8);
  }

  /** The dither pattern repeats every 8 pixels horizontally and vertically. */
  lemma PixelThresholdPeriodic(px: nat, py: nat)
    ensures PixelThreshold(px + TileSize, py) == PixelThreshold(px, py)
    ensures PixelThreshold(px, py + TileSize) == PixelThreshold(px, py)
    ensures PixelColour(px + TileSize, py) == PixelColour(px, py)
    ensures PixelColour(px, py + TileSize) == PixelColour(px, py)
  {
    assert (px + 8) % 8 == px % 8;
    assert (py + 8) % 8 == py % 8;
    PixelThresholdByCell(px, py);
    PixelThresholdByCell(px + 8, py);
    PixelThresholdByCell(px, py + 8);
    assert PixelColour(px + 8, py) == DitherColour(PixelThreshold(px + 8, py), Gray);
    assert PixelColour(px, py + 8) == DitherColour(PixelThreshold(px, py + 8), Gray);
    assert PixelColour(px, py) == DitherColour(PixelThreshold(px, py), Gray);
  }

  /** The constant luminance is exactly 1.0. */
  lemma GrayIsOne()
    ensures Gray == 1.0
  {
  }

  /**
   * The luminance is a constant 1.0, above every threshold the tile can
   * produce, so every fragment is opaque white wherever it lies on screen.
   */
  lemma AlwaysWhite(fx: real, fy: real)
    ensures Shade(fx, fy) == Rgba(1.0, 1.0, 1.0, 1.0)
  {
    FragThresholdBounds(fx, fy);
    GrayIsOne();
  }
}
