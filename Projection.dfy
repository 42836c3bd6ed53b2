/** The Web Mercator forward projection of generate_map_png.py
    (`lonlat_to_pixels`): longitude maps linearly onto the global pixel x
    axis, latitude goes through a clamped sine and a logarithm.  Pixel
    coordinates are reals; `math.sin` and `math.log` are supplied by the
    caller as a MathLib, since only their floating-point values are known. */
module Projection {

  /** The side of one slippy-map tile in pixels. */
  const TILE_SIZE: nat := 256

  /** `math.pi` as a decimal. */
  const PI: real := 3.141592653589793

  /** The sine of the latitude is kept within this distance of 0. */
  const SINE_LIMIT: real := 0.9999

  /** The two transcendental functions the projection calls. */
  datatype MathLib = MathLib(sin: real -> real, log: real -> real)

  /** A global pixel position at some zoom level. */
  datatype Pixel = Pixel(x: real, y: real)

  /** A geographic point as the script holds it: a (latitude, longitude) pair. */
  datatype GeoPoint = GeoPoint(lat: real, lon: real)

  /** A projection evaluated per zoom level. */
  type Projector = (GeoPoint, nat) -> Pixel

  function Pow2(n: nat): (r: nat)
    ensures r >= 1
  {
    if n == 0 then 1 else 2 * Pow2(n - 1)
  }

  /** The width of the whole world in pixels at `zoom`: `256 * (2 ** zoom)`. */
  function Scale(zoom: nat): (s: real)
    ensures s >= TILE_SIZE as real
  {
    TILE_SIZE as real * Pow2(zoom) as real
  }

  /** `min(max(siny, -0.9999), 0.9999)`. */
  function ClampSine(s: real): (c: real)
    ensures -SINE_LIMIT <= c <= SINE_LIMIT
    ensures -SINE_LIMIT <= s <= SINE_LIMIT ==> c == s
    ensures s > SINE_LIMIT ==> c == SINE_LIMIT
    ensures s < -SINE_LIMIT ==> c == -SINE_LIMIT
  {
    var lower := if s > -SINE_LIMIT then s else -SINE_LIMIT;
    if lower < SINE_LIMIT then lower else SINE_LIMIT
  }

  /** The argument `(1 + siny) / (1 - siny)` handed to `math.log` once the
      sine is clamped: never zero, negative or infinite, and bounded on both
      sides by 19999 = 1.9999 / 0.0001. */
  function LogArgument(siny: real): (q: real)
    requires -SINE_LIMIT <= siny <= SINE_LIMIT
    ensures q > 0.0
    ensures 1.0 / 19999.0 <= q <= 19999.0
  {
    var num, den := 1.0 + siny, 1.0 - siny;
    assert den >= 0.0001 && num >= 0.0001;
    var q := num / den;
    assert q * den == num;
    q
  }

  /** The pixel x of a longitude: `(lon + 180) / 360 * scale`. */
  function PixelX(lon: real, zoom: nat): (x: real)
  {
    (lon + 180.0) / 360.0 * Scale(zoom)
  }

  /** The y position at zoom 0 and scale 1, that is
      `0.5 - log((1 + siny) / (1 - siny)) / (4 * pi)` with the clamped sine. */
  function UnitY(lat: real, m: MathLib): real
  {
    var siny := ClampSine(m.sin(lat * PI / 180.0));
    0.5 - m.log(LogArgument(siny)) / (4.0 * PI)
  }

  /** `lonlat_to_pixels(lon, lat, zoom)`. */
  function LonLatToPixels(lon: real, lat: real, zoom: nat, m: MathLib): Pixel
  {
    Pixel(PixelX(lon, zoom), UnitY(lat, m) * Scale(zoom))
  }

  /** `lonlat_to_pixels` as a Projector. */
  function Mercator(m: MathLib): Projector
  {
    (p: GeoPoint, zoom: nat) => LonLatToPixels(p.lon, p.lat, zoom, m)
  }

  /** The clamp never reverses the order of two sines, so a monotone
      logarithm keeps the projection monotone in latitude. */
  lemma ClampSineMonotone(s1: real, s2: real)
    requires s1 <= s2
    ensures ClampSine(s1) <= ClampSine(s2)
  {
  }

  /** Longitude -180 is at the left edge, 0 in the middle, 180 at the right
      edge of the world. */
  lemma PixelXAnchors(zoom: nat)
    ensures PixelX(-180.0, zoom) == 0.0
    ensures PixelX(0.0, zoom) == Scale(zoom) / 2.0
    ensures PixelX(180.0, zoom) == Scale(zoom)
  {
  }

  lemma PixelXStrictlyIncreasing(lon1: real, lon2: real, zoom: nat)
    requires lon1 < lon2
    ensures PixelX(lon1, zoom) < PixelX(lon2, zoom)
  {
    var s := Scale(zoom);
    MultiplyStrict((lon1 + 180.0) / 360.0, (lon2 + 180.0) / 360.0, s);
  }

  lemma MultiplyStrict(a: real, b: real, k: real)
    requires a < b && k > 0.0
    ensures a * k < b * k
  {
  }

  /** Each zoom step doubles both pixel coordinates of every point. */
  lemma ZoomStepDoubles(lon: real, lat: real, zoom: nat, m: MathLib)
    ensures LonLatToPixels(lon, lat, zoom + 1, m).x == 2.0 * LonLatToPixels(lon, lat, zoom, m).x
    ensures LonLatToPixels(lon, lat, zoom + 1, m).y == 2.0 * LonLatToPixels(lon, lat, zoom, m).y
  {
    var s := Scale(zoom);
    assert Scale(zoom + 1) == 2.0 * s;
    var u := (lon + 180.0) / 360.0;
    assert u * (2.0 * s) == 2.0 * (u * s);
    var v := UnitY(lat, m);
    assert v * (2.0 * s) == 2.0 * (v * s);
  }

  /** Where sin(0) = 0 and log(1) = 0, the point (0, 0) lands in the centre
      of the world at every zoom. */
  lemma OriginIsCentre(zoom: nat, m: MathLib)
    requires m.sin(0.0) == 0.0 && m.log(1.0) == 0.0
    ensures LonLatToPixels(0.0, 0.0, zoom, m) == Pixel(Scale(zoom) / 2.0, Scale(zoom) / 2.0)
  {
    assert LogArgument(0.0) == 1.0;
    assert UnitY(0.0, m) == 0.5;
    var s := Scale(zoom);
    assert PixelX(0.0, zoom) == 0.5 * s;
  }
}
