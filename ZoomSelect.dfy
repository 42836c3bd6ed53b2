/** Zoom selection of generate_map_png.py (`choose_zoom`): from MAX_ZOOM down
    to MIN_ZOOM, the first zoom at which the pixel bounding box of all points
    fits the target viewport, else MIN_ZOOM.  The search is stated for any
    projection `proj` evaluated per zoom; the script passes Mercator(m). */
module ZoomSelect {
  import opened Projection

  const MAX_ZOOM: nat := 12
  const MIN_ZOOM: nat := 4

  /** The pixel size the bounding box must fit in. */
  datatype Viewport = Viewport(width: real, height: real)

  /** TARGET_WIDTH x TARGET_HEIGHT = 1200 x 800. */
  const TARGET: Viewport := Viewport(1200.0, 800.0)

  /** Python's `min` and `max` over coordinates.  `TileGrid.MinInt` and
      `TileGrid.MaxInt` are the same built-ins over integer tile numbers;
      Dafny has no ordering shared by `real` and `int`, so each type has
      its own pair. */
  function MinOf(s: seq<real>): (r: real)
    requires |s| > 0
    ensures r in s
    ensures forall i :: 0 <= i < |s| ==> r <= s[i]
  {
    if |s| == 1 then s[0]
    else
      var rest := MinOf(s[1..]);
      if s[0] <= rest then s[0] else rest
  }

  function MaxOf(s: seq<real>): (r: real)
    requires |s| > 0
    ensures r in s
    ensures forall i :: 0 <= i < |s| ==> s[i] <= r
  {
    if |s| == 1 then s[0]
    else
      var rest := MaxOf(s[1..]);
      if s[0] >= rest then s[0] else rest
  }

  /** The extent `max(s) - min(s)` of a list of coordinates. */
  function Span(s: seq<real>): (w: real)
    requires |s| > 0
    ensures w >= 0.0
  {
    MaxOf(s) - MinOf(s)
  }

  /** The pixel x of every point at `zoom`, in point order. */
  function PixelXs(points: seq<GeoPoint>, zoom: nat, proj: Projector): (xs: seq<real>)
    ensures |xs| == |points|
  {
    seq(|points|, i requires 0 <= i < |points| => proj(points[i], zoom).x)
  }

  /** The pixel y of every point at `zoom`, in point order. */
  function PixelYs(points: seq<GeoPoint>, zoom: nat, proj: Projector): (ys: seq<real>)
    ensures |ys| == |points|
  {
    seq(|points|, i requires 0 <= i < |points| => proj(points[i], zoom).y)
  }

  /** The test of `choose_zoom`: `width <= TARGET_WIDTH and height <= TARGET_HEIGHT`. */
  predicate Fits(points: seq<GeoPoint>, proj: Projector, vp: Viewport, zoom: nat)
    requires |points| > 0
  {
    Span(PixelXs(points, zoom, proj)) <= vp.width && Span(PixelYs(points, zoom, proj)) <= vp.height
  }

  /** The test of `choose_zoom` at every zoom, as a predicate on zooms. */
  function FitsAt(points: seq<GeoPoint>, proj: Projector, vp: Viewport): nat -> bool
  {
    (z: nat) => |points| > 0 && Fits(points, proj, vp, z)
  }

  /** The descending search of `choose_zoom` started at `zoom`, for any test
      `fits` evaluated per zoom. */
  function SearchDown(fits: nat -> bool, zoom: int): int
    decreases zoom
  {
    if zoom < MIN_ZOOM as int then MIN_ZOOM
    else if fits(zoom) then zoom
    else SearchDown(fits, zoom - 1)
  }

  /** The zoom `choose_zoom` returns for `points` and viewport `vp`. */
  function SelectZoom(points: seq<GeoPoint>, proj: Projector, vp: Viewport): int
  {
    SearchDown(FitsAt(points, proj, vp), MAX_ZOOM)
  }

  /** What `choose_zoom` promises of its answer `r`: a zoom in
      [MIN_ZOOM, MAX_ZOOM]; above MIN_ZOOM it fits; every higher zoom does
      not fit; and whenever some zoom in range fits, `r` fits. */
  ghost predicate IsChosenZoom(fits: nat -> bool, r: int)
  {
    && MIN_ZOOM as int <= r <= MAX_ZOOM as int
    && (r > MIN_ZOOM as int ==> fits(r))
    && (forall z: nat :: r < z <= MAX_ZOOM ==> !fits(z))
    && ((exists z: nat :: MIN_ZOOM <= z <= MAX_ZOOM && fits(z)) ==> fits(r))
  }

  /** `choose_zoom(points, padding)`: the loop of the source, which never
      reads `padding`. */
  method ChooseZoom(points: seq<GeoPoint>, proj: Projector, padding: real) returns (zoom: int)
    requires |points| > 0
    ensures IsChosenZoom(FitsAt(points, proj, TARGET), zoom)
  {
    ghost var fits := FitsAt(points, proj, TARGET);
    zoom := MAX_ZOOM;
    while zoom >= MIN_ZOOM as int
      invariant MIN_ZOOM as int - 1 <= zoom <= MAX_ZOOM as int
      invariant forall z: nat :: zoom < z <= MAX_ZOOM ==> !fits(z)
    {
      var width := Span(PixelXs(points, zoom, proj));
      var height := Span(PixelYs(points, zoom, proj));
      if width <= TARGET.width && height <= TARGET.height {
        return zoom;
      }
      assert !fits(zoom);
      forall z: nat | zoom - 1 < z <= MAX_ZOOM
        ensures !fits(z)
      {
        if z != zoom {
          assert zoom < z;
        }
      }
      zoom := zoom - 1;
    }
    return MIN_ZOOM;
  }

  /** The search from `zoom` returns the highest zoom in [MIN_ZOOM, zoom]
      that fits, or MIN_ZOOM when none does. */
  lemma {:induction false} SearchDownCorrect(fits: nat -> bool, zoom: int)
    requires MIN_ZOOM as int - 1 <= zoom
    ensures var r := SearchDown(fits, zoom);
      && MIN_ZOOM as int <= r
      && (zoom >= MIN_ZOOM as int ==> r <= zoom)
      && (r > MIN_ZOOM as int ==> fits(r))
      && (forall z: nat :: r < z <= zoom ==> !fits(z))
      && ((exists z: nat :: MIN_ZOOM <= z <= zoom && fits(z)) ==> fits(r))
    decreases zoom
  {
    if zoom >= MIN_ZOOM as int && !fits(zoom) {
      SearchDownCorrect(fits, zoom - 1);
      if exists z: nat :: MIN_ZOOM <= z <= zoom && fits(z) {
        var z: nat :| MIN_ZOOM <= z <= zoom && fits(z);
        assert z <= zoom - 1;
      }
    }
  }

  lemma SelectZoomCorrect(points: seq<GeoPoint>, proj: Projector, vp: Viewport)
    ensures IsChosenZoom(FitsAt(points, proj, vp), SelectZoom(points, proj, vp))
  {
    SearchDownCorrect(FitsAt(points, proj, vp), MAX_ZOOM);
  }

  /** The characterisation pins the zoom down, so the loop of ChooseZoom and
      the recursion of SelectZoom give the same answer. */
  lemma ChosenZoomUnique(fits: nat -> bool, r: int)
    requires IsChosenZoom(fits, r)
    ensures r == SearchDown(fits, MAX_ZOOM)
  {
    SearchDownCorrect(fits, MAX_ZOOM);
  }

  /** A single point, or points that all coincide, have a bounding box of
      width and height 0, so the first zoom tried, MAX_ZOOM, is chosen. */
  lemma IdenticalPointsSelectMaxZoom(points: seq<GeoPoint>, proj: Projector, vp: Viewport)
    requires |points| > 0
    requires forall i :: 0 <= i < |points| ==> points[i] == points[0]
    requires vp.width >= 0.0 && vp.height >= 0.0
    ensures Span(PixelXs(points, MAX_ZOOM, proj)) == 0.0
    ensures Span(PixelYs(points, MAX_ZOOM, proj)) == 0.0
    ensures SelectZoom(points, proj, vp) == MAX_ZOOM
  {
    var xs, ys := PixelXs(points, MAX_ZOOM, proj), PixelYs(points, MAX_ZOOM, proj);
    assert forall i :: 0 <= i < |xs| ==> xs[i] == xs[0];
    assert forall i :: 0 <= i < |ys| ==> ys[i] == ys[0];
  }

  /** A larger viewport never makes `choose_zoom` pick a lower zoom. */
  lemma SelectZoomMonotoneInViewport(points: seq<GeoPoint>, proj: Projector, vp1: Viewport, vp2: Viewport)
    requires |points| > 0
    requires vp1.width <= vp2.width && vp1.height <= vp2.height
    ensures SelectZoom(points, proj, vp1) <= SelectZoom(points, proj, vp2)
  {
    forall z: nat | FitsAt(points, proj, vp1)(z) ensures FitsAt(points, proj, vp2)(z) {
    }
    SearchDownMonotone(FitsAt(points, proj, vp1), FitsAt(points, proj, vp2), MAX_ZOOM);
  }

  /** A weaker test never makes the descending search stop lower. */
  lemma {:induction false} SearchDownMonotone(f1: nat -> bool, f2: nat -> bool, zoom: int)
    requires forall z: nat :: f1(z) ==> f2(z)
    ensures SearchDown(f1, zoom) <= SearchDown(f2, zoom)
    decreases zoom
  {
    if zoom >= MIN_ZOOM as int && !f2(zoom) {
      SearchDownMonotone(f1, f2, zoom - 1);
    } else if zoom >= MIN_ZOOM as int {
      SearchDownCorrect(f1, zoom);
    }
  }

  /** The sequence `s` with every element doubled. */
  function Doubled(s: seq<real>): (r: seq<real>)
    ensures |r| == |s|
  {
    seq(|s|, i requires 0 <= i < |s| => 2.0 * s[i])
  }

  /** Doubling every coordinate doubles the extent. */
  lemma SpanDoubles(s: seq<real>)
    requires |s| > 0
    ensures Span(Doubled(s)) == 2.0 * Span(s)
  {
    MinDoubles(s);
    MaxDoubles(s);
  }

  /** Doubling commutes with dropping the first coordinate. */
  lemma DoubledTail(s: seq<real>)
    requires |s| > 0
    ensures Doubled(s)[1..] == Doubled(s[1..])
  {
    var d, t := Doubled(s), Doubled(s[1..]);
    forall i | 0 <= i < |t|
      ensures d[1..][i] == t[i]
    {
      assert d[1..][i] == d[i + 1] == 2.0 * s[i + 1];
      assert s[1..][i] == s[i + 1];
    }
  }

  lemma {:induction false} MinDoubles(s: seq<real>)
    requires |s| > 0
    ensures MinOf(Doubled(s)) == 2.0 * MinOf(s)
  {
    var d := Doubled(s);
    assert d[0] == 2.0 * s[0];
    if |s| > 1 {
      MinDoubles(s[1..]);
      DoubledTail(s);
      var rest, restD := MinOf(s[1..]), MinOf(d[1..]);
      assert restD == 2.0 * rest;
      assert MinOf(s) == if s[0] <= rest then s[0] else rest;
      assert MinOf(d) == if d[0] <= restD then d[0] else restD;
    }
  }

  lemma {:induction false} MaxDoubles(s: seq<real>)
    requires |s| > 0
    ensures MaxOf(Doubled(s)) == 2.0 * MaxOf(s)
  {
    var d := Doubled(s);
    assert d[0] == 2.0 * s[0];
    if |s| > 1 {
      MaxDoubles(s[1..]);
      DoubledTail(s);
      var rest, restD := MaxOf(s[1..]), MaxOf(d[1..]);
      assert restD == 2.0 * rest;
      assert MaxOf(s) == if s[0] >= rest then s[0] else rest;
      assert MaxOf(d) == if d[0] >= restD then d[0] else restD;
    }
  }

  /** One zoom step doubles the pixel bounding box of the Mercator
      projection. */
  lemma ZoomStepDoublesBox(points: seq<GeoPoint>, m: MathLib, zoom: nat)
    requires |points| > 0
    ensures Span(PixelXs(points, zoom + 1, Mercator(m))) == 2.0 * Span(PixelXs(points, zoom, Mercator(m)))
    ensures Span(PixelYs(points, zoom + 1, Mercator(m))) == 2.0 * Span(PixelYs(points, zoom, Mercator(m)))
  {
    var proj := Mercator(m);
    forall i | 0 <= i < |points|
      ensures proj(points[i], zoom + 1).x == 2.0 * proj(points[i], zoom).x
      ensures proj(points[i], zoom + 1).y == 2.0 * proj(points[i], zoom).y
    {
      ZoomStepDoubles(points[i].lon, points[i].lat, zoom, m);
    }
    assert PixelXs(points, zoom + 1, proj) == Doubled(PixelXs(points, zoom, proj));
    assert PixelYs(points, zoom + 1, proj) == Doubled(PixelYs(points, zoom, proj));
    SpanDoubles(PixelXs(points, zoom, proj));
    SpanDoubles(PixelYs(points, zoom, proj));
  }

  /** Under the Mercator projection the zooms that fit form a down-set: if a
      zoom fits, every lower zoom fits as well.  So the first fitting zoom
      from the top is also the highest zoom that fits at all. */
  lemma {:induction false} MercatorFitsDownwardClosed(points: seq<GeoPoint>, m: MathLib, vp: Viewport, lo: nat, hi: nat)
    requires |points| > 0
    requires lo <= hi
    requires Fits(points, Mercator(m), vp, hi)
    ensures Fits(points, Mercator(m), vp, lo)
    decreases hi - lo
  {
    if lo < hi {
      ZoomStepDoublesBox(points, m, lo);
      MercatorFitsDownwardClosed(points, m, vp, lo + 1, hi);
    }
  }
}
