/** The top level of generate_map_png.py (lines 36-161 without the network
    fetch of activations and the PNG encoding): the activation points are
    sorted, padded bounds and a zoom are chosen, the covering tiles are laid
    out on a black canvas, stitched in row-major order, and a marker is
    drawn for every point. */
module MapRender {
  import opened Wrappers
  import opened Projection
  import opened ZoomSelect
  import opened TileGrid
  import opened TileCache
  import opened Compositor
  import Sorting

  /** The degrees added around the points' bounds (line 53). */
  const PADDING: real := 0.1

  /** Why the script stops before saving a map. */
  datatype RenderError =
    | NoActivations            // line 45: no coordinates at all
    | NoTiles                  // lines 99-100: `min` of an empty tile list
    | TileFetch(cause: FetchError)

  /** The sort key of line 47: latitude first, then longitude. */
  predicate PointLe(a: GeoPoint, b: GeoPoint) {
    a.lat < b.lat || (a.lat == b.lat && a.lon <= b.lon)
  }

  /** `sorted(points, key=lambda p: (p[0], p[1]))` */
  function SortPoints(points: seq<GeoPoint>): seq<GeoPoint>
  {
    Sorting.InsertionSort(points, PointLe)
  }

  lemma PointLeIsTotalPreorder()
    ensures Sorting.TotalPreorder(PointLe)
  {
  }

  /** The sorted points are the same points, ordered by latitude and then
      longitude; since the key is the whole point, no other order is. */
  lemma SortPointsCorrect(points: seq<GeoPoint>, other: seq<GeoPoint>)
    ensures Sorting.SortedBy(PointLe, SortPoints(points))
    ensures multiset(SortPoints(points)) == multiset(points)
    ensures Sorting.SortedBy(PointLe, other) && multiset(other) == multiset(points) ==> other == SortPoints(points)
  {
    PointLeIsTotalPreorder();
    Sorting.InsertionSortCorrect(points, PointLe);
    if Sorting.SortedBy(PointLe, other) && multiset(other) == multiset(points) {
      Sorting.SortedPermutationUnique(SortPoints(points), other, PointLe);
    }
  }

  /** The west, south, east and north edges handed to `mercantile.tiles`. */
  datatype Bounds = Bounds(west: real, south: real, east: real, north: real)

  function Lats(points: seq<GeoPoint>): (lats: seq<real>)
    ensures |lats| == |points|
  {
    seq(|points|, i requires 0 <= i < |points| => points[i].lat)
  }

  function Lons(points: seq<GeoPoint>): (lons: seq<real>)
    ensures |lons| == |points|
  {
    seq(|points|, i requires 0 <= i < |points| => points[i].lon)
  }

  /** Lines 49-55: the points' latitude and longitude ranges widened by
      PADDING on every side. */
  function PaddedBounds(points: seq<GeoPoint>): (b: Bounds)
    requires |points| > 0
    ensures forall i :: 0 <= i < |points| ==>
      b.south + PADDING <= points[i].lat <= b.north - PADDING && b.west + PADDING <= points[i].lon <= b.east - PADDING
    ensures exists i :: 0 <= i < |points| && points[i].lat == b.south + PADDING
    ensures exists i :: 0 <= i < |points| && points[i].lat == b.north - PADDING
    ensures exists i :: 0 <= i < |points| && points[i].lon == b.west + PADDING
    ensures exists i :: 0 <= i < |points| && points[i].lon == b.east - PADDING
  {
    var lats, lons := Lats(points), Lons(points);
    var b := Bounds(MinOf(lons) - PADDING, MinOf(lats) - PADDING, MaxOf(lons) + PADDING, MaxOf(lats) + PADDING);
    assert forall i :: 0 <= i < |points| ==> lats[i] == points[i].lat && lons[i] == points[i].lon;
    b
  }

  /** Extremes depend only on which values occur, not on their order. */
  lemma ExtremesSameElements(s: seq<real>, t: seq<real>)
    requires |s| > 0 && |t| > 0
    requires forall x :: x in s <==> x in t
    ensures MinOf(s) == MinOf(t) && MaxOf(s) == MaxOf(t)
  {
    var i :| 0 <= i < |s| && s[i] == MinOf(t);
    var j :| 0 <= j < |t| && t[j] == MinOf(s);
    var k :| 0 <= k < |s| && s[k] == MaxOf(t);
    var n :| 0 <= n < |t| && t[n] == MaxOf(s);
  }

  /** Reordering the points leaves every pixel bounding box, and so the
      chosen zoom, unchanged: the sort of line 47 only fixes the order in
      which markers are drawn. */
  lemma SelectZoomIgnoresOrder(points: seq<GeoPoint>, other: seq<GeoPoint>, proj: Projector, vp: Viewport)
    requires multiset(other) == multiset(points)
    ensures SelectZoom(other, proj, vp) == SelectZoom(points, proj, vp)
  {
    forall z: nat
      ensures FitsAt(points, proj, vp)(z) == FitsAt(other, proj, vp)(z)
    {
      assert |points| == |multiset(points)| == |other|;
      if |points| > 0 {
        SameBox(points, other, proj, z);
      }
    }
    SearchDownMonotone(FitsAt(points, proj, vp), FitsAt(other, proj, vp), MAX_ZOOM);
    SearchDownMonotone(FitsAt(other, proj, vp), FitsAt(points, proj, vp), MAX_ZOOM);
  }

  lemma SameBox(points: seq<GeoPoint>, other: seq<GeoPoint>, proj: Projector, z: nat)
    requires |points| > 0 && |other| > 0
    requires multiset(other) == multiset(points)
    ensures Span(PixelXs(points, z, proj)) == Span(PixelXs(other, z, proj))
    ensures Span(PixelYs(points, z, proj)) == Span(PixelYs(other, z, proj))
  {
    SameXs(points, other, proj, z);
    SameXs(other, points, proj, z);
    SameYs(points, other, proj, z);
    SameYs(other, points, proj, z);
    ExtremesSameElements(PixelXs(points, z, proj), PixelXs(other, z, proj));
    ExtremesSameElements(PixelYs(points, z, proj), PixelYs(other, z, proj));
  }

  lemma SameXs(points: seq<GeoPoint>, other: seq<GeoPoint>, proj: Projector, z: nat)
    requires multiset(other) == multiset(points)
    ensures forall x :: x in PixelXs(points, z, proj) ==> x in PixelXs(other, z, proj)
  {
    var xs, xs' := PixelXs(points, z, proj), PixelXs(other, z, proj);
    forall i | 0 <= i < |points|
      ensures xs[i] in xs'
    {
      assert points[i] in multiset(other);
      var j :| 0 <= j < |other| && other[j] == points[i];
      assert xs'[j] == xs[i];
    }
  }

  lemma SameYs(points: seq<GeoPoint>, other: seq<GeoPoint>, proj: Projector, z: nat)
    requires multiset(other) == multiset(points)
    ensures forall y :: y in PixelYs(points, z, proj) ==> y in PixelYs(other, z, proj)
  {
    var ys, ys' := PixelYs(points, z, proj), PixelYs(other, z, proj);
    forall i | 0 <= i < |points|
      ensures ys[i] in ys'
    {
      assert points[i] in multiset(other);
      var j :| 0 <= j < |other| && other[j] == points[i];
      assert ys'[j] == ys[i];
    }
  }

  /** `mercantile.tiles(west, south, east, north, zoom)`: the tiles covering
      a box at a zoom. */
  type TileCover = (Bounds, nat) -> seq<TileCoord>

  /** Lines 96-141 for a non-empty tile list: a black canvas sized by the
      tile ranges, with the tiles fetched through the cache and pasted in
      row-major order. */
  method PaintTiles(tiles: seq<TileCoord>, store: TileStore, network: TileCoord -> HttpReply)
      returns (r: Result<Canvas, FetchError>)
    requires |tiles| > 0
    modifies store
    ensures var l := LayoutOf(tiles);
      var order := SortTiles(tiles);
      && (r.Ok? <==> AllAvailable(old(store.files), order, network))
      && (r.Ok? ==>
        && fresh(r.value) && r.value.Valid() && r.value.ellipses == []
        && r.value.pixels.Length0 == CanvasHeight(l) && r.value.pixels.Length1 == CanvasWidth(l)
        && r.value.image == Stitched(BlackRaster(CanvasHeight(l), CanvasWidth(l)), order, ServedImages(old(store.files), order, network), l))
      && (r.Err? ==> FailsAt(old(store.files), order, network, r.error))
      && StoreState(store.files, store.requests) == Fetched(StoreState(old(store.files), old(store.requests)), order, network)
  {
    ghost var files0 := store.files;
    var l := LayoutOf(tiles);
    CanvasSize(tiles);
    var canvas := new Canvas(CanvasWidth(l), CanvasHeight(l));
    ghost var black := canvas.image;
    var order := SortTiles(tiles);
    assert store.files == files0 && canvas.image == black == BlackRaster(CanvasHeight(l), CanvasWidth(l));
    var stitched := Stitch(canvas, store, order, l, network);
    if stitched.Err? {
      return Err(stitched.error);
    }
    return Ok(canvas);
  }

  /** Lines 96-161 for a non-empty tile list: the tiles painted as
      `PaintTiles` does, then the marker of each of `points` drawn in
      order. */
  method DrawMap(tiles: seq<TileCoord>, points: seq<GeoPoint>, proj: Projector, zoom: nat, store: TileStore, network: TileCoord -> HttpReply)
      returns (r: Result<Canvas, FetchError>)
    requires |tiles| > 0
    modifies store
    ensures var l := LayoutOf(tiles);
      var order := SortTiles(tiles);
      && (r.Ok? <==> AllAvailable(old(store.files), order, network))
      && (r.Ok? ==>
        && fresh(r.value) && r.value.Valid()
        && r.value.pixels.Length0 == CanvasHeight(l) && r.value.pixels.Length1 == CanvasWidth(l)
        && r.value.image == Stitched(BlackRaster(CanvasHeight(l), CanvasWidth(l)), order, ServedImages(old(store.files), order, network), l)
        && r.value.ellipses == MarkerBoxes(points, proj, zoom, l))
      && (r.Err? ==> FailsAt(old(store.files), order, network, r.error))
      && StoreState(store.files, store.requests) == Fetched(StoreState(old(store.files), old(store.requests)), order, network)
  {
    r := PaintTiles(tiles, store, network);
    if r.Ok? {
      DrawMarkers(r.value, points, proj, zoom, LayoutOf(tiles));
      assert r.value.ellipses == [] + MarkerBoxes(points, proj, zoom, LayoutOf(tiles));
    }
  }

  /** The whole script from line 44 to line 161, for the activation points
      `points`, the projection's `sin`/`log` in `m`, the tile cover `cover`,
      the tile cache `store` and the tile server's answers `network`.  The
      zoom is returned as well: the script prints it (line 83). */
  method RenderMap(points: seq<GeoPoint>, m: MathLib, cover: TileCover, store: TileStore, network: TileCoord -> HttpReply)
      returns (r: Result<Canvas, RenderError>, zoom: int)
    modifies store
    ensures |points| == 0 <==> r == Err(NoActivations)
    ensures |points| > 0 ==>
      var sorted := SortPoints(points);
      && IsChosenZoom(FitsAt(sorted, Mercator(m), TARGET), zoom)
      && var tiles := cover(PaddedBounds(sorted), zoom);
      && (r == Err(NoTiles) <==> |tiles| == 0)
      && (|tiles| > 0 ==>
        var l := LayoutOf(tiles);
        var order := SortTiles(tiles);
        && (r.Ok? <==> AllAvailable(old(store.files), order, network))
        && (r.Ok? ==>
          && fresh(r.value) && r.value.Valid()
          && r.value.pixels.Length0 == CanvasHeight(l) && r.value.pixels.Length1 == CanvasWidth(l)
          && r.value.image == Stitched(BlackRaster(CanvasHeight(l), CanvasWidth(l)), order, ServedImages(old(store.files), order, network), l)
          && r.value.ellipses == MarkerBoxes(sorted, Mercator(m), zoom, l))
        && (r.Err? ==> r.error.TileFetch? && FailsAt(old(store.files), order, network, r.error.cause))
        && StoreState(store.files, store.requests) == Fetched(StoreState(old(store.files), old(store.requests)), order, network))
    ensures (|points| == 0 || r == Err(NoTiles)) ==> store.files == old(store.files) && store.requests == old(store.requests)
  {
    if |points| == 0 {
      return Err(NoActivations), MIN_ZOOM;
    }
    var sorted := SortPoints(points);
    var bounds := PaddedBounds(sorted);
    zoom := ChooseZoom(sorted, Mercator(m), PADDING);
    var tiles := cover(bounds, zoom);
    if |tiles| == 0 {
      return Err(NoTiles), zoom;
    }
    var drawn := DrawMap(tiles, sorted, Mercator(m), zoom, store, network);
    if drawn.Err? {
      return Err(TileFetch(drawn.error)), zoom;
    }
    return Ok(drawn.value), zoom;
  }
}
