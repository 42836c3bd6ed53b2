/** Where tiles and markers land on the canvas (generate_map_png.py lines
    96-103 and 132-150): the canvas spans the tiles' x and y ranges, each
    tile is pasted at its offset from the minimum tile, and each marker at
    its global pixel position minus the canvas origin, truncated to an int. */
module TileGrid {
  import opened Projection
  import Sorting

  /** A slippy-map tile address (zoom, column, row). */
  datatype TileCoord = TileCoord(z: nat, x: nat, y: nat)

  type Byte = b: int | 0 <= b < 256

  datatype Rgb = Rgb(red: Byte, green: Byte, blue: Byte)

  /** The colour a fresh `Image.new("RGB", ...)` canvas is filled with. */
  const BLACK: Rgb := Rgb(0, 0, 0)

  ghost predicate IsTileRaster(img: seq<seq<Rgb>>) {
    |img| == TILE_SIZE && forall row :: 0 <= row < |img| ==> |img[row]| == TILE_SIZE
  }

  /** A decoded tile: TILE_SIZE rows of TILE_SIZE pixels, indexed [row][column]. */
  type TileImage = img: seq<seq<Rgb>> | IsTileRaster(img)
    witness seq(256, _ => seq(256, _ => BLACK))

  /** The tile ranges `min_x, max_x, min_y, max_y` of lines 99-100. */
  datatype Layout = Layout(minX: int, maxX: int, minY: int, maxY: int)

  function MinInt(s: seq<int>): (r: int)
    requires |s| > 0
    ensures r in s
    ensures forall i :: 0 <= i < |s| ==> r <= s[i]
  {
    if |s| == 1 then s[0]
    else
      var rest := MinInt(s[1..]);
      if s[0] <= rest then s[0] else rest
  }

  function MaxInt(s: seq<int>): (r: int)
    requires |s| > 0
    ensures r in s
    ensures forall i :: 0 <= i < |s| ==> s[i] <= r
  {
    if |s| == 1 then s[0]
    else
      var rest := MaxInt(s[1..]);
      if s[0] >= rest then s[0] else rest
  }

  /** `[t.x for t in tiles]` */
  function TileXs(tiles: seq<TileCoord>): (xs: seq<int>)
    ensures |xs| == |tiles|
  {
    seq(|tiles|, i requires 0 <= i < |tiles| => tiles[i].x)
  }

  /** `[t.y for t in tiles]` */
  function TileYs(tiles: seq<TileCoord>): (ys: seq<int>)
    ensures |ys| == |tiles|
  {
    seq(|tiles|, i requires 0 <= i < |tiles| => tiles[i].y)
  }

  /** A value of a per-tile projection is attained by some tile. */
  lemma Attained(tiles: seq<TileCoord>, vs: seq<int>, v: int)
    requires vs == TileXs(tiles) || vs == TileYs(tiles)
    requires v in vs
    ensures vs == TileXs(tiles) ==> exists t :: t in tiles && t.x == v
    ensures vs == TileYs(tiles) ==> exists t :: t in tiles && t.y == v
  {
    var i :| 0 <= i < |vs| && vs[i] == v;
    assert tiles[i] in tiles;
  }

  /** Every tile lies within the extremes of both projections. */
  lemma InRanges(tiles: seq<TileCoord>, l: Layout)
    requires |tiles| > 0
    requires l == Layout(MinInt(TileXs(tiles)), MaxInt(TileXs(tiles)), MinInt(TileYs(tiles)), MaxInt(TileYs(tiles)))
    ensures forall t :: t in tiles ==> l.minX <= t.x <= l.maxX && l.minY <= t.y <= l.maxY
  {
    var xs, ys := TileXs(tiles), TileYs(tiles);
    forall t | t in tiles
      ensures l.minX <= t.x <= l.maxX && l.minY <= t.y <= l.maxY
    {
      var i :| 0 <= i < |tiles| && tiles[i] == t;
      assert xs[i] == t.x && ys[i] == t.y;
    }
  }

  /** Lines 96-100: the smallest and largest tile column and row.  Every
      tile lies inside the ranges, and each bound is attained by a tile. */
  function LayoutOf(tiles: seq<TileCoord>): (l: Layout)
    requires |tiles| > 0
    ensures l.minX <= l.maxX && l.minY <= l.maxY
    ensures forall t :: t in tiles ==> l.minX <= t.x <= l.maxX && l.minY <= t.y <= l.maxY
    ensures exists t :: t in tiles && t.x == l.minX
    ensures exists t :: t in tiles && t.x == l.maxX
    ensures exists t :: t in tiles && t.y == l.minY
    ensures exists t :: t in tiles && t.y == l.maxY
  {
    var xs, ys := TileXs(tiles), TileYs(tiles);
    var l := Layout(MinInt(xs), MaxInt(xs), MinInt(ys), MaxInt(ys));
    InRanges(tiles, l);
    Attained(tiles, xs, l.minX);
    Attained(tiles, xs, l.maxX);
    Attained(tiles, ys, l.minY);
    Attained(tiles, ys, l.maxY);
    l
  }

  /** Line 102: `(max_x - min_x + 1) * TILE_SIZE`. */
  function CanvasWidth(l: Layout): int
  {
    (l.maxX - l.minX + 1) * TILE_SIZE
  }

  /** Line 103: `(max_y - min_y + 1) * TILE_SIZE`. */
  function CanvasHeight(l: Layout): int
  {
    (l.maxY - l.minY + 1) * TILE_SIZE
  }

  /** Lines 139-140: the pixel column and row of a tile's top-left corner. */
  function PasteX(l: Layout, t: TileCoord): int
  {
    (t.x - l.minX) * TILE_SIZE
  }

  function PasteY(l: Layout, t: TileCoord): int
  {
    (t.y - l.minY) * TILE_SIZE
  }

  /** The canvas pixel (row, col) lies in the square where `t` is pasted. */
  predicate Covers(l: Layout, t: TileCoord, row: int, col: int)
  {
    PasteY(l, t) <= row < PasteY(l, t) + TILE_SIZE && PasteX(l, t) <= col < PasteX(l, t) + TILE_SIZE
  }

  /** The canvas of a non-empty tile set is a positive whole number of tiles
      wide and high, exactly as many as the tile ranges span. */
  lemma CanvasSize(tiles: seq<TileCoord>)
    requires |tiles| > 0
    ensures var l := LayoutOf(tiles);
      && CanvasWidth(l) >= TILE_SIZE && CanvasWidth(l) % TILE_SIZE == 0
      && CanvasHeight(l) >= TILE_SIZE && CanvasHeight(l) % TILE_SIZE == 0
      && CanvasWidth(l) / TILE_SIZE == l.maxX - l.minX + 1
      && CanvasHeight(l) / TILE_SIZE == l.maxY - l.minY + 1
  {
  }

  /** Every tile's square lies wholly inside the canvas:
      0 <= px <= width - TILE_SIZE and 0 <= py <= height - TILE_SIZE. */
  lemma PasteInsideCanvas(tiles: seq<TileCoord>, t: TileCoord)
    requires |tiles| > 0 && t in tiles
    ensures var l := LayoutOf(tiles);
      && 0 <= PasteX(l, t) <= CanvasWidth(l) - TILE_SIZE
      && 0 <= PasteY(l, t) <= CanvasHeight(l) - TILE_SIZE
  {
  }

  /** A canvas pixel belongs to the square of the tile whose column and row
      are the canvas origin's plus (col / TILE_SIZE, row / TILE_SIZE), and to
      no other. */
  lemma CoversExactly(l: Layout, t: TileCoord, row: int, col: int)
    requires row >= 0 && col >= 0
    ensures Covers(l, t, row, col) <==> t.x == l.minX + col / TILE_SIZE && t.y == l.minY + row / TILE_SIZE
  {
    DivideByTile(col, t.x - l.minX);
    DivideByTile(row, t.y - l.minY);
  }

  lemma DivideByTile(c: int, q: int)
    requires c >= 0
    ensures q * TILE_SIZE <= c < q * TILE_SIZE + TILE_SIZE <==> c / TILE_SIZE == q
  {
  }

  /** Tiles at different (x, y) are pasted into disjoint squares. */
  lemma PasteSquaresDisjoint(l: Layout, t1: TileCoord, t2: TileCoord, row: int, col: int)
    requires (t1.x, t1.y) != (t2.x, t2.y)
    ensures !(Covers(l, t1, row, col) && Covers(l, t2, row, col))
  {
  }

  /** Python's `int()` on a float: truncation toward zero. */
  function Truncate(r: real): (t: int)
    ensures r >= 0.0 ==> t as real <= r < t as real + 1.0
    ensures r < 0.0 ==> t as real - 1.0 < r <= t as real
  {
    if r >= 0.0 then r.Floor else -((-r).Floor)
  }

  /** Lines 149-150: `int(g - min * TILE_SIZE)`, the marker centre on the
      canvas for a global pixel coordinate `g`. */
  function MarkerOffset(g: real, minTile: int): int
  {
    Truncate(g - (minTile * TILE_SIZE) as real)
  }

  /** A point whose global pixel lies within the tile range [lo, hi] has its
      marker centre inside the canvas, within one pixel of its exact place. */
  lemma MarkerInsideCanvas(g: real, lo: int, hi: int)
    requires (lo * TILE_SIZE) as real <= g < ((hi + 1) * TILE_SIZE) as real
    ensures 0 <= MarkerOffset(g, lo) < (hi - lo + 1) * TILE_SIZE
    ensures MarkerOffset(g, lo) as real <= g - (lo * TILE_SIZE) as real < MarkerOffset(g, lo) as real + 1.0
  {
  }

  /** The sort key of lines 132-135: row first, then column. */
  predicate TileLe(a: TileCoord, b: TileCoord) {
    a.y < b.y || (a.y == b.y && a.x <= b.x)
  }

  /** `sorted(tiles, key=lambda t: (t.y, t.x))` */
  function SortTiles(tiles: seq<TileCoord>): seq<TileCoord>
  {
    Sorting.InsertionSort(tiles, TileLe)
  }

  lemma TileLeIsTotalPreorder()
    ensures Sorting.TotalPreorder(TileLe)
  {
  }

  /** The sorted tiles are the same tiles in row-major order. */
  lemma SortTilesCorrect(tiles: seq<TileCoord>)
    ensures Sorting.SortedBy(TileLe, SortTiles(tiles))
    ensures multiset(SortTiles(tiles)) == multiset(tiles)
  {
    TileLeIsTotalPreorder();
    Sorting.InsertionSortCorrect(tiles, TileLe);
  }

  /** For tiles of one zoom level no two distinct tiles share a key, so any
      row-major permutation of them, Python's stable sort included, is the
      one SortTiles gives. */
  lemma SortTilesUnique(tiles: seq<TileCoord>, other: seq<TileCoord>)
    requires forall i :: 0 <= i < |tiles| ==> tiles[i].z == tiles[0].z
    requires Sorting.SortedBy(TileLe, other) && multiset(other) == multiset(tiles)
    ensures other == SortTiles(tiles)
  {
    SortTilesCorrect(tiles);
    var sorted := SortTiles(tiles);
    assert Sorting.AntisymmetricOn(TileLe, sorted) by {
      forall i, j | 0 <= i < |sorted| && 0 <= j < |sorted| && TileLe(sorted[i], sorted[j]) && TileLe(sorted[j], sorted[i])
        ensures sorted[i] == sorted[j]
      {
        assert sorted[i] in multiset(tiles) && sorted[j] in multiset(tiles);
        var a :| 0 <= a < |tiles| && tiles[a] == sorted[i];
        var b :| 0 <= b < |tiles| && tiles[b] == sorted[j];
      }
    }
    Sorting.SortedPermutationUnique(sorted, other, TileLe);
  }
}
