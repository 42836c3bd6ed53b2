/** The canvas and the stitching loop of generate_map_png.py (lines 105-106
    and 129-161): a black RGB canvas, every tile fetched through the cache
    and pasted at its offset in the given order, then one marker ellipse per
    point.  Later pastes overwrite earlier ones where they overlap. */
module Compositor {
  import opened Wrappers
  import opened Projection
  import opened TileGrid
  import opened TileCache

  /** The bounding box `(x0, y0, x1, y1)` handed to `draw.ellipse`. */
  datatype Box = Box(x0: int, y0: int, x1: int, y1: int)

  const MARKER_RADIUS: int := 4

  /** A raster of `height` rows of `width` pixels, indexed [row][column]. */
  ghost predicate IsGrid(g: seq<seq<Rgb>>, height: nat, width: nat) {
    |g| == height && forall row :: 0 <= row < |g| ==> |g[row]| == width
  }

  /** `canvas.paste(tile, (px, py))` on raster values: the tile's pixels
      replace those of the square at (px, py), clipped to the raster; every
      other pixel keeps its colour. */
  function PasteOnto(g: seq<seq<Rgb>>, tile: TileImage, px: int, py: int): (r: seq<seq<Rgb>>)
    ensures |r| == |g| && forall row :: 0 <= row < |g| ==> |r[row]| == |g[row]|
    ensures forall row, col :: 0 <= row < |g| && 0 <= col < |g[row]| ==>
      r[row][col] == if py <= row < py + TILE_SIZE && px <= col < px + TILE_SIZE then tile[row - py][col - px] else g[row][col]
  {
    seq(|g|, row requires 0 <= row < |g| =>
      seq(|g[row]|, col requires 0 <= col < |g[row]| =>
        if py <= row < py + TILE_SIZE && px <= col < px + TILE_SIZE then tile[row - py][col - px] else g[row][col]))
  }

  /** The pixels of a fresh `Image.new("RGB", (width, height))`. */
  function BlackRaster(height: nat, width: nat): (g: seq<seq<Rgb>>)
    ensures IsGrid(g, height, width)
    ensures forall row, col :: 0 <= row < height && 0 <= col < width ==> g[row][col] == BLACK
  {
    seq(height, _ => seq(width, _ => BLACK))
  }

  /** `Image.new("RGB", (width, height))` with its `ImageDraw`: a raster
      indexed [row, column] and the ellipses drawn on it so far. */
  class Canvas {
    const pixels: array2<Rgb>
    var ellipses: seq<Box>

    /** The canvas pixels as a value, row by row. */
    ghost var image: seq<seq<Rgb>>

    ghost predicate Valid()
      reads this`image, pixels
    {
      && IsGrid(image, pixels.Length0, pixels.Length1)
      && forall row, col :: 0 <= row < pixels.Length0 && 0 <= col < pixels.Length1 ==> image[row][col] == pixels[row, col]
    }

    constructor (width: nat, height: nat)
      ensures Valid() && fresh(pixels)
      ensures pixels.Length0 == height && pixels.Length1 == width
      ensures image == BlackRaster(height, width)
      ensures ellipses == []
    {
      pixels := new Rgb[height, width]((_, _) => BLACK);
      image := BlackRaster(height, width);
      ellipses := [];
    }

    /** `img.paste(tile, (px, py))` in place. */
    method Paste(tile: TileImage, px: int, py: int)
      requires Valid()
      modifies this, pixels
      ensures Valid()
      ensures image == PasteOnto(old(image), tile, px, py)
      ensures ellipses == old(ellipses)
    {
      forall row, col | 0 <= row < pixels.Length0 && 0 <= col < pixels.Length1
        && py <= row < py + TILE_SIZE && px <= col < px + TILE_SIZE
      {
        pixels[row, col] := tile[row - py][col - px];
      }
      image := PasteOnto(image, tile, px, py);
    }

    /** `draw.ellipse(box, fill="red", outline="black")`, recorded as a
        drawing command. */
    method DrawEllipse(b: Box)
      modifies this`ellipses
      ensures ellipses == old(ellipses) + [b]
    {
      ellipses := ellipses + [b];
    }
  }

  /** The index of the last tile in `tiles` whose square covers the pixel,
      which is the one whose colour the pixel shows after all pastes. */
  function LastCover(tiles: seq<TileCoord>, l: Layout, row: int, col: int): (r: Option<nat>)
    ensures r.Some? ==> r.value < |tiles| && Covers(l, tiles[r.value], row, col)
    ensures r.Some? ==> forall j :: r.value < j < |tiles| ==> !Covers(l, tiles[j], row, col)
    ensures r.None? ==> forall j :: 0 <= j < |tiles| ==> !Covers(l, tiles[j], row, col)
  {
    if |tiles| == 0 then None
    else if Covers(l, tiles[|tiles| - 1], row, col) then Some(|tiles| - 1)
    else LastCover(tiles[..|tiles| - 1], l, row, col)
  }

  /** The colour of a pixel after pasting `images[k]` for every `tiles[k]`
      in order onto a pixel of colour `base`. */
  function PaintedPixel(tiles: seq<TileCoord>, images: seq<TileImage>, l: Layout, row: int, col: int, base: Rgb): Rgb
    requires |images| == |tiles|
  {
    match LastCover(tiles, l, row, col)
    case None => base
    case Some(k) => images[k][row - PasteY(l, tiles[k])][col - PasteX(l, tiles[k])]
  }

  /** Every tile of `tiles` can be served from `files` or the server. */
  predicate AllAvailable(files: map<string, TileImage>, tiles: seq<TileCoord>, network: TileCoord -> HttpReply)
    decreases |tiles|
  {
    |tiles| == 0 || (AllAvailable(files, tiles[..|tiles| - 1], network) && Available(files, tiles[|tiles| - 1], network(tiles[|tiles| - 1])))
  }

  lemma {:induction false} AllAvailableMeans(files: map<string, TileImage>, tiles: seq<TileCoord>, network: TileCoord -> HttpReply)
    ensures AllAvailable(files, tiles, network) <==> forall k :: 0 <= k < |tiles| ==> Available(files, tiles[k], network(tiles[k]))
    decreases |tiles|
  {
    if |tiles| > 0 {
      var n := |tiles| - 1;
      AllAvailableMeans(files, tiles[..n], network);
      assert forall k :: 0 <= k < n ==> tiles[..n][k] == tiles[k];
    }
  }

  /** The tiles `get_tile` hands back for `tiles`, starting from the cache
      `files0`, when the server answers `network(t)` for tile `t`. */
  function ServedImages(files0: map<string, TileImage>, tiles: seq<TileCoord>, network: TileCoord -> HttpReply): (images: seq<TileImage>)
    requires AllAvailable(files0, tiles, network)
    ensures |images| == |tiles|
    decreases |tiles|
  {
    if |tiles| == 0 then []
    else
      var n := |tiles| - 1;
      ServedImages(files0, tiles[..n], network) + [Served(files0, tiles[n], network(tiles[n]))]
  }

  /** The cache `files` serves every tile exactly as `files0` does, and
      keeps every file of `files0`. */
  ghost predicate CacheAgrees(files0: map<string, TileImage>, files: map<string, TileImage>, network: TileCoord -> HttpReply) {
    && (forall p :: p in files0 ==> p in files && files[p] == files0[p])
    && (forall t :: Available(files, t, network(t)) <==> Available(files0, t, network(t)))
    && (forall t :: Available(files0, t, network(t)) ==> Served(files, t, network(t)) == Served(files0, t, network(t)))
  }

  /** What agreement says about one tile. */
  lemma AgreementAt(files0: map<string, TileImage>, files: map<string, TileImage>, network: TileCoord -> HttpReply, t: TileCoord)
    requires CacheAgrees(files0, files, network)
    ensures Available(files, t, network(t)) == Available(files0, t, network(t))
    ensures Available(files0, t, network(t)) ==> Served(files, t, network(t)) == Served(files0, t, network(t))
  {
  }

  /** A successful fetch keeps the cache in agreement with its start. */
  lemma FetchKeepsAgreement(files0: map<string, TileImage>, files: map<string, TileImage>, network: TileCoord -> HttpReply, t: TileCoord)
    requires CacheAgrees(files0, files, network)
    requires CachePath(t) !in files && Available(files, t, network(t))
    ensures CacheAgrees(files0, files[CachePath(t) := network(t).image.value], network)
  {
    var img := network(t).image.value;
    var files' := files[CachePath(t) := img];
    forall u
      ensures Available(files', u, network(u)) <==> Available(files0, u, network(u))
      ensures Available(files0, u, network(u)) ==> Served(files', u, network(u)) == Served(files0, u, network(u))
    {
      if u == t {
        StoredTileIsServed(files, t, img, network(t));
      } else {
        StoreKeepsOtherTiles(files, t, img, u, network(u));
      }
    }
  }

  /** Pasting one more tile turns the colour after the first tiles into
      the colour after all of them. */
  lemma PaintStep(tiles: seq<TileCoord>, images: seq<TileImage>, t: TileCoord, img: TileImage, l: Layout, row: int, col: int, base: Rgb)
    requires |images| == |tiles|
    ensures PaintedPixel(tiles + [t], images + [img], l, row, col, base) ==
      if Covers(l, t, row, col) then img[row - PasteY(l, t)][col - PasteX(l, t)]
      else PaintedPixel(tiles, images, l, row, col, base)
  {
    assert (tiles + [t])[..|tiles|] == tiles;
  }

  /** The raster after pasting `images[k]` at the offset of `tiles[k]`,
      for k in order, onto `base`. */
  function Stitched(base: seq<seq<Rgb>>, tiles: seq<TileCoord>, images: seq<TileImage>, l: Layout): (g: seq<seq<Rgb>>)
    requires |images| == |tiles|
    ensures |g| == |base| && forall row :: 0 <= row < |base| ==> |g[row]| == |base[row]|
    decreases |tiles|
  {
    if |tiles| == 0 then base
    else
      var k := |tiles| - 1;
      PasteOnto(Stitched(base, tiles[..k], images[..k], l), images[k], PasteX(l, tiles[k]), PasteY(l, tiles[k]))
  }

  /** Pasting one more tile extends the stitched raster by one paste. */
  lemma StitchedStep(base: seq<seq<Rgb>>, tiles: seq<TileCoord>, images: seq<TileImage>, img: TileImage, l: Layout, i: nat)
    requires i < |tiles| && |images| == i
    ensures Stitched(base, tiles[..i + 1], images + [img], l)
      == PasteOnto(Stitched(base, tiles[..i], images, l), img, PasteX(l, tiles[i]), PasteY(l, tiles[i]))
  {
    assert tiles[..i + 1][..i] == tiles[..i];
    assert (images + [img])[..i] == images;
  }

  /** After the pastes, each pixel shows the last tile whose square covers
      it, at the pixel's place inside that tile, or its old colour when no
      tile covers it. */
  lemma {:induction false} StitchedPixel(base: seq<seq<Rgb>>, tiles: seq<TileCoord>, images: seq<TileImage>, l: Layout, row: int, col: int)
    requires |images| == |tiles|
    requires 0 <= row < |base| && 0 <= col < |base[row]|
    ensures Stitched(base, tiles, images, l)[row][col] == PaintedPixel(tiles, images, l, row, col, base[row][col])
    decreases |tiles|
  {
    if |tiles| > 0 {
      var k := |tiles| - 1;
      StitchedPixel(base, tiles[..k], images[..k], l, row, col);
      PaintStep(tiles[..k], images[..k], tiles[k], images[k], l, row, col, base[row][col]);
      assert tiles[..k] + [tiles[k]] == tiles;
      assert images[..k] + [images[k]] == images;
    }
  }

  /** The pixel (row, col) of a canvas with origin tile (minX, minY) shows
      a tile exactly when the tile at (minX + col / TILE_SIZE,
      minY + row / TILE_SIZE) is among the pasted ones, and it is that
      tile; when no two tiles share a column and row, which one is pasted
      last does not matter. */
  lemma LastCoverIsTileAt(tiles: seq<TileCoord>, l: Layout, row: int, col: int)
    requires 0 <= row && 0 <= col
    ensures LastCover(tiles, l, row, col).Some? <==>
      exists k :: 0 <= k < |tiles| && tiles[k].x == l.minX + col / TILE_SIZE && tiles[k].y == l.minY + row / TILE_SIZE
    ensures LastCover(tiles, l, row, col).Some? ==>
      var k := LastCover(tiles, l, row, col).value;
      tiles[k].x == l.minX + col / TILE_SIZE && tiles[k].y == l.minY + row / TILE_SIZE
    ensures (forall i, j :: 0 <= i < j < |tiles| ==> (tiles[i].x, tiles[i].y) != (tiles[j].x, tiles[j].y)) ==>
      forall k :: 0 <= k < |tiles| && tiles[k].x == l.minX + col / TILE_SIZE && tiles[k].y == l.minY + row / TILE_SIZE ==>
        LastCover(tiles, l, row, col) == Some(k)
  {
    forall k | 0 <= k < |tiles|
      ensures Covers(l, tiles[k], row, col) <==> tiles[k].x == l.minX + col / TILE_SIZE && tiles[k].y == l.minY + row / TILE_SIZE
    {
      CoversExactly(l, tiles[k], row, col);
    }
  }

  /** `url` is the URL of one of the tiles `done` that was not on disk in
      `files0`. */
  ghost predicate RequestedTile(url: string, done: seq<TileCoord>, files0: map<string, TileImage>) {
    exists k :: 0 <= k < |done| && url == TileUrl(done[k]) && CachePath(done[k]) !in files0
  }

  /** Every request made after `requests0` is for a tile of `done` that was
      not on disk in `files0`. */
  ghost predicate RequestsFor(requests0: seq<string>, requests: seq<string>, done: seq<TileCoord>, files0: map<string, TileImage>) {
    && |requests0| <= |requests|
    && requests[..|requests0|] == requests0
    && forall n :: |requests0| <= n < |requests| ==> RequestedTile(requests[n], done, files0)
  }

  /** A tile requested among a prefix of `tiles` is a tile of `tiles`. */
  lemma RequestedWiden(url: string, done: seq<TileCoord>, tiles: seq<TileCoord>, files0: map<string, TileImage>)
    requires RequestedTile(url, done, files0)
    requires |done| <= |tiles| && done == tiles[..|done|]
    ensures RequestedTile(url, tiles, files0)
  {
    var k :| 0 <= k < |done| && url == TileUrl(done[k]) && CachePath(done[k]) !in files0;
    assert done[k] == tiles[k];
  }

  lemma RequestsGrow(requests0: seq<string>, requests: seq<string>, done: seq<TileCoord>, files0: map<string, TileImage>, t: TileCoord, sent: seq<string>)
    requires RequestsFor(requests0, requests, done, files0)
    requires sent == requests || (sent == requests + [TileUrl(t)] && CachePath(t) !in files0)
    ensures RequestsFor(requests0, sent, done + [t], files0)
  {
    var d := done + [t];
    assert |requests0| <= |requests| <= |sent| && sent[..|requests|] == requests;
    forall j | 0 <= j < |requests0|
      ensures sent[j] == requests0[j]
    {
      assert sent[j] == requests[j] == requests[..|requests0|][j];
    }
    assert sent[..|requests0|] == requests0;
    assert done == d[..|done|];
    forall n | |requests0| <= n < |sent|
      ensures RequestedTile(sent[n], d, files0)
    {
      if n < |requests| {
        assert sent[n] == requests[n];
        RequestedWiden(requests[n], done, d, files0);
      } else {
        assert sent == requests + [TileUrl(t)] && n == |requests|;
        assert d[|done|] == t;
        assert 0 <= |done| < |d| && sent[n] == TileUrl(d[|done|]) && CachePath(d[|done|]) !in files0;
      }
    }
  }

  /** Requests for tiles of a prefix are requests for tiles of the whole. */
  lemma RequestsWiden(requests0: seq<string>, requests: seq<string>, done: seq<TileCoord>, tiles: seq<TileCoord>, files0: map<string, TileImage>)
    requires RequestsFor(requests0, requests, done, files0)
    requires |done| <= |tiles| && done == tiles[..|done|]
    ensures RequestsFor(requests0, requests, tiles, files0)
  {
    forall n | |requests0| <= n < |requests|
      ensures RequestedTile(requests[n], tiles, files0)
    {
      RequestedWiden(requests[n], done, tiles, files0);
    }
  }

  /** A prefix of tiles that can all be served can all be served. */
  lemma AllAvailablePrefix(files: map<string, TileImage>, tiles: seq<TileCoord>, j: nat, network: TileCoord -> HttpReply)
    requires j <= |tiles|
    ensures AllAvailable(files, tiles, network) ==> AllAvailable(files, tiles[..j], network)
  {
    AllAvailableMeans(files, tiles, network);
    AllAvailableMeans(files, tiles[..j], network);
    assert forall k :: 0 <= k < j ==> tiles[..j][k] == tiles[k];
  }

  /** The store after the loop of lines 137-141 over `tiles`, starting from
      `s0`: one `get_tile` call per tile, in order, ending after the first
      tile that cannot be served. */
  function Fetched(s0: StoreState, tiles: seq<TileCoord>, network: TileCoord -> HttpReply): StoreState
    decreases |tiles|
  {
    if |tiles| == 0 then s0
    else
      var n := |tiles| - 1;
      var before := Fetched(s0, tiles[..n], network);
      if AllAvailable(s0.files, tiles[..n], network) then AfterGet(before, tiles[n], network(tiles[n])) else before
  }

  /** Once a tile cannot be served the loop has ended: later tiles change
      nothing. */
  lemma {:induction false} FetchedStops(s0: StoreState, tiles: seq<TileCoord>, j: nat, network: TileCoord -> HttpReply)
    requires j <= |tiles| && !AllAvailable(s0.files, tiles[..j], network)
    ensures Fetched(s0, tiles, network) == Fetched(s0, tiles[..j], network)
    decreases |tiles|
  {
    if j < |tiles| {
      var n := |tiles| - 1;
      assert tiles[..n][..j] == tiles[..j];
      FetchedStops(s0, tiles[..n], j, network);
      AllAvailablePrefix(s0.files, tiles[..n], j, network);
    } else {
      assert tiles[..j] == tiles;
    }
  }

  /** The loop leaves the cache serving every tile as it did before. */
  lemma {:induction false} FetchedAgrees(s0: StoreState, tiles: seq<TileCoord>, network: TileCoord -> HttpReply)
    ensures CacheAgrees(s0.files, Fetched(s0, tiles, network).files, network)
    decreases |tiles|
  {
    if |tiles| > 0 {
      var n := |tiles| - 1;
      FetchedAgrees(s0, tiles[..n], network);
      AgreesStep(s0, tiles[..n], tiles[n], network);
      assert tiles[..n] + [tiles[n]] == tiles;
    }
  }

  /** One more `get_tile` call keeps the cache in agreement with its start. */
  lemma AgreesStep(s0: StoreState, pre: seq<TileCoord>, t: TileCoord, network: TileCoord -> HttpReply)
    requires CacheAgrees(s0.files, Fetched(s0, pre, network).files, network)
    ensures CacheAgrees(s0.files, Fetched(s0, pre + [t], network).files, network)
  {
    var before, after := Fetched(s0, pre, network), Fetched(s0, pre + [t], network);
    assert (pre + [t])[..|pre|] == pre;
    if AllAvailable(s0.files, pre, network) && CachePath(t) !in before.files && Available(before.files, t, network(t)) {
      assert after.files == before.files[CachePath(t) := network(t).image.value];
      FetchKeepsAgreement(s0.files, before.files, network, t);
    } else {
      assert after.files == before.files;
    }
  }

  /** Every request the loop sends is for one of its tiles that was not
      on disk, appended after the earlier requests. */
  lemma {:induction false} FetchedRequests(s0: StoreState, tiles: seq<TileCoord>, network: TileCoord -> HttpReply)
    ensures RequestsFor(s0.requests, Fetched(s0, tiles, network).requests, tiles, s0.files)
    decreases |tiles|
  {
    if |tiles| == 0 {
      assert s0.requests[..|s0.requests|] == s0.requests;
    } else {
      var n := |tiles| - 1;
      var before := Fetched(s0, tiles[..n], network);
      var t := tiles[n];
      FetchedRequests(s0, tiles[..n], network);
      if AllAvailable(s0.files, tiles[..n], network) {
        FetchedAgrees(s0, tiles[..n], network);
        var after := AfterGet(before, t, network(t));
        assert after.requests != before.requests ==> CachePath(t) !in before.files && CachePath(t) !in s0.files;
        RequestsGrow(s0.requests, before.requests, tiles[..n], s0.files, t, after.requests);
        assert tiles[..n] + [t] == tiles;
      } else {
        RequestsWiden(s0.requests, before.requests, tiles[..n], tiles, s0.files);
      }
    }
  }

  /** When every tile is on disk the loop changes nothing and sends
      nothing. */
  lemma {:induction false} FetchedAllCached(s0: StoreState, tiles: seq<TileCoord>, network: TileCoord -> HttpReply)
    requires forall k :: 0 <= k < |tiles| ==> CachePath(tiles[k]) in s0.files
    ensures Fetched(s0, tiles, network) == s0
    decreases |tiles|
  {
    if |tiles| > 0 {
      var n := |tiles| - 1;
      assert forall k :: 0 <= k < n ==> tiles[..n][k] == tiles[k];
      FetchedAllCached(s0, tiles[..n], network);
      assert AfterGet(s0, tiles[n], network(tiles[n])) == s0;
    }
  }

  /** A loop that serves every tile leaves every tile on disk. */
  lemma {:induction false} FetchedStoresAll(s0: StoreState, tiles: seq<TileCoord>, network: TileCoord -> HttpReply)
    requires AllAvailable(s0.files, tiles, network)
    ensures forall k :: 0 <= k < |tiles| ==> CachePath(tiles[k]) in Fetched(s0, tiles, network).files
    decreases |tiles|
  {
    if |tiles| > 0 {
      var n := |tiles| - 1;
      FetchedStoresAll(s0, tiles[..n], network);
      StoredStep(s0, tiles[..n], tiles[n], network);
      assert tiles[..n] + [tiles[n]] == tiles;
    }
  }

  /** A servable tile after a run that stored its tiles is stored too. */
  lemma StoredStep(s0: StoreState, pre: seq<TileCoord>, t: TileCoord, network: TileCoord -> HttpReply)
    requires AllAvailable(s0.files, pre, network) && Available(s0.files, t, network(t))
    requires forall k :: 0 <= k < |pre| ==> CachePath(pre[k]) in Fetched(s0, pre, network).files
    ensures forall k :: 0 <= k < |pre + [t]| ==> CachePath((pre + [t])[k]) in Fetched(s0, pre + [t], network).files
  {
    var before, after := Fetched(s0, pre, network), Fetched(s0, pre + [t], network);
    assert (pre + [t])[..|pre|] == pre;
    assert after == AfterGet(before, t, network(t));
    FetchedAgrees(s0, pre, network);
    AgreementAt(s0.files, before.files, network, t);
    forall k | 0 <= k < |pre + [t]|
      ensures CachePath((pre + [t])[k]) in after.files
    {
      if k < |pre| {
        assert (pre + [t])[k] == pre[k];
      }
    }
  }

  /** Every file on disk after the loop was there before or is the file of
      one of its tiles. */
  lemma {:induction false} FetchedKeys(s0: StoreState, tiles: seq<TileCoord>, network: TileCoord -> HttpReply)
    ensures forall p :: p in Fetched(s0, tiles, network).files ==>
      p in s0.files || exists k :: 0 <= k < |tiles| && p == CachePath(tiles[k])
    decreases |tiles|
  {
    if |tiles| > 0 {
      var n := |tiles| - 1;
      var before := Fetched(s0, tiles[..n], network);
      FetchedKeys(s0, tiles[..n], network);
      forall p | p in Fetched(s0, tiles, network).files && p !in s0.files
        ensures exists k :: 0 <= k < |tiles| && p == CachePath(tiles[k])
      {
        if p in before.files {
          var k :| 0 <= k < n && p == CachePath(tiles[..n][k]);
          assert tiles[..n][k] == tiles[k];
        } else {
          assert p == CachePath(tiles[n]);
        }
      }
    }
  }

  /** Every tile the loop reaches that was not on disk had its URL
      requested, whether or not it could then be served. */
  lemma {:induction false} FetchedAsksMissing(s0: StoreState, tiles: seq<TileCoord>, network: TileCoord -> HttpReply)
    ensures forall k :: 0 <= k < |tiles| && AllAvailable(s0.files, tiles[..k], network) && CachePath(tiles[k]) !in s0.files ==>
      TileUrl(tiles[k]) in Fetched(s0, tiles, network).requests
    decreases |tiles|
  {
    if |tiles| > 0 {
      var n := |tiles| - 1;
      FetchedAsksMissing(s0, tiles[..n], network);
      AskedStep(s0, tiles[..n], tiles[n], network);
      assert tiles[..n] + [tiles[n]] == tiles;
    }
  }

  /** One more tile keeps every reached missing tile requested. */
  lemma AskedStep(s0: StoreState, pre: seq<TileCoord>, t: TileCoord, network: TileCoord -> HttpReply)
    requires forall k :: 0 <= k < |pre| && AllAvailable(s0.files, pre[..k], network) && CachePath(pre[k]) !in s0.files ==>
      TileUrl(pre[k]) in Fetched(s0, pre, network).requests
    ensures forall k :: 0 <= k < |pre + [t]| && AllAvailable(s0.files, (pre + [t])[..k], network) && CachePath((pre + [t])[k]) !in s0.files ==>
      TileUrl((pre + [t])[k]) in Fetched(s0, pre + [t], network).requests
  {
    var tiles := pre + [t];
    var before, after := Fetched(s0, pre, network), Fetched(s0, tiles, network);
    assert tiles[..|pre|] == pre;
    assert forall x :: x in before.requests ==> x in after.requests;
    forall k | 0 <= k < |tiles| && AllAvailable(s0.files, tiles[..k], network) && CachePath(tiles[k]) !in s0.files
      ensures TileUrl(tiles[k]) in after.requests
    {
      if k < |pre| {
        assert tiles[..k] == pre[..k] && tiles[k] == pre[k];
      } else {
        AskedBefore(s0, pre, t, network);
      }
    }
  }

  /** A tile `t` reached with nothing failed and missing from disk at the
      start is requested now or was requested at an earlier occurrence. */
  lemma AskedBefore(s0: StoreState, pre: seq<TileCoord>, t: TileCoord, network: TileCoord -> HttpReply)
    requires AllAvailable(s0.files, pre, network) && CachePath(t) !in s0.files
    requires forall k :: 0 <= k < |pre| && AllAvailable(s0.files, pre[..k], network) && CachePath(pre[k]) !in s0.files ==>
      TileUrl(pre[k]) in Fetched(s0, pre, network).requests
    ensures TileUrl(t) in Fetched(s0, pre + [t], network).requests
  {
    var before := Fetched(s0, pre, network);
    assert (pre + [t])[..|pre|] == pre;
    if CachePath(t) in before.files {
      FetchedKeys(s0, pre, network);
      var j :| 0 <= j < |pre| && CachePath(t) == CachePath(pre[j]);
      CachePathInjective(t, pre[j]);
      AllAvailablePrefix(s0.files, pre, j, network);
      assert TileUrl(t) in before.requests;
    }
  }

  /** The tile loop over `tiles` stopped with `e`: the tiles before the
      `k`-th could all be served, the `k`-th could not, and `e` is what its
      fetch raised. */
  ghost predicate FailsAt(files0: map<string, TileImage>, tiles: seq<TileCoord>, network: TileCoord -> HttpReply, e: FetchError) {
    exists k :: && 0 <= k < |tiles| && AllAvailable(files0, tiles[..k], network)
                && !Available(files0, tiles[k], network(tiles[k]))
                && e == FailureOf(network(tiles[k]))
  }

  /** What the tile loop does to the cache, for every start and every
      server: the cache still serves each tile as before, every request is
      for one of its tiles missing from disk and comes after the earlier
      ones, nothing changes when every tile is on disk, and every tile is on
      disk when all could be served.  No file appears but the loop's tiles,
      and every tile the loop reaches that was missing from disk has its URL
      requested. */
  lemma FetchedEffects(s0: StoreState, tiles: seq<TileCoord>, network: TileCoord -> HttpReply)
    ensures CacheAgrees(s0.files, Fetched(s0, tiles, network).files, network)
    ensures RequestsFor(s0.requests, Fetched(s0, tiles, network).requests, tiles, s0.files)
    ensures (forall k :: 0 <= k < |tiles| ==> CachePath(tiles[k]) in s0.files) ==> Fetched(s0, tiles, network) == s0
    ensures AllAvailable(s0.files, tiles, network) ==>
      forall k :: 0 <= k < |tiles| ==> CachePath(tiles[k]) in Fetched(s0, tiles, network).files
    ensures forall p :: p in Fetched(s0, tiles, network).files ==>
      p in s0.files || exists k :: 0 <= k < |tiles| && p == CachePath(tiles[k])
    ensures forall k :: 0 <= k < |tiles| && AllAvailable(s0.files, tiles[..k], network) && CachePath(tiles[k]) !in s0.files ==>
      TileUrl(tiles[k]) in Fetched(s0, tiles, network).requests
  {
    FetchedAgrees(s0, tiles, network);
    FetchedRequests(s0, tiles, network);
    FetchedKeys(s0, tiles, network);
    FetchedAsksMissing(s0, tiles, network);
    if forall k :: 0 <= k < |tiles| ==> CachePath(tiles[k]) in s0.files {
      FetchedAllCached(s0, tiles, network);
    }
    if AllAvailable(s0.files, tiles, network) {
      FetchedStoresAll(s0, tiles, network);
    }
  }

  /** The state after the first `i` tiles of `tiles` have been fetched and
      pasted, starting from the store `s0` and the raster `base`. */
  ghost predicate StitchedUpTo(s0: StoreState, base: seq<seq<Rgb>>, tiles: seq<TileCoord>, i: nat, l: Layout,
                               network: TileCoord -> HttpReply, s: StoreState, image: seq<seq<Rgb>>)
  {
    && i <= |tiles|
    && AllAvailable(s0.files, tiles[..i], network)
    && image == Stitched(base, tiles[..i], ServedImages(s0.files, tiles[..i], network), l)
    && s == Fetched(s0, tiles[..i], network)
  }

  /** One successful turn of the loop of lines 137-141: `get_tile` serves
      tile i (from disk, or from the server and then stored) and it is
      pasted at its offset. */
  lemma StitchStep(s0: StoreState, base: seq<seq<Rgb>>, tiles: seq<TileCoord>, i: nat, l: Layout, network: TileCoord -> HttpReply,
                   s: StoreState, image: seq<seq<Rgb>>, s': StoreState, image': seq<seq<Rgb>>)
    requires StitchedUpTo(s0, base, tiles, i, l, network, s, image)
    requires i < |tiles| && Available(s.files, tiles[i], network(tiles[i]))
    requires s' == AfterGet(s, tiles[i], network(tiles[i]))
    requires image' == PasteOnto(image, Served(s.files, tiles[i], network(tiles[i])), PasteX(l, tiles[i]), PasteY(l, tiles[i]))
    ensures StitchedUpTo(s0, base, tiles, i + 1, l, network, s', image')
  {
    var t := tiles[i];
    FetchedAgrees(s0, tiles[..i], network);
    AgreementAt(s0.files, s.files, network, t);
    assert tiles[..i + 1][..i] == tiles[..i];
    assert s' == Fetched(s0, tiles[..i + 1], network);
    var images := ServedImages(s0.files, tiles[..i], network);
    StitchedStep(base, tiles, images, Served(s0.files, t, network(t)), l, i);
  }

  /** After the last tile the state is what Stitch promises. */
  lemma StitchedAll(s0: StoreState, base: seq<seq<Rgb>>, tiles: seq<TileCoord>, l: Layout, network: TileCoord -> HttpReply,
                    s: StoreState, image: seq<seq<Rgb>>)
    requires StitchedUpTo(s0, base, tiles, |tiles|, l, network, s, image)
    ensures AllAvailable(s0.files, tiles, network)
    ensures image == Stitched(base, tiles, ServedImages(s0.files, tiles, network), l)
    ensures s == Fetched(s0, tiles, network)
  {
    assert tiles[..|tiles|] == tiles;
  }

  /** A tile that cannot be served at step i is the first such tile, and
      the failed fetch leaves the store as the whole loop does. */
  lemma StitchFails(s0: StoreState, base: seq<seq<Rgb>>, tiles: seq<TileCoord>, i: nat, l: Layout, network: TileCoord -> HttpReply,
                    s: StoreState, image: seq<seq<Rgb>>)
    requires StitchedUpTo(s0, base, tiles, i, l, network, s, image)
    requires i < |tiles| && !Available(s.files, tiles[i], network(tiles[i]))
    ensures !AllAvailable(s0.files, tiles, network)
    ensures AllAvailable(s0.files, tiles[..i], network) && !Available(s0.files, tiles[i], network(tiles[i]))
    ensures AfterGet(s, tiles[i], network(tiles[i])) == Fetched(s0, tiles, network)
  {
    FetchedAgrees(s0, tiles[..i], network);
    AgreementAt(s0.files, s.files, network, tiles[i]);
    AllAvailableMeans(s0.files, tiles, network);
    assert tiles[..i + 1][..i] == tiles[..i];
    FetchedStops(s0, tiles, i + 1, network);
  }

  /** Lines 137-141: fetch every tile through the cache and paste it at its
      offset, in the given order.  The first tile that cannot be served
      ends the loop with its error (the script stops there); otherwise the
      canvas shows every tile pasted in order over its old pixels.  The
      store ends exactly as `Fetched` says (see `FetchedEffects` for what
      that means for the cache and the requests). */
  method Stitch(canvas: Canvas, store: TileStore, tiles: seq<TileCoord>, l: Layout, network: TileCoord -> HttpReply)
      returns (r: Result<(), FetchError>)
    requires canvas.Valid()
    modifies canvas, canvas.pixels, store
    ensures canvas.Valid() && canvas.ellipses == old(canvas.ellipses)
    ensures r.Ok? <==> AllAvailable(old(store.files), tiles, network)
    ensures r.Err? ==> FailsAt(old(store.files), tiles, network, r.error)
    ensures r.Ok? ==> canvas.image == Stitched(old(canvas.image), tiles, ServedImages(old(store.files), tiles, network), l)
    ensures StoreState(store.files, store.requests) == Fetched(StoreState(old(store.files), old(store.requests)), tiles, network)
  {
    ghost var s0 := StoreState(store.files, store.requests);
    ghost var base := canvas.image;
    assert tiles[..0] == [];
    var i := 0;
    while i < |tiles|
      invariant canvas.Valid() && canvas.ellipses == old(canvas.ellipses)
      invariant StitchedUpTo(s0, base, tiles, i, l, network, StoreState(store.files, store.requests), canvas.image)
    {
      var t := tiles[i];
      ghost var sBefore := StoreState(store.files, store.requests);
      ghost var imageBefore := canvas.image;
      var got := store.GetTile(t, network(t));
      if got.Err? {
        StitchFails(s0, base, tiles, i, l, network, sBefore, imageBefore);
        return Err(got.error);
      }
      canvas.Paste(got.value, PasteX(l, t), PasteY(l, t));
      StitchStep(s0, base, tiles, i, l, network, sBefore, imageBefore, StoreState(store.files, store.requests), canvas.image);
      i := i + 1;
    }
    StitchedAll(s0, base, tiles, l, network, StoreState(store.files, store.requests), canvas.image);
    return Ok(());
  }

  /** Lines 147-158: the box of the marker of point `p`, a square of side
      2 * MARKER_RADIUS around the truncated canvas position of its global
      pixel at `zoom`. */
  function MarkerBox(p: GeoPoint, proj: Projector, zoom: nat, l: Layout): Box
  {
    var g := proj(p, zoom);
    var px := MarkerOffset(g.x, l.minX);
    var py := MarkerOffset(g.y, l.minY);
    Box(px - MARKER_RADIUS, py - MARKER_RADIUS, px + MARKER_RADIUS, py + MARKER_RADIUS)
  }

  function MarkerBoxes(points: seq<GeoPoint>, proj: Projector, zoom: nat, l: Layout): (boxes: seq<Box>)
    ensures |boxes| == |points|
  {
    seq(|points|, i requires 0 <= i < |points| => MarkerBox(points[i], proj, zoom, l))
  }

  /** A point whose global pixel lies inside the canvas's tile range gets a
      marker of side 2 * MARKER_RADIUS whose centre is a canvas pixel, at
      most one pixel up and left of the point's exact canvas position. */
  lemma MarkerBoxOnCanvas(p: GeoPoint, proj: Projector, zoom: nat, l: Layout)
    requires var g := proj(p, zoom);
      && (l.minX * TILE_SIZE) as real <= g.x < ((l.maxX + 1) * TILE_SIZE) as real
      && (l.minY * TILE_SIZE) as real <= g.y < ((l.maxY + 1) * TILE_SIZE) as real
    ensures var b := MarkerBox(p, proj, zoom, l);
      && b.x1 - b.x0 == 2 * MARKER_RADIUS && b.y1 - b.y0 == 2 * MARKER_RADIUS
      && 0 <= b.x0 + MARKER_RADIUS < CanvasWidth(l)
      && 0 <= b.y0 + MARKER_RADIUS < CanvasHeight(l)
      && (b.x0 + MARKER_RADIUS) as real <= proj(p, zoom).x - (l.minX * TILE_SIZE) as real < (b.x0 + MARKER_RADIUS + 1) as real
      && (b.y0 + MARKER_RADIUS) as real <= proj(p, zoom).y - (l.minY * TILE_SIZE) as real < (b.y0 + MARKER_RADIUS + 1) as real
  {
    var g := proj(p, zoom);
    MarkerInsideCanvas(g.x, l.minX, l.maxX);
    MarkerInsideCanvas(g.y, l.minY, l.maxY);
  }

  /** Lines 146-161: one marker per point, drawn in point order. */
  method DrawMarkers(canvas: Canvas, points: seq<GeoPoint>, proj: Projector, zoom: nat, l: Layout)
    modifies canvas`ellipses
    ensures canvas.ellipses == old(canvas.ellipses) + MarkerBoxes(points, proj, zoom, l)
  {
    var i := 0;
    while i < |points|
      invariant 0 <= i <= |points|
      invariant canvas.ellipses == old(canvas.ellipses) + MarkerBoxes(points[..i], proj, zoom, l)
    {
      var g := proj(points[i], zoom);
      var px := MarkerOffset(g.x, l.minX);
      var py := MarkerOffset(g.y, l.minY);
      canvas.DrawEllipse(Box(px - MARKER_RADIUS, py - MARKER_RADIUS, px + MARKER_RADIUS, py + MARKER_RADIUS));
      assert MarkerBoxes(points[..i + 1], proj, zoom, l) == MarkerBoxes(points[..i], proj, zoom, l) + [MarkerBox(points[i], proj, zoom, l)];
      i := i + 1;
    }
    assert points[..i] == points;
  }
}
