/** The on-disk tile cache of generate_map_png.py (`get_tile`, lines
    111-127).  The directory tree is a map from path to stored tile; a tile
    is looked up at `tile_cache/z/x/y.png`, a hit is returned without any
    network request, a miss requests the tile URL once and, on success,
    stores the decoded tile under that path.  The server's answer is a
    parameter of GetTile. */
module TileCache {
  import opened Wrappers
  import opened TileGrid
  import opened Digits

  /** `TILE_CACHE / str(z) / str(x) / f"{y}.png"` */
  function CachePath(t: TileCoord): string
  {
    "tile_cache/" + TilePart(t)
  }

  /** `TILE_URL.format(z=z, x=x, y=y)` */
  function TileUrl(t: TileCoord): string
  {
    "https://tile.openstreetmap.org/" + TilePart(t)
  }

  /** In `a + "/" + b` with no '/' in `a`, the first '/' is at `|a|`. */
  lemma FirstSlash(a: string, b: string)
    requires forall i :: 0 <= i < |a| ==> a[i] != '/'
    ensures (a + "/" + b)[|a|] == '/'
    ensures forall i :: 0 <= i < |a| ==> (a + "/" + b)[i] != '/'
  {
  }

  /** A string without '/' ends at the first '/' of what follows it. */
  lemma SplitAtSlash(a: string, b: string, c: string, d: string)
    requires forall i :: 0 <= i < |a| ==> a[i] != '/'
    requires forall i :: 0 <= i < |c| ==> c[i] != '/'
    requires a + "/" + b == c + "/" + d
    ensures a == c && b == d
  {
    FirstSlash(a, b);
    FirstSlash(c, d);
    var s := a + "/" + b;
    assert |a| == |c|;
    assert a == s[..|a|] == c;
    assert b == s[|a| + 1..] == d;
  }

  /** `z/x/y.png`, the part shared by the cache path and the tile URL. */
  function TilePart(t: TileCoord): string
  {
    Decimal(t.z) + "/" + (Decimal(t.x) + "/" + (Decimal(t.y) + ".png"))
  }

  lemma TilePartInjective(t1: TileCoord, t2: TileCoord)
    requires TilePart(t1) == TilePart(t2)
    ensures t1 == t2
  {
    var y1, y2 := Decimal(t1.y), Decimal(t2.y);
    SplitAtSlash(Decimal(t1.z), Decimal(t1.x) + "/" + (y1 + ".png"), Decimal(t2.z), Decimal(t2.x) + "/" + (y2 + ".png"));
    SplitAtSlash(Decimal(t1.x), y1 + ".png", Decimal(t2.x), y2 + ".png");
    assert y1 == (y1 + ".png")[..|y1|] == (y2 + ".png")[..|y2|] == y2;
    DecimalInjective(t1.z, t2.z);
    DecimalInjective(t1.x, t2.x);
    DecimalInjective(t1.y, t2.y);
  }

  /** Each tile has its own cache file: the path determines (z, x, y). */
  lemma CachePathInjective(t1: TileCoord, t2: TileCoord)
    requires CachePath(t1) == CachePath(t2)
    ensures t1 == t2
  {
    assert TilePart(t1) == CachePath(t1)[11..] == TilePart(t2);
    TilePartInjective(t1, t2);
  }

  /** What the tile server answers to the GET of a tile URL: nothing (a
      connection error or the 20 s timeout), or a status and a body that
      may or may not decode as an image. */
  datatype HttpReply = ConnectionFailed | Reply(status: int, image: Option<TileImage>)

  /** The exceptions that end the script from inside `get_tile`. */
  datatype FetchError = NoConnection | HttpStatus(status: int) | NotAnImage

  /** `resp.raise_for_status()` raises for 4xx and 5xx statuses. */
  predicate IsErrorStatus(status: int) {
    400 <= status < 600
  }

  /** A tile can be served: it is on disk, or the server sends a decodable
      image with a non-error status. */
  predicate Available(files: map<string, TileImage>, t: TileCoord, reply: HttpReply) {
    CachePath(t) in files || (reply.Reply? && !IsErrorStatus(reply.status) && reply.image.Some?)
  }

  /** The tile `get_tile` returns: the stored one on a hit, the downloaded
      one on a miss. */
  function Served(files: map<string, TileImage>, t: TileCoord, reply: HttpReply): TileImage
    requires Available(files, t, reply)
  {
    if CachePath(t) in files then files[CachePath(t)] else reply.image.value
  }

  /** The exception a miss raises when the tile cannot be served. */
  function FailureOf(reply: HttpReply): FetchError
  {
    match reply
    case ConnectionFailed => NoConnection
    case Reply(status, image) => if IsErrorStatus(status) then HttpStatus(status) else NotAnImage
  }

  /** Once a tile is stored, every later lookup of it hits and returns it,
      whatever the server would say. */
  lemma StoredTileIsServed(files: map<string, TileImage>, t: TileCoord, img: TileImage, reply: HttpReply)
    ensures Available(files[CachePath(t) := img], t, reply)
    ensures Served(files[CachePath(t) := img], t, reply) == img
  {
  }

  /** Storing one tile changes what no other tile is served as. */
  lemma StoreKeepsOtherTiles(files: map<string, TileImage>, t: TileCoord, img: TileImage, other: TileCoord, reply: HttpReply)
    requires other != t
    ensures Available(files[CachePath(t) := img], other, reply) == Available(files, other, reply)
    ensures Available(files, other, reply) ==> Served(files[CachePath(t) := img], other, reply) == Served(files, other, reply)
  {
    if CachePath(other) == CachePath(t) {
      CachePathInjective(other, t);
    }
  }

  /** The cache files by path and the tile URLs requested so far, in order. */
  datatype StoreState = StoreState(files: map<string, TileImage>, requests: seq<string>)

  /** What one `get_tile` call for `t` does to the store when the server
      would answer `reply`: a hit changes nothing; a miss requests the
      tile's URL and stores the image only when the tile can be served. */
  function AfterGet(s: StoreState, t: TileCoord, reply: HttpReply): (s': StoreState)
    ensures CachePath(t) in s'.files <==> Available(s.files, t, reply)
    ensures Available(s.files, t, reply) ==> s'.files[CachePath(t)] == Served(s.files, t, reply)
    ensures forall p :: p in s.files ==> p in s'.files && s'.files[p] == s.files[p]
    ensures forall p :: p in s'.files ==> p in s.files || p == CachePath(t)
    ensures CachePath(t) in s.files <==> s'.requests == s.requests
    ensures s'.requests == s.requests || s'.requests == s.requests + [TileUrl(t)]
  {
    if CachePath(t) in s.files then s
    else if Available(s.files, t, reply) then StoreState(s.files[CachePath(t) := reply.image.value], s.requests + [TileUrl(t)])
    else StoreState(s.files, s.requests + [TileUrl(t)])
  }

  /** The tile cache directory together with the URLs requested so far. */
  class TileStore {
    /** The files under `tile_cache/`, by path. */
    var files: map<string, TileImage>
    /** The tile URLs requested over the network, in order. */
    var requests: seq<string>

    constructor (onDisk: map<string, TileImage>)
      ensures files == onDisk && requests == []
    {
      files := onDisk;
      requests := [];
    }

    /** `get_tile(z, x, y, session)`, where `reply` is what the server would
        answer if asked. */
    method GetTile(t: TileCoord, reply: HttpReply) returns (r: Result<TileImage, FetchError>)
      modifies this
      ensures r.Ok? <==> Available(old(files), t, reply)
      ensures r.Ok? ==> r.value == Served(old(files), t, reply)
      ensures r.Err? ==> r.error == FailureOf(reply)
      ensures StoreState(files, requests) == AfterGet(StoreState(old(files), old(requests)), t, reply)
    {
      var path := CachePath(t);
      if path in files {
        return Ok(files[path]);
      }
      requests := requests + [TileUrl(t)];
      match reply {
        case ConnectionFailed =>
          return Err(NoConnection);
        case Reply(status, image) =>
          if IsErrorStatus(status) {
            return Err(HttpStatus(status));
          }
          if image.None? {
            return Err(NotAnImage);
          }
          files := files[path := image.value];
          return Ok(image.value);
      }
    }
  }
}
