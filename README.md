# Static activation map and find-count trends, in Dafny

This project models two scripts of one repository.

- `generate_map_png.py` renders a static PNG map of radio-activation points. It sorts the points and widens their bounds by a padding. It picks the highest zoom level at which the points' Web Mercator pixel bounding box fits in 1200 x 800. It lists the covering slippy-map tiles and lays them out on a black canvas. Each tile is fetched through an on-disk tile cache and pasted in row-major order, and a marker is drawn per point.
- `geocaching_hu_api_viz.py` compares the find counts of two geocaching.hu users. It groups a user's find log by calendar day into cumulative totals, reads the day keys back as dates, and fits a trend over a recent window. It predicts when one user catches up with the other, and the clamped counts at future dates.

Modules (one file each):

| module | models |
|---|---|
| `Wrappers` | `Option` and `Result` |
| `Sorting` | Python's `sorted` with a key, as insertion sort by a total preorder, with uniqueness of the sorted result |
| `Projection` | `lonlat_to_pixels`, with `sin` and `log` passed in as function parameters |
| `ZoomSelect` | `choose_zoom`, as a loop method and as a search function |
| `TileGrid` | tile ranges, canvas size, paste offsets, marker offsets, the tile sort |
| `TileCache` | `get_tile`, as a class holding the cache directory and the requests sent |
| `Compositor` | the canvas (an `array2` of pixels), the stitching loop, the marker loop |
| `MapRender` | the map script from the empty check to the last marker |
| `Digits` | decimal numerals and zero padding |
| `TextOrder` | Python's string comparison |
| `Timestamp` | `strptime` for `%Y-%m-%d` and `%Y-%m-%d %H:%M:%S`, `strftime('%Y-%m-%d')`, `toordinal` |
| `Finds` | `parse_finds_data` (a loop method over the decoded JSON) and `convert_to_plot_data` |
| `Trend` | the regression window, the anchored trend line, `predict_catch_date`, `predict_counts` |

Dates in `Trend` are whole day numbers (`Timestamp.DayNumber`). Counts are integers. Slopes, intercepts and predictions are exact reals.

Notes on the code:
- `choose_zoom` never reads its `padding` parameter. Its bounding box uses the unpadded points, while the tile range uses the padded bounds.
- A failing tile write (`img.save`) is not caught, so it ends the script.

## Model

| member | source | states |
|---|---|---|
| Projection.Scale | generate_map_png.py:62 | the world is `256 * 2^zoom` pixels wide, at least one tile |
| Projection.ClampSine | generate_map_png.py:59-60 | the clamped sine lies in [-0.9999, 0.9999]; it equals the sine inside that range and the nearer bound outside it |
| Projection.LogArgument | generate_map_png.py:64 | after the clamp, the argument of `math.log` is positive and within [1/19999, 19999], so the log is always defined |
| Projection.ClampSineMonotone | generate_map_png.py:60 | the clamp preserves the order of sines |
| Projection.PixelXAnchors | generate_map_png.py:63 | longitude -180, 0 and 180 land on the left edge, the middle and the right edge of the world |
| Projection.PixelX | generate_map_png.py:62-63 | definition: `(lon + 180) / 360 * scale` |
| Projection.UnitY | generate_map_png.py:59-64 | definition: the clamped sine fed into `0.5 - log((1 + s) / (1 - s)) / (4 pi)` |
| Projection.LonLatToPixels | generate_map_png.py:57-65 | definition: the pair (x, y), y being the unit value times the scale |
| Projection.Mercator | generate_map_png.py:57-65 | definition: `lonlat_to_pixels` as a projection function, given `sin` and `log` |
| Projection.PixelXStrictlyIncreasing | generate_map_png.py:63 | a more eastern longitude has a strictly larger pixel x |
| Projection.ZoomStepDoubles | generate_map_png.py:57-65 | one zoom step doubles both pixel coordinates of every point |
| Projection.OriginIsCentre | generate_map_png.py:57-65 | where sin 0 = 0 and log 1 = 0, (0, 0) projects to the centre of the world |
| ZoomSelect.MinOf | generate_map_png.py:71-72 | `min(xs)` is an element of the list and no larger than any element |
| ZoomSelect.MaxOf | generate_map_png.py:71-72 | `max(xs)` is an element of the list and no smaller than any element |
| ZoomSelect.Span | generate_map_png.py:74-75 | the bounding-box width and height are never negative |
| ZoomSelect.ChooseZoom | generate_map_png.py:67-80 | the loop returns a zoom in [4, 12]; either the box fits at it and at no higher zoom up to 12, or nothing fits and it is 4 |
| ZoomSelect.Fits | generate_map_png.py:69-77 | definition: the pixel extents at a zoom are within the viewport |
| ZoomSelect.FitsAt | generate_map_png.py:69-77 | definition: the fit test as a function of the zoom |
| ZoomSelect.SearchDown | generate_map_png.py:68-80 | definition: the first fitting zoom going down from a start, else 4 |
| ZoomSelect.SelectZoom | generate_map_png.py:67-80 | definition: the search started at 12 with the fit test of the points |
| ZoomSelect.SearchDownCorrect | generate_map_png.py:68-80 | the descending search returns the highest fitting zoom at or below its start, or MIN_ZOOM |
| ZoomSelect.SelectZoomCorrect | generate_map_png.py:67-80 | the search function meets the same characterisation as the loop |
| ZoomSelect.ChosenZoomUnique | generate_map_png.py:67-80 | only one zoom meets that characterisation, so the loop and the search agree |
| ZoomSelect.IdenticalPointsSelectMaxZoom | generate_map_png.py:67-80 | coincident points have a zero-size box and select zoom 12 |
| ZoomSelect.SelectZoomMonotoneInViewport | generate_map_png.py:77 | a larger target viewport never lowers the chosen zoom |
| ZoomSelect.SearchDownMonotone | generate_map_png.py:68-78 | a weaker fit test never makes the search stop lower |
| ZoomSelect.SpanDoubles | generate_map_png.py:71-75 | doubling every coordinate doubles the extent |
| ZoomSelect.MinDoubles | generate_map_png.py:71 | doubling every coordinate doubles the minimum |
| ZoomSelect.MaxDoubles | generate_map_png.py:71 | doubling every coordinate doubles the maximum |
| ZoomSelect.ZoomStepDoublesBox | generate_map_png.py:62-75 | one zoom step doubles the Mercator pixel box |
| ZoomSelect.MercatorFitsDownwardClosed | generate_map_png.py:68-78 | if the box fits at a zoom it fits at every lower zoom |
| TileGrid.MinInt | generate_map_png.py:99-100 | `min` over tile columns or rows is a member and a lower bound |
| TileGrid.MaxInt | generate_map_png.py:99-100 | `max` over tile columns or rows is a member and an upper bound |
| TileGrid.LayoutOf | generate_map_png.py:96-100 | every tile lies in the column and row ranges, and each of the four bounds is attained by some tile |
| TileGrid.CanvasSize | generate_map_png.py:102-103 | width and height are positive multiples of 256: the number of columns and rows spanned, times 256 |
| TileGrid.CanvasWidth | generate_map_png.py:102 | definition: `(max_x - min_x + 1) * TILE_SIZE` |
| TileGrid.CanvasHeight | generate_map_png.py:103 | definition: `(max_y - min_y + 1) * TILE_SIZE` |
| TileGrid.PasteX | generate_map_png.py:139 | definition: `(t.x - min_x) * TILE_SIZE` |
| TileGrid.PasteY | generate_map_png.py:140 | definition: `(t.y - min_y) * TILE_SIZE` |
| TileGrid.PasteInsideCanvas | generate_map_png.py:139-141 | every tile's 256 x 256 square lies inside the canvas |
| TileGrid.CoversExactly | generate_map_png.py:139-141 | a canvas pixel is in a tile's square exactly when the tile is at column `minX + col / 256` and row `minY + row / 256` |
| TileGrid.PasteSquaresDisjoint | generate_map_png.py:137-141 | tiles at different positions are pasted into disjoint squares |
| TileGrid.Truncate | generate_map_png.py:149-150 | `int()` truncates toward zero, for negative values too |
| TileGrid.MarkerOffset | generate_map_png.py:149-150 | definition: `int(g - min_tile * TILE_SIZE)` |
| TileGrid.MarkerInsideCanvas | generate_map_png.py:149-150 | a point inside the tile range gets a marker centre on the canvas, within one pixel of its exact offset |
| TileGrid.TileLeIsTotalPreorder | generate_map_png.py:132-135 | the key `(t.y, t.x)` orders tiles totally |
| TileGrid.SortTiles | generate_map_png.py:132-135 | definition: the tiles sorted by `(t.y, t.x)` |
| TileGrid.SortTilesCorrect | generate_map_png.py:132-135 | the sorted tiles are a permutation of the tiles, in row-major order |
| TileGrid.SortTilesUnique | generate_map_png.py:132-135 | for tiles of one zoom, every row-major permutation is the sorted list |
| TileCache.TilePartInjective | generate_map_png.py:114 | distinct tiles have distinct `z/x/y.png` parts |
| TileCache.CachePath | generate_map_png.py:114 | definition: `tile_cache/z/x/y.png` |
| TileCache.TileUrl | generate_map_png.py:120 | definition: the OpenStreetMap tile URL of line 23 with z, x and y filled in |
| TileCache.IsErrorStatus | generate_map_png.py:122 | definition: `raise_for_status` raises for statuses 400 to 599 |
| TileCache.Served | generate_map_png.py:115-127 | definition: the stored tile on a hit, the decoded reply on a miss |
| TileCache.FailureOf | generate_map_png.py:121-124 | definition: the error raised by a failed request, an error status or an undecodable body |
| TileCache.CachePathInjective | generate_map_png.py:114 | the cache path determines the tile, so no two tiles share a file |
| TileCache.StoredTileIsServed | generate_map_png.py:113-127 | once a tile is stored, every later lookup hits and returns that image, whatever the server says |
| TileCache.StoreKeepsOtherTiles | generate_map_png.py:118-125 | storing one tile changes nothing about any other tile |
| TileCache.TileStore.constructor | generate_map_png.py:111 | the cache starts with the files on disk and no requests |
| TileCache.TileStore.GetTile | generate_map_png.py:113-127 | a hit returns the stored file and sends nothing. A miss sends exactly one request for the tile URL; it stores and returns the image, or fails with the connection error, the error status (4xx or 5xx) or the undecodable body, and then the files are unchanged. The new files and requests are exactly `AfterGet` of the old ones |
| TileCache.AfterGet | generate_map_png.py:113-127 | one `get_tile` call on the store: a hit changes nothing; a miss appends the tile URL to the requests, and the tile's file appears exactly when the tile can be served, holding the served image; every other file is kept and no other file appears |
| Compositor.PasteOnto | generate_map_png.py:141 | a paste puts the tile's pixels in its square and leaves the others alone; parts outside the canvas are cropped |
| Compositor.BlackRaster | generate_map_png.py:105 | a new RGB image is all black, at the requested size |
| Compositor.Canvas.constructor | generate_map_png.py:105-106 | the canvas has the requested size, black pixels and no markers |
| Compositor.Canvas.Paste | generate_map_png.py:141 | pasting in place changes the pixel array exactly as `PasteOnto` says |
| Compositor.Canvas.DrawEllipse | generate_map_png.py:152-161 | a marker is appended to the drawn ellipses and no pixel changes |
| Compositor.LastCover | generate_map_png.py:137-141 | finds the last tile in paste order whose square covers a pixel, or none |
| Compositor.AllAvailableMeans | generate_map_png.py:137-138 | the loop can fetch every tile exactly when each tile is cached or served |
| Compositor.ServedImages | generate_map_png.py:137-138 | one served image per tile |
| Compositor.AgreementAt | generate_map_png.py:137-138 | a cache that agrees with the start serves each tile as the start does |
| Compositor.FetchKeepsAgreement | generate_map_png.py:137-138 | storing a fetched tile keeps every tile served as it was at the start |
| Compositor.PaintStep | generate_map_png.py:141 | one more paste changes a pixel exactly when the new square covers it |
| Compositor.Stitched | generate_map_png.py:137-141 | the pasted raster keeps the canvas shape |
| Compositor.StitchedStep | generate_map_png.py:137-141 | one more tile adds one paste |
| Compositor.StitchedPixel | generate_map_png.py:137-141 | after all pastes each pixel shows the last covering tile, or black |
| Compositor.LastCoverIsTileAt | generate_map_png.py:137-141 | that tile is the one at column `minX + col / 256` and row `minY + row / 256`; with distinct tiles it is the only one |
| Compositor.RequestsGrow | generate_map_png.py:137-138 | every request sent is for a tile of the loop missing from the disk |
| Compositor.StitchStep | generate_map_png.py:137-141 | one successful loop turn keeps the stitching invariant |
| Compositor.StitchedAll | generate_map_png.py:137-141 | the invariant at the end gives the stitched raster, and the store is what `Fetched` gives |
| Compositor.StitchFails | generate_map_png.py:137-138 | the tile the loop fails on is the first one that cannot be served, and the store after that failing call is what `Fetched` gives |
| Compositor.RequestsWiden | generate_map_png.py:137-138 | requests for the tiles done so far are requests for the loop's tiles |
| Compositor.Stitch | generate_map_png.py:137-141 | the loop succeeds exactly when every tile can be served, and then the canvas is the stitched raster. A failure is at the first unservable tile. The store's files and requests end exactly as `Fetched` gives for the tiles, whose meaning `FetchedEffects` states |
| Compositor.Fetched | generate_map_png.py:137-141 | definition: one `AfterGet` step per tile in loop order, none after the first tile that cannot be served |
| Compositor.FetchedStops | generate_map_png.py:137-138 | nothing happens to the store after the first tile that cannot be served |
| Compositor.FetchedAgrees | generate_map_png.py:137-138 | after the loop every old file is still there, and every tile is served as the starting cache would serve it |
| Compositor.FetchedRequests | generate_map_png.py:137-138 | earlier requests are kept in order, and every new request is the URL of a loop tile missing from disk at the start |
| Compositor.FetchedAllCached | generate_map_png.py:137-138 | when every tile is on disk the loop changes neither the files nor the requests |
| Compositor.FetchedStoresAll | generate_map_png.py:137-138 | when every tile can be served, every tile ends up on disk |
| Compositor.FetchedKeys | generate_map_png.py:137-138 | no file appears but those of the loop's tiles |
| Compositor.FetchedAsksMissing | generate_map_png.py:137-138 | every tile the loop reaches that is missing from disk has its URL requested |
| Compositor.FetchedEffects | generate_map_png.py:137-141 | the facts above together, for the store any run of the loop leaves |
| Compositor.MarkerBoxes | generate_map_png.py:146-161 | one marker box per point |
| Compositor.MarkerBox | generate_map_png.py:152-158 | definition: the box `(px - 4, py - 4, px + 4, py + 4)` around the marker offset |
| Compositor.MarkerBoxOnCanvas | generate_map_png.py:149-158 | a marker is an 8 x 8 box centred on the truncated offset, and that centre is on the canvas |
| Compositor.DrawMarkers | generate_map_png.py:146-161 | markers are drawn one per point, in point order, and no pixel changes |
| MapRender.PointLeIsTotalPreorder | generate_map_png.py:47 | the key `(lat, lon)` orders points totally |
| MapRender.SortPoints | generate_map_png.py:47 | definition: the points sorted by `(lat, lon)` |
| MapRender.SortPointsCorrect | generate_map_png.py:47 | the sorted points are a permutation, ordered by latitude then longitude, and that order is unique |
| MapRender.PaddedBounds | generate_map_png.py:49-55 | the bounds are the points' extreme latitudes and longitudes widened by 0.1 degree |
| MapRender.ExtremesSameElements | generate_map_png.py:54-55 | min and max depend only on which values occur |
| MapRender.SameBox | generate_map_png.py:69-75 | a permutation of the points has the same pixel box |
| MapRender.SelectZoomIgnoresOrder | generate_map_png.py:47-80 | the sort of the points cannot change the chosen zoom |
| MapRender.PaintTiles | generate_map_png.py:95-141 | the canvas is sized from the tile ranges, starts black with no markers, and gets the tiles pasted in row-major order. It fails exactly when some tile cannot be served, and then with the error of the first such tile in row-major order. The store ends as `Fetched` gives for the sorted tiles |
| MapRender.DrawMap | generate_map_png.py:95-161 | the canvas is what `PaintTiles` promises, with one marker per point drawn over it in point order. It fails exactly when `PaintTiles` does, with the same error, and the store ends as `Fetched` gives for the sorted tiles, so by `FetchedEffects` the cache still serves what it served before and requests go only to tiles not on disk |
| MapRender.RenderMap | generate_map_png.py:44-161 | no points is an error, and so is an empty tile cover; neither touches the cache. Otherwise the zoom is the chosen zoom of the sorted points, and the canvas, the fetch error (wrapped as a tile-fetch error) and the store's files and requests (as `Fetched` gives for the sorted cover) are what `DrawMap` promises |
| Sorting.Insert | generate_map_png.py:47 | inserting adds exactly one element |
| Sorting.InsertionSort | generate_map_png.py:47 | the sort keeps every element, as often as it occurs |
| Sorting.InsertSorted | generate_map_png.py:47 | inserting into a sorted list keeps it sorted |
| Sorting.InsertionSortCorrect | generate_map_png.py:47 | `sorted` under a total preorder key gives an ordered permutation |
| Sorting.SortedPermutationUnique | generate_map_png.py:132-135 | when no two distinct elements tie, only one ordered permutation exists |
| Digits.DigitValue | geocaching_hu_api_viz.py:69 | an ASCII digit's value is 0-9 and inverts `DigitChar` |
| Digits.Decimal | geocaching_hu_api_viz.py:70 | `str(n)` is non-empty, all digits, and one digit exactly for n < 10 |
| Digits.NumberOfDecimal | geocaching_hu_api_viz.py:70 | reading `str(n)` back gives n |
| Digits.DecimalInjective | generate_map_png.py:114 | distinct numbers have distinct decimal strings |
| Digits.Padded | geocaching_hu_api_viz.py:70 | a zero-padded field has exactly its width, all digits |
| Digits.NumberOfPadded | geocaching_hu_api_viz.py:70 | reading a zero-padded field back gives the value, when the value fits the width |
| TextOrder.LessIrreflexive | geocaching_hu_api_viz.py:80 | no string sorts before itself |
| TextOrder.LessAsymmetric | geocaching_hu_api_viz.py:80 | two strings never sort before each other |
| TextOrder.LessTransitive | geocaching_hu_api_viz.py:80 | string order is transitive |
| TextOrder.LessTotal | geocaching_hu_api_viz.py:80 | distinct strings are comparable |
| TextOrder.LessConcat | geocaching_hu_api_viz.py:80 | with equal-length first parts, concatenations compare by the first part, then the rest |
| TextOrder.PaddedOrder | geocaching_hu_api_viz.py:80 | zero-padded numbers of one width sort as their values |
| Timestamp.DigitRun | geocaching_hu_api_viz.py:69 | a maximal run of digits |
| Timestamp.NumberField | geocaching_hu_api_viz.py:69 | a numeric field reads 1 to `width` digits and stops at a non-digit |
| Timestamp.YearField | geocaching_hu_api_viz.py:69 | `%Y` reads exactly four digits |
| Timestamp.DayField | geocaching_hu_api_viz.py:69 | `%d` reads one or two digits, or a space and one digit |
| Timestamp.ParseDate | geocaching_hu_api_viz.py:95 | a successful `strptime(s, '%Y-%m-%d')` is a valid calendar date |
| Timestamp.ParseTimestamp | geocaching_hu_api_viz.py:69 | a successful `strptime(s, '%Y-%m-%d %H:%M:%S')` is a valid date and time |
| Timestamp.DateKey | geocaching_hu_api_viz.py:70 | the day key has ten characters with dashes at positions 4 and 7 |
| Timestamp.FormatTimestamp | geocaching_hu_api_viz.py:68-69 | the timestamp text has nineteen characters |
| Timestamp.DateKeyRoundTrip | geocaching_hu_api_viz.py:70-95 | the day key of a date parses back to that date |
| Timestamp.ClockOfFormat | geocaching_hu_api_viz.py:69 | the `%H:%M:%S` part of a timestamp reads back |
| Timestamp.TimestampRoundTrip | geocaching_hu_api_viz.py:68-69 | a zero-padded timestamp parses back to the same date and time |
| Timestamp.DateKeyInjective | geocaching_hu_api_viz.py:70-71 | distinct days have distinct keys, so the grouping never merges days |
| Timestamp.DateKeyOrder | geocaching_hu_api_viz.py:80 | keys sort as their dates do |
| Timestamp.DaysInMonth | geocaching_hu_api_viz.py:95 | every month has 28 to 31 days |
| Timestamp.YearLength | geocaching_hu_api_viz.py:124 | the twelve months make up the year |
| Timestamp.DayNumber | geocaching_hu_api_viz.py:119 | the ordinal of a valid date is at least 1 |
| Timestamp.MonthsAccumulate | geocaching_hu_api_viz.py:119 | a month ends no later than any later month starts |
| Timestamp.YearsAccumulate | geocaching_hu_api_viz.py:119 | a year ends no later than any later year starts |
| Timestamp.DayNumberIncreasing | geocaching_hu_api_viz.py:119 | a later date has a larger ordinal, so date differences are positive day counts |
| Timestamp.DaysBeforeYearClosed | geocaching_hu_api_viz.py:119 | the days before year y are 365 per year plus one per leap year: `365(y-1) + (y-1)/4 - (y-1)/100 + (y-1)/400` |
| Timestamp.MaxDate | geocaching_hu_api_viz.py:151 | 9999-12-31 is a valid date whose day number is 3652059, `date.max.toordinal()` |
| Timestamp.LastDayNumber | geocaching_hu_api_viz.py:151 | no valid date has a larger day number than 9999-12-31 |
| Finds.Outcomes | geocaching_hu_api_viz.py:64-74 | one outcome per list element |
| Finds.Classify | geocaching_hu_api_viz.py:64-74 | definition: what one list element does to the loop: counted under its day key, skipped, or a TypeError |
| Finds.FirstOccurrences | geocaching_hu_api_viz.py:62-71 | the dictionary's keys in insertion order: no repeats, the same keys |
| Finds.ParseFindsData | geocaching_hu_api_viz.py:54-88 | raises TypeError exactly when the list holds an element that is not an object with a 'date' key (a number, null, a bool, or a string or list containing "date"). Returns None exactly for a non-list or when no element has a parseable date. Otherwise the rows are the cumulative day counts of the countable finds |
| Finds.GroupByDay | geocaching_hu_api_viz.py:62-74 | the loop stops at the first raising element; otherwise the counts are how many finds fall on each day and the order is first-seen |
| Finds.Accumulate | geocaching_hu_api_viz.py:80-86 | the loop builds the running totals over the sorted days |
| Finds.RunningTotals | geocaching_hu_api_viz.py:81-86 | one row per day |
| Finds.RunningTotalsAt | geocaching_hu_api_viz.py:81-86 | row i holds day i and the sum of the counts up to it |
| Finds.TallyCounts | geocaching_hu_api_viz.py:62-71 | each day key is counted as often as it occurs in the finds |
| Finds.TallyMeans | geocaching_hu_api_viz.py:62-71 | the defaultdict has exactly the keys seen, each counted as often as it occurs |
| Finds.AnyRaisesMeans | geocaching_hu_api_viz.py:64-66 | the list raises exactly when some element raises |
| Finds.RaisesUpToMeans | geocaching_hu_api_viz.py:64-66 | a raise among the first n outcomes is some raising outcome |
| Finds.RaisesLater | geocaching_hu_api_viz.py:64-66 | a raise stays a raise for the whole list |
| Finds.SortedKeysMeans | geocaching_hu_api_viz.py:80 | the sorted keys are strictly increasing and are the dictionary's keys |
| Finds.SumIsCount | geocaching_hu_api_viz.py:84-86 | the running sum up to a day counts the finds on or before that day |
| Finds.TotalsAreCumulative | geocaching_hu_api_viz.py:80-86 | the rows built from the sorted keys are the cumulative counts |
| Finds.CountGrows | geocaching_hu_api_viz.py:84-86 | a later day counts at least the earlier total plus its own finds |
| Finds.CountAll | geocaching_hu_api_viz.py:84-86 | a day after every key counts every find |
| Finds.CumulativeTotals | geocaching_hu_api_viz.py:80-88 | totals rise strictly, the first is at least 1, the last is the number of countable finds |
| Finds.StrictlySortedUnique | geocaching_hu_api_viz.py:80 | two strictly increasing lists with the same elements are equal |
| Finds.CumulativeUnique | geocaching_hu_api_viz.py:54-88 | the countable finds determine the rows: the order of the list does not matter |
| Finds.CountedIsCanonical | geocaching_hu_api_viz.py:69-71 | the key a counted find is grouped under parses back to a valid date and prints as itself |
| Finds.CanonicalKeysUpTo | geocaching_hu_api_viz.py:64-71 | when every counted outcome carries a canonical key, every key collected from the outcomes is canonical |
| Finds.KeysAreCanonical | geocaching_hu_api_viz.py:69-71 | every grouping key spells a valid date, and parsing it gives that spelling back |
| Finds.ReadDays | geocaching_hu_api_viz.py:95 | one parse per row; successful parses are valid dates |
| Finds.Collect | geocaching_hu_api_viz.py:95 | the comprehension succeeds exactly when every row parses, giving those dates, and otherwise fails with the first row that does not |
| Finds.ConvertToPlotData | geocaching_hu_api_viz.py:90-97 | empty input gives empty series. Otherwise there is one date and one count per row, dates are the parsed days and counts the totals. Failure is exactly a row that does not parse, naming the first |
| Finds.ConvertCanonical | geocaching_hu_api_viz.py:90-97 | rows whose days are canonical keys always convert, and each date's key is the row's day |
| Finds.PlotDataOfFinds | geocaching_hu_api_viz.py:54-97 | the rows of `parse_finds_data` always convert, into strictly increasing dates and day numbers |
| Trend.Suffix | geocaching_hu_api_viz.py:113 | `range(s, n)`: holds exactly the indices from s to n - 1, in increasing order |
| Trend.IndicesFrom | geocaching_hu_api_viz.py:109 | the filter keeps exactly the qualifying indices, in increasing order |
| Trend.Cutoff | geocaching_hu_api_viz.py:108 | definition: the last date minus `recent_days` |
| Trend.RecentWindow | geocaching_hu_api_viz.py:107-113 | an index is in the window exactly when its date is at or after the cutoff, or fewer than two dates qualify. The window is increasing, holds the last index when the span is not negative, and has at least two entries when there are two dates |
| Trend.SortedIndicesSuffix | geocaching_hu_api_viz.py:109 | over sorted dates the qualifying indices are the last ones, without a gap |
| Trend.WindowIsSuffix | geocaching_hu_api_viz.py:107-113 | over sorted dates the window is a run of consecutive indices ending at the last |
| Trend.Offsets | geocaching_hu_api_viz.py:119 | one x value per window entry; the first is 0 |
| Trend.Picked | geocaching_hu_api_viz.py:116 | definition: the totals at the window's indices, one per entry |
| Trend.LinearRegression | geocaching_hu_api_viz.py:99-127 | fewer than two dates give (0, 0). Otherwise the line through day 0 = first date meets the last total at the last date, and so predicts the last total there |
| Trend.Anchored | geocaching_hu_api_viz.py:124-125 | the adjusted intercept puts the last total on the line |
| Trend.SlopeFromWindow | geocaching_hu_api_viz.py:109-121 | the slope is the fit of the window alone, and the window ends with the last date |
| Trend.OffsetsSorted | geocaching_hu_api_viz.py:119 | over sorted dates the x values start at 0 and never decrease |
| Trend.PickedSorted | geocaching_hu_api_viz.py:109-117 | over running totals that never fall, the y values handed to the fit never fall |
| Trend.PredictCatchDate | geocaching_hu_api_viz.py:129-152 | no catch date exactly when the first user is not faster or not strictly behind. Otherwise the catch day is the last date plus the gap over the daily gain. That day raises `OverflowError` exactly when it is past 9999-12-31. Else it is returned: strictly after the first user's last date, so the `< 0` branch never runs, and there both trends drawn from the last totals meet |
| Trend.Prediction | geocaching_hu_api_viz.py:159 | `max(0, v)`: never negative, at least the line's value, and one of the two |
| Trend.PredictCounts | geocaching_hu_api_viz.py:154-160 | one prediction per future date, each the clamped line value at its distance from the base date |
| Trend.PredictionMonotone | geocaching_hu_api_viz.py:159 | a rising trend never predicts fewer finds for a later date |
| Trend.FutureDates | geocaching_hu_api_viz.py:194-196 | thirteen dates, every 30 days from the current date, strictly increasing, all within a year |
| Trend.FuturePredictionsRise | geocaching_hu_api_viz.py:194-198 | with a rising trend the predicted curve never falls |
| Trend.DaySeries | geocaching_hu_api_viz.py:119 | the day numbers of dates in increasing order are strictly increasing, and each lies between 1 and the last day number of the calendar |
| Trend.FindsWindowIsSuffix | geocaching_hu_api_viz.py:90-113 | on the dates of the parsed finds the window is a run of consecutive days ending with the latest |

## Left out

- Network and file I/O: fetching activations and finds, reading the environment, `print`, saving the PNG and the chart. Tile server replies are a function parameter, and the disk cache is a map from path to image.
- `get_user_finds`: the HTTP status check and the exception wrapper that turns any failure into None are not part of this model.
- `mercantile.tiles` is a function parameter (`MapRender.TileCover`); its result is taken as given.
- `math.sin` and `math.log` are function parameters (`Projection.MathLib`), and floats are exact reals. Rounding, NaN and infinities are not modelled.
- The pixel contents of tile images beyond their 256 x 256 RGB grid are not modelled. So are PIL's mode conversion (`convert("RGB")`), the PNG decoder and encoder, and the byte-stable save.
- `draw.ellipse` records the marker box instead of rasterising a filled circle.
- TileCache.FailureOf keeps only the kind of failure and the status. The exception's message text is not modelled; for an error status or a failed connection it includes the tile URL, and PIL's error for an undecodable body does not.
- `Compositor.Stitch` and `TileCache.TileStore.GetTile` model the cache write and `mkdir` as always succeeding; a failing write would end the script.
- `Timestamp.ParseDate` and `Timestamp.ParseTimestamp` accept only ASCII digits, where Python's `\d` also matches other Unicode decimal digits. Whitespace is Python's `str.isspace`.
- `Timestamp.DateKey` always zero-pads the year to four digits; C libraries that do not pad `%Y` below year 1000 are not modelled.
- `Finds.Classify` treats a JSON number as one kind. The model does not distinguish integers from floats, since both raise the same TypeError.
- `Finds.ParseFindsData` classifies every element up front and then runs the grouping loop over the outcomes. Classification is pure, so this does not change the result.
- `Trend.LinearRegression` takes `stats.linregress` as a function parameter giving the slope; the intercept, r, p and standard error it returns are unused by the source.
- `Trend.PredictCatchDate` returns the catch date as a real day number. `timedelta(days=float)`'s rounding to microseconds is not modelled, so a catch date within a microsecond of the end of 9999-12-31 may be classed differently.
- `Trend.Cutoff` (and so `Trend.LinearRegression`) does not model the `OverflowError` that `dates[-1] - timedelta(days=recent_days)` raises when the cutoff would fall before 0001-01-01.
- `Trend.FutureDates` does not model the `OverflowError` that `last_date + timedelta(days=i)` raises when a future date would fall after 9999-12-31.
- Plotting with matplotlib and the chart layout are not part of this model.
- `generate_map.py` (the interactive folium map) is not part of this model.
