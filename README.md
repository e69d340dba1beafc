# wms2mbtiles crawl engine in Dafny

wms2mbtiles downloads a pyramid of raster map tiles and stores them in an
MBTiles file. The map can come from a WMS server, an ArcGIS map export or
an XYZ tile server. The crawl starts from one tile. Each tile is read from
the store, or else downloaded and stored compressed. Then the crawl
decides which of the tile's four children to visit. Children come off
the front of the work queue, so each branch is followed depth first.
Optionally, one large WMS request (a mosaic) is made for a solid tile's
subtree, and the result is cut into tiles at a deeper zoom.

The model has seven modules:

- `Types` (types.dfy): tiles, image classes, server types, bytes, and the
  `Option`/`Result` wrappers.
- `Quadtree` (quadtree.dfy): the children of a tile and the mosaic planner.
  - The planner is a loop method, `MaxMosaicWidth`, proved equal to the
    recursive `Plan`.
  - The mosaic's slice grid is proved to be exactly the tile's subtree at
    the planned zoom.
- `TileUrl` (tile_url.dfy): the XYZ request URL.
  - Each placeholder is replaced at its first occurrence only.
  - There is a decimal rendering of numbers with a round-trip proof, and
    the flipped row `2^z - 1 - y`.
- `Jpeg` (jpeg.dfy): JPEG recognition by the bytes `FF D8 FF`.
- `Image` (image.dfy): the emptiness scan over a raw pixel buffer. It looks
  for fully transparent pixels with four channels, and white pixels with
  three.
- `Crawl` (crawl.dfy): one worker turn as a function `Next` on a
  `CrawlState`, and the whole run as `Drain`. The state is the queue, the
  store and the five counters.
  - A queue weight is proved to fall on every turn, so the crawl
    terminates.
  - Lemmas state each decision rule of a turn and what a whole run
    visits.
- `Manager` (manager.dfy): the class `Crawler`, whose fields the worker
  updates in place.
  - `Step` is proved to be `Crawl.Next`.
  - `Run` is proved to be `Crawl.Drain` from the queue holding the start
    tile.

Some collaborators are outside the model: downloads, WMS URL building,
tile compression, image classification and mosaic slicing. Their code is
not part of this model. They are the fields of `Crawl.Env`: deterministic
functions passed in as parameters.

- A download answers None when it fails.
- Compression, classification and slicing answer None when they reject
  their input. The turn then ends where the rejection happens: counters
  already changed stay changed, and no child is queued.

The mosaic planner doubles while `width < maxWidth`. A budget that is not
the tile size times a power of two can therefore be exceeded
(`Quadtree.PlanOvershoot`). `Quadtree.PlanWithinBudget` bounds the width
for power-of-two budgets.

## Model

| member | source | states |
|---|---|---|
| `Quadtree.Children` | src/utils.ts:3-17 | four children; child `i` is `(2x + i%2, 2y + i/2, z+1)` (NW, NE, SW, SE) |
| `Quadtree.ChildrenInverse` | src/utils.ts:8-16 | every child's parent is the tile, and its quadrant index is its position in the array |
| `Quadtree.ChildOfParent` | src/utils.ts:8-16 | every tile below zoom 0 is its parent's child at its own quadrant index |
| `Quadtree.ChildrenDistinct` | src/utils.ts:11-16 | the four children are pairwise distinct |
| `Quadtree.ChildrenInRange` | src/utils.ts:8-10 | children of a tile on the `2^z` grid lie on the `2^(z+1)` grid |
| `Quadtree.Plan` | src/utils.ts:19-33 | the planned zoom lies between the start and the zoom limit; width and corner are scaled by `2^(mz-z)`; it stops only at the zoom or width limit; after a descent the width is below twice the budget |
| `Quadtree.PlanAtLimit` | src/utils.ts:27-28 | a start at the zoom or width limit is returned unchanged with the tile width |
| `Quadtree.PlanOnFirstChildPath` | src/utils.ts:28-29 | the planned tile is the start's first-child (NW) descendant `mz - z` levels down |
| `Quadtree.PlanWithinBudget` | src/utils.ts:27-31 | a budget that is the tile size times a power of two is never exceeded |
| `Quadtree.PlanOvershoot` | src/utils.ts:27-31 | with 512-pixel tiles and a 1500-pixel budget the plan requests 2048 pixels |
| `Quadtree.MaxMosaicWidth` | src/utils.ts:19-33 | the loop's result equals `Plan` from the start tile at one tile width |
| `Quadtree.MosaicGridIsSubtree` | src/manager.ts:163-212 | the mosaic is `2^(mz-z)` tiles wide, and its slice grid at the planned zoom is exactly the tile's subtree at that zoom |
| `TileUrl.InvertedY` | src/tile.ts:20 | the flipped row `2^z - 1 - y`; its partners `InvertedYInRange` and `InvertedYInvolution` state that it stays on the grid and undoes itself |
| `TileUrl.InvertedYInRange` | src/tile.ts:20 | the flipped row of a row on the grid is on the grid |
| `TileUrl.InvertedYInvolution` | src/tile.ts:20 | flipping a row twice gives it back |
| `TileUrl.IntToString` | src/tile.ts:23-26 | the rendering is non-empty, all digits after an optional leading minus, and the minus appears exactly for negative numbers |
| `TileUrl.IntToStringRoundTrip` | src/tile.ts:23-26 | reading the rendered numeral back gives the number |
| `TileUrl.FindFrom` | src/tile.ts:22-26 | the result is an occurrence with none before it, or there is no occurrence at all |
| `TileUrl.ReplaceFirst` | src/tile.ts:22-26 | `replace` with a string pattern; its partner `ReplaceFirstSpec` states which occurrence is replaced |
| `TileUrl.ReplaceFirstSpec` | src/tile.ts:22-26 | a string pattern replaces only the earliest occurrence, and a string without one is unchanged |
| `TileUrl.GetTileUrl` | src/tile.ts:14-27 | the four replacements in the order `{x}`, `{y}`, `{-y}`, `{z}`; its partners `NoPlaceholderUnchanged` and `ZxyTemplate` state the URL it yields |
| `TileUrl.NoPlaceholderUnchanged` | src/tile.ts:14-27 | a template with none of `{x}`, `{y}`, `{-y}`, `{z}` is returned as it is |
| `TileUrl.ZxyTemplate` | src/tile.ts:14-27 | a `{z}/{x}/{y}` template between brace-free parts yields the decimal `z/x/y` |
| `Jpeg.IsJpg` | src/isJpg.ts:3-9 | true exactly when a buffer is present and starts with `FF D8 FF` |
| `Jpeg.ShortRejected` | src/isJpg.ts:4-6 | a missing buffer, or one shorter than three bytes, is rejected |
| `Jpeg.OnlyPrefixMatters` | src/isJpg.ts:8 | buffers that agree on their first three bytes get the same verdict |
| `Jpeg.AppendKeepsVerdict` | src/isJpg.ts:3-9 | appending bytes to a buffer of length three or more keeps the verdict |
| `Jpeg.SignatureAccepted` | src/isJpg.ts:8 | the signature followed by anything is accepted |
| `Image.IsEmptyImage` | src/image.ts:9-25 | channel counts other than 3 and 4 fail; otherwise the loop with early exit answers the all-pixels scan `PixelsEmptyFrom` |
| `Image.PixelsEmptyFrom` | src/image.ts:14-24 | the scan from one pixel offset; its partners `ScanIsConjunction`, `FourChannels` and `ThreeChannels` state the pixels it tests |
| `Image.NoPixelsIsEmpty` | src/image.ts:14-24 | an empty buffer is empty |
| `Image.ScanIsConjunction` | src/image.ts:14-24 | the scan holds exactly when every pixel offset passes the per-pixel test |
| `Image.AlphaScan` | src/image.ts:15-16 | with four channels, from any pixel offset: whole pixels and every alpha byte 0 |
| `Image.WhiteScan` | src/image.ts:17-22 | with three channels, from any pixel offset: whole pixels and every byte 255 |
| `Image.FourChannels` | src/image.ts:14-16 | a four-channel buffer is empty exactly when its length is a multiple of 4 and every alpha byte is 0 |
| `Image.ThreeChannels` | src/image.ts:17-22 | a three-channel buffer is empty exactly when its length is a multiple of 3 and every byte is 255 |
| `Image.ColourIgnored` | src/image.ts:15-16 | with four channels, colour bytes never change the verdict |
| `Crawl.RequestUrl` | src/manager.ts:88-91 | a WMS request for WMS servers, the XYZ template for tile and ArcGIS servers |
| `Crawl.Resolve` | src/manager.ts:80-104 | the lookup and download with their counters; its partners `ResolveBytes`, `StoreHit`, `MissDownloaded` and `CompressionRejected` state each branch |
| `Crawl.Lookup` | src/manager.ts:80-104 | the bytes a turn works on: the stored tile, or an accepted download |
| `Crawl.ResolveBytes` | src/manager.ts:80-104 | the bytes `Resolve` hands on are exactly `Lookup`'s |
| `Crawl.Kept` | src/manager.ts:219-224 | the children whose quadrant is not transparent; its partners `KeptChildrenFrom` and `KeptChildren` state which and in what order |
| `Crawl.PutSlices` | src/manager.ts:199-213 | the slices written in order; its partners `PutSlicesKeys`, `PutSlicesValue` and `PutSlicesElsewhere` state keys and values |
| `Crawl.Mosaic` | src/manager.ts:157-216 | the mosaic step; its partners `MosaicOnlyWhen`, `MosaicWritten` and `SlicingRejectedEndsTurn` state when it writes and what |
| `Crawl.Expand` | src/manager.ts:116-224 | pruning, classification, mosaic and children after a successful lookup; its partners `DeadEndQueuesNothing`, `ClassificationRejected`, `AllChildrenFirst` and `PrunedChildrenFirst` state each outcome |
| `Crawl.Process` | src/manager.ts:72-227 | one worker turn on a tile; its partners `DiscardPastMaxZoom` and `TotalCountsTurns` state the zoom limit and the `total` count |
| `Crawl.Next` | src/manager.ts:72-227 | the turn on the front of the queue; `NextDecreases` states it shrinks the queue weight, and `Manager.Crawler.Step` is proved equal to it |
| `Crawl.NextDecreases` | src/manager.ts:72-227 | every turn lowers the queue weight, so the queue drains |
| `Crawl.Drain` | src/manager.ts:229-231 | a run ends with an empty queue |
| `Crawl.DiscardPastMaxZoom` | src/manager.ts:73-76 | a tile past the zoom limit is dropped and nothing else changes |
| `Crawl.TotalCountsTurns` | src/manager.ts:73-77 | `total` grows by one exactly for tiles within the zoom limit |
| `Crawl.StoreHit` | src/manager.ts:80-85 | a stored tile counts a skip and no download; without mosaics the store and byte count are unchanged |
| `Crawl.MissDownloaded` | src/manager.ts:86-104 | a missing tile whose download succeeds and compresses counts one download and its size, and stores the compressed bytes under its own key |
| `Crawl.CompressionRejected` | src/manager.ts:92-104 | a download that compression rejects is counted with its size, and nothing is stored or queued |
| `Crawl.DeadEndQueuesNothing` | src/manager.ts:110-124 | a failed download or a known-empty size queues nothing and writes no mosaic |
| `Crawl.ClassificationRejected` | src/manager.ts:133 | bytes that classification rejects end the turn after the lookup: nothing queued, no mosaic |
| `Crawl.AllChildrenFirst` | src/manager.ts:126-131 | without pruning, the four children go ahead of every pending tile |
| `Crawl.PrunedChildrenFirst` | src/manager.ts:219-224 | with pruning, the kept children go ahead of every pending tile, and nothing is queued when a requested mosaic is rejected by slicing |
| `Crawl.KeptChildrenFrom` | src/manager.ts:219-224 | from index `i`, child `j` is kept exactly when `j >= i` and its quadrant is not transparent, in quadrant order |
| `Crawl.KeptChildren` | src/manager.ts:219-224 | child `i` is queued exactly when quadrant `i` is not transparent (a missing verdict keeps it), in quadrant order |
| `Crawl.PutSlicesElsewhere` | src/manager.ts:199-213 | writing slices touches no key outside the planned zoom |
| `Crawl.PutSlicesKeys` | src/manager.ts:199-213 | writing slices adds exactly the slice keys and keeps every other value |
| `Crawl.PutSlicesValue` | src/manager.ts:199-213 | a slice's bytes are stored at `(mz, mx + dx, my + dy)` when no later slice names the same key |
| `Crawl.MosaicOnlyWhen` | src/manager.ts:157-169 | mosaic images are counted only for a solid WMS tile above the zoom limit with mosaics and pruning on, when the planned tile is not stored |
| `Crawl.MosaicWritten` | src/manager.ts:169-224 | a written mosaic counts every slice and adds its size to the downloaded bytes; it adds exactly the slice keys, with each slice's bytes under its key, keeps the tile's own bytes, and still queues the kept children |
| `Crawl.SlicingRejectedEndsTurn` | src/manager.ts:176-198 | a mosaic that slicing rejects adds its size to the downloaded bytes, writes nothing and queues no child |
| `Crawl.SlicesInSubtree` | src/manager.ts:163-212 | slices inside the mosaic grid land in the tile's subtree at the planned zoom |
| `Crawl.SlicesCoverSubtree` | src/manager.ts:163-212 | a slicer covering the grid writes every subtree tile at the planned zoom |
| `Crawl.UnprunedCrawlVisitsAll` | src/manager.ts:72-231 | without pruning, with every download succeeding and compressing, a run counts as many turns as the queued subtrees have tiles down to the zoom limit |
| `Crawl.SeedWithTwoLevels` | src/manager.ts:229-231 | the seed `(0, 0, 0)` with zoom limit 1 and no pruning gives a total of 5 |
| `Crawl.TransparentSeedAlone` | src/manager.ts:219-224 | a seed whose quadrants are all transparent is the only tile counted |
| `Manager.Crawler.constructor` | src/manager.ts:65-71 | an opened store, an empty queue and every counter at 0 |
| `Manager.Crawler.WriteSlices` | src/manager.ts:199-213 | the slice loop leaves the store equal to `PutSlices` and counts one mosaic image per slice |
| `Manager.Crawler.UnshiftKept` | src/manager.ts:219-224 | the loop from quadrant 3 down to 0 leaves the kept children in quadrant order in front of the queue |
| `Manager.Crawler.Download` | src/manager.ts:86-104 | download, compression, counters and store are the lookup's miss branch |
| `Manager.Crawler.DownloadMosaic` | src/manager.ts:163-216 | the mosaic step, and whether the turn goes on, are `Crawl.Mosaic` |
| `Manager.Crawler.Step` | src/manager.ts:72-227 | one worker turn changes the fields exactly as `Crawl.Next` |
| `Manager.Crawler.Run` | src/manager.ts:229-231 | pushing the start tile and taking turns until the queue is empty gives `Crawl.Drain` |

## Left out

- Option parsing, the command line, logging and verbose URL output (src/cli.ts, console output in src/manager.ts) are not modelled: they change no tile or counter.
- WMS and ArcGIS request URLs use floating-point bounding boxes (src/wms.ts, src/arcgis.ts, src/epsg3857.ts). They are not part of this model: `Env.wmsUrl` stands for them.
- Downloads (src/got.ts) are `Env.fetch`: a deterministic function from URL to bytes, with None for every failure. Retries and timeouts are not modelled.
- Image decoding, compression, classification and mosaic slicing use an image library. They are `Env` functions, with None for a rejection. `Image.IsEmptyImage` starts from the decoded buffer and channel count.
- Numbers are JavaScript doubles; the model uses unbounded integers. The two agree while every tile coordinate, `2^z` (so `z <= 53`), and the byte counters stay below `2^53`, and while the numbers written into a URL stay below `10^21`, where `toString` switches to exponent form. `TileUrl.InvertedYInvolution`, `TileUrl.IntToString`, `TileUrl.IntToStringRoundTrip` and `TileUrl.ZxyTemplate` describe wms2mbtiles only in that range.
- Concurrency of the async queue is not modelled: the model is one worker taking turns in queue order. With several workers, turns interleave at each await.
- The MBTiles store is a map. Write transactions (`startWriting`, `_commit`, `stopWriting`) and store failures are not modelled. A failed store read counts as a miss, as in src/manager.ts:86-104.
- Crawl.AllChildrenFirst: states only that the four children, as a multiset, go before the pending tiles. `q.unshift` with an array puts them in an order that depends on the queue library, which is not part of this model. The model uses the order NW, NE, SW, SE.
- Tile zoom is a natural number. With a negative zoom `Math.pow(2, z)` in src/tile.ts:20 is fractional, and that case is not modelled.
- TileUrl.ZxyTemplate: covers only the `{z}/{x}/{y}` template with brace-free parts. Other templates have only the general `ReplaceFirstSpec` and `NoPlaceholderUnchanged`.
- The crawler has no solid-tile propagation and no zoom cut-offs, and its image classes are only transparent, solid and mixed.
