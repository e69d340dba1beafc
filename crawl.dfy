/**
 * The crawl as a state machine over a work queue, a tile store and the run's
 * counters. `Next` is one worker turn: take the tile at the front of the
 * queue and apply the decision rules (discard past the zoom limit, reuse a
 * stored tile or download it, drop failed or known-empty tiles, optionally
 * write a mosaic of the subtree, and put children at the front of the
 * queue). `Drain` repeats turns until the queue is empty.
 *
 * Downloads, URL building for WMS servers, compression, image analysis and
 * mosaic slicing are collaborators whose code is not part of this model;
 * they appear as the functions of an `Env`.
 */
module Crawl {
  import opened Types
  import Quadtree
  import TileUrl

  /** The settings of one run, after defaults are applied. */
  datatype Options = Options(
    baseUrl: string,
    maxZoom: int,
    tileSize: int,
    emptyTileSizes: seq<int>,
    serverType: ServerType,
    skipTransparent: bool,
    mosaicDownload: bool,
    maxWidth: int)

  /** One tile cut out of a mosaic, with its column and row offset inside the mosaic. */
  datatype Slice = Slice(tile: Bytes, dx: int, dy: int)

  /**
   * The collaborators: `fetch` downloads a URL (None for any failure),
   * `wmsUrl` builds a WMS request for a tile at a pixel size, `compressTile`
   * re-encodes a download before it is stored, `imageInfo` classifies a tile,
   * and `sliceMosaic` cuts a mosaic into tiles of the given size. The last
   * three answer None when they reject their input; a rejection ends the
   * worker's turn where it happens.
   */
  datatype Env = Env(
    fetch: string -> Option<Bytes>,
    wmsUrl: (Tile, int) -> string,
    compressTile: Bytes -> Option<Bytes>,
    imageInfo: Bytes -> Option<ImageInfo>,
    sliceMosaic: (Bytes, int) -> Option<seq<Slice>>)

  datatype CrawlState = CrawlState(
    queue: seq<Tile>,
    store: map<Tile, Bytes>,
    total: nat,
    skipped: nat,
    downloaded: nat,
    downloadedData: nat,
    mosaicImages: nat)

  /** The URL a tile is downloaded from: a WMS request, or the XYZ template for every other server type. */
  function RequestUrl(o: Options, env: Env, t: Tile): string {
    if o.serverType == Wms then env.wmsUrl(t, o.tileSize)
    else TileUrl.GetTileUrl(o.baseUrl, t.x, t.y, t.z)
  }

  /**
   * Looks the tile up in the store, or downloads it. Returns the bytes the
   * rest of the turn works on (the stored bytes on a hit, the downloaded
   * ones on a miss) and the state after the lookup. None ends the turn: the
   * download failed, or compression rejected the download after it was
   * counted.
   */
  function Resolve(o: Options, env: Env, t: Tile, s: CrawlState): (Option<Bytes>, CrawlState) {
    if t in s.store then
      (Some(s.store[t]), s.(skipped := s.skipped + 1))
    else
      match env.fetch(RequestUrl(o, env, t))
      case None => (None, s)
      case Some(f) =>
        var counted := s.(downloaded := s.downloaded + 1, downloadedData := s.downloadedData + |f|);
        match env.compressTile(f)
        case None => (None, counted)
        case Some(c) => (Some(f), counted.(store := s.store[t := c]))
  }

  /** Whether child `i` is kept: its quadrant is not reported transparent (a missing verdict keeps it). */
  predicate Keeps(quartals: seq<ImageType>, i: nat) {
    !(i < |quartals| && quartals[i] == Transparent)
  }

  /** The kept children from index `i` on, in index order. */
  function Kept(children: seq<Tile>, quartals: seq<ImageType>, i: nat): seq<Tile>
    decreases |children| - i
  {
    if i >= |children| then []
    else (if Keeps(quartals, i) then [children[i]] else []) + Kept(children, quartals, i + 1)
  }

  /** Whether a mosaic of the subtree is attempted for a tile with this classification. */
  predicate MosaicApplies(o: Options, info: ImageInfo, t: Tile) {
    o.mosaicDownload && info.fullImage == Solid && o.serverType == Wms && t.z < o.maxZoom
  }

  function PlanFor(o: Options, t: Tile): Quadtree.MosaicPlan {
    Quadtree.Plan(t.z, t.x, t.y, o.maxZoom, o.maxWidth, o.tileSize)
  }

  /** Where a slice is stored: its offsets added to the planned tile, at the planned zoom. */
  function SliceKey(p: Quadtree.MosaicPlan, sl: Slice): Tile {
    Tile(p.x + sl.dx, p.y + sl.dy, p.z)
  }

  /** The store after writing the slices one after the other. */
  function PutSlices(store: map<Tile, Bytes>, p: Quadtree.MosaicPlan, slices: seq<Slice>): map<Tile, Bytes>
    decreases |slices|
  {
    if slices == [] then store
    else
      var last := slices[|slices| - 1];
      PutSlices(store, p, slices[..|slices| - 1])[SliceKey(p, last) := last.tile]
  }

  /**
   * The mosaic download: unless the planned tile is already stored, one
   * request at the planned pixel size for the current tile, sliced into
   * tiles written at the planned zoom. The flag is false when slicing
   * rejected the downloaded mosaic, which ends the turn.
   */
  function Mosaic(o: Options, env: Env, t: Tile, s: CrawlState): (bool, CrawlState) {
    var p := PlanFor(o, t);
    if Tile(p.x, p.y, p.z) in s.store then (true, s)
    else
      match env.fetch(env.wmsUrl(t, p.width))
      case None => (true, s)
      case Some(m) =>
        var counted := s.(downloadedData := s.downloadedData + |m|);
        match env.sliceMosaic(m, o.tileSize)
        case None => (false, counted)
        case Some(slices) =>
          (true, counted.(store := PutSlices(s.store, p, slices),
                          mosaicImages := s.mosaicImages + |slices|))
  }

  /**
   * What follows a successful lookup with bytes `d`: pruning, the mosaic and
   * the children. A rejected classification or a rejected slicing ends the
   * turn before any child is queued.
   */
  function Expand(o: Options, env: Env, t: Tile, d: Bytes, s: CrawlState): CrawlState {
    if |d| in o.emptyTileSizes then s
    else if !o.skipTransparent then s.(queue := Quadtree.Children(t) + s.queue)
    else
      match env.imageInfo(d)
      case None => s
      case Some(info) =>
        var (completed, s') := if MosaicApplies(o, info, t) then Mosaic(o, env, t, s) else (true, s);
        if !completed then s'
        else s'.(queue := Kept(Quadtree.Children(t), info.quartals, 0) + s'.queue)
  }

  /** One worker turn on tile `t`, already taken off the queue of `s`. */
  function Process(o: Options, env: Env, t: Tile, s: CrawlState): CrawlState {
    if t.z > o.maxZoom then s
    else
      var (d, s') := Resolve(o, env, t, s.(total := s.total + 1));
      if d.None? then s' else Expand(o, env, t, d.value, s')
  }

  /** One worker turn: the front tile is taken off the queue and processed. */
  function Next(o: Options, env: Env, s: CrawlState): CrawlState
    requires s.queue != []
  {
    Process(o, env, s.queue[0], s.(queue := s.queue[1..]))
  }

  // ---------------------------------------------------------------------
  // Termination of the crawl

  /** A bound on the turns a queued tile at zoom `z` can cause, itself included. */
  function Weight(maxZoom: int, z: nat): nat
    decreases if z > maxZoom then 0 else maxZoom - z + 1
  {
    if z > maxZoom then 1 else 1 + 4 * Weight(maxZoom, z + 1)
  }

  function QueueWeight(maxZoom: int, q: seq<Tile>): nat {
    if q == [] then 0 else Weight(maxZoom, q[0].z) + QueueWeight(maxZoom, q[1..])
  }

  lemma {:induction false} QueueWeightAppend(m: int, a: seq<Tile>, b: seq<Tile>)
    ensures QueueWeight(m, a + b) == QueueWeight(m, a) + QueueWeight(m, b)
  {
    if a != [] {
      assert (a + b)[1..] == a[1..] + b;
      QueueWeightAppend(m, a[1..], b);
    } else {
      assert a + b == b;
    }
  }

  lemma {:induction false} KeptWeight(m: int, children: seq<Tile>, quartals: seq<ImageType>, i: nat)
    requires i <= |children|
    decreases |children| - i
    ensures QueueWeight(m, Kept(children, quartals, i)) <= QueueWeight(m, children[i..])
  {
    if i < |children| {
      KeptWeight(m, children, quartals, i + 1);
      var head := if Keeps(quartals, i) then [children[i]] else [];
      QueueWeightAppend(m, head, Kept(children, quartals, i + 1));
      assert children[i..][1..] == children[i + 1..];
    }
  }

  lemma ChildrenWeight(m: int, t: Tile)
    ensures QueueWeight(m, Quadtree.Children(t)) == 4 * Weight(m, t.z + 1)
  {
    var c := Quadtree.Children(t);
    var w := Weight(m, t.z + 1);
    assert c[1..][1..][1..][1..] == [];
    assert QueueWeight(m, c[1..][1..][1..]) == w;
    assert QueueWeight(m, c[1..][1..]) == 2 * w;
    assert QueueWeight(m, c[1..]) == 3 * w;
  }

  /** Every turn lowers the weight of the queue, so the crawl drains. */
  lemma NextDecreases(o: Options, env: Env, s: CrawlState)
    requires s.queue != []
    ensures QueueWeight(o.maxZoom, Next(o, env, s).queue) < QueueWeight(o.maxZoom, s.queue)
  {
    var t, rest := s.queue[0], s.queue[1..];
    var m := o.maxZoom;
    var q := Next(o, env, s).queue;
    if t.z <= m {
      var children := Quadtree.Children(t);
      ChildrenWeight(m, t);
      assert children[0..] == children;
      assert q == rest || q == children + rest
        || exists quartals: seq<ImageType> :: q == Kept(children, quartals, 0) + rest;
      if q == children + rest {
        QueueWeightAppend(m, children, rest);
      } else if q != rest {
        var quartals: seq<ImageType> :| q == Kept(children, quartals, 0) + rest;
        KeptWeight(m, children, quartals, 0);
        QueueWeightAppend(m, Kept(children, quartals, 0), rest);
      }
    }
  }

  /** Turns until the queue is empty (the drain of the work queue). */
  function Drain(o: Options, env: Env, s: CrawlState): (r: CrawlState)
    decreases QueueWeight(o.maxZoom, s.queue)
    ensures r.queue == []
  {
    if s.queue == [] then s
    else
      NextDecreases(o, env, s);
      Drain(o, env, Next(o, env, s))
  }

  // ---------------------------------------------------------------------
  // The decision rules of one turn

  /**
   * The bytes a turn on `t` works on: the stored tile, or else the download
   * when it succeeds and compression accepts it.
   */
  function Lookup(o: Options, env: Env, t: Tile, store: map<Tile, Bytes>): Option<Bytes> {
    if t in store then Some(store[t])
    else
      match env.fetch(RequestUrl(o, env, t))
      case None => None
      case Some(f) => if env.compressTile(f).Some? then Some(f) else None
  }

  /** The bytes `Resolve` hands on are the lookup's, whatever the counters. */
  lemma ResolveBytes(o: Options, env: Env, t: Tile, s: CrawlState)
    ensures Resolve(o, env, t, s).0 == Lookup(o, env, t, s.store)
  {
  }

  /** A tile past the zoom limit is taken off the queue and nothing else changes. */
  lemma DiscardPastMaxZoom(o: Options, env: Env, s: CrawlState)
    requires s.queue != [] && s.queue[0].z > o.maxZoom
    ensures Next(o, env, s) == s.(queue := s.queue[1..])
  {
  }

  /** `total` grows by one exactly for the turns on tiles within the zoom limit. */
  lemma TotalCountsTurns(o: Options, env: Env, s: CrawlState)
    requires s.queue != []
    ensures Next(o, env, s).total == s.total + (if s.queue[0].z <= o.maxZoom then 1 else 0)
  {
  }

  /** Writing slices only ever touches the planned zoom level. */
  lemma {:induction false} PutSlicesElsewhere(store: map<Tile, Bytes>, p: Quadtree.MosaicPlan, slices: seq<Slice>, k: Tile)
    requires k.z != p.z
    decreases |slices|
    ensures k in PutSlices(store, p, slices) <==> k in store
    ensures k in store ==> PutSlices(store, p, slices)[k] == store[k]
  {
    if slices != [] {
      PutSlicesElsewhere(store, p, slices[..|slices| - 1], k);
    }
  }

  /**
   * Writing slices adds exactly the slice keys, and a key no slice names
   * keeps its value.
   */
  lemma {:induction false} PutSlicesKeys(store: map<Tile, Bytes>, p: Quadtree.MosaicPlan, slices: seq<Slice>)
    decreases |slices|
    ensures PutSlices(store, p, slices).Keys == store.Keys + (set sl | sl in slices :: SliceKey(p, sl))
    ensures forall k | k in store && (forall sl | sl in slices :: SliceKey(p, sl) != k) ::
      PutSlices(store, p, slices)[k] == store[k]
  {
    if slices != [] {
      var init, last := slices[..|slices| - 1], slices[|slices| - 1];
      PutSlicesKeys(store, p, init);
      assert slices == init + [last];
      assert (set sl | sl in slices :: SliceKey(p, sl))
        == (set sl | sl in init :: SliceKey(p, sl)) + {SliceKey(p, last)};
    }
  }

  /**
   * The bytes under a slice key are the tile of the slice written there,
   * when no later slice names the same key.
   */
  lemma {:induction false} PutSlicesValue(store: map<Tile, Bytes>, p: Quadtree.MosaicPlan, slices: seq<Slice>, i: nat)
    requires i < |slices|
    requires forall j | i < j < |slices| :: SliceKey(p, slices[j]) != SliceKey(p, slices[i])
    decreases |slices|
    ensures SliceKey(p, slices[i]) in PutSlices(store, p, slices)
    ensures PutSlices(store, p, slices)[SliceKey(p, slices[i])] == slices[i].tile
  {
    if i < |slices| - 1 {
      var init := slices[..|slices| - 1];
      assert init[i] == slices[i];
      PutSlicesValue(store, p, init, i);
    }
  }

  /** A turn on a stored tile counts a skip and downloads nothing for the tile itself. */
  lemma StoreHit(o: Options, env: Env, s: CrawlState)
    requires s.queue != [] && s.queue[0].z <= o.maxZoom && s.queue[0] in s.store
    ensures Next(o, env, s).skipped == s.skipped + 1
    ensures Next(o, env, s).downloaded == s.downloaded
    ensures !o.mosaicDownload ==>
      Next(o, env, s).store == s.store && Next(o, env, s).downloadedData == s.downloadedData
  {
  }

  /**
   * A turn on a missing tile whose download succeeds and compresses counts
   * the download and its size, and stores the compressed bytes under the
   * tile's own key.
   */
  lemma MissDownloaded(o: Options, env: Env, s: CrawlState, f: Bytes, c: Bytes)
    requires s.queue != [] && s.queue[0].z <= o.maxZoom && s.queue[0] !in s.store
    requires env.fetch(RequestUrl(o, env, s.queue[0])) == Some(f)
    requires env.compressTile(f) == Some(c)
    ensures Next(o, env, s).downloaded == s.downloaded + 1
    ensures Next(o, env, s).skipped == s.skipped
    ensures Next(o, env, s).downloadedData >= s.downloadedData + |f|
    ensures !o.mosaicDownload ==> Next(o, env, s).downloadedData == s.downloadedData + |f|
    ensures s.queue[0] in Next(o, env, s).store
    ensures Next(o, env, s).store[s.queue[0]] == c
  {
    var t := s.queue[0];
    var r := Resolve(o, env, t, s.(queue := s.queue[1..], total := s.total + 1)).1;
    assert t in r.store && r.store[t] == c;
    if !(|f| in o.emptyTileSizes) && o.skipTransparent && env.imageInfo(f).Some?
      && MosaicApplies(o, env.imageInfo(f).value, t)
    {
      var p := PlanFor(o, t);
      if p.z == t.z {
        assert Tile(p.x, p.y, p.z) == t;
      } else if env.fetch(env.wmsUrl(t, p.width)).Some? {
        var m := env.fetch(env.wmsUrl(t, p.width)).value;
        if env.sliceMosaic(m, o.tileSize).Some? {
          PutSlicesElsewhere(r.store, p, env.sliceMosaic(m, o.tileSize).value, t);
        }
      }
    }
  }

  /**
   * A download that compression rejects still counts as downloaded, with its
   * size, but nothing is stored and nothing is queued.
   */
  lemma CompressionRejected(o: Options, env: Env, s: CrawlState, f: Bytes)
    requires s.queue != [] && s.queue[0].z <= o.maxZoom && s.queue[0] !in s.store
    requires env.fetch(RequestUrl(o, env, s.queue[0])) == Some(f)
    requires env.compressTile(f).None?
    ensures Next(o, env, s) == s.(queue := s.queue[1..], total := s.total + 1,
                                  downloaded := s.downloaded + 1,
                                  downloadedData := s.downloadedData + |f|)
  {
  }

  /** A failed download, or bytes of a known-empty size, end the branch: nothing is queued. */
  lemma DeadEndQueuesNothing(o: Options, env: Env, s: CrawlState)
    requires s.queue != [] && s.queue[0].z <= o.maxZoom
    requires var d := Lookup(o, env, s.queue[0], s.store); d.None? || |d.value| in o.emptyTileSizes
    ensures Next(o, env, s).queue == s.queue[1..]
    ensures Next(o, env, s).mosaicImages == s.mosaicImages
  {
    ResolveBytes(o, env, s.queue[0], s.(queue := s.queue[1..], total := s.total + 1));
  }

  /**
   * Bytes that classification rejects end the branch after the lookup:
   * nothing is queued and no mosaic is requested.
   */
  lemma ClassificationRejected(o: Options, env: Env, s: CrawlState, d: Bytes)
    requires s.queue != [] && s.queue[0].z <= o.maxZoom && o.skipTransparent
    requires Lookup(o, env, s.queue[0], s.store) == Some(d) && |d| !in o.emptyTileSizes
    requires env.imageInfo(d).None?
    ensures Next(o, env, s) == Resolve(o, env, s.queue[0], s.(queue := s.queue[1..], total := s.total + 1)).1
  {
    ResolveBytes(o, env, s.queue[0], s.(queue := s.queue[1..], total := s.total + 1));
  }

  /**
   * Without transparency pruning all four children are queued ahead of
   * every pending tile, whatever the image holds.
   */
  lemma AllChildrenFirst(o: Options, env: Env, s: CrawlState)
    requires s.queue != [] && s.queue[0].z <= o.maxZoom && !o.skipTransparent
    requires var d := Lookup(o, env, s.queue[0], s.store); d.Some? && |d.value| !in o.emptyTileSizes
    ensures var q := Next(o, env, s).queue;
      |q| == |s.queue| + 3 && q[4..] == s.queue[1..]
      && multiset(q[..4]) == multiset(Quadtree.Children(s.queue[0]))
  {
    var q := Next(o, env, s).queue;
    var c := Quadtree.Children(s.queue[0]);
    ResolveBytes(o, env, s.queue[0], s.(queue := s.queue[1..], total := s.total + 1));
    assert q == c + s.queue[1..];
    assert q[..4] == c && q[4..] == s.queue[1..];
  }

  /**
   * The mosaic for `t` is requested (its planned tile is neither stored nor
   * `t` itself, and the request succeeds) and slicing rejects it.
   */
  predicate SlicingRejects(o: Options, env: Env, t: Tile, store: map<Tile, Bytes>) {
    var p := PlanFor(o, t);
    && Tile(p.x, p.y, p.z) !in store && Tile(p.x, p.y, p.z) != t
    && match env.fetch(env.wmsUrl(t, p.width))
       case None => false
       case Some(m) => env.sliceMosaic(m, o.tileSize).None?
  }

  /**
   * With transparency pruning the kept children, those whose quadrant is not
   * transparent, are queued in front of every pending tile, unless a
   * requested mosaic is rejected by slicing, which queues nothing.
   */
  lemma PrunedChildrenFirst(o: Options, env: Env, s: CrawlState, d: Bytes, info: ImageInfo)
    requires s.queue != [] && s.queue[0].z <= o.maxZoom && o.skipTransparent
    requires Lookup(o, env, s.queue[0], s.store) == Some(d) && |d| !in o.emptyTileSizes
    requires env.imageInfo(d) == Some(info)
    ensures Next(o, env, s).queue
      == if MosaicApplies(o, info, s.queue[0]) && SlicingRejects(o, env, s.queue[0], s.store) then s.queue[1..]
         else Kept(Quadtree.Children(s.queue[0]), info.quartals, 0) + s.queue[1..]
  {
    var t := s.queue[0];
    var s0 := s.(queue := s.queue[1..], total := s.total + 1);
    ResolveBytes(o, env, t, s0);
    var r := Resolve(o, env, t, s0).1;
    assert r.store.Keys == s.store.Keys + {t};
  }

  /**
   * The kept children from index `i` on: child `j` is among them exactly
   * when `j >= i` and its quadrant is kept, each sits at its own quadrant
   * index, and they come in increasing quadrant order.
   */
  lemma {:induction false} KeptChildrenFrom(t: Tile, quartals: seq<ImageType>, i: nat)
    requires i <= 4
    decreases 4 - i
    ensures var k := Kept(Quadtree.Children(t), quartals, i);
      && |k| <= 4 - i
      && (forall j | 0 <= j < 4 :: Quadtree.Children(t)[j] in k <==> i <= j && Keeps(quartals, j))
      && (forall a | 0 <= a < |k| ::
            i <= Quadtree.ChildIndex(k[a]) < 4 && k[a] == Quadtree.Children(t)[Quadtree.ChildIndex(k[a])])
      && (forall a, b | 0 <= a < b < |k| :: Quadtree.ChildIndex(k[a]) < Quadtree.ChildIndex(k[b]))
  {
    var c := Quadtree.Children(t);
    Quadtree.ChildrenDistinct(t);
    if i < 4 {
      KeptChildrenFrom(t, quartals, i + 1);
      Quadtree.ChildrenInverse(t, i);
    }
  }

  /**
   * The children queued under transparency pruning: child `i` is queued
   * exactly when quadrant `i` is not transparent, in quadrant order.
   */
  lemma KeptChildren(t: Tile, quartals: seq<ImageType>)
    ensures var k := Kept(Quadtree.Children(t), quartals, 0);
      && (forall i | 0 <= i < 4 :: Quadtree.Children(t)[i] in k <==> Keeps(quartals, i))
      && (forall a, b | 0 <= a < b < |k| :: Quadtree.ChildIndex(k[a]) < Quadtree.ChildIndex(k[b]))
  {
    KeptChildrenFrom(t, quartals, 0);
  }

  /**
   * A mosaic is written only when mosaic downloads are on, pruning is on,
   * the tile is solid, the server is WMS, the tile is above the zoom limit,
   * and the planned tile is neither stored nor the tile itself.
   */
  lemma MosaicOnlyWhen(o: Options, env: Env, s: CrawlState)
    requires s.queue != []
    requires Next(o, env, s).mosaicImages != s.mosaicImages
    ensures var t, p := s.queue[0], PlanFor(o, s.queue[0]);
      && o.mosaicDownload && o.skipTransparent && o.serverType == Wms && t.z < o.maxZoom
      && Lookup(o, env, t, s.store).Some?
      && env.imageInfo(Lookup(o, env, t, s.store).value).Some?
      && env.imageInfo(Lookup(o, env, t, s.store).value).value.fullImage == Solid
      && Tile(p.x, p.y, p.z) !in s.store && Tile(p.x, p.y, p.z) != t
  {
    var t := s.queue[0];
    var s0 := s.(queue := s.queue[1..], total := s.total + 1);
    ResolveBytes(o, env, t, s0);
    var (d, r) := Resolve(o, env, t, s0);
    assert d.Some? && r.mosaicImages == s.mosaicImages;
    assert Next(o, env, s) == Expand(o, env, t, d.value, r);
    assert r.store.Keys == s.store.Keys + {t};
  }

  /**
   * When the mosaic is written, every slice is counted, the mosaic's size
   * is added to the downloaded bytes, the slices are stored at the planned
   * zoom under their offsets (a slice's bytes where no later slice shares
   * its key), the tile's own stored bytes are kept, and the kept children
   * are still queued.
   */
  lemma MosaicWritten(o: Options, env: Env, s: CrawlState, d: Bytes, info: ImageInfo, m: Bytes, slices: seq<Slice>)
    requires s.queue != [] && o.skipTransparent
    requires var t := s.queue[0]; Lookup(o, env, t, s.store) == Some(d) && |d| !in o.emptyTileSizes
    requires env.imageInfo(d) == Some(info) && MosaicApplies(o, info, s.queue[0])
    requires var t, p := s.queue[0], PlanFor(o, s.queue[0]);
      Tile(p.x, p.y, p.z) !in s.store && Tile(p.x, p.y, p.z) != t
    requires env.fetch(env.wmsUrl(s.queue[0], PlanFor(o, s.queue[0]).width)) == Some(m)
    requires env.sliceMosaic(m, o.tileSize) == Some(slices)
    ensures var t, p, n := s.queue[0], PlanFor(o, s.queue[0]), Next(o, env, s);
      var r := Resolve(o, env, t, s.(queue := s.queue[1..], total := s.total + 1)).1;
      && n.mosaicImages == s.mosaicImages + |slices|
      && n.downloadedData == r.downloadedData + |m|
      && n.store.Keys == s.store.Keys + {t} + (set sl | sl in slices :: SliceKey(p, sl))
      && (forall i | 0 <= i < |slices| && (forall j | i < j < |slices| :: SliceKey(p, slices[j]) != SliceKey(p, slices[i]))
            :: n.store[SliceKey(p, slices[i])] == slices[i].tile)
      && t in n.store && n.store[t] == r.store[t]
      && n.queue == Kept(Quadtree.Children(t), info.quartals, 0) + s.queue[1..]
  {
    var t, p := s.queue[0], PlanFor(o, s.queue[0]);
    var s0 := s.(queue := s.queue[1..], total := s.total + 1);
    ResolveBytes(o, env, t, s0);
    var r := Resolve(o, env, t, s0).1;
    assert r.store.Keys == s.store.Keys + {t};
    PutSlicesKeys(r.store, p, slices);
    forall i | 0 <= i < |slices| && (forall j | i < j < |slices| :: SliceKey(p, slices[j]) != SliceKey(p, slices[i]))
      ensures PutSlices(r.store, p, slices)[SliceKey(p, slices[i])] == slices[i].tile
    {
      PutSlicesValue(r.store, p, slices, i);
    }
    assert p.z == t.z ==> Tile(p.x, p.y, p.z) == t;
    PutSlicesElsewhere(r.store, p, slices, t);
  }

  /**
   * A requested mosaic that slicing rejects is counted in the downloaded
   * bytes, writes nothing and ends the turn: no child is queued.
   */
  lemma SlicingRejectedEndsTurn(o: Options, env: Env, s: CrawlState, d: Bytes, info: ImageInfo, m: Bytes)
    requires s.queue != [] && o.skipTransparent
    requires var t := s.queue[0]; Lookup(o, env, t, s.store) == Some(d) && |d| !in o.emptyTileSizes
    requires env.imageInfo(d) == Some(info) && MosaicApplies(o, info, s.queue[0])
    requires var t, p := s.queue[0], PlanFor(o, s.queue[0]);
      Tile(p.x, p.y, p.z) !in s.store && Tile(p.x, p.y, p.z) != t
    requires env.fetch(env.wmsUrl(s.queue[0], PlanFor(o, s.queue[0]).width)) == Some(m)
    requires env.sliceMosaic(m, o.tileSize).None?
    ensures var r := Resolve(o, env, s.queue[0], s.(queue := s.queue[1..], total := s.total + 1)).1;
      Next(o, env, s) == r.(downloadedData := r.downloadedData + |m|)
  {
    var t := s.queue[0];
    var s0 := s.(queue := s.queue[1..], total := s.total + 1);
    ResolveBytes(o, env, t, s0);
    assert Resolve(o, env, t, s0).1.store.Keys == s.store.Keys + {t};
  }

  /** Some slice sits at grid offset (dx, dy). */
  ghost predicate HasSlice(slices: seq<Slice>, dx: int, dy: int) {
    exists sl | sl in slices :: sl.dx == dx && sl.dy == dy
  }

  /** Every offset of the `n` by `n` grid has a slice. */
  ghost predicate CoversGrid(slices: seq<Slice>, n: int) {
    forall dx, dy | 0 <= dx < n && 0 <= dy < n :: HasSlice(slices, dx, dy)
  }

  /** Every slice offset lies in the `n` by `n` grid. */
  predicate WithinGrid(slices: seq<Slice>, n: int) {
    forall sl | sl in slices :: 0 <= sl.dx < n && 0 <= sl.dy < n
  }

  /**
   * Slices whose offsets lie in the mosaic's grid (its width in tiles per
   * side) land in the subtree of the tile the mosaic was planned from, at
   * the planned zoom.
   */
  lemma SlicesInSubtree(o: Options, t: Tile, slices: seq<Slice>)
    requires o.tileSize > 0
    requires WithinGrid(slices, PlanFor(o, t).width / o.tileSize)
    ensures var p := PlanFor(o, t);
      forall sl | sl in slices :: SliceKey(p, sl).z == p.z && Quadtree.IsDescendant(SliceKey(p, sl), t)
  {
    var p := PlanFor(o, t);
    var n := p.width / o.tileSize;
    Quadtree.MosaicGridIsSubtree(t, o.maxZoom, o.maxWidth, o.tileSize);
    forall sl | sl in slices
      ensures SliceKey(p, sl).z == p.z && Quadtree.IsDescendant(SliceKey(p, sl), t)
    {
      assert Quadtree.InSliceGrid(p, n, SliceKey(p, sl));
    }
  }

  /** A slicer that covers the mosaic's grid writes every tile of the subtree at the planned zoom. */
  lemma SlicesCoverSubtree(o: Options, t: Tile, store: map<Tile, Bytes>, slices: seq<Slice>)
    requires o.tileSize > 0
    requires CoversGrid(slices, PlanFor(o, t).width / o.tileSize)
    ensures var p := PlanFor(o, t);
      forall c: Tile | c.z == p.z && Quadtree.IsDescendant(c, t) :: c in PutSlices(store, p, slices)
  {
    var p := PlanFor(o, t);
    var n := p.width / o.tileSize;
    Quadtree.MosaicGridIsSubtree(t, o.maxZoom, o.maxWidth, o.tileSize);
    PutSlicesKeys(store, p, slices);
    forall c: Tile | c.z == p.z && Quadtree.IsDescendant(c, t)
      ensures c in PutSlices(store, p, slices)
    {
      assert Quadtree.InSliceGrid(p, n, c);
      assert HasSlice(slices, c.x - p.x, c.y - p.y);
      var sl :| sl in slices && sl.dx == c.x - p.x && sl.dy == c.y - p.y;
      assert SliceKey(p, sl) == c;
    }
  }

  // ---------------------------------------------------------------------
  // Whole runs

  /** The turns on tiles within the zoom limit in a full, unpruned subtree from zoom `z`. */
  function Visits(maxZoom: int, z: nat): nat
    decreases if z > maxZoom then 0 else maxZoom - z + 1
  {
    if z > maxZoom then 0 else 1 + 4 * Visits(maxZoom, z + 1)
  }

  function QueueVisits(maxZoom: int, q: seq<Tile>): nat {
    if q == [] then 0 else Visits(maxZoom, q[0].z) + QueueVisits(maxZoom, q[1..])
  }

  lemma {:induction false} QueueVisitsAppend(m: int, a: seq<Tile>, b: seq<Tile>)
    ensures QueueVisits(m, a + b) == QueueVisits(m, a) + QueueVisits(m, b)
  {
    if a != [] {
      assert (a + b)[1..] == a[1..] + b;
      QueueVisitsAppend(m, a[1..], b);
    } else {
      assert a + b == b;
    }
  }

  lemma ChildrenVisits(m: int, t: Tile)
    ensures QueueVisits(m, Quadtree.Children(t)) == 4 * Visits(m, t.z + 1)
  {
    var c := Quadtree.Children(t);
    var v := Visits(m, t.z + 1);
    assert c[1..][1..][1..][1..] == [];
    assert QueueVisits(m, c[1..][1..][1..]) == v;
    assert QueueVisits(m, c[1..][1..]) == 2 * v;
    assert QueueVisits(m, c[1..]) == 3 * v;
  }

  /**
   * Without pruning, with no known-empty sizes, and with every download
   * succeeding and every compression accepted, a drained crawl counts as
   * many turns as the queued subtrees have tiles down to the zoom limit.
   */
  lemma {:induction false} UnprunedCrawlVisitsAll(o: Options, env: Env, s: CrawlState)
    requires !o.skipTransparent && o.emptyTileSizes == []
    requires forall u :: env.fetch(u).Some?
    requires forall b :: env.compressTile(b).Some?
    decreases QueueWeight(o.maxZoom, s.queue)
    ensures Drain(o, env, s).total == s.total + QueueVisits(o.maxZoom, s.queue)
  {
    if s.queue != [] {
      var t, rest := s.queue[0], s.queue[1..];
      var n := Next(o, env, s);
      NextDecreases(o, env, s);
      UnprunedCrawlVisitsAll(o, env, n);
      assert Drain(o, env, s) == Drain(o, env, n);
      if t.z <= o.maxZoom {
        assert env.fetch(RequestUrl(o, env, t)).Some?;
        assert env.compressTile(env.fetch(RequestUrl(o, env, t)).value).Some?;
        assert n.queue == Quadtree.Children(t) + rest;
        ChildrenVisits(o.maxZoom, t);
        QueueVisitsAppend(o.maxZoom, Quadtree.Children(t), rest);
      }
    }
  }

  /** Seed (0, 0, 0) with zoom limit 1 and no pruning: the root and its four children, five tiles. */
  lemma SeedWithTwoLevels(o: Options, env: Env, store: map<Tile, Bytes>)
    requires !o.skipTransparent && o.emptyTileSizes == [] && o.maxZoom == 1
    requires forall u :: env.fetch(u).Some?
    requires forall b :: env.compressTile(b).Some?
    ensures Drain(o, env, CrawlState([Tile(0, 0, 0)], store, 0, 0, 0, 0, 0)).total == 5
  {
    var s := CrawlState([Tile(0, 0, 0)], store, 0, 0, 0, 0, 0);
    UnprunedCrawlVisitsAll(o, env, s);
    assert QueueVisits(1, s.queue) == Visits(1, 0);
  }

  /**
   * A seed whose quadrants are all transparent, with pruning on, is the only
   * tile visited.
   */
  lemma TransparentSeedAlone(o: Options, env: Env, s: CrawlState, d: Bytes, info: ImageInfo)
    requires |s.queue| == 1 && s.queue[0].z <= o.maxZoom && o.skipTransparent
    requires Lookup(o, env, s.queue[0], s.store) == Some(d)
    requires env.imageInfo(d) == Some(info)
    requires info.quartals == [Transparent, Transparent, Transparent, Transparent]
    ensures Drain(o, env, s).total == s.total + 1
  {
    var n := Next(o, env, s);
    ResolveBytes(o, env, s.queue[0], s.(queue := s.queue[1..], total := s.total + 1));
    var c, q := Quadtree.Children(s.queue[0]), info.quartals;
    assert Kept(c, q, 4) == [];
    assert Kept(c, q, 3) == [];
    assert Kept(c, q, 2) == [];
    assert Kept(c, q, 1) == [];
    assert Kept(c, q, 0) == [];
    assert n.queue == [];
    assert Drain(o, env, s) == Drain(o, env, n);
  }
}
