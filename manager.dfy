/**
 * The crawl run with its mutable state: one worker taking tiles off the
 * front of the queue, updating the store and the counters in place. Each
 * turn is proved to be the `Crawl.Next` step, and a run to be `Crawl.Drain`.
 */
module Manager {
  import opened Types
  import opened Crawl
  import Quadtree

  class Crawler {
    const opts: Options
    const env: Env
    var queue: seq<Tile>
    var store: map<Tile, Bytes>
    var total: nat
    var skipped: nat
    var downloaded: nat
    var downloadedData: nat
    var mosaicImages: nat

    function State(): CrawlState
      reads this
    {
      CrawlState(queue, store, total, skipped, downloaded, downloadedData, mosaicImages)
    }

    /** A run over an opened store (which may hold tiles of an earlier run), with every counter at 0. */
    constructor (opts: Options, env: Env, store: map<Tile, Bytes>)
      ensures this.opts == opts && this.env == env
      ensures State() == CrawlState([], store, 0, 0, 0, 0, 0)
    {
      this.opts := opts;
      this.env := env;
      this.queue := [];
      this.store := store;
      this.total, this.skipped, this.downloaded, this.downloadedData, this.mosaicImages := 0, 0, 0, 0, 0;
    }

    /** The slices of a mosaic written one by one, each counted as a mosaic image. */
    method WriteSlices(p: Quadtree.MosaicPlan, slices: seq<Slice>)
      modifies this
      ensures State() == old(State()).(store := PutSlices(old(store), p, slices),
                                       mosaicImages := old(mosaicImages) + |slices|)
    {
      var k := 0;
      while k < |slices|
        invariant 0 <= k <= |slices|
        invariant State() == old(State()).(store := PutSlices(old(store), p, slices[..k]),
                                           mosaicImages := old(mosaicImages) + k)
      {
        mosaicImages := mosaicImages + 1;
        store := store[SliceKey(p, slices[k]) := slices[k].tile];
        assert slices[..k + 1][..k] == slices[..k];
        k := k + 1;
      }
      assert slices[..|slices|] == slices;
    }

    /** The children loop: from quadrant 3 down to 0, each kept child is put at the front. */
    method UnshiftKept(children: seq<Tile>, quartals: seq<ImageType>)
      requires |children| == 4
      modifies this`queue
      ensures queue == Kept(children, quartals, 0) + old(queue)
    {
      var i := 3;
      while i >= 0
        invariant -1 <= i <= 3
        invariant queue == Kept(children, quartals, i + 1) + old(queue)
      {
        if Keeps(quartals, i) {
          queue := [children[i]] + queue;
        }
        i := i - 1;
      }
    }

    /**
     * Downloading a tile missing from the store, stored after compression.
     * None when the download fails or compression rejects it; a rejected
     * download has already been counted.
     */
    method Download(t: Tile) returns (d: Option<Bytes>)
      requires t !in store
      modifies this
      ensures (d, State()) == Resolve(opts, env, t, old(State()))
    {
      d := env.fetch(RequestUrl(opts, env, t));
      if d.Some? {
        downloaded := downloaded + 1;
        downloadedData := downloadedData + |d.value|;
        var compressed := env.compressTile(d.value);
        if compressed.None? {
          return None;
        }
        store := store[t := compressed.value];
      }
    }

    /** The mosaic download for tile `t`; `completed` is false when slicing rejected the mosaic. */
    method DownloadMosaic(t: Tile) returns (completed: bool)
      modifies this
      ensures (completed, State()) == Mosaic(opts, env, t, old(State()))
    {
      completed := true;
      var p := Quadtree.MaxMosaicWidth(t.z, t.x, t.y, opts.maxZoom, opts.maxWidth, opts.tileSize);
      if Tile(p.x, p.y, p.z) !in store {
        var mosaic := env.fetch(env.wmsUrl(t, p.width));
        if mosaic.Some? {
          downloadedData := downloadedData + |mosaic.value|;
          var slices := env.sliceMosaic(mosaic.value, opts.tileSize);
          if slices.None? {
            return false;
          }
          WriteSlices(p, slices.value);
        }
      }
    }

    /** One worker turn on the tile at the front of the queue. */
    method Step()
      requires queue != []
      modifies this
      ensures State() == Next(opts, env, old(State()))
    {
      var t := queue[0];
      queue := queue[1..];
      if t.z > opts.maxZoom {
        return;
      }
      total := total + 1;
      ghost var counted := State();
      var d: Option<Bytes>;
      if t in store {
        d := Some(store[t]);
        skipped := skipped + 1;
      } else {
        d := Download(t);
      }
      assert (d, State()) == Resolve(opts, env, t, counted);
      if d.None? {
        return;
      }
      var bytes := d.value;
      if |bytes| in opts.emptyTileSizes {
        return;
      }
      if !opts.skipTransparent {
        queue := Quadtree.Children(t) + queue;
        return;
      }
      var info := env.imageInfo(bytes);
      if info.None? {
        return;
      }
      if MosaicApplies(opts, info.value, t) {
        var completed := DownloadMosaic(t);
        if !completed {
          return;
        }
      }
      UnshiftKept(Quadtree.Children(t), info.value.quartals);
    }

    /** The run: the start tile is pushed and turns are taken until the queue is empty. */
    method Run(start: Tile)
      modifies this
      ensures State() == Drain(opts, env, old(State()).(queue := old(queue) + [start]))
    {
      queue := queue + [start];
      ghost var first := State();
      while queue != []
        invariant Drain(opts, env, State()) == Drain(opts, env, first)
        decreases QueueWeight(opts.maxZoom, queue)
      {
        NextDecreases(opts, env, State());
        Step();
      }
    }
  }
}
