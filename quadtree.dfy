/**
 * Quadtree arithmetic on tiles: the four children of a tile, the inverse
 * mapping back to the parent, and the mosaic planner that walks down the
 * first-child path while a doubled pixel width still fits the budget.
 */
module Quadtree {
  import opened Types

  function Pow2(n: nat): (r: nat)
    ensures r >= 1
  {
    if n == 0 then 1 else 2 * Pow2(n - 1)
  }

  /** Both coordinates lie on the `2^z` by `2^z` grid of the tile's zoom. */
  predicate InRange(t: Tile) {
    0 <= t.x < Pow2(t.z) && 0 <= t.y < Pow2(t.z)
  }

  /**
   * The children of a tile in the fixed order NW, NE, SW, SE: child `i`
   * is offset by `i % 2` columns and `i / 2` rows from twice the parent.
   */
  function Children(t: Tile): (r: seq<Tile>)
    ensures |r| == 4
    ensures forall i | 0 <= i < 4 :: r[i] == Tile(2 * t.x + i % 2, 2 * t.y + i / 2, t.z + 1)
  {
    var xx, yy, zz := t.x * 2, t.y * 2, t.z + 1;
    [Tile(xx, yy, zz), Tile(xx + 1, yy, zz), Tile(xx, yy + 1, zz), Tile(xx + 1, yy + 1, zz)]
  }

  /** The tile one zoom level up that covers `c`. */
  function Parent(c: Tile): Tile
    requires c.z >= 1
  {
    Tile(c.x / 2, c.y / 2, c.z - 1)
  }

  /** The quadrant (0 = NW, 1 = NE, 2 = SW, 3 = SE) that `c` occupies in its parent. */
  function ChildIndex(c: Tile): nat {
    c.x % 2 + 2 * (c.y % 2)
  }

  /** Every child names its parent and its own quadrant. */
  lemma ChildrenInverse(t: Tile, i: nat)
    requires i < 4
    ensures Parent(Children(t)[i]) == t
    ensures ChildIndex(Children(t)[i]) == i
  {
  }

  /** Conversely, every tile below zoom 0 is a child of its parent, at its own quadrant. */
  lemma ChildOfParent(c: Tile)
    requires c.z >= 1
    ensures Children(Parent(c))[ChildIndex(c)] == c
  {
  }

  /** The four children are pairwise distinct. */
  lemma ChildrenDistinct(t: Tile)
    ensures forall i, j | 0 <= i < j < 4 :: Children(t)[i] != Children(t)[j]
  {
    forall i, j | 0 <= i < j < 4 ensures Children(t)[i] != Children(t)[j] {
      ChildrenInverse(t, i);
      ChildrenInverse(t, j);
    }
  }

  /** The children of a tile on its zoom grid lie on the grid one level down. */
  lemma ChildrenInRange(t: Tile)
    requires InRange(t)
    ensures forall i | 0 <= i < 4 :: InRange(Children(t)[i])
  {
    assert Pow2(t.z + 1) == 2 * Pow2(t.z);
  }

  /** The tile `k` levels above `c`. */
  function Ancestor(c: Tile, k: nat): Tile
    requires k <= c.z
  {
    Tile(c.x / Pow2(k), c.y / Pow2(k), c.z - k)
  }

  /** `d` lies in the subtree rooted at `t` (including `t` itself). */
  predicate IsDescendant(d: Tile, t: Tile) {
    d.z >= t.z && Ancestor(d, d.z - t.z) == t
  }

  /** The tile reached from `t` by taking the first child (NW) `k` times. */
  function FirstDescendant(t: Tile, k: nat): Tile
    decreases k
  {
    if k == 0 then t else FirstDescendant(Children(t)[0], k - 1)
  }

  /** The result of the mosaic planner: a tile and the pixel width of one request covering it. */
  datatype MosaicPlan = MosaicPlan(z: nat, x: int, y: int, width: int)

  /**
   * The mosaic plan from (z, x, y) at pixel width `width`: while the zoom is
   * below `maxZoom` and the width below `maxWidth`, step to the first child
   * and double the width.
   */
  function Plan(z: nat, x: int, y: int, maxZoom: int, maxWidth: int, width: int): (p: MosaicPlan)
    decreases maxZoom - z
    ensures z <= p.z
    ensures z <= maxZoom ==> p.z <= maxZoom
    ensures p.width == width * Pow2(p.z - z)
    ensures p.x == x * Pow2(p.z - z) && p.y == y * Pow2(p.z - z)
    ensures p.z >= maxZoom || p.width >= maxWidth
    ensures p.z > z ==> p.width < 2 * maxWidth
  {
    if z < maxZoom && width < maxWidth then
      var c := Children(Tile(x, y, z))[0];
      var p := Plan(c.z, c.x, c.y, maxZoom, maxWidth, width * 2);
      ScaleStep(width, Pow2(p.z - c.z));
      ScaleStep(x, Pow2(p.z - c.z));
      ScaleStep(y, Pow2(p.z - c.z));
      assert Pow2(p.z - z) == 2 * Pow2(p.z - c.z);
      p
    else
      MosaicPlan(z, x, y, width)
  }

  lemma ScaleStep(a: int, b: int)
    ensures (a * 2) * b == a * (2 * b)
  {
  }

  /** A start at or past the zoom limit, or already at the width limit, is returned as it is. */
  lemma PlanAtLimit(z: nat, x: int, y: int, maxZoom: int, maxWidth: int, width: int)
    requires z >= maxZoom || width >= maxWidth
    ensures Plan(z, x, y, maxZoom, maxWidth, width) == MosaicPlan(z, x, y, width)
  {
  }

  /**
   * A budget that is the start width times a power of two is never
   * exceeded: the plan's width is at most `maxWidth`.
   */
  lemma {:induction false} PlanWithinBudget(z: nat, x: int, y: int, maxZoom: int, width: int, k: nat)
    requires width > 0
    decreases k
    ensures Plan(z, x, y, maxZoom, width * Pow2(k), width).width <= width * Pow2(k)
  {
    var maxWidth := width * Pow2(k);
    if z < maxZoom && width < maxWidth {
      assert k != 0;
      var c := Children(Tile(x, y, z))[0];
      assert maxWidth == (width * 2) * Pow2(k - 1);
      PlanWithinBudget(c.z, c.x, c.y, maxZoom, width * 2, k - 1);
    }
  }

  /**
   * Any other budget can be overshot: with 512-pixel tiles and a 1500-pixel
   * budget the loop doubles past the budget to a 2048-pixel request.
   */
  lemma PlanOvershoot()
    ensures Plan(0, 0, 0, 2, 1500, 512) == MosaicPlan(2, 0, 0, 2048)
  {
    assert Plan(2, 0, 0, 2, 1500, 2048) == MosaicPlan(2, 0, 0, 2048);
    assert Plan(1, 0, 0, 2, 1500, 1024) == MosaicPlan(2, 0, 0, 2048);
  }

  /** The planned tile is reached from the start by first-child steps only. */
  lemma {:induction false} PlanOnFirstChildPath(z: nat, x: int, y: int, maxZoom: int, maxWidth: int, width: int)
    decreases maxZoom - z
    ensures var p := Plan(z, x, y, maxZoom, maxWidth, width);
      Tile(p.x, p.y, p.z) == FirstDescendant(Tile(x, y, z), p.z - z)
  {
    if z < maxZoom && width < maxWidth {
      var c := Children(Tile(x, y, z))[0];
      PlanOnFirstChildPath(c.z, c.x, c.y, maxZoom, maxWidth, width * 2);
    }
  }

  /**
   * The loop of the mosaic planner: starting from the tile and one tile
   * width, descend to child 0 and double the width until the zoom or the
   * width limit is reached.
   */
  method MaxMosaicWidth(z: nat, x: int, y: int, maxZoom: int, maxWidth: int, tileSize: int)
    returns (p: MosaicPlan)
    ensures p == Plan(z, x, y, maxZoom, maxWidth, tileSize)
  {
    var cz, cx, cy, width := z, x, y, tileSize;
    while cz < maxZoom && width < maxWidth
      invariant Plan(cz, cx, cy, maxZoom, maxWidth, width) == Plan(z, x, y, maxZoom, maxWidth, tileSize)
      decreases maxZoom - cz
    {
      var c := Children(Tile(cx, cy, cz))[0];
      cz, cx, cy := c.z, c.x, c.y;
      width := width * 2;
    }
    p := MosaicPlan(cz, cx, cy, width);
  }

  /** `a` lies in the block of `p` values starting at `q * p` exactly when `a / p` is `q`. */
  lemma DivBlock(a: int, q: int, p: int)
    requires p > 0
    ensures (q * p <= a < q * p + p) <==> a / p == q
  {
    var d, r := a / p, a % p;
    assert a == d * p + r && 0 <= r < p;
    if d < q {
      MulMonotone(d + 1, q, p);
    } else if d > q {
      MulMonotone(q + 1, d, p);
    }
  }

  lemma MulMonotone(a: int, b: int, p: int)
    requires a <= b && p > 0
    ensures a * p <= b * p
  {
  }

  /** Whether `c` is one of the `n` by `n` tiles a mosaic slice grid writes from the plan's corner. */
  predicate InSliceGrid(p: MosaicPlan, n: int, c: Tile) {
    c.z == p.z && p.x <= c.x < p.x + n && p.y <= c.y < p.y + n
  }

  /**
   * A mosaic planned from `t` with tile size `tileSize` is `2^(mz - z)`
   * tiles wide, and its slice grid at the planned zoom is exactly the set of
   * descendants of `t` at that zoom.
   */
  lemma MosaicGridIsSubtree(t: Tile, maxZoom: int, maxWidth: int, tileSize: int)
    requires tileSize > 0
    ensures var p := Plan(t.z, t.x, t.y, maxZoom, maxWidth, tileSize);
      && p.width % tileSize == 0
      && p.width / tileSize == Pow2(p.z - t.z)
      && forall c: Tile :: InSliceGrid(p, p.width / tileSize, c) <==> (c.z == p.z && IsDescendant(c, t))
  {
    var p := Plan(t.z, t.x, t.y, maxZoom, maxWidth, tileSize);
    var n := Pow2(p.z - t.z);
    WidthInTiles(p.width, tileSize, n);
    GridIsSubtree(p, t, n);
  }

  lemma WidthInTiles(width: int, tileSize: int, n: int)
    requires tileSize > 0 && width == tileSize * n
    ensures width % tileSize == 0 && width / tileSize == n
  {
    assert width == n * tileSize;
    DivBlock(width, n, tileSize);
  }

  lemma GridIsSubtree(p: MosaicPlan, t: Tile, n: nat)
    requires p.z >= t.z && n == Pow2(p.z - t.z)
    requires p.x == t.x * n && p.y == t.y * n
    ensures forall c: Tile :: InSliceGrid(p, n, c) <==> (c.z == p.z && IsDescendant(c, t))
  {
    forall c: Tile
      ensures InSliceGrid(p, n, c) <==> (c.z == p.z && IsDescendant(c, t))
    {
      DivBlock(c.x, t.x, n);
      DivBlock(c.y, t.y, n);
    }
  }
}
