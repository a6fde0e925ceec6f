/**
 Where the Stream-K schedule cuts a native tile.  `grid` workers share `tiles` tiles of `blocks` work
 units each; a worker's boundary is rounded down to a multiple of eight within its tile.
 */
module StreamK {
  import opened Numbers

  datatype Work = Work(tiles: nat, blocks: nat, grid: nat) {
    predicate Defined() {
      blocks > 0 && grid > 0 && tiles > 0
    }

    /** Few enough workers that no two interior boundaries share a tile (see `LookupIsExact`). */
    predicate Sparse() {
      Defined() && grid <= tiles + 1
    }

    /** At least one tile per worker. */
    predicate Valid() {
      Defined() && grid <= tiles
    }
  }

  function Boundary(w: Work, k: nat): nat
    requires w.Defined()
  {
    k * (w.tiles * w.blocks) / w.grid
  }

  lemma DropEight(r: nat)
    ensures (r - r % 8) % 8 == 0 && r < r - r % 8 + 8
  {}

  lemma RoundDown(b: nat, n: nat)
    requires n > 0
    ensures b % n % 8 <= b && (b - b % n % 8) / n == b / n && (b - b % n % 8) % n == b % n - b % n % 8
  {
    hide Mul;
    DivMod(b, n);
    DivIs(b - b % n % 8, n, b / n);
  }

  function Aligned(w: Work, k: nat): nat
    requires w.Defined()
  {
    var b := Boundary(w, k);
    RoundDown(b, w.blocks);
    b - b % w.blocks % 8
  }

  /** The first worker whose boundary is not before `tile`. */
  function Ceil(w: Work, tile: nat): nat
    requires w.Defined()
  {
    (tile * w.grid + w.tiles - 1) / w.tiles
  }

  /** The one worker whose boundary can lie in `tile`, located directly. */
  function Worker(w: Work, tile: nat): nat
    requires w.Defined()
  {
    var c := Ceil(w, tile);
    if c > 1 then c else 1
  }

  function Seam(w: Work, tile: nat): nat
    requires w.Defined()
  {
    var k := Worker(w, tile);
    var b := Aligned(w, k);
    if k < w.grid && b / w.blocks == tile then b % w.blocks else 0
  }

  /** The kernel's own arithmetic for the seam of a tile. */
  method LocateSeam(w: Work, tile: nat) returns (seam: nat)
    requires w.Defined()
    ensures seam == Seam(w, tile)
  {
    hide Boundary, Ceil;
    var worker := (tile * w.grid + w.tiles - 1) / w.tiles;
    if worker < 1 {
      worker := 1;
    }
    CeilIs(w, tile);
    var boundary := worker * (w.tiles * w.blocks) / w.grid;
    BoundaryOf(w, worker);
    RoundDown(boundary, w.blocks);
    boundary := boundary - boundary % w.blocks % 8;
    seam := if worker < w.grid && boundary / w.blocks == tile then boundary % w.blocks else 0;
  }

  lemma CeilIs(w: Work, tile: nat)
    requires w.Defined()
    ensures Ceil(w, tile) == (tile * w.grid + w.tiles - 1) / w.tiles
  {}

  lemma BoundaryOf(w: Work, k: nat)
    requires w.Defined()
    ensures Boundary(w, k) == k * (w.tiles * w.blocks) / w.grid
  {}

  /** An aligned boundary is at most seven units before the even share, a multiple of eight into the same tile. */
  lemma AlignedIs(w: Work, k: nat)
    requires w.Defined()
    ensures Aligned(w, k) <= k * (w.tiles * w.blocks) / w.grid < Aligned(w, k) + 8
    ensures Aligned(w, k) / w.blocks == k * (w.tiles * w.blocks) / w.grid / w.blocks
    ensures Aligned(w, k) % w.blocks % 8 == 0
  {
    hide Boundary;
    BoundaryOf(w, k);
    RoundDown(Boundary(w, k), w.blocks);
    DropEight(Boundary(w, k) % w.blocks);
  }

  /** The reference: scan the boundaries of workers 1 to n - 1 for the latest one inside `tile`. */
  function Scan(w: Work, tile: nat, n: nat): nat
    requires w.Defined()
  {
    if n <= 1 then 0
    else
      var b := Aligned(w, n - 1);
      var rest := Scan(w, tile, n - 1);
      if b / w.blocks == tile && b % w.blocks > rest then b % w.blocks else rest
  }

  // ---------------------------------------------------------------- which tile a boundary is in

  /** The tile that boundary `k` falls in. */
  function TileOf(w: Work, k: nat): nat
    requires w.Defined()
  {
    k * w.tiles / w.grid
  }

  /** How far into its tile boundary `k` lies, rounded down. */
  function Offset(w: Work, k: nat): nat
    requires w.Defined()
  {
    Aligned(w, k) % w.blocks
  }

  lemma TileBounds(w: Work, k: nat)
    requires w.Defined()
    ensures Mul(TileOf(w, k), w.grid) <= Mul(k, w.tiles) < Mul(TileOf(w, k), w.grid) + w.grid
  {
    DivMod(Mul(k, w.tiles), w.grid);
  }

  lemma BoundaryIs(w: Work, k: nat)
    requires w.Defined()
    ensures Boundary(w, k) == Mul(k, Mul(w.tiles, w.blocks)) / w.grid
  {}

  lemma TileIs(w: Work, k: nat)
    requires w.Defined()
    ensures TileOf(w, k) == Mul(k, w.tiles) / w.grid
  {}

  lemma BoundaryTile(w: Work, k: nat)
    requires w.Defined()
    ensures Boundary(w, k) / w.blocks == TileOf(w, k)
  {
    hide Mul, Boundary, TileOf;
    BoundaryIs(w, k);
    TileIs(w, k);
    MulGroup(k, w.tiles, w.blocks);
    DivDiv(Mul(Mul(k, w.tiles), w.blocks), w.grid, w.blocks);
    CancelDiv(Mul(k, w.tiles), w.grid, w.blocks);
  }

  /** Rounding down stays in the boundary's tile and leaves a multiple of eight. */
  lemma AlignedTile(w: Work, k: nat)
    requires w.Defined()
    ensures Aligned(w, k) / w.blocks == TileOf(w, k)
    ensures Offset(w, k) % 8 == 0 && Offset(w, k) < w.blocks
    ensures Aligned(w, k) == Mul(TileOf(w, k), w.blocks) + Offset(w, k)
    ensures Mul(TileOf(w, k), w.blocks) + Offset(w, k) <= Boundary(w, k) < Mul(TileOf(w, k), w.blocks) + Offset(w, k) + 8
  {
    hide Mul, Boundary, TileOf;
    var b := Boundary(w, k);
    BoundaryTile(w, k);
    RoundDown(b, w.blocks);
    DropEight(b % w.blocks);
    DivMod(b, w.blocks);
  }

  lemma TilesInOrder(w: Work, j: nat, k: nat)
    requires w.Defined() && j <= k
    ensures TileOf(w, j) <= TileOf(w, k)
  {
    hide Mul, TileOf;
    TileBounds(w, j);
    TileBounds(w, k);
    MulGrows(j, k, w.tiles);
    if TileOf(w, k) < TileOf(w, j) {
      MulGrows(TileOf(w, k) + 1, TileOf(w, j), w.grid);
      MulNext(TileOf(w, k), w.grid);
    }
  }

  /** With at least one tile per worker, every boundary is in a later tile than the one before. */
  lemma TilesGrow(w: Work, j: nat, k: nat)
    requires w.Valid() && j < k
    ensures TileOf(w, j) < TileOf(w, k)
  {
    hide Mul, TileOf;
    TileBounds(w, j);
    TileBounds(w, k);
    MulGrows(j + 1, k, w.tiles);
    MulNext(j, w.tiles);
    if TileOf(w, k) <= TileOf(w, j) {
      MulGrows(TileOf(w, k), TileOf(w, j), w.grid);
    }
  }

  /** With one worker more than tiles, interior boundary `k` is in tile k - 1. */
  lemma OneWorkerMore(w: Work, k: nat)
    requires w.Defined() && w.grid == w.tiles + 1 && 0 < k < w.grid
    ensures TileOf(w, k) == k - 1
  {
    hide Mul, TileOf;
    TileIs(w, k);
    MulSwap(k, w.tiles);
    MulSwap(k, w.grid);
    MulNext(w.tiles, k);
    MulNext(k - 1, w.grid);
    DivIs(Mul(k, w.tiles), w.grid, k - 1);
  }

  /** Interior boundaries of a sparse schedule lie in different tiles. */
  lemma InteriorApart(w: Work, j: nat, k: nat)
    requires w.Sparse() && 0 < j < k < w.grid
    ensures TileOf(w, j) < TileOf(w, k)
  {
    hide Mul, TileOf;
    if w.grid <= w.tiles {
      TilesGrow(w, j, k);
    } else {
      OneWorkerMore(w, j);
      OneWorkerMore(w, k);
    }
  }

  // ---------------------------------------------------------------- the worker of a tile

  lemma CeilBounds(w: Work, tile: nat)
    requires w.Defined()
    ensures Mul(tile, w.grid) <= Mul(Ceil(w, tile), w.tiles) < Mul(tile, w.grid) + w.tiles
  {
    DivMod(Mul(tile, w.grid) + w.tiles - 1, w.tiles);
  }

  /** Boundary `k` lies before `tile` exactly when `k` comes before the tile's first worker. */
  lemma CeilSplits(w: Work, tile: nat, k: nat)
    requires w.Defined()
    ensures TileOf(w, k) < tile <==> k < Ceil(w, tile)
  {
    hide Mul, TileOf, Ceil;
    var t, c := TileOf(w, k), Ceil(w, tile);
    TileBounds(w, k);
    CeilBounds(w, tile);
    MulNext(t, w.grid);
    MulNext(k, w.tiles);
    if t < tile {
      MulGrows(t + 1, tile, w.grid);
      if c <= k {
        MulGrows(c, k, w.tiles);
      }
    } else {
      MulGrows(tile, t, w.grid);
      if k < c {
        MulGrows(k + 1, c, w.tiles);
      }
    }
  }

  /** The located worker is the first whose interior boundary is in `tile`, when any is. */
  lemma WorkerIsFirst(w: Work, tile: nat, k: nat)
    requires w.Defined() && k > 0 && TileOf(w, k) == tile
    ensures 0 < Worker(w, tile) <= k && TileOf(w, Worker(w, tile)) == tile
  {
    hide TileOf, Ceil;
    CeilSplits(w, tile, k);
    CeilSplits(w, tile, Worker(w, tile));
    TilesInOrder(w, Worker(w, tile), k);
  }

  // ---------------------------------------------------------------- the seam

  /** If any interior boundary lies in `tile`, it is the located worker's and the seam is its offset. */
  lemma SeamIsOffset(w: Work, tile: nat, k: nat)
    requires w.Sparse() && 0 < k < w.grid && Aligned(w, k) / w.blocks == tile
    ensures k == Worker(w, tile) && Seam(w, tile) == Aligned(w, k) % w.blocks
  {
    hide TileOf, Worker, Aligned, Boundary;
    AlignedTile(w, k);
    WorkerIsFirst(w, tile, k);
    if Worker(w, tile) < k {
      InteriorApart(w, Worker(w, tile), k);
    }
  }

  lemma {:induction false} ScanMisses(w: Work, tile: nat, n: nat)
    requires w.Sparse() && n <= w.grid
    requires Worker(w, tile) >= n || Aligned(w, Worker(w, tile)) / w.blocks != tile
    ensures Scan(w, tile, n) == 0
  {
    hide Aligned, Worker, Seam;
    if n > 1 {
      if Aligned(w, n - 1) / w.blocks == tile {
        SeamIsOffset(w, tile, n - 1);
      }
      ScanMisses(w, tile, n - 1);
    }
  }

  lemma {:induction false} ScanHits(w: Work, tile: nat, n: nat)
    requires w.Sparse() && Worker(w, tile) < n <= w.grid && Aligned(w, Worker(w, tile)) / w.blocks == tile
    ensures Scan(w, tile, n) == Aligned(w, Worker(w, tile)) % w.blocks
  {
    WorkerPositive(w, tile);
    hide Aligned, Worker, Seam;
    var k := Worker(w, tile);
    if n - 1 == k {
      ScanMisses(w, tile, n - 1);
    } else {
      if Aligned(w, n - 1) / w.blocks == tile {
        SeamIsOffset(w, tile, n - 1);
      }
      ScanHits(w, tile, n - 1);
    }
  }

  lemma WorkerPositive(w: Work, tile: nat)
    requires w.Defined()
    ensures Worker(w, tile) > 0
  {}

  /** Locating the boundary directly finds what a scan over every worker finds. */
  lemma SeamIsScan(w: Work, tile: nat)
    requires w.Sparse()
    ensures Seam(w, tile) == Scan(w, tile, w.grid)
  {
    hide Aligned, Worker, Scan;
    var k := Worker(w, tile);
    if k < w.grid && Aligned(w, k) / w.blocks == tile {
      ScanHits(w, tile, w.grid);
    } else {
      ScanMisses(w, tile, w.grid);
    }
  }

  // ---------------------------------------------------------------- crowded schedules

  lemma DivAtLeast(n: nat, d: nat, m: nat)
    requires d > 0 && Mul(m, d) <= n
    ensures m <= n / d
  {
    hide Mul;
    DivMod(n, d);
    MulNext(n / d, d);
    if n / d < m {
      MulGrows(n / d + 1, m, d);
    }
  }

  lemma DivAdds(a: nat, b: nat, d: nat)
    requires d > 0
    ensures a / d + b / d <= (a + b) / d <= a / d + b / d + 1
  {
    hide Mul;
    DivMod(a, d);
    DivMod(b, d);
    MulAdd(a / d, b / d, d);
    MulNext(a / d + b / d, d);
    if a % d + b % d < d {
      DivIs(a + b, d, a / d + b / d);
    } else {
      DivIs(a + b, d, a / d + b / d + 1);
    }
  }

  /** Boundaries are a step of the first boundary, or one unit more, apart. */
  lemma BoundaryStep(w: Work, k: nat)
    requires w.Defined()
    ensures Boundary(w, k) + Boundary(w, 1) <= Boundary(w, k + 1) <= Boundary(w, k) + Boundary(w, 1) + 1
  {
    hide Mul, Boundary;
    var total := Mul(w.tiles, w.blocks);
    BoundaryIs(w, k);
    BoundaryIs(w, k + 1);
    BoundaryIs(w, 1);
    MulAdd(k, 1, total);
    DivAdds(Mul(k, total), Mul(1, total), w.grid);
  }

  lemma {:induction false} BoundaryOrder(w: Work, j: nat, k: nat)
    requires w.Defined() && j <= k
    ensures Boundary(w, j) <= Boundary(w, k)
    decreases k - j
  {
    hide Boundary;
    if j < k {
      BoundaryStep(w, k - 1);
      BoundaryOrder(w, j, k - 1);
    }
  }

  /** The scan sees every interior boundary of the tile. */
  lemma {:induction false} ScanSees(w: Work, tile: nat, k: nat, n: nat)
    requires w.Defined() && 0 < k < n && TileOf(w, k) == tile
    ensures Scan(w, tile, n) >= Offset(w, k)
    decreases n
  {
    hide Aligned, TileOf;
    if n - 1 == k {
      AlignedTile(w, k);
    } else {
      ScanSees(w, tile, k, n - 1);
    }
  }

  /** Two interior boundaries of one tile at different offsets: the lookup finds the wrong one. */
  lemma TwoCutsDiffer(w: Work, j: nat, k: nat)
    requires w.Defined() && 0 < j < k < w.grid && TileOf(w, j) == TileOf(w, k) && Offset(w, j) < Offset(w, k)
    ensures Seam(w, TileOf(w, k)) < Scan(w, TileOf(w, k), w.grid)
  {
    hide TileOf, Worker, Aligned, Boundary, Mul, Scan;
    var tile := TileOf(w, k);
    var f := Worker(w, tile);
    WorkerIsFirst(w, tile, j);
    AlignedTile(w, f);
    AlignedTile(w, j);
    BoundaryOrder(w, f, j);
    EightsInOrder(Offset(w, f), Offset(w, j), Boundary(w, j) - Boundary(w, f));
    ScanSees(w, tile, k, w.grid);
  }

  lemma EightsInOrder(a: nat, b: nat, gap: nat)
    requires a % 8 == 0 && b % 8 == 0 && a < b + 8
    ensures a <= b
  {}

  /** More than one worker beyond the tiles puts two consecutive interior boundaries in one tile. */
  lemma {:induction false} Pigeonhole(w: Work, n: nat) returns (k: nat)
    requires w.Defined() && 0 < n && TileOf(w, n) + 1 < n
    ensures 0 < k < n && TileOf(w, k) == TileOf(w, k + 1)
    decreases n
  {
    hide TileOf;
    TilesInOrder(w, n - 1, n);
    if TileOf(w, n - 1) == TileOf(w, n) {
      k := n - 1;
    } else {
      k := Pigeonhole(w, n - 1);
    }
  }

  lemma InteriorTile(w: Work, k: nat)
    requires w.Defined() && k < w.grid
    ensures TileOf(w, k) < w.tiles
  {
    hide Mul, TileOf;
    TileBounds(w, k);
    MulGrows(k, w.grid, w.tiles);
    MulSwap(w.grid, w.tiles);
    if w.tiles <= TileOf(w, k) {
      MulGrows(w.tiles, TileOf(w, k), w.grid);
    }
  }

  /** Wide steps: consecutive boundaries of one tile are at least eight units apart. */
  lemma WideStepsDiffer(w: Work) returns (tile: nat)
    requires w.Defined() && w.grid > w.tiles + 1 && Boundary(w, 1) >= 8
    ensures tile < w.tiles && Seam(w, tile) != Scan(w, tile, w.grid)
  {
    hide Mul, TileOf, Boundary, Aligned, Scan, Seam;
    InteriorTile(w, w.grid - 1);
    var k := Pigeonhole(w, w.grid - 1);
    AlignedTile(w, k);
    AlignedTile(w, k + 1);
    BoundaryStep(w, k);
    InteriorTile(w, k + 1);
    TwoCutsDiffer(w, k, k + 1);
    tile := TileOf(w, k + 1);
  }

  /** The last worker whose boundary is in the first tile. */
  lemma LastInFirstTile(w: Work) returns (k: nat)
    requires w.Defined() && w.grid > w.tiles
    ensures 0 < k < w.grid && TileOf(w, k) == 0 && TileOf(w, k + 1) > 0
  {
    hide Mul;
    k := (w.grid - 1) / w.tiles;
    DivMod(w.grid - 1, w.tiles);
    MulNext(k, w.tiles);
    MulNext(0, w.tiles);
    MulNext(0, w.grid);
    TileIs(w, k);
    TileIs(w, k + 1);
    DivIs(Mul(k, w.tiles), w.grid, 0);
    DivAtLeast(Mul(k + 1, w.tiles), w.grid, 1);
    if k >= w.grid {
      MulGrows(w.grid, k, w.tiles);
      MulGrows(1, w.tiles, w.grid);
      MulSwap(w.tiles, w.grid);
    }
    if k == 0 {
      assert false;
    }
  }

  /** Narrow steps: the first tile's first boundary rounds to its start and its last one does not. */
  lemma NarrowStepsDiffer(w: Work)
    requires w.Defined() && w.grid > w.tiles && Boundary(w, 1) < 8 && w.blocks >= 16
    ensures Seam(w, 0) != Scan(w, 0, w.grid)
  {
    hide Mul, TileOf, Boundary, Aligned, Scan, Seam;
    var k := LastInFirstTile(w);
    TilesInOrder(w, 1, k);
    AlignedTile(w, 1);
    AlignedTile(w, k);
    AlignedTile(w, k + 1);
    MulNext(0, w.blocks);
    MulGrows(1, TileOf(w, k + 1), w.blocks);
    BoundaryStep(w, k);
    TwoCutsDiffer(w, 1, k);
  }

  lemma {:induction false} ScanOfEight(w: Work, tile: nat, n: nat)
    requires w.Defined() && w.blocks == 8
    ensures Scan(w, tile, n) == 0
  {
    hide Aligned, TileOf, Boundary;
    if n > 1 {
      AlignedTile(w, n - 1);
      ScanOfEight(w, tile, n - 1);
    }
  }

  lemma SeamOfEight(w: Work, tile: nat)
    requires w.Defined() && w.blocks == 8
    ensures Seam(w, tile) == 0
  {
    hide Aligned, TileOf, Boundary, Worker;
    AlignedTile(w, Worker(w, tile));
  }

  /**
   The exact condition: the direct lookup and the scan over every worker agree on every tile if and only if
   there is at most one worker more than tiles (or tiles of eight blocks, which no boundary cuts).
   */
  lemma LookupIsExact(w: Work)
    requires w.Defined() && w.blocks % 8 == 0
    ensures (forall tile: nat :: tile < w.tiles ==> Seam(w, tile) == Scan(w, tile, w.grid))
      <==> w.grid <= w.tiles + 1 || w.blocks == 8
  {
    hide Seam, Scan, Boundary, Aligned, TileOf;
    if w.blocks == 8 {
      forall tile: nat | tile < w.tiles ensures Seam(w, tile) == Scan(w, tile, w.grid) {
        SeamOfEight(w, tile);
        ScanOfEight(w, tile, w.grid);
      }
    } else if w.grid <= w.tiles + 1 {
      forall tile: nat | tile < w.tiles ensures Seam(w, tile) == Scan(w, tile, w.grid) {
        SeamIsScan(w, tile);
      }
    } else if Boundary(w, 1) >= 8 {
      var tile := WideStepsDiffer(w);
    } else {
      NarrowStepsDiffer(w);
    }
  }

  lemma {:induction false} ScanPast(w: Work, tile: nat, m: nat, n: nat)
    requires w.Defined() && 1 <= m <= n && TileOf(w, m) > tile
    ensures Scan(w, tile, n) == Scan(w, tile, m)
    decreases n
  {
    hide Aligned, TileOf;
    if m < n {
      TilesInOrder(w, m, n - 1);
      AlignedTile(w, n - 1);
      ScanPast(w, tile, m, n - 1);
    }
  }

  lemma FirstBoundaries(w: Work)
    requires w == Work(20, 320, 30)
    ensures Aligned(w, 1) == 208 && Aligned(w, 2) == 424 && Aligned(w, 3) == 640 && Aligned(w, 4) == 848
    ensures TileOf(w, 5) == 3 && Worker(w, 2) == 3
  {
    hide Aligned;
    FirstBoundary(w, 1, 213);
    FirstBoundary(w, 2, 426);
    FirstBoundary(w, 3, 640);
    FirstBoundary(w, 4, 853);
  }

  lemma FirstBoundary(w: Work, k: nat, b: nat)
    requires w == Work(20, 320, 30) && k <= 4 && b == k * 6400 / 30
    ensures Aligned(w, k) == b - b % 320 % 8
  {
    assert Mul(k, Mul(20, 320)) == k * 6400;
  }

  lemma CrowdedScan(w: Work)
    requires w == Work(20, 320, 30)
    ensures Scan(w, 2, w.grid) == 208
  {
    hide Aligned, TileOf, Worker, Scan;
    FirstBoundaries(w);
    ScanPast(w, 2, 5, 30);
    ScanNext(w, 2, 0);
    ScanNext(w, 2, 1);
    ScanNext(w, 2, 2);
    ScanNext(w, 2, 3);
    ScanNext(w, 2, 4);
  }

  /** The contraction shape with up to 128 tokens, on 30 workers: tile 2 is cut at 208 and the lookup says uncut. */
  lemma CrowdedGridDiffers(w: Work)
    requires w == Work(2560 / 128, 320, 30)
    ensures Seam(w, 2) == 0 && Scan(w, 2, w.grid) == 208
  {
    hide Aligned, TileOf, Worker, Scan;
    FirstBoundaries(w);
    CrowdedScan(w);
  }

  lemma ScanNext(w: Work, tile: nat, k: nat)
    requires w.Defined()
    ensures Scan(w, tile, k + 1) == if k == 0 then 0
      else if Aligned(w, k) / w.blocks == tile && Aligned(w, k) % w.blocks > Scan(w, tile, k) then Aligned(w, k) % w.blocks
      else Scan(w, tile, k)
  {
    hide Aligned;
  }

  lemma WholeSteps(w: Work, k: nat, per: nat)
    requires w.Defined() && w.tiles == Mul(per, w.grid)
    ensures TileOf(w, k) == Mul(k, per) && Boundary(w, k) == Mul(TileOf(w, k), w.blocks)
  {
    hide Mul, TileOf, Boundary;
    TileIs(w, k);
    BoundaryIs(w, k);
    MulGroup(k, per, w.grid);
    MulGroup(k, w.tiles, w.blocks);
    DivIs(Mul(k, w.tiles), w.grid, Mul(k, per));
    MulSwap(w.grid, w.blocks);
    MulGroup(Mul(k, per), w.grid, w.blocks);
    MulGroup(Mul(k, per), w.blocks, w.grid);
    DivIs(Mul(k, Mul(w.tiles, w.blocks)), w.grid, Mul(Mul(k, per), w.blocks));
  }

  /** When the workers divide the tiles evenly, no tile is cut. */
  lemma EvenGridHasNoSeam(w: Work, tile: nat)
    requires w.Defined() && w.tiles % w.grid == 0
    ensures Seam(w, tile) == 0
  {
    hide Mul, TileOf, Boundary, Aligned, Worker;
    var k := Worker(w, tile);
    DivMod(w.tiles, w.grid);
    WholeSteps(w, k, w.tiles / w.grid);
    AlignedTile(w, k);
  }

  // ---------------------------------------------------------------- the partition

  lemma Ends(w: Work)
    requires w.Defined()
    ensures Aligned(w, 0) == 0 && TileOf(w, 0) == 0
    ensures Aligned(w, w.grid) == Mul(w.tiles, w.blocks) && TileOf(w, w.grid) == w.tiles
  {
    hide Mul, Aligned, Boundary, TileOf;
    MulNext(0, w.tiles);
    MulNext(0, Mul(w.tiles, w.blocks));
    MulNext(0, w.blocks);
    MulNext(0, w.grid);
    TileIs(w, 0);
    TileIs(w, w.grid);
    BoundaryIs(w, 0);
    BoundaryIs(w, w.grid);
    DivIs(0, w.grid, 0);
    MulSwap(w.grid, w.tiles);
    MulSwap(w.grid, Mul(w.tiles, w.blocks));
    DivIs(Mul(w.grid, w.tiles), w.grid, w.tiles);
    DivIs(Mul(w.grid, Mul(w.tiles, w.blocks)), w.grid, Mul(w.tiles, w.blocks));
    AlignedTile(w, 0);
    AlignedTile(w, w.grid);
  }

  /** Worker `k` runs the units from its aligned boundary up to the next one. */
  predicate Owns(w: Work, k: nat, unit: nat)
    requires w.Defined()
  {
    k < w.grid && Aligned(w, k) <= unit < Aligned(w, k + 1)
  }

  lemma AlignedGrow(w: Work, j: nat, k: nat)
    requires w.Valid() && j < k
    ensures Aligned(w, j) < Mul(TileOf(w, k), w.blocks) <= Aligned(w, k)
  {
    hide Mul, Aligned, Boundary, TileOf;
    TilesGrow(w, j, k);
    AlignedTile(w, j);
    AlignedTile(w, k);
    MulGrows(TileOf(w, j) + 1, TileOf(w, k), w.blocks);
    MulNext(TileOf(w, j), w.blocks);
  }

  /** Rounding down inside a tile keeps the order of any two boundaries. */
  lemma RoundingKeepsOrder(b: nat, c: nat, n: nat)
    requires n > 0 && b <= c
    ensures b - b % n % 8 <= c - c % n % 8
  {
    hide Mul;
    DivMod(b, n);
    DivMod(c, n);
    RoundDown(c, n);
    if b / n == c / n {
      EightKeepsOrder(b % n, c % n);
    } else {
      QuotientGrows(b, c, n);
      MulGrows(b / n + 1, c / n, n);
      MulNext(b / n, n);
    }
  }

  lemma EightKeepsOrder(r: nat, s: nat)
    requires r <= s
    ensures r - r % 8 <= s - s % 8
  {}

  lemma QuotientGrows(b: nat, c: nat, n: nat)
    requires n > 0 && b <= c
    ensures b / n <= c / n
  {
    hide Mul;
    DivMod(b, n);
    DivMod(c, n);
    if b / n > c / n {
      MulGrows(c / n + 1, b / n, n);
      MulNext(c / n, n);
    }
  }

  /** On every grid, crowded ones too, no boundary lies before an earlier worker's. */
  lemma AlignedInOrder(w: Work, j: nat, k: nat)
    requires w.Defined() && j <= k
    ensures Aligned(w, j) <= Aligned(w, k)
  {
    hide Mul, Boundary;
    BoundaryIs(w, j);
    BoundaryIs(w, k);
    MulGrows(j, k, Mul(w.tiles, w.blocks));
    QuotientGrows(Mul(j, Mul(w.tiles, w.blocks)), Mul(k, Mul(w.tiles, w.blocks)), w.grid);
    RoundingKeepsOrder(Boundary(w, j), Boundary(w, k), w.blocks);
  }

  lemma {:induction false} FindOwner(w: Work, unit: nat, n: nat) returns (k: nat)
    requires w.Defined() && n <= w.grid && unit < Aligned(w, n)
    ensures k < n && Aligned(w, k) <= unit < Aligned(w, k + 1)
    decreases n
  {
    hide Aligned;
    Ends(w);
    if Aligned(w, n - 1) <= unit {
      k := n - 1;
    } else {
      k := FindOwner(w, unit, n - 1);
    }
  }

  /** Every unit of work has exactly one worker, however many workers there are. */
  lemma OneOwner(w: Work, unit: nat)
    requires w.Defined() && unit < Mul(w.tiles, w.blocks)
    ensures exists k :: Owns(w, k, unit) && forall j :: Owns(w, j, unit) ==> j == k
  {
    hide Aligned, Mul, TileOf;
    Ends(w);
    var k := FindOwner(w, unit, w.grid);
    assert Owns(w, k, unit);
    forall j | Owns(w, j, unit) ensures j == k {
      if j < k {
        AlignedInOrder(w, j + 1, k);
      } else if k < j {
        AlignedInOrder(w, k + 1, j);
      }
    }
  }

  /** The worker of a tile that is not cut. */
  function SoleWorker(w: Work, tile: nat): nat
    requires w.Defined()
  {
    var c := Ceil(w, tile);
    if TileOf(w, c) == tile || c == 0 then c else c - 1
  }

  lemma SoleWorkerStarts(w: Work, tile: nat)
    requires w.Valid() && tile < w.tiles && Seam(w, tile) == 0
    ensures SoleWorker(w, tile) < w.grid && Aligned(w, SoleWorker(w, tile)) <= Mul(tile, w.blocks)
  {
    hide Boundary, Aligned, TileOf, Ceil, Mul;
    var c := Ceil(w, tile);
    Ends(w);
    MulNext(0, w.blocks);
    CeilSplits(w, tile, c);
    CeilSplits(w, tile, w.grid);
    if TileOf(w, c) == tile {
      AlignedTile(w, c);
      if c > 0 {
        SeamIsOffset(w, tile, c);
      }
    } else if c > 0 {
      CeilSplits(w, tile, c - 1);
      AlignedTile(w, c - 1);
      MulGrows(TileOf(w, c - 1) + 1, tile, w.blocks);
      MulNext(TileOf(w, c - 1), w.blocks);
    }
  }

  lemma StartsLater(w: Work, tile: nat, k: nat)
    requires w.Defined() && tile < TileOf(w, k)
    ensures Mul(tile, w.blocks) + w.blocks <= Aligned(w, k)
  {
    hide Boundary, Aligned, TileOf, Mul;
    AlignedTile(w, k);
    MulGrows(tile + 1, TileOf(w, k), w.blocks);
    MulNext(tile, w.blocks);
  }

  lemma SoleWorkerStops(w: Work, tile: nat)
    requires w.Valid() && tile < w.tiles && Seam(w, tile) == 0
    ensures Mul(tile, w.blocks) + w.blocks <= Aligned(w, SoleWorker(w, tile) + 1)
  {
    hide Boundary, Aligned, TileOf, Ceil, Mul;
    var c := Ceil(w, tile);
    Ends(w);
    CeilSplits(w, tile, c);
    if TileOf(w, c) == tile {
      TilesGrow(w, c, c + 1);
      StartsLater(w, tile, c + 1);
    } else {
      StartsLater(w, tile, c);
    }
  }

  /** The i-th unit of a tile. */
  function Unit(w: Work, tile: nat, i: nat): nat {
    Mul(tile, w.blocks) + i
  }

  /** Of one tile, the units before the seam are one worker's and the units from it on are the next's. */
  lemma CutTileOwners(w: Work, tile: nat, i: nat)
    requires w.Valid() && tile < w.tiles && i < w.blocks && Seam(w, tile) != 0
    ensures Owns(w, if i < Seam(w, tile) then Worker(w, tile) - 1 else Worker(w, tile), Unit(w, tile, i))
  {
    WorkerPositive(w, tile);
    hide Boundary, Aligned, TileOf, Worker, Mul;
    var k := Worker(w, tile);
    AlignedTile(w, k);
    AlignedGrow(w, k - 1, k);
    TilesGrow(w, k, k + 1);
    StartsLater(w, tile, k + 1);
  }

  /** A tile that is not cut is one worker's. */
  lemma WholeTileOwner(w: Work, tile: nat, i: nat)
    requires w.Valid() && tile < w.tiles && i < w.blocks && Seam(w, tile) == 0
    ensures Owns(w, SoleWorker(w, tile), Unit(w, tile, i))
  {
    hide Aligned, SoleWorker, Seam, Mul;
    SoleWorkerStarts(w, tile);
    SoleWorkerStops(w, tile);
  }
}
