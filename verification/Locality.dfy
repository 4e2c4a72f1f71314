/**
 What must be known of an engine so that tiling cannot be seen, and how much can be seen otherwise.

 An engine is local with radii (left, right) when every output sample depends only on the source
 samples at most `left` columns and rows before and at most `right` columns and rows after its own
 source pixel, where coordinates outside the image mean the nearest pixel inside (edge clamping),
 and on its place inside the s x s output block of that pixel.
 */
module Locality {
  import opened Wrappers
  import opened Arith
  import opened Pixels
  import opened Tiling
  import opened TilingProcessor
  import opened Assembly

  predicate SameEdge(a: Image, x: int, y: int, b: Image, x': int, y': int, dx: int, dy: int, c: int) {
    EdgePx(a, x + dx, y + dy, c) == EdgePx(b, x' + dx, y' + dy, c)
  }

  /** a around (x, y) looks like b around (x', y'). */
  ghost predicate SameWindow(a: Image, x: int, y: int, b: Image, x': int, y': int, left: nat, right: nat) {
    forall dx, dy, c :: 0 - left <= dx <= right && 0 - left <= dy <= right && 0 <= c < 3 ==>
      SameEdge(a, x, y, b, x', y', dx, dy, c)
  }

  predicate SameSample(s: nat, a: Image, x: nat, y: nat, b: Image, x': nat, y': nat, i: int, j: int, c: int) {
    Px(a, Times(s, x) + i, Times(s, y) + j, c) == Px(b, Times(s, x') + i, Times(s, y') + j, c)
  }

  /** The output block of source pixel (x, y) in a is that of (x', y') in b. */
  ghost predicate SameBlock(s: nat, a: Image, x: nat, y: nat, b: Image, x': nat, y': nat) {
    forall i, j, c :: 0 <= i < s && 0 <= j < s && 0 <= c < 3 ==> SameSample(s, a, x, y, b, x', y', i, j, c)
  }

  ghost predicate Local(engine: Engine, s: nat, left: nat, right: nat) {
    forall a: Image, x: nat, y: nat, b: Image, x': nat, y': nat ::
      && a.Valid() && b.Valid() && engine(a).Some? && engine(b).Some?
      && x < a.width && y < a.height && x' < b.width && y' < b.height
      && SameWindow(a, x, y, b, x', y', left, right)
      ==> SameBlock(s, engine(a).value, x, y, engine(b).value, x', y')
  }

  // ---- Windows inside a tile ----

  /** Where the tile that contributes coordinate x ends before the axis does. */
  function Seam(t: nat, cfg: TilingConfig): nat
    requires cfg.Valid()
  {
    Begin(t + 1, cfg)
  }

  /** x is one of the `right` coordinates before a seam between two tiles. */
  ghost predicate NearSeam(x: int, n: nat, cfg: TilingConfig, right: nat)
    requires cfg.Valid()
  {
    exists t: nat :: Seam(t, cfg) - right <= x < Seam(t, cfg) < n
  }

  /** The seams, in the terms of the program. */
  lemma SeamIsProduct(t: nat, cfg: TilingConfig)
    requires cfg.Valid()
    ensures Seam(t, cfg) == (t + 1) * (cfg.tileSize - cfg.overlap) + cfg.overlap
  {
    ComputedPosition(cfg, t + 1);
  }

  /** Clamping to the tile or to the whole axis makes no difference within the window. */
  lemma AxisWindow(n: nat, cfg: TilingConfig, k: nat, t: nat, x: nat, left: nat, right: nat, d: int)
    requires cfg.Valid() && Fits(n, cfg, k) && n > 0 && t < k
    requires Begin(t, cfg) <= x < End(t, n, cfg)
    requires left <= cfg.overlap && !NearSeam(x, n, cfg, right)
    requires 0 - left <= d <= right
    ensures var begin, width := TileBegin(t, cfg), End(t, n, cfg) - TileBegin(t, cfg);
            && 0 <= Clamp(x - begin + d, 0, width - 1) < width
            && begin + Clamp(x - begin + d, 0, width - 1) == Clamp(x + d, 0, n - 1)
  {
    ContributionBounds(t, n, cfg, k);
    if t < k - 1 {
      assert Seam(t, cfg) == End(t, n, cfg);
    }
  }

  /** The tile that owns an output pixel away from the seams sees the window the whole image has. */
  lemma OwnerWindow(cfg: TilingConfig, source: Image, columns: nat, rows: nat, tx: nat, ty: nat,
                    x: nat, y: nat, left: nat, right: nat)
    requires cfg.Valid() && source.width > 0 && source.height > 0
    requires Fits(source.width, cfg, columns) && Fits(source.height, cfg, rows)
    requires tx < columns && ty < rows
    requires Begin(tx, cfg) <= x < End(tx, source.width, cfg) && Begin(ty, cfg) <= y < End(ty, source.height, cfg)
    requires left <= cfg.overlap
    requires !NearSeam(x, source.width, cfg, right) && !NearSeam(y, source.height, cfg, right)
    requires HasSize(TileAt(source.width, source.height, cfg, tx, ty))
    ensures var tile := TileAt(source.width, source.height, cfg, tx, ty);
            SameWindow(Extract(source, tile), x - tile.x, y - tile.y, source, x, y, left, right)
  {
    hide Times, Px;
    var tile := TileAt(source.width, source.height, cfg, tx, ty);
    var cut, u, v := Extract(source, tile), x - tile.x, y - tile.y;
    forall dx, dy, c | 0 - left <= dx <= right && 0 - left <= dy <= right && 0 <= c < 3
      ensures SameEdge(cut, u, v, source, x, y, dx, dy, c)
    {
      AxisWindow(source.width, cfg, columns, tx, x, left, right, dx);
      AxisWindow(source.height, cfg, rows, ty, y, left, right, dy);
      PxExtract(source, tile, Clamp(u + dx, 0, tile.width - 1), Clamp(v + dy, 0, tile.height - 1), c);
    }
  }

  // ---- The seam-band theorem ----

  /** Everything the tiling theorems assume of the driver's arguments. */
  ghost predicate Tileable(engine: Engine, cfg: TilingConfig, source: Image) {
    && cfg.Valid() && ScalesBy(engine, cfg.scale)
    && source.Valid() && source.width > 0 && source.height > 0
    && Exact(source.width, cfg) && Exact(source.height, cfg)
  }

  /**
   For an engine whose radius to the left and above is at most the overlap, a tiled and a direct
   run that both succeed agree on every sample whose source column and row are not among the
   `right` ones just before a seam.
   */
  lemma SeamBand(engine: Engine, cfg: TilingConfig, source: Image, left: nat, right: nat, x: nat, y: nat, c: nat)
    requires Tileable(engine, cfg, source) && Local(engine, cfg.scale, left, right) && left <= cfg.overlap
    requires Tiled(engine, cfg, source).Some? && engine(source).Some?
    requires x < Times(cfg.scale, source.width) && y < Times(cfg.scale, source.height) && c < 3
    requires !NearSeam(Quo(cfg.scale, x), source.width, cfg, right)
    requires !NearSeam(Quo(cfg.scale, y), source.height, cfg, right)
    ensures Px(Tiled(engine, cfg, source).value, x, y, c) == Px(engine(source).value, x, y, c)
  {
    var s := cfg.scale;
    var columns, rows := TilesAlong(source.width, cfg), TilesAlong(source.height, cfg);
    TilesAlongFits(source.width, cfg);
    TilesAlongFits(source.height, cfg);
    TiledPixel(engine, cfg, source, x, y, c);
    BlockOfOwner(engine, cfg, source, columns, rows, left, right, x, y, c);
  }

  lemma BlockOfOwner(engine: Engine, cfg: TilingConfig, source: Image, columns: nat, rows: nat,
                     left: nat, right: nat, x: nat, y: nat, c: nat)
    requires Setting(engine, cfg, source, columns, rows)
    requires Local(engine, cfg.scale, left, right) && left <= cfg.overlap
    requires engine(source).Some?
    requires x < Times(cfg.scale, source.width) && y < Times(cfg.scale, source.height) && c < 3
    requires !NearSeam(Quo(cfg.scale, x), source.width, cfg, right)
    requires !NearSeam(Quo(cfg.scale, y), source.height, cfg, right)
    requires FromOwner(engine, cfg, source, x, y, c).Some?
    ensures FromOwner(engine, cfg, source, x, y, c) == Some(Px(engine(source).value, x, y, c))
  {
    hide Px, Tabulate, Times, Quo, End, Begin, Owner;
    var s := cfg.scale;
    var sx, sy := Quo(s, x), Quo(s, y);
    var tx, ty := Owner(sx, cfg), Owner(sy, cfg);
    var tile := OwnerTile(cfg, source, x, y);
    OwnerFacts(source.width, cfg, columns, x);
    OwnerFacts(source.height, cfg, rows, y);
    OwnerWindow(cfg, source, columns, rows, tx, ty, sx, sy, left, right);
    var up, direct := engine(Extract(source, tile)).value, engine(source).value;
    assert SameBlock(s, up, sx - tile.x, sy - tile.y, direct, sx, sy);
    BlockSample(s, up, direct, sx, sy, tile.x, tile.y, x, y, c);
  }

  lemma OwnerFacts(n: nat, cfg: TilingConfig, k: nat, x: nat)
    requires cfg.Valid() && Fits(n, cfg, k) && x < Times(cfg.scale, n)
    ensures var sx := Quo(cfg.scale, x);
            var t := Owner(sx, cfg);
            && sx < n && t < k
            && TileBegin(t, cfg) <= Begin(t, cfg) <= sx < End(t, n, cfg)
  {
    var sx := Quo(cfg.scale, x);
    QuoBetween(cfg.scale, x, 0, n);
    OwnerInGrid(sx, n, cfg, k);
    OwnerContributes(sx, Owner(sx, cfg), n, cfg);
  }

  lemma BlockSample(s: nat, up: Image, direct: Image, sx: nat, sy: nat, beginX: nat, beginY: nat,
                    x: nat, y: nat, c: nat)
    requires 0 < s && sx == Quo(s, x) && sy == Quo(s, y) && beginX <= sx && beginY <= sy && c < 3
    requires SameBlock(s, up, sx - beginX, sy - beginY, direct, sx, sy)
    ensures Px(up, x - Times(s, beginX), y - Times(s, beginY), c) == Px(direct, x, y, c)
  {
    hide Px, Times, Quo, Rem;
    InBlock(s, sx, beginX, x);
    InBlock(s, sy, beginY, y);
    assert SameSample(s, up, sx - beginX, sy - beginY, direct, sx, sy, Rem(s, x), Rem(s, y), c);
  }

  /** An output coordinate, relative to a tile that begins at `begin`. */
  lemma InBlock(s: nat, sx: nat, begin: nat, x: nat)
    requires 0 < s && sx == Quo(s, x) && begin <= sx
    ensures x - Times(s, begin) == Times(s, sx - begin) + Rem(s, x)
    ensures x == Times(s, sx) + Rem(s, x) && Rem(s, x) < s
  {
    Split(s, x);
    TimesAdd(s, begin, sx - begin);
  }

  /**
   For an engine that looks only left and up, at most as far as the overlap, the tile loop produces
   the very buffer that direct processing produces.
   */
  lemma TilingIsTransparent(engine: Engine, cfg: TilingConfig, source: Image, left: nat)
    requires Tileable(engine, cfg, source) && Local(engine, cfg.scale, left, 0) && left <= cfg.overlap
    requires Tiled(engine, cfg, source).Some? && engine(source).Some?
    ensures Tiled(engine, cfg, source) == engine(source)
    ensures Upscaled(engine, cfg, source) == engine(source)
  {
    var tiled, direct := Tiled(engine, cfg, source).value, engine(source).value;
    TimesMonotone(cfg.scale, 0, source.width);
    TimesMonotone(cfg.scale, 0, source.height);
    TimesMonotone(cfg.scale, 1, source.width);
    TimesMonotone(cfg.scale, 1, source.height);
    TiledPixel(engine, cfg, source, 0, 0, 0);
    forall x, y, c | 0 <= x < tiled.width && 0 <= y < tiled.height && 0 <= c < 3
      ensures Px(tiled, x, y, c) == Px(direct, x, y, c)
    {
      SeamBand(engine, cfg, source, left, 0, x, y, c);
    }
    ImageExtensionality(tiled, direct);
  }
}
