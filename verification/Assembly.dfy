/**
 What the tile loop assembles: which tile each output pixel comes from, and which pixel of it. Nothing
 is assumed here about how the engine computes a pixel, only the size of what it returns.
 */
module Assembly {
  import opened Wrappers
  import opened Arith
  import opened Bytes
  import opened Pixels
  import opened Tiling
  import opened TilingProcessor

  /** The scale contract: a w x h image becomes an (s * w) x (s * h) one. */
  ghost predicate ScalesBy(engine: Engine, s: nat) {
    forall img: Image :: img.Valid() && engine(img).Some? ==>
      && engine(img).value.Valid()
      && engine(img).value.width == Times(s, img.width)
      && engine(img).value.height == Times(s, img.height)
  }

  /** Everything the driver is given, and the grid it computes. */
  ghost predicate Setting(engine: Engine, cfg: TilingConfig, source: Image, columns: nat, rows: nat) {
    && cfg.Valid() && ScalesBy(engine, cfg.scale)
    && source.Valid() && source.width > 0 && source.height > 0
    && Fits(source.width, cfg, columns) && Fits(source.height, cfg, rows)
  }

  lemma PxExtract(source: Image, tile: Tile, x: nat, y: nat, c: nat)
    requires 0 <= tile.width && 0 <= tile.height
    requires x < tile.width && y < tile.height && c < 3
    ensures Px(Extract(source, tile), x, y, c) == Px(source, tile.x + x, tile.y + y, c)
  {
    ExtractByte(source, tile, y, 3 * x + c);
  }

  lemma PxBlend(output: Image, region: Image, left: int, top: int, x: nat, y: nat, c: nat)
    requires x < output.width && y < output.height && c < 3
    ensures Px(Blend(output, region, left, top), x, y, c) ==
            if left <= x < left + region.width && top <= y < top + region.height
            then Px(region, x - left, y - top, c) else Px(output, x, y, c)
  {
    BlendByte(output, region, left, top, y, 3 * x + c);
  }

  /** The tile that contributes output pixel (x, y). */
  function OwnerTile(cfg: TilingConfig, source: Image, x: nat, y: nat): Tile
    requires cfg.Valid()
  {
    TileAt(source.width, source.height, cfg,
           Owner(Quo(cfg.scale, x), cfg), Owner(Quo(cfg.scale, y), cfg))
  }

  /** The sample of the upscaled owner tile that lands on output sample (x, y, c). */
  function FromOwner(engine: Engine, cfg: TilingConfig, source: Image, x: nat, y: nat, c: nat): Option<Byte>
    requires cfg.Valid()
  {
    var tile := OwnerTile(cfg, source, x, y);
    if !HasSize(tile) || tile.x < 0 || tile.y < 0 then None else
      match engine(Extract(source, tile))
      case None => None
      case Some(up) => Some(Px(up, x - Times(cfg.scale, tile.x), y - Times(cfg.scale, tile.y), c))
  }

  /** Output pixels of the first `rows` tile rows, and of the first `columns` tiles of the next row. */
  predicate Covered(cfg: TilingConfig, rows: nat, columns: nat, x: nat, y: nat)
    requires cfg.Valid()
  {
    var tx, ty := Owner(Quo(cfg.scale, x), cfg), Owner(Quo(cfg.scale, y), cfg);
    ty < rows || (ty == rows && tx < columns)
  }

  ghost predicate Assembled(engine: Engine, cfg: TilingConfig, source: Image, rows: nat, columns: nat, output: Image)
    requires cfg.Valid()
  {
    && output.Valid()
    && output.width == Times(cfg.scale, source.width) && output.height == Times(cfg.scale, source.height)
    && forall x, y, c ::
         0 <= x < output.width && 0 <= y < output.height && 0 <= c < 3 && Covered(cfg, rows, columns, x, y) ==>
         FromOwner(engine, cfg, source, x, y, c) == Some(Px(output, x, y, c))
  }

  /** What the driver trims from the start of an upscaled tile along one axis. */
  function Trim(cfg: TilingConfig, t: nat): nat
    requires cfg.Valid()
  {
    if t > 0 then Times(cfg.scale, cfg.overlap) else 0
  }

  lemma TrimDetected(cfg: TilingConfig, t: nat)
    requires cfg.Valid()
    ensures Times(cfg.scale, Begin(t, cfg)) > 0 <==> t > 0
  {
    if t > 0 {
      TimesMonotone(cfg.Step(), 0, t);
      TimesMonotone(cfg.scale, 0, Begin(t, cfg));
    }
  }

  /** Along one axis, the trimmed upscaled tile t occupies exactly the output of its contribution. */
  lemma AxisBlend(n: nat, cfg: TilingConfig, k: nat, t: nat, upSize: nat)
    requires cfg.Valid() && Fits(n, cfg, k) && n > 0 && t < k
    requires End(t, n, cfg) >= TileBegin(t, cfg)
    requires upSize == Times(cfg.scale, End(t, n, cfg) - TileBegin(t, cfg))
    ensures Trim(cfg, t) < upSize && End(t, n, cfg) >= 0
    ensures Times(cfg.scale, Begin(t, cfg)) == Times(cfg.scale, TileBegin(t, cfg)) + Trim(cfg, t)
    ensures Times(cfg.scale, Begin(t, cfg)) + (upSize - Trim(cfg, t)) == Times(cfg.scale, End(t, n, cfg))
  {
    var s, begin, end := cfg.scale, TileBegin(t, cfg), End(t, n, cfg);
    ContributionBounds(t, n, cfg, k);
    TimesAdd(s, begin, end - begin);
    TimesAdd(s, begin, cfg.overlap);
    TimesMonotone(s, Begin(t, cfg) - begin, end - begin);
  }

  /** Along one axis, an output coordinate falls into the trimmed tile t just when t owns it. */
  lemma AxisOwned(n: nat, cfg: TilingConfig, k: nat, t: nat, x: nat, upSize: nat)
    requires cfg.Valid() && Fits(n, cfg, k) && n > 0 && t < k
    requires End(t, n, cfg) >= TileBegin(t, cfg)
    requires upSize == Times(cfg.scale, End(t, n, cfg) - TileBegin(t, cfg))
    requires x < Times(cfg.scale, n)
    ensures Trim(cfg, t) < upSize
    ensures var left := Times(cfg.scale, Begin(t, cfg));
            && left - Trim(cfg, t) == Times(cfg.scale, TileBegin(t, cfg))
            && (left <= x < left + (upSize - Trim(cfg, t)) <==> t == Owner(Quo(cfg.scale, x), cfg))
  {
    AxisBlend(n, cfg, k, t, upSize);
    QuoBetween(cfg.scale, x, Begin(t, cfg), End(t, n, cfg));
    QuoBetween(cfg.scale, x, 0, n);
    OwnerContributes(Quo(cfg.scale, x), t, n, cfg);
  }

  /** Output column (or row) x lies in what the trimmed upscaled tile t covers there. */
  predicate Writes(n: nat, cfg: TilingConfig, t: nat, x: nat)
    requires cfg.Valid() && End(t, n, cfg) >= TileBegin(t, cfg)
  {
    var left := Times(cfg.scale, Begin(t, cfg));
    left <= x < left + (Times(cfg.scale, End(t, n, cfg) - TileBegin(t, cfg)) - Trim(cfg, t))
  }

  /**
   The rectangles that the tiles write partition the output: each output pixel is written by exactly
   one tile of the grid, its owner, and no tile's rectangle is empty or reaches beyond the output.
   */
  lemma OutputPartition(cfg: TilingConfig, width: nat, height: nat, columns: nat, rows: nat, tx: nat, ty: nat,
                        x: nat, y: nat)
    requires cfg.Valid() && width > 0 && height > 0 && Fits(width, cfg, columns) && Fits(height, cfg, rows)
    requires tx < columns && ty < rows
    requires x < Times(cfg.scale, width) && y < Times(cfg.scale, height)
    ensures End(tx, width, cfg) >= TileBegin(tx, cfg) && End(ty, height, cfg) >= TileBegin(ty, cfg)
    ensures var tile, s := TileAt(width, height, cfg, tx, ty), cfg.scale;
            && Trim(cfg, tx) < Times(s, tile.width) && Trim(cfg, ty) < Times(s, tile.height)
            && tile.outputX + (Times(s, tile.width) - Trim(cfg, tx)) <= Times(s, width)
            && tile.outputY + (Times(s, tile.height) - Trim(cfg, ty)) <= Times(s, height)
    ensures Writes(width, cfg, tx, x) && Writes(height, cfg, ty, y) <==>
            tx == Owner(Quo(cfg.scale, x), cfg) && ty == Owner(Quo(cfg.scale, y), cfg)
    ensures Owner(Quo(cfg.scale, x), cfg) < columns && Owner(Quo(cfg.scale, y), cfg) < rows
  {
    hide Times, Owner, Quo, Trim, Begin, TileBegin;
    AxisInside(width, cfg, columns, tx);
    AxisInside(height, cfg, rows, ty);
    QuoBetween(cfg.scale, x, 0, width);
    QuoBetween(cfg.scale, y, 0, height);
    OwnerInGrid(Quo(cfg.scale, x), width, cfg, columns);
    OwnerInGrid(Quo(cfg.scale, y), height, cfg, rows);
    AxisOwned(width, cfg, columns, tx, x, Times(cfg.scale, End(tx, width, cfg) - TileBegin(tx, cfg)));
    AxisOwned(height, cfg, rows, ty, y, Times(cfg.scale, End(ty, height, cfg) - TileBegin(ty, cfg)));
  }

  lemma AxisInside(n: nat, cfg: TilingConfig, k: nat, t: nat)
    requires cfg.Valid() && Fits(n, cfg, k) && n > 0 && t < k
    ensures End(t, n, cfg) >= TileBegin(t, cfg)
    ensures var up := Times(cfg.scale, End(t, n, cfg) - TileBegin(t, cfg));
            Trim(cfg, t) < up && Times(cfg.scale, Begin(t, cfg)) + (up - Trim(cfg, t)) <= Times(cfg.scale, n)
  {
    hide Times;
    ContributionBounds(t, n, cfg, k);
    AxisBlend(n, cfg, k, t, Times(cfg.scale, End(t, n, cfg) - TileBegin(t, cfg)));
    TimesMonotone(cfg.scale, End(t, n, cfg), n);
  }

  /** One turn of the loop writes exactly the pixels its tile owns. */
  lemma StepWritesOwned(cfg: TilingConfig, source: Image, columns: nat, rows: nat, up: Image, before: Image,
                        tx: nat, ty: nat, x: nat, y: nat, c: nat)
    requires cfg.Valid() && source.width > 0 && source.height > 0
    requires Fits(source.width, cfg, columns) && Fits(source.height, cfg, rows)
    requires tx < columns && ty < rows
    requires before.width == Times(cfg.scale, source.width) && before.height == Times(cfg.scale, source.height)
    requires x < before.width && y < before.height && c < 3
    requires var tile := TileAt(source.width, source.height, cfg, tx, ty);
             HasSize(tile) &&
             up.width == Times(cfg.scale, tile.width) && up.height == Times(cfg.scale, tile.height)
    ensures var tile := TileAt(source.width, source.height, cfg, tx, ty);
            Px(BlendUpscaled(cfg, tile, up, before), x, y, c) ==
            if tx == Owner(Quo(cfg.scale, x), cfg) && ty == Owner(Quo(cfg.scale, y), cfg)
            then Px(up, x - Times(cfg.scale, tile.x), y - Times(cfg.scale, tile.y), c)
            else Px(before, x, y, c)
  {
    hide Px, Times, Blend;
    AxisOwned(source.width, cfg, columns, tx, x, up.width);
    AxisOwned(source.height, cfg, rows, ty, y, up.height);
    TrimDetected(cfg, tx);
    TrimDetected(cfg, ty);
    BlendsTrimmed(cfg, TileAt(source.width, source.height, cfg, tx, ty), up, before,
                  Trim(cfg, tx), Trim(cfg, ty), x, y, c);
  }

  /** One turn of the loop, for any tile: exactly the trim is cut off, and the rest is blended. */
  lemma BlendsTrimmed(cfg: TilingConfig, tile: Tile, up: Image, before: Image, offX: nat, offY: nat,
                      x: nat, y: nat, c: nat)
    requires cfg.Valid() && 0 <= tile.outputX && 0 <= tile.outputY
    requires offX == if tile.outputX > 0 then Times(cfg.scale, cfg.overlap) else 0
    requires offY == if tile.outputY > 0 then Times(cfg.scale, cfg.overlap) else 0
    requires offX < up.width && offY < up.height
    requires x < before.width && y < before.height && c < 3
    ensures Px(BlendUpscaled(cfg, tile, up, before), x, y, c) ==
            if tile.outputX <= x < tile.outputX + (up.width - offX)
               && tile.outputY <= y < tile.outputY + (up.height - offY)
            then Px(up, x - (tile.outputX - offX), y - (tile.outputY - offY), c) else Px(before, x, y, c)
  {
    PxTrimmed(up, before, offX, offY, tile.outputX, tile.outputY, x, y, c);
  }

  lemma PxTrimmed(up: Image, before: Image, offX: nat, offY: nat, left: nat, top: nat, x: nat, y: nat, c: nat)
    requires offX <= up.width && offY <= up.height
    requires x < before.width && y < before.height && c < 3
    ensures Px(Blend(before, Region(up, offX, offY), left, top), x, y, c) ==
            if left <= x < left + (up.width - offX) && top <= y < top + (up.height - offY)
            then Px(up, x - left + offX, y - top + offY, c) else Px(before, x, y, c)
  {
    PxBlend(before, Region(up, offX, offY), left, top, x, y, c);
    if left <= x < left + (up.width - offX) && top <= y < top + (up.height - offY) {
      PxExtract(up, Tile(offX, offY, up.width - offX, up.height - offY, 0, 0), x - left, y - top, c);
    }
  }

  /** The tiles of the first r rows and of the first t columns of the next row. */
  function TilesUpTo(cfg: TilingConfig, source: Image, columns: nat, r: nat, t: nat): seq<Tile>
    requires cfg.Valid()
  {
    TileRows(source.width, source.height, cfg, columns, r) + TileRow(source.width, source.height, cfg, t, r)
  }

  lemma TilesUpToSized(cfg: TilingConfig, source: Image, columns: nat, rows: nat, r: nat, t: nat)
    requires cfg.Valid() && source.width > 0 && source.height > 0
    requires Fits(source.width, cfg, columns) && Fits(source.height, cfg, rows)
    requires r < rows && t <= columns
    ensures AllSized(TilesUpTo(cfg, source, columns, r, t))
  {
    RowsInside(source.width, source.height, cfg, columns, rows, r);
    var row := TileRow(source.width, source.height, cfg, t, r);
    forall i | 0 <= i < |row|
      ensures HasSize(row[i])
    {
      TileInside(source.width, source.height, cfg, columns, rows, i, r);
    }
  }

  lemma OneMoreInList(cfg: TilingConfig, source: Image, columns: nat, r: nat, t: nat)
    requires cfg.Valid()
    ensures var tiles := TilesUpTo(cfg, source, columns, r, t + 1);
            && tiles[..|tiles| - 1] == TilesUpTo(cfg, source, columns, r, t)
            && tiles[|tiles| - 1] == TileAt(source.width, source.height, cfg, t, r)
  {
  }

  lemma NextRow(cfg: TilingConfig, source: Image, columns: nat, r: nat)
    requires cfg.Valid() && 0 < r
    ensures TilesUpTo(cfg, source, columns, r, 0) == TilesUpTo(cfg, source, columns, r - 1, columns)
  {
  }

  lemma {:induction false} AssembledUpTo(engine: Engine, cfg: TilingConfig, source: Image, columns: nat, rows: nat,
                                         r: nat, t: nat, output: Image)
    requires Setting(engine, cfg, source, columns, rows)
    requires r < rows && t <= columns
    requires AllSized(TilesUpTo(cfg, source, columns, r, t))
    requires Assemble(engine, cfg, source, TilesUpTo(cfg, source, columns, r, t),
                      Black(Times(cfg.scale, source.width), Times(cfg.scale, source.height))) == Some(output)
    ensures Assembled(engine, cfg, source, r, t, output)
    decreases r, t
  {
    hide Times, TileRow, Tabulate, BlendUpscaled, Extract;
    if t > 0 {
      TilesUpToSized(cfg, source, columns, rows, r, t - 1);
      OneMoreInList(cfg, source, columns, r, t - 1);
      var before := Assemble(engine, cfg, source, TilesUpTo(cfg, source, columns, r, t - 1),
                             Black(Times(cfg.scale, source.width), Times(cfg.scale, source.height))).value;
      AssembledUpTo(engine, cfg, source, columns, rows, r, t - 1, before);
      OneMoreTile(engine, cfg, source, columns, rows, r, t - 1, before);
    } else if r > 0 {
      TilesUpToSized(cfg, source, columns, rows, r - 1, columns);
      NextRow(cfg, source, columns, r);
      AssembledUpTo(engine, cfg, source, columns, rows, r - 1, columns, output);
      CoveredAtRowEnd(engine, cfg, source, columns, rows, r, output);
    } else {
      assert TilesUpTo(cfg, source, columns, 0, 0) == [];
    }
  }

  lemma CoveredAtRowEnd(engine: Engine, cfg: TilingConfig, source: Image, columns: nat, rows: nat,
                        r: nat, output: Image)
    requires Setting(engine, cfg, source, columns, rows) && 0 < r
    requires Assembled(engine, cfg, source, r - 1, columns, output)
    ensures Assembled(engine, cfg, source, r, 0, output)
  {
    forall x, y, c | 0 <= x < output.width && 0 <= y < output.height && 0 <= c < 3 && Covered(cfg, r, 0, x, y)
      ensures FromOwner(engine, cfg, source, x, y, c) == Some(Px(output, x, y, c))
    {
      QuoBetween(cfg.scale, x, 0, source.width);
      OwnerInGrid(Quo(cfg.scale, x), source.width, cfg, columns);
      assert Covered(cfg, r - 1, columns, x, y);
    }
  }

  lemma OneMoreTile(engine: Engine, cfg: TilingConfig, source: Image, columns: nat, rows: nat,
                    r: nat, t: nat, before: Image)
    requires Setting(engine, cfg, source, columns, rows)
    requires r < rows && t < columns
    requires Assembled(engine, cfg, source, r, t, before)
    requires var tile := TileAt(source.width, source.height, cfg, t, r);
             HasSize(tile) && engine(Extract(source, tile)).Some?
    ensures var tile := TileAt(source.width, source.height, cfg, t, r);
            Assembled(engine, cfg, source, r, t + 1,
                      BlendUpscaled(cfg, tile, engine(Extract(source, tile)).value, before))
  {
    hide Px, Quo, Owner, Times;
    var tile := TileAt(source.width, source.height, cfg, t, r);
    var up := engine(Extract(source, tile)).value;
    var output := BlendUpscaled(cfg, tile, up, before);
    forall x, y, c | 0 <= x < output.width && 0 <= y < output.height && 0 <= c < 3 && Covered(cfg, r, t + 1, x, y)
      ensures FromOwner(engine, cfg, source, x, y, c) == Some(Px(output, x, y, c))
    {
      StepWritesOwned(cfg, source, columns, rows, up, before, t, r, x, y, c);
      if Owner(Quo(cfg.scale, x), cfg) != t || Owner(Quo(cfg.scale, y), cfg) != r {
        assert Covered(cfg, r, t, x, y);
      }
    }
  }

  /**
   The tile loop, when no engine call fails, produces an output of the scaled size in which every
   sample is the one its owner tile has at the corresponding place.
   */
  lemma TiledPixel(engine: Engine, cfg: TilingConfig, source: Image, x: nat, y: nat, c: nat)
    requires cfg.Valid() && ScalesBy(engine, cfg.scale)
    requires source.Valid() && source.width > 0 && source.height > 0
    requires Exact(source.width, cfg) && Exact(source.height, cfg)
    requires Tiled(engine, cfg, source).Some?
    requires x < Times(cfg.scale, source.width) && y < Times(cfg.scale, source.height) && c < 3
    ensures var output := Tiled(engine, cfg, source).value;
            && output.Valid()
            && output.width == Times(cfg.scale, source.width) && output.height == Times(cfg.scale, source.height)
            && FromOwner(engine, cfg, source, x, y, c) == Some(Px(output, x, y, c))
  {
    var columns, rows := TilesAlong(source.width, cfg), TilesAlong(source.height, cfg);
    TilesAlongFits(source.width, cfg);
    TilesAlongFits(source.height, cfg);
    var output := Tiled(engine, cfg, source).value;
    TilesUpToSized(cfg, source, columns, rows, rows - 1, columns);
    assert TilesUpTo(cfg, source, columns, rows - 1, columns) == Grid(source.width, source.height, cfg);
    AssembledUpTo(engine, cfg, source, columns, rows, rows - 1, columns, output);
    QuoBetween(cfg.scale, x, 0, source.width);
    QuoBetween(cfg.scale, y, 0, source.height);
    OwnerInGrid(Quo(cfg.scale, x), source.width, cfg, columns);
    OwnerInGrid(Quo(cfg.scale, y), source.height, cfg, rows);
    assert Covered(cfg, rows - 1, columns, x, y);
  }

  // ---- Success ----

  /** The tile loop fails exactly when the engine fails on one of the tiles. */
  lemma {:induction false} FailsOnTile(engine: Engine, cfg: TilingConfig, source: Image,
                                       tiles: seq<Tile>, output: Image)
    requires cfg.Valid() && AllSized(tiles)
    ensures Assemble(engine, cfg, source, tiles, output).None? <==>
            exists i :: 0 <= i < |tiles| && HasSize(tiles[i]) && engine(Extract(source, tiles[i])).None?
  {
    if tiles != [] {
      var k := |tiles| - 1;
      FailsOnTile(engine, cfg, source, tiles[..k], output);
      if j :| 0 <= j < k && HasSize(tiles[..k][j]) && engine(Extract(source, tiles[..k][j])).None? {
        assert tiles[j] == tiles[..k][j];
      }
      if i :| 0 <= i < |tiles| && HasSize(tiles[i]) && engine(Extract(source, tiles[i])).None? {
        if i < k {
          assert tiles[..k][i] == tiles[i];
        }
      }
    }
  }

  lemma NeverFails(engine: Engine, cfg: TilingConfig, source: Image)
    requires cfg.Valid() && source.Valid() && source.width > 0 && source.height > 0
    requires Exact(source.width, cfg) && Exact(source.height, cfg)
    requires forall img :: engine(img).Some?
    ensures Tiled(engine, cfg, source).Some?
  {
    GridInside(source.width, source.height, cfg);
    FailsOnTile(engine, cfg, source, Grid(source.width, source.height, cfg),
                Black(Times(cfg.scale, source.width), Times(cfg.scale, source.height)));
  }
}
