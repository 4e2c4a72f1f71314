/**
 The tiling configuration of the engine (get_tiling_config, ncnn_upscaler_engine.cpp and
 base_engine.hpp) and what it means for the size of the work given to the network.
 */
module EngineConfig {
  import opened Arith
  import opened Pixels
  import opened Tiling
  import opened TilingProcessor
  import opened Assembly
  import opened Wrappers
  import opened FloatGrid
  import opened Padding
  import opened UpscalerEngine

  /** BaseEngine::get_tiling_config */
  function BaseConfig(scale: int): TilingConfig {
    TilingConfig(512, 32, scale, true, 2048, 2048)
  }

  /** The override by --tile-size, or else by the profile for integrated GPUs. */
  function GetTilingConfig(tileSizeOption: int, igpuProfile: bool, scale: int): TilingConfig {
    var config := BaseConfig(scale);
    if tileSizeOption > 0 then
      var size := Max(config.overlap + 1, tileSizeOption);
      config.(tileSize := size, thresholdWidth := Max(1, size), thresholdHeight := Max(1, size))
    else if igpuProfile then
      config.(tileSize := Max(config.overlap + 1, 384),
              thresholdWidth := Min(config.thresholdWidth, 1024),
              thresholdHeight := Min(config.thresholdHeight, 1024))
    else config
  }

  /**
   The configuration, field by field: the scale of the engine and the overlap whatever the options, the
   tile size and the thresholds from `--tile-size` or the profile.
   */
  lemma ConfigurationExactly(tileSizeOption: int, igpuProfile: bool, scale: int)
    ensures var cfg := GetTilingConfig(tileSizeOption, igpuProfile, scale);
            && cfg.scale == scale && cfg.overlap == 32 && cfg.enableTiling
            && (tileSizeOption > 0 && tileSizeOption <= 33 ==> cfg.tileSize == 33)
            && (tileSizeOption > 33 ==> cfg.tileSize == tileSizeOption)
            && (tileSizeOption > 0 ==> cfg.thresholdWidth == cfg.thresholdHeight == cfg.tileSize)
            && (tileSizeOption <= 0 && igpuProfile ==>
                  cfg.tileSize == 384 && cfg.thresholdWidth == cfg.thresholdHeight == 1024)
            && (tileSizeOption <= 0 && !igpuProfile ==>
                  cfg.tileSize == 512 && cfg.thresholdWidth == cfg.thresholdHeight == 2048)
  {
  }

  // ---- What reaches the network ----

  /** The images that one upscaling hands to the engine, in order. */
  function EngineInputs(cfg: TilingConfig, source: Image): seq<Image>
    requires cfg.Valid() && source.Valid() && source.width > 0 && source.height > 0
    requires Exact(source.width, cfg) && Exact(source.height, cfg)
  {
    if ShouldEnableTiling(source.width, source.height, cfg) then
      GridInside(source.width, source.height, cfg);
      CutOut(source, Grid(source.width, source.height, cfg))
    else [source]
  }

  function CutOut(source: Image, tiles: seq<Tile>): (cuts: seq<Image>)
    requires AllSized(tiles)
    ensures |cuts| == |tiles|
  {
    if tiles == [] then [] else CutOut(source, tiles[..|tiles| - 1]) + [Extract(source, tiles[|tiles| - 1])]
  }

  /** The engine is asked for nothing else: another one that agrees on these images gives the same result. */
  lemma OnlyEngineInputs(engine: Engine, other: Engine, cfg: TilingConfig, source: Image)
    requires cfg.Valid() && source.Valid() && source.width > 0 && source.height > 0
    requires Exact(source.width, cfg) && Exact(source.height, cfg)
    requires forall i :: 0 <= i < |EngineInputs(cfg, source)| ==>
               engine(EngineInputs(cfg, source)[i]) == other(EngineInputs(cfg, source)[i])
    ensures Upscaled(engine, cfg, source) == Upscaled(other, cfg, source)
  {
    if ShouldEnableTiling(source.width, source.height, cfg) {
      GridInside(source.width, source.height, cfg);
      var tiles := Grid(source.width, source.height, cfg);
      forall i | 0 <= i < |tiles|
        ensures engine(CutOut(source, tiles)[i]) == other(CutOut(source, tiles)[i])
      {
        assert EngineInputs(cfg, source)[i] == CutOut(source, tiles)[i];
      }
      SameAssembly(engine, other, cfg, source, tiles,
                   Black(Times(cfg.scale, source.width), Times(cfg.scale, source.height)));
    } else {
      assert source == EngineInputs(cfg, source)[0];
    }
  }

  lemma {:induction false} SameAssembly(engine: Engine, other: Engine, cfg: TilingConfig, source: Image,
                                        tiles: seq<Tile>, output: Image)
    requires cfg.Valid() && AllSized(tiles)
    requires forall i :: 0 <= i < |tiles| ==> engine(CutOut(source, tiles)[i]) == other(CutOut(source, tiles)[i])
    ensures Assemble(engine, cfg, source, tiles, output) == Assemble(other, cfg, source, tiles, output)
  {
    if tiles != [] {
      var k := |tiles| - 1;
      var cuts := CutOut(source, tiles);
      forall i | 0 <= i < k
        ensures engine(CutOut(source, tiles[..k])[i]) == other(CutOut(source, tiles[..k])[i])
      {
        assert CutOut(source, tiles[..k])[i] == cuts[i];
      }
      SameAssembly(engine, other, cfg, source, tiles[..k], output);
      assert engine(cuts[k]) == other(cuts[k]);
    }
  }

  lemma {:induction false} CutAt(source: Image, tiles: seq<Tile>, i: nat)
    requires AllSized(tiles) && i < |tiles|
    ensures HasSize(tiles[i]) && CutOut(source, tiles)[i] == Extract(source, tiles[i])
  {
    if i < |tiles| - 1 {
      CutAt(source, tiles[..|tiles| - 1], i);
    }
  }

  /** The largest side the options allow an image given to the engine. */
  function SideBound(tileSizeOption: int, igpuProfile: bool): nat {
    if tileSizeOption > 0 then Max(33, tileSizeOption) else if igpuProfile then 1024 else 2048
  }

  /**
   For every option value and device profile the grid is well defined and no image given to the engine
   exceeds the bound of that configuration on either side, nor is it empty.
   */
  lemma EngineInputsBounded(tileSizeOption: int, igpuProfile: bool, scale: int, source: Image, i: nat)
    requires scale >= 1 && source.Valid() && source.width > 0 && source.height > 0
    requires Exact(source.width, GetTilingConfig(tileSizeOption, igpuProfile, scale))
    requires Exact(source.height, GetTilingConfig(tileSizeOption, igpuProfile, scale))
    ensures GetTilingConfig(tileSizeOption, igpuProfile, scale).Valid()
    ensures var inputs := EngineInputs(GetTilingConfig(tileSizeOption, igpuProfile, scale), source);
            i < |inputs| ==>
              && inputs[i].Valid()
              && 0 < inputs[i].width <= SideBound(tileSizeOption, igpuProfile)
              && 0 < inputs[i].height <= SideBound(tileSizeOption, igpuProfile)
  {
    hide Grid, Extract;
    var cfg := GetTilingConfig(tileSizeOption, igpuProfile, scale);
    if ShouldEnableTiling(source.width, source.height, cfg) {
      var tiles := Grid(source.width, source.height, cfg);
      GridInside(source.width, source.height, cfg);
      if i < |tiles| {
        assert Inside(tiles[i], source.width, source.height);
        GridTileSize(source.width, source.height, cfg, i);
        CutAt(source, tiles, i);
        ExtractSize(source, tiles[i]);
      }
    }
  }

  lemma ExtractSize(source: Image, tile: Tile)
    requires HasSize(tile)
    ensures var cut := Extract(source, tile); cut.Valid() && cut.width == tile.width && cut.height == tile.height
  {
  }

  /** The images that the network itself is given, with their padding. */
  function NetworkInputs(cfg: TilingConfig, source: Image): (inputs: seq<Image>)
    requires cfg.Valid() && source.Valid() && source.width > 0 && source.height > 0
    requires Exact(source.width, cfg) && Exact(source.height, cfg)
    ensures |inputs| == |EngineInputs(cfg, source)|
    ensures forall i :: 0 <= i < |inputs| ==> inputs[i] == Pad(EngineInputs(cfg, source)[i], UPSCALER_PADDING)
  {
    var given := EngineInputs(cfg, source);
    seq(|given|, i requires 0 <= i < |given| => Pad(given[i], UPSCALER_PADDING))
  }

  /** The network is run on nothing else. */
  lemma OnlyNetworkInputs(net: Network, other: Network, s: nat, cfg: TilingConfig, source: Image)
    requires cfg.Valid() && source.Valid() && source.width > 0 && source.height > 0
    requires Exact(source.width, cfg) && Exact(source.height, cfg)
    requires forall i :: 0 <= i < |NetworkInputs(cfg, source)| ==>
               net(NetworkInputs(cfg, source)[i]) == other(NetworkInputs(cfg, source)[i])
    ensures Upscaled(Process(net, s), cfg, source) == Upscaled(Process(other, s), cfg, source)
  {
    hide EngineInputs, Pad, CropTo, Upscaled;
    var given, padded := EngineInputs(cfg, source), NetworkInputs(cfg, source);
    forall i | 0 <= i < |given|
      ensures Process(net, s)(given[i]) == Process(other, s)(given[i])
    {
      assert net(padded[i]) == other(padded[i]);
    }
    OnlyEngineInputs(Process(net, s), Process(other, s), cfg, source);
  }

  /**
   For every option value and device profile, what the network is given exceeds the padded size of the
   bound on neither side: `max(33, N)` plus 36, rounded up to even, when the tile size N is configured,
   and 1060 or 2084 by default. This is the best bound: see `BoundIsReached`.
   */
  lemma InferenceIsBounded(tileSizeOption: int, igpuProfile: bool, scale: int, source: Image, i: nat)
    requires scale >= 1 && source.Valid() && source.width > 0 && source.height > 0
    requires Exact(source.width, GetTilingConfig(tileSizeOption, igpuProfile, scale))
    requires Exact(source.height, GetTilingConfig(tileSizeOption, igpuProfile, scale))
    ensures GetTilingConfig(tileSizeOption, igpuProfile, scale).Valid()
    ensures var inputs := NetworkInputs(GetTilingConfig(tileSizeOption, igpuProfile, scale), source);
            var bound := PaddedSize(SideBound(tileSizeOption, igpuProfile), UPSCALER_PADDING);
            i < |inputs| ==> 0 < inputs[i].width <= bound && 0 < inputs[i].height <= bound
  {
    hide EngineInputs, Pad, PaddedSize;
    var cfg := GetTilingConfig(tileSizeOption, igpuProfile, scale);
    EngineInputsBounded(tileSizeOption, igpuProfile, scale, source, i);
    if i < |EngineInputs(cfg, source)| {
      var given := EngineInputs(cfg, source)[i];
      PadIsValid(given, UPSCALER_PADDING);
      PaddedSizeMonotone(given.width, SideBound(tileSizeOption, igpuProfile));
      PaddedSizeMonotone(given.height, SideBound(tileSizeOption, igpuProfile));
    }
  }

  lemma PaddedSizeMonotone(n: nat, m: nat)
    requires n <= m
    ensures 0 < PaddedSize(n, UPSCALER_PADDING) <= PaddedSize(m, UPSCALER_PADDING)
  {
  }

  /** An image whose sides do not exceed the bound is given to the network as a whole, padded, and only that. */
  lemma SmallImageIsGivenWhole(tileSizeOption: int, igpuProfile: bool, scale: int, source: Image)
    requires scale >= 1 && source.Valid() && source.width > 0 && source.height > 0
    requires source.width <= TWO24 && source.height <= TWO24
    requires var bound := SideBound(tileSizeOption, igpuProfile); source.width <= bound && source.height <= bound
    ensures NetworkInputs(GetTilingConfig(tileSizeOption, igpuProfile, scale), source) ==
            [Pad(source, UPSCALER_PADDING)]
  {
    hide Pad, Grid, CutOut;
    var cfg := GetTilingConfig(tileSizeOption, igpuProfile, scale);
    assert EngineInputs(cfg, source) == [source];
  }

  /** Any other image is cut up: the network is given the padded tiles of the grid, row by row. */
  lemma LargeImageIsCutUp(tileSizeOption: int, igpuProfile: bool, scale: int, source: Image, i: nat)
    requires scale >= 1 && source.Valid() && source.width > 0 && source.height > 0
    requires source.width <= TWO24 && source.height <= TWO24
    requires var bound := SideBound(tileSizeOption, igpuProfile); source.width > bound || source.height > bound
    ensures var cfg := GetTilingConfig(tileSizeOption, igpuProfile, scale);
            && |NetworkInputs(cfg, source)| == |Grid(source.width, source.height, cfg)|
            && (i < |Grid(source.width, source.height, cfg)| ==>
                  && HasSize(Grid(source.width, source.height, cfg)[i])
                  && NetworkInputs(cfg, source)[i] ==
                     Pad(Extract(source, Grid(source.width, source.height, cfg)[i]), UPSCALER_PADDING))
  {
    hide Pad, Grid, CutOut, Extract;
    var cfg := GetTilingConfig(tileSizeOption, igpuProfile, scale);
    GridInside(source.width, source.height, cfg);
    if i < |Grid(source.width, source.height, cfg)| {
      CutAt(source, Grid(source.width, source.height, cfg), i);
    }
  }

  /** Upscaling fails just when the network fails on one of the images it is given. */
  lemma FailsOnNetworkInput(net: Network, s: nat, cfg: TilingConfig, source: Image)
    requires cfg.Valid() && source.Valid() && source.width > 0 && source.height > 0
    requires Exact(source.width, cfg) && Exact(source.height, cfg)
    ensures Upscaled(Process(net, s), cfg, source).None? <==>
            exists i :: 0 <= i < |NetworkInputs(cfg, source)| && net(NetworkInputs(cfg, source)[i]).None?
  {
    hide Pad, Grid, Extract, CropTo, Assemble;
    var engine := Process(net, s);
    var given, padded := EngineInputs(cfg, source), NetworkInputs(cfg, source);
    assert forall img :: engine(img).None? <==> net(Pad(img, UPSCALER_PADDING)).None?;
    if ShouldEnableTiling(source.width, source.height, cfg) {
      var tiles := Grid(source.width, source.height, cfg);
      GridInside(source.width, source.height, cfg);
      FailsOnTile(engine, cfg, source, tiles, Black(Times(cfg.scale, source.width), Times(cfg.scale, source.height)));
      forall i | 0 <= i < |tiles|
        ensures given[i] == Extract(source, tiles[i])
      {
        CutAt(source, tiles, i);
      }
      if i :| 0 <= i < |tiles| && HasSize(tiles[i]) && engine(Extract(source, tiles[i])).None? {
        assert net(padded[i]).None?;
      }
      if i :| 0 <= i < |padded| && net(padded[i]).None? {
        assert HasSize(tiles[i]) && engine(Extract(source, tiles[i])).None?;
      }
    } else {
      assert given == [source] && padded[0] == Pad(source, UPSCALER_PADDING);
    }
  }

  /** An image as large as the bound is given to the network as a whole, padded. */
  lemma BoundIsReached(tileSizeOption: int, igpuProfile: bool, scale: int, source: Image)
    requires scale >= 1 && source.Valid() && SideBound(tileSizeOption, igpuProfile) <= TWO24
    requires source.width == source.height == SideBound(tileSizeOption, igpuProfile)
    ensures var cfg := GetTilingConfig(tileSizeOption, igpuProfile, scale);
            var bound := PaddedSize(SideBound(tileSizeOption, igpuProfile), UPSCALER_PADDING);
            && |NetworkInputs(cfg, source)| == 1
            && NetworkInputs(cfg, source)[0].width == NetworkInputs(cfg, source)[0].height == bound
  {
    hide Pad;
    PadIsValid(source, UPSCALER_PADDING);
  }

  lemma GridTileSize(width: nat, height: nat, cfg: TilingConfig, i: nat)
    requires cfg.Valid() && i < |Grid(width, height, cfg)|
    ensures Grid(width, height, cfg)[i].width <= cfg.tileSize && Grid(width, height, cfg)[i].height <= cfg.tileSize
  {
    hide TilesAlong;
    RowsTileSize(width, height, cfg, TilesAlong(width, cfg), TilesAlong(height, cfg), i);
  }

  lemma {:induction false} RowsTileSize(width: nat, height: nat, cfg: TilingConfig, columns: nat, rows: nat, i: nat)
    requires cfg.Valid() && i < |TileRows(width, height, cfg, columns, rows)|
    ensures var tile := TileRows(width, height, cfg, columns, rows)[i];
            tile.width <= cfg.tileSize && tile.height <= cfg.tileSize
    decreases rows
  {
    if rows > 0 {
      var before := TileRows(width, height, cfg, columns, rows - 1);
      if i < |before| {
        RowsTileSize(width, height, cfg, columns, rows - 1, i);
      } else {
        assert TileRows(width, height, cfg, columns, rows)[i] ==
               TileAt(width, height, cfg, i - |before|, rows - 1);
      }
    }
  }

  // ---- The cost of the overlaps ----

  /** Source pixels that the tiles cover, counted as often as they are covered. */
  function CoveredArea(tiles: seq<Tile>): int {
    if tiles == [] then 0
    else CoveredArea(tiles[..|tiles| - 1]) + tiles[|tiles| - 1].height * tiles[|tiles| - 1].width
  }

  lemma {:induction false} CoveredAreaConcat(a: seq<Tile>, b: seq<Tile>)
    ensures CoveredArea(a + b) == CoveredArea(a) + CoveredArea(b)
    decreases |b|
  {
    if b == [] {
      assert a + b == a;
    } else {
      assert (a + b)[..|a + b| - 1] == a + b[..|b| - 1];
      CoveredAreaConcat(a, b[..|b| - 1]);
    }
  }

  /** The lengths of the first t tiles along an axis, summed up. */
  function CoveredLength(n: nat, cfg: TilingConfig, t: nat): int
    requires cfg.Valid()
  {
    if t == 0 then 0 else CoveredLength(n, cfg, t - 1) + (End(t - 1, n, cfg) - TileBegin(t - 1, cfg))
  }

  lemma {:induction false} CoveredLengthValue(n: nat, cfg: TilingConfig, k: nat, t: nat)
    requires cfg.Valid() && Fits(n, cfg, k) && n > 0 && 0 < t <= k
    ensures CoveredLength(n, cfg, t) == End(t - 1, n, cfg) + (t - 1) * cfg.overlap
  {
    ContributionBounds(t - 1, n, cfg, k);
    if t > 1 {
      ContributionBounds(t - 2, n, cfg, k);
      CoveredLengthValue(n, cfg, k, t - 1);
      assert (t - 1) * cfg.overlap == (t - 2) * cfg.overlap + cfg.overlap;
    } else {
      assert CoveredLength(n, cfg, 0) == 0;
    }
  }

  lemma AddColumn(whole: int, first: int, second: int, side: int, a: int, b: int)
    requires whole == first + second && first == side * a && second == side * b
    ensures whole == side * (a + b)
  {
  }

  lemma AddRow(whole: int, first: int, second: int, side: int, a: int, b: int)
    requires whole == first + second && first == a * side && second == b * side
    ensures whole == (a + b) * side
  {
  }

  lemma {:induction false} RowArea(width: nat, height: nat, cfg: TilingConfig, columns: nat, ty: nat)
    requires cfg.Valid()
    ensures CoveredArea(TileRow(width, height, cfg, columns, ty)) ==
            (End(ty, height, cfg) - TileBegin(ty, cfg)) * CoveredLength(width, cfg, columns)
    decreases columns
  {
    if columns > 0 {
      hide TileBegin, End;
      var row := TileRow(width, height, cfg, columns, ty);
      var h := End(ty, height, cfg) - TileBegin(ty, cfg);
      var w := End(columns - 1, width, cfg) - TileBegin(columns - 1, cfg);
      assert row[..columns - 1] == TileRow(width, height, cfg, columns - 1, ty);
      RowArea(width, height, cfg, columns - 1, ty);
      AddColumn(CoveredArea(row), CoveredArea(row[..columns - 1]), h * w, h, CoveredLength(width, cfg, columns - 1), w);
    }
  }

  lemma CoveredLengthStep(n: nat, cfg: TilingConfig, t: nat)
    requires cfg.Valid() && 0 < t
    ensures CoveredLength(n, cfg, t) == CoveredLength(n, cfg, t - 1) + (End(t - 1, n, cfg) - TileBegin(t - 1, cfg))
  {
  }

  lemma {:induction false} RowsArea(width: nat, height: nat, cfg: TilingConfig, columns: nat, rows: nat)
    requires cfg.Valid()
    ensures CoveredArea(TileRows(width, height, cfg, columns, rows)) ==
            CoveredLength(height, cfg, rows) * CoveredLength(width, cfg, columns)
    decreases rows
  {
    if rows > 0 {
      hide TileBegin, End, TileRow, CoveredArea, CoveredLength;
      var before := TileRows(width, height, cfg, columns, rows - 1);
      var row := TileRow(width, height, cfg, columns, rows - 1);
      var h := End(rows - 1, height, cfg) - TileBegin(rows - 1, cfg);
      assert TileRows(width, height, cfg, columns, rows) == before + row;
      CoveredLengthStep(height, cfg, rows);
      RowsArea(width, height, cfg, columns, rows - 1);
      RowArea(width, height, cfg, columns, rows - 1);
      CoveredAreaConcat(before, row);
      AddRow(CoveredArea(before + row), CoveredArea(before), CoveredArea(row),
             CoveredLength(width, cfg, columns), CoveredLength(height, cfg, rows - 1), h);
    }
  }

  /** Tiling costs exactly one extra strip of the overlap's width per seam, over the whole image. */
  lemma TiledArea(width: nat, height: nat, cfg: TilingConfig)
    requires cfg.Valid() && width > 0 && height > 0 && Exact(width, cfg) && Exact(height, cfg)
    ensures CoveredArea(Grid(width, height, cfg)) ==
            (height + (TilesAlong(height, cfg) - 1) * cfg.overlap)
            * (width + (TilesAlong(width, cfg) - 1) * cfg.overlap)
  {
    hide TilesAlong, CoveredArea, CoveredLength, TileRows;
    RowsArea(width, height, cfg, TilesAlong(width, cfg), TilesAlong(height, cfg));
    LengthWithOverlaps(width, cfg);
    LengthWithOverlaps(height, cfg);
  }

  lemma LengthWithOverlaps(n: nat, cfg: TilingConfig)
    requires cfg.Valid() && n > 0 && Exact(n, cfg)
    ensures CoveredLength(n, cfg, TilesAlong(n, cfg)) == n + (TilesAlong(n, cfg) - 1) * cfg.overlap
  {
    hide TilesAlong, CoveredLength;
    TilesAlongFits(n, cfg);
    CoveredLengthValue(n, cfg, TilesAlong(n, cfg), TilesAlong(n, cfg));
    ContributionBounds(TilesAlong(n, cfg) - 1, n, cfg, TilesAlong(n, cfg));
  }

  // ---- 32-bit arithmetic ----

  const INT_MAX: int := 0x7fff_ffff

  lemma Product(a: nat, b: nat, c: nat, d: nat)
    requires a <= c && b <= d
    ensures a * b <= c * d
  {
    assert a * b <= a * d;
    assert a * d <= c * d;
  }

  /** A value that an int can hold, and that the program expects to be no less than 0. */
  predicate FitsInt(value: int) {
    0 <= value <= INT_MAX
  }

  /** The bytes of the output image can be counted in an int. */
  predicate OutputCountable(width: nat, height: nat, cfg: TilingConfig) {
    && cfg.Valid() && cfg.overlap == 32 && width > 0 && height > 0
    && 3 * ((width * cfg.scale) * (height * cfg.scale)) <= INT_MAX
  }

  /** Along one axis: every value computed about tile t by calculate_tiles and by the driver. */
  lemma AxisFitsInt(n: nat, cfg: TilingConfig, k: nat, t: nat)
    requires cfg.Valid() && cfg.overlap == 32 && Fits(n, cfg, k) && n > 0 && t < k
    requires n * cfg.scale <= INT_MAX && cfg.scale < 0x1_0000
    ensures var begin := t * (cfg.tileSize - cfg.overlap);
            var start := if t == 0 then 0 else begin + cfg.overlap;
            var size := Min(cfg.tileSize, n - begin);
            && FitsInt(begin) && FitsInt(n - begin) && FitsInt(start) && FitsInt(size)
            && FitsInt(start * cfg.scale) && FitsInt(cfg.overlap * cfg.scale)
            && start * cfg.scale == Times(cfg.scale, Begin(t, cfg))
            && start * cfg.scale < n * cfg.scale
            && begin == TileBegin(t, cfg) && size == End(t, n, cfg) - TileBegin(t, cfg)
            && begin + size <= n && 0 < size
            && (t > 0 ==> cfg.overlap < size)
  {
    hide Fits, Times;
    ContributionBounds(t, n, cfg, k);
    ComputedPosition(cfg, t);
    ScaledStartFits(n, Begin(t, cfg), cfg.overlap, cfg.scale);
  }

  lemma ScaledStartFits(n: nat, start: nat, overlap: nat, s: nat)
    requires start < n && n * s <= INT_MAX && 0 < s < 0x1_0000 && overlap == 32
    ensures n <= INT_MAX && 0 <= start * s < n * s && 0 <= overlap * s <= INT_MAX
  {
    Product(n, 1, n, s);
    Product(start + 1, s, n, s);
    assert (start + 1) * s == start * s + s;
  }

  /**
   With the overlap of the engine, if the bytes of the output image can be counted in an int, so can every
   int the driver computes about any tile of the grid: its place in the source and in the output, the sizes
   of the tile, of the upscaled tile and of the region that is blended, and the byte offset of every row
   that is copied from the source into the tile and from the upscaled tile into the region.
   */
  lemma DriverFitsInt(width: nat, height: nat, cfg: TilingConfig, columns: nat, rows: nat, tx: nat, ty: nat)
    requires OutputCountable(width, height, cfg)
    requires Fits(width, cfg, columns) && Fits(height, cfg, rows) && tx < columns && ty < rows
    ensures FitsInt(width * cfg.scale) && FitsInt(height * cfg.scale)
    ensures FitsInt((width * cfg.scale) * (height * cfg.scale) * 3)
    ensures PlaceFits(width, height, cfg, tx, ty, TileAt(width, height, cfg, tx, ty))
    ensures SizesFit(width, height, cfg, tx, ty, TileAt(width, height, cfg, tx, ty))
    ensures forall y :: 0 <= y < TileAt(width, height, cfg, tx, ty).height ==>
              SourceRowFits(width, TileAt(width, height, cfg, tx, ty), y)
    ensures forall row :: 0 <= row < BlendSize(cfg, ty, TileAt(width, height, cfg, tx, ty).height) ==>
              BlendRowFits(height, cfg, tx, ty, TileAt(width, height, cfg, tx, ty), row)
  {
    hide TileAt, OutputCountable, PlaceFits, SizesFit, SourceRowFits, BlendRowFits, BlendSize, Fits;
    CountableMeans(width, height, cfg);
    OutputSides(width, height, cfg.scale);
    var tile := TileAt(width, height, cfg, tx, ty);
    TilePlaceFits(width, height, cfg, columns, rows, tx, ty);
    TileSizesFit(width, height, cfg, tx, ty, tile);
    forall y | 0 <= y < tile.height
      ensures SourceRowFits(width, tile, y)
    {
      SourceRow(width, height, cfg.scale, tile, y);
    }
    forall row | 0 <= row < BlendSize(cfg, ty, tile.height)
      ensures BlendRowFits(height, cfg, tx, ty, tile, row)
    {
      BlendRow(width, height, cfg, tx, ty, tile, row);
    }
  }

  lemma TilePlaceFits(width: nat, height: nat, cfg: TilingConfig, columns: nat, rows: nat, tx: nat, ty: nat)
    requires OutputCountable(width, height, cfg)
    requires Fits(width, cfg, columns) && Fits(height, cfg, rows) && tx < columns && ty < rows
    ensures var tile := TileAt(width, height, cfg, tx, ty);
            && PlaceFits(width, height, cfg, tx, ty, tile) && Inside(tile, width, height)
            && (tx > 0 ==> cfg.overlap < tile.width) && (ty > 0 ==> cfg.overlap < tile.height)
            && tile.outputY == (if ty > 0 then tile.y + cfg.overlap else 0) * cfg.scale && (ty == 0 ==> tile.y == 0)
  {
    hide OutputCountable, TileBegin, Begin, End, Times, Fits;
    CountableMeans(width, height, cfg);
    OutputSides(width, height, cfg.scale);
    AxisFitsInt(width, cfg, columns, tx);
    AxisFitsInt(height, cfg, rows, ty);
  }

  /** What the driver trims from an upscaled tile along an axis, as the program computes it. */
  function Offset(cfg: TilingConfig, t: nat): int {
    if t > 0 then cfg.overlap * cfg.scale else 0
  }

  /** The length of the region that is blended, along an axis. */
  function BlendSize(cfg: TilingConfig, t: nat, size: int): int {
    size * cfg.scale - Offset(cfg, t)
  }

  predicate PlaceFits(width: nat, height: nat, cfg: TilingConfig, tx: nat, ty: nat, tile: Tile) {
    && tile.x == tx * (cfg.tileSize - cfg.overlap) && FitsInt(tile.x) && FitsInt(width - tile.x)
    && tile.y == ty * (cfg.tileSize - cfg.overlap) && FitsInt(tile.y) && FitsInt(height - tile.y)
    && (tx > 0 ==> FitsInt(tile.x + cfg.overlap)) && (ty > 0 ==> FitsInt(tile.y + cfg.overlap))
    && FitsInt(tile.outputX) && FitsInt(width * cfg.scale - tile.outputX)
    && FitsInt(tile.outputY) && FitsInt(height * cfg.scale - tile.outputY)
  }

  predicate SizesFit(width: nat, height: nat, cfg: TilingConfig, tx: nat, ty: nat, tile: Tile) {
    && FitsInt(tile.width * tile.height * 3)
    && FitsInt(tile.width * cfg.scale) && FitsInt(tile.height * cfg.scale)
    && FitsInt((tile.width * cfg.scale) * (tile.height * cfg.scale) * 3)
    && FitsInt(cfg.overlap * cfg.scale)
    && FitsInt(BlendSize(cfg, tx, tile.width) * 3) && FitsInt(BlendSize(cfg, ty, tile.height))
    && FitsInt(BlendSize(cfg, tx, tile.width) * BlendSize(cfg, ty, tile.height) * 3)
  }

  /** Row y of the tile: where it comes from and where it goes. */
  predicate SourceRowFits(width: nat, tile: Tile, y: nat) {
    && FitsInt(tile.y + y) && FitsInt(((tile.y + y) * width + tile.x) * 3)
    && FitsInt((y * tile.width) * 3) && FitsInt(Min(tile.width, width - tile.x) * 3)
  }

  /** A row of the region: where it comes from in the upscaled tile, and where it goes in both copies. */
  predicate BlendRowFits(height: nat, cfg: TilingConfig, tx: nat, ty: nat, tile: Tile, row: nat) {
    && FitsInt(((Offset(cfg, ty) + row) * (tile.width * cfg.scale) + Offset(cfg, tx)) * 3)
    && FitsInt(row * BlendSize(cfg, tx, tile.width) * 3)
    && FitsInt(tile.outputY + row) && tile.outputY + row < height * cfg.scale
  }

  lemma OutputSides(width: nat, height: nat, s: nat)
    requires 0 < width && 0 < height && 0 < s && 3 * ((width * s) * (height * s)) <= INT_MAX
    ensures width <= width * s <= INT_MAX && height <= height * s <= INT_MAX && s < 0x1_0000
  {
    Product(width, 1, width, s);
    Product(height, 1, height, s);
    Product(1, s, width, s);
    Product(1, s, height, s);
    Product(width * s, 1, width * s, height * s);
    Product(1, height * s, width * s, height * s);
    Product(s, s, width * s, height * s);
    if s >= 0x1_0000 {
      Product(0x1_0000, 0x1_0000, s, s);
    }
  }

  /** A position in a w x h rectangle that lies within a width x height one. */
  lemma PositionFits(x: nat, y: nat, w: nat, h: nat, width: nat, height: nat)
    requires x <= w <= width && y < h <= height
    ensures 0 <= y * w + x <= w * h <= width * height
  {
    Product(w, h, width, height);
    Product(w, y + 1, w, h);
    assert w * (y + 1) == y * w + w;
  }

  lemma Within(width: nat, height: nat, s: nat)
    requires 0 < s && 0 < width && 0 < height && 3 * ((width * s) * (height * s)) <= INT_MAX
    ensures 3 * (width * height) <= INT_MAX
  {
    OutputSides(width, height, s);
    Product(width, height, width * s, height * s);
  }

  lemma SourceRow(width: nat, height: nat, s: nat, tile: Tile, y: nat)
    requires 0 < s && 0 < width && 0 < height && 3 * ((width * s) * (height * s)) <= INT_MAX
    requires Inside(tile, width, height) && y < tile.height
    ensures SourceRowFits(width, tile, y)
  {
    OutputSides(width, height, s);
    Within(width, height, s);
    PositionFits(tile.x, tile.y + y, width, height, width, height);
    PositionFits(0, y, tile.width, tile.height, width, height);
    PositionFits(tile.width, 0, width, height, width, height);
  }

  /** Sizes of a tile and of the upscaled tile. */
  lemma BuffersFit(w: nat, h: nat, width: nat, height: nat, s: nat)
    requires 0 < s && 0 < width && 0 < height && 3 * ((width * s) * (height * s)) <= INT_MAX
    requires 0 < w <= width && 0 < h <= height
    ensures w * h * 3 <= INT_MAX
    ensures 0 < w * s <= width * s <= INT_MAX && 0 < h * s <= height * s <= INT_MAX
    ensures (w * s) * (h * s) * 3 <= INT_MAX
  {
    OutputSides(width, height, s);
    Within(width, height, s);
    Product(w, h, width, height);
    Product(w, s, width, s);
    Product(h, s, height, s);
    Product(w * s, h * s, width * s, height * s);
    Product(1, 1, w, s);
    Product(1, 1, h, s);
  }

  /** Sizes and positions in an upscaled tile of which a strip is trimmed off. */
  lemma TrimmedFits(upWidth: nat, upHeight: nat, offX: nat, offY: nat)
    requires 0 < upWidth && 0 < upHeight && upWidth * upHeight * 3 <= INT_MAX
    requires offX <= upWidth && offY <= upHeight
    ensures (upWidth - offX) * 3 <= INT_MAX && upHeight <= INT_MAX
    ensures 0 <= (upWidth - offX) * (upHeight - offY) * 3 <= INT_MAX
  {
    Product(upWidth - offX, upHeight - offY, upWidth, upHeight);
    Product(upWidth - offX, 1, upWidth, upHeight);
    Product(1, upHeight, upWidth, upHeight);
  }

  lemma TrimmedRowFits(upWidth: nat, upHeight: nat, offX: nat, offY: nat, row: nat)
    requires upWidth * upHeight * 3 <= INT_MAX && offX <= upWidth && offY + row < upHeight
    ensures 0 <= ((offY + row) * upWidth + offX) * 3 <= INT_MAX
    ensures 0 <= row * (upWidth - offX) * 3 <= INT_MAX
  {
    PositionFits(offX, offY + row, upWidth, upHeight, upWidth, upHeight);
    PositionFits(0, row, upWidth - offX, upHeight, upWidth, upHeight);
  }

  lemma TrimFits(size: nat, cfg: TilingConfig, t: nat)
    requires cfg.Valid() && (t > 0 ==> cfg.overlap < size)
    ensures 0 <= Offset(cfg, t) <= size * cfg.scale
  {
    if t > 0 { Product(cfg.overlap, cfg.scale, size, cfg.scale); }
  }

  lemma TileSizesFit(width: nat, height: nat, cfg: TilingConfig, tx: nat, ty: nat, tile: Tile)
    requires OutputCountable(width, height, cfg) && Inside(tile, width, height)
    requires (tx > 0 ==> cfg.overlap < tile.width) && (ty > 0 ==> cfg.overlap < tile.height)
    ensures SizesFit(width, height, cfg, tx, ty, tile)
  {
    hide OutputCountable, Offset;
    assert 3 * ((width * cfg.scale) * (height * cfg.scale)) <= INT_MAX && cfg.overlap == 32 && cfg.Valid()
      by { CountableMeans(width, height, cfg); }
    OutputSides(width, height, cfg.scale);
    BuffersFit(tile.width, tile.height, width, height, cfg.scale);
    TrimFits(tile.width, cfg, tx);
    TrimFits(tile.height, cfg, ty);
    TrimmedFits(tile.width * cfg.scale, tile.height * cfg.scale, Offset(cfg, tx), Offset(cfg, ty));
  }

  lemma CountableMeans(width: nat, height: nat, cfg: TilingConfig)
    requires OutputCountable(width, height, cfg)
    ensures cfg.Valid() && cfg.overlap == 32 && width > 0 && height > 0
    ensures 3 * ((width * cfg.scale) * (height * cfg.scale)) <= INT_MAX
  {
  }

  lemma BlendRow(width: nat, height: nat, cfg: TilingConfig, tx: nat, ty: nat, tile: Tile, row: nat)
    requires OutputCountable(width, height, cfg) && Inside(tile, width, height)
    requires (tx > 0 ==> cfg.overlap < tile.width) && (ty > 0 ==> cfg.overlap < tile.height)
    requires row < BlendSize(cfg, ty, tile.height)
    requires tile.outputY == (if ty > 0 then tile.y + cfg.overlap else 0) * cfg.scale && (ty == 0 ==> tile.y == 0)
    ensures BlendRowFits(height, cfg, tx, ty, tile, row)
  {
    hide OutputCountable;
    CountableMeans(width, height, cfg);
    BuffersFit(tile.width, tile.height, width, height, cfg.scale);
    TrimFits(tile.width, cfg, tx);
    TrimFits(tile.height, cfg, ty);
    TrimmedRowFits(tile.width * cfg.scale, tile.height * cfg.scale, Offset(cfg, tx), Offset(cfg, ty), row);
    RowInOutput(height, cfg, ty, tile, row);
  }

  lemma RowInOutput(height: nat, cfg: TilingConfig, ty: nat, tile: Tile, row: nat)
    requires cfg.Valid() && height * cfg.scale <= INT_MAX && HasSize(tile) && 0 <= tile.y
    requires tile.y + tile.height <= height && row < BlendSize(cfg, ty, tile.height)
    requires tile.outputY == (if ty > 0 then tile.y + cfg.overlap else 0) * cfg.scale && (ty == 0 ==> tile.y == 0)
    ensures FitsInt(tile.outputY + row) && tile.outputY + row < height * cfg.scale
  {
    var s := cfg.scale;
    Product(tile.y + tile.height, s, height, s);
    assert (tile.y + tile.height) * s == tile.y * s + tile.height * s;
    assert (tile.y + cfg.overlap) * s == tile.y * s + cfg.overlap * s;
  }
}
