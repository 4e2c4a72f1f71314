/**
 Cutting an image into overlapping tiles and putting upscaled tiles back (tiling.hpp, tiling.cpp).

 Along each axis the tiles are numbered from 0. Tile t covers the source interval
 [t * step, min(t * step + tileSize, n)) and contributes to the output all of it but its first
 `overlap` entries, which belong to tile t - 1; tile 0 contributes everything.
 */
module Tiling {
  import opened Arith
  import opened Bytes
  import opened Pixels
  import opened FloatGrid

  datatype TilingConfig = TilingConfig(
    tileSize: int, overlap: int, scale: int,
    enableTiling: bool, thresholdWidth: int, thresholdHeight: int)
  {
    /** What the divisions and the output buffer of the program need. */
    predicate Valid() {
      0 <= overlap < tileSize && 1 <= scale
    }

    function Step(): nat
      requires Valid()
    {
      tileSize - overlap
    }
  }

  datatype Tile = Tile(x: int, y: int, width: int, height: int, outputX: int, outputY: int)

  predicate ShouldEnableTiling(width: int, height: int, cfg: TilingConfig) {
    cfg.enableTiling && (width > cfg.thresholdWidth || height > cfg.thresholdHeight)
  }

  // ---- The grid along one axis ----

  /** Number of tiles along an axis of length n, through the program's float computation. */
  function TilesAlong(n: nat, cfg: TilingConfig): (k: nat)
    requires cfg.Valid()
    ensures k >= 1
  {
    Max(1, FloatCeilDiv(Max(0, n - cfg.overlap), cfg.Step()))
  }

  function TileBegin(t: nat, cfg: TilingConfig): nat
    requires cfg.Valid()
  {
    Times(cfg.Step(), t)
  }

  /** First source coordinate that tile t contributes. */
  function Begin(t: nat, cfg: TilingConfig): nat
    requires cfg.Valid()
  {
    if t == 0 then 0 else TileBegin(t, cfg) + cfg.overlap
  }

  /** One past the last source coordinate that tile t covers and contributes. */
  function End(t: nat, n: nat, cfg: TilingConfig): int
    requires cfg.Valid()
  {
    Min(TileBegin(t, cfg) + cfg.tileSize, n)
  }

  /** The tile that contributes source coordinate x. */
  function Owner(x: nat, cfg: TilingConfig): nat
    requires cfg.Valid()
  {
    if x < cfg.tileSize then 0 else Quo(cfg.Step(), x - cfg.overlap)
  }

  /** Lengths for which the float computation of the tile count is exact. */
  predicate Exact(n: nat, cfg: TilingConfig) {
    n - cfg.overlap <= TWO24
  }

  /** k is the least tile count, at least 1, whose tiles cover an axis of length n. */
  predicate Fits(n: nat, cfg: TilingConfig, k: nat)
    requires cfg.Valid()
  {
    && 1 <= k
    && n <= TileBegin(k, cfg) + cfg.overlap
    && (1 < k ==> TileBegin(k - 1, cfg) + cfg.overlap < n)
  }

  /** The float computation finds the least count that covers the axis. */
  lemma TilesAlongFits(n: nat, cfg: TilingConfig)
    requires cfg.Valid() && Exact(n, cfg)
    ensures Fits(n, cfg, TilesAlong(n, cfg))
  {
    var a, step := Max(0, n - cfg.overlap), cfg.Step();
    var k := CeilDiv(a, step);
    FloatCeilDivExact(a, step);
    CeilDivBounds(a, step);
    TimesIsProduct(step, k);
    if k == 0 {
      TimesMonotone(step, 0, 1);
    } else {
      TimesIsProduct(step, k - 1);
    }
  }

  /** Only one count fits an axis. */
  lemma FitsUnique(n: nat, cfg: TilingConfig, k: nat, k': nat)
    requires cfg.Valid() && Fits(n, cfg, k) && Fits(n, cfg, k')
    ensures k == k'
  {
    if k < k' {
      TimesMonotone(cfg.Step(), k, k' - 1);
    } else if k' < k {
      TimesMonotone(cfg.Step(), k', k - 1);
    }
  }

  /** Contributions are non-empty, adjacent and reach the end; all tiles but the last have full size. */
  lemma ContributionBounds(t: nat, n: nat, cfg: TilingConfig, k: nat)
    requires cfg.Valid() && Fits(n, cfg, k) && n > 0 && t < k
    ensures TileBegin(t, cfg) <= Begin(t, cfg) < End(t, n, cfg)
    ensures t < k - 1 ==> End(t, n, cfg) == Begin(t + 1, cfg) == TileBegin(t, cfg) + cfg.tileSize < n
    ensures t == k - 1 ==> End(t, n, cfg) == n
  {
    assert TileBegin(t + 1, cfg) == TileBegin(t, cfg) + cfg.Step();
    if t < k - 1 {
      TimesMonotone(cfg.Step(), t + 1, k - 1);
    }
  }

  /**
   The contributions partition the axis: coordinate x lies in the contribution of exactly one tile,
   its owner; each contribution is non-empty and ends where the next one begins, the last one at n.
   */
  lemma AxisPartition(n: nat, cfg: TilingConfig, k: nat)
    requires cfg.Valid() && Fits(n, cfg, k) && n > 0
    ensures Begin(0, cfg) == 0 && End(k - 1, n, cfg) == n
    ensures forall t :: 0 <= t < k ==> Begin(t, cfg) < End(t, n, cfg)
    ensures forall t :: 0 <= t < k - 1 ==>
              End(t, n, cfg) == Begin(t + 1, cfg) == TileBegin(t, cfg) + cfg.tileSize
    ensures forall x, t :: 0 <= x < n && 0 <= t < k ==>
              (Begin(t, cfg) <= x < End(t, n, cfg) <==> t == Owner(x, cfg))
    ensures forall x :: 0 <= x < n ==> Owner(x, cfg) < k
  {
    ContributionBounds(k - 1, n, cfg, k);
    forall t | 0 <= t < k
      ensures Begin(t, cfg) < End(t, n, cfg)
      ensures t < k - 1 ==> End(t, n, cfg) == Begin(t + 1, cfg) == TileBegin(t, cfg) + cfg.tileSize
    {
      ContributionBounds(t, n, cfg, k);
    }
    forall x | 0 <= x < n
      ensures Owner(x, cfg) < k
      ensures forall t :: 0 <= t < k ==> (Begin(t, cfg) <= x < End(t, n, cfg) <==> t == Owner(x, cfg))
    {
      OwnerInGrid(x, n, cfg, k);
      forall t | 0 <= t < k
        ensures Begin(t, cfg) <= x < End(t, n, cfg) <==> t == Owner(x, cfg)
      {
        OwnerContributes(x, t, n, cfg);
      }
    }
  }

  lemma OwnerInGrid(x: nat, n: nat, cfg: TilingConfig, k: nat)
    requires cfg.Valid() && Fits(n, cfg, k) && x < n
    ensures Owner(x, cfg) < k
  {
    if x >= cfg.tileSize {
      QuoBetween(cfg.Step(), x - cfg.overlap, 0, k);
    }
  }

  lemma OwnerContributes(x: nat, t: nat, n: nat, cfg: TilingConfig)
    requires cfg.Valid() && x < n
    ensures Begin(t, cfg) <= x < End(t, n, cfg) <==> t == Owner(x, cfg)
  {
    var step := cfg.Step();
    assert TileBegin(t + 1, cfg) == TileBegin(t, cfg) + step;
    if x >= cfg.tileSize {
      QuoBetween(step, x - cfg.overlap, t, t + 1);
      QuoBetween(step, x - cfg.overlap, 1, 1);
    } else if t > 0 {
      TimesMonotone(step, 1, t);
    }
  }

  // ---- calculate_tiles ----

  /** The tile in column tx and row ty of the grid. */
  function TileAt(width: nat, height: nat, cfg: TilingConfig, tx: nat, ty: nat): Tile
    requires cfg.Valid()
  {
    Tile(TileBegin(tx, cfg), TileBegin(ty, cfg),
         End(tx, width, cfg) - TileBegin(tx, cfg), End(ty, height, cfg) - TileBegin(ty, cfg),
         Times(cfg.scale, Begin(tx, cfg)), Times(cfg.scale, Begin(ty, cfg)))
  }

  function TileRow(width: nat, height: nat, cfg: TilingConfig, columns: nat, ty: nat): (row: seq<Tile>)
    requires cfg.Valid()
    ensures |row| == columns
  {
    seq(columns, tx requires 0 <= tx => TileAt(width, height, cfg, tx, ty))
  }

  /** The first `rows` rows of a grid with the given columns, row by row and from left to right. */
  function TileRows(width: nat, height: nat, cfg: TilingConfig, columns: nat, rows: nat): seq<Tile>
    requires cfg.Valid()
  {
    if rows == 0 then []
    else TileRows(width, height, cfg, columns, rows - 1) + TileRow(width, height, cfg, columns, rows - 1)
  }

  function Grid(width: nat, height: nat, cfg: TilingConfig): seq<Tile>
    requires cfg.Valid()
  {
    TileRows(width, height, cfg, TilesAlong(width, cfg), TilesAlong(height, cfg))
  }

  /** The grid is in reading order: tile (tx, ty) is at position ty * columns + tx. */
  lemma {:induction false} GridInOrder(width: nat, height: nat, cfg: TilingConfig, columns: nat, rows: nat,
                                       tx: nat, ty: nat)
    requires cfg.Valid()
    ensures |TileRows(width, height, cfg, columns, rows)| == Times(columns, rows)
    ensures tx < columns && ty < rows ==>
              && Times(columns, ty) + tx < Times(columns, rows)
              && TileRows(width, height, cfg, columns, rows)[Times(columns, ty) + tx] ==
                 TileAt(width, height, cfg, tx, ty)
    decreases rows
  {
    hide TileAt;
    if rows > 0 {
      GridInOrder(width, height, cfg, columns, rows - 1, tx, ty);
      if tx < columns && ty < rows {
        TimesMonotone(columns, ty, rows);
      }
    }
  }

  /** The products of the program are the coordinates of the grid. */
  lemma ComputedPosition(cfg: TilingConfig, t: nat)
    requires cfg.Valid()
    ensures t * (cfg.tileSize - cfg.overlap) == TileBegin(t, cfg)
    ensures Begin(t, cfg) * cfg.scale == Times(cfg.scale, Begin(t, cfg))
  {
    TimesIsProduct(cfg.Step(), t);
    TimesIsProduct(cfg.scale, Begin(t, cfg));
  }

  method CalculateTiles(width: nat, height: nat, cfg: TilingConfig) returns (tiles: seq<Tile>)
    requires cfg.Valid()
    ensures tiles == Grid(width, height, cfg)
  {
    hide FloatCeilDiv, Times;
    tiles := [];
    var tileStep := cfg.tileSize - cfg.overlap;
    var tilesX := Max(1, FloatCeilDiv(Max(0, width - cfg.overlap), tileStep));
    var tilesY := Max(1, FloatCeilDiv(Max(0, height - cfg.overlap), tileStep));
    for ty := 0 to tilesY
      invariant tiles == TileRows(width, height, cfg, tilesX, ty)
    {
      for tx := 0 to tilesX
        invariant tiles == TileRows(width, height, cfg, tilesX, ty) + TileRow(width, height, cfg, tx, ty)
      {
        var x, y := tx * tileStep, ty * tileStep;
        var effectiveX := if tx == 0 then 0 else x + cfg.overlap;
        var effectiveY := if ty == 0 then 0 else y + cfg.overlap;
        var tile := Tile(x, y,
                         Min(cfg.tileSize, width - x), Min(cfg.tileSize, height - y),
                         effectiveX * cfg.scale, effectiveY * cfg.scale);
        ComputedPosition(cfg, tx);
        ComputedPosition(cfg, ty);
        assert tile == TileAt(width, height, cfg, tx, ty);
        tiles := tiles + [tile];
      }
    }
  }

  // ---- extract_tile ----

  function ExtractSample(source: Image, tile: Tile): (int, int, int) -> Byte {
    (x, y, c) => Px(source, tile.x + x, tile.y + y, c)
  }

  /** A tile buffer: the source samples under the tile, and zero where the tile leaves the source. */
  function Extract(source: Image, tile: Tile): Image
    requires 0 <= tile.width && 0 <= tile.height
  {
    Tabulate(tile.width, tile.height, ExtractSample(source, tile))
  }

  lemma ExtractByte(source: Image, tile: Tile, y: nat, u: nat)
    requires 0 <= tile.width && y < tile.height && u < 3 * tile.width
    ensures Row(tile.width, y) + u < |Extract(source, tile).pixels|
    ensures Extract(source, tile).pixels[Row(tile.width, y) + u] ==
            Px(source, tile.x + u / 3, tile.y + y, u % 3)
  {
    var f := ExtractSample(source, tile);
    TabulateRow(tile.width, tile.height, f, y, u);
    assert f(u / 3, y, u % 3) == Px(source, tile.x + u / 3, tile.y + y, u % 3);
  }

  method ExtractTile(source: Image, tile: Tile) returns (data: array<Byte>)
    requires source.Valid()
    requires 0 <= tile.x <= source.width && 0 <= tile.y && 0 <= tile.width && 0 <= tile.height
    ensures fresh(data) && data[..] == Extract(source, tile).pixels
  {
    var want := Extract(source, tile);
    data := new Byte[Area(tile.width, tile.height)](_ => 0);
    var y := 0;
    while y < tile.height
      invariant 0 <= y <= tile.height
      invariant data.Length == |want.pixels| && fresh(data)
      invariant forall k :: 0 <= k < data.Length && k < Row(tile.width, y) ==> data[k] == want.pixels[k]
      invariant forall k :: Row(tile.width, y) <= k < data.Length ==> data[k] == 0
    {
      var sourceY := tile.y + y;
      if sourceY >= source.height { break; }
      var copyWidth := Min(tile.width, source.width - tile.x);
      RowMonotone(source.width, sourceY, source.height - 1);
      RowMonotone(source.width, source.height - 1, source.height);
      RowMonotone(tile.width, y, tile.height);
      RowMonotone(tile.width, y, y + 1);
      CopyBytes(data, Row(tile.width, y), source.pixels, At(source.width, tile.x, sourceY, 0), copyWidth * 3);
      forall k | Row(tile.width, y) <= k < Row(tile.width, y + 1)
        ensures data[k] == want.pixels[k]
      {
        ExtractRowByte(source, tile, y, k - Row(tile.width, y));
      }
      y := y + 1;
    }
    ExtractBelow(source, tile, y);
    assert data[..] == want.pixels;
  }

  /** A byte of a row of the extracted tile, as a byte of a row of the source. */
  lemma ExtractRowByte(source: Image, tile: Tile, y: nat, u: nat)
    requires source.Valid() && 0 <= tile.x <= source.width && 0 <= tile.y
    requires y < tile.height && u < 3 * tile.width && tile.y + y < source.height
    ensures var k, i := Row(tile.width, y) + u, At(source.width, tile.x, tile.y + y, 0) + u;
            && k < |Extract(source, tile).pixels|
            && (u < 3 * (source.width - tile.x) ==> i < |source.pixels|)
            && Extract(source, tile).pixels[k] == if u < 3 * (source.width - tile.x) then source.pixels[i] else 0
  {
    RowMonotone(source.width, tile.y + y, source.height);
    ExtractByte(source, tile, y, u);
  }

  /** Rows below the source stay zero. */
  lemma ExtractBelow(source: Image, tile: Tile, from: nat)
    requires 0 <= tile.width && 0 <= tile.height && 0 <= tile.y
    requires from >= tile.height || tile.y + from >= source.height
    ensures forall k :: Row(tile.width, from) <= k < |Extract(source, tile).pixels| ==>
              Extract(source, tile).pixels[k] == 0
  {
    forall k | Row(tile.width, from) <= k < |Extract(source, tile).pixels|
      ensures Extract(source, tile).pixels[k] == 0
    {
      OffsetInRow(tile.width, tile.height, k);
      var y, u := Quo(3 * tile.width, k), Rem(3 * tile.width, k);
      QuoBetween(3 * tile.width, k, from, from);
      ExtractByte(source, tile, y, u);
    }
  }

  /** The width x height part of an image at (left, top). */
  function Window(image: Image, left: nat, top: nat, width: nat, height: nat): Image {
    Extract(image, Tile(left, top, width, height, 0, 0))
  }

  function StripSample(image: Image, left: nat, top: nat): (int, int, int) -> Byte {
    (x: int, y: int, c: int) =>
      var k := if 0 <= x && 0 <= y && 0 <= c then At(image.width, left + x, top + y, c) else 0;
      var sample: Byte := if k < |image.pixels| then image.pixels[k] else 0;
      sample
  }

  /**
   `height` strips of the buffer, the first one at pixel (left, top) and each one row further on. When
   the strips reach beyond the end of a row they go on in the next one.
   */
  function Strips(image: Image, left: nat, top: nat, width: nat, height: nat): Image {
    Tabulate(width, height, StripSample(image, left, top))
  }

  /** Strip number `row` lies in the buffer. */
  predicate StripInBuffer(image: Image, left: nat, top: nat, width: nat, row: nat) {
    At(image.width, left, top + row, 0) + 3 * width <= |image.pixels|
  }

  /** Every strip lies in the buffer. */
  predicate StripsInBuffer(image: Image, left: nat, top: nat, width: nat, height: nat) {
    forall row :: 0 <= row < height ==> StripInBuffer(image, left, top, width, row)
  }

  /** The row-by-row memcpy with which upscaled tiles are trimmed and upscaled images are cropped. */
  method CopyStrips(image: Image, left: nat, top: nat, width: nat, height: nat) returns (region: array<Byte>)
    requires StripsInBuffer(image, left, top, width, height)
    ensures fresh(region) && region[..] == Strips(image, left, top, width, height).pixels
  {
    hide Times;
    ghost var want := Strips(image, left, top, width, height);
    region := new Byte[Area(width, height)](_ => 0);
    RowIsProduct(width, 0, 0);
    for row := 0 to height
      invariant region.Length == |want.pixels| && fresh(region)
      invariant forall k :: 0 <= k < region.Length && k < Row(width, row) ==> region[k] == want.pixels[k]
    {
      var from := At(image.width, left, top + row, 0);
      assert StripInBuffer(image, left, top, width, row);
      RowMonotone(width, row, row + 1);
      RowMonotone(width, row + 1, height);
      NextRow(width, row);
      CopyBytes(region, Row(width, row), image.pixels, from, width * 3);
      forall k | Row(width, row) <= k < Row(width, row + 1)
        ensures region[k] == want.pixels[k]
      {
        StripByte(image, left, top, width, height, row, k - Row(width, row));
      }
    }
    assert region[..] == want.pixels;
  }

  lemma NextRow(width: nat, row: nat)
    ensures Row(width, row + 1) == Row(width, row) + 3 * width
  {
  }

  lemma StripByte(image: Image, left: nat, top: nat, width: nat, height: nat, y: nat, u: nat)
    requires StripsInBuffer(image, left, top, width, height) && y < height && u < 3 * width
    ensures var k, i := Row(width, y) + u, At(image.width, left, top + y, 0) + u;
            && k < |Strips(image, left, top, width, height).pixels| && i < |image.pixels|
            && Strips(image, left, top, width, height).pixels[k] == image.pixels[i]
  {
    var f := StripSample(image, left, top);
    TabulateRow(width, height, f, y, u);
    assert StripInBuffer(image, left, top, width, y);
    assert At(image.width, left + u / 3, top + y, u % 3) == At(image.width, left, top + y, 0) + u;
  }

  /** Strips that stay within the columns and the rows of the image are a window of it. */
  lemma StripsAreWindow(image: Image, left: nat, top: nat, width: nat, height: nat)
    requires image.Valid() && left + width <= image.width && top + height <= image.height
    ensures StripsInBuffer(image, left, top, width, height)
    ensures Strips(image, left, top, width, height) == Window(image, left, top, width, height)
  {
    forall row | 0 <= row < height
      ensures StripInBuffer(image, left, top, width, row)
    {
      RowMonotone(image.width, top + row, image.height);
    }
    var strips, window := Strips(image, left, top, width, height), Window(image, left, top, width, height);
    forall k | 0 <= k < |strips.pixels|
      ensures strips.pixels[k] == window.pixels[k]
    {
      OffsetInRow(width, height, k);
      var y, u := Quo(3 * width, k), Rem(3 * width, k);
      StripByte(image, left, top, width, height, y, u);
      ExtractRowByte(image, Tile(left, top, width, height, 0, 0), y, u);
    }
    assert strips.pixels == window.pixels;
  }

  // ---- blend_tile ----

  function BlendSample(output: Image, region: Image, left: int, top: int): (int, int, int) -> Byte {
    (x: int, y: int, c: int) =>
      var sample: Byte :=
        if left <= x < left + region.width && top <= y < top + region.height
        then Px(region, x - left, y - top, c)
        else Px(output, x, y, c);
      sample
  }

  /** The output with the region copied in at (left, top), clipped at the right and the bottom. */
  function Blend(output: Image, region: Image, left: int, top: int): Image {
    Tabulate(output.width, output.height, BlendSample(output, region, left, top))
  }

  lemma BlendByte(output: Image, region: Image, left: int, top: int, y: nat, u: nat)
    requires y < output.height && u < 3 * output.width
    ensures Row(output.width, y) + u < |Blend(output, region, left, top).pixels|
    ensures Blend(output, region, left, top).pixels[Row(output.width, y) + u] ==
            if left <= u / 3 < left + region.width && top <= y < top + region.height
            then Px(region, u / 3 - left, y - top, u % 3)
            else Px(output, u / 3, y, u % 3)
  {
    var f := BlendSample(output, region, left, top);
    TabulateRow(output.width, output.height, f, y, u);
    assert f(u / 3, y, u % 3) ==
           if left <= u / 3 < left + region.width && top <= y < top + region.height
           then Px(region, u / 3 - left, y - top, u % 3)
           else Px(output, u / 3, y, u % 3);
  }

  method BlendTile(region: Image, tile: Tile, output: array<Byte>, outputWidth: nat, outputHeight: nat)
    requires region.Valid() && output.Length == Area(outputWidth, outputHeight)
    requires 0 <= tile.outputX && 0 <= tile.outputY
    modifies output
    ensures output[..] ==
            Blend(Image(outputWidth, outputHeight, old(output[..])), region, tile.outputX, tile.outputY).pixels
  {
    hide Tabulate, Px;
    ghost var before := Image(outputWidth, outputHeight, output[..]);
    ghost var want := Blend(before, region, tile.outputX, tile.outputY);
    var copyWidth := Max(0, Min(region.width, outputWidth - tile.outputX));
    var maxRows := Max(0, Min(region.height, outputHeight - tile.outputY));
    if copyWidth == 0 || maxRows == 0 {
      BlendOutside(before, region, tile.outputX, tile.outputY, 0, |want.pixels|);
      assert output[..] == want.pixels;
      return;
    }
    RowMonotone(outputWidth, tile.outputY, outputHeight);
    BlendOutside(before, region, tile.outputX, tile.outputY, 0, Row(outputWidth, tile.outputY));
    for y := 0 to maxRows
      invariant forall k :: 0 <= k < output.Length && k < Row(outputWidth, tile.outputY + y) ==>
                  output[k] == want.pixels[k]
      invariant forall k :: Row(outputWidth, tile.outputY + y) <= k < output.Length ==>
                  output[k] == before.pixels[k]
    {
      var start := Row(outputWidth, tile.outputY + y);
      RowMonotone(region.width, y, region.height);
      RowMonotone(outputWidth, tile.outputY + y, outputHeight);
      CopyBytes(output, start + 3 * tile.outputX, region.pixels, Row(region.width, y), copyWidth * 3);
      forall k | start <= k < Row(outputWidth, tile.outputY + y + 1)
        ensures output[k] == want.pixels[k]
      {
        BlendRowByte(before, region, tile.outputX, tile.outputY, y, k - start);
      }
    }
    BlendOutside(before, region, tile.outputX, tile.outputY,
                 Row(outputWidth, tile.outputY + maxRows), |want.pixels|);
    assert output[..] == want.pixels;
  }

  /** A byte of a row of the blended output, as a byte of a row of the region or of the output. */
  lemma BlendRowByte(output: Image, region: Image, left: nat, top: nat, y: nat, u: nat)
    requires output.Valid() && region.Valid()
    requires y < region.height && top + y < output.height && u < 3 * output.width
    ensures var k, i := Row(output.width, top + y) + u, Row(region.width, y) + u - 3 * left;
            && k < |output.pixels|
            && (3 * left <= u < 3 * (left + region.width) ==> i < |region.pixels|)
            && Blend(output, region, left, top).pixels[k] ==
               if 3 * left <= u < 3 * (left + region.width) then region.pixels[i] else output.pixels[k]
  {
    RowMonotone(output.width, top + y, output.height);
    RowMonotone(region.width, y, region.height);
    BlendByte(output, region, left, top, top + y, u);
  }

  /** Bytes of rows that the region does not reach are kept. */
  lemma BlendOutside(output: Image, region: Image, left: nat, top: nat, from: nat, to: nat)
    requires output.Valid() && region.Valid() && to <= |output.pixels|
    requires
      || left >= output.width || region.width == 0 || region.height == 0 || top >= output.height
      || to <= Row(output.width, top)
      || from >= Row(output.width, Min(top + region.height, output.height))
    ensures forall k :: from <= k < to ==> Blend(output, region, left, top).pixels[k] == output.pixels[k]
  {
    forall k | from <= k < to
      ensures Blend(output, region, left, top).pixels[k] == output.pixels[k]
    {
      OffsetInRow(output.width, output.height, k);
      var y, u := Quo(3 * output.width, k), Rem(3 * output.width, k);
      QuoBetween(3 * output.width, k, Min(top + region.height, output.height), top);
      BlendByte(output, region, left, top, y, u);
    }
  }
}
