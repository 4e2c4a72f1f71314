/**
 The tiling driver (tiling_processor.cpp): decide whether to tile, and if so extract, upscale, trim
 and blend the tiles one after the other. The engine is an arbitrary function of the image it is
 given that may fail, the codecs are arbitrary partial functions.
 */
module TilingProcessor {
  import opened Wrappers
  import opened Arith
  import opened Bytes
  import opened Pixels
  import opened Tiling

  /** process_rgb: an image, or a failure. */
  type Engine = Image -> Option<Image>

  /** The engine fills the buffer of the size it reports. */
  ghost predicate WellFormed(engine: Engine) {
    forall img :: engine(img).Some? ==> engine(img).value.Valid()
  }

  /** The part of an upscaled tile below and to the right of (offX, offY). */
  function Region(up: Image, offX: nat, offY: nat): Image
    requires offX <= up.width && offY <= up.height
  {
    Window(up, offX, offY, up.width - offX, up.height - offY)
  }

  /** The output after one more tile. */
  function BlendUpscaled(cfg: TilingConfig, tile: Tile, up: Image, output: Image): Image
    requires cfg.Valid()
  {
    var offX := if tile.outputX > 0 then Times(cfg.scale, cfg.overlap) else 0;
    var offY := if tile.outputY > 0 then Times(cfg.scale, cfg.overlap) else 0;
    if up.width <= offX || up.height <= offY then output
    else Blend(output, Region(up, offX, offY), tile.outputX, tile.outputY)
  }

  /** An upscaled tile of which nothing is left after trimming leaves the output as it was. */
  lemma SkipsEmptyRest(cfg: TilingConfig, tile: Tile, up: Image, output: Image)
    requires cfg.Valid()
    requires || (tile.outputX > 0 && up.width <= cfg.overlap * cfg.scale) || up.width == 0
             || (tile.outputY > 0 && up.height <= cfg.overlap * cfg.scale) || up.height == 0
    ensures BlendUpscaled(cfg, tile, up, output) == output
  {
    hide Times;
    TimesIsProduct(cfg.scale, cfg.overlap);
  }

  predicate HasSize(tile: Tile) {
    0 <= tile.width && 0 <= tile.height
  }

  predicate AllSized(tiles: seq<Tile>) {
    forall i :: 0 <= i < |tiles| ==> HasSize(tiles[i])
  }

  /** The output after all tiles of a list, or None as soon as the engine fails on one. */
  function Assemble(engine: Engine, cfg: TilingConfig, source: Image, tiles: seq<Tile>, output: Image): Option<Image>
    requires cfg.Valid() && AllSized(tiles)
  {
    if tiles == [] then Some(output) else
      match Assemble(engine, cfg, source, tiles[..|tiles| - 1], output)
      case None => None
      case Some(before) =>
        var tile := tiles[|tiles| - 1];
        assert HasSize(tile);
        match engine(Extract(source, tile))
        case None => None
        case Some(up) => Some(BlendUpscaled(cfg, tile, up, before))
  }

  function Black(width: nat, height: nat): Image {
    Tabulate(width, height, (x, y, c) => 0)
  }

  /** The result of the tile loop. */
  function Tiled(engine: Engine, cfg: TilingConfig, source: Image): Option<Image>
    requires cfg.Valid() && source.Valid() && source.width > 0 && source.height > 0
    requires Exact(source.width, cfg) && Exact(source.height, cfg)
  {
    GridInside(source.width, source.height, cfg);
    Assemble(engine, cfg, source, Grid(source.width, source.height, cfg),
             Black(Times(cfg.scale, source.width), Times(cfg.scale, source.height)))
  }

  /** The image that process_with_tiling hands to the encoder. */
  function Upscaled(engine: Engine, cfg: TilingConfig, source: Image): Option<Image>
    requires cfg.Valid() && source.Valid() && source.width > 0 && source.height > 0
    requires Exact(source.width, cfg) && Exact(source.height, cfg)
  {
    if ShouldEnableTiling(source.width, source.height, cfg) then Tiled(engine, cfg, source) else engine(source)
  }

  /** An image is tiled just when tiling is enabled and one of its sides is beyond its threshold. */
  lemma ThresholdDecides(engine: Engine, cfg: TilingConfig, source: Image)
    requires cfg.Valid() && source.Valid() && source.width > 0 && source.height > 0
    requires Exact(source.width, cfg) && Exact(source.height, cfg)
    ensures !cfg.enableTiling || (source.width <= cfg.thresholdWidth && source.height <= cfg.thresholdHeight) ==>
              Upscaled(engine, cfg, source) == engine(source)
    ensures cfg.enableTiling && (source.width > cfg.thresholdWidth || source.height > cfg.thresholdHeight) ==>
              Upscaled(engine, cfg, source) == Tiled(engine, cfg, source)
  {
  }

  // ---- The grid as a list ----

  /** A tile that lies inside a width x height source and overlaps it. */
  predicate Inside(tile: Tile, width: nat, height: nat) {
    && HasSize(tile)
    && 0 <= tile.x && 0 < tile.width && tile.x + tile.width <= width
    && 0 <= tile.y && 0 < tile.height && tile.y + tile.height <= height
    && 0 <= tile.outputX && 0 <= tile.outputY
  }

  predicate AllInside(tiles: seq<Tile>, width: nat, height: nat) {
    forall i :: 0 <= i < |tiles| ==> Inside(tiles[i], width, height)
  }

  lemma TileInside(width: nat, height: nat, cfg: TilingConfig, columns: nat, rows: nat, tx: nat, ty: nat)
    requires cfg.Valid() && width > 0 && height > 0 && Fits(width, cfg, columns) && Fits(height, cfg, rows)
    requires tx < columns && ty < rows
    ensures Inside(TileAt(width, height, cfg, tx, ty), width, height)
  {
    ContributionBounds(tx, width, cfg, columns);
    ContributionBounds(ty, height, cfg, rows);
  }

  lemma {:induction false} RowsInside(width: nat, height: nat, cfg: TilingConfig, columns: nat, rows: nat, r: nat)
    requires cfg.Valid() && width > 0 && height > 0 && Fits(width, cfg, columns) && Fits(height, cfg, rows)
    requires r <= rows
    ensures AllInside(TileRows(width, height, cfg, columns, r), width, height)
  {
    if r > 0 {
      RowsInside(width, height, cfg, columns, rows, r - 1);
      var row := TileRow(width, height, cfg, columns, r - 1);
      forall tx | 0 <= tx < |row|
        ensures Inside(row[tx], width, height)
      {
        TileInside(width, height, cfg, columns, rows, tx, r - 1);
      }
    }
  }

  /** Every tile lies inside the source; extraction is never clipped. */
  lemma GridInside(width: nat, height: nat, cfg: TilingConfig)
    requires cfg.Valid() && width > 0 && height > 0 && Exact(width, cfg) && Exact(height, cfg)
    ensures Grid(width, height, cfg) != []
    ensures AllInside(Grid(width, height, cfg), width, height) && AllSized(Grid(width, height, cfg))
  {
    var columns, rows := TilesAlong(width, cfg), TilesAlong(height, cfg);
    TilesAlongFits(width, cfg);
    TilesAlongFits(height, cfg);
    RowsInside(width, height, cfg, columns, rows, rows);
  }

  // ---- process_with_tiling ----

  /** The second half of the loop body: trim the strips owned by earlier tiles and blend the rest. */
  method BlendOverlapping(cfg: TilingConfig, tile: Tile, up: Image, output: array<Byte>,
                          outputWidth: nat, outputHeight: nat)
    requires cfg.Valid() && up.Valid() && output.Length == Area(outputWidth, outputHeight)
    requires 0 <= tile.outputX && 0 <= tile.outputY
    modifies output
    ensures output[..] ==
            BlendUpscaled(cfg, tile, up, Image(outputWidth, outputHeight, old(output[..]))).pixels
  {
    hide Times, Blend, Strips, StripsInBuffer;
    var overlapScaled := cfg.overlap * cfg.scale;
    TimesIsProduct(cfg.scale, cfg.overlap);
    var offX := if tile.outputX > 0 then overlapScaled else 0;
    var offY := if tile.outputY > 0 then overlapScaled else 0;
    var blendWidth, blendHeight := up.width - offX, up.height - offY;
    if blendWidth <= 0 || blendHeight <= 0 {
      return;
    }
    StripsAreWindow(up, offX, offY, blendWidth, blendHeight);
    var regionToBlend := CopyStrips(up, offX, offY, blendWidth, blendHeight);
    BlendTile(Image(blendWidth, blendHeight, regionToBlend[..]), tile, output, outputWidth, outputHeight);
  }

  method ProcessTiles(engine: Engine, cfg: TilingConfig, source: Image) returns (result: Option<Image>)
    requires cfg.Valid() && source.Valid() && source.width > 0 && source.height > 0
    requires Exact(source.width, cfg) && Exact(source.height, cfg)
    requires WellFormed(engine)
    ensures result == Tiled(engine, cfg, source)
  {
    hide Times, Tabulate, TilesAlong, TileRows, BlendUpscaled, Assemble, Extract;
    var tiles := CalculateTiles(source.width, source.height, cfg);
    GridInside(source.width, source.height, cfg);
    if |tiles| == 0 {
      assert false;
    }
    var outputWidth, outputHeight := source.width * cfg.scale, source.height * cfg.scale;
    TimesIsProduct(cfg.scale, source.width);
    TimesIsProduct(cfg.scale, source.height);
    var outputRgb := new Byte[Area(outputWidth, outputHeight)](_ => 0);
    ghost var black := Black(outputWidth, outputHeight);
    BlackIsZero(outputWidth, outputHeight);
    assert outputRgb[..] == black.pixels;
    assert tiles[..0] == [];
    NothingAssembled(engine, cfg, source, black);
    for i := 0 to |tiles|
      invariant outputRgb.Length == Area(outputWidth, outputHeight)
      invariant Assemble(engine, cfg, source, tiles[..i], black) ==
                Some(Image(outputWidth, outputHeight, outputRgb[..]))
    {
      var tile := tiles[i];
      assert Inside(tile, source.width, source.height);
      OneMoreAssembled(engine, cfg, source, tiles, i, black);
      ExtractFills(source, tile);
      var tileRgb := ExtractTile(source, tile);
      var upscaled := engine(Image(tile.width, tile.height, tileRgb[..]));
      if upscaled.None? {
        FailureIsFinal(engine, cfg, source, tiles, i + 1, black);
        return None;
      }
      BlendOverlapping(cfg, tile, upscaled.value, outputRgb, outputWidth, outputHeight);
    }
    assert tiles[..|tiles|] == tiles;
    result := Some(Image(outputWidth, outputHeight, outputRgb[..]));
  }

  lemma NothingAssembled(engine: Engine, cfg: TilingConfig, source: Image, output: Image)
    requires cfg.Valid()
    ensures Assemble(engine, cfg, source, [], output) == Some(output)
  {
  }

  lemma OneMoreAssembled(engine: Engine, cfg: TilingConfig, source: Image, tiles: seq<Tile>, i: nat, output: Image)
    requires cfg.Valid() && AllSized(tiles) && i < |tiles| && Assemble(engine, cfg, source, tiles[..i], output).Some?
    ensures HasSize(tiles[i])
    ensures var before := Assemble(engine, cfg, source, tiles[..i], output).value;
            var up := engine(Extract(source, tiles[i]));
            Assemble(engine, cfg, source, tiles[..i + 1], output) ==
            if up.None? then None else Some(BlendUpscaled(cfg, tiles[i], up.value, before))
    ensures var before := Assemble(engine, cfg, source, tiles[..i], output).value;
            var up := engine(Extract(source, tiles[i]));
            before.Valid() && up.Some? ==>
              var after := BlendUpscaled(cfg, tiles[i], up.value, before);
              after.Valid() && after.width == before.width && after.height == before.height
  {
    hide Times;
    assert tiles[..i + 1][..i] == tiles[..i] && tiles[..i + 1][i] == tiles[i];
  }

  lemma ExtractFills(source: Image, tile: Tile)
    requires HasSize(tile)
    ensures Extract(source, tile) == Image(tile.width, tile.height, Extract(source, tile).pixels)
  {
  }

  lemma BlackIsZero(width: nat, height: nat)
    ensures forall k :: 0 <= k < |Black(width, height).pixels| ==> Black(width, height).pixels[k] == 0
  {
  }

  lemma {:induction false} FailureIsFinal(engine: Engine, cfg: TilingConfig, source: Image, tiles: seq<Tile>,
                       i: nat, output: Image)
    requires cfg.Valid() && AllSized(tiles)
    requires i <= |tiles| && Assemble(engine, cfg, source, tiles[..i], output).None?
    ensures Assemble(engine, cfg, source, tiles, output).None?
    decreases |tiles| - i
  {
    if i < |tiles| {
      assert tiles[..i + 1][..i] == tiles[..i];
      FailureIsFinal(engine, cfg, source, tiles, i + 1, output);
    } else {
      assert tiles[..i] == tiles;
    }
  }

  type Decoder = seq<Byte> -> Option<Image>
  type Encoder = Image -> Option<seq<Byte>>

  /** Decoders deliver non-empty images that fill their buffer, of a size the grid can count exactly. */
  ghost predicate Decodes(decode: Decoder, cfg: TilingConfig) {
    forall data :: decode(data).Some? ==>
      var img := decode(data).value;
      img.Valid() && img.width > 0 && img.height > 0 && Exact(img.width, cfg) && Exact(img.height, cfg)
  }

  method ProcessWithTiling(engine: Engine, cfg: TilingConfig, decode: Decoder, encode: Encoder, input: seq<Byte>)
    returns (output: Option<seq<Byte>>)
    requires cfg.Valid() && WellFormed(engine) && Decodes(decode, cfg)
    ensures output ==
            if decode(input).None? then None
            else
              var source := decode(input).value;
              var large := source.width > cfg.thresholdWidth || source.height > cfg.thresholdHeight;
              var upscaled := if cfg.enableTiling && large then Tiled(engine, cfg, source) else engine(source);
              if upscaled.None? then None else encode(upscaled.value)
  {
    var decoded := decode(input);
    if decoded.None? {
      return None;
    }
    var source := decoded.value;
    var upscaled: Option<Image>;
    if ShouldEnableTiling(source.width, source.height, cfg) {
      upscaled := ProcessTiles(engine, cfg, source);
    } else {
      upscaled := engine(source);
    }
    if upscaled.None? {
      return None;
    }
    output := encode(upscaled.value);
  }
}
