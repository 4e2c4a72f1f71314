/**
 What can be seen of the tiling through the whole pipeline of padding, network and crop: exactly the seam
 bands of the network's radius.
 */
module PipelineSharpness {
  import opened Wrappers
  import opened Arith
  import opened Pixels
  import opened Tiling
  import opened TilingProcessor
  import opened Assembly
  import opened Locality
  import opened Padding
  import opened UpscalerEngine
  import opened EngineConfig
  import opened SeamSharpness

  /** Padding and crop do not show in a network that shifts by no more than the padding. */
  lemma ShiftThroughPadding(img: Image, s: nat, dx: nat, dy: nat)
    requires 0 < s && img.Valid() && img.width > 0 && img.height > 0
    requires dx <= UPSCALER_PADDING && dy <= UPSCALER_PADDING
    ensures Process(Shift(s, dx, dy), s)(img) == Shift(s, dx, dy)(img)
  {
    hide Px, Times, Quo, Rem, Shift, Process;
    var net := Shift(s, dx, dy);
    ShiftScales(s, dx, dy);
    ProcessScales(net, s);
    ShiftSucceeds(s, dx, dy, img);
    var piped, direct := Process(net, s)(img).value, net(img).value;
    forall x, y, c | 0 <= x < piped.width && 0 <= y < piped.height && 0 <= c < 3
      ensures Px(piped, x, y, c) == Px(direct, x, y, c)
    {
      Split(s, x);
      Split(s, y);
      assert x == Times(s, Quo(s, x)) + Rem(s, x) && y == Times(s, Quo(s, y)) + Rem(s, y);
      QuoBetween(s, x, 0, img.width);
      QuoBetween(s, y, 0, img.height);
      ShiftedPixel(img, s, dx, dy, Quo(s, x), Quo(s, y), Rem(s, x), Rem(s, y), c);
    }
    ImageExtensionality(piped, direct);
  }

  lemma ShiftedPixel(img: Image, s: nat, dx: nat, dy: nat, x: nat, y: nat, i: nat, j: nat, c: nat)
    requires 0 < s && img.Valid() && x < img.width && y < img.height && i < s && j < s && c < 3
    requires dx <= UPSCALER_PADDING && dy <= UPSCALER_PADDING
    ensures Px(Process(Shift(s, dx, dy), s)(img).value, Times(s, x) + i, Times(s, y) + j, c) ==
            Px(Shift(s, dx, dy)(img).value, Times(s, x) + i, Times(s, y) + j, c)
  {
    hide Px, Pad, Times, CropTo, Tabulate, Process, Shift;
    var p := UPSCALER_PADDING;
    ShiftScales(s, dx, dy);
    ShiftSucceeds(s, dx, dy, Pad(img, p));
    PadIsValid(img, p);
    CropShift(Shift(s, dx, dy), s, img, x, y, i, j, c);
    ShiftBlock(Pad(img, p), s, dx, dy, x + p, y + p, i, j, c);
    ShiftBlock(img, s, dx, dy, x, y, i, j, c);
    PadIsClamped(img, p, x + dx, y + dy, c);
  }

  lemma ShiftSucceeds(s: nat, dx: nat, dy: nat, img: Image)
    requires 0 < s
    ensures Shift(s, dx, dy)(img).Some? && Process(Shift(s, dx, dy), s)(img).Some?
  {
  }

  lemma ShiftIsNetworkLocal(s: nat, dx: nat, dy: nat, radius: nat)
    requires 0 < s && dx <= radius && dy <= radius
    ensures NetworkLocal(Shift(s, dx, dy), s, radius)
  {
    hide Shift;
    ShiftIsLocal(s, dx, dy, radius, radius);
  }

  /** The tile loop gives the same with and without padding and crop around the shifting network. */
  lemma ShiftTiledThroughPadding(cfg: TilingConfig, source: Image, dx: nat, dy: nat)
    requires cfg.Valid() && source.Valid() && source.width > 0 && source.height > 0
    requires Exact(source.width, cfg) && Exact(source.height, cfg)
    requires dx <= UPSCALER_PADDING && dy <= UPSCALER_PADDING
    ensures Tiled(Process(Shift(cfg.scale, dx, dy), cfg.scale), cfg, source) ==
            Tiled(Shift(cfg.scale, dx, dy), cfg, source)
  {
    hide Grid, Shift, Process, Extract, Assemble;
    var net := Shift(cfg.scale, dx, dy);
    var tiles := Grid(source.width, source.height, cfg);
    GridInside(source.width, source.height, cfg);
    forall i | 0 <= i < |tiles|
      ensures Process(net, cfg.scale)(CutOut(source, tiles)[i]) == net(CutOut(source, tiles)[i])
    {
      assert Inside(tiles[i], source.width, source.height);
      CutAt(source, tiles, i);
      ExtractSize(source, tiles[i]);
      ShiftThroughPadding(CutOut(source, tiles)[i], cfg.scale, dx, dy);
    }
    SameAssembly(Process(net, cfg.scale), net, cfg, source, tiles,
                 Black(Times(cfg.scale, source.width), Times(cfg.scale, source.height)));
  }

  /** Everything the pipeline theorem assumes of a network. */
  ghost predicate Suitable(net: Network, s: nat, radius: nat) {
    ScalesBy(net, s) && NetworkLocal(net, s, radius)
  }

  /** Tiled and direct runs of the pipeline around this network that succeed agree on a sample. */
  ghost predicate PipelineAgrees(net: Network, cfg: TilingConfig, source: Image, x: nat, y: nat, c: nat)
    requires cfg.Valid() && source.Valid() && source.width > 0 && source.height > 0
    requires Exact(source.width, cfg) && Exact(source.height, cfg)
  {
    var engine := Process(net, cfg.scale);
    Tiled(engine, cfg, source).Some? && engine(source).Some? ==>
      Px(Tiled(engine, cfg, source).value, x, y, c) == Px(engine(source).value, x, y, c)
  }

  /** No network of this radius and no image of this size shows a difference at a sample. */
  ghost predicate PipelineInvisible(cfg: TilingConfig, width: nat, height: nat, radius: nat, x: nat, y: nat, c: nat)
    requires cfg.Valid() && width > 0 && height > 0 && Exact(width, cfg) && Exact(height, cfg)
  {
    forall net: Network, source: Image ::
      source.Valid() && source.width == width && source.height == height && Suitable(net, cfg.scale, radius)
      ==> PipelineAgrees(net, cfg, source, x, y, c)
  }

  /**
   The exact condition for the whole pipeline, for every grid and every radius within the padding and the
   overlap: whatever the network does near its own borders, tiling is invisible at an output sample just when
   neither its source column nor its source row is one of the `radius` ones before a seam.
   */
  lemma PipelineInvisibleExactly(cfg: TilingConfig, width: nat, height: nat, radius: nat, x: nat, y: nat, c: nat)
    requires cfg.Valid() && width > 0 && height > 0 && Exact(width, cfg) && Exact(height, cfg)
    requires radius <= UPSCALER_PADDING && radius <= cfg.overlap
    requires x < Times(cfg.scale, width) && y < Times(cfg.scale, height) && c < 3
    ensures PipelineInvisible(cfg, width, height, radius, x, y, c) <==>
            !NearSeam(Quo(cfg.scale, x), width, cfg, radius) && !NearSeam(Quo(cfg.scale, y), height, cfg, radius)
  {
    hide Px, Times, Quo, Tiled, Process, StepImage, Shift;
    if t: nat :| Seam(t, cfg) - radius <= Quo(cfg.scale, x) < Seam(t, cfg) < width {
      ColumnBandIsSharp(cfg, width, height, t, radius, x, y, c);
      ShowsThrough(cfg, StepImage(width, height, Seam(t, cfg), 0), radius, 0, radius, x, y, c);
      StepSize(width, height, Seam(t, cfg), 0);
    } else if t: nat :| Seam(t, cfg) - radius <= Quo(cfg.scale, y) < Seam(t, cfg) < height {
      RowBandIsSharp(cfg, width, height, t, radius, x, y, c);
      ShowsThrough(cfg, StepImage(width, height, 0, Seam(t, cfg)), 0, radius, radius, x, y, c);
      StepSize(width, height, 0, Seam(t, cfg));
    } else {
      forall net: Network, source: Image |
        source.Valid() && source.width == width && source.height == height && Suitable(net, cfg.scale, radius)
        ensures PipelineAgrees(net, cfg, source, x, y, c)
      {
        if Tiled(Process(net, cfg.scale), cfg, source).Some? && Process(net, cfg.scale)(source).Some? {
          PipelineSeamBand(net, cfg, source, radius, x, y, c);
        }
      }
    }
  }

  /** A difference that the shifting engine shows, the pipeline around it as a network shows too. */
  lemma ShowsThrough(cfg: TilingConfig, source: Image, dx: nat, dy: nat, radius: nat, x: nat, y: nat, c: nat)
    requires cfg.Valid() && Tileable(Shift(cfg.scale, dx, dy), cfg, source)
    requires Differs(Shift(cfg.scale, dx, dy), cfg, source, x, y, c)
    requires dx <= radius && dy <= radius && radius <= UPSCALER_PADDING
    ensures Suitable(Shift(cfg.scale, dx, dy), cfg.scale, radius)
    ensures !PipelineAgrees(Shift(cfg.scale, dx, dy), cfg, source, x, y, c)
  {
    hide Px, Times, Tiled, Process, Shift, NetworkLocal;
    ShiftIsNetworkLocal(cfg.scale, dx, dy, radius);
    ShiftThroughPadding(source, cfg.scale, dx, dy);
    ShiftTiledThroughPadding(cfg, source, dx, dy);
  }
}
