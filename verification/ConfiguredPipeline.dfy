/** The image pipeline as the engine configures it: grid, padding, network and crop under every option. */
module ConfiguredPipeline {
  import opened Wrappers
  import opened Arith
  import opened FloatGrid
  import opened Pixels
  import opened Tiling
  import opened TilingProcessor
  import opened Assembly
  import opened Locality
  import opened UpscalerEngine
  import opened EngineConfig

  /** What the pipeline needs of an image of the configured scale: pixels, and sides the grid can count. */
  predicate Upscalable(source: Image) {
    source.Valid() && 0 < source.width <= TWO24 && 0 < source.height <= TWO24
  }

  /** What process_with_tiling does with a decoded image on an engine of that scale. */
  function Configured(net: Network, tileSizeOption: int, igpuProfile: bool, scale: nat, source: Image): Option<Image>
    requires 1 <= scale && Upscalable(source)
  {
    Upscaled(Process(net, scale), GetTilingConfig(tileSizeOption, igpuProfile, scale), source)
  }

  /** The result of the configured pipeline has the configured size, tiled or not. */
  lemma ConfiguredSize(net: Network, tileSizeOption: int, igpuProfile: bool, scale: nat, source: Image)
    requires 1 <= scale && ScalesBy(net, scale) && Upscalable(source)
    requires Configured(net, tileSizeOption, igpuProfile, scale, source).Some?
    ensures var out := Configured(net, tileSizeOption, igpuProfile, scale, source).value;
            out.Valid() && out.width == scale * source.width && out.height == scale * source.height
  {
    hide Times, Tiled, Process;
    var cfg := GetTilingConfig(tileSizeOption, igpuProfile, scale);
    ProcessScales(net, scale);
    TimesIsProduct(scale, source.width);
    TimesIsProduct(scale, source.height);
    if ShouldEnableTiling(source.width, source.height, cfg) {
      Product(1, 1, scale, source.width);
      Product(1, 1, scale, source.height);
      TiledPixel(Process(net, scale), cfg, source, 0, 0, 0);
    }
  }

  /**
   The pipeline under every option, profile and scale, for a network of that scale with a radius of at most
   18: its samples are those of processing the image as a whole for every image within the thresholds, and
   for larger ones outside the bands of `radius` source columns and rows before the seams.
   */
  lemma ConfiguredPipeline(net: Network, tileSizeOption: int, igpuProfile: bool, scale: nat, source: Image,
                           radius: nat, x: nat, y: nat, c: nat)
    requires 1 <= scale && ScalesBy(net, scale) && NetworkLocal(net, scale, radius) && radius <= 18
    requires Upscalable(source)
    requires x < scale * source.width && y < scale * source.height && c < 3
    requires Configured(net, tileSizeOption, igpuProfile, scale, source).Some? && Process(net, scale)(source).Some?
    requires var cfg := GetTilingConfig(tileSizeOption, igpuProfile, scale);
             || (source.width <= SideBound(tileSizeOption, igpuProfile)
                 && source.height <= SideBound(tileSizeOption, igpuProfile))
             || (!NearSeam(Quo(scale, x), source.width, cfg, radius)
                 && !NearSeam(Quo(scale, y), source.height, cfg, radius))
    ensures Px(Configured(net, tileSizeOption, igpuProfile, scale, source).value, x, y, c) ==
            Px(Process(net, scale)(source).value, x, y, c)
  {
    hide Px, Times, Quo, Tiled, Process, NearSeam;
    var cfg := GetTilingConfig(tileSizeOption, igpuProfile, scale);
    TimesIsProduct(scale, source.width);
    TimesIsProduct(scale, source.height);
    ThresholdDecides(Process(net, scale), cfg, source);
    if ShouldEnableTiling(source.width, source.height, cfg) {
      PipelineSeamBand(net, cfg, source, radius, x, y, c);
    }
  }
}
