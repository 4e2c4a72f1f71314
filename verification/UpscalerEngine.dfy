/**
 The image path of the engine (ncnn_upscaler_engine.cpp): pad, run the network, crop. The network is
 an arbitrary function of the padded image that may fail.
 */
module UpscalerEngine {
  import opened Wrappers
  import opened Arith
  import opened Pixels
  import opened Tiling
  import opened TilingProcessor
  import opened Assembly
  import opened Locality
  import opened Padding

  /** The inference call: same shape as an engine, but without the padding around it. */
  type Network = Engine

  predicate NeedsCrop(full: Image, width: nat, height: nat) {
    full.width > width || full.height > height
  }

  /** Where the crop begins along an axis. */
  function CropStart(fullSize: nat, size: nat, s: nat): nat {
    Min(Times(s, UPSCALER_PADDING), Max(0, fullSize - size))
  }

  /** The crop of process_image, from a full_width x full_height result to the wanted size. */
  function CropTo(full: Image, width: nat, height: nat, s: nat): Image {
    if NeedsCrop(full, width, height) then
      Strips(full, CropStart(full.width, width, s), CropStart(full.height, height, s), width, height)
    else full
  }

  /** The row copies of the crop read only the network's result. */
  predicate CropReadsBuffer(full: Image, width: nat, height: nat, s: nat) {
    NeedsCrop(full, width, height) ==>
      StripsInBuffer(full, CropStart(full.width, width, s), CropStart(full.height, height, s), width, height)
  }

  /** The crop cuts a rectangle out of the network's result. */
  predicate CropInside(full: Image, width: nat, height: nat, s: nat) {
    NeedsCrop(full, width, height) ==>
      && CropStart(full.width, width, s) + width <= full.width
      && CropStart(full.height, height, s) + height <= full.height
  }

  /** process_image, and process_rgb around it. */
  function Process(net: Network, s: nat): Engine {
    (img: Image) =>
      match net(Pad(img, UPSCALER_PADDING))
      case None => None
      case Some(full) => Some(CropTo(full, Times(s, img.width), Times(s, img.height), s))
  }

  /** The network fills the buffer of the size it reports, and the crop stays within it. */
  predicate Croppable(net: Network, s: nat, img: Image) {
    var result := net(Pad(img, UPSCALER_PADDING));
    result.Some? ==>
      result.value.Valid() && CropReadsBuffer(result.value, Times(s, img.width), Times(s, img.height), s)
  }

  method ProcessImage(net: Network, s: nat, decoded: Image) returns (result: Option<Image>)
    requires decoded.Valid() && Croppable(net, s, decoded)
    ensures result == Process(net, s)(decoded)
  {
    hide Tabulate, StripsInBuffer;
    var paddedInput := PadImage(decoded, UPSCALER_PADDING);
    var inferred := net(paddedInput);
    if inferred.None? {
      return None;
    }
    var full := inferred.value;
    TimesIsProduct(s, decoded.width);
    TimesIsProduct(s, decoded.height);
    TimesIsProduct(s, UPSCALER_PADDING);
    var desiredWidth, desiredHeight := decoded.width * s, decoded.height * s;
    if full.width > desiredWidth || full.height > desiredHeight {
      var padPixels := UPSCALER_PADDING * s;
      var startX := Min(padPixels, Max(0, full.width - desiredWidth));
      var startY := Min(padPixels, Max(0, full.height - desiredHeight));
      var finalPixels := CopyStrips(full, startX, startY, desiredWidth, desiredHeight);
      result := Some(Image(desiredWidth, desiredHeight, finalPixels[..]));
    } else {
      result := Some(full);
    }
  }

  // ---- When the crop stays within the network's result ----

  /**
   The crop cuts out a rectangle just when the network's result is at least as large as wanted on both
   sides, or on neither side larger.
   */
  lemma CropInsideExactly(full: Image, width: nat, height: nat, s: nat)
    ensures CropInside(full, width, height, s) <==>
            || (width <= full.width && height <= full.height)
            || (full.width <= width && full.height <= height)
  {
    TimesMonotone(s, 0, UPSCALER_PADDING);
  }

  /**
   The row copies read only the buffer just when the crop cuts out a rectangle or, with strips wider than
   the result, enough rows are left below the last strip for it to run on into.
   */
  lemma CropReadsExactly(full: Image, width: nat, height: nat, s: nat)
    requires full.Valid() && 0 < width && 0 < height
    ensures CropReadsBuffer(full, width, height, s) <==>
            || CropInside(full, width, height, s)
            || (height < full.height
                && width <= full.width * (full.height - height - CropStart(full.height, height, s) + 1))
  {
    hide Times, StripsInBuffer, Strips, Window, CropStart;
    var startX, startY := CropStart(full.width, width, s), CropStart(full.height, height, s);
    CropStartBounds(full.width, width, s);
    CropStartBounds(full.height, height, s);
    if NeedsCrop(full, width, height) {
      LastStripReaches(full, startX, startY, width, height);
      if CropInside(full, width, height, s) {
        StripsAreWindow(full, startX, startY, width, height);
      } else if full.height < height {
        RowMonotone(full.width, full.height, startY + height - 1);
      } else {
        RowsLeft(full.width, full.height, startY + height - 1, width);
      }
    }
  }

  lemma CropStartBounds(fullSize: nat, size: nat, s: nat)
    ensures fullSize <= size ==> CropStart(fullSize, size, s) == 0
    ensures size <= fullSize ==> CropStart(fullSize, size, s) + size <= fullSize
  {
  }

  lemma RowsLeft(fullWidth: nat, fullHeight: nat, last: nat, width: nat)
    requires last <= fullHeight
    ensures Row(fullWidth, last) + 3 * width <= Row(fullWidth, fullHeight) <==> width <= fullWidth * (fullHeight - last)
  {
    RowIsProduct(fullWidth, last, 0);
    RowIsProduct(fullWidth, fullHeight, 0);
    assert fullHeight * fullWidth == last * fullWidth + fullWidth * (fullHeight - last);
  }

  /** The last strip decides whether all of them lie in the buffer. */
  lemma LastStripReaches(image: Image, left: nat, top: nat, width: nat, height: nat)
    requires 0 < height
    ensures StripsInBuffer(image, left, top, width, height) <==> StripInBuffer(image, left, top, width, height - 1)
  {
    if StripInBuffer(image, left, top, width, height - 1) {
      forall row | 0 <= row < height
        ensures StripInBuffer(image, left, top, width, row)
      {
        RowMonotone(image.width, top + row, top + height - 1);
      }
    }
  }

  /**
   The same in terms of the image, for a network that enlarges k times while the engine is configured for
   s times: both exact conditions, the rectangle and the buffer.
   */
  lemma CropOfOtherScale(net: Network, k: nat, s: nat, img: Image)
    requires 0 < s && ScalesBy(net, k) && img.Valid() && 0 < img.width && 0 < img.height
    requires net(Pad(img, UPSCALER_PADDING)).Some?
    ensures var full, width, height := net(Pad(img, UPSCALER_PADDING)).value, img.width * s, img.height * s;
            var w, h := PaddedSize(img.width, UPSCALER_PADDING) * k, PaddedSize(img.height, UPSCALER_PADDING) * k;
            && (CropInside(full, width, height, s) <==>
                  || (width <= w && height <= h)
                  || (w <= width && h <= height))
            && (Croppable(net, s, img) <==>
                  || CropInside(full, width, height, s)
                  || (height < h && width <= w * (h - height - Min(UPSCALER_PADDING * s, h - height) + 1)))
  {
    hide Pad, CropInside, CropReadsBuffer, PaddedSize, Times;
    var full := net(Pad(img, UPSCALER_PADDING)).value;
    PadIsValid(img, UPSCALER_PADDING);
    Commuted(s, img.width);
    Commuted(s, img.height);
    Commuted(s, UPSCALER_PADDING);
    Commuted(k, PaddedSize(img.width, UPSCALER_PADDING));
    Commuted(k, PaddedSize(img.height, UPSCALER_PADDING));
    CropInsideExactly(full, img.width * s, img.height * s, s);
    CropReadsExactly(full, img.width * s, img.height * s, s);
  }

  lemma Commuted(n: nat, k: nat)
    ensures Times(n, k) == k * n
    ensures k > 0 && n > 0 ==> k * n > 0
  {
    TimesIsProduct(n, k);
  }

  /**
   A failing input: with a scale of 5 the two-fold model is loaded, and on a 20 x 40 image the crop
   reads beyond the network's result.
   */
  lemma TwofoldNetworkAtScaleFive(net: Network, img: Image)
    requires ScalesBy(net, 2) && img.Valid() && img.width == 20 && img.height == 40
    requires net(Pad(img, UPSCALER_PADDING)).Some?
    ensures !Croppable(net, 5, img)
  {
    hide Croppable, CropInside, CropReadsBuffer, Pad, Times;
    CropOfOtherScale(net, 2, 5, img);
  }

  /** Reading only the buffer is not enough: here the strips run on into the next rows. */
  lemma ThreefoldNetworkAtScaleFour(net: Network, img: Image)
    requires ScalesBy(net, 3) && img.Valid() && img.width == 200 && img.height == 1
    requires net(Pad(img, UPSCALER_PADDING)).Some?
    ensures Croppable(net, 4, img)
    ensures !CropInside(net(Pad(img, UPSCALER_PADDING)).value, 800, 4, 4)
  {
    hide Croppable, CropInside, CropReadsBuffer, Pad, Times;
    CropOfOtherScale(net, 3, 4, img);
  }

  /** A result that is larger than wanted on neither side is returned as it is. */
  lemma NotCropped(net: Network, s: nat, img: Image)
    requires net(Pad(img, UPSCALER_PADDING)).Some?
    requires var full := net(Pad(img, UPSCALER_PADDING)).value;
             full.width <= img.width * s && full.height <= img.height * s
    ensures Process(net, s)(img) == net(Pad(img, UPSCALER_PADDING))
  {
    hide Pad, Times;
    Commuted(s, img.width);
    Commuted(s, img.height);
  }

  /**
   A result that is at least as large as wanted on both sides is cropped to the wanted size, from 18 * s
   on along each axis, or from as far on as the result allows.
   */
  lemma CroppedPixel(net: Network, s: nat, img: Image, x: nat, y: nat, c: nat)
    requires net(Pad(img, UPSCALER_PADDING)).Some? && net(Pad(img, UPSCALER_PADDING)).value.Valid()
    requires var full := net(Pad(img, UPSCALER_PADDING)).value;
             img.width * s <= full.width && img.height * s <= full.height
    requires x < img.width * s && y < img.height * s && c < 3
    ensures var full := net(Pad(img, UPSCALER_PADDING)).value;
            && Process(net, s)(img).Some?
            && var out := Process(net, s)(img).value;
            && out.width == img.width * s && out.height == img.height * s
            && Px(out, x, y, c) ==
               Px(full, x + Min(18 * s, full.width - img.width * s), y + Min(18 * s, full.height - img.height * s), c)
  {
    hide Pad, Times, Px, Strips, Extract;
    var full := net(Pad(img, UPSCALER_PADDING)).value;
    var width, height := img.width * s, img.height * s;
    Commuted(s, img.width);
    Commuted(s, img.height);
    Commuted(s, UPSCALER_PADDING);
    if NeedsCrop(full, width, height) {
      var left, top := CropStart(full.width, width, s), CropStart(full.height, height, s);
      StripsSize(full, left, top, width, height);
      StripsAreWindow(full, left, top, width, height);
      PxExtract(full, Tile(left, top, width, height, 0, 0), x, y, c);
    }
  }

  lemma StripsSize(image: Image, left: nat, top: nat, width: nat, height: nat)
    ensures var out := Strips(image, left, top, width, height); out.width == width && out.height == height
  {
  }

  /** Under the scale contract the crop cuts out a rectangle. */
  lemma ScaledIsCroppable(net: Network, s: nat, img: Image)
    requires ScalesBy(net, s) && img.Valid()
    ensures Croppable(net, s, img)
  {
    hide Pad, Strips, Times;
    PadIsValid(img, UPSCALER_PADDING);
    CropFits(img, s);
    if net(Pad(img, UPSCALER_PADDING)).Some? {
      var full := net(Pad(img, UPSCALER_PADDING)).value;
      var width, height := Times(s, img.width), Times(s, img.height);
      CropInsideExactly(full, width, height, s);
      if NeedsCrop(full, width, height) {
        StripsAreWindow(full, CropStart(full.width, width, s), CropStart(full.height, height, s), width, height);
      }
    }
  }

  lemma PadIsValid(src: Image, padding: nat)
    requires src.Valid()
    ensures Pad(src, padding).Valid()
    ensures 0 < src.width && 0 < src.height && 0 < padding ==>
              Pad(src, padding).width == PaddedSize(src.width, padding)
              && Pad(src, padding).height == PaddedSize(src.height, padding)
    ensures src.width <= Pad(src, padding).width && src.height <= Pad(src, padding).height
    ensures 0 < src.width && 0 < src.height ==>
              && src.width + 2 * padding <= Pad(src, padding).width
              && src.height + 2 * padding <= Pad(src, padding).height
  {
  }

  /** The wanted size fits into what the network returns. */
  lemma CropFits(img: Image, s: nat)
    requires img.Valid()
    ensures var padded := Pad(img, UPSCALER_PADDING);
            && Times(s, img.width) <= Times(s, padded.width)
            && Times(s, img.height) <= Times(s, padded.height)
            && (0 < img.width && 0 < img.height ==>
                  && Times(s, UPSCALER_PADDING) + Times(s, img.width) <= Times(s, padded.width)
                  && Times(s, UPSCALER_PADDING) + Times(s, img.height) <= Times(s, padded.height))
  {
    hide Pad, Times;
    PadIsValid(img, UPSCALER_PADDING);
    TimesMonotone(s, img.width, Pad(img, UPSCALER_PADDING).width);
    TimesMonotone(s, img.height, Pad(img, UPSCALER_PADDING).height);
    if 0 < img.width && 0 < img.height {
      TimesAdd(s, UPSCALER_PADDING, img.width);
      TimesAdd(s, UPSCALER_PADDING, img.height);
      TimesMonotone(s, UPSCALER_PADDING + img.width, Pad(img, UPSCALER_PADDING).width);
      TimesMonotone(s, UPSCALER_PADDING + img.height, Pad(img, UPSCALER_PADDING).height);
    }
  }

  // ---- The padding hides the borders of the network ----

  /** (x, y) is at least `radius` away from every border of the image. */
  predicate Interior(img: Image, x: int, y: int, radius: nat) {
    radius <= x < img.width - radius && radius <= y < img.height - radius
  }

  /**
   A network of receptive radius `radius`: away from its own borders, an output block depends only
   on the input samples around it. Near the borders it may do anything.
   */
  ghost predicate NetworkLocal(net: Network, s: nat, radius: nat) {
    forall a: Image, x: nat, y: nat, b: Image, x': nat, y': nat ::
      && a.Valid() && b.Valid() && net(a).Some? && net(b).Some?
      && Interior(a, x, y, radius) && Interior(b, x', y', radius)
      && SameWindow(a, x, y, b, x', y', radius, radius)
      ==> SameBlock(s, net(a).value, x, y, net(b).value, x', y')
  }

  /** Cropping undoes padding: an output block is the block 18 pixels further in the network's result. */
  lemma CropShift(net: Network, s: nat, img: Image, x: nat, y: nat, i: nat, j: nat, c: nat)
    requires 0 < s && ScalesBy(net, s) && img.Valid() && net(Pad(img, UPSCALER_PADDING)).Some?
    requires x < img.width && y < img.height && i < s && j < s && c < 3
    ensures Px(Process(net, s)(img).value, Times(s, x) + i, Times(s, y) + j, c) ==
            Px(net(Pad(img, UPSCALER_PADDING)).value,
               Times(s, x + UPSCALER_PADDING) + i, Times(s, y + UPSCALER_PADDING) + j, c)
  {
    hide Px, Pad, Times, Tabulate, Strips;
    var full := net(Pad(img, UPSCALER_PADDING)).value;
    var width, height := Times(s, img.width), Times(s, img.height);
    PadIsValid(img, UPSCALER_PADDING);
    CropFits(img, s);
    TimesMonotone(s, 0, UPSCALER_PADDING);
    TimesMonotone(s, x, img.width);
    TimesMonotone(s, y, img.height);
    TimesAdd(s, x, UPSCALER_PADDING);
    TimesAdd(s, y, UPSCALER_PADDING);
    StripsAreWindow(full, Times(s, UPSCALER_PADDING), Times(s, UPSCALER_PADDING), width, height);
    PxExtract(full, Tile(Times(s, UPSCALER_PADDING), Times(s, UPSCALER_PADDING), width, height, 0, 0),
              Times(s, x) + i, Times(s, y) + j, c);
  }

  /** The padded image around (x + 18, y + 18) is the edge-clamped source around (x, y). */
  lemma PaddedWindow(a: Image, x: nat, y: nat, b: Image, x': nat, y': nat, radius: nat)
    requires a.Valid() && b.Valid() && radius <= UPSCALER_PADDING
    requires x < a.width && y < a.height && x' < b.width && y' < b.height
    requires SameWindow(a, x, y, b, x', y', radius, radius)
    ensures SameWindow(Pad(a, UPSCALER_PADDING), x + UPSCALER_PADDING, y + UPSCALER_PADDING,
                       Pad(b, UPSCALER_PADDING), x' + UPSCALER_PADDING, y' + UPSCALER_PADDING, radius, radius)
  {
    hide Px;
    var p := UPSCALER_PADDING;
    var pa, pb := Pad(a, p), Pad(b, p);
    var u, v, u', v' := x + p, y + p, x' + p, y' + p;
    PadIsValid(a, p);
    PadIsValid(b, p);
    forall dx, dy, c | 0 - radius <= dx <= radius && 0 - radius <= dy <= radius && 0 <= c < 3
      ensures SameEdge(pa, u, v, pb, u', v', dx, dy, c)
    {
      PadIsClamped(a, p, x + dx, y + dy, c);
      PadIsClamped(b, p, x' + dx, y' + dy, c);
      assert SameEdge(a, x, y, b, x', y', dx, dy, c);
    }
  }

  /**
   Pad, network, crop: for a network of radius at most 18 the engine is local with that radius on both
   sides, on all images. Neither the alignment column nor the network's border behaviour shows.
   */
  lemma PaddingHidesBorders(net: Network, s: nat, radius: nat)
    requires 0 < s && ScalesBy(net, s) && NetworkLocal(net, s, radius) && radius <= UPSCALER_PADDING
    ensures Local(Process(net, s), s, radius, radius)
    ensures ScalesBy(Process(net, s), s)
  {
    hide Pad, Px, Times, CropTo;
    var engine, p := Process(net, s), UPSCALER_PADDING;
    forall a: Image, x: nat, y: nat, b: Image, x': nat, y': nat |
      && a.Valid() && b.Valid() && engine(a).Some? && engine(b).Some?
      && x < a.width && y < a.height && x' < b.width && y' < b.height
      && SameWindow(a, x, y, b, x', y', radius, radius)
      ensures SameBlock(s, engine(a).value, x, y, engine(b).value, x', y')
    {
      PadIsValid(a, p);
      PadIsValid(b, p);
      PaddedWindow(a, x, y, b, x', y', radius);
      assert SameBlock(s, net(Pad(a, p)).value, x + p, y + p, net(Pad(b, p)).value, x' + p, y' + p);
      forall i, j, c | 0 <= i < s && 0 <= j < s && 0 <= c < 3
        ensures SameSample(s, engine(a).value, x, y, engine(b).value, x', y', i, j, c)
      {
        CropShift(net, s, a, x, y, i, j, c);
        CropShift(net, s, b, x', y', i, j, c);
        assert SameSample(s, net(Pad(a, p)).value, x + p, y + p, net(Pad(b, p)).value, x' + p, y' + p, i, j, c);
      }
    }
    ProcessScales(net, s);
  }

  lemma ProcessScales(net: Network, s: nat)
    requires ScalesBy(net, s)
    ensures ScalesBy(Process(net, s), s)
  {
    hide Pad, Px, Times, Tabulate;
    forall img: Image | img.Valid() && Process(net, s)(img).Some?
      ensures var out := Process(net, s)(img).value;
              out.Valid() && out.width == Times(s, img.width) && out.height == Times(s, img.height)
    {
      PadIsValid(img, UPSCALER_PADDING);
      CropFits(img, s);
    }
  }

  /**
   The whole pipeline: for a network of radius at most 18 and an overlap of at least that radius, the
   tiled output agrees with the direct one everywhere but in the `radius` source columns and rows
   before each seam.
   */
  lemma PipelineSeamBand(net: Network, cfg: TilingConfig, source: Image, radius: nat, x: nat, y: nat, c: nat)
    requires cfg.Valid() && ScalesBy(net, cfg.scale) && NetworkLocal(net, cfg.scale, radius)
    requires radius <= UPSCALER_PADDING && radius <= cfg.overlap
    requires source.Valid() && source.width > 0 && source.height > 0
    requires Exact(source.width, cfg) && Exact(source.height, cfg)
    requires Tiled(Process(net, cfg.scale), cfg, source).Some? && Process(net, cfg.scale)(source).Some?
    requires x < Times(cfg.scale, source.width) && y < Times(cfg.scale, source.height) && c < 3
    requires !NearSeam(Quo(cfg.scale, x), source.width, cfg, radius)
    requires !NearSeam(Quo(cfg.scale, y), source.height, cfg, radius)
    ensures Px(Tiled(Process(net, cfg.scale), cfg, source).value, x, y, c) ==
            Px(Process(net, cfg.scale)(source).value, x, y, c)
  {
    PaddingHidesBorders(net, cfg.scale, radius);
    SeamBand(Process(net, cfg.scale), cfg, source, radius, radius, x, y, c);
  }
}
