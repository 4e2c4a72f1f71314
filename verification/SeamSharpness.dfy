/**
 The seam bands of `Locality.SeamBand` are exactly what can be seen of the tiling: for every grid with an
 internal seam, vertical or horizontal, and every radius there are an engine of that radius and an image
 for which every sample of the band differs.
 */
module SeamSharpness {
  import opened Wrappers
  import opened Arith
  import opened Bytes
  import opened Pixels
  import opened Tiling
  import opened TilingProcessor
  import opened Assembly
  import opened Locality

  // ---- An engine that looks to the right or down ----

  function ShiftSample(img: Image, s: nat, dx: nat, dy: nat): (int, int, int) -> Byte
    requires 0 < s
  {
    (x, y, c) => if x < 0 || y < 0 then 0 else EdgePx(img, Quo(s, x) + dx, Quo(s, y) + dy, c)
  }

  /** An engine that enlarges s times and moves the picture dx source pixels to the left and dy up. */
  function Shift(s: nat, dx: nat, dy: nat): Engine
    requires 0 < s
  {
    (img: Image) => Some(Tabulate(Times(s, img.width), Times(s, img.height), ShiftSample(img, s, dx, dy)))
  }

  lemma ShiftScales(s: nat, dx: nat, dy: nat)
    requires 0 < s
    ensures ScalesBy(Shift(s, dx, dy), s)
  {
  }

  lemma ShiftPx(img: Image, s: nat, dx: nat, dy: nat, x: nat, y: nat, c: nat)
    requires 0 < s && x < Times(s, img.width) && y < Times(s, img.height) && c < 3
    ensures Px(Shift(s, dx, dy)(img).value, x, y, c) == EdgePx(img, Quo(s, x) + dx, Quo(s, y) + dy, c)
  {
    hide Px, Tabulate, EdgePx, Times, Quo;
    PxTabulate(Times(s, img.width), Times(s, img.height), ShiftSample(img, s, dx, dy), x, y, c);
    assert ShiftSample(img, s, dx, dy)(x, y, c) == EdgePx(img, Quo(s, x) + dx, Quo(s, y) + dy, c);
  }

  /** It looks dx pixels to the right and dy down and nowhere else. */
  lemma ShiftIsLocal(s: nat, dx: nat, dy: nat, left: nat, right: nat)
    requires 0 < s && dx <= right && dy <= right
    ensures Local(Shift(s, dx, dy), s, left, right)
  {
    var engine := Shift(s, dx, dy);
    forall a: Image, x: nat, y: nat, b: Image, x': nat, y': nat |
      && a.Valid() && b.Valid()
      && x < a.width && y < a.height && x' < b.width && y' < b.height
      && SameWindow(a, x, y, b, x', y', left, right)
      ensures SameBlock(s, engine(a).value, x, y, engine(b).value, x', y')
    {
      forall i, j, c | 0 <= i < s && 0 <= j < s && 0 <= c < 3
        ensures SameSample(s, engine(a).value, x, y, engine(b).value, x', y', i, j, c)
      {
        ShiftBlock(a, s, dx, dy, x, y, i, j, c);
        ShiftBlock(b, s, dx, dy, x', y', i, j, c);
        assert SameEdge(a, x, y, b, x', y', dx, dy, c);
      }
    }
  }

  lemma ShiftBlock(img: Image, s: nat, dx: nat, dy: nat, x: nat, y: nat, i: nat, j: nat, c: nat)
    requires 0 < s && x < img.width && y < img.height && i < s && j < s && c < 3
    ensures Px(Shift(s, dx, dy)(img).value, Times(s, x) + i, Times(s, y) + j, c) == EdgePx(img, x + dx, y + dy, c)
  {
    hide Px, EdgePx, Shift, Times, Quo;
    TimesMonotone(s, x, img.width);
    TimesMonotone(s, y, img.height);
    Join(s, x, i);
    Join(s, y, j);
    ShiftPx(img, s, dx, dy, Times(s, x) + i, Times(s, y) + j, c);
  }

  // ---- An image with one corner ----

  function StepSample(edgeX: int, edgeY: int): (int, int, int) -> Byte {
    (x, y, c) => if x < edgeX || y < edgeY then 0 else 255
  }

  /** Black to the left of column `edgeX` and above row `edgeY`, white elsewhere. */
  function StepImage(width: nat, height: nat, edgeX: int, edgeY: int): Image {
    Tabulate(width, height, StepSample(edgeX, edgeY))
  }

  lemma StepPx(width: nat, height: nat, edgeX: int, edgeY: int, x: nat, y: nat, c: nat)
    requires x < width && y < height && c < 3
    ensures Px(StepImage(width, height, edgeX, edgeY), x, y, c) == if x < edgeX || y < edgeY then 0 else 255
  {
    PxTabulate(width, height, StepSample(edgeX, edgeY), x, y, c);
    assert StepSample(edgeX, edgeY)(x, y, c) == if x < edgeX || y < edgeY then 0 else 255;
  }

  /** The tile that owns a coordinate before a seam ends at that seam at the latest. */
  lemma OwnerEndsBySeam(sx: nat, n: nat, cfg: TilingConfig, t: nat)
    requires cfg.Valid() && sx < n && sx < Seam(t, cfg)
    ensures TileBegin(Owner(sx, cfg), cfg) <= sx < End(Owner(sx, cfg), n, cfg) <= Seam(t, cfg)
  {
    var tx := Owner(sx, cfg);
    OwnerContributes(sx, tx, n, cfg);
    if tx <= t {
      TimesMonotone(cfg.Step(), tx + 1, t + 1);
    } else {
      TimesMonotone(cfg.Step(), t + 1, tx);
    }
  }

  /** A tile that ends before one of the edges of the step image is black throughout. */
  lemma TileIsBlack(source: Image, edgeX: int, edgeY: int, tile: Tile, x: int, y: int, c: nat)
    requires source == StepImage(source.width, source.height, edgeX, edgeY) && HasSize(tile) && c < 3
    requires Inside(tile, source.width, source.height)
    requires tile.x + tile.width <= edgeX || tile.y + tile.height <= edgeY
    ensures EdgePx(Extract(source, tile), x, y, c) == 0
  {
    var u, v := Clamp(x, 0, tile.width - 1), Clamp(y, 0, tile.height - 1);
    PxExtract(source, tile, u, v, c);
    StepPx(source.width, source.height, edgeX, edgeY, tile.x + u, tile.y + v, c);
  }

  // ---- The two together ----

  /** The output samples for which the shift engine sees over the edge of the step image. */
  predicate SeesWhite(cfg: TilingConfig, width: nat, height: nat, edgeX: nat, edgeY: nat, dx: nat, dy: nat,
                      x: nat, y: nat)
    requires cfg.Valid()
  {
    && edgeX <= Min(Quo(cfg.scale, x) + dx, width - 1)
    && edgeY <= Min(Quo(cfg.scale, y) + dy, height - 1)
  }

  lemma DirectIsWhite(source: Image, cfg: TilingConfig, edgeX: nat, edgeY: nat, dx: nat, dy: nat,
                      x: nat, y: nat, c: nat)
    requires cfg.Valid() && source == StepImage(source.width, source.height, edgeX, edgeY)
    requires x < Times(cfg.scale, source.width) && y < Times(cfg.scale, source.height) && c < 3
    requires SeesWhite(cfg, source.width, source.height, edgeX, edgeY, dx, dy, x, y)
    ensures Px(Shift(cfg.scale, dx, dy)(source).value, x, y, c) == 255
  {
    hide Px, Tabulate, Times, Quo, StepImage, Shift;
    var sx, sy := Quo(cfg.scale, x), Quo(cfg.scale, y);
    ShiftPx(source, cfg.scale, dx, dy, x, y, c);
    StepPx(source.width, source.height, edgeX, edgeY,
           Clamp(sx + dx, 0, source.width - 1), Clamp(sy + dy, 0, source.height - 1), c);
  }

  /** Columns: the edge is vertical seam t. Rows: it is horizontal seam t. */
  predicate EdgeAtSeam(cfg: TilingConfig, t: nat, edgeX: nat, edgeY: nat, x: nat, y: nat)
    requires cfg.Valid()
  {
    || (edgeX == Seam(t, cfg) && Quo(cfg.scale, x) < edgeX)
    || (edgeY == Seam(t, cfg) && Quo(cfg.scale, y) < edgeY)
  }

  lemma TiledIsBlack(cfg: TilingConfig, source: Image, t: nat, edgeX: nat, edgeY: nat, dx: nat, dy: nat,
                     x: nat, y: nat, c: nat)
    requires cfg.Valid() && Exact(source.width, cfg) && Exact(source.height, cfg)
    requires source.width > 0 && source.height > 0
    requires source == StepImage(source.width, source.height, edgeX, edgeY)
    requires x < Times(cfg.scale, source.width) && y < Times(cfg.scale, source.height) && c < 3
    requires EdgeAtSeam(cfg, t, edgeX, edgeY, x, y)
    ensures FromOwner(Shift(cfg.scale, dx, dy), cfg, source, x, y, c) == Some(0)
  {
    hide Px, Tabulate, Times, Quo, StepImage, Begin, Owner, FloatGrid.FloatCeilDiv;
    var s := cfg.scale;
    var sx, sy := Quo(s, x), Quo(s, y);
    var tile := OwnerTile(cfg, source, x, y);
    var columns, rows := TilesAlong(source.width, cfg), TilesAlong(source.height, cfg);
    TilesAlongFits(source.width, cfg);
    TilesAlongFits(source.height, cfg);
    OwnerFacts(source.width, cfg, columns, x);
    OwnerFacts(source.height, cfg, rows, y);
    TileInside(source.width, source.height, cfg, columns, rows, Owner(sx, cfg), Owner(sy, cfg));
    if sx < Seam(t, cfg) { OwnerEndsBySeam(sx, source.width, cfg, t); }
    if sy < Seam(t, cfg) { OwnerEndsBySeam(sy, source.height, cfg, t); }
    ShiftedInTile(Extract(source, tile), s, dx, dy, tile.x, tile.y, x, y, c);
    TileIsBlack(source, edgeX, edgeY, tile, sx - tile.x + dx, sy - tile.y + dy, c);
  }

  lemma ShiftedInTile(cut: Image, s: nat, dx: nat, dy: nat, beginX: nat, beginY: nat, x: nat, y: nat, c: nat)
    requires 0 < s && c < 3
    requires beginX <= Quo(s, x) < beginX + cut.width && beginY <= Quo(s, y) < beginY + cut.height
    ensures Px(Shift(s, dx, dy)(cut).value, x - Times(s, beginX), y - Times(s, beginY), c) ==
            EdgePx(cut, Quo(s, x) - beginX + dx, Quo(s, y) - beginY + dy, c)
  {
    hide Px, Times, Quo, Rem, Shift, Clamp;
    var sx, sy := Quo(s, x), Quo(s, y);
    InBlock(s, sx, beginX, x);
    InBlock(s, sy, beginY, y);
    ShiftBlock(cut, s, dx, dy, sx - beginX, sy - beginY, Rem(s, x), Rem(s, y), c);
  }

  /** The tiled sample is black and the direct one is white. */
  ghost predicate Differs(engine: Engine, cfg: TilingConfig, source: Image, x: nat, y: nat, c: nat)
    requires cfg.Valid() && source.Valid() && source.width > 0 && source.height > 0
    requires Exact(source.width, cfg) && Exact(source.height, cfg)
  {
    && Tiled(engine, cfg, source).Some? && engine(source).Some?
    && Px(Tiled(engine, cfg, source).value, x, y, c) == 0
    && Px(engine(source).value, x, y, c) == 255
  }

  lemma ShiftDiffers(cfg: TilingConfig, source: Image, t: nat, edgeX: nat, edgeY: nat, dx: nat, dy: nat,
                     x: nat, y: nat, c: nat)
    requires cfg.Valid() && source.Valid() && Exact(source.width, cfg) && Exact(source.height, cfg)
    requires source.width > 0 && source.height > 0
    requires source == StepImage(source.width, source.height, edgeX, edgeY)
    requires x < Times(cfg.scale, source.width) && y < Times(cfg.scale, source.height) && c < 3
    requires EdgeAtSeam(cfg, t, edgeX, edgeY, x, y)
    requires SeesWhite(cfg, source.width, source.height, edgeX, edgeY, dx, dy, x, y)
    ensures Tileable(Shift(cfg.scale, dx, dy), cfg, source)
    ensures Differs(Shift(cfg.scale, dx, dy), cfg, source, x, y, c)
  {
    var engine := Shift(cfg.scale, dx, dy);
    ShiftScales(cfg.scale, dx, dy);
    NeverFails(engine, cfg, source);
    hide Px, Times, Quo, StepImage, Shift, Tiled, FromOwner;
    TiledPixel(engine, cfg, source, x, y, c);
    DirectIsWhite(source, cfg, edgeX, edgeY, dx, dy, x, y, c);
    TiledIsBlack(cfg, source, t, edgeX, edgeY, dx, dy, x, y, c);
  }

  /**
   Vertical seams: with the engine that looks r pixels to the right and an image whose only edge lies at
   seam t, every sample of the r source columns before the seam is black when tiled and white directly.
   */
  lemma ColumnBandIsSharp(cfg: TilingConfig, width: nat, height: nat, t: nat, r: nat, x: nat, y: nat, c: nat)
    requires cfg.Valid() && Exact(width, cfg) && Exact(height, cfg) && height > 0 && Seam(t, cfg) < width
    requires x < Times(cfg.scale, width) && y < Times(cfg.scale, height) && c < 3
    requires Seam(t, cfg) - r <= Quo(cfg.scale, x) < Seam(t, cfg)
    ensures var engine, source := Shift(cfg.scale, r, 0), StepImage(width, height, Seam(t, cfg), 0);
            Tileable(engine, cfg, source) && Local(engine, cfg.scale, 0, r) && Differs(engine, cfg, source, x, y, c)
  {
    hide Px, Times, Quo, Shift, Tiled;
    ShiftIsLocal(cfg.scale, r, 0, 0, r);
    QuoBetween(cfg.scale, y, 0, height);
    ShiftDiffers(cfg, StepImage(width, height, Seam(t, cfg), 0), t, Seam(t, cfg), 0, r, 0, x, y, c);
  }

  /** Horizontal seams: the same for the r source rows before the seam. */
  lemma RowBandIsSharp(cfg: TilingConfig, width: nat, height: nat, t: nat, r: nat, x: nat, y: nat, c: nat)
    requires cfg.Valid() && Exact(width, cfg) && Exact(height, cfg) && width > 0 && Seam(t, cfg) < height
    requires x < Times(cfg.scale, width) && y < Times(cfg.scale, height) && c < 3
    requires Seam(t, cfg) - r <= Quo(cfg.scale, y) < Seam(t, cfg)
    ensures var engine, source := Shift(cfg.scale, 0, r), StepImage(width, height, 0, Seam(t, cfg));
            Tileable(engine, cfg, source) && Local(engine, cfg.scale, 0, r) && Differs(engine, cfg, source, x, y, c)
  {
    hide Px, Times, Quo, Shift, Tiled;
    ShiftIsLocal(cfg.scale, 0, r, 0, r);
    QuoBetween(cfg.scale, x, 0, width);
    ShiftDiffers(cfg, StepImage(width, height, 0, Seam(t, cfg)), t, 0, Seam(t, cfg), 0, r, x, y, c);
  }

  // ---- What can be seen of the tiling ----

  /** For this engine and this image, tiled and direct runs that succeed agree on a sample. */
  ghost predicate Agrees(engine: Engine, cfg: TilingConfig, source: Image, x: nat, y: nat, c: nat)
    requires Tileable(engine, cfg, source)
  {
    Tiled(engine, cfg, source).Some? && engine(source).Some? ==>
      Px(Tiled(engine, cfg, source).value, x, y, c) == Px(engine(source).value, x, y, c)
  }

  /** No engine with these radii and no image of this size shows a difference at a sample. */
  ghost predicate Invisible(cfg: TilingConfig, width: nat, height: nat, left: nat, right: nat, x: nat, y: nat, c: nat) {
    forall engine: Engine, source: Image ::
      && Tileable(engine, cfg, source) && source.width == width && source.height == height
      && Local(engine, cfg.scale, left, right)
      ==> Agrees(engine, cfg, source, x, y, c)
  }

  /**
   The exact condition, for every grid and all radii with `left` within the overlap: tiling is invisible at
   an output sample just when neither its source column nor its source row is one of the `right` ones before
   a seam.
   */
  lemma InvisibleExactly(cfg: TilingConfig, width: nat, height: nat, left: nat, right: nat, x: nat, y: nat, c: nat)
    requires cfg.Valid() && Exact(width, cfg) && Exact(height, cfg) && left <= cfg.overlap
    requires x < Times(cfg.scale, width) && y < Times(cfg.scale, height) && c < 3
    ensures Invisible(cfg, width, height, left, right, x, y, c) <==>
            !NearSeam(Quo(cfg.scale, x), width, cfg, right) && !NearSeam(Quo(cfg.scale, y), height, cfg, right)
  {
    hide Px, Times, Quo, Shift, Tiled, Local, StepImage;
    QuoBetween(cfg.scale, x, 0, width);
    QuoBetween(cfg.scale, y, 0, height);
    if t: nat :| Seam(t, cfg) - right <= Quo(cfg.scale, x) < Seam(t, cfg) < width {
      ColumnBandIsSharp(cfg, width, height, t, right, x, y, c);
      ShiftIsLocal(cfg.scale, right, 0, left, right);
      StepSize(width, height, Seam(t, cfg), 0);
      assert !Agrees(Shift(cfg.scale, right, 0), cfg, StepImage(width, height, Seam(t, cfg), 0), x, y, c);
    } else if t: nat :| Seam(t, cfg) - right <= Quo(cfg.scale, y) < Seam(t, cfg) < height {
      RowBandIsSharp(cfg, width, height, t, right, x, y, c);
      ShiftIsLocal(cfg.scale, 0, right, left, right);
      StepSize(width, height, 0, Seam(t, cfg));
      assert !Agrees(Shift(cfg.scale, 0, right), cfg, StepImage(width, height, 0, Seam(t, cfg)), x, y, c);
    } else {
      forall engine: Engine, source: Image |
        && Tileable(engine, cfg, source) && source.width == width && source.height == height
        && Local(engine, cfg.scale, left, right)
        ensures Agrees(engine, cfg, source, x, y, c)
      {
        if Tiled(engine, cfg, source).Some? && engine(source).Some? {
          SeamBand(engine, cfg, source, left, right, x, y, c);
        }
      }
    }
  }

  lemma StepSize(width: nat, height: nat, edgeX: int, edgeY: int)
    ensures var image := StepImage(width, height, edgeX, edgeY); image.width == width && image.height == height
  {
  }
}
