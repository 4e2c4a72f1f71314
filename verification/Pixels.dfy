/**
 Interleaved RGB images in flat row-major byte buffers, the representation that every stage of the
 tiling pipeline reads and writes. All index arithmetic of the project lives here: the other modules
 speak of the sample `Px(img, x, y, c)` and of images given sample by sample (`Tabulate`).
 */
module Pixels {
  import opened Arith
  import opened Bytes

  datatype Image = Image(width: nat, height: nat, pixels: seq<Byte>) {
    predicate Valid() {
      |pixels| == Area(width, height)
    }
  }

  /** Offset of the first byte of row y. */
  function Row(width: nat, y: nat): nat {
    Times(3 * width, y)
  }

  /** Number of bytes of a width x height RGB image. */
  function Area(width: nat, height: nat): nat {
    Row(width, height)
  }

  /** Offset of sample c of the pixel in column x of row y. */
  function At(width: nat, x: nat, y: nat, c: nat): nat {
    Row(width, y) + 3 * x + c
  }

  /** The offsets are those of the program: (y * width + x) * 3. */
  lemma RowIsProduct(width: nat, y: nat, x: nat)
    ensures Row(width, y) + 3 * x == (y * width + x) * 3
  {
    TimesIsProduct(3 * width, y);
    assert (3 * width) * y == 3 * (y * width);
  }

  lemma RowMonotone(width: nat, y: nat, y': nat)
    requires y <= y'
    ensures Row(width, y) <= Row(width, y')
    ensures y < y' ==> Row(width, y) + 3 * width <= Row(width, y')
  {
    TimesMonotone(3 * width, y, y');
  }

  /** Every flat offset of an image lies in one of its rows. */
  lemma OffsetInRow(width: nat, height: nat, k: nat)
    requires k < Area(width, height)
    ensures 0 < width
    ensures Quo(3 * width, k) < height && Rem(3 * width, k) < 3 * width
    ensures k == Row(width, Quo(3 * width, k)) + Rem(3 * width, k)
  {
    if width == 0 {
      RowIsProduct(width, height, 0);
    } else {
      Split(3 * width, k);
      QuoBetween(3 * width, k, 0, height);
    }
  }

  /** The sample at column x, row y, channel c; 0 outside the image. */
  function Px(img: Image, x: int, y: int, c: int): Byte {
    if img.Valid() && 0 <= x < img.width && 0 <= y < img.height && 0 <= c < 3 then
      RowMonotone(img.width, y, img.height);
      img.pixels[At(img.width, x, y, c)]
    else 0
  }

  /** A sample is the byte at the program's offset: rows from the top, three interleaved channels. */
  lemma PxIsByte(img: Image, x: nat, y: nat, c: nat)
    requires |img.pixels| == img.width * img.height * 3
    requires x < img.width && y < img.height && c < 3
    ensures 0 <= (y * img.width + x) * 3 + c < |img.pixels|
    ensures Px(img, x, y, c) == img.pixels[(y * img.width + x) * 3 + c]
  {
    hide Times;
    RowIsProduct(img.width, img.height, 0);
    RowIsProduct(img.width, y, x);
    RowMonotone(img.width, y, img.height);
    assert img.Valid();
  }

  /** The sample nearest to (x, y) inside the image. */
  function EdgePx(img: Image, x: int, y: int, c: int): Byte {
    Px(img, Clamp(x, 0, img.width - 1), Clamp(y, 0, img.height - 1), c)
  }

  /** The image whose sample at (x, y, c) is f(x, y, c). */
  function Tabulate(width: nat, height: nat, f: (int, int, int) -> Byte): (img: Image)
    ensures img.width == width && img.height == height && img.Valid()
  {
    Image(width, height,
          seq(Area(width, height), k requires 0 <= k < Area(width, height) =>
            OffsetInRow(width, height, k);
            var u := Rem(3 * width, k);
            f(u / 3, Quo(3 * width, k), u % 3)))
  }

  /** Row y of a tabulated image, byte by byte. */
  lemma TabulateRow(width: nat, height: nat, f: (int, int, int) -> Byte, y: nat, u: nat)
    requires y < height && u < 3 * width
    ensures Row(width, y) + u < Area(width, height)
    ensures Tabulate(width, height, f).pixels[Row(width, y) + u] == f(u / 3, y, u % 3)
  {
    RowMonotone(width, y, height);
    Join(3 * width, y, u);
  }

  lemma PxTabulate(width: nat, height: nat, f: (int, int, int) -> Byte, x: nat, y: nat, c: nat)
    requires x < width && y < height && c < 3
    ensures Px(Tabulate(width, height, f), x, y, c) == f(x, y, c)
  {
    TabulateRow(width, height, f, y, 3 * x + c);
  }

  /** Images with the same size and the same samples are the same buffer. */
  lemma ImageExtensionality(a: Image, b: Image)
    requires a.Valid() && b.Valid() && a.width == b.width && a.height == b.height
    requires forall x, y, c :: 0 <= x < a.width && 0 <= y < a.height && 0 <= c < 3 ==>
               Px(a, x, y, c) == Px(b, x, y, c)
    ensures a == b
  {
    forall k | 0 <= k < |a.pixels|
      ensures a.pixels[k] == b.pixels[k]
    {
      OffsetInRow(a.width, a.height, k);
      var u := Rem(3 * a.width, k);
      assert Px(a, u / 3, Quo(3 * a.width, k), u % 3) == Px(b, u / 3, Quo(3 * a.width, k), u % 3);
    }
    assert a.pixels == b.pixels;
  }

  /** memcpy: every offset it touches must be inside both buffers. */
  method CopyBytes(dst: array<Byte>, at: nat, src: seq<Byte>, from: nat, n: nat)
    requires at + n <= dst.Length && from + n <= |src|
    modifies dst
    ensures forall k :: 0 <= k < dst.Length ==>
              dst[k] == if at <= k < at + n then src[from + (k - at)] else old(dst[k])
  {
    for i := 0 to n
      invariant forall k :: 0 <= k < dst.Length ==>
                  dst[k] == if at <= k < at + i then src[from + (k - at)] else old(dst[k])
    {
      dst[at + i] := src[from + i];
    }
  }
}
