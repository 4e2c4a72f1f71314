/** Edge-replicating padding before inference (image_padding.hpp), for three-channel images. */
module Padding {
  import opened Arith
  import opened Bytes
  import opened Pixels

  const UPSCALER_PADDING: nat := 18

  /** (n + 1) & ~1 */
  function RoundUpEven(n: nat): (r: nat)
    ensures n <= r <= n + 1 && r % 2 == 0
  {
    (n + 1) / 2 * 2
  }

  /** The least even number that leaves room for the padding on both sides. */
  function PaddedSize(n: nat, padding: nat): (r: nat)
    ensures r % 2 == 0 && n + 2 * padding <= r <= n + 2 * padding + 1
  {
    RoundUpEven(n + padding * 2)
  }

  function PadSample(src: Image, padding: nat): (int, int, int) -> Byte {
    (x: int, y: int, c: int) =>
      var sample: Byte :=
        if x < padding + src.width + padding then EdgePx(src, x - padding, y - padding, c) else 0;
      sample
  }

  /**
   The padded image: the nearest source pixel everywhere, except in the column that only evens out
   an odd width, which stays zero. The row that evens out an odd height does repeat the edge.
   */
  function Pad(src: Image, padding: nat): Image {
    if src.width <= 0 || src.height <= 0 || padding <= 0 then src
    else Tabulate(PaddedSize(src.width, padding), PaddedSize(src.height, padding), PadSample(src, padding))
  }

  method PadImage(src: Image, padding: nat) returns (padded: Image)
    requires src.Valid()
    ensures padded == Pad(src, padding)
  {
    if src.width <= 0 || src.height <= 0 || padding <= 0 {
      return src;
    }
    hide Times, RowByte, PaddedSize;
    var width, height := PaddedSize(src.width, padding), PaddedSize(src.height, padding);
    var pixels := new Byte[Area(width, height)](_ => 0);
    ghost var want := Pad(src, padding);
    for y := 0 to height
      invariant pixels.Length == |want.pixels|
      invariant forall k :: 0 <= k < pixels.Length && k < Row(width, y) ==> pixels[k] == want.pixels[k]
      invariant forall k :: Row(width, y) <= k < pixels.Length ==> pixels[k] == 0
    {
      var srcY := Clamp(y - padding, 0, src.height - 1);
      RowMonotone(width, y, height);
      PadRow(src, padding, srcY, pixels, Row(width, y), width);
      forall k | Row(width, y) <= k < Row(width, y + 1)
        ensures pixels[k] == want.pixels[k]
      {
        PadByte(src, padding, y, k - Row(width, y));
        assert pixels[Row(width, y) + (k - Row(width, y))] == pixels[k];
      }
    }
    assert pixels[..] == want.pixels;
    padded := Image(width, height, pixels[..]);
  }

  /** Byte u of a padded row over source row srcY. */
  function RowByte(src: Image, padding: nat, srcY: nat, u: nat): Byte
    requires src.Valid() && srcY < src.height && 0 < src.width
  {
    RowMonotone(src.width, srcY, src.height);
    var row := Row(src.width, srcY);
    if u < 3 * padding then src.pixels[row + u % 3]
    else if u < 3 * (padding + src.width) then src.pixels[row + (u - 3 * padding)]
    else if u < 3 * (padding + src.width + padding) then
      src.pixels[row + 3 * (src.width - 1) + (u - 3 * (padding + src.width)) % 3]
    else 0
  }

  /** Copies of one source pixel, side by side. */
  method RepeatPixel(pixels: array<Byte>, at: nat, src: seq<Byte>, from: nat, count: nat)
    requires at + 3 * count <= pixels.Length && from + 3 <= |src|
    modifies pixels
    ensures forall k :: 0 <= k < pixels.Length ==>
              pixels[k] == if at <= k < at + 3 * count then src[from + (k - at) % 3] else old(pixels[k])
  {
    for x := 0 to count
      invariant forall k :: 0 <= k < pixels.Length ==>
                  pixels[k] == if at <= k < at + 3 * x then src[from + (k - at) % 3] else old(pixels[k])
    {
      CopyBytes(pixels, at + 3 * x, src, from, 3);
    }
  }

  /** The body of the row loop: left edge, the source row, right edge. */
  method PadRow(src: Image, padding: nat, srcY: nat, pixels: array<Byte>, dstRow: nat, width: nat)
    requires src.Valid() && srcY < src.height && 0 < src.width
    requires src.width + 2 * padding <= width && dstRow + 3 * width <= pixels.Length
    requires forall k :: dstRow <= k < pixels.Length ==> pixels[k] == 0
    modifies pixels
    ensures forall k :: 0 <= k < pixels.Length && !(dstRow <= k < dstRow + 3 * width) ==>
              pixels[k] == old(pixels[k])
    ensures forall k :: dstRow <= k < dstRow + 3 * width ==> pixels[k] == RowByte(src, padding, srcY, k - dstRow)
  {
    hide Times;
    var srcRow := Row(src.width, srcY);
    RowMonotone(src.width, srcY, src.height);
    RepeatPixel(pixels, dstRow, src.pixels, srcRow, padding);
    CopyBytes(pixels, dstRow + padding * 3, src.pixels, srcRow, src.width * 3);
    RepeatPixel(pixels, dstRow + 3 * (padding + src.width), src.pixels, srcRow + 3 * (src.width - 1), padding);
  }

  lemma PadByte(src: Image, padding: nat, y: nat, u: nat)
    requires src.Valid() && 0 < src.width && 0 < src.height && 0 < padding
    requires y < PaddedSize(src.height, padding) && u < 3 * PaddedSize(src.width, padding)
    ensures var width, srcY := PaddedSize(src.width, padding), Clamp(y - padding, 0, src.height - 1);
            && Row(width, y) + u < |Pad(src, padding).pixels|
            && Pad(src, padding).pixels[Row(width, y) + u] == RowByte(src, padding, srcY, u)
  {
    hide Px, EdgePx, Tabulate, Times, PaddedSize, RowByte;
    var f := PadSample(src, padding);
    TabulateRow(PaddedSize(src.width, padding), PaddedSize(src.height, padding), f, y, u);
    assert f(u / 3, y, u % 3) ==
           if u / 3 < padding + src.width + padding then EdgePx(src, u / 3 - padding, y - padding, u % 3) else 0;
    RowByteIsNearest(src, padding, y, u);
  }

  lemma RowByteIsNearest(src: Image, padding: nat, y: nat, u: nat)
    requires src.Valid() && 0 < src.width && 0 < src.height
    ensures RowByte(src, padding, Clamp(y - padding, 0, src.height - 1), u) ==
            if u / 3 < padding + src.width + padding then EdgePx(src, u / 3 - padding, y - padding, u % 3) else 0
  {
    hide Times;
    RowMonotone(src.width, Clamp(y - padding, 0, src.height - 1), src.height);
  }

  /** Every padded pixel within the padding is the nearest pixel of the source. */
  lemma PadIsClamped(src: Image, padding: nat, x: int, y: int, c: nat)
    requires 0 < src.width && 0 < src.height && 0 < padding && c < 3
    requires 0 - padding <= x < src.width + padding && 0 - padding <= y < src.height + padding
    ensures Px(Pad(src, padding), x + padding, y + padding, c) == EdgePx(src, x, y, c)
  {
    hide Px, EdgePx, Tabulate, Times;
    var f := PadSample(src, padding);
    PxTabulate(PaddedSize(src.width, padding), PaddedSize(src.height, padding), f, x + padding, y + padding, c);
    assert f(x + padding, y + padding, c) == EdgePx(src, x, y, c);
  }

  /** The row that evens out an odd height repeats the last row, unlike the column. */
  lemma AlignmentRowRepeats(src: Image, padding: nat, x: nat, y: nat, c: nat)
    requires 0 < src.width && 0 < src.height && 0 < padding && c < 3
    requires x < src.width + 2 * padding && src.height + padding <= y < PaddedSize(src.height, padding)
    ensures Px(Pad(src, padding), x, y, c) == EdgePx(src, x - padding, src.height - 1, c)
  {
    hide Px, Tabulate, Times, PaddedSize;
    var f := PadSample(src, padding);
    PxTabulate(PaddedSize(src.width, padding), PaddedSize(src.height, padding), f, x, y, c);
    assert f(x, y, c) == EdgePx(src, x - padding, y - padding, c);
  }

  /** Nothing is added to an image without pixels, nor without padding; any other image grows as stated. */
  lemma PadSize(src: Image, padding: nat)
    ensures src.width == 0 || src.height == 0 || padding == 0 ==> Pad(src, padding) == src
    ensures src.width > 0 && src.height > 0 && padding > 0 ==>
              var padded := Pad(src, padding);
              && padded.Valid() && padded.width % 2 == 0 && padded.height % 2 == 0
              && src.width + 2 * padding <= padded.width <= src.width + 2 * padding + 1
              && src.height + 2 * padding <= padded.height <= src.height + 2 * padding + 1
  {
    hide Times;
  }

  /** The alignment column of an odd width is zero, whatever the image. */
  lemma AlignmentColumnIsBlack(src: Image, padding: nat, x: nat, y: nat, c: nat)
    requires 0 < src.width && 0 < src.height && 0 < padding && c < 3
    requires src.width + 2 * padding <= x < PaddedSize(src.width, padding) && y < PaddedSize(src.height, padding)
    ensures Px(Pad(src, padding), x, y, c) == 0 && src.width % 2 == 1
  {
    hide Px, EdgePx, Tabulate, Times;
    var f := PadSample(src, padding);
    PxTabulate(PaddedSize(src.width, padding), PaddedSize(src.height, padding), f, x, y, c);
    assert f(x, y, c) == 0;
  }
}
