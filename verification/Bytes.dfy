/** Bytes and little-endian 32-bit integers (decode_u32_le, append_u32, write_u32, read_u32). */
module Bytes {
  type Byte = x: int | 0 <= x < 256
  type UInt32 = x: int | 0 <= x < 0x1_0000_0000
  type Int32 = x: int | -0x8000_0000 <= x < 0x8000_0000
  type ByteString = seq<Byte>

  /** The four bytes of v, least significant first. */
  function EncodeU32(v: UInt32): (b: ByteString)
    ensures |b| == 4
  {
    [v % 0x100, v / 0x100 % 0x100, v / 0x1_0000 % 0x100, v / 0x100_0000]
  }

  /** The shifted bytes of the source do not overlap, so or-ing them is adding them. */
  function DecodeU32(b: ByteString): UInt32
    requires |b| >= 4
  {
    (b[0] as int) + 0x100 * (b[1] as int) + 0x1_0000 * (b[2] as int) + 0x100_0000 * (b[3] as int)
  }

  /** static_cast between the signed and the unsigned 32-bit type. */
  function ToU32(v: Int32): UInt32 {
    if v < 0 then (v as int) + 0x1_0000_0000 else v
  }

  function ToI32(v: UInt32): Int32 {
    if v < 0x8000_0000 then v else (v as int) - 0x1_0000_0000
  }

  /** static_cast<uint32_t> of a size. */
  function Truncate32(n: nat): UInt32 {
    n % 0x1_0000_0000
  }

  lemma TruncateExact(n: nat)
    ensures Truncate32(n) <= n
    ensures Truncate32(n) == n <==> n < 0x1_0000_0000
  {
  }

  /** Wrapping once or at every step of a sum makes no difference. */
  lemma WrapAdd(a: nat, b: nat)
    ensures Truncate32(Truncate32(a) + b) == Truncate32(a + b)
  {
    var m := 0x1_0000_0000;
    assert a == m * (a / m) + a % m;
    assert (a + b) / m == a / m + (a % m + b) / m;
  }

  lemma DecodeEncode(v: UInt32, rest: ByteString)
    ensures DecodeU32(EncodeU32(v) + rest) == v
  {
    SplitBytes(v);
    var b := EncodeU32(v) + rest;
    assert b[0] == v % 0x100 && b[1] == v / 0x100 % 0x100 && b[2] == v / 0x1_0000 % 0x100 && b[3] == v / 0x100_0000;
  }

  lemma SplitBytes(v: UInt32)
    ensures v == v % 0x100 + 0x100 * (v / 0x100 % 0x100) + 0x1_0000 * (v / 0x1_0000 % 0x100)
                 + 0x100_0000 * (v / 0x100_0000)
  {
    var h1 := v / 0x100;
    var h2 := h1 / 0x100;
    assert v / 0x1_0000 == h2 && v / 0x100_0000 == h2 / 0x100;
  }

  lemma EncodeDecode(b: ByteString)
    requires |b| >= 4
    ensures EncodeU32(DecodeU32(b)) == b[..4]
  {
    var v: int := DecodeU32(b);
    var h1 := (b[1] as int) + 0x100 * (b[2] as int) + 0x1_0000 * (b[3] as int);
    var h2 := (b[2] as int) + 0x100 * (b[3] as int);
    assert v == b[0] + 0x100 * h1 && v % 0x100 == b[0] && v / 0x100 == h1;
    assert h1 == b[1] + 0x100 * h2 && h1 % 0x100 == b[1] && v / 0x1_0000 == h2;
  }

  /** Least significant byte first. */
  lemma LittleEndian(v: UInt32)
    ensures var b := EncodeU32(v);
            v == b[0] as int + 256 * (b[1] as int) + 65_536 * (b[2] as int) + 16_777_216 * (b[3] as int)
  {
    SplitBytes(v);
  }

  /** The conversions keep the value modulo 2^32, and are inverse to each other. */
  lemma TwosComplement(v: Int32, u: UInt32)
    ensures ToU32(v) == v % 0x1_0000_0000 && ToI32(ToU32(v)) == v
    ensures ToI32(u) % 0x1_0000_0000 == u && ToU32(ToI32(u)) == u
  {
  }

  /** The conversion of a size keeps its value modulo 2^32. */
  lemma TruncateWraps(n: nat, k: nat)
    requires n < 0x1_0000_0000
    ensures Truncate32(n + 0x1_0000_0000 * k) == n
  {
  }
}
