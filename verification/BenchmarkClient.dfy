/** The frame builder of the Python client (build_request_frame in benchmark_pipeline.py). */
module BenchmarkClient {
  import opened Wrappers
  import opened Bytes
  import opened ProtocolV2
  import opened Sessions

  /** The characters that str.encode() accepts. */
  type Scalar = x: int | 0 <= x < 0xD800 || 0xE000 <= x < 0x11_0000

  /** The UTF-8 form of one character (section 3 of RFC 3629). */
  function Utf8(c: Scalar): ByteString {
    if c < 0x80 then [c]
    else if c < 0x800 then [0xC0 + c / 0x40, 0x80 + c % 0x40]
    else if c < 0x1_0000 then [0xE0 + c / 0x1000, 0x80 + c / 0x40 % 0x40, 0x80 + c % 0x40]
    else [0xF0 + c / 0x4_0000, 0x80 + c / 0x1000 % 0x40, 0x80 + c / 0x40 % 0x40, 0x80 + c % 0x40]
  }

  function Utf8All(meta: seq<Scalar>): ByteString {
    if meta == [] then [] else Utf8(meta[0]) + Utf8All(meta[1..])
  }

  predicate Ascii(meta: seq<Scalar>) {
    forall i :: 0 <= i < |meta| ==> meta[i] < 0x80
  }

  /** What the caller hands to the builder. */
  datatype Order = Order(requestId: UInt32, engine: EngineType, meta: seq<Scalar>, gpuId: Int32, batchCount: UInt32,
                         images: seq<ByteString>)

  /** The request the caller means. */
  function Meaning(order: Order): Call {
    Call(order.requestId,
         Request(order.engine, Utf8All(order.meta), order.gpuId, order.batchCount, order.images))
  }

  /** The message as built: the meta length counts characters, the meta itself is encoded. */
  function BuiltMessage(order: Order): ByteString {
    EncodeHeader(Header(PROTOCOL_MAGIC, PROTOCOL_VERSION, MSG_TYPE_REQUEST, order.requestId))
    + ([EngineId(order.engine)] + EncodeU32(Truncate32(|order.meta|)) + Utf8All(order.meta)
       + EncodeU32(ToU32(order.gpuId)) + EncodeU32(order.batchCount) + EncodeImages(order.images))
  }

  /** struct.pack refuses lengths beyond 32 bits. */
  predicate Packable(order: Order) {
    |BuiltMessage(order)| < 0x1_0000_0000 && |order.meta| < 0x1_0000_0000
  }

  method BuildRequestFrame(order: Order) returns (frame: ByteString)
    requires Packable(order)
    ensures frame == EncodeBlob(BuiltMessage(order))
  {
    hide EncodeU32, Utf8All, EncodeImages;
    var header := EncodeU32(PROTOCOL_MAGIC) + EncodeU32(PROTOCOL_VERSION) + EncodeU32(MSG_TYPE_REQUEST)
      + EncodeU32(order.requestId);
    var payload := [EngineId(order.engine)];
    payload := payload + EncodeU32(|order.meta|);
    payload := payload + Utf8All(order.meta);
    payload := payload + EncodeU32(ToU32(order.gpuId));
    payload := payload + EncodeU32(order.batchCount);
    var images := AppendImages(payload, order.images);
    assert header + images == BuiltMessage(order);
    var totalLen := |header| + |images|;
    frame := EncodeU32(totalLen) + header + images;
    assert frame == EncodeU32(totalLen) + (header + images);
  }

  method AppendImages(payload: ByteString, images: seq<ByteString>) returns (extended: ByteString)
    ensures extended == payload + EncodeImages(images)
  {
    extended := payload;
    for i := 0 to |images|
      invariant extended == payload + EncodeImages(images[..i])
    {
      assert images[..i + 1][..i] == images[..i];
      extended := extended + EncodeU32(Truncate32(|images[i]|));
      extended := extended + images[i];
    }
    assert images[..|images|] == images;
  }

  lemma {:induction false} Utf8Length(meta: seq<Scalar>)
    ensures |meta| <= |Utf8All(meta)|
    ensures |meta| == |Utf8All(meta)| <==> Ascii(meta)
  {
    if meta != [] {
      Utf8Length(meta[1..]);
      assert Ascii(meta) <==> meta[0] < 0x80 && Ascii(meta[1..]) by {
        assert forall i :: 1 <= i < |meta| ==> meta[i] == meta[1..][i - 1];
        assert forall i :: 0 <= i < |meta[1..]| ==> meta[1..][i] == meta[i + 1];
      }
    }
  }

  /** An ASCII string encodes to itself. */
  lemma {:induction false} AsciiIsItself(meta: seq<Scalar>)
    requires Ascii(meta)
    ensures |Utf8All(meta)| == |meta| && forall i :: 0 <= i < |meta| ==> Utf8All(meta)[i] == meta[i]
  {
    if meta != [] {
      assert forall i :: 0 <= i < |meta[1..]| ==> meta[1..][i] == meta[i + 1];
      AsciiIsItself(meta[1..]);
      assert Utf8All(meta) == [meta[0]] + Utf8All(meta[1..]);
    }
  }

  /** The six bits that a continuation byte carries. */
  function Low6(b: Byte): int {
    (b as int) - 0x80
  }

  /** The first character of a UTF-8 text and how many bytes it takes, by its first byte. */
  function FirstScalar(text: ByteString): Option<(int, nat)> {
    if |text| == 0 then None
    else
      var first: int := text[0];
      if first < 0x80 then Some((first, 1))
      else if |text| >= 2 && 0xC0 <= first < 0xE0 then
        Some((0x40 * (first - 0xC0) + Low6(text[1]), 2))
      else if |text| >= 3 && 0xE0 <= first < 0xF0 then
        Some((0x1000 * (first - 0xE0) + 0x40 * Low6(text[1]) + Low6(text[2]), 3))
      else if |text| >= 4 && 0xF0 <= first then
        Some((0x4_0000 * (first - 0xF0) + 0x1000 * Low6(text[1]) + 0x40 * Low6(text[2]) + Low6(text[3]), 4))
      else None
  }

  /** The text as the characters it stands for. */
  function DecodeUtf8(text: ByteString): Option<seq<int>>
    decreases |text|
  {
    if text == [] then Some([])
    else
      match FirstScalar(text)
      case None => None
      case Some((c, size)) =>
        match DecodeUtf8(text[size..])
        case None => None
        case Some(others) => Some([c] + others)
  }

  lemma Utf8Reads(c: Scalar, rest: ByteString)
    ensures FirstScalar(Utf8(c) + rest) == Some((c as int, |Utf8(c)|))
    ensures |Utf8(c)| == if c < 0x80 then 1 else if c < 0x800 then 2 else if c < 0x1_0000 then 3 else 4
    ensures (Utf8(c) + rest)[|Utf8(c)|..] == rest
    ensures forall i :: 1 <= i < |Utf8(c)| ==> 0x80 <= Utf8(c)[i] < 0xC0
  {
    var x: int := c;
    assert x == x / 0x40 * 0x40 + x % 0x40;
    assert x / 0x40 == x / 0x1000 * 0x40 + x / 0x40 % 0x40;
    assert x / 0x1000 == x / 0x4_0000 * 0x40 + x / 0x1000 % 0x40;
  }

  /** Decoding recovers every text from its UTF-8 form. */
  lemma {:induction false} Utf8RoundTrip(meta: seq<Scalar>)
    ensures DecodeUtf8(Utf8All(meta)) == Some(meta)
  {
    hide FirstScalar, Utf8;
    if meta != [] {
      Utf8Reads(meta[0], Utf8All(meta[1..]));
      Utf8RoundTrip(meta[1..]);
      assert [meta[0]] + meta[1..] == meta;
    }
  }

  lemma EncodeU32Injective(a: UInt32, b: UInt32)
    requires EncodeU32(a) == EncodeU32(b)
    ensures a == b
  {
    DecodeEncode(a, []);
    DecodeEncode(b, []);
    assert EncodeU32(a) + [] == EncodeU32(b) + [];
  }

  /**
   The builder sends the request that is meant just when all characters of the meta string are ASCII:
   for any other string the announced length is too small.
   */
  lemma BuildsWhatIsMeant(order: Order)
    requires |Utf8All(order.meta)| < 0x1_0000_0000
    ensures BuiltMessage(order) == RequestFrame(Meaning(order)) <==> Ascii(order.meta)
  {
    hide EncodeU32, Utf8All, EncodeHeader, EncodeImages;
    Utf8Length(order.meta);
    var header := EncodeHeader(Header(PROTOCOL_MAGIC, PROTOCOL_VERSION, MSG_TYPE_REQUEST, order.requestId));
    var built, meant := BuiltMessage(order), RequestFrame(Meaning(order));
    var at := |header| + 1;
    assert built[at..at + 4] == EncodeU32(Truncate32(|order.meta|));
    assert meant[at..at + 4] == EncodeU32(Truncate32(|Utf8All(order.meta)|));
    if built == meant {
      EncodeU32Injective(Truncate32(|order.meta|), Truncate32(|Utf8All(order.meta)|));
    }
    if Ascii(order.meta) {
      assert built == meant;
    }
  }
}
