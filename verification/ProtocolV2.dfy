/**
 The request side of the BRDR v2 wire format (protocol_v2.hpp) and its encoder
 (protocol_request_payload_test.cpp).
 */
module ProtocolV2 {
  import opened Wrappers
  import opened Bytes

  const PROTOCOL_MAGIC: UInt32 := 0x42524452
  const PROTOCOL_VERSION: UInt32 := 2
  const MSG_TYPE_REQUEST: UInt32 := 1
  const HEADER_SIZE: nat := 16
  const MAX_META_BYTES: nat := 64
  const MAX_IMAGE_BYTES: nat := 50 * 1024 * 1024
  const MAX_BATCH_BYTES: nat := 48 * 1024 * 1024

  datatype Status = Ok | InvalidFrame | ValidationError | EngineError | ResourceLimit | Timeout {
    /** The number on the wire. */
    function Code(): UInt32 {
      match this
      case Ok => 0
      case InvalidFrame => 1
      case ValidationError => 2
      case EngineError => 3
      case ResourceLimit => 4
      case Timeout => 5
    }
  }

  /** One case per error message of the program; the wording of the messages is not modelled. */
  datatype Problem =
    | FrameTooShort | FrameTooLarge
    | HeaderTooShort | BadMagic | BadVersion(version: UInt32) | BadMessageType(msgType: UInt32)
    | EmptyBody | MissingEngine | BadEngine
    | MissingMetaLength | MetaTooLong | MetaTruncated | MissingGpuId
    | MissingBatchCount | EmptyBatch | BatchTooLong
    | MissingImageLength(index: nat) | OverBudget | ImageTruncated(index: nat) | TrailingBytes
    | EngineFailed(index: nat)

  // ---- The header ----

  datatype Header = Header(magic: UInt32, version: UInt32, msgType: UInt32, requestId: UInt32)

  function DecodeHeader(payload: ByteString): Header
    requires |payload| >= HEADER_SIZE
  {
    Header(DecodeU32(payload), DecodeU32(payload[4..]), DecodeU32(payload[8..]), DecodeU32(payload[12..]))
  }

  function EncodeHeader(h: Header): ByteString {
    EncodeU32(h.magic) + EncodeU32(h.version) + EncodeU32(h.msgType) + EncodeU32(h.requestId)
  }

  /** parse_protocol_header: what is wrong with the header of a payload, if anything. */
  function CheckHeader(payload: ByteString): Option<Problem> {
    if |payload| < HEADER_SIZE then Some(HeaderTooShort)
    else
      var h := DecodeHeader(payload);
      if h.magic != PROTOCOL_MAGIC then Some(BadMagic)
      else if h.version != PROTOCOL_VERSION then Some(BadVersion(h.version))
      else if h.msgType != MSG_TYPE_REQUEST then Some(BadMessageType(h.msgType))
      else None
  }

  lemma HeaderRoundTrip(h: Header, rest: ByteString)
    ensures |EncodeHeader(h)| == HEADER_SIZE
    ensures DecodeHeader(EncodeHeader(h) + rest) == h
  {
    var b := EncodeHeader(h) + rest;
    DecodeEncode(h.magic, b[4..]);
    DecodeEncode(h.version, b[8..]);
    DecodeEncode(h.msgType, b[12..]);
    DecodeEncode(h.requestId, rest);
    assert b == EncodeU32(h.magic) + b[4..];
    assert b[4..] == EncodeU32(h.version) + b[8..];
    assert b[8..] == EncodeU32(h.msgType) + b[12..];
    assert b[12..] == EncodeU32(h.requestId) + rest;
  }

  lemma HeaderWritesBack(payload: ByteString)
    requires |payload| >= HEADER_SIZE
    ensures EncodeHeader(DecodeHeader(payload)) == payload[..HEADER_SIZE]
  {
    hide EncodeU32, DecodeU32;
    EncodeDecode(payload);
    EncodeDecode(payload[4..]);
    EncodeDecode(payload[8..]);
    EncodeDecode(payload[12..]);
    assert payload[..4] + payload[4..][..4] + payload[8..][..4] + payload[12..][..4] == payload[..16];
  }

  // ---- Requests ----

  datatype EngineType = RealCUGAN | RealESRGAN

  datatype Request = Request(
    engine: EngineType, meta: ByteString, gpuId: Int32, batchCount: UInt32, images: seq<ByteString>)

  datatype ParseResult = Parsed(request: Request) | Rejected(status: Status, problem: Problem)

  function EngineId(engine: EngineType): Byte {
    if engine.RealESRGAN? then 1 else 0
  }

  /** Sum of the image sizes. */
  function TotalBytes(images: seq<ByteString>): nat {
    if images == [] then 0 else TotalBytes(images[..|images| - 1]) + |images[|images| - 1]|
  }

  /** The requests the server is meant to accept. */
  predicate InLimits(r: Request, maxBatchItems: nat) {
    && |r.meta| <= MAX_META_BYTES
    && 1 <= r.batchCount <= maxBatchItems
    && |r.images| == r.batchCount
    && TotalBytes(r.images) <= MAX_BATCH_BYTES
  }

  // ---- The encoder ----

  function EncodeBlob(blob: ByteString): ByteString {
    EncodeU32(Truncate32(|blob|)) + blob
  }

  function EncodeImages(images: seq<ByteString>): ByteString {
    if images == [] then [] else EncodeImages(images[..|images| - 1]) + EncodeBlob(images[|images| - 1])
  }

  function EncodePreamble(engine: EngineType, meta: ByteString, gpuId: Int32, batchCount: UInt32): ByteString {
    [EngineId(engine)] + EncodeBlob(meta) + EncodeU32(ToU32(gpuId)) + EncodeU32(batchCount)
  }

  function EncodeRequest(r: Request): ByteString {
    EncodePreamble(r.engine, r.meta, r.gpuId, r.batchCount) + EncodeImages(r.images)
  }

  method BuildPayload(r: Request) returns (payload: ByteString)
    ensures payload == EncodeRequest(r)
  {
    payload := [EngineId(r.engine)];
    payload := payload + EncodeU32(Truncate32(|r.meta|));
    payload := payload + r.meta;
    payload := payload + EncodeU32(ToU32(r.gpuId));
    payload := payload + EncodeU32(r.batchCount);
    ghost var preamble := EncodePreamble(r.engine, r.meta, r.gpuId, r.batchCount);
    assert payload == preamble;
    for i := 0 to |r.images|
      invariant payload == preamble + EncodeImages(r.images[..i])
    {
      assert r.images[..i + 1][..i] == r.images[..i];
      payload := payload + EncodeU32(Truncate32(|r.images[i]|));
      payload := payload + r.images[i];
    }
    assert r.images[..|r.images|] == r.images;
  }

  // ---- The parser ----

  datatype PreambleResult =
    | Preamble(engine: EngineType, meta: ByteString, gpuId: Int32, batchCount: UInt32, rest: ByteString)
    | BadPreamble(problem: Problem)

  /** Everything before the images. */
  function ParsePreamble(data: ByteString, maxBatchItems: nat): PreambleResult {
    if |data| < 1 then BadPreamble(MissingEngine)
    else if data[0] > 1 then BadPreamble(BadEngine)
    else
      var engine := if data[0] == 1 then RealESRGAN else RealCUGAN;
      var d1 := data[1..];
      if |d1| < 4 then BadPreamble(MissingMetaLength)
      else
        var metaLen, d2 := DecodeU32(d1), d1[4..];
        if metaLen > MAX_META_BYTES then BadPreamble(MetaTooLong)
        else if metaLen > |d2| then BadPreamble(MetaTruncated)
        else
          var meta, d3 := d2[..metaLen], d2[metaLen..];
          if |d3| < 4 then BadPreamble(MissingGpuId)
          else
            var gpuId, d4 := ToI32(DecodeU32(d3)), d3[4..];
            if |d4| < 4 then BadPreamble(MissingBatchCount)
            else
              var batchCount, rest := DecodeU32(d4), d4[4..];
              if batchCount == 0 then BadPreamble(EmptyBatch)
              else if batchCount > maxBatchItems then BadPreamble(BatchTooLong)
              else Preamble(engine, meta, gpuId, batchCount, rest)
  }

  datatype ImagesResult = Images(images: seq<ByteString>) | BadImages(status: Status, problem: Problem)

  /** The images from index |images| on; `images` and `total` are what has been read before. */
  function ParseImages(data: ByteString, batchCount: nat, images: seq<ByteString>, total: nat): ImagesResult
    requires |images| <= batchCount
    decreases batchCount - |images|
  {
    if |images| == batchCount then
      if |data| > 0 then BadImages(ValidationError, TrailingBytes) else Images(images)
    else if |data| < 4 then BadImages(ValidationError, MissingImageLength(|images|))
    else
      var imageLen, rest := DecodeU32(data), data[4..];
      if total + imageLen > MAX_BATCH_BYTES then BadImages(ResourceLimit, OverBudget)
      else if imageLen > MAX_IMAGE_BYTES then assert false; BadImages(ResourceLimit, OverBudget)
      else if imageLen > |rest| then BadImages(ValidationError, ImageTruncated(|images|))
      else ParseImages(rest[imageLen..], batchCount, images + [rest[..imageLen]], total + imageLen)
  }

  function ParseRequest(data: ByteString, maxBatchItems: nat): ParseResult {
    match ParsePreamble(data, maxBatchItems)
    case BadPreamble(problem) => Rejected(ValidationError, problem)
    case Preamble(engine, meta, gpuId, batchCount, rest) =>
      WithImages(engine, meta, gpuId, batchCount, ParseImages(rest, batchCount, [], 0))
  }

  function WithImages(engine: EngineType, meta: ByteString, gpuId: Int32, batchCount: UInt32,
                      read: ImagesResult): ParseResult
  {
    match read
    case BadImages(status, problem) => Rejected(status, problem)
    case Images(images) => Parsed(Request(engine, meta, gpuId, batchCount, images))
  }

  /** parse_request_payload; `pos` is the read position in the data. */
  method ParseRequestPayload(data: ByteString, maxBatchItems: nat) returns (result: ParseResult)
    ensures result == ParseRequest(data, maxBatchItems)
  {
    var pos: nat, remaining: nat := 0, |data|;
    if remaining < 1 {
      return Rejected(ValidationError, MissingEngine);
    }
    var engineId := data[pos];
    pos, remaining := pos + 1, remaining - 1;
    if engineId > 1 {
      return Rejected(ValidationError, BadEngine);
    }
    var engine := if engineId == 1 then RealESRGAN else RealCUGAN;
    if remaining < 4 {
      return Rejected(ValidationError, MissingMetaLength);
    }
    var metaLen := DecodeU32(data[pos..]);
    pos, remaining := pos + 4, remaining - 4;
    assert data[1..][4..] == data[pos..];
    if metaLen > MAX_META_BYTES {
      return Rejected(ValidationError, MetaTooLong);
    }
    if metaLen > remaining {
      return Rejected(ValidationError, MetaTruncated);
    }
    var meta := data[pos..pos + metaLen];
    assert data[pos..][..metaLen] == meta && data[pos..][metaLen..] == data[pos + metaLen..];
    pos, remaining := pos + metaLen, remaining - metaLen;
    if remaining < 4 {
      return Rejected(ValidationError, MissingGpuId);
    }
    var gpuId := ToI32(DecodeU32(data[pos..]));
    assert data[pos..][4..] == data[pos + 4..];
    pos, remaining := pos + 4, remaining - 4;
    if remaining < 4 {
      return Rejected(ValidationError, MissingBatchCount);
    }
    var batchCount := DecodeU32(data[pos..]);
    assert data[pos..][4..] == data[pos + 4..];
    pos, remaining := pos + 4, remaining - 4;
    if batchCount == 0 {
      return Rejected(ValidationError, EmptyBatch);
    }
    if batchCount > maxBatchItems {
      return Rejected(ValidationError, BatchTooLong);
    }
    assert ParsePreamble(data, maxBatchItems) == Preamble(engine, meta, gpuId, batchCount, data[pos..]);
    result := ParseImageLoop(data, pos, engine, meta, gpuId, batchCount);
  }

  /** The loop over the images, from position `start` on. */
  method ParseImageLoop(data: ByteString, start: nat, engine: EngineType, meta: ByteString, gpuId: Int32,
                        batchCount: UInt32)
    returns (result: ParseResult)
    requires start <= |data|
    ensures result == WithImages(engine, meta, gpuId, batchCount, ParseImages(data[start..], batchCount, [], 0))
  {
    hide DecodeU32;
    var pos: nat, remaining: nat := start, |data| - start;
    var images: seq<ByteString> := [];
    var totalImageBytes: nat := 0;
    for i := 0 to batchCount
      invariant pos <= |data| && remaining == |data| - pos && |images| == i
      invariant ParseImages(data[start..], batchCount, [], 0) ==
                ParseImages(data[pos..], batchCount, images, totalImageBytes)
    {
      if remaining < 4 {
        return Rejected(ValidationError, MissingImageLength(i));
      }
      var imageLen := DecodeU32(data[pos..]);
      assert data[pos..][4..] == data[pos + 4..];
      pos, remaining := pos + 4, remaining - 4;
      totalImageBytes := totalImageBytes + imageLen;
      if totalImageBytes > MAX_BATCH_BYTES {
        return Rejected(ResourceLimit, OverBudget);
      }
      if imageLen > MAX_IMAGE_BYTES {
        assert false;
      }
      if imageLen > remaining {
        return Rejected(ValidationError, ImageTruncated(i));
      }
      assert data[pos..][..imageLen] == data[pos..pos + imageLen];
      assert data[pos..][imageLen..] == data[pos + imageLen..];
      images := images + [data[pos..pos + imageLen]];
      pos, remaining := pos + imageLen, remaining - imageLen;
    }
    if remaining > 0 {
      return Rejected(ValidationError, TrailingBytes);
    }
    result := Parsed(Request(engine, meta, gpuId, batchCount, images));
  }
}
