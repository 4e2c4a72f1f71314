/** The bytes of requests and responses, with the numbers of the protocol written out. */
module WireFormat {
  import opened Wrappers
  import opened Bytes
  import opened ProtocolV2
  import opened Sessions
  import opened Responses

  /** The words that every request begins with. */
  lemma MagicWords()
    ensures EncodeU32(PROTOCOL_MAGIC) == [0x52, 0x44, 0x52, 0x42]
    ensures EncodeU32(PROTOCOL_VERSION) == [2, 0, 0, 0] && EncodeU32(MSG_TYPE_REQUEST) == [1, 0, 0, 0]
  {
  }

  /** A request frame as a whole: "RDRB", version 2, type 1, the id, the engine byte, and the payload's fields. */
  lemma RequestBytes(call: Call)
    ensures var r := call.request;
            RequestFrame(call) ==
            [0x52, 0x44, 0x52, 0x42] + [2, 0, 0, 0] + [1, 0, 0, 0] + EncodeU32(call.requestId)
            + [if r.engine == RealESRGAN then 1 else 0] + EncodeU32(|r.meta| % 0x1_0000_0000) + r.meta
            + EncodeU32(r.gpuId % 0x1_0000_0000) + EncodeU32(r.batchCount) + EncodeImages(r.images)
  {
    hide EncodeImages, EncodeU32;
    MagicWords();
    TwosComplement(call.request.gpuId, 0);
  }

  /** Each image of a batch is preceded by its length. */
  lemma ImageBytes(images: seq<ByteString>, image: ByteString)
    ensures EncodeImages([]) == []
    ensures EncodeImages(images + [image]) == EncodeImages(images) + EncodeU32(|image| % 0x1_0000_0000) + image
  {
    hide EncodeU32;
    assert (images + [image])[..|images|] == images;
  }

  /** The number that stands for each status. */
  function StatusByte(status: Status): Byte {
    match status
    case Ok => 0
    case InvalidFrame => 1
    case ValidationError => 2
    case EngineError => 3
    case ResourceLimit => 4
    case Timeout => 5
  }

  /** A response as a whole, when its error text and its results can be counted: id, status, text and results. */
  lemma ResponseBytes(r: Response)
    requires |r.error| < 0x1_0000_0000 && |r.outputs| < 0x1_0000_0000
    ensures EncodeResponse(r) ==
            EncodeU32(|ResponseBody(r)| % 0x1_0000_0000)
            + EncodeU32(r.requestId) + [StatusByte(r.status), 0, 0, 0]
            + EncodeU32(|r.error|) + r.error + EncodeU32(|r.outputs|) + EncodeImages(r.outputs)
  {
    StatusWord(r.status);
    PrefixExact(r);
    hide EncodeImages, PayloadBytes, EncodeU32;
    assert r.error[..|r.error|] == r.error;
  }

  lemma StatusWord(status: Status)
    ensures EncodeU32(status.Code()) == [StatusByte(status), 0, 0, 0]
  {
  }

  /** The limits of a request, as numbers. */
  lemma LimitsInNumbers(r: Request, maxBatchItems: nat)
    ensures InLimits(r, maxBatchItems) <==>
            && |r.meta| <= 64 && 1 <= r.batchCount <= maxBatchItems && |r.images| == r.batchCount
            && TotalBytes(r.images) <= 48 * 1024 * 1024
  {
  }
}
