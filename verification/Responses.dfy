/**
 The response side of the wire format: write_protocol_response (stdin_mode.cpp) and the reader of the
 benchmark client (benchmark_pipeline.py), extended to the outputs, which the client skips.
 */
module Responses {
  import opened Wrappers
  import opened Bytes
  import opened ProtocolV2
  import opened RequestRoundTrip
  import opened Streams

  datatype Response = Response(requestId: UInt32, status: Status, error: ByteString, outputs: seq<ByteString>)

  // ---- Writing ----

  /** What follows the length prefix. */
  function ResponseBody(r: Response): ByteString {
    EncodeU32(r.requestId) + EncodeU32(r.status.Code())
    + EncodeU32(Truncate32(|r.error|)) + r.error[..Truncate32(|r.error|)]
    + EncodeU32(Truncate32(|r.outputs|)) + EncodeImages(r.outputs)
  }

  /** The length prefix, summed up in wrapping 32-bit arithmetic. */
  function OutputsBytes(outputs: seq<ByteString>): UInt32 {
    if outputs == [] then 0
    else Truncate32(OutputsBytes(outputs[..|outputs| - 1]) + Truncate32(4 + Truncate32(|outputs[|outputs| - 1]|)))
  }

  function PayloadBytes(r: Response): UInt32 {
    Truncate32(Truncate32(4 + 4 + 4 + Truncate32(|r.error|) + 4) + OutputsBytes(r.outputs))
  }

  function EncodeResponse(r: Response): ByteString {
    EncodeU32(PayloadBytes(r)) + ResponseBody(r)
  }

  function EncodeResponses(responses: seq<Response>): ByteString {
    if responses == [] then [] else EncodeResponse(responses[0]) + EncodeResponses(responses[1..])
  }

  method SumOutputs(outputs: seq<ByteString>) returns (outputsBytes: UInt32)
    ensures outputsBytes == OutputsBytes(outputs)
  {
    outputsBytes := 0;
    for i := 0 to |outputs|
      invariant outputsBytes == OutputsBytes(outputs[..i])
    {
      assert outputs[..i + 1][..i] == outputs[..i];
      outputsBytes := Truncate32((outputsBytes as nat) + Truncate32(4 + Truncate32(|outputs[i]|)));
    }
    assert outputs[..|outputs|] == outputs;
  }

  method WriteOutputs(stream: OutputStream, outputs: seq<ByteString>)
    modifies stream
    ensures stream.written == old(stream.written) + EncodeImages(outputs)
  {
    for i := 0 to |outputs|
      invariant stream.written == old(stream.written) + EncodeImages(outputs[..i])
    {
      assert outputs[..i + 1][..i] == outputs[..i];
      stream.WriteU32(Truncate32(|outputs[i]|));
      if |outputs[i]| != 0 {
        stream.Write(outputs[i]);
      }
    }
    assert outputs[..|outputs|] == outputs;
  }

  method WriteProtocolResponse(stream: OutputStream, r: Response)
    modifies stream
    ensures stream.written == old(stream.written) + EncodeResponse(r)
  {
    hide Truncate32, EncodeU32, EncodeImages;
    TruncateExact(|r.error|);
    var errorLen: nat := Truncate32(|r.error|);
    var payloadBytes := Truncate32(4 + 4 + 4 + errorLen + 4);
    var outputsBytes := SumOutputs(r.outputs);
    payloadBytes := Truncate32((payloadBytes as nat) + outputsBytes);

    stream.WriteU32(payloadBytes);
    stream.WriteU32(r.requestId);
    stream.WriteU32(r.status.Code());
    stream.WriteU32(errorLen);
    if errorLen > 0 {
      stream.Write(r.error[..errorLen]);
    }
    stream.WriteU32(Truncate32(|r.outputs|));
    WriteOutputs(stream, r.outputs);
  }

  // ---- The length prefix ----

  lemma {:induction false} OutputsBytesWraps(outputs: seq<ByteString>)
    ensures OutputsBytes(outputs) == Truncate32(|EncodeImages(outputs)|)
  {
    if outputs != [] {
      var k := |outputs| - 1;
      OutputsBytesWraps(outputs[..k]);
      var before, last := |EncodeImages(outputs[..k])|, |outputs[k]|;
      hide Truncate32;
      WrapAdd(last, 4);
      WrapAdd(last + 4, Truncate32(before));
      WrapAdd(before, last + 4);
    }
  }

  /** The prefix is the length of what follows, modulo 2^32; so it is exact just when that is below 2^32. */
  lemma PrefixExact(r: Response)
    ensures PayloadBytes(r) == Truncate32(|ResponseBody(r)|)
    ensures PayloadBytes(r) == |ResponseBody(r)| <==> |ResponseBody(r)| < 0x1_0000_0000
  {
    hide Truncate32, ResponseBody;
    var head, tail := 16 + Truncate32(|r.error|), |EncodeImages(r.outputs)|;
    BodyLength(r);
    OutputsBytesWraps(r.outputs);
    WrapAdd(head, Truncate32(tail));
    WrapAdd(tail, head);
    TruncateExact(|ResponseBody(r)|);
  }

  lemma BodyLength(r: Response)
    ensures |ResponseBody(r)| == 16 + Truncate32(|r.error|) + |EncodeImages(r.outputs)|
  {
    hide Truncate32, EncodeImages;
    TruncateExact(|r.error|);
  }

  // ---- Reading ----

  /** parse_response of the client: status, number of results and error text. */
  function ParseResponse(payload: ByteString): Option<(UInt32, UInt32, ByteString)> {
    if |payload| < 12 then None
    else
      var errorLen := DecodeU32(payload[8..]);
      if |payload| < 12 + errorLen + 4 then None
      else Some((DecodeU32(payload[4..]), DecodeU32(payload[12 + errorLen..]), payload[12..12 + errorLen]))
  }

  function StatusOf(code: UInt32): Option<Status> {
    match code
    case 0 => Some(Ok)
    case 1 => Some(InvalidFrame)
    case 2 => Some(ValidationError)
    case 3 => Some(EngineError)
    case 4 => Some(ResourceLimit)
    case 5 => Some(Timeout)
    case _ => None
  }

  /** `count` more length-prefixed blobs, which must use up the data. */
  function ReadBlobs(data: ByteString, count: nat, before: seq<ByteString>): Option<seq<ByteString>>
    decreases count
  {
    if count == 0 then if data == [] then Some(before) else None
    else if |data| < 4 || DecodeU32(data) > |data[4..]| then None
    else ReadBlobs(data[4..][DecodeU32(data)..], count - 1, before + [data[4..][..DecodeU32(data)]])
  }

  /** A whole response from the bytes after its length prefix. */
  function ReadBody(body: ByteString): Option<Response> {
    match ParseResponse(body)
    case None => None
    case Some((code, count, error)) =>
      match StatusOf(code)
      case None => None
      case Some(status) =>
        match ReadBlobs(body[12 + |error| + 4..], count, [])
        case None => None
        case Some(outputs) => Some(Response(DecodeU32(body), status, error, outputs))
  }

  /** A stream of responses. */
  function ReadResponses(stream: ByteString): Option<seq<Response>> {
    if stream == [] then Some([])
    else if |stream| < 4 || |stream[4..]| < DecodeU32(stream) then None
    else
      match ReadBody(stream[4..][..DecodeU32(stream)])
      case None => None
      case Some(first) =>
        match ReadResponses(stream[4..][DecodeU32(stream)..])
        case None => None
        case Some(others) => Some([first] + others)
  }

  /** Responses whose bytes can be counted in 32 bits. */
  predicate Transmittable(r: Response) {
    |r.error| < 0x1_0000_0000 && |ResponseBody(r)| < 0x1_0000_0000
  }

  lemma BlobsAreCounted(blobs: seq<ByteString>, i: nat)
    requires i < |blobs|
    ensures |blobs| <= |EncodeImages(blobs)| && |blobs[i]| <= |EncodeImages(blobs)|
  {
    EncodeImagesLength(blobs);
    TotalBytesPrefix(blobs, i + 1);
    TotalBytesSnoc(blobs[..i], blobs[i]);
    assert blobs[..i + 1] == blobs[..i] + [blobs[i]];
  }

  lemma {:induction false} BlobsRead(blobs: seq<ByteString>, k: nat)
    requires k <= |blobs| && |EncodeImages(blobs)| < 0x1_0000_0000
    ensures ReadBlobs(EncodeImages(blobs[k..]), |blobs| - k, blobs[..k]) == Some(blobs)
    decreases |blobs| - k
  {
    if k == |blobs| {
      assert blobs[..k] == blobs;
    } else {
      assert blobs[k..] == [blobs[k]] + blobs[k + 1..];
      EncodeImagesCons(blobs[k], blobs[k + 1..]);
      assert blobs[..k + 1] == blobs[..k] + [blobs[k]];
      BlobsAreCounted(blobs, k);
      BlobSplits(blobs[k], EncodeImages(blobs[k + 1..]));
      BlobsRead(blobs, k + 1);
    }
  }

  /** The client's reader sees the status, the number of outputs and the error text that were written. */
  lemma ClientReads(r: Response)
    requires Transmittable(r)
    ensures |r.outputs| < 0x1_0000_0000
    ensures ParseResponse(ResponseBody(r)) == Some((r.status.Code(), |r.outputs|, r.error))
    ensures DecodeU32(ResponseBody(r)) == r.requestId
    ensures ResponseBody(r)[12 + |r.error| + 4..] == EncodeImages(r.outputs)
  {
    hide DecodeU32, EncodeU32, EncodeImages, Truncate32;
    BodyLength(r);
    TruncateExact(|r.error|);
    TruncateExact(|r.outputs|);
    if r.outputs != [] {
      BlobsAreCounted(r.outputs, 0);
    }
    assert r.error[..|r.error|] == r.error;
    var body := Fields(r.requestId, r.status.Code(), r.error, |r.outputs|, EncodeImages(r.outputs));
    assert ResponseBody(r) == body;
    FieldsRead(r.requestId, r.status.Code(), r.error, |r.outputs|, EncodeImages(r.outputs));
  }

  function Fields(id: UInt32, code: UInt32, error: ByteString, count: UInt32, rest: ByteString): ByteString
    requires |error| < 0x1_0000_0000
  {
    EncodeU32(id) + (EncodeU32(code) + (EncodeU32(|error|) + (error + (EncodeU32(count) + rest))))
  }

  lemma FieldsRead(id: UInt32, code: UInt32, error: ByteString, count: UInt32, rest: ByteString)
    requires |error| < 0x1_0000_0000
    ensures var body := Fields(id, code, error, count, rest);
            && ParseResponse(body) == Some((code, count, error))
            && DecodeU32(body) == id
            && |body| == 16 + |error| + |rest| && body[12 + |error| + 4..] == rest
  {
    hide DecodeU32, EncodeU32;
    var body := Fields(id, code, error, count, rest);
    var b4 := EncodeU32(count) + rest;
    var b2 := EncodeU32(|error|) + (error + b4);
    var b1 := EncodeU32(code) + b2;
    WordSplits(id, b1);
    WordSplits(code, b2);
    WordSplits(|error|, error + b4);
    WordSplits(count, rest);
    assert body[4..] == b1 && body[8..] == b2 && body[12..] == error + b4;
    assert body[12..12 + |error|] == error && body[12 + |error|..] == b4;
    assert body[12 + |error| + 4..] == b4[4..];
  }

  lemma BodyReads(r: Response)
    requires Transmittable(r)
    ensures ReadBody(ResponseBody(r)) == Some(r)
  {
    hide DecodeU32, EncodeU32, ResponseBody, ParseResponse;
    ClientReads(r);
    BodyLength(r);
    assert r.outputs[0..] == r.outputs && r.outputs[..0] == [];
    BlobsRead(r.outputs, 0);
  }

  /** A stream of responses is uniquely decodable: reading it recovers every response in order. */
  lemma {:induction false} ResponsesRoundTrip(responses: seq<Response>)
    requires forall i :: 0 <= i < |responses| ==> Transmittable(responses[i])
    ensures ReadResponses(EncodeResponses(responses)) == Some(responses)
  {
    hide DecodeU32, EncodeU32, ResponseBody, ReadBody;
    if responses != [] {
      var r, rest := responses[0], EncodeResponses(responses[1..]);
      var body, stream := ResponseBody(r), EncodeResponses(responses);
      PrefixExact(r);
      assert EncodeResponse(r) == EncodeU32(|body|) + body;
      assert stream == EncodeU32(|body|) + (body + rest);
      WordSplits(|body|, body + rest);
      assert stream[4..][..|body|] == body && stream[4..][|body|..] == rest;
      BodyReads(r);
      ResponsesRoundTrip(responses[1..]);
      assert [r] + responses[1..] == responses;
    }
  }
}
