/**
 Properties of whole keep-alive sessions: how the server stays in step with its input whatever it is
 sent, what each response may contain, and the round trip from a client's requests to its results.
 */
module Sessions {
  import opened Wrappers
  import opened Bytes
  import opened ProtocolV2
  import opened RequestRoundTrip
  import opened Responses
  import opened KeepAlive

  // ---- Framing ----

  /** A message that can be framed: not empty, as that means shutdown, and with a 32-bit length. */
  predicate Frameable(frame: ByteString) {
    0 < |frame| < 0x1_0000_0000
  }

  function EncodeFrames(frames: seq<ByteString>): ByteString {
    if frames == [] then [] else EncodeBlob(frames[0]) + EncodeFrames(frames[1..])
  }

  /** What ends a session: too few bytes for a length, the shutdown frame, or a truncated frame. */
  predicate Ends(tail: ByteString) {
    |tail| < 4 || DecodeU32(tail) == 0 || |tail| - 4 < DecodeU32(tail)
  }

  /** A frame is consumed as a whole, whatever is in it, and the session goes on right behind it. */
  lemma Resynchronises(frame: ByteString, rest: ByteString)
    requires Frameable(frame)
    ensures SplitFrames(EncodeBlob(frame) + rest) == [frame] + SplitFrames(rest)
  {
    BlobSplits(frame, rest);
  }

  /** What the server extracts from its input is the one way to read it as frames and an end. */
  lemma {:induction false} SplitIsUnique(frames: seq<ByteString>, tail: ByteString)
    requires forall i :: 0 <= i < |frames| ==> Frameable(frames[i])
    requires Ends(tail)
    ensures SplitFrames(EncodeFrames(frames) + tail) == frames
  {
    if frames == [] {
      assert EncodeFrames(frames) + tail == tail;
    } else {
      var rest := EncodeFrames(frames[1..]) + tail;
      assert EncodeFrames(frames) + tail == EncodeBlob(frames[0]) + rest;
      Resynchronises(frames[0], rest);
      SplitIsUnique(frames[1..], tail);
    }
  }

  lemma {:induction false} SplitCovers(input: ByteString)
    ensures var frames := SplitFrames(input);
            && (forall i :: 0 <= i < |frames| ==> Frameable(frames[i]))
            && exists tail :: Ends(tail) && input == EncodeFrames(frames) + tail
    decreases |input|
  {
    if SplitFrames(input) == [] {
      assert Ends(input) && input == EncodeFrames([]) + input;
    } else {
      var len, rest := DecodeU32(input), input[4..];
      var frame, frames := rest[..len], SplitFrames(rest[len..]);
      SplitCovers(rest[len..]);
      var tail :| Ends(tail) && rest[len..] == EncodeFrames(frames) + tail;
      BlobJoins(input);
      assert ([frame] + frames)[1..] == frames;
      assert input == EncodeFrames([frame] + frames) + tail;
    }
  }

  /** The bytes the server writes for a given input. */
  function Session(server: Server, input: ByteString): ByteString {
    EncodeResponses(Replies(server, SplitFrames(input)))
  }

  /**
   Isolation: the output for a stream that begins with some frame is the answer to that frame alone,
   followed by the output for the rest of the stream alone.
   */
  lemma FramesAreIsolated(server: Server, frame: ByteString, rest: ByteString)
    requires Frameable(frame)
    ensures Session(server, EncodeBlob(frame) + rest) ==
            EncodeResponse(Respond(server, frame)) + Session(server, rest)
  {
    hide Respond, EncodeResponse, SplitFrames;
    Resynchronises(frame, rest);
    var frames := SplitFrames(rest);
    RepliesCons(server, frame, frames);
    var replies := Replies(server, [frame] + frames);
    assert replies[1..] == Replies(server, frames);
  }

  lemma RepliesCons(server: Server, frame: ByteString, frames: seq<ByteString>)
    ensures Replies(server, [frame] + frames) == [Respond(server, frame)] + Replies(server, frames)
  {
    var all := [frame] + frames;
    var replies := Replies(server, all);
    var others := Replies(server, frames);
    forall i | 0 <= i < |all|
      ensures replies[i] == ([Respond(server, frame)] + others)[i]
    {
      if i > 0 {
        assert all[i] == frames[i - 1];
      }
    }
  }

  // ---- What a response contains ----

  /** Every image of the batch is processed, each on its own and in order. */
  predicate AllProcessed(engine: ByteString -> Option<ByteString>, images: seq<ByteString>, outputs: seq<ByteString>) {
    |outputs| == |images| && forall i :: 0 <= i < |images| ==> engine(images[i]) == Some(outputs[i])
  }

  lemma {:induction false} BatchOutcome(engine: ByteString -> Option<ByteString>, images: seq<ByteString>, from: nat,
                                        before: seq<ByteString>)
    requires from <= |images| && AllProcessed(engine, images[..from], before)
    ensures match RunBatch(engine, images, from, before)
            case Outputs(outputs) => AllProcessed(engine, images, outputs)
            case FailedAt(index) =>
              && from <= index < |images| && engine(images[index]).None?
              && forall i :: from <= i < index ==> engine(images[i]).Some?
    decreases |images| - from
  {
    if from == |images| {
      assert images[..from] == images;
    } else if engine(images[from]).Some? {
      var after := before + [engine(images[from]).value];
      assert forall i :: 0 <= i < from ==> images[..from + 1][i] == images[..from][i];
      BatchOutcome(engine, images, from + 1, after);
    }
  }

  /** The request in a frame, if the frame is of an acceptable size and holds one within the limits. */
  function RequestIn(server: Server, frame: ByteString): Option<Request> {
    if |frame| <= HEADER_SIZE || |frame| > MAX_MESSAGE_BYTES || CheckHeader(frame).Some? then None
    else
      match ParseRequest(frame[HEADER_SIZE..], server.maxBatchItems)
      case Rejected(_, _) => None
      case Parsed(request) => Some(request)
  }

  /**
   All or nothing: the status is Ok just when the frame holds a request all of whose images the engine
   can process; then the outputs are its results, one per image and in order. Any other response has
   no outputs at all.
   */
  lemma AllOrNothing(server: Server, frame: ByteString)
    ensures var r, request := Respond(server, frame), RequestIn(server, frame);
            && (r.status == Ok <==>
                  && request.Some?
                  && forall i :: 0 <= i < |request.value.images| ==> server.engine(request.value.images[i]).Some?)
            && (r.status == Ok ==>
                  && AllProcessed(server.engine, request.value.images, r.outputs)
                  && |r.outputs| == request.value.batchCount && r.error == [])
            && (r.status != Ok ==> r.outputs == [])
  {
    hide ParsePreamble, ParseImages;
    if RequestIn(server, frame).Some? {
      var request := RequestIn(server, frame).value;
      EncodeInvertsParse(frame[HEADER_SIZE..], server.maxBatchItems);
      BatchOutcome(server.engine, request.images, 0, []);
    } else {
      RejectedHasNoOutputs(server, frame);
    }
  }

  lemma RejectedHasNoOutputs(server: Server, frame: ByteString)
    requires RequestIn(server, frame).None?
    ensures Respond(server, frame).status != Ok && Respond(server, frame).outputs == []
  {
    hide ParsePreamble, ParseImages;
    if |frame| > HEADER_SIZE {
      var body := frame[HEADER_SIZE..];
      if ParseRequest(body, server.maxBatchItems).Rejected? {
        RejectionStatus(body, server.maxBatchItems);
      }
    }
  }

  /** A frame of 16 bytes to 64 MiB that begins with magic, version and message type of a request. */
  predicate Recognised(frame: ByteString) {
    && 16 <= |frame| <= 64 * 1024 * 1024
    && DecodeU32(frame) == 0x4252_4452 && DecodeU32(frame[4..]) == 2 && DecodeU32(frame[8..]) == 1
  }

  /** Behind a valid preamble and some images in full, an image is announced that exceeds the budget. */
  ghost predicate OverflowsBatch(server: Server, body: ByteString) {
    var p := ParsePreamble(body, server.maxBatchItems);
    p.Preamble? && exists more, next: UInt32, rest :: Overflows(p.rest, p.batchCount, [], more, next, rest)
  }

  /** The status that each frame gets, exactly, in terms of the frame; Timeout never occurs. */
  lemma StatusOfFrame(server: Server, frame: ByteString)
    ensures var status := Respond(server, frame).status;
            && (status == InvalidFrame <==> |frame| < 16 || |frame| > 64 * 1024 * 1024)
            && (status == ResourceLimit <==> Recognised(frame) && OverflowsBatch(server, frame[16..]))
            && (status == ValidationError <==>
                  && 16 <= |frame| <= 64 * 1024 * 1024 && RequestIn(server, frame).None?
                  && !(Recognised(frame) && OverflowsBatch(server, frame[16..])))
            && (status == EngineError <==>
                  && RequestIn(server, frame).Some?
                  && exists i :: 0 <= i < |RequestIn(server, frame).value.images|
                                 && server.engine(RequestIn(server, frame).value.images[i]).None?)
            && status != Timeout
  {
    hide ParsePreamble, ParseImages, DecodeU32, Overflows;
    if RequestIn(server, frame).Some? {
      BatchOutcome(server.engine, RequestIn(server, frame).value.images, 0, []);
      AcceptedDoesNotOverflow(server, frame[16..]);
    } else if |frame| >= HEADER_SIZE {
      var body := frame[HEADER_SIZE..];
      if body == [] {
        EmptyDoesNotOverflow(server);
      } else if ParseRequest(body, server.maxBatchItems).Rejected? {
        RejectionStatus(body, server.maxBatchItems);
      }
    }
  }

  lemma EmptyDoesNotOverflow(server: Server)
    ensures !OverflowsBatch(server, [])
  {
  }

  lemma AcceptedDoesNotOverflow(server: Server, body: ByteString)
    requires ParseRequest(body, server.maxBatchItems).Parsed?
    ensures !OverflowsBatch(server, body)
  {
    var p := ParsePreamble(body, server.maxBatchItems);
    if more, next: UInt32, rest :| Overflows(p.rest, p.batchCount, [], more, next, rest) {
      OverflowIsReported(p.rest, p.batchCount, [], more, next, rest);
    }
  }

  /** A frame that has room for a header gets its own request id back, even if the header is rejected. */
  lemma EchoesRequestId(server: Server, frame: ByteString)
    ensures Respond(server, frame).requestId ==
            if HEADER_SIZE <= |frame| <= MAX_MESSAGE_BYTES then DecodeU32(frame[12..]) else 0
  {
    hide ParsePreamble, ParseImages, DecodeU32;
  }

  // ---- From the client's requests to the client's results ----

  datatype Call = Call(requestId: UInt32, request: Request)

  function RequestFrame(call: Call): ByteString {
    EncodeHeader(Header(PROTOCOL_MAGIC, PROTOCOL_VERSION, MSG_TYPE_REQUEST, call.requestId))
    + EncodeRequest(call.request)
  }

  /** What the results on these images take up in a response. */
  function ResultBytes(engine: ByteString -> Option<ByteString>, images: seq<ByteString>): nat {
    if images == [] then 0
    else
      var output := engine(images[|images| - 1]);
      ResultBytes(engine, images[..|images| - 1]) + if output.Some? then 4 + |output.value| else 0
  }

  /**
   A call the server can serve: within the limits, the engine succeeds on every image, and the response
   with its results can be counted in 32 bits.
   */
  predicate Servable(server: Server, call: Call) {
    && InLimits(call.request, server.maxBatchItems)
    && |RequestFrame(call)| <= MAX_MESSAGE_BYTES
    && (forall i :: 0 <= i < |call.request.images| ==> server.engine(call.request.images[i]).Some?)
    && 16 + ResultBytes(server.engine, call.request.images) < 0x1_0000_0000
  }

  lemma {:induction false} ResultBytesCount(engine: ByteString -> Option<ByteString>, images: seq<ByteString>,
                                            outputs: seq<ByteString>)
    requires AllProcessed(engine, images, outputs)
    ensures ResultBytes(engine, images) == |EncodeImages(outputs)|
  {
    if images != [] {
      var k := |images| - 1;
      assert engine(images[k]) == Some(outputs[k]);
      assert AllProcessed(engine, images[..k], outputs[..k]);
      ResultBytesCount(engine, images[..k], outputs[..k]);
    }
  }

  /** The Ok response to a call can be counted in 32 bits just when its results can. */
  lemma ResponseIsCounted(server: Server, call: Call)
    requires Servable(server, call)
    ensures Transmittable(Respond(server, RequestFrame(call)))
  {
    hide Respond, RequestFrame, ResponseBody, InLimits, RequestIn;
    CallIsUnderstood(server, call);
    AllOrNothing(server, RequestFrame(call));
    var r := Respond(server, RequestFrame(call));
    ResultBytesCount(server.engine, call.request.images, r.outputs);
    BodyLength(r);
  }

  lemma CallIsUnderstood(server: Server, call: Call)
    requires InLimits(call.request, server.maxBatchItems) && |RequestFrame(call)| <= MAX_MESSAGE_BYTES
    ensures RequestIn(server, RequestFrame(call)) == Some(call.request)
    ensures Respond(server, RequestFrame(call)).requestId == call.requestId
    ensures Frameable(RequestFrame(call))
  {
    hide ParsePreamble, ParseImages, EncodeHeader, DecodeU32, EncodePreamble, EncodeImages;
    var header := Header(PROTOCOL_MAGIC, PROTOCOL_VERSION, MSG_TYPE_REQUEST, call.requestId);
    var frame := RequestFrame(call);
    HeaderRoundTrip(header, EncodeRequest(call.request));
    assert frame[HEADER_SIZE..] == EncodeRequest(call.request);
    ParseInvertsEncode(call.request, server.maxBatchItems);
    EncodeInvertsParse(EncodeRequest(call.request), server.maxBatchItems);
    EchoesRequestId(server, frame);
    assert DecodeHeader(frame).requestId == DecodeU32(frame[12..]);
  }

  /** The server understands exactly the frames that a client builds for requests within the limits. */
  lemma UnderstoodExactly(server: Server, frame: ByteString, request: Request)
    requires |frame| >= HEADER_SIZE
    ensures RequestIn(server, frame) == Some(request) <==>
            && InLimits(request, server.maxBatchItems) && |frame| <= MAX_MESSAGE_BYTES
            && frame == RequestFrame(Call(DecodeU32(frame[12..]), request))
  {
    hide ParsePreamble, ParseImages, DecodeU32, EncodeHeader, EncodeRequest, InLimits;
    var call := Call(DecodeU32(frame[12..]), request);
    if InLimits(request, server.maxBatchItems) && |frame| <= MAX_MESSAGE_BYTES && frame == RequestFrame(call) {
      CallIsUnderstood(server, call);
    }
    if RequestIn(server, frame) == Some(request) {
      HeaderWritesBack(frame);
      EncodeInvertsParse(frame[HEADER_SIZE..], server.maxBatchItems);
      assert DecodeHeader(frame) == Header(PROTOCOL_MAGIC, PROTOCOL_VERSION, MSG_TYPE_REQUEST, call.requestId);
      assert frame == frame[..HEADER_SIZE] + frame[HEADER_SIZE..];
    }
  }

  function CallFrames(calls: seq<Call>): (frames: seq<ByteString>)
    ensures |frames| == |calls| && forall i :: 0 <= i < |calls| ==> frames[i] == RequestFrame(calls[i])
  {
    seq(|calls|, i requires 0 <= i < |calls| => RequestFrame(calls[i]))
  }

  /**
   End to end: a client that sends any list of servable calls, then ends the session in any way, and
   reads the server's output, gets one Ok response per call, in order, with the id of the call and the
   engine's result on each of its images.
   */
  lemma ClientGetsResults(server: Server, calls: seq<Call>, tail: ByteString)
    requires forall i :: 0 <= i < |calls| ==> Servable(server, calls[i])
    requires Ends(tail)
    ensures var received := ReadResponses(Session(server, EncodeFrames(CallFrames(calls)) + tail));
            && received.Some? && |received.value| == |calls|
            && forall i :: 0 <= i < |calls| ==>
                 && received.value[i].requestId == calls[i].requestId
                 && received.value[i].status == Ok
                 && AllProcessed(server.engine, calls[i].request.images, received.value[i].outputs)
  {
    hide Respond, RequestFrame, EncodeFrames, InLimits, RequestIn, Transmittable;
    var frames := CallFrames(calls);
    forall i | 0 <= i < |calls|
      ensures Frameable(frames[i]) && Transmittable(Respond(server, frames[i]))
    {
      CallIsUnderstood(server, calls[i]);
      ResponseIsCounted(server, calls[i]);
    }
    SplitIsUnique(frames, tail);
    var replies := Replies(server, frames);
    ResponsesRoundTrip(replies);
    forall i | 0 <= i < |calls|
      ensures replies[i].requestId == calls[i].requestId && replies[i].status == Ok
      ensures AllProcessed(server.engine, calls[i].request.images, replies[i].outputs)
    {
      CallIsUnderstood(server, calls[i]);
      AllOrNothing(server, frames[i]);
    }
  }
}
