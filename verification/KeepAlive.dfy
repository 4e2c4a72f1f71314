/**
 The keep-alive server loop (stdin_mode.cpp). The engine is an arbitrary partial function from image
 bytes to image bytes; the wording of error messages is an arbitrary function of the problem.
 */
module KeepAlive {
  import opened Wrappers
  import opened Bytes
  import opened ProtocolV2
  import opened Streams
  import opened Responses

  const MAX_MESSAGE_BYTES: nat := 64 * 1024 * 1024

  datatype Server = Server(
    maxBatchItems: nat,
    engine: ByteString -> Option<ByteString>,
    text: Problem -> ByteString)

  // ---- One frame ----

  datatype BatchResult = Outputs(outputs: seq<ByteString>) | FailedAt(index: nat)

  /** The engine's results on the images from index `from` on, up to the first failure. */
  function RunBatch(engine: ByteString -> Option<ByteString>, images: seq<ByteString>, from: nat,
                    before: seq<ByteString>): BatchResult
    requires from <= |images|
    decreases |images| - from
  {
    if from == |images| then Outputs(before)
    else
      match engine(images[from])
      case None => FailedAt(from)
      case Some(output) => RunBatch(engine, images, from + 1, before + [output])
  }

  function Failure(server: Server, requestId: UInt32, status: Status, problem: Problem): Response {
    Response(requestId, status, server.text(problem), [])
  }

  /** The answer to the body of a frame whose header is in order. */
  function RespondToBody(server: Server, requestId: UInt32, body: ByteString): Response {
    if body == [] then Failure(server, requestId, ValidationError, EmptyBody)
    else
      match ParseRequest(body, server.maxBatchItems)
      case Rejected(status, problem) => Failure(server, requestId, status, problem)
      case Parsed(request) =>
        match RunBatch(server.engine, request.images, 0, [])
        case FailedAt(index) => Failure(server, requestId, EngineError, EngineFailed(index))
        case Outputs(outputs) => Response(requestId, Ok, [], outputs)
  }

  /** The answer to a frame, as a function of that frame alone. */
  function Respond(server: Server, frame: ByteString): Response {
    if |frame| < HEADER_SIZE then Failure(server, 0, InvalidFrame, FrameTooShort)
    else if |frame| > MAX_MESSAGE_BYTES then Failure(server, 0, InvalidFrame, FrameTooLarge)
    else
      var header := DecodeHeader(frame);
      match CheckHeader(frame)
      case Some(problem) => Failure(server, header.requestId, ValidationError, problem)
      case None => RespondToBody(server, header.requestId, frame[HEADER_SIZE..])
  }

  // ---- The stream ----

  /** The complete frames before the shutdown frame, the end of the stream or a truncated frame. */
  function SplitFrames(input: ByteString): seq<ByteString>
    decreases |input|
  {
    if |input| < 4 then []
    else
      var messageLen, rest := DecodeU32(input), input[4..];
      if messageLen == 0 || |rest| < messageLen then []
      else [rest[..messageLen]] + SplitFrames(rest[messageLen..])
  }

  function Replies(server: Server, frames: seq<ByteString>): (replies: seq<Response>)
    ensures |replies| == |frames|
    ensures forall i :: 0 <= i < |frames| ==> replies[i] == Respond(server, frames[i])
  {
    if frames == [] then [] else Replies(server, frames[..|frames| - 1]) + [Respond(server, frames[|frames| - 1])]
  }

  /** Bytes that the frames take up in the stream. */
  function FrameBytes(frames: seq<ByteString>): nat {
    if frames == [] then 0 else FrameBytes(frames[..|frames| - 1]) + 4 + |frames[|frames| - 1]|
  }

  /** Bytes read to find out that there are no more frames: the shutdown frame, or all there is. */
  function BytesAtEnd(tail: ByteString): nat {
    if |tail| >= 4 && DecodeU32(tail) == 0 then 4 else |tail|
  }

  function CountOk(replies: seq<Response>): nat {
    if replies == [] then 0
    else CountOk(replies[..|replies| - 1]) + if replies[|replies| - 1].status.Ok? then 1 else 0
  }

  /** The places of the Ok responses. */
  function OkPlaces(replies: seq<Response>): set<nat> {
    set i: nat | i < |replies| && replies[i].status == Ok
  }

  lemma LastPlace(replies: seq<Response>)
    requires replies != []
    ensures var k := |replies| - 1;
            && OkPlaces(replies) == OkPlaces(replies[..k]) + (if replies[k].status == Ok then {k} else {})
            && k !in OkPlaces(replies[..k])
  {
  }

  /** CountOk is the number of Ok responses. */
  lemma {:induction false} CountsOkResponses(replies: seq<Response>)
    ensures CountOk(replies) == |OkPlaces(replies)| <= |replies|
  {
    hide OkPlaces;
    if replies != [] {
      CountsOkResponses(replies[..|replies| - 1]);
      LastPlace(replies);
    } else {
      NoPlaces();
    }
  }

  lemma NoPlaces()
    ensures OkPlaces([]) == {}
  {
  }

  // ---- The loop ----

  /** handled, metrics.processed and metrics.errors, all of them wrapping 32-bit counters. */
  datatype Counters = Counters(handled: UInt32, processed: UInt32, errors: UInt32) {
    /** After n responses, ok of which were Ok. */
    predicate Account(n: nat, ok: nat) {
      ok <= n && handled == Truncate32(ok) && processed == Truncate32(ok) && errors == Truncate32(n - ok)
    }

    function Record(status: Status): Counters {
      if status.Ok? then
        Counters(Truncate32((handled as nat) + 1), Truncate32((processed as nat) + 1), errors)
      else Counters(handled, processed, Truncate32((errors as nat) + 1))
    }
  }

  method ProcessBatch(server: Server, images: seq<ByteString>) returns (result: BatchResult)
    ensures result == RunBatch(server.engine, images, 0, [])
  {
    var outputs: seq<ByteString> := [];
    for i := 0 to |images|
      invariant RunBatch(server.engine, images, 0, []) == RunBatch(server.engine, images, i, outputs)
    {
      var output := server.engine(images[i]);
      if output.None? {
        return FailedAt(i);
      }
      outputs := outputs + [output.value];
    }
    result := Outputs(outputs);
  }

  /** The part of the loop body after the payload has been read. */
  method Handle(server: Server, payload: ByteString) returns (response: Response)
    requires HEADER_SIZE <= |payload| <= MAX_MESSAGE_BYTES
    ensures response == Respond(server, payload)
  {
    var header := DecodeHeader(payload);
    var headerError := CheckHeader(payload);
    if headerError.Some? {
      return Failure(server, header.requestId, ValidationError, headerError.value);
    }
    if header.msgType != MSG_TYPE_REQUEST {
      assert false;
    }
    var body := payload[HEADER_SIZE..];
    if |body| == 0 {
      return Failure(server, header.requestId, ValidationError, EmptyBody);
    }
    var parsed := ParseRequestPayload(body, server.maxBatchItems);
    if parsed.Rejected? {
      return Failure(server, header.requestId, parsed.status, parsed.problem);
    }
    var batch := ProcessBatch(server, parsed.request.images);
    if batch.FailedAt? {
      return Failure(server, header.requestId, EngineError, EngineFailed(batch.index));
    }
    response := Response(header.requestId, Ok, [], batch.outputs);
  }

  /** One turn of the loop: the next frame and its answer, or None at the end of the stream. */
  method Turn(server: Server, stdin: InputStream) returns (ghost frame: ByteString, response: Option<Response>)
    requires stdin.Valid()
    modifies stdin
    ensures stdin.Valid()
    ensures response.None? ==>
              && SplitFrames(old(stdin.Rest())) == []
              && stdin.pos == old(stdin.pos) + BytesAtEnd(old(stdin.Rest()))
    ensures response.Some? ==>
              && SplitFrames(old(stdin.Rest())) == [frame] + SplitFrames(stdin.Rest())
              && stdin.pos == old(stdin.pos) + 4 + |frame|
              && response.value == Respond(server, frame)
  {
    hide Respond, DecodeU32;
    ghost var input := stdin.Rest();
    frame := [];
    var messageLen := stdin.ReadU32();
    if messageLen.None? {
      return frame, None;
    }
    var len := messageLen.value;
    if len == 0 {
      return frame, None;
    }
    frame := if |input[4..]| < len then [] else input[4..][..len];
    if len < HEADER_SIZE {
      var ok := stdin.DiscardBytes(len);
      if !ok {
        return frame, None;
      }
      ShortFrame(server, frame);
      return frame, Some(Failure(server, 0, InvalidFrame, FrameTooShort));
    }
    if len > MAX_MESSAGE_BYTES {
      var ok := stdin.DiscardBytes(len);
      if !ok {
        return frame, None;
      }
      LongFrame(server, frame);
      return frame, Some(Failure(server, 0, InvalidFrame, FrameTooLarge));
    }
    var payload := stdin.ReadExact(len);
    if payload.None? {
      return frame, None;
    }
    var answer := Handle(server, payload.value);
    response := Some(answer);
  }

  lemma ShortFrame(server: Server, frame: ByteString)
    requires |frame| < HEADER_SIZE
    ensures Respond(server, frame) == Failure(server, 0, InvalidFrame, FrameTooShort)
  {
  }

  lemma LongFrame(server: Server, frame: ByteString)
    requires |frame| > MAX_MESSAGE_BYTES
    ensures Respond(server, frame) == Failure(server, 0, InvalidFrame, FrameTooLarge)
  {
  }

  /**
   run_keep_alive_protocol_v2: on every input stream, the output is the answers to its frames, one per
   frame and in order. What has been read in the end is these frames, 4 + message_len bytes each, and what
   ends the stream: the shutdown frame, or everything when there is no further complete frame.
   */
  method RunKeepAlive(server: Server, stdin: InputStream, stdout: OutputStream) returns (counters: Counters)
    requires stdin.Valid()
    modifies stdin, stdout
    ensures stdin.Valid()
    ensures var input := old(stdin.Rest());
            var used := FrameBytes(SplitFrames(input));
            used <= |input| && stdin.pos == old(stdin.pos) + used + BytesAtEnd(input[used..])
    ensures var frames := SplitFrames(old(stdin.Rest()));
            && stdout.written == old(stdout.written) + EncodeResponses(Replies(server, frames))
            && CountOk(Replies(server, frames)) <= |frames|
            && counters.handled == counters.processed == Truncate32(CountOk(Replies(server, frames)))
            && counters.errors == Truncate32(|frames| - CountOk(Replies(server, frames)))
  {
    hide Respond, EncodeResponse, EncodeResponses, SplitFrames, Served, FrameBytes, BytesAtEnd, Truncate32, CountOk;
    counters := Counters(0, 0, 0);
    ghost var frames: seq<ByteString> := [];
    ghost var written := stdout.written;
    ghost var start, input := stdin.pos, stdin.Rest();
    ghost var all := SplitFrames(input);
    NothingServed(server, written, counters);
    assert [] + all == all;
    while true
      invariant stdin.Valid()
      invariant all == frames + SplitFrames(stdin.Rest())
      invariant stdin.pos == start + FrameBytes(frames)
      invariant Served(server, frames, written, stdout.written, counters)
      decreases |stdin.data| - stdin.pos
    {
      ghost var frame;
      var response;
      frame, response := Turn(server, stdin);
      if response.None? {
        Exhausted(all, frames);
        SliceTwice(stdin.data, start, FrameBytes(frames));
        break;
      }
      ghost var rest := SplitFrames(stdin.Rest());
      MoveOne(frames, frame, rest);
      ServedOneMore(server, frames, written, stdout.written, counters, frame);
      WriteProtocolResponse(stdout, response.value);
      counters := counters.Record(response.value.status);
      frames := frames + [frame];
    }
    ServedAll(server, frames, written, stdout.written, counters);
  }

  lemma Exhausted(all: seq<ByteString>, frames: seq<ByteString>)
    requires all == frames + []
    ensures all == frames
  {
  }

  lemma MoveOne(frames: seq<ByteString>, frame: ByteString, rest: seq<ByteString>)
    ensures frames + ([frame] + rest) == (frames + [frame]) + rest
  {
  }

  lemma SliceTwice(data: ByteString, start: nat, used: nat)
    requires start + used <= |data|
    ensures used <= |data[start..]| && data[start..][used..] == data[start + used..]
  {
  }

  /** What the loop has written and counted after answering these frames. */
  ghost predicate Served(server: Server, frames: seq<ByteString>, before: ByteString, written: ByteString,
                         counters: Counters)
  {
    && written == before + EncodeResponses(Replies(server, frames))
    && counters.Account(|frames|, CountOk(Replies(server, frames)))
  }

  lemma NothingServed(server: Server, before: ByteString, counters: Counters)
    requires counters == Counters(0, 0, 0)
    ensures Served(server, [], before, before, counters) && FrameBytes([]) == 0
  {
  }

  lemma ServedAll(server: Server, frames: seq<ByteString>, before: ByteString, written: ByteString, counters: Counters)
    requires Served(server, frames, before, written, counters)
    ensures written == before + EncodeResponses(Replies(server, frames))
    ensures var ok := CountOk(Replies(server, frames));
            && ok <= |frames| && counters.handled == counters.processed == Truncate32(ok)
            && counters.errors == Truncate32(|frames| - ok)
  {
    hide Truncate32, Replies, CountOk, Respond, EncodeResponses;
  }

  lemma ServedOneMore(server: Server, frames: seq<ByteString>, before: ByteString, written: ByteString,
                      counters: Counters, frame: ByteString)
    requires Served(server, frames, before, written, counters)
    ensures var r := Respond(server, frame);
            Served(server, frames + [frame], before, written + EncodeResponse(r), counters.Record(r.status))
    ensures FrameBytes(frames + [frame]) == FrameBytes(frames) + 4 + |frame|
  {
    hide Respond, EncodeResponse, Truncate32;
    var replies, r := Replies(server, frames), Respond(server, frame);
    assert (frames + [frame])[..|frames|] == frames;
    assert (replies + [r])[..|replies|] == replies;
    EncodeResponsesSnoc(replies, r);
    RecordAccounts(counters, r.status, |frames|, CountOk(replies));
  }

  lemma {:induction false} EncodeResponsesSnoc(responses: seq<Response>, r: Response)
    ensures EncodeResponses(responses + [r]) == EncodeResponses(responses) + EncodeResponse(r)
  {
    hide EncodeResponse;
    var all := responses + [r];
    if responses == [] {
      assert all[1..] == [];
    } else {
      assert all[0] == responses[0] && all[1..] == responses[1..] + [r];
      EncodeResponsesSnoc(responses[1..], r);
    }
  }

  lemma RecordAccounts(counters: Counters, status: Status, n: nat, ok: nat)
    requires counters.Account(n, ok)
    ensures counters.Record(status).Account(n + 1, ok + if status.Ok? then 1 else 0)
  {
    WrapAdd(ok, 1);
    WrapAdd(n - ok, 1);
  }
}
