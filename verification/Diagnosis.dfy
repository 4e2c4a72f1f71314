/**
 What is wrong with a frame, stated on its bytes and with the numbers of the protocol, and the response the
 server gives for each problem. A frame has at most one problem, and none just when it is answered Ok.
 */
module Diagnosis {
  import opened Wrappers
  import opened Bytes
  import opened ProtocolV2
  import opened RequestRoundTrip
  import opened Responses
  import opened KeepAlive
  import opened Sessions

  // ---- The preamble of a payload ----

  /** The announced length of the meta string. */
  function MetaLength(body: ByteString): nat {
    if |body| < 5 then 0 else DecodeU32(body[1..])
  }

  /** A known engine and a meta string of at most 64 bytes, of which `more` further bytes are present. */
  predicate HasMeta(body: ByteString, more: nat) {
    |body| >= 5 && body[0] <= 1 && MetaLength(body) <= 64 && |body| >= 5 + MetaLength(body) + more
  }

  /** The number of images, for a payload that gets that far. */
  function BatchCount(body: ByteString): nat {
    if HasMeta(body, 8) then DecodeU32(body[9 + MetaLength(body)..]) else 0
  }

  predicate ValidPreamble(body: ByteString, maxBatchItems: nat) {
    HasMeta(body, 8) && 1 <= BatchCount(body) <= maxBatchItems
  }

  predicate PreambleProblem(body: ByteString, maxBatchItems: nat, problem: Problem) {
    match problem
    case MissingEngine => |body| == 0
    case BadEngine => |body| >= 1 && body[0] > 1
    case MissingMetaLength => 1 <= |body| < 5 && body[0] <= 1
    case MetaTooLong => |body| >= 5 && body[0] <= 1 && MetaLength(body) > 64
    case MetaTruncated => |body| >= 5 && body[0] <= 1 && MetaLength(body) <= 64 && !HasMeta(body, 0)
    case MissingGpuId => HasMeta(body, 0) && !HasMeta(body, 4)
    case MissingBatchCount => HasMeta(body, 4) && !HasMeta(body, 8)
    case EmptyBatch => HasMeta(body, 8) && BatchCount(body) == 0
    case BatchTooLong => HasMeta(body, 8) && BatchCount(body) > maxBatchItems
    case _ => false
  }

  lemma PreambleDiagnosed(body: ByteString, maxBatchItems: nat, problem: Problem)
    ensures ParsePreamble(body, maxBatchItems) == BadPreamble(problem) <==>
            PreambleProblem(body, maxBatchItems, problem)
  {
    hide DecodeU32;
    PreambleOffsets(body);
  }

  /** The parser's nested rests are the bytes at these offsets. */
  lemma PreambleOffsets(body: ByteString)
    ensures var m := MetaLength(body);
            && (|body| >= 5 ==> body[1..][4..] == body[5..])
            && (HasMeta(body, 0) ==> body[5..][..m] == body[5..5 + m] && body[5..][m..] == body[5 + m..])
            && (HasMeta(body, 4) ==> body[5 + m..][4..] == body[9 + m..])
            && (HasMeta(body, 8) ==> body[9 + m..][4..] == body[13 + m..])
  {
  }

  /** A valid preamble, field by field. */
  lemma PreambleFields(body: ByteString, maxBatchItems: nat)
    ensures ParsePreamble(body, maxBatchItems).Preamble? <==> ValidPreamble(body, maxBatchItems)
    ensures ValidPreamble(body, maxBatchItems) ==>
              var p, m := ParsePreamble(body, maxBatchItems), MetaLength(body);
              && p.engine == (if body[0] == 1 then RealESRGAN else RealCUGAN)
              && p.meta == body[5..5 + m] && p.gpuId == ToI32(DecodeU32(body[5 + m..]))
              && p.batchCount == BatchCount(body) && p.rest == body[13 + m..]
  {
    hide DecodeU32;
    PreambleOffsets(body);
  }

  // ---- The images of a payload ----

  /** The data holds these images in full, within the budget of 48 MiB, and then `tail`. */
  predicate Remains(data: ByteString, images: seq<ByteString>, tail: ByteString) {
    data == EncodeImages(images) + tail && TotalBytes(images) <= 50_331_648
  }

  /** What is wrong with the first image that is not read, or with what follows the last one. */
  predicate TailProblem(count: nat, read: nat, total: nat, tail: ByteString, problem: Problem) {
    match problem
    case MissingImageLength(i) => read == i < count && |tail| < 4
    case OverBudget => read < count && |tail| >= 4 && total + DecodeU32(tail) > 50_331_648
    case ImageTruncated(i) =>
      read == i < count && |tail| >= 4 && |tail| - 4 < DecodeU32(tail) <= 50_331_648 - total
    case TrailingBytes => read == count && tail != []
    case _ => false
  }

  ghost predicate ImageProblem(data: ByteString, count: nat, problem: Problem) {
    exists images, tail :: Remains(data, images, tail)
                           && TailProblem(count, |images|, TotalBytes(images), tail, problem)
  }

  /** Reading on behind some images. */
  lemma {:induction false} ParseThrough(images: seq<ByteString>, tail: ByteString, count: nat, before: seq<ByteString>)
    requires |before| + |images| <= count && TotalBytes(before + images) <= MAX_BATCH_BYTES
    ensures ParseImages(EncodeImages(images) + tail, count, before, TotalBytes(before)) ==
            ParseImages(tail, count, before + images, TotalBytes(before + images))
    decreases |images|
  {
    hide ParseImages, TotalBytes;
    if images == [] {
      assert before + images == before && EncodeImages(images) + tail == tail;
    } else {
      var image, others := images[0], images[1..];
      assert images == [image] + others && before + images == (before + [image]) + others;
      EncodeImagesCons(image, others);
      assert EncodeImages(images) + tail == EncodeBlob(image) + (EncodeImages(others) + tail);
      ReadOneImage(EncodeImages(others) + tail, count, before, image, others);
      ParseThrough(others, tail, count, before + [image]);
    }
  }

  lemma TailIsReported(tail: ByteString, count: nat, images: seq<ByteString>, problem: Problem)
    requires |images| <= count && TotalBytes(images) <= 50_331_648
    requires TailProblem(count, |images|, TotalBytes(images), tail, problem)
    ensures ParseImages(tail, count, images, TotalBytes(images)) == BadImages(StatusFor(problem), problem)
  {
    hide DecodeU32;
  }

  /** After the images `before`, the data holds some more images in full and then shows the problem. */
  ghost predicate Shows(data: ByteString, count: nat, before: seq<ByteString>, problem: Problem) {
    exists more, tail :: ShowsAfter(data, count, before, more, tail, problem)
  }

  predicate ShowsAfter(data: ByteString, count: nat, before: seq<ByteString>, more: seq<ByteString>,
                       tail: ByteString, problem: Problem)
  {
    && data == EncodeImages(more) + tail && TotalBytes(before + more) <= 50_331_648
    && TailProblem(count, |before + more|, TotalBytes(before + more), tail, problem)
  }

  lemma ShowsAtOnce(data: ByteString, count: nat, before: seq<ByteString>, problem: Problem)
    requires TotalBytes(before) <= 50_331_648 && TailProblem(count, |before|, TotalBytes(before), data, problem)
    ensures Shows(data, count, before, problem)
  {
    assert before + [] == before && data == EncodeImages([]) + data;
    assert ShowsAfter(data, count, before, [], data, problem);
  }

  lemma ShowsEarlier(data: ByteString, count: nat, before: seq<ByteString>, image: ByteString, rest: ByteString,
                     problem: Problem)
    requires data == EncodeBlob(image) + rest && Shows(rest, count, before + [image], problem)
    ensures Shows(data, count, before, problem)
  {
    hide EncodeBlob, EncodeImages, TotalBytes, TailProblem;
    var more, tail :| ShowsAfter(rest, count, before + [image], more, tail, problem);
    EncodeImagesCons(image, more);
    assert (before + [image]) + more == before + ([image] + more);
    assert data == EncodeImages([image] + more) + tail;
    assert ShowsAfter(data, count, before, [image] + more, tail, problem);
  }

  lemma {:induction false} ReportHasTail(data: ByteString, count: nat, before: seq<ByteString>)
    requires |before| <= count && TotalBytes(before) <= 50_331_648
    requires ParseImages(data, count, before, TotalBytes(before)).BadImages?
    ensures Shows(data, count, before, ParseImages(data, count, before, TotalBytes(before)).problem)
    decreases count - |before|
  {
    hide DecodeU32, Shows, EncodeImages, TotalBytes;
    var problem := ParseImages(data, count, before, TotalBytes(before)).problem;
    if TailProblem(count, |before|, TotalBytes(before), data, problem) {
      ShowsAtOnce(data, count, before, problem);
    } else {
      var next, rest := DecodeU32(data), data[4..];
      var image := rest[..next];
      TotalBytesSnoc(before, image);
      ReportHasTail(rest[next..], count, before + [image]);
      BlobJoins(data);
      ShowsEarlier(data, count, before, image, rest[next..], problem);
    }
  }

  lemma ImagesDiagnosed(data: ByteString, count: nat, problem: Problem)
    ensures ParseImages(data, count, [], 0) == BadImages(StatusFor(problem), problem) <==>
            ImageProblem(data, count, problem)
    ensures ParseImages(data, count, [], 0).BadImages? ==>
              ParseImages(data, count, [], 0).status == StatusFor(ParseImages(data, count, [], 0).problem)
  {
    hide ParseImages, DecodeU32, EncodeImages;
    if images, tail :| Remains(data, images, tail)
                       && TailProblem(count, |images|, TotalBytes(images), tail, problem) {
      assert [] + images == images;
      ParseThrough(images, tail, count, []);
      TailIsReported(tail, count, images, problem);
    }
    if ParseImages(data, count, [], 0).BadImages? {
      var reported := ParseImages(data, count, [], 0).problem;
      ReportHasTail(data, count, []);
      var images, tail :| ShowsAfter(data, count, [], images, tail, reported);
      assert [] + images == images;
      assert Remains(data, images, tail);
      ParseThrough(images, tail, count, []);
      TailIsReported(tail, count, images, reported);
    }
  }

  // ---- Frames ----

  /** A size that is neither too short for a header nor beyond 64 MiB. */
  predicate SizeInRange(frame: ByteString) {
    16 <= |frame| <= 67_108_864
  }

  predicate HeaderProblem(frame: ByteString, problem: Problem) {
    match problem
    case FrameTooShort => |frame| < 16
    case FrameTooLarge => |frame| > 67_108_864
    case BadMagic => SizeInRange(frame) && DecodeU32(frame) != 0x4252_4452
    case BadVersion(v) =>
      SizeInRange(frame) && DecodeU32(frame) == 0x4252_4452 && v == DecodeU32(frame[4..]) != 2
    case BadMessageType(t) =>
      && SizeInRange(frame) && DecodeU32(frame) == 0x4252_4452 && DecodeU32(frame[4..]) == 2
      && t == DecodeU32(frame[8..]) != 1
    case EmptyBody => Recognised(frame) && |frame| == 16
    case _ => false
  }

  /** The engine fails on image i of the batch, and on none before it. */
  predicate BatchProblem(server: Server, frame: ByteString, problem: Problem) {
    match problem
    case EngineFailed(i) =>
      && RequestIn(server, frame).Some?
      && var images := RequestIn(server, frame).value.images;
      && i < |images| && server.engine(images[i]).None?
      && forall j :: 0 <= j < i ==> server.engine(images[j]).Some?
    case _ => false
  }

  ghost predicate HasProblem(server: Server, frame: ByteString, problem: Problem) {
    || HeaderProblem(frame, problem)
    || (Recognised(frame) && |frame| > 16 && PreambleProblem(frame[16..], server.maxBatchItems, problem))
    || (Recognised(frame) && |frame| > 16 && ValidPreamble(frame[16..], server.maxBatchItems)
        && ImageProblem(frame[16..][13 + MetaLength(frame[16..])..], BatchCount(frame[16..]), problem))
    || BatchProblem(server, frame, problem)
  }

  /** The status that goes with each problem. */
  function StatusFor(problem: Problem): Status {
    match problem
    case FrameTooShort | FrameTooLarge => InvalidFrame
    case OverBudget => ResourceLimit
    case EngineFailed(_) => EngineError
    case _ => ValidationError
  }

  /** The id in the response: that of the frame when it has room for one. */
  function IdOf(frame: ByteString): UInt32 {
    if SizeInRange(frame) then DecodeU32(frame[12..]) else 0
  }

  /** The problem behind a response that is not Ok. */
  function ProblemOf(server: Server, frame: ByteString): Option<Problem> {
    if |frame| < HEADER_SIZE then Some(FrameTooShort)
    else if |frame| > MAX_MESSAGE_BYTES then Some(FrameTooLarge)
    else if CheckHeader(frame).Some? then CheckHeader(frame)
    else if |frame| == HEADER_SIZE then Some(EmptyBody)
    else
      match ParseRequest(frame[HEADER_SIZE..], server.maxBatchItems)
      case Rejected(_, problem) => Some(problem)
      case Parsed(request) =>
        match RunBatch(server.engine, request.images, 0, [])
        case FailedAt(i) => Some(EngineFailed(i))
        case Outputs(_) => None
  }

  lemma PayloadDiagnosed(body: ByteString, maxBatchItems: nat, problem: Problem)
    ensures ParseRequest(body, maxBatchItems) == Rejected(StatusFor(problem), problem) <==>
            || PreambleProblem(body, maxBatchItems, problem)
            || (ValidPreamble(body, maxBatchItems)
                && ImageProblem(body[13 + MetaLength(body)..], BatchCount(body), problem))
    ensures ParseRequest(body, maxBatchItems).Rejected? ==>
              ParseRequest(body, maxBatchItems).status == StatusFor(ParseRequest(body, maxBatchItems).problem)
  {
    hide ParsePreamble, ParseImages, PreambleProblem, ImageProblem, ValidPreamble, MetaLength, BatchCount;
    PreambleDiagnosed(body, maxBatchItems, problem);
    PreambleFields(body, maxBatchItems);
    var p := ParsePreamble(body, maxBatchItems);
    if p.Preamble? {
      ImagesDiagnosed(p.rest, p.batchCount, problem);
    } else {
      PreambleDiagnosed(body, maxBatchItems, p.problem);
      PreambleStatus(body, maxBatchItems, p.problem);
    }
  }

  lemma PreambleStatus(body: ByteString, maxBatchItems: nat, problem: Problem)
    requires PreambleProblem(body, maxBatchItems, problem)
    ensures StatusFor(problem) == ValidationError
  {
  }

  /** A frame's problem, as the server finds it, is the one it has by its bytes. */
  lemma ProblemIsExact(server: Server, frame: ByteString, problem: Problem)
    ensures ProblemOf(server, frame) == Some(problem) <==> HasProblem(server, frame, problem)
  {
    hide ParseRequest, PreambleProblem, ImageProblem, ValidPreamble, MetaLength, BatchCount, DecodeU32, RunBatch;
    if |frame| > HEADER_SIZE {
      PayloadDiagnosed(frame[16..], server.maxBatchItems, problem);
      assert frame[HEADER_SIZE..] == frame[16..];
    }
    if RequestIn(server, frame).Some? {
      BatchDiagnosed(server, frame, problem);
    }
  }

  lemma BatchDiagnosed(server: Server, frame: ByteString, problem: Problem)
    requires RequestIn(server, frame).Some?
    ensures var result := RunBatch(server.engine, RequestIn(server, frame).value.images, 0, []);
            BatchProblem(server, frame, problem) <==> result.FailedAt? && problem == EngineFailed(result.index)
  {
    hide RequestIn;
    BatchOutcome(server.engine, RequestIn(server, frame).value.images, 0, []);
  }

  /**
   The server's answer to every frame: a frame with a problem is answered with its own id, the status and
   the text of that problem and no outputs; a frame has at most one problem, and a frame without one is
   answered Ok.
   */
  lemma AnswerIsExact(server: Server, frame: ByteString)
    ensures forall problem :: HasProblem(server, frame, problem) ==>
              Respond(server, frame) == Response(IdOf(frame), StatusFor(problem), server.text(problem), [])
    ensures forall p, q :: HasProblem(server, frame, p) && HasProblem(server, frame, q) ==> p == q
    ensures Respond(server, frame).status == Ok <==> !exists problem :: HasProblem(server, frame, problem)
  {
    hide HasProblem, Respond, ProblemOf;
    forall problem | HasProblem(server, frame, problem)
      ensures Respond(server, frame) == Response(IdOf(frame), StatusFor(problem), server.text(problem), [])
    {
      ProblemIsExact(server, frame, problem);
      AnswerToProblem(server, frame);
    }
    forall p, q | HasProblem(server, frame, p) && HasProblem(server, frame, q)
      ensures p == q
    {
      ProblemIsExact(server, frame, p);
      ProblemIsExact(server, frame, q);
    }
    AnswerToProblem(server, frame);
    if ProblemOf(server, frame).Some? {
      ProblemIsExact(server, frame, ProblemOf(server, frame).value);
    }
    if problem :| HasProblem(server, frame, problem) {
      ProblemIsExact(server, frame, problem);
    }
  }

  lemma AnswerToProblem(server: Server, frame: ByteString)
    ensures match ProblemOf(server, frame)
            case None => Respond(server, frame).status == Ok
            case Some(problem) =>
              && Respond(server, frame) == Response(IdOf(frame), StatusFor(problem), server.text(problem), [])
              && StatusFor(problem) != Ok
  {
    hide ParsePreamble, ParseImages, DecodeU32, RunBatch;
    if |frame| > HEADER_SIZE {
      var result := ParseRequest(frame[HEADER_SIZE..], server.maxBatchItems);
      if result.Rejected? {
        PayloadDiagnosed(frame[HEADER_SIZE..], server.maxBatchItems, result.problem);
      }
    }
  }
}
