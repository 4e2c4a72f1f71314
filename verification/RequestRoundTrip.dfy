/**
 The request parser and the request encoder are inverse to each other, and each way for the parser to
 fail is characterised by the bytes it is given.
 */
module RequestRoundTrip {
  import opened Bytes
  import opened ProtocolV2

  // ---- Lists of images ----

  lemma {:induction false} EncodeImagesCons(image: ByteString, images: seq<ByteString>)
    ensures EncodeImages([image] + images) == EncodeBlob(image) + EncodeImages(images)
  {
    var all := [image] + images;
    if images == [] {
      assert all[..0] == [];
      assert EncodeImages(all) == EncodeImages(all[..0]) + EncodeBlob(all[0]);
    } else {
      var k := |images| - 1;
      assert all[..|all| - 1] == [image] + images[..k];
      EncodeImagesCons(image, images[..k]);
    }
  }

  lemma TotalBytesSnoc(images: seq<ByteString>, image: ByteString)
    ensures TotalBytes(images + [image]) == TotalBytes(images) + |image|
  {
    assert (images + [image])[..|images|] == images;
  }

  lemma {:induction false} TotalBytesPrefix(images: seq<ByteString>, k: nat)
    requires k <= |images|
    ensures TotalBytes(images[..k]) <= TotalBytes(images)
  {
    if k < |images| {
      TotalBytesPrefix(images[..|images| - 1], k);
      assert images[..|images| - 1][..k] == images[..k];
    } else {
      assert images[..k] == images;
    }
  }

  /** The size of a batch on the wire. */
  lemma {:induction false} EncodeImagesLength(images: seq<ByteString>)
    ensures |EncodeImages(images)| == 4 * |images| + TotalBytes(images)
  {
    if images != [] {
      EncodeImagesLength(images[..|images| - 1]);
    }
  }

  /** A length-prefixed blob, read back. */
  lemma BlobSplits(blob: ByteString, rest: ByteString)
    requires |blob| < 0x1_0000_0000
    ensures var data := EncodeBlob(blob) + rest;
            && |data| >= 4 && DecodeU32(data) == |blob| && |data[4..]| >= |blob|
            && data[4..][..|blob|] == blob && data[4..][|blob|..] == rest
  {
    var data := EncodeBlob(blob) + rest;
    assert data == EncodeU32(Truncate32(|blob|)) + (blob + rest);
    DecodeEncode(Truncate32(|blob|), blob + rest);
    assert data[4..] == blob + rest;
  }

  /** A length-prefixed blob, written back. */
  lemma BlobJoins(data: ByteString)
    requires |data| >= 4 && DecodeU32(data) <= |data[4..]|
    ensures data == EncodeBlob(data[4..][..DecodeU32(data)]) + data[4..][DecodeU32(data)..]
  {
    EncodeDecode(data);
  }

  lemma WordSplits(v: UInt32, rest: ByteString)
    ensures var data := EncodeU32(v) + rest;
            |data| >= 4 && DecodeU32(data) == v && data[4..] == rest
  {
    DecodeEncode(v, rest);
  }

  lemma WordJoins(data: ByteString)
    requires |data| >= 4
    ensures data == EncodeU32(DecodeU32(data)) + data[4..]
  {
    EncodeDecode(data);
  }

  // ---- The preamble ----

  lemma PreambleReads(engine: EngineType, meta: ByteString, gpuId: Int32, batchCount: UInt32, rest: ByteString,
                      maxBatchItems: nat)
    requires |meta| <= MAX_META_BYTES && 1 <= batchCount <= maxBatchItems
    ensures ParsePreamble(EncodePreamble(engine, meta, gpuId, batchCount) + rest, maxBatchItems) ==
            Preamble(engine, meta, gpuId, batchCount, rest)
  {
    var data := EncodePreamble(engine, meta, gpuId, batchCount) + rest;
    var d4 := EncodeU32(batchCount) + rest;
    var d3 := EncodeU32(ToU32(gpuId)) + d4;
    assert data[1..] == EncodeBlob(meta) + d3;
    BlobSplits(meta, d3);
    WordSplits(ToU32(gpuId), d4);
    WordSplits(batchCount, rest);
  }

  lemma PreambleWrites(data: ByteString, maxBatchItems: nat)
    requires ParsePreamble(data, maxBatchItems).Preamble?
    ensures var p := ParsePreamble(data, maxBatchItems);
            && |p.meta| <= MAX_META_BYTES && 1 <= p.batchCount <= maxBatchItems
            && data == EncodePreamble(p.engine, p.meta, p.gpuId, p.batchCount) + p.rest
  {
    var p := ParsePreamble(data, maxBatchItems);
    var d1 := data[1..];
    var d3 := d1[4..][DecodeU32(d1)..];
    BlobJoins(d1);
    WordJoins(d3);
    WordJoins(d3[4..]);
    assert data == [data[0]] + d1;
  }

  // ---- The images ----

  lemma {:induction false} ImagesRead(images: seq<ByteString>, k: nat)
    requires k <= |images| && TotalBytes(images) <= MAX_BATCH_BYTES
    ensures ParseImages(EncodeImages(images[k..]), |images|, images[..k], TotalBytes(images[..k])) == Images(images)
    decreases |images| - k
  {
    hide DecodeU32, EncodeU32;
    if k == |images| {
      assert images[..k] == images;
    } else {
      assert images[k..] == [images[k]] + images[k + 1..];
      EncodeImagesCons(images[k], images[k + 1..]);
      assert images[..k + 1] == images[..k] + [images[k]];
      TotalBytesSnoc(images[..k], images[k]);
      TotalBytesPrefix(images, k + 1);
      BlobSplits(images[k], EncodeImages(images[k + 1..]));
      ImagesRead(images, k + 1);
    }
  }

  lemma {:induction false} ImagesWritten(data: ByteString, batchCount: nat, before: seq<ByteString>)
    requires |before| <= batchCount && TotalBytes(before) <= MAX_BATCH_BYTES
    requires ParseImages(data, batchCount, before, TotalBytes(before)).Images?
    ensures var images := ParseImages(data, batchCount, before, TotalBytes(before)).images;
            && |images| == batchCount && images[..|before|] == before
            && data == EncodeImages(images[|before|..]) && TotalBytes(images) <= MAX_BATCH_BYTES
    decreases batchCount - |before|
  {
    if |before| < batchCount {
      var imageLen, rest := DecodeU32(data), data[4..];
      var image := rest[..imageLen];
      TotalBytesSnoc(before, image);
      ImagesWritten(rest[imageLen..], batchCount, before + [image]);
      BlobJoins(data);
      var images := ParseImages(data, batchCount, before, TotalBytes(before)).images;
      assert images[..|before| + 1][|before|] == image;
      assert images[..|before|] == images[..|before| + 1][..|before|];
      assert images[|before|..] == [image] + images[|before| + 1..];
      EncodeImagesCons(image, images[|before| + 1..]);
    }
  }

  // ---- Requests ----

  /** Every request within the limits is read back from its encoding. */
  lemma ParseInvertsEncode(r: Request, maxBatchItems: nat)
    requires InLimits(r, maxBatchItems)
    ensures ParseRequest(EncodeRequest(r), maxBatchItems) == Parsed(r)
  {
    PreambleReads(r.engine, r.meta, r.gpuId, r.batchCount, EncodeImages(r.images), maxBatchItems);
    assert r.images[0..] == r.images && r.images[..0] == [];
    ImagesRead(r.images, 0);
  }

  /** Whatever is accepted is within the limits, and its encoding is the very input. */
  lemma EncodeInvertsParse(data: ByteString, maxBatchItems: nat)
    requires ParseRequest(data, maxBatchItems).Parsed?
    ensures var r := ParseRequest(data, maxBatchItems).request;
            && InLimits(r, maxBatchItems) && EncodeRequest(r) == data
            && |data| == 13 + |r.meta| + 4 * |r.images| + TotalBytes(r.images)
  {
    var p := ParsePreamble(data, maxBatchItems);
    PreambleWrites(data, maxBatchItems);
    ImagesWritten(p.rest, p.batchCount, []);
    var r := ParseRequest(data, maxBatchItems).request;
    assert r.images[0..] == r.images;
    EncodeImagesLength(r.images);
  }

  /** The accepted payloads are precisely the encodings of the requests within the limits. */
  lemma AcceptedExactly(data: ByteString, maxBatchItems: nat)
    ensures ParseRequest(data, maxBatchItems).Parsed? <==>
            exists r :: InLimits(r, maxBatchItems) && EncodeRequest(r) == data
  {
    if ParseRequest(data, maxBatchItems).Parsed? {
      EncodeInvertsParse(data, maxBatchItems);
    }
    forall r | InLimits(r, maxBatchItems) && EncodeRequest(r) == data
      ensures ParseRequest(data, maxBatchItems).Parsed?
    {
      ParseInvertsEncode(r, maxBatchItems);
    }
  }

  // ---- Failures ----

  /**
   After the images `before`, the data holds the images `more` in full and then announces one of
   length `next` that takes the batch over its budget.
   */
  ghost predicate Overflows(data: ByteString, batchCount: nat, before: seq<ByteString>,
                            more: seq<ByteString>, next: UInt32, rest: ByteString)
  {
    && |before| + |more| < batchCount
    && data == EncodeImages(more) + EncodeU32(next) + rest
    && TotalBytes(before + more) <= MAX_BATCH_BYTES < TotalBytes(before + more) + next
  }

  /** One image may be moved from those still to be read to those read before. */
  lemma OverflowShift(tail: ByteString, batchCount: nat, before: seq<ByteString>, image: ByteString,
                      more: seq<ByteString>, next: UInt32, rest: ByteString)
    ensures Overflows(EncodeBlob(image) + tail, batchCount, before, [image] + more, next, rest) <==>
            Overflows(tail, batchCount, before + [image], more, next, rest)
  {
    var blob, end := EncodeBlob(image), EncodeImages(more) + EncodeU32(next) + rest;
    EncodeImagesCons(image, more);
    assert EncodeImages([image] + more) + EncodeU32(next) + rest == blob + end;
    assert before + ([image] + more) == (before + [image]) + more;
    assert (blob + tail)[|blob|..] == tail && (blob + end)[|blob|..] == end;
  }

  lemma {:induction false} OverflowIsReported(data: ByteString, batchCount: nat, before: seq<ByteString>,
                                              more: seq<ByteString>, next: UInt32, rest: ByteString)
    requires Overflows(data, batchCount, before, more, next, rest)
    ensures ParseImages(data, batchCount, before, TotalBytes(before)) == BadImages(ResourceLimit, OverBudget)
    decreases |more|
  {
    if more == [] {
      assert before + more == before;
      assert data == EncodeU32(next) + rest;
      WordSplits(next, rest);
    } else {
      var image, others := more[0], more[1..];
      assert more == [image] + others;
      var tail := EncodeImages(others) + EncodeU32(next) + rest;
      EncodeImagesCons(image, others);
      assert data == EncodeBlob(image) + tail;
      OverflowShift(tail, batchCount, before, image, others, next, rest);
      OverflowIsReported(tail, batchCount, before + [image], others, next, rest);
      ReadOneImage(tail, batchCount, before, image, others);
    }
  }

  /** One turn of the image loop. */
  lemma ReadOneImage(tail: ByteString, batchCount: nat, before: seq<ByteString>, image: ByteString,
                     others: seq<ByteString>)
    requires |before| < batchCount && TotalBytes((before + [image]) + others) <= MAX_BATCH_BYTES
    ensures ParseImages(EncodeBlob(image) + tail, batchCount, before, TotalBytes(before)) ==
            ParseImages(tail, batchCount, before + [image], TotalBytes(before + [image]))
  {
    var all := (before + [image]) + others;
    assert all[..|before| + 1] == before + [image];
    TotalBytesPrefix(all, |before| + 1);
    TotalBytesSnoc(before, image);
    BlobSplits(image, tail);
  }

  lemma {:induction false} ReportedOverflows(data: ByteString, batchCount: nat, before: seq<ByteString>)
    requires |before| <= batchCount && TotalBytes(before) <= MAX_BATCH_BYTES
    requires ParseImages(data, batchCount, before, TotalBytes(before)).BadImages?
    requires ParseImages(data, batchCount, before, TotalBytes(before)).status == ResourceLimit
    ensures exists more, next: UInt32, rest :: Overflows(data, batchCount, before, more, next, rest)
    decreases batchCount - |before|
  {
    var next, rest := DecodeU32(data), data[4..];
    if TotalBytes(before) + next > MAX_BATCH_BYTES {
      WordJoins(data);
      assert before + [] == before;
      assert EncodeImages([]) + EncodeU32(next) + rest == data;
      assert Overflows(data, batchCount, before, [], next, rest);
    } else {
      var image := rest[..next];
      TotalBytesSnoc(before, image);
      ReportedOverflows(rest[next..], batchCount, before + [image]);
      var more, next': UInt32, rest' :| Overflows(rest[next..], batchCount, before + [image], more, next', rest');
      OverflowShift(rest[next..], batchCount, before, image, more, next', rest');
      BlobJoins(data);
    }
  }

  lemma {:induction false} ImageFailureStatus(data: ByteString, batchCount: nat, before: seq<ByteString>, total: nat)
    requires |before| <= batchCount && ParseImages(data, batchCount, before, total).BadImages?
    ensures var result := ParseImages(data, batchCount, before, total);
            && (result.status == ResourceLimit || result.status == ValidationError)
            && (result.status == ResourceLimit <==> result.problem == OverBudget)
    decreases batchCount - |before|
  {
    if |before| < batchCount && |data| >= 4 {
      var imageLen, rest := DecodeU32(data), data[4..];
      if total + imageLen <= MAX_BATCH_BYTES && imageLen <= |rest| {
        ImageFailureStatus(rest[imageLen..], batchCount, before + [rest[..imageLen]], total + imageLen);
      }
    }
  }

  /**
   The status of a rejection is exact: ResourceLimit just when, after a valid preamble and some images
   in full, the next announced image takes the batch over 48 MiB; ValidationError in all other cases.
   */
  lemma RejectionStatus(data: ByteString, maxBatchItems: nat)
    requires ParseRequest(data, maxBatchItems).Rejected?
    ensures var result, p := ParseRequest(data, maxBatchItems), ParsePreamble(data, maxBatchItems);
            && (result.status == ResourceLimit || result.status == ValidationError)
            && (result.status == ResourceLimit <==>
                  p.Preamble? &&
                  exists more, next: UInt32, rest :: Overflows(p.rest, p.batchCount, [], more, next, rest))
  {
    var p := ParsePreamble(data, maxBatchItems);
    if p.Preamble? {
      ImageFailureStatus(p.rest, p.batchCount, [], 0);
      if ParseRequest(data, maxBatchItems).status == ResourceLimit {
        ReportedOverflows(p.rest, p.batchCount, []);
      }
      if more, next: UInt32, rest :| Overflows(p.rest, p.batchCount, [], more, next, rest) {
        OverflowIsReported(p.rest, p.batchCount, [], more, next, rest);
      }
    }
  }
}
