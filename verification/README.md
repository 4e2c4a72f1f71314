# Verification of the bdreader-ncnn-upscaler core

A Dafny model of the parts of the upscaler that surround its neural network, with proofs of what they
promise. `dafny verify dfyconfig.toml` checks the whole project.

The network, the image codecs and the wording of error messages are arbitrary functions: every result
holds for all of them, under the contracts stated in each lemma.

**Tiling pipeline** (`Arith`, `Pixels`, `FloatGrid`, `Tiling`, `TilingProcessor`, `Assembly`, `Locality`,
`SeamSharpness`, `Padding`, `UpscalerEngine`, `EngineConfig`, `ConfiguredPipeline`, `PipelineSharpness`). A large image is cut into overlapping
tiles; each is padded, upscaled and cropped, loses the strip that earlier tiles own, and is copied into
one output buffer. The copying methods work on byte arrays and are proved equal to functions that give
an image sample by sample. On top of those functions:

- the rectangles that the tiles write partition the output, and each output sample is the one its owner
  tile has at the corresponding place (`Assembly`);
- for an engine that looks only left and up, at most as far as the overlap, tiling is invisible: the
  tiled buffer *is* the directly processed one (`Locality.TilingIsTransparent`);
- an engine that also looks `right` pixels to the right and below may differ only in the `right` source
  columns and rows just before a seam, because every tile is used up to its right and bottom edge
  (`Locality.SeamBand`). That is exact, for the vertical and the horizontal seams of every grid and all
  radii: an output sample is the same with and without tiling for all such engines and images just when it
  is outside the bands (`SeamSharpness.InvisibleExactly`). For a symmetric network it is therefore *false*
  that tiling cannot be seen; `ColumnBandIsSharp` and `RowBandIsSharp` give the engine and the image;
- pad, network, crop hides all border behaviour of a network of radius at most 18, including the black
  column that evens out an odd padded width, so the two results combine into one about the whole
  pipeline, again an exact one (`UpscalerEngine.PipelineSeamBand`,
  `PipelineSharpness.PipelineInvisibleExactly`);
- for every option, profile and scale the pipeline is configured with the engine's own scale, gives the
  configured size, and processes images within the thresholds as a whole (`ConfiguredPipeline`);
- what the network itself is given, padding included, is bounded by the configuration, and the bound is
  reached (`EngineConfig.InferenceIsBounded`, `BoundIsReached`);
- the single-precision tile count is the exact ceiling for lengths up to 2^24 plus the overlap, and 2^24 is
  the largest bound for which that holds of every step; one beyond it, it fails for step 1, not for all
  steps (`FloatGrid`).

The scale contract (`Assembly.ScalesBy`) says that a w x h image becomes an (s*w) x (s*h) one, s being
the configured scale. RealESRGAN with an unsupported scale or a custom model name can break it, so it is
a precondition of the theorems on pixels. The tile loop's copies are in bounds even without it. The crop in
`process_image` is modelled without it, for any size the network returns: it cuts out a rectangle just when
that size is on both sides at least the wanted one, or on neither side larger (`CropInsideExactly`), and
`CropOfOtherScale` states when it stays within the buffer, in terms of the image and the two scales. It does
not for a 20 x 40 image when the scale is 5, for which the two-fold model is loaded
(`TwofoldNetworkAtScaleFive`).

`tiling.hpp` speaks of smoothing in the overlap; the code copies, and the model follows the code.

**Bounded queue** (`BlockingQueue`, `BoundedQueue`). The monitor with its two condition variables as a
transition system: any number of threads, spurious wakeups, barging, a `notify_one` that may wake any
waiting thread, and a `close` that notifies only after it has released the mutex. The class methods are
the critical sections, each proved to be one step of the monitor. Over every run, what is accepted is what
was announced by the pushes that went through, and what is handed out is the first of it (`HistoryIsExact`).

**Keep-alive protocol** (`Bytes`, `ProtocolV2`, `RequestRoundTrip`, `Streams`, `Responses`, `KeepAlive`,
`Sessions`, `Diagnosis`, `WireFormat`, `BenchmarkClient`). Request parser and encoder, the server loop, the
response writer and the client's reader, from single integers up to a whole session of a client. `Diagnosis`
states on the bytes of a frame what may be wrong with it, and that the server answers exactly that;
`WireFormat` states the bytes on the wire with the numbers written out. Status numbers follow
`protocol_v2.hpp:26-33`; `TODO.md:128-129` exchanges two of them, and `TODO.md:94-97` leaves out fields
that the code reads.

**Engine lifecycle** (`EngineLifecycle`). Vulkan allocators over any sequence of init, inference with
fallback, and cleanup, for a device that may hand out again what it got back, and the result of every call.
Not part of the code's promise, but proved as it is: a second init that selects the CPU keeps the allocators
of the first one installed until cleanup (`ReinitKeepsAllocators`).

Products and quotients in the grid proofs are written `Times`, `Quo` and `Rem`; `Arith.TimesIsProduct`
and `Arith.Split` say that they are the ordinary ones.

## Model

| member | source | states |
|---|---|---|
| FloatGrid.FloatCeilDivExact | bdreader-ncnn-upscaler/src/utils/tiling.cpp:19-20 | with round-to-nearest-even at each of its three roundings, ceil(float(a)/b) is the integer ceiling for every a up to 2^24 and every b |
| FloatGrid.FloatCeilDivInexact | bdreader-ncnn-upscaler/src/utils/tiling.cpp:19-20 | at a = 2^24 + 1 and b = 1 the float computation is one tile short |
| FloatGrid.ExactForAllDivisors | bdreader-ncnn-upscaler/src/utils/tiling.cpp:19-20 | the float computation is the integer ceiling for every divisor and every dividend up to n just when n is at most 2^24 |
| FloatGrid.QuotientIsRounded | bdreader-ncnn-upscaler/src/utils/tiling.cpp:19-20 | the quotient is rounded to 24 significant bits: the mantissa is the nearest integer between 2^23 and 2^24 |
| FloatGrid.RoundIsNearest | bdreader-ncnn-upscaler/src/utils/tiling.cpp:19-20 | rounding goes to the nearest integer, and to the even one of two |
| Tiling.TilesAlongFits | bdreader-ncnn-upscaler/src/utils/tiling.cpp:15-20 | the computed tile count covers the axis and one tile fewer would not, also for images smaller than the overlap |
| Tiling.FitsUnique | bdreader-ncnn-upscaler/src/utils/tiling.cpp:15-20 | no other tile count covers the axis minimally |
| Tiling.ContributionBounds | bdreader-ncnn-upscaler/src/utils/tiling.cpp:30-41 | every tile contributes something, a contribution ends where the next begins, all tiles but the last have full size and the last reaches the end |
| Tiling.AxisPartition | bdreader-ncnn-upscaler/src/utils/tiling.cpp:26-45 | along an axis, each source coordinate lies in the contribution of exactly one tile |
| Tiling.CalculateTiles | bdreader-ncnn-upscaler/src/utils/tiling.cpp:8-49 | the nested loops produce the grid, row by row, with the products of the program |
| Tiling.GridInOrder | bdreader-ncnn-upscaler/src/utils/tiling.cpp:26-45 | tile (tx, ty) is at position ty * columns + tx of the grid |
| Tiling.ExtractTile | bdreader-ncnn-upscaler/src/utils/tiling.cpp:51-80 | the tile buffer holds the source samples under the tile and zero where the tile leaves the source; every copy is in bounds |
| Tiling.BlendTile | bdreader-ncnn-upscaler/src/utils/tiling.cpp:82-114 | the output afterwards is the old one with exactly the clipped rectangle replaced by the region; every copy is in bounds |
| Tiling.CopyStrips | bdreader-ncnn-upscaler/src/utils/tiling_processor.cpp:132-137 | the row copies that trim tiles and crop images, for strips anywhere in the buffer, in bounds just when each strip is |
| Tiling.StripsAreWindow | bdreader-ncnn-upscaler/src/utils/tiling_processor.cpp:132-137 | strips that stay within the columns and rows of the image are in bounds and form the rectangle there |
| TilingProcessor.GridInside | bdreader-ncnn-upscaler/src/utils/tiling.cpp:63-77 | every tile of the grid is non-empty and lies inside the source, so extraction never clips |
| TilingProcessor.BlendOverlapping | bdreader-ncnn-upscaler/src/utils/tiling_processor.cpp:119-149 | one turn of the loop trims the strips owned by earlier tiles, skips an empty rest and blends |
| TilingProcessor.SkipsEmptyRest | bdreader-ncnn-upscaler/src/utils/tiling_processor.cpp:122-130 | a tile of which nothing is left after trimming changes nothing |
| TilingProcessor.ProcessTiles | bdreader-ncnn-upscaler/src/utils/tiling_processor.cpp:68-165 | the loop over the shared output buffer computes the fold over the grid, and fails as soon as the engine does, for every engine that fills the buffer it reports |
| TilingProcessor.ProcessWithTiling | bdreader-ncnn-upscaler/src/utils/tiling_processor.cpp:8-191 | decode; the tile loop just when tiling is enabled and one side exceeds its threshold, the engine on the whole image otherwise; encode; and each way to fail |
| TilingProcessor.ThresholdDecides | bdreader-ncnn-upscaler/src/utils/tiling.hpp:71-78 | within both thresholds or with tiling disabled the result is the direct one, beyond one of them it is the tiled one |
| Assembly.OutputPartition | bdreader-ncnn-upscaler/src/utils/tiling.cpp:36-43 | the rectangles written by the tiles partition the output; none is empty or reaches beyond it |
| Assembly.StepWritesOwned | bdreader-ncnn-upscaler/src/utils/tiling_processor.cpp:119-146 | a turn of the loop changes exactly the pixels its tile owns and takes no skip branch |
| Assembly.TiledPixel | bdreader-ncnn-upscaler/src/utils/tiling_processor.cpp:78-165 | for any engine meeting the scale contract, each output sample is the corresponding sample of the upscaled owner tile |
| Assembly.FailsOnTile | bdreader-ncnn-upscaler/src/utils/tiling_processor.cpp:109-117 | the loop fails exactly when the engine fails on one of the tiles |
| Locality.SeamBand | bdreader-ncnn-upscaler/src/utils/tiling_processor.cpp:119-146 | tiled and direct outputs agree at every sample outside the bands of the right radius before the seams |
| Locality.SeamIsProduct | bdreader-ncnn-upscaler/src/utils/tiling.cpp:30-41 | seam t is at (t + 1) * (tile_size - overlap) + overlap |
| Locality.TilingIsTransparent | bdreader-ncnn-upscaler/src/utils/tiling_processor.cpp:28-149 | for engines looking only left and up within the overlap, the tiled and the direct buffer are equal, so the threshold decision cannot be observed |
| SeamSharpness.ColumnBandIsSharp | bdreader-ncnn-upscaler/src/utils/tiling_processor.cpp:119-126 | for every vertical seam and every radius, a local engine and an image for which every sample of the band of columns differs |
| SeamSharpness.RowBandIsSharp | bdreader-ncnn-upscaler/src/utils/tiling_processor.cpp:119-126 | the same for every horizontal seam and the band of rows |
| SeamSharpness.InvisibleExactly | bdreader-ncnn-upscaler/src/utils/tiling_processor.cpp:119-146 | for all radii with the left one within the overlap, tiled and direct runs agree at a sample for all engines and images just when it is in no band |
| Padding.PadImage | bdreader-ncnn-upscaler/src/utils/image_padding.hpp:12-53 | the row and column copies build the padded image, in bounds |
| Padding.PadIsClamped | bdreader-ncnn-upscaler/src/utils/image_padding.hpp:31-50 | within the padding every pixel is the nearest source pixel |
| Padding.AlignmentRowRepeats | bdreader-ncnn-upscaler/src/utils/image_padding.hpp:31-32 | the row that evens out an odd height repeats the last row |
| Padding.PadSize | bdreader-ncnn-upscaler/src/utils/image_padding.hpp:13-25 | both sides grow by twice the padding, rounded up to even; an image without pixels stays as it is |
| Padding.AlignmentColumnIsBlack | bdreader-ncnn-upscaler/src/utils/image_padding.hpp:23-25 | the column that evens out the width exists only for odd widths and is zero |
| UpscalerEngine.ProcessImage | bdreader-ncnn-upscaler/src/engines/ncnn_upscaler_engine.cpp:141-224 | pad, infer, crop or fail, for every size of result for which the crop's copies stay in the buffer |
| UpscalerEngine.CropInsideExactly | bdreader-ncnn-upscaler/src/engines/ncnn_upscaler_engine.cpp:171-196 | the crop cuts out a rectangle just when the result is at least as large as wanted on both sides, or larger on neither |
| UpscalerEngine.NotCropped | bdreader-ncnn-upscaler/src/engines/ncnn_upscaler_engine.cpp:171-199 | a result larger than wanted on neither side is returned unchanged |
| UpscalerEngine.CroppedPixel | bdreader-ncnn-upscaler/src/engines/ncnn_upscaler_engine.cpp:171-196 | a result at least as large as wanted on both sides is cropped from min(18 * s, excess) on along each axis |
| UpscalerEngine.CropOfOtherScale | bdreader-ncnn-upscaler/src/engines/ncnn_upscaler_engine.cpp:171-196 | for a k-fold network under scale s, both exact conditions, rectangle and buffer, in terms of image size, k and s |
| UpscalerEngine.TwofoldNetworkAtScaleFive | bdreader-ncnn-upscaler/src/engines/realesrgan_engine.cpp:14-22 | a receivable input on which the crop reads beyond the network's result |
| UpscalerEngine.ThreefoldNetworkAtScaleFour | bdreader-ncnn-upscaler/src/engines/ncnn_upscaler_engine.cpp:189-196 | an input on which the crop stays in the buffer and yet runs on into the next rows |
| UpscalerEngine.ScaledIsCroppable | bdreader-ncnn-upscaler/src/engines/ncnn_upscaler_engine.cpp:171-196 | under the scale contract the crop stays in bounds on every image |
| UpscalerEngine.CropShift | bdreader-ncnn-upscaler/src/engines/ncnn_upscaler_engine.cpp:171-196 | the crop starts at 18 * s on both axes: an output block is the block 18 source pixels further in |
| UpscalerEngine.PaddingHidesBorders | bdreader-ncnn-upscaler/src/engines/ncnn_upscaler_engine.cpp:147-199 | for a network of radius at most 18 with arbitrary border behaviour, every output sample depends on the edge-clamped source window alone |
| UpscalerEngine.PipelineSeamBand | bdreader-ncnn-upscaler/src/engines/ncnn_upscaler_engine.cpp:226-270 | the seam-band theorem for the whole pipeline around such a network |
| PipelineSharpness.ShiftThroughPadding | bdreader-ncnn-upscaler/src/engines/ncnn_upscaler_engine.cpp:147-199 | around a network that shifts by at most the padding, pad and crop change nothing at all, up to the borders |
| PipelineSharpness.PipelineInvisibleExactly | bdreader-ncnn-upscaler/src/engines/ncnn_upscaler_engine.cpp:226-270 | for every grid and radius within padding and overlap, tiling is invisible at a sample for all networks of that radius just when it is in no band |
| ConfiguredPipeline.ConfiguredSize | bdreader-ncnn-upscaler/src/engines/base_engine.hpp:38-47 | for every option, profile and scale the result is scale times the source on both sides |
| ConfiguredPipeline.ConfiguredPipeline | bdreader-ncnn-upscaler/src/engines/ncnn_upscaler_engine.cpp:226-322 | under every option, profile and scale, for networks of radius at most 18, samples are those of direct processing: all of them within the thresholds, those outside the bands beyond |
| EngineConfig.ConfigurationExactly | bdreader-ncnn-upscaler/src/engines/ncnn_upscaler_engine.cpp:310-322 | the configuration field by field: the engine's scale and overlap 32 always, tile size and thresholds from option or profile |
| EngineConfig.EngineInputsBounded | bdreader-ncnn-upscaler/src/engines/ncnn_upscaler_engine.cpp:310-322 | for every option and profile the tile size exceeds the overlap and no image handed to the engine exceeds max(33, N), 1024 or 2048 per side |
| EngineConfig.InferenceIsBounded | bdreader-ncnn-upscaler/src/engines/ncnn_upscaler_engine.cpp:147-154 | no padded image handed to the network exceeds, per side, that bound plus 36 rounded up to even |
| EngineConfig.BoundIsReached | bdreader-ncnn-upscaler/src/engines/ncnn_upscaler_engine.cpp:147-154 | a square image of the bounding size is given to the network whole, at exactly the padded bound |
| EngineConfig.SmallImageIsGivenWhole | bdreader-ncnn-upscaler/src/utils/tiling_processor.cpp:28-43 | an image within the thresholds is given to the network whole and padded, and nothing else is |
| EngineConfig.LargeImageIsCutUp | bdreader-ncnn-upscaler/src/utils/tiling_processor.cpp:67-90 | for any other image the network is given the padded tiles of the grid |
| EngineConfig.FailsOnNetworkInput | bdreader-ncnn-upscaler/src/utils/tiling_processor.cpp:34-117 | upscaling fails just when the network fails on one of these images |
| EngineConfig.OnlyNetworkInputs | bdreader-ncnn-upscaler/src/utils/tiling_processor.cpp:28-165 | the result depends on the network only through those padded images |
| EngineConfig.TiledArea | bdreader-ncnn-upscaler/src/utils/tiling.cpp:15-34 | the tiles cover exactly (W + (nx-1) * overlap) * (H + (ny-1) * overlap) source pixels in total |
| EngineConfig.DriverFitsInt | bdreader-ncnn-upscaler/src/utils/tiling_processor.cpp:80-137 | with overlap 32, every int computed about any tile of the grid fits when 3 * W * H * s * s does: grid and output positions, sizes of tile, upscaled tile and region, and the offsets of all rows copied out of and into them |
| EngineConfig.AxisFitsInt | bdreader-ncnn-upscaler/src/utils/tiling.cpp:26-41 | the products of calculate_tiles fit an int, are the grid positions, and stay inside the source and the output |
| BlockingQueue.InvAlongRun | bdreader-ncnn-upscaler/src/utils/blocking_queue.hpp:42-113 | placement, conservation, wakeup and close invariants hold in every state of every interleaving |
| BlockingQueue.WakeupsPreserved | bdreader-ncnn-upscaler/src/utils/blocking_queue.hpp:54-82 | every step keeps: an un-notified consumer has as many notified colleagues as there are items, an un-notified producer as many as there are free slots |
| BlockingQueue.FinishingStep | bdreader-ncnn-upscaler/src/utils/blocking_queue.hpp:42-85 | a thread that is not waiting and whose predicate holds can complete its call with its next step |
| BlockingQueue.NoWakeupIsLost | bdreader-ncnn-upscaler/src/utils/blocking_queue.hpp:42-113 | if a thread waits although its predicate holds, a notified thread is about to use the chance or a close is about to notify |
| BlockingQueue.NeverAllStuck | bdreader-ncnn-upscaler/src/utils/blocking_queue.hpp:42-113 | producers and consumers are never all stuck |
| BlockingQueue.DeliversInOrder | bdreader-ncnn-upscaler/src/utils/blocking_queue.hpp:54-82 | accepted items are those handed out, in order, followed by the queue, which never exceeds its capacity |
| BlockingQueue.HistoryGrows | bdreader-ncnn-upscaler/src/utils/blocking_queue.hpp:54-102 | no step takes back an accepted or delivered item |
| BlockingQueue.HistoryIsExact | bdreader-ncnn-upscaler/src/utils/blocking_queue.hpp:42-102 | over every run, the accepted items are those announced for the pushes that went through, in order, and the delivered ones the first of them, one for each pop that found one |
| BlockingQueue.HistoryStep | bdreader-ncnn-upscaler/src/utils/blocking_queue.hpp:54-82 | which item one step appends to the queue or takes from it, and that no other step touches it |
| BlockingQueue.CallsEndExactly | bdreader-ncnn-upscaler/src/utils/blocking_queue.hpp:45-76 | a call ends just when its predicate holds as it checks; otherwise, and only then, its thread waits |
| BlockingQueue.ClosedIsFinal | bdreader-ncnn-upscaler/src/utils/blocking_queue.hpp:104-113 | after close nothing is accepted and no thread starts to wait, in any continuation |
| BlockingQueue.GivesUpOnlyWhenDrained | bdreader-ncnn-upscaler/src/utils/blocking_queue.hpp:73-76 | a blocking pop gives up only when everything ever accepted has been delivered |
| BlockingQueue.ClosedLetsEveryoneGo | bdreader-ncnn-upscaler/src/utils/blocking_queue.hpp:104-113 | once the closers have notified, nobody waits, nobody ever will, and every thread inside a call can complete it |
| BoundedQueue.BoundedBlockingQueue.Create | bdreader-ncnn-upscaler/src/utils/blocking_queue.hpp:31-36 | capacity 0 is refused, any other gives an empty open queue |
| BoundedQueue.BoundedBlockingQueue.PushSection | bdreader-ncnn-upscaler/src/utils/blocking_queue.hpp:42-58 | the critical section of push is a step of the monitor; it waits, throws, or appends this very item to the queue |
| BoundedQueue.BoundedBlockingQueue.PopSection | bdreader-ncnn-upscaler/src/utils/blocking_queue.hpp:65-85 | the critical section of pop is a step of the monitor; it waits, gives up or delivers the front |
| BoundedQueue.BoundedBlockingQueue.TryPopSection | bdreader-ncnn-upscaler/src/utils/blocking_queue.hpp:90-102 | try_pop is a step of the monitor and delivers the front if there is one |
| BoundedQueue.BoundedBlockingQueue.CloseSection | bdreader-ncnn-upscaler/src/utils/blocking_queue.hpp:106-110 | the locked part of close is a step of the monitor |
| Bytes.DecodeEncode | bdreader-ncnn-upscaler/src/protocol_v2.hpp:52-57 | decoding inverts encoding on all 32-bit values |
| Bytes.EncodeDecode | bdreader-ncnn-upscaler/src/protocol_request_payload_test.cpp:9-14 | encoding inverts decoding on all four-byte prefixes |
| Bytes.TwosComplement | bdreader-ncnn-upscaler/src/protocol_v2.hpp:69-76 | signed and unsigned 32-bit values are converted modulo 2^32, both ways |
| ProtocolV2.HeaderRoundTrip | bdreader-ncnn-upscaler/src/protocol_v2.hpp:78-107 | the 16-byte header is read back field by field |
| ProtocolV2.BuildPayload | bdreader-ncnn-upscaler/src/protocol_request_payload_test.cpp:20-36 | the pushing loop produces the encoding of the request |
| ProtocolV2.ParseRequestPayload | bdreader-ncnn-upscaler/src/protocol_v2.hpp:109-204 | the position-advancing parser computes the parse function, and the 50 MiB check can never fire |
| RequestRoundTrip.ParseInvertsEncode | bdreader-ncnn-upscaler/src/protocol_v2.hpp:109-204 | every request within the limits is parsed back from its encoding |
| RequestRoundTrip.EncodeInvertsParse | bdreader-ncnn-upscaler/src/protocol_v2.hpp:109-204 | whatever parses is within the limits, re-encodes to the very input, and has size 13 + meta + sum of (4 + image) |
| RequestRoundTrip.AcceptedExactly | bdreader-ncnn-upscaler/src/protocol_v2.hpp:109-204 | the accepted payloads are precisely the encodings of requests within the limits |
| RequestRoundTrip.RejectionStatus | bdreader-ncnn-upscaler/src/protocol_v2.hpp:172-201 | ResourceLimit just when, after a valid preamble and some full images, the next announced length exceeds 48 MiB in sum; ValidationError otherwise |
| Streams.InputStream.ReadExact | bdreader-ncnn-upscaler/src/modes/stdin_mode.cpp:31-41 | all bytes asked for, or failure at the end of the stream |
| Streams.InputStream.DiscardBytes | bdreader-ncnn-upscaler/src/modes/stdin_mode.cpp:109-120 | discarding in chunks of 4096 skips exactly the count, or fails at the end of the stream |
| Responses.WriteProtocolResponse | bdreader-ncnn-upscaler/src/modes/stdin_mode.cpp:66-94 | appends the encoding of the response, with the length summed in wrapping 32-bit arithmetic |
| Responses.PrefixExact | bdreader-ncnn-upscaler/src/modes/stdin_mode.cpp:71-79 | the length prefix is what follows modulo 2^32, hence exact just when that is below 2^32 |
| Responses.ClientReads | benchmark_pipeline.py:36-43 | the client's reader gets the status, the number of results and the error text that were written |
| Responses.ResponsesRoundTrip | bdreader-ncnn-upscaler/src/modes/stdin_mode.cpp:66-94 | a stream of responses is uniquely decodable: every id, status, error text and output comes back in order |
| KeepAlive.Handle | bdreader-ncnn-upscaler/src/modes/stdin_mode.cpp:252-384 | the answer to a payload is a function of that payload, the options and the engine |
| KeepAlive.Turn | bdreader-ncnn-upscaler/src/modes/stdin_mode.cpp:196-282 | a turn consumes exactly 4 + message_len bytes of one frame, valid or not, and answers it, or ends the loop after the shutdown frame or all that is left |
| KeepAlive.RunKeepAlive | bdreader-ncnn-upscaler/src/modes/stdin_mode.cpp:124-416 | for every input the output is one answer per complete frame, in order; handled and processed count the Ok ones, errors the others, in wrapping 32-bit counters; the bytes read are those frames and what ends the stream |
| KeepAlive.CountsOkResponses | bdreader-ncnn-upscaler/src/modes/stdin_mode.cpp:142-157 | what is counted as processed is the number of Ok responses |
| Sessions.Resynchronises | bdreader-ncnn-upscaler/src/modes/stdin_mode.cpp:210-250 | the session goes on right behind a frame, whatever was in it |
| Sessions.SplitIsUnique | bdreader-ncnn-upscaler/src/modes/stdin_mode.cpp:196-250 | reading back a concatenation of frames and any end yields those frames |
| Sessions.SplitCovers | bdreader-ncnn-upscaler/src/modes/stdin_mode.cpp:196-250 | every input is the frames that are answered followed by an end: a shutdown frame, a truncated frame or fewer than four bytes |
| Sessions.FramesAreIsolated | bdreader-ncnn-upscaler/src/modes/stdin_mode.cpp:196-399 | the output for a frame and a rest is the answer to the frame alone followed by the output for the rest alone |
| Sessions.AllOrNothing | bdreader-ncnn-upscaler/src/modes/stdin_mode.cpp:302-398 | Ok just when the frame holds an acceptable request whose images the engine can all process; then one result per image in order; any other response has no outputs |
| Sessions.StatusOfFrame | bdreader-ncnn-upscaler/src/modes/stdin_mode.cpp:210-377 | the exact condition on a frame for InvalidFrame, ResourceLimit, ValidationError and EngineError; Timeout never occurs |
| Diagnosis.AnswerIsExact | bdreader-ncnn-upscaler/src/modes/stdin_mode.cpp:210-377 | a frame has at most one problem, by its bytes and the protocol's numbers; it is answered with its own id and the status and text of that problem, or Ok when there is none |
| Diagnosis.ProblemIsExact | bdreader-ncnn-upscaler/src/protocol_v2.hpp:78-204 | each problem the server finds is the one the frame has, and conversely |
| Diagnosis.PreambleFields | bdreader-ncnn-upscaler/src/protocol_v2.hpp:115-157 | where the fields of a valid preamble are, and when it is valid |
| Sessions.EchoesRequestId | bdreader-ncnn-upscaler/src/modes/stdin_mode.cpp:252-266 | a frame of 16 bytes to 64 MiB gets its own id back even when its header is rejected, any other gets 0 |
| Sessions.UnderstoodExactly | bdreader-ncnn-upscaler/src/protocol_v2.hpp:78-107 | the frames understood are exactly those a client builds for requests within the limits |
| WireFormat.RequestBytes | bdreader-ncnn-upscaler/src/protocol_request_payload_test.cpp:9-36 | a request frame as a whole, byte by byte but for the numbers and texts it carries |
| WireFormat.ResponseBytes | bdreader-ncnn-upscaler/src/modes/stdin_mode.cpp:66-94 | a response as a whole, with the number of each status |
| WireFormat.LimitsInNumbers | bdreader-ncnn-upscaler/src/protocol_v2.hpp:14-19 | the limits of a request, as numbers |
| Sessions.ClientGetsResults | bdreader-ncnn-upscaler/src/modes/stdin_mode.cpp:124-416 | a client that sends any list of servable calls reads one Ok response per call, in order, with the engine's result on each image |
| BenchmarkClient.BuildRequestFrame | benchmark_pipeline.py:16-33 | the frame as built, its meta length counting characters |
| BenchmarkClient.BuildsWhatIsMeant | benchmark_pipeline.py:25-26 | the frame encodes the request that is meant just when the meta string is ASCII |
| BenchmarkClient.Utf8RoundTrip | benchmark_pipeline.py:26-26 | the encoded meta string decodes to the string, and takes the least number of bytes per character |
| BenchmarkClient.AsciiIsItself | benchmark_pipeline.py:25-26 | an ASCII string is its own encoding |
| EngineLifecycle.InvPreserved | bdreader-ncnn-upscaler/src/engines/ncnn_upscaler_engine.cpp:13-410 | every operation keeps the books balanced and the network's options wired to the held allocators |
| EngineLifecycle.AllocatorsAreBalanced | bdreader-ncnn-upscaler/src/engines/ncnn_upscaler_engine.cpp:382-410 | over every sequence of calls each acquisition is reclaimed at most once and none is lost; what is outstanding is exactly what the engine holds and what the network's options point to |
| EngineLifecycle.CleanupReclaimsAll | bdreader-ncnn-upscaler/src/engines/ncnn_upscaler_engine.cpp:286-308 | after cleanup every acquisition has been reclaimed exactly once, cleanup is idempotent, and the device may hand out any two allocators again |
| EngineLifecycle.FallbackIsFinal | bdreader-ncnn-upscaler/src/engines/ncnn_upscaler_engine.cpp:121-139 | after a failed Vulkan inference no Vulkan allocator is installed and the engine stays on the CPU until the next init |
| EngineLifecycle.InferenceFailsExactly | bdreader-ncnn-upscaler/src/engines/ncnn_upscaler_engine.cpp:121-139 | on Vulkan an inference fails just when both attempts do, after a fallback and until the next init just when the first one does |
| EngineLifecycle.InitSucceedsExactly | bdreader-ncnn-upscaler/src/engines/ncnn_upscaler_engine.cpp:13-72 | init succeeds just when the path is set and the model loads, and changes nothing without a path |
| EngineLifecycle.InitSelects | bdreader-ncnn-upscaler/src/engines/ncnn_upscaler_engine.cpp:30-65 | Vulkan is selected just when the device number is not negative |
| EngineLifecycle.InitInstalls | bdreader-ncnn-upscaler/src/engines/ncnn_upscaler_engine.cpp:382-395 | with nothing held and a device found, what the device hands out is held and installed |
| EngineLifecycle.ChangesExactly | bdreader-ncnn-upscaler/src/engines/ncnn_upscaler_engine.cpp:121-139 | an inference changes the engine just when it falls back; init never replaces what is held |
| EngineLifecycle.CleanupStops | bdreader-ncnn-upscaler/src/engines/ncnn_upscaler_engine.cpp:286-308 | cleanup leaves an initialised engine without model, Vulkan and device |
| EngineLifecycle.ReinitKeepsAllocators | bdreader-ncnn-upscaler/src/engines/ncnn_upscaler_engine.cpp:61-69 | a second init on the CPU leaves the allocators of the first installed just when there were any |
| EngineLifecycle.NcnnUpscalerEngine.Release | bdreader-ncnn-upscaler/src/engines/ncnn_upscaler_engine.cpp:397-410 | every reclaim call is for an allocator handed out and not returned since |
| EngineLifecycle.NcnnUpscalerEngine.Setup | bdreader-ncnn-upscaler/src/engines/ncnn_upscaler_engine.cpp:382-395 | acquires only for a device that is found and only when it holds nothing; the acquisitions are exactly what it holds afterwards, and the books stay balanced |
| EngineLifecycle.NcnnUpscalerEngine.Init | bdreader-ncnn-upscaler/src/engines/ncnn_upscaler_engine.cpp:13-72 | the new state and the result of init |
| EngineLifecycle.NcnnUpscalerEngine.RunInference | bdreader-ncnn-upscaler/src/engines/ncnn_upscaler_engine.cpp:121-139 | the new state; it succeeds with the first attempt, or with the second one when it was on Vulkan |
| EngineLifecycle.NcnnUpscalerEngine.CleanUp | bdreader-ncnn-upscaler/src/engines/ncnn_upscaler_engine.cpp:286-308 | the new state after cleanup |

## Left out

- ProcessWithTiling: images whose width or height exceeds the overlap by more than 2^24, where the float tile count is no longer the integer one (`FloatCeilDivInexact`); null engines and C++ exceptions are not modelled either.
- DriverFitsInt: for the integer tile count; the arithmetic on padded sizes inside the engine and the wrap-around of int beyond the bound are not modelled, and elsewhere the tiling arithmetic is unbounded.
- ProcessTiles: the engine is one function for all tiles of an image, so a fallback to the CPU between two tiles, after which the network may compute slightly different samples, is not modelled.
- ProcessImage: a crop that would read beyond the buffer has no defined result and is excluded by its exact condition.
- AllocatorsAreBalanced: what the network keeps internally of an allocator is not visible; the claim is about the pointers in its options.
- RunKeepAlive: the engine is a function of the image bytes, so a change of its behaviour between requests, as after a fallback to the CPU, is not modelled; nor are logging, timing, buffering and partial reads.
- ClientGetsResults: that 16 bytes plus the results with their lengths come to less than 2^32 is assumed of each call, as nothing bounds the size of an engine's output.
- ClientReads: the error text is compared as bytes; its decoding as UTF-8 with replacement of what is not is not modelled.
- NeverAllStuck: fairness of the scheduler is not modelled; the lemma says that some thread can go on, not that it is scheduled.
- Network, Vulkan driver, model files, float normalisation and codecs: opaque functions.
- Images are three-channel, as the driver's are; `pad_image` for other channel counts is not modelled.
- A translation-dependent network, one whose output depends on the position of a window and not only on its content, is outside the locality contracts.
- The shifts and masks of the integer codecs are written as arithmetic on disjoint bytes.
- CPU allocators, CPU and integrated-GPU network options, file mode, single-image stdin mode, option parsing and model selection: only easy members.
- `size`, `is_closed`, `is_full`, `is_empty` and `capacity` of the queue: single reads of a field.
