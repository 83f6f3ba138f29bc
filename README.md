# PDF generation with server-sent status: a verified model

The application lets a client ask for a PDF and be told, over a
server-sent-event (SSE) stream, when it is ready.

1. `POST /api/pdf/generate` mints a process id from a random UUID. It
   publishes a `PdfGenerationRequest` on the Vert.x event bus and returns
   the id at once.
2. `GET /api/pdf/status/{id}` opens (or reopens) the one-shot stream that
   the `SseBroadcaster` keeps for the id.
3. The `PdfEventProcessor` worker picks a random delay, renders and uploads
   the PDF, and publishes exactly one terminal event:
   - a `PdfGenerationCompleted` on the completed destination, carrying the
     download URL, or
   - a `PdfGenerationError` on the errors destination, carrying the failure
     message.
4. The broadcaster pushes that event into the stream registered for the
   id, completes the stream and forgets the id. An event for an id with no
   stream is dropped.
5. `GET /api/pdf/download/{id}` serves the object `<id>.pdf` from the
   object store.

Three message codecs define how these events would cross a wire. The
request and completion codecs write each string field as a 4-byte
big-endian length followed by the string's UTF-8 bytes. The error codec
writes nothing.

The model is split by source file:

| file | module | models |
|---|---|---|
| `wrappers.dfy` | `Wrappers` | `Option` and `Result` |
| `buffers.dfy` | `Buffers` | the Vert.x `Buffer` (big-endian `int`s, UTF-8 strings, the bounds checks of `getInt`/`getString`), Java's `String.length()` and the UTF-8 decoder |
| `events.dfy` | `Events` | the three event records, the default destination names, and bus messages |
| `bus.dfy` | `Bus` | the event bus, as the log of everything published |
| `request_codec.dfy`, `completed_codec.dfy`, `error_codec.dfy` | `RequestCodec`, `CompletedCodec`, `ErrorCodec` | the three codecs; `encodeToWire` appends to a `Buffer` in place, `decodeFromWire` walks a cursor |
| `sse_broadcaster.dfy` | `Sse` | the registry, as a class holding `map<string, Processor>`; a `Processor` records the items it emitted and whether it has completed |
| `pdf_event_processor.dfy` | `PdfProcessing` | the worker; rendering and upload are an outcome given from outside |
| `pdf_resource.dfy` | `Rest` | the gateway: UUID ids, routing of the download path, the download response |
| `pipeline.dfy` | `Pipeline` | the consumers' wiring and end-to-end runs of all of the above |

The registry's invariant is `SseBroadcaster.Valid()`. It says three things:
- every processor still in the map is open (no items, not completed);
- no processor is registered under two ids;
- every processor that was ever removed holds exactly one terminal item and is completed.

The ghost set `retired` remembers the removed processors.

## Model

| member | source | states |
|---|---|---|
| `Buffers.ReadInt` | src/main/java/it/dontesta/quarkus/sse/eventbus/codec/PdfGenerationRequestCodec.java:27 | `getInt` succeeds exactly when the 4 bytes at the position lie in the buffer, and yields a 32-bit value |
| `Buffers.Int32RoundTrip` | src/main/java/it/dontesta/quarkus/sse/eventbus/codec/PdfGenerationRequestCodec.java:20-27 | reading an `int` where `appendInt` wrote it gives it back, whatever bytes surround it |
| `Buffers.ReadString` | src/main/java/it/dontesta/quarkus/sse/eventbus/codec/PdfGenerationRequestCodec.java:30 | `getString(start, end)` succeeds exactly when `0 <= start <= end <= length` |
| `Buffers.EncodeChar` | src/main/java/it/dontesta/quarkus/sse/eventbus/codec/PdfGenerationRequestCodec.java:21 | one character takes 1 to 4 UTF-8 bytes, and exactly 1 when it is ASCII |
| `Buffers.AsciiLengths` | src/main/java/it/dontesta/quarkus/sse/eventbus/codec/PdfGenerationRequestCodec.java:20-21 | for ASCII text, `String.length()` and the UTF-8 byte count both equal the number of characters |
| `Buffers.Utf16UndercountsUtf8` | src/main/java/it/dontesta/quarkus/sse/eventbus/codec/PdfGenerationRequestCodec.java:20-21 | `String.length()` never exceeds the UTF-8 byte count, and falls strictly short of it for non-ASCII text |
| `Buffers.DecodeEncodedChar` | src/main/java/it/dontesta/quarkus/sse/eventbus/codec/PdfGenerationRequestCodec.java:21-30 | decoding one encoded character, followed by any bytes, yields that character first |
| `Buffers.Utf8RoundTrip` | src/main/java/it/dontesta/quarkus/sse/eventbus/codec/PdfGenerationRequestCodec.java:21-30 | UTF-8 decoding undoes UTF-8 encoding for every string |
| `Buffers.ReadPrefixedRun` | src/main/java/it/dontesta/quarkus/sse/eventbus/codec/PdfGenerationCompletedCodec.java:32-34 | after a length prefix, the `int` reads back and the following run decodes as itself, whatever surrounds them |
| `Buffers.Buffer.AppendInt` | src/main/java/it/dontesta/quarkus/sse/eventbus/codec/PdfGenerationRequestCodec.java:20 | the buffer grows by the 4 big-endian bytes of the `int`; the old contents stay as they were |
| `Buffers.Buffer.AppendString` | src/main/java/it/dontesta/quarkus/sse/eventbus/codec/PdfGenerationRequestCodec.java:21 | the buffer grows by the UTF-8 bytes of the string; the old contents stay as they were |
| `Bus.EventBus.Publish` | src/main/java/it/dontesta/quarkus/sse/ws/rs/PdfResource.java:69-72 | a publish appends exactly one message (destination, event, codec name) to the log |
| `RequestCodec.Encode` | src/main/java/it/dontesta/quarkus/sse/eventbus/codec/PdfGenerationRequestCodec.java:18-22 | the encoding is 4 + (UTF-8 byte count) bytes long and starts with `String.length()` as an `int` |
| `RequestCodec.Decode` | src/main/java/it/dontesta/quarkus/sse/eventbus/codec/PdfGenerationRequestCodec.java:25-33 | decoding succeeds exactly when the length is in bounds, non-negative, and that many bytes follow; the id is then the UTF-8 decoding of exactly those bytes |
| `RequestCodec.EncodeToWire` | src/main/java/it/dontesta/quarkus/sse/eventbus/codec/PdfGenerationRequestCodec.java:17-22 | the buffer's existing bytes are kept, and the encoding is appended |
| `RequestCodec.DecodeFromWire` | src/main/java/it/dontesta/quarkus/sse/eventbus/codec/PdfGenerationRequestCodec.java:24-33 | stepping the cursor gives exactly `Decode` of the buffer at the position, including its failures |
| `RequestCodec.Transform` | src/main/java/it/dontesta/quarkus/sse/eventbus/codec/PdfGenerationRequestCodec.java:35-38 | a local delivery hands over the request unchanged |
| `RequestCodec.RoundTrip` | src/main/java/it/dontesta/quarkus/sse/eventbus/codec/PdfGenerationRequestCodec.java:18-32 | decoding at the end of any prefix gives back every request with an ASCII id, whatever follows |
| `RequestCodec.TruncatedFails` | src/main/java/it/dontesta/quarkus/sse/eventbus/codec/PdfGenerationRequestCodec.java:27-30 | every strict prefix of an ASCII request's encoding fails to decode |
| `RequestCodec.DecodeIgnoresSurroundings` | src/main/java/it/dontesta/quarkus/sse/eventbus/codec/PdfGenerationRequestCodec.java:27-30 | a successful decode reads only its own bytes; bytes before and after do not change it |
| `RequestCodec.NonAsciiPrefixTooShort` | src/main/java/it/dontesta/quarkus/sse/eventbus/codec/PdfGenerationRequestCodec.java:20-21 | for a non-ASCII id, decoding reads strictly fewer bytes than were written, and decodes only that prefix |
| `RequestCodec.NonAsciiCounterexample` | src/main/java/it/dontesta/quarkus/sse/eventbus/codec/PdfGenerationRequestCodec.java:18-32 | the id "é" comes back as U+FFFD, not as "é" |
| `RequestCodec.EncodeCorrected` | src/main/java/it/dontesta/quarkus/sse/eventbus/codec/PdfGenerationRequestCodec.java:18-22 | the corrected encoding, with a byte-count prefix, is 4 + (UTF-8 byte count) bytes long |
| `RequestCodec.CorrectedRoundTrip` | src/main/java/it/dontesta/quarkus/sse/eventbus/codec/PdfGenerationRequestCodec.java:18-32 | with a byte-count prefix, the unchanged decoder gives back every request |
| `RequestCodec.CorrectedAgreesOnAscii` | src/main/java/it/dontesta/quarkus/sse/eventbus/codec/PdfGenerationRequestCodec.java:20 | for ASCII ids the corrected encoding is byte for byte the original one |
| `CompletedCodec.Field` | src/main/java/it/dontesta/quarkus/sse/eventbus/codec/PdfGenerationCompletedCodec.java:19-21 | one field is 4 + (UTF-8 byte count) bytes |
| `CompletedCodec.Encode` | src/main/java/it/dontesta/quarkus/sse/eventbus/codec/PdfGenerationCompletedCodec.java:18-26 | the encoding is 8 + both UTF-8 byte counts long |
| `CompletedCodec.EncodeLayout` | src/main/java/it/dontesta/quarkus/sse/eventbus/codec/PdfGenerationCompletedCodec.java:18-26 | for every pair of Java strings the encoding is, in order: the id's `length()` as a big-endian int, the id's UTF-8 bytes, the URL's `length()`, the URL's UTF-8 bytes |
| `CompletedCodec.Decode` | src/main/java/it/dontesta/quarkus/sse/eventbus/codec/PdfGenerationCompletedCodec.java:29-42 | decoding succeeds exactly when both lengths are readable and non-negative and both runs fit in the buffer; on success the second length is read at position + 4 + first length, and both fields are the UTF-8 decodings of exactly their byte runs |
| `CompletedCodec.EncodeToWire` | src/main/java/it/dontesta/quarkus/sse/eventbus/codec/PdfGenerationCompletedCodec.java:17-26 | the buffer's existing bytes are kept, and both fields are appended in declaration order |
| `CompletedCodec.DecodeFromWire` | src/main/java/it/dontesta/quarkus/sse/eventbus/codec/PdfGenerationCompletedCodec.java:28-42 | stepping the cursor four times gives exactly `Decode` of the buffer at the position |
| `CompletedCodec.Transform` | src/main/java/it/dontesta/quarkus/sse/eventbus/codec/PdfGenerationCompletedCodec.java:44-47 | a local delivery hands over the completion unchanged |
| `CompletedCodec.DecodeTwoRuns` | src/main/java/it/dontesta/quarkus/sse/eventbus/codec/PdfGenerationCompletedCodec.java:32-41 | two byte runs, each prefixed with its byte count, decode as the two runs' strings, whatever surrounds them |
| `CompletedCodec.RoundTrip` | src/main/java/it/dontesta/quarkus/sse/eventbus/codec/PdfGenerationCompletedCodec.java:18-41 | decoding at the end of any prefix gives back every completion whose two fields are ASCII |
| `CompletedCodec.AsciiLayout` | src/main/java/it/dontesta/quarkus/sse/eventbus/codec/PdfGenerationCompletedCodec.java:18-26 | in an ASCII completion's encoding, the two length prefixes sit at offsets 0 and 4 + id length |
| `CompletedCodec.TruncatedFails` | src/main/java/it/dontesta/quarkus/sse/eventbus/codec/PdfGenerationCompletedCodec.java:32-39 | every strict prefix of an ASCII completion's encoding fails to decode |
| `CompletedCodec.NonAsciiCounterexample` | src/main/java/it/dontesta/quarkus/sse/eventbus/codec/PdfGenerationCompletedCodec.java:18-41 | the completion ("é", "/x") cannot be decoded at all, because the second length is read from the wrong bytes |
| `CompletedCodec.FieldCorrected` | src/main/java/it/dontesta/quarkus/sse/eventbus/codec/PdfGenerationCompletedCodec.java:19-21 | a corrected field, with a byte-count prefix, is 4 + (UTF-8 byte count) bytes |
| `CompletedCodec.EncodeCorrected` | src/main/java/it/dontesta/quarkus/sse/eventbus/codec/PdfGenerationCompletedCodec.java:18-26 | the corrected encoding is 8 + both UTF-8 byte counts long |
| `CompletedCodec.CorrectedRoundTrip` | src/main/java/it/dontesta/quarkus/sse/eventbus/codec/PdfGenerationCompletedCodec.java:18-41 | with byte-count prefixes, the unchanged decoder gives back every completion |
| `CompletedCodec.CodecNamesDistinct` | src/main/java/it/dontesta/quarkus/sse/eventbus/codec/PdfGenerationCompletedCodec.java:14-15 | the three codec names are pairwise distinct, and all three codec ids are -1 |
| `ErrorCodec.EncodeToWire` | src/main/java/it/dontesta/quarkus/sse/eventbus/codec/PdfGenerationErrorCodec.java:16-19 | the buffer is left exactly as it was |
| `ErrorCodec.DecodeFromWire` | src/main/java/it/dontesta/quarkus/sse/eventbus/codec/PdfGenerationErrorCodec.java:21-25 | every position and buffer decode to null |
| `ErrorCodec.Transform` | src/main/java/it/dontesta/quarkus/sse/eventbus/codec/PdfGenerationErrorCodec.java:27-30 | a local delivery hands over the error event unchanged |
| `ErrorCodec.NoWireRoundTrip` | src/main/java/it/dontesta/quarkus/sse/eventbus/codec/PdfGenerationErrorCodec.java:16-25 | no error event survives a trip over the wire |
| `Sse.CompletedSseEvent` | src/main/java/it/dontesta/quarkus/sse/eventbus/sse/SseBroadcaster.java:67-71 | the event is named `PDF_COMPLETED` and carries the completion as data |
| `Sse.ErrorSseEvent` | src/main/java/it/dontesta/quarkus/sse/eventbus/sse/SseBroadcaster.java:87-91 | the event is named `PDF_ERROR` and carries the error as data |
| `Sse.Processor.OnNext` | src/main/java/it/dontesta/quarkus/sse/eventbus/sse/SseBroadcaster.java:72 | an open processor appends the item; a completed one drops it |
| `Sse.Processor.OnComplete` | src/main/java/it/dontesta/quarkus/sse/eventbus/sse/SseBroadcaster.java:73 | the processor is completed, and its items stay as they were |
| `Sse.SseBroadcaster.CreateStream` | src/main/java/it/dontesta/quarkus/sse/eventbus/sse/SseBroadcaster.java:55-58 | an unknown id gets exactly one new entry, a fresh open processor, and every other entry stays; a known id gets its existing processor and the map is unchanged; `Valid()` is kept |
| `Sse.SseBroadcaster.HandleCompletionEvent` | src/main/java/it/dontesta/quarkus/sse/eventbus/sse/SseBroadcaster.java:60-78 | on a hit, the id's processor gets exactly one `PDF_COMPLETED` item carrying the event, is completed, and the id is removed; on a miss nothing changes; every other processor is unchanged; `Valid()` is kept |
| `Sse.SseBroadcaster.HandleErrorEvent` | src/main/java/it/dontesta/quarkus/sse/eventbus/sse/SseBroadcaster.java:80-98 | the same for one `PDF_ERROR` item carrying the error event |
| `PdfProcessing.WrapLong` | src/main/java/it/dontesta/quarkus/sse/eventbus/processor/pdf/PdfEventProcessor.java:189 | the result is a `long`, and a sum that already fits is left as it is |
| `PdfProcessing.DefaultConfig` | src/main/java/it/dontesta/quarkus/sse/eventbus/processor/pdf/PdfEventProcessor.java:52-74 | the three default destinations are pairwise distinct, and the delays default to 3 and 40 seconds |
| `PdfProcessing.NextLong` | src/main/java/it/dontesta/quarkus/sse/eventbus/processor/pdf/PdfEventProcessor.java:189 | `nextLong(origin, bound)` succeeds exactly when origin < bound, with a value in [origin, bound) |
| `PdfProcessing.NextLongReachesEveryValue` | src/main/java/it/dontesta/quarkus/sse/eventbus/processor/pdf/PdfEventProcessor.java:189 | every value of the range is the result of some random choice |
| `PdfProcessing.ScheduleDelay` | src/main/java/it/dontesta/quarkus/sse/eventbus/processor/pdf/PdfEventProcessor.java:189 | a delay is chosen exactly when min <= max < `Long.MAX_VALUE`, and it then lies in [min, max] |
| `PdfProcessing.ObjectKey` | src/main/java/it/dontesta/quarkus/sse/eventbus/processor/pdf/PdfEventProcessor.java:194 | the key is the id followed by ".pdf" |
| `PdfProcessing.DownloadUrl` | src/main/java/it/dontesta/quarkus/sse/eventbus/processor/pdf/PdfEventProcessor.java:157 | the URL is "/api/pdf/download/" followed by the id |
| `PdfProcessing.ErrorMessage` | src/main/java/it/dontesta/quarkus/sse/eventbus/processor/pdf/PdfEventProcessor.java:171 | the message is the fixed prefix followed by the cause's message, or by "null" when the cause has none |
| `PdfProcessing.GeneratePdfAsync` | src/main/java/it/dontesta/quarkus/sse/eventbus/processor/pdf/PdfEventProcessor.java:186-219 | it throws exactly when no delay can be chosen; otherwise the delay is in [min, max], success yields the object key, and failure carries the cause's message |
| `PdfProcessing.RequestPublishes` | src/main/java/it/dontesta/quarkus/sse/eventbus/processor/pdf/PdfEventProcessor.java:150-183 | at most one event is published, and exactly one whenever a delay can be chosen. It carries the request's id. On success it is the completion with the download URL on the completed destination; on failure it is the error with the prefixed message on the errors destination |
| `PdfProcessing.OutcomeDecidesDestination` | src/main/java/it/dontesta/quarkus/sse/eventbus/processor/pdf/PdfEventProcessor.java:164-179 | with distinct destinations, success never reaches the errors destination and failure never reaches the completed destination |
| `PdfProcessing.PdfEventProcessor.HandlePdfGenerationRequest` | src/main/java/it/dontesta/quarkus/sse/eventbus/processor/pdf/PdfEventProcessor.java:150-183 | the bus log grows by exactly `RequestPublishes` |
| `Rest.Hex` | src/main/java/it/dontesta/quarkus/sse/ws/rs/PdfResource.java:65 | one character per nibble, and each character is the lower-case hexadecimal digit of its nibble |
| `Rest.UuidString` | src/main/java/it/dontesta/quarkus/sse/ws/rs/PdfResource.java:65 | the id is 36 characters long, with dashes at 8, 13, 18 and 23 and the version digit 4 at 14 |
| `Rest.UuidStringDigits` | src/main/java/it/dontesta/quarkus/sse/ws/rs/PdfResource.java:65 | the i-th nibble of the UUID is written, as its hexadecimal digit, at position i plus the number of dashes before it |
| `Rest.UuidStringInjective` | src/main/java/it/dontesta/quarkus/sse/ws/rs/PdfResource.java:65 | two random UUIDs with the same string form are the same UUID, so distinct UUIDs mint distinct process ids |
| `Pipeline.MintedIdRoutesToDownload` | src/main/java/it/dontesta/quarkus/sse/ws/rs/PdfResource.java:64-92 | the download URL built from a minted id routes back to the download of that same id |
| `Rest.UuidIsPlainAscii` | src/main/java/it/dontesta/quarkus/sse/ws/rs/PdfResource.java:65 | a minted id is ASCII, a valid Java string, and a plain URL path segment |
| `Rest.RouteDownload` | src/main/java/it/dontesta/quarkus/sse/ws/rs/PdfResource.java:87-90 | a path routed to `downloadPdf` is exactly the download path of the id it extracts |
| `Rest.CompletionUrlRoutesToDownload` | src/main/java/it/dontesta/quarkus/sse/ws/rs/PdfResource.java:88-92 | the URL in a completion event routes back to the download of the same id, and the key downloaded is the key the worker uploaded |
| `Rest.RouteDownloadRejectsNested` | src/main/java/it/dontesta/quarkus/sse/ws/rs/PdfResource.java:88 | a path with more than one segment after `/download/` is not routed |
| `Rest.DownloadPdf` | src/main/java/it/dontesta/quarkus/sse/ws/rs/PdfResource.java:90-116 | 200 exactly when the object exists, with the attachment and octet-stream headers and the bytes as entity; 404 exactly on `NoSuchKey`; 500 carrying the exception's message otherwise |
| `Rest.DownloadAfterUpload` | src/main/java/it/dontesta/quarkus/sse/ws/rs/PdfResource.java:92-103 | once the worker's key holds a PDF, downloading the id is a 200 serving those bytes |
| `Rest.DownloadBeforeUpload` | src/main/java/it/dontesta/quarkus/sse/ws/rs/PdfResource.java:104-108 | before the upload, downloading the id is a 404 |
| `Rest.PdfResource.GeneratePdf` | src/main/java/it/dontesta/quarkus/sse/ws/rs/PdfResource.java:64-77 | exactly one request is published on the requests destination, and its id is the id returned |
| `Rest.PdfResource.GetPdfStatus` | src/main/java/it/dontesta/quarkus/sse/ws/rs/PdfResource.java:82-85 | exactly what `createStream` promises, for the same id |
| `Pipeline.DefaultRoutingIsOneToOne` | src/main/java/it/dontesta/quarkus/sse/eventbus/sse/SseBroadcaster.java:48-53 | with the default properties, each destination reaches exactly one consumer: the worker, the completion handler or the error handler |
| `Pipeline.SseEventOf` | src/main/java/it/dontesta/quarkus/sse/eventbus/sse/SseBroadcaster.java:67-91 | a terminal event becomes a terminal stream item with the matching name and data |
| `Pipeline.DefaultWorkerPublishesOnce` | src/main/java/it/dontesta/quarkus/sse/eventbus/processor/pdf/PdfEventProcessor.java:150-189 | with the default delays the worker always publishes exactly one terminal message, and its stream item is the expected one |
| `Pipeline.DeliverTerminal` | src/main/java/it/dontesta/quarkus/sse/eventbus/sse/SseBroadcaster.java:50-51 | the bus hands a terminal event, through its codec's `transform`, to the broadcaster handler registered on its destination |
| `Pipeline.FinishJob` | src/main/java/it/dontesta/quarkus/sse/eventbus/processor/pdf/PdfEventProcessor.java:150-183 | with the default properties, one job finishes: one terminal message is published, and the id's stream, if open, gets exactly the expected item and is completed; nothing else changes |
| `Pipeline.SubmitOpenAndFinish` | src/main/java/it/dontesta/quarkus/sse/ws/rs/PdfResource.java:64-85 | submit, open the stream twice, finish: both opens share one stream, which ends with exactly the matching terminal item and is completed. Exactly two messages are published, and a completion's URL routes back to the download of the same id |
| `Pipeline.LateSubscriberMissesEvent` | src/main/java/it/dontesta/quarkus/sse/eventbus/sse/SseBroadcaster.java:75-77 | when the job finishes before the stream is opened, its event is dropped and the stream opened later stays open and empty |
| `Pipeline.JobsAreIsolated` | src/main/java/it/dontesta/quarkus/sse/eventbus/sse/SseBroadcaster.java:63-74 | two jobs submitted with distinct UUIDs get distinct ids; finishing one of them delivers into its stream only, and the other stays open and empty |
| `Pipeline.SecondTerminalEventIsDropped` | src/main/java/it/dontesta/quarkus/sse/eventbus/sse/SseBroadcaster.java:72-74 | a second terminal event for an already delivered id misses, so the stream keeps exactly its first item |

## Left out

- Concurrency. The model is sequential, so it does not capture:
  - the thread safety of `ConcurrentHashMap`;
  - the window between `get` and `remove` in the handlers;
  - the scheduled thread pool and `delayedExecutor`;
  - the executor shutdown with its 5-second wait.

  `computeIfAbsent`, `get` and `remove` are single atomic steps. The asynchronous continuation of `handlePdfGenerationRequest` runs to its end inside the call.
- Reactive subscription of `BroadcastProcessor`, such as items lost before anyone subscribes, or several subscribers. A processor is reduced to its emitted items and its completed flag. The SSE and JSON serialisation of `OutboundSseEvent` is also not modelled.
- MinIO and the Fugerit renderer. Bucket creation, `putObject` and document rendering are replaced by the `RenderOutcome` parameter. `getObject` is replaced by a function parameter of `DownloadPdf`.
- Randomness. `UUID.randomUUID()` is a parameter holding the 32 nibbles of a version-4 UUID; that ids are fresh is a precondition where a scenario needs it. `ThreadLocalRandom` is a natural-number parameter; `NextLongReachesEveryValue` shows that every value of the range is reachable.
- Wiring. Codec registration in `EventBusConfiguration.java`, consumer registration and unregistration, the `consumer` field (`PdfEventProcessor.java`, lines 111-113 and 142-146) and the `executor` field (lines 128-140 and 218), which run and shut down the asynchronous continuation (the model runs the continuation synchronously, so neither is needed), `poolSize`, the Qute page `getPdfGeneratorPage` and all logging are not modelled. The consumers registered on each destination are modelled by `Pipeline.Consumers`.
- `name()` and `systemCodecID()` of the codecs are the constants `CODEC_NAME` and `CODEC_ID` in each codec module.
- JAX-RS percent-decoding of path parameters. `RouteDownload` matches the raw path. Minted ids contain no character that needs escaping (`Rest.UuidIsPlainAscii`).
- Lone UTF-16 surrogates. Dafny's `char` is a Unicode scalar value, so strings cannot hold them, and `String.length()` counts a supplementary character as two units.
- The UTF-8 decoder follows the JDK's replacement behaviour: each maximal ill-formed subpart becomes one U+FFFD.
- Buffers longer than 2^31 - 1 bytes, and Java `int` overflow of `position + length` in the decoders. Positions and lengths are unbounded integers. Only the values read with `getInt` are 32-bit.
- `PdfGenerationRequest.java` is not part of this model. It is taken to be a record whose one component is `processId`, as its uses in the codec and resource show.
- Exceptions thrown by `eventBus.publish` inside the completion callback, which would redirect the future to the error branch, are not modelled. Publishing always succeeds.
- A stream reopened after delivery. `createStream` is `computeIfAbsent` on an id that has been removed, so it registers a fresh open processor. The model follows the code: an id that has been delivered can be opened again, and the new stream waits for an event that is already gone (`Pipeline.LateSubscriberMissesEvent`).
- `RequestCodec.RoundTrip`: holds only for ASCII ids, as the source's length prefix allows; see Findings.
- `CompletedCodec.RoundTrip`: holds only for ASCII fields, for the same reason; see Findings.

## Findings

| source | as written | input that shows it | evidently intended | confidence | as-written member | corrected member |
|---|---|---|---|---|---|---|
| src/main/java/it/dontesta/quarkus/sse/eventbus/codec/PdfGenerationRequestCodec.java:20-30 | the length prefix is `processId.length()`, counting UTF-16 units, but the payload is the UTF-8 bytes, and decoding reads as many bytes as the prefix says | the id "é" is written as `00 00 00 01 C3 A9` and decodes to U+FFFD | the prefix is the UTF-8 byte count, so every id comes back | high, not executed | `RequestCodec.NonAsciiCounterexample` | `RequestCodec.CorrectedRoundTrip` |
| src/main/java/it/dontesta/quarkus/sse/eventbus/codec/PdfGenerationCompletedCodec.java:20-38 | the same mismatch, and the cursor then advances by the UTF-16 count, so the second length is read from the wrong bytes | the completion ("é", "/x") reads its second length from `A9 00 00 00`, a negative `int`, and decoding throws | both prefixes are UTF-8 byte counts, so every completion comes back | high, not executed | `CompletedCodec.NonAsciiCounterexample` | `CompletedCodec.CorrectedRoundTrip` |
