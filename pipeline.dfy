/**
 * The whole round trip, run one step at a time: the gateway publishes a
 * request, the bus hands it to the worker, the worker publishes one
 * terminal event, and the bus hands that to the broadcaster, which pushes
 * it into the stream opened for the id.
 */
module Pipeline {
  import opened Wrappers
  import opened Events
  import opened Bus
  import opened Sse
  import opened PdfProcessing
  import opened Rest
  import RequestCodec
  import CompletedCodec
  import ErrorCodec

  /** The consumers registered on the bus: the worker's, and the broadcaster's two. */
  datatype Consumer = RequestConsumer | CompletionConsumer | ErrorConsumer

  /** A published message reaches every consumer registered on its destination. */
  function Consumers(worker: Config, completed: string, errors: string, destination: string): set<Consumer> {
    (if destination == worker.requestsDestination then {RequestConsumer} else {})
    + (if destination == completed then {CompletionConsumer} else {})
    + (if destination == errors then {ErrorConsumer} else {})
  }

  /**
   * With the default properties, each kind of message the gateway and the
   * worker publish reaches exactly the one consumer that handles its kind.
   */
  lemma DefaultRoutingIsOneToOne(m: Message)
    ensures var c := DefaultConfig();
      && (m.destination == c.requestsDestination ==> Consumers(c, c.completedDestination, c.errorsDestination, m.destination) == {RequestConsumer})
      && (m.destination == c.completedDestination ==> Consumers(c, c.completedDestination, c.errorsDestination, m.destination) == {CompletionConsumer})
      && (m.destination == c.errorsDestination ==> Consumers(c, c.completedDestination, c.errorsDestination, m.destination) == {ErrorConsumer})
  {
  }

  /** The stream item the broadcaster makes of a terminal event. */
  function SseEventOf(body: Body): (e: SseEvent)
    requires !body.RequestBody?
    ensures IsTerminal(e)
    ensures body.CompletedBody? ==> e.name == PDF_COMPLETED && e.data == CompletedData(body.completed)
    ensures body.ErrorBody? ==> e.name == PDF_ERROR && e.data == ErrorData(body.error)
  {
    match body
    case CompletedBody(c) => CompletedSseEvent(c)
    case ErrorBody(e) => ErrorSseEvent(e)
  }

  /** The item a client should see for a job whose rendering had `outcome`. */
  function ExpectedItem(processId: string, outcome: RenderOutcome): SseEvent {
    match outcome
    case Uploaded => CompletedSseEvent(CompletionFor(processId))
    case RenderFailed(cause) => ErrorSseEvent(ErrorFor(processId, cause))
  }

  /** The one message the worker publishes for `processId` under the default properties. */
  function TerminalMessage(processId: string, outcome: RenderOutcome): Message {
    match outcome
    case Uploaded =>
      Message(DEFAULT_COMPLETED_DESTINATION, CompletedBody(CompletionFor(processId)), CompletedCodec.CODEC_NAME)
    case RenderFailed(cause) =>
      Message(DEFAULT_ERRORS_DESTINATION, ErrorBody(ErrorFor(processId, cause)), ErrorCodec.CODEC_NAME)
  }

  /**
   * Under the default properties (delays 3 to 40 seconds) the worker
   * always publishes, and publishes exactly the terminal message, whose
   * stream item is the expected one.
   */
  lemma DefaultWorkerPublishesOnce(request: PdfGenerationRequest, random: nat, outcome: RenderOutcome)
    ensures RequestPublishes(DefaultConfig(), request, random, outcome) == [TerminalMessage(request.processId, outcome)]
    ensures SseEventOf(TerminalMessage(request.processId, outcome).body) == ExpectedItem(request.processId, outcome)
  {
    var c := DefaultConfig();
    assert c.minDelayInSeconds <= c.maxDelayInSeconds < LONG_MAX;
  }

  /**
   * The application as wired by the container: one bus, one broadcaster
   * listening on the default completed and errors destinations, one worker
   * with the default properties, one resource publishing requests.
   */
  method Wire() returns (bus: EventBus, broadcaster: SseBroadcaster, worker: PdfEventProcessor, resource: PdfResource)
    ensures fresh(bus) && fresh(broadcaster)
    ensures bus.log == []
    ensures broadcaster.Valid() && broadcaster.processors == map[] && broadcaster.retired == {}
    ensures broadcaster.completedDestination == DEFAULT_COMPLETED_DESTINATION
    ensures broadcaster.errorsDestination == DEFAULT_ERRORS_DESTINATION
    ensures worker.bus == bus && worker.config == DefaultConfig()
    ensures resource.bus == bus && resource.broadcaster == broadcaster
    ensures resource.requestsDestination == DEFAULT_REQUESTS_DESTINATION
  {
    var config := DefaultConfig();
    bus := new EventBus();
    broadcaster := new SseBroadcaster(config.completedDestination, config.errorsDestination);
    worker := new PdfEventProcessor(bus, config);
    resource := new PdfResource(bus, broadcaster, config.requestsDestination);
  }

  /**
   * The bus hands a terminal event to the broadcaster consumer registered
   * on its destination, through the codec's local `transform`.
   */
  method DeliverTerminal(broadcaster: SseBroadcaster, m: Message)
    requires broadcaster.Valid()
    requires || (m.body.CompletedBody? && m.destination == broadcaster.completedDestination)
             || (m.body.ErrorBody? && m.destination == broadcaster.errorsDestination)
    modifies broadcaster
    modifies if m.body.ProcessId() in broadcaster.processors then {broadcaster.processors[m.body.ProcessId()]} else {}
    ensures broadcaster.Valid()
    ensures broadcaster.processors == old(broadcaster.processors) - {m.body.ProcessId()}
    ensures forall id | id in broadcaster.processors :: unchanged(broadcaster.processors[id])
    ensures forall p | p in old(broadcaster.retired) :: unchanged(p)
    ensures old(m.body.ProcessId() in broadcaster.processors) ==>
      var p := old(broadcaster.processors[m.body.ProcessId()]);
      && p.items == [SseEventOf(m.body)] && p.completed
      && broadcaster.retired == old(broadcaster.retired) + {p}
    ensures old(m.body.ProcessId() !in broadcaster.processors) ==> broadcaster.retired == old(broadcaster.retired)
  {
    match m.body
    case CompletedBody(c) => broadcaster.HandleCompletionEvent(CompletedCodec.Transform(c));
    case ErrorBody(e) => broadcaster.HandleErrorEvent(ErrorCodec.Transform(e));
  }

  /**
   * One job finishing: the bus hands the request to the worker, the worker
   * publishes its terminal message, and the bus hands that message to the
   * broadcaster consumer registered on its destination.
   */
  method FinishJob(worker: PdfEventProcessor, broadcaster: SseBroadcaster, request: PdfGenerationRequest, random: nat, outcome: RenderOutcome)
    requires worker.config == DefaultConfig()
    requires broadcaster.Valid()
    requires broadcaster.completedDestination == DEFAULT_COMPLETED_DESTINATION
    requires broadcaster.errorsDestination == DEFAULT_ERRORS_DESTINATION
    modifies worker.bus, broadcaster
    modifies if request.processId in broadcaster.processors then {broadcaster.processors[request.processId]} else {}
    ensures worker.bus.log == old(worker.bus.log) + [TerminalMessage(request.processId, outcome)]
    ensures broadcaster.Valid()
    ensures broadcaster.processors == old(broadcaster.processors) - {request.processId}
    ensures forall id | id in broadcaster.processors :: unchanged(broadcaster.processors[id])
    ensures forall p | p in old(broadcaster.retired) :: unchanged(p)
    ensures old(request.processId in broadcaster.processors) ==>
      var p := old(broadcaster.processors[request.processId]);
      && p.items == [ExpectedItem(request.processId, outcome)] && p.completed
      && broadcaster.retired == old(broadcaster.retired) + {p}
    ensures old(request.processId !in broadcaster.processors) ==> broadcaster.retired == old(broadcaster.retired)
  {
    worker.HandlePdfGenerationRequest(RequestCodec.Transform(request), random, outcome);
    DefaultWorkerPublishesOnce(request, random, outcome);
    var terminal := TerminalMessage(request.processId, outcome);
    assert Consumers(worker.config, broadcaster.completedDestination, broadcaster.errorsDestination, terminal.destination)
      == (if outcome.Uploaded? then {CompletionConsumer} else {ErrorConsumer});
    DeliverTerminal(broadcaster, terminal);
  }

  /** The completion URL of a minted id routes back to the download of that id. */
  lemma MintedIdRoutesToDownload(uuid: seq<int>)
    requires IsRandomUuid(uuid)
    ensures RouteDownload(DownloadUrl(UuidString(uuid))) == Some(UuidString(uuid))
  {
    UuidIsPlainAscii(uuid);
    var id := UuidString(uuid);
    assert id[0] == id[0];
    assert '/' !in id by {
      forall i | 0 <= i < |id| ensures id[i] != '/' {
        assert IsUnreserved(id[i]);
      }
    }
    CompletionUrlRoutesToDownload(id);
  }

  /**
   * Submit, open the stream (twice), let the worker finish with `outcome`:
   * the stream receives exactly one item, the matching terminal event, and
   * is completed; both opens share the one stream; a completion's URL leads
   * back to the download of the same id.
   */
  method SubmitOpenAndFinish(uuid: seq<int>, random: nat, outcome: RenderOutcome)
    returns (processId: string, stream: Processor, reopened: Processor, log: seq<Message>)
    requires IsRandomUuid(uuid)
    ensures processId == UuidString(uuid)
    ensures reopened == stream
    ensures stream.items == [ExpectedItem(processId, outcome)] && stream.completed
    ensures |log| == 2
    ensures log[0] == Message(DEFAULT_REQUESTS_DESTINATION, RequestBody(PdfGenerationRequest(processId)), RequestCodec.CODEC_NAME)
    ensures log[1].body.ProcessId() == processId
    ensures outcome.Uploaded? ==>
      && log[1].destination == DEFAULT_COMPLETED_DESTINATION
      && log[1].body.CompletedBody?
      && RouteDownload(log[1].body.completed.pdfUrl) == Some(processId)
    ensures outcome.RenderFailed? ==> log[1].destination == DEFAULT_ERRORS_DESTINATION
  {
    var bus, broadcaster, worker, resource := Wire();

    processId := resource.GeneratePdf(uuid);
    stream := resource.GetPdfStatus(processId);
    reopened := resource.GetPdfStatus(processId);

    var request := bus.log[0];
    assert Consumers(worker.config, broadcaster.completedDestination, broadcaster.errorsDestination, request.destination) == {RequestConsumer};
    FinishJob(worker, broadcaster, request.body.request, random, outcome);
    log := bus.log;
    MintedIdRoutesToDownload(uuid);
  }

  /**
   * The worker finishes before the client opens the stream: the terminal
   * event is dropped, and the stream opened afterwards never receives it.
   */
  method LateSubscriberMissesEvent(uuid: seq<int>, random: nat, outcome: RenderOutcome)
    returns (processId: string, stream: Processor, log: seq<Message>)
    requires IsRandomUuid(uuid)
    ensures processId == UuidString(uuid)
    ensures |log| == 2 && log[1].body.ProcessId() == processId
    ensures stream.items == [] && !stream.completed
  {
    var bus, broadcaster, worker, resource := Wire();

    processId := resource.GeneratePdf(uuid);
    FinishJob(worker, broadcaster, bus.log[0].body.request, random, outcome);
    stream := resource.GetPdfStatus(processId);
    log := bus.log;
  }

  /**
   * Two jobs with distinct ids and both streams open: finishing the first
   * delivers into its stream only; the second stream stays open and empty.
   */
  method JobsAreIsolated(uuidA: seq<int>, uuidB: seq<int>, random: nat, outcome: RenderOutcome)
    returns (streamA: Processor, streamB: Processor)
    requires IsRandomUuid(uuidA) && IsRandomUuid(uuidB)
    requires uuidA != uuidB
    ensures streamA != streamB
    ensures streamA.items == [ExpectedItem(UuidString(uuidA), outcome)] && streamA.completed
    ensures streamB.items == [] && !streamB.completed
  {
    var bus, broadcaster, worker, resource := Wire();

    var idA := resource.GeneratePdf(uuidA);
    var idB := resource.GeneratePdf(uuidB);
    if idA == idB {
      UuidStringInjective(uuidA, uuidB);
    }
    var request := bus.log[0].body.request;
    assert request.processId == idA;
    streamA := resource.GetPdfStatus(idA);
    streamB := resource.GetPdfStatus(idB);
    assert broadcaster.processors == map[idA := streamA, idB := streamB];
    assert Open(streamB);

    FinishJob(worker, broadcaster, request, random, outcome);
    assert idB in broadcaster.processors && broadcaster.processors[idB] == streamB;
  }

  /**
   * Once a stream has had its terminal event, a second terminal event for
   * the same id finds no registration and is dropped: the stream keeps
   * exactly one item.
   */
  method SecondTerminalEventIsDropped(uuid: seq<int>, random: nat, first: RenderOutcome, second: RenderOutcome)
    returns (processId: string, stream: Processor)
    requires IsRandomUuid(uuid)
    ensures processId == UuidString(uuid)
    ensures stream.items == [ExpectedItem(processId, first)] && stream.completed
  {
    var bus, broadcaster, worker, resource := Wire();

    processId := resource.GeneratePdf(uuid);
    stream := resource.GetPdfStatus(processId);
    var request := bus.log[0].body.request;
    assert request.processId == processId;
    assert broadcaster.processors == map[processId := stream];

    FinishJob(worker, broadcaster, request, random, first);
    assert stream in broadcaster.retired && broadcaster.processors == map[];
    FinishJob(worker, broadcaster, request, random, second);
  }
}
