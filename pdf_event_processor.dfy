/**
 * `PdfEventProcessor`: the worker. For each request it picks a delay,
 * renders and uploads the PDF (an outcome given from outside), and
 * publishes exactly one completion or error event for the request's id.
 */
module PdfProcessing {
  import opened Wrappers
  import opened Events
  import opened Bus
  import CompletedCodec
  import ErrorCodec

  const LONG_MIN: int := -0x8000_0000_0000_0000
  const LONG_MAX: int := 0x7FFF_FFFF_FFFF_FFFF

  /** The range of a Java `long`. */
  predicate IsInt64(v: int) {
    LONG_MIN <= v <= LONG_MAX
  }

  /** Java `long` arithmetic: the result taken modulo 2^64 into the `long` range. */
  function WrapLong(x: int): (w: int)
    ensures IsInt64(w)
    ensures IsInt64(x) ==> w == x
  {
    (x - LONG_MIN) % 0x1_0000_0000_0000_0000 + LONG_MIN
  }

  /** The worker's configuration properties. */
  datatype Config = Config(
    requestsDestination: string,
    completedDestination: string,
    errorsDestination: string,
    minDelayInSeconds: int,
    maxDelayInSeconds: int)
  {
    /** The two delay bounds are `long` properties. */
    predicate HasLongDelays() {
      IsInt64(minDelayInSeconds) && IsInt64(maxDelayInSeconds)
    }
  }

  /** The defaults of the configuration properties. */
  function DefaultConfig(): (c: Config)
    ensures c.requestsDestination != c.completedDestination
    ensures c.requestsDestination != c.errorsDestination
    ensures c.completedDestination != c.errorsDestination
    ensures c.HasLongDelays() && c.minDelayInSeconds == 3 && c.maxDelayInSeconds == 40
  {
    Config(DEFAULT_REQUESTS_DESTINATION, DEFAULT_COMPLETED_DESTINATION, DEFAULT_ERRORS_DESTINATION, 3, 40)
  }

  /**
   * What rendering the document and uploading it to the object store did;
   * on failure, the message of the exception (null or a string).
   */
  datatype RenderOutcome = Uploaded | RenderFailed(causeMessage: Option<string>)

  /**
   * `ThreadLocalRandom.nextLong(origin, bound)`: some value in
   * [origin, bound), chosen by `random`; throws when the range is empty.
   */
  function NextLong(origin: int, bound: int, random: nat): (r: Result<int, string>)
    ensures r.Success? <==> origin < bound
    ensures r.Success? ==> origin <= r.value < bound
  {
    if origin < bound then Success(origin + random % (bound - origin))
    else Failure("bound must be greater than origin")
  }

  /** Every value of the range is some choice of `random`. */
  lemma NextLongReachesEveryValue(origin: int, bound: int, v: int)
    requires origin <= v < bound
    ensures NextLong(origin, bound, v - origin) == Success(v)
  {
  }

  /**
   * The delay `generatePdfAsync` schedules: `nextLong(min, max + 1)`, so a
   * value of [min, max]. It throws when min > max, and when max is
   * `Long.MAX_VALUE`, where max + 1 wraps round.
   */
  function ScheduleDelay(minDelay: int, maxDelay: int, random: nat): (r: Result<int, string>)
    requires IsInt64(minDelay) && IsInt64(maxDelay)
    ensures r.Success? <==> minDelay <= maxDelay < LONG_MAX
    ensures r.Success? ==> minDelay <= r.value <= maxDelay
  {
    NextLong(minDelay, WrapLong(maxDelay + 1), random)
  }

  /** The key the PDF is uploaded under. */
  function ObjectKey(processId: string): (key: string)
    ensures |key| == |processId| + 4
    ensures key[..|processId|] == processId && key[|processId|..] == ".pdf"
  {
    processId + ".pdf"
  }

  /** The URL the completion event points the client to. */
  function DownloadUrl(processId: string): (url: string)
    ensures |url| == 18 + |processId|
    ensures url[..18] == "/api/pdf/download/" && url[18..] == processId
  {
    "/api/pdf/download/" + processId
  }

  const ERROR_PREFIX: string := "Failed to process PDF generation: "

  /**
   * The message of the error event: the prefix, then the cause's message,
   * which string concatenation turns into "null" when it is null.
   */
  function ErrorMessage(causeMessage: Option<string>): (m: string)
    ensures |m| >= |ERROR_PREFIX| && m[..|ERROR_PREFIX|] == ERROR_PREFIX
    ensures causeMessage.Some? ==> m[|ERROR_PREFIX|..] == causeMessage.value
    ensures causeMessage.None? ==> m[|ERROR_PREFIX|..] == "null"
  {
    ERROR_PREFIX + match causeMessage { case None => "null" case Some(s) => s }
  }

  /** What the future of `generatePdfAsync` completes with: the object key, or the failure's cause. */
  datatype PdfFuture = Generated(objectKey: string) | FailedWith(causeMessage: Option<string>)

  /** A scheduled generation: its delay and its future. */
  datatype Scheduled = Scheduled(delay: int, future: PdfFuture)

  /**
   * `generatePdfAsync`: throws at once when no delay can be chosen;
   * otherwise the future completes with the object key on success and
   * exceptionally, wrapping the cause, on failure.
   */
  function GeneratePdfAsync(processId: string, config: Config, random: nat, outcome: RenderOutcome): (r: Result<Scheduled, string>)
    requires config.HasLongDelays()
    ensures r.Success? <==> config.minDelayInSeconds <= config.maxDelayInSeconds < LONG_MAX
    ensures r.Success? ==> config.minDelayInSeconds <= r.value.delay <= config.maxDelayInSeconds
    ensures r.Success? ==> (r.value.future.Generated? <==> outcome.Uploaded?)
    ensures r.Success? && outcome.Uploaded? ==> r.value.future.objectKey == ObjectKey(processId)
    ensures r.Success? && outcome.RenderFailed? ==> r.value.future.causeMessage == outcome.causeMessage
  {
    var delay :- ScheduleDelay(config.minDelayInSeconds, config.maxDelayInSeconds, random);
    var objectKey := ObjectKey(processId);
    match outcome
    case Uploaded => Success(Scheduled(delay, Generated(objectKey)))
    case RenderFailed(cause) => Success(Scheduled(delay, FailedWith(cause)))
  }

  /** The completion event published for a request. */
  function CompletionFor(processId: string): PdfGenerationCompleted {
    PdfGenerationCompleted(processId, DownloadUrl(processId))
  }

  /** The error event published for a request whose generation failed. */
  function ErrorFor(processId: string, causeMessage: Option<string>): PdfGenerationError {
    PdfGenerationError(processId, ErrorMessage(causeMessage))
  }

  /**
   * The messages `handlePdfGenerationRequest` publishes for one request:
   * none when `generatePdfAsync` throws, otherwise exactly one, on the
   * completed destination on success and on the errors destination on
   * failure, and always about the request's process.
   */
  function RequestPublishes(config: Config, request: PdfGenerationRequest, random: nat, outcome: RenderOutcome): (published: seq<Message>)
    requires config.HasLongDelays()
    ensures |published| <= 1
    ensures |published| == 1 <==> config.minDelayInSeconds <= config.maxDelayInSeconds < LONG_MAX
    ensures forall m | m in published :: m.body.ProcessId() == request.processId
    ensures published != [] && outcome.Uploaded? ==>
      published[0] == Message(config.completedDestination, CompletedBody(CompletionFor(request.processId)), CompletedCodec.CODEC_NAME)
    ensures published != [] && outcome.RenderFailed? ==>
      published[0] == Message(config.errorsDestination, ErrorBody(ErrorFor(request.processId, outcome.causeMessage)), ErrorCodec.CODEC_NAME)
  {
    match GeneratePdfAsync(request.processId, config, random, outcome)
    case Failure(_) => []
    case Success(Scheduled(_, Generated(pdfPath))) =>
      [Message(config.completedDestination, CompletedBody(CompletionFor(request.processId)), CompletedCodec.CODEC_NAME)]
    case Success(Scheduled(_, FailedWith(cause))) =>
      [Message(config.errorsDestination, ErrorBody(ErrorFor(request.processId, cause)), ErrorCodec.CODEC_NAME)]
  }

  /**
   * With distinct destinations, a success never reaches the errors
   * destination and a failure never reaches the completed destination.
   */
  lemma OutcomeDecidesDestination(config: Config, request: PdfGenerationRequest, random: nat, outcome: RenderOutcome)
    requires config.HasLongDelays() && config.completedDestination != config.errorsDestination
    ensures forall m | m in RequestPublishes(config, request, random, outcome) ::
      (m.destination == config.completedDestination <==> outcome.Uploaded?) &&
      (m.destination == config.errorsDestination <==> outcome.RenderFailed?) &&
      (m.body.CompletedBody? <==> outcome.Uploaded?)
  {
  }

  class PdfEventProcessor {
    const bus: EventBus
    const config: Config

    constructor (bus: EventBus, config: Config)
      ensures this.bus == bus && this.config == config
    {
      this.bus := bus;
      this.config := config;
    }

    /**
     * `handlePdfGenerationRequest`, with the asynchronous continuation run
     * to its end: publishes what `RequestPublishes` says.
     */
    method HandlePdfGenerationRequest(request: PdfGenerationRequest, random: nat, outcome: RenderOutcome)
      requires config.HasLongDelays()
      modifies bus
      ensures bus.log == old(bus.log) + RequestPublishes(config, request, random, outcome)
    {
      var scheduled := GeneratePdfAsync(request.processId, config, random, outcome);
      if scheduled.Failure? {
        // the IllegalArgumentException leaves the handler; nothing is published
        return;
      }
      match scheduled.value.future
      case Generated(pdfPath) =>
        var downloadUrl := DownloadUrl(request.processId);
        var completionEvent := PdfGenerationCompleted(request.processId, downloadUrl);
        bus.Publish(config.completedDestination, CompletedBody(completionEvent), CompletedCodec.CODEC_NAME);
      case FailedWith(cause) =>
        var errorEvent := PdfGenerationError(request.processId, ErrorMessage(cause));
        bus.Publish(config.errorsDestination, ErrorBody(errorEvent), ErrorCodec.CODEC_NAME);
    }
  }
}
