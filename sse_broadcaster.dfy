/**
 * `SseBroadcaster`: the registry that maps a process id to the one-shot
 * stream opened for it, routes the terminal event for that id into the
 * stream, completes it and forgets the id.
 */
module Sse {
  import opened Events

  const PDF_COMPLETED: string := "PDF_COMPLETED"
  const PDF_ERROR: string := "PDF_ERROR"
  const APPLICATION_JSON: string := "application/json"

  /** The data an outbound server-sent event carries. */
  datatype Payload =
    | CompletedData(completed: PdfGenerationCompleted)
    | ErrorData(error: PdfGenerationError)

  /** An `OutboundSseEvent`: a name, the event as data, and the JSON media type. */
  datatype SseEvent = SseEvent(name: string, data: Payload, mediaType: string)

  /** The only items the broadcaster ever emits. */
  predicate IsTerminal(e: SseEvent) {
    || (e.name == PDF_COMPLETED && e.data.CompletedData?)
    || (e.name == PDF_ERROR && e.data.ErrorData?)
  }

  /** The `PDF_COMPLETED` event built for a completion. */
  function CompletedSseEvent(event: PdfGenerationCompleted): (e: SseEvent)
    ensures IsTerminal(e) && e.data.CompletedData? && e.data.completed == event
  {
    SseEvent(PDF_COMPLETED, CompletedData(event), APPLICATION_JSON)
  }

  /** The `PDF_ERROR` event built for a failure. */
  function ErrorSseEvent(event: PdfGenerationError): (e: SseEvent)
    ensures IsTerminal(e) && e.data.ErrorData? && e.data.error == event
  {
    SseEvent(PDF_ERROR, ErrorData(event), APPLICATION_JSON)
  }

  /**
   * A `BroadcastProcessor`, reduced to what it has emitted and whether it
   * has completed. Items pushed after completion are dropped.
   */
  class Processor {
    var items: seq<SseEvent>
    var completed: bool

    /** `BroadcastProcessor.create()`. */
    constructor ()
      ensures items == [] && !completed
    {
      items := [];
      completed := false;
    }

    /** `onNext`. */
    method OnNext(item: SseEvent)
      modifies this
      ensures completed == old(completed)
      ensures items == if old(completed) then old(items) else old(items) + [item]
    {
      if !completed {
        items := items + [item];
      }
    }

    /** `onComplete`. */
    method OnComplete()
      modifies this
      ensures completed && items == old(items)
    {
      completed := true;
    }
  }

  /** Registered and still waiting: nothing emitted, not completed. */
  ghost predicate Open(p: Processor)
    reads p
  {
    p.items == [] && !p.completed
  }

  /** Retired: exactly one terminal item, then completed. */
  ghost predicate Delivered(p: Processor)
    reads p
  {
    |p.items| == 1 && IsTerminal(p.items[0]) && p.completed
  }

  class SseBroadcaster {
    const completedDestination: string
    const errorsDestination: string

    /** The `processors` map. */
    var processors: map<string, Processor>

    /** Every processor that has been removed from the map after delivery. */
    ghost var retired: set<Processor>

    ghost predicate Valid()
      reads this, processors.Values, retired
    {
      && (forall id | id in processors :: Open(processors[id]))
      && (forall a, b | a in processors && b in processors && a != b :: processors[a] != processors[b])
      && (forall p | p in retired :: p !in processors.Values && Delivered(p))
    }

    constructor (completedDestination: string, errorsDestination: string)
      ensures Valid()
      ensures this.completedDestination == completedDestination
      ensures this.errorsDestination == errorsDestination
      ensures processors == map[] && retired == {}
    {
      this.completedDestination := completedDestination;
      this.errorsDestination := errorsDestination;
      processors := map[];
      retired := {};
    }

    /**
     * `createStream`: `computeIfAbsent`. An unknown id gets a fresh open
     * processor; a known id gets the processor it already has, and the map
     * stays as it was.
     */
    method CreateStream(processId: string) returns (stream: Processor)
      requires Valid()
      modifies this
      ensures Valid()
      ensures retired == old(retired)
      ensures processId in processors && processors[processId] == stream && Open(stream)
      ensures old(processId in processors) ==> stream == old(processors[processId]) && processors == old(processors)
      ensures old(processId !in processors) ==> fresh(stream) && processors == old(processors)[processId := stream]
    {
      if processId in processors {
        stream := processors[processId];
      } else {
        stream := new Processor();
        processors := processors[processId := stream];
      }
    }

    /**
     * `handleCompletionEvent`: one `PDF_COMPLETED` item into the processor
     * registered for the id, complete it, remove the id. A miss is dropped.
     */
    method HandleCompletionEvent(event: PdfGenerationCompleted)
      requires Valid()
      modifies this, if event.processId in processors then {processors[event.processId]} else {}
      ensures Valid()
      ensures processors == old(processors) - {event.processId}
      ensures forall id | id in processors :: unchanged(processors[id])
      ensures forall p | p in old(retired) :: unchanged(p)
      ensures old(event.processId in processors) ==>
        var p := old(processors[event.processId]);
        && p.items == [CompletedSseEvent(event)] && p.completed
        && retired == old(retired) + {p}
      ensures old(event.processId !in processors) ==> retired == old(retired)
    {
      var processId := event.processId;
      if processId in processors {
        var processor := processors[processId];
        processor.OnNext(CompletedSseEvent(event));
        processor.OnComplete();
        processors := processors - {processId};
        retired := retired + {processor};
      }
    }

    /**
     * `handleErrorEvent`: one `PDF_ERROR` item into the processor registered
     * for the id, complete it, remove the id. A miss is dropped.
     */
    method HandleErrorEvent(event: PdfGenerationError)
      requires Valid()
      modifies this, if event.processId in processors then {processors[event.processId]} else {}
      ensures Valid()
      ensures processors == old(processors) - {event.processId}
      ensures forall id | id in processors :: unchanged(processors[id])
      ensures forall p | p in old(retired) :: unchanged(p)
      ensures old(event.processId in processors) ==>
        var p := old(processors[event.processId]);
        && p.items == [ErrorSseEvent(event)] && p.completed
        && retired == old(retired) + {p}
      ensures old(event.processId !in processors) ==> retired == old(retired)
    {
      var processId := event.processId;
      if processId in processors {
        var processor := processors[processId];
        processor.OnNext(ErrorSseEvent(event));
        processor.OnComplete();
        processors := processors - {processId};
        retired := retired + {processor};
      }
    }
  }
}
