/** The three event records exchanged on the event bus, and the messages that carry them. */
module Events {

  /** A request to render the PDF of one process. */
  datatype PdfGenerationRequest = PdfGenerationRequest(processId: string)

  /** The PDF of `processId` is ready at `pdfUrl`. */
  datatype PdfGenerationCompleted = PdfGenerationCompleted(processId: string, pdfUrl: string)

  /** Rendering or uploading the PDF of `processId` failed. */
  datatype PdfGenerationError = PdfGenerationError(processId: string, errorMessage: string)

  /** The body of a message on the bus. */
  datatype Body =
    | RequestBody(request: PdfGenerationRequest)
    | CompletedBody(completed: PdfGenerationCompleted)
    | ErrorBody(error: PdfGenerationError)
  {
    /** The process every event kind is about. */
    function ProcessId(): string {
      match this
      case RequestBody(r) => r.processId
      case CompletedBody(c) => c.processId
      case ErrorBody(e) => e.processId
    }
  }

  /** One `eventBus.publish(destination, body, new DeliveryOptions().setCodecName(codecName))`. */
  datatype Message = Message(destination: string, body: Body, codecName: string)

  /** The default destination names shared by the gateway, the worker and the broadcaster. */
  const DEFAULT_REQUESTS_DESTINATION: string := "pdf-generation-requests"
  const DEFAULT_COMPLETED_DESTINATION: string := "pdf-generation-completed"
  const DEFAULT_ERRORS_DESTINATION: string := "pdf-generation-errors"
}
