/**
 * `PdfGenerationErrorCodec`: a local-only codec. Error events never cross a
 * wire; on the local bus they are handed over as they are.
 */
module ErrorCodec {
  import opened Wrappers
  import opened Buffers
  import opened Events

  const CODEC_NAME: string := "pdf-generation-error-codec"
  const CODEC_ID: int := -1

  /** `encodeToWire` writes nothing: the buffer's contents afterwards. */
  function EncodeToWire(buffer: seq<byte>, error: PdfGenerationError): (after: seq<byte>)
    ensures after == buffer
  {
    buffer
  }

  /** `decodeFromWire` returns null for every position and buffer. */
  function DecodeFromWire(position: int, buffer: seq<byte>): (decoded: Option<PdfGenerationError>)
    ensures decoded == None
  {
    None
  }

  /** `transform`: a local delivery hands the consumer the very object that was published. */
  function Transform(error: PdfGenerationError): (delivered: PdfGenerationError)
    ensures delivered == error
  {
    error
  }

  /** No error event survives a trip over the wire: what comes back is null. */
  lemma NoWireRoundTrip(prefix: seq<byte>, error: PdfGenerationError)
    ensures DecodeFromWire(|prefix|, EncodeToWire(prefix, error)) != Some(error)
  {
  }
}
