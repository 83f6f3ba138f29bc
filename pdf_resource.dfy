/**
 * `PdfResource`: the HTTP gateway under `/api/pdf`. It submits a job with a
 * fresh process id, opens the status stream for an id, and serves the
 * uploaded PDF of an id.
 */
module Rest {
  import opened Wrappers
  import opened Buffers
  import opened Events
  import opened Bus
  import opened Sse
  import RequestCodec
  import PdfProcessing

  const CLASS_PATH: string := "/api/pdf"
  const DOWNLOAD_PATH: string := "/download/"
  const HEX_DIGITS: string := "0123456789abcdef"

  // ------------------------------------------------------ process ids

  /**
   * The 32 hexadecimal digits of a `UUID.randomUUID()`: random apart from
   * the version digit (4) and the variant digit (8 to b).
   */
  predicate IsRandomUuid(nibbles: seq<int>) {
    && |nibbles| == 32
    && (forall i | 0 <= i < 32 :: 0 <= nibbles[i] < 16)
    && nibbles[12] == 4
    && 8 <= nibbles[16] < 12
  }

  /** Lower-case hexadecimal digits, as `UUID.toString()` writes them. */
  function Hex(nibbles: seq<int>): (s: string)
    requires forall i | 0 <= i < |nibbles| :: 0 <= nibbles[i] < 16
    ensures |s| == |nibbles|
    ensures forall i | 0 <= i < |s| :: s[i] == HEX_DIGITS[nibbles[i]] && s[i] in HEX_DIGITS
  {
    seq(|nibbles|, i requires 0 <= i < |nibbles| => HEX_DIGITS[nibbles[i]])
  }

  /** A character that stands for itself in a URL path (RFC 3986, section 2.3). */
  predicate IsUnreserved(c: char) {
    ('a' <= c <= 'z') || ('A' <= c <= 'Z') || ('0' <= c <= '9') || c == '-' || c == '.' || c == '_' || c == '~'
  }

  /** A non-empty path segment that needs no escaping. */
  predicate IsPlainSegment(s: string) {
    |s| > 0 && forall i | 0 <= i < |s| :: IsUnreserved(s[i])
  }

  /** `UUID.randomUUID().toString()`: 8-4-4-4-12 lower-case hexadecimal digits. */
  function UuidString(nibbles: seq<int>): (id: string)
    requires IsRandomUuid(nibbles)
    ensures |id| == 36
    ensures id[8] == id[13] == id[18] == id[23] == '-' && id[14] == '4'
  {
    Hex(nibbles[..8]) + "-" + Hex(nibbles[8..12]) + "-" + Hex(nibbles[12..16]) + "-"
      + Hex(nibbles[16..20]) + "-" + Hex(nibbles[20..])
  }

  /** Where the `i`-th of the 32 digits sits in the 8-4-4-4-12 text. */
  function DigitPosition(i: int): int {
    i + (if i < 8 then 0 else if i < 12 then 1 else if i < 16 then 2 else if i < 20 then 3 else 4)
  }

  /** Each digit of the id is the lower-case hexadecimal digit of its nibble. */
  lemma UuidStringDigits(nibbles: seq<int>)
    requires IsRandomUuid(nibbles)
    ensures forall i | 0 <= i < 32 ::
      0 <= DigitPosition(i) < 36 && UuidString(nibbles)[DigitPosition(i)] == HEX_DIGITS[nibbles[i]]
  {
    var a, b, c, d, e := Hex(nibbles[..8]), Hex(nibbles[8..12]), Hex(nibbles[12..16]), Hex(nibbles[16..20]), Hex(nibbles[20..]);
    var id := UuidString(nibbles);
    assert id == a + "-" + b + "-" + c + "-" + d + "-" + e;
    forall i | 0 <= i < 32
      ensures id[DigitPosition(i)] == HEX_DIGITS[nibbles[i]]
    {
      if i < 8 { assert id[i] == a[i]; }
      else if i < 12 { assert id[i + 1] == b[i - 8]; }
      else if i < 16 { assert id[i + 2] == c[i - 12]; }
      else if i < 20 { assert id[i + 3] == d[i - 16]; }
      else { assert id[i + 4] == e[i - 20]; }
    }
  }

  /** No two nibbles share a hexadecimal digit. */
  lemma HexDigitsDistinct(x: int, y: int)
    requires 0 <= x < 16 && 0 <= y < 16 && HEX_DIGITS[x] == HEX_DIGITS[y]
    ensures x == y
  {
  }

  /** Distinct UUIDs give distinct process ids. */
  lemma UuidStringInjective(a: seq<int>, b: seq<int>)
    requires IsRandomUuid(a) && IsRandomUuid(b) && UuidString(a) == UuidString(b)
    ensures a == b
  {
    UuidStringDigits(a);
    UuidStringDigits(b);
    forall i | 0 <= i < 32
      ensures a[i] == b[i]
    {
      HexDigitsDistinct(a[i], b[i]);
    }
  }

  /** A character `UUID.toString()` writes: a hexadecimal digit or a dash. */
  predicate IsUuidChar(c: char) {
    c in HEX_DIGITS || c == '-'
  }

  predicate AllUuidChars(s: string) {
    forall i | 0 <= i < |s| :: IsUuidChar(s[i])
  }

  lemma UuidCharIsPlainAscii(c: char)
    requires IsUuidChar(c)
    ensures IsUnreserved(c) && c as int < 0x80
  {
  }

  lemma ConcatUuidChars(x: string, y: string)
    requires AllUuidChars(x) && AllUuidChars(y)
    ensures AllUuidChars(x + y)
  {
    forall i | 0 <= i < |x + y|
      ensures IsUuidChar((x + y)[i])
    {
      if i < |x| { assert (x + y)[i] == x[i]; } else { assert (x + y)[i] == y[i - |x|]; }
    }
  }

  /**
   * A minted process id is ASCII, so the codecs carry it intact, and it is
   * a plain URL path segment, so it survives the trip through a URL.
   */
  lemma UuidIsPlainAscii(nibbles: seq<int>)
    requires IsRandomUuid(nibbles)
    ensures IsAscii(UuidString(nibbles)) && IsJavaString(UuidString(nibbles))
    ensures IsPlainSegment(UuidString(nibbles))
  {
    var a, b, c, d, e := Hex(nibbles[..8]), Hex(nibbles[8..12]), Hex(nibbles[12..16]), Hex(nibbles[16..20]), Hex(nibbles[20..]);
    var dash := "-";
    assert AllUuidChars(dash);
    ConcatUuidChars(a, dash);
    ConcatUuidChars(a + dash, b);
    ConcatUuidChars(a + dash + b, dash);
    ConcatUuidChars(a + dash + b + dash, c);
    ConcatUuidChars(a + dash + b + dash + c, dash);
    ConcatUuidChars(a + dash + b + dash + c + dash, d);
    ConcatUuidChars(a + dash + b + dash + c + dash + d, dash);
    ConcatUuidChars(a + dash + b + dash + c + dash + d + dash, e);
    var id := UuidString(nibbles);
    assert id == a + dash + b + dash + c + dash + d + dash + e;
    forall i | 0 <= i < |id|
      ensures IsUnreserved(id[i]) && id[i] as int < 0x80
    {
      UuidCharIsPlainAscii(id[i]);
    }
    AsciiLengths(id);
  }

  // ------------------------------------------------------ routing

  /** The path `downloadPdf` serves for `processId`: the class path, then `/download/{processId}`. */
  function DownloadPath(processId: string): string {
    CLASS_PATH + DOWNLOAD_PATH + processId
  }

  /**
   * Matching a request path against `/api/pdf/download/{processId}`: the
   * template variable takes one non-empty segment, with no `/` in it.
   */
  function RouteDownload(path: string): (processId: Option<string>)
    ensures processId.Some? ==> DownloadPath(processId.value) == path
  {
    var prefix := CLASS_PATH + DOWNLOAD_PATH;
    if |path| > |prefix| && path[..|prefix|] == prefix && '/' !in path[|prefix|..] then
      Some(path[|prefix|..])
    else
      None
  }

  /**
   * The URL a completion event carries leads back to `downloadPdf` for the
   * same id, and the key it downloads is the key the worker uploaded.
   */
  lemma CompletionUrlRoutesToDownload(processId: string)
    requires processId != [] && '/' !in processId
    ensures RouteDownload(PdfProcessing.DownloadUrl(processId)) == Some(processId)
    ensures DownloadKey(processId) == PdfProcessing.ObjectKey(processId)
  {
    var prefix := CLASS_PATH + DOWNLOAD_PATH;
    assert PdfProcessing.DownloadUrl(processId) == prefix + processId;
    assert (prefix + processId)[..|prefix|] == prefix;
    assert (prefix + processId)[|prefix|..] == processId;
  }

  /** A path that is not the download of one plain id is not routed to `downloadPdf`. */
  lemma RouteDownloadRejectsNested(processId: string, rest: string)
    requires processId != []
    ensures RouteDownload(DownloadPath(processId + "/" + rest)) == None
  {
    var prefix := CLASS_PATH + DOWNLOAD_PATH;
    var path := DownloadPath(processId + "/" + rest);
    assert path[|prefix|..] == processId + "/" + rest;
    assert (processId + "/" + rest)[|processId|] == '/';
  }

  // ------------------------------------------------------ downloads

  /** What `minioClient.getObject` did for a key. */
  datatype StoreReply =
    | StoredObject(content: seq<byte>)
    | ErrorResponse(code: string, message: Option<string>)
    | OtherFailure(message: Option<string>)

  /** The entity of a response: none, the PDF's bytes, or an error message. */
  datatype Entity = NoEntity | OctetStream(content: seq<byte>) | Text(message: string)

  datatype Response = Response(status: int, headers: seq<(string, string)>, entity: Entity)

  /** `Response.serverError().entity(message)`: a null message leaves no entity. */
  function ServerError(message: Option<string>): Response {
    Response(500, [], match message { case None => NoEntity case Some(m) => Text(m) })
  }

  /** The key `downloadPdf` asks the store for. */
  function DownloadKey(processId: string): string {
    processId + ".pdf"
  }

  /**
   * `downloadPdf`: look the key up in the store, answer 200 with the PDF
   * as an attachment, 404 when the store says `NoSuchKey`, and 500 with
   * the exception's message on any other failure.
   */
  function DownloadPdf(processId: string, getObject: string -> StoreReply): (r: Response)
    ensures var reply := getObject(DownloadKey(processId));
      && (r.status == 200 <==> reply.StoredObject?)
      && (r.status == 404 <==> reply.ErrorResponse? && reply.code == "NoSuchKey")
      && (r.status == 500 <==> !reply.StoredObject? && !(reply.ErrorResponse? && reply.code == "NoSuchKey"))
      && (r.status == 200 ==>
            && r.entity == OctetStream(reply.content)
            && r.headers == [("Content-Disposition", "attachment;filename=" + DownloadKey(processId)),
                             ("Content-Type", "application/octet-stream")])
      && (r.status == 404 ==> r.entity == NoEntity)
      && (r.status == 500 ==> r == ServerError(reply.message))
  {
    var objectKey := DownloadKey(processId);
    match getObject(objectKey)
    case StoredObject(stream) =>
      Response(200, [("Content-Disposition", "attachment;filename=" + objectKey),
                     ("Content-Type", "application/octet-stream")], OctetStream(stream))
    case ErrorResponse(code, message) =>
      if code == "NoSuchKey" then Response(404, [], NoEntity) else ServerError(message)
    case OtherFailure(message) =>
      ServerError(message)
  }

  /** A bucket answers with the object stored under a key, or `NoSuchKey`. */
  function BucketLookup(bucket: map<string, seq<byte>>): string -> StoreReply {
    key => if key in bucket then StoredObject(bucket[key]) else ErrorResponse("NoSuchKey", Some("The specified key does not exist."))
  }

  /** Once the worker has uploaded an id's PDF, downloading that id serves those bytes. */
  lemma DownloadAfterUpload(processId: string, bucket: map<string, seq<byte>>, pdf: seq<byte>)
    ensures DownloadPdf(processId, BucketLookup(bucket[PdfProcessing.ObjectKey(processId) := pdf])).entity == OctetStream(pdf)
    ensures DownloadPdf(processId, BucketLookup(bucket[PdfProcessing.ObjectKey(processId) := pdf])).status == 200
  {
    assert DownloadKey(processId) == PdfProcessing.ObjectKey(processId);
  }

  /** Before any upload for the id, downloading it is a 404. */
  lemma DownloadBeforeUpload(processId: string, bucket: map<string, seq<byte>>)
    requires PdfProcessing.ObjectKey(processId) !in bucket
    ensures DownloadPdf(processId, BucketLookup(bucket)).status == 404
  {
    assert DownloadKey(processId) == PdfProcessing.ObjectKey(processId);
  }

  // ------------------------------------------------------ the resource

  class PdfResource {
    const bus: EventBus
    const broadcaster: SseBroadcaster
    const requestsDestination: string

    constructor (bus: EventBus, broadcaster: SseBroadcaster, requestsDestination: string)
      ensures this.bus == bus && this.broadcaster == broadcaster
      ensures this.requestsDestination == requestsDestination
    {
      this.bus := bus;
      this.broadcaster := broadcaster;
      this.requestsDestination := requestsDestination;
    }

    /**
     * `generatePdf`: mint a process id from a random UUID, publish one
     * request carrying it, and return it at once.
     */
    method GeneratePdf(uuid: seq<int>) returns (processId: string)
      requires IsRandomUuid(uuid)
      modifies bus
      ensures processId == UuidString(uuid)
      ensures bus.log == old(bus.log) + [Message(requestsDestination, RequestBody(PdfGenerationRequest(processId)), RequestCodec.CODEC_NAME)]
    {
      processId := UuidString(uuid);
      bus.Publish(requestsDestination, RequestBody(PdfGenerationRequest(processId)), RequestCodec.CODEC_NAME);
    }

    /** `getPdfStatus`: exactly `createStream` for the same id. */
    method GetPdfStatus(processId: string) returns (stream: Processor)
      requires broadcaster.Valid()
      modifies broadcaster
      ensures broadcaster.Valid()
      ensures broadcaster.retired == old(broadcaster.retired)
      ensures processId in broadcaster.processors && broadcaster.processors[processId] == stream && Open(stream)
      ensures old(processId in broadcaster.processors) ==>
        stream == old(broadcaster.processors[processId]) && broadcaster.processors == old(broadcaster.processors)
      ensures old(processId !in broadcaster.processors) ==>
        fresh(stream) && broadcaster.processors == old(broadcaster.processors)[processId := stream]
    {
      stream := broadcaster.CreateStream(processId);
    }
  }
}
