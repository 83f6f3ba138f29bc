/**
 * `PdfGenerationRequestCodec`: a request travels as one length-prefixed
 * string, the process id.
 */
module RequestCodec {
  import opened Wrappers
  import opened Buffers
  import opened Events

  const CODEC_NAME: string := "pdf-generation-request-codec"
  const CODEC_ID: int := -1

  /**
   * The bytes `encodeToWire` appends: `String.length()` of the id as a
   * 4-byte int, then the id's UTF-8 bytes.
   */
  function Encode(r: PdfGenerationRequest): (bs: seq<byte>)
    requires IsJavaString(r.processId)
    ensures |bs| == 4 + |Utf8Encode(r.processId)|
    ensures bs[..4] == Int32Bytes(Utf16Length(r.processId))
  {
    Int32Bytes(Utf16Length(r.processId)) + Utf8Encode(r.processId)
  }

  /**
   * What `decodeFromWire(position, buffer)` returns or throws: the length
   * at `position`, then exactly that many bytes decoded as UTF-8.
   */
  function Decode(bs: seq<byte>, position: int): (r: Result<PdfGenerationRequest, CodecError>)
    ensures r.Success? <==>
      0 <= position && position + 4 <= |bs| &&
      0 <= Int32At(bs, position) && position + 4 + Int32At(bs, position) <= |bs|
    ensures r.Success? ==>
      r.value.processId == Utf8Decode(bs[position + 4 .. position + 4 + Int32At(bs, position)])
  {
    var length :- ReadInt(bs, position);
    var processId :- ReadString(bs, position + 4, position + 4 + length);
    Success(PdfGenerationRequest(processId))
  }

  /** `encodeToWire`: appends to the buffer in place. */
  method EncodeToWire(buffer: Buffer, request: PdfGenerationRequest)
    requires IsJavaString(request.processId)
    modifies buffer
    ensures buffer.bytes == old(buffer.bytes) + Encode(request)
  {
    var processId := request.processId;
    buffer.AppendInt(Utf16Length(processId));
    buffer.AppendString(processId);
  }

  /** `decodeFromWire`: walks a local cursor over the buffer. */
  method DecodeFromWire(position: int, buffer: Buffer) returns (r: Result<PdfGenerationRequest, CodecError>)
    ensures r == Decode(buffer.bytes, position)
  {
    var positionLocal := position;
    var processIdLength :- ReadInt(buffer.bytes, positionLocal);
    positionLocal := positionLocal + 4;
    var processId :- ReadString(buffer.bytes, positionLocal, positionLocal + processIdLength);
    r := Success(PdfGenerationRequest(processId));
  }

  /** `transform`: a local delivery hands the consumer the very object that was published. */
  function Transform(request: PdfGenerationRequest): (delivered: PdfGenerationRequest)
    ensures delivered == request
  {
    request
  }

  /** Decoding at the end of an existing buffer gives back an ASCII request, whatever follows it. */
  lemma RoundTrip(prefix: seq<byte>, request: PdfGenerationRequest, suffix: seq<byte>)
    requires IsJavaString(request.processId) && IsAscii(request.processId)
    ensures Decode(prefix + Encode(request) + suffix, |prefix|) == Success(request)
  {
    var id := request.processId;
    AsciiLengths(id);
    Utf8RoundTrip(id);
    var bs := prefix + Encode(request) + suffix;
    assert bs == prefix + Int32Bytes(|id|) + (Utf8Encode(id) + suffix);
    Int32RoundTrip(prefix, |id|, Utf8Encode(id) + suffix);
    assert bs[|prefix| + 4 .. |prefix| + 4 + |id|] == Utf8Encode(id);
  }

  /** Cutting an ASCII request's encoding short makes decoding throw. */
  lemma TruncatedFails(prefix: seq<byte>, request: PdfGenerationRequest, k: nat)
    requires IsJavaString(request.processId) && IsAscii(request.processId)
    requires k < |Encode(request)|
    ensures Decode(prefix + Encode(request)[..k], |prefix|).Failure?
  {
    var id := request.processId;
    AsciiLengths(id);
    if k >= 4 {
      var bs := prefix + Encode(request)[..k];
      assert bs == prefix + Int32Bytes(|id|) + Encode(request)[4..k];
      Int32RoundTrip(prefix, |id|, Encode(request)[4..k]);
    }
  }

  /** What was read does not depend on bytes before or after it. */
  lemma DecodeIgnoresSurroundings(bs: seq<byte>, position: int, before: seq<byte>, after: seq<byte>)
    requires Decode(bs, position).Success?
    ensures Decode(before + bs + after, |before| + position) == Decode(bs, position)
  {
    var big := before + bs + after;
    var p := |before| + position;
    assert big[p .. p + 4] == bs[position .. position + 4];
    assert Int32At(big, p) == Int32At(bs, position);
    var len := Int32At(bs, position);
    assert big[p + 4 .. p + 4 + len] == bs[position + 4 .. position + 4 + len];
  }

  /**
   * The prefix counts UTF-16 units while the payload is UTF-8: outside ASCII,
   * decoding reads strictly fewer bytes than were written.
   */
  lemma NonAsciiPrefixTooShort(prefix: seq<byte>, request: PdfGenerationRequest)
    requires IsJavaString(request.processId) && !IsAscii(request.processId)
    ensures Decode(prefix + Encode(request), |prefix|).Success?
    ensures Decode(prefix + Encode(request), |prefix|).value.processId ==
            Utf8Decode(Utf8Encode(request.processId)[..Utf16Length(request.processId)])
    ensures Utf16Length(request.processId) < |Utf8Encode(request.processId)|
  {
    var id := request.processId;
    Utf16UndercountsUtf8(id);
    var bs := prefix + Encode(request);
    assert bs == prefix + Int32Bytes(Utf16Length(id)) + Utf8Encode(id);
    Int32RoundTrip(prefix, Utf16Length(id), Utf8Encode(id));
    assert bs[|prefix| + 4 .. |prefix| + 4 + Utf16Length(id)] == Utf8Encode(id)[..Utf16Length(id)];
  }

  /** A request whose id is "é" comes back as U+FFFD: the source's round trip breaks. */
  lemma NonAsciiCounterexample()
    ensures Decode(Encode(PdfGenerationRequest("é")), 0) == Success(PdfGenerationRequest([REPLACEMENT]))
    ensures Decode(Encode(PdfGenerationRequest("é")), 0) != Success(PdfGenerationRequest("é"))
  {
    var id := "é";
    assert Utf16Length(id) == 1;
    assert Utf8Encode(id) == [0xC3, 0xA9];
    var bs := Encode(PdfGenerationRequest(id));
    assert bs == [0, 0, 0, 1, 0xC3, 0xA9];
    assert Int32At(bs, 0) == 1;
    assert bs[4..5] == [0xC3];
    assert Utf8Decode([0xC3]) == [REPLACEMENT];
  }

  /** The corrected encoding: the prefix is the number of UTF-8 bytes. */
  function EncodeCorrected(r: PdfGenerationRequest): (bs: seq<byte>)
    requires |Utf8Encode(r.processId)| <= INT_MAX
    ensures |bs| == 4 + |Utf8Encode(r.processId)|
  {
    Int32Bytes(|Utf8Encode(r.processId)|) + Utf8Encode(r.processId)
  }

  /** With the byte-count prefix, the unchanged decoder gives back every request. */
  lemma CorrectedRoundTrip(prefix: seq<byte>, request: PdfGenerationRequest, suffix: seq<byte>)
    requires |Utf8Encode(request.processId)| <= INT_MAX
    ensures Decode(prefix + EncodeCorrected(request) + suffix, |prefix|) == Success(request)
  {
    var id := request.processId;
    var payload := Utf8Encode(id);
    Utf8RoundTrip(id);
    var bs := prefix + EncodeCorrected(request) + suffix;
    assert bs == prefix + Int32Bytes(|payload|) + (payload + suffix);
    Int32RoundTrip(prefix, |payload|, payload + suffix);
    assert bs[|prefix| + 4 .. |prefix| + 4 + |payload|] == payload;
  }

  /** For ASCII ids the corrected encoding is the source's encoding. */
  lemma CorrectedAgreesOnAscii(request: PdfGenerationRequest)
    requires IsJavaString(request.processId) && IsAscii(request.processId)
    ensures |Utf8Encode(request.processId)| <= INT_MAX
    ensures EncodeCorrected(request) == Encode(request)
  {
    AsciiLengths(request.processId);
  }
}
