/**
 * `PdfGenerationCompletedCodec`: a completion travels as two
 * length-prefixed strings, the process id and then the PDF's URL.
 */
module CompletedCodec {
  import opened Wrappers
  import opened Buffers
  import opened Events
  import RequestCodec
  import ErrorCodec

  const CODEC_NAME: string := "pdf-generation-completed-codec"
  const CODEC_ID: int := -1

  /** One string field as `encodeToWire` writes it: `String.length()`, then the UTF-8 bytes. */
  function Field(s: string): (bs: seq<byte>)
    requires IsJavaString(s)
    ensures |bs| == 4 + |Utf8Encode(s)|
  {
    Int32Bytes(Utf16Length(s)) + Utf8Encode(s)
  }

  /** The bytes `encodeToWire` appends: the process id's field, then the URL's. */
  function Encode(c: PdfGenerationCompleted): (bs: seq<byte>)
    requires IsJavaString(c.processId) && IsJavaString(c.pdfUrl)
    ensures |bs| == 8 + |Utf8Encode(c.processId)| + |Utf8Encode(c.pdfUrl)|
  {
    Field(c.processId) + Field(c.pdfUrl)
  }

  /**
   * What `decodeFromWire(position, buffer)` returns or throws. The second
   * length is read where the first string ends.
   */
  function Decode(bs: seq<byte>, position: int): (r: Result<PdfGenerationCompleted, CodecError>)
    ensures r.Success? <==>
      && 0 <= position && position + 4 <= |bs|
      && var n1 := Int32At(bs, position);
         && 0 <= n1 && position + 8 + n1 <= |bs|
         && var n2 := Int32At(bs, position + 4 + n1);
            && 0 <= n2 && position + 8 + n1 + n2 <= |bs|
    ensures r.Success? ==>
      var n1 := Int32At(bs, position);
      && 0 <= n1 && position + 8 + n1 <= |bs|
      && r.value.processId == Utf8Decode(bs[position + 4 .. position + 4 + n1])
      && var n2 := Int32At(bs, position + 4 + n1);
         && 0 <= n2 && position + 8 + n1 + n2 <= |bs|
         && r.value.pdfUrl == Utf8Decode(bs[position + 8 + n1 .. position + 8 + n1 + n2])
  {
    var processIdLength :- ReadInt(bs, position);
    var processId :- ReadString(bs, position + 4, position + 4 + processIdLength);
    var pdfUrlLength :- ReadInt(bs, position + 4 + processIdLength);
    var pdfUrl :- ReadString(bs, position + 8 + processIdLength, position + 8 + processIdLength + pdfUrlLength);
    Success(PdfGenerationCompleted(processId, pdfUrl))
  }

  /** `encodeToWire`: appends both fields to the buffer in place. */
  method EncodeToWire(buffer: Buffer, completion: PdfGenerationCompleted)
    requires IsJavaString(completion.processId) && IsJavaString(completion.pdfUrl)
    modifies buffer
    ensures buffer.bytes == old(buffer.bytes) + Encode(completion)
  {
    var processId := completion.processId;
    buffer.AppendInt(Utf16Length(processId));
    buffer.AppendString(processId);

    var pdfUrl := completion.pdfUrl;
    buffer.AppendInt(Utf16Length(pdfUrl));
    buffer.AppendString(pdfUrl);
  }

  /** `decodeFromWire`: steps a local cursor four times. */
  method DecodeFromWire(position: int, buffer: Buffer) returns (r: Result<PdfGenerationCompleted, CodecError>)
    ensures r == Decode(buffer.bytes, position)
  {
    var positionLocal := position;

    var processIdLength :- ReadInt(buffer.bytes, positionLocal);
    positionLocal := positionLocal + 4;
    var processId :- ReadString(buffer.bytes, positionLocal, positionLocal + processIdLength);
    positionLocal := positionLocal + processIdLength;

    var pdfUrlLength :- ReadInt(buffer.bytes, positionLocal);
    positionLocal := positionLocal + 4;
    var pdfUrl :- ReadString(buffer.bytes, positionLocal, positionLocal + pdfUrlLength);

    r := Success(PdfGenerationCompleted(processId, pdfUrl));
  }

  /** `transform`: a local delivery hands the consumer the very object that was published. */
  function Transform(completion: PdfGenerationCompleted): (delivered: PdfGenerationCompleted)
    ensures delivered == completion
  {
    completion
  }

  /** When the four reads succeed, decoding yields the two strings read. */
  lemma DecodeOfReads(bs: seq<byte>, p: int, n1: int, id: string, n2: int, url: string)
    requires ReadInt(bs, p) == Success(n1)
    requires ReadString(bs, p + 4, p + 4 + n1) == Success(id)
    requires ReadInt(bs, p + 4 + n1) == Success(n2)
    requires ReadString(bs, p + 8 + n1, p + 8 + n1 + n2) == Success(url)
    ensures Decode(bs, p) == Success(PdfGenerationCompleted(id, url))
  {
  }

  /**
   * Two length-prefixed byte runs, each prefix giving its run's byte
   * count, decode as the two runs' strings, whatever surrounds them.
   */
  lemma DecodeTwoRuns(prefix: seq<byte>, run1: seq<byte>, run2: seq<byte>, suffix: seq<byte>)
    requires |run1| <= INT_MAX && |run2| <= INT_MAX
    ensures Decode(prefix + Int32Bytes(|run1|) + run1 + Int32Bytes(|run2|) + run2 + suffix, |prefix|)
      == Success(PdfGenerationCompleted(Utf8Decode(run1), Utf8Decode(run2)))
  {
    var bs := prefix + Int32Bytes(|run1|) + run1 + Int32Bytes(|run2|) + run2 + suffix;
    var head := prefix + Int32Bytes(|run1|) + run1;
    var tail := Int32Bytes(|run2|) + run2 + suffix;
    assert bs == prefix + Int32Bytes(|run1|) + run1 + tail;
    ReadPrefixedRun(prefix, |run1|, run1, tail);
    assert bs == head + Int32Bytes(|run2|) + run2 + suffix;
    ReadPrefixedRun(head, |run2|, run2, suffix);
    DecodeOfReads(bs, |prefix|, |run1|, Utf8Decode(run1), |run2|, Utf8Decode(run2));
  }

  /** Decoding at the end of an existing buffer gives back both ASCII fields, whatever follows. */
  lemma RoundTrip(prefix: seq<byte>, completion: PdfGenerationCompleted, suffix: seq<byte>)
    requires IsJavaString(completion.processId) && IsAscii(completion.processId)
    requires IsJavaString(completion.pdfUrl) && IsAscii(completion.pdfUrl)
    ensures Decode(prefix + Encode(completion) + suffix, |prefix|) == Success(completion)
  {
    AsciiLengths(completion.processId);
    AsciiLengths(completion.pdfUrl);
    assert Encode(completion) == EncodeCorrected(completion);
    CorrectedRoundTrip(prefix, completion, suffix);
  }

  /**
   * The layout of an encoding: the id's `String.length()`, the id's UTF-8
   * bytes, the URL's `String.length()`, the URL's UTF-8 bytes.
   */
  lemma EncodeLayout(completion: PdfGenerationCompleted)
    requires IsJavaString(completion.processId) && IsJavaString(completion.pdfUrl)
    ensures var e, id, url := Encode(completion), completion.processId, completion.pdfUrl;
      var b1 := |Utf8Encode(id)|;
      && e[..4] == Int32Bytes(Utf16Length(id))
      && e[4 .. 4 + b1] == Utf8Encode(id)
      && e[4 + b1 .. 8 + b1] == Int32Bytes(Utf16Length(url))
      && e[8 + b1 ..] == Utf8Encode(url)
  {
    var id, url := completion.processId, completion.pdfUrl;
    var e := Encode(completion);
    var b1 := |Utf8Encode(id)|;
    assert e == Int32Bytes(Utf16Length(id)) + Utf8Encode(id) + (Int32Bytes(Utf16Length(url)) + Utf8Encode(url));
    assert e[4 + b1 ..] == Int32Bytes(Utf16Length(url)) + Utf8Encode(url);
  }

  /** Where the two length prefixes of an ASCII completion's encoding lie. */
  lemma AsciiLayout(completion: PdfGenerationCompleted)
    requires IsJavaString(completion.processId) && IsAscii(completion.processId)
    requires IsJavaString(completion.pdfUrl) && IsAscii(completion.pdfUrl)
    ensures var e, n1, n2 := Encode(completion), |completion.processId|, |completion.pdfUrl|;
      && IsInt32(n1) && IsInt32(n2)
      && |e| == 8 + n1 + n2
      && e[..4] == Int32Bytes(n1)
      && e[4 + n1 .. 8 + n1] == Int32Bytes(n2)
  {
    AsciiLengths(completion.processId);
    AsciiLengths(completion.pdfUrl);
    EncodeLayout(completion);
  }

  /** Cutting an ASCII completion's encoding short makes decoding throw. */
  lemma TruncatedFails(prefix: seq<byte>, completion: PdfGenerationCompleted, k: nat)
    requires IsJavaString(completion.processId) && IsAscii(completion.processId)
    requires IsJavaString(completion.pdfUrl) && IsAscii(completion.pdfUrl)
    requires k < |Encode(completion)|
    ensures Decode(prefix + Encode(completion)[..k], |prefix|).Failure?
  {
    var n1, n2 := |completion.processId|, |completion.pdfUrl|;
    var e := Encode(completion);
    AsciiLayout(completion);
    var bs := prefix + e[..k];
    if 4 <= k {
      assert bs == prefix + Int32Bytes(n1) + e[4..k];
      Int32RoundTrip(prefix, n1, e[4..k]);
      if 8 + n1 <= k {
        assert bs == (prefix + e[..4 + n1]) + Int32Bytes(n2) + e[8 + n1 .. k];
        Int32RoundTrip(prefix + e[..4 + n1], n2, e[8 + n1 .. k]);
      }
    }
  }

  /** A completion whose id is "é" cannot even be decoded: the source's round trip breaks. */
  lemma NonAsciiCounterexample()
    ensures Decode(Encode(PdfGenerationCompleted("é", "/x")), 0).Failure?
  {
    var c := PdfGenerationCompleted("é", "/x");
    assert Utf16Length("é") == 1 && Utf8Encode("é") == [0xC3, 0xA9];
    assert Utf16Length("/x") == 2 && Utf8Encode("/x") == ['/' as int, 'x' as int];
    var bs := Encode(c);
    assert bs == [0, 0, 0, 1, 0xC3, 0xA9, 0, 0, 0, 2, '/' as int, 'x' as int];
    assert Int32At(bs, 0) == 1;
    // the second length is read from 0xA9 0x00 0x00 0x00: a negative int
    assert Int32At(bs, 5) < 0;
  }

  /** The corrected field: the prefix is the number of UTF-8 bytes. */
  function FieldCorrected(s: string): (bs: seq<byte>)
    requires |Utf8Encode(s)| <= INT_MAX
    ensures |bs| == 4 + |Utf8Encode(s)|
  {
    Int32Bytes(|Utf8Encode(s)|) + Utf8Encode(s)
  }

  function EncodeCorrected(c: PdfGenerationCompleted): (bs: seq<byte>)
    requires |Utf8Encode(c.processId)| <= INT_MAX && |Utf8Encode(c.pdfUrl)| <= INT_MAX
    ensures |bs| == 8 + |Utf8Encode(c.processId)| + |Utf8Encode(c.pdfUrl)|
  {
    FieldCorrected(c.processId) + FieldCorrected(c.pdfUrl)
  }

  /** With byte-count prefixes, the unchanged decoder gives back every completion. */
  lemma CorrectedRoundTrip(prefix: seq<byte>, completion: PdfGenerationCompleted, suffix: seq<byte>)
    requires |Utf8Encode(completion.processId)| <= INT_MAX && |Utf8Encode(completion.pdfUrl)| <= INT_MAX
    ensures Decode(prefix + EncodeCorrected(completion) + suffix, |prefix|) == Success(completion)
  {
    var run1, run2 := Utf8Encode(completion.processId), Utf8Encode(completion.pdfUrl);
    assert prefix + EncodeCorrected(completion) + suffix
      == prefix + Int32Bytes(|run1|) + run1 + Int32Bytes(|run2|) + run2 + suffix;
    DecodeTwoRuns(prefix, run1, run2, suffix);
    Utf8RoundTrip(completion.processId);
    Utf8RoundTrip(completion.pdfUrl);
  }

  /** The three codecs register under distinct names, all with system codec id -1. */
  lemma CodecNamesDistinct()
    ensures CODEC_NAME != RequestCodec.CODEC_NAME
    ensures CODEC_NAME != ErrorCodec.CODEC_NAME
    ensures RequestCodec.CODEC_NAME != ErrorCodec.CODEC_NAME
    ensures CODEC_ID == RequestCodec.CODEC_ID == ErrorCodec.CODEC_ID == -1
  {
  }
}
