/**
 * The parts of Vert.x's `Buffer` that the codecs use: big-endian 32-bit
 * integers, strings written as their UTF-8 bytes, and reads that throw when
 * they fall outside the buffer. Java strings are sequences of Unicode scalar
 * values here; `Utf16Length` is what `String.length()` returns.
 */
module Buffers {
  import opened Wrappers

  type byte = b: int | 0 <= b < 256

  const INT_MIN: int := -0x8000_0000
  const INT_MAX: int := 0x7FFF_FFFF

  /** The range of a Java `int`. */
  predicate IsInt32(v: int) {
    INT_MIN <= v <= INT_MAX
  }

  /** What a read from a `Buffer` throws when it leaves the buffer. */
  datatype CodecError =
    | IntOutOfBounds(position: int)
    | StringOutOfBounds(start: int, end: int)

  // ---------------------------------------------------------------- integers

  /** The four bytes `appendInt(v)` writes: two's complement, big-endian. */
  function Int32Bytes(v: int): (bs: seq<byte>)
    requires IsInt32(v)
    ensures |bs| == 4
  {
    var u := if v < 0 then v + 0x1_0000_0000 else v;
    var q1 := u / 256;
    var q2 := q1 / 256;
    [q2 / 256, q2 % 256, q1 % 256, u % 256]
  }

  /** The `int` that `getInt(pos)` reads from four in-bounds bytes. */
  function Int32At(bs: seq<byte>, pos: nat): (v: int)
    requires pos + 4 <= |bs|
    ensures IsInt32(v)
  {
    var u := bs[pos] as int * 0x100_0000 + bs[pos + 1] as int * 0x1_0000 + bs[pos + 2] as int * 256 + bs[pos + 3];
    if u >= 0x8000_0000 then u - 0x1_0000_0000 else u
  }

  /** `getInt(pos)`: throws unless the four bytes at `pos` lie in the buffer. */
  function ReadInt(bs: seq<byte>, pos: int): (r: Result<int, CodecError>)
    ensures r.Success? <==> 0 <= pos && pos + 4 <= |bs|
    ensures r.Success? ==> IsInt32(r.value)
  {
    if 0 <= pos && pos + 4 <= |bs| then Success(Int32At(bs, pos)) else Failure(IntOutOfBounds(pos))
  }

  /** Reading back an appended `int` gives the `int`, whatever surrounds it. */
  lemma Int32RoundTrip(prefix: seq<byte>, v: int, suffix: seq<byte>)
    requires IsInt32(v)
    ensures ReadInt(prefix + Int32Bytes(v) + suffix, |prefix|) == Success(v)
  {
    var bs := prefix + Int32Bytes(v) + suffix;
    var p := |prefix|;
    var u := if v < 0 then v + 0x1_0000_0000 else v;
    var q1 := u / 256;
    var q2 := q1 / 256;
    assert bs[p] == q2 / 256 && bs[p + 1] == q2 % 256;
    assert bs[p + 2] == q1 % 256 && bs[p + 3] == u % 256;
    assert q2 == (q2 / 256) * 256 + q2 % 256;
    assert q1 == q2 * 256 + q1 % 256;
    assert u == q1 * 256 + u % 256;
    assert bs[p] as int * 0x100_0000 + bs[p + 1] as int * 0x1_0000 + bs[p + 2] as int * 256 + bs[p + 3] == u;
  }

  // ----------------------------------------------------------------- strings

  const REPLACEMENT: char := '�'

  /** A Java `String` is at most `Integer.MAX_VALUE` UTF-16 units long. */
  predicate IsJavaString(s: string) {
    Utf16Length(s) <= INT_MAX
  }

  /** Every character is in the ASCII range, so it is one byte and one UTF-16 unit. */
  predicate IsAscii(s: string) {
    forall i | 0 <= i < |s| :: s[i] as int < 0x80
  }

  /** `String.length()`: the number of UTF-16 code units, two per supplementary character. */
  function Utf16Length(s: string): nat {
    if s == [] then 0 else (if s[0] as int >= 0x1_0000 then 2 else 1) + Utf16Length(s[1..])
  }

  /** The UTF-8 bytes of one Unicode scalar value. */
  function EncodeChar(c: char): (bs: seq<byte>)
    ensures 1 <= |bs| <= 4
    ensures (|bs| == 1) <==> (c as int < 0x80)
  {
    var cp := c as int;
    if cp < 0x80 then [cp]
    else if cp < 0x800 then [0xC0 + cp / 64, 0x80 + cp % 64]
    else if cp < 0x1_0000 then [0xE0 + cp / 4096, 0x80 + (cp / 64) % 64, 0x80 + cp % 64]
    else [0xF0 + cp / 0x4_0000, 0x80 + (cp / 4096) % 64, 0x80 + (cp / 64) % 64, 0x80 + cp % 64]
  }

  /** `String.getBytes(UTF_8)`, which `appendString` writes. */
  function Utf8Encode(s: string): seq<byte> {
    if s == [] then [] else EncodeChar(s[0]) + Utf8Encode(s[1..])
  }

  predicate IsContinuation(b: int) {
    0x80 <= b < 0xC0
  }

  /** How many bytes a well-formed sequence led by `b` has; 0 when `b` cannot lead one. */
  function SequenceLength(b: byte): nat {
    if b < 0x80 then 1
    else if 0xC2 <= b < 0xE0 then 2
    else if 0xE0 <= b < 0xF0 then 3
    else if 0xF0 <= b < 0xF5 then 4
    else 0
  }

  /** The second byte after lead `b` lies in [SecondLow(b), SecondHigh(b)). */
  function SecondLow(b: byte): int {
    if b == 0xE0 then 0xA0 else if b == 0xF0 then 0x90 else 0x80
  }

  function SecondHigh(b: byte): int {
    if b == 0xED then 0xA0 else if b == 0xF4 then 0x90 else 0xC0
  }

  /**
   * The length of the longest prefix of `bs` that starts a well-formed
   * sequence of `n` bytes: `n` when the whole sequence is there.
   */
  function WellFormedPrefix(bs: seq<byte>, n: nat): (k: nat)
    requires |bs| > 0 && 2 <= n <= 4
    ensures 1 <= k <= n && k <= |bs|
  {
    if |bs| < 2 || !(SecondLow(bs[0]) <= bs[1] < SecondHigh(bs[0])) then 1
    else if n == 2 || |bs| < 3 || !IsContinuation(bs[2]) then 2
    else if n == 3 || |bs| < 4 || !IsContinuation(bs[3]) then 3
    else 4
  }

  /** The scalar value a complete well-formed sequence of 2 to 4 bytes stands for. */
  function ScalarOf(bs: seq<byte>, n: nat): char
    requires |bs| > 0 && 2 <= n <= 4 && n == SequenceLength(bs[0])
    requires WellFormedPrefix(bs, n) == n
  {
    if n == 2 then
      ((bs[0] as int - 0xC0) * 64 + (bs[1] - 0x80)) as char
    else if n == 3 then
      ((bs[0] as int - 0xE0) * 4096 + (bs[1] as int - 0x80) * 64 + (bs[2] - 0x80)) as char
    else
      ((bs[0] as int - 0xF0) * 0x4_0000 + (bs[1] as int - 0x80) * 4096 + (bs[2] as int - 0x80) * 64 + (bs[3] - 0x80)) as char
  }

  /**
   * `new String(bytes, UTF_8)`: well-formed sequences become their scalar
   * values; each maximal ill-formed subpart becomes one U+FFFD.
   */
  function Utf8Decode(bs: seq<byte>): string
    decreases |bs|
  {
    if bs == [] then []
    else
      var n := SequenceLength(bs[0]);
      if n == 0 then [REPLACEMENT] + Utf8Decode(bs[1..])
      else if n == 1 then [bs[0] as char] + Utf8Decode(bs[1..])
      else
        var k := WellFormedPrefix(bs, n);
        if k == n then [ScalarOf(bs, n)] + Utf8Decode(bs[n..])
        else [REPLACEMENT] + Utf8Decode(bs[k..])
  }

  /** `getString(start, end)`: throws unless `0 <= start <= end <= length`. */
  function ReadString(bs: seq<byte>, start: int, end: int): (r: Result<string, CodecError>)
    ensures r.Success? <==> 0 <= start <= end <= |bs|
  {
    if 0 <= start <= end <= |bs| then Success(Utf8Decode(bs[start..end]))
    else Failure(StringOutOfBounds(start, end))
  }

  /**
   * Reading back a length-prefixed byte run: the `int` comes back, and the
   * run that follows it decodes as itself, whatever surrounds the two.
   */
  lemma ReadPrefixedRun(prefix: seq<byte>, n: int, payload: seq<byte>, suffix: seq<byte>)
    requires IsInt32(n)
    ensures ReadInt(prefix + Int32Bytes(n) + payload + suffix, |prefix|) == Success(n)
    ensures ReadString(prefix + Int32Bytes(n) + payload + suffix, |prefix| + 4, |prefix| + 4 + |payload|)
      == Success(Utf8Decode(payload))
  {
    var bs := prefix + Int32Bytes(n) + payload + suffix;
    assert bs == prefix + Int32Bytes(n) + (payload + suffix);
    Int32RoundTrip(prefix, n, payload + suffix);
    assert bs[|prefix| + 4 .. |prefix| + 4 + |payload|] == payload;
  }

  // ------------------------------------------------------- string lemmas

  /** An ASCII string has as many UTF-16 units and UTF-8 bytes as characters. */
  lemma {:induction false} AsciiLengths(s: string)
    requires IsAscii(s)
    ensures Utf16Length(s) == |s|
    ensures |Utf8Encode(s)| == |s|
  {
    if s != [] {
      assert s[0] as int < 0x80;
      assert IsAscii(s[1..]) by {
        forall i | 0 <= i < |s[1..]| ensures s[1..][i] as int < 0x80 {
          assert s[1..][i] == s[i + 1];
        }
      }
      AsciiLengths(s[1..]);
    }
  }

  /**
   * `String.length()` counts each character once or twice, UTF-8 uses one to
   * four bytes: outside ASCII the count falls strictly short of the bytes.
   */
  lemma {:induction false} Utf16UndercountsUtf8(s: string)
    ensures Utf16Length(s) <= |Utf8Encode(s)|
    ensures !IsAscii(s) ==> Utf16Length(s) < |Utf8Encode(s)|
  {
    if s != [] {
      Utf16UndercountsUtf8(s[1..]);
      if !IsAscii(s) && s[0] as int < 0x80 {
        var i :| 0 <= i < |s| && s[i] as int >= 0x80;
        assert s[1..][i - 1] == s[i];
      }
    }
  }

  /** A two-byte sequence decodes to its character. */
  lemma DecodeTwoBytes(c: char, rest: seq<byte>)
    requires 0x80 <= c as int < 0x800
    ensures Utf8Decode(EncodeChar(c) + rest) == [c] + Utf8Decode(rest)
  {
    var cp := c as int;
    var hi, lo := cp / 64, cp % 64;
    var bs := EncodeChar(c) + rest;
    assert cp == hi * 64 + lo;
    assert bs[0] == 0xC0 + hi && bs[1] == 0x80 + lo;
    assert SequenceLength(bs[0]) == 2;
    assert WellFormedPrefix(bs, 2) == 2;
    assert ScalarOf(bs, 2) as int == cp;
    assert bs[2..] == rest;
  }

  /** A three-byte sequence decodes to its character. */
  lemma DecodeThreeBytes(c: char, rest: seq<byte>)
    requires 0x800 <= c as int < 0x1_0000
    ensures Utf8Decode(EncodeChar(c) + rest) == [c] + Utf8Decode(rest)
  {
    var cp := c as int;
    var hi, mid, lo := cp / 4096, (cp / 64) % 64, cp % 64;
    var bs := EncodeChar(c) + rest;
    assert cp / 64 == hi * 64 + mid;
    assert cp == hi * 4096 + mid * 64 + lo;
    assert bs[0] == 0xE0 + hi && bs[1] == 0x80 + mid && bs[2] == 0x80 + lo;
    assert SequenceLength(bs[0]) == 3;
    assert hi == 0 ==> mid >= 0x20;
    assert hi == 13 ==> mid < 0x20;
    assert WellFormedPrefix(bs, 3) == 3;
    assert ScalarOf(bs, 3) as int == cp;
    assert bs[3..] == rest;
  }

  /** A four-byte sequence decodes to its character. */
  lemma DecodeFourBytes(c: char, rest: seq<byte>)
    requires 0x1_0000 <= c as int
    ensures Utf8Decode(EncodeChar(c) + rest) == [c] + Utf8Decode(rest)
  {
    var cp := c as int;
    var top, hi, mid, lo := cp / 0x4_0000, (cp / 4096) % 64, (cp / 64) % 64, cp % 64;
    var bs := EncodeChar(c) + rest;
    assert cp / 64 == (cp / 4096) * 64 + mid;
    assert cp / 4096 == top * 64 + hi;
    assert cp == top * 0x4_0000 + hi * 4096 + mid * 64 + lo;
    assert bs[0] == 0xF0 + top && bs[1] == 0x80 + hi && bs[2] == 0x80 + mid && bs[3] == 0x80 + lo;
    assert top <= 4;
    assert SequenceLength(bs[0]) == 4;
    assert top == 0 ==> hi >= 0x10;
    assert top == 4 ==> hi < 0x10;
    assert WellFormedPrefix(bs, 4) == 4;
    assert ScalarOf(bs, 4) as int == cp;
    assert bs[4..] == rest;
  }

  /** Decoding the UTF-8 encoding of one character, followed by anything, yields that character first. */
  lemma DecodeEncodedChar(c: char, rest: seq<byte>)
    ensures Utf8Decode(EncodeChar(c) + rest) == [c] + Utf8Decode(rest)
  {
    var cp := c as int;
    if cp < 0x80 {
      var bs := EncodeChar(c) + rest;
      assert SequenceLength(bs[0]) == 1 && bs[1..] == rest;
    } else if cp < 0x800 {
      DecodeTwoBytes(c, rest);
    } else if cp < 0x1_0000 {
      DecodeThreeBytes(c, rest);
    } else {
      DecodeFourBytes(c, rest);
    }
  }

  /** UTF-8 decoding undoes UTF-8 encoding, for every string. */
  lemma {:induction false} Utf8RoundTrip(s: string)
    ensures Utf8Decode(Utf8Encode(s)) == s
  {
    if s != [] {
      DecodeEncodedChar(s[0], Utf8Encode(s[1..]));
      Utf8RoundTrip(s[1..]);
    }
  }

  // ------------------------------------------------------------ the buffer

  /** A growable Vert.x `Buffer`; the codecs append to it in place. */
  class Buffer {
    var bytes: seq<byte>

    constructor (initial: seq<byte>)
      ensures bytes == initial
    {
      bytes := initial;
    }

    /** `appendInt`: four big-endian bytes at the end. */
    method AppendInt(v: int)
      requires IsInt32(v)
      modifies this
      ensures bytes == old(bytes) + Int32Bytes(v)
    {
      bytes := bytes + Int32Bytes(v);
    }

    /** `appendString`: the UTF-8 bytes of `s` at the end. */
    method AppendString(s: string)
      modifies this
      ensures bytes == old(bytes) + Utf8Encode(s)
    {
      bytes := bytes + Utf8Encode(s);
    }
  }
}
