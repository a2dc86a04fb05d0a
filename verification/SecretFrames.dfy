/**
 * The frames that carry one JSON document between the runtime and a secret provider: a
 * Content-Length header of at most 128 bytes, then a body of exactly that length, then nothing.
 */
module SecretFrames {
  import opened Common
  import opened Text

  const MAX_BODY := 0x10_0000
  const MAX_HEADER := 128

  const CR: Byte := 13
  const SEPARATOR: Bytes := [13, 10, 13, 10]

  function Ascii(s: string): Bytes
    requires forall i :: 0 <= i < |s| ==> s[i] < 128 as char
  {
    seq(|s|, i requires 0 <= i < |s| => s[i] as int)
  }

  function Characters(b: Bytes): (s: string)
    ensures |s| == |b|
  {
    seq(|b|, i requires 0 <= i < |b| => b[i] as char)
  }

  function Prefix(): (p: Bytes)
    ensures |p| == 16 && forall i :: 0 <= i < 16 ==> p[i] != CR
  {
    Ascii("Content-Length: ")
  }

  function Header(digits: Bytes): Bytes {
    Prefix() + digits + SEPARATOR
  }

  /** What the reader is meant to accept: the header's digits and the body. */
  predicate Admissible(digits: Bytes, body: Bytes) {
    && 1 <= |digits| <= 108
    && AllDigits(Characters(digits))
    && NumberOf(Characters(digits)) == |body|
    && |body| <= MAX_BODY
  }

  ghost predicate IsFrame(input: Bytes, digits: Bytes, body: Bytes) {
    Admissible(digits, body) && input == Header(digits) + body
  }

  predicate EndsWith(s: Bytes, suffix: Bytes) {
    |s| >= |suffix| && s[|s| - |suffix|..] == suffix
  }

  /** The header cannot end before its separator. */
  lemma HeaderEndsOnce(digits: Bytes, rest: Bytes, k: nat)
    requires AllDigits(Characters(digits)) && k <= |Header(digits)|
    ensures EndsWith((Header(digits) + rest)[..k], SEPARATOR) <==> k == |Header(digits)|
  {
    hide Prefix;
    var input := Header(digits) + rest;
    if k == |Header(digits)| {
      assert input[..k] == Header(digits);
      assert Header(digits)[k - 4..] == SEPARATOR;
    } else if k >= 4 {
      assert input[..k][k - 4..][0] == input[k - 4];
      if k - 4 >= 16 {
        assert input[k - 4] == digits[k - 20] == Characters(digits)[k - 20] as int;
      }
      assert input[k - 4] != CR;
    }
  }

  datatype FrameError = InvalidFrame | Truncated

  /** Reads the header byte by byte, up to its blank line. */
  method ReadHeader(input: Bytes) returns (r: Result<Bytes, FrameError>)
    ensures r.Ok? ==> r.value <= input && |r.value| <= MAX_HEADER && EndsWith(r.value, SEPARATOR)
    ensures r.Ok? ==> forall k :: 0 <= k < |r.value| ==> !EndsWith(input[..k], SEPARATOR)
    ensures r.Err? ==> forall k :: 0 <= k <= MAX_HEADER && k <= |input| ==> !EndsWith(input[..k], SEPARATOR)
    ensures r == Err(Truncated) ==> |input| < MAX_HEADER
    ensures r == Err(InvalidFrame) ==> |input| >= MAX_HEADER
  {
    var header: Bytes := [];
    while !EndsWith(header, SEPARATOR)
      invariant header <= input && |header| <= MAX_HEADER
      invariant forall k :: 0 <= k < |header| ==> !EndsWith(input[..k], SEPARATOR)
      decreases MAX_HEADER - |header|
    {
      assert input[..|header|] == header;
      if |header| == MAX_HEADER {
        return Err(InvalidFrame);
      }
      if |header| == |input| {
        return Err(Truncated);
      }
      header := header + [input[|header|]];
    }
    return Ok(header);
  }

  lemma HeaderInjective(d: Bytes, e: Bytes)
    requires Header(d) == Header(e)
    ensures d == e
  {
    hide Prefix;
    assert d == Header(d)[16..|Header(d)| - 4];
    assert e == Header(e)[16..|Header(e)| - 4];
  }

  /** The digits between prefix and blank line, whatever they are. */
  method StripHeader(h: Bytes) returns (digits: Option<Bytes>)
    ensures digits.Some? ==> h == Header(digits.value)
    ensures digits.None? ==> forall d :: h != Header(d)
  {
    hide Prefix;
    if !(Prefix() <= h) || !EndsWith(h[|Prefix()|..], SEPARATOR) {
      assert forall d :: Prefix() <= Header(d) && EndsWith(Header(d)[16..], SEPARATOR);
      return None;
    }
    var found := h[|Prefix()|..|h| - 4];
    assert h == Header(found);
    return Some(found);
  }

  /** Reads a whole stream; the body comes back exactly when the stream is one admissible frame. */
  method ReadFrame(input: Bytes) returns (r: Result<Bytes, FrameError>)
    ensures r.Ok? ==> exists digits :: IsFrame(input, digits, r.value)
    ensures forall digits, body :: IsFrame(input, digits, body) ==> r == Ok(body)
  {
    hide Header, EndsWith;
    var header := ReadHeader(input);
    if header.Err? {
      NoFrameWithoutHeader(input);
      return Err(header.error);
    }
    var h := header.value;
    forall digits, body | IsFrame(input, digits, body) ensures h == Header(digits) && input[|h|..] == body {
      HeaderIs(input, h, digits, body);
    }
    var stripped := StripHeader(h);
    if stripped.None? {
      return Err(InvalidFrame);
    }
    var digits := stripped.value;
    forall d | h == Header(d) ensures d == digits {
      HeaderInjective(d, digits);
    }
    if digits == [] || !AllDigits(Characters(digits)) {
      return Err(InvalidFrame);
    }
    var length := NumberOf(Characters(digits));
    if length > U64_MAX || length > MAX_BODY {
      return Err(InvalidFrame);
    }
    if |input| - |h| < length {
      return Err(Truncated);
    }
    var body := input[|h|..|h| + length];
    if |h| + length != |input| {
      return Err(InvalidFrame);
    }
    HeaderLength(digits);
    assert IsFrame(input, digits, body);
    return Ok(body);
  }

  lemma HeaderLength(digits: Bytes)
    ensures |Header(digits)| == |digits| + 20
  {
  }

  lemma HeaderIs(input: Bytes, h: Bytes, digits: Bytes, body: Bytes)
    requires IsFrame(input, digits, body)
    requires h <= input && EndsWith(h, SEPARATOR)
    requires forall k :: 0 <= k < |h| ==> !EndsWith(input[..k], SEPARATOR)
    ensures h == Header(digits) && input[|h|..] == body
  {
    var n := |Header(digits)|;
    HeaderEndsOnce(digits, body, n);
    assert n >= |h|;
    HeaderEndsOnce(digits, body, |h|);
    assert input[..|h|] == h;
  }

  lemma NoFrameWithoutHeader(input: Bytes)
    requires forall k :: 0 <= k <= MAX_HEADER && k <= |input| ==> !EndsWith(input[..k], SEPARATOR)
    ensures forall digits, body :: !IsFrame(input, digits, body)
  {
    forall digits, body ensures !IsFrame(input, digits, body) {
      if IsFrame(input, digits, body) {
        HeaderEndsOnce(digits, body, |Header(digits)|);
      }
    }
  }

  /** No stream can be read as two different frames. */
  lemma UniqueDecoding(input: Bytes, d: Bytes, a: Bytes, e: Bytes, b: Bytes)
    requires IsFrame(input, d, a) && IsFrame(input, e, b)
    ensures d == e && a == b
  {
    var n, m := |Header(d)|, |Header(e)|;
    HeaderEndsOnce(d, a, n);
    HeaderEndsOnce(e, b, m);
    HeaderEndsOnce(d, a, if n < m then n else m);
    HeaderEndsOnce(e, b, if n < m then n else m);
    assert d == input[16..n - 4] && e == input[16..m - 4];
    assert a == input[n..] && b == input[m..];
  }

  // Writing

  function Concat(chunks: seq<Bytes>): Bytes {
    if chunks == [] then [] else Concat(chunks[..|chunks| - 1]) + chunks[|chunks| - 1]
  }

  class BoundedBody {
    var bytes: Bytes

    constructor ()
      ensures bytes == []
    {
      bytes := [];
    }

    method Write(chunk: Bytes) returns (ok: bool)
      requires |bytes| <= MAX_BODY
      modifies this
      ensures ok <==> |old(bytes)| + |chunk| <= MAX_BODY
      ensures bytes == if ok then old(bytes) + chunk else old(bytes)
    {
      if |chunk| > MAX_BODY - |bytes| {
        return false;
      }
      bytes := bytes + chunk;
      return true;
    }
  }

  lemma {:induction false} ConcatGrows(chunks: seq<Bytes>, i: nat)
    requires i <= |chunks|
    ensures |Concat(chunks[..i])| <= |Concat(chunks)|
    decreases |chunks| - i
  {
    if i == |chunks| {
      assert chunks[..i] == chunks;
    } else {
      ConcatGrows(chunks, i + 1);
      assert chunks[..i + 1][..i] == chunks[..i];
    }
  }

  /** Writes a document that the serializer hands over in any chunks, if it fits. */
  method WriteFrame(chunks: seq<Bytes>) returns (frame: Option<Bytes>)
    ensures frame.Some? <==> |Concat(chunks)| <= MAX_BODY
    ensures frame.Some? ==> frame.value == Header(LengthDigits(|Concat(chunks)|)) + Concat(chunks)
    ensures frame.Some? ==> IsFrame(frame.value, LengthDigits(|Concat(chunks)|), Concat(chunks))
  {
    var body := new BoundedBody();
    for i := 0 to |chunks|
      invariant body.bytes == Concat(chunks[..i]) && |body.bytes| <= MAX_BODY
    {
      assert chunks[..i + 1][..i] == chunks[..i];
      var ok := body.Write(chunks[i]);
      if !ok {
        ConcatGrows(chunks, i + 1);
        return None;
      }
    }
    assert chunks[..|chunks|] == chunks;
    WrittenIsAdmissible(body.bytes);
    return Some(Header(LengthDigits(|body.bytes|)) + body.bytes);
  }

  function LengthDigits(n: nat): Bytes {
    Ascii(Decimal(n))
  }

  /** What the writer emits is a frame for its body, whatever the body holds. */
  lemma WrittenIsAdmissible(body: Bytes)
    requires |body| <= MAX_BODY
    ensures Admissible(LengthDigits(|body|), body)
  {
    var n := |body|;
    assert Characters(LengthDigits(n)) == Decimal(n);
    NumberOfDecimal(n);
    assert Power10(7) == 10_000_000 by {
      assert Power10(3) == 1000;
      assert Power10(5) == 100_000;
    }
    DecimalLength(n, 7);
  }
}
