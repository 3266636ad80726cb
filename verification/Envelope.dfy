/**
 * The generated-client envelope: two sources, each behind a header that states its length.
 * The review source may contain anything, including text that looks like the second header.
 */
module Envelope {
  import opened Common
  import opened Sequences
  import Text

  datatype Refusal = ReviewHeader | PublishHeader | LengthMismatch | NotUtf8

  const REVIEW: bytes := ['r' as int, 'e' as int, 'v' as int, 'i' as int, 'e' as int, 'w' as int, '-' as int,
                          'b' as int, 'y' as int, 't' as int, 'e' as int, 's' as int, ':' as int]
  const PUBLISH: bytes := ['p' as int, 'u' as int, 'b' as int, 'l' as int, 'i' as int, 's' as int, 'h' as int,
                           '-' as int,
                           'b' as int, 'y' as int, 't' as int, 'e' as int, 's' as int, ':' as int]
  const LF: bytes := [10]

  // --- Decimal bytes ---

  function Digits(n: nat): bytes
  {
    DecimalIsAscii(n);
    Ascii(Text.Decimal(n))
  }

  lemma {:induction false} DecimalIsAscii(n: nat)
    ensures IsAscii(Text.Decimal(n))
  {
    Text.ValueInvertsDecimal(n);
  }

  function Chars(b: bytes): string { seq(|b|, i requires 0 <= i < |b| => b[i] as char) }

  predicate AllDigitBytes(b: bytes) { forall i | 0 <= i < |b| :: 48 <= b[i] <= 57 }

  /** `isdigit` and no leading zero: a canonical decimal of a positive number. */
  predicate IsLength(b: bytes) { b != [] && AllDigitBytes(b) && b[0] != 48 }

  function LengthOf(b: bytes): nat
    requires IsLength(b)
  {
    Text.Value(Chars(b))
  }

  lemma {:induction false} LengthsExactlyWhen(b: bytes, n: nat)
    ensures IsLength(b) && LengthOf(b) == n <==> n > 0 && b == Digits(n)
  {
    DecimalIsAscii(n);
    Text.ValueInvertsDecimal(n);
    if IsLength(b) {
      Text.DecimalInvertsValue(Chars(b));
      if LengthOf(b) == n {
        assert Ascii(Chars(b)) == b;
      }
    }
    if n > 0 && b == Digits(n) {
      assert Chars(b) == Text.Decimal(n);
    }
  }

  // --- The envelope ---

  function Part(header: bytes, source: bytes): bytes { header + Digits(|source|) + LF + source }

  function Envelope(review: bytes, publish: bytes): bytes { Part(REVIEW, review) + Part(PUBLISH, publish) }

  /** The envelope, byte for byte. */
  lemma {:induction false} EnvelopeWrittenOut(review: bytes, publish: bytes)
    ensures IsAscii(Text.Decimal(|review|)) && IsAscii(Text.Decimal(|publish|))
    ensures Envelope(review, publish)
         == Ascii("review-bytes:") + Ascii(Text.Decimal(|review|)) + [10] + review
            + (Ascii("publish-bytes:") + Ascii(Text.Decimal(|publish|)) + [10] + publish)
  {
    DecimalIsAscii(|review|);
    DecimalIsAscii(|publish|);
    assert Ascii("review-bytes:") == REVIEW && Ascii("publish-bytes:") == PUBLISH;
  }

  /** Two nonempty sources of valid text. */
  ghost predicate Sources(review: bytes, publish: bytes, utf8: bytes -> bool) {
    review != [] && publish != [] && utf8(review) && utf8(publish)
  }

  /** A header between `start` and `at` that announces a source of `size` bytes. */
  ghost predicate HeaderAt(body: bytes, start: nat, header: bytes, at: nat, size: nat) {
    size > 0 && start <= at <= |body| && body[start..at] == header + Digits(size) + LF
  }

  /** Reads the header that starts at `start`, if one does: where its source begins, and its size. */
  method ReadHeader(body: bytes, start: nat, header: bytes) returns (r: Option<(nat, nat)>)
    ensures r.Some? ==> HeaderAt(body, start, header, r.value.0, r.value.1)
    ensures forall at: nat, size: nat | HeaderAt(body, start, header, at, size) :: r == Some((at, size))
  {
    forall at: nat, size: nat | HeaderAt(body, start, header, at, size) ensures StartsAt(body, header, start) {
      assert body[start..at][..|header|] == header;
      assert body[start..start + |header|] == body[start..at][..|header|];
    }
    if start > |body| || !StartsAt(body, header, start) {
      return None;
    }
    var digits := start + |header|;
    var newline := Find(body, LF, digits);
    forall at: nat, size: nat | HeaderAt(body, start, header, at, size)
      ensures newline == Some(at - 1) && IsLength(body[digits..at - 1]) && LengthOf(body[digits..at - 1]) == size
    {
      HeaderParts(body, start, header, size, at, newline);
    }
    if newline == None {
      return None;
    }
    var text := body[digits..newline.value];
    if !IsLength(text) {
      return None;
    }
    LengthsExactlyWhen(text, LengthOf(text));
    assert body[start..newline.value + 1] == header + text + LF by {
      assert body[newline.value..newline.value + 1] == LF;
    }
    return Some((newline.value + 1, LengthOf(text)));
  }

  /** The first line feed behind the fixed text ends the header. */
  lemma {:induction false} HeaderBytes(body: bytes, start: nat, header: bytes, at: nat, size: nat)
    requires HeaderAt(body, start, header, at, size)
    ensures start + |header| <= at - 1 && body[at - 1] == 10
    ensures forall k | start + |header| <= k < at - 1 :: body[k] != 10
  {
    var digits, all := start + |header|, body[start..at];
    LengthsExactlyWhen(Digits(size), size);
    assert |all| == |header| + |Digits(size)| + 1 && all[|all| - 1] == 10;
    forall k | digits <= k < at - 1 ensures body[k] != 10 {
      assert body[k] == all[k - start] == Digits(size)[k - digits];
    }
  }

  lemma {:induction false} HeaderParts(body: bytes, start: nat, header: bytes, size: nat, at: nat, newline: Option<nat>)
    requires size > 0 && start <= at <= |body| && body[start..at] == header + Digits(size) + LF
    requires newline.Some? ==> start + |header| <= newline.value && StartsAt(body, LF, newline.value)
    requires forall i | start + |header| <= i < (if newline.Some? then newline.value else |body| + 1)
               :: !StartsAt(body, LF, i)
    ensures newline == Some(at - 1) && body[start + |header|..at - 1] == Digits(size)
    ensures IsLength(Digits(size)) && LengthOf(Digits(size)) == size
  {
    LengthsExactlyWhen(Digits(size), size);
    HeaderBytes(body, start, header, at, size);
    FirstLineFeed(body, start + |header|, at - 1, newline);
    var all := body[start..at];
    assert |all| == |header| + |Digits(size)| + 1;
    Middle(header, Digits(size), LF);
    SliceOfSlice(body, start, at, |header|, |all| - 1);
  }

  lemma {:induction false} LineFeedAt(body: bytes, i: nat)
    ensures StartsAt(body, LF, i) <==> i < |body| && body[i] == 10
  {
    assert i < |body| ==> body[i..i + 1] == [body[i]];
  }

  /** A search for a line feed stops at the first one. */
  lemma {:induction false} FirstLineFeed(body: bytes, from: nat, end: nat, newline: Option<nat>)
    requires from <= end < |body| && body[end] == 10 && forall k | from <= k < end :: body[k] != 10
    requires newline.Some? ==> from <= newline.value && StartsAt(body, LF, newline.value)
    requires forall i | from <= i < (if newline.Some? then newline.value else |body| + 1) :: !StartsAt(body, LF, i)
    ensures newline == Some(end)
  {
    LineFeedAt(body, end);
    if newline.Some? { LineFeedAt(body, newline.value); }
  }

  /** The positions that reading an envelope of these sources goes through. */
  ghost predicate Laid(body: bytes, review: bytes, publish: bytes) {
    var at := |REVIEW| + |Digits(|review|)| + 1;
    var end := at + |review|;
    var second := end + |PUBLISH| + |Digits(|publish|)| + 1;
    && HeaderAt(body, 0, REVIEW, at, |review|) && end <= |body| && body[at..end] == review
    && HeaderAt(body, end, PUBLISH, second, |publish|)
    && second + |publish| == |body| && body[second..] == publish
  }

  lemma {:induction false} EnvelopeIsLaid(review: bytes, publish: bytes)
    requires review != [] && publish != []
    ensures Laid(Envelope(review, publish), review, publish)
  {
    var body := Envelope(review, publish);
    var first, next := REVIEW + Digits(|review|) + LF, PUBLISH + Digits(|publish|) + LF;
    assert body == first + review + (next + publish);
    assert body[0..|first|] == first;
    var end := |first| + |review|;
    assert body[end..end + |next|] == next;
  }

  lemma {:induction false} EnvelopeFromParts(body: bytes, start: nat, size: nat, next: nat)
    requires HeaderAt(body, 0, REVIEW, start, size) && start + size <= |body|
    requires next <= |body| && HeaderAt(body, start + size, PUBLISH, next, |body| - next)
    ensures body == Envelope(body[start..start + size], body[next..])
  {
    var end := start + size;
    assert body == body[0..start] + body[start..end] + (body[end..next] + body[next..]);
  }

  /** The two sources of an envelope, or the first thing that is wrong with it. */
  method ReadParts(body: bytes) returns (r: Result<(bytes, bytes), Refusal>)
    ensures r.Ok? ==> r.value.0 != [] && r.value.1 != [] && body == Envelope(r.value.0, r.value.1)
    ensures forall review, publish | Laid(body, review, publish) :: r == Ok((review, publish))
  {
    hide Envelope, Digits;
    var first := ReadHeader(body, 0, REVIEW);
    if first == None {
      return Err(ReviewHeader);
    }
    var (start, size) := first.value;
    var end := start + size;
    var second := ReadHeader(body, end, PUBLISH);
    if second == None {
      return Err(PublishHeader);
    }
    var (next, publishSize) := second.value;
    if next + publishSize != |body| {
      return Err(LengthMismatch);
    }
    EnvelopeFromParts(body, start, size, next);
    return Ok((body[start..end], body[next..]));
  }

  /**
   * `validate_generated_client`: accepts exactly the envelopes of two nonempty sources of
   * valid text, whatever those sources contain.
   */
  method ValidateClient(body: bytes, utf8: bytes -> bool) returns (r: Result<(), Refusal>)
    ensures r.Ok? <==> exists review, publish :: Sources(review, publish, utf8) && body == Envelope(review, publish)
  {
    forall review, publish | Sources(review, publish, utf8) && body == Envelope(review, publish)
      ensures Laid(body, review, publish)
    {
      EnvelopeIsLaid(review, publish);
    }
    var parts := ReadParts(body);
    if parts.Err? {
      return Err(parts.error);
    }
    var (review, publish) := parts.value;
    if !utf8(review) || !utf8(publish) {
      return Err(NotUtf8);
    }
    assert Sources(review, publish, utf8);
    return Ok(());
  }

  /** An envelope determines its sources, even when the review contains the publish header. */
  lemma {:induction false} SourcesAreUnique(r1: bytes, p1: bytes, r2: bytes, p2: bytes)
    requires r1 != [] && p1 != [] && r2 != [] && p2 != []
    requires Envelope(r1, p1) == Envelope(r2, p2)
    ensures r1 == r2 && p1 == p2
  {
    EnvelopeIsLaid(r1, p1);
    EnvelopeIsLaid(r2, p2);
    var body := Envelope(r1, p1);
    HeaderIsUnique(body, 0, REVIEW, |REVIEW| + |Digits(|r1|)| + 1, |r1|, |REVIEW| + |Digits(|r2|)| + 1, |r2|);
    var end := |REVIEW| + |Digits(|r1|)| + 1 + |r1|;
    HeaderIsUnique(body, end, PUBLISH, end + |PUBLISH| + |Digits(|p1|)| + 1, |p1|,
                   end + |PUBLISH| + |Digits(|p2|)| + 1, |p2|);
  }

  lemma {:induction false} HeaderIsUnique(body: bytes, start: nat, header: bytes, at1: nat, size1: nat, at2: nat,
                                          size2: nat)
    requires HeaderAt(body, start, header, at1, size1) && HeaderAt(body, start, header, at2, size2)
    ensures at1 == at2 && size1 == size2
  {
    HeaderBytes(body, start, header, at1, size1);
    HeaderBytes(body, start, header, at2, size2);
    assert at1 == at2;
    assert Digits(size1) == body[start..at1][|header|..at1 - start - 1] == Digits(size2);
    LengthsExactlyWhen(Digits(size1), size1);
    LengthsExactlyWhen(Digits(size1), size2);
  }
}
