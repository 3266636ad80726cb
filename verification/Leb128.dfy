/**
 * Unsigned LEB128 (section 5.2.2 of the WebAssembly Core Specification 1.0): the
 * encoder and the decoder that assemble and take apart the endpoint fixture.
 */
module Leb128 {
  import opened Common
  import opened Sequences

  datatype Refusal = FixtureInteger | IndexOutOfRange

  const U32_LIMIT := 0x1_0000_0000

  function Pow2(k: nat): (p: nat)
    ensures p > 0
  {
    if k == 0 then 1 else 2 * Pow2(k - 1)
  }

  // --- Encoding ---

  function Encode(value: nat): (r: bytes)
    ensures |r| > 0
  {
    if value < 128 then [value] else [value % 128 + 128] + Encode(value / 128)
  }

  /** `leb`: seven bits at a time, continuation bit on all but the last byte. */
  method Leb(value: int) returns (r: Result<bytes, Refusal>)
    ensures 0 <= value < U32_LIMIT <==> r.Ok?
    ensures r.Ok? ==> r.value == Encode(value)
    ensures r.Err? ==> r.error == FixtureInteger
  {
    if !(0 <= value < U32_LIMIT) {
      return Err(FixtureInteger);
    }
    var result: bytes := [];
    var rest := value;
    while true
      invariant 0 <= rest
      invariant result + Encode(rest) == Encode(value)
      decreases rest
    {
      var low := rest % 128;
      ghost var before := rest;
      rest := rest / 128;
      result := result + [low + (if rest != 0 then 128 else 0)];
      if rest == 0 {
        return Ok(result);
      }
    }
  }

  /** Seven bits of the value in each byte, lowest first, and the high bit on all but the last. */
  lemma {:induction false} EncodeDigit(value: nat, i: nat)
    requires i < |Encode(value)|
    ensures Encode(value)[i] % 128 == value / Pow2(7 * i) % 128
    ensures Encode(value)[i] >= 128 <==> i + 1 < |Encode(value)|
  {
    if i > 0 {
      EncodeDigit(value / 128, i - 1);
      SevenMore(i);
      DivideTwice(value, 128, value / 128, value % 128, Pow2(7 * (i - 1)));
    }
  }

  lemma {:induction false} SevenMore(i: nat)
    requires i > 0
    ensures Pow2(7 * i) == 128 * Pow2(7 * (i - 1))
  {
    var k := 7 * (i - 1);
    assert Pow2(k + 2) == 2 * Pow2(k + 1) == 4 * Pow2(k);
    assert Pow2(k + 4) == 2 * Pow2(k + 3) == 4 * Pow2(k + 2);
    assert Pow2(k + 7) == 2 * Pow2(k + 6) == 4 * Pow2(k + 5) == 8 * Pow2(k + 4);
  }

  // --- Decoding ---

  /** Bitwise `|` on the unbounded integers of the decoder. */
  function BitOr(a: nat, b: nat): nat
    decreases a + b
  {
    if a == 0 && b == 0 then 0
    else (if a % 2 == 1 || b % 2 == 1 then 1 else 0) + 2 * BitOr(a / 2, b / 2)
  }

  /** Or-ing in a group above all the bits already there adds it. */
  lemma {:induction false} BitOrDisjoint(a: nat, b: nat, k: nat)
    requires a < Pow2(k)
    ensures BitOr(a, b * Pow2(k)) == a + b * Pow2(k)
    decreases k, b
  {
    if k == 0 {
      if b > 0 { BitOrDisjoint(0, b / 2, 0); }
      assert b * Pow2(0) == b;
    } else {
      var p := b * Pow2(k - 1);
      assert b * Pow2(k) == 2 * p;
      BitOrDisjoint(a / 2, b, k - 1);
    }
  }

  /** The value of an encoding that starts at `cursor`, and the position behind it. */
  function DecodeAt(data: bytes, cursor: nat): (r: Option<(nat, nat)>)
    ensures r.Some? ==> cursor < r.value.1 <= |data|
    decreases |data| - cursor
  {
    if cursor >= |data| then None
    else if data[cursor] < 128 then Some((data[cursor], cursor + 1))
    else
      var tail := DecodeAt(data, cursor + 1);
      if tail == None then None
      else Some((data[cursor] - 128 + 128 * tail.value.0, tail.value.1))
  }

  /** What reading on from `cursor` gives, with `value` accumulated below bit `shift`. */
  function Rest(data: bytes, cursor: nat, value: nat, shift: nat): Option<(nat, nat)> {
    match DecodeAt(data, cursor)
    case None => None
    case Some(pair) => Some((value + pair.0 * Pow2(shift), pair.1))
  }

  lemma {:induction false} RestStarts(data: bytes, start: nat)
    ensures Pow2(0) == 1 && Rest(data, start, 0, 0) == DecodeAt(data, start)
  {}

  lemma {:induction false} RestStep(data: bytes, cursor: nat, value: nat, shift: nat)
    requires value < Pow2(shift)
    ensures cursor >= |data| ==> Rest(data, cursor, value, shift) == None
    ensures cursor < |data| ==>
              var group := data[cursor] % 128;
              var next := value + group * Pow2(shift);
              && BitOr(value, group * Pow2(shift)) == next && next < Pow2(shift + 7)
              && Rest(data, cursor, value, shift)
                 == if data[cursor] < 128 then Some((next, cursor + 1)) else Rest(data, cursor + 1, next, shift + 7)
  {
    if cursor < |data| {
      var group, tail := data[cursor] % 128, DecodeAt(data, cursor + 1);
      BitOrDisjoint(value, group, shift);
      ShiftGroup(value, group, shift, if tail.Some? then tail.value.0 else 0);
    }
  }

  /** `read_leb`: accumulates groups with shifts and bitwise or; indexing past the end raises. */
  method ReadLeb(data: bytes, start: nat) returns (r: Result<(nat, nat), Refusal>)
    ensures r == match DecodeAt(data, start)
                 case Some(pair) => Ok(pair)
                 case None => Err(IndexOutOfRange)
  {
    hide Pow2, BitOr, DecodeAt, Rest;
    var value: nat, shift: nat, cursor := 0, 0, start;
    RestStarts(data, start);
    while true
      invariant value < Pow2(shift)
      invariant Rest(data, cursor, value, shift) == DecodeAt(data, start)
      decreases |data| - cursor
    {
      RestStep(data, cursor, value, shift);
      if cursor >= |data| {
        return Err(IndexOutOfRange);
      }
      var current := data[cursor];
      cursor := cursor + 1;
      value := BitOr(value, current % 128 * Pow2(shift));
      if current < 128 {
        return Ok((value, cursor));
      }
      shift := shift + 7;
    }
  }

  lemma {:induction false} ShiftGroup(value: nat, group: nat, shift: nat, rest: nat)
    requires value < Pow2(shift) && group < 128
    ensures Pow2(shift + 7) == 128 * Pow2(shift)
    ensures value + group * Pow2(shift) < Pow2(shift + 7)
    ensures value + (group + 128 * rest) * Pow2(shift)
         == value + group * Pow2(shift) + rest * Pow2(shift + 7)
  {
    var p := Pow2(shift);
    assert Pow2(shift + 7) == 128 * p by {
      assert Pow2(shift + 2) == 4 * p;
      assert Pow2(shift + 4) == 4 * Pow2(shift + 2);
      assert Pow2(shift + 6) == 4 * Pow2(shift + 4);
    }
    assert group * p <= 127 * p;
    assert (128 * rest) * p == rest * (128 * p);
  }

  // --- The two halves together ---

  /** `read_leb` inverts `leb` at any offset and whatever bytes follow. */
  lemma {:induction false} DecodeInvertsEncode(before: bytes, value: nat, after: bytes)
    ensures DecodeAt(before + Encode(value) + after, |before|)
         == Some((value, |before| + |Encode(value)|))
    decreases value
  {
    var data := before + Encode(value) + after;
    var at := |before|;
    if value < 128 {
      assert data[at] == value;
    } else {
      var head: byte := value % 128 + 128;
      var rest := Encode(value / 128);
      assert data[at] == head;
      assert data == before + [head] + rest + after;
      DecodeInvertsEncode(before + [head], value / 128, after);
      assert DecodeAt(data, at + 1) == Some((value / 128, at + 1 + |rest|));
    }
  }

  /** The encoding of a value has n bytes exactly when the value needs n seven-bit groups. */
  lemma {:induction false} EncodedLength(value: nat, n: nat)
    requires n > 0
    ensures |Encode(value)| <= n <==> value < Pow2(7 * n)
    decreases n
  {
    assert Pow2(7 * n) == 128 * Pow2(7 * (n - 1)) by { ShiftGroup(0, 0, 7 * (n - 1), 0); }
    if n == 1 {
      assert Pow2(7 * 0) == 1;
    } else if value >= 128 {
      EncodedLength(value / 128, n - 1);
    } else {
      assert Pow2(7 * (n - 1)) > 0;
    }
  }

  /** Only an encoding whose last byte is zero reads as zero. */
  lemma {:induction false} ZeroEndsInZero(data: bytes, at: nat)
    requires DecodeAt(data, at).Some?
    ensures var (value, end) := DecodeAt(data, at).value; value == 0 ==> data[end - 1] == 0
    decreases |data| - at
  {
    if data[at] >= 128 { ZeroEndsInZero(data, at + 1); }
  }

  /**
   * The decoder is not strict. What it accepts is the encoding of what it returns exactly when
   * that is a single byte or the last byte is not zero.
   */
  lemma {:induction false} CanonicalExactlyWhen(data: bytes, at: nat)
    requires DecodeAt(data, at).Some?
    ensures var (value, end) := DecodeAt(data, at).value;
            data[at..end] == Encode(value) <==> end == at + 1 || data[end - 1] != 0
    decreases |data| - at
  {
    if data[at] < 128 {
      assert data[at..at + 1] == [data[at]];
    } else {
      var (value, end) := DecodeAt(data, at + 1).value;
      CanonicalExactlyWhen(data, at + 1);
      ZeroEndsInZero(data, at + 1);
      CanonicalTail(data, at, value, end);
    }
  }

  /** A continued encoding is canonical when the rest is, and is not just a padding zero. */
  lemma {:induction false} CanonicalTail(data: bytes, at: nat, value: nat, end: nat)
    requires at + 1 < end <= |data| && data[at] >= 128
    ensures data[at..end] == Encode(data[at] - 128 + 128 * value) <==> value > 0 && data[at + 1..end] == Encode(value)
  {
    var whole := data[at] - 128 + 128 * value;
    SplitAt(data, at, at + 1, end);
    assert data[at..at + 1] == [data[at]];
    if value > 0 {
      assert Encode(whole) == [data[at]] + Encode(value);
      Cancels(data[at], data[at + 1..end], Encode(value));
    } else {
      assert |Encode(whole)| == 1;
    }
  }

  /** A padded encoding of five. */
  lemma {:induction false} PaddedEncodingAccepted()
    ensures DecodeAt([128 + 5, 0], 0) == Some((5, 2)) && [128 + 5, 0] != Encode(5)
  {
    assert DecodeAt([128 + 5, 0], 1) == Some((0, 2));
  }
}
