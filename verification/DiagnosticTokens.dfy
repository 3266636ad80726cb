/**
 * The diagnostic inventory scan: finding every well-delimited code in a source text, and
 * every diagnostic constructor whose code is not a literal.
 */
module DiagnosticTokens {
  import opened Common

  predicate IsUpper(b: byte) { 'A' as int <= b <= 'Z' as int }
  predicate IsDigit(b: byte) { '0' as int <= b <= '9' as int }
  predicate IsLower(b: byte) { 'a' as int <= b <= 'z' as int }
  predicate IsWord(b: byte) { IsUpper(b) || IsLower(b) || IsDigit(b) || b == '_' as int || b == '-' as int }

  const PREFIX: bytes := ['S' as int, 'P' as int, 'X' as int, '-' as int]

  predicate PrefixAt(text: bytes, at: nat) {
    at + 4 <= |text| && text[at] == 'S' as int && text[at + 1] == 'P' as int && text[at + 2] == 'X' as int
    && text[at + 3] == '-' as int
  }

  /** `valid_code`: 4 to 16 characters behind the prefix, upper case but for three final digits. */
  predicate ValidCode(token: bytes) {
    && |token| >= 4 && PrefixAt(token, 0)
    && var body := token[4..];
    && 4 <= |body| <= 16
    && (forall i | 0 <= i < |body| - 3 :: IsUpper(body[i]))
    && (forall i | |body| - 3 <= i < |body| :: IsDigit(body[i]))
  }

  // --- What the inventory should contain ---

  /** The end of the run of upper-case letters and digits that starts at `i`. */
  function RunEnd(text: bytes, i: nat): (end: nat)
    requires i <= |text|
    ensures i <= end <= |text|
    ensures forall k | i <= k < end :: IsUpper(text[k]) || IsDigit(text[k])
    ensures end < |text| ==> !IsUpper(text[end]) && !IsDigit(text[end])
    decreases |text| - i
  {
    if i < |text| && (IsUpper(text[i]) || IsDigit(text[i])) then RunEnd(text, i + 1) else i
  }

  /** A code in its own right: not part of a longer word on either side. */
  predicate Delimited(text: bytes, start: nat, end: nat)
    requires start <= end <= |text|
  {
    && (start == 0 || !IsWord(text[start - 1]))
    && (end == |text| || !IsWord(text[end]))
  }

  predicate TokenAt(text: bytes, start: nat) {
    && start + 4 <= |text|
    && var end := RunEnd(text, start + 4);
       ValidCode(text[start..end]) && Delimited(text, start, end)
  }

  datatype Token = Token(start: nat, code: bytes)

  /** The token that starts here, if one does. */
  function TokensAt(text: bytes, start: nat): seq<Token> {
    if TokenAt(text, start) then [Token(start, text[start..RunEnd(text, start + 4)])] else []
  }

  /** All tokens that start before `limit`, in order. */
  function TokensBelow(text: bytes, limit: nat): seq<Token> {
    if limit == 0 then [] else TokensBelow(text, limit - 1) + TokensAt(text, limit - 1)
  }

  lemma {:induction false} TokensSkip(text: bytes, a: nat, b: nat)
    requires a <= b && forall i | a <= i < b :: !TokenAt(text, i)
    ensures TokensBelow(text, b) == TokensBelow(text, a)
    decreases b
  {
    if a < b { TokensSkip(text, a, b - 1); }
  }

  /**
   * Nothing is lost by jumping to the end of the run: a prefix that starts inside the
   * skipped span continues a word, so it is not delimited on its left.
   */
  lemma {:induction false} SkippedSpanHasNoToken(text: bytes, start: nat, i: nat)
    requires PrefixAt(text, start) && start < i < RunEnd(text, start + 4)
    ensures !TokenAt(text, i)
  {
    if i < start + 4 {
      if PrefixAt(text, i) {
        assert text[i] == 'S' as int;
        assert text[start + 1] != 'S' as int && text[start + 2] != 'S' as int && text[start + 3] != 'S' as int;
      }
    } else {
      assert IsWord(text[i - 1]);
    }
  }

  /** Every listed token is one. */
  lemma {:induction false} TokensAreSound(text: bytes, limit: nat, t: Token)
    requires t in TokensBelow(text, limit)
    ensures t.start < limit && TokenAt(text, t.start) && t.code == text[t.start..RunEnd(text, t.start + 4)]
  {
    if t in TokensBelow(text, limit - 1) {
      TokensAreSound(text, limit - 1, t);
    }
  }

  /** The list is in order, so no token is listed twice. */
  lemma {:induction false} TokensIncrease(text: bytes, limit: nat, j: nat, k: nat)
    requires j < k < |TokensBelow(text, limit)|
    ensures TokensBelow(text, limit)[j].start < TokensBelow(text, limit)[k].start
  {
    var shorter := TokensBelow(text, limit - 1);
    if k < |shorter| {
      TokensIncrease(text, limit - 1, j, k);
    } else {
      assert shorter[j] in shorter;
      TokensAreSound(text, limit - 1, shorter[j]);
    }
  }

  /** Every token below the limit is listed. */
  lemma {:induction false} TokensAreComplete(text: bytes, limit: nat, i: nat)
    requires i < limit && TokenAt(text, i)
    ensures Token(i, text[i..RunEnd(text, i + 4)]) in TokensBelow(text, limit)
    decreases limit
  {
    if i < limit - 1 {
      TokensAreComplete(text, limit - 1, i);
    } else {
      var all := TokensBelow(text, limit);
      assert all[|all| - 1] == Token(i, text[i..RunEnd(text, i + 4)]);
    }
  }

  lemma {:induction false} TokenStartsWithPrefix(text: bytes, i: nat)
    requires TokenAt(text, i)
    ensures StartsAt(text, PREFIX, i)
  {
    var token := text[i..RunEnd(text, i + 4)];
    assert token[0] == text[i] && token[1] == text[i + 1] && token[2] == text[i + 2] && token[3] == text[i + 3];
  }

  lemma {:induction false} NoTokensWithoutPrefix(text: bytes, a: nat, b: nat)
    requires a <= b && forall i | a <= i < b :: !StartsAt(text, PREFIX, i)
    ensures TokensBelow(text, b) == TokensBelow(text, a)
  {
    forall i | a <= i < b ensures !TokenAt(text, i) {
      if TokenAt(text, i) { TokenStartsWithPrefix(text, i); }
    }
    TokensSkip(text, a, b);
  }

  lemma {:induction false} SpanTokens(text: bytes, cursor: nat, start: nat)
    requires cursor <= start && StartsAt(text, PREFIX, start)
    requires forall i | cursor <= i < start :: !StartsAt(text, PREFIX, i)
    ensures TokensBelow(text, RunEnd(text, start + 4))
         == TokensBelow(text, cursor) + (
              if TokenAt(text, start) then [Token(start, text[start..RunEnd(text, start + 4)])] else [])
  {
    var end := RunEnd(text, start + 4);
    NoTokensWithoutPrefix(text, cursor, start);
    var found := text[start..start + 4];
    assert found == PREFIX && found[0] == text[start] && found[1] == text[start + 1]
        && found[2] == text[start + 2] && found[3] == text[start + 3];
    forall i | start + 1 <= i < end ensures !TokenAt(text, i) {
      SkippedSpanHasNoToken(text, start, i);
    }
    TokensSkip(text, start + 1, end);
  }

  /** `diagnostic_tokens`: finds exactly the delimited codes, in order, skipping from run to run. */
  method DiagnosticTokens(text: bytes) returns (output: seq<Token>)
    ensures output == TokensBelow(text, |text|)
  {
    output := [];
    var cursor := 0;
    while cursor + 4 <= |text|
      invariant cursor <= |text|
      invariant output == TokensBelow(text, cursor)
      decreases |text| - cursor
    {
      var found := Find(text, PREFIX, cursor);
      if found == None {
        NoTokensWithoutPrefix(text, cursor, |text|);
        return;
      }
      var start := found.value;
      var end := start + 4;
      while end < |text| && (IsUpper(text[end]) || IsDigit(text[end]))
        invariant start + 4 <= end <= |text|
        invariant RunEnd(text, end) == RunEnd(text, start + 4)
      {
        end := end + 1;
      }
      var token := text[start..end];
      SpanTokens(text, cursor, start);
      if ValidCode(token) && Delimited(text, start, end) {
        output := output + [Token(start, token)];
      }
      cursor := end;
    }
    NoTokensWithoutPrefix(text, cursor, |text|);
  }

  /** Exactness, read off the scan's result. */
  lemma {:induction false} ScanIsExact(text: bytes, start: nat, code: bytes)
    ensures Token(start, code) in TokensBelow(text, |text|)
       <==> TokenAt(text, start) && code == text[start..RunEnd(text, start + 4)]
  {
    if Token(start, code) in TokensBelow(text, |text|) { TokensAreSound(text, |text|, Token(start, code)); }
    if TokenAt(text, start) { TokensAreComplete(text, |text|, start); }
  }

  /** Letters, digits, underscore and hyphen. */
  ghost predicate WordByte(b: byte) {
    65 <= b <= 90 || 97 <= b <= 122 || 48 <= b <= 57 || b == 95 || b == 45
  }

  /** A code stands here on its own: "SPX-", one to thirteen capitals and three digits, and no word goes on. */
  ghost predicate StandsAlone(text: bytes, start: nat, code: bytes) {
    var end := start + |code|;
    && end <= |text| && text[start..end] == code && 8 <= |code| <= 20
    && code[..4] == [83, 80, 88, 45]
    && (forall i | 4 <= i < |code| - 3 :: 65 <= code[i] <= 90)
    && (forall i | |code| - 3 <= i < |code| :: 48 <= code[i] <= 57)
    && (start > 0 ==> !WordByte(text[start - 1])) && (end < |text| ==> !WordByte(text[end]))
  }

  lemma {:induction false} TokenStandsAlone(text: bytes, start: nat, code: bytes)
    ensures TokenAt(text, start) && code == text[start..RunEnd(text, start + 4)] <==> StandsAlone(text, start, code)
  {
    if StandsAlone(text, start, code) {
      var end := start + |code|;
      assert forall i | 4 <= i < |code| :: text[start + i] == code[i];
      assert code[0] == code[..4][0] && code[1] == code[..4][1] && code[2] == code[..4][2] && code[3] == code[..4][3];
      assert forall i | 0 <= i < |code| - 4 :: code[4..][i] == code[i + 4];
    }
    if TokenAt(text, start) && code == text[start..RunEnd(text, start + 4)] {
      assert forall i | 4 <= i < |code| :: code[i] == code[4..][i - 4];
    }
  }

  /** What the scan lists, without its runs: exactly the codes that stand alone. */
  lemma {:induction false} ListedExactlyWhen(text: bytes, start: nat, code: bytes)
    ensures Token(start, code) in TokensBelow(text, |text|) <==> StandsAlone(text, start, code)
  {
    ScanIsExact(text, start, code);
    TokenStandsAlone(text, start, code);
  }

  // --- Constructors whose code is not a literal ---

  function LineNumber(text: bytes, offset: nat): nat
    requires offset <= |text|
  {
    if offset == 0 then 1 else LineNumber(text, offset - 1) + (if text[offset - 1] == 10 then 1 else 0)
  }

  /** Lines are counted from one, by the line feeds in front. */
  lemma {:induction false} LineNumberIs(text: bytes, offset: nat)
    requires offset <= |text|
    ensures LineNumber(text, offset) == 1 + |set i: nat | i < offset && text[i] == 10|
  {
    var feeds := set i: nat | i < offset && text[i] == 10;
    if offset == 0 {
      assert feeds == {};
    } else {
      var before := set i: nat | i < offset - 1 && text[i] == 10;
      LineNumberIs(text, offset - 1);
      assert feeds == if text[offset - 1] == 10 then before + {offset - 1} else before;
    }
  }

  /** A call whose argument does not begin, after trimming, with a quoted code prefix. */
  predicate DynamicAt(text: bytes, needle: bytes, trim: bytes -> bytes, i: nat) {
    StartsAt(text, needle, i) && !StartsAt(trim(text[i + |needle|..]), ['"' as int] + PREFIX, 0)
  }

  /** A needle whose final byte occurs nowhere else in it cannot overlap itself. */
  predicate EndsUniquely(needle: bytes) {
    needle != [] && forall i | 0 <= i < |needle| - 1 :: needle[i] != needle[|needle| - 1]
  }

  const NEEDLES := ["Diagnostic::error(", "Diagnostic::warning(", "Diagnostic::io("]

  lemma {:induction false} NeedlesEndUniquely()
    ensures forall needle | needle in NEEDLES :: IsAscii(needle) && EndsUniquely(Ascii(needle))
  {}

  lemma {:induction false} ByteOf(text: bytes, needle: bytes, at: nat, k: nat)
    ensures StartsAt(text, needle, at) && k < |needle| ==> text[at + k] == needle[k]
  {
    assert StartsAt(text, needle, at) && k < |needle| ==> text[at..at + |needle|][k] == text[at + k];
  }

  lemma {:induction false} NoOverlap(text: bytes, needle: bytes, i: nat, j: nat)
    requires EndsUniquely(needle) && StartsAt(text, needle, i) && i < j < i + |needle|
    ensures !StartsAt(text, needle, j)
  {
    ByteOf(text, needle, i, |needle| - 1);
    ByteOf(text, needle, j, i + |needle| - 1 - j);
  }

  function DynamicLines(text: bytes, needle: bytes, trim: bytes -> bytes, limit: nat): set<nat>
    requires limit <= |text| + 1
  {
    set i | 0 <= i < limit && DynamicAt(text, needle, trim, i) :: LineNumber(text, i)
  }

  /** The needle loop of `main`: reports the line of every non-literal occurrence and no other. */
  method DynamicSites(text: bytes, needle: bytes, trim: bytes -> bytes) returns (lines: set<nat>)
    requires EndsUniquely(needle)
    ensures lines == DynamicLines(text, needle, trim, |text|)
  {
    lines := {};
    var base := 0;
    while true
      invariant base <= |text|
      invariant lines == DynamicLines(text, needle, trim, base)
      decreases |text| - base
    {
      var found := Find(text, needle, base);
      if found == None {
        assert lines == DynamicLines(text, needle, trim, |text|);
        return;
      }
      var offset := found.value;
      var argument := text[offset + |needle|..];
      forall j | offset < j < offset + |needle| ensures !StartsAt(text, needle, j) {
        NoOverlap(text, needle, offset, j);
      }
      if !StartsAt(trim(argument), ['"' as int] + PREFIX, 0) {
        lines := lines + {LineNumber(text, offset)};
      }
      base := offset + |needle|;
    }
  }
}
