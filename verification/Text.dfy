/** Splitting, joining and canonical decimals: the text layer of receipts and envelopes. */
module Text {
  import opened Common

  // --- Splitting and joining ---

  function Split(s: string, sep: char): (parts: seq<string>)
    ensures |parts| > 0
  {
    if s == [] then [[]]
    else
      var rest := Split(s[1..], sep);
      if s[0] == sep then [[]] + rest else [[s[0]] + rest[0]] + rest[1..]
  }

  function Join(parts: seq<string>, sep: char): string {
    if parts == [] then []
    else if |parts| == 1 then parts[0]
    else parts[0] + [sep] + Join(parts[1..], sep)
  }

  lemma {:induction false} SplitPartsClear(s: string, sep: char)
    ensures forall part | part in Split(s, sep) :: sep !in part
  {
    if s != [] {
      SplitPartsClear(s[1..], sep);
      var rest := Split(s[1..], sep);
      if s[0] != sep {
        assert rest[0] in rest && forall part | part in rest[1..] :: part in rest;
      }
    }
  }

  lemma {:induction false} JoinInvertsSplit(s: string, sep: char)
    ensures Join(Split(s, sep), sep) == s
  {
    if s != [] {
      JoinInvertsSplit(s[1..], sep);
      var rest := Split(s[1..], sep);
      assert s == [s[0]] + s[1..];
      if s[0] == sep {
        assert ([[]] + rest)[1..] == rest;
      } else {
        assert ([[s[0]] + rest[0]] + rest[1..])[1..] == rest[1..];
        if |rest| > 1 {
          assert s == [s[0]] + rest[0] + [sep] + Join(rest[1..], sep);
        }
      }
    }
  }

  lemma {:induction false} SplitPrefix(part: string, s: string, sep: char)
    requires sep !in part
    ensures Split(part, sep) == [part]
    ensures Split(part + [sep] + s, sep) == [part] + Split(s, sep)
  {
    if part == [] {
      assert [] + [sep] + s == [sep] + s;
      assert ([sep] + s)[1..] == s;
    } else {
      var t := part[1..] + [sep] + s;
      SplitPrefix(part[1..], s, sep);
      assert (part + [sep] + s)[1..] == t && (part + [sep] + s)[0] == part[0];
      assert [part[0]] + part[1..] == part;
      assert ([part[1..]] + Split(s, sep))[1..] == Split(s, sep);
    }
  }

  /** Splitting a join gives the parts back, provided none of them contains the separator. */
  lemma {:induction false} SplitInvertsJoin(parts: seq<string>, sep: char)
    requires parts != [] && forall part | part in parts :: sep !in part
    ensures Split(Join(parts, sep), sep) == parts
  {
    if |parts| == 1 {
      SplitPrefix(parts[0], [], sep);
    } else {
      SplitInvertsJoin(parts[1..], sep);
      SplitPrefix(parts[0], Join(parts[1..], sep), sep);
      assert [parts[0]] + parts[1..] == parts;
    }
  }

  predicate Clear(s: string, avoid: set<char>) { forall c | c in s :: c !in avoid }

  lemma {:induction false} JoinClear(parts: seq<string>, sep: char, avoid: set<char>)
    requires sep !in avoid && forall part | part in parts :: Clear(part, avoid)
    ensures Clear(Join(parts, sep), avoid)
  {
    if parts != [] {
      assert Clear(parts[0], avoid) by { assert parts[0] in parts; }
      if |parts| > 1 { JoinClear(parts[1..], sep, avoid); }
    }
  }

  lemma {:induction false} JoinLength(parts: seq<string>, sep: char, bound: nat)
    requires forall part | part in parts :: |part| <= bound
    ensures |Join(parts, sep)| <= |parts| * (bound + 1)
  {
    if |parts| > 1 {
      JoinLength(parts[1..], sep, bound);
      assert |parts| * (bound + 1) == (bound + 1) + (|parts| - 1) * (bound + 1);
    } else if |parts| == 1 {
      assert |parts[0]| <= bound && |parts| * (bound + 1) == bound + 1;
    }
  }

  // --- Canonical decimals ---

  predicate IsDigit(c: char) { '0' <= c <= '9' }

  function DigitOf(d: nat): char
    requires d < 10
  {
    '0' + d as char
  }

  function Decimal(n: nat): (s: string)
    ensures |s| > 0
  {
    if n < 10 then [DigitOf(n)] else Decimal(n / 10) + [DigitOf(n % 10)]
  }

  predicate AllDigits(s: string) { forall i | 0 <= i < |s| :: IsDigit(s[i]) }

  /** Digits only, and no leading zero except in "0" itself. */
  predicate IsCanonical(s: string) {
    s != [] && AllDigits(s) && (s[0] == '0' ==> |s| == 1)
  }

  function Value(s: string): nat
    requires AllDigits(s)
  {
    if s == [] then 0 else 10 * Value(s[..|s| - 1]) + (s[|s| - 1] as int - '0' as int)
  }

  lemma {:induction false} ValueInvertsDecimal(n: nat)
    ensures IsCanonical(Decimal(n)) && Value(Decimal(n)) == n
    ensures n > 0 ==> Decimal(n)[0] != '0'
  {
    var s := Decimal(n);
    if n < 10 {
      assert s[..|s| - 1] == [];
    } else {
      ValueInvertsDecimal(n / 10);
      assert s[..|s| - 1] == Decimal(n / 10);
      assert s[0] == Decimal(n / 10)[0];
    }
  }

  lemma {:induction false} DecimalInvertsValue(s: string)
    requires IsCanonical(s)
    ensures Decimal(Value(s)) == s
    ensures s[0] != '0' ==> Value(s) > 0
  {
    var last := s[|s| - 1] as int - '0' as int;
    var init := s[..|s| - 1];
    if init == [] {
      assert s == [DigitOf(last)];
    } else {
      DecimalInvertsValue(init);
      assert init[0] == s[0];
      assert Value(s) / 10 == Value(init) && Value(s) % 10 == last;
      assert s == init + [DigitOf(last)];
    }
  }

  function Pow10(k: nat): (p: nat)
    ensures p > 0
  {
    if k == 0 then 1 else 10 * Pow10(k - 1)
  }

  lemma {:induction false} DecimalLength(n: nat, k: nat)
    requires k > 0
    ensures |Decimal(n)| <= k <==> n < Pow10(k)
    decreases k
  {
    if k == 1 {
      assert Pow10(1) == 10 * Pow10(0);
    } else if n >= 10 {
      DecimalLength(n / 10, k - 1);
    } else {
      assert Pow10(k - 1) > 0;
    }
  }

  const U64_MAX := 0xFFFF_FFFF_FFFF_FFFF

  /** `unsigned`: a canonical decimal of at most twenty digits that fits 64 bits. */
  function Unsigned(s: string): Option<nat> {
    if !IsCanonical(s) || |s| > 20 || Value(s) > U64_MAX then None else Some(Value(s))
  }

  lemma {:induction false} TwentyDigits()
    ensures U64_MAX < Pow10(20)
  {
    assert Pow10(4) == 10 * 10 * 10 * 10;
    assert Pow10(8) == 10 * 10 * 10 * 10 * Pow10(4);
    assert Pow10(12) == 10 * 10 * 10 * 10 * Pow10(8);
    assert Pow10(16) == 10 * 10 * 10 * 10 * Pow10(12);
    assert Pow10(20) == 10 * 10 * 10 * 10 * Pow10(16);
  }

  /** The accepted strings are exactly the canonical decimals of 0..2^64-1. */
  lemma {:induction false} UnsignedExactlyWhen(s: string, n: nat)
    ensures Unsigned(s) == Some(n) <==> n <= U64_MAX && s == Decimal(n)
  {
    if Unsigned(s) == Some(n) {
      DecimalInvertsValue(s);
    }
    if n <= U64_MAX && s == Decimal(n) {
      ValueInvertsDecimal(n);
      TwentyDigits();
      DecimalLength(n, 20);
    }
  }

  lemma {:induction false} DecimalClear(n: nat, avoid: set<char>)
    requires forall c | c in avoid :: !IsDigit(c)
    ensures Clear(Decimal(n), avoid)
  {
    ValueInvertsDecimal(n);
    var s := Decimal(n);
    forall c | c in s ensures c !in avoid {
      var i :| 0 <= i < |s| && s[i] == c;
    }
  }
}
