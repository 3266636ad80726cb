/** The base64 encoding of RFC 4648, section 4, and its strict decoder. */
module Base64 {
  import opened Common

  /** Letters, lower-case letters, digits, plus and slash. */
  function Symbol(v: nat): (c: char)
    requires v < 64
    ensures c < 128 as char && c != '='
  {
    if v < 26 then ('A' as int + v) as char
    else if v < 52 then ('a' as int + v - 26) as char
    else if v < 62 then ('0' as int + v - 52) as char
    else if v == 62 then '+' else '/'
  }

  function Index(c: char): (r: Option<nat>)
    ensures r.Some? ==> r.value < 64
  {
    if 'A' <= c <= 'Z' then Some(c as int - 'A' as int)
    else if 'a' <= c <= 'z' then Some(c as int - 'a' as int + 26)
    else if '0' <= c <= '9' then Some(c as int - '0' as int + 52)
    else if c == '+' then Some(62) else if c == '/' then Some(63) else None
  }

  lemma {:induction false} IndexInvertsSymbol(v: nat)
    requires v < 64
    ensures Index(Symbol(v)) == Some(v)
  {}

  /** The alphabet, by the codes of its characters. */
  lemma {:induction false} SymbolIs(v: nat)
    requires v < 64
    ensures var code := Symbol(v) as int;
            code == if v <= 25 then v + 65 else if v <= 51 then v + 71 else if v <= 61 then v - 4
                    else if v == 62 then 43 else 47
  {}

  /** A full group is its three bytes as one number of 24 bits, six bits to a symbol, the highest first. */
  lemma {:induction false} GroupIsNumber(x: byte, y: byte, z: byte)
    ensures var g := Group(x, y, z);
            exists a: nat, b: nat, c: nat, d: nat | a < 64 && b < 64 && c < 64 && d < 64 ::
              && g == [Symbol(a), Symbol(b), Symbol(c), Symbol(d)]
              && a * 262144 + b * 4096 + c * 64 + d == x * 65536 + y * 256 + z
  {
    var a, b, c, d := x / 4, x % 4 * 16 + y / 16, y % 16 * 4 + z / 64, z % 64;
    assert Group(x, y, z) == [Symbol(a), Symbol(b), Symbol(c), Symbol(d)];
    assert a * 262144 + b * 4096 + c * 64 + d == x * 65536 + y * 256 + z;
    hide Group, Symbol;
  }

  /** Three bytes become four symbols; one or two left over are padded. */
  function Encode(b: bytes): (s: string)
    ensures |s| == (|b| + 2) / 3 * 4
    ensures IsAscii(s)
    decreases |b|
  {
    if b == [] then ""
    else if |b| == 1 then [Symbol(b[0] / 4), Symbol(b[0] % 4 * 16), '=', '=']
    else if |b| == 2 then [Symbol(b[0] / 4), Symbol(b[0] % 4 * 16 + b[1] / 16), Symbol(b[1] % 16 * 4), '=']
    else Group(b[0], b[1], b[2]) + Encode(b[3..])
  }

  function Group(x: byte, y: byte, z: byte): (s: string)
    ensures |s| == 4 && IsAscii(s)
  {
    [Symbol(x / 4), Symbol(x % 4 * 16 + y / 16), Symbol(y % 16 * 4 + z / 64), Symbol(z % 64)]
  }

  /** The last group may be padded; anything outside the alphabet is refused. */
  function Decode(s: string): Option<bytes>
    decreases |s|
  {
    if s == "" then Some([])
    else if |s| < 4 then None
    else
      var a, b, c, d := Index(s[0]), Index(s[1]), Index(s[2]), Index(s[3]);
      if a.None? || b.None? then None
      else if |s| == 4 && s[2] == '=' && s[3] == '=' then Some([First(a.value, b.value)])
      else if c.None? then None
      else if |s| == 4 && s[3] == '=' then Some([First(a.value, b.value), Second(b.value, c.value)])
      else if d.None? then None
      else
        var rest := Decode(s[4..]);
        if rest.None? then None
        else Some([First(a.value, b.value), Second(b.value, c.value), Third(c.value, d.value)] + rest.value)
  }

  function First(a: nat, b: nat): byte requires a < 64 && b < 64 { a * 4 + b / 16 }
  function Second(b: nat, c: nat): byte requires b < 64 && c < 64 { b % 16 * 16 + c / 4 }
  function Third(c: nat, d: nat): byte requires c < 64 && d < 64 { c % 4 * 64 + d }

  lemma {:induction false} GroupDecodes(x: byte, y: byte, z: byte)
    ensures First(x / 4, x % 4 * 16 + y / 16) == x
    ensures Second(x % 4 * 16 + y / 16, y % 16 * 4 + z / 64) == y
    ensures Third(y % 16 * 4 + z / 64, z % 64) == z
  {}

  lemma {:induction false} OneByteDecodes(x: byte)
    ensures Decode(Encode([x])) == Some([x])
  {
    assert Encode([x]) == [Symbol(x / 4), Symbol(x % 4 * 16), '=', '='];
    hide Symbol, Index;
    GroupDecodes(x, 0, 0);
    IndexInvertsSymbol(x / 4);
    IndexInvertsSymbol(x % 4 * 16);
  }

  lemma {:induction false} TwoBytesDecode(x: byte, y: byte)
    ensures Decode(Encode([x, y])) == Some([x, y])
  {
    assert Encode([x, y]) == [Symbol(x / 4), Symbol(x % 4 * 16 + y / 16), Symbol(y % 16 * 4), '='];
    hide Symbol, Index;
    GroupDecodes(x, y, 0);
    IndexInvertsSymbol(x / 4);
    IndexInvertsSymbol(x % 4 * 16 + y / 16);
    IndexInvertsSymbol(y % 16 * 4);
  }

  lemma {:induction false} FullGroupDecodes(x: byte, y: byte, z: byte, rest: string)
    requires Decode(rest).Some?
    ensures Decode(Group(x, y, z) + rest) == Some([x, y, z] + Decode(rest).value)
  {
    GroupDecodes(x, y, z);
    IndexInvertsSymbol(x / 4);
    IndexInvertsSymbol(x % 4 * 16 + y / 16);
    IndexInvertsSymbol(y % 16 * 4 + z / 64);
    IndexInvertsSymbol(z % 64);
    assert (Group(x, y, z) + rest)[4..] == rest;
  }

  lemma {:induction false} EncodeGroup(group: bytes, rest: bytes)
    requires |group| == 3
    ensures Encode(group + rest) == Group(group[0], group[1], group[2]) + Encode(rest)
  {
    assert (group + rest)[3..] == rest;
  }

  lemma {:induction false} GroupRoundTrip(group: bytes, rest: bytes)
    requires |group| == 3 && Decode(Encode(rest)) == Some(rest)
    ensures Decode(Encode(group + rest)) == Some(group + rest)
  {
    hide Decode, Encode, Group;
    EncodeGroup(group, rest);
    FullGroupDecodes(group[0], group[1], group[2], Encode(rest));
    assert group == [group[0], group[1], group[2]];
  }

  /** Decoding an encoding gives the bytes back. */
  lemma {:induction false} DecodeInvertsEncode(b: bytes)
    ensures Decode(Encode(b)) == Some(b)
    decreases |b|
  {
    if b == [] {
      assert Encode(b) == "" && Decode("") == Some([]);
    } else if |b| == 1 {
      hide Decode, Encode;
      OneByteDecodes(b[0]);
      assert b == [b[0]];
    } else if |b| == 2 {
      hide Decode, Encode;
      TwoBytesDecode(b[0], b[1]);
      assert b == [b[0], b[1]];
    } else {
      hide Decode, Encode;
      DecodeInvertsEncode(b[3..]);
      GroupRoundTrip(b[..3], b[3..]);
      assert b == b[..3] + b[3..];
    }
  }

  // --- What the decoder accepts beyond encodings ---

  lemma {:induction false} SymbolInvertsIndex(c: char)
    ensures Index(c).Some? ==> Symbol(Index(c).value) == c
  {}

  /** The bits of a padded last group that carry no data are zero. */
  predicate SpareBitsClear(s: string) {
    |s| >= 4 ==>
      var c, d := s[|s| - 2], s[|s| - 1];
      if c == '=' then Index(s[|s| - 3]).Some? && Index(s[|s| - 3]).value % 16 == 0
      else d == '=' ==> Index(c).Some? && Index(c).value % 4 == 0
  }

  lemma {:induction false} OneByteCanonical(a: nat, b: nat)
    requires a < 64 && b < 64
    ensures Encode([First(a, b)]) == [Symbol(a), Symbol(b), '=', '='] <==> b % 16 == 0
  {
    var x := First(a, b);
    assert x / 4 == a && x % 4 * 16 == b / 16 * 16;
    IndexInvertsSymbol(b);
    IndexInvertsSymbol(b / 16 * 16);
    assert Encode([x])[1] == Symbol(b / 16 * 16);
  }

  lemma {:induction false} TwoBytesCanonical(a: nat, b: nat, c: nat)
    requires a < 64 && b < 64 && c < 64
    ensures Encode([First(a, b), Second(b, c)]) == [Symbol(a), Symbol(b), Symbol(c), '='] <==> c % 4 == 0
  {
    var x, y := First(a, b), Second(b, c);
    assert x / 4 == a && x % 4 * 16 + y / 16 == b && y % 16 * 4 == c / 4 * 4;
    IndexInvertsSymbol(c);
    IndexInvertsSymbol(c / 4 * 4);
    assert Encode([x, y])[2] == Symbol(c / 4 * 4);
  }

  lemma {:induction false} GroupEncodes(a: nat, b: nat, c: nat, d: nat)
    requires a < 64 && b < 64 && c < 64 && d < 64
    ensures Group(First(a, b), Second(b, c), Third(c, d)) == [Symbol(a), Symbol(b), Symbol(c), Symbol(d)]
  {
    var x, y, z := First(a, b), Second(b, c), Third(c, d);
    assert x / 4 == a && x % 4 * 16 + y / 16 == b;
    assert y % 16 * 4 + z / 64 == c && z % 64 == d;
  }

  /** Encoding what was decoded gives the text back exactly when its spare bits are clear. */
  lemma {:induction false} CanonicalExactlyWhen(s: string)
    requires Decode(s).Some?
    ensures Encode(Decode(s).value) == s <==> SpareBitsClear(s)
    decreases |s|
  {
    if s != "" {
      var a, b, c, d := Index(s[0]), Index(s[1]), Index(s[2]), Index(s[3]);
      SymbolInvertsIndex(s[0]);
      SymbolInvertsIndex(s[1]);
      SymbolInvertsIndex(s[2]);
      SymbolInvertsIndex(s[3]);
      hide Symbol, Index, Encode, First, Second, Third;
      if |s| == 4 && s[2] == '=' && s[3] == '=' {
        OneByteCanonical(a.value, b.value);
        assert s == [s[0], s[1], '=', '='];
      } else if |s| == 4 && s[3] == '=' {
        TwoBytesCanonical(a.value, b.value, c.value);
        assert s == [s[0], s[1], s[2], '='];
      } else {
        FullGroupCanonical(s, a.value, b.value, c.value, d.value);
      }
    }
  }

  lemma {:induction false} FullGroupCanonical(s: string, a: nat, b: nat, c: nat, d: nat)
    requires |s| >= 4 && Index(s[0]) == Some(a) && Index(s[1]) == Some(b)
             && Index(s[2]) == Some(c) && Index(s[3]) == Some(d)
    requires Decode(s[4..]).Some? && a < 64 && b < 64 && c < 64 && d < 64
    ensures var value := [First(a, b), Second(b, c), Third(c, d)] + Decode(s[4..]).value;
            Encode(value) == s <==> SpareBitsClear(s)
    decreases |s|, 0
  {
    var group, rest := [First(a, b), Second(b, c), Third(c, d)], s[4..];
    CanonicalExactlyWhen(rest);
    SpareBitsBehind(s);
    GroupMatches(s, a, b, c, d);
    EncodeGroup(group, Decode(rest).value);
    hide Decode, Encode, Group, First, Second, Third, SpareBitsClear, Index;
    assert s == s[..4] + rest;
    assert (Encode(group + Decode(rest).value) == s) == (Encode(Decode(rest).value) == rest) by {
      assert (s[..4] + Encode(Decode(rest).value))[4..] == Encode(Decode(rest).value);
    }
  }

  lemma {:induction false} SpareBitsBehind(s: string)
    requires |s| >= 4 && Decode(s[4..]).Some? && Index(s[2]).Some? && Index(s[3]).Some?
    ensures SpareBitsClear(s) <==> SpareBitsClear(s[4..])
  {
    hide Symbol, Encode;
    var rest := s[4..];
    assert rest != "" ==> |rest| >= 4;
  }

  lemma {:induction false} GroupMatches(s: string, a: nat, b: nat, c: nat, d: nat)
    requires |s| >= 4 && Index(s[0]) == Some(a) && Index(s[1]) == Some(b)
             && Index(s[2]) == Some(c) && Index(s[3]) == Some(d)
    requires a < 64 && b < 64 && c < 64 && d < 64
    ensures Group(First(a, b), Second(b, c), Third(c, d)) == s[..4]
  {
    GroupEncodes(a, b, c, d);
    SymbolInvertsIndex(s[0]);
    SymbolInvertsIndex(s[1]);
    SymbolInvertsIndex(s[2]);
    SymbolInvertsIndex(s[3]);
  }

  /** `"QR=="` decodes to one byte, whose encoding is `"QQ=="`. */
  lemma {:induction false} SpareBitsAccepted()
    ensures Decode("QR==") == Some([65]) && Encode([65]) == "QQ=="
  {}
}
