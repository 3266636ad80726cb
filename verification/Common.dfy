/** Bytes, results and the little-endian integers that the packers write with `struct`. */
module Common {
  type byte = b: int | 0 <= b < 256
  type bytes = seq<byte>

  datatype Option<+T> = None | Some(value: T)
  datatype Result<+T, +E> = Ok(value: T) | Err(error: E)

  predicate IsAscii(text: string) {
    forall i | 0 <= i < |text| :: text[i] < 128 as char
  }

  function Ascii(text: string): bytes
    requires IsAscii(text)
  {
    seq(|text|, i requires 0 <= i < |text| && IsAscii(text) => text[i] as int as byte)
  }

  function Pow256(k: nat): (p: nat)
    ensures p > 0
  {
    if k == 0 then 1 else 256 * Pow256(k - 1)
  }

  /** The `width` low-order bytes of `n`, least significant first. */
  function Le(n: nat, width: nat): (b: bytes)
    ensures |b| == width
    decreases width, n
  {
    if width == 0 then [] else [n % 256] + Le(n / 256, width - 1)
  }

  function FromLe(b: bytes): nat {
    if b == [] then 0 else b[0] + 256 * FromLe(b[1..])
  }

  /** Reading back a packed integer gives the integer, provided it fits its field. */
  lemma {:induction false} LeRoundTrip(n: nat, width: nat)
    requires n < Pow256(width)
    ensures FromLe(Le(n, width)) == n
  {
    if width > 0 {
      LeRoundTrip(n / 256, width - 1);
      assert Le(n, width)[1..] == Le(n / 256, width - 1);
    }
  }

  /** The least significant byte comes first. */
  lemma {:induction false} LeDigit(n: nat, width: nat, i: nat)
    requires i < width
    ensures Le(n, width)[i] == n / Pow256(i) % 256
  {
    if i > 0 {
      LeDigit(n / 256, width - 1, i - 1);
      DivideTwice(n, 256, n / 256, n % 256, Pow256(i - 1));
    }
  }

  /** Dividing what a division by `base` left by d is dividing by their product. */
  lemma {:induction false} DivideTwice(n: nat, base: nat, q: nat, r: nat, d: nat)
    requires n == base * q + r && r < base && d > 0
    ensures base * d > 0 && q / d == n / (base * d)
  {
    var q', r' := q / d, q % d;
    Expands(base, d, q', r');
    Grows(base, r', d - 1);
    Distributes(base, d);
    Quotient(n, base * d, q', base * r' + r);
  }

  lemma {:induction false} Distributes(a: nat, d: nat)
    requires d > 0
    ensures a * d == a * (d - 1) + a
  {}

  lemma {:induction false} Expands(a: nat, b: nat, c: nat, r: nat)
    ensures a * (b * c + r) == (a * b) * c + a * r
  {}

  lemma {:induction false} Grows(a: nat, b: nat, c: nat)
    requires b <= c
    ensures a * b <= a * c
  {}

  lemma {:induction false} Quotient(n: nat, d: nat, q: nat, r: nat)
    requires d > 0 && r < d && n == d * q + r
    ensures n / d == q
  {
    var m := n / d - q;
    assert m * d == r - n % d;
    assert m >= 1 ==> m * d >= d;
    assert m <= -1 ==> m * d + d <= 0;
  }

  /** Packing what was read gives the bytes back. */
  lemma {:induction false} LeInvertsFromLe(b: bytes)
    ensures Le(FromLe(b), |b|) == b
  {
    if b != [] {
      LeInvertsFromLe(b[1..]);
      assert FromLe(b) % 256 == b[0] && FromLe(b) / 256 == FromLe(b[1..]);
      assert b == [b[0]] + b[1..];
    }
  }

  /** A little-endian field; asking for one outside the input is an error here, not an exception. */
  function Field(c: bytes, at: nat, width: nat): nat
    requires at + width <= |c|
  {
    FromLe(c[at..at + width])
  }

  lemma {:induction false} FieldIsLe(c: bytes, at: nat, width: nat)
    requires at + width <= |c|
    ensures Le(Field(c, at, width), width) == c[at..at + width]
  {
    LeInvertsFromLe(c[at..at + width]);
  }

  lemma FieldWidths()
    ensures Pow256(2) == 0x1_0000
    ensures Pow256(4) == 0x1_0000_0000
    ensures Pow256(8) == 0x1_0000_0000_0000_0000
  {
    assert Pow256(3) == 256 * Pow256(2);
    assert Pow256(5) == 256 * Pow256(4);
    assert Pow256(7) == 256 * Pow256(6);
  }

  predicate StartsAt(text: bytes, needle: bytes, at: nat) {
    at + |needle| <= |text| && text[at..at + |needle|] == needle
  }

  /** The first occurrence at or behind `from`, if there is one. */
  method Find(text: bytes, needle: bytes, from: nat) returns (r: Option<nat>)
    ensures r.Some? ==> from <= r.value && StartsAt(text, needle, r.value)
    ensures forall i | from <= i < (if r.Some? then r.value else |text| + 1) :: !StartsAt(text, needle, i)
  {
    var at := from;
    while at + |needle| <= |text|
      invariant from <= at
      invariant forall i | from <= i < at :: !StartsAt(text, needle, i)
    {
      if text[at..at + |needle|] == needle {
        return Some(at);
      }
      at := at + 1;
    }
    return None;
  }
}
