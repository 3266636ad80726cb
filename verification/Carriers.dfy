/**
 * Length-framed carriers: the byte strings that hand leaves to an endpoint and back, the
 * recipes they are made from, and the preimages that bind them to a digest.
 */
module Carriers {
  import opened Common
  import opened Sequences

  datatype Refusal = RecipeBound | PayloadHex | RecipeFields | RecipeInteger | PayloadBound

  const U64 := 0x1_0000_0000_0000_0000

  // --- Frames ---

  function Frame(data: bytes): bytes { Le(|data|, 8) + data }

  function Frames(leaves: seq<bytes>): bytes {
    if leaves == [] then [] else Frame(leaves[0]) + Frames(leaves[1..])
  }

  /** A leaf count, then each leaf behind its length. */
  function Framed(leaves: seq<bytes>): bytes { Le(|leaves|, 8) + Frames(leaves) }

  function TotalBytes(leaves: seq<bytes>): nat {
    if leaves == [] then 0 else |leaves[0]| + TotalBytes(leaves[1..])
  }

  /** The inverse the sources leave to the providers: `count` frames from `pos` to the end. */
  function ReadFrames(b: bytes, pos: nat, count: nat): Option<seq<bytes>>
    decreases count
  {
    if count == 0 then (if pos == |b| then Some([]) else None)
    else if pos + 8 > |b| then None
    else
      var size := FromLe(b[pos..pos + 8]);
      if pos + 8 + size > |b| then None
      else match ReadFrames(b, pos + 8 + size, count - 1)
        case None => None
        case Some(rest) => Some([b[pos + 8..pos + 8 + size]] + rest)
  }

  function Unframed(b: bytes): Option<seq<bytes>> {
    if |b| < 8 then None else ReadFrames(b, 8, FromLe(b[..8]))
  }

  lemma {:induction false} FrameParts(b: bytes, before: bytes, leaf: bytes, after: bytes)
    requires b == before + Frame(leaf) + after && |leaf| < U64
    ensures |before| + 8 + |leaf| <= |b|
    ensures FromLe(b[|before|..|before| + 8]) == |leaf|
    ensures b[|before| + 8..|before| + 8 + |leaf|] == leaf
  {
    FieldWidths();
    LeRoundTrip(|leaf|, 8);
    Concatenated(before, Le(|leaf|, 8), leaf);
    PartsOfPrefix(before, Le(|leaf|, 8), leaf, b);
  }

  lemma {:induction false} ReadsFrame(b: bytes, before: bytes, leaf: bytes, next: bytes, after: bytes, count: nat)
    requires next == before + Frame(leaf) && b == next + after && |leaf| < U64
    ensures ReadFrames(b, |before|, count + 1)
         == match ReadFrames(b, |next|, count)
            case None => None
            case Some(rest) => Some([leaf] + rest)
  {
    FrameParts(b, before, leaf, after);
  }

  lemma {:induction false} ReadsFrames(b: bytes, before: bytes, leaves: seq<bytes>)
    requires b == before + Frames(leaves)
    requires forall leaf | leaf in leaves :: |leaf| < U64
    ensures ReadFrames(b, |before|, |leaves|) == Some(leaves)
    decreases |leaves|
  {
    if leaves == [] {
      assert b == before;
    } else {
      var leaf, rest := leaves[0], leaves[1..];
      var next := before + Frame(leaf);
      Concatenated(before, Frame(leaf), Frames(rest));
      ReadsFrame(b, before, leaf, next, Frames(rest), |rest|);
      ReadsFrames(b, next, rest);
      assert [leaf] + rest == leaves;
    }
  }

  /** A carrier can be read in one way only: back into the leaves it was framed from. */
  lemma {:induction false} UnframedInvertsFramed(leaves: seq<bytes>)
    requires |leaves| < U64 && forall leaf | leaf in leaves :: |leaf| < U64
    ensures Unframed(Framed(leaves)) == Some(leaves)
  {
    var count := Le(|leaves|, 8);
    FieldWidths();
    LeRoundTrip(|leaves|, 8);
    assert Framed(leaves)[..8] == count;
    ReadsFrames(Framed(leaves), count, leaves);
  }

  lemma {:induction false} FramesRead(b: bytes, pos: nat, count: nat)
    requires pos <= |b| && ReadFrames(b, pos, count).Some?
    ensures var leaves := ReadFrames(b, pos, count).value; |leaves| == count && Frames(leaves) == b[pos..]
    decreases count
  {
    if count > 0 {
      var next := pos + 8 + Field(b, pos, 8);
      FieldIsLe(b, pos, 8);
      FramesRead(b, next, count - 1);
      SplitAt(b, pos, pos + 8, next);
      SplitAt(b, pos, next, |b|);
      Halves([b[pos + 8..next]], ReadFrames(b, next, count - 1).value);
    }
  }

  /** ... and nothing but a carrier can be read. */
  lemma {:induction false} FramedInvertsUnframed(b: bytes)
    requires Unframed(b).Some?
    ensures Framed(Unframed(b).value) == b
  {
    FieldIsLe(b, 0, 8);
    FramesRead(b, 8, FromLe(b[..8]));
    SplitAt(b, 0, 8, |b|);
  }

  lemma {:induction false} FramesLength(leaves: seq<bytes>)
    ensures |Frames(leaves)| == 8 * |leaves| + TotalBytes(leaves)
  {
    if leaves != [] { FramesLength(leaves[1..]); }
  }

  /** What a digest covers: the domain, a NUL, the length and the data. */
  function Preimage(domain: bytes, data: bytes): bytes { domain + [0] + Le(|data|, 8) + data }

  /** Two preimages with NUL-free domains are equal only when both domain and data are. */
  lemma {:induction false} PreimageIsInjective(d1: bytes, data1: bytes, d2: bytes, data2: bytes)
    requires 0 !in d1 && 0 !in d2
    requires Preimage(d1, data1) == Preimage(d2, data2)
    ensures d1 == d2 && data1 == data2
  {
    var p1, p2 := Preimage(d1, data1), Preimage(d2, data2);
    assert p1[|d1|] == 0 && p2[|d2|] == 0;
    assert forall i | 0 <= i < |d1| :: p1[i] != 0 by {
      assert forall i | 0 <= i < |d1| :: p1[i] == d1[i] && d1[i] in d1;
    }
    assert forall i | 0 <= i < |d2| :: p2[i] != 0 by {
      assert forall i | 0 <= i < |d2| :: p2[i] == d2[i] && d2[i] in d2;
    }
    assert d1 == p1[..|d1|] && d2 == p2[..|d2|];
    assert data1 == p1[|d1| + 9..] && data2 == p2[|d2| + 9..];
  }

  // --- The patterned carriers of the consumer corpus ---

  function LeafSize(recipe: nat, leaf: nat): nat {
    if recipe == 1 || (recipe == 2 && leaf == 0) then 0
    else if recipe == 3 then 65536
    else if recipe == 4 && leaf == 0 then 65537
    else 5 + leaf % 3
  }

  /** Byte i of a leaf, however long the leaf is. */
  function PatternByte(leaf: nat, i: nat): byte {
    if i % 3 == 0 then 0 else (leaf * 31 + i * 17) % 256
  }

  function Payload(recipe: nat, leaf: nat): bytes {
    seq(LeafSize(recipe, leaf), i requires 0 <= i => PatternByte(leaf, i))
  }

  function Reverse(b: bytes): bytes {
    seq(|b|, i requires 0 <= i < |b| => b[|b| - 1 - i])
  }

  /** The first n leaves of a recipe, each reversed or not. */
  function Leaves(recipe: nat, reverse: bool, n: nat): seq<bytes> {
    seq(n, leaf requires 0 <= leaf => if reverse then Reverse(Payload(recipe, leaf)) else Payload(recipe, leaf))
  }

  lemma {:induction false} Thirds(x: nat, y: nat)
    ensures (x + 3 * y) % 3 == x % 3
  {}

  lemma {:induction false} Wraps(x: nat, y: nat)
    ensures (x + 256 * y) % 256 == x % 256
  {}

  /** The pattern repeats after lcm(3, 256) bytes. */
  lemma {:induction false} PatternPeriod(leaf: nat, i: nat)
    ensures PatternByte(leaf, i % 768) == PatternByte(leaf, i)
  {
    var q, r := i / 768, i % 768;
    Thirds(r, 256 * q);
    Wraps(leaf * 31 + r * 17, 51 * q);
  }

  function Repeat(b: bytes, times: nat): bytes {
    if times == 0 then [] else Repeat(b, times - 1) + b
  }

  lemma {:induction false} RepeatAt(b: bytes, times: nat, k: nat)
    requires |b| > 0 && k < |b| * times
    ensures |Repeat(b, times)| == |b| * times && Repeat(b, times)[k] == b[k % |b|]
  {
    RepeatLength(b, times);
    RepeatLength(b, times - 1);
    if k < |b| * (times - 1) {
      RepeatAt(b, times - 1, k);
    } else {
      var r := k - |b| * (times - 1);
      assert 0 <= k - |b| * (times - 1) < |b|;
      RemainderOf(k, |b|, times - 1, r);
    }
  }

  lemma {:induction false} RemainderOf(k: nat, d: nat, q: nat, r: nat)
    requires d > 0 && k == d * q + r && r < d
    ensures k % d == r
  {
    var m := k / d - q;
    assert m * d == r - k % d;
    assert m >= 1 ==> m * d >= d;
    assert m <= -1 ==> m * d + d <= 0;
  }

  lemma {:induction false} RepeatLength(b: bytes, times: nat)
    ensures |Repeat(b, times)| == |b| * times
  {
    if times > 0 { RepeatLength(b, times - 1); }
  }

  /** Tiling the 768-byte pattern and cutting it off gives the leaf's bytes. */
  lemma {:induction false} TilingIsPayload(pattern: bytes, leaf: nat, size: nat)
    requires |pattern| == 768 && forall i | 0 <= i < 768 :: pattern[i] == PatternByte(leaf, i)
    ensures |Repeat(pattern, (size + 767) / 768)| >= size
    ensures Repeat(pattern, (size + 767) / 768)[..size] == seq(size, i requires 0 <= i => PatternByte(leaf, i))
  {
    var times := (size + 767) / 768;
    RepeatLength(pattern, times);
    forall k | 0 <= k < size ensures Repeat(pattern, times)[k] == PatternByte(leaf, k) {
      RepeatAt(pattern, times, k);
      PatternPeriod(leaf, k);
    }
  }

  /** What the leaves of a corpus carrier are, by position. */
  ghost predicate Patterned(leaves: seq<bytes>, fields: int, recipe: int, reverse: bool) {
    |leaves| == fields && forall k: nat | k < |leaves| :: PatternedLeaf(leaves[k], k, recipe, reverse)
  }

  ghost predicate PatternedLeaf(data: bytes, leaf: nat, recipe: int, reverse: bool) {
    && |data| == (match recipe
                  case 0 => 5 + leaf % 3
                  case 1 => 0
                  case 2 => if leaf == 0 then 0 else 5 + leaf % 3
                  case 3 => 65536
                  case _ => if leaf == 0 then 65537 else 5 + leaf % 3)
    && forall i: nat | i < |data| ::
         data[if reverse then |data| - 1 - i else i] == if i % 3 == 0 then 0 else (leaf * 31 + i * 17) % 256
  }

  lemma {:induction false} LeafIsPatterned(recipe: nat, reverse: bool, leaf: nat)
    requires recipe <= 4
    ensures PatternedLeaf(if reverse then Reverse(Payload(recipe, leaf)) else Payload(recipe, leaf),
                          leaf, recipe, reverse)
  {
    var plain := Payload(recipe, leaf);
    var data := if reverse then Reverse(plain) else plain;
    forall i: nat | i < |data|
      ensures data[if reverse then |data| - 1 - i else i] == if i % 3 == 0 then 0 else (leaf * 31 + i * 17) % 256
    {
      assert data[if reverse then |data| - 1 - i else i] == plain[i];
    }
  }

  lemma {:induction false} LeavesArePatterned(fields: nat, recipe: nat, reverse: bool)
    requires 1 <= fields <= 256 && recipe <= 4
    ensures Unframed(Framed(Leaves(recipe, reverse, fields))) == Some(Leaves(recipe, reverse, fields))
    ensures Patterned(Leaves(recipe, reverse, fields), fields, recipe, reverse)
  {
    hide PatternedLeaf, Framed, Unframed, Payload, Reverse;
    var leaves := Leaves(recipe, reverse, fields);
    forall k: nat | k < fields ensures PatternedLeaf(leaves[k], k, recipe, reverse) && |leaves[k]| < U64 {
      LeafIsPatterned(recipe, reverse, k);
      LeafIsShort(leaves[k], k, recipe, reverse);
    }
    UnframedInvertsFramed(leaves);
  }

  lemma {:induction false} LeafIsShort(data: bytes, leaf: nat, recipe: int, reverse: bool)
    requires PatternedLeaf(data, leaf, recipe, reverse)
    ensures |data| < U64
  {}

  /** `carrier`: leaf by leaf, a tiled pattern cut to the leaf's size. */
  method Carrier(fields: int, recipe: int, reverse: bool) returns (r: Result<bytes, Refusal>)
    ensures r.Ok? <==> 1 <= fields <= 256 && 0 <= recipe <= 4
    ensures r.Ok? ==> r.value == Framed(Leaves(recipe, reverse, fields))
    ensures r.Ok? ==> Unframed(r.value).Some? && Patterned(Unframed(r.value).value, fields, recipe, reverse)
  {
    if !(1 <= fields <= 256 && 0 <= recipe <= 4) {
      return Err(RecipeBound);
    }
    var out := Le(fields, 8);
    LeavesArePatterned(fields, recipe, reverse);
    hide Unframed, Patterned;
    ghost var header, done := out, Leaves(recipe, reverse, 0);
    for leaf := 0 to fields
      invariant done == Leaves(recipe, reverse, leaf)
      invariant out == header + Frames(done)
    {
      var size := Le(LeafSize(recipe, leaf), 8);
      var body := LeafBody(recipe, leaf, reverse);
      LeavesAppend(recipe, reverse, leaf, body);
      FramesAppend(header, done, body, size);
      out := out + size + body;
      done := done + [body];
    }
    return Ok(out);
  }

  method LeafBody(recipe: nat, leaf: nat, reverse: bool) returns (body: bytes)
    ensures body == if reverse then Reverse(Payload(recipe, leaf)) else Payload(recipe, leaf)
  {
    var size := LeafSize(recipe, leaf);
    var pattern: bytes := seq(768, i requires 0 <= i => PatternByte(leaf, i));
    TilingIsPayload(pattern, leaf, size);
    var payload := Repeat(pattern, (size + 767) / 768)[..size];
    body := if reverse then Reverse(payload) else payload;
  }

  lemma {:induction false} LeavesAppend(recipe: nat, reverse: bool, leaf: nat, body: bytes)
    requires body == if reverse then Reverse(Payload(recipe, leaf)) else Payload(recipe, leaf)
    ensures Leaves(recipe, reverse, leaf + 1) == Leaves(recipe, reverse, leaf) + [body]
    ensures |body| == LeafSize(recipe, leaf)
  {}

  lemma {:induction false} FramesAppend(header: bytes, leaves: seq<bytes>, leaf: bytes, size: bytes)
    requires size == Le(|leaf|, 8)
    ensures header + Frames(leaves + [leaf]) == header + Frames(leaves) + size + leaf
  {
    FramesGain(leaves, leaf);
    var front := Frames(leaves);
    assert header + (front + (size + leaf)) == header + front + size + leaf;
  }

  lemma {:induction false} FramesGain(leaves: seq<bytes>, leaf: bytes)
    ensures Frames(leaves + [leaf]) == Frames(leaves) + Frame(leaf)
  {
    if leaves == [] {
      assert [leaf][1..] == [];
    } else {
      FramesGain(leaves[1..], leaf);
      assert (leaves + [leaf])[1..] == leaves[1..] + [leaf];
      Concatenated(Frame(leaves[0]), Frames(leaves[1..]), Frame(leaf));
    }
  }

  /** Decoding the reversed carrier gives the leaf-by-leaf reversal of the plain one. */
  lemma {:induction false} ReversedCarrier(fields: nat, recipe: nat)
    requires 1 <= fields <= 256 && recipe <= 4
    ensures Unframed(Framed(Leaves(recipe, false, fields))) == Some(Leaves(recipe, false, fields))
    ensures Unframed(Framed(Leaves(recipe, true, fields))) == Some(Leaves(recipe, true, fields))
    ensures forall leaf | 0 <= leaf < fields ::
              Leaves(recipe, true, fields)[leaf] == Reverse(Leaves(recipe, false, fields)[leaf])
  {
    UnframedInvertsFramed(Leaves(recipe, false, fields));
    UnframedInvertsFramed(Leaves(recipe, true, fields));
  }

  function CarrierLength(fields: nat, recipe: nat): nat
  {
    |Framed(Leaves(recipe, false, fields))|
  }

  /** No admitted carrier is longer than 256 full leaves; exactly that one is as long. */
  lemma {:induction false} CarrierBound(fields: nat, recipe: nat, reverse: bool)
    requires 1 <= fields <= 256 && recipe <= 4
    ensures |Framed(Leaves(recipe, reverse, fields))| == CarrierLength(fields, recipe)
    ensures CarrierLength(fields, recipe) <= 16779272
    ensures CarrierLength(fields, recipe) == 16779272 <==> fields == 256 && recipe == 3
  {
    FramesLength(Leaves(recipe, reverse, fields));
    FramesLength(Leaves(recipe, false, fields));
    LeavesTotal(fields, recipe, reverse);
    LeavesTotal(fields, recipe, false);
    SizeBound(fields, recipe);
  }

  function SizeTotal(recipe: nat, n: nat): nat {
    if n == 0 then 0 else SizeTotal(recipe, n - 1) + LeafSize(recipe, n - 1)
  }

  lemma {:induction false} LeavesTotal(n: nat, recipe: nat, reverse: bool)
    ensures TotalBytes(Leaves(recipe, reverse, n)) == SizeTotal(recipe, n)
  {
    if n > 0 {
      LeavesTotal(n - 1, recipe, reverse);
      var last := Leaves(recipe, reverse, n)[n - 1];
      assert Leaves(recipe, reverse, n) == Leaves(recipe, reverse, n - 1) + [last];
      TotalAppend(Leaves(recipe, reverse, n - 1), last);
    }
  }

  lemma {:induction false} TotalAppend(leaves: seq<bytes>, leaf: bytes)
    ensures TotalBytes(leaves + [leaf]) == TotalBytes(leaves) + |leaf|
  {
    if leaves == [] {
      assert [leaf][1..] == [] && [] + [leaf] == [leaf];
    } else {
      TotalAppend(leaves[1..], leaf);
      assert (leaves + [leaf])[1..] == leaves[1..] + [leaf];
    }
  }

  lemma {:induction false} SizeBound(n: nat, recipe: nat)
    requires recipe <= 4
    ensures recipe == 3 ==> SizeTotal(recipe, n) == 65536 * n
    ensures recipe != 3 ==> SizeTotal(recipe, n) <= 65537 + 7 * n
  {
    if n > 0 { SizeBound(n - 1, recipe); }
  }

  // --- Leaves from a corpus case ---

  /** One entry of `input_leaves`, after the JSON types have been told apart. */
  datatype Recipe = Hex(text: string) | Fill(value: int, length: int, count: int) | NotIntegers | OtherFields

  const MAX_LEAVES := 257
  const MAX_PAYLOAD := 16 * 1024 * 1024 + 1

  function HexDigit(c: char): Option<nat> {
    if '0' <= c <= '9' then Some(c as int - '0' as int)
    else if 'a' <= c <= 'f' then Some(c as int - 'a' as int + 10)
    else None
  }

  predicate IsHex(text: string) {
    |text| % 2 == 0 && forall i | 0 <= i < |text| :: HexDigit(text[i]) != None
  }

  function FromHex(text: string): bytes
    requires IsHex(text)
  {
    if text == [] then []
    else [(HexDigit(text[0]).value * 16 + HexDigit(text[1]).value) as byte] + FromHex(text[2..])
  }

  const HEX := "0123456789abcdef"

  function ToHex(b: bytes): string {
    if b == [] then "" else [HEX[b[0] / 16], HEX[b[0] % 16]] + ToHex(b[1..])
  }

  lemma {:induction false} HexDigitIs(c: char, v: nat)
    ensures HexDigit(c) == Some(v) <==> v < 16 && HEX[v] == c
  {}

  /** Hexadecimal text is read as the bytes it is written from, and nothing else is read. */
  lemma {:induction false} HexExactlyWhen(text: string, b: bytes)
    ensures IsHex(text) && FromHex(text) == b <==> text == ToHex(b)
    decreases |text| + |b|
  {
    if |text| >= 2 && b != [] {
      var x, y, v, rest := text[0], text[1], b[0], text[2..];
      HexExactlyWhen(rest, b[1..]);
      HexPair(x, y, v);
      assert text == [x, y] + rest && b == [v] + b[1..];
      assert IsHex(text) <==> HexDigit(x) != None && HexDigit(y) != None && IsHex(rest);
      hide HexDigit, IsHex;
      assert text == ToHex(b) <==> [x, y] == [HEX[v / 16], HEX[v % 16]] && rest == ToHex(b[1..]) by {
        assert ToHex(b) == [HEX[v / 16], HEX[v % 16]] + ToHex(b[1..]);
        assert ToHex(b)[..2] == [HEX[v / 16], HEX[v % 16]] && ToHex(b)[2..] == ToHex(b[1..]);
      }
    }
  }

  lemma {:induction false} HexPair(x: char, y: char, v: byte)
    ensures HexDigit(x) != None && HexDigit(y) != None && HexDigit(x).value * 16 + HexDigit(y).value == v
       <==> x == HEX[v / 16] && y == HEX[v % 16]
  {
    HexDigitIs(x, v / 16);
    HexDigitIs(y, v % 16);
    if HexDigit(x) != None && HexDigit(y) != None {
      HexDigitIs(x, HexDigit(x).value);
      HexDigitIs(y, HexDigit(y).value);
    }
  }

  predicate Valid(recipe: Recipe) {
    match recipe
    case Hex(text) => |text| <= 131074 && IsHex(text)
    case Fill(value, length, count) => 0 <= value <= 255 && 0 <= length <= 65537 && 1 <= count <= 257
    case _ => false
  }

  function LeafOf(recipe: Recipe): bytes
    requires Valid(recipe)
  {
    if recipe.Hex? then FromHex(recipe.text) else seq(recipe.length, _ => recipe.value)
  }

  function CountOf(recipe: Recipe): nat
    requires Valid(recipe)
  {
    if recipe.Hex? then 1 else recipe.count
  }

  function Copies(leaf: bytes, count: nat): seq<bytes> { seq(count, _ => leaf) }

  function Expand(recipes: seq<Recipe>): seq<bytes>
    requires forall recipe | recipe in recipes :: Valid(recipe)
  {
    if recipes == [] then []
    else
      var last := recipes[|recipes| - 1];
      Expand(recipes[..|recipes| - 1]) + Copies(LeafOf(last), CountOf(last))
  }

  ghost predicate Admissible(recipes: seq<Recipe>) {
    && |recipes| <= MAX_LEAVES
    && (forall recipe | recipe in recipes :: Valid(recipe))
    && |Expand(recipes)| <= MAX_LEAVES
    && TotalBytes(Expand(recipes)) <= MAX_PAYLOAD
  }

  /**
   * `case_leaves`: the bounds are checked entry by entry before anything is materialised, yet
   * exactly the lists whose full expansion is within bounds are admitted.
   */
  method CaseLeaves(recipes: seq<Recipe>) returns (r: Result<seq<bytes>, Refusal>)
    ensures r.Ok? <==> Admissible(recipes)
    ensures r.Ok? ==> r.value == Expand(recipes)
  {
    var leaves: seq<bytes> := [];
    var total := 0;
    if |recipes| > MAX_LEAVES {
      return Err(RecipeBound);
    }
    for i := 0 to |recipes|
      invariant forall recipe | recipe in recipes[..i] :: Valid(recipe)
      invariant leaves == Expand(recipes[..i]) && total == TotalBytes(leaves)
      invariant |leaves| <= MAX_LEAVES && total <= MAX_PAYLOAD
    {
      var recipe := recipes[i];
      if !Valid(recipe) {
        return Err(match recipe
                   case Hex(_) => PayloadHex
                   case Fill(_, _, _) => RecipeBound
                   case NotIntegers => RecipeInteger
                   case OtherFields => RecipeFields);
      }
      var leaf, count := LeafOf(recipe), CountOf(recipe);
      ghost var before := leaves;
      assert recipes[..i + 1][..i] == recipes[..i] && recipes[..i + 1][i] == recipe;
      total := total + |leaf| * count;
      TotalOfCopies(before, leaf, count);
      if !(|leaves| + count <= MAX_LEAVES && total <= MAX_PAYLOAD) {
        if forall x | x in recipes :: Valid(x) { ExpandGrows(recipes, i + 1); }
        return Err(PayloadBound);
      }
      leaves := leaves + Copies(leaf, count);
    }
    assert recipes[..|recipes|] == recipes;
    return Ok(leaves);
  }

  /** What each kind of entry adds to the leaves. */
  lemma {:induction false} ExpandGains(recipes: seq<Recipe>, recipe: Recipe)
    requires (forall r | r in recipes :: Valid(r)) && Valid(recipe)
    ensures Expand([]) == []
    ensures match recipe
            case Hex(text) =>
              exists leaf :: text == ToHex(leaf) && Expand(recipes + [recipe]) == Expand(recipes) + [leaf]
            case Fill(value, length, count) =>
              Expand(recipes + [recipe]) == Expand(recipes) + seq(count, _ => seq(length, _ => value))
  {
    assert (recipes + [recipe])[..|recipes|] == recipes;
    if recipe.Hex? {
      HexExactlyWhen(recipe.text, FromHex(recipe.text));
      assert Copies(FromHex(recipe.text), 1) == [FromHex(recipe.text)];
    }
  }

  lemma {:induction false} TotalConcat(a: seq<bytes>, b: seq<bytes>)
    ensures TotalBytes(a + b) == TotalBytes(a) + TotalBytes(b)
  {
    if a == [] {
      assert a + b == b;
    } else {
      TotalConcat(a[1..], b);
      assert (a + b)[1..] == a[1..] + b;
    }
  }

  lemma {:induction false} TotalOfCopies(before: seq<bytes>, leaf: bytes, count: nat)
    ensures TotalBytes(before + Copies(leaf, count)) == TotalBytes(before) + |leaf| * count
  {
    TotalConcat(before, Copies(leaf, count));
    CopiesTotal(leaf, count);
  }

  lemma {:induction false} CopiesTotal(leaf: bytes, count: nat)
    ensures TotalBytes(Copies(leaf, count)) == |leaf| * count
  {
    if count > 0 {
      CopiesTotal(leaf, count - 1);
      assert Copies(leaf, count)[1..] == Copies(leaf, count - 1);
    }
  }

  /** Expanding more entries never gives fewer leaves or bytes. */
  lemma {:induction false} ExpandGrows(recipes: seq<Recipe>, i: nat)
    requires i <= |recipes| && forall recipe | recipe in recipes :: Valid(recipe)
    ensures |Expand(recipes[..i])| <= |Expand(recipes)|
    ensures TotalBytes(Expand(recipes[..i])) <= TotalBytes(Expand(recipes))
    decreases |recipes|
  {
    if i == |recipes| {
      assert recipes[..i] == recipes;
    } else {
      var shorter := recipes[..|recipes| - 1];
      ExpandGrows(shorter, i);
      assert shorter[..i] == recipes[..i];
      var last := recipes[|recipes| - 1];
      TotalConcat(Expand(shorter), Copies(LeafOf(last), CountOf(last)));
    }
  }

  /** An admitted case makes a carrier that decodes to exactly its leaves. */
  lemma {:induction false} InputCarrierDecodes(recipes: seq<Recipe>)
    requires Admissible(recipes)
    ensures Unframed(Framed(Expand(recipes))) == Some(Expand(recipes))
    ensures |Framed(Expand(recipes))| <= 8 + 8 * MAX_LEAVES + MAX_PAYLOAD
  {
    var leaves := Expand(recipes);
    forall leaf | leaf in leaves ensures |leaf| < U64 { LeafWithinTotal(leaves, leaf); }
    UnframedInvertsFramed(leaves);
    FramesLength(leaves);
  }

  lemma {:induction false} LeafWithinTotal(leaves: seq<bytes>, leaf: bytes)
    requires leaf in leaves
    ensures |leaf| <= TotalBytes(leaves)
  {
    if leaf != leaves[0] { LeafWithinTotal(leaves[1..], leaf); }
  }
}
