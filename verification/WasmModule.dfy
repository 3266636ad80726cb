/**
 * The endpoint fixture as a binary module: assembling it section by section, taking a
 * module apart again, and re-emitting it with sections replaced (section 5.5.2 of the
 * WebAssembly Core Specification 1.0).
 */
module WasmModule {
  import opened Common
  import opened Sequences
  import Leb128

  datatype Refusal = FixtureMemoryBound | IndexOutOfRange

  type SectionMap = map<byte, bytes>

  const HEADER: bytes := [0, 0x61, 0x73, 0x6d, 1, 0, 0, 0]
  const ENDPOINT := "spx_pg_wasm_endpoint_reverse_bytes_v1"

  /** The hand-assembled instruction stream of the endpoint, cut where its parts begin. */
  const CODE_FROM: bytes := [0x20, 0x00, 0x21, 0x02]
  const CODE_TO: bytes := [0x20, 0x00, 0x20, 0x01, 0x6a, 0x41, 0x01, 0x6b, 0x21, 0x03]
  const CODE_OPEN: bytes := [0x02, 0x40, 0x03, 0x40]
  const CODE_LEAVE: bytes := [0x20, 0x02, 0x20, 0x03, 0x4e, 0x0d, 0x01]
  const CODE_SAVE: bytes := [0x20, 0x02, 0x2d, 0x00, 0x00, 0x21, 0x04]
  const CODE_COPY: bytes := [0x20, 0x02, 0x20, 0x03, 0x2d, 0x00, 0x00, 0x3a, 0x00, 0x00]
  const CODE_RESTORE: bytes := [0x20, 0x03, 0x20, 0x04, 0x3a, 0x00, 0x00]
  const CODE_UP: bytes := [0x20, 0x02, 0x41, 0x01, 0x6a, 0x21, 0x02]
  const CODE_DOWN: bytes := [0x20, 0x03, 0x41, 0x01, 0x6b, 0x21, 0x03]
  const CODE_CLOSE: bytes := [0x0c, 0x00, 0x0b, 0x0b, 0x0b]

  const CODE_EXCHANGE := CODE_SAVE + (CODE_COPY + CODE_RESTORE)
  const CODE_ADVANCE := CODE_UP + (CODE_DOWN + CODE_CLOSE)
  const CODE_LOOP := CODE_LEAVE + (CODE_EXCHANGE + CODE_ADVANCE)
  const ENDPOINT_CODE := CODE_FROM + (CODE_TO + (CODE_OPEN + CODE_LOOP))

  /** One group of three i32 locals, then the instructions. */
  const LOCALS: bytes := [0x01, 0x03, 0x7f]
  const ENDPOINT_BODY := LOCALS + ENDPOINT_CODE

  const TYPE_SECTION: bytes := [0x01, 0x60, 0x02, 0x7f, 0x7f, 0x00]
  const FUNCTION_SECTION: bytes := [0x01, 0x00]

  /** `i32.const 0; memory.grow; drop`, which `endpoint-grow` inserts behind the locals. */
  const GROW_PREFIX: bytes := [0x41, 0x00, 0x40, 0x00, 0x1a]

  // --- Assembling ---

  function Section(tag: byte, data: bytes): bytes {
    [tag] + Leb128.Encode(|data|) + data
  }

  function Name(text: string): bytes
    requires IsAscii(text)
  {
    Leb128.Encode(|text|) + Ascii(text)
  }

  function ExportSection(): bytes {
    [2] + Name("memory") + [2, 0] + Name(ENDPOINT) + [0, 0]
  }

  function CodeSection(body: bytes): bytes {
    [1] + Leb128.Encode(|body|) + body
  }

  function MemorySection(maxPages: nat): bytes {
    [1, 1, 1] + Leb128.Encode(maxPages)
  }

  function Assemble(maxPages: nat): bytes {
    HEADER + Section(1, TYPE_SECTION) + Section(3, FUNCTION_SECTION)
    + Section(5, MemorySection(maxPages)) + Section(7, ExportSection())
    + Section(10, CodeSection(ENDPOINT_BODY))
  }

  /** `wasm_bytes`: refuses a maximum outside 1..257 pages. */
  function WasmBytes(maxPages: int): Result<bytes, Refusal> {
    if 1 <= maxPages <= 257 then Ok(Assemble(maxPages)) else Err(FixtureMemoryBound)
  }

  // --- Taking apart ---

  /** A Python slice: bounds beyond the end are clamped. */
  function Slice(data: bytes, start: nat, stop: nat): bytes {
    if stop <= |data| then (if start <= stop then data[start..stop] else [])
    else if start <= |data| then data[start..] else []
  }

  datatype Entry = Entry(tag: byte, content: bytes)

  /** The sections from `cursor` on, in file order; None when a length runs off the end. */
  function EntriesFrom(data: bytes, cursor: nat): Option<seq<Entry>>
    decreases |data| - cursor
  {
    if cursor >= |data| then Some([])
    else match Leb128.DecodeAt(data, cursor + 1)
      case None => None
      case Some(pair) =>
        var (length, start) := pair;
        Prepend(Entry(data[cursor], Slice(data, start, start + length)), EntriesFrom(data, start + length))
  }

  function Prepend(entry: Entry, rest: Option<seq<Entry>>): Option<seq<Entry>> {
    if rest == None then None else Some([entry] + rest.value)
  }

  /** The dictionary the entries build up: a later section with the same tag wins. */
  function Collected(entries: seq<Entry>): SectionMap {
    if entries == [] then map[]
    else
      var last := entries[|entries| - 1];
      Collected(entries[..|entries| - 1])[last.tag := last.content]
  }

  function Parsed(data: bytes): Option<SectionMap> {
    match EntriesFrom(data, 8)
    case None => None
    case Some(entries) => Some(Collected(entries))
  }

  /** The sections seen so far, followed by those from `cursor` on. */
  function Continued(seen: seq<Entry>, data: bytes, cursor: nat): Option<seq<Entry>> {
    match EntriesFrom(data, cursor)
    case None => None
    case Some(rest) => Some(seen + rest)
  }

  lemma {:induction false} ContinueOne(seen: seq<Entry>, data: bytes, cursor: nat)
    ensures cursor >= |data| ==> Continued(seen, data, cursor) == Some(seen)
    ensures cursor < |data| && Leb128.DecodeAt(data, cursor + 1) == None ==> Continued(seen, data, cursor) == None
    ensures cursor < |data| && Leb128.DecodeAt(data, cursor + 1) != None ==>
              var (length, start) := Leb128.DecodeAt(data, cursor + 1).value;
              var e := Entry(data[cursor], Slice(data, start, start + length));
              Continued(seen, data, cursor) == Continued(seen + [e], data, start + length)
  {
    assert seen + [] == seen;
    if cursor < |data| && Leb128.DecodeAt(data, cursor + 1).Some? {
      var (length, start) := Leb128.DecodeAt(data, cursor + 1).value;
      var rest := EntriesFrom(data, start + length);
      Concatenated(seen, [Entry(data[cursor], Slice(data, start, start + length))],
                   if rest.Some? then rest.value else []);
    }
  }

  lemma {:induction false} NothingSeen(data: bytes)
    ensures Collected([]) == map[]
    ensures Continued([], data, 8) == EntriesFrom(data, 8)
  {
    if EntriesFrom(data, 8).Some? { assert [] + EntriesFrom(data, 8).value == EntriesFrom(data, 8).value; }
  }

  /** The section loop of `module_variants`, which starts behind the eight-byte header. */
  method ParseSections(data: bytes) returns (r: Result<SectionMap, Refusal>)
    ensures Parsed(data) == if r.Ok? then Some(r.value) else None
  {
    hide Collected, EntriesFrom, Continued, Slice;
    var sections: SectionMap := map[];
    var cursor := 8;
    ghost var seen: seq<Entry> := [];
    NothingSeen(data);
    while cursor < |data|
      invariant sections == Collected(seen)
      invariant Continued(seen, data, cursor) == EntriesFrom(data, 8)
      decreases |data| - cursor
    {
      ContinueOne(seen, data, cursor);
      var tag := data[cursor];
      var read := Leb128.ReadLeb(data, cursor + 1);
      if read.Err? {
        return Err(IndexOutOfRange);
      }
      var (length, start) := read.value;
      var content := Slice(data, start, start + length);
      CollectOne(seen, Entry(tag, content));
      sections := sections[tag := content];
      seen := seen + [Entry(tag, content)];
      cursor := start + length;
    }
    ContinueOne(seen, data, cursor);
    return Ok(sections);
  }

  lemma {:induction false} CollectOne(entries: seq<Entry>, e: Entry)
    ensures Collected(entries + [e]) == Collected(entries)[e.tag := e.content]
  {
    assert (entries + [e])[..|entries|] == entries;
  }

  // --- Emitting ---

  /** The sections whose tag is below `limit`, in ascending order: `sorted(parts.items())`. */
  function Ascending(parts: SectionMap, limit: nat): seq<Entry>
    requires limit <= 256
    decreases |parts|, limit
  {
    if limit == 0 then []
    else Ascending(parts, limit - 1) + (if limit - 1 in parts then [Entry(limit - 1, parts[limit - 1])] else [])
  }

  function Written(entries: seq<Entry>): bytes {
    if entries == [] then [] else Section(entries[0].tag, entries[0].content) + Written(entries[1..])
  }

  function Emit(parts: SectionMap): bytes {
    HEADER + Written(Ascending(parts, 256))
  }

  lemma {:induction false} EntryAt(data: bytes, cursor: nat, length: nat, start: nat)
    requires cursor < |data| && Leb128.DecodeAt(data, cursor + 1) == Some((length, start))
    ensures EntriesFrom(data, cursor)
         == Prepend(Entry(data[cursor], Slice(data, start, start + length)), EntriesFrom(data, start + length))
  {}

  /** Reading one section, whatever surrounds it. */
  lemma {:induction false} ReadOne(data: bytes, before: bytes, e: Entry, next: bytes, after: bytes)
    requires next == before + Section(e.tag, e.content) && data == next + after
    ensures EntriesFrom(data, |before|) == Prepend(e, EntriesFrom(data, |next|))
  {
    hide EntriesFrom, Leb128.DecodeAt, Leb128.Encode;
    var size := Leb128.Encode(|e.content|);
    var start := |before| + 1 + |size|;
    Concatenated(before, [e.tag], size);
    Concatenated(before, [e.tag] + size, e.content);
    Concatenated(before + [e.tag] + size, e.content, after);
    Leb128.DecodeInvertsEncode(before + [e.tag], |e.content|, e.content + after);
    SectionStands(data, before, e.tag, size, e.content, after);
    EntryAt(data, |before|, |e.content|, start);
  }

  lemma {:induction false} SectionStands(data: bytes, before: bytes, tag: byte, size: bytes, content: bytes,
                                         after: bytes)
    requires data == before + [tag] + size + content + after
    ensures var start := |before| + 1 + |size|;
            data[|before|] == tag && start + |content| <= |data| && data[start..start + |content|] == content
  {
    Middle(before + [tag] + size, content, after);
  }

  lemma {:induction false} Prepended(entries: seq<Entry>, rest: Option<seq<Entry>>)
    requires entries != [] && rest == Some(entries[1..])
    ensures Prepend(entries[0], rest) == Some(entries)
  {
    assert [entries[0]] + entries[1..] == entries;
  }

  /** Written sections are read one by one. */
  lemma {:induction false} ReadWritten(data: bytes, before: bytes, entries: seq<Entry>)
    requires data == before + Written(entries)
    ensures EntriesFrom(data, |before|) == Some(entries)
    decreases |entries|
  {
    if entries != [] {
      var e, rest := entries[0], entries[1..];
      var next := before + Section(e.tag, e.content);
      Concatenated(before, Section(e.tag, e.content), Written(rest));
      ReadOne(data, before, e, next, Written(rest));
      ReadWritten(data, next, rest);
      Prepended(entries, EntriesFrom(data, |next|));
    } else {
      assert data == before;
    }
  }

  function Below(parts: SectionMap, limit: nat): SectionMap {
    map t | t in parts && t < limit :: parts[t]
  }

  lemma {:induction false} CollectAscending(parts: SectionMap, limit: nat)
    requires limit <= 256
    ensures Collected(Ascending(parts, limit)) == Below(parts, limit)
    decreases limit
  {
    if limit > 0 {
      CollectAscending(parts, limit - 1);
      var shorter := Ascending(parts, limit - 1);
      if limit - 1 in parts {
        var e := Entry(limit - 1, parts[limit - 1]);
        assert (shorter + [e])[..|shorter|] == shorter;
      } else {
        assert shorter + [] == shorter;
      }
    }
  }

  /** Parsing an emitted module gives back exactly the sections it was emitted from. */
  lemma {:induction false} ParseInvertsEmit(parts: SectionMap)
    ensures Parsed(Emit(parts)) == Some(parts)
  {
    ReadWritten(Emit(parts), HEADER, Ascending(parts, 256));
    CollectAscending(parts, 256);
    assert Below(parts, 256) == parts;
  }

  function FixtureSections(maxPages: nat): SectionMap {
    map[1 := TYPE_SECTION, 3 := FUNCTION_SECTION, 5 := MemorySection(maxPages),
        7 := ExportSection(), 10 := CodeSection(ENDPOINT_BODY)]
  }

  /** Re-emitting what was parsed from the fixture gives the fixture, for every page bound. */
  lemma {:induction false} FixtureIsCanonical(maxPages: nat)
    ensures Emit(FixtureSections(maxPages)) == Assemble(maxPages)
    ensures Parsed(Assemble(maxPages)) == Some(FixtureSections(maxPages))
    ensures WasmBytes(maxPages)
         == if 1 <= maxPages <= 257 then Ok(Emit(FixtureSections(maxPages))) else Err(FixtureMemoryBound)
  {
    var parts := FixtureSections(maxPages);
    EmitFive(parts);
    assert Emit(parts) == Assemble(maxPages);
    ParseInvertsEmit(parts);
  }

  /** What the fixture declares: one function type, and one memory bounded by `maxPages`. */
  lemma {:induction false} FixtureDeclares(maxPages: nat)
    ensures Assemble(maxPages)[..8] == [0, 'a' as int, 's' as int, 'm' as int, 1, 0, 0, 0]
    ensures var parsed := Parsed(Assemble(maxPages));
            && parsed.Some? && parsed.value.Keys == {1, 3, 5, 7, 10}
            && parsed.value[1] == [1, 0x60, 2, 0x7f, 0x7f, 0] && parsed.value[3] == [1, 0]
            && |parsed.value[5]| > 3 && parsed.value[5][..3] == [1, 1, 1]
            && Leb128.DecodeAt(parsed.value[5], 3) == Some((maxPages, |parsed.value[5]|))
  {
    FixtureIsCanonical(maxPages);
    hide Leb128.DecodeAt, Leb128.Encode, Assemble, Parsed, ExportSection, CodeSection;
    HeaderStands(maxPages);
    var memory: bytes := [1, 1, 1];
    Leb128.DecodeInvertsEncode(memory, maxPages, []);
    assert memory + Leb128.Encode(maxPages) + [] == MemorySection(maxPages);
  }

  lemma {:induction false} HeaderStands(maxPages: nat)
    ensures |Assemble(maxPages)| >= 8 && Assemble(maxPages)[..8] == HEADER
  {
    hide Section;
  }

  /** The exports: the memory and the endpoint, by name. */
  lemma {:induction false} ExportsAre()
    ensures ExportSection() == [2, 6] + Ascii("memory") + [2, 0, 37]
                               + Ascii("spx_pg_wasm_endpoint_reverse_bytes_v1") + [0, 0]
  {
    assert |"memory"| == 6 && |ENDPOINT| == 37;
    hide Ascii, Name;
    ShortName("memory");
    ShortName(ENDPOINT);
    Regrouped(Ascii("memory"), Ascii(ENDPOINT));
  }

  lemma {:induction false} ShortName(text: string)
    requires IsAscii(text) && |text| < 128
    ensures Name(text) == [|text|] + Ascii(text)
  {}

  lemma {:induction false} Regrouped(memory: bytes, endpoint: bytes)
    ensures [2] + ([6] + memory) + [2, 0] + ([37] + endpoint) + [0, 0]
         == [2, 6] + memory + [2, 0, 37] + endpoint + [0, 0]
  {
    assert [2] + ([6] + memory) == [2, 6] + memory;
    assert [2, 6] + memory + [2, 0] + ([37] + endpoint) == [2, 6] + memory + [2, 0, 37] + endpoint;
  }

  lemma {:induction false} EmitFive(parts: SectionMap)
    requires parts.Keys == {1, 3, 5, 7, 10}
    ensures Emit(parts) == HEADER + Section(1, parts[1]) + Section(3, parts[3]) + Section(5, parts[5])
                           + Section(7, parts[7]) + Section(10, parts[10])
  {
    hide Written, Section;
    AscendingOne(parts, 0, 1);
    AscendingOne(parts, 2, 3);
    AscendingOne(parts, 4, 5);
    AscendingOne(parts, 6, 7);
    AscendingOne(parts, 8, 10);
    AscendingSkips(parts, 11, 256);
    assert Ascending(parts, 256) == [Entry(1, parts[1]), Entry(3, parts[3]), Entry(5, parts[5]),
                                     Entry(7, parts[7]), Entry(10, parts[10])];
    WrittenFive(Entry(1, parts[1]), Entry(3, parts[3]), Entry(5, parts[5]), Entry(7, parts[7]), Entry(10, parts[10]));
  }

  lemma {:induction false} AscendingOne(parts: SectionMap, first: nat, tag: nat)
    requires first <= tag < 256 && tag in parts
    requires forall t: byte | first <= t < tag :: t !in parts
    ensures Ascending(parts, tag + 1) == Ascending(parts, first) + [Entry(tag, parts[tag])]
  {
    AscendingSkips(parts, first, tag);
  }

  lemma {:induction false} AscendingSkips(parts: SectionMap, first: nat, limit: nat)
    requires first <= limit <= 256
    requires forall t: byte | first <= t < limit :: t !in parts
    ensures Ascending(parts, first) == Ascending(parts, limit)
    decreases limit - first
  {
    if first < limit {
      var last: byte := limit - 1;
      assert last !in parts;
      AscendingSkips(parts, first, limit - 1);
    }
  }

  lemma {:induction false} WrittenFive(a: Entry, b: Entry, c: Entry, d: Entry, e: Entry)
    ensures HEADER + Written([a, b, c, d, e])
         == HEADER + Section(a.tag, a.content) + Section(b.tag, b.content) + Section(c.tag, c.content)
            + Section(d.tag, d.content) + Section(e.tag, e.content)
  {
    assert Written([e]) == Section(e.tag, e.content) by { assert [e][1..] == []; }
    assert Written([d, e]) == Section(d.tag, d.content) + Written([e]) by { assert [d, e][1..] == [e]; }
    assert Written([c, d, e]) == Section(c.tag, c.content) + Written([d, e]) by { assert [c, d, e][1..] == [d, e]; }
    assert Written([b, c, d, e]) == Section(b.tag, b.content) + Written([c, d, e]) by {
      assert [b, c, d, e][1..] == [c, d, e];
    }
    assert [a, b, c, d, e][1..] == [b, c, d, e];
  }

  // --- Variants ---

  /** `replace`: the fixture with one section exchanged or added. */
  function Replace(maxPages: nat, tag: byte, content: bytes): bytes {
    Emit(FixtureSections(maxPages)[tag := content])
  }

  lemma {:induction false} ReplaceChangesOneSection(maxPages: nat, tag: byte, content: bytes)
    ensures Parsed(Replace(maxPages, tag, content)) == Some(FixtureSections(maxPages)[tag := content])
  {
    ParseInvertsEmit(FixtureSections(maxPages)[tag := content]);
  }

  /** The single function body inside a code section: count, size, body. */
  function BodyOf(code: bytes): Option<bytes> {
    match Leb128.DecodeAt(code, 1)
    case None => None
    case Some(pair) => Some(Slice(code, pair.1, pair.1 + pair.0))
  }

  lemma {:induction false} BodyOfCodeSection(body: bytes)
    ensures BodyOf(CodeSection(body)) == Some(body)
  {
    var code := CodeSection(body);
    var size := Leb128.Encode(|body|);
    assert code == [1] + size + body;
    Leb128.DecodeInvertsEncode([1], |body|, body);
    assert code[1 + |size|..1 + |size| + |body|] == body;
  }

  function GrowBody(body: bytes): bytes
    requires |body| >= 3
  {
    body[..3] + GROW_PREFIX + body[3..]
  }

  /** The `endpoint-grow` module. */
  function EndpointGrow(maxPages: nat): bytes {
    Replace(maxPages, 10, CodeSection(GrowBody(ENDPOINT_BODY)))
  }

  const MODULE_MAX := 16777216

  function PayloadSize(base: bytes): int { MODULE_MAX - |base| - 5 }

  /** The padding a module carries: the custom section's name and the zero bytes. */
  function Padding(base: bytes): bytes
    requires PayloadSize(base) >= 2
  {
    [1, 'x' as int] + seq(PayloadSize(base) - 2, _ => 0)
  }

  /** `module-exact-max`: a custom section named "x" pads the module to the size limit. */
  function Padded(base: bytes): bytes
    requires PayloadSize(base) >= 2
  {
    base + [0] + Leb128.Encode(PayloadSize(base)) + Padding(base)
  }

  /**
   * The padding lands on the limit exactly when the payload length takes four LEB bytes,
   * that is when the base module leaves at least 2^21 bytes of payload.
   */
  lemma {:induction false} PaddingIsExact(base: bytes)
    requires PayloadSize(base) >= 2
    ensures |Padded(base)| == MODULE_MAX <==> PayloadSize(base) >= 0x20_0000
  {
    var payload := PayloadSize(base);
    Leb128.EncodedLength(payload, 3);
    Leb128.EncodedLength(payload, 4);
    PowersOfSeven();
  }

  lemma {:induction false} PowersOfSeven()
    ensures Leb128.Pow2(21) == 0x20_0000
    ensures Leb128.Pow2(28) == 0x1000_0000
  {
    Leb128.ShiftGroup(0, 0, 0, 0);
    Leb128.ShiftGroup(0, 0, 7, 0);
    Leb128.ShiftGroup(0, 0, 14, 0);
    Leb128.ShiftGroup(0, 0, 21, 0);
  }

  /** The one module the variant pads is far below the limit, so its padding lands on it. */
  lemma {:induction false} FixturePaddingIsExact()
    ensures PayloadSize(Assemble(257)) >= 0x20_0000 && |Padded(Assemble(257))| == MODULE_MAX
  {
    FixtureIsSmall(257);
    PaddingIsExact(Assemble(257));
  }

  lemma {:induction false} FixtureIsSmall(maxPages: nat)
    requires 1 <= maxPages <= 257
    ensures |Assemble(maxPages)| < 0x1000
  {
    Leb128.EncodedLength(maxPages, 2);
    Leb128.EncodedLength(|ENDPOINT_BODY|, 2);
    Leb128.EncodedLength(|CodeSection(ENDPOINT_BODY)|, 2);
    Leb128.EncodedLength(|ExportSection()|, 2);
    Leb128.EncodedLength(|MemorySection(maxPages)|, 2);
  }

  lemma {:induction false} PaddedIsWritten(parts: SectionMap)
    requires PayloadSize(Emit(parts)) >= 2
    ensures Padded(Emit(parts)) == HEADER + Written(Ascending(parts, 256) + [Entry(0, Padding(Emit(parts)))])
  {
    var e := Entry(0, Padding(Emit(parts)));
    WrittenAppend(Ascending(parts, 256), e);
    Concatenated(HEADER, Written(Ascending(parts, 256)), Section(e.tag, e.content));
  }

  lemma {:induction false} WrittenAppend(entries: seq<Entry>, e: Entry)
    ensures Written(entries + [e]) == Written(entries) + Section(e.tag, e.content)
    decreases |entries|
  {
    if entries == [] {
      assert [e][1..] == [];
    } else {
      WrittenAppend(entries[1..], e);
      assert (entries + [e])[1..] == entries[1..] + [e];
      Concatenated(Section(entries[0].tag, entries[0].content), Written(entries[1..]), Section(e.tag, e.content));
    }
  }

  /** Only a custom section is added: every other section is still read back unchanged. */
  lemma {:induction false} PaddingKeepsSections(parts: SectionMap)
    requires PayloadSize(Emit(parts)) >= 2
    ensures Parsed(Padded(Emit(parts))) == Some(parts[0 := Padding(Emit(parts))])
  {
    var e := Entry(0, Padding(Emit(parts)));
    var entries := Ascending(parts, 256);
    PaddedIsWritten(parts);
    ReadWritten(Padded(Emit(parts)), HEADER, entries + [e]);
    assert (entries + [e])[..|entries|] == entries;
    CollectAscending(parts, 256);
    assert Below(parts, 256) == parts;
  }
}
