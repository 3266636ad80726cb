/**
 * The offline doctor bundle: an inventory of files packed behind a fixed header, admitted
 * only when its paths, loaders and roles hang together.
 */
module DoctorBundle {
  import opened Common
  import opened Sequences
  import Elf
  import Leb128

  datatype Refusal =
    | Selector | EmptyInventory | TooManyFiles | TotalPathBytes | FileIsAncestor | Image(reason: Elf.Refusal)
    | LoaderMissing | LoaderNeedsLoader | RoleMissing | FieldOverflow | BundleTooLarge

  const MAGIC: bytes := ['S' as int, 'P' as int, 'X' as int, 'D' as int, 'O' as int, 'C' as int, '1' as int, 0]
  const ELF_MAGIC: bytes := [0x7f, 'E' as int, 'L' as int, 'F' as int]
  const ABSENT := 0xFFFF_FFFF
  const ARCHITECTURE: byte := 1
  const MAX_BYTES := 1024 * 1024 * 1024
  const MAX_FILES := 4096
  const MAX_PATH_BYTES := 1024
  const MAX_TOTAL_PATH_BYTES := 1024 * 1024
  const MAX_COMPONENTS := 32
  const MAX_COMPONENT_BYTES := 255
  const SLASH: byte := '/' as int

  // --- Paths ---

  predicate IsAlphanumeric(b: byte) {
    'A' as int <= b <= 'Z' as int || 'a' as int <= b <= 'z' as int || '0' as int <= b <= '9' as int
  }

  predicate IsAdmitted(b: byte) {
    IsAlphanumeric(b) || b == '.' as int || b == '_' as int || b == '+' as int || b == '-' as int
  }

  predicate AllAdmitted(b: bytes) { b != [] && forall i | 0 <= i < |b| :: IsAdmitted(b[i]) }

  /** The component pattern: its end anchor also matches before one final line feed. */
  predicate MatchesComponent(b: bytes) {
    AllAdmitted(b) || (b != [] && b[|b| - 1] == 10 && AllAdmitted(b[..|b| - 1]))
  }

  function SplitPath(path: bytes): (parts: seq<bytes>)
    ensures |parts| > 0
  {
    if path == [] then [[]]
    else
      var rest := SplitPath(path[1..]);
      if path[0] == SLASH then [[]] + rest else [[path[0]] + rest[0]] + rest[1..]
  }

  predicate ValidComponent(b: bytes) {
    0 < |b| <= MAX_COMPONENT_BYTES && b != ['.' as int] && b != ['.' as int, '.' as int] && MatchesComponent(b)
  }

  /** `validate_path`. */
  predicate ValidPath(path: bytes) {
    && 0 < |path| <= MAX_PATH_BYTES && |SplitPath(path)| <= MAX_COMPONENTS
    && forall i | 0 <= i < |SplitPath(path)| :: ValidComponent(SplitPath(path)[i])
  }

  /** What the validator's description promises: admitted bytes and separators only. */
  predicate WithinAlphabet(path: bytes) { forall i | 0 <= i < |path| :: IsAdmitted(path[i]) || path[i] == SLASH }

  predicate Loose(b: bytes) { forall i | 0 <= i < |b| :: IsAdmitted(b[i]) || b[i] == 10 || b[i] == SLASH }

  lemma {:induction false} LooseParts(path: bytes)
    requires forall i | 0 <= i < |SplitPath(path)| :: Loose(SplitPath(path)[i])
    ensures Loose(path)
  {
    if path != [] {
      var rest, all := SplitPath(path[1..]), SplitPath(path);
      assert Loose(all[0]);
      if path[0] != SLASH {
        assert all[0][0] == path[0] && all[0][1..] == rest[0];
        assert forall i | 0 <= i < |rest[0]| :: rest[0][i] == all[0][i + 1];
      }
      forall i | 0 <= i < |rest| ensures Loose(rest[i]) {
        if path[0] == SLASH { assert all[i + 1] == rest[i]; } else if i > 0 { assert all[i] == rest[i]; }
      }
      LooseParts(path[1..]);
      assert path == [path[0]] + path[1..];
    }
  }

  /** An admitted path is within the promised alphabet exactly when it contains no line feed. */
  lemma {:induction false} AlphabetExactlyWhen(path: bytes)
    requires ValidPath(path)
    ensures WithinAlphabet(path) <==> 10 !in path
  {
    forall i | 0 <= i < |SplitPath(path)| ensures Loose(SplitPath(path)[i]) {
      assert ValidComponent(SplitPath(path)[i]);
    }
    LooseParts(path);
  }

  lemma {:induction false} SplitWhole(part: bytes)
    requires SLASH !in part
    ensures SplitPath(part) == [part]
  {
    if part != [] {
      SplitWhole(part[1..]);
      assert part == [part[0]] + part[1..];
    }
  }

  /** A component may end in a line feed and still be admitted. */
  lemma {:induction false} LineFeedAdmitted()
    ensures ValidPath(['a' as int, 10]) && !WithinAlphabet(['a' as int, 10])
  {
    var path: bytes := ['a' as int, 10];
    SplitWhole(path);
    assert AllAdmitted(path[..1]);
    assert !IsAdmitted(path[1]);
  }

  // --- Order ---

  ghost predicate StrictlySorted(paths: seq<bytes>) { forall i, j | 0 <= i < j < |paths| :: Less(paths[i], paths[j]) }

  /** Puts a path in its place. */
  method Insert(paths: seq<bytes>, path: bytes) returns (r: seq<bytes>)
    requires StrictlySorted(paths) && path !in paths
    ensures StrictlySorted(r) && (set p | p in r) == (set p | p in paths) + {path}
  {
    var i := 0;
    while i < |paths| && Less(paths[i], path)
      invariant 0 <= i <= |paths|
      invariant forall k | 0 <= k < i :: Less(paths[k], path)
    {
      i := i + 1;
    }
    r := paths[..i] + [path] + paths[i..];
    forall k | i <= k < |paths| ensures Less(path, paths[k]) {
      LessTotal(path, paths[i]);
      if k > i { LessTransitive(path, paths[i], paths[k]); }
    }
  }

  /** `sorted`: the keys in byte order. */
  method Sorted(keys: set<bytes>) returns (paths: seq<bytes>)
    ensures StrictlySorted(paths) && (set p | p in paths) == keys
  {
    paths := [];
    var rest := keys;
    while rest != {}
      invariant rest <= keys
      invariant StrictlySorted(paths) && (set p | p in paths) == keys - rest
      decreases rest
    {
      var path :| path in rest;
      assert path !in paths;
      paths := Insert(paths, path);
      rest := rest - {path};
    }
  }

  // --- The packed bundle ---

  datatype Entry = Entry(path: bytes, executable: bool, content: bytes)
  datatype Bundle = Bundle(selector: bytes, roleMask: nat, indices: seq<nat>, entries: seq<Entry>)

  function PackEntry(e: Entry): bytes {
    Le(|e.path|, 2) + [if e.executable then 1 else 0, 0] + Le(|e.content|, 8) + e.path + e.content
  }

  function PackEntries(entries: seq<Entry>): bytes {
    if entries == [] then [] else PackEntry(entries[0]) + PackEntries(entries[1..])
  }

  function PackHeader(b: Bundle): bytes
    requires |b.indices| == 3
  {
    MAGIC + [ARCHITECTURE] + Le(b.roleMask, 1) + Le(|b.selector|, 2) + Le(|b.entries|, 4)
    + Le(b.indices[0], 4) + Le(b.indices[1], 4) + Le(b.indices[2], 4)
  }

  function Pack(b: Bundle): bytes
    requires |b.indices| == 3
  {
    PackHeader(b) + b.selector + PackEntries(b.entries)
  }

  /** Every packed integer fits its field. */
  predicate Fits(b: Bundle) {
    && |b.indices| == 3 && b.roleMask < 256 && |b.selector| < 0x1_0000 && |b.entries| < 0x1_0000_0000
    && (forall i | 0 <= i < 3 :: b.indices[i] < 0x1_0000_0000)
    && (forall i | 0 <= i < |b.entries| :: EntryFits(b.entries[i]))
  }

  predicate EntryFits(e: Entry) { |e.path| < 0x1_0000 && |e.content| < 0x1_0000_0000_0000_0000 }

  function EntryBytes(entries: seq<Entry>): nat {
    if entries == [] then 0 else 12 + |entries[0].path| + |entries[0].content| + EntryBytes(entries[1..])
  }

  lemma {:induction false} PackedLength(b: Bundle)
    requires |b.indices| == 3
    ensures |Pack(b)| == 28 + |b.selector| + EntryBytes(b.entries)
  {
    EntriesLength(b.entries);
  }

  lemma {:induction false} EntriesLength(entries: seq<Entry>)
    ensures |PackEntries(entries)| == EntryBytes(entries)
  {
    if entries != [] { EntriesLength(entries[1..]); }
  }

  // --- The inverse: reading a bundle back ---

  function UnpackEntry(c: bytes, at: nat): Option<(Entry, nat)> {
    if at + 12 > |c| then None
    else
      var pathSize, contentSize := Field(c, at, 2), Field(c, at + 4, 8);
      var path := at + 12;
      var content := path + pathSize;
      if content + contentSize > |c| || c[at + 2] > 1 || c[at + 3] != 0 then None
      else Some((Entry(c[path..content], c[at + 2] == 1, c[content..content + contentSize]), content + contentSize))
  }

  function UnpackEntries(c: bytes, at: nat, count: nat): Option<seq<Entry>>
    decreases count
  {
    if count == 0 then (if at == |c| then Some([]) else None)
    else match UnpackEntry(c, at)
      case None => None
      case Some(first) =>
        match UnpackEntries(c, first.1, count - 1)
        case None => None
        case Some(rest) => Some([first.0] + rest)
  }

  function Unpack(c: bytes): Option<Bundle> {
    if |c| < 28 || c[..8] != MAGIC || c[8] != ARCHITECTURE then None
    else
      var selectorSize := Field(c, 10, 2);
      if 28 + selectorSize > |c| then None
      else match UnpackEntries(c, 28 + selectorSize, Field(c, 12, 4))
        case None => None
        case Some(entries) =>
          Some(Bundle(c[28..28 + selectorSize], c[9], [Field(c, 16, 4), Field(c, 20, 4), Field(c, 24, 4)], entries))
  }

  lemma {:induction false} PackedField(c: bytes, before: bytes, n: nat, width: nat, after: bytes)
    requires c == before + Le(n, width) + after && n < Pow256(width)
    ensures |before| + width <= |c| && Field(c, |before|, width) == n
  {
    LeRoundTrip(n, width);
    assert c[|before|..|before| + width] == Le(n, width);
  }

  /** The fixed fields of an entry. */
  lemma {:induction false} EntryFields(c: bytes, before: bytes, e: Entry, size: bytes, flags: bytes, length: bytes)
    requires size == Le(|e.path|, 2) && length == Le(|e.content|, 8) && |flags| == 2 && EntryFits(e)
    requires before + size + flags + length <= c
    ensures Field(c, |before|, 2) == |e.path| && Field(c, |before| + 4, 8) == |e.content|
    ensures c[|before| + 2..|before| + 4] == flags
  {
    FieldWidths();
    assert before + size <= c;
    HeaderField(c, before, |e.path|, 2);
    HeaderField(c, before + size + flags, |e.content|, 8);
  }

  /** The fields of an entry, then its path, then its content. */
  lemma {:induction false} EntryParts(c: bytes, before: bytes, e: Entry, packed: bytes)
    requires packed == PackEntry(e) && before + packed <= c && EntryFits(e)
    ensures |packed| == 12 + |e.path| + |e.content|
    ensures Field(c, |before|, 2) == |e.path| && Field(c, |before| + 4, 8) == |e.content|
    ensures c[|before| + 2] == (if e.executable then 1 else 0) && c[|before| + 3] == 0
    ensures c[|before| + 12..|before| + 12 + |e.path|] == e.path
    ensures c[|before| + 12 + |e.path|..|before| + |packed|] == e.content
  {
    var size, length, flags := Le(|e.path|, 2), Le(|e.content|, 8), [if e.executable then 1 else 0, 0];
    var front := before + size + flags + length;
    Concatenated(before, size + flags + length + e.path, e.content);
    Concatenated(before, size + flags + length, e.path);
    Concatenated(before, size + flags, length);
    Concatenated(before, size, flags);
    PartsOfPrefix(front, e.path, e.content, c);
    EntryFields(c, before, e, size, flags, length);
    assert c[|before| + 2..|before| + 4][0] == c[|before| + 2] && c[|before| + 2..|before| + 4][1] == c[|before| + 3];
  }

  lemma {:induction false} UnpackOne(c: bytes, before: bytes, e: Entry, packed: bytes)
    requires packed == PackEntry(e) && before + packed <= c && EntryFits(e)
    ensures UnpackEntry(c, |before|) == Some((e, |before + packed|))
  {
    EntryParts(c, before, e, packed);
  }

  lemma {:induction false} UnpackAll(c: bytes, before: bytes, entries: seq<Entry>)
    requires c == before + PackEntries(entries) && forall i | 0 <= i < |entries| :: EntryFits(entries[i])
    ensures UnpackEntries(c, |before|, |entries|) == Some(entries)
    decreases |entries|
  {
    if entries == [] {
      assert c == before;
    } else {
      var packed := PackEntry(entries[0]);
      assert c == (before + packed) + PackEntries(entries[1..]);
      UnpackOne(c, before, entries[0], packed);
      UnpackAll(c, before + packed, entries[1..]);
      assert [entries[0]] + entries[1..] == entries;
    }
  }

  lemma {:induction false} HeaderField(c: bytes, before: bytes, n: nat, width: nat)
    requires before + Le(n, width) <= c && n < Pow256(width)
    ensures |before| + width <= |c| && Field(c, |before|, width) == n
  {
    var front := before + Le(n, width);
    assert c == before + Le(n, width) + c[|front|..];
    PackedField(c, before, n, width, c[|front|..]);
  }

  /** The fixed fields, read from anything that begins with the packed header. */
  lemma {:induction false} UnpackHeader(c: bytes, b: Bundle, header: bytes)
    requires Fits(b) && header == PackHeader(b) && header <= c
    ensures |header| == 28 && c[..8] == MAGIC && c[8] == ARCHITECTURE && c[9] == b.roleMask
    ensures Field(c, 10, 2) == |b.selector| && Field(c, 12, 4) == |b.entries|
    ensures Field(c, 16, 4) == b.indices[0] && Field(c, 20, 4) == b.indices[1] && Field(c, 24, 4) == b.indices[2]
  {
    FieldWidths();
    assert c[..28] == header;
    assert Le(b.roleMask, 1) == [b.roleMask];
    assert c[..8] == header[..8] == MAGIC;
    var h0 := MAGIC + [ARCHITECTURE] + Le(b.roleMask, 1);
    var h1 := h0 + Le(|b.selector|, 2);
    var h2 := h1 + Le(|b.entries|, 4);
    var h3 := h2 + Le(b.indices[0], 4);
    var h4 := h3 + Le(b.indices[1], 4);
    HeaderField(c, h0, |b.selector|, 2);
    HeaderField(c, h1, |b.entries|, 4);
    HeaderField(c, h2, b.indices[0], 4);
    HeaderField(c, h3, b.indices[1], 4);
    HeaderField(c, h4, b.indices[2], 4);
  }

  lemma {:induction false} UnpackBody(c: bytes, header: bytes, selector: bytes, entries: seq<Entry>)
    requires c == header + selector + PackEntries(entries) && forall i | 0 <= i < |entries| :: EntryFits(entries[i])
    ensures |header| + |selector| <= |c| && c[|header|..|header| + |selector|] == selector
    ensures UnpackEntries(c, |header| + |selector|, |entries|) == Some(entries)
  {
    UnpackAll(c, header + selector, entries);
  }

  /** A packed bundle can be read in one way only. */
  lemma {:induction false} UnpackInvertsPack(b: Bundle)
    requires Fits(b)
    ensures Unpack(Pack(b)) == Some(b)
  {
    var c, header := Pack(b), PackHeader(b);
    UnpackHeader(c, b, header);
    UnpackBody(c, header, b.selector, b.entries);
    assert b.indices == [b.indices[0], b.indices[1], b.indices[2]];
  }

  // --- Nothing else is read ---

  lemma {:induction false} UnpackedEntry(c: bytes, at: nat)
    requires UnpackEntry(c, at).Some?
    ensures var (e, next) := UnpackEntry(c, at).value; at <= next <= |c| && c[at..next] == PackEntry(e)
  {
    hide Field, Le;
    var (e, next) := UnpackEntry(c, at).value;
    var content := at + 12 + |e.path|;
    EntryHead(c, at, if e.executable then 1 else 0);
    SplitAt(c, at, at + 12, content);
    SplitAt(c, at, content, next);
  }

  lemma {:induction false} EntryHead(c: bytes, at: nat, flag: byte)
    requires at + 12 <= |c| && c[at + 2] == flag && c[at + 3] == 0
    ensures c[at..at + 12] == Le(Field(c, at, 2), 2) + [flag, 0] + Le(Field(c, at + 4, 8), 8)
  {
    FieldIsLe(c, at, 2);
    FieldIsLe(c, at + 4, 8);
    assert c[at + 2..at + 4] == [flag, 0];
    SplitAt(c, at, at + 2, at + 4);
    SplitAt(c, at, at + 4, at + 12);
  }

  lemma {:induction false} UnpackedEntries(c: bytes, at: nat, count: nat)
    requires at <= |c| && UnpackEntries(c, at, count).Some?
    ensures var entries := UnpackEntries(c, at, count).value; |entries| == count && c[at..] == PackEntries(entries)
    decreases count
  {
    if count > 0 {
      var (e, next) := UnpackEntry(c, at).value;
      UnpackedEntry(c, at);
      UnpackedEntries(c, next, count - 1);
      SplitAt(c, at, next, |c|);
      var rest := UnpackEntries(c, next, count - 1).value;
      Halves([e], rest);
    }
  }

  lemma {:induction false} UnpackedHeader(c: bytes, b: Bundle)
    requires |c| >= 28 && c[..8] == MAGIC && c[8] == ARCHITECTURE && b.roleMask == c[9]
    requires |b.selector| == Field(c, 10, 2) && |b.entries| == Field(c, 12, 4)
    requires b.indices == [Field(c, 16, 4), Field(c, 20, 4), Field(c, 24, 4)]
    ensures PackHeader(b) == c[..28]
  {
    FieldIsLe(c, 10, 2);
    FieldIsLe(c, 12, 4);
    FieldIsLe(c, 16, 4);
    FieldIsLe(c, 20, 4);
    FieldIsLe(c, 24, 4);
    assert Le(c[9], 1) == [c[9]];
    assert c[..10] == MAGIC + [ARCHITECTURE] + [c[9]];
    SplitAt(c, 0, 10, 12);
    SplitAt(c, 0, 12, 16);
    SplitAt(c, 0, 16, 20);
    SplitAt(c, 0, 20, 24);
    SplitAt(c, 0, 24, 28);
  }

  /** What the decoder accepts is a packed bundle, byte for byte. */
  lemma {:induction false} PackInvertsUnpack(c: bytes)
    requires Unpack(c).Some?
    ensures var b := Unpack(c).value; |b.indices| == 3 && Pack(b) == c
  {
    var b, body := Unpack(c).value, 28 + Field(c, 10, 2);
    UnpackedEntries(c, body, Field(c, 12, 4));
    UnpackedHeader(c, b);
    SplitAt(c, 0, 28, body);
    SplitAt(c, 0, body, |c|);
    assert Pack(b) == PackHeader(b) + b.selector + PackEntries(b.entries);
    hide Field, PackHeader, PackEntries, UnpackEntries, Pack, Unpack;
  }

  // --- Admission ---

  type Inventory = map<bytes, bytes>

  predicate IsLower(b: byte) { 'a' as int <= b <= 'z' as int }

  /** `valid_selector`. */
  predicate ValidSelector(s: bytes) {
    1 <= |s| <= 64 && IsLower(s[0])
    && forall i | 0 <= i < |s| :: IsLower(s[i]) || '0' as int <= s[i] <= '9' as int || s[i] == '-' as int
  }

  predicate IsElf(content: bytes) { ELF_MAGIC <= content }

  /** `lstrip("/")`. */
  function StripSlashes(path: bytes): bytes {
    if path != [] && path[0] == SLASH then StripSlashes(path[1..]) else path
  }

  /** What is left is the path behind its leading slashes. */
  lemma {:induction false} StripSlashesIs(path: bytes)
    ensures exists k | 0 <= k <= |path| ::
              && StripSlashes(path) == path[k..] && (forall i | 0 <= i < k :: path[i] == 47)
              && (k < |path| ==> path[k] != 47)
  {
    if path != [] && path[0] == SLASH {
      StripSlashesIs(path[1..]);
      var k :| 0 <= k <= |path[1..]| && StripSlashes(path[1..]) == path[1..][k..]
               && (forall i | 0 <= i < k :: path[1..][i] == 47) && (k < |path[1..]| ==> path[1..][k] != 47);
      assert path[1..][k..] == path[k + 1..];
      assert forall i | 0 < i < k + 1 :: path[i] == path[1..][i - 1];
    } else {
      assert path[0..] == path;
    }
  }

  /** One path is a directory above the other. */
  predicate IsAbove(directory: bytes, path: bytes) {
    |directory| < |path| && path[..|directory|] == directory && path[|directory|] == SLASH
  }

  ghost predicate NoFileIsAbove(inventory: Inventory) {
    forall p, q | p in inventory && q in inventory :: !IsAbove(q, p)
  }

  /** Every ELF image is admitted, with the interpreter it asks for. */
  ghost predicate ImagesAdmitted(inventory: Inventory, utf8: bytes -> bool) {
    forall p | p in inventory && IsElf(inventory[p]) :: exists loader :: Elf.Interprets(inventory[p], loader, utf8)
  }

  ghost predicate AsksFor(inventory: Inventory, p: bytes, loader: bytes, utf8: bytes -> bool) {
    p in inventory && IsElf(inventory[p]) && Elf.Interprets(inventory[p], Some(loader), utf8)
  }

  /** Every loader asked for is carried, and asks for none itself. */
  ghost predicate LoadersCarried(inventory: Inventory, utf8: bytes -> bool) {
    forall p, loader | AsksFor(inventory, p, loader, utf8) :: LoaderCarried(inventory, loader, utf8)
  }

  ghost predicate RolesCarried(inventory: Inventory, roles: seq<Option<bytes>>) {
    forall o | 0 <= o < |roles| && roles[o].Some? :: roles[o].value in inventory
  }

  function PathBytes(paths: seq<bytes>): nat {
    if paths == [] then 0 else |paths[0]| + PathBytes(paths[1..])
  }

  /** The keys of an inventory in byte order. */
  ghost predicate Lists(paths: seq<bytes>, inventory: Inventory) {
    StrictlySorted(paths) && (set p | p in paths) == inventory.Keys
  }

  function EntriesOf(inventory: Inventory, paths: seq<bytes>): seq<Entry>
    requires forall i | 0 <= i < |paths| :: paths[i] in inventory
  {
    seq(|paths|, i requires 0 <= i < |paths| => Entry(paths[i], IsElf(inventory[paths[i]]), inventory[paths[i]]))
  }

  function Position(paths: seq<bytes>, path: bytes): (i: nat)
    ensures path in paths ==> i < |paths| && paths[i] == path
  {
    if paths == [] || paths[0] == path then 0 else 1 + Position(paths[1..], path)
  }

  function IndexOf(paths: seq<bytes>, role: Option<bytes>): nat {
    if role == None then ABSENT else Position(paths, role.value)
  }

  function MaskOf(roles: seq<Option<bytes>>): nat {
    if roles == [] then 0
    else MaskOf(roles[..|roles| - 1]) + (if roles[|roles| - 1].Some? then Leb128.Pow2(|roles| - 1) else 0)
  }

  function BundleOf(inventory: Inventory, roles: seq<Option<bytes>>, selector: bytes, paths: seq<bytes>): Bundle
    requires |roles| == 3 && forall i | 0 <= i < |paths| :: paths[i] in inventory
  {
    Bundle(selector, MaskOf(roles),
           [IndexOf(paths, roles[0]), IndexOf(paths, roles[1]), IndexOf(paths, roles[2])],
           EntriesOf(inventory, paths))
  }

  /** Everything `build` demands, with `paths` the sorted keys. */
  ghost predicate Admissible(inventory: Inventory, roles: seq<Option<bytes>>, selector: bytes, measureOnly: bool,
                             utf8: bytes -> bool, paths: seq<bytes>)
    requires |roles| == 3
  {
    && Lists(paths, inventory)
    && 1 <= |selector| <= 64 && 97 <= selector[0] <= 122
    && (forall i | 0 <= i < |selector| :: 97 <= selector[i] <= 122 || 48 <= selector[i] <= 57 || selector[i] == 45)
    && 1 <= |paths| <= 4096 && PathBytes(paths) <= 1048576
    && NoFileIsAbove(inventory) && ImagesAdmitted(inventory, utf8) && LoadersCarried(inventory, utf8)
    && RolesCarried(inventory, roles)
    && (forall i | 0 <= i < |paths| :: paths[i] in inventory)
    && (forall i | 0 <= i < |paths| :: EntryFits(Entry(paths[i], false, inventory[paths[i]])))
    && (measureOnly || 28 + |selector| + EntryBytes(EntriesOf(inventory, paths)) <= MAX_BYTES)
  }

  lemma {:induction false} ListedPaths(paths: seq<bytes>, inventory: Inventory)
    requires Lists(paths, inventory)
    ensures forall i | 0 <= i < |paths| :: paths[i] in inventory
    ensures forall p | p in inventory :: p in paths
  {
    forall i | 0 <= i < |paths| ensures paths[i] in inventory { assert paths[i] in (set p | p in paths); }
    forall p | p in inventory ensures p in paths { assert p in (set q | q in paths); }
  }

  method CheckAncestors(paths: seq<bytes>, inventory: Inventory) returns (ok: bool)
    requires Lists(paths, inventory)
    ensures ok <==> NoFileIsAbove(inventory)
  {
    ListedPaths(paths, inventory);
    for i := 0 to |paths|
      invariant forall k, q | 0 <= k < i && q in inventory :: !IsAbove(q, paths[k])
    {
      var path := paths[i];
      for offset := 0 to |path|
        invariant forall q | q in inventory && |q| < offset :: !IsAbove(q, path)
      {
        if path[offset] == SLASH && path[..offset] in inventory {
          assert IsAbove(path[..offset], path);
          return false;
        }
      }
    }
    return true;
  }

  /** The images' interpreters, read one by one. */
  method ReadInterpreters(paths: seq<bytes>, inventory: Inventory, utf8: bytes -> bool)
    returns (r: Result<map<bytes, Option<bytes>>, Refusal>)
    requires Lists(paths, inventory)
    ensures r.Err? ==> !ImagesAdmitted(inventory, utf8)
    ensures r.Ok? ==> ImagesAdmitted(inventory, utf8)
    ensures r.Ok? ==> Records(r.value, inventory, utf8)
  {
    ListedPaths(paths, inventory);
    var interpreters: map<bytes, Option<bytes>> := map[];
    for i := 0 to |paths|
      invariant forall p :: p in interpreters <==> p in paths[..i] && IsElf(inventory[p])
      invariant forall p | p in interpreters :: Elf.Interprets(inventory[p], interpreters[p], utf8)
    {
      var path := paths[i];
      assert paths[..i + 1] == paths[..i] + [path];
      if IsElf(inventory[path]) {
        var image := Elf.ElfInterpreter(inventory[path], utf8);
        if image.Err? {
          return Err(Image(image.error));
        }
        interpreters := interpreters[path := image.value];
      }
    }
    assert paths[..|paths|] == paths;
    forall p | p in inventory && IsElf(inventory[p])
      ensures exists loader :: Elf.Interprets(inventory[p], loader, utf8)
    {
      assert p in interpreters;
    }
    InterpretersRecord(interpreters, inventory, utf8);
    return Ok(interpreters);
  }

  /** The map of interpreters says exactly which image asks for which loader. */
  ghost predicate Records(interpreters: map<bytes, Option<bytes>>, inventory: Inventory, utf8: bytes -> bool) {
    forall p, loader :: AsksFor(inventory, p, loader, utf8) <==> p in interpreters && interpreters[p] == Some(loader)
  }

  lemma {:induction false} InterpretersRecord(interpreters: map<bytes, Option<bytes>>, inventory: Inventory,
                                              utf8: bytes -> bool)
    requires forall p :: p in interpreters <==> p in inventory && IsElf(inventory[p])
    requires forall p | p in interpreters :: Elf.Interprets(inventory[p], interpreters[p], utf8)
    ensures Records(interpreters, inventory, utf8)
  {
    forall p, loader | AsksFor(inventory, p, loader, utf8) ensures interpreters[p] == Some(loader) {
      Elf.InterpreterIsUnique(inventory[p], Some(loader), interpreters[p], utf8);
    }
  }

  ghost predicate LoaderCarried(inventory: Inventory, loader: bytes, utf8: bytes -> bool) {
    StripSlashes(loader) in inventory && forall next :: !AsksFor(inventory, StripSlashes(loader), next, utf8)
  }

  method CheckLoaders(paths: seq<bytes>, inventory: Inventory, interpreters: map<bytes, Option<bytes>>,
                      utf8: bytes -> bool)
    returns (r: Result<(), Refusal>)
    requires Lists(paths, inventory) && Records(interpreters, inventory, utf8)
    ensures r.Ok? <==> LoadersCarried(inventory, utf8)
  {
    ListedPaths(paths, inventory);
    hide AsksFor, StripSlashes;
    for i := 0 to |paths|
      invariant forall k, loader | 0 <= k < i && AsksFor(inventory, paths[k], loader, utf8) ::
                  LoaderCarried(inventory, loader, utf8)
    {
      var path := paths[i];
      if path in interpreters && interpreters[path].Some? {
        var loader := interpreters[path].value;
        var target := StripSlashes(loader);
        assert AsksFor(inventory, path, loader, utf8);
        if target !in inventory {
          return Err(LoaderMissing);
        }
        if target in interpreters && interpreters[target].Some? {
          assert AsksFor(inventory, target, interpreters[target].value, utf8);
          return Err(LoaderNeedsLoader);
        }
        assert LoaderCarried(inventory, loader, utf8);
      }
    }
    return Ok(());
  }

  lemma {:induction false} MissingRole(inventory: Inventory, roles: seq<Option<bytes>>, o: nat)
    requires o < |roles| && roles[o].Some? && roles[o].value !in inventory
    ensures !RolesCarried(inventory, roles)
  {}

  lemma {:induction false} NoMissingRole(inventory: Inventory, roles: seq<Option<bytes>>)
    requires forall k | 0 <= k < |roles| && roles[k].Some? :: roles[k].value in inventory
    ensures RolesCarried(inventory, roles)
  {}

  lemma {:induction false} NoMask()
    ensures MaskOf([]) == 0 && Leb128.Pow2(0) == 1
  {}

  lemma {:induction false} MaskGains(roles: seq<Option<bytes>>, o: nat)
    requires o < |roles|
    requires MaskOf(roles[..o]) < Leb128.Pow2(o)
    ensures MaskOf(roles[..o + 1]) < Leb128.Pow2(o + 1)
    ensures MaskOf(roles[..o + 1])
         == if roles[o].Some? then Leb128.BitOr(MaskOf(roles[..o]), 1 * Leb128.Pow2(o)) else MaskOf(roles[..o])
  {
    hide Leb128.BitOr;
    Leb128.BitOrDisjoint(MaskOf(roles[..o]), 1, o);
    assert roles[..o + 1][..o] == roles[..o];
  }

  /** `role_mask |= 1 << ordinal`, and the index of each role that is given. */
  method PackRoles(paths: seq<bytes>, inventory: Inventory, roles: seq<Option<bytes>>)
    returns (r: Result<(nat, seq<nat>), Refusal>)
    requires Lists(paths, inventory) && |roles| == 3
    ensures r.Ok? <==> RolesCarried(inventory, roles)
    ensures r.Ok? ==> r.value.0 == MaskOf(roles)
    ensures r.Ok? ==> r.value.1 == [IndexOf(paths, roles[0]), IndexOf(paths, roles[1]), IndexOf(paths, roles[2])]
  {
    ListedPaths(paths, inventory);
    hide Leb128.BitOr, IndexOf, Position, Lists, MaskOf, Leb128.Pow2, RolesCarried;
    var mask: nat := 0;
    var indices: seq<nat> := [];
    NoMask();
    for o := 0 to 3
      invariant mask == MaskOf(roles[..o]) && mask < Leb128.Pow2(o)
      invariant |indices| == o && forall k | 0 <= k < o :: indices[k] == IndexOf(paths, roles[k])
      invariant forall k | 0 <= k < o && roles[k].Some? :: roles[k].value in inventory
    {
      if roles[o].Some? && roles[o].value !in inventory {
        MissingRole(inventory, roles, o);
        return Err(RoleMissing);
      }
      MaskGains(roles, o);
      if roles[o].Some? {
        mask := Leb128.BitOr(mask, 1 * Leb128.Pow2(o));
      }
      indices := indices + [IndexOf(paths, roles[o])];
    }
    assert roles[..3] == roles;
    NoMissingRole(inventory, roles);
    return Ok((mask, indices));
  }

  lemma {:induction false} PackAppend(entries: seq<Entry>, e: Entry)
    ensures PackEntries(entries + [e]) == PackEntries(entries) + PackEntry(e)
    decreases |entries|
  {
    if entries == [] {
      assert entries + [e] == [e] && [e][1..] == [];
    } else {
      PackAppend(entries[1..], e);
      assert (entries + [e])[1..] == entries[1..] + [e];
    }
  }

  lemma {:induction false} PackNext(header: bytes, paths: seq<bytes>, inventory: Inventory, i: nat, entry: Entry)
    requires i < |paths| && forall k | 0 <= k < |paths| :: paths[k] in inventory
    requires entry == Entry(paths[i], IsElf(inventory[paths[i]]), inventory[paths[i]])
    ensures header + PackEntries(EntriesOf(inventory, paths[..i + 1]))
         == header + PackEntries(EntriesOf(inventory, paths[..i])) + PackEntry(entry)
  {
    assert EntriesOf(inventory, paths[..i + 1]) == EntriesOf(inventory, paths[..i]) + [entry];
    PackAppend(EntriesOf(inventory, paths[..i]), entry);
  }

  /** Appends the files in order; refuses one whose sizes do not fit their fields. */
  method PackFiles(header: bytes, paths: seq<bytes>, inventory: Inventory) returns (r: Result<bytes, Refusal>)
    requires forall i | 0 <= i < |paths| :: paths[i] in inventory
    ensures r.Ok? <==> forall i | 0 <= i < |paths| :: EntryFits(Entry(paths[i], false, inventory[paths[i]]))
    ensures r.Ok? ==> r.value == header + PackEntries(EntriesOf(inventory, paths))
  {
    var out := header;
    for i := 0 to |paths|
      invariant forall k | 0 <= k < i :: EntryFits(Entry(paths[k], false, inventory[paths[k]]))
      invariant out == header + PackEntries(EntriesOf(inventory, paths[..i]))
    {
      var path, content := paths[i], inventory[paths[i]];
      if !EntryFits(Entry(path, false, content)) {
        return Err(FieldOverflow);
      }
      var entry := Entry(path, IsElf(content), content);
      PackNext(header, paths, inventory, i, entry);
      out := out + PackEntry(entry);
    }
    assert paths[..|paths|] == paths;
    return Ok(out);
  }

  /**
   * `build`: succeeds exactly on admissible inventories, and then writes the bundle that lists
   * every file once, in byte order.
   */
  method Build(inventory: Inventory, roles: seq<Option<bytes>>, selector: bytes, measureOnly: bool, utf8: bytes -> bool)
    returns (r: Result<bytes, Refusal>, paths: seq<bytes>)
    requires |roles| == 3
    ensures Lists(paths, inventory)
    ensures r.Ok? <==> Admissible(inventory, roles, selector, measureOnly, utf8, paths)
    ensures r.Ok? ==> r.value == Pack(BundleOf(inventory, roles, selector, paths))
  {
    paths := Sorted(inventory.Keys);
    ListedPaths(paths, inventory);
    if !ValidSelector(selector) { return Err(Selector), paths; }
    if paths == [] { return Err(EmptyInventory), paths; }
    if |paths| > MAX_FILES { return Err(TooManyFiles), paths; }
    if PathBytes(paths) > MAX_TOTAL_PATH_BYTES { return Err(TotalPathBytes), paths; }
    var apart := CheckAncestors(paths, inventory);
    if !apart { return Err(FileIsAncestor), paths; }
    var interpreters := ReadInterpreters(paths, inventory, utf8);
    if interpreters.Err? { return Err(interpreters.error), paths; }
    var loaders := CheckLoaders(paths, inventory, interpreters.value, utf8);
    if loaders.Err? { return Err(loaders.error), paths; }
    var packed := PackRoles(paths, inventory, roles);
    if packed.Err? { return Err(packed.error), paths; }
    var (mask, indices) := packed.value;
    var header := PackHeader(Bundle(selector, mask, indices, EntriesOf(inventory, paths))) + selector;
    var files := PackFiles(header, paths, inventory);
    if files.Err? { return Err(files.error), paths; }
    var out := files.value;
    PackedLength(BundleOf(inventory, roles, selector, paths));
    if |out| > MAX_BYTES && !measureOnly { return Err(BundleTooLarge), paths; }
    return Ok(out), paths;
  }

  // --- What an emitted bundle says ---

  lemma {:induction false} MaskBelow(roles: seq<Option<bytes>>)
    ensures MaskOf(roles) < Leb128.Pow2(|roles|)
  {
    if roles != [] { MaskBelow(roles[..|roles| - 1]); }
  }

  predicate HasBit(mask: nat, o: nat) { mask / Leb128.Pow2(o) % 2 == 1 }

  /** An admitted bundle fits all its fields, so reading it back recovers everything in it. */
  lemma {:induction false} EmittedBundleDecodes(inventory: Inventory, roles: seq<Option<bytes>>, selector: bytes,
                                                measureOnly: bool, utf8: bytes -> bool, paths: seq<bytes>)
    requires |roles| == 3 && Admissible(inventory, roles, selector, measureOnly, utf8, paths)
    ensures var b := BundleOf(inventory, roles, selector, paths);
            && Fits(b) && Unpack(Pack(b)) == Some(b)
            && |Pack(b)| == 28 + |selector| + EntryBytes(b.entries)
            && (measureOnly || |Pack(b)| <= MAX_BYTES)
            && b.selector == selector && |b.entries| == |paths|
            && forall i | 0 <= i < |paths| ::
                 && b.entries[i].path == paths[i] && paths[i] in inventory
                 && b.entries[i].content == inventory[paths[i]]
                 && (b.entries[i].executable <==>
                     |b.entries[i].content| >= 4
                     && b.entries[i].content[..4] == [0x7f, 'E' as int, 'L' as int, 'F' as int])
  {
    var b := BundleOf(inventory, roles, selector, paths);
    ListedPaths(paths, inventory);
    MaskBelow(roles);
    assert Leb128.Pow2(3) == 8;
    forall i | 0 <= i < |b.entries| ensures EntryFits(b.entries[i]) {
      assert EntryFits(Entry(paths[i], false, inventory[paths[i]]));
    }
    UnpackInvertsPack(b);
    PackedLength(b);
  }

  /** A role's bit is set exactly when its index is in range, and then the index names the role's path. */
  lemma {:induction false} RolesAreNamed(inventory: Inventory, roles: seq<Option<bytes>>, selector: bytes,
                                         measureOnly: bool, utf8: bytes -> bool, paths: seq<bytes>, o: nat)
    requires |roles| == 3 && o < 3 && Admissible(inventory, roles, selector, measureOnly, utf8, paths)
    ensures var b := BundleOf(inventory, roles, selector, paths);
            && (HasBit(b.roleMask, o) <==> roles[o].Some?)
            && (HasBit(b.roleMask, o) <==> b.indices[o] < |b.entries|)
            && (roles[o].None? ==> b.indices[o] == 0xFFFF_FFFF)
            && (roles[o].Some? ==> b.entries[b.indices[o]].path == roles[o].value)
  {
    ListedPaths(paths, inventory);
    MaskBits(roles);
  }

  lemma {:induction false} MaskBits(roles: seq<Option<bytes>>)
    requires |roles| == 3
    ensures forall o | 0 <= o < 3 :: HasBit(MaskOf(roles), o) <==> roles[o].Some?
  {
    var bit := seq(3, o requires 0 <= o < 3 => if roles[o].Some? then 1 else 0);
    assert roles[..2][..1] == roles[..1] && roles[..1][..0] == [];
    assert MaskOf(roles[..1]) == bit[0];
    assert MaskOf(roles[..2]) == bit[0] + 2 * bit[1];
    assert MaskOf(roles) == bit[0] + 2 * bit[1] + 4 * bit[2];
    assert Leb128.Pow2(1) == 2 && Leb128.Pow2(2) == 4;
  }

  /** Paths that passed the path check never overflow their length field. */
  lemma {:induction false} ValidPathsFit(inventory: Inventory)
    requires forall p | p in inventory :: ValidPath(p) && |inventory[p]| < 0x1_0000_0000_0000_0000
    ensures forall p | p in inventory :: EntryFits(Entry(p, false, inventory[p]))
  {}

  /** Byte order leaves no choice: an inventory is listed in one way only. */
  lemma {:induction false} ListingIsUnique(inventory: Inventory, a: seq<bytes>, b: seq<bytes>)
    requires Lists(a, inventory) && Lists(b, inventory)
    ensures a == b
  {
    ListedPaths(a, inventory);
    ListedPaths(b, inventory);
    SameMembersSameOrder(a, b);
  }

  lemma {:induction false} SameMembersSameOrder(a: seq<bytes>, b: seq<bytes>)
    requires StrictlySorted(a) && StrictlySorted(b) && forall p :: p in a <==> p in b
    ensures a == b
    decreases |a|
  {
    assert a != [] ==> a[0] in b;
    assert b != [] ==> b[0] in a;
    if a != [] && b != [] {
      FirstIsLeast(a, b);
      FirstIsLeast(b, a);
      LessTotal(a[0], b[0]);
      TailMembers(a);
      TailMembers(b);
      SameMembersSameOrder(a[1..], b[1..]);
      assert a == [a[0]] + a[1..] && b == [b[0]] + b[1..];
    }
  }

  lemma {:induction false} FirstIsLeast(a: seq<bytes>, b: seq<bytes>)
    requires a != [] && b != [] && StrictlySorted(a) && b[0] in a
    ensures a[0] == b[0] || Less(a[0], b[0])
  {
    var i :| 0 <= i < |a| && a[i] == b[0];
  }

  lemma {:induction false} TailMembers(a: seq<bytes>)
    requires a != [] && StrictlySorted(a)
    ensures StrictlySorted(a[1..]) && forall p :: p in a[1..] <==> p in a && p != a[0]
  {
    forall i | 1 <= i < |a| ensures a[i] != a[0] { LessTotal(a[0], a[i]); }
    assert a == [a[0]] + a[1..];
  }

  // --- Loaders that are not ELF images ---

  /**
   * A carried loader is what the check is after, an ELF image that needs no loader, exactly when
   * it is an ELF image at all: of other content the check asks nothing.
   */
  lemma {:induction false} LoaderIsStaticExactlyWhen(inventory: Inventory, p: bytes, loader: bytes, utf8: bytes -> bool)
    requires ImagesAdmitted(inventory, utf8) && LoadersCarried(inventory, utf8) && AsksFor(inventory, p, loader, utf8)
    ensures StripSlashes(loader) in inventory
    ensures Elf.Interprets(inventory[StripSlashes(loader)], None, utf8) <==> IsElf(inventory[StripSlashes(loader)])
  {
    var target := StripSlashes(loader);
    assert LoaderCarried(inventory, loader, utf8);
    if IsElf(inventory[target]) {
      var next :| Elf.Interprets(inventory[target], next, utf8);
      assert next.Some? ==> AsksFor(inventory, target, next.value, utf8);
    }
    if Elf.Interprets(inventory[target], None, utf8) {
      assert inventory[target][..4] == inventory[target][..7][..4];
    }
  }

  /** A 64-byte header, one interpreter header behind it, and the path "/l" that it points at. */
  function DynamicByte(i: nat): byte {
    if i < 7 then Elf.IDENT[i]
    else if i == 16 then 2          // executable
    else if i == 18 then 62         // machine
    else if i == 20 then 1          // version
    else if i == 32 then 64         // program headers start here
    else if i == 52 then 64         // size of this header
    else if i == 54 then 56         // size of a program header
    else if i == 56 then 1          // number of program headers
    else if i == 64 then 3          // the interpreter
    else if i == 72 then 120        // where its path starts
    else if i == 96 then 3          // how long it is
    else if i == 120 then SLASH
    else if i == 121 then 'l' as int
    else 0
  }

  function DynamicImage(): (c: bytes)
    ensures |c| == 123 && forall i | 0 <= i < 123 :: c[i] == DynamicByte(i)
  {
    seq(123, i requires 0 <= i => DynamicByte(i))
  }

  const IMAGE_PATH: bytes := ['c' as int, 'l' as int, 'a' as int, 'n' as int, 'g' as int]
  const LOADER_PATH: bytes := ['l' as int]
  const ASKED: bytes := [SLASH, 'l' as int]

  /** The image, and a text file where its loader should be. */
  function TextLoader(): Inventory { map[IMAGE_PATH := DynamicImage(), LOADER_PATH := ['#' as int, '!' as int]] }

  lemma {:induction false} ZerosAreZero(b: bytes)
    requires forall i | 0 <= i < |b| :: b[i] == 0
    ensures FromLe(b) == 0
  {
    if b != [] { ZerosAreZero(b[1..]); }
  }

  lemma {:induction false} ByteField(c: bytes, at: nat, width: nat)
    requires 0 < width && at + width <= |c| && forall i | at < i < at + width :: c[i] == 0
    ensures Field(c, at, width) == c[at]
  {
    var b := c[at..at + width];
    ZerosAreZero(b[1..]);
  }

  lemma {:induction false} ImageSlices()
    ensures var c := DynamicImage(); c[..7] == Elf.IDENT && c[..4] == ELF_MAGIC && c[120..123] == ASKED + [0]
  {
    assert forall i | 0 <= i < 7 :: DynamicByte(i) == Elf.IDENT[i];
  }

  lemma {:induction false} ImageFields()
    ensures var c := DynamicImage();
            && Field(c, 16, 2) == 2 && Field(c, 18, 2) == 62 && Field(c, 20, 4) == 1 && Field(c, 32, 8) == 64
            && Field(c, 52, 2) == 64 && Field(c, 54, 2) == 56 && Field(c, 56, 2) == 1
            && Field(c, 64, 4) == 3 && Field(c, 72, 8) == 120 && Field(c, 96, 8) == 3
  {
    hide Field;
    var c := DynamicImage();
    ByteField(c, 16, 2);
    ByteField(c, 18, 2);
    ByteField(c, 20, 4);
    ByteField(c, 32, 8);
    ByteField(c, 52, 2);
    ByteField(c, 54, 2);
    ByteField(c, 56, 2);
    ByteField(c, 64, 4);
    ByteField(c, 72, 8);
    ByteField(c, 96, 8);
  }

  lemma {:induction false} ImageInterpreter(utf8: bytes -> bool)
    requires utf8(ASKED)
    ensures IsElf(DynamicImage()) && Elf.Interprets(DynamicImage(), Some(ASKED), utf8)
  {
    var c := DynamicImage();
    ImageFields();
    ImageSlices();
    hide DynamicByte, DynamicImage, Field;
    var raw := ASKED + [0];
    assert Elf.Header(c) && Elf.Count(c) == 1 && Elf.Base(c, 0) == 64;
    assert Elf.IsInterpreter(c, 0) && Elf.Raw(c, 0) == Some(raw);
    assert raw[..2] == ASKED && Elf.ValidInterpreter(raw, utf8);
  }

  lemma {:induction false} TextIsNotElf()
    ensures TextLoader()[IMAGE_PATH] == DynamicImage() && !IsElf(TextLoader()[LOADER_PATH])
    ensures TextLoader().Keys == {IMAGE_PATH, LOADER_PATH}
  {}

  lemma {:induction false} TextLoaderAsks(utf8: bytes -> bool, p: bytes, loader: bytes)
    requires utf8(ASKED)
    ensures AsksFor(TextLoader(), p, loader, utf8) <==> p == IMAGE_PATH && loader == ASKED
  {
    ImageInterpreter(utf8);
    TextIsNotElf();
    hide DynamicByte, DynamicImage, IsElf, Elf.Interprets;
    if AsksFor(TextLoader(), p, loader, utf8) && p == IMAGE_PATH {
      Elf.InterpreterIsUnique(DynamicImage(), Some(loader), Some(ASKED), utf8);
    }
  }

  lemma {:induction false} TextLoaderCarried(utf8: bytes -> bool)
    requires utf8(ASKED)
    ensures StripSlashes(ASKED) == LOADER_PATH
    ensures ImagesAdmitted(TextLoader(), utf8) && LoadersCarried(TextLoader(), utf8)
  {
    var inventory := TextLoader();
    ImageInterpreter(utf8);
    TextIsNotElf();
    assert ASKED[1..] == LOADER_PATH && StripSlashes(ASKED) == StripSlashes(LOADER_PATH) == LOADER_PATH;
    hide TextLoader, DynamicImage, StripSlashes, IsElf, Elf.Interprets;
    forall p, loader | AsksFor(inventory, p, loader, utf8) ensures LoaderCarried(inventory, loader, utf8) {
      TextLoaderAsks(utf8, p, loader);
      forall next ensures !AsksFor(inventory, LOADER_PATH, next, utf8) { TextLoaderAsks(utf8, LOADER_PATH, next); }
    }
  }

  lemma {:induction false} TextLoaderListed()
    ensures Lists([IMAGE_PATH, LOADER_PATH], TextLoader()) && PathBytes([IMAGE_PATH, LOADER_PATH]) == 6
    ensures EntryBytes(EntriesOf(TextLoader(), [IMAGE_PATH, LOADER_PATH])) == 155
    ensures NoFileIsAbove(TextLoader())
    ensures forall i | 0 <= i < 2 ::
              var p := [IMAGE_PATH, LOADER_PATH][i];
              p in TextLoader() && EntryFits(Entry(p, false, TextLoader()[p]))
  {
    var inventory, paths := TextLoader(), [IMAGE_PATH, LOADER_PATH];
    assert Less(IMAGE_PATH, LOADER_PATH);
    forall p ensures p in (set q | q in paths) <==> p in inventory.Keys {}
    TwoPaths(IMAGE_PATH, LOADER_PATH);
    var entries := EntriesOf(inventory, paths);
    assert entries == [entries[0], entries[1]];
    TwoEntries(entries[0], entries[1]);
  }

  lemma {:induction false} TwoPaths(a: bytes, b: bytes)
    ensures PathBytes([a, b]) == |a| + |b|
  {
    assert [a, b][1..] == [b] && [b][1..] == [];
    assert PathBytes([b]) == |b| + PathBytes([]);
  }

  lemma {:induction false} TwoEntries(a: Entry, b: Entry)
    ensures EntryBytes([a, b]) == 24 + |a.path| + |a.content| + |b.path| + |b.content|
  {
    assert [a, b][1..] == [b] && [b][1..] == [];
    assert EntryBytes([b]) == 12 + |b.path| + |b.content| + EntryBytes([]);
  }

  lemma {:induction false} TextLoaderPathsAreValid()
    ensures ValidPath(IMAGE_PATH) && ValidPath(LOADER_PATH)
  {
    SplitWhole(IMAGE_PATH);
    SplitWhole(LOADER_PATH);
  }

  /** An admissible inventory whose image asks for a loader, and whose loader is a text file. */
  lemma {:induction false} TextLoaderAdmitted(utf8: bytes -> bool, measureOnly: bool)
    requires utf8(ASKED)
    ensures Admissible(TextLoader(), [Some(IMAGE_PATH), None, None], ['s' as int], measureOnly, utf8,
                       [IMAGE_PATH, LOADER_PATH])
    ensures ValidPath(IMAGE_PATH) && ValidPath(LOADER_PATH) && AsksFor(TextLoader(), IMAGE_PATH, ASKED, utf8)
    ensures StripSlashes(ASKED) == LOADER_PATH && !IsElf(TextLoader()[LOADER_PATH])
  {
    hide Lists, NoFileIsAbove, ImagesAdmitted, LoadersCarried, DynamicImage, Elf.Interprets, ValidPath;
    TextLoaderPathsAreValid();
    TextLoaderListed();
    TextLoaderCarried(utf8);
    TextLoaderAsks(utf8, IMAGE_PATH, ASKED);
  }
}
