/**
 * Native result-phase receipts: one text line per case, parsed strictly. The parser accepts
 * exactly the lines that rendering a well-typed row produces.
 */
module PhaseReceipts {
  import opened Common
  import opened Text

  datatype Refusal =
    | WireBound | WireFields | CaseId | ArrayEncoding | ArrayBound | SecondaryStatus | ReleaseIndex | EventDomain
    | CounterEncoding | Status | Boolean | PeakBound | LiveResource
    | WireFraming | CaseCount | DuplicateCase

  const FIELDS: seq<string> := [
    "case_id", "status", "result_verified", "release_status", "retries", "endpoints", "copies_checked",
    "peak_alloc", "peak_handles", "peak_bytes", "live_alloc", "live_handles", "live_bytes",
    "secondary", "releases", "events"]

  /** `counters` holds the twelve numeric fields between the case name and the arrays. */
  datatype Row = Row(caseId: string, counters: seq<nat>, secondary: seq<nat>, releases: seq<seq<nat>>,
                     events: seq<seq<nat>>)

  const NO_LEAF := 4294967295
  const LINE_LIMIT := 256 * 1024
  const BYTE_LIMIT := 1024 * 1024
  const ROW_LIMIT := 128

  predicate NameChar(c: char) {
    'a' <= c <= 'z' || 'A' <= c <= 'Z' || '0' <= c <= '9' || c == '_' || c == '-'
  }

  predicate ValidName(name: string) {
    0 < |name| <= 100 && forall i | 0 <= i < |name| :: NameChar(name[i])
  }

  predicate ValidRelease(r: seq<nat>) { |r| == 2 && r[0] <= 1 && r[1] < 256 }

  /** Phase, direction, leaf, allocations, handles, injected. */
  predicate ValidEvent(e: seq<nat>) {
    && |e| == 6
    && e[0] <= 7 && e[1] <= 1 && (e[2] < 256 || e[2] == NO_LEAF) && e[3] <= 1024 && e[4] <= 256 && e[5] <= 1
    && (e[2] == NO_LEAF <==> e[0] == 3 || e[0] == 4 || e[0] == 5)
    && (e[1] == 1 || e[0] == 7)
  }

  predicate ValidStatus(n: seq<nat>)
    requires |n| == 12
  {
    (n[0] == 0 || n[0] == 10 || n[0] == 11) && (n[2] == 0 || n[2] == 11)
  }

  predicate ValidBooleans(n: seq<nat>)
    requires |n| == 12
  {
    n[1] <= 1 && n[3] <= 1 && n[4] <= 1
  }

  predicate ValidPeaks(n: seq<nat>)
    requires |n| == 12
  {
    n[5] <= 256 && n[6] <= 1024 && n[7] <= 256 && n[8] <= 34 * 1024 * 1024
  }

  predicate NothingLive(n: seq<nat>)
    requires |n| == 12
  {
    n[9] == 0 && n[10] == 0 && n[11] == 0
  }

  /** The domain of rows that an expectation may state. */
  predicate Typed(row: Row) {
    && ValidName(row.caseId)
    && |row.counters| == 12 && ValidStatus(row.counters) && ValidBooleans(row.counters) && ValidPeaks(row.counters)
    && NothingLive(row.counters)
    && |row.secondary| <= 16 && (forall i | 0 <= i < |row.secondary| :: row.secondary[i] == 11)
    && |row.releases| <= 512 && (forall i | 0 <= i < |row.releases| :: ValidRelease(row.releases[i]))
    && |row.events| <= 4096 && (forall i | 0 <= i < |row.events| :: ValidEvent(row.events[i]))
  }

  // --- Rendering ---

  function Decimals(numbers: seq<nat>): seq<string> {
    seq(|numbers|, i requires 0 <= i < |numbers| => Decimal(numbers[i]))
  }

  function Entry(numbers: seq<nat>): string { Join(Decimals(numbers), ':') }

  function Entries(rows: seq<seq<nat>>): seq<string> {
    seq(|rows|, i requires 0 <= i < |rows| => Entry(rows[i]))
  }

  function RenderRows(rows: seq<seq<nat>>): string { Join(Entries(rows), ',') }

  function Singles(numbers: seq<nat>): seq<seq<nat>> {
    seq(|numbers|, i requires 0 <= i < |numbers| => [numbers[i]])
  }

  function Values(row: Row): seq<string> {
    [row.caseId] + Decimals(row.counters)
    + [RenderRows(Singles(row.secondary)), RenderRows(row.releases), RenderRows(row.events)]
  }

  function Words(values: seq<string>): seq<string>
    requires |values| == 16
  {
    seq(16, i requires 0 <= i < 16 => FIELDS[i] + "=" + values[i])
  }

  function RenderLine(row: Row): string
    requires |row.counters| == 12
  {
    "PHASE " + Join(Words(Values(row)), ' ')
  }

  /** The sixteen words of a line, by name. */
  lemma {:induction false} WordsAre(row: Row)
    requires |row.counters| == 12
    ensures var words, n := Words(Values(row)), row.counters;
            && words[0] == "case_id=" + row.caseId && words[1] == "status=" + Decimal(n[0])
            && words[2] == "result_verified=" + Decimal(n[1]) && words[3] == "release_status=" + Decimal(n[2])
            && words[4] == "retries=" + Decimal(n[3]) && words[5] == "endpoints=" + Decimal(n[4])
            && words[6] == "copies_checked=" + Decimal(n[5]) && words[7] == "peak_alloc=" + Decimal(n[6])
            && words[8] == "peak_handles=" + Decimal(n[7]) && words[9] == "peak_bytes=" + Decimal(n[8])
            && words[10] == "live_alloc=" + Decimal(n[9]) && words[11] == "live_handles=" + Decimal(n[10])
            && words[12] == "live_bytes=" + Decimal(n[11])
            && words[13] == "secondary=" + RenderRows(Singles(row.secondary))
            && words[14] == "releases=" + RenderRows(row.releases) && words[15] == "events=" + RenderRows(row.events)
  {
    NamesAre();
    hide RenderRows, Decimal, FIELDS;
  }

  lemma {:induction false} NamesAre()
    ensures FIELDS[0] + "=" == "case_id=" && FIELDS[1] + "=" == "status=" && FIELDS[2] + "=" == "result_verified="
    ensures FIELDS[3] + "=" == "release_status=" && FIELDS[4] + "=" == "retries=" && FIELDS[5] + "=" == "endpoints="
    ensures FIELDS[6] + "=" == "copies_checked=" && FIELDS[7] + "=" == "peak_alloc="
    ensures FIELDS[8] + "=" == "peak_handles=" && FIELDS[9] + "=" == "peak_bytes=" && FIELDS[10] + "=" == "live_alloc="
    ensures FIELDS[11] + "=" == "live_handles=" && FIELDS[12] + "=" == "live_bytes=" && FIELDS[13] + "=" == "secondary="
    ensures FIELDS[14] + "=" == "releases=" && FIELDS[15] + "=" == "events="
  {}

  // --- Arrays of numbers ---

  /** Every part a canonical 64-bit decimal. */
  function ParseNumbers(parts: seq<string>): Option<seq<nat>> {
    if parts == [] then Some([])
    else match (Unsigned(parts[0]), ParseNumbers(parts[1..]))
      case (Some(n), Some(rest)) => Some([n] + rest)
      case _ => None
  }

  function ParseEntries(parts: seq<string>): Option<seq<seq<nat>>> {
    if parts == [] then Some([])
    else match (ParseNumbers(Split(parts[0], ':')), ParseEntries(parts[1..]))
      case (Some(row), Some(rest)) => Some([row] + rest)
      case _ => None
  }

  function ParseRows(text: string): Option<seq<seq<nat>>> {
    if text == [] then Some([]) else ParseEntries(Split(text, ','))
  }

  predicate Small(numbers: seq<nat>) { forall i | 0 <= i < |numbers| :: numbers[i] <= U64_MAX }

  lemma {:induction false} NumbersExactlyWhen(parts: seq<string>, numbers: seq<nat>)
    ensures ParseNumbers(parts) == Some(numbers) <==> Small(numbers) && parts == Decimals(numbers)
    decreases |parts|
  {
    if parts == [] {
      assert numbers == [] <==> |Decimals(numbers)| == 0;
    } else if numbers != [] {
      UnsignedExactlyWhen(parts[0], numbers[0]);
      NumbersExactlyWhen(parts[1..], numbers[1..]);
      assert numbers == [numbers[0]] + numbers[1..];
      assert Decimals(numbers) == [Decimal(numbers[0])] + Decimals(numbers[1..]);
      assert parts == [parts[0]] + parts[1..];
    }
  }

  lemma {:induction false} DecimalsClear(numbers: seq<nat>, avoid: set<char>)
    requires forall c | c in avoid :: !IsDigit(c)
    ensures forall part | part in Decimals(numbers) :: Clear(part, avoid)
  {
    forall i | 0 <= i < |numbers| ensures Clear(Decimal(numbers[i]), avoid) { DecimalClear(numbers[i], avoid); }
  }

  lemma {:induction false} EntryExactlyWhen(part: string, row: seq<nat>)
    ensures ParseNumbers(Split(part, ':')) == Some(row) <==> row != [] && Small(row) && part == Entry(row)
  {
    NumbersExactlyWhen(Split(part, ':'), row);
    if row != [] && part == Entry(row) {
      DecimalsClear(row, {':'});
      SplitInvertsJoin(Decimals(row), ':');
    }
    if Split(part, ':') == Decimals(row) { JoinInvertsSplit(part, ':'); }
  }

  predicate Storable(rows: seq<seq<nat>>) { forall i | 0 <= i < |rows| :: rows[i] != [] && Small(rows[i]) }

  lemma {:induction false} EntriesExactlyWhen(parts: seq<string>, rows: seq<seq<nat>>)
    ensures ParseEntries(parts) == Some(rows) <==> Storable(rows) && parts == Entries(rows)
    decreases |parts|
  {
    if parts == [] {
      assert rows == [] <==> |Entries(rows)| == 0;
    } else if rows != [] {
      EntryExactlyWhen(parts[0], rows[0]);
      EntriesExactlyWhen(parts[1..], rows[1..]);
      EntriesCons(rows);
      assert rows == [rows[0]] + rows[1..];
      assert parts == [parts[0]] + parts[1..];
    }
  }

  lemma {:induction false} EntriesCons(rows: seq<seq<nat>>)
    requires rows != []
    ensures Entries(rows) == [Entry(rows[0])] + Entries(rows[1..])
    ensures Storable(rows) <==> rows[0] != [] && Small(rows[0]) && Storable(rows[1..])
  {
    if rows[0] != [] && Small(rows[0]) && Storable(rows[1..]) {
      forall i | 0 <= i < |rows| ensures rows[i] != [] && Small(rows[i]) {
        if i > 0 { assert rows[i] == rows[1..][i - 1]; }
      }
    }
    if Storable(rows) {
      forall i | 0 <= i < |rows[1..]| ensures rows[1..][i] != [] && Small(rows[1..][i]) {
        assert rows[1..][i] == rows[i + 1];
      }
    }
  }

  lemma {:induction false} EntriesClear(rows: seq<seq<nat>>, avoid: set<char>)
    requires ':' !in avoid && forall c | c in avoid :: !IsDigit(c)
    ensures forall part | part in Entries(rows) :: Clear(part, avoid)
  {
    forall i | 0 <= i < |rows| ensures Clear(Entry(rows[i]), avoid) {
      DecimalsClear(rows[i], avoid);
      JoinClear(Decimals(rows[i]), ':', avoid);
    }
  }

  lemma {:induction false} RenderRowsEmpty(rows: seq<seq<nat>>)
    requires Storable(rows)
    ensures RenderRows(rows) == [] <==> rows == []
  {
    if rows != [] {
      assert |Entry(rows[0])| > 0 by { assert |Decimals(rows[0])[0]| > 0; }
      assert Entries(rows)[0] == Entry(rows[0]);
    }
  }

  /** An array field parses to exactly the rows it renders. */
  lemma {:induction false} RowsExactlyWhen(text: string, rows: seq<seq<nat>>)
    ensures ParseRows(text) == Some(rows) <==> Storable(rows) && text == RenderRows(rows)
  {
    if Storable(rows) { RenderRowsEmpty(rows); }
    if text != [] {
      EntriesExactlyWhen(Split(text, ','), rows);
      if Storable(rows) && text == RenderRows(rows) {
        EntriesClear(rows, {','});
        SplitInvertsJoin(Entries(rows), ',');
      }
      if Split(text, ',') == Entries(rows) { JoinInvertsSplit(text, ','); }
    }
  }

  // --- Lines ---

  predicate StartsWith(s: string, prefix: string) { |prefix| <= |s| && s[..|prefix|] == prefix }

  /** The value behind `key=`, split at the first equals sign. */
  predicate HasKey(item: string, key: string) { StartsWith(item, key + "=") }

  /** The values of the sixteen fields, when the line has exactly those, in order. */
  function ValuesOf(line: string): Option<seq<string>> {
    if !StartsWith(line, "PHASE ") then None
    else
      var items := Split(line[6..], ' ');
      if |items| == 16 && forall i | 0 <= i < 16 :: HasKey(items[i], FIELDS[i]) then
        Some(seq(16, i requires 0 <= i < 16 && |items| == 16 && HasKey(items[i], FIELDS[i])
                  => items[i][|FIELDS[i]| + 1..]))
      else None
  }

  function LineOf(values: seq<string>): string
    requires |values| == 16
  {
    "PHASE " + Join(Words(values), ' ')
  }

  predicate KeyChar(c: char) { 'a' <= c <= 'z' || c == '_' }

  predicate IsKey(key: string) { |key| <= 15 && forall k | 0 <= k < |key| :: KeyChar(key[k]) }

  lemma {:induction false} FieldNames()
    ensures forall i | 0 <= i < 16 :: IsKey(FIELDS[i])
  {
    CounterNames();
    LaterCounterNames();
    assert IsKey(FIELDS[0]) && IsKey(FIELDS[13]) && IsKey(FIELDS[14]) && IsKey(FIELDS[15]);
  }

  lemma {:induction false} CounterNames()
    ensures forall i | 1 <= i < 7 :: IsKey(FIELDS[i])
  {
    assert IsKey(FIELDS[1]) && IsKey(FIELDS[2]) && IsKey(FIELDS[3]);
    assert IsKey(FIELDS[4]) && IsKey(FIELDS[5]) && IsKey(FIELDS[6]);
  }

  lemma {:induction false} LaterCounterNames()
    ensures forall i | 7 <= i < 13 :: IsKey(FIELDS[i])
  {
    assert IsKey(FIELDS[7]) && IsKey(FIELDS[8]) && IsKey(FIELDS[9]);
    assert IsKey(FIELDS[10]) && IsKey(FIELDS[11]) && IsKey(FIELDS[12]);
  }

  /** Without spaces in the values, a line is read back as exactly its values; other lines are not read. */
  lemma {:induction false} ValuesExactlyWhen(line: string, values: seq<string>)
    requires |values| == 16 && forall i | 0 <= i < 16 :: ' ' !in values[i]
    ensures ValuesOf(line) == Some(values) <==> line == LineOf(values)
  {
    var words := Words(values);
    if line == LineOf(values) {
      FieldNames();
      forall w | w in words ensures ' ' !in w {
        var i :| 0 <= i < 16 && words[i] == w;
        assert IsKey(FIELDS[i]);
      }
      SplitInvertsJoin(words, ' ');
      assert line[6..] == Join(words, ' ');
      forall i | 0 <= i < 16 ensures HasKey(words[i], FIELDS[i]) && words[i][|FIELDS[i]| + 1..] == values[i] {}
      assert ValuesOf(line).value == values;
    }
    if ValuesOf(line) == Some(values) {
      var items := Split(line[6..], ' ');
      forall i | 0 <= i < 16 ensures items[i] == words[i] {
        var key := FIELDS[i] + "=";
        assert HasKey(items[i], FIELDS[i]);
        assert items[i] == items[i][..|key|] + items[i][|key|..];
        assert values[i] == items[i][|key|..];
      }
      assert items == words;
      JoinInvertsSplit(line[6..], ' ');
      assert line == line[..6] + line[6..];
    }
  }

  /** No value that was read contains a space. */
  lemma {:induction false} ValuesHaveNoSpace(line: string)
    requires ValuesOf(line).Some?
    ensures |ValuesOf(line).value| == 16 && forall i | 0 <= i < 16 :: ' ' !in ValuesOf(line).value[i]
  {
    SplitPartsClear(line[6..], ' ');
    var items := Split(line[6..], ' ');
    forall i | 0 <= i < 16 ensures ' ' !in ValuesOf(line).value[i] {
      assert items[i] in items;
    }
  }

  // --- The strict parser ---

  function Counters(values: seq<string>): seq<string>
    requires |values| == 16
  {
    values[1..13]
  }

  /** The fields parsed, before any check of their domain. */
  ghost predicate Reads(values: seq<string>, row: Row) {
    && |values| == 16 && values[0] == row.caseId
    && ParseNumbers(Counters(values)) == Some(row.counters)
    && ParseRows(values[13]) == Some(Singles(row.secondary))
    && ParseRows(values[14]) == Some(row.releases)
    && ParseRows(values[15]) == Some(row.events)
  }

  lemma {:induction false} TypedIsStorable(row: Row)
    requires Typed(row)
    ensures Small(row.counters) && Storable(Singles(row.secondary)) && Storable(row.releases) && Storable(row.events)
  {
    var n := row.counters;
    forall i | 0 <= i < |n| ensures n[i] <= U64_MAX {
      assert n[0] <= 11 && n[1] <= 1 && n[2] <= 11 && n[3] <= 1 && n[4] <= 1 && n[5] <= 256 && n[6] <= 1024;
    }
    forall i | 0 <= i < |row.releases| ensures row.releases[i] != [] && Small(row.releases[i]) {
      assert ValidRelease(row.releases[i]);
    }
    forall i | 0 <= i < |row.events| ensures row.events[i] != [] && Small(row.events[i]) {
      assert ValidEvent(row.events[i]);
    }
  }

  /** Values read as a typed row exactly when they are that row's rendered values. */
  lemma {:induction false} ReadsExactlyWhen(values: seq<string>, row: Row)
    requires Typed(row)
    ensures Reads(values, row) <==> values == Values(row)
  {
    TypedIsStorable(row);
    if |values| == 16 {
      NumbersExactlyWhen(Counters(values), row.counters);
      RowsExactlyWhen(values[13], Singles(row.secondary));
      RowsExactlyWhen(values[14], row.releases);
      RowsExactlyWhen(values[15], row.events);
      assert values == [values[0]] + values[1..13] + [values[13], values[14], values[15]];
      var v := Values(row);
      assert v == [v[0]] + v[1..13] + [v[13], v[14], v[15]];
      assert v[1..13] == Decimals(row.counters);
    }
  }

  const WIDTHS: seq<nat> := [1, 2, 6]
  const LIMITS: seq<nat> := [16, 512, 4096]

  predicate Shaped(rows: seq<seq<nat>>, width: nat, limit: nat) {
    |rows| <= limit && forall i | 0 <= i < |rows| :: |rows[i]| == width
  }

  predicate ArrayReads(values: seq<string>, k: nat, rows: seq<seq<nat>>)
    requires |values| == 16 && k < 3
  {
    ParseRows(values[13 + k]) == Some(rows) && Shaped(rows, WIDTHS[k], LIMITS[k])
  }

  predicate ArrayRefused(values: seq<string>, k: nat)
    requires |values| == 16 && k < 3
  {
    ParseRows(values[13 + k]) == None || !Shaped(ParseRows(values[13 + k]).value, WIDTHS[k], LIMITS[k])
  }

  /** The three arrays: each parsed, then checked for its width and its number of entries. */
  method ParseArrays(values: seq<string>) returns (r: Result<seq<seq<seq<nat>>>, Refusal>)
    requires |values| == 16
    ensures r.Ok? ==> |r.value| == 3 && forall k | 0 <= k < 3 :: ArrayReads(values, k, r.value[k])
    ensures r.Err? ==> exists k | 0 <= k < 3 :: ArrayRefused(values, k)
  {
    var arrays: seq<seq<seq<nat>>> := [];
    for k := 0 to 3
      invariant |arrays| == k
      invariant forall j | 0 <= j < k :: ArrayReads(values, j, arrays[j])
    {
      var rows := ParseRows(values[13 + k]);
      if rows == None || !Shaped(rows.value, WIDTHS[k], LIMITS[k]) {
        assert ArrayRefused(values, k);
        return Err(if rows == None then ArrayEncoding else ArrayBound);
      }
      arrays := arrays + [rows.value];
    }
    return Ok(arrays);
  }

  /** Every failing check makes the values unreadable as any typed row. */
  ghost predicate Hopeless(values: seq<string>) {
    forall row | Typed(row) :: !Reads(values, row)
  }

  lemma {:induction false} TypedIsShaped(values: seq<string>, row: Row)
    requires |values| == 16 && Typed(row) && Reads(values, row)
    ensures ArrayReads(values, 0, Singles(row.secondary))
    ensures ArrayReads(values, 1, row.releases) && ArrayReads(values, 2, row.events)
  {
    assert forall i | 0 <= i < |row.releases| :: ValidRelease(row.releases[i]);
    assert forall i | 0 <= i < |row.events| :: ValidEvent(row.events[i]);
  }

  method ParseValues(values: seq<string>) returns (r: Result<Row, Refusal>)
    requires |values| == 16
    ensures r.Ok? ==> Typed(r.value) && Reads(values, r.value)
    ensures r.Err? ==> Hopeless(values)
  {
    var name := values[0];
    if !ValidName(name) {
      return Err(CaseId);
    }
    var parsed := ParseArrays(values);
    if parsed.Err? {
      forall row | Typed(row) ensures !Reads(values, row) {
        if Reads(values, row) { TypedIsShaped(values, row); }
      }
      return Err(parsed.error);
    }
    var arrays := parsed.value;
    assert ArrayReads(values, 0, arrays[0]) && ArrayReads(values, 1, arrays[1]) && ArrayReads(values, 2, arrays[2]);
    var secondary := seq(|arrays[0]|, i requires 0 <= i < |arrays[0]| && |arrays[0][i]| == 1 => arrays[0][i][0]);
    assert Singles(secondary) == arrays[0] by {
      forall i | 0 <= i < |secondary| ensures Singles(secondary)[i] == arrays[0][i] {}
    }
    if exists i | 0 <= i < |secondary| :: secondary[i] != 11 {
      return Err(SecondaryStatus);
    }
    if exists i | 0 <= i < |arrays[1]| :: !ValidRelease(arrays[1][i]) {
      return Err(ReleaseIndex);
    }
    var eventsAreValid := CheckEvents(arrays[2]);
    if !eventsAreValid {
      return Err(EventDomain);
    }
    var numbers := ParseCounters(values);
    if numbers.Err? {
      return Err(numbers.error);
    }
    return Ok(Row(name, numbers.value, secondary, arrays[1], arrays[2]));
  }

  method CheckEvents(events: seq<seq<nat>>) returns (ok: bool)
    ensures ok <==> forall i | 0 <= i < |events| :: ValidEvent(events[i])
  {
    for i := 0 to |events|
      invariant forall j | 0 <= j < i :: ValidEvent(events[j])
    {
      if !ValidEvent(events[i]) {
        return false;
      }
    }
    return true;
  }

  /** The twelve numbers, and the bounds on them. */
  method ParseCounters(values: seq<string>) returns (r: Result<seq<nat>, Refusal>)
    requires |values| == 16
    ensures r.Ok? ==> ParseNumbers(Counters(values)) == Some(r.value) && |r.value| == 12
    ensures r.Ok? ==> ValidStatus(r.value) && ValidBooleans(r.value) && ValidPeaks(r.value) && NothingLive(r.value)
    ensures r.Err? ==> Hopeless(values)
  {
    var numbers := ParseNumbers(Counters(values));
    if numbers == None {
      return Err(CounterEncoding);
    }
    var n := numbers.value;
    NumbersExactlyWhen(Counters(values), n);
    if !ValidStatus(n) { return Err(Status); }
    if !ValidBooleans(n) { return Err(Boolean); }
    if !ValidPeaks(n) { return Err(PeakBound); }
    if !NothingLive(n) { return Err(LiveResource); }
    return Ok(n);
  }

  // --- No typed row is too long for a line ---

  lemma {:induction false} EntryLength(row: seq<nat>, bounds: seq<nat>)
    requires |row| == |bounds| && forall i | 0 <= i < |row| :: bounds[i] > 0 && row[i] < Pow10(bounds[i])
    ensures |Entry(row)| <= Sum(bounds) + |row|
    decreases |row|
  {
    if row != [] {
      DecimalLength(row[0], bounds[0]);
      EntryLength(row[1..], bounds[1..]);
      assert Decimals(row)[1..] == Decimals(row[1..]);
    }
  }

  function Sum(numbers: seq<nat>): nat {
    if numbers == [] then 0 else numbers[0] + Sum(numbers[1..])
  }

  lemma {:induction false} SmallPowers()
    ensures Pow10(1) == 10 && Pow10(2) == 100 && Pow10(3) == 1000 && Pow10(4) == 10000 && Pow10(8) == 1_0000_0000
    ensures Pow10(10) == 100_0000_0000
  {
    assert Pow10(2) == 10 * Pow10(1);
    assert Pow10(3) == 10 * Pow10(2);
    assert Pow10(4) == 10 * Pow10(3);
    assert Pow10(6) == 100 * Pow10(4);
    assert Pow10(8) == 100 * Pow10(6);
    assert Pow10(10) == 100 * Pow10(8);
  }

  lemma {:induction false} EventLength(e: seq<nat>)
    requires ValidEvent(e)
    ensures |Entry(e)| <= 26
  {
    SmallPowers();
    var bounds: seq<nat> := [1, 1, 10, 4, 3, 1];
    EntryLength(e, bounds);
    assert Sum(bounds) == 20;
  }

  lemma {:induction false} ReleaseLength(r: seq<nat>)
    requires ValidRelease(r)
    ensures |Entry(r)| <= 6
  {
    SmallPowers();
    var bounds: seq<nat> := [1, 3];
    EntryLength(r, bounds);
    assert Sum(bounds) == 4;
  }

  lemma {:induction false} RowsLength(rows: seq<seq<nat>>, limit: nat, width: nat)
    requires |rows| <= limit && forall i | 0 <= i < |rows| :: |Entry(rows[i])| <= width
    ensures |RenderRows(rows)| <= limit * (width + 1)
  {
    var entries := Entries(rows);
    forall part | part in entries ensures |part| <= width {
      var i :| 0 <= i < |rows| && entries[i] == part;
    }
    JoinLength(entries, ',', width);
    Scale(|rows|, limit, width + 1);
  }

  lemma {:induction false} Scale(a: nat, b: nat, k: nat)
    requires a <= b
    ensures a * k <= b * k
  {}

  lemma {:induction false} ValueLengths(row: Row)
    requires Typed(row)
    ensures var v := Values(row);
            && |v[0]| <= 100 && (forall i | 1 <= i < 13 :: |v[i]| <= 8)
            && |v[13]| <= 48 && |v[14]| <= 3584 && |v[15]| <= 110592
  {
    SmallPowers();
    var n := row.counters;
    forall i | 0 <= i < 12 ensures |Decimals(n)[i]| <= 8 {
      assert n[0] <= 11 && n[1] <= 1 && n[2] <= 11 && n[3] <= 1 && n[4] <= 1 && n[5] <= 256 && n[6] <= 1024;
      DecimalLength(n[i], 8);
    }
    var s := Singles(row.secondary);
    forall i | 0 <= i < |s| ensures |Entry(s[i])| <= 2 {
      DecimalLength(11, 2);
      assert Decimals(s[i]) == [Decimal(11)];
    }
    RowsLength(s, 16, 2);
    forall i | 0 <= i < |row.releases| ensures |Entry(row.releases[i])| <= 6 { ReleaseLength(row.releases[i]); }
    RowsLength(row.releases, 512, 6);
    forall i | 0 <= i < |row.events| ensures |Entry(row.events[i])| <= 26 { EventLength(row.events[i]); }
    RowsLength(row.events, 4096, 26);
  }

  lemma {:induction false} WordLengths(row: Row)
    requires Typed(row)
    ensures |Words(Values(row))| == 16 && forall i | 0 <= i < 13 :: |Words(Values(row))[i]| <= 116
    ensures var words := Words(Values(row)); |words[13]| <= 64 && |words[14]| <= 3600 && |words[15]| <= 110608
  {
    ValueLengths(row);
    FieldNames();
    var v, words := Values(row), Words(Values(row));
    forall i | 0 <= i < 16 ensures |words[i]| <= 16 + |v[i]| {
      assert IsKey(FIELDS[i]) && words[i] == FIELDS[i] + "=" + v[i];
    }
  }

  /** Thirteen short words, and three long ones, joined. */
  lemma {:induction false} JoinedWords(words: seq<string>)
    requires |words| == 16 && forall i | 0 <= i < 13 :: |words[i]| <= 116
    ensures |Join(words, ' ')| <= 13 * 117 + 3 + |words[13]| + |words[14]| + |words[15]|
  {
    var front := words[..13];
    JoinLength(front, ' ', 116);
    var one, two := front + [words[13]], front + [words[13], words[14]];
    assert two == one + [words[14]] && words == two + [words[15]];
    JoinAppendLength(front, words[13], ' ');
    JoinAppendLength(one, words[14], ' ');
    JoinAppendLength(two, words[15], ' ');
  }

  /** The line bound never refuses a typed row, even with every array at its limit. */
  lemma {:induction false} TypedRowFits(row: Row)
    requires Typed(row)
    ensures |RenderLine(row)| <= LINE_LIMIT
  {
    hide Words, Join;
    WordLengths(row);
    JoinedWords(Words(Values(row)));
    assert |"PHASE "| == 6;
  }

  lemma {:induction false} JoinAppendLength(parts: seq<string>, last: string, sep: char)
    ensures |Join(parts + [last], sep)| <= |Join(parts, sep)| + 1 + |last|
    decreases |parts|
  {
    if parts == [] {
      assert parts + [last] == [last];
    } else {
      JoinAppendLength(parts[1..], last, sep);
      assert (parts + [last])[1..] == parts[1..] + [last];
      if |parts| == 1 { assert parts[1..] + [last] == [last]; }
    }
  }

  // --- The line parser and its main property ---

  lemma {:induction false} ValuesClear(row: Row, avoid: set<char>)
    requires Typed(row) && ':' !in avoid && ',' !in avoid && forall c | c in avoid :: !NameChar(c)
    ensures forall i | 0 <= i < 16 :: Clear(Values(row)[i], avoid)
  {
    assert Clear(row.caseId, avoid);
    DecimalsClear(row.counters, avoid);
    EntriesClear(Singles(row.secondary), avoid);
    EntriesClear(row.releases, avoid);
    EntriesClear(row.events, avoid);
    JoinClear(Entries(Singles(row.secondary)), ',', avoid);
    JoinClear(Entries(row.releases), ',', avoid);
    JoinClear(Entries(row.events), ',', avoid);
    forall i | 0 <= i < 12 ensures Clear(Decimals(row.counters)[i], avoid) {
      assert Decimals(row.counters)[i] in Decimals(row.counters);
    }
  }

  /** What the parser has to see in a typed row's line. */
  lemma {:induction false} RenderedLine(row: Row)
    requires Typed(row)
    ensures |RenderLine(row)| <= LINE_LIMIT && StartsWith(RenderLine(row), "PHASE ")
    ensures ValuesOf(RenderLine(row)) == Some(Values(row)) && Reads(Values(row), row)
  {
    TypedRowFits(row);
    ValuesClear(row, {' '});
    forall i | 0 <= i < 16 ensures ' ' !in Values(row)[i] { assert Clear(Values(row)[i], {' '}); }
    ValuesExactlyWhen(RenderLine(row), Values(row));
    ReadsExactlyWhen(Values(row), row);
  }

  lemma {:induction false} ReadsOnce(values: seq<string>, a: Row, b: Row)
    requires Reads(values, a) && Reads(values, b)
    ensures a == b
  {
    var x, y := Singles(a.secondary), Singles(b.secondary);
    assert x == y;
    forall i | 0 <= i < |a.secondary| ensures a.secondary[i] == b.secondary[i] {
      assert x[i] == [a.secondary[i]] && y[i] == [b.secondary[i]];
    }
  }

  /** `parse_line`: succeeds exactly on the rendering of a typed row, and returns that row. */
  method ParseLine(line: string) returns (r: Result<Row, Refusal>)
    ensures r.Ok? ==> Typed(r.value) && line == RenderLine(r.value)
    ensures forall row | Typed(row) && line == RenderLine(row) :: r == Ok(row)
  {
    forall row | Typed(row) && line == RenderLine(row)
      ensures |line| <= LINE_LIMIT && StartsWith(line, "PHASE ")
              && ValuesOf(line).Some? && Reads(ValuesOf(line).value, row)
    {
      RenderedLine(row);
    }
    if !(|line| <= LINE_LIMIT && StartsWith(line, "PHASE ")) {
      return Err(WireBound);
    }
    var values := ValuesOf(line);
    if values == None {
      return Err(WireFields);
    }
    ValuesHaveNoSpace(line);
    r := ParseValues(values.value);
    if r.Ok? {
      forall row | Typed(row) && line == RenderLine(row) ensures row == r.value {
        ReadsOnce(values.value, row, r.value);
      }
      ReadsExactlyWhen(values.value, r.value);
      ValuesExactlyWhen(line, values.value);
    }
  }

  /** The check that validates an expectation: it is typed exactly when its own line parses back to it. */
  method CheckExpectation(row: Row) returns (ok: bool)
    requires |row.counters| == 12
    ensures ok <==> Typed(row)
  {
    var parsed := ParseLine(RenderLine(row));
    return parsed == Ok(row);
  }

  // --- Whole receipts ---

  function Lines(rows: seq<Row>): seq<string>
    requires forall i | 0 <= i < |rows| :: |rows[i].counters| == 12
  {
    seq(|rows|, i requires 0 <= i < |rows| => RenderLine(rows[i]))
  }

  function RenderText(rows: seq<Row>): string
    requires forall i | 0 <= i < |rows| :: |rows[i].counters| == 12
  {
    Join(Lines(rows), '\n') + "\n"
  }

  predicate Distinct(rows: seq<Row>) {
    forall i, j | 0 <= i < j < |rows| :: rows[i].caseId != rows[j].caseId
  }

  /** The admitted rows, field by field. */
  lemma {:induction false} TypedExactlyWhen(row: Row)
    ensures Typed(row) <==>
            && 1 <= |row.caseId| <= 100
            && (forall i | 0 <= i < |row.caseId| ::
                  var c := row.caseId[i] as int;
                  48 <= c <= 57 || 65 <= c <= 90 || 97 <= c <= 122 || c == 95 || c == 45)
            && |row.counters| == 12
            && var n := row.counters;
            && n[0] in {0, 10, 11} && n[1] in {0, 1} && n[2] in {0, 11} && n[3] in {0, 1} && n[4] in {0, 1}
            && n[5] <= 256 && n[6] <= 1024 && n[7] <= 256 && n[8] <= 35651584
            && n[9] == n[10] == n[11] == 0
            && |row.secondary| <= 16 && (forall i | 0 <= i < |row.secondary| :: row.secondary[i] == 11)
            && |row.releases| <= 512
            && (forall i | 0 <= i < |row.releases| ::
                  var r := row.releases[i]; |r| == 2 && r[0] <= 1 && r[1] <= 255)
            && |row.events| <= 4096
            && (forall i | 0 <= i < |row.events| ::
                  var e := row.events[i];
                  && |e| == 6 && e[0] <= 7 && e[3] <= 1024 && e[4] <= 256 && e[5] <= 1
                  && (if e[0] in {3, 4, 5} then e[2] == 4294967295 else e[2] <= 255)
                  && (if e[0] == 7 then e[1] <= 1 else e[1] == 1))
  {}

  /** A receipt that fits: typed rows, one to 128 of them, with different names. */
  ghost predicate Receipt(rows: seq<Row>) {
    && 1 <= |rows| <= 128 && (forall i | 0 <= i < |rows| :: Typed(rows[i])) && Distinct(rows)
    && |RenderText(rows)| <= 1048576
  }

  lemma {:induction false} LineClear(row: Row)
    requires Typed(row)
    ensures Clear(RenderLine(row), {'\n', '\r'})
  {
    ValuesClear(row, {'\n', '\r'});
    FieldNames();
    var words := Words(Values(row));
    forall w | w in words ensures Clear(w, {'\n', '\r'}) {
      var i :| 0 <= i < 16 && words[i] == w;
      assert IsKey(FIELDS[i]) && Clear(Values(row)[i], {'\n', '\r'});
    }
    JoinClear(words, ' ', {'\n', '\r'});
  }

  /** The text of a receipt splits into exactly its lines. */
  lemma {:induction false} TextSplits(rows: seq<Row>)
    requires rows != [] && forall i | 0 <= i < |rows| :: |rows[i].counters| == 12 && Typed(rows[i])
    ensures Split(Join(Lines(rows), '\n'), '\n') == Lines(rows)
    ensures '\r' !in RenderText(rows)
  {
    var lines := Lines(rows);
    assert lines != [];
    forall line | line in lines ensures Clear(line, {'\n', '\r'}) && Clear(line, {'\r'}) {
      var i :| 0 <= i < |rows| && lines[i] == line;
      LineClear(rows[i]);
    }
    SplitInvertsJoin(lines, '\n');
    JoinClear(lines, '\n', {'\r'});
  }

  ghost predicate LinesOf(lines: seq<string>, rows: seq<Row>) {
    |lines| == |rows| && forall k | 0 <= k < |rows| :: Typed(rows[k]) && lines[k] == RenderLine(rows[k])
  }

  method ParseLines(lines: seq<string>) returns (r: Result<seq<Row>, Refusal>)
    ensures r.Ok? ==> LinesOf(lines, r.value)
    ensures forall rows | LinesOf(lines, rows) :: r == Ok(rows)
  {
    var rows: seq<Row> := [];
    for i := 0 to |lines|
      invariant LinesOf(lines[..i], rows)
      invariant forall other | LinesOf(lines, other) :: other[..i] == rows
    {
      var row := ParseLine(lines[i]);
      forall other | LinesOf(lines, other) ensures row == Ok(other[i]) {
        assert Typed(other[i]) && lines[i] == RenderLine(other[i]);
      }
      if row.Err? {
        return Err(row.error);
      }
      rows := rows + [row.value];
    }
    assert lines[..|lines|] == lines;
    forall other | LinesOf(lines, other) ensures other == rows {
      assert other[..|lines|] == other;
    }
    return Ok(rows);
  }

  ghost predicate IsReceipt(text: string, rows: seq<Row>) {
    Receipt(rows) && text == RenderText(rows)
  }

  lemma {:induction false} ReceiptLines(text: string, rows: seq<Row>)
    requires IsReceipt(text, rows)
    ensures text != [] && text[|text| - 1] == '\n' && '\r' !in text && |text| <= BYTE_LIMIT
    ensures LinesOf(Split(text[..|text| - 1], '\n'), rows)
  {
    TextSplits(rows);
    assert text[..|text| - 1] == Join(Lines(rows), '\n');
  }

  /** `parse_receipts`: succeeds exactly on the text of a receipt, and returns its rows. */
  method ParseReceipts(text: string) returns (r: Result<seq<Row>, Refusal>)
    ensures r.Ok? ==> IsReceipt(text, r.value)
    ensures forall rows | IsReceipt(text, rows) :: r == Ok(rows)
  {
    forall rows | IsReceipt(text, rows)
      ensures text != [] && text[|text| - 1] == '\n' && '\r' !in text && |text| <= BYTE_LIMIT
      ensures LinesOf(Split(text[..|text| - 1], '\n'), rows)
    {
      ReceiptLines(text, rows);
    }
    if !(|text| > 0 && text[|text| - 1] == '\n' && '\r' !in text && |text| <= BYTE_LIMIT) {
      return Err(WireFraming);
    }
    var lines := Split(text[..|text| - 1], '\n');
    if !(0 < |lines| <= ROW_LIMIT) {
      return Err(CaseCount);
    }
    hide Typed, Distinct, RenderText, RenderLine, Split;
    r := ParseLines(lines);
    if r.Ok? {
      if !Distinct(r.value) {
        return Err(DuplicateCase);
      }
      TextOfLines(text, r.value);
    }
  }

  /** A text whose lines are the rows' is their text. */
  lemma {:induction false} TextOfLines(text: string, rows: seq<Row>)
    requires text != [] && text[|text| - 1] == '\n' && LinesOf(Split(text[..|text| - 1], '\n'), rows)
    ensures (forall i | 0 <= i < |rows| :: |rows[i].counters| == 12) && text == RenderText(rows)
  {
    var lines := Split(text[..|text| - 1], '\n');
    assert forall i | 0 <= i < |rows| :: Typed(rows[i]);
    hide Typed, RenderLine, Split;
    assert Lines(rows) == lines;
    JoinInvertsSplit(text[..|text| - 1], '\n');
    assert text == text[..|text| - 1] + "\n";
  }
}
