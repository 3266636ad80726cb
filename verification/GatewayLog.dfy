/** The gateway's log: one JSON line for each record, and how such a log reads back. */
module GatewayLog {
  import opened Common
  import opened Base64
  import opened Sequences
  import Text

  // --- Writing ---

  function Integer(code: int): string {
    if code < 0 then "-" + Text.Decimal(-code) else Text.Decimal(code)
  }

  /** One log line: a JSON object with sorted keys. */
  function Line(argv: bytes, output: bytes, error: bytes, code: int): string {
    "{\"argv_b64\": \"" + Encode(argv) + "\", \"returncode\": " + Integer(code) + ", \"stderr_b64\": \"" + Encode(error)
    + "\", \"stdout_b64\": \"" + Encode(output) + "\"}\n"
  }

  function B64(n: nat): nat { (n + 2) / 3 * 4 }

  lemma {:induction false} LineLength(argv: bytes, output: bytes, error: bytes, code: int)
    ensures |Line(argv, output, error, code)| == 69 + B64(|argv|) + B64(|output|) + B64(|error|) + |Integer(code)|
  {
    assert |"{\"argv_b64\": \""| == 14 && |"\", \"returncode\": "| == 17 && |", \"stderr_b64\": \""| == 17;
    assert |"\", \"stdout_b64\": \""| == 18 && |"\"}\n"| == 3;
  }

  // --- Reading ---

  datatype LogEntry = LogEntry(argv: bytes, output: bytes, error: bytes, code: int)

  function ReadInteger(s: string): Option<int> {
    if Text.IsCanonical(s) then Some(Text.Value(s))
    else if |s| > 1 && s[0] == '-' && Text.IsCanonical(s[1..]) then Some(0 - Text.Value(s[1..]))
    else None
  }

  /** The number between a colon and a comma. */
  function ReadMember(s: string): Option<int> {
    if |s| < 4 || s[..2] != ": " || s[|s| - 2..] != ", " then None else ReadInteger(s[2..|s| - 2])
  }

  /** A line without its line feed. */
  function ReadLine(line: string): Option<LogEntry> { ReadParts(Text.Split(line, '"')) }

  /** Four members, by their names. */
  function ReadParts(p: seq<string>): Option<LogEntry> {
    if |p| != 15 || p[1] != "argv_b64" || p[5] != "returncode" || p[7] != "stderr_b64" || p[11] != "stdout_b64" then
      None
    else
      var argv, code, error, output := Decode(p[3]), ReadMember(p[6]), Decode(p[9]), Decode(p[13]);
      if argv.None? || code.None? || error.None? || output.None? then None
      else Some(LogEntry(argv.value, output.value, error.value, code.value))
  }

  function ReadLines(lines: seq<string>): Option<seq<LogEntry>> {
    if lines == [] then Some([])
    else
      var first, rest := ReadLine(lines[0]), ReadLines(lines[1..]);
      if first.None? || rest.None? then None else Some([first.value] + rest.value)
  }

  /** A log is read line by line; the last one has to be complete. */
  function ReadLog(log: string): Option<seq<LogEntry>> {
    if log == "" then Some([])
    else if log[|log| - 1] != '\n' then None
    else ReadLines(Text.Split(log[..|log| - 1], '\n'))
  }

  const APART: set<char> := {'"', '\n'}

  lemma {:induction false} EncodeClear(b: bytes)
    ensures Text.Clear(Encode(b), APART)
    decreases |b|
  {
    if |b| > 2 {
      EncodeClear(b[3..]);
      assert Text.Clear(Group(b[0], b[1], b[2]), APART);
      forall c | c in Encode(b) ensures c !in APART {
        assert c in Group(b[0], b[1], b[2]) || c in Encode(b[3..]);
      }
    }
  }

  lemma {:induction false} IntegerReadsBack(code: int)
    ensures ReadInteger(Integer(code)) == Some(code) && Text.Clear(Integer(code), APART)
  {
    var n := if code < 0 then -code else code;
    Text.ValueInvertsDecimal(n);
    Text.DecimalClear(n, APART);
    if code < 0 { assert Integer(code)[1..] == Text.Decimal(n); }
  }

  /** What the quotation marks of a line separate. */
  function Parts(argv: string, code: string, error: string, output: string): seq<string> {
    ["{", "argv_b64", ": ", argv, ", ", "returncode", ": " + code + ", ", "stderr_b64", ": ", error,
     ", ", "stdout_b64", ": ", output, "}"]
  }

  lemma {:induction false} JoinNext(part: string, rest: seq<string>, sep: char)
    requires rest != []
    ensures Text.Join([part] + rest, sep) == part + [sep] + Text.Join(rest, sep)
  {
    assert ([part] + rest)[1..] == rest;
  }

  /** A value and the name of the next member, in front of other parts. */
  lemma {:induction false} JoinMember(value: string, gap: string, name: string, rest: seq<string>)
    requires rest != []
    ensures Text.Join([value, gap, name] + rest, '"')
         == value + ("\"" + gap + "\"" + name + "\"") + Text.Join(rest, '"')
  {
    var r := Text.Join(rest, '"');
    assert [value, gap, name] + rest == [value] + ([gap] + ([name] + rest));
    JoinNext(name, rest, '"');
    JoinNext(gap, [name] + rest, '"');
    JoinNext(value, [gap] + ([name] + rest), '"');
    Concatenated(gap + "\"", name + "\"", r);
    Concatenated(value + "\"", gap + "\"" + (name + "\""), r);
    assert value + "\"" + (gap + "\"" + (name + "\"")) == value + ("\"" + gap + "\"" + name + "\"");
  }

  lemma {:induction false} JoinLast(output: string)
    ensures Text.Join([": ", output, "}"], '"') == ": \"" + output + "\"}"
  {
    assert [output, "}"][1..] == ["}"] && [": ", output, "}"][1..] == [output, "}"];
    assert Text.Join([output, "}"], '"') == output + "\"" + "}";
  }

  lemma {:induction false} JoinNested(argv: string, code: string, error: string, output: string)
    ensures Text.Join(Parts(argv, code, error, output), '"')
         == "{" + ("\"" + "argv_b64" + "\"" + ": " + "\"")
            + (argv + ("\"" + ", " + "\"" + "returncode" + "\"")
               + ((": " + code + ", ") + ("\"" + "stderr_b64" + "\"" + ": " + "\"")
                  + (error + ("\"" + ", " + "\"" + "stdout_b64" + "\"") + (": \"" + output + "\"}"))))
  {
    hide Text.Join;
    var last := [": ", output, "}"];
    var third := [error, ", ", "stdout_b64"] + last;
    var second := [": " + code + ", ", "stderr_b64", ": "] + third;
    var first := [argv, ", ", "returncode"] + second;
    JoinLast(output);
    JoinMember(error, ", ", "stdout_b64", last);
    JoinMember(": " + code + ", ", "stderr_b64", ": ", third);
    JoinMember(argv, ", ", "returncode", second);
    JoinMember("{", "argv_b64", ": ", first);
    assert Parts(argv, code, error, output) == ["{", "argv_b64", ": "] + first;
  }

  lemma {:induction false} Literals()
    ensures "{" + ("\"" + "argv_b64" + "\"" + ": " + "\"") == "{\"argv_b64\": \""
    ensures ("\"" + ", " + "\"" + "returncode" + "\"") + ": " == "\", \"returncode\": "
    ensures ", " + ("\"" + "stderr_b64" + "\"" + ": " + "\"") == ", \"stderr_b64\": \""
    ensures ("\"" + ", " + "\"" + "stdout_b64" + "\"") + ": \"" == "\", \"stdout_b64\": \""
  {}

  lemma {:induction false} JoinParts(argv: string, code: string, error: string, output: string)
    ensures Text.Join(Parts(argv, code, error, output), '"')
         == "{\"argv_b64\": \"" + argv + "\", \"returncode\": " + code + ", \"stderr_b64\": \"" + error
            + "\", \"stdout_b64\": \"" + output + "\"}"
  {
    hide Text.Join, Parts;
    JoinNested(argv, code, error, output);
    Literals();
    Regroup("{" + ("\"" + "argv_b64" + "\"" + ": " + "\""), argv, "\"" + ", " + "\"" + "returncode" + "\"", ": ", code,
            ", ", "\"" + "stderr_b64" + "\"" + ": " + "\"", error, "\"" + ", " + "\"" + "stdout_b64" + "\"",
            ": \"", output, "\"}");
  }

  lemma {:induction false} Regroup(p: string, a: string, q1: string, q2: string, i: string, q3: string, q4: string,
                                   e: string, q5: string, q6: string, o: string, z: string)
    ensures p + (a + q1 + ((q2 + i + q3) + q4 + (e + q5 + (q6 + o + z))))
         == p + a + (q1 + q2) + i + (q3 + q4) + e + (q5 + q6) + o + z
  {
    Concatenated(e + q5, q6 + o, z);
    Concatenated(e + q5, q6, o);
    Concatenated(e, q5, q6);
    Concatenated(q2 + i, q3, q4);
  }

  /** A line without its line feed. */
  function Body(argv: bytes, output: bytes, error: bytes, code: int): string {
    Text.Join(Parts(Encode(argv), Integer(code), Encode(error), Encode(output)), '"')
  }

  lemma {:induction false} LineIsBody(argv: bytes, output: bytes, error: bytes, code: int)
    ensures Line(argv, output, error, code) == Body(argv, output, error, code) + "\n"
  {
    hide Encode, Integer, Parts, Text.Join;
    JoinParts(Encode(argv), Integer(code), Encode(error), Encode(output));
    assert "\"}" + "\n" == "\"}\n";
  }

  lemma {:induction false} PartsClear(argv: bytes, output: bytes, error: bytes, code: int)
    ensures forall part | part in Parts(Encode(argv), Integer(code), Encode(error), Encode(output)) ::
              Text.Clear(part, APART)
  {
    EncodeClear(argv);
    EncodeClear(error);
    EncodeClear(output);
    IntegerReadsBack(code);
    hide Encode, Integer;
  }

  /** A line reads back as what was recorded, member by member. */
  lemma {:induction false} LineReadsBack(argv: bytes, output: bytes, error: bytes, code: int)
    ensures ReadLine(Body(argv, output, error, code)) == Some(LogEntry(argv, output, error, code))
    ensures '\n' !in Body(argv, output, error, code)
  {
    hide Encode, Integer, ReadParts, Text.Split, Text.Join;
    var parts := Parts(Encode(argv), Integer(code), Encode(error), Encode(output));
    PartsClear(argv, output, error, code);
    Text.SplitInvertsJoin(parts, '"');
    BodyClear(argv, output, error, code);
    PartsReadBack(argv, output, error, code);
  }

  lemma {:induction false} PartsReadBack(argv: bytes, output: bytes, error: bytes, code: int)
    ensures ReadParts(Parts(Encode(argv), Integer(code), Encode(error), Encode(output)))
         == Some(LogEntry(argv, output, error, code))
  {
    hide Encode, Decode, Integer, ReadMember;
    DecodeInvertsEncode(argv);
    DecodeInvertsEncode(error);
    DecodeInvertsEncode(output);
    MemberReadsBack(code);
  }

  lemma {:induction false} BodyClear(argv: bytes, output: bytes, error: bytes, code: int)
    ensures '\n' !in Body(argv, output, error, code)
  {
    var parts := Parts(Encode(argv), Integer(code), Encode(error), Encode(output));
    PartsClear(argv, output, error, code);
    Text.JoinClear(parts, '"', {'\n'});
  }

  lemma {:induction false} MemberReadsBack(code: int)
    ensures ReadMember(": " + Integer(code) + ", ") == Some(code)
  {
    IntegerReadsBack(code);
    hide Integer, ReadInteger;
    var s := ": " + Integer(code) + ", ";
    assert s[2..|s| - 2] == Integer(code);
  }

  // --- A whole log ---

  lemma {:induction false} SplitBehind(s: string, rest: string, sep: char)
    ensures Text.Split(s + [sep] + rest, sep) == Text.Split(s, sep) + Text.Split(rest, sep)
  {
    var whole, b := s + [sep] + rest, Text.Split(rest, sep);
    if s == "" {
      assert whole == [sep] + rest && whole[1..] == rest;
    } else {
      var r := Text.Split(s[1..], sep);
      SplitBehind(s[1..], rest, sep);
      assert whole[1..] == s[1..] + [sep] + rest && whole[0] == s[0];
      assert (r + b)[1..] == r[1..] + b;
      Concatenated(if s[0] == sep then [[]] else [[s[0]] + r[0]], if s[0] == sep then r else r[1..], b);
    }
  }

  lemma {:induction false} ReadLinesGain(lines: seq<string>, line: string)
    ensures ReadLines(lines + [line])
         == if ReadLines(lines).None? || ReadLine(line).None? then None
            else Some(ReadLines(lines).value + [ReadLine(line).value])
  {
    hide ReadLine;
    if lines == [] {
      assert lines + [line] == [line] && [line][1..] == [] && ReadLines([]) == Some([]);
      assert forall entry: LogEntry :: [entry] + [] == [] + [entry];
    } else {
      ReadLinesGain(lines[1..], line);
      assert (lines + [line])[1..] == lines[1..] + [line];
      if ReadLines(lines).Some? && ReadLine(line).Some? {
        Concatenated([ReadLine(lines[0]).value], ReadLines(lines[1..]).value, [ReadLine(line).value]);
      }
    }
  }

  /** A log with one more line reads back as what it read as, and the new record. */
  lemma {:induction false} AppendedReadsBack(log: string, argv: bytes, output: bytes, error: bytes, code: int)
    requires ReadLog(log).Some?
    ensures ReadLog(log + Line(argv, output, error, code))
         == Some(ReadLog(log).value + [LogEntry(argv, output, error, code)])
  {
    var body := Body(argv, output, error, code);
    LineIsBody(argv, output, error, code);
    LineReadsBack(argv, output, error, code);
    hide Body, Line, ReadLine, Text.Split;
    Text.SplitPrefix(body, "", '\n');
    var whole := log + (body + "\n");
    assert whole[|whole| - 1] == '\n' && whole[..|whole| - 1] == log + body;
    if log == "" {
      assert log + body == body;
      ReadLinesGain([], body);
      assert [] + [body] == [body];
    } else {
      var front := log[..|log| - 1];
      assert log == front + ['\n'];
      SplitBehind(front, body, '\n');
      ReadLinesGain(Text.Split(front, '\n'), body);
    }
  }
}
