/**
 * The recorded command gateway of a pilot trial: every invocation is logged under a byte cap,
 * one edit of the core source is injected behind the agent's back, and the agent's own source
 * writes are conditional on the digest of what they replace.
 */
module Gateway {
  import opened Common
  import opened Base64
  import opened GatewayLog
  import opened Sequences
  import Text

  const CAP := 1048576
  const LOG_CAP := 32 * CAP
  const CORE := "src/core.spx"
  const IDENTIFYING := ["graph", "context", "query", "workspace-graph", "workspace-context"]

  type Files = map<string, bytes>

  /** The drift file; its sources are held in base64. */
  datatype Drift = Drift(target: string, before64: string, after64: string, beforeDigest: string, afterDigest: string,
                         applied: bool)

  /** Candidate files, drift file and log. The log is JSON text, which is ASCII: a character is a byte. */
  datatype State = State(files: Files, drift: Option<Drift>, log: string)

  /** What the gateway says, one constructor for each of its texts. */
  datatype Message =
    | MissingCommand | DeniedByLane | PathEscapes | OptionEscapes | LogExhausted | InvalidDriftTarget
    | CandidateChanged | WriteArguments | WriteTarget | WriteSuffix | WriteBody | WriteSize | WriteEscapes
    | ReadArguments | ReadEscapes | ReadTarget | ReadText | SourceArguments | SourceEscapes | SourceTarget
    | SourceDigest | SourceStale | SourceBody | SourceSize | ArtifactWritten | SourceWritten | TimedOut
    | OutputOverCap

  /** Encodings, texts, digests and path rules that the gateway takes from its libraries. */
  datatype Env = Env(
    utf8: string -> bytes, text: Message -> bytes, isUtf8: bytes -> bool,
    digest: bytes -> string, present: bytes -> bytes,
    resolve: string -> Option<string>, escape: string -> Option<Message>, artifact: string -> bool,
    suffix: string -> string, name: string -> string, links: string -> nat,
    allowed: set<string>, help: bytes)

  datatype Cause = LogFull | NoTarget | BadDrift | WaitExpired
  datatype Exit = Exited(code: int, output: bytes, error: bytes) | Raised(cause: Cause)

  /** Every change an invocation makes to the candidate. */
  datatype Write =
    | Drifted(path: string, old_: bytes, new_: bytes)
    | Replaced(path: string, old_: bytes, new_: bytes, named: string)
    | Artifact(path: string, new_: bytes)
    | Compiled(earlier: Files, later: Files)

  datatype Step = Step(state: State, exit: Exit, writes: seq<Write>)

  // --- Log records ---

  /** Arguments in one text, with a NUL between them. */
  function Joined(argv: seq<string>): string { Text.Join(argv, '\0') }

  /** Appends a line, unless the log would exceed its cap. */
  function Record(s: State, argv: seq<string>, output: bytes, error: bytes, code: int, env: Env): Option<State> {
    var line := Line(env.utf8(Joined(argv)), output, error, code);
    if |s.log| + |line| > LOG_CAP then None else Some(s.(log := s.log + line))
  }

  /** `denied`: exit 126, recorded when there is room. */
  function Denied(s: State, args: seq<string>, message: Message, env: Env): Step {
    var error := env.text(message);
    var recorded := Record(s, args, [], error, 126, env);
    Step(if recorded.Some? then recorded.value else s, Exited(126, [], error), [])
  }

  /** A record that has to succeed, then exit. */
  function Close(s: State, args: seq<string>, output: bytes, writes: seq<Write>, env: Env): Step {
    var recorded := Record(s, args, output, [], 0, env);
    if recorded.None? then Step(s, Raised(LogFull), writes)
    else Step(recorded.value, Exited(0, output, []), writes)
  }

  predicate Reserved(s: State) { |s.log| + 4 * CAP <= LOG_CAP }

  // --- Drift ---

  /** `prepare_drift`: what the drift file says, for a patch that applies to the core source and changes it. */
  function Prepared(before: bytes, after: bytes, digest: bytes -> string): Drift {
    Drift(CORE, Encode(before), Encode(after), digest(before), digest(after), false)
  }

  datatype Failure = WrongPatch | NoCore | PatchRefused | NoChange
  datatype Declared = Declared(patch: bytes, digest: string)

  method PrepareDrift(files: Files, declared: Option<Declared>, patched: (bytes, bytes) -> Option<bytes>,
                      digest: bytes -> string)
    returns (r: Result<Option<Drift>, Failure>)
    ensures r == Ok(None) <==> declared.None?
    ensures forall d :: r == Ok(Some(d)) <==>
              && declared.Some? && digest(declared.value.patch) == declared.value.digest && CORE in files
              && patched(files[CORE], declared.value.patch).Some?
              && patched(files[CORE], declared.value.patch).value != files[CORE]
              && d == Prepared(files[CORE], patched(files[CORE], declared.value.patch).value, digest)
  {
    if declared.None? { return Ok(None); }
    var patch := declared.value.patch;
    if digest(patch) != declared.value.digest { return Err(WrongPatch); }
    if CORE !in files { return Err(NoCore); }
    var before := files[CORE];
    var after := patched(before, patch);
    if after.None? { return Err(PatchRefused); }
    if before == after.value { return Err(NoChange); }
    return Ok(Some(Prepared(before, after.value, digest)));
  }

  /** What a prepared drift file holds. */
  lemma {:induction false} PreparedHolds(before: bytes, after: bytes, digest: bytes -> string)
    ensures var d := Prepared(before, after, digest);
            && d.target == "src/core.spx" && !d.applied
            && Decode(d.before64) == Some(before) && Decode(d.after64) == Some(after)
            && d.beforeDigest == digest(before) && d.afterDigest == digest(after)
  {
    DecodeInvertsEncode(before);
    DecodeInvertsEncode(after);
  }

  /** A drift file that still carries a prepared pair of sources. */
  ghost predicate Carries(d: Drift, before: bytes, after: bytes, env: Env) {
    d == Prepared(before, after, env.digest).(applied := d.applied)
  }

  predicate Triggers(args: seq<string>, env: Env) {
    args != []
    && (args[0] in IDENTIFYING || (args[0] == "pilot-read" && |args| == 2 && env.resolve(args[1]) == Some(CORE)))
  }

  /** The evidence of an injection. */
  function Evidence(d: Drift, command: string): string {
    "{\"after_sha256\": \"" + d.afterDigest + "\", \"before_sha256\": \"" + d.beforeDigest + "\", \"trigger\": \""
    + command
    + "\"}"
  }

  /** The evidence reads back by its members' names. */
  lemma {:induction false} EvidenceReadsBack(d: Drift, command: string)
    requires '"' !in d.afterDigest && '"' !in d.beforeDigest && '"' !in command
    ensures Text.Split(Evidence(d, command), '"')
         == ["{", "after_sha256", ": ", d.afterDigest, ", ", "before_sha256", ": ", d.beforeDigest,
             ", ", "trigger", ": ", command, "}"]
  {
    var parts := ["{", "after_sha256", ": ", d.afterDigest, ", ", "before_sha256", ": ", d.beforeDigest,
                  ", ", "trigger", ": ", command, "}"];
    EvidenceIsJoined(d.afterDigest, d.beforeDigest, command);
    Text.SplitInvertsJoin(parts, '"');
  }

  lemma {:induction false} EvidenceIsJoined(after: string, before: string, command: string)
    ensures Text.Join(["{", "after_sha256", ": ", after, ", ", "before_sha256", ": ", before,
                       ", ", "trigger", ": ", command, "}"], '"')
         == "{\"after_sha256\": \"" + after + "\", \"before_sha256\": \"" + before + "\", \"trigger\": \"" + command
            + "\"}"
  {
    hide Text.Join;
    var last := [": ", command, "}"];
    var second := [before, ", ", "trigger"] + last;
    var rest := ": " + "\"" + Text.Join(second, '"');
    JoinLast(command);
    JoinMember(before, ", ", "trigger", last);
    JoinNext(": ", second, '"');
    JoinMember(after, ", ", "before_sha256", [": "] + second);
    JoinMember("{", "after_sha256", ": ", [after, ", ", "before_sha256"] + ([": "] + second));
    assert ["{", "after_sha256", ": ", after, ", ", "before_sha256", ": ", before, ", ", "trigger", ": ", command, "}"]
        == ["{", "after_sha256", ": "] + ([after, ", ", "before_sha256"] + ([": "] + second));
    RegroupEvidence("{", "\"" + "after_sha256" + "\"" + ": " + "\"", after, "\"" + ", " + "\"" + "before_sha256" + "\"",
                    ": " + "\"", before, "\"" + ", " + "\"" + "trigger" + "\"", ": \"", command, "\"}");
    EvidenceLiterals();
  }

  lemma {:induction false} EvidenceLiterals()
    ensures "{" + ("\"" + "after_sha256" + "\"" + ": " + "\"") == "{\"after_sha256\": \""
    ensures ("\"" + ", " + "\"" + "before_sha256" + "\"") + (": " + "\"") == "\", \"before_sha256\": \""
    ensures ("\"" + ", " + "\"" + "trigger" + "\"") + ": \"" == "\", \"trigger\": \""
  {}

  lemma {:induction false} RegroupEvidence(p: string, q: string, a: string, r: string, s: string, b: string, t: string,
                                           u: string, c: string, z: string)
    ensures p + q + (a + r + (s + (b + t + (u + c + z)))) == (p + q) + a + (r + s) + b + (t + u) + c + z
  {
    Concatenated(b + t, u + c, z);
    Concatenated(b + t, u, c);
    Concatenated(b, t, u);
    Concatenated(s, b + (t + u) + c, z);
  }

  datatype Applied = Go(state: State, writes: seq<Write>) | Halt(step: Step)

  function Inject(s: State, d: Drift, before: bytes, after: bytes, command: string, env: Env): Applied
    requires s.drift == Some(d)
  {
    var t := s.(files := s.files[CORE := after], drift := Some(d.(applied := true)));
    var writes := [Drifted(CORE, before, after)];
    var recorded := Record(t, ["pilot-drift", command], env.utf8(Evidence(d, command)), [], 0, env);
    if recorded.None? then Halt(Step(t, Raised(LogFull), writes)) else Go(recorded.value, writes)
  }

  function ApplyDrift(s: State, args: seq<string>, env: Env): Applied {
    if s.drift.None? || !Triggers(args, env) || s.drift.value.applied then Go(s, [])
    else Due(s, s.drift.value, args, env)
  }

  /** A drift whose time has come: injected over the recorded source, or refused. */
  function Due(s: State, d: Drift, args: seq<string>, env: Env): Applied
    requires s.drift == Some(d) && args != []
  {
    var before, after := Decode(d.before64), Decode(d.after64);
    if d.target != CORE then Halt(Denied(s, args, InvalidDriftTarget, env))
    else if before.None? || after.None? then Halt(Step(s, Raised(BadDrift), []))
    else if CORE !in s.files then Halt(Step(s, Raised(NoTarget), []))
    else if s.files[CORE] != before.value then Halt(Denied(s, args, CandidateChanged, env))
    else Inject(s, d, before.value, after.value, args[0], env)
  }

  /** A record, the drift, and then the exit. */
  function Finish(s: State, args: seq<string>, output: bytes, error: bytes, code: int, shown: bytes, writes: seq<Write>,
                  env: Env): Step
  {
    var recorded := Record(s, args, output, error, code, env);
    if recorded.None? then Step(s, Raised(LogFull), writes)
    else
      match ApplyDrift(recorded.value, args, env)
      case Halt(step) => Step(step.state, step.exit, writes + step.writes)
      case Go(t, more) => Step(t, Exited(code, shown, error), writes + more)
  }

  // --- Commands ---

  function PilotWrite(s: State, args: seq<string>, env: Env): Step {
    if |args| != 3 then Denied(s, args, WriteArguments, env)
    else if !env.artifact(args[1]) then
      Denied(s, args, WriteTarget, env)
    else if env.suffix(args[1]) !in [".json", ".spatch", ".wspatch"] then
      Denied(s, args, WriteSuffix, env)
    else
      var body := Decode(args[2]);
      if body.None? then Denied(s, args, WriteBody, env)
      else if |body.value| > CAP then Denied(s, args, WriteSize, env)
      else
        var target := env.resolve(args[1]);
        if target.None? then Denied(s, args, WriteEscapes, env)
        else
          Close(s.(files := s.files[target.value := body.value]), args, env.text(ArtifactWritten),
                [Artifact(target.value, body.value)], env)
  }

  predicate Readable(files: Files, path: string, env: Env) {
    && path in files && env.links(path) == 1 && |files[path]| <= CAP
    && (env.suffix(path) == ".spx" || env.name(path) == "semaprax.toml")
  }

  function PilotRead(s: State, args: seq<string>, env: Env): Step {
    if |args| != 2 then Denied(s, args, ReadArguments, env)
    else
      var target := env.resolve(args[1]);
      if target.None? then Denied(s, args, ReadEscapes, env)
      else if !Readable(s.files, target.value, env) then
        Denied(s, args, ReadTarget, env)
      else
        var source := s.files[target.value];
        if !env.isUtf8(source) then Denied(s, args, ReadText, env)
        else Finish(s, args, source, [], 0, env.present(source), [], env)
  }

  predicate IsDigest(named: string) {
    |named| == 64 && forall i | 0 <= i < |named| :: '0' <= named[i] <= '9' || 'a' <= named[i] <= 'f'
  }

  function PilotWriteSource(s: State, args: seq<string>, env: Env): Step {
    if |args| != 4 then Denied(s, args, SourceArguments, env)
    else
      var target := env.resolve(args[1]);
      if target.None? then Denied(s, args, SourceEscapes, env)
      else if !(target.value in s.files && env.links(target.value) == 1 && env.suffix(target.value) == ".spx") then
        Denied(s, args, SourceTarget, env)
      else if !IsDigest(args[2]) then Denied(s, args, SourceDigest, env)
      else if env.digest(s.files[target.value]) != args[2] then
        Denied(s, args, SourceStale, env)
      else
        var body := Decode(args[3]);
        if body.None? then Denied(s, args, SourceBody, env)
        else if |body.value| > CAP then Denied(s, args, SourceSize, env)
        else
          Close(s.(files := s.files[target.value := body.value]), args, env.text(SourceWritten),
                [Replaced(target.value, s.files[target.value], body.value, args[2])], env)
  }

  // --- The compiler ---

  datatype Read = Chunk(isError: bool, data: bytes) | Expired
  datatype Capture = Capture(output: bytes, error: bytes, failure: Option<Message>)

  /**
   * What running the compiler does: fail to start with a message, or deliver reads and leave some candidate
   * behind, and then exit with a code or outlive the deadline.
   */
  datatype Compilation = Compilation(spawnFailure: Option<bytes>, chunks: seq<Read>, code: Option<int>, files: Files)

  function Drain(chunks: seq<Read>, output: bytes, error: bytes): Capture {
    if chunks == [] then Capture(output, error, None)
    else
      match chunks[0]
      case Expired => Capture(output, error, Some(TimedOut))
      case Chunk(isError, data) =>
        var output', error' := if isError then output else output + data, if isError then error + data else error;
        if |output'| + |error'| > CAP then Capture(output', error', Some(OutputOverCap))
        else Drain(chunks[1..], output', error')
  }

  /** The read loop of `invoke_real`. */
  method ReadStreams(chunks: seq<Read>) returns (c: Capture)
    ensures c == Drain(chunks, [], []) && Captures(c, chunks, Taken(chunks, 0), [], [])
  {
    DrainTakes(chunks, [], []);
    hide Captures, Taken;
    var output: bytes, error: bytes := [], [];
    for i := 0 to |chunks|
      invariant Drain(chunks[i..], output, error) == Drain(chunks, [], [])
    {
      assert chunks[i..][1..] == chunks[i + 1..];
      match chunks[i] {
        case Expired => return Capture(output, error, Some(TimedOut));
        case Chunk(isError, data) =>
          if isError { error := error + data; } else { output := output + data; }
          if |output| + |error| > CAP { return Capture(output, error, Some(OutputOverCap)); }
      }
    }
    return Capture(output, error, None);
  }

  function Compile(s: State, args: seq<string>, c: Compilation, env: Env): Step {
    if c.spawnFailure.Some? then
      Finish(s, args, [], c.spawnFailure.value, 125, [], [], env)
    else
      var captured, t, writes := Drain(c.chunks, [], []), s.(files := c.files), [Compiled(s.files, c.files)];
      if captured.failure.Some? then
        var error := captured.error + env.text(captured.failure.value);
        Finish(t, args, captured.output, error, 124, captured.output, writes, env)
      else if c.code.None? then Step(t, Raised(WaitExpired), writes)
      else Finish(t, args, captured.output, captured.error, c.code.value, captured.output, writes, env)
  }

  // --- One invocation ---

  function FirstEscape(args: seq<string>, env: Env): Option<Message> {
    if args == [] then None
    else if env.escape(args[0]).Some? then env.escape(args[0])
    else FirstEscape(args[1..], env)
  }

  function Dispatch(s: State, args: seq<string>, c: Compilation, env: Env): Step
    requires args != []
  {
    if args[0] == "pilot-write" then PilotWrite(s, args, env)
    else if args[0] == "pilot-read" then PilotRead(s, args, env)
    else if args[0] == "pilot-write-source" then PilotWriteSource(s, args, env)
    else Compile(s, args, c, env)
  }

  /** Why an invocation is turned away before anything is dispatched. */
  function Refusal(s: State, args: seq<string>, env: Env): Option<Message> {
    if args == [] then Some(MissingCommand)
    else if args == ["--help"] then if Reserved(s) then None else Some(LogExhausted)
    else if args[0] !in env.allowed then Some(DeniedByLane)
    else if FirstEscape(args[1..], env).Some? then FirstEscape(args[1..], env)
    else if !Reserved(s) then Some(LogExhausted)
    else None
  }

  function Invoke(s: State, args: seq<string>, c: Compilation, env: Env): Step {
    var refusal := Refusal(s, args, env);
    if refusal.Some? then Denied(s, args, refusal.value, env)
    else if args == ["--help"] then Close(s, args, env.help, [], env)
    else Dispatch(s, args, c, env)
  }

  datatype Call = Call(args: seq<string>, compilation: Compilation)

  function Run(s: State, calls: seq<Call>, env: Env): (State, seq<Write>)
    decreases |calls|
  {
    if calls == [] then (s, [])
    else
      var step := Invoke(s, calls[0].args, calls[0].compilation, env);
      var rest := Run(step.state, calls[1..], env);
      (rest.0, step.writes + rest.1)
  }

  // --- What every invocation keeps ---

  /** The writes account for the candidate: each replaces what was there, and nothing else changes. */
  ghost predicate Explains(before: Files, writes: seq<Write>, after: Files, env: Env)
    decreases |writes|
  {
    if writes == [] then before == after
    else
      match writes[0]
      case Drifted(path, o, n) =>
        path in before && before[path] == o && Explains(before[path := n], writes[1..], after, env)
      case Replaced(path, o, n, named) =>
        path in before && before[path] == o && env.digest(o) == named
        && Explains(before[path := n], writes[1..], after, env)
      case Artifact(path, n) => Explains(before[path := n], writes[1..], after, env)
      case Compiled(earlier, later) => before == earlier && Explains(later, writes[1..], after, env)
  }

  function Injections(writes: seq<Write>): seq<Write> {
    if writes == [] then []
    else (if writes[0].Drifted? then [writes[0]] else []) + Injections(writes[1..])
  }

  /** The drift file changes in its flag only, from false to true, and just when its one injection is written. */
  ghost predicate DriftKept(d: Option<Drift>, e: Option<Drift>, writes: seq<Write>) {
    if d.None? then e.None? && Injections(writes) == []
    else
      && e.Some? && e.value == d.value.(applied := e.value.applied) && (d.value.applied ==> e.value.applied)
      && if d.value.applied == e.value.applied then Injections(writes) == []
         else
           && Decode(d.value.before64).Some? && Decode(d.value.after64).Some?
           && Injections(writes) == [Drifted(CORE, Decode(d.value.before64).value, Decode(d.value.after64).value)]
  }

  ghost predicate Sound(s: State, t: State, writes: seq<Write>, env: Env) {
    && s.log <= t.log && (|s.log| <= LOG_CAP ==> |t.log| <= LOG_CAP)
    && Explains(s.files, writes, t.files, env)
    && DriftKept(s.drift, t.drift, writes)
  }

  lemma {:induction false} ExplainsAppend(a: Files, first: seq<Write>, b: Files, second: seq<Write>, c: Files, env: Env)
    requires Explains(a, first, b, env) && Explains(b, second, c, env)
    ensures Explains(a, first + second, c, env)
    decreases |first|
  {
    if first == [] {
      assert first + second == second;
    } else {
      assert (first + second)[1..] == first[1..] + second;
      match first[0] {
        case Drifted(path, o, n) => ExplainsAppend(a[path := n], first[1..], b, second, c, env);
        case Replaced(path, o, n, named) => ExplainsAppend(a[path := n], first[1..], b, second, c, env);
        case Artifact(path, n) => ExplainsAppend(a[path := n], first[1..], b, second, c, env);
        case Compiled(earlier, later) => ExplainsAppend(later, first[1..], b, second, c, env);
      }
    }
  }

  lemma {:induction false} InjectionsAppend(first: seq<Write>, second: seq<Write>)
    ensures Injections(first + second) == Injections(first) + Injections(second)
  {
    if first == [] {
      assert first + second == second;
    } else {
      var head: seq<Write> := if first[0].Drifted? then [first[0]] else [];
      InjectionsAppend(first[1..], second);
      assert (first + second)[1..] == first[1..] + second;
      Concatenated(head, Injections(first[1..]), Injections(second));
    }
  }

  lemma {:induction false} SoundAppend(a: State, first: seq<Write>, b: State, second: seq<Write>, c: State, env: Env)
    requires Sound(a, b, first, env) && Sound(b, c, second, env)
    ensures Sound(a, c, first + second, env)
  {
    ExplainsAppend(a.files, first, b.files, second, c.files, env);
    InjectionsAppend(first, second);
  }

  lemma {:induction false} RecordSound(s: State, argv: seq<string>, output: bytes, error: bytes, code: int, env: Env)
    ensures var t := Record(s, argv, output, error, code, env); t.Some? ==> Sound(s, t.value, [], env)
  {}

  lemma {:induction false} DeniedSound(s: State, args: seq<string>, message: Message, env: Env)
    ensures var step := Denied(s, args, message, env);
            Sound(s, step.state, [], env) && step.writes == [] && step.state.files == s.files
  {
    RecordSound(s, args, [], env.text(message), 126, env);
  }

  /** A single write, as a step of its own. */
  lemma {:induction false} WriteSound(s: State, t: State, w: Write, env: Env)
    requires t.log == s.log && t.drift == s.drift && !w.Drifted? && Explains(s.files, [w], t.files, env)
    ensures Sound(s, t, [w], env)
  {}

  lemma {:induction false} CloseSound(s: State, t: State, args: seq<string>, output: bytes, writes: seq<Write>,
                                      env: Env)
    requires Sound(s, t, writes, env)
    ensures var step := Close(t, args, output, writes, env); Sound(s, step.state, step.writes, env)
  {
    RecordSound(t, args, output, [], 0, env);
    if Record(t, args, output, [], 0, env).Some? {
      SoundAppend(s, writes, t, [], Record(t, args, output, [], 0, env).value, env);
      assert writes + [] == writes;
    }
  }

  lemma {:induction false} InjectSound(s: State, d: Drift, before: bytes, after: bytes, command: string, env: Env)
    requires s.drift == Some(d) && !d.applied && Decode(d.before64) == Some(before) && Decode(d.after64) == Some(after)
    requires CORE in s.files && s.files[CORE] == before
    ensures match Inject(s, d, before, after, command, env)
            case Go(t, writes) => Sound(s, t, writes, env)
            case Halt(step) => Sound(s, step.state, step.writes, env)
  {
    var t := s.(files := s.files[CORE := after], drift := Some(d.(applied := true)));
    var w := Drifted(CORE, before, after);
    assert [w][1..] == [];
    assert Injections([w]) == [w] + Injections([]);
    assert Explains(t.files, [], t.files, env);
    assert Sound(s, t, [w], env);
    var recorded := Record(t, ["pilot-drift", command], env.utf8(Evidence(d, command)), [], 0, env);
    RecordSound(t, ["pilot-drift", command], env.utf8(Evidence(d, command)), [], 0, env);
    if recorded.Some? {
      SoundAppend(s, [w], t, [], recorded.value, env);
      assert [w] + [] == [w];
    }
  }

  /** What the drift comes to, by the first check that decides it. */
  lemma {:induction false} ApplyDriftCases(s: State, args: seq<string>, env: Env)
    ensures s.drift.None? || !Triggers(args, env) || s.drift.value.applied ==> ApplyDrift(s, args, env) == Go(s, [])
    ensures s.drift.Some? && Triggers(args, env) && !s.drift.value.applied ==>
              var d, applied := s.drift.value, ApplyDrift(s, args, env);
              var before, after := Decode(d.before64), Decode(d.after64);
              if d.target != CORE then applied == Halt(Denied(s, args, InvalidDriftTarget, env))
              else if before.None? || after.None? then applied == Halt(Step(s, Raised(BadDrift), []))
              else if CORE !in s.files then applied == Halt(Step(s, Raised(NoTarget), []))
              else if s.files[CORE] != before.value then applied == Halt(Denied(s, args, CandidateChanged, env))
              else args != [] && applied == Inject(s, d, before.value, after.value, args[0], env)
  {
    hide Triggers, Decode, CORE, Denied, Inject;
    if s.drift.Some? && Triggers(args, env) { TriggersName(args, env); }
  }

  lemma {:induction false} ApplyDriftSound(s: State, args: seq<string>, env: Env)
    ensures match ApplyDrift(s, args, env)
            case Go(t, writes) => Sound(s, t, writes, env)
            case Halt(step) => Sound(s, step.state, step.writes, env)
  {
    hide ApplyDrift, Denied, Inject, Decode, Sound, Triggers, CORE;
    ApplyDriftCases(s, args, env);
    NothingSound(s, env);
    DeniedSound(s, args, InvalidDriftTarget, env);
    DeniedSound(s, args, CandidateChanged, env);
    if s.drift.Some? && Triggers(args, env) && !s.drift.value.applied {
      TriggersName(args, env);
      var d := s.drift.value;
      var before, after := Decode(d.before64), Decode(d.after64);
      if before.Some? && after.Some? && CORE in s.files && s.files[CORE] == before.value {
        InjectSound(s, d, before.value, after.value, args[0], env);
      }
    }
  }

  lemma {:induction false} FinishSound(s: State, t: State, args: seq<string>, output: bytes, error: bytes, code: int,
                                       shown: bytes, writes: seq<Write>, env: Env)
    requires Sound(s, t, writes, env)
    ensures var step := Finish(t, args, output, error, code, shown, writes, env);
            Sound(s, step.state, step.writes, env)
  {
    RecordSound(t, args, output, error, code, env);
    var recorded := Record(t, args, output, error, code, env);
    if recorded.Some? {
      SoundAppend(s, writes, t, [], recorded.value, env);
      assert writes + [] == writes;
      ApplyDriftSound(recorded.value, args, env);
      match ApplyDrift(recorded.value, args, env) {
        case Halt(step) => SoundAppend(s, writes, recorded.value, step.writes, step.state, env);
        case Go(u, more) => SoundAppend(s, writes, recorded.value, more, u, env);
      }
    }
  }

  lemma {:induction false} NothingSound(s: State, env: Env)
    ensures Sound(s, s, [], env)
  {}

  lemma {:induction false} PilotWriteSound(s: State, args: seq<string>, env: Env)
    ensures var step := PilotWrite(s, args, env); Sound(s, step.state, step.writes, env)
  {
    hide Close, Denied, Sound, Decode, IsDigest;
    forall message ensures var step := Denied(s, args, message, env); Sound(s, step.state, step.writes, env) {
      DeniedSound(s, args, message, env);
    }
    if |args| == 3 && Decode(args[2]).Some? && env.resolve(args[1]).Some? {
      var path, body := env.resolve(args[1]).value, Decode(args[2]).value;
      var t := s.(files := s.files[path := body]);
      WriteSound(s, t, Artifact(path, body), env);
      CloseSound(s, t, args, env.text(ArtifactWritten), [Artifact(path, body)], env);
    }
  }

  lemma {:induction false} PilotReadSound(s: State, args: seq<string>, env: Env)
    ensures var step := PilotRead(s, args, env); Sound(s, step.state, step.writes, env)
  {
    hide Finish, Denied, Sound;
    forall message ensures var step := Denied(s, args, message, env); Sound(s, step.state, step.writes, env) {
      DeniedSound(s, args, message, env);
    }
    if |args| == 2 && env.resolve(args[1]).Some? && env.resolve(args[1]).value in s.files {
      var source := s.files[env.resolve(args[1]).value];
      NothingSound(s, env);
      FinishSound(s, s, args, source, [], 0, env.present(source), [], env);
    }
  }

  lemma {:induction false} PilotWriteSourceSound(s: State, args: seq<string>, env: Env)
    ensures var step := PilotWriteSource(s, args, env); Sound(s, step.state, step.writes, env)
  {
    hide Close, Denied, Sound, Decode, IsDigest;
    forall message ensures var step := Denied(s, args, message, env); Sound(s, step.state, step.writes, env) {
      DeniedSound(s, args, message, env);
    }
    if |args| == 4 && Decode(args[3]).Some? && env.resolve(args[1]).Some? {
      var path, body := env.resolve(args[1]).value, Decode(args[3]).value;
      if path in s.files && env.digest(s.files[path]) == args[2] {
        var t, w := s.(files := s.files[path := body]), Replaced(path, s.files[path], body, args[2]);
        WriteSound(s, t, w, env);
        CloseSound(s, t, args, env.text(SourceWritten), [w], env);
      }
    }
  }

  lemma {:induction false} CompileSound(s: State, args: seq<string>, c: Compilation, env: Env)
    ensures var step := Compile(s, args, c, env); Sound(s, step.state, step.writes, env)
  {
    if c.spawnFailure.Some? {
      NothingSound(s, env);
      FinishSound(s, s, args, [], c.spawnFailure.value, 125, [], [], env);
    } else {
      var captured, t, w := Drain(c.chunks, [], []), s.(files := c.files), Compiled(s.files, c.files);
      WriteSound(s, t, w, env);
      if captured.failure.Some? {
        var error := captured.error + env.text(captured.failure.value);
        FinishSound(s, t, args, captured.output, error, 124, captured.output, [w], env);
      } else if c.code.Some? {
        FinishSound(s, t, args, captured.output, captured.error, c.code.value, captured.output, [w], env);
      }
    }
  }

  lemma {:induction false} DispatchSound(s: State, args: seq<string>, c: Compilation, env: Env)
    requires args != []
    ensures var step := Dispatch(s, args, c, env); Sound(s, step.state, step.writes, env)
  {
    hide PilotWrite, PilotRead, PilotWriteSource, Compile, Sound;
    PilotWriteSound(s, args, env);
    PilotReadSound(s, args, env);
    PilotWriteSourceSound(s, args, env);
    CompileSound(s, args, c, env);
  }

  /** One invocation: log append-only and capped, candidate explained by its writes, drift file kept. */
  lemma {:induction false} InvokeSound(s: State, args: seq<string>, c: Compilation, env: Env)
    ensures var step := Invoke(s, args, c, env); Sound(s, step.state, step.writes, env)
  {
    var refusal := Refusal(s, args, env);
    if refusal.Some? {
      DeniedSound(s, args, refusal.value, env);
    } else if args == ["--help"] {
      NothingSound(s, env);
      CloseSound(s, s, args, env.help, [], env);
    } else {
      DispatchSound(s, args, c, env);
    }
  }

  /** ... and so for any sequence of invocations. */
  lemma {:induction false} RunSound(s: State, calls: seq<Call>, env: Env)
    ensures var (t, writes) := Run(s, calls, env); Sound(s, t, writes, env)
    decreases |calls|
  {
    if calls == [] {
      NothingSound(s, env);
    } else {
      var step := Invoke(s, calls[0].args, calls[0].compilation, env);
      InvokeSound(s, calls[0].args, calls[0].compilation, env);
      RunSound(step.state, calls[1..], env);
      var rest := Run(step.state, calls[1..], env);
      SoundAppend(s, step.writes, step.state, rest.1, rest.0, env);
    }
  }

  /** Over any run the drift is written at most once, and only over the exact bytes recorded for it. */
  lemma {:induction false} DriftIsWrittenOnce(s: State, calls: seq<Call>, env: Env, before: bytes, after: bytes)
    requires s.drift == Some(Prepared(before, after, env.digest))
    ensures var (t, writes) := Run(s, calls, env);
            && t.drift.Some? && Carries(t.drift.value, before, after, env)
            && Injections(writes) == if t.drift.value.applied then [Drifted(CORE, before, after)] else []
  {
    RunSound(s, calls, env);
    DecodeInvertsEncode(before);
    DecodeInvertsEncode(after);
  }

  /** At any point of a run, a source write replaced exactly the bytes whose digest it named. */
  lemma {:induction false} WriteReplacesNamedBytes(before: Files, writes: seq<Write>, after: Files, env: Env, i: nat)
    returns (current: Files)
    requires Explains(before, writes, after, env) && i < |writes| && writes[i].Replaced?
    ensures Explains(before, writes[..i], current, env)
    ensures writes[i].path in current && current[writes[i].path] == writes[i].old_
    ensures env.digest(writes[i].old_) == writes[i].named
    ensures Explains(current[writes[i].path := writes[i].new_], writes[i + 1..], after, env)
    decreases i
  {
    if i == 0 {
      current := before;
    } else {
      var next := match writes[0]
        case Drifted(path, o, n) => before[path := n]
        case Replaced(path, o, n, named) => before[path := n]
        case Artifact(path, n) => before[path := n]
        case Compiled(earlier, later) => later;
      current := WriteReplacesNamedBytes(next, writes[1..], after, env, i - 1);
      assert writes[..i][1..] == writes[1..][..i - 1];
      assert writes[1..][i - 1 + 1..] == writes[i + 1..];
    }
  }

  /** A refused invocation: exit 126, at most one more log line, nothing else. */
  ghost predicate Refused(s: State, step: Step) {
    && step.exit.Exited? && step.exit.code == 126 && step.writes == []
    && step.state.files == s.files && step.state.drift == s.drift
  }

  lemma {:induction false} DeniedRefuses(s: State, args: seq<string>, message: Message, env: Env)
    ensures Refused(s, Denied(s, args, message, env))
  {
    hide Line, Joined;
  }

  lemma {:induction false} StaleSourceWrite(s: State, args: seq<string>, env: Env)
    requires |args| == 4 && env.resolve(args[1]).Some?
    requires env.resolve(args[1]).value in s.files ==> env.digest(s.files[env.resolve(args[1]).value]) != args[2]
    ensures Refused(s, PilotWriteSource(s, args, env))
  {
    hide Denied, Refused, Decode, Close, IsDigest;
    DeniedRefuses(s, args, SourceTarget, env);
    DeniedRefuses(s, args, SourceDigest, env);
    DeniedRefuses(s, args, SourceStale, env);
  }

  /** A source write that names any other digest than the target's is refused and changes no file. */
  lemma {:induction false} StaleWriteIsRefused(s: State, args: seq<string>, c: Compilation, env: Env)
    requires |args| == 4 && args[0] == "pilot-write-source" && env.resolve(args[1]).Some?
    requires env.resolve(args[1]).value in s.files ==> env.digest(s.files[env.resolve(args[1]).value]) != args[2]
    ensures Refused(s, Invoke(s, args, c, env))
  {
    hide PilotWriteSource, Denied, Refused, Invoke, Refusal;
    SourceWriteDispatched(s, args, c, env);
    StaleSourceWrite(s, args, env);
    var refusal := Refusal(s, args, env);
    if refusal.Some? { DeniedRefuses(s, args, refusal.value, env); }
  }

  lemma {:induction false} SourceWriteDispatched(s: State, args: seq<string>, c: Compilation, env: Env)
    requires |args| == 4 && args[0] == "pilot-write-source"
    ensures Invoke(s, args, c, env)
         == match Refusal(s, args, env)
            case Some(message) => Denied(s, args, message, env)
            case None => PilotWriteSource(s, args, env)
  {
    hide PilotWriteSource, PilotWrite, PilotRead, Compile, Close, Denied, Refusal;
    assert |["--help"]| == 1 && |"pilot-write"| == 11 && |"pilot-read"| == 10 && |"pilot-write-source"| == 18;
  }

  /**
   * The point of the drift: reading the core source injects it, and a write that then names the
   * digest the read reported is refused.
   */
  lemma {:induction false} ReadThenWriteIsStale(s: State, read: seq<string>, write: seq<string>, c: Compilation,
                                                env: Env, before: bytes, after: bytes)
    requires s.drift == Some(Prepared(before, after, env.digest)) && env.digest(before) != env.digest(after)
    requires CORE in s.files
    requires |read| == 2 && read[0] == "pilot-read" && env.resolve(read[1]) == Some(CORE)
    requires |write| == 4 && write[0] == "pilot-write-source" && env.resolve(write[1]) == Some(CORE)
    requires write[2] == env.digest(s.files[CORE])
    requires var first := Invoke(s, read, c, env).exit; first.Exited? && first.code == 0
    ensures s.files[CORE] == before
    ensures var first := Invoke(s, read, c, env);
            var second := Invoke(first.state, write, c, env);
            && first.state.files == s.files[CORE := after] && first.writes == [Drifted(CORE, before, after)]
            && Refused(first.state, second)
  {
    DecodeInvertsEncode(before);
    DecodeInvertsEncode(after);
    ReadInjects(s, read, env, before, after);
    StaleWriteIsRefused(Invoke(s, read, c, env).state, write, c, env);
  }

  lemma {:induction false} ReadInjects(s: State, read: seq<string>, env: Env, before: bytes, after: bytes)
    requires s.drift == Some(Prepared(before, after, env.digest)) && CORE in s.files
    requires |read| == 2 && read[0] == "pilot-read" && env.resolve(read[1]) == Some(CORE)
    requires var exit := PilotRead(s, read, env).exit; exit.Exited? && exit.code == 0
    ensures s.files[CORE] == before
    ensures var step := PilotRead(s, read, env);
            step.state.files == s.files[CORE := after] && step.writes == [Drifted(CORE, before, after)]
  {
    DecodeInvertsEncode(before);
    DecodeInvertsEncode(after);
    hide Line, Decode, Joined, Evidence, Encode;
    var source := s.files[CORE];
    var step := Finish(s, read, source, [], 0, env.present(source), [], env);
    assert step == PilotRead(s, read, env);
    assert Triggers(read, env);
    hide Triggers, PilotRead;
    TriggerInjects(s, read, source, env, before, after);
  }

  /** A triggering command that ends well has injected the drift, over the recorded bytes. */
  lemma {:induction false} TriggerInjects(s: State, args: seq<string>, output: bytes, env: Env, before: bytes,
                                          after: bytes)
    requires s.drift == Some(Prepared(before, after, env.digest)) && CORE in s.files && Triggers(args, env)
    requires Decode(Encode(before)) == Some(before) && Decode(Encode(after)) == Some(after)
    requires var exit := Finish(s, args, output, [], 0, env.present(output), [], env).exit;
             exit.Exited? && exit.code == 0
    ensures s.files[CORE] == before
    ensures var step := Finish(s, args, output, [], 0, env.present(output), [], env);
            step.state.files == s.files[CORE := after] && step.writes == [Drifted(CORE, before, after)]
  {
    hide ApplyDrift, Line, Decode, Joined, Evidence, Encode, Triggers;
    var recorded := Record(s, args, output, [], 0, env);
    assert recorded.Some? && recorded.value.drift == s.drift && recorded.value.files == s.files;
    if recorded.Some? { ApplyDriftCases(recorded.value, args, env); }
    assert [] + [Drifted(CORE, before, after)] == [Drifted(CORE, before, after)];
  }

  // --- The reserved log budget ---

  /** Text is encoded character by character. */
  ghost predicate Additive(utf8: string -> bytes) {
    forall t, u :: |utf8(t + u)| == |utf8(t)| + |utf8(u)|
  }

  /** What the libraries and the compiler are taken to keep to. */
  ghost predicate Ordinary(env: Env) {
    && Additive(env.utf8) && |env.utf8("\0")| == 1
    && (forall t :: |env.utf8(t)| <= 4 * |t|) && (forall b :: |env.digest(b)| == 64)
    && (forall m :: |env.text(m)| <= 1024) && |env.help| <= 65536
  }

  ghost predicate Bounded(c: Compilation) {
    && (c.spawnFailure.Some? ==> |c.spawnFailure.value| <= 65536)
    && (forall i | 0 <= i < |c.chunks| :: c.chunks[i].Chunk? ==> |c.chunks[i].data| <= 65536)
    && (c.code.Some? ==> -0x8000_0000 <= c.code.value < 0x8000_0000)
  }

  const ARGV_LIMIT := 1572864
  const DRIFT_LINE := 4096

  /** All bytes that reads deliver on one of the two streams. */
  function OnStream(chunks: seq<Read>, isError: bool): bytes {
    if chunks == [] then []
    else
      (if chunks[0].Chunk? && chunks[0].isError == isError then chunks[0].data else []) + OnStream(chunks[1..], isError)
  }

  /** How many reads are taken: up to and with the one that passes the cap, or up to the deadline. */
  function Taken(chunks: seq<Read>, before: nat): (n: nat)
    ensures n <= |chunks|
  {
    if chunks == [] || chunks[0].Expired? then 0
    else if before + |chunks[0].data| > CAP then 1
    else 1 + Taken(chunks[1..], before + |chunks[0].data|)
  }

  function Volume(chunks: seq<Read>): nat { |OnStream(chunks, false)| + |OnStream(chunks, true)| }

  /** A capture is the first n reads, and says why there were no more. */
  ghost predicate Captures(c: Capture, chunks: seq<Read>, n: nat, output: bytes, error: bytes)
    requires n <= |chunks|
  {
    && c.output == output + OnStream(chunks[..n], false) && c.error == error + OnStream(chunks[..n], true)
    && c.failure == (if |output| + |error| + Volume(chunks[..n]) > CAP then Some(OutputOverCap)
                     else if n < |chunks| then Some(TimedOut) else None)
    && (forall i | 0 <= i < n :: chunks[i].Chunk?)
    && (c.failure == Some(TimedOut) ==> n < |chunks| && chunks[n].Expired?)
    && (n > 0 ==> |output| + |error| + Volume(chunks[..n - 1]) <= CAP)
  }

  /** What is captured: each stream's bytes in order, up to the deadline or past the cap by one read. */
  lemma {:induction false} DrainTakes(chunks: seq<Read>, output: bytes, error: bytes)
    requires |output| + |error| <= CAP
    ensures Captures(Drain(chunks, output, error), chunks, Taken(chunks, |output| + |error|), output, error)
  {
    hide Captures, OnStream;
    if chunks == [] || chunks[0].Expired? {
      TakesNone(chunks, output, error);
    } else {
      var data := chunks[0].data;
      var output', error' := if chunks[0].isError then output else output + data,
                             if chunks[0].isError then error + data else error;
      if |output'| + |error'| <= CAP {
        DrainTakes(chunks[1..], output', error');
        TakesOneMore(chunks, Drain(chunks, output, error), Taken(chunks[1..], |output'| + |error'|), output, error);
      } else {
        TakesLast(chunks, output, error);
      }
    }
  }

  lemma {:induction false} TakesNone(chunks: seq<Read>, output: bytes, error: bytes)
    requires |output| + |error| <= CAP && (chunks == [] || chunks[0].Expired?)
    ensures Captures(Capture(output, error, if chunks == [] then None else Some(TimedOut)), chunks, 0, output, error)
  {
    NothingTaken(chunks);
    assert output + [] == output && error + [] == error;
  }

  lemma {:induction false} TakesLast(chunks: seq<Read>, output: bytes, error: bytes)
    requires |output| + |error| <= CAP && chunks != [] && chunks[0].Chunk?
    requires |output| + |error| + |chunks[0].data| > CAP
    ensures Captures(Capture(if chunks[0].isError then output else output + chunks[0].data,
                             if chunks[0].isError then error + chunks[0].data else error, Some(OutputOverCap)),
                     chunks, 1, output, error)
  {
    NothingTaken(chunks);
    StreamStep(chunks, 1, output, error);
    hide OnStream;
    assert output + [] == output && error + [] == error;
  }

  lemma {:induction false} TakesOneMore(chunks: seq<Read>, c: Capture, n: nat, output: bytes, error: bytes)
    requires n < |chunks| && chunks[0].Chunk? && |output| + |error| <= CAP
    requires var data := chunks[0].data;
             Captures(c, chunks[1..], n, if chunks[0].isError then output else output + data,
                      if chunks[0].isError then error + data else error)
    ensures Captures(c, chunks, n + 1, output, error)
  {
    NothingTaken(chunks);
    StreamStep(chunks, n + 1, output, error);
    StreamStep(chunks, n, output, error);
    hide OnStream;
  }

  lemma {:induction false} NothingTaken(chunks: seq<Read>)
    ensures OnStream(chunks[..0], false) == [] && OnStream(chunks[..0], true) == []
    ensures |chunks| > 0 ==> OnStream(chunks[1..][..0], false) == [] && OnStream(chunks[1..][..0], true) == []
  {}

  /** The first of some taken reads goes to its stream, the others behind it. */
  lemma {:induction false} StreamStep(chunks: seq<Read>, n: nat, output: bytes, error: bytes)
    requires n <= |chunks| && chunks != [] && chunks[0].Chunk?
    ensures n == 0 ==> OnStream(chunks[..n], false) == [] && OnStream(chunks[..n], true) == []
    ensures n > 0 ==>
              var rest, data := chunks[1..][..n - 1], chunks[0].data;
              && output + OnStream(chunks[..n], false)
                 == (if chunks[0].isError then output else output + data) + OnStream(rest, false)
              && error + OnStream(chunks[..n], true)
                 == (if chunks[0].isError then error + data else error) + OnStream(rest, true)
              && Volume(chunks[..n]) == |data| + Volume(rest)
  {
    if n > 0 { assert chunks[..n][1..] == chunks[1..][..n - 1]; }
  }

  lemma {:induction false} DrainBound(chunks: seq<Read>, output: bytes, error: bytes)
    requires |output| + |error| <= CAP
    requires forall i | 0 <= i < |chunks| :: chunks[i].Chunk? ==> |chunks[i].data| <= 65536
    ensures var c := Drain(chunks, output, error); |c.output| + |c.error| <= CAP + 65536
  {
    if chunks != [] && chunks[0].Chunk? {
      var data := chunks[0].data;
      var output', error' := if chunks[0].isError then output else output + data,
                             if chunks[0].isError then error + data else error;
      if |output'| + |error'| <= CAP { DrainBound(chunks[1..], output', error'); }
    }
  }

  lemma {:induction false} CodeLength(code: int)
    requires -0x8000_0000 <= code < 0x8000_0000
    ensures |Integer(code)| <= 11
  {
    assert Text.Pow10(4) == 10 * 10 * 10 * 10;
    assert Text.Pow10(8) == 10 * 10 * 10 * 10 * Text.Pow10(4);
    assert Text.Pow10(10) == 10 * 10 * Text.Pow10(8);
    Text.DecimalLength(if code < 0 then -code else code, 10);
  }

  /** The first record of a dispatched command leaves room in the reservation for a drift record. */
  lemma {:induction false} DispatchedLineFits(argv: bytes, output: bytes, error: bytes, code: int)
    requires |argv| <= ARGV_LIMIT && |output| + |error| <= CAP + 65536 + 1024 && -0x8000_0000 <= code < 0x8000_0000
    ensures |Line(argv, output, error, code)| <= 4 * CAP - DRIFT_LINE
  {
    LineLength(argv, output, error, code);
    CodeLength(code);
  }

  lemma {:induction false} DriftLineFits(d: Drift, command: string, env: Env)
    requires Ordinary(env) && |d.beforeDigest| == 64 && |d.afterDigest| == 64 && |command| <= 17
    ensures |Line(env.utf8(Joined(["pilot-drift", command])), env.utf8(Evidence(d, command)), [], 0)| <= DRIFT_LINE
  {
    var argv, evidence := Joined(["pilot-drift", command]), Evidence(d, command);
    var list := ["pilot-drift", command];
    assert list[1..] == [command] && |list[0]| == 11;
    assert argv == list[0] + "\0" + Joined(list[1..]) && Joined([command]) == command;
    EvidenceLength(d, command);
    assert |env.utf8(argv)| <= 116 && |env.utf8(evidence)| <= 1000;
    LineLength(env.utf8(argv), env.utf8(evidence), [], 0);
    CodeLength(0);
  }

  lemma {:induction false} EvidenceLength(d: Drift, command: string)
    ensures |Evidence(d, command)| == |d.afterDigest| + |d.beforeDigest| + |command| + 56
  {
    assert |"{\"after_sha256\": \""| == 18 && |"\", \"before_sha256\": \""| == 21;
    assert |"\", \"trigger\": \""| == 15 && |"\"}"| == 2;
  }

  ghost predicate DriftDigests(s: State) {
    s.drift.Some? ==> |s.drift.value.beforeDigest| == 64 && |s.drift.value.afterDigest| == 64
  }

  lemma {:induction false} TriggerLength(args: seq<string>, env: Env)
    requires Triggers(args, env)
    ensures |args[0]| <= 17
  {
    assert |"graph"| == 5 && |"context"| == 7 && |"query"| == 5 && |"pilot-read"| == 10;
    assert |"workspace-graph"| == 15 && |"workspace-context"| == 17;
  }

  lemma {:induction false} ApplyDriftFits(s: State, args: seq<string>, env: Env)
    requires Ordinary(env) && DriftDigests(s) && |s.log| + DRIFT_LINE <= LOG_CAP
    ensures var applied := ApplyDrift(s, args, env); applied.Halt? ==> applied.step.exit != Raised(LogFull)
  {
    hide ApplyDrift, Line, Joined, Evidence, Decode, Triggers, CORE;
    ApplyDriftCases(s, args, env);
    if s.drift.Some? && Triggers(args, env) {
      TriggersName(args, env);
      TriggerLength(args, env);
      DriftLineFits(s.drift.value, args[0], env);
    }
  }

  lemma {:induction false} FinishFits(s: State, args: seq<string>, output: bytes, error: bytes, code: int, shown: bytes,
                                      writes: seq<Write>, env: Env)
    requires Ordinary(env) && DriftDigests(s) && Reserved(s) && |env.utf8(Joined(args))| <= ARGV_LIMIT
    requires |output| + |error| <= CAP + 65536 + 1024 && -0x8000_0000 <= code < 0x8000_0000
    ensures Finish(s, args, output, error, code, shown, writes, env).exit != Raised(LogFull)
  {
    hide Line, Joined, ApplyDrift, Integer;
    DispatchedLineFits(env.utf8(Joined(args)), output, error, code);
    var recorded := Record(s, args, output, error, code, env);
    assert recorded.Some?;
    ApplyDriftFits(recorded.value, args, env);
  }

  lemma {:induction false} CloseFits(s: State, args: seq<string>, output: bytes, writes: seq<Write>, env: Env)
    requires Reserved(s) && |env.utf8(Joined(args))| <= ARGV_LIMIT && |output| <= CAP
    ensures Close(s, args, output, writes, env).exit != Raised(LogFull)
  {
    hide Line, Joined;
    DispatchedLineFits(env.utf8(Joined(args)), output, [], 0);
  }

  lemma {:induction false} CompileFits(s: State, args: seq<string>, c: Compilation, env: Env)
    requires Ordinary(env) && Bounded(c) && DriftDigests(s) && Reserved(s) && |env.utf8(Joined(args))| <= ARGV_LIMIT
    ensures Compile(s, args, c, env).exit != Raised(LogFull)
  {
    if c.spawnFailure.Some? {
      FinishFits(s, args, [], c.spawnFailure.value, 125, [], [], env);
    } else {
      var captured, t, writes := Drain(c.chunks, [], []), s.(files := c.files), [Compiled(s.files, c.files)];
      DrainBound(c.chunks, [], []);
      if captured.failure.Some? {
        var error := captured.error + env.text(captured.failure.value);
        FinishFits(t, args, captured.output, error, 124, captured.output, writes, env);
      } else if c.code.Some? {
        FinishFits(t, args, captured.output, captured.error, c.code.value, captured.output, writes, env);
      }
    }
  }

  lemma {:induction false} PilotReadFits(s: State, args: seq<string>, env: Env)
    requires Ordinary(env) && DriftDigests(s) && Reserved(s) && |env.utf8(Joined(args))| <= ARGV_LIMIT
    ensures PilotRead(s, args, env).exit != Raised(LogFull)
  {
    hide Finish, Denied, Joined, Ordinary;
    forall message ensures Denied(s, args, message, env).exit != Raised(LogFull) {
      DeniedRefuses(s, args, message, env);
    }
    if |args| == 2 && env.resolve(args[1]).Some? && Readable(s.files, env.resolve(args[1]).value, env) {
      var source := s.files[env.resolve(args[1]).value];
      FinishFits(s, args, source, [], 0, env.present(source), [], env);
    }
  }

  lemma {:induction false} ArtifactFits(s: State, args: seq<string>, env: Env)
    requires Ordinary(env) && Reserved(s) && |env.utf8(Joined(args))| <= ARGV_LIMIT
    ensures PilotWrite(s, args, env).exit != Raised(LogFull)
  {
    hide PilotWrite, Line, Decode, Joined;
    ArtifactLands(s, args, env);
    DispatchedLineFits(env.utf8(Joined(args)), env.text(ArtifactWritten), [], 0);
  }

  lemma {:induction false} SourceWriteFits(s: State, args: seq<string>, env: Env)
    requires Ordinary(env) && Reserved(s) && |env.utf8(Joined(args))| <= ARGV_LIMIT
    ensures PilotWriteSource(s, args, env).exit != Raised(LogFull)
  {
    hide PilotWriteSource, Line, Decode, Joined;
    SourceWriteLands(s, args, env);
    SourceWriteQuiet(s, args, env);
    DispatchedLineFits(env.utf8(Joined(args)), env.text(SourceWritten), [], 0);
  }

  /**
   * With arguments of at most 1.5 MiB the reservation made before a dispatch covers all of its
   * records: no invocation fails for want of log space after it has acted.
   */
  lemma {:induction false} ReservedRecordsFit(s: State, args: seq<string>, c: Compilation, env: Env)
    requires Ordinary(env) && Bounded(c) && DriftDigests(s) && |env.utf8(Joined(args))| <= ARGV_LIMIT
    ensures Invoke(s, args, c, env).exit != Raised(LogFull)
  {
    hide PilotWrite, PilotRead, PilotWriteSource, Compile, Close, Line, Joined, FirstEscape;
    var refusal := Refusal(s, args, env);
    if refusal.None? {
      assert Reserved(s);
      if args == ["--help"] {
        CloseFits(s, args, env.help, [], env);
      } else {
        ArtifactFits(s, args, env);
        SourceWriteFits(s, args, env);
        PilotReadFits(s, args, env);
        CompileFits(s, args, c, env);
      }
    }
  }

  // --- What the transport delivers ---

  function Weight(args: seq<string>, env: Env): nat {
    if args == [] then 0 else |env.utf8(args[0])| + Weight(args[1..], env)
  }

  /** `invoke` of the MCP server: 1 to 64 arguments without NUL, of at most 1 MiB, or no invocation at all. */
  ghost predicate Delivered(args: seq<string>, env: Env) {
    1 <= |args| <= 64 && (forall i | 0 <= i < |args| :: '\0' !in args[i]) && Weight(args, env) <= CAP
  }

  /** The joined arguments take their own bytes and one for each separator. */
  lemma {:induction false} JoinedWeight(args: seq<string>, env: Env)
    requires Additive(env.utf8) && |env.utf8("\0")| == 1 && args != []
    ensures |env.utf8(Joined(args))| == Weight(args, env) + |args| - 1
  {
    if |args| > 1 {
      JoinedWeight(args[1..], env);
      assert Joined(args) == args[0] + "\0" + Joined(args[1..]);
    }
  }

  /** The argument field of a log line names the invocation. */
  lemma {:induction false} DeliveredArgumentsAreNamed(a: seq<string>, b: seq<string>, env: Env)
    requires Delivered(a, env) && Delivered(b, env)
    ensures Joined(a) == Joined(b) <==> a == b
  {
    Text.SplitInvertsJoin(a, '\0');
    Text.SplitInvertsJoin(b, '\0');
  }

  /** No invocation that is delivered fails for want of log space: the reservation covers it. */
  lemma {:induction false} DeliveredRecordsFit(s: State, args: seq<string>, c: Compilation, env: Env)
    requires Ordinary(env) && Bounded(c) && DriftDigests(s) && Delivered(args, env)
    ensures Invoke(s, args, c, env).exit != Raised(LogFull)
  {
    JoinedWeight(args, env);
    ReservedRecordsFit(s, args, c, env);
  }

  function Exits(s: State, calls: seq<Call>, env: Env): seq<Exit>
    decreases |calls|
  {
    if calls == [] then []
    else
      var step := Invoke(s, calls[0].args, calls[0].compilation, env);
      [step.exit] + Exits(step.state, calls[1..], env)
  }

  /** ... and so for any sequence of them, whatever is in the log. */
  lemma {:induction false} DeliveredRunsFit(s: State, calls: seq<Call>, env: Env)
    requires Ordinary(env) && DriftDigests(s)
    requires forall call | call in calls :: Delivered(call.args, env) && Bounded(call.compilation)
    ensures Raised(LogFull) !in Exits(s, calls, env)
    decreases |calls|
  {
    hide Ordinary, Delivered, Bounded, Invoke;
    if calls != [] {
      var call := calls[0];
      DeliveredRecordsFit(s, call.args, call.compilation, env);
      InvokeSound(s, call.args, call.compilation, env);
      DeliveredRunsFit(Invoke(s, call.args, call.compilation, env).state, calls[1..], env);
    }
  }

  /** The log goes on from `before` with a line that carries these arguments. */
  ghost predicate Recorded(before: string, after: string, args: seq<string>, env: Env) {
    exists output: bytes, error: bytes, code: int :: before + Line(env.utf8(Joined(args)), output, error, code) <= after
  }

  lemma {:induction false} RecordedBy(before: string, after: string, args: seq<string>, output: bytes, error: bytes,
                                      code: int, env: Env)
    requires before + Line(env.utf8(Joined(args)), output, error, code) <= after
    ensures Recorded(before, after, args, env)
  {}

  lemma {:induction false} NothingRecorded(log: string, args: seq<string>, env: Env)
    ensures !Recorded(log, log, args, env)
  {}

  /** A step that is in the log, and did not break off at the compiler's exit. */
  ghost predicate Accounted(log: string, step: Step, args: seq<string>, env: Env) {
    Recorded(log, step.state.log, args, env) && step.exit != Raised(WaitExpired)
  }

  lemma {:induction false} DeniedIsRecorded(s: State, args: seq<string>, message: Message, env: Env)
    requires Ordinary(env) && Reserved(s) && |env.utf8(Joined(args))| <= ARGV_LIMIT
    ensures Accounted(s.log, Denied(s, args, message, env), args, env)
  {
    hide Line, Joined, Recorded;
    DispatchedLineFits(env.utf8(Joined(args)), [], env.text(message), 126);
    RecordedBy(s.log, Denied(s, args, message, env).state.log, args, [], env.text(message), 126, env);
  }

  lemma {:induction false} CloseIsRecorded(s: State, args: seq<string>, output: bytes, writes: seq<Write>, env: Env)
    requires Reserved(s) && |env.utf8(Joined(args))| <= ARGV_LIMIT && |output| <= CAP
    ensures Accounted(s.log, Close(s, args, output, writes, env), args, env)
  {
    hide Line, Joined, Recorded;
    DispatchedLineFits(env.utf8(Joined(args)), output, [], 0);
    RecordedBy(s.log, Close(s, args, output, writes, env).state.log, args, output, [], 0, env);
  }

  lemma {:induction false} DriftKeepsTheLog(s: State, args: seq<string>, env: Env)
    ensures match ApplyDrift(s, args, env)
            case Go(t, writes) => s.log <= t.log
            case Halt(step) => s.log <= step.state.log && step.exit != Raised(WaitExpired)
  {
    hide ApplyDrift, Line, Joined, Evidence, Decode, Triggers, CORE;
    ApplyDriftCases(s, args, env);
  }

  lemma {:induction false} FinishIsRecorded(s: State, args: seq<string>, output: bytes, error: bytes, code: int,
                                            shown: bytes, writes: seq<Write>, env: Env)
    requires Reserved(s) && |env.utf8(Joined(args))| <= ARGV_LIMIT
    requires |output| + |error| <= CAP + 65536 + 1024 && -0x8000_0000 <= code < 0x8000_0000
    ensures Accounted(s.log, Finish(s, args, output, error, code, shown, writes, env), args, env)
  {
    hide Line, Joined, Recorded, ApplyDrift;
    DispatchedLineFits(env.utf8(Joined(args)), output, error, code);
    DriftKeepsTheLog(Record(s, args, output, error, code, env).value, args, env);
    RecordedBy(s.log, Finish(s, args, output, error, code, shown, writes, env).state.log,
               args, output, error, code, env);
  }

  lemma {:induction false} ArtifactIsRecorded(s: State, args: seq<string>, env: Env)
    requires Ordinary(env) && Reserved(s) && |env.utf8(Joined(args))| <= ARGV_LIMIT
    ensures Accounted(s.log, PilotWrite(s, args, env), args, env)
  {
    hide Accounted, Denied, Line, Joined, Decode;
    forall message ensures Accounted(s.log, Denied(s, args, message, env), args, env) {
      DeniedIsRecorded(s, args, message, env);
    }
    if Depositable(args, env) {
      var path, body := env.resolve(args[1]).value, Decode(args[2]).value;
      CloseIsRecorded(s.(files := s.files[path := body]), args, env.text(ArtifactWritten), [Artifact(path, body)], env);
    }
  }

  lemma {:induction false} SourceWriteIsRecorded(s: State, args: seq<string>, env: Env)
    requires Ordinary(env) && Reserved(s) && |env.utf8(Joined(args))| <= ARGV_LIMIT
    ensures Accounted(s.log, PilotWriteSource(s, args, env), args, env)
  {
    hide Accounted, Denied, Line, Joined, Decode;
    forall message ensures Accounted(s.log, Denied(s, args, message, env), args, env) {
      DeniedIsRecorded(s, args, message, env);
    }
    if Writable(s, args, env) {
      var path, body := env.resolve(args[1]).value, Decode(args[3]).value;
      CloseIsRecorded(s.(files := s.files[path := body]), args, env.text(SourceWritten),
                      [Replaced(path, s.files[path], body, args[2])], env);
    }
  }

  lemma {:induction false} ReadIsRecorded(s: State, args: seq<string>, env: Env)
    requires Ordinary(env) && Reserved(s) && |env.utf8(Joined(args))| <= ARGV_LIMIT
    ensures Accounted(s.log, PilotRead(s, args, env), args, env)
  {
    hide Accounted, Denied, Finish, Joined;
    forall message ensures Accounted(s.log, Denied(s, args, message, env), args, env) {
      DeniedIsRecorded(s, args, message, env);
    }
    if Shown(s, args, env) {
      var source := s.files[env.resolve(args[1]).value];
      FinishIsRecorded(s, args, source, [], 0, env.present(source), [], env);
    }
  }

  lemma {:induction false} CompileIsRecordedExactlyWhen(s: State, args: seq<string>, c: Compilation, env: Env)
    requires Ordinary(env) && Bounded(c) && Reserved(s) && |env.utf8(Joined(args))| <= ARGV_LIMIT
    ensures var step := Compile(s, args, c, env);
            && (step.exit == Raised(WaitExpired) <==> Outlives(c))
            && (Recorded(s.log, step.state.log, args, env) <==> !Outlives(c))
  {
    hide Recorded, Finish, Joined, Drain;
    NothingRecorded(s.log, args, env);
    if c.spawnFailure.Some? {
      FinishIsRecorded(s, args, [], c.spawnFailure.value, 125, [], [], env);
    } else {
      var captured, t, writes := Drain(c.chunks, [], []), s.(files := c.files), [Compiled(s.files, c.files)];
      DrainBound(c.chunks, [], []);
      if captured.failure.Some? {
        var error := captured.error + env.text(captured.failure.value);
        FinishIsRecorded(t, args, captured.output, error, 124, captured.output, writes, env);
      } else if c.code.Some? {
        FinishIsRecorded(t, args, captured.output, captured.error, c.code.value, captured.output, writes, env);
      }
    }
  }

  /** A compiler that closes both streams in time, within the cap, and does not exit in time. */
  ghost predicate Outlives(c: Compilation) {
    c.spawnFailure.None? && Drain(c.chunks, [], []).failure.None? && c.code.None?
  }

  ghost predicate RunsCompiler(args: seq<string>) {
    args != [] && args != ["--help"] && args[0] !in ["pilot-write", "pilot-read", "pilot-write-source"]
  }

  /**
   * A delivered invocation that is not turned away leaves a line with its arguments in the log, whatever
   * it did and however it ended, unless its compiler outlives the deadline behind closed streams.
   */
  lemma {:induction false} DeliveredIsRecordedExactlyWhen(s: State, args: seq<string>, c: Compilation, env: Env)
    requires Ordinary(env) && Bounded(c) && Delivered(args, env) && Refusal(s, args, env) == None
    ensures Recorded(s.log, Invoke(s, args, c, env).state.log, args, env) <==> !(RunsCompiler(args) && Outlives(c))
  {
    JoinedWeight(args, env);
    hide Invoke, Dispatch, Recorded, Outlives, Close, Joined, Weight, Ordinary, FirstEscape;
    assert Reserved(s);
    if args == ["--help"] {
      HelpIsClosed(s, args, c, env);
      CloseIsRecorded(s, args, env.help, [], env);
    } else {
      Dispatched(s, args, c, env);
      DispatchIsRecordedExactlyWhen(s, args, c, env);
    }
  }

  lemma {:induction false} Dispatched(s: State, args: seq<string>, c: Compilation, env: Env)
    requires Refusal(s, args, env) == None && args != [] && args != ["--help"]
    ensures Invoke(s, args, c, env) == Dispatch(s, args, c, env)
  {
    hide Dispatch, Refusal, Close;
  }

  lemma {:induction false} HelpIsClosed(s: State, args: seq<string>, c: Compilation, env: Env)
    requires Refusal(s, args, env) == None && args == ["--help"]
    ensures Invoke(s, args, c, env) == Close(s, args, env.help, [], env)
  {
    hide Dispatch, Refusal, Close;
  }

  lemma {:induction false} DispatchIsRecordedExactlyWhen(s: State, args: seq<string>, c: Compilation, env: Env)
    requires Ordinary(env) && Bounded(c) && Reserved(s) && |env.utf8(Joined(args))| <= ARGV_LIMIT
    requires args != [] && args != ["--help"]
    ensures Recorded(s.log, Dispatch(s, args, c, env).state.log, args, env) <==> !(RunsCompiler(args) && Outlives(c))
  {
    hide Recorded, Outlives, PilotWrite, PilotRead, PilotWriteSource, Compile, Joined, Ordinary, Bounded;
    assert |"pilot-write"| == 11 && |"pilot-read"| == 10 && |"pilot-write-source"| == 18;
    ArtifactIsRecorded(s, args, env);
    ReadIsRecorded(s, args, env);
    SourceWriteIsRecorded(s, args, env);
    CompileIsRecordedExactlyWhen(s, args, c, env);
  }

  /** An admissible source write. */
  ghost predicate Writable(s: State, args: seq<string>, env: Env) {
    && |args| == 4 && env.resolve(args[1]).Some? && env.resolve(args[1]).value in s.files
    && env.links(env.resolve(args[1]).value) == 1 && env.suffix(env.resolve(args[1]).value) == ".spx"
    && |args[2]| == 64 && (forall i | 0 <= i < 64 :: '0' <= args[2][i] <= '9' || 'a' <= args[2][i] <= 'f')
    && env.digest(s.files[env.resolve(args[1]).value]) == args[2]
    && Decode(args[3]).Some? && |Decode(args[3]).value| <= 1048576
  }

  /**
   * Source writes are atomic on the digest but not with the log: an admissible one always lands, and
   * its record is lost exactly when the line does not fit, whatever was reserved.
   */
  lemma {:induction false} SourceWriteLands(s: State, args: seq<string>, env: Env)
    ensures var step := PilotWriteSource(s, args, env);
            step.writes != [] <==> Writable(s, args, env)
    ensures Writable(s, args, env) ==>
              var step := PilotWriteSource(s, args, env);
              var path, body := env.resolve(args[1]).value, Decode(args[3]).value;
              && step.state.files == s.files[path := body]
              && step.writes == [Replaced(path, s.files[path], body, args[2])]
              && (step.exit == Raised(LogFull) <==>
                  |s.log| + |Line(env.utf8(Joined(args)), env.text(SourceWritten), [], 0)| > LOG_CAP)
  {
    hide Line, Joined, Decode;
  }

  /** An admissible patch artifact. */
  ghost predicate Depositable(args: seq<string>, env: Env) {
    && |args| == 3 && env.artifact(args[1]) && env.suffix(args[1]) in [".json", ".spatch", ".wspatch"]
    && Decode(args[2]).Some? && |Decode(args[2]).value| <= 1048576 && env.resolve(args[1]).Some?
  }

  /** ... and so are artifact writes, whatever the candidate holds. */
  lemma {:induction false} ArtifactLands(s: State, args: seq<string>, env: Env)
    ensures var step := PilotWrite(s, args, env);
            && (step.writes != [] <==> Depositable(args, env))
            && (step.exit == Raised(LogFull) <==>
                && Depositable(args, env)
                && |s.log| + |Line(env.utf8(Joined(args)), env.text(ArtifactWritten), [], 0)| > LOG_CAP)
    ensures Depositable(args, env) ==>
              var step := PilotWrite(s, args, env);
              var path, body := env.resolve(args[1]).value, Decode(args[2]).value;
              step.state.files == s.files[path := body] && step.writes == [Artifact(path, body)]
  {
    hide Line, Joined, Decode;
  }

  // --- When a record is lost, exactly ---

  /** A triggering command finds the bytes it has to replace. */
  ghost predicate Injects(s: State, args: seq<string>, env: Env) {
    && s.drift.Some? && Triggers(args, env) && !s.drift.value.applied && s.drift.value.target == CORE
    && Decode(s.drift.value.before64).Some? && Decode(s.drift.value.after64).Some?
    && CORE in s.files && s.files[CORE] == Decode(s.drift.value.before64).value
  }

  ghost function DriftLine(s: State, args: seq<string>, env: Env): nat {
    if !Injects(s, args, env) then 0
    else |Line(env.utf8(Joined(["pilot-drift", args[0]])), env.utf8(Evidence(s.drift.value, args[0])), [], 0)|
  }

  /** What the tail of a read or a compiler command owes to the log. */
  ghost function TailOwes(s: State, args: seq<string>, output: bytes, error: bytes, code: int, env: Env): nat {
    |Line(env.utf8(Joined(args)), output, error, code)| + DriftLine(s, args, env)
  }

  ghost function CompileOwes(s: State, args: seq<string>, c: Compilation, env: Env): nat {
    if c.spawnFailure.Some? then TailOwes(s, args, [], c.spawnFailure.value, 125, env)
    else
      var captured, t := Drain(c.chunks, [], []), s.(files := c.files);
      if captured.failure.Some? then
        TailOwes(t, args, captured.output, captured.error + env.text(captured.failure.value), 124, env)
      else if c.code.None? then 0
      else TailOwes(t, args, captured.output, captured.error, c.code.value, env)
  }

  ghost predicate Shown(s: State, args: seq<string>, env: Env) {
    && |args| == 2 && env.resolve(args[1]).Some? && env.resolve(args[1]).value in s.files
    && var path := env.resolve(args[1]).value;
    && env.links(path) == 1 && |s.files[path]| <= 1048576
    && (env.suffix(path) == ".spx" || env.name(path) == "semaprax.toml") && env.isUtf8(s.files[path])
  }

  /** The log bytes an invocation that is not turned away has to write, those of a refusal aside. */
  ghost function Owes(s: State, args: seq<string>, c: Compilation, env: Env): nat
    requires args != []
  {
    var argv := env.utf8(Joined(args));
    if args == ["--help"] then |Line(argv, env.help, [], 0)|
    else if args[0] == "pilot-write" then
      if !Depositable(args, env) then 0 else |Line(argv, env.text(ArtifactWritten), [], 0)|
    else if args[0] == "pilot-read" then
      if !Shown(s, args, env) then 0 else TailOwes(s, args, s.files[env.resolve(args[1]).value], [], 0, env)
    else if args[0] == "pilot-write-source" then
      if !Writable(s, args, env) then 0 else |Line(argv, env.text(SourceWritten), [], 0)|
    else CompileOwes(s, args, c, env)
  }

  lemma {:induction false} TailLosesExactlyWhen(s: State, args: seq<string>, output: bytes, error: bytes, code: int,
                                                shown: bytes, writes: seq<Write>, env: Env)
    requires |s.log| <= LOG_CAP
    ensures Finish(s, args, output, error, code, shown, writes, env).exit == Raised(LogFull)
       <==> |s.log| + TailOwes(s, args, output, error, code, env) > LOG_CAP
  {
    var recorded := Record(s, args, output, error, code, env);
    if recorded.Some? { DriftLosesExactlyWhen(recorded.value, args, env); }
  }

  lemma {:induction false} DriftLosesExactlyWhen(s: State, args: seq<string>, env: Env)
    requires |s.log| <= LOG_CAP
    ensures var applied := ApplyDrift(s, args, env);
            applied.Halt? && applied.step.exit == Raised(LogFull) <==> |s.log| + DriftLine(s, args, env) > LOG_CAP
  {
    hide ApplyDrift, Injects, DriftLine, DriftRefusal, Triggers, Decode, Evidence, Joined, Logged;
    DriftAnswers(s, args, env);
    SameDrift(s, s, args, env);
    RefusalIsAnother(s, env);
    if !Injects(s, args, env) { NoDriftLine(s, args, env); }
  }

  lemma {:induction false} RefusalIsAnother(s: State, env: Env)
    ensures s.drift.Some? ==> DriftRefusal(s, env) != Raised(LogFull)
  {}

  lemma {:induction false} NoDriftLine(s: State, args: seq<string>, env: Env)
    requires !Injects(s, args, env)
    ensures DriftLine(s, args, env) == 0
  {}

  lemma {:induction false} TriggersName(args: seq<string>, env: Env)
    requires Triggers(args, env)
    ensures args != []
  {}

  lemma {:induction false} CompileLosesExactlyWhen(s: State, args: seq<string>, c: Compilation, env: Env)
    requires |s.log| <= LOG_CAP
    ensures Compile(s, args, c, env).exit == Raised(LogFull) <==> |s.log| + CompileOwes(s, args, c, env) > LOG_CAP
  {
    hide Finish, TailOwes, Line;
    if c.spawnFailure.Some? {
      TailLosesExactlyWhen(s, args, [], c.spawnFailure.value, 125, [], [], env);
    } else {
      var captured, t, writes := Drain(c.chunks, [], []), s.(files := c.files), [Compiled(s.files, c.files)];
      if captured.failure.Some? {
        var error := captured.error + env.text(captured.failure.value);
        TailLosesExactlyWhen(t, args, captured.output, error, 124, captured.output, writes, env);
      } else if c.code.Some? {
        TailLosesExactlyWhen(t, args, captured.output, captured.error, c.code.value, captured.output, writes, env);
      }
    }
  }

  lemma {:induction false} ReadLosesExactlyWhen(s: State, args: seq<string>, env: Env)
    requires |s.log| <= LOG_CAP
    ensures PilotRead(s, args, env).exit == Raised(LogFull)
       <==> Shown(s, args, env)
            && |s.log| + TailOwes(s, args, s.files[env.resolve(args[1]).value], [], 0, env) > LOG_CAP
  {
    hide Finish, TailOwes, Line;
    if Shown(s, args, env) {
      var source := s.files[env.resolve(args[1]).value];
      TailLosesExactlyWhen(s, args, source, [], 0, env.present(source), [], env);
    }
  }

  /**
   * The reservation aside, an invocation that is not turned away fails for want of log space
   * exactly when what it owes does not fit the log.
   */
  lemma {:induction false} RecordLostExactlyWhen(s: State, args: seq<string>, c: Compilation, env: Env)
    requires Refusal(s, args, env) == None && |s.log| <= LOG_CAP
    ensures Invoke(s, args, c, env).exit == Raised(LogFull) <==> |s.log| + Owes(s, args, c, env) > LOG_CAP
  {
    hide Line, TailOwes, CompileOwes, PilotWrite, PilotRead, PilotWriteSource, Compile;
    ArtifactLands(s, args, env);
    ReadLosesExactlyWhen(s, args, env);
    CompileLosesExactlyWhen(s, args, c, env);
    SourceWriteLands(s, args, env);
    SourceWriteQuiet(s, args, env);
  }

  lemma {:induction false} SourceWriteQuiet(s: State, args: seq<string>, env: Env)
    ensures !Writable(s, args, env) ==> PilotWriteSource(s, args, env).exit != Raised(LogFull)
  {
    hide Line;
  }

  /** For a source write: the digits of its line, in base64. */
  lemma {:induction false} SourceRecordLostExactlyWhen(s: State, args: seq<string>, c: Compilation, env: Env)
    requires Refusal(s, args, env) == None && |s.log| <= LOG_CAP && args[0] == "pilot-write-source"
    ensures Invoke(s, args, c, env).exit == Raised(LogFull)
       <==> Writable(s, args, env)
            && |s.log| + 70 + B64(|env.utf8(Joined(args))|) + B64(|env.text(SourceWritten)|) > LOG_CAP
  {
    hide Line;
    RecordLostExactlyWhen(s, args, c, env);
    LineLength(env.utf8(Joined(args)), env.text(SourceWritten), [], 0);
  }

  // --- An invocation that loses its record ---

  /** A plain environment: one byte for a character, no path escapes, and the compiler's check is allowed. */
  function PlainEnv(): Env {
    Env(t => seq(|t|, i requires 0 <= i < |t| => if t[i] < 128 as char then t[i] as int as byte else 63),
        m => [], b => true, b => seq(64, _ => 'f'), b => b,
        p => Some(p), p => None, p => true, p => ".spx", p => p, p => 1, {"check"}, [])
  }

  lemma {:induction false} PlainIsOrdinary()
    ensures Ordinary(PlainEnv())
  {}

  /** A compiler run that leaves some files, says nothing and succeeds. */
  function Quiet(files: Files): Compilation { Compilation(None, [], Some(0), files) }

  /**
   * A compiler command that says nothing changes the candidate whatever its arguments are, and loses
   * its record exactly when the base64 of its arguments does not fit.
   */
  lemma {:induction false} QuietCommandLosesItsRecordExactlyWhen(s: State, args: seq<string>, files: Files, env: Env)
    requires Refusal(s, args, env) == None && RunsCompiler(args) && !Triggers(args, env)
    ensures var step := Invoke(s, args, Quiet(files), env);
            && step.state.files == files && step.writes == [Compiled(s.files, files)]
            && (step.exit == Raised(LogFull) <==> |s.log| + 70 + B64(|env.utf8(Joined(args))|) > LOG_CAP)
            && |step.state.log| == |s.log| +
               if step.exit == Raised(LogFull) then 0 else 70 + B64(|env.utf8(Joined(args))|)
  {
    hide Line, Joined, Triggers;
    LineLength(env.utf8(Joined(args)), [], [], 0);
    assert Drain([], [], []) == Capture([], [], None);
    assert args[0] != "pilot-write" && args[0] != "pilot-read" && args[0] != "pilot-write-source";
    assert Invoke(s, args, Quiet(files), env) == Compile(s, args, Quiet(files), env);
  }

  lemma {:induction false} NothingEscapes(args: seq<string>)
    ensures FirstEscape(args, PlainEnv()) == None
  {
    if args != [] { NothingEscapes(args[1..]); }
  }

  lemma {:induction false} CheckIsDispatched(s: State, args: seq<string>)
    requires Reserved(s) && args != [] && args[0] == "check"
    ensures Refusal(s, args, PlainEnv()) == None && RunsCompiler(args) && !Triggers(args, PlainEnv())
  {
    NothingEscapes(args[1..]);
    assert |"check"| == 5 && |"graph"| == 5 && |"query"| == 5;
    assert "check"[0] == 'c' && "graph"[0] == 'g' && "query"[0] == 'q';
  }

  lemma {:induction false} EqualWeights(argv: seq<string>, size: nat)
    requires forall i | 0 <= i < |argv| :: |argv[i]| == size
    ensures Weight(argv, PlainEnv()) == |argv| * size
  {
    if argv != [] {
      EqualWeights(argv[1..], size);
      assert |argv| * size == (|argv| - 1) * size + size;
    }
  }

  /** A check of some equally long paths. */
  function Check(count: nat, size: nat): seq<string> { ["check"] + seq(count, _ => seq(size, _ => 'x')) }

  lemma {:induction false} CheckWeight(count: nat, size: nat)
    ensures Weight(Check(count, size), PlainEnv()) == 5 + count * size
    ensures |PlainEnv().utf8(Joined(Check(count, size)))| == 5 + count * (size + 1)
  {
    var args := Check(count, size);
    var paths := args[1..];
    EqualWeights(paths, size);
    assert |args[0]| == 5;
    PlainIsOrdinary();
    JoinedWeight(args, PlainEnv());
    assert count * (size + 1) == count * size + count;
  }

  lemma {:induction false} CheckIsQuiet(s: State, count: nat, size: nat, volume: nat, files: Files)
    requires Reserved(s) && volume == 5 + count * (size + 1)
    ensures var step, owed := Invoke(s, Check(count, size), Quiet(files), PlainEnv()), 70 + B64(volume);
            && step.state.files == files && (step.exit == Raised(LogFull) <==> |s.log| + owed > LOG_CAP)
            && |step.state.log| == |s.log| + if step.exit == Raised(LogFull) then 0 else owed
  {
    hide Invoke, PlainEnv, Refusal, Triggers, RunsCompiler, Joined, Weight, Quiet, B64;
    var args := Check(count, size);
    assert args != [] && args[0] == "check";
    CheckIsDispatched(s, args);
    CheckWeight(count, size);
    hide Check;
    QuietCommandLosesItsRecordExactlyWhen(s, Check(count, size), files, PlainEnv());
  }

  /** A check with 1047999 bytes of arguments; 21 of them bring a new log close to its reservation. */
  function Filler(): Call { Call(Check(1, 1047994), Quiet(map[])) }

  lemma {:induction false} FillersFill(s: State, n: nat)
    requires |s.log| + n * 1397406 + 4 * CAP <= LOG_CAP
    ensures |Run(s, seq(n, _ => Filler()), PlainEnv()).0.log| == |s.log| + n * 1397406
    decreases n
  {
    hide Invoke, Check, Quiet, PlainEnv, B64;
    if n > 0 {
      var calls := seq(n, _ => Filler());
      assert n * 1397406 == (n - 1) * 1397406 + 1397406;
      FillerIsRecorded(s);
      FillersFill(Invoke(s, Filler().args, Filler().compilation, PlainEnv()).state, n - 1);
      assert calls[1..] == seq(n - 1, _ => Filler());
    }
  }

  lemma {:induction false} FillerIsRecorded(s: State)
    requires Reserved(s)
    ensures |Invoke(s, Filler().args, Filler().compilation, PlainEnv()).state.log| == |s.log| + 1397406
  {
    hide Invoke, Check, Quiet, PlainEnv;
    CheckIsQuiet(s, 1, 1047994, 1048000, map[]);
  }

  lemma {:induction false} ChecksDelivered()
    ensures Delivered(Filler().args, PlainEnv()) && !Delivered(Check(25, 131071), PlainEnv())
  {
    CheckWeight(1, 1047994);
    CheckWeight(25, 131071);
    hide Weight, PlainEnv;
  }

  /**
   * Called directly, past the transport: after 21 delivered commands on a new log, a check of twenty-five
   * paths of 131071 characters acts, and the log does not say so.
   */
  lemma {:induction false} LongPathsLoseTheRecord(files: Files)
    ensures var env, calls := PlainEnv(), seq(21, _ => Filler());
            var s := Run(State(map[], None, ""), calls, env).0;
            var step := Invoke(s, Check(25, 131071), Quiet(files), env);
            && (forall call | call in calls :: Delivered(call.args, env)) && !Delivered(Check(25, 131071), env)
            && step.exit == Raised(LogFull) && |step.state.log| == |s.log| && step.state.files == files
  {
    hide Run, Invoke, Check, Quiet, PlainEnv, Delivered;
    var empty := State(map[], None, "");
    FillersFill(empty, 21);
    CheckIsQuiet(Run(empty, seq(21, _ => Filler()), PlainEnv()).0, 25, 131071, 3276805, files);
    ChecksDelivered();
  }

  // --- What an invocation answers, and what its log lines read back as ---

  /** What has been logged in between. */
  ghost predicate Logged(before: string, after: string, entries: seq<LogEntry>) {
    ReadLog(before).Some? ==> ReadLog(after) == Some(ReadLog(before).value + entries)
  }

  lemma {:induction false} RecordIsLogged(s: State, argv: seq<string>, output: bytes, error: bytes, code: int, env: Env)
    ensures var recorded := Record(s, argv, output, error, code, env);
            var line := |Line(env.utf8(Joined(argv)), output, error, code)|;
            && (recorded.Some? <==> |s.log| + line <= 33554432)
            && (recorded.Some? ==>
                  && recorded.value.files == s.files && recorded.value.drift == s.drift
                  && |recorded.value.log| == |s.log| + line
                  && Logged(s.log, recorded.value.log, [LogEntry(env.utf8(Joined(argv)), output, error, code)]))
  {
    if ReadLog(s.log).Some? { AppendedReadsBack(s.log, env.utf8(Joined(argv)), output, error, code); }
  }

  lemma {:induction false} LoggedTwice(a: string, b: string, c: string, first: LogEntry, second: LogEntry)
    requires Logged(a, b, [first]) && Logged(b, c, [second])
    ensures Logged(a, c, [first, second])
  {
    hide ReadLog;
    if ReadLog(a).Some? {
      Concatenated(ReadLog(a).value, [first], [second]);
      assert [first] + [second] == [first, second];
    }
  }

  /** The commands that bring the drift about. */
  lemma {:induction false} TriggersAre(args: seq<string>, env: Env)
    ensures Triggers(args, env) <==>
            args != []
            && (args[0] in {"graph", "context", "query", "workspace-graph", "workspace-context"}
                || (args[0] == "pilot-read" && |args| == 2 && env.resolve(args[1]) == Some("src/core.spx")))
  {
    if args != [] && args[0] in IDENTIFYING {
      var i :| 0 <= i < |IDENTIFYING| && IDENTIFYING[i] == args[0];
    }
    assert forall i | 0 <= i < 5 :: IDENTIFYING[i] in IDENTIFYING;
  }

  /**
   * A command that has run: its line is logged if it fits, then the drift is injected or refused, and
   * only if nothing of that fails does the command's own answer come through.
   */
  ghost predicate Answered(s: State, step: Step, args: seq<string>, output: bytes, error: bytes, code: int,
                           shown: bytes, writes: seq<Write>, env: Env)
  {
    var entry := LogEntry(env.utf8(Joined(args)), output, error, code);
    var line := |Line(env.utf8(Joined(args)), output, error, code)|;
    if |s.log| + line > 33554432 then
      step == Step(s, Raised(LogFull), writes)
    else if s.drift.None? || s.drift.value.applied || !Triggers(args, env) then
      && step.exit == Exited(code, shown, error) && step.writes == writes
      && step.state.files == s.files && step.state.drift == s.drift && Logged(s.log, step.state.log, [entry])
    else if Injects(s, args, env) then
      var d := s.drift.value;
      var before, after := Decode(d.before64).value, Decode(d.after64).value;
      && step.writes == writes + [Drifted("src/core.spx", before, after)]
      && step.state.files == s.files["src/core.spx" := after] && step.state.drift == Some(d.(applied := true))
      && if |s.log| + line + DriftLine(s, args, env) > 33554432 then
           step.exit == Raised(LogFull) && Logged(s.log, step.state.log, [entry])
         else
           && step.exit == Exited(code, shown, error)
           && Logged(s.log, step.state.log,
                     [entry, LogEntry(env.utf8(Joined(["pilot-drift", args[0]])),
                                      env.utf8(Evidence(d, args[0])), [], 0)])
    else
      && step.writes == writes && step.state.files == s.files && step.state.drift == s.drift
      && step.exit == DriftRefusal(s, env)
  }

  /** Why a drift that is due is not injected. */
  ghost function DriftRefusal(s: State, env: Env): Exit
    requires s.drift.Some?
  {
    var d := s.drift.value;
    if d.target != "src/core.spx" then Exited(126, [], env.text(InvalidDriftTarget))
    else if Decode(d.before64).None? || Decode(d.after64).None? then Raised(BadDrift)
    else if "src/core.spx" !in s.files then Raised(NoTarget)
    else Exited(126, [], env.text(CandidateChanged))
  }

  lemma {:induction false} FinishAnswers(s: State, args: seq<string>, output: bytes, error: bytes, code: int,
                                         shown: bytes, writes: seq<Write>, env: Env)
    ensures Answered(s, Finish(s, args, output, error, code, shown, writes, env), args, output, error, code, shown,
                     writes, env)
  {
    hide Line, Joined, Evidence, Decode, Triggers, Logged, Record, ApplyDrift, Injects, DriftLine, DriftRefusal;
    RecordIsLogged(s, args, output, error, code, env);
    var recorded := Record(s, args, output, error, code, env);
    if recorded.Some? {
      assert writes + [] == writes;
      DriftAnswers(recorded.value, args, env);
      SameDrift(s, recorded.value, args, env);
      if Injects(s, args, env) {
        var d, t := s.drift.value, ApplyDrift(recorded.value, args, env);
        var after := if t.Go? then t.state.log else t.step.state.log;
        var entry := LogEntry(env.utf8(Joined(args)), output, error, code);
        var second := LogEntry(env.utf8(Joined(["pilot-drift", args[0]])), env.utf8(Evidence(d, args[0])), [], 0);
        if t.Go? { LoggedTwice(s.log, recorded.value.log, after, entry, second); }
      }
    }
  }

  /** Whether and how a drift comes about does not depend on the log. */
  lemma {:induction false} SameDrift(s: State, t: State, args: seq<string>, env: Env)
    requires t.files == s.files && t.drift == s.drift
    ensures Injects(t, args, env) <==> Injects(s, args, env)
    ensures DriftLine(t, args, env) == DriftLine(s, args, env)
    ensures Injects(s, args, env) ==> s.drift.Some? && args != [] && !s.drift.value.applied && Triggers(args, env)
    ensures s.drift.Some? ==> DriftRefusal(t, env) == DriftRefusal(s, env)
  {
    hide Line, Joined, Evidence, Decode, CORE;
  }

  /** The drift behind a record. */
  lemma {:induction false} DriftAnswers(s: State, args: seq<string>, env: Env)
    ensures s.drift.None? || s.drift.value.applied || !Triggers(args, env) ==> ApplyDrift(s, args, env) == Go(s, [])
    ensures Injects(s, args, env) ==>
              var d, applied := s.drift.value, ApplyDrift(s, args, env);
              var before, after := Decode(d.before64).value, Decode(d.after64).value;
              var t := if applied.Go? then applied.state else applied.step.state;
              && t.files == s.files["src/core.spx" := after] && t.drift == Some(d.(applied := true))
              && (if applied.Go? then applied.writes else applied.step.writes)
                 == [Drifted("src/core.spx", before, after)]
              && (applied.Go? <==> |s.log| + DriftLine(s, args, env) <= 33554432)
              && (applied.Halt? ==> applied.step.exit == Raised(LogFull) && t.log == s.log)
              && (applied.Go? ==> Logged(s.log, t.log, [LogEntry(env.utf8(Joined(["pilot-drift", args[0]])),
                                                                 env.utf8(Evidence(d, args[0])), [], 0)]))
    ensures s.drift.Some? && !s.drift.value.applied && Triggers(args, env) && !Injects(s, args, env) ==>
              var applied := ApplyDrift(s, args, env);
              && applied.Halt? && applied.step.exit == DriftRefusal(s, env) && applied.step.writes == []
              && applied.step.state.files == s.files && applied.step.state.drift == s.drift
  {
    hide Line, Joined, Evidence, Decode, Triggers, Logged, Record, ApplyDrift, Injects, DriftRefusal;
    IdleDrift(s, args, env);
    if Injects(s, args, env) {
      InjectedDrift(s, args, env);
    } else if s.drift.Some? && !s.drift.value.applied && Triggers(args, env) {
      RefusedDrift(s, args, env);
    }
  }

  lemma {:induction false} IdleDrift(s: State, args: seq<string>, env: Env)
    ensures s.drift.None? || s.drift.value.applied || !Triggers(args, env) ==> ApplyDrift(s, args, env) == Go(s, [])
    ensures Injects(s, args, env) ==> s.drift.Some? && !s.drift.value.applied && Triggers(args, env) && args != []
  {
    hide ApplyDrift, Inject, Decode, Denied, CORE, Triggers;
    ApplyDriftCases(s, args, env);
    if s.drift.Some? && Triggers(args, env) { TriggersName(args, env); }
  }

  lemma {:induction false} InjectedDrift(s: State, args: seq<string>, env: Env)
    requires Injects(s, args, env)
    ensures args != []
    ensures var d, applied := s.drift.value, ApplyDrift(s, args, env);
            var before, after := Decode(d.before64).value, Decode(d.after64).value;
            var t := if applied.Go? then applied.state else applied.step.state;
            && t.files == s.files["src/core.spx" := after] && t.drift == Some(d.(applied := true))
            && (if applied.Go? then applied.writes else applied.step.writes) == [Drifted("src/core.spx", before, after)]
            && (applied.Go? <==> |s.log| + DriftLine(s, args, env) <= 33554432)
            && (applied.Halt? ==> applied.step.exit == Raised(LogFull) && t.log == s.log)
            && (applied.Go? ==> Logged(s.log, t.log, [LogEntry(env.utf8(Joined(["pilot-drift", args[0]])),
                                                               env.utf8(Evidence(d, args[0])), [], 0)]))
  {
    InjectionIs(s, args, env);
    var d := s.drift.value;
    var t := s.(files := s.files[CORE := Decode(d.after64).value], drift := Some(d.(applied := true)));
    RecordIsLogged(t, ["pilot-drift", args[0]], env.utf8(Evidence(d, args[0])), [], 0, env);
    hide Line, Joined, Evidence, Decode, Triggers, Logged, Record, ApplyDrift;
  }

  lemma {:induction false} InjectionIs(s: State, args: seq<string>, env: Env)
    requires Injects(s, args, env)
    ensures var d := s.drift.value;
            && args != []
            && ApplyDrift(s, args, env)
               == Inject(s, d, Decode(d.before64).value, Decode(d.after64).value, args[0], env)
  {
    hide ApplyDrift, Inject, Decode, Denied, Triggers, CORE;
    ApplyDriftCases(s, args, env);
  }

  lemma {:induction false} RefusedDrift(s: State, args: seq<string>, env: Env)
    requires s.drift.Some? && !s.drift.value.applied && Triggers(args, env) && !Injects(s, args, env)
    ensures var applied := ApplyDrift(s, args, env);
            && applied.Halt? && applied.step.exit == DriftRefusal(s, env) && applied.step.writes == []
            && applied.step.state.files == s.files && applied.step.state.drift == s.drift
  {
    hide ApplyDrift, Line, Joined, Decode, Triggers;
    ApplyDriftCases(s, args, env);
  }

  /** What a compiler run comes to, both streams and the code; nothing when it outlives the deadline. */
  ghost function Answer(c: Compilation, env: Env): Option<(bytes, bytes, int)> {
    var n := Taken(c.chunks, 0);
    var output, error := OnStream(c.chunks[..n], false), OnStream(c.chunks[..n], true);
    if c.spawnFailure.Some? then Some(([], c.spawnFailure.value, 125))
    else if |output| + |error| > 1048576 then Some((output, error + env.text(OutputOverCap), 124))
    else if n < |c.chunks| then Some((output, error + env.text(TimedOut), 124))
    else if c.code.None? then None
    else Some((output, error, c.code.value))
  }

  /**
   * A compiler command answers with what the compiler wrote on each stream and with its code, with 124
   * when it was stopped and with 125 when it did not start, and logs just that.
   */
  lemma {:induction false} CompilerAnswers(s: State, args: seq<string>, c: Compilation, env: Env)
    requires Refusal(s, args, env) == None && RunsCompiler(args)
    ensures var ran, writes := if c.spawnFailure.Some? then s else s.(files := c.files),
                               if c.spawnFailure.Some? then [] else [Compiled(s.files, c.files)];
            match Answer(c, env)
            case None => Invoke(s, args, c, env) == Step(ran, Raised(WaitExpired), writes)
            case Some((output, error, code)) =>
              Answered(ran, Invoke(s, args, c, env), args, output, error, code, output, writes, env)
  {
    hide Compile, Invoke, Refusal, RunsCompiler, Answered, Answer;
    CompilerIsDispatched(s, args, c, env);
    CompileAnswers(s, args, c, env);
  }

  lemma {:induction false} CompileAnswers(s: State, args: seq<string>, c: Compilation, env: Env)
    ensures var ran, writes := if c.spawnFailure.Some? then s else s.(files := c.files),
                               if c.spawnFailure.Some? then [] else [Compiled(s.files, c.files)];
            match Answer(c, env)
            case None => Compile(s, args, c, env) == Step(ran, Raised(WaitExpired), writes)
            case Some((output, error, code)) =>
              Answered(ran, Compile(s, args, c, env), args, output, error, code, output, writes, env)
  {
    AnswerIsCaptured(c, env);
    hide Finish, Drain, Answered, OnStream;
    if c.spawnFailure.Some? {
      FinishAnswers(s, args, [], c.spawnFailure.value, 125, [], [], env);
    } else {
      var captured, t, writes := Drain(c.chunks, [], []), s.(files := c.files), [Compiled(s.files, c.files)];
      if captured.failure.Some? {
        var error := captured.error + env.text(captured.failure.value);
        FinishAnswers(t, args, captured.output, error, 124, captured.output, writes, env);
      } else if c.code.Some? {
        FinishAnswers(t, args, captured.output, captured.error, c.code.value, captured.output, writes, env);
      }
    }
  }

  /** The answer, by what was captured. */
  lemma {:induction false} AnswerIsCaptured(c: Compilation, env: Env)
    ensures Answer(c, env)
         == var captured := Drain(c.chunks, [], []);
            if c.spawnFailure.Some? then Some(([], c.spawnFailure.value, 125))
            else if captured.failure.Some? then
              Some((captured.output, captured.error + env.text(captured.failure.value), 124))
            else if c.code.None? then None
            else Some((captured.output, captured.error, c.code.value))
  {
    DrainTakes(c.chunks, [], []);
    hide OnStream, Drain, Taken;
    assert forall b: bytes :: [] + b == b;
  }

  lemma {:induction false} CompilerIsDispatched(s: State, args: seq<string>, c: Compilation, env: Env)
    requires Refusal(s, args, env) == None && RunsCompiler(args)
    ensures Invoke(s, args, c, env) == Compile(s, args, c, env)
  {
    hide Refusal, Compile, PilotRead, PilotWrite, PilotWriteSource, Close;
  }

  /** A refused invocation: exit 126 with the message, at most one more log line, nothing else. */
  ghost predicate RefusedWith(s: State, step: Step, args: seq<string>, message: Message, env: Env) {
    && step.exit == Exited(126, [], env.text(message)) && step.writes == []
    && step.state.files == s.files && step.state.drift == s.drift
    && if |s.log| + |Line(env.utf8(Joined(args)), [], env.text(message), 126)| > 33554432 then step.state.log == s.log
       else Logged(s.log, step.state.log, [LogEntry(env.utf8(Joined(args)), [], env.text(message), 126)])
  }

  lemma {:induction false} DeniedAnswers(s: State, args: seq<string>, message: Message, env: Env)
    ensures RefusedWith(s, Denied(s, args, message, env), args, message, env)
  {
    RecordIsLogged(s, args, [], env.text(message), 126, env);
    hide Record, Line, Logged;
  }

  /** None of the arguments behind the command leaves the candidate. */
  ghost predicate Confined(args: seq<string>, env: Env) {
    forall i | 0 < i < |args| :: env.escape(args[i]) == None
  }

  /** The first argument that leaves the candidate. */
  ghost predicate FirstOut(args: seq<string>, i: nat, env: Env) {
    0 < i < |args| && env.escape(args[i]).Some? && forall j | 0 < j < i :: env.escape(args[j]) == None
  }

  lemma {:induction false} FirstEscapeIs(args: seq<string>, env: Env)
    ensures FirstEscape(args, env) == None <==> forall i | 0 <= i < |args| :: env.escape(args[i]) == None
    ensures forall i: nat | i < |args| && env.escape(args[i]).Some?
                            && forall j | 0 <= j < i :: env.escape(args[j]) == None ::
              FirstEscape(args, env) == env.escape(args[i])
  {
    if args != [] {
      var rest := args[1..];
      FirstEscapeIs(rest, env);
      assert forall i | 0 < i < |args| :: args[i] == rest[i - 1];
      forall i: nat | i < |args| && env.escape(args[i]).Some? && forall j | 0 <= j < i :: env.escape(args[j]) == None
        ensures FirstEscape(args, env) == env.escape(args[i])
      {
        if i > 0 {
          assert env.escape(args[0]) == None;
          assert forall j | 0 <= j < i - 1 :: env.escape(rest[j]) == env.escape(args[j + 1]) == None;
        }
      }
    }
  }

  lemma {:induction false} EscapesAre(args: seq<string>, env: Env)
    requires args != []
    ensures FirstEscape(args[1..], env) == None <==> Confined(args, env)
    ensures forall i: nat | FirstOut(args, i, env) :: FirstEscape(args[1..], env) == env.escape(args[i])
  {
    var rest := args[1..];
    FirstEscapeIs(rest, env);
    hide FirstEscape;
    assert forall i | 0 < i < |args| :: args[i] == rest[i - 1];
    assert Confined(args, env) ==> forall i | 0 <= i < |rest| :: env.escape(rest[i]) == env.escape(args[i + 1]) == None;
    forall i: nat | FirstOut(args, i, env) ensures FirstEscape(rest, env) == env.escape(args[i]) {
      assert forall j | 0 <= j < i - 1 :: env.escape(rest[j]) == env.escape(args[j + 1]) == None;
    }
  }

  /** Which invocations are dispatched at all. */
  lemma {:induction false} DispatchedExactlyWhen(s: State, args: seq<string>, env: Env)
    ensures Refusal(s, args, env) == None
       <==> && args != [] && |s.log| + 4194304 <= 33554432
            && (args == ["--help"] || (args[0] in env.allowed && Confined(args, env)))
  {
    if args != [] { EscapesAre(args, env); }
    hide FirstEscape, Confined;
  }

  /** With which message the others are turned away. */
  lemma {:induction false} TurnedAway(s: State, args: seq<string>, c: Compilation, env: Env)
    ensures args == [] ==> RefusedWith(s, Invoke(s, args, c, env), args, MissingCommand, env)
    ensures args != [] && args != ["--help"] ==>
              && (args[0] !in env.allowed ==> RefusedWith(s, Invoke(s, args, c, env), args, DeniedByLane, env))
              && (args[0] in env.allowed ==> forall i: nat | FirstOut(args, i, env) ::
                    RefusedWith(s, Invoke(s, args, c, env), args, env.escape(args[i]).value, env))
    ensures args != [] && |s.log| + 4194304 > 33554432
            && (args == ["--help"] || (args[0] in env.allowed && Confined(args, env))) ==>
              RefusedWith(s, Invoke(s, args, c, env), args, LogExhausted, env)
  {
    if args != [] { EscapesAre(args, env); }
    var refusal := Refusal(s, args, env);
    if refusal.Some? { DeniedAnswers(s, args, refusal.value, env); }
    hide RefusedWith, Denied, Dispatch, Close, FirstEscape, Confined;
  }

  /** A source read shows the source to the agent and logs its exact bytes. */
  lemma {:induction false} ReadAnswers(s: State, args: seq<string>, c: Compilation, env: Env)
    requires Refusal(s, args, env) == None && args[0] == "pilot-read" && Shown(s, args, env)
    ensures var source := s.files[env.resolve(args[1]).value];
            Answered(s, Invoke(s, args, c, env), args, source, [], 0, env.present(source), [], env)
  {
    var source := s.files[env.resolve(args[1]).value];
    hide Answered, Finish, Refusal, Invoke, Denied, PilotRead;
    ReadIsDispatched(s, args, c, env);
    ReadFinishes(s, args, env);
    FinishAnswers(s, args, source, [], 0, env.present(source), [], env);
  }

  lemma {:induction false} ReadFinishes(s: State, args: seq<string>, env: Env)
    requires Shown(s, args, env)
    ensures var source := s.files[env.resolve(args[1]).value];
            PilotRead(s, args, env) == Finish(s, args, source, [], 0, env.present(source), [], env)
  {
    hide Finish, Denied;
  }

  lemma {:induction false} ReadIsDispatched(s: State, args: seq<string>, c: Compilation, env: Env)
    requires Refusal(s, args, env) == None && args[0] == "pilot-read" && |args| == 2
    ensures Invoke(s, args, c, env) == PilotRead(s, args, env)
  {
    hide Refusal, PilotRead, PilotWrite, PilotWriteSource, Compile, Close, Denied;
    assert |"pilot-read"| == 10 && |"pilot-write"| == 11 && |["--help"]| == 1;
  }

  /** A write that is made says so, if its line fits; nothing else comes of it. */
  ghost predicate Acknowledged(s: State, step: Step, args: seq<string>, path: string, body: bytes, output: bytes,
                               write: Write, env: Env)
  {
    && step.state.files == s.files[path := body] && step.state.drift == s.drift && step.writes == [write]
    && if |s.log| + |Line(env.utf8(Joined(args)), output, [], 0)| > 33554432 then
         step.exit == Raised(LogFull) && step.state.log == s.log
       else
         && step.exit == Exited(0, output, [])
         && Logged(s.log, step.state.log, [LogEntry(env.utf8(Joined(args)), output, [], 0)])
  }

  lemma {:induction false} SourceWriteAnswers(s: State, args: seq<string>, c: Compilation, env: Env)
    requires Refusal(s, args, env) == None && args[0] == "pilot-write-source" && Writable(s, args, env)
    ensures var path, body := env.resolve(args[1]).value, Decode(args[3]).value;
            Acknowledged(s, Invoke(s, args, c, env), args, path, body, env.text(SourceWritten),
                         Replaced(path, s.files[path], body, args[2]), env)
  {
    hide Acknowledged, Invoke, Refusal, Decode, PilotWriteSource, Close, Denied;
    SourceWriteDispatched(s, args, c, env);
    SourceWriteCloses(s, args, env);
    var path, body := env.resolve(args[1]).value, Decode(args[3]).value;
    CloseAnswers(s, args, path, body, env.text(SourceWritten), Replaced(path, s.files[path], body, args[2]), env);
  }

  lemma {:induction false} SourceWriteCloses(s: State, args: seq<string>, env: Env)
    requires Writable(s, args, env)
    ensures var path, body := env.resolve(args[1]).value, Decode(args[3]).value;
            PilotWriteSource(s, args, env)
            == Close(s.(files := s.files[path := body]), args, env.text(SourceWritten),
                     [Replaced(path, s.files[path], body, args[2])], env)
  {
    hide Close, Denied, Decode;
  }

  lemma {:induction false} ArtifactCloses(s: State, args: seq<string>, env: Env)
    requires Depositable(args, env)
    ensures var path, body := env.resolve(args[1]).value, Decode(args[2]).value;
            PilotWrite(s, args, env)
            == Close(s.(files := s.files[path := body]), args, env.text(ArtifactWritten), [Artifact(path, body)], env)
  {
    hide Close, Denied, Decode;
  }

  lemma {:induction false} CloseAnswers(s: State, args: seq<string>, path: string, body: bytes, output: bytes,
                                        write: Write, env: Env)
    ensures Acknowledged(s, Close(s.(files := s.files[path := body]), args, output, [write], env), args, path, body,
                         output, write, env)
  {
    hide Record, Line, Logged, Joined;
    RecordIsLogged(s.(files := s.files[path := body]), args, output, [], 0, env);
  }

  /** A write to a source that has changed since it was read says so. */
  lemma {:induction false} StaleAnswers(s: State, args: seq<string>, c: Compilation, env: Env)
    requires Refusal(s, args, env) == None && args[0] == "pilot-write-source" && |args| == 4
    requires env.resolve(args[1]).Some? && env.resolve(args[1]).value in s.files && IsDigest(args[2])
    requires env.links(env.resolve(args[1]).value) == 1 && env.suffix(env.resolve(args[1]).value) == ".spx"
    requires env.digest(s.files[env.resolve(args[1]).value]) != args[2]
    ensures RefusedWith(s, Invoke(s, args, c, env), args, SourceStale, env)
  {
    SourceWriteDispatched(s, args, c, env);
    DeniedAnswers(s, args, SourceStale, env);
    hide RefusedWith, Denied, Invoke, Refusal, IsDigest, Decode;
  }

  /** Help is shown and logged, if its line fits. */
  lemma {:induction false} HelpAnswers(s: State, c: Compilation, env: Env)
    requires Refusal(s, ["--help"], env) == None
    ensures var step := Invoke(s, ["--help"], c, env);
            && step.state.files == s.files && step.state.drift == s.drift && step.writes == []
            && if |s.log| + |Line(env.utf8("--help"), env.help, [], 0)| > 33554432 then
                 step.exit == Raised(LogFull) && step.state.log == s.log
               else
                 && step.exit == Exited(0, env.help, [])
                 && Logged(s.log, step.state.log, [LogEntry(env.utf8("--help"), env.help, [], 0)])
  {
    assert Joined(["--help"]) == "--help";
    RecordIsLogged(s, ["--help"], env.help, [], 0, env);
    hide Record, Line, Logged, Joined, Refusal;
    HelpIsClosed(s, ["--help"], c, env);
    hide Invoke;
  }

  lemma {:induction false} ArtifactAnswers(s: State, args: seq<string>, c: Compilation, env: Env)
    requires Refusal(s, args, env) == None && args[0] == "pilot-write" && Depositable(args, env)
    ensures var path, body := env.resolve(args[1]).value, Decode(args[2]).value;
            Acknowledged(s, Invoke(s, args, c, env), args, path, body, env.text(ArtifactWritten),
                         Artifact(path, body), env)
  {
    hide Acknowledged, Invoke, Refusal, Decode, PilotWrite, Close, Denied;
    ArtifactIsDispatched(s, args, c, env);
    ArtifactCloses(s, args, env);
    var path, body := env.resolve(args[1]).value, Decode(args[2]).value;
    CloseAnswers(s, args, path, body, env.text(ArtifactWritten), Artifact(path, body), env);
  }

  lemma {:induction false} ArtifactIsDispatched(s: State, args: seq<string>, c: Compilation, env: Env)
    requires Refusal(s, args, env) == None && args[0] == "pilot-write" && |args| == 3
    ensures Invoke(s, args, c, env) == PilotWrite(s, args, env)
  {
    hide Refusal, PilotRead, PilotWrite, PilotWriteSource, Compile, Close, Denied;
    assert |["--help"]| == 1;
  }

  // --- The wrapper program ---

  /** The gateway as it runs: candidate, drift file and log are changed in place. */
  class Wrapper {
    var files: Files
    var drift: Option<Drift>
    var log: string
    const env: Env

    ghost function Contents(): State
      reads this
    {
      State(files, drift, log)
    }

    /** `install_gateway`: no log yet. */
    constructor (candidate: Files, prepared: Option<Drift>, env: Env)
      ensures Contents() == State(candidate, prepared, "") && this.env == env
    {
      files, drift, log, this.env := candidate, prepared, "", env;
    }

    method AppendRecord(argv: seq<string>, output: bytes, error: bytes, code: int) returns (ok: bool)
      modifies this`log
      ensures var r := Record(old(Contents()), argv, output, error, code, env);
              ok == r.Some? && Contents() == if ok then r.value else old(Contents())
    {
      hide Line, Joined;
      var body := Line(env.utf8(Joined(argv)), output, error, code);
      if |log| + |body| > LOG_CAP { return false; }
      log := log + body;
      return true;
    }

    method Deny(args: seq<string>, message: Message) returns (exit: Exit)
      modifies this`log
      ensures var step := Denied(old(Contents()), args, message, env); Contents() == step.state && exit == step.exit
    {
      var error := env.text(message);
      var _ := AppendRecord(args, [], error, 126);
      return Exited(126, [], error);
    }

    /** `apply_drift`: the exit it forces, if any. */
    method InjectDrift(args: seq<string>) returns (halted: Option<Exit>, ghost writes: seq<Write>)
      modifies this
      ensures match ApplyDrift(old(Contents()), args, env)
              case Go(t, more) => Contents() == t && halted == None && writes == more
              case Halt(step) => Contents() == step.state && halted == Some(step.exit) && writes == step.writes
    {
      ApplyDriftCases(Contents(), args, env);
      hide Line, Evidence, Joined, Decode, Triggers, CORE, ApplyDrift, Inject;
      writes := [];
      if drift.None? || !Triggers(args, env) { return None, []; }
      TriggersName(args, env);
      var value := drift.value;
      if value.applied { return None, []; }
      if value.target != CORE {
        var exit := Deny(args, InvalidDriftTarget);
        return Some(exit), [];
      }
      var before, after := Decode(value.before64), Decode(value.after64);
      if before.None? || after.None? { return Some(Raised(BadDrift)), []; }
      if CORE !in files { return Some(Raised(NoTarget)), []; }
      if files[CORE] != before.value {
        var exit := Deny(args, CandidateChanged);
        return Some(exit), [];
      }
      halted, writes := ChangeSource(value, before.value, after.value, args[0]);
    }

    /** The injection itself: source, flag and record, in that order. */
    method ChangeSource(d: Drift, before: bytes, after: bytes, command: string)
      returns (halted: Option<Exit>, ghost writes: seq<Write>)
      requires drift == Some(d)
      modifies this
      ensures match Inject(old(Contents()), d, before, after, command, env)
              case Go(t, more) => Contents() == t && halted == None && writes == more
              case Halt(step) => Contents() == step.state && halted == Some(step.exit) && writes == step.writes
    {
      hide Record, Evidence;
      files := files[CORE := after];
      drift := Some(d.(applied := true));
      writes := [Drifted(CORE, before, after)];
      var ok := AppendRecord(["pilot-drift", command], env.utf8(Evidence(d, command)), [], 0);
      return if ok then None else Some(Raised(LogFull)), writes;
    }

    /** Record, inject, exit: the tail of a read and of a compiler command. */
    method Conclude(args: seq<string>, output: bytes, error: bytes, code: int, shown: bytes)
      returns (exit: Exit, ghost writes: seq<Write>)
      modifies this
      ensures var step := Finish(old(Contents()), args, output, error, code, shown, [], env);
              Contents() == step.state && exit == step.exit && writes == step.writes
    {
      hide ApplyDrift, Record, Joined;
      var ok := AppendRecord(args, output, error, code);
      if !ok { return Raised(LogFull), []; }
      var halted;
      halted, writes := InjectDrift(args);
      exit := if halted.Some? then halted.value else Exited(code, shown, error);
    }

    method WriteArtifact(args: seq<string>) returns (exit: Exit, ghost writes: seq<Write>)
      modifies this
      ensures var step := PilotWrite(old(Contents()), args, env);
              Contents() == step.state && exit == step.exit && writes == step.writes
    {
      writes := [];
      var body := if |args| == 3 then Decode(args[2]) else None;
      var target := if |args| == 3 then env.resolve(args[1]) else None;
      if |args| != 3 { exit := Deny(args, WriteArguments); }
      else if !env.artifact(args[1]) { exit := Deny(args, WriteTarget); }
      else if env.suffix(args[1]) !in [".json", ".spatch", ".wspatch"] { exit := Deny(args, WriteSuffix); }
      else if body.None? { exit := Deny(args, WriteBody); }
      else if |body.value| > CAP { exit := Deny(args, WriteSize); }
      else if target.None? { exit := Deny(args, WriteEscapes); }
      else {
        files := files[target.value := body.value];
        writes := [Artifact(target.value, body.value)];
        var output := env.text(ArtifactWritten);
        var ok := AppendRecord(args, output, [], 0);
        exit := if ok then Exited(0, output, []) else Raised(LogFull);
      }
    }

    method ReadSource(args: seq<string>) returns (exit: Exit, ghost writes: seq<Write>)
      modifies this
      ensures var step := PilotRead(old(Contents()), args, env);
              Contents() == step.state && exit == step.exit && writes == step.writes
    {
      writes := [];
      if |args| != 2 { exit := Deny(args, ReadArguments); return; }
      var target := env.resolve(args[1]);
      if target.None? { exit := Deny(args, ReadEscapes); return; }
      if !Readable(files, target.value, env) { exit := Deny(args, ReadTarget); return; }
      var source := files[target.value];
      if !env.isUtf8(source) { exit := Deny(args, ReadText); return; }
      exit, writes := Conclude(args, source, [], 0, env.present(source));
    }

    method WriteSource(args: seq<string>) returns (exit: Exit, ghost writes: seq<Write>)
      modifies this
      ensures var step := PilotWriteSource(old(Contents()), args, env);
              Contents() == step.state && exit == step.exit && writes == step.writes
    {
      hide Line, Joined, Decode, IsDigest;
      writes := [];
      if |args| != 4 { exit := Deny(args, SourceArguments); return; }
      var target := env.resolve(args[1]);
      if target.None? { exit := Deny(args, SourceEscapes); return; }
      var path := target.value;
      if !(path in files && env.links(path) == 1 && env.suffix(path) == ".spx")
        { exit := Deny(args, SourceTarget); return; }
      var expected := args[2];
      if !IsDigest(expected) { exit := Deny(args, SourceDigest); return; }
      if env.digest(files[path]) != expected { exit := Deny(args, SourceStale); return; }
      var body := Decode(args[3]);
      if body.None? { exit := Deny(args, SourceBody); return; }
      if |body.value| > CAP { exit := Deny(args, SourceSize); return; }
      writes := [Replaced(path, files[path], body.value, expected)];
      files := files[path := body.value];
      var output := env.text(SourceWritten);
      var ok := AppendRecord(args, output, [], 0);
      exit := if ok then Exited(0, output, []) else Raised(LogFull);
    }

    /** `invoke_real`, its record and the drift behind it. */
    method RunCompiler(args: seq<string>, c: Compilation) returns (exit: Exit, ghost writes: seq<Write>)
      modifies this
      ensures var step := Compile(old(Contents()), args, c, env);
              Contents() == step.state && exit == step.exit && writes == step.writes
    {
      hide Finish, Line, Drain;
      if c.spawnFailure.Some? {
        exit, writes := Conclude(args, [], c.spawnFailure.value, 125, []);
        return;
      }
      ghost var ran := [Compiled(files, c.files)];
      files := c.files;
      var captured := ReadStreams(c.chunks);
      if captured.failure.None? && c.code.None? { return Raised(WaitExpired), ran; }
      var error := if captured.failure.Some? then captured.error + env.text(captured.failure.value) else captured.error;
      var code := if captured.failure.Some? then 124 else c.code.value;
      FinishPrefixes(Contents(), args, captured.output, error, code, captured.output, ran, env);
      exit, writes := Conclude(args, captured.output, error, code, captured.output);
      writes := ran + writes;
    }

    method Invoked(args: seq<string>, c: Compilation) returns (exit: Exit, ghost writes: seq<Write>)
      modifies this
      ensures var step := Invoke(old(Contents()), args, c, env);
              Contents() == step.state && exit == step.exit && writes == step.writes
      ensures Sound(old(Contents()), Contents(), writes, env)
    {
      InvokeSound(Contents(), args, c, env);
      var refusal := Refusal(State(files, drift, log), args, env);
      writes := [];
      if refusal.Some? { exit := Deny(args, refusal.value); }
      else if args == ["--help"] {
        var ok := AppendRecord(args, env.help, [], 0);
        exit := if ok then Exited(0, env.help, []) else Raised(LogFull);
      }
      else if args[0] == "pilot-write" { exit, writes := WriteArtifact(args); }
      else if args[0] == "pilot-read" { exit, writes := ReadSource(args); }
      else if args[0] == "pilot-write-source" { exit, writes := WriteSource(args); }
      else { exit, writes := RunCompiler(args, c); }
    }
  }

  /** Writes made before the tail only stand in front of its own. */
  lemma {:induction false} FinishPrefixes(s: State, args: seq<string>, output: bytes, error: bytes, code: int,
                                          shown: bytes, writes: seq<Write>, env: Env)
    ensures var a, b := Finish(s, args, output, error, code, shown, writes, env),
                    Finish(s, args, output, error, code, shown, [], env);
            a.state == b.state && a.exit == b.exit && a.writes == writes + b.writes
  {
    hide Record, ApplyDrift;
  }
}
