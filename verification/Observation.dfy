/**
 * Trial observations: deriving one from an event ledger, and validating one on its own.
 * The two are separate programs over the same document; the ledger fold has to produce
 * what the validator accepts.
 */
module Observation {
  import opened Common
  import opened Sequences

  datatype Refusal =
    | MissingFile | FileTooLarge | NotDistinct | WrongSchema | WrongPlan
    | UnavailableTaskOrLane | WrongState | TrialOutside
    | BadText | WrongPrompt | BadOutcome | ArtifactCount | ArtifactIdentity | EvidenceTooLarge | ArtifactBinding
    | StreamInventory | MissingEvidence | TooManyEvents | UnknownKind | EventValues | AcceptanceInventory
    | AcceptanceOutcome | OutcomeDisagrees | MetricInventory | MetricStatus

  const MAX_JSON := 1024 * 1024
  const MAX_EVIDENCE := 32 * 1024 * 1024
  const MAX_EVIDENCE_TOTAL := 64 * 1024 * 1024
  const MAX_ARTIFACTS := 64
  const MAX_LEDGER := 8 * 1024 * 1024
  const MAX_LEDGER_EVENTS := 65536
  const LEDGER_ID := "typed-event-ledger"
  const LEDGER_SCHEMA := "semaprax.agent-task-comparison-ledger.v1"
  const OBSERVATION_SCHEMA := "semaprax.agent-task-comparison-observation.v1"

  datatype Metric =
    | ModelInputTokens | ModelOutputTokens | PresentedContextBytes | ToolCalls | ToolRequestBytes | ToolResponseBytes
    | FailedAttempts | StaleFailures | StaleRecoveryActions | ValidationWallMs | ReviewWallMs | HumanInterventions

  const METRICS: seq<Metric> := [
    ModelInputTokens, ModelOutputTokens, PresentedContextBytes, ToolCalls, ToolRequestBytes, ToolResponseBytes,
    FailedAttempts, StaleFailures, StaleRecoveryActions, ValidationWallMs, ReviewWallMs, HumanInterventions]

  lemma {:induction false} AllMetrics(m: Metric)
    ensures m in METRICS
  {
    assert METRICS[0] == ModelInputTokens && METRICS[1] == ModelOutputTokens && METRICS[2] == PresentedContextBytes;
    assert METRICS[3] == ToolCalls && METRICS[4] == ToolRequestBytes && METRICS[5] == ToolResponseBytes;
    assert METRICS[6] == FailedAttempts && METRICS[7] == StaleFailures && METRICS[8] == StaleRecoveryActions;
    assert METRICS[9] == ValidationWallMs && METRICS[10] == ReviewWallMs && METRICS[11] == HumanInterventions;
  }

  datatype Stream =
    | UsageStream | ContextStream | ToolStream | FailedStream | StaleStream | ValidationStream | ReviewStream
    | HumanStream | OtherStream(name: string)

  const STREAMS: set<Stream> := {
    UsageStream, ContextStream, ToolStream, FailedStream, StaleStream, ValidationStream, ReviewStream, HumanStream}

  /** The stream whose evidence stands behind a metric. */
  function StreamOf(m: Metric): (s: Stream)
    ensures s in STREAMS
  {
    match m
    case ModelInputTokens => UsageStream
    case ModelOutputTokens => UsageStream
    case PresentedContextBytes => ContextStream
    case ToolCalls => ToolStream
    case ToolRequestBytes => ToolStream
    case ToolResponseBytes => ToolStream
    case FailedAttempts => FailedStream
    case StaleFailures => StaleStream
    case StaleRecoveryActions => StaleStream
    case ValidationWallMs => ValidationStream
    case ReviewWallMs => ReviewStream
    case HumanInterventions => HumanStream
  }

  datatype Kind =
    | ModelUsage | ContextPresentation | ToolCall | FailedAttempt | StaleFailure | StaleRecoveryAction
    | ValidationInterval | ReviewInterval | HumanIntervention | OtherKind(name: string)

  /** The amounts an event of this kind states. */
  function Shape(k: Kind): set<Metric> {
    match k
    case ModelUsage => {ModelInputTokens, ModelOutputTokens}
    case ContextPresentation => {PresentedContextBytes}
    case ToolCall => {ToolRequestBytes, ToolResponseBytes}
    case ValidationInterval => {ValidationWallMs}
    case ReviewInterval => {ReviewWallMs}
    case _ => {}
  }

  /** The metric that counts events of this kind. */
  function CountedBy(k: Kind): Option<Metric> {
    match k
    case ToolCall => Some(ToolCalls)
    case FailedAttempt => Some(FailedAttempts)
    case StaleFailure => Some(StaleFailures)
    case StaleRecoveryAction => Some(StaleRecoveryActions)
    case HumanIntervention => Some(HumanInterventions)
    case _ => None
  }

  datatype Event = Event(kind: Kind, values: map<Metric, int>, evidence: seq<string>)
  datatype Artifact = Artifact(id: string, path: string, size: int, digest: string, kind: string)
  datatype Verdict = Verdict(id: string, outcome: string, evidence: seq<string>)
  datatype Reading = Reading(status: string, value: int, how: string, evidence: seq<string>)

  /** The fields that ledger and observation share verbatim. */
  datatype Subject = Subject(
    plan: string, task: string, lane: string, trial: int, state: string, model: string, tokenizer: string,
    configuration: string, harness: string, host: string, toolchain: string, prompt: string, outcome: string)

  datatype Ledger = Ledger(schema: string, subject: Subject, artifacts: seq<Artifact>,
                           streams: map<Stream, seq<string>>, events: seq<Event>, acceptance: seq<Verdict>)
  datatype Document = Document(schema: string, subject: Subject, artifacts: seq<Artifact>,
                               metrics: map<Metric, Reading>, acceptance: seq<Verdict>)

  /** What the plan and the manifest fix for every trial. */
  datatype Context = Context(plan: string, prompts: map<string, string>, criteria: map<string, seq<string>>,
                             available: set<string>, state: string, repetitions: nat)

  /** The directory that holds ledger, observation and artifacts, by name. */
  type Files = map<string, bytes>
  type Digest = bytes -> string

  // --- Checks the two programs share ---

  /** How many bytes UTF-8 takes for a character. */
  function Utf8Size(c: char): nat {
    if c < 0x80 as char then 1 else if c < 0x800 as char then 2 else if c < 0x1_0000 as char then 3 else 4
  }

  function Utf8Length(s: string): nat {
    if s == "" then 0 else Utf8Length(s[..|s| - 1]) + Utf8Size(s[|s| - 1])
  }

  predicate Text(s: string) { s != "" && Utf8Length(s) <= 65536 }

  /** Every text of at most 65536 bytes has at most as many characters, and one of 16384 characters always fits. */
  lemma {:induction false} TextBounds(s: string)
    ensures |s| <= Utf8Length(s) <= 4 * |s|
    ensures Text(s) ==> 0 < |s| <= 65536
    ensures 0 < |s| <= 16384 ==> Text(s)
  {
    if s != "" { TextBounds(s[..|s| - 1]); }
  }

  predicate SubjectAdmitted(s: Subject, c: Context) {
    && s.plan == c.plan && s.task in c.prompts && s.task in c.criteria && s.lane in c.available
    && s.state == c.state && 1 <= s.trial <= c.repetitions
    && Text(s.model) && Text(s.tokenizer) && Text(s.configuration) && Text(s.harness) && Text(s.host)
    && Text(s.toolchain) && Text(s.prompt) && Text(s.outcome)
    && s.prompt == c.prompts[s.task]
    && (s.outcome == "completed" || s.outcome == "failed" || s.outcome == "aborted")
  }

  function SubjectRefusal(s: Subject, c: Context): Refusal {
    if s.plan != c.plan then WrongPlan
    else if !(s.task in c.prompts && s.task in c.criteria && s.lane in c.available) then UnavailableTaskOrLane
    else if s.state != c.state then WrongState
    else if !(1 <= s.trial <= c.repetitions) then TrialOutside
    else if !(Text(s.model) && Text(s.tokenizer) && Text(s.configuration) && Text(s.harness) && Text(s.host)
              && Text(s.toolchain) && Text(s.prompt) && Text(s.outcome)) then BadText
    else if s.prompt != c.prompts[s.task] then WrongPrompt
    else BadOutcome
  }

  /** An artifact bound to the bytes of its file. */
  predicate Bound(a: Artifact, files: Files, digest: Digest) {
    && Text(a.id) && Text(a.kind)
    && a.path in files && |files[a.path]| <= MAX_EVIDENCE
    && a.size == |files[a.path]| && a.digest == digest(files[a.path])
  }

  function Ids(artifacts: seq<Artifact>): set<string> { set a | a in artifacts :: a.id }

  function Size(a: Artifact, files: Files): nat { if a.path in files then |files[a.path]| else 0 }

  function EvidenceBytes(artifacts: seq<Artifact>, files: Files): nat {
    if artifacts == [] then 0
    else EvidenceBytes(artifacts[..|artifacts| - 1], files) + Size(artifacts[|artifacts| - 1], files)
  }

  ghost predicate ArtifactsAdmitted(artifacts: seq<Artifact>, files: Files, digest: Digest) {
    && (forall i | 0 <= i < |artifacts| :: Bound(artifacts[i], files, digest))
    && (forall i, j | 0 <= i < j < |artifacts| :: artifacts[i].id != artifacts[j].id)
    && EvidenceBytes(artifacts, files) <= MAX_EVIDENCE_TOTAL
  }

  predicate Refers(refs: seq<string>, known: set<string>) {
    refs != [] && forall i | 0 <= i < |refs| :: refs[i] in known
  }

  predicate Passed(rows: seq<Verdict>) { forall i | 0 <= i < |rows| :: rows[i].outcome == "passed" }

  predicate VerdictAdmitted(v: Verdict, known: set<string>) {
    (v.outcome == "passed" || v.outcome == "failed") && Refers(v.evidence, known)
  }

  function VerdictIds(rows: seq<Verdict>): seq<string> {
    seq(|rows|, i requires 0 <= i < |rows| => rows[i].id)
  }

  ghost predicate AcceptanceAdmitted(rows: seq<Verdict>, subject: Subject, criteria: seq<string>, known: set<string>) {
    && VerdictIds(rows) == criteria
    && (forall i | 0 <= i < |rows| :: VerdictAdmitted(rows[i], known))
    && (subject.outcome == "completed" <==> Passed(rows))
  }

  /** What ledger and document have to say about their trial, field by field. */
  lemma {:induction false} SubjectExactlyWhen(s: Subject, c: Context)
    ensures SubjectAdmitted(s, c) <==>
            && s.plan == c.plan && s.task in c.prompts && s.task in c.criteria && s.prompt == c.prompts[s.task]
            && s.lane in c.available && s.state == c.state && 0 < s.trial < c.repetitions + 1
            && s.outcome in {"completed", "failed", "aborted"}
            && forall t | t in {s.model, s.tokenizer, s.configuration, s.harness, s.host, s.toolchain, s.prompt,
                                s.outcome} ::
                 |t| > 0 && Utf8Length(t) <= 65536
  {}

  /** The artifacts are present, bound by size and digest, differently named, and within the byte bounds. */
  lemma {:induction false} ArtifactsExactlyWhen(artifacts: seq<Artifact>, files: Files, digest: Digest)
    ensures ArtifactsAdmitted(artifacts, files, digest) <==>
            && (forall a | a in artifacts ::
                  && a.path in files && |files[a.path]| <= 33554432
                  && a.size == |files[a.path]| && a.digest == digest(files[a.path])
                  && |a.id| > 0 && Utf8Length(a.id) <= 65536 && |a.kind| > 0 && Utf8Length(a.kind) <= 65536)
            && (forall i, j | 0 <= i < j < |artifacts| :: artifacts[i].id != artifacts[j].id)
            && EvidenceBytes(artifacts, files) <= 67108864
  {
    if ArtifactsAdmitted(artifacts, files, digest) {
      forall a | a in artifacts ensures Bound(a, files, digest) {
        var i :| 0 <= i < |artifacts| && artifacts[i] == a;
      }
    }
    hide EvidenceBytes, Utf8Length;
    assert forall i | 0 <= i < |artifacts| :: artifacts[i] in artifacts;
  }

  /** The criteria in order, each decided on evidence; all passed exactly when the trial is completed. */
  lemma {:induction false} AcceptanceExactlyWhen(rows: seq<Verdict>, subject: Subject, criteria: seq<string>,
                                                 known: set<string>)
    ensures AcceptanceAdmitted(rows, subject, criteria, known) <==>
            && |rows| == |criteria|
            && (forall i | 0 <= i < |rows| ::
                  && rows[i].id == criteria[i] && rows[i].outcome in {"passed", "failed"}
                  && |rows[i].evidence| > 0 && forall x | x in rows[i].evidence :: x in known)
            && (subject.outcome == "completed" <==> forall i | 0 <= i < |rows| :: rows[i].outcome != "failed")
  {
    assert forall i | 0 <= i < |rows| :: VerdictIds(rows)[i] == rows[i].id;
    if VerdictIds(rows) == criteria {
      assert forall i | 0 <= i < |rows| :: rows[i].id == criteria[i];
    }
    if |rows| == |criteria| && forall i | 0 <= i < |rows| :: rows[i].id == criteria[i] {
      assert VerdictIds(rows) == criteria;
    }
    forall refs: seq<string> ensures Refers(refs, known) <==> |refs| > 0 && forall x | x in refs :: x in known {
      assert forall i | 0 <= i < |refs| :: refs[i] in refs;
    }
    hide Refers, VerdictIds;
  }

  // --- What the events add up to ---

  /** How much one event adds to a metric: the amount it states, or one when it is counted. */
  function Amount(e: Event, m: Metric): int {
    (if m in Shape(e.kind) && m in e.values then e.values[m] else 0) + (if CountedBy(e.kind) == Some(m) then 1 else 0)
  }

  function Total(events: seq<Event>, m: Metric): int {
    if events == [] then 0 else Total(events[..|events| - 1], m) + Amount(events[|events| - 1], m)
  }

  predicate Contributes(e: Event, m: Metric) { m in Shape(e.kind) || CountedBy(e.kind) == Some(m) }

  /** The evidence of the events that contribute to a metric, in order. */
  function Behind(events: seq<Event>, m: Metric): seq<string> {
    if events == [] then []
    else
      var e := events[|events| - 1];
      Behind(events[..|events| - 1], m) + (if Contributes(e, m) then e.evidence else [])
  }

  predicate EventAdmitted(e: Event, known: set<string>) {
    && !e.kind.OtherKind? && e.values.Keys == Shape(e.kind)
    && (forall m | m in e.values :: e.values[m] >= 0)
    && Refers(e.evidence, known)
  }

  /** Totals add under concatenation. */
  lemma {:induction false} TotalsAdd(a: seq<Event>, b: seq<Event>, m: Metric)
    ensures Total(a + b, m) == Total(a, m) + Total(b, m)
    decreases |b|
  {
    if b == [] {
      assert a + b == a;
    } else {
      TotalsAdd(a, b[..|b| - 1], m);
      assert (a + b)[..|a + b| - 1] == a + b[..|b| - 1];
    }
  }

  lemma {:induction false} TotalWithout(events: seq<Event>, i: nat, m: Metric)
    requires i < |events|
    ensures Total(events, m) == Total(events[..i] + events[i + 1..], m) + Amount(events[i], m)
  {
    var front, back := events[..i], events[i + 1..];
    assert events == events[..i + 1] + back;
    TotalsAdd(events[..i + 1], back, m);
    TotalsAdd(front, back, m);
    assert events[..i + 1][..i] == front;
  }

  /** Totals do not depend on the order of the events. */
  lemma {:induction false} TotalsIgnoreOrder(a: seq<Event>, b: seq<Event>, m: Metric)
    requires multiset(a) == multiset(b)
    ensures Total(a, m) == Total(b, m)
    decreases |a|
  {
    if a == [] {
      assert |b| == |multiset(b)| == 0;
    } else {
      var n := |a| - 1;
      assert a[n] in multiset(a);
      assert a[n] in multiset(b);
      var i :| 0 <= i < |b| && b[i] == a[n];
      MultisetWithout(a, n);
      MultisetWithout(b, i);
      TotalsIgnoreOrder(a[..n] + a[n + 1..], b[..i] + b[i + 1..], m);
      TotalWithout(a, n, m);
      TotalWithout(b, i, m);
    }
  }

  // --- Admissible ledgers and the document derived from one ---

  function Streamed(ledger: Ledger, m: Metric): seq<string> {
    if StreamOf(m) in ledger.streams then ledger.streams[StreamOf(m)] else []
  }

  function EvidenceFor(ledger: Ledger, m: Metric): seq<string> {
    Unrepeated([LEDGER_ID] + Streamed(ledger, m) + Behind(ledger.events, m))
  }

  function Method(m: Metric): string {
    match m
    case ModelInputTokens => "sum_typed_model_usage_events"
    case ModelOutputTokens => "sum_typed_model_usage_events"
    case PresentedContextBytes => "sum_typed_context_presentation_events"
    case ToolCalls => "count_typed_tool_call_events"
    case ToolRequestBytes => "sum_typed_tool_call_events"
    case ToolResponseBytes => "sum_typed_tool_call_events"
    case FailedAttempts => "count_typed_failed_attempt_events"
    case StaleFailures => "count_typed_stale_failure_events"
    case StaleRecoveryActions => "count_typed_stale_recovery_action_events"
    case ValidationWallMs => "sum_typed_validation_interval_events"
    case ReviewWallMs => "sum_typed_review_interval_events"
    case HumanInterventions => "count_typed_human_intervention_events"
  }

  function Readings(ledger: Ledger): map<Metric, Reading> {
    map m | m in METRICS :: Reading("observed", Total(ledger.events, m), Method(m), EvidenceFor(ledger, m))
  }

  function Derived(rows: seq<Verdict>): seq<Verdict> {
    seq(|rows|, i requires 0 <= i < |rows| => Verdict(rows[i].id, rows[i].outcome, [LEDGER_ID] + rows[i].evidence))
  }

  function LedgerArtifact(name: string, body: bytes, digest: Digest): Artifact {
    Artifact(LEDGER_ID, name, |body|, digest(body), "typed_event_ledger")
  }

  ghost predicate LedgerAdmitted(ledger: Ledger, name: string, files: Files, c: Context, digest: Digest) {
    && name in files && |files[name]| <= MAX_LEDGER
    && ledger.schema == LEDGER_SCHEMA && SubjectAdmitted(ledger.subject, c)
    && 1 <= |ledger.artifacts| < MAX_ARTIFACTS && LEDGER_ID !in Ids(ledger.artifacts)
    && (forall a | a in ledger.artifacts :: Text(a.path))
    && ArtifactsAdmitted(ledger.artifacts, files, digest)
    && ledger.streams.Keys == STREAMS
    && (forall s | s in ledger.streams :: Refers(ledger.streams[s], Ids(ledger.artifacts)))
    && |ledger.events| <= MAX_LEDGER_EVENTS
    && (forall i | 0 <= i < |ledger.events| :: EventAdmitted(ledger.events[i], Ids(ledger.artifacts)))
    && AcceptanceAdmitted(ledger.acceptance, ledger.subject, c.criteria[ledger.subject.task], Ids(ledger.artifacts))
  }

  function DocumentOf(ledger: Ledger, name: string, body: bytes, digest: Digest): Document {
    Document(OBSERVATION_SCHEMA, ledger.subject, WithLedger(ledger, name, body, digest), Readings(ledger),
             Derived(ledger.acceptance))
  }

  // --- What the validator accepts ---

  predicate ReadingAdmitted(r: Reading, known: set<string>) {
    r.status == "observed" && r.value >= 0 && Text(r.how) && Refers(r.evidence, known)
  }

  ghost predicate DocumentAdmitted(d: Document, path: string, files: Files, c: Context, digest: Digest) {
    && path in files && |files[path]| <= MAX_JSON
    && d.schema == OBSERVATION_SCHEMA && SubjectAdmitted(d.subject, c)
    && 1 <= |d.artifacts| <= MAX_ARTIFACTS && ArtifactsAdmitted(d.artifacts, files, digest)
    && (forall m :: m in d.metrics)
    && (forall m | m in d.metrics :: ReadingAdmitted(d.metrics[m], Ids(d.artifacts)))
    && AcceptanceAdmitted(d.acceptance, d.subject, c.criteria[d.subject.task], Ids(d.artifacts))
  }

  // --- The derived document passes the validator ---

  lemma {:induction false} BehindIsKnown(events: seq<Event>, m: Metric, known: set<string>)
    requires forall i | 0 <= i < |events| :: EventAdmitted(events[i], known)
    ensures forall x | x in Behind(events, m) :: x in known
    ensures Total(events, m) >= 0
  {
    if events != [] {
      BehindIsKnown(events[..|events| - 1], m, known);
      assert EventAdmitted(events[|events| - 1], known);
    }
  }

  lemma {:induction false} EvidenceIsKnown(ledger: Ledger, m: Metric, known: set<string>)
    requires ledger.streams.Keys == STREAMS
    requires forall s | s in ledger.streams :: Refers(ledger.streams[s], known)
    requires forall i | 0 <= i < |ledger.events| :: EventAdmitted(ledger.events[i], known)
    ensures Refers(EvidenceFor(ledger, m), known + {LEDGER_ID})
  {
    BehindIsKnown(ledger.events, m, known);
    var streamed := Streamed(ledger, m);
    assert Refers(streamed, known);
    var refs := [LEDGER_ID] + streamed + Behind(ledger.events, m);
    UnrepeatedKeeps(refs);
    assert refs[0] == LEDGER_ID && refs[0] in refs;
    assert LEDGER_ID in EvidenceFor(ledger, m);
    forall i | 0 <= i < |EvidenceFor(ledger, m)| ensures EvidenceFor(ledger, m)[i] in known + {LEDGER_ID} {
      var x := EvidenceFor(ledger, m)[i];
      assert x in refs;
      assert x == LEDGER_ID || x in streamed || x in Behind(ledger.events, m);
      if x in streamed { var k :| 0 <= k < |streamed| && streamed[k] == x; }
    }
  }

  lemma {:induction false} MethodLength(m: Metric)
    ensures 0 < |Method(m)| <= 64
  {}

  lemma {:induction false} MethodIsText(m: Metric)
    ensures Text(Method(m))
  {
    MethodLength(m);
    hide Method, Utf8Length;
    TextBounds(Method(m));
  }

  // --- Writing the document beside the ledger ---

  const TEMPORARY := ".tmp"

  /** `write`: through a temporary file of the same name, which replaces the output and is gone. */
  function Written(files: Files, path: string, json: bytes): Files {
    (files - {path + TEMPORARY})[path := json]
  }

  /** The file is left as it was, or replaced by bytes of its own size and digest. */
  predicate Survives(name: string, path: string, json: bytes, files: Files, digest: Digest)
    requires name in files
  {
    name != path + TEMPORARY && (name == path ==> |json| == |files[path]| && digest(json) == digest(files[path]))
  }

  lemma {:induction false} TemporaryIsAnother(path: string)
    ensures path + TEMPORARY != path
  {
    assert |path + TEMPORARY| == |path| + 4;
  }

  lemma {:induction false} EvidenceUnchanged(artifacts: seq<Artifact>, files: Files, after: Files)
    requires forall i | 0 <= i < |artifacts| :: Size(artifacts[i], files) == Size(artifacts[i], after)
    ensures EvidenceBytes(artifacts, files) == EvidenceBytes(artifacts, after)
  {
    if artifacts != [] { EvidenceUnchanged(artifacts[..|artifacts| - 1], files, after); }
  }

  /** An artifact bound before the write is bound behind it exactly when its file survives. */
  lemma {:induction false} BoundExactlyWhen(a: Artifact, path: string, json: bytes, files: Files, digest: Digest)
    requires Bound(a, files, digest)
    ensures Bound(a, Written(files, path, json), digest) <==> Survives(a.path, path, json, files, digest)
  {
    TemporaryIsAnother(path);
  }

  lemma {:induction false} LedgerArtifactBound(name: string, files: Files, digest: Digest)
    requires name in files && |files[name]| <= MAX_LEDGER
    ensures Bound(LedgerArtifact(name, files[name], digest), files, digest)
  {
    assert |LEDGER_ID| == 18 && |"typed_event_ledger"| == 18;
    TextBounds(LEDGER_ID);
    TextBounds("typed_event_ledger");
  }

  /** The artifacts a document is given: those of the ledger, and the ledger itself. */
  function WithLedger(ledger: Ledger, name: string, body: bytes, digest: Digest): (artifacts: seq<Artifact>)
    ensures |artifacts| == |ledger.artifacts| + 1
  {
    ledger.artifacts + [LedgerArtifact(name, body, digest)]
  }

  lemma {:induction false} AllBound(ledger: Ledger, name: string, path: string, json: bytes, files: Files, c: Context,
                                    digest: Digest)
    requires LedgerAdmitted(ledger, name, files, c, digest) && path != name
    ensures var artifacts := WithLedger(ledger, name, files[name], digest);
            (forall i | 0 <= i < |artifacts| :: Bound(artifacts[i], Written(files, path, json), digest))
            <==> name != path + TEMPORARY
                 && forall a | a in ledger.artifacts :: a.path in files && Survives(a.path, path, json, files, digest)
  {
    var after, own := Written(files, path, json), LedgerArtifact(name, files[name], digest);
    var artifacts := WithLedger(ledger, name, files[name], digest);
    LedgerArtifactBound(name, files, digest);
    BoundExactlyWhen(own, path, json, files, digest);
    assert artifacts[|ledger.artifacts|] == own;
    forall i | 0 <= i < |ledger.artifacts|
      ensures artifacts[i].path in files
      ensures Bound(artifacts[i], after, digest) <==> Survives(artifacts[i].path, path, json, files, digest)
    {
      assert artifacts[i] == ledger.artifacts[i] && Bound(ledger.artifacts[i], files, digest);
      BoundExactlyWhen(artifacts[i], path, json, files, digest);
    }
    forall a | a in ledger.artifacts ensures exists i :: 0 <= i < |ledger.artifacts| && artifacts[i] == a {
      var i :| 0 <= i < |ledger.artifacts| && ledger.artifacts[i] == a;
      assert artifacts[i] == a;
    }
    forall i | 0 <= i < |ledger.artifacts| ensures artifacts[i] in ledger.artifacts {
      assert artifacts[i] == ledger.artifacts[i];
    }
  }

  /** If all artifacts are still bound, their sizes have not changed, and the ledger's own is added. */
  lemma {:induction false} EvidenceWithLedger(ledger: Ledger, name: string, files: Files, after: Files, c: Context,
                                              digest: Digest)
    requires LedgerAdmitted(ledger, name, files, c, digest)
    requires var artifacts := WithLedger(ledger, name, files[name], digest);
             forall i | 0 <= i < |artifacts| :: Bound(artifacts[i], after, digest)
    ensures EvidenceBytes(WithLedger(ledger, name, files[name], digest), after)
         == EvidenceBytes(ledger.artifacts, files) + |files[name]|
  {
    var artifacts, own := WithLedger(ledger, name, files[name], digest), LedgerArtifact(name, files[name], digest);
    assert artifacts[..|artifacts| - 1] == ledger.artifacts && artifacts[|artifacts| - 1] == own;
    forall i | 0 <= i < |ledger.artifacts|
      ensures Size(ledger.artifacts[i], files) == Size(ledger.artifacts[i], after)
    {
      assert artifacts[i] == ledger.artifacts[i];
      assert Bound(ledger.artifacts[i], files, digest) && Bound(artifacts[i], after, digest);
    }
    EvidenceUnchanged(ledger.artifacts, files, after);
  }

  lemma {:induction false} IdsWithLedger(ledger: Ledger, name: string, files: Files, c: Context, digest: Digest)
    requires LedgerAdmitted(ledger, name, files, c, digest)
    ensures var artifacts := WithLedger(ledger, name, files[name], digest);
            && Ids(artifacts) == Ids(ledger.artifacts) + {LEDGER_ID}
            && forall i, j | 0 <= i < j < |artifacts| :: artifacts[i].id != artifacts[j].id
  {
    var artifacts := WithLedger(ledger, name, files[name], digest);
    forall i, j | 0 <= i < j < |artifacts| ensures artifacts[i].id != artifacts[j].id {
      assert ledger.artifacts[i].id in Ids(ledger.artifacts);
    }
  }

  /** What has to hold of the written files, beyond an admitted ledger. */
  ghost predicate Loadable(ledger: Ledger, name: string, path: string, json: bytes, files: Files, digest: Digest) {
    && name in files && |json| <= MAX_JSON && name != path + TEMPORARY
    && EvidenceBytes(ledger.artifacts, files) + |files[name]| <= MAX_EVIDENCE_TOTAL
    && forall a | a in ledger.artifacts :: a.path in files && Survives(a.path, path, json, files, digest)
  }

  lemma {:induction false} DocumentArtifacts(ledger: Ledger, name: string, path: string, json: bytes, files: Files,
                                             c: Context, digest: Digest)
    requires LedgerAdmitted(ledger, name, files, c, digest) && path != name
    ensures ArtifactsAdmitted(WithLedger(ledger, name, files[name], digest), Written(files, path, json), digest)
       <==> && name != path + TEMPORARY
            && EvidenceBytes(ledger.artifacts, files) + |files[name]| <= MAX_EVIDENCE_TOTAL
            && forall a | a in ledger.artifacts :: a.path in files && Survives(a.path, path, json, files, digest)
  {
    var artifacts, after := WithLedger(ledger, name, files[name], digest), Written(files, path, json);
    AllBound(ledger, name, path, json, files, c, digest);
    IdsWithLedger(ledger, name, files, c, digest);
    if forall i | 0 <= i < |artifacts| :: Bound(artifacts[i], after, digest) {
      EvidenceWithLedger(ledger, name, files, after, c, digest);
    }
  }

  lemma {:induction false} DerivedAcceptance(rows: seq<Verdict>, subject: Subject, criteria: seq<string>,
                                             known: set<string>)
    requires AcceptanceAdmitted(rows, subject, criteria, known)
    ensures AcceptanceAdmitted(Derived(rows), subject, criteria, known + {LEDGER_ID})
    ensures Passed(Derived(rows)) <==> Passed(rows)
  {
    assert VerdictIds(Derived(rows)) == VerdictIds(rows);
    forall i | 0 <= i < |rows| ensures VerdictAdmitted(Derived(rows)[i], known + {LEDGER_ID}) {
      assert VerdictAdmitted(rows[i], known);
    }
    assert forall i | 0 <= i < |rows| :: Derived(rows)[i].outcome == rows[i].outcome;
  }

  /**
   * The document derived from an admitted ledger passes the validator exactly when the JSON is
   * within its bound, the evidence is within its bound with the ledger's own bytes counted, and
   * writing the document has left every artifact's file, and the ledger, as it was bound. The
   * derivation checks none of the three.
   */
  lemma {:induction false} DerivedDocumentLoads(ledger: Ledger, name: string, path: string, json: bytes, files: Files,
                                                c: Context, digest: Digest)
    requires LedgerAdmitted(ledger, name, files, c, digest) && path != name
    ensures var d := DocumentOf(ledger, name, files[name], digest);
            && (DocumentAdmitted(d, path, Written(files, path, json), c, digest)
                <==> Loadable(ledger, name, path, json, files, digest))
            && (forall m :: m in d.metrics && d.metrics[m].value == Total(ledger.events, m))
            && (Passed(d.acceptance) <==> ledger.subject.outcome == "completed")
  {
    var d, known := DocumentOf(ledger, name, files[name], digest), Ids(ledger.artifacts);
    DocumentArtifacts(ledger, name, path, json, files, c, digest);
    IdsWithLedger(ledger, name, files, c, digest);
    DerivedAcceptance(ledger.acceptance, ledger.subject, c.criteria[ledger.subject.task], known);
    forall m ensures m in d.metrics && ReadingAdmitted(d.metrics[m], known + {LEDGER_ID}) {
      AllMetrics(m);
      EvidenceIsKnown(ledger, m, known);
      BehindIsKnown(ledger.events, m, known);
      MethodIsText(m);
    }
  }

  // --- Ledgers whose document does not load ---

  const TRIAL := Context("plan", map["task" := "prompt"], map["task" := ["done"]], {"lane"}, "cold", 1)

  /** A completed trial without events, over two artifacts "a" and "b". */
  function TrialLedger(a: Artifact, b: Artifact): Ledger {
    Ledger(LEDGER_SCHEMA,
           Subject("plan", "task", "lane", 1, "cold", "m", "t", "c", "h", "o", "x", "prompt", "completed"),
           [a, b], map s | s in STREAMS :: ["a"], [], [Verdict("done", "passed", ["b"])])
  }

  function FileArtifact(id: string, path: string, files: Files, digest: Digest): Artifact
    requires path in files
  {
    Artifact(id, path, |files[path]|, digest(files[path]), "k")
  }

  lemma {:induction false} TrialSubject(a: Artifact, b: Artifact)
    ensures SubjectAdmitted(TrialLedger(a, b).subject, TRIAL)
  {
    TextBounds("m");
    TextBounds("t");
    TextBounds("c");
    TextBounds("h");
    TextBounds("o");
    TextBounds("x");
    TextBounds("prompt");
    TextBounds("completed");
  }

  lemma {:induction false} TwoArtifacts(a: Artifact, b: Artifact, files: Files)
    ensures EvidenceBytes([a, b], files) == Size(a, files) + Size(b, files)
    ensures Ids([a, b]) == {a.id, b.id}
  {
    assert [a, b][..1] == [a] && [a][..0] == [];
    assert EvidenceBytes([a], files) == EvidenceBytes([], files) + Size(a, files);
    assert forall x | x in [a, b] :: x == a || x == b;
    assert [a, b][0] in [a, b] && [a, b][1] in [a, b];
  }

  lemma {:induction false} TrialLedgerAdmitted(p: string, q: string, files: Files, digest: Digest)
    requires p in files && q in files && "ledger" in files && Text(p) && Text(q)
    requires |files[p]| <= MAX_EVIDENCE && |files[q]| <= MAX_EVIDENCE && |files["ledger"]| <= MAX_LEDGER
    ensures LedgerAdmitted(TrialLedger(FileArtifact("a", p, files, digest), FileArtifact("b", q, files, digest)),
                           "ledger", files, TRIAL, digest)
  {
    var a, b := FileArtifact("a", p, files, digest), FileArtifact("b", q, files, digest);
    var l := TrialLedger(a, b);
    TrialSubject(a, b);
    TwoArtifacts(a, b, files);
    TextBounds("a");
    TextBounds("b");
    TextBounds("k");
    assert |LEDGER_ID| > 1 && LEDGER_ID !in Ids(l.artifacts);
    assert forall x | x in l.artifacts :: x == a || x == b;
    assert ArtifactsAdmitted(l.artifacts, files, digest);
    assert VerdictIds(l.acceptance) == ["done"] && Passed(l.acceptance);
    assert AcceptanceAdmitted(l.acceptance, l.subject, ["done"], Ids(l.artifacts));
  }

  /** Two artifacts of 32 MiB each: at the evidence bound before the ledger itself is counted. */
  function HeavyFiles(): Files {
    map["p" := seq(MAX_EVIDENCE, _ => 0 as byte), "q" := seq(MAX_EVIDENCE, _ => 1 as byte), "ledger" := [0]]
  }

  /** So a ledger can be admitted whose document the validator refuses, however small its JSON is. */
  lemma {:induction false} AdmittedLedgerRefusedDocument(digest: Digest, json: bytes)
    ensures var files := HeavyFiles();
            var l := TrialLedger(FileArtifact("a", "p", files, digest), FileArtifact("b", "q", files, digest));
            && LedgerAdmitted(l, "ledger", files, TRIAL, digest)
            && !DocumentAdmitted(DocumentOf(l, "ledger", files["ledger"], digest), "out",
                                 Written(files, "out", json), TRIAL, digest)
  {
    var files := HeavyFiles();
    var a, b := FileArtifact("a", "p", files, digest), FileArtifact("b", "q", files, digest);
    TextBounds("p");
    TextBounds("q");
    TrialLedgerAdmitted("p", "q", files, digest);
    TwoArtifacts(a, b, files);
    DerivedDocumentLoads(TrialLedger(a, b), "ledger", "out", json, files, TRIAL, digest);
  }

  /** The output is an artifact of its own ledger, of one byte. */
  function OverwrittenFiles(): Files { map["out" := [0], "q" := [1], "ledger" := [2]] }

  /** The document replaces evidence it binds, and cannot load unless it is one byte long too. */
  lemma {:induction false} OutputReplacesItsEvidence(digest: Digest, json: bytes)
    requires |json| != 1
    ensures var files := OverwrittenFiles();
            var l := TrialLedger(FileArtifact("a", "out", files, digest), FileArtifact("b", "q", files, digest));
            && LedgerAdmitted(l, "ledger", files, TRIAL, digest)
            && !DocumentAdmitted(DocumentOf(l, "ledger", files["ledger"], digest), "out",
                                 Written(files, "out", json), TRIAL, digest)
  {
    var files := OverwrittenFiles();
    var a, b := FileArtifact("a", "out", files, digest), FileArtifact("b", "q", files, digest);
    TextBounds("out");
    TextBounds("q");
    TrialLedgerAdmitted("out", "q", files, digest);
    DerivedDocumentLoads(TrialLedger(a, b), "ledger", "out", json, files, TRIAL, digest);
    assert a in TrialLedger(a, b).artifacts;
  }

  // --- The document, metric by metric ---

  function OfKind(events: seq<Event>, k: Kind): seq<Event> {
    if events == [] then []
    else
      var e := events[|events| - 1];
      OfKind(events[..|events| - 1], k) + (if e.kind == k then [e] else [])
  }

  /** The sum of one stated amount. */
  function SumOf(events: seq<Event>, m: Metric): int {
    if events == [] then 0
    else
      var e := events[|events| - 1];
      SumOf(events[..|events| - 1], m) + (if m in e.values then e.values[m] else 0)
  }

  function Cited(events: seq<Event>): seq<string> {
    if events == [] then [] else Cited(events[..|events| - 1]) + events[|events| - 1].evidence
  }

  /** Every metric by its name: what it sums or counts. */
  ghost predicate TotalsNamed(events: seq<Event>, totals: map<Metric, int>) {
    && (forall m: Metric :: m in totals)
    && totals[ModelInputTokens] == SumOf(OfKind(events, ModelUsage), ModelInputTokens)
    && totals[ModelOutputTokens] == SumOf(OfKind(events, ModelUsage), ModelOutputTokens)
    && totals[PresentedContextBytes] == SumOf(OfKind(events, ContextPresentation), PresentedContextBytes)
    && totals[ToolCalls] == |OfKind(events, ToolCall)|
    && totals[ToolRequestBytes] == SumOf(OfKind(events, ToolCall), ToolRequestBytes)
    && totals[ToolResponseBytes] == SumOf(OfKind(events, ToolCall), ToolResponseBytes)
    && totals[FailedAttempts] == |OfKind(events, FailedAttempt)|
    && totals[StaleFailures] == |OfKind(events, StaleFailure)|
    && totals[StaleRecoveryActions] == |OfKind(events, StaleRecoveryAction)|
    && totals[ValidationWallMs] == SumOf(OfKind(events, ValidationInterval), ValidationWallMs)
    && totals[ReviewWallMs] == SumOf(OfKind(events, ReviewInterval), ReviewWallMs)
    && totals[HumanInterventions] == |OfKind(events, HumanIntervention)|
  }

  /** A reading cites the ledger, its stream, and the events of one kind, each reference once. */
  ghost predicate Rests(r: Reading, how: string, ledger: Ledger, stream: Stream, k: Kind) {
    && r.status == "observed" && r.how == how && stream in ledger.streams
    && r.evidence == Unrepeated(["typed-event-ledger"] + ledger.streams[stream] + Cited(OfKind(ledger.events, k)))
  }

  ghost predicate ModelReadings(ledger: Ledger, readings: map<Metric, Reading>)
    requires forall m: Metric :: m in readings
  {
    && Rests(readings[ModelInputTokens], "sum_typed_model_usage_events", ledger, UsageStream, ModelUsage)
    && Rests(readings[ModelOutputTokens], "sum_typed_model_usage_events", ledger, UsageStream, ModelUsage)
    && Rests(readings[PresentedContextBytes], "sum_typed_context_presentation_events", ledger, ContextStream,
             ContextPresentation)
  }

  ghost predicate ToolReadings(ledger: Ledger, readings: map<Metric, Reading>)
    requires forall m: Metric :: m in readings
  {
    && Rests(readings[ToolCalls], "count_typed_tool_call_events", ledger, ToolStream, ToolCall)
    && Rests(readings[ToolRequestBytes], "sum_typed_tool_call_events", ledger, ToolStream, ToolCall)
    && Rests(readings[ToolResponseBytes], "sum_typed_tool_call_events", ledger, ToolStream, ToolCall)
  }

  ghost predicate FailureReadings(ledger: Ledger, readings: map<Metric, Reading>)
    requires forall m: Metric :: m in readings
  {
    && Rests(readings[FailedAttempts], "count_typed_failed_attempt_events", ledger, FailedStream, FailedAttempt)
    && Rests(readings[StaleFailures], "count_typed_stale_failure_events", ledger, StaleStream, StaleFailure)
    && Rests(readings[StaleRecoveryActions], "count_typed_stale_recovery_action_events", ledger, StaleStream,
             StaleRecoveryAction)
  }

  ghost predicate ReviewReadings(ledger: Ledger, readings: map<Metric, Reading>)
    requires forall m: Metric :: m in readings
  {
    && Rests(readings[ValidationWallMs], "sum_typed_validation_interval_events", ledger, ValidationStream,
             ValidationInterval)
    && Rests(readings[ReviewWallMs], "sum_typed_review_interval_events", ledger, ReviewStream, ReviewInterval)
    && Rests(readings[HumanInterventions], "count_typed_human_intervention_events", ledger, HumanStream,
             HumanIntervention)
  }

  ghost predicate ReadingsNamed(ledger: Ledger, readings: map<Metric, Reading>) {
    && (forall m: Metric :: m in readings)
    && TotalsNamed(ledger.events, map m | m in readings :: readings[m].value)
    && ModelReadings(ledger, readings) && ToolReadings(ledger, readings)
    && FailureReadings(ledger, readings) && ReviewReadings(ledger, readings)
  }

  /** What a document has to say about its ledger. */
  ghost predicate Describes(d: Document, ledger: Ledger, name: string, body: bytes, digest: Digest) {
    && d.schema == "semaprax.agent-task-comparison-observation.v1" && d.subject == ledger.subject
    && |d.artifacts| == |ledger.artifacts| + 1 && d.artifacts[..|ledger.artifacts|] == ledger.artifacts
    && d.artifacts[|ledger.artifacts|]
       == Artifact("typed-event-ledger", name, |body|, digest(body), "typed_event_ledger")
    && ReadingsNamed(ledger, d.metrics)
    && |d.acceptance| == |ledger.acceptance|
    && (forall i | 0 <= i < |d.acceptance| ::
          && d.acceptance[i].id == ledger.acceptance[i].id && d.acceptance[i].outcome == ledger.acceptance[i].outcome
          && d.acceptance[i].evidence == ["typed-event-ledger"] + ledger.acceptance[i].evidence)
  }

  /** Only events of this kind state the metric, and none is counted by it. */
  ghost predicate Sums(m: Metric, k: Kind) {
    forall other :: (m in Shape(other) <==> other == k) && CountedBy(other) != Some(m)
  }

  ghost predicate Counts(m: Metric, k: Kind) {
    forall other :: m !in Shape(other) && (CountedBy(other) == Some(m) <==> other == k)
  }

  lemma {:induction false} MetricsSum()
    ensures Sums(ModelInputTokens, ModelUsage) && Sums(ModelOutputTokens, ModelUsage)
    ensures Sums(PresentedContextBytes, ContextPresentation)
    ensures Sums(ToolRequestBytes, ToolCall) && Sums(ToolResponseBytes, ToolCall)
    ensures Sums(ValidationWallMs, ValidationInterval) && Sums(ReviewWallMs, ReviewInterval)
  {}

  lemma {:induction false} MetricsCount()
    ensures Counts(ToolCalls, ToolCall) && Counts(FailedAttempts, FailedAttempt) && Counts(StaleFailures, StaleFailure)
    ensures Counts(StaleRecoveryActions, StaleRecoveryAction) && Counts(HumanInterventions, HumanIntervention)
  {}

  lemma {:induction false} SumStep(e: Event, k: Kind, m: Metric)
    requires Sums(m, k)
    ensures Amount(e, m) == if e.kind == k && m in e.values then e.values[m] else 0
    ensures Contributes(e, m) <==> e.kind == k
  {
    assert m in Shape(e.kind) <==> e.kind == k;
    hide Shape, CountedBy;
  }

  lemma {:induction false} CountStep(e: Event, k: Kind, m: Metric)
    requires Counts(m, k)
    ensures Amount(e, m) == if e.kind == k then 1 else 0
    ensures Contributes(e, m) <==> e.kind == k
  {
    assert m !in Shape(e.kind) && (CountedBy(e.kind) == Some(m) <==> e.kind == k);
    hide Shape, CountedBy;
  }

  lemma {:induction false} OneMoreOfKind(events: seq<Event>, e: Event, m: Metric)
    ensures SumOf(events + [e], m) == SumOf(events, m) + if m in e.values then e.values[m] else 0
    ensures Cited(events + [e]) == Cited(events) + e.evidence
  {
    assert (events + [e])[..|events|] == events;
  }

  lemma {:induction false} NothingOfKind(k: Kind, m: Metric)
    ensures OfKind([], k) == [] && SumOf([], m) == 0 && Cited([]) == [] && Total([], m) == 0 && Behind([], m) == []
  {}

  lemma {:induction false} OneMoreSeen(events: seq<Event>, k: Kind, m: Metric)
    requires events != []
    ensures var front, e := events[..|events| - 1], events[|events| - 1];
            && OfKind(events, k) == (if e.kind == k then OfKind(front, k) + [e] else OfKind(front, k))
            && Total(events, m) == Total(front, m) + Amount(e, m)
            && Behind(events, m) == (if Contributes(e, m) then Behind(front, m) + e.evidence else Behind(front, m))
  {
    hide Amount, Contributes;
    var front := events[..|events| - 1];
    assert OfKind(front, k) + [] == OfKind(front, k) && Behind(front, m) + [] == Behind(front, m);
  }

  lemma {:induction false} TotalIsSum(events: seq<Event>, k: Kind, m: Metric)
    requires Sums(m, k)
    ensures Total(events, m) == SumOf(OfKind(events, k), m) && Behind(events, m) == Cited(OfKind(events, k))
  {
    hide Amount, Contributes, Sums, SumOf, Cited, Total, Behind, OfKind;
    if events == [] {
      NothingOfKind(k, m);
    } else {
      var front, e := events[..|events| - 1], events[|events| - 1];
      TotalIsSum(front, k, m);
      SumStep(e, k, m);
      OneMoreSeen(events, k, m);
      OneMoreOfKind(OfKind(front, k), e, m);
    }
  }

  lemma {:induction false} TotalIsCount(events: seq<Event>, k: Kind, m: Metric)
    requires Counts(m, k)
    ensures Total(events, m) == |OfKind(events, k)| && Behind(events, m) == Cited(OfKind(events, k))
  {
    hide Amount, Contributes, Counts, SumOf, Cited, Total, Behind, OfKind;
    if events == [] {
      NothingOfKind(k, m);
    } else {
      var front, e := events[..|events| - 1], events[|events| - 1];
      TotalIsCount(front, k, m);
      CountStep(e, k, m);
      OneMoreSeen(events, k, m);
      OneMoreOfKind(OfKind(front, k), e, m);
    }
  }

  lemma {:induction false} TotalsAreNamed(events: seq<Event>, totals: map<Metric, int>)
    requires forall m :: m in totals && totals[m] == Total(events, m)
    ensures TotalsNamed(events, totals)
  {
    hide Total, SumOf, OfKind, Sums, Counts, Behind, Cited;
    MetricsSum();
    MetricsCount();
    TotalIsSum(events, ModelUsage, ModelInputTokens);
    TotalIsSum(events, ModelUsage, ModelOutputTokens);
    TotalIsSum(events, ContextPresentation, PresentedContextBytes);
    TotalIsCount(events, ToolCall, ToolCalls);
    TotalIsSum(events, ToolCall, ToolRequestBytes);
    TotalIsSum(events, ToolCall, ToolResponseBytes);
    TotalIsCount(events, FailedAttempt, FailedAttempts);
    TotalIsCount(events, StaleFailure, StaleFailures);
    TotalIsCount(events, StaleRecoveryAction, StaleRecoveryActions);
    TotalIsSum(events, ValidationInterval, ValidationWallMs);
    TotalIsSum(events, ReviewInterval, ReviewWallMs);
    TotalIsCount(events, HumanIntervention, HumanInterventions);
  }

  lemma {:induction false} SumRests(ledger: Ledger, k: Kind, m: Metric)
    requires ledger.streams.Keys == STREAMS
    requires Sums(m, k)
    ensures m in Readings(ledger) && Rests(Readings(ledger)[m], Method(m), ledger, StreamOf(m), k)
  {
    AllMetrics(m);
    TotalIsSum(ledger.events, k, m);
    hide Sums, Counts, Method, OfKind, Cited, Behind, Total, Unrepeated;
  }

  lemma {:induction false} CountRests(ledger: Ledger, k: Kind, m: Metric)
    requires ledger.streams.Keys == STREAMS
    requires Counts(m, k)
    ensures m in Readings(ledger) && Rests(Readings(ledger)[m], Method(m), ledger, StreamOf(m), k)
  {
    AllMetrics(m);
    TotalIsCount(ledger.events, k, m);
    hide Sums, Counts, Method, OfKind, Cited, Behind, Total, Unrepeated;
  }

  lemma {:induction false} AllRead(ledger: Ledger)
    ensures forall m: Metric :: m in Readings(ledger) && Readings(ledger)[m].value == Total(ledger.events, m)
  {
    forall m: Metric ensures m in Readings(ledger) && Readings(ledger)[m].value == Total(ledger.events, m) {
      AllMetrics(m);
    }
  }

  lemma {:induction false} ModelIsRead(ledger: Ledger)
    requires ledger.streams.Keys == STREAMS && forall m: Metric :: m in Readings(ledger)
    ensures ModelReadings(ledger, Readings(ledger))
  {
    hide Rests, Readings, Sums;
    MetricsSum();
    SumRests(ledger, ModelUsage, ModelInputTokens);
    SumRests(ledger, ModelUsage, ModelOutputTokens);
    SumRests(ledger, ContextPresentation, PresentedContextBytes);
  }

  lemma {:induction false} ToolsAreRead(ledger: Ledger)
    requires ledger.streams.Keys == STREAMS && forall m: Metric :: m in Readings(ledger)
    ensures ToolReadings(ledger, Readings(ledger))
  {
    hide Rests, Readings, Sums, Counts;
    MetricsSum();
    MetricsCount();
    CountRests(ledger, ToolCall, ToolCalls);
    SumRests(ledger, ToolCall, ToolRequestBytes);
    SumRests(ledger, ToolCall, ToolResponseBytes);
  }

  lemma {:induction false} FailuresAreRead(ledger: Ledger)
    requires ledger.streams.Keys == STREAMS && forall m: Metric :: m in Readings(ledger)
    ensures FailureReadings(ledger, Readings(ledger))
  {
    hide Rests, Readings, Counts;
    MetricsCount();
    CountRests(ledger, FailedAttempt, FailedAttempts);
    CountRests(ledger, StaleFailure, StaleFailures);
    CountRests(ledger, StaleRecoveryAction, StaleRecoveryActions);
  }

  lemma {:induction false} ReviewIsRead(ledger: Ledger)
    requires ledger.streams.Keys == STREAMS && forall m: Metric :: m in Readings(ledger)
    ensures ReviewReadings(ledger, Readings(ledger))
  {
    hide Rests, Readings, Sums, Counts;
    MetricsSum();
    MetricsCount();
    SumRests(ledger, ValidationInterval, ValidationWallMs);
    SumRests(ledger, ReviewInterval, ReviewWallMs);
    CountRests(ledger, HumanIntervention, HumanInterventions);
  }

  lemma {:induction false} ReadingsAreNamed(ledger: Ledger)
    requires ledger.streams.Keys == STREAMS
    ensures ReadingsNamed(ledger, Readings(ledger))
  {
    AllRead(ledger);
    hide Readings, TotalsNamed, Total, ModelReadings, ToolReadings, FailureReadings, ReviewReadings;
    TotalsAreNamed(ledger.events, map m | m in Readings(ledger) :: Readings(ledger)[m].value);
    ModelIsRead(ledger);
    ToolsAreRead(ledger);
    FailuresAreRead(ledger);
    ReviewIsRead(ledger);
  }

  /** The document of a ledger, in terms of the ledger alone. */
  lemma {:induction false} DocumentDescribes(ledger: Ledger, name: string, body: bytes, digest: Digest)
    requires ledger.streams.Keys == STREAMS
    ensures Describes(DocumentOf(ledger, name, body, digest), ledger, name, body, digest)
  {
    hide ReadingsNamed, Readings;
    ReadingsAreNamed(ledger);
    assert DocumentOf(ledger, name, body, digest).artifacts[..|ledger.artifacts|] == ledger.artifacts;
  }

  // --- The two programs ---

  lemma {:induction false} EvidenceGrows(artifacts: seq<Artifact>, i: nat, files: Files)
    requires i <= |artifacts|
    ensures EvidenceBytes(artifacts[..i], files) <= EvidenceBytes(artifacts, files)
    decreases |artifacts|
  {
    if i == |artifacts| {
      assert artifacts[..i] == artifacts;
    } else {
      EvidenceGrows(artifacts[..|artifacts| - 1], i, files);
      assert artifacts[..|artifacts| - 1][..i] == artifacts[..i];
    }
  }

  lemma {:induction false} NoEvidence(files: Files)
    ensures EvidenceBytes([], files) == 0
  {}

  lemma {:induction false} OneMoreArtifact(artifacts: seq<Artifact>, i: nat, files: Files)
    requires i < |artifacts|
    ensures Ids(artifacts[..i + 1]) == Ids(artifacts[..i]) + {artifacts[i].id}
    ensures EvidenceBytes(artifacts[..i + 1], files) == EvidenceBytes(artifacts[..i], files) + Size(artifacts[i], files)
  {
    assert artifacts[..i + 1] == artifacts[..i] + [artifacts[i]] && artifacts[..i + 1][..i] == artifacts[..i];
  }

  lemma {:induction false} RepeatedId(artifacts: seq<Artifact>, i: nat)
    requires i < |artifacts| && artifacts[i].id in Ids(artifacts[..i])
    ensures exists j, k | 0 <= j < k < |artifacts| :: artifacts[j].id == artifacts[k].id
  {
    var b :| b in artifacts[..i] && b.id == artifacts[i].id;
    var k :| 0 <= k < i && artifacts[k] == b;
    assert artifacts[k].id == artifacts[i].id;
  }

  /** The artifact loop of both programs: identities, a running byte total and the bindings. */
  method Authenticate(artifacts: seq<Artifact>, files: Files, digest: Digest) returns (r: Result<set<string>, Refusal>)
    ensures r.Ok? <==> ArtifactsAdmitted(artifacts, files, digest)
    ensures r.Ok? ==> r.value == Ids(artifacts)
  {
    hide EvidenceBytes;
    var known: set<string> := {};
    var total := 0;
    assert artifacts[..0] == [];
    NoEvidence(files);
    for i := 0 to |artifacts|
      invariant known == Ids(artifacts[..i])
      invariant total == EvidenceBytes(artifacts[..i], files) && total <= MAX_EVIDENCE_TOTAL
      invariant forall k | 0 <= k < i :: Bound(artifacts[k], files, digest)
      invariant forall j, k | 0 <= j < k < i :: artifacts[j].id != artifacts[k].id
    {
      var a := artifacts[i];
      OneMoreArtifact(artifacts, i, files);
      if !Text(a.id) || a.id in known {
        if a.id in known { RepeatedId(artifacts, i); }
        return Err(ArtifactIdentity);
      }
      if a.path !in files { return Err(MissingFile); }
      if |files[a.path]| > MAX_EVIDENCE { return Err(FileTooLarge); }
      total := total + |files[a.path]|;
      if total > MAX_EVIDENCE_TOTAL {
        EvidenceGrows(artifacts, i + 1, files);
        return Err(EvidenceTooLarge);
      }
      if !Bound(a, files, digest) { return Err(ArtifactBinding); }
      known := known + {a.id};
    }
    assert artifacts[..|artifacts|] == artifacts;
    return Ok(known);
  }

  /** The acceptance rows: the expected ones, each with an outcome and evidence that is known. */
  method CheckAcceptance(rows: seq<Verdict>, subject: Subject, criteria: seq<string>, known: set<string>)
    returns (r: Result<bool, Refusal>)
    ensures r.Ok? <==> AcceptanceAdmitted(rows, subject, criteria, known)
    ensures r.Ok? ==> r.value == Passed(rows)
  {
    if VerdictIds(rows) != criteria { return Err(AcceptanceInventory); }
    var passed := true;
    for i := 0 to |rows|
      invariant forall k | 0 <= k < i :: VerdictAdmitted(rows[k], known)
      invariant passed <==> Passed(rows[..i])
    {
      if !VerdictAdmitted(rows[i], known) { return Err(AcceptanceOutcome); }
      assert rows[..i + 1] == rows[..i] + [rows[i]];
      passed := passed && rows[i].outcome == "passed";
    }
    assert rows[..|rows|] == rows;
    if (subject.outcome == "completed") != passed { return Err(OutcomeDisagrees); }
    return Ok(passed);
  }

  lemma {:induction false} StreamsCovered(s: Stream)
    requires s in STREAMS
    ensures exists m :: StreamOf(m) == s
  {
    assert StreamOf(ModelInputTokens) == UsageStream && StreamOf(PresentedContextBytes) == ContextStream;
    assert StreamOf(ToolCalls) == ToolStream && StreamOf(FailedAttempts) == FailedStream;
    assert StreamOf(StaleFailures) == StaleStream && StreamOf(ValidationWallMs) == ValidationStream;
    assert StreamOf(ReviewWallMs) == ReviewStream && StreamOf(HumanInterventions) == HumanStream;
  }

  /** The evidence each metric starts with: the ledger and its stream's. */
  method StreamEvidence(ledger: Ledger, known: set<string>) returns (r: Result<map<Metric, seq<string>>, Refusal>)
    requires ledger.streams.Keys == STREAMS
    ensures r.Ok? <==> forall s | s in ledger.streams :: Refers(ledger.streams[s], known)
    ensures r.Ok? ==> forall m :: m in r.value && r.value[m] == [LEDGER_ID] + Streamed(ledger, m)
  {
    var evidence: map<Metric, seq<string>> := map[];
    for i := 0 to |METRICS|
      invariant forall k | 0 <= k < i :: Refers(ledger.streams[StreamOf(METRICS[k])], known)
      invariant forall k | 0 <= k < i ::
                  METRICS[k] in evidence && evidence[METRICS[k]] == [LEDGER_ID] + Streamed(ledger, METRICS[k])
    {
      var m := METRICS[i];
      var selected := ledger.streams[StreamOf(m)];
      if !Refers(selected, known) { return Err(MissingEvidence); }
      evidence := evidence[m := [LEDGER_ID] + selected];
    }
    forall m ensures m in evidence && evidence[m] == [LEDGER_ID] + Streamed(ledger, m)
      && Refers(ledger.streams[StreamOf(m)], known)
    {
      AllMetrics(m);
    }
    forall s | s in ledger.streams ensures Refers(ledger.streams[s], known) {
      StreamsCovered(s);
      var m :| StreamOf(m) == s;
    }
    return Ok(evidence);
  }

  /** Totals and evidence after the first i events. */
  ghost predicate Folded(events: seq<Event>, i: nat, totals: map<Metric, int>, evidence: map<Metric, seq<string>>,
                         start: map<Metric, seq<string>>)
    requires i <= |events| && forall m :: m in start
  {
    && (forall m :: m in totals && totals[m] == Total(events[..i], m))
    && (forall m :: m in evidence && evidence[m] == start[m] + Behind(events[..i], m))
  }

  /** What one event adds to every metric. */
  method FoldEvent(events: seq<Event>, i: nat, totals: map<Metric, int>, evidence: map<Metric, seq<string>>,
                   ghost start: map<Metric, seq<string>>)
    returns (totals': map<Metric, int>, evidence': map<Metric, seq<string>>)
    requires i < |events| && (forall m :: m in start) && Folded(events, i, totals, evidence, start)
    ensures Folded(events, i + 1, totals', evidence', start)
  {
    hide Amount, Contributes, Total, Behind;
    var e := events[i];
    totals' := map m | m in METRICS :: totals[m] + Amount(e, m);
    evidence' := map m | m in METRICS :: evidence[m] + (if Contributes(e, m) then e.evidence else []);
    forall m: Metric
      ensures m in totals' && totals'[m] == Total(events[..i + 1], m)
      ensures m in evidence' && evidence'[m] == start[m] + Behind(events[..i + 1], m)
    {
      AllMetrics(m);
      OneMoreEvent(events, i, m, start[m]);
    }
  }

  lemma {:induction false} OneMoreEvent(events: seq<Event>, i: nat, m: Metric, start: seq<string>)
    requires i < |events|
    ensures Total(events[..i + 1], m) == Total(events[..i], m) + Amount(events[i], m)
    ensures start + Behind(events[..i + 1], m)
         == start + Behind(events[..i], m) + if Contributes(events[i], m) then events[i].evidence else []
  {
    assert events[..i + 1][..i] == events[..i];
    Concatenated(start, Behind(events[..i], m), if Contributes(events[i], m) then events[i].evidence else []);
  }

  /** The ledger fold: totals and evidence for every metric, event by event. */
  method Fold(ledger: Ledger, known: set<string>, start: map<Metric, seq<string>>)
    returns (r: Result<(map<Metric, int>, map<Metric, seq<string>>), Refusal>)
    requires forall m :: m in start && start[m] == [LEDGER_ID] + Streamed(ledger, m)
    ensures r.Ok? <==> forall i | 0 <= i < |ledger.events| :: EventAdmitted(ledger.events[i], known)
    ensures r.Ok? ==> TotalsNamed(ledger.events, r.value.0)
    ensures r.Ok? ==> forall m :: m in r.value.0 && r.value.0[m] == Total(ledger.events, m)
    ensures r.Ok? ==> forall m :: m in r.value.1 && r.value.1[m] == start[m] + Behind(ledger.events, m)
  {
    hide TotalsNamed;
    var events := ledger.events;
    var totals: map<Metric, int> := map m | m in METRICS :: 0;
    forall m ensures m in totals { AllMetrics(m); }
    var evidence := start;
    assert Folded(events, 0, totals, evidence, start);
    for i := 0 to |events|
      invariant forall k | 0 <= k < i :: EventAdmitted(events[k], known)
      invariant Folded(events, i, totals, evidence, start)
    {
      var e := events[i];
      if !EventAdmitted(e, known) {
        return Err(if e.kind.OtherKind? then UnknownKind
                   else if !Refers(e.evidence, known) then MissingEvidence else EventValues);
      }
      totals, evidence := FoldEvent(events, i, totals, evidence, start);
    }
    assert events[..|events|] == events;
    TotalsAreNamed(events, totals);
    return Ok((totals, evidence));
  }

  /** The readings of all metrics, from the streams and the events. */
  method MakeReadings(ledger: Ledger, known: set<string>) returns (r: Result<map<Metric, Reading>, Refusal>)
    requires ledger.streams.Keys == STREAMS
    ensures r.Ok? <==>
              && (forall s | s in ledger.streams :: Refers(ledger.streams[s], known))
              && |ledger.events| <= MAX_LEDGER_EVENTS
              && (forall i | 0 <= i < |ledger.events| :: EventAdmitted(ledger.events[i], known))
    ensures r.Ok? ==> r.value == Readings(ledger)
  {
    hide TotalsNamed;
    var streamed := StreamEvidence(ledger, known);
    if streamed.Err? { return Err(streamed.error); }
    if |ledger.events| > MAX_LEDGER_EVENTS { return Err(TooManyEvents); }
    var folded := Fold(ledger, known, streamed.value);
    if folded.Err? { return Err(folded.error); }
    var (totals, evidence) := folded.value;
    var metrics := map m | m in METRICS :: Reading("observed", totals[m], Method(m), Unrepeated(evidence[m]));
    assert metrics == Readings(ledger);
    return Ok(metrics);
  }

  /** `make_observation`: derives the document of exactly the admitted ledgers. */
  method MakeObservation(ledger: Ledger, name: string, destination: string, files: Files, c: Context, digest: Digest)
    returns (r: Result<Document, Refusal>)
    ensures r.Ok? <==> destination != name && LedgerAdmitted(ledger, name, files, c, digest)
    ensures r.Ok? ==> r.value == DocumentOf(ledger, name, files[name], digest)
    ensures r.Ok? ==> Describes(r.value, ledger, name, files[name], digest)
  {
    hide Describes;
    if destination == name { return Err(NotDistinct); }
    if name !in files { return Err(MissingFile); }
    if |files[name]| > MAX_LEDGER { return Err(FileTooLarge); }
    if ledger.schema != LEDGER_SCHEMA { return Err(WrongSchema); }
    if !SubjectAdmitted(ledger.subject, c) { return Err(SubjectRefusal(ledger.subject, c)); }
    if !(1 <= |ledger.artifacts| < MAX_ARTIFACTS) { return Err(ArtifactCount); }
    if exists a | a in ledger.artifacts :: !Text(a.path) { return Err(BadText); }
    var authenticated := Authenticate(ledger.artifacts, files, digest);
    if authenticated.Err? { return Err(authenticated.error); }
    var known := authenticated.value;
    if LEDGER_ID in known { return Err(ArtifactIdentity); }
    if ledger.streams.Keys != STREAMS { return Err(StreamInventory); }
    var metrics := MakeReadings(ledger, known);
    if metrics.Err? { return Err(metrics.error); }
    var accepted := CheckAcceptance(ledger.acceptance, ledger.subject, c.criteria[ledger.subject.task], known);
    if accepted.Err? { return Err(accepted.error); }
    DocumentDescribes(ledger, name, files[name], digest);
    return Ok(Document(OBSERVATION_SCHEMA, ledger.subject,
                       ledger.artifacts + [LedgerArtifact(name, files[name], digest)],
                       metrics.value, Derived(ledger.acceptance)));
  }

  /** `load_observation`: validates a document, and returns its metric values and verdict. */
  method LoadObservation(d: Document, path: string, files: Files, c: Context, digest: Digest)
    returns (r: Result<(map<Metric, int>, bool), Refusal>)
    ensures r.Ok? <==> DocumentAdmitted(d, path, files, c, digest)
    ensures r.Ok? ==> r.value.1 == Passed(d.acceptance)
    ensures r.Ok? ==> forall m :: m in r.value.0 && m in d.metrics && r.value.0[m] == d.metrics[m].value
  {
    if path !in files { return Err(MissingFile); }
    if |files[path]| > MAX_JSON { return Err(FileTooLarge); }
    if d.schema != OBSERVATION_SCHEMA { return Err(WrongSchema); }
    if !SubjectAdmitted(d.subject, c) { return Err(SubjectRefusal(d.subject, c)); }
    if !(1 <= |d.artifacts| <= MAX_ARTIFACTS) { return Err(ArtifactCount); }
    var authenticated := Authenticate(d.artifacts, files, digest);
    if authenticated.Err? { return Err(authenticated.error); }
    var known := authenticated.value;
    forall m { AllMetrics(m); }
    if exists m | m in METRICS :: m !in d.metrics { return Err(MetricInventory); }
    var totals: map<Metric, int> := map[];
    for i := 0 to |METRICS|
      invariant forall k | 0 <= k < i :: ReadingAdmitted(d.metrics[METRICS[k]], known)
      invariant forall k | 0 <= k < i :: METRICS[k] in totals && totals[METRICS[k]] == d.metrics[METRICS[k]].value
    {
      if !ReadingAdmitted(d.metrics[METRICS[i]], known) { return Err(MetricStatus); }
      totals := totals[METRICS[i] := d.metrics[METRICS[i]].value];
    }
    forall m ensures ReadingAdmitted(d.metrics[m], known) && m in totals && totals[m] == d.metrics[m].value {
      AllMetrics(m);
    }
    var accepted := CheckAcceptance(d.acceptance, d.subject, c.criteria[d.subject.task], known);
    if accepted.Err? { return Err(accepted.error); }
    return Ok((totals, accepted.value));
  }

  /** Deriving and then loading, as one run of the two programs. */
  method DeriveAndLoad(ledger: Ledger, name: string, path: string, files: Files, c: Context, digest: Digest,
                       render: Document -> bytes)
    returns (r: Result<(map<Metric, int>, bool), Refusal>)
    ensures r.Ok? <==>
              && path != name && LedgerAdmitted(ledger, name, files, c, digest)
              && Loadable(ledger, name, path, render(DocumentOf(ledger, name, files[name], digest)), files, digest)
    ensures r.Ok? ==> TotalsNamed(ledger.events, r.value.0)
    ensures r.Ok? ==> (r.value.1 <==> ledger.subject.outcome == "completed")
  {
    var made := MakeObservation(ledger, name, path, files, c, digest);
    if made.Err? { return Err(made.error); }
    var json := render(made.value);
    DerivedDocumentLoads(ledger, name, path, json, files, c, digest);
    hide TotalsNamed, Describes;
    r := LoadObservation(made.value, path, Written(files, path, json), c, digest);
    if r.Ok? { TotalsAreNamed(ledger.events, r.value.0); }
  }
}
