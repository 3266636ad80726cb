# Settlement, evidence and trial tooling of Semaprax

The Semaprax repository carries, next to its compiler, a set of programs that decide whether
evidence about the compiler may be believed: fixture generators, receipt parsers, bundle packers,
transcript validators, a diagnostic scanner in the build script, and the accounting, scheduling and
command gateway of its agent trials. This project models the decisions those programs make and
proves what they are for.

- **Wasm fixture** (`Leb128`, `WasmModule`, `WasmMachine`, `WasmEndpoint`). LEB128 (section 5.2.2 of
  the WebAssembly Core Specification 1.0), the section parser and emitter (section 5.5.2), and a small
  machine for the instructions of the endpoint (sections 4.4 and 5.4): wrapping `i32`, signed `ge_s`,
  structured branches, byte memory, `memory.grow`. The endpoint is decoded from its literal bytes and
  proved to reverse its range in place.
- **Settlement** (`Settlement`, `Carriers`). The event machine behind the corpus expectations: injected
  faults, legacy failures, export mutations, a sticky primary failure, a forced release. `Settlement.Call`
  updates its fields as the original does; `Outcome` is the specification it is proved against.
- **Printers and parsers** (`Carriers`, `PhaseReceipts`, `Text`, `Envelope`, `DoctorBundle`, `Elf`,
  `Transcripts`). Where the repository has one half of such a pair, the other half is a specification
  function here, and the two are proved inverse.
- **Scanner** (`DiagnosticTokens`). The skipping scan of the build script is complete.
- **Trials** (`Observation`, `Report`, `Matrix`, `Schedule`, `Gateway`, `Base64`). The ledger fold against its
  independent validator, totals against paired differences, the counterbalanced schedule, and the
  recorded gateway with its one injected drift and the reading of its log (`GatewayLog`). `Gateway.Wrapper` changes candidate, drift file and
  log in place; the functions above it say what each command does.

Digests, UTF-8 validity, base path resolution, JSON rendering and what a compiler process does are
parameters: every theorem holds for all of them, or names what it assumes. `Gateway.Ordinary` and
`Gateway.Bounded` are the assumptions of the log budget: 64-character digests, UTF-8 that
encodes character by character with at most four bytes for each, short texts, and reads of at most
64 KiB, which is what the read loop asks for.

## Findings

Properties that hold only under a condition; the condition is proved exact, or a concrete input is given.

- The component pattern of the bundle's path check ends in `$`, which also matches before a final line
  feed. A path that passes stays within the intended alphabet if and only if it has no line feed
  (`DoctorBundle.AlphabetExactlyWhen`, `DoctorBundle.LineFeedAdmitted`).
- `make_observation` leaves the ledger's own bytes out of its evidence total, does not bound the JSON
  it writes, and does not ask whether writing it touches the evidence: the output replaces the file of
  its name, and its temporary file one more. The document passes `load_observation` if and only if
  both bounds hold and every artifact's file, and the ledger, survive the write as they were bound
  (`Observation.DerivedDocumentLoads`). Two ledgers whose document does not load are given
  (`Observation.AdmittedLedgerRefusedDocument`, `Observation.OutputReplacesItsEvidence`).
- The endpoint compares its cursors as signed integers. A range that leaves memory does not always trap:
  a call traps if and only if the first cursor is below the second, as signed integers, and one of them
  is outside memory (`WasmEndpoint.TrapsExactlyWhen`). A range of 2^31 + 1 bytes over one page returns
  without a trap and reverses nothing (`WasmEndpoint.OversizedRangeReturnsSilently`).
- The padding of `module-exact-max` lands on 16 MiB if and only if it is at least 2^21 bytes long
  (`WasmModule.PaddingIsExact`); that of the one module the source pads is
  (`WasmModule.FixturePaddingIsExact`).
- `read_leb` accepts padded encodings that `leb` never writes. What it accepts is canonical if and only
  if it is one byte or its last byte is not zero (`Leb128.CanonicalExactlyWhen`,
  `Leb128.PaddedEncodingAccepted`). The fixture calls it only on bytes that `leb` has written, so the
  padded input does not arise there.
- A loader that a bundled image needs has to be carried and must not need a loader itself, but it need
  not be an ELF image: the inventory of an image and a text file is admitted
  (`DoctorBundle.TextLoaderAdmitted`). A carried loader is an admitted image without a loader if and only
  if its content starts as an ELF image does (`DoctorBundle.LoaderIsStaticExactlyWhen`).
- The gateway calls a body it cannot decode "not canonical base64", but its decoder accepts more than
  encodings. What it accepts is canonical if and only if the spare bits of a padded last group are zero
  (`Base64.CanonicalExactlyWhen`, `Base64.SpareBitsAccepted`).
- An invocation acts before its log lines are checked against the cap, and fails for want of log space
  if and only if the lines it owes do not fit (`Gateway.RecordLostExactlyWhen`). What the transport
  delivers, at most 1 MiB of arguments, always fits what was reserved, in every run
  (`Gateway.DeliveredRecordsFit`, `Gateway.DeliveredRunsFit`). A direct call of the wrapper program has no
  such bound: a quiet compiler command loses its record if and only if the base64 of its arguments does
  not fit (`Gateway.QuietCommandLosesItsRecordExactlyWhen`), and behind 21 delivered commands a direct
  call with twenty-five long paths does (`Gateway.LongPathsLoseTheRecord`).
- A delivered command that is dispatched is in the log, whatever it did and however it ended, if and only
  if it is not a compiler that closes both streams in time and then outlives the deadline
  (`Gateway.DeliveredIsRecordedExactlyWhen`). The transport has a limit of 60 seconds of its own, which
  starts earlier; a gateway that it kills is not part of this model.

## Model

| member | source | states |
|---|---|---|
| Leb128.Leb | scripts/public_generic_typescript_fixture.py:22-31 | values below 2^32 are encoded, all others refused; the loop writes the seven-bit groups of the specification function |
| Leb128.ReadLeb | scripts/public_generic_typescript_fixture.py:135-144 | the shift-and-or loop returns the value and end position of the recursive reading, or fails exactly when the bytes run out |
| Leb128.DecodeInvertsEncode | scripts/public_generic_typescript_fixture.py:22-31 | decoding an encoding at any offset, whatever follows, gives the value and the position behind it |
| Leb128.EncodedLength | scripts/public_generic_typescript_fixture.py:26-31 | an encoding has at most n bytes if and only if the value is below 2^(7n) |
| Leb128.EncodeDigit | scripts/public_generic_typescript_fixture.py:26-31 | byte i of an encoding holds bits 7i to 7i+6 of the value, and its high bit says whether it is the last |
| Leb128.CanonicalExactlyWhen | scripts/public_generic_typescript_fixture.py:135-144 | accepted bytes are the encoding of the value they read as if and only if they are a single byte or do not end in a zero byte |
| Leb128.PaddedEncodingAccepted | scripts/public_generic_typescript_fixture.py:135-144 | a two-byte encoding of five, which `leb` never writes, reads as five |
| WasmModule.ParseSections | scripts/public_generic_typescript_fixture.py:145-150 | the section loop returns the last content of each tag in the file, or fails exactly when a length is cut off |
| WasmModule.ParseInvertsEmit | scripts/public_generic_typescript_fixture.py:145-152 | parsing an emitted section map gives back that map, for every map |
| WasmModule.FixtureIsCanonical | scripts/public_generic_typescript_fixture.py:34-53 | parsing and re-emitting the fixture is the identity, for every page bound; other bounds than 1..257 are refused |
| WasmModule.FixtureDeclares | scripts/public_generic_typescript_fixture.py:48-51 | the parsed fixture has the magic, one type of two i32 and no result, one function, and one memory of one page whose maximum reads as the given bound |
| WasmModule.ExportsAre | scripts/public_generic_typescript_fixture.py:52-52 | the export section names the memory and the endpoint, written out |
| WasmModule.ReplaceChangesOneSection | scripts/public_generic_typescript_fixture.py:156-157 | a replaced variant parses to the fixture's sections with that one changed |
| WasmModule.BodyOfCodeSection | scripts/public_generic_typescript_fixture.py:177-178 | the body cut out of a code section is the body that was put in |
| WasmModule.PaddingIsExact | scripts/public_generic_typescript_fixture.py:182-185 | the padded module has exactly 16777216 bytes if and only if the payload is at least 2^21 bytes |
| WasmModule.FixturePaddingIsExact | scripts/public_generic_typescript_fixture.py:182-185 | the one module that is padded, the fixture with 257 pages, lands on exactly 16777216 bytes |
| WasmModule.PaddingKeepsSections | scripts/public_generic_typescript_fixture.py:182-184 | the padding adds one custom section and every other section is read back unchanged |
| WasmMachine.FuelMonotone | scripts/public_generic_typescript_fixture.py:42-46 | a run that finishes within some number of loop passes gives the same result with more |
| WasmEndpoint.DecodePlainBody | scripts/public_generic_typescript_fixture.py:42-47 | the literal bytes decode to a function with three locals and the reversal code |
| WasmEndpoint.EndpointReverses | scripts/public_generic_typescript_fixture.py:42-47 | for every memory below 2^31 bytes and every range inside it the code ends after exactly len/2 passes, reverses that range and changes no other byte |
| WasmEndpoint.EveryCall | scripts/public_generic_typescript_fixture.py:42-47 | every call on a memory below 2^31 bytes, whatever its range, returns with memory unchanged, traps, or reverses the range, and which of the three is decided by the two starting cursors |
| WasmEndpoint.TrapsExactlyWhen | scripts/public_generic_typescript_fixture.py:42-47 | a call traps if and only if the cursors have not met, compared as signed integers, and one of them is outside memory |
| WasmEndpoint.OutsideRangesTrap | scripts/public_generic_typescript_fixture.py:42-47 | a range of two bytes or more that leaves memory traps if and only if its start is below its end as signed integers |
| WasmEndpoint.OversizedRangeReturnsSilently | scripts/public_generic_typescript_fixture.py:42-47 | a range of 2^31 + 1 bytes over one page returns without a trap and with memory unchanged |
| WasmEndpoint.GrowFirst | scripts/public_generic_typescript_fixture.py:179-181 | growing by zero pages first changes nothing, whether the host grants it or not |
| WasmEndpoint.FixtureReverses | scripts/public_generic_typescript_fixture.py:34-53 | parsing the emitted module, decoding its code section and calling it reverses the range |
| WasmEndpoint.GrowingFixtureReverses | scripts/public_generic_typescript_fixture.py:177-181 | the endpoint-grow variant computes the same memory |
| Carriers.UnframedInvertsFramed | scripts/public_generic_settlement_evidence.py:66-94 | a carrier decodes back into exactly the leaves it was framed from |
| Carriers.FramedInvertsUnframed | scripts/public_generic_settlement_evidence.py:66-94 | whatever decodes as a carrier is the framing of the leaves it decodes to, byte for byte |
| Carriers.PreimageIsInjective | scripts/public_generic_settlement_evidence.py:43-44 | two domain-framed preimages are equal only for equal domain and data |
| Carriers.Carrier | scripts/public_generic_consumer_cases.py:95-106 | succeeds exactly on 1 to 256 fields and recipes 0 to 4; the result decodes into that many leaves, whose lengths and bytes are given by position, reversed or not |
| Carriers.TilingIsPayload | scripts/public_generic_consumer_cases.py:95-106 | repeating a 768-byte pattern and cutting it off yields the per-index byte formula at every position |
| Carriers.ReversedCarrier | scripts/public_generic_consumer_cases.py:95-106 | decoding the reversed carrier gives the leaf-by-leaf reversal of the plain one |
| Carriers.CarrierBound | scripts/public_generic_consumer_cases.py:95-106 | a carrier has at most 16779272 bytes, reached by exactly one shape, and reversal keeps the length |
| Carriers.CaseLeaves | scripts/public_generic_settlement_evidence.py:70-89 | succeeds if and only if every entry is valid and the whole expansion is within 257 leaves and 16 MiB + 1, and returns that expansion |
| Carriers.HexExactlyWhen | scripts/public_generic_settlement_evidence.py:74-78 | text is read as bytes if and only if it is their lower-case hexadecimal |
| Carriers.ExpandGains | scripts/public_generic_settlement_evidence.py:74-89 | a hexadecimal entry adds one leaf, its bytes; a fill entry adds as many equal leaves as it counts |
| Carriers.InputCarrierDecodes | scripts/public_generic_settlement_evidence.py:92-94 | an admitted case's carrier decodes to exactly its leaves |
| Settlement.Call.Record | scripts/public_generic_typescript_cases.py:31-49 | one event changes trace, releases, live owner, faults and failures as the event function says |
| Settlement.Call.Sequence | scripts/public_generic_typescript_cases.py:50-72 | the nested loops of a call end in the state that walking the planned events ends in |
| Settlement.Call.Perform | scripts/public_generic_typescript_cases.py:27-77 | a whole call, with the forced release, ends in the specified outcome |
| Settlement.Expected | scripts/public_generic_typescript_cases.py:26-82 | refuses a case outside the carrier's domain; of every other one it reports the trace up to the first failure and the release behind it, the primary failure by its cause, the secondary status, endpoint calls by the starts in the trace, and bytes and pages by the commits in it |
| Settlement.FaultFreeWrittenOut | scripts/public_generic_typescript_cases.py:50-77 | the trace of a call in which nothing fails, event by event, for any number of leaves |
| Settlement.TraceEndsBehind | scripts/public_generic_typescript_cases.py:31-77 | a trace goes up to the first failure or closed check, and ends with the release of what is live there |
| Settlement.InjectedPrimary | scripts/public_generic_typescript_cases.py:38-45 | the first injected fault is primary: a release failure with 11 on a release, otherwise an execution failure with 10 on the four allocation events and 11 on all others |
| Settlement.ExportPrimary | scripts/public_generic_typescript_cases.py:66-70 | a call that reaches its export check reports the reason of its mutation code: framing for 1 and 5, count for 2, trailing for 6, the leaf bound for all others |
| Settlement.SecondaryIsReported | scripts/public_generic_typescript_cases.py:38-45 | the secondary status is 11 if and only if the last event is an injected release behind an earlier failure |
| Settlement.TraceIsPrefix | scripts/public_generic_typescript_cases.py:31-77 | every trace is a prefix of the fault-free trace followed by at most one release, numbered from zero, with at most 4n+16 events |
| Settlement.FirstFailureIsPrimary | scripts/public_generic_typescript_cases.py:38-45 | the first failure stays primary; at most one secondary status is recorded, always 11, exactly when the forced release is itself faulty; over the leaf bound the capacity refusal is the only failure |
| Settlement.ScanPrefix | scripts/public_generic_typescript_cases.py:33-37 | at every point of the fault-free trace commits and releases alternate and the live owner is the one they imply |
| Settlement.EveryCallSettles | scripts/public_generic_typescript_cases.py:31-82 | nothing is live at the end, each commit is followed by its release before the next commit, and the release order is one of three |
| Settlement.AcceptedExactlyWhen | scripts/public_generic_typescript_cases.py:26-82 | accepted if and only if the recipe is within bound, no injected fault names an event of the fault-free trace, no legacy code 0..7 is armed and there is no mutation |
| Settlement.AcceptedCallIsComplete | scripts/public_generic_typescript_cases.py:26-82 | an accepted call records the whole fault-free trace and makes one endpoint call for each leaf |
| Settlement.ResourcesAreBounded | scripts/public_generic_typescript_cases.py:78-82 | one allocation at a time, within 257 pages; zeroed bytes are the carrier length times the number of releases, which is zero exactly when nothing was allocated |
| Text.SplitInvertsJoin | scripts/public_generic_settlement_phases.py:27-27 | splitting joined parts gives the parts, when none contains the separator |
| Text.JoinInvertsSplit | scripts/public_generic_settlement_phases.py:27-27 | joining what was split gives the text back |
| Text.UnsignedExactlyWhen | scripts/public_generic_settlement_evidence.py:178-183 | accepts exactly the canonical decimals of 0..2^64-1 |
| PhaseReceipts.RowsExactlyWhen | scripts/public_generic_settlement_phases.py:34-39 | a comma and colon list parses to rows if and only if it is their rendering |
| PhaseReceipts.ParseLine | scripts/public_generic_settlement_phases.py:25-55 | succeeds if and only if the line is the rendering of a typed row, and returns that row |
| PhaseReceipts.TypedRowFits | scripts/public_generic_settlement_phases.py:26-26 | no typed row, with every array at its limit, renders to more than the line bound |
| PhaseReceipts.WordsAre | scripts/public_generic_settlement_phases.py:18-20 | the sixteen words of a line: which name stands in front of which value |
| PhaseReceipts.TypedExactlyWhen | scripts/public_generic_settlement_phases.py:32-55 | the domain of every field of an admitted row |
| PhaseReceipts.CheckExpectation | scripts/public_generic_settlement_phases.py:79-90 | rendering and parsing an expectation gives it back if and only if it is typed |
| PhaseReceipts.ParseReceipts | scripts/public_generic_settlement_phases.py:58-64 | succeeds exactly on the texts of 1 to 128 differently named typed rows within the byte bound, and returns them |
| Transcripts.FollowsExactlyWhen | scripts/graph-operational-phase1-product-workflow-evidence.py:436-469 | a sequence is a list with repetitions where they are allowed if and only if it has no unlawful repetition and compresses to the list |
| Transcripts.CheckMethods | scripts/graph-operational-phase1-product-workflow-evidence.py:436-469 | one phase is accepted if and only if it is the expected list, each method once or, if repeatable, several times in a row |
| Transcripts.ValidateSuccess | scripts/graph-operational-phase1-product-workflow-evidence.py:436-469 | a transcript is accepted if and only if it is a review phase and then a publish phase over the two lists, bound and numbered from 1 |
| Transcripts.ValidateRecordedSuccess | scripts/graph-operational-phase1-product-workflow-evidence.py:72-97 | the same for the recorded review list, publish list and repeatable methods |
| Transcripts.RecordedListsAreSeparate | scripts/graph-operational-phase1-product-workflow-evidence.py:72-97 | the two recorded method lists have no equal neighbours, as the acceptance theorem asks |
| Transcripts.BlocksExactlyWhen | scripts/graph-operational-phase1-product-workflow-evidence.py:472-490 | labels are one numbered block for each case in order if and only if every number counts its case's occurrences and the cases compress to the order |
| Transcripts.ValidateHostile | scripts/graph-operational-phase1-product-workflow-evidence.py:472-490 | a transcript is accepted if and only if it is one contiguous block for each case, in the fixed order, each numbered from 1 |
| Transcripts.ValidateRecordedHostile | scripts/graph-operational-phase1-product-workflow-evidence.py:133-144 | the same for the ten recorded hostile cases |
| Transcripts.HostileCasesAreDistinct | scripts/graph-operational-phase1-product-workflow-evidence.py:133-144 | the ten hostile cases are different, as the acceptance theorem asks |
| Envelope.LengthsExactlyWhen | scripts/graph-operational-phase1-product-workflow-evidence.py:504-532 | a length field is accepted with a value if and only if it is that value's canonical decimal |
| Envelope.ValidateClient | scripts/graph-operational-phase1-product-workflow-evidence.py:504-532 | a body is accepted if and only if it is the envelope of two nonempty sources of valid UTF-8 |
| Envelope.EnvelopeWrittenOut | scripts/graph-operational-phase1-product-workflow-evidence.py:504-532 | the envelope byte for byte: each header, its length in decimal, a line feed and the source |
| Envelope.SourcesAreUnique | scripts/graph-operational-phase1-product-workflow-evidence.py:504-532 | an envelope determines its two sources, whatever text they contain |
| Elf.ElfInterpreter | scripts/doctor-provisioned-linux-bundle.py:105-148 | returns an interpreter, or none, exactly when the image is admitted with it, reading only inside its input |
| Elf.InterpretsExactlyWhen | scripts/doctor-provisioned-linux-bundle.py:113-147 | an image is admitted with a path if and only if its header fields have the admitted values and exactly one program header has type 3 and points at that path and a NUL |
| Elf.InterpreterIsUnique | scripts/doctor-provisioned-linux-bundle.py:129-147 | an admitted image has one interpreter at most: two admissions agree |
| Elf.InterpreterShape | scripts/doctor-provisioned-linux-bundle.py:138-147 | the interpreter of an admitted image is an absolute, NUL-free path of 2 to 1025 bytes |
| Elf.NoInterpreterExactlyWhen | scripts/doctor-provisioned-linux-bundle.py:118-147 | an image is admitted without an interpreter if and only if its header is admitted and no program header has type 3 |
| DoctorBundle.AlphabetExactlyWhen | scripts/doctor-provisioned-linux-bundle.py:79-93 | an admitted path is within the intended alphabet if and only if it contains no line feed |
| DoctorBundle.LineFeedAdmitted | scripts/doctor-provisioned-linux-bundle.py:79-93 | a path ending in a line feed is admitted |
| DoctorBundle.Sorted | scripts/doctor-provisioned-linux-bundle.py:226-226 | lists every path once, strictly increasing in byte order |
| Sequences.LessExactlyWhen | scripts/doctor-provisioned-linux-bundle.py:226-226 | byte order is decided at the first difference, or by the end of the shorter path |
| DoctorBundle.ListingIsUnique | scripts/doctor-provisioned-linux-bundle.py:226-226 | byte order leaves only one listing of an inventory |
| DoctorBundle.CheckAncestors | scripts/doctor-provisioned-linux-bundle.py:235-238 | accepts if and only if no file stands above another file |
| DoctorBundle.CheckLoaders | scripts/doctor-provisioned-linux-bundle.py:249-259 | accepts if and only if every needed loader is carried and needs none itself |
| DoctorBundle.StripSlashesIs | scripts/doctor-provisioned-linux-bundle.py:252-252 | a loader is looked up without its leading slashes and with nothing else removed |
| DoctorBundle.LoaderIsStaticExactlyWhen | scripts/doctor-provisioned-linux-bundle.py:243-259 | a carried loader is an admitted ELF image without a loader if and only if its content starts with the ELF magic |
| DoctorBundle.TextLoaderAdmitted | scripts/doctor-provisioned-linux-bundle.py:218-290 | a concrete inventory of valid paths, whose image has the clang role, is admissible although the loader that image asks for is a text file |
| DoctorBundle.Build | scripts/doctor-provisioned-linux-bundle.py:218-290 | succeeds if and only if the inventory is admissible, and writes the bundle that lists every file once in byte order |
| DoctorBundle.UnpackInvertsPack | scripts/doctor-provisioned-linux-bundle.py:269-284 | every bundle whose fields fit decodes to its selector, mask, indices and entries in order |
| DoctorBundle.PackInvertsUnpack | scripts/doctor-provisioned-linux-bundle.py:269-284 | whatever decodes as a bundle is the packing of what it decodes to, byte for byte |
| DoctorBundle.PackedLength | scripts/doctor-provisioned-linux-bundle.py:269-284 | a bundle has 28 bytes, the selector, and 12 bytes, path and content for each entry |
| Common.LeDigit | scripts/doctor-provisioned-linux-bundle.py:269-284 | packed integers have their least significant byte first |
| DoctorBundle.EmittedBundleDecodes | scripts/doctor-provisioned-linux-bundle.py:218-290 | whatever `build` writes decodes back to the selector and, in order, to the paths, contents and executable flags of the inventory, with no field overflowing |
| DoctorBundle.ValidPathsFit | scripts/doctor-provisioned-linux-bundle.py:79-93 | a path that passed the path check never overflows the two-byte length field of its entry |
| DoctorBundle.RolesAreNamed | scripts/doctor-provisioned-linux-bundle.py:261-267 | a role bit is set exactly when the role is given, and then its index names the role's path |
| DiagnosticTokens.DiagnosticTokens | build.rs:94-121 | the skipping scan returns the tokens of every position, in order |
| DiagnosticTokens.SkippedSpanHasNoToken | build.rs:119-119 | nothing that starts inside the skipped span is a token |
| DiagnosticTokens.ScanIsExact | build.rs:94-129 | a position and text are listed if and only if the maximal run there is a valid code with clean boundaries |
| DiagnosticTokens.ListedExactlyWhen | build.rs:94-129 | a text is listed at a position if and only if it stands there: the prefix, one to thirteen capitals, three digits, and no word going on at either end |
| DiagnosticTokens.LineNumberIs | build.rs:47-47 | a line number is one more than the line feeds in front |
| DiagnosticTokens.TokensIncrease | build.rs:94-121 | listed positions strictly increase |
| DiagnosticTokens.DynamicSites | build.rs:36-53 | the needle loop reports the line of every non-literal occurrence and no other |
| DiagnosticTokens.NoOverlap | build.rs:50-52 | advancing by the needle's length loses no occurrence |
| DiagnosticTokens.NeedlesEndUniquely | build.rs:37-41 | the three needles have the property that the loop's completeness needs |
| Observation.TotalsAdd | scripts/agent-task-comparison.py:548-577 | totals add under concatenation of event lists |
| Observation.TotalsIgnoreOrder | scripts/agent-task-comparison.py:548-577 | totals do not depend on the order of the events |
| Observation.Fold | scripts/agent-task-comparison.py:548-577 | the event loop accepts exactly admissible events; each of the twelve metrics is by name the sum of its amount over the events of its kind, or their number |
| Observation.ReadingsAreNamed | scripts/agent-task-comparison.py:537-603 | each metric by name: what it sums or counts, its method, and that it cites the ledger, its stream and the events of its kind, each once |
| Observation.SubjectExactlyWhen | scripts/agent-task-comparison.py:459-477 | which subjects both programs admit, field by field |
| Observation.ArtifactsExactlyWhen | scripts/agent-task-comparison.py:479-508 | which artifacts both programs admit: present, bound by size and digest, differently named, within both byte bounds |
| Observation.AcceptanceExactlyWhen | scripts/agent-task-comparison.py:605-628 | which verdicts both programs admit: the criteria in order, decided on known evidence, all passed exactly when the trial is completed |
| Observation.MakeObservation | scripts/agent-task-comparison.py:431-650 | succeeds if and only if the ledger is admissible; the document has its subject, its artifacts and the ledger itself, each metric by name with value, method and evidence, and its verdicts on the ledger |
| Observation.LoadObservation | scripts/agent-task-comparison.py:653-759 | succeeds if and only if the document is admissible, and returns its metric values and verdict |
| Observation.DerivedDocumentLoads | scripts/agent-task-comparison.py:479-741 | a derived document passes the validator if and only if the JSON is within 1 MiB, evidence plus ledger within 64 MiB, and every artifact's file and the ledger survive the write; with the same totals and verdict |
| Observation.AdmittedLedgerRefusedDocument | scripts/agent-task-comparison.py:479-741 | a concrete ledger over two artifacts of 32 MiB is admitted although no document derived from it can load |
| Observation.OutputReplacesItsEvidence | scripts/agent-task-comparison.py:479-900 | a concrete ledger lists its output among its artifacts, is admitted, and no document of another size loads |
| Observation.DeriveAndLoad | scripts/agent-task-comparison.py:431-900 | deriving, writing and then loading succeeds under exactly these conditions and returns, by name, each metric's sum or number of events |
| Matrix.MakeMatrix | scripts/agent-task-comparison.py:375-399 | lists the cells of tasks, available lanes and trials |
| Matrix.CellsAre | scripts/agent-task-comparison.py:375-399 | the matrix holds each task, available lane and trial exactly once |
| Matrix.CellAt | scripts/agent-task-comparison.py:375-399 | the matrix goes by task, then lane, then trial |
| Matrix.AvailableAre | scripts/agent-task-comparison.py:376-378 | the lanes are the available ones, in the order of the manifest |
| Report.CompleteIsTheMatrix | scripts/agent-task-comparison.py:766-779 | the completeness check accepts exactly the permutations of the matrix rows |
| Report.PairsShareTheirSetting | scripts/agent-task-comparison.py:780-793 | in an accepted matrix two observations of one task and trial agree on model, tokenizer, configuration, harness, host, toolchain and state |
| Report.PairsAgreeExactlyWhen | scripts/agent-task-comparison.py:780-793 | a complete matrix passes the pairing check if and only if observations of one task and trial agree on those seven fields |
| Report.MakeReport | scripts/agent-task-comparison.py:762-831 | succeeds if and only if all documents load beside their own evidence, the matrix is complete and pairs agree; in terms of the documents it reports the sums and counts of each lane, each difference with its task, trial, lanes and subtracted values, and every document once in order |
| Report.ReportsConserve | scripts/agent-task-comparison.py:794-825 | a report presents the observations it was made of in strictly increasing order of task, trial and lane, and its differences add up to its lane totals' difference |
| Report.LaneTotalsPartition | scripts/agent-task-comparison.py:794-801 | for each metric the lane totals add up to the sum over all observations |
| Report.DifferencesConserve | scripts/agent-task-comparison.py:802-818 | for each metric the paired differences add up to the left lane total minus the right one |
| Report.CompletedEqualsPassed | scripts/agent-task-comparison.py:798-801 | in every lane as many trials are completed as have passed acceptance |
| Schedule.MakeSchedule | scripts/agent-task-comparison-runner.py:848-883 | succeeds if and only if there are tasks, trials and exactly two available lanes, and writes the order with its counts of first places |
| Schedule.ScheduleIsArranged | scripts/agent-task-comparison-runner.py:863-883 | pair p of the schedule is the task that many places behind the start of its repetition, modulo the tasks, in both lanes, which take turns; and how often each lane goes first |
| Schedule.ReadBack | scripts/agent-task-comparison-runner.py:856-858 | the tasks and lanes recovered from the matrix rows are the manifest's, in its order |
| Schedule.TrialsReadBack | scripts/agent-task-comparison-runner.py:860-860 | the sorted trials recovered from the rows are 1 to the number of repetitions |
| Schedule.ScheduleIsThePermutedMatrix | scripts/agent-task-comparison-runner.py:863-874 | the schedule is a permutation of the matrix rows |
| Schedule.AdjacentRowsArePairs | scripts/agent-task-comparison-runner.py:868-872 | adjacent rows are one task and trial in the two lanes, which take turns in going first |
| Schedule.EachSlotOnce | scripts/agent-task-comparison-runner.py:866-869 | over any as many consecutive repetitions as there are tasks, a task occupies a slot exactly once |
| Schedule.EachTaskOnce | scripts/agent-task-comparison-runner.py:866-869 | in each repetition a task occupies exactly one slot |
| Schedule.FirstCountsBalance | scripts/agent-task-comparison-runner.py:865-872 | first places add up to the pairs and differ by the parity of their number |
| Base64.DecodeInvertsEncode | scripts/opencode-agent-task-pilot.py:328-331 | strict decoding gives back every encoded source |
| Base64.GroupIsNumber | scripts/opencode-agent-task-pilot.py:328-331 | four symbols are three bytes as one number, six bits each, the highest first |
| Base64.SymbolIs | scripts/opencode-agent-task-pilot.py:328-331 | the alphabet by character codes |
| Base64.CanonicalExactlyWhen | scripts/opencode-agent-task-pilot.py:464-465 | an accepted text is the encoding of the bytes it decodes to if and only if the spare bits of its padded last group are zero |
| Base64.SpareBitsAccepted | scripts/opencode-agent-task-pilot.py:464-465 | `QR==` decodes to one byte, whose encoding is another text |
| Gateway.PrepareDrift | scripts/opencode-agent-task-pilot.py:320-343 | a drift file is written if and only if the bound patch applies and changes the core source, and it carries both sources |
| Gateway.PreparedHolds | scripts/opencode-agent-task-pilot.py:330-343 | a prepared drift file holds both sources, their digests and the core path, and is not applied |
| Gateway.Wrapper.AppendRecord | scripts/opencode-agent-task-pilot.py:382-390 | a record is appended if and only if the log stays within its cap |
| GatewayLog.LineReadsBack | scripts/opencode-agent-task-pilot.py:382-386 | a log line reads back by its member names as arguments, output, error and code |
| GatewayLog.AppendedReadsBack | scripts/opencode-agent-task-pilot.py:382-390 | a log with a line appended reads back as what it read as before, and the new record |
| Gateway.Wrapper.InjectDrift | scripts/opencode-agent-task-pilot.py:401-427 | the drift is injected, refused or skipped as specified, with source, flag and record written in that order |
| Gateway.Wrapper.ReadSource | scripts/opencode-agent-task-pilot.py:476-496 | a read records the source as it was, then injects the drift |
| Gateway.Wrapper.WriteSource | scripts/opencode-agent-task-pilot.py:497-516 | a source write replaces the target exactly when every check passes |
| Gateway.Wrapper.RunCompiler | scripts/opencode-agent-task-pilot.py:517-553 | a compiler command is captured, recorded and followed by the drift as specified |
| Gateway.ReadStreams | scripts/opencode-agent-task-pilot.py:524-547 | the read loop stops at the deadline or at the first read over the cap |
| Gateway.DrainTakes | scripts/opencode-agent-task-pilot.py:524-547 | the capture is each stream's bytes of the first reads, in order, up to the deadline or to the first read past the cap |
| Gateway.DrainBound | scripts/opencode-agent-task-pilot.py:524-547 | captured output exceeds the cap by at most one read |
| Gateway.CompilerAnswers | scripts/opencode-agent-task-pilot.py:517-553 | a dispatched compiler command exits with the bytes read from each stream and the code of the compiler, 124 when it was stopped or 125 when it did not start, and logs them, unless the line does not fit or a drift halts it |
| Gateway.FinishAnswers | scripts/opencode-agent-task-pilot.py:401-427 | behind a logged command the drift is idle, injected over the recorded bytes and logged, or refused with the exit that its first failing check names |
| Gateway.TriggersAre | scripts/opencode-agent-task-pilot.py:401-414 | which commands bring the drift about |
| Gateway.EvidenceReadsBack | scripts/opencode-agent-task-pilot.py:426-427 | the evidence of an injection names both digests and the command |
| Gateway.ReadAnswers | scripts/opencode-agent-task-pilot.py:476-496 | a source read exits with the presented source and logs its exact bytes |
| Gateway.SourceWriteAnswers | scripts/opencode-agent-task-pilot.py:511-516 | an admissible source write is acknowledged and logged if its line fits, and changes that one file |
| Gateway.ArtifactAnswers | scripts/opencode-agent-task-pilot.py:469-475 | an admissible artifact write is acknowledged and logged if its line fits, and changes that one file |
| Gateway.HelpAnswers | scripts/opencode-agent-task-pilot.py:431-442 | help is shown and logged, if its line fits |
| Gateway.DispatchedExactlyWhen | scripts/opencode-agent-task-pilot.py:428-453 | an invocation is dispatched if and only if there is room for the reservation and it asks for help or for an allowed command none of whose arguments leaves the candidate |
| Gateway.TurnedAway | scripts/opencode-agent-task-pilot.py:428-453 | any other one exits with 126 and the message of the first check it fails |
| Gateway.Wrapper.Invoked | scripts/opencode-agent-task-pilot.py:428-553 | one invocation has the specified effect and keeps what every invocation keeps |
| Gateway.InvokeSound | scripts/opencode-agent-task-pilot.py:382-553 | the log only grows and stays within 32 MiB, the candidate changes by the recorded writes only, and the drift file changes in its flag only |
| Gateway.RunSound | scripts/opencode-agent-task-pilot.py:382-553 | the same over any sequence of invocations |
| Gateway.DriftIsWrittenOnce | scripts/opencode-agent-task-pilot.py:401-427 | over any run the drift is written at most once, and only over the exact recorded bytes |
| Gateway.WriteReplacesNamedBytes | scripts/opencode-agent-task-pilot.py:497-516 | at any point of a run a source write replaced exactly the bytes whose digest it named |
| Gateway.StaleWriteIsRefused | scripts/opencode-agent-task-pilot.py:507-508 | a write that names any other digest is refused and changes no file |
| Gateway.StaleAnswers | scripts/opencode-agent-task-pilot.py:507-508 | and when nothing else is wrong with it, it says that the precondition is stale |
| Gateway.ReadThenWriteIsStale | scripts/opencode-agent-task-pilot.py:476-516 | reading the core source injects the drift, and a write naming the digest that was read is then refused |
| Gateway.ReservedRecordsFit | scripts/opencode-agent-task-pilot.py:397-400 | with arguments of at most 1.5 MiB no invocation fails for want of log space after acting |
| Gateway.DeliveredRecordsFit | scripts/opencode_agent_task_pilot/mcp_gateway.py:27-31 | no invocation that the transport delivers fails for want of log space, whatever its arguments |
| Gateway.DeliveredRunsFit | scripts/opencode_agent_task_pilot/mcp_gateway.py:27-31 | over any sequence of delivered invocations none fails for want of log space |
| Gateway.DeliveredArgumentsAreNamed | scripts/opencode-agent-task-pilot.py:382-383 | of delivered invocations, only equal ones have the same joined arguments in the log |
| Gateway.DeliveredIsRecordedExactlyWhen | scripts/opencode-agent-task-pilot.py:382-553 | a delivered and dispatched invocation leaves a log line with its arguments if and only if its compiler does not outlive the deadline behind closed streams |
| Gateway.PlainIsOrdinary | scripts/opencode-agent-task-pilot.py:382-400 | the assumptions of the log budget can be met: a plain environment meets them |
| Gateway.SourceWriteLands | scripts/opencode-agent-task-pilot.py:497-516 | an admissible source write always lands, and its record is lost exactly when the line does not fit |
| Gateway.RecordLostExactlyWhen | scripts/opencode-agent-task-pilot.py:382-553 | an invocation that is not turned away fails for want of log space if and only if the lines it owes do not fit the log; what is owed is a condition on the input |
| Gateway.ArtifactLands | scripts/opencode-agent-task-pilot.py:454-475 | an artifact write lands exactly when its arguments are admissible, and its record is lost exactly when the line does not fit |
| Gateway.SourceRecordLostExactlyWhen | scripts/opencode-agent-task-pilot.py:497-516 | for a source write: if and only if it is admissible and 70 bytes plus the base64 of its arguments and message do not fit |
| Gateway.QuietCommandLosesItsRecordExactlyWhen | scripts/opencode-agent-task-pilot.py:397-553 | in every state and environment a dispatched quiet compiler command changes the candidate, and loses its record if and only if 70 bytes plus the base64 of its arguments do not fit the log |
| Gateway.LongPathsLoseTheRecord | scripts/opencode-agent-task-pilot.py:397-553 | after 21 delivered commands on a new log, a direct call with arguments the transport would refuse acts and leaves the log as it was |

## Left out

- Refusal reasons: the contracts of validators and packers say exactly when an input is refused, and not which reason is given when several apply; the gateway's messages are stated by `Gateway.TurnedAway` and `Gateway.StaleAnswers` only.
- SHA-256: a digest is a function parameter. Theorems that need two digests to differ say so.
- JSON text, JSON types and key inventories: documents, ledgers and manifests start as parsed values, so type and key refusals are not modelled. Log lines and drift evidence are the exception, since their length matters.
- Operating system: symlinks, hard links, permissions, processes, signals, deadlines and temporary files. Files are maps from path to bytes; path resolution, link counts and suffixes are parameters of `Gateway.Env`; a path is one name in its normal form.
- UTF-8: a predicate on bytes, or a function from text to bytes.
- Report.MakeReport: the report's plan digest and its list of claims are not modelled.
- Schedule.MakeSchedule: a matrix row is its task, lane and trial; the contract digest and the resolved subject that the same row carries are not modelled.
- Gateway.Wrapper.Invoked: allowed commands, help and refusal texts are parameters, and an invocation is taken to finish: a gateway killed between writing the source and its flag is not modelled.
- Gateway.ReservedRecordsFit: assumes `Ordinary` and `Bounded`, which the original does not check, as do the theorems on delivered invocations; spawn failure messages are taken to be at most 64 KiB.
- Carriers.CaseLeaves: input leaves start behind the JSON type tests, which become two constructors of `Recipe`.
- WasmEndpoint.EndpointReverses: memories of 2^31 bytes and more are outside; the fixture allows 257 pages.
- WasmMachine: only the instructions of the endpoint and of `endpoint-grow`; the decoder does not limit the length of LEB128 integers, and there is no validation by types.
- The other module variants of the fixture (wrong imports, exports and bounds): each is one section replacement, which `ReplaceChangesOneSection` covers.
- `settlement_evidence.parse_line` and the lifecycle receipts: a second parser of the same shape as the phase receipts.
- `request` and `collect` of the bundle packer, and `resolve_closure`: a fixed header, and calls to host tools.
- `apply_unified_diff_single_hunk`: a parameter of `Gateway.PrepareDrift`.
- `make_plan`, `make_trial`, `make_audit`, the MCP transport (its check of the arguments excepted) and the runner's process handling.
- `bindings`, `render` and the TypeScript, C, C++ and Rust provider bodies: quoted text whose programs are not part of this model.
- `src/agent_harness.rs`, `src/main.rs`, benches, release scripts and policy audits.
