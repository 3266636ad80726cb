/**
 * The host-caller settlement oracle: one call is a run of events over a single live
 * allocation, with injected faults, legacy faults, a rejected export and forced cleanup.
 */
module Settlement {
  import opened Common
  import Carriers

  datatype Label =
    | InputValidated | InputAllocationStarted | InputAllocationCommitted | InputPayloadCopied
    | InputPrepared | InputTransferPending | InputTransferCommitted
    | EndpointStarted | EndpointFinished | InputRelease
    | ResultAllocationStarted | ResultAllocationCommitted | ResultLeafCopyStarted | ResultLeafCopied
    | ResultPrepared | ResultCommitPending | ResultCommitted | ExportPending | ExportCopied | ResultRelease
    | Unlisted(name: string)

  datatype Event = Event(kind: Label, leaf: Option<nat>)
  datatype Recorded = Recorded(ordinal: nat, event: Event)
  datatype Owner = InputOwner | ResultOwner

  datatype Primary =
    | ReleaseFailed(status: nat) | ExecutionFailed(status: nat)
    | ResultRejected(reason: string) | CapacityExceeded(reason: string)

  datatype Case = Case(fields: nat, recipe: nat, injections: seq<Event>, legacy: int, exportMutation: int)

  predicate IsAllocation(l: Label) {
    l == InputAllocationStarted || l == InputAllocationCommitted
    || l == ResultAllocationStarted || l == ResultAllocationCommitted
  }

  predicate IsRelease(l: Label) { l == InputRelease || l == ResultRelease }

  function Released(l: Label): Owner
    requires IsRelease(l)
  {
    if l == InputRelease then InputOwner else ResultOwner
  }

  function Legacy(l: Label): Option<int> {
    match l
    case InputValidated => Some(0)
    case InputAllocationCommitted => Some(1)
    case InputPayloadCopied => Some(2)
    case InputRelease => Some(4)
    case ResultAllocationCommitted => Some(5)
    case ResultPrepared => Some(6)
    case ExportCopied => Some(7)
    case _ => None
  }

  /** How a nonzero export mutation is reported. */
  function Rejection(mutation: int): Primary {
    if mutation == 1 || mutation == 5 then ResultRejected("carrier-framing")
    else if mutation == 2 then ResultRejected("carrier-count")
    else if mutation == 6 then ResultRejected("carrier-trailing")
    else CapacityExceeded("leaf-bytes")
  }

  // --- The events of a call, as a value ---

  function Whole(l: Label): Event { Event(l, None) }
  function Leaf(l: Label, leaf: nat): Event { Event(l, Some(leaf)) }

  const ADMISSION: seq<Event> := [
    Whole(InputValidated), Whole(InputAllocationStarted), Whole(InputAllocationCommitted), Whole(InputPayloadCopied),
    Whole(InputPrepared), Whole(InputTransferPending), Whole(InputTransferCommitted)]

  const HANDOVER: seq<Event> := [Whole(InputRelease), Whole(ResultAllocationStarted), Whole(ResultAllocationCommitted)]

  const COMMIT: seq<Event> := [Whole(ResultPrepared), Whole(ResultCommitPending),
                               Whole(ResultCommitted), Whole(ExportPending)]

  /** The k-th event of a call over n leaves in which nothing fails; the last is the forced release. */
  function EventAt(n: nat, k: nat): Event {
    if k < 7 then ADMISSION[k]
    else if k < 7 + 2 * n then Leaf(if (k - 7) % 2 == 0 then EndpointStarted else EndpointFinished, (k - 7) / 2)
    else if k < 10 + 2 * n then HANDOVER[k - 7 - 2 * n]
    else if k < 10 + 4 * n then
      Leaf(if (k - 10) % 2 == 0 then ResultLeafCopyStarted else ResultLeafCopied, (k - 10 - 2 * n) / 2)
    else if k < 14 + 4 * n then COMMIT[k - 10 - 4 * n]
    else if k == 14 + 4 * n then Whole(ExportCopied)
    else Whole(ResultRelease)
  }

  /** The trace of a call in which nothing fails. */
  function FaultFree(n: nat): seq<Event> { seq(4 * n + 16, k requires 0 <= k => EventAt(n, k)) }

  /** Everything up to the copied export, without the forced release of the result. */
  function Planned(n: nat): seq<Event> { FaultFree(n)[..4 * n + 15] }

  // --- One event ---

  datatype Run = Run(
    live: Option<Owner>, peak: nat, primary: Option<Primary>, endpointCalls: nat,
    trace: seq<Recorded>, releases: seq<Owner>, secondary: seq<nat>, remaining: seq<Event>)

  function Start(c: Case): Run {
    Run(None, 0, None, 0, [], [], [], c.injections)
  }

  /** What an event does to the call's resources and its trace, before any fault is looked up. */
  function Apply(r: Run, e: Event): Run {
    var owned :=
      if e.kind == InputAllocationCommitted then r.(live := Some(InputOwner), peak := 1)
      else if e.kind == ResultAllocationCommitted then r.(live := Some(ResultOwner), peak := 1)
      else if IsRelease(e.kind) then r.(live := None, releases := r.releases + [Released(e.kind)])
      else r;
    owned.(trace := r.trace + [Recorded(|r.trace|, e)])
  }

  function Fault(e: Event): Primary {
    var status := if IsAllocation(e.kind) then 10 else 11;
    if IsRelease(e.kind) then ReleaseFailed(status) else ExecutionFailed(status)
  }

  function RemoveFirst<T(==)>(s: seq<T>, x: T): seq<T> {
    if s == [] then [] else if s[0] == x then s[1..] else [s[0]] + RemoveFirst(s[1..], x)
  }

  predicate LegacyArmed(c: Case, e: Event) {
    c.legacy >= 0 && Legacy(e.kind) == Some(c.legacy)
  }

  /** The state after an event, and whether the call goes on. */
  function Emit(c: Case, r: Run, e: Event): (Run, bool) {
    var applied := Apply(r, e);
    if e in r.remaining then
      var consumed := applied.(remaining := RemoveFirst(r.remaining, e));
      if r.primary == None then (consumed.(primary := Some(Fault(e))), false)
      else (consumed.(secondary := r.secondary + [Fault(e).status]), false)
    else if r.primary != None then (applied, false)
    else if LegacyArmed(c, e) then (applied.(primary := Some(ExecutionFailed(c.legacy))), false)
    else (applied, true)
  }

  // --- A whole call, as a value ---

  /**
   * The events a call goes through when nothing fails, and the positions of its two
   * extra checks: legacy code 3 behind the endpoint calls, the export mutation behind
   * `export-pending`.
   */
  datatype Script = Script(events: seq<Event>, endpointGate: nat, exportGate: nat)

  function ScriptOf(n: nat): Script { Script(Planned(n), 7 + 2 * n, 4 * n + 14) }

  function Count(r: Run, e: Event): Run {
    if e.kind == EndpointStarted then r.(endpointCalls := r.endpointCalls + 1) else r
  }

  function Gate(c: Case, s: Script, k: nat): Option<Primary> {
    if k == s.endpointGate && c.legacy == 3 then Some(ExecutionFailed(3))
    else if k == s.exportGate && c.exportMutation != 0 then Some(Rejection(c.exportMutation))
    else None
  }

  /** The call from its k-th event on: it stops at a gate, at the first failing event, or at the end. */
  function Walk(c: Case, s: Script, k: nat, r: Run): Run
    requires k <= |s.events|
    decreases |s.events| - k
  {
    if Gate(c, s, k) != None then r.(primary := Gate(c, s, k))
    else if k == |s.events| then r
    else
      var (next, proceed) := Emit(c, r, s.events[k]);
      if proceed then Walk(c, s, k + 1, Count(next, s.events[k])) else next
  }

  lemma {:induction false} GateStops(c: Case, s: Script, k: nat, r: Run)
    requires k <= |s.events| && Gate(c, s, k) != None
    ensures Walk(c, s, k, r) == r.(primary := Gate(c, s, k))
  {}

  function ReleaseOf(o: Owner): Event { Whole(if o == InputOwner then InputRelease else ResultRelease) }

  /** Whatever is still live is released by force. */
  function Finish(c: Case, r: Run): Run {
    if r.live == None then r else Emit(c, r, ReleaseOf(r.live.value)).0
  }

  /** The whole call; recipe 4 exceeds the leaf bound before anything happens. */
  function Outcome(c: Case): Run {
    if c.recipe == 4 then Start(c).(primary := Some(CapacityExceeded("leaf-bytes")))
    else Finish(c, Walk(c, ScriptOf(c.fields), 0, Start(c)))
  }

  // --- The call as the host performs it ---

  class Call {
    const c: Case
    var live: Option<Owner>
    var peak: nat
    var primary: Option<Primary>
    var endpointCalls: nat
    var trace: seq<Recorded>
    var releases: seq<Owner>
    var secondary: seq<nat>
    var remaining: seq<Event>

    ghost function View(): Run
      reads this
    {
      Run(live, peak, primary, endpointCalls, trace, releases, secondary, remaining)
    }

    constructor (c: Case)
      ensures this.c == c && View() == Start(c)
    {
      this.c := c;
      live, peak, primary, endpointCalls := None, 0, None, 0;
      trace, releases, secondary, remaining := [], [], [], c.injections;
    }

    method Record(e: Event) returns (proceed: bool)
      modifies this
      ensures (View(), proceed) == Emit(c, old(View()), e)
    {
      if e.kind == InputAllocationCommitted { live, peak := Some(InputOwner), 1; }
      if e.kind == ResultAllocationCommitted { live, peak := Some(ResultOwner), 1; }
      if IsRelease(e.kind) {
        releases := releases + [Released(e.kind)];
        live := None;
      }
      trace := trace + [Recorded(|trace|, e)];
      if e in remaining {
        remaining := RemoveFirst(remaining, e);
        if primary == None { primary := Some(Fault(e)); } else { secondary := secondary + [Fault(e).status]; }
        return false;
      }
      if primary != None { return false; }
      if LegacyArmed(c, e) {
        primary := Some(ExecutionFailed(c.legacy));
        return false;
      }
      return true;
    }

    /** One planned event: the rest of the call is unchanged, or the call is over. */
    method Advance(e: Event, ghost s: Script, ghost k: nat) returns (proceed: bool)
      requires k < |s.events| && s.events[k] == e && Gate(c, s, k) == None
      modifies this
      ensures Walk(c, s, k, old(View())) == if proceed then Walk(c, s, k + 1, Count(View(), e)) else View()
    {
      proceed := Record(e);
    }

    /** The same for an event that does not start an endpoint call. */
    method Pass(e: Event, ghost s: Script, ghost k: nat) returns (proceed: bool)
      requires k < |s.events| && s.events[k] == e && Gate(c, s, k) == None && e.kind != EndpointStarted
      modifies this
      ensures Walk(c, s, k, old(View())) == if proceed then Walk(c, s, k + 1, View()) else View()
    {
      proceed := Advance(e, s, k);
    }

    /** A fixed run of planned events; stops when one fails. */
    method AdvanceAll(events: seq<Event>, ghost s: Script, ghost k: nat) returns (proceed: bool)
      requires Plain(c, s, k, events)
      modifies this
      ensures Walk(c, s, k, old(View())) == if proceed then Walk(c, s, k + |events|, View()) else View()
    {
      hide Walk;
      ghost var whole := Walk(c, s, k, View());
      for i := 0 to |events|
        invariant whole == Walk(c, s, k + i, View())
      {
        ghost var at := k + i;
        assert s.events[at] == events[i] && events[i].kind != EndpointStarted && Gate(c, s, at) == None;
        proceed := Pass(events[i], s, at);
        if !proceed { return; }
      }
      return true;
    }

    method CallLeaf(leaf: nat, ghost s: Script, ghost k: nat) returns (proceed: bool)
      requires CallPair(s, k, leaf) && k + 1 < s.endpointGate < s.exportGate
      modifies this
      ensures Walk(c, s, k, old(View())) == if proceed then Walk(c, s, k + 2, View()) else View()
    {
      hide Walk;
      proceed := Advance(Leaf(EndpointStarted, leaf), s, k);
      if !proceed { return; }
      endpointCalls := endpointCalls + 1;
      proceed := Pass(Leaf(EndpointFinished, leaf), s, k + 1);
    }

    method CopyLeaf(leaf: nat, ghost s: Script, ghost k: nat) returns (proceed: bool)
      requires CopyPair(s, k, leaf) && s.endpointGate < k && k + 1 < s.exportGate
      modifies this
      ensures Walk(c, s, k, old(View())) == if proceed then Walk(c, s, k + 2, View()) else View()
    {
      hide Walk;
      proceed := Pass(Leaf(ResultLeafCopyStarted, leaf), s, k);
      if !proceed { return; }
      proceed := Pass(Leaf(ResultLeafCopied, leaf), s, k + 1);
    }

    method CallAll(ghost s: Script) returns (proceed: bool)
      requires Laid(s, c.fields)
      modifies this
      ensures Walk(c, s, 7, old(View())) == if proceed then Walk(c, s, s.endpointGate, View()) else View()
    {
      hide Walk;
      for leaf := 0 to c.fields
        invariant Walk(c, s, 7, old(View())) == Walk(c, s, 7 + 2 * leaf, View())
      {
        ghost var k := 7 + 2 * leaf;
        assert CallPair(s, k, leaf);
        proceed := CallLeaf(leaf, s, k);
        if !proceed { return; }
      }
      return true;
    }

    method CopyAll(ghost s: Script, ghost base: nat) returns (proceed: bool)
      requires CopyPairs(s, base, c.fields) && s.endpointGate < base && base + 2 * c.fields <= s.exportGate
      requires base + 2 * c.fields <= |s.events|
      modifies this
      ensures Walk(c, s, base, old(View())) == if proceed then Walk(c, s, base + 2 * c.fields, View()) else View()
    {
      hide Walk;
      ghost var whole := Walk(c, s, base, View());
      for leaf := 0 to c.fields
        invariant whole == Walk(c, s, base + 2 * leaf, View())
      {
        ghost var k := base + 2 * leaf;
        assert CopyPair(s, k, leaf);
        proceed := CopyLeaf(leaf, s, k);
        if !proceed { return; }
      }
      return true;
    }

    /** The second half of `sequence`: the input is released and the result handed out. */
    method Deliver(ghost s: Script)
      requires Deliverable(c, s)
      modifies this
      ensures View() == Walk(c, s, s.endpointGate, old(View()))
    {
      hide Walk;
      ghost var base := s.endpointGate + 3;
      ghost var whole := Walk(c, s, s.endpointGate, View());
      var proceed := AdvanceAll(HANDOVER, s, s.endpointGate);
      if !proceed { return; }
      assert whole == Walk(c, s, base, View());
      proceed := CopyAll(s, base);
      if !proceed { return; }
      assert whole == Walk(c, s, base + 2 * c.fields, View());
      HandOut(s, base + 2 * c.fields);
    }

    method HandOut(ghost s: Script, ghost k: nat)
      requires Committable(c, s, k)
      modifies this
      ensures View() == Walk(c, s, k, old(View()))
    {
      var proceed := AdvanceAll(COMMIT, s, k);
      if !proceed { return; }
      if c.exportMutation != 0 {
        primary := Some(Rejection(c.exportMutation));
        return;
      }
      proceed := Pass(Whole(ExportCopied), s, s.exportGate);
    }

    /** `sequence`: the whole call up to the copied export. */
    method Sequence(ghost s: Script)
      requires Laid(s, c.fields)
      modifies this
      ensures View() == Walk(c, s, 0, old(View()))
    {
      AdmissionIsPlain(c, s);
      hide Walk;
      var proceed := AdvanceAll(ADMISSION, s, 0);
      if !proceed { return; }
      proceed := CallAll(s);
      if !proceed { return; }
      if c.legacy == 3 {
        GateStops(c, s, s.endpointGate, View());
        primary := Some(ExecutionFailed(3));
        return;
      }
      DeliveryIsPlain(c, s);
      Deliver(s);
    }

    /** `expected`: the sequence, then the forced release of what is still live. */
    method Perform()
      requires View() == Start(c)
      modifies this
      ensures View() == Outcome(c)
    {
      if c.recipe == 4 {
        primary := Some(CapacityExceeded("leaf-bytes"));
      } else {
        ScriptIsLaid(c.fields);
        Sequence(ScriptOf(c.fields));
        if live != None {
          var _ := Record(ReleaseOf(live.value));
        }
      }
    }
  }

  // --- Where the planned events stand ---

  ghost predicate Segment(s: Script, k: nat, events: seq<Event>) {
    k + |events| <= |s.events| && forall i | k <= i < k + |events| :: s.events[i] == events[i - k]
  }

  ghost predicate CallPair(s: Script, k: nat, leaf: nat) {
    k + 1 < |s.events| && s.events[k] == Leaf(EndpointStarted, leaf) && s.events[k + 1] == Leaf(EndpointFinished, leaf)
  }

  ghost predicate CopyPair(s: Script, k: nat, leaf: nat) {
    k + 1 < |s.events| && s.events[k] == Leaf(ResultLeafCopyStarted, leaf)
    && s.events[k + 1] == Leaf(ResultLeafCopied, leaf)
  }

  ghost predicate CopyPairs(s: Script, base: nat, n: nat) {
    forall leaf, k | 0 <= leaf < n && k == base + 2 * leaf :: CopyPair(s, k, leaf)
  }

  ghost predicate Laid(s: Script, n: nat) {
    && |s.events| == 4 * n + 15 && s.endpointGate == 7 + 2 * n && s.exportGate == 14 + 4 * n
    && Segment(s, 0, ADMISSION) && Segment(s, 7 + 2 * n, HANDOVER) && Segment(s, 10 + 4 * n, COMMIT)
    && s.events[14 + 4 * n] == Whole(ExportCopied)
    && (forall leaf, k | 0 <= leaf < n && k == 7 + 2 * leaf :: CallPair(s, k, leaf))
    && CopyPairs(s, 10 + 2 * n, n)
  }

  /** Planned events without an endpoint call or a gate among them. */
  ghost predicate Plain(c: Case, s: Script, k: nat, events: seq<Event>) {
    && Segment(s, k, events)
    && (forall i | 0 <= i < |events| :: events[i].kind != EndpointStarted)
    && (forall i | k <= i < k + |events| :: Gate(c, s, i) == None)
  }

  lemma {:induction false} AdmissionIsPlain(c: Case, s: Script)
    requires Laid(s, c.fields)
    ensures Plain(c, s, 0, ADMISSION) && |ADMISSION| == 7
  {}

  /** The rest of the script from the handover on, with nothing but the export in its way. */
  ghost predicate Deliverable(c: Case, s: Script) {
    var k := s.endpointGate + 3;
    && Plain(c, s, s.endpointGate, HANDOVER) && |HANDOVER| == 3
    && CopyPairs(s, k, c.fields) && Committable(c, s, k + 2 * c.fields)
  }

  ghost predicate Committable(c: Case, s: Script, k: nat) {
    && Plain(c, s, k, COMMIT) && |COMMIT| == 4 && s.endpointGate < k && k + 4 == s.exportGate
    && |s.events| == k + 5 && s.events[k + 4] == Whole(ExportCopied)
  }

  lemma {:induction false} DeliveryIsPlain(c: Case, s: Script)
    requires Laid(s, c.fields) && c.legacy != 3
    ensures Deliverable(c, s)
  {}

  lemma {:induction false} ScriptPairs(n: nat)
    ensures forall leaf, k | 0 <= leaf < n && k == 7 + 2 * leaf :: CallPair(ScriptOf(n), k, leaf)
    ensures CopyPairs(ScriptOf(n), 10 + 2 * n, n)
  {
    forall leaf: nat | leaf < n
      ensures CallPair(ScriptOf(n), 7 + 2 * leaf, leaf) && CopyPair(ScriptOf(n), 10 + 2 * n + 2 * leaf, leaf)
    {
      PairStands(n, leaf);
    }
  }

  lemma {:induction false} PairStands(n: nat, leaf: nat)
    requires leaf < n
    ensures CallPair(ScriptOf(n), 7 + 2 * leaf, leaf) && CopyPair(ScriptOf(n), 10 + 2 * n + 2 * leaf, leaf)
  {
    CallEvents(n, leaf);
    CopyEvents(n, leaf);
    hide EventAt;
  }

  lemma {:induction false} CallEvents(n: nat, leaf: nat)
    requires leaf < n
    ensures EventAt(n, 7 + 2 * leaf) == Leaf(EndpointStarted, leaf)
    ensures EventAt(n, 7 + 2 * leaf + 1) == Leaf(EndpointFinished, leaf)
  {}

  lemma {:induction false} CopyEvents(n: nat, leaf: nat)
    requires leaf < n
    ensures EventAt(n, 10 + 2 * n + 2 * leaf) == Leaf(ResultLeafCopyStarted, leaf)
    ensures EventAt(n, 10 + 2 * n + 2 * leaf + 1) == Leaf(ResultLeafCopied, leaf)
  {}

  lemma {:induction false} ScriptSegments(n: nat)
    ensures Segment(ScriptOf(n), 0, ADMISSION) && Segment(ScriptOf(n), 7 + 2 * n, HANDOVER)
    ensures Segment(ScriptOf(n), 10 + 4 * n, COMMIT)
  {}

  lemma {:induction false} ScriptIsLaid(n: nat)
    ensures Laid(ScriptOf(n), n)
  {
    ScriptPairs(n);
    ScriptSegments(n);
  }

  // --- The state of a call that has not failed ---

  /** The owner live after the first k fault-free events. */
  function LiveAt(n: nat, k: nat): Option<Owner> {
    if k < 3 then None
    else if k < 8 + 2 * n then Some(InputOwner)
    else if k < 10 + 2 * n then None
    else if k < 4 * n + 16 then Some(ResultOwner)
    else None
  }

  function ReleasesAt(n: nat, k: nat): seq<Owner> {
    if k < 8 + 2 * n then [] else if k < 4 * n + 16 then [InputOwner] else [InputOwner, ResultOwner]
  }

  function Numbered(events: seq<Event>): seq<Recorded> {
    seq(|events|, i requires 0 <= i < |events| => Recorded(i, events[i]))
  }

  /** The state after the first k fault-free events. */
  function Clean(c: Case, k: nat): Run
    requires k <= 4 * c.fields + 16
  {
    var n := c.fields;
    Run(LiveAt(n, k), if k < 3 then 0 else 1, None, if k < 7 then 0 else if k < 7 + 2 * n then (k - 6) / 2 else n,
        Numbered(FaultFree(n)[..k]), ReleasesAt(n, k), [], c.injections)
  }

  /** Every fault-free event moves the call from one clean state to the next. */
  lemma {:induction false} CleanStep(c: Case, k: nat)
    requires k < 4 * c.fields + 16
    ensures Count(Apply(Clean(c, k), EventAt(c.fields, k)), EventAt(c.fields, k)) == Clean(c, k + 1)
  {
    var n := c.fields;
    var e := EventAt(n, k);
    assert FaultFree(n)[..k + 1] == FaultFree(n)[..k] + [e];
    assert Numbered(FaultFree(n)[..k + 1]) == Numbered(FaultFree(n)[..k]) + [Recorded(k, e)];
    KindAt(n, k);
  }

  /** Where the events that change resources stand. */
  lemma {:induction false} KindAt(n: nat, k: nat)
    requires k < 4 * n + 16
    ensures var kind := EventAt(n, k).kind;
            && (kind == InputAllocationCommitted <==> k == 2)
            && (kind == EndpointStarted <==> 7 <= k < 7 + 2 * n && (k - 7) % 2 == 0)
            && (kind == InputRelease <==> k == 7 + 2 * n)
            && (kind == ResultAllocationCommitted <==> k == 9 + 2 * n)
            && (kind == ResultRelease <==> k == 15 + 4 * n)
  {}

  // --- Where a call stops ---

  predicate Faulty(c: Case, e: Event) { e in c.injections || LegacyArmed(c, e) }

  /** The first position from k on at which a gate closes or an event fails; the end if there is none. */
  function FirstStop(c: Case, k: nat): (stop: nat)
    requires k <= 4 * c.fields + 15
    ensures k <= stop <= 4 * c.fields + 15
    ensures forall i | k <= i < stop :: Gate(c, ScriptOf(c.fields), i) == None && !Faulty(c, EventAt(c.fields, i))
    ensures Gate(c, ScriptOf(c.fields), stop) != None || stop == 4 * c.fields + 15 || Faulty(c, EventAt(c.fields, stop))
    decreases 4 * c.fields + 15 - k
  {
    if Gate(c, ScriptOf(c.fields), k) != None || k == 4 * c.fields + 15 || Faulty(c, EventAt(c.fields, k)) then k
    else FirstStop(c, k + 1)
  }

  function Stop(c: Case): nat { FirstStop(c, 0) }

  /** The failure at the stop, if it is one. */
  function FirstFailure(c: Case): Option<Primary> {
    var e := EventAt(c.fields, Stop(c));
    if Gate(c, ScriptOf(c.fields), Stop(c)) != None then Gate(c, ScriptOf(c.fields), Stop(c))
    else if Stop(c) == 4 * c.fields + 15 then None
    else if e in c.injections then Some(Fault(e))
    else Some(ExecutionFailed(c.legacy))
  }

  /** How many planned events were recorded: a failing event still is. */
  function Reached(c: Case): (k: nat)
    ensures k <= 4 * c.fields + 15
  {
    if Gate(c, ScriptOf(c.fields), Stop(c)) != None || Stop(c) == 4 * c.fields + 15 then Stop(c) else Stop(c) + 1
  }

  /** The call as it stands when the sequence returns. */
  ghost predicate StoppedAs(c: Case, r: Run) {
    var clean := Clean(c, Reached(c));
    && r.live == clean.live && r.peak == clean.peak && r.trace == clean.trace && r.releases == clean.releases
    && r.secondary == [] && r.primary == FirstFailure(c) && r.endpointCalls == Clean(c, Stop(c)).endpointCalls
    && (r.primary == None ==> r == clean)
    && (forall e | !(Reached(c) > 0 && e == EventAt(c.fields, Reached(c) - 1))
        :: e in r.remaining <==> e in c.injections)
  }

  lemma {:induction false} RemoveFirstKeeps(s: seq<Event>, x: Event, y: Event)
    requires x != y
    ensures y in RemoveFirst(s, x) <==> y in s
  {
    if s != [] && s[0] != x {
      RemoveFirstKeeps(s[1..], x, y);
    }
  }

  /** A failing event leaves the call as it would be behind that event, apart from the failure. */
  lemma {:induction false} StopStep(c: Case, k: nat)
    requires k == Stop(c) < 4 * c.fields + 15 && Gate(c, ScriptOf(c.fields), k) == None
    ensures !Emit(c, Clean(c, k), EventAt(c.fields, k)).1
    ensures StoppedAs(c, Emit(c, Clean(c, k), EventAt(c.fields, k)).0)
  {
    var e := EventAt(c.fields, k);
    CleanStep(c, k);
    forall y | y != e ensures y in RemoveFirst(c.injections, e) <==> y in c.injections {
      RemoveFirstKeeps(c.injections, e, y);
    }
  }

  lemma {:induction false} WalkStops(c: Case, k: nat)
    requires k <= 4 * c.fields + 15 && FirstStop(c, k) == Stop(c)
    ensures StoppedAs(c, Walk(c, ScriptOf(c.fields), k, Clean(c, k)))
    decreases 4 * c.fields + 15 - k
  {
    var s := ScriptOf(c.fields);
    if k == Stop(c) {
      if Gate(c, s, k) == None && k < 4 * c.fields + 15 {
        assert s.events[k] == EventAt(c.fields, k);
        StopStep(c, k);
      }
    } else {
      assert s.events[k] == EventAt(c.fields, k);
      CleanStep(c, k);
      WalkStops(c, k + 1);
    }
  }

  // --- The settled call ---

  function Forced(c: Case): Option<Event> {
    match LiveAt(c.fields, Reached(c))
    case None => None
    case Some(owner) => Some(ReleaseOf(owner))
  }

  function ForcedSeq(c: Case): seq<Event> { if Forced(c) == None then [] else [Forced(c).value] }

  /** The complete outcome of a call that is not over the leaf bound. */
  ghost predicate Settled(c: Case, r: Run) {
    var n, k := c.fields, Reached(c);
    var forcedFails := Forced(c) != None && Forced(c).value in c.injections;
    && r.live == None
    && r.trace == Numbered(FaultFree(n)[..k] + ForcedSeq(c))
    && r.releases == ReleasesAt(n, k) + (match LiveAt(n, k) case None => [] case Some(owner) => [owner])
    && r.primary == (if FirstFailure(c) != None then FirstFailure(c)
                     else if forcedFails then Some(ReleaseFailed(11)) else None)
    && r.secondary == (if FirstFailure(c) != None && forcedFails then [11] else [])
    && r.peak == (if k < 3 then 0 else 1)
    && r.endpointCalls == Clean(c, Stop(c)).endpointCalls
  }

  /** The forced release is recorded behind the planned events, and only it can fail a second time. */
  lemma {:induction false} FinishSettles(c: Case, r: Run)
    requires StoppedAs(c, r)
    ensures Settled(c, Finish(c, r))
  {
    if r.live == None {
      var prefix := FaultFree(c.fields)[..Reached(c)];
      assert prefix + [] == prefix;
    } else {
      ForcedReleaseSettles(c, r);
    }
  }

  lemma {:induction false} ForcedReleaseSettles(c: Case, r: Run)
    requires StoppedAs(c, r) && r.live != None
    ensures Settled(c, Emit(c, r, ReleaseOf(r.live.value)).0)
  {
    var k := Reached(c);
    var e := ReleaseOf(r.live.value);
    NumberedGains(FaultFree(c.fields)[..k], e);
    assert e in r.remaining <==> e in c.injections by { KindAt(c.fields, k - 1); }
    assert !LegacyArmed(c, e) || FirstFailure(c) != None;
    hide EventAt, FaultFree, Reached, FirstFailure;
  }

  lemma {:induction false} NumberedGains(events: seq<Event>, e: Event)
    ensures Numbered(events + [e]) == Numbered(events) + [Recorded(|events|, e)]
  {}

  lemma {:induction false} CallSettles(c: Case)
    requires c.recipe != 4
    ensures Settled(c, Outcome(c))
  {
    assert Clean(c, 0) == Start(c);
    WalkStops(c, 0);
    FinishSettles(c, Walk(c, ScriptOf(c.fields), 0, Start(c)));
  }

  // --- What every call keeps, under every plan of faults ---

  function Events(trace: seq<Recorded>): seq<Event> {
    seq(|trace|, i requires 0 <= i < |trace| => trace[i].event)
  }

  /**
   * The trace is a prefix of the fault-free trace followed by at most one release; ordinals
   * count from zero, and there are never more events than in a call without faults.
   */
  lemma {:induction false} TraceIsPrefix(c: Case)
    ensures var trace := Outcome(c).trace;
            && (forall i | 0 <= i < |trace| :: trace[i].ordinal == i)
            && |trace| <= 4 * c.fields + 16
            && (c.recipe == 4 ==> trace == [])
            && (c.recipe != 4 ==> Events(trace) == FaultFree(c.fields)[..Reached(c)] + ForcedSeq(c))
            && |ForcedSeq(c)| <= 1 && forall e | e in ForcedSeq(c) :: IsRelease(e.kind)
  {
    if c.recipe != 4 {
      CallSettles(c);
      var events := FaultFree(c.fields)[..Reached(c)] + ForcedSeq(c);
      assert Events(Numbered(events)) == events;
    }
  }

  /**
   * The first failure stays the primary one. A second failure can only be the forced
   * release's, and its status is always 11.
   */
  lemma {:induction false} FirstFailureIsPrimary(c: Case)
    ensures var r := Outcome(c);
            && (c.recipe == 4 ==> r.primary == Some(CapacityExceeded("leaf-bytes")) && r.secondary == [])
            && (c.recipe != 4 && FirstFailure(c) != None ==> r.primary == FirstFailure(c))
            && (c.recipe != 4 && FirstFailure(c) == None ==> r.primary == None || r.primary == Some(ReleaseFailed(11)))
            && (r.secondary == [] || r.secondary == [11])
            && (r.secondary == [11] <==>
                c.recipe != 4 && FirstFailure(c) != None && Forced(c) != None && Forced(c).value in c.injections)
  {
    if c.recipe != 4 { CallSettles(c); }
  }

  /** The owner live behind these events; None when a commit or a release comes out of turn. */
  function Scan(events: seq<Event>): Option<Option<Owner>> {
    if events == [] then Some(None)
    else
      var before, e := Scan(events[..|events| - 1]), events[|events| - 1];
      if before == None then None
      else if e.kind == InputAllocationCommitted || e.kind == ResultAllocationCommitted then
        if before.value != None then None
        else Some(Some(if e.kind == InputAllocationCommitted then InputOwner else ResultOwner))
      else if IsRelease(e.kind) then
        if before.value == Some(Released(e.kind)) then Some(None) else None
      else before
  }

  /** One more event, behind events that are in turn. */
  function InTurn(live: Option<Owner>, e: Event): Option<Option<Owner>> {
    if e.kind == InputAllocationCommitted then (if live == None then Some(Some(InputOwner)) else None)
    else if e.kind == ResultAllocationCommitted then (if live == None then Some(Some(ResultOwner)) else None)
    else if IsRelease(e.kind) then (if live == Some(Released(e.kind)) then Some(None) else None)
    else Some(live)
  }

  lemma {:induction false} ScanOne(events: seq<Event>, e: Event)
    requires Scan(events).Some?
    ensures Scan(events + [e]) == InTurn(Scan(events).value, e)
  {
    assert (events + [e])[..|events|] == events;
  }

  /** Each fault-free event is in turn, and leaves the owner that is live behind it. */
  lemma {:induction false} LiveStep(n: nat, k: nat)
    requires k < 4 * n + 16
    ensures InTurn(LiveAt(n, k), EventAt(n, k)) == Some(LiveAt(n, k + 1))
  {
    KindAt(n, k);
  }

  lemma {:induction false} ScanPrefix(n: nat, k: nat)
    requires k <= 4 * n + 16
    ensures Scan(FaultFree(n)[..k]) == Some(LiveAt(n, k))
  {
    hide EventAt, LiveAt, InTurn, Scan;
    if k == 0 {
      ScanStarts(n);
      assert FaultFree(n)[..0] == [];
    } else {
      ScanPrefix(n, k - 1);
      LiveStep(n, k - 1);
      assert FaultFree(n)[..k] == FaultFree(n)[..k - 1] + [EventAt(n, k - 1)];
      ScanOne(FaultFree(n)[..k - 1], EventAt(n, k - 1));
    }
  }

  lemma {:induction false} ScanStarts(n: nat)
    ensures Scan([]) == Some(LiveAt(n, 0))
  {}

  lemma {:induction false} ScanForced(c: Case)
    ensures Scan(FaultFree(c.fields)[..Reached(c)] + ForcedSeq(c)) == Some(None)
  {
    var prefix := FaultFree(c.fields)[..Reached(c)];
    ScanPrefix(c.fields, Reached(c));
    if Forced(c) == None {
      assert prefix + ForcedSeq(c) == prefix;
    } else {
      ScanRelease(prefix, LiveAt(c.fields, Reached(c)).value);
    }
  }

  lemma {:induction false} ScanRelease(events: seq<Event>, owner: Owner)
    requires Scan(events) == Some(Some(owner))
    ensures Scan(events + [ReleaseOf(owner)]) == Some(None)
  {
    ScanOne(events, ReleaseOf(owner));
  }

  /**
   * Every call settles: each committed allocation is released exactly once, by the matching
   * release and before any other commit; nothing is live at the end.
   */
  lemma {:induction false} EveryCallSettles(c: Case)
    ensures Outcome(c).live == None
    ensures Scan(Events(Outcome(c).trace)) == Some(None)
    ensures Outcome(c).releases == [] || Outcome(c).releases == [InputOwner]
            || Outcome(c).releases == [InputOwner, ResultOwner]
  {
    if c.recipe == 4 {
      assert Events(Outcome(c).trace) == [];
    } else {
      hide Outcome, Scan, ForcedSeq, Events, Settled, FaultFree, Reached;
      TraceIsPrefix(c);
      ScanForced(c);
      CallSettles(c);
      SettledReleases(c, Outcome(c));
    }
  }

  lemma {:induction false} SettledReleases(c: Case, r: Run)
    requires Settled(c, r)
    ensures r.live == None
    ensures r.releases == [] || r.releases == [InputOwner] || r.releases == [InputOwner, ResultOwner]
  {
    hide FaultFree, ForcedSeq, FirstFailure;
    assert [InputOwner] + [ResultOwner] == [InputOwner, ResultOwner];
  }

  predicate Injected(c: Case) { exists e | e in c.injections :: e in FaultFree(c.fields) }

  /**
   * A call is accepted exactly when it is within the leaf bound, no injected fault names an
   * event of the fault-free trace, no legacy code 0..7 is armed and no export mutation is set.
   */
  lemma {:induction false} AcceptedExactlyWhen(c: Case)
    ensures Outcome(c).primary == None
       <==> c.recipe != 4 && !Injected(c) && !(0 <= c.legacy <= 7) && c.exportMutation == 0
  {
    if c.recipe != 4 {
      CallSettles(c);
      if FirstFailure(c) == None {
        NoFailure(c);
      } else {
        SomeFailure(c);
      }
    }
  }

  function LegacyPosition(n: nat, code: nat): nat
    requires code <= 7 && code != 3
  {
    [0, 2, 3, 0, 7 + 2 * n, 9 + 2 * n, 10 + 4 * n, 14 + 4 * n][code]
  }

  lemma {:induction false} LegacyStands(n: nat, code: nat)
    requires code <= 7 && code != 3
    ensures LegacyPosition(n, code) < 4 * n + 15 && Legacy(EventAt(n, LegacyPosition(n, code)).kind) == Some(code)
  {}

  /** Reaching the end means that nothing could have failed before the forced release. */
  lemma {:induction false} NoFailure(c: Case)
    requires c.recipe != 4 && FirstFailure(c) == None
    ensures Stop(c) == 4 * c.fields + 15 && !(0 <= c.legacy <= 7) && c.exportMutation == 0
    ensures Injected(c) <==> Whole(ResultRelease) in c.injections
  {
    var n := c.fields;
    assert Gate(c, ScriptOf(n), 7 + 2 * n) == None;
    assert Gate(c, ScriptOf(n), 14 + 4 * n) == None;
    if 0 <= c.legacy <= 7 && c.legacy != 3 {
      LegacyStands(n, c.legacy);
    }
    assert FaultFree(n)[4 * n + 15] == Whole(ResultRelease);
    if Injected(c) {
      var e :| e in c.injections && e in FaultFree(n);
      var i :| 0 <= i < 4 * n + 16 && FaultFree(n)[i] == e;
      assert i < 4 * n + 15 ==> !Faulty(c, EventAt(n, i));
    }
  }

  lemma {:induction false} SomeFailure(c: Case)
    requires c.recipe != 4 && FirstFailure(c) != None
    ensures Injected(c) || 0 <= c.legacy <= 7 || c.exportMutation != 0
  {
    var k := Stop(c);
    if Gate(c, ScriptOf(c.fields), k) == None && EventAt(c.fields, k) in c.injections {
      assert FaultFree(c.fields)[k] == EventAt(c.fields, k);
    }
  }

  /** An accepted call runs the whole fault-free trace, with one endpoint call for each leaf. */
  lemma {:induction false} AcceptedCallIsComplete(c: Case)
    requires Outcome(c).primary == None
    ensures Events(Outcome(c).trace) == FaultFree(c.fields)
    ensures Outcome(c).endpointCalls == c.fields
    ensures Outcome(c).releases == [InputOwner, ResultOwner] && Outcome(c).secondary == []
  {
    CallSettles(c);
    TraceIsPrefix(c);
    NoFailure(c);
    var n := c.fields;
    assert FaultFree(n) == FaultFree(n)[..4 * n + 15] + [Whole(ResultRelease)];
  }

  // --- Failures, event by event ---

  /** The events that a legacy code makes fail; code 3 is no event's. */
  const LEGACY_EVENTS: set<(Label, int)> := {
    (InputValidated, 0), (InputAllocationCommitted, 1), (InputPayloadCopied, 2), (InputRelease, 4),
    (ResultAllocationCommitted, 5), (ResultPrepared, 6), (ExportCopied, 7)}

  ghost predicate Fails(c: Case, e: Event) { e in c.injections || (e.kind, c.legacy) in LEGACY_EVENTS }

  /** None of the first k events fails. */
  ghost predicate Undisturbed(c: Case, k: nat)
    requires k <= 4 * c.fields + 16
  {
    forall i | 0 <= i < k :: !Fails(c, FaultFree(c.fields)[i])
  }

  /** The k-th event takes place, and nothing has failed before it. */
  ghost predicate Passed(c: Case, k: nat)
    requires k <= 4 * c.fields + 16
  {
    && Undisturbed(c, k)
    && (c.legacy == 3 ==> k < 7 + 2 * c.fields) && (c.exportMutation != 0 ==> k < 14 + 4 * c.fields)
  }

  lemma {:induction false} FailsMeansFaulty(c: Case, e: Event)
    ensures Fails(c, e) <==> Faulty(c, e)
  {}

  lemma {:induction false} EventsFail(c: Case)
    ensures forall i | 0 <= i < 4 * c.fields + 16 ::
              Faulty(c, EventAt(c.fields, i)) <==> Fails(c, FaultFree(c.fields)[i])
  {
    forall i | 0 <= i < 4 * c.fields + 16
      ensures Faulty(c, EventAt(c.fields, i)) <==> Fails(c, FaultFree(c.fields)[i])
    {
      FailsMeansFaulty(c, EventAt(c.fields, i));
    }
  }

  /** The first failing event is where the sequence stops, unless it is the forced release. */
  lemma {:induction false} StopsAt(c: Case, k: nat)
    requires k < 4 * c.fields + 16 && Passed(c, k)
    ensures k == 4 * c.fields + 15 ==> Stop(c) == k == Reached(c) && FirstFailure(c) == None
    ensures k < 4 * c.fields + 15 && Fails(c, FaultFree(c.fields)[k]) ==> Stop(c) == k && Reached(c) == k + 1
  {
    EventsFail(c);
  }

  /** An injected fault fails the call by the kind of its event: allocations with 10, all others with 11. */
  lemma {:induction false} InjectedPrimary(c: Case, k: nat)
    requires c.recipe != 4 && k < 4 * c.fields + 16 && Passed(c, k) && FaultFree(c.fields)[k] in c.injections
    ensures var kind := FaultFree(c.fields)[k].kind;
            Outcome(c).primary
            == Some(if kind in {InputRelease, ResultRelease} then ReleaseFailed(11)
                    else if kind in {InputAllocationStarted, InputAllocationCommitted,
                                     ResultAllocationStarted, ResultAllocationCommitted} then ExecutionFailed(10)
                    else ExecutionFailed(11))
  {
    StopsAt(c, k);
    CallSettles(c);
  }

  lemma {:induction false} LegacyPrimary(c: Case, k: nat)
    requires c.recipe != 4 && k < 4 * c.fields + 15 && Passed(c, k)
    requires Fails(c, FaultFree(c.fields)[k]) && FaultFree(c.fields)[k] !in c.injections
    ensures Outcome(c).primary == Some(ExecutionFailed(c.legacy))
  {
    StopsAt(c, k);
    CallSettles(c);
  }

  /** Where the two checks between events stop the sequence. */
  lemma {:induction false} StopsBetween(c: Case, k: nat)
    requires k == 7 + 2 * c.fields || k == 14 + 4 * c.fields
    requires Undisturbed(c, k) && (c.legacy == 3 ==> k == 7 + 2 * c.fields)
    requires if k == 7 + 2 * c.fields then c.legacy == 3 else c.exportMutation != 0
    ensures Stop(c) == k == Reached(c)
  {
    assert Gate(c, ScriptOf(c.fields), k) != None;
    EventsFail(c);
  }

  lemma {:induction false} GatePrimary(c: Case)
    requires c.recipe != 4
    ensures c.legacy == 3 && Undisturbed(c, 7 + 2 * c.fields) ==> Outcome(c).primary == Some(ExecutionFailed(3))
  {
    if c.legacy == 3 && Undisturbed(c, 7 + 2 * c.fields) {
      StopsBetween(c, 7 + 2 * c.fields);
      CallSettles(c);
    }
  }

  lemma {:induction false} ExportPrimary(c: Case)
    requires c.recipe != 4 && c.legacy != 3 && c.exportMutation != 0 && Undisturbed(c, 14 + 4 * c.fields)
    ensures Outcome(c).primary
         == Some(match c.exportMutation
                 case 1 => ResultRejected("carrier-framing")
                 case 2 => ResultRejected("carrier-count")
                 case 5 => ResultRejected("carrier-framing")
                 case 6 => ResultRejected("carrier-trailing")
                 case _ => CapacityExceeded("leaf-bytes"))
  {
    StopsBetween(c, 14 + 4 * c.fields);
    CallSettles(c);
  }

  /** A call without a failing event and without a closed check is accepted, and no other is. */
  lemma {:induction false} NoPrimary(c: Case)
    ensures Outcome(c).primary == None
       <==> c.recipe != 4 && Undisturbed(c, 4 * c.fields + 16) && c.legacy != 3 && c.exportMutation == 0
  {
    var n := c.fields;
    AcceptedExactlyWhen(c);
    if 0 <= c.legacy <= 7 && c.legacy != 3 {
      LegacyStands(n, c.legacy);
      FailsMeansFaulty(c, EventAt(n, LegacyPosition(n, c.legacy)));
      assert Fails(c, FaultFree(n)[LegacyPosition(n, c.legacy)]);
    }
  }

  /** The trace goes up to the first failure or closed check; behind it, what is live is released. */
  lemma {:induction false} TraceEndsBehind(c: Case, k: nat)
    requires c.recipe != 4 && k <= 4 * c.fields + 16
    requires (k > 0 ==> Passed(c, k - 1)) && (k < 4 * c.fields + 16 ==> !Passed(c, k))
    ensures Scan(FaultFree(c.fields)[..k]).Some?
    ensures Events(Outcome(c).trace)
         == FaultFree(c.fields)[..k]
            + match Scan(FaultFree(c.fields)[..k]).value
              case None => []
              case Some(InputOwner) => [Event(InputRelease, None)]
              case Some(ResultOwner) => [Event(ResultRelease, None)]
  {
    ReachedBehind(c, k);
    ScanPrefix(c.fields, k);
    TraceIsPrefix(c);
    var n := c.fields;
    assert Whole(ResultRelease) == FaultFree(n)[4 * n + 15] == Event(ResultRelease, None);
    hide Outcome, Scan, Reached, Passed, EventAt, Events;
    if k == 4 * n + 16 {
      assert FaultFree(n)[..k] == FaultFree(n)[..k - 1] + [Event(ResultRelease, None)];
    }
  }

  lemma {:induction false} ReachedBehind(c: Case, k: nat)
    requires k <= 4 * c.fields + 16 && (k > 0 ==> Passed(c, k - 1)) && (k < 4 * c.fields + 16 ==> !Passed(c, k))
    ensures Reached(c) == if k == 4 * c.fields + 16 then k - 1 else k
  {
    hide Reached, Stop;
    assert Passed(c, 0) && k > 0;
    if Fails(c, FaultFree(c.fields)[k - 1]) || k == 4 * c.fields + 16 {
      StopsAt(c, k - 1);
    } else {
      StopsBetween(c, k);
    }
  }

  lemma {:induction false} CallIsStart(c: Case, leaf: nat)
    requires c.recipe != 4 && leaf < c.fields
    ensures leaf < Outcome(c).endpointCalls <==>
            Event(EndpointStarted, Some(leaf)) in Events(Outcome(c).trace)
            && Event(EndpointStarted, Some(leaf)) !in c.injections
    ensures Outcome(c).endpointCalls <= c.fields
  {
    CallSettles(c);
    TraceIsPrefix(c);
    var n, k, at, e := c.fields, Reached(c), 7 + 2 * leaf, Event(EndpointStarted, Some(leaf));
    CallEvents(n, leaf);
    StartStands(n, leaf, k);
    hide EventAt, Outcome;
    assert e in FaultFree(n)[..k] + ForcedSeq(c) <==> at < k;
    assert at < Stop(c) ==> !Faulty(c, EventAt(n, at));
    assert at == Stop(c) < k ==> Faulty(c, EventAt(n, at)) && Legacy(e.kind) == None;
  }

  lemma {:induction false} CallsAreReported(c: Case)
    requires c.recipe != 4
    ensures CallsReported(c, Outcome(c).endpointCalls, Events(Outcome(c).trace))
  {
    if c.fields == 0 { CallSettles(c); }
    hide Outcome, Events;
    forall leaf: nat | leaf < c.fields { CallIsStart(c, leaf); }
    if c.fields > 0 { CallIsStart(c, 0); }
  }

  lemma {:induction false} StartStands(n: nat, leaf: nat, k: nat)
    requires leaf < n && k <= 4 * n + 16
    ensures Event(EndpointStarted, Some(leaf)) in FaultFree(n)[..k] <==> 7 + 2 * leaf < k
  {
    CallEvents(n, leaf);
    forall i | 0 <= i < k && FaultFree(n)[i] == Event(EndpointStarted, Some(leaf)) ensures i == 7 + 2 * leaf {
      KindAt(n, i);
    }
    if 7 + 2 * leaf < k { assert FaultFree(n)[..k][7 + 2 * leaf] == Event(EndpointStarted, Some(leaf)); }
  }

  /** A commit is in the trace exactly when the call held an allocation at some time. */
  lemma {:induction false} PeakIsCommit(c: Case)
    requires c.recipe != 4
    ensures Outcome(c).peak == if Event(InputAllocationCommitted, None) in Events(Outcome(c).trace) then 1 else 0
  {
    CallSettles(c);
    TraceIsPrefix(c);
    var n, k := c.fields, Reached(c);
    forall i | 0 <= i < k && FaultFree(n)[i].kind == InputAllocationCommitted ensures i == 2 { KindAt(n, i); }
    if k >= 3 { assert FaultFree(n)[..k][2] == Event(InputAllocationCommitted, None); }
  }

  lemma {:induction false} SecondaryIsReported(c: Case)
    requires c.recipe != 4
    ensures SecondaryReported(c, Outcome(c).secondary, Events(Outcome(c).trace))
  {
    CallSettles(c);
    PassedToReached(c);
    var n, k, trace := c.fields, Reached(c), Outcome(c).trace;
    assert trace == Numbered(FaultFree(n)[..k] + ForcedSeq(c));
    if Forced(c) == None {
      assert trace[|trace| - 1].event == EventAt(n, k - 1);
      ReleaseWithoutForce(n, k);
    } else {
      assert trace[|trace| - 1].event == Forced(c).value;
    }
  }

  lemma {:induction false} PassedToReached(c: Case)
    ensures var k := Reached(c);
            k > 0 && Passed(c, k - 1) && (Passed(c, k) <==> FirstFailure(c) == None)
  {
    var n, k := c.fields, Reached(c);
    EventsFail(c);
    assert Gate(c, ScriptOf(n), 7 + 2 * n) == if c.legacy == 3 then Some(ExecutionFailed(3)) else None;
    assert Gate(c, ScriptOf(n), 14 + 4 * n) != None <==> c.exportMutation != 0;
    assert k > 0;
    assert Stop(c) < k ==> Fails(c, FaultFree(n)[k - 1]);
    hide EventAt, FaultFree;
  }

  lemma {:induction false} ReleaseWithoutForce(n: nat, k: nat)
    requires 0 < k <= 4 * n + 15 && LiveAt(n, k) == None
    ensures EventAt(n, k - 1).kind in {InputRelease, ResultRelease} ==> k == 8 + 2 * n
  {
    KindAt(n, k - 1);
  }

  // --- The reported expectation ---

  datatype Summary = Summary(
    accepted: bool, primary: Option<Primary>, secondary: seq<nat>, endpointCalls: nat,
    peakAllocations: nat, peakBytes: nat, zeroedBytes: nat, retainedPages: nat,
    releaseOrder: seq<Owner>, trace: seq<Recorded>)

  const PAGE := 65536

  function Summarise(r: Run, length: nat): Summary {
    Summary(r.primary == None, r.primary, r.secondary, r.endpointCalls, r.peak, if r.peak > 0 then length else 0,
            length * |r.releases|, if r.peak > 0 && length > PAGE then (length + PAGE - 1) / PAGE else 1,
            r.releases, r.trace)
  }

  /** The trace of a call in which nothing fails, written out. */
  ghost predicate WrittenOut(trace: seq<Event>, n: nat) {
    && |trace| == 4 * n + 16
    && trace[..7] == [
         Event(InputValidated, None), Event(InputAllocationStarted, None), Event(InputAllocationCommitted, None),
         Event(InputPayloadCopied, None), Event(InputPrepared, None), Event(InputTransferPending, None),
         Event(InputTransferCommitted, None)]
    && (forall leaf | 0 <= leaf < n ::
          trace[7 + 2 * leaf..9 + 2 * leaf]
          == [Event(EndpointStarted, Some(leaf)), Event(EndpointFinished, Some(leaf))])
    && trace[7 + 2 * n..10 + 2 * n] == [
         Event(InputRelease, None), Event(ResultAllocationStarted, None), Event(ResultAllocationCommitted, None)]
    && (forall leaf | 0 <= leaf < n ::
          trace[10 + 2 * n + 2 * leaf..12 + 2 * n + 2 * leaf]
          == [Event(ResultLeafCopyStarted, Some(leaf)), Event(ResultLeafCopied, Some(leaf))])
    && trace[10 + 4 * n..] == [
         Event(ResultPrepared, None), Event(ResultCommitPending, None), Event(ResultCommitted, None),
         Event(ExportPending, None), Event(ExportCopied, None), Event(ResultRelease, None)]
  }

  lemma {:induction false} PairsWrittenOut(n: nat, leaf: nat)
    requires leaf < n
    ensures FaultFree(n)[7 + 2 * leaf..9 + 2 * leaf]
         == [Event(EndpointStarted, Some(leaf)), Event(EndpointFinished, Some(leaf))]
    ensures FaultFree(n)[10 + 2 * n + 2 * leaf..12 + 2 * n + 2 * leaf]
         == [Event(ResultLeafCopyStarted, Some(leaf)), Event(ResultLeafCopied, Some(leaf))]
  {
    CallEvents(n, leaf);
    CopyEvents(n, leaf);
    hide EventAt;
  }

  lemma {:induction false} FixedWrittenOut(n: nat)
    ensures |FaultFree(n)| == 4 * n + 16
    ensures FaultFree(n)[..7] == [
              Event(InputValidated, None), Event(InputAllocationStarted, None), Event(InputAllocationCommitted, None),
              Event(InputPayloadCopied, None), Event(InputPrepared, None), Event(InputTransferPending, None),
              Event(InputTransferCommitted, None)]
    ensures FaultFree(n)[7 + 2 * n..10 + 2 * n] == [
              Event(InputRelease, None), Event(ResultAllocationStarted, None), Event(ResultAllocationCommitted, None)]
    ensures FaultFree(n)[10 + 4 * n..] == [
              Event(ResultPrepared, None), Event(ResultCommitPending, None), Event(ResultCommitted, None),
              Event(ExportPending, None), Event(ExportCopied, None), Event(ResultRelease, None)]
  {}

  lemma {:induction false} FaultFreeWrittenOut(n: nat)
    ensures WrittenOut(FaultFree(n), n)
  {
    hide FaultFree;
    FixedWrittenOut(n);
    forall leaf: nat | leaf < n { PairsWrittenOut(n, leaf); }
  }

  /** The trace of a call: how far it got, and the release of what was live then. */
  ghost predicate TraceReported(c: Case, events: seq<Event>) {
    forall k: nat | 0 < k <= 4 * c.fields + 16 && Passed(c, k - 1) && (k < 4 * c.fields + 16 ==> !Passed(c, k)) ::
      && Scan(FaultFree(c.fields)[..k]).Some?
      && events == FaultFree(c.fields)[..k]
                   + match Scan(FaultFree(c.fields)[..k]).value
                     case None => []
                     case Some(InputOwner) => [Event(InputRelease, None)]
                     case Some(ResultOwner) => [Event(ResultRelease, None)]
  }

  /** The primary failure, for each way in which a call can fail first. */
  ghost predicate PrimaryReported(c: Case, primary: Option<Primary>) {
    && (primary == None <==> Undisturbed(c, 4 * c.fields + 16) && c.legacy != 3 && c.exportMutation == 0)
    && (forall k: nat | k < 4 * c.fields + 16 && Passed(c, k) && FaultFree(c.fields)[k] in c.injections ::
          primary == Some(match FaultFree(c.fields)[k].kind
                          case InputRelease => ReleaseFailed(11)
                          case ResultRelease => ReleaseFailed(11)
                          case InputAllocationStarted => ExecutionFailed(10)
                          case InputAllocationCommitted => ExecutionFailed(10)
                          case ResultAllocationStarted => ExecutionFailed(10)
                          case ResultAllocationCommitted => ExecutionFailed(10)
                          case _ => ExecutionFailed(11)))
    && (forall k: nat | k < 4 * c.fields + 15 && Passed(c, k) && Fails(c, FaultFree(c.fields)[k])
                        && FaultFree(c.fields)[k] !in c.injections ::
          primary == Some(ExecutionFailed(c.legacy)))
    && (c.legacy == 3 && Undisturbed(c, 7 + 2 * c.fields) ==> primary == Some(ExecutionFailed(3)))
    && (c.legacy != 3 && c.exportMutation != 0 && Undisturbed(c, 14 + 4 * c.fields) ==>
          primary == Some(match c.exportMutation
                          case 1 => ResultRejected("carrier-framing")
                          case 2 => ResultRejected("carrier-count")
                          case 5 => ResultRejected("carrier-framing")
                          case 6 => ResultRejected("carrier-trailing")
                          case _ => CapacityExceeded("leaf-bytes")))
  }

  /** What was held, zeroed and retained, by the commits and releases of the trace. */
  ghost predicate ResourcesReported(s: Summary, events: seq<Event>, length: nat) {
    var committed := Event(InputAllocationCommitted, None) in events;
    && s.peakAllocations == (if committed then 1 else 0) && s.peakBytes == (if committed then length else 0)
    && (if committed && length > 65536 then (s.retainedPages - 1) * 65536 < length <= s.retainedPages * 65536
        else s.retainedPages == 1)
    && s.releaseOrder == (if Event(InputRelease, None) in events then [InputOwner] else [])
                         + (if Event(ResultRelease, None) in events then [ResultOwner] else [])
    && s.zeroedBytes == length * |s.releaseOrder|
  }

  /** Which endpoint calls are counted: those whose start is in the trace and was not made to fail. */
  ghost predicate CallsReported(c: Case, calls: nat, events: seq<Event>) {
    && calls <= c.fields
    && (forall leaf: nat | leaf < c.fields ::
          leaf < calls <==> Event(EndpointStarted, Some(leaf)) in events
                            && Event(EndpointStarted, Some(leaf)) !in c.injections)
  }

  /** A second failure is a forced release that fails behind an earlier failure. */
  ghost predicate SecondaryReported(c: Case, secondary: seq<nat>, events: seq<Event>) {
    && 0 < |events| <= 4 * c.fields + 16
    && secondary == if events[|events| - 1] in c.injections
                       && events[|events| - 1].kind in {InputRelease, ResultRelease}
                       && !Passed(c, |events| - 1) then [11] else []
  }

  /** Everything `expected` reports, by the case and the carrier's length. */
  ghost predicate Reported(c: Case, s: Summary, length: nat) {
    var events := Events(s.trace);
    && (forall i | 0 <= i < |s.trace| :: s.trace[i].ordinal == i) && (s.accepted <==> s.primary == None)
    && ResourcesReported(s, events, length)
    && if c.recipe == 4 then
         s.primary == Some(CapacityExceeded("leaf-bytes")) && s.secondary == [] && s.endpointCalls == 0 && events == []
       else
         && TraceReported(c, events) && PrimaryReported(c, s.primary)
         && CallsReported(c, s.endpointCalls, events) && SecondaryReported(c, s.secondary, events)
  }

  lemma {:induction false} PrimaryIsReported(c: Case)
    requires c.recipe != 4
    ensures PrimaryReported(c, Outcome(c).primary)
  {
    hide Outcome, Passed, Undisturbed, Fails, EventAt;
    NoPrimary(c);
    GatePrimary(c);
    forall k: nat | k < 4 * c.fields + 16 && Passed(c, k) && FaultFree(c.fields)[k] in c.injections {
      InjectedPrimary(c, k);
    }
    forall k: nat | k < 4 * c.fields + 15 && Passed(c, k) && Fails(c, FaultFree(c.fields)[k])
                    && FaultFree(c.fields)[k] !in c.injections {
      LegacyPrimary(c, k);
    }
    if c.legacy != 3 && c.exportMutation != 0 && Undisturbed(c, 14 + 4 * c.fields) { ExportPrimary(c); }
  }

  lemma {:induction false} ReleasesAreReported(c: Case)
    ensures Outcome(c).releases
         == (if Event(InputRelease, None) in Events(Outcome(c).trace) then [InputOwner] else [])
            + (if Event(ResultRelease, None) in Events(Outcome(c).trace) then [ResultOwner] else [])
  {
    if c.recipe != 4 {
      CallSettles(c);
      TraceIsPrefix(c);
      ReleasesStand(c.fields, Reached(c));
    }
  }

  lemma {:induction false} ReleasesStand(n: nat, k: nat)
    requires k <= 4 * n + 16
    ensures Event(InputRelease, None) in FaultFree(n)[..k] <==> 8 + 2 * n <= k
    ensures Event(ResultRelease, None) in FaultFree(n)[..k] <==> 4 * n + 16 == k
  {
    forall i | 0 <= i < k && FaultFree(n)[i] == Event(InputRelease, None) ensures i == 7 + 2 * n { KindAt(n, i); }
    forall i | 0 <= i < k && FaultFree(n)[i] == Event(ResultRelease, None) ensures i == 15 + 4 * n { KindAt(n, i); }
    if 8 + 2 * n <= k { assert FaultFree(n)[..k][7 + 2 * n] == Event(InputRelease, None); }
    if 4 * n + 16 == k { assert FaultFree(n)[..k][15 + 4 * n] == Event(ResultRelease, None); }
  }

  lemma {:induction false} ResourcesAreReported(c: Case, length: nat)
    ensures ResourcesReported(Summarise(Outcome(c), length), Events(Outcome(c).trace), length)
  {
    ReleasesAreReported(c);
    if c.recipe == 4 {
      assert Events(Outcome(c).trace) == [];
    } else {
      PeakIsCommit(c);
      hide Outcome, Events;
    }
  }

  lemma {:induction false} TraceIsReported(c: Case)
    requires c.recipe != 4
    ensures TraceReported(c, Events(Outcome(c).trace))
  {
    hide Outcome, Passed, Events, Scan, EventAt;
    forall k: nat | 0 < k <= 4 * c.fields + 16 && Passed(c, k - 1) && (k < 4 * c.fields + 16 ==> !Passed(c, k)) {
      TraceEndsBehind(c, k);
    }
  }

  lemma {:induction false} SummaryIsReported(c: Case, length: nat)
    ensures Reported(c, Summarise(Outcome(c), length), length)
  {
    ResourcesAreReported(c, length);
    TraceIsPrefix(c);
    if c.recipe != 4 {
      PrimaryIsReported(c);
      TraceIsReported(c);
      SecondaryIsReported(c);
      CallsAreReported(c);
      hide Outcome, PrimaryReported, TraceReported, ResourcesReported, CallsReported, SecondaryReported;
    }
  }

  /** `expected`: a case outside the carrier's domain is refused, every other one is performed. */
  method Expected(c: Case) returns (r: Common.Result<Summary, Carriers.Refusal>)
    ensures r.Ok? <==> 1 <= c.fields <= 256 && c.recipe <= 4
    ensures r.Ok? ==> r.value == Summarise(Outcome(c), Carriers.CarrierLength(c.fields, c.recipe))
    ensures r.Ok? ==> Reported(c, r.value, Carriers.CarrierLength(c.fields, c.recipe))
  {
    SummaryIsReported(c, Carriers.CarrierLength(c.fields, c.recipe));
    hide Reported;
    var carrier := Carriers.Carrier(c.fields, c.recipe, false);
    if carrier.Err? {
      return Err(carrier.error);
    }
    var call := new Call(c);
    call.Perform();
    return Ok(Summarise(
      Run(call.live, call.peak, call.primary, call.endpointCalls, call.trace, call.releases, call.secondary,
          call.remaining),
      |carrier.value|));
  }

  /**
   * What a reported call can have used: one allocation at a time, no more than the 257 pages
   * the endpoint module may have, and every released byte zeroed once.
   */
  lemma {:induction false} ResourcesAreBounded(c: Case)
    requires 1 <= c.fields <= 256 && c.recipe <= 4
    ensures var length := Carriers.CarrierLength(c.fields, c.recipe);
            var s := Summarise(Outcome(c), length);
            && s.peakAllocations <= 1 && s.peakBytes <= 16779272
            && 1 <= s.retainedPages <= 257 && s.peakBytes <= s.retainedPages * PAGE
            && s.zeroedBytes == length * |s.releaseOrder| <= 2 * length
            && (s.peakAllocations == 0 <==> s.releaseOrder == [])
            && (s.accepted ==> s.zeroedBytes == 2 * length && s.endpointCalls == c.fields)
  {
    Carriers.CarrierBound(c.fields, c.recipe, false);
    EveryCallSettles(c);
    if c.recipe != 4 { CallSettles(c); }
    if Outcome(c).primary == None { AcceptedCallIsComplete(c); }
    SummaryBounds(Outcome(c), Carriers.CarrierLength(c.fields, c.recipe));
  }

  lemma {:induction false} SummaryBounds(r: Run, length: nat)
    requires length <= 16779272 && r.peak <= 1 && |r.releases| <= 2
    ensures var s := Summarise(r, length);
            && s.peakAllocations <= 1 && s.peakBytes <= 16779272
            && 1 <= s.retainedPages <= 257 && s.peakBytes <= s.retainedPages * PAGE
            && s.zeroedBytes == length * |s.releaseOrder| <= 2 * length
            && (|r.releases| == 2 ==> s.zeroedBytes == 2 * length)
  {
    assert |r.releases| == 0 || |r.releases| == 1 || |r.releases| == 2;
  }
}
