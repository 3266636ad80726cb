/**
 * Recognisers for recorded method transcripts: a successful workflow is two fixed method
 * lists with some methods repeated; a hostile one is a fixed list of contiguous cases.
 */
module Transcripts {
  import opened Common
  import opened Sequences

  // --- Runs of equal items ---

  function Times<T>(item: T, count: nat): seq<T> { seq(count, _ => item) }

  /** Each item as often in a row as its count says. */
  function Runs<T>(items: seq<T>, counts: seq<nat>): seq<T>
    requires |items| == |counts|
  {
    if items == [] then []
    else Runs(items[..|items| - 1], counts[..|items| - 1]) + Times(items[|items| - 1], counts[|items| - 1])
  }

  /** Equal neighbours merged into one. */
  function Compress<T(==)>(s: seq<T>): seq<T> {
    if s == [] then []
    else
      var before, last := Compress(s[..|s| - 1]), s[|s| - 1];
      if before != [] && before[|before| - 1] == last then before else before + [last]
  }

  /** How long each of the merged runs is. */
  function RunCounts<T(==)>(s: seq<T>): (counts: seq<nat>)
    ensures |counts| == |Compress(s)|
  {
    if s == [] then []
    else
      var init := s[..|s| - 1];
      var before, counts := Compress(init), RunCounts(init);
      if before != [] && before[|before| - 1] == s[|s| - 1]
      then counts[..|counts| - 1] + [counts[|counts| - 1] + 1] else counts + [1]
  }

  /** No two neighbours are equal. */
  predicate Separate<T(==)>(items: seq<T>) {
    |items| <= 1
    || (Separate(items[..|items| - 1]) && items[|items| - 1] != items[|items| - 2])
  }

  predicate Positive(counts: seq<nat>) { 0 !in counts }

  /** Only repeatable items come more than once in a row. */
  predicate Sparing<T(==)>(items: seq<T>, counts: seq<nat>, repeatable: set<T>)
    requires |items| == |counts|
  {
    forall i | 0 <= i < |items| :: counts[i] > 1 ==> items[i] in repeatable
  }

  /** Equal neighbours are repeatable. */
  predicate Lawful<T(==)>(s: seq<T>, repeatable: set<T>) {
    |s| <= 1
    || (Lawful(s[..|s| - 1], repeatable) && (s[|s| - 1] == s[|s| - 2] ==> s[|s| - 1] in repeatable))
  }

  lemma {:induction false} RunsLonger<T>(items: seq<T>, counts: seq<nat>)
    requires |items| == |counts| > 0
    ensures var n := |items| - 1;
            Runs(items, counts[..n] + [counts[n] + 1]) == Runs(items, counts) + [items[n]]
  {
    var n := |items| - 1;
    var more := counts[..n] + [counts[n] + 1];
    assert more[..n] == counts[..n];
    assert Times(items[n], counts[n] + 1) == Times(items[n], counts[n]) + [items[n]];
  }

  lemma {:induction false} RunsNew<T>(items: seq<T>, counts: seq<nat>, item: T)
    requires |items| == |counts|
    ensures Runs(items + [item], counts + [1]) == Runs(items, counts) + [item]
  {
    assert (items + [item])[..|items|] == items && (counts + [1])[..|counts|] == counts;
    assert Times(item, 1) == [item];
  }

  /** Compressing ends with the last item, and leaves no equal neighbours. */
  lemma {:induction false} CompressedIsSeparate<T>(s: seq<T>)
    ensures Separate(Compress(s))
    ensures s != [] ==> Compress(s) != [] && Compress(s)[|Compress(s)| - 1] == s[|s| - 1]
  {
    if s != [] {
      CompressedIsSeparate(s[..|s| - 1]);
      var items := Compress(s[..|s| - 1]);
      assert (items + [s[|s| - 1]])[..|items|] == items;
    }
  }

  /** The merged items and their counts behind one more item: a longer last run, or a new one. */
  function NextItems<T(==)>(items: seq<T>, last: T): seq<T> {
    if items != [] && items[|items| - 1] == last then items else items + [last]
  }

  function NextCounts<T(==)>(items: seq<T>, counts: seq<nat>, last: T): (next: seq<nat>)
    requires |items| == |counts|
    ensures |next| == |NextItems(items, last)|
  {
    if items != [] && items[|items| - 1] == last then
      counts[..|items| - 1] + [counts[|items| - 1] + 1]
    else counts + [1]
  }

  lemma {:induction false} CompressLast<T>(init: seq<T>, last: T)
    ensures Compress(init + [last]) == NextItems(Compress(init), last)
    ensures RunCounts(init + [last]) == NextCounts(Compress(init), RunCounts(init), last)
  {
    assert (init + [last])[..|init|] == init;
  }

  lemma {:induction false} RunsGain<T>(items: seq<T>, counts: seq<nat>, last: T)
    requires |items| == |counts| && Positive(counts)
    ensures Runs(NextItems(items, last), NextCounts(items, counts, last)) == Runs(items, counts) + [last]
    ensures Positive(NextCounts(items, counts, last))
  {
    if items != [] && items[|items| - 1] == last {
      RunsLonger(items, counts);
    } else {
      RunsNew(items, counts, last);
    }
  }

  /** Every sequence is the runs of its compressed form. */
  lemma {:induction false} RunsOfCompressed<T>(s: seq<T>)
    ensures Runs(Compress(s), RunCounts(s)) == s && Positive(RunCounts(s))
  {
    hide Compress, RunCounts, Runs, Positive, NextItems, NextCounts;
    if s == [] {
      NothingRuns(s);
    } else {
      var init, last := s[..|s| - 1], s[|s| - 1];
      RunsOfCompressed(init);
      CompressLast(init, last);
      RunsGain(Compress(init), RunCounts(init), last);
      assert s == init + [last];
    }
  }

  lemma {:induction false} NothingRuns<T>(s: seq<T>)
    requires s == []
    ensures Runs(Compress(s), RunCounts(s)) == s && Positive(RunCounts(s))
  {}

  lemma {:induction false} CompressTimes<T>(before: seq<T>, item: T, count: nat)
    requires count > 0 && (before != [] ==> before[|before| - 1] != item)
    ensures Compress(before + Times(item, count)) == Compress(before) + [item]
    decreases count
  {
    var s := before + Times(item, count);
    assert s[..|s| - 1] == before + Times(item, count - 1);
    CompressedIsSeparate(before);
    if count == 1 {
      assert before + Times(item, 0) == before;
    } else {
      CompressTimes(before, item, count - 1);
    }
  }

  /** Compressing runs of separate items gives the items back, whatever the counts. */
  lemma {:induction false} CompressInvertsRuns<T>(items: seq<T>, counts: seq<nat>)
    requires |items| == |counts| && Separate(items) && Positive(counts)
    ensures Compress(Runs(items, counts)) == items
    ensures items != [] ==>
              Runs(items, counts) != [] && Runs(items, counts)[|Runs(items, counts)| - 1] == items[|items| - 1]
  {
    if items != [] {
      var n := |items| - 1;
      CompressInvertsRuns(items[..n], counts[..n]);
      CompressTimes(Runs(items[..n], counts[..n]), items[n], counts[n]);
      assert items == items[..n] + [items[n]];
    }
  }

  lemma {:induction false} LawfulTimes<T>(before: seq<T>, item: T, count: nat, repeatable: set<T>)
    requires count > 0 && (before != [] ==> before[|before| - 1] != item)
    ensures Lawful(before + Times(item, count), repeatable)
       <==> Lawful(before, repeatable) && (count > 1 ==> item in repeatable)
    decreases count
  {
    var s := before + Times(item, count);
    assert s[..|s| - 1] == before + Times(item, count - 1);
    if count == 1 {
      assert before + Times(item, 0) == before;
    } else {
      LawfulTimes(before, item, count - 1, repeatable);
    }
  }

  /** No unlawful repetition means no unlawful count. */
  lemma {:induction false} LawfulRuns<T>(items: seq<T>, counts: seq<nat>, repeatable: set<T>)
    requires |items| == |counts| && Separate(items) && Positive(counts)
    ensures Lawful(Runs(items, counts), repeatable) <==> Sparing(items, counts, repeatable)
  {
    if items != [] {
      var n := |items| - 1;
      LawfulRuns(items[..n], counts[..n], repeatable);
      CompressInvertsRuns(items[..n], counts[..n]);
      LawfulTimes(Runs(items[..n], counts[..n]), items[n], counts[n], repeatable);
    }
  }

  /** The list with every item once, or more often in a row where that is allowed. */
  ghost predicate Follows<T>(s: seq<T>, items: seq<T>, repeatable: set<T>) {
    exists counts: seq<nat> | |counts| == |items| ::
      Positive(counts) && Sparing(items, counts, repeatable) && s == Runs(items, counts)
  }

  lemma {:induction false} FollowsExactlyWhen<T>(s: seq<T>, items: seq<T>, repeatable: set<T>)
    requires Separate(items)
    ensures Follows(s, items, repeatable) <==> Lawful(s, repeatable) && Compress(s) == items
  {
    if Follows(s, items, repeatable) {
      var counts: seq<nat> :| |counts| == |items| && Positive(counts) && Sparing(items, counts, repeatable)
                              && s == Runs(items, counts);
      CompressInvertsRuns(items, counts);
      LawfulRuns(items, counts, repeatable);
    }
    if Lawful(s, repeatable) && Compress(s) == items {
      RunsOfCompressed(s);
      CompressedIsSeparate(s);
      LawfulRuns(items, RunCounts(s), repeatable);
    }
  }

  lemma {:induction false} LawfulPrefix<T>(s: seq<T>, k: nat, repeatable: set<T>)
    requires k <= |s| && Lawful(s, repeatable)
    ensures Lawful(s[..k], repeatable)
    decreases |s|
  {
    if k < |s| {
      LawfulPrefix(s[..|s| - 1], k, repeatable);
      assert s[..|s| - 1][..k] == s[..k];
    } else {
      assert s[..k] == s;
    }
  }

  // --- Recorded lines ---

  /** One request and response; `group` is the phase or the hostile case it belongs to. */
  datatype Line = Line(group: string, sequence: int, name: string, request: string, response: string,
                       requestDigest: string, responseDigest: string)

  datatype Refusal =
    | Empty | InvalidSequence | InvalidMethod | DigestMismatch | NotContiguous
    | UnknownPhase | PhaseOrder | UnexpectedRepeat | MethodSequence | UnknownCase | CaseOrder

  /** `validate_line_binding`, apart from the JSON types; `digest` is the hash of a line. */
  predicate Bound(line: Line, digest: string -> string) {
    line.sequence > 0 && line.name != [] && line.requestDigest == digest(line.request)
    && line.responseDigest == digest(line.response)
  }

  function Binding(line: Line, digest: string -> string): (r: Result<(), Refusal>)
    ensures r.Ok? <==> Bound(line, digest)
  {
    if line.sequence <= 0 then Err(InvalidSequence)
    else if line.name == [] then Err(InvalidMethod)
    else if line.requestDigest != digest(line.request) || line.responseDigest != digest(line.response) then
      Err(DigestMismatch)
    else Ok(())
  }

  function Names(lines: seq<Line>): seq<string> { seq(|lines|, i requires 0 <= i < |lines| => lines[i].name) }

  // --- Successful workflows ---

  const REVIEW_METHODS: seq<string> := [
    "workspace/open", "image/function-reference-export", "image/function-reference-resolve", "image/analysis-coverage",
    "candidate/open", "candidate/apply-intent", "candidate/validate", "candidate/semantic-delta", "candidate/test-plan",
    "candidate/test", "candidate/source-review", "candidate/analysis-coverage", "candidate/recovery-export"]
  const PUBLISH_METHODS: seq<string> := [
    "workspace/open", "image/function-reference-resolve", "candidate/recovery-restore", "candidate/validate",
    "candidate/source-review", "source-commit/status", "candidate/commit", "source-commit/status",
    "candidate/commit-report"]
  const REPEATABLE: set<string> := {
    "candidate/semantic-delta", "candidate/source-review", "candidate/recovery-export", "candidate/commit-report"}

  lemma {:induction false} OneMoreMethod(methods: seq<string>, i: nat, repeatable: set<string>)
    requires i < |methods|
    ensures var items, last := Compress(methods[..i]), methods[i];
            var repeats := items != [] && items[|items| - 1] == last;
            && Compress(methods[..i + 1]) == (if repeats then items else items + [last])
            && (Lawful(methods[..i + 1], repeatable) <==>
                Lawful(methods[..i], repeatable) && (repeats ==> last in repeatable))
    ensures Lawful(methods, repeatable) ==> Lawful(methods[..i + 1], repeatable)
  {
    assert methods[..i + 1][..i] == methods[..i];
    CompressedIsSeparate(methods[..i]);
    if Lawful(methods, repeatable) { LawfulPrefix(methods, i + 1, repeatable); }
  }

  /** One phase's methods with repetitions merged; refuses an unlawful repetition. */
  method MergeRepetitions(methods: seq<string>, repeatable: set<string>) returns (r: Result<seq<string>, Refusal>)
    ensures r == if Lawful(methods, repeatable) then Ok(Compress(methods)) else Err(UnexpectedRepeat)
  {
    var compressed: seq<string> := [];
    assert Compress(methods[..0]) == [] && Lawful(methods[..0], repeatable);
    hide Compress, Lawful;
    for i := 0 to |methods|
      invariant compressed == Compress(methods[..i]) && Lawful(methods[..i], repeatable)
    {
      OneMoreMethod(methods, i, repeatable);
      if compressed != [] && compressed[|compressed| - 1] == methods[i] {
        if methods[i] !in repeatable {
          return Err(UnexpectedRepeat);
        }
      } else {
        compressed := compressed + [methods[i]];
      }
    }
    assert methods[..|methods|] == methods;
    return Ok(compressed);
  }

  /** One phase's methods: the expected list, with lawful repetitions only. */
  method CheckMethods(methods: seq<string>, expected: seq<string>, repeatable: set<string>)
    returns (r: Result<(), Refusal>)
    requires Separate(expected)
    ensures r.Ok? <==> Follows(methods, expected, repeatable)
  {
    FollowsExactlyWhen(methods, expected, repeatable);
    var compressed := MergeRepetitions(methods, repeatable);
    if compressed.Err? { return Err(compressed.error); }
    return if compressed.value == expected then Ok(()) else Err(MethodSequence);
  }

  /** The lines of a workflow: those of the review, numbered from 1, then those of the publication. */
  ghost predicate Workflow(lines: seq<Line>, review: nat, digest: string -> string, reviewMethods: seq<string>,
                           publishMethods: seq<string>, repeatable: set<string>)
  {
    && lines != [] && Phased(lines, review)
    && (forall i | 0 <= i < |lines| ::
          && lines[i].sequence == i + 1 && lines[i].name != ""
          && lines[i].requestDigest == digest(lines[i].request) && lines[i].responseDigest == digest(lines[i].response))
    && Follows(Names(lines[..review]), reviewMethods, repeatable)
    && Follows(Names(lines[review..]), publishMethods, repeatable)
  }

  ghost predicate Phased(lines: seq<Line>, review: nat) {
    review <= |lines| && forall i | 0 <= i < |lines| :: lines[i].group == if i < review then "review" else "publish"
  }

  /** The methods of each phase, when the review's lines all come first. */
  method SplitPhases(lines: seq<Line>) returns (r: Result<(seq<string>, seq<string>), Refusal>)
    ensures r.Ok? ==> var k := |r.value.0|;
              Phased(lines, k) && r.value.0 == Names(lines[..k]) && r.value.1 == Names(lines[k..])
    ensures r.Err? ==> forall k :: !Phased(lines, k)
  {
    var review: seq<string>, publish: seq<string> := [], [];
    ghost var early, late := 0, 0;
    var ordered := true;
    for i := 0 to |lines|
      invariant forall k | 0 <= k < i :: lines[k].group == "review" || lines[k].group == "publish"
      invariant ordered ==> |review| <= i && review == Names(lines[..|review|]) && publish == Names(lines[|review|..i])
      invariant ordered ==> forall k | 0 <= k < i :: lines[k].group == if k < |review| then "review" else "publish"
      invariant !ordered ==> 0 <= early < late < i && lines[early].group == "publish" && lines[late].group == "review"
    {
      if lines[i].group == "review" {
        if publish != [] && ordered {
          ordered, early, late := false, i - 1, i;
        }
        assert ordered ==> |review| == i && lines[..i + 1] == lines[..i] + [lines[i]];
        review := review + [lines[i].name];
      } else if lines[i].group == "publish" {
        assert ordered ==> lines[|review|..i + 1] == lines[|review|..i] + [lines[i]];
        publish := publish + [lines[i].name];
      } else {
        return Err(UnknownPhase);
      }
    }
    if !ordered {
      return Err(PhaseOrder);
    }
    assert lines[|review|..|lines|] == lines[|review|..];
    return Ok((review, publish));
  }

  /** `validate_success_transcript`, for any two method lists without equal neighbours. */
  method ValidateSuccess(lines: seq<Line>, digest: string -> string, reviewMethods: seq<string>,
                         publishMethods: seq<string>, repeatable: set<string>)
    returns (r: Result<(), Refusal>)
    requires Separate(reviewMethods) && Separate(publishMethods)
    ensures r.Ok? <==> exists review :: Workflow(lines, review, digest, reviewMethods, publishMethods, repeatable)
  {
    if lines == [] {
      return Err(Empty);
    }
    for i := 0 to |lines|
      invariant forall k | 0 <= k < i :: Bound(lines[k], digest) && lines[k].sequence == k + 1
    {
      var binding := Binding(lines[i], digest);
      if binding.Err? {
        return binding;
      }
      if lines[i].sequence != i + 1 {
        return Err(NotContiguous);
      }
    }
    var phases := SplitPhases(lines);
    if phases.Err? {
      return Err(phases.error);
    }
    var (review, publish) := phases.value;
    forall k: nat | Phased(lines, k) ensures k == |review| {
      PhasesAreUnique(lines, k, |review|);
    }
    r := CheckMethods(review, reviewMethods, repeatable);
    if r.Ok? {
      r := CheckMethods(publish, publishMethods, repeatable);
      assert r.Ok? ==> Workflow(lines, |review|, digest, reviewMethods, publishMethods, repeatable);
    }
  }

  /** The same for the recorded lists. */
  method ValidateRecordedSuccess(lines: seq<Line>, digest: string -> string) returns (r: Result<(), Refusal>)
    ensures r.Ok? <==> exists review :: Workflow(lines, review, digest, REVIEW_METHODS, PUBLISH_METHODS, REPEATABLE)
  {
    RecordedListsAreSeparate();
    r := ValidateSuccess(lines, digest, REVIEW_METHODS, PUBLISH_METHODS, REPEATABLE);
  }

  lemma {:induction false} PhasesAreUnique(lines: seq<Line>, a: nat, b: nat)
    requires Phased(lines, a) && Phased(lines, b)
    ensures a == b
  {
    assert |"review"| != |"publish"|;
    assert a < |lines| ==> lines[a].group == "publish";
    assert b < |lines| ==> lines[b].group == "publish";
  }

  lemma {:induction false} SeparateByLength(items: seq<string>)
    requires forall i, j | 0 <= i < j < |items| && j == i + 1 :: |items[i]| != |items[j]|
    ensures Separate(items)
  {
    if |items| > 1 { SeparateByLength(items[..|items| - 1]); }
  }

  lemma {:induction false} RecordedListsAreSeparate()
    ensures Separate(REVIEW_METHODS) && Separate(PUBLISH_METHODS)
  {
    SeparateByLength(REVIEW_METHODS);
    SeparateByLength(PUBLISH_METHODS);
  }

  // --- Hostile cases ---

  /** The case and the number of a line. */
  function Labels(lines: seq<Line>): seq<(string, int)> {
    seq(|lines|, i requires 0 <= i < |lines| => (lines[i].group, lines[i].sequence))
  }

  function NumberedTimes(item: string, count: nat): seq<(string, int)> {
    seq(count, j requires 0 <= j => (item, j + 1))
  }

  /** One block for each item, in order, each numbered from 1. */
  function Blocks(items: seq<string>, counts: seq<nat>): seq<(string, int)>
    requires |items| == |counts|
  {
    if items == [] then []
    else Blocks(items[..|items| - 1], counts[..|items| - 1]) + NumberedTimes(items[|items| - 1], counts[|items| - 1])
  }

  function Firsts(labels: seq<(string, int)>): seq<string> {
    seq(|labels|, i requires 0 <= i < |labels| => labels[i].0)
  }

  function Occurrences<T(==)>(s: seq<T>, x: T): nat {
    if s == [] then 0 else Occurrences(s[..|s| - 1], x) + (if s[|s| - 1] == x then 1 else 0)
  }

  /** Each label's number is how often its item has come up so far. */
  predicate Tallied(labels: seq<(string, int)>) {
    labels == []
    || (var init, last := labels[..|labels| - 1], labels[|labels| - 1];
        Tallied(init) && last.1 == 1 + Occurrences(Firsts(init), last.0))
  }

  /** The last run without its last item. */
  function Shorter(items: seq<string>, counts: seq<nat>): (r: (seq<string>, seq<nat>))
    requires |items| == |counts| > 0 && Positive(counts)
    ensures |r.0| == |r.1|
  {
    var n := |items| - 1;
    if counts[n] == 1 then (items[..n], counts[..n]) else (items, counts[..n] + [counts[n] - 1])
  }

  lemma {:induction false} ShorterRuns(items: seq<string>, counts: seq<nat>)
    requires |items| == |counts| > 0 && Positive(counts)
    ensures var (i, c) := Shorter(items, counts);
            && Positive(c)
            && Runs(items, counts) == Runs(i, c) + [items[|items| - 1]]
            && Blocks(items, counts) == Blocks(i, c) + [(items[|items| - 1], counts[|items| - 1])]
  {
    var n := |items| - 1;
    var item, count := items[n], counts[n];
    assert Times(item, count) == Times(item, count - 1) + [item];
    assert NumberedTimes(item, count) == NumberedTimes(item, count - 1) + [(item, count)];
    if count > 1 {
      var c := counts[..n] + [count - 1];
      assert c[..n] == counts[..n];
    }
  }

  lemma {:induction false} OccurrencesInRuns(items: seq<string>, counts: seq<nat>, x: string)
    requires |items| == |counts| && Distinct(items) && Positive(counts)
    ensures x !in items ==> Occurrences(Runs(items, counts), x) == 0
    ensures items != [] && x == items[|items| - 1] ==> Occurrences(Runs(items, counts), x) == counts[|counts| - 1]
    decreases Total(counts)
  {
    if items != [] {
      var (i, c) := Shorter(items, counts);
      ShorterRuns(items, counts);
      ShorterTotal(items, counts);
      OccurrencesInRuns(i, c, x);
      OccurrencesGain(Runs(i, c), items[|items| - 1], x);
    }
  }

  lemma {:induction false} OccurrencesGain(s: seq<string>, last: string, x: string)
    ensures Occurrences(s + [last], x) == Occurrences(s, x) + if last == x then 1 else 0
  {
    assert (s + [last])[..|s|] == s;
  }

  function Total(counts: seq<nat>): nat {
    if counts == [] then 0 else Total(counts[..|counts| - 1]) + counts[|counts| - 1]
  }

  lemma {:induction false} ShorterTotal(items: seq<string>, counts: seq<nat>)
    requires |items| == |counts| > 0 && Positive(counts)
    ensures Total(Shorter(items, counts).1) < Total(counts)
  {
    var n := |items| - 1;
    assert (counts[..n] + [counts[n] - 1])[..n] == counts[..n];
  }

  /** Labels whose items come in runs are tallied exactly when each run is numbered from 1. */
  lemma {:induction false} TalliedExactlyWhen(labels: seq<(string, int)>, items: seq<string>, counts: seq<nat>)
    requires |items| == |counts| && Distinct(items) && Positive(counts)
    requires Firsts(labels) == Runs(items, counts)
    ensures Tallied(labels) <==> labels == Blocks(items, counts)
    decreases Total(counts)
  {
    if items == [] {
      assert |labels| == |Firsts(labels)| == 0;
    } else {
      var n := |items| - 1;
      var (i, c) := Shorter(items, counts);
      ShorterRuns(items, counts);
      ShorterTotal(items, counts);
      FirstsSplit(labels, Runs(i, c), items[n]);
      var init, last := labels[..|labels| - 1], labels[|labels| - 1];
      TalliedExactlyWhen(init, i, c);
      OccurrencesOfLast(items, counts);
      LastEqual(init, last, Blocks(i, c), (items[n], counts[n]));
      assert labels == init + [last];
    }
  }

  lemma {:induction false} FirstsSplit(labels: seq<(string, int)>, before: seq<string>, x: string)
    requires Firsts(labels) == before + [x]
    ensures labels != [] && Firsts(labels[..|labels| - 1]) == before && labels[|labels| - 1].0 == x
  {
    assert |labels| == |Firsts(labels)| == |before| + 1;
    assert labels[|labels| - 1].0 == Firsts(labels)[|before|];
    forall k | 0 <= k < |before| ensures labels[k].0 == before[k] { assert Firsts(labels)[k] == before[k]; }
  }

  lemma {:induction false} LastEqual<T>(a: seq<T>, x: T, b: seq<T>, y: T)
    ensures a + [x] == b + [y] <==> a == b && x == y
  {
    if a + [x] == b + [y] {
      assert (a + [x])[|a|] == x && (b + [y])[|b|] == y;
      assert a == (a + [x])[..|a|] && b == (b + [y])[..|b|];
    }
  }

  lemma {:induction false} OccurrencesOfLast(items: seq<string>, counts: seq<nat>)
    requires |items| == |counts| > 0 && Distinct(items) && Positive(counts)
    ensures var (i, c) := Shorter(items, counts);
            1 + Occurrences(Runs(i, c), items[|items| - 1]) == counts[|counts| - 1]
  {
    var (i, c) := Shorter(items, counts);
    ShorterRuns(items, counts);
    OccurrencesInRuns(items, counts, items[|items| - 1]);
    assert Runs(items, counts)[..|Runs(i, c)|] == Runs(i, c);
  }

  lemma {:induction false} BlockFirsts(items: seq<string>, counts: seq<nat>)
    requires |items| == |counts|
    ensures Firsts(Blocks(items, counts)) == Runs(items, counts)
  {
    if items != [] {
      var n := |items| - 1;
      BlockFirsts(items[..n], counts[..n]);
      var front, back := Blocks(items[..n], counts[..n]), NumberedTimes(items[n], counts[n]);
      assert Firsts(back) == Times(items[n], counts[n]);
      assert Firsts(front + back) == Firsts(front) + Firsts(back);
    }
  }

  lemma {:induction false} DistinctIsSeparate(items: seq<string>)
    requires Distinct(items)
    ensures Separate(items)
  {
    if |items| > 1 { DistinctIsSeparate(items[..|items| - 1]); }
  }

  ghost predicate InBlocks(labels: seq<(string, int)>, cases: seq<string>) {
    exists counts: seq<nat> | |counts| == |cases| :: Positive(counts) && labels == Blocks(cases, counts)
  }

  lemma {:induction false} BlocksExactlyWhen(labels: seq<(string, int)>, cases: seq<string>)
    requires Distinct(cases)
    ensures InBlocks(labels, cases) <==> Tallied(labels) && Compress(Firsts(labels)) == cases
  {
    DistinctIsSeparate(cases);
    if InBlocks(labels, cases) {
      var counts: seq<nat> :| |counts| == |cases| && Positive(counts) && labels == Blocks(cases, counts);
      BlockFirsts(cases, counts);
      CompressInvertsRuns(cases, counts);
      TalliedExactlyWhen(labels, cases, counts);
    }
    if Tallied(labels) && Compress(Firsts(labels)) == cases {
      RunsOfCompressed(Firsts(labels));
      TalliedExactlyWhen(labels, cases, RunCounts(Firsts(labels)));
    }
  }

  lemma {:induction false} TalliedPrefix(labels: seq<(string, int)>, k: nat)
    requires k <= |labels| && Tallied(labels)
    ensures Tallied(labels[..k])
    decreases |labels|
  {
    if k < |labels| {
      TalliedPrefix(labels[..|labels| - 1], k);
      assert labels[..|labels| - 1][..k] == labels[..k];
    } else {
      assert labels[..k] == labels;
    }
  }

  ghost predicate Contiguous(lines: seq<Line>, cases: seq<string>, digest: string -> string) {
    && (forall i | 0 <= i < |lines| ::
          && lines[i].name != ""
          && lines[i].requestDigest == digest(lines[i].request) && lines[i].responseDigest == digest(lines[i].response))
    && InBlocks(Labels(lines), cases)
  }

  /** What the first i labels have left in the two accumulators. */
  ghost predicate Counted(labels: seq<(string, int)>, i: nat, observed: seq<string>, sequences: map<string, nat>)
    requires i <= |labels|
  {
    && observed == Compress(Firsts(labels[..i]))
    && forall g :: (if g in sequences then sequences[g] else 0) == Occurrences(Firsts(labels[..i]), g)
  }

  /** Notes a line's case: a new entry unless it continues the last one, and one more occurrence. */
  method CountCase(observed: seq<string>, sequences: map<string, nat>, case_: string,
                   ghost labels: seq<(string, int)>, ghost i: nat)
    returns (observed': seq<string>, sequences': map<string, nat>)
    requires i < |labels| && case_ == labels[i].0 && Counted(labels, i, observed, sequences)
    ensures Counted(labels, i + 1, observed', sequences')
    ensures case_ in sequences' && sequences'[case_] == 1 + Occurrences(Firsts(labels[..i]), case_)
  {
    CountStep(labels, i);
    observed' := if observed == [] || observed[|observed| - 1] != case_ then observed + [case_] else observed;
    sequences' := sequences[case_ := (if case_ in sequences then sequences[case_] else 0) + 1];
  }

  ghost predicate AllBound(lines: seq<Line>, digest: string -> string) {
    forall i | 0 <= i < |lines| :: Bound(lines[i], digest)
  }

  ghost predicate AllKnown(labels: seq<(string, int)>, cases: seq<string>) {
    forall i | 0 <= i < |labels| :: labels[i].0 in cases
  }

  lemma {:induction false} NothingCounted(labels: seq<(string, int)>)
    ensures Counted(labels, 0, [], map[]) && Tallied(labels[..0])
  {}

  /** The line loop: the cases in the order in which they come up, every line bound, known and numbered. */
  method TallyLines(lines: seq<Line>, cases: seq<string>, digest: string -> string, ghost labels: seq<(string, int)>)
    returns (r: Result<seq<string>, Refusal>)
    requires |labels| == |lines| && forall i | 0 <= i < |lines| :: labels[i] == (lines[i].group, lines[i].sequence)
    ensures r.Ok? <==> AllBound(lines, digest) && AllKnown(labels, cases) && Tallied(labels)
    ensures r.Ok? ==> r.value == Compress(Firsts(labels))
  {
    hide Tallied, Compress, Occurrences, Counted, Firsts;
    var observed: seq<string> := [];
    var sequences: map<string, nat> := map[];
    NothingCounted(labels);
    for i := 0 to |lines|
      invariant Counted(labels, i, observed, sequences) && Tallied(labels[..i])
      invariant forall k | 0 <= k < i :: Bound(lines[k], digest) && labels[k].0 in cases
    {
      var binding := Binding(lines[i], digest);
      if binding.Err? {
        return Err(binding.error);
      }
      var case_ := lines[i].group;
      if case_ !in cases {
        return Err(UnknownCase);
      }
      observed, sequences := CountCase(observed, sequences, case_, labels, i);
      TallyStep(labels, i);
      if lines[i].sequence != sequences[case_] {
        return Err(NotContiguous);
      }
    }
    assert labels[..|lines|] == labels;
    CountedWhole(labels, observed, sequences);
    return Ok(observed);
  }

  /** `validate_hostile_transcript`: accepts exactly one numbered block for each case, in the fixed order. */
  method ValidateHostile(lines: seq<Line>, cases: seq<string>, digest: string -> string)
    returns (r: Result<(), Refusal>)
    requires Distinct(cases) && cases != []
    ensures r.Ok? <==> Contiguous(lines, cases, digest)
  {
    hide Tallied, Compress, Firsts, InBlocks, Bound, Distinct, Contiguous;
    ghost var labels := Labels(lines);
    BlocksExactlyWhen(labels, cases);
    ContiguousIsBound(lines, cases, digest);
    BlocksAreKnown(labels, cases);
    var tallied := TallyLines(lines, cases, digest, labels);
    if tallied.Err? {
      return Err(tallied.error);
    }
    return if tallied.value == cases then Ok(()) else Err(CaseOrder);
  }

  lemma {:induction false} NumbersArePositive(labels: seq<(string, int)>)
    requires Tallied(labels)
    ensures forall i | 0 <= i < |labels| :: labels[i].1 > 0
  {
    if labels != [] { NumbersArePositive(labels[..|labels| - 1]); }
  }

  lemma {:induction false} ContiguousIsBound(lines: seq<Line>, cases: seq<string>, digest: string -> string)
    requires Distinct(cases)
    ensures Contiguous(lines, cases, digest) <==> AllBound(lines, digest) && InBlocks(Labels(lines), cases)
  {
    BlocksExactlyWhen(Labels(lines), cases);
    hide InBlocks, Compress;
    if InBlocks(Labels(lines), cases) {
      NumbersArePositive(Labels(lines));
      assert forall i | 0 <= i < |lines| :: Labels(lines)[i].1 == lines[i].sequence;
    }
  }

  lemma {:induction false} BlocksAreKnown(labels: seq<(string, int)>, cases: seq<string>)
    requires Distinct(cases)
    ensures InBlocks(labels, cases) ==> AllKnown(labels, cases)
  {
    if InBlocks(labels, cases) {
      forall i | 0 <= i < |labels| ensures labels[i].0 in cases { CasesOfBlocks(labels, cases, i); }
    }
  }

  lemma {:induction false} CountedWhole(labels: seq<(string, int)>, observed: seq<string>, sequences: map<string, nat>)
    requires Counted(labels, |labels|, observed, sequences)
    ensures observed == Compress(Firsts(labels))
  {
    assert labels[..|labels|] == labels;
  }

  lemma {:induction false} CountStep(labels: seq<(string, int)>, i: nat)
    requires i < |labels|
    ensures var before, after, item := Firsts(labels[..i]), Firsts(labels[..i + 1]), labels[i].0;
            var items := Compress(before);
            && Compress(after) == (if items == [] || items[|items| - 1] != item then items + [item] else items)
            && (forall g :: Occurrences(after, g) == Occurrences(before, g) + if g == item then 1 else 0)
  {
    var after := Firsts(labels[..i + 1]);
    assert after[..i] == Firsts(labels[..i]) && after[i] == labels[i].0;
    CompressedIsSeparate(Firsts(labels[..i]));
  }

  lemma {:induction false} TallyStep(labels: seq<(string, int)>, i: nat)
    requires i < |labels|
    ensures Tallied(labels[..i + 1])
       <==> Tallied(labels[..i]) && labels[i].1 == 1 + Occurrences(Firsts(labels[..i]), labels[i].0)
    ensures Tallied(labels) ==> Tallied(labels[..i + 1])
  {
    assert labels[..i + 1][..i] == labels[..i];
    if Tallied(labels) { TalliedPrefix(labels, i + 1); }
  }

  /** Blocks contain no other cases. */
  lemma {:induction false} CasesOfBlocks(labels: seq<(string, int)>, cases: seq<string>, i: nat)
    requires Distinct(cases) && InBlocks(labels, cases) && i < |labels|
    ensures labels[i].0 in cases
  {
    var counts: seq<nat> :| |counts| == |cases| && Positive(counts) && labels == Blocks(cases, counts);
    BlockFirsts(cases, counts);
    RunItems(cases, counts, i);
    assert Firsts(labels)[i] == labels[i].0;
  }

  lemma {:induction false} RunItems(items: seq<string>, counts: seq<nat>, i: nat)
    requires |items| == |counts| && i < |Runs(items, counts)|
    ensures Runs(items, counts)[i] in items
  {
    var n := |items| - 1;
    if i < |Runs(items[..n], counts[..n])| { RunItems(items[..n], counts[..n], i); }
  }

  const HOSTILE_CASES: seq<string> := [
    "stale_reference", "source_drift", "failed_test", "tampered_recovery", "wrong_approval",
    "definite_pre_pivot_failure", "post_ref_result_loss", "malformed_response_python", "malformed_response_rust",
    "malformed_response_typescript"]

  lemma {:induction false} HostileCasesAreDistinct()
    ensures Distinct(HOSTILE_CASES)
  {
    forall i, j | 0 <= i < j < |HOSTILE_CASES| ensures HOSTILE_CASES[i] != HOSTILE_CASES[j] {
      assert |HOSTILE_CASES[i]| != |HOSTILE_CASES[j]|;
    }
  }

  /** The hostile transcript against the recorded cases. */
  method ValidateRecordedHostile(lines: seq<Line>, digest: string -> string) returns (r: Result<(), Refusal>)
    ensures r.Ok? <==> Contiguous(lines, HOSTILE_CASES, digest)
  {
    HostileCasesAreDistinct();
    r := ValidateHostile(lines, HOSTILE_CASES, digest);
  }
}
