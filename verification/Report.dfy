/**
 * The comparison report over authenticated observations: a complete matrix of trials, totals by
 * lane, and the differences between the two lanes trial by trial.
 */
module Report {
  import opened Common
  import opened Matrix
  import opened Observation
  import opened Sequences

  datatype Failure = Rejected(refusal: Refusal) | Duplicate | Incomplete | PairingDisagrees

  datatype Pairing = Pairing(model: string, tokenizer: string, configuration: string, harness: string, host: string,
                             toolchain: string, state: string)

  /** What `load_observation` returns for an accepted document. */
  datatype Row = Row(subject: Subject, accepted: bool, metrics: map<Metric, int>) {
    function At(): Key { (subject.task, subject.lane, subject.trial) }
    function Paired(): Pairing {
      Pairing(subject.model, subject.tokenizer, subject.configuration, subject.harness, subject.host,
              subject.toolchain, subject.state)
    }
    function Value(m: Metric): int { if m in metrics then metrics[m] else 0 }
  }

  /** An observation's document, its name, and the files of the directory it stands in. */
  datatype Input = Input(path: string, files: Files, document: Document)
  datatype Totals = Totals(completed: nat, accepted: nat, metrics: map<Metric, int>)
  datatype Difference = Difference(task: string, trial: int, left: string, right: string, metrics: map<Metric, int>)
  datatype Report = Report(rows: seq<Row>, totals: map<string, Totals>, differences: seq<Difference>)

  function Validated(d: Document): Row {
    Row(d.subject, Passed(d.acceptance), map m | m in METRICS && m in d.metrics :: d.metrics[m].value)
  }

  function Rows(inputs: seq<Input>): (rows: seq<Row>)
    ensures |rows| == |inputs|
  {
    seq(|inputs|, i requires 0 <= i < |inputs| => Validated(inputs[i].document))
  }

  function Keys(rows: seq<Row>): seq<Key> {
    seq(|rows|, i requires 0 <= i < |rows| => rows[i].At())
  }

  // --- The matrix of trials ---

  function Column(task: string, n: nat): seq<(string, int)> {
    if n == 0 then [] else Column(task, n - 1) + [(task, n as int)]
  }

  /** Task by task and trial by trial, in the order in which the report pairs them. */
  function Grid(tasks: seq<string>, n: nat): seq<(string, int)> {
    if tasks == [] then [] else Grid(tasks[..|tasks| - 1], n) + Column(tasks[|tasks| - 1], n)
  }

  lemma {:induction false} ColumnIs(task: string, n: nat)
    ensures Distinct(Column(task, n))
    ensures forall p :: p in Column(task, n) <==> p.0 == task && 1 <= p.1 <= n
  {
    if n > 0 { ColumnIs(task, n - 1); }
  }

  lemma {:induction false} GridIs(tasks: seq<string>, n: nat)
    requires Distinct(tasks)
    ensures Distinct(Grid(tasks, n))
    ensures forall p :: p in Grid(tasks, n) <==> p.0 in tasks && 1 <= p.1 <= n
  {
    if tasks != [] {
      var last := |tasks| - 1;
      GridIs(tasks[..last], n);
      ColumnIs(tasks[last], n);
      assert tasks == tasks[..last] + [tasks[last]] && tasks[last] !in tasks[..last];
      DistinctAppend(Grid(tasks[..last], n), Column(tasks[last], n));
    }
  }

  /** One observation for every task, available lane and trial, and no other. */
  ghost predicate Complete(rows: seq<Row>, tasks: seq<string>, lanes: seq<string>, n: nat) {
    && Distinct(Keys(rows))
    && forall key :: key in Keys(rows) <==> Expected(key, tasks, lanes, n)
  }

  /** Completeness means: as many observations as the matrix has rows, one for each. */
  lemma {:induction false} CompleteIsTheMatrix(rows: seq<Row>, tasks: seq<string>, lanes: seq<string>, n: nat)
    requires Distinct(tasks) && Distinct(lanes)
    ensures Complete(rows, tasks, lanes, n) <==> multiset(Keys(rows)) == multiset(Cells(tasks, lanes, n))
    ensures Complete(rows, tasks, lanes, n) ==> |rows| == |tasks| * (|lanes| * n)
  {
    hide Cells;
    var keys, cells := Keys(rows), Cells(tasks, lanes, n);
    CellsAre(tasks, lanes, n);
    CellsCount(tasks, lanes, n, |lanes| * n);
    hide Keys, Distinct;
    if Complete(rows, tasks, lanes, n) {
      Permuted(keys, cells);
      assert |multiset(keys)| == |keys| && |multiset(cells)| == |cells|;
    }
    if multiset(keys) == multiset(cells) {
      PermutedDistinct(cells, keys);
      SameMembers(keys, cells);
      assert Complete(rows, tasks, lanes, n);
    }
  }

  lemma {:induction false} SameMembers<T>(a: seq<T>, b: seq<T>)
    requires multiset(a) == multiset(b)
    ensures forall x :: x in a <==> x in b
  {
    forall x ensures x in a <==> x in b {
      assert x in a <==> x in multiset(a);
      assert x in b <==> x in multiset(b);
    }
  }

  function PairingsAt(rows: seq<Row>, task: string, trial: int): set<Pairing> {
    set r | r in rows && r.subject.task == task && r.subject.trial == trial :: r.Paired()
  }

  predicate PairsAgree(rows: seq<Row>, grid: seq<(string, int)>) {
    forall k | 0 <= k < |grid| :: |PairingsAt(rows, grid[k].0, grid[k].1)| == 1
  }

  /** In an accepted matrix, two observations of one task and trial were made under one pairing. */
  lemma {:induction false} PairsShareTheirSetting(rows: seq<Row>, tasks: seq<string>, lanes: seq<string>, n: nat,
                                                  a: Row, b: Row)
    requires Distinct(tasks) && Complete(rows, tasks, lanes, n) && PairsAgree(rows, Grid(tasks, n))
    requires a in rows && b in rows && a.subject.task == b.subject.task && a.subject.trial == b.subject.trial
    ensures a.Paired() == b.Paired()
  {
    var i :| 0 <= i < |rows| && rows[i] == a;
    assert Keys(rows)[i] == a.At();
    assert Expected(a.At(), tasks, lanes, n);
    GridIs(tasks, n);
    var grid, p := Grid(tasks, n), (a.subject.task, a.subject.trial);
    assert p in grid;
    var k :| 0 <= k < |grid| && grid[k] == p;
    var pairings := PairingsAt(rows, grid[k].0, grid[k].1);
    assert a.Paired() in pairings && b.Paired() in pairings;
    SingletonOnly(pairings, a.Paired(), b.Paired());
  }

  lemma {:induction false} SingletonOnly<T>(s: set<T>, x: T, y: T)
    requires |s| == 1 && x in s && y in s
    ensures x == y
  {
    assert |s - {x}| == 0;
    assert y !in s - {x};
  }

  // --- Totals by lane ---

  function Selected(rows: seq<Row>, lane: string): seq<Row> {
    if rows == [] then []
    else
      var last := rows[|rows| - 1];
      Selected(rows[..|rows| - 1], lane) + (if last.subject.lane == lane then [last] else [])
  }

  function Sum(rows: seq<Row>, m: Metric): int {
    if rows == [] then 0 else Sum(rows[..|rows| - 1], m) + rows[|rows| - 1].Value(m)
  }

  function Completed(rows: seq<Row>): nat {
    if rows == [] then 0
    else Completed(rows[..|rows| - 1]) + (if rows[|rows| - 1].subject.outcome == "completed" then 1 else 0)
  }

  function Accepted(rows: seq<Row>): nat {
    if rows == [] then 0 else Accepted(rows[..|rows| - 1]) + (if rows[|rows| - 1].accepted then 1 else 0)
  }

  function LaneTotals(rows: seq<Row>, lane: string): Totals {
    var selected := Selected(rows, lane);
    Totals(Completed(selected), Accepted(selected), map m | m in METRICS :: Sum(selected, m))
  }

  lemma {:induction false} SelectedAre(rows: seq<Row>, lane: string)
    ensures forall r :: r in Selected(rows, lane) <==> r in rows && r.subject.lane == lane
    ensures Distinct(rows) ==> Distinct(Selected(rows, lane))
  {
    if rows != [] {
      var n := |rows| - 1;
      SelectedAre(rows[..n], lane);
      assert rows == rows[..n] + [rows[n]];
      assert Distinct(rows) ==> Distinct(rows[..n]) && rows[n] !in rows[..n];
    }
  }

  lemma {:induction false} SumWithout(rows: seq<Row>, i: nat, m: Metric)
    requires i < |rows|
    ensures Sum(rows, m) == Sum(rows[..i] + rows[i + 1..], m) + rows[i].Value(m)
  {
    var n := |rows| - 1;
    if i == n {
      assert rows[..i] + rows[i + 1..] == rows[..n];
    } else {
      SumWithout(rows[..n], i, m);
      var rest := rows[..i] + rows[i + 1..];
      assert rest[..|rest| - 1] == rows[..n][..i] + rows[..n][i + 1..];
      assert rest[|rest| - 1] == rows[n];
    }
  }

  lemma {:induction false} SumIgnoresOrder(a: seq<Row>, b: seq<Row>, m: Metric)
    requires multiset(a) == multiset(b)
    ensures Sum(a, m) == Sum(b, m)
    decreases |a|
  {
    if a == [] {
      assert |b| == |multiset(b)| == 0;
    } else {
      var n := |a| - 1;
      assert a[n] in multiset(a) && a[n] in multiset(b);
      var i :| 0 <= i < |b| && b[i] == a[n];
      MultisetWithout(a, n);
      MultisetWithout(b, i);
      SumIgnoresOrder(a[..n] + a[n + 1..], b[..i] + b[i + 1..], m);
      SumWithout(a, n, m);
      SumWithout(b, i, m);
    }
  }

  function SumOverLanes(rows: seq<Row>, lanes: seq<string>, m: Metric): int {
    if lanes == [] then 0
    else SumOverLanes(rows, lanes[..|lanes| - 1], m) + Sum(Selected(rows, lanes[|lanes| - 1]), m)
  }

  lemma {:induction false} SumOverNoRows(lanes: seq<string>, m: Metric)
    ensures SumOverLanes([], lanes, m) == 0
  {
    if lanes != [] { SumOverNoRows(lanes[..|lanes| - 1], m); }
  }

  lemma {:induction false} SelectOneMore(rows: seq<Row>, last: Row, lane: string, m: Metric)
    ensures Sum(Selected(rows + [last], lane), m)
         == Sum(Selected(rows, lane), m) + if last.subject.lane == lane then last.Value(m) else 0
  {
    assert (rows + [last])[..|rows|] == rows;
    var chosen := Selected(rows, lane);
    assert chosen + [] == chosen;
    assert (chosen + [last])[..|chosen|] == chosen;
  }

  lemma {:induction false} SumOverOneMore(rows: seq<Row>, last: Row, lanes: seq<string>, m: Metric)
    requires Distinct(lanes)
    ensures SumOverLanes(rows + [last], lanes, m)
         == SumOverLanes(rows, lanes, m) + if last.subject.lane in lanes then last.Value(m) else 0
  {
    hide Sum, Selected;
    if lanes != [] {
      var n := |lanes| - 1;
      SumOverOneMore(rows, last, lanes[..n], m);
      SelectOneMore(rows, last, lanes[n], m);
      assert last.subject.lane in lanes <==> last.subject.lane in lanes[..n] || last.subject.lane == lanes[n];
      assert lanes[n] !in lanes[..n];
    }
  }

  lemma {:induction false} LastApart<T>(s: seq<T>)
    requires s != []
    ensures s[..|s| - 1] + [s[|s| - 1]] == s
  {}

  /** Conservation between observations and lanes: each metric of each observation is in one lane total. */
  lemma {:induction false} LaneTotalsPartition(rows: seq<Row>, lanes: seq<string>, m: Metric)
    requires Distinct(lanes) && forall i | 0 <= i < |rows| :: rows[i].subject.lane in lanes
    ensures SumOverLanes(rows, lanes, m) == Sum(rows, m)
  {
    if rows == [] {
      SumOverNoRows(lanes, m);
    } else {
      var n := |rows| - 1;
      LaneTotalsPartition(rows[..n], lanes, m);
      SumOverOneMore(rows[..n], rows[n], lanes, m);
      LastApart(rows);
    }
  }

  /** A lane's completed trials are its accepted ones, since every loaded document has agreed on that. */
  lemma {:induction false} CompletedAreAccepted(rows: seq<Row>)
    requires forall i | 0 <= i < |rows| :: rows[i].accepted <==> rows[i].subject.outcome == "completed"
    ensures Completed(rows) == Accepted(rows)
  {
    if rows != [] { CompletedAreAccepted(rows[..|rows| - 1]); }
  }

  // --- Paired differences ---

  /** The first row with a key: `next(item for item in observations if ...)`. */
  function Lookup(rows: seq<Row>, key: Key): (r: Row)
    requires key in Keys(rows)
    ensures r in rows && r.At() == key
  {
    if rows[0].At() == key then rows[0]
    else
      assert Keys(rows) == [rows[0].At()] + Keys(rows[1..]);
      Lookup(rows[1..], key)
  }

  function Pick(rows: seq<Row>, grid: seq<(string, int)>, lane: string): (picked: seq<Row>)
    requires forall k | 0 <= k < |grid| :: (grid[k].0, lane, grid[k].1) in Keys(rows)
    ensures |picked| == |grid|
  {
    seq(|grid|, k requires 0 <= k < |grid| => Lookup(rows, (grid[k].0, lane, grid[k].1)))
  }

  function DifferenceAt(left: Row, right: Row): Difference {
    Difference(left.subject.task, left.subject.trial, left.subject.lane, right.subject.lane,
               map m | m in METRICS :: left.Value(m) - right.Value(m))
  }

  function Differences(left: seq<Row>, right: seq<Row>): seq<Difference>
    requires |left| == |right|
  {
    seq(|left|, k requires 0 <= k < |left| => DifferenceAt(left[k], right[k]))
  }

  function SumDifferences(differences: seq<Difference>, m: Metric): int {
    if differences == [] then 0
    else
      var last := differences[|differences| - 1];
      SumDifferences(differences[..|differences| - 1], m) + (if m in last.metrics then last.metrics[m] else 0)
  }

  lemma {:induction false} DifferencesSum(left: seq<Row>, right: seq<Row>, m: Metric)
    requires |left| == |right|
    ensures SumDifferences(Differences(left, right), m) == Sum(left, m) - Sum(right, m)
  {
    AllMetrics(m);
    if left != [] {
      var n := |left| - 1;
      DifferencesSum(left[..n], right[..n], m);
      assert Differences(left, right)[..n] == Differences(left[..n], right[..n]);
    }
  }

  lemma {:induction false} KeyOfMember(rows: seq<Row>, r: Row)
    requires r in rows
    ensures r.At() in Keys(rows)
  {
    var i :| 0 <= i < |rows| && rows[i] == r;
    assert Keys(rows)[i] == r.At();
  }

  lemma {:induction false} KeysSeparate(rows: seq<Row>, a: Row, b: Row)
    requires Distinct(Keys(rows)) && a in rows && b in rows && a.At() == b.At()
    ensures a == b
  {
    var i :| 0 <= i < |rows| && rows[i] == a;
    var j :| 0 <= j < |rows| && rows[j] == b;
    assert Keys(rows)[i] == Keys(rows)[j];
  }

  lemma {:induction false} DistinctKeysDistinctRows(rows: seq<Row>)
    requires Distinct(Keys(rows))
    ensures Distinct(rows)
  {
    forall i, j | 0 <= i < j < |rows| ensures rows[i] != rows[j] {
      assert Keys(rows)[i] != Keys(rows)[j];
    }
  }

  lemma {:induction false} GridIsCovered(rows: seq<Row>, tasks: seq<string>, lanes: seq<string>, n: nat, lane: string)
    requires Distinct(tasks) && Complete(rows, tasks, lanes, n) && lane in lanes
    ensures var grid := Grid(tasks, n); forall k | 0 <= k < |grid| :: (grid[k].0, lane, grid[k].1) in Keys(rows)
  {
    GridIs(tasks, n);
    var grid := Grid(tasks, n);
    forall k | 0 <= k < |grid| ensures (grid[k].0, lane, grid[k].1) in Keys(rows) {
      assert grid[k] in grid;
      assert Expected((grid[k].0, lane, grid[k].1), tasks, lanes, n);
    }
  }

  /** Picking a lane's rows trial by trial gives exactly the rows its total sums over. */
  lemma {:induction false} PickedAreSelected(rows: seq<Row>, tasks: seq<string>, lanes: seq<string>, n: nat,
                                             lane: string)
    requires Distinct(tasks) && Complete(rows, tasks, lanes, n) && lane in lanes
    requires forall k | 0 <= k < |Grid(tasks, n)| :: (Grid(tasks, n)[k].0, lane, Grid(tasks, n)[k].1) in Keys(rows)
    ensures multiset(Pick(rows, Grid(tasks, n), lane)) == multiset(Selected(rows, lane))
  {
    var grid := Grid(tasks, n);
    var picked := Pick(rows, grid, lane);
    GridIs(tasks, n);
    SelectedAre(rows, lane);
    DistinctKeysDistinctRows(rows);
    forall i, j | 0 <= i < j < |picked| ensures picked[i] != picked[j] {
      assert picked[i].At() == (grid[i].0, lane, grid[i].1) && picked[j].At() == (grid[j].0, lane, grid[j].1);
    }
    forall r ensures r in picked <==> r in Selected(rows, lane) {
      if r in picked {
        var k :| 0 <= k < |picked| && picked[k] == r;
        assert r.At() == (grid[k].0, lane, grid[k].1);
      }
      if r in rows && r.subject.lane == lane {
        KeyOfMember(rows, r);
        assert Expected(r.At(), tasks, lanes, n);
        var p := (r.subject.task, r.subject.trial);
        assert p in grid;
        var k :| 0 <= k < |grid| && grid[k] == p;
        KeysSeparate(rows, r, picked[k]);
        assert picked[k] in picked;
      }
    }
    Permuted(picked, Selected(rows, lane));
  }

  /**
   * Conservation between pairs and lanes: for every metric, the paired differences add up to the
   * left lane's total minus the right lane's.
   */
  lemma {:induction false} DifferencesConserve(rows: seq<Row>, tasks: seq<string>, left: string, right: string, n: nat,
                                               m: Metric)
    requires Distinct(tasks) && Complete(rows, tasks, [left, right], n)
    ensures Paired(rows, Grid(tasks, n), left, right)
    ensures SumDifferences(DifferencesOf(rows, Grid(tasks, n), left, right), m)
         == Sum(Selected(rows, left), m) - Sum(Selected(rows, right), m)
  {
    var grid := Grid(tasks, n);
    GridIsCovered(rows, tasks, [left, right], n, left);
    GridIsCovered(rows, tasks, [left, right], n, right);
    PickedAreSelected(rows, tasks, [left, right], n, left);
    PickedAreSelected(rows, tasks, [left, right], n, right);
    SumIgnoresOrder(Pick(rows, grid, left), Selected(rows, left), m);
    SumIgnoresOrder(Pick(rows, grid, right), Selected(rows, right), m);
    DifferencesSum(Pick(rows, grid, left), Pick(rows, grid, right), m);
  }

  /** Every pair of the grid has a row in both lanes. */
  ghost predicate Paired(rows: seq<Row>, grid: seq<(string, int)>, left: string, right: string) {
    forall k | 0 <= k < |grid| ::
      (grid[k].0, left, grid[k].1) in Keys(rows) && (grid[k].0, right, grid[k].1) in Keys(rows)
  }

  ghost function DifferencesOf(rows: seq<Row>, grid: seq<(string, int)>, left: string, right: string): seq<Difference>
    requires Paired(rows, grid, left, right)
  {
    Differences(Pick(rows, grid, left), Pick(rows, grid, right))
  }

  // --- make_report ---

  method LoadOne(input: Input, c: Context, digest: Digest) returns (r: Result<Row, Failure>)
    ensures r.Ok? <==> DocumentAdmitted(input.document, input.path, input.files, c, digest)
    ensures r.Ok? ==> r.value == Validated(input.document)
  {
    var loaded := LoadObservation(input.document, input.path, input.files, c, digest);
    if loaded.Err? { return Err(Rejected(loaded.error)); }
    forall m ensures m in METRICS { AllMetrics(m); }
    assert loaded.value.0 == Validated(input.document).metrics;
    return Ok(Row(input.document.subject, loaded.value.1, loaded.value.0));
  }

  ghost predicate AllAdmitted(inputs: seq<Input>, c: Context, digest: Digest) {
    forall i | 0 <= i < |inputs| :: DocumentAdmitted(inputs[i].document, inputs[i].path, inputs[i].files, c, digest)
  }

  /** Loads every document in turn. */
  method LoadAll(inputs: seq<Input>, c: Context, digest: Digest) returns (r: Result<seq<Row>, Failure>)
    ensures r.Ok? <==> AllAdmitted(inputs, c, digest)
    ensures r.Ok? ==> r.value == Rows(inputs)
  {
    var rows: seq<Row> := [];
    for i := 0 to |inputs|
      invariant AllAdmitted(inputs[..i], c, digest)
      invariant rows == Rows(inputs[..i])
    {
      var loaded := LoadOne(inputs[i], c, digest);
      if loaded.Err? { return Err(loaded.error); }
      assert inputs[..i + 1] == inputs[..i] + [inputs[i]];
      rows := rows + [loaded.value];
    }
    assert inputs[..|inputs|] == inputs;
    return Ok(rows);
  }

  lemma {:induction false} DisagreesIn(rows: seq<Row>, grid: seq<(string, int)>, p: (string, int))
    requires p in grid && |PairingsAt(rows, p.0, p.1)| != 1
    ensures !PairsAgree(rows, grid)
  {
    var k :| 0 <= k < |grid| && grid[k] == p;
  }

  lemma {:induction false} GridGains(tasks: seq<string>, i: nat, n: nat, trial: nat)
    requires i < |tasks| && trial > 0
    ensures Grid(tasks[..i], n) + Column(tasks[i], trial)
         == Grid(tasks[..i], n) + Column(tasks[i], trial - 1) + [(tasks[i], trial as int)]
  {
    Concatenated(Grid(tasks[..i], n), Column(tasks[i], trial - 1), [(tasks[i], trial as int)]);
  }

  lemma {:induction false} AgreeGains(rows: seq<Row>, grid: seq<(string, int)>, p: (string, int))
    ensures PairsAgree(rows, grid + [p]) <==> PairsAgree(rows, grid) && |PairingsAt(rows, p.0, p.1)| == 1
  {
    assert forall k | 0 <= k < |grid| :: (grid + [p])[k] == grid[k];
    assert (grid + [p])[|grid|] == p;
  }

  /** The pairing check, task by task and trial by trial. */
  method CheckPairs(rows: seq<Row>, tasks: seq<string>, n: nat) returns (agree: bool)
    requires Distinct(tasks)
    ensures agree <==> PairsAgree(rows, Grid(tasks, n))
  {
    GridIs(tasks, n);
    for i := 0 to |tasks|
      invariant PairsAgree(rows, Grid(tasks[..i], n))
    {
      assert tasks[..i + 1][..i] == tasks[..i];
      for trial := 1 to n + 1
        invariant PairsAgree(rows, Grid(tasks[..i], n) + Column(tasks[i], trial - 1))
      {
        GridGains(tasks, i, n, trial);
        AgreeGains(rows, Grid(tasks[..i], n) + Column(tasks[i], trial - 1), (tasks[i], trial));
        if |PairingsAt(rows, tasks[i], trial)| != 1 {
          DisagreesIn(rows, Grid(tasks, n), (tasks[i], trial));
          return false;
        }
      }
    }
    assert tasks[..|tasks|] == tasks;
    return true;
  }

  /** The paired differences of two lanes. */
  method PairUp(rows: seq<Row>, tasks: seq<string>, n: nat, left: string, right: string)
    returns (differences: seq<Difference>)
    requires Distinct(tasks) && Paired(rows, Grid(tasks, n), left, right)
    ensures differences == DifferencesOf(rows, Grid(tasks, n), left, right)
  {
    differences := [];
    for i := 0 to |tasks|
      invariant Paired(rows, Grid(tasks[..i], n), left, right)
      invariant differences == DifferencesOf(rows, Grid(tasks[..i], n), left, right)
    {
      assert tasks[..i + 1][..i] == tasks[..i];
      for trial := 1 to n + 1
        invariant Paired(rows, Grid(tasks[..i], n) + Column(tasks[i], trial - 1), left, right)
        invariant differences == DifferencesOf(rows, Grid(tasks[..i], n) + Column(tasks[i], trial - 1), left, right)
      {
        GridGains(tasks, i, n, trial);
        PairedAt(rows, tasks, n, left, right, tasks[i], trial);
        var leftRow := Lookup(rows, (tasks[i], left, trial));
        var rightRow := Lookup(rows, (tasks[i], right, trial));
        DifferencesGain(rows, Grid(tasks[..i], n) + Column(tasks[i], trial - 1), (tasks[i], trial as int), left, right);
        differences := differences + [DifferenceAt(leftRow, rightRow)];
      }
    }
    assert tasks[..|tasks|] == tasks;
  }

  lemma {:induction false} DifferencesGain(rows: seq<Row>, grid: seq<(string, int)>, p: (string, int), left: string,
                                           right: string)
    requires Paired(rows, grid, left, right) && (p.0, left, p.1) in Keys(rows) && (p.0, right, p.1) in Keys(rows)
    ensures Paired(rows, grid + [p], left, right)
    ensures DifferencesOf(rows, grid + [p], left, right)
         == DifferencesOf(rows, grid, left, right)
            + [DifferenceAt(Lookup(rows, (p.0, left, p.1)), Lookup(rows, (p.0, right, p.1)))]
  {
    hide Lookup;
  }

  lemma {:induction false} PairedAt(rows: seq<Row>, tasks: seq<string>, n: nat, left: string, right: string,
                                    task: string, trial: int)
    requires Distinct(tasks) && Paired(rows, Grid(tasks, n), left, right) && task in tasks && 1 <= trial <= n
    ensures (task, left, trial) in Keys(rows) && (task, right, trial) in Keys(rows)
  {
    GridIs(tasks, n);
    assert (task, trial) in Grid(tasks, n);
  }

  lemma {:induction false} KeysComplete(rows: seq<Row>, tasks: seq<string>, lanes: seq<string>, n: nat)
    ensures (set key | key in Keys(rows))
            == (set task, lane, trial | task in tasks && lane in lanes && 1 <= trial <= n :: (task, lane, trial))
       <==> forall key :: key in Keys(rows) <==> Expected(key, tasks, lanes, n)
  {
    var keys := set key | key in Keys(rows);
    var expected := set task, lane, trial | task in tasks && lane in lanes && 1 <= trial <= n :: (task, lane, trial);
    forall key: Key ensures key in expected <==> Expected(key, tasks, lanes, n) {}
    if keys == expected {
      forall key: Key ensures key in Keys(rows) <==> Expected(key, tasks, lanes, n) {
        assert key in Keys(rows) <==> key in keys;
      }
    }
  }

  // --- The order of the report ---

  /** The order of the keys (task, trial, lane). */
  predicate Before(a: Row, b: Row) {
    var (t, u) := (Codes(a.subject.task), Codes(b.subject.task));
    Less(t, u)
    || (t == u && (a.subject.trial < b.subject.trial
                   || (a.subject.trial == b.subject.trial && Less(Codes(a.subject.lane), Codes(b.subject.lane)))))
  }

  lemma {:induction false} BeforeTransitive(a: Row, b: Row, c: Row)
    requires Before(a, b) && Before(b, c)
    ensures Before(a, c)
  {
    var (t, u, v) := (Codes(a.subject.task), Codes(b.subject.task), Codes(c.subject.task));
    if Less(t, u) && Less(u, v) { LessTransitive(t, u, v); }
    var (l, m, n) := (Codes(a.subject.lane), Codes(b.subject.lane), Codes(c.subject.lane));
    if Less(l, m) && Less(m, n) { LessTransitive(l, m, n); }
  }

  /** Rows with different keys stand in one order or the other. */
  lemma {:induction false} BeforeTotal(a: Row, b: Row)
    requires a.At() != b.At()
    ensures Before(a, b) || Before(b, a)
  {
    LessTotal(Codes(a.subject.task), Codes(b.subject.task));
    LessTotal(Codes(a.subject.lane), Codes(b.subject.lane));
    if Codes(a.subject.task) == Codes(b.subject.task) { CodesDiffer(a.subject.task, b.subject.task); }
    if Codes(a.subject.lane) == Codes(b.subject.lane) { CodesDiffer(a.subject.lane, b.subject.lane); }
  }

  ghost predicate InOrder(rows: seq<Row>) { forall i, j | 0 <= i < j < |rows| :: Before(rows[i], rows[j]) }

  function Placed(rows: seq<Row>, r: Row): seq<Row> {
    if rows == [] then [r]
    else if Before(r, rows[0]) then [r] + rows
    else [rows[0]] + Placed(rows[1..], r)
  }

  /** `sorted`: by task, then trial, then lane. */
  function Presented(rows: seq<Row>): seq<Row> {
    if rows == [] then [] else Placed(Presented(rows[..|rows| - 1]), rows[|rows| - 1])
  }

  lemma {:induction false} PlacedHolds(rows: seq<Row>, r: Row)
    ensures multiset(Placed(rows, r)) == multiset(rows) + multiset{r}
  {
    if rows != [] && !Before(r, rows[0]) {
      PlacedHolds(rows[1..], r);
      assert rows == [rows[0]] + rows[1..];
    }
  }

  lemma {:induction false} PlacedInOrder(rows: seq<Row>, r: Row)
    requires InOrder(rows) && forall i | 0 <= i < |rows| :: rows[i].At() != r.At()
    ensures InOrder(Placed(rows, r))
  {
    if rows != [] {
      if Before(r, rows[0]) {
        forall j | 0 < j < |rows| ensures Before(r, rows[j]) { BeforeTransitive(r, rows[0], rows[j]); }
      } else {
        var rest := Placed(rows[1..], r);
        PlacedInOrder(rows[1..], r);
        PlacedHolds(rows[1..], r);
        BeforeTotal(r, rows[0]);
        hide Before;
        forall j | 0 <= j < |rest| ensures Before(rows[0], rest[j]) {
          assert rest[j] in multiset(rest);
          if rest[j] != r {
            assert rest[j] in rows[1..];
            var k :| 0 <= k < |rows| - 1 && rows[1..][k] == rest[j];
          }
        }
      }
    }
  }

  lemma {:induction false} PresentedHolds(rows: seq<Row>)
    ensures multiset(Presented(rows)) == multiset(rows)
  {
    hide Placed;
    if rows != [] {
      var n := |rows| - 1;
      PresentedHolds(rows[..n]);
      PlacedHolds(Presented(rows[..n]), rows[n]);
      assert rows == rows[..n] + [rows[n]];
    }
  }

  lemma {:induction false} PresentedInOrder(rows: seq<Row>)
    requires Distinct(Keys(rows))
    ensures InOrder(Presented(rows))
  {
    hide Placed, Before;
    if rows != [] {
      var n := |rows| - 1;
      assert Keys(rows[..n]) == Keys(rows)[..n];
      PresentedInOrder(rows[..n]);
      PresentedHolds(rows[..n]);
      OthersDiffer(rows, Presented(rows[..n]));
      PlacedInOrder(Presented(rows[..n]), rows[n]);
    }
  }

  lemma {:induction false} OthersDiffer(rows: seq<Row>, placed: seq<Row>)
    requires rows != [] && Distinct(Keys(rows)) && multiset(placed) == multiset(rows[..|rows| - 1])
    ensures forall i | 0 <= i < |placed| :: placed[i].At() != rows[|rows| - 1].At()
  {
    var n := |rows| - 1;
    forall i | 0 <= i < |placed| ensures placed[i].At() != rows[n].At() {
      assert placed[i] in multiset(placed) && placed[i] in multiset(rows[..n]);
      var k :| 0 <= k < n && rows[..n][k] == placed[i];
      assert Keys(rows)[k] == placed[i].At() && Keys(rows)[n] == rows[n].At();
    }
  }

  /** The checks of `make_report` on loaded observations. */
  method CheckMatrix(rows: seq<Row>, tasks: seq<string>, available: seq<string>, n: nat) returns (r: Option<Failure>)
    requires Distinct(tasks)
    ensures r == None <==> Complete(rows, tasks, available, n) && PairsAgree(rows, Grid(tasks, n))
  {
    CountsWhenDistinct(Keys(rows));
    if |set key | key in Keys(rows)| != |Keys(rows)| { return Some(Duplicate); }
    KeysComplete(rows, tasks, available, n);
    var expected := set task, lane, trial | task in tasks && lane in available && 1 <= trial <= n
                    :: (task, lane, trial);
    if (set key | key in Keys(rows)) != expected { return Some(Incomplete); }
    var agree := CheckPairs(rows, tasks, n);
    return if agree then None else Some(PairingDisagrees);
  }

  /** What a report says about the observations it was made of. */
  ghost predicate Reports(report: Report, rows: seq<Row>, tasks: seq<string>, lanes: seq<string>, n: nat) {
    && report.rows == Presented(rows)
    && report.totals == (map lane | lane in lanes :: LaneTotals(rows, lane))
    && if |lanes| == 2 then Listed(report.differences, rows, Grid(tasks, n), lanes[0], lanes[1])
       else report.differences == []
  }

  // --- What a report says, in terms of the documents ---

  /** The sum of a metric over the documents of a lane. */
  function SumIn(inputs: seq<Input>, lane: string, m: Metric): int {
    if inputs == [] then 0
    else
      var d := inputs[|inputs| - 1].document;
      SumIn(inputs[..|inputs| - 1], lane, m)
      + (if d.subject.lane == lane && m in d.metrics then d.metrics[m].value else 0)
  }

  function CompletedIn(inputs: seq<Input>, lane: string): nat {
    if inputs == [] then 0
    else
      var d := inputs[|inputs| - 1].document;
      CompletedIn(inputs[..|inputs| - 1], lane)
      + (if d.subject.lane == lane && d.subject.outcome == "completed" then 1 else 0)
  }

  function PassedIn(inputs: seq<Input>, lane: string): nat {
    if inputs == [] then 0
    else
      var d := inputs[|inputs| - 1].document;
      PassedIn(inputs[..|inputs| - 1], lane)
      + (if d.subject.lane == lane && forall k | 0 <= k < |d.acceptance| :: d.acceptance[k].outcome == "passed"
         then 1 else 0)
  }

  /** A lane's totals are those of its documents. */
  ghost predicate TotalsOf(totals: Totals, inputs: seq<Input>, lane: string) {
    && totals.completed == CompletedIn(inputs, lane) && totals.accepted == PassedIn(inputs, lane)
    && forall m: Metric :: m in totals.metrics && totals.metrics[m] == SumIn(inputs, lane, m)
  }

  ghost predicate Stands(d: Document, task: string, lane: string, trial: int) {
    d.subject.task == task && d.subject.lane == lane && d.subject.trial == trial
  }

  /** A difference of the documents of one task and trial in the two lanes. */
  ghost predicate DifferenceOf(d: Difference, inputs: seq<Input>, task: string, trial: int, left: string,
                               right: string)
  {
    && d.task == task && d.trial == trial && d.left == left && d.right == right
    && exists i, j | 0 <= i < |inputs| && 0 <= j < |inputs| ::
         && Stands(inputs[i].document, task, left, trial) && Stands(inputs[j].document, task, right, trial)
         && forall m: Metric ::
              && m in d.metrics && m in inputs[i].document.metrics && m in inputs[j].document.metrics
              && d.metrics[m] == inputs[i].document.metrics[m].value - inputs[j].document.metrics[m].value
  }

  /** The differences of one task, trial by trial. */
  ghost predicate OfTask(mine: seq<Difference>, inputs: seq<Input>, task: string, left: string, right: string) {
    forall k: nat | k < |mine| :: DifferenceOf(mine[k], inputs, task, k + 1, left, right)
  }

  ghost predicate RowOf(r: Row, d: Document) {
    && r.subject == d.subject
    && (r.accepted <==> forall k | 0 <= k < |d.acceptance| :: d.acceptance[k].outcome == "passed")
    && forall m: Metric :: m in d.metrics && m in r.metrics && r.metrics[m] == d.metrics[m].value
  }

  /** By task, then trial, then lane. */
  ghost predicate Sorted(rows: seq<Row>) {
    forall i, j | 0 <= i < j < |rows| ::
      var (a, b) := (rows[i].subject, rows[j].subject);
      if a.task != b.task then Less(Codes(a.task), Codes(b.task))
      else if a.trial != b.trial then a.trial < b.trial
      else Less(Codes(a.lane), Codes(b.lane))
  }

  lemma {:induction false} InOrderIsSorted(rows: seq<Row>)
    requires InOrder(rows)
    ensures Sorted(rows)
  {
    forall i, j | 0 <= i < j < |rows|
      ensures var (a, b) := (rows[i].subject, rows[j].subject);
              if a.task != b.task then Less(Codes(a.task), Codes(b.task))
              else if a.trial != b.trial then a.trial < b.trial
              else Less(Codes(a.lane), Codes(b.lane))
    {
      assert Before(rows[i], rows[j]);
      if Codes(rows[i].subject.task) == Codes(rows[j].subject.task) {
        CodesDiffer(rows[i].subject.task, rows[j].subject.task);
      }
      LessTotal(Codes(rows[i].subject.task), Codes(rows[j].subject.task));
    }
  }

  ghost predicate AccountsPairs(differences: seq<Difference>, inputs: seq<Input>, tasks: seq<string>,
                                lanes: seq<string>, n: nat)
  {
    if |lanes| != 2 then differences == []
    else
      && |differences| == |tasks| * n
      && forall t: nat | t < |tasks| ::
           && t * n + n <= |differences|
           && OfTask(differences[t * n..t * n + n], inputs, tasks[t], lanes[0], lanes[1])
  }

  /** Lane totals, differences task by task and trial by trial, and every document once, in order. */
  ghost predicate Accounts(report: Report, inputs: seq<Input>, tasks: seq<string>, lanes: seq<string>, n: nat) {
    && report.totals.Keys == (set lane | lane in lanes)
    && (forall lane | lane in lanes :: TotalsOf(report.totals[lane], inputs, lane))
    && AccountsPairs(report.differences, inputs, tasks, lanes, n)
    && Sorted(report.rows) && multiset(report.rows) == multiset(Rows(inputs))
    && forall i | 0 <= i < |inputs| :: RowOf(Rows(inputs)[i], inputs[i].document)
  }

  lemma {:induction false} LaneTotalsOf(inputs: seq<Input>, lane: string)
    requires forall i, m: Metric | 0 <= i < |inputs| :: m in inputs[i].document.metrics
    ensures TotalsOf(LaneTotals(Rows(inputs), lane), inputs, lane)
  {
    forall m: Metric ensures m in METRICS && Sum(Selected(Rows(inputs), lane), m) == SumIn(inputs, lane, m) {
      AllMetrics(m);
      SumIsIn(inputs, lane, m);
    }
    CountsAreIn(inputs, lane);
  }

  lemma {:induction false} RowsGain(inputs: seq<Input>)
    requires inputs != []
    ensures var n := |inputs| - 1; Rows(inputs) == Rows(inputs[..n]) + [Validated(inputs[n].document)]
  {}

  lemma {:induction false} SumIsIn(inputs: seq<Input>, lane: string, m: Metric)
    requires forall i | 0 <= i < |inputs| :: m in inputs[i].document.metrics
    ensures Sum(Selected(Rows(inputs), lane), m) == SumIn(inputs, lane, m)
  {
    if inputs != [] {
      var n := |inputs| - 1;
      SumIsIn(inputs[..n], lane, m);
      RowsGain(inputs);
      AllMetrics(m);
      SelectOneMore(Rows(inputs[..n]), Validated(inputs[n].document), lane, m);
      hide Sum, Selected, Rows;
    }
  }

  lemma {:induction false} CountsAreIn(inputs: seq<Input>, lane: string)
    ensures Completed(Selected(Rows(inputs), lane)) == CompletedIn(inputs, lane)
    ensures Accepted(Selected(Rows(inputs), lane)) == PassedIn(inputs, lane)
  {
    if inputs != [] {
      var n := |inputs| - 1;
      CountsAreIn(inputs[..n], lane);
      RowsGain(inputs);
      CountOneMore(Rows(inputs[..n]), Validated(inputs[n].document), lane);
      hide Completed, Accepted, Selected, Rows;
    }
  }

  lemma {:induction false} CountOneMore(rows: seq<Row>, last: Row, lane: string)
    ensures Completed(Selected(rows + [last], lane))
         == Completed(Selected(rows, lane))
            + if last.subject.lane == lane && last.subject.outcome == "completed" then 1 else 0
    ensures Accepted(Selected(rows + [last], lane))
         == Accepted(Selected(rows, lane)) + if last.subject.lane == lane && last.accepted then 1 else 0
  {
    assert (rows + [last])[..|rows|] == rows;
    var chosen := Selected(rows, lane);
    assert chosen + [] == chosen;
    assert (chosen + [last])[..|chosen|] == chosen;
  }

  lemma {:induction false} ColumnAt(task: string, n: nat, k: nat)
    requires k < n
    ensures |Column(task, n)| == n && Column(task, n)[k] == (task, k + 1)
  {
    ColumnLength(task, n - 1);
    if k < n - 1 { ColumnAt(task, n - 1, k); }
  }

  lemma {:induction false} ColumnLength(task: string, n: nat)
    ensures |Column(task, n)| == n
  {
    if n > 0 { ColumnLength(task, n - 1); }
  }

  lemma {:induction false} GridLength(tasks: seq<string>, n: nat)
    ensures |Grid(tasks, n)| == |tasks| * n
  {
    if tasks != [] {
      GridLength(tasks[..|tasks| - 1], n);
      ColumnLength(tasks[|tasks| - 1], n);
      assert |tasks| * n == (|tasks| - 1) * n + n;
    }
  }

  /** The grid goes through the trials of each task in turn. */
  lemma {:induction false} GridAt(tasks: seq<string>, n: nat, t: nat, k: nat, at: nat)
    requires t < |tasks| && k < n && at == t * n + k
    ensures at < |Grid(tasks, n)| && Grid(tasks, n)[at] == (tasks[t], k + 1)
  {
    var last := |tasks| - 1;
    GridLength(tasks[..last], n);
    if t < last {
      GridAt(tasks[..last], n, t, k, at);
    } else {
      ColumnAt(tasks[last], n, k);
    }
  }

  /** Where a picked row comes from. */
  lemma {:induction false} RowStands(inputs: seq<Input>, key: Key) returns (i: nat)
    requires key in Keys(Rows(inputs))
    ensures i < |inputs| && Stands(inputs[i].document, key.0, key.1, key.2)
    ensures Lookup(Rows(inputs), key) == Validated(inputs[i].document)
  {
    var r := Lookup(Rows(inputs), key);
    i :| 0 <= i < |inputs| && Rows(inputs)[i] == r;
  }

  lemma {:induction false} DifferenceStands(inputs: seq<Input>, task: string, trial: int, left: string, right: string)
    requires forall i, m: Metric | 0 <= i < |inputs| :: m in inputs[i].document.metrics
    requires (task, left, trial) in Keys(Rows(inputs)) && (task, right, trial) in Keys(Rows(inputs))
    ensures DifferenceOf(DifferenceAt(Lookup(Rows(inputs), (task, left, trial)),
                                      Lookup(Rows(inputs), (task, right, trial))), inputs, task, trial, left, right)
  {
    var i := RowStands(inputs, (task, left, trial));
    var j := RowStands(inputs, (task, right, trial));
    forall m: Metric ensures m in METRICS { AllMetrics(m); }
    hide Lookup, Keys, Rows;
  }

  lemma {:induction false} TaskStands(inputs: seq<Input>, tasks: seq<string>, left: string, right: string, n: nat,
                                      t: nat)
    requires forall i, m: Metric | 0 <= i < |inputs| :: m in inputs[i].document.metrics
    requires Paired(Rows(inputs), Grid(tasks, n), left, right) && t < |tasks|
    requires t * n + n <= |Grid(tasks, n)|
    ensures var mine := DifferencesOf(Rows(inputs), Grid(tasks, n), left, right)[t * n..t * n + n];
            OfTask(mine, inputs, tasks[t], left, right)
  {
    hide DifferenceOf, Lookup, DifferenceAt, Rows;
    var grid, from := Grid(tasks, n), t * n;
    var mine := DifferencesOf(Rows(inputs), grid, left, right)[from..from + n];
    forall k: nat | k < n ensures DifferenceOf(mine[k], inputs, tasks[t], k + 1, left, right) {
      GridAt(tasks, n, t, k, from + k);
      assert grid[from + k] == (tasks[t], k + 1);
      assert mine[k] == DifferenceAt(Lookup(Rows(inputs), (tasks[t], left, k + 1)),
                                     Lookup(Rows(inputs), (tasks[t], right, k + 1)));
      DifferenceStands(inputs, tasks[t], k + 1, left, right);
    }
  }

  lemma {:induction false} TaskRange(t: nat, count: nat, n: nat)
    requires t < count
    ensures t * n + n <= count * n
  {
    assert count * n == t * n + n + (count - t - 1) * n;
  }

  lemma {:induction false} DifferencesStand(inputs: seq<Input>, tasks: seq<string>, left: string, right: string, n: nat)
    requires forall i, m: Metric | 0 <= i < |inputs| :: m in inputs[i].document.metrics
    requires Paired(Rows(inputs), Grid(tasks, n), left, right)
    ensures var differences := DifferencesOf(Rows(inputs), Grid(tasks, n), left, right);
            && |differences| == |tasks| * n
            && forall t: nat | t < |tasks| ::
                 && t * n + n <= |differences|
                 && OfTask(differences[t * n..t * n + n], inputs, tasks[t], left, right)
  {
    var rows, grid := Rows(inputs), Grid(tasks, n);
    var differences := DifferencesOf(rows, grid, left, right);
    GridLength(tasks, n);
    assert |differences| == |grid|;
    hide OfTask, Lookup, DifferenceAt, DifferencesOf, Paired, Rows, Grid;
    forall t: nat | t < |tasks|
      ensures t * n + n <= |differences| && OfTask(differences[t * n..t * n + n], inputs, tasks[t], left, right)
    {
      TaskRange(t, |tasks|, n);
      TaskStands(inputs, tasks, left, right, n, t);
    }
  }

  lemma {:induction false} RowsStand(inputs: seq<Input>)
    requires forall i, m: Metric | 0 <= i < |inputs| :: m in inputs[i].document.metrics
    ensures forall i | 0 <= i < |inputs| :: RowOf(Rows(inputs)[i], inputs[i].document)
  {
    forall m: Metric ensures m in METRICS { AllMetrics(m); }
  }

  lemma {:induction false} AdmittedMetrics(inputs: seq<Input>, c: Context, digest: Digest)
    requires AllAdmitted(inputs, c, digest)
    ensures forall i, m: Metric | 0 <= i < |inputs| :: m in inputs[i].document.metrics
  {}

  /** A report on admitted documents accounts for them. */
  lemma {:induction false} ReportAccounts(report: Report, inputs: seq<Input>, tasks: seq<string>, lanes: seq<string>,
                                          n: nat, c: Context, digest: Digest)
    requires AllAdmitted(inputs, c, digest) && Distinct(tasks) && Complete(Rows(inputs), tasks, lanes, n)
    requires Reports(report, Rows(inputs), tasks, lanes, n)
    ensures Accounts(report, inputs, tasks, lanes, n)
  {
    AdmittedMetrics(inputs, c, digest);
    PairsAccount(report, inputs, tasks, lanes, n);
    assert Distinct(Keys(Rows(inputs)));
    hide AllAdmitted, Complete, Distinct, TotalsOf, RowOf, InOrder, Sorted, LaneTotals, Presented;
    hide AccountsPairs, Listed;
    RowsStand(inputs);
    PresentedHolds(Rows(inputs));
    PresentedInOrder(Rows(inputs));
    InOrderIsSorted(Presented(Rows(inputs)));
    forall lane | lane in lanes ensures TotalsOf(LaneTotals(Rows(inputs), lane), inputs, lane) {
      LaneTotalsOf(inputs, lane);
    }
  }

  lemma {:induction false} PairsAccount(report: Report, inputs: seq<Input>, tasks: seq<string>, lanes: seq<string>,
                                        n: nat)
    requires forall i, m: Metric | 0 <= i < |inputs| :: m in inputs[i].document.metrics
    requires Reports(report, Rows(inputs), tasks, lanes, n)
    ensures AccountsPairs(report.differences, inputs, tasks, lanes, n)
  {
    hide OfTask, Paired, Grid, LaneTotals, Presented, DifferencesOf, Rows;
    if |lanes| == 2 { DifferencesStand(inputs, tasks, lanes[0], lanes[1], n); }
  }

  /** The pairing check in terms of the seven fields that have to agree. */
  lemma {:induction false} PairsAgreeExactlyWhen(rows: seq<Row>, tasks: seq<string>, lanes: seq<string>, n: nat)
    requires Distinct(tasks) && Complete(rows, tasks, lanes, n) && lanes != []
    ensures PairsAgree(rows, Grid(tasks, n)) <==>
            forall a, b | a in rows && b in rows
                          && a.subject.task == b.subject.task && a.subject.trial == b.subject.trial ::
              && a.subject.model == b.subject.model && a.subject.tokenizer == b.subject.tokenizer
              && a.subject.configuration == b.subject.configuration && a.subject.harness == b.subject.harness
              && a.subject.host == b.subject.host && a.subject.toolchain == b.subject.toolchain
              && a.subject.state == b.subject.state
  {
    if PairsAgree(rows, Grid(tasks, n)) {
      forall a, b | a in rows && b in rows && a.subject.task == b.subject.task && a.subject.trial == b.subject.trial
        ensures a.Paired() == b.Paired()
      {
        PairsShareTheirSetting(rows, tasks, lanes, n, a, b);
      }
    } else {
      var grid := Grid(tasks, n);
      var k :| 0 <= k < |grid| && |PairingsAt(rows, grid[k].0, grid[k].1)| != 1;
      var b := TwoSettings(rows, tasks, lanes, n, k);
    }
  }

  lemma {:induction false} TwoSettings(rows: seq<Row>, tasks: seq<string>, lanes: seq<string>, n: nat, k: nat)
    returns (b: Row)
    requires Distinct(tasks) && Complete(rows, tasks, lanes, n) && lanes != [] && k < |Grid(tasks, n)|
    requires |PairingsAt(rows, Grid(tasks, n)[k].0, Grid(tasks, n)[k].1)| != 1
    ensures b in rows && exists a ::
              && a in rows && a.subject.task == b.subject.task && a.subject.trial == b.subject.trial
              && a.Paired() != b.Paired()
  {
    var p := Grid(tasks, n)[k];
    GridIs(tasks, n);
    assert p in Grid(tasks, n);
    var key := (p.0, lanes[0], p.1);
    assert Expected(key, tasks, lanes, n);
    assert key in Keys(rows);
    var a := Lookup(rows, key);
    var pairings := PairingsAt(rows, p.0, p.1);
    assert a.Paired() in pairings;
    var others := pairings - {a.Paired()};
    assert |others| == |pairings| - 1;
    var other :| other in others;
    b :| b in rows && b.subject.task == p.0 && b.subject.trial == p.1 && b.Paired() == other;
  }

  /** `make_report`: accepts exactly complete matrices of admitted documents made under agreeing pairings. */
  method MakeReport(inputs: seq<Input>, manifest: Manifest, c: Context, digest: Digest)
    returns (r: Result<Report, Failure>)
    requires manifest.Loaded()
    ensures r.Ok? <==>
              && AllAdmitted(inputs, c, digest)
              && Complete(Rows(inputs), manifest.tasks, Available(manifest.lanes), manifest.repetitions)
              && PairsAgree(Rows(inputs), Grid(manifest.tasks, manifest.repetitions))
    ensures r.Ok? ==> Reports(r.value, Rows(inputs), manifest.tasks, Available(manifest.lanes), manifest.repetitions)
    ensures r.Ok? ==> Accounts(r.value, inputs, manifest.tasks, Available(manifest.lanes), manifest.repetitions)
  {
    var tasks, available, n := manifest.tasks, Available(manifest.lanes), manifest.repetitions;
    var loaded := LoadAll(inputs, c, digest);
    if loaded.Err? { return Err(loaded.error); }
    hide AllAdmitted, PairsAgree;
    var rows := loaded.value;
    var failure := CheckMatrix(rows, tasks, available, n);
    if failure.Some? { return Err(failure.value); }
    var totals := map lane | lane in available :: LaneTotals(rows, lane);
    var differences: seq<Difference> := [];
    if |available| == 2 {
      var left, right := available[0], available[1];
      assert available == [left, right];
      hide Complete;
      AllConserve(rows, tasks, left, right, n);
      differences := PairUp(rows, tasks, n, left, right);
    }
    var report := Report(Presented(rows), totals, differences);
    hide Accounts;
    ReportAccounts(report, inputs, tasks, available, n, c, digest);
    return Ok(report);
  }

  /** An accepted report conserves: over its own pairs, lanes and observations. */
  lemma {:induction false} ReportsConserve(report: Report, rows: seq<Row>, tasks: seq<string>, lanes: seq<string>,
                                           n: nat)
    requires Distinct(tasks) && Distinct(lanes)
    requires Complete(rows, tasks, lanes, n) && Reports(report, rows, tasks, lanes, n)
    ensures multiset(report.rows) == multiset(rows) && InOrder(report.rows)
    ensures |lanes| == 2 ==> Conserves(report, lanes)
  {
    PresentedHolds(rows);
    PresentedInOrder(rows);
    if |lanes| == 2 {
      assert lanes == [lanes[0], lanes[1]];
      AllConserve(rows, tasks, lanes[0], lanes[1], n);
    }
  }

  ghost predicate Listed(differences: seq<Difference>, rows: seq<Row>, grid: seq<(string, int)>, left: string,
                         right: string) {
    Paired(rows, grid, left, right) && differences == DifferencesOf(rows, grid, left, right)
  }

  /** Every metric's paired differences add up to left lane total minus right lane total. */
  ghost predicate Conserves(report: Report, lanes: seq<string>)
    requires |lanes| == 2
  {
    && lanes[0] in report.totals && lanes[1] in report.totals
    && forall m :: m in report.totals[lanes[0]].metrics && m in report.totals[lanes[1]].metrics
        && SumDifferences(report.differences, m)
           == report.totals[lanes[0]].metrics[m] - report.totals[lanes[1]].metrics[m]
  }

  lemma {:induction false} AllConserve(rows: seq<Row>, tasks: seq<string>, left: string, right: string, n: nat)
    requires Distinct(tasks) && Complete(rows, tasks, [left, right], n)
    ensures Paired(rows, Grid(tasks, n), left, right)
    ensures forall m: Metric :: SumDifferences(DifferencesOf(rows, Grid(tasks, n), left, right), m)
                     == Sum(Selected(rows, left), m) - Sum(Selected(rows, right), m)
    ensures forall m :: m in METRICS
  {
    GridIsCovered(rows, tasks, [left, right], n, left);
    GridIsCovered(rows, tasks, [left, right], n, right);
    assert Paired(rows, Grid(tasks, n), left, right);
    forall m: Metric ensures m in METRICS && SumDifferences(DifferencesOf(rows, Grid(tasks, n), left, right), m)
                     == Sum(Selected(rows, left), m) - Sum(Selected(rows, right), m) {
      AllMetrics(m);
      DifferencesConserve(rows, tasks, left, right, n, m);
    }
  }

  lemma {:induction false} AdmittedAgrees(input: Input, c: Context, digest: Digest)
    requires DocumentAdmitted(input.document, input.path, input.files, c, digest)
    ensures Validated(input.document).accepted <==> input.document.subject.outcome == "completed"
  {}

  /** In an accepted report a lane completed as many trials as it passed. */
  lemma {:induction false} CompletedEqualsPassed(inputs: seq<Input>, c: Context, digest: Digest, lane: string)
    requires AllAdmitted(inputs, c, digest)
    ensures LaneTotals(Rows(inputs), lane).completed == LaneTotals(Rows(inputs), lane).accepted
  {
    hide DocumentAdmitted;
    var rows := Rows(inputs);
    var selected := Selected(rows, lane);
    SelectedAre(rows, lane);
    forall i | 0 <= i < |selected| ensures selected[i].accepted <==> selected[i].subject.outcome == "completed" {
      assert selected[i] in rows;
      var k :| 0 <= k < |rows| && rows[k] == selected[i];
      AdmittedAgrees(inputs[k], c, digest);
    }
    CompletedAreAccepted(selected);
  }
}
