/**
 * The counterbalanced order in which the matrix is run: tasks rotate from one repetition to the
 * next, and the two lanes take turns in going first.
 */
module Schedule {
  import opened Common
  import opened Matrix
  import opened Sequences

  datatype Refusal = NotPaired | InventoryDiffers
  datatype Schedule = Schedule(rows: seq<Key>, first: map<string, nat>)

  // --- Quotient and remainder, unfolded one step at a time ---

  function Quotient(p: nat, t: nat): nat
    requires t > 0
    decreases p
  {
    if p < t then 0 else 1 + Quotient(p - t, t)
  }

  function Remainder(p: nat, t: nat): (m: nat)
    requires t > 0
    ensures m < t
    decreases p
  {
    if p < t then p else Remainder(p - t, t)
  }

  lemma {:induction false} Divides(p: nat, t: nat)
    requires t > 0
    ensures p == Quotient(p, t) * t + Remainder(p, t)
    decreases p
  {
    if p >= t {
      Divides(p - t, t);
      var q := Quotient(p - t, t);
      assert (1 + q) * t == q * t + t;
    }
  }

  lemma {:induction false} QuotientOf(r: nat, s: nat, t: nat)
    requires s < t
    ensures r * t + s >= 0 && Quotient(r * t + s, t) == r && Remainder(r * t + s, t) == s
  {
    if r > 0 {
      QuotientOf(r - 1, s, t);
      assert r * t + s == (r - 1) * t + s + t;
      assert (r - 1) * t >= 0;
    }
  }

  lemma {:induction false} RemainderIsMod(p: nat, t: nat)
    requires t > 0
    ensures Remainder(p, t) == p % t
  {
    Divides(p, t);
    assert p == t * (p / t) + p % t;
    Multiples(Quotient(p, t) - p / t, p % t - Remainder(p, t), t);
  }

  /** A multiple of t strictly between -t and t is zero. */
  lemma {:induction false} Multiples(m: int, d: int, t: int)
    requires m * t == d && -t < d < t
    ensures m == 0 && d == 0
  {
    assert m >= 1 ==> m * t >= t;
    assert m <= -1 ==> m * t <= -t;
  }

  lemma {:induction false} InRange(r: nat, s: nat, n: nat, t: nat)
    requires s < t
    ensures r * t + s < n * t <==> r < n
  {
    if r < n {
      OneMore(r + 1, t);
      Scale(r + 1, n, t);
    } else {
      Scale(n, r, t);
    }
  }

  lemma {:induction false} Scale(a: nat, b: nat, k: nat)
    requires a <= b
    ensures a * k <= b * k
  {}

  // --- The order ---

  /** The task in a slot of a repetition. */
  function TaskAt(tasks: seq<string>, repetition: nat, slot: nat): string
    requires slot < |tasks|
  {
    tasks[Remainder(repetition + slot, |tasks|)]
  }

  /** One row of a pair, whose repetition and slot are the quotient and remainder of its number. */
  function PairRow(tasks: seq<string>, lanes: seq<string>, pair: nat, side: nat): Key
    requires tasks != [] && |lanes| == 2
  {
    var repetition, slot := Quotient(pair, |tasks|), Remainder(pair, |tasks|);
    (TaskAt(tasks, repetition, slot), lanes[(pair + side) % 2], repetition + 1)
  }

  /** The first pairs of the order; n repetitions have n * |tasks| of them. */
  function Ordered(tasks: seq<string>, lanes: seq<string>, pairs: nat): (rows: seq<Key>)
    requires tasks != [] && |lanes| == 2
    ensures |rows| == 2 * pairs
  {
    if pairs == 0 then []
    else Ordered(tasks, lanes, pairs - 1) + [PairRow(tasks, lanes, pairs - 1, 0), PairRow(tasks, lanes, pairs - 1, 1)]
  }

  lemma {:induction false} OrderedAt(tasks: seq<string>, lanes: seq<string>, pairs: nat, p: nat)
    requires tasks != [] && |lanes| == 2 && p < pairs
    ensures Ordered(tasks, lanes, pairs)[2 * p] == PairRow(tasks, lanes, p, 0)
    ensures Ordered(tasks, lanes, pairs)[2 * p + 1] == PairRow(tasks, lanes, p, 1)
  {
    if p < pairs - 1 { OrderedAt(tasks, lanes, pairs - 1, p); }
  }

  /** Every position in a full turn is reached. */
  lemma {:induction false} Solve(a: nat, known: nat, t: nat) returns (x: nat)
    requires a < t
    ensures x < t && Remainder(known + x, t) == a
  {
    var q, m := Quotient(known, t), Remainder(known, t);
    Divides(known, t);
    if m <= a {
      x := a - m;
      QuotientOf(q, a, t);
    } else {
      x := a - m + t;
      assert (q + 1) * t == q * t + t;
      QuotientOf(q + 1, a, t);
    }
  }

  /** ... and only once. */
  lemma {:induction false} SolveOnce(x: nat, y: nat, t: nat)
    requires t > 0 && Remainder(x, t) == Remainder(y, t) && -(t as int) < x - y < t
    ensures x == y
  {
    Divides(x, t);
    Divides(y, t);
    SameRemainder(x, y, Quotient(x, t), Quotient(y, t), Remainder(x, t), t);
  }

  lemma {:induction false} SameRemainder(x: nat, y: nat, a: nat, b: nat, m: nat, t: nat)
    requires x == a * t + m && y == b * t + m && -(t as int) < x - y < t
    ensures x == y
  {
    assert (a - b) * t == a * t - b * t;
    Multiples(a - b, x - y, t);
  }

  // --- What the order is for ---

  lemma {:induction false} IndexOf<T>(s: seq<T>, x: T) returns (i: nat)
    requires x in s
    ensures i < |s| && s[i] == x
  {
    i :| 0 <= i < |s| && s[i] == x;
  }

  lemma {:induction false} SameIndex<T>(s: seq<T>, i: nat, j: nat)
    requires Distinct(s) && i < |s| && j < |s| && s[i] == s[j]
    ensures i == j
  {}

  lemma {:induction false} PairsAreExpected(tasks: seq<string>, lanes: seq<string>, n: nat, p: nat, side: nat)
    requires tasks != [] && |lanes| == 2 && p < n * |tasks|
    ensures Expected(PairRow(tasks, lanes, p, side), tasks, lanes, n)
  {
    var t := |tasks|;
    Divides(p, t);
    InRange(Quotient(p, t), Remainder(p, t), n, t);
  }

  lemma {:induction false} PairIsListed(tasks: seq<string>, lanes: seq<string>, pairs: nat, p: nat, side: nat)
    requires tasks != [] && |lanes| == 2 && p < pairs && side < 2
    ensures PairRow(tasks, lanes, p, side) in Ordered(tasks, lanes, pairs)
  {
    OrderedAt(tasks, lanes, pairs, p);
    var rows := Ordered(tasks, lanes, pairs);
    assert rows[2 * p] in rows && rows[2 * p + 1] in rows;
  }

  lemma {:induction false} SideOf(p: nat, b: nat) returns (side: nat)
    requires b < 2
    ensures side < 2 && (p + side) % 2 == b
  {
    side := (p + b) % 2;
  }

  lemma {:induction false} ExpectedIsListed(tasks: seq<string>, lanes: seq<string>, n: nat, key: Key)
    requires tasks != [] && |lanes| == 2 && Expected(key, tasks, lanes, n)
    ensures key in Ordered(tasks, lanes, n * |tasks|)
  {
    var t := |tasks|;
    var a := IndexOf(tasks, key.0);
    var b := IndexOf(lanes, key.1);
    var r: nat := key.2 - 1;
    var s := Solve(a, r, t);
    QuotientOf(r, s, t);
    InRange(r, s, n, t);
    var side := SideOf(r * t + s, b);
    PairIsListed(tasks, lanes, n * t, r * t + s, side);
  }

  lemma {:induction false} SidesDiffer(lanes: seq<string>, p: nat, e: nat, f: nat)
    requires |lanes| == 2 && lanes[0] != lanes[1] && e < 2 && f < 2 && lanes[(p + e) % 2] == lanes[(p + f) % 2]
    ensures e == f
  {
    assert (p + e) % 2 == (p + f) % 2;
  }

  lemma {:induction false} PairsDiffer(tasks: seq<string>, lanes: seq<string>, p: nat, q: nat, e: nat, f: nat)
    requires tasks != [] && |lanes| == 2 && Distinct(tasks) && lanes[0] != lanes[1] && e < 2 && f < 2
    requires PairRow(tasks, lanes, p, e) == PairRow(tasks, lanes, q, f)
    ensures p == q && e == f
  {
    var t := |tasks|;
    var r, s, u := Quotient(p, t), Remainder(p, t), Remainder(q, t);
    SameIndex(tasks, Remainder(r + s, t), Remainder(r + u, t));
    SolveOnce(r + s, r + u, t);
    Divides(p, t);
    Divides(q, t);
    SidesDiffer(lanes, p, e, f);
  }

  lemma {:induction false} RowOfPair(tasks: seq<string>, lanes: seq<string>, pairs: nat, k: nat)
    requires tasks != [] && |lanes| == 2 && k < 2 * pairs
    ensures k / 2 < pairs && k % 2 < 2 && Ordered(tasks, lanes, pairs)[k] == PairRow(tasks, lanes, k / 2, k % 2)
  {
    OrderedAt(tasks, lanes, pairs, k / 2);
  }

  lemma {:induction false} OrderedDistinct(tasks: seq<string>, lanes: seq<string>, pairs: nat)
    requires tasks != [] && |lanes| == 2 && Distinct(tasks) && lanes[0] != lanes[1]
    ensures Distinct(Ordered(tasks, lanes, pairs))
  {
    var rows := Ordered(tasks, lanes, pairs);
    forall i, j | 0 <= i < j < |rows| ensures rows[i] != rows[j] {
      RowOfPair(tasks, lanes, pairs, i);
      RowOfPair(tasks, lanes, pairs, j);
      if rows[i] == rows[j] { PairsDiffer(tasks, lanes, i / 2, j / 2, i % 2, j % 2); }
    }
  }

  /** The schedule is a permutation of the matrix. */
  lemma {:induction false} ScheduleIsThePermutedMatrix(tasks: seq<string>, lanes: seq<string>, n: nat)
    requires tasks != [] && |lanes| == 2 && Distinct(tasks) && Distinct(lanes)
    ensures multiset(Ordered(tasks, lanes, n * |tasks|)) == multiset(Cells(tasks, lanes, n))
  {
    var pairs := n * |tasks|;
    var rows := Ordered(tasks, lanes, pairs);
    CellsAre(tasks, lanes, n);
    OrderedDistinct(tasks, lanes, pairs);
    forall key ensures key in rows <==> key in Cells(tasks, lanes, n) {
      if key in rows {
        var k := IndexOf(rows, key);
        RowOfPair(tasks, lanes, pairs, k);
        PairsAreExpected(tasks, lanes, n, k / 2, k % 2);
      }
      if Expected(key, tasks, lanes, n) { ExpectedIsListed(tasks, lanes, n, key); }
    }
    Permuted(rows, Cells(tasks, lanes, n));
  }

  lemma {:induction false} Turns(p: nat)
    ensures (p + 0) % 2 == p % 2 && (p + 1) % 2 == 1 - p % 2
  {}

  /** Adjacent rows are a pair: one task and trial in both lanes, the lanes taking turns in going first. */
  lemma {:induction false} AdjacentRowsArePairs(tasks: seq<string>, lanes: seq<string>, pairs: nat, p: nat)
    requires tasks != [] && |lanes| == 2 && p < pairs
    ensures var rows := Ordered(tasks, lanes, pairs);
            && rows[2 * p].0 == rows[2 * p + 1].0 && rows[2 * p].2 == rows[2 * p + 1].2
            && rows[2 * p].1 == lanes[p % 2] && rows[2 * p + 1].1 == lanes[1 - p % 2]
  {
    OrderedAt(tasks, lanes, pairs, p);
    Turns(p);
  }

  /** Both rows of a slot of a repetition belong to the task. */
  ghost predicate Occupies(tasks: seq<string>, lanes: seq<string>, n: nat, repetition: nat, slot: nat, task: string)
    requires |lanes| == 2 && slot < |tasks| && repetition < n
  {
    var p, rows := repetition * |tasks| + slot, Ordered(tasks, lanes, n * |tasks|);
    && 0 <= p && 2 * p + 1 < |rows|
    && rows[2 * p].0 == task && rows[2 * p + 1].0 == task && rows[2 * p].2 == repetition + 1
  }

  lemma {:induction false} SlotHolds(tasks: seq<string>, lanes: seq<string>, n: nat, r: nat, s: nat, task: string)
    requires |lanes| == 2 && s < |tasks| && r < n
    ensures Occupies(tasks, lanes, n, r, s, task) <==> task == TaskAt(tasks, r, s)
  {
    InRange(r, s, n, |tasks|);
    QuotientOf(r, s, |tasks|);
    OrderedAt(tasks, lanes, n * |tasks|, r * |tasks| + s);
  }

  /** Over any |tasks| consecutive repetitions, a task occupies a given slot exactly once. */
  lemma {:induction false} EachSlotOnce(tasks: seq<string>, lanes: seq<string>, n: nat, start: nat, slot: nat,
                                        task: string)
    returns (r: nat)
    requires |lanes| == 2 && Distinct(tasks) && task in tasks && slot < |tasks| && start + |tasks| <= n
    ensures start <= r < start + |tasks|
    ensures forall x | start <= x < start + |tasks| :: Occupies(tasks, lanes, n, x, slot, task) <==> x == r
  {
    var t := |tasks|;
    var a := IndexOf(tasks, task);
    var d := Solve(a, start + slot, t);
    r := start + d;
    assert start + slot + d == r + slot;
    forall x: nat | start <= x < start + t ensures Occupies(tasks, lanes, n, x, slot, task) <==> x == r {
      SlotHolds(tasks, lanes, n, x, slot, task);
      if task == TaskAt(tasks, x, slot) {
        SameIndex(tasks, Remainder(x + slot, t), a);
        SolveOnce(x + slot, r + slot, t);
      }
    }
  }

  /** In one repetition, every task occupies exactly one slot. */
  lemma {:induction false} EachTaskOnce(tasks: seq<string>, lanes: seq<string>, n: nat, repetition: nat, task: string)
    returns (s: nat)
    requires |lanes| == 2 && Distinct(tasks) && task in tasks && repetition < n
    ensures s < |tasks|
    ensures forall x | 0 <= x < |tasks| :: Occupies(tasks, lanes, n, repetition, x, task) <==> x == s
  {
    var t := |tasks|;
    var a := IndexOf(tasks, task);
    s := Solve(a, repetition, t);
    forall x: nat | x < t ensures Occupies(tasks, lanes, n, repetition, x, task) <==> x == s {
      SlotHolds(tasks, lanes, n, repetition, x, task);
      if task == TaskAt(tasks, repetition, x) {
        SameIndex(tasks, Remainder(repetition + x, t), a);
        SolveOnce(repetition + x, repetition + s, t);
      }
    }
  }

  // --- Who goes first ---

  /** How often a lane takes the first row of a pair. */
  function FirstCount(rows: seq<Key>, lane: string): nat {
    if |rows| < 2 then 0
    else FirstCount(rows[..|rows| - 2], lane) + (if rows[|rows| - 2].1 == lane then 1 else 0)
  }

  function Counts(lanes: seq<string>, rows: seq<Key>): map<string, nat>
    requires |lanes| == 2
  {
    map[lanes[0] := FirstCount(rows, lanes[0]), lanes[1] := FirstCount(rows, lanes[1])]
  }

  lemma {:induction false} CountOne(rows: seq<Key>, a: Key, b: Key, lane: string)
    ensures FirstCount(rows + [a, b], lane) == FirstCount(rows, lane) + if a.1 == lane then 1 else 0
  {
    assert (rows + [a, b])[..|rows|] == rows;
  }

  /** The first positions are split evenly, up to one. */
  lemma {:induction false} FirstCountsBalance(tasks: seq<string>, lanes: seq<string>, pairs: nat)
    requires tasks != [] && |lanes| == 2 && lanes[0] != lanes[1]
    ensures var rows := Ordered(tasks, lanes, pairs);
            && FirstCount(rows, lanes[0]) + FirstCount(rows, lanes[1]) == pairs
            && FirstCount(rows, lanes[0]) - FirstCount(rows, lanes[1]) == pairs % 2
  {
    if pairs > 0 {
      var p := pairs - 1;
      FirstCountsBalance(tasks, lanes, p);
      Turns(p);
      var rows, a, b := Ordered(tasks, lanes, p), PairRow(tasks, lanes, p, 0), PairRow(tasks, lanes, p, 1);
      CountOne(rows, a, b, lanes[0]);
      CountOne(rows, a, b, lanes[1]);
    }
  }

  // --- Reading tasks, lanes and trials back off the matrix ---

  function TasksOf(rows: seq<Key>): seq<string> {
    seq(|rows|, i requires 0 <= i < |rows| => rows[i].0)
  }

  function LanesOf(rows: seq<Key>): seq<string> {
    seq(|rows|, i requires 0 <= i < |rows| => rows[i].1)
  }

  lemma {:induction false} OfAppended(a: seq<Key>, b: seq<Key>)
    ensures TasksOf(a + b) == TasksOf(a) + TasksOf(b)
    ensures LanesOf(a + b) == LanesOf(a) + LanesOf(b)
  {}

  /** A list continued by one repeated new element gains that element once. */
  lemma {:induction false} UnrepeatedGains<T>(s: seq<T>, more: seq<T>, x: T)
    requires more != [] && (forall i | 0 <= i < |more| :: more[i] == x) && x !in s
    ensures Unrepeated(s + more) == Unrepeated(s) + [x]
  {
    assert s + more == (s + [x]) + more[1..];
    UnrepeatedAbsorbs(s + [x], more[1..]);
    assert (s + [x])[..|s|] == s;
    UnrepeatedKeeps(s);
  }

  lemma {:induction false} TasksReadBack(tasks: seq<string>, lanes: seq<string>, n: nat)
    requires Distinct(tasks) && lanes != [] && n > 0
    ensures Unrepeated(TasksOf(Cells(tasks, lanes, n))) == tasks
  {
    if tasks != [] {
      var last := |tasks| - 1;
      TasksReadBack(tasks[..last], lanes, n);
      var front, back := Cells(tasks[..last], lanes, n), LaneCells(tasks[last], lanes, n);
      LaneCellsTask(tasks[last], lanes, n);
      assert Cells(tasks, lanes, n) == front + back;
      hide Cells, LaneCells, Unrepeated;
      UnrepeatedKeeps(TasksOf(front));
      assert tasks[last] !in tasks[..last];
      UnrepeatedGains(TasksOf(front), TasksOf(back), tasks[last]);
      OfAppended(front, back);
    }
  }

  lemma {:induction false} LaneCellsTask(task: string, lanes: seq<string>, n: nat)
    ensures forall i | 0 <= i < |LaneCells(task, lanes, n)| :: LaneCells(task, lanes, n)[i].0 == task
    ensures lanes != [] && n > 0 ==> LaneCells(task, lanes, n) != []
  {
    if lanes != [] {
      var last := |lanes| - 1;
      LaneCellsTask(task, lanes[..last], n);
      TrialsAre(task, lanes[last], n);
      var back := Trials(task, lanes[last], n);
      forall i | 0 <= i < |back| ensures back[i].0 == task { assert back[i] in back; }
    }
  }

  lemma {:induction false} TrialsLane(task: string, lane: string, n: nat)
    ensures var lanes := LanesOf(Trials(task, lane, n)); |lanes| == n && forall i | 0 <= i < n :: lanes[i] == lane
  {
    var trials := Trials(task, lane, n);
    TrialsAre(task, lane, n);
    forall i | 0 <= i < |trials| ensures trials[i].1 == lane { assert trials[i] in trials; }
  }

  lemma {:induction false} LanesOfOneTask(task: string, lanes: seq<string>, n: nat)
    requires Distinct(lanes) && n > 0
    ensures Unrepeated(LanesOf(LaneCells(task, lanes, n))) == lanes
  {
    if lanes != [] {
      var last := |lanes| - 1;
      LanesOfOneTask(task, lanes[..last], n);
      var front, back := LaneCells(task, lanes[..last], n), Trials(task, lanes[last], n);
      TrialsLane(task, lanes[last], n);
      UnrepeatedKeeps(LanesOf(front));
      assert lanes[last] !in lanes[..last];
      UnrepeatedGains(LanesOf(front), LanesOf(back), lanes[last]);
      OfAppended(front, back);
    }
  }

  lemma {:induction false} LanesReadBack(tasks: seq<string>, lanes: seq<string>, n: nat)
    requires Distinct(lanes) && tasks != [] && n > 0
    ensures Unrepeated(LanesOf(Cells(tasks, lanes, n))) == lanes
  {
    var last := |tasks| - 1;
    var front, back := Cells(tasks[..last], lanes, n), LaneCells(tasks[last], lanes, n);
    LanesOfOneTask(tasks[last], lanes, n);
    assert Cells(tasks, lanes, n) == front + back && (last == 0 ==> front == []);
    hide Cells, LaneCells, Unrepeated;
    if last == 0 {
      assert front + back == back;
    } else {
      LanesReadBack(tasks[..last], lanes, n);
      UnrepeatedKeeps(LanesOf(front));
      UnrepeatedKeeps(LanesOf(back));
      UnrepeatedAbsorbs(LanesOf(front), LanesOf(back));
      OfAppended(front, back);
    }
  }

  /** An ascending list of exactly 1..n counts up. */
  lemma {:induction false} CountsUp(trials: seq<int>, n: nat)
    requires Ascends(trials)
    requires forall x :: x in trials <==> 1 <= x <= n
    ensures |trials| == n
    ensures forall i | 0 <= i < n :: trials[i] == i + 1
  {
    if |trials| > 0 {
      var first := trials[0];
      assert first in trials;
    }
    if n > 0 {
      assert n in trials;
      var i := IndexOf(trials, n);
      var last := |trials| - 1;
      assert trials[last] in trials;
      assert i == last;
      var front := trials[..last];
      forall x ensures x in front <==> 1 <= x <= n - 1 {
        if x in front {
          var k := IndexOf(front, x);
          assert trials[k] in trials && trials[k] < trials[last];
        }
        if 1 <= x <= n - 1 {
          var k := IndexOf(trials, x);
          assert front[k] == x;
        }
      }
      CountsUp(front, n - 1);
    }
  }

  ghost predicate Ascends(t: seq<int>) {
    forall i, j | 0 <= i < j < |t| :: t[i] < t[j]
  }

  function TrialsOf(rows: seq<Key>): seq<int> {
    seq(|rows|, i requires 0 <= i < |rows| => rows[i].2)
  }

  function Include(t: seq<int>, x: int): seq<int> {
    if t == [] then [x]
    else if x < t[0] then [x] + t
    else if x == t[0] then t
    else [t[0]] + Include(t[1..], x)
  }

  /** `sorted({...})` over integers. */
  function SortedSet(s: seq<int>): seq<int> {
    if s == [] then [] else Include(SortedSet(s[..|s| - 1]), s[|s| - 1])
  }

  lemma {:induction false} IncludeAscends(t: seq<int>, x: int)
    requires Ascends(t)
    ensures Ascends(Include(t, x))
    ensures forall y :: y in Include(t, x) <==> y == x || y in t
  {
    if t != [] && x > t[0] {
      IncludeAscends(t[1..], x);
      assert t == [t[0]] + t[1..];
      var rest := Include(t[1..], x);
      forall i | 0 <= i < |rest| ensures t[0] < rest[i] {
        var y := rest[i];
        assert y in rest;
        if y != x { var k := IndexOf(t[1..], y); }
      }
    }
  }

  lemma {:induction false} SortedSetIs(s: seq<int>)
    ensures Ascends(SortedSet(s))
    ensures forall y :: y in SortedSet(s) <==> y in s
  {
    if s != [] {
      SortedSetIs(s[..|s| - 1]);
      IncludeAscends(SortedSet(s[..|s| - 1]), s[|s| - 1]);
      LastOrBefore(s);
    }
  }

  // --- The schedule, pair by pair ---

  /** Pair p: the task that far from the start of its repetition, in both lanes. */
  ghost predicate PairStands(rows: seq<Key>, p: nat, tasks: seq<string>, lanes: seq<string>)
    requires tasks != [] && |lanes| == 2
  {
    var t := |tasks|;
    var repetition, slot := p / t, p % t;
    && 2 * p + 1 < |rows|
    && rows[2 * p] == (tasks[(repetition + slot) % t], lanes[p % 2], repetition + 1)
    && rows[2 * p + 1] == (tasks[(repetition + slot) % t], lanes[(p + 1) % 2], repetition + 1)
  }

  /** All pairs of all repetitions, and how often each lane goes first. */
  ghost predicate Arranged(s: Schedule, tasks: seq<string>, lanes: seq<string>, n: nat)
    requires tasks != [] && |lanes| == 2
  {
    && |s.rows| == 2 * (n * |tasks|) && (forall p: nat | p < n * |tasks| :: PairStands(s.rows, p, tasks, lanes))
    && s.first.Keys == {lanes[0], lanes[1]}
    && s.first[lanes[0]] == (n * |tasks| + 1) / 2 && s.first[lanes[1]] == n * |tasks| / 2
  }

  lemma {:induction false} OrderedPairStands(tasks: seq<string>, lanes: seq<string>, pairs: nat, p: nat)
    requires tasks != [] && |lanes| == 2 && p < pairs
    ensures PairStands(Ordered(tasks, lanes, pairs), p, tasks, lanes)
  {
    var t := |tasks|;
    OrderedAt(tasks, lanes, pairs, p);
    RemainderIsMod(p, t);
    Divides(p, t);
    QuotientIs(p, t, Quotient(p, t), Remainder(p, t));
    RemainderIsMod(p / t + p % t, t);
    hide Ordered, Remainder, Quotient;
  }

  lemma {:induction false} QuotientIs(p: nat, t: nat, q: nat, m: nat)
    requires t > 0 && p == q * t + m && m < t
    ensures p / t == q
  {
    Multiples(p / t - q, m - p % t, t);
  }

  lemma {:induction false} ScheduleIsArranged(s: Schedule, tasks: seq<string>, lanes: seq<string>, n: nat)
    requires tasks != [] && |lanes| == 2 && lanes[0] != lanes[1]
    requires s.rows == Ordered(tasks, lanes, n * |tasks|) && s.first == Counts(lanes, s.rows)
    ensures Arranged(s, tasks, lanes, n)
  {
    var pairs := n * |tasks|;
    FirstCountsBalance(tasks, lanes, pairs);
    hide Ordered, FirstCount, PairStands;
    forall p: nat | p < pairs { OrderedPairStands(tasks, lanes, pairs, p); }
    assert |s.rows| == 2 * pairs;
  }

  /** `make_schedule`: succeeds exactly when there are tasks, trials and two available lanes. */
  method MakeSchedule(manifest: Manifest) returns (r: Result<Schedule, Refusal>)
    requires manifest.Loaded()
    ensures r.Ok? <==> manifest.tasks != [] && |Available(manifest.lanes)| == 2 && manifest.repetitions > 0
    ensures r.Ok? ==>
              r.value.rows
              == Ordered(manifest.tasks, Available(manifest.lanes), manifest.repetitions * |manifest.tasks|)
    ensures r.Ok? ==> r.value.first == Counts(Available(manifest.lanes), r.value.rows)
    ensures r.Ok? ==> Arranged(r.value, manifest.tasks, Available(manifest.lanes), manifest.repetitions)
  {
    ghost var available, n := Available(manifest.lanes), manifest.repetitions;
    AvailableAreDistinct(manifest.lanes);
    var matrix := MakeMatrix(manifest);
    var tasks, lanes := Unrepeated(TasksOf(matrix)), Unrepeated(LanesOf(matrix));
    ReadBack(manifest.tasks, available, n);
    if |lanes| != 2 || tasks == [] { return Err(NotPaired); }
    var trials := SortedSet(TrialsOf(matrix));
    TrialsReadBack(tasks, lanes, n);
    var inventory := set row | row in matrix;
    var rows, first := Place(tasks, lanes, trials);
    InventoryAgrees(tasks, lanes, n);
    if |rows| != |inventory| || |inventory| != |matrix| { return Err(InventoryDiffers); }
    hide Arranged;
    ScheduleIsArranged(Schedule(rows, first), tasks, lanes, n);
    return Ok(Schedule(rows, first));
  }

  lemma {:induction false} InventoryAgrees(tasks: seq<string>, lanes: seq<string>, n: nat)
    requires tasks != [] && |lanes| == 2 && Distinct(tasks) && Distinct(lanes)
    ensures var rows, matrix := Ordered(tasks, lanes, n * |tasks|), Cells(tasks, lanes, n);
            |rows| == |set row | row in matrix| == |matrix|
  {
    var rows, matrix := Ordered(tasks, lanes, n * |tasks|), Cells(tasks, lanes, n);
    ScheduleIsThePermutedMatrix(tasks, lanes, n);
    CellsAre(tasks, lanes, n);
    CountsWhenDistinct(matrix);
    assert |multiset(rows)| == |rows| && |multiset(matrix)| == |matrix|;
  }

  lemma {:induction false} NothingToRun(tasks: seq<string>, lanes: seq<string>, n: nat)
    requires tasks == [] || lanes == [] || n == 0
    ensures Cells(tasks, lanes, n) == []
  {
    CellsCount(tasks, lanes, n, |lanes| * n);
  }

  lemma {:induction false} ReadBack(tasks: seq<string>, lanes: seq<string>, n: nat)
    requires Distinct(tasks) && Distinct(lanes)
    ensures var rows := Cells(tasks, lanes, n);
            if tasks != [] && lanes != [] && n > 0
            then Unrepeated(TasksOf(rows)) == tasks && Unrepeated(LanesOf(rows)) == lanes
            else Unrepeated(TasksOf(rows)) == [] && Unrepeated(LanesOf(rows)) == []
  {
    if tasks != [] && lanes != [] && n > 0 {
      TasksReadBack(tasks, lanes, n);
      LanesReadBack(tasks, lanes, n);
    } else {
      NothingToRun(tasks, lanes, n);
    }
  }

  lemma {:induction false} TrialsReadBack(tasks: seq<string>, lanes: seq<string>, n: nat)
    requires Distinct(tasks) && Distinct(lanes) && tasks != [] && lanes != []
    ensures var trials := SortedSet(TrialsOf(Cells(tasks, lanes, n)));
            |trials| == n && forall i | 0 <= i < n :: trials[i] == i + 1
  {
    var rows := Cells(tasks, lanes, n);
    var all := TrialsOf(rows);
    CellsAre(tasks, lanes, n);
    SortedSetIs(all);
    forall x ensures x in SortedSet(all) <==> 1 <= x <= n {
      if x in all {
        var i := IndexOf(all, x);
        assert rows[i] in rows;
      }
      if 1 <= x <= n {
        var key := (tasks[0], lanes[0], x);
        assert Expected(key, tasks, lanes, n);
        var i := IndexOf(rows, key);
        assert all[i] == x;
      }
    }
    CountsUp(SortedSet(all), n);
  }

  /** The placement loops: repetition by repetition, slot by slot, both sides of a pair. */
  method Place(tasks: seq<string>, lanes: seq<string>, trials: seq<int>)
    returns (rows: seq<Key>, first: map<string, nat>)
    requires tasks != [] && |lanes| == 2 && lanes[0] != lanes[1]
    requires forall i | 0 <= i < |trials| :: trials[i] == i + 1
    ensures Placed(tasks, lanes, rows, first, |trials| * |tasks|)
  {
    rows := [];
    first := map[lanes[0] := 0, lanes[1] := 0];
    ghost var done: nat := 0;
    assert first == Counts(lanes, rows);
    for repetition := 0 to |trials|
      invariant Placed(tasks, lanes, rows, first, done) && done == repetition * |tasks|
    {
      var order := Rotation(tasks, repetition);
      RepetitionIs(tasks, lanes, repetition, done);
      rows, first := PlaceRepetition(tasks, lanes, order, rows, first, trials[repetition], done);
      done := done + |tasks|;
      OneMore(repetition + 1, |tasks|);
    }
  }

  /** `tasks[offset:] + tasks[:offset]`, where the offset is the repetition modulo the number of tasks. */
  function Rotation(tasks: seq<string>, repetition: nat): (order: seq<string>)
    requires tasks != []
    ensures |order| == |tasks|
  {
    var offset := repetition % |tasks|;
    tasks[offset..] + tasks[..offset]
  }

  /** What the two rows of a pair have to be. */
  ghost predicate PairIs(tasks: seq<string>, lanes: seq<string>, p: nat, task: string, trial: int)
    requires tasks != [] && |lanes| == 2
  {
    && PairRow(tasks, lanes, p, 0) == (task, lanes[p % 2], trial)
    && PairRow(tasks, lanes, p, 1) == (task, lanes[1 - p % 2], trial)
  }

  method PlaceRepetition(tasks: seq<string>, lanes: seq<string>, order: seq<string>, before: seq<Key>,
                         counted: map<string, nat>, trial: int, ghost base: nat)
    returns (rows: seq<Key>, first: map<string, nat>)
    requires tasks != [] && |lanes| == 2 && Placed(tasks, lanes, before, counted, base)
    requires |order| == |tasks| && forall s | 0 <= s < |tasks| :: PairIs(tasks, lanes, base + s, order[s], trial)
    ensures Placed(tasks, lanes, rows, first, base + |order|)
  {
    hide Ordered, Counts, PairRow;
    rows, first := before, counted;
    for slot := 0 to |order|
      invariant Placed(tasks, lanes, rows, first, base + slot)
    {
      rows, first := PlacePair(tasks, lanes, rows, first, order[slot], trial);
    }
  }

  method PlacePair(tasks: seq<string>, lanes: seq<string>, before: seq<Key>, counted: map<string, nat>, task: string,
                   trial: int)
    returns (rows: seq<Key>, first: map<string, nat>)
    requires tasks != [] && |lanes| == 2 && Placed(tasks, lanes, before, counted, |before| / 2)
    requires PairIs(tasks, lanes, |before| / 2, task, trial)
    ensures Placed(tasks, lanes, rows, first, |before| / 2 + 1)
  {
    var pair := |before| / 2;
    var ordered := if pair % 2 == 0 then lanes else [lanes[1], lanes[0]];
    first := counted[ordered[0] := counted[ordered[0]] + 1];
    rows := before + [(task, ordered[0], trial), (task, ordered[1], trial)];
    PlaceOne(tasks, lanes, before, counted, pair, (task, ordered[0], trial), (task, ordered[1], trial));
  }

  /** Moving the first tasks to the end, as the scheduler does, puts task (r + s) mod |tasks| into slot s. */
  lemma {:induction false} RotationIs(tasks: seq<string>, r: nat, s: nat)
    requires s < |tasks|
    ensures Rotation(tasks, r)[s] == TaskAt(tasks, r, s)
  {
    var t := |tasks|;
    var q, offset := Quotient(r, t), Remainder(r, t);
    Divides(r, t);
    RemainderIsMod(r, t);
    if offset + s < t {
      QuotientOf(q, offset + s, t);
    } else {
      assert (q + 1) * t == q * t + t;
      QuotientOf(q + 1, offset + s - t, t);
    }
  }

  lemma {:induction false} RepetitionIs(tasks: seq<string>, lanes: seq<string>, r: nat, base: nat)
    requires |lanes| == 2 && tasks != [] && base == r * |tasks|
    ensures var order := Rotation(tasks, r);
            forall s | 0 <= s < |tasks| :: PairIs(tasks, lanes, base + s, order[s], r + 1)
  {
    forall s: nat | s < |tasks| {
      SlotIs(tasks, lanes, r, s, base + s);
    }
  }

  lemma {:induction false} SlotIs(tasks: seq<string>, lanes: seq<string>, r: nat, s: nat, p: nat)
    requires |lanes| == 2 && s < |tasks| && p == r * |tasks| + s
    ensures PairIs(tasks, lanes, p, Rotation(tasks, r)[s], r + 1)
  {
    RotationIs(tasks, r, s);
    QuotientOf(r, s, |tasks|);
    Turns(p);
  }

  /** After p pairs: their rows, and who went first in them. */
  ghost predicate Placed(tasks: seq<string>, lanes: seq<string>, rows: seq<Key>, first: map<string, nat>, p: nat)
    requires tasks != [] && |lanes| == 2
  {
    rows == Ordered(tasks, lanes, p) && first == Counts(lanes, rows)
  }

  lemma {:induction false} PlaceOne(tasks: seq<string>, lanes: seq<string>, rows: seq<Key>, first: map<string, nat>,
                                    p: nat, a: Key, b: Key)
    requires tasks != [] && |lanes| == 2 && Placed(tasks, lanes, rows, first, p) && a.1 in first
    requires a == PairRow(tasks, lanes, p, 0) && b == PairRow(tasks, lanes, p, 1)
    ensures Placed(tasks, lanes, rows + [a, b], first[a.1 := first[a.1] + 1], p + 1)
  {
    assert rows + [a, b] == Ordered(tasks, lanes, p + 1);
    hide Ordered, FirstCount, PairRow;
    CountOne(rows, a, b, lanes[0]);
    CountOne(rows, a, b, lanes[1]);
    assert first[a.1 := first[a.1] + 1] == Counts(lanes, rows + [a, b]);
  }
}
