/** The matrix of trials: every task in every available lane, repeated. */
module Matrix {
  import opened Sequences

  type Key = (string, string, int)
  datatype Lane = Lane(id: string, available: bool)
  datatype Manifest = Manifest(tasks: seq<string>, lanes: seq<Lane>, repetitions: nat) {
    /** Task and lane ids are unique, as loading the manifest has established. */
    ghost predicate Loaded() { Distinct(tasks) && Distinct(LaneIds(lanes)) }
  }

  function LaneIds(lanes: seq<Lane>): seq<string> {
    seq(|lanes|, i requires 0 <= i < |lanes| => lanes[i].id)
  }

  function Available(lanes: seq<Lane>): seq<string> {
    if lanes == [] then []
    else
      var last := lanes[|lanes| - 1];
      Available(lanes[..|lanes| - 1]) + (if last.available then [last.id] else [])
  }

  lemma {:induction false} AvailableAreDistinct(lanes: seq<Lane>)
    requires Distinct(LaneIds(lanes))
    ensures Distinct(Available(lanes))
    ensures forall x | x in Available(lanes) :: x in LaneIds(lanes)
  {
    if lanes != [] {
      var n := |lanes| - 1;
      assert LaneIds(lanes[..n]) == LaneIds(lanes)[..n] && LaneIds(lanes)[n] == lanes[n].id;
      AvailableAreDistinct(lanes[..n]);
      assert lanes[n].id !in LaneIds(lanes)[..n];
      assert forall x | x in LaneIds(lanes)[..n] :: x in LaneIds(lanes);
      assert LaneIds(lanes)[n] in LaneIds(lanes);
    }
  }

  /** The available lanes' ids, in the order of the manifest. */
  lemma {:induction false} AvailableAre(lanes: seq<Lane>, more: seq<Lane>)
    ensures Available(lanes + more) == Available(lanes) + Available(more)
    ensures |lanes| == 1 ==> Available(lanes) == if lanes[0].available then [lanes[0].id] else []
    ensures Available([]) == []
    decreases |more|
  {
    if more == [] {
      assert lanes + more == lanes;
    } else {
      var n := |more| - 1;
      AvailableAre(lanes, more[..n]);
      assert (lanes + more)[..|lanes + more| - 1] == lanes + more[..n];
      Concatenated(Available(lanes), Available(more[..n]), if more[n].available then [more[n].id] else []);
    }
  }

  // --- Cells, in matrix order ---

  function Trials(task: string, lane: string, n: nat): seq<Key> {
    if n == 0 then [] else Trials(task, lane, n - 1) + [(task, lane, n as int)]
  }

  function LaneCells(task: string, lanes: seq<string>, n: nat): seq<Key> {
    if lanes == [] then [] else LaneCells(task, lanes[..|lanes| - 1], n) + Trials(task, lanes[|lanes| - 1], n)
  }

  function Cells(tasks: seq<string>, lanes: seq<string>, n: nat): seq<Key> {
    if tasks == [] then [] else Cells(tasks[..|tasks| - 1], lanes, n) + LaneCells(tasks[|tasks| - 1], lanes, n)
  }

  /** A task of the manifest, an available lane, and a trial number within the repetitions. */
  ghost predicate Expected(key: Key, tasks: seq<string>, lanes: seq<string>, n: nat) {
    key.0 in tasks && key.1 in lanes && 1 <= key.2 <= n
  }

  lemma {:induction false} DistinctAppend<T>(a: seq<T>, b: seq<T>)
    requires Distinct(a) && Distinct(b) && forall x | x in b :: x !in a
    ensures Distinct(a + b)
  {
    forall i, j | 0 <= i < j < |a + b| ensures (a + b)[i] != (a + b)[j] {
      assert i < |a| ==> a[i] in a;
      assert j >= |a| ==> b[j - |a|] in b;
    }
  }

  lemma {:induction false} TrialsAre(task: string, lane: string, n: nat)
    ensures Distinct(Trials(task, lane, n)) && |Trials(task, lane, n)| == n
    ensures forall p :: p in Trials(task, lane, n) <==> p.0 == task && p.1 == lane && 1 <= p.2 <= n
  {
    if n > 0 { TrialsAre(task, lane, n - 1); }
  }

  lemma {:induction false} LaneCellsAre(task: string, lanes: seq<string>, n: nat)
    requires Distinct(lanes)
    ensures Distinct(LaneCells(task, lanes, n))
    ensures forall p :: p in LaneCells(task, lanes, n) <==> p.0 == task && p.1 in lanes && 1 <= p.2 <= n
  {
    if lanes != [] {
      var last := |lanes| - 1;
      LaneCellsAre(task, lanes[..last], n);
      TrialsAre(task, lanes[last], n);
      assert lanes[last] !in lanes[..last];
      DistinctAppend(LaneCells(task, lanes[..last], n), Trials(task, lanes[last], n));
      LastOrBefore(lanes);
    }
  }

  lemma {:induction false} LastOrBefore<T>(s: seq<T>)
    requires s != []
    ensures forall x :: x in s <==> x in s[..|s| - 1] || x == s[|s| - 1]
  {
    assert s == s[..|s| - 1] + [s[|s| - 1]];
  }

  /** The matrix holds each expected key exactly once. */
  lemma {:induction false} CellsAre(tasks: seq<string>, lanes: seq<string>, n: nat)
    requires Distinct(tasks) && Distinct(lanes)
    ensures Distinct(Cells(tasks, lanes, n))
    ensures forall p :: p in Cells(tasks, lanes, n) <==> Expected(p, tasks, lanes, n)
  {
    if tasks != [] {
      var last := |tasks| - 1;
      CellsAre(tasks[..last], lanes, n);
      LaneCellsAre(tasks[last], lanes, n);
      assert tasks[last] !in tasks[..last];
      DistinctAppend(Cells(tasks[..last], lanes, n), LaneCells(tasks[last], lanes, n));
      LastOrBefore(tasks);
    }
  }

  lemma {:induction false} OneMore(k: nat, width: nat)
    requires k > 0
    ensures k * width == (k - 1) * width + width
  {}

  lemma {:induction false} LaneCellsCount(task: string, lanes: seq<string>, n: nat)
    ensures |LaneCells(task, lanes, n)| == |lanes| * n
  {
    if lanes != [] {
      var last := |lanes| - 1;
      LaneCellsCount(task, lanes[..last], n);
      TrialsAre(task, lanes[last], n);
      OneMore(|lanes|, n);
    }
  }

  lemma {:induction false} CellsCount(tasks: seq<string>, lanes: seq<string>, n: nat, width: nat)
    requires width == |lanes| * n
    ensures |Cells(tasks, lanes, n)| == |tasks| * width
  {
    if tasks != [] {
      var last := |tasks| - 1;
      CellsCount(tasks[..last], lanes, n, width);
      LaneCellsCount(tasks[last], lanes, n);
      OneMore(|tasks|, width);
    }
  }

  lemma {:induction false} TrialAt(task: string, lane: string, n: nat, k: nat)
    requires k < n
    ensures |Trials(task, lane, n)| == n && Trials(task, lane, n)[k] == (task, lane, k + 1)
  {
    TrialsAre(task, lane, n);
    TrialsAre(task, lane, n - 1);
    if k < n - 1 { TrialAt(task, lane, n - 1, k); }
  }

  lemma {:induction false} LaneCellAt(task: string, lanes: seq<string>, n: nat, l: nat, k: nat)
    requires l < |lanes| && k < n
    ensures l * n + k < |LaneCells(task, lanes, n)| && LaneCells(task, lanes, n)[l * n + k] == (task, lanes[l], k + 1)
  {
    var last := |lanes| - 1;
    LaneCellsCount(task, lanes[..last], n);
    TrialsAre(task, lanes[last], n);
    if l < last {
      LaneCellAt(task, lanes[..last], n, l, k);
    } else {
      TrialAt(task, lanes[last], n, k);
    }
  }

  /** Matrix order: by task, then lane, then trial. */
  lemma {:induction false} CellAt(tasks: seq<string>, lanes: seq<string>, n: nat, t: nat, l: nat, k: nat, at: nat)
    requires t < |tasks| && l < |lanes| && k < n && at == t * (|lanes| * n) + (l * n + k)
    ensures at < |Cells(tasks, lanes, n)| && Cells(tasks, lanes, n)[at] == (tasks[t], lanes[l], k + 1)
  {
    var last := |tasks| - 1;
    CellsCount(tasks[..last], lanes, n, |lanes| * n);
    LaneCellAt(tasks[last], lanes, n, l, k);
    if t < last {
      CellAt(tasks[..last], lanes, n, t, l, k, at);
    }
  }

  /** The rows of `make_matrix`. */
  method MakeMatrix(manifest: Manifest) returns (rows: seq<Key>)
    ensures rows == Cells(manifest.tasks, Available(manifest.lanes), manifest.repetitions)
  {
    var tasks, lanes, n := manifest.tasks, manifest.lanes, manifest.repetitions;
    rows := [];
    for i := 0 to |tasks|
      invariant rows == Cells(tasks[..i], Available(lanes), n)
    {
      assert tasks[..i + 1][..i] == tasks[..i];
      rows := AddLanes(rows, tasks[i], lanes, n);
    }
    assert tasks[..|tasks|] == tasks;
  }

  method AddLanes(before: seq<Key>, task: string, lanes: seq<Lane>, n: nat) returns (rows: seq<Key>)
    ensures rows == before + LaneCells(task, Available(lanes), n)
  {
    rows := before;
    for j := 0 to |lanes|
      invariant rows == before + LaneCells(task, Available(lanes[..j]), n)
    {
      NextLane(task, lanes, j, n);
      if lanes[j].available {
        Concatenated(before, LaneCells(task, Available(lanes[..j]), n), Trials(task, lanes[j].id, n));
        rows := AddTrials(rows, task, lanes[j].id, n);
      }
    }
    assert lanes[..|lanes|] == lanes;
  }

  lemma {:induction false} NextLane(task: string, lanes: seq<Lane>, j: nat, n: nat)
    requires j < |lanes|
    ensures LaneCells(task, Available(lanes[..j + 1]), n)
         == LaneCells(task, Available(lanes[..j]), n) + if lanes[j].available then Trials(task, lanes[j].id, n) else []
  {
    var front := Available(lanes[..j]);
    assert lanes[..j + 1][..j] == lanes[..j];
    if lanes[j].available {
      assert (front + [lanes[j].id])[..|front|] == front;
    } else {
      assert front + [] == front && LaneCells(task, front, n) + [] == LaneCells(task, front, n);
    }
  }

  method AddTrials(before: seq<Key>, task: string, lane: string, n: nat) returns (rows: seq<Key>)
    ensures rows == before + Trials(task, lane, n)
  {
    rows := before;
    for trial := 1 to n + 1
      invariant rows == before + Trials(task, lane, trial - 1)
    {
      rows := rows + [(task, lane, trial)];
    }
  }
}
