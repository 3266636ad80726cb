/** Parts of concatenations; lists without repetition, and when two lists are permutations of each other. */
module Sequences {
  // --- Concatenations and their parts ---

  lemma {:induction false} Concatenated<T>(a: seq<T>, b: seq<T>, c: seq<T>)
    ensures a + (b + c) == a + b + c
  {}

  lemma {:induction false} Halves<T>(a: seq<T>, b: seq<T>)
    ensures (a + b)[..|a|] == a && (a + b)[|a|..] == b
  {}

  lemma {:induction false} SplitAt<T>(s: seq<T>, from: nat, mid: nat, till: nat)
    requires from <= mid <= till <= |s|
    ensures s[from..till] == s[from..mid] + s[mid..till]
  {}

  lemma {:induction false} Cancels<T>(head: T, a: seq<T>, b: seq<T>)
    ensures [head] + a == [head] + b <==> a == b
  {
    Halves([head], a);
    Halves([head], b);
  }

  lemma {:induction false} SliceOfSlice<T>(s: seq<T>, from: nat, till: nat, a: nat, b: nat)
    requires from <= till <= |s| && a <= b <= till - from
    ensures s[from..till][a..b] == s[from + a..from + b]
  {
    var x, y := s[from..till][a..b], s[from + a..from + b];
    assert forall i | 0 <= i < b - a :: x[i] == y[i];
  }

  lemma {:induction false} Middle<T>(a: seq<T>, b: seq<T>, c: seq<T>)
    ensures (a + b + c)[|a|..|a| + |b|] == b
  {}

  /** Where two parts stand in a longer sequence that starts with them. */
  lemma {:induction false} PartsOfPrefix<T>(a: seq<T>, b: seq<T>, c: seq<T>, whole: seq<T>)
    requires a + b + c <= whole
    ensures whole[|a|..|a| + |b|] == b && whole[|a| + |b|..|a| + |b| + |c|] == c && a <= whole
  {}

  // --- Lists without repetition ---

  ghost predicate Distinct<T>(s: seq<T>) {
    forall i, j | 0 <= i < j < |s| :: s[i] != s[j]
  }

  /** Duplicates dropped, first occurrences kept: `list(dict.fromkeys(...))`. */
  function Unrepeated<T(==)>(s: seq<T>): seq<T> {
    if s == [] then []
    else
      var before, last := Unrepeated(s[..|s| - 1]), s[|s| - 1];
      if last in before then before else before + [last]
  }

  lemma {:induction false} UnrepeatedKeeps<T>(s: seq<T>)
    ensures forall x :: x in Unrepeated(s) <==> x in s
    ensures Distinct(Unrepeated(s))
  {
    if s != [] {
      UnrepeatedKeeps(s[..|s| - 1]);
      assert s == s[..|s| - 1] + [s[|s| - 1]];
    }
  }

  /** A list without repetition is its own deduplication. */
  lemma {:induction false} UnrepeatedDistinct<T>(s: seq<T>)
    requires Distinct(s)
    ensures Unrepeated(s) == s
  {
    if s != [] {
      UnrepeatedDistinct(s[..|s| - 1]);
      assert s[|s| - 1] !in s[..|s| - 1];
    }
  }

  /** Appending elements that have already occurred changes nothing. */
  lemma {:induction false} UnrepeatedAbsorbs<T>(s: seq<T>, more: seq<T>)
    requires forall x | x in more :: x in s
    ensures Unrepeated(s + more) == Unrepeated(s)
    decreases |more|
  {
    if more == [] {
      assert s + more == s;
    } else {
      var n := |more| - 1;
      UnrepeatedAbsorbs(s, more[..n]);
      assert (s + more)[..|s + more| - 1] == s + more[..n];
      UnrepeatedKeeps(s + more[..n]);
      assert more[n] in s;
      assert more[n] in s + more[..n];
    }
  }

  lemma {:induction false} MultisetWithout<T>(s: seq<T>, i: nat)
    requires i < |s|
    ensures multiset(s[..i] + s[i + 1..]) == multiset(s) - multiset{s[i]}
  {
    assert s == s[..i] + [s[i]] + s[i + 1..];
  }

  lemma {:induction false} DistinctOnce<T>(s: seq<T>, x: T)
    requires Distinct(s)
    ensures multiset(s)[x] == if x in s then 1 else 0
  {
    if s != [] {
      var n := |s| - 1;
      assert s == s[..n] + [s[n]];
      DistinctOnce(s[..n], x);
      assert s[n] !in s[..n];
    }
  }

  /** Two lists without repetition and with the same elements are permutations of each other. */
  lemma {:induction false} Permuted<T>(a: seq<T>, b: seq<T>)
    requires Distinct(a) && Distinct(b)
    requires forall x :: x in a <==> x in b
    ensures multiset(a) == multiset(b)
  {
    forall x ensures multiset(a)[x] == multiset(b)[x] {
      DistinctOnce(a, x);
      DistinctOnce(b, x);
    }
  }

  /** Counting the elements as a set finds a repetition exactly when there is one. */
  lemma {:induction false} CountsWhenDistinct<T>(s: seq<T>)
    ensures |set x | x in s| <= |s|
    ensures |set x | x in s| == |s| <==> Distinct(s)
  {
    if s != [] {
      var n := |s| - 1;
      CountsWhenDistinct(s[..n]);
      assert s == s[..n] + [s[n]];
      assert (set x | x in s) == (set x | x in s[..n]) + {s[n]};
      if s[n] in s[..n] {
        var i :| 0 <= i < n && s[i] == s[n];
        assert (set x | x in s) == (set x | x in s[..n]);
      }
    }
  }

  lemma {:induction false} PermutedDistinct<T>(a: seq<T>, b: seq<T>)
    requires Distinct(a) && multiset(a) == multiset(b)
    ensures Distinct(b)
  {
    forall i, j | 0 <= i < j < |b| ensures b[i] != b[j] {
      DistinctOnce(a, b[i]);
      assert b == b[..i] + [b[i]] + b[i + 1..j] + [b[j]] + b[j + 1..];
      assert multiset(b)[b[i]] <= 1;
    }
  }

  // --- The order of texts ---

  /** Item by item; a proper prefix comes first. */
  predicate Less(a: seq<int>, b: seq<int>) {
    b != [] && (a == [] || a[0] < b[0] || (a[0] == b[0] && Less(a[1..], b[1..])))
  }

  /** The order is decided at the first difference, or by the end of the shorter sequence. */
  lemma {:induction false} LessExactlyWhen(a: seq<int>, b: seq<int>)
    ensures Less(a, b) <==>
            exists k | 0 <= k <= |a| && k < |b| :: a[..k] == b[..k] && (k == |a| || a[k] < b[k])
  {
    if a != [] && b != [] {
      LessExactlyWhen(a[1..], b[1..]);
      if Less(a, b) && a[0] == b[0] {
        var k :| 0 <= k <= |a[1..]| && k < |b[1..]| && a[1..][..k] == b[1..][..k]
                 && (k == |a[1..]| || a[1..][k] < b[1..][k]);
        assert a[..k + 1] == [a[0]] + a[1..][..k] && b[..k + 1] == [b[0]] + b[1..][..k];
      } else if Less(a, b) {
        assert a[..0] == b[..0];
      }
      if k: nat :| k <= |a| && k < |b| && a[..k] == b[..k] && (k == |a| || a[k] < b[k]) {
        if k > 0 {
          assert a[0] == a[..k][0] == b[..k][0] == b[0];
          assert a[1..][..k - 1] == a[..k][1..] && b[1..][..k - 1] == b[..k][1..];
        }
      }
    } else if b != [] {
      assert a[..0] == b[..0];
    }
  }

  lemma {:induction false} LessTransitive(a: seq<int>, b: seq<int>, c: seq<int>)
    requires Less(a, b) && Less(b, c)
    ensures Less(a, c)
  {
    if a != [] && a[0] == b[0] == c[0] { LessTransitive(a[1..], b[1..], c[1..]); }
  }

  lemma {:induction false} LessTotal(a: seq<int>, b: seq<int>)
    ensures a == b || Less(a, b) || Less(b, a)
    ensures !(Less(a, b) && Less(b, a)) && (a == b ==> !Less(a, b))
  {
    if a != [] && b != [] {
      LessTotal(a[1..], b[1..]);
      assert a == [a[0]] + a[1..] && b == [b[0]] + b[1..];
    }
  }

  /** The characters of a text as the integers they are ordered by. */
  function Codes(s: string): (c: seq<int>)
    ensures |c| == |s|
  {
    seq(|s|, i requires 0 <= i < |s| => s[i] as int)
  }

  lemma {:induction false} CodesDiffer(a: string, b: string)
    requires Codes(a) == Codes(b)
    ensures a == b
  {
    forall i | 0 <= i < |a| ensures i < |b| && a[i] == b[i] {
      assert |Codes(a)| == |Codes(b)| && Codes(a)[i] == Codes(b)[i];
    }
  }
}
