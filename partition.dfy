/** Splitting the subjects of a multi-view dataset into a training part and a
    validation part (cca_zoo/deep.py, Wrapper.process_training_data).

    Subjects are numbered 0 .. n-1. The random shuffle of that index array is
    an input here: any rearrangement of 0 .. n-1. A view is a sequence of rows,
    one per subject; the feature values in a row play no part. */
module Partition {

  /** The features of one subject in one view. */
  type Row = seq<real>

  /** A data view: row i belongs to subject i. */
  type View = seq<Row>

  /** 0, 1, ..., n-1: the index array the split starts from. */
  function Iota(n: nat): seq<int> {
    seq(n, i => i)
  }

  /** s is a rearrangement of 0, 1, ..., n-1 (what a shuffle of Iota(n) yields):
      n distinct indices, each below n. */
  ghost predicate IsShuffle(s: seq<int>, n: nat) {
    && |s| == n
    && (forall i :: 0 <= i < n ==> 0 <= s[i] < n)
    && (forall i, j :: 0 <= i < j < n ==> s[i] != s[j])
  }

  /** The rows of `view` picked by `inds`, in the order of `inds` (numpy's view[inds]). */
  function Select(view: View, inds: seq<int>): View
    requires forall i :: 0 <= i < |inds| ==> 0 <= inds[i] < |view|
  {
    seq(|inds|, i requires 0 <= i < |inds| => view[inds[i]])
  }

  /** Picking gives one row per index, the row that index names, and only rows of the view. */
  lemma SelectPicksRows(view: View, inds: seq<int>)
    requires forall i :: 0 <= i < |inds| ==> 0 <= inds[i] < |view|
    ensures |Select(view, inds)| == |inds|
    ensures forall i :: 0 <= i < |inds| ==> Select(view, inds)[i] == view[inds[i]]
    ensures forall x :: x in Select(view, inds) ==> x in view
  {
  }

  /** Every number 0 .. n-1 occurs exactly once in Iota(n), and nothing else does. */
  lemma {:induction false} IotaOccurrences(n: nat)
    ensures forall x :: multiset(Iota(n))[x] == if 0 <= x < n then 1 else 0
  {
    if n > 0 {
      IotaOccurrences(n - 1);
      assert Iota(n) == Iota(n - 1) + [n - 1];
    }
  }

  /** In a sequence without repetitions every entry occurs exactly once. */
  lemma {:induction false} DistinctOccurrences(s: seq<int>)
    requires forall i, j :: 0 <= i < j < |s| ==> s[i] != s[j]
    ensures forall x :: multiset(s)[x] == if x in s then 1 else 0
  {
    if s != [] {
      DistinctOccurrences(s[1..]);
      assert s == [s[0]] + s[1..];
      assert s[0] !in s[1..];
    }
  }

  /** A sequence without repetitions has as many distinct entries as it is long. */
  lemma {:induction false} DistinctCount(s: seq<int>)
    requires forall i, j :: 0 <= i < j < |s| ==> s[i] != s[j]
    ensures |set x | x in s| == |s|
  {
    if s != [] {
      DistinctCount(s[1..]);
      assert s[0] !in s[1..];
      assert (set x | x in s) == (set x | x in s[1..]) + {s[0]};
    }
  }

  /** A shuffle of 0 .. n-1 holds every subject index exactly once and nothing
      else, so it has the same entries as Iota(n). */
  lemma ShuffleOccurrences(s: seq<int>, n: nat)
    requires IsShuffle(s, n)
    ensures forall x :: 0 <= x < n <==> x in s
    ensures forall x :: multiset(s)[x] == if 0 <= x < n then 1 else 0
    ensures multiset(s) == multiset(Iota(n))
  {
    var present, range := set x | x in s, set x | x in Iota(n);
    DistinctCount(s);
    DistinctCount(Iota(n));
    forall x | x in present
      ensures x in range
    {
      assert Iota(n)[x] == x;
    }
    assert |range - present| == 0;
    assert present == range;
    forall x | 0 <= x < n
      ensures x in s
    {
      assert Iota(n)[x] == x;
      assert x in range;
    }
    DistinctOccurrences(s);
    IotaOccurrences(n);
  }

  /** Conversely, every rearrangement of Iota(n) (every outcome of shuffling
      the index array in place) is a shuffle in the sense of IsShuffle. */
  lemma PermutationIsShuffle(s: seq<int>, n: nat)
    requires multiset(s) == multiset(Iota(n))
    ensures IsShuffle(s, n)
  {
    IotaOccurrences(n);
    assert |s| == |multiset(s)| == |multiset(Iota(n))| == n;
    forall i | 0 <= i < n
      ensures 0 <= s[i] < n
    {
      assert multiset(s)[s[i]] > 0;
    }
    forall i, j | 0 <= i < j < n
      ensures s[i] != s[j]
    {
      PairOccurrences(s, i, j);
    }
  }

  /** The entry at i occurs at least once more when the entry at j > i equals it. */
  lemma PairOccurrences(s: seq<int>, i: nat, j: nat)
    requires i < j < |s|
    ensures multiset(s)[s[i]] >= if s[i] == s[j] then 2 else 1
  {
    assert s == s[..i] + [s[i]] + s[i + 1..j] + [s[j]] + s[j + 1..];
  }

  /** Cutting a shuffle of 0 .. n-1 at `at` gives `at` training indices and n - at
      validation indices; every subject is in exactly one of the two parts, once,
      and nothing but subjects is in either. */
  lemma SplitPartitionsSubjects(shuffled: seq<int>, n: nat, at: nat)
    requires IsShuffle(shuffled, n) && at <= n
    ensures shuffled[..at] + shuffled[at..] == shuffled
    ensures |shuffled[..at]| == at && |shuffled[at..]| == n - at
    ensures forall x :: x in shuffled[..at] || x in shuffled[at..] <==> 0 <= x < n
    ensures forall x :: !(x in shuffled[..at] && x in shuffled[at..])
    ensures forall x :: 0 <= x < n ==> multiset(shuffled[..at])[x] + multiset(shuffled[at..])[x] == 1
  {
    ShuffleOccurrences(shuffled, n);
    var train, val := shuffled[..at], shuffled[at..];
    assert shuffled == train + val;
    assert multiset(shuffled) == multiset(train) + multiset(val);
    forall x
      ensures x in train || x in val <==> 0 <= x < n
      ensures !(x in train && x in val)
      ensures 0 <= x < n ==> multiset(train)[x] + multiset(val)[x] == 1
    {
      assert multiset(shuffled)[x] == multiset(train)[x] + multiset(val)[x];
      assert x in train <==> multiset(train)[x] > 0;
      assert x in val <==> multiset(val)[x] > 0;
    }
  }

  /** Picking by a concatenation of index sequences concatenates the picks. */
  lemma SelectConcat(view: View, a: seq<int>, b: seq<int>)
    requires forall i :: 0 <= i < |a| ==> 0 <= a[i] < |view|
    requires forall i :: 0 <= i < |b| ==> 0 <= b[i] < |view|
    ensures Select(view, a + b) == Select(view, a) + Select(view, b)
  {
  }

  /** Taking the first element off `a` and one equal element off `b` keeps the multisets equal. */
  lemma RemoveMatching(a: seq<int>, b: seq<int>, j: nat)
    requires multiset(a) == multiset(b) && a != [] && j < |b| && b[j] == a[0]
    ensures multiset(a[1..]) == multiset(b[..j] + b[j + 1..])
  {
    assert a == [a[0]] + a[1..];
    assert b == b[..j] + [b[j]] + b[j + 1..];
    calc {
      multiset(a[1..]);
      multiset(a) - multiset{a[0]};
      multiset(b) - multiset{b[j]};
      multiset(b[..j] + b[j + 1..]);
    }
  }

  /** Picking by `b` picks the row of b[j] once more than picking by `rest`,
      which is `b` without its j-th entry. */
  lemma SelectWithout(view: View, b: seq<int>, j: nat, rest: seq<int>)
    requires forall i :: 0 <= i < |b| ==> 0 <= b[i] < |view|
    requires j < |b| && rest == b[..j] + b[j + 1..]
    ensures forall i :: 0 <= i < |rest| ==> 0 <= rest[i] < |view|
    ensures multiset(Select(view, b)) == multiset(Select(view, rest)) + multiset{view[b[j]]}
  {
    var front, back := b[..j], b[j + 1..];
    assert b == front + [b[j]] + back;
    SelectConcat(view, front, [b[j]]);
    SelectConcat(view, front + [b[j]], back);
    SelectConcat(view, front, back);
  }

  /** Picking rows by two index sequences that hold the same indices (with the
      same multiplicities) picks the same rows, possibly in another order. */
  lemma {:induction false} SelectRearranged(view: View, a: seq<int>, b: seq<int>)
    requires forall i :: 0 <= i < |a| ==> 0 <= a[i] < |view|
    requires forall i :: 0 <= i < |b| ==> 0 <= b[i] < |view|
    requires multiset(a) == multiset(b)
    ensures multiset(Select(view, a)) == multiset(Select(view, b))
    decreases |a|
  {
    if a != [] {
      assert a[0] in multiset(b);
      var j :| 0 <= j < |b| && b[j] == a[0];
      var tail, rest := a[1..], b[..j] + b[j + 1..];
      RemoveMatching(a, b, j);
      assert tail == a[..0] + a[1..];
      SelectWithout(view, a, 0, tail);
      SelectWithout(view, b, j, rest);
      SelectRearranged(view, tail, rest);
    }
  }

  /** In every view, the training rows followed by the validation rows are the
      view's first n rows rearranged: each subject's row goes to exactly one part. */
  lemma EveryRowLandsOnce(view: View, shuffled: seq<int>, n: nat, at: nat)
    requires IsShuffle(shuffled, n) && n <= |view| && at <= n
    ensures forall i :: 0 <= i < n ==> 0 <= shuffled[i] < |view|
    ensures multiset(Select(view, shuffled[..at]) + Select(view, shuffled[at..])) == multiset(view[..n])
  {
    ShuffleOccurrences(shuffled, n);
    assert Select(view, shuffled[..at]) + Select(view, shuffled[at..]) == Select(view, shuffled);
    SelectRearranged(view, shuffled, Iota(n));
    assert Select(view, Iota(n)) == view[..n];
  }
}
