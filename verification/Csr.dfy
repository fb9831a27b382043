/** Compressed rows: an offsets array cutting one flat array into a run per node. */
module Csr {
  ghost predicate Monotone(offsets: seq<nat>) {
    forall i, j | 0 <= i <= j < |offsets| :: offsets[i] <= offsets[j]
  }

  function Last(offsets: seq<nat>): nat {
    if offsets == [] then 0 else offsets[|offsets| - 1]
  }

  /** No offsets at all, or one more than `n` of them, rising from zero. */
  ghost predicate Shape(offsets: seq<nat>, n: nat) {
    offsets == [] || (|offsets| == n + 1 && offsets[0] == 0 && Monotone(offsets))
  }

  /** The offsets cut an array of `length` entries into `n` runs, leaving nothing over. */
  ghost predicate Cuts(offsets: seq<nat>, n: nat, length: nat) {
    Shape(offsets, n) && Last(offsets) == length
  }

  /** The k-th run; every run is empty when there are no offsets. */
  function Run<T>(offsets: seq<nat>, arr: seq<T>, k: nat): seq<T> {
    if k + 1 < |offsets| && offsets[k] <= offsets[k + 1] <= |arr| then arr[offsets[k]..offsets[k + 1]]
    else []
  }

  function Runs<T>(offsets: seq<nat>, arr: seq<T>, n: nat): (r: seq<seq<T>>)
    ensures |r| == n
  {
    seq(n, k requires 0 <= k < n => Run(offsets, arr, k))
  }

  function Degree(offsets: seq<nat>, k: nat): nat {
    if k + 1 < |offsets| && offsets[k] <= offsets[k + 1] then offsets[k + 1] - offsets[k] else 0
  }

  lemma RunLength<T>(offsets: seq<nat>, arr: seq<T>, n: nat, k: nat)
    requires Cuts(offsets, n, |arr|) && k < n
    ensures |Run(offsets, arr, k)| == Degree(offsets, k)
    ensures offsets != [] ==> 0 <= offsets[k] <= offsets[k + 1] <= |arr|
  {
  }

  lemma RunSlice<T>(offsets: seq<nat>, arr: seq<T>, n: nat, k: nat)
    requires Cuts(offsets, n, |arr|) && offsets != [] && k < n
    ensures |offsets| == n + 1 && 0 <= offsets[k] <= offsets[k + 1] <= |arr|
    ensures Run(offsets, arr, k) == arr[offsets[k]..offsets[k + 1]]
  {
  }

  lemma SliceOfPrefix<T>(all: seq<T>, prefix: seq<T>, i: nat)
    requires prefix <= all && i <= |prefix|
    ensures all[i..|prefix|] == prefix[i..]
  {
  }

  lemma DropFront<T>(a: seq<T>, b: seq<T>)
    ensures (a + b)[|a|..] == b
  {
  }

  lemma SliceJoins<T>(s: seq<T>, i: nat, j: nat, k: nat)
    requires i <= j <= k <= |s|
    ensures s[i..j] + s[j..k] == s[i..k]
  {
  }

  /** Extending the offsets by empty runs at the end changes no run. */
  lemma ExtendedRuns<T>(offsets: seq<nat>, arr: seq<T>, n: nat, more: nat)
    requires Cuts(offsets, n, |arr|) && offsets != []
    ensures var extended := offsets + seq(more, _ => Last(offsets));
            && Cuts(extended, n + more, |arr|)
            && forall k :: 0 <= k < n + more ==> Run(extended, arr, k) == Run(offsets, arr, k)
  {
    var extended := offsets + seq(more, _ => Last(offsets));
    forall k | 0 <= k < n + more
      ensures Run(extended, arr, k) == Run(offsets, arr, k)
    {
      if k >= n {
        assert extended[k] == extended[k + 1] == Last(offsets);
      }
    }
  }

  /** Appending a run to the array and its end to the offsets appends it to the runs. */
  lemma AppendsRun<T>(offsets: seq<nat>, arr: seq<T>, n: nat, run: seq<T>)
    requires Cuts(offsets, n, |arr|) && offsets != []
    ensures var longer := offsets + [|arr| + |run|];
            && Cuts(longer, n + 1, |arr + run|)
            && Runs(longer, arr + run, n + 1) == Runs(offsets, arr, n) + [run]
  {
    var longer := offsets + [|arr| + |run|];
    forall k | 0 <= k < n
      ensures Run(longer, arr + run, k) == Run(offsets, arr, k)
    {
      assert offsets[k] <= offsets[k + 1] <= |arr|;
    }
    assert Run(longer, arr + run, n) == run;
  }

  /** Neighbouring comparisons are enough for the offsets to rise. */
  lemma {:induction false} AdjacentRise(offsets: seq<nat>)
    requires forall i, j | 0 <= i && j == i + 1 < |offsets| :: offsets[i] <= offsets[j]
    ensures Monotone(offsets)
  {
    forall i, j | 0 <= i <= j < |offsets|
      ensures offsets[i] <= offsets[j]
    {
      AdjacentRiseUpTo(offsets, i, j);
    }
  }

  lemma {:induction false} AdjacentRiseUpTo(offsets: seq<nat>, i: nat, j: nat)
    requires forall i, j | 0 <= i && j == i + 1 < |offsets| :: offsets[i] <= offsets[j]
    requires i <= j < |offsets|
    ensures offsets[i] <= offsets[j]
    decreases j
  {
    if i < j {
      AdjacentRiseUpTo(offsets, i, j - 1);
      assert offsets[j - 1] <= offsets[j];
    }
  }

  /** Every entry of the flat array lies in exactly one run. */
  lemma {:induction false} Owner(offsets: seq<nat>, n: nat, length: nat, i: nat) returns (k: nat)
    requires Cuts(offsets, n, length) && i < length
    ensures k < n && offsets[k] <= i < offsets[k + 1]
  {
    k := OwnerBelow(offsets, n, i);
  }

  lemma {:induction false} OwnerBelow(offsets: seq<nat>, m: nat, i: nat) returns (k: nat)
    requires m < |offsets| && offsets[0] == 0 && Monotone(offsets) && i < offsets[m]
    ensures k < m && offsets[k] <= i < offsets[k + 1]
    decreases m
  {
    if offsets[m - 1] <= i {
      k := m - 1;
    } else {
      k := OwnerBelow(offsets, m - 1, i);
    }
  }
}
