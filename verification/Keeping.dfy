/** Facts about deleting positions from runs and from the flat array that holds them. */
module Keeping {
  import opened Storage
  import opened Csr
  import opened Diffs

  lemma {:induction false} KeepAgrees<T>(run: seq<T>, a: seq<nat>, b: seq<nat>)
    requires forall i | 0 <= i < |run| :: i in a <==> i in b
    ensures Keep(run, a) == Keep(run, b)
  {
    if run != [] {
      KeepAgrees(run[..|run| - 1], a, b);
    }
  }

  /** `local` holds what `removed` says about the stretch of `length` entries from `base` on. */
  ghost predicate Localised(removed: seq<nat>, base: nat, length: nat, local: seq<nat>) {
    forall i | 0 <= i < length :: i in local <==> base + i in removed
  }

  /** Deleting from a concatenation deletes from each part, the second part's positions shifted. */
  lemma {:induction false} KeepSplits<T>(a: seq<T>, b: seq<T>, removed: seq<nat>, inB: seq<nat>)
    requires Localised(removed, |a|, |b|, inB)
    ensures Keep(a + b, removed) == Keep(a, removed) + Keep(b, inB)
    decreases |b|
  {
    if b == [] {
      assert a + b == a;
    } else {
      var last := |b| - 1;
      assert (a + b)[..|a + b| - 1] == a + b[..last];
      KeepSplits(a, b[..last], removed, inB);
      assert last in inB <==> |a| + last in removed;
    }
  }

  /** Taking one position out of a duplicate-free list leaves the others, each still once. */
  lemma WithoutOne(removed: seq<nat>, i: nat)
    requires Distinct(removed) && i < |removed|
    ensures var others := removed[..i] + removed[i + 1..];
            Distinct(others) && forall p :: p in others <==> p in removed && p != removed[i]
  {
    var others := removed[..i] + removed[i + 1..];
    assert forall j | 0 <= j < i :: others[j] == removed[j];
    assert forall j | i <= j < |others| :: others[j] == removed[j + 1];
    assert removed == removed[..i] + [removed[i]] + removed[i + 1..];
  }

  /** Distinct positions of the run each delete one entry. */
  lemma {:induction false} KeepLength<T>(run: seq<T>, removed: seq<nat>)
    requires Distinct(removed) && forall p <- removed :: p < |run|
    ensures |removed| <= |run| && |Keep(run, removed)| == |run| - |removed|
    decreases |run|
  {
    assert removed == [] || removed[0] in removed;
    if run != [] {
      var last := |run| - 1;
      if i :| 0 <= i < |removed| && removed[i] == last {
        hide Distinct;
        var others := removed[..i] + removed[i + 1..];
        WithoutOne(removed, i);
        KeepAgrees(run[..last], removed, others);
        KeepLength(run[..last], others);
      } else {
        forall p | p in removed
          ensures p < last
        {
          assert p != last;
        }
        KeepLength(run[..last], removed);
      }
    }
  }

  /** Deletion commutes with reading two arrays side by side: entry by entry the same survive. */
  lemma {:induction false} KeepAligned<S, T>(a: seq<S>, b: seq<T>, removed: seq<nat>)
    requires |a| == |b|
    ensures |Keep(a, removed)| == |Keep(b, removed)|
    ensures forall j | 0 <= j < |Keep(a, removed)| ::
              exists i :: 0 <= i < |a| && Keep(a, removed)[j] == a[i] && Keep(b, removed)[j] == b[i]
  {
    if a != [] {
      var last := |a| - 1;
      KeepAligned(a[..last], b[..last], removed);
      var ka, kb := Keep(a[..last], removed), Keep(b[..last], removed);
      forall j | 0 <= j < |Keep(a, removed)|
        ensures exists i :: 0 <= i < |a| && Keep(a, removed)[j] == a[i] && Keep(b, removed)[j] == b[i]
      {
        if j < |ka| {
          var i :| 0 <= i < last && ka[j] == a[..last][i] && kb[j] == b[..last][i];
          assert Keep(a, removed)[j] == a[i] && Keep(b, removed)[j] == b[i];
        } else {
          assert Keep(a, removed)[j] == a[last] && Keep(b, removed)[j] == b[last];
        }
      }
    }
  }

  lemma {:induction false} KeepMembers<T>(run: seq<T>, removed: seq<nat>, x: T)
    requires x in Keep(run, removed)
    ensures exists i :: 0 <= i < |run| && i !in removed && run[i] == x
  {
    var last := |run| - 1;
    if x in Keep(run[..last], removed) {
      KeepMembers(run[..last], removed, x);
      var i :| 0 <= i < last && i !in removed && run[..last][i] == x;
      assert run[i] == x;
    } else {
      assert run[last] == x;
    }
  }

  // ----- per-node positions against absolute ones

  function Shifted(positions: seq<nat>, base: nat): (r: seq<nat>)
    ensures |r| == |positions|
  {
    seq(|positions|, i requires 0 <= i < |positions| => base + positions[i])
  }

  /** The absolute positions named by the first `m` nodes' local ones. */
  function Absolute(offsets: seq<nat>, removals: seq<seq<nat>>, m: nat): seq<nat>
    requires m <= |removals| && m < |offsets|
  {
    if m == 0 then [] else Absolute(offsets, removals, m - 1) + Shifted(removals[m - 1], offsets[m - 1])
  }

  function RemovedBefore(removals: seq<seq<nat>>, m: nat): nat
    requires m <= |removals|
  {
    if m == 0 then 0 else RemovedBefore(removals, m - 1) + |removals[m - 1]|
  }

  /** Every local position lies inside its node's run and is listed once. */
  ghost predicate RemovalsFit(offsets: seq<nat>, removals: seq<seq<nat>>, m: nat)
    requires m <= |removals| && m < |offsets|
  {
    forall k {:trigger removals[k]} | 0 <= k < m ::
      Distinct(removals[k]) && forall p <- removals[k] :: offsets[k] + p < offsets[k + 1]
  }

  lemma {:induction false} AbsoluteBounds(offsets: seq<nat>, removals: seq<seq<nat>>, m: nat)
    requires m <= |removals| && m < |offsets| && Monotone(offsets) && RemovalsFit(offsets, removals, m)
    ensures forall x <- Absolute(offsets, removals, m) :: x < offsets[m]
    ensures Distinct(Absolute(offsets, removals, m))
  {
    if m > 0 {
      AbsoluteBounds(offsets, removals, m - 1);
      var older, newer := Absolute(offsets, removals, m - 1), Shifted(removals[m - 1], offsets[m - 1]);
      forall x | x in newer
        ensures offsets[m - 1] <= x < offsets[m]
      {
        var i :| 0 <= i < |newer| && newer[i] == x;
        assert removals[m - 1][i] in removals[m - 1];
      }
      var all := older + newer;
      forall i, j | 0 <= i < j < |all|
        ensures all[i] != all[j]
      {
        if i < |older| <= j {
          assert all[i] in older && all[j] in newer;
        }
      }
      forall x | x in all
        ensures x < offsets[m]
      {
        assert x in older || x in newer;
        assert offsets[m - 1] <= offsets[m];
      }
    }
  }

  lemma ShiftedMember(positions: seq<nat>, base: nat, x: nat)
    ensures x in Shifted(positions, base) <==> x >= base && x - base in positions
  {
    if x in Shifted(positions, base) {
      var i :| 0 <= i < |positions| && Shifted(positions, base)[i] == x;
      assert positions[i] == x - base;
    }
    if x >= base && x - base in positions {
      var i :| 0 <= i < |positions| && positions[i] == x - base;
      assert Shifted(positions, base)[i] == x;
    }
  }

  /** Inside node k's stretch of the array, absolute positions are exactly its local ones. */
  lemma {:induction false} AbsoluteIsLocal(offsets: seq<nat>, removals: seq<seq<nat>>, m: nat, k: nat, x: nat)
    requires k < m <= |removals| && m < |offsets| && Monotone(offsets)
    requires RemovalsFit(offsets, removals, m)
    requires offsets[k] <= x < offsets[k + 1]
    ensures x in Absolute(offsets, removals, m) <==> x - offsets[k] in removals[k]
  {
    ShiftedMember(removals[m - 1], offsets[m - 1], x);
    if k < m - 1 {
      AbsoluteIsLocal(offsets, removals, m - 1, k, x);
      assert offsets[k + 1] <= offsets[m - 1];
    } else {
      AbsoluteBounds(offsets, removals, m - 1);
    }
  }

  /** Each node's local positions say what `gone` says about its stretch of the array. */
  ghost predicate AllLocalised(offsets: seq<nat>, removals: seq<seq<nat>>, gone: seq<nat>)
    requires |offsets| == |removals| + 1 && Monotone(offsets)
  {
    forall k {:trigger removals[k]} | 0 <= k < |removals| ::
      Localised(gone, offsets[k], offsets[k + 1] - offsets[k], removals[k])
  }

  lemma AbsoluteLocalised(offsets: seq<nat>, removals: seq<seq<nat>>)
    requires |offsets| == |removals| + 1 && Monotone(offsets)
    requires RemovalsFit(offsets, removals, |removals|)
    ensures AllLocalised(offsets, removals, Absolute(offsets, removals, |removals|))
  {
    hide Absolute, RemovalsFit;
    var gone := Absolute(offsets, removals, |removals|);
    forall k, i | 0 <= k < |removals| && 0 <= i < offsets[k + 1] - offsets[k]
      ensures i in removals[k] <==> offsets[k] + i in gone
    {
      AbsoluteIsLocal(offsets, removals, |removals|, k, offsets[k] + i);
    }
  }

  /** Filtering one more node's stretch appends that node's run without its removed positions. */
  lemma KeepNextRun<T>(offsets: seq<nat>, arr: seq<T>, n: nat, gone: seq<nat>, k: nat, local: seq<nat>)
    requires Cuts(offsets, n, |arr|) && offsets != [] && k < n
    requires Localised(gone, offsets[k], offsets[k + 1] - offsets[k], local)
    ensures offsets[k] <= offsets[k + 1] <= |arr|
    ensures Keep(arr[..offsets[k + 1]], gone)
         == Keep(arr[..offsets[k]], gone) + Keep(Run(offsets, arr, k), local)
  {
    var a, b := offsets[k], offsets[k + 1];
    assert arr[..b] == arr[..a] + arr[a..b];
    KeepSplits(arr[..a], arr[a..b], gone, local);
  }

  /** Every node loses as many entries as it has local positions. */
  ghost predicate LossesCount<T>(offsets: seq<nat>, arr: seq<T>, removals: seq<seq<nat>>) {
    forall k {:trigger removals[k]} | 0 <= k < |removals| ::
      |Keep(Run(offsets, arr, k), removals[k])| + |removals[k]| == |Run(offsets, arr, k)|
  }

  lemma FitLossesCount<T>(offsets: seq<nat>, arr: seq<T>, removals: seq<seq<nat>>)
    requires Cuts(offsets, |removals|, |arr|) && offsets != []
    requires RemovalsFit(offsets, removals, |removals|)
    ensures LossesCount(offsets, arr, removals)
  {
    forall k | 0 <= k < |removals|
      ensures |Keep(Run(offsets, arr, k), removals[k])| + |removals[k]| == |Run(offsets, arr, k)|
    {
      RunLength(offsets, arr, |removals|, k);
      KeepLength(Run(offsets, arr, k), removals[k]);
    }
  }

  /** Filtering the array up to a node boundary drops what the offset pass says it drops. */
  lemma {:induction false} KeepUpTo<T>(offsets: seq<nat>, arr: seq<T>, removals: seq<seq<nat>>,
                                      gone: seq<nat>, m: nat)
    requires Cuts(offsets, |removals|, |arr|) && offsets != [] && m <= |removals|
    requires AllLocalised(offsets, removals, gone) && LossesCount(offsets, arr, removals)
    ensures RemovedBefore(removals, m) <= offsets[m] <= |arr|
    ensures |Keep(arr[..offsets[m]], gone)| == offsets[m] - RemovedBefore(removals, m)
  {
    hide Keep, Run, Localised, Monotone;
    if m > 0 {
      KeepUpTo(offsets, arr, removals, gone, m - 1);
      var local := removals[m - 1];
      KeepNextRun(offsets, arr, |removals|, gone, m - 1, local);
      RunLength(offsets, arr, |removals|, m - 1);
    } else {
      KeepEmpty<T>(gone);
      assert arr[..0] == [];
    }
  }

  lemma {:induction false} KeepNothing<T>(run: seq<T>)
    ensures Keep(run, []) == run
  {
    if run != [] {
      KeepNothing(run[..|run| - 1]);
    }
  }

  lemma KeepEmpty<T>(removed: seq<nat>)
    ensures Keep<T>([], removed) == []
  {
  }

  lemma {:induction false} KeepPrefix<T>(arr: seq<T>, removed: seq<nat>, m: nat)
    requires m <= |arr|
    ensures Keep(arr[..m], removed) <= Keep(arr, removed)
    decreases |arr|
  {
    if m < |arr| {
      KeepPrefix(arr[..|arr| - 1], removed, m);
      assert arr[..|arr| - 1][..m] == arr[..m];
    } else {
      assert arr[..m] == arr;
    }
  }

  /** The shifted offsets of one node cut its kept entries out of the filtered array. */
  lemma ShiftedRun<T>(offsets: seq<nat>, arr: seq<T>, removals: seq<seq<nat>>, gone: seq<nat>,
                      shifted: seq<nat>, k: nat)
    requires Cuts(offsets, |removals|, |arr|) && offsets != [] && k < |removals|
    requires AllLocalised(offsets, removals, gone) && LossesCount(offsets, arr, removals)
    requires |shifted| == |offsets|
    requires forall k | 0 <= k < |offsets| :: shifted[k] + RemovedBefore(removals, k) == offsets[k]
    ensures shifted[k] <= shifted[k + 1]
    ensures Run(shifted, Keep(arr, gone), k) == Keep(Run(offsets, arr, k), removals[k])
  {
    hide Keep, RemovedBefore, LossesCount;
    KeepUpTo(offsets, arr, removals, gone, k);
    KeepUpTo(offsets, arr, removals, gone, k + 1);
    KeepPrefix(arr, gone, offsets[k]);
    KeepPrefix(arr, gone, offsets[k + 1]);
    KeepNextRun(offsets, arr, |removals|, gone, k, removals[k]);
    var kept, a, b := Keep(arr, gone), Keep(arr[..offsets[k]], gone), Keep(arr[..offsets[k + 1]], gone);
    assert |a| == shifted[k] && |b| == shifted[k + 1];
    assert b == kept[..|b|];
    assert kept[|a|..|b|] == b[|a|..];
  }

  lemma NoneBefore(removals: seq<seq<nat>>)
    ensures RemovedBefore(removals, 0) == 0
  {
  }

  /**
   The filter pass and the offset pass agree: cutting the filtered array at the shifted
   offsets gives every node its old run without exactly its removed positions.
   */
  lemma CompactionAgrees<T>(offsets: seq<nat>, arr: seq<T>, removals: seq<seq<nat>>, gone: seq<nat>,
                            shifted: seq<nat>)
    requires Cuts(offsets, |removals|, |arr|) && offsets != []
    requires AllLocalised(offsets, removals, gone) && LossesCount(offsets, arr, removals)
    requires |shifted| == |offsets|
    requires forall k | 0 <= k < |offsets| :: shifted[k] + RemovedBefore(removals, k) == offsets[k]
    ensures Cuts(shifted, |removals|, |Keep(arr, gone)|)
    ensures forall k | 0 <= k < |removals| ::
              Run(shifted, Keep(arr, gone), k) == Keep(Run(offsets, arr, k), removals[k])
  {
    hide Keep, RemovedBefore, LossesCount, AllLocalised, Run;
    forall k | 0 <= k < |removals|
      ensures shifted[k] <= shifted[k + 1]
      ensures Run(shifted, Keep(arr, gone), k) == Keep(Run(offsets, arr, k), removals[k])
    {
      ShiftedRun(offsets, arr, removals, gone, shifted, k);
    }
    assert forall i, j | 0 <= i && j == i + 1 < |shifted| :: shifted[i] <= shifted[j];
    AdjacentRise(shifted);
    NoneBefore(removals);
    KeepUpTo(offsets, arr, removals, gone, |removals|);
    assert arr[..offsets[|removals|]] == arr;
  }
}
