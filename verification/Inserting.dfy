/** Facts about grouping new entries by owner and merging them into a flat array. */
module Inserting {
  import opened Wrappers
  import opened Csr

  // ----- grouping by owner

  /** The positions of the entries owned by `v`, in order. */
  function IndicesOf(owners: seq<nat>, v: nat): seq<nat> {
    if owners == [] then []
    else
      var last := |owners| - 1;
      IndicesOf(owners[..last], v) + if owners[last] == v then [last] else []
  }

  /** How many entries the nodes before `v` own. */
  function StartOf(owners: seq<nat>, v: nat): nat {
    if v == 0 then 0 else StartOf(owners, v - 1) + |IndicesOf(owners, v - 1)|
  }

  lemma {:induction false} StartRises(owners: seq<nat>, u: nat, v: nat)
    requires u <= v
    ensures StartOf(owners, u) <= StartOf(owners, v)
    ensures u < v ==> StartOf(owners, u) + |IndicesOf(owners, u)| <= StartOf(owners, v)
    decreases v
  {
    if u < v {
      StartRises(owners, u, v - 1);
    }
  }

  lemma {:induction false} IndicesGrow(owners: seq<nat>, i: nat, v: nat)
    requires i <= |owners|
    ensures IndicesOf(owners[..i], v) <= IndicesOf(owners, v)
    decreases |owners|
  {
    if i < |owners| {
      var last := |owners| - 1;
      IndicesGrow(owners[..last], i, v);
      assert owners[..last][..i] == owners[..i];
    } else {
      assert owners[..i] == owners;
    }
  }

  lemma {:induction false} IndicesBelow(owners: seq<nat>, v: nat)
    ensures forall j | 0 <= j < |IndicesOf(owners, v)| ::
              IndicesOf(owners, v)[j] < |owners| && owners[IndicesOf(owners, v)[j]] == v
  {
    if owners != [] {
      var last := |owners| - 1;
      IndicesBelow(owners[..last], v);
    }
  }

  /** One more entry moves the start of every node after its owner by one. */
  lemma {:induction false} StartOfNext(owners: seq<nat>, x: nat, v: nat)
    ensures StartOf(owners + [x], v) == StartOf(owners, v) + if x < v then 1 else 0
  {
    if v > 0 {
      StartOfNext(owners, x, v - 1);
      assert (owners + [x])[..|owners|] == owners;
    }
  }

  lemma {:induction false} StartOfAll(owners: seq<nat>, n: nat)
    requires forall i | 0 <= i < |owners| :: owners[i] < n
    ensures StartOf(owners, n) == |owners|
  {
    if owners == [] {
      StartOfNone(n);
    } else {
      var last := |owners| - 1;
      StartOfAll(owners[..last], n);
      StartOfNext(owners[..last], owners[last], n);
      assert owners[..last] + [owners[last]] == owners;
    }
  }

  lemma {:induction false} StartOfNone(n: nat)
    ensures StartOf([], n) == 0
  {
    if n > 0 {
      StartOfNone(n - 1);
    }
  }

  // ----- merging

  /** Each node's old stretch followed by its new one, for the first `m` nodes. */
  function Interleaved<T>(pre: seq<nat>, old_: seq<T>, starts: seq<nat>, added: seq<T>, m: nat): seq<T>
    requires m < |pre| && m < |starts|
    requires Cuts(pre, |pre| - 1, |old_|) && Cuts(starts, |starts| - 1, |added|)
  {
    if m == 0 then []
    else Interleaved(pre, old_, starts, added, m - 1)
         + old_[pre[m - 1]..pre[m]] + added[starts[m - 1]..starts[m]]
  }

  /** Old and new offsets add up to the offsets of the merged array. */
  function Summed(pre: seq<nat>, starts: seq<nat>): (r: seq<nat>)
    requires |pre| == |starts|
    ensures |r| == |pre|
  {
    seq(|pre|, k requires 0 <= k < |pre| => pre[k] + starts[k])
  }

  ghost predicate Mergeable(pre: seq<nat>, oldLength: nat, starts: seq<nat>, newLength: nat) {
    && |pre| == |starts| > 0
    && Cuts(pre, |pre| - 1, oldLength)
    && Cuts(starts, |starts| - 1, newLength)
  }

  lemma {:induction false} InterleavedLength<T>(pre: seq<nat>, old_: seq<T>, starts: seq<nat>, added: seq<T>, m: nat)
    requires Mergeable(pre, |old_|, starts, |added|) && m < |pre|
    ensures |Interleaved(pre, old_, starts, added, m)| == pre[m] + starts[m]
  {
    if m > 0 {
      InterleavedLength(pre, old_, starts, added, m - 1);
    }
  }

  lemma {:induction false} InterleavedPrefix<T>(pre: seq<nat>, old_: seq<T>, starts: seq<nat>, added: seq<T>,
                                               m: nat, n: nat)
    requires Mergeable(pre, |old_|, starts, |added|) && m <= n < |pre|
    ensures Interleaved(pre, old_, starts, added, m) <= Interleaved(pre, old_, starts, added, n)
    decreases n
  {
    if m < n {
      InterleavedPrefix(pre, old_, starts, added, m, n - 1);
    }
  }

  /** In the merged array every node's run is its old run followed by its new entries. */
  lemma InterleavedRun<T>(pre: seq<nat>, old_: seq<T>, starts: seq<nat>, added: seq<T>, k: nat)
    requires Mergeable(pre, |old_|, starts, |added|) && k + 1 < |pre|
    ensures Run(Summed(pre, starts), Interleaved(pre, old_, starts, added, |pre| - 1), k)
         == Run(pre, old_, k) + Run(starts, added, k)
  {
    hide Interleaved, Run, Monotone;
    var all := Interleaved(pre, old_, starts, added, |pre| - 1);
    var a, b := Interleaved(pre, old_, starts, added, k), Interleaved(pre, old_, starts, added, k + 1);
    InterleavedLength(pre, old_, starts, added, k);
    InterleavedLength(pre, old_, starts, added, k + 1);
    InterleavedPrefix(pre, old_, starts, added, k + 1, |pre| - 1);
    MergeableAt(pre, |old_|, starts, |added|, k);
    SliceOfPrefix(all, b, |a|);
    var x, y := old_[pre[k]..pre[k + 1]], added[starts[k]..starts[k + 1]];
    InterleavedStep(pre, old_, starts, added, k);
    DropFront(a, x + y);
    SummedAt(pre, starts, k);
    SummedAt(pre, starts, k + 1);
    RunIs(pre, old_, k);
    RunIs(starts, added, k);
    RunIs(Summed(pre, starts), all, k);
  }

  lemma RunIs<T>(offsets: seq<nat>, arr: seq<T>, k: nat)
    requires k + 1 < |offsets| && offsets[k] <= offsets[k + 1] <= |arr|
    ensures Run(offsets, arr, k) == arr[offsets[k]..offsets[k + 1]]
  {
  }

  lemma MergeableAt(pre: seq<nat>, oldLength: nat, starts: seq<nat>, addedLength: nat, k: nat)
    requires Mergeable(pre, oldLength, starts, addedLength) && k + 1 < |pre|
    ensures pre[k] <= pre[k + 1] <= oldLength && starts[k] <= starts[k + 1] <= addedLength
  {
  }

  lemma SummedAt(pre: seq<nat>, starts: seq<nat>, k: nat)
    requires |pre| == |starts| && k < |pre|
    ensures |Summed(pre, starts)| == |pre| && Summed(pre, starts)[k] == pre[k] + starts[k]
  {
  }

  lemma InterleavedStep<T>(pre: seq<nat>, old_: seq<T>, starts: seq<nat>, added: seq<T>, k: nat)
    requires Mergeable(pre, |old_|, starts, |added|) && k + 1 < |pre|
    requires pre[k] <= pre[k + 1] <= |old_| && starts[k] <= starts[k + 1] <= |added|
    ensures Interleaved(pre, old_, starts, added, k + 1)
         == Interleaved(pre, old_, starts, added, k)
            + (old_[pre[k]..pre[k + 1]] + added[starts[k]..starts[k + 1]])
  {
  }

  lemma SummedCuts<T>(pre: seq<nat>, old_: seq<T>, starts: seq<nat>, added: seq<T>)
    requires Mergeable(pre, |old_|, starts, |added|)
    ensures Cuts(Summed(pre, starts), |pre| - 1, |Interleaved(pre, old_, starts, added, |pre| - 1)|)
  {
    InterleavedLength(pre, old_, starts, added, |pre| - 1);
  }

  lemma {:induction false} NothingAdded<T>(pre: seq<nat>, old_: seq<T>, starts: seq<nat>, m: nat)
    requires Mergeable(pre, |old_|, starts, 0) && m < |pre|
    ensures Interleaved(pre, old_, starts, [], m) == old_[..pre[m]]
  {
    if m > 0 {
      NothingAdded(pre, old_, starts, m - 1);
      assert starts[m] <= starts[|starts| - 1];
      assert old_[..pre[m]] == old_[..pre[m - 1]] + old_[pre[m - 1]..pre[m]];
    }
  }

  lemma {:induction false} NothingThere<T>(pre: seq<nat>, starts: seq<nat>, added: seq<T>, m: nat)
    requires Mergeable(pre, 0, starts, |added|) && m < |pre|
    ensures Interleaved(pre, [], starts, added, m) == added[..starts[m]]
  {
    if m > 0 {
      NothingThere(pre, starts, added, m - 1);
      assert pre[m] <= pre[|pre| - 1];
      assert added[..starts[m]] == added[..starts[m - 1]] + added[starts[m - 1]..starts[m]];
    }
  }

  // ----- batches

  /** Where a batch goes in the merged array, and how many entries it has. */
  datatype Batch = Batch(place: nat, count: nat)

  /** One batch for every one of the first `m` nodes that gains something. */
  function BatchesUpTo(pre: seq<nat>, starts: seq<nat>, m: nat): seq<Batch>
    requires m < |pre| && m < |starts| && Monotone(starts)
  {
    if m == 0 then []
    else BatchesUpTo(pre, starts, m - 1)
         + if starts[m] > starts[m - 1] then [Batch(pre[m] + starts[m - 1], starts[m] - starts[m - 1])] else []
  }

  /** A merge in progress: what is written and how far each source was read. */
  datatype Progress<T> = Progress(written: seq<T>, copied: nat, taken: nat)

  /** Copies old entries up to the batch's place, then the batch; fails if either runs short. */
  function MergeOne<T>(old_: seq<T>, added: seq<T>, p: Progress<T>, b: Batch): Option<Progress<T>> {
    if b.place < |p.written| then None
    else
      var take := b.place - |p.written|;
      if p.copied + take > |old_| || p.taken + b.count > |added| then None
      else Some(Progress(p.written + old_[p.copied..p.copied + take] + added[p.taken..p.taken + b.count],
                         p.copied + take, p.taken + b.count))
  }

  function MergeAll<T>(old_: seq<T>, added: seq<T>, batches: seq<Batch>): Option<Progress<T>> {
    if batches == [] then Some(Progress([], 0, 0))
    else
      var p := MergeAll(old_, added, batches[..|batches| - 1]);
      if p.None? then None else MergeOne(old_, added, p.value, batches[|batches| - 1])
  }

  /** A merge has dealt with the nodes before an old position and a new one. */
  ghost predicate Reached<T>(old_: seq<T>, p: Progress<T>, oldEnd: nat, newEnd: nat, merged: seq<T>) {
    && p.copied <= oldEnd <= |old_|
    && p.taken == newEnd
    && |p.written| == p.copied + p.taken
    && p.written + old_[p.copied..oldEnd] == merged
  }

  lemma ReachedWithoutBatch<T>(old_: seq<T>, p: Progress<T>, x: nat, y: nat, taken: nat, merged: seq<T>)
    requires Reached(old_, p, x, taken, merged) && x <= y <= |old_|
    ensures Reached(old_, p, y, taken, merged + old_[x..y])
  {
    SliceJoins(old_, p.copied, x, y);
    assert p.written + old_[p.copied..y] == p.written + old_[p.copied..x] + old_[x..y];
  }

  lemma ReachedWithBatch<T>(old_: seq<T>, added: seq<T>, p: Progress<T>, x: nat, y: nat,
                            a: nat, b: nat, merged: seq<T>)
    requires Reached(old_, p, x, a, merged) && x <= y <= |old_| && a < b <= |added|
    ensures var q := MergeOne(old_, added, p, Batch(y + a, b - a));
            q.Some? && Reached(old_, q.value, y, b, merged + old_[x..y] + added[a..b])
  {
    ReachedWithoutBatch(old_, p, x, y, a, merged);
    var q := MergeOne(old_, added, p, Batch(y + a, b - a)).value;
    assert q.written + old_[y..y] == q.written;
  }

  /** Merging the batches of the first `m` nodes succeeds and leaves only old entries to copy. */
  lemma {:induction false} MergesInterleaved<T>(pre: seq<nat>, old_: seq<T>, starts: seq<nat>, added: seq<T>, m: nat)
    requires Mergeable(pre, |old_|, starts, |added|) && m < |pre|
    ensures var p := MergeAll(old_, added, BatchesUpTo(pre, starts, m));
            p.Some? && Reached(old_, p.value, pre[m], starts[m], Interleaved(pre, old_, starts, added, m))
  {
    if m == 0 {
      assert [] + old_[0..0] == [];
    } else {
      MergesInterleaved(pre, old_, starts, added, m - 1);
      MergesNextNode(pre, old_, starts, added, m);
    }
  }

  lemma MergesNextNode<T>(pre: seq<nat>, old_: seq<T>, starts: seq<nat>, added: seq<T>, m: nat)
    requires Mergeable(pre, |old_|, starts, |added|) && 0 < m < |pre|
    requires var p := MergeAll(old_, added, BatchesUpTo(pre, starts, m - 1));
             && p.Some?
             && Reached(old_, p.value, pre[m - 1], starts[m - 1], Interleaved(pre, old_, starts, added, m - 1))
    ensures var p := MergeAll(old_, added, BatchesUpTo(pre, starts, m));
            p.Some? && Reached(old_, p.value, pre[m], starts[m], Interleaved(pre, old_, starts, added, m))
  {
    var before := BatchesUpTo(pre, starts, m - 1);
    var p := MergeAll(old_, added, before).value;
    var merged := Interleaved(pre, old_, starts, added, m - 1);
    var x, y, a, b := pre[m - 1], pre[m], starts[m - 1], starts[m];
    assert Interleaved(pre, old_, starts, added, m) == merged + old_[x..y] + added[a..b];
    if b > a {
      ReachedWithBatch(old_, added, p, x, y, a, b, merged);
      MergeAllNext(old_, added, before, Batch(y + a, b - a));
      assert BatchesUpTo(pre, starts, m) == before + [Batch(y + a, b - a)];
    } else {
      ReachedWithoutBatch(old_, p, x, y, b, merged);
      assert merged + old_[x..y] + added[a..b] == merged + old_[x..y];
      assert BatchesUpTo(pre, starts, m) == before;
    }
  }

  lemma MergeAllNext<T>(old_: seq<T>, added: seq<T>, batches: seq<Batch>, b: Batch)
    ensures var p := MergeAll(old_, added, batches);
            MergeAll(old_, added, batches + [b]) == if p.None? then None else MergeOne(old_, added, p.value, b)
  {
    assert (batches + [b])[..|batches|] == batches;
  }
}
