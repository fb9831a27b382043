/** Numbering the nodes of all kinds in one sequence. */
module NodeIndexes {
  import opened Wrappers
  import opened Storage
  import opened Graphs

  /** Where each kind's numbers start, and after the last kind the total. */
  datatype NodeIndex = NodeIndex(kindOffsets: seq<u32>)

  lemma {:induction false} StartsRise(counts: seq<nat>, a: nat, b: nat)
    requires a <= b <= |counts|
    ensures SumOf(counts[..a]) <= SumOf(counts[..b])
    ensures a < b ==> SumOf(counts[..a]) + counts[a] <= SumOf(counts[..b])
    decreases b
  {
    if a < b {
      assert counts[..b][..b - 1] == counts[..b - 1];
      StartsRise(counts, a, b - 1);
    }
  }

  lemma StartNext(counts: seq<nat>, k: nat)
    requires k < |counts|
    ensures SumOf(counts[..k + 1]) == SumOf(counts[..k]) + counts[k]
  {
    assert counts[..k + 1][..k] == counts[..k];
  }

  /** The index lists the running totals of the counts. */
  ghost predicate Indexes(index: NodeIndex, counts: seq<nat>) {
    && |index.kindOffsets| == |counts| + 1
    && forall k | 0 <= k <= |counts| :: index.kindOffsets[k] == SumOf(counts[..k])
  }

  /** Succeeds exactly when all nodes together can be numbered with 32 bits. */
  method NewNodeIndex(counts: seq<nat>) returns (r: Result<NodeIndex, Error>)
    ensures r.Ok? <==> SumOf(counts) <= U32_MAX
    ensures r.Ok? ==> Indexes(r.value, counts)
    ensures r.Err? ==> exists k :: 0 <= k <= |counts| && SumOf(counts[..k]) > U32_MAX
                                   && r.error == NodeCountOverflow(SumOf(counts[..k]))
                                   && forall j | 0 <= j < k :: SumOf(counts[..j]) <= U32_MAX
  {
    var kindOffsets: seq<u32> := [];
    var total: nat := 0;
    var k := 0;
    assert counts[..|counts|] == counts;
    while k < |counts|
      invariant 0 <= k <= |counts| && |kindOffsets| == k
      invariant total == SumOf(counts[..k])
      invariant forall j | 0 <= j < k :: SumOf(counts[..j]) <= U32_MAX && kindOffsets[j] == SumOf(counts[..j])
    {
      if total > U32_MAX {
        StartsRise(counts, k, |counts|);
        return Err(NodeCountOverflow(total));
      }
      StartNext(counts, k);
      kindOffsets := kindOffsets + [total];
      total := total + counts[k];
      k := k + 1;
    }
    if total > U32_MAX {
      return Err(NodeCountOverflow(total));
    }
    kindOffsets := kindOffsets + [total];
    return Ok(NodeIndex(kindOffsets));
  }

  function SaturatingAdd(a: u32, b: u32): u32 {
    if a + b <= U32_MAX then a + b else U32_MAX
  }

  function Densify(index: NodeIndex, node: RawNodeId): u32 {
    var base := if node.kind < |index.kindOffsets| then index.kindOffsets[node.kind] else U32_MAX;
    SaturatingAdd(base, node.seqNo)
  }

  /** The last of the first `m` offsets that does not exceed the number. */
  function LastAtMost(offsets: seq<u32>, dense: u32, m: nat): (r: Option<nat>)
    requires m <= |offsets|
    ensures r.Some? ==> r.value < m && offsets[r.value] <= dense
    ensures forall j | (if r.Some? then r.value + 1 else 0) <= j < m :: offsets[j] > dense
  {
    if m == 0 then None
    else if offsets[m - 1] <= dense then Some(m - 1)
    else LastAtMost(offsets, dense, m - 1)
  }

  function ResolveDense(index: NodeIndex, dense: u32): RawNodeId {
    var found := LastAtMost(index.kindOffsets, dense, |index.kindOffsets|);
    var last := if |index.kindOffsets| >= 2 then |index.kindOffsets| - 2 else 0;
    var at := if found.Some? then found.value else 0;
    var kind := if at <= last then at else last;
    var start := if kind < |index.kindOffsets| then index.kindOffsets[kind] else 0;
    NodeAt(kind, if start <= dense then dense - start else 0)
  }

  /** Existing nodes are numbered without saturating, in the order of kind and sequence number. */
  lemma DensifyCounts(index: NodeIndex, counts: seq<nat>, n: RawNodeId)
    requires Indexes(index, counts) && NodeIn(counts, n)
    ensures Densify(index, n) == SumOf(counts[..n.kind]) + n.seqNo < SumOf(counts)
  {
    StartsRise(counts, n.kind, |counts|);
    assert counts[..|counts|] == counts;
    assert index.kindOffsets[|counts|] == SumOf(counts);
  }

  /** Numbers rise strictly with the nodes, so no two nodes share one. */
  lemma DensifyRises(index: NodeIndex, counts: seq<nat>, a: RawNodeId, b: RawNodeId)
    requires Indexes(index, counts) && NodeIn(counts, a) && NodeIn(counts, b)
    ensures Densify(index, a) < Densify(index, b) <==> a.kind < b.kind || (a.kind == b.kind && a.seqNo < b.seqNo)
    ensures Densify(index, a) == Densify(index, b) <==> a == b
  {
    DensifyCounts(index, counts, a);
    DensifyCounts(index, counts, b);
    if a.kind < b.kind {
      StartsRise(counts, a.kind, b.kind);
    } else if b.kind < a.kind {
      StartsRise(counts, b.kind, a.kind);
    }
  }

  /** Resolving undoes numbering, however many kinds are empty. */
  lemma ResolveUndoes(index: NodeIndex, counts: seq<nat>, n: RawNodeId)
    requires Indexes(index, counts) && NodeIn(counts, n)
    ensures ResolveDense(index, Densify(index, n)) == n
  {
    var dense := Densify(index, n);
    DensifyCounts(index, counts, n);
    StartNext(counts, n.kind);
    var found := LastAtMost(index.kindOffsets, dense, |index.kindOffsets|);
    assert index.kindOffsets[n.kind] <= dense < index.kindOffsets[n.kind + 1];
    if found.Some? && n.kind < found.value {
      StartsRise(counts, n.kind + 1, found.value);
    }
  }

  /** Every number below the total is some node's, and numbering undoes resolving. */
  lemma DensifyUndoes(index: NodeIndex, counts: seq<nat>, dense: u32)
    requires Indexes(index, counts) && dense < SumOf(counts) && |counts| <= U32_MAX
    ensures NodeIn(counts, ResolveDense(index, dense))
    ensures Densify(index, ResolveDense(index, dense)) == dense
  {
    assert counts[..|counts|] == counts && counts[..0] == [];
    assert index.kindOffsets[|counts|] == SumOf(counts) && index.kindOffsets[0] == 0;
    var found := LastAtMost(index.kindOffsets, dense, |index.kindOffsets|);
    StartNext(counts, found.value);
    DensifyCounts(index, counts, ResolveDense(index, dense));
  }
}
