/** The integrity check spread over threads: whatever the reduction tree, the same verdict. */
module ParallelChecks {
  import opened Wrappers
  import opened Storage
  import opened Schemas
  import opened Graphs
  import opened FlatGraphs
  import opened EdgeBags
  import opened NodeIndexes
  import opened HalfPairing
  import opened Outcomes
  import opened SlotChecks
  import opened Integrity

  /** How a parallel reduction over an ordered list combines its members. */
  datatype Tree = Identity | Leaf(index: nat) | Join(left: Tree, right: Tree)

  function Leaves(t: Tree): seq<nat> {
    match t
    case Identity => []
    case Leaf(i) => [i]
    case Join(l, r) => Leaves(l) + Leaves(r)
  }

  /** The first outcome unless it passes, like `Result::and`. */
  function And(a: Outcome<Error>, b: Outcome<Error>): Outcome<Error> {
    if a.Ok? then b else a
  }

  function Reduce(t: Tree, outcomes: seq<Outcome<Error>>): Outcome<Error> {
    match t
    case Identity => Ok(())
    case Leaf(i) => if i < |outcomes| then outcomes[i] else Ok(())
    case Join(l, r) => And(Reduce(l, outcomes), Reduce(r, outcomes))
  }

  /** A tree whose leaves are all the members, in order. */
  ghost predicate Covers(t: Tree, n: nat) {
    Leaves(t) == seq(n, i => i)
  }

  lemma {:induction false} FirstJoins(a: seq<Outcome<Error>>, b: seq<Outcome<Error>>)
    ensures First(a + b) == And(First(a), First(b))
    decreases |b|
  {
    if b == [] {
      assert a + b == a;
      if First(a).Ok? {
        PassIsOk(First(a));
      }
    } else {
      FirstJoins(a, b[..|b| - 1]);
      assert (a + b)[..|a + b| - 1] == a + b[..|b| - 1];
    }
  }

  function Picked(leaves: seq<nat>, outcomes: seq<Outcome<Error>>): (r: seq<Outcome<Error>>)
    ensures |r| == |leaves|
  {
    seq(|leaves|, j requires 0 <= j < |leaves| => if leaves[j] < |outcomes| then outcomes[leaves[j]] else Ok(()))
  }

  /** A reduction yields the first failure among its leaves, whatever its shape. */
  lemma {:induction false} ReduceIsFirst(t: Tree, outcomes: seq<Outcome<Error>>)
    ensures Reduce(t, outcomes) == First(Picked(Leaves(t), outcomes))
  {
    match t
    case Identity =>
    case Leaf(i) =>
      assert Picked([i], outcomes)[..0] == [];
    case Join(l, r) =>
      ReduceIsFirst(l, outcomes);
      ReduceIsFirst(r, outcomes);
      assert Picked(Leaves(l) + Leaves(r), outcomes) == Picked(Leaves(l), outcomes) + Picked(Leaves(r), outcomes);
      FirstJoins(Picked(Leaves(l), outcomes), Picked(Leaves(r), outcomes));
  }

  lemma CoveringIsFirst(t: Tree, outcomes: seq<Outcome<Error>>)
    requires Covers(t, |outcomes|)
    ensures Reduce(t, outcomes) == First(outcomes)
  {
    ReduceIsFirst(t, outcomes);
    assert Picked(Leaves(t), outcomes) == outcomes;
  }

  // ----- buckets of edge slots

  function BucketDirection(b: nat): Direction {
    if b % 2 == 0 then In else Out
  }

  function BucketOutcomes(s: Schema, raw: RawGraph, b: nat): (r: seq<Outcome<Error>>)
    requires s.Valid() && Sized(s, raw) && b < 2 * |s.edgeTypes|
    ensures |r| == s.nodeKinds
  {
    TimesMonotone(s.nodeKinds, b + 1, 2 * |s.edgeTypes|);
    EdgeOutcomes(s, raw)[Times(s.nodeKinds, b)..Times(s.nodeKinds, b) + s.nodeKinds]
  }

  /** What one bucket's thread hands back: its first failure, or all its halves. */
  function BucketResult(s: Schema, raw: RawGraph, index: NodeIndex, b: nat): Result<seq<HalfEdge>, Error>
    requires s.Valid() && Sized(s, raw) && b < 2 * |s.edgeTypes|
  {
    var outcome := First(BucketOutcomes(s, raw, b));
    if outcome.Err? then Err(outcome.error) else Ok(SideOf(s, raw, index, BucketDirection(b), b / 2))
  }

  lemma BucketSlot(s: Schema, raw: RawGraph, b: nat, k: nat)
    requires s.Valid() && Sized(s, raw) && b < 2 * |s.edgeTypes| && k < s.nodeKinds
    ensures var i := s.EdgeStorageSlot(k, BucketDirection(b), b / 2);
            && i < |raw.edges|
            && s.EdgeSlotKind(i) == k && s.EdgeSlotDirection(i) == BucketDirection(b)
            && EdgeSlotOutcome(s, raw, i) == BucketOutcomes(s, raw, b)[k]
            && |Block(s, StoredTables(s, raw), BucketDirection(b), b / 2)| == s.nodeKinds
            && Block(s, StoredTables(s, raw), BucketDirection(b), b / 2)[k] == StoredTables(s, raw)[i]
  {
    hide EdgeSlotOutcome, StoredTables;
    s.EdgeSlotOf(k, BucketDirection(b), b / 2);
    BlockBounds(s, BucketDirection(b), b / 2);
    assert BucketDirection(b).Factor() + 2 * (b / 2) == b;
    assert s.EdgeStorageSlot(k, BucketDirection(b), b / 2) == k + Times(s.nodeKinds, b);
  }

  /** One thread's share: the slots of one edge kind and direction, node kind by node kind. */
  method CheckBucket(s: Schema, raw: RawGraph, index: NodeIndex, b: nat) returns (r: Result<seq<HalfEdge>, Error>)
    requires s.Valid() && Sized(s, raw) && b < 2 * |s.edgeTypes|
    ensures r == BucketResult(s, raw, index, b)
  {
    hide BucketOutcomes, EdgeSlotOutcome, DenseAll, KindEdges, StoredTables, Block, Schema.EdgeStorageSlot,
         Schema.EdgeSlotKind, Schema.EdgeSlotDirection, BucketDirection;
    var halves: seq<HalfEdge> := [];
    var d, e := BucketDirection(b), b / 2;
    ghost var outcomes := BucketOutcomes(s, raw, b);
    ghost var block := Block(s, StoredTables(s, raw), d, e);
    BlockLength(s, raw, d, e);
    var k := 0;
    assert outcomes[..0] == [] && block[..0] == [];
    NothingDense(index);
    while k < s.nodeKinds
      invariant 0 <= k <= s.nodeKinds
      invariant First(outcomes[..k]).Ok?
      invariant halves == DenseAll(index, BlockEdges(d, block[..k]))
    {
      BucketSlot(s, raw, b, k);
      FirstNext(outcomes, k);
      var outcome, listed := CheckEdgeSlot(s, raw, index, s.EdgeStorageSlot(k, d, e), halves);
      if outcome.Err? {
        FirstStops(outcomes, k + 1);
        return Err(outcome.error);
      }
      assert block[..k + 1][..k] == block[..k];
      DenseJoins(index, BlockEdges(d, block[..k]), KindEdges(k, d, block[k].runs));
      halves := listed;
      k := k + 1;
    }
    assert outcomes[..k] == outcomes && block[..k] == block;
    return Ok(halves);
  }

  lemma BlockLength(s: Schema, raw: RawGraph, d: Direction, e: nat)
    requires Sized(s, raw) && e < |s.edgeTypes|
    ensures |Block(s, StoredTables(s, raw), d, e)| == s.nodeKinds
  {
    BlockBounds(s, d, e);
  }

  lemma NothingDense(index: NodeIndex)
    ensures DenseAll(index, []) == []
  {
  }

  /** Slots in order are buckets in order. */
  lemma BucketFollows(s: Schema, raw: RawGraph, b: nat)
    requires s.Valid() && Sized(s, raw) && b < 2 * |s.edgeTypes|
    ensures Times(s.nodeKinds, b) + s.nodeKinds == Times(s.nodeKinds, b + 1) <= |raw.edges|
    ensures First(EdgeOutcomes(s, raw)[..Times(s.nodeKinds, b + 1)])
         == And(First(EdgeOutcomes(s, raw)[..Times(s.nodeKinds, b)]), First(BucketOutcomes(s, raw, b)))
  {
    hide EdgeOutcomes, First;
    TimesMonotone(s.nodeKinds, b + 1, 2 * |s.edgeTypes|);
    var all, start := EdgeOutcomes(s, raw), Times(s.nodeKinds, b);
    assert all[..start + s.nodeKinds] == all[..start] + all[start..start + s.nodeKinds];
    FirstJoins(all[..start], all[start..start + s.nodeKinds]);
  }

  /** Scans the buckets' results in order and keeps their halves, or stops at the first failure. */
  method GatherBuckets(s: Schema, raw: RawGraph, index: NodeIndex, collected: seq<Result<seq<HalfEdge>, Error>>)
    returns (r: Outcome<Error>, outs: seq<seq<HalfEdge>>, ins: seq<seq<HalfEdge>>)
    requires s.Valid() && Sized(s, raw) && |collected| == 2 * |s.edgeTypes|
    requires forall b | 0 <= b < |collected| :: collected[b] == BucketResult(s, raw, index, b)
    ensures r == First(EdgeOutcomes(s, raw))
    ensures r.Ok? ==> |outs| == |ins| == |s.edgeTypes|
    ensures r.Ok? ==> forall e | 0 <= e < |s.edgeTypes| ::
              outs[e] == SideOf(s, raw, index, Out, e) && ins[e] == SideOf(s, raw, index, In, e)
  {
    hide EdgeOutcomes, BucketOutcomes, SideOf, Schema.EdgeStorageSize;
    ghost var outcomes := EdgeOutcomes(s, raw);
    outs, ins := seq(|s.edgeTypes|, _ => []), seq(|s.edgeTypes|, _ => []);
    var b := 0;
    assert outcomes[..0] == [];
    while b < |collected|
      invariant 0 <= b <= |collected| && |outs| == |ins| == |s.edgeTypes|
      invariant Times(s.nodeKinds, b) <= |outcomes| && First(outcomes[..Times(s.nodeKinds, b)]).Ok?
      invariant forall e | 0 <= e < |s.edgeTypes| ::
                  && (2 * e < b ==> ins[e] == SideOf(s, raw, index, In, e))
                  && (2 * e + 1 < b ==> outs[e] == SideOf(s, raw, index, Out, e))
    {
      BucketFollows(s, raw, b);
      if collected[b].Err? {
        FirstStops(outcomes, Times(s.nodeKinds, b + 1));
        return Err(collected[b].error), outs, ins;
      }
      match BucketDirection(b) {
        case Out => outs := outs[b / 2 := collected[b].value];
        case In => ins := ins[b / 2 := collected[b].value];
      }
      b := b + 1;
    }
    SizeIsTimes(s);
    assert outcomes[..Times(s.nodeKinds, b)] == outcomes;
    PassIsOk(First(outcomes));
    r := Ok(());
  }

  lemma SizeIsTimes(s: Schema)
    ensures s.EdgeStorageSize() == Times(s.nodeKinds, 2 * |s.edgeTypes|)
  {
  }

  /**
   The parallel driver. Reductions may combine their members in any tree over the same order,
   and the verdict, down to which error is reported, is that of the sequential driver.
   */
  method CheckSlotsInParallel(s: Schema, raw: RawGraph, index: NodeIndex, propertyTree: Tree, pairingTree: Tree)
    returns (r: Outcome<Error>)
    requires s.Valid() && Sized(s, raw)
    requires Covers(propertyTree, |raw.props|) && Covers(pairingTree, |s.edgeTypes|)
    ensures r == SlotsVerdict(s, raw, index)
  {
    hide PropertyOutcomes, EdgeOutcomes, SideOf, CheckHalfEdgePairing, BucketResult, Covers;
    CoveringIsFirst(propertyTree, PropertyOutcomes(s, raw));
    r := Reduce(propertyTree, PropertyOutcomes(s, raw));
    if r.Err? {
      return r;
    }
    var collected: seq<Result<seq<HalfEdge>, Error>> := [];
    while |collected| < 2 * |s.edgeTypes|
      invariant |collected| <= 2 * |s.edgeTypes|
      invariant forall b | 0 <= b < |collected| :: collected[b] == BucketResult(s, raw, index, b)
    {
      var result := CheckBucket(s, raw, index, |collected|);
      collected := collected + [result];
    }
    var outs, ins;
    r, outs, ins := GatherBuckets(s, raw, index, collected);
    if r.Err? {
      return r;
    }
    var pairings := seq(|s.edgeTypes|, e requires 0 <= e < |s.edgeTypes| && |outs| == |ins| == |s.edgeTypes| =>
      CheckHalfEdgePairing(e, index, outs[e], ins[e]));
    assert pairings == PairingOutcomes(s, raw, index);
    CoveringIsFirst(pairingTree, pairings);
    r := Reduce(pairingTree, pairings);
  }
}
