/** Rebuilding the edge slots that lose half-edges. */
module EdgeRemovals {
  import opened Wrappers
  import opened Storage
  import opened Schemas
  import opened Csr
  import opened Graphs
  import opened Diffs
  import opened Outcomes
  import opened FlatGraphs
  import opened Sorting
  import opened Keeping

  function Degrees(offsets: seq<nat>, n: nat): (r: seq<nat>)
    ensures |r| == n
  {
    seq(n, k requires 0 <= k < n => Degree(offsets, k))
  }

  lemma PositionsPass(ps: seq<nat>, length: nat)
    requires forall p <- ps :: p < length
    ensures First(PositionOutcomes(ps, length)).Ok?
  {
    forall j | 0 <= j < |ps|
      ensures PositionOutcomes(ps, length)[j].Ok?
    {
      assert ps[j] in ps;
    }
    FirstOk(PositionOutcomes(ps, length));
  }

  /** With the nodes before it in order, a node with a bad position is what the slot is refused for. */
  lemma FirstNodeFails(offsets: seq<nat>, removals: seq<seq<nat>>, k: nat)
    requires |offsets| == |removals| + 1 && Monotone(offsets) && k < |removals| && RemovalsFit(offsets, removals, k)
    requires First(PositionOutcomes(removals[k], offsets[k + 1] - offsets[k])).Err?
    ensures First(NodeRemovalOutcomes(Degrees(offsets, |removals|), removals))
         == First(PositionOutcomes(removals[k], offsets[k + 1] - offsets[k]))
  {
    var outcomes := NodeRemovalOutcomes(Degrees(offsets, |removals|), removals);
    forall j | 0 <= j < k
      ensures outcomes[j].Ok?
    {
      PositionsPass(removals[j], offsets[j + 1] - offsets[j]);
    }
    FirstFailsAt(outcomes, k);
  }

  /** Collects absolute positions, or stops at the first position past its node's run. */
  method CollectRemovals(slot: EdgeSlot, removals: seq<seq<nat>>) returns (r: Result<seq<nat>, Error>)
    requires Cuts(slot.offsets, |removals|, |slot.neighbors|) && slot.offsets != []
    requires forall k | 0 <= k < |removals| :: Distinct(removals[k])
    ensures r.Ok? <==> RemovalsFit(slot.offsets, removals, |removals|)
    ensures r.Ok? ==> r.value == Absolute(slot.offsets, removals, |removals|)
    ensures r.Err? ==> First(NodeRemovalOutcomes(Degrees(slot.offsets, |removals|), removals)) == Err(r.error)
  {
    var absolute: seq<nat> := [];
    var start := 0;
    while start < |removals|
      invariant 0 <= start <= |removals|
      invariant RemovalsFit(slot.offsets, removals, start)
      invariant absolute == Absolute(slot.offsets, removals, start)
    {
      var locals := removals[start];
      if locals != [] {
        var bounds := GetOffset(slot.offsets, start);
        assert bounds.Some?;
        assert slot.offsets[start] <= slot.offsets[start + 1];
        var length := CheckedSub(bounds.value.1, bounds.value.0);
        assert length.Ok?;
        var degree := length.value;
        var i := 0;
        while i < |locals|
          invariant 0 <= i <= |locals|
          invariant forall j | 0 <= j < i :: locals[j] < degree
          invariant absolute == Absolute(slot.offsets, removals, start) + Shifted(locals, slot.offsets[start])[..i]
        {
          if locals[i] >= degree {
            assert locals[i] in removals[start];
            FirstFailsAt(PositionOutcomes(locals, degree), i);
            FirstNodeFails(slot.offsets, removals, start);
            return Err(NodeOffsetNotFound(locals[i]));
          }
          absolute := absolute + [bounds.value.0 + locals[i]];
          i := i + 1;
        }
        assert Shifted(locals, slot.offsets[start])[..|locals|] == Shifted(locals, slot.offsets[start]);
      } else {
        assert Shifted(locals, slot.offsets[start]) == [];
      }
      start := start + 1;
    }
    return Ok(absolute);
  }

  /** The first `i` entries are filtered, and `next` is the first position still to skip. */
  ghost predicate Filtered(slot: EdgeSlot, sorted: seq<nat>, i: nat, next: nat, neighbors: seq<RawNodeId>,
                           values: StorageArray) {
    && i <= |slot.neighbors| && next <= |sorted|
    && (forall j | 0 <= j < next :: sorted[j] < i)
    && (forall j | next <= j < |sorted| :: sorted[j] >= i)
    && neighbors == Keep(slot.neighbors[..i], sorted)
    && TypeOf(values) == TypeOf(slot.values)
    && (if TypeOf(values) == NoType then Items(values) == []
        else i <= |Items(slot.values)| && Items(values) == Keep(Items(slot.values)[..i], sorted))
  }

  lemma KeepOne<T>(run: seq<T>, removed: seq<nat>, i: nat)
    requires i < |run|
    ensures Keep(run[..i + 1], removed)
         == if i in removed then Keep(run[..i], removed) else Keep(run[..i], removed) + [run[i]]
  {
    assert run[..i + 1][..i] == run[..i];
  }

  /** Skipping an entry that is next in the sorted positions, or keeping one that is not. */
  lemma FilteredNext(slot: EdgeSlot, sorted: seq<nat>, i: nat, next: nat, neighbors: seq<RawNodeId>,
                     values: StorageArray, values': StorageArray)
    requires forall i, j | 0 <= i < j < |sorted| :: sorted[i] < sorted[j]
    requires TypeOf(slot.values) != NoType ==> |Items(slot.values)| == |slot.neighbors|
    requires Filtered(slot, sorted, i, next, neighbors, values) && i < |slot.neighbors|
    requires var v := ValueAt(slot.values, i);
             if v.Some? then TryPush(values, v.value) == Ok(values') else values' == values
    ensures if next < |sorted| && sorted[next] == i then Filtered(slot, sorted, i + 1, next + 1, neighbors, values)
            else Filtered(slot, sorted, i + 1, next, neighbors + [slot.neighbors[i]], values')
  {
    hide Keep;
    KeepOne(slot.neighbors, sorted, i);
    if TypeOf(slot.values) != NoType {
      KeepOne(Items(slot.values), sorted, i);
    }
    if next < |sorted| && sorted[next] == i {
      assert i in sorted;
    } else if next < |sorted| {
      assert sorted[next] > i;
      assert forall j | next < j < |sorted| :: sorted[next] < sorted[j];
      assert i !in sorted;
    } else {
      assert i !in sorted;
    }
  }

  lemma FilteredStarts(slot: EdgeSlot, sorted: seq<nat>)
    ensures Filtered(slot, sorted, 0, 0, [], NewArray(TypeOf(slot.values)))
  {
  }

  lemma FilteredPushes(slot: EdgeSlot, sorted: seq<nat>, i: nat, next: nat, neighbors: seq<RawNodeId>,
                       values: StorageArray)
    requires Filtered(slot, sorted, i, next, neighbors, values)
    ensures next <= |sorted|
    ensures var v := ValueAt(slot.values, i); v.Some? ==> TryPush(values, v.value).Ok?
  {
    var v := ValueAt(slot.values, i);
    if v.Some? {
      assert v.value in Items(slot.values);
    }
  }

  lemma FilteredEnds(slot: EdgeSlot, sorted: seq<nat>, next: nat, neighbors: seq<RawNodeId>, values: StorageArray)
    requires TypeOf(slot.values) != NoType ==> |Items(slot.values)| == |slot.neighbors|
    requires Filtered(slot, sorted, |slot.neighbors|, next, neighbors, values)
    ensures neighbors == Keep(slot.neighbors, sorted) && TypeOf(values) == TypeOf(slot.values)
    ensures Items(values) == Keep(Items(slot.values), sorted)
  {
    assert slot.neighbors[..|slot.neighbors|] == slot.neighbors;
    if TypeOf(slot.values) != NoType {
      assert Items(slot.values)[..|slot.neighbors|] == Items(slot.values);
    }
  }

  /** One pass over the arrays that skips the sorted positions. */
  method FilterPass(slot: EdgeSlot, sorted: seq<nat>)
    returns (neighbors: seq<RawNodeId>, values: StorageArray)
    requires forall i, j | 0 <= i < j < |sorted| :: sorted[i] < sorted[j]
    requires TypeOf(slot.values) != NoType ==> |Items(slot.values)| == |slot.neighbors|
    ensures neighbors == Keep(slot.neighbors, sorted)
    ensures TypeOf(values) == TypeOf(slot.values)
    ensures Items(values) == Keep(Items(slot.values), sorted)
  {
    hide *;
    neighbors := [];
    values := NewArray(TypeOf(slot.values));
    var next := 0;
    var i := 0;
    FilteredStarts(slot, sorted);
    while i < |slot.neighbors|
      invariant 0 <= i <= |slot.neighbors| && 0 <= next <= |sorted|
      invariant Filtered(slot, sorted, i, next, neighbors, values)
    {
      FilteredPushes(slot, sorted, i, next, neighbors, values);
      var v := ValueAt(slot.values, i);
      // A column always takes its own values back.
      var pushed := if v.Some? then TryPush(values, v.value) else Ok(values);
      FilteredNext(slot, sorted, i, next, neighbors, values, pushed.value);
      if next < |sorted| && sorted[next] == i {
        next := next + 1;
      } else {
        neighbors := neighbors + [slot.neighbors[i]];
        values := pushed.value;
      }
      i := i + 1;
    }
    FilteredEnds(slot, sorted, next, neighbors, values);
  }

  /** Shifts every offset down by what the nodes before it lose. */
  method ShiftOffsets(offsets: seq<u32>, removals: seq<seq<nat>>) returns (r: Result<seq<u32>, Error>)
    requires |offsets| == |removals| + 1
    requires offsets[0] == 0
    ensures r.Ok? <==> forall k | 0 <= k <= |removals| :: RemovedBefore(removals, k) <= offsets[k]
    ensures r.Ok? ==> |r.value| == |offsets|
    ensures r.Ok? ==> forall k | 0 <= k < |offsets| :: r.value[k] + RemovedBefore(removals, k) == offsets[k]
  {
    var shifted := offsets;
    var removedSoFar := 0;
    var end := 1;
    while end < |shifted|
      invariant 1 <= end <= |shifted| == |offsets|
      invariant removedSoFar == RemovedBefore(removals, end - 1)
      invariant forall k | 0 <= k < end :: shifted[k] + RemovedBefore(removals, k) == offsets[k]
      invariant forall k | end <= k < |shifted| :: shifted[k] == offsets[k]
    {
      removedSoFar := removedSoFar + |removals[end - 1]|;
      assert removedSoFar == RemovedBefore(removals, end);
      var lower :- CheckedSubDelta(shifted[end], removedSoFar);
      shifted := shifted[end := lower];
      end := end + 1;
    }
    return Ok(shifted);
  }

  /** Pairing up the filtered arrays is filtering the paired ones. */
  lemma {:induction false} KeptHalves(strings: seq<Text>, ns: seq<RawNodeId>, vs: seq<StoredProperty>,
                                     removed: seq<nat>)
    requires vs == [] || |vs| == |ns|
    ensures Zip(strings, Keep(ns, removed), Keep(vs, removed)) == Keep(Zip(strings, ns, vs), removed)
    decreases |ns|
  {
    if ns != [] {
      var last := |ns| - 1;
      var front := if vs == [] then [] else vs[..last];
      assert Zip(strings, ns, vs)[..last] == Zip(strings, ns[..last], front);
      KeptHalves(strings, ns[..last], front, removed);
      if vs != [] {
        KeepAligned(ns[..last], front, removed);
      }
    }
  }

  lemma DegreesAreLengths(slot: EdgeSlot, typ: PropertyType, n: nat, strings: seq<Text>)
    requires EdgeSlotOk(slot, typ, n, strings)
    ensures Degrees(slot.offsets, n) == Lengths(EdgeTable(strings, slot, n).runs)
  {
    forall k | 0 <= k < n
      ensures Degrees(slot.offsets, n)[k] == |EdgeTable(strings, slot, n).runs[k]|
    {
      RunLength(slot.offsets, Halves(strings, slot), n, k);
    }
  }

  /** Rebuilds one slot without the positions each node loses; a slot never used stays as it is. */
  method CompactSlot(slot: EdgeSlot, removals: seq<seq<nat>>, ghost typ: PropertyType, ghost strings: seq<Text>)
    returns (r: Result<Option<EdgeSlot>, Error>)
    requires EdgeSlotOk(slot, typ, |removals|, strings)
    requires forall k | 0 <= k < |removals| :: Distinct(removals[k])
    ensures r.Ok? <==> slot.offsets == [] || RemovalsFit(slot.offsets, removals, |removals|)
    ensures r.Ok? ==> var after := if r.value.Some? then r.value.value else slot;
                      && EdgeSlotOk(after, typ, |removals|, strings)
                      && CompactedTable(EdgeTable(strings, slot, |removals|), removals,
                                        EdgeTable(strings, after, |removals|))
    ensures r.Err? ==> slot.offsets != []
    ensures r.Err? ==>
              First(NodeRemovalOutcomes(Lengths(EdgeTable(strings, slot, |removals|).runs), removals)) == Err(r.error)
  {
    hide *;
    if slot.offsets == [] {
      UnusedCompacted(slot, typ, removals, strings);
      return Ok(None);
    }
    SlotIsCut(slot, typ, |removals|, strings);
    CutsIsShaped(slot.offsets, |removals|, |slot.neighbors|);
    DegreesAreLengths(slot, typ, |removals|, strings);
    var collected := CollectRemovals(slot, removals);
    if collected.Err? {
      return Err(collected.error);
    }
    var absolute := collected.value;
    if absolute == [] {
      NothingCompacted(slot, typ, removals, strings);
      return Ok(None);
    }
    PositionsDistinct(slot.offsets, removals);
    SortNats(absolute);
    var sorted := Sort(absolute, NatLeq);
    var neighbors, values := FilterPass(slot, sorted);
    ShiftsFit(slot, typ, removals, strings);
    var offsets := ShiftOffsets(slot.offsets, removals);
    var after := EdgeSlot(offsets.value, neighbors, values);
    FilteredIsCompacted(slot, typ, removals, strings, sorted, after);
    return Ok(Some(after));
  }

  lemma UnusedCompacted(slot: EdgeSlot, typ: PropertyType, removals: seq<seq<nat>>, strings: seq<Text>)
    requires EdgeSlotOk(slot, typ, |removals|, strings) && slot.offsets == []
    ensures CompactedTable(EdgeTable(strings, slot, |removals|), removals, EdgeTable(strings, slot, |removals|))
  {
  }

  lemma NothingCompacted(slot: EdgeSlot, typ: PropertyType, removals: seq<seq<nat>>, strings: seq<Text>)
    requires EdgeSlotOk(slot, typ, |removals|, strings) && slot.offsets != []
    requires Absolute(slot.offsets, removals, |removals|) == []
    ensures CompactedTable(EdgeTable(strings, slot, |removals|), removals, EdgeTable(strings, slot, |removals|))
  {
    NothingRemoved(slot.offsets, Halves(strings, slot), removals);
  }

  lemma CutsIsShaped(offsets: seq<nat>, n: nat, length: nat)
    requires Cuts(offsets, n, length) && offsets != []
    ensures |offsets| == n + 1 && offsets[0] == 0
  {
  }

  lemma PositionsDistinct(offsets: seq<nat>, removals: seq<seq<nat>>)
    requires |offsets| == |removals| + 1 && Cuts(offsets, |removals|, Last(offsets)) && offsets != []
    requires RemovalsFit(offsets, removals, |removals|)
    ensures var absolute := Absolute(offsets, removals, |removals|);
            forall i, j | 0 <= i < j < |absolute| :: absolute[i] != absolute[j]
  {
    AbsoluteBounds(offsets, removals, |removals|);
  }

  /** No offset is smaller than what the nodes before it lose. */
  lemma ShiftsFit(slot: EdgeSlot, typ: PropertyType, removals: seq<seq<nat>>, strings: seq<Text>)
    requires EdgeSlotOk(slot, typ, |removals|, strings) && slot.offsets != []
    requires RemovalsFit(slot.offsets, removals, |removals|)
    ensures |slot.offsets| == |removals| + 1
    ensures forall k | 0 <= k <= |removals| :: RemovedBefore(removals, k) <= slot.offsets[k]
  {
    hide RemovalsFit, Absolute, IdsInPool;
    var absolute := Absolute(slot.offsets, removals, |removals|);
    AbsoluteLocalised(slot.offsets, removals);
    FitLossesCount(slot.offsets, slot.neighbors, removals);
    forall k | 0 <= k <= |removals|
      ensures RemovedBefore(removals, k) <= slot.offsets[k]
    {
      KeepUpTo(slot.offsets, slot.neighbors, removals, absolute, k);
    }
  }

  /** Filtered arrays under shifted offsets are the slot without the positions each node loses. */
  lemma FilteredIsCompacted(slot: EdgeSlot, typ: PropertyType, removals: seq<seq<nat>>, strings: seq<Text>,
                            sorted: seq<nat>, after: EdgeSlot)
    requires EdgeSlotOk(slot, typ, |removals|, strings) && slot.offsets != []
    requires RemovalsFit(slot.offsets, removals, |removals|)
    requires forall x :: x in sorted <==> x in Absolute(slot.offsets, removals, |removals|)
    requires after.neighbors == Keep(slot.neighbors, sorted) && TypeOf(after.values) == TypeOf(slot.values)
    requires Items(after.values) == Keep(Items(slot.values), sorted) && |after.offsets| == |slot.offsets|
    requires forall k | 0 <= k < |slot.offsets| ::
               after.offsets[k] + RemovedBefore(removals, k) == slot.offsets[k]
    ensures EdgeSlotOk(after, typ, |removals|, strings)
    ensures CompactedTable(EdgeTable(strings, slot, |removals|), removals, EdgeTable(strings, after, |removals|))
  {
    hide RemovalsFit, Absolute, IdsInPool, Keep, RemovedBefore, LossesCount, AllLocalised, Run;
    var absolute, halves := Absolute(slot.offsets, removals, |removals|), Halves(strings, slot);
    AbsoluteLocalised(slot.offsets, removals);
    FitLossesCount(slot.offsets, halves, removals);
    KeepAgrees(halves, sorted, absolute);
    KeptHalves(strings, slot.neighbors, Items(slot.values), sorted);
    CompactionAgrees(slot.offsets, halves, removals, absolute, after.offsets);
    KeptIdsInPool(strings, Items(slot.values), sorted);
    if typ != NoType {
      KeepAligned(slot.neighbors, Items(slot.values), sorted);
    }
  }

  /** Each run of the second table is the first's without the positions listed for its node. */
  ghost predicate CompactedTable(before: Table<Half<PropertyValue>>, removals: seq<seq<nat>>,
                                 after: Table<Half<PropertyValue>>)
  {
    && after.used == before.used
    && |after.runs| == |before.runs| == |removals|
    && forall k | 0 <= k < |removals| :: after.runs[k] == Keep(before.runs[k], removals[k])
  }

  lemma KeptIdsInPool(strings: seq<Text>, vs: seq<StoredProperty>, removed: seq<nat>)
    requires IdsInPool(strings, vs)
    ensures IdsInPool(strings, Keep(vs, removed))
  {
    forall v | v in Keep(vs, removed)
      ensures IdInPool(strings, v)
    {
      KeepMembers(vs, removed, v);
    }
  }

  lemma NothingRemoved<T>(offsets: seq<nat>, arr: seq<T>, removals: seq<seq<nat>>)
    requires |offsets| == |removals| + 1 && Absolute(offsets, removals, |removals|) == []
    ensures forall k | 0 <= k < |removals| :: Keep(Run(offsets, arr, k), removals[k]) == Run(offsets, arr, k)
  {
    forall k | 0 <= k < |removals|
      ensures Keep(Run(offsets, arr, k), removals[k]) == Run(offsets, arr, k)
    {
      AbsoluteEmpty(offsets, removals, |removals|, k);
      KeepNothing(Run(offsets, arr, k));
    }
  }

  lemma {:induction false} AbsoluteEmpty(offsets: seq<nat>, removals: seq<seq<nat>>, m: nat, k: nat)
    requires k < m <= |removals| && m < |offsets| && Absolute(offsets, removals, m) == []
    ensures removals[k] == []
  {
    assert |Shifted(removals[m - 1], offsets[m - 1])| == 0;
    if k < m - 1 {
      AbsoluteEmpty(offsets, removals, m - 1, k);
    }
  }

  // ----- the whole pass

  /** Per slot, a list per node, filled in only for the slots something was recorded in. */
  type Buckets<T> = seq<Option<seq<T>>>

  /** The buckets hold exactly the claims, each listed once. */
  ghost predicate HoldsClaims(s: Schema, g: Graph, pending: Buckets<seq<nat>>, claims: Claims)
    requires Shaped(s, g)
  {
    && |pending| == |g.edges|
    && (forall i | 0 <= i < |pending| :: pending[i].Some? ==>
          && |pending[i].value| == |g.edges[i].runs|
          && forall v | 0 <= v < |pending[i].value| :: pending[i].value[v] == At(claims, i, v))
    && (forall i, v | 0 <= i < |pending| && pending[i].None? :: At(claims, i, v) == [])
    && (forall i, v | 0 <= i < |pending| :: Distinct(At(claims, i, v)))
  }

  /** A replaced slot is well formed and holds the runs that are kept. */
  ghost predicate SlotCompacted(s: Schema, raw: RawGraph, claims: Claims, i: nat, slot: EdgeSlot)
    requires s.Valid() && WellFormed(s, raw) && i < |raw.edges|
  {
    var k, e := s.EdgeSlotKind(i), s.EdgeSlotEdge(i);
    && EdgeSlotOk(slot, s.edgeTypes[e], |raw.nodes[k]|, raw.strings)
    && EdgeTable(raw.strings, slot, |raw.nodes[k]|)
       == Kept(EdgeTable(raw.strings, raw.edges[i], |raw.nodes[k]|), claims, i)
  }

  lemma FitIsInRange(slot: EdgeSlot, typ: PropertyType, removals: seq<seq<nat>>, strings: seq<Text>)
    requires EdgeSlotOk(slot, typ, |removals|, strings) && slot.offsets != []
    requires forall k | 0 <= k < |removals| :: Distinct(removals[k])
    ensures RemovalsFit(slot.offsets, removals, |removals|)
       <==> forall v, p | 0 <= v < |removals| && p in removals[v] ::
              p < |EdgeTable(strings, slot, |removals|).runs[v]|
  {
    forall v | 0 <= v < |removals|
      ensures |EdgeTable(strings, slot, |removals|).runs[v]| == slot.offsets[v + 1] - slot.offsets[v]
    {
      RunLength(slot.offsets, Halves(strings, slot), |removals|, v);
    }
  }

  lemma NothingKeptAway(t: Table<Half<PropertyValue>>, claims: Claims, i: nat)
    requires forall v :: At(claims, i, v) == []
    ensures Kept(t, claims, i) == t
  {
    forall v | 0 <= v < |t.runs|
      ensures Keep(t.runs[v], At(claims, i, v)) == t.runs[v]
    {
      KeepNothing(t.runs[v]);
    }
  }

  /** One slot's share of the pass: its replacement, or none if it stays as it is. */
  method StageSlot(s: Schema, edges: seq<EdgeSlot>, pending: Buckets<seq<nat>>, i: nat,
                   ghost raw: RawGraph, ghost claims: Claims)
    returns (r: Result<Option<EdgeSlot>, Error>)
    requires s.Valid() && WellFormed(s, raw) && raw.edges == edges && i < |edges|
    requires HoldsClaims(s, Meaning(s, raw), pending, claims) && |Meaning(s, raw).edges| == |edges|
    ensures r.Ok? <==> SlotClaimsInRange(Meaning(s, raw).edges[i], claims, i)
    ensures r.Ok? ==> SlotCompacted(s, raw, claims, i, if r.value.Some? then r.value.value else edges[i])
    ensures r.Err? ==> SlotRemovalOutcome(Meaning(s, raw).edges[i], claims, i) == Err(r.error)
  {
    ghost var typ := s.edgeTypes[s.EdgeSlotEdge(i)];
    ghost var table := Meaning(s, raw).edges[i];
    if pending[i].None? {
      NothingKeptAway(table, claims, i);
      return Ok(None);
    }
    var removals := pending[i].value;
    assert forall k | 0 <= k < |removals| :: removals[k] == At(claims, i, k);
    assert removals == Removals(claims, i, |table.runs|);
    if edges[i].offsets != [] {
      FitIsInRange(edges[i], typ, removals, raw.strings);
    }
    r := CompactSlot(edges[i], removals, typ, raw.strings);
    if r.Ok? {
      ghost var after := if r.value.Some? then r.value.value else edges[i];
      assert EdgeTable(raw.strings, after, |removals|).runs == Kept(table, claims, i).runs;
    }
  }

  /** The first `n` slots' claims are positions of the runs they were made in. */
  ghost predicate ClaimsFitUpTo(g: Graph, claims: Claims, n: nat)
    requires n <= |g.edges|
  {
    forall i | 0 <= i < n :: SlotClaimsInRange(g.edges[i], claims, i)
  }

  ghost predicate ReplacementsInRange(edges: seq<EdgeSlot>, reps: seq<Replacement<EdgeSlot>>) {
    forall j | 0 <= j < |reps| :: reps[j].slotIndex < |edges|
  }

  /** Once the replacements are written, the first `n` slots are compacted and the others untouched. */
  ghost predicate CompactedUpTo(s: Schema, raw: RawGraph, claims: Claims, reps: seq<Replacement<EdgeSlot>>, n: nat)
    requires s.Valid() && WellFormed(s, raw)
  {
    var edges := Replaced(raw.edges, reps);
    && n <= |edges| == |Meaning(s, raw).edges|
    && ReplacementsInRange(raw.edges, reps)
    && ClaimsFitUpTo(Meaning(s, raw), claims, n)
    && (forall j | 0 <= j < n :: SlotCompacted(s, raw, claims, j, edges[j]))
    && (forall j | n <= j < |edges| :: edges[j] == raw.edges[j])
  }

  lemma CompactedAtFirst(s: Schema, raw: RawGraph, claims: Claims)
    requires s.Valid() && WellFormed(s, raw)
    ensures CompactedUpTo(s, raw, claims, [], 0)
    ensures |raw.edges| == |Meaning(s, raw).edges| == s.EdgeStorageSize()
  {
  }

  lemma CompactedNext(s: Schema, raw: RawGraph, claims: Claims, reps: seq<Replacement<EdgeSlot>>, n: nat,
                      slot: Option<EdgeSlot>)
    requires s.Valid() && WellFormed(s, raw) && n < |raw.edges| == |Meaning(s, raw).edges|
    requires CompactedUpTo(s, raw, claims, reps, n) && SlotClaimsInRange(Meaning(s, raw).edges[n], claims, n)
    requires SlotCompacted(s, raw, claims, n, if slot.Some? then slot.value else raw.edges[n])
    ensures CompactedUpTo(s, raw, claims, if slot.Some? then reps + [Replacement(n, slot.value)] else reps, n + 1)
  {
    hide SlotCompacted, SlotClaimsInRange, WellFormed, Meaning, Replaced;
    if slot.Some? {
      ReplacedNext(raw.edges, reps, n, slot.value);
    }
  }

  lemma ClaimsMisfit(g: Graph, claims: Claims, i: nat)
    requires i < |g.edges| && !SlotClaimsInRange(g.edges[i], claims, i)
    ensures !ClaimsInRange(g, claims)
  {
  }

  /** Claims in range are not refused. */
  lemma ClaimsPass<V>(t: Table<Half<V>>, claims: Claims, slot: nat)
    requires SlotClaimsInRange(t, claims, slot)
    ensures SlotRemovalOutcome(t, claims, slot).Ok?
  {
    if t.used {
      var outcomes := NodeRemovalOutcomes(Lengths(t.runs), Removals(claims, slot, |t.runs|));
      forall v | 0 <= v < |t.runs|
        ensures outcomes[v].Ok?
      {
        PositionsPass(At(claims, slot, v), |t.runs[v]|);
      }
      FirstOk(outcomes);
    }
  }

  lemma AllClaimsPass(g: Graph, claims: Claims)
    requires ClaimsInRange(g, claims)
    ensures First(RemovalOutcomes(g, claims)).Ok?
  {
    hide SlotRemovalOutcome, SlotClaimsInRange;
    forall j | 0 <= j < |g.edges|
      ensures RemovalOutcomes(g, claims)[j].Ok?
    {
      ClaimsPass(g.edges[j], claims, j);
    }
    FirstOk(RemovalOutcomes(g, claims));
  }

  /** With the slots before it dealt with, a slot that fails is what the pass stops for. */
  lemma FirstRemovalFails(s: Schema, raw: RawGraph, claims: Claims, reps: seq<Replacement<EdgeSlot>>, i: nat)
    requires s.Valid() && WellFormed(s, raw) && CompactedUpTo(s, raw, claims, reps, i)
    requires i < |Meaning(s, raw).edges| && SlotRemovalOutcome(Meaning(s, raw).edges[i], claims, i).Err?
    ensures First(RemovalOutcomes(Meaning(s, raw), claims)) == SlotRemovalOutcome(Meaning(s, raw).edges[i], claims, i)
  {
    hide WellFormed, Meaning, SlotRemovalOutcome, SlotClaimsInRange, SlotCompacted, Replaced;
    var g := Meaning(s, raw);
    var outcomes := RemovalOutcomes(g, claims);
    forall j | 0 <= j < i
      ensures outcomes[j].Ok?
    {
      ClaimsPass(g.edges[j], claims, j);
    }
    FirstFailsAt(outcomes, i);
  }

  lemma CompactedAtLast(s: Schema, raw: RawGraph, claims: Claims, reps: seq<Replacement<EdgeSlot>>)
    requires s.Valid() && WellFormed(s, raw) && CompactedUpTo(s, raw, claims, reps, |raw.edges|)
    ensures AllCompacted(s, raw, claims, Replaced(raw.edges, reps))
    ensures ReplacementsInRange(raw.edges, reps) && ClaimsInRange(Meaning(s, raw), claims)
  {
  }

  ghost predicate AllCompacted(s: Schema, raw: RawGraph, claims: Claims, edges: seq<EdgeSlot>)
    requires s.Valid() && WellFormed(s, raw)
  {
    && |edges| == |raw.edges|
    && forall i | 0 <= i < |edges| :: SlotCompacted(s, raw, claims, i, edges[i])
  }

  method PrepareEdgeRemovals(s: Schema, edges: seq<EdgeSlot>, pending: Buckets<seq<nat>>,
                             ghost raw: RawGraph, ghost claims: Claims)
    returns (r: Result<seq<Replacement<EdgeSlot>>, Error>)
    requires s.Valid() && WellFormed(s, raw) && raw.edges == edges
    requires HoldsClaims(s, Meaning(s, raw), pending, claims)
    ensures r.Ok? <==> ClaimsInRange(Meaning(s, raw), claims)
    ensures r.Ok? ==> AllCompacted(s, raw, claims, Replaced(edges, r.value)) && ReplacementsInRange(edges, r.value)
    ensures Answers(r, First(RemovalOutcomes(Meaning(s, raw), claims)))
  {
    hide *;
    var reps := [];
    var i := 0;
    CompactedAtFirst(s, raw, claims);
    while i < s.EdgeStorageSize()
      invariant 0 <= i <= |edges| == s.EdgeStorageSize()
      invariant CompactedUpTo(s, raw, claims, reps, i)
    {
      var slot := StageSlot(s, edges, pending, i, raw, claims);
      if slot.Err? {
        ClaimsMisfit(Meaning(s, raw), claims, i);
        FirstRemovalFails(s, raw, claims, reps, i);
        AnswerIs<seq<Replacement<EdgeSlot>>>(slot.error, First(RemovalOutcomes(Meaning(s, raw), claims)));
        return Err(slot.error);
      }
      CompactedNext(s, raw, claims, reps, i, slot.value);
      if slot.value.Some? {
        reps := reps + [Replacement(i, slot.value.value)];
      }
      i := i + 1;
    }
    CompactedAtLast(s, raw, claims, reps);
    AllClaimsPass(Meaning(s, raw), claims);
    AnswerOk(reps, First(RemovalOutcomes(Meaning(s, raw), claims)));
    return Ok(reps);
  }
}
