/** Turning a diff's new edges into the half-edges each slot gains. */
module NewEdges {
  import opened Wrappers
  import opened Storage
  import opened Schemas
  import opened StringsPool
  import opened Graphs
  import opened Diffs
  import opened PropertySlots
  import opened EdgeInserts
  import opened NewNodes

  // ----- buckets and what they stand for

  /** Every bucket covers its slot's post-diff nodes and stands for the listed halves. */
  ghost predicate BucketsMean(s: Schema, totals: seq<nat>, strings: seq<Text>, slots: seq<Option<SlotHalfEdges>>,
                              spec: seq<seq<NewHalf<PropertyValue>>>)
  {
    && |slots| == |spec| == s.EdgeStorageSize()
    && forall i | 0 <= i < |slots| ::
         && s.EdgeSlotKind(i) < |totals|
         && BucketOk(slots[i], totals[s.EdgeSlotKind(i)], strings)
         && Resolved(strings, HalvesIn(slots[i])) == spec[i]
  }

  ghost function HalvesBySlot(s: Schema, live: seq<LiveEdge>): (r: seq<seq<NewHalf<PropertyValue>>>)
    ensures |r| == s.EdgeStorageSize()
  {
    seq(s.EdgeStorageSize(), i requires 0 <= i < s.EdgeStorageSize() => SlotHalves(s, live, i))
  }

  lemma NothingPushed(s: Schema, totals: seq<nat>, strings: seq<Text>)
    requires |totals| == s.nodeKinds
    ensures BucketsMean(s, totals, strings, seq(s.EdgeStorageSize(), _ => None), HalvesBySlot(s, []))
  {
    forall i | 0 <= i < s.EdgeStorageSize()
      ensures s.EdgeSlotKind(i) < |totals|
      ensures HalvesBySlot(s, [])[i] == []
    {
      s.EdgeSlotAt(i);
    }
  }

  lemma BucketsMeanLater(s: Schema, totals: seq<nat>, strings: seq<Text>, more: seq<Text>,
                         slots: seq<Option<SlotHalfEdges>>, spec: seq<seq<NewHalf<PropertyValue>>>)
    requires BucketsMean(s, totals, strings, slots, spec) && strings <= more
    ensures BucketsMean(s, totals, more, slots, spec)
  {
    forall i | 0 <= i < |slots|
      ensures HalvesInPool(more, HalvesIn(slots[i]))
      ensures Resolved(more, HalvesIn(slots[i])) == Resolved(strings, HalvesIn(slots[i]))
    {
      HalvesLater(strings, more, HalvesIn(slots[i]));
    }
  }

  lemma HalvesLater(strings: seq<Text>, more: seq<Text>, halves: seq<SlotHalfEdge>)
    requires HalvesInPool(strings, halves) && strings <= more
    ensures HalvesInPool(more, halves) && Resolved(more, halves) == Resolved(strings, halves)
  {
    forall i | 0 <= i < |halves|
      ensures ResolvedHalf(more, halves[i]) == ResolvedHalf(strings, halves[i])
    {
      assert halves[i] in halves;
    }
  }

  /** Pushing one half into one slot's bucket. */
  lemma PushedMeans(s: Schema, totals: seq<nat>, strings: seq<Text>, slots: seq<Option<SlotHalfEdges>>,
                    spec: seq<seq<NewHalf<PropertyValue>>>, i: nat, half: SlotHalfEdge,
                    slots': seq<Option<SlotHalfEdges>>)
    requires BucketsMean(s, totals, strings, slots, spec) && i < |slots|
    requires half.property.Some? ==> IdInPool(strings, half.property.value)
    requires |slots'| == |slots| && slots' == slots[i := slots'[i]]
    requires slots'[i].Some? && slots'[i].value.Valid() && s.EdgeSlotKind(i) < |totals|
    requires |slots'[i].value.counts| == totals[s.EdgeSlotKind(i)]
    requires slots'[i].value.halves == HalvesIn(slots[i]) + [half]
    ensures BucketsMean(s, totals, strings, slots', spec[i := spec[i] + [ResolvedHalf(strings, half)]])
  {
    hide SlotHalfEdges.Valid, ResolvedHalf;
    assert Resolved(strings, HalvesIn(slots'[i]))
           == Resolved(strings, HalvesIn(slots[i])) + [ResolvedHalf(strings, half)];
  }

  lemma PushReady(s: Schema, totals: seq<nat>, strings: seq<Text>, slots: seq<Option<SlotHalfEdges>>,
                  spec: seq<seq<NewHalf<PropertyValue>>>, kind: nat, d: Direction, e: nat)
    requires BucketsMean(s, totals, strings, slots, spec) && kind < s.nodeKinds && e < |s.edgeTypes|
    ensures var i := s.EdgeStorageSlot(kind, d, e);
            && i < |slots| == |spec|
            && s.EdgeSlotKind(i) == kind < |totals|
            && (slots[i].Some? ==> slots[i].value.Valid() && |slots[i].value.counts| == totals[kind])
  {
    s.EdgeSlotOf(kind, d, e);
  }

  /** One more live edge is one Out half at its source and one In half at its target. */
  lemma OneMoreEdge(s: Schema, live: seq<LiveEdge>, e: LiveEdge)
    requires e.src.kind < s.nodeKinds && e.dst.kind < s.nodeKinds && e.kind < |s.edgeTypes|
    ensures var out, inn := s.EdgeStorageSlot(e.src.kind, Out, e.kind), s.EdgeStorageSlot(e.dst.kind, In, e.kind);
            && out < s.EdgeStorageSize() && inn < s.EdgeStorageSize()
            && var spec := HalvesBySlot(s, live);
               var spec1 := spec[out := spec[out] + [NewHalf(e.src.seqNo, Half(e.dst, e.value))]];
               HalvesBySlot(s, live + [e]) == spec1[inn := spec1[inn] + [NewHalf(e.dst.seqNo, Half(e.src, e.value))]]
  {
    hide Schema.EdgeStorageSlot, Schema.EdgeSlotKind, Schema.EdgeSlotEdge, Schema.EdgeSlotDirection;
    s.EdgeSlotOf(e.src.kind, Out, e.kind);
    s.EdgeSlotOf(e.dst.kind, In, e.kind);
    assert (live + [e])[..|live|] == live;
    var out, inn := s.EdgeStorageSlot(e.src.kind, Out, e.kind), s.EdgeStorageSlot(e.dst.kind, In, e.kind);
    assert s.EdgeSlotDirection(out) != s.EdgeSlotDirection(inn);
    var spec := HalvesBySlot(s, live);
    var spec1 := spec[out := spec[out] + [NewHalf(e.src.seqNo, Half(e.dst, e.value))]];
    var spec2 := spec1[inn := spec1[inn] + [NewHalf(e.dst.seqNo, Half(e.src, e.value))]];
    forall i | 0 <= i < s.EdgeStorageSize()
      ensures spec2[i] == SlotHalves(s, live + [e], i)
    {
      assert SlotHalves(s, live + [e], i) == SlotHalves(s, live, i) + HalvesOf(s, e, i);
    }
  }

  // ----- the edge loop

  /** A node that the new edge may attach to: it exists and this diff leaves it in place. */
  predicate IsLive(nodes: seq<seq<bool>>, tombstones: seq<RawNodeId>, oldCounts: seq<nat>, newCounts: seq<nat>,
                   n: RawNodeId)
    requires n.kind < |nodes| == |oldCounts| == |newCounts|
    requires oldCounts[n.kind] == |nodes[n.kind]|
  {
    var isRemoved := n.seqNo < oldCounts[n.kind] && (nodes[n.kind][n.seqNo] || n in tombstones);
    n.seqNo < oldCounts[n.kind] + newCounts[n.kind] && !isRemoved
  }

  /** The nodes of each kind after the diff. */
  function Totals(nodes: seq<seq<bool>>, newNodes: seq<NewNode>): (r: seq<nat>)
    ensures |r| == |nodes|
    ensures forall k | 0 <= k < |nodes| :: r[k] == |nodes[k]| + |OfKind(newNodes, k)|
  {
    seq(|nodes|, k requires 0 <= k < |nodes| => |nodes[k]| + |OfKind(newNodes, k)|)
  }

  /** The edge a new edge amounts to, unless an end of it does not exist or goes. */
  function LiveEdgeOf(s: Schema, nodes: seq<seq<bool>>, tombstones: seq<RawNodeId>, newNodes: seq<NewNode>, e: NewEdge)
    : Option<LiveEdge>
  {
    var remap := Remapped(nodes, newNodes);
    var src, dst := Endpoint(s, remap, e.src), Endpoint(s, remap, e.dst);
    if && src.Some? && dst.Some?
       && Stays(nodes, tombstones, newNodes, src.value)
       && Stays(nodes, tombstones, newNodes, dst.value)
    then Some(LiveEdge(src.value, dst.value, e.kind, e.property)) else None
  }

  lemma LiveEdgesNext(s: Schema, nodes: seq<seq<bool>>, tombstones: seq<RawNodeId>, newNodes: seq<NewNode>,
                      newEdges: seq<NewEdge>, j: nat)
    requires j < |newEdges|
    ensures var live, e := LiveEdges(s, nodes, tombstones, newNodes, newEdges[..j]),
                           LiveEdgeOf(s, nodes, tombstones, newNodes, newEdges[j]);
            LiveEdges(s, nodes, tombstones, newNodes, newEdges[..j + 1])
            == if e.Some? then live + [e.value] else live
  {
    assert newEdges[..j + 1][..j] == newEdges[..j];
  }

  lemma EdgeTextsNext(strings: seq<Text>, newEdges: seq<NewEdge>, j: nat)
    requires j < |newEdges|
    ensures InternedAll(strings, EdgeTexts(newEdges[..j + 1]))
         == var before, property := InternedAll(strings, EdgeTexts(newEdges[..j])), newEdges[j].property;
            if property.Some? && property.value.String? then Interned(before, property.value.text) else before
  {
    var texts := if newEdges[j].property.Some? then TextsOf([newEdges[j].property.value]) else [];
    assert newEdges[..j + 1][..j] == newEdges[..j];
    InternedAllSplits(strings, EdgeTexts(newEdges[..j]), texts);
    if newEdges[j].property.Some? {
      InternedOne(InternedAll(strings, EdgeTexts(newEdges[..j])), newEdges[j].property.value);
    }
  }

  lemma {:induction false} EdgeTextIn(newEdges: seq<NewEdge>, j: nat)
    requires j < |newEdges|
    ensures var property := newEdges[j].property;
            property.Some? && property.value.String? ==> property.value.text in EdgeTexts(newEdges)
  {
    var last := |newEdges| - 1;
    if j < last {
      EdgeTextIn(newEdges[..last], j);
    } else if newEdges[j].property.Some? {
      TextAt([newEdges[j].property.value], 0);
    }
  }

  /** The first `j` new edges are bucketed and their strings interned. */
  ghost predicate EdgesBucketed(s: Schema, nodes: seq<seq<bool>>, tombstones: seq<RawNodeId>, newNodes: seq<NewNode>,
                                newEdges: seq<NewEdge>, j: nat, start: seq<Text>, now: seq<Text>,
                                slots: seq<Option<SlotHalfEdges>>)
  {
    && j <= |newEdges|
    && start <= now == InternedAll(start, EdgeTexts(newEdges[..j]))
    && BucketsMean(s, Totals(nodes, newNodes), now, slots,
                   HalvesBySlot(s, LiveEdges(s, nodes, tombstones, newNodes, newEdges[..j])))
  }

  lemma EdgesBucketedAtFirst(s: Schema, nodes: seq<seq<bool>>, tombstones: seq<RawNodeId>, newNodes: seq<NewNode>,
                             newEdges: seq<NewEdge>, start: seq<Text>)
    requires |nodes| == s.nodeKinds
    ensures EdgesBucketed(s, nodes, tombstones, newNodes, newEdges, 0, start, start,
                          seq(s.EdgeStorageSize(), _ => None))
  {
    assert newEdges[..0] == [];
    NothingPushed(s, Totals(nodes, newNodes), start);
  }

  /** A dropped edge still interns its string. */
  lemma EdgeDropped(s: Schema, nodes: seq<seq<bool>>, tombstones: seq<RawNodeId>, newNodes: seq<NewNode>,
                    newEdges: seq<NewEdge>, j: nat, start: seq<Text>, before: seq<Text>, now: seq<Text>,
                    slots: seq<Option<SlotHalfEdges>>)
    requires EdgesBucketed(s, nodes, tombstones, newNodes, newEdges, j, start, before, slots) && j < |newEdges|
    requires now == var property := newEdges[j].property;
                    if property.Some? && property.value.String? then Interned(before, property.value.text) else before
    requires LiveEdgeOf(s, nodes, tombstones, newNodes, newEdges[j]).None?
    ensures EdgesBucketed(s, nodes, tombstones, newNodes, newEdges, j + 1, start, now, slots)
  {
    hide BucketsMean, EdgeTexts, LiveEdges, LiveEdgeOf, InternedAll;
    LiveEdgesNext(s, nodes, tombstones, newNodes, newEdges, j);
    EdgeTextsNext(start, newEdges, j);
    BucketsMeanLater(s, Totals(nodes, newNodes), before, now, slots,
                     HalvesBySlot(s, LiveEdges(s, nodes, tombstones, newNodes, newEdges[..j])));
  }

  /** Pushes the two halves of one live edge. */
  method PushEdge(s: Schema, buckets: EdgeHalfBuckets, e: LiveEdge, property: Option<StoredProperty>, totals: seq<nat>,
                  ghost strings: seq<Text>, ghost live: seq<LiveEdge>)
    requires BucketsMean(s, totals, strings, buckets.slots, HalvesBySlot(s, live))
    requires e.src.kind < s.nodeKinds == |totals| && e.dst.kind < s.nodeKinds && e.kind < |s.edgeTypes|
    requires e.src.seqNo < totals[e.src.kind] && e.dst.seqNo < totals[e.dst.kind]
    requires property.Some? ==> IdInPool(strings, property.value)
    requires e.value == if property.Some? then Some(Resolve(strings, property.value)) else None
    modifies buckets
    ensures BucketsMean(s, totals, strings, buckets.slots, HalvesBySlot(s, live + [e]))
  {
    hide BucketsMean, SlotHalves, HalvesOf, Schema.EdgeStorageSlot, Schema.EdgeSlotKind, HalvesIn, Resolve,
         SlotHalfEdges.Valid, HalvesBySlot;
    ghost var spec := HalvesBySlot(s, live);
    OneMoreEdge(s, live, e);
    var out, inn := s.EdgeStorageSlot(e.src.kind, Out, e.kind), s.EdgeStorageSlot(e.dst.kind, In, e.kind);

    PushReady(s, totals, strings, buckets.slots, spec, e.src.kind, Out, e.kind);
    var srcHalf := SlotHalfEdge(e.src.seqNo, e.dst, property);
    ghost var before := buckets.slots;
    buckets.Push(out, totals[e.src.kind], srcHalf);
    PushedMeans(s, totals, strings, before, spec, out, srcHalf, buckets.slots);
    ghost var spec1 := spec[out := spec[out] + [ResolvedHalf(strings, srcHalf)]];

    PushReady(s, totals, strings, buckets.slots, spec1, e.dst.kind, In, e.kind);
    var dstHalf := SlotHalfEdge(e.dst.seqNo, e.src, property);
    before := buckets.slots;
    buckets.Push(inn, totals[e.dst.kind], dstHalf);
    PushedMeans(s, totals, strings, before, spec1, inn, dstHalf, buckets.slots);
  }

  lemma {:induction false} RemappedKinds(s: Schema, nodes: seq<seq<bool>>, newNodes: seq<NewNode>)
    requires s.Valid() && KindsKnown(s, newNodes)
    ensures forall n <- Remapped(nodes, newNodes) :: n.kind < s.nodeKinds
  {
    if newNodes != [] {
      RemappedKinds(s, nodes, newNodes[..|newNodes| - 1]);
    }
  }

  lemma EndpointKind(s: Schema, nodes: seq<seq<bool>>, newNodes: seq<NewNode>, ref: NodeRef)
    requires s.Valid() && KindsKnown(s, newNodes)
    ensures var end := Endpoint(s, Remapped(nodes, newNodes), ref);
            end.Some? ==> end.value.kind < s.nodeKinds
  {
    RemappedKinds(s, nodes, newNodes);
  }

  lemma IsLiveStays(nodes: seq<seq<bool>>, tombstones: seq<RawNodeId>, newNodes: seq<NewNode>, oldCounts: seq<nat>,
                    newCounts: seq<nat>, n: RawNodeId)
    requires CountsMatch(nodes, newNodes, oldCounts, newCounts) && n.kind < |nodes|
    ensures IsLive(nodes, tombstones, oldCounts, newCounts, n) <==> Stays(nodes, tombstones, newNodes, n)
    ensures Stays(nodes, tombstones, newNodes, n) ==> n.seqNo < Totals(nodes, newNodes)[n.kind]
  {
  }

  /** Node counts before the diff and new nodes in it, by kind. */
  ghost predicate CountsMatch(nodes: seq<seq<bool>>, newNodes: seq<NewNode>, oldCounts: seq<nat>, newCounts: seq<nat>) {
    && |nodes| == |oldCounts| == |newCounts|
    && forall k | 0 <= k < |nodes| :: oldCounts[k] == |nodes[k]| && newCounts[k] == |OfKind(newNodes, k)|
  }

  lemma EdgePushed(s: Schema, nodes: seq<seq<bool>>, tombstones: seq<RawNodeId>, newNodes: seq<NewNode>,
                   newEdges: seq<NewEdge>, j: nat, start: seq<Text>, before: seq<Text>, now: seq<Text>,
                   slots: seq<Option<SlotHalfEdges>>, e: LiveEdge, slots': seq<Option<SlotHalfEdges>>)
    requires EdgesBucketed(s, nodes, tombstones, newNodes, newEdges, j, start, before, slots) && j < |newEdges|
    requires now == var property := newEdges[j].property;
                    if property.Some? && property.value.String? then Interned(before, property.value.text) else before
    requires LiveEdgeOf(s, nodes, tombstones, newNodes, newEdges[j]) == Some(e)
    requires BucketsMean(s, Totals(nodes, newNodes), now, slots',
                         HalvesBySlot(s, LiveEdges(s, nodes, tombstones, newNodes, newEdges[..j]) + [e]))
    ensures EdgesBucketed(s, nodes, tombstones, newNodes, newEdges, j + 1, start, now, slots')
  {
    hide BucketsMean, EdgeTexts, LiveEdges, LiveEdgeOf, InternedAll;
    LiveEdgesNext(s, nodes, tombstones, newNodes, newEdges, j);
    EdgeTextsNext(start, newEdges, j);
  }

  lemma EdgesBucketedReads(s: Schema, nodes: seq<seq<bool>>, tombstones: seq<RawNodeId>, newNodes: seq<NewNode>,
                           newEdges: seq<NewEdge>, j: nat, start: seq<Text>, before: seq<Text>, now: seq<Text>,
                           slots: seq<Option<SlotHalfEdges>>)
    requires EdgesBucketed(s, nodes, tombstones, newNodes, newEdges, j, start, before, slots) && before <= now
    ensures BucketsMean(s, Totals(nodes, newNodes), now, slots,
                        HalvesBySlot(s, LiveEdges(s, nodes, tombstones, newNodes, newEdges[..j])))
  {
    BucketsMeanLater(s, Totals(nodes, newNodes), before, now, slots,
                     HalvesBySlot(s, LiveEdges(s, nodes, tombstones, newNodes, newEdges[..j])));
  }

  lemma EdgesBucketedAtLast(s: Schema, nodes: seq<seq<bool>>, tombstones: seq<RawNodeId>, newNodes: seq<NewNode>,
                            newEdges: seq<NewEdge>, start: seq<Text>, now: seq<Text>, slots: seq<Option<SlotHalfEdges>>)
    requires EdgesBucketed(s, nodes, tombstones, newNodes, newEdges, |newEdges|, start, now, slots)
    ensures start <= now == InternedAll(start, EdgeTexts(newEdges))
    ensures BucketsMean(s, Totals(nodes, newNodes), now, slots,
                        HalvesBySlot(s, LiveEdges(s, nodes, tombstones, newNodes, newEdges)))
  {
    assert newEdges[..|newEdges|] == newEdges;
  }

  /** What resolving one new edge's ends against the remapped and the existing nodes yields. */
  method ResolveEdge(s: Schema, nodes: seq<seq<bool>>, tombstones: seq<RawNodeId>, oldCounts: seq<nat>,
                     newCounts: seq<nat>, remap: seq<NewNodeId>, e: NewEdge, ghost newNodes: seq<NewNode>)
    returns (r: Option<LiveEdge>)
    requires s.Valid() && KindsKnown(s, newNodes) && |nodes| == s.nodeKinds
    requires CountsMatch(nodes, newNodes, oldCounts, newCounts) && remap == Remapped(nodes, newNodes)
    ensures r == LiveEdgeOf(s, nodes, tombstones, newNodes, e)
    ensures r.Some? ==>
              && r.value.src.kind < s.nodeKinds && r.value.src.seqNo < Totals(nodes, newNodes)[r.value.src.kind]
              && r.value.dst.kind < s.nodeKinds && r.value.dst.seqNo < Totals(nodes, newNodes)[r.value.dst.kind]
              && r.value.kind == e.kind && r.value.value == e.property
  {
    hide KindsKnown, Stays, IsLive, Remapped, Endpoint, Totals;
    var src, dst := Endpoint(s, remap, e.src), Endpoint(s, remap, e.dst);
    EndpointKind(s, nodes, newNodes, e.src);
    EndpointKind(s, nodes, newNodes, e.dst);
    if src.None? || dst.None? {
      return None;
    }
    IsLiveStays(nodes, tombstones, newNodes, oldCounts, newCounts, src.value);
    IsLiveStays(nodes, tombstones, newNodes, oldCounts, newCounts, dst.value);
    if IsLive(nodes, tombstones, oldCounts, newCounts, src.value)
       && IsLive(nodes, tombstones, oldCounts, newCounts, dst.value) {
      return Some(LiveEdge(src.value, dst.value, e.kind, e.property));
    }
    return None;
  }

  /** Buckets the half-edges of every new edge whose ends exist and stay. */
  method StageNewEdges(s: Schema, nodes: seq<seq<bool>>, tombstones: seq<RawNodeId>, oldCounts: seq<nat>,
                       newCounts: seq<nat>, remap: seq<NewNodeId>, newEdges: seq<NewEdge>, strings: StringsPool,
                       ghost newNodes: seq<NewNode>, ghost texts: set<Text>)
    returns (buckets: EdgeHalfBuckets)
    requires s.Valid() && KindsKnown(s, newNodes) && |nodes| == s.nodeKinds
    requires CountsMatch(nodes, newNodes, oldCounts, newCounts) && remap == Remapped(nodes, newNodes)
    requires forall e <- newEdges :: e.kind < |s.edgeTypes|
    requires PoolReady(strings, texts) && forall x <- EdgeTexts(newEdges) :: x in texts
    modifies strings, strings.tags, strings.slots
    ensures fresh(buckets) && PoolReady(strings, texts)
    ensures (strings.tags == old(strings.tags) || fresh(strings.tags))
            && (strings.slots == old(strings.slots) || fresh(strings.slots))
    ensures old(strings.List()) <= strings.List() == InternedAll(old(strings.List()), EdgeTexts(newEdges))
    ensures BucketsMean(s, Totals(nodes, newNodes), strings.List(), buckets.slots,
                        HalvesBySlot(s, LiveEdges(s, nodes, tombstones, newNodes, newEdges)))
  {
    hide *;
    buckets := new EdgeHalfBuckets(s.EdgeStorageSize());
    ghost var start := strings.List();
    EdgesBucketedAtFirst(s, nodes, tombstones, newNodes, newEdges, start);
    forall j | 0 <= j < |newEdges|
      ensures var property := newEdges[j].property;
              property.Some? && property.value.String? ==> property.value.text in texts
    {
      EdgeTextIn(newEdges, j);
    }
    var totals := AddCounts(oldCounts, newCounts, nodes, newNodes);
    var j := 0;
    while j < |newEdges|
      invariant 0 <= j <= |newEdges|
      invariant fresh(buckets) && PoolReady(strings, texts) && start <= strings.List()
      invariant (strings.tags == old(strings.tags) || fresh(strings.tags))
                && (strings.slots == old(strings.slots) || fresh(strings.slots))
      invariant EdgesBucketed(s, nodes, tombstones, newNodes, newEdges, j, start, strings.List(), buckets.slots)
    {
      var e := newEdges[j];
      assert e in newEdges;
      ghost var before, slots := strings.List(), buckets.slots;
      var property: Option<StoredProperty> := None;
      if e.property.Some? {
        var stored := ToStoredProperty(e.property.value, strings, texts);
        property := Some(stored);
        InternedExtends(before, e.property.value);
      }
      var live := ResolveEdge(s, nodes, tombstones, oldCounts, newCounts, remap, e, newNodes);
      if live.None? {
        EdgeDropped(s, nodes, tombstones, newNodes, newEdges, j, start, before, strings.List(), slots);
      } else {
        ghost var older := LiveEdges(s, nodes, tombstones, newNodes, newEdges[..j]);
        EdgesBucketedReads(s, nodes, tombstones, newNodes, newEdges, j, start, before, strings.List(), slots);
        PushEdge(s, buckets, live.value, property, totals, strings.List(), older);
        EdgePushed(s, nodes, tombstones, newNodes, newEdges, j, start, before, strings.List(), slots, live.value,
                   buckets.slots);
      }
      j := j + 1;
    }
    EdgesBucketedAtLast(s, nodes, tombstones, newNodes, newEdges, start, strings.List(), buckets.slots);
  }

  lemma InternedExtends(strings: seq<Text>, v: PropertyValue)
    ensures v.String? ==> strings <= Interned(strings, v.text)
  {
  }

  /** The nodes of each kind once the new ones are in. */
  method AddCounts(oldCounts: seq<nat>, newCounts: seq<nat>, ghost nodes: seq<seq<bool>>, ghost newNodes: seq<NewNode>)
    returns (totals: seq<nat>)
    requires CountsMatch(nodes, newNodes, oldCounts, newCounts)
    ensures totals == Totals(nodes, newNodes)
  {
    totals := seq(|oldCounts|, k requires 0 <= k < |oldCounts| => oldCounts[k] + newCounts[k]);
  }
}
