/** The checks staging makes slot by slot add up to the diffs the specification accepts. */
module Accepting {
  import opened Wrappers
  import opened Storage
  import opened Schemas
  import opened Csr
  import opened Graphs
  import opened Diffs
  import opened Outcomes
  import opened FlatGraphs
  import opened PropertySlots
  import opened PropertyAppends
  import opened NewNodes
  import opened EdgeInserts
  import opened NewEdges

  // ----- properties

  lemma {:induction false} OfKindMember(newNodes: seq<NewNode>, n: NewNode)
    requires n in newNodes
    ensures n in OfKind(newNodes, n.kind)
  {
    var last := |newNodes| - 1;
    if n != newNodes[last] {
      assert newNodes == newNodes[..last] + [newNodes[last]];
      OfKindMember(newNodes[..last], n);
    }
  }

  lemma {:induction false} OfKindOnly(newNodes: seq<NewNode>, k: nat)
    ensures forall n <- OfKind(newNodes, k) :: n in newNodes && n.kind == k
  {
    if newNodes != [] {
      OfKindOnly(newNodes[..|newNodes| - 1], k);
    }
  }

  lemma UpdatesAccepted(s: Schema, g: Graph, updates: Updates)
    requires Shaped(s, g)
    ensures FitUpTo(s, g, updates, |g.props|)
       <==> UpdatesFit(s, g, updates)
            && forall i | 0 <= i < |g.props| :: TotalOf(Updated(g.props[i], updates, i).runs) <= U32_MAX
  {
    forall i | 0 <= i < |g.props|
      ensures s.PropertySlotProp(i) < |s.propTypes|
    {
      s.PropertySlotAt(i);
    }
    if FitUpTo(s, g, updates, |g.props|) {
      forall i | 0 <= i < |g.props|
        ensures SlotUpdatesFit(g.props[i], updates, i, PropTypeAt(s, i))
      {
      }
    } else {
      var i :| 0 <= i < |g.props| && !SlotUpdatesFit(g.props[i], updates, i, PropTypeAt(s, i));
    }
  }

  /** The runs of new nodes only add to what the updated runs hold. */
  lemma UpdatedWithinAfter(s: Schema, g: Graph, updates: Updates, newNodes: seq<NewNode>)
    ensures forall i | 0 <= i < |g.props| ::
              TotalOf(Updated(g.props[i], updates, i).runs) <= TotalOf(TableAfter(s, g, updates, newNodes, i).runs)
  {
    forall i | 0 <= i < |g.props|
      ensures TotalOf(Updated(g.props[i], updates, i).runs) <= TotalOf(TableAfter(s, g, updates, newNodes, i).runs)
    {
      var t := Updated(g.props[i], updates, i);
      TotalPrefix(TableAfter(s, g, updates, newNodes, i).runs, |t.runs|);
      assert TableAfter(s, g, updates, newNodes, i).runs[..|t.runs|] == t.runs;
    }
  }

  lemma NewValuesAccepted(s: Schema, g: Graph, updates: Updates, newNodes: seq<NewNode>)
    requires Shaped(s, g) && KindsKnown(s, newNodes)
    ensures NewValuesFitUpTo(s, g, updates, newNodes, |g.props|)
       <==> NewPropertiesFit(s, newNodes)
            && forall i | 0 <= i < |g.props| :: TotalOf(TableAfter(s, g, updates, newNodes, i).runs) <= U32_MAX
  {
    if NewValuesFitUpTo(s, g, updates, newNodes, |g.props|) {
      forall n, p | n in newNodes && p in n.properties
        ensures p < |s.propTypes| && AllTyped(n.properties[p], s.propTypes[p])
      {
        s.PropertySlotOf(n.kind, p);
        OfKindMember(newNodes, n);
        var i, added := s.PropertyStorageSlot(n.kind, p), OfKind(newNodes, n.kind);
        var j :| 0 <= j < |added| && added[j] == n;
        assert NewValuesFit(Updated(g.props[i], updates, i), added, p, PropTypeAt(s, i));
        assert AllTyped(PropertyOf(added[j], p), PropTypeAt(s, i));
      }
      forall i | 0 <= i < |g.props|
        ensures TotalOf(TableAfter(s, g, updates, newNodes, i).runs) <= U32_MAX
      {
        assert NewValuesFit(Updated(g.props[i], updates, i), OfKind(newNodes, s.PropertySlotKind(i)),
                            s.PropertySlotProp(i), PropTypeAt(s, i));
      }
    }
    if NewPropertiesFit(s, newNodes)
       && forall i | 0 <= i < |g.props| :: TotalOf(TableAfter(s, g, updates, newNodes, i).runs) <= U32_MAX {
      forall i | 0 <= i < |g.props|
        ensures NewValuesFit(Updated(g.props[i], updates, i), OfKind(newNodes, s.PropertySlotKind(i)),
                             s.PropertySlotProp(i), PropTypeAt(s, i))
      {
        s.PropertySlotAt(i);
        OfKindOnly(newNodes, s.PropertySlotKind(i));
        var p, added := s.PropertySlotProp(i), OfKind(newNodes, s.PropertySlotKind(i));
        forall j | 0 <= j < |added|
          ensures AllTyped(PropertyOf(added[j], p), PropTypeAt(s, i))
        {
          assert added[j] in newNodes;
        }
        assert TotalOf(TableAfter(s, g, updates, newNodes, i).runs) <= U32_MAX;
      }
    }
  }

  // ----- edges

  lemma {:induction false} TotalReplaced<T>(runs: seq<seq<T>>, k: nat, run: seq<T>)
    requires k < |runs|
    ensures TotalOf(runs[k := run]) + |runs[k]| == TotalOf(runs) + |run|
    decreases |runs|
  {
    var last := |runs| - 1;
    if k < last {
      TotalReplaced(runs[..last], k, run);
      assert runs[k := run][..last] == runs[..last][k := run];
    } else {
      assert runs[k := run][..last] == runs[..last];
    }
  }

  lemma {:induction false} TotalPadded<T>(runs: seq<seq<T>>, count: nat)
    requires |runs| <= count
    ensures TotalOf(seq(count, v requires 0 <= v < count => if v < |runs| then runs[v] else [])) == TotalOf(runs)
    decreases count
  {
    var padded := seq(count, v requires 0 <= v < count => if v < |runs| then runs[v] else []);
    if |runs| == count {
      assert padded == runs;
    } else {
      TotalPadded(runs, count - 1);
      assert padded[..count - 1]
          == seq(count - 1, v requires 0 <= v < count - 1 => if v < |runs| then runs[v] else []);
    }
  }

  /** One more half lengthens its owner's run and no other. */
  lemma InsertedOneMore<V>(t: Table<Half<V>>, count: nat, halves: seq<NewHalf<V>>, h: NewHalf<V>)
    requires h.owner < count
    ensures var before := Inserted(t, count, halves).runs;
            Inserted(t, count, halves + [h]).runs == before[h.owner := before[h.owner] + [h.half]]
  {
    var before := Inserted(t, count, halves).runs;
    assert (halves + [h])[..|halves|] == halves;
    forall v | 0 <= v < count
      ensures Inserted(t, count, halves + [h]).runs[v] == before[h.owner := before[h.owner] + [h.half]][v]
    {
      assert RunOf(t, v) + (OwnedBy(halves, v) + [h.half]) == before[v] + [h.half];
      assert RunOf(t, v) + (OwnedBy(halves, v) + []) == before[v];
    }
  }

  /** Inserting adds as many entries as there are new halves. */
  lemma {:induction false} TotalInserted<V>(t: Table<Half<V>>, count: nat, halves: seq<NewHalf<V>>)
    requires |t.runs| <= count && forall h <- halves :: h.owner < count
    ensures TotalOf(Inserted(t, count, halves).runs) == TotalOf(t.runs) + |halves|
    decreases |halves|
  {
    if halves == [] {
      TotalPadded(t.runs, count);
      var padded := seq(count, v requires 0 <= v < count => if v < |t.runs| then t.runs[v] else []);
      forall v | 0 <= v < count
        ensures Inserted(t, count, halves).runs[v] == padded[v]
      {
        assert RunOf(t, v) + [] == RunOf(t, v);
      }
      assert Inserted(t, count, halves).runs == padded;
    } else {
      hide TotalOf, Inserted, OwnedBy;
      var last := |halves| - 1;
      var h, older := halves[last], Inserted(t, count, halves[..last]).runs;
      TotalInserted(t, count, halves[..last]);
      TotalReplaced(older, h.owner, older[h.owner] + [h.half]);
      InsertedOneMore(t, count, halves[..last], h);
      assert halves[..last] + [h] == halves;
    }
  }

  predicate HalfValueFits(value: Option<PropertyValue>, typ: PropertyType) {
    if typ == NoType then value.None? else value.Some? && value.value.Typ() == typ
  }

  lemma HalvesFitResolved(strings: seq<Text>, halves: seq<SlotHalfEdge>, typ: PropertyType)
    ensures AllFit(halves, typ)
       <==> forall i | 0 <= i < |halves| :: HalfValueFits(Resolved(strings, halves)[i].half.value, typ)
  {
    forall i | 0 <= i < |halves|
      ensures HalfFits(halves[i], typ) <==> HalfValueFits(Resolved(strings, halves)[i].half.value, typ)
    {
    }
    if forall i | 0 <= i < |halves| :: HalfValueFits(Resolved(strings, halves)[i].half.value, typ) {
      forall h | h in halves
        ensures HalfFits(h, typ)
      {
        var i :| 0 <= i < |halves| && halves[i] == h;
        assert HalfValueFits(Resolved(strings, halves)[i].half.value, typ);
      }
    } else {
      var i :| 0 <= i < |halves| && !HalfValueFits(Resolved(strings, halves)[i].half.value, typ);
      assert halves[i] in halves;
    }
  }

  /** Every edge of kinds the schema has. */
  ghost predicate LiveKnown(s: Schema, live: seq<LiveEdge>) {
    forall e <- live :: e.src.kind < s.nodeKinds && e.dst.kind < s.nodeKinds && e.kind < |s.edgeTypes|
  }

  predicate IsHalfOf(half: Half<PropertyValue>, e: LiveEdge) {
    half.value == e.value && (half.neighbor == e.src || half.neighbor == e.dst)
  }

  /** A slot's new halves are halves of edges of the slot's kind. */
  lemma {:induction false} SlotHalvesFrom(s: Schema, live: seq<LiveEdge>, slot: nat, j: nat)
    requires LiveKnown(s, live) && j < |SlotHalves(s, live, slot)|
    ensures exists e :: e in live && e.kind == s.EdgeSlotEdge(slot) && IsHalfOf(SlotHalves(s, live, slot)[j].half, e)
  {
    var last := |live| - 1;
    var older := SlotHalves(s, live[..last], slot);
    if j < |older| {
      SlotHalvesFrom(s, live[..last], slot, j);
    } else {
      var e := live[last];
      s.EdgeSlotOf(e.src.kind, Out, e.kind);
      s.EdgeSlotOf(e.dst.kind, In, e.kind);
      assert e in live && IsHalfOf(HalvesOf(s, e, slot)[j - |older|].half, e);
    }
  }

  /** Every edge leaves its Out half at its source. */
  lemma {:induction false} LiveEdgeLeavesHalf(s: Schema, live: seq<LiveEdge>, e: LiveEdge)
    requires e in live
    ensures exists j :: 0 <= j < |SlotHalves(s, live, s.EdgeStorageSlot(e.src.kind, Out, e.kind))|
                        && SlotHalves(s, live, s.EdgeStorageSlot(e.src.kind, Out, e.kind))[j].half.value == e.value
  {
    var last, slot := |live| - 1, s.EdgeStorageSlot(e.src.kind, Out, e.kind);
    var older := SlotHalves(s, live[..last], slot);
    if e == live[last] {
      assert SlotHalves(s, live, slot)[|older|].half.value == e.value;
    } else {
      assert live == live[..last] + [live[last]];
      LiveEdgeLeavesHalf(s, live[..last], e);
      var j :| 0 <= j < |older| && older[j].half.value == e.value;
      assert SlotHalves(s, live, slot)[j].half.value == e.value;
    }
  }

  /** The slots after removals hold what the claims leave, under the strings interned so far. */
  ghost predicate MidsHold(s: Schema, g: Graph, claims: Claims, mids: seq<EdgeSlot>, strings: seq<Text>)
    requires Shaped(s, g)
  {
    && |mids| == |g.edges|
    && forall i | 0 <= i < |mids| ::
         var k, e := s.EdgeSlotKind(i), s.EdgeSlotEdge(i);
         && k < |g.nodes| && e < |s.edgeTypes|
         && EdgeSlotOk(mids[i], s.edgeTypes[e], |g.nodes[k]|, strings)
         && EdgeTable(strings, mids[i], |g.nodes[k]|) == Kept(g.edges[i], claims, i)
  }

  /** A bucket's halves stay below the number of nodes it covers. */
  lemma OwnersBelow(strings: seq<Text>, bucket: Option<SlotHalfEdges>, total: nat)
    requires BucketOk(bucket, total, strings)
    ensures forall h <- Resolved(strings, HalvesIn(bucket)) :: h.owner < total
  {
    hide HalvesInPool, Resolve;
    var resolved := Resolved(strings, HalvesIn(bucket));
    forall h | h in resolved
      ensures h.owner < total
    {
      var j :| 0 <= j < |resolved| && resolved[j] == h;
      assert HalvesIn(bucket)[j].owner < total;
    }
  }

  lemma MidReads(s: Schema, g: Graph, claims: Claims, mids: seq<EdgeSlot>, strings: seq<Text>, i: nat)
    requires Shaped(s, g) && MidsHold(s, g, claims, mids, strings) && i < |mids|
    ensures |mids| == |g.edges| && s.EdgeSlotKind(i) < |g.nodes| && |g.edges[i].runs| == |g.nodes[s.EdgeSlotKind(i)]|
    ensures TotalOf(Kept(g.edges[i], claims, i).runs) == |mids[i].neighbors|
  {
    hide Kept, IdsInPool, TotalOf, Monotone;
    var n := |g.nodes[s.EdgeSlotKind(i)]|;
    TotalOfRuns(mids[i].offsets, Halves(strings, mids[i]), n, n);
  }

  lemma BucketReads(s: Schema, totals: seq<nat>, strings: seq<Text>, slots: seq<Option<SlotHalfEdges>>,
                    live: seq<LiveEdge>, i: nat)
    requires BucketsMean(s, totals, strings, slots, HalvesBySlot(s, live)) && i < s.EdgeStorageSize()
    ensures |slots| == s.EdgeStorageSize() && s.EdgeSlotKind(i) < |totals|
    ensures BucketOk(slots[i], totals[s.EdgeSlotKind(i)], strings)
    ensures Resolved(strings, HalvesIn(slots[i])) == SlotHalves(s, live, i)
  {
    hide BucketOk, Resolved, SlotHalves, HalvesIn;
    assert HalvesBySlot(s, live)[i] == SlotHalves(s, live, i);
  }

  lemma SlotTotal(s: Schema, g: Graph, claims: Claims, newNodes: seq<NewNode>, live: seq<LiveEdge>,
                  mids: seq<EdgeSlot>, strings: seq<Text>, slots: seq<Option<SlotHalfEdges>>, i: nat)
    requires Shaped(s, g) && MidsHold(s, g, claims, mids, strings) && i < |mids|
    requires BucketsMean(s, Totals(g.nodes, newNodes), strings, slots, HalvesBySlot(s, live))
    ensures |mids| == |g.edges| == |slots|
    ensures TotalOf(EdgesAfter(s, g, claims, newNodes, live)[i].runs) == |mids[i].neighbors| + |HalvesIn(slots[i])|
    ensures Resolved(strings, HalvesIn(slots[i])) == SlotHalves(s, live, i)
  {
    hide MidsHold, BucketsMean, BucketOk, Resolved, SlotHalves, HalvesIn, Kept, Inserted, TotalOf, HalvesBySlot, OfKind;
    var k := s.EdgeSlotKind(i);
    MidReads(s, g, claims, mids, strings, i);
    BucketReads(s, Totals(g.nodes, newNodes), strings, slots, live, i);
    OwnersBelow(strings, slots[i], Totals(g.nodes, newNodes)[k]);
    TotalInserted(Kept(g.edges[i], claims, i), |g.nodes[k]| + |OfKind(newNodes, k)|, SlotHalves(s, live, i));
  }

  lemma EdgesAccepted(s: Schema, g: Graph, claims: Claims, newNodes: seq<NewNode>, live: seq<LiveEdge>,
                      mids: seq<EdgeSlot>, strings: seq<Text>, slots: seq<Option<SlotHalfEdges>>)
    requires Shaped(s, g) && MidsHold(s, g, claims, mids, strings) && LiveKnown(s, live)
    requires BucketsMean(s, Totals(g.nodes, newNodes), strings, slots, HalvesBySlot(s, live))
    requires |slots| == |mids|
    ensures InsertsFit(s, mids, slots, |mids|)
       <==> (forall e <- live :: LiveEdgeFits(s, e))
            && forall i | 0 <= i < |mids| :: TotalOf(EdgesAfter(s, g, claims, newNodes, live)[i].runs) <= U32_MAX
  {
    hide BucketsMean, EdgesAfter, HalvesBySlot, AllFit, SlotHalves;
    forall i | 0 <= i < |mids|
      ensures TotalOf(EdgesAfter(s, g, claims, newNodes, live)[i].runs) == |mids[i].neighbors| + |HalvesIn(slots[i])|
      ensures Resolved(strings, HalvesIn(slots[i])) == SlotHalves(s, live, i)
      ensures s.EdgeSlotEdge(i) < |s.edgeTypes|
    {
      SlotTotal(s, g, claims, newNodes, live, mids, strings, slots, i);
    }
    if InsertsFit(s, mids, slots, |mids|) {
      forall e | e in live
        ensures LiveEdgeFits(s, e)
      {
        s.EdgeSlotOf(e.src.kind, Out, e.kind);
        var i := s.EdgeStorageSlot(e.src.kind, Out, e.kind);
        assert SlotAccepts(s, mids[i], slots[i], i);
        LiveEdgeLeavesHalf(s, live, e);
        HalvesFitResolved(strings, HalvesIn(slots[i]), s.edgeTypes[e.kind]);
      }
    }
    if (forall e <- live :: LiveEdgeFits(s, e))
       && forall i | 0 <= i < |mids| :: TotalOf(EdgesAfter(s, g, claims, newNodes, live)[i].runs) <= U32_MAX {
      forall i | 0 <= i < |mids|
        ensures SlotAccepts(s, mids[i], slots[i], i)
      {
        var typ := s.edgeTypes[s.EdgeSlotEdge(i)];
        HalvesFitResolved(strings, HalvesIn(slots[i]), typ);
        forall j | 0 <= j < |HalvesIn(slots[i])|
          ensures HalfValueFits(Resolved(strings, HalvesIn(slots[i]))[j].half.value, typ)
        {
          SlotHalvesFrom(s, live, i, j);
        }
      }
    }
  }

  lemma {:induction false} LiveEdgesKnown(s: Schema, nodes: seq<seq<bool>>, tombstones: seq<RawNodeId>,
                                          newNodes: seq<NewNode>, newEdges: seq<NewEdge>)
    requires |nodes| == s.nodeKinds && forall e <- newEdges :: e.kind < |s.edgeTypes|
    ensures LiveKnown(s, LiveEdges(s, nodes, tombstones, newNodes, newEdges))
  {
    if newEdges != [] {
      LiveEdgesKnown(s, nodes, tombstones, newNodes, newEdges[..|newEdges| - 1]);
    }
  }

  /** Staging succeeds slot by slot exactly on the diffs the specification accepts. */
  lemma AcceptsSplits(s: Schema, g: Graph, d: GraphDiff, mids: seq<EdgeSlot>, strings: seq<Text>,
                      slots: seq<Option<SlotHalfEdges>>)
    requires Shaped(s, g) && WellKinded(s, d) && Classify(s, g, d.changes).Ok?
    requires var c := Classify(s, g, d.changes).value;
             && MidsHold(s, g, c.claims, mids, strings)
             && BucketsMean(s, Totals(g.nodes, d.newNodes), strings, slots,
                            HalvesBySlot(s, LiveEdges(s, g.nodes, c.tombstones, d.newNodes, d.newEdges)))
             && |slots| == |mids|
    ensures var c := Classify(s, g, d.changes).value;
            Accepts(s, g, d)
            <==> && FitUpTo(s, g, c.updates, |g.props|)
                 && ClaimsInRange(g, c.claims)
                 && NewValuesFitUpTo(s, g, c.updates, d.newNodes, |g.props|)
                 && InsertsFit(s, mids, slots, |mids|)
  {
    hide Classify, FitUpTo, UpdatesFit, ClaimsInRange, NewValuesFitUpTo, NewPropertiesFit, InsertsFit, LiveEdges,
         LiveEdgeFits, MidsHold, BucketsMean, TableAfter, Updated, EdgesAfter;
    var c := Classify(s, g, d.changes).value;
    var live := LiveEdges(s, g.nodes, c.tombstones, d.newNodes, d.newEdges);
    LiveEdgesKnown(s, g.nodes, c.tombstones, d.newNodes, d.newEdges);
    UpdatesAccepted(s, g, c.updates);
    UpdatedWithinAfter(s, g, c.updates, d.newNodes);
    NewValuesAccepted(s, g, c.updates, d.newNodes);
    MidsLength(s, g, c.claims, mids, strings);
    EdgesAccepted(s, g, c.claims, d.newNodes, live, mids, strings, slots);
    var after := ApplyClassified(s, g, d, c);
    PropsAfterTables(s, g, c.updates, d.newNodes);
    assert SizesFit(after) <==>
           (forall i | 0 <= i < |after.edges| :: TotalOf(after.edges[i].runs) <= U32_MAX)
           && (forall i | 0 <= i < |after.props| :: TotalOf(after.props[i].runs) <= U32_MAX);
  }

  lemma MidsLength(s: Schema, g: Graph, claims: Claims, mids: seq<EdgeSlot>, strings: seq<Text>)
    requires Shaped(s, g) && MidsHold(s, g, claims, mids, strings)
    ensures |mids| == |g.edges|
  {
  }

  lemma PropsAfterTables(s: Schema, g: Graph, updates: Updates, newNodes: seq<NewNode>)
    requires Shaped(s, g)
    ensures forall i | 0 <= i < |g.props| ::
            PropsAfter(s, g, updates, newNodes)[i] == TableAfter(s, g, updates, newNodes, i)
  {
  }
}
