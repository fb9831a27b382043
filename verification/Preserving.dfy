/** Applying an accepted diff to a coherent graph keeps it coherent. */
module Preserving {
  import opened Wrappers
  import opened Storage
  import opened Schemas
  import opened Graphs
  import opened Diffs
  import opened EdgeBags
  import opened NewNodes
  import opened NewEdges
  import opened Accepting
  import opened Keeping
  import opened Pairing

  // ----- new edges

  /** The live edges of one kind. */
  ghost function LiveBag(live: seq<LiveEdge>, e: nat): multiset<Edge<PropertyValue>> {
    if live == [] then multiset{}
    else
      var last := live[|live| - 1];
      LiveBag(live[..|live| - 1], e)
      + if last.kind == e then multiset{Edge(last.src, last.dst, last.value)} else multiset{}
  }

  /** Every live edge attaches to nodes there are after the diff. */
  ghost predicate LiveInRange(s: Schema, nodes: seq<seq<bool>>, newNodes: seq<NewNode>, live: seq<LiveEdge>) {
    forall e <- live ::
      && e.kind < |s.edgeTypes|
      && e.src.kind < s.nodeKinds == |nodes| && e.dst.kind < s.nodeKinds
      && e.src.seqNo < |nodes[e.src.kind]| + |OfKind(newNodes, e.src.kind)|
      && e.dst.seqNo < |nodes[e.dst.kind]| + |OfKind(newNodes, e.dst.kind)|
  }

  lemma {:induction false} LiveEdgesInRange(s: Schema, nodes: seq<seq<bool>>, tombstones: seq<RawNodeId>,
                                            newNodes: seq<NewNode>, newEdges: seq<NewEdge>)
    requires |nodes| == s.nodeKinds && forall e <- newEdges :: e.kind < |s.edgeTypes|
    ensures LiveInRange(s, nodes, newNodes, LiveEdges(s, nodes, tombstones, newNodes, newEdges))
  {
    if newEdges != [] {
      LiveEdgesInRange(s, nodes, tombstones, newNodes, newEdges[..|newEdges| - 1]);
    }
  }

  lemma {:induction false} KindPadded<V>(kind: nat, d: Direction, t: Table<Half<V>>, count: nat)
    requires |t.runs| <= count
    ensures KindEdges(kind, d, Inserted(t, count, []).runs) == KindEdges(kind, d, t.runs)
    decreases count
  {
    var padded := Inserted<V>(t, count, []).runs;
    if |t.runs| < count {
      KindPadded(kind, d, t, count - 1);
      assert padded[..count - 1] == Inserted<V>(t, count - 1, []).runs;
      assert padded[count - 1] == [];
    } else {
      forall v | 0 <= v < count
        ensures padded[v] == t.runs[v]
      {
      }
      assert padded == t.runs;
    }
  }

  /** Empty runs for new nodes record no edges. */
  lemma NoneInserted(s: Schema, g: Graph, claims: Claims, newNodes: seq<NewNode>, d: Direction, e: nat)
    requires Shaped(s, g) && e < |s.edgeTypes|
    ensures Bag(s, EdgesAfter(s, g, claims, newNodes, []), d, e) == Bag(s, EdgesKept(g, claims), d, e)
  {
    hide KindEdges, Kept, Inserted;
    BlockBounds(s, d, e);
    var after, kept := EdgesAfter(s, g, claims, newNodes, []), EdgesKept(g, claims);
    var a, b := Block(s, after, d, e), Block(s, kept, d, e);
    forall k | 0 <= k < |a|
      ensures KindEdges(k, d, a[k].runs) == KindEdges(k, d, b[k].runs)
    {
      var i := s.EdgeBlock(d, e) + k;
      assert a[k] == after[i] && b[k] == kept[i];
      KindPadded(k, d, kept[i], |g.nodes[s.EdgeSlotKind(i)]| + |OfKind(newNodes, s.EdgeSlotKind(i))|);
    }
    BlockSame(d, a, b);
  }

  /** One more live edge puts one run at each end one half longer. */
  lemma OneMoreInserted(s: Schema, g: Graph, claims: Claims, newNodes: seq<NewNode>, live: seq<LiveEdge>, x: LiveEdge)
    requires Shaped(s, g) && LiveInRange(s, g.nodes, newNodes, [x])
    ensures x.src.kind < s.nodeKinds && x.dst.kind < s.nodeKinds && x.kind < |s.edgeTypes|
    ensures var out, inn := s.EdgeStorageSlot(x.src.kind, Out, x.kind), s.EdgeStorageSlot(x.dst.kind, In, x.kind);
            var before := EdgesAfter(s, g, claims, newNodes, live);
            var after := EdgesAfter(s, g, claims, newNodes, live + [x]);
            && out < |before| && inn < |before| && out != inn
            && after == before[out := after[out]][inn := after[inn]]
            && x.src.seqNo < |before[out].runs| && x.dst.seqNo < |before[inn].runs|
            && after[out].runs
               == before[out].runs[x.src.seqNo := before[out].runs[x.src.seqNo] + [Half(x.dst, x.value)]]
            && after[inn].runs
               == before[inn].runs[x.dst.seqNo := before[inn].runs[x.dst.seqNo] + [Half(x.src, x.value)]]
  {
    hide SlotHalves, Inserted, Kept, OwnedBy, Schema.EdgeStorageSlot, Schema.EdgeSlotKind;
    assert x in [x];
    s.EdgeSlotOf(x.src.kind, Out, x.kind);
    s.EdgeSlotOf(x.dst.kind, In, x.kind);
    var out, inn := s.EdgeStorageSlot(x.src.kind, Out, x.kind), s.EdgeStorageSlot(x.dst.kind, In, x.kind);
    assert s.EdgeSlotDirection(out) != s.EdgeSlotDirection(inn);
    OneMoreEdge(s, live, x);
    var spec, spec' := HalvesBySlot(s, live), HalvesBySlot(s, live + [x]);
    forall i | 0 <= i < s.EdgeStorageSize() && i != out && i != inn
      ensures SlotHalves(s, live + [x], i) == SlotHalves(s, live, i)
    {
      assert spec'[i] == spec[i];
    }
    assert SlotHalves(s, live + [x], out)
           == SlotHalves(s, live, out) + [NewHalf(x.src.seqNo, Half(x.dst, x.value))] by {
      assert spec'[out] == spec[out] + [NewHalf(x.src.seqNo, Half(x.dst, x.value))];
    }
    assert SlotHalves(s, live + [x], inn)
           == SlotHalves(s, live, inn) + [NewHalf(x.dst.seqNo, Half(x.src, x.value))] by {
      assert spec'[inn] == spec[inn] + [NewHalf(x.dst.seqNo, Half(x.src, x.value))];
    }
    var n := |g.nodes[x.src.kind]| + |OfKind(newNodes, x.src.kind)|;
    var m := |g.nodes[x.dst.kind]| + |OfKind(newNodes, x.dst.kind)|;
    InsertedOneMore(Kept(g.edges[out], claims, out), n, SlotHalves(s, live, out),
                    NewHalf(x.src.seqNo, Half(x.dst, x.value)));
    InsertedOneMore(Kept(g.edges[inn], claims, inn), m, SlotHalves(s, live, inn),
                    NewHalf(x.dst.seqNo, Half(x.src, x.value)));
  }

  /** Lengthening a run by one half adds that half's edge to its bag and leaves the others. */
  lemma RunGrows(s: Schema, edges: seq<Table<Half<PropertyValue>>>, k: nat, d: Direction, e: nat, v: nat,
                 half: Half<PropertyValue>, t: Table<Half<PropertyValue>>)
    requires |edges| == s.EdgeStorageSize() && k < s.nodeKinds && e < |s.edgeTypes|
    requires s.EdgeStorageSlot(k, d, e) < |edges| && v < |edges[s.EdgeStorageSlot(k, d, e)].runs|
    requires var runs := edges[s.EdgeStorageSlot(k, d, e)].runs; t.runs == runs[v := runs[v] + [half]]
    ensures var edges' := edges[s.EdgeStorageSlot(k, d, e) := t];
            && Bag(s, edges', d, e) == Bag(s, edges, d, e) + multiset{Canon(NodeAt(k, v), d, half)}
            && forall d', e': nat | e' < |s.edgeTypes| && (d', e') != (d, e) ::
                 Bag(s, edges', d', e') == Bag(s, edges, d', e')
  {
    hide Bag, RunBag, Schema.EdgeStorageSlot, Canon;
    var i := s.EdgeStorageSlot(k, d, e);
    var run := edges[i].runs[v];
    RunReplaced(s, edges, k, d, e, v, run + [half], t);
    RunBagJoins(NodeAt(k, v), d, run, [half]);
    RunBagOne(NodeAt(k, v), d, half);
    GrowBoth(Bag(s, edges[i := t], d, e), Bag(s, edges, d, e), RunBag(NodeAt(k, v), d, run),
             multiset{Canon(NodeAt(k, v), d, half)});
  }

  lemma GrowBoth<T>(a: multiset<T>, b: multiset<T>, x: multiset<T>, y: multiset<T>)
    requires a + x == b + (x + y)
    ensures a == b + y
  {
    forall t
      ensures a[t] == (b + y)[t]
    {
      assert (a + x)[t] == (b + (x + y))[t];
    }
  }

  /** Both directions gain exactly the live edges. */
  lemma {:induction false} InsertsBoth(s: Schema, g: Graph, claims: Claims, newNodes: seq<NewNode>, live: seq<LiveEdge>,
                                       d: Direction, e: nat)
    requires Shaped(s, g) && LiveInRange(s, g.nodes, newNodes, live) && e < |s.edgeTypes|
    ensures Bag(s, EdgesAfter(s, g, claims, newNodes, live), d, e)
            == Bag(s, EdgesKept(g, claims), d, e) + LiveBag(live, e)
  {
    hide Bag, EdgesAfter, EdgesKept, Schema.EdgeStorageSlot, LiveInRange, NodeAt, Shaped;
    if live == [] {
      NoneInserted(s, g, claims, newNodes, d, e);
    } else {
      var older, x := live[..|live| - 1], live[|live| - 1];
      assert live == older + [x];
      LiveSplits(s, g.nodes, newNodes, live);
      InsertsBoth(s, g, claims, newNodes, older, d, e);
      OneMoreInserted(s, g, claims, newNodes, older, x);
      EndsAreThemselves(x);
      var out, inn := s.EdgeStorageSlot(x.src.kind, Out, x.kind), s.EdgeStorageSlot(x.dst.kind, In, x.kind);
      var before, after := EdgesAfter(s, g, claims, newNodes, older), EdgesAfter(s, g, claims, newNodes, live);
      ShapedEdges(s, g);
      RunGrows(s, before, x.src.kind, Out, x.kind, x.src.seqNo, Half(x.dst, x.value), after[out]);
      RunGrows(s, before[out := after[out]], x.dst.kind, In, x.kind, x.dst.seqNo, Half(x.src, x.value), after[inn]);
    }
  }

  lemma ShapedEdges(s: Schema, g: Graph)
    requires Shaped(s, g)
    ensures |g.edges| == s.EdgeStorageSize() && |g.nodes| == s.nodeKinds
  {
  }

  lemma LiveSplits(s: Schema, nodes: seq<seq<bool>>, newNodes: seq<NewNode>, live: seq<LiveEdge>)
    requires live != [] && LiveInRange(s, nodes, newNodes, live)
    ensures LiveInRange(s, nodes, newNodes, live[..|live| - 1]) && LiveInRange(s, nodes, newNodes, [live[|live| - 1]])
  {
    hide OfKind;
  }

  lemma EndsAreThemselves(x: LiveEdge)
    ensures NodeAt(x.src.kind, x.src.seqNo) == x.src && NodeAt(x.dst.kind, x.dst.seqNo) == x.dst
  {
  }

  /** The halves still pair up once the new edges are in. */
  lemma PairedAfter(s: Schema, g: Graph, d: GraphDiff)
    requires s.Valid() && Coherent(s, g) && WellKinded(s, d) && FreshHandles(s, g, d.changes) && Accepts(s, g, d)
    ensures Paired(s, ApplyDiff(s, g, d))
  {
    hide Coherent, Accepts, Classify, EdgesAfter, EdgesKept, FreshHandles;
    CoherentShape(s, g);
    AcceptsClassifies(s, g, d);
    var c := Classify(s, g, d.changes).value;
    var live := LiveEdges(s, g.nodes, c.tombstones, d.newNodes, d.newEdges);
    ChangesKeepPairing(s, g, d.changes);
    LiveEdgesInRange(s, g.nodes, c.tombstones, d.newNodes, d.newEdges);
    var after := EdgesAfter(s, g, c.claims, d.newNodes, live);
    forall e | 0 <= e < |s.edgeTypes|
      ensures multiset(Edges(s, after, Out, e)) == multiset(Edges(s, after, In, e))
    {
      InsertsBoth(s, g, c.claims, d.newNodes, live, Out, e);
      InsertsBoth(s, g, c.claims, d.newNodes, live, In, e);
      assert Bag(s, after, Out, e) == Bag(s, after, In, e);
    }
  }

  lemma AcceptsClassifies(s: Schema, g: Graph, d: GraphDiff)
    requires Shaped(s, g) && WellKinded(s, d) && Accepts(s, g, d)
    ensures Classify(s, g, d.changes).Ok?
    ensures ApplyDiff(s, g, d) == ApplyClassified(s, g, d, Classify(s, g, d.changes).value)
  {
  }

  // ----- content

  ghost predicate PropPayloadsOk(s: Schema, counts: seq<nat>, g: Graph, updates: Updates, newNodes: seq<NewNode>) {
    && (forall i, v, x | 0 <= i < |g.props| && 0 <= v < |g.props[i].runs| && (i, v) in updates
        && x in updates[(i, v)] ::
          s.PropertySlotProp(i) < |s.propEnums| && PayloadOk(s, counts, s.propEnums[s.PropertySlotProp(i)], x))
    && forall n, p, x | n in newNodes && p in n.properties && x in n.properties[p] ::
         p < |s.propEnums| && PayloadOk(s, counts, s.propEnums[p], x)
  }

  ghost predicate LivePayloadsOk(s: Schema, counts: seq<nat>, live: seq<LiveEdge>) {
    forall e | e in live && e.value.Some? ::
      e.kind < |s.edgeEnums| && PayloadOk(s, counts, s.edgeEnums[e.kind], e.value.value)
  }

  /** The nodes and enums the diff's surviving values name exist once it is applied. */
  ghost predicate PayloadsResolve(s: Schema, g: Graph, d: GraphDiff, c: Classified)
  {
    var counts := Counts(NodesAfter(g.nodes, c.tombstones, d.newNodes));
    && PropPayloadsOk(s, counts, g, c.updates, d.newNodes)
    && LivePayloadsOk(s, counts, LiveEdges(s, g.nodes, c.tombstones, d.newNodes, d.newEdges))
  }

  ghost predicate CountsGrow(before: seq<nat>, after: seq<nat>) {
    |before| == |after| && forall k | 0 <= k < |before| :: before[k] <= after[k]
  }

  lemma StaysOk(s: Schema, before: seq<nat>, after: seq<nat>, typ: PropertyType, expected: Option<nat>,
                v: Option<PropertyValue>)
    requires CountsGrow(before, after) && ValueOk(s, before, typ, expected, v)
    ensures ValueOk(s, after, typ, expected, v)
  {
  }

  lemma {:induction false} OwnedByFrom<V>(halves: seq<NewHalf<V>>, v: nat, p: nat)
    requires p < |OwnedBy(halves, v)|
    ensures exists j :: 0 <= j < |halves| && halves[j].half == OwnedBy(halves, v)[p]
  {
    var last := |halves| - 1;
    var older := OwnedBy(halves[..last], v);
    if p < |older| {
      OwnedByFrom(halves[..last], v, p);
      var j :| 0 <= j < last && halves[..last][j].half == older[p];
      assert halves[j].half == OwnedBy(halves, v)[p];
    } else {
      assert halves[last].half == OwnedBy(halves, v)[p];
    }
  }

  lemma {:induction false} OwnedByHas<V>(halves: seq<NewHalf<V>>, j: nat)
    requires j < |halves|
    ensures halves[j].half in OwnedBy(halves, halves[j].owner)
  {
    var last := |halves| - 1;
    if j < last {
      OwnedByHas(halves[..last], j);
    }
  }

  /** A live edge of a kind in its declared type whose value resolves. */
  ghost predicate LiveEdgeOk(s: Schema, counts: seq<nat>, e: LiveEdge) {
    && e.kind < |s.edgeTypes| == |s.edgeEnums|
    && NodeExists(s, counts, e.src) && NodeExists(s, counts, e.dst)
    && ValueOk(s, counts, s.edgeTypes[e.kind], s.edgeEnums[e.kind], e.value)
  }

  /** Old halves stay sound and new ones are as sound as their edges. */
  lemma EdgeTableAfterOk(s: Schema, before: seq<nat>, counts: seq<nat>, e: nat, t: Table<Half<PropertyValue>>,
                         claims: Claims, i: nat, count: nat, live: seq<LiveEdge>)
    requires s.Valid() && e == s.EdgeSlotEdge(i) < |s.edgeTypes| && CountsGrow(before, counts)
    requires EdgeTableOk(s, before, e, t) && LiveKnown(s, live) && forall x <- live :: LiveEdgeOk(s, counts, x)
    ensures EdgeTableOk(s, counts, e, Inserted(Kept(t, claims, i), count, SlotHalves(s, live, i)))
  {
    var kept, halves := Kept(t, claims, i), SlotHalves(s, live, i);
    var after := Inserted(kept, count, halves);
    forall v, p | 0 <= v < |after.runs| && 0 <= p < |after.runs[v]|
      ensures HalfOk(s, counts, e, after.runs[v][p])
    {
      var earlier := RunOf(kept, v);
      if p < |earlier| {
        KeepMembers(t.runs[v], At(claims, i, v), earlier[p]);
        var j :| 0 <= j < |t.runs[v]| && t.runs[v][j] == earlier[p];
        assert HalfOk(s, before, e, t.runs[v][j]);
        StaysOk(s, before, counts, s.edgeTypes[e], s.edgeEnums[e], earlier[p].value);
      } else {
        OwnedByFrom(halves, v, p - |earlier|);
        var j :| 0 <= j < |halves| && halves[j].half == after.runs[v][p];
        SlotHalvesFrom(s, live, i, j);
        var x :| x in live && x.kind == e && IsHalfOf(halves[j].half, x);
        assert LiveEdgeOk(s, counts, x);
      }
    }
  }

  /** A sound table of the slot an edge leaves from vouches for the edge's value. */
  lemma EdgeTableVouches(s: Schema, counts: seq<nat>, t: Table<Half<PropertyValue>>, count: nat, live: seq<LiveEdge>,
                         x: LiveEdge)
    requires s.Valid() && x in live && x.kind < |s.edgeTypes|
    requires forall h <- SlotHalves(s, live, s.EdgeStorageSlot(x.src.kind, Out, x.kind)) :: h.owner < count
    requires EdgeTableOk(s, counts, x.kind,
                         Inserted(t, count, SlotHalves(s, live, s.EdgeStorageSlot(x.src.kind, Out, x.kind))))
    ensures x.value.Some? ==> PayloadOk(s, counts, s.edgeEnums[x.kind], x.value.value)
  {
    LiveEdgeLeavesHalf(s, live, x);
    var halves := SlotHalves(s, live, s.EdgeStorageSlot(x.src.kind, Out, x.kind));
    var j :| 0 <= j < |halves| && halves[j].half.value == x.value;
    assert halves[j] in halves;
    var v := halves[j].owner;
    OwnedByHas(halves, j);
    var run := Inserted(t, count, halves).runs[v];
    assert run == RunOf(t, v) + OwnedBy(halves, v);
    var p :| 0 <= p < |OwnedBy(halves, v)| && OwnedBy(halves, v)[p] == halves[j].half;
    assert run[|RunOf(t, v)| + p] == halves[j].half;
    assert HalfOk(s, counts, x.kind, run[|RunOf(t, v)| + p]);
  }

  /** Old values stay sound, and updates and new values are as sound as the diff makes them. */
  lemma PropTableAfterOk(s: Schema, before: seq<nat>, counts: seq<nat>, i: nat, t: Table<PropertyValue>,
                         updates: Updates, added: seq<NewNode>)
    requires s.Valid() && s.PropertySlotProp(i) < |s.propTypes| && CountsGrow(before, counts)
    requires PropTableOk(s, before, s.PropertySlotProp(i), t)
    requires forall v, x | 0 <= v < |t.runs| && (i, v) in updates && x in updates[(i, v)] ::
               x.Typ() == s.propTypes[s.PropertySlotProp(i)]
    requires forall n, x | n in added && x in PropertyOf(n, s.PropertySlotProp(i)) ::
               x.Typ() == s.propTypes[s.PropertySlotProp(i)]
    ensures PropTableOk(s, counts, s.PropertySlotProp(i),
                        PropsExtended(Updated(t, updates, i), added, s.PropertySlotProp(i)))
       <==> && (forall v, x | 0 <= v < |t.runs| && (i, v) in updates && x in updates[(i, v)] ::
                  PayloadOk(s, counts, s.propEnums[s.PropertySlotProp(i)], x))
            && forall n, x | n in added && x in PropertyOf(n, s.PropertySlotProp(i)) ::
                 PayloadOk(s, counts, s.propEnums[s.PropertySlotProp(i)], x)
  {
    var p := s.PropertySlotProp(i);
    var typ, expected := s.propTypes[p], s.propEnums[p];
    assert typ in s.propTypes;
    var after := PropsExtended(Updated(t, updates, i), added, p);
    forall v, j | 0 <= v < |t.runs| && 0 <= j < |t.runs[v]|
      ensures ValueOk(s, counts, typ, expected, Some(t.runs[v][j]))
    {
      assert ValueOk(s, before, typ, expected, Some(t.runs[v][j]));
      StaysOk(s, before, counts, typ, expected, Some(t.runs[v][j]));
    }
    if PropTableOk(s, counts, p, after) {
      forall v, x | 0 <= v < |t.runs| && (i, v) in updates && x in updates[(i, v)]
        ensures PayloadOk(s, counts, expected, x)
      {
        assert after.runs[v] == updates[(i, v)];
        var j :| 0 <= j < |after.runs[v]| && after.runs[v][j] == x;
        assert ValueOk(s, counts, typ, expected, Some(after.runs[v][j]));
      }
      forall n, x | n in added && x in PropertyOf(n, p)
        ensures PayloadOk(s, counts, expected, x)
      {
        var m :| 0 <= m < |added| && added[m] == n;
        var v := |t.runs| + m;
        assert after.runs[v] == PropertyOf(n, p);
        var j :| 0 <= j < |after.runs[v]| && after.runs[v][j] == x;
        assert ValueOk(s, counts, typ, expected, Some(after.runs[v][j]));
      }
    }
  }

  // ----- the whole graph

  lemma ShapedAfter(s: Schema, g: Graph, d: GraphDiff, c: Classified)
    requires Shaped(s, g)
    ensures Shaped(s, ApplyClassified(s, g, d, c))
  {
    hide OfKind, LiveEdges, Kept, SlotHalves, Updated, Schema.EdgeSlotKind, Schema.PropertySlotKind;
  }

  lemma UnusedStaysEmpty(t: Table<Half<PropertyValue>>, claims: Claims, i: nat, count: nat,
                         halves: seq<NewHalf<PropertyValue>>)
    requires UnusedEmpty(t)
    ensures UnusedEmpty(Inserted(Kept(t, claims, i), count, halves))
  {
    var kept := Kept(t, claims, i);
    var after := Inserted(kept, count, halves);
    if !after.used {
      forall v | 0 <= v < |after.runs|
        ensures after.runs[v] == []
      {
        assert v < |t.runs| ==> t.runs[v] == [];
      }
    }
  }

  lemma {:induction false} OwnersInRange(s: Schema, nodes: seq<seq<bool>>, newNodes: seq<NewNode>, live: seq<LiveEdge>,
                                         slot: nat)
    requires LiveInRange(s, nodes, newNodes, live) && s.EdgeSlotKind(slot) < |nodes|
    ensures forall h <- SlotHalves(s, live, slot) ::
              h.owner < |nodes[s.EdgeSlotKind(slot)]| + |OfKind(newNodes, s.EdgeSlotKind(slot))|
  {
    hide Schema.EdgeStorageSlot, Schema.EdgeSlotKind, OfKind;
    if live != [] {
      LiveSplits(s, nodes, newNodes, live);
      OwnersInRange(s, nodes, newNodes, live[..|live| - 1], slot);
      var x := live[|live| - 1];
      assert x in [x];
      s.EdgeSlotOf(x.src.kind, Out, x.kind);
      s.EdgeSlotOf(x.dst.kind, In, x.kind);
    }
  }

  ghost predicate EdgeTablesOk(s: Schema, counts: seq<nat>, edges: seq<Table<Half<PropertyValue>>>)
    requires s.Valid()
  {
    forall i | 0 <= i < |edges| ::
      s.EdgeSlotEdge(i) < |s.edgeTypes| && EdgeTableOk(s, counts, s.EdgeSlotEdge(i), edges[i])
  }

  lemma EdgesContentAfter(s: Schema, g: Graph, claims: Claims, newNodes: seq<NewNode>, live: seq<LiveEdge>,
                          counts: seq<nat>)
    requires s.Valid() && Shaped(s, g) && EdgeTablesOk(s, Counts(g.nodes), g.edges)
    requires LiveInRange(s, g.nodes, newNodes, live) && forall e <- live :: LiveEdgeFits(s, e)
    requires |counts| == |g.nodes| && forall k | 0 <= k < |counts| :: counts[k] == |g.nodes[k]| + |OfKind(newNodes, k)|
    ensures EdgeTablesOk(s, counts, EdgesAfter(s, g, claims, newNodes, live)) <==> LivePayloadsOk(s, counts, live)
  {
    hide EdgeTableOk, PayloadOk, OfKind, Kept, Inserted, SlotHalves, Schema.EdgeSlotKind, Schema.EdgeSlotEdge,
         Schema.EdgeStorageSlot;
    var after := EdgesAfter(s, g, claims, newNodes, live);
    if LivePayloadsOk(s, counts, live) {
      forall x | x in live
        ensures LiveEdgeOk(s, counts, x)
      {
        assert LiveEdgeFits(s, x);
      }
      forall i | 0 <= i < |after|
        ensures s.EdgeSlotEdge(i) < |s.edgeTypes| && EdgeTableOk(s, counts, s.EdgeSlotEdge(i), after[i])
      {
        var k := s.EdgeSlotKind(i);
        EdgeTableAfterOk(s, Counts(g.nodes), counts, s.EdgeSlotEdge(i), g.edges[i], claims, i,
                         |g.nodes[k]| + |OfKind(newNodes, k)|, live);
      }
    }
    if EdgeTablesOk(s, counts, after) {
      forall x | x in live && x.value.Some?
        ensures x.kind < |s.edgeEnums| && PayloadOk(s, counts, s.edgeEnums[x.kind], x.value.value)
      {
        var i := s.EdgeStorageSlot(x.src.kind, Out, x.kind);
        s.EdgeSlotOf(x.src.kind, Out, x.kind);
        OwnersInRange(s, g.nodes, newNodes, live, i);
        EdgeTableVouches(s, counts, Kept(g.edges[i], claims, i),
                         |g.nodes[x.src.kind]| + |OfKind(newNodes, x.src.kind)|, live, x);
      }
    }
  }

  ghost predicate PropTablesOk(s: Schema, counts: seq<nat>, props: seq<Table<PropertyValue>>)
    requires s.Valid()
  {
    forall i | 0 <= i < |props| ::
      s.PropertySlotProp(i) < |s.propTypes| && PropTableOk(s, counts, s.PropertySlotProp(i), props[i])
  }

  /** One slot's share of the payloads. */
  ghost predicate SlotPayloadsOk(s: Schema, counts: seq<nat>, g: Graph, updates: Updates, added: seq<NewNode>, i: nat)
    requires i < |g.props| && s.PropertySlotProp(i) < |s.propEnums|
  {
    && (forall v, x | 0 <= v < |g.props[i].runs| && (i, v) in updates && x in updates[(i, v)] ::
          PayloadOk(s, counts, s.propEnums[s.PropertySlotProp(i)], x))
    && forall n, x | n in added && x in PropertyOf(n, s.PropertySlotProp(i)) ::
         PayloadOk(s, counts, s.propEnums[s.PropertySlotProp(i)], x)
  }

  lemma PayloadsBySlot(s: Schema, counts: seq<nat>, g: Graph, updates: Updates, newNodes: seq<NewNode>)
    requires s.Valid() && Shaped(s, g) && KindsKnown(s, newNodes)
    ensures forall i | 0 <= i < |g.props| :: s.PropertySlotProp(i) < |s.propEnums|
    ensures PropPayloadsOk(s, counts, g, updates, newNodes)
       <==> forall i | 0 <= i < |g.props| ::
           SlotPayloadsOk(s, counts, g, updates, OfKind(newNodes, s.PropertySlotKind(i)), i)
  {
    hide PayloadOk;
    forall i | 0 <= i < |g.props|
      ensures s.PropertySlotProp(i) < |s.propEnums|
    {
      s.PropertySlotAt(i);
    }
    if PropPayloadsOk(s, counts, g, updates, newNodes) {
      forall i | 0 <= i < |g.props|
        ensures SlotPayloadsOk(s, counts, g, updates, OfKind(newNodes, s.PropertySlotKind(i)), i)
      {
        OfKindOnly(newNodes, s.PropertySlotKind(i));
      }
    }
    if forall i | 0 <= i < |g.props| ::
       SlotPayloadsOk(s, counts, g, updates, OfKind(newNodes, s.PropertySlotKind(i)), i) {
      forall n, p, x | n in newNodes && p in n.properties && x in n.properties[p]
        ensures p < |s.propEnums| && PayloadOk(s, counts, s.propEnums[p], x)
      {
        s.PropertySlotOf(n.kind, p);
        OfKindMember(newNodes, n);
        assert SlotPayloadsOk(s, counts, g, updates, OfKind(newNodes, n.kind), s.PropertyStorageSlot(n.kind, p));
        assert x in PropertyOf(n, p);
      }
      forall i, v, x | 0 <= i < |g.props| && 0 <= v < |g.props[i].runs| && (i, v) in updates && x in updates[(i, v)]
        ensures PayloadOk(s, counts, s.propEnums[s.PropertySlotProp(i)], x)
      {
        assert SlotPayloadsOk(s, counts, g, updates, OfKind(newNodes, s.PropertySlotKind(i)), i);
      }
    }
  }

  lemma PropsContentAfter(s: Schema, g: Graph, updates: Updates, newNodes: seq<NewNode>, counts: seq<nat>)
    requires s.Valid() && Shaped(s, g) && PropTablesOk(s, Counts(g.nodes), g.props) && KindsKnown(s, newNodes)
    requires UpdatesFit(s, g, updates) && NewPropertiesFit(s, newNodes)
    requires CountsGrow(Counts(g.nodes), counts)
    ensures PropTablesOk(s, counts, PropsAfter(s, g, updates, newNodes))
            <==> PropPayloadsOk(s, counts, g, updates, newNodes)
  {
    hide PropTableOk, PayloadOk, PropsExtended, Updated, CountsGrow, SlotPayloadsOk, PropPayloadsOk;
    PayloadsBySlot(s, counts, g, updates, newNodes);
    forall i | 0 <= i < |g.props|
      ensures PropTableOk(s, counts, s.PropertySlotProp(i), PropsAfter(s, g, updates, newNodes)[i])
         <==> SlotPayloadsOk(s, counts, g, updates, OfKind(newNodes, s.PropertySlotKind(i)), i)
    {
      SlotContentAfter(s, g, updates, newNodes, counts, i);
    }
  }

  lemma SlotContentAfter(s: Schema, g: Graph, updates: Updates, newNodes: seq<NewNode>, counts: seq<nat>, i: nat)
    requires s.Valid() && Shaped(s, g) && PropTablesOk(s, Counts(g.nodes), g.props) && KindsKnown(s, newNodes)
    requires UpdatesFit(s, g, updates) && NewPropertiesFit(s, newNodes)
    requires CountsGrow(Counts(g.nodes), counts) && i < |g.props|
    ensures s.PropertySlotProp(i) < |s.propTypes|
    ensures PropTableOk(s, counts, s.PropertySlotProp(i), PropsAfter(s, g, updates, newNodes)[i])
       <==> SlotPayloadsOk(s, counts, g, updates, OfKind(newNodes, s.PropertySlotKind(i)), i)
  {
    hide PropTableOk, PayloadOk, PropsExtended, Updated, CountsGrow;
    var p, added := s.PropertySlotProp(i), OfKind(newNodes, s.PropertySlotKind(i));
    OfKindOnly(newNodes, s.PropertySlotKind(i));
    forall v, x | 0 <= v < |g.props[i].runs| && (i, v) in updates && x in updates[(i, v)]
      ensures x.Typ() == s.propTypes[p]
    {
      assert AllTyped(updates[(i, v)], s.propTypes[p]);
    }
    forall n, x | n in added && x in PropertyOf(n, p)
      ensures x.Typ() == s.propTypes[p]
    {
      assert n in newNodes && p in n.properties;
      assert AllTyped(n.properties[p], s.propTypes[p]);
    }
    PropTableAfterOk(s, Counts(g.nodes), counts, i, g.props[i], updates, added);
  }

  lemma CoherentParts(s: Schema, g: Graph)
    requires s.Valid() && Shaped(s, g)
    ensures Coherent(s, g) <==>
            && SumOf(Counts(g.nodes)) <= U32_MAX
            && EdgeTablesOk(s, Counts(g.nodes), g.edges)
            && (forall i | 0 <= i < |g.edges| :: UnusedEmpty(g.edges[i]))
            && PropTablesOk(s, Counts(g.nodes), g.props)
            && Paired(s, g)
  {
    hide EdgeTableOk, PropTableOk, UnusedEmpty, Paired, Schema.EdgeSlotEdge, Schema.PropertySlotProp;
  }

  lemma AcceptsFits(s: Schema, g: Graph, d: GraphDiff)
    requires Shaped(s, g) && WellKinded(s, d) && Accepts(s, g, d)
    ensures Classify(s, g, d.changes).Ok?
    ensures var c := Classify(s, g, d.changes).value;
            && UpdatesFit(s, g, c.updates) && NewPropertiesFit(s, d.newNodes)
            && forall e <- LiveEdges(s, g.nodes, c.tombstones, d.newNodes, d.newEdges) :: LiveEdgeFits(s, e)
  {
    hide Classify, UpdatesFit, NewPropertiesFit, LiveEdges, LiveEdgeFits, SizesFit;
  }

  lemma UnusedAfter(s: Schema, g: Graph, claims: Claims, newNodes: seq<NewNode>, live: seq<LiveEdge>)
    requires Shaped(s, g) && forall i | 0 <= i < |g.edges| :: UnusedEmpty(g.edges[i])
    ensures forall i | 0 <= i < |g.edges| :: UnusedEmpty(EdgesAfter(s, g, claims, newNodes, live)[i])
  {
    hide UnusedEmpty, Kept, Inserted, SlotHalves, OfKind;
    forall i | 0 <= i < |g.edges|
      ensures UnusedEmpty(EdgesAfter(s, g, claims, newNodes, live)[i])
    {
      var k := s.EdgeSlotKind(i);
      UnusedStaysEmpty(g.edges[i], claims, i, |g.nodes[k]| + |OfKind(newNodes, k)|, SlotHalves(s, live, i));
    }
  }

  /**
   Integrity is preserved. An accepted diff with fresh edge handles takes a coherent graph to a
   coherent one exactly when the nodes still fit 32-bit ids and every node and enum the diff's
   surviving values name exists afterwards; nothing else can go wrong.
   */
  lemma DiffKeepsCoherent(s: Schema, g: Graph, d: GraphDiff)
    requires s.Valid() && Coherent(s, g) && WellKinded(s, d) && FreshHandles(s, g, d.changes) && Accepts(s, g, d)
    ensures Classify(s, g, d.changes).Ok?
    ensures Coherent(s, ApplyDiff(s, g, d))
       <==> SumOf(Counts(ApplyDiff(s, g, d).nodes)) <= U32_MAX
            && PayloadsResolve(s, g, d, Classify(s, g, d.changes).value)
  {
    hide *;
    CoherentShape(s, g);
    CoherentParts(s, g);
    AcceptsClassifies(s, g, d);
    AcceptsFits(s, g, d);
    WellKindedReads(s, d);
    var c := Classify(s, g, d.changes).value;
    var after := ApplyClassified(s, g, d, c);
    var live, counts := LiveEdges(s, g.nodes, c.tombstones, d.newNodes, d.newEdges), Counts(after.nodes);
    ShapedAfter(s, g, d, c);
    CoherentParts(s, after);
    PairedAfter(s, g, d);
    AfterParts(s, g, d, c);
    ShapedEdges(s, g);
    LiveEdgesInRange(s, g.nodes, c.tombstones, d.newNodes, d.newEdges);
    UnusedAfter(s, g, c.claims, d.newNodes, live);
    EdgesContentAfter(s, g, c.claims, d.newNodes, live, counts);
    PropsContentAfter(s, g, c.updates, d.newNodes, counts);
    PayloadsParts(s, g, d, c);
  }

  lemma PayloadsParts(s: Schema, g: Graph, d: GraphDiff, c: Classified)
    ensures var counts := Counts(NodesAfter(g.nodes, c.tombstones, d.newNodes));
            PayloadsResolve(s, g, d, c)
            <==> PropPayloadsOk(s, counts, g, c.updates, d.newNodes)
                 && LivePayloadsOk(s, counts, LiveEdges(s, g.nodes, c.tombstones, d.newNodes, d.newEdges))
  {
    hide PropPayloadsOk, LivePayloadsOk, LiveEdges, NodesAfter;
  }

  lemma AfterParts(s: Schema, g: Graph, d: GraphDiff, c: Classified)
    requires Shaped(s, g)
    ensures var after := ApplyClassified(s, g, d, c);
            var live, counts := LiveEdges(s, g.nodes, c.tombstones, d.newNodes, d.newEdges), Counts(after.nodes);
            && after.edges == EdgesAfter(s, g, c.claims, d.newNodes, live) && |after.edges| == |g.edges|
            && after.props == PropsAfter(s, g, c.updates, d.newNodes)
            && after.nodes == NodesAfter(g.nodes, c.tombstones, d.newNodes)
            && |counts| == |g.nodes| && CountsGrow(Counts(g.nodes), counts)
            && forall k | 0 <= k < |counts| :: counts[k] == |g.nodes[k]| + |OfKind(d.newNodes, k)|
  {
    hide OfKind, LiveEdges, EdgesAfter, PropsAfter;
  }
}
