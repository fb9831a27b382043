/** What passing and failing the integrity check say about the stored arrays and about what is read. */
module IntegrityLaws {
  import opened Wrappers
  import opened Storage
  import opened Schemas
  import opened Csr
  import opened Graphs
  import opened FlatGraphs
  import opened EdgeBags
  import opened NodeIndexes
  import opened HalfPairing
  import opened Outcomes
  import opened SlotChecks
  import opened Integrity
  import opened Soundness
  import opened Reading

  // ----- the stored arrays

  /** No offsets and nothing to cut, or one more offset than nodes, rising from zero to the length. */
  ghost predicate OffsetsIntact(offsets: seq<u32>, n: nat, length: nat) {
    if offsets == [] then length == 0
    else
      && |offsets| == n + 1 && offsets[0] == 0 && offsets[n] == length
      && forall i, j | 0 <= i < j <= n :: offsets[i] <= offsets[j]
  }

  predicate NodeThere(raw: RawGraph, n: RawNodeId) {
    n.kind < |raw.nodes| && n.seqNo < |raw.nodes[n.kind]|
  }

  /** The node, string or enum variant a stored value names is there, and an enum is the declared one. */
  predicate ValueIntact(s: Schema, raw: RawGraph, declared: Option<nat>, v: StoredProperty) {
    && (v.NodeId? ==> NodeThere(raw, v.node))
    && (v.String? ==> v.text < |raw.strings|)
    && (v.Enum? ==>
          && v.enumId.enumIndex < |s.variantCounts| && v.enumId.variant < s.variantCounts[v.enumId.enumIndex]
          && (declared.Some? ==> declared.value == v.enumId.enumIndex))
  }

  /** A column of the declared type: nothing for a kind without values, else typed intact values. */
  ghost predicate ColumnIntact(s: Schema, raw: RawGraph, typ: PropertyType, declared: Option<nat>, column: Column) {
    if typ == NoType then column.NoValues?
    else
      && column.Typed? && column.typ == typ
      && forall j | 0 <= j < |column.items| ::
           column.items[j].Typ() == typ && ValueIntact(s, raw, declared, column.items[j])
  }

  ghost predicate EdgeSlotIntact(s: Schema, raw: RawGraph, k: nat, d: Direction, e: nat)
    requires s.Valid() && k < |raw.nodes| && e < |s.edgeTypes|
  {
    var i := s.EdgeStorageSlot(k, d, e);
    && i < |raw.edges|
    && var slot := raw.edges[i];
       && OffsetsIntact(slot.offsets, |raw.nodes[k]|, |slot.neighbors|)
       && (forall j | 0 <= j < |slot.neighbors| :: NodeThere(raw, slot.neighbors[j]))
       && ColumnIntact(s, raw, s.edgeTypes[e], s.edgeEnums[e], slot.values)
       && (slot.values.Typed? ==> |slot.values.items| == |slot.neighbors|)
  }

  ghost predicate PropertySlotIntact(s: Schema, raw: RawGraph, k: nat, p: nat)
    requires s.Valid() && k < |raw.nodes| && p < |s.propTypes|
  {
    var i := s.PropertyStorageSlot(k, p);
    && i < |raw.props|
    && var slot := raw.props[i];
       && slot.values.Typed? && OffsetsIntact(slot.offsets, |raw.nodes[k]|, |slot.values.items|)
       && ColumnIntact(s, raw, s.propTypes[p], s.propEnums[p], slot.values)
  }

  lemma OffsetsDecided(offsets: seq<u32>, n: nat, length: nat)
    ensures Cuts(offsets, n, length) <==> OffsetsIntact(offsets, n, length)
  {
    if OffsetsIntact(offsets, n, length) && offsets != [] {
      forall i, j | 0 <= i <= j < |offsets|
        ensures offsets[i] <= offsets[j]
      {
        assert i < j ==> offsets[i] <= offsets[j];
      }
    }
  }

  lemma ColumnDecided(s: Schema, raw: RawGraph, typ: PropertyType, declared: Option<nat>, column: StorageArray)
    requires |raw.nodes| == s.nodeKinds
    ensures TypeOf(column) == typ && IdsInPool(raw.strings, Items(column))
            && ItemsOk(s, Counts(raw.nodes), raw.strings, declared, Items(column))
       <==> ColumnIntact(s, raw, typ, declared, column)
  {
    var vs := Items(column);
    forall j | 0 <= j < |vs|
      ensures vs[j] in vs
      ensures ValueIntact(s, raw, declared, vs[j])
         <==> IdInPool(raw.strings, vs[j]) && PayloadOk(s, Counts(raw.nodes), declared, Resolve(raw.strings, vs[j]))
    {
    }
  }

  lemma EdgeSlotAgrees(s: Schema, raw: RawGraph, k: nat, d: Direction, e: nat)
    requires s.Valid() && Sized(s, raw) && k < |raw.nodes| && e < |s.edgeTypes|
    ensures var i := s.EdgeStorageSlot(k, d, e);
            && i < |raw.edges| && s.EdgeSlotKind(i) == k && s.EdgeSlotEdge(i) == e
            && (EdgeSlotIntact(s, raw, k, d, e)
                <==> && EdgeSlotOk(raw.edges[i], s.edgeTypes[e], |raw.nodes[k]|, raw.strings)
                     && EdgeTableOk(s, Counts(raw.nodes), e, EdgeTable(raw.strings, raw.edges[i], |raw.nodes[k]|)))
  {
    hide Cuts, OffsetsIntact, IdsInPool, ItemsOk, ColumnIntact, EdgeTableOk, EdgeTable, PayloadOk, ValueIntact,
         Schema.EdgeStorageSlot, Schema.EdgeSlotKind, Schema.EdgeSlotEdge;
    s.EdgeSlotOf(k, d, e);
    var slot := raw.edges[s.EdgeStorageSlot(k, d, e)];
    OffsetsDecided(slot.offsets, |raw.nodes[k]|, |slot.neighbors|);
    ColumnDecided(s, raw, s.edgeTypes[e], s.edgeEnums[e], slot.values);
    if EdgeSlotOk(slot, s.edgeTypes[e], |raw.nodes[k]|, raw.strings) {
      EdgeContent(s, Counts(raw.nodes), e, slot, |raw.nodes[k]|, raw.strings);
    }
    ColumnShape(s, raw, s.edgeTypes[e], s.edgeEnums[e], slot.values);
  }

  lemma ColumnShape(s: Schema, raw: RawGraph, typ: PropertyType, declared: Option<nat>, column: StorageArray)
    ensures ColumnIntact(s, raw, typ, declared, column) ==> (column.Typed? <==> typ != NoType)
  {
  }

  lemma PropertySlotAgrees(s: Schema, raw: RawGraph, k: nat, p: nat)
    requires s.Valid() && Sized(s, raw) && k < |raw.nodes| && p < |s.propTypes|
    ensures var i := s.PropertyStorageSlot(k, p);
            && i < |raw.props| && s.PropertySlotKind(i) == k && s.PropertySlotProp(i) == p
            && (PropertySlotIntact(s, raw, k, p)
                <==> && PropSlotOk(raw.props[i], s.propTypes[p], |raw.nodes[k]|, raw.strings)
                     && PropTableOk(s, Counts(raw.nodes), p, PropTable(raw.strings, raw.props[i], |raw.nodes[k]|)))
  {
    hide Cuts, OffsetsIntact, IdsInPool, ItemsOk, ColumnIntact, PropTableOk, PropTable, PayloadOk, ValueIntact,
         Schema.PropertyStorageSlot, Schema.PropertySlotKind, Schema.PropertySlotProp;
    s.PropertySlotOf(k, p);
    var slot := raw.props[s.PropertyStorageSlot(k, p)];
    assert s.propTypes[p] in s.propTypes;
    OffsetsDecided(slot.offsets, |raw.nodes[k]|, |Items(slot.values)|);
    ColumnDecided(s, raw, s.propTypes[p], s.propEnums[p], slot.values);
    if PropSlotOk(slot, s.propTypes[p], |raw.nodes[k]|, raw.strings) {
      PropContent(s, Counts(raw.nodes), p, slot, |raw.nodes[k]|, raw.strings);
    }
  }

  // ----- both ends of every edge

  /** Among the halves of a node's list, how many lead to `far` with this value. */
  ghost function Recorded(s: Schema, raw: RawGraph, node: RawNodeId, e: nat, d: Direction, far: RawNodeId,
                       value: Option<PropertyValue>): nat
    requires s.Valid() && WellFormed(s, raw) && NodeThere(raw, node) && e < |s.edgeTypes|
  {
    multiset(ListOf(s, raw, node, e, d))[Half(far, value)]
  }

  /** Every edge is in its source's Out list as often as in its target's In list, value and all. */
  ghost predicate BothEndsAgree(s: Schema, raw: RawGraph)
    requires s.Valid() && WellFormed(s, raw)
  {
    forall a, b, e: nat, value | NodeThere(raw, a) && NodeThere(raw, b) && e < |s.edgeTypes| ::
      Recorded(s, raw, a, e, Out, b, value) == Recorded(s, raw, b, e, In, a, value)
  }

  lemma RecordedInBag(s: Schema, raw: RawGraph, src: RawNodeId, dst: RawNodeId, e: nat, d: Direction,
                      value: Option<PropertyValue>)
    requires s.Valid() && WellFormed(s, raw) && SumOf(Counts(raw.nodes)) <= U32_MAX && e < |s.edgeTypes|
    requires NodeThere(raw, if d.Out? then src else dst)
    ensures |Meaning(s, raw).edges| == s.EdgeStorageSize()
    ensures Bag(s, Meaning(s, raw).edges, d, e)[Edge(src, dst, value)]
         == Recorded(s, raw, if d.Out? then src else dst, e, d, if d.Out? then dst else src, value)
  {
    hide WellFormed, Meaning, ListOf, Bag, Counts;
    NodeKindsAre(s, raw);
    BagCount(s, raw, if d.Out? then src else dst, e, d, Half(if d.Out? then dst else src, value));
  }

  lemma NodeKindsAre(s: Schema, raw: RawGraph)
    requires s.Valid() && WellFormed(s, raw)
    ensures |raw.nodes| == s.nodeKinds && |raw.edges| == |Meaning(s, raw).edges| == s.EdgeStorageSize()
    ensures Meaning(s, raw).nodes == raw.nodes
  {
  }

  /** Whatever a side records has both its ends there. */
  lemma RecordedEndsThere(s: Schema, raw: RawGraph, d: Direction, e: nat, x: Edge<PropertyValue>)
    requires s.Valid() && WellFormed(s, raw) && SumOf(Counts(raw.nodes)) <= U32_MAX && e < |s.edgeTypes|
    requires |Meaning(s, raw).edges| == s.EdgeStorageSize()
    requires forall i | 0 <= i < |raw.edges| ::
               s.EdgeSlotEdge(i) < |s.edgeTypes|
               && EdgeTableOk(s, Counts(raw.nodes), s.EdgeSlotEdge(i), Meaning(s, raw).edges[i])
    requires x in Bag(s, Meaning(s, raw).edges, d, e)
    ensures NodeThere(raw, x.src) && NodeThere(raw, x.dst)
  {
    hide WellFormed, Bag, Schema.EdgeStorageSlot, Schema.EdgeSlotEdge, Schema.EdgeSlotKind, ValueOk;
    NodeKindsAre(s, raw);
    var edges := Meaning(s, raw).edges;
    var k, v, p := BagHas(s, edges, d, e, x);
    s.EdgeSlotOf(k, d, e);
    var i := s.EdgeStorageSlot(k, d, e);
    assert EdgeTableOk(s, Counts(raw.nodes), e, edges[i]);
    assert HalfOk(s, Counts(raw.nodes), e, edges[i].runs[v][p]);
    SumBounds(Counts(raw.nodes), k);
    RunsOfKind(s, raw, i);
  }

  lemma RunsOfKind(s: Schema, raw: RawGraph, i: nat)
    requires s.Valid() && WellFormed(s, raw) && i < |raw.edges|
    ensures i < |Meaning(s, raw).edges| && s.EdgeSlotKind(i) < |raw.nodes|
    ensures |Meaning(s, raw).edges[i].runs| == |raw.nodes[s.EdgeSlotKind(i)]|
  {
  }

  /** The halves pair up exactly when both ends of every edge agree. */
  lemma PairedIsAgreement(s: Schema, raw: RawGraph)
    requires s.Valid() && WellFormed(s, raw) && SumOf(Counts(raw.nodes)) <= U32_MAX
    requires forall i | 0 <= i < |raw.edges| ::
               i < |Meaning(s, raw).edges| && s.EdgeSlotEdge(i) < |s.edgeTypes|
               && EdgeTableOk(s, Counts(raw.nodes), s.EdgeSlotEdge(i), Meaning(s, raw).edges[i])
    ensures Paired(s, Meaning(s, raw)) <==> BothEndsAgree(s, raw)
  {
    hide WellFormed, Meaning, Counts, EdgeTableOk, Recorded, NodeThere, Edges, Schema.EdgeSlotEdge;
    NodeKindsAre(s, raw);
    var edges := Meaning(s, raw).edges;
    if Paired(s, Meaning(s, raw)) {
      forall a, b, e: nat, value | NodeThere(raw, a) && NodeThere(raw, b) && e < |s.edgeTypes|
        ensures Recorded(s, raw, a, e, Out, b, value) == Recorded(s, raw, b, e, In, a, value)
      {
        RecordedInBag(s, raw, a, b, e, Out, value);
        RecordedInBag(s, raw, a, b, e, In, value);
        assert Bag(s, edges, Out, e) == Bag(s, edges, In, e);
      }
    }
    if BothEndsAgree(s, raw) {
      forall e | 0 <= e < |s.edgeTypes|
        ensures multiset(Edges(s, edges, Out, e)) == multiset(Edges(s, edges, In, e))
      {
        assert Bag(s, edges, Out, e) == multiset(Edges(s, edges, Out, e));
        assert Bag(s, edges, In, e) == multiset(Edges(s, edges, In, e));
        forall x
          ensures Bag(s, edges, Out, e)[x] == Bag(s, edges, In, e)[x]
        {
          if x in Bag(s, edges, Out, e) {
            RecordedEndsThere(s, raw, Out, e, x);
          } else if x in Bag(s, edges, In, e) {
            RecordedEndsThere(s, raw, In, e, x);
          }
          if NodeThere(raw, x.src) && NodeThere(raw, x.dst) {
            RecordedInBag(s, raw, x.src, x.dst, e, Out, x.value);
            RecordedInBag(s, raw, x.src, x.dst, e, In, x.value);
          }
        }
      }
    }
  }

  /** Every half and every value of the graph is as its slot declares. */
  ghost predicate AllTablesOk(s: Schema, raw: RawGraph)
    requires s.Valid() && WellFormed(s, raw)
  {
    && (forall i | 0 <= i < |raw.edges| ::
          i < |Meaning(s, raw).edges| && s.EdgeSlotEdge(i) < |s.edgeTypes|
          && EdgeTableOk(s, Counts(raw.nodes), s.EdgeSlotEdge(i), Meaning(s, raw).edges[i]))
    && forall i | 0 <= i < |raw.props| ::
         i < |Meaning(s, raw).props| && s.PropertySlotProp(i) < |s.propTypes|
         && PropTableOk(s, Counts(raw.nodes), s.PropertySlotProp(i), Meaning(s, raw).props[i])
  }

  ghost predicate EdgeSlotSound(s: Schema, raw: RawGraph, i: nat)
    requires s.Valid() && i < |raw.edges|
  {
    var k, e := s.EdgeSlotKind(i), s.EdgeSlotEdge(i);
    && k < |raw.nodes| && e < |s.edgeTypes|
    && EdgeSlotOk(raw.edges[i], s.edgeTypes[e], |raw.nodes[k]|, raw.strings)
    && EdgeTableOk(s, Counts(raw.nodes), e, EdgeTable(raw.strings, raw.edges[i], |raw.nodes[k]|))
  }

  lemma EdgeSlotsIntact(s: Schema, raw: RawGraph)
    requires s.Valid() && Sized(s, raw)
    ensures (forall k: nat, d, e: nat | k < |raw.nodes| && e < |s.edgeTypes| :: EdgeSlotIntact(s, raw, k, d, e))
       <==> forall i | 0 <= i < |raw.edges| :: EdgeSlotSound(s, raw, i)
  {
    hide EdgeTableOk, EdgeSlotIntact, EdgeSlotOk, EdgeTable, Counts, Schema.EdgeStorageSlot, Schema.EdgeSlotKind,
         Schema.EdgeSlotEdge, Schema.EdgeSlotDirection;
    if forall k: nat, d, e: nat | k < |raw.nodes| && e < |s.edgeTypes| :: EdgeSlotIntact(s, raw, k, d, e) {
      forall i | 0 <= i < |raw.edges|
        ensures EdgeSlotSound(s, raw, i)
      {
        s.EdgeSlotAt(i);
        EdgeSlotAgrees(s, raw, s.EdgeSlotKind(i), s.EdgeSlotDirection(i), s.EdgeSlotEdge(i));
      }
    }
    if forall i | 0 <= i < |raw.edges| :: EdgeSlotSound(s, raw, i) {
      forall k: nat, d, e: nat | k < |raw.nodes| && e < |s.edgeTypes|
        ensures EdgeSlotIntact(s, raw, k, d, e)
      {
        EdgeSlotAgrees(s, raw, k, d, e);
        assert EdgeSlotSound(s, raw, s.EdgeStorageSlot(k, d, e));
      }
    }
  }

  ghost predicate PropertySlotSound(s: Schema, raw: RawGraph, i: nat)
    requires s.Valid() && i < |raw.props|
  {
    var k, p := s.PropertySlotKind(i), s.PropertySlotProp(i);
    && k < |raw.nodes| && p < |s.propTypes|
    && PropSlotOk(raw.props[i], s.propTypes[p], |raw.nodes[k]|, raw.strings)
    && PropTableOk(s, Counts(raw.nodes), p, PropTable(raw.strings, raw.props[i], |raw.nodes[k]|))
  }

  lemma PropertySlotsIntact(s: Schema, raw: RawGraph)
    requires s.Valid() && Sized(s, raw)
    ensures (forall k: nat, p: nat | k < |raw.nodes| && p < |s.propTypes| :: PropertySlotIntact(s, raw, k, p))
       <==> forall i | 0 <= i < |raw.props| :: PropertySlotSound(s, raw, i)
  {
    hide PropTableOk, PropertySlotIntact, PropSlotOk, PropTable, Counts, Schema.PropertyStorageSlot,
         Schema.PropertySlotKind, Schema.PropertySlotProp;
    if forall k: nat, p: nat | k < |raw.nodes| && p < |s.propTypes| :: PropertySlotIntact(s, raw, k, p) {
      forall i | 0 <= i < |raw.props|
        ensures PropertySlotSound(s, raw, i)
      {
        s.PropertySlotAt(i);
        PropertySlotAgrees(s, raw, s.PropertySlotKind(i), s.PropertySlotProp(i));
      }
    }
    if forall i | 0 <= i < |raw.props| :: PropertySlotSound(s, raw, i) {
      forall k: nat, p: nat | k < |raw.nodes| && p < |s.propTypes|
        ensures PropertySlotIntact(s, raw, k, p)
      {
        PropertySlotAgrees(s, raw, k, p);
        assert PropertySlotSound(s, raw, s.PropertyStorageSlot(k, p));
      }
    }
  }

  lemma SlotsIntact(s: Schema, raw: RawGraph)
    requires s.Valid() && Sized(s, raw)
    ensures (forall k: nat, d, e: nat | k < |raw.nodes| && e < |s.edgeTypes| :: EdgeSlotIntact(s, raw, k, d, e))
            && (forall k: nat, p: nat | k < |raw.nodes| && p < |s.propTypes| :: PropertySlotIntact(s, raw, k, p))
       <==> WellFormed(s, raw) && AllTablesOk(s, raw)
  {
    hide EdgeTableOk, PropTableOk, EdgeSlotIntact, PropertySlotIntact, EdgeSlotOk, PropSlotOk, EdgeTable, PropTable,
         Counts, Schema.EdgeSlotKind, Schema.EdgeSlotEdge, Schema.PropertySlotKind, Schema.PropertySlotProp;
    EdgeSlotsIntact(s, raw);
    PropertySlotsIntact(s, raw);
    if (forall i | 0 <= i < |raw.edges| :: EdgeSlotSound(s, raw, i))
       && forall i | 0 <= i < |raw.props| :: PropertySlotSound(s, raw, i) {
      forall i | 0 <= i < |raw.edges|
        ensures s.EdgeSlotKind(i) < |raw.nodes| && s.EdgeSlotEdge(i) < |s.edgeTypes|
        ensures EdgeSlotOk(raw.edges[i], s.edgeTypes[s.EdgeSlotEdge(i)], |raw.nodes[s.EdgeSlotKind(i)]|, raw.strings)
        ensures EdgeTableOk(s, Counts(raw.nodes), s.EdgeSlotEdge(i),
                            EdgeTable(raw.strings, raw.edges[i], |raw.nodes[s.EdgeSlotKind(i)]|))
      {
        assert EdgeSlotSound(s, raw, i);
      }
      forall i | 0 <= i < |raw.props|
        ensures s.PropertySlotKind(i) < |raw.nodes| && s.PropertySlotProp(i) < |s.propTypes|
        ensures PropSlotOk(raw.props[i], s.propTypes[s.PropertySlotProp(i)], |raw.nodes[s.PropertySlotKind(i)]|,
                           raw.strings)
        ensures PropTableOk(s, Counts(raw.nodes), s.PropertySlotProp(i),
                            PropTable(raw.strings, raw.props[i], |raw.nodes[s.PropertySlotKind(i)]|))
      {
        assert PropertySlotSound(s, raw, i);
      }
    }
    if WellFormed(s, raw) && AllTablesOk(s, raw) {
      forall i | 0 <= i < |raw.edges|
        ensures EdgeSlotSound(s, raw, i)
      {
      }
      forall i | 0 <= i < |raw.props|
        ensures PropertySlotSound(s, raw, i)
      {
      }
    }
  }

  lemma CoherentSplits(s: Schema, raw: RawGraph)
    requires s.Valid() && WellFormed(s, raw)
    ensures Coherent(s, Meaning(s, raw))
       <==> SumOf(Counts(raw.nodes)) <= U32_MAX && AllTablesOk(s, raw) && Paired(s, Meaning(s, raw))
  {
    hide WellFormed, Meaning, Paired, EdgeTableOk, PropTableOk, Shaped, UnusedEmpty, Counts, Schema.EdgeSlotEdge,
         Schema.PropertySlotProp;
    MeaningReads(s, raw);
  }

  /**
   What the integrity check passes, told from the stored arrays: storages of the schema's sizes,
   nodes within 32-bit ids, every slot's offsets, neighbours and column intact, and every edge in
   its source's Out list as often as in its target's In list, value and all.
   */
  lemma SoundExactly(s: Schema, raw: RawGraph)
    requires s.Valid() && Distinct(raw.strings)
    ensures Sound(s, raw)
       <==> && |raw.nodes| == s.nodeKinds && |raw.edges| == s.EdgeStorageSize()
            && |raw.props| == s.PropertyStorageSize()
            && SumOf(Counts(raw.nodes)) <= U32_MAX
            && (forall k: nat, d, e: nat | k < |raw.nodes| && e < |s.edgeTypes| :: EdgeSlotIntact(s, raw, k, d, e))
            && (forall k: nat, p: nat | k < |raw.nodes| && p < |s.propTypes| :: PropertySlotIntact(s, raw, k, p))
            && WellFormed(s, raw) && BothEndsAgree(s, raw)
  {
    hide WellFormed, Coherent, Meaning, Counts, EdgeSlotIntact, PropertySlotIntact, BothEndsAgree, Paired;
    if Sized(s, raw) {
      SlotsIntact(s, raw);
      if WellFormed(s, raw) {
        CoherentSplits(s, raw);
        if SumOf(Counts(raw.nodes)) <= U32_MAX && AllTablesOk(s, raw) {
          PairedIsAgreement(s, raw);
        }
      }
    } else if WellFormed(s, raw) {
      WellFormedIsSized(s, raw);
    }
  }

  lemma WellFormedIsSized(s: Schema, raw: RawGraph)
    requires s.Valid() && WellFormed(s, raw)
    ensures Sized(s, raw)
  {
  }

  // ----- what a failed pairing says

  /** The edges of a kind can be paired: their slots passed, and nodes are numbered within 32 bits. */
  ghost predicate Pairable(s: Schema, raw: RawGraph, index: NodeIndex, e: nat) {
    && s.Valid() && Sized(s, raw) && WellFormed(s, raw) && Distinct(raw.strings) && e < |s.edgeTypes|
    && First(EdgeOutcomes(s, raw)).Ok? && SumOf(Counts(raw.nodes)) <= U32_MAX && Indexes(index, Counts(raw.nodes))
  }

  lemma PairableReads(s: Schema, raw: RawGraph, index: NodeIndex, e: nat)
    requires Pairable(s, raw, index, e)
    ensures s.Valid() && Sized(s, raw) && WellFormed(s, raw) && Distinct(raw.strings) && e < |s.edgeTypes|
    ensures First(EdgeOutcomes(s, raw)).Ok? && SumOf(Counts(raw.nodes)) <= U32_MAX && Indexes(index, Counts(raw.nodes))
    ensures |Meaning(s, raw).edges| == |StoredTables(s, raw)| == s.EdgeStorageSize()
  {
    hide First, EdgeOutcomes, Indexes, Counts;
  }

  /** A stored edge is in its side's canonical list as often as the graph records it in that direction. */
  lemma CanonicalCount(s: Schema, raw: RawGraph, index: NodeIndex, e: nat, d: Direction, x: Edge<StoredProperty>)
    requires Pairable(s, raw, index, e) && Sized(s, raw) && e < |s.edgeTypes|
    requires EdgeKnown(Counts(raw.nodes), raw.strings, s.edgeTypes[e], x)
    ensures WellFormed(s, raw) && s.Valid() && |Meaning(s, raw).edges| == s.EdgeStorageSize()
    ensures multiset(SideOf(s, raw, index, d, e))[DenseOf(index, x)]
         == Bag(s, Meaning(s, raw).edges, d, e)[ResolvedEdge(raw.strings, x)]
  {
    hide *;
    PairableReads(s, raw, index, e);
    var stored := Edges(s, StoredTables(s, raw), d, e);
    var dense, resolved := x => DenseOf(index, x), x => ResolvedEdge(raw.strings, x);
    forall y | y in multiset(stored)
      ensures dense(y) == dense(x) ==> y == x
      ensures resolved(y) == resolved(x) ==> y == x
    {
      BagIs(s, StoredTables(s, raw), d, e);
      StoredEdgeKnown(s, raw, d, e, y);
      DenseInjective(index, Counts(raw.nodes), raw.strings, s.edgeTypes[e], y, x);
    }
    MappedCount(dense, stored, x);
    MappedCount(resolved, stored, x);
    EdgesAgree(s, raw, d, e);
    SideIsMapped(s, raw, index, d, e);
    BagIs(s, Meaning(s, raw).edges, d, e);
  }

  lemma BagIs<V>(s: Schema, edges: seq<Table<Half<V>>>, d: Direction, e: nat)
    requires e < |s.edgeTypes| && |edges| == s.EdgeStorageSize()
    ensures Bag(s, edges, d, e) == multiset(Edges(s, edges, d, e))
  {
  }

  lemma SideIsMapped(s: Schema, raw: RawGraph, index: NodeIndex, d: Direction, e: nat)
    requires Sized(s, raw) && e < |s.edgeTypes|
    ensures SideOf(s, raw, index, d, e) == Mapped(x => DenseOf(index, x), Edges(s, StoredTables(s, raw), d, e))
  {
    hide Edges, StoredTables, DenseOf;
  }

  /** A canonical half of a side comes from a stored edge, whose ends its numbers resolve to. */
  lemma CanonicalFrom(s: Schema, raw: RawGraph, index: NodeIndex, e: nat, d: Direction, h: HalfEdge)
    returns (x: Edge<StoredProperty>)
    requires Pairable(s, raw, index, e) && Sized(s, raw) && e < |s.edgeTypes|
    requires h in multiset(SideOf(s, raw, index, d, e))
    ensures DenseOf(index, x) == h && EdgeKnown(Counts(raw.nodes), raw.strings, s.edgeTypes[e], x)
    ensures ResolveDense(index, h.src) == x.src && ResolveDense(index, h.dst) == x.dst
    ensures NodeThere(raw, x.src) && NodeThere(raw, x.dst)
  {
    hide First, EdgeOutcomes, WellFormed, Indexes, StoredTables, SideOf, Edges, Densify, ResolveDense;
    PairableReads(s, raw, index, e);
    SideIsMapped(s, raw, index, d, e);
    x := MappedMember(y => DenseOf(index, y), Edges(s, StoredTables(s, raw), d, e), h);
    BagIs(s, StoredTables(s, raw), d, e);
    StoredEdgeKnown(s, raw, d, e, x);
    ResolveUndoes(index, Counts(raw.nodes), x.src);
    ResolveUndoes(index, Counts(raw.nodes), x.dst);
  }

  /** Seen from its own side, how often the edge `x` is recorded there. */
  ghost function RecordedFrom(s: Schema, raw: RawGraph, e: nat, d: Direction, src: RawNodeId, dst: RawNodeId,
                              value: Option<PropertyValue>): nat
    requires s.Valid() && WellFormed(s, raw) && NodeThere(raw, src) && NodeThere(raw, dst) && e < |s.edgeTypes|
  {
    if d.Out? then Recorded(s, raw, src, e, Out, dst, value) else Recorded(s, raw, dst, e, In, src, value)
  }

  /** What an error of the pairing names really differs. */
  ghost predicate Justified(s: Schema, raw: RawGraph, e: nat, error: Error)
    requires s.Valid() && WellFormed(s, raw) && e < |s.edgeTypes|
  {
    if error.ReverseEdgeNotFound? then
      var (node, target, d) := (error.node, error.target, error.direction);
      && error.edgeKind == e && NodeThere(raw, node) && NodeThere(raw, target)
      && exists value ::
           Recorded(s, raw, node, e, d, target, value) > Recorded(s, raw, target, e, d.Flip(), node, value)
    else
      && error.EdgeHalfPropertyMismatch? && error.edgeKind == e
      && NodeThere(raw, error.src) && NodeThere(raw, error.dst)
      && (exists value ::
            Recorded(s, raw, error.src, e, Out, error.dst, value)
            != Recorded(s, raw, error.dst, e, In, error.src, value))
      && (exists value :: Recorded(s, raw, error.src, e, Out, error.dst, value) > 0)
      && (exists value :: Recorded(s, raw, error.dst, e, In, error.src, value) > 0)
  }

  /**
   An error of the pairing points at a real difference: a missing reverse at a node whose list, in
   the direction named, leads to the target more often with some value than the target's list
   leads back; a value mismatch at two nodes that both record an edge between them but not equally
   often with some value.
   */
  lemma PairingErrorIsJustified(s: Schema, raw: RawGraph, index: NodeIndex, e: nat, error: Error)
    requires Pairable(s, raw, index, e) && Sized(s, raw) && e < |s.edgeTypes|
    requires CheckHalfEdgePairing(e, index, SideOf(s, raw, index, Out, e), SideOf(s, raw, index, In, e)) == Err(error)
    ensures s.Valid() && WellFormed(s, raw) && Justified(s, raw, e, error)
  {
    hide Pairable, CheckHalfEdgePairing, SideOf, ResolveDense, DenseOf, WellFormed, Recorded, Justified, LeastSurplus,
         EdgeKnown, NodeThere;
    PairableReads(s, raw, index, e);
    var outs, ins := multiset(SideOf(s, raw, index, Out, e)), multiset(SideOf(s, raw, index, In, e));
    PairingDecides(e, index, SideOf(s, raw, index, Out, e), SideOf(s, raw, index, In, e));
    var w: Witness :| LeastSurplus(outs, ins, w) && error == Reported(e, index, w, OtherValueBeyond(outs, ins, w));
    SurplusCounts(outs, ins, w);
    var x := CanonicalFrom(s, raw, index, e, w.side, w.half);
    var value := ResolvedEdge(raw.strings, x).value;
    CanonicalRecorded(s, raw, index, e, Out, x);
    CanonicalRecorded(s, raw, index, e, In, x);
    if OtherValueBeyond(outs, ins, w) {
      var h :| h in (if w.side.Out? then ins else outs) && SameEnds(h, w.half);
      var y := CanonicalFrom(s, raw, index, e, w.side.Flip(), h);
      CanonicalRecorded(s, raw, index, e, w.side.Flip(), y);
      MismatchJustified(s, raw, e, w.side, x.src, x.dst, value, ResolvedEdge(raw.strings, y).value);
    } else {
      MissingJustified(s, raw, e, w.side, x.src, x.dst, value);
    }
  }

  lemma SurplusCounts(outs: multiset<HalfEdge>, ins: multiset<HalfEdge>, w: Witness)
    requires LeastSurplus(outs, ins, w)
    ensures if w.side.Out? then outs[w.half] > ins[w.half] else ins[w.half] > outs[w.half]
  {
  }

  lemma CanonicalRecorded(s: Schema, raw: RawGraph, index: NodeIndex, e: nat, d: Direction, x: Edge<StoredProperty>)
    requires Pairable(s, raw, index, e) && Sized(s, raw) && e < |s.edgeTypes|
    requires EdgeKnown(Counts(raw.nodes), raw.strings, s.edgeTypes[e], x)
    ensures s.Valid() && WellFormed(s, raw) && NodeThere(raw, x.src) && NodeThere(raw, x.dst)
    ensures multiset(SideOf(s, raw, index, d, e))[DenseOf(index, x)]
         == RecordedFrom(s, raw, e, d, x.src, x.dst, ResolvedEdge(raw.strings, x).value)
  {
    hide Pairable, SideOf, DenseOf, WellFormed, Recorded, Bag, Resolve;
    PairableReads(s, raw, index, e);
    CanonicalCount(s, raw, index, e, d, x);
    RecordedInBag(s, raw, x.src, x.dst, e, d, ResolvedEdge(raw.strings, x).value);
  }

  lemma MissingJustified(s: Schema, raw: RawGraph, e: nat, side: Direction, src: RawNodeId, dst: RawNodeId,
                         value: Option<PropertyValue>)
    requires s.Valid() && WellFormed(s, raw) && e < |s.edgeTypes| && NodeThere(raw, src) && NodeThere(raw, dst)
    requires RecordedFrom(s, raw, e, side, src, dst, value) > RecordedFrom(s, raw, e, side.Flip(), src, dst, value)
    ensures var (node, target) := if side.Out? then (src, dst) else (dst, src);
            Justified(s, raw, e, ReverseEdgeNotFound(target, node, side, e))
  {
    hide WellFormed, Recorded, NodeThere;
  }

  lemma MismatchJustified(s: Schema, raw: RawGraph, e: nat, side: Direction, src: RawNodeId, dst: RawNodeId,
                          value: Option<PropertyValue>, other: Option<PropertyValue>)
    requires s.Valid() && WellFormed(s, raw) && e < |s.edgeTypes| && NodeThere(raw, src) && NodeThere(raw, dst)
    requires RecordedFrom(s, raw, e, side, src, dst, value) > RecordedFrom(s, raw, e, side.Flip(), src, dst, value)
    requires RecordedFrom(s, raw, e, side.Flip(), src, dst, other) > 0
    ensures Justified(s, raw, e, EdgeHalfPropertyMismatch(e, src, dst))
  {
    hide WellFormed, Recorded, NodeThere;
  }

  /** Where all slots pass, what the check fails with is a real difference between two nodes' lists. */
  lemma FailedPairingIsReal(s: Schema, raw: RawGraph, index: NodeIndex, error: Error) returns (e: nat)
    requires s.Valid() && Sized(s, raw) && Distinct(raw.strings)
    requires SumOf(Counts(raw.nodes)) <= U32_MAX && Indexes(index, Counts(raw.nodes))
    requires First(PropertyOutcomes(s, raw)).Ok? && First(EdgeOutcomes(s, raw)).Ok?
    requires SlotsVerdict(s, raw, index) == Err(error)
    ensures WellFormed(s, raw) && e < |s.edgeTypes| && Justified(s, raw, e, error)
  {
    hide First, PropertyOutcomes, EdgeOutcomes, WellFormed, Justified, Indexes, Counts, CheckHalfEdgePairing, SideOf;
    SlotsDecided(s, raw);
    e := FirstFrom(PairingOutcomes(s, raw, index));
    PairingErrorIsJustified(s, raw, index, e, error);
  }
}
