/** The integrity check passes exactly the sound graphs. */
module Soundness {
  import opened Wrappers
  import opened Storage
  import opened Schemas
  import opened Csr
  import opened Graphs
  import opened FlatGraphs
  import opened EdgeBags
  import opened NodeIndexes
  import opened HalfPairing
  import opened ValueKeys
  import opened Outcomes
  import opened SlotChecks
  import opened Integrity

  // ----- renaming the members of a multiset

  function Mapped<A, B>(f: A -> B, xs: seq<A>): (r: seq<B>)
    ensures |r| == |xs|
  {
    seq(|xs|, i requires 0 <= i < |xs| => f(xs[i]))
  }

  ghost predicate InjectiveOn<A(!new), B>(f: A -> B, members: multiset<A>) {
    forall x, y | x in members && y in members && f(x) == f(y) :: x == y
  }

  lemma {:induction false} MappedCount<A(!new), B>(f: A -> B, xs: seq<A>, x: A)
    requires forall y | y in multiset(xs) && f(y) == f(x) :: y == x
    ensures multiset(Mapped(f, xs))[f(x)] == multiset(xs)[x]
  {
    if xs != [] {
      var last := |xs| - 1;
      assert xs == xs[..last] + [xs[last]];
      assert Mapped(f, xs) == Mapped(f, xs[..last]) + [f(xs[last])];
      assert forall y | y in multiset(xs[..last]) :: y in multiset(xs);
      MappedCount(f, xs[..last], x);
      assert xs[last] in multiset(xs);
    }
  }

  lemma MappedMember<A, B>(f: A -> B, xs: seq<A>, z: B) returns (x: A)
    requires z in multiset(Mapped(f, xs))
    ensures x in multiset(xs) && f(x) == z
  {
    assert z in Mapped(f, xs);
    var i :| 0 <= i < |xs| && Mapped(f, xs)[i] == z;
    x := xs[i];
  }

  /** An injective renaming neither merges nor splits multisets. */
  lemma MappedBags<A(!new), B>(f: A -> B, xs: seq<A>, ys: seq<A>)
    requires InjectiveOn(f, multiset(xs) + multiset(ys))
    ensures multiset(Mapped(f, xs)) == multiset(Mapped(f, ys)) <==> multiset(xs) == multiset(ys)
  {
    forall x | x in multiset(xs) + multiset(ys)
      ensures multiset(Mapped(f, xs))[f(x)] == multiset(xs)[x] && multiset(Mapped(f, ys))[f(x)] == multiset(ys)[x]
    {
      MappedCount(f, xs, x);
      MappedCount(f, ys, x);
    }
    if multiset(Mapped(f, xs)) == multiset(Mapped(f, ys)) {
      forall x
        ensures multiset(xs)[x] == multiset(ys)[x]
      {
        assert x in multiset(xs) + multiset(ys) ==> multiset(xs)[x] == multiset(ys)[x];
      }
    }
    if multiset(xs) == multiset(ys) {
      forall z
        ensures multiset(Mapped(f, xs))[z] == multiset(Mapped(f, ys))[z]
      {
        if z in multiset(Mapped(f, xs)) {
          var x := MappedMember(f, xs, z);
          assert x in multiset(xs) + multiset(ys);
        }
        if z in multiset(Mapped(f, ys)) {
          var x := MappedMember(f, ys, z);
          assert x in multiset(xs) + multiset(ys);
        }
      }
    }
  }

  // ----- stored edges, numbered edges and edges

  function ResolvedEdge(strings: seq<Text>, x: Edge<StoredProperty>): Edge<PropertyValue> {
    Edge(x.src, x.dst, if x.value.Some? then Some(Resolve(strings, x.value.value)) else None)
  }

  function ResolvedHalfEdge(strings: seq<Text>, h: Half<StoredProperty>): Half<PropertyValue> {
    Half(h.neighbor, if h.value.Some? then Some(Resolve(strings, h.value.value)) else None)
  }

  /** Runs that read the same once their strings are looked up. */
  ghost predicate SameRuns(strings: seq<Text>, a: seq<seq<Half<StoredProperty>>>, b: seq<seq<Half<PropertyValue>>>) {
    && |a| == |b|
    && forall v | 0 <= v < |a| :: b[v] == Mapped(h => ResolvedHalfEdge(strings, h), a[v])
  }

  lemma StoredRunsAgree(strings: seq<Text>, slot: EdgeSlot, n: nat)
    requires Cuts(slot.offsets, n, |slot.neighbors|)
    ensures SameRuns(strings, StoredTable(slot, n).runs, EdgeTable(strings, slot, n).runs)
  {
    var a, b := StoredTable(slot, n).runs, EdgeTable(strings, slot, n).runs;
    forall v | 0 <= v < n
      ensures b[v] == Mapped(h => ResolvedHalfEdge(strings, h), a[v])
    {
      RunLength(slot.offsets, StoredHalves(slot), n, v);
      RunLength(slot.offsets, Halves(strings, slot), n, v);
      forall p | 0 <= p < |a[v]|
        ensures b[v][p] == ResolvedHalfEdge(strings, a[v][p])
      {
        assert a[v][p] == StoredHalves(slot)[slot.offsets[v] + p]
               && b[v][p] == Halves(strings, slot)[slot.offsets[v] + p];
      }
    }
  }

  lemma {:induction false} KindEdgesAgree(strings: seq<Text>, kind: nat, d: Direction,
                                          a: seq<seq<Half<StoredProperty>>>, b: seq<seq<Half<PropertyValue>>>)
    requires SameRuns(strings, a, b)
    ensures KindEdges(kind, d, b) == Mapped(x => ResolvedEdge(strings, x), KindEdges(kind, d, a))
  {
    var f := x => ResolvedEdge(strings, x);
    if a != [] {
      var last := |a| - 1;
      KindEdgesAgree(strings, kind, d, a[..last], b[..last]);
      var owner := NodeAt(kind, last);
      assert RunEdges(owner, d, b[last]) == Mapped(f, RunEdges(owner, d, a[last]));
      assert Mapped(f, KindEdges(kind, d, a))
          == Mapped(f, KindEdges(kind, d, a[..last])) + Mapped(f, RunEdges(owner, d, a[last]));
    }
  }

  lemma {:induction false} BlockEdgesAgree(strings: seq<Text>, d: Direction, a: seq<Table<Half<StoredProperty>>>,
                                           b: seq<Table<Half<PropertyValue>>>)
    requires |a| == |b| && forall k | 0 <= k < |a| :: SameRuns(strings, a[k].runs, b[k].runs)
    ensures BlockEdges(d, b) == Mapped(x => ResolvedEdge(strings, x), BlockEdges(d, a))
  {
    hide SameRuns, KindEdges;
    var f := x => ResolvedEdge(strings, x);
    if a != [] {
      var last := |a| - 1;
      BlockEdgesAgree(strings, d, a[..last], b[..last]);
      KindEdgesAgree(strings, last, d, a[last].runs, b[last].runs);
      assert Mapped(f, BlockEdges(d, a))
             == Mapped(f, BlockEdges(d, a[..last])) + Mapped(f, KindEdges(last, d, a[last].runs));
    }
  }

  /** The edges of the abstract graph are the stored ones with their strings looked up. */
  lemma EdgesAgree(s: Schema, raw: RawGraph, d: Direction, e: nat)
    requires s.Valid() && Sized(s, raw) && WellFormed(s, raw) && e < |s.edgeTypes|
    ensures Edges(s, Meaning(s, raw).edges, d, e)
         == Mapped(x => ResolvedEdge(raw.strings, x), Edges(s, StoredTables(s, raw), d, e))
  {
    hide SameRuns, BlockEdges, Mapped, StoredTable, EdgeTable, Monotone, IdsInPool, Schema.EdgeSlotKind,
         Schema.EdgeSlotEdge;
    BlockBounds(s, d, e);
    var stored, meant := StoredTables(s, raw), Meaning(s, raw).edges;
    var a, b := Block(s, stored, d, e), Block(s, meant, d, e);
    forall k | 0 <= k < |a|
      ensures SameRuns(raw.strings, a[k].runs, b[k].runs)
    {
      var i := s.EdgeBlock(d, e) + k;
      assert a[k] == stored[i] && b[k] == meant[i];
      StoredRunsAgree(raw.strings, raw.edges[i], |raw.nodes[s.EdgeSlotKind(i)]|);
    }
    BlockEdgesAgree(raw.strings, d, a, b);
  }

  /** Both ends exist, and a value is there exactly if the kind declares one, of that type and known to the pool. */
  ghost predicate EdgeKnown(counts: seq<nat>, strings: seq<Text>, typ: PropertyType, x: Edge<StoredProperty>) {
    && NodeIn(counts, x.src) && NodeIn(counts, x.dst)
    && (x.value.None? <==> typ == NoType)
    && (x.value.Some? ==> x.value.value.Typ() == typ && IdInPool(strings, x.value.value))
  }

  lemma StoredEdgeKnown(s: Schema, raw: RawGraph, d: Direction, e: nat, x: Edge<StoredProperty>)
    requires s.Valid() && Sized(s, raw) && First(EdgeOutcomes(s, raw)).Ok? && SumOf(Counts(raw.nodes)) <= U32_MAX
    requires e < |s.edgeTypes| && x in Bag(s, StoredTables(s, raw), d, e)
    ensures EdgeKnown(Counts(raw.nodes), raw.strings, s.edgeTypes[e], x)
  {
    hide Bag, BlockEdges, KindEdges, EdgeSlotOutcome, Schema.EdgeSlotKind, Schema.EdgeSlotEdge, Schema.EdgeStorageSlot,
         PayloadOk;
    var k, v, p := BagHas(s, StoredTables(s, raw), d, e, x);
    s.EdgeSlotOf(k, d, e);
    var i := s.EdgeStorageSlot(k, d, e);
    FirstOk(EdgeOutcomes(s, raw));
    EdgeOutcomeAt(s, raw, i);
    EdgeSlotDecided(s, raw, i);
    var slot, counts, n := raw.edges[i], Counts(raw.nodes), |raw.nodes[k]|;
    RunLength(slot.offsets, StoredHalves(slot), n, v);
    var at := slot.offsets[v] + p;
    var half := StoredTable(slot, n).runs[v][p];
    assert half == StoredHalves(slot)[at];
    assert EdgeTable(raw.strings, slot, n).runs[v][p] == Halves(raw.strings, slot)[at];
    assert HalfOk(s, counts, e, EdgeTable(raw.strings, slot, n).runs[v][p]);
    SumBounds(counts, k);
    assert NodeAt(k, v) == RawNodeId(k, v);
    if half.value.Some? {
      assert half.value.value in Items(slot.values);
    }
  }

  lemma DenseInjective(index: NodeIndex, counts: seq<nat>, strings: seq<Text>, typ: PropertyType,
                       x: Edge<StoredProperty>, y: Edge<StoredProperty>)
    requires Indexes(index, counts) && Distinct(strings)
    requires EdgeKnown(counts, strings, typ, x) && EdgeKnown(counts, strings, typ, y)
    ensures DenseOf(index, x) == DenseOf(index, y) <==> x == y
    ensures ResolvedEdge(strings, x) == ResolvedEdge(strings, y) <==> x == y
  {
    hide Densify, Key, Resolve;
    DensifyRises(index, counts, x.src, y.src);
    DensifyRises(index, counts, x.dst, y.dst);
    if x.value.Some? {
      KeysOrderValues(x.value.value, y.value.value);
      ResolveInjective(strings, x.value.value, y.value.value);
    }
  }

  /** Numbered ends and value keys compare as the node ids and values themselves do. */
  lemma PairingMeans(s: Schema, raw: RawGraph, index: NodeIndex, e: nat)
    requires s.Valid() && Sized(s, raw) && WellFormed(s, raw) && Distinct(raw.strings) && e < |s.edgeTypes|
    requires First(EdgeOutcomes(s, raw)).Ok? && SumOf(Counts(raw.nodes)) <= U32_MAX && Indexes(index, Counts(raw.nodes))
    ensures CheckHalfEdgePairing(e, index, SideOf(s, raw, index, Out, e), SideOf(s, raw, index, In, e)).Ok?
       <==> multiset(Edges(s, Meaning(s, raw).edges, Out, e)) == multiset(Edges(s, Meaning(s, raw).edges, In, e))
  {
    hide Edges, EdgeOutcomes, First, WellFormed, Indexes, CheckHalfEdgePairing, StoredTables, DenseOf, ResolvedEdge,
         EdgeKnown;
    var stored := StoredTables(s, raw);
    var outs, ins := Edges(s, stored, Out, e), Edges(s, stored, In, e);
    var dense, resolved := x => DenseOf(index, x), x => ResolvedEdge(raw.strings, x);
    forall x | x in multiset(outs) + multiset(ins)
      ensures EdgeKnown(Counts(raw.nodes), raw.strings, s.edgeTypes[e], x)
    {
      if x in multiset(outs) {
        StoredEdgeKnown(s, raw, Out, e, x);
      } else {
        StoredEdgeKnown(s, raw, In, e, x);
      }
    }
    forall x, y | x in multiset(outs) + multiset(ins) && y in multiset(outs) + multiset(ins)
      ensures (dense(x) == dense(y) ==> x == y) && (resolved(x) == resolved(y) ==> x == y)
    {
      DenseInjective(index, Counts(raw.nodes), raw.strings, s.edgeTypes[e], x, y);
    }
    MappedBags(dense, outs, ins);
    MappedBags(resolved, outs, ins);
    assert SideOf(s, raw, index, Out, e) == Mapped(dense, outs) && SideOf(s, raw, index, In, e) == Mapped(dense, ins);
    PairingDecides(e, index, SideOf(s, raw, index, Out, e), SideOf(s, raw, index, In, e));
    EdgesAgree(s, raw, Out, e);
    EdgesAgree(s, raw, In, e);
  }

  // ----- the whole check

  lemma SlotsDecided(s: Schema, raw: RawGraph)
    requires s.Valid() && Sized(s, raw)
    ensures First(PropertyOutcomes(s, raw)).Ok? && First(EdgeOutcomes(s, raw)).Ok?
       <==> WellFormed(s, raw)
            && (forall i | 0 <= i < |raw.edges| ::
                  s.EdgeSlotEdge(i) < |s.edgeTypes|
                  && EdgeTableOk(s, Counts(raw.nodes), s.EdgeSlotEdge(i), Meaning(s, raw).edges[i]))
            && forall i | 0 <= i < |raw.props| ::
                 s.PropertySlotProp(i) < |s.propTypes|
                 && PropTableOk(s, Counts(raw.nodes), s.PropertySlotProp(i), Meaning(s, raw).props[i])
  {
    hide EdgeSlotOk, PropSlotOk, EdgeTableOk, PropTableOk, EdgeTable, PropTable, EdgeSlotOutcome, CheckPropertySlot,
         Schema.EdgeSlotKind, Schema.EdgeSlotEdge, Schema.PropertySlotKind, Schema.PropertySlotProp, Counts;
    FirstOk(PropertyOutcomes(s, raw));
    FirstOk(EdgeOutcomes(s, raw));
    forall i | 0 <= i < |raw.edges|
      ensures s.EdgeSlotKind(i) < |raw.nodes| && s.EdgeSlotEdge(i) < |s.edgeTypes|
      ensures EdgeOutcomes(s, raw)[i].Ok?
         <==> && EdgeSlotOk(raw.edges[i], s.edgeTypes[s.EdgeSlotEdge(i)], |raw.nodes[s.EdgeSlotKind(i)]|, raw.strings)
              && EdgeTableOk(s, Counts(raw.nodes), s.EdgeSlotEdge(i),
                             EdgeTable(raw.strings, raw.edges[i], |raw.nodes[s.EdgeSlotKind(i)]|))
    {
      EdgeSlotDecided(s, raw, i);
    }
    forall i | 0 <= i < |raw.props|
      ensures s.PropertySlotKind(i) < |raw.nodes| && s.PropertySlotProp(i) < |s.propTypes|
      ensures PropertyOutcomes(s, raw)[i].Ok?
         <==> && PropSlotOk(raw.props[i], s.propTypes[s.PropertySlotProp(i)], |raw.nodes[s.PropertySlotKind(i)]|,
                            raw.strings)
              && PropTableOk(s, Counts(raw.nodes), s.PropertySlotProp(i),
                             PropTable(raw.strings, raw.props[i], |raw.nodes[s.PropertySlotKind(i)]|))
    {
      PropertySlotDecided(s, raw, i);
    }
  }

  lemma MeaningReads(s: Schema, raw: RawGraph)
    requires s.Valid() && WellFormed(s, raw)
    ensures var g := Meaning(s, raw);
            && g.nodes == raw.nodes && |g.edges| == |raw.edges| && |g.props| == |raw.props|
            && Shaped(s, g)
            && forall i | 0 <= i < |g.edges| :: UnusedEmpty(g.edges[i])
  {
  }

  /** Slots, values and pairing are all in order exactly when the graph is sound. */
  lemma VerdictIsSound(s: Schema, raw: RawGraph, index: NodeIndex)
    requires s.Valid() && Sized(s, raw) && Distinct(raw.strings)
    requires SumOf(Counts(raw.nodes)) <= U32_MAX && Indexes(index, Counts(raw.nodes))
    ensures SlotsVerdict(s, raw, index).Ok? <==> Sound(s, raw)
  {
    hide PropertyOutcomes, EdgeOutcomes, WellFormed, Meaning, EdgeTableOk, PropTableOk, UnusedEmpty, Shaped, Counts,
         Edges, SideOf, CheckHalfEdgePairing, Indexes, Schema.EdgeSlotEdge, Schema.PropertySlotProp;
    SlotsDecided(s, raw);
    FirstOk(PairingOutcomes(s, raw, index));
    if WellFormed(s, raw) {
      MeaningReads(s, raw);
      if First(EdgeOutcomes(s, raw)).Ok? {
        forall e | 0 <= e < |s.edgeTypes|
          ensures PairingOutcomes(s, raw, index)[e].Ok?
             <==> multiset(Edges(s, Meaning(s, raw).edges, Out, e)) == multiset(Edges(s, Meaning(s, raw).edges, In, e))
        {
          PairingMeans(s, raw, index, e);
        }
      }
    }
  }

  function CheckStorageSizes(s: Schema, raw: RawGraph): Outcome<Error> {
    if |raw.nodes| != s.nodeKinds then Err(StorageSizeMismatch(s.nodeKinds, |raw.nodes|))
    else if |raw.edges| != s.EdgeStorageSize() then Err(StorageSizeMismatch(s.EdgeStorageSize(), |raw.edges|))
    else if |raw.props| != s.PropertyStorageSize() then Err(StorageSizeMismatch(s.PropertyStorageSize(), |raw.props|))
    else Ok(())
  }

  /**
   The integrity check is sound and complete: over a pool of distinct strings it passes exactly
   the graphs whose storage is well formed, whose nodes fit 32-bit ids, whose values name what
   exists, and whose Out and In halves are, kind by kind, the same multiset of edges. What fails
   first decides the error: sizes, the node total, then the slots and pairings in order.
   */
  method CheckIntegrity(s: Schema, raw: RawGraph) returns (r: Outcome<Error>)
    requires s.Valid() && Distinct(raw.strings)
    ensures r.Ok? <==> Sound(s, raw)
    ensures !Sized(s, raw) ==> r.Err? && r.error.StorageSizeMismatch?
    ensures Sized(s, raw) && SumOf(Counts(raw.nodes)) > U32_MAX ==> r.Err? && r.error.NodeCountOverflow?
    ensures Sized(s, raw) && SumOf(Counts(raw.nodes)) <= U32_MAX ==>
              exists index: NodeIndex :: Indexes(index, Counts(raw.nodes)) && r == SlotsVerdict(s, raw, index)
  {
    hide SlotsVerdict, Counts, Coherent, Indexes, Meaning;
    r := CheckStorageSizes(s, raw);
    if r.Err? {
      return r;
    }
    var counts := seq(|raw.nodes|, k requires 0 <= k < |raw.nodes| => |raw.nodes[k]|);
    CountsAre(raw.nodes, counts);
    var index := NewNodeIndex(counts);
    if index.Err? {
      if Sound(s, raw) {
        SoundFits(s, raw);
      }
      return Err(index.error);
    }
    VerdictIsSound(s, raw, index.value);
    r := CheckSlots(s, raw, index.value);
  }

  lemma CountsAre(nodes: seq<seq<bool>>, counts: seq<nat>)
    requires counts == seq(|nodes|, k requires 0 <= k < |nodes| => |nodes[k]|)
    ensures counts == Counts(nodes)
  {
  }

  lemma SoundFits(s: Schema, raw: RawGraph)
    requires s.Valid() && Sound(s, raw)
    ensures SumOf(Counts(raw.nodes)) <= U32_MAX
  {
  }
}
