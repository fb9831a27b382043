/** The flat storage of a graph, what it stands for, and when it is well formed. */
module FlatGraphs {
  import opened Wrappers
  import opened Storage
  import opened Schemas
  import opened Csr
  import opened Graphs

  datatype EdgeSlot = EdgeSlot(offsets: seq<u32>, neighbors: seq<RawNodeId>, values: StorageArray)

  datatype PropertySlot = PropertySlot(offsets: seq<u32>, values: StorageArray)

  /** A slot rebuilt off to the side. */
  datatype Replacement<S> = Replacement(slotIndex: nat, slot: S)

  /** The slots once every replacement has been written. */
  function Replaced<S>(slots: seq<S>, reps: seq<Replacement<S>>): (r: seq<S>)
    ensures |r| == |slots|
  {
    if reps == [] then slots
    else
      var last := reps[|reps| - 1];
      var r := Replaced(slots, reps[..|reps| - 1]);
      if last.slotIndex < |slots| then r[last.slotIndex := last.slot] else r
  }

  lemma ReplacedNext<S>(slots: seq<S>, reps: seq<Replacement<S>>, n: nat, slot: S)
    requires n < |slots|
    ensures Replaced(slots, reps + [Replacement(n, slot)]) == Replaced(slots, reps)[n := slot]
  {
    assert (reps + [Replacement(n, slot)])[..|reps|] == reps;
  }

  /** Node tombstone flags, edge slots, property slots and interned strings. */
  datatype RawGraph = RawGraph(
    nodes: seq<seq<bool>>,
    edges: seq<EdgeSlot>,
    props: seq<PropertySlot>,
    strings: seq<Text>)

  /** The offsets around node `k`, unless the slot has none for it. */
  function GetOffset(offsets: seq<u32>, k: nat): Option<(u32, u32)> {
    if k + 1 < |offsets| then Some((offsets[k], offsets[k + 1])) else None
  }

  function ResolveAll(strings: seq<Text>, vs: seq<StoredProperty>): (r: seq<PropertyValue>)
    ensures |r| == |vs|
  {
    seq(|vs|, i requires 0 <= i < |vs| => Resolve(strings, vs[i]))
  }

  predicate IdsInPool(strings: seq<Text>, vs: seq<StoredProperty>) {
    forall v <- vs :: IdInPool(strings, v)
  }

  /** Neighbours side by side with the values that line up with them, if any do. */
  function Zip(strings: seq<Text>, ns: seq<RawNodeId>, vs: seq<StoredProperty>)
    : (r: seq<Half<PropertyValue>>)
    ensures |r| == |ns|
  {
    seq(|ns|, i requires 0 <= i < |ns| =>
      Half(ns[i], if i < |vs| then Some(Resolve(strings, vs[i])) else None))
  }

  /** The half-edges of a slot, in array order. */
  function Halves(strings: seq<Text>, slot: EdgeSlot): (r: seq<Half<PropertyValue>>)
    ensures |r| == |slot.neighbors|
  {
    Zip(strings, slot.neighbors, Items(slot.values))
  }

  function EdgeTable(strings: seq<Text>, slot: EdgeSlot, n: nat): (r: Table<Half<PropertyValue>>)
    ensures |r.runs| == n
  {
    Table(slot.offsets != [], Runs(slot.offsets, Halves(strings, slot), n))
  }

  function PropTable(strings: seq<Text>, slot: PropertySlot, n: nat): (r: Table<PropertyValue>)
    ensures |r.runs| == n
  {
    Table(slot.offsets != [], Runs(slot.offsets, ResolveAll(strings, Items(slot.values)), n))
  }

  /** Offsets cut the neighbours into a run per node and values, if any, line up with them. */
  ghost predicate EdgeSlotOk(slot: EdgeSlot, typ: PropertyType, n: nat, strings: seq<Text>) {
    && Cuts(slot.offsets, n, |slot.neighbors|)
    && TypeOf(slot.values) == typ
    && (typ != NoType ==> |Items(slot.values)| == |slot.neighbors|)
    && IdsInPool(strings, Items(slot.values))
  }

  lemma SlotIsCut(slot: EdgeSlot, typ: PropertyType, n: nat, strings: seq<Text>)
    requires EdgeSlotOk(slot, typ, n, strings)
    ensures Cuts(slot.offsets, n, |slot.neighbors|)
    ensures TypeOf(slot.values) == typ && (typ != NoType ==> |Items(slot.values)| == |slot.neighbors|)
  {
  }

  ghost predicate PropSlotOk(slot: PropertySlot, typ: PropertyType, n: nat, strings: seq<Text>) {
    && typ != NoType
    && Cuts(slot.offsets, n, |Items(slot.values)|)
    && TypeOf(slot.values) == typ
    && IdsInPool(strings, Items(slot.values))
  }

  /** The storage half of integrity. */
  ghost predicate WellFormed(s: Schema, raw: RawGraph)
    requires s.Valid()
  {
    && |raw.nodes| == s.nodeKinds
    && |raw.edges| == s.EdgeStorageSize()
    && |raw.props| == s.PropertyStorageSize()
    && (forall i | 0 <= i < |raw.edges| ::
          var k, e := s.EdgeSlotKind(i), s.EdgeSlotEdge(i);
          k < |raw.nodes| && e < |s.edgeTypes|
          && EdgeSlotOk(raw.edges[i], s.edgeTypes[e], |raw.nodes[k]|, raw.strings))
    && (forall i | 0 <= i < |raw.props| ::
          var k, p := s.PropertySlotKind(i), s.PropertySlotProp(i);
          k < |raw.nodes| && p < |s.propTypes|
          && PropSlotOk(raw.props[i], s.propTypes[p], |raw.nodes[k]|, raw.strings))
  }

  /** The graph the flat storage stands for. */
  ghost function Meaning(s: Schema, raw: RawGraph): (g: Graph)
    requires s.Valid() && WellFormed(s, raw)
    ensures Shaped(s, g)
  {
    Graph(raw.nodes,
          seq(|raw.edges|, i requires 0 <= i < |raw.edges| =>
            EdgeTable(raw.strings, raw.edges[i], |raw.nodes[s.EdgeSlotKind(i)]|)),
          seq(|raw.props|, i requires 0 <= i < |raw.props| =>
            PropTable(raw.strings, raw.props[i], |raw.nodes[s.PropertySlotKind(i)]|)))
  }

  /** Integrity: the flat storage is well formed and stands for a coherent graph. */
  ghost predicate Sound(s: Schema, raw: RawGraph)
    requires s.Valid()
  {
    && Distinct(raw.strings)
    && WellFormed(s, raw)
    && Coherent(s, Meaning(s, raw))
  }

  /** Strings added later leave what earlier ids mean alone. */
  lemma ResolveStable(strings: seq<Text>, more: seq<Text>, vs: seq<StoredProperty>)
    requires strings <= more && IdsInPool(strings, vs)
    ensures ResolveAll(strings, vs) == ResolveAll(more, vs) && IdsInPool(more, vs)
  {
    forall i | 0 <= i < |vs|
      ensures Resolve(strings, vs[i]) == Resolve(more, vs[i])
    {
      assert IdInPool(strings, vs[i]);
    }
  }

  lemma HalvesStable(strings: seq<Text>, more: seq<Text>, slot: EdgeSlot)
    requires strings <= more && IdsInPool(strings, Items(slot.values))
    ensures Halves(strings, slot) == Halves(more, slot) && IdsInPool(more, Items(slot.values))
  {
    ResolveStable(strings, more, Items(slot.values));
    forall i | 0 <= i < |slot.neighbors|
      ensures Halves(strings, slot)[i] == Halves(more, slot)[i]
    {
      if i < |Items(slot.values)| {
        assert ResolveAll(strings, Items(slot.values))[i] == ResolveAll(more, Items(slot.values))[i];
      }
    }
  }
}
