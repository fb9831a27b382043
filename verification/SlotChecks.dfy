/** The integrity checks of one storage slot and of what it holds. */
module SlotChecks {
  import opened Wrappers
  import opened Storage
  import opened Schemas
  import opened Csr
  import opened Graphs
  import opened FlatGraphs
  import opened Outcomes

  // ----- offsets and types

  /** Each offset up to the `m`-th at least the one before it. */
  function OffsetsRise(offsets: seq<u32>, m: nat): Outcome<Error>
    requires m < |offsets|
  {
    if m == 0 then Ok(())
    else
      var earlier := OffsetsRise(offsets, m - 1);
      if earlier.Err? then earlier
      else
        var length := CheckedSub(offsets[m], offsets[m - 1]);
        if length.Err? then Err(length.error) else Ok(())
  }

  function CheckOffsetsShape(slot: nat, offsets: seq<u32>, expectedCount: nat): Outcome<Error> {
    if offsets == [] then Ok(())
    else if |offsets| != expectedCount + 1 then Err(OffsetsLengthMismatch(slot, expectedCount + 1, |offsets|))
    else if offsets[0] != 0 then Err(OffsetsBoundsMismatch(slot, 0, offsets[0]))
    else OffsetsRise(offsets, |offsets| - 1)
  }

  function CheckOffsetsBounds(slot: nat, offsets: seq<u32>, arrayLength: nat): Outcome<Error> {
    if Last(offsets) != arrayLength then Err(OffsetsBoundsMismatch(slot, arrayLength, Last(offsets))) else Ok(())
  }

  function CheckStorageType(values: StorageArray, expected: PropertyType): Outcome<Error> {
    if TypeOf(values) == expected then Ok(()) else Err(InvalidPropertyType(expected, TypeOf(values)))
  }

  lemma {:induction false} RisingIsMonotone(offsets: seq<u32>, m: nat)
    requires m < |offsets|
    ensures OffsetsRise(offsets, m).Ok? <==> forall j | 0 < j <= m :: offsets[j - 1] <= offsets[j]
  {
    if m > 0 {
      RisingIsMonotone(offsets, m - 1);
    }
  }

  lemma ShapeDecided(slot: nat, offsets: seq<u32>, n: nat)
    ensures CheckOffsetsShape(slot, offsets, n).Ok? <==> Shape(offsets, n)
  {
    if offsets != [] {
      RisingIsMonotone(offsets, |offsets| - 1);
      if forall j | 0 < j <= |offsets| - 1 :: offsets[j - 1] <= offsets[j] {
        assert forall i, j | 0 <= i && j == i + 1 < |offsets| :: offsets[i] <= offsets[j];
        AdjacentRise(offsets);
      }
    }
  }

  // ----- values

  function CheckNodeId(s: Schema, counts: seq<nat>, n: RawNodeId): Outcome<Error>
    requires |counts| == s.nodeKinds
  {
    if n.kind >= s.nodeKinds then Err(UnresolvedNodeKind(n.kind))
    else if n.seqNo >= counts[n.kind] then Err(NodeSeqOutOfBounds(n, counts[n.kind]))
    else Ok(())
  }

  function CheckStringId(strings: seq<Text>, id: u32): Outcome<Error> {
    if id >= |strings| then Err(UnresolvedStringId(id)) else Ok(())
  }

  /** The enum is registered, is the one the slot declares, and has the variant. */
  function CheckEnumId(s: Schema, expected: Option<nat>, id: RawEnumId): Outcome<Error> {
    if id.enumIndex >= |s.variantCounts| then Err(UnresolvedEnumKind(id.enumIndex))
    else if expected.Some? && expected.value != id.enumIndex then
      if expected.value >= |s.variantCounts| then Err(UnresolvedEnumKind(expected.value))
      else Err(EnumPropIndexMismatch(expected.value, id.enumIndex))
    else if id.variant >= s.variantCounts[id.enumIndex] then Err(UnresolvedEnumVariant(id.enumIndex, id.variant))
    else Ok(())
  }

  function CheckValue(s: Schema, counts: seq<nat>, strings: seq<Text>, expectedEnum: Option<nat>, v: StoredProperty)
    : Outcome<Error>
    requires |counts| == s.nodeKinds
  {
    match v
    case NodeId(n) => CheckNodeId(s, counts, n)
    case String(id) => CheckStringId(strings, id)
    case Enum(id) => CheckEnumId(s, expectedEnum, id)
    case _ => Ok(())
  }

  function CheckValuesContent(s: Schema, counts: seq<nat>, strings: seq<Text>, expectedEnum: Option<nat>,
                              values: StorageArray): Outcome<Error>
    requires |counts| == s.nodeKinds
  {
    First(seq(|Items(values)|, j requires 0 <= j < |Items(values)| =>
      CheckValue(s, counts, strings, expectedEnum, Items(values)[j])))
  }

  function CheckNeighbors(s: Schema, counts: seq<nat>, neighbors: seq<RawNodeId>): Outcome<Error>
    requires |counts| == s.nodeKinds
  {
    First(seq(|neighbors|, j requires 0 <= j < |neighbors| => CheckNodeId(s, counts, neighbors[j])))
  }

  ghost predicate NeighborsExist(s: Schema, counts: seq<nat>, neighbors: seq<RawNodeId>) {
    forall j | 0 <= j < |neighbors| :: NodeExists(s, counts, neighbors[j])
  }

  ghost predicate ItemsOk(s: Schema, counts: seq<nat>, strings: seq<Text>, expectedEnum: Option<nat>,
                          vs: seq<StoredProperty>) {
    forall j | 0 <= j < |vs| :: PayloadOk(s, counts, expectedEnum, Resolve(strings, vs[j]))
  }

  lemma ContentDecided(s: Schema, counts: seq<nat>, strings: seq<Text>, expectedEnum: Option<nat>, values: StorageArray)
    requires |counts| == s.nodeKinds
    ensures CheckValuesContent(s, counts, strings, expectedEnum, values).Ok?
       <==> IdsInPool(strings, Items(values)) && ItemsOk(s, counts, strings, expectedEnum, Items(values))
  {
    var vs := Items(values);
    var outcomes := seq(|Items(values)|, j requires 0 <= j < |Items(values)| =>
      CheckValue(s, counts, strings, expectedEnum, Items(values)[j]));
    assert CheckValuesContent(s, counts, strings, expectedEnum, values) == First(outcomes);
    FirstOk(outcomes);
    forall j | 0 <= j < |vs|
      ensures outcomes[j].Ok?
              <==> IdInPool(strings, vs[j]) && PayloadOk(s, counts, expectedEnum, Resolve(strings, vs[j]))
    {
      assert outcomes[j] == CheckValue(s, counts, strings, expectedEnum, vs[j]);
    }
    if IdsInPool(strings, vs) && ItemsOk(s, counts, strings, expectedEnum, vs) {
      forall j | 0 <= j < |vs|
        ensures outcomes[j].Ok?
      {
        assert vs[j] in vs;
      }
    }
    if forall j | 0 <= j < |vs| :: outcomes[j].Ok? {
      forall v | v in vs
        ensures IdInPool(strings, v)
      {
        var j :| 0 <= j < |vs| && vs[j] == v;
        assert outcomes[j].Ok?;
      }
      forall j | 0 <= j < |vs|
        ensures PayloadOk(s, counts, expectedEnum, Resolve(strings, vs[j]))
      {
        assert outcomes[j].Ok?;
      }
    }
  }

  lemma NeighborsDecided(s: Schema, counts: seq<nat>, neighbors: seq<RawNodeId>)
    requires |counts| == s.nodeKinds
    ensures CheckNeighbors(s, counts, neighbors).Ok? <==> NeighborsExist(s, counts, neighbors)
  {
    var outcomes := seq(|neighbors|, j requires 0 <= j < |neighbors| => CheckNodeId(s, counts, neighbors[j]));
    FirstOk(outcomes);
    forall j | 0 <= j < |neighbors|
      ensures outcomes[j].Ok? <==> NodeExists(s, counts, neighbors[j])
    {
    }
  }

  // ----- slots

  /** The storages have as many parts as the schema lays out. */
  predicate Sized(s: Schema, raw: RawGraph) {
    |raw.nodes| == s.nodeKinds && |raw.edges| == s.EdgeStorageSize() && |raw.props| == s.PropertyStorageSize()
  }

  function CheckPropertySlot(s: Schema, raw: RawGraph, i: nat): Outcome<Error>
    requires s.Valid() && Sized(s, raw) && i < |raw.props|
  {
    s.PropertySlotAt(i);
    var k, p := s.PropertySlotKind(i), s.PropertySlotProp(i);
    var slot, expected := raw.props[i], s.propTypes[p];
    var _ :- CheckOffsetsShape(i, slot.offsets, |raw.nodes[k]|);
    var _ :- CheckStorageType(slot.values, expected);
    var _ :- if expected != NoType then CheckOffsetsBounds(i, slot.offsets, LenOf(slot.values)) else Ok(());
    CheckValuesContent(s, Counts(raw.nodes), raw.strings, s.propEnums[p], slot.values)
  }

  function EdgeSlotOutcome(s: Schema, raw: RawGraph, i: nat): Outcome<Error>
    requires s.Valid() && Sized(s, raw) && i < |raw.edges|
  {
    s.EdgeSlotAt(i);
    var k, e := s.EdgeSlotKind(i), s.EdgeSlotEdge(i);
    var slot, expected := raw.edges[i], s.edgeTypes[e];
    var _ :- CheckOffsetsShape(i, slot.offsets, |raw.nodes[k]|);
    var _ :- CheckOffsetsBounds(i, slot.offsets, |slot.neighbors|);
    var _ :- CheckNeighbors(s, Counts(raw.nodes), slot.neighbors);
    var _ :- CheckStorageType(slot.values, expected);
    var _ :- if expected != NoType then CheckOffsetsBounds(i, slot.offsets, LenOf(slot.values)) else Ok(());
    CheckValuesContent(s, Counts(raw.nodes), raw.strings, s.edgeEnums[e], slot.values)
  }

  lemma PropertySlotDecided(s: Schema, raw: RawGraph, i: nat)
    requires s.Valid() && Sized(s, raw) && i < |raw.props|
    ensures s.PropertySlotKind(i) < |raw.nodes| && s.PropertySlotProp(i) < |s.propTypes|
    ensures var k, p := s.PropertySlotKind(i), s.PropertySlotProp(i);
            CheckPropertySlot(s, raw, i).Ok?
            <==> && PropSlotOk(raw.props[i], s.propTypes[p], |raw.nodes[k]|, raw.strings)
                 && PropTableOk(s, Counts(raw.nodes), p, PropTable(raw.strings, raw.props[i], |raw.nodes[k]|))
  {
    hide CheckOffsetsShape, CheckValuesContent, PropTableOk, PropTable, ItemsOk, IdsInPool, PayloadOk, Monotone;
    s.PropertySlotAt(i);
    var k, p := s.PropertySlotKind(i), s.PropertySlotProp(i);
    assert s.propTypes[p] in s.propTypes;
    var slot, counts := raw.props[i], Counts(raw.nodes);
    ShapeDecided(i, slot.offsets, |raw.nodes[k]|);
    ContentDecided(s, counts, raw.strings, s.propEnums[p], slot.values);
    if PropSlotOk(slot, s.propTypes[p], |raw.nodes[k]|, raw.strings) {
      PropContent(s, counts, p, slot, |raw.nodes[k]|, raw.strings);
    }
  }

  /** What holds of all stored values holds of all runs, and the other way round. */
  lemma PropContent(s: Schema, counts: seq<nat>, p: nat, slot: PropertySlot, n: nat, strings: seq<Text>)
    requires s.Valid() && p < |s.propTypes| && PropSlotOk(slot, s.propTypes[p], n, strings)
    ensures ItemsOk(s, counts, strings, s.propEnums[p], Items(slot.values))
       <==> PropTableOk(s, counts, p, PropTable(strings, slot, n))
  {
    hide PayloadOk;
    var vs := Items(slot.values);
    var all := ResolveAll(strings, vs);
    var t := PropTable(strings, slot, n);
    if ItemsOk(s, counts, strings, s.propEnums[p], vs) {
      forall v, j | 0 <= v < |t.runs| && 0 <= j < |t.runs[v]|
        ensures ValueOk(s, counts, s.propTypes[p], s.propEnums[p], Some(t.runs[v][j]))
      {
        RunLength(slot.offsets, all, n, v);
        var at := slot.offsets[v] + j;
        assert t.runs[v][j] == all[at] == Resolve(strings, vs[at]) && vs[at] in vs;
      }
    }
    if PropTableOk(s, counts, p, t) {
      forall j | 0 <= j < |vs|
        ensures PayloadOk(s, counts, s.propEnums[p], Resolve(strings, vs[j]))
      {
        var v := Owner(slot.offsets, n, |vs|, j);
        RunLength(slot.offsets, all, n, v);
        assert t.runs[v][j - slot.offsets[v]] == all[j];
        assert ValueOk(s, counts, s.propTypes[p], s.propEnums[p], Some(t.runs[v][j - slot.offsets[v]]));
      }
    }
  }

  lemma EdgeSlotDecided(s: Schema, raw: RawGraph, i: nat)
    requires s.Valid() && Sized(s, raw) && i < |raw.edges|
    ensures s.EdgeSlotKind(i) < |raw.nodes| && s.EdgeSlotEdge(i) < |s.edgeTypes|
    ensures var k, e := s.EdgeSlotKind(i), s.EdgeSlotEdge(i);
            EdgeSlotOutcome(s, raw, i).Ok?
            <==> && EdgeSlotOk(raw.edges[i], s.edgeTypes[e], |raw.nodes[k]|, raw.strings)
                 && EdgeTableOk(s, Counts(raw.nodes), e, EdgeTable(raw.strings, raw.edges[i], |raw.nodes[k]|))
  {
    hide CheckOffsetsShape, CheckValuesContent, CheckNeighbors, EdgeTableOk, EdgeTable, ItemsOk, NeighborsExist,
         IdsInPool, PayloadOk, Monotone;
    s.EdgeSlotAt(i);
    var k, e := s.EdgeSlotKind(i), s.EdgeSlotEdge(i);
    var slot, counts := raw.edges[i], Counts(raw.nodes);
    ShapeDecided(i, slot.offsets, |raw.nodes[k]|);
    NeighborsDecided(s, counts, slot.neighbors);
    ContentDecided(s, counts, raw.strings, s.edgeEnums[e], slot.values);
    if EdgeSlotOk(slot, s.edgeTypes[e], |raw.nodes[k]|, raw.strings) {
      EdgeContent(s, counts, e, slot, |raw.nodes[k]|, raw.strings);
    }
  }

  lemma EdgeContent(s: Schema, counts: seq<nat>, e: nat, slot: EdgeSlot, n: nat, strings: seq<Text>)
    requires s.Valid() && e < |s.edgeTypes| && EdgeSlotOk(slot, s.edgeTypes[e], n, strings)
    ensures NeighborsExist(s, counts, slot.neighbors) && ItemsOk(s, counts, strings, s.edgeEnums[e], Items(slot.values))
       <==> EdgeTableOk(s, counts, e, EdgeTable(strings, slot, n))
  {
    hide PayloadOk, NodeExists;
    var vs, all, t := Items(slot.values), Halves(strings, slot), EdgeTable(strings, slot, n);
    if NeighborsExist(s, counts, slot.neighbors) && ItemsOk(s, counts, strings, s.edgeEnums[e], vs) {
      forall v, j | 0 <= v < |t.runs| && 0 <= j < |t.runs[v]|
        ensures HalfOk(s, counts, e, t.runs[v][j])
      {
        RunLength(slot.offsets, all, n, v);
        var at := slot.offsets[v] + j;
        assert t.runs[v][j] == all[at];
        assert at < |vs| ==> vs[at] in vs;
      }
    }
    if EdgeTableOk(s, counts, e, t) {
      forall j | 0 <= j < |slot.neighbors|
        ensures NodeExists(s, counts, slot.neighbors[j])
        ensures j < |vs| ==> PayloadOk(s, counts, s.edgeEnums[e], Resolve(strings, vs[j]))
      {
        var v := Owner(slot.offsets, n, |slot.neighbors|, j);
        RunLength(slot.offsets, all, n, v);
        assert t.runs[v][j - slot.offsets[v]] == all[j];
        assert HalfOk(s, counts, e, t.runs[v][j - slot.offsets[v]]);
      }
      assert |vs| <= |slot.neighbors|;
    }
  }
}
