/** Checking a whole graph, and what it decides. */
module Integrity {
  import opened Wrappers
  import opened Storage
  import opened Schemas
  import opened Csr
  import opened Graphs
  import opened FlatGraphs
  import opened EdgeBags
  import opened NodeIndexes
  import opened HalfPairing
  import opened ValueKeys
  import opened Outcomes
  import opened SlotChecks

  // ----- the edges as stored

  /** A slot's half-edges with their values as stored. */
  function StoredHalves(slot: EdgeSlot): (r: seq<Half<StoredProperty>>)
    ensures |r| == |slot.neighbors|
  {
    seq(|slot.neighbors|, j requires 0 <= j < |slot.neighbors| =>
      Half(slot.neighbors[j], ValueAt(slot.values, j)))
  }

  function StoredTable(slot: EdgeSlot, n: nat): (r: Table<Half<StoredProperty>>)
    ensures |r.runs| == n
  {
    Table(slot.offsets != [], Runs(slot.offsets, StoredHalves(slot), n))
  }

  function StoredTables(s: Schema, raw: RawGraph): (r: seq<Table<Half<StoredProperty>>>)
    requires Sized(s, raw)
    ensures |r| == |raw.edges|
  {
    seq(|raw.edges|, i requires 0 <= i < |raw.edges| =>
      StoredTable(raw.edges[i], if s.EdgeSlotKind(i) < |raw.nodes| then |raw.nodes[s.EdgeSlotKind(i)]| else 0))
  }

  /** An edge in canonical form. */
  function DenseOf(index: NodeIndex, x: Edge<StoredProperty>): HalfEdge {
    HalfEdge(Densify(index, x.src), Densify(index, x.dst), if x.value.Some? then Key(x.value.value) else 0)
  }

  function DenseAll(index: NodeIndex, xs: seq<Edge<StoredProperty>>): (r: seq<HalfEdge>)
    ensures |r| == |xs|
  {
    seq(|xs|, i requires 0 <= i < |xs| => DenseOf(index, xs[i]))
  }

  lemma DenseJoins(index: NodeIndex, a: seq<Edge<StoredProperty>>, b: seq<Edge<StoredProperty>>)
    ensures DenseAll(index, a + b) == DenseAll(index, a) + DenseAll(index, b)
  {
  }

  /** The halves one slot contributes to its side of the pairing. */
  function SlotDense(s: Schema, raw: RawGraph, index: NodeIndex, i: nat): seq<HalfEdge>
    requires Sized(s, raw) && i < |raw.edges|
  {
    DenseAll(index, KindEdges(s.EdgeSlotKind(i), s.EdgeSlotDirection(i), StoredTables(s, raw)[i].runs))
  }

  /** One node's half-edges, listed in canonical form. */
  method ListRun(slot: EdgeSlot, index: NodeIndex, owner: RawNodeId, d: Direction, start: u32, end: u32,
                 halves: seq<HalfEdge>)
    returns (listed: seq<HalfEdge>)
    requires start <= end <= |slot.neighbors|
    ensures listed == halves + DenseAll(index, RunEdges(owner, d, StoredHalves(slot)[start..end]))
  {
    var node := Densify(index, owner);
    ghost var edges := RunEdges(owner, d, StoredHalves(slot)[start..end]);
    listed := halves;
    var j: nat := 0;
    while start + j < end
      invariant 0 <= j <= end - start
      invariant listed == halves + DenseAll(index, edges[..j])
    {
      var neighbor := Densify(index, slot.neighbors[start + j]);
      var value := KeyAt(slot.values, start + j);
      var half := if d.Out? then HalfEdge(node, neighbor, value) else HalfEdge(neighbor, node, value);
      assert half == DenseOf(index, edges[j]);
      assert edges[..j + 1] == edges[..j] + [edges[j]];
      listed := listed + [half];
      j := j + 1;
    }
    assert edges[..j] == edges;
  }

  /** The runs of the first `v` nodes are listed. */
  ghost predicate ListedUpTo(index: NodeIndex, kind: nat, d: Direction, runs: seq<seq<Half<StoredProperty>>>,
                             halves: seq<HalfEdge>, listed: seq<HalfEdge>, v: nat)
  {
    v <= |runs| && listed == halves + DenseAll(index, KindEdges(kind, d, runs[..v]))
  }

  lemma ListedNext(index: NodeIndex, kind: nat, d: Direction, runs: seq<seq<Half<StoredProperty>>>,
                   halves: seq<HalfEdge>, listed: seq<HalfEdge>, v: nat)
    requires ListedUpTo(index, kind, d, runs, halves, listed, v) && v < |runs|
    ensures ListedUpTo(index, kind, d, runs, halves,
                       listed + DenseAll(index, RunEdges(NodeAt(kind, v), d, runs[v])), v + 1)
  {
    hide DenseAll, RunEdges;
    assert runs[..v + 1][..v] == runs[..v];
    DenseJoins(index, KindEdges(kind, d, runs[..v]), RunEdges(NodeAt(kind, v), d, runs[v]));
  }

  lemma ListedAtFirst(index: NodeIndex, kind: nat, d: Direction, runs: seq<seq<Half<StoredProperty>>>,
                      halves: seq<HalfEdge>)
    ensures ListedUpTo(index, kind, d, runs, halves, halves, 0)
  {
    assert runs[..0] == [] && DenseAll(index, KindEdges(kind, d, runs[..0])) == [];
  }

  /** All nodes' runs are listed, or there are no offsets and so no runs to list. */
  lemma ListedAtLast(s: Schema, raw: RawGraph, index: NodeIndex, i: nat, halves: seq<HalfEdge>, listed: seq<HalfEdge>,
                     v: nat)
    requires s.Valid() && Sized(s, raw) && i < |raw.edges| && s.EdgeSlotKind(i) < |raw.nodes|
    requires var slot, kind, d := raw.edges[i], s.EdgeSlotKind(i), s.EdgeSlotDirection(i);
             var n := |raw.nodes[kind]|;
             && ListedUpTo(index, kind, d, StoredTable(slot, n).runs, halves, listed, v)
             && if slot.offsets == [] then v == 0 else v == n
    ensures listed == halves + SlotDense(s, raw, index, i)
  {
    hide KindEdges, DenseAll, Schema.EdgeSlotKind, Schema.EdgeSlotDirection;
    var slot, kind, d := raw.edges[i], s.EdgeSlotKind(i), s.EdgeSlotDirection(i);
    var runs := StoredTable(slot, |raw.nodes[kind]|).runs;
    if slot.offsets == [] {
      NoOffsetsNoEdges(kind, d, slot, |raw.nodes[kind]|);
      EmptyRunsNoEdges(kind, d, runs[..0]);
    } else {
      assert runs[..v] == runs;
    }
  }

  lemma CheckedRun(s: Schema, raw: RawGraph, i: nat, v: nat)
    requires s.Valid() && Sized(s, raw) && i < |raw.edges| && EdgeSlotOutcome(s, raw, i).Ok?
    ensures s.EdgeSlotKind(i) < |raw.nodes|
    ensures var slot, n := raw.edges[i], |raw.nodes[s.EdgeSlotKind(i)]|;
            && (slot.offsets != [] ==> |slot.offsets| == n + 1)
            && (v + 1 < |slot.offsets| ==>
                  && slot.offsets[v] <= slot.offsets[v + 1] <= |slot.neighbors|
                  && StoredTable(slot, n).runs[v] == StoredHalves(slot)[slot.offsets[v]..slot.offsets[v + 1]])
  {
    EdgeSlotDecided(s, raw, i);
    var slot, n := raw.edges[i], |raw.nodes[s.EdgeSlotKind(i)]|;
    assert Cuts(slot.offsets, n, |slot.neighbors|);
    if v + 1 < |slot.offsets| {
      RunLength(slot.offsets, StoredHalves(slot), n, v);
    }
  }

  /** Checks one edge slot and lists its half-edges in canonical form behind those already listed. */
  method CheckEdgeSlot(s: Schema, raw: RawGraph, index: NodeIndex, i: nat, halves: seq<HalfEdge>)
    returns (r: Outcome<Error>, listed: seq<HalfEdge>)
    requires s.Valid() && Sized(s, raw) && i < |raw.edges|
    ensures r == EdgeSlotOutcome(s, raw, i)
    ensures r.Ok? ==> listed == halves + SlotDense(s, raw, index, i)
    ensures r.Err? ==> listed == halves
  {
    hide *;
    r := EdgeSlotOutcome(s, raw, i);
    listed := halves;
    if r.Err? {
      return;
    }
    var slot := raw.edges[i];
    var kind, d := s.EdgeSlotKind(i), s.EdgeSlotDirection(i);
    CheckedRun(s, raw, i, 0);
    ghost var n := |raw.nodes[kind]|;
    ghost var runs := StoredTable(slot, n).runs;
    var v := 0;
    ListedAtFirst(index, kind, d, runs, halves);
    while v + 1 < |slot.offsets|
      invariant 0 <= v && (if slot.offsets == [] then v == 0 else v < |slot.offsets|)
      invariant ListedUpTo(index, kind, d, runs, halves, listed, v)
    {
      CheckedRun(s, raw, i, v);
      ListedNext(index, kind, d, runs, halves, listed, v);
      listed := ListRun(slot, index, NodeAt(kind, v), d, slot.offsets[v], slot.offsets[v + 1], listed);
      v := v + 1;
    }
    ListedAtLast(s, raw, index, i, halves, listed, v);
  }

  lemma NoOffsetsNoEdges(kind: nat, d: Direction, slot: EdgeSlot, n: nat)
    requires slot.offsets == []
    ensures KindEdges(kind, d, StoredTable(slot, n).runs) == []
  {
    EmptyRunsNoEdges(kind, d, StoredTable(slot, n).runs);
  }

  lemma {:induction false} EmptyRunsNoEdges<V>(kind: nat, d: Direction, runs: seq<seq<Half<V>>>)
    requires forall v | 0 <= v < |runs| :: runs[v] == []
    ensures KindEdges(kind, d, runs) == []
  {
    if runs != [] {
      EmptyRunsNoEdges(kind, d, runs[..|runs| - 1]);
    }
  }

  // ----- all slots

  function PropertyOutcomes(s: Schema, raw: RawGraph): (r: seq<Outcome<Error>>)
    requires s.Valid() && Sized(s, raw)
    ensures |r| == |raw.props|
  {
    seq(|raw.props|, i requires 0 <= i < |raw.props| => CheckPropertySlot(s, raw, i))
  }

  function EdgeOutcomes(s: Schema, raw: RawGraph): (r: seq<Outcome<Error>>)
    requires s.Valid() && Sized(s, raw)
    ensures |r| == |raw.edges|
  {
    seq(|raw.edges|, i requires 0 <= i < |raw.edges| => EdgeSlotOutcome(s, raw, i))
  }

  /** One direction's halves of one edge kind, in canonical form and slot order. */
  function SideOf(s: Schema, raw: RawGraph, index: NodeIndex, d: Direction, e: nat): seq<HalfEdge>
    requires Sized(s, raw) && e < |s.edgeTypes|
  {
    DenseAll(index, Edges(s, StoredTables(s, raw), d, e))
  }

  function PairingOutcomes(s: Schema, raw: RawGraph, index: NodeIndex): (r: seq<Outcome<Error>>)
    requires Sized(s, raw)
    ensures |r| == |s.edgeTypes|
  {
    seq(|s.edgeTypes|, e requires 0 <= e < |s.edgeTypes| =>
      CheckHalfEdgePairing(e, index, SideOf(s, raw, index, Out, e), SideOf(s, raw, index, In, e)))
  }

  /** The first failure among property slots, then edge slots, then pairings, each in order. */
  function SlotsVerdict(s: Schema, raw: RawGraph, index: NodeIndex): Outcome<Error>
    requires s.Valid() && Sized(s, raw)
  {
    var properties, edges := First(PropertyOutcomes(s, raw)), First(EdgeOutcomes(s, raw));
    if properties.Err? then properties
    else if edges.Err? then edges
    else First(PairingOutcomes(s, raw, index))
  }

  lemma FirstNext(outcomes: seq<Outcome<Error>>, i: nat)
    requires i < |outcomes|
    ensures First(outcomes[..i + 1]) == if First(outcomes[..i]).Err? then First(outcomes[..i]) else outcomes[i]
  {
    assert outcomes[..i + 1][..i] == outcomes[..i];
  }

  lemma PassIsOk(outcome: Outcome<Error>)
    requires outcome.Ok?
    ensures outcome == Ok(())
  {
    match outcome.value
    case () =>
  }

  /** How many slots of a block come before slot `i`. */
  function Done(s: Schema, d: Direction, e: nat, i: nat): (r: nat)
    ensures r <= s.nodeKinds
  {
    var start := s.EdgeBlock(d, e);
    if i <= start then 0 else if i - start <= s.nodeKinds then i - start else s.nodeKinds
  }

  /** Every side lists the halves of its slots before slot `i`. */
  ghost predicate SidesUpTo(s: Schema, raw: RawGraph, index: NodeIndex, d: Direction, sides: seq<seq<HalfEdge>>, i: nat)
    requires Sized(s, raw)
  {
    && |sides| == |s.edgeTypes|
    && forall e | 0 <= e < |sides| ::
         && |Block(s, StoredTables(s, raw), d, e)| == s.nodeKinds
         && sides[e] == DenseAll(index, BlockEdges(d, Block(s, StoredTables(s, raw), d, e)[..Done(s, d, e, i)]))
  }

  lemma SidesAtFirst(s: Schema, raw: RawGraph, index: NodeIndex, d: Direction)
    requires Sized(s, raw)
    ensures SidesUpTo(s, raw, index, d, seq(|s.edgeTypes|, _ => []), 0)
  {
    forall e | 0 <= e < |s.edgeTypes|
      ensures |Block(s, StoredTables(s, raw), d, e)| == s.nodeKinds
      ensures Block(s, StoredTables(s, raw), d, e)[..0] == []
              && DenseAll(index, BlockEdges<StoredProperty>(d, [])) == []
    {
      BlockBounds(s, d, e);
    }
  }

  lemma DoneNext(s: Schema, i: nat, d: Direction, e: nat)
    requires i < s.EdgeStorageSize() && e < |s.edgeTypes|
    ensures if d == s.EdgeSlotDirection(i) && e == s.EdgeSlotEdge(i)
            then Done(s, d, e, i) == s.EdgeSlotKind(i) < s.nodeKinds && Done(s, d, e, i + 1) == s.EdgeSlotKind(i) + 1
                 && s.EdgeBlock(d, e) + s.EdgeSlotKind(i) == i
            else Done(s, d, e, i + 1) == Done(s, d, e, i)
  {
    hide Schema.EdgeBlock, Schema.EdgeSlotKind, Schema.EdgeSlotDirection, Schema.EdgeSlotEdge;
    s.EdgeSlotAt(i);
    var start := s.EdgeBlock(d, e);
    if start <= i < start + s.nodeKinds {
      s.EdgeSlotOf(i - start, d, e);
    }
  }

  lemma SidesNext(s: Schema, raw: RawGraph, index: NodeIndex, d: Direction, sides: seq<seq<HalfEdge>>, i: nat)
    requires s.Valid() && Sized(s, raw) && i < |raw.edges| && SidesUpTo(s, raw, index, d, sides, i)
    ensures s.EdgeSlotEdge(i) < |sides| == |s.edgeTypes|
    ensures var e := s.EdgeSlotEdge(i);
            SidesUpTo(s, raw, index, d,
                      if d == s.EdgeSlotDirection(i) then sides[e := sides[e] + SlotDense(s, raw, index, i)]
                      else sides, i + 1)
  {
    hide Schema.EdgeBlock, Schema.EdgeSlotKind, Schema.EdgeSlotDirection, Schema.EdgeSlotEdge, Done, DenseAll,
         KindEdges, StoredTables;
    s.EdgeSlotAt(i);
    var here := s.EdgeSlotEdge(i);
    var grown := sides[here] + SlotDense(s, raw, index, i);
    var sides' := if d == s.EdgeSlotDirection(i) then sides[here := grown] else sides;
    var stored := StoredTables(s, raw);
    forall e | 0 <= e < |sides'|
      ensures |Block(s, stored, d, e)| == s.nodeKinds
      ensures sides'[e] == DenseAll(index, BlockEdges(d, Block(s, stored, d, e)[..Done(s, d, e, i + 1)]))
    {
      DoneNext(s, i, d, e);
      var block, k := Block(s, stored, d, e), Done(s, d, e, i);
      BlockBounds(s, d, e);
      if d == s.EdgeSlotDirection(i) && e == here {
        assert block[..k + 1][..k] == block[..k];
        assert block[k] == stored[i];
        DenseJoins(index, BlockEdges(d, block[..k]), KindEdges(k, d, block[k].runs));
      }
    }
  }

  lemma SidesAtLast(s: Schema, raw: RawGraph, index: NodeIndex, d: Direction, sides: seq<seq<HalfEdge>>)
    requires Sized(s, raw) && SidesUpTo(s, raw, index, d, sides, |raw.edges|)
    ensures |sides| == |s.edgeTypes| && forall e | 0 <= e < |sides| :: sides[e] == SideOf(s, raw, index, d, e)
  {
    hide DenseAll, StoredTables;
    forall e | 0 <= e < |sides|
      ensures sides[e] == SideOf(s, raw, index, d, e)
    {
      BlockBounds(s, d, e);
      var block := Block(s, StoredTables(s, raw), d, e);
      assert Done(s, d, e, |raw.edges|) == s.nodeKinds && block[..s.nodeKinds] == block;
    }
  }

  method CheckProperties(s: Schema, raw: RawGraph) returns (r: Outcome<Error>)
    requires s.Valid() && Sized(s, raw)
    ensures r == First(PropertyOutcomes(s, raw))
  {
    ghost var outcomes := PropertyOutcomes(s, raw);
    var i := 0;
    assert outcomes[..0] == [];
    while i < s.PropertyStorageSize()
      invariant 0 <= i <= |outcomes|
      invariant First(outcomes[..i]).Ok?
    {
      FirstNext(outcomes, i);
      r := CheckPropertySlot(s, raw, i);
      if r.Err? {
        FirstStops(outcomes, i + 1);
        return r;
      }
      i := i + 1;
    }
    assert outcomes[..i] == outcomes;
    return Ok(());
  }

  lemma EdgeOutcomeAt(s: Schema, raw: RawGraph, i: nat)
    requires s.Valid() && Sized(s, raw) && i < |raw.edges|
    ensures EdgeOutcomes(s, raw)[i] == EdgeSlotOutcome(s, raw, i) && s.EdgeSlotEdge(i) < |s.edgeTypes|
  {
    s.EdgeSlotAt(i);
  }

  method CheckEdges(s: Schema, raw: RawGraph, index: NodeIndex)
    returns (r: Outcome<Error>, outs: seq<seq<HalfEdge>>, ins: seq<seq<HalfEdge>>)
    requires s.Valid() && Sized(s, raw)
    ensures r == First(EdgeOutcomes(s, raw))
    ensures r.Ok? ==> |outs| == |ins| == |s.edgeTypes|
    ensures r.Ok? ==> forall e | 0 <= e < |s.edgeTypes| ::
              outs[e] == SideOf(s, raw, index, Out, e) && ins[e] == SideOf(s, raw, index, In, e)
  {
    hide SidesUpTo, SlotDense, SideOf, EdgeSlotOutcome, EdgeOutcomes, Schema.EdgeSlotEdge, Schema.EdgeSlotDirection,
         Schema.EdgeStorageSize;
    ghost var outcomes := EdgeOutcomes(s, raw);
    outs, ins := seq(|s.edgeTypes|, _ => []), seq(|s.edgeTypes|, _ => []);
    SidesAtFirst(s, raw, index, Out);
    SidesAtFirst(s, raw, index, In);
    var i := 0;
    assert outcomes[..0] == [];
    while i < s.EdgeStorageSize()
      invariant 0 <= i <= |outcomes|
      invariant First(outcomes[..i]).Ok?
      invariant SidesUpTo(s, raw, index, Out, outs, i) && SidesUpTo(s, raw, index, In, ins, i)
    {
      FirstNext(outcomes, i);
      EdgeOutcomeAt(s, raw, i);
      SidesNext(s, raw, index, Out, outs, i);
      SidesNext(s, raw, index, In, ins, i);
      var e := s.EdgeSlotEdge(i);
      var listed;
      match s.EdgeSlotDirection(i) {
        case Out =>
          r, listed := CheckEdgeSlot(s, raw, index, i, outs[e]);
          outs := outs[e := listed];
        case In =>
          r, listed := CheckEdgeSlot(s, raw, index, i, ins[e]);
          ins := ins[e := listed];
      }
      if r.Err? {
        FirstStops(outcomes, i + 1);
        return;
      }
      i := i + 1;
    }
    assert outcomes[..i] == outcomes;
    PassIsOk(First(outcomes));
    SidesAtLast(s, raw, index, Out, outs);
    SidesAtLast(s, raw, index, In, ins);
    r := Ok(());
  }

  /** Checks every slot on one thread, then pairs up each edge kind's halves. */
  method CheckSlots(s: Schema, raw: RawGraph, index: NodeIndex) returns (r: Outcome<Error>)
    requires s.Valid() && Sized(s, raw)
    ensures r == SlotsVerdict(s, raw, index)
  {
    hide PropertyOutcomes, EdgeOutcomes, SideOf, CheckHalfEdgePairing;
    r := CheckProperties(s, raw);
    if r.Err? {
      return r;
    }
    var outs, ins;
    r, outs, ins := CheckEdges(s, raw, index);
    if r.Err? {
      return r;
    }
    ghost var outcomes := PairingOutcomes(s, raw, index);
    var e := 0;
    assert outcomes[..0] == [];
    while e < |s.edgeTypes|
      invariant 0 <= e <= |s.edgeTypes|
      invariant First(outcomes[..e]).Ok?
    {
      FirstNext(outcomes, e);
      r := CheckHalfEdgePairing(e, index, outs[e], ins[e]);
      if r.Err? {
        FirstStops(outcomes, e + 1);
        return r;
      }
      e := e + 1;
    }
    assert outcomes[..e] == outcomes;
    PassIsOk(First(outcomes));
    return Ok(());
  }
}
