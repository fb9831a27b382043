/** The graph as it is stored, and the two-step way a diff is applied to it: prepare, then commit. */
module Committing {
  import opened Wrappers
  import opened Storage
  import opened Schemas
  import opened StringsPool
  import opened Graphs
  import opened Diffs
  import opened Outcomes
  import opened FlatGraphs
  import opened EdgeRemovals
  import opened PropertySlots
  import opened PropertyAppends
  import opened Classifying
  import opened NewNodes
  import opened EdgeInserts
  import opened Staging

  // ----- what each write makes of the stored arrays

  /** The flags with every tombstone set. */
  ghost function Tombstoned(nodes: seq<seq<bool>>, tombstones: seq<RawNodeId>): (r: seq<seq<bool>>)
    ensures |r| == |nodes|
    ensures forall k | 0 <= k < |nodes| :: |r[k]| == |nodes[k]|
  {
    seq(|nodes|, k requires 0 <= k < |nodes| =>
      seq(|nodes[k]|, v requires 0 <= v < |nodes[k]| => nodes[k][v] || Struck(tombstones, k, v)))
  }

  ghost function Lengthened(nodes: seq<seq<bool>>, metas: seq<seq<bool>>): (r: seq<seq<bool>>)
    requires |metas| == |nodes|
    ensures |r| == |nodes|
  {
    seq(|nodes|, k requires 0 <= k < |nodes| => nodes[k] + metas[k])
  }

  /** Setting flags and then appending fresh metadata gives the nodes the diff leads to. */
  lemma NodesWritten(s: Schema, nodes: seq<seq<bool>>, tombstones: seq<RawNodeId>, newNodes: seq<NewNode>,
                     metas: seq<seq<bool>>)
    requires |nodes| == s.nodeKinds && FreshMetas(nodes, newNodes, metas)
    ensures Lengthened(Tombstoned(nodes, tombstones), metas) == NodesAfter(nodes, tombstones, newNodes)
  {
    var after := NodesAfter(nodes, tombstones, newNodes);
    forall k | 0 <= k < |nodes|
      ensures Tombstoned(nodes, tombstones)[k] + metas[k] == after[k]
    {
      var joined := Tombstoned(nodes, tombstones)[k] + metas[k];
      forall v | 0 <= v < |joined|
        ensures joined[v] == after[k][v]
      {
      }
    }
  }

  /** Only nodes there are get tombstones. */
  lemma {:induction false} TombstonesInRange(s: Schema, g: Graph, changes: seq<Change>)
    requires Shaped(s, g) && forall c <- changes :: c.UpdateNodeProperty? ==> c.prop < |s.propTypes|
    requires Classify(s, g, changes).Ok?
    ensures forall n <- Classify(s, g, changes).value.tombstones ::
              n.kind < s.nodeKinds && n.seqNo < |g.nodes[n.kind]|
  {
    hide ClaimEdge;
    if changes != [] {
      TombstonesInRange(s, g, changes[..|changes| - 1]);
    }
  }

  /** Some of the inserts are written, and every other slot is as it was. */
  ghost predicate InsertedUpTo(mids: seq<EdgeSlot>, inserts: seq<EdgeSlotInsert>, edges: seq<EdgeSlot>) {
    && |edges| == |mids|
    && forall i | 0 <= i < |mids| ::
         match InsertFor(inserts, i)
         case None => edges[i] == mids[i]
         case Some(ins) => IsSpliced(mids[i], ins, edges[i])
  }

  lemma InsertedAtFirst(mids: seq<EdgeSlot>)
    ensures InsertedUpTo(mids, [], mids)
  {
  }

  /** Every insert can be written into the slot it was staged for. */
  ghost predicate InsertsReady(mids: seq<EdgeSlot>, inserts: seq<EdgeSlotInsert>) {
    forall j | 0 <= j < |inserts| ::
      inserts[j].slotIndex < |mids| && InsertReady(mids[inserts[j].slotIndex], inserts[j])
  }

  lemma AllInsertsReady(mids: seq<EdgeSlot>, inserts: seq<EdgeSlotInsert>)
    requires SlotsRise(inserts, |mids|)
    requires forall i | 0 <= i < |mids| ::
               InsertFor(inserts, i).Some? ==> InsertReady(mids[i], InsertFor(inserts, i).value)
    ensures InsertsReady(mids, inserts)
  {
    hide InsertReady, InsertFor;
    forall j | 0 <= j < |inserts|
      ensures inserts[j].slotIndex < |mids| && InsertReady(mids[inserts[j].slotIndex], inserts[j])
    {
      InsertForAt(inserts, j);
    }
  }

  /** An insert is the first one written into its slot, so it meets the slot it was staged for. */
  lemma InsertedReads(mids: seq<EdgeSlot>, inserts: seq<EdgeSlotInsert>, j: nat, edges: seq<EdgeSlot>)
    requires SlotsRise(inserts, |mids|) && j < |inserts| && InsertedUpTo(mids, inserts[..j], edges)
    requires InsertsReady(mids, inserts)
    ensures inserts[j].slotIndex < |mids| == |edges| && edges[inserts[j].slotIndex] == mids[inserts[j].slotIndex]
    ensures InsertReady(mids[inserts[j].slotIndex], inserts[j])
  {
    hide InsertReady, InsertFor, IsSpliced;
    assert SlotsRise(inserts[..j], inserts[j].slotIndex);
    NoInsertYet(inserts[..j], inserts[j].slotIndex);
  }

  lemma {:induction false} InsertForAt(inserts: seq<EdgeSlotInsert>, j: nat)
    requires j < |inserts| && forall i, k | 0 <= i < k < |inserts| :: inserts[i].slotIndex < inserts[k].slotIndex
    ensures InsertFor(inserts, inserts[j].slotIndex) == Some(inserts[j])
  {
    var last := |inserts| - 1;
    if j < last {
      InsertForAt(inserts[..last], j);
    }
  }

  lemma InsertedNext(mids: seq<EdgeSlot>, inserts: seq<EdgeSlotInsert>, j: nat, edges: seq<EdgeSlot>, after: EdgeSlot)
    requires j < |inserts| && InsertedUpTo(mids, inserts[..j], edges) && inserts[j].slotIndex < |mids|
    requires IsSpliced(mids[inserts[j].slotIndex], inserts[j], after)
    ensures |edges| == |mids| && InsertedUpTo(mids, inserts[..j + 1], edges[inserts[j].slotIndex := after])
  {
    hide IsSpliced;
    InsertForNext(inserts[..j], inserts[j]);
    assert inserts[..j + 1] == inserts[..j] + [inserts[j]];
  }

  // ----- the stored graph

  class FlatGraph {
    const schema: Schema
    const strings: StringsPool
    var nodes: seq<seq<bool>>
    var edges: seq<EdgeSlot>
    var props: seq<PropertySlot>

    ghost function Raw(): RawGraph
      reads this, strings
    {
      RawGraph(nodes, edges, props, strings.List())
    }

    ghost predicate Valid()
      reads this, strings, strings.tags, strings.slots
    {
      schema.Valid() && strings.Valid() && WellFormed(schema, Raw())
    }

    lemma ValidWhen()
      requires schema.Valid() && strings.Valid() && WellFormed(schema, Raw())
      ensures Valid()
    {
    }

    lemma ValidReads()
      requires Valid()
      ensures schema.Valid() && strings.Valid() && WellFormed(schema, Raw()) && Value() == Meaning(schema, Raw())
      ensures Raw() == RawGraph(nodes, edges, props, strings.List())
    {
    }

    /** The abstract graph the storage stands for. */
    ghost function Value(): (g: Graph)
      reads this, strings, strings.tags, strings.slots
      requires Valid()
      ensures Shaped(schema, g)
    {
      Meaning(schema, Raw())
    }

    /** An empty graph: no nodes, and no slot with offsets. */
    constructor (schema: Schema, hash: Text -> u32)
      requires schema.Valid()
      ensures Valid() && fresh(strings) && fresh(strings.tags) && fresh(strings.slots)
      ensures this.schema == schema && Raw() == EmptyRaw(schema)
    {
      var pool := new StringsPool(hash);
      this.schema := schema;
      strings := pool;
      nodes := EmptyRaw(schema).nodes;
      edges := EmptyRaw(schema).edges;
      props := EmptyRaw(schema).props;
      new;
      EmptyIsWellFormed(schema);
    }

    method SetTombstones(tombstones: seq<RawNodeId>)
      requires forall n <- tombstones :: n.kind < |nodes|
      modifies this`nodes
      ensures nodes == Tombstoned(old(nodes), tombstones)
    {
      ghost var before := nodes;
      var j := 0;
      assert Tombstoned(before, tombstones[..0]) == before by {
        assert forall k | 0 <= k < |before| :: Tombstoned(before, tombstones[..0])[k] == before[k];
      }
      while j < |tombstones|
        invariant 0 <= j <= |tombstones|
        invariant nodes == Tombstoned(before, tombstones[..j])
      {
        var n := tombstones[j];
        assert n in tombstones;
        StruckNext(before, tombstones, j);
        if n.seqNo < |nodes[n.kind]| {
          nodes := nodes[n.kind := nodes[n.kind][n.seqNo := true]];
        }
        j := j + 1;
      }
      assert tombstones[..j] == tombstones;
    }

    method ReplaceProps(reps: seq<Replacement<PropertySlot>>)
      requires ReplacedInUse(props, reps)
      modifies this`props
      ensures props == Replaced(old(props), reps)
    {
      ghost var before := props;
      var j := 0;
      while j < |reps|
        invariant 0 <= j <= |reps|
        invariant props == Replaced(before, reps[..j])
      {
        assert reps[..j + 1][..j] == reps[..j];
        props := props[reps[j].slotIndex := reps[j].slot];
        j := j + 1;
      }
      assert reps[..j] == reps;
    }

    method ReplaceEdges(reps: seq<Replacement<EdgeSlot>>)
      requires ReplacementsInRange(edges, reps)
      modifies this`edges
      ensures edges == Replaced(old(edges), reps)
    {
      ghost var before := edges;
      var j := 0;
      while j < |reps|
        invariant 0 <= j <= |reps|
        invariant edges == Replaced(before, reps[..j])
      {
        assert reps[..j + 1][..j] == reps[..j];
        edges := edges[reps[j].slotIndex := reps[j].slot];
        j := j + 1;
      }
      assert reps[..j] == reps;
    }

    method AppendMetas(metas: seq<seq<bool>>)
      requires |metas| == |nodes|
      modifies this`nodes
      ensures nodes == Lengthened(old(nodes), metas)
    {
      ghost var before := nodes;
      var k := 0;
      while k < |nodes|
        invariant 0 <= k <= |nodes| == |before|
        invariant forall i | 0 <= i < k :: nodes[i] == before[i] + metas[i]
        invariant forall i | k <= i < |nodes| :: nodes[i] == before[i]
      {
        nodes := nodes[k := nodes[k] + metas[k]];
        k := k + 1;
      }
    }

    method AppendProps(apps: seq<PropertySlotAppend>)
      requires AppendsReady(props, apps)
      modifies this`props
      ensures props == AppendedProps(old(props), apps)
    {
      ghost var before := props;
      var j := 0;
      forall j | 0 <= j <= |apps|
        ensures forall i | 0 <= i < |before| ::
                  TypeOf(AppendedProps(before, apps[..j])[i].values) == TypeOf(before[i].values)
      {
        AppendsKeepTypes(before, apps[..j]);
      }
      while j < |apps|
        invariant 0 <= j <= |apps|
        invariant props == AppendedProps(before, apps[..j])
      {
        assert apps[..j + 1][..j] == apps[..j];
        var slot := props[apps[j].slotIndex];
        // The batch was built with this very slot's type.
        var values := TryAppend(slot.values, apps[j].valuesBatch);
        assert values.Ok?;
        props := props[apps[j].slotIndex := PropertySlot(slot.offsets + apps[j].offsetsTail, values.value)];
        j := j + 1;
      }
      assert apps[..j] == apps;
    }

    method InsertEdges(inserts: seq<EdgeSlotInsert>)
      requires SlotsRise(inserts, |edges|) && InsertsReady(edges, inserts)
      modifies this`edges
      ensures InsertedUpTo(old(edges), inserts, edges)
    {
      hide *;
      ghost var mids := edges;
      InsertedAtFirst(mids);
      assert inserts[..0] == [];
      var j := 0;
      while j < |inserts|
        invariant 0 <= j <= |inserts|
        invariant InsertedUpTo(mids, inserts[..j], edges)
      {
        InsertedReads(mids, inserts, j, edges);
        var ins := inserts[j];
        var slot := edges[ins.slotIndex];
        var after := slot.(offsets := ins.offsets);
        if ins.batches != [] {
          after := MergeInsert(slot, ins);
        } else {
          NothingSpliced(slot, ins);
        }
        InsertedNext(mids, inserts, j, edges, after);
        edges := edges[ins.slotIndex := after];
        j := j + 1;
      }
      assert inserts[..j] == inserts;
    }
  }

  method MergeInsert(slot: EdgeSlot, ins: EdgeSlotInsert) returns (after: EdgeSlot)
    requires InsertReady(slot, ins) && ins.batches != []
    ensures IsSpliced(slot, ins, after)
  {
    // The batches were placed against the slot's own offsets, so the merge cannot fail.
    var merged := MergeEdgeBatches(slot, ins.batches, ins.neighbors, ins.values);
    assert merged.Ok?;
    after := merged.value.(offsets := ins.offsets);
  }

  lemma NothingSpliced(slot: EdgeSlot, ins: EdgeSlotInsert)
    requires ins.batches == []
    ensures IsSpliced(slot, ins, slot.(offsets := ins.offsets))
  {
  }

  lemma StruckNext(nodes: seq<seq<bool>>, tombstones: seq<RawNodeId>, j: nat)
    requires j < |tombstones| && tombstones[j].kind < |nodes|
    ensures var n, before := tombstones[j], Tombstoned(nodes, tombstones[..j]);
            Tombstoned(nodes, tombstones[..j + 1])
            == if n.seqNo < |before[n.kind]| then before[n.kind := before[n.kind][n.seqNo := true]] else before
  {
    var n, before, after := tombstones[j], Tombstoned(nodes, tombstones[..j]), Tombstoned(nodes, tombstones[..j + 1]);
    forall k, v | 0 <= k < |nodes| && 0 <= v < |nodes[k]|
      ensures Struck(tombstones[..j + 1], k, v) <==> Struck(tombstones[..j], k, v) || (n.kind == k && n.seqNo == v)
    {
      if Struck(tombstones[..j], k, v) {
        var i :| 0 <= i < j && tombstones[..j][i].kind == k && tombstones[..j][i].seqNo == v;
        assert tombstones[..j + 1][i] == tombstones[i];
      }
      assert tombstones[..j + 1][j] == n;
    }
    var expected := if n.seqNo < |before[n.kind]| then before[n.kind := before[n.kind][n.seqNo := true]] else before;
    forall k | 0 <= k < |nodes|
      ensures after[k] == expected[k]
    {
    }
  }

  function EmptyRaw(s: Schema): RawGraph {
    RawGraph(
      seq(s.nodeKinds, _ => []),
      seq(s.EdgeStorageSize(), i requires 0 <= i < s.EdgeStorageSize() => EdgeSlot([], [], NewArray(EdgeTypeAt(s, i)))),
      seq(s.PropertyStorageSize(), i requires 0 <= i < s.PropertyStorageSize() =>
          PropertySlot([], NewArray(PropTypeAt(s, i)))),
      [])
  }

  lemma EmptyIsWellFormed(s: Schema)
    requires s.Valid()
    ensures WellFormed(s, EmptyRaw(s))
  {
    forall i | 0 <= i < s.EdgeStorageSize()
      ensures s.EdgeSlotKind(i) < s.nodeKinds && s.EdgeSlotEdge(i) < |s.edgeTypes|
    {
      s.EdgeSlotAt(i);
    }
    forall i | 0 <= i < s.PropertyStorageSize()
      ensures s.PropertySlotKind(i) < s.nodeKinds && s.PropertySlotProp(i) < |s.propTypes|
      ensures s.propTypes[s.PropertySlotProp(i)] != NoType
    {
      s.PropertySlotAt(i);
      assert s.propTypes[s.PropertySlotProp(i)] in s.propTypes;
    }
  }

  // ----- committing

  /** What the staged writes make of the slots is the graph the specification asks for. */
  lemma CommittedMeans(s: Schema, g: Graph, d: GraphDiff, c: Classified, raw: RawGraph, parts: StagedParts,
                       after: RawGraph)
    requires s.Valid() && Shaped(s, g) && PartsReady(s, g, d, c, raw, parts)
    requires after.nodes == NodesAfter(g.nodes, c.tombstones, d.newNodes) && after.strings == raw.strings
    requires after.props == AppendedProps(Replaced(raw.props, parts.propReplacements), parts.propAppends)
    requires InsertedUpTo(Replaced(raw.edges, parts.edgeReplacements), parts.edgeInserts, after.edges)
    ensures WellFormed(s, after) && Meaning(s, after) == ApplyClassified(s, g, d, c)
  {
    hide NodesAfter, InsertFor, TableAfter, EdgeSlotOk, PropSlotOk, EdgeTable, PropTable, EdgesAfter, PropsAfter,
         Schema.EdgeSlotKind, Schema.EdgeSlotEdge, Schema.PropertySlotKind, Schema.PropertySlotProp, LiveEdges;
    forall i | 0 <= i < |after.edges|
      ensures EdgeCommitted(s, g, d, c, after, i)
    {
      EdgeCommits(s, g, d, c, raw, parts, after, i);
    }
    forall i | 0 <= i < |after.props|
      ensures PropCommitted(s, g, d, c, after, i)
    {
      PropCommits(s, g, d, c, raw, parts, after, i);
    }
    EachCommitted(s, g, d, c, after);
  }

  ghost predicate EdgeCommitted(s: Schema, g: Graph, d: GraphDiff, c: Classified, after: RawGraph, i: nat)
    requires Shaped(s, g)
  {
    var k, e := s.EdgeSlotKind(i), s.EdgeSlotEdge(i);
    var live := LiveEdges(s, g.nodes, c.tombstones, d.newNodes, d.newEdges);
    && i < |after.edges| == |g.edges|
    && k < |after.nodes| && e < |s.edgeTypes|
    && EdgeSlotOk(after.edges[i], s.edgeTypes[e], |after.nodes[k]|, after.strings)
    && EdgeTable(after.strings, after.edges[i], |after.nodes[k]|) == EdgesAfter(s, g, c.claims, d.newNodes, live)[i]
  }

  ghost predicate PropCommitted(s: Schema, g: Graph, d: GraphDiff, c: Classified, after: RawGraph, i: nat)
    requires Shaped(s, g)
  {
    var k, p := s.PropertySlotKind(i), s.PropertySlotProp(i);
    && i < |after.props| == |g.props|
    && k < |after.nodes| && p < |s.propTypes|
    && PropSlotOk(after.props[i], s.propTypes[p], |after.nodes[k]|, after.strings)
    && PropTable(after.strings, after.props[i], |after.nodes[k]|) == PropsAfter(s, g, c.updates, d.newNodes)[i]
  }

  lemma EdgeCommits(s: Schema, g: Graph, d: GraphDiff, c: Classified, raw: RawGraph, parts: StagedParts,
                    after: RawGraph, i: nat)
    requires s.Valid() && Shaped(s, g) && PartsReady(s, g, d, c, raw, parts)
    requires after.nodes == NodesAfter(g.nodes, c.tombstones, d.newNodes) && after.strings == raw.strings
    requires InsertedUpTo(Replaced(raw.edges, parts.edgeReplacements), parts.edgeInserts, after.edges)
    requires i < |after.edges|
    ensures EdgeCommitted(s, g, d, c, after, i)
  {
    hide InsertFor, EdgeSlotOk, EdgeTable, IsSpliced, InsertReady, Kept, SlotHalves, LiveEdges;
    s.EdgeSlotAt(i);
    var live := LiveEdges(s, g.nodes, c.tombstones, d.newNodes, d.newEdges);
    var t := EdgesAfter(s, g, c.claims, d.newNodes, live)[i];
    assert InsertLeadsTo(Replaced(raw.edges, parts.edgeReplacements)[i], EdgeTypeAt(s, i), raw.strings, t,
                         InsertFor(parts.edgeInserts, i));
    assert EdgeSlotIs(after.edges[i], EdgeTypeAt(s, i), raw.strings, t);
    assert |t.runs| == |after.nodes[s.EdgeSlotKind(i)]|;
  }

  lemma PropCommits(s: Schema, g: Graph, d: GraphDiff, c: Classified, raw: RawGraph, parts: StagedParts,
                    after: RawGraph, i: nat)
    requires s.Valid() && Shaped(s, g) && PartsReady(s, g, d, c, raw, parts)
    requires after.nodes == NodesAfter(g.nodes, c.tombstones, d.newNodes) && after.strings == raw.strings
    requires after.props == AppendedProps(Replaced(raw.props, parts.propReplacements), parts.propAppends)
    requires i < |after.props|
    ensures PropCommitted(s, g, d, c, after, i)
  {
    hide PropSlotOk, PropTable, Updated, AppendedProps, Replaced;
    s.PropertySlotAt(i);
    var t := TableAfter(s, g, c.updates, d.newNodes, i);
    assert PropSlotIs(after.props[i], PropTypeAt(s, i), raw.strings, t);
    assert |t.runs| == |after.nodes[s.PropertySlotKind(i)]|;
    assert t == PropsAfter(s, g, c.updates, d.newNodes)[i];
  }

  lemma EachCommitted(s: Schema, g: Graph, d: GraphDiff, c: Classified, after: RawGraph)
    requires s.Valid() && Shaped(s, g) && after.nodes == NodesAfter(g.nodes, c.tombstones, d.newNodes)
    requires |after.edges| == |g.edges| && forall i | 0 <= i < |after.edges| :: EdgeCommitted(s, g, d, c, after, i)
    requires |after.props| == |g.props| && forall i | 0 <= i < |after.props| :: PropCommitted(s, g, d, c, after, i)
    ensures WellFormed(s, after) && Meaning(s, after) == ApplyClassified(s, g, d, c)
  {
    hide EdgeSlotOk, PropSlotOk, EdgeTable, PropTable, EdgesAfter, PropsAfter, LiveEdges,
         Schema.EdgeSlotKind, Schema.EdgeSlotEdge, Schema.PropertySlotKind, Schema.PropertySlotProp;
    var live := LiveEdges(s, g.nodes, c.tombstones, d.newNodes, d.newEdges);
    forall i | 0 <= i < |after.edges|
      ensures var k, e := s.EdgeSlotKind(i), s.EdgeSlotEdge(i);
              && k < |after.nodes| && e < |s.edgeTypes|
              && EdgeSlotOk(after.edges[i], s.edgeTypes[e], |after.nodes[k]|, after.strings)
              && EdgeTable(after.strings, after.edges[i], |after.nodes[k]|)
                 == EdgesAfter(s, g, c.claims, d.newNodes, live)[i]
    {
      assert EdgeCommitted(s, g, d, c, after, i);
    }
    forall i | 0 <= i < |after.props|
      ensures var k, p := s.PropertySlotKind(i), s.PropertySlotProp(i);
              && k < |after.nodes| && p < |s.propTypes|
              && PropSlotOk(after.props[i], s.propTypes[p], |after.nodes[k]|, after.strings)
              && PropTable(after.strings, after.props[i], |after.nodes[k]|)
                 == PropsAfter(s, g, c.updates, d.newNodes)[i]
    {
      assert PropCommitted(s, g, d, c, after, i);
    }
  }

  /** What preparing a diff asks of its caller beyond a diff of known kinds. */
  ghost predicate Preparable(s: Schema, raw: RawGraph, d: GraphDiff, texts: set<Text>)
    requires s.Valid() && WellFormed(s, raw)
  {
    && WellKinded(s, d)
    && HandlesInRange(s, Meaning(s, raw), d.changes)
    && EndsFit(s, Remapped(raw.nodes, d.newNodes), d.newEdges)
    && Covers(texts, d)
  }

  /** A staged diff: the graph holds the new strings, and nothing else of the diff yet. */
  ghost predicate IsStaged(s: Schema, d: GraphDiff, before: RawGraph, now: RawGraph, baseline: Option<nat>,
                           parts: StagedParts)
  {
    && s.Valid() && WellFormed(s, before) && Distinct(before.strings)
    && now == before.(strings := now.strings) && before.strings <= now.strings
    && baseline == Some(|before.strings|)
    && WellKinded(s, d) && Accepts(s, Meaning(s, before), d)
    && Classify(s, Meaning(s, before), d.changes).Ok?
    && PartsReady(s, Meaning(s, before), d, Classify(s, Meaning(s, before), d.changes).value, now, parts)
  }

  class StagedDiff {
    const graph: FlatGraph
    /** Where the strings interned by staging start, until commit takes them over. */
    var stringsBaseline: Option<nat>
    var parts: StagedParts

    /** Staged against `before`, which the graph still is but for the interned strings. */
    ghost predicate Holds(d: GraphDiff, before: RawGraph)
      reads this, graph, graph.strings, graph.strings.tags, graph.strings.slots
    {
      graph.strings.Valid() && IsStaged(graph.schema, d, before, graph.Raw(), stringsBaseline, parts)
    }

    lemma HoldsWhen(d: GraphDiff, before: RawGraph)
      requires graph.strings.Valid() && IsStaged(graph.schema, d, before, graph.Raw(), stringsBaseline, parts)
      ensures Holds(d, before)
    {
    }

    lemma HoldsReads(d: GraphDiff, before: RawGraph)
      requires Holds(d, before)
      ensures graph.strings.Valid() && IsStaged(graph.schema, d, before, graph.Raw(), stringsBaseline, parts)
    {
    }

    constructor (graph: FlatGraph, stringsBaseline: nat, parts: StagedParts)
      ensures this.graph == graph && this.stringsBaseline == Some(stringsBaseline) && this.parts == parts
    {
      this.graph := graph;
      this.stringsBaseline := Some(stringsBaseline);
      this.parts := parts;
    }

    /** Dropping a staged diff that was not committed leaves the graph exactly as it was. */
    method Drop(ghost d: GraphDiff, ghost before: RawGraph)
      requires stringsBaseline.Some? ==> Holds(d, before)
      modifies graph.strings, graph.strings.tags, graph.strings.slots
      ensures old(stringsBaseline).Some? ==> graph.Raw() == before && graph.Valid()
      ensures old(stringsBaseline).None? ==> graph.Raw() == old(graph.Raw())
    {
      if stringsBaseline.Some? {
        DroppedIsBefore(graph.schema, d, before, graph.Raw(), stringsBaseline, parts);
        graph.strings.Truncate(stringsBaseline.value);
      }
    }

    /** Writes everything that was staged and hands out the ids of the new nodes. */
    method Commit(ghost d: GraphDiff, ghost before: RawGraph) returns (ids: seq<NewNodeId>)
      requires Holds(d, before)
      modifies this, graph
      ensures stringsBaseline.None?
      ensures graph.strings.Valid() && graph.strings.List() == old(graph.strings.List())
      ensures CommitOutcome(graph.schema, d, before, graph.Raw(), ids)
    {
      hide *;
      ghost var s, raw := graph.schema, graph.Raw();
      HoldsReads(d, before);
      RawIs(graph);
      StagedSteps(s, d, before, raw, stringsBaseline, parts);
      stringsBaseline := None;
      graph.SetTombstones(parts.tombstones);
      graph.ReplaceProps(parts.propReplacements);
      graph.ReplaceEdges(parts.edgeReplacements);
      graph.AppendMetas(parts.newMetas);
      graph.AppendProps(parts.propAppends);
      graph.InsertEdges(parts.edgeInserts);
      RawIs(graph);
      OutcomeIs(s, d, before, raw, old(stringsBaseline), parts, graph.Raw());
      ids := parts.remap;
      parts := StagedParts([], [], [], [], [], [], []);
    }
  }

  /** The graph after a commit: well formed, and worth exactly what the specification says. */
  ghost predicate CommitOutcome(s: Schema, d: GraphDiff, before: RawGraph, after: RawGraph, ids: seq<NewNodeId>) {
    && s.Valid() && WellFormed(s, before) && WellFormed(s, after)
    && WellKinded(s, d) && Accepts(s, Meaning(s, before), d)
    && Meaning(s, after) == ApplyDiff(s, Meaning(s, before), d)
    && ids == Remapped(before.nodes, d.newNodes)
  }

  lemma DroppedIsBefore(s: Schema, d: GraphDiff, before: RawGraph, now: RawGraph, baseline: Option<nat>,
                        parts: StagedParts)
    requires IsStaged(s, d, before, now, baseline, parts)
    ensures s.Valid() && WellFormed(s, before) && baseline.Some?
    ensures now.(strings := if baseline.value < |now.strings| then now.strings[..baseline.value] else now.strings)
            == before
  {
  }

  /** Every write of the commit meets the state it was staged for. */
  lemma StagedSteps(s: Schema, d: GraphDiff, before: RawGraph, now: RawGraph, baseline: Option<nat>, parts: StagedParts)
    requires IsStaged(s, d, before, now, baseline, parts)
    ensures forall n <- parts.tombstones :: n.kind < |now.nodes|
    ensures ReplacedInUse(now.props, parts.propReplacements)
    ensures ReplacementsInRange(now.edges, parts.edgeReplacements)
    ensures |parts.newMetas| == |now.nodes|
    ensures AppendsReady(Replaced(now.props, parts.propReplacements), parts.propAppends)
    ensures SlotsRise(parts.edgeInserts, |Replaced(now.edges, parts.edgeReplacements)|)
    ensures InsertsReady(Replaced(now.edges, parts.edgeReplacements), parts.edgeInserts)
  {
    hide Classify, Accepts, InsertFor, InsertReady, InsertsReady, EdgesAfter, LiveEdges, Replaced,
         AppendsReady, PropsAre, WellFormed, FreshMetas;
    var g := Meaning(s, before);
    MeaningNodes(s, before);
    WellKindedReads(s, d);
    TombstonesInRange(s, g, d.changes);
    FreshMetasLength(g.nodes, d.newNodes, parts.newMetas);
    var c := Classify(s, g, d.changes).value;
    var mids, live := Replaced(now.edges, parts.edgeReplacements),
        LiveEdges(s, g.nodes, c.tombstones, d.newNodes, d.newEdges);
    forall i | 0 <= i < |mids| && InsertFor(parts.edgeInserts, i).Some?
      ensures InsertReady(mids[i], InsertFor(parts.edgeInserts, i).value)
    {
      assert InsertLeadsTo(mids[i], EdgeTypeAt(s, i), now.strings, EdgesAfter(s, g, c.claims, d.newNodes, live)[i],
                           InsertFor(parts.edgeInserts, i));
    }
    AllInsertsReady(mids, parts.edgeInserts);
  }

  lemma FreshMetasLength(nodes: seq<seq<bool>>, newNodes: seq<NewNode>, metas: seq<seq<bool>>)
    requires FreshMetas(nodes, newNodes, metas)
    ensures |metas| == |nodes|
  {
  }

  lemma OutcomeIs(s: Schema, d: GraphDiff, before: RawGraph, now: RawGraph, baseline: Option<nat>, parts: StagedParts,
                  after: RawGraph)
    requires IsStaged(s, d, before, now, baseline, parts) && |parts.newMetas| == |now.nodes|
    requires after.nodes == Lengthened(Tombstoned(now.nodes, parts.tombstones), parts.newMetas)
    requires after.props == AppendedProps(Replaced(now.props, parts.propReplacements), parts.propAppends)
    requires InsertedUpTo(Replaced(now.edges, parts.edgeReplacements), parts.edgeInserts, after.edges)
    requires after.strings == now.strings
    ensures CommitOutcome(s, d, before, after, parts.remap)
  {
    hide Classify, Accepts, InsertFor, InsertedUpTo, EdgesAfter, LiveEdges, Replaced, AppendedProps, AppendsReady,
         PropsAre, WellFormed, PropPartsReady, EdgePartsReady, Tombstoned, Lengthened, NodesAfter, FreshMetas,
         Remapped;
    var g := Meaning(s, before);
    var c := Classify(s, g, d.changes).value;
    MeaningNodes(s, before);
    NodesWritten(s, before.nodes, c.tombstones, d.newNodes, parts.newMetas);
    CommittedMeans(s, g, d, c, now, parts, after);
  }

  /**
   Validates a diff and stages every write it implies. A failing check leaves the graph, the
   strings included, as it was.
   */
  method Prepare(d: GraphDiff, graph: FlatGraph, ghost texts: set<Text>) returns (r: Result<StagedDiff, Error>)
    requires graph.Valid() && PoolReady(graph.strings, texts) && Preparable(graph.schema, graph.Raw(), d, texts)
    modifies graph.strings, graph.strings.tags, graph.strings.slots
    ensures graph.strings.Valid()
    ensures (graph.strings.tags == old(graph.strings.tags) || fresh(graph.strings.tags))
            && (graph.strings.slots == old(graph.strings.slots) || fresh(graph.strings.slots))
    ensures WellKinded(graph.schema, d) && (r.Ok? <==> Accepts(graph.schema, old(graph.Value()), d))
    ensures Answers(r, StageOutcome(graph.schema, old(graph.Value()), d))
    ensures r.Err? ==> graph.Raw() == old(graph.Raw())
    ensures r.Ok? ==> fresh(r.value) && r.value.graph == graph && r.value.Holds(d, old(graph.Raw()))
    ensures r.Ok? ==>
              var updates := Classify(graph.schema, old(graph.Value()), d.changes).value.updates;
              graph.strings.List()
                  == InternedAll(old(graph.strings.List()), DiffTexts(graph.schema, old(graph.Value()), d, updates))
  {
    hide *;
    graph.ValidReads();
    var s := graph.schema;
    ghost var raw := graph.Raw();
    PreparableReads(s, raw, d, texts);
    ghost var outcome := StageOutcome(s, Meaning(s, raw), d);
    PoolDistinct(graph.strings, texts);
    PoolIsValid(graph.strings, texts);
    graph.strings.LenCounts();
    var baseline := graph.strings.Len();
    var parts := Stage(s, d, graph.nodes, graph.edges, graph.props, graph.strings, texts, raw);
    PoolIsValid(graph.strings, texts);
    if parts.Err? {
      ghost var now := graph.strings.List();
      graph.strings.Truncate(baseline);
      CutBack(raw.strings, now);
      RawIs(graph);
      SameAnswer<StagedParts, StagedDiff>(parts, Err(parts.error), outcome);
      return Err(parts.error);
    }
    RawIs(graph);
    IsStagedNow(s, d, raw, graph.Raw(), parts.value);
    var staged := new StagedDiff(graph, baseline, parts.value);
    staged.HoldsWhen(d, raw);
    SameAnswer(parts, Ok(staged), outcome);
    return Ok(staged);
  }

  lemma RawIs(graph: FlatGraph)
    ensures graph.Raw() == RawGraph(graph.nodes, graph.edges, graph.props, graph.strings.List())
  {
  }

  lemma PreparableReads(s: Schema, raw: RawGraph, d: GraphDiff, texts: set<Text>)
    requires s.Valid() && WellFormed(s, raw) && Preparable(s, raw, d, texts)
    ensures WellKinded(s, d) && Covers(texts, d) && EndsFit(s, Remapped(raw.nodes, d.newNodes), d.newEdges)
    ensures forall c <- d.changes :: c.UpdateNodeProperty? ==> c.prop < |s.propTypes|
    ensures HandlesInRange(s, Meaning(s, raw), d.changes)
  {
  }

  lemma PoolIsValid(strings: StringsPool, texts: set<Text>)
    requires PoolReady(strings, texts)
    ensures strings.Valid()
  {
  }

  lemma CutBack(strings: seq<Text>, now: seq<Text>)
    requires strings <= now
    ensures (if |strings| < |now| then now[..|strings|] else now) == strings
  {
  }

  lemma IsStagedNow(s: Schema, d: GraphDiff, before: RawGraph, now: RawGraph, parts: StagedParts)
    requires s.Valid() && WellFormed(s, before) && Distinct(before.strings)
    requires now == before.(strings := now.strings) && before.strings <= now.strings
    requires WellKinded(s, d) && Accepts(s, Meaning(s, before), d)
    requires Classify(s, Meaning(s, before), d.changes).Ok?
    requires PartsReady(s, Meaning(s, before), d, Classify(s, Meaning(s, before), d.changes).value, now, parts)
    ensures IsStaged(s, d, before, now, Some(|before.strings|), parts)
  {
    hide WellFormed, Accepts, Classify, PartsReady;
  }

  /** Applies a diff: prepares it and commits it at once. */
  method Apply(d: GraphDiff, graph: FlatGraph, ghost texts: set<Text>) returns (r: Result<seq<NewNodeId>, Error>)
    requires graph.Valid() && PoolReady(graph.strings, texts) && Preparable(graph.schema, graph.Raw(), d, texts)
    modifies graph, graph.strings, graph.strings.tags, graph.strings.slots
    ensures graph.Valid() && WellKinded(graph.schema, d)
    ensures r.Ok? <==> Accepts(graph.schema, old(graph.Value()), d)
    ensures Answers(r, StageOutcome(graph.schema, old(graph.Value()), d))
    ensures r.Err? ==> graph.Raw() == old(graph.Raw())
    ensures r.Ok? ==>
              && graph.Value() == ApplyDiff(graph.schema, old(graph.Value()), d)
              && r.value == Remapped(old(graph.nodes), d.newNodes)
    ensures r.Ok? ==>
              var updates := Classify(graph.schema, old(graph.Value()), d.changes).value.updates;
              graph.strings.List()
                  == InternedAll(old(graph.strings.List()), DiffTexts(graph.schema, old(graph.Value()), d, updates))
  {
    hide *;
    graph.ValidReads();
    ghost var raw := graph.Raw();
    PreparableReads(graph.schema, raw, d, texts);
    ghost var outcome := StageOutcome(graph.schema, Meaning(graph.schema, raw), d);
    var staged := Prepare(d, graph, texts);
    if staged.Err? {
      graph.ValidWhen();
      SameAnswer<StagedDiff, seq<NewNodeId>>(staged, Err(staged.error), outcome);
      return Err(staged.error);
    }
    var ids := staged.value.Commit(d, raw);
    CommitReads(graph.schema, d, raw, graph.Raw(), ids);
    graph.ValidWhen();
    graph.ValidReads();
    RawIs(graph);
    SameAnswer(staged, Ok(ids), outcome);
    return Ok(ids);
  }

  lemma CommitReads(s: Schema, d: GraphDiff, before: RawGraph, after: RawGraph, ids: seq<NewNodeId>)
    requires CommitOutcome(s, d, before, after, ids)
    ensures s.Valid() && WellFormed(s, before) && WellFormed(s, after) && WellKinded(s, d)
    ensures Accepts(s, Meaning(s, before), d) && Meaning(s, after) == ApplyDiff(s, Meaning(s, before), d)
    ensures ids == Remapped(before.nodes, d.newNodes)
  {
    hide WellFormed, Accepts, Meaning, ApplyDiff;
  }
}
