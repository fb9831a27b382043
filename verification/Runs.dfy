/** Whole runs: integrity holds after every sequence of diffs, from the empty graph or any sound one. */
module Runs {
  import opened Wrappers
  import opened Storage
  import opened Schemas
  import opened Graphs
  import opened Diffs
  import opened Outcomes
  import opened FlatGraphs
  import opened NewNodes
  import opened PropertySlots
  import opened Staging
  import opened Committing
  import EdgeBags
  import opened Pairing
  import opened Preserving

  /** A diff that is accepted, whose edge handles are fresh and whose surviving values resolve. */
  ghost predicate Proper(s: Schema, g: Graph, d: GraphDiff)
    requires Shaped(s, g)
  {
    && WellKinded(s, d)
    && FreshHandles(s, g, d.changes)
    && Accepts(s, g, d)
    && SumOf(Counts(ApplyDiff(s, g, d).nodes)) <= U32_MAX
    && Classify(s, g, d.changes).Ok?
    && PayloadsResolve(s, g, d, Classify(s, g, d.changes).value)
  }

  lemma ApplyShapes(s: Schema, g: Graph, d: GraphDiff)
    requires Shaped(s, g) && Proper(s, g, d)
    ensures Shaped(s, ApplyDiff(s, g, d))
  {
    hide *;
    ProperReads(s, g, d);
    WellKindedReads(s, d);
    AcceptsClassifies(s, g, d);
    ShapedAfter(s, g, d, Classify(s, g, d.changes).value);
  }

  lemma ProperReads(s: Schema, g: Graph, d: GraphDiff)
    requires Shaped(s, g) && Proper(s, g, d)
    ensures WellKinded(s, d) && FreshHandles(s, g, d.changes) && Accepts(s, g, d) && Classify(s, g, d.changes).Ok?
    ensures SumOf(Counts(ApplyDiff(s, g, d).nodes)) <= U32_MAX
    ensures PayloadsResolve(s, g, d, Classify(s, g, d.changes).value)
  {
    hide WellKinded, FreshHandles, Accepts, ApplyDiff, PayloadsResolve;
  }

  /** A run: every diff proper for the graph the ones before it leave. */
  ghost predicate Run(s: Schema, g: Graph, ds: seq<GraphDiff>)
    requires Shaped(s, g)
    decreases |ds|
  {
    ds != [] ==> Proper(s, g, ds[0]) && (ApplyShapes(s, g, ds[0]); Run(s, ApplyDiff(s, g, ds[0]), ds[1..]))
  }

  /** The graph a run ends with. */
  ghost function RunEnd(s: Schema, g: Graph, ds: seq<GraphDiff>): Graph
    requires Shaped(s, g) && Run(s, g, ds)
    decreases |ds|
  {
    if ds == [] then g
    else
      ApplyShapes(s, g, ds[0]);
      RunEnd(s, ApplyDiff(s, g, ds[0]), ds[1..])
  }

  /** Integrity holds after every run from a coherent graph. */
  lemma {:induction false} RunsKeepCoherent(s: Schema, g: Graph, ds: seq<GraphDiff>)
    requires s.Valid() && Shaped(s, g) && Coherent(s, g) && Run(s, g, ds)
    ensures Coherent(s, RunEnd(s, g, ds))
    decreases |ds|
  {
    hide Coherent, Proper, ApplyDiff;
    if ds != [] {
      ProperReads(s, g, ds[0]);
      DiffKeepsCoherent(s, g, ds[0]);
      ApplyShapes(s, g, ds[0]);
      RunsKeepCoherent(s, ApplyDiff(s, g, ds[0]), ds[1..]);
    }
  }

  /** The empty graph is sound. */
  lemma EmptyIsSound(s: Schema)
    requires s.Valid()
    ensures Sound(s, EmptyRaw(s))
  {
    hide EdgeTableOk, PropTableOk, Schema.EdgeSlotKind, Schema.PropertySlotKind, Schema.EdgeSlotEdge,
         Schema.PropertySlotProp;
    EmptyIsWellFormed(s);
    var raw := EmptyRaw(s);
    var g := Meaning(s, raw);
    NoNodes(s.nodeKinds);
    assert Counts(g.nodes) == seq(s.nodeKinds, _ => 0);
    forall i | 0 <= i < |g.edges|
      ensures s.EdgeSlotEdge(i) < |s.edgeTypes| && s.EdgeSlotKind(i) < |g.nodes| && g.edges[i].runs == []
    {
      s.EdgeSlotAt(i);
    }
    forall i | 0 <= i < |g.props|
      ensures s.PropertySlotProp(i) < |s.propTypes| && s.PropertySlotKind(i) < |g.nodes| && g.props[i].runs == []
    {
      s.PropertySlotAt(i);
    }
    EmptyIsPaired(s, g);
    EmptyTablesOk(s, g);
  }

  lemma EmptyTablesOk(s: Schema, g: Graph)
    requires s.Valid() && Shaped(s, g)
    requires forall i | 0 <= i < |g.edges| :: s.EdgeSlotEdge(i) < |s.edgeTypes| && g.edges[i].runs == []
    requires forall i | 0 <= i < |g.props| :: s.PropertySlotProp(i) < |s.propTypes| && g.props[i].runs == []
    ensures EdgeTablesOk(s, Counts(g.nodes), g.edges) && PropTablesOk(s, Counts(g.nodes), g.props)
    ensures forall i | 0 <= i < |g.edges| :: UnusedEmpty(g.edges[i])
  {
  }

  lemma {:induction false} NoNodes(n: nat)
    ensures SumOf(seq(n, _ => 0)) == 0
  {
    if n > 0 {
      NoNodes(n - 1);
      assert seq(n, _ => 0)[..n - 1] == seq(n - 1, _ => 0);
    }
  }

  lemma EmptyIsPaired(s: Schema, g: Graph)
    requires Shaped(s, g) && forall i | 0 <= i < |g.edges| :: g.edges[i].runs == []
    ensures Paired(s, g)
  {
    forall e | 0 <= e < |s.edgeTypes|
      ensures Edges(s, g.edges, Out, e) == [] && Edges(s, g.edges, In, e) == []
    {
      EdgeBags.BlockBounds(s, Out, e);
      EdgeBags.BlockBounds(s, In, e);
      var outs, ins := Block(s, g.edges, Out, e), Block(s, g.edges, In, e);
      assert forall k | 0 <= k < |outs| :: outs[k] == g.edges[s.EdgeBlock(Out, e) + k];
      assert forall k | 0 <= k < |ins| :: ins[k] == g.edges[s.EdgeBlock(In, e) + k];
      EmptyBlock(Out, outs);
      EmptyBlock(In, ins);
    }
  }

  lemma {:induction false} EmptyBlock(d: Direction, block: seq<Table<Half<PropertyValue>>>)
    requires forall k | 0 <= k < |block| :: block[k].runs == []
    ensures BlockEdges(d, block) == []
  {
    if block != [] {
      EmptyBlock(d, block[..|block| - 1]);
    }
  }

  /**
   The same for the stored graph: after preparing and committing an accepted diff with fresh
   handles the storage is sound exactly when ids still fit and surviving values resolve.
   */
  lemma CommitKeepsSound(s: Schema, d: GraphDiff, before: RawGraph, after: RawGraph, ids: seq<NewNodeId>)
    requires CommitOutcome(s, d, before, after, ids) && Sound(s, before) && Distinct(after.strings)
    requires FreshHandles(s, Meaning(s, before), d.changes)
    ensures Classify(s, Meaning(s, before), d.changes).Ok?
    ensures Sound(s, after)
       <==> SumOf(Counts(after.nodes)) <= U32_MAX
            && PayloadsResolve(s, Meaning(s, before), d, Classify(s, Meaning(s, before), d.changes).value)
  {
    hide Coherent, Accepts, Classify, WellFormed, PayloadsResolve, FreshHandles, WellKinded, ApplyDiff;
    DiffKeepsCoherent(s, Meaning(s, before), d);
    MeaningNodes(s, after);
  }

  lemma OutcomeOf(s: Schema, d: GraphDiff, before: RawGraph, after: RawGraph, ids: seq<NewNodeId>)
    requires s.Valid() && WellFormed(s, before) && WellFormed(s, after)
    requires WellKinded(s, d) && Accepts(s, Meaning(s, before), d)
    requires Meaning(s, after) == ApplyDiff(s, Meaning(s, before), d) && ids == Remapped(before.nodes, d.newNodes)
    ensures CommitOutcome(s, d, before, after, ids)
  {
    hide WellFormed, WellKinded, Accepts, Meaning, ApplyDiff, Remapped;
  }

  lemma ValidParts(graph: FlatGraph)
    requires graph.Valid()
    ensures graph.schema.Valid() && WellFormed(graph.schema, graph.Raw()) && Distinct(graph.strings.List())
    ensures graph.Value() == Meaning(graph.schema, graph.Raw()) && graph.Raw().strings == graph.strings.List()
    ensures graph.Raw().nodes == graph.nodes
  {
    hide WellFormed, Meaning, Distinct;
  }

  /**
   Applying a diff with fresh handles to a sound stored graph: an error leaves it as it was, and
   after a success it is sound exactly when ids still fit and surviving values resolve.
   */
  method ApplyToSound(d: GraphDiff, graph: FlatGraph, ghost texts: set<Text>) returns (r: Result<seq<NewNodeId>, Error>)
    requires graph.Valid() && PoolReady(graph.strings, texts) && Preparable(graph.schema, graph.Raw(), d, texts)
    requires Sound(graph.schema, graph.Raw()) && FreshHandles(graph.schema, graph.Value(), d.changes)
    modifies graph, graph.strings, graph.strings.tags, graph.strings.slots
    ensures graph.Valid() && WellKinded(graph.schema, d)
    ensures r.Ok? <==> Accepts(graph.schema, old(graph.Value()), d)
    ensures Answers(r, StageOutcome(graph.schema, old(graph.Value()), d))
    ensures r.Err? ==> graph.Raw() == old(graph.Raw()) && Sound(graph.schema, graph.Raw())
    ensures r.Ok? ==>
              && r.value == Remapped(old(graph.nodes), d.newNodes)
              && graph.Value() == ApplyDiff(graph.schema, old(graph.Value()), d)
    ensures r.Ok? ==>
              var c := Classify(graph.schema, old(graph.Value()), d.changes);
              && c.Ok?
              && (Sound(graph.schema, graph.Raw())
                  <==> SumOf(Counts(graph.nodes)) <= U32_MAX
                       && PayloadsResolve(graph.schema, old(graph.Value()), d, c.value))
  {
    hide *;
    ValidParts(graph);
    ghost var before := graph.Raw();
    r := Apply(d, graph, texts);
    ValidParts(graph);
    if r.Ok? {
      OutcomeOf(graph.schema, d, before, graph.Raw(), r.value);
      CommitKeepsSound(graph.schema, d, before, graph.Raw(), r.value);
    }
  }

  /**
   A history of stored graphs: each is what committing the next diff left of the one before it,
   with fresh handles, the node total within 32 bits and surviving values that resolve.
   */
  ghost predicate History(s: Schema, raws: seq<RawGraph>, ds: seq<GraphDiff>, ids: seq<seq<NewNodeId>>) {
    && |raws| == |ds| + 1 && |ids| == |ds|
    && forall i {:trigger ds[i]} | 0 <= i < |ds| :: CommittedProperly(s, ds[i], raws[i], raws[i + 1], ids[i])
  }

  ghost predicate CommittedProperly(s: Schema, d: GraphDiff, before: RawGraph, after: RawGraph, ids: seq<NewNodeId>) {
    && CommitOutcome(s, d, before, after, ids) && Distinct(after.strings)
    && FreshHandles(s, Meaning(s, before), d.changes)
    && SumOf(Counts(after.nodes)) <= U32_MAX
    && var c := Classify(s, Meaning(s, before), d.changes);
       c.Ok? && PayloadsResolve(s, Meaning(s, before), d, c.value)
  }

  /** Every stored graph of a history that starts sound is sound: the integrity check passes after each commit. */
  lemma {:induction false} HistoriesStaySound(s: Schema, raws: seq<RawGraph>, ds: seq<GraphDiff>,
                                              ids: seq<seq<NewNodeId>>, k: nat)
    requires s.Valid() && History(s, raws, ds, ids) && Sound(s, raws[0]) && k <= |ds|
    ensures Sound(s, raws[k])
  {
    hide Sound, CommitOutcome, FreshHandles, PayloadsResolve, Classify, Meaning;
    if k > 0 {
      HistoriesStaySound(s, raws, ds, ids, k - 1);
      assert CommittedProperly(s, ds[k - 1], raws[k - 1], raws[k], ids[k - 1]);
      CommitKeepsSound(s, ds[k - 1], raws[k - 1], raws[k], ids[k - 1]);
    }
  }
}
