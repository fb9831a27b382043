/**
 What a graph means: tombstone flags, a list of half-edges per node, direction and edge kind,
 and a list of values per node and property kind. Nothing here knows about offsets or columns.
 */
module Graphs {
  import opened Wrappers
  import opened Storage
  import opened Schemas

  datatype Half<V> = Half(neighbor: RawNodeId, value: Option<V>)

  /** One slot's runs, one per node, and whether the slot was ever written. */
  datatype Table<T> = Table(used: bool, runs: seq<seq<T>>)

  datatype Graph = Graph(
    nodes: seq<seq<bool>>,
    edges: seq<Table<Half<PropertyValue>>>,
    props: seq<Table<PropertyValue>>)

  function Clamp(x: nat): u32 {
    if x <= U32_MAX then x else U32_MAX
  }

  /**
   The 32-bit id of a node. Ids are only made where kinds and counts are known to fit (`EndsFit`, a
   coherent graph, or a node total the integrity check accepted); the clamp makes the function total.
   */
  function NodeAt(kind: nat, seqNo: nat): RawNodeId {
    RawNodeId(Clamp(kind), Clamp(seqNo))
  }

  function SumOf(counts: seq<nat>): nat {
    if counts == [] then 0 else SumOf(counts[..|counts| - 1]) + counts[|counts| - 1]
  }

  function Counts(nodes: seq<seq<bool>>): (r: seq<nat>)
    ensures |r| == |nodes|
  {
    seq(|nodes|, k requires 0 <= k < |nodes| => |nodes[k]|)
  }

  lemma {:induction false} SumBounds(counts: seq<nat>, k: nat)
    requires k < |counts|
    ensures counts[k] <= SumOf(counts)
  {
    if k < |counts| - 1 {
      SumBounds(counts[..|counts| - 1], k);
    }
  }

  /** One table per slot, one run per node of the slot's kind. */
  ghost predicate Shaped(s: Schema, g: Graph) {
    && |g.nodes| == s.nodeKinds
    && |g.edges| == s.EdgeStorageSize()
    && |g.props| == s.PropertyStorageSize()
    && (forall i | 0 <= i < |g.edges| ::
          s.EdgeSlotKind(i) < |g.nodes| && |g.edges[i].runs| == |g.nodes[s.EdgeSlotKind(i)]|)
    && (forall i | 0 <= i < |g.props| ::
          s.PropertySlotKind(i) < |g.nodes| && |g.props[i].runs| == |g.nodes[s.PropertySlotKind(i)]|)
  }

  // ----- edges

  datatype Edge<V> = Edge(src: RawNodeId, dst: RawNodeId, value: Option<V>)

  /** The edge a half stored at `owner` stands for. */
  function Canon<V>(owner: RawNodeId, d: Direction, half: Half<V>): Edge<V> {
    if d.Out? then Edge(owner, half.neighbor, half.value) else Edge(half.neighbor, owner, half.value)
  }

  function RunEdges<V>(owner: RawNodeId, d: Direction, run: seq<Half<V>>): (r: seq<Edge<V>>)
    ensures |r| == |run|
  {
    seq(|run|, i requires 0 <= i < |run| => Canon(owner, d, run[i]))
  }

  /** The edges stored at one kind's nodes, in node order. */
  function KindEdges<V>(kind: nat, d: Direction, runs: seq<seq<Half<V>>>): seq<Edge<V>> {
    if runs == [] then []
    else
      var v := |runs| - 1;
      KindEdges(kind, d, runs[..v]) + RunEdges(NodeAt(kind, v), d, runs[v])
  }

  /** The edges stored in a block of tables, in node-kind order. */
  function BlockEdges<V>(d: Direction, block: seq<Table<Half<V>>>): seq<Edge<V>> {
    if block == [] then []
    else
      var k := |block| - 1;
      BlockEdges(d, block[..k]) + KindEdges(k, d, block[k].runs)
  }

  /** The tables of one direction and edge kind. */
  function Block<V>(s: Schema, edges: seq<Table<Half<V>>>, d: Direction, e: nat): seq<Table<Half<V>>>
    requires e < |s.edgeTypes| && |edges| == s.EdgeStorageSize()
  {
    TimesMonotone(s.nodeKinds, d.Factor() + 2 * e + 1, 2 * |s.edgeTypes|);
    edges[s.EdgeBlock(d, e)..s.EdgeBlock(d, e) + s.nodeKinds]
  }

  /** All edges of one kind as the halves of one direction record them. */
  function Edges<V>(s: Schema, edges: seq<Table<Half<V>>>, d: Direction, e: nat): seq<Edge<V>>
    requires e < |s.edgeTypes| && |edges| == s.EdgeStorageSize()
  {
    BlockEdges(d, Block(s, edges, d, e))
  }

  /** Every edge is recorded equally often by its Out halves and by its In halves. */
  ghost predicate Paired(s: Schema, g: Graph) {
    && |g.edges| == s.EdgeStorageSize()
    && forall e | 0 <= e < |s.edgeTypes| ::
         multiset(Edges(s, g.edges, Out, e)) == multiset(Edges(s, g.edges, In, e))
  }

  // ----- well-formed content

  predicate NodeIn(counts: seq<nat>, n: RawNodeId) {
    n.kind < |counts| && n.seqNo < counts[n.kind]
  }

  /** The node is one of the schema's kinds and there. */
  predicate NodeExists(s: Schema, counts: seq<nat>, n: RawNodeId) {
    n.kind < s.nodeKinds && NodeIn(counts, n)
  }

  /** The node or enum a value names exists, and an enum is the one the slot declares. */
  predicate PayloadOk(s: Schema, counts: seq<nat>, expectedEnum: Option<nat>, v: PropertyValue) {
    match v
    case NodeId(n) => NodeExists(s, counts, n)
    case Enum(id) =>
      && id.enumIndex < |s.variantCounts|
      && (expectedEnum.Some? ==> expectedEnum.value == id.enumIndex)
      && id.variant < s.variantCounts[id.enumIndex]
    case _ => true
  }

  /** An edge carries a value of its kind's type, or none when the kind declares none. */
  predicate ValueOk(s: Schema, counts: seq<nat>, typ: PropertyType, expectedEnum: Option<nat>,
                    v: Option<PropertyValue>) {
    if typ == NoType then v.None?
    else v.Some? && v.value.Typ() == typ && PayloadOk(s, counts, expectedEnum, v.value)
  }

  predicate HalfOk(s: Schema, counts: seq<nat>, e: nat, half: Half<PropertyValue>)
    requires e < |s.edgeTypes| == |s.edgeEnums|
  {
    NodeExists(s, counts, half.neighbor)
    && ValueOk(s, counts, s.edgeTypes[e], s.edgeEnums[e], half.value)
  }

  ghost predicate EdgeTableOk(s: Schema, counts: seq<nat>, e: nat, t: Table<Half<PropertyValue>>)
    requires e < |s.edgeTypes| == |s.edgeEnums|
  {
    forall v, j | 0 <= v < |t.runs| && 0 <= j < |t.runs[v]| :: HalfOk(s, counts, e, t.runs[v][j])
  }

  ghost predicate PropTableOk(s: Schema, counts: seq<nat>, p: nat, t: Table<PropertyValue>)
    requires p < |s.propTypes| == |s.propEnums|
  {
    forall v, j | 0 <= v < |t.runs| && 0 <= j < |t.runs[v]| ::
      ValueOk(s, counts, s.propTypes[p], s.propEnums[p], Some(t.runs[v][j]))
  }

  /** A slot that was never written has no halves. */
  ghost predicate UnusedEmpty<T>(t: Table<T>) {
    !t.used ==> forall v | 0 <= v < |t.runs| :: t.runs[v] == []
  }

  /** The graph half of integrity: ids fit, everything named exists, and halves pair up. */
  ghost predicate Coherent(s: Schema, g: Graph)
    requires s.Valid()
  {
    && Shaped(s, g)
    && SumOf(Counts(g.nodes)) <= U32_MAX
    && (forall i | 0 <= i < |g.edges| ::
          s.EdgeSlotEdge(i) < |s.edgeTypes|
          && EdgeTableOk(s, Counts(g.nodes), s.EdgeSlotEdge(i), g.edges[i])
          && UnusedEmpty(g.edges[i]))
    && (forall i | 0 <= i < |g.props| ::
          s.PropertySlotProp(i) < |s.propTypes|
          && PropTableOk(s, Counts(g.nodes), s.PropertySlotProp(i), g.props[i]))
    && Paired(s, g)
  }
}
