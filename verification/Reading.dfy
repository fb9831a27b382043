/** Reading a graph: adjacency, counts and properties, with deleted nodes filtered out. */
module Reading {
  import opened Wrappers
  import opened Storage
  import opened Schemas
  import opened Csr
  import opened Graphs
  import opened FlatGraphs
  import opened EdgeBags

  /** An edge as seen from one end, with its position in that end's adjacency list. */
  datatype EdgeId = EdgeId(src: RawNodeId, dst: RawNodeId, kind: nat, direction: Direction, seqNo: nat) {
    function Neighbor(): RawNodeId {
      if direction.Out? then dst else src
    }

    /** The end whose list the position counts in. */
    function Near(): RawNodeId {
      if direction.Out? then src else dst
    }
  }

  function FromHalf(near: RawNodeId, far: RawNodeId, kind: nat, d: Direction, seqNo: nat): EdgeId {
    if d.Out? then EdgeId(near, far, kind, d, seqNo) else EdgeId(far, near, kind, d, seqNo)
  }

  /** A node that is not there counts as deleted. */
  function IsNodeDeleted(raw: RawGraph, n: RawNodeId): bool {
    if n.kind < |raw.nodes| && n.seqNo < |raw.nodes[n.kind]| then raw.nodes[n.kind][n.seqNo] else true
  }

  function GetEdgesOffset(slot: EdgeSlot, seqNo: nat): Result<(u32, u32), Error> {
    if slot.offsets == [] then Ok((0, 0))
    else
      var bounds := GetOffset(slot.offsets, seqNo);
      if bounds.Some? then Ok(bounds.value) else Err(NodeOffsetNotFound(seqNo))
  }

  /** The neighbours in a range, or none if the range is no range of the array. */
  function GetNeighbors(slot: EdgeSlot, start: u32, end: u32): seq<RawNodeId> {
    if start <= end <= |slot.neighbors| then slot.neighbors[start..end] else []
  }

  function SlotOf(s: Schema, raw: RawGraph, kind: nat, d: Direction, e: nat): EdgeSlot
    requires |raw.edges| == s.EdgeStorageSize() && kind < s.nodeKinds && e < |s.edgeTypes|
  {
    s.EdgeSlotOf(kind, d, e);
    raw.edges[s.EdgeStorageSlot(kind, d, e)]
  }

  function GetEdgesWithDeleted(s: Schema, raw: RawGraph, node: RawNodeId, e: nat, d: Direction): Result<seq<EdgeId>,
      Error>
    requires |raw.edges| == s.EdgeStorageSize() && node.kind < s.nodeKinds && e < |s.edgeTypes|
  {
    var slot := SlotOf(s, raw, node.kind, d, e);
    var (start, end) :- GetEdgesOffset(slot, node.seqNo);
    var _ :- CheckedSub(end, start);
    var neighbors := GetNeighbors(slot, start, end);
    Ok(seq(|neighbors|, j requires 0 <= j < |neighbors| => FromHalf(node, neighbors[j], e, d, j)))
  }

  /** The edges whose far end is not deleted, in order. */
  function Live(raw: RawGraph, edges: seq<EdgeId>): seq<EdgeId> {
    if edges == [] then []
    else
      var last := edges[|edges| - 1];
      Live(raw, edges[..|edges| - 1]) + if IsNodeDeleted(raw, last.Neighbor()) then [] else [last]
  }

  function GetEdges(s: Schema, raw: RawGraph, node: RawNodeId, e: nat, d: Direction): Result<seq<EdgeId>, Error>
    requires |raw.edges| == s.EdgeStorageSize() && node.kind < s.nodeKinds && e < |s.edgeTypes|
  {
    var edges :- GetEdgesWithDeleted(s, raw, node, e, d);
    Ok(Live(raw, edges))
  }

  function GetEdgesCount(s: Schema, raw: RawGraph, node: RawNodeId, e: nat, d: Direction): Result<nat, Error>
    requires |raw.edges| == s.EdgeStorageSize() && e < |s.edgeTypes|
  {
    if node.kind >= s.nodeKinds then Err(UnresolvedNodeKind(node.kind))
    else
      match GetEdges(s, raw, node, e, d)
      case Ok(edges) => Ok(|edges|)
      case Err(NodeOffsetNotFound(_)) => Ok(0)
      case Err(error) => Err(error)
  }

  function GetEdgesCountWithDeleted(s: Schema, raw: RawGraph, node: RawNodeId, e: nat, d: Direction): Result<nat, Error>
    requires |raw.edges| == s.EdgeStorageSize() && e < |s.edgeTypes|
  {
    if node.kind >= s.nodeKinds then Err(UnresolvedNodeKind(node.kind))
    else
      var bounds := GetEdgesOffset(SlotOf(s, raw, node.kind, d, e), node.seqNo);
      if bounds.Ok? then CheckedSub(bounds.value.1, bounds.value.0) else Ok(0)
  }

  /** The position counts in the list of the node the edge was queried from. */
  function GetEdgeProperty(s: Schema, raw: RawGraph, edge: EdgeId): Result<Option<StoredProperty>, Error>
    requires |raw.edges| == s.EdgeStorageSize() && edge.kind < |s.edgeTypes|
  {
    var near := edge.Near();
    if near.kind >= s.nodeKinds then Err(UnresolvedNodeKind(near.kind))
    else
      var slot := SlotOf(s, raw, near.kind, edge.direction, edge.kind);
      var (start, _) :- GetEdgesOffset(slot, near.seqNo);
      var at :- OffsetNew(start + edge.seqNo);
      Ok(ValueAt(slot.values, at))
  }

  function GetNodeProperty(s: Schema, raw: RawGraph, node: RawNodeId, p: nat): Result<seq<StoredProperty>, Error>
    requires |raw.props| == s.PropertyStorageSize() && p < |s.propTypes|
  {
    if node.kind >= s.nodeKinds then Err(UnresolvedNodeKind(node.kind))
    else
      s.PropertySlotOf(node.kind, p);
      var slot := raw.props[s.PropertyStorageSlot(node.kind, p)];
      var bounds := GetOffset(slot.offsets, node.seqNo);
      if bounds.None? then Err(PropertyIndexNotFound)
      else
        var (start, end) := bounds.value;
        if start > end || end > LenOf(slot.values) then Err(PropertyIndexOutOfBounds(start, end, LenOf(slot.values)))
        else Ok(if end <= |Items(slot.values)| then Items(slot.values)[start..end] else [])
  }

  // ----- what reads return on a well-formed graph

  /** A node's adjacency list in the abstract graph. */
  ghost function ListOf(s: Schema, raw: RawGraph, node: RawNodeId, e: nat, d: Direction): seq<Half<PropertyValue>>
    requires s.Valid() && WellFormed(s, raw) && node.kind < s.nodeKinds && e < |s.edgeTypes|
    requires node.seqNo < |raw.nodes[node.kind]|
  {
    s.EdgeSlotOf(node.kind, d, e);
    Meaning(s, raw).edges[s.EdgeStorageSlot(node.kind, d, e)].runs[node.seqNo]
  }

  lemma SlotReads(s: Schema, raw: RawGraph, node: RawNodeId, e: nat, d: Direction)
    requires s.Valid() && WellFormed(s, raw) && node.kind < s.nodeKinds && e < |s.edgeTypes|
    requires node.seqNo < |raw.nodes[node.kind]|
    ensures |raw.edges| == s.EdgeStorageSize()
    ensures var slot, n := SlotOf(s, raw, node.kind, d, e), |raw.nodes[node.kind]|;
            && EdgeSlotOk(slot, s.edgeTypes[e], n, raw.strings)
            && ListOf(s, raw, node, e, d) == Run(slot.offsets, Halves(raw.strings, slot), node.seqNo)
            && |ListOf(s, raw, node, e, d)| == Degree(slot.offsets, node.seqNo)
            && (slot.offsets != [] ==> slot.offsets[node.seqNo] <= slot.offsets[node.seqNo + 1] <= |slot.neighbors|)
            && (slot.offsets != [] ==> |slot.offsets| == n + 1)
  {
    hide Monotone, IdsInPool;
    s.EdgeSlotOf(node.kind, d, e);
    var slot, n := SlotOf(s, raw, node.kind, d, e), |raw.nodes[node.kind]|;
    RunLength(slot.offsets, Halves(raw.strings, slot), n, node.seqNo);
  }

  /** The unfiltered list is the node's adjacency list, each half under its own position. */
  lemma EdgesRead(s: Schema, raw: RawGraph, node: RawNodeId, e: nat, d: Direction)
    requires s.Valid() && WellFormed(s, raw) && node.kind < s.nodeKinds && e < |s.edgeTypes|
    requires node.seqNo < |raw.nodes[node.kind]|
    ensures |raw.edges| == s.EdgeStorageSize() && GetEdgesWithDeleted(s, raw, node, e, d).Ok?
    ensures var edges, run := GetEdgesWithDeleted(s, raw, node, e, d).value, ListOf(s, raw, node, e, d);
            && |edges| == |run|
            && forall j | 0 <= j < |edges| :: edges[j] == FromHalf(node, run[j].neighbor, e, d, j)
    ensures GetEdgesCountWithDeleted(s, raw, node, e, d) == Ok(|ListOf(s, raw, node, e, d)|)
  {
    hide WellFormed, ListOf, EdgeSlotOk, SlotOf;
    SlotReads(s, raw, node, e, d);
    var slot, run := SlotOf(s, raw, node.kind, d, e), ListOf(s, raw, node, e, d);
    forall j | 0 <= j < |run|
      ensures run[j].neighbor == GetNeighbors(slot, slot.offsets[node.seqNo], slot.offsets[node.seqNo + 1])[j]
    {
      assert run[j] == Halves(raw.strings, slot)[slot.offsets[node.seqNo] + j];
    }
  }

  /** The node is there and its stored flag does not mark it deleted. */
  predicate FlaggedLive(raw: RawGraph, n: RawNodeId) {
    n.kind < |raw.nodes| && n.seqNo < |raw.nodes[n.kind]| && !raw.nodes[n.kind][n.seqNo]
  }

  /** The filter drops nothing but the edges to nodes that are not there or flagged, and keeps the order. */
  lemma {:induction false} LiveInOrder(raw: RawGraph, edges: seq<EdgeId>)
    requires forall i, j | 0 <= i < j < |edges| :: edges[i].seqNo < edges[j].seqNo
    ensures forall x :: x in Live(raw, edges) <==> x in edges && FlaggedLive(raw, x.Neighbor())
    ensures forall i, j | 0 <= i < j < |Live(raw, edges)| :: Live(raw, edges)[i].seqNo < Live(raw, edges)[j].seqNo
  {
    if edges != [] {
      var last := |edges| - 1;
      LiveInOrder(raw, edges[..last]);
      assert edges == edges[..last] + [edges[last]];
      var kept := Live(raw, edges[..last]);
      forall i | 0 <= i < |kept|
        ensures kept[i].seqNo < edges[last].seqNo
      {
        assert kept[i] in kept;
      }
    }
  }

  /**
   The filtered list is what the stored flags make of the unfiltered one: an edge is in it exactly
   when it is in the unfiltered list and the node it leads to is there and not flagged. The order
   is kept, and a filtered edge keeps the position it had among all edges, so reading its property
   reads inside the owner's run and gives that very half's value.
   */
  lemma FilteredEdgesRead(s: Schema, raw: RawGraph, node: RawNodeId, e: nat, d: Direction)
    requires s.Valid() && WellFormed(s, raw) && node.kind < s.nodeKinds && e < |s.edgeTypes|
    requires node.seqNo < |raw.nodes[node.kind]|
    ensures GetEdges(s, raw, node, e, d).Ok? && GetEdgesWithDeleted(s, raw, node, e, d).Ok?
    ensures forall x: EdgeId ::
              x in GetEdges(s, raw, node, e, d).value
              <==> && x in GetEdgesWithDeleted(s, raw, node, e, d).value
                   && var n := if d.Out? then x.dst else x.src;
                      n.kind < |raw.nodes| && n.seqNo < |raw.nodes[n.kind]| && !raw.nodes[n.kind][n.seqNo]
    ensures var edges := GetEdges(s, raw, node, e, d).value;
            forall i, j | 0 <= i < j < |edges| :: edges[i].seqNo < edges[j].seqNo
    ensures forall x <- GetEdges(s, raw, node, e, d).value ::
              && x.kind == e && x.seqNo < |ListOf(s, raw, node, e, d)|
              && EdgeValueIs(s, raw, x, ListOf(s, raw, node, e, d)[x.seqNo].value)
  {
    hide WellFormed, ListOf, EdgeSlotOk, SlotOf, IsNodeDeleted, EdgeValueIs, Live;
    EdgesRead(s, raw, node, e, d);
    var edges := GetEdgesWithDeleted(s, raw, node, e, d).value;
    LiveInOrder(raw, edges);
    forall x | x in GetEdges(s, raw, node, e, d).value
      ensures x.kind == e && x.seqNo < |ListOf(s, raw, node, e, d)|
      ensures EdgeValueIs(s, raw, x, ListOf(s, raw, node, e, d)[x.seqNo].value)
    {
      var j :| 0 <= j < |edges| && edges[j] == x;
      ValueReads(s, raw, node, e, d, x);
    }
  }

  /** Reading the edge's property succeeds and, strings looked up, gives `value`. */
  ghost predicate EdgeValueIs(s: Schema, raw: RawGraph, x: EdgeId, value: Option<PropertyValue>)
    requires |raw.edges| == s.EdgeStorageSize() && x.kind < |s.edgeTypes|
  {
    match GetEdgeProperty(s, raw, x)
    case Err(_) => false
    case Ok(stored) => value == if stored.Some? then Some(Resolve(raw.strings, stored.value)) else None
  }

  lemma ValueReads(s: Schema, raw: RawGraph, node: RawNodeId, e: nat, d: Direction, x: EdgeId)
    requires s.Valid() && WellFormed(s, raw) && node.kind < s.nodeKinds && e < |s.edgeTypes|
    requires node.seqNo < |raw.nodes[node.kind]|
    requires x.seqNo < |ListOf(s, raw, node, e, d)| && x.Near() == node && x.kind == e && x.direction == d
    ensures EdgeValueIs(s, raw, x, ListOf(s, raw, node, e, d)[x.seqNo].value)
  {
    hide WellFormed, ListOf, SlotOf;
    SlotReads(s, raw, node, e, d);
    var slot := SlotOf(s, raw, node.kind, d, e);
    var at := slot.offsets[node.seqNo] + x.seqNo;
    assert ListOf(s, raw, node, e, d)[x.seqNo] == Halves(raw.strings, slot)[at];
    assert at < slot.offsets[node.seqNo + 1];
  }

  /** The positions whose neighbour the stored flags leave live. */
  ghost function LivePositions(raw: RawGraph, run: seq<Half<PropertyValue>>): set<nat> {
    set j: nat | j < |run| && FlaggedLive(raw, run[j].neighbor)
  }

  lemma FlagsDecide(raw: RawGraph, n: RawNodeId)
    ensures IsNodeDeleted(raw, n) <==> !FlaggedLive(raw, n)
  {
  }

  lemma PositionsNext(raw: RawGraph, run: seq<Half<PropertyValue>>)
    requires run != []
    ensures |LivePositions(raw, run)|
         == |LivePositions(raw, run[..|run| - 1])| + if FlaggedLive(raw, run[|run| - 1].neighbor) then 1 else 0
  {
    hide FlaggedLive;
    var last := |run| - 1;
    var before := LivePositions(raw, run[..last]);
    assert LivePositions(raw, run) == if FlaggedLive(raw, run[last].neighbor) then before + {last} else before;
  }

  lemma {:induction false} LiveCount(raw: RawGraph, node: RawNodeId, e: nat, d: Direction, edges: seq<EdgeId>,
                                    run: seq<Half<PropertyValue>>)
    requires |edges| == |run| && forall j | 0 <= j < |run| :: edges[j] == FromHalf(node, run[j].neighbor, e, d, j)
    ensures |Live(raw, edges)| == |LivePositions(raw, run)|
  {
    hide FlaggedLive, LivePositions, IsNodeDeleted;
    if run == [] {
      NoPositions(raw);
    } else {
      var last := |run| - 1;
      LiveCount(raw, node, e, d, edges[..last], run[..last]);
      PositionsNext(raw, run);
      FlagsDecide(raw, run[last].neighbor);
      assert edges[last].Neighbor() == run[last].neighbor;
    }
  }

  lemma NoPositions(raw: RawGraph)
    ensures LivePositions(raw, []) == {}
  {
  }

  /**
   The live count is the number of positions of the adjacency list whose neighbour is there and
   not flagged, and the full count the number of all positions.
   */
  lemma CountsRead(s: Schema, raw: RawGraph, node: RawNodeId, e: nat, d: Direction)
    requires s.Valid() && WellFormed(s, raw) && node.kind < s.nodeKinds && e < |s.edgeTypes|
    requires node.seqNo < |raw.nodes[node.kind]|
    ensures var run := ListOf(s, raw, node, e, d);
            && GetEdgesCount(s, raw, node, e, d)
               == Ok(|set j: nat | j < |run| && FlaggedLive(raw, run[j].neighbor)|)
            && GetEdgesCountWithDeleted(s, raw, node, e, d) == Ok(|run|)
  {
    hide WellFormed, ListOf, SlotOf, IsNodeDeleted, GetEdgesCountWithDeleted, FlaggedLive;
    EdgesRead(s, raw, node, e, d);
    LiveCount(raw, node, e, d, GetEdgesWithDeleted(s, raw, node, e, d).value, ListOf(s, raw, node, e, d));
  }

  /** A node past the end of its kind has no edges to count, whether or not the slot is in use. */
  lemma MissingNodeCountsNone(s: Schema, raw: RawGraph, node: RawNodeId, e: nat, d: Direction)
    requires s.Valid() && WellFormed(s, raw) && node.kind < s.nodeKinds && e < |s.edgeTypes|
    requires node.seqNo >= |raw.nodes[node.kind]|
    ensures GetEdgesCount(s, raw, node, e, d) == Ok(0) && GetEdgesCountWithDeleted(s, raw, node, e, d) == Ok(0)
  {
    s.EdgeSlotOf(node.kind, d, e);
    var slot := SlotOf(s, raw, node.kind, d, e);
    assert EdgeSlotOk(slot, s.edgeTypes[e], |raw.nodes[node.kind]|, raw.strings);
  }

  /** Around a node's offsets, if there are any, the column holds the values its run reads as. */
  lemma SlotRunRead(strings: seq<Text>, slot: PropertySlot, typ: PropertyType, n: nat, v: nat)
    requires PropSlotOk(slot, typ, n, strings) && v < n
    ensures LenOf(slot.values) == |Items(slot.values)|
    ensures GetOffset(slot.offsets, v).Some? <==> slot.offsets != []
    ensures slot.offsets != [] ==>
              var (start, end) := GetOffset(slot.offsets, v).value;
              && start <= end <= |Items(slot.values)|
              && ResolveAll(strings, Items(slot.values)[start..end])
                 == Run(slot.offsets, ResolveAll(strings, Items(slot.values)), v)
  {
    hide IdsInPool, Resolve;
    RunLength(slot.offsets, ResolveAll(strings, Items(slot.values)), n, v);
  }

  /** Reading a node's property yields its run, or says that the slot was never written. */
  lemma PropertiesRead(s: Schema, raw: RawGraph, node: RawNodeId, p: nat)
    requires s.Valid() && WellFormed(s, raw) && node.kind < s.nodeKinds && p < |s.propTypes|
    requires node.seqNo < |raw.nodes[node.kind]|
    ensures s.PropertyStorageSlot(node.kind, p) < |Meaning(s, raw).props|
    ensures var t, r := Meaning(s, raw).props[s.PropertyStorageSlot(node.kind, p)], GetNodeProperty(s, raw, node, p);
            && (r.Ok? <==> t.used)
            && (r.Ok? ==> ResolveAll(raw.strings, r.value) == t.runs[node.seqNo])
            && (r.Err? ==> r.error == PropertyIndexNotFound)
  {
    hide Cuts, IdsInPool, EdgeSlotOk, EdgeTable, ResolveAll, LenOf, GetOffset;
    s.PropertySlotOf(node.kind, p);
    var slot, n := raw.props[s.PropertyStorageSlot(node.kind, p)], |raw.nodes[node.kind]|;
    assert PropSlotOk(slot, s.propTypes[p], n, raw.strings);
    SlotRunRead(raw.strings, slot, s.propTypes[p], n, node.seqNo);
  }

  // ----- both ends see the same edges

  /** The values on the live edges from `node` to `far`, in order. */
  ghost function LiveValues(s: Schema, raw: RawGraph, edges: seq<EdgeId>, far: RawNodeId): seq<Option<PropertyValue>>
    requires |raw.edges| == s.EdgeStorageSize() && forall x <- edges :: x.kind < |s.edgeTypes|
  {
    if edges == [] then []
    else
      var last := edges[|edges| - 1];
      LiveValues(s, raw, edges[..|edges| - 1], far)
      + if last.Neighbor() == far then
          match GetEdgeProperty(s, raw, last)
          case Err(_) => []
          case Ok(stored) => [if stored.Some? then Some(Resolve(raw.strings, stored.value)) else None]
        else []
  }

  /** The values of the halves leading to `far`. */
  ghost function ValuesTo(run: seq<Half<PropertyValue>>, far: RawNodeId): seq<Option<PropertyValue>> {
    if run == [] then []
    else ValuesTo(run[..|run| - 1], far) + if run[|run| - 1].neighbor == far then [run[|run| - 1].value] else []
  }

  lemma {:induction false} ValuesCount(run: seq<Half<PropertyValue>>, far: RawNodeId, value: Option<PropertyValue>)
    ensures multiset(ValuesTo(run, far))[value] == multiset(run)[Half(far, value)]
  {
    if run != [] {
      var last := |run| - 1;
      ValuesCount(run[..last], far, value);
      assert run == run[..last] + [run[last]];
    }
  }

  lemma LiveNext(raw: RawGraph, edges: seq<EdgeId>, j: nat)
    requires j < |edges|
    ensures Live(raw, edges[..j + 1])
         == if IsNodeDeleted(raw, edges[j].Neighbor()) then Live(raw, edges[..j])
             else Live(raw, edges[..j]) + [edges[j]]
  {
    assert edges[..j + 1][..j] == edges[..j];
  }

  lemma LiveValuesNext(s: Schema, raw: RawGraph, edges: seq<EdgeId>, x: EdgeId, far: RawNodeId,
                       value: Option<PropertyValue>)
    requires |raw.edges| == s.EdgeStorageSize() && (forall y <- edges :: y.kind < |s.edgeTypes|)
             && x.kind < |s.edgeTypes|
    requires EdgeValueIs(s, raw, x, value)
    ensures LiveValues(s, raw, edges + [x], far)
         == if x.Neighbor() == far then LiveValues(s, raw, edges, far) + [value] else LiveValues(s, raw, edges, far)
  {
    hide GetEdgeProperty;
    assert (edges + [x])[..|edges|] == edges;
  }

  lemma ValuesNext(run: seq<Half<PropertyValue>>, far: RawNodeId, j: nat)
    requires j < |run|
    ensures ValuesTo(run[..j + 1], far)
         == if run[j].neighbor == far then ValuesTo(run[..j], far) + [run[j].value] else ValuesTo(run[..j], far)
  {
    assert run[..j + 1][..j] == run[..j];
  }

  /** Filtering by liveness loses none of the edges to a live node. */
  lemma {:induction false} LiveKeepsValues(s: Schema, raw: RawGraph, edges: seq<EdgeId>, run: seq<Half<PropertyValue>>,
                                          far: RawNodeId, m: nat)
    requires |raw.edges| == s.EdgeStorageSize() && !IsNodeDeleted(raw, far) && m <= |edges| == |run|
    requires forall j | 0 <= j < |run| ::
               && edges[j].Neighbor() == run[j].neighbor && edges[j].kind < |s.edgeTypes|
               && EdgeValueIs(s, raw, edges[j], run[j].value)
    ensures forall x <- Live(raw, edges[..m]) :: x.kind < |s.edgeTypes|
    ensures LiveValues(s, raw, Live(raw, edges[..m]), far) == ValuesTo(run[..m], far)
  {
    hide IsNodeDeleted, GetEdgeProperty, EdgeValueIs, Live, LiveValues, ValuesTo;
    if m == 0 {
      assert edges[..0] == [] && run[..0] == [];
      NothingLive(s, raw, far);
    } else {
      LiveKeepsValues(s, raw, edges, run, far, m - 1);
      LiveNext(raw, edges, m - 1);
      ValuesNext(run, far, m - 1);
      LiveValuesNext(s, raw, Live(raw, edges[..m - 1]), edges[m - 1], far, run[m - 1].value);
    }
  }

  lemma NothingLive(s: Schema, raw: RawGraph, far: RawNodeId)
    requires |raw.edges| == s.EdgeStorageSize()
    ensures Live(raw, []) == [] && LiveValues(s, raw, [], far) == ValuesTo([], far) == []
  {
  }

  lemma {:induction false} KindCount<V>(kind: nat, d: Direction, runs: seq<seq<Half<V>>>, owner: RawNodeId,
                                        half: Half<V>)
    requires kind <= U32_MAX && |runs| <= U32_MAX
    ensures multiset(KindEdges(kind, d, runs))[Canon(owner, d, half)]
         == if owner.kind == kind && owner.seqNo < |runs| then multiset(runs[owner.seqNo])[half] else 0
  {
    if runs != [] {
      var last := |runs| - 1;
      KindCount(kind, d, runs[..last], owner, half);
      RunCount(NodeAt(kind, last), d, runs[last], owner, half);
    }
  }

  lemma {:induction false} RunCount<V>(at: RawNodeId, d: Direction, run: seq<Half<V>>, owner: RawNodeId, half: Half<V>)
    ensures multiset(RunEdges(at, d, run))[Canon(owner, d, half)] == if at == owner then multiset(run)[half] else 0
  {
    if run != [] {
      var last := |run| - 1;
      RunCount(at, d, run[..last], owner, half);
      assert run == run[..last] + [run[last]];
      assert RunEdges(at, d, run) == RunEdges(at, d, run[..last]) + [Canon(at, d, run[last])];
    }
  }

  lemma {:induction false} BlockCount<V>(d: Direction, block: seq<Table<Half<V>>>, owner: RawNodeId, half: Half<V>)
    requires |block| <= U32_MAX && forall k | 0 <= k < |block| :: |block[k].runs| <= U32_MAX
    ensures multiset(BlockEdges(d, block))[Canon(owner, d, half)]
         == if owner.kind < |block| && owner.seqNo < |block[owner.kind].runs|
            then multiset(block[owner.kind].runs[owner.seqNo])[half] else 0
  {
    hide KindEdges;
    if block != [] {
      var last := |block| - 1;
      BlockCount(d, block[..last], owner, half);
      KindCount(last, d, block[last].runs, owner, half);
    }
  }

  /** An edge is in the bag as often as its half is in its owner's list. */
  lemma BagCount(s: Schema, raw: RawGraph, node: RawNodeId, e: nat, d: Direction, half: Half<PropertyValue>)
    requires s.Valid() && WellFormed(s, raw) && SumOf(Counts(raw.nodes)) <= U32_MAX && e < |s.edgeTypes|
    requires node.kind < s.nodeKinds && node.seqNo < |raw.nodes[node.kind]|
    ensures |Meaning(s, raw).edges| == s.EdgeStorageSize()
    ensures Bag(s, Meaning(s, raw).edges, d, e)[Canon(node, d, half)] == multiset(ListOf(s, raw, node, e, d))[half]
  {
    hide WellFormed, EdgeTable, Paired, EdgeTableOk, PropTableOk, BlockEdges, Schema.EdgeSlotKind,
         Schema.EdgeStorageSlot;
    var g := Meaning(s, raw);
    var block := Block(s, g.edges, d, e);
    BlockBounds(s, d, e);
    s.EdgeSlotOf(node.kind, d, e);
    forall k | 0 <= k < |block|
      ensures |block[k].runs| <= U32_MAX
      ensures k == node.kind ==> block[k] == g.edges[s.EdgeStorageSlot(node.kind, d, e)]
    {
      s.EdgeSlotOf(k, d, e);
      assert block[k] == g.edges[s.EdgeStorageSlot(k, d, e)] by {
        SlotInBlock(s, k, d, e);
      }
      SumBounds(Counts(g.nodes), k);
    }
    BlockCount(d, block, node, half);
  }

  lemma SlotInBlock(s: Schema, k: nat, d: Direction, e: nat)
    ensures s.EdgeStorageSlot(k, d, e) == s.EdgeBlock(d, e) + k
  {
  }

  /**
   On a sound graph both ends of an edge tell the same story: for live nodes, the values on the
   edges `a` lists towards `b` are, as a multiset, those on the edges `b` lists as coming from `a`.
   */
  lemma LiveViewIsSymmetric(s: Schema, raw: RawGraph, a: RawNodeId, b: RawNodeId, e: nat)
    requires s.Valid() && Sound(s, raw) && e < |s.edgeTypes|
    requires a.kind < |raw.nodes| && a.seqNo < |raw.nodes[a.kind]| && !raw.nodes[a.kind][a.seqNo]
    requires b.kind < |raw.nodes| && b.seqNo < |raw.nodes[b.kind]| && !raw.nodes[b.kind][b.seqNo]
    ensures |raw.edges| == s.EdgeStorageSize() && a.kind < s.nodeKinds && b.kind < s.nodeKinds
    ensures GetEdges(s, raw, a, e, Out).Ok? && GetEdges(s, raw, b, e, In).Ok?
    ensures forall x <- GetEdges(s, raw, a, e, Out).value :: x.kind < |s.edgeTypes|
    ensures forall x <- GetEdges(s, raw, b, e, In).value :: x.kind < |s.edgeTypes|
    ensures multiset(LiveValues(s, raw, GetEdges(s, raw, a, e, Out).value, b))
         == multiset(LiveValues(s, raw, GetEdges(s, raw, b, e, In).value, a))
  {
    hide WellFormed, Coherent, Meaning, ListOf, SlotOf, GetEdgesWithDeleted, LiveValues, Live, ValuesTo, EdgeValueIs;
    SizesRead(s, raw);
    OneSide(s, raw, a, e, Out, b);
    OneSide(s, raw, b, e, In, a);
    var outs, ins := ListOf(s, raw, a, e, Out), ListOf(s, raw, b, e, In);
    forall value
      ensures multiset(ValuesTo(outs, b))[value] == multiset(ValuesTo(ins, a))[value]
    {
      ValuesCount(outs, b, value);
      ValuesCount(ins, a, value);
      BagCount(s, raw, a, e, Out, Half(b, value));
      BagCount(s, raw, b, e, In, Half(a, value));
      BagsEqual(s, raw, e);
    }
  }

  lemma SizesRead(s: Schema, raw: RawGraph)
    requires s.Valid() && Sound(s, raw)
    ensures |raw.edges| == s.EdgeStorageSize() && |raw.nodes| == s.nodeKinds && SumOf(Counts(raw.nodes)) <= U32_MAX
  {
  }

  lemma BagsEqual(s: Schema, raw: RawGraph, e: nat)
    requires s.Valid() && Sound(s, raw) && e < |s.edgeTypes|
    ensures |Meaning(s, raw).edges| == s.EdgeStorageSize()
    ensures Bag(s, Meaning(s, raw).edges, Out, e) == Bag(s, Meaning(s, raw).edges, In, e)
  {
    hide WellFormed, EdgeTableOk, PropTableOk, UnusedEmpty;
  }

  /** What one end lists towards a live node, read off its adjacency list. */
  lemma OneSide(s: Schema, raw: RawGraph, node: RawNodeId, e: nat, d: Direction, far: RawNodeId)
    requires s.Valid() && WellFormed(s, raw) && |raw.edges| == s.EdgeStorageSize() && |raw.nodes| == s.nodeKinds
    requires e < |s.edgeTypes| && FlaggedLive(raw, node) && FlaggedLive(raw, far)
    ensures node.kind < s.nodeKinds && node.seqNo < |raw.nodes[node.kind]| && GetEdges(s, raw, node, e, d).Ok?
    ensures forall x <- GetEdges(s, raw, node, e, d).value :: x.kind < |s.edgeTypes|
    ensures LiveValues(s, raw, GetEdges(s, raw, node, e, d).value, far) == ValuesTo(ListOf(s, raw, node, e, d), far)
  {
    hide WellFormed, ListOf, SlotOf, LiveValues, Live, ValuesTo, GetEdgesWithDeleted, EdgeValueIs;
    EdgesRead(s, raw, node, e, d);
    var edges, run := GetEdgesWithDeleted(s, raw, node, e, d).value, ListOf(s, raw, node, e, d);
    forall j | 0 <= j < |run|
      ensures EdgeValueIs(s, raw, edges[j], run[j].value)
    {
      ValueReads(s, raw, node, e, d, edges[j]);
    }
    LiveKeepsValues(s, raw, edges, run, far, |edges|);
    assert edges[..|edges|] == edges && run[..|run|] == run;
  }
}
