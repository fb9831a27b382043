/** A diff, and what applying it means on the abstract graph. */
module Diffs {
  import opened Wrappers
  import opened Storage
  import opened Schemas
  import opened Graphs

  datatype NodeRef = New(id: nat) | Existing(node: RawNodeId)

  datatype NewNode = NewNode(kind: nat, properties: map<nat, seq<PropertyValue>>)

  datatype NewEdge = NewEdge(src: NodeRef, dst: NodeRef, kind: nat, property: Option<PropertyValue>)

  datatype Quantified = One(single: PropertyValue) | Multi(many: seq<PropertyValue>) {
    function Values(): seq<PropertyValue> {
      if One? then [single] else many
    }
  }

  datatype EdgeHandle = EdgeHandle(kind: u32, direction: u32, seqNo: u32)

  datatype RawEdgeId = RawEdgeId(src: RawNodeId, dst: RawNodeId, handle: EdgeHandle) {
    /** The end whose list the handle's position counts in, as the direction decides. */
    function Primary(d: Direction): RawNodeId {
      if d.Out? then src else dst
    }

    function Secondary(d: Direction): RawNodeId {
      if d.Out? then dst else src
    }
  }

  datatype Change =
    | RemoveNode(node: RawNodeId)
    | UpdateNodeProperty(owner: RawNodeId, prop: nat, values: Quantified)
    | RemoveEdge(edge: RawEdgeId)

  datatype GraphDiff = GraphDiff(newNodes: seq<NewNode>, newEdges: seq<NewEdge>, changes: seq<Change>)

  /** What the diff's kind-typed parts guarantee: node, edge and property kinds are the schema's. */
  ghost predicate WellKinded(s: Schema, d: GraphDiff) {
    && (forall n <- d.newNodes :: n.kind < s.nodeKinds && forall p <- n.properties :: p < |s.propTypes|)
    && (forall e <- d.newEdges :: e.kind < |s.edgeTypes|)
    && (forall c <- d.changes :: c.UpdateNodeProperty? ==> c.prop < |s.propTypes|)
  }

  // ----- changes to what exists

  /** Per slot and node, positions claimed for removal and the last property update. */
  type Claims = map<(nat, nat), seq<nat>>
  type Updates = map<(nat, nat), seq<PropertyValue>>

  datatype Classified = Classified(tombstones: seq<RawNodeId>, updates: Updates, claims: Claims)

  function At(claims: Claims, slot: nat, v: nat): seq<nat> {
    if (slot, v) in claims then claims[(slot, v)] else []
  }

  function Claim(claims: Claims, slot: nat, v: nat, p: nat): Claims {
    claims[(slot, v) := At(claims, slot, v) + [p]]
  }

  function RunOf<T>(t: Table<T>, v: nat): seq<T> {
    if v < |t.runs| then t.runs[v] else []
  }

  /** The first half at or after `from` that leads to `target`, is not excluded and fits `wanted`. */
  function FirstHalf<V(==)>(run: seq<Half<V>>, target: RawNodeId, excluded: seq<nat>,
                            wanted: Option<V>, from: nat): (r: Option<nat>)
    ensures r.Some? ==>
              && from <= r.value < |run| && run[r.value].neighbor == target && r.value !in excluded
              && (wanted.Some? ==> run[r.value].value == wanted)
    ensures forall j | from <= j < if r.Some? then r.value else |run| ::
              !(run[j].neighbor == target && j !in excluded && (wanted.Some? ==> run[j].value == wanted))
    decreases |run| - from
  {
    if from >= |run| then None
    else if run[from].neighbor == target && from !in excluded
            && (wanted.Some? ==> run[from].value == wanted) then Some(from)
    else FirstHalf(run, target, excluded, wanted, from + 1)
  }

  /** A half carrying the wanted value if there is one, else any half leading to the target. */
  function ReverseHalf<V(==)>(run: seq<Half<V>>, target: RawNodeId, excluded: seq<nat>, wanted: Option<V>)
    : Option<nat>
  {
    var matching := if wanted.Some? then FirstHalf(run, target, excluded, wanted, 0) else None;
    if matching.Some? then matching else FirstHalf(run, target, excluded, None, 0)
  }

  /** Claims the half that leads back to a removed edge's own end. */
  function ClaimReverse(s: Schema, g: Graph, claims: Claims, edge: RawEdgeId, d: Direction): Result<Claims, Error>
    requires Shaped(s, g) && edge.handle.kind < |s.edgeTypes|
    requires edge.Primary(d).kind < s.nodeKinds && edge.Secondary(d).kind < s.nodeKinds
  {
    var h, primary, secondary := edge.handle, edge.Primary(d), edge.Secondary(d);
    s.EdgeSlotOf(primary.kind, d, h.kind);
    s.EdgeSlotOf(secondary.kind, d.Flip(), h.kind);
    var run := RunOf(g.edges[s.EdgeStorageSlot(primary.kind, d, h.kind)], primary.seqNo);
    var wanted := if h.seqNo < |run| then run[h.seqNo].value else None;
    var slot := s.EdgeStorageSlot(secondary.kind, d.Flip(), h.kind);
    if !g.edges[slot].used || secondary.seqNo >= |g.edges[slot].runs| then Err(NodeOffsetNotFound(secondary.seqNo))
    else
      var found := ReverseHalf(g.edges[slot].runs[secondary.seqNo], primary, At(claims, slot, secondary.seqNo), wanted);
      if found.None? then Err(ReverseEdgeNotFound(primary, secondary, d.Flip(), h.kind))
      else Ok(Claim(claims, slot, secondary.seqNo, found.value))
  }

  function ClaimEdge(s: Schema, g: Graph, claims: Claims, edge: RawEdgeId): Result<Claims, Error>
    requires Shaped(s, g)
  {
    var h := edge.handle;
    if h.kind >= |s.edgeTypes| then Err(UnresolvedEdgeKind(h.kind))
    else if h.direction >= 2 then Err(UnresolvedDirection(h.direction))
    else
      var d := if h.direction == 0 then In else Out;
      var primary, secondary := edge.Primary(d), edge.Secondary(d);
      if primary.kind >= s.nodeKinds then Err(UnresolvedNodeKind(primary.kind))
      else
        var slot := s.EdgeStorageSlot(primary.kind, d, h.kind);
        if h.seqNo in At(claims, slot, primary.seqNo) then Ok(claims)
        else if secondary.kind >= s.nodeKinds then Err(UnresolvedNodeKind(secondary.kind))
        else ClaimReverse(s, g, Claim(claims, slot, primary.seqNo, h.seqNo), edge, d)
  }

  /** One change added to what the earlier changes amount to. */
  function ClassifyOne(s: Schema, g: Graph, c: Classified, change: Change): Result<Classified, Error>
    requires Shaped(s, g)
    requires change.UpdateNodeProperty? ==> change.prop < |s.propTypes|
  {
    match change
    case RemoveNode(n) =>
      if n.kind >= s.nodeKinds then Err(UnresolvedNodeKind(n.kind))
      else if n.seqNo < |g.nodes[n.kind]| then Ok(c.(tombstones := c.tombstones + [n]))
      else Ok(c)
    case UpdateNodeProperty(n, p, values) =>
      if n.kind >= s.nodeKinds then Err(UnresolvedNodeKind(n.kind))
      else if n.seqNo >= |g.nodes[n.kind]| then Err(NodeOffsetNotFound(n.seqNo))
      else Ok(c.(updates := c.updates[(s.PropertyStorageSlot(n.kind, p), n.seqNo as nat) := values.Values()]))
    case RemoveEdge(e) =>
      var claims :- ClaimEdge(s, g, c.claims, e);
      Ok(c.(claims := claims))
  }

  function Classify(s: Schema, g: Graph, changes: seq<Change>): Result<Classified, Error>
    requires Shaped(s, g)
    requires forall c <- changes :: c.UpdateNodeProperty? ==> c.prop < |s.propTypes|
  {
    if changes == [] then Ok(Classified([], map[], map[]))
    else
      var c :- Classify(s, g, changes[..|changes| - 1]);
      ClassifyOne(s, g, c, changes[|changes| - 1])
  }

  /** A run without the removed positions, in order. */
  function Keep<T>(run: seq<T>, removed: seq<nat>): seq<T> {
    if run == [] then []
    else
      var last := |run| - 1;
      Keep(run[..last], removed) + if last in removed then [] else [run[last]]
  }

  // ----- new nodes

  function OfKind(nodes: seq<NewNode>, kind: nat): seq<NewNode> {
    if nodes == [] then []
    else
      var last := nodes[|nodes| - 1];
      OfKind(nodes[..|nodes| - 1], kind) + if last.kind == kind then [last] else []
  }

  /** A new node's id; it becomes a 32-bit one only where an edge records it. */
  datatype NewNodeId = NewNodeId(kind: nat, seqNo: nat) {
    function Raw(): RawNodeId {
      NodeAt(kind, seqNo)
    }

    predicate Fits() {
      kind <= U32_MAX && seqNo <= U32_MAX
    }
  }

  /** The ids of the diff's new nodes: the k-th new node of a kind follows its k elders. */
  function Remapped(nodes: seq<seq<bool>>, newNodes: seq<NewNode>): (r: seq<NewNodeId>)
    ensures |r| == |newNodes|
  {
    if newNodes == [] then []
    else
      var older, last := newNodes[..|newNodes| - 1], newNodes[|newNodes| - 1];
      var count := if last.kind < |nodes| then |nodes[last.kind]| else 0;
      Remapped(nodes, older) + [NewNodeId(last.kind, count + |OfKind(older, last.kind)|)]
  }

  /** Some tombstone names this node. */
  predicate Struck(tombstones: seq<RawNodeId>, k: nat, v: nat) {
    exists n <- tombstones :: n.kind == k && n.seqNo == v
  }

  function NodesAfter(nodes: seq<seq<bool>>, tombstones: seq<RawNodeId>, newNodes: seq<NewNode>)
    : (r: seq<seq<bool>>)
    ensures |r| == |nodes|
    ensures forall k | 0 <= k < |nodes| :: |r[k]| == |nodes[k]| + |OfKind(newNodes, k)|
  {
    seq(|nodes|, k requires 0 <= k < |nodes| =>
      seq(|nodes[k]| + |OfKind(newNodes, k)|, v requires 0 <= v < |nodes[k]| + |OfKind(newNodes, k)| =>
        v < |nodes[k]| && (nodes[k][v] || Struck(tombstones, k, v))))
  }

  // ----- properties

  function PropertyOf(n: NewNode, p: nat): seq<PropertyValue> {
    if p in n.properties then n.properties[p] else []
  }

  /** The last update of each node that has one. */
  function Updated(t: Table<PropertyValue>, updates: Updates, slot: nat): (r: Table<PropertyValue>)
    ensures |r.runs| == |t.runs|
  {
    Table(t.used, seq(|t.runs|, v requires 0 <= v < |t.runs| =>
      if (slot, v) in updates then updates[(slot, v)] else t.runs[v]))
  }

  /** A run per new node; a slot no new node mentions stays unused if it was. */
  function PropsExtended(t: Table<PropertyValue>, added: seq<NewNode>, p: nat): Table<PropertyValue> {
    Table(t.used || exists n <- added :: p in n.properties,
          t.runs + seq(|added|, j requires 0 <= j < |added| => PropertyOf(added[j], p)))
  }

  function PropsAfter(s: Schema, g: Graph, updates: Updates, newNodes: seq<NewNode>)
    : (r: seq<Table<PropertyValue>>)
    requires Shaped(s, g)
    ensures |r| == |g.props|
  {
    seq(|g.props|, i requires 0 <= i < |g.props| =>
      var k, p := s.PropertySlotKind(i), s.PropertySlotProp(i);
      PropsExtended(Updated(g.props[i], updates, i), OfKind(newNodes, k), p))
  }

  // ----- edges

  /** A new edge whose ends both exist and stay. */
  datatype LiveEdge = LiveEdge(src: RawNodeId, dst: RawNodeId, kind: nat, value: Option<PropertyValue>)

  function Endpoint(s: Schema, remap: seq<NewNodeId>, r: NodeRef): Option<RawNodeId> {
    match r
    case New(id) => if id < |remap| then Some(remap[id].Raw()) else None
    case Existing(n) => if n.kind < s.nodeKinds then Some(n) else None
  }

  /**
   Every new node an edge is to record has an id within 32 bits. The original asserts this when it
   makes the id raw, which it does only for edges both of whose ends resolve.
   */
  ghost predicate EndsFit(s: Schema, remap: seq<NewNodeId>, newEdges: seq<NewEdge>) {
    forall e <- newEdges :: Endpoint(s, remap, e.src).Some? && Endpoint(s, remap, e.dst).Some? ==>
      EndFits(remap, e.src) && EndFits(remap, e.dst)
  }

  predicate EndFits(remap: seq<NewNodeId>, r: NodeRef) {
    r.New? && r.id < |remap| ==> remap[r.id].Fits()
  }

  /** A node of the post-diff graph that is neither deleted nor removed by this diff. */
  predicate Stays(nodes: seq<seq<bool>>, tombstones: seq<RawNodeId>, newNodes: seq<NewNode>, n: RawNodeId) {
    && n.kind < |nodes|
    && n.seqNo < |nodes[n.kind]| + |OfKind(newNodes, n.kind)|
    && (n.seqNo < |nodes[n.kind]| ==> !nodes[n.kind][n.seqNo] && n !in tombstones)
  }

  function LiveEdges(s: Schema, nodes: seq<seq<bool>>, tombstones: seq<RawNodeId>,
                     newNodes: seq<NewNode>, newEdges: seq<NewEdge>): seq<LiveEdge>
  {
    if newEdges == [] then []
    else
      var older, e := newEdges[..|newEdges| - 1], newEdges[|newEdges| - 1];
      var remap := Remapped(nodes, newNodes);
      var src, dst := Endpoint(s, remap, e.src), Endpoint(s, remap, e.dst);
      LiveEdges(s, nodes, tombstones, newNodes, older)
      + if && src.Some? && dst.Some?
           && Stays(nodes, tombstones, newNodes, src.value)
           && Stays(nodes, tombstones, newNodes, dst.value)
        then [LiveEdge(src.value, dst.value, e.kind, e.property)] else []
  }

  datatype NewHalf<V> = NewHalf(owner: nat, half: Half<V>)

  /** The halves one new edge puts into a slot: its Out half at the source, its In half at the target. */
  function HalvesOf(s: Schema, e: LiveEdge, slot: nat): seq<NewHalf<PropertyValue>> {
    (if s.EdgeStorageSlot(e.src.kind, Out, e.kind) == slot
     then [NewHalf(e.src.seqNo as nat, Half(e.dst, e.value))] else [])
    + (if s.EdgeStorageSlot(e.dst.kind, In, e.kind) == slot
       then [NewHalf(e.dst.seqNo as nat, Half(e.src, e.value))] else [])
  }

  function SlotHalves(s: Schema, es: seq<LiveEdge>, slot: nat): seq<NewHalf<PropertyValue>> {
    if es == [] then []
    else SlotHalves(s, es[..|es| - 1], slot) + HalvesOf(s, es[|es| - 1], slot)
  }

  /** One node's new halves, in the order their edges were added. */
  function OwnedBy<V>(halves: seq<NewHalf<V>>, v: nat): seq<Half<V>> {
    if halves == [] then []
    else
      var last := halves[|halves| - 1];
      OwnedBy(halves[..|halves| - 1], v) + if last.owner == v then [last.half] else []
  }

  function Kept(t: Table<Half<PropertyValue>>, claims: Claims, slot: nat): (r: Table<Half<PropertyValue>>)
    ensures |r.runs| == |t.runs| && r.used == t.used
  {
    Table(t.used, seq(|t.runs|, v requires 0 <= v < |t.runs| => Keep(t.runs[v], At(claims, slot, v))))
  }

  /** Room for `count` nodes, and each node's new halves after its old ones. */
  function Inserted<V>(t: Table<Half<V>>, count: nat, halves: seq<NewHalf<V>>): (r: Table<Half<V>>)
    ensures |r.runs| == count
  {
    Table(t.used || halves != [], seq(count, v requires 0 <= v < count => RunOf(t, v) + OwnedBy(halves, v)))
  }

  function EdgesKept(g: Graph, claims: Claims): (r: seq<Table<Half<PropertyValue>>>)
    ensures |r| == |g.edges|
  {
    seq(|g.edges|, i requires 0 <= i < |g.edges| => Kept(g.edges[i], claims, i))
  }

  function EdgesAfter(s: Schema, g: Graph, claims: Claims, newNodes: seq<NewNode>, live: seq<LiveEdge>)
    : (r: seq<Table<Half<PropertyValue>>>)
    requires Shaped(s, g)
    ensures |r| == |g.edges|
  {
    seq(|g.edges|, i requires 0 <= i < |g.edges| =>
      var k := s.EdgeSlotKind(i);
      Inserted(Kept(g.edges[i], claims, i), |g.nodes[k]| + |OfKind(newNodes, k)|, SlotHalves(s, live, i)))
  }

  // ----- the whole diff

  /** What applying a diff whose changes classify as `c` makes of the graph. */
  function ApplyClassified(s: Schema, g: Graph, d: GraphDiff, c: Classified): Graph
    requires Shaped(s, g)
  {
    Graph(NodesAfter(g.nodes, c.tombstones, d.newNodes),
          EdgesAfter(s, g, c.claims, d.newNodes,
                     LiveEdges(s, g.nodes, c.tombstones, d.newNodes, d.newEdges)),
          PropsAfter(s, g, c.updates, d.newNodes))
  }

  function TotalOf<T>(runs: seq<seq<T>>): nat {
    if runs == [] then 0 else TotalOf(runs[..|runs| - 1]) + |runs[|runs| - 1]|
  }

  predicate AllTyped(vs: seq<PropertyValue>, typ: PropertyType) {
    forall v <- vs :: v.Typ() == typ
  }

  /** Every updated slot is in use and every value written has its slot's type. */
  ghost predicate UpdatesFit(s: Schema, g: Graph, updates: Updates)
    requires Shaped(s, g)
  {
    forall i, v | 0 <= i < |g.props| && 0 <= v < |g.props[i].runs| && (i, v) in updates ::
      && g.props[i].used
      && s.PropertySlotProp(i) < |s.propTypes|
      && AllTyped(updates[(i, v)], s.propTypes[s.PropertySlotProp(i)])
  }

  ghost predicate NewPropertiesFit(s: Schema, newNodes: seq<NewNode>) {
    forall n, p | n in newNodes && p in n.properties ::
      p < |s.propTypes| && AllTyped(n.properties[p], s.propTypes[p])
  }

  /** A value exactly when the edge kind declares one, and of the type it declares. */
  predicate LiveEdgeFits(s: Schema, e: LiveEdge) {
    && e.kind < |s.edgeTypes|
    && if s.edgeTypes[e.kind] == NoType then e.value.None?
       else e.value.Some? && e.value.value.Typ() == s.edgeTypes[e.kind]
  }

  /** The claimed positions of a slot in use are positions of the run they were claimed in. */
  ghost predicate SlotClaimsInRange<V>(t: Table<Half<V>>, claims: Claims, slot: nat) {
    t.used ==> forall v, p | 0 <= v < |t.runs| && p in At(claims, slot, v) :: p < |t.runs[v]|
  }

  ghost predicate ClaimsInRange(g: Graph, claims: Claims) {
    forall i | 0 <= i < |g.edges| :: SlotClaimsInRange(g.edges[i], claims, i)
  }

  ghost predicate SizesFit(g: Graph) {
    && (forall i | 0 <= i < |g.edges| :: TotalOf(g.edges[i].runs) <= U32_MAX)
    && (forall i | 0 <= i < |g.props| :: TotalOf(g.props[i].runs) <= U32_MAX)
  }

  /** The diffs staging accepts: exactly these are applied, every other one is an error. */
  ghost predicate Accepts(s: Schema, g: Graph, d: GraphDiff)
    requires Shaped(s, g) && WellKinded(s, d)
  {
    var c := Classify(s, g, d.changes);
    && c.Ok?
    && UpdatesFit(s, g, c.value.updates)
    && ClaimsInRange(g, c.value.claims)
    && NewPropertiesFit(s, d.newNodes)
    && (forall e <- LiveEdges(s, g.nodes, c.value.tombstones, d.newNodes, d.newEdges) :: LiveEdgeFits(s, e))
    && SizesFit(ApplyClassified(s, g, d, c.value))
  }

  function ApplyDiff(s: Schema, g: Graph, d: GraphDiff): Graph
    requires Shaped(s, g) && WellKinded(s, d) && Accepts(s, g, d)
  {
    ApplyClassified(s, g, d, Classify(s, g, d.changes).value)
  }

  // ----- strings

  /** The strings among some values, in order. */
  function TextsOf(vs: seq<PropertyValue>): seq<Text> {
    if vs == [] then []
    else
      var last := vs[|vs| - 1];
      TextsOf(vs[..|vs| - 1]) + if last.String? then [last.text] else []
  }

  /** The strings the surviving updates of one slot's first `m` nodes bring in. */
  function SlotUpdateTexts(updates: Updates, slot: nat, m: nat): seq<Text> {
    if m == 0 then []
    else
      SlotUpdateTexts(updates, slot, m - 1)
      + if (slot, m - 1) in updates then TextsOf(updates[(slot, m - 1)]) else []
  }

  function UpdateTextsUpTo(g: Graph, updates: Updates, m: nat): seq<Text>
    requires m <= |g.props|
  {
    if m == 0 then []
    else UpdateTextsUpTo(g, updates, m - 1) + SlotUpdateTexts(updates, m - 1, |g.props[m - 1].runs|)
  }

  /** The strings new nodes carry under one property. */
  function NodeTexts(nodes: seq<NewNode>, p: nat): seq<Text> {
    if nodes == [] then []
    else NodeTexts(nodes[..|nodes| - 1], p) + TextsOf(PropertyOf(nodes[|nodes| - 1], p))
  }

  function NewNodeTextsUpTo(s: Schema, newNodes: seq<NewNode>, m: nat): seq<Text> {
    if m == 0 then []
    else
      NewNodeTextsUpTo(s, newNodes, m - 1)
      + NodeTexts(OfKind(newNodes, s.PropertySlotKind(m - 1)), s.PropertySlotProp(m - 1))
  }

  /** The strings new edges carry, those of edges that are then dropped included. */
  function EdgeTexts(newEdges: seq<NewEdge>): seq<Text> {
    if newEdges == [] then []
    else
      var last := newEdges[|newEdges| - 1].property;
      EdgeTexts(newEdges[..|newEdges| - 1]) + if last.Some? then TextsOf([last.value]) else []
  }

  /** Every string staging interns, in the order it does. */
  function DiffTexts(s: Schema, g: Graph, d: GraphDiff, updates: Updates): seq<Text> {
    UpdateTextsUpTo(g, updates, |g.props|)
    + NewNodeTextsUpTo(s, d.newNodes, |g.props|)
    + EdgeTexts(d.newEdges)
  }

  /** The strings anywhere in the diff. */
  ghost predicate Mentions(d: GraphDiff, t: Text) {
    || (exists c :: c in d.changes && c.UpdateNodeProperty? && t in TextsOf(c.values.Values()))
    || (exists n, p :: n in d.newNodes && p in n.properties && t in TextsOf(n.properties[p]))
    || t in EdgeTexts(d.newEdges)
  }
}
