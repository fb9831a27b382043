/** What a graph yields can be removed from it, and what a diff writes is read back. */
module RoundTrips {
  import opened Wrappers
  import opened Storage
  import opened Schemas
  import opened Csr
  import opened Graphs
  import opened Diffs
  import opened FlatGraphs
  import opened Outcomes
  import opened Committing
  import opened Keeping
  import opened Accepting
  import opened Pairing
  import opened Preserving
  import opened NodeLaws
  import opened EdgeLaws
  import opened AcceptLaws
  import opened Reading

  // ----- removing what was read

  lemma ListIsRead(s: Schema, raw: RawGraph, node: RawNodeId, e: nat, d: Direction)
    requires s.Valid() && WellFormed(s, raw) && node.kind < s.nodeKinds && e < |s.edgeTypes|
    requires node.seqNo < |raw.nodes[node.kind]|
    ensures ListOf(s, raw, node, e, d) == ListAt(s, Meaning(s, raw), node, d, e)
    ensures |ListOf(s, raw, node, e, d)| <= U32_MAX
  {
    hide WellFormed, EdgeSlotOk, SlotOf;
    s.EdgeSlotOf(node.kind, d, e);
    SlotReads(s, raw, node, e, d);
  }

  /** The handle a removal takes: an edge's ends, and its kind, direction and position as numbers. */
  function HandleOf(x: EdgeId): RawEdgeId
    requires x.kind <= U32_MAX && x.seqNo <= U32_MAX
  {
    RawEdgeId(x.src, x.dst, EdgeHandle(x.kind, x.direction.Factor(), x.seqNo))
  }

  /** The handle of an edge a query yields is fresh, and names the very position the query listed. */
  lemma ReadHandleIsFresh(s: Schema, raw: RawGraph, node: RawNodeId, e: u32, d: Direction, x: EdgeId)
    requires s.Valid() && WellFormed(s, raw) && node.kind < s.nodeKinds && e < |s.edgeTypes|
    requires node.seqNo < |raw.nodes[node.kind]|
    requires GetEdgesWithDeleted(s, raw, node, e, d).Ok? && x in GetEdgesWithDeleted(s, raw, node, e, d).value
    ensures x.kind == e && x.direction == d && x.seqNo <= U32_MAX
    ensures Fresh(s, Meaning(s, raw), HandleOf(x)) && Names(HandleOf(x), node, d, e, x.seqNo)
    ensures HalfAt(s, Meaning(s, raw), node, d, e, x.seqNo).Some?
    ensures HalfAt(s, Meaning(s, raw), node, d, e, x.seqNo).value.neighbor == if d.Out? then x.dst else x.src
  {
    hide WellFormed, ListOf, GetEdgesWithDeleted;
    EdgesRead(s, raw, node, e, d);
    ListIsRead(s, raw, node, e, d);
    s.EdgeSlotOf(node.kind, d, e);
    var edges := GetEdgesWithDeleted(s, raw, node, e, d).value;
    var j :| 0 <= j < |edges| && edges[j] == x;
  }

  // ----- diffs that only remove

  ghost predicate OnlyRemoves(changes: seq<Change>) {
    forall c <- changes :: !c.UpdateNodeProperty?
  }

  lemma {:induction false} RemovalsUpdateNothing(s: Schema, g: Graph, changes: seq<Change>)
    requires Shaped(s, g) && OnlyRemoves(changes) && Classify(s, g, changes).Ok?
    ensures Classify(s, g, changes).value.updates == map[]
  {
    hide ClaimEdge, Shaped;
    if changes != [] {
      LastOf(changes);
      RemovalsUpdateNothing(s, g, changes[..|changes| - 1]);
    }
  }

  lemma {:induction false} TotalKept(t: Table<Half<PropertyValue>>, claims: Claims, slot: nat)
    ensures TotalOf(Kept(t, claims, slot).runs) <= TotalOf(t.runs)
    decreases |t.runs|
  {
    if t.runs != [] {
      var last := |t.runs| - 1;
      var shorter := Table(t.used, t.runs[..last]);
      TotalKept(shorter, claims, slot);
      assert Kept(t, claims, slot).runs[..last] == Kept(shorter, claims, slot).runs;
      KeepShortens(t.runs[last], At(claims, slot, last));
    }
  }

  lemma {:induction false} KeepShortens<T>(run: seq<T>, removed: seq<nat>)
    ensures |Keep(run, removed)| <= |run|
  {
    if run != [] {
      KeepShortens(run[..|run| - 1], removed);
    }
  }

  /** What is stored fits 32-bit offsets. */
  lemma StoredSizesFit(s: Schema, raw: RawGraph)
    requires s.Valid() && WellFormed(s, raw)
    ensures SizesFit(Meaning(s, raw))
  {
    hide TotalOf, Schema.EdgeSlotKind, Schema.PropertySlotKind, Schema.EdgeSlotEdge, Schema.PropertySlotProp, Runs,
         IdsInPool, Halves, ResolveAll;
    var g := Meaning(s, raw);
    forall i | 0 <= i < |g.edges|
      ensures TotalOf(g.edges[i].runs) <= U32_MAX
    {
      var n := |raw.nodes[s.EdgeSlotKind(i)]|;
      assert EdgeSlotOk(raw.edges[i], s.edgeTypes[s.EdgeSlotEdge(i)], n, raw.strings);
      TotalOfRuns(raw.edges[i].offsets, Halves(raw.strings, raw.edges[i]), n, n);
    }
    forall i | 0 <= i < |g.props|
      ensures TotalOf(g.props[i].runs) <= U32_MAX
    {
      var n := |raw.nodes[s.PropertySlotKind(i)]|;
      assert PropSlotOk(raw.props[i], s.propTypes[s.PropertySlotProp(i)], n, raw.strings);
      TotalOfRuns(raw.props[i].offsets, ResolveAll(raw.strings, Items(raw.props[i].values)), n, n);
    }
  }

  lemma NothingAdded(s: Schema, g: Graph, d: GraphDiff, c: Classified)
    requires Shaped(s, g) && d.newNodes == [] && d.newEdges == [] && c.updates == map[] && SizesFit(g)
    ensures LiveEdges(s, g.nodes, c.tombstones, d.newNodes, d.newEdges) == []
    ensures SizesFit(ApplyClassified(s, g, d, c))
  {
    hide TotalOf, Kept, Schema.EdgeSlotKind, Schema.PropertySlotKind;
    var after := ApplyClassified(s, g, d, c);
    forall i | 0 <= i < |after.edges|
      ensures TotalOf(after.edges[i].runs) <= U32_MAX
    {
      TotalKept(g.edges[i], c.claims, i);
      TotalInserted(Kept(g.edges[i], c.claims, i), |g.edges[i].runs|, []);
    }
    forall i | 0 <= i < |after.props|
      ensures after.props[i].runs == g.props[i].runs
    {
      assert Updated(g.props[i], c.updates, i).runs == g.props[i].runs;
    }
  }

  /** A diff that only removes, with fresh handles and known node kinds, is always accepted. */
  lemma RemovalsAreAccepted(s: Schema, raw: RawGraph, changes: seq<Change>)
    requires s.Valid() && Sound(s, raw) && OnlyRemoves(changes) && FreshHandles(s, Meaning(s, raw), changes)
    requires forall c <- changes :: c.RemoveNode? ==> c.node.kind < s.nodeKinds
    ensures WellKinded(s, GraphDiff([], [], changes)) && Accepts(s, Meaning(s, raw), GraphDiff([], [], changes))
  {
    hide WellFormed, Coherent, Meaning, FreshHandles, Classify, ApplyClassified, ClaimsSound, KeptPaired;
    var g, d := Meaning(s, raw), GraphDiff([], [], changes);
    FreshChangesClassify(s, g, changes);
    var c := Classify(s, g, changes).value;
    ChangesKeepPairing(s, g, changes);
    RemovalsUpdateNothing(s, g, changes);
    ClaimsInRuns(g, c.claims);
    StoredSizesFit(s, raw);
    NothingAdded(s, g, d, c);
  }


  lemma {:induction false} KeepAllButOne<T>(run: seq<T>, p: nat)
    requires p < |run|
    ensures Keep(run, [p]) == run[..p] + run[p + 1..]
  {
    var last := |run| - 1;
    if p < last {
      KeepAllButOne(run[..last], p);
      assert run[..p] + run[p + 1..] == run[..last][..p] + run[..last][p + 1..] + [run[last]];
    } else {
      KeepAgrees(run[..last], [p], []);
      KeepNothing(run[..last]);
      assert run[..p] + run[p + 1..] == run[..last];
    }
  }

  function Without<T>(run: seq<T>, p: nat): seq<T>
    requires p < |run|
  {
    run[..p] + run[p + 1..]
  }

  /** The one removal, taken from the start, claims a half at each end and nothing else. */
  lemma OneRemovalClaims(s: Schema, g: Graph, edge: RawEdgeId, node: RawNodeId, d: Direction, e: nat, p: nat)
    returns (f: nat)
    requires s.Valid() && Coherent(s, g) && Fresh(s, g, edge) && Names(edge, node, d, e, p)
    ensures HalfAt(s, g, node, d, e, p).Some? && node.kind < s.nodeKinds && e < |s.edgeTypes|
    ensures var far := if d.Out? then edge.dst else edge.src;
            var half := HalfAt(s, g, node, d, e, p).value;
            && half.neighbor == far && far.kind < s.nodeKinds
            && HalfAt(s, g, far, d.Flip(), e, f) == Some(Half(node, half.value))
            && ClaimEdge(s, g, map[], edge)
               == Ok(map[(s.EdgeStorageSlot(node.kind, d, e), node.seqNo as nat) := [p],
                         (s.EdgeStorageSlot(far.kind, d.Flip(), e), far.seqNo as nat) := [f]])
  {
    hide Coherent, KeptPaired, ClaimsSound, ClaimEdge, Schema.EdgeStorageSlot;
    CoherentShape(s, g);
    NothingClaimed(s, g);
    ClaimKeepsPairing(s, g, map[], edge);
    var far := if d.Out? then edge.dst else edge.src;
    var i, i' := s.EdgeStorageSlot(node.kind, d, e), s.EdgeStorageSlot(far.kind, d.Flip(), e);
    NeighborThere(s, g, i, node.seqNo, p);
    f :| f < |g.edges[i'].runs[far.seqNo]|
         && g.edges[i'].runs[far.seqNo][f] == Half(node, g.edges[i].runs[node.seqNo][p].value)
         && ClaimEdge(s, g, map[], edge).value == Claim(Claim(map[], i, node.seqNo, p), i', far.seqNo, f);
    if i == i' {
      SameSlot(s, node.kind, d, e, far.kind, d.Flip(), e);
    }
    TwoFirstClaims(i, node.seqNo, p, i', far.seqNo, f);
  }

  lemma TwoFirstClaims(i: nat, v: nat, p: nat, i': nat, w: nat, f: nat)
    requires i != i'
    ensures Claim(Claim(map[], i, v, p), i', w, f) == map[(i, v) := [p], (i', w) := [f]]
  {
    assert [] + [p] == [p] && [] + [f] == [f];
    assert Claim(map[], i, v, p) == map[(i, v) := [p]];
  }

  /** A list after a diff of one removal lacks what was claimed in it. */
  lemma ListAfterRemoval(s: Schema, g: Graph, edge: RawEdgeId, node: RawNodeId, d: Direction, e: nat, claims: Claims)
    requires Shaped(s, g) && WellKinded(s, GraphDiff([], [], [RemoveEdge(edge)]))
    requires Accepts(s, g, GraphDiff([], [], [RemoveEdge(edge)])) && ClaimEdge(s, g, map[], edge) == Ok(claims)
    requires node.kind < s.nodeKinds && node.seqNo < |g.nodes[node.kind]| && e < |s.edgeTypes|
    ensures ListAt(s, ApplyDiff(s, g, GraphDiff([], [], [RemoveEdge(edge)])), node, d, e)
         == Keep(ListAt(s, g, node, d, e), At(claims, s.EdgeStorageSlot(node.kind, d, e), node.seqNo))
  {
    hide Shaped, Accepts, ClaimEdge, ListAt, Keep, ApplyDiff, At, Schema.EdgeStorageSlot;
    var diff := GraphDiff([], [], [RemoveEdge(edge)]);
    OneChange(s, g, edge);
    AcceptsClassifies(s, g, diff);
    NodesStay(s, g, diff, node);
    ListAfter(s, g, diff, node, d, e);
    NothingGained(s, g, diff, node, d, e);
  }

  lemma OneChange(s: Schema, g: Graph, edge: RawEdgeId)
    requires Shaped(s, g) && ClaimEdge(s, g, map[], edge).Ok?
    ensures Classify(s, g, [RemoveEdge(edge)]) == Ok(Classified([], map[], ClaimEdge(s, g, map[], edge).value))
  {
    hide ClaimEdge;
    assert [RemoveEdge(edge)][..0] == [];
  }

  lemma NodesStay(s: Schema, g: Graph, d: GraphDiff, node: RawNodeId)
    requires Shaped(s, g) && WellKinded(s, d) && Accepts(s, g, d) && node.kind < s.nodeKinds
    requires node.seqNo < |g.nodes[node.kind]|
    ensures node.kind < |ApplyDiff(s, g, d).nodes| && node.seqNo < |ApplyDiff(s, g, d).nodes[node.kind]|
  {
    hide Accepts, ApplyDiff;
    RemovedNodesAreDeleted(s, g, d, node.kind, node.seqNo);
  }

  /**
   An edge that a query yields can be removed by its handle. On a sound graph the removal is
   accepted; the list it was read from loses just the position it was read at, the list at its
   other end loses one half that leads back and carries the same value, and every other list stays.
   */
  lemma ReadThenRemove(s: Schema, raw: RawGraph, node: RawNodeId, e: u32, d: Direction, x: EdgeId) returns (f: nat)
    requires s.Valid() && Sound(s, raw) && node.kind < s.nodeKinds && e < |s.edgeTypes|
    requires node.seqNo < |raw.nodes[node.kind]|
    requires |raw.edges| == s.EdgeStorageSize()
    requires GetEdgesWithDeleted(s, raw, node, e, d).Ok? && x in GetEdgesWithDeleted(s, raw, node, e, d).value
    ensures x.kind == e && x.direction == d && x.seqNo <= U32_MAX
    ensures var g, diff := Meaning(s, raw), GraphDiff([], [], [RemoveEdge(HandleOf(x))]);
            WellKinded(s, diff) && Accepts(s, g, diff)
    ensures var g, diff := Meaning(s, raw), GraphDiff([], [], [RemoveEdge(HandleOf(x))]);
            var after, far := ApplyDiff(s, g, diff), if d.Out? then x.dst else x.src;
            var here, there := ListAt(s, g, node, d, e), ListAt(s, g, far, d.Flip(), e);
            && x.seqNo < |here| && f < |there|
            && here[x.seqNo].neighbor == far && there[f] == Half(node, here[x.seqNo].value)
            && ListAt(s, after, node, d, e) == Without(here, x.seqNo)
            && ListAt(s, after, far, d.Flip(), e) == Without(there, f)
            && forall n: RawNodeId, d', e': nat ::
                 && n.kind < s.nodeKinds && n.seqNo < |g.nodes[n.kind]| && e' < |s.edgeTypes|
                 && (n, d', e') != (node, d, e as nat) && (n, d', e') != (far, d.Flip(), e as nat) ==>
                   ListAt(s, after, n, d', e') == ListAt(s, g, n, d', e')
  {
    hide WellFormed, Coherent, Meaning, GetEdgesWithDeleted, ApplyDiff, Accepts, Fresh, ListAt, Keep, Names, HalfAt,
         Schema.EdgeStorageSlot, ClaimEdge, WellKinded;
    ReadHandleIsFresh(s, raw, node, e, d, x);
    var g, edge := Meaning(s, raw), HandleOf(x);
    var far := if d.Out? then x.dst else x.src;
    CoherentShape(s, g);
    f := OneRemovalClaims(s, g, edge, node, d, e, x.seqNo);
    RemovalsAreAccepted(s, raw, [RemoveEdge(edge)]);
    var i, i' := s.EdgeStorageSlot(node.kind, d, e), s.EdgeStorageSlot(far.kind, d.Flip(), e);
    var claims: Claims := map[(i, node.seqNo as nat) := [x.seqNo], (i', far.seqNo as nat) := [f]];
    HalfIsListed(s, g, node, d, e, x.seqNo);
    HalfIsListed(s, g, far, d.Flip(), e, f);
    if i == i' {
      SameSlot(s, node.kind, d, e, far.kind, d.Flip(), e);
    }
    ListAfterRemoval(s, g, edge, node, d, e, claims);
    KeepAllButOne(ListAt(s, g, node, d, e), x.seqNo);
    ListAfterRemoval(s, g, edge, far, d.Flip(), e, claims);
    KeepAllButOne(ListAt(s, g, far, d.Flip(), e), f);
    forall n: RawNodeId, d', e': nat | n.kind < s.nodeKinds && n.seqNo < |g.nodes[n.kind]| && e' < |s.edgeTypes|
      && (n, d', e') != (node, d, e as nat) && (n, d', e') != (far, d.Flip(), e as nat)
      ensures ListAt(s, ApplyDiff(s, g, GraphDiff([], [], [RemoveEdge(edge)])), n, d', e') == ListAt(s, g, n, d', e')
    {
      if s.EdgeStorageSlot(n.kind, d', e') == i {
        SameSlot(s, n.kind, d', e', node.kind, d, e);
      }
      if s.EdgeStorageSlot(n.kind, d', e') == i' {
        SameSlot(s, n.kind, d', e', far.kind, d.Flip(), e);
      }
      ListAfterRemoval(s, g, edge, n, d', e', claims);
      KeepNothing(ListAt(s, g, n, d', e'));
    }
  }

  lemma HalfIsListed(s: Schema, g: Graph, node: RawNodeId, d: Direction, e: nat, p: nat)
    requires Shaped(s, g) && node.kind < s.nodeKinds && e < |s.edgeTypes| && HalfAt(s, g, node, d, e, p).Some?
    ensures node.seqNo < |g.nodes[node.kind]| && p < |ListAt(s, g, node, d, e)|
    ensures ListAt(s, g, node, d, e)[p] == HalfAt(s, g, node, d, e, p).value
  {
    hide Schema.EdgeStorageSlot;
    s.EdgeSlotOf(node.kind, d, e);
  }

  // ----- reading what was written

  lemma OutcomeReads(s: Schema, d: GraphDiff, before: RawGraph, after: RawGraph, ids: seq<NewNodeId>)
    requires CommitOutcome(s, d, before, after, ids)
    ensures s.Valid() && WellFormed(s, before) && WellFormed(s, after)
    ensures Shaped(s, Meaning(s, before)) && WellKinded(s, d) && Accepts(s, Meaning(s, before), d)
    ensures Meaning(s, after) == ApplyDiff(s, Meaning(s, before), d) && ids == Remapped(before.nodes, d.newNodes)
    ensures Meaning(s, before).nodes == before.nodes && Meaning(s, after).nodes == after.nodes
    ensures |before.nodes| == |after.nodes| == s.nodeKinds && |after.edges| == s.EdgeStorageSize()
    ensures |after.props| == s.PropertyStorageSize()
  {
    hide WellKinded, Accepts, ApplyDiff, Shaped;
  }

  /** After a commit a node is deleted exactly if it was, or the diff removes it, or it is not there. */
  lemma RemovedNodesReadDeleted(s: Schema, d: GraphDiff, before: RawGraph, after: RawGraph, ids: seq<NewNodeId>,
                                n: RawNodeId)
    requires CommitOutcome(s, d, before, after, ids)
    ensures IsNodeDeleted(after, n)
       <==> if n.kind < s.nodeKinds && n.kind < |before.nodes| && n.seqNo < |before.nodes[n.kind]|
            then before.nodes[n.kind][n.seqNo] || RemoveNode(n) in d.changes
            else NewNodeId(n.kind, n.seqNo) !in ids
  {
    hide WellFormed, WellKinded, Accepts, ApplyDiff, Shaped, CommitOutcome, Remapped;
    OutcomeReads(s, d, before, after, ids);
    var g := Meaning(s, before);
    if n.kind < s.nodeKinds {
      NodesAreOldOrNew(s, g, d, n.kind, n.seqNo);
      if n.seqNo < |before.nodes[n.kind]| {
        RemovedNodesAreDeleted(s, g, d, n.kind, n.seqNo);
        assert forall c | c in d.changes && c.RemoveNode? && c.node.kind == n.kind && c.node.seqNo == n.seqNo ::
            c == RemoveNode(n);
      }
    }
    if j :| 0 <= j < |ids| && ids[j] == NewNodeId(n.kind, n.seqNo) {
      NewNodesAreThere(s, g, d, j);
    }
  }

  /** After a commit the last update of a property is what reading it gives. */
  lemma UpdateIsRead(s: Schema, d: GraphDiff, before: RawGraph, after: RawGraph, ids: seq<NewNodeId>, i: nat)
    requires CommitOutcome(s, d, before, after, ids) && IsLastUpdate(d.changes, i)
    ensures |after.props| == s.PropertyStorageSize() && d.changes[i].prop < |s.propTypes|
    ensures var n, p, q := d.changes[i].owner, d.changes[i].prop, d.changes[i].values;
            var r := GetNodeProperty(s, after, n, p);
            && r.Ok?
            && (q.One? ==> ResolveAll(after.strings, r.value) == [q.single])
            && (q.Multi? ==> ResolveAll(after.strings, r.value) == q.many)
  {
    hide WellFormed, WellKinded, Accepts, ApplyDiff, Shaped, CommitOutcome, Meaning, Classify, GetNodeProperty,
         Schema.PropertyStorageSlot;
    OutcomeReads(s, d, before, after, ids);
    var g, n, p := Meaning(s, before), d.changes[i].owner, d.changes[i].prop;
    KnownProp(s, d, i);
    LastUpdateWins(s, g, d, i);
    UpdatedSlotUsed(s, g, d, i);
    NodesStay(s, g, d, n);
    PropertiesRead(s, after, n, p);
  }

  lemma KnownProp(s: Schema, d: GraphDiff, i: nat)
    requires WellKinded(s, d) && i < |d.changes| && d.changes[i].UpdateNodeProperty?
    ensures d.changes[i].prop < |s.propTypes|
  {
    assert d.changes[i] in d.changes;
  }

  /** A new edge that stays is read, live, from both its ends, with its value. */
  lemma NewEdgeIsRead(s: Schema, d: GraphDiff, before: RawGraph, after: RawGraph, ids: seq<NewNodeId>, i: nat,
                      a: RawNodeId, b: RawNodeId, dir: Direction)
    requires CommitOutcome(s, d, before, after, ids) && EndsFit(s, ids, d.newEdges) && i < |d.newEdges|
    requires RefersTo(s, ids, d.newEdges[i].src, a) && RefersTo(s, ids, d.newEdges[i].dst, b)
    requires var g := Meaning(s, before); EndStays(g, d, d.newEdges[i].src) && EndStays(g, d, d.newEdges[i].dst)
    ensures |after.edges| == s.EdgeStorageSize() && d.newEdges[i].kind < |s.edgeTypes|
    ensures a.kind < s.nodeKinds && b.kind < s.nodeKinds
    ensures var r := GetEdges(s, after, if dir.Out? then a else b, d.newEdges[i].kind, dir);
            && r.Ok?
            && exists x <- r.value ::
                 && x.src == a && x.dst == b && x.kind == d.newEdges[i].kind
                 && EdgeValueIs(s, after, x, d.newEdges[i].property)
  {
    hide WellFormed, WellKinded, Accepts, ApplyDiff, Shaped, CommitOutcome, Meaning, EndsFit, RefersTo, EndStays,
         Remapped, GetEdges, GetEdgesWithDeleted, EdgeValueIs, ListAt, ListOf;
    OutcomeReads(s, d, before, after, ids);
    var g, near, far := Meaning(s, before), if dir.Out? then a else b, if dir.Out? then b else a;
    KnownKind(s, d, i);
    var x := d.newEdges[i];
    StayingEndIsLive(s, g, d, x.src, a);
    StayingEndIsLive(s, g, d, x.dst, b);
    NewEdgeAtOneEnd(s, g, d, i, near, far, dir);
    ListIsRead(s, after, near, x.kind, dir);
    EdgesRead(s, after, near, x.kind, dir);
    FilteredEdgesRead(s, after, near, x.kind, dir);
    var run := ListOf(s, after, near, x.kind, dir);
    var j :| 0 <= j < |run| && run[j] == Half(far, x.property);
    var y := GetEdgesWithDeleted(s, after, near, x.kind, dir).value[j];
    assert y in GetEdgesWithDeleted(s, after, near, x.kind, dir).value;
    assert y == FromHalf(near, far, x.kind, dir, j);
    assert y in GetEdges(s, after, near, x.kind, dir).value;
  }

  lemma KnownKind(s: Schema, d: GraphDiff, i: nat)
    requires WellKinded(s, d) && i < |d.newEdges|
    ensures d.newEdges[i].kind < |s.edgeTypes|
  {
    assert d.newEdges[i] in d.newEdges;
  }
}
