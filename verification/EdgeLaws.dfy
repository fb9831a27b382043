/** What an accepted diff does to adjacency lists, read off the diff's own entries. */
module EdgeLaws {
  import opened Wrappers
  import opened Storage
  import opened Schemas
  import opened Graphs
  import opened Diffs
  import opened NewNodes
  import opened NewEdges
  import opened Accepting
  import opened Pairing
  import opened Preserving
  import opened NodeLaws

  ghost predicate Ascending(at: seq<nat>) {
    forall i, j | 0 <= i < j < |at| :: at[i] < at[j]
  }

  // ----- removed halves

  /** The handle says: position `p` of the edges of kind `e` that `node` has in direction `d`. */
  predicate Names(edge: RawEdgeId, node: RawNodeId, d: Direction, e: nat, p: nat) {
    && edge.handle.kind == e && edge.handle.direction == (if d.Out? then 1 else 0) && edge.handle.seqNo == p
    && node == if d.Out? then edge.src else edge.dst
  }

  /** The half at a position of a node's adjacency list. */
  function HalfAt(s: Schema, g: Graph, node: RawNodeId, d: Direction, e: nat, p: nat): Option<Half<PropertyValue>> {
    var slot := s.EdgeStorageSlot(node.kind, d, e);
    if slot < |g.edges| && node.seqNo < |g.edges[slot].runs| && p < |g.edges[slot].runs[node.seqNo]|
    then Some(g.edges[slot].runs[node.seqNo][p]) else None
  }

  /** The handle names, at the far end, the half that records the same edge as the one at `p`. */
  predicate NamesOther(s: Schema, g: Graph, edge: RawEdgeId, node: RawNodeId, d: Direction, e: nat, p: nat) {
    var far := if d.Out? then edge.dst else edge.src;
    var half := HalfAt(s, g, node, d, e, p);
    && half.Some? && half.value.neighbor == far
    && Names(edge, far, d.Flip(), e, edge.handle.seqNo)
    && HalfAt(s, g, far, d.Flip(), e, edge.handle.seqNo) == Some(Half(node, half.value.value))
  }

  lemma ClaimsGrow(s: Schema, g: Graph, claims: Claims, edge: RawEdgeId)
    requires Shaped(s, g) && ClaimEdge(s, g, claims, edge).Ok?
    ensures forall i, v, p | p in At(claims, i, v) :: p in At(ClaimEdge(s, g, claims, edge).value, i, v)
    ensures edge.handle.kind < |s.edgeTypes| && edge.handle.direction < 2
    ensures var d := if edge.handle.direction == 1 then Out else In;
            var near := if d.Out? then edge.src else edge.dst;
            && near.kind < s.nodeKinds
            && edge.handle.seqNo in At(ClaimEdge(s, g, claims, edge).value,
                                       s.EdgeStorageSlot(near.kind, d, edge.handle.kind), near.seqNo)
  {
    hide ReverseHalf, Shaped, Schema.EdgeStorageSlot;
  }

  /** Whatever position a removal names is claimed, fresh or not. */
  lemma {:induction false} NamedIsClaimed(s: Schema, g: Graph, changes: seq<Change>, edge: RawEdgeId, node: RawNodeId,
                                          d: Direction, e: nat, p: nat)
    requires Shaped(s, g) && forall c <- changes :: c.UpdateNodeProperty? ==> c.prop < |s.propTypes|
    requires Classify(s, g, changes).Ok? && RemoveEdge(edge) in changes && Names(edge, node, d, e, p)
    ensures e < |s.edgeTypes| && node.kind < s.nodeKinds
    ensures p in At(Classify(s, g, changes).value.claims, s.EdgeStorageSlot(node.kind, d, e), node.seqNo)
  {
    hide ClaimEdge, At, Schema.EdgeStorageSlot;
    var older, last := changes[..|changes| - 1], changes[|changes| - 1];
    LastOf(changes);
    if last.RemoveEdge? {
      ClaimsGrow(s, g, Classify(s, g, older).value.claims, last.edge);
    }
    if last != RemoveEdge(edge) {
      NamedIsClaimed(s, g, older, edge, node, d, e, p);
    }
  }

  /** Some removal names the position or, at the far end, the half that records the same edge. */
  ghost predicate Removes(s: Schema, g: Graph, changes: seq<Change>, node: RawNodeId, d: Direction, e: nat, p: nat) {
    exists c <- changes :: c.RemoveEdge? && (Names(c.edge, node, d, e, p) || NamesOther(s, g, c.edge, node, d, e, p))
  }

  lemma TwoClaims(claims: Claims, i: nat, v: nat, p: nat, i': nat, v': nat, f: nat, j: nat, w: nat, q: nat)
    requires q in At(Claim(Claim(claims, i, v, p), i', v', f), j, w)
    ensures q in At(claims, j, w) || (j, w, q) == (i, v, p) || (j, w, q) == (i', v', f)
  {
  }

  lemma SameSlot(s: Schema, k: nat, d: Direction, e: nat, k': nat, d': Direction, e': nat)
    requires k < s.nodeKinds && k' < s.nodeKinds && e < |s.edgeTypes| && e' < |s.edgeTypes|
    requires s.EdgeStorageSlot(k, d, e) == s.EdgeStorageSlot(k', d', e')
    ensures k == k' && d == d' && e == e'
  {
    s.EdgeSlotOf(k, d, e);
    s.EdgeSlotOf(k', d', e');
  }

  /** What a removal with a fresh handle claims it names, directly or at the far end. */
  lemma ClaimIsNamed(s: Schema, g: Graph, claims: Claims, edge: RawEdgeId, node: RawNodeId, d: Direction, e: nat,
                     p: nat)
    requires s.Valid() && Coherent(s, g) && Fresh(s, g, edge) && ClaimsSound(g, claims) && KeptPaired(s, g, claims)
    requires node.kind < s.nodeKinds && e < |s.edgeTypes| && ClaimEdge(s, g, claims, edge).Ok?
    requires p in At(ClaimEdge(s, g, claims, edge).value, s.EdgeStorageSlot(node.kind, d, e), node.seqNo)
    ensures p in At(claims, s.EdgeStorageSlot(node.kind, d, e), node.seqNo)
         || Names(edge, node, d, e, p) || NamesOther(s, g, edge, node, d, e, p)
  {
    hide Coherent, KeptPaired, ClaimsSound, ClaimEdge, Schema.EdgeStorageSlot, At, Claim, NamesOther;
    CoherentShape(s, g);
    ClaimKeepsPairing(s, g, claims, edge);
    var h, slot := edge.handle, s.EdgeStorageSlot(node.kind, d, e);
    var d0 := if h.direction == 0 then In else Out;
    var near, far := edge.Primary(d0), edge.Secondary(d0);
    var i, i' := s.EdgeStorageSlot(near.kind, d0, h.kind), s.EdgeStorageSlot(far.kind, d0.Flip(), h.kind);
    if h.seqNo !in At(claims, i, near.seqNo) && p !in At(claims, slot, node.seqNo) {
      NeighborThere(s, g, i, near.seqNo, h.seqNo);
      var f: nat :| f < |g.edges[i'].runs[far.seqNo]|
                    && g.edges[i'].runs[far.seqNo][f] == Half(near, g.edges[i].runs[near.seqNo][h.seqNo].value)
                    && ClaimEdge(s, g, claims, edge).value
                       == Claim(Claim(claims, i, near.seqNo, h.seqNo), i', far.seqNo, f);
      TwoClaims(claims, i, near.seqNo, h.seqNo, i', far.seqNo, f, slot, node.seqNo, p);
      if (slot, node.seqNo as nat, p) == (i, near.seqNo as nat, h.seqNo as nat) {
        SameSlot(s, node.kind, d, e, near.kind, d0, h.kind);
      } else {
        SameSlot(s, node.kind, d, e, far.kind, d0.Flip(), h.kind);
        FarHalfIsNamed(s, g, edge, far, d, e, f);
      }
    }
  }

  lemma FarHalfIsNamed(s: Schema, g: Graph, edge: RawEdgeId, node: RawNodeId, d: Direction, e: nat, f: nat)
    requires Shaped(s, g) && Fresh(s, g, edge) && e == edge.handle.kind
    requires edge.handle.direction == (if d.Out? then 0 else 1) && node == if d.Out? then edge.src else edge.dst
    requires var far := if d.Out? then edge.dst else edge.src;
             var named := HalfAt(s, g, far, d.Flip(), e, edge.handle.seqNo);
             named.Some? && HalfAt(s, g, node, d, e, f) == Some(Half(far, named.value.value))
    ensures NamesOther(s, g, edge, node, d, e, f)
  {
    hide Shaped, Schema.EdgeStorageSlot;
  }

  /** With fresh handles nothing is claimed but what the removals name. */
  lemma {:induction false} ClaimedIsNamed(s: Schema, g: Graph, changes: seq<Change>, node: RawNodeId, d: Direction,
                                          e: nat, p: nat)
    requires s.Valid() && Coherent(s, g) && FreshHandles(s, g, changes)
    requires forall c <- changes :: c.UpdateNodeProperty? ==> c.prop < |s.propTypes|
    requires Classify(s, g, changes).Ok? && node.kind < s.nodeKinds && e < |s.edgeTypes|
    requires p in At(Classify(s, g, changes).value.claims, s.EdgeStorageSlot(node.kind, d, e), node.seqNo)
    ensures Removes(s, g, changes, node, d, e, p)
  {
    hide Coherent, ClaimEdge, Fresh, KeptPaired, ClaimsSound, Names, NamesOther, Schema.EdgeStorageSlot;
    CoherentShape(s, g);
    if changes != [] {
      var older, last := changes[..|changes| - 1], changes[|changes| - 1];
      LastOf(changes);
      if p in At(Classify(s, g, older).value.claims, s.EdgeStorageSlot(node.kind, d, e), node.seqNo) {
        ClaimedIsNamed(s, g, older, node, d, e, p);
      } else {
        ChangesKeepPairing(s, g, older);
        ClaimIsNamed(s, g, Classify(s, g, older).value.claims, last.edge, node, d, e, p);
      }
    }
  }

  /**
   A removal, whatever its handle, is refused for want of a reverse only where no half of the edge's
   other end that leads back is left unclaimed.
   */
  lemma NoReverseLeft(s: Schema, g: Graph, claims: Claims, edge: RawEdgeId, target: RawNodeId, node: RawNodeId,
                      d: Direction, e: nat)
    requires Shaped(s, g) && ClaimEdge(s, g, claims, edge) == Err(ReverseEdgeNotFound(target, node, d, e))
    ensures e == edge.handle.kind && edge.handle.direction == (if d.Out? then 0 else 1)
    ensures node == (if d.Out? then edge.src else edge.dst) && target == if d.Out? then edge.dst else edge.src
    ensures forall p: nat |
              HalfAt(s, g, node, d, e, p).Some? && HalfAt(s, g, node, d, e, p).value.neighbor == target ::
              p in At(claims, s.EdgeStorageSlot(node.kind, d, e), node.seqNo)
  {
    hide Shaped, Schema.EdgeStorageSlot;
    var here, there := s.EdgeStorageSlot(target.kind, d.Flip(), e), s.EdgeStorageSlot(node.kind, d, e);
    if here == there {
      SameSlot(s, target.kind, d.Flip(), e, node.kind, d, e);
    }
    assert At(Claim(claims, here, target.seqNo, edge.handle.seqNo), there, node.seqNo) == At(claims, there, node.seqNo);
  }

  /** A claimed half and, at the node it leads to, a claimed half that records the same edge. */
  ghost predicate Mirrored(s: Schema, g: Graph, claims: Claims, node: RawNodeId, d: Direction, e: nat, p: nat) {
    var half := HalfAt(s, g, node, d, e, p);
    && half.Some?
    && exists f: nat ::
         && f in At(claims, s.EdgeStorageSlot(half.value.neighbor.kind, d.Flip(), e), half.value.neighbor.seqNo)
         && HalfAt(s, g, half.value.neighbor, d.Flip(), e, f) == Some(Half(node, half.value.value))
  }

  lemma MirroredLater(s: Schema, g: Graph, claims: Claims, edge: RawEdgeId, node: RawNodeId, d: Direction, e: nat,
                      p: nat)
    requires Shaped(s, g) && ClaimEdge(s, g, claims, edge).Ok? && Mirrored(s, g, claims, node, d, e, p)
    ensures Mirrored(s, g, ClaimEdge(s, g, claims, edge).value, node, d, e, p)
  {
    hide ClaimEdge, Shaped, Schema.EdgeStorageSlot, At;
    ClaimsGrow(s, g, claims, edge);
  }

  lemma BothMirrored(s: Schema, g: Graph, claims: Claims, near: RawNodeId, d: Direction, e: nat, p: nat,
                     far: RawNodeId, f: nat, value: Option<PropertyValue>)
    requires HalfAt(s, g, near, d, e, p) == Some(Half(far, value))
    requires HalfAt(s, g, far, d.Flip(), e, f) == Some(Half(near, value))
    ensures var claimed := Claim(Claim(claims, s.EdgeStorageSlot(near.kind, d, e), near.seqNo, p),
                                 s.EdgeStorageSlot(far.kind, d.Flip(), e), far.seqNo, f);
            Mirrored(s, g, claimed, near, d, e, p) && Mirrored(s, g, claimed, far, d.Flip(), e, f)
  {
    hide HalfAt, Schema.EdgeStorageSlot;
    var one := Claim(claims, s.EdgeStorageSlot(near.kind, d, e), near.seqNo, p);
    assert p in At(one, s.EdgeStorageSlot(near.kind, d, e), near.seqNo);
    var both := Claim(one, s.EdgeStorageSlot(far.kind, d.Flip(), e), far.seqNo, f);
    assert p in At(both, s.EdgeStorageSlot(near.kind, d, e), near.seqNo);
    assert d.Flip().Flip() == d;
  }

  lemma ClaimMirrored(s: Schema, g: Graph, claims: Claims, edge: RawEdgeId, node: RawNodeId, d: Direction, e: nat,
                      p: nat)
    requires s.Valid() && Coherent(s, g) && Fresh(s, g, edge) && ClaimsSound(g, claims) && KeptPaired(s, g, claims)
    requires node.kind < s.nodeKinds && e < |s.edgeTypes| && ClaimEdge(s, g, claims, edge).Ok?
    requires var slot := s.EdgeStorageSlot(node.kind, d, e);
             && p in At(ClaimEdge(s, g, claims, edge).value, slot, node.seqNo) && p !in At(claims, slot, node.seqNo)
    ensures Mirrored(s, g, ClaimEdge(s, g, claims, edge).value, node, d, e, p)
  {
    hide Coherent, KeptPaired, ClaimsSound, ClaimEdge, Schema.EdgeStorageSlot, At, Claim, Mirrored;
    CoherentShape(s, g);
    ClaimKeepsPairing(s, g, claims, edge);
    var h, slot := edge.handle, s.EdgeStorageSlot(node.kind, d, e);
    var d0 := if h.direction == 0 then In else Out;
    var near, far := edge.Primary(d0), edge.Secondary(d0);
    var i, i' := s.EdgeStorageSlot(near.kind, d0, h.kind), s.EdgeStorageSlot(far.kind, d0.Flip(), h.kind);
    if h.seqNo !in At(claims, i, near.seqNo) {
      NeighborThere(s, g, i, near.seqNo, h.seqNo);
      var value := g.edges[i].runs[near.seqNo][h.seqNo].value;
      var f: nat :| f < |g.edges[i'].runs[far.seqNo]|
                    && g.edges[i'].runs[far.seqNo][f] == Half(near, value)
                    && ClaimEdge(s, g, claims, edge).value
                       == Claim(Claim(claims, i, near.seqNo, h.seqNo), i', far.seqNo, f);
      TwoClaims(claims, i, near.seqNo, h.seqNo, i', far.seqNo, f, slot, node.seqNo, p);
      BothMirrored(s, g, claims, near, d0, h.kind, h.seqNo, far, f, value);
      if (slot, node.seqNo as nat, p) == (i, near.seqNo as nat, h.seqNo as nat) {
        SameSlot(s, node.kind, d, e, near.kind, d0, h.kind);
      } else {
        SameSlot(s, node.kind, d, e, far.kind, d0.Flip(), h.kind);
      }
    }
  }

  /** With fresh handles every half that goes takes with it one that records the same edge at the other end. */
  lemma {:induction false} ClaimsMirrored(s: Schema, g: Graph, changes: seq<Change>, node: RawNodeId, d: Direction,
                                          e: nat, p: nat)
    requires s.Valid() && Coherent(s, g) && FreshHandles(s, g, changes)
    requires forall c <- changes :: c.UpdateNodeProperty? ==> c.prop < |s.propTypes|
    requires Classify(s, g, changes).Ok? && node.kind < s.nodeKinds && e < |s.edgeTypes|
    requires p in At(Classify(s, g, changes).value.claims, s.EdgeStorageSlot(node.kind, d, e), node.seqNo)
    ensures Mirrored(s, g, Classify(s, g, changes).value.claims, node, d, e, p)
  {
    hide Coherent, ClaimEdge, Fresh, KeptPaired, ClaimsSound, Mirrored, Schema.EdgeStorageSlot;
    CoherentShape(s, g);
    if changes != [] {
      var older, last := changes[..|changes| - 1], changes[|changes| - 1];
      LastOf(changes);
      var claims := Classify(s, g, older).value.claims;
      if p in At(claims, s.EdgeStorageSlot(node.kind, d, e), node.seqNo) {
        ClaimsMirrored(s, g, older, node, d, e, p);
        if last.RemoveEdge? {
          MirroredLater(s, g, claims, last.edge, node, d, e, p);
        }
      } else {
        ChangesKeepPairing(s, g, older);
        ClaimMirrored(s, g, claims, last.edge, node, d, e, p);
      }
    }
  }

  /** `part` is what stands in `run` at the ascending positions `at`. */
  ghost predicate PickedAt<T>(run: seq<T>, at: seq<nat>, part: seq<T>) {
    && |at| == |part| && Ascending(at)
    && forall j | 0 <= j < |at| :: at[j] < |run| && part[j] == run[at[j]]
  }

  lemma PicksOneMore<T>(run: seq<T>, x: T, at: seq<nat>, part: seq<T>)
    requires PickedAt(run, at, part)
    ensures PickedAt(run + [x], at, part) && PickedAt(run + [x], at + [|run|], part + [x])
  {
  }

  lemma PicksNothing<T>(run: seq<T>)
    ensures PickedAt(run, [], [])
  {
  }

  /** What is kept of a run is what stands at the positions not removed, in order. */
  lemma {:induction false} KeepPicks<T>(run: seq<T>, removed: seq<nat>) returns (at: seq<nat>)
    ensures PickedAt(run, at, Keep(run, removed))
    ensures forall p: nat :: p in at <==> p < |run| && p !in removed
  {
    hide PickedAt;
    if run == [] {
      at := [];
      PicksNothing(run);
    } else {
      var last := |run| - 1;
      at := KeepPicks(run[..last], removed);
      PicksOneMore(run[..last], run[last], at, Keep(run[..last], removed));
      assert run == run[..last] + [run[last]];
      if last in removed {
        assert Keep(run, removed) == Keep(run[..last], removed);
      } else {
        at := at + [last];
      }
    }
  }

  // ----- added halves

  /** The node a reference names: a new node under its id, any other as itself. */
  predicate RefersTo(s: Schema, ids: seq<NewNodeId>, r: NodeRef, n: RawNodeId) {
    if r.New? then r.id < |ids| && ids[r.id] == NewNodeId(n.kind, n.seqNo) else r.node == n && n.kind < s.nodeKinds
  }

  /**
   The node a reference names is there after the diff and not deleted: a new one, or one that was
   there, not deleted and not removed by a change.
   */
  ghost predicate EndStays(g: Graph, d: GraphDiff, r: NodeRef) {
    if r.New? then r.id < |d.newNodes|
    else
      var n := r.node;
      && n.kind < |g.nodes|
      && if n.seqNo < |g.nodes[n.kind]| then !g.nodes[n.kind][n.seqNo] && RemoveNode(n) !in d.changes
         else NewNodeId(n.kind, n.seqNo) in Remapped(g.nodes, d.newNodes)
  }

  /** A new edge puts a half into the node's list: it starts, or ends, there and both its ends stay. */
  ghost predicate Attaches(s: Schema, g: Graph, d: GraphDiff, x: NewEdge, node: RawNodeId, dir: Direction, e: nat) {
    && x.kind == e
    && RefersTo(s, Remapped(g.nodes, d.newNodes), if dir.Out? then x.src else x.dst, node)
    && EndStays(g, d, x.src) && EndStays(g, d, x.dst)
  }

  /** The half leads to the edge's other end and carries its value. */
  ghost predicate IsOther(s: Schema, g: Graph, d: GraphDiff, x: NewEdge, dir: Direction, half: Half<PropertyValue>) {
    && half.value == x.property
    && RefersTo(s, Remapped(g.nodes, d.newNodes), if dir.Out? then x.dst else x.src, half.neighbor)
  }

  lemma TombstoneIsRemoved(s: Schema, g: Graph, changes: seq<Change>, n: RawNodeId)
    requires Shaped(s, g) && forall c <- changes :: c.UpdateNodeProperty? ==> c.prop < |s.propTypes|
    requires Classify(s, g, changes).Ok? && n.kind < s.nodeKinds && n.seqNo < |g.nodes[n.kind]|
    ensures n in Classify(s, g, changes).value.tombstones <==> RemoveNode(n) in changes
  {
    hide Classify, Shaped;
    StruckIsRemoved(s, g, changes, n.kind, n.seqNo);
  }

  /** A reference resolves, and to a node that stays, exactly when its end stays. */
  lemma EndDecided(s: Schema, g: Graph, d: GraphDiff, r: NodeRef)
    requires Shaped(s, g) && WellKinded(s, d) && Classify(s, g, d.changes).Ok?
    requires EndFits(Remapped(g.nodes, d.newNodes), r)
    ensures var ids, tombstones := Remapped(g.nodes, d.newNodes), Classify(s, g, d.changes).value.tombstones;
            var end := Endpoint(s, ids, r);
            && (end.Some? && Stays(g.nodes, tombstones, d.newNodes, end.value) <==> EndStays(g, d, r))
            && forall n: RawNodeId :: end == Some(n) <==> RefersTo(s, ids, r, n)
  {
    hide Classify, OfKind, Remapped;
    WellKindedReads(s, d);
    var ids := Remapped(g.nodes, d.newNodes);
    if r.New? {
      if r.id < |ids| {
        assert d.newNodes[r.id] in d.newNodes;
        RemappedAt(g.nodes, d.newNodes, r.id);
        PlaceOfKind(d.newNodes, r.id);
      }
    } else if r.node.kind < s.nodeKinds {
      var n := r.node;
      if n.seqNo < |g.nodes[n.kind]| {
        TombstoneIsRemoved(s, g, d.changes, n);
      } else {
        NewPlaceIsId(s, g, d, n);
      }
    }
  }

  lemma NewPlaceIsId(s: Schema, g: Graph, d: GraphDiff, n: RawNodeId)
    requires Shaped(s, g) && WellKinded(s, d) && n.kind < s.nodeKinds && n.seqNo >= |g.nodes[n.kind]|
    ensures n.seqNo < |g.nodes[n.kind]| + |OfKind(d.newNodes, n.kind)|
       <==> NewNodeId(n.kind, n.seqNo) in Remapped(g.nodes, d.newNodes)
  {
    hide OfKind, Remapped;
    var ids := Remapped(g.nodes, d.newNodes);
    if n.seqNo < |g.nodes[n.kind]| + |OfKind(d.newNodes, n.kind)| {
      var j := NewIdsCover(g.nodes, d.newNodes, n.kind, n.seqNo);
      assert ids[j] in ids;
    }
    if j :| 0 <= j < |ids| && ids[j] == NewNodeId(n.kind, n.seqNo) {
      assert d.newNodes[j] in d.newNodes;
      RemappedAt(g.nodes, d.newNodes, j);
      PlaceOfKind(d.newNodes, j);
    }
  }

  /** In the slot of `(k, d, e)` a live edge of kind `e` leaves one half if its end on that side is of kind `k`. */
  lemma HalvesOfSlot(s: Schema, x: LiveEdge, k: nat, d: Direction, e: nat)
    requires k < s.nodeKinds && e < |s.edgeTypes|
    requires x.src.kind < s.nodeKinds && x.dst.kind < s.nodeKinds && x.kind < |s.edgeTypes|
    ensures var near, far := if d.Out? then x.src else x.dst, if d.Out? then x.dst else x.src;
            HalvesOf(s, x, s.EdgeStorageSlot(k, d, e))
            == if x.kind == e && near.kind == k then [NewHalf(near.seqNo as nat, Half(far, x.value))] else []
  {
    hide Schema.EdgeStorageSlot;
    var slot := s.EdgeStorageSlot(k, d, e);
    if s.EdgeStorageSlot(x.src.kind, Out, x.kind) == slot {
      SameSlot(s, x.src.kind, Out, x.kind, k, d, e);
    }
    if s.EdgeStorageSlot(x.dst.kind, In, x.kind) == slot {
      SameSlot(s, x.dst.kind, In, x.kind, k, d, e);
    }
  }

  /** The halves the node gains from the first `m` new edges. */
  ghost function Gained(s: Schema, g: Graph, d: GraphDiff, node: RawNodeId, dir: Direction, e: nat, m: nat)
    : seq<Half<PropertyValue>>
    requires Shaped(s, g) && WellKinded(s, d) && Classify(s, g, d.changes).Ok? && m <= |d.newEdges|
  {
    OwnedBy(SlotHalves(s, LiveEdges(s, g.nodes, Classify(s, g, d.changes).value.tombstones, d.newNodes,
                                    d.newEdges[..m]),
                       s.EdgeStorageSlot(node.kind, dir, e)),
            node.seqNo)
  }

  /** A new edge is live exactly when both its ends stay, and then joins the nodes they name. */
  lemma EdgeDecided(s: Schema, g: Graph, d: GraphDiff, x: NewEdge)
    requires Shaped(s, g) && WellKinded(s, d) && Classify(s, g, d.changes).Ok?
    requires EndsFit(s, Remapped(g.nodes, d.newNodes), d.newEdges) && x in d.newEdges
    ensures var ids := Remapped(g.nodes, d.newNodes);
            var live := LiveEdgeOf(s, g.nodes, Classify(s, g, d.changes).value.tombstones, d.newNodes, x);
            && (live.Some? <==> EndStays(g, d, x.src) && EndStays(g, d, x.dst))
            && (live.Some? ==>
                  && live.value.kind == x.kind && live.value.value == x.property
                  && (forall n: RawNodeId :: live.value.src == n <==> RefersTo(s, ids, x.src, n))
                  && (forall n: RawNodeId :: live.value.dst == n <==> RefersTo(s, ids, x.dst, n)))
  {
    hide Classify, OfKind, Remapped, Stays, RefersTo, EndFits, WellKinded;
    var ids := Remapped(g.nodes, d.newNodes);
    if Endpoint(s, ids, x.src).Some? && Endpoint(s, ids, x.dst).Some? {
      EndDecided(s, g, d, x.src);
      EndDecided(s, g, d, x.dst);
    }
  }

  /** One more new edge adds its half to the list of the node it attaches to. */
  lemma GainedNext(s: Schema, g: Graph, d: GraphDiff, node: RawNodeId, dir: Direction, e: nat, m: nat)
    requires s.Valid() && Shaped(s, g) && WellKinded(s, d) && Classify(s, g, d.changes).Ok?
    requires EndsFit(s, Remapped(g.nodes, d.newNodes), d.newEdges)
    requires node.kind < s.nodeKinds && e < |s.edgeTypes| && m < |d.newEdges|
    ensures var x := d.newEdges[m];
            var before, after := Gained(s, g, d, node, dir, e, m), Gained(s, g, d, node, dir, e, m + 1);
            if Attaches(s, g, d, x, node, dir, e)
            then after != [] && after[..|after| - 1] == before && IsOther(s, g, d, x, dir, after[|after| - 1])
            else after == before
  {
    hide Classify, Remapped, LiveEdges, LiveEdgeOf, EndsFit, EndStays, RefersTo, HalvesOf, OwnedBy,
         Schema.EdgeStorageSlot;
    WellKindedReads(s, d);
    var tombstones, x := Classify(s, g, d.changes).value.tombstones, d.newEdges[m];
    LiveEdgesNext(s, g.nodes, tombstones, d.newNodes, d.newEdges, m);
    EdgeDecided(s, g, d, x);
    var live := LiveEdgeOf(s, g.nodes, tombstones, d.newNodes, x);
    if live.Some? {
      var slot := s.EdgeStorageSlot(node.kind, dir, e);
      var older := LiveEdges(s, g.nodes, tombstones, d.newNodes, d.newEdges[..m]);
      EndKinds(s, g, d, x);
      HalvesOfSlot(s, live.value, node.kind, dir, e);
      assert (older + [live.value])[..|older|] == older;
      OwnedByNext(SlotHalves(s, older, slot), HalvesOf(s, live.value, slot), node.seqNo);
    }
  }

  lemma EndKinds(s: Schema, g: Graph, d: GraphDiff, x: NewEdge)
    requires s.Valid() && Shaped(s, g) && WellKinded(s, d) && Classify(s, g, d.changes).Ok?
    ensures var live := LiveEdgeOf(s, g.nodes, Classify(s, g, d.changes).value.tombstones, d.newNodes, x);
            live.Some? ==> live.value.src.kind < s.nodeKinds && live.value.dst.kind < s.nodeKinds
  {
    hide Classify, Remapped, Endpoint, Stays, WellKinded;
    WellKindedReads(s, d);
    EndpointKind(s, g.nodes, d.newNodes, x.src);
    EndpointKind(s, g.nodes, d.newNodes, x.dst);
  }

  lemma OwnedByNext<V>(halves: seq<NewHalf<V>>, more: seq<NewHalf<V>>, v: nat)
    requires |more| <= 1
    ensures OwnedBy(halves + more, v)
         == if |more| == 1 && more[0].owner == v then OwnedBy(halves, v) + [more[0].half] else OwnedBy(halves, v)
  {
    if |more| == 1 {
      assert (halves + more)[..|halves|] == halves;
    } else {
      assert halves + more == halves;
    }
  }

  /** The halves a node gains come from the new edges that attach to it, in the order those were added. */
  lemma {:induction false} GainedFrom(s: Schema, g: Graph, d: GraphDiff, node: RawNodeId, dir: Direction, e: nat,
                                      m: nat)
    returns (from: seq<nat>)
    requires s.Valid() && Shaped(s, g) && WellKinded(s, d) && Classify(s, g, d.changes).Ok?
    requires EndsFit(s, Remapped(g.nodes, d.newNodes), d.newEdges)
    requires node.kind < s.nodeKinds && e < |s.edgeTypes| && m <= |d.newEdges|
    ensures |from| == |Gained(s, g, d, node, dir, e, m)| && Ascending(from)
    ensures forall j | 0 <= j < |from| ::
              from[j] < m && IsOther(s, g, d, d.newEdges[from[j]], dir, Gained(s, g, d, node, dir, e, m)[j])
    ensures forall i: nat :: i in from <==> i < m && Attaches(s, g, d, d.newEdges[i], node, dir, e)
  {
    hide Gained, Attaches, IsOther, WellKinded, Shaped, EndsFit, Classify;
    if m == 0 {
      from := [];
      NothingGained(s, g, d, node, dir, e);
    } else {
      var older := GainedFrom(s, g, d, node, dir, e, m - 1);
      GainedNext(s, g, d, node, dir, e, m - 1);
      var before, after := Gained(s, g, d, node, dir, e, m - 1), Gained(s, g, d, node, dir, e, m);
      if Attaches(s, g, d, d.newEdges[m - 1], node, dir, e) {
        from := older + [m - 1];
        forall j | 0 <= j < |from|
          ensures from[j] < m && IsOther(s, g, d, d.newEdges[from[j]], dir, after[j])
        {
          if j < |older| {
            assert after[j] == before[j];
          }
        }
      } else {
        from := older;
      }
    }
  }

  lemma NothingGained(s: Schema, g: Graph, d: GraphDiff, node: RawNodeId, dir: Direction, e: nat)
    requires Shaped(s, g) && WellKinded(s, d) && Classify(s, g, d.changes).Ok?
    ensures Gained(s, g, d, node, dir, e, 0) == []
  {
    hide Classify, WellKinded, Shaped;
    assert d.newEdges[..0] == [];
  }

  /** A node's list in a graph; empty where the graph has no such node. */
  function ListAt(s: Schema, g: Graph, node: RawNodeId, d: Direction, e: nat): seq<Half<PropertyValue>> {
    var slot := s.EdgeStorageSlot(node.kind, d, e);
    if slot < |g.edges| && node.seqNo < |g.edges[slot].runs| then g.edges[slot].runs[node.seqNo] else []
  }

  /** The positions of a node's list that the diff drops. */
  ghost function Dropped(s: Schema, g: Graph, d: GraphDiff, node: RawNodeId, dir: Direction, e: nat): seq<nat>
    requires Shaped(s, g) && WellKinded(s, d) && Classify(s, g, d.changes).Ok?
  {
    At(Classify(s, g, d.changes).value.claims, s.EdgeStorageSlot(node.kind, dir, e), node.seqNo)
  }

  lemma ListAfter(s: Schema, g: Graph, d: GraphDiff, node: RawNodeId, dir: Direction, e: nat)
    requires Shaped(s, g) && WellKinded(s, d) && Accepts(s, g, d) && Classify(s, g, d.changes).Ok?
    requires node.kind < |ApplyDiff(s, g, d).nodes| && node.seqNo < |ApplyDiff(s, g, d).nodes[node.kind]|
    requires e < |s.edgeTypes|
    ensures node.kind < s.nodeKinds
    ensures ListAt(s, ApplyDiff(s, g, d), node, dir, e)
         == Keep(ListAt(s, g, node, dir, e), Dropped(s, g, d, node, dir, e))
            + Gained(s, g, d, node, dir, e, |d.newEdges|)
  {
    hide Accepts, Classify, PropsAfter, OfKind, LiveEdges, Schema.EdgeStorageSlot, At, SlotHalves, OwnedBy;
    s.EdgeSlotOf(node.kind, dir, e);
    assert d.newEdges[..|d.newEdges|] == d.newEdges;
    assert Keep<Half<PropertyValue>>([], At(Classify(s, g, d.changes).value.claims,
                                            s.EdgeStorageSlot(node.kind, dir, e), node.seqNo)) == [];
  }

  /**
   A position goes that a removal names; with fresh handles no other goes but those recording, at
   the far end, the same edge as one a removal names; and every half that goes has a mirror image
   that goes at the node it leads to.
   */
  lemma DroppedExactly(s: Schema, g: Graph, d: GraphDiff, node: RawNodeId, dir: Direction, e: nat, p: nat)
    requires s.Valid() && Coherent(s, g) && WellKinded(s, d) && FreshHandles(s, g, d.changes)
    requires Classify(s, g, d.changes).Ok? && node.kind < s.nodeKinds && e < |s.edgeTypes|
    ensures (exists c <- d.changes :: c.RemoveEdge? && Names(c.edge, node, dir, e, p)) ==>
              p in Dropped(s, g, d, node, dir, e)
    ensures p in Dropped(s, g, d, node, dir, e) ==>
              && Removes(s, g, d.changes, node, dir, e, p)
              && var half := HalfAt(s, g, node, dir, e, p);
                 && half.Some? && half.value.neighbor.kind < s.nodeKinds
                 && exists f: nat ::
                      && f in Dropped(s, g, d, half.value.neighbor, dir.Flip(), e)
                      && HalfAt(s, g, half.value.neighbor, dir.Flip(), e, f) == Some(Half(node, half.value.value))
  {
    hide Coherent, Classify, Fresh, Names, NamesOther, HalfAt, Schema.EdgeStorageSlot, FreshHandles;
    CoherentShape(s, g);
    WellKindedReads(s, d);
    if c :| c in d.changes && c.RemoveEdge? && Names(c.edge, node, dir, e, p) {
      NamedIsClaimed(s, g, d.changes, c.edge, node, dir, e, p);
    }
    if p in Dropped(s, g, d, node, dir, e) {
      ClaimedIsNamed(s, g, d.changes, node, dir, e, p);
      ClaimsMirrored(s, g, d.changes, node, dir, e, p);
      NeighborKnown(s, g, node, dir, e, p);
    }
  }

  lemma NeighborKnown(s: Schema, g: Graph, node: RawNodeId, d: Direction, e: nat, p: nat)
    requires s.Valid() && Coherent(s, g) && HalfAt(s, g, node, d, e, p).Some?
    ensures HalfAt(s, g, node, d, e, p).value.neighbor.kind < s.nodeKinds
  {
    hide Coherent, Schema.EdgeStorageSlot;
    NeighborThere(s, g, s.EdgeStorageSlot(node.kind, d, e), node.seqNo, p);
  }

  /**
   A node's adjacency list after an accepted diff, entry by entry: first what stood, in order, at
   the positions that are not dropped; then one half for each new edge that attaches to the node
   and whose ends both stay, in the order the edges were added, leading to the edge's other end
   and carrying its value.
   */
  lemma EdgesOfNode(s: Schema, g: Graph, d: GraphDiff, node: RawNodeId, dir: Direction, e: nat)
    returns (at: seq<nat>, from: seq<nat>)
    requires s.Valid() && Shaped(s, g) && WellKinded(s, d) && Accepts(s, g, d)
    requires EndsFit(s, Remapped(g.nodes, d.newNodes), d.newEdges)
    requires node.kind < |ApplyDiff(s, g, d).nodes| && node.seqNo < |ApplyDiff(s, g, d).nodes[node.kind]|
    requires e < |s.edgeTypes|
    ensures Classify(s, g, d.changes).Ok?
    ensures var was, run := ListAt(s, g, node, dir, e), ListAt(s, ApplyDiff(s, g, d), node, dir, e);
            && |run| == |at| + |from| && Ascending(at) && Ascending(from)
            && (forall j | 0 <= j < |at| :: at[j] < |was| && run[j] == was[at[j]])
            && (forall p: nat :: p in at <==> p < |was| && p !in Dropped(s, g, d, node, dir, e))
            && (forall j | 0 <= j < |from| ::
                  from[j] < |d.newEdges| && IsOther(s, g, d, d.newEdges[from[j]], dir, run[|at| + j]))
            && forall i: nat :: i in from <==> i < |d.newEdges| && Attaches(s, g, d, d.newEdges[i], node, dir, e)
  {
    hide *;
    AcceptsClassifies(s, g, d);
    WellKindedReads(s, d);
    ListAfter(s, g, d, node, dir, e);
    var was, removed := ListAt(s, g, node, dir, e), Dropped(s, g, d, node, dir, e);
    at := KeepPicks(was, removed);
    PickedReads(was, at, Keep(was, removed));
    from := GainedFrom(s, g, d, node, dir, e, |d.newEdges|);
  }

  lemma PickedReads<T>(run: seq<T>, at: seq<nat>, part: seq<T>)
    requires PickedAt(run, at, part)
    ensures |at| == |part| && Ascending(at) && forall j | 0 <= j < |at| :: at[j] < |run| && part[j] == run[at[j]]
  {
  }

  /** The node a staying end names is there after the diff, and not deleted. */
  lemma StayingEndIsLive(s: Schema, g: Graph, d: GraphDiff, r: NodeRef, n: RawNodeId)
    requires Shaped(s, g) && WellKinded(s, d) && Accepts(s, g, d)
    requires RefersTo(s, Remapped(g.nodes, d.newNodes), r, n) && EndStays(g, d, r)
    ensures var after := ApplyDiff(s, g, d).nodes;
            n.kind < s.nodeKinds && n.kind < |after| && n.seqNo < |after[n.kind]| && !after[n.kind][n.seqNo]
  {
    hide Accepts, ApplyDiff, OfKind, Remapped;
    if r.New? {
      NewNodesAreThere(s, g, d, r.id);
    } else if n.seqNo < |g.nodes[n.kind]| {
      RemovedNodesAreDeleted(s, g, d, n.kind, n.seqNo);
      assert forall c | c in d.changes && c.RemoveNode? && c.node.kind == n.kind && c.node.seqNo == n.seqNo ::
          c == RemoveNode(n);
    } else {
      var ids := Remapped(g.nodes, d.newNodes);
      var j :| 0 <= j < |ids| && ids[j] == NewNodeId(n.kind, n.seqNo);
      NewNodesAreThere(s, g, d, j);
    }
  }

  lemma NewEdgeAtOneEnd(s: Schema, g: Graph, d: GraphDiff, i: nat, near: RawNodeId, far: RawNodeId, dir: Direction)
    requires s.Valid() && Shaped(s, g) && WellKinded(s, d) && Accepts(s, g, d)
    requires EndsFit(s, Remapped(g.nodes, d.newNodes), d.newEdges) && i < |d.newEdges|
    requires EndStays(g, d, d.newEdges[i].src) && EndStays(g, d, d.newEdges[i].dst)
    requires RefersTo(s, Remapped(g.nodes, d.newNodes), if dir.Out? then d.newEdges[i].src else d.newEdges[i].dst, near)
    requires RefersTo(s, Remapped(g.nodes, d.newNodes), if dir.Out? then d.newEdges[i].dst else d.newEdges[i].src, far)
    ensures Half(far, d.newEdges[i].property) in ListAt(s, ApplyDiff(s, g, d), near, dir, d.newEdges[i].kind)
  {
    hide Shaped, Accepts, ApplyDiff, Remapped, EndStays, EndsFit, ListAt;
    WellKindedReads(s, d);
    var x := d.newEdges[i];
    assert x in d.newEdges;
    StayingEndIsLive(s, g, d, if dir.Out? then x.src else x.dst, near);
    var at, from := EdgesOfNode(s, g, d, near, dir, x.kind);
    assert i in from;
    var j :| 0 <= j < |from| && from[j] == i;
    var half := ListAt(s, ApplyDiff(s, g, d), near, dir, x.kind)[|at| + j];
    assert IsOther(s, g, d, d.newEdges[from[j]], dir, half);
    assert half == Half(far, x.property);
  }

  /** A new edge whose ends stay is found at both: in its source's Out list and in its target's In list. */
  lemma NewEdgeAtBothEnds(s: Schema, g: Graph, d: GraphDiff, i: nat, a: RawNodeId, b: RawNodeId)
    requires s.Valid() && Shaped(s, g) && WellKinded(s, d) && Accepts(s, g, d)
    requires EndsFit(s, Remapped(g.nodes, d.newNodes), d.newEdges) && i < |d.newEdges|
    requires RefersTo(s, Remapped(g.nodes, d.newNodes), d.newEdges[i].src, a) && EndStays(g, d, d.newEdges[i].src)
    requires RefersTo(s, Remapped(g.nodes, d.newNodes), d.newEdges[i].dst, b) && EndStays(g, d, d.newEdges[i].dst)
    ensures var x, after := d.newEdges[i], ApplyDiff(s, g, d);
            && Half(b, x.property) in ListAt(s, after, a, Out, x.kind)
            && Half(a, x.property) in ListAt(s, after, b, In, x.kind)
  {
    hide *;
    NewEdgeAtOneEnd(s, g, d, i, a, b, Out);
    NewEdgeAtOneEnd(s, g, d, i, b, a, In);
  }

  lemma {:induction false} LiveEdgesFrom(s: Schema, nodes: seq<seq<bool>>, tombstones: seq<RawNodeId>,
                                         newNodes: seq<NewNode>, newEdges: seq<NewEdge>)
    ensures forall y <- LiveEdges(s, nodes, tombstones, newNodes, newEdges) ::
              exists x <- newEdges :: LiveEdgeOf(s, nodes, tombstones, newNodes, x) == Some(y)
    ensures forall x <- newEdges :: LiveEdgeOf(s, nodes, tombstones, newNodes, x).Some? ==>
              LiveEdgeOf(s, nodes, tombstones, newNodes, x).value
              in LiveEdges(s, nodes, tombstones, newNodes, newEdges)
  {
    hide Remapped, Endpoint, Stays, LiveEdgeOf;
    if newEdges != [] {
      var last := |newEdges| - 1;
      LiveEdgesFrom(s, nodes, tombstones, newNodes, newEdges[..last]);
      LastOf(newEdges);
      LiveEdgesNext(s, nodes, tombstones, newNodes, newEdges, last);
      assert newEdges[..last + 1] == newEdges;
    }
  }

  lemma {:induction false} SlotGains(s: Schema, live: seq<LiveEdge>, k: nat, d: Direction, e: nat)
    requires k < s.nodeKinds && e < |s.edgeTypes| && LiveKnown(s, live)
    ensures SlotHalves(s, live, s.EdgeStorageSlot(k, d, e)) != []
       <==> exists y <- live :: y.kind == e && (if d.Out? then y.src else y.dst).kind == k
  {
    hide HalvesOf, Schema.EdgeStorageSlot;
    if live != [] {
      var last := |live| - 1;
      LastOf(live);
      SlotGains(s, live[..last], k, d, e);
      HalvesOfSlot(s, live[last], k, d, e);
    }
  }

  /** An edge slot is in use afterwards if it was or some new edge attaches to a node of its kind. */
  lemma EdgeSlotUsedAfter(s: Schema, g: Graph, d: GraphDiff, k: nat, dir: Direction, e: nat)
    requires s.Valid() && Shaped(s, g) && WellKinded(s, d) && Accepts(s, g, d)
    requires EndsFit(s, Remapped(g.nodes, d.newNodes), d.newEdges) && k < s.nodeKinds && e < |s.edgeTypes|
    ensures var slot := s.EdgeStorageSlot(k, dir, e);
            && slot < |g.edges| == |ApplyDiff(s, g, d).edges|
            && (ApplyDiff(s, g, d).edges[slot].used
                <==> || g.edges[slot].used
                     || exists x, node: RawNodeId ::
                          x in d.newEdges && node.kind == k && Attaches(s, g, d, x, node, dir, e))
  {
    hide Accepts, Classify, Remapped, LiveEdges, LiveEdgeOf, EndsFit, EndStays, RefersTo, SlotHalves, Shaped,
         Schema.EdgeStorageSlot, PropsAfter, NodesAfter, OfKind, WellKinded, Kept, LiveKnown;
    AcceptsClassifies(s, g, d);
    WellKindedReads(s, d);
    ShapedEdges(s, g);
    s.EdgeSlotOf(k, dir, e);
    var tombstones := Classify(s, g, d.changes).value.tombstones;
    var live := LiveEdges(s, g.nodes, tombstones, d.newNodes, d.newEdges);
    LiveEdgesFrom(s, g.nodes, tombstones, d.newNodes, d.newEdges);
    AllLiveKnown(s, g, d);
    SlotGains(s, live, k, dir, e);
    forall x | x in d.newEdges
      ensures var y := LiveEdgeOf(s, g.nodes, tombstones, d.newNodes, x);
              y.Some? ==> Attaches(s, g, d, x, if dir.Out? then y.value.src else y.value.dst, dir, y.value.kind)
      ensures forall node: RawNodeId | Attaches(s, g, d, x, node, dir, e) ::
                var y := LiveEdgeOf(s, g.nodes, tombstones, d.newNodes, x);
                y.Some? && y.value.kind == e && node == if dir.Out? then y.value.src else y.value.dst
    {
      EdgeDecided(s, g, d, x);
    }
  }

  lemma AllLiveKnown(s: Schema, g: Graph, d: GraphDiff)
    requires s.Valid() && Shaped(s, g) && WellKinded(s, d) && Classify(s, g, d.changes).Ok?
    ensures LiveKnown(s, LiveEdges(s, g.nodes, Classify(s, g, d.changes).value.tombstones, d.newNodes, d.newEdges))
  {
    hide Classify, OfKind, LiveEdges;
    WellKindedReads(s, d);
    LiveEdgesInRange(s, g.nodes, Classify(s, g, d.changes).value.tombstones, d.newNodes, d.newEdges);
  }
}
