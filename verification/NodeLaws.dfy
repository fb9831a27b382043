/** What an accepted diff does to nodes and their properties, read off the diff's own entries. */
module NodeLaws {
  import opened Storage
  import opened Schemas
  import opened Graphs
  import opened Diffs
  import opened NewNodes
  import opened Accepting
  import opened Preserving

  lemma LastOf<T>(xs: seq<T>)
    requires xs != []
    ensures forall x :: x in xs <==> x in xs[..|xs| - 1] || x == xs[|xs| - 1]
  {
    assert xs == xs[..|xs| - 1] + [xs[|xs| - 1]];
  }

  // ----- removing nodes

  /** Some change removes this node. */
  predicate Removed(changes: seq<Change>, k: nat, v: nat) {
    exists c <- changes :: c.RemoveNode? && c.node.kind == k && c.node.seqNo == v
  }

  lemma {:induction false} StruckIsRemoved(s: Schema, g: Graph, changes: seq<Change>, k: nat, v: nat)
    requires Shaped(s, g) && forall c <- changes :: c.UpdateNodeProperty? ==> c.prop < |s.propTypes|
    requires Classify(s, g, changes).Ok? && k < s.nodeKinds && v < |g.nodes[k]|
    ensures Struck(Classify(s, g, changes).value.tombstones, k, v) <==> Removed(changes, k, v)
  {
    hide ClaimEdge;
    if changes != [] {
      var older, last := changes[..|changes| - 1], changes[|changes| - 1];
      LastOf(changes);
      StruckIsRemoved(s, g, older, k, v);
      var before, after := Classify(s, g, older).value, Classify(s, g, changes).value;
      if last.RemoveNode? && after.tombstones != before.tombstones {
        LastOf(after.tombstones);
        assert after.tombstones[..|after.tombstones| - 1] == before.tombstones;
      }
    }
  }

  /** Afterwards exactly the nodes deleted before and those some change removes are deleted. */
  lemma RemovedNodesAreDeleted(s: Schema, g: Graph, d: GraphDiff, k: nat, v: nat)
    requires Shaped(s, g) && WellKinded(s, d) && Accepts(s, g, d) && k < s.nodeKinds && v < |g.nodes[k]|
    ensures var after := ApplyDiff(s, g, d).nodes;
            && |after| == |g.nodes| && v < |after[k]|
            && (after[k][v]
                <==> || g.nodes[k][v]
                     || exists c <- d.changes :: c.RemoveNode? && c.node.kind == k && c.node.seqNo == v)
  {
    hide Accepts, Classify, EdgesAfter, PropsAfter;
    AcceptsClassifies(s, g, d);
    WellKindedReads(s, d);
    StruckIsRemoved(s, g, d.changes, k, v);
  }

  // ----- updating properties

  /** The change updates this property of this node. */
  predicate Sets(c: Change, n: RawNodeId, p: nat) {
    c.UpdateNodeProperty? && c.owner == n && c.prop == p
  }

  /** The value is one of those the change writes. */
  predicate Writes(c: Change, v: PropertyValue) {
    && c.UpdateNodeProperty?
    && if c.values.One? then v == c.values.single else v in c.values.many
  }

  /** Change `i` updates a property of a node, and no later change updates that property again. */
  ghost predicate IsLastUpdate(changes: seq<Change>, i: nat) {
    && i < |changes| && changes[i].UpdateNodeProperty?
    && forall j | i < j < |changes| :: !Sets(changes[j], changes[i].owner, changes[i].prop)
  }

  lemma SameProperty(s: Schema, n: RawNodeId, p: nat, n': RawNodeId, p': nat)
    requires n.kind < s.nodeKinds && n'.kind < s.nodeKinds && p < |s.propTypes| && p' < |s.propTypes|
    requires s.PropertyStorageSlot(n.kind, p) == s.PropertyStorageSlot(n'.kind, p') && n.seqNo == n'.seqNo
    ensures n == n' && p == p'
  {
    s.PropertySlotOf(n.kind, p);
    s.PropertySlotOf(n'.kind, p');
  }

  lemma {:induction false} LastUpdateKept(s: Schema, g: Graph, changes: seq<Change>, i: nat)
    requires Shaped(s, g) && forall c <- changes :: c.UpdateNodeProperty? ==> c.prop < |s.propTypes|
    requires Classify(s, g, changes).Ok? && IsLastUpdate(changes, i)
    ensures changes[i].UpdateNodeProperty?
    ensures var n, p, q := changes[i].owner, changes[i].prop, changes[i].values;
            var key := (s.PropertyStorageSlot(n.kind, p), n.seqNo as nat);
            var updates := Classify(s, g, changes).value.updates;
            && n.kind < s.nodeKinds && n.seqNo < |g.nodes[n.kind]|
            && key in updates && updates[key] == if q.One? then [q.single] else q.many
  {
    hide ClaimEdge, Schema.PropertyStorageSlot;
    var older, last := changes[..|changes| - 1], changes[|changes| - 1];
    LastOf(changes);
    assert changes[i] in changes;
    if i < |changes| - 1 {
      LastUpdateKept(s, g, older, i);
      assert !Sets(last, changes[i].owner, changes[i].prop);
      if last.UpdateNodeProperty?
         && s.PropertyStorageSlot(last.owner.kind, last.prop)
            == s.PropertyStorageSlot(changes[i].owner.kind, changes[i].prop)
         && last.owner.seqNo == changes[i].owner.seqNo {
        SameProperty(s, last.owner, last.prop, changes[i].owner, changes[i].prop);
      }
    }
  }

  lemma {:induction false} NoUpdateKept(s: Schema, g: Graph, changes: seq<Change>, n: RawNodeId, p: nat)
    requires Shaped(s, g) && forall c <- changes :: c.UpdateNodeProperty? ==> c.prop < |s.propTypes|
    requires Classify(s, g, changes).Ok? && n.kind < s.nodeKinds && p < |s.propTypes|
    requires forall c <- changes :: !Sets(c, n, p)
    ensures (s.PropertyStorageSlot(n.kind, p), n.seqNo as nat) !in Classify(s, g, changes).value.updates
  {
    hide ClaimEdge, Schema.PropertyStorageSlot;
    if changes != [] {
      var older, last := changes[..|changes| - 1], changes[|changes| - 1];
      LastOf(changes);
      NoUpdateKept(s, g, older, n, p);
      assert !Sets(last, n, p);
      if last.UpdateNodeProperty?
         && s.PropertyStorageSlot(last.owner.kind, last.prop) == s.PropertyStorageSlot(n.kind, p)
         && last.owner.seqNo == n.seqNo {
        SameProperty(s, last.owner, last.prop, n, p);
      }
    }
  }

  /** An old node's run after the diff is the recorded update, or the old run if there is none. */
  lemma OldRunAfter(s: Schema, g: Graph, d: GraphDiff, n: RawNodeId, p: nat)
    requires Shaped(s, g) && WellKinded(s, d) && Accepts(s, g, d)
    requires n.kind < s.nodeKinds && n.seqNo < |g.nodes[n.kind]| && p < |s.propTypes|
    ensures Classify(s, g, d.changes).Ok?
    ensures var slot, after := s.PropertyStorageSlot(n.kind, p), ApplyDiff(s, g, d).props;
            var updates := Classify(s, g, d.changes).value.updates;
            && slot < |g.props| == |after| && |g.props[slot].runs| == |g.nodes[n.kind]| <= |after[slot].runs|
            && after[slot].runs[n.seqNo]
               == (if (slot, n.seqNo as nat) in updates then updates[(slot, n.seqNo as nat)]
                   else g.props[slot].runs[n.seqNo])
            && ((slot, n.seqNo as nat) in updates ==>
                  g.props[slot].used && AllTyped(updates[(slot, n.seqNo as nat)], s.propTypes[p]))
  {
    hide Classify, EdgesAfter, NodesAfter, Schema.PropertyStorageSlot, OfKind, LiveEdges;
    s.PropertySlotOf(n.kind, p);
  }

  /** The last update of a node's property is what the node then has, in full. */
  lemma LastUpdateWins(s: Schema, g: Graph, d: GraphDiff, i: nat)
    requires Shaped(s, g) && WellKinded(s, d) && Accepts(s, g, d)
    requires IsLastUpdate(d.changes, i)
    ensures var n, p, q := d.changes[i].owner, d.changes[i].prop, d.changes[i].values;
            var slot, after := s.PropertyStorageSlot(n.kind, p), ApplyDiff(s, g, d).props;
            && n.kind < s.nodeKinds && n.seqNo < |g.nodes[n.kind]|
            && slot < |after| && n.seqNo < |after[slot].runs|
            && (q.One? ==> after[slot].runs[n.seqNo] == [q.single])
            && (q.Multi? ==> after[slot].runs[n.seqNo] == q.many)
  {
    hide Accepts, Classify, ApplyDiff, Schema.PropertyStorageSlot;
    AcceptsClassifies(s, g, d);
    WellKindedReads(s, d);
    assert d.changes[i] in d.changes;
    LastUpdateKept(s, g, d.changes, i);
    OldRunAfter(s, g, d, d.changes[i].owner, d.changes[i].prop);
  }

  /** What is updated was written before, and still is. */
  lemma UpdatedSlotUsed(s: Schema, g: Graph, d: GraphDiff, i: nat)
    requires Shaped(s, g) && WellKinded(s, d) && Accepts(s, g, d)
    requires IsLastUpdate(d.changes, i)
    ensures var slot := s.PropertyStorageSlot(d.changes[i].owner.kind, d.changes[i].prop);
            && slot < |g.props| == |ApplyDiff(s, g, d).props|
            && g.props[slot].used && ApplyDiff(s, g, d).props[slot].used
  {
    hide Accepts, Classify, ApplyDiff, Schema.PropertyStorageSlot;
    AcceptsClassifies(s, g, d);
    WellKindedReads(s, d);
    assert d.changes[i] in d.changes;
    LastUpdateKept(s, g, d.changes, i);
    var n, p := d.changes[i].owner, d.changes[i].prop;
    OldRunAfter(s, g, d, n, p);
    s.PropertySlotOf(n.kind, p);
    SlotUsedAfter(s, g, d, n.kind, p);
  }

  /** A slot is in use afterwards if it was or some new node of its kind has the property. */
  lemma SlotUsedAfter(s: Schema, g: Graph, d: GraphDiff, k: nat, p: nat)
    requires Shaped(s, g) && WellKinded(s, d) && Accepts(s, g, d) && k < s.nodeKinds && p < |s.propTypes|
    ensures var slot := s.PropertyStorageSlot(k, p);
            && slot < |g.props| == |ApplyDiff(s, g, d).props|
            && (ApplyDiff(s, g, d).props[slot].used
                <==> g.props[slot].used || exists n <- d.newNodes :: n.kind == k && p in n.properties)
  {
    hide Accepts, Classify, EdgesAfter, NodesAfter, Schema.PropertyStorageSlot, OfKind, LiveEdges;
    s.PropertySlotOf(k, p);
    OfKindOnly(d.newNodes, k);
    forall n | n in d.newNodes && n.kind == k
      ensures n in OfKind(d.newNodes, k)
    {
      OfKindMember(d.newNodes, n);
    }
  }

  /** A property no change updates keeps its run. */
  lemma UntouchedProperty(s: Schema, g: Graph, d: GraphDiff, n: RawNodeId, p: nat)
    requires Shaped(s, g) && WellKinded(s, d) && Accepts(s, g, d)
    requires n.kind < s.nodeKinds && n.seqNo < |g.nodes[n.kind]| && p < |s.propTypes|
    requires forall c <- d.changes :: !Sets(c, n, p)
    ensures var slot, after := s.PropertyStorageSlot(n.kind, p), ApplyDiff(s, g, d).props;
            && slot < |g.props| == |after| && n.seqNo < |g.props[slot].runs| <= |after[slot].runs|
            && after[slot].runs[n.seqNo] == g.props[slot].runs[n.seqNo]
  {
    hide Accepts, Classify, ApplyDiff, Schema.PropertyStorageSlot;
    AcceptsClassifies(s, g, d);
    WellKindedReads(s, d);
    NoUpdateKept(s, g, d.changes, n, p);
    OldRunAfter(s, g, d, n, p);
  }

  // ----- new nodes

  lemma {:induction false} PlaceOfKind(newNodes: seq<NewNode>, j: nat)
    requires j < |newNodes|
    ensures var k := newNodes[j].kind;
            |OfKind(newNodes[..j], k)| < |OfKind(newNodes, k)|
            && OfKind(newNodes, k)[|OfKind(newNodes[..j], k)|] == newNodes[j]
  {
    var last := |newNodes| - 1;
    if j < last {
      PlaceOfKind(newNodes[..last], j);
      assert newNodes[..last][..j] == newNodes[..j];
    }
  }

  /** Of two new nodes of a kind the later one has the greater id. */
  lemma NewIdsRise(nodes: seq<seq<bool>>, newNodes: seq<NewNode>, i: nat, j: nat)
    requires i < j < |newNodes| && newNodes[i].kind == newNodes[j].kind < |nodes|
    ensures Remapped(nodes, newNodes)[i].seqNo < Remapped(nodes, newNodes)[j].seqNo
  {
    RemappedAt(nodes, newNodes, i);
    RemappedAt(nodes, newNodes, j);
    PlaceOfKind(newNodes[..j], i);
    assert newNodes[..j][..i] == newNodes[..i];
  }

  /** Every place a kind gains is the id of a new node. */
  lemma {:induction false} NewIdsCover(nodes: seq<seq<bool>>, newNodes: seq<NewNode>, k: nat, v: nat) returns (j: nat)
    requires k < |nodes| && |nodes[k]| <= v < |nodes[k]| + |OfKind(newNodes, k)|
    ensures j < |newNodes| && Remapped(nodes, newNodes)[j] == NewNodeId(k, v)
  {
    j := |newNodes| - 1;
    if v < |nodes[k]| + |OfKind(newNodes[..j], k)| {
      j := NewIdsCover(nodes, newNodes[..j], k, v);
    }
  }

  /**
   A new node is there afterwards, live, behind the old nodes of its kind, and has exactly the
   properties it was given.
   */
  lemma NewNodesAreThere(s: Schema, g: Graph, d: GraphDiff, j: nat)
    requires Shaped(s, g) && WellKinded(s, d) && Accepts(s, g, d) && j < |d.newNodes|
    ensures var n, id, after := d.newNodes[j], Remapped(g.nodes, d.newNodes)[j], ApplyDiff(s, g, d).nodes;
            && id.kind == n.kind < |g.nodes| == |after|
            && |g.nodes[id.kind]| <= id.seqNo < |after[id.kind]| && !after[id.kind][id.seqNo]
    ensures forall p: nat | p < |s.propTypes| ::
              var n, id, after := d.newNodes[j], Remapped(g.nodes, d.newNodes)[j], ApplyDiff(s, g, d).props;
              var slot := s.PropertyStorageSlot(n.kind, p);
              && slot < |after| && id.seqNo < |after[slot].runs|
              && after[slot].runs[id.seqNo] == (if p in n.properties then n.properties[p] else [])
              && (p in n.properties ==> after[slot].used)
  {
    hide Accepts, Classify, EdgesAfter, Schema.PropertyStorageSlot, OfKind, LiveEdges, Remapped;
    AcceptsClassifies(s, g, d);
    WellKindedReads(s, d);
    var n := d.newNodes[j];
    assert n in d.newNodes;
    RemappedAt(g.nodes, d.newNodes, j);
    PlaceOfKind(d.newNodes, j);
    forall p: nat | p < |s.propTypes|
      ensures var id, after := Remapped(g.nodes, d.newNodes)[j], ApplyDiff(s, g, d).props;
              var slot := s.PropertyStorageSlot(n.kind, p);
              && slot < |after| && id.seqNo < |after[slot].runs|
              && after[slot].runs[id.seqNo] == (if p in n.properties then n.properties[p] else [])
              && (p in n.properties ==> after[slot].used)
    {
      s.PropertySlotOf(n.kind, p);
    }
  }

  /** Nothing else is added: a kind's places are its old nodes and the ids of its new ones. */
  lemma NodesAreOldOrNew(s: Schema, g: Graph, d: GraphDiff, k: nat, v: nat)
    requires Shaped(s, g) && WellKinded(s, d) && Accepts(s, g, d) && k < s.nodeKinds
    ensures |ApplyDiff(s, g, d).nodes| == |g.nodes| == s.nodeKinds
    ensures v < |ApplyDiff(s, g, d).nodes[k]|
       <==> v < |g.nodes[k]| || exists id <- Remapped(g.nodes, d.newNodes) :: id == NewNodeId(k, v)
  {
    hide Accepts, Classify, EdgesAfter, PropsAfter, OfKind, LiveEdges, Remapped;
    AcceptsClassifies(s, g, d);
    WellKindedReads(s, d);
    var ids := Remapped(g.nodes, d.newNodes);
    if |g.nodes[k]| <= v < |g.nodes[k]| + |OfKind(d.newNodes, k)| {
      var j := NewIdsCover(g.nodes, d.newNodes, k, v);
      assert ids[j] in ids;
    }
    if j :| 0 <= j < |ids| && ids[j] == NewNodeId(k, v) {
      assert d.newNodes[j] in d.newNodes;
      RemappedAt(g.nodes, d.newNodes, j);
      PlaceOfKind(d.newNodes, j);
    }
  }
}
