/** Which diffs are accepted, and what the first bad reference is answered with, read off the diff. */
module AcceptLaws {
  import opened Wrappers
  import opened Storage
  import opened Schemas
  import opened Graphs
  import opened Diffs
  import opened NewNodes
  import opened NewEdges
  import opened Pairing
  import opened NodeLaws
  import opened EdgeLaws

  /** A property that some change updates has a last update. */
  lemma {:induction false} LastUpdateOf(changes: seq<Change>, n: RawNodeId, p: nat) returns (i: nat)
    requires exists c <- changes :: Sets(c, n, p)
    ensures IsLastUpdate(changes, i) && Sets(changes[i], n, p)
  {
    i := |changes| - 1;
    if !Sets(changes[i], n, p) {
      LastOf(changes);
      i := LastUpdateOf(changes[..i], n, p);
      assert IsLastUpdate(changes[..|changes| - 1], i);
    }
  }

  /** The slot an update goes to is in use and each of its values has the declared type. */
  ghost predicate UpdateFits(s: Schema, g: Graph, c: Change)
  {
    && c.UpdateNodeProperty? && c.prop < |s.propTypes|
    && (c.values.One? ==> c.values.single.Typ() == s.propTypes[c.prop])
    && (c.values.Multi? ==> forall v <- c.values.many :: v.Typ() == s.propTypes[c.prop])
    && var slot := s.PropertyStorageSlot(c.owner.kind, c.prop);
       slot < |g.props| && g.props[slot].used
  }

  /** The updates recorded all fit exactly when the last update of each property does. */
  lemma UpdatesFitDecided(s: Schema, g: Graph, changes: seq<Change>)
    requires s.Valid() && Coherent(s, g)
    requires forall c <- changes :: c.UpdateNodeProperty? ==> c.prop < |s.propTypes|
    requires Classify(s, g, changes).Ok?
    ensures UpdatesFit(s, g, Classify(s, g, changes).value.updates)
       <==> forall i: nat | IsLastUpdate(changes, i) :: i < |changes| && UpdateFits(s, g, changes[i])
  {
    hide Coherent, Classify, Schema.PropertyStorageSlot, Schema.PropertySlotKind, Schema.PropertySlotProp, UpdateFits,
         UpdatesFit, IsLastUpdate;
    CoherentShape(s, g);
    var updates := Classify(s, g, changes).value.updates;
    if UpdatesFit(s, g, updates) {
      forall i: nat | IsLastUpdate(changes, i)
        ensures i < |changes| && UpdateFits(s, g, changes[i])
      {
        RecordedFits(s, g, changes, i);
      }
    }
    if forall i: nat | IsLastUpdate(changes, i) :: i < |changes| && UpdateFits(s, g, changes[i]) {
      LastUpdatesSuffice(s, g, changes);
    }
  }

  lemma RecordedFits(s: Schema, g: Graph, changes: seq<Change>, i: nat)
    requires Shaped(s, g) && IsLastUpdate(changes, i)
    requires forall c <- changes :: c.UpdateNodeProperty? ==> c.prop < |s.propTypes|
    requires Classify(s, g, changes).Ok? && UpdatesFit(s, g, Classify(s, g, changes).value.updates)
    ensures i < |changes| && UpdateFits(s, g, changes[i])
  {
    hide Classify, Schema.PropertyStorageSlot, Schema.PropertySlotKind, Schema.PropertySlotProp;
    assert changes[i] in changes;
    LastUpdateKept(s, g, changes, i);
    var n, p, q := changes[i].owner, changes[i].prop, changes[i].values;
    s.PropertySlotOf(n.kind, p);
    var slot, updates := s.PropertyStorageSlot(n.kind, p), Classify(s, g, changes).value.updates;
    assert AllTyped(updates[(slot, n.seqNo as nat)], s.propTypes[p]);
    assert q.One? ==> updates[(slot, n.seqNo as nat)][0] == q.single;
  }

  /** An update recorded for a node is the last update of one of its properties. */
  lemma RecordedIsLast(s: Schema, g: Graph, changes: seq<Change>, slot: nat, v: nat) returns (i: nat)
    requires s.Valid() && Coherent(s, g) && Shaped(s, g)
    requires forall c <- changes :: c.UpdateNodeProperty? ==> c.prop < |s.propTypes|
    requires Classify(s, g, changes).Ok? && slot < |g.props| && v < |g.props[slot].runs|
    requires (slot, v) in Classify(s, g, changes).value.updates
    ensures IsLastUpdate(changes, i) && changes[i].UpdateNodeProperty? && changes[i] in changes
    ensures var c := changes[i];
            && c.owner.kind < s.nodeKinds == |g.nodes| && c.owner.seqNo == v && c.prop < |s.propTypes|
            && s.PropertyStorageSlot(c.owner.kind, c.prop) == slot && s.PropertySlotProp(slot) == c.prop
            && Classify(s, g, changes).value.updates[(slot, v)]
               == if c.values.One? then [c.values.single] else c.values.many
  {
    hide Coherent, Classify, Schema.PropertyStorageSlot, Schema.PropertySlotKind, Schema.PropertySlotProp;
    s.PropertySlotAt(slot);
    var k, p := s.PropertySlotKind(slot), s.PropertySlotProp(slot);
    var n := NodeAt(k, v);
    NodeIsItself(s, g, k, v);
    if forall c <- changes :: !Sets(c, n, p) {
      NoUpdateKept(s, g, changes, n, p);
    }
    i := LastUpdateOf(changes, n, p);
    LastUpdateKept(s, g, changes, i);
  }

  lemma LastUpdatesSuffice(s: Schema, g: Graph, changes: seq<Change>)
    requires s.Valid() && Coherent(s, g) && Shaped(s, g)
    requires forall c <- changes :: c.UpdateNodeProperty? ==> c.prop < |s.propTypes|
    requires Classify(s, g, changes).Ok?
    requires forall i: nat | IsLastUpdate(changes, i) :: i < |changes| && UpdateFits(s, g, changes[i])
    ensures UpdatesFit(s, g, Classify(s, g, changes).value.updates)
  {
    hide Coherent, Classify, Schema.PropertyStorageSlot, Schema.PropertySlotKind, Schema.PropertySlotProp,
         IsLastUpdate;
    var updates := Classify(s, g, changes).value.updates;
    forall slot, v | 0 <= slot < |g.props| && 0 <= v < |g.props[slot].runs| && (slot, v) in updates
      ensures g.props[slot].used && s.PropertySlotProp(slot) < |s.propTypes|
      ensures AllTyped(updates[(slot, v)], s.propTypes[s.PropertySlotProp(slot)])
    {
      var i := RecordedIsLast(s, g, changes, slot, v);
      assert UpdateFits(s, g, changes[i]);
    }
  }

  /** A new edge has a value exactly when its kind declares one, and of the declared type. */
  predicate EdgeValueFits(s: Schema, x: NewEdge)
    requires x.kind < |s.edgeTypes|
  {
    if s.edgeTypes[x.kind] == NoType then x.property.None?
    else x.property.Some? && x.property.value.Typ() == s.edgeTypes[x.kind]
  }

  /** The live edges all fit exactly when every new edge whose ends stay has a fitting value. */
  lemma EdgesFitDecided(s: Schema, g: Graph, d: GraphDiff)
    requires Shaped(s, g) && WellKinded(s, d) && Classify(s, g, d.changes).Ok?
    requires EndsFit(s, Remapped(g.nodes, d.newNodes), d.newEdges)
    ensures (forall y <- LiveEdges(s, g.nodes, Classify(s, g, d.changes).value.tombstones, d.newNodes, d.newEdges) ::
               LiveEdgeFits(s, y))
       <==> forall x | x in d.newEdges && EndStays(g, d, x.src) && EndStays(g, d, x.dst) ::
              x.kind < |s.edgeTypes| && EdgeValueFits(s, x)
  {
    hide Classify, Remapped, LiveEdges, LiveEdgeOf, EndsFit, EndStays, Shaped;
    WellKindedReads(s, d);
    var tombstones := Classify(s, g, d.changes).value.tombstones;
    LiveEdgesFrom(s, g.nodes, tombstones, d.newNodes, d.newEdges);
    forall x | x in d.newEdges
      ensures var live := LiveEdgeOf(s, g.nodes, tombstones, d.newNodes, x);
              && (live.Some? <==> EndStays(g, d, x.src) && EndStays(g, d, x.dst))
              && (live.Some? ==> (LiveEdgeFits(s, live.value) <==> EdgeValueFits(s, x)))
    {
      EdgeDecided(s, g, d, x);
    }
  }

  /**
   The diffs that are accepted, told from the diff: node references resolve, the last update of
   each property goes to a slot in use and has the declared type, so do new nodes' properties, new
   edges whose ends stay carry what their kind declares, and the result fits 32-bit offsets.
   Removing edges by fresh handles never stands in the way.
   */
  lemma AcceptedExactly(s: Schema, g: Graph, d: GraphDiff)
    requires s.Valid() && Coherent(s, g) && WellKinded(s, d) && FreshHandles(s, g, d.changes)
    requires EndsFit(s, Remapped(g.nodes, d.newNodes), d.newEdges)
    ensures Accepts(s, g, d)
       <==> && (forall c <- d.changes :: c.RemoveNode? ==> c.node.kind < s.nodeKinds)
            && (forall c <- d.changes :: c.UpdateNodeProperty? ==>
                  c.owner.kind < s.nodeKinds && c.owner.seqNo < |g.nodes[c.owner.kind]|)
            && (forall i: nat | IsLastUpdate(d.changes, i) ::
                  i < |d.changes| && UpdateFits(s, g, d.changes[i]))
            && (forall n, p, v | n in d.newNodes && p in n.properties && v in n.properties[p] ::
                  p < |s.propTypes| && v.Typ() == s.propTypes[p])
            && (forall x | x in d.newEdges && EndStays(g, d, x.src) && EndStays(g, d, x.dst) ::
                  x.kind < |s.edgeTypes| && EdgeValueFits(s, x))
            && Classify(s, g, d.changes).Ok?
            && SizesFit(ApplyClassified(s, g, d, Classify(s, g, d.changes).value))
  {
    hide Coherent, Classify, Remapped, LiveEdges, EndsFit, EndStays, ApplyClassified, SizesFit, UpdatesFit, UpdateFits,
         IsLastUpdate, FreshHandles, ClaimsSound, KeptPaired, LiveEdgeFits, EdgeValueFits;
    CoherentShape(s, g);
    WellKindedReads(s, d);
    FreshChangesClassify(s, g, d.changes);
    RefsResolve(s, g, d.changes);
    if Classify(s, g, d.changes).Ok? {
      UpdatesFitDecided(s, g, d.changes);
      EdgesFitDecided(s, g, d);
      ChangesKeepPairing(s, g, d.changes);
      ClaimsInRuns(g, Classify(s, g, d.changes).value.claims);
    }
  }

  lemma RefsResolve(s: Schema, g: Graph, changes: seq<Change>)
    requires Shaped(s, g)
    ensures (forall c <- changes :: RefResolves(s, g.nodes, c))
       <==> && (forall c <- changes :: c.RemoveNode? ==> c.node.kind < s.nodeKinds)
            && (forall c <- changes :: c.UpdateNodeProperty? ==>
                  c.owner.kind < s.nodeKinds && c.owner.seqNo < |g.nodes[c.owner.kind]|)
  {
  }

  lemma ClaimsInRuns(g: Graph, claims: Claims)
    requires ClaimsSound(g, claims)
    ensures ClaimsInRange(g, claims)
  {
  }

  /** With fresh handles the first reference that does not resolve decides the error. */
  lemma {:induction false} FirstBadReference(s: Schema, g: Graph, changes: seq<Change>, i: nat)
    requires s.Valid() && Coherent(s, g) && FreshHandles(s, g, changes)
    requires forall c <- changes :: c.UpdateNodeProperty? ==> c.prop < |s.propTypes|
    requires i < |changes| && !RefResolves(s, g.nodes, changes[i])
    requires forall j | 0 <= j < i :: RefResolves(s, g.nodes, changes[j])
    ensures !changes[i].RemoveEdge?
    ensures var n := if changes[i].RemoveNode? then changes[i].node else changes[i].owner;
            Classify(s, g, changes)
            == Err(if n.kind >= s.nodeKinds then UnresolvedNodeKind(n.kind) else NodeOffsetNotFound(n.seqNo))
  {
    hide Coherent, ClaimEdge, Fresh;
    CoherentShape(s, g);
    var older := changes[..|changes| - 1];
    LastOf(changes);
    if i < |changes| - 1 {
      FirstBadReference(s, g, older, i);
    } else {
      FreshChangesClassify(s, g, older);
    }
  }
}
