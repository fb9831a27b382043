/** Which strings a diff adds to the pool, read off the diff's own entries. */
module TextLaws {
  import opened Wrappers
  import opened Storage
  import opened Schemas
  import opened Graphs
  import opened Diffs
  import opened NewNodes
  import opened Accepting
  import opened Pairing
  import opened NodeLaws
  import opened AcceptLaws

  lemma {:induction false} TextIn(vs: seq<PropertyValue>, t: Text)
    ensures t in TextsOf(vs) <==> Value.String(t) in vs
  {
    if vs != [] {
      LastOf(vs);
      TextIn(vs[..|vs| - 1], t);
    }
  }

  lemma {:induction false} EdgeTextFrom(newEdges: seq<NewEdge>, t: Text)
    ensures t in EdgeTexts(newEdges) <==> exists x <- newEdges :: x.property == Some(Value.String(t))
  {
    if newEdges != [] {
      LastOf(newEdges);
      var last := newEdges[|newEdges| - 1];
      EdgeTextFrom(newEdges[..|newEdges| - 1], t);
      if last.property.Some? {
        TextIn([last.property.value], t);
        assert Value.String(t) in [last.property.value] <==> Value.String(t) == last.property.value;
      }
    }
  }

  lemma {:induction false} NodeTextFrom(nodes: seq<NewNode>, p: nat, t: Text)
    ensures t in NodeTexts(nodes, p) <==> exists n <- nodes :: p in n.properties && Value.String(t) in n.properties[p]
  {
    if nodes != [] {
      LastOf(nodes);
      var last := nodes[|nodes| - 1];
      NodeTextFrom(nodes[..|nodes| - 1], p, t);
      TextIn(PropertyOf(last, p), t);
    }
  }

  lemma {:induction false} NewNodeTextFrom(s: Schema, newNodes: seq<NewNode>, m: nat, t: Text)
    ensures t in NewNodeTextsUpTo(s, newNodes, m)
       <==> exists i: nat :: i < m && t in NodeTexts(OfKind(newNodes, s.PropertySlotKind(i)), s.PropertySlotProp(i))
  {
    hide NodeTexts, OfKind, Schema.PropertySlotKind, Schema.PropertySlotProp;
    if m > 0 {
      NewNodeTextFrom(s, newNodes, m - 1, t);
    }
  }

  /** The strings new nodes bring in are those among their properties. */
  lemma NewNodesBring(s: Schema, newNodes: seq<NewNode>, t: Text)
    requires KindsKnown(s, newNodes)
    ensures t in NewNodeTextsUpTo(s, newNodes, s.PropertyStorageSize())
       <==> exists n, p :: n in newNodes && p in n.properties && Value.String(t) in n.properties[p]
  {
    hide NodeTexts, OfKind, NewNodeTextsUpTo, Schema.PropertyStorageSlot, Schema.PropertySlotKind,
         Schema.PropertySlotProp;
    NewNodeTextFrom(s, newNodes, s.PropertyStorageSize(), t);
    if i: nat :| i < s.PropertyStorageSize()
                 && t in NodeTexts(OfKind(newNodes, s.PropertySlotKind(i)), s.PropertySlotProp(i)) {
      NodeTextFrom(OfKind(newNodes, s.PropertySlotKind(i)), s.PropertySlotProp(i), t);
      OfKindOnly(newNodes, s.PropertySlotKind(i));
    }
    if n, p :| n in newNodes && p in n.properties && Value.String(t) in n.properties[p] {
      s.PropertySlotOf(n.kind, p);
      OfKindMember(newNodes, n);
      NodeTextFrom(OfKind(newNodes, n.kind), p, t);
      assert s.PropertyStorageSlot(n.kind, p) < s.PropertyStorageSize();
    }
  }

  lemma {:induction false} SlotTextFrom(updates: Updates, slot: nat, m: nat, t: Text)
    ensures t in SlotUpdateTexts(updates, slot, m)
       <==> exists v: nat :: v < m && (slot, v) in updates && Value.String(t) in updates[(slot, v)]
  {
    if m > 0 {
      SlotTextFrom(updates, slot, m - 1, t);
      if (slot, m - 1) in updates {
        TextIn(updates[(slot, m - 1)], t);
      }
    }
  }

  lemma {:induction false} UpdateTextFrom(g: Graph, updates: Updates, m: nat, t: Text)
    requires m <= |g.props|
    ensures t in UpdateTextsUpTo(g, updates, m)
       <==> exists slot: nat, v: nat ::
              slot < m && v < |g.props[slot].runs| && (slot, v) in updates && Value.String(t) in updates[(slot, v)]
  {
    hide SlotUpdateTexts;
    if m > 0 {
      UpdateTextFrom(g, updates, m - 1, t);
      SlotTextFrom(updates, m - 1, |g.props[m - 1].runs|, t);
    }
  }

  lemma LastUpdateBrings(s: Schema, g: Graph, changes: seq<Change>, i: nat, t: Text)
    requires Shaped(s, g) && forall c <- changes :: c.UpdateNodeProperty? ==> c.prop < |s.propTypes|
    requires Classify(s, g, changes).Ok? && IsLastUpdate(changes, i) && Writes(changes[i], Value.String(t))
    ensures t in UpdateTextsUpTo(g, Classify(s, g, changes).value.updates, |g.props|)
  {
    hide Classify, UpdateTextsUpTo, Schema.PropertyStorageSlot, Schema.PropertySlotKind;
    assert changes[i] in changes;
    LastUpdateKept(s, g, changes, i);
    var n, p, updates := changes[i].owner, changes[i].prop, Classify(s, g, changes).value.updates;
    s.PropertySlotOf(n.kind, p);
    UpdateTextFrom(g, updates, |g.props|, t);
    assert (s.PropertyStorageSlot(n.kind, p), n.seqNo as nat) in updates;
  }

  lemma BroughtByLastUpdate(s: Schema, g: Graph, changes: seq<Change>, t: Text) returns (i: nat)
    requires s.Valid() && Coherent(s, g) && Shaped(s, g)
    requires forall c <- changes :: c.UpdateNodeProperty? ==> c.prop < |s.propTypes|
    requires Classify(s, g, changes).Ok?
    requires t in UpdateTextsUpTo(g, Classify(s, g, changes).value.updates, |g.props|)
    ensures IsLastUpdate(changes, i) && Writes(changes[i], Value.String(t))
  {
    hide Coherent, Classify, UpdateTextsUpTo, Schema.PropertyStorageSlot, Schema.PropertySlotKind,
         Schema.PropertySlotProp, IsLastUpdate;
    var updates := Classify(s, g, changes).value.updates;
    UpdateTextFrom(g, updates, |g.props|, t);
    var slot: nat, v: nat :| slot < |g.props| && v < |g.props[slot].runs| && (slot, v) in updates
                             && Value.String(t) in updates[(slot, v)];
    i := RecordedIsLast(s, g, changes, slot, v);
  }

  /**
   The strings an accepted diff interns, told from the diff: those in the last update of a property,
   in a new node's properties and on a new edge, kept or dropped. Overwritten updates bring in none.
   */
  lemma DiffTextsExactly(s: Schema, g: Graph, d: GraphDiff, t: Text)
    requires s.Valid() && Coherent(s, g) && WellKinded(s, d) && Classify(s, g, d.changes).Ok?
    ensures t in DiffTexts(s, g, d, Classify(s, g, d.changes).value.updates)
       <==> || (exists i: nat :: IsLastUpdate(d.changes, i) && Writes(d.changes[i], Value.String(t)))
            || (exists n, p :: n in d.newNodes && p in n.properties && Value.String(t) in n.properties[p])
            || exists x <- d.newEdges :: x.property == Some(Value.String(t))
  {
    hide Coherent, Classify, UpdateTextsUpTo, NewNodeTextsUpTo, EdgeTexts, Writes;
    CoherentShape(s, g);
    WellKindedReads(s, d);
    var updates := Classify(s, g, d.changes).value.updates;
    if t in UpdateTextsUpTo(g, updates, |g.props|) {
      var i := BroughtByLastUpdate(s, g, d.changes, t);
    }
    if i: nat :| IsLastUpdate(d.changes, i) && Writes(d.changes[i], Value.String(t)) {
      LastUpdateBrings(s, g, d.changes, i, t);
    }
    NewNodesBring(s, d.newNodes, t);
    EdgeTextFrom(d.newEdges, t);
  }
}
