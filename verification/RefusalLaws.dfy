/** What a refused diff is refused for: the error names something in the diff that is really wrong. */
module RefusalLaws {
  import opened Wrappers
  import opened Storage
  import opened Schemas
  import opened Graphs
  import opened Diffs
  import opened Outcomes
  import opened NewNodes
  import opened NewEdges
  import opened Accepting
  import opened Pairing
  import opened Preserving
  import opened NodeLaws
  import opened EdgeLaws
  import opened AcceptLaws

  // ----- what the errors mean

  /** Some change names a node of a kind the schema does not have. */
  ghost predicate UnknownKind(s: Schema, d: GraphDiff, kind: nat) {
    exists c <- d.changes ::
      !c.RemoveEdge? && kind >= s.nodeKinds && kind == if c.RemoveNode? then c.node.kind else c.owner.kind
  }

  /** Some update names a node that is not there, or a property of a kind of nodes never written. */
  ghost predicate UnknownPlace(s: Schema, g: Graph, d: GraphDiff, seqNo: nat) {
    exists c <- d.changes ::
      && c.UpdateNodeProperty? && c.owner.seqNo == seqNo && c.owner.kind < s.nodeKinds && c.owner.kind < |g.nodes|
      && (seqNo >= |g.nodes[c.owner.kind]|
          || var slot := s.PropertyStorageSlot(c.owner.kind, c.prop); slot < |g.props| && !g.props[slot].used)
  }

  /** The last update of some property writes a value of type `found` where `expected` is declared. */
  ghost predicate MistypedUpdate(s: Schema, d: GraphDiff, expected: PropertyType, found: PropertyType) {
    exists i: nat, v: PropertyValue ::
      && IsLastUpdate(d.changes, i) && Writes(d.changes[i], v)
      && d.changes[i].prop < |s.propTypes| && s.propTypes[d.changes[i].prop] == expected && v.Typ() == found
  }

  /** Some new node has a value of type `found` where `expected` is declared. */
  ghost predicate MistypedNode(s: Schema, d: GraphDiff, expected: PropertyType, found: PropertyType) {
    exists n, p: nat, v :: n in d.newNodes && p in n.properties && v in n.properties[p]
                           && p < |s.propTypes| && s.propTypes[p] == expected && v.Typ() == found
  }

  /** Some new edge whose ends stay has a value of type `found`, or none, where its kind declares `expected`. */
  ghost predicate MistypedEdge(s: Schema, g: Graph, d: GraphDiff, expected: PropertyType, found: PropertyType) {
    exists x <- d.newEdges ::
      && EndStays(g, d, x.src) && EndStays(g, d, x.dst)
      && x.kind < |s.edgeTypes| && s.edgeTypes[x.kind] == expected
      && found == if x.property.Some? then x.property.value.Typ() else NoType
  }

  ghost predicate RefusedFor(s: Schema, g: Graph, d: GraphDiff, error: Error) {
    if error.UnresolvedNodeKind? then UnknownKind(s, d, error.kind)
    else if error.NodeOffsetNotFound? then UnknownPlace(s, g, d, error.seqNo)
    else if error.InvalidPropertyType? then
      && error.expected != error.found
      && (MistypedUpdate(s, d, error.expected, error.found) || MistypedNode(s, d, error.expected, error.found)
          || MistypedEdge(s, g, d, error.expected, error.found))
    else error.OffsetOverflow? && error.value > U32_MAX
  }

  // ----- changes

  lemma {:induction false} FirstBad(s: Schema, nodes: seq<seq<bool>>, changes: seq<Change>) returns (i: nat)
    requires exists c <- changes :: !RefResolves(s, nodes, c)
    ensures i < |changes| && !RefResolves(s, nodes, changes[i])
    ensures forall j | 0 <= j < i :: RefResolves(s, nodes, changes[j])
  {
    hide RefResolves;
    i := |changes| - 1;
    LastOf(changes);
    if exists c <- changes[..i] :: !RefResolves(s, nodes, c) {
      i := FirstBad(s, nodes, changes[..i]);
    } else {
      assert forall j | 0 <= j < i :: changes[..i][j] == changes[j] && changes[..i][j] in changes[..i];
    }
  }

  lemma ChangesRefused(s: Schema, g: Graph, d: GraphDiff, error: Error)
    requires s.Valid() && Coherent(s, g) && WellKinded(s, d) && FreshHandles(s, g, d.changes)
    requires Classify(s, g, d.changes) == Err(error)
    ensures RefusedFor(s, g, d, error)
  {
    hide Coherent, Classify, FreshHandles, WellKinded;
    CoherentShape(s, g);
    WellKindedReads(s, d);
    FreshChangesClassify(s, g, d.changes);
    var i := FirstBad(s, g.nodes, d.changes);
    FirstBadReference(s, g, d.changes, i);
    assert d.changes[i] in d.changes;
    ShapedEdges(s, g);
  }

  // ----- property passes

  /** Writing a run fails at a value of another type or past 32 bits. */
  lemma RunRefused(total: nat, vs: seq<PropertyValue>, typ: PropertyType, written: bool, error: Error)
    requires RunOutcome(total, vs, typ, written) == Err(error)
    ensures || (error.OffsetOverflow? && error.value > U32_MAX)
            || (written && error.InvalidPropertyType? && error.expected == typ != error.found
                && exists v <- vs :: v.Typ() == error.found)
  {
    if written {
      var j := FirstFrom(WriteOutcomes(total, vs, typ));
      if j < |vs| {
        assert vs[j] in vs;
      }
    }
  }

  lemma UpdatesRefused(s: Schema, g: Graph, d: GraphDiff, error: Error)
    requires s.Valid() && Coherent(s, g) && WellKinded(s, d) && Classify(s, g, d.changes).Ok?
    requires First(UpdateOutcomes(s, g, Classify(s, g, d.changes).value.updates)) == Err(error)
    ensures RefusedFor(s, g, d, error)
  {
    hide Coherent, Classify, WellKinded, First, RunOutcome, RunOutcomes, Updated, UnusedOutcomes, TotalOf,
         Schema.PropertyStorageSlot, Schema.PropertySlotProp;
    CoherentShape(s, g);
    WellKindedReads(s, d);
    var updates := Classify(s, g, d.changes).value.updates;
    var slot := FirstFrom(UpdateOutcomes(s, g, updates));
    var t, typ := g.props[slot], PropTypeAt(s, slot);
    if t.used {
      var v := UpdatedRunFails(t, updates, slot, typ, error);
      if !error.OffsetOverflow? {
        var i := RecordedIsLast(s, g, d.changes, slot, v);
        var x: PropertyValue :| x in updates[(slot, v)] && x.Typ() == error.found;
        assert Writes(d.changes[i], x);
        assert MistypedUpdate(s, d, error.expected, error.found);
      }
    } else {
      var v := FirstFrom(UnusedOutcomes(updates, slot, |t.runs|));
      UnusedFails(updates, slot, |t.runs|, v);
      var i := RecordedIsLast(s, g, d.changes, slot, v);
      assert UnknownPlace(s, g, d, v);
    }
  }

  lemma UpdatedRunFails(t: Table<PropertyValue>, updates: Updates, slot: nat, typ: PropertyType, error: Error)
    returns (v: nat)
    requires t.used && SlotUpdateOutcome(t, updates, slot, typ) == Err(error)
    ensures v < |t.runs|
    ensures || (error.OffsetOverflow? && error.value > U32_MAX)
            || ((slot, v) in updates && error.InvalidPropertyType? && error.expected == typ != error.found
                && exists x <- updates[(slot, v)] :: x.Typ() == error.found)
  {
    hide First, RunOutcome, TotalOf;
    var runs, written := Updated(t, updates, slot).runs, UpdatedNodes(updates, slot, |t.runs|);
    v := FirstFrom(RunOutcomes(runs, written, typ));
    RunRefused(TotalOf(runs[..v]), runs[v], typ, written[v], error);
  }

  lemma UnusedFails(updates: Updates, slot: nat, n: nat, v: nat)
    requires v < n && UnusedOutcomes(updates, slot, n)[v].Err?
    ensures (slot, v) in updates && UnusedOutcomes(updates, slot, n)[v] == Err(NodeOffsetNotFound(v))
  {
  }

  /** Claims that name positions of the runs they are made in never fail. */
  lemma RemovalsPass(g: Graph, claims: Claims)
    requires ClaimsSound(g, claims)
    ensures First(RemovalOutcomes(g, claims)).Ok?
  {
    hide First, At;
    if First(RemovalOutcomes(g, claims)).Err? {
      var i := FirstFrom(RemovalOutcomes(g, claims));
      var t := g.edges[i];
      var v := FirstFrom(NodeRemovalOutcomes(Lengths(t.runs), Removals(claims, i, |t.runs|)));
      var j := FirstFrom(PositionOutcomes(At(claims, i, v), |t.runs[v]|));
      assert At(claims, i, v)[j] in At(claims, i, v);
    }
  }

  lemma AppendsRefused(s: Schema, g: Graph, d: GraphDiff, updates: Updates, error: Error)
    requires Shaped(s, g) && WellKinded(s, d)
    requires First(AppendOutcomes(s, g, updates, d.newNodes)) == Err(error)
    ensures RefusedFor(s, g, d, error)
  {
    hide Shaped, First, RunOutcome, RunOutcomes, Updated, OfKind, TotalOf, PropsExtended, NewOnes,
         Schema.PropertySlotKind, Schema.PropertySlotProp;
    ShapedProps(s, g);
    var slot := FirstFrom(AppendOutcomes(s, g, updates, d.newNodes));
    s.PropertySlotAt(slot);
    var k, p := s.PropertySlotKind(slot), s.PropertySlotProp(slot);
    var added := OfKind(d.newNodes, k);
    var j := AppendedRunFails(Updated(g.props[slot], updates, slot), added, p, PropTypeAt(s, slot), error);
    if !error.OffsetOverflow? {
      OfKindOnly(d.newNodes, k);
      var x :| x in PropertyOf(added[j], p) && x.Typ() == error.found;
      assert added[j] in d.newNodes && x in added[j].properties[p];
      assert MistypedNode(s, d, error.expected, error.found);
    }
  }

  lemma ShapedProps(s: Schema, g: Graph)
    requires Shaped(s, g)
    ensures |g.props| == s.PropertyStorageSize()
  {
  }

  lemma AppendedRunFails(t: Table<PropertyValue>, added: seq<NewNode>, p: nat, typ: PropertyType, error: Error)
    returns (j: nat)
    requires SlotAppendOutcome(t, added, p, typ) == Err(error)
    ensures || (error.OffsetOverflow? && error.value > U32_MAX)
            || (j < |added| && error.InvalidPropertyType? && error.expected == typ != error.found
                && exists x <- PropertyOf(added[j], p) :: x.Typ() == error.found)
  {
    hide First, RunOutcome, TotalOf;
    var runs, written := PropsExtended(t, added, p).runs, NewOnes(|t.runs|, |added|);
    var v := FirstFrom(RunOutcomes(runs, written, typ));
    RunRefused(TotalOf(runs[..v]), runs[v], typ, written[v], error);
    j := if v < |t.runs| then 0 else v - |t.runs|;
  }

  // ----- the edge pass

  lemma {:induction false} ByOwnerFrom<V>(halves: seq<NewHalf<V>>, m: nat, j: nat) returns (i: nat)
    requires j < |ByOwner(halves, m)|
    ensures i < |halves| && halves[i].half == ByOwner(halves, m)[j]
  {
    var older := ByOwner(halves, m - 1);
    if j < |older| {
      i := ByOwnerFrom(halves, m - 1, j);
    } else {
      OwnedByFrom(halves, m - 1, j - |older|);
      i :| 0 <= i < |halves| && halves[i].half == OwnedBy(halves, m - 1)[j - |older|];
    }
  }

  lemma InsertedHalfFails(t: Table<Half<PropertyValue>>, count: nat, halves: seq<NewHalf<PropertyValue>>,
                          typ: PropertyType, error: Error)
    returns (i: nat)
    requires SlotInsertOutcome(t, count, halves, typ) == Err(error)
    ensures || (error.OffsetOverflow? && error.value > U32_MAX)
            || (i < |halves| && HalfOutcome(halves[i].half.value, typ) == Err(error))
  {
    hide First, ByOwner, TotalUpTo, HalfOutcome;
    i := 0;
    if |halves| <= U32_MAX {
      if First(HalfOutcomes(ByOwner(halves, count), typ)).Err? {
        var j := FirstFrom(HalfOutcomes(ByOwner(halves, count), typ));
        i := ByOwnerFrom(halves, count, j);
      } else {
        var k := FirstFrom(OffsetOutcomes(t.runs, count, halves));
      }
    }
  }

  lemma InsertsRefused(s: Schema, g: Graph, d: GraphDiff, error: Error)
    requires s.Valid() && Shaped(s, g) && WellKinded(s, d) && Classify(s, g, d.changes).Ok?
    requires EndsFit(s, Remapped(g.nodes, d.newNodes), d.newEdges)
    requires var c := Classify(s, g, d.changes).value;
             First(InsertOutcomes(s, g, c.claims, d.newNodes,
                                  LiveEdges(s, g.nodes, c.tombstones, d.newNodes, d.newEdges))) == Err(error)
    ensures RefusedFor(s, g, d, error)
  {
    hide Classify, Shaped, WellKinded, EndsFit, Remapped, LiveEdges, LiveEdgeOf, First, SlotInsertOutcome, SlotHalves,
         OfKind, Kept, EndStays, LiveKnown, Schema.EdgeSlotKind, Schema.EdgeSlotEdge;
    WellKindedReads(s, d);
    ShapedEdges(s, g);
    var c := Classify(s, g, d.changes).value;
    var live := LiveEdges(s, g.nodes, c.tombstones, d.newNodes, d.newEdges);
    var slot := FirstFrom(InsertOutcomes(s, g, c.claims, d.newNodes, live));
    s.EdgeSlotAt(slot);
    var k, halves := s.EdgeSlotKind(slot), SlotHalves(s, live, slot);
    var i := InsertedHalfFails(Kept(g.edges[slot], c.claims, slot), |g.nodes[k]| + |OfKind(d.newNodes, k)|, halves,
                               EdgeTypeAt(s, slot), error);
    if !error.OffsetOverflow? {
      AllLiveKnown(s, g, d);
      SlotHalvesFrom(s, live, slot, i);
      var y :| y in live && y.kind == s.EdgeSlotEdge(slot) && IsHalfOf(halves[i].half, y);
      LiveEdgesFrom(s, g.nodes, c.tombstones, d.newNodes, d.newEdges);
      var x :| x in d.newEdges && LiveEdgeOf(s, g.nodes, c.tombstones, d.newNodes, x) == Some(y);
      EdgeDecided(s, g, d, x);
      assert MistypedEdge(s, g, d, error.expected, error.found);
    }
  }

  /**
   A diff with fresh handles is only ever refused for something that is wrong with it: a node kind
   or node it names that is not there, an update where nothing was ever written, a value of a type
   other than the declared one that would have survived, or offsets past 32 bits.
   */
  lemma RefusalIsReal(s: Schema, g: Graph, d: GraphDiff, error: Error)
    requires s.Valid() && Coherent(s, g) && WellKinded(s, d) && FreshHandles(s, g, d.changes)
    requires EndsFit(s, Remapped(g.nodes, d.newNodes), d.newEdges)
    requires Shaped(s, g) && StageOutcome(s, g, d) == Err(error)
    ensures RefusedFor(s, g, d, error)
  {
    hide Coherent, WellKinded, FreshHandles, EndsFit, Classify, RefusedFor, First, UpdateOutcomes, RemovalOutcomes,
         AppendOutcomes, InsertOutcomes, LiveEdges, ClaimsSound, KeptPaired;
    WellKindedReads(s, d);
    var classified := Classify(s, g, d.changes);
    if classified.Err? {
      ChangesRefused(s, g, d, error);
    } else {
      var c := classified.value;
      ChangesKeepPairing(s, g, d.changes);
      RemovalsPass(g, c.claims);
      var i := FirstFrom(PassOutcomes(s, g, d, c));
      if i == 0 {
        UpdatesRefused(s, g, d, error);
      } else if i == 2 {
        AppendsRefused(s, g, d, c.updates, error);
      } else {
        InsertsRefused(s, g, d, error);
      }
    }
  }
}
