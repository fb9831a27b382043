/** Staging a diff off to the side: every check made and every write worked out, the graph untouched. */
module Staging {
  import opened Wrappers
  import opened Storage
  import opened Schemas
  import opened StringsPool
  import opened Graphs
  import opened Diffs
  import opened Outcomes
  import opened FlatGraphs
  import opened EdgeRemovals
  import opened PropertySlots
  import opened PropertyAppends
  import opened Classifying
  import opened NewNodes
  import opened EdgeInserts
  import opened NewEdges
  import opened Accepting

  datatype StagedParts = StagedParts(
    newMetas: seq<seq<bool>>,
    remap: seq<NewNodeId>,
    tombstones: seq<RawNodeId>,
    propReplacements: seq<Replacement<PropertySlot>>,
    edgeReplacements: seq<Replacement<EdgeSlot>>,
    propAppends: seq<PropertySlotAppend>,
    edgeInserts: seq<EdgeSlotInsert>)

  // ----- strings at stake

  /** Every string the diff mentions is one of `texts`. */
  ghost predicate Covers(texts: set<Text>, d: GraphDiff) {
    forall t | Mentions(d, t) :: t in texts
  }

  lemma {:induction false} UpdateTextsCovered(s: Schema, g: Graph, changes: seq<Change>, texts: set<Text>)
    requires Shaped(s, g) && forall c <- changes :: c.UpdateNodeProperty? ==> c.prop < |s.propTypes|
    requires forall c, x | c in changes && c.UpdateNodeProperty? && x in TextsOf(c.values.Values()) :: x in texts
    requires Classify(s, g, changes).Ok?
    ensures var updates := Classify(s, g, changes).value.updates;
            forall i, v, x | (i, v) in updates && x in TextsOf(updates[(i, v)]) :: x in texts
  {
    if changes != [] {
      var older, last := changes[..|changes| - 1], changes[|changes| - 1];
      assert last in changes;
      assert forall c | c in older :: c in changes;
      UpdateTextsCovered(s, g, older, texts);
      var before := Classify(s, g, older).value;
      OneUpdateAtMost(s, g, before, last);
    }
  }

  lemma OneUpdateAtMost(s: Schema, g: Graph, c: Classified, change: Change)
    requires Shaped(s, g) && (change.UpdateNodeProperty? ==> change.prop < |s.propTypes|)
    ensures var c' := ClassifyOne(s, g, c, change);
            c'.Ok? ==>
              forall key | key in c'.value.updates ::
                (key in c.updates && c'.value.updates[key] == c.updates[key])
                || (change.UpdateNodeProperty? && c'.value.updates[key] == change.values.Values())
  {
    hide ClaimEdge;
  }

  lemma {:induction false} NodeTextsCovered(newNodes: seq<NewNode>, p: nat, texts: set<Text>)
    requires forall n, x | n in newNodes && p in n.properties && x in TextsOf(n.properties[p]) :: x in texts
    ensures forall x <- NodeTexts(newNodes, p) :: x in texts
  {
    if newNodes != [] {
      var older, last := newNodes[..|newNodes| - 1], newNodes[|newNodes| - 1];
      assert last in newNodes && forall n | n in older :: n in newNodes;
      NodeTextsCovered(older, p, texts);
    }
  }

  lemma DiffTextsCovered(s: Schema, g: Graph, d: GraphDiff, texts: set<Text>)
    requires Shaped(s, g) && WellKinded(s, d) && Covers(texts, d)
    ensures Classify(s, g, d.changes).Ok? ==>
              var updates := Classify(s, g, d.changes).value.updates;
              forall i, v, x | (i, v) in updates && x in TextsOf(updates[(i, v)]) :: x in texts
    ensures forall i, x | 0 <= i < |g.props|
              && x in NodeTexts(OfKind(d.newNodes, s.PropertySlotKind(i)), s.PropertySlotProp(i)) :: x in texts
    ensures forall x <- EdgeTexts(d.newEdges) :: x in texts
  {
    forall c, x | c in d.changes && c.UpdateNodeProperty? && x in TextsOf(c.values.Values())
      ensures x in texts
    {
      assert Mentions(d, x);
    }
    if Classify(s, g, d.changes).Ok? {
      UpdateTextsCovered(s, g, d.changes, texts);
    }
    forall i | 0 <= i < |g.props|
      ensures forall x <- NodeTexts(OfKind(d.newNodes, s.PropertySlotKind(i)), s.PropertySlotProp(i)) :: x in texts
    {
      var k, p := s.PropertySlotKind(i), s.PropertySlotProp(i);
      OfKindOnly(d.newNodes, k);
      forall n, x | n in OfKind(d.newNodes, k) && p in n.properties && x in TextsOf(n.properties[p])
        ensures x in texts
      {
        assert Mentions(d, x);
      }
      NodeTextsCovered(OfKind(d.newNodes, k), p, texts);
    }
    forall x | x in EdgeTexts(d.newEdges)
      ensures x in texts
    {
      assert Mentions(d, x);
    }
  }

  // ----- what staging leaves behind

  /** A well-formed slot that holds exactly the given runs. */
  ghost predicate EdgeSlotIs(slot: EdgeSlot, typ: PropertyType, strings: seq<Text>, t: Table<Half<PropertyValue>>) {
    EdgeSlotOk(slot, typ, |t.runs|, strings) && EdgeTable(strings, slot, |t.runs|) == t
  }

  /** Writing the insert, or leaving the slot if there is none, makes the slot hold its table. */
  ghost predicate InsertLeadsTo(mid: EdgeSlot, typ: PropertyType, strings: seq<Text>, t: Table<Half<PropertyValue>>,
                                ins: Option<EdgeSlotInsert>)
  {
    match ins
    case None => EdgeSlotIs(mid, typ, strings, t)
    case Some(x) => InsertReady(mid, x) && forall after | IsSpliced(mid, x, after) :: EdgeSlotIs(after, typ, strings, t)
  }

  ghost predicate PropPartsReady(s: Schema, g: Graph, d: GraphDiff, c: Classified, props: seq<PropertySlot>,
                                 strings: seq<Text>, parts: StagedParts)
    requires Shaped(s, g)
  {
    var mids := Replaced(props, parts.propReplacements);
    && ReplacedInUse(props, parts.propReplacements)
    && AppendsReady(mids, parts.propAppends)
    && PropsAre(s, g, c.updates, d.newNodes, AppendedProps(mids, parts.propAppends), strings)
  }

  ghost predicate EdgePartsReady(s: Schema, g: Graph, d: GraphDiff, c: Classified, edges: seq<EdgeSlot>,
                                 strings: seq<Text>, parts: StagedParts)
    requires Shaped(s, g)
  {
    var mids := Replaced(edges, parts.edgeReplacements);
    var live := LiveEdges(s, g.nodes, c.tombstones, d.newNodes, d.newEdges);
    && |mids| == |g.edges|
    && ReplacementsInRange(edges, parts.edgeReplacements)
    && SlotsRise(parts.edgeInserts, |mids|)
    && forall i | 0 <= i < |mids| ::
         InsertLeadsTo(mids[i], EdgeTypeAt(s, i), strings, EdgesAfter(s, g, c.claims, d.newNodes, live)[i],
                       InsertFor(parts.edgeInserts, i))
  }

  ghost predicate NodePartsReady(g: Graph, d: GraphDiff, c: Classified, parts: StagedParts) {
    && parts.tombstones == c.tombstones
    && parts.remap == Remapped(g.nodes, d.newNodes)
    && FreshMetas(g.nodes, d.newNodes, parts.newMetas)
  }

  /** Everything commit writes turns the slots it was measured against into the diff's outcome. */
  ghost predicate PartsReady(s: Schema, g: Graph, d: GraphDiff, c: Classified, raw: RawGraph, parts: StagedParts)
    requires Shaped(s, g)
  {
    && raw.nodes == g.nodes
    && NodePartsReady(g, d, c, parts)
    && PropPartsReady(s, g, d, c, raw.props, raw.strings, parts)
    && EdgePartsReady(s, g, d, c, raw.edges, raw.strings, parts)
  }

  // ----- from one step to the next

  lemma PoolDistinct(strings: StringsPool, texts: set<Text>)
    requires PoolReady(strings, texts)
    ensures Distinct(strings.List())
  {
  }

  lemma UpdatesStart(s: Schema, raw: RawGraph, updates: Updates)
    requires s.Valid() && WellFormed(s, raw)
    ensures var g := Meaning(s, raw);
            && |g.props| == s.PropertyStorageSize()
            && PropsUpTo(s, g, updates, raw.props, raw.props, raw.strings, 0)
  {
  }

  lemma UpdatesHeld(s: Schema, g: Graph, pending: Pending, c: Classified)
    requires Shaped(s, g) && Holds(s, g, pending, c)
    ensures pending.tombstones == c.tombstones && HoldsClaims(s, g, pending.claims, c.claims)
    ensures |pending.updates| == |g.props|
    ensures forall i | 0 <= i < |pending.updates| :: HoldsUpdates(pending.updates[i], c.updates, i, |g.props[i].runs|)
  {
    hide HoldsClaims, HoldsUpdates;
  }

  lemma MidsFromCompacted(s: Schema, raw: RawGraph, claims: Claims, mids: seq<EdgeSlot>, strings: seq<Text>)
    requires s.Valid() && WellFormed(s, raw) && AllCompacted(s, raw, claims, mids) && raw.strings <= strings
    ensures MidsHold(s, Meaning(s, raw), claims, mids, strings)
  {
    var g := Meaning(s, raw);
    forall i | 0 <= i < |mids|
      ensures var k, e := s.EdgeSlotKind(i), s.EdgeSlotEdge(i);
              && k < |g.nodes| && e < |s.edgeTypes|
              && EdgeSlotOk(mids[i], s.edgeTypes[e], |g.nodes[k]|, strings)
              && EdgeTable(strings, mids[i], |g.nodes[k]|) == Kept(g.edges[i], claims, i)
    {
      assert SlotCompacted(s, raw, claims, i, mids[i]);
      HalvesStable(raw.strings, strings, mids[i]);
    }
  }

  lemma AppendsStart(s: Schema, raw: RawGraph, updates: Updates, newNodes: seq<NewNode>, lasts: seq<Option<u32>>,
                     mids: seq<PropertySlot>, oldCounts: seq<nat>, newCounts: seq<nat>, values: seq<NewValues>)
    requires s.Valid() && WellFormed(s, raw) && LastOffsetsMatch(lasts, mids, raw.props)
    requires AllNewHeld(s, newNodes, values) && CountsMatch(raw.nodes, newNodes, oldCounts, newCounts)
    ensures |mids| == s.PropertyStorageSize() == |Meaning(s, raw).props|
    ensures forall i | 0 <= i < |mids| ::
              AppendReady(s, Meaning(s, raw), updates, newNodes, raw.props, lasts, mids, oldCounts, newCounts, values,
                          i)
  {
    hide HoldsNew, KnownBy, OfKind, Schema.PropertySlotKind, Schema.PropertySlotProp;
  }

  lemma PropsAreLater(s: Schema, g: Graph, updates: Updates, newNodes: seq<NewNode>, slots: seq<PropertySlot>,
                      strings: seq<Text>, more: seq<Text>)
    requires PropsAre(s, g, updates, newNodes, slots, strings) && strings <= more
    ensures PropsAre(s, g, updates, newNodes, slots, more)
  {
    hide PropSlotIs, TableAfter;
    forall i | 0 <= i < |slots|
      ensures PropSlotIs(slots[i], PropTypeAt(s, i), more, TableAfter(s, g, updates, newNodes, i))
    {
      PropSlotIsLater(slots[i], PropTypeAt(s, i), strings, more, TableAfter(s, g, updates, newNodes, i));
    }
  }

  lemma InsertsStart(s: Schema, g: Graph, claims: Claims, newNodes: seq<NewNode>, live: seq<LiveEdge>,
                     mids: seq<EdgeSlot>, offsets: seq<seq<u32>>, oldCounts: seq<nat>, newCounts: seq<nat>,
                     strings: seq<Text>, slots: seq<Option<SlotHalfEdges>>)
    requires Shaped(s, g) && MidsHold(s, g, claims, mids, strings)
    requires BucketsMean(s, Totals(g.nodes, newNodes), strings, slots, HalvesBySlot(s, live))
    requires CountsMatch(g.nodes, newNodes, oldCounts, newCounts)
    requires |offsets| == |mids| && forall i | 0 <= i < |mids| :: offsets[i] == mids[i].offsets
    ensures |mids| == |slots| == s.EdgeStorageSize()
    ensures forall i | 0 <= i < |mids| :: SlotReady(s, mids, offsets, oldCounts, newCounts, slots, strings, i)
  {
    hide EdgeSlotOk, BucketOk, EdgeTable, Resolved, HalvesBySlot, Schema.EdgeSlotKind, Schema.EdgeSlotEdge;
  }

  lemma InsertsLead(s: Schema, g: Graph, claims: Claims, newNodes: seq<NewNode>, live: seq<LiveEdge>,
                    mids: seq<EdgeSlot>, oldCounts: seq<nat>, newCounts: seq<nat>, strings: seq<Text>,
                    slots: seq<Option<SlotHalfEdges>>, inserts: seq<EdgeSlotInsert>)
    requires Shaped(s, g) && MidsHold(s, g, claims, mids, strings)
    requires BucketsMean(s, Totals(g.nodes, newNodes), strings, slots, HalvesBySlot(s, live))
    requires CountsMatch(g.nodes, newNodes, oldCounts, newCounts)
    requires |slots| == |mids| && InsertsStaged(s, mids, oldCounts, newCounts, slots, strings, inserts, |mids|)
    ensures |mids| == |g.edges| && SlotsRise(inserts, |mids|)
    ensures forall i | 0 <= i < |mids| ::
              InsertLeadsTo(mids[i], EdgeTypeAt(s, i), strings, EdgesAfter(s, g, claims, newNodes, live)[i],
                            InsertFor(inserts, i))
  {
    forall i | 0 <= i < |mids|
      ensures InsertLeadsTo(mids[i], EdgeTypeAt(s, i), strings, EdgesAfter(s, g, claims, newNodes, live)[i],
                            InsertFor(inserts, i))
    {
      OneInsertLeads(s, g, claims, newNodes, live, mids, oldCounts, newCounts, strings, slots, inserts, i);
    }
  }

  lemma OneInsertLeads(s: Schema, g: Graph, claims: Claims, newNodes: seq<NewNode>, live: seq<LiveEdge>,
                       mids: seq<EdgeSlot>, oldCounts: seq<nat>, newCounts: seq<nat>, strings: seq<Text>,
                       slots: seq<Option<SlotHalfEdges>>, inserts: seq<EdgeSlotInsert>, i: nat)
    requires Shaped(s, g) && MidsHold(s, g, claims, mids, strings) && i < |mids|
    requires BucketsMean(s, Totals(g.nodes, newNodes), strings, slots, HalvesBySlot(s, live))
    requires CountsMatch(g.nodes, newNodes, oldCounts, newCounts)
    requires |slots| == |mids| && InsertsStaged(s, mids, oldCounts, newCounts, slots, strings, inserts, |mids|)
    ensures InsertLeadsTo(mids[i], EdgeTypeAt(s, i), strings, EdgesAfter(s, g, claims, newNodes, live)[i],
                          InsertFor(inserts, i))
  {
    hide EdgeSlotOk, BucketOk, EdgeTable, Resolved, InsertReady, IsSpliced, Kept, Inserted, SlotHalves, InsertFor;
    assert SlotStaged(s, mids[i], oldCounts, newCounts, slots[i], strings, i, InsertFor(inserts, i));
    assert Resolved(strings, HalvesIn(slots[i])) == HalvesBySlot(s, live)[i] == SlotHalves(s, live, i);
    var k := s.EdgeSlotKind(i);
    var t := EdgesAfter(s, g, claims, newNodes, live)[i];
    assert t == Inserted(Kept(g.edges[i], claims, i), oldCounts[k] + newCounts[k], SlotHalves(s, live, i));
    assert |t.runs| == oldCounts[k] + newCounts[k];
  }

  /** The offsets each edge slot has once replacements are written. */
  method EdgeBaselines(edges: seq<EdgeSlot>, reps: seq<Replacement<EdgeSlot>>) returns (offsets: seq<seq<u32>>)
    requires ReplacementsInRange(edges, reps)
    ensures |offsets| == |edges|
    ensures forall i | 0 <= i < |edges| :: offsets[i] == Replaced(edges, reps)[i].offsets
  {
    offsets := seq(|edges|, i requires 0 <= i < |edges| => edges[i].offsets);
    var j := 0;
    assert reps[..0] == [];
    while j < |reps|
      invariant 0 <= j <= |reps| && |offsets| == |edges|
      invariant forall i | 0 <= i < |edges| :: offsets[i] == Replaced(edges, reps[..j])[i].offsets
    {
      assert reps[..j + 1][..j] == reps[..j];
      offsets := offsets[reps[j].slotIndex := reps[j].slot.offsets];
      j := j + 1;
    }
    assert reps[..j] == reps;
  }

  // ----- a step that fails rules the diff out

  lemma AcceptedSteps(s: Schema, g: Graph, d: GraphDiff)
    requires Shaped(s, g) && WellKinded(s, d) && Accepts(s, g, d)
    ensures Classify(s, g, d.changes).Ok?
    ensures var c := Classify(s, g, d.changes).value;
            && FitUpTo(s, g, c.updates, |g.props|)
            && ClaimsInRange(g, c.claims)
            && NewValuesFitUpTo(s, g, c.updates, d.newNodes, |g.props|)
  {
    hide Classify, FitUpTo, UpdatesFit, ClaimsInRange, NewValuesFitUpTo, NewPropertiesFit, LiveEdges, LiveEdgeFits,
         TableAfter, Updated, EdgesAfter;
    var c := Classify(s, g, d.changes).value;
    UpdatesAccepted(s, g, c.updates);
    UpdatedWithinAfter(s, g, c.updates, d.newNodes);
    NewValuesAccepted(s, g, c.updates, d.newNodes);
    PropsAfterTables(s, g, c.updates, d.newNodes);
    var after := ApplyClassified(s, g, d, c);
    forall i | 0 <= i < |g.props|
      ensures TotalOf(TableAfter(s, g, c.updates, d.newNodes, i).runs) <= U32_MAX
    {
      assert TotalOf(after.props[i].runs) <= U32_MAX;
    }
  }

  lemma MeaningNodes(s: Schema, raw: RawGraph)
    requires s.Valid() && WellFormed(s, raw)
    ensures Meaning(s, raw).nodes == raw.nodes && |raw.nodes| == s.nodeKinds
    ensures |Meaning(s, raw).edges| == |raw.edges|
  {
  }

  lemma AllTexts(s: Schema, g: Graph, d: GraphDiff, start: seq<Text>, updates: Updates)
    requires |g.props| >= 0
    ensures InternedAll(InternedAll(InternedAll(start, UpdateTextsUpTo(g, updates, |g.props|)),
                                    NewNodeTextsUpTo(s, d.newNodes, |g.props|)),
                        EdgeTexts(d.newEdges))
         == InternedAll(start, DiffTexts(s, g, d, updates))
  {
    var a, b, c := UpdateTextsUpTo(g, updates, |g.props|), NewNodeTextsUpTo(s, d.newNodes, |g.props|),
        EdgeTexts(d.newEdges);
    InternedAllSplits(start, a, b);
    InternedAllSplits(start, a + b, c);
  }

  method CountNodes(nodes: seq<seq<bool>>) returns (counts: seq<nat>)
    ensures |counts| == |nodes| && forall k | 0 <= k < |nodes| :: counts[k] == |nodes[k]|
  {
    counts := seq(|nodes|, k requires 0 <= k < |nodes| => |nodes[k]|);
  }

  lemma CountsAgree(nodes: seq<seq<bool>>, newNodes: seq<NewNode>, oldCounts: seq<nat>, newCounts: seq<nat>)
    requires |nodes| == |oldCounts| == |newCounts|
    requires forall k | 0 <= k < |nodes| :: oldCounts[k] == |nodes[k]| && newCounts[k] == |OfKind(newNodes, k)|
    ensures CountsMatch(nodes, newNodes, oldCounts, newCounts)
  {
  }

  // ----- which error

  /** What the insert pass answers slot by slot is what the new edges mean for each slot. */
  lemma MidOutcomesMean(s: Schema, g: Graph, claims: Claims, newNodes: seq<NewNode>, live: seq<LiveEdge>,
                        mids: seq<EdgeSlot>, oldCounts: seq<nat>, newCounts: seq<nat>, strings: seq<Text>,
                        slots: seq<Option<SlotHalfEdges>>)
    requires Shaped(s, g) && MidsHold(s, g, claims, mids, strings) && |slots| == |mids|
    requires BucketsMean(s, Totals(g.nodes, newNodes), strings, slots, HalvesBySlot(s, live))
    requires CountsMatch(g.nodes, newNodes, oldCounts, newCounts)
    ensures MidOutcomes(s, mids, oldCounts, newCounts, slots, strings) == InsertOutcomes(s, g, claims, newNodes, live)
  {
    hide EdgeSlotOk, EdgeTable, Kept, Resolved, BucketOk, SlotHalves, SlotInsertOutcome, OfKind;
    forall i | 0 <= i < |mids|
      ensures MidOutcomes(s, mids, oldCounts, newCounts, slots, strings)[i]
           == InsertOutcomes(s, g, claims, newNodes, live)[i]
    {
      assert Resolved(strings, HalvesIn(slots[i])) == HalvesBySlot(s, live)[i];
    }
  }

  lemma PassesAre(s: Schema, g: Graph, d: GraphDiff, c: Classified, live: seq<LiveEdge>)
    requires Shaped(s, g) && live == LiveEdges(s, g.nodes, c.tombstones, d.newNodes, d.newEdges)
    ensures PassOutcomes(s, g, d, c)[..2]
         == [First(UpdateOutcomes(s, g, c.updates)), First(RemovalOutcomes(g, c.claims))]
    ensures PassOutcomes(s, g, d, c)[2] == First(AppendOutcomes(s, g, c.updates, d.newNodes))
    ensures PassOutcomes(s, g, d, c)[3] == First(InsertOutcomes(s, g, c.claims, d.newNodes, live))
  {
  }

  /** With the passes before it through, a pass that fails is what staging answers. */
  lemma PassFails<T>(outcomes: seq<Outcome<Error>>, i: nat, error: Error)
    requires i < |outcomes| && outcomes[i] == Err(error) && forall j | 0 <= j < i :: outcomes[j].Ok?
    ensures Answers(Result<T, Error>.Err(error), First(outcomes))
  {
    FirstFailsAt(outcomes, i);
  }

  lemma PrefixFails<T>(outcomes: seq<Outcome<Error>>, m: nat, error: Error)
    requires m <= |outcomes| && First(outcomes[..m]) == Err(error)
    ensures Answers(Result<T, Error>.Err(error), First(outcomes))
  {
    FirstStops(outcomes, m);
  }

  lemma PrefixPasses(outcomes: seq<Outcome<Error>>, m: nat)
    requires m <= |outcomes| && First(outcomes[..m]).Ok?
    ensures forall j | 0 <= j < m :: outcomes[j].Ok?
  {
    FirstOk(outcomes[..m]);
  }

  lemma PassesSucceed<T>(outcomes: seq<Outcome<Error>>, value: T)
    requires forall j | 0 <= j < |outcomes| :: outcomes[j].Ok?
    ensures Answers(Result<T, Error>.Ok(value), First(outcomes))
  {
    FirstOk(outcomes);
  }

  lemma StageAnswers<T>(s: Schema, g: Graph, d: GraphDiff, r: Result<T, Error>)
    requires Shaped(s, g) && WellKinded(s, d)
    requires var c := Classify(s, g, d.changes);
             if c.Ok? then Answers(r, First(PassOutcomes(s, g, d, c.value))) else r == Err(c.error)
    ensures Answers(r, StageOutcome(s, g, d))
  {
    hide Classify, First, PassOutcomes;
  }

  /** The slots that are rebuilt: those with updates, then those that lose half-edges. */
  method StageReplacements(s: Schema, edges: seq<EdgeSlot>, props: seq<PropertySlot>, pending: Pending,
                           strings: StringsPool, ghost texts: set<Text>, ghost raw: RawGraph, ghost g: Graph,
                           ghost c: Classified)
    returns (r: Result<(seq<Replacement<PropertySlot>>, seq<Replacement<EdgeSlot>>), Error>)
    requires s.Valid() && PoolReady(strings, texts)
    requires raw.edges == edges && raw.props == props && raw.strings == strings.List()
    requires WellFormed(s, raw) && g == Meaning(s, raw) && Holds(s, g, pending, c)
    requires forall i, v, x | (i, v) in c.updates && x in TextsOf(c.updates[(i, v)]) :: x in texts
    modifies strings, strings.tags, strings.slots
    ensures PoolReady(strings, texts)
    ensures (strings.tags == old(strings.tags) || fresh(strings.tags))
            && (strings.slots == old(strings.slots) || fresh(strings.slots))
    ensures old(strings.List()) <= strings.List()
    ensures r.Ok? <==> FitUpTo(s, g, c.updates, |g.props|) && ClaimsInRange(g, c.claims)
    ensures Answers(r, First([First(UpdateOutcomes(s, g, c.updates)), First(RemovalOutcomes(g, c.claims))]))
    ensures r.Ok? ==>
              && PropsUpTo(s, g, c.updates, Replaced(props, r.value.0), props, strings.List(), |props|)
              && ReplacedInUse(props, r.value.0)
              && AllCompacted(s, raw, c.claims, Replaced(edges, r.value.1))
              && ReplacementsInRange(edges, r.value.1)
              && strings.List() == InternedAll(old(strings.List()), UpdateTextsUpTo(g, c.updates, |g.props|))
  {
    hide *;
    ghost var outcomes := [First(UpdateOutcomes(s, g, c.updates)), First(RemovalOutcomes(g, c.claims))];
    UpdatesHeld(s, g, pending, c);
    UpdatesStart(s, raw, c.updates);
    var propReps := PreparePropertyUpdates(s, props, strings, pending.updates, g, c.updates, texts);
    AnswersReads(propReps, outcomes[0]);
    if propReps.Err? {
      PassFails<(seq<Replacement<PropertySlot>>, seq<Replacement<EdgeSlot>>)>(outcomes, 0, propReps.error);
      return Err(propReps.error);
    }
    var edgeReps := PrepareEdgeRemovals(s, edges, pending.claims, raw, c.claims);
    AnswersReads(edgeReps, outcomes[1]);
    if edgeReps.Err? {
      PassFails<(seq<Replacement<PropertySlot>>, seq<Replacement<EdgeSlot>>)>(outcomes, 1, edgeReps.error);
      return Err(edgeReps.error);
    }
    PassesSucceed(outcomes, (propReps.value, edgeReps.value));
    return Ok((propReps.value, edgeReps.value));
  }

  /** The new edges' half of staging: their halves bucketed, and each slot's insert worked out. */
  method StageInserts(s: Schema, d: GraphDiff, nodes: seq<seq<bool>>, tombstones: seq<RawNodeId>, oldCounts: seq<nat>,
                      newCounts: seq<nat>, remap: seq<NewNodeId>, offsets: seq<seq<u32>>, strings: StringsPool,
                      ghost texts: set<Text>, ghost raw: RawGraph, ghost g: Graph, ghost c: Classified,
                      ghost mids: seq<EdgeSlot>, ghost live: seq<LiveEdge>)
    returns (r: Result<seq<EdgeSlotInsert>, Error>)
    requires s.Valid() && WellFormed(s, raw) && g == Meaning(s, raw) && nodes == g.nodes
    requires WellKinded(s, d) && Classify(s, g, d.changes) == Ok(c) && tombstones == c.tombstones
    requires CountsMatch(nodes, d.newNodes, oldCounts, newCounts) && remap == Remapped(nodes, d.newNodes)
    requires PoolReady(strings, texts) && raw.strings <= strings.List()
    requires forall x <- EdgeTexts(d.newEdges) :: x in texts
    requires AllCompacted(s, raw, c.claims, mids)
    requires |offsets| == |mids| && forall i | 0 <= i < |mids| :: offsets[i] == mids[i].offsets
    requires live == LiveEdges(s, g.nodes, c.tombstones, d.newNodes, d.newEdges)
    modifies strings, strings.tags, strings.slots
    ensures PoolReady(strings, texts)
    ensures (strings.tags == old(strings.tags) || fresh(strings.tags))
            && (strings.slots == old(strings.slots) || fresh(strings.slots))
    ensures old(strings.List()) <= strings.List() == InternedAll(old(strings.List()), EdgeTexts(d.newEdges))
    ensures Answers(r, First(InsertOutcomes(s, g, c.claims, d.newNodes, live)))
    ensures Accepts(s, g, d)
       <==> && FitUpTo(s, g, c.updates, |g.props|)
            && ClaimsInRange(g, c.claims)
            && NewValuesFitUpTo(s, g, c.updates, d.newNodes, |g.props|)
            && r.Ok?
    ensures r.Ok? ==>
              && |mids| == |g.edges|
              && SlotsRise(r.value, |mids|)
              && forall i | 0 <= i < |mids| ::
                   InsertLeadsTo(mids[i], EdgeTypeAt(s, i), strings.List(),
                                 EdgesAfter(s, g, c.claims, d.newNodes, live)[i], InsertFor(r.value, i))
  {
    hide *;
    WellKindedReads(s, d);
    MeaningNodes(s, raw);
    var buckets := StageNewEdges(s, nodes, tombstones, oldCounts, newCounts, remap, d.newEdges, strings, d.newNodes,
                                 texts);
    ghost var now := strings.List();
    MidsFromCompacted(s, raw, c.claims, mids, now);
    InsertsStart(s, g, c.claims, d.newNodes, live, mids, offsets, oldCounts, newCounts, now, buckets.slots);
    AcceptsSplits(s, g, d, mids, now, buckets.slots);
    r := PrepareNewEdges(s, offsets, oldCounts, newCounts, buckets.slots, mids, now);
    MidOutcomesMean(s, g, c.claims, d.newNodes, live, mids, oldCounts, newCounts, now, buckets.slots);
    if r.Ok? {
      InsertsLead(s, g, c.claims, d.newNodes, live, mids, oldCounts, newCounts, now, buckets.slots, r.value);
    }
  }

  /** The slot passes of staging, once the changes are classified. */
  method StageSlots(s: Schema, d: GraphDiff, nodes: seq<seq<bool>>, edges: seq<EdgeSlot>, props: seq<PropertySlot>,
                    pending: Pending, strings: StringsPool, ghost texts: set<Text>, ghost raw: RawGraph,
                    ghost g: Graph, ghost c: Classified)
    returns (r: Result<StagedParts, Error>)
    requires s.Valid() && PoolReady(strings, texts) && Covers(texts, d)
    requires raw == RawGraph(nodes, edges, props, strings.List()) && WellFormed(s, raw) && g == Meaning(s, raw)
    requires WellKinded(s, d) && Classify(s, g, d.changes) == Ok(c) && Holds(s, g, pending, c)
    modifies strings, strings.tags, strings.slots
    ensures PoolReady(strings, texts)
    ensures (strings.tags == old(strings.tags) || fresh(strings.tags))
            && (strings.slots == old(strings.slots) || fresh(strings.slots))
    ensures old(strings.List()) <= strings.List()
    ensures r.Ok? <==> Accepts(s, g, d)
    ensures Answers(r, First(PassOutcomes(s, g, d, c)))
    ensures r.Ok? ==>
              && PartsReady(s, g, d, c, raw.(strings := strings.List()), r.value)
              && strings.List() == InternedAll(old(strings.List()), DiffTexts(s, g, d, c.updates))
  {
    hide *;
    ghost var live := LiveEdges(s, g.nodes, c.tombstones, d.newNodes, d.newEdges);
    ghost var outcomes := PassOutcomes(s, g, d, c);
    PassesAre(s, g, d, c, live);
    WellKindedReads(s, d);
    MeaningNodes(s, raw);
    DiffTextsCovered(s, g, d, texts);
    if Accepts(s, g, d) {
      AcceptedSteps(s, g, d);
    }
    UpdatesHeld(s, g, pending, c);
    var reps := StageReplacements(s, edges, props, pending, strings, texts, raw, g, c);
    AnswersReads(reps, First(outcomes[..2]));
    if reps.Err? {
      PrefixFails<StagedParts>(outcomes, 2, reps.error);
      return Err(reps.error);
    }
    PrefixPasses(outcomes, 2);
    var propReps, edgeReps := reps.value.0, reps.value.1;
    ghost var propMids, edgeMids := Replaced(props, propReps), Replaced(edges, edgeReps);
    var lasts := LastOffsets(props, propReps);
    var offsets := EdgeBaselines(edges, edgeReps);

    var oldCounts := CountNodes(nodes);
    var newCounts := CountNewNodes(s, d.newNodes);
    CountsAgree(nodes, d.newNodes, oldCounts, newCounts);
    var metas, remap, values := StageNewNodes(s, d.newNodes, oldCounts, newCounts, nodes);
    AppendsStart(s, raw, c.updates, d.newNodes, lasts, propMids, oldCounts, newCounts, values);
    var propApps := PrepareNewNodeProperties(s, props, strings, oldCounts, newCounts, values, lasts, g, c.updates,
                                             d.newNodes, propMids, texts);
    AnswersReads(propApps, outcomes[2]);
    if propApps.Err? {
      PassFails<StagedParts>(outcomes, 2, propApps.error);
      return Err(propApps.error);
    }
    ghost var beforeEdges := strings.List();
    var inserts := StageInserts(s, d, nodes, pending.tombstones, oldCounts, newCounts, remap, offsets, strings, texts,
                                raw, g, c, edgeMids, live);
    ghost var now := strings.List();
    AnswersReads(inserts, outcomes[3]);
    if inserts.Err? {
      PassFails<StagedParts>(outcomes, 3, inserts.error);
      return Err(inserts.error);
    }
    var parts := StagedParts(metas, remap, pending.tombstones, propReps, edgeReps, propApps.value,
                             inserts.value);
    PropsAreLater(s, g, c.updates, d.newNodes, AppendedProps(propMids, propApps.value), beforeEdges, now);
    AllTexts(s, g, d, raw.strings, c.updates);
    PartsAreReady(s, g, d, c, raw.(strings := now), parts, live);
    PassesSucceed(outcomes, parts);
    return Ok(parts);
  }

  /**
   Works out every write the diff implies, or the first reason it cannot be applied: the first
   change that does not classify, or else what the first slot pass to fail met first. Strings
   interned on the way are left in the pool; `Prepare` cuts it back when staging fails.
   */
  method Stage(s: Schema, d: GraphDiff, nodes: seq<seq<bool>>, edges: seq<EdgeSlot>, props: seq<PropertySlot>,
               strings: StringsPool, ghost texts: set<Text>, ghost raw: RawGraph)
    returns (r: Result<StagedParts, Error>)
    requires s.Valid() && PoolReady(strings, texts) && Covers(texts, d)
    requires raw == RawGraph(nodes, edges, props, strings.List()) && WellFormed(s, raw)
    requires WellKinded(s, d) && HandlesInRange(s, Meaning(s, raw), d.changes)
    requires EndsFit(s, Remapped(nodes, d.newNodes), d.newEdges)
    modifies strings, strings.tags, strings.slots
    ensures PoolReady(strings, texts)
    ensures (strings.tags == old(strings.tags) || fresh(strings.tags))
            && (strings.slots == old(strings.slots) || fresh(strings.slots))
    ensures old(strings.List()) <= strings.List()
    ensures r.Ok? <==> Accepts(s, Meaning(s, raw), d)
    ensures Answers(r, StageOutcome(s, Meaning(s, raw), d))
    ensures r.Ok? ==>
              var g, c := Meaning(s, raw), Classify(s, Meaning(s, raw), d.changes);
              && c.Ok?
              && PartsReady(s, g, d, c.value, raw.(strings := strings.List()), r.value)
              && strings.List() == InternedAll(old(strings.List()), DiffTexts(s, g, d, c.value.updates))
  {
    hide *;
    ghost var g := Meaning(s, raw);
    PoolDistinct(strings, texts);
    WellKindedReads(s, d);
    if Accepts(s, g, d) {
      AcceptedSteps(s, g, d);
    }
    var pending := ClassifyChanges(s, nodes, edges, d.changes, raw);
    if pending.Err? {
      r := Err(pending.error);
    } else {
      r := StageSlots(s, d, nodes, edges, props, pending.value, strings, texts, raw, g,
                      Classify(s, g, d.changes).value);
    }
    StageAnswers(s, g, d, r);
  }

  lemma PartsAreReady(s: Schema, g: Graph, d: GraphDiff, c: Classified, raw: RawGraph, parts: StagedParts,
                      live: seq<LiveEdge>)
    requires Shaped(s, g) && raw.nodes == g.nodes
    requires parts.tombstones == c.tombstones && parts.remap == Remapped(g.nodes, d.newNodes)
    requires FreshMetas(g.nodes, d.newNodes, parts.newMetas)
    requires live == LiveEdges(s, g.nodes, c.tombstones, d.newNodes, d.newEdges)
    requires ReplacedInUse(raw.props, parts.propReplacements)
    requires var mids := Replaced(raw.props, parts.propReplacements);
             && AppendsReady(mids, parts.propAppends)
             && PropsAre(s, g, c.updates, d.newNodes, AppendedProps(mids, parts.propAppends), raw.strings)
    requires ReplacementsInRange(raw.edges, parts.edgeReplacements)
    requires var mids := Replaced(raw.edges, parts.edgeReplacements);
             && |mids| == |g.edges|
             && SlotsRise(parts.edgeInserts, |mids|)
             && forall i | 0 <= i < |mids| ::
                  InsertLeadsTo(mids[i], EdgeTypeAt(s, i), raw.strings, EdgesAfter(s, g, c.claims, d.newNodes, live)[i],
                                InsertFor(parts.edgeInserts, i))
    ensures PartsReady(s, g, d, c, raw, parts)
  {
    hide InsertLeadsTo, EdgesAfter, PropsAre, AppendsReady, Replaced, AppendedProps, InsertFor, LiveEdges;
  }
}
