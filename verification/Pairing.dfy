/** Removing and adding edges keeps Out and In halves paired. */
module Pairing {
  import opened Wrappers
  import opened Storage
  import opened Schemas
  import opened Graphs
  import opened Diffs
  import opened EdgeBags
  import opened Keeping

  // ----- removal

  /** The handle's position really holds a half leading to the other end. */
  ghost predicate Fresh(s: Schema, g: Graph, edge: RawEdgeId)
    requires Shaped(s, g)
  {
    var h := edge.handle;
    && h.kind < |s.edgeTypes| && h.direction < 2
    && var d := if h.direction == 0 then In else Out;
       var primary := edge.Primary(d);
       && primary.kind < s.nodeKinds
       && primary.seqNo < |g.nodes[primary.kind]|
       && var i := s.EdgeStorageSlot(primary.kind, d, h.kind);
          && i < |g.edges| && primary.seqNo < |g.edges[i].runs|
          && h.seqNo < |g.edges[i].runs[primary.seqNo]|
          && g.edges[i].runs[primary.seqNo][h.seqNo].neighbor == edge.Secondary(d)
  }

  /** Claims name positions of the runs they are made in, each once. */
  ghost predicate ClaimsSound(g: Graph, claims: Claims) {
    && (forall i, v, p | 0 <= i < |g.edges| && 0 <= v < |g.edges[i].runs| && p in At(claims, i, v) ::
          p < |g.edges[i].runs[v]|)
    && forall i, v | 0 <= i < |g.edges| && 0 <= v < |g.edges[i].runs| :: Distinct(At(claims, i, v))
  }

  /** The unclaimed Out halves and the unclaimed In halves record the same edges equally often. */
  ghost predicate KeptPaired(s: Schema, g: Graph, claims: Claims)
    requires Shaped(s, g)
  {
    forall e: nat | e < |s.edgeTypes| :: Bag(s, EdgesKept(g, claims), Out, e) == Bag(s, EdgesKept(g, claims), In, e)
  }

  /** Removing one more position removes exactly that half. */
  lemma {:induction false} KeepOneLess<V>(owner: RawNodeId, d: Direction, run: seq<Half<V>>, removed: seq<nat>, p: nat)
    requires p < |run| && p !in removed
    ensures RunBag(owner, d, Keep(run, removed))
         == RunBag(owner, d, Keep(run, removed + [p])) + multiset{Canon(owner, d, run[p])}
  {
    var last := |run| - 1;
    var before, after := Keep(run[..last], removed), Keep(run[..last], removed + [p]);
    if p < last {
      KeepOneLess(owner, d, run[..last], removed, p);
      if last in removed {
        assert last in removed + [p];
        assert Keep(run, removed) == before && Keep(run, removed + [p]) == after;
      } else {
        assert last !in removed + [p];
        RunBagJoins(owner, d, before, [run[last]]);
        RunBagJoins(owner, d, after, [run[last]]);
      }
    } else {
      KeepAgrees(run[..last], removed, removed + [p]);
      RunBagJoins(owner, d, before, [run[last]]);
      RunBagOne(owner, d, run[last]);
      assert p in removed + [p];
      assert Keep(run, removed + [p]) == after;
    }
  }

  /** Claiming a position takes one edge out of its side, and leaves every other side alone. */
  lemma ClaimDrops(s: Schema, g: Graph, claims: Claims, k: nat, d: Direction, e: nat, v: nat, p: nat)
    requires Shaped(s, g) && k < s.nodeKinds && e < |s.edgeTypes| && s.EdgeStorageSlot(k, d, e) < |g.edges|
    requires v < |g.edges[s.EdgeStorageSlot(k, d, e)].runs| && p < |g.edges[s.EdgeStorageSlot(k, d, e)].runs[v]|
    requires p !in At(claims, s.EdgeStorageSlot(k, d, e), v)
    ensures var i := s.EdgeStorageSlot(k, d, e);
            var claims' := Claim(claims, i, v, p);
            && Bag(s, EdgesKept(g, claims'), d, e) + multiset{Canon(NodeAt(k, v), d, g.edges[i].runs[v][p])}
               == Bag(s, EdgesKept(g, claims), d, e)
            && forall d', e': nat | e' < |s.edgeTypes| && (d', e') != (d, e) ::
                 Bag(s, EdgesKept(g, claims'), d', e') == Bag(s, EdgesKept(g, claims), d', e')
  {
    hide Bag, RunBag, Keep, Schema.EdgeStorageSlot, Canon, NodeAt;
    var i := s.EdgeStorageSlot(k, d, e);
    var run, removed, claims' := g.edges[i].runs[v], At(claims, i, v), Claim(claims, i, v, p);
    var kept, kept' := EdgesKept(g, claims), EdgesKept(g, claims');
    KeptOneMore(g, claims, i, v, p);
    RunReplaced(s, kept, k, d, e, v, Keep(run, removed + [p]), kept'[i]);
    KeepOneLess(NodeAt(k, v), d, run, removed, p);
    DropBoth(Bag(s, kept', d, e), Bag(s, kept, d, e), RunBag(NodeAt(k, v), d, Keep(run, removed)),
             RunBag(NodeAt(k, v), d, Keep(run, removed + [p])), multiset{Canon(NodeAt(k, v), d, run[p])});
  }

  lemma DropBoth<T>(a: multiset<T>, b: multiset<T>, x: multiset<T>, y: multiset<T>, z: multiset<T>)
    requires a + x == b + y && x == y + z
    ensures a + z == b
  {
    forall t
      ensures (a + z)[t] == b[t]
    {
      assert (a + x)[t] == (b + y)[t];
    }
  }

  lemma KeptOneMore(g: Graph, claims: Claims, i: nat, v: nat, p: nat)
    requires i < |g.edges| && v < |g.edges[i].runs|
    ensures var kept, kept' := EdgesKept(g, claims), EdgesKept(g, Claim(claims, i, v, p));
            && kept' == kept[i := kept'[i]]
            && kept[i].runs[v] == Keep(g.edges[i].runs[v], At(claims, i, v))
            && kept'[i].runs == kept[i].runs[v := Keep(g.edges[i].runs[v], At(claims, i, v) + [p])]
  {
    hide Keep;
    var claims' := Claim(claims, i, v, p);
    assert forall j, w :: At(claims', j, w) == if j == i && w == v then At(claims, i, v) + [p] else At(claims, j, w);
    var kept, kept' := EdgesKept(g, claims), EdgesKept(g, claims');
    forall j | 0 <= j < |g.edges| && j != i
      ensures kept'[j] == kept[j]
    {
      assert kept'[j].runs == kept[j].runs;
    }
    assert kept'[i].runs == kept[i].runs[v := Keep(g.edges[i].runs[v], At(claims, i, v) + [p])];
  }

  /** A half of a coherent graph carries no value exactly when its kind declares none. */
  lemma ValuesDeclared(s: Schema, g: Graph, i: nat, v: nat, p: nat)
    requires s.Valid() && Coherent(s, g) && i < |g.edges| && v < |g.edges[i].runs| && p < |g.edges[i].runs[v]|
    ensures s.EdgeSlotEdge(i) < |s.edgeTypes|
    ensures g.edges[i].runs[v][p].value.None? <==> s.edgeTypes[s.EdgeSlotEdge(i)] == NoType
    ensures NodeExists(s, Counts(g.nodes), g.edges[i].runs[v][p].neighbor) && g.edges[i].used
  {
    hide Paired, Shaped, NodeExists, PayloadOk;
    assert EdgeTableOk(s, Counts(g.nodes), s.EdgeSlotEdge(i), g.edges[i]) && UnusedEmpty(g.edges[i]);
    assert HalfOk(s, Counts(g.nodes), s.EdgeSlotEdge(i), g.edges[i].runs[v][p]);
  }

  /** A sequence number of a coherent graph is below the clamp. */
  lemma NodeIsItself(s: Schema, g: Graph, k: nat, v: nat)
    requires s.Valid() && Coherent(s, g) && k < |g.nodes| && v < |g.nodes[k]|
    ensures NodeAt(k, v).kind == k && NodeAt(k, v).seqNo == v
  {
    hide Paired;
    SumBounds(Counts(g.nodes), k);
  }

  /** While the unclaimed halves pair up, the half a removal claims has an unclaimed partner at the other end. */
  lemma PartnerThere(s: Schema, g: Graph, claims: Claims, k: nat, d: Direction, e: nat, v: nat, p: nat)
    returns (q: nat)
    requires s.Valid() && Coherent(s, g) && KeptPaired(s, g, claims)
    requires k < s.nodeKinds && e < |s.edgeTypes| && s.EdgeStorageSlot(k, d, e) < |g.edges|
    requires v < |g.edges[s.EdgeStorageSlot(k, d, e)].runs| && p < |g.edges[s.EdgeStorageSlot(k, d, e)].runs[v]|
    requires p !in At(claims, s.EdgeStorageSlot(k, d, e), v)
    ensures var half := g.edges[s.EdgeStorageSlot(k, d, e)].runs[v][p];
            var i := s.EdgeStorageSlot(half.neighbor.kind, d.Flip(), e);
            && half.neighbor.kind < s.nodeKinds && i < |g.edges|
            && half.neighbor.seqNo < |g.edges[i].runs| && q < |g.edges[i].runs[half.neighbor.seqNo]|
            && g.edges[i].runs[half.neighbor.seqNo][q] == Half(NodeAt(k, v), half.value)
            && q !in At(claims, i, half.neighbor.seqNo)
  {
    hide Bag, RunBag, Coherent, Keep;
    var half := g.edges[s.EdgeStorageSlot(k, d, e)].runs[v][p];
    var x := Canon(NodeAt(k, v), d, half);
    CoherentShape(s, g);
    ClaimDrops(s, g, claims, k, d, e, v, p);
    InOther(s, g, claims, d, e, x, Bag(s, EdgesKept(g, Claim(claims, s.EdgeStorageSlot(k, d, e), v, p)), d, e));
    var k', w, q' := BagHas(s, EdgesKept(g, claims), d.Flip(), e, x);
    s.EdgeSlotOf(k', d.Flip(), e);
    var i := s.EdgeStorageSlot(k', d.Flip(), e);
    NodeIsItself(s, g, k', w);
    assert NodeAt(k', w) == half.neighbor;
    var run, removed := g.edges[i].runs[w], At(claims, i, w);
    assert EdgesKept(g, claims)[i].runs[w] == Keep(run, removed);
    KeepMembers(run, removed, Keep(run, removed)[q']);
    q :| 0 <= q < |run| && q !in removed && run[q] == Keep(run, removed)[q'];
  }

  lemma CoherentShape(s: Schema, g: Graph)
    requires s.Valid() && Coherent(s, g)
    ensures Shaped(s, g) && SumOf(Counts(g.nodes)) <= U32_MAX
  {
  }

  lemma InOther(s: Schema, g: Graph, claims: Claims, d: Direction, e: nat, x: Edge<PropertyValue>,
                rest: multiset<Edge<PropertyValue>>)
    requires Shaped(s, g) && KeptPaired(s, g, claims) && e < |s.edgeTypes|
    requires rest + multiset{x} == Bag(s, EdgesKept(g, claims), d, e)
    ensures x in Bag(s, EdgesKept(g, claims), d.Flip(), e)
  {
    assert x in rest + multiset{x};
  }

  /** The search for a partner settles on a half that records the very same edge. */
  lemma SearchFindsPartner(run: seq<Half<PropertyValue>>, target: RawNodeId, excluded: seq<nat>,
                           wanted: Option<PropertyValue>, q: nat)
    requires q < |run| && q !in excluded && run[q] == Half(target, wanted)
    requires wanted.None? ==> forall j | 0 <= j < |run| :: run[j].value.None?
    ensures var found := ReverseHalf(run, target, excluded, wanted);
            found.Some? && found.value < |run| && found.value !in excluded && run[found.value] == Half(target, wanted)
  {
  }

  /** A removal of a half not claimed yet claims that half and, at the other end, one recording the same edge. */
  lemma ClaimFindsBoth(s: Schema, g: Graph, claims: Claims, edge: RawEdgeId, d: Direction, i: nat, i': nat)
    returns (f: nat)
    requires s.Valid() && Coherent(s, g) && Fresh(s, g, edge) && KeptPaired(s, g, claims)
    requires d == if edge.handle.direction == 0 then In else Out
    requires edge.Secondary(d).kind < s.nodeKinds
    requires i == s.EdgeStorageSlot(edge.Primary(d).kind, d, edge.handle.kind)
    requires i' == s.EdgeStorageSlot(edge.Secondary(d).kind, d.Flip(), edge.handle.kind)
    requires edge.handle.seqNo !in At(claims, i, edge.Primary(d).seqNo)
    ensures i' < |g.edges| && i != i'
    ensures var run := g.edges[i'].runs;
            && edge.Secondary(d).seqNo < |run| && f < |run[edge.Secondary(d).seqNo]|
            && run[edge.Secondary(d).seqNo][f]
               == Half(edge.Primary(d), g.edges[i].runs[edge.Primary(d).seqNo][edge.handle.seqNo].value)
    ensures var claims1 := Claim(claims, i, edge.Primary(d).seqNo, edge.handle.seqNo);
            && f !in At(claims1, i', edge.Secondary(d).seqNo)
            && At(claims1, i', edge.Secondary(d).seqNo) == At(claims, i', edge.Secondary(d).seqNo)
            && ClaimEdge(s, g, claims, edge) == Ok(Claim(claims1, i', edge.Secondary(d).seqNo, f))
  {
    hide Coherent, Bag, Keep, ReverseHalf, KeptPaired, Schema.EdgeStorageSlot;
    CoherentShape(s, g);
    var h, primary, secondary := edge.handle, edge.Primary(d), edge.Secondary(d);
    s.EdgeSlotOf(primary.kind, d, h.kind);
    s.EdgeSlotOf(secondary.kind, d.Flip(), h.kind);
    var q := PartnerThere(s, g, claims, primary.kind, d, h.kind, primary.seqNo, h.seqNo);
    assert s.EdgeSlotDirection(i) != s.EdgeSlotDirection(i');
    var claims1 := Claim(claims, i, primary.seqNo, h.seqNo);
    assert At(claims1, i', secondary.seqNo) == At(claims, i', secondary.seqNo);
    var half, run := g.edges[i].runs[primary.seqNo][h.seqNo], g.edges[i'].runs[secondary.seqNo];
    ValuesDeclared(s, g, i, primary.seqNo, h.seqNo);
    forall j | 0 <= j < |run|
      ensures run[j].value.None? <==> half.value.None?
      ensures g.edges[i'].used
    {
      ValuesDeclared(s, g, i', secondary.seqNo, j);
    }
    NodeIsItself(s, g, primary.kind, primary.seqNo);
    SearchFindsPartner(run, primary, At(claims1, i', secondary.seqNo), half.value, q);
    f := ReverseHalf(run, primary, At(claims1, i', secondary.seqNo), half.value).value;
  }

  /**
   A removal with a fresh handle claims a half at each end, both recording the same edge, and
   the halves that are left still pair up. A position that is already claimed changes nothing.
   */
  lemma ClaimKeepsPairing(s: Schema, g: Graph, claims: Claims, edge: RawEdgeId)
    requires s.Valid() && Coherent(s, g) && Fresh(s, g, edge)
    requires ClaimsSound(g, claims) && KeptPaired(s, g, claims)
    ensures ClaimEdge(s, g, claims, edge).Ok?
    ensures ClaimsSound(g, ClaimEdge(s, g, claims, edge).value) && KeptPaired(s, g, ClaimEdge(s, g, claims, edge).value)
    ensures BothHalvesClaimed(s, g, claims, edge, ClaimEdge(s, g, claims, edge).value)
  {
    hide Coherent, KeptPaired, Schema.EdgeStorageSlot, ClaimReverse, ClaimsSound, At, Claim;
    CoherentShape(s, g);
    var h := edge.handle;
    var d := if h.direction == 0 then In else Out;
    var primary, secondary := edge.Primary(d), edge.Secondary(d);
    var i := s.EdgeStorageSlot(primary.kind, d, h.kind);
    if h.seqNo !in At(claims, i, primary.seqNo) {
      NeighborThere(s, g, i, primary.seqNo, h.seqNo);
      var i' := s.EdgeStorageSlot(secondary.kind, d.Flip(), h.kind);
      var f := ClaimFindsBoth(s, g, claims, edge, d, i, i');
      var claims1 := Claim(claims, i, primary.seqNo, h.seqNo);
      var claims2 := Claim(claims1, i', secondary.seqNo, f);
      ClaimedOnce(g, claims, i, primary.seqNo, h.seqNo);
      ClaimedOnce(g, claims1, i', secondary.seqNo, f);
      BothDropped(s, g, claims, claims1, claims2, d, h.kind, primary, h.seqNo, secondary, f);
      assert BothHalvesClaimed(s, g, claims, edge, claims2);
    }
  }

  lemma NeighborThere(s: Schema, g: Graph, i: nat, v: nat, p: nat)
    requires s.Valid() && Coherent(s, g) && i < |g.edges| && v < |g.edges[i].runs| && p < |g.edges[i].runs[v]|
    ensures g.edges[i].runs[v][p].neighbor.kind < s.nodeKinds
  {
    hide Paired, Shaped;
    assert EdgeTableOk(s, Counts(g.nodes), s.EdgeSlotEdge(i), g.edges[i]);
    assert HalfOk(s, Counts(g.nodes), s.EdgeSlotEdge(i), g.edges[i].runs[v][p]);
  }

  /** The handle of the same edge seen from its other end, at position `f` there. */
  function OtherHandle(edge: RawEdgeId, f: u32): RawEdgeId {
    edge.(handle := EdgeHandle(edge.handle.kind, if edge.handle.direction == 0 then 1 else 0, f))
  }

  /** Once a removal has gone through, repeating it from either end claims nothing more. */
  lemma RemovedFromEitherEnd(s: Schema, g: Graph, claims: Claims, edge: RawEdgeId, f: u32)
    requires s.Valid() && Coherent(s, g) && Fresh(s, g, edge)
    requires ClaimsSound(g, claims) && KeptPaired(s, g, claims)
    requires var d := if edge.handle.direction == 0 then In else Out;
             var i' := s.EdgeStorageSlot(edge.Secondary(d).kind, d.Flip(), edge.handle.kind);
             && edge.handle.seqNo !in At(claims, s.EdgeStorageSlot(edge.Primary(d).kind, d, edge.handle.kind),
                                         edge.Primary(d).seqNo)
             && f !in At(claims, i', edge.Secondary(d).seqNo)
             && ClaimEdge(s, g, claims, edge).Ok?
             && f in At(ClaimEdge(s, g, claims, edge).value, i', edge.Secondary(d).seqNo)
    ensures var claims' := ClaimEdge(s, g, claims, edge).value;
            && ClaimEdge(s, g, claims', edge) == Ok(claims')
            && ClaimEdge(s, g, claims', OtherHandle(edge, f)) == Ok(claims')
  {
    hide Coherent, KeptPaired, ClaimsSound, Schema.EdgeStorageSlot, ReverseHalf;
    CoherentShape(s, g);
    ClaimKeepsPairing(s, g, claims, edge);
    var h := edge.handle;
    var d := if h.direction == 0 then In else Out;
    var primary, secondary := edge.Primary(d), edge.Secondary(d);
    s.EdgeSlotOf(primary.kind, d, h.kind);
    var i := s.EdgeStorageSlot(primary.kind, d, h.kind);
    ValuesDeclared(s, g, i, primary.seqNo, h.seqNo);
    s.EdgeSlotOf(secondary.kind, d.Flip(), h.kind);
    var i' := s.EdgeStorageSlot(secondary.kind, d.Flip(), h.kind);
    assert s.EdgeSlotDirection(i) != s.EdgeSlotDirection(i');
    assert OtherHandle(edge, f).Primary(d.Flip()) == secondary;
  }

  lemma ClaimedOnce(g: Graph, claims: Claims, i: nat, v: nat, p: nat)
    requires ClaimsSound(g, claims) && i < |g.edges| && v < |g.edges[i].runs| && p < |g.edges[i].runs[v]|
    requires p !in At(claims, i, v)
    ensures ClaimsSound(g, Claim(claims, i, v, p))
  {
    var claims' := Claim(claims, i, v, p);
    assert forall j, w :: At(claims', j, w) == if j == i && w == v then At(claims, i, v) + [p] else At(claims, j, w);
  }

  /** Either the handle's half was claimed before, or its half and an equal one at the other end now are. */
  ghost predicate BothHalvesClaimed(s: Schema, g: Graph, claims: Claims, edge: RawEdgeId, after: Claims)
    requires Shaped(s, g) && Fresh(s, g, edge)
  {
    var h := edge.handle;
    var d := if h.direction == 0 then In else Out;
    var primary, secondary := edge.Primary(d), edge.Secondary(d);
    var i, i' := s.EdgeStorageSlot(primary.kind, d, h.kind), s.EdgeStorageSlot(secondary.kind, d.Flip(), h.kind);
    if h.seqNo in At(claims, i, primary.seqNo) then after == claims
    else
      && i' < |g.edges| && secondary.seqNo < |g.edges[i'].runs|
      && exists f: nat ::
           && f < |g.edges[i'].runs[secondary.seqNo]|
           && f !in At(claims, i', secondary.seqNo)
           && g.edges[i'].runs[secondary.seqNo][f]
              == Half(primary, g.edges[i].runs[primary.seqNo][h.seqNo].value)
           && after == Claim(Claim(claims, i, primary.seqNo, h.seqNo), i', secondary.seqNo, f)
  }

  lemma BothDropped(s: Schema, g: Graph, claims: Claims, claims1: Claims, claims2: Claims, d: Direction, e: nat,
                    primary: RawNodeId, p: nat, secondary: RawNodeId, f: nat)
    requires s.Valid() && Shaped(s, g) && KeptPaired(s, g, claims) && e < |s.edgeTypes|
    requires primary.kind < s.nodeKinds && secondary.kind < s.nodeKinds
    requires s.EdgeStorageSlot(primary.kind, d, e) < |g.edges|
             && s.EdgeStorageSlot(secondary.kind, d.Flip(), e) < |g.edges|
    requires var runs := g.edges[s.EdgeStorageSlot(primary.kind, d, e)].runs;
             && primary.seqNo < |runs| && p < |runs[primary.seqNo]| && runs[primary.seqNo][p].neighbor == secondary
    requires var runs := g.edges[s.EdgeStorageSlot(secondary.kind, d.Flip(), e)].runs;
             && secondary.seqNo < |runs| && f < |runs[secondary.seqNo]|
             && runs[secondary.seqNo][f]
                == Half(primary, g.edges[s.EdgeStorageSlot(primary.kind, d, e)].runs[primary.seqNo][p].value)
    requires p !in At(claims, s.EdgeStorageSlot(primary.kind, d, e), primary.seqNo)
    requires f !in At(claims1, s.EdgeStorageSlot(secondary.kind, d.Flip(), e), secondary.seqNo)
    requires claims1 == Claim(claims, s.EdgeStorageSlot(primary.kind, d, e), primary.seqNo, p)
    requires claims2 == Claim(claims1, s.EdgeStorageSlot(secondary.kind, d.Flip(), e), secondary.seqNo, f)
    ensures KeptPaired(s, g, claims2)
  {
    hide Bag, Schema.EdgeStorageSlot, Claim, At;
    ClaimDrops(s, g, claims, primary.kind, d, e, primary.seqNo, p);
    ClaimDrops(s, g, claims1, secondary.kind, d.Flip(), e, secondary.seqNo, f);
    assert NodeAt(primary.kind, primary.seqNo) == primary && NodeAt(secondary.kind, secondary.seqNo) == secondary;
    var x := Canon(primary, d, g.edges[s.EdgeStorageSlot(primary.kind, d, e)].runs[primary.seqNo][p]);
    assert x == Canon(secondary, d.Flip(),
                      g.edges[s.EdgeStorageSlot(secondary.kind, d.Flip(), e)].runs[secondary.seqNo][f]);
    forall e': nat | e' < |s.edgeTypes|
      ensures Bag(s, EdgesKept(g, claims2), Out, e') == Bag(s, EdgesKept(g, claims2), In, e')
    {
      assert Bag(s, EdgesKept(g, claims), Out, e') == Bag(s, EdgesKept(g, claims), In, e');
      if e' == e {
        DropEqual(Bag(s, EdgesKept(g, claims2), d, e), Bag(s, EdgesKept(g, claims2), d.Flip(), e), multiset{x});
      }
    }
  }

  lemma DropEqual<T>(a: multiset<T>, b: multiset<T>, x: multiset<T>)
    requires a + x == b + x
    ensures a == b
  {
    forall t
      ensures a[t] == b[t]
    {
      assert (a + x)[t] == (b + x)[t];
    }
  }

  // ----- all changes

  ghost predicate FreshHandles(s: Schema, g: Graph, changes: seq<Change>)
    requires Shaped(s, g)
  {
    forall c <- changes :: c.RemoveEdge? ==> Fresh(s, g, c.edge)
  }

  lemma {:induction false} ChangesKeepPairing(s: Schema, g: Graph, changes: seq<Change>)
    requires s.Valid() && Coherent(s, g) && FreshHandles(s, g, changes)
    requires forall c <- changes :: c.UpdateNodeProperty? ==> c.prop < |s.propTypes|
    requires Classify(s, g, changes).Ok?
    ensures ClaimsSound(g, Classify(s, g, changes).value.claims)
    ensures KeptPaired(s, g, Classify(s, g, changes).value.claims)
  {
    hide Coherent, ClaimEdge, Fresh, KeptPaired, ClaimsSound;
    CoherentShape(s, g);
    if changes == [] {
      NothingClaimed(s, g);
    } else {
      var older, last := changes[..|changes| - 1], changes[|changes| - 1];
      assert last in changes && forall c | c in older :: c in changes;
      ChangesKeepPairing(s, g, older);
      if last.RemoveEdge? {
        ClaimKeepsPairing(s, g, Classify(s, g, older).value.claims, last.edge);
      }
    }
  }

  /** The node a removal or an update names is of some kind, and an updated one exists. */
  predicate RefResolves(s: Schema, nodes: seq<seq<bool>>, change: Change) {
    match change
    case RemoveNode(n) => n.kind < s.nodeKinds
    case UpdateNodeProperty(n, _, _) => n.kind < s.nodeKinds && NodeIn(Counts(nodes), n)
    case RemoveEdge(_) => true
  }

  /** With fresh handles no removal of an edge ever fails a diff: only unresolved node references do. */
  lemma {:induction false} FreshChangesClassify(s: Schema, g: Graph, changes: seq<Change>)
    requires s.Valid() && Coherent(s, g) && FreshHandles(s, g, changes)
    requires forall c <- changes :: c.UpdateNodeProperty? ==> c.prop < |s.propTypes|
    ensures Classify(s, g, changes).Ok? <==> forall c <- changes :: RefResolves(s, g.nodes, c)
  {
    hide Coherent, ClaimEdge, Fresh, KeptPaired, ClaimsSound;
    CoherentShape(s, g);
    if changes != [] {
      var older, last := changes[..|changes| - 1], changes[|changes| - 1];
      assert last in changes && forall c | c in older :: c in changes;
      assert forall c | c in changes :: c in older || c == last;
      FreshChangesClassify(s, g, older);
      if Classify(s, g, older).Ok? && last.RemoveEdge? {
        ChangesKeepPairing(s, g, older);
        ClaimKeepsPairing(s, g, Classify(s, g, older).value.claims, last.edge);
      }
    }
  }

  lemma NothingClaimed(s: Schema, g: Graph)
    requires s.Valid() && Coherent(s, g)
    ensures ClaimsSound(g, map[]) && KeptPaired(s, g, map[])
  {
    var kept := EdgesKept(g, map[]);
    forall i | 0 <= i < |g.edges|
      ensures kept[i] == g.edges[i]
    {
      forall v | 0 <= v < |g.edges[i].runs|
        ensures kept[i].runs[v] == g.edges[i].runs[v]
      {
        KeepNothing(g.edges[i].runs[v]);
      }
      assert kept[i].runs == g.edges[i].runs;
    }
    assert kept == g.edges;
  }
}
