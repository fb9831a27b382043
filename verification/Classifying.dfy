/** Sorting a diff's changes into tombstones, pending property updates and claimed half-edges. */
module Classifying {
  import opened Wrappers
  import opened Storage
  import opened Schemas
  import opened Csr
  import opened Graphs
  import opened Diffs
  import opened FlatGraphs
  import opened EdgeRemovals
  import opened PropertySlots
  import opened ValueKeys

  // ----- the reverse half

  /** The first candidate at or after local position `from`, by key if a key is wanted. */
  function FirstCandidate(slot: EdgeSlot, start: nat, end: nat, target: RawNodeId, excluded: seq<nat>,
                          wanted: Option<u64>, from: nat): Option<nat>
    requires start <= end <= |slot.neighbors|
    decreases end - from
  {
    if start + from >= end then None
    else if slot.neighbors[start + from] == target && from !in excluded
            && (wanted.Some? ==> KeyAt(slot.values, start + from) == wanted.value) then Some(from)
    else FirstCandidate(slot, start, end, target, excluded, wanted, from + 1)
  }

  /** The key of a half-edge's value, unless the slot keeps none or the position is past the run. */
  function HalfEdgeValueKey(slot: EdgeSlot, seqNo: nat, localSeq: nat): Option<u64> {
    if slot.values.NoValues? then None
    else
      var bounds := GetOffset(slot.offsets, seqNo);
      if bounds.None? then None
      else if bounds.value.0 + localSeq < bounds.value.1 then Some(KeyAt(slot.values, bounds.value.0 + localSeq))
      else None
  }

  /** A half leading back to `target`, carrying the wanted value if any does. */
  function FindReverseEdgeSeq(slot: EdgeSlot, node: RawNodeId, d: Direction, edgeKind: nat, target: RawNodeId,
                              excluded: seq<nat>, wanted: Option<u64>): Result<nat, Error>
    requires node.seqNo + 1 < |slot.offsets| ==>
               slot.offsets[node.seqNo] <= slot.offsets[node.seqNo + 1] <= |slot.neighbors|
  {
    var bounds := GetOffset(slot.offsets, node.seqNo);
    if bounds.None? then Err(NodeOffsetNotFound(node.seqNo))
    else
      var (start, end) := bounds.value;
      var matching := if wanted.Some? then FirstCandidate(slot, start, end, target, excluded, wanted, 0) else None;
      var found := if matching.Some? then matching else FirstCandidate(slot, start, end, target, excluded, None, 0);
      if found.Some? then Ok(found.value) else Err(ReverseEdgeNotFound(target, node, d, edgeKind))
  }

  /** A value someone looks for: as stored, as a key and as what it means. */
  function KeyOf(v: Option<StoredProperty>): Option<u64> {
    if v.Some? then Some(Key(v.value)) else None
  }

  function MeaningOf(strings: seq<Text>, v: Option<StoredProperty>): Option<PropertyValue> {
    if v.Some? then Some(Resolve(strings, v.value)) else None
  }

  /** The stored value of one half-edge, if its slot keeps values. */
  function StoredAt(slot: EdgeSlot, seqNo: nat, localSeq: nat): Option<StoredProperty> {
    var bounds := GetOffset(slot.offsets, seqNo);
    if bounds.Some? && bounds.value.0 + localSeq < bounds.value.1 then ValueAt(slot.values, bounds.value.0 + localSeq)
    else None
  }

  /** Comparing keys picks the half that comparing values would. */
  lemma {:induction false} CandidatesAgree(slot: EdgeSlot, typ: PropertyType, n: nat, strings: seq<Text>, v: nat,
                                          target: RawNodeId, excluded: seq<nat>, stored: Option<StoredProperty>,
                                          from: nat)
    requires EdgeSlotOk(slot, typ, n, strings) && Distinct(strings) && slot.offsets != [] && v < n
    requires stored.Some? ==> typ != NoType && stored.value.Typ() == typ && IdInPool(strings, stored.value)
    ensures slot.offsets[v] <= slot.offsets[v + 1] <= |slot.neighbors|
    ensures FirstCandidate(slot, slot.offsets[v], slot.offsets[v + 1], target, excluded, KeyOf(stored), from)
         == FirstHalf(Run(slot.offsets, Halves(strings, slot), v), target, excluded, MeaningOf(strings, stored), from)
    decreases |slot.neighbors| - from
  {
    var start, end := slot.offsets[v], slot.offsets[v + 1];
    if start + from < end {
      var run, i := Run(slot.offsets, Halves(strings, slot), v), start + from;
      assert run[from] == Halves(strings, slot)[i];
      if stored.Some? {
        var w := Items(slot.values)[i];
        assert w in Items(slot.values);
        KeysOrderValues(w, stored.value);
        ResolveInjective(strings, w, stored.value);
      }
      CandidatesAgree(slot, typ, n, strings, v, target, excluded, stored, from + 1);
    }
  }

  /** The key looked for is the key of the value the claimed half carries. */
  lemma WantedAgrees(slot: EdgeSlot, typ: PropertyType, n: nat, strings: seq<Text>, v: nat, p: nat)
    requires EdgeSlotOk(slot, typ, n, strings)
    ensures HalfEdgeValueKey(slot, v, p) == KeyOf(StoredAt(slot, v, p))
    ensures var run := RunOf(EdgeTable(strings, slot, n), v);
            MeaningOf(strings, StoredAt(slot, v, p)) == if p < |run| then run[p].value else None
    ensures var stored := StoredAt(slot, v, p);
            stored.Some? ==> typ != NoType && stored.value.Typ() == typ && IdInPool(strings, stored.value)
  {
    hide Key, Resolve, IdInPool;
    var stored := StoredAt(slot, v, p);
    if stored.Some? {
      assert stored.value in Items(slot.values);
    }
    if v < n && slot.offsets != [] {
      RunLength(slot.offsets, Halves(strings, slot), n, v);
      var run := Run(slot.offsets, Halves(strings, slot), v);
      assert RunOf(EdgeTable(strings, slot, n), v) == run;
      if p < |run| {
        assert run[p] == Halves(strings, slot)[slot.offsets[v] + p];
      }
    }
  }

  /** The search over the flat arrays is the search over the run they stand for. */
  lemma ReverseAgrees(slot: EdgeSlot, typ: PropertyType, n: nat, strings: seq<Text>, node: RawNodeId, d: Direction,
                      edgeKind: nat, target: RawNodeId, excluded: seq<nat>, stored: Option<StoredProperty>)
    requires EdgeSlotOk(slot, typ, n, strings) && Distinct(strings)
    requires stored.Some? ==> typ != NoType && stored.value.Typ() == typ && IdInPool(strings, stored.value)
    ensures node.seqNo + 1 < |slot.offsets| ==>
              slot.offsets[node.seqNo] <= slot.offsets[node.seqNo + 1] <= |slot.neighbors|
    ensures var t := EdgeTable(strings, slot, n);
            FindReverseEdgeSeq(slot, node, d, edgeKind, target, excluded, KeyOf(stored))
            == if !t.used || node.seqNo >= |t.runs| then Err(NodeOffsetNotFound(node.seqNo))
               else
                 var found := ReverseHalf(t.runs[node.seqNo], target, excluded, MeaningOf(strings, stored));
                 if found.None? then Err(ReverseEdgeNotFound(target, node, d, edgeKind)) else Ok(found.value)
  {
    if slot.offsets != [] && node.seqNo < n {
      CandidatesAgree(slot, typ, n, strings, node.seqNo, target, excluded, stored, 0);
      CandidatesAgree(slot, typ, n, strings, node.seqNo, target, excluded, None, 0);
    }
  }

  // ----- buckets

  /** A slot's list per node, all empty if nothing was recorded in it yet. */
  function Bucket<T>(pending: Buckets<T>, slot: nat, n: nat, empty: T): (r: seq<T>)
    requires slot < |pending|
    ensures pending[slot].None? ==> |r| == n
  {
    if pending[slot].Some? then pending[slot].value else seq(n, _ => empty)
  }

  lemma ClaimedSoFar(s: Schema, g: Graph, pending: Buckets<seq<nat>>, claims: Claims, slot: nat, v: nat)
    requires Shaped(s, g) && HoldsClaims(s, g, pending, claims) && slot < |g.edges| && v < |g.edges[slot].runs|
    ensures slot < |pending| && |Bucket(pending, slot, |g.edges[slot].runs|, [])| == |g.edges[slot].runs|
    ensures Bucket(pending, slot, |g.edges[slot].runs|, [])[v] == At(claims, slot, v)
  {
  }

  lemma ClaimRecorded(s: Schema, g: Graph, pending: Buckets<seq<nat>>, claims: Claims, slot: nat, v: nat, p: nat)
    requires Shaped(s, g) && HoldsClaims(s, g, pending, claims) && slot < |g.edges| && v < |g.edges[slot].runs|
    requires p !in At(claims, slot, v)
    ensures slot < |pending| && |Bucket(pending, slot, |g.edges[slot].runs|, [])| == |g.edges[slot].runs|
    ensures var bucket := Bucket(pending, slot, |g.edges[slot].runs|, []);
            HoldsClaims(s, g, pending[slot := Some(bucket[v := bucket[v] + [p]])], Claim(claims, slot, v, p))
  {
    var claims' := Claim(claims, slot, v, p);
    assert forall i, w ::
        At(claims', i, w) == if i == slot && w == v then At(claims, slot, v) + [p] else At(claims, i, w);
  }

  lemma UpdateRecorded(pending: Buckets<Option<Quantified>>, updates: Updates, g: Graph, slot: nat, v: nat,
                       q: Quantified)
    requires slot < |pending| == |g.props| && v < |g.props[slot].runs|
    requires HoldsAllUpdates(pending, updates, g)
    ensures |Bucket(pending, slot, |g.props[slot].runs|, None)| == |g.props[slot].runs|
    ensures var bucket := Bucket(pending, slot, |g.props[slot].runs|, None);
            HoldsAllUpdates(pending[slot := Some(bucket[v := Some(q)])], updates[(slot, v) := q.Values()], g)
  {
    var bucket := Bucket(pending, slot, |g.props[slot].runs|, None);
    var pending', updates' := pending[slot := Some(bucket[v := Some(q)])], updates[(slot, v) := q.Values()];
    forall i | 0 <= i < |pending'|
      ensures HoldsUpdates(pending'[i], updates', i, |g.props[i].runs|)
    {
      assert HoldsUpdates(pending[i], updates, i, |g.props[i].runs|);
    }
  }

  ghost predicate HoldsAllUpdates(pending: Buckets<Option<Quantified>>, updates: Updates, g: Graph) {
    && |pending| == |g.props|
    && forall i | 0 <= i < |pending| :: HoldsUpdates(pending[i], updates, i, |g.props[i].runs|)
  }

  /** The removed handle's own end exists, unless the handle names no kind or direction at all. */
  predicate HandleInRange(s: Schema, g: Graph, edge: RawEdgeId)
    requires Shaped(s, g)
  {
    var primary := edge.Primary(if edge.handle.direction == 0 then In else Out);
    edge.handle.kind < |s.edgeTypes| && edge.handle.direction < 2 && primary.kind < s.nodeKinds ==>
      primary.seqNo < |g.nodes[primary.kind]|
  }

  // ----- one removal

  /** A slot of one kind has a run per node of it; the two halves of an edge keep values of one type. */
  lemma SlotsOf(s: Schema, raw: RawGraph, kind: nat, d: Direction, e: nat)
    requires s.Valid() && WellFormed(s, raw) && kind < s.nodeKinds && e < |s.edgeTypes|
    ensures var slot := s.EdgeStorageSlot(kind, d, e);
            && kind < |raw.nodes| == s.nodeKinds
            && slot < |raw.edges| == |Meaning(s, raw).edges|
            && EdgeSlotOk(raw.edges[slot], s.edgeTypes[e], |raw.nodes[kind]|, raw.strings)
            && Meaning(s, raw).edges[slot] == EdgeTable(raw.strings, raw.edges[slot], |raw.nodes[kind]|)
  {
    s.EdgeSlotOf(kind, d, e);
  }

  /** Finds the half that leads back to a removed edge's own end and claims it. */
  method ClaimReverseHalf(s: Schema, nodes: seq<seq<bool>>, edges: seq<EdgeSlot>, pending: Buckets<seq<nat>>,
                          edge: RawEdgeId, d: Direction, ghost raw: RawGraph, ghost claims: Claims)
    returns (r: Result<Buckets<seq<nat>>, Error>)
    requires s.Valid() && WellFormed(s, raw) && Distinct(raw.strings) && raw.nodes == nodes && raw.edges == edges
    requires edge.handle.kind < |s.edgeTypes|
    requires edge.Primary(d).kind < s.nodeKinds && edge.Secondary(d).kind < s.nodeKinds
    requires HoldsClaims(s, Meaning(s, raw), pending, claims)
    ensures var claimed := ClaimReverse(s, Meaning(s, raw), claims, edge, d);
            if claimed.Ok? then r.Ok? && HoldsClaims(s, Meaning(s, raw), r.value, claimed.value)
            else r == Err(claimed.error)
  {
    hide HoldsClaims, WellFormed, EdgeSlotOk, EdgeTable, Meaning, StoredAt, FindReverseEdgeSeq, ReverseHalf,
         HalfEdgeValueKey, Claim, Bucket;
    ghost var g := Meaning(s, raw);
    var h, primary, secondary := edge.handle, edge.Primary(d), edge.Secondary(d);
    SlotsOf(s, raw, primary.kind, d, h.kind);
    SlotsOf(s, raw, secondary.kind, d.Flip(), h.kind);
    var slot := s.EdgeStorageSlot(secondary.kind, d.Flip(), h.kind);
    var own := edges[s.EdgeStorageSlot(primary.kind, d, h.kind)];
    ghost var typ, count := s.edgeTypes[h.kind], |nodes[secondary.kind]|;
    WantedAgrees(own, typ, |nodes[primary.kind]|, raw.strings, primary.seqNo, h.seqNo);
    ghost var stored := StoredAt(own, primary.seqNo, h.seqNo);
    ClaimedReads(s, g, pending, claims, slot, secondary.seqNo);
    var wanted := HalfEdgeValueKey(own, primary.seqNo, h.seqNo);
    var claimed := if pending[slot].Some? && secondary.seqNo < |pending[slot].value|
                   then pending[slot].value[secondary.seqNo] else [];
    ReverseAgrees(edges[slot], typ, count, raw.strings, secondary, d.Flip(), h.kind, primary, claimed, stored);
    var found := FindReverseEdgeSeq(edges[slot], secondary, d.Flip(), h.kind, primary, claimed, wanted);
    if found.Err? {
      return Err(found.error);
    }
    FoundIsFree(g.edges[slot].runs[secondary.seqNo], primary, claimed, MeaningOf(raw.strings, stored));
    ClaimRecorded(s, g, pending, claims, slot, secondary.seqNo, found.value);
    var bucket := Bucket(pending, slot, |nodes[secondary.kind]|, []);
    return Ok(pending[slot := Some(bucket[secondary.seqNo := bucket[secondary.seqNo] + [found.value]])]);
  }

  lemma ClaimedReads(s: Schema, g: Graph, pending: Buckets<seq<nat>>, claims: Claims, slot: nat, v: nat)
    requires Shaped(s, g) && HoldsClaims(s, g, pending, claims) && slot < |g.edges|
    ensures slot < |pending|
    ensures v < |g.edges[slot].runs| ==>
              At(claims, slot, v)
              == if pending[slot].Some? && v < |pending[slot].value| then pending[slot].value[v] else []
  {
  }

  lemma FoundIsFree<V>(run: seq<Half<V>>, target: RawNodeId, excluded: seq<nat>, wanted: Option<V>)
    ensures var found := ReverseHalf(run, target, excluded, wanted);
            found.Some? ==> found.value < |run| && found.value !in excluded && run[found.value].neighbor == target
  {
  }

  /** Claims a removed edge's own half and then its reverse half. */
  method ClaimRemoval(s: Schema, nodes: seq<seq<bool>>, edges: seq<EdgeSlot>, pending: Buckets<seq<nat>>,
                      edge: RawEdgeId, ghost raw: RawGraph, ghost claims: Claims)
    returns (r: Result<Buckets<seq<nat>>, Error>)
    requires s.Valid() && WellFormed(s, raw) && Distinct(raw.strings) && raw.nodes == nodes && raw.edges == edges
    requires HoldsClaims(s, Meaning(s, raw), pending, claims) && HandleInRange(s, Meaning(s, raw), edge)
    ensures var claimed := ClaimEdge(s, Meaning(s, raw), claims, edge);
            if claimed.Ok? then r.Ok? && HoldsClaims(s, Meaning(s, raw), r.value, claimed.value)
            else r == Err(claimed.error)
  {
    hide HoldsClaims, WellFormed, EdgeSlotOk, EdgeTable, ClaimReverse, Claim, Bucket, At;
    ghost var g := Meaning(s, raw);
    var h := edge.handle;
    if h.kind >= |s.edgeTypes| {
      return Err(UnresolvedEdgeKind(h.kind));
    }
    if h.direction >= 2 {
      return Err(UnresolvedDirection(h.direction));
    }
    var d := if h.direction == 0 then In else Out;
    var primary, secondary := edge.Primary(d), edge.Secondary(d);
    if primary.kind >= s.nodeKinds {
      return Err(UnresolvedNodeKind(primary.kind));
    }
    SlotsOf(s, raw, primary.kind, d, h.kind);
    var slot := s.EdgeStorageSlot(primary.kind, d, h.kind);
    ClaimedSoFar(s, g, pending, claims, slot, primary.seqNo);
    var bucket := Bucket(pending, slot, |nodes[primary.kind]|, []);
    if h.seqNo in bucket[primary.seqNo] {
      // The same edge again: the first removal already claimed both halves.
      return Ok(pending);
    }
    ClaimRecorded(s, g, pending, claims, slot, primary.seqNo, h.seqNo);
    if secondary.kind >= s.nodeKinds {
      return Err(UnresolvedNodeKind(secondary.kind));
    }
    var pending' := pending[slot := Some(bucket[primary.seqNo := bucket[primary.seqNo] + [h.seqNo]])];
    r := ClaimReverseHalf(s, nodes, edges, pending', edge, d, raw, Claim(claims, slot, primary.seqNo, h.seqNo));
  }

  // ----- all changes

  /**
   No removal that is reached names an own end past the nodes there are; the original panics
   when indexing its bucket otherwise.
   */
  ghost predicate HandlesInRange(s: Schema, g: Graph, changes: seq<Change>)
    requires Shaped(s, g)
    requires forall c <- changes :: c.UpdateNodeProperty? ==> c.prop < |s.propTypes|
  {
    forall i {:trigger changes[i]} | 0 <= i < |changes| && changes[i].RemoveEdge? ::
      Classify(s, g, changes[..i]).Ok? ==> HandleInRange(s, g, changes[i].edge)
  }

  datatype Pending = Pending(tombstones: seq<RawNodeId>, updates: Buckets<Option<Quantified>>,
                             claims: Buckets<seq<nat>>)

  /** The buckets stand for what the changes so far amount to. */
  ghost predicate Holds(s: Schema, g: Graph, pending: Pending, c: Classified)
    requires Shaped(s, g)
  {
    && pending.tombstones == c.tombstones
    && HoldsAllUpdates(pending.updates, c.updates, g)
    && HoldsClaims(s, g, pending.claims, c.claims)
  }

  lemma HoldsNothing(s: Schema, g: Graph)
    requires Shaped(s, g)
    ensures Holds(s, g, Pending([], seq(s.PropertyStorageSize(), _ => None), seq(s.EdgeStorageSize(), _ => None)),
                  Classified([], map[], map[]))
  {
  }

  /** One change bucketed. */
  method ClassifyChange(s: Schema, nodes: seq<seq<bool>>, edges: seq<EdgeSlot>, pending: Pending, change: Change,
                        ghost raw: RawGraph, ghost c: Classified)
    returns (r: Result<Pending, Error>)
    requires s.Valid() && WellFormed(s, raw) && Distinct(raw.strings) && raw.nodes == nodes && raw.edges == edges
    requires Holds(s, Meaning(s, raw), pending, c)
    requires change.UpdateNodeProperty? ==> change.prop < |s.propTypes|
    requires change.RemoveEdge? ==> HandleInRange(s, Meaning(s, raw), change.edge)
    ensures var c' := ClassifyOne(s, Meaning(s, raw), c, change);
            if c'.Ok? then r.Ok? && Holds(s, Meaning(s, raw), r.value, c'.value) else r == Err(c'.error)
  {
    hide HoldsClaims, HoldsAllUpdates, WellFormed, ClaimEdge, Bucket, HandleInRange;
    ghost var g := Meaning(s, raw);
    match change {
      case RemoveNode(n) =>
        if n.kind >= s.nodeKinds {
          return Err(UnresolvedNodeKind(n.kind));
        }
        if n.seqNo < |nodes[n.kind]| {
          return Ok(pending.(tombstones := pending.tombstones + [n]));
        }
        return Ok(pending);
      case UpdateNodeProperty(n, p, q) =>
        if n.kind >= s.nodeKinds {
          return Err(UnresolvedNodeKind(n.kind));
        }
        if n.seqNo >= |nodes[n.kind]| {
          return Err(NodeOffsetNotFound(n.seqNo));
        }
        s.PropertySlotOf(n.kind, p);
        var slot := s.PropertyStorageSlot(n.kind, p);
        UpdateBuckets(pending.updates, c.updates, g);
        UpdateRecorded(pending.updates, c.updates, g, slot, n.seqNo, q);
        var bucket := Bucket(pending.updates, slot, |nodes[n.kind]|, None);
        return Ok(pending.(updates := pending.updates[slot := Some(bucket[n.seqNo := Some(q)])]));
      case RemoveEdge(edge) =>
        var claims := ClaimRemoval(s, nodes, edges, pending.claims, edge, raw, c.claims);
        if claims.Err? {
          return Err(claims.error);
        }
        return Ok(pending.(claims := claims.value));
    }
  }

  lemma UpdateBuckets(pending: Buckets<Option<Quantified>>, updates: Updates, g: Graph)
    requires HoldsAllUpdates(pending, updates, g)
    ensures |pending| == |g.props|
  {
  }

  /** Buckets every change, or reports the first one that does not resolve. */
  method ClassifyChanges(s: Schema, nodes: seq<seq<bool>>, edges: seq<EdgeSlot>, changes: seq<Change>,
                         ghost raw: RawGraph)
    returns (r: Result<Pending, Error>)
    requires s.Valid() && WellFormed(s, raw) && Distinct(raw.strings) && raw.nodes == nodes && raw.edges == edges
    requires forall c <- changes :: c.UpdateNodeProperty? ==> c.prop < |s.propTypes|
    requires HandlesInRange(s, Meaning(s, raw), changes)
    ensures var c := Classify(s, Meaning(s, raw), changes);
            if c.Ok? then r.Ok? && Holds(s, Meaning(s, raw), r.value, c.value) else r == Err(c.error)
  {
    hide HoldsClaims, HoldsAllUpdates, WellFormed, ClassifyOne, HandleInRange, Holds;
    ghost var g := Meaning(s, raw);
    var pending := Pending([], seq(s.PropertyStorageSize(), _ => None), seq(s.EdgeStorageSize(), _ => None));
    HoldsNothing(s, g);
    var i := 0;
    assert changes[..0] == [];
    while i < |changes|
      invariant 0 <= i <= |changes|
      invariant Classify(s, g, changes[..i]).Ok? && Holds(s, g, pending, Classify(s, g, changes[..i]).value)
    {
      ghost var c := Classify(s, g, changes[..i]).value;
      assert changes[..i + 1][..i] == changes[..i];
      var next := ClassifyChange(s, nodes, edges, pending, changes[i], raw, c);
      if next.Err? {
        ClassifyStops(s, g, changes, i + 1);
        return Err(next.error);
      }
      pending := next.value;
      i := i + 1;
    }
    assert changes[..i] == changes;
    return Ok(pending);
  }

  /** Once a prefix of the changes fails, all of them fail the same way. */
  lemma {:induction false} ClassifyStops(s: Schema, g: Graph, changes: seq<Change>, m: nat)
    requires Shaped(s, g) && m <= |changes|
    requires forall c <- changes :: c.UpdateNodeProperty? ==> c.prop < |s.propTypes|
    requires Classify(s, g, changes[..m]).Err?
    ensures Classify(s, g, changes) == Classify(s, g, changes[..m])
    decreases |changes|
  {
    if m < |changes| {
      var older := changes[..|changes| - 1];
      assert older[..m] == changes[..m];
      ClassifyStops(s, g, older, m);
    } else {
      assert changes[..m] == changes;
    }
  }
}
