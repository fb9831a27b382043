/** Which error a diff is refused with: the first one, in the order the passes meet them. */
module Outcomes {
  import opened Wrappers
  import opened Storage
  import opened Schemas
  import opened Csr
  import opened Graphs
  import opened Diffs

  /** The first failure among some outcomes, in order. */
  function First(outcomes: seq<Outcome<Error>>): (r: Outcome<Error>) {
    if outcomes == [] then Ok(())
    else
      var earlier := First(outcomes[..|outcomes| - 1]);
      if earlier.Err? then earlier else outcomes[|outcomes| - 1]
  }

  lemma {:induction false} FirstOk(outcomes: seq<Outcome<Error>>)
    ensures First(outcomes).Ok? <==> forall i | 0 <= i < |outcomes| :: outcomes[i].Ok?
  {
    if outcomes != [] {
      FirstOk(outcomes[..|outcomes| - 1]);
    }
  }

  /** A failure with nothing but successes before it is the first. */
  lemma {:induction false} FirstFailsAt(outcomes: seq<Outcome<Error>>, i: nat)
    requires i < |outcomes| && outcomes[i].Err? && forall j | 0 <= j < i :: outcomes[j].Ok?
    ensures First(outcomes) == outcomes[i]
  {
    if i < |outcomes| - 1 {
      FirstFailsAt(outcomes[..|outcomes| - 1], i);
    } else {
      FirstOk(outcomes[..i]);
    }
  }

  /** A failure comes from one of the outcomes. */
  lemma {:induction false} FirstFrom(outcomes: seq<Outcome<Error>>) returns (i: nat)
    requires First(outcomes).Err?
    ensures i < |outcomes| && outcomes[i] == First(outcomes)
  {
    i := |outcomes| - 1;
    if First(outcomes[..i]).Err? {
      i := FirstFrom(outcomes[..i]);
    }
  }

  lemma {:induction false} FirstStops(outcomes: seq<Outcome<Error>>, i: nat)
    requires i <= |outcomes| && First(outcomes[..i]).Err?
    ensures First(outcomes) == First(outcomes[..i])
    decreases |outcomes|
  {
    if i < |outcomes| {
      assert outcomes[..|outcomes| - 1][..i] == outcomes[..i];
      FirstStops(outcomes[..|outcomes| - 1], i);
    } else {
      assert outcomes[..i] == outcomes;
    }
  }

  /** A result that fails exactly as the outcome does. */
  predicate Answers<T>(r: Result<T, Error>, outcome: Outcome<Error>) {
    if r.Ok? then outcome.Ok? else outcome == Err(r.error)
  }

  lemma AnswersReads<T>(r: Result<T, Error>, outcome: Outcome<Error>)
    requires Answers(r, outcome)
    ensures r.Ok? ==> outcome.Ok?
    ensures r.Err? ==> outcome == Err(r.error)
  {
  }

  lemma SameAnswer<T, U>(r: Result<T, Error>, q: Result<U, Error>, outcome: Outcome<Error>)
    requires Answers(r, outcome) && (if r.Ok? then q.Ok? else q == Err(r.error))
    ensures Answers(q, outcome)
  {
  }

  lemma AnswerIs<T>(error: Error, outcome: Outcome<Error>)
    requires outcome == Err(error)
    ensures Answers(Result<T, Error>.Err(error), outcome)
  {
  }

  lemma AnswerOk<T>(value: T, outcome: Outcome<Error>)
    requires outcome.Ok?
    ensures Answers(Result<T, Error>.Ok(value), outcome)
  {
  }

  // ----- totals of runs

  lemma {:induction false} TotalPrefix<T>(runs: seq<seq<T>>, m: nat)
    requires m <= |runs|
    ensures TotalOf(runs[..m]) <= TotalOf(runs)
    decreases |runs|
  {
    if m < |runs| {
      TotalPrefix(runs[..|runs| - 1], m);
      assert runs[..|runs| - 1][..m] == runs[..m];
    } else {
      assert runs[..m] == runs;
    }
  }

  lemma TotalNext<T>(runs: seq<seq<T>>, m: nat)
    requires m < |runs|
    ensures TotalOf(runs[..m + 1]) == TotalOf(runs[..m]) + |runs[m]|
  {
    assert runs[..m + 1][..m] == runs[..m];
  }

  lemma {:induction false} TotalOfRuns<T>(offsets: seq<nat>, arr: seq<T>, n: nat, m: nat)
    requires Cuts(offsets, n, |arr|) && m <= n
    ensures TotalOf(Runs(offsets, arr, m)) == if offsets == [] then 0 else offsets[m]
  {
    if m > 0 {
      TotalOfRuns(offsets, arr, n, m - 1);
      assert Runs(offsets, arr, m)[..m - 1] == Runs(offsets, arr, m - 1);
      RunLength(offsets, arr, n, m - 1);
    }
  }

  // ----- writing property runs

  function TypeOutcome(v: PropertyValue, typ: PropertyType): Outcome<Error> {
    if v.Typ() == typ then Ok(()) else Err(InvalidPropertyType(typ, v.Typ()))
  }

  function AddOutcome(total: nat, delta: nat): Outcome<Error> {
    if delta > U32_MAX then Err(OffsetOverflow(delta))
    else if total + delta > U32_MAX then Err(OffsetOverflow(total + delta))
    else Ok(())
  }

  /** Writing new values behind `total` others: each value's type, then the offset they end at. */
  function WriteOutcomes(total: nat, vs: seq<PropertyValue>, typ: PropertyType): seq<Outcome<Error>> {
    seq(|vs|, j requires 0 <= j < |vs| => TypeOutcome(vs[j], typ)) + [AddOutcome(total, |vs|)]
  }

  /** A run newly written, or an old one copied, whose values need no check. */
  function RunOutcome(total: nat, vs: seq<PropertyValue>, typ: PropertyType, written: bool): Outcome<Error> {
    if written then First(WriteOutcomes(total, vs, typ)) else AddOutcome(total, |vs|)
  }

  function RunOutcomes(runs: seq<seq<PropertyValue>>, written: seq<bool>, typ: PropertyType): (r: seq<Outcome<Error>>)
    requires |written| == |runs|
    ensures |r| == |runs|
  {
    seq(|runs|, v requires 0 <= v < |runs| => RunOutcome(TotalOf(runs[..v]), runs[v], typ, written[v]))
  }

  /** The type a property slot's values have. */
  function PropTypeAt(s: Schema, i: nat): PropertyType {
    if s.PropertySlotProp(i) < |s.propTypes| then s.propTypes[s.PropertySlotProp(i)] else NoType
  }

  // ----- updates

  function UpdatedNodes(updates: Updates, slot: nat, n: nat): (r: seq<bool>)
    ensures |r| == n
  {
    seq(n, v requires 0 <= v < n => (slot, v as nat) in updates)
  }

  /** Updating a slot that was never written fails at the first node with an update. */
  function UnusedOutcomes(updates: Updates, slot: nat, n: nat): (r: seq<Outcome<Error>>)
    ensures |r| == n
  {
    seq(n, v requires 0 <= v < n => if (slot, v as nat) in updates then Err(NodeOffsetNotFound(v)) else Ok(()))
  }

  function SlotUpdateOutcome(t: Table<PropertyValue>, updates: Updates, slot: nat, typ: PropertyType)
    : Outcome<Error>
  {
    if t.used then First(RunOutcomes(Updated(t, updates, slot).runs, UpdatedNodes(updates, slot, |t.runs|), typ))
    else First(UnusedOutcomes(updates, slot, |t.runs|))
  }

  function UpdateOutcomes(s: Schema, g: Graph, updates: Updates): (r: seq<Outcome<Error>>)
    ensures |r| == |g.props|
  {
    seq(|g.props|, i requires 0 <= i < |g.props| => SlotUpdateOutcome(g.props[i], updates, i, PropTypeAt(s, i)))
  }

  // ----- removals

  function PositionOutcomes(ps: seq<nat>, length: nat): seq<Outcome<Error>> {
    seq(|ps|, j requires 0 <= j < |ps| => if ps[j] < length then Ok(()) else Err(NodeOffsetNotFound(ps[j])))
  }

  function NodeRemovalOutcomes(lengths: seq<nat>, removals: seq<seq<nat>>): (r: seq<Outcome<Error>>)
    requires |lengths| == |removals|
    ensures |r| == |removals|
  {
    seq(|removals|, v requires 0 <= v < |removals| => First(PositionOutcomes(removals[v], lengths[v])))
  }

  function Lengths<T>(runs: seq<seq<T>>): (r: seq<nat>)
    ensures |r| == |runs|
  {
    seq(|runs|, v requires 0 <= v < |runs| => |runs[v]|)
  }

  /** What each node of a slot loses. */
  function Removals(claims: Claims, slot: nat, n: nat): (r: seq<seq<nat>>)
    ensures |r| == n
  {
    seq(n, v requires 0 <= v < n => At(claims, slot, v))
  }

  function SlotRemovalOutcome<V>(t: Table<Half<V>>, claims: Claims, slot: nat): Outcome<Error> {
    if t.used then First(NodeRemovalOutcomes(Lengths(t.runs), Removals(claims, slot, |t.runs|))) else Ok(())
  }

  function RemovalOutcomes(g: Graph, claims: Claims): (r: seq<Outcome<Error>>)
    ensures |r| == |g.edges|
  {
    seq(|g.edges|, i requires 0 <= i < |g.edges| => SlotRemovalOutcome(g.edges[i], claims, i))
  }

  // ----- new nodes' properties

  function NewOnes(old_: nat, n: nat): (r: seq<bool>)
    ensures |r| == old_ + n
  {
    seq(old_, _ => false) + seq(n, _ => true)
  }

  function SlotAppendOutcome(t: Table<PropertyValue>, added: seq<NewNode>, p: nat, typ: PropertyType): Outcome<Error> {
    First(RunOutcomes(PropsExtended(t, added, p).runs, NewOnes(|t.runs|, |added|), typ))
  }

  function AppendOutcomes(s: Schema, g: Graph, updates: Updates, newNodes: seq<NewNode>): (r: seq<Outcome<Error>>)
    ensures |r| == |g.props|
  {
    seq(|g.props|, i requires 0 <= i < |g.props| =>
      SlotAppendOutcome(Updated(g.props[i], updates, i), OfKind(newNodes, s.PropertySlotKind(i)),
                        s.PropertySlotProp(i), PropTypeAt(s, i)))
  }

  // ----- new edges

  /** The new halves of the first `m` nodes, node by node, each node's in the order they were added. */
  function ByOwner<V>(halves: seq<NewHalf<V>>, m: nat): seq<Half<V>> {
    if m == 0 then [] else ByOwner(halves, m - 1) + OwnedBy(halves, m - 1)
  }

  /** A value exactly when the kind declares one, and of that type. */
  function HalfOutcome(value: Option<PropertyValue>, typ: PropertyType): Outcome<Error> {
    match value
    case Some(v) => TypeOutcome(v, typ)
    case None => if typ == NoType then Ok(()) else Err(InvalidPropertyType(typ, NoType))
  }

  function HalfOutcomes(halves: seq<Half<PropertyValue>>, typ: PropertyType): (r: seq<Outcome<Error>>)
    ensures |r| == |halves|
  {
    seq(|halves|, j requires 0 <= j < |halves| => HalfOutcome(halves[j].value, typ))
  }

  /** Entries in the runs of the first `m` nodes; nodes past the end have none. */
  function TotalUpTo<T>(runs: seq<seq<T>>, m: nat): nat {
    TotalOf(runs[..if m <= |runs| then m else |runs|])
  }

  function OffsetOutcomes<V>(runs: seq<seq<Half<V>>>, count: nat, halves: seq<NewHalf<V>>): (r: seq<Outcome<Error>>)
    ensures |r| == count
  {
    seq(count, k requires 0 <= k < count => AddOutcome(TotalUpTo(runs, k + 1), |ByOwner(halves, k + 1)|))
  }

  /** A slot's new halves: their number, then their values in sorted order, then the offsets. */
  function SlotInsertOutcome(t: Table<Half<PropertyValue>>, count: nat, halves: seq<NewHalf<PropertyValue>>,
                             typ: PropertyType): Outcome<Error>
  {
    if halves == [] then Ok(())
    else if |halves| > U32_MAX then Err(OffsetOverflow(|halves|))
    else
      var values := First(HalfOutcomes(ByOwner(halves, count), typ));
      if values.Err? then values else First(OffsetOutcomes(t.runs, count, halves))
  }

  /** The type an edge slot's values have. */
  function EdgeTypeAt(s: Schema, i: nat): PropertyType {
    if s.EdgeSlotEdge(i) < |s.edgeTypes| then s.edgeTypes[s.EdgeSlotEdge(i)] else NoType
  }

  function InsertOutcomes(s: Schema, g: Graph, claims: Claims, newNodes: seq<NewNode>, live: seq<LiveEdge>)
    : (r: seq<Outcome<Error>>)
    requires Shaped(s, g)
    ensures |r| == |g.edges|
  {
    seq(|g.edges|, i requires 0 <= i < |g.edges| =>
      var k := s.EdgeSlotKind(i);
      SlotInsertOutcome(Kept(g.edges[i], claims, i), |g.nodes[k]| + |OfKind(newNodes, k)|, SlotHalves(s, live, i),
                        EdgeTypeAt(s, i)))
  }

  // ----- the whole diff

  /** The passes over the slots, in the order staging makes them. */
  function PassOutcomes(s: Schema, g: Graph, d: GraphDiff, c: Classified): (r: seq<Outcome<Error>>)
    requires Shaped(s, g)
    ensures |r| == 4
  {
    [First(UpdateOutcomes(s, g, c.updates)),
     First(RemovalOutcomes(g, c.claims)),
     First(AppendOutcomes(s, g, c.updates, d.newNodes)),
     First(InsertOutcomes(s, g, c.claims, d.newNodes, LiveEdges(s, g.nodes, c.tombstones, d.newNodes, d.newEdges)))]
  }

  /** What staging a diff answers: the first change that does not classify, else the first failing pass. */
  function StageOutcome(s: Schema, g: Graph, d: GraphDiff): Outcome<Error>
    requires Shaped(s, g) && WellKinded(s, d)
  {
    match Classify(s, g, d.changes)
    case Err(error) => Err(error)
    case Ok(c) => First(PassOutcomes(s, g, d, c))
  }
}
