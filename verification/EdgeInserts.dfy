/** Staging the half-edges a diff adds to one slot, and merging them into the slot's arrays. */
module EdgeInserts {
  import opened Wrappers
  import opened Storage
  import opened Schemas
  import opened Csr
  import opened Graphs
  import opened Diffs
  import opened Outcomes
  import opened FlatGraphs
  import opened Inserting

  datatype SlotHalfEdge = SlotHalfEdge(owner: nat, neighbor: RawNodeId, property: Option<StoredProperty>)

  /** A slot's new half-edges in the order they were added, and how many each node gets. */
  datatype SlotHalfEdges = SlotHalfEdges(halves: seq<SlotHalfEdge>, counts: seq<nat>) {
    ghost predicate Valid() {
      && (forall i | 0 <= i < |halves| :: halves[i].owner < |counts|)
      && (forall v | 0 <= v < |counts| :: counts[v] == |IndicesOf(Owners(halves), v)|)
    }
  }

  /** What commit inserts into one slot. */
  datatype EdgeSlotInsert = EdgeSlotInsert(
    slotIndex: nat,
    neighbors: seq<RawNodeId>,
    values: StorageArray,
    batches: seq<Batch>,
    offsets: seq<u32>)

  function Owners(halves: seq<SlotHalfEdge>): (r: seq<nat>)
    ensures |r| == |halves|
  {
    seq(|halves|, i requires 0 <= i < |halves| => halves[i].owner)
  }

  /** New half-edges bucketed by slot. */
  class EdgeHalfBuckets {
    var slots: seq<Option<SlotHalfEdges>>

    constructor (slotCount: nat)
      ensures slots == seq(slotCount, _ => None)
    {
      slots := seq(slotCount, _ => None);
    }

    /** Appends a half to its slot's bucket, creating the bucket on first use. */
    method Push(slotIndex: nat, nodeCount: nat, half: SlotHalfEdge)
      requires slotIndex < |slots| && half.owner < nodeCount
      requires slots[slotIndex].Some? ==>
                 slots[slotIndex].value.Valid() && |slots[slotIndex].value.counts| == nodeCount
      modifies this
      ensures |slots| == |old(slots)| && slots == old(slots)[slotIndex := slots[slotIndex]]
      ensures slots[slotIndex].Some? && slots[slotIndex].value.Valid()
      ensures |slots[slotIndex].value.counts| == nodeCount
      ensures slots[slotIndex].value.halves == HalvesIn(old(slots)[slotIndex]) + [half]
    {
      var entry := if slots[slotIndex].Some? then slots[slotIndex].value
                   else SlotHalfEdges([], seq(nodeCount, _ => 0));
      OwnersNext(entry.halves, half);
      entry := SlotHalfEdges(entry.halves + [half],
                             entry.counts[half.owner := entry.counts[half.owner] + 1]);
      slots := slots[slotIndex := Some(entry)];
    }
  }

  function HalvesIn(bucket: Option<SlotHalfEdges>): seq<SlotHalfEdge> {
    if bucket.Some? then bucket.value.halves else []
  }

  lemma OwnersNext(halves: seq<SlotHalfEdge>, half: SlotHalfEdge)
    ensures Owners(halves + [half]) == Owners(halves) + [half.owner]
    ensures forall v :: |IndicesOf(Owners(halves + [half]), v)|
                     == |IndicesOf(Owners(halves), v)| + if half.owner == v then 1 else 0
  {
    assert Owners(halves + [half]) == Owners(halves) + [half.owner];
    assert Owners(halves + [half])[..|halves|] == Owners(halves);
  }

  // ----- counting sort

  /** Turns a histogram in place into the position each node's next entry goes to. */
  method PrefixSums(histogram: seq<nat>, ghost owners: seq<nat>) returns (counts: seq<nat>)
    requires forall v {:trigger histogram[v]} | 0 <= v < |histogram| :: histogram[v] == |IndicesOf(owners, v)|
    ensures |counts| == |histogram|
    ensures forall v {:trigger counts[v]} | 0 <= v < |counts| :: counts[v] == StartOf(owners, v)
  {
    counts := histogram;
    var acc := 0;
    var v := 0;
    while v < |counts|
      invariant 0 <= v <= |counts| == |histogram|
      invariant acc == StartOf(owners, v)
      invariant forall u {:trigger counts[u]} | 0 <= u < v :: counts[u] == StartOf(owners, u)
      invariant forall u | v <= u < |counts| :: counts[u] == histogram[u]
    {
      var degree := counts[v];
      counts := counts[v := acc];
      acc := acc + degree;
      v := v + 1;
    }
  }

  /** The first `i` entries are filed: each node's cursor and stretch of `order` say so. */
  ghost predicate Filed(order: seq<nat>, cursors: seq<nat>, owners: seq<nat>, i: nat)
    requires i <= |owners|
  {
    && |order| == |owners|
    && forall v {:trigger cursors[v]} | 0 <= v < |cursors| ::
         && cursors[v] == StartOf(owners, v) + |IndicesOf(owners[..i], v)| <= |order|
         && order[StartOf(owners, v)..cursors[v]] == IndicesOf(owners[..i], v)
  }

  lemma IndicesNext(owners: seq<nat>, i: nat, v: nat)
    requires i < |owners|
    ensures IndicesOf(owners[..i + 1], v)
         == if owners[i] == v then IndicesOf(owners[..i], v) + [i] else IndicesOf(owners[..i], v)
  {
    assert owners[..i + 1][..i] == owners[..i];
  }

  /** Filing entry `i` touches only its owner's stretch. */
  lemma StretchNext(order: seq<nat>, cursors: seq<nat>, owners: seq<nat>, i: nat, v: nat)
    requires i < |owners| && (forall j | 0 <= j < |owners| :: owners[j] < |cursors|)
    requires Filed(order, cursors, owners, i) && v < |cursors|
    ensures var w := owners[i];
            && cursors[w] < |order|
            && var order', cursors' := order[cursors[w] := i], cursors[w := cursors[w] + 1];
               && cursors'[v] == StartOf(owners, v) + |IndicesOf(owners[..i + 1], v)| <= |order'|
               && order'[StartOf(owners, v)..cursors'[v]] == IndicesOf(owners[..i + 1], v)
  {
    hide StartOf, IndicesOf;
    var w := owners[i];
    assert cursors[w] == StartOf(owners, w) + |IndicesOf(owners[..i], w)|;
    assert cursors[v] == StartOf(owners, v) + |IndicesOf(owners[..i], v)|;
    IndicesNext(owners, i, w);
    IndicesNext(owners, i, v);
    IndicesGrow(owners, i + 1, w);
    StartOfAll(owners, |cursors|);
    StartRises(owners, w, |cursors|);
    var order', cursors', from := order[cursors[w] := i], cursors[w := cursors[w] + 1], StartOf(owners, v);
    if v != w {
      IndicesGrow(owners, i, v);
      StartRises(owners, if v < w then v else w, if v < w then w else v);
    }
    assert order'[from..cursors[v]] == order[from..cursors[v]];
    if v == w {
      assert order'[from..cursors'[v]] == order'[from..cursors[v]] + [i];
    }
  }

  lemma FilesNext(order: seq<nat>, cursors: seq<nat>, owners: seq<nat>, i: nat)
    requires i < |owners| && (forall j | 0 <= j < |owners| :: owners[j] < |cursors|)
    requires Filed(order, cursors, owners, i)
    ensures var w := owners[i];
            && cursors[w] < |order|
            && Filed(order[cursors[w] := i], cursors[w := cursors[w] + 1], owners, i + 1)
  {
    hide StartOf, IndicesOf;
    var w := owners[i];
    StretchNext(order, cursors, owners, i, w);
    var order', cursors' := order[cursors[w] := i], cursors[w := cursors[w] + 1];
    forall v | 0 <= v < |cursors'|
      ensures cursors'[v] == StartOf(owners, v) + |IndicesOf(owners[..i + 1], v)| <= |order'|
      ensures order'[StartOf(owners, v)..cursors'[v]] == IndicesOf(owners[..i + 1], v)
    {
      StretchNext(order, cursors, owners, i, v);
    }
  }

  lemma FiledAtFirst(order: seq<nat>, cursors: seq<nat>, owners: seq<nat>)
    requires |order| == |owners| && forall j | 0 <= j < |owners| :: owners[j] < |cursors|
    requires forall v {:trigger cursors[v]} | 0 <= v < |cursors| :: cursors[v] == StartOf(owners, v)
    ensures Filed(order, cursors, owners, 0)
  {
    hide StartOf;
    assert owners[..0] == [];
    StartOfAll(owners, |cursors|);
    forall v | 0 <= v < |cursors|
      ensures cursors[v] == StartOf(owners, v) + |IndicesOf(owners[..0], v)| <= |order|
      ensures order[StartOf(owners, v)..cursors[v]] == IndicesOf(owners[..0], v)
    {
      assert cursors[v] == StartOf(owners, v);
      StartRises(owners, v, |cursors|);
    }
  }

  lemma StartOfNextNode(owners: seq<nat>, v: nat)
    ensures StartOf(owners, v + 1) == StartOf(owners, v) + |IndicesOf(owners, v)|
  {
  }

  lemma FiledAtLast(halves: seq<SlotHalfEdge>, order: seq<nat>, ends: seq<nat>)
    requires Filed(order, ends, Owners(halves), |halves|) && forall i | 0 <= i < |halves| :: Owners(halves)[i] < |ends|
    ensures Ordered(halves, order, ends)
  {
    hide StartOf, IndicesOf;
    var owners := Owners(halves);
    assert owners[..|halves|] == owners;
    forall v {:trigger ends[v]} | 0 <= v < |ends|
      ensures ends[v] == StartOf(owners, v + 1) <= |order| && StartOf(owners, v) <= ends[v]
      ensures order[StartOf(owners, v)..ends[v]] == IndicesOf(owners, v)
    {
      StartOfNextNode(owners, v);
      assert ends[v] == StartOf(owners, v) + |IndicesOf(owners[..|halves|], v)|;
    }
  }

  lemma HistogramReads(halves: seq<SlotHalfEdge>, histogram: seq<nat>)
    requires SlotHalfEdges(halves, histogram).Valid()
    ensures forall i | 0 <= i < |halves| :: Owners(halves)[i] == halves[i].owner < |histogram|
    ensures forall v {:trigger histogram[v]} | 0 <= v < |histogram| :: histogram[v] == |IndicesOf(Owners(halves), v)|
  {
    hide IndicesOf;
  }

  /** Sorts entry positions by owner, keeping the order of entries with one owner. */
  method OrderByOwner(halves: seq<SlotHalfEdge>, histogram: seq<nat>)
    returns (order: seq<nat>, ends: seq<nat>)
    requires SlotHalfEdges(halves, histogram).Valid()
    ensures |ends| == |histogram| && Ordered(halves, order, ends)
  {
    hide Filed, StartOf, IndicesOf, SlotHalfEdges.Valid, Ordered, Owners;
    ghost var owners := Owners(halves);
    HistogramReads(halves, histogram);
    var counts := PrefixSums(histogram, owners);
    order := seq(|halves|, _ => 0);
    FiledAtFirst(order, counts, owners);
    var i := 0;
    while i < |halves|
      invariant 0 <= i <= |halves| && |counts| == |histogram|
      invariant Filed(order, counts, owners, i)
    {
      FilesNext(order, counts, owners, i);
      var cursor := counts[halves[i].owner];
      order := order[cursor := i];
      counts := counts[halves[i].owner := cursor + 1];
      i := i + 1;
    }
    FiledAtLast(halves, order, counts);
    ends := counts;
  }

  /** Every entry has its place in the sorted order. */
  lemma OrderCovers(owners: seq<nat>, order: seq<nat>, ends: seq<nat>, i: nat) returns (j: nat)
    requires i < |owners| && owners[i] < |ends|
    requires forall v {:trigger ends[v]} | 0 <= v < |ends| ::
               && StartOf(owners, v) <= ends[v] <= |order|
               && order[StartOf(owners, v)..ends[v]] == IndicesOf(owners, v)
    ensures j < |order| && order[j] == i
  {
    var v := owners[i];
    IndicesHold(owners, i);
    assert ends[v] <= |order|;
    var mine := order[StartOf(owners, v)..ends[v]];
    var d :| 0 <= d < |mine| && mine[d] == i;
    j := StartOf(owners, v) + d;
  }

  lemma {:induction false} IndicesHold(owners: seq<nat>, i: nat)
    requires i < |owners|
    ensures i in IndicesOf(owners, owners[i])
  {
    var last := |owners| - 1;
    if i < last {
      IndicesHold(owners[..last], i);
    }
  }

  /** A value exactly when the slot stores values, and of the slot's type. */
  predicate HalfFits(half: SlotHalfEdge, typ: PropertyType) {
    if typ == NoType then half.property.None?
    else half.property.Some? && half.property.value.Typ() == typ
  }

  function NeighborsIn(halves: seq<SlotHalfEdge>, order: seq<nat>): (r: seq<RawNodeId>)
    requires forall j | 0 <= j < |order| :: order[j] < |halves|
    ensures |r| == |order|
  {
    seq(|order|, j requires 0 <= j < |order| => halves[order[j]].neighbor)
  }

  function ValuesIn(halves: seq<SlotHalfEdge>, order: seq<nat>): (r: seq<StoredProperty>)
    requires forall j | 0 <= j < |order| :: order[j] < |halves| && halves[order[j]].property.Some?
    ensures |r| == |order|
  {
    seq(|order|, j requires 0 <= j < |order| => halves[order[j]].property.value)
  }

  /** The first `j` halves are gathered in order. */
  ghost predicate Gathered(halves: seq<SlotHalfEdge>, order: seq<nat>, typ: PropertyType, neighbors: seq<RawNodeId>,
                           values: StorageArray, j: nat)
    requires forall j | 0 <= j < |order| :: order[j] < |halves|
  {
    && j <= |order|
    && (forall k | 0 <= k < j :: HalfFits(halves[order[k]], typ))
    && neighbors == NeighborsIn(halves, order[..j])
    && TypeOf(values) == typ
    && (typ != NoType ==> Items(values) == ValuesIn(halves, order[..j]))
  }

  lemma GatheredNext(halves: seq<SlotHalfEdge>, order: seq<nat>, typ: PropertyType, neighbors: seq<RawNodeId>,
                     values: StorageArray, j: nat, values': StorageArray)
    requires forall j | 0 <= j < |order| :: order[j] < |halves|
    requires Gathered(halves, order, typ, neighbors, values, j) && j < |order| && HalfFits(halves[order[j]], typ)
    requires if halves[order[j]].property.Some? then TryPush(values, halves[order[j]].property.value) == Ok(values')
             else values' == values
    ensures Gathered(halves, order, typ, neighbors + [halves[order[j]].neighbor], values', j + 1)
  {
    var o, o' := order[..j], order[..j + 1];
    assert o' == o + [order[j]];
    assert NeighborsIn(halves, o') == NeighborsIn(halves, o) + [halves[order[j]].neighbor];
    if typ != NoType {
      assert ValuesIn(halves, o') == ValuesIn(halves, o) + [halves[order[j]].property.value];
    }
  }

  lemma GatheredStarts(halves: seq<SlotHalfEdge>, order: seq<nat>, typ: PropertyType)
    requires forall j | 0 <= j < |order| :: order[j] < |halves|
    ensures Gathered(halves, order, typ, [], NewArray(typ), 0)
  {
  }

  lemma GatheredEnds(halves: seq<SlotHalfEdge>, order: seq<nat>, typ: PropertyType, neighbors: seq<RawNodeId>,
                     values: StorageArray)
    requires forall j | 0 <= j < |order| :: order[j] < |halves|
    requires Gathered(halves, order, typ, neighbors, values, |order|)
    ensures forall j | 0 <= j < |order| :: HalfFits(halves[order[j]], typ)
    ensures neighbors == NeighborsIn(halves, order) && TypeOf(values) == typ
    ensures typ != NoType ==> Items(values) == ValuesIn(halves, order)
  {
    assert order[..|order|] == order;
  }

  lemma GatheredType(halves: seq<SlotHalfEdge>, order: seq<nat>, typ: PropertyType, neighbors: seq<RawNodeId>,
                     values: StorageArray, j: nat)
    requires forall j | 0 <= j < |order| :: order[j] < |halves|
    requires Gathered(halves, order, typ, neighbors, values, j)
    ensures TypeOf(values) == typ
  {
  }

  function StoredOutcome(half: SlotHalfEdge, typ: PropertyType): Outcome<Error> {
    match half.property
    case Some(prop) => if prop.Typ() == typ then Ok(()) else Err(InvalidPropertyType(typ, prop.Typ()))
    case None => if typ == NoType then Ok(()) else Err(InvalidPropertyType(typ, NoType))
  }

  function StoredOutcomes(halves: seq<SlotHalfEdge>, order: seq<nat>, typ: PropertyType): (r: seq<Outcome<Error>>)
    requires forall j | 0 <= j < |order| :: order[j] < |halves|
    ensures |r| == |order|
  {
    seq(|order|, j requires 0 <= j < |order| => StoredOutcome(halves[order[j]], typ))
  }

  lemma PushedOutcome(values: StorageArray, prop: StoredProperty)
    requires TryPush(values, prop).Err?
    ensures TryPush(values, prop).error == InvalidPropertyType(TypeOf(values), prop.Typ())
    ensures prop.Typ() != TypeOf(values)
  {
  }

  lemma FitsWhenOk(half: SlotHalfEdge, typ: PropertyType)
    ensures HalfFits(half, typ) <==> StoredOutcome(half, typ).Ok?
  {
    if half.property.Some? {
      StoredIsTyped(half.property.value);
    }
  }

  lemma StoredIsTyped(v: StoredProperty)
    ensures v.Typ() != NoType
  {
  }

  /** With the halves before it gathered, a half that does not fit is what the slot is refused for. */
  lemma FirstHalfFails(halves: seq<SlotHalfEdge>, order: seq<nat>, typ: PropertyType, neighbors: seq<RawNodeId>,
                       values: StorageArray, j: nat)
    requires forall j | 0 <= j < |order| :: order[j] < |halves|
    requires Gathered(halves, order, typ, neighbors, values, j) && j < |order|
    requires StoredOutcome(halves[order[j]], typ).Err?
    ensures First(StoredOutcomes(halves, order, typ)) == StoredOutcome(halves[order[j]], typ)
  {
    hide StoredOutcome, HalfFits, NeighborsIn, ValuesIn;
    forall k | 0 <= k < j
      ensures StoredOutcomes(halves, order, typ)[k].Ok?
    {
      FitsWhenOk(halves[order[k]], typ);
    }
    FirstFailsAt(StoredOutcomes(halves, order, typ), j);
  }

  lemma AllHalvesPass(halves: seq<SlotHalfEdge>, order: seq<nat>, typ: PropertyType)
    requires forall j | 0 <= j < |order| :: order[j] < |halves| && HalfFits(halves[order[j]], typ)
    ensures First(StoredOutcomes(halves, order, typ)).Ok?
  {
    hide StoredOutcome, HalfFits;
    forall k | 0 <= k < |order|
      ensures StoredOutcomes(halves, order, typ)[k].Ok?
    {
      FitsWhenOk(halves[order[k]], typ);
    }
    FirstOk(StoredOutcomes(halves, order, typ));
  }

  /** Lays the sorted halves out as parallel arrays; a half that does not fit is an error. */
  method Gather(halves: seq<SlotHalfEdge>, order: seq<nat>, typ: PropertyType)
    returns (r: Result<(seq<RawNodeId>, StorageArray), Error>)
    requires forall j | 0 <= j < |order| :: order[j] < |halves|
    ensures r.Ok? <==> forall j | 0 <= j < |order| :: HalfFits(halves[order[j]], typ)
    ensures Answers(r, First(StoredOutcomes(halves, order, typ)))
    ensures r.Ok? ==>
              && r.value.0 == NeighborsIn(halves, order)
              && TypeOf(r.value.1) == typ
              && (typ != NoType ==> Items(r.value.1) == ValuesIn(halves, order))
  {
    hide Gathered, NeighborsIn, ValuesIn, Items, TypeOf, TryPush;
    var neighbors := [];
    var values := NewArray(typ);
    GatheredStarts(halves, order, typ);
    var j := 0;
    while j < |order|
      invariant 0 <= j <= |order|
      invariant Gathered(halves, order, typ, neighbors, values, j)
    {
      var half := halves[order[j]];
      GatheredType(halves, order, typ, neighbors, values, j);
      ghost var before := values;
      match (half.property, typ != NoType) {
        case (Some(prop), true) =>
          var pushed := TryPush(values, prop);
          if pushed.Err? {
            PushedOutcome(values, prop);
            FirstHalfFails(halves, order, typ, neighbors, before, j);
            return Err(pushed.error);
          }
          values := pushed.value;
        case (None, true) =>
          FirstHalfFails(halves, order, typ, neighbors, before, j);
          return Err(InvalidPropertyType(typ, NoType));
        case (Some(prop), false) =>
          StoredIsTyped(prop);
          FirstHalfFails(halves, order, typ, neighbors, before, j);
          return Err(InvalidPropertyType(NoType, prop.Typ()));
        case (None, false) =>
      }
      GatheredNext(halves, order, typ, neighbors, before, j, values);
      neighbors := neighbors + [half.neighbor];
      j := j + 1;
    }
    GatheredEnds(halves, order, typ, neighbors, values);
    AllHalvesPass(halves, order, typ);
    return Ok((neighbors, values));
  }

  function PlaceOutcomes(offsets: seq<u32>, ends: seq<nat>): (r: seq<Outcome<Error>>)
    requires |offsets| == |ends| + 1
    ensures |r| == |ends|
  {
    seq(|ends|, k requires 0 <= k < |ends| => AddOutcome(offsets[k + 1], ends[k]))
  }

  lemma PlaceOutcomeAt(offsets: seq<u32>, ends: seq<nat>, k: nat)
    requires |offsets| == |ends| + 1 && k < |ends|
    ensures Answers(CheckedAddDelta(offsets[k + 1], ends[k]), PlaceOutcomes(offsets, ends)[k])
  {
  }

  /** Where each node's new entries go, and the offsets once they are in place. */
  method PlaceBatches(offsets: seq<u32>, ends: seq<nat>)
    returns (r: Result<(seq<Batch>, seq<u32>), Error>)
    requires |offsets| == |ends| + 1 && Monotone([0] + ends)
    ensures r.Ok? <==> forall k | 0 <= k < |ends| :: offsets[k + 1] + ends[k] <= U32_MAX
    ensures Answers(r, First(PlaceOutcomes(offsets, ends)))
    ensures r.Ok? ==>
              && r.value.0 == BatchesUpTo(offsets, [0] + ends, |ends|)
              && r.value.1 == Summed(offsets, [0] + ends)
  {
    hide PlaceOutcomes, First;
    var batches := [];
    var shifted := offsets;
    ghost var starts, outcomes := [0] + ends, PlaceOutcomes(offsets, ends);
    var prevEnd := 0;
    var k := 0;
    while k < |ends|
      invariant 0 <= k <= |ends| && |shifted| == |offsets|
      invariant prevEnd == starts[k]
      invariant batches == BatchesUpTo(offsets, starts, k)
      invariant forall u {:trigger shifted[u]} | 0 <= u <= k :: shifted[u] == offsets[u] + starts[u]
      invariant forall u {:trigger shifted[u]} | k < u < |offsets| :: shifted[u] == offsets[u]
      invariant forall u | 0 <= u < k :: offsets[u + 1] + ends[u] <= U32_MAX
      invariant forall u | 0 <= u < k :: outcomes[u].Ok?
    {
      var runEnd := ends[k];
      assert starts[k + 1] == runEnd && shifted[k + 1] == offsets[k + 1];
      if runEnd > prevEnd {
        batches := batches + [Batch(shifted[k + 1] + prevEnd, runEnd - prevEnd)];
      }
      var moved := CheckedAddDelta(shifted[k + 1], runEnd);
      PlaceOutcomeAt(offsets, ends, k);
      if moved.Err? {
        FirstFailsAt(outcomes, k);
        return Err(moved.error);
      }
      shifted := shifted[k + 1 := moved.value];
      prevEnd := runEnd;
      k := k + 1;
    }
    FirstOk(outcomes);
    return Ok((batches, shifted));
  }

  // ----- merging into the slot

  /** What is written plus whatever old entries are left to copy. */
  function Finished<T>(old_: seq<T>, p: Progress<T>): seq<T>
    requires p.copied <= |old_|
  {
    p.written + old_[p.copied..]
  }

  /** Copies the old stretch before one batch, then the batch, in both arrays alike. */
  method MergeBatch(slot: EdgeSlot, added: seq<RawNodeId>, addedValues: StorageArray, b: Batch,
                    neighbors: seq<RawNodeId>, values: StorageArray, copied: nat, taken: nat)
    returns (r: Result<(seq<RawNodeId>, StorageArray), Error>)
    requires TypeOf(addedValues) == TypeOf(slot.values) == TypeOf(values) && copied <= |slot.neighbors|
    requires TypeOf(values) != NoType ==>
               && |Items(slot.values)| == |slot.neighbors|
               && |Items(addedValues)| == |added|
               && |Items(values)| == |neighbors|
    ensures var p := MergeOne(slot.neighbors, added, Progress(neighbors, copied, taken), b);
            && (r.Ok? <==> p.Some?)
            && (r.Ok? ==>
                  && b.place >= |neighbors|
                  && p == Some(Progress(r.value.0, copied + (b.place - |neighbors|), taken + b.count))
                  && copied + (b.place - |neighbors|) <= |slot.neighbors|
                  && TypeOf(r.value.1) == TypeOf(values))
    ensures r.Ok? && TypeOf(values) != NoType ==>
              && |Items(r.value.1)| == |r.value.0|
              && MergeOne(Items(slot.values), Items(addedValues), Progress(Items(values), copied, taken), b)
                 == Some(Progress(Items(r.value.1), copied + (b.place - |neighbors|), taken + b.count))
  {
    if b.place < |neighbors| {
      return Err(OffsetUnderflow);
    }
    var take := b.place - |neighbors|;
    var neighbors', values' := neighbors, values;
    var hasValues := TypeOf(values) != NoType;
    if take > 0 {
      var stretch :- RangedSlice(slot.neighbors, copied, copied + take);
      neighbors' := neighbors' + stretch;
      if hasValues {
        var extended := TryExtendFromRange(values', slot.values, copied, copied + take);
        assert extended.Ok?;
        values' := extended.value;
      }
    } else {
      assert neighbors + slot.neighbors[copied..copied] == neighbors;
      assert hasValues ==> Items(values) + Items(slot.values)[copied..copied] == Items(values);
    }
    var batch :- RangedSlice(added, taken, taken + b.count);
    neighbors' := neighbors' + batch;
    if hasValues {
      var extended := TryExtendFromRange(values', addedValues, taken, taken + b.count);
      assert extended.Ok?;
      values' := extended.value;
    }
    return Ok((neighbors', values'));
  }

  /** Rebuilds the slot's arrays in one pass, alternating old stretches with batches. */
  method MergeEdgeBatches(slot: EdgeSlot, batches: seq<Batch>, added: seq<RawNodeId>, addedValues: StorageArray)
    returns (r: Result<EdgeSlot, Error>)
    requires TypeOf(addedValues) == TypeOf(slot.values)
    requires TypeOf(slot.values) != NoType ==>
               |Items(slot.values)| == |slot.neighbors| && |Items(addedValues)| == |added|
    ensures slot.neighbors == [] ==> r == Ok(slot.(neighbors := added, values := addedValues))
    ensures slot.neighbors != [] ==>
              var p := MergeAll(slot.neighbors, added, batches);
              && (r.Ok? <==> p.Some?)
              && (r.Ok? ==>
                    && p.value.copied <= |slot.neighbors|
                    && r.value.offsets == slot.offsets
                    && r.value.neighbors == Finished(slot.neighbors, p.value)
                    && TypeOf(r.value.values) == TypeOf(slot.values))
    ensures slot.neighbors != [] && r.Ok? && TypeOf(slot.values) != NoType ==>
              var q := MergeAll(Items(slot.values), Items(addedValues), batches);
              && q.Some? && q.value.copied <= |Items(slot.values)|
              && Items(r.value.values) == Finished(Items(slot.values), q.value)
  {
    hide MergeAll, MergeOne, Merging, MergedTo;
    var hasValues := TypeOf(slot.values) != NoType;
    if slot.neighbors == [] {
      return Ok(slot.(neighbors := added, values := if hasValues then addedValues else NoValues));
    }
    var neighbors := [];
    var values := NewArray(TypeOf(slot.values));
    var copied: nat, taken: nat := 0, 0;
    MergingStarts(slot, added, addedValues, batches);
    var i := 0;
    while i < |batches|
      invariant 0 <= i <= |batches|
      invariant copied <= |slot.neighbors|
      invariant Merging(slot, added, addedValues, batches, i, neighbors, values, copied, taken)
    {
      var b := batches[i];
      MergingReads(slot, added, addedValues, batches, i, neighbors, values, copied, taken);
      var merged := MergeBatch(slot, added, addedValues, b, neighbors, values, copied, taken);
      MergingNext(slot, added, addedValues, batches, i, neighbors, values, copied, taken, merged);
      if merged.Err? {
        return Err(merged.error);
      }
      copied, taken := copied + (b.place - |neighbors|), taken + b.count;
      neighbors, values := merged.value.0, merged.value.1;
      i := i + 1;
    }
    MergingEnds(slot, added, addedValues, batches, neighbors, values, copied, taken);
    neighbors := neighbors + slot.neighbors[copied..];
    if hasValues {
      var extended := TryExtendFromRange(values, slot.values, copied, |slot.neighbors|);
      assert extended.Ok?;
      values := extended.value;
    }
    return Ok(slot.(neighbors := neighbors, values := values));
  }

  /** The first `i` batches are merged into both arrays. */
  ghost predicate Merging(slot: EdgeSlot, added: seq<RawNodeId>, addedValues: StorageArray, batches: seq<Batch>,
                          i: nat, neighbors: seq<RawNodeId>, values: StorageArray, copied: nat, taken: nat)
  {
    && TypeOf(values) == TypeOf(slot.values)
    && MergedTo(slot.neighbors, added, batches, i, Progress(neighbors, copied, taken))
    && (TypeOf(values) != NoType ==>
          && |Items(values)| == |neighbors|
          && MergedTo(Items(slot.values), Items(addedValues), batches, i, Progress(Items(values), copied, taken)))
  }

  lemma MergingStarts(slot: EdgeSlot, added: seq<RawNodeId>, addedValues: StorageArray, batches: seq<Batch>)
    ensures Merging(slot, added, addedValues, batches, 0, [], NewArray(TypeOf(slot.values)), 0, 0)
  {
  }

  lemma MergingReads(slot: EdgeSlot, added: seq<RawNodeId>, addedValues: StorageArray, batches: seq<Batch>,
                     i: nat, neighbors: seq<RawNodeId>, values: StorageArray, copied: nat, taken: nat)
    requires Merging(slot, added, addedValues, batches, i, neighbors, values, copied, taken)
    ensures TypeOf(values) == TypeOf(slot.values)
    ensures TypeOf(values) != NoType ==> |Items(values)| == |neighbors|
  {
  }

  lemma MergingEnds(slot: EdgeSlot, added: seq<RawNodeId>, addedValues: StorageArray, batches: seq<Batch>,
                    neighbors: seq<RawNodeId>, values: StorageArray, copied: nat, taken: nat)
    requires Merging(slot, added, addedValues, batches, |batches|, neighbors, values, copied, taken)
    ensures TypeOf(values) == TypeOf(slot.values)
    ensures MergeAll(slot.neighbors, added, batches) == Some(Progress(neighbors, copied, taken))
    ensures TypeOf(values) != NoType ==>
              MergeAll(Items(slot.values), Items(addedValues), batches) == Some(Progress(Items(values), copied, taken))
  {
    assert batches[..|batches|] == batches;
  }

  /** One batch merged into both arrays, or into neither. */
  lemma MergingNext(slot: EdgeSlot, added: seq<RawNodeId>, addedValues: StorageArray, batches: seq<Batch>,
                    i: nat, neighbors: seq<RawNodeId>, values: StorageArray, copied: nat, taken: nat,
                    merged: Result<(seq<RawNodeId>, StorageArray), Error>)
    requires i < |batches| && Merging(slot, added, addedValues, batches, i, neighbors, values, copied, taken)
    requires var p := MergeOne(slot.neighbors, added, Progress(neighbors, copied, taken), batches[i]);
             && (merged.Ok? <==> p.Some?)
             && (merged.Ok? ==>
                   && batches[i].place >= |neighbors|
                   && p == Some(Progress(merged.value.0, copied + (batches[i].place - |neighbors|),
                                         taken + batches[i].count))
                   && TypeOf(merged.value.1) == TypeOf(values))
    requires merged.Ok? && TypeOf(values) != NoType ==>
               && |Items(merged.value.1)| == |merged.value.0|
               && MergeOne(Items(slot.values), Items(addedValues), Progress(Items(values), copied, taken), batches[i])
                  == Some(Progress(Items(merged.value.1), copied + (batches[i].place - |neighbors|),
                                   taken + batches[i].count))
    ensures merged.Err? ==> MergeAll(slot.neighbors, added, batches).None?
    ensures merged.Ok? ==>
              && batches[i].place >= |neighbors|
              && Merging(slot, added, addedValues, batches, i + 1, merged.value.0, merged.value.1,
                         copied + (batches[i].place - |neighbors|), taken + batches[i].count)
  {
    hide MergeAll, MergeOne, MergedTo;
    MergedNext(slot.neighbors, added, batches, i, Progress(neighbors, copied, taken));
    if TypeOf(values) != NoType {
      MergedNext(Items(slot.values), Items(addedValues), batches, i, Progress(Items(values), copied, taken));
    }
  }

  ghost predicate MergedTo<T>(old_: seq<T>, added: seq<T>, batches: seq<Batch>, i: nat, p: Progress<T>) {
    i <= |batches| && MergeAll(old_, added, batches[..i]) == Some(p)
  }

  lemma MergedNext<T>(old_: seq<T>, added: seq<T>, batches: seq<Batch>, i: nat, p: Progress<T>)
    requires i < |batches| && MergedTo(old_, added, batches, i, p)
    ensures var q := MergeOne(old_, added, p, batches[i]);
            if q.Some? then MergedTo(old_, added, batches, i + 1, q.value)
            else MergeAll(old_, added, batches).None?
  {
    assert batches[..i + 1] == batches[..i] + [batches[i]];
    MergeAllNext(old_, added, batches[..i], batches[i]);
    MergeFailsEarly(old_, added, batches, i + 1);
  }

  lemma {:induction false} MergeFailsEarly<T>(old_: seq<T>, added: seq<T>, batches: seq<Batch>, i: nat)
    requires i <= |batches|
    ensures MergeAll(old_, added, batches[..i]).None? ==> MergeAll(old_, added, batches).None?
    decreases |batches|
  {
    if i < |batches| {
      MergeFailsEarly(old_, added, batches[..|batches| - 1], i);
      assert batches[..|batches| - 1][..i] == batches[..i];
    } else {
      assert batches[..i] == batches;
    }
  }

  // ----- staging one slot

  /** New half-edges with the values their ids stand for. */
  function Resolved(strings: seq<Text>, halves: seq<SlotHalfEdge>): (r: seq<NewHalf<PropertyValue>>)
    ensures |r| == |halves|
  {
    seq(|halves|, i requires 0 <= i < |halves| => ResolvedHalf(strings, halves[i]))
  }

  function ResolvedHalf(strings: seq<Text>, h: SlotHalfEdge): NewHalf<PropertyValue> {
    NewHalf(h.owner, Half(h.neighbor, if h.property.Some? then Some(Resolve(strings, h.property.value)) else None))
  }

  /** The values new half-edges carry are strings of the pool or no strings at all. */
  predicate HalvesInPool(strings: seq<Text>, halves: seq<SlotHalfEdge>) {
    forall h <- halves :: h.property.Some? ==> IdInPool(strings, h.property.value)
  }

  /** `after` is the slot with the insert written into it. */
  ghost predicate IsSpliced(mid: EdgeSlot, ins: EdgeSlotInsert, after: EdgeSlot) {
    && after.offsets == ins.offsets
    && TypeOf(after.values) == TypeOf(mid.values)
    && if ins.batches == [] then after.neighbors == mid.neighbors && after.values == mid.values
       else if mid.neighbors == [] then after.neighbors == ins.neighbors && after.values == ins.values
       else
         var p := MergeAll(mid.neighbors, ins.neighbors, ins.batches);
         && p.Some? && p.value.copied <= |mid.neighbors|
         && after.neighbors == Finished(mid.neighbors, p.value)
         && (TypeOf(mid.values) != NoType ==>
               var q := MergeAll(Items(mid.values), Items(ins.values), ins.batches);
               && q.Some? && q.value.copied <= |Items(mid.values)|
               && Items(after.values) == Finished(Items(mid.values), q.value))
  }

  /** Writing the insert into the slot cannot fail. */
  ghost predicate InsertReady(mid: EdgeSlot, ins: EdgeSlotInsert) {
    && TypeOf(ins.values) == TypeOf(mid.values)
    && (TypeOf(mid.values) != NoType ==>
          |Items(mid.values)| == |mid.neighbors| && |Items(ins.values)| == |ins.neighbors|)
    && (ins.batches != [] && mid.neighbors != [] ==>
          MergeAll(mid.neighbors, ins.neighbors, ins.batches).Some?)
  }

  /** `after` is well formed and holds every old run followed by its node's new halves. */
  ghost predicate SlotInserted(strings: seq<Text>, typ: PropertyType, mid: EdgeSlot, after: EdgeSlot,
                               oldCount: nat, total: nat, halves: seq<SlotHalfEdge>)
  {
    && EdgeSlotOk(after, typ, total, strings)
    && EdgeTable(strings, after, total) == Inserted(EdgeTable(strings, mid, oldCount), total, Resolved(strings, halves))
  }

  function Resized(offsets: seq<u32>, length: nat): (r: seq<u32>) {
    if offsets == [] then seq(length, _ => 0)
    else if |offsets| < length then offsets + seq(length - |offsets|, _ => offsets[|offsets| - 1])
    else offsets
  }

  lemma ResizedRuns<T>(offsets: seq<u32>, arr: seq<T>, n: nat, total: nat)
    requires Cuts(offsets, n, |arr|) && n <= total
    ensures Cuts(Resized(offsets, total + 1), total, |arr|) && Resized(offsets, total + 1) != []
    ensures forall k :: 0 <= k < total ==> Run(Resized(offsets, total + 1), arr, k) == Run(offsets, arr, k)
  {
    var resized := Resized(offsets, total + 1);
    if offsets != [] {
      ExtendedRuns(offsets, arr, n, total - n);
      assert resized == offsets + seq(total - n, _ => Last(offsets));
    }
  }

  lemma {:induction false} OwnedByIndices<V>(news: seq<NewHalf<V>>, owners: seq<nat>, v: nat)
    requires |owners| == |news| && forall i | 0 <= i < |news| :: owners[i] == news[i].owner
    ensures |OwnedBy(news, v)| == |IndicesOf(owners, v)|
    ensures forall d | 0 <= d < |IndicesOf(owners, v)| ::
              IndicesOf(owners, v)[d] < |news| && OwnedBy(news, v)[d] == news[IndicesOf(owners, v)[d]].half
  {
    IndicesBelow(owners, v);
    if news != [] {
      var last := |news| - 1;
      OwnedByIndices(news[..last], owners[..last], v);
      IndicesBelow(owners[..last], v);
    }
  }

  /** The order a counting sort leaves entries in, cut at each node's end. */
  ghost predicate Ordered(halves: seq<SlotHalfEdge>, order: seq<nat>, ends: seq<nat>) {
    var owners := Owners(halves);
    && |order| == |halves|
    && (forall i | 0 <= i < |owners| :: owners[i] < |ends|)
    && forall v {:trigger ends[v]} | 0 <= v < |ends| ::
         && ends[v] == StartOf(owners, v + 1) <= |order|
         && StartOf(owners, v) <= ends[v]
         && order[StartOf(owners, v)..ends[v]] == IndicesOf(owners, v)
  }

  lemma StartOfFirst(owners: seq<nat>)
    ensures StartOf(owners, 0) == 0
  {
  }

  /** What the order says of one node's stretch. */
  lemma OrderedAt(halves: seq<SlotHalfEdge>, order: seq<nat>, ends: seq<nat>, v: nat)
    requires Ordered(halves, order, ends) && v < |ends|
    ensures ends[v] == StartOf(Owners(halves), v + 1) <= |order| && StartOf(Owners(halves), v) <= ends[v]
    ensures order[StartOf(Owners(halves), v)..ends[v]] == IndicesOf(Owners(halves), v)
  {
    hide StartOf, IndicesOf, Owners;
  }

  lemma OrderedSizes(halves: seq<SlotHalfEdge>, order: seq<nat>, ends: seq<nat>)
    requires Ordered(halves, order, ends)
    ensures |order| == |halves| && forall i | 0 <= i < |halves| :: Owners(halves)[i] < |ends|
  {
    hide StartOf, IndicesOf;
  }

  /** The ends cut the sorted entries, and each cut holds exactly its node's entries in order. */
  lemma OrderedCuts(halves: seq<SlotHalfEdge>, order: seq<nat>, ends: seq<nat>)
    requires Ordered(halves, order, ends)
    ensures Cuts([0] + ends, |ends|, |order|)
    ensures forall v {:trigger ends[v]} | 0 <= v < |ends| :: ([0] + ends)[v] == StartOf(Owners(halves), v)
  {
    hide StartOf, IndicesOf, Owners, Ordered;
    var owners, starts := Owners(halves), [0] + ends;
    OrderedSizes(halves, order, ends);
    StartOfFirst(owners);
    forall v | 0 <= v <= |ends|
      ensures starts[v] == StartOf(owners, v)
    {
      if v > 0 {
        OrderedAt(halves, order, ends, v - 1);
        assert starts[v] == ends[v - 1];
      }
    }
    forall i, j | 0 <= i <= j < |starts|
      ensures starts[i] <= starts[j]
    {
      StartRises(owners, i, j);
    }
    StartOfAll(owners, |ends|);
  }

  lemma OrderInRange(halves: seq<SlotHalfEdge>, order: seq<nat>, ends: seq<nat>, j: nat)
    requires Ordered(halves, order, ends) && j < |order|
    ensures order[j] < |halves|
  {
    hide StartOf, IndicesOf, Ordered;
    OrderedCuts(halves, order, ends);
    var owners, starts := Owners(halves), [0] + ends;
    var v := Owner(starts, |ends|, |order|, j);
    OrderedAt(halves, order, ends, v);
    assert ends[v] == starts[v + 1] && starts[v] == StartOf(owners, v);
    IndicesBelow(owners, v);
    assert order[j] == order[StartOf(owners, v)..ends[v]][j - StartOf(owners, v)];
  }

  lemma SortedRun(strings: seq<Text>, halves: seq<SlotHalfEdge>, order: seq<nat>, ends: seq<nat>,
                  sorted: seq<Half<PropertyValue>>, v: nat)
    requires Ordered(halves, order, ends) && v < |ends| && |sorted| == |order|
    requires forall j | 0 <= j < |order| ::
               order[j] < |halves| && sorted[j] == ResolvedHalf(strings, halves[order[j]]).half
    ensures Cuts([0] + ends, |ends|, |sorted|)
    ensures Run([0] + ends, sorted, v) == OwnedBy(Resolved(strings, halves), v)
  {
    OrderedCuts(halves, order, ends);
    var owners := Owners(halves);
    var from, to := StartOf(owners, v), ends[v];
    assert ([0] + ends)[v] == from && ([0] + ends)[v + 1] == to;
    assert order[from..to] == IndicesOf(owners, v);
    var news := Resolved(strings, halves);
    OwnedByIndices(news, owners, v);
    SlicesAlike(strings, halves, order, sorted, from, to, OwnedBy(news, v));
  }

  lemma SlicesAlike(strings: seq<Text>, halves: seq<SlotHalfEdge>, order: seq<nat>,
                    sorted: seq<Half<PropertyValue>>, from: nat, to: nat, owned: seq<Half<PropertyValue>>)
    requires from <= to <= |order| == |sorted| && |owned| == to - from
    requires forall j | 0 <= j < |order| ::
               order[j] < |halves| && sorted[j] == ResolvedHalf(strings, halves[order[j]]).half
    requires forall d | 0 <= d < |owned| :: owned[d] == ResolvedHalf(strings, halves[order[from..to][d]]).half
    ensures sorted[from..to] == owned
  {
    forall d | 0 <= d < |owned|
      ensures sorted[from..to][d] == owned[d]
    {
      assert order[from..to][d] == order[from + d];
    }
  }

  // ----- what the merged slot holds

  /** One array of a slot, as writing an insert leaves it. */
  ghost predicate ArraySpliced<T>(old_: seq<T>, added: seq<T>, batches: seq<Batch>, after: seq<T>) {
    if batches == [] then after == old_
    else if old_ == [] then after == added
    else
      var p := MergeAll(old_, added, batches);
      p.Some? && p.value.copied <= |old_| && after == Finished(old_, p.value)
  }

  lemma {:induction false} NoBatches(pre: seq<nat>, starts: seq<nat>, m: nat)
    requires m < |pre| && m < |starts| && Monotone(starts) && BatchesUpTo(pre, starts, m) == []
    ensures starts[m] == starts[0]
  {
    if m > 0 {
      NoBatches(pre, starts, m - 1);
    }
  }

  lemma SplicedIsInterleaved<T>(pre: seq<nat>, old_: seq<T>, starts: seq<nat>, added: seq<T>, after: seq<T>)
    requires Mergeable(pre, |old_|, starts, |added|)
    requires ArraySpliced(old_, added, BatchesUpTo(pre, starts, |pre| - 1), after)
    ensures after == Interleaved(pre, old_, starts, added, |pre| - 1)
  {
    var n := |pre| - 1;
    if BatchesUpTo(pre, starts, n) == [] {
      NoBatches(pre, starts, n);
      assert added == [];
      NothingAdded(pre, old_, starts, n);
      assert old_[..pre[n]] == old_;
    } else if old_ == [] {
      NothingThere(pre, starts, added, n);
      assert added[..starts[n]] == added;
    } else {
      MergesInterleaved(pre, old_, starts, added, n);
      var p := MergeAll(old_, added, BatchesUpTo(pre, starts, n)).value;
      assert old_[p.copied..pre[n]] == old_[p.copied..];
    }
  }

  lemma ZipJoins(strings: seq<Text>, a: seq<RawNodeId>, x: seq<StoredProperty>, b: seq<RawNodeId>,
                 y: seq<StoredProperty>)
    requires (|a| == |x| && |b| == |y|) || x == y == []
    ensures Zip(strings, a + b, x + y) == Zip(strings, a, x) + Zip(strings, b, y)
  {
  }

  lemma ZipSlice(strings: seq<Text>, a: seq<RawNodeId>, x: seq<StoredProperty>, i: nat, j: nat)
    requires i <= j <= |a| && |x| == |a|
    ensures Zip(strings, a, x)[i..j] == Zip(strings, a[i..j], x[i..j])
  {
  }

  /** Merging the two arrays and pairing them up is merging the paired ones. */
  lemma {:induction false} ZipInterleaved(strings: seq<Text>, pre: seq<nat>, a: seq<RawNodeId>, x: seq<StoredProperty>,
                                         starts: seq<nat>, b: seq<RawNodeId>, y: seq<StoredProperty>, m: nat)
    requires Mergeable(pre, |a|, starts, |b|) && |x| == |a| && |y| == |b| && m < |pre|
    ensures |Interleaved(pre, a, starts, b, m)| == |Interleaved(pre, x, starts, y, m)|
    ensures Zip(strings, Interleaved(pre, a, starts, b, m), Interleaved(pre, x, starts, y, m))
         == Interleaved(pre, Zip(strings, a, x), starts, Zip(strings, b, y), m)
  {
    if m > 0 {
      ZipInterleaved(strings, pre, a, x, starts, b, y, m - 1);
      var i, j, k, l := pre[m - 1], pre[m], starts[m - 1], starts[m];
      ZipSlice(strings, a, x, i, j);
      ZipSlice(strings, b, y, k, l);
      var ma, mx := Interleaved(pre, a, starts, b, m - 1), Interleaved(pre, x, starts, y, m - 1);
      ZipJoins(strings, ma, mx, a[i..j], x[i..j]);
      ZipJoins(strings, ma + a[i..j], mx + x[i..j], b[k..l], y[k..l]);
    }
  }

  lemma {:induction false} ZipInterleavedBare(strings: seq<Text>, pre: seq<nat>, a: seq<RawNodeId>,
                                             starts: seq<nat>, b: seq<RawNodeId>, m: nat)
    requires Mergeable(pre, |a|, starts, |b|) && m < |pre|
    ensures Zip(strings, Interleaved(pre, a, starts, b, m), [])
         == Interleaved(pre, Zip(strings, a, []), starts, Zip(strings, b, []), m)
  {
    if m > 0 {
      ZipInterleavedBare(strings, pre, a, starts, b, m - 1);
      var i, j, k, l := pre[m - 1], pre[m], starts[m - 1], starts[m];
      assert Zip(strings, a, [])[i..j] == Zip(strings, a[i..j], []);
      assert Zip(strings, b, [])[k..l] == Zip(strings, b[k..l], []);
      var ma := Interleaved(pre, a, starts, b, m - 1);
      ZipJoins(strings, ma, [], a[i..j], []);
      ZipJoins(strings, ma + a[i..j], [], b[k..l], []);
    }
  }

  lemma {:induction false} InterleavedMembers<T>(pre: seq<nat>, old_: seq<T>, starts: seq<nat>, added: seq<T>, m: nat,
                                                 x: T)
    requires Mergeable(pre, |old_|, starts, |added|) && m < |pre|
    requires x in Interleaved(pre, old_, starts, added, m)
    ensures x in old_ || x in added
  {
    if m > 0 {
      var before := Interleaved(pre, old_, starts, added, m - 1);
      if x in before {
        InterleavedMembers(pre, old_, starts, added, m - 1, x);
      }
    }
  }

  /** The staged arrays of an insert: sorted halves laid out, with offsets and batches to match. */
  ghost predicate Staged(typ: PropertyType, pre: seq<u32>, halves: seq<SlotHalfEdge>, order: seq<nat>,
                         ends: seq<nat>, ins: EdgeSlotInsert)
  {
    && Ordered(halves, order, ends)
    && |pre| == |ends| + 1
    && Cuts([0] + ends, |ends|, |order|)
    && (forall j | 0 <= j < |order| :: order[j] < |halves| && HalfFits(halves[order[j]], typ))
    && ins.offsets == Summed(pre, [0] + ends)
    && ins.batches == BatchesUpTo(pre, [0] + ends, |ends|)
    && ins.neighbors == NeighborsIn(halves, order)
    && TypeOf(ins.values) == typ
    && (typ != NoType ==> Items(ins.values) == ValuesIn(halves, order))
  }

  /** The halves an insert's arrays pair up to are the sorted new halves. */
  lemma StagedHalves(strings: seq<Text>, typ: PropertyType, pre: seq<u32>, halves: seq<SlotHalfEdge>,
                     order: seq<nat>, ends: seq<nat>, ins: EdgeSlotInsert)
    requires Staged(typ, pre, halves, order, ends, ins)
    ensures forall j | 0 <= j < |order| ::
              Zip(strings, ins.neighbors, Items(ins.values))[j] == ResolvedHalf(strings, halves[order[j]]).half
  {
  }

  lemma StagedInPool(strings: seq<Text>, typ: PropertyType, pre: seq<u32>, halves: seq<SlotHalfEdge>,
                     order: seq<nat>, ends: seq<nat>, ins: EdgeSlotInsert)
    requires Staged(typ, pre, halves, order, ends, ins) && HalvesInPool(strings, halves)
    ensures IdsInPool(strings, Items(ins.values))
  {
    forall v | v in Items(ins.values)
      ensures IdInPool(strings, v)
    {
      var j :| 0 <= j < |order| && v == ValuesIn(halves, order)[j];
      assert halves[order[j]] in halves;
    }
  }

  lemma StagedReady(strings: seq<Text>, typ: PropertyType, mid: EdgeSlot, oldCount: nat, pre: seq<u32>,
                    halves: seq<SlotHalfEdge>, order: seq<nat>, ends: seq<nat>, ins: EdgeSlotInsert)
    requires EdgeSlotOk(mid, typ, oldCount, strings)
    requires Staged(typ, pre, halves, order, ends, ins) && Cuts(pre, |ends|, |mid.neighbors|)
    ensures InsertReady(mid, ins)
  {
    MergesInterleaved(pre, mid.neighbors, [0] + ends, ins.neighbors, |ends|);
  }

  /** Both arrays after the insert, as merges of the old ones with the staged ones. */
  lemma SplicedArrays(strings: seq<Text>, typ: PropertyType, mid: EdgeSlot, oldCount: nat, pre: seq<u32>,
                      halves: seq<SlotHalfEdge>, order: seq<nat>, ends: seq<nat>, ins: EdgeSlotInsert, after: EdgeSlot)
    requires EdgeSlotOk(mid, typ, oldCount, strings)
    requires Staged(typ, pre, halves, order, ends, ins) && Cuts(pre, |ends|, |mid.neighbors|)
    requires IsSpliced(mid, ins, after)
    ensures after.neighbors == Interleaved(pre, mid.neighbors, [0] + ends, ins.neighbors, |ends|)
    ensures typ != NoType ==>
              Items(after.values) == Interleaved(pre, Items(mid.values), [0] + ends, Items(ins.values), |ends|)
    ensures Halves(strings, after)
         == Interleaved(pre, Halves(strings, mid), [0] + ends, Zip(strings, ins.neighbors, Items(ins.values)), |ends|)
  {
    var starts := [0] + ends;
    SplicedIsInterleaved(pre, mid.neighbors, starts, ins.neighbors, after.neighbors);
    if typ == NoType {
      ZipInterleavedBare(strings, pre, mid.neighbors, starts, ins.neighbors, |ends|);
    } else {
      SplicedIsInterleaved(pre, Items(mid.values), starts, Items(ins.values), Items(after.values));
      ZipInterleaved(strings, pre, mid.neighbors, Items(mid.values), starts, ins.neighbors, Items(ins.values), |ends|);
    }
  }

  lemma SplicedReads(typ: PropertyType, mid: EdgeSlot, pre: seq<u32>, halves: seq<SlotHalfEdge>, order: seq<nat>,
                     ends: seq<nat>, ins: EdgeSlotInsert, after: EdgeSlot)
    requires Staged(typ, pre, halves, order, ends, ins) && IsSpliced(mid, ins, after)
    ensures Ordered(halves, order, ends) && |pre| == |ends| + 1 && Cuts([0] + ends, |ends|, |order|)
    ensures forall j | 0 <= j < |order| :: order[j] < |halves|
    ensures |ins.neighbors| == |order| && after.offsets == Summed(pre, [0] + ends)
    ensures TypeOf(after.values) == TypeOf(mid.values)
  {
  }

  /** Writing a staged insert leaves every node its old run followed by its new halves. */
  lemma SplicedTable(strings: seq<Text>, typ: PropertyType, mid: EdgeSlot, oldCount: nat, pre: seq<u32>,
                     halves: seq<SlotHalfEdge>, order: seq<nat>, ends: seq<nat>, ins: EdgeSlotInsert, after: EdgeSlot)
    requires EdgeSlotOk(mid, typ, oldCount, strings) && oldCount <= |ends| && halves != []
    requires pre == Resized(mid.offsets, |ends| + 1)
    requires Staged(typ, pre, halves, order, ends, ins) && HalvesInPool(strings, halves)
    requires IsSpliced(mid, ins, after)
    ensures SlotInserted(strings, typ, mid, after, oldCount, |ends|, halves)
  {
    hide Staged, IsSpliced, Ordered, HalvesInPool, IdsInPool, Monotone, Interleaved, OwnedBy, Resolved, ResolvedHalf,
         Halves, Zip, Summed, Resized;
    var n, starts := |ends|, [0] + ends;
    var h, added := Halves(strings, mid), Zip(strings, ins.neighbors, Items(ins.values));
    SplicedReads(typ, mid, pre, halves, order, ends, ins, after);
    ResizedRuns(mid.offsets, h, oldCount, n);
    SplicedArrays(strings, typ, mid, oldCount, pre, halves, order, ends, ins, after);
    StagedHalves(strings, typ, pre, halves, order, ends, ins);
    SummedCuts(pre, h, starts, added);
    forall v | 0 <= v < n
      ensures Run(after.offsets, Halves(strings, after), v)
           == RunOf(EdgeTable(strings, mid, oldCount), v) + OwnedBy(Resolved(strings, halves), v)
    {
      InterleavedRun(pre, h, starts, added, v);
      SortedRun(strings, halves, order, ends, added, v);
      assert Run(pre, h, v) == Run(mid.offsets, h, v);
    }
    SplicedIdsInPool(strings, typ, mid, oldCount, pre, halves, order, ends, ins, after);
    assert EdgeTable(strings, after, n).runs
        == Inserted(EdgeTable(strings, mid, oldCount), n, Resolved(strings, halves)).runs;
  }

  lemma SplicedIdsInPool(strings: seq<Text>, typ: PropertyType, mid: EdgeSlot, oldCount: nat, pre: seq<u32>,
                         halves: seq<SlotHalfEdge>, order: seq<nat>, ends: seq<nat>, ins: EdgeSlotInsert,
                         after: EdgeSlot)
    requires EdgeSlotOk(mid, typ, oldCount, strings)
    requires Staged(typ, pre, halves, order, ends, ins) && HalvesInPool(strings, halves)
    requires Cuts(pre, |ends|, |mid.neighbors|)
    requires IsSpliced(mid, ins, after)
    ensures IdsInPool(strings, Items(after.values))
    ensures typ != NoType ==> |Items(after.values)| == |after.neighbors|
  {
    SplicedArrays(strings, typ, mid, oldCount, pre, halves, order, ends, ins, after);
    StagedInPool(strings, typ, pre, halves, order, ends, ins);
    if typ != NoType {
      var starts := [0] + ends;
      InterleavedLength(pre, mid.neighbors, starts, ins.neighbors, |ends|);
      InterleavedLength(pre, Items(mid.values), starts, Items(ins.values), |ends|);
      forall v | v in Items(after.values)
        ensures IdInPool(strings, v)
      {
        InterleavedMembers(pre, Items(mid.values), starts, Items(ins.values), |ends|, v);
      }
    }
  }

  /** A slot nothing is added to keeps its runs when it gains empty ones at the end. */
  lemma NothingInserted(strings: seq<Text>, typ: PropertyType, mid: EdgeSlot, after: EdgeSlot, oldCount: nat,
                        total: nat)
    requires EdgeSlotOk(mid, typ, oldCount, strings) && oldCount <= total
    requires if after == mid then oldCount == total || mid.offsets == []
             else mid.offsets != [] && after == mid.(offsets := Resized(mid.offsets, total + 1))
    ensures SlotInserted(strings, typ, mid, after, oldCount, total, [])
  {
    var t := EdgeTable(strings, mid, oldCount);
    ResizedRuns(mid.offsets, Halves(strings, mid), oldCount, total);
    forall v | 0 <= v < total
      ensures EdgeTable(strings, after, total).runs[v] == RunOf(t, v) + OwnedBy<PropertyValue>([], v)
    {
    }
    assert EdgeTable(strings, after, total).runs == Inserted(t, total, Resolved(strings, [])).runs;
  }

  // ----- the pass over the slots

  ghost predicate AllFit(halves: seq<SlotHalfEdge>, typ: PropertyType) {
    forall h <- halves :: HalfFits(h, typ)
  }

  /** A bucket whose histogram covers every node of the post-diff slot. */
  ghost predicate BucketOk(bucket: Option<SlotHalfEdges>, total: nat, strings: seq<Text>) {
    bucket.Some? ==>
      && bucket.value.Valid()
      && |bucket.value.counts| == total
      && bucket.value.halves != []
      && HalvesInPool(strings, bucket.value.halves)
  }

  /** However the insert is written, and even if there is none, the slot ends up as it should. */
  ghost predicate StagesInsert(strings: seq<Text>, typ: PropertyType, mid: EdgeSlot, oldCount: nat, total: nat,
                               halves: seq<SlotHalfEdge>, ins: Option<EdgeSlotInsert>)
  {
    if ins.None? then SlotInserted(strings, typ, mid, mid, oldCount, total, halves)
    else
      && InsertReady(mid, ins.value)
      && forall after | IsSpliced(mid, ins.value, after) ::
           SlotInserted(strings, typ, mid, after, oldCount, total, halves)
  }

  /** The total of the offsets decides whether all of them fit. */
  lemma LastDecides(pre: seq<u32>, ends: seq<nat>, oldLength: nat, added: nat)
    requires |pre| == |ends| + 1 && |ends| > 0
    requires Cuts(pre, |ends|, oldLength) && Cuts([0] + ends, |ends|, added)
    ensures (forall k | 0 <= k < |ends| :: pre[k + 1] + ends[k] <= U32_MAX) <==> oldLength + added <= U32_MAX
  {
    var starts, n := [0] + ends, |ends|;
    assert pre[n] == oldLength && starts[n] == ends[n - 1] == added;
    forall k | 0 <= k < n
      ensures pre[k + 1] <= pre[n] && ends[k] <= ends[n - 1]
    {
      assert starts[k + 1] == ends[k] && starts[k + 1] <= starts[n];
    }
    if forall k | 0 <= k < n :: pre[k + 1] + ends[k] <= U32_MAX {
      assert pre[n - 1 + 1] + ends[n - 1] <= U32_MAX;
    }
  }

  lemma AllFitInOrder(halves: seq<SlotHalfEdge>, order: seq<nat>, ends: seq<nat>, typ: PropertyType)
    requires Ordered(halves, order, ends)
    ensures forall j | 0 <= j < |order| :: order[j] < |halves|
    ensures AllFit(halves, typ) <==> forall j | 0 <= j < |order| :: HalfFits(halves[order[j]], typ)
  {
    forall j | 0 <= j < |order|
      ensures order[j] < |halves| && halves[order[j]] in halves
    {
      OrderInRange(halves, order, ends, j);
    }
    if forall j | 0 <= j < |order| :: HalfFits(halves[order[j]], typ) {
      forall h | h in halves
        ensures HalfFits(h, typ)
      {
        var i :| 0 <= i < |halves| && halves[i] == h;
        var j := OrderCovers(Owners(halves), order, ends, i);
        assert HalfFits(halves[order[j]], typ);
      }
    }
  }

  /** The sorted halves as they mean, in one sequence. */
  function SortedHalves(strings: seq<Text>, halves: seq<SlotHalfEdge>, order: seq<nat>): (r: seq<Half<PropertyValue>>)
    requires forall j | 0 <= j < |order| :: order[j] < |halves|
    ensures |r| == |order|
  {
    seq(|order|, j requires 0 <= j < |order| => ResolvedHalf(strings, halves[order[j]]).half)
  }

  /** Up to where node `m` starts, the sorted halves are those of the nodes before it, node by node. */
  lemma {:induction false} SortedByOwner(strings: seq<Text>, halves: seq<SlotHalfEdge>, order: seq<nat>, ends: seq<nat>,
                                        sorted: seq<Half<PropertyValue>>, m: nat)
    requires Ordered(halves, order, ends) && m <= |ends| && |sorted| == |order|
    requires forall j | 0 <= j < |order| ::
               order[j] < |halves| && sorted[j] == ResolvedHalf(strings, halves[order[j]]).half
    ensures ([0] + ends)[m] <= |order|
    ensures ByOwner(Resolved(strings, halves), m) == sorted[..([0] + ends)[m]]
  {
    hide Ordered, ResolvedHalf, Resolved, OwnedBy, StartOf, Owners, Cuts, Run, ByOwner;
    var news, starts := Resolved(strings, halves), [0] + ends;
    OrderedCuts(halves, order, ends);
    RunLengthLast(starts, |ends|, |order|, m);
    if m == 0 {
      ByOwnerStarts(news, sorted);
    } else {
      SortedByOwner(strings, halves, order, ends, sorted, m - 1);
      SortedRun(strings, halves, order, ends, sorted, m - 1);
      RunSlice(starts, sorted, |ends|, m - 1);
      ByOwnerNext(news, sorted, starts[m - 1], starts[m], m);
    }
  }

  lemma ByOwnerStarts<V>(news: seq<NewHalf<V>>, sorted: seq<Half<V>>)
    ensures ByOwner(news, 0) == sorted[..0]
  {
  }

  lemma ByOwnerNext<V>(news: seq<NewHalf<V>>, sorted: seq<Half<V>>, i: nat, j: nat, m: nat)
    requires m > 0 && i <= j <= |sorted|
    requires ByOwner(news, m - 1) == sorted[..i] && OwnedBy(news, m - 1) == sorted[i..j]
    ensures ByOwner(news, m) == sorted[..j]
  {
    PrefixJoins(sorted, i, j);
  }

  lemma PrefixJoins<T>(s: seq<T>, i: nat, j: nat)
    requires i <= j <= |s|
    ensures s[..j] == s[..i] + s[i..j]
  {
  }

  lemma RunLengthLast(offsets: seq<nat>, n: nat, length: nat, m: nat)
    requires Cuts(offsets, n, length) && offsets != [] && m <= n
    ensures offsets[m] <= length
  {
  }

  /** What a slot's new halves are refused for is what they mean, not how they are stored. */
  lemma StoredOutcomesMean(strings: seq<Text>, halves: seq<SlotHalfEdge>, order: seq<nat>, ends: seq<nat>,
                           typ: PropertyType)
    requires Ordered(halves, order, ends) && HalvesInPool(strings, halves)
    requires forall j | 0 <= j < |order| :: order[j] < |halves|
    ensures StoredOutcomes(halves, order, typ) == HalfOutcomes(ByOwner(Resolved(strings, halves), |ends|), typ)
  {
    OrderedCuts(halves, order, ends);
    var sorted := SortedHalves(strings, halves, order);
    SortedByOwner(strings, halves, order, ends, sorted, |ends|);
    assert sorted[..|order|] == sorted;
    forall j | 0 <= j < |order|
      ensures StoredOutcome(halves[order[j]], typ) == HalfOutcome(sorted[j].value, typ)
    {
      ResolvedOutcome(strings, halves, order[j], typ);
    }
  }

  lemma ResolvedOutcome(strings: seq<Text>, halves: seq<SlotHalfEdge>, i: nat, typ: PropertyType)
    requires HalvesInPool(strings, halves) && i < |halves|
    ensures StoredOutcome(halves[i], typ) == HalfOutcome(ResolvedHalf(strings, halves[i]).half.value, typ)
  {
    assert halves[i] in halves;
  }

  /** The offsets a slot's halves are placed by are the totals of its runs and of the halves so far. */
  lemma PlaceOutcomesMean(strings: seq<Text>, typ: PropertyType, mid: EdgeSlot, oldCount: nat, pre: seq<u32>,
                          halves: seq<SlotHalfEdge>, order: seq<nat>, ends: seq<nat>)
    requires EdgeSlotOk(mid, typ, oldCount, strings) && oldCount <= |ends| && Ordered(halves, order, ends)
    requires forall j | 0 <= j < |order| :: order[j] < |halves|
    requires pre == Resized(mid.offsets, |ends| + 1)
    ensures |pre| == |ends| + 1
    ensures PlaceOutcomes(pre, ends)
         == OffsetOutcomes(EdgeTable(strings, mid, oldCount).runs, |ends|, Resolved(strings, halves))
  {
    hide Ordered, Resolved, AddOutcome, ByOwner, Resized, EdgeSlotOk, EdgeTable, TotalUpTo, PlaceOutcomes,
         OffsetOutcomes;
    ResizedTotal(strings, typ, mid, oldCount, |ends|, 0);
    forall k | 0 <= k < |ends|
      ensures PlaceOutcomes(pre, ends)[k]
           == OffsetOutcomes(EdgeTable(strings, mid, oldCount).runs, |ends|, Resolved(strings, halves))[k]
    {
      PlaceOutcomeMeans(strings, typ, mid, oldCount, pre, halves, order, ends, k);
    }
  }

  lemma PlaceOutcomeMeans(strings: seq<Text>, typ: PropertyType, mid: EdgeSlot, oldCount: nat, pre: seq<u32>,
                          halves: seq<SlotHalfEdge>, order: seq<nat>, ends: seq<nat>, k: nat)
    requires EdgeSlotOk(mid, typ, oldCount, strings) && oldCount <= |ends| && Ordered(halves, order, ends)
    requires forall j | 0 <= j < |order| :: order[j] < |halves|
    requires pre == Resized(mid.offsets, |ends| + 1) && |pre| == |ends| + 1 && k < |ends|
    ensures PlaceOutcomes(pre, ends)[k]
         == OffsetOutcomes(EdgeTable(strings, mid, oldCount).runs, |ends|, Resolved(strings, halves))[k]
  {
    hide Ordered, Resolved, AddOutcome, ByOwner, Resized, EdgeSlotOk, EdgeTable, TotalUpTo, Owners, StartOf,
         ResolvedHalf;
    SortedByOwner(strings, halves, order, ends, SortedHalves(strings, halves, order), k + 1);
    assert ([0] + ends)[k + 1] == ends[k];
    ResizedTotal(strings, typ, mid, oldCount, |ends|, k + 1);
  }

  lemma ResizedTotal(strings: seq<Text>, typ: PropertyType, mid: EdgeSlot, oldCount: nat, total: nat, m: nat)
    requires EdgeSlotOk(mid, typ, oldCount, strings) && oldCount <= total && m <= total
    ensures |Resized(mid.offsets, total + 1)| == total + 1
    ensures Resized(mid.offsets, total + 1)[m] == TotalUpTo(EdgeTable(strings, mid, oldCount).runs, m)
  {
    hide IdsInPool, TotalOf;
    var arr, at := Halves(strings, mid), if m <= oldCount then m else oldCount;
    TotalOfRuns(mid.offsets, arr, oldCount, at);
    assert Runs(mid.offsets, arr, oldCount)[..at] == Runs(mid.offsets, arr, at);
  }

  /** One slot's new half-edges sorted, laid out and placed. */
  method StageHalves(slotIndex: nat, typ: PropertyType, pre: seq<u32>, bucket: SlotHalfEdges,
                     oldCount: nat, ghost mid: EdgeSlot, ghost strings: seq<Text>)
    returns (r: Result<EdgeSlotInsert, Error>)
    requires EdgeSlotOk(mid, typ, oldCount, strings) && oldCount <= |bucket.counts|
    requires BucketOk(Some(bucket), |bucket.counts|, strings)
    requires pre == Resized(mid.offsets, |bucket.counts| + 1)
    ensures r.Ok? <==> AllFit(bucket.halves, typ) && |mid.neighbors| + |bucket.halves| <= U32_MAX
    ensures r.Ok? ==> r.value.slotIndex == slotIndex
    ensures r.Ok? ==> StagesInsert(strings, typ, mid, oldCount, |bucket.counts|, bucket.halves, Some(r.value))
    ensures Answers(r, SlotInsertOutcome(EdgeTable(strings, mid, oldCount), |bucket.counts|,
                                         Resolved(strings, bucket.halves), typ))
  {
    hide Ordered, EdgeSlotOk, BucketOk, Staged, StagesInsert, IsSpliced, SlotInserted, AllFit, NeighborsIn, ValuesIn,
         BatchesUpTo, Summed, Resized, Monotone, SlotHalfEdges.Valid, Resolved, ByOwner, First, StoredOutcomes,
         PlaceOutcomes, HalfOutcomes, OffsetOutcomes, EdgeTable, SlotInsertOutcome, Owners, StartOf;
    var halves := bucket.halves;
    SlotInsertIs(EdgeTable(strings, mid, oldCount), |bucket.counts|, strings, halves, typ);
    BucketIsValid(bucket, strings);
    SlotIsCut(mid, typ, oldCount, strings);
    if |halves| > U32_MAX {
      return Err(OffsetOverflow(|halves|));
    }
    var order, ends := OrderByOwner(halves, bucket.counts);
    OrderedCuts(halves, order, ends);
    OrderedSizes(halves, order, ends);
    AllFitInOrder(halves, order, ends, typ);
    ResizedRuns(mid.offsets, Halves(strings, mid), oldCount, |ends|);
    LastDecides(pre, ends, |mid.neighbors|, |halves|);
    StoredOutcomesMean(strings, halves, order, ends, typ);
    PlaceOutcomesMean(strings, typ, mid, oldCount, pre, halves, order, ends);
    var arrays :- Gather(halves, order, typ);
    var placed :- PlaceBatches(pre, ends);
    var ins := EdgeSlotInsert(slotIndex, arrays.0, arrays.1, placed.0, placed.1);
    StagedNow(typ, pre, halves, order, ends, ins);
    StagedReady(strings, typ, mid, oldCount, pre, halves, order, ends, ins);
    forall after | IsSpliced(mid, ins, after)
      ensures SlotInserted(strings, typ, mid, after, oldCount, |ends|, halves)
    {
      SplicedTable(strings, typ, mid, oldCount, pre, halves, order, ends, ins, after);
    }
    InsertStages(strings, typ, mid, oldCount, |ends|, halves, ins);
    return Ok(ins);
  }

  /** What a slot that gains halves answers, step by step. */
  lemma SlotInsertIs(t: Table<Half<PropertyValue>>, count: nat, strings: seq<Text>, halves: seq<SlotHalfEdge>,
                     typ: PropertyType)
    ensures var news := Resolved(strings, halves);
            var values := First(HalfOutcomes(ByOwner(news, count), typ));
            halves != [] ==>
              SlotInsertOutcome(t, count, news, typ)
              == if |halves| > U32_MAX then Err(OffsetOverflow(|halves|))
                 else if values.Err? then values
                 else First(OffsetOutcomes(t.runs, count, news))
  {
    hide First, HalfOutcomes, OffsetOutcomes, ByOwner;
  }

  lemma BucketIsValid(bucket: SlotHalfEdges, strings: seq<Text>)
    requires BucketOk(Some(bucket), |bucket.counts|, strings)
    ensures bucket.Valid() && bucket.halves != [] && HalvesInPool(strings, bucket.halves) && |bucket.counts| > 0
    ensures bucket == SlotHalfEdges(bucket.halves, bucket.counts)
  {
    assert bucket.halves[0].owner < |bucket.counts|;
  }

  lemma StagedNow(typ: PropertyType, pre: seq<u32>, halves: seq<SlotHalfEdge>, order: seq<nat>, ends: seq<nat>,
                  ins: EdgeSlotInsert)
    requires Ordered(halves, order, ends) && |pre| == |ends| + 1 && Cuts([0] + ends, |ends|, |order|)
    requires forall j | 0 <= j < |order| :: order[j] < |halves| && HalfFits(halves[order[j]], typ)
    requires ins.offsets == Summed(pre, [0] + ends) && ins.batches == BatchesUpTo(pre, [0] + ends, |ends|)
    requires ins.neighbors == NeighborsIn(halves, order) && TypeOf(ins.values) == typ
    requires typ != NoType ==>
               && (forall j | 0 <= j < |order| :: halves[order[j]].property.Some?)
               && Items(ins.values) == ValuesIn(halves, order)
    ensures Staged(typ, pre, halves, order, ends, ins)
  {
    hide Ordered, Summed, BatchesUpTo;
  }

  lemma InsertStages(strings: seq<Text>, typ: PropertyType, mid: EdgeSlot, oldCount: nat, total: nat,
                     halves: seq<SlotHalfEdge>, ins: EdgeSlotInsert)
    requires InsertReady(mid, ins)
    requires forall after | IsSpliced(mid, ins, after) ::
             SlotInserted(strings, typ, mid, after, oldCount, total, halves)
    ensures StagesInsert(strings, typ, mid, oldCount, total, halves, Some(ins))
  {
    hide InsertReady, IsSpliced, SlotInserted;
  }

  lemma NothingAnswers(t: Table<Half<PropertyValue>>, count: nat, strings: seq<Text>, typ: PropertyType)
    ensures SlotInsertOutcome(t, count, Resolved(strings, []), typ).Ok?
  {
  }

  lemma NothingToFit(typ: PropertyType)
    ensures AllFit([], typ)
  {
  }

  /** One slot's share of the pass, over offsets that already reflect the diff's removals. */
  method StageInsert(slotIndex: nat, typ: PropertyType, offsets: seq<u32>, bucket: Option<SlotHalfEdges>,
                     oldCount: nat, newCount: nat, ghost mid: EdgeSlot, ghost strings: seq<Text>)
    returns (r: Result<Option<EdgeSlotInsert>, Error>)
    requires EdgeSlotOk(mid, typ, oldCount, strings) && offsets == mid.offsets
    requires BucketOk(bucket, oldCount + newCount, strings)
    ensures r.Ok? <==> AllFit(HalvesIn(bucket), typ) && |mid.neighbors| + |HalvesIn(bucket)| <= U32_MAX
    ensures r.Ok? ==> r.value.Some? ==> r.value.value.slotIndex == slotIndex
    ensures r.Ok? ==> StagesInsert(strings, typ, mid, oldCount, oldCount + newCount, HalvesIn(bucket), r.value)
    ensures Answers(r, SlotInsertOutcome(EdgeTable(strings, mid, oldCount), oldCount + newCount,
                                         Resolved(strings, HalvesIn(bucket)), typ))
  {
    hide EdgeSlotOk, SlotInserted, AllFit, SlotHalfEdges.Valid, HalvesInPool, EdgeTable, SlotInsertOutcome, Resolved,
         Owners, IndicesOf;
    ghost var total := oldCount + newCount;
    NothingAnswers(EdgeTable(strings, mid, oldCount), total, strings, typ);
    SlotIsCut(mid, typ, oldCount, strings);
    NothingToFit(typ);
    if newCount == 0 && bucket.None? {
      NothingInserted(strings, typ, mid, mid, oldCount, total);
      return Ok(None);
    }
    var offsetsLen := oldCount + newCount + 1;
    if offsets == [] && bucket.None? {
      NothingInserted(strings, typ, mid, mid, oldCount, total);
      return Ok(None);
    }
    var pre := Resized(offsets, offsetsLen);
    if bucket.None? {
      var ins := EdgeSlotInsert(slotIndex, [], NewArray(typ), [], pre);
      forall after | IsSpliced(mid, ins, after)
        ensures SlotInserted(strings, typ, mid, after, oldCount, total, [])
      {
        NothingInserted(strings, typ, mid, after, oldCount, total);
      }
      return Ok(Some(ins));
    }
    var ins :- StageHalves(slotIndex, typ, pre, bucket.value, oldCount, mid, strings);
    return Ok(Some(ins));
  }

  /** The insert staged for slot `i`, if any. */
  function InsertFor(inserts: seq<EdgeSlotInsert>, i: nat): Option<EdgeSlotInsert> {
    if inserts == [] then None
    else
      var last := inserts[|inserts| - 1];
      if last.slotIndex == i then Some(last) else InsertFor(inserts[..|inserts| - 1], i)
  }

  ghost predicate SlotsRise(inserts: seq<EdgeSlotInsert>, bound: nat) {
    && (forall j | 0 <= j < |inserts| :: inserts[j].slotIndex < bound)
    && forall j, k | 0 <= j < k < |inserts| :: inserts[j].slotIndex < inserts[k].slotIndex
  }

  /** What a slot's share of the pass needs: a sound slot, its offsets and a covering bucket. */
  ghost predicate SlotReady(s: Schema, mids: seq<EdgeSlot>, offsets: seq<seq<u32>>, oldCounts: seq<nat>,
                            newCounts: seq<nat>, buckets: seq<Option<SlotHalfEdges>>, strings: seq<Text>, i: nat)
  {
    var k, e := s.EdgeSlotKind(i), s.EdgeSlotEdge(i);
    && i < |mids| == |offsets| == |buckets|
    && k < |oldCounts| == |newCounts|
    && e < |s.edgeTypes|
    && EdgeSlotOk(mids[i], s.edgeTypes[e], oldCounts[k], strings)
    && offsets[i] == mids[i].offsets
    && BucketOk(buckets[i], oldCounts[k] + newCounts[k], strings)
  }

  /** What each slot answers, in terms of what its arrays and its bucket mean. */
  function MidOutcomes(s: Schema, mids: seq<EdgeSlot>, oldCounts: seq<nat>, newCounts: seq<nat>,
                       buckets: seq<Option<SlotHalfEdges>>, strings: seq<Text>): (r: seq<Outcome<Error>>)
    ensures |r| == |mids|
  {
    seq(|mids|, i requires 0 <= i < |mids| =>
      var k := s.EdgeSlotKind(i);
      if i < |buckets| && k < |oldCounts| && k < |newCounts| then
        SlotInsertOutcome(EdgeTable(strings, mids[i], oldCounts[k]), oldCounts[k] + newCounts[k],
                          Resolved(strings, HalvesIn(buckets[i])), EdgeTypeAt(s, i))
      else Ok(()))
  }

  ghost predicate SlotAccepts(s: Schema, mid: EdgeSlot, bucket: Option<SlotHalfEdges>, i: nat) {
    && s.EdgeSlotEdge(i) < |s.edgeTypes|
    && AllFit(HalvesIn(bucket), s.edgeTypes[s.EdgeSlotEdge(i)])
    && |mid.neighbors| + |HalvesIn(bucket)| <= U32_MAX
  }

  ghost predicate SlotStaged(s: Schema, mid: EdgeSlot, oldCounts: seq<nat>, newCounts: seq<nat>,
                             bucket: Option<SlotHalfEdges>, strings: seq<Text>, i: nat, ins: Option<EdgeSlotInsert>)
  {
    var k, e := s.EdgeSlotKind(i), s.EdgeSlotEdge(i);
    && k < |oldCounts| == |newCounts| && e < |s.edgeTypes|
    && StagesInsert(strings, s.edgeTypes[e], mid, oldCounts[k], oldCounts[k] + newCounts[k], HalvesIn(bucket), ins)
  }

  /** The first `n` slots accept their new halves. */
  ghost predicate InsertsFit(s: Schema, mids: seq<EdgeSlot>, buckets: seq<Option<SlotHalfEdges>>, n: nat)
    requires n <= |mids| == |buckets|
  {
    forall i | 0 <= i < n :: SlotAccepts(s, mids[i], buckets[i], i)
  }

  /** The first `n` slots have what they gain staged, and no later one has anything. */
  ghost predicate InsertsStaged(s: Schema, mids: seq<EdgeSlot>, oldCounts: seq<nat>, newCounts: seq<nat>,
                                buckets: seq<Option<SlotHalfEdges>>, strings: seq<Text>, inserts: seq<EdgeSlotInsert>,
                                n: nat)
  {
    && n <= |mids| == |buckets|
    && SlotsRise(inserts, n)
    && forall i | 0 <= i < n ::
         SlotStaged(s, mids[i], oldCounts, newCounts, buckets[i], strings, i, InsertFor(inserts, i))
  }

  lemma InsertPassStarts(s: Schema, mids: seq<EdgeSlot>, oldCounts: seq<nat>, newCounts: seq<nat>,
                         buckets: seq<Option<SlotHalfEdges>>, strings: seq<Text>)
    requires |mids| == |buckets|
    ensures InsertsFit(s, mids, buckets, 0) && InsertsStaged(s, mids, oldCounts, newCounts, buckets, strings, [], 0)
  {
  }

  lemma SlotReadyReads(s: Schema, mids: seq<EdgeSlot>, offsets: seq<seq<u32>>, oldCounts: seq<nat>,
                       newCounts: seq<nat>, buckets: seq<Option<SlotHalfEdges>>, strings: seq<Text>, i: nat)
    requires SlotReady(s, mids, offsets, oldCounts, newCounts, buckets, strings, i)
    ensures var k, e := s.EdgeSlotKind(i), s.EdgeSlotEdge(i);
            && i < |mids| == |offsets| == |buckets|
            && k < |oldCounts| == |newCounts|
            && e < |s.edgeTypes|
            && EdgeSlotOk(mids[i], s.edgeTypes[e], oldCounts[k], strings)
            && offsets[i] == mids[i].offsets
            && BucketOk(buckets[i], oldCounts[k] + newCounts[k], strings)
  {
  }

  lemma InsertPassFails(s: Schema, mids: seq<EdgeSlot>, buckets: seq<Option<SlotHalfEdges>>, i: nat)
    requires i < |mids| == |buckets| && s.EdgeSlotEdge(i) < |s.edgeTypes|
    requires !(AllFit(HalvesIn(buckets[i]), s.edgeTypes[s.EdgeSlotEdge(i)])
               && |mids[i].neighbors| + |HalvesIn(buckets[i])| <= U32_MAX)
    ensures !InsertsFit(s, mids, buckets, |mids|)
  {
  }

  lemma InsertPassNext(s: Schema, mids: seq<EdgeSlot>, oldCounts: seq<nat>, newCounts: seq<nat>,
                       buckets: seq<Option<SlotHalfEdges>>, strings: seq<Text>, inserts: seq<EdgeSlotInsert>, i: nat,
                       ins: Option<EdgeSlotInsert>)
    requires InsertsStaged(s, mids, oldCounts, newCounts, buckets, strings, inserts, i) && i < |mids|
    requires InsertsFit(s, mids, buckets, i)
    requires s.EdgeSlotEdge(i) < |s.edgeTypes| && s.EdgeSlotKind(i) < |oldCounts| == |newCounts|
    requires AllFit(HalvesIn(buckets[i]), s.edgeTypes[s.EdgeSlotEdge(i)])
             && |mids[i].neighbors| + |HalvesIn(buckets[i])| <= U32_MAX
    requires ins.Some? ==> ins.value.slotIndex == i
    requires var k := s.EdgeSlotKind(i);
             StagesInsert(strings, s.edgeTypes[s.EdgeSlotEdge(i)], mids[i], oldCounts[k], oldCounts[k] + newCounts[k],
                          HalvesIn(buckets[i]), ins)
    ensures InsertsFit(s, mids, buckets, i + 1)
    ensures InsertsStaged(s, mids, oldCounts, newCounts, buckets, strings,
                          if ins.Some? then inserts + [ins.value] else inserts, i + 1)
  {
    hide StagesInsert, AllFit, HalvesIn, InsertFor, Schema.EdgeSlotKind, Schema.EdgeSlotEdge;
    NoInsertYet(inserts, i);
    if ins.Some? {
      InsertForNext(inserts, ins.value);
    }
  }

  method PrepareNewEdges(s: Schema, offsets: seq<seq<u32>>, oldCounts: seq<nat>, newCounts: seq<nat>,
                         buckets: seq<Option<SlotHalfEdges>>, ghost mids: seq<EdgeSlot>, ghost strings: seq<Text>)
    returns (r: Result<seq<EdgeSlotInsert>, Error>)
    requires |mids| == |offsets| == |buckets| == s.EdgeStorageSize()
    requires forall i | 0 <= i < |mids| :: SlotReady(s, mids, offsets, oldCounts, newCounts, buckets, strings, i)
    ensures r.Ok? <==> InsertsFit(s, mids, buckets, |mids|)
    ensures Answers(r, First(MidOutcomes(s, mids, oldCounts, newCounts, buckets, strings)))
    ensures r.Ok? ==> InsertsStaged(s, mids, oldCounts, newCounts, buckets, strings, r.value, |mids|)
  {
    hide *;
    var inserts: seq<EdgeSlotInsert> := [];
    var i := 0;
    ghost var outcomes := MidOutcomes(s, mids, oldCounts, newCounts, buckets, strings);
    InsertPassStarts(s, mids, oldCounts, newCounts, buckets, strings);
    while i < s.EdgeStorageSize()
      invariant 0 <= i <= |mids|
      invariant InsertsFit(s, mids, buckets, i)
      invariant forall j | 0 <= j < i :: outcomes[j].Ok?
      invariant InsertsStaged(s, mids, oldCounts, newCounts, buckets, strings, inserts, i)
    {
      SlotReadyReads(s, mids, offsets, oldCounts, newCounts, buckets, strings, i);
      var k := s.EdgeSlotKind(i);
      var typ := s.edgeTypes[s.EdgeSlotEdge(i)];
      var ins := StageInsert(i, typ, offsets[i], buckets[i], oldCounts[k], newCounts[k], mids[i], strings);
      MidOutcomeIs(s, mids, oldCounts, newCounts, buckets, strings, i);
      AnswersReads(ins, outcomes[i]);
      if ins.Err? {
        InsertPassFails(s, mids, buckets, i);
        FirstFailsAt(outcomes, i);
        AnswerIs<seq<EdgeSlotInsert>>(ins.error, First(outcomes));
        return Err(ins.error);
      }
      InsertPassNext(s, mids, oldCounts, newCounts, buckets, strings, inserts, i, ins.value);
      if ins.value.Some? {
        inserts := inserts + [ins.value.value];
      }
      i := i + 1;
    }
    FirstOk(outcomes);
    AnswerOk(inserts, First(outcomes));
    return Ok(inserts);
  }

  lemma MidOutcomeIs(s: Schema, mids: seq<EdgeSlot>, oldCounts: seq<nat>, newCounts: seq<nat>,
                     buckets: seq<Option<SlotHalfEdges>>, strings: seq<Text>, i: nat)
    requires i < |mids| == |buckets|
    requires s.EdgeSlotKind(i) < |oldCounts| == |newCounts| && s.EdgeSlotEdge(i) < |s.edgeTypes|
    ensures MidOutcomes(s, mids, oldCounts, newCounts, buckets, strings)[i]
         == var k := s.EdgeSlotKind(i);
            SlotInsertOutcome(EdgeTable(strings, mids[i], oldCounts[k]), oldCounts[k] + newCounts[k],
                              Resolved(strings, HalvesIn(buckets[i])), s.edgeTypes[s.EdgeSlotEdge(i)])
  {
  }

  lemma {:induction false} NoInsertYet(inserts: seq<EdgeSlotInsert>, i: nat)
    requires SlotsRise(inserts, i)
    ensures InsertFor(inserts, i).None?
  {
    if inserts != [] {
      NoInsertYet(inserts[..|inserts| - 1], i);
    }
  }

  lemma InsertForNext(inserts: seq<EdgeSlotInsert>, ins: EdgeSlotInsert)
    ensures forall j :: InsertFor(inserts + [ins], j)
                     == if j == ins.slotIndex then Some(ins) else InsertFor(inserts, j)
  {
    assert (inserts + [ins])[..|inserts|] == inserts;
  }
}
