/** Extending property slots for a diff's new nodes. */
module PropertyAppends {
  import opened Wrappers
  import opened Storage
  import opened Schemas
  import opened StringsPool
  import opened Csr
  import opened Graphs
  import opened Diffs
  import opened Outcomes
  import opened FlatGraphs
  import opened PropertySlots

  /** One slot's new values, by position among the diff's new nodes of the slot's kind. */
  type NewValues = Option<seq<Option<seq<PropertyValue>>>>

  /** The bucket of one slot holds exactly what the new nodes carry under its property. */
  ghost predicate HoldsNew(bucket: NewValues, added: seq<NewNode>, p: nat) {
    match bucket
    case None => forall j | 0 <= j < |added| :: p !in added[j].properties
    case Some(values) =>
      && |values| == |added|
      && (exists n :: n in added && p in n.properties)
      && forall j | 0 <= j < |added| ::
           values[j] == if p in added[j].properties then Some(added[j].properties[p]) else None
  }

  function Joined(a: StorageArray, b: StorageArray): StorageArray {
    var r := TryAppend(a, b);
    if r.Ok? then r.value else a
  }

  /** A slot once a staged append has been written. */
  function AppendedSlot(slot: PropertySlot, app: PropertySlotAppend): PropertySlot {
    PropertySlot(slot.offsets + app.offsetsTail, Joined(slot.values, app.valuesBatch))
  }

  /** Writing the append, or leaving the slot if there is none, makes the slot hold its table. */
  ghost predicate AppendsTo(mid: PropertySlot, typ: PropertyType, strings: seq<Text>, t: Table<PropertyValue>,
                            app: Option<PropertySlotAppend>)
  {
    match app
    case None => PropSlotIs(mid, typ, strings, t)
    case Some(a) => TypeOf(a.valuesBatch) == TypeOf(mid.values) && PropSlotIs(AppendedSlot(mid, a), typ, strings, t)
  }

  /** The new nodes' values have the slot's type and leave its offsets within 32 bits. */
  ghost predicate NewValuesFit(t: Table<PropertyValue>, added: seq<NewNode>, p: nat, typ: PropertyType) {
    && (forall j | 0 <= j < |added| :: AllTyped(PropertyOf(added[j], p), typ))
    && TotalOf(PropsExtended(t, added, p).runs) <= U32_MAX
  }

  // ----- a slot no new node mentions

  lemma {:induction false} NoNewTexts(added: seq<NewNode>, p: nat)
    requires forall j | 0 <= j < |added| :: p !in added[j].properties
    ensures NodeTexts(added, p) == []
  {
    if added != [] {
      NoNewTexts(added[..|added| - 1], p);
    }
  }

  /** Repeating the last offset gives every new node an empty run. */
  lemma EmptyRunsFollow(mid: PropertySlot, typ: PropertyType, strings: seq<Text>, t: Table<PropertyValue>,
                        added: seq<NewNode>, p: nat, slot: PropertySlot)
    requires PropSlotIs(mid, typ, strings, t) && HoldsNew(None, added, p)
    requires slot.values == mid.values
    requires if mid.offsets == [] || added == [] then slot == mid
             else slot.offsets == mid.offsets + seq(|added|, _ => Last(mid.offsets))
    ensures PropSlotIs(slot, typ, strings, PropsExtended(t, added, p))
  {
    hide Monotone, IdsInPool;
    var arr, n := ResolveAll(strings, Items(mid.values)), |t.runs|;
    var t' := PropsExtended(t, added, p);
    if mid.offsets != [] {
      ExtendedRuns(mid.offsets, arr, n, |added|);
      assert added == [] ==> mid.offsets + seq(|added|, _ => Last(mid.offsets)) == mid.offsets;
    }
    forall k | 0 <= k < n + |added|
      ensures Run(slot.offsets, arr, k) == t'.runs[k]
    {
      assert k < n ==> Run(mid.offsets, arr, k) == t.runs[k];
    }
    assert PropTable(strings, slot, n + |added|).runs == t'.runs;
  }

  /** The runs of a slot hold no more than 32-bit offsets can count. */
  lemma SlotTotal(slot: PropertySlot, typ: PropertyType, strings: seq<Text>, t: Table<PropertyValue>)
    requires PropSlotIs(slot, typ, strings, t)
    ensures TotalOf(t.runs) <= U32_MAX
  {
    hide Monotone, IdsInPool, TotalOf;
    TotalOfRuns(slot.offsets, ResolveAll(strings, Items(slot.values)), |t.runs|, |t.runs|);
  }

  lemma UnmentionedSlot(mid: PropertySlot, typ: PropertyType, strings: seq<Text>, t: Table<PropertyValue>,
                        added: seq<NewNode>, p: nat, app: Option<PropertySlotAppend>)
    requires PropSlotIs(mid, typ, strings, t) && HoldsNew(None, added, p)
    requires app.None? ==> mid.offsets == [] || added == []
    requires app.Some? ==> mid.offsets != [] && app.value.valuesBatch == NewArray(typ)
                           && app.value.offsetsTail == seq(|added|, _ => Last(mid.offsets))
    ensures AppendsTo(mid, typ, strings, PropsExtended(t, added, p), app)
    ensures NewValuesFit(t, added, p, typ) && NodeTexts(added, p) == []
  {
    hide TotalOf, PropsExtended, NodeTexts, PropTable, Cuts, IdsInPool;
    var slot := if app.Some? then AppendedSlot(mid, app.value) else mid;
    if app.Some? {
      JoinedNothing(mid.values, typ);
      assert added == [] ==> slot.offsets == mid.offsets;
    }
    EmptyRunsFollow(mid, typ, strings, t, added, p, slot);
    SlotTotal(slot, typ, strings, PropsExtended(t, added, p));
    NoNewTexts(added, p);
  }

  lemma JoinedNothing(values: StorageArray, typ: PropertyType)
    requires TypeOf(values) == typ
    ensures Joined(values, NewArray(typ)) == values
  {
    if typ != NoType {
      assert values.items + [] == values.items;
    }
  }

  // ----- a slot some new node mentions

  /** The first `j` new nodes' runs are staged behind the slot's own. */
  ghost predicate AppendedUpTo(mid: PropertySlot, typ: PropertyType, t: Table<PropertyValue>, added: seq<NewNode>,
                               p: nat, start: seq<Text>, now: seq<Text>, batch: StorageArray, tail: seq<u32>, j: nat)
  {
    var t' := PropsExtended(t, added, p);
    && j <= |added|
    && start <= now
    && now == InternedAll(start, NodeTexts(added[..j], p))
    && TypeOf(batch) == TypeOf(mid.values) == typ != NoType
    && IdsInPool(now, Items(batch))
    && (forall i | 0 <= i < j :: AllTyped(PropertyOf(added[i], p), typ))
    && Rebuilt(mid.offsets + tail, Joined(mid.values, batch), typ, now, t'.runs, |t.runs| + j)
  }

  lemma AppendStarts(mid: PropertySlot, typ: PropertyType, t: Table<PropertyValue>, added: seq<NewNode>, p: nat,
                     start: seq<Text>, tail: seq<u32>, cumulative: u32)
    requires PropSlotIs(mid, typ, start, t)
    requires if mid.offsets == [] then cumulative == 0 && tail == seq(|t.runs| + 1, _ => 0)
             else cumulative == Last(mid.offsets) && tail == []
    ensures AppendedUpTo(mid, typ, t, added, p, start, start, NewArray(typ), tail, 0)
    ensures cumulative == |Items(mid.values)| + |Items(NewArray(typ))|
  {
    var arr, n, offsets := ResolveAll(start, Items(mid.values)), |t.runs|, mid.offsets + tail;
    var t' := PropsExtended(t, added, p);
    assert added[..0] == [];
    assert Items(Joined(mid.values, NewArray(typ))) == Items(mid.values);
    forall k | 0 <= k < n
      ensures Run(offsets, arr, k) == t'.runs[k]
    {
      assert Run(mid.offsets, arr, k) == t.runs[k];
    }
    assert Runs(offsets, arr, n) == t'.runs[..n] == t.runs;
    TotalOfRuns(mid.offsets, arr, n, n);
    assert Runs(mid.offsets, arr, n) == t.runs;
  }

  lemma AppendNext(mid: PropertySlot, typ: PropertyType, t: Table<PropertyValue>, added: seq<NewNode>, p: nat,
                   start: seq<Text>, before: seq<Text>, now: seq<Text>, batch: StorageArray, tail: seq<u32>, j: nat,
                   batch': StorageArray, cumulative: u32)
    requires AppendedUpTo(mid, typ, t, added, p, start, before, batch, tail, j) && j < |added| && before <= now
    requires now == InternedAll(before, TextsOf(PropertyOf(added[j], p))) && AllTyped(PropertyOf(added[j], p), typ)
    requires TypeOf(batch') == typ
    requires ColumnMeans(batch', now, ResolveAll(before, Items(batch)) + PropertyOf(added[j], p))
    requires cumulative == |Items(mid.values)| + |Items(batch)| + |PropertyOf(added[j], p)|
    ensures AppendedUpTo(mid, typ, t, added, p, start, now, batch', tail + [cumulative], j + 1)
    ensures cumulative == |Items(mid.values)| + |Items(batch')|
  {
    hide Rebuilt, ColumnMeans, PropsExtended, InternedAll, TextsOf, Joined, ResolveAll, IdsInPool, PropertyOf, AllTyped;
    var props, runs := PropertyOf(added[j], p), PropsExtended(t, added, p).runs;
    ExtendedAt(t, added, p, j);
    ColumnInPool(batch', now, ResolveAll(before, Items(batch)) + props);
    RebuiltColumn(mid.offsets + tail, Joined(mid.values, batch), typ, before, runs, |t.runs| + j);
    JoinedItems(mid.values, batch);
    JoinedItems(mid.values, batch');
    assert added[..j + 1][..j] == added[..j];
    InternedAllSplits(start, NodeTexts(added[..j], p), TextsOf(props));
    MeaningLength(batch', now, before, batch, props);
    JoinedMeans(mid.values, batch, batch', before, now, props);
    RebuiltNext(mid.offsets + tail, Joined(mid.values, batch), typ, before, now, runs, |t.runs| + j,
                Joined(mid.values, batch'), cumulative);
    assert mid.offsets + tail + [cumulative] == mid.offsets + (tail + [cumulative]);
  }

  lemma ExtendedAt(t: Table<PropertyValue>, added: seq<NewNode>, p: nat, j: nat)
    requires j < |added|
    ensures |PropsExtended(t, added, p).runs| == |t.runs| + |added|
    ensures PropsExtended(t, added, p).runs[|t.runs| + j] == PropertyOf(added[j], p)
  {
  }

  lemma ColumnInPool(column: StorageArray, strings: seq<Text>, meaning: seq<PropertyValue>)
    requires ColumnMeans(column, strings, meaning)
    ensures IdsInPool(strings, Items(column))
  {
  }

  lemma RebuiltColumn(offsets: seq<u32>, column: StorageArray, typ: PropertyType, strings: seq<Text>,
                      runs: seq<seq<PropertyValue>>, k: nat)
    requires Rebuilt(offsets, column, typ, strings, runs, k)
    ensures TypeOf(column) == typ && IdsInPool(strings, Items(column)) && k <= |runs| && offsets != []
    ensures |Items(column)| == TotalOf(runs[..k])
  {
  }

  lemma JoinedItems(a: StorageArray, b: StorageArray)
    requires TypeOf(a) == TypeOf(b)
    ensures TypeOf(Joined(a, b)) == TypeOf(a) && Items(Joined(a, b)) == Items(a) + Items(b)
  {
  }

  lemma JoinedMeans(values: StorageArray, batch: StorageArray, batch': StorageArray, before: seq<Text>,
                    now: seq<Text>, props: seq<PropertyValue>)
    requires TypeOf(values) == TypeOf(batch) == TypeOf(batch') && before <= now
    requires IdsInPool(before, Items(Joined(values, batch)))
    requires ColumnMeans(batch', now, ResolveAll(before, Items(batch)) + props)
    ensures ColumnMeans(Joined(values, batch'), now, ResolveAll(before, Items(Joined(values, batch))) + props)
  {
    var a, b, b' := Items(values), Items(batch), Items(batch');
    assert Items(Joined(values, batch)) == a + b && Items(Joined(values, batch')) == a + b';
    ResolveStable(before, now, a + b);
    assert ResolveAll(now, a + b') == ResolveAll(now, a) + ResolveAll(now, b');
    assert ResolveAll(before, a + b) == ResolveAll(before, a) + ResolveAll(before, b);
    assert forall i | 0 <= i < |a| :: ResolveAll(now, a)[i] == ResolveAll(now, a + b)[i];
    assert forall i | 0 <= i < |a| :: ResolveAll(before, a)[i] == ResolveAll(before, a + b)[i];
    assert forall v | v in a :: v in a + b;
  }

  lemma AppendFails(mid: PropertySlot, typ: PropertyType, t: Table<PropertyValue>, added: seq<NewNode>, p: nat,
                    start: seq<Text>, before: seq<Text>, batch: StorageArray, tail: seq<u32>, j: nat)
    requires AppendedUpTo(mid, typ, t, added, p, start, before, batch, tail, j) && j < |added|
    requires AllTyped(PropertyOf(added[j], p), typ) ==>
               |Items(mid.values)| + |Items(batch)| + |PropertyOf(added[j], p)| > U32_MAX
    ensures !NewValuesFit(t, added, p, typ)
  {
    hide Rebuilt, PropsExtended, InternedAll, NodeTexts, Joined, IdsInPool, PropertyOf, AllTyped;
    var runs := PropsExtended(t, added, p).runs;
    ExtendedAt(t, added, p, j);
    RebuiltColumn(mid.offsets + tail, Joined(mid.values, batch), typ, before, runs, |t.runs| + j);
    JoinedItems(mid.values, batch);
    TotalNext(runs, |t.runs| + j);
    TotalPrefix(runs, |t.runs| + j + 1);
  }

  /** With the runs before it staged, a new node whose values fail is what the slot is refused for. */
  lemma FirstAppendFails(mid: PropertySlot, typ: PropertyType, t: Table<PropertyValue>, added: seq<NewNode>, p: nat,
                         start: seq<Text>, before: seq<Text>, batch: StorageArray, tail: seq<u32>, j: nat, total: u32)
    requires AppendedUpTo(mid, typ, t, added, p, start, before, batch, tail, j) && j < |added|
    requires total == |Items(mid.values)| + |Items(batch)|
    requires First(WriteOutcomes(total, PropertyOf(added[j], p), typ)).Err?
    ensures SlotAppendOutcome(t, added, p, typ) == First(WriteOutcomes(total, PropertyOf(added[j], p), typ))
  {
    hide Rebuilt, PropsExtended, InternedAll, NodeTexts, Joined, IdsInPool, PropertyOf, AllTyped, TotalOf,
         WriteOutcomes;
    var runs, written, k := PropsExtended(t, added, p).runs, NewOnes(|t.runs|, |added|), |t.runs| + j;
    ExtendedAt(t, added, p, j);
    RebuiltColumn(mid.offsets + tail, Joined(mid.values, batch), typ, before, runs, k);
    JoinedItems(mid.values, batch);
    forall v | 0 <= v < k && written[v]
      ensures AllTyped(runs[v], typ)
    {
      ExtendedAt(t, added, p, v - |t.runs|);
    }
    RunsPass(runs, written, typ, k);
    FirstFailsAt(RunOutcomes(runs, written, typ), k);
  }

  lemma AppendEnds(mid: PropertySlot, typ: PropertyType, t: Table<PropertyValue>, added: seq<NewNode>, p: nat,
                   start: seq<Text>, now: seq<Text>, batch: StorageArray, tail: seq<u32>, cumulative: u32,
                   slotIndex: nat)
    requires AppendedUpTo(mid, typ, t, added, p, start, now, batch, tail, |added|)
    requires exists n :: n in added && p in n.properties
    requires cumulative == |Items(mid.values)| + |Items(batch)|
    ensures AppendsTo(mid, typ, now, PropsExtended(t, added, p), Some(PropertySlotAppend(slotIndex, batch, tail)))
    ensures NewValuesFit(t, added, p, typ) && start <= now == InternedAll(start, NodeTexts(added, p))
  {
    hide Rebuilt, InternedAll, NodeTexts, Joined, IdsInPool, PropertyOf, AllTyped, PropSlotIs;
    var t' := PropsExtended(t, added, p);
    assert added[..|added|] == added;
    JoinedItems(mid.values, batch);
    RebuiltWhole(mid.offsets + tail, Joined(mid.values, batch), typ, now, t'.runs);
    assert t' == Table(true, t'.runs);
  }

  lemma BucketLength(bucket: NewValues, added: seq<NewNode>, p: nat)
    requires HoldsNew(bucket, added, p) && bucket.Some?
    ensures |bucket.value| == |added| && exists n :: n in added && p in n.properties
  {
  }

  /** What the loop reads off the bucket for one new node. */
  lemma BucketReads(bucket: NewValues, added: seq<NewNode>, p: nat, j: nat, texts: set<Text>)
    requires HoldsNew(bucket, added, p) && bucket.Some? && j < |added|
    requires forall x <- NodeTexts(added, p) :: x in texts
    ensures |bucket.value| == |added|
    ensures PropertyOf(added[j], p) == if bucket.value[j].Some? then bucket.value[j].value else []
    ensures forall x <- TextsOf(PropertyOf(added[j], p)) :: x in texts
  {
    NodeTextsHold(added, p, j);
  }

  lemma {:induction false} NodeTextsHold(added: seq<NewNode>, p: nat, j: nat)
    requires j < |added|
    ensures forall x <- TextsOf(PropertyOf(added[j], p)) :: x in NodeTexts(added, p)
  {
    if j < |added| - 1 {
      NodeTextsHold(added[..|added| - 1], p, j);
    }
  }

  lemma NothingToWrite(batch: StorageArray, strings: seq<Text>, typ: PropertyType)
    requires IdsInPool(strings, Items(batch))
    ensures ColumnMeans(batch, strings, ResolveAll(strings, Items(batch)) + [])
    ensures InternedAll(strings, TextsOf([])) == strings && AllTyped([], typ)
  {
    assert ResolveAll(strings, Items(batch)) + [] == ResolveAll(strings, Items(batch));
  }

  lemma AppendReads(mid: PropertySlot, typ: PropertyType, t: Table<PropertyValue>, added: seq<NewNode>, p: nat,
                    start: seq<Text>, now: seq<Text>, batch: StorageArray, tail: seq<u32>, j: nat)
    requires AppendedUpTo(mid, typ, t, added, p, start, now, batch, tail, j)
    ensures TypeOf(batch) == typ && IdsInPool(now, Items(batch))
            && ColumnMeans(batch, now, ResolveAll(now, Items(batch)))
  {
  }

  /** Stages the values and offsets of all new nodes of a slot's kind, behind a first stretch of offsets. */
  method StageBatch(slotIndex: nat, bucket: NewValues, newCount: nat, first: seq<u32>, base: u32, typ: PropertyType,
                    strings: StringsPool, ghost texts: set<Text>, ghost mid: PropertySlot,
                    ghost t: Table<PropertyValue>, ghost added: seq<NewNode>, ghost p: nat)
    returns (r: Result<PropertySlotAppend, Error>)
    requires PoolReady(strings, texts) && |added| == newCount
    requires HoldsNew(bucket, added, p) && bucket.Some? && forall x <- NodeTexts(added, p) :: x in texts
    requires AppendedUpTo(mid, typ, t, added, p, strings.List(), strings.List(), NewArray(typ), first, 0)
    requires base == |Items(mid.values)| + |Items(NewArray(typ))|
    modifies strings, strings.tags, strings.slots
    ensures PoolReady(strings, texts)
    ensures (strings.tags == old(strings.tags) || fresh(strings.tags))
            && (strings.slots == old(strings.slots) || fresh(strings.slots))
    ensures old(strings.List()) <= strings.List()
    ensures r.Ok? <==> NewValuesFit(t, added, p, typ)
    ensures r.Err? ==> SlotAppendOutcome(t, added, p, typ) == Err(r.error)
    ensures r.Ok? ==>
              && AppendsTo(mid, typ, strings.List(), PropsExtended(t, added, p), Some(r.value))
              && r.value.slotIndex == slotIndex
              && strings.List() == InternedAll(old(strings.List()), NodeTexts(added, p))
  {
    hide *;
    var batch, tail, cumulative := NewArray(typ), first, base;
    ghost var start := strings.List();
    var j := 0;
    BucketLength(bucket, added, p);
    forall i | 0 <= i < |added|
      ensures PropertyOf(added[i], p) == if bucket.value[i].Some? then bucket.value[i].value else []
      ensures forall x <- TextsOf(PropertyOf(added[i], p)) :: x in texts
    {
      BucketReads(bucket, added, p, i, texts);
    }
    while j < newCount
      invariant 0 <= j <= newCount && |bucket.value| == newCount
      invariant PoolReady(strings, texts) && start <= strings.List()
      invariant (strings.tags == old(strings.tags) || fresh(strings.tags))
                && (strings.slots == old(strings.slots) || fresh(strings.slots))
      invariant AppendedUpTo(mid, typ, t, added, p, start, strings.List(), batch, tail, j)
      invariant cumulative == |Items(mid.values)| + |Items(batch)|
    {
      ghost var before, batch0, tail0 := strings.List(), batch, tail;
      AppendReads(mid, typ, t, added, p, start, before, batch, tail, j);
      if bucket.value[j].Some? {
        var written := AppendPropertyBatch(batch, cumulative, bucket.value[j].value, strings, texts,
                                           ResolveAll(strings.List(), Items(batch)));
        if written.Err? {
          AppendFails(mid, typ, t, added, p, start, before, batch0, tail0, j);
          FirstAppendFails(mid, typ, t, added, p, start, before, batch0, tail0, j, cumulative);
          return Err(written.error);
        }
        batch, cumulative := written.value.0, written.value.1;
      } else {
        NothingToWrite(batch, before, typ);
      }
      tail := tail + [cumulative];
      AppendNext(mid, typ, t, added, p, start, before, strings.List(), batch0, tail0, j, batch, cumulative);
      j := j + 1;
    }
    AppendEnds(mid, typ, t, added, p, start, strings.List(), batch, tail, cumulative, slotIndex);
    return Ok(PropertySlotAppend(slotIndex, batch, tail));
  }

  // ----- one slot

  /** The offset a slot's new runs go on from, unless it has no offsets yet. */
  function CurrentLast(slot: PropertySlot, last: Option<u32>): Option<u32> {
    if last.Some? then last
    else if slot.offsets == [] then None
    else Some(slot.offsets[|slot.offsets| - 1])
  }

  lemma CurrentLastIsMids(slot: PropertySlot, last: Option<u32>, mid: PropertySlot)
    requires KnownBy(slot, last, mid)
    ensures CurrentLast(slot, last) == if mid.offsets == [] then None else Some(Last(mid.offsets))
    ensures last.None? && slot.offsets == [] <==> mid.offsets == []
  {
  }

  lemma NoNewNodes(bucket: NewValues, added: seq<NewNode>, p: nat)
    requires HoldsNew(bucket, added, p) && |added| == 0
    ensures bucket == None
  {
  }

  /** One slot's share of the pass. */
  method StageAppend(slotIndex: nat, slot: PropertySlot, last: Option<u32>, bucket: NewValues, oldCount: nat,
                     newCount: nat, strings: StringsPool, ghost texts: set<Text>, ghost mid: PropertySlot,
                     ghost typ: PropertyType, ghost t: Table<PropertyValue>, ghost added: seq<NewNode>, ghost p: nat)
    returns (r: Result<Option<PropertySlotAppend>, Error>)
    requires PoolReady(strings, texts) && |added| == newCount && |t.runs| == oldCount
    requires HoldsNew(bucket, added, p) && forall x <- NodeTexts(added, p) :: x in texts
    requires PropSlotIs(mid, typ, strings.List(), t) && KnownBy(slot, last, mid) && TypeOf(slot.values) == typ
    modifies strings, strings.tags, strings.slots
    ensures PoolReady(strings, texts)
    ensures (strings.tags == old(strings.tags) || fresh(strings.tags))
            && (strings.slots == old(strings.slots) || fresh(strings.slots))
    ensures old(strings.List()) <= strings.List()
    ensures r.Ok? <==> NewValuesFit(t, added, p, typ)
    ensures r.Err? ==> SlotAppendOutcome(t, added, p, typ) == Err(r.error)
    ensures r.Ok? ==>
              && AppendsTo(mid, typ, strings.List(), PropsExtended(t, added, p), r.value)
              && (r.value.Some? ==> r.value.value.slotIndex == slotIndex)
              && strings.List() == InternedAll(old(strings.List()), NodeTexts(added, p))
  {
    hide *;
    CurrentLastIsMids(slot, last, mid);
    NoneInterned(strings.List());
    var current := CurrentLast(slot, last);
    if newCount == 0 {
      NoNewNodes(bucket, added, p);
      UnmentionedSlot(mid, typ, strings.List(), t, added, p, None);
      return Ok(None);
    }
    if bucket.None? {
      if current.None? {
        UnmentionedSlot(mid, typ, strings.List(), t, added, p, None);
        return Ok(None);
      }
      var app := PropertySlotAppend(slotIndex, NewArray(TypeOf(slot.values)), seq(newCount, _ => current.value));
      UnmentionedSlot(mid, typ, strings.List(), t, added, p, Some(app));
      return Ok(Some(app));
    }
    var first: seq<u32> := if last.None? && slot.offsets == [] then seq(oldCount + 1, _ => 0) else [];
    var base := if current.Some? then current.value else 0;
    AppendStarts(mid, typ, t, added, p, strings.List(), first, base);
    var app := StageBatch(slotIndex, bucket, newCount, first, base, TypeOf(slot.values), strings, texts, mid, t, added,
                          p);
    if app.Err? {
      return Err(app.error);
    }
    return Ok(Some(app.value));
  }

  lemma NoneInterned(strings: seq<Text>)
    ensures InternedAll(strings, []) == strings
  {
  }

  // ----- the pass over the slots

  /** The property slots once every append has been written. */
  function AppendedProps(mids: seq<PropertySlot>, apps: seq<PropertySlotAppend>): (r: seq<PropertySlot>)
    ensures |r| == |mids|
  {
    if apps == [] then mids
    else
      var last := apps[|apps| - 1];
      var r := AppendedProps(mids, apps[..|apps| - 1]);
      if last.slotIndex < |mids| then r[last.slotIndex := AppendedSlot(r[last.slotIndex], last)] else r
  }

  /** Every append names a slot and brings a batch of that slot's type. */
  ghost predicate AppendsReady(mids: seq<PropertySlot>, apps: seq<PropertySlotAppend>) {
    forall j | 0 <= j < |apps| ::
      apps[j].slotIndex < |mids| && TypeOf(apps[j].valuesBatch) == TypeOf(mids[apps[j].slotIndex].values)
  }

  /** Writing appends never changes a slot's type, so a staged batch is never refused. */
  lemma {:induction false} AppendsKeepTypes(mids: seq<PropertySlot>, apps: seq<PropertySlotAppend>)
    requires AppendsReady(mids, apps)
    ensures forall i | 0 <= i < |mids| :: TypeOf(AppendedProps(mids, apps)[i].values) == TypeOf(mids[i].values)
  {
    if apps != [] {
      AppendsKeepTypes(mids, apps[..|apps| - 1]);
    }
  }

  /** The table slot `i` holds after the diff. */
  function TableAfter(s: Schema, g: Graph, updates: Updates, newNodes: seq<NewNode>, i: nat): Table<PropertyValue>
    requires i < |g.props|
  {
    PropsExtended(Updated(g.props[i], updates, i), OfKind(newNodes, s.PropertySlotKind(i)), s.PropertySlotProp(i))
  }

  /** The new values of the first `n` slots can be written. */
  ghost predicate NewValuesFitUpTo(s: Schema, g: Graph, updates: Updates, newNodes: seq<NewNode>, n: nat)
    requires n <= |g.props|
  {
    forall i | 0 <= i < n ::
      NewValuesFit(Updated(g.props[i], updates, i), OfKind(newNodes, s.PropertySlotKind(i)), s.PropertySlotProp(i),
                   PropTypeAt(s, i))
  }

  /** What the pass needs of one slot. */
  ghost predicate AppendReady(s: Schema, g: Graph, updates: Updates, newNodes: seq<NewNode>, props: seq<PropertySlot>,
                              lasts: seq<Option<u32>>, mids: seq<PropertySlot>, oldCounts: seq<nat>,
                              newCounts: seq<nat>, buckets: seq<NewValues>, i: nat)
  {
    var k := s.PropertySlotKind(i);
    && i < |g.props| == |props| == |lasts| == |mids| == |buckets|
    && k < |oldCounts| == |newCounts|
    && oldCounts[k] == |g.props[i].runs|
    && newCounts[k] == |OfKind(newNodes, k)|
    && HoldsNew(buckets[i], OfKind(newNodes, k), s.PropertySlotProp(i))
    && KnownBy(props[i], lasts[i], mids[i])
    && TypeOf(props[i].values) == PropTypeAt(s, i)
  }

  /** The first `i` slots hold their final tables, the others what updates left. */
  ghost predicate SlotsAppended(s: Schema, g: Graph, updates: Updates, newNodes: seq<NewNode>, mids: seq<PropertySlot>,
                                slots: seq<PropertySlot>, now: seq<Text>, i: nat)
  {
    && i <= |g.props| == |mids| == |slots|
    && (forall j | 0 <= j < i :: PropSlotIs(slots[j], PropTypeAt(s, j), now, TableAfter(s, g, updates, newNodes, j)))
    && (forall j | i <= j < |mids| ::
          slots[j] == mids[j] && PropSlotIs(mids[j], PropTypeAt(s, j), now, Updated(g.props[j], updates, j)))
  }

  lemma SlotsAppendedNext(s: Schema, g: Graph, updates: Updates, newNodes: seq<NewNode>, mids: seq<PropertySlot>,
                          slots: seq<PropertySlot>, before: seq<Text>, now: seq<Text>, i: nat, slot: PropertySlot)
    requires SlotsAppended(s, g, updates, newNodes, mids, slots, before, i) && i < |mids| && before <= now
    requires PropSlotIs(slot, PropTypeAt(s, i), now, TableAfter(s, g, updates, newNodes, i))
    ensures SlotsAppended(s, g, updates, newNodes, mids, slots[i := slot], now, i + 1)
  {
    hide PropSlotIs, TableAfter, Updated, PropTypeAt;
    forall j | 0 <= j < i
      ensures PropSlotIs(slots[j], PropTypeAt(s, j), now, TableAfter(s, g, updates, newNodes, j))
    {
      PropSlotIsLater(slots[j], PropTypeAt(s, j), before, now, TableAfter(s, g, updates, newNodes, j));
    }
    forall j | i < j < |mids|
      ensures slots[j] == mids[j] && PropSlotIs(mids[j], PropTypeAt(s, j), now, Updated(g.props[j], updates, j))
    {
      PropSlotIsLater(slots[j], PropTypeAt(s, j), before, now, Updated(g.props[j], updates, j));
    }
  }

  /** The first `i` slots are dealt with. */
  ghost predicate AppendPass(s: Schema, g: Graph, updates: Updates, newNodes: seq<NewNode>, mids: seq<PropertySlot>,
                             apps: seq<PropertySlotAppend>, start: seq<Text>, now: seq<Text>, i: nat)
  {
    && i <= |g.props| == |mids|
    && start <= now
    && now == InternedAll(start, NewNodeTextsUpTo(s, newNodes, i))
    && SlotsAppended(s, g, updates, newNodes, mids, AppendedProps(mids, apps), now, i)
    && AppendsReady(mids, apps)
    && NewValuesFitUpTo(s, g, updates, newNodes, i)
  }

  lemma AppendPassStarts(s: Schema, g: Graph, updates: Updates, newNodes: seq<NewNode>, mids: seq<PropertySlot>,
                         original: seq<PropertySlot>, start: seq<Text>)
    requires PropsUpTo(s, g, updates, mids, original, start, |mids|)
    ensures AppendPass(s, g, updates, newNodes, mids, [], start, start, 0)
  {
  }

  lemma AppendPassReaches(s: Schema, g: Graph, updates: Updates, newNodes: seq<NewNode>, mids: seq<PropertySlot>,
                          apps: seq<PropertySlotAppend>, start: seq<Text>, now: seq<Text>, i: nat,
                          props: seq<PropertySlot>, lasts: seq<Option<u32>>, oldCounts: seq<nat>,
                          newCounts: seq<nat>, buckets: seq<NewValues>)
    requires AppendPass(s, g, updates, newNodes, mids, apps, start, now, i) && i < |mids|
    requires AppendReady(s, g, updates, newNodes, props, lasts, mids, oldCounts, newCounts, buckets, i)
    ensures i < |g.props| == |props| == |lasts| == |mids| == |buckets|
    ensures var k := s.PropertySlotKind(i);
            && k < |oldCounts| == |newCounts|
            && oldCounts[k] == |Updated(g.props[i], updates, i).runs|
            && newCounts[k] == |OfKind(newNodes, k)|
            && HoldsNew(buckets[i], OfKind(newNodes, k), s.PropertySlotProp(i))
    ensures KnownBy(props[i], lasts[i], mids[i]) && TypeOf(props[i].values) == PropTypeAt(s, i)
    ensures PropSlotIs(mids[i], PropTypeAt(s, i), now, Updated(g.props[i], updates, i))
  {
  }

  lemma AppendPassNext(s: Schema, g: Graph, updates: Updates, newNodes: seq<NewNode>, mids: seq<PropertySlot>,
                       apps: seq<PropertySlotAppend>, start: seq<Text>, before: seq<Text>, now: seq<Text>, i: nat,
                       app: Option<PropertySlotAppend>)
    requires AppendPass(s, g, updates, newNodes, mids, apps, start, before, i) && i < |mids| && before <= now
    requires now == InternedAll(before, NodeTexts(OfKind(newNodes, s.PropertySlotKind(i)), s.PropertySlotProp(i)))
    requires AppendsTo(mids[i], PropTypeAt(s, i), now, TableAfter(s, g, updates, newNodes, i), app)
    requires app.Some? ==> app.value.slotIndex == i
    requires NewValuesFit(Updated(g.props[i], updates, i), OfKind(newNodes, s.PropertySlotKind(i)),
                          s.PropertySlotProp(i), PropTypeAt(s, i))
    ensures AppendPass(s, g, updates, newNodes, mids, if app.Some? then apps + [app.value] else apps, start, now, i + 1)
  {
    hide PropSlotIs, NewValuesFit, TableAfter, Updated, InternedAll, NodeTexts, AppendedSlot, SlotsAppended, PropTypeAt;
    var apps' := if app.Some? then apps + [app.value] else apps;
    InternedAllSplits(start, NewNodeTextsUpTo(s, newNodes, i),
                      NodeTexts(OfKind(newNodes, s.PropertySlotKind(i)), s.PropertySlotProp(i)));
    if app.Some? {
      assert apps'[..|apps|] == apps;
    }
    var slots := AppendedProps(mids, apps);
    SlotUntouched(s, g, updates, newNodes, mids, slots, before, i);
    var slot := if app.Some? then AppendedSlot(mids[i], app.value) else mids[i];
    SlotsAppendedNext(s, g, updates, newNodes, mids, slots, before, now, i, slot);
    assert AppendedProps(mids, apps') == slots[i := slot];
  }

  lemma SlotUntouched(s: Schema, g: Graph, updates: Updates, newNodes: seq<NewNode>, mids: seq<PropertySlot>,
                      slots: seq<PropertySlot>, now: seq<Text>, i: nat)
    requires SlotsAppended(s, g, updates, newNodes, mids, slots, now, i) && i < |mids|
    ensures |slots| == |mids| && slots[i] == mids[i]
  {
  }

  lemma NewValuesMisfit(s: Schema, g: Graph, updates: Updates, newNodes: seq<NewNode>, i: nat)
    requires i < |g.props|
    requires !NewValuesFit(Updated(g.props[i], updates, i), OfKind(newNodes, s.PropertySlotKind(i)),
                           s.PropertySlotProp(i), PropTypeAt(s, i))
    ensures !NewValuesFitUpTo(s, g, updates, newNodes, |g.props|)
  {
  }

  /** New values that fit their slot are not refused. */
  lemma NewValuesPass(t: Table<PropertyValue>, added: seq<NewNode>, p: nat, typ: PropertyType)
    requires NewValuesFit(t, added, p, typ)
    ensures SlotAppendOutcome(t, added, p, typ).Ok?
  {
    hide PropsExtended, PropertyOf, AllTyped, TotalOf, RunOutcome;
    var runs, written := PropsExtended(t, added, p).runs, NewOnes(|t.runs|, |added|);
    ExtendedLength(t, added, p);
    forall v | 0 <= v < |runs| && written[v]
      ensures AllTyped(runs[v], typ)
    {
      ExtendedAt(t, added, p, v - |t.runs|);
    }
    assert runs[..|runs|] == runs;
    RunsPass(runs, written, typ, |runs|);
    FirstOk(RunOutcomes(runs, written, typ));
  }

  lemma ExtendedLength(t: Table<PropertyValue>, added: seq<NewNode>, p: nat)
    ensures |PropsExtended(t, added, p).runs| == |t.runs| + |added|
  {
  }

  /** With the slots before it dealt with, a slot that fails is what the pass stops for. */
  lemma FirstAppendSlotFails(s: Schema, g: Graph, updates: Updates, newNodes: seq<NewNode>, mids: seq<PropertySlot>,
                             apps: seq<PropertySlotAppend>, start: seq<Text>, now: seq<Text>, i: nat)
    requires AppendPass(s, g, updates, newNodes, mids, apps, start, now, i) && i < |g.props|
    requires SlotAppendOutcome(Updated(g.props[i], updates, i), OfKind(newNodes, s.PropertySlotKind(i)),
                               s.PropertySlotProp(i), PropTypeAt(s, i)).Err?
    ensures First(AppendOutcomes(s, g, updates, newNodes))
         == SlotAppendOutcome(Updated(g.props[i], updates, i), OfKind(newNodes, s.PropertySlotKind(i)),
                              s.PropertySlotProp(i), PropTypeAt(s, i))
  {
    hide SlotAppendOutcome, NewValuesFit, SlotsAppended, InternedAll, AppendsReady, PropTypeAt, Updated;
    var outcomes := AppendOutcomes(s, g, updates, newNodes);
    forall j | 0 <= j < i
      ensures outcomes[j].Ok?
    {
      NewValuesPass(Updated(g.props[j], updates, j), OfKind(newNodes, s.PropertySlotKind(j)), s.PropertySlotProp(j),
                    PropTypeAt(s, j));
    }
    FirstFailsAt(outcomes, i);
  }

  lemma AllAppendsPass(s: Schema, g: Graph, updates: Updates, newNodes: seq<NewNode>)
    requires NewValuesFitUpTo(s, g, updates, newNodes, |g.props|)
    ensures First(AppendOutcomes(s, g, updates, newNodes)).Ok?
  {
    hide SlotAppendOutcome, NewValuesFit, PropTypeAt, Updated;
    forall j | 0 <= j < |g.props|
      ensures AppendOutcomes(s, g, updates, newNodes)[j].Ok?
    {
      NewValuesPass(Updated(g.props[j], updates, j), OfKind(newNodes, s.PropertySlotKind(j)), s.PropertySlotProp(j),
                    PropTypeAt(s, j));
    }
    FirstOk(AppendOutcomes(s, g, updates, newNodes));
  }

  lemma AppendPassEnds(s: Schema, g: Graph, updates: Updates, newNodes: seq<NewNode>, mids: seq<PropertySlot>,
                       apps: seq<PropertySlotAppend>, start: seq<Text>, now: seq<Text>)
    requires AppendPass(s, g, updates, newNodes, mids, apps, start, now, |mids|)
    ensures |mids| == |g.props| && start <= now == InternedAll(start, NewNodeTextsUpTo(s, newNodes, |g.props|))
    ensures NewValuesFitUpTo(s, g, updates, newNodes, |g.props|) && AppendsReady(mids, apps)
    ensures PropsAre(s, g, updates, newNodes, AppendedProps(mids, apps), now)
  {
  }

  /** Every slot holds the table it should after the diff. */
  ghost predicate PropsAre(s: Schema, g: Graph, updates: Updates, newNodes: seq<NewNode>, slots: seq<PropertySlot>,
                           strings: seq<Text>)
  {
    && |slots| == |g.props|
    && forall i | 0 <= i < |slots| ::
       PropSlotIs(slots[i], PropTypeAt(s, i), strings, TableAfter(s, g, updates, newNodes, i))
  }

  method PrepareNewNodeProperties(s: Schema, props: seq<PropertySlot>, strings: StringsPool, oldCounts: seq<nat>,
                                  newCounts: seq<nat>, buckets: seq<NewValues>, lasts: seq<Option<u32>>,
                                  ghost g: Graph, ghost updates: Updates, ghost newNodes: seq<NewNode>,
                                  ghost mids: seq<PropertySlot>, ghost texts: set<Text>)
    returns (r: Result<seq<PropertySlotAppend>, Error>)
    requires PoolReady(strings, texts) && |g.props| == |mids| == s.PropertyStorageSize()
    requires PropsUpTo(s, g, updates, mids, props, strings.List(), |mids|)
    requires forall i | 0 <= i < |mids| ::
               AppendReady(s, g, updates, newNodes, props, lasts, mids, oldCounts, newCounts, buckets, i)
    requires forall i, x | 0 <= i < |mids|
               && x in NodeTexts(OfKind(newNodes, s.PropertySlotKind(i)), s.PropertySlotProp(i)) :: x in texts
    modifies strings, strings.tags, strings.slots
    ensures PoolReady(strings, texts)
    ensures (strings.tags == old(strings.tags) || fresh(strings.tags))
            && (strings.slots == old(strings.slots) || fresh(strings.slots))
    ensures old(strings.List()) <= strings.List()
    ensures r.Ok? <==> NewValuesFitUpTo(s, g, updates, newNodes, |g.props|)
    ensures Answers(r, First(AppendOutcomes(s, g, updates, newNodes)))
    ensures r.Ok? ==>
              && PropsAre(s, g, updates, newNodes, AppendedProps(mids, r.value), strings.List())
              && AppendsReady(mids, r.value)
              && strings.List() == InternedAll(old(strings.List()), NewNodeTextsUpTo(s, newNodes, |g.props|))
  {
    hide *;
    var apps := [];
    var i := 0;
    ghost var start := strings.List();
    AppendPassStarts(s, g, updates, newNodes, mids, props, start);
    while i < s.PropertyStorageSize()
      invariant 0 <= i <= |g.props|
      invariant PoolReady(strings, texts) && start <= strings.List()
      invariant (strings.tags == old(strings.tags) || fresh(strings.tags))
                && (strings.slots == old(strings.slots) || fresh(strings.slots))
      invariant AppendPass(s, g, updates, newNodes, mids, apps, start, strings.List(), i)
    {
      ghost var before := strings.List();
      AppendPassReaches(s, g, updates, newNodes, mids, apps, start, before, i, props, lasts, oldCounts, newCounts,
                        buckets);
      var k := s.PropertySlotKind(i);
      var app := StageAppend(i, props[i], lasts[i], buckets[i], oldCounts[k], newCounts[k], strings, texts, mids[i],
                             PropTypeAt(s, i), Updated(g.props[i], updates, i), OfKind(newNodes, k),
                             s.PropertySlotProp(i));
      if app.Err? {
        NewValuesMisfit(s, g, updates, newNodes, i);
        FirstAppendSlotFails(s, g, updates, newNodes, mids, apps, start, before, i);
        AnswerIs<seq<PropertySlotAppend>>(app.error, First(AppendOutcomes(s, g, updates, newNodes)));
        return Err(app.error);
      }
      TableAfterIs(s, g, updates, newNodes, i);
      AppendPassNext(s, g, updates, newNodes, mids, apps, start, before, strings.List(), i, app.value);
      if app.value.Some? {
        apps := apps + [app.value.value];
      }
      i := i + 1;
    }
    AppendPassEnds(s, g, updates, newNodes, mids, apps, start, strings.List());
    AllAppendsPass(s, g, updates, newNodes);
    AnswerOk(apps, First(AppendOutcomes(s, g, updates, newNodes)));
    return Ok(apps);
  }

  lemma TableAfterIs(s: Schema, g: Graph, updates: Updates, newNodes: seq<NewNode>, i: nat)
    requires i < |g.props|
    ensures TableAfter(s, g, updates, newNodes, i)
         == PropsExtended(Updated(g.props[i], updates, i), OfKind(newNodes, s.PropertySlotKind(i)),
                          s.PropertySlotProp(i))
  {
  }
}
