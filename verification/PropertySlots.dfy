/** Rebuilding property slots after updates and extending them for new nodes. */
module PropertySlots {
  import opened Wrappers
  import opened Storage
  import opened Schemas
  import opened StringsPool
  import opened Csr
  import opened Graphs
  import opened Diffs
  import opened Outcomes
  import opened FlatGraphs

  /** What commit appends to one property slot for the diff's new nodes. */
  datatype PropertySlotAppend = PropertySlotAppend(slotIndex: nat, valuesBatch: StorageArray, offsetsTail: seq<u32>)

  // ----- strings

  /** What staging may assume of the pool: it is sound and has room for every string at stake. */
  ghost predicate PoolReady(strings: StringsPool, texts: set<Text>)
    reads strings, strings.tags, strings.slots
  {
    strings.Valid() && FitsPool(texts) && forall t <- strings.List() :: t in texts
  }

  lemma {:induction false} TextsOfJoins(a: seq<PropertyValue>, b: seq<PropertyValue>)
    ensures TextsOf(a + b) == TextsOf(a) + TextsOf(b)
    decreases |b|
  {
    if b == [] {
      assert a + b == a;
    } else {
      assert (a + b)[..|a + b| - 1] == a + b[..|b| - 1];
      TextsOfJoins(a, b[..|b| - 1]);
    }
  }

  lemma InternedOne(strings: seq<Text>, v: PropertyValue)
    ensures InternedAll(strings, TextsOf([v])) == if v.String? then Interned(strings, v.text) else strings
  {
    assert [v][..0] == [];
    if v.String? {
      assert TextsOf([v]) == [v.text];
      assert [v.text][..0] == [];
    }
  }

  /** Interning texts one value at a time. */
  lemma InternedNext(strings: seq<Text>, vs: seq<PropertyValue>, i: nat)
    requires i < |vs|
    ensures InternedAll(strings, TextsOf(vs[..i + 1]))
         == var before := InternedAll(strings, TextsOf(vs[..i]));
            if vs[i].String? then Interned(before, vs[i].text) else before
  {
    assert vs[..i + 1] == vs[..i] + [vs[i]];
    TextsOfJoins(vs[..i], [vs[i]]);
    InternedAllSplits(strings, TextsOf(vs[..i]), TextsOf([vs[i]]));
    InternedOne(InternedAll(strings, TextsOf(vs[..i])), vs[i]);
  }

  /** What interning one string needs of a ready pool. */
  lemma PoolHasRoom(strings: StringsPool, texts: set<Text>, text: Text)
    requires PoolReady(strings, texts) && text in texts
    ensures strings.Valid()
    ensures text !in strings.List() ==> |strings.List()| < U32_MAX && |strings.buffer| + |text| <= U32_MAX
  {
    hide StringsPool.Valid, StringsPool.List;
    strings.HasRoom(text, texts);
  }

  lemma PoolStaysReady(strings: StringsPool, texts: set<Text>, before: seq<Text>, text: Text)
    requires strings.Valid() && FitsPool(texts) && text in texts
    requires strings.List() == Interned(before, text) && forall t <- before :: t in texts
    ensures PoolReady(strings, texts)
  {
    hide FitsPool, StringsPool.Valid, StringsPool.List;
  }

  lemma PoolReads(strings: StringsPool, texts: set<Text>)
    requires PoolReady(strings, texts)
    ensures FitsPool(texts) && forall t <- strings.List() :: t in texts
  {
    hide FitsPool, StringsPool.Valid, StringsPool.List;
  }

  lemma StoredText(before: seq<Text>, text: Text, id: u32)
    requires id == IndexIn(before, text)
    ensures IdInPool(Interned(before, text), Value.String(id))
    ensures Resolve(Interned(before, text), Value.String(id)) == Value.String(text)
  {
  }

  /** Stores a value, interning the string it may carry. */
  method ToStoredProperty(v: PropertyValue, strings: StringsPool, ghost texts: set<Text>)
    returns (r: StoredProperty)
    requires PoolReady(strings, texts) && (v.String? ==> v.text in texts)
    modifies strings, strings.tags, strings.slots
    ensures PoolReady(strings, texts)
    ensures (strings.tags == old(strings.tags) || fresh(strings.tags))
            && (strings.slots == old(strings.slots) || fresh(strings.slots))
    ensures strings.List() == if v.String? then Interned(old(strings.List()), v.text) else old(strings.List())
    ensures r.Typ() == v.Typ() && IdInPool(strings.List(), r) && Resolve(strings.List(), r) == v
  {
    hide PoolReady, FitsPool, Interned, IndexIn, StringsPool.Valid, StringsPool.List;
    match v
    case Bool(x) => r := Value.Bool(x);
    case Byte(x) => r := Value.Byte(x);
    case Short(x) => r := Value.Short(x);
    case Int(x) => r := Value.Int(x);
    case Long(x) => r := Value.Long(x);
    case Float(x) => r := Value.Float(x);
    case Double(x) => r := Value.Double(x);
    case NodeId(x) => r := Value.NodeId(x);
    case Enum(x) => r := Value.Enum(x);
    case String(text) =>
      ghost var before := strings.List();
      PoolReads(strings, texts);
      PoolHasRoom(strings, texts, text);
      var id := strings.Intern(text);
      PoolStaysReady(strings, texts, before, text);
      StoredText(before, text, id);
      r := Value.String(id);
  }

  /** A column's values with their texts: the pool knows every id and they read as `meaning`. */
  ghost predicate ColumnMeans(column: StorageArray, strings: seq<Text>, meaning: seq<PropertyValue>) {
    IdsInPool(strings, Items(column)) && ResolveAll(strings, Items(column)) == meaning
  }

  lemma ColumnMeansLater(column: StorageArray, strings: seq<Text>, more: seq<Text>, meaning: seq<PropertyValue>)
    requires ColumnMeans(column, strings, meaning) && strings <= more
    ensures ColumnMeans(column, more, meaning)
  {
    ResolveStable(strings, more, Items(column));
  }

  lemma ColumnMeansPushed(column: StorageArray, pushed: StorageArray, strings: seq<Text>,
                          meaning: seq<PropertyValue>, v: StoredProperty)
    requires ColumnMeans(column, strings, meaning) && Items(pushed) == Items(column) + [v]
    requires IdInPool(strings, v)
    ensures ColumnMeans(pushed, strings, meaning + [Resolve(strings, v)])
  {
  }

  /** Stores each value at the end of the column and advances the running offset by their number. */
  method AppendPropertyBatch(values: StorageArray, cumulative: u32, props: seq<PropertyValue>,
                             strings: StringsPool, ghost texts: set<Text>, ghost meaning: seq<PropertyValue>)
    returns (r: Result<(StorageArray, u32), Error>)
    requires PoolReady(strings, texts) && forall t <- TextsOf(props) :: t in texts
    requires ColumnMeans(values, strings.List(), meaning)
    modifies strings, strings.tags, strings.slots
    ensures PoolReady(strings, texts)
    ensures (strings.tags == old(strings.tags) || fresh(strings.tags))
            && (strings.slots == old(strings.slots) || fresh(strings.slots))
    ensures old(strings.List()) <= strings.List()
    ensures r.Ok? <==> AllTyped(props, TypeOf(values)) && cumulative + |props| <= U32_MAX
    ensures r.Ok? ==>
              && TypeOf(r.value.0) == TypeOf(values)
              && ColumnMeans(r.value.0, strings.List(), meaning + props)
              && r.value.1 == cumulative + |props|
              && strings.List() == InternedAll(old(strings.List()), TextsOf(props))
    ensures r.Err? ==> First(WriteOutcomes(cumulative, props, TypeOf(values))) == Err(r.error)
  {
    hide *;
    var column := values;
    var i := 0;
    ghost var start := strings.List();
    BatchedStarts(props, start, column, meaning);
    while i < |props|
      invariant 0 <= i <= |props|
      invariant PoolReady(strings, texts) && start <= strings.List()
      invariant (strings.tags == old(strings.tags) || fresh(strings.tags))
                && (strings.slots == old(strings.slots) || fresh(strings.slots))
      invariant Batched(props, i, TypeOf(values), start, strings.List(), column, meaning)
    {
      ghost var before := strings.List();
      TextAt(props, i);
      var stored := ToStoredProperty(props[i], strings, texts);
      var pushed := TryPush(column, stored);
      BatchedNext(props, i, TypeOf(values), start, before, column, meaning, strings.List(), stored, pushed);
      if pushed.Err? {
        BatchMistyped(props, i, TypeOf(values), start, before, column, meaning, stored, cumulative);
        return Err(pushed.error);
      }
      column := pushed.value;
      i := i + 1;
    }
    BatchedEnds(props, TypeOf(values), start, strings.List(), column, meaning);
    var advanced := CheckedAddDelta(cumulative, |props|);
    if advanced.Err? {
      BatchOverflows(props, TypeOf(values), cumulative);
      return Err(advanced.error);
    }
    return Ok((column, advanced.value));
  }

  /** The first value of the wrong type is what a batch is refused for. */
  lemma BatchMistyped(props: seq<PropertyValue>, i: nat, typ: PropertyType, start: seq<Text>, before: seq<Text>,
                      column: StorageArray, meaning: seq<PropertyValue>, stored: StoredProperty, total: nat)
    requires i < |props| && Batched(props, i, typ, start, before, column, meaning)
    requires stored.Typ() == props[i].Typ() && TryPush(column, stored).Err?
    ensures First(WriteOutcomes(total, props, typ)) == Err(TryPush(column, stored).error)
  {
    hide InternedAll, TextsOf, ColumnMeans;
    var outcomes := WriteOutcomes(total, props, typ);
    forall j | 0 <= j < i
      ensures outcomes[j].Ok?
    {
      assert props[j] in props[..i];
    }
    FirstFailsAt(outcomes, i);
  }

  /** With every type right, a batch is refused only for the offset it would end at. */
  lemma BatchOverflows(props: seq<PropertyValue>, typ: PropertyType, total: u32)
    requires AllTyped(props, typ) && CheckedAddDelta(total, |props|).Err?
    ensures First(WriteOutcomes(total, props, typ)) == Err(CheckedAddDelta(total, |props|).error)
  {
    var outcomes := WriteOutcomes(total, props, typ);
    forall j | 0 <= j < |props|
      ensures outcomes[j].Ok?
    {
      assert props[j] in props;
    }
    FirstFailsAt(outcomes, |props|);
  }

  /** The first `i` values are stored: the pool knows their strings and the column reads as intended. */
  ghost predicate Batched(props: seq<PropertyValue>, i: nat, typ: PropertyType, start: seq<Text>, now: seq<Text>,
                          column: StorageArray, meaning: seq<PropertyValue>)
  {
    && i <= |props|
    && start <= now
    && now == InternedAll(start, TextsOf(props[..i]))
    && TypeOf(column) == typ
    && AllTyped(props[..i], typ)
    && ColumnMeans(column, now, meaning + props[..i])
  }

  lemma BatchedStarts(props: seq<PropertyValue>, start: seq<Text>, column: StorageArray, meaning: seq<PropertyValue>)
    requires ColumnMeans(column, start, meaning)
    ensures Batched(props, 0, TypeOf(column), start, start, column, meaning)
  {
    assert props[..0] == [] && meaning + [] == meaning;
  }

  lemma BatchedEnds(props: seq<PropertyValue>, typ: PropertyType, start: seq<Text>, now: seq<Text>,
                    column: StorageArray, meaning: seq<PropertyValue>)
    requires Batched(props, |props|, typ, start, now, column, meaning)
    ensures now == InternedAll(start, TextsOf(props)) && TypeOf(column) == typ && AllTyped(props, typ)
    ensures ColumnMeans(column, now, meaning + props)
  {
    assert props[..|props|] == props;
  }

  lemma BatchedNext(props: seq<PropertyValue>, i: nat, typ: PropertyType, start: seq<Text>, before: seq<Text>,
                    column: StorageArray, meaning: seq<PropertyValue>, now: seq<Text>, stored: StoredProperty,
                    pushed: Result<StorageArray, Error>)
    requires i < |props| && Batched(props, i, typ, start, before, column, meaning)
    requires now == if props[i].String? then Interned(before, props[i].text) else before
    requires IdInPool(now, stored) && Resolve(now, stored) == props[i] && stored.Typ() == props[i].Typ()
    requires pushed == TryPush(column, stored)
    ensures start <= now
    ensures if pushed.Ok? then Batched(props, i + 1, typ, start, now, pushed.value, meaning) else !AllTyped(props, typ)
  {
    hide InternedAll, TextsOf, ColumnMeans, Resolve, IdInPool;
    InternedNext(start, props, i);
    ColumnMeansLater(column, before, now, meaning + props[..i]);
    assert props[..i + 1] == props[..i] + [props[i]];
    if pushed.Ok? {
      ColumnMeansPushed(column, pushed.value, now, meaning + props[..i], stored);
      assert meaning + props[..i] + [props[i]] == meaning + props[..i + 1];
    } else {
      assert props[i] in props;
    }
  }

  lemma {:induction false} TextAt(vs: seq<PropertyValue>, i: nat)
    requires i < |vs|
    ensures vs[i].String? ==> vs[i].text in TextsOf(vs)
  {
    if i < |vs| - 1 {
      TextAt(vs[..|vs| - 1], i);
    }
  }

  // ----- updates

  /** The runs of a table with some of them replaced. */
  function WithUpdates(runs: seq<seq<PropertyValue>>, updates: seq<Option<Quantified>>): (r: seq<seq<PropertyValue>>)
    requires |updates| == |runs|
    ensures |r| == |runs|
  {
    seq(|runs|, v requires 0 <= v < |runs| => if updates[v].Some? then updates[v].value.Values() else runs[v])
  }

  /** The strings the updates of the first `m` nodes bring in. */
  function UpdateTexts(updates: seq<Option<Quantified>>, m: nat): seq<Text>
    requires m <= |updates|
  {
    if m == 0 then []
    else
      UpdateTexts(updates, m - 1)
      + if updates[m - 1].Some? then TextsOf(updates[m - 1].value.Values()) else []
  }

  ghost predicate UpdatesTyped(updates: seq<Option<Quantified>>, m: nat, typ: PropertyType)
    requires m <= |updates|
  {
    forall v | 0 <= v < m && updates[v].Some? :: AllTyped(updates[v].value.Values(), typ)
  }

  /** A slot being rebuilt: its first `k` runs are written and read as intended. */
  ghost predicate Rebuilt(offsets: seq<u32>, column: StorageArray, typ: PropertyType, strings: seq<Text>,
                          runs: seq<seq<PropertyValue>>, k: nat)
  {
    && k <= |runs|
    && offsets != []
    && TypeOf(column) == typ
    && IdsInPool(strings, Items(column))
    && Cuts(offsets, k, |Items(column)|)
    && Runs(offsets, ResolveAll(strings, Items(column)), k) == runs[..k]
    && |Items(column)| == TotalOf(runs[..k])
  }

  lemma RebuiltNext(offsets: seq<u32>, column: StorageArray, typ: PropertyType, before: seq<Text>, now: seq<Text>,
                    runs: seq<seq<PropertyValue>>, k: nat, column': StorageArray, end: u32)
    requires Rebuilt(offsets, column, typ, before, runs, k) && k < |runs| && before <= now
    requires TypeOf(column') == typ
    requires ColumnMeans(column', now, ResolveAll(before, Items(column)) + runs[k])
    requires end == |Items(column)| + |runs[k]|
    ensures Rebuilt(offsets + [end], column', typ, now, runs, k + 1)
  {
    AppendsRun(offsets, ResolveAll(before, Items(column)), k, runs[k]);
    TotalNext(runs, k);
    assert runs[..k + 1] == runs[..k] + [runs[k]];
  }

  /** Copies one unchanged run into the slot being rebuilt. */
  method CopyRun(slot: PropertySlot, start: u32, end: u32, column: StorageArray, cumulative: u32,
                 ghost strings: seq<Text>, ghost meaning: seq<PropertyValue>)
    returns (r: Result<(StorageArray, u32), Error>)
    requires start <= end <= |Items(slot.values)| && TypeOf(column) == TypeOf(slot.values)
    requires IdsInPool(strings, Items(slot.values)) && ColumnMeans(column, strings, meaning)
    ensures r.Ok? <==> cumulative + (end - start) <= U32_MAX
    ensures r.Ok? ==>
              && TypeOf(r.value.0) == TypeOf(column)
              && ColumnMeans(r.value.0, strings, meaning + ResolveAll(strings, Items(slot.values))[start..end])
              && r.value.1 == cumulative + (end - start)
    ensures r.Err? ==> AddOutcome(cumulative, end - start) == Err(r.error)
  {
    var copied := column;
    var i: nat := start;
    ghost var all := ResolveAll(strings, Items(slot.values));
    while i < end
      invariant start <= i <= end
      invariant TypeOf(copied) == TypeOf(column)
      invariant ColumnMeans(copied, strings, meaning + all[start..i])
    {
      var v := Items(slot.values)[i];
      assert v in Items(slot.values);
      var pushed := TryPush(copied, v);
      assert pushed.Ok?;
      ColumnMeansPushed(copied, pushed.value, strings, meaning + all[start..i], v);
      assert meaning + all[start..i] + [all[i]] == meaning + all[start..i + 1];
      copied := pushed.value;
      i := i + 1;
    }
    var length := CheckedSub(end, start);
    assert length.Ok?;
    var advanced :- CheckedAddDelta(cumulative, length.value);
    return Ok((copied, advanced));
  }

  /** Writes one node's run: the update's values, or the old run if there is no update. */
  method RebuildRun(slot: PropertySlot, node: nat, update: Option<Quantified>, column: StorageArray, cumulative: u32,
                    strings: StringsPool, ghost texts: set<Text>, ghost start: seq<Text>)
    returns (r: Result<(StorageArray, u32), Error>)
    requires PoolReady(strings, texts) && start <= strings.List() && IdsInPool(start, Items(slot.values))
    requires node + 1 < |slot.offsets| && slot.offsets[node] <= slot.offsets[node + 1] <= |Items(slot.values)|
    requires update.Some? ==> forall t <- TextsOf(update.value.Values()) :: t in texts
    requires TypeOf(column) == TypeOf(slot.values) && IdsInPool(strings.List(), Items(column))
    modifies strings, strings.tags, strings.slots
    ensures PoolReady(strings, texts)
    ensures (strings.tags == old(strings.tags) || fresh(strings.tags))
            && (strings.slots == old(strings.slots) || fresh(strings.slots))
    ensures old(strings.List()) <= strings.List()
    ensures var run := if update.Some? then update.value.Values()
                       else Run(slot.offsets, ResolveAll(start, Items(slot.values)), node);
            && (r.Ok? <==> (update.Some? ==> AllTyped(run, TypeOf(column))) && cumulative + |run| <= U32_MAX)
            && (r.Ok? ==>
                  && TypeOf(r.value.0) == TypeOf(column)
                  && ColumnMeans(r.value.0, strings.List(), ResolveAll(old(strings.List()), Items(column)) + run)
                  && r.value.1 == cumulative + |run|
                  && strings.List() == InternedAll(old(strings.List()), if update.Some? then TextsOf(run) else []))
            && (r.Err? ==> RunOutcome(cumulative, run, TypeOf(column), update.Some?) == Err(r.error))
  {
    ghost var meaning := ResolveAll(strings.List(), Items(column));
    if update.Some? {
      r := AppendPropertyBatch(column, cumulative, update.value.Values(), strings, texts, meaning);
    } else {
      ResolveStable(start, strings.List(), Items(slot.values));
      r := CopyRun(slot, slot.offsets[node], slot.offsets[node + 1], column, cumulative, strings.List(), meaning);
    }
  }

  /** The first `k` nodes of a slot are rewritten and their strings interned. */
  ghost predicate UpdatedUpTo(updates: seq<Option<Quantified>>, runs: seq<seq<PropertyValue>>, typ: PropertyType,
                              start: seq<Text>, now: seq<Text>, offsets: seq<u32>, column: StorageArray, k: nat)
  {
    && k <= |updates| == |runs|
    && start <= now
    && now == InternedAll(start, UpdateTexts(updates, k))
    && UpdatesTyped(updates, k, typ)
    && Rebuilt(offsets, column, typ, now, runs, k)
  }

  lemma UpdatedNext(updates: seq<Option<Quantified>>, runs: seq<seq<PropertyValue>>, typ: PropertyType,
                    start: seq<Text>, before: seq<Text>, now: seq<Text>, offsets: seq<u32>, column: StorageArray,
                    k: nat, column': StorageArray, end: u32)
    requires k < |updates| && UpdatedUpTo(updates, runs, typ, start, before, offsets, column, k) && before <= now
    requires updates[k].Some? ==> runs[k] == updates[k].value.Values() && AllTyped(runs[k], typ)
    requires now == InternedAll(before, if updates[k].Some? then TextsOf(runs[k]) else [])
    requires TypeOf(column') == typ && ColumnMeans(column', now, ResolveAll(before, Items(column)) + runs[k])
    requires end == |Items(column)| + |runs[k]|
    ensures UpdatedUpTo(updates, runs, typ, start, now, offsets + [end], column', k + 1)
  {
    hide Rebuilt, ColumnMeans, InternedAll, TextsOf;
    var added := if updates[k].Some? then TextsOf(runs[k]) else [];
    InternedAllSplits(start, UpdateTexts(updates, k), added);
    RebuiltNext(offsets, column, typ, before, now, runs, k, column', end);
  }

  /** A run that cannot be written rules out the whole rebuild. */
  lemma UpdateFails(updates: seq<Option<Quantified>>, runs: seq<seq<PropertyValue>>, typ: PropertyType, k: nat,
                    length: nat)
    requires k < |updates| == |runs| && length == TotalOf(runs[..k])
    requires updates[k].Some? ==> runs[k] == updates[k].value.Values()
    requires (updates[k].Some? && !AllTyped(runs[k], typ)) || length + |runs[k]| > U32_MAX
    ensures !UpdatesTyped(updates, |updates|, typ) || TotalOf(runs) > U32_MAX
  {
    TotalNext(runs, k);
    TotalPrefix(runs, k + 1);
  }

  /** Which nodes' runs are newly written. */
  function Somes(updates: seq<Option<Quantified>>): (r: seq<bool>)
    ensures |r| == |updates|
  {
    seq(|updates|, v requires 0 <= v < |updates| => updates[v].Some?)
  }

  /** A typed run within the total fails nothing. */
  lemma RunPasses(total: nat, run: seq<PropertyValue>, typ: PropertyType, written: bool)
    requires (written ==> AllTyped(run, typ)) && total + |run| <= U32_MAX
    ensures RunOutcome(total, run, typ, written).Ok?
  {
    var outcomes := WriteOutcomes(total, run, typ);
    forall j | 0 <= j < |run|
      ensures written ==> outcomes[j].Ok?
    {
      assert run[j] in run;
    }
    FirstOk(outcomes);
  }

  /** Typed runs within the total fail nothing. */
  lemma RunsPass(runs: seq<seq<PropertyValue>>, written: seq<bool>, typ: PropertyType, k: nat)
    requires |written| == |runs| && k <= |runs| && TotalOf(runs[..k]) <= U32_MAX
    requires forall v | 0 <= v < k && written[v] :: AllTyped(runs[v], typ)
    ensures forall v | 0 <= v < k :: RunOutcomes(runs, written, typ)[v].Ok?
  {
    hide TotalOf, RunOutcome, AllTyped;
    forall v | 0 <= v < k
      ensures RunOutcomes(runs, written, typ)[v].Ok?
    {
      TotalNext(runs, v);
      TotalPrefix(runs[..k], v + 1);
      assert runs[..k][..v + 1] == runs[..v + 1];
      RunPasses(TotalOf(runs[..v]), runs[v], typ, written[v]);
    }
  }

  /** With the runs before it written, a run that fails is what the slot is refused for. */
  lemma FirstRunFails(updates: seq<Option<Quantified>>, runs: seq<seq<PropertyValue>>, typ: PropertyType, k: nat,
                      start: seq<Text>, now: seq<Text>, offsets: seq<u32>, column: StorageArray)
    requires k < |updates| && UpdatedUpTo(updates, runs, typ, start, now, offsets, column, k)
    requires forall v | 0 <= v < |updates| && updates[v].Some? :: runs[v] == updates[v].value.Values()
    requires RunOutcome(TotalOf(runs[..k]), runs[k], typ, updates[k].Some?).Err?
    ensures First(RunOutcomes(runs, Somes(updates), typ))
         == RunOutcome(TotalOf(runs[..k]), runs[k], typ, updates[k].Some?)
  {
    hide InternedAll, RunOutcome, TotalOf;
    RunsPass(runs, Somes(updates), typ, k);
    FirstFailsAt(RunOutcomes(runs, Somes(updates), typ), k);
  }

  /** What is known of the next run of a slot while it is being rebuilt. */
  lemma RebuildReaches(slot: PropertySlot, updates: seq<Option<Quantified>>, typ: PropertyType, start: seq<Text>,
                       runs: seq<seq<PropertyValue>>, now: seq<Text>, offsets: seq<u32>, column: StorageArray, k: nat)
    requires PropSlotOk(slot, typ, |updates|, start) && slot.offsets != [] && k < |updates|
    requires runs == WithUpdates(PropTable(start, slot, |updates|).runs, updates)
    requires UpdatedUpTo(updates, runs, typ, start, now, offsets, column, k)
    ensures slot.offsets[k] <= slot.offsets[k + 1] <= |Items(slot.values)| && IdsInPool(start, Items(slot.values))
    ensures TypeOf(slot.values) == TypeOf(column) == typ && IdsInPool(now, Items(column)) && start <= now
    ensures |Items(column)| == TotalOf(runs[..k])
    ensures runs[k] == if updates[k].Some? then updates[k].value.Values()
                       else Run(slot.offsets, ResolveAll(start, Items(slot.values)), k)
  {
  }

  lemma RunsWritten(old_: seq<seq<PropertyValue>>, updates: seq<Option<Quantified>>)
    requires |updates| == |old_|
    ensures |WithUpdates(old_, updates)| == |updates|
    ensures forall v | 0 <= v < |updates| && updates[v].Some? ::
              WithUpdates(old_, updates)[v] == updates[v].value.Values()
  {
  }

  lemma RebuildStarts(slot: PropertySlot, updates: seq<Option<Quantified>>, runs: seq<seq<PropertyValue>>,
                      typ: PropertyType, start: seq<Text>)
    requires |updates| == |runs| && PropSlotOk(slot, typ, |updates|, start) && slot.offsets != []
    ensures |slot.offsets| == |updates| + 1 && TypeOf(slot.values) == typ && typ != NoType
    ensures UpdatedUpTo(updates, runs, typ, start, start, [0], NewArray(typ), 0) && Items(NewArray(typ)) == []
  {
    assert runs[..0] == [];
  }

  lemma RebuildEnds(updates: seq<Option<Quantified>>, runs: seq<seq<PropertyValue>>, typ: PropertyType,
                    start: seq<Text>, now: seq<Text>, offsets: seq<u32>, column: StorageArray, cumulative: u32)
    requires UpdatedUpTo(updates, runs, typ, start, now, offsets, column, |updates|) && typ != NoType
    requires cumulative == |Items(column)|
    ensures PropSlotOk(PropertySlot(offsets, column), typ, |updates|, now) && start <= now
    ensures PropTable(now, PropertySlot(offsets, column), |updates|) == Table(true, runs)
    ensures now == InternedAll(start, UpdateTexts(updates, |updates|))
    ensures UpdatesTyped(updates, |updates|, typ) && TotalOf(runs) <= U32_MAX
  {
    assert runs[..|updates|] == runs;
  }

  lemma MeaningLength(column': StorageArray, now: seq<Text>, before: seq<Text>, column: StorageArray,
                      added: seq<PropertyValue>)
    requires ColumnMeans(column', now, ResolveAll(before, Items(column)) + added)
    ensures |Items(column')| == |Items(column)| + |added|
  {
    assert |ResolveAll(now, Items(column'))| == |Items(column)| + |added|;
  }

  /** Rebuilds one slot with the given nodes' runs replaced. */
  method RebuildSlot(slot: PropertySlot, updates: seq<Option<Quantified>>, strings: StringsPool,
                     ghost texts: set<Text>, ghost typ: PropertyType)
    returns (r: Result<PropertySlot, Error>)
    requires PoolReady(strings, texts) && slot.offsets != []
    requires PropSlotOk(slot, typ, |updates|, strings.List())
    requires forall v, t | 0 <= v < |updates| && updates[v].Some?
             && t in TextsOf(updates[v].value.Values()) :: t in texts
    modifies strings, strings.tags, strings.slots
    ensures PoolReady(strings, texts)
    ensures (strings.tags == old(strings.tags) || fresh(strings.tags))
            && (strings.slots == old(strings.slots) || fresh(strings.slots))
    ensures old(strings.List()) <= strings.List()
    ensures var runs := WithUpdates(PropTable(old(strings.List()), slot, |updates|).runs, updates);
            && (r.Ok? <==> UpdatesTyped(updates, |updates|, typ) && TotalOf(runs) <= U32_MAX)
            && (r.Ok? ==>
                  && PropSlotOk(r.value, typ, |updates|, strings.List())
                  && PropTable(strings.List(), r.value, |updates|) == Table(true, runs)
                  && strings.List() == InternedAll(old(strings.List()), UpdateTexts(updates, |updates|)))
            && (r.Err? ==> First(RunOutcomes(runs, Somes(updates), typ)) == Err(r.error))
  {
    hide *;
    ghost var start := strings.List();
    ghost var runs := WithUpdates(PropTable(start, slot, |updates|).runs, updates);
    var column := NewArray(TypeOf(slot.values));
    var offsets: seq<u32> := [0];
    var cumulative: u32 := 0;
    var end := 1;
    RunsWritten(PropTable(start, slot, |updates|).runs, updates);
    RebuildStarts(slot, updates, runs, typ, start);
    while end < |slot.offsets|
      invariant 1 <= end <= |slot.offsets|
      invariant PoolReady(strings, texts)
      invariant (strings.tags == old(strings.tags) || fresh(strings.tags))
                && (strings.slots == old(strings.slots) || fresh(strings.slots))
      invariant UpdatedUpTo(updates, runs, typ, start, strings.List(), offsets, column, end - 1)
      invariant cumulative == |Items(column)|
    {
      ghost var before := strings.List();
      RebuildReaches(slot, updates, typ, start, runs, before, offsets, column, end - 1);
      var written := RebuildRun(slot, end - 1, updates[end - 1], column, cumulative, strings, texts, start);
      if written.Err? {
        UpdateFails(updates, runs, typ, end - 1, cumulative);
        FirstRunFails(updates, runs, typ, end - 1, start, before, offsets, column);
        return Err(written.error);
      }
      UpdatedNext(updates, runs, typ, start, before, strings.List(), offsets, column, end - 1, written.value.0,
                  written.value.1);
      MeaningLength(written.value.0, strings.List(), before, column, runs[end - 1]);
      column, cumulative := written.value.0, written.value.1;
      offsets := offsets + [cumulative];
      end := end + 1;
    }
    RebuildEnds(updates, runs, typ, start, strings.List(), offsets, column, cumulative);
    return Ok(PropertySlot(offsets, column));
  }

  // ----- the update pass

  /** A slot that is well formed and holds exactly the given runs. */
  ghost predicate PropSlotIs(slot: PropertySlot, typ: PropertyType, strings: seq<Text>, t: Table<PropertyValue>) {
    PropSlotOk(slot, typ, |t.runs|, strings) && PropTable(strings, slot, |t.runs|) == t
  }

  lemma RebuiltWhole(offsets: seq<u32>, column: StorageArray, typ: PropertyType, strings: seq<Text>,
                     runs: seq<seq<PropertyValue>>)
    requires Rebuilt(offsets, column, typ, strings, runs, |runs|) && typ != NoType
    ensures PropSlotIs(PropertySlot(offsets, column), typ, strings, Table(true, runs))
    ensures TotalOf(runs) == |Items(column)|
  {
    assert runs[..|runs|] == runs;
  }

  lemma PropSlotIsLater(slot: PropertySlot, typ: PropertyType, strings: seq<Text>, more: seq<Text>,
                        t: Table<PropertyValue>)
    requires PropSlotIs(slot, typ, strings, t) && strings <= more
    ensures PropSlotIs(slot, typ, more, t)
  {
    ResolveStable(strings, more, Items(slot.values));
  }

  /** The bucket of one slot holds exactly that slot's updates. */
  ghost predicate HoldsUpdates(bucket: Option<seq<Option<Quantified>>>, updates: Updates, slot: nat, n: nat) {
    && (bucket.Some? ==> |bucket.value| == n)
    && forall v | 0 <= v < n ::
         if bucket.Some? && bucket.value[v].Some?
         then (slot, v) in updates && updates[(slot, v)] == bucket.value[v].value.Values()
         else (slot, v) !in updates
  }

  lemma {:induction false} HeldTexts(bucket: seq<Option<Quantified>>, updates: Updates, slot: nat, m: nat)
    requires HoldsUpdates(Some(bucket), updates, slot, |bucket|) && m <= |bucket|
    ensures UpdateTexts(bucket, m) == SlotUpdateTexts(updates, slot, m)
  {
    if m > 0 {
      HeldTexts(bucket, updates, slot, m - 1);
    }
  }

  lemma {:induction false} NoTexts(updates: Updates, slot: nat, m: nat)
    requires forall v | 0 <= v < m :: (slot, v) !in updates
    ensures SlotUpdateTexts(updates, slot, m) == []
  {
    if m > 0 {
      NoTexts(updates, slot, m - 1);
    }
  }

  ghost predicate SlotUpdatesFit(t: Table<PropertyValue>, updates: Updates, slot: nat, typ: PropertyType) {
    && (forall v | 0 <= v < |t.runs| && (slot, v) in updates :: t.used && AllTyped(updates[(slot, v)], typ))
    && TotalOf(Updated(t, updates, slot).runs) <= U32_MAX
  }

  lemma NotUpdated(t: Table<PropertyValue>, updates: Updates, slot: nat)
    requires forall v | 0 <= v < |t.runs| :: (slot, v) !in updates
    ensures Updated(t, updates, slot) == t
  {
    assert Updated(t, updates, slot).runs == t.runs;
  }

  /** One slot's share of the pass: its replacement, or none if it stays as it is. */
  method StageUpdate(slot: PropertySlot, bucket: Option<seq<Option<Quantified>>>, strings: StringsPool,
                     ghost texts: set<Text>, ghost typ: PropertyType, ghost t: Table<PropertyValue>,
                     ghost updates: Updates, ghost i: nat)
    returns (r: Result<Option<PropertySlot>, Error>)
    requires PoolReady(strings, texts) && PropSlotIs(slot, typ, strings.List(), t)
    requires HoldsUpdates(bucket, updates, i, |t.runs|)
    requires forall v, x | (i, v) in updates && x in TextsOf(updates[(i, v)]) :: x in texts
    modifies strings, strings.tags, strings.slots
    ensures PoolReady(strings, texts)
    ensures (strings.tags == old(strings.tags) || fresh(strings.tags))
            && (strings.slots == old(strings.slots) || fresh(strings.slots))
    ensures old(strings.List()) <= strings.List()
    ensures r.Ok? <==> SlotUpdatesFit(t, updates, i, typ)
    ensures r.Ok? ==>
              && PropSlotIs(if r.value.Some? then r.value.value else slot, typ, strings.List(), Updated(t, updates, i))
              && strings.List() == InternedAll(old(strings.List()), SlotUpdateTexts(updates, i, |t.runs|))
              && (r.value.Some? ==> r.value.value.offsets != [] && slot.offsets != [])
    ensures r.Err? ==> SlotUpdateOutcome(t, updates, i, typ) == Err(r.error)
  {
    hide StringsPool.Valid, FitsPool, Resolve;
    TotalOfRuns(slot.offsets, ResolveAll(strings.List(), Items(slot.values)), |t.runs|, |t.runs|);
    if bucket.None? {
      NotUpdated(t, updates, i);
      NoTexts(updates, i, |t.runs|);
      return Ok(None);
    }
    if slot.offsets == [] {
      if v :| 0 <= v < |bucket.value| && bucket.value[v].Some? && forall u | 0 <= u < v :: bucket.value[u].None? {
        assert (i, v) in updates && !t.used;
        FirstFailsAt(UnusedOutcomes(updates, i, |t.runs|), v);
        return Err(NodeOffsetNotFound(v));
      }
      NoneUpdated(bucket.value);
      NotUpdated(t, updates, i);
      NoTexts(updates, i, |t.runs|);
      return Ok(None);
    }
    HeldTexts(bucket.value, updates, i, |t.runs|);
    assert WithUpdates(t.runs, bucket.value) == Updated(t, updates, i).runs;
    assert Somes(bucket.value) == UpdatedNodes(updates, i, |t.runs|);
    var rebuilt :- RebuildSlot(slot, bucket.value, strings, texts, typ);
    return Ok(Some(rebuilt));
  }

  lemma {:induction false} NoneUpdated(bucket: seq<Option<Quantified>>)
    requires !exists v :: 0 <= v < |bucket| && bucket[v].Some? && forall u | 0 <= u < v :: bucket[u].None?
    ensures forall v | 0 <= v < |bucket| :: bucket[v].None?
  {
    if exists v :: 0 <= v < |bucket| && bucket[v].Some? {
      var v :| 0 <= v < |bucket| && bucket[v].Some?;
      LeastUpdated(bucket, v);
    }
  }

  lemma {:induction false} LeastUpdated(bucket: seq<Option<Quantified>>, v: nat)
    requires v < |bucket| && bucket[v].Some?
    ensures exists w :: 0 <= w < |bucket| && bucket[w].Some? && forall u | 0 <= u < w :: bucket[u].None?
  {
    if exists u :: 0 <= u < v && bucket[u].Some? {
      var u :| 0 <= u < v && bucket[u].Some?;
      LeastUpdated(bucket, u);
    } else {
      assert forall u | 0 <= u < v :: bucket[u].None?;
    }
  }

  /** Every slot holds its table, the first `n` of them with the updates in. */
  ghost predicate PropsUpTo(s: Schema, g: Graph, updates: Updates, props: seq<PropertySlot>,
                            original: seq<PropertySlot>, strings: seq<Text>, n: nat)
  {
    && |props| == |original| == |g.props|
    && n <= |props|
    && (forall i | 0 <= i < n :: PropSlotIs(props[i], PropTypeAt(s, i), strings, Updated(g.props[i], updates, i)))
    && (forall i | n <= i < |props| ::
          props[i] == original[i] && PropSlotIs(props[i], PropTypeAt(s, i), strings, g.props[i]))
  }

  lemma PropsUpToLater(s: Schema, g: Graph, updates: Updates, props: seq<PropertySlot>,
                       original: seq<PropertySlot>, strings: seq<Text>, more: seq<Text>, n: nat)
    requires PropsUpTo(s, g, updates, props, original, strings, n) && strings <= more
    ensures PropsUpTo(s, g, updates, props, original, more, n)
  {
    forall i | 0 <= i < n
      ensures PropSlotIs(props[i], PropTypeAt(s, i), more, Updated(g.props[i], updates, i))
    {
      PropSlotIsLater(props[i], PropTypeAt(s, i), strings, more, Updated(g.props[i], updates, i));
    }
    forall i | n <= i < |props|
      ensures PropSlotIs(props[i], PropTypeAt(s, i), more, g.props[i])
    {
      PropSlotIsLater(props[i], PropTypeAt(s, i), strings, more, g.props[i]);
    }
  }

  lemma PropsUpToNext(s: Schema, g: Graph, updates: Updates, props: seq<PropertySlot>, original: seq<PropertySlot>,
                      strings: seq<Text>, n: nat, slot: Option<PropertySlot>)
    requires PropsUpTo(s, g, updates, props, original, strings, n) && n < |props|
    requires PropSlotIs(if slot.Some? then slot.value else props[n], PropTypeAt(s, n), strings,
                        Updated(g.props[n], updates, n))
    ensures PropsUpTo(s, g, updates, if slot.Some? then props[n := slot.value] else props, original, strings, n + 1)
  {
  }

  /** The slot as updates leave it: replaced, and then known by its last offset, or untouched. */
  ghost predicate KnownBy(slot: PropertySlot, last: Option<u32>, mid: PropertySlot) {
    match last
    case None => slot == mid
    case Some(end) => mid.offsets != [] && end == Last(mid.offsets) && slot.offsets != []
  }

  /** Last offsets of the slots updates rebuilt; the others keep the offsets they had. */
  ghost predicate LastOffsetsMatch(lasts: seq<Option<u32>>, props: seq<PropertySlot>, original: seq<PropertySlot>) {
    && |lasts| == |props| == |original|
    && forall i | 0 <= i < |props| :: KnownBy(original[i], lasts[i], props[i])
  }

  lemma UpdatePassStarts(s: Schema, g: Graph, updates: Updates, props: seq<PropertySlot>, start: seq<Text>)
    requires PropsUpTo(s, g, updates, props, props, start, 0)
    ensures UpdatePass(s, g, updates, props, [], start, start, 0)
    ensures |props| == |g.props|
  {
  }

  /** The slot the pass comes to next is still as it was. */
  lemma UpdatePassReaches(s: Schema, g: Graph, updates: Updates, props: seq<PropertySlot>,
                          reps: seq<Replacement<PropertySlot>>, start: seq<Text>, now: seq<Text>, i: nat)
    requires UpdatePass(s, g, updates, props, reps, start, now, i) && i < |props|
    ensures |props| == |g.props| && PropSlotIs(props[i], PropTypeAt(s, i), now, g.props[i])
  {
  }

  lemma FitUpToFails(s: Schema, g: Graph, updates: Updates, i: nat)
    requires i < |g.props| && !SlotUpdatesFit(g.props[i], updates, i, PropTypeAt(s, i))
    ensures !FitUpTo(s, g, updates, |g.props|)
  {
  }

  /** Updates that fit their slot are not refused. */
  lemma UpdatesPass(t: Table<PropertyValue>, updates: Updates, slot: nat, typ: PropertyType)
    requires SlotUpdatesFit(t, updates, slot, typ)
    ensures SlotUpdateOutcome(t, updates, slot, typ).Ok?
  {
    hide TotalOf, RunOutcome;
    var runs, written := Updated(t, updates, slot).runs, UpdatedNodes(updates, slot, |t.runs|);
    assert runs[..|runs|] == runs;
    RunsPass(runs, written, typ, |runs|);
    FirstOk(RunOutcomes(runs, written, typ));
    FirstOk(UnusedOutcomes(updates, slot, |t.runs|));
  }

  /** With the slots before it dealt with, a slot that fails is what the pass stops for. */
  lemma FirstUpdateFails(s: Schema, g: Graph, updates: Updates, props: seq<PropertySlot>,
                         reps: seq<Replacement<PropertySlot>>, start: seq<Text>, now: seq<Text>, i: nat)
    requires UpdatePass(s, g, updates, props, reps, start, now, i) && i < |g.props|
    requires SlotUpdateOutcome(g.props[i], updates, i, PropTypeAt(s, i)).Err?
    ensures First(UpdateOutcomes(s, g, updates)) == SlotUpdateOutcome(g.props[i], updates, i, PropTypeAt(s, i))
  {
    hide SlotUpdateOutcome, SlotUpdatesFit, PropsUpTo, InternedAll;
    var outcomes := UpdateOutcomes(s, g, updates);
    forall j | 0 <= j < i
      ensures outcomes[j].Ok?
    {
      UpdatesPass(g.props[j], updates, j, PropTypeAt(s, j));
    }
    FirstFailsAt(outcomes, i);
  }

  lemma AllUpdatesPass(s: Schema, g: Graph, updates: Updates)
    requires FitUpTo(s, g, updates, |g.props|)
    ensures First(UpdateOutcomes(s, g, updates)).Ok?
  {
    hide SlotUpdateOutcome, SlotUpdatesFit;
    forall j | 0 <= j < |g.props|
      ensures UpdateOutcomes(s, g, updates)[j].Ok?
    {
      UpdatesPass(g.props[j], updates, j, PropTypeAt(s, j));
    }
    FirstOk(UpdateOutcomes(s, g, updates));
  }

  lemma UpdatePassEnds(s: Schema, g: Graph, updates: Updates, props: seq<PropertySlot>,
                       reps: seq<Replacement<PropertySlot>>, start: seq<Text>, now: seq<Text>)
    requires UpdatePass(s, g, updates, props, reps, start, now, |g.props|)
    ensures |props| == |g.props| && start <= now && now == InternedAll(start, UpdateTextsUpTo(g, updates, |g.props|))
    ensures PropsUpTo(s, g, updates, Replaced(props, reps), props, now, |props|)
    ensures ReplacedInUse(props, reps) && FitUpTo(s, g, updates, |g.props|)
  {
  }

  method PreparePropertyUpdates(s: Schema, props: seq<PropertySlot>, strings: StringsPool,
                                pending: seq<Option<seq<Option<Quantified>>>>, ghost g: Graph,
                                ghost updates: Updates, ghost texts: set<Text>)
    returns (r: Result<seq<Replacement<PropertySlot>>, Error>)
    requires PoolReady(strings, texts) && |pending| == |g.props| == s.PropertyStorageSize()
    requires PropsUpTo(s, g, updates, props, props, strings.List(), 0)
    requires forall i | 0 <= i < |pending| :: HoldsUpdates(pending[i], updates, i, |g.props[i].runs|)
    requires forall i, v, x | (i, v) in updates && x in TextsOf(updates[(i, v)]) :: x in texts
    modifies strings, strings.tags, strings.slots
    ensures PoolReady(strings, texts)
    ensures (strings.tags == old(strings.tags) || fresh(strings.tags))
            && (strings.slots == old(strings.slots) || fresh(strings.slots))
    ensures old(strings.List()) <= strings.List()
    ensures r.Ok? <==> FitUpTo(s, g, updates, |g.props|)
    ensures r.Ok? ==>
              && PropsUpTo(s, g, updates, Replaced(props, r.value), props, strings.List(), |props|)
              && ReplacedInUse(props, r.value)
              && strings.List() == InternedAll(old(strings.List()), UpdateTextsUpTo(g, updates, |g.props|))
    ensures Answers(r, First(UpdateOutcomes(s, g, updates)))
  {
    hide *;
    var reps := [];
    var i := 0;
    ghost var start := strings.List();
    UpdatePassStarts(s, g, updates, props, start);
    while i < s.PropertyStorageSize()
      invariant 0 <= i <= |g.props| == |props|
      invariant PoolReady(strings, texts) && start <= strings.List()
      invariant (strings.tags == old(strings.tags) || fresh(strings.tags))
                && (strings.slots == old(strings.slots) || fresh(strings.slots))
      invariant UpdatePass(s, g, updates, props, reps, start, strings.List(), i)
    {
      ghost var before := strings.List();
      UpdatePassReaches(s, g, updates, props, reps, start, before, i);
      var slot := StageUpdate(props[i], pending[i], strings, texts, PropTypeAt(s, i), g.props[i], updates, i);
      if slot.Err? {
        FitUpToFails(s, g, updates, i);
        FirstUpdateFails(s, g, updates, props, reps, start, before, i);
        AnswerIs<seq<Replacement<PropertySlot>>>(slot.error, First(UpdateOutcomes(s, g, updates)));
        return Err(slot.error);
      }
      UpdatePassNext(s, g, updates, props, reps, start, before, strings.List(), i, slot.value);
      if slot.value.Some? {
        reps := reps + [Replacement(i, slot.value.value)];
      }
      i := i + 1;
    }
    UpdatePassEnds(s, g, updates, props, reps, start, strings.List());
    AllUpdatesPass(s, g, updates);
    AnswerOk(reps, First(UpdateOutcomes(s, g, updates)));
    return Ok(reps);
  }

  /** The first `i` slots are dealt with. */
  ghost predicate UpdatePass(s: Schema, g: Graph, updates: Updates, props: seq<PropertySlot>,
                             reps: seq<Replacement<PropertySlot>>, start: seq<Text>, now: seq<Text>, i: nat)
  {
    && i <= |g.props|
    && start <= now
    && now == InternedAll(start, UpdateTextsUpTo(g, updates, i))
    && PropsUpTo(s, g, updates, Replaced(props, reps), props, now, i)
    && ReplacedInUse(props, reps)
    && FitUpTo(s, g, updates, i)
  }

  /** The updates of the first `n` slots can be written. */
  ghost predicate FitUpTo(s: Schema, g: Graph, updates: Updates, n: nat)
    requires n <= |g.props|
  {
    forall j | 0 <= j < n :: SlotUpdatesFit(g.props[j], updates, j, PropTypeAt(s, j))
  }

  lemma FitUpToNext(s: Schema, g: Graph, updates: Updates, n: nat)
    requires n < |g.props|
    ensures FitUpTo(s, g, updates, n) && SlotUpdatesFit(g.props[n], updates, n, PropTypeAt(s, n))
       <==> FitUpTo(s, g, updates, n + 1)
  {
  }

  lemma UpdatePassNext(s: Schema, g: Graph, updates: Updates, props: seq<PropertySlot>,
                       reps: seq<Replacement<PropertySlot>>, start: seq<Text>, before: seq<Text>, now: seq<Text>,
                       i: nat, slot: Option<PropertySlot>)
    requires UpdatePass(s, g, updates, props, reps, start, before, i) && i < |g.props| && before <= now
    requires SlotUpdatesFit(g.props[i], updates, i, PropTypeAt(s, i))
    requires PropSlotIs(if slot.Some? then slot.value else props[i], PropTypeAt(s, i), now,
                        Updated(g.props[i], updates, i))
    requires now == InternedAll(before, SlotUpdateTexts(updates, i, |g.props[i].runs|))
    requires slot.Some? ==> slot.value.offsets != [] && props[i].offsets != []
    ensures UpdatePass(s, g, updates, props,
                       if slot.Some? then reps + [Replacement(i, slot.value)] else reps, start, now, i + 1)
  {
    InternedAllSplits(start, UpdateTextsUpTo(g, updates, i), SlotUpdateTexts(updates, i, |g.props[i].runs|));
    FitUpToNext(s, g, updates, i);
    if slot.Some? {
      InUseNext(props, reps, Replacement(i, slot.value));
    }
    PropsUpToLater(s, g, updates, Replaced(props, reps), props, before, now, i);
    PropsUpToNext(s, g, updates, Replaced(props, reps), props, now, i, slot);
    var reps' := if slot.Some? then reps + [Replacement(i, slot.value)] else reps;
    if slot.Some? {
      ReplacedNext(props, reps, i, slot.value);
    }
    assert PropsUpTo(s, g, updates, Replaced(props, reps'), props, now, i + 1);
    assert now == InternedAll(start, UpdateTextsUpTo(g, updates, i + 1));
  }

  /** Replacements have offsets, and so did the slots they replace. */
  ghost predicate ReplacedInUse(props: seq<PropertySlot>, reps: seq<Replacement<PropertySlot>>) {
    forall j | 0 <= j < |reps| ::
      reps[j].slotIndex < |props| && reps[j].slot.offsets != [] && props[reps[j].slotIndex].offsets != []
  }

  lemma InUseNext(props: seq<PropertySlot>, reps: seq<Replacement<PropertySlot>>, rep: Replacement<PropertySlot>)
    requires ReplacedInUse(props, reps) && rep.slotIndex < |props|
    requires rep.slot.offsets != [] && props[rep.slotIndex].offsets != []
    ensures ReplacedInUse(props, reps + [rep])
  {
  }

  /** The offset each rebuilt slot now ends at, for the new nodes of the same diff to go on from. */
  method LastOffsets(props: seq<PropertySlot>, reps: seq<Replacement<PropertySlot>>) returns (lasts: seq<Option<u32>>)
    requires ReplacedInUse(props, reps)
    ensures LastOffsetsMatch(lasts, Replaced(props, reps), props)
  {
    lasts := seq(|props|, _ => None);
    var j := 0;
    while j < |reps|
      invariant 0 <= j <= |reps|
      invariant LastOffsetsMatch(lasts, Replaced(props, reps[..j]), props)
    {
      assert reps[..j + 1][..j] == reps[..j];
      var offsets := reps[j].slot.offsets;
      lasts := lasts[reps[j].slotIndex := Some(offsets[|offsets| - 1])];
      j := j + 1;
    }
    assert reps[..j] == reps;
  }
}
