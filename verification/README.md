# A verified model of flatpg's graph storage

flatpg keeps a labelled property graph in flat arrays: one slot per (node kind,
direction, edge kind) for adjacency and one per (node kind, property kind) for
properties, each an offsets array cutting parallel arrays into one run per node.
The graph changes only through diffs, which are first staged off to the side
(`prepare`) and then written (`commit`), and a separate integrity check decides
whether stored arrays are well formed.

This project models that machinery and proves it against an abstract graph in which
every slot is simply a list of runs, one per node. `dafny verify dfyconfig.toml`
checks everything.

## How it is laid out

| modules | what they hold |
|---|---|
| `Wrappers`, `Storage`, `Bits`, `ValueKeys`, `Schemas`, `Csr` | results, scalars, typed columns, checked offsets, ordering keys, slot layout, offsets that cut an array |
| `Probing`, `StringsPool` | the string interner: a class over arrays, with its probe invariant |
| `Graphs`, `Diffs`, `Outcomes` | the abstract graph, when it is coherent, and what a diff means: `Classify`, `Accepts`, `ApplyDiff`, and the first error it is refused with, `StageOutcome` |
| `FlatGraphs` | the stored form, `WellFormed`, its `Meaning` as an abstract graph, and `Sound` |
| `Classifying`, `Keeping`, `EdgeRemovals` | sorting changes into buckets, the reverse-half search, compaction |
| `Inserting`, `EdgeInserts`, `NewEdges` | counting sort of new halves, batch placement, the single-pass merge |
| `NewNodes`, `PropertySlots`, `PropertyAppends` | new ids, property rebuilds, appends with their offset baselines |
| `Accepting`, `Staging`, `Committing` | `stage`, `prepare`, `commit`, `Drop`, `apply`, over classes `FlatGraph` and `StagedDiff` |
| `EdgeBags`, `Pairing`, `Preserving`, `Runs` | edges as multisets, why removals and insertions keep Out and In paired, integrity over any sequence of diffs |
| `NodeIndexes`, `Sorting`, `HalfPairing`, `SlotChecks`, `Integrity`, `Soundness`, `ParallelChecks` | the integrity check, sequential and parallel |
| `Reading` | queries: adjacency, counts, properties, tombstone filtering |
| `NodeLaws`, `EdgeLaws`, `AcceptLaws`, `RefusalLaws`, `TextLaws` | what a diff does, is refused for and interns, told from the diff's own entries |
| `IntegrityLaws`, `RoundTrips` | integrity told from the stored arrays; removing what a query yields, reading what a diff wrote |

Loops and in-place updates of the source are methods here, each proved against a
function of the abstract graph; the theorems are lemmas about those functions.

## Main results

* **Refinement.** `Committing.Apply` succeeds exactly on the diffs `Diffs.Accepts`
  describes, and then the stored arrays stand for `Diffs.ApplyDiff`: every adjacency list
  is the old list minus its removed positions followed by the surviving new halves in
  the order they were added; every property run is the last update, the old run, or the
  new node's values; new ids continue their kind's numbering; tombstones are the old
  ones and the in-range removals.
* **What a diff means to its author.** The same graph is described a second time from the
  diff's entries alone. `EdgeLaws.EdgesOfNode` gives every adjacency list entry by entry:
  which old positions are left and which new edge, by its index in the diff, put each new
  half there; `EdgeLaws.EdgeDecided` says exactly which new edges are dropped and
  `EdgeLaws.DroppedExactly` which halves go. `NodeLaws` does so for deletion flags, new
  nodes and property runs, `AcceptLaws.AcceptedExactly` for acceptance and
  `TextLaws.DiffTextsExactly` for interned strings.
* **Round trips.** `RoundTrips.ReadThenRemove`: every edge a query lists on a sound graph
  can be removed by its handle, and then exactly that entry and its mirror image are gone.
  `RoundTrips.NewEdgeIsRead`, `UpdateIsRead` and `RemovedNodesReadDeleted`: queries on the
  committed storage give back what the diff wrote.
* **Errors.** A diff that is refused is refused with the error `Outcomes.StageOutcome`
  names: the first change that does not classify, else the first failure in the order of
  passes, slots, nodes and values. `RefusalLaws.RefusalIsReal`: with fresh handles the error
  always names something that is wrong with the diff.
* **Transactions.** When `Prepare` fails, or a staged diff is dropped, the stored graph
  is what it was, strings and handles included.
* **Integrity over histories.** `Preserving.DiffKeepsCoherent` says exactly when an
  accepted diff with fresh handles preserves integrity; `Runs.RunsKeepCoherent` and
  `Runs.HistoriesStaySound` carry it over every sequence of diffs, from
  `Runs.EmptyIsSound` or any sound graph, and `Runs.ApplyToSound` states it on the method.
* **Removal.** On a paired graph a removal through a fresh handle always finds the half
  at the other end with the same value (`Pairing.ClaimKeepsPairing`), whatever was
  claimed before it in the same diff, so it never fails the diff
  (`Pairing.FreshChangesClassify`).
* **The integrity check.** `Soundness.CheckIntegrity` passes exactly the sound graphs,
  with Out and In equal as multisets of raw ids and stored values although the code
  compares dense numbers and 64-bit keys; `ParallelChecks.CheckSlotsInParallel` gives
  the same answer, down to the error, for every shape of reduction.
  `IntegrityLaws.SoundExactly` spells out what passes over the stored arrays, and
  `IntegrityLaws.FailedPairingIsReal` that a reported pair of nodes really disagrees.
* **The interner.** For any hash function the pool equals a list of distinct strings.
* **Reading.** Queries drop exactly the edges to flagged or missing nodes
  (`Reading.FilteredEdgesRead`), and on a sound graph the live view is symmetric
  (`Reading.LiveViewIsSymmetric`).

## What is asked of callers

* A removal that is reached names, as its own end, a node there is; the original panics
  otherwise while indexing its bucket.
* For the integrity theorems, removed edge handles are fresh: the half at the handle's
  position leads to the handle's other end. `graph/builder/mod.rs` documents that
  handles kept across diffs break this.
* Diffs name node, edge and property kinds of the schema where the source's types force
  them to; ids supplied by a user may name anything and are resolved as the code does.
* A new node named by a new edge whose two ends resolve has an id within 32 bits
  (`Diffs.EndsFit`); the original asserts this when it makes the id raw, and numbers
  nodes freely before that.
* The pool has room for every string at stake; the original panics otherwise.
* The integrity check is about pools of distinct strings, which is all the interner
  ever builds (`StringsPool.Valid`).

That surviving node and enum payloads resolve, and that the node total fits 32 bits, is
not assumed: `Preserving.DiffKeepsCoherent` and `Runs.CommitKeepsSound` prove integrity
equivalent to it.

## Where the code and its documentation differ

A comment in the pairing check says that the two halves are then both present and
disagree only about the value. The code reports a value mismatch whenever the halves
at the first difference share both ends, which also happens when one side merely has
one parallel edge more. The model follows the code: `HalfPairing.PairingDecides` says exactly when
each error is reported and `HalfPairing.MismatchWithoutEqualCounts` is the example.

## Model

| member | source | states |
|---|---|---|
| `Runs.RunsKeepCoherent` | graph-schema/src/graph/builder/prepare.rs:49-215 | after every sequence of proper diffs from a coherent graph the graph is coherent again |
| `Runs.EmptyIsSound` | graph-schema/src/graph/mod.rs:28-35 | the empty graph passes integrity, so runs can start from it |
| `Runs.CommitKeepsSound` | graph-schema/src/graph/builder/staged.rs:105-173 | stored graph: after prepare and commit the storage is sound if and only if the node total fits 32 bits and the surviving NodeId and Enum values resolve |
| `Runs.ApplyToSound` | graph-schema/src/graph/builder/mod.rs:191-195 | applying to a sound stored graph with fresh handles: an error leaves it sound and identical; a success is sound if and only if ids fit and surviving values resolve |
| `Runs.HistoriesStaySound` | graph-schema/src/graph/builder/staged.rs:105-173 | every stored graph of a history of commits that starts sound passes the integrity check |
| `Preserving.DiffKeepsCoherent` | graph-schema/src/graph/builder/prepare.rs:49-215 | an accepted diff with fresh handles keeps a coherent graph coherent if and only if ids still fit and surviving values resolve |
| `Preserving.PairedAfter` | graph-schema/src/graph/builder/prepare.rs:49-215 | Out and In halves are still equal multisets of edges, kind by kind, after any accepted diff with fresh handles |
| `Preserving.InsertsBoth` | graph-schema/src/graph/builder/prepare.rs:149-204 | both directions gain exactly the live new edges, and empty runs for new nodes add nothing |
| `Preserving.OneMoreInserted` | graph-schema/src/graph/builder/prepare.rs:405-435 | one more live edge lengthens one run at its source and one at its target by the other end and the value, and nothing else |
| `Preserving.EdgesContentAfter` | graph-schema/src/graph/builder/prepare.rs:149-204 | every half after the diff names existing nodes and carries a sound value exactly when the live edges do |
| `Preserving.PropsContentAfter` | graph-schema/src/graph/builder/prepare.rs:53-128 | every property value after the diff is sound exactly when the surviving updates and the new nodes' values are |
| `Committing.Apply` | graph-schema/src/graph/builder/mod.rs:191-195 | applies exactly the accepted diffs, yields the specified graph, ids and strings; on an error answers the specified first error and leaves the stored graph identical |
| `Committing.Prepare` | graph-schema/src/graph/builder/prepare.rs:29-47 | succeeds exactly on accepted diffs; otherwise answers the specified first error and the whole stored graph, strings included, is as before |
| `Committing.StagedDiff.Commit` | graph-schema/src/graph/builder/staged.rs:105-173 | the committed storage is well formed and stands for the specified outcome; the ids handed out are those of the new nodes |
| `Committing.StagedDiff.Drop` | graph-schema/src/graph/builder/staged.rs:86-92 | dropping an uncommitted staged diff restores the stored graph exactly; after a commit it does nothing |
| `Committing.CommittedMeans` | graph-schema/src/graph/builder/staged.rs:105-173 | the staged writes turn the slots they were measured against into the abstract outcome |
| `Committing.StagedSteps` | graph-schema/src/graph/builder/staged.rs:105-173 | every write of a commit meets the state it was staged for, so no `expect` of commit can fail |
| `Committing.FlatGraph.constructor` | graph-schema/src/graph/mod.rs:28-35 | a new graph is well formed and empty |
| `Committing.FlatGraph.SetTombstones` | graph-schema/src/graph/builder/staged.rs:118-122 | sets exactly the listed deletion flags |
| `Committing.FlatGraph.ReplaceProps` | graph-schema/src/graph/builder/staged.rs:124-128 | writes the property replacements in order |
| `Committing.FlatGraph.ReplaceEdges` | graph-schema/src/graph/builder/staged.rs:130-135 | writes the edge replacements in order |
| `Committing.FlatGraph.AppendMetas` | graph-schema/src/graph/builder/staged.rs:137-143 | appends the new metadata kind by kind |
| `Committing.FlatGraph.AppendProps` | graph-schema/src/graph/builder/staged.rs:145-155 | appends batches and offset tails; no batch is refused for its type |
| `Committing.FlatGraph.InsertEdges` | graph-schema/src/graph/builder/staged.rs:157-170 | merges every staged insert into its own slot and leaves the other slots alone |
| `Committing.NodesWritten` | graph-schema/src/graph/builder/staged.rs:118-143 | setting flags and appending metadata gives old tombstones plus the in-range removals, and live new nodes |
| `Committing.TombstonesInRange` | graph-schema/src/graph/builder/prepare.rs:239-247 | only nodes there are get tombstones |
| `RoundTrips.ReadThenRemove` | graph-schema/src/edge.rs:120-166 | any edge a query lists on a sound graph can be removed by its handle: the list it was read from loses just that position, the list at its other end one half that leads back with the same value, every other list stays |
| `RoundTrips.ReadHandleIsFresh` | graph-schema/src/edge.rs:61-66 | the handle of a listed edge is fresh and names the node, direction and position the query listed it at |
| `RoundTrips.OneRemovalClaims` | graph-schema/src/graph/builder/prepare.rs:261-322 | a single removal claims the named position of the named node and a half at the other end that leads back with the same value, and nothing else |
| `RoundTrips.RemovalsAreAccepted` | graph-schema/src/graph/builder/prepare.rs:228-327 | a diff that only removes, with fresh handles and known node kinds, never fails |
| `RoundTrips.RemovedNodesReadDeleted` | graph-schema/src/graph/builder/prepare.rs:239-247 | after a commit a node reads as deleted exactly if it was or a change removes it, or if it is neither an old nor a new node |
| `RoundTrips.UpdateIsRead` | graph-schema/src/graph/builder/prepare.rs:248-260 | after a commit reading a property gives the values of its last update in the diff |
| `RoundTrips.NewEdgeIsRead` | graph-schema/src/graph/builder/prepare.rs:149-204 | after a commit a new edge whose ends stay is listed live at both, with its ends and its value |
| `NodeLaws.RemovedNodesAreDeleted` | graph-schema/src/graph/builder/prepare.rs:239-247 | over the changes: an old node is deleted afterwards exactly if it was or some change removes it |
| `NodeLaws.LastUpdateWins` | graph-schema/src/graph/builder/prepare.rs:248-260 | over the changes: an update no later change repeats is the node's whole run afterwards, one value or many |
| `NodeLaws.UntouchedProperty` | graph-schema/src/graph/builder/slots.rs:84-141 | a property no change updates keeps its run |
| `NodeLaws.NewNodesAreThere` | graph-schema/src/graph/builder/prepare.rs:100-119 | every new node is there, live, behind the old nodes of its kind, with exactly the properties it was given |
| `NodeLaws.NodesAreOldOrNew` | graph-schema/src/graph/builder/prepare.rs:100-119 | a kind's nodes afterwards are its old ones and the ids of its new ones, without gaps |
| `NodeLaws.NewIdsRise` | graph-schema/src/graph/builder/prepare.rs:100-112 | of two new nodes of a kind the later one has the greater id |
| `NodeLaws.SlotUsedAfter` | graph-schema/src/graph/builder/slots.rs:220-284 | a property slot is in use afterwards exactly if it was or some new node of its kind has the property |
| `EdgeLaws.EdgesOfNode` | graph-schema/src/graph/builder/prepare.rs:149-204 | every list afterwards, entry by entry: the old entries at the positions not dropped, in order, then one half per new edge that attaches to the node with both ends staying, in the order added, leading to the other end with the value |
| `EdgeLaws.DroppedExactly` | graph-schema/src/graph/builder/prepare.rs:261-322 | with fresh handles exactly the positions removals name, or whose edge they name from the far end, can be dropped; named ones are; and each dropped half has a dropped mirror image at the node it leads to |
| `EdgeLaws.NewEdgeAtBothEnds` | graph-schema/src/graph/builder/prepare.rs:405-435 | a new edge whose ends stay is in its source's Out list under the target's id and in its target's In list under the source's, a new node standing for its own id |
| `EdgeLaws.EdgeDecided` | graph-schema/src/graph/builder/prepare.rs:151-186 | a new edge is dropped exactly when an end is out of range, was deleted, or is named by a removal of the same diff; otherwise it joins the nodes its ends name |
| `EdgeLaws.EndDecided` | graph-schema/src/graph/builder/prepare.rs:142-147 | the reference to a new node is its entry among the new ids, any other reference the node itself; it stays unless deleted, removed or not there |
| `EdgeLaws.StayingEndIsLive` | graph-schema/src/graph/builder/prepare.rs:163-186 | the ends of an edge that is kept are there and not deleted after the diff |
| `EdgeLaws.NamedIsClaimed` | graph-schema/src/graph/builder/prepare.rs:261-285 | the position a removal names is claimed whether or not its handle is fresh |
| `EdgeLaws.ClaimsMirrored` | graph-schema/src/graph/builder/prepare.rs:289-321 | with fresh handles every claimed half has a claimed mirror image at the other end |
| `EdgeLaws.KeepPicks` | graph-schema/src/graph/builder/slots.rs:153-215 | what is kept of a run is what stands at the positions not removed, in order |
| `EdgeLaws.EdgeSlotUsedAfter` | graph-schema/src/graph/builder/slots.rs:286-405 | an edge slot is in use afterwards exactly if it was or some new edge attaches to a node of its kind |
| `AcceptLaws.AcceptedExactly` | graph-schema/src/graph/builder/prepare.rs:49-215 | which diffs are accepted, over the diff: references resolve, last updates go to slots in use with declared types, new properties and surviving edges have declared types, sizes fit; fresh removals never matter |
| `AcceptLaws.FirstBadReference` | graph-schema/src/graph/builder/prepare.rs:237-260 | with fresh handles the first change whose node does not resolve decides the error, and which one |
| `RefusalLaws.RefusalIsReal` | graph-schema/src/graph/builder/prepare.rs:49-215 | with fresh handles a diff is refused only for something wrong with it: a node kind or node it names that is not there, an update where nothing was written, a surviving value not of the declared type, or offsets past 32 bits |
| `RefusalLaws.UpdatesRefused` | graph-schema/src/graph/builder/slots.rs:84-141 | the update pass fails only at a last update: into an unused slot, with a value of another type, or past 32 bits |
| `RefusalLaws.AppendsRefused` | graph-schema/src/graph/builder/slots.rs:220-284 | the append pass fails only at a new node's value of another type or past 32 bits |
| `RefusalLaws.InsertsRefused` | graph-schema/src/graph/builder/slots.rs:286-405 | the insert pass fails only at a new edge that stays, its value missing, unwanted or of another type, or past 32 bits |
| `RefusalLaws.RemovalsPass` | graph-schema/src/graph/builder/slots.rs:158-174 | positions claimed within their runs never fail the removal pass |
| `EdgeLaws.NoReverseLeft` | graph-schema/src/graph/builder/prepare.rs:354-379 | whatever the handle, a missing reverse is answered only where every half at the other end that leads back is already claimed |
| `TextLaws.DiffTextsExactly` | graph-schema/src/graph/builder/prepare.rs:53-161 | the strings a diff interns are those of last updates, of new nodes' properties and of new edges, dropped ones included; overwritten updates bring in none |
| `IntegrityLaws.SoundExactly` | graph-schema/src/graph/integrity.rs:124-151 | what passes the check, over the stored arrays: sizes, node total, every slot's offsets, neighbours and values intact, and every edge in its source's Out list as often as in its target's In list, value and all |
| `IntegrityLaws.PairedIsAgreement` | graph-schema/src/graph/integrity.rs:442-462 | Out and In halves pair up exactly when both ends of every edge agree on how often it is listed |
| `IntegrityLaws.FailedPairingIsReal` | graph-schema/src/graph/integrity.rs:153-181 | where all slots pass, the error of the check names two nodes whose lists really differ |
| `IntegrityLaws.PairingErrorIsJustified` | graph-schema/src/graph/integrity.rs:471-516 | a missing reverse is reported at the node whose list has more; a value mismatch between two nodes that both record such an edge, but not equally often for some value |
| `Staging.Stage` | graph-schema/src/graph/builder/prepare.rs:49-215 | succeeds exactly on accepted diffs and otherwise answers the first error in the order of changes, passes, slots, nodes and values; its parts lead to the specified graph, and it interns exactly the diff's strings in order |
| `Staging.StageSlots` | graph-schema/src/graph/builder/prepare.rs:53-214 | the slot passes after classification: the same, pass by pass |
| `Staging.StageReplacements` | graph-schema/src/graph/builder/prepare.rs:53-58 | the two rebuilding passes in order: updated slots read as specified, then slots without the claimed halves |
| `Staging.StageInserts` | graph-schema/src/graph/builder/prepare.rs:149-204 | new edges bucketed and staged: writing the inserts yields the specified adjacency for every node, or the first error is answered |
| `Staging.MidOutcomesMean` | graph-schema/src/graph/builder/slots.rs:286-405 | what the insert pass answers slot by slot depends only on what slots and buckets mean, not on how they are stored |
| `Staging.EdgeBaselines` | graph-schema/src/graph/builder/prepare.rs:68-72 | inserts are measured against the offsets the replacements leave |
| `Staging.InsertsLead` | graph-schema/src/graph/builder/prepare.rs:198-204 | whatever is staged for an edge slot, writing it yields old run minus removals plus new halves for every node |
| `Staging.UpdateTextsCovered` | graph-schema/src/graph/builder/prepare.rs:248-260 | every string a surviving update brings in is one the diff mentions |
| `Accepting.AcceptsSplits` | graph-schema/src/graph/builder/prepare.rs:49-215 | the slot-by-slot checks of staging together accept exactly the diffs the specification accepts |
| `Accepting.UpdatesAccepted` | graph-schema/src/graph/builder/slots.rs:84-141 | the update pass accepts exactly: updated slots in use, values of the declared type, updated runs within 32 bits in all |
| `Accepting.NewValuesAccepted` | graph-schema/src/graph/builder/slots.rs:220-284 | the append pass accepts exactly: new values of the declared type, offsets within 32 bits |
| `Accepting.EdgesAccepted` | graph-schema/src/graph/builder/slots.rs:286-405 | the insert pass accepts exactly: a value if and only if the kind declares one, of its type, offsets within 32 bits |
| `Accepting.TotalInserted` | graph-schema/src/graph/builder/slots.rs:383-392 | inserting makes the runs longer by exactly the number of new halves |
| `Classifying.ClassifyChanges` | graph-schema/src/graph/builder/prepare.rs:228-327 | buckets the changes as the specification classifies them, or fails with the same first error |
| `Classifying.ClassifyChange` | graph-schema/src/graph/builder/prepare.rs:238-323 | one change bucketed, or the same error |
| `Classifying.ClaimRemoval` | graph-schema/src/graph/builder/prepare.rs:261-322 | claims the handle's own half, collapses a repeated removal, then claims the reverse half, with the same errors |
| `Classifying.ClaimReverseHalf` | graph-schema/src/graph/builder/prepare.rs:289-321 | claims the half leading back, by value if there is one |
| `Classifying.ReverseAgrees` | graph-schema/src/graph/builder/prepare.rs:332-379 | the search over flat arrays and value keys is the search over runs and values |
| `Classifying.CandidatesAgree` | graph-schema/src/graph/builder/prepare.rs:354-367 | comparing keys picks the very half that comparing values would |
| `Classifying.WantedAgrees` | graph-schema/src/graph/builder/prepare.rs:387-403 | the wanted key is the key of the value the claimed half carries, and absent exactly when there is none |
| `Classifying.ClaimRecorded` | graph-schema/src/graph/builder/slots.rs:16-36 | recording one claim keeps the buckets duplicate-free and equal to the claims |
| `Classifying.UpdateRecorded` | graph-schema/src/graph/builder/prepare.rs:248-260 | recording an update replaces the one recorded before it and leaves the other buckets alone |
| `Pairing.ClaimKeepsPairing` | graph-schema/src/graph/builder/prepare.rs:261-322 | on a paired graph a fresh removal never fails, claims an equal-valued half at the other end, and leaves the unclaimed halves paired |
| `Pairing.ClaimFindsBoth` | graph-schema/src/graph/builder/prepare.rs:280-321 | a removal of an unclaimed half claims it and, at the other end, an unclaimed half recording the same edge |
| `Pairing.ChangesKeepPairing` | graph-schema/src/graph/builder/prepare.rs:237-324 | across the whole change loop the unclaimed Out and In halves stay equal multisets and no position is claimed twice |
| `Pairing.FreshChangesClassify` | graph-schema/src/graph/builder/prepare.rs:228-327 | with fresh handles no removal of an edge ever fails a diff: changes classify if and only if their node references resolve |
| `Pairing.PartnerThere` | graph-schema/src/graph/builder/prepare.rs:332-379 | the claimed half always has an unclaimed partner with the same value at the other end |
| `Pairing.SearchFindsPartner` | graph-schema/src/graph/builder/prepare.rs:354-378 | the reverse search settles on a half recording the very same edge, never on a fallback with another value |
| `Pairing.RemovedFromEitherEnd` | graph-schema/src/graph/builder/prepare.rs:270-287 | removing the same edge again, from either end, claims nothing more |
| `Pairing.ClaimDrops` | graph-schema/src/graph/builder/prepare.rs:280-321 | a claim takes exactly one edge out of one side and leaves every other side alone |
| `EdgeRemovals.PrepareEdgeRemovals` | graph-schema/src/graph/builder/slots.rs:143-218 | succeeds exactly when every claim is a position of its run, and otherwise answers the first position that is not; each replaced slot is well formed and holds its runs without the claimed positions |
| `EdgeRemovals.CompactSlot` | graph-schema/src/graph/builder/slots.rs:153-215 | one slot: every node's new run is its old run without its listed positions |
| `EdgeRemovals.CollectRemovals` | graph-schema/src/graph/builder/slots.rs:158-174 | collects absolute positions, or fails at the first position past its run |
| `EdgeRemovals.FilterPass` | graph-schema/src/graph/builder/slots.rs:181-197 | neighbours and values lose exactly the sorted positions and stay aligned |
| `EdgeRemovals.ShiftOffsets` | graph-schema/src/graph/builder/slots.rs:203-208 | every offset drops by what the nodes before it lose; the subtraction fails exactly if some offset is smaller |
| `Keeping.CompactionAgrees` | graph-schema/src/graph/builder/slots.rs:178-215 | the filter pass and the independent offset pass agree: shifted offsets cut the filtered array into the kept runs, without gaps |
| `Keeping.ShiftedRun` | graph-schema/src/graph/builder/slots.rs:178-215 | one node: the shifted offsets cut out its kept entries, and never fall |
| `Keeping.KeepLength` | graph-schema/src/graph/builder/slots.rs:199-208 | duplicate-free positions each remove one entry, so offsets never underflow |
| `Keeping.KeepAligned` | graph-schema/src/graph/builder/slots.rs:188-197 | deletion commutes with reading neighbours and values side by side |
| `EdgeInserts.PrepareNewEdges` | graph-schema/src/graph/builder/slots.rs:286-405 | accepts exactly the buckets that fit and otherwise answers the first error; stages, per slot, an insert that yields old runs followed by new halves |
| `EdgeInserts.StageInsert` | graph-schema/src/graph/builder/slots.rs:294-402 | one slot's share, from offsets that already reflect removals |
| `EdgeInserts.StageHalves` | graph-schema/src/graph/builder/slots.rs:331-402 | sorted, laid out and placed halves; answers the first misfit in sorted order, or the first offset past 32 bits |
| `EdgeInserts.StoredOutcomesMean` | graph-schema/src/graph/builder/slots.rs:358-381 | the first misfit met in sorted order is the first among the halves taken node by node in the order they were added |
| `EdgeInserts.PlaceOutcomesMean` | graph-schema/src/graph/builder/slots.rs:383-392 | the offset checks made with the cursors are checks of old totals plus the halves of the nodes so far |
| `EdgeInserts.SortedByOwner` | graph-schema/src/graph/builder/slots.rs:340-356 | up to where a node starts, the sorted halves are those of the nodes before it, in order |
| `EdgeInserts.OrderByOwner` | graph-schema/src/graph/builder/slots.rs:340-356 | histogram, prefix sums and cursors are a stable counting sort by owner |
| `EdgeInserts.PrefixSums` | graph-schema/src/graph/builder/slots.rs:340-349 | each histogram entry becomes the place of its node's first entry |
| `EdgeInserts.Gather` | graph-schema/src/graph/builder/slots.rs:358-381 | lays the halves out in sorted order; an error exactly if a value is missing, unwanted or of the wrong type |
| `EdgeInserts.PlaceBatches` | graph-schema/src/graph/builder/slots.rs:383-392 | batches are placed at old offset plus entries inserted before, and offsets grow by the entries so far |
| `EdgeInserts.OrderedCuts` | graph-schema/src/graph/builder/slots.rs:340-392 | the cursors cut the sorted entries into each node's entries, in order |
| `EdgeInserts.EdgeHalfBuckets.Push` | graph-schema/src/graph/builder/slots.rs:55-62 | appends a half and keeps the histogram of its bucket |
| `EdgeInserts.MergeEdgeBatches` | graph-schema/src/graph/builder/staged.rs:180-233 | the single pass computes the batch-by-batch merge of both arrays, failing exactly if that merge does |
| `EdgeInserts.MergeBatch` | graph-schema/src/graph/builder/staged.rs:206-224 | one batch: old stretch up to its place, then the batch, in both arrays |
| `EdgeInserts.SplicedTable` | graph-schema/src/graph/builder/staged.rs:157-170 | writing a staged insert leaves every node its old run followed by its new halves, well formed |
| `EdgeInserts.StagedReady` | graph-schema/src/graph/builder/staged.rs:159-167 | a staged insert always merges: its batches never lie behind what is copied nor past the arrays |
| `EdgeInserts.NothingInserted` | graph-schema/src/graph/builder/slots.rs:310-329 | a slot that only gains empty runs keeps every run |
| `EdgeInserts.ResizedRuns` | graph-schema/src/graph/builder/slots.rs:305-318 | fresh or lengthened offsets leave every run as it was |
| `Inserting.MergesInterleaved` | graph-schema/src/graph/builder/staged.rs:204-226 | merging the batches interleaves old and new stretches node by node |
| `Inserting.InterleavedRun` | graph-schema/src/graph/builder/staged.rs:180-233 | in the merged array every node's run is its old run followed by its new entries |
| `Inserting.SummedCuts` | graph-schema/src/graph/builder/slots.rs:383-392 | old and new offsets added up cut the merged array exactly |
| `NewNodes.StageNewNodes` | graph-schema/src/graph/builder/prepare.rs:90-119 | fresh metadata per kind, ids in order, and each slot's bucket holding exactly what its kind's new nodes carry |
| `NewNodes.CountNewNodes` | graph-schema/src/graph/builder/prepare.rs:82-88 | the number of new nodes of each kind |
| `NewNodes.BucketValues` | graph-schema/src/graph/builder/prepare.rs:114-118 | one node's properties are recorded whatever order they come in |
| `NewNodes.RemappedAt` | graph-schema/src/graph/builder/prepare.rs:100-112 | the k-th new node of a kind gets sequence number old count plus k |
| `NewEdges.StageNewEdges` | graph-schema/src/graph/builder/prepare.rs:149-196 | buckets exactly the halves of the edges whose ends exist and stay, and interns every new edge's string, dropped edges included |
| `NewEdges.ResolveEdge` | graph-schema/src/graph/builder/prepare.rs:142-180 | an edge survives exactly if both ends resolve, exist and are neither deleted nor removed by this diff |
| `NewEdges.EdgeDropped` | graph-schema/src/graph/builder/prepare.rs:151-158 | a dropped edge still interns its string and adds no half |
| `NewEdges.PushEdge` | graph-schema/src/graph/builder/prepare.rs:181-195 | pushes one Out half at the source and one In half at the target |
| `NewEdges.OneMoreEdge` | graph-schema/src/graph/builder/prepare.rs:405-435 | one live edge is one Out half and one In half, in two different slots |
| `PropertySlots.PreparePropertyUpdates` | graph-schema/src/graph/builder/slots.rs:84-141 | accepts exactly the updates that fit and otherwise answers the first error; replaced slots read as the last update or the old run, and strings are interned in order |
| `PropertySlots.FirstUpdateFails` | graph-schema/src/graph/builder/slots.rs:90-138 | with the slots before it dealt with, the slot that fails decides the error |
| `PropertySlots.StageUpdate` | graph-schema/src/graph/builder/slots.rs:90-138 | one slot: updating a slot without offsets is an error, otherwise it is rebuilt |
| `PropertySlots.RebuildSlot` | graph-schema/src/graph/builder/slots.rs:104-138 | the rebuilt slot holds every node's update or old run |
| `PropertySlots.RebuildRun` | graph-schema/src/graph/builder/slots.rs:111-129 | one node's run rewritten from its update or copied |
| `PropertySlots.FirstRunFails` | graph-schema/src/graph/builder/slots.rs:110-132 | with the runs before it written, the run that fails decides the error of its slot |
| `PropertySlots.AppendPropertyBatch` | graph-schema/src/graph/builder/slots.rs:72-82 | appends values while interning, failing exactly on a wrong type or 32-bit overflow |
| `PropertySlots.ToStoredProperty` | graph-schema/src/graph/builder/convert.rs:3-19 | the stored value reads back as the original and only strings touch the pool |
| `PropertySlots.LastOffsets` | graph-schema/src/graph/builder/prepare.rs:64-67 | the last offset of each rebuilt slot, and none for the others |
| `PropertyAppends.PrepareNewNodeProperties` | graph-schema/src/graph/builder/slots.rs:220-284 | accepts exactly the values that fit and otherwise answers the first error; after the appends every slot holds its table for old and new nodes |
| `PropertyAppends.StageAppend` | graph-schema/src/graph/builder/slots.rs:230-281 | one slot: continues from the replacement's last offset, or backfills a slot that was never used |
| `PropertyAppends.StageBatch` | graph-schema/src/graph/builder/slots.rs:269-281 | values and offsets of all new nodes, starting behind the slot's own |
| `PropertyAppends.FirstAppendFails` | graph-schema/src/graph/builder/slots.rs:269-275 | with the runs before it staged, the new node whose values fail decides the error of its slot |
| `PropertyAppends.UnmentionedSlot` | graph-schema/src/graph/builder/slots.rs:239-249 | a slot no new node mentions gains empty runs, or stays unused |
| `PropertyAppends.AppendStarts` | graph-schema/src/graph/builder/slots.rs:254-267 | zero offsets of length old count plus one stand for the empty runs of all old nodes |
| `PropertyAppends.AppendsKeepTypes` | graph-schema/src/graph/builder/staged.rs:145-155 | appending never changes a slot's type, so a staged batch is never refused |
| `StringsPool.StringsPool.Intern` | graph-schema/src/strings_pool.rs:119-149 | returns the index of an equal string or appends, for any hash function; earlier handles stay |
| `StringsPool.StringsPool.Find` | graph-schema/src/strings_pool.rs:195-216 | a hit is the index of an equal string, a miss means the pool does not hold it |
| `StringsPool.StringsPool.ProbeFor` | graph-schema/src/strings_pool.rs:195-216 | the probe loop ends within the distance to a free slot and compares every entry on the way |
| `StringsPool.StringsPool.Get` | graph-schema/src/strings_pool.rs:153-157 | resolves exactly the handles below the number of strings, each to its own text |
| `StringsPool.StringsPool.Truncate` | graph-schema/src/strings_pool.rs:170-179 | keeps exactly the first strings, and the lookup table finds them |
| `StringsPool.StringsPool.RebuildLookup` | graph-schema/src/strings_pool.rs:218-227 | re-enters every string into a fresh table |
| `StringsPool.StringsPool.InsertSlot` | graph-schema/src/strings_pool.rs:50-58 | probes to a free slot and keeps the probe invariant |
| `StringsPool.StringsPool.Append` | graph-schema/src/strings_pool.rs:125-138 | writes one more distinct string behind the others |
| `StringsPool.StringsPool.IndexLast` | graph-schema/src/strings_pool.rs:140-146 | enters the newest string, growing the table before it is half full |
| `StringsPool.StringsPool.constructor` | graph-schema/src/strings_pool.rs:102-110 | a new pool is empty and consistent |
| `StringsPool.InternedKeepsHandles` | graph-schema/src/strings_pool.rs:119-149 | any sequence of interns keeps strings distinct, keeps every handle, and holds exactly the strings interned |
| `StringsPool.AppendsEntry` | graph-schema/src/strings_pool.rs:135-138 | ranges stay contiguous over the buffer, so every slice is in bounds |
| `StringsPool.CutsEntries` | graph-schema/src/strings_pool.rs:170-179 | cutting the buffer at an entry keeps exactly the entries before it |
| `StringsPool.MissPassesAll` | graph-schema/src/strings_pool.rs:195-216 | a free slot is reached only after every entry with that hash |
| `StringsPool.TableInsert` | graph-schema/src/strings_pool.rs:50-58 | filling the first free slot of the probe keeps the table invariant |
| `StringsPool.RoomFor` | graph-schema/src/strings_pool.rs:125-135 | a pool within a set of strings that fits has room for any other member |
| `Probing.FreeSlot` | graph-schema/src/strings_pool.rs:195-216 | a table under half full has a free slot |
| `Probing.ProbeReaches` | graph-schema/src/strings_pool.rs:50-58 | linear probing reaches every slot, so it reaches a free one |
| `Probing.MaskProbes` | graph-schema/src/strings_pool.rs:50-58 | masking with a power of two minus one is reduction modulo the table size |
| `Probing.TagOf` | graph-schema/src/strings_pool.rs:46-48 | tags are never zero, the mark of a free slot |
| `ValueKeys.KeysOrderValues` | graph-schema/src/storage.rs:60-103 | within one type keys compare as the values do, and only equal values share a key |
| `ValueKeys.DoublesOrdered` | graph-schema/src/storage.rs:95-98 | double keys follow totalOrder of section 5.10 of IEEE 754-2008, bit pattern by bit pattern |
| `ValueKeys.FloatsOrdered` | graph-schema/src/storage.rs:100-103 | the same for single precision at its own width |
| `ValueKeys.MaskedKeyIs` | graph-schema/src/storage.rs:60-103 | the masks, arithmetic shifts, exclusive-ors and ors of the computation give, for every stored value, the key the order is stated for |
| `ValueKeys.MaskedFloat64Is` | graph-schema/src/storage.rs:95-98 | inverting a negative pattern and flipping the sign of a positive one is one exclusive-or with the shifted sign |
| `ValueKeys.MaskedFloat32Is` | graph-schema/src/storage.rs:100-103 | the same at the single-precision width |
| `Storage.CheckedAddDelta` | graph-schema/src/storage.rs:135-142 | fails exactly past 32 bits |
| `Storage.TryPush` | graph-schema/src/storage.rs:259-276 | accepts exactly values of the column's type and appends them |
| `Storage.TryAppend` | graph-schema/src/storage.rs:278-296 | accepts exactly columns of the same type and concatenates |
| `Storage.TryExtendFromRange` | graph-schema/src/storage.rs:298-322 | appends exactly the range, for columns of the same type |
| `Storage.ResolveInjective` | graph-schema/src/storage.rs:73-76 | over distinct strings, stored values are equal exactly if they mean the same |
| `Schemas.Schema.EdgeSlotAt` | graph-schema/src/schema.rs:242-252 | every edge slot is the slot of some node kind, direction and edge kind |
| `Schemas.Schema.EdgeSlotOf` | graph-schema/src/schema.rs:242-252 | every triple has a slot of its own within the storage size |
| `Schemas.Schema.PropertySlotAt` | graph-schema/src/schema.rs:279-286 | every property slot is the slot of some pair |
| `Schemas.Schema.PropertySlotOf` | graph-schema/src/schema.rs:279-286 | every pair has a slot of its own within the storage size |
| `Schemas.Schema.EdgeIteratorOrder` | graph-schema/src/schema.rs:258-266 | the i-th triple of the iterator is stored in slot i, and every slot is visited once |
| `Schemas.Schema.PropertyIteratorOrder` | graph-schema/src/schema.rs:292-298 | the i-th pair of the iterator is stored in slot i |
| `Schemas.Schema.SlotFormulas` | graph-schema/src/schema.rs:242-286 | the slot numbers are the products the layout prescribes |
| `Schemas.Schema.SizeFormulas` | graph-schema/src/schema.rs:234-273 | the storage sizes are the products of the numbers of kinds |
| `Soundness.CheckIntegrity` | graph-schema/src/graph/integrity.rs:124-151 | passes exactly the sound graphs: well-formed storage, ids in range, resolvable values, node total within 32 bits, Out and In halves equal as multisets of raw edges; sizes, then the node total, then slots and pairings in order decide the error |
| `Soundness.VerdictIsSound` | graph-schema/src/graph/integrity.rs:153-181 | the slot checks and pairings pass exactly on sound graphs |
| `Soundness.PairingMeans` | graph-schema/src/graph/integrity.rs:442-462 | numbered ends and value keys pair up exactly when the raw node ids and values do |
| `Soundness.DenseInjective` | graph-schema/src/graph/integrity.rs:78-105 | the canonical form of a half-edge loses nothing |
| `Soundness.MappedBags` | graph-schema/src/graph/integrity.rs:442-462 | an injective renaming neither merges nor splits multisets |
| `Soundness.EdgesAgree` | graph-schema/src/graph/integrity.rs:242-257 | the listed half-edges are those of the abstract graph |
| `Soundness.SlotsDecided` | graph-schema/src/graph/integrity.rs:153-167 | slot checks pass exactly when storage is well formed and everything named exists |
| `SlotChecks.EdgeSlotDecided` | graph-schema/src/graph/integrity.rs:210-238 | one edge slot: offsets, types, neighbours and values are in order exactly when the check passes |
| `SlotChecks.PropertySlotDecided` | graph-schema/src/graph/integrity.rs:184-206 | one property slot likewise |
| `SlotChecks.ShapeDecided` | graph-schema/src/graph/integrity.rs:291-324 | the offset check passes exactly the empty arrays and those of length count plus one that rise from zero |
| `SlotChecks.ContentDecided` | graph-schema/src/graph/integrity.rs:363-440 | the content check passes exactly if every node, string and enum id resolves and enums are the declared ones |
| `SlotChecks.NeighborsDecided` | graph-schema/src/graph/integrity.rs:392-406 | the neighbour check passes exactly if every neighbour exists |
| `Outcomes.FirstOk` | graph-schema/src/graph/integrity.rs:153-181 | a run of checks passes exactly if each does |
| `Outcomes.FirstFailsAt` | graph-schema/src/graph/integrity.rs:518-523 | a failure with only successes before it is the one reported |
| `Integrity.CheckSlots` | graph-schema/src/graph/integrity.rs:153-181 | the sequential driver reports the first failure among properties, edges and pairings |
| `Integrity.CheckEdges` | graph-schema/src/graph/integrity.rs:158-167 | collects each kind's Out and In halves in slot order, or the first failure |
| `Integrity.CheckProperties` | graph-schema/src/graph/integrity.rs:154-156 | the first failing property slot, if any |
| `Integrity.CheckEdgeSlot` | graph-schema/src/graph/integrity.rs:210-260 | checks a slot and appends exactly its half-edges in canonical form |
| `Integrity.ListRun` | graph-schema/src/graph/integrity.rs:244-257 | one node's half-edges in canonical form |
| `Integrity.SidesNext` | graph-schema/src/graph/integrity.rs:161-167 | each slot adds its halves to the side of its own direction and kind only |
| `NodeIndexes.NewNodeIndex` | graph-schema/src/graph/integrity.rs:54-68 | fails exactly when the total exceeds 32 bits, and otherwise holds the running totals |
| `NodeIndexes.DensifyCounts` | graph-schema/src/graph/integrity.rs:78-85 | existing nodes are numbered below the total without saturating |
| `NodeIndexes.DensifyRises` | graph-schema/src/graph/integrity.rs:78-85 | numbers rise strictly with kind and sequence number |
| `NodeIndexes.ResolveUndoes` | graph-schema/src/graph/integrity.rs:87-95 | resolving undoes numbering, empty kinds included |
| `NodeIndexes.DensifyUndoes` | graph-schema/src/graph/integrity.rs:87-95 | numbering undoes resolving for every number below the total |
| `HalfPairing.PairingDecides` | graph-schema/src/graph/integrity.rs:454-516 | sorting and scanning decides multiset equality; an error names the least half whose multiplicity differs, its richer side and its ends, and is a value mismatch exactly if the other side has that edge with a greater value |
| `HalfPairing.ReportIsCanonical` | graph-schema/src/graph/integrity.rs:471-516 | the report is determined by the divergence and by whether the other side has the same edge with a greater value |
| `HalfPairing.NextIsNearest` | graph-schema/src/graph/integrity.rs:483-494 | comparing the two halves at the first difference is asking whether the other side has that edge later at all |
| `HalfPairing.DivergenceIsLeast` | graph-schema/src/graph/integrity.rs:471-516 | the lesser half at the first divergence of sorted sides is the least surplus |
| `HalfPairing.MismatchWithoutEqualCounts` | graph-schema/src/graph/integrity.rs:483-494 | a property mismatch is also reported when one side merely has one parallel edge more |
| `Sorting.SortSorts` | graph-schema/src/graph/integrity.rs:459-460 | sorting yields a sorted permutation |
| `Sorting.SortedUnique` | graph-schema/src/graph/integrity.rs:442-462 | a multiset has one sorted arrangement |
| `ParallelChecks.CheckSlotsInParallel` | graph-schema/src/graph/integrity.rs:554-608 | the parallel driver gives the sequential verdict, down to the error, for every reduction tree |
| `ParallelChecks.ReduceIsFirst` | graph-schema/src/graph/integrity.rs:554-561 | a reduction yields the first failure among its leaves whatever its shape |
| `ParallelChecks.CheckBucket` | graph-schema/src/graph/integrity.rs:572-581 | one bucket yields its first failure or the same halves as the sequential driver |
| `ParallelChecks.GatherBuckets` | graph-schema/src/graph/integrity.rs:583-590 | scanning bucket results in order reports the sequential driver's first failure |
| `Reading.LiveViewIsSymmetric` | graph-schema/src/graph/mod.rs:187-236 | on a sound graph, for two nodes whose stored flags are unset, the values on the live edges between them are the same multiset from either end |
| `Reading.FilteredEdgesRead` | graph-schema/src/graph/mod.rs:187-253 | an edge is listed live exactly when it is listed at all and its neighbour is there with its stored flag unset; the order is kept, and its property is that very half's value |
| `Reading.EdgesRead` | graph-schema/src/graph/mod.rs:164-236 | unfiltered reads list the adjacency list, each half under its position, and the unfiltered count is its length |
| `Reading.CountsRead` | graph-schema/src/graph/mod.rs:151-178 | the live count is the number of positions of the list whose neighbour is there with its stored flag unset; the full count is the number of positions |
| `Reading.MissingNodeCountsNone` | graph-schema/src/graph/mod.rs:151-178 | a node past the end of its kind counts no edges |
| `Reading.PropertiesRead` | graph-schema/src/graph/mod.rs:105-131 | reading a node property yields its run, or reports that the slot was never written |
| `Reading.BagCount` | graph-schema/src/graph/mod.rs:209-236 | an edge is recorded as often as its half is in its owner's list |

## Left out

- The ten typed arms of a storage array are one column type carrying its declared type; the arms differ only in that type. The accessors, `try_splice`, `try_insert` and `try_drain` are not part of this model.
- `SlotBuckets`, the storages and the per-slot arrays are sequences held in locals and in fields of `FlatGraph`, and replaced as values; aliasing between Rust vectors is ruled out by the borrow checker and is not modelled.
- The bytes-to-hash functions `mix` and `hash_str`: the pool takes an arbitrary function, so every result holds for any hash.
- Bit masking is modelled as reduction modulo the table size and the keys' exclusive-or as addition or inversion; `Probing.MaskProbes` and `ValueKeys.MaskedKeyIs` relate the two.
- The histogram of new halves counts in unbounded numbers; the check that the number of halves fits 32 bits bounds every count before it is used.
- `usize` is unbounded, so the saturating addition of node totals in the integrity check never saturates.
- The standard library's unstable sorts are an insertion sort; `Sorting.SortedUnique` shows any sort gives the same result here. Sorting tombstones for a binary search is modelled as membership.
- Storage.TryExtendFromRange: on columns without values the range is not checked, as in the code.
- Repair of graphs damaged by stale handles: excluded by the freshness condition.
- Rayon's scheduling and the size threshold: the parallel driver is an arbitrary reduction tree over the ordered list of results.
- Error texts and labels: errors carry ids instead of formatted labels.
- Derive macros, `GraphView` wrappers, raw graph conversion, `resolve_property`, `resolve_string`, node iterators and node counts: they only forward to what is modelled or format it.
- Capacity hints and the mechanics of unchecked indexing: every index is proved in range instead.
