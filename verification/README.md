# Replicated text and its causal history

A Dafny model of the collaborative text in `cvrdt/` and of the causal graph drawn from its log in
`history/dag.go`, with proofs of what they are for: replicas that have seen the same operations show
the same text, clocks tell causality exactly, the operation log is a join-semilattice, and the graph
is the transitive reduction of causality, listed in layers.

`dafny verify dfyconfig.toml` checks everything.

## How it is arranged

| file | subject |
|---|---|
| `Identifiers`, `SortKeys` | character identifiers; sort keys that depend only on a character's previous, next and own identifier |
| `TextSequence`, `Convergence`, `InsertionBlocks` | the WOOT placement, why it is sorted insertion by key, strong convergence, blocks of independent insertions |
| `Clocks`, `Operations`, `CausalHistory` | vector clocks, happened-before, `Compare`; what clocks say about causality |
| `OperationLog` | the binary-searched log and its merge |
| `Integration`, `Replica` | integration on any text; a site and its log as functions |
| `LocalEdits`, `PendingQueue` | local edits against a plain list; the pending queue |
| `SiteObjects` | the classes `WCharacter`, `WString`, `Site`, `WootCvrdt`, whose methods are proved against those functions |
| `Runs` | N replicas that edit and deliver any log ever held: what holds of every run whose steps return |
| `Arrivals` | which lists of operations a site can absorb, in whatever order they arrive |
| `OrderlySystems`, `OrderlyEdits`, `SafeRuns` | when deliveries and edits are safe, exactly; safety and convergence of runs |
| `InversionRun`, `EffectFirstRun` | a run in which redelivery repeats a character; a run in which a newcomer never absorbs a log |
| `OperationNames`, `CausalDag`, `DagLayers` | printed names; direct edges, reachability and levels |
| `DagGraphs`, `DagMeaning`, `DagLayering`, `DagObjects`, `RunGraphs` | the stored maps, what they mean, the layering, the class `OperationDAG`, and the graphs of a run |

The route to convergence: each character has a key computed from its two neighbours' keys and its own
identifier. In a text sorted by key, every non-empty gap holds a character whose neighbours lie
outside it, so each step of `IntegrateIns` narrows the gap; and among such characters the order of
identifiers is the order of keys, so each step keeps the new key inside. Placement is therefore
sorted insertion, and the text is a function of the set of operations.

## What the code does that its comments do not say

- `Compare` is not transitive when three sites are involved; it is exactly when no operation sits in
  an inversion (`LinearExactlyWithoutInversion`). Otherwise a log depends on the order of arrival and
  can get out of order, and binary search can miss an operation that is logged. Delivered again, a
  missed insertion is inserted a second time (`RedeliveryRepeats` is such a run). Two sites are never
  affected, clocks never are, and neither is the place of a fresh operation.
- A log that is out of order can list an effect before its cause. A replica that receives it queues
  the effect. Unless the operation executed next brings what it waits for, the drain then never ends,
  fails on a missing character, or inserts a character twice; `NewcomerNeverReturns` is a run in
  which a newcomer never gets through a full log. `DeliveryIsSafeExactly` says which deliveries are
  safe, looking at identifiers only.
- A log that lists an operation twice counts its parents twice while each edge is kept once, so
  `GetTopologicalLayers` panics exactly when such an operation has a direct cause or effect
  (`RedeliveredLogCannotBeLayered`).
- `GenerateIns` with a position past the visible text takes END for both neighbours. The insertion
  succeeds, and a later integration around the stray character recurses for ever.
- A pass over the pending queue appends each blocked operation a second time, and does not end when
  nothing can be executed. The drain ends without repeating a character exactly when the queue is in
  dependency order, and then with one pass per operation; a blocked insertion at the head is inserted
  twice if the drain ends at all, and with a blocked deletion at the head it never does.
- The tests for limiters in `IsExecutable` never decide anything.
- A refused local insertion has already advanced the clock.
- Content equal to a limiter string is never shown.
- `Equals` reads the edges of one side only, so across unrelated runs its answer can depend on the side.

## Model

| member | source | states |
|---|---|---|
| `Convergence.StrongConvergence` | cvrdt/site.go:165-197 | Of the orders in which the operations one site accepted can arrive, any other site accepts exactly the dependency-respecting ones, and both end with the same characters, tombstones and contents, up to the site names the two limiters carry |
| `Convergence.HistoryIsLawful` | cvrdt/site.go:64-85 | Every history a site accepts is explained by delivery-independent sort keys, and the text is the one determined by its insertions and deletions; nothing about keys is assumed |
| `Convergence.AcceptedRespectsDependencies` | cvrdt/site.go:64-85 | A site accepts operations only in an order in which every character referred to was inserted before |
| `Convergence.ApplyKeepsCanonical` | cvrdt/site.go:64-85 | A valid operation whose references are integrated is always accepted, and turns the text of a set of operations into the text of that set and itself |
| `SortKeys.PsiOrder` | cvrdt/site.go:176-196 | Two characters of one gap whose own neighbours lie outside it are ordered by identifier exactly as by sort key, whatever those neighbours are: why comparing identifiers inside L is enough |
| `SortKeys.PsiNarrow` | cvrdt/site.go:165-197 | A key does not change when the gap it was made for shrinks around it |
| `SortKeys.PsiMonotone` | cvrdt/character.go:11-21 | In one gap keys are ordered as character identifiers are |
| `SortKeys.PsiBetween` | cvrdt/site.go:165-197 | A key lies strictly between the keys of the neighbours it was made from |
| `TextSequence.PlaceFindsKey` | cvrdt/site.go:165-197 | On a well-formed text the recursion ends, and ends at the place of the character's key in the sorted text |
| `TextSequence.GapHasEnclosing` | cvrdt/site.go:176-187 | A gap that is not empty holds a character whose previous and next lie outside it (the earliest born), so the list L gains an inner element |
| `TextSequence.StuckExactlyWithoutEnclosing` | cvrdt/site.go:176-196 | A placement step repeats the same gap, and so for ever, exactly when no character of the gap encloses it |
| `TextSequence.ApplyInsertKeepsWellFormed` | cvrdt/site.go:165-197 | Every integration succeeds, lands strictly after prev and at or before next, adds exactly the new character, and keeps START first, END last, identifiers unique and every character between its neighbours |
| `TextSequence.NeighboursSurround` | cvrdt/site.go:165-197 | In a well-formed text every character stands strictly between the two it was inserted with |
| `TextSequence.ApplyDeleteKeepsWellFormed` | cvrdt/site.go:199-201 | A deletion keeps the text well formed |
| `TextSequence.CanonicalUnique` | cvrdt/site.go:165-201 | The set of characters and of tombstones determines the text |
| `InsertionBlocks.IndependentInsertsFormSortedBlock` | cvrdt/site.go:176-196 | Any number of independent insertions into one empty gap, in any order, become one contiguous block sorted by identifier, each exactly once |
| `InsertionBlocks.EarlierIdentifierStandsLeft` | cvrdt/character.go:11-21 | Read off the text: of any two such insertions the left one has the smaller clock or, with equal clocks, the alphabetically earlier site; they stand side by side in their gap and nothing else has moved |
| `InsertionBlocks.BlockIgnoresArrivalOrder` | cvrdt/site.go:176-196 | Two orders of arrival of independent insertions give the same text |
| `Clocks.VectorClock.constructor` | cvrdt/clock.go:13-19 | A new clock knows its own site, at 0 |
| `Clocks.VectorClock.Increment` | cvrdt/clock.go:22-27 | The own entry grows by one, or stays at the maximal value; no other entry changes |
| `Clocks.VectorClock.Update` | cvrdt/clock.go:36-48 | The loop computes the join of the two clocks |
| `Clocks.VectorClock.Copy` | cvrdt/clock.go:52-58 | The copy holds the same entries and the clock is unchanged |
| `Clocks.JoinIsLeastUpperBound` | cvrdt/clock.go:36-48 | Merging gives the least clock above both, with no entry of its own making |
| `Operations.ComputeHappenedBefore` | cvrdt/operations.go:79-108 | The two loops and their early returns decide the relation |
| `Operations.HappenedBeforeMeaning` | cvrdt/operations.go:79-108 | With missing entries read as 0, happened-before is the strict pointwise order of the clocks |
| `Operations.HappenedBeforeOrder` | cvrdt/operations.go:79-108 | Happened-before is a strict partial order |
| `CausalHistory.ClocksTellCausality` | cvrdt/operations.go:79-108 | In every history of sites that tick and copy their clock to issue, and merge the clock of any issued operation in any order, any number of times: happened-before holds exactly when a chain of "issued or integrated there before" steps leads from one operation to the other; nothing is asked of order, completeness or Compare |
| `CausalHistory.HappenedBeforeIsPast` | cvrdt/clock.go:36-58 | Comparing two clocks decides membership in the causal past, both ways |
| `CausalHistory.JoinKnows` | cvrdt/site.go:66-67 | Merging the clock of an issued operation makes exactly it and its past known, whatever was known before |
| `CausalHistory.IssueKnows` | cvrdt/site.go:89-91 | The clock copied into a new operation knows exactly what its site knew |
| `CausalHistory.StepKeepsOk` | cvrdt/clock.go:22-58 | Every step of a history keeps what all clocks say about all earlier operations |
| `CausalHistory.IssuedIsCoherent` | cvrdt/operations.go:40-75 | Issued identifiers are valid, unique and causally ordered at each site |
| `Runs.RunClocksTellCausality` | cvrdt/operations.go:79-108 | The same of replicas: in every run whose steps return, with logs out of order, operations pending or inserted twice, happened-before is exactly transitive causality |
| `Runs.DrainTracks` | cvrdt/site.go:51-85 | A drain that ends has executed everything logged, and the clock knows exactly that |
| `Runs.AbsorbTracks` | cvrdt/state.go:104-120 | Absorbing any list of issued operations, in any order, leaves each logged operation executed or pending, the clock knowing exactly the executed ones and their pasts |
| `Runs.LoggedIsPendingOrCovered` | cvrdt/state.go:99-125 | In every run, what is logged is pending or covered by the clock |
| `Runs.FreshOperationLandsLast` | file/repository/cvrdt_exports.go:45-46 | In every run, with nothing pending, a freshly generated operation is causally after the whole log and becomes its last entry, however Compare has arranged the log |
| `Operations.CompareTotal` | cvrdt/operations.go:40-75 | Compare is 0 exactly on the same operation, antisymmetric, total, and extends happened-before |
| `Operations.CompareMeaning` | cvrdt/operations.go:40-75 | Compare decides by the pointwise order of the clocks where that decides, and otherwise by the alphabetical order of the sites |
| `Identifiers.StrLessIsAlphabetical` | cvrdt/operations.go:50 | Strings are compared alphabetically: a proper prefix comes first, otherwise the first difference decides |
| `Operations.LinearExactlyWithoutInversion` | cvrdt/operations.go:40-75 | Compare is transitive exactly when no operation is concurrent with both ends of a causal pair while its site name lies between theirs |
| `Operations.TwoSitesAreLinear` | cvrdt/operations.go:40-75 | Operations of at most two sites are always linearly ordered |
| `Operations.ThreeSitesCanCircle` | cvrdt/operations.go:40-50 | Three sites can issue operations that Compare orders in a circle: the order is not transitive in general |
| `OperationLog.BinarySearch` | cvrdt/state.go:21-38 | The loop ends where the recursive search does, found or not |
| `OperationLog.Insert` | cvrdt/state.go:40-52 | The insertion point of the search receives the operation; a known one changes nothing |
| `OperationLog.GetNewStateFromOp` | cvrdt/state.go:59-65 | The loop folds insertion over its arguments |
| `OperationLog.MergeLogs` | cvrdt/state.go:67-74 | The loop computes Merge |
| `OperationLog.SearchDecides` | cvrdt/state.go:54-57 | On a sorted log binary search decides membership |
| `OperationLog.InsertSorted` | cvrdt/state.go:40-52 | Insertion keeps the log strictly sorted and adds exactly the operation |
| `OperationLog.MergeSorted` | cvrdt/state.go:67-74 | Merging any list of operations into a sorted log is set union, sorted |
| `OperationLog.SortedUnique` | cvrdt/state.go:21-52 | A sorted log is determined by the set of its operations |
| `OperationLog.MergeIsJoin` | cvrdt/state.go:67-74 | Merge is commutative, associative and idempotent as lists, and its order is inclusion: a join-semilattice |
| `OperationLog.OrderInsensitiveExactlyWithoutInversion` | cvrdt/state.go:59-65 | A log built by insertion is independent of the order of arrival exactly when no operation sits in an inversion |
| `OperationLog.LandsLast` | cvrdt/state.go:40-52 | An operation causally after all of a log, sorted or not, is not found in it and lands at the end |
| `LocalEdits.GenerateInsRefinesList` | cvrdt/site.go:87-127 | Through arbitrary tombstones, inserting at pos within the document is insertion at index pos of the visible list, unless the content is a limiter string, in which case it exactly is not |
| `LocalEdits.GenerateDelRefinesList` | cvrdt/site.go:129-152 | Deleting at pos removes index min(pos, length - 1) of the visible list and nothing else |
| `LocalEdits.EditIsObeyed` | cvrdt/site.go:42-47 | Dispatched by its kind, every local edit does what it asks for: an insertion puts its content at its position of the visible list, or at the end (a limiter string nowhere), a deletion takes its position out, or the last; it is refused exactly for a negative position or when there is nothing to delete; the operation made carries the kind, the site, the next count and the content concerned, and only a refused deletion leaves the clock alone |
| `OrderlyEdits.UpdateStateObeysEdit` | cvrdt/state.go:99-125 | The same of a local edit handed to UpdateState in a system in good order: the document, the error, the log grown by the one operation or left alone, the clock |
| `LocalEdits.GenerateInsKeepsOrderExactly` | cvrdt/site.go:93-99 | A local insertion leaves a well-formed text exactly when pos is within the document |
| `LocalEdits.GenerateInsPastEnd` | cvrdt/string.go:94 | Past the document the cap makes both neighbours END; the character is inserted before END and no order of keys explains the result |
| `LocalEdits.StrayCharacterBlocksPlacement` | cvrdt/site.go:176-196 | After an insertion past the end, integrating any character into the gap around the stray one recurses for ever |
| `PendingQueue.DrainsOnceExactly` | cvrdt/site.go:51-85 | On the text of a set of integrated operations, a queue of new operations empties with one pass per operation exactly when it is in dependency order; the result is that of integrating it directly, clocks joined, and the text is that of the set and the queue |
| `PendingQueue.DrainNeedsAllPasses` | cvrdt/site.go:51-62 | No drain takes fewer passes than the queue has operations |
| `PendingQueue.BlockedInsertionIsRepeated` | cvrdt/site.go:51-85 | An insertion that is blocked at the head of the queue is never executed just once: a drain that ends has inserted its character twice |
| `PendingQueue.BlockedDeletionNeverDrains` | cvrdt/site.go:51-85 | A deletion that is blocked at the head, while its target is absent, keeps the drain from ever ending: inserting the target needs the neighbours the deletion carries, and once they are there the deletion itself fails on a missing character |
| `PendingQueue.DrainsExactly` | cvrdt/site.go:51-85 | On the text of a set of integrated operations, the drain of a queue of new operations ends with no character in the text twice exactly when the queue is in dependency order, however many passes it may take |
| `Arrivals.AbsorbSettlesExactly` | cvrdt/state.go:99-125 | A list of operations the log does not have, in any order, is absorbed with nothing left waiting and no character twice exactly when it inserts nothing that is there and Settles: each entry refers only to what is there and releases a queue in dependency order, or waits, without being a deletion whose neighbours are there but not its target; the text is then that of all of them |
| `Arrivals.OrderedSettles` | cvrdt/state.go:99-125 | A list in dependency order settles |
| `PendingQueue.PassKeepsOnceExactly` | cvrdt/site.go:54-57 | A pass leaves a duplicate-free queue duplicate-free exactly when it executes the head: blocked operations before the executed one are queued again |
| `PendingQueue.BlockedQueueNeverEnds` | cvrdt/site.go:52-54 | If nothing in the queue is executable it grows as fast as the loop advances, so the loop never reaches its end |
| `OrderlySystems.DeliveryIsSafeExactly` | cvrdt/state.go:99-125 | The delivery of any log ever held, in whatever order it lists its operations, returns with nothing pending and no character in the text twice exactly when binary search finds every insertion that is already logged and the operations it does not find settle; the logs are then united, the text is that of both, and the invariant holds |
| `OrderlySystems.SortedDelivery` | cvrdt/state.go:99-125 | Between two sorted logs a delivery is in dependency order, finds all that is known and settles, even when the two together hold an inversion |
| `Arrivals.NewsIsLogged` | cvrdt/state.go:99-125 | A list that is absorbed is merged into the log as the log of the operations the search did not find, inserted in their order |
| `Arrivals.ErrorEndsUpdate` | cvrdt/state.go:107-112 | An error ends the call: what was to follow is not looked at, and the log stays as it was |
| `OrderlyEdits.EditIsSafeExactly` | cvrdt/site.go:87-152 | A local edit always ends, and keeps the system in good order exactly when it inserts within the document and no limiter string, or deletes, or is refused for a negative position |
| `SafeRuns.StepIsSafeExactly` | cvrdt/state.go:99-125 | A step returns and leaves the system in good order exactly when it is an edit of the document or a delivery whose known insertions are found and whose other operations settle |
| `SafeRuns.RunsAreSafe` | cvrdt/state.go:99-125 | For any number of replicas: a run of edits of the document and deliveries of any earlier log (late, repeated, reordered, effects before causes), each finding the insertions it knows and settling, has no step that fails, diverges, looks up a missing character or leaves an operation pending; by StepIsSafeExactly no wider class of steps will do |
| `SafeRuns.StraightRunsAreSafe` | cvrdt/state.go:99-125 | If no receiver log and delivered log together hold an inversion, a run of edits of the document and deliveries is safe and every log stays sorted |
| `SafeRuns.SortedDeliveryIsSafe` | cvrdt/state.go:99-125 | Between sorted logs a delivery is always safe; the log it leaves is sorted exactly when the two logs together hold no inversion |
| `SafeRuns.TwoSiteRunsAreSafe` | cvrdt/state.go:99-125 | Between two sites every run of edits of the document and deliveries is safe, with no assumption on Compare |
| `InversionRun.RedeliveryRepeats` | cvrdt/state.go:99-125 | A concrete safe run of three sites, in which the oldest log then arrives again at a replica that knows it: binary search misses its operation, and the character is inserted a second time |
| `EffectFirstRun.NewcomerNeverReturns` | cvrdt/site.go:51-62 | A concrete safe run of four sites that leaves a log listing an effect before its cause; delivered to a site that has heard of nothing, it is never absorbed: the effect waits when the next operation is executed, and is queued again for ever |
| `InversionRun.MissedIsRepeated` | cvrdt/state.go:104 | A logged insertion that the search misses is inserted again whenever it is delivered again |
| `SafeRuns.LogsAreCausal` | cvrdt/state.go:67-74 | In a safe run every log holds the causes of what it holds; a log without inversions lists each before its effects |
| `SafeRuns.LogAndTextAgree` | cvrdt/state.go:99-125 | In a safe run the characters of the text are exactly the logged insertions, each once; hidden are exactly the targets of logged deletions |
| `SafeRuns.ReplicasConverge` | cvrdt/state.go:99-125 | In a safe run replicas with the same operations hold the same text and document, and the same log if it holds no inversion |
| `SafeRuns.DeliveryJoins` | cvrdt/state.go:122 | In a safe run a delivery that finds the insertions it knows and settles leaves the union of the two logs; if they hold no inversion, their sorted merge |
| `SafeRuns.RedeliveryChangesNothingExactly` | cvrdt/state.go:104 | On any replica whatever, absorbing a list leaves log, text, clock and queue as they are exactly when the search finds all of it |
| `SafeRuns.RedeliveryChangesNothing` | cvrdt/state.go:104 | In a safe run, a log without inversions is left alone, with its whole replica, by any redelivery of what it holds |
| `SiteObjects.WString.constructor` | cvrdt/string.go:12-21 | The new string holds START and END |
| `SiteObjects.WString.GetPos` | cvrdt/string.go:36-43 | The first position with an equal identifier, or -1 |
| `SiteObjects.WString.GetById` | cvrdt/string.go:23-30 | The character at that position, or nil |
| `SiteObjects.WString.Insert` | cvrdt/string.go:45-53 | Inserts at a position within bounds, otherwise refuses and changes nothing |
| `SiteObjects.WString.SubSeq` | cvrdt/string.go:55-69 | The characters strictly between two others; empty when absent or out of order |
| `SiteObjects.WString.GetIthVisibleValue` | cvrdt/string.go:77-97 | The occ-th visible character with the cap, or the error |
| `SiteObjects.WString.GetVisibleContent` | cvrdt/string.go:99-107 | The contents of the visible characters, in order |
| `SiteObjects.ContentIsInOrder` | cvrdt/string.go:99-107 | The content read is the strings one after the other: an inserted one stands between those before and those after it |
| `SiteObjects.Site.constructor` | cvrdt/site.go:18-26 | A new site |
| `SiteObjects.Site.IsExecutable` | cvrdt/site.go:154-163 | Executable exactly when the target, for a deletion, or both neighbours stand in the text; the limiter tests never decide |
| `SiteObjects.Site.Enclosing` | cvrdt/site.go:176-189 | The loop collects exactly the enclosing characters between prev and next |
| `SiteObjects.Site.SkipSmaller` | cvrdt/site.go:191-194 | The loop stops at the first entry of L that is not less |
| `SiteObjects.Site.IntegrateIns` | cvrdt/site.go:165-197 | On any text, repeated identifiers included, the recursion on objects inserts at the position PlaceWithin computes and changes nothing else |
| `Integration.PlaceAtIsPlace` | cvrdt/site.go:165-197 | With distinct identifiers the recursion ends exactly when every step shrinks the gap, and at the place the convergence proof is about |
| `Integration.WellFormedPlaces` | cvrdt/site.go:165-197 | On a well-formed text placement ends for every character between any two, even one that is there already |
| `Integration.PresentIsRepeated` | cvrdt/site.go:165-197 | Integrating an insertion whose identifier is present puts a second character of that identifier into the text |
| `SiteObjects.Site.IntegrateDel` | cvrdt/site.go:199-201 | Only the visibility of the one character changes |
| `SiteObjects.Site.ComputeExtOp` | cvrdt/site.go:64-85 | Integrates an executable operation and merges its clock, or appends it to the queue; requires only that the source returns |
| `SiteObjects.Site.RunPass` | cvrdt/site.go:52-61 | One pass: re-queues blocked operations, executes and removes the first executable one; requires only that there is one |
| `SiteObjects.Site.TryComputePendings` | cvrdt/site.go:51-62 | Retries until the queue is empty, as DrainWithin says; requires only that it ever is |
| `SiteObjects.Site.GenerateIns` | cvrdt/site.go:87-127 | State and result are those of the function that refines list insertion; a refusal still ticks the clock |
| `SiteObjects.Site.GenerateDel` | cvrdt/site.go:129-152 | State and result are those of the function that refines list deletion |
| `SiteObjects.Site.ComputeOp` | cvrdt/site.go:28-49 | Dispatches to the remote and local operations; a remote one is returned without error exactly when its target, for a deletion, or both neighbours stand in the old text, and then also drains the queue, and as pending otherwise; requires only that the source returns |
| `SiteObjects.WootCvrdt.UpdateState` | cvrdt/state.go:99-125 | Site, log and error after any list of remote and local operations are those of the function the run theorems are about; on an error the log stays and the site keeps what it absorbed; the replica stays valid and owns its objects, so calls can follow each other |
| `OperationNames.NameIdentifies` | cvrdt/operations.go:53-60 | Two identifiers are printed alike exactly when they name the same operation, whatever underscores and digits the site names contain |
| `OperationNames.NameReadsBack` | cvrdt/operations.go:58-60 | A printed name reads back: before its last underscore the site, after it the site's own count in decimal, without a leading zero |
| `OperationNames.SortIsAlphabetical` | history/dag.go:172-201 | Sorting keeps the names and puts them in alphabetical order |
| `OperationNames.SortIgnoresOrder` | history/dag.go:233-241 | Sorted lists of names are equal exactly when the lists hold the same names equally often |
| `CausalDag.EdgesReachExactlyCausality` | history/dag.go:68-118 | A path of direct edges leads from a to b exactly when a happened before b |
| `CausalDag.EveryEdgeIsNeeded` | history/dag.go:68-118 | A direct edge is the only path between its ends, so the edges are the transitive reduction |
| `CausalDag.LevelIsLongestPath` | history/dag.go:151-211 | The level of a node is the number of edges of its longest path from a root |
| `CausalDag.LevelsAreAntichains` | history/dag.go:151-211 | Operations of one level are pairwise concurrent |
| `CausalDag.RootsHaveNoParent` | history/dag.go:112-115 | Level 0 is exactly the nodes without an edge into them |
| `DagLayers.ReadyIsNextLevel` | history/dag.go:191-203 | When a level is done, the nodes whose last parents it held are exactly those of the next level |
| `DagGraphs.LinkAdvances` | history/dag.go:102-106 | Drawing a direct edge updates edges, parents and children to those of the next pair of entries, repeated ones included |
| `DagObjects.OperationDAG.constructor` | history/dag.go:39-53 | For a log in any order, with any repeats, the maps built are its graph: every node with the lists of its direct causes and effects as the loops note them, every edge list, the roots |
| `DagObjects.OperationDAG.InitNodes` | history/dag.go:55-66 | One bare node for each operation, however often it is listed |
| `DagObjects.OperationDAG.InitEdges` | history/dag.go:68-118 | The nested loops turn bare nodes into the graph |
| `DagObjects.OperationDAG.IsDirect` | history/dag.go:84-100 | The innermost loop decides that nothing lies causally between |
| `DagObjects.OperationDAG.AddEdge` | history/dag.go:121-129 | The edge is appended unless present |
| `DagMeaning.NodeMeaning` | history/dag.go:84-106 | Each node holds its operation and lists each direct cause and each direct effect once for every pair of their entries in the log, and nothing else |
| `DagMeaning.PlainNode` | history/dag.go:30-34 | In the graph of a log without repeats each node lists its direct causes, each once, and as children exactly what its edges lead to, each once |
| `DagMeaning.PlainNodeIsInOrder` | history/dag.go:102-105 | In the graph of a log without repeats parents and children are listed in the order of the log |
| `DagMeaning.NodeEdges` | history/dag.go:101-106 | The edges of a node lead to its direct effects, each once, however often the log lists them |
| `DagMeaning.RootsMeaning` | history/dag.go:112-115 | The roots are the nodes of level 0 |
| `DagMeaning.DrawnEdgesReachExactlyCausality` | history/dag.go:131-138 | HasPath, which compares clocks, answers exactly whether drawn edges lead from one node to the other |
| `DagMeaning.DrawnEdgesAreNeeded` | history/dag.go:68-118 | Dropping any drawn edge loses reachability |
| `DagObjects.OperationDAG.QueriesFollowEdges` | history/dag.go:133-148 | HasPath and IsConcurrent in terms of the drawn edges |
| `DagObjects.OperationDAG.StartLayer` | history/dag.go:167-172 | The sorted roots are what is due in the first round |
| `DagObjects.OperationDAG.Unlock` | history/dag.go:187-198 | Counting one node down at its children keeps every count equal to the parents left plus those counted too much, and unlocks a child exactly when its count reaches 0 |
| `DagObjects.OperationDAG.ProcessLayer` | history/dag.go:178-203 | One round emits what is due and unlocks exactly what is due next |
| `DagObjects.OperationDAG.GetTopologicalLayers` | history/dag.go:151-211 | Always ends; it reaches the panic exactly when some repeated operation has a direct cause or effect, and otherwise returns the sorted levels, none empty and none missing |
| `DagLayers.SurplusMeaning` | history/dag.go:84-106 | A node counts more parents than it has direct causes exactly when it or one of them is listed twice |
| `DagLayering.RoundsEnd` | history/dag.go:205-207 | When nothing more is due, every node has been processed exactly if no repeated operation has a direct cause or effect |
| `DagLayering.LayerIsLevel` | history/dag.go:151-211 | An operation is in layer k exactly when its longest path from a root has k edges |
| `DagLayering.EachOperationOnce` | history/dag.go:151-211 | Every logged operation is emitted, none twice |
| `DagLayering.LayersAreConcurrent` | history/dag.go:141-148 | The members of a layer are pairwise concurrent |
| `DagLayering.LayersAreSorted` | history/dag.go:172-201 | Within a layer the printed names ascend in alphabetical order |
| `DagLayering.LayeringIgnoresLogOrder` | history/dag.go:151-211 | Logs of the same operations have identical layer lists |
| `DagMeaning.GraphIgnoresLogOrder` | history/dag.go:36-53 | Logs of the same operations have the same roots and edges, whatever their order and repeats; permuted logs also the same nodes with parents and children up to order |
| `DagObjects.OperationDAG.Equals` | history/dag.go:215-246 | The loops decide: same nodes, and the first graph's edges in the second |
| `DagMeaning.EqualsComparesEdges` | history/dag.go:213-246 | For graphs of any two logs Equals is true exactly when the names agree and every node of the first that has an edge leads to the same nodes in both |
| `DagMeaning.EqualsIsSameReachability` | history/dag.go:213-246 | For graphs of any two logs Equals is true both ways exactly when the names agree and the same nodes reach each other |
| `DagMeaning.EqualsDecidesOperations` | history/dag.go:213-246 | On logs of one run Equals is true exactly when they hold the same operations; so it is symmetric there |
| `DagMeaning.EqualsIsSymmetricExactly` | history/dag.go:229-243 | In general a true answer is symmetric exactly when the same nodes have edges |
| `DagMeaning.UnrelatedRunsCompareOneWay` | history/dag.go:229-243 | Two logs of unrelated runs, each two insertions, that Equals identifies in one direction only |
| `RunGraphs.RunLogsCanBeDrawn` | history/dag.go:39-53 | In every run whose steps return, every log meets all that BuildDAG is proved for, out of order or with repeats |
| `RunGraphs.SafeLogsCanBeLayered` | history/dag.go:205-207 | In a safe run a log without inversions lists nothing twice, so the panic is not reached |
| `RunGraphs.RedeliveredLogCannotBeLayered` | history/dag.go:205-207 | After the redelivery of the concrete run above, the log of site 2 lists an operation twice that has a direct effect, so its graph reaches the panic |
| `RunGraphs.RunGraphShowsCausality` | history/dag.go:131-138 | In every run whose steps return, edges of a drawn graph lead exactly from transitive causes to their effects |
| `RunGraphs.RunGraphsEqualExactly` | history/dag.go:213-246 | In every run whose steps return, Equals between two replicas' graphs is true exactly when their logs hold the same operations |
| `RunGraphs.EqualGraphsMeanEqualTexts` | history/dag.go:213-214 | In a safe run replicas with equal graphs hold the same text, and the same log if it holds no inversion |

## Left out

- TextSequence.ApplyInsert: the notion of a valid insertion used for convergence; `None` when the identifier is present or a limiter's, or the neighbours are out of order. What the source makes of such an insertion is `Integration.Integrate`, which the replicas and the classes use.
- OperationLog.GetNewStateFromOp: takes generated operations; a list of local edits, which the source also accepts there, is not built here, only absorbed (`Replica.UpdateState`).
- Runs.FreshOperationLandsLast: clock entries stay below the saturation value, which is also END's clock; `Runs.Allowed` stops a site one tick before it.
- DagObjects.OperationDAG: nodes are values in the map, so node pointers shared with callers are not captured; `GetTopologicalLayers` takes the log as a ghost argument, for its specification only.
- DagObjects.OperationDAG.HasPath: requires both names to be in the graph, where the source fails on a nil node.
- OperationLog.Insert: logs are values, so the capacity and sharing of slices under `append` and `copy` are not modelled.
- `slices.Sort` and `fmt.Sprintf` are the functions `SortNames` and `Name`; Go's strings are compared as character sequences.
- The caching flag of `Snapshot` and the printing of graphs (`ToASCIIDAG`, `ToASCIILinearization`) settle at a reading.
- Peers, transport, JSON codecs, the cluster server, commands, configuration, logging and files (`p2p/`, `cluster/`, `command/`, `config/`, `log/`, `file/`): a push is represented only as the delivery of an earlier log.
