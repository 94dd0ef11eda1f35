# Dark backend and client cores: a verified model

This project models five parts of the Dark repository in Dafny and proves that the pieces of
code which must agree do agree, over every input, every tree or every run.

- **Expression trees** (`libshared/FluidExpression.ml`, `FluidPattern.ml`): the 23-constructor
  tree (`FluidExpression`), ids and positions (`FluidTree`), the search functions
  (`FluidSearch`), the traversals (`FluidTraversal`), `update` and the pipe-splicing `replace`
  (`FluidEdit`), scoped renaming (`FluidRename`), cloning (`FluidClone`, `FluidContent`),
  comparison without ids (`FluidEquality`) and the host rewrite of canvas cloning (`FluidHosts`). Functions that
  collect into a ref, and `update` with its `found` ref, are methods over a `Ref` object.
- **Canvases** (`canvas.ml`, `undo.ml`, `op.ml`, `user_db.ml`, `serialize.ml`): the eight maps
  and the 30 ops (`CanvasTypes`, `UserDb`, `CanvasOps`), undo preprocessing (`Undo`,
  `UndoRedo`), what each op does (`CanvasEffects`), replay (`CanvasReplay`, `CanvasGrouping`),
  what every built canvas satisfies (`CanvasInvariant`, `CanvasKinds`), the check of datastore
  names (`CanvasVerify`), the stored rows (`CanvasStore`, `CanvasRows`) and loading through
  rendered copies (`CanvasCache`).
- **Canvas cloning** (`canvas_clone.ml`): history trimming (`CanvasClone`, `CanvasTrim`) and the
  meaning of the clone as a whole (`CloneMeaning`).
- **The event queue** (`event_queue.ml`, `queue-scheduler/src/lib.rs`): a state machine in
  which each SQL statement is one atomic step of a client, a worker transaction or the
  scheduler (`EventQueue`), one turn of a worker (`EventQueueWorker`), what all runs keep
  (`EventQueueRuns`), when events are due (`EventQueueDue`), first-in first-out order and how
  emits break it (`EventQueueFifo`, `EventQueueOvertaking`), pausing and blocking
  (`EventQueueRules`), and the tables updated in place (`EventTables`).
- **The browser side**: the padded base64url codec of `libtarget.js` (`Base64Url`), following
  sections 4 and 5 of RFC 4648, and the coalescing analysis queue of `appsupport.js`
  (`AnalysisQueue`).

Some conventions. The id generator `gid` is a sequence, `gid(n)` being the n-th id drawn; that it
never repeats is a hypothesis where it is needed. A node draws its own id first, then those of
its lambda variables or of all its match patterns, then its subexpressions draw from left to
right. Errors stand for the exceptions of the source. A *slot* is one toplevel id's share of the
eight maps, so that two canvases with equal slots are equal. `CURRENT_TIMESTAMP` is the start of the enclosing
transaction, an `UPDATE` that meets a row locked by a worker waits, and a worker's writes are
seen by others when it commits. Row versions, deadlocks and isolation anomalies of the database
are not modelled. `string_replace` is an arbitrary function on strings.

Where the code differs from its documentation, or from what one would expect, the model follows
the code:

- `clone_canvas` documents that history is dropped before the last savepoint; the code drops
  what precedes the last op that creates a toplevel.
- `decendants` is documented to exclude the root; the code records the root as well.
- `ancestors` pushes the root instead of the current node for lists and records, so its result
  is the path to the root exactly when the path meets neither below the root.
- `clone` keeps the id of a left partial, so a clone's ids are all new exactly when the tree
  has none.
- Deleting a toplevel that is not live also forgets the deleted entry.
- The queue is first in, first out for what clients send. A worker's own `emit` takes its id at
  once, appears at commit and is due from the start of the transaction, so a later event can
  overtake it (`EmitCanBeOvertaken`) and it can overtake an earlier one (`EmitCanOvertake`).
  Order is kept exactly when no tick schedules an event while it leaves an older one behind
  (`InOrderIff`). A worker that dies has its event delivered again (`CrashRedelivers`).
- A request made before the analysis worker is ready is retried by a timer and can displace a
  later one (`EarlyRequestCanWin`); the last request wins exactly when no request for something
  else still waits on a timer (`LastRequestWinsIff`).
- A redo that no undo precedes makes the canvas load or fail depending on the order of its
  groups (`LeadingRedoFailsWhenLast`).

## Model

| member | source | states |
|---|---|---|
| FluidSearch.FindReturnsLocated | libshared/FluidExpression.ml:127-170 | `find` succeeds exactly for ids of the tree and returns the first node with the id in preorder |
| FluidSearch.FindParentReturnsParentOfLocated | libshared/FluidExpression.ml:173-220 | `findParent` returns the node directly above the one `find` returns, and nothing for the root or a missing id |
| FluidSearch.FindParentReturnsTheParent | libshared/FluidExpression.ml:212-220 | with unique ids, any node that has the target among its direct subexpressions is the answer |
| FluidSearch.AncestorsArePathToRoot | libshared/FluidExpression.ml:554-605 | with unique ids `ancestors` lists the nodes from the parent up to the root exactly when no list or record lies on the path below the root |
| FluidSearch.ParentIsNearestAncestorIff | libshared/FluidExpression.ml:554-605 | the head of `ancestors` is `findParent`'s answer exactly when the parent is the root or is neither a list nor a record |
| FluidTree.LocateIsUnique | libshared/FluidExpression.ml:127-170 | with unique ids a node's position is the only one with its id |
| FluidTree.IdsOfReplaceAt | libshared/FluidExpression.ml:411-450 | exchanging the subtree at a position takes its ids out of the tree's and puts the new ones in |
| FluidEdit.Run | libshared/FluidExpression.ml:411-418 | the inner walk of `update` returns the functional update and sets `found` exactly when an id matched |
| FluidEdit.Update | libshared/FluidExpression.ml:411-430 | `update` returns the functional update and reports a missing target only when asked to |
| FluidEdit.UpdateOfMissing | libshared/FluidExpression.ml:411-430 | updating an id that is not in the tree changes nothing |
| FluidEdit.UpdateAtPosition | libshared/FluidExpression.ml:411-430 | with unique ids `update` applies `f` at the target's position and nowhere else |
| FluidEdit.ReplaceOfMissing | libshared/FluidExpression.ml:437-450 | replacing a missing target leaves the tree unchanged, pipes included |
| FluidEdit.ReplaceExchanges | libshared/FluidExpression.ml:437-450 | `replace` puts the replacement at the target's position and changes nothing else |
| FluidEdit.ReplaceSplices | libshared/FluidExpression.ml:437-450 | a pipe landing in a pipe replaces the parent by one pipe with the new elements in the target's place, in order |
| FluidEdit.ReplaceConservesIds | libshared/FluidExpression.ml:437-450 | ids of the result are ids of the tree minus the target's plus the replacement's |
| FluidEdit.SplicingConservesIds | libshared/FluidExpression.ml:437-450 | when a pipe lands in a pipe the parent's own id goes as well |
| FluidTraversal.PreTraversal | libshared/FluidExpression.ml:245-288 | terminates for every function that never increases the node count, and never increases it |
| FluidTraversal.LeafRewritesNeverGrow | libshared/FluidExpression.ml:245-288 | functions that rewrite only leaves to leaves are among these |
| FluidTraversal.KeepersNeverGrow | libshared/FluidExpression.ml:245-288 | functions that keep subexpressions are among these too |
| FluidTraversal.TraversalsAgreeOnLeafRewrites | libshared/FluidExpression.ml:245-336 | pre- and post-order traversal agree on functions that rewrite only leaves to leaves |
| FluidTraversal.PreTraversalMeetsEveryNode | libshared/FluidExpression.ml:245-288 | for an `f` that keeps subexpressions, the result has at each position what `f` makes of the node there |
| FluidTraversal.PostTraversalMeetsEveryNode | libshared/FluidExpression.ml:291-336 | for such an `f`, each node of the result is `f` of the node there with its subexpressions done |
| FluidTraversal.MyWalk | libshared/FluidExpression.ml:383-395 | the collecting walk leaves the tree alone and adds to the ref the yield of every node of the tree |
| FluidTraversal.FilterMap | libshared/FluidExpression.ml:383-395 | `filterMap` collects, as a multiset, what `f` yields on every node, each once |
| FluidTraversal.IdList | libshared/FluidExpression.ml:552-552 | `ids` is the multiset of the ids of all nodes |
| FluidTraversal.Decendants | libshared/FluidExpression.ml:402-408 | `decendants` is the same multiset, the root's id included |
| FluidPattern.NamesAreBound | libshared/FluidPattern.ml:82-93 | `hasVariableNamed` holds exactly if a variable of that name occurs in the pattern, at any depth |
| FluidRename.RenameKeepsBindingIff | libshared/FluidExpression.ml:454-486 | renaming keeps the nameless form, free `old` read as free `new`, exactly when no renamed use falls under a binder of `new` |
| FluidRename.FreeVariablesOfRenamed | libshared/FluidExpression.ml:454-486 | without capture the free variables are the old ones with `old` replaced by `new` |
| FluidRename.RenamingBackRestoresIff | libshared/FluidExpression.ml:454-486 | renaming back restores the tree exactly when `new` was not free in it and nothing was captured |
| FluidRename.RenameIsIdentityIff | libshared/FluidExpression.ml:454-486 | renaming changes nothing exactly when `old` is not free |
| FluidRename.RenameToFreshName | libshared/FluidExpression.ml:482-486 | a name that occurs nowhere is safe: binding structure kept, free variables renamed, renaming back restores |
| FluidRename.RenameTouchesOnlyUses | libshared/FluidExpression.ml:454-486 | all ids, binders, patterns and other text stay; only names of variable uses change |
| FluidClone.CloneIdsAccountedFor | libshared/FluidExpression.ml:494-547 | the ids of a clone, binders and patterns included, are the ids drawn, each once, plus the ids of left partials |
| FluidClone.CloneIsFreshIff | libshared/FluidExpression.ml:494-547 | if the generator neither repeats nor draws an old id, the clone's ids are pairwise distinct and all new exactly when the tree has no left partial |
| FluidClone.ClonedPatternsNameTheirMatch | libshared/FluidPattern.ml:61-79 | every pattern of a cloned match, at any depth, carries the new match's id |
| FluidClone.CloneKeepsAllButIds | libshared/FluidExpression.ml:494-547 | a clone and its original are the same tree once expression, variable, pattern and match ids are erased; flag names, field order and all other text are kept |
| FluidEquality.EqualIffSameErased | libshared/FluidExpression.ml:608-730 | `testEqualIgnoringIds` accepts two trees exactly when they are the same tree after erasing ids and flag names and sorting record fields |
| FluidEquality.EqualIsEquivalence | libshared/FluidExpression.ml:608-730 | the test is reflexive, symmetric and transitive |
| FluidEquality.SortIsStable | libshared/FluidExpression.ml:675-681 | record fields are compared after a stable sort by key |
| FluidEquality.FieldOrderIsIgnored | libshared/FluidExpression.ml:675-681 | two records with the same fields, no key twice, in any order pass the test |
| FluidEquality.CloneIsEqualIgnoringIds | libshared/FluidExpression.ml:494-547 | every tree and its clone pass the test |
| FluidHosts.UpdateHostsKeepsAllButStrings | backend/libbackend/canvas_clone.ml:68-104 | the host rewrite keeps every expression and pattern id, all binders and the shape |
| FluidHosts.UpdateHostsRewritesEveryString | backend/libbackend/canvas_clone.ml:68-104 | every string literal, in expressions and patterns, is rewritten once, in place |
| CanvasOps.OpIsLocal | backend/libbackend/canvas.ml:42-245 | an op's outcome on its own id depends only on that id's entries, and it changes no other id's |
| CanvasEffects.OpDoes | backend/libbackend/canvas.ml:42-245 | each of the 30 ops is refused exactly when it should be, and otherwise changes the entries of its id as stated op by op |
| CanvasEffects.LastOpDoes | backend/libbackend/canvas.ml:162-294 | the same of the last op of any oplist, all other ids keeping their entries |
| CanvasEffects.DbEditHasEffect | backend/libbackend/user_db.ml:598-773 | what each schema edit does to a datastore: which cells and columns change, the version of a new migration, where an abandoned one goes |
| Undo.CancelRedosPerId | backend/libbackend/undo.ml:34-49 | cancelling undo-redo pairs works on each id by itself |
| Undo.PreprocessPerId | backend/libbackend/undo.ml:12-77 | what preprocessing keeps for an id is what it keeps of that id's ops alone |
| Undo.PreprocessOfUndoFree | backend/libbackend/undo.ml:12-77 | without undos and redos preprocessing changes nothing |
| UndoRedo.UndoReturnsToSavepoint | backend/libbackend/undo.ml:50-77 | an undo drops its toplevel's ops back to and with the last savepoint and keeps the other toplevels' |
| UndoRedo.UndoStep | backend/libbackend/undo.ml:50-77 | one more undo takes the ops in force back to and with the last savepoint of its toplevel and keeps the other toplevels' |
| UndoRedo.UndoWithoutSavepoint | backend/libbackend/undo.ml:50-77 | if there is no savepoint it drops all ops of its toplevel |
| UndoRedo.RedosTakeUndosBack | backend/libbackend/undo.ml:34-49 | k undos and then m <= k redos of a toplevel leave the first k - m undos in force |
| UndoRedo.ExcessRedoIsRefused | backend/libbackend/undo.ml:47-48 | more redos than undos after an op that is no undo or redo of that toplevel are refused |
| UndoRedo.RedosRestoreCanvas | backend/libbackend/undo.ml:12-77 | on the canvas: k undos and m redos build what k - m undos build; k of each build the canvas there was |
| UndoRedo.RedoTakesUndoBack | backend/libbackend/undo.ml:34-49 | a redo right after an undo cancels it |
| UndoRedo.UndoRestoresCanvas | backend/libbackend/undo.ml:12-77 | savepoint, edits of one toplevel and an undo build the canvas there was before |
| UndoRedo.RedoRestoresCanvas | backend/libbackend/undo.ml:12-77 | undo then redo build the canvas there was before |
| CanvasReplay.CanvasRef.ApplyOp | backend/libbackend/canvas.ml:162-245 | the ref holds the result of the op, or is unchanged when it raises |
| CanvasReplay.CanvasRef.AddOps | backend/libbackend/canvas.ml:287-294 | the ref holds the replay of the preprocessed ops, and `ops` all ops grouped by id |
| CanvasReplay.ReplayIsLocal | backend/libbackend/canvas.ml:162-294 | after any replay an id's entries are those that its own ops leave from its own start |
| CanvasReplay.NewOpsReplayAsOld | backend/libbackend/canvas.ml:287-294 | ops that could be added as new replay as old ops to the same canvas |
| CanvasReplay.BuildPerId | backend/libbackend/canvas.ml:287-294 | the entries an oplist leaves for an id are those its ops leave alone, undo and redo included |
| CanvasReplay.GroupedReplayAgrees | backend/libbackend/canvas.ml:287-294 | if `add_ops` succeeds and no unmatched redo leads, replaying the ops grouped by id, groups in any order, gives the same eight maps |
| CanvasGrouping.OrderFreeIff | backend/libbackend/canvas.ml:287-294 | replaying the groups in every order gives the same eight maps exactly when no unmatched redo leads the ops or all ops are of one id |
| CanvasReplay.GroupByTlidIsGrouping | backend/libserialize/op.ml:222-229 | the grouping `add_ops` records has each id once with exactly its ops in order |
| CanvasReplay.LeadingRedoFailsWhenLast | backend/libbackend/undo.ml:34-49 | with an unmatched leading redo, the grouped form with that group last cannot be loaded |
| CanvasInvariant.OpKeepsWellFormed | backend/libbackend/canvas.ml:162-245 | every op keeps: no id live and deleted within a kind, entries filed under their own id, `dbs` only DBs, `handlers` only handlers |
| CanvasInvariant.EveryBuiltCanvasIsWellFormed | backend/libbackend/canvas.ml:287-294 | so every canvas built from any oplist is well formed and never fails with "not for a DB" |
| CanvasKinds.BuildLeavesOnlyKind | backend/libbackend/canvas.ml:162-294 | an oplist that creates one kind of toplevel leaves entries of that kind only |
| CanvasStore.ToplevelTable.SerializeOnly | backend/libbackend/canvas.ml:654-782 | the table becomes the specified one |
| CanvasStore.SavedRequested | backend/libbackend/canvas.ml:654-782 | the row of a requested id is written from its own oplist and its own entries |
| CanvasStore.SavedOthers | backend/libbackend/canvas.ml:654-782 | no other row changes |
| CanvasStore.WrittenRowOk | backend/libbackend/canvas.ml:654-782 | each written row is the rendering of its own oplist, whatever else was loaded |
| CanvasStore.SaveKeepsStoreOk | backend/libbackend/canvas.ml:654-787 | saving any ids keeps every row the rendering of its own oplist |
| CanvasStore.EveryReachableStoreIsOk | backend/libbackend/canvas.ml:654-787 | so do all sequences of saves |
| CanvasStore.LoadBuildsSlots | backend/libbackend/canvas.ml:442-504 | loading any selection of rows succeeds and builds, id by id, what each row's oplist builds |
| CanvasStore.SaveThenLoad | backend/libbackend/canvas.ml:442-790 | a canvas saved whole and loaded back is the same canvas |
| CanvasRows.RowShowsItsSlot | backend/libbackend/canvas.ml:680-767 | a row is marked deleted exactly if its oplist builds a deleted entry, live exactly if a live one and neither if none; rendered copy, position and type are that entry's |
| CanvasRows.UndeletedLoadBuilds | backend/libbackend/serialize.ml:73-86 | `load_only_undeleted_tlids` builds, of the requested ids, exactly the entries of those with no deleted entry |
| CanvasRows.FastSelectableIffLive | backend/libbackend/serialize.ml:96-117 | the fast loader selects exactly the requested rows with a live entry |
| CanvasCache.LoadFromCache | backend/libbackend/canvas.ml:525-582 | the merged canvas is the uncached one overlaid with what was read fast, the other tlids loaded from oplists |
| CanvasCache.RowServesItsOplist | backend/libbackend/serialize.ml:96-117 | a row marked live serves the one live entry its oplist builds; any other row has none live |
| CanvasCache.FastLoadIsExact | backend/libserialize/binary_serialization.ml:221-273 | the fast loader never meets an id twice and finds live what the oplists build, for the ids it read |
| CanvasCache.CacheAgreement | backend/libbackend/canvas.ml:525-594 | whichever live rows were read fast, the live maps equal a full replay's; with `load_only_tlids` the deleted maps too |
| CanvasCache.RowAgreesIff | backend/libbackend/canvas.ml:654-782 | a row serves its slot exactly when its rendered entry is the only live one and a handler is kept under its own id |
| CanvasClone.OnlyOpsSinceLastSavepoint | backend/libbackend/canvas_clone.ml:50-59 | the suffix from the last creating op on, or the whole list |
| CanvasClone.TrimPreservesMeaning | backend/libbackend/canvas_clone.ml:42-59 | trimming a single-kind oplist keeps all live and deleted entries if no undo or redo is among the kept ops |
| CanvasTrim.TrimIsExactIff | backend/libbackend/canvas_clone.ml:42-59 | with undos and redos too: trimming a single-kind oplist keeps what it builds exactly when there is nothing to drop, or no undo drops the creating op, or the oplist builds nothing |
| CanvasTrim.PreprocessSplits | backend/libbackend/undo.ml:12-77 | preprocessing all ops gives older ops followed by what the kept ops give alone, and the older ones are untouched if the creating op is left |
| CanvasClone.TrimCanLoseAnUndo | backend/libbackend/canvas_clone.ml:50-59 | an undo among the kept ops can reach into the dropped ones: the trimmed list builds nothing |
| CloneMeaning.HostsCommuteWithUpdate | backend/libbackend/canvas_clone.ml:68-104 | the host rewrite commutes with targeted updates of an expression |
| CloneMeaning.OpTracks | backend/libbackend/canvas_clone.ml:68-104 | a rewritten op does to rewritten entries what the op does to the entries, and fails when it fails |
| CloneMeaning.UpdatedOplistBuilds | backend/libbackend/canvas_clone.ml:139-161 | a rewritten oplist builds the rewritten canvas |
| CloneMeaning.KeptGroupsBuildIff | backend/libbackend/canvas_clone.ml:139-152 | the copied ops, before the rewrite, always build, and build the original canvas exactly when every trimmed oplist is trimmed without loss |
| CloneMeaning.AddAsNewIff | backend/libbackend/canvas_clone.ml:167-182 | adding saved ops as new succeeds exactly when no surviving op creates a nameless DB, with the same result |
| CloneMeaning.CloneSucceedsIff | backend/libbackend/canvas_clone.ml:115-182 | adding the copied ops to the new canvas succeeds exactly when no surviving op creates a nameless DB |
| CloneMeaning.CloneRendersOriginal | backend/libbackend/canvas_clone.ml:115-182 | if it does, every entry of the clone is the original's with hosts rewritten exactly when every trimmed oplist is trimmed without loss |
| CloneMeaning.CopiedOps | backend/libbackend/canvas_clone.ml:139-152 | everything is copied if history is preserved and of datastores; of anything else the ops from the last creating op on |
| CloneMeaning.PreservedHistoryRenders | backend/libbackend/canvas_clone.ml:115-182 | with its history preserved a canvas is always cloned faithfully |
| CloneMeaning.CloneVerifiesAlike | backend/libbackend/canvas.ml:265-367 | the clone passes the check of duplicate DB names exactly when the original does |
| CanvasVerify.RefusedIffNeighbours | backend/libbackend/canvas.ml:265-284 | `verify` refuses exactly the canvases in which two DBs of one name are neighbours among the named ones, in id order |
| CanvasVerify.VerifiedAlike | backend/libbackend/canvas.ml:265-284 | `verify` looks at nothing but which DBs there are and their names |
| EventQueue.DequeuedIsFree | backend/libbackend/event_queue.ml:195-207 | a dequeued event is committed as scheduled and held by no other transaction |
| EventQueue.StepKeepsInv | backend/libbackend/event_queue.ml:172-464 | every step keeps: exclusive leases on scheduled rows, put-backs only of held rows, retries within bounds, rules for workers only |
| EventQueueRuns.EventsAreAsSent | backend/libbackend/event_queue.ml:172-192 | at the end of any run event `id` carries exactly what the id-th insert gave it |
| EventQueueRuns.EventsAreConserved | backend/libbackend/event_queue.ml:172-464 | no step removes an event or changes its value, canvas, space, name or modifier |
| EventQueueRuns.DequeueTakesLowestFree | backend/libbackend/event_queue.ml:195-246 | dequeue takes the lowest-id scheduled event that no other transaction holds, exactly, and locks it |
| EventQueueRuns.LeasesAreExclusive | backend/libbackend/event_queue.ml:195-246 | in no reachable state do two transactions hold one event |
| EventQueueRuns.RollbackGivesBack | backend/libbackend/event_queue.ml:385-401 | a worker that dies leaves the rows unchanged and its events free for others |
| EventQueueRuns.StatusChanges | backend/libbackend/event_queue.ml:404-464 | the only status changes: new to scheduled by a tick, back by unscheduling a row nobody holds, and a commit's outcome |
| EventQueueRuns.ProcessedAtChanges | backend/libbackend/event_queue.ml:404-464 | `last_processed_at` is the start of the transaction that last put the event back, and nothing else sets it |
| EventQueueRuns.SettledForGood | backend/libbackend/event_queue.ml:404-464 | done, missing and error rows never change again |
| EventQueueRuns.RetriesAreBounded | backend/libbackend/event_queue.ml:404-464 | at most three Errs; `retries` counts them up to two; the status is error exactly after the third |
| EventQueueRuns.BackoffIsKept | backend/libbackend/event_queue.ml:404-464 | after Err or Incomplete the event is dequeued again only more than five minutes past the start of that transaction |
| EventQueueDue.TickSchedulesIff | containers/queue-scheduler/src/lib.rs:47-64 | a tick schedules a new event exactly when its time has passed and it is not for a stopped worker |
| EventQueueDue.BackoffEnds | backend/libbackend/event_queue.ml:434-463 | put back for another try the event is scheduled by a tick exactly when more than five minutes have passed since the start of that transaction and its worker is not stopped, whatever happens meanwhile |
| EventQueueDue.PutBackIsNew | backend/libbackend/event_queue.ml:434-463 | Err before the last retry, and Incomplete, make the row new again, due five minutes after the start of the transaction; only Err counts a retry |
| EventQueueDue.SentIsDue | backend/libbackend/event_queue.ml:172-192 | what a client sends is due at once |
| EventQueueDue.EmittedIsDue | backend/libbackend/libevent.ml:22-39 | what a worker emits has been due since its transaction began |
| EventQueueDue.RulesChange | backend/libbackend/event_queue.ml:344-379 | adding and removing change the one rule for that worker and nothing else changes any |
| EventQueueFifo.DequeueDeliversNext | backend/libbackend/event_queue.ml:195-207 | while all scheduled events are older than all new and uncommitted ones, a dequeue that finds something finds the next event |
| EventQueueFifo.StepKeepsFifo | containers/queue-scheduler/src/lib.rs:47-64 | every step keeps this order, a tick if the events it schedules are older than those it leaves behind |
| EventQueueFifo.DeliversInOrder | backend/libbackend/event_queue.ml:172-207 | with one worker, no rules, only OK or Missing, and emits allowed: if every tick is in order, what was delivered is a prefix of what was sent |
| EventQueueFifo.EmitFreeDeliversInOrder | backend/libbackend/event_queue.ml:172-207 | without emits every tick is in order, so what was delivered is a prefix of what was sent in every interleaving |
| EventQueueOvertaking.BadTickBreaksOrder | containers/queue-scheduler/src/lib.rs:47-64 | after a tick that leaves an older event behind, the worker left alone delivers out of order |
| EventQueueOvertaking.InOrderIff | backend/libbackend/event_queue.ml:172-207 | delivery is first in, first out wherever the run is stopped and the worker left alone, exactly when every tick schedules only events older than all it leaves behind |
| EventQueueOvertaking.ContentsShowOrder | backend/libbackend/event_queue.ml:172-207 | if no two events sent are alike, what was delivered is a prefix of what was sent exactly when ids come in order |
| EventQueueOvertaking.EmitCanBeOvertaken | backend/libbackend/libevent.ml:22-39 | an emit appears at its worker's commit: a run in which a later event is delivered first |
| EventQueueOvertaking.EmitCanOvertake | backend/libbackend/libevent.ml:22-39 | an emit is due from the start of its transaction: a run in which it is delivered before an earlier event |
| EventQueueOvertaking.CrashRedelivers | backend/libbackend/event_queue.ml:385-401 | a worker that dies with an event in hand: a run in which it is delivered twice |
| EventQueueRules.StoppedRunSchedulesNothing | containers/queue-scheduler/src/lib.rs:47-64 | while a rule for a worker exists nothing of it becomes scheduled |
| EventQueueRules.UnscheduleClears | backend/libbackend/event_queue.ml:344-365 | the second statement unschedules all events of the worker and touches no other |
| EventQueueRules.StoppedWorkerStaysStopped | backend/libbackend/event_queue.ml:344-372 | after both statements nothing of the worker is scheduled or dequeued while any block or pause rule for it remains |
| EventQueueRules.AddedRuleStopsWorker | backend/libbackend/event_queue.ml:344-372 | so with any steps between and after the statements, until that rule is removed |
| EventQueueRules.ReportIsExact | backend/libbackend/event_queue.ml:311-336 | a worker shows Blocked iff it has a block rule, else Paused iff it has a pause rule, else Running; ruled handlers that are not listed are added |
| EventQueueRules.ReportAgreesWithTick | containers/queue-scheduler/src/lib.rs:47-64 | in every reachable state a due new event of a listed worker is scheduled by a tick exactly when the worker shows Running |
| EventTables.Tables.Enqueue | backend/libbackend/event_queue.ml:172-192 | the tables take the enqueue step |
| EventTables.Tables.TickOnce | containers/queue-scheduler/src/lib.rs:29-64 | the tables take the tick step and the number of rows scheduled is returned |
| EventTables.Tables.Dequeue | backend/libbackend/event_queue.ml:195-246 | the item returned is the dequeued row, with its retries and its delay at the start of the transaction |
| EventTables.Tables.PutBack | backend/libbackend/event_queue.ml:404-464 | the transaction records the outcome of an item it holds |
| EventTables.Tables.EndTransaction | backend/libbackend/event_queue.ml:385-401 | commit writes the outcomes and inserts, and releases the rows |
| EventTables.Tables.DequeueAndProcess | backend/libbackend/event_queue.ml:385-464 | dequeue, put back and commit: the lowest scheduled event nobody holds gets the outcome, and nothing else changes |
| EventTables.Tables.AddSchedulingRule | backend/libbackend/event_queue.ml:344-365 | both statements: the worker has a rule and nothing scheduled |
| EventTables.Tables.RemoveSchedulingRule | backend/libbackend/event_queue.ml:370-379 | the rule is gone and nothing else changed |
| Base64Url.DecodeOfEncode | backend/libtarget.js/libtarget.js:9-92 | decoding the encoding of any bytes returns them |
| Base64Url.EncodeOfDecodeIff | backend/libtarget.js/libtarget.js:9-92 | encoding the decoding of a string returns it exactly when it is canonical: whole groups, alphabet, final padding, zero trailing bits |
| Base64Url.EncodeIsCanonical | backend/libtarget.js/libtarget.js:59-92 | the output is 4*ceil(n/3) long, of alphabet characters and final padding |
| Base64Url.InvalidReadsAsA | backend/libtarget.js/libtarget.js:2-8 | characters outside the alphabet are silently read as zero |
| Base64Url.DecodeReadsOn | backend/libtarget.js/libtarget.js:9-56 | any string, whatever its length and characters, decodes to the first bytes of what it decodes to once continued with `A` to whole groups |
| Base64Url.WrapperRoundTrip | backend/libtarget.js/libtarget.ml:63-87 | the checked decoder accepts every encoder output and returns the bytes |
| Base64Url.LookupTable | backend/libtarget.js/libtarget.js:16-20 | the loop fills the table with the position of each alphabet character and zero elsewhere |
| Base64Url.FromPaddedB64Url | backend/libtarget.js/libtarget.js:9-56 | the loop over groups, with out-of-range reads as zero and out-of-range writes dropped, computes the decoding |
| Base64Url.ToPaddedB64Url | backend/libtarget.js/libtarget.js:59-92 | the loop (in `EncodeGroups`) and the final substring compute the encoding |
| AnalysisQueue.StepKeepsInv | client/src/appsupport.js:246-303 | every request, timer and callback keeps the queue's invariant |
| AnalysisQueue.OneInFlight | client/src/appsupport.js:246-303 | one message in flight when busy and none otherwise, `next` set only when busy, posted messages a subsequence of the accepted requests |
| AnalysisQueue.LatestWins | client/src/appsupport.js:246-303 | whenever idle, the last message posted is the last request accepted |
| AnalysisQueue.PostedStandsForRequest | client/src/appsupport.js:285-303 | every message posted is the JSON text of an accepted request, or the failed input itself |
| AnalysisQueue.RequestsAreAccountedFor | client/src/appsupport.js:272-283 | every request was accepted or waits on a timer, and nothing is posted before initialization |
| AnalysisQueue.SettlesAfterTwoAnswers | client/src/appsupport.js:254-270 | left alone, the queue is idle after at most two answers with the waiting message posted |
| AnalysisQueue.LastRequestWinsIff | client/src/appsupport.js:246-303 | after initialization a request is the last one run, whatever timers and answers follow it, exactly when no request for something else still waits on a timer |
| AnalysisQueue.LastRequestWins | client/src/appsupport.js:246-303 | if the worker was initialized before any request, no timer is ever set and, whenever idle, the last message posted is that of the last request made |
| AnalysisQueue.EarlyRequestCanWin | client/src/appsupport.js:272-283 | a request made before initialization is retried by its timer and can displace a later one |
| AnalysisQueue.FSharpAnalysis.RequestAnalysis | client/src/appsupport.js:272-303 | the object takes the request step |
| AnalysisQueue.FSharpAnalysis.OnMessage | client/src/appsupport.js:254-270 | the object takes the callback step |

## Left out

- SQL text, connections, telemetry, logging and JSON or binary encodings: only the row-level effect of each statement is kept; the binary formats of rendered copies are assumed to decode only as what they encode.
- The name, module and modifier columns of stored rows, with the pattern munging of HTTP routes, and `package_fns`, CORS, owner and host of a canvas: carried along unchanged by the code modelled.
- Column types in ops are represented by the outcome of `Dval.tipe_of_string`, because its parser is outside the core.
- CanvasCache.LoadFromCache: takes `verify` as any check of the loaded canvas; CanvasVerify has the one of the source, whose error messages are not modelled.
- `testEqualIgnoringIds` on lambdas, records or matches of different lengths raises in the source and is false here.
- The order in which constructor arguments draw ids is unspecified in the source; the model draws for the node itself, then for its variables or all its patterns, then for its subexpressions from left to right.
- FluidEdit.Update: the message reported for a missing target is a flag here, not the text the source shows.
- CanvasClone.TrimPreservesMeaning: the case without undos among the kept ops; CanvasTrim.TrimIsExactIff has the exact condition.
- CloneMeaning.CloneRendersOriginal: asks that each trimmed oplist creates one kind of toplevel and that each id's ops begin with no unmatched redo.
- CanvasReplay.GroupedReplayAgrees: excludes an unmatched redo at the front, where the result depends on the order of the groups; CanvasGrouping.OrderFreeIff has the exact condition.
- EventQueueFifo.DeliversInOrder: leaves out workers that die with an event in hand or with uncommitted emits; the former is delivered again (EventQueueOvertaking.CrashRedelivers), the ids of the latter are never delivered.
- A worker puts an item back once per dequeue, as queue_worker.ml does; scheduling rules changed from inside a handler's transaction are not modelled.
- `schedule_all`, which bypasses the rules and is marked for tests only, and queue-size logging.
- Handler execution between dequeue and put-back: its outcome is a parameter.
- `toHumanReadable`, `findExprOrPat`, `removeVariableUse`, `isEmpty` and the shortcuts of `FluidAST.ml` and `FluidShortcuts.ml`: thin functions over the tree.
- The remaining parts of `appsupport.js` and the SHA helpers of `libtarget.js`: library calls.
- JavaScript strings are sequences of characters here, each standing for one UTF-16 code unit.
- Accounts, authentication, cron, stroller and garbage collection: not part of this model.
