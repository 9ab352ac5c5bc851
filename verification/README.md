# A verified model of the lecture-capture core

This project models, in Dafny 4.11, the parts of the repository that keep state
under concurrency, and proves what they promise. `dafny verify dfyconfig.toml`
checks it.

**The durable task engine.** `EngineRows` has the two tables and each guarded SQL
statement as a function. `EngineRun` interleaves any number of orchestrators,
executions, reaps, crashes and clock ticks over them. `EngineRefinement` proves
that each workflow nevertheless runs as one sequential interpreter of its
definition would, and that a verdict is final. `EngineFencing` proves that a
reaped execution is out for good, and for which owner strings. `EngineHistory`
proves what a row remembers of its run: its last lease, the writes of the completion
that won, its one winner per attempt. `EngineProgress` bounds the work of a workflow
and proves that spaced passes end it. `EngineDatabase` is the engine as a class with
tables as fields, and `EngineSteps` proves that its pass is a run of the interleaved
model. `Fanout` is the resident worker: the
admission ledger, the poll loop and the slot exits, interleaved.

**The search projection and the access rules.** `Acl` has the one deny rule and
the five places that decide by it. `SearchModel` has the tables, the projection
and each writer transaction; `SearchWrites` states what each writer changes and what
each row shows, on the stored rows alone; `SearchTheory` and `SearchRuns` prove that the
projection equals its rebuild over every run of writers, with its one exception
stated exactly; `SearchStore` is the same writers in place, each keeping the
projection the rebuild but for a tracked set of stale rows. `PinHistory`
proves what a publication's pin remembers. `Visibility` relates what a listing
shows to what delivery serves.

**The collector and the archive.** `Collector` splits a mark-sweep pass into the
statements it issues and interleaves them with writers, uploads, the clock and
crashes; `CollectorGrace` proves what the grace protects and by when garbage is
gone; `CollectorSweep` is the pass as the loop it is, tied to the interleaved
model. `ArchiveVersions` proves that the archive is closed under the mark set,
`ArchiveStore` has its operations, and `Manifest` the canonical order.

**The migration runner and its splitter.** `Splitter` has the statement splitter
as a token specification and the index loop that refines it, `SplitterTokens` what
each token is, `SplitterLaws` its laws, `SchemaStep` the plan check. `SchemaRuns` and
`SchemaSafety` interleave competing, crashing runners; `SchemaRunner` is one run as
loops, with resumption and edited histories, and `SchemaRefinement` proves it a
schedule of the interleaved model.

## What the proofs found

Each of these is a theorem with an exact condition, or with a concrete run.

- An execution is fenced in every run exactly when tasks have but one attempt or it
  does not carry the shared owner string of the engine's own dispatcher, which cannot
  tell two dispatchers of one task apart (`FencedExactlyWhenNotDispatcher`).
- A worker keeps within its capacity in every run exactly when no capacity is
  configured or no task states a negative spec, which nothing refuses
  (`CapacityHoldsExactlyFromZero`).
- Moving a published event out of a series leaves that series' projected row stale,
  although the comments of `internal/search/project.go` say that a projection can
  never drift; exactly when the row depended on the event (`MoveAgreesExactly`).
- The overlap of roles with a projected array and the veto of `Evaluate` differ for
  some principal exactly when the policy both grants and denies the action
  (`OverlapDecidesExactlyWithoutVeto`).
- The comment of `internal/serve/authz.go` says that seeing and fetching never
  diverge. They agree for every non-admin exactly when each pinned role is still
  honoured by the listing; a role that has since left the live vocabulary is
  delivered and not listed (`ListingMeetsDeliveryExactly`).
- A commit is safe from the collector exactly when each digest it references is
  stored, does not stand between its recheck and its delete, and is visible to the
  pass in progress or not to be listed by it again (`CommitIsSafeExactly`). A url map
  created during a pass is not visible to it (`MidPassMapIsMissed`,
  `OnlyNewMapHides`).
- The grace protects an object exactly when no older ledger row for it exists. Two
  crashes leave one: between a delete and its ledger clear, and between a recheck
  that finds a reference and its ledger clear (`KeptForGraceExactly`,
  `SightingRestartsGrace`).
- A snapshot that commits after its event's tombstone leaves a version whose bytes
  nothing references (`CommitClosesExactly`, `TombstoneBetweenOpensArchive`).
- Splitting, joining and splitting again is the identity exactly when each statement
  is still one statement once its comments are gone (`SplitJoinSplit`). The splitter
  drops a comment without leaving a space, so its neighbours can form a new token
  (`CommentsGlueTokens`).
- The canonical manifest is unique exactly when elements with the same kind, flavor
  and id are equal (`CanonicalExactly`).

## Model

| member | source | states |
|---|---|---|
| EngineRefinement.RunsLikeInterpreter | internal/engine/engine.go:254-371 | over every run the visible mutations of a workflow are operations 0..c-1 in order, each once; c counts the FINISHED tasks and is current_op or one more; SUCCEEDED exactly when all ran, FAILED only with its current task failed and no later task |
| EngineRefinement.NextSimulates | internal/engine/engine.go:304-333 | every step of anyone stutters or makes one step of the sequential interpreter, and adds the mutation of operation `done` exactly then |
| EngineRefinement.DoneCountsFinished | internal/engine/engine.go:470-497 | the visible mutations of a workflow are as many as its FINISHED tasks |
| EngineRefinement.NextKeepsSettledRow | internal/engine/schema.sql:49-65 | no statement of the engine changes a FINISHED or FAILED row, so the terminal-write trigger never fires |
| EngineRefinement.VerdictIsFinal | internal/engine/engine.go:304-333 | after a verdict no action changes the workflow, its tasks or its mutations, and none adds a task |
| EngineHistory.StoreIsWhatWasPublished | internal/engine/engine.go:466-497 | over every run the visible mutations are the writes of the completions that won their guard, in that order: nothing a winner wrote is lost or changed, nothing a loser wrote is seen |
| EngineHistory.CompletionIsNextMutation | internal/engine/engine.go:470-497 | a winning completion's writes become the next mutation of its workflow, number `done` |
| EngineHistory.RunsWhatWasGiven | internal/engine/engine.go:226-238 | a workflow runs the definition it was created with, operation by operation, and succeeds exactly when all of them have run |
| EngineHistory.ReapTakesExactlyTheOverdue | internal/engine/engine.go:271-300 | in every run a reap statement takes exactly the live rows whose last lease, counted from when it was given, has run out, by attempts left |
| EngineHistory.LeaseProtects | internal/engine/engine.go:271-300 | a row assigned, started, renewed or requeued at t with lease L is left alone by both reap statements until the clock passes t + L, unless a shorter lease is given in between |
| EngineHistory.RowEndsExactly | internal/engine/engine.go:470-514 | a live row finishes exactly by a completion of an execution that holds it, and fails exactly by a failure of one or when it is overdue without attempts |
| EngineHistory.SingleWinner | internal/engine/engine.go:431-447 | of any executions over-provisioned for one attempt of a task, of whatever kind, at most one ever starts it |
| EngineHistory.FirstStartWins | internal/engine/engine.go:431-447 | and the first to try does, holds the row, and puts the others out |
| EngineHistory.PhasesMoveExactly | internal/engine/inline.go:82-132 | when an execution gets to work and when it stops: by a lost start, its own terminal write, giving up, or the end of its process |
| EngineHistory.SpawnsExactly | internal/engine/inline.go:52-60 | who may set out on a task: a live core process under a new serial, a live worker not yet on the task, the dispatcher |
| EngineHistory.InflightEndsExactly | internal/worker/fanout.go:183-191 | a worker's place on a task is free again exactly when its execution has left its slot |
| EngineHistory.StoppedIsSilent | internal/engine/inline.go:82-132 | an execution that has stopped never changes the database again |
| EngineHistory.CrashIsFinal | internal/engine/inline.go:82-132 | a crash ends every execution of its process for good |
| EngineRun.NextKeepsInv | internal/engine/engine.go:254-371 | every step keeps the invariant: one row per operation, attempts within bounds, a running workflow's current_op within its definition, stale candidates harmless |
| EngineRun.RunKeepsInv | internal/engine/schema.sql:37-41 | the invariant holds over every run |
| EngineRun.CompleteKeepsInv | internal/engine/engine.go:470-497 | the completion that finishes a task publishes its mutation, writes included, and keeps the invariant, so it is the next one of its workflow |
| EngineRun.NextRowsStay | internal/engine/engine.go:337-355 | no statement deletes a task row or changes its key |
| EngineFencing.AttemptsCountReaps | internal/engine/engine.go:271-300 | a statement keeps a row's attempt, or raises it by one by reaping an expired lease |
| EngineFencing.ExecutionsAreFenced | internal/engine/inline.go:52-76 | in every run every inline and worker execution can renew, complete or fail only in the attempt it started |
| EngineFencing.ReapedStaysOut | internal/engine/inline.go:82-132 | once reaped, an execution never passes a guard again, however its task is reassigned |
| EngineFencing.DispatcherIsNotFenced | internal/engine/engine.go:136-153 | the run in which a stalled dispatcher passes the guard of the attempt a second dispatcher started |
| EngineFencing.FencedExactlyWhenNotDispatcher | internal/engine/engine.go:136-153 | executions with an owner string are fenced in every run exactly when it is not the dispatcher's or tasks have but one attempt |
| EngineProgress.StepLowers | internal/engine/engine.go:271-353 | no step raises a workflow's potential, and any change but a lease renewal lowers it |
| EngineProgress.WorkIsBounded | internal/engine/engine.go:271-353 | a workflow of n operations is changed at most n*(2M+2) times in any run |
| EngineProgress.PassMakesProgress | internal/engine/engine.go:254-268 | a pass that begins past the current lease brings a running workflow strictly closer to its verdict, whatever interleaves, unless its last attempt is renewed between the two reap statements |
| EngineProgress.QuietGapKeepsSpacing | internal/engine/engine.go:271-300 | nothing but a renewal between the two reap statements can spoil that |
| EngineProgress.OrdinaryPassIsSpaced | internal/engine/engine.go:254-268 | the pass of an orchestrator left alone qualifies, whatever it requeues and whatever lease it gives |
| EngineProgress.WorkflowsEnd | internal/engine/engine.go:254-371 | after n*(2M+2) spaced passes a workflow has its verdict |
| EngineDatabase.Engine.constructor | internal/engine/engine.go:216-222 | non-positive options fall back to the defaults |
| EngineDatabase.Engine.CreateWorkflow | internal/engine/engine.go:226-238 | an empty definition is refused and changes nothing; any other gets a fresh row |
| EngineDatabase.Engine.StartTask | internal/engine/engine.go:433-447 | wins an assigned row, or reports it lost and changes nothing |
| EngineDatabase.Engine.RenewLease | internal/engine/engine.go:450-464 | on a row it holds the lease ends the given time from now; any other is reported lost |
| EngineDatabase.Engine.CompleteTask | internal/engine/engine.go:470-497 | what the mutation wrote is published, as it is, with the terminal write, and dropped when the mutation or the guard fails |
| EngineDatabase.Engine.FailTask | internal/engine/engine.go:501-514 | fails a row it holds, or reports it lost |
| EngineDatabase.Engine.ProvisionOne | internal/engine/engine.go:111-153 | an operation nobody can run fails at once, any other row is left to its executor |
| EngineDatabase.Engine.ProvisionAll | internal/engine/engine.go:111-153 | the same for every row of a pass |
| EngineDatabase.Engine.Reap | internal/engine/engine.go:271-300 | requeues exactly the expired rows with attempts left, and fails the exhausted ones |
| EngineDatabase.Engine.Advance | internal/engine/engine.go:304-333 | moves workflows past finished tasks and defeats those whose task failed |
| EngineDatabase.Engine.ReadCandidates | internal/engine/engine.go:337-355 | exactly the running workflows without a row for their current operation; indexing past a definition fails the statement |
| EngineDatabase.Engine.InsertCandidates | internal/engine/engine.go:337-371 | one row per workflow in need, nothing else changed |
| EngineDatabase.Engine.Assign | internal/engine/engine.go:358-371 | the rows are committed before they are provisioned |
| EngineDatabase.Engine.Step | internal/engine/engine.go:254-268 | on a database that satisfies the engine's invariant a pass is its four updates and the assignment in that order, always succeeds, keeps the invariant, leaves no running workflow without a row for its current operation, and is a run of the interleaved model |
| EngineDatabase.InsertedKeepsInv | internal/engine/engine.go:337-371 | the rows of one assignment keep the engine's invariant together |
| EngineSteps.PassIsRun | internal/engine/engine.go:254-371 | what a pass leaves in the database is what its statements, issued one after the other in source order by the interleaved model, leave there |
| Fanout.Admitter.TryAdmit | internal/worker/fanout.go:59-78 | admits exactly what fits beside the sum of what is outstanding, which then gains it; while no admitted spec was negative that sum is within capacity |
| Fanout.Admitter.Release | internal/worker/fanout.go:80-86 | what is outstanding loses one admission of the spec, and use stays its sum and within capacity |
| Fanout.AdmissionConserves | internal/worker/fanout.go:105-213 | in every run use is what was admitted and not released, no task is on two slots, and with non-negative specs capacity and slots hold |
| Fanout.ExitFreesEverything | internal/worker/fanout.go:183-191 | a slot's exit gives back the charge, the slot and the place in the inflight map |
| Fanout.ChargedAsStated | internal/worker/fanout.go:89-100 | in every run each task on a slot is charged, dimension by dimension, what its candidate stated, or the default where that is zero |
| Fanout.TakenExactly | internal/worker/fanout.go:155-183 | a candidate is taken exactly when no slot is on the task and its cooldown is over, and admitted exactly when it fits |
| Fanout.CooldownHolds | internal/worker/fanout.go:160-213 | a task that failed before its claim is not taken again before its cooldown is over, whatever happens in between |
| Fanout.NegativeCostOverdraws | internal/worker/fanout.go:59-86 | for any slots, default and constrained dimension, a run with a negative spec that leaves the ledger over capacity |
| Fanout.CapacityHoldsExactlyFromZero | internal/worker/fanout.go:89-100 | with non-negative defaults capacity holds in every run exactly when no spec is negative or no capacity is configured |
| Acl.OverlapDecidesExactlyWithoutVeto | internal/acl/acl.go:132-151 | overlap with the granted roles decides like the rule for every principal exactly when the policy does not both grant and deny |
| Acl.GrantedSays | internal/search/project.go:50-67 | the evaluated roles are those with a stored allow and no stored deny, the state is no policy, one without entries or one with |
| Acl.AclStore.SetTx | internal/acl/acl.go:67-88 | full replace by the set of entries; an empty role or action is refused |
| Acl.AclStore.Get | internal/acl/acl.go:93-125 | what is stored, denies included, each entry once, and the three-valued state |
| Acl.Evaluate | internal/acl/acl.go:132-151 | allowed exactly when the policy is populated, grants a held role and denies none |
| Acl.GrantedIsAllAllow | internal/adminapi/adminapi.go:383-407 | the subtracting set and the deny-sticky fold agree for every entry list |
| Acl.AccessBlock | internal/adminapi/adminapi.go:372-407 | in any order of entries a role shows as readable or writable exactly when it is granted |
| Acl.WriteDenied | internal/adminapi/write.go:95-108 | some held role is denied write |
| Acl.CanWriteEvent | internal/adminapi/write.go:112-129 | for a non-admin: no held write deny, and a held grant or the direct grant |
| Acl.Authorized | internal/serve/authz.go:36-54 | admin, or some containing pin meets the held roles or its event's direct grant is held |
| SearchRuns.TransactionAgrees | internal/search/project.go:148-270 | every writer leaves all event rows and all series rows but those left by a move equal to the rebuild |
| SearchRuns.RunAgrees | internal/search/project.go:272-332 | the same over every run, the series rows that may be stale computed along it |
| SearchRuns.ProjectionIsRebuilt | internal/search/project.go:272-332 | without such a move the projection is the rebuild after every run, and a rebuild makes it so after any |
| SearchRuns.MoveAgreesExactly | internal/mediapackage/write.go:68-95 | a move keeps the projection equal to the rebuild exactly when the left series' row does not depend on the event |
| SearchRuns.MovedEventLeavesStaleSeries | internal/mediapackage/metadata.go:53-80 | a move that leaves a stale series row |
| SearchWrites.RowsShowTables | internal/search/project.go:40-129 | after every run exactly the live events are listed, every column as the stored rows give it, and the same for every series not left by a move |
| SearchWrites.PolicyChangesExactly | internal/acl/acl.go:67-88 | a policy changes exactly by a write for it or by an overriding series write while the event is a live member, and then holds exactly the entries given |
| SearchWrites.MetadataChangesExactly | internal/mediapackage/metadata.go:53-80 | a metadata row changes exactly by a write for it that does not fail |
| SearchWrites.EventRowChangesExactly | internal/mediapackage/tech.go:37-41 | event rows appear by materialisation alone and never go, are tombstoned once, and have their duration set once |
| SearchWrites.CatalogColumnsChangeExactly | internal/mediapackage/write.go:68-95 | who changes an event's title, start and series |
| SearchWrites.SeriesChangesExactly | internal/mediapackage/metadata.go:84-101 | a series' metadata is its last write's, and a tombstone survives it |
| SearchWrites.PinsChangeExactly | internal/mediapackage/metadata.go:133-158 | a publication appears by a publish, with the read roles and the state of that instant, or by a migrated pin, and goes with its event |
| SearchWrites.TombstonesAndDurationsStay | internal/mediapackage/write.go:140-194 | over every run a tombstone and a set duration stay |
| SearchTheory.EventTransactionAgrees | internal/search/project.go:148-166 | refreshing the event and its present series re-establishes all but the series it left |
| SearchTheory.SeriesTransactionAgrees | internal/search/project.go:170-215 | refreshing a series and its live members re-establishes everything |
| SearchStore.Store.RefreshSeriesRow | internal/search/project.go:196-215 | a tombstoned or vanished series loses its row, any other is re-derived |
| SearchStore.Store.RefreshEvent | internal/search/project.go:148-166 | a tombstoned event loses its row, and its series is refreshed; a missing event fails |
| SearchStore.Store.RefreshSeries | internal/search/project.go:170-194 | every live member's row, then the series' own |
| SearchStore.Store.SetACL | internal/search/project.go:258-270 | the transaction of that name, rolled back whole on an unwritable entry or a missing event |
| SearchStore.Store.SetSeriesACL | internal/search/project.go:221-254 | the series policy, and with override exactly every live member's |
| SearchStore.Store.SetMetadata | internal/mediapackage/metadata.go:53-80 | the transaction of that name |
| SearchStore.Store.SetEventDC | internal/mediapackage/write.go:68-95 | the archive row is written only while the event is live |
| SearchStore.Store.PutSeries | internal/mediapackage/metadata.go:84-101 | replaces the metadata and keeps a tombstone |
| SearchStore.Store.Publish | internal/mediapackage/metadata.go:108-158 | pins the roles with a read allow and no read deny, and the state of this instant |
| SearchStore.Store.TombstoneEvent | internal/mediapackage/write.go:140-173 | retracts a live event once, its publications with it |
| SearchStore.Store.TombstoneSeries | internal/mediapackage/write.go:178-194 | retracts a live series once, members untouched |
| SearchStore.Store.Rebuild | internal/search/project.go:278-332 | the two loops leave exactly the rebuild, and no stale row |
| PinHistory.PinRemembersLastPublish | internal/mediapackage/metadata.go:133-158 | over every native run a publication exists exactly when its last publish was not retracted, and holds the roles with a read allow and no read deny at that instant, and its state |
| PinHistory.ListedRolesAreLastPublish | internal/search/project.go:68-69 | the projected pub_read is the roles with a read allow and no read deny at the last engage publish |
| PinHistory.AclEditsDoNotLeak | internal/mediapackage/metadata.go:103-107 | an ACL edit changes no pin and no projected pub_read |
| Visibility.GrantsParseExactly | internal/search/query.go:59-78 | a role parses as a direct grant of an id exactly when it is the minted one |
| Visibility.PlainExactly | internal/search/query.go:59-78 | a role is plain exactly when it is nobody's direct grant |
| Visibility.Split | internal/search/query.go:63-78 | plain roles and direct grants, in order |
| Visibility.Prune | internal/search/query.go:83-102 | the distinct roles that some stored entry names |
| Visibility.Lists | internal/search/query.go:145-173 | the listing's clauses on one row, surface by surface |
| Visibility.ArchiveListingMeaning | internal/search/query.go:150-165 | with an up-to-date projection pruning hides nothing: a row is listed exactly by granted plain roles and direct grants |
| Visibility.EngageListingExactly | internal/search/query.go:166-173 | who sees which event on engage: published on any channel, and an admin, the direct grant, or a plain pinned role that some stored entry names |
| Visibility.AdminsSeeEverything | internal/search/query.go:46-57 | an admin's listings leave out nothing but, on engage, the unpublished |
| Visibility.ListingMeetsDeliveryExactly | internal/search/query.go:166-173 | for an element served from the engage publication, seeing and fetching agree for every non-admin exactly when every pinned role is still honoured |
| Collector.NextKeepsInv | internal/gc/gc.go:156-207 | the object in hand is stored, and past the expiry check its row has expired |
| Collector.SeenExactly | internal/gc/gc.go:101-131 | mark and recheck find a digest exactly when it is an element's, a snapshot's manifest or source document, or in the url map the query includes |
| Collector.ReferencedNeverDeleted | internal/gc/gc.go:46-68 | lawful commits, in any interleaving with passes, uploads and crashes, never lose a referenced object |
| Collector.CommitIsSafeExactly | internal/gc/gc.go:101-112 | any commit is safe whatever the collector does next exactly when each digest it references is stored, not between its recheck and its delete, and visible to the pass or not to be listed by it again |
| Collector.OnlyNewMapHides | internal/gc/gc.go:125-131 | only a url map created during a pass hides references from it |
| CollectorGrace.KeptForGraceExactly | internal/gc/gc.go:16-31 | a stored object is kept for a full grace under every continuation exactly when no older ledger row for it exists |
| CollectorGrace.SightingRestartsGrace | internal/gc/gc.go:164-196 | clearing a referenced object's row restarts its grace; before the clear after a recheck it does not |
| CollectorGrace.CompletePairsProtectUploads | internal/gc/gc.go:197-202 | while delete and clear stay together the ledger never outlives the store, and every upload of an absent object is kept for a grace |
| CollectorGrace.UploadThenReferenceIsSafe | internal/gc/gc.go:37-49 | an absent object that is uploaded and referenced less than a grace later is lawfully referenced and never deleted while it is |
| CollectorGrace.MidPassMapIsMissed | internal/gc/gc.go:101-135 | a url map created during a pass is not rechecked |
| CollectorGrace.GarbageIsReclaimed | internal/gc/gc.go:156-207 | garbage is gone by t + 2 gap + grace + 2 length while passes complete |
| CollectorGrace.UnreferencedIsGoneInTime | internal/gc/gc.go:156-207 | the same from the moment the last reference went |
| CollectorSweep.ReportAddsUp | internal/gc/gc.go:89-94 | objects are referenced, candidates or swept, each counted once |
| CollectorSweep.UninterruptedPass | internal/gc/gc.go:156-207 | the steps of one pass, in any listing order, leave exactly what the sweep method leaves |
| CollectorSweep.Gc.MarkSet | internal/gc/gc.go:114-148 | refuses when a reference table is absent, else exactly the digests some reference row names, the source documents of migrated snapshots included |
| CollectorSweep.Gc.VisitObject | internal/gc/gc.go:163-205 | one object's statements and its count |
| CollectorSweep.Gc.Sweep | internal/gc/gc.go:156-207 | deletes exactly the expired objects that mark and recheck find unreferenced, keeps exactly the candidates' rows, and its counters add up |
| ArchiveVersions.ArchiveIsClosed | internal/ops/inline.go:85-146 | in every run without a tombstone between a snapshot's read and its commit every digest named in a retained manifest is in the mark set |
| ArchiveVersions.CommitClosesExactly | internal/ops/inline.go:135-146 | a snapshot's commit keeps the archive closed exactly when every digest it read is still referenced |
| ArchiveVersions.VersionsChangeExactly | internal/migrate/migrate.go:337-377 | a version appears by a snapshot's commit with what its task read, or by a migration with the recorded content of its links, and goes with its event |
| ArchiveVersions.TasksChangeExactly | internal/ops/inline.go:84-114 | a snapshot task holds exactly the digests of the elements it selected |
| ArchiveVersions.EventsChangeExactly | internal/mediapackage/write.go:140-173 | an event is known from its registration on, and live until its tombstone |
| ArchiveVersions.RowsChangeExactly | internal/migrate/migrate.go:630-651 | elements go only with their event, and a link keeps its first content |
| ArchiveVersions.TombstoneBetweenOpensArchive | internal/mediapackage/write.go:140-173 | the run in which a tombstone falls between |
| ArchiveVersions.ClosedArchiveIsRestorable | internal/ops/inline.go:238-256 | over any lawful run of the collector the bytes of a closed archive, the source documents of its migrated versions included, are in the store |
| ArchiveStore.Store.ReadElements | internal/ops/inline.go:84-114 | the digests of the selected elements; selecting none fails |
| ArchiveStore.Store.NextVersion | internal/ops/inline.go:141-144 | the largest version plus one, 1 when there is none |
| ArchiveStore.Store.CommitVersion | internal/ops/inline.go:135-146 | appends exactly one version |
| ArchiveStore.Store.RecordUrl | internal/migrate/migrate.go:630-651 | the first content of a link stays, a different one is held |
| ArchiveStore.Store.Migrate | internal/migrate/migrate.go:337-377 | every digest of the version is read back from the url map; a missing one fails |
| ArchiveStore.Store.Tombstone | internal/mediapackage/write.go:140-173 | drops exactly the event's element and version rows |
| Manifest.Canonical | internal/ops/inline.go:48-60 | sorts the elements in place by kind, flavor and id |
| Manifest.LessExactly | internal/ops/inline.go:48-60 | the kind decides, then the flavor, then the id |
| Manifest.BelowExactly | internal/ops/inline.go:48-60 | strings compare by the first characters in which they differ, a proper prefix first |
| Manifest.SortedIsUnique | internal/ops/inline.go:43-47 | two sorted orderings of one set of elements with identifying keys are identical |
| Manifest.CanonicalExactly | internal/ops/inline.go:43-60 | the sorted ordering is unique exactly when equal keys mean equal elements |
| Splitter.SplitStatements | internal/schemastep/classify.go:63-129 | the index loop advances in every turn and yields the token specification's statements |
| Splitter.Scan | internal/schemastep/classify.go:67-123 | what one turn reads is the specification's next token |
| SplitterTokens.LineComment | internal/schemastep/classify.go:70-76 | a line comment is dropped up to its line break, which stays |
| SplitterTokens.BlockComment | internal/schemastep/classify.go:77-83 | a block comment is dropped to the first mark that closes it |
| SplitterTokens.QuotedString | internal/schemastep/classify.go:84-98 | a string is copied to the quote that closes it, doubled quotes being part of it |
| SplitterTokens.DollarQuote | internal/schemastep/classify.go:99-113 | a dollar-quoted text is copied to the first repetition of its tag |
| SplitterTokens.TagsExactly | internal/schemastep/classify.go:131-133 | a tag is two dollar signs with nothing but letters and underscores between |
| SplitterTokens.OneCharacter | internal/schemastep/classify.go:114-123 | anything else is one character, copied unless it is a semicolon |
| SplitterTokens.StatementsAreTrimmed | internal/schemastep/classify.go:115-128 | every statement is non-empty and trimmed |
| SplitterLaws.SplitAtSeparator | internal/schemastep/classify.go:60-129 | splitting distributes over a top-level separator |
| SplitterLaws.SplitJoinSplit | internal/schemastep/classify.go:60-129 | joining and splitting again gives the same statements exactly when each is still one statement without its comments; so where no dropped comment makes a new token, and where there are no comments |
| SplitterLaws.JoinedSplitsBackExactly | internal/schemastep/classify.go:60-129 | any list survives joining and splitting exactly when each part is trimmed and scanned as one statement, all but the last to its end |
| SplitterLaws.CleanGivesStatements | internal/schemastep/classify.go:70-82 | where no dropped comment makes its neighbours into a new token, every part is one statement |
| SplitterLaws.CommentsGlueTokens | internal/schemastep/classify.go:70-82 | with comments it need not |
| SchemaStep.Check | internal/schemastep/classify.go:260-307 | accepts exactly the plans whose every statement is allowed |
| SchemaStep.CheckIsPerStatement | internal/schemastep/classify.go:260-307 | a script is allowed exactly when both sides of a top-level separator are |
| SchemaRuns.AdvanceMigrates | internal/schemastep/schemastep.go:180-321 | one statement takes the migration at most one step further, from prefix to prefix |
| SchemaSafety.LedgerIsAlwaysAPrefix | internal/schemastep/schemastep.go:131-321 | under any interleaving and crashes the ledger is a growing prefix of the plan, transactional effects are committed once exactly when recorded, recorded indexes are valid, and one runner works at a time |
| SchemaSafety.FreshDatabaseMigrates | internal/schemastep/schemastep.go:131-321 | the same from the first boot on a fresh database |
| SchemaSafety.SecondRunExecutesNothing | internal/schemastep/schemastep.go:120-131 | a runner that boots after a success and succeeds has executed no step |
| SchemaSafety.SuccessIsComplete | internal/schemastep/schemastep.go:180-203 | a success means every step of the plan is recorded and in effect |
| SchemaSafety.GuardGivesUpAtTwenty | internal/schemastep/schemastep.go:231-275 | a guarded step survives nineteen lock timeouts and gives up, and releases the lock, at the twentieth; any other at the first |
| SchemaRefinement.FirstBootCompletes | internal/schemastep/schemastep.go:112-131 | a first boot on a fresh database, left alone by a healthy server, executes the whole plan |
| SchemaRefinement.UninterruptedRun | internal/schemastep/schemastep.go:131-321 | for any plan and server the run of the loops is what the interleaved model does when one runner is left alone: same database, count and verdict |
| SchemaRunner.SchemaRunner.RunTxDDL | internal/schemastep/schemastep.go:231-275 | SQL and ledger row commit together or not at all; a guarded step survives up to nineteen lock timeouts, any other none |
| SchemaRunner.SchemaRunner.RunConcurrentIndex | internal/schemastep/schemastep.go:282-313 | an invalid leftover is rebuilt, a valid one only recorded, a failed build leaves an invalid one |
| SchemaRunner.SchemaRunner.Run | internal/schemastep/schemastep.go:131-203 | a refused plan changes nothing; any other has the outcome its steps have, and fails where a recorded step has been given another text |
| SchemaRunner.RunMigrates | internal/schemastep/schemastep.go:180-203 | whatever the server does the database is left the migration of a prefix, and of the whole plan where it lets every missing step through |
| SchemaRunner.ResumedRunCompletes | internal/schemastep/schemastep.go:29-31 | a run resumed after any failure ends where an undisturbed run would have |
| SchemaRunner.RunAfterSuccessIsNothing | internal/schemastep/schemastep.go:120-122 | a run after a success executes nothing and changes nothing |
| SchemaRunner.EditedStepStopsRun | internal/schemastep/schemastep.go:187-196 | a step that was applied with another SQL text fails the run, which leaves exactly what the plan before that step would have left |
| SchemaRunner.UneditedStepIsSkipped | internal/schemastep/schemastep.go:187-196 | a step that was applied with the same text is skipped: the run is that of the plan without it |
| SchemaRunner.SucceedsExactlyUnedited | internal/schemastep/schemastep.go:124-130 | where the server lets every step through a run succeeds exactly when no step of the plan was applied with another text |

## Left out

- Each guarded statement or transaction is atomic; SQL isolation below that, network
  errors with an unknown outcome and a renewal still in flight when its execution
  returns are not modelled.
- Owner strings are modelled as structured values: that process prefixes are distinct
  and that the formatted strings never collide is taken as given.
- The goroutines of `ExecuteTask`, `InlineRunner.Provision` and `RunFanout` are modelled as
  steps of a state machine, because what matters about them is how they interleave.
- The publish operation's replacement of a channel's element references is left out; its
  pin and its projection are modelled.
- Integers are unbounded; the sums of the admission ledger do not wrap.
- The full-text and updated_at columns of the projection, and text search, collation,
  sorting and paging of queries live in PostgreSQL.
- Text is a sequence of code points; for valid UTF-8 the splitter's byte loop and the
  code-point loop cut at the same places, invalid bytes are not modelled.
- SchemaStep.Check: the lock class of one statement is an uninterpreted function, so the
  individual patterns are not modelled.
- SchemaRuns.AdvanceMigrates: a batch of a batched step has no effect in the model, and a
  step's sha256 is represented by its text, so collisions are not modelled.
- SchemaSafety.LedgerIsAlwaysAPrefix: one package; other packages share only the lock.
- Collector.ReferencedNeverDeleted: one collector; overlapping collectors are not modelled.
- Collector.NextKeepsInv: the presence of the url map and the mark query are one step.
- CollectorSweep.Gc.Sweep: the clock stands still during the pass and the rechecks share
  one state of the tables; a failing statement is a crash of the interleaved model.
- ArchiveStore.Store.ReadElements: which flavors the patterns select is a parameter.
- ArchiveVersions.ArchiveIsClosed: a manifest is its digest and the digests it names;
  serialisation is not modelled.
- Manifest.Canonical: the library's sort is some in-place sort; selection sort stands for it.
- SearchStore.Store.TombstoneEvent: the element, tag and snapshot rows that go with the
  event are no part of the projection's tables; `ArchiveStore.Store.Tombstone` drops them.
- SchemaRunner.SchemaRunner.Run: polling for the lock, creating the ledger and
  cancellation are left to `SchemaRuns`, where waiting and crashes are steps.
- Visibility.ListingMeetsDeliveryExactly: event ids are non-empty and have no line break,
  as their uuid type ensures.
- HTTP handlers, XML and JSON codecs, S3 and PostgreSQL clients, media tools, OIDC, LTI and
  signature checks, and the legacy reader of the migration are plumbing over libraries.
- The operation class table, flavor patterns, range parsing and definition loading would
  only add easy members.
