# Verification of the RAG service's index generations and their artifacts

Dafny models of the parts of the service whose correctness does not show in any one function, with
proofs over every input, every interleaving or every run. `dafny verify dfyconfig.toml` checks them all.

## What is modelled

* **Index generations** (`Content`, `GenerationModel`, `SagaInvariant`, `GenerationSaga`,
  `GenerationTheorems`, `GenerationRuns`, `GenerationOutcomes`, `GenerationLeases`, `GenerationStore`, `Cutover`,
  `OrphanReconcile`, `ReconcileTermination`, `ReconcileAlignment`, `ReconcileBounds`). The rows of the database and the transactions of the creation saga, the abandon
  and the orphan cleanup; a protocol of any number of creators and cleaners, each with its own position, in
  which every transaction and every call is a step and crashes, expired leases, stale workers and replays
  are ordinary runs; what runs reach when a creator or a cleaner is left alone; the store object whose
  methods carry out each transaction; the answer and the rows of each transaction in every reachable world; the
  cleanup lease over time; what a cutover leaves for the repair; and the reconcile cursor.
* **Repair** (`RepairModel`, `RepairStages`, `RepairRuns`, `RepairProgress`, `RepairCompletion`,
  `RepairRaces`, `RepairRefinement`). The flattened chunk order; the stages as loops over batches that may be
  interrupted wherever the code awaits, the validation call by call against a collection that others write
  in between; whole runs, whose steps are single transactions and single calls, with crashes, lost leases
  whose last upsert lands late, restarts on changed targets and new reservations; runs in which such an upsert
  does harm; and the stages as parts of such runs.
* **Exceptions** (`ExceptionPaths`, `ExceptionGraph`, `ExceptionScrub`). The explicit-stack copy of exception groups and the
  worklist that clears causes, contexts and tracebacks while it walks them.
* **Object store** (`BytePipe`, `Publish`, `PublishRuns`). The bounded byte pipe under every interleaving, and
  publication by multipart copy under concurrent publishers; If-None-Match is section 13.1.2 of RFC 9110.
* **Text and JSON** (`Utf8`, `TextValidation`, `Json`, `CanonicalJson`, `BoundedJson`, `Manifest`). UTF-8 by
  section 4 of RFC 3629 and chunk-independent validation; canonical JSON with the escapes of section 7 of
  RFC 8259, its parser and JSON lines; the bound on request JSON; the chunk manifest stream.
* **Search filters** (`QdrantFilter`). The filter compiler against the reference evaluator, with `float()` of
  an integer written out as rounding to 53 bits.

SHA-256 digests are modelled by the content they cover and UUID version 5 identities (section 5.5 of
RFC 9562) by the names they are made from, so both are injective. Clocks, owners and failures are
parameters or free choices. Each class method is proved equal to a function of its inputs and the old
state; the promises are lemmas about those functions and about runs of them.

## Where the code differs from what one might expect

* A replay of a succeeded key is an internal error once a later cutover has superseded the generation:
  `GenerationTheorems.ReplayOfSuccess` gives the exact condition, `GenerationRuns.ReplayAfterCutover` a run.
* A completed cleanup claim is never taken again, so a collection that a slow creator ensures after its
  cleanup is served by nobody and claimed by nobody: `GenerationRuns.LeakIsReached` is such a run, and
  `GenerationRuns.ClaimableExactly` says which deletable collections can still be claimed.
* A creator whose generation has been activated by a replay of the same request, and superseded since, records the
  retiring generation and the succeeded request as failed when it comes to activate
  (`GenerationOutcomes.LateTwinFailsTheRetiring`).
* An upsert of the repair is not fenced. One that a worker without a lease has still on its way can land
  after the repair of a newer target has succeeded: `RepairRaces.LateUpsertBreaksExactness` is such a run, and
  `RepairRuns.LateUpsertsDecide` says exactly when a succeeded repair stays exact.
* The validation of a repair is a series of calls, not one look at the collection. A foreign point that
  lands after the count is not noticed, and the repair succeeds (`RepairRaces.ForeignUpsertDuringValidation`);
  where content changes without a new revision, even a late point of the target itself can hide that another
  one was counted in its place (`RepairRaces.TargetPointComesAfterTheCount`). `RepairRuns.SucceededIsExact`
  gives the exact condition.
* Reconcile calls need not come to an end when the claims they take stay: after one change of the world two
  cursors can lead to each other for ever (`ReconcileAlignment.OffbeatLoops`). `ReconcileAlignment.EndsExactly`
  gives the exact condition for pages of one size; where taken claims leave, any chain of calls is bounded
  (`ReconcileBounds.ShrinkingWorldEnds`).
* The guard on integer bounds of a filter refuses the greatest 64-bit integer as an upper bound, although
  the range it would be turned into is the right one (`QdrantFilter.GuardIsExact`).
* The release branch of the cleanup authorization is never taken
  (`SagaInvariant.AuthorizeReleasesNothing`).
* The compiled filter and the reference evaluator disagree on some payloads: a float stored in an integer
  field is caught by a range but not by the reference, and in a float field the reference rounds an integer
  that a range compares exactly. `QdrantFilter.FaithfulExactly` says for which values they agree.
* An integer of more than 4300 decimal digits cannot be written by `json`, so both JSON encoders reject it.

## Model

| member | source | states |
|---|---|---|
| GenerationTheorems.DeletesHitOnlyOrphans | src/rag_service/indexing/generation_services.py:1459-1532 | in every run, a delete that was sent, however late it lands and however stale its sender, names a collection whose generation is missing or failed, now and for the rest of the run |
| GenerationTheorems.LiveCollectionsAreNeverDeleted | src/rag_service/indexing/generation_services.py:1493-1520 | no step of any run removes the collection of a building, active or retiring generation |
| GenerationTheorems.ServingCollectionsExist | src/rag_service/indexing/generation_services.py:1097-1144 | in every reachable state the collection of an active or retiring generation exists |
| GenerationTheorems.PointersNameExactly | migrations/versions/20260724_0002_auth_metadata.py:566-580 | in every reachable state a pending or active pointer names a generation if and only if that generation is the one building or active generation of the knowledge base |
| GenerationTheorems.OneActiveEverAfter | src/rag_service/indexing/generation_services.py:1172-1280 | once a knowledge base has had an activation, it has exactly one active generation in every later state |
| GenerationTheorems.StatusesOnlyAdvance | src/rag_service/indexing/generation_services.py:1044-1345 | a generation is never lost, its status never goes back in the order building, active, retiring, failed, and failed is never left |
| GenerationTheorems.LeaseIsExclusive | src/rag_service/indexing/generation_repositories.py:431-476 | two cleaners never hold the owner-and-epoch fence of one collection at once |
| GenerationTheorems.CompletedClaimIsFinal | src/rag_service/indexing/generation_repositories.py:559-578 | a completed claim keeps its row unchanged through any later run and can never be claimed again |
| GenerationTheorems.AtMostOneActivation | src/rag_service/indexing/generation_services.py:839-927 | for one (actor, knowledge base, key) any run commits at most one activation and at most one backfill job, and every request row names the one stable generation id |
| GenerationTheorems.CommitsAreLogged | src/rag_service/indexing/generation_services.py:1145-1291 | the number of activation commits in a run equals the number of `index_config_changed` mutations in the log, for every generation |
| GenerationTheorems.RevisionsHaveNoGaps | src/rag_service/indexing/generation_services.py:1172-1244 | in every reachable database the revision of a knowledge base is the number of its logged mutations, and the log numbers them 1, 2, 3, ... in order, so no revision is skipped, shared or spent without an entry |
| GenerationTheorems.ReplayOfSuccess | src/rag_service/indexing/generation_services.py:839-927 | a replay of a succeeded request returns its generation if and only if that generation is still active; otherwise it is the internal error |
| GenerationTheorems.CompletedClaimNeverMeetsSuccess | src/rag_service/indexing/generation_services.py:1112-1144 | a generation whose collection has a cleanup claim is failed and its request has not succeeded, so the guards against that case never fire |
| GenerationOutcomes.KeyHoldsFirstCommand | src/rag_service/indexing/generation_services.py:825-1042 | in every reachable world a key has a request exactly when it was asked for, and the request holds the first command it was reserved with |
| GenerationOutcomes.KeyStandsForOneCommand | src/rag_service/indexing/generation_services.py:839-927 | for a key that has a request, a command other than the first is refused as a reuse of the key and changes nothing; the first one gets the answer the state of its generation calls for, and a terminal answer is recorded with its error |
| GenerationOutcomes.KeyReusedExactly | src/rag_service/indexing/generation_services.py:845-850 | where no other call reports that error, a request is refused as a reuse of its key if and only if its command is not the first one, so reservations, replays and terminal answers go to the first command only |
| GenerationOutcomes.NewKeyAnswer | src/rag_service/indexing/generation_services.py:928-1042 | a new key is refused for what stands in its way, with nothing changed, or reserved with a request, a building generation and a pending pointer, all their columns given |
| GenerationOutcomes.ActivationExactly | src/rag_service/indexing/generation_services.py:1097-1296 | a probed creator activates its generation if and only if the collection is under no claim, the generation is pending, the knowledge base is active and its filter revision is the one of the reservation, for which the generation was built; otherwise the refusal, conflict or replay is given; all rows written are stated |
| GenerationOutcomes.ActivationNeedsAll | src/rag_service/indexing/generation_services.py:1097-1171 | in any database, reachable or not, a generation is activated exactly when the rows are there, there are no points and no claim, the request has not failed, the generation is building, and the knowledge base is active, at the reserved filter revision, with this generation pending and not active |
| GenerationOutcomes.ActiveForTheCurrentFilter | src/rag_service/indexing/generation_services.py:1145-1171 | in every run, whichever step makes a generation active, at that moment it was built for its knowledge base's filter revision, is the pending one there, the knowledge base is active and the collection under no claim |
| GenerationOutcomes.LateTwinFailsTheRetiring | src/rag_service/indexing/generation_services.py:1145-1171 | a probed creator that comes back after its generation has been activated and superseded records it and its request as failed, and the collection may be deleted from then on |
| GenerationOutcomes.FailureIsRecorded | src/rag_service/indexing/generation_services.py:1044-1084 | a creator that gives up records its error and its point count in generation and request, unless the generation has been activated meanwhile |
| GenerationOutcomes.SuccessIsNotOverwritten | src/rag_service/indexing/generation_services.py:1044-1084 | in any database a failure changes nothing exactly when the request has succeeded, the generation is active, or the same failure is recorded already |
| GenerationOutcomes.AbandonExactly | src/rag_service/indexing/generation_services.py:1298-1345 | a generation is abandoned exactly when it is the pending one of that knowledge base, and is not abandonable exactly when it is there and not building; the rows are stated |
| GenerationLeases.LeaseIsHonoured | src/rag_service/indexing/generation_repositories.py:431-476 | after a claim that gives a lease, whatever follows short of a later claim made at its end or after and of the holder ending it: owner, epoch and end stand, the fence is in force until the holder completes, and the collection can be claimed at a moment if and only if it is not completed and the moment is not before the end |
| GenerationLeases.ClearedExactly | src/rag_service/indexing/generation_services.py:1493-1520 | a ticket clears a delete if and only if the claim still has its epoch and is not completed, and the moment is before the end its claim was given, whatever happened since; no row is changed |
| GenerationLeases.HeldTicketsAreOne | src/rag_service/indexing/generation_repositories.py:559-578 | in any database two tickets of one collection that both hold are the same |
| GenerationLeases.EndsItsOwnLease | src/rag_service/indexing/generation_repositories.py:559-599 | a holder completes or expires its own claim; one that has lost its epoch changes nothing |
| GenerationRuns.CreationLeftAlone | src/rag_service/indexing/generation_services.py:1347-1457 | from any reachable world a new request whom nobody disturbs activates its generation if and only if the knowledge base is active with nothing pending, the configuration is usable, the collection is under no claim, and what is stored under its name is empty |
| GenerationRuns.CutoverEndsReplay | src/rag_service/indexing/generation_services.py:839-927 | once another creation has been activated on the same knowledge base, the first generation is retiring and every replay of its succeeded key is the internal error |
| GenerationRuns.ReplayAfterCutover | src/rag_service/indexing/generation_services.py:881-888 | a run with two creations on one knowledge base reaches that state |
| GenerationRuns.CleanupSucceeds | src/rag_service/indexing/generation_services.py:1459-1532 | a cleaner that may claim a collection and is left alone removes it and completes its claim |
| GenerationRuns.ClaimableExactly | src/rag_service/indexing/generation_repositories.py:431-476 | a deletable collection can be claimed now or in some continuation of the run if and only if its claim is not completed |
| GenerationRuns.SlowCreatorLeaks | src/rag_service/indexing/generation_services.py:1377-1378 | a creator that still holds its reservation when the cleanup has completed creates the collection again; it stays stored over any continuation in which no delete lands on it, deletable and never claimable |
| GenerationRuns.LeakIsReached | src/rag_service/indexing/generation_services.py:1377-1378 | a run of one creator, one abandon and one cleanup reaches that state |
| SagaInvariant.AuthorizeReleasesNothing | src/rag_service/indexing/generation_services.py:1493-1520 | the release branch of the authorization is unreachable: no claim row is ever removed |
| GenerationSaga.StepKeeps | src/rag_service/indexing/generation_services.py:1347-1457 | every step of the protocol, of creators, cleaners, abandons and outside transactions, keeps the joint invariant of database, workers and collections and only moves statuses, requests and claims forward |
| GenerationStore.Store.ReserveGeneration | src/rag_service/indexing/generation_services.py:825-1042 | the reserving transaction turns the rows into exactly those of the model function and returns its outcome |
| GenerationStore.Store.MarkGenerationFailed | src/rag_service/indexing/generation_services.py:1044-1084 | the failure transaction on the rows, including when it must leave them alone |
| GenerationStore.Store.ActivateGeneration | src/rag_service/indexing/generation_services.py:1097-1296 | the activation transaction: conflict, failure or promotion, each with its whole new state |
| GenerationStore.Store.EnrolLiveVersions | src/rag_service/indexing/generation_repositories.py:295-356 | the loop inserts exactly the missing index states and counts them |
| GenerationStore.Store.AbandonGeneration | src/rag_service/indexing/generation_services.py:1298-1345 | the abandon transaction and each of its refusals |
| GenerationStore.Store.ClaimOrphanCleanup | src/rag_service/indexing/generation_repositories.py:431-476 | the claim gets a new owner, epoch and expiry, or nothing changes |
| GenerationStore.Store.AuthorizeOrphanCleanup | src/rag_service/indexing/generation_services.py:1493-1520 | true exactly while the ticket holds a live lease on a deletable collection |
| GenerationStore.Store.CompleteOrphanCleanup | src/rag_service/indexing/generation_repositories.py:559-578 | completes exactly the claim the ticket still holds |
| GenerationStore.Store.ExpireOrphanCleanup | src/rag_service/indexing/generation_repositories.py:580-599 | ends exactly the lease the ticket still holds |
| Cutover.AnchorAlwaysFound | src/rag_service/indexing/repair.py:488-520 | in every reachable state the configuration anchor of a generation that was ever activated is its own activation mutation |
| Cutover.EnrolmentExact | src/rag_service/indexing/generation_repositories.py:295-356 | enrolment adds a row for exactly the live ready versions without one and leaves the others as they were |
| Cutover.RepairableAfterEnrolment | src/rag_service/indexing/repair.py:605-707 | after the enrolment a live document passes the repair checks if and only if it had a complete version and no stale row |
| Cutover.CutoverMeetsRepair | src/rag_service/indexing/generation_services.py:1172-1280 | a superseding activation adds a row to the job table exactly when a live version was not enrolled; the repair finds that row's mutation as its anchor, has targets if and only if every live document was ready, and then counts exactly the row's progress total |
| Cutover.BackfillQueuedExactly | src/rag_service/indexing/generation_services.py:1246-1280 | a backfill job is queued exactly when a superseding activation found a live version not yet enrolled |
| Cutover.EnrolmentRowByRow | src/rag_service/indexing/generation_repositories.py:295-356 | an enrolment writes a row exactly for the ready, complete versions of live documents that have none, every column given, and touches no other |
| Cutover.TargetsExactly | src/rag_service/indexing/repair.py:605-707 | a repair has targets if and only if the document, version and state columns of every live document agree as listed; then one target each, in order, and the point total is their sum |
| Cutover.ConfigurationAnchorMeans | src/rag_service/indexing/repair.py:488-520 | an anchor is a logged mutation at the generation's revision whose payload has exactly its configuration |
| Content.BuildCanonicalTargets | src/rag_service/indexing/repair.py:605-707 | the loop over live documents yields all their targets and the sum of their chunks, or fails on the first that is not repairable |
| OrphanReconcile.ReconcileCall | src/rag_service/indexing/generation_services.py:1562-1721 | one call with its budgets, wrap-around and turns; it takes no more candidates than the limit, and a name is one of them if and only if it is an orphan and either its expired claim was scanned, or it is on the page, managed and created before the cutoff |
| OrphanReconcile.CandidatesExactly | src/rag_service/indexing/generation_services.py:1573-1638 | that equivalence for every world and cursor |
| OrphanReconcile.CandidatesDiffer | src/rag_service/indexing/generation_services.py:1627-1638 | no candidate is taken twice by a call |
| OrphanReconcile.FairShares | src/rag_service/indexing/generation_services.py:1564-1612 | with a limit above one a call scans half its limit of claims as long as they last, and gives the page all the room that leaves |
| OrphanReconcile.TakesTurns | src/rag_service/indexing/generation_services.py:1564-1612 | with a limit of one a call that has taken a claimed orphan leaves the page to the next call, and otherwise lists one collection |
| OrphanReconcile.ListingProgress | src/rag_service/indexing/generation_services.py:1610-1638 | along a chain of calls every managed collection the cursor has passed was on a page |
| OrphanReconcile.ClaimProgress | src/rag_service/indexing/generation_services.py:1564-1608 | along a chain of calls every expired claim the scan has passed was scanned, across the wrap-around |
| OrphanReconcile.ChainCoversEverything | src/rag_service/indexing/generation_services.py:1562-1721 | a chain that starts and ends without a cursor has examined every collection and every expired claim that stayed throughout |
| OrphanReconcile.ChainTakesEveryOrphan | src/rag_service/indexing/generation_services.py:1627-1638 | a collection that stays old, managed and orphaned throughout a chain is taken as a candidate by some call |
| OrphanReconcile.ChainTakesEveryClaim | src/rag_service/indexing/generation_services.py:1573-1601 | an expired claim that stays orphaned throughout a chain is taken as a candidate by some call |
| ReconcileTermination.StartsApart | src/rag_service/indexing/generation_services.py:1564-1638 | no two passes over the listing start at the same point of the expired scan's period |
| ReconcileTermination.ReconcileEnds | src/rag_service/indexing/generation_services.py:1562-1721 | in a world that does not change and whose expired claims are all of orphans, following the cursors ends, for every limit from 1 to 100: there is a finished chain and every other chain is a beginning of it |
| ReconcileTermination.NothingIsLeftBehind | src/rag_service/indexing/generation_services.py:1562-1721 | so in that world every old managed orphan and every expired claim is taken as a candidate by some call of the chain |
| ReconcileTermination.IneligibleClaimLoops | src/rag_service/indexing/generation_services.py:1573-1604 | with an expired claim of a collection that is no orphan, which the saga rules out, two cursors can lead to each other for ever |
| ReconcileAlignment.EndsExactly | src/rag_service/indexing/generation_services.py:1562-1721 | in a world that does not change, whose expired claims are all of orphans and whose pages have one size, following the cursors from one with so many scans left in its period and so many pages left in its pass ends if and only if the greatest common divisor of the lengths of period and pass divides the difference of the two |
| ReconcileAlignment.SmallLimitsAreEven | src/rag_service/indexing/generation_services.py:1564-1567 | with a limit of at most three the pages have one size in every world |
| ReconcileAlignment.OffbeatLoops | src/rag_service/indexing/generation_services.py:1562-1721 | a collection that appears after the first call leaves two cursors that lead to each other for ever, although every claim is of an orphan |
| ReconcileBounds.ShrinkingWorldEnds | src/rag_service/indexing/generation_services.py:1562-1721 | from any cursor and with any limits, as long as scanned claims have left before the next call and nothing is added, there are at most four calls for each open claim, one for each collection and four more |
| RepairModel.CountedIsExact | src/rag_service/indexing/repair.py:1203-1269 | a collection holds exactly the expected points if and only if all of them are stored and the count is their number |
| RepairModel.ExpectedIdsDistinct | src/rag_service/indexing/identities.py:22-29 | no two points a repair expects have the same identity |
| RepairModel.ExactVersionCount | src/rag_service/indexing/repair.py:1210-1221 | in an exact collection the count of each version is its chunk count |
| RepairModel.UpsertExtendsPrefix | src/rag_service/indexing/repair.py:1122-1201 | upserting the expected points p to q extends "the first p are present" to q |
| RepairModel.ExpectedFieldByField | src/rag_service/ingestion/pipeline.py:884-915 | the entry of chunk k of target i stands after the chunks of the earlier targets, is named after version, chunk number and chunk hash, and carries that dimension, document, version, chunk and metadata |
| RepairModel.ExactFieldByField | src/rag_service/indexing/repair.py:1203-1269 | a collection is exact if and only if every chunk's point is stored under that name with that content and every stored point is named after a chunk |
| RepairStages.IndexingStage | src/rag_service/indexing/repair.py:1122-1201 | from progress p the stage upserts exactly the flattened points p onwards in order and commits progress that rises by at most a batch, wherever it is interrupted or restarted; its conflict error is met exactly when the progress exceeds the total; a stage that advances from zero has stored every chunk's point, field by field, and changed nothing else |
| RepairStages.IndexTargets | src/rag_service/indexing/repair.py:1135-1201 | the nested loops over targets and batches always leave by advancing, an interruption or a restart: the final stage conflict is unreachable |
| RepairStages.IndexedKeepsPrefix | src/rag_service/indexing/repair.py:1143-1194 | the committed prefix of expected points, and the batch upserted after it, is stored wherever the stage stops |
| RepairStages.RebuildJob.Reset | src/rag_service/jobs/repositories.py:1212-1244 | exactly while the worker holds its lease the job restarts in the indexing stage at progress zero on the refreshed revision and total; otherwise nothing changes |
| RepairStages.RebuildJob.Commit | src/rag_service/jobs/repositories.py:1246-1356 | the three outcomes of a commit by lease and control plane; it sets stage and progress exactly when the lease is held and the control plane has not moved |
| RepairStages.ValidateQdrant | src/rag_service/indexing/repair.py:1203-1269 | with anything landing before each of its calls, the validation is where the count, the version counts and the batches lead when each is answered by what is stored at its moment; it ends passed, refused or at a call that fails for another reason |
| RepairStages.PassedExactly | src/rag_service/indexing/repair.py:1203-1269 | a validation that has passed leaves exactly the expected points if and only if every expected identity was stored when it counted and what landed since ended, under each identity, as an expected point |
| RepairStages.StillValidation | src/rag_service/indexing/repair.py:1203-1269 | with nothing landing meanwhile, a validation that comes to a verdict passes if and only if the dimension is right, the collection holds every expected point with the right content and nothing else, and its counts can be answered; it is refused as a conflict only for a wrong dimension or an uncountable version, and as failed only where the collection is not exact |
| RepairStages.RebuildJob.Finalize | src/rag_service/indexing/repair.py:1298-1322 | the job succeeds exactly when the lease is held and the live target is still the one validated; otherwise nothing changes |
| RepairStages.ValidatingStage | src/rag_service/indexing/repair.py:1272-1289 | every way out of the validating stage: advanced or restarted only after a validation that has passed, stopped exactly where it is refused, otherwise interrupted with the job row unchanged |
| RepairStages.CompleteStage | src/rag_service/indexing/repair.py:1291-1327 | every way out of the last stage: the job succeeds exactly when the last validation has passed and the live target is still the validated one; it restarts only where the target has changed |
| RepairStages.QdrantCollection.RetrieveVersionPoints | src/rag_service/indexing/qdrant.py:1659-1693 | the requested points in order, or the error when one is missing, foreign or repeated |
| RepairStages.QdrantCollection.UpsertPoints | src/rag_service/indexing/qdrant.py:1607-1626 | a valid batch is stored point by point, an invalid one changes nothing |
| RepairRuns.SucceededIsExact | src/rag_service/indexing/repair.py:1203-1327 | whatever crashes, lost leases, retries, target changes and late upserts came before or between the calls of a validation, and whatever the collection held, a succeeded job has left exactly the expected points of the finalized target if and only if every expected identity was stored when the last validation counted and what late upserts wrote since that count ended, under each identity, as an expected point |
| RepairRuns.LateUpsertsDecide | src/rag_service/indexing/repair.py:1165 | once a job has succeeded its collection stays exact over every continuation without a new reservation if and only if it is exact now and every upsert still on its way holds only points of the finalized target |
| RepairRuns.FinalizedWasLive | src/rag_service/indexing/repair.py:1298-1322 | the target of a succeeded job was live at a finalizing step of the run |
| RepairRuns.ClaimsExactly | src/rag_service/indexing/repair.py:837-859 | a worker starts on an open job if and only if revision and total are the live target's and, while indexing, dimension and progress fit; a job of another revision is restarted, any other fails with the conflict that names why |
| RepairRefinement.IndexingIsARun | src/rag_service/indexing/repair.py:1122-1201 | wherever the indexing stage stops, a run of upserts, checkpoints, a drift and an advance leads the protocol to the same job row and the same points |
| RepairRefinement.ValidationIsARun | src/rag_service/indexing/repair.py:1203-1269 | the calls of a validation and what lands between them are a run of checks and late upserts that leads the protocol to the same points, the same verdict and the same record of what landed since the count |
| RepairRefinement.ValidatingIsARun | src/rag_service/indexing/repair.py:1272-1289 | wherever the validating stage stops, a run of single steps leads the protocol to the same job row, the same points and the same failure, with the worker gone exactly when the stage has handed the job back |
| RepairRefinement.CompletingIsARun | src/rag_service/indexing/repair.py:1291-1327 | the same for the last stage: the run finalizes the target exactly when the stage does |
| RepairProgress.AgreeableDecides | src/rag_service/indexing/repair.py:1165 | a late upsert leaves the stored prefix stored if and only if it holds nothing else under the identity of a point of the prefix |
| RepairProgress.FirstPointsArePresent | src/rag_service/indexing/repair.py:1122-1201 | when content changes raise the revision and late upserts agree with what is committed, in every reachable state the first `progress` expected points are stored, and no run ends in a stage conflict |
| RepairProgress.OrderlySuccess | src/rag_service/indexing/repair.py:1203-1327 | under the same conditions a succeeded job has left exactly the expected points if and only if what late upserts wrote since the last count ended, under each identity, as an expected point; in particular when they wrote points of the finalized target only |
| RepairProgress.ValidationFailsOnlyOnForeignPoints | src/rag_service/indexing/repair.py:1203-1269 | under the same conditions the count of a validation passes if and only if the dimension is right and at that moment nothing foreign is stored, the count of a version if and only if it can be answered and nothing foreign of that version is stored, and a batch always: what lands after the count is not noticed unless it is of a version still to be counted |
| RepairCompletion.RepairCanSucceed | src/rag_service/indexing/repair.py:1122-1327 | under the same conditions an open job on the live target can be worked to success, with nothing else happening, if and only if the collection has the dimension, can be counted and holds nothing foreign |
| RepairCompletion.LateUpsertUndoes | src/rag_service/indexing/repair.py:1165 | with an upsert on its way that holds a foreign point, that success is followed by a state that is still succeeded and no longer exact |
| RepairCompletion.ForeignUpsertSlipsIn | src/rag_service/indexing/repair.py:1203-1269 | an upsert on its way that holds a point foreign in identity and version can land inside the last validation: the job succeeds and the collection is not exact |
| RepairCompletion.StaleUpsertUndoesProgress | src/rag_service/indexing/repair.py:1165 | an upsert on its way that does not agree with the target can land after the indexing stage: the whole progress is committed and not all of it is stored |
| RepairRaces.LateUpsertBreaksExactness | src/rag_service/indexing/repair.py:1165 | such a run from the start: the stale worker of an older version lands after the newer one has been repaired |
| RepairRaces.ForeignUpsertDuringValidation | src/rag_service/indexing/repair.py:1203-1269 | a run from the start in which it lands between the calls of the last validation, which passes |
| RepairRaces.TargetPointComesAfterTheCount | src/rag_service/indexing/repair.py:1203-1269 | a run in which content changes without a new revision, all that lands is a point of the finalized target, and the collection is still not exact: another point was counted in its place |
| RepairRaces.StaleMetadataOverwrites | src/rag_service/indexing/repair.py:1165 | a run in which a point of the same identity with old metadata lands on a committed one: the progress is one point and that point is not stored |
| ExceptionGraph.SafeExceptionGraph | src/rag_service/api/errors.py:118-163 | the loop ends within 1 + child references + nodes iterations; a graph is copied, with the same shape, order and sharing, if and only if it has no reachable cycle or unreadable group, is within the limits on nodes and references, and the route on which each node is met first, that of the earliest children, is within the depth limit |
| ExceptionPaths.UnfinishedIsFirst | src/rag_service/api/errors.py:124-161 | in a graph without cycles a walk whose earlier siblings are all finished meets an unfinished node on the first of all routes to it |
| ExceptionPaths.ShallowIsMet | src/rag_service/api/errors.py:145-146 | where every path is within the depth limit so is every first route |
| ExceptionGraph.CopiedIsWithinCounts | src/rag_service/api/errors.py:147-158 | when every reachable node has a copy and the copies are within the limits on nodes and references, so is every set of reachable nodes |
| ExceptionGraph.RevisitIsCycle | src/rag_service/api/errors.py:145-146 | a node met while it is being visited lies on a cycle reachable from the root |
| ExceptionGraph.OrderedIsAcyclic | src/rag_service/api/errors.py:118-163 | a graph whose nodes were finished children first has no reachable cycle and no reachable node without a replacement |
| ExceptionGraph.EnterKeeps | src/rag_service/api/errors.py:147-161 | entering a node keeps the invariant of stack, trail, route, order and counters |
| ExceptionGraph.FinishKeeps | src/rag_service/api/errors.py:131-143 | finishing a node keeps it, and all its children have replacements |
| ExceptionGraph.BuildSafe | src/rag_service/api/errors.py:92-102 | the replacement has the kind of the original and its children's replacements in order, with a plain leaf where an exception group cannot hold the child |
| ExceptionScrub.ClearExceptionGraph | src/rag_service/api/errors.py:267-310 | it ends, clears traceback, cause and context of exactly the exceptions linked to the root when it began, and changes no other |
| ExceptionScrub.ScrubCutsLinks | src/rag_service/api/errors.py:267-310 | after a scrub whatever is still linked to the root is linked through groups alone |
| ExceptionScrub.ReachedIsCleared | src/rag_service/api/errors.py:267-310 | whatever a chain of causes, contexts and group members leads to has lost cause, context and traceback, has its arguments redacted if asked for or if it is a validation error, whose body is redacted always |
| ExceptionScrub.UnreachedIsUntouched | src/rag_service/api/errors.py:267-310 | whatever no such chain leads to is as it was |
| ExceptionScrub.SanitizeExceptionGraph | src/rag_service/api/errors.py:313-330 | the original is scrubbed on every path; the result is the original, or a faithful copy if the graph is within limits and a plain error if it is not |
| BytePipe.BoundedBytePipe.WriteIteration | src/rag_service/infrastructure/minio_store.py:308-332 | one turn of the writer loop against its specification |
| BytePipe.BoundedBytePipe.Read | src/rag_service/infrastructure/minio_store.py:334-356 | one read against its specification |
| BytePipe.BoundedBytePipe.Fail | src/rag_service/infrastructure/minio_store.py:363-371 | the first failure is kept, the buffer is dropped if asked, and a wake-up is on its way |
| BytePipe.BoundedBytePipe.StopConsumer | src/rag_service/infrastructure/minio_store.py:373-379 | the consumer is stopped, the buffer dropped, and a wake-up is on its way |
| BytePipe.BoundedBytePipe.CloseProducer | src/rag_service/infrastructure/minio_store.py:358-361 | the end of the input is marked and nothing else changes |
| BytePipe.BytesInOrder | src/rag_service/infrastructure/minio_store.py:308-356 | in every run the bytes read and buffered are the bytes written, in order, none lost or repeated short of a discard |
| BytePipe.CapacityRespected | src/rag_service/infrastructure/minio_store.py:308-332 | buffered bytes never exceed the capacity |
| BytePipe.BlockedWriterHasReason | src/rag_service/infrastructure/minio_store.py:304-332 | a blocked writer whose event is clear has a wake-up on its way, or faces a full pipe that has neither failed nor been stopped |
| BytePipe.WriterMakesProgress | src/rag_service/infrastructure/minio_store.py:304-380 | the pending wake-ups make a blocked writer raise if and only if the pipe has failed or its consumer stopped, full or not, and accept bytes if and only if neither happened and there is room |
| BytePipe.EmptyReadMeansDrained | src/rag_service/infrastructure/minio_store.py:334-356 | an empty read means the producer closed or the consumer stopped, and nothing is left |
| BytePipe.ReadAnswers | src/rag_service/infrastructure/minio_store.py:334-356 | in every reachable state a read hands out buffered bytes from the front, never more than asked for; only an empty pipe raises its failure, reports its end or blocks |
| BytePipe.WriteAnswers | src/rag_service/infrastructure/minio_store.py:308-332 | a try of the writer raises the failure before the stop, waits for a full pipe, and otherwise hands over as many bytes as there is room for |
| BytePipe.EndsAreFinal | src/rag_service/infrastructure/minio_store.py:358-379 | the first failure is never replaced, an end never taken back, a stop never undone |
| BytePipe.EndingCalls | src/rag_service/infrastructure/minio_store.py:358-379 | the failing, stopping and closing calls record what they say, and only a discard or a stop drops bytes |
| BytePipe.HighWaterMark | src/rag_service/infrastructure/minio_store.py:308-332 | the recorded maximum is the most that was buffered at any moment of the run |
| Publish.PartRanges | src/rag_service/infrastructure/minio_store.py:1638-1643 | the inclusive part ranges start at multiples of the part size, are disjoint and in order, and cover the source |
| Publish.PartsReassemble | src/rag_service/infrastructure/minio_store.py:1638-1659 | parts cut along consecutive ranges join to the bytes they span |
| Publish.FinalObjectStays | src/rag_service/infrastructure/minio_store.py:1519-1586 | over any continuation of a run that does not delete the key, the final object stays the same |
| Publish.ReceiptsStayTrue | src/rag_service/infrastructure/minio_store.py:1519-1586 | in every run a publisher with a receipt has had, from some moment on, an object of the size and checksum it asked for under its final key, and that same object is there still unless the key was deleted since |
| Publish.PublishedIsStaged | src/rag_service/infrastructure/minio_store.py:1611-1683 | in every run a stored object has exactly the bytes and checksum of some staged version, although sources are rewritten and publishers race |
| Publish.ReceiptStandsForContent | src/rag_service/infrastructure/minio_store.py:1519-1586 | where staging claims true checksums, a receipt names an object whose bytes are the ones with that checksum |
| PublishRuns.PublicationLeftAlone | src/rag_service/infrastructure/minio_store.py:1519-1586 | from any reachable world a publisher left alone ends with a receipt for the source's bytes where the source is as asked for and the key free, a receipt for the object there where it is as asked for, and otherwise the failure or the conflict with nothing stored |
| PublishRuns.LooksAnswer | src/rag_service/infrastructure/minio_store.py:1519-1586 | what each look at the source or at the final key leads to |
| PublishRuns.CompletionAnswers | src/rag_service/infrastructure/minio_store.py:1611-1683 | completing an upload stores its parts if the final key is free and nothing otherwise, and an unanswered completion gives up although the object is there |
| PublishRuns.RewrittenSourceEnds | src/rag_service/infrastructure/minio_store.py:1611-1683 | a source rewritten since it was verified ends the publication and closes its upload |
| Utf8.HeadOfEncoded | src/rag_service/ingestion/validation.py:191-195 | the byte grammar of section 4 of RFC 3629 reads back every encoded scalar value, whatever follows |
| Utf8.DecodeOfEncoded | src/rag_service/ingestion/validation.py:191-195 | decoding an encoded text gives the text |
| Utf8.DecodeAppend | src/rag_service/ingestion/validation.py:191-195 | decoding in two pieces, with what is left over put in front, is decoding at once; a rejected prefix stays rejected |
| Utf8.RejectedHasNoContinuation | src/rag_service/ingestion/validation.py:191-195 | the decoder rejects a stream exactly when no continuation of it is UTF-8 |
| TextValidation.RunAcceptsExactly | src/rag_service/ingestion/validation.py:142-233 | a run over any chunks accepts if and only if the whole content is UTF-8 within the limit, has text, no NUL and few controls; the summary is its size and bytes |
| TextValidation.ChunkingIsIrrelevant | src/rag_service/ingestion/validation.py:181-233 | two ways to cut the same bytes are accepted with the same summary or both rejected |
| TextValidation.CodeDependsOnChunking | src/rag_service/ingestion/validation.py:181-213 | the rejection code does depend on the cut |
| TextValidation.AcceptedDocuments | src/rag_service/ingestion/validation.py:142-233 | a document is accepted if and only if it is within the limit and the encoding of a text that, after a byte order mark, has no NUL, something other than white space, and less than one stray control in twenty characters, all these written out |
| TextValidation.RejectionIsTrue | src/rag_service/ingestion/validation.py:181-233 | every rejection code says something true of the whole content, wherever it was cut |
| TextValidation.FinishedTakesNothing | src/rag_service/ingestion/validation.py:181-185 | a finished validator takes nothing more |
| TextValidation.IncrementalTextValidator.Feed | src/rag_service/ingestion/validation.py:181-195 | one chunk against its specification |
| TextValidation.IncrementalTextValidator.Finish | src/rag_service/ingestion/validation.py:210-233 | the verdict against its specification |
| TextValidation.ValidateDocument | src/rag_service/ingestion/validation.py:236-269 | the second decode cannot fail; the normalized text has no carriage return, the same lines, and decodes from the normalized bytes |
| Json.ValueRoundTrip | src/rag_service/indexing/identities.py:51-62 | the parser reads every written value back, whatever delimiter follows |
| Json.TextHasNoLowControls | src/rag_service/indexing/identities.py:51-62 | a written value has no character below U+0020; the controls U+007F to U+009F are written as they are |
| Json.RawStrings | src/rag_service/indexing/identities.py:51-62 | a string is written as it is if and only if it has no quote, no backslash and no character below U+0020; otherwise its text is longer |
| Json.ScalarsWritten | src/rag_service/indexing/identities.py:51-62 | the words, the sign of an integer and the quotes of a string |
| Json.ArraysWritten | src/rag_service/indexing/identities.py:51-62 | items between brackets, with a comma between two of them and nothing else |
| Json.ObjectsWritten | src/rag_service/indexing/identities.py:51-62 | keys, colons and values between braces, with a comma between two members and nothing else |
| Json.EscapesWritten | src/rag_service/indexing/identities.py:51-62 | the short escapes, and four lower-case hexadecimal digits for every other control below U+0020 |
| CanonicalJson.LessExactly | src/rag_service/indexing/identities.py:51-62 | a key comes before another exactly when it is a shorter beginning of it or has the smaller code point where they first differ |
| CanonicalJson.CanonicalKeysAscend | src/rag_service/indexing/identities.py:51-62 | the keys of a canonical object ascend in that order |
| CanonicalJson.EncodesExactly | src/rag_service/indexing/identities.py:51-62 | a value has canonical bytes if and only if it is a JSON value and every integer in it is below 10 to the power 4300 in magnitude |
| CanonicalJson.CanonSeparatesTrees | src/rag_service/indexing/identities.py:32-48 | validated values are equal exactly when the values are the same tree up to key order |
| CanonicalJson.ParserRecovers | src/rag_service/indexing/identities.py:51-62 | the canonical bytes decode and parse to the canonical value, which is the same tree as the value |
| CanonicalJson.CanonicalIsInjective | src/rag_service/indexing/identities.py:51-62 | two accepted values have the same bytes if and only if they are the same tree up to key order |
| CanonicalJson.NoRawNewline | src/rag_service/ingestion/artifacts.py:146-158 | canonical bytes contain no newline byte |
| CanonicalJson.LinesAreRecords | src/rag_service/ingestion/artifacts.py:146-158 | splitting canonical JSON lines gives back the records' bytes one by one |
| CanonicalJson.JsonlIsInjective | src/rag_service/ingestion/artifacts.py:146-158 | record lists with the same bytes hold the same trees |
| CanonicalJson.JsonlAcceptsExactly | src/rag_service/ingestion/artifacts.py:146-158 | JSON lines are written if and only if there is a record and every record is an object with canonical bytes, and they end in a newline |
| BoundedJson.ValidateBoundedJson | src/rag_service/api/validation.py:48-107 | accepts exactly the well-typed values with depth at most 4, at most 64 keys, writable integers and a canonical encoding of at most 32768 bytes |
| BoundedJson.BoundedExactly | src/rag_service/api/validation.py:48-107 | the accepted values without the walk's counters: canonical bytes, at most 32768 of them, at most 64 keys in all objects, nothing more than four containers deep |
| BoundedJson.GuardsRejectNothing | src/rag_service/api/validation.py:11-15 | a value whose encoding is within the size passes every node and string guard |
| BoundedJson.SizeBoundsCount | src/rag_service/api/validation.py:14-15 | the encoding takes at least two bytes a node less one, and at least the bytes of the strings |
| BoundedJson.CanonSize | src/rag_service/api/validation.py:102-107 | sorting the keys does not change the size |
| BoundedJson.Walk.Visit | src/rag_service/api/validation.py:62-99 | the walk returns exactly when type and depth are right and its counters stay within their limits |
| Manifest.IterChunkManifestLines | src/rag_service/ingestion/artifacts.py:259-333 | the stream completes if and only if the actual chunks are the expected ones and pass every check, with one record a chunk |
| Manifest.FinishedRebuildsText | src/rag_service/ingestion/artifacts.py:259-333 | the chunks of a completed stream cover the text without a gap, and their parts beyond the previous end concatenate to it |
| QdrantFilter.FilterAgrees | src/rag_service/indexing/qdrant.py:551-630 | the compiled filter means what the reference evaluator computes on every payload whose filtered fields are faithful |
| QdrantFilter.FaithfulExactly | src/rag_service/indexing/qdrant.py:1391-1430 | a payload value is read alike by every valid condition on a field if and only if it is faithful: no float and no integer beyond 64 bits in an integer field, no integer that `float()` changes or cannot convert in a float field |
| QdrantFilter.GuardIsExact | src/rag_service/indexing/qdrant.py:211-218 | a lower bound passes the exactness guard if and only if its converted range separates all 64-bit integers as the bound does; an upper bound separates them if and only if it passes the guard or is the greatest 64-bit integer |
| QdrantFilter.GreatestRoundsUp | src/rag_service/indexing/qdrant.py:211-218 | the greatest 64-bit integer converts to 2 to the power 63 and is refused by the guard |
| QdrantFilter.SixtyFourBitsConvert | src/rag_service/indexing/qdrant.py:186-208 | a 64-bit integer converts without overflow and stays within 64-bit magnitude |

## Left out

- Knowledge base purge: it removes rows and collections; here knowledge bases and generations are never removed.
- Embedding configurations, provider and credential locks: a configuration is a hash and a check that may fail.
- Ingestion as another writer of a collection under repair: repairs, including workers that have lost their lease, are its only writers.
- Manifests whose length differs from their header, and the end-of-stream check after the last full batch: a repair's batches are those of a manifest of exactly the expected chunks; any failure of the stream is an interruption.
- RepairProgress.FirstPointsArePresent: assumes that a change of content brings a new mutation revision and that late upserts agree with the committed prefix; RepairRuns.SucceededIsExact assumes neither, RepairProgress.AgreeableDecides shows that the second cannot be weakened for a single step, and RepairRaces.StaleMetadataOverwrites is a run that fails it.
- Embedding vectors and scores: a point has its dimension and payload.
- OrphanReconcile.ReconcileCall: sees the claims, the listing and the statuses of both at one moment, where the code reads the statuses in two transactions; it stops where the candidates are known; claiming, authorizing and deleting each of them is in the saga, and the error counters and the encoding of the cursor are not modelled. Collection names are numbers in name order.
- GenerationOutcomes.KeyReusedExactly: assumes that neither the configuration check nor the probe reports the error of a reused key; GenerationOutcomes.KeyStandsForOneCommand does not.
- GenerationStore.Store: the columns that only travel together are grouped into one value, and the lookups of a request and a configured generation are parts of the reserving method.
- Upload timeouts, cancellation, late cleanup of staging objects and the executor's threads in the object store.
- Publish.PartsReassemble: part sizes are any positive number; the lower bound the constructor asks for and the limit on part numbers are not needed.
- Exceptions whose attributes raise when read or written, and clearing of traceback frames.
- ReconcileTermination.ReconcileEnds: from no cursor, in a world that stays as it is; from another cursor it can be false, as ReconcileAlignment.OffbeatLoops shows.
- ReconcileAlignment.EndsExactly: pages of one size; where the last scan of a period is shorter than the others its page is larger, the period has two page sizes, and which cursors end is not characterized.
- ReconcileBounds.ShrinkingWorldEnds: assumes that a scanned claim has been completed or leased again before the next call; a delete that fails for ever expires its claim each time and keeps the calls going.
- RepairStages.IndexingStage: nothing else writes the collection while it runs, which it never reads; in the runs of RepairRuns late upserts land between its steps as well.
- RepairRefinement.CompletingIsARun: a restart on a target equal to the validated one, which needs content changed and changed back without a new revision between the finalizing commit and the reset, is not among its outcomes.
- RepairRefinement.ValidatingIsARun: as in the other stages, a restart comes with a higher revision, or in the last stage with another target.
- File names and content types of uploads, which need Unicode normalization and categories.
- TextValidation.IncrementalTextValidator: the 5 per cent test is the integer comparison it stands for within the byte limit.
- Float values in JSON: a float is the token `repr` gives for it. White space, surrogate pairs and other forms the encoder never writes are not read by the parser.
- Python's recursion limit in the JSON walks.
- Naive date-times in payloads, which Qdrant would read as UTC: an instant is a date-time with an offset.
- FastAPI routes, API keys, health, readiness, settings, the command line and the migrations other than as constraints: wiring, or only easier members.
