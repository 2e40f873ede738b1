# Eno's protocols, verified

Eno turns *compositions* into Kubernetes resources. A set of controllers and short-lived executor pods
share compositions and *resource slices* through an API server that offers only versioned updates and
guarded patches. This project models that protocol and proves what it guarantees over whole runs.

Four components are modelled, each as the source has it: pure decisions are functions, loops and
methods that change objects in place are methods proved against those functions, and the concurrent
system is a step relation whose runs are all sequences of events.

* **Synthesis protocol** (`Lifecycle`, `Aggregation`, `History`, `Pacing`, `ExactlyOnce`, `Deletion`,
  `DeletionRuns`, `Limits`, `Fleet`, `TwoInFlight`, `Pods`, `Reconcilers`). The store of one composition is the log of all its versions. An
  `Update` names the version it was computed from and is accepted only if that is the newest; a JSON
  patch is tested against the newest version, although its values may stem from an older one. `Fleet`
  puts all compositions together with one concurrency limiter and one rollout controller.
* **Slices, tombstones, garbage collection** (`Slicing`, `SliceCleanup`, `SynthesisRuns`,
  `CollectionSafety`, `NoOrphans`, `Orphaning`, `LostSlices`, `SliceExits`). Any number of executors read, look up, slice, create and commit step
  by step around the log, while slices are recorded, condemned, deleted and released.
* **Status write buffer** (`StatusPatch`, `SliceStatus`, `WriteBuffer`, `BufferRefinement`, `BufferRuns`).
  Each event is one critical section of a producer or of the worker; the work queue is modelled with its
  dirty and processing sets, and a batch is computed on any version of the record that a cache may show.
* **Reconstitution cache and readiness order** (`Groups`, `Cache`, `Readiness`). The indexes are related
  to the plain resource list, the neighbour lookup to the nearest key, and the gate to the order of
  writes in every run with stale reads.

## Reading guide

* UUIDs are drawn from a counter, 0 is the empty string; slice names are numbered in creation order;
  time is a natural number; a manifest is its reference, its length and its flags.
* An event that is not possible in a state changes nothing, so every sequence of events is a run.
* Server rules taken as given: section 4.6 of RFC 6902 (`test`), with a test against null passing when
  the field is absent, as the limiter's patch relies on; section 4.3 (`replace`); section 5 (one failing
  operation undoes the whole patch). The attempt counter can be replaced although it may be absent.
* `SortByKey` and `SortByPending` stand for the library's sort; the proofs use only that the result is
  sorted and has the same entries. `inputRevisionsEqual` also reorders its arguments in memory; every
  property here is independent of that order, or is about lists with distinct keys.
* Choices that the source leaves to chance, clocks and other components are parameters of events.

## Where the code is narrower than its description

* *Garbage collection.* A slice of Current is collected if and only if it carries an earlier, non-zero
  attempt and no newer generation (`CurrentIsCollectedExactlyWhenOutrun`). That happens when an executor
  reads the composition before its own attempt is recorded (`OutrunExecutorLosesItsSlice`). Resources are
  never orphaned as long as no such executor's successful result is stored (`NothingIsOrphaned`), and that
  is exact: if one is, a continuation orphans each of its resources (`AccountedExactly`). A decision to
  delete an unreferenced slice stands if and only if not its author read too early, still holds it and was
  not overtaken since (`DeleteDecisionStands`).
* *Attempt counter.* The patch that records an attempt writes one more than the version its author had
  read. While the one worker that sends it never reads an older version than before, the counter never
  falls, however stale its reads are (`ServeKeepsPaced`); the theorems named `...InOrder` ask for no more
  than that. The general ones ask that no accepted attempt lowers the counter (`NeverLowers`,
  `AdmissibleRun`) or takes a deferred synthesis back below two attempts (`SteadyRun`). If reads do go
  back, `LoweredAttemptRevivesSlice` and `LoweredAttemptBreaksRollout` show runs in which both fail.
* *Neighbour lookup.* `RangeByReadinessGroup` takes a child as the neighbour without looking below it, and
  then skips groups exactly when that child has an inner subtree (`RangeIsNearestExactly`,
  `ShortcutSkipsGroup`). The readiness order holds in every run if and only if no descending lookup does
  that (`OrderHoldsExactly`).
* *Write buffer.* Putting a failed batch back can leave two entries for one manifest, exactly when that
  manifest got a new update during its own failing send (`PutBackIsCleanExactly`); then an old update
  can overwrite the newest (`UncleanFailureStoresStaleUpdate`). Also, the worker skips an update whose wish
  its cache shows on record. If that cache is stale, the update is gone although the record is different
  (`StaleReadLosesUpdate`). In runs without the former, a manifest is up to date throughout if and only if
  the latter never happens to it (`UpToDateExactly`).
* *Deletion.* If Current failed, it is Current that is cleaned up before the finalizer goes; the last
  successful synthesis is then Previous and is not looked at (`RemovalSeesNewestExactly`,
  `FailureHidesPrevious`). Slices leave the store only when everything in them is gone, nothing refers to
  them, or a later attempt is on record, of whichever synthesis (`LeavesStoreExactly`). A failed synthesis that a swap discarded is forgotten: then the finalizer may go although a
  synthesis had completed and nobody saw anything gone (`FailureIsForgotten`), and only then
  (`StrictRemovalExactly`). The rollout controller does not look at deletion, so each of its swaps permits
  one more revert and one more mark; `DeletionMeasure` counts them, `MarkedTwice` and `RevertedTwice` reach
  the bound. Without such swaps it is one revert and one mark.
* *Aggregation.* When all slices of a deleting composition are gone, or hold nothing, everything counts as
  ready but there is no time to record, so every round writes again (`AggregationSettlesExactly`).
* *Rollout.* A deferred synthesis with two attempts no longer blocks the rollout, and counts again when its
  counter is lowered (`FlightStartsExactly`).
* *Input comparison.* Over different keys the comparison is not symmetric (`DeferredKeyHidesForeignKey`).
* The comment on `resourceNotReconciled` describes the opposite of what it returns, and says that deletion
  alone suffices; the code always asks for Reconciled as well. The model follows the code.

## Model

| member | source | states |
|---|---|---|
| Inputs.SetInputRevisions | internal/controllers/watch/kind.go:240-253 | replaces the first entry with the key or appends one, and reports a change exactly when the list differs |
| Inputs.RecordingKeepsKeysDistinct | internal/controllers/watch/kind.go:240-253 | recording keeps keys distinct, stores its own revision and leaves the entry of every other key alone |
| Inputs.PruneOne | internal/controllers/watch/pruning.go:24-39 | removes the first entry whose key is not bound, if there is one |
| Inputs.PruneIsExact | internal/controllers/watch/pruning.go:24-48 | a prune step keeps every bound entry, adds none and removes one unbound entry if there is any |
| Inputs.KeysStayDistinct | internal/controllers/watch/pruning.go:24-48 | in every run of watch and prune steps the keys stay distinct |
| Inputs.InputRevisionsEqual | internal/controllers/synthesis/lifecycle.go:425-457 | the counting loop over the sorted lists decides position-wise equality up to deferred keys, the last ref of a key deciding |
| Inputs.ComparisonIsAgreement | internal/controllers/synthesis/lifecycle.go:425-457 | over the same distinct keys it is true exactly when the lists agree as maps on every non-deferred key |
| Inputs.DeferredIsLastRef | internal/controllers/synthesis/lifecycle.go:431-435 | a key is deferred if and only if the last ref with that key defers it |
| Inputs.ComparisonIgnoresOrder | internal/controllers/synthesis/lifecycle.go:440-444 | it is symmetric and does not depend on the order of either list |
| Inputs.DeferredKeyHidesForeignKey | internal/controllers/synthesis/lifecycle.go:445-456 | over different keys it is not symmetric: a deferred key hides what stands at its position |
| Lifecycle.CheckInputsExist | api/v1/composition.go:146-171 | true exactly when every binding that a ref mentions has an observed revision |
| Lifecycle.CheckInputsOutOfLockstep | api/v1/composition.go:176-205 | true exactly when an input stems from an older synthesizer or two inputs declare different revisions |
| Lifecycle.InputsReadyExactly | api/v1/composition.go:146-205 | inputs exist and are in lockstep if and only if every bound and referenced key was observed, no input stems from an older synthesizer and all declared revisions are equal |
| Lifecycle.SwapDueExactly | internal/controllers/synthesis/lifecycle.go:391-406 | over the same keys a swap is due if and only if there is no Current, the generation changed, or a non-deferred input of a synthesized Current changed and side effects count; and the inputs are ready or the composition is deleting |
| Lifecycle.NoSwapAtRest | internal/controllers/synthesis/lifecycle.go:391-406 | no swap is due while the generation and each non-deferred input, by revision or resource version, are as they were synthesized |
| Lifecycle.SwapOnChangeExactly | internal/controllers/synthesis/lifecycle.go:404 | after a change of one input of a composition at rest a swap is due if and only if the input is not deferred and side effects are not ignored |
| Lifecycle.SwapOnNewInput | internal/controllers/synthesis/lifecycle.go:427-429 | an input that was not there before makes a swap due |
| Lifecycle.SwapSettles | internal/controllers/synthesis/lifecycle.go:379-406 | a swap settles whatever asked for it and leaves the composition waiting for dispatch, not active |
| Lifecycle.MarkSettles | internal/controllers/synthesis/lifecycle.go:231-251 | a mark leaves neither a revert nor a mark due, keeps slices, results and Previous, and waits for reconciliation unless nothing was ever synthesized |
| Aggregation.FoldStates | internal/controllers/aggregation/slice.go:73-88 | the inner loop computes readiness and reconciliation of all states of a slice and the latest ready time |
| Aggregation.FoldSlices | internal/controllers/aggregation/slice.go:49-89 | the fold aborts exactly at a missing slice of a live composition, else decides whether every existing slice is settled and ready, with the latest ready time |
| Aggregation.MaxReadyIsMaximum | internal/controllers/aggregation/slice.go:85-87 | the time kept is the maximum of the recorded ready times |
| Aggregation.AggregatedIsLatest | internal/controllers/aggregation/slice.go:95-125 | Reconciled is recorded exactly when every existing slice is settled, Ready exactly when all states are ready and there is one, and it is their maximum |
| Aggregation.ReconciledExactly | internal/controllers/aggregation/slice.go:66-144 | Reconciled is recorded if and only if every existing slice has its states, all are reconciled, and all are deleted when the composition is deleting and does not orphan |
| Aggregation.LiveReconciledExactly | internal/controllers/aggregation/slice.go:137-144 | a live composition becomes reconciled exactly when all states are |
| Aggregation.ReadyExactly | internal/controllers/aggregation/slice.go:81-112 | Ready is recorded if and only if all states are there and ready and there is one; without slices it is the earlier reconciliation |
| Aggregation.AggregationDueExactly | internal/controllers/aggregation/slice.go:146-155 | an aggregation is due if and only if Current is synthesized, not both ready and reconciled, and its record differs from what the slices show |
| Aggregation.MissingSliceAborts | internal/controllers/aggregation/slice.go:57-71 | a missing slice stops the aggregation exactly of a live composition |
| Aggregation.AggregationSettlesExactly | internal/controllers/aggregation/slice.go:91-125 | repeating an aggregation on the same slices writes again if and only if everything counts as ready but there is no ready time to record |
| History.StatusInvariant | internal/controllers/synthesis/lifecycle.go:379-389 | in every version of every run Previous is synthesized and not failed, an unsynthesized Current has no slices, observed generations are not ahead, and Current and Previous differ in UUID |
| History.PreviousNeverMovesAlone | internal/controllers/synthesis/lifecycle.go:216-251 | from one version to the next Previous does not change while Current keeps a non-empty UUID |
| History.StepFollows | internal/execution/executor.go:199-212 | after any write each synthesis has no UUID, a new UUID, or comes from the version before with its generation and, once synthesized, its result unchanged |
| ExactlyOnce.CommitEffect | internal/execution/executor.go:194-212 | a stored commit found its own synthesis in progress and left exactly its slices, results and input revisions |
| ExactlyOnce.AtMostOneCommit | internal/execution/executor.go:186-237 | two accepted commits of a run have different UUIDs, whatever pods, attempts and retries |
| ExactlyOnce.CommittedIsImmutable | internal/execution/executor.go:199-212 | in every later version the committed synthesis has the slices, results and input revisions that were stored |
| ExactlyOnce.LosersChangeNothing | internal/execution/executor.go:222-237 | after a commit no other commit of that UUID changes the store |
| ExactlyOnce.CommitAcceptedExactly | internal/execution/executor.go:188-237 | a commit is accepted if and only if it was computed from the newest version, which has its synthesis in progress at no later attempt |
| ExactlyOnce.AttemptAcceptedExactly | internal/controllers/synthesis/lifecycle.go:192-204 | an attempt is accepted if and only if its synthesis was in progress in the version read and is in the newest; it changes the counter and the pod's time only |
| ExactlyOnce.DispatchAcceptedExactly | internal/controllers/flowcontrol/synthesis.go:77-90 | a dispatch is accepted if and only if Current has no UUID; it changes the UUID only |
| ExactlyOnce.ObservedExactly | internal/controllers/watch/kind.go:199-206 | an observation is skipped exactly if the revision is on record, and requests a resynthesis exactly if it is deferred, none is pending and side effects count |
| ExactlyOnce.HousekeepingExactly | internal/controllers/rollout/controller.go:68-80 | when a resynthesis is requested, withdrawn and carried out, and the finalizer added, and that nothing else changes |
| Deletion.FinalizerRemovalIsSafe | internal/controllers/synthesis/lifecycle.go:211-268 | the finalizer is removed only if an aggregation after the deletion saw every existing slice's resources Reconciled and Deleted or orphaned on purpose, or no synthesis ever succeeded and Current, if any, never got a result |
| Deletion.StrictRemovalExactly | internal/controllers/synthesis/lifecycle.go:236-243 | at the removal, "no synthesis ever completed, or everything was seen gone" holds if and only if everything was seen gone or no swap discarded a failed synthesis |
| Deletion.DeletionStepExactly | internal/controllers/synthesis/lifecycle.go:413-423 | which of revert, mark and removal is due for a deleting composition, in the fields it has |
| Deletion.RemovalSeesNewestExactly | internal/controllers/synthesis/lifecycle.go:211-268 | once a synthesis succeeded, Current is seen gone before the removal, and it is the last successful one if and only if it did not fail |
| DeletionRuns.FailureHidesPrevious | internal/controllers/synthesis/lifecycle.go:413-419 | a run in which Current failed and the finalizer may go although Previous with its slice was never looked at |
| Deletion.DeletionCanFinish | internal/controllers/synthesis/lifecycle.go:211-268 | from every reachable state of a deleting composition the finalizer goes within four writes once its slices are gone |
| SliceExits.LeavesStoreExactly | internal/controllers/synthesis/slicecleanup.go:58-71 | a slice leaves the store exactly when it is released while being deleted, not newer than Current, and overtaken, or with Current synthesized and everything gone or nothing referring to it |
| SliceExits.NothingIsLeftBehind | internal/controllers/synthesis/slicecleanup.go:169-201 | with slices and collection around the log: at the removal no synthesis got a result, or every slice of Current was seen with everything gone after the deletion, or had left the store with everything gone or overtaken |
| DeletionRuns.FailureIsForgotten | internal/controllers/synthesis/lifecycle.go:236-243 | a run: failed commit, edit, swap, deletion, mark, and the finalizer may go |
| Deletion.AggregationSees | internal/controllers/aggregation/slice.go:45-125 | an aggregation of a deleting composition that sets Reconciled saw exactly that |
| Deletion.DeletionMeasure | internal/controllers/synthesis/lifecycle.go:413-423 | at a fixed generation the reverts and marks done, plus those still possible, are at most one each, plus one for each rollout swap |
| DeletionRuns.MarkedTwice | internal/controllers/rollout/controller.go:104-108 | a run with two marks at one generation of a deleting composition, with one rollout swap between them |
| DeletionRuns.RevertedTwice | internal/controllers/rollout/controller.go:104-108 | a run with two reverts at one generation of a deleting composition, with one rollout swap between them |
| Slicing.BuildTombstones | internal/resource/slicing.go:33-53 | one slice's loop yields exactly the tombstones that are needed, or fails on a manifest that does not decode |
| Slicing.Slice | internal/resource/slicing.go:16-90 | the whole algorithm yields the packed, labelled manifests, and fails exactly on an output that does not encode or a stored manifest that does not decode |
| Slicing.Partition | internal/resource/slicing.go:56-87 | the packing loop with its byte counter computes the specified packing, labelled with generation, UUID and attempt |
| Slicing.NothingIsForgotten | internal/resource/slicing.go:30-54 | each non-Patch resource of the previous slices is stored again, live or as a tombstone, or is output as a Patch, or was already buried |
| Slicing.TombstonesAreSound | internal/resource/slicing.go:41-52 | a tombstone is a previous non-Patch resource that the output does not name and whose deletion is not recorded |
| Slicing.TombstonesExactly | internal/resource/slicing.go:30-54 | there is a tombstone for a previous position if and only if it is no Patch, no output names it, and it is not a tombstone or in a deleting slice with its state recorded reconciled |
| Slicing.RecordedDeletionsAreDropped | internal/resource/slicing.go:46-49 | once everything left out is a tombstone recorded reconciled, exactly the outputs are stored |
| Slicing.OutputsComeFirst | internal/resource/slicing.go:19-28 | every output is stored as it is, in order, before any tombstone |
| NoOrphans.PlanIsOutputsAndOutstanding | internal/execution/executor.go:115-126 | an executor's plan holds its outputs and tombstones for positions that its lookups show as not deleted yet, and nothing else |
| Slicing.PackingLosesNothing | internal/resource/slicing.go:63-87 | concatenating the slices gives the manifests back in order |
| Slicing.PackingIsTight | internal/resource/slicing.go:63-87 | no slice is empty, each is under a positive limit without its last manifest, each but the last reaches the limit |
| Slicing.SliceCount | internal/resource/slicing.go:63-87 | (slices - 1) * limit is at most the bytes to store |
| SliceCleanup.CacheOnlyVetoes | internal/controllers/synthesis/slicecleanup.go:83-120 | whatever an owned slice's decision permits is what the uncached state permits |
| SliceCleanup.ChosenExactly | internal/controllers/synthesis/slicecleanup.go:149-167 | when a slice is chosen for deletion, in generations, attempts and references |
| SliceCleanup.ReleasedExactly | internal/controllers/synthesis/slicecleanup.go:169-201 | when its finalizer is released, in generations, attempts, references and recorded deletions |
| SliceCleanup.CleanupExactly | internal/controllers/synthesis/slicecleanup.go:83-137 | the decision for each combination of owner, cache, age and uncached state |
| SynthesisRuns.NextKeepsOrigins | internal/execution/executor.go:115-142 | every step keeps: the references of Current and Previous are slices that executors of that very synthesis created, with labels of the version they read |
| SynthesisRuns.ExecuteKeepsOrigins | internal/resource/slicing.go:78-82 | the same in every reachable state |
| SynthesisRuns.FinishOk | internal/execution/executor.go:128-141 | the references that an executor commits are its own slices, in the order of its plan |
| CollectionSafety.PreviousIsNeverCollected | internal/controllers/synthesis/slicecleanup.go:149-167 | in every reachable state that is not deleting, no slice of Previous is chosen for deletion |
| CollectionSafety.CurrentIsCollectedExactlyWhenOutrun | internal/controllers/synthesis/slicecleanup.go:149-167 | a slice of Current is chosen if and only if its generation is not newer and its attempt is non-zero and below the recorded one |
| CollectionSafety.CurrentIsNeverCollected | internal/resource/slicing.go:78-82 | a slice of Current labelled with attempt 0 or its executor's own attempt is never chosen |
| CollectionSafety.OldSliceIsNeverNeeded | internal/controllers/synthesis/slicecleanup.go:156-166 | an unreferenced slice of an older generation is never referenced again in any continuation of the run |
| CollectionSafety.OvertakenSliceIsNeverNeeded | internal/execution/executor.go:222-237 | an unreferenced slice whose author is to be skipped is never referenced again, if no accepted attempt lowers the counter |
| CollectionSafety.RetriedMeansOvertaken | internal/controllers/synthesis/slicecleanup.go:155 | a slice that has been retried and is labelled with its author's own attempt has such an author |
| CollectionSafety.NeverNeededExactly | internal/execution/executor.go:186-237 | an unreferenced slice is referenced in no continuation if and only if no executor holds it that could commit it now |
| CollectionSafety.DeleteDecisionStands | internal/controllers/synthesis/slicecleanup.go:149-167 | a decision to delete an unreferenced slice, for any of its three reasons, is invalidated by no later commit if and only if not its author read too early, still holds it and is not to be skipped |
| CollectionSafety.DeleteDecisionStandsInOrder | internal/controllers/synthesis/lifecycle.go:192-204 | the same over all continuations in which the worker's reads do not go back |
| CollectionSafety.OrderlyNeverLowers | internal/controllers/synthesis/lifecycle.go:192-204 | in every run in which the worker's reads do not go back no accepted attempt lowers the counter |
| Pacing.ServeKeepsPaced | internal/controllers/synthesis/lifecycle.go:193-198 | one request keeps: counters are monotone per UUID and at most one ahead of what may still be read, so an attempt computed from there does not lower them |
| LostSlices.OutrunExecutorLosesItsSlice | internal/controllers/synthesis/lifecycle.go:192-204 | a run with reads in order in which a slice is chosen for deletion while unreferenced, then committed, and chosen although Current refers to it, because its executor read too early |
| LostSlices.LoweredAttemptRevivesSlice | internal/controllers/synthesis/lifecycle.go:192-204 | a run in which a slice rightly chosen for deletion is committed afterwards, because an attempt from an older read lowered the counter |
| LostSlices.EarlyReadOrphansResource | internal/controllers/synthesis/slicecleanup.go:169-176 | a run with reads in order in which the slice of an executor that read too early is collected and its resource is orphaned by the next synthesis |
| NoOrphans.NothingIsOrphaned | internal/resource/slicing.go:17-54 | in every run that stores no successful result of an outrun executor and lowers no counter: a resource of a stored successful synthesis is held by the newest one, or was last held as tombstones recorded Reconciled, or was taken over by a Patch |
| Orphaning.AccountedExactly | internal/controllers/synthesis/slicecleanup.go:149-176 | when a successful result is stored, its live resources stay accounted for in every such continuation if and only if its executor is not outrun |
| Orphaning.LoseEverything | internal/execution/executor.go:144-167 | otherwise: from any reachable state the slices can be collected, the composition resynthesized to nothing, and the resource is orphaned |
| NoOrphans.OwnReadIsNotOutrun | internal/controllers/synthesis/pod.go:44-49 | an executor that read no attempt or its own one is not outrun when its result is stored |
| NoOrphans.NothingIsOrphanedInOrder | internal/controllers/synthesis/lifecycle.go:192-204 | the same for runs in which the worker's reads do not go back and no successful result of an outrun executor is stored |
| NoOrphans.LinkAccounts | internal/execution/executor.go:144-167 | between two consecutive successful syntheses a resource is kept, taken over by a Patch, or its recorded deletion is complete |
| NoOrphans.FinishLinks | internal/controllers/synthesis/lifecycle.go:379-389 | the executor that commits next was diffed against the last successful synthesis, all of whose slices it found |
| NoOrphans.RunKeepsSafe | internal/controllers/synthesis/slicecleanup.go:149-176 | in every such run every slice that Previous or a successful Current refers to, or that an executor may still commit without being outrun, exists and is not condemned |
| Limits.CountSyntheses | internal/controllers/flowcontrol/synthesis.go:46-59 | counts the active syntheses and collects exactly the pending ones |
| Limits.DecideDispatch | internal/controllers/flowcontrol/synthesis.go:63-71 | dispatches a pending composition exactly when there is one and the active ones are below the limit |
| Limits.DispatchExactly | internal/controllers/flowcontrol/synthesis.go:46-71 | a listed composition may be dispatched if and only if it is unsynthesized without UUID and fewer than the limit are unsynthesized with one |
| Limits.ScanDeferred | internal/controllers/rollout/controller.go:46-66 | blocks exactly on a deferred synthesis in progress with fewer than two attempts, else finds out whether some completion is within the cooldown |
| Limits.FindCancellable | internal/controllers/rollout/controller.go:71-80 | finds a pending resynthesis of a composition that ignores side effects, if there is one |
| Limits.DecideRollout | internal/controllers/rollout/controller.go:46-119 | fires only for the eligible composition with the earliest PendingResynthesis and only when all listed completions are a cooldown ago; each other outcome has its reason |
| Limits.RolloutExactly | internal/controllers/rollout/controller.go:46-115 | a rollout fires exactly for the earliest pending request, when nothing is to be cancelled, in flight or completed within the cooldown |
| Limits.SortKeepsEntries | internal/controllers/rollout/controller.go:82-85 | the sort orders by pending time and keeps the entries |
| Fleet.ConcurrencyLimit | internal/controllers/flowcontrol/synthesis.go:46-90 | in every run the number of dispatched and not yet synthesized compositions is at most the limit |
| Fleet.OnlyDispatchActivates | internal/controllers/synthesis/lifecycle.go:211-251 | no write but a dispatch raises that number |
| Fleet.ListShowsAll | internal/controllers/flowcontrol/synthesis.go:40-59 | a list that reflects the controller's own writes counts at least the compositions that have the property now |
| Fleet.OneDeferredAtATime | internal/controllers/rollout/controller.go:46-60 | in every run in which no accepted attempt takes a deferred synthesis from two attempts or more to fewer, at most one deferred synthesis with fewer than two attempts is in progress |
| Fleet.OneDeferredInOrder | internal/controllers/rollout/controller.go:46-60 | the same for every run in which the worker's reads of each composition do not go back |
| Fleet.FlightStartsExactly | internal/controllers/rollout/controller.go:54-56 | a write puts a deferred synthesis in flight if and only if it is a rollout swap or an attempt that takes a deferred one from two attempts or more to fewer |
| TwoInFlight.LoweredAttemptBreaksRollout | internal/controllers/synthesis/lifecycle.go:193-198 | a run, for every cooldown, that ends with two deferred syntheses in flight: the first reaches its second attempt, the second is rolled out, then an attempt from an older read lowers the first counter |
| Pods.ShouldDeletePod | internal/controllers/synthesis/lifecycle.go:270-353 | picks the first running pod exactly when at most one pod terminates and there is a reason, and reports a vacancy exactly when at most one pod exists and none runs |
| Pods.KeptExactly | internal/controllers/synthesis/lifecycle.go:297-350 | a running pod is kept if and only if none of the reasons applies, in the fields of pod and composition |
| Pods.VacantExactly | internal/controllers/synthesis/lifecycle.go:271-291 | there is room for a pod exactly if there is none or a single terminating one |
| Pods.OnePodPerSynthesis | internal/controllers/synthesis/lifecycle.go:167-185 | in every run, with any caches, at most one non-terminating pod exists per synthesis UUID |
| Pods.PodBounds | internal/controllers/synthesis/lifecycle.go:115-135 | with fresh lists a composition has at most two pods, at most one of them not terminating |
| Pods.BoundsAreReached | internal/controllers/synthesis/lifecycle.go:275-285 | a run with fresh lists in which a second pod is created while the first terminates |
| WriteBuffer.NoLostWakeup | internal/flowcontrol/writebuffer.go:60-124 | in every interleaving a slice with buffered updates is queued, dirty, delayed, or held by the worker where it will still take them or requeue the slice |
| WriteBuffer.QuietMeansEmpty | internal/flowcontrol/writebuffer.go:90-124 | when the queue is quiet and the worker idle nothing is buffered |
| WriteBuffer.ProducerStep | internal/flowcontrol/writebuffer.go:60-78 | in the step relation a producer wakes the worker exactly if the manifest has no entry yet |
| WriteBuffer.EmptyRound | internal/flowcontrol/writebuffer.go:106-109 | a round without updates takes the slice off the queue |
| WriteBuffer.SentRound | internal/flowcontrol/writebuffer.go:111-115 | a round that sends its batch, or finds the slice gone, stores it and comes back after the delay |
| WriteBuffer.FailedRound | internal/flowcontrol/writebuffer.go:117-123 | a round whose send fails leaves the buffer as it was and comes back |
| WriteBuffer.ResourceSliceWriteBuffer.PatchStatusAsync | internal/flowcontrol/writebuffer.go:60-78 | replaces the first entry of the manifest without queueing, or appends one and queues the slice |
| WriteBuffer.ResourceSliceWriteBuffer.ProcessQueueItem | internal/flowcontrol/writebuffer.go:90-124 | with any producers in between: takes the batch, puts it back before what arrived meanwhile on an error, requeues unless it was empty |
| BufferRefinement.NoUpdateIsLost | internal/flowcontrol/writebuffer.go:60-124 | in every run each accepted update is buffered, in flight, superseded by a newer one for the same manifest, sent, found on record in a version that the worker read, or dropped because the slice is gone |
| BufferRefinement.Refines | internal/flowcontrol/writebuffer.go:64-77 | every step is a step of the map from manifest to latest update, where a send stores what the version read asks for; update numbers stay ordered |
| BufferRefinement.BufferIsLatestMap | internal/flowcontrol/writebuffer.go:101-121 | in every run with clean failures: the same, what is stored never goes back, and a step keeps a manifest up to date if and only if the worker does not skip its pending update on a read that shows what is no longer on record |
| BufferRefinement.UpToDateExactly | internal/flowcontrol/writebuffer.go:126-204 | in a run with clean failures a manifest waits for its latest update, or has it on record or dropped, throughout, if and only if that never happens to it |
| BufferRefinement.BatchIsPatches | internal/flowcontrol/writebuffer.go:165-191 | the batch of the step relation is the server applying the patches that the worker builds |
| BufferRuns.StaleReadLosesUpdate | internal/flowcontrol/writebuffer.go:132-183 | a run without any failure in which the latest update is skipped on a stale read and the record stays different |
| BufferRefinement.PutBackIsCleanExactly | internal/flowcontrol/writebuffer.go:117-121 | put-back leaves one entry per manifest if and only if no manifest got a new update during the failing send |
| BufferRuns.UncleanFailureStoresStaleUpdate | internal/flowcontrol/writebuffer.go:64-77 | a run in which an older update overwrites the newest |
| SliceStatus.BuildPatches | internal/flowcontrol/writebuffer.go:165-180 | the loop collects one replace operation per update whose patch function asks for one |
| SliceStatus.BatchHitsItsTargets | internal/flowcontrol/writebuffer.go:165-191 | a batch with distinct manifests is accepted and changes exactly the targeted positions to their patch function's value |
| SliceStatus.TargetEndsAsWantedExactly | internal/flowcontrol/writebuffer.go:168-172 | however stale the read, a target ends up as its update wants if and only if the read asked for a patch or there was nothing to patch |
| SliceStatus.FreshBatchStoresWhatIsWanted | internal/controllers/reconciliation/controller.go:409-420 | on an up-to-date read every target ends up Reconciled with the wanted deletion and ready time |
| SliceStatus.StatusStaysAligned | internal/flowcontrol/writebuffer.go:148-163 | in every version of every run the status list is empty or as long as the spec list |
| SliceStatus.PreallocationExactly | internal/flowcontrol/writebuffer.go:148-163 | an unallocated status is allocated, blank, from its newest version, and only then |
| SliceStatus.BatchIsAccepted | internal/flowcontrol/writebuffer.go:165-199 | however stale the worker's read, its indices are in range and the server accepts the batch |
| SliceStatus.FindStatusMissesOnlyUnallocated | internal/resource/resource.go:95-101 | a manifest's state is missing exactly when the status is not allocated |
| Groups.PutIsUpdate | internal/reconstitution/cache.go:221-222 | inserting keeps the search order and updates exactly one key |
| Groups.RangeIsSound | internal/reconstitution/cache.go:76-116 | the result is from a group strictly on the requested side; there is none only if that side is empty or when descending from 0 |
| Groups.RangeIsNearestExactly | internal/reconstitution/cache.go:89-115 | the result is the nearest group if and only if the search path is taken or the child has no inner subtree |
| Groups.CeilingIsNearest | internal/reconstitution/cache.go:105-113 | the ascending search finds the nearest higher group, or there is none |
| Groups.FloorIsNearest | internal/reconstitution/cache.go:105-113 | the descending search finds the nearest lower group, or there is none |
| Groups.ShortcutSkipsGroup | internal/reconstitution/cache.go:94-103 | a tree in which the shortcut skips a group |
| Cache.BuildResources | internal/reconstitution/cache.go:198-236 | fails exactly on a stale slice or an invalid manifest; else all indexes agree with the plain resource list |
| Cache.AddKeepsAgreement | internal/reconstitution/cache.go:212-232 | one resource more: group and kind indexes stay the order-preserving filters, by-ref the last match, CRDs the last definition |
| Cache.ReconstitutionCache.Fill | internal/reconstitution/cache.go:176-196 | stores agreeing indexes and tracks the UUID, or changes nothing; cached and tracked stay the same |
| Cache.ReconstitutionCache.Purge | internal/reconstitution/cache.go:242-260 | the loop drops exactly the tracked syntheses that are neither Current nor Previous; cached and tracked stay the same |
| Cache.ReconstitutionCache.HasSynthesis | internal/reconstitution/cache.go:161-172 | the lookup in the index tells whether the composition's tracked UUIDs list the synthesis, as every fill and purge maintains |
| Cache.CachedAreTracked | internal/reconstitution/cache.go:174-260 | over any run of fills and purges the cached syntheses are exactly the tracked UUIDs |
| Cache.PurgeIsExact | internal/reconstitution/cache.go:242-260 | after any run a purge keeps exactly the cached Current and Previous and leaves other compositions alone |
| Cache.UsableExactly | internal/reconstitution/cache.go:206-216 | slices can be used if and only if all manifests are valid and a deleting composition has only deleting slices |
| Readiness.TransitiveOrder | internal/controllers/reconciliation/controller.go:165-222 | in every run a live resource is written or recorded only after every live resource of every lower group had been recorded ready |
| Readiness.OrderHoldsExactly | internal/reconstitution/cache.go:94-115 | for natural groups with a live resource each, the order holds in every run if and only if no descending lookup takes a child with an inner subtree |
| Readiness.InexactBreaksOrder | internal/controllers/reconciliation/controller.go:181-207 | otherwise there is a run that writes a resource while a lower group has not been recorded |
| Readiness.GateOrders | internal/controllers/reconciliation/controller.go:181-196 | passing the gate, with arbitrarily stale reads, implies that all lower groups had been recorded ready |
| Readiness.PassesExactly | internal/controllers/reconciliation/controller.go:181-196 | a resource passes the gate if and only if it is deleted, read as reconciled, or its looked-up group was read as ready throughout |
| Readiness.TombstoneIsNeverRefused | internal/controllers/reconciliation/controller.go:182 | a reconciliation of a tombstone always goes ahead and is reported unless its write changed something |
| Readiness.ReadinessSticks | internal/controllers/reconciliation/controller.go:170-179 | readiness on record stays, otherwise it is what the checks yield |
| Readiness.DependenciesAreNearest | internal/reconstitution/cache.go:76-116 | where the lookup is exact the dependencies are all resources of the nearest lower group, or there is no lower group |
| Reconcilers.CompositionObject.SwapStates | internal/controllers/synthesis/lifecycle.go:379-389 | the assignments produce the swapped version that the protocol is proved for |
| Reconcilers.CompositionObject.DeferredSwap | internal/controllers/rollout/controller.go:104-108 | the assignments are the rollout write |
| Reconcilers.CompositionObject.ReconcileDeleted | internal/controllers/synthesis/lifecycle.go:211-268 | each round makes one enabled write, a revert, a mark or the removal of the finalizer, and waits exactly when none of them is enabled |
| Reconcilers.CompositionObject.RecordOutput | internal/execution/executor.go:194-210 | the in-place rewrite is the commit, and nothing changes when the synthesis is no longer relevant |
| Reconcilers.CompositionObject.Aggregate | internal/controllers/aggregation/slice.go:45-125 | writes exactly when the aggregation is due, and then what it stands for |
| Reconcilers.CompositionObject.ObserveInput | internal/controllers/watch/kind.go:199-206 | writes exactly when the revision is new, and requests a deferred resynthesis when asked to |
| Reconcilers.CompositionObject.PruneInputs | internal/controllers/watch/pruning.go:24-39 | writes exactly when an entry is pruned |
| Reconcilers.CompositionStore.UpdateComposition | internal/execution/executor.go:186-220 | with any interference the retry loop changes the store at most once, by its own commit, and not at all when it is skipped or gives up |

## Left out

- Whether a live object in the target cluster is really gone: deletion is stated on recorded slice states.
- Progress of a deletion whose Current synthesis failed: the reconciler skips failed syntheses, so only safety holds there.
- Backoff, rate limits and delays as durations: a delay is an event that may happen at any time.
- The gate on the CRD that defines a resource's kind: it is a second, simpler gate before the one modelled.
- The cache's `byIndex` map: it is written outside the lock and never purged, so it agrees with nothing.
- Building of the executor's input, of the pod's specification and its environment: only UUID and attempt matter here.
- Deletion of pods whose composition is gone, and of slices without an owner, beyond the decision itself.
- Symphony replication, watchdog, namespace liveness and the simplified status: smaller per-object logic.
- JSON encoding, merge patches, CEL readiness checks, OpenAPI and Helm: library code; manifests are opaque.
- Rebalancing of the red-black tree: the lookup is proved for search trees of every shape, insertion for the plain tree.
- SliceExits.NothingIsLeftBehind: assumes that the status aggregation takes a slice for gone only if it has left the store, and otherwise sees it as recorded.
- Requests for resynthesis: the comparison of synthesizer generations and the lockstep test before them only make them rarer.
- Shutdown of the write buffer: the guarantees are for the time before it.
- Reconcilers.CompositionStore.UpdateComposition: interference comes between the read and the write of each round; the number of rounds is a parameter.
- Fleet.ConcurrencyLimit: assumes that each list reflects the limiter's own earlier dispatches.
- Fleet.OneDeferredAtATime: assumes that each list reflects the rollout controller's own earlier swaps, and that no accepted attempt reopens a deferred synthesis, without which it is false.
- Fleet.OneDeferredInOrder: assumes the first of these, and that the worker that records attempts never reads an older version of a composition than before.
- CollectionSafety.CurrentIsNeverCollected: assumes that the slice is labelled with attempt 0 or its executor's attempt, without which it is false.
- CollectionSafety.OvertakenSliceIsNeverNeeded: assumes that no accepted attempt lowers the counter, without which it is false.
- CollectionSafety.DeleteDecisionStands: looks at continuations in which no accepted attempt lowers the counter.
- NoOrphans.NothingIsOrphaned: assumes that no successful result of an outrun executor is stored, without which it is false, that no accepted attempt lowers the counter, and a composition that is not being deleted.
- BufferRefinement.BufferIsLatestMap: looks at runs in which no manifest gets a new update during its own failing send, without which it is false.
- Readiness.TransitiveOrder: assumes non-negative groups, exact lookups and a live resource in each group; "recorded ready" means in some version so far, since the record may change later.
