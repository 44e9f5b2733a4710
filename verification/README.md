# PR verification service: verified models

A Dafny model of the protocols and decision procedures of a service that verifies pull requests, with
proofs about every run or every input. Each module models one component:

| module | what it models |
|---|---|
| `JobRuntime`, `JobProgress`, `JobOutcomes`, `JobRuntimeObject`, `MemoryJobQueue` | the cooperative job runtime: generations, the chained processing slot, the one-cell wakeup, what the loops achieve by themselves and what their operations answer; the in-memory queue |
| `DurableJobs` | the SQLite job queue together with the result registry, through crashes and reopenings |
| `ResultRegistry`, `ResultRegistryObjects` | the in-memory and SQLite result registries against one bounded list |
| `CheckRunPublisher`, `PublisherOutcomes`, `CheckRunPublisherObject`, `FreshnessCache`, `FreshnessMarker` | publication of GitHub Check Runs under a remote freshness marker, with a bounded local fast path |
| `ArtifactTree`, `ArtifactListing`, `DependencyTransfer`, `NameOrder` | canonical content hashes of directory trees and the verified transfer of a dependency artifact |
| `SnapshotComposition`, `SnapshotLeases`, `SnapshotStoreObjects`, `SnapshotIdentity`, `PublishedComposition` | the composition lease and first-writer publication of composed snapshots |
| `ReplayGuard`, `ReplayGuardObject`, `WebhookHandlers` | webhook replay protection under concurrent handlers |
| `PatchLines`, `WorkflowEvidence` | reading unified diffs and the two workflow checks based on them |
| `Verdict`, `Planner`, `Pipeline` | planning, selecting and executing checks, and the status of a verification |
| `CheckRunEvaluation` | the CI verdict over a commit's Check Runs |
| `FindFiles`, `SnapshotReference` | the file search of project detection; snapshot references |
| `Text`, `Options` | strings, numerals and small result types used above |

## How the models relate to the program

A protocol is a state machine whose steps are the code between two `await`s, or one effect on the file
system, the database or GitHub. What the environment answers is a parameter of the step, so a statement
about all runs covers every interleaving and every failure. Code that updates its own state is also
written as a class whose methods update the same fields, each proved equal to one step of the machine or
to a function of the old state; the objects of the runtime and of the publisher keep, as their `Valid()`,
that they are in a reachable state and that publications are chained, so the statements about runs hold of
them. Loops are loops with their invariants. Pure code is functions.

Standing assumptions:

* GitHub: new Check Run ids are larger than all existing ones, nobody else writes runs owned by this app,
  runs are not deleted, and a lookup answers with runs that exist. Whether it shows the newest owned run is
  assumed only where a statement says so: the program asks for one page of 100 runs and takes an answer without a list for an empty
  one, and `CheckRunPublisher.OlderOnlyByBlindCreation` says exactly what an answer that misses it can cause.
* A request takes effect before its answer or its failure is read, or never: a request that failed, or
  timed out, does not take effect later, neither in a living process nor after a restart, which ends the
  requests of the process that is gone.
* File system: `mkdir` and `rename` are atomic, `rename` fails on an existing target (on POSIX an empty
  target directory would be replaced), and a private staging tree is not altered between its hash under
  the lease and its rename.
* Hashes are represented by what is hashed, so equal hashes mean equal inputs; a path is its list of entry
  names, which contain no separator.
* `localeCompare` is a parameter. Where a result needs it to be an order the statement says so
  (`WeakOrder`); it may leave names tied. Where ties matter the statement says which, and
  `ArtifactListing.ListingIrrelevantIff` shows that exactly those matter.
* Strings are sequences of code units and case mapping is that of ASCII letters; numbers are unbounded.
* One process uses a database file at a time.

Where code and comments differ the model follows the code:

* The runtime's comment promises a single sequential path, but `processNext` and `drain` do not take the
  processing slot, so exclusion and wakeups are claimed for the automatic loop;
  `JobRuntime.ExplicitRequeueCanStrandAJob` shows what an explicit consumer can cause and
  `JobProgress.ExplicitRequeueStrandsIff` exactly when.
* `waitForQueueJob` never looks in the registry, although its comment says so; it is not part of this model.
* A retained verification that is stored again keeps its place in the in-memory registry and moves to the
  end in SQLite; `ResultRegistry.RegistriesAgreeIff` says exactly when the two agree.
* The lease's comment says that it is always released; a removal that fails is ignored, and a process that
  dies leaves the lock. `SnapshotLeases.FreedIff` says exactly when a lock can still go away,
  `SnapshotLeases.DeathAbandons` and `SnapshotLeases.FailedRemovalAbandons` show runs in which it cannot.
* The replay guard may evict a reservation for lack of room, and then a delivery is handled twice at a time
  (`WebhookHandlers.EvictionAllowsTwo`, `WebhookHandlers.EvictedEarlierAllowsTwo`);
  `WebhookHandlers.SecondHandlerIff` says exactly when, for every step of every run.
* A hunk line whose text starts with `++` after its `+`, or `--` after its `-`, is taken for a file header
  and dropped; `PatchLines.RoundTripIff` makes this the exact condition of the round trip.
* The default policy has a rule for findings of medium severity, but aggregation only produces findings of
  high severity, so `needs_review` cannot be the status of a verification (`Verdict.StatusMeans`).

## Model

| member | source | states |
|---|---|---|
| `JobRuntime.InvAlongRun` | apps/worker/src/runtime.ts:182-446 | Every state of every interleaving of start, stop, enqueue, loop steps and explicit consumption satisfies the generation, slot and wakeup invariants. |
| `JobRuntime.AtMostOneOperationInFlight` | apps/worker/src/runtime.ts:192-197 | At most one automatic dequeue, process and store operation is in flight across all generations, in every run. |
| `JobRuntime.SlotsServedInOrder` | apps/worker/src/runtime.ts:325-341 | Processing slots are served strictly in the order in which loops took them, across generations. |
| `JobRuntime.StoppedGenerationNeverConsumes` | apps/worker/src/runtime.ts:334-340 | A generation that has been stopped never takes a job again: a slot granted to it later makes its loop leave with the queue untouched. |
| `JobRuntime.OperationBeginsActiveAndAlone` | apps/worker/src/runtime.ts:325-341 | An automatic operation begins only when granted its slot, while its generation is the active one of a running runtime and no other automatic operation is under way. |
| `JobRuntime.ResolverHeldExactlyWhileActiveLoopSleeps` | apps/worker/src/runtime.ts:275-316 | A wakeup resolver is held exactly while the active generation's loop sleeps; no invalidated loop is ever left sleeping. |
| `JobRuntime.NoJobPendingWhileAsleep` | apps/worker/src/runtime.ts:361-369 | On a notifying queue consumed by the automatic loop alone no wakeup is lost: nothing is pending while a loop sleeps. |
| `JobProgress.ExplicitRequeueStrandsIff` | apps/worker/src/runtime.ts:223-245 | After an explicit consumer gives a job back, some run of the loops alone leaves a job pending with the active loop asleep exactly if at that moment the loop slept, or had found the queue empty with no wakeup noted; exactly otherwise some such run has the active generation take a job. |
| `JobRuntime.ExplicitRequeueCanStrandAJob` | apps/worker/src/runtime.ts:450-459 | A reachable state in which a job given back by an explicit consumer is pending while the loop sleeps and nothing will wake it. |
| `JobRuntime.SlotsAlwaysOwned` | apps/worker/src/runtime.ts:328-340 | Every slot that has not been released belongs to a loop that will release it, so the chain is never wedged. |
| `JobRuntime.UnfinishedLoopsCanMove` | apps/worker/src/runtime.ts:343-372 | No deadlock: while any loop has neither finished nor gone to sleep as the active one, some loop can move. |
| `JobProgress.PendingJobIsTaken` | apps/worker/src/runtime.ts:325-372 | In every run without explicit requeues, from a state with a job pending on a notifying queue and an active generation, a run of at most four loop steps for every slot still held and three more has that generation dequeue a job. |
| `JobProgress.JobTakenInEveryRun` | apps/worker/src/runtime.ts:325-372 | From such a state every run of more than ten loop steps per generation ever started, in which the active generation's dequeue does not fail, takes a job, whatever else the loops are answered; and until one is taken some loop can move. |
| `JobProgress.StrandsIff` | apps/worker/src/runtime.ts:275-316 | With a job pending, the loops left alone can come to sleep on it exactly when the active loop sleeps already or has found the queue empty with no wakeup noted. |
| `JobProgress.WorkFinishes` | apps/worker/src/runtime.ts:223-245 | An operation under way can run to its end and release its slot in at most four steps without touching the queue or any other loop. |
| `JobProgress.SlotsDrain` | apps/worker/src/runtime.ts:325-341 | Older generations can hand on all slots before the active one in at most four steps each, changing nothing else the active loop sees. |
| `JobOutcomes.OperationSettles` | apps/worker/src/runtime.ts:223-245 | In every run, from its steps alone: an operation completes a job exactly when it dequeued it, the result was stored and the job acknowledged; fails it exactly when the processor threw and the job was given back; is idle exactly when the queue was empty; and throws otherwise. |
| `JobOutcomes.JobsAccounted` | apps/worker/src/runtime.ts:223-245 | At every moment of every run the pending jobs and all taken ones are the jobs of the start and all that were enqueued or given back. |
| `JobOutcomes.NothingAfterStop` | apps/worker/src/runtime.ts:413-446 | After a stop and until automatic mode is started again no loop sleeps, and a slot granted to a loop leaves the queue alone and makes the loop leave. |
| `JobOutcomes.StopAwaitsLoop` | apps/worker/src/runtime.ts:413-422 | With a loop known stopAutoProcessing waits for it and keeps listening; without one it has detached at once. |
| `JobOutcomes.StopResolvesAfterLoop` | apps/worker/src/runtime.ts:413-430 | stopAutoProcessing resolves only after the loop it stopped has left, and then nothing listens unless a newer generation was started. |
| `JobOutcomes.StartTakesPending` | apps/worker/src/runtime.ts:385-411 | After startAutoProcessing a pending job is taken in every long enough run of the loops. |
| `JobRuntimeObject.Runtime.Signal` | apps/worker/src/runtime.ts:275-284 | Resolves and forgets a stored resolver, or else records the notification. |
| `JobRuntimeObject.Runtime.StartAutoProcessing` | apps/worker/src/runtime.ts:385-411 | Mints a generation, subscribes once and queues its loop for the slot; does nothing more when a generation is active. |
| `JobRuntimeObject.Runtime.StopAutoProcessing` | apps/worker/src/runtime.ts:413-422 | Invalidates the generation, wakes its loop, and awaits the captured loop or finishes at once. |
| `JobRuntimeObject.Runtime.ResumeStopAutoProcessing` | apps/worker/src/runtime.ts:423-430 | Detaches the listener only when no newer generation has started meanwhile. |
| `JobRuntimeObject.Runtime.Stop` | apps/worker/src/runtime.ts:436-446 | The synchronous stop: invalidates, wakes and detaches. |
| `JobRuntimeObject.Runtime.ResumeWithSlot` | apps/worker/src/runtime.ts:334-340 | With the slot granted, an invalidated generation releases it and leaves; a valid one dequeues; nobody else is at work then. |
| `JobRuntimeObject.Runtime.IsAutoProcessing` | apps/worker/src/runtime.ts:462-464 | Automatic mode is on exactly while the active generation has a loop that has not left; that generation is the newest and the runtime is running. |
| `JobRuntimeObject.Runtime.ResumeProcessNext` | apps/worker/src/runtime.ts:223-245 | Each await of processNext: idle, process, store and acknowledge, or reject and rethrow. |
| `JobRuntimeObject.Runtime.ReleaseSlot` | apps/worker/src/runtime.ts:338-340 | The slot is released on every path. |
| `JobRuntimeObject.Runtime.ResumeLoop` | apps/worker/src/runtime.ts:343-372 | The loop after its await: leave if invalidated, sleep or consume the pending notification if idle, otherwise go round. |
| `JobRuntimeObject.Runtime.ExpireDelay` | apps/worker/src/runtime.ts:296-316 | The fallback timer clears the resolver it installed and wakes the loop. |
| `JobRuntimeObject.Runtime.Enqueue` | apps/worker/src/in-memory-job-queue.ts:32-42 | A job is queued and the subscribed runtime is signalled in the same step. |
| `MemoryJobQueue.Queue.Enqueue` | apps/worker/src/in-memory-job-queue.ts:32-42 | The job is queued before any listener is told; every registered listener is told once, in order, whichever of them throw; exactly the throws are swallowed. |
| `MemoryJobQueue.Queue.Dequeue` | apps/worker/src/in-memory-job-queue.ts:43-45 | Takes the oldest job, or answers that there is none. |
| `MemoryJobQueue.FirstInFirstOut` | apps/worker/src/in-memory-job-queue.ts:32-52 | Over any history of enqueues, dequeues and clears, what was removed followed by what is left is what was enqueued, in order. |
| `DurableJobs.NextExistsIffPending` | apps/worker/src/sqlite-job-queue.ts:86-88 | The next-job query has an answer exactly when some row is pending. |
| `DurableJobs.SqliteJobQueue.constructor` | apps/worker/src/sqlite-job-queue.ts:76-80 | Opening the database keeps every row at its place in the order and makes it pending. |
| `DurableJobs.SqliteJobQueue.Enqueue` | apps/worker/src/sqlite-job-queue.ts:106-117 | Inserts a pending row, or fails without a change when the job id is taken. |
| `DurableJobs.SqliteJobQueue.Dequeue` | apps/worker/src/sqlite-job-queue.ts:118-133 | Marks the first pending row in (enqueued_at, job_id) order as processing, or answers that no row is pending. |
| `DurableJobs.SqliteJobQueue.Acknowledge` | apps/worker/src/sqlite-job-queue.ts:134-136 | Deletes the row only while it is processing. |
| `DurableJobs.SqliteJobQueue.Reject` | apps/worker/src/sqlite-job-queue.ts:137-139 | Makes the row pending again only while it is processing. |
| `DurableJobs.NoJobLost` | apps/worker/src/runtime.ts:223-245 | Through any run with crashes and reopenings every committed enqueue is still a row, or was acknowledged after its result had been stored. |
| `DurableJobs.JobsConserved` | apps/worker/src/sqlite-job-queue.ts:76-139 | Enqueues of a job equal its acknowledgements plus the row it still has, at every moment. |
| `DurableJobs.OneClaimOneResult` | apps/worker/src/sqlite-result-registry.ts:137-185 | No job has two live claims and no queue job has two retained results. |
| `DurableJobs.AcknowledgedAfterStore` | apps/worker/src/runtime.ts:234-240 | In every run a job is acknowledged only after its result has been stored since its last enqueue. |
| `DurableJobs.StoredIsRetained` | apps/worker/src/sqlite-result-registry.ts:137-185 | At the moment it is stored a result is retained for its job under its verification id, within the bound. |
| `DurableJobs.ClaimFinishes` | apps/worker/src/runtime.ts:234-240 | A claim whose result is accepted can be stored and acknowledged, and then its row is gone and its result retained. |
| `DurableJobs.ProcessingIff` | apps/worker/src/sqlite-job-queue.ts:76-139 | In every run a row is processing exactly when its job has a live claim, or a claim on it was given up since the database was last opened. |
| `DurableJobs.ReopenedRows` | apps/worker/src/sqlite-job-queue.ts:76-80 | After a crash and reopening every row is there, pending, unclaimed and at its old place, and the results are untouched. |
| `DurableJobs.PendingIsDequeued` | apps/worker/src/sqlite-job-queue.ts:118-133 | Whatever is pending is claimed after dequeues alone, no more of them than there are pending rows. |
| `DurableJobs.RerunAcceptedIff` | apps/worker/src/sqlite-result-registry.ts:145-166 | After a crash between store and acknowledge the re-run's result is accepted exactly when it is the same verification of the same native job, while the first result is retained. |
| `ResultRegistry.FindIff` | apps/worker/src/result-registry.ts:120-127 | With unique identities, a lookup answers an entry exactly when it is retained under that key. |
| `ResultRegistry.MemoryStoreCorrect` | apps/worker/src/result-registry.ts:146-181 | A successful store keeps identities unique and the bound, is visible under all three keys, and touches nothing else except by dropping the oldest. |
| `ResultRegistryObjects.InMemoryRegistry.Store` | apps/worker/src/result-registry.ts:146-181 | The three maps after a store are those of the list after a store; a refused store changes nothing. |
| `ResultRegistryObjects.InMemoryRegistry.EvictOldest` | apps/worker/src/result-registry.ts:113-118 | Eviction removes the oldest entry and leaves no secondary key of it. |
| `ResultRegistryObjects.InMemoryRegistry.ClearSecondaryMappings` | apps/worker/src/result-registry.ts:100-111 | Removes exactly the secondary keys of one verification. |
| `ResultRegistryObjects.InMemoryRegistry.GetByVerificationId` | apps/worker/src/result-registry.ts:183-185 | Equals a search of the list by verification id. |
| `ResultRegistryObjects.InMemoryRegistry.GetByJobId` | apps/worker/src/result-registry.ts:187-189 | Equals a search of the list by native job id. |
| `ResultRegistryObjects.InMemoryRegistry.GetByQueueJobId` | apps/worker/src/result-registry.ts:191-193 | Equals a search of the list by queue job id. |
| `ResultRegistry.SqliteInsertNeverViolates` | apps/worker/src/sqlite-result-registry.ts:169-177 | After the conflict checks and the two deletes the insert cannot violate the primary key or a unique column. |
| `ResultRegistry.SqliteStoreCorrect` | apps/worker/src/sqlite-result-registry.ts:137-185 | The SQLite store fails only for a named conflict, keeps at most maxResults rows, and is visible under all keys. |
| `ResultRegistryObjects.SqliteRegistry.TrimRetention` | apps/worker/src/sqlite-result-registry.ts:125-134 | Deletes the oldest rows until the table is within its bound. |
| `ResultRegistryObjects.SqliteRegistry.Store` | apps/worker/src/sqlite-result-registry.ts:137-185 | The table after a store is the list after a SQLite store; a refused store changes nothing. |
| `ResultRegistry.RegistriesAgreeIff` | apps/worker/src/result-registry.ts:145-181 | The two registries treat a store alike exactly when the verification is not retained, or is the newest entry with the same native job, or a uniqueness check refuses it. |
| `ResultRegistry.RegistriesAgreeAlongRun` | apps/worker/src/sqlite-result-registry.ts:137-185 | On runs that never store a retained verification again both registries accept, evict and answer alike at every moment. |
| `CheckRunPublisher.FindExistingCheckRun` | packages/adapters-source/src/github-checks.ts:798-834 | Of the runs answered, the owned one of this check name with the largest id, or none. |
| `CheckRunPublisher.LatestIsLargest` | packages/adapters-source/src/github-checks.ts:814-833 | The run found has the largest id of all owned runs of the name, and none is found only if there is none. |
| `CheckRunPublisher.PublicationsSerialized` | packages/adapters-source/src/github-checks.ts:634-648 | Publications of one key run one at a time, in every run, whatever pages the lookups see. |
| `CheckRunPublisher.MarkerNeverDecreases` | packages/adapters-source/src/github-checks.ts:955-1048 | For each commit whose own lookups saw its newest run, over any run of concurrent publications, lost answers, 404 then create, evictions, foreign writers and restarts, the marker on the newest owned run never gets older. |
| `CheckRunPublisher.PublishedMeansMarkerReached` | packages/adapters-source/src/github-checks.ts:955-1067 | For such a commit a publication reported as successful has left a marker at least as new as its own. |
| `CheckRunPublisher.OlderOnlyByBlindCreation` | packages/adapters-source/src/github-checks.ts:955-1048 | In any run, whatever pages the lookups see: a step makes the newest marker of a commit older exactly when it creates a run with an ordering older than that marker, and then the earlier lookup of that same publication had missed the newest run. |
| `CheckRunPublisher.IncompletePageCanDecrease` | packages/adapters-source/src/github-checks.ts:810-813 | From a published state, a run of one publication whose lookup is answered without runs makes the newest marker older. |
| `PublisherOutcomes.DecidesByNewest` | packages/adapters-source/src/github-checks.ts:979-1048 | In every run, for a publication whose lookup showed the newest run: it is stale exactly when that marker is newer than its ordering, refused exactly when it cannot be read, updates that run exactly when it is equal or older, and creates a run exactly when there is none. |
| `PublisherOutcomes.SettlesAsAnswered` | packages/adapters-source/src/github-checks.ts:999-1048 | In every run a publication is published exactly when its last request was accepted, as an update or a creation, and failed exactly when the token, the lookup or the last request failed. |
| `PublisherOutcomes.NotFoundIsReplaced` | packages/adapters-source/src/github-checks.ts:999-1031 | A 404 answer to an update is followed by a creation. |
| `PublisherOutcomes.AcceptedEndsPublished` | packages/adapters-source/src/github-checks.ts:969-1067 | A publication that is not older than the newest run, with all requests accepted, ends published with the newest marker at its own ordering, in a new run exactly when there was none. |
| `PublisherOutcomes.FastPathRejectsIff` | packages/adapters-source/src/github-checks.ts:956-968 | The fast path rejects exactly a publication older than the last success of its key among the most recently published keys since the last restart. |
| `CheckRunPublisher.LocalRejectionIsRemoteRejection` | packages/adapters-source/src/github-checks.ts:956-968 | What the fast path rejects, the comparison with the remote marker rejects as well. |
| `CheckRunPublisher.CacheRefinesNoCache` | packages/adapters-source/src/github-checks.ts:956-1066 | For every cache capacity, whatever a run with the cache and with lookups that show the newest run reaches, a run without the cache reaches with the same Check Runs and outcomes. |
| `CheckRunPublisherObject.Publisher.Publish` | packages/adapters-source/src/github-checks.ts:634-641 | A publication is chained behind the newest one of its key and becomes the tail. |
| `CheckRunPublisherObject.Publisher.Leave` | packages/adapters-source/src/github-checks.ts:642-646 | A settled tail forgets its chain only if nobody has queued behind it. |
| `CheckRunPublisherObject.Publisher.Begin` | packages/adapters-source/src/github-checks.ts:956-968 | The fast path: what is older than the remembered success is stale without a request; no other publication of the key is then at work. |
| `CheckRunPublisherObject.Publisher.ReceiveListing` | packages/adapters-source/src/github-checks.ts:973-978 | The lookup is reduced to the owned run with the largest id. |
| `CheckRunPublisherObject.Publisher.Decide` | packages/adapters-source/src/github-checks.ts:979-1048 | Create when nothing exists, refuse an unreadable marker, reject an older result, otherwise update. |
| `CheckRunPublisherObject.Publisher.PatchReturns` | packages/adapters-source/src/github-checks.ts:999-1031 | A successful update is remembered, a run that is gone is replaced, any other answer fails. |
| `CheckRunPublisherObject.Publisher.PostReturns` | packages/adapters-source/src/github-checks.ts:1032-1048 | A successful creation is remembered, any other answer fails. |
| `CheckRunPublisherObject.Publisher.RememberSuccess` | packages/adapters-source/src/github-checks.ts:1056-1066 | Refreshes the key, or evicts from the front until there is room, and appends. |
| `FreshnessCache.RememberKeepsBound` | packages/adapters-source/src/github-checks.ts:1049-1066 | Remembering keeps keys unique and the bound, and forgets at most the oldest key. |
| `FreshnessCache.CacheHoldsMostRecent` | packages/adapters-source/src/github-checks.ts:1049-1066 | After any history of successes the cache holds exactly the most recently published distinct keys. |
| `FreshnessMarker.ParseFormat` | packages/adapters-source/src/github-checks.ts:456-503 | A formatted marker is within the length limit and parses back to the same ordering. |
| `FreshnessMarker.ParseAcceptsExactlySpellings` | packages/adapters-source/src/github-checks.ts:474-503 | The parser accepts exactly the spellings of representable orderings, up to leading zeros and the length limit. |
| `FreshnessMarker.CompareIsTotalOrder` | packages/adapters-source/src/github-checks.ts:509-518 | Comparison is antisymmetric and zero only for equal orderings. |
| `FreshnessMarker.CompareTransitive` | packages/adapters-source/src/github-checks.ts:509-518 | Comparison is transitive. |
| `FreshnessMarker.CompareMeans` | packages/adapters-source/src/github-checks.ts:509-518 | The later time is newer; at the same time the content hash that comes later in code-unit order. |
| `SnapshotReference.DecodeEncode` | packages/adapters-source/src/github.ts:63-68 | Decoding an encoded reference gives it back with its sha in lower case. |
| `SnapshotReference.EncodeDecode` | packages/adapters-source/src/github.ts:136-162 | Whatever decodes is, up to the case of its sha, the encoding of what it decodes to. |
| `SnapshotReference.EncodedReads` | packages/adapters-source/src/github.ts:63-68 | An encoded reference reads as owner, repository and lower-case sha between colons. |
| `ArtifactTree.SameDigestSameFiles` | packages/engine/src/dependency-provisioning.ts:403-481 | Two trees with the same hash hold the same files with the same contents, under any comparison of names and any listing. |
| `ArtifactTree.SameFilesSameDigest` | packages/engine/src/dependency-provisioning.ts:421-481 | Two well-formed trees with the same files have the same hash, whatever the listing order and the empty directories, when no directory of one of them holds two tied names that both contain a file. |
| `ArtifactTree.DigestMeansFiles` | packages/engine/src/dependency-provisioning.ts:403-411 | So two accepted trees without such ties have the same hash exactly when they hold the same files with the same contents. |
| `ArtifactTree.AcceptedIff` | packages/engine/src/dependency-provisioning.ts:421-474 | A tree is accepted exactly when it holds only files and directories and is within both limits, whatever the listing order. |
| `ArtifactListing.ListingIrrelevantIff` | packages/engine/src/dependency-provisioning.ts:434-437 | Every relisting of an accepted tree has the same hash exactly when no directory holds two tied names that both contain a file, for any comparison that is an order. |
| `DependencyTransfer.HashArtifactTree` | packages/engine/src/dependency-provisioning.ts:412-481 | The walk, with its counters and early failures, computes the digest of the canonical tree. |
| `DependencyTransfer.Visit` | packages/engine/src/dependency-provisioning.ts:421-452 | One directory: the walk appends its files in canonical order, or fails exactly when an entry is unsupported or a limit is exceeded. |
| `DependencyTransfer.EntriesHashInPlace` | packages/engine/src/dependency-provisioning.ts:483-494 | Hashing an artifact's entries where they lie in a composed tree equals hashing a directory that holds only them, however every directory of either is listed at each reading, when no directory of the artifact holds two tied names that both contain a file. |
| `DependencyTransfer.UnionFiles` | packages/engine/src/dependency-provisioning.ts:765-778 | The files of the union are the source's and the artifact's, unchanged, and no path is in both. |
| `DependencyTransfer.Staging.MoveAll` | packages/engine/src/dependency-provisioning.ts:765-778 | Moves every entry in sorted order, and fails exactly when a top-level name is shared. |
| `DependencyTransfer.Staging.TransferVerified` | packages/engine/src/dependency-provisioning.ts:745-795 | Succeeds only with a disjoint union whose placed entries hash to the trusted hash; for an artifact without tied siblings it fails exactly for a wrong copy or a shared name, and never at the second verification, though every reading may list every directory anew. |
| `DependencyTransfer.Staging.Materialize` | packages/engine/src/environment-materializer.ts:98-171 | The composed tree is the disjoint union of source and artifact, and the recorded entries are exactly the artifact's, sorted, however directories are listed; for an artifact without tied siblings it fails exactly for an unacceptable source, a wrong copy or a shared name. |
| `SnapshotComposition.AtMostOneLease` | packages/engine/src/snapshot-composition.ts:124-173 | However often release functions are called and whatever dies when, no two leases of one identity exist at once. |
| `SnapshotComposition.AtMostOneComposes` | packages/engine/src/snapshot-composition.ts:464-480 | No two compositions of one identity are between taking the lease and giving it back. |
| `SnapshotComposition.PublishedIsImmutable` | packages/engine/src/snapshot-composition.ts:287-334 | Once an identity is published its contents stay the same through every later success and failure. |
| `SnapshotComposition.AtMostOnePublishes` | packages/engine/src/snapshot-composition.ts:291-334 | At most one composition of an identity reports that it published. |
| `SnapshotComposition.SuccessMeansContents` | packages/engine/src/snapshot-composition.ts:481-525 | Publishing means the store holds the very tree verified and hashed under the lease; reusing means it holds exactly the same files, under any comparison of names. |
| `SnapshotComposition.CompareDecides` | packages/engine/src/snapshot-composition.ts:296-333 | For an accepted tree without tied siblings the comparison reuses what is published exactly when that holds the same files and nothing but files and directories, and fails exactly otherwise. |
| `SnapshotComposition.ComposedOutcome` | packages/engine/src/snapshot-composition.ts:481-525 | A composition under the lease that nothing interrupts publishes exactly when its entries and tree verify and its identity is free, reuses exactly when the identity holds the same files, and fails otherwise with the store as it was. |
| `SnapshotComposition.RenameNeverConflicts` | packages/engine/src/snapshot-composition.ts:309-311 | When every writer takes the lease, a rename never meets an existing target. |
| `SnapshotLeases.LockedIff` | packages/engine/src/snapshot-composition.ts:148-156 | In every run an identity is locked exactly when some lease of it is not gone. |
| `SnapshotLeases.TryLockSucceedsIff` | packages/engine/src/snapshot-composition.ts:148-156 | A composition takes the lease exactly when every earlier lease of that identity is gone. |
| `SnapshotLeases.OwnStepsRelease` | packages/engine/src/snapshot-composition.ts:493-523 | From any state, a live lease that is not abandoned is removed by at most seven steps of its own holder. |
| `SnapshotLeases.FreedIff` | packages/engine/src/snapshot-composition.ts:124-173 | In every run, some continuation frees the identity of a live lease exactly when that lease is not abandoned: its holder has not died and its removal has not failed. |
| `SnapshotLeases.AbandonedLockBlocks` | packages/engine/src/snapshot-composition.ts:148-171 | An abandoned lease stays so in every continuation, and no composition of that identity is ever verifying again. |
| `SnapshotLeases.DeathAbandons` | packages/engine/src/snapshot-composition.ts:493-523 | A run from the start in which a composition takes the lease, dies, and abandons it. |
| `SnapshotLeases.FailedRemovalAbandons` | packages/engine/src/snapshot-composition.ts:152-156 | A run from the start in which a composition ends with its lock not removed. |
| `SnapshotStoreObjects.LockDirectory.Mkdir` | packages/engine/src/snapshot-composition.ts:149-151 | Creates the lock directory exactly when it is absent. |
| `SnapshotStoreObjects.LeaseHandle.Release` | packages/engine/src/snapshot-composition.ts:152-156 | Only the first call tries to remove the lock directory; a removal that fails leaves it there and is never tried again. |
| `SnapshotStoreObjects.ReleaseTwice` | packages/engine/src/snapshot-composition.ts:152-156 | A second call does not take away a lock that another composition took in between. |
| `SnapshotStoreObjects.AcquireCompositionLease` | packages/engine/src/snapshot-composition.ts:124-173 | The polling loop takes the lock at the first poll that finds it free, and gives up only if none does. |
| `SnapshotStoreObjects.ComposedSnapshotStore.PublishAtomically` | packages/engine/src/snapshot-composition.ts:291-334 | Publishes exactly when the identity is free, and then the store holds the staging tree; accepts what is there only if it holds the same files, and for trees without tied siblings exactly then; nothing published changes. |
| `SnapshotStoreObjects.ComposedSnapshotStore.VerifyAndPublish` | packages/engine/src/snapshot-composition.ts:481-525 | Publication happens exactly when the lease was free, both hashes succeed and the hook does not throw, with an answer that means the files as above; on every path the lock is gone afterwards unless its removal fails. |
| `SnapshotIdentity.IdentityBindsBoth` | packages/engine/src/snapshot-composition.ts:185-214 | Two composed identities are equal exactly when the source identities and the first 32 hash digits are. |
| `SnapshotIdentity.IdentityIsApart` | packages/engine/src/snapshot-composition.ts:185-214 | A composed identity is sandbox-safe, is never a commit sha or its own source, and cannot collide with the lock or staging directories. |
| `SnapshotIdentity.AcceptedIff` | packages/engine/src/snapshot-composition.ts:185-214 | Composition is possible exactly for sandbox-safe sources of at most 219 characters and a full content hash. |
| `SnapshotIdentity.IdentityReads` | packages/engine/src/snapshot-composition.ts:185-214 | An identity reads as the source, "-dep-" and the first 32 digits of the hash. |
| `PublishedComposition.MaterializedVerifiesIff` | packages/engine/src/snapshot-composition.ts:493-503 | A materialized staging tree that nobody touched passes the verification under the lease exactly when the artifact is within the limits the store is configured with. |
| `PublishedComposition.TamperedFails` | packages/engine/src/snapshot-composition.ts:493-503 | A staging tree that holds other files than the artifact's in the artifact's place fails the verification under the lease. |
| `PublishedComposition.StoreHoldsDisjointUnion` | packages/engine/src/snapshot-composition.ts:374-463 | When a composition succeeds the store holds exactly the source's files and the artifact's files, with no shared path. |
| `PublishedComposition.StoreKeepsDisjointUnion` | packages/engine/src/snapshot-composition.ts:374-463 | What one composition published stays that disjoint union in every later state. |
| `SnapshotStoreObjects.TreesEqual` | packages/adapters-source/src/snapshot-store-publisher.ts:286-308 | Accepts exactly the trees with every expected file and its text, and no other file outside the provisioned prefixes. |
| `SnapshotStoreObjects.SourceStore.Publish` | packages/adapters-source/src/snapshot-store-publisher.ts:359-413 | The first writer publishes; a published source is accepted only if compatible and is never overwritten. |
| `SnapshotStoreObjects.WrittenIsCompatible` | packages/adapters-source/src/snapshot-store-publisher.ts:286-308 | Contents published once are accepted whenever the same contents are published again. |
| `ReplayGuard.SecondAcceptanceIsExplained` | apps/github-bot/src/webhook.ts:73-142 | Between two acceptances of one delivery its entry was rolled back while reserved, expired a full time to live after its commit, or was followed by at least maxEntries acceptances. |
| `ReplayGuard.SizeBound` | apps/github-bot/src/webhook.ts:81-92 | The map never holds more than maxEntries + 1 entries, and no more than maxEntries after a prune. |
| `ReplayGuard.CommittedRefusedIff` | apps/github-bot/src/webhook.ts:81-134 | A committed delivery is refused for exactly the time to live, while fewer than maxEntries unexpired entries follow it. |
| `ReplayGuard.RolledBackIsAccepted` | apps/github-bot/src/webhook.ts:120-140 | A delivery whose reservation was rolled back is accepted again at once. |
| `ReplayGuardObject.Guard.Prune` | apps/github-bot/src/webhook.ts:81-92 | Keeps the unexpired entries, and of those the newest maxEntries. |
| `ReplayGuardObject.Guard.Reserve` | apps/github-bot/src/webhook.ts:120-128 | Accepts exactly a delivery that is absent after the prune, and reserves it at the end. |
| `ReplayGuardObject.Guard.Commit` | apps/github-bot/src/webhook.ts:129-134 | Dates a reservation in place and leaves everything else alone. |
| `ReplayGuardObject.Guard.Rollback` | apps/github-bot/src/webhook.ts:135-140 | Removes a reservation and nothing else. |
| `ReplayGuardObject.Guard.CheckAndRemember` | apps/github-bot/src/webhook.ts:95-107 | One-phase acceptance; after the prune an entry that is still there is always a replay. |
| `ReplayGuardObject.Guard.IsReplay` | apps/github-bot/src/webhook.ts:108-115 | Answers exactly whether the delivery is in the map after the prune. |
| `WebhookHandlers.HandledByOneAtATime` | apps/github-bot/src/webhook.ts:689-731 | As long as a delivery's own reservation has not been crowded out, at most one handler at a time is handling it, whatever happens to others. |
| `WebhookHandlers.EvictedIff` | apps/github-bot/src/webhook.ts:81-92 | An operation that prunes evicts an unexpired entry exactly when at least maxEntries unexpired entries were inserted after it. |
| `WebhookHandlers.CopyHandledIff` | apps/github-bot/src/webhook.ts:120-128 | In every state of every run, a delivered copy is handled exactly when no entry of its id is remembered: unexpired, with fewer than maxEntries unexpired entries inserted after it; otherwise it is refused. |
| `WebhookHandlers.SecondHandlerIff` | apps/github-bot/src/webhook.ts:689-731 | In every run, a step takes a delivery from at most one handler at work to two exactly when it delivers a copy while a handler is at work on it and its entry is not remembered, whenever and however that entry was lost. |
| `WebhookHandlers.FailureAllowsRetry` | apps/github-bot/src/webhook.ts:689-731 | After a failed handler the delivery is handled again at once. |
| `WebhookHandlers.SuccessRefusesIff` | apps/github-bot/src/webhook.ts:689-731 | After a successful handler the delivery is refused for exactly the time to live, while there is room for its entry. |
| `WebhookHandlers.RoomWhenSmall` | apps/github-bot/src/webhook.ts:87-91 | A reservation is not crowded out while the unexpired entries are no more than maxEntries. |
| `WebhookHandlers.EvictionAllowsTwo` | apps/github-bot/src/webhook.ts:87-91 | A run in which an evicted reservation lets two handlers handle the same delivery. |
| `WebhookHandlers.EvictedEarlierAllowsTwo` | apps/github-bot/src/webhook.ts:87-91 | A run in which other deliveries evict the reservation, fail and leave the map empty, and a later copy is still handled beside the first. |
| `PatchLines.ParsePatchLines` | apps/api/src/pr-requirements.ts:164-195 | The loop with its two counters computes the specified parse. |
| `PatchLines.ParseRender` | apps/api/src/pr-requirements.ts:164-195 | Parsing a rendered diff gives its hunk lines, numbered, without those that look like file headers. |
| `PatchLines.RoundTripIff` | apps/api/src/pr-requirements.ts:164-195 | Parsing a rendered diff returns exactly its hunk lines if and only if no added text starts with "++" and no removed text with "--". |
| `PatchLines.NoiseIsSkipped` | apps/api/src/pr-requirements.ts:169-195 | A line that is no header and starts with none of the three marks is skipped wherever it stands, and counts for no line number. |
| `PatchLines.ReportedLinesSit` | apps/api/src/pr-requirements.ts:164-195 | If the hunks are an edit of one file into another, every reported line number is where that text is in that file. |
| `PatchLines.HeaderMeans` | apps/api/src/pr-requirements.ts:169-174 | A line is a hunk header exactly when it splits into the marks, two non-empty digit runs with optional counts and any heading, and the cursor is the two numbers. |
| `PatchLines.HeaderRoundTrip` | apps/api/src/pr-requirements.ts:169-174 | A rendered hunk header, with or without counts and heading, is read back as its two starting lines. |
| `WorkflowEvidence.ActionEvidence` | apps/api/src/pr-requirements.ts:311-352 | Collects every added action reference in order and the first that is not pinned, and decides the status from them. |
| `WorkflowEvidence.ActionPassesIff` | apps/api/src/pr-requirements.ts:337-352 | The check passes exactly when some reference is added and every added reference is pinned. |
| `WorkflowEvidence.AddsIff` | apps/api/src/pr-requirements.ts:337-339 | The lines the check looks at are exactly the lines the diff adds. |
| `WorkflowEvidence.CheckoutEvidence` | apps/api/src/pr-requirements.ts:386-438 | Passes exactly when something is checked out and every added checkout finds the setting disabled within twelve lines. |
| `WorkflowEvidence.DisabledIff` | apps/api/src/pr-requirements.ts:422-434 | A checkout counts as disabled exactly when the first setting stands on its line or one of the eleven after it, and says so. |
| `WorkflowEvidence.RemovedSettingDecidesIff` | apps/api/src/pr-requirements.ts:386-438 | The check passes where the new files alone would fail exactly when every added checkout finds the setting disabled and for some of them only on a deleted line; it fails where they would pass exactly when they disable it for every checkout and some window starts with a deleted setting that does not. |
| `WorkflowEvidence.RemovedSettingCounts` | apps/api/src/pr-requirements.ts:422-434 | So a patch that only deletes the setting passes, though the new file has none. |
| `Verdict.CoverageForPlan` | packages/engine/src/aggregation.ts:145-198 | The loop puts each planned check in the bucket its applicability and last result decide; every bucket is sorted and without repeats. |
| `Verdict.BucketsPartitionPlan` | packages/engine/src/aggregation.ts:145-198 | With distinct plan checks the six buckets are disjoint and together exactly the plan's checks. |
| `Verdict.CoverageMeans` | packages/engine/src/aggregation.ts:145-198 | A planned check is counted by its applicability, and an applicable one by the source of its last result if that passed and as partial otherwise. |
| `Verdict.EvaluateDefaultPolicy` | packages/policy/src/default.ts:93-129 | Blocks exactly for an unsuccessful required check or a high or critical finding; otherwise needs changes exactly for a gap in a required check; otherwise needs review exactly for a medium finding; exactly the rules that were not outranked are triggered. |
| `Verdict.StatusMeans` | packages/engine/src/aggregation.ts:219-272 | Each status exactly: error, blocked, needs changes, partial and pass; needs-review cannot happen because every finding is of high severity. |
| `Verdict.PassIff` | packages/engine/src/aggregation.ts:219-272 | With one result per check, pass means: all results passed or skipped, nothing planned is unsupported, and every applicable check has a real passed result. |
| `Verdict.AggregateVerification` | packages/engine/src/aggregation.ts:236-272 | The aggregation computes that status from coverage, findings and policy. |
| `Planner.ValidatePlanDependencies` | packages/checks/src/planner.ts:91-105 | Accepts exactly the plans in which every dependency is planned at an earlier position. |
| `Planner.EarlierMeans` | packages/checks/src/planner.ts:91-105 | A dependency counts as earlier exactly when it is planned at an earlier position and at no later one. |
| `Planner.Plan` | packages/checks/src/planner.ts:111-203 | The loop throws at the first conflict, and otherwise sorts and validates what it collected. |
| `Planner.PlanContents` | packages/checks/src/planner.ts:111-185 | A plan is the applicable or configured checks, each once, by priority, then by id under any locale comparison, then as catalogued. |
| `Planner.ItemMeans` | packages/checks/src/planner.ts:111-185 | A planned check, in terms of configuration, capabilities and catalogue: disabled, applicable or unsupported; required by its override, else by the lists, else by default; its priority and dependencies. |
| `Planner.ConflictMeans` | packages/checks/src/planner.ts:111-185 | A plan is refused for a conflict exactly when a planned check is both required and optional, with the error of the first such definition. |
| `Planner.PlanReturnsIff` | packages/checks/src/planner.ts:111-186 | For a layered catalogue a plan is returned exactly when nothing is both required and optional and every enabled check's dependencies are planned; they then come earlier. |
| `Planner.ShippedPlanReturnsIff` | packages/checks/src/planner.ts:84-105 | For the shipped catalogue the dependency condition is about two pairs of checks. |
| `Planner.ShippedPlanOrder` | packages/checks/src/planner.ts:32-44 | A shipped plan is the planned checks of one fixed order, whatever the configuration, in any locale that puts the three "rust" ids before their "typescript" ties. |
| `Pipeline.GuardsPassIff` | packages/engine/src/pipeline.ts:202-240 | The guards pass exactly for a nonempty selection without repeats of planned, applicable, defined checks, and execution is then of exactly those in plan order. |
| `Pipeline.AllApplicablePasses` | packages/checks/src/selection.ts:25-38 | Asking for everything applicable selects exactly the applicable executable checks, passes every guard unless there are none, and executes in that order. |
| `Pipeline.SelectionMeans` | packages/checks/src/selection.ts:54-70 | Explicit ids win, then an explicit id, then everything applicable and executable, and otherwise the type check alone is selected. |
| `Pipeline.ExplicitRequestExecutes` | packages/engine/src/pipeline.ts:202-240 | An explicit request executes exactly what it names, in plan order, unless it names nothing, a check twice, or one that is not planned, applicable and defined. |
| `Pipeline.ExecuteInOrder` | packages/engine/src/pipeline.ts:332-362 | Executes in order and stops at the first failure, naming that check. |
| `Pipeline.ResultIdsDiffer` | packages/engine/src/pipeline.ts:348-349 | The result ids given to the checks of one run are distinct. |
| `Pipeline.ResultsAreDistinct` | packages/engine/src/pipeline.ts:332-380 | The results of a guarded run have distinct check ids and result ids, as the verdict assumes. |
| `CheckRunEvaluation.EvaluateMvpCheckRuns` | apps/api/src/github-pr-comment.ts:109-190 | The loop keeps one run per category and evaluates what it kept. |
| `CheckRunEvaluation.CategoryByText` | apps/api/src/github-pr-comment.ts:100-107 | The category of a name, by the texts it holds in any letter case. |
| `CheckRunEvaluation.OthersMakeNoDifference` | apps/api/src/github-pr-comment.ts:114-129 | A run of another commit, or one whose name stands for nothing, makes no difference to the evaluation wherever it is listed. |
| `CheckRunEvaluation.HighestNamedIsKept` | apps/api/src/github-pr-comment.ts:114-129 | A run of this commit in any letter case, or of no stated commit, whose name stands for a category and whose id is the highest of such runs, is the one kept. |
| `CheckRunEvaluation.LinesMean` | apps/api/src/github-pr-comment.ts:130-181 | One line for every selected category in the order of their names, then one for every required category without a run, or the one line that says there is nothing. |
| `CheckRunEvaluation.LineSays` | apps/api/src/github-pr-comment.ts:161-173 | A line starts with the sign for success, failure or not completed, names its category and ends with its link. |
| `CheckRunEvaluation.EvidenceMeans` | apps/api/src/github-pr-comment.ts:133-159 | Evidence is given for exactly the selected runs whose id is a positive safe integer. |
| `CheckRunEvaluation.SelectedIsHighest` | apps/api/src/github-pr-comment.ts:114-129 | For each category the run kept is the one of this commit with the highest id, and none is kept only if there is none. |
| `CheckRunEvaluation.OrderDoesNotMatterIff` | apps/api/src/github-pr-comment.ts:109-190 | With numeric ids, the same runs are kept, and so the evaluation is the same, in every order of listing exactly when in each category the run with the highest id is unique. |
| `CheckRunEvaluation.EqualIdsDependOnOrder` | apps/api/src/github-pr-comment.ts:125-128 | Of two runs of one category with the same id the one listed later is kept. |
| `CheckRunEvaluation.StateMeans` | apps/api/src/github-pr-comment.ts:176-189 | Pass, fail and pending, exactly, for any selection of runs. |
| `CheckRunEvaluation.CommitPassesIff` | apps/api/src/github-pr-comment.ts:109-190 | With numeric ids and a unique highest run per category, a commit passes exactly when some run counts, every required category has one, and the highest run of every category is completed with success. |
| `FindFiles.Search` | packages/adapters-lang/src/detectors.ts:32-53 | The recursive walk terminates and returns exactly the wanted files, once each and sorted. |
| `FindFiles.FindFromRoot` | packages/adapters-lang/src/detectors.ts:22-37 | As the detectors call it: exactly the files with a wanted name, no skipped segment and at most MAX_DETECTION_DEPTH + 1 segments, sorted, once each. |
| `FindFiles.ListDirectory` | packages/adapters-lang/src/context.ts:105-113 | The sorted names of what lies directly below a directory, each once. |
| `FindFiles.StartsBelow` | packages/adapters-lang/src/context.ts:105-112 | A path starts with a directory and a slash exactly when it is below it in segments. |

## Left out

- HTTP servers, `fetch`, error mapping, JWT and HMAC signing, subprocesses and package builds: input and output.
- The runtime's remembered outcomes, settled listeners and waiters with their timers, and a queue whose `onEnqueue` throws.
- The time the fallback delay takes; that it ends is a step that may happen at any moment.
- The service's start, stop and close sequence, which depends on the order of microtasks and of `server.listen`.
- The file-backed result registry, whose order after a replacement differs from the in-memory one.
- Corrupt database rows, payload decoding, and several processes sharing one database file.
- Field-by-field validators and the mapping of statuses to Check Run conclusions and output text.
- Generated artifacts inside a composition, and the provisioner's checks before the copy (platform, launcher paths, symlinks in the artifact store); a symlink in a tree is an unsupported entry.
- The bytes of a copy: `cp` of the source is taken to be faithful, while the copy of an artifact may be any tree and is verified.
- The regular expressions of the two workflow checks, which are parameters, and all requirement normalisation and Markdown rendering.
- Markdown escaping of links in the CI lines, which is the `link` of a run, and ids or conclusions that are neither numbers nor strings.
- The detectors' signal lists, and `safeRelativePath`, whose fixed points the paths of `FindFiles` are.
- `publishArtifactDirectoryAtomically`, which is the same publication as `ComposedSnapshotStore.PublishAtomically` with the default limits.
- Plan and content hashes, reasons, versions and timestamps of plans and results.
- Pipeline.ExecuteInOrder: does not model provisioning or the environment handed to the executor, which do not affect which checks run.
- Verdict.AggregateVerification: computes the status only; ids, summary and the assembled result record are not modelled.
- CheckRunPublisher.MarkerNeverDecreases: assumes that no request takes effect after its failure was read, because such a request could undo a newer one, and that the lookups for the commit show its newest run, without which it is false.
- Different listings of one tree at different readings are modelled for the transfer; the composition protocol hashes a tree as it is given, and `ArtifactListing.ListingIrrelevantIff` says when that makes no difference.
- DependencyTransfer.Staging.TransferVerified: says exactly when it fails only for an artifact without tied siblings that both contain a file, because otherwise the hash depends on how a directory is listed.
