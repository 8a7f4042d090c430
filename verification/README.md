# A verified model of ClusterCockpit's job lifecycle and data paths

This project models the stateful core of `cc-backend` in Dafny and proves what its services rely on. A job starts in
a cache table, moves to the main table, is stopped by a handler, a NATS message or a watchdog, is queued for the
archive worker, and may be deleted at any time; around that core sit the algorithms that answer a user's request.

`dafny verify dfyconfig.toml` checks the whole project.

## How it is organised

| file | what it models |
|---|---|
| `Prelude.dfy` | Go's machine integers and ranges over maps |
| `JobTable.dfy` | the two job tables as SQL sees them: rows in rowid order, queries, updates, deletes |
| `ArchiveOutcome.dfy` | the six exits of the worker loop and the monitoring status each of them writes |
| `Lifecycle.dfy` | the transition system: start, sync, stop, watchdog, refresh, deletes, archive worker |
| `LifecycleInvariant.dfy` | the invariant of every run; a stopped row never changes again |
| `LifecycleHistory.dfy` | who ended a job, conserved keys, the ids that sync reports |
| `ArchiveQueue.dfy` | who is queued for the archive, how often, and what a queued id still means |
| `DayWindow.dfy` | the duplicate check: what keeps rows of one (job id, cluster) a day apart and in order |
| `SplitStop.dfy` | the stop handlers with their unlocked lookup, and when they refine an atomic stop |
| `JobRepository.dfy` | the repository and the handlers as objects, each method proved against `Lifecycle` |
| `Archiver.dfy` | producers, bounded channel, wait group, worker, cancellation and shutdown |
| `MetadataCache.dfy` | the metadata column, its cache and the Go maps shared between jobs and cache |
| `DeepCopy.dfy` | archived job data on the heap and what `LoadData` does to its copy |
| `QueryRegroup.dfy` | the flat query list for the metric store and the regrouping of the flat answer |
| `NodeStates.dfy` | node-state rows, batch updates, retention and the move policy |
| `RetentionCopy.dfy` | the copy retention service and its marker file |
| `Histograms.dfy` | the three histograms and the jobs their bins add up to |
| `StatsModel.dfy`, `GroupedStats.dfy` | job statistics overall and per group |
| `StatsCache.dfy`, `OnceCache.dfy` | sorting and paging of cached statistics; one computation for many callers |
| `Normalize.dfy` | SI prefix normalisation over the reals |

## What the model assumes

- (job_id, cluster, start_time) is unique in each table, and a new row gets the largest live id plus one:
  `internal/repository/migrations/sqlite3/09_add-job-cache.up.sql` declares the first, and the second is SQLite's rule
  for an `INTEGER PRIMARY KEY` without AUTOINCREMENT. Ids are therefore handed out again after deletes, and the ids of
  `job_cache` start again at 1 after every sync.
- A SQL statement, or a committed transaction, is one step; a failed transaction changes nothing. A start is its
  duplicate check and its insert in one step: `RepositoryMutex` keeps two starts apart, and `SplitStartIsAtomic` shows
  that any other steps may run between the two, if no row of the pair is cached at the check.
- Nothing keeps a start time from being negative. The order theorems need, and `StartOrdered` shows that this is
  exactly what they need, that the 64-bit difference of two start times does not wrap from below -2^63 to above 0.
- A failed marker write of the copy service leaves the marker file reading as any number up to the cutoff for
  `AtLeastOnce`, and as before for the exact counts of `CopyCoverage`.
- REST and NATS start and stop are not enabled together (`internal/api/rest.go:90-96`). The NATS handlers take the same
  branches as the REST ones, so one model stands for both.
- For the two shutdown theorems: no trigger happens, or is still on its way, once shutdown has begun.
- `uid`, `nextUid`, `log` and `done` are instrumentation: they name the accepted starts and list what was queued. The
  code never reads them.
- Times and statistics are 64-bit and durations 32-bit with Go's wrap-around; other numbers are unbounded. Floating
  point is the reals, NaN a separate value where the code looks for it.

## Where the code differs from what it promises

- `internal/archiver/archiveWorker.go:108-109` says that a job whose archiving ends in an error is marked as failed, and
  `:214` that jobs which miss the shutdown timeout are. `FailureMarkIff` says when: the first if and only if no job took
  one of the three exits that only log, the second if and only if no job is left queued. `TimeoutLeavesJobUnmarked` is
  a run in which neither the worker nor Shutdown touches a job.
- The duplicate check reads `job` only. `CachedDuplicateAccepted` shows two starts of one pair within a day;
  `DayWindowIff` says exactly which starts do no harm.
- Between lookup and commit a sync can free the looked-up cache id (`CommitHitsOtherJob`), and a transfer that finds
  no row reports an older insert id as its own: another job is stopped in its place (`CommitHitsStale`). Two handlers
  can stop one job (`StoppedTwice`). `CommitIff` has the exact condition under which a commit does the right thing.
- A stop may ask for the state `running`, which the handlers accept. Such a stop queues the job and leaves it running,
  so that it can be queued again (`RunningStopQueuesTwice`); `QueuedTwiceIff` says that over every run no job is queued
  twice for any other reason.
- A queued id can name another job after a delete (`MarkHitsOtherJob` says exactly when, `ReusedIdIsMarked` shows it).
- `UpdateMetadata` on an object of a deleted job caches metadata under its id (`DeletedJobResurfaces`), and
  `FetchMetadata` on an object that has a map already merges into it (`FetchMetadata` states exactly when that is harmless).
- `JobsStats` never fills in the node, core and accelerator totals it computes (`UnitsMissOverall`).
- Negative durations and footprints fall into the first bin (`DurationConserved`, `FootprintConserved`).
- The hours of the groups can exceed those of the whole when a running job starts in the future
  (`FutureStartBreaksHours`; `HoursIff` has the exact condition).
- A page below 1 of a positive size, or a product that wraps, is a slice out of range (`PanicsIff`). The subtracting
  comparator is no such case: `CompareIff` says when it would be wrong, `GroupedAllFit` that it never is.
- `LoadScopedStats` lacks the length check of `LoadData`; a longer answer is an index out of range there.
- A normalised metric with a prefix below 1 changes its quantity (`QuantityConserved`, `MilliIsNotConserved`).
- A copy run whose marker write fails, which is only logged, is done again each time (`HandedEveryTime`).
- The move policy for node states can delete a row it has not written (`DeletedUnfound`, `MoveCanLoseRow`).

## Model

| member | source | states |
|---|---|---|
| `Prelude.ToInt32Exact` | internal/api/job.go:1021 | Go's int32 conversion of a duration keeps the value exactly in the 32-bit range |
| `JobTable.Newest` | internal/repository/jobFind.go:25-49 | the lookup answers a matching row with the largest id, and nothing only if no row matches |
| `JobTable.SelectAll` | internal/repository/jobFind.go:86-124 | the duplicate check sees exactly the matching rows |
| `JobTable.NextId` | internal/repository/migrations/sqlite3/09_add-job-cache.up.sql:1-2 | a fresh id is larger than every live id of the table |
| `JobTable.DeleteWhere` | internal/repository/job.go:449-457 | a delete removes exactly the matching rows and keeps the id order |
| `JobTable.Patched` | internal/repository/jobCreate.go:229-235 | no update changes a row's id, key, walltime or identity |
| `LifecycleHistory.SyncAppends` | internal/repository/jobCreate.go:95-120 | a sync leaves the rows of `job` as they are and appends a copy of exactly the cached rows whose key is not there |
| `LifecycleInvariant.StartKeepsInv` | internal/api/job.go:725-795 | a start, accepted or refused, keeps ids sorted, keys unique, identities apart and each queue entry under the id of its job |
| `LifecycleInvariant.SyncKeepsInv` | internal/repository/jobCreate.go:72-139 | a sync keeps the invariant |
| `LifecycleInvariant.StopKeepsInv` | internal/api/job.go:1001-1061 | a stop keeps the invariant: the queued job has left the cache, and its entry has the id of its row |
| `LifecycleInvariant.ArchiveKeepsInv` | internal/archiver/archiveWorker.go:110-171 | a job through the worker keeps the invariant, whichever exit it takes |
| `LifecycleInvariant.TransferMoves` | internal/repository/jobCreate.go:143-172 | a transfer that succeeds answers the id of the `job` row that now is the cached job |
| `LifecycleInvariant.StopShape` | internal/api/job.go:1020-1061 | a stop either changes nothing, or marks one running row under a `job` id that means the looked-up job |
| `LifecycleInvariant.StepKeepsInv` | internal/repository/job.go:717-744 | every step, the watchdog, the refresh and the deletes included, keeps the invariant |
| `LifecycleInvariant.RunKeepsInv` | internal/repository/jobCreate.go:72-236 | so does every run |
| `LifecycleInvariant.StepKeepsFrozen` | internal/repository/job.go:819-831 | no step changes the state or duration of a finished row; refresh and sync do not touch it |
| `LifecycleInvariant.FinishedStaysFinished` | internal/repository/jobCreate.go:103-111 | over every run a finished row stays finished, with its duration, until it is deleted |
| `LifecycleHistory.FinishedRowHistory` | internal/api/job.go:1020-1041 | every finished row was ended by one stop request, whose requested state (or `completed`) and wrapped duration it carries, or by the watchdog with duration 0 |
| `LifecycleHistory.FinishedBefore` | internal/repository/job.go:717-744 | a step finishes a row only as a stop or as the watchdog on an overrun job |
| `LifecycleHistory.DurationExact` | internal/api/job.go:1021 | the stored duration is stopTime minus startTime if and only if that is below 2^31 |
| `ArchiveQueue.QueuedTwiceIff` | internal/api/job.go:1012-1060 | over every run some job is queued twice if and only if a stop that asked for the state `running` queued a job that a later stop queued again |
| `ArchiveQueue.QueuedIsFinished` | internal/api/job.go:1054-1060 | a queued job is out of the cache and of `running` at the end of every run, once one of the stops that queued it asked for another state |
| `ArchiveQueue.RunningStopQueuesTwice` | internal/api/job.go:1013-1022 | with the stop state `running` the same job is queued by each stop |
| `ArchiveQueue.EntryIdGood` | internal/archiver/archiveWorker.go:187-194 | a queued id names the queued job if and only if its row exists, and another job if and only if that row is gone and the id handed out again |
| `ArchiveQueue.MarkHitsOtherJob` | internal/archiver/archiveWorker.go:128-163 | the worker marks a row of another job exactly in that case, if its exit writes a status at all |
| `ArchiveQueue.ArchiveMarks` | internal/archiver/archiveWorker.go:128-163 | the worker sets the monitoring status of exactly the rows with the queued id, failed or successful by its exit, or leaves it, and changes nothing else |
| `ArchiveQueue.ReusedIdIsMarked` | internal/repository/job.go:475-490 | after delete and restart the worker marks the running job that got the old id |
| `LifecycleHistory.SyncMovesAllKeys` | internal/repository/jobCreate.go:95-120 | a sync moves every cached key into `job` and loses none |
| `LifecycleHistory.TransferMovesOneKey` | internal/repository/jobCreate.go:143-172 | a transfer moves exactly one key, or fails and changes nothing |
| `LifecycleHistory.StepConservesKeys` | internal/repository/jobCreate.go:72-236 | only accepted starts add a key, only deletes take keys away |
| `LifecycleHistory.RunConservesKeys` | internal/repository/job.go:404-490 | over every run a key at the end was there or was accepted, and none of those is missing unless a delete took it |
| `LifecycleHistory.NoDeletesNothingLost` | internal/repository/jobCreate.go:72-236 | over a run without deletes the keys are exactly the old ones and those of the accepted starts |
| `LifecycleHistory.SyncReportsJobIds` | internal/repository/jobCreate.go:122-136 | the id a sync reports for a cached job is that of the `job` row with its key; that row is the job itself exactly when the key was not in `job` before |
| `LifecycleHistory.SyncReportsCacheId` | internal/repository/jobCreate.go:125-136 | if a delete comes between, the stale cache id is reported |
| `DayWindow.StartApart` | internal/api/job.go:745-778 | an accepted start keeps all rows of a pair a day apart if and only if no cached row of the pair is nearer |
| `DayWindow.DayWindowIff` | internal/api/job.go:749-762 | over every run all states keep the day's distance if and only if each accepted start has it from the cached rows |
| `DayWindow.SplitStartIsAtomic` | internal/api/job.go:749-778 | with no cached row of the pair, a start with any other steps between its check and its insert is one atomic start after them, or a refused one before them |
| `DayWindow.StepDescends` | internal/repository/jobCreate.go:72-172 | every step but a start only moves rows, and new `job` ids are larger than all before |
| `DayWindow.SyncKeepsOrder` | internal/repository/jobCreate.go:95-120 | the rows that a sync moves get new ids in the order of their old ones |
| `DayWindow.StartOrdered` | internal/api/job.go:749-762 | with no cached row of the pair, an accepted start keeps id order equal to start order if and only if the 64-bit difference does not wrap |
| `DayWindow.RunOrdered` | internal/api/job.go:765-778 | over every run of such starts id order in `job` is start order and the cached row is the latest |
| `DayWindow.LookupFindsLatest` | internal/repository/jobFind.go:25-79 | then FindCached followed by Find, with a cluster and no start time, selects the latest start |
| `DayWindow.SyncIgnoresNothing` | internal/repository/jobCreate.go:103-111 | and INSERT OR IGNORE never ignores a row |
| `DayWindow.DayWindowRun` | internal/api/job.go:725-795 | all of this from the empty system, over every run |
| `DayWindow.CachedDuplicateAccepted` | internal/api/job.go:745-763 | two starts of one pair within a day are both accepted while the first is still cached |
| `SplitStop.CommitIff` | internal/api/job.go:1020-1041 | an admissible commit equals an atomic stop of the held job if and only if its row is still where it was found, or the cached row has gone and the stale insert id is that of the job's own row |
| `SplitStop.RejectedCommit` | internal/api/job.go:1002-1018 | a commit whose checks fail changes nothing |
| `SplitStop.LookThenFinish` | internal/api/job.go:829-842 | a lookup with its commit right behind it is one atomic stop |
| `SplitStop.StepKeepsHeld` | internal/repository/jobCreate.go:143-172 | whatever happens to the row, a held snapshot stays one of a job known to the system |
| `SplitStop.OtherJobsKeepPresent` | internal/api/job.go:829-842 | an atomic step on other jobs leaves the held row in place |
| `SplitStop.OtherJobsDoNotDisturb` | internal/api/job.go:1020-1041 | in every run in which no step and no other handler's commit moves, deletes or stops a held row, each commit finds its row, whatever else interleaves |
| `SplitStop.SplitRunIsAtomic` | internal/api/job.go:829-842 | every such run from the empty system has the tables and queue of a run of atomic stops |
| `SplitStop.InterleavingRefinesAtomic` | internal/api/job.go:829-842 | every interleaving of lookups, commits and other steps in which each commit finds its row has the tables and queue of a run of atomic stops |
| `SplitStop.CommitHitsOtherJob` | internal/repository/jobCreate.go:143-160 | a reused cache id makes the commit stop another job and archive it as the first |
| `SplitStop.CommitHitsStale` | internal/repository/jobCreate.go:151-163 | after a sync the commit leaves the job running, stops the row that has the stale id, and queues that id under the job's name |
| `SplitStop.StoppedTwice` | internal/api/nats.go:391-416 | two lookups before two commits queue the job twice |
| `JobRepository.Repository.Insert` | internal/repository/jobCreate.go:36-70 | an insert appends the row under the last id plus one, or fails on a taken key and changes nothing |
| `JobRepository.Repository.SyncJobs` | internal/repository/jobCreate.go:72-139 | the tables are those of the sync step, which one call computes; the loops give every reported job the id of the `job` row with its key |
| `JobRepository.Repository.TransferCachedJobToMain` | internal/repository/jobCreate.go:143-172 | the cached row moves to the end of `job` under the last id plus one; a taken key fails; a missing row changes nothing and answers the stale id |
| `JobRepository.Repository.MarkStopped` | internal/repository/jobCreate.go:218-236 | Stop changes state, duration and monitoring status of the row with the id, no other column and no other row |
| `JobRepository.Repository.StopJobsExceedingWalltimeBy` | internal/repository/job.go:717-744 | exactly the running rows whose walltime and grace are over become failed with duration 0; nothing else changes |
| `JobRepository.Repository.UpdateDuration` | internal/repository/job.go:819-831 | exactly the running rows get their age as duration; nothing else changes |
| `JobRepository.Repository.UpdateMonitoringStatus` | internal/repository/job.go:897-911 | only the monitoring status of the row with the id changes |
| `JobRepository.Repository.DeleteJobByID` | internal/repository/job.go:475-490 | the one row with the id is cut out of the table; an unknown id changes nothing |
| `JobRepository.Repository.DeleteJobsBefore` | internal/repository/job.go:404-466 | exactly the rows that started before the time go, but for the spared ones, the ids stay in order, and the answered count is their number |
| `JobRepository.Handlers.StartJob` | internal/api/job.go:725-795 | accepted if and only if each row of the pair in `job` started 86400 seconds before or more and the key is not taken; then the running row is appended to the right table, else nothing changes |
| `JobRepository.AcceptedIff` | internal/api/job.go:745-778 | the check of the start step refuses exactly the starts less than 86400 seconds after a row of the pair, and taken keys |
| `JobRepository.Handlers.StopJobByRequest` | internal/api/job.go:813-843 | not found exactly if no row of either table matches; otherwise the atomic stop, which stores and answers the requested state, or `completed` |
| `JobRepository.Handlers.CheckAndHandleStopJob` | internal/api/job.go:1001-1061 | the commit step: which check refuses, that a refusal changes nothing, and the state, duration, monitoring status and queue entry of a stop |
| `JobRepository.CommitSays` | internal/api/job.go:1001-1061 | the same answers and stored columns of the commit step that the theorems over runs are about |
| `Archiver.PendingCounts` | internal/archiver/archiveWorker.go:110-194 | in every interleaving the counter is producers between add and send, plus queued, plus in hand; it is never negative |
| `Archiver.StepKeepsCounted` | internal/archiver/archiveWorker.go:110-171 | each step keeps that; each of the six exits counts down once |
| `Archiver.NilReturnMeansAllFinished` | internal/archiver/archiveWorker.go:222-257 | a nil return: all triggered jobs received in FIFO order and finished, queue empty, worker gone |
| `Archiver.ErrorReturnMeansCancelled` | internal/archiver/archiveWorker.go:236-252 | a timeout return: cancelled, worker gone, and all finished if and only if nothing is left queued |
| `Archiver.FailureMarkIff` | internal/archiver/archiveWorker.go:108-109 | on a timeout return: the unfinished jobs are marked as failed if and only if none is left queued, those that ended in an error if and only if no exit was silent, and every job is settled if and only if both |
| `Archiver.TimeoutLeavesJobUnmarked` | internal/archiver/archiveWorker.go:214 | a run in which a job misses the timeout and is not marked |
| `Archiver.ShutdownReturns` | internal/archiver/archiveWorker.go:222-257 | once the channel is closed no run is longer than a measure, and some step is enabled until Shutdown has returned |
| `Archiver.GracefulShutdown` | internal/archiver/archiveWorker.go:222-257 | with no trigger under way the worker can finish the queue, whatever its calls report, and Shutdown returns nil |
| `Archiver.LateProducerPanics` | internal/archiver/archiveWorker.go:187-194 | a producer caught by the close: in every further run its send panics, Shutdown never sees the counter at zero and never returns nil |
| `Archiver.ArchiveWorker.TriggerArchiving` | internal/archiver/archiveWorker.go:187-194 | counts the job and sends it, as the protocol's Add and Send do; blocks exactly when 128 jobs are queued in the open channel, and panics on a closed one |
| `Archiver.ArchiveWorker.ProcessJob` | internal/archiver/archiveWorker.go:121-169 | failed metadata or archiving marks the job as failed, success of all five calls as successful, any other failure not at all; the counter goes down by one |
| `Archiver.ExitIff` | internal/archiver/archiveWorker.go:128-169 | each exit is taken exactly when its call is the first that fails |
| `Archiver.ArchiveWorker.Work` | internal/archiver/archiveWorker.go:110-171 | the loop finishes the queue in order, up to the cancellation, each job ends with the last verdict on it, and the worker exits exactly if the channel is closed or the context cancelled |
| `Archiver.WorkIsARun` | internal/archiver/archiveWorker.go:110-171 | what the loop leaves behind is the end of a run of the protocol |
| `MetadataCache.MetadataRepository.FetchMetadata` | internal/repository/job.go:231-261 | result, cache and error for each stored value; the cache stays equal to the table if and only if the merge into the job's map is harmless |
| `MetadataCache.MetadataRepository.UpdateMetadata` | internal/repository/job.go:273-311 | the job's own map, or the stored object, with the one key set is stored, cached and put into the job, no old map is written, and the archive's error comes last; the cache stays equal to the table if and only if the job is live or had no map |
| `MetadataCache.MetadataRepository.Evict` | internal/repository/jobCreate.go:225-227 | dropping an entry keeps the cache correct |
| `MetadataCache.MetadataRepository.DeleteJobByID` | internal/repository/job.go:475-490 | row and cache entry go together |
| `MetadataCache.MetadataRepository.DeleteJobsBefore` | internal/repository/job.go:404-466 | exactly the rows before the time without the omitted tags go, and exactly their cache entries |
| `MetadataCache.Run` | internal/repository/job.go:231-311 | over every run with fetches on jobs without metadata and updates of live jobs, rows, job objects and answers are those of the same calls without a cache, and no map handed out is written again |
| `MetadataCache.DropsDoNotMatter` | internal/repository/jobCreate.go:225-227 | when entries are evicted or invalidated changes no answer and no row |
| `MetadataCache.UpdateIsRead` | internal/repository/job.go:286-309 | what one object stored is what the next fetch for any other object of the job answers |
| `MetadataCache.UpdateKeepsOthers` | internal/repository/job.go:280-299 | every other key keeps the value it has in the job's map, or in the stored object for a job without one |
| `MetadataCache.FetchAnswers` | internal/repository/job.go:231-261 | without a cache a fetch answers the stored object, nothing for an empty value, an error for broken text or a missing row |
| `MetadataCache.StoredIsServed` | internal/repository/job.go:231-311 | in a run of two objects of one job the second is answered the stored object with the key that the first has set |
| `MetadataCache.DeletedJobResurfaces` | internal/repository/job.go:303-309 | metadata set on a deleted job is served to the next job with that id |
| `MetadataCache.MergeIsStored` | internal/repository/job.go:253 | merging the stored object into a map gives the stored object exactly when the map had no other keys |
| `DeepCopy.CopySeries` | internal/metricdispatch/dataLoader.go:499-509 | equal content in a new data array |
| `DeepCopy.CopyStatisticsSeries` | internal/metricdispatch/dataLoader.go:511-533 | equal content, all arrays and percentile arrays new |
| `DeepCopy.CopyJobMetric` | internal/metricdispatch/dataLoader.go:481-497 | equal content, and nothing reachable from the copy existed before |
| `DeepCopy.SameValueIff` | internal/metricdispatch/dataLoader.go:481-533 | equal contents means equal in every field, series, number and statistics array |
| `DeepCopy.Copy` | internal/metricdispatch/dataLoader.go:467-479 | the copy has the source's cells and contents, reaches only new objects and shares none between cells; the source is unchanged |
| `DeepCopy.ResampleAll` | internal/metricdispatch/dataLoader.go:141-152 | all series are sampled with the old time step, the new one is that of the last series; it fails exactly if one series fails |
| `DeepCopy.ApplySummarise` | internal/metricdispatch/dataLoader.go:195-204 | statistics are added to metrics with 8 or more series and none yet |
| `DeepCopy.ApplyAll` | internal/metricdispatch/dataLoader.go:141-152 | a pass changes every cell as it should and reaches only the copy and new objects |
| `DeepCopy.Filter` | internal/metricdispatch/dataLoader.go:154-183 | of the requested metrics exactly the requested scopes are kept, and all scopes of a metric that has none of them; the kept cells are the same objects |
| `DeepCopy.MetricKept` | internal/metricdispatch/dataLoader.go:164-181 | a requested metric that has data is never filtered away |
| `DeepCopy.KeptCellsIff` | internal/metricdispatch/dataLoader.go:164-181 | an unrequested scope is kept if and only if its metric has no requested one |
| `DeepCopy.ServedIs` | internal/metricdispatch/dataLoader.go:141-219 | what is served of a metric: its series sampled at the old time step and with rounded statistics, the last new time step, and statistics series from eight series on |
| `DeepCopy.LoadArchived` | internal/metricdispatch/dataLoader.go:128-219 | apart from what `AddNodeScope` adds: the archived branch writes nothing that existed before, fails exactly if the resampler fails, and serves each kept cell sampled, summarised and rounded |
| `QueryRegroup.KeptOnce` | internal/metricstoreclient/cc-metric-store-queries.go:85-102 | no effective scope is queried twice for a metric, and every requested one is covered |
| `QueryRegroup.AddScope` | internal/metricstoreclient/cc-metric-store-queries.go:104-131 | one scope adds the queries of every host to both lists |
| `QueryRegroup.AddMetric` | internal/metricstoreclient/cc-metric-store-queries.go:85-132 | the loop with its list of handled scopes adds each kept scope once |
| `QueryRegroup.BuildQueries` | internal/metricstoreclient/cc-metric-store-queries.go:57-136 | the two lists have one length and pair each query, field by field, with its scope; it fails exactly on a missing topology or an unsupported pair |
| `QueryRegroup.AskedConfigured` | internal/metricstoreclient/cc-metric-store-queries.go:72-83 | only requested, configured and not removed metrics are queried |
| `QueryRegroup.QueriedIff` | internal/metricstoreclient/cc-metric-store-queries.go:72-83 | a metric is skipped exactly if it is not configured, removed from the subcluster, or of accelerators for a job without any |
| `QueryRegroup.AskedIff` | internal/metricstoreclient/cc-metric-store-queries.go:72-132 | the plan holds exactly the queries of every asked metric, kept scope and host, and fails exactly when one of them can not be built |
| `QueryRegroup.AppendRow` | internal/metricstoreclient/cc-metric-store.go:304-328 | a row adds its non-error results as series and its errors to the list, in order |
| `QueryRegroup.RowAt` | internal/metricstoreclient/cc-metric-store.go:304-328 | result by result: a good one is a series of the host with the type id at its position, its numbers or zeros for NaN, and its data; any other is an error |
| `QueryRegroup.Put` | internal/metricstoreclient/cc-metric-store.go:330-336 | a group is stored, or removed when empty, its metric with it; all other groups stay |
| `QueryRegroup.LoadData` | internal/metricstoreclient/cc-metric-store.go:262-343 | the result is exactly the non-empty groups by metric and scope in query order, with unit and first resolution; a longer answer is cut |
| `QueryRegroup.LoadScopedStats` | internal/metricstoreclient/cc-metric-store.go:447-498 | the same groups of statistics; an index out of range exactly if the answer is longer than the queries |
| `QueryRegroup.LoadersAgree` | internal/metricstoreclient/cc-metric-store.go:420-499 | for the plan of buildQueries both loaders agree on groups, hosts, ids, statistics and errors |
| `QueryRegroup.GroupMembers` | internal/metricstoreclient/cc-metric-store.go:304-328 | a series is in a group if and only if it is a non-error result of a query with that metric and scope |
| `QueryRegroup.GroupAt` | internal/metricstoreclient/cc-metric-store.go:311-328 | the series of a row follow those of the earlier rows of the group |
| `QueryRegroup.StepIsFirst` | internal/metricstoreclient/cc-metric-store.go:286-302 | the time step is the resolution of the first result of the first row that gave the group a series |
| `QueryRegroup.FailuresAt` | internal/metricstoreclient/cc-metric-store.go:304-309 | the reported errors are those of the rows of known metrics, in row order |
| `QueryRegroup.RowSplits` | internal/metricstoreclient/cc-metric-store.go:304-309 | every result is either a series or an error |
| `NodeStates.RetentionKeepsNewest` | internal/repository/node.go:383-396 | a newest row is never deleted, so a node with rows keeps one |
| `NodeStates.DeletedIff` | internal/repository/node.go:383-396 | a row is deleted exactly if it is older than the cutoff and its node has a younger one |
| `NodeStates.NewestSame` | internal/repository/node.go:383-396 | a row is newest after a retention if and only if it was before |
| `NodeStates.RetentionsCompose` | internal/repository/node.go:383-396 | two retentions with no update between are one with the later cutoff |
| `NodeStates.FoundIsDeleted` | internal/repository/node.go:345-396 | on one table the rows found are the rows deleted if and only if each of them has its node |
| `NodeStates.DeletedUnfound` | internal/taskmanager/nodestateRetentionService.go:75-112 | with updates between find and delete, a row is deleted unfound exactly if it stopped being newest |
| `NodeStates.MoveCanLoseRow` | internal/taskmanager/nodestateRetentionService.go:75-112 | one update between loses the only row of a node to the archive |
| `NodeStates.RetentionInvisible` | internal/repository/node.go:58-62 | over every run of batches and retentions each node shows the newest rows it would show without retention |
| `NodeStates.NodeRepository.BatchUpdateNodeStates` | internal/repository/node.go:257-341 | the loop does one update after the other, skipping those that can not be placed |
| `NodeStates.UpdateAdds` | internal/repository/node.go:257-341 | a valid update of a known node, or of one that can be placed, adds one row under the next id; nothing else changes |
| `NodeStates.BatchAdds` | internal/repository/node.go:257-341 | after a batch every valid update that could be placed has its row, for its own node |
| `NodeStates.NodeRepository.Move` | internal/taskmanager/nodestateRetentionService.go:70-119 | find, write and delete: what is archived and what is deleted, and nothing when the writer can not be closed |
| `RetentionCopy.AtLeastOnce` | internal/taskmanager/retentionService.go:240-282 | over every run, whatever fails, marker writes included, each selectable job below the marker was handed over |
| `RetentionCopy.CopyKeepsInv` | internal/taskmanager/retentionService.go:240-282 | one scheduled run keeps the exact counts, also when the transfer or the marker write fails |
| `RetentionCopy.CopyCoverage` | internal/taskmanager/retentionService.go:240-282 | with u failed marker writes after handing a job over: 1 + u handovers below the marker, 2 + u if and only if it was known when a later marker was written at its start; at most two exactly if u allows it |
| `RetentionCopy.OnceOrTwice` | internal/taskmanager/retentionService.go:240-282 | with successful marker writes once or twice, twice if and only if it starts at such a marker |
| `RetentionCopy.NeverHandedAgain` | internal/taskmanager/retentionService.go:191-204 | once the marker has passed a job it is not handed over again, unless the marker file is damaged |
| `RetentionCopy.HandedEveryTime` | internal/taskmanager/retentionService.go:201-203 | if the marker can never be written, k runs hand a job over k times |
| `RetentionCopy.HandedTwice` | internal/repository/job.go:844-857 | a job that starts exactly at a marker is handed over twice |
| `RetentionCopy.CopyService.Copy` | internal/taskmanager/retentionService.go:240-282 | hands over exactly the untagged jobs from the marker to the cutoff, for each outcome of transfer and marker write; otherwise nothing changes |
| `Histograms.DurationHistogram` | internal/repository/stats.go:822-882 | bin i counts the jobs from i to i+1 bin sizes (the first also those above minus one) and is named by its upper end; groups beyond the bins are dropped |
| `Histograms.DurationConserved` | internal/repository/stats.go:839-874 | the bins add up to the jobs with -binSize < duration < n*binSize, so to those from 0 on if and only if no duration is negative there |
| `Histograms.FootprintHistogram` | internal/repository/stats.go:995-1029 | bin i counts the jobs whose SQL bin is i, none with a peak of 0, with the printed limits |
| `Histograms.FootprintBinIs` | internal/repository/stats.go:962-976 | below the peak the SQL bin of a value is b exactly if it lies in the b-th part of the peak |
| `Histograms.PeakInLastBin` | internal/repository/stats.go:966-976 | the peak value falls into the last bin if and only if there are at most 10^9 bins |
| `Histograms.FootprintConserved` | internal/repository/stats.go:962-1029 | the bins add up to the values in [0, peak] if and only if no small negative value exists |
| `Histograms.RunningHistogram` | internal/repository/stats.go:1125-1148 | the nested loops count each truncated average in the bins it lies in |
| `Histograms.RunningConserved` | internal/repository/stats.go:1128-1148 | the bins add up to the truncated averages in [0, bins*(peak div bins)), the whole peak only if the bins divide it |
| `GroupedStats.JobsStatsGrouped` | internal/repository/stats.go:268-293 | one record for each group with a name, in the order of the rows, with that name and the columns over the group's jobs |
| `GroupedStats.OneMoreJob` | internal/repository/stats.go:136-229 | what one more job adds to each sum, running jobs with the time since their start |
| `GroupedStats.ColumnMeans` | internal/repository/stats.go:136-229 | a requested column is its sum, number of users or whole hours cut towards zero; any other is 0 |
| `GroupedStats.OverallIs` | internal/repository/stats.go:327-394 | the overall record has the columns of all jobs but for nodes, cores and accelerators, which are 0 |
| `GroupedStats.GroupsPartition` | internal/repository/stats.go:220-223 | sums over the named groups are the sum over the jobs with a group |
| `GroupedStats.GroupsAddUp` | internal/repository/stats.go:136-229 | counts and units of the groups add up to those of the named jobs, whatever fields are requested |
| `GroupedStats.CountsMatchOverall` | internal/repository/stats.go:234-394 | grouped job counts add up to the overall one if and only if no group column is NULL; running and short counts then too |
| `GroupedStats.UnitsMissOverall` | internal/repository/stats.go:379-389 | grouped nodes, cores and accelerators add up to the overall field only when there are none |
| `GroupedStats.HoursIff` | internal/repository/stats.go:166-205 | the hours of the named jobs exceed the sum over their G groups by at most G-1, and are not below it if and only if the seconds cut off group by group add up to at least 0, or to more than minus an hour while the total is not positive |
| `GroupedStats.FutureStartBreaksHours` | internal/repository/stats.go:142-149 | a running job that starts in the future makes the groups exceed the whole |
| `GroupedStats.UsersMatchOverall` | internal/repository/stats.go:160-164 | user counts of the groups add up to at least the overall one, and to exactly that when grouped by user |
| `StatsCache.CompareIff` | internal/graph/stats_cache.go:88-93 | the comparator orders a pair by descending field if and only if the difference fits into 64 bits |
| `StatsCache.SortDescending` | internal/graph/stats_cache.go:88-93 | a list whose differences fit is sorted into descending order |
| `StatsCache.SortPermutes` | internal/graph/stats_cache.go:83-93 | the sorted list has the same records, whatever the comparator does |
| `StatsCache.GroupedAllFit` | internal/graph/schema.resolvers.go:674-688 | the records that the resolver sorts always compare correctly, for each of the nine sort fields |
| `StatsCache.SortInPlace` | internal/graph/stats_cache.go:90-92 | the array ends as the sorted sequence |
| `StatsCache.PageIff` | internal/graph/stats_cache.go:95-105 | for page and size from 1 on the page is the right window if and only if the product does not wrap into the list |
| `StatsCache.PanicsIff` | internal/graph/stats_cache.go:95-105 | for every 64-bit page and size: out of range exactly when the wrapped start is negative, or lies in the list with a negative or overflowing size; without wrap, for pages below 1 of a positive size and for sizes below -1 unless the start is behind the list |
| `StatsCache.HugePagePanics` | internal/graph/stats_cache.go:96 | a wrapped product is a slice out of range |
| `StatsCache.PagesCover` | internal/graph/stats_cache.go:95-105 | the pages that the code answers for a list, up to one that covers its end, are together the whole list; nothing is lost or doubled, none is out of range |
| `StatsCache.AllPagesSorted` | internal/graph/stats_cache.go:83-108 | all pages that the code answers for a list whose differences fit are together one descending permutation of it |
| `StatsCache.GroupedPagesSorted` | internal/graph/schema.resolvers.go:674-688 | so are those of grouped statistics, whatever column they are sorted by |
| `StatsCache.SortAndPage` | internal/graph/stats_cache.go:83-108 | the page of a sorted copy, the whole of it without a page request or with size -1; the cached list stays as it is |
| `StatsCache.SortFieldComputed` | internal/graph/stats_cache.go:112-162 | the column the getter sorts by is the one that was requested, with its true value |
| `OnceCache.OncePerKey` | internal/graph/stats_cache.go:63-79 | in every interleaving compute is called at most once for a key, and all callers are given its outcome, errors included |
| `OnceCache.CallersProgress` | internal/graph/stats_cache.go:75-78 | a waiting caller, or the one that computes its key, can always move |
| `OnceCache.ComputedThenShared` | internal/graph/stats_cache.go:63-79 | a caller alone is answered what it computed, and the next one of the key the same without another computation |
| `OnceCache.StatsGroupCache.GetOrCompute` | internal/graph/stats_cache.go:63-79 | a finished entry is answered as it is, another is filled with the new outcome; no other entry changes |
| `Normalize.GetNormalizationFactor` | internal/importer/normalize.go:23-45 | the loops terminate over the positive reals and give the factor with its exponent |
| `Normalize.Normalized` | internal/importer/normalize.go:23-45 | the value times its factor lies in [1, 1000] |
| `Normalize.GetExponent` | internal/importer/normalize.go:55-69 | the loop counts the thousands of a prefix |
| `Normalize.ExponentIs` | internal/importer/normalize.go:55-69 | the exponent of a prefix is that of the least power of a thousand, from 1 on, not below it |
| `Normalize.ThousandsIff` | internal/importer/normalize.go:55-86 | a prefix is given back by exponent and power exactly if it is 10^(3k), k at least 0 |
| `Normalize.Normalize` | internal/importer/normalize.go:107-116 | factor and new prefix of the two helpers |
| `Normalize.NewPrefixIs` | internal/importer/normalize.go:74-86 | a scaled value gets the prefix that undoes the scaling of that power; any other keeps its prefix |
| `Normalize.QuantityConserved` | internal/importer/normalize.go:107-116 | value times prefix is unchanged if and only if the value needed no scaling or the prefix is such a power |
| `Normalize.MilliIsNotConserved` | internal/importer/normalize.go:55-69 | a milli prefix changes the quantity a thousandfold |

## Left out

- HTTP, NATS and JSON decoding, authentication, roles, logging, routing, configuration: no state of their own.
- NATS message queues and worker goroutines (`internal/api/nats.go:132-257`): they call the modelled handlers.
- Start and stop hooks, taggers and the footprint and energy computations: a call of the archive worker succeeds or fails.
- Job import and `Flush`: they bypass the start checks.
- The energy footprint cache: it is invalidated like the metadata cache.
- Lookups by database id and job lists (`FindByID`, `GetJobList`, `FindConcurrentJobs`): single queries.
- `BuildScopeQueries`, the resampler, `AddStatisticsSeries`, the rounding of statistics and the LRU cache: parameters or
  arbitrary steps; of `BuildScopeQueries` only that it puts the given metric into each query is used.
- DeepCopy.LoadArchived: `AddNodeScope`, a library call that may add node-scope cells for two metrics before the
  rounding, is not part of this model, so the served cells are those without it.
- Job data maps of `LoadData` are values in `DeepCopy`: two names for one Go map are not captured there; metrics, series
  lists, data and statistics arrays are heap objects.
- GroupedStats.JobsStatsGrouped: the records come in the order of the result rows; the query's own ORDER BY and LIMIT,
  which the cached path does not use, and the display names of users are not part of this model.
- `LoadStats` and the node loaders of the metric store: the same regrouping with fewer keys.
- A marker file that is removed or damaged by others between two runs of the copy service.
- Rounding of floating point numbers, and the six decimals to which the footprint query prints the peak.
- Deadlines of the shutdown timer and of cache entries: a timeout and an eviction can happen at any time.
- The `notindb` paging of the node list.
- StatsCache.SortInPlace: an insertion sort stands for `slices.SortFunc`; the order of records with equal fields is one
  of those it may give.
