# Verified model of the memory service's worker plane and data paths

A Dafny model of the logic of the memory service that its users rely on without seeing it: who may
end an attempt of a background job, which rows a cursor leads to, what a batch, a cache or a size
guard may differ in from the simple form it stands for, and what a crash can leave behind. Stateful
parts are step systems whose theorems quantify over every sequence of steps, or classes and methods
in the form of the source; pure parts are functions. `dafny verify dfyconfig.toml` checks the whole
project.

| files | subject |
|---|---|
| `LeasePlane`, `LeaseInvariant`, `LeaseRuns`, `LeaseTime`, `LeaseWorker` | leased learning jobs, eval runs and outbox events |
| `Text`, `Utf8`, `Base64Url`, `ListCursor`, `UsagePaging` | opaque cursors and keyset paging |
| `RetrievalScore`, `Percentile` | retrieval-quality scores and the latency percentile |
| `ProviderProbe` | the provider health sweep and summary |
| `BatchUpdate` | batched against single record updates |
| `QuotaCache` | the quota limits and their cache |
| `DomainHistogram`, `JsonText`, `ExportGuard` | histogram exposition, JSON text and the size-guarded export |
| `Mem0Space`, `Mem0Entity` | get-or-create of the mem0 space, and entity registration |
| `ForgetProtocol`, `ForgetSafety`, `ForgetScope`, `ForgetProgress`, `ForgetMemories` | forget requests with their audit rows |
| `ExtractionBudget` | the extraction budget and its retries |
| `SerdeInt64` | 64-bit ids on the wire |

The statements of the native SQL store are modelled from their SQL text: one atomic step each, with
the same WHERE clause, ordering, limit and unique indexes.

## Where the code does not do what one would expect

Each of these is the code's behaviour, stated exactly by the named member.

- The job sweep compares the attempt count before it charges the lost attempt, the outbox sweep
  after. So a learning job or eval run whose worker keeps dying is executed `max_attempts + 1` times,
  an outbox event max(1, `max_attempts`) times (`LeaseRuns.ClaimsAreBounded`,
  `LeaseRuns.ClaimBoundIsReached`). `database/README.md:85-88` says that stale rows past the ceiling
  become `dead`; on the outbox they become failed (`LeaseRuns.EndStatesAreEarned`).
- The claim that selects its rows first and updates them one by one (the SQLite path) does not look at
  the backoff again in the update. So a row requeued with a backoff is claimed before the backoff is
  over exactly when some batch had selected it before (`LeaseTime.WaitIsKeptExactly`,
  `LeaseTime.EarlierBatchIgnoresBackoff`).
- A batched update reads each record once and hands it to the first slot that names it, so a second
  slot with the same id reports "not found" instead of being applied; and for a record whose id is
  too large to be mapped, the batch and the single call check in a different order
  (`BatchUpdate.BatchEqualsSequential` has the exact condition).
- The quota resolver reads the environment twice. A change between the two reads is cached under the
  old key (`QuotaCache.AnswerFitsItsKey`, `QuotaCache.EnvironmentRace`).
- The unique index on a principal's space covers deleted rows and the lookup does not, so the
  conflict reaches the caller exactly when the space was deleted; and the loser of a race may be told
  that the quota is exceeded (`Mem0Space.ConflictSurfacesIffDeleted`, `Mem0Space.LoserMaySeeQuota`).
  No operation of the service marks a space deleted, so such a row comes from outside it.
- A refused entity registration fails whenever its uuid has no live row: its row was deleted, or
  another row held the name, even if that row was renamed before the second look
  (`Mem0Entity.ConflictSurfacesExactly`, `Mem0Entity.RenamedHolderStillConflicts`). A scope whose
  own row was renamed is answered as registered (`Mem0Entity.RenamedScopeIsNotMissed`).
- The shape check of a forget request is meant to keep a validation failure from stranding a running
  job. A request of any scope without an actor, and a space id beyond the storage range, pass it and
  are refused after the start row, and then no continuation gives the job a terminal row
  (`ForgetProgress.StrandedExactly`, `ForgetProgress.RequestWithoutActorIsStranded`).

## Model

| member | source | states |
|---|---|---|
| `LeaseInvariant.ClaimKeepsRow` | plugins/sdkwork-memory-plugin-native-sql/src/learning_jobs.rs:320-470 | claiming a queued row under a fresh token keeps the row invariant: a strictly alternating history of claims and ends, a lease exactly while running, the counter equal to the ended attempts |
| `LeaseInvariant.HolderKeepsRow` | plugins/sdkwork-memory-plugin-native-sql/src/learning_jobs.rs:540-665 | renewing, finishing and charging a row under its lease keep the row invariant, whoever calls them and with whatever owner, token and clock |
| `LeaseInvariant.SweepKeepsRow` | plugins/sdkwork-memory-plugin-native-sql/src/learning_jobs.rs:187-318 | the stale sweep keeps the row invariant on all three planes |
| `LeaseInvariant.StepKeeps` | crates/sdkwork-intelligence-memory-service/src/job_worker.rs:438-562 | every step of workers, heartbeats, sweep, crashes and the clock keeps the system invariant: every end of an attempt in a history is a sweep or is justified by a completed execution under that very token |
| `LeaseInvariant.EveryRunIsSound` | crates/sdkwork-intelligence-memory-service/src/job_worker.rs:383-562 | the system invariant holds after every sequence of steps |
| `LeaseRuns.OnlyHolderOrSweepEndsAttempt` | crates/sdkwork-intelligence-memory-service/src/job_worker.rs:438-562 | a running row either keeps its owner, token, count and history, or was ended by the sweep at or after its expiry, or by the attempt holding its current token before it, with the ending that attempt had earned |
| `LeaseRuns.HistoryRecordsEveryChange` | crates/sdkwork-intelligence-memory-service/src/outbox_publisher.rs:139-268 | a step appends at most one event to a row's history, and appends one exactly when it changes the row's state |
| `LeaseRuns.AttemptEndsAtMostOnce` | crates/sdkwork-intelligence-memory-service/src/job_worker.rs:482-562 | no two ends, and no two claims, of one row carry the same token |
| `LeaseRuns.EndedAttemptIsInert` | crates/sdkwork-intelligence-memory-service/src/job_worker.rs:492-562 | once an attempt has ended nothing its worker still does for it changes any row; so a requeue that took effect but answered with an error makes the terminal fallback write a no-op |
| `LeaseRuns.EndStatesAreEarned` | crates/sdkwork-intelligence-memory-service/src/outbox_publisher.rs:139-268 | succeeded (published) and skipped rows had an execution that completed so under the acknowledging token; dead comes only from the job sweep, failed only from a failed execution or the outbox sweep |
| `LeaseRuns.PlaneLimits` | plugins/sdkwork-memory-plugin-native-sql/src/store.rs:4017-4196 | which endings each plane can produce at all, in every run |
| `LeaseRuns.TerminalIsForever` | crates/sdkwork-intelligence-memory-service/src/job_worker.rs:383-417 | a terminal row is never changed again by any continuation |
| `LeaseRuns.ClaimsAreBounded` | plugins/sdkwork-memory-plugin-native-sql/src/learning_jobs.rs:205-318 | a row is claimed at most max_attempts + 1 times (jobs) or max(1, max_attempts) times (outbox), every state change uses up part of twice that bound, and a live row's counter is the number of its ended attempts |
| `LeaseRuns.ClaimBoundIsReached` | plugins/sdkwork-memory-plugin-native-sql/src/learning_jobs.rs:205-318 | the bound is exact: a run of crashes reaches it, so a job is executed max_attempts + 1 times before it is dead |
| `LeaseRuns.ClaimNow` | plugins/sdkwork-memory-plugin-native-sql/src/learning_jobs.rs:320-470 | a queued row can be claimed from every reachable state, however far its backoff reaches |
| `LeaseRuns.SweepNow` | plugins/sdkwork-memory-plugin-native-sql/src/learning_jobs.rs:187-318 | a running row is always recoverable: once its lease is over the sweep takes it out of the running state |
| `LeaseRuns.NoRowIsLost` | crates/sdkwork-intelligence-memory-service/src/job_worker.rs:383-417 | a row never leaves the table, and from every reachable state some continuation brings it to a terminal state |
| `LeaseWorker.LeaseTable.RenewLease` | plugins/sdkwork-memory-plugin-native-sql/src/learning_jobs.rs:637-665 | the renewal statement: its effect on the one row and its answer, also when the answer is lost; under a lease that is not over it answers yes and moves the expiry to max(lease seconds, 5) after its timestamp |
| `LeaseWorker.LeaseTable.FinishRun` | plugins/sdkwork-memory-plugin-native-sql/src/learning_jobs.rs:540-583 | the fenced completion statement: its effect and its answer |
| `LeaseWorker.LeaseTable.ChargeFailure` | plugins/sdkwork-memory-plugin-native-sql/src/learning_jobs.rs:587-635 | the fenced failure statement: charge, requeue with backoff or fail, and whether it hit the row |
| `LeaseWorker.LeaseTable.RequeueStale` | plugins/sdkwork-memory-plugin-native-sql/src/learning_jobs.rs:205-318 | the batched sweep loop ends with no stale row, every row as one sweep of all rows leaves it, and counts exactly the rows buried and requeued |
| `LeaseWorker.LeaseTable.Supervise` | crates/sdkwork-intelligence-memory-service/src/job_worker.rs:438-481 | the heartbeat loop with any interference: either the execution completed and its attempt still stands, or the attempt is abandoned without an outcome |
| `LeaseWorker.LeaseTable.FinishAfterFault` | crates/sdkwork-intelligence-memory-service/src/job_worker.rs:531-562 | the fallback write after a failed requeue is recorded only for an execution that failed under this token |
| `LeaseWorker.LeaseTable.RecordOutcome` | crates/sdkwork-intelligence-memory-service/src/job_worker.rs:482-562 | recording a completed execution under the same lease: charge, fallback or finish; a recorded result is in the row's history and justified |
| `LeaseWorker.LeaseTable.ProcessClaimed` | crates/sdkwork-intelligence-memory-service/src/job_worker.rs:438-562 | processing a claimed row, with arbitrary steps of everyone else in between: a recorded result is in the row's history and is justified by the completed execution under this token |
| `LeaseWorker.LeaseTable.Beat` | crates/sdkwork-intelligence-memory-service/src/job_worker.rs:438-481 | one heartbeat of a claimed row: when its row is held beyond its timestamp and it is answered, the answer is a renewed lease of max(lease seconds, 5) after that timestamp; any other answer ends the task |
| `LeaseTime.EveryLeaseHasItsOwner` | plugins/sdkwork-memory-plugin-native-sql/src/learning_jobs.rs:320-470 | in every run the lease of a running row names the worker whose batch has its token |
| `LeaseTime.LeaseKeepsRow` | plugins/sdkwork-memory-plugin-native-sql/src/learning_jobs.rs:320-470 | in every run, after a claim or a renewal bound at ts, nothing the rest of the system does changes the row while the sweeps of it are bound before ts + max(lease seconds, 5) |
| `LeaseTime.SweepTakesExactly` | plugins/sdkwork-memory-plugin-native-sql/src/learning_jobs.rs:187-318 | a sweep takes a held row exactly when it is bound at or after the expiry |
| `LeaseTime.HeartbeatsKeepRow` | crates/sdkwork-intelligence-memory-service/src/job_worker.rs:438-481 | a worker whose heartbeats are each bound before the expiry that the one before set keeps its row through any number of them, whatever happens in between |
| `LeaseTime.AckInTime` | plugins/sdkwork-memory-plugin-native-sql/src/learning_jobs.rs:540-635 | an acknowledgement bound before the expiry takes effect: a good execution makes the row succeeded, a skipped one skipped, and a failed one charges it and fails it at the ceiling or requeues it with its backoff |
| `LeaseTime.WorkInTimeIsRecorded` | crates/sdkwork-intelligence-memory-service/src/job_worker.rs:438-562 | from a claim over any number of heartbeats to the acknowledgement: the outcome of a worker that acts in time is recorded on its row, whatever the rest of the system does in between |
| `LeaseTime.WaitIsKeptExactly` | plugins/sdkwork-memory-plugin-native-sql/src/learning_jobs.rs:391-470 | a row waiting for its backoff can be claimed by a run whose batches are all bound before that moment if and only if some batch had selected it already |
| `LeaseTime.WaitIsOver` | plugins/sdkwork-memory-plugin-native-sql/src/learning_jobs.rs:391-420 | a batch can select a waiting row exactly from the moment it waits for |
| `LeaseTime.EarlierBatchIgnoresBackoff` | plugins/sdkwork-memory-plugin-native-sql/src/learning_jobs.rs:423-447 | a reachable run in which a row whose execution has just failed is claimed ten seconds before its backoff is over, by a batch that selected it earlier |
| `Utf8.DecodeOfEncode` | crates/sdkwork-intelligence-memory-service/src/platform.rs:493-546 | strict UTF-8 decoding returns every text from its bytes |
| `Utf8.EncodeOfDecode` | crates/sdkwork-intelligence-memory-service/src/platform.rs:493-546 | bytes that decode are exactly the encoding of what they decode to |
| `Base64Url.DecodeIffEncoded` | crates/sdkwork-intelligence-memory-service/src/platform.rs:493-546 | unpadded base64url (sections 3.5 and 5 of RFC 4648): a text decodes to some bytes if and only if it is their encoding |
| `ListCursor.DecodesExactlyIssuedTokens` | crates/sdkwork-intelligence-memory-service/src/platform.rs:504-546 | a text decodes to a key if and only if, trimmed, it is the token issued for that key |
| `ListCursor.RoundTrip` | crates/sdkwork-intelligence-memory-service/src/platform.rs:504-546 | decoding an issued token returns its key, for every key |
| `ListCursor.TokensAreInjective` | crates/sdkwork-intelligence-memory-service/src/platform.rs:504-508 | different keys have different tokens, whatever the MAC computes |
| `ListCursor.ValidatedPageSize` | crates/sdkwork-intelligence-memory-service/src/platform.rs:323-331 | page sizes from 1 to 200 are accepted as they are and no others; without one the size is 20 |
| `UsagePaging.SplitOnceMeans` | crates/sdkwork-intelligence-memory-service/src/commercial_api.rs:1835-1845 | splitting once at the separator: absent exactly when there is none, otherwise the head has none and head, separator and tail are the text |
| `UsagePaging.UsageCursorRoundTrip` | crates/sdkwork-intelligence-memory-service/src/commercial_api.rs:1835-1845 | a (day, metric) position survives its token exactly when the day has no separator; the metric may contain it |
| `UsagePaging.RefusedExactly` | crates/sdkwork-intelligence-memory-service/src/commercial_api.rs:1423-1435 | a request is refused exactly for an illegal page size, or with a legal one for a cursor that does not decode |
| `UsagePaging.TokenResumes` | crates/sdkwork-intelligence-memory-service/src/commercial_api.rs:1436-1455 | the token issued for any row above a position decodes to that row's key, and the rows above it are the ones after it |
| `UsagePaging.PageIsNextStretch` | crates/sdkwork-intelligence-memory-service/src/commercial_api.rs:1423-1455 | a page is the next stretch of rows above the position, has a token exactly when rows are left, and the token resumes right after it |
| `UsagePaging.FollowCollectsTheRest` | crates/sdkwork-intelligence-memory-service/src/commercial_api.rs:1423-1455 | following the tokens from any accepted cursor ends and yields exactly the rows above it |
| `UsagePaging.FollowVisitsEveryRowOnce` | crates/sdkwork-intelligence-memory-service/src/commercial_api.rs:1423-1455 | from the first page, for every legal page size, the client gets the tenant's table itself: every row once, ascending |
| `RetrievalScore.CountHits` | crates/sdkwork-intelligence-memory-service/src/job_worker.rs:1206-1225 | the one-pass loop with its early break counts, ranks and discounts exactly the first top_k distinct ids |
| `RetrievalScore.StoppedAtTop` | crates/sdkwork-intelligence-memory-service/src/job_worker.rs:1210-1217 | where the loop stops, the kept ids are the first top_k distinct results |
| `RetrievalScore.TallyMeans` | crates/sdkwork-intelligence-memory-service/src/job_worker.rs:1218-1223 | the counters are the size of the intersection with the expected set, the rank of the first expected id and the discounted gain |
| `RetrievalScore.ScoreRetrievalCase` | crates/sdkwork-intelligence-memory-service/src/job_worker.rs:1199-1250 | the score of a case is that of the first top_k distinct ids: the counts, recall and precision as the quotients of the hits by the expected and by the kept ids, the reciprocal of the first expected position, and the gain over the ideal gain |
| `RetrievalScore.ScoreMeans` | crates/sdkwork-intelligence-memory-service/src/job_worker.rs:1228-1249 | for any kept ids: recall times the expected ids, and precision times the kept ids, are the hits; the reciprocal rank times the first expected position is 1; NDCG times the ideal gain is the gain; nothing kept or found gives zeros |
| `RetrievalScore.DistinctInOrder` | crates/sdkwork-intelligence-memory-service/src/job_worker.rs:1210-1213 | the distinct ids come in the order of their first occurrences |
| `RetrievalScore.RepetitionChangesNothing` | crates/sdkwork-intelligence-memory-service/src/job_worker.rs:1210-1213 | repeating a returned id anywhere, or appending any number of them, leaves every score as it was |
| `RetrievalScore.GainAgainstIdeal` | crates/sdkwork-intelligence-memory-service/src/job_worker.rs:1221-1229 | the gain is at most the ideal gain of the relevant ids, with equality exactly when they come first |
| `RetrievalScore.NdcgBounds` | crates/sdkwork-intelligence-memory-service/src/job_worker.rs:1226-1243 | NDCG is between 0 and 1, and is 1 exactly when the first min(expected, top_k) distinct results exist and are all expected |
| `RetrievalScore.FirstRankFound` | crates/sdkwork-intelligence-memory-service/src/job_worker.rs:1214-1246 | the rank is 0 when nothing expected was found, and otherwise the first position holding an expected id |
| `RetrievalScore.CaseRatesBelowHit` | crates/sdkwork-intelligence-memory-service/src/job_worker.rs:1232-1249 | recall, precision, NDCG and reciprocal rank of a case are each between 0 and its hit indicator |
| `RetrievalScore.HitRateIs` | crates/sdkwork-intelligence-memory-service/src/job_worker.rs:977-981 | the hit rate times the number of cases is the number of cases in which some expected id was found |
| `RetrievalScore.MeansBelowHitRate` | crates/sdkwork-intelligence-memory-service/src/job_worker.rs:973-986 | over a whole run each of the four means is between 0 and the hit rate, which is at most 1 |
| `Percentile.RankIsInRange` | crates/sdkwork-intelligence-memory-service/src/job_worker.rs:1258-1259 | the rank is a valid index for every non-empty length, the saturated product included |
| `Percentile.RankSaturates` | crates/sdkwork-intelligence-memory-service/src/job_worker.rs:1258-1259 | beyond the length at which the product saturates, every length has the same rank |
| `Percentile.RankedValueIsP95` | crates/sdkwork-intelligence-memory-service/src/job_worker.rs:1252-1260 | the ranked value of the sorted sample is a 95th percentile: in the sample, covering 95 percent, and no smaller value covers it |
| `Percentile.Percentile95` | crates/sdkwork-intelligence-memory-service/src/job_worker.rs:1252-1260 | 0 for no samples, otherwise a sample value, and below the saturation length the 95th percentile |
| `Percentile.P95IsUnique` | crates/sdkwork-intelligence-memory-service/src/job_worker.rs:1252-1260 | the percentile is unique and does not depend on the order of the cases |
| `ProviderProbe.TenantPageAt` | plugins/sdkwork-memory-plugin-native-sql/src/admin_tables.rs:1004-1027 | the tenant read after any number of finished tenants returns the next ones, and one more than a page exactly when more are left |
| `ProviderProbe.BindingPageAt` | plugins/sdkwork-memory-plugin-native-sql/src/admin_tables.rs:1029-1066 | the same for the bindings of one tenant, with the cursor resolved through the row it names |
| `ProviderProbe.ProbeTenant` | crates/sdkwork-intelligence-memory-service/src/job_worker.rs:1292-1313 | the binding loop of one tenant: all bindings probed in order, or a first part when a read fails |
| `ProviderProbe.ProbeProviderBindings` | crates/sdkwork-intelligence-memory-service/src/job_worker.rs:1279-1320 | the nested loops end; without a failed read all bindings of all tenants have been probed in order, and a failed read leaves a first part probed |
| `ProviderProbe.EveryBindingOnce` | crates/sdkwork-intelligence-memory-service/src/job_worker.rs:1279-1320 | the probed keys are exactly the bindings of all tenants and no key occurs twice |
| `ProviderProbe.SweepSavesEveryProbe` | crates/sdkwork-intelligence-memory-service/src/job_worker.rs:1322-1358 | after a full sweep a binding shows what its probe observed when its save worked, and nothing else changed |
| `ProviderProbe.CollectProviders` | crates/sdkwork-intelligence-memory-service/src/open_api.rs:293-332 | exactly the first min(n, cap) bindings, truncated exactly when n exceeds the cap, and an error exactly when one of them has no numeric id |
| `ProviderProbe.StatusMeans` | crates/sdkwork-intelligence-memory-service/src/open_api.rs:334-367 | the counts add up to the total; healthy exactly when all are, unhealthy exactly when some is, unknown exactly when there are some and all are unknown |
| `ProviderProbe.TallyCounts` | crates/sdkwork-intelligence-memory-service/src/open_api.rs:334-347 | each counter is the number of providers in its own state |
| `ProviderProbe.CountStates` | crates/sdkwork-intelligence-memory-service/src/open_api.rs:334-347 | the counting loop computes that tally |
| `ProviderProbe.RetrieveProviderHealthSummary` | crates/sdkwork-intelligence-memory-service/src/open_api.rs:293-377 | the summary: covered bindings, truncation flag, tally and status together, or the error |
| `BatchUpdate.MergedMetadata` | crates/sdkwork-intelligence-memory-service/src/open_api.rs:941-968 | the key-inserting loop is the shallow merge in which incoming keys win; a patch that is no object is refused |
| `BatchUpdate.MemoryStore.UpdateAtomic` | plugins/sdkwork-memory-plugin-native-sql/src/canonical_data.rs:337-394 | one record written: each given column replaces the stored one and an absent one keeps it, the sensitivity stays, the version rises by one, with one journal entry; or not found |
| `BatchUpdate.MemoryStore.UpdateMemory` | crates/sdkwork-intelligence-memory-service/src/open_api.rs:1707-1762 | the single update: map, visibility, texts, merge, write, in that order; refused without effect for the first reason that applies, or the patch is written, key by key in the metadata, and shown |
| `BatchUpdate.MemoryStore.RetrieveBatch` | plugins/sdkwork-memory-plugin-native-sql/src/canonical_data.rs:527-590 | the pre-read gives each loaded record to the first slot that names it and nothing to later ones |
| `BatchUpdate.MemoryStore.PreparePlans` | crates/sdkwork-intelligence-memory-service/src/open_api.rs:1361-1380 | one plan per slot, all from the pre-read copy |
| `BatchUpdate.MemoryStore.UpdateMemoriesBatch` | crates/sdkwork-intelligence-memory-service/src/open_api.rs:1308-1411 | draining the plans in chunks of any size gives the outcome of applying them slot by slot |
| `BatchUpdate.SingleUpdates` | crates/sdkwork-intelligence-memory-service/src/open_api.rs:1707-1762 | an update is refused without effect for the first reason that applies, each stated; otherwise text and subject are those of the patch where given, every incoming metadata member wins and the other members stay, the sensitivity stays, the version rises by one, no other record changes and the answer shows what is stored |
| `BatchUpdate.UpdateIsDetermined` | crates/sdkwork-intelligence-memory-service/src/open_api.rs:1707-1762 | that description leaves one answer and one database |
| `BatchUpdate.BatchSlotMeans` | crates/sdkwork-intelligence-memory-service/src/open_api.rs:1308-1411 | each slot of a batch answers by its own checks, in their order, and the patch of every first slot that is not refused is in the final record and in the answer, whatever the other slots are |
| `BatchUpdate.BatchTouchesNothingElse` | crates/sdkwork-intelligence-memory-service/src/open_api.rs:1308-1411 | a record that no slot succeeded on is as it was |
| `BatchUpdate.SequentialKeeps` | plugins/sdkwork-memory-plugin-native-sql/src/store.rs:2684-2715 | updates keep the set of records and every record's sensitivity, and change no record before its first slot |
| `BatchUpdate.SlotAgrees` | crates/sdkwork-intelligence-memory-service/src/open_api.rs:1419-1461 | at one slot both paths answer and write the same, except exactly on the slots described by `Differs`, where the answers differ |
| `BatchUpdate.BatchEqualsSequential` | crates/sdkwork-intelligence-memory-service/src/open_api.rs:1308-1461 | the batch equals the single updates in order, results and database, if and only if no slot repeats the id of a present record that the single call would not hide, and no slot has an unmappable record for which the batch finds another error first |
| `BatchUpdate.DistinctIdsAgree` | crates/sdkwork-intelligence-memory-service/src/open_api.rs:1308-1461 | for pairwise distinct storable ids the two are always equal |
| `BatchUpdate.RepeatedIdIsNotFound` | plugins/sdkwork-memory-plugin-native-sql/src/canonical_data.rs:586-590 | a repeated id on a visible record: the single calls write twice, the batch writes once and reports the second slot as not found |
| `BatchUpdate.JournalMatchesResults` | crates/sdkwork-intelligence-memory-service/src/open_api.rs:1384-1410 | the journal grows by exactly the ids of the slots that succeeded, in slot order |
| `QuotaCache.SizeStaysBounded` | crates/sdkwork-intelligence-memory-service/src/tenant_quota.rs:102-130 | lookup and store keep the map within 1024 entries |
| `QuotaCache.QuotaLimitsCache.CachedQuotaLimits` | crates/sdkwork-intelligence-memory-service/src/tenant_quota.rs:102-113 | an entry older than the time to live is dropped and not served; any other is served |
| `QuotaCache.QuotaLimitsCache.CacheQuotaLimits` | crates/sdkwork-intelligence-memory-service/src/tenant_quota.rs:115-130 | a full map is cleared before the entry goes in |
| `QuotaCache.QuotaLimitsCache.ResolveQuotaLimits` | crates/sdkwork-intelligence-memory-service/src/tenant_quota.rs:58-74 | one caller alone: a hit answers from the cache; a miss answers and stores, for each limit, that of the policy where it sets one and that of the environment elsewhere; an error is not cached |
| `QuotaCache.EveryRunHolds` | crates/sdkwork-intelligence-memory-service/src/tenant_quota.rs:58-130 | in every interleaving of callers, clock, environment and policy changes: cache entries, callers under way and answers all have their sources, and the map is within capacity |
| `QuotaCache.AnswersAreFreshCompositions` | crates/sdkwork-intelligence-memory-service/src/tenant_quota.rs:58-130 | every answer has a key that holds the environment its asker saw, and is the uncached composition of the environment at one moment with the policy at a later one, stored at most 60 seconds before it is served |
| `QuotaCache.AnswersApplyThePolicy` | crates/sdkwork-intelligence-memory-service/src/tenant_quota.rs:64-101 | of every answer of every run, each limit is the one the policy set when its source read it, and where it set none the one the environment had at the second read |
| `QuotaCache.AnsweredCallersAreGone` | crates/sdkwork-intelligence-memory-service/src/tenant_quota.rs:58-74 | a caller that is answered asked for the key of its answer, is answered once, and is gone |
| `QuotaCache.ComposeAgrees` | crates/sdkwork-intelligence-memory-service/src/tenant_quota.rs:78-99 | two environments compose to the same limits exactly where the policy decides or they agree |
| `QuotaCache.AnswerFitsItsKey` | crates/sdkwork-intelligence-memory-service/src/tenant_quota.rs:58-100 | an answer is the composition of the environment its asker saw exactly when, for each limit the policy leaves open, the environment was the same at both reads of the caller that resolved it |
| `QuotaCache.EnvironmentRace` | crates/sdkwork-intelligence-memory-service/src/tenant_quota.rs:62-82 | a change between the two reads stores the new composition under the old key, and a later caller is served it |
| `DomainHistogram.CumulativeIsCount` | crates/sdkwork-intelligence-memory-service/src/domain_metrics.rs:47-76 | the buckets up to a bound hold exactly the observations at most that bound, and all buckets hold all of them |
| `DomainHistogram.Histogram.Observe` | crates/sdkwork-intelligence-memory-service/src/domain_metrics.rs:47-56 | an observation is appended to what the counters stand for |
| `DomainHistogram.Histogram.Render` | crates/sdkwork-intelligence-memory-service/src/domain_metrics.rs:58-76 | each `le` value is the number of observations at most its bound, +Inf and count are their number, modulo the counter width |
| `DomainHistogram.ExactBelowWidth` | crates/sdkwork-intelligence-memory-service/src/domain_metrics.rs:58-76 | below 2^64 observations the rendered values are exact, non-decreasing, and end in the count |
| `ExportGuard.ExportSizeGuard.Write` | crates/sdkwork-intelligence-memory-service/src/app_backend_api.rs:2485-2492 | a write is taken whole when it fits and not at all when it does not |
| `ExportGuard.ExportSizeGuard.WriteChunks` | crates/sdkwork-intelligence-memory-service/src/app_backend_api.rs:2485-2492 | a sequence of writes is accepted exactly when its total fits |
| `ExportGuard.WriteLines` | crates/sdkwork-intelligence-memory-service/src/app_backend_api.rs:481-496 | the loop over records or events writes one line per value or stops exactly when the lines do not fit |
| `ExportGuard.EncodeExportPayload` | crates/sdkwork-intelligence-memory-service/src/app_backend_api.rs:456-518 | the guarded single pass returns the full encoding exactly when it fits the limit, however the serializer splits its writes, and otherwise the limit error; an unknown format is refused |
| `JsonText.PrintIsOneLine` | crates/sdkwork-intelligence-memory-service/src/app_backend_api.rs:481-496 | the compact text of a value holds no newline, whatever its strings hold |
| `JsonText.UnescapeOfEscape` | crates/sdkwork-intelligence-memory-service/src/app_backend_api.rs:475-496 | undoing the escapes, as section 7 of RFC 8259 defines them, gives every text back |
| `JsonText.PrintIsInjective` | crates/sdkwork-intelligence-memory-service/src/app_backend_api.rs:475-496 | different values have different compact texts |
| `ExportGuard.FormatNames` | crates/sdkwork-intelligence-memory-service/src/app_backend_api.rs:475-517 | the three format names, and no others |
| `ExportGuard.JsonExportIs` | crates/sdkwork-intelligence-memory-service/src/app_backend_api.rs:476-479 | the JSON export is one object with the records and the events, each under its name |
| `ExportGuard.MarkdownExportIs` | crates/sdkwork-intelligence-memory-service/src/app_backend_api.rs:497-512 | the Markdown export is the heading and one bullet per record, in order, with the string under canonicalText or nothing; events are not in it |
| `ExportGuard.JsonlSplitsIntoValues` | crates/sdkwork-intelligence-memory-service/src/app_backend_api.rs:481-496 | splitting a line-delimited export at newlines gives the text of every record, then of every event, in order |
| `ExportGuard.JsonlDeterminesValues` | crates/sdkwork-intelligence-memory-service/src/app_backend_api.rs:481-496 | a line-delimited export determines the records and events it was made from, in order |
| `ExportGuard.JsonDeterminesPayload` | crates/sdkwork-intelligence-memory-service/src/app_backend_api.rs:475-480 | a JSON export determines its records and its events |
| `Mem0Space.StepKeeps` | crates/sdkwork-intelligence-memory-service/src/mem0_compat.rs:122-184 | lookups answered or not, creations, faults, repeated lookups, deletions and other creations keep: one row per owner and kind, fresh ids, and answers that name the owner's mem0 row |
| `Mem0Space.OneSpaceOneId` | crates/sdkwork-intelligence-memory-service/src/mem0_compat.rs:122-184 | in every interleaving an owner has at most one mem0 row and all its successful callers were given that row's id |
| `Mem0Space.ConflictSurfacesIffDeleted` | crates/sdkwork-intelligence-memory-service/src/mem0_compat.rs:173-182 | a caller that lost the race on the unique index answers with the existing id, and with the conflict exactly when that row has been deleted |
| `Mem0Space.ActiveSpacesCount` | plugins/sdkwork-memory-plugin-native-sql/src/space_data.rs:51-116 | the quota counts the owner's rows of any kind that are not deleted |
| `Mem0Space.EachCallIsAnsweredOnce` | crates/sdkwork-intelligence-memory-service/src/mem0_compat.rs:122-184 | in every run each call begun has been answered once or is still at work |
| `Mem0Space.FailedCallerLooksAgain` | crates/sdkwork-intelligence-memory-service/src/mem0_compat.rs:122-184 | a caller whose creation failed is answered by its second lookup and by nothing else |
| `Mem0Space.CreationOutcomes` | plugins/sdkwork-memory-plugin-native-sql/src/space_data.rs:51-116 | without a fault a creation is refused exactly at a positive limit, conflicts exactly when a row exists under the limit, and is admitted otherwise |
| `Mem0Space.LoserMaySeeQuota` | plugins/sdkwork-memory-plugin-native-sql/src/space_data.rs:60-75 | the loser of a race at the limit is told the quota is exceeded although the space it asked for exists |
| `Mem0Space.RacingCallersAllSucceed` | crates/sdkwork-intelligence-memory-service/src/mem0_compat.rs:122-184 | with every lookup answered, no limit, no deletion and no creation that fails before its commit, no caller in any interleaving fails; a lost answer of a committed creation is harmless |
| `Mem0Space.SpaceStore.Mem0SpaceId` | crates/sdkwork-intelligence-memory-service/src/mem0_compat.rs:122-184 | the call itself with any changes in between: a returned id is that of the owner's row, a conflict means a deleted row, and other errors need a limit or a failed store call |
| `Mem0Entity.PreImageIsInjective` | crates/sdkwork-intelligence-memory-service/src/mem0_compat.rs:387-393 | for slash-free kinds different (space, kind, reference) have different hashed texts |
| `Mem0Entity.SlashInKindCollides` | crates/sdkwork-intelligence-memory-service/src/mem0_compat.rs:387-393 | a slash in the kind lets two scopes share their text |
| `Mem0Entity.EveryRunKeeps` | crates/sdkwork-intelligence-memory-service/src/mem0_compat.rs:220-286 | in every interleaving, renames and deletions included, uuids and keys are unique, every success has a row with its uuid, and the row that refused an insert is there and, if it refused it by name, holds the name or was renamed since |
| `Mem0Entity.ConflictSurfacesExactly` | crates/sdkwork-intelligence-memory-service/src/mem0_compat.rs:265-286 | after a refused insert the caller fails exactly when no live row has its uuid, and exactly when one of three causes is there: its own row was deleted, or it has none and the row that held its name still holds it or was renamed since; after a refusal by the uuid index only the first is possible |
| `Mem0Entity.RenamedHolderStillConflicts` | crates/sdkwork-intelligence-memory-service/src/mem0_compat.rs:265-286 | the row that refused a name is renamed before the re-read: the caller fails although its name and its uuid are free |
| `Mem0Entity.RenamedScopeIsNotMissed` | crates/sdkwork-intelligence-memory-service/src/mem0_compat.rs:231-243 | the lookup goes by uuid, so a scope whose row was renamed is answered as registered although no row has its name |
| `Mem0Entity.EachCallIsAnsweredOnce` | crates/sdkwork-intelligence-memory-service/src/mem0_compat.rs:220-286 | in every run each registration begun has been answered once or is still at work |
| `Mem0Entity.RegistrationIsIdempotent` | crates/sdkwork-intelligence-memory-service/src/mem0_compat.rs:220-286 | when only registrations write, lost answers included, none fails, every registered scope has its own row and none has two |
| `ForgetProtocol.KeysAreDistinct` | crates/sdkwork-intelligence-memory-service/src/app_backend_api.rs:285-321 | job keys and start keys are injective in the job id and never coincide |
| `ForgetSafety.StepKeeps` | crates/sdkwork-intelligence-memory-service/src/app_backend_api.rs:840-1031 | every protocol step, crash, lost answer and foreign write keeps the audit, deletion and sweep invariants |
| `ForgetSafety.EveryRunKeeps` | crates/sdkwork-intelligence-memory-service/src/app_backend_api.rs:840-1031 | those invariants hold after every sequence of steps |
| `ForgetSafety.DeletionsFollowTheirStart` | crates/sdkwork-intelligence-memory-service/src/app_backend_api.rs:850-876 | every deletion has its request's start row before it in the log, and only well-formed requests delete (what they delete is `OnlyAskedForIsDeleted`) |
| `ForgetScope.OnlyAskedForIsDeleted` | plugins/sdkwork-memory-plugin-native-sql/src/privacy.rs:87-311 | in every run a record disappears only by a deletion of an accepted request, alone, and is what the request asked for: of a space request a record of the space; of a user request one of the actor, and of the space if given; of a query request one of the space whose text is like the query; of a memory request a named one of the space that was live when it was looked up |
| `ForgetScope.DeletionsAreLetThrough` | crates/sdkwork-intelligence-memory-service/src/app_backend_api.rs:878-992 | in every run each deletion is of a request that has an actor and a storable space id, and that was let through at an earlier step: by its access decision, or as a user request |
| `ForgetScope.RefusalEnds` | crates/sdkwork-intelligence-memory-service/src/app_backend_api.rs:889-894 | a refused access decision ends the request: its start row stays, and it deletes nothing |
| `ForgetScope.WellShapedExactly` | crates/sdkwork-intelligence-memory-service/src/app_backend_api.rs:522-569 | which requests the shape check lets through, and which error every other one gets |
| `ForgetScope.PagesGoUp` | plugins/sdkwork-memory-plugin-native-sql/src/privacy.rs:87-311 | a page of a sweep is its first 200 ids, ascending and above the cursor, which moves to the last of them, so no sweep comes to an id twice; the space sweep knows its last page by the missing 201st row |
| `ForgetSafety.MalformedLeavesNothing` | crates/sdkwork-intelligence-memory-service/src/app_backend_api.rs:522-569 | a malformed request never has an audit row or a deletion, whatever happens later |
| `ForgetSafety.OneTerminalRow` | crates/sdkwork-intelligence-memory-service/src/app_backend_api.rs:997-1020 | a job has at most one terminal row, its start row comes first, and the reported count is the number of records the job deleted |
| `ForgetSafety.ReadsNeverSeeProgress` | plugins/sdkwork-memory-plugin-native-sql/src/store.rs:3093-3122 | an id-keyed read finds exactly the terminal row of its job, and no progress row has the uuid of any job |
| `ForgetSafety.CompletedRequestIsComplete` | crates/sdkwork-intelligence-memory-service/src/app_backend_api.rs:878-1020 | after its terminal row a request has left none of the records stored when its deletions began that it was to delete: of a space, user or query request every matching one, soft-deleted ones included; of a memory request every named one of its space that stayed live |
| `ForgetSafety.NothingVanishesUncounted` | plugins/sdkwork-memory-plugin-native-sql/src/store.rs:2129-2180 | every record ever stored is still stored or was deleted by exactly one request: the drop is the sum of the counts |
| `ForgetProgress.RefusableLeavesNoTerminalRow` | crates/sdkwork-intelligence-memory-service/src/app_backend_api.rs:878-992 | in every run a job whose accepted request is refusable (it has no actor, or a space id beyond the storage range) has deleted nothing, has no terminal row and reads as absent |
| `ForgetProgress.CanComplete` | crates/sdkwork-intelligence-memory-service/src/app_backend_api.rs:878-1020 | from its start row every such request, of each scope and over any table, has a continuation that deletes page by page or id by id and writes the terminal row |
| `ForgetProgress.StrandedExactly` | crates/sdkwork-intelligence-memory-service/src/app_backend_api.rs:878-1020 | a request whose start row is written can still get its terminal row, in some continuation, if and only if it is not refusable and no other writer has a row under its job's uuid |
| `ForgetProgress.RequestWithoutActorIsStranded` | crates/sdkwork-intelligence-memory-service/src/access.rs:299-303 | every well-shaped request, of any scope, passes the shape check without an actor as well, writes its start row, and in no continuation deletes anything or gets a terminal row |
| `ForgetMemories.RecordStore.ForgetMemories` | crates/sdkwork-intelligence-memory-service/src/app_backend_api.rs:879-926 | the deletion loop removes exactly the live records the request names in its space, and counts the drop in stored records whatever ids repeat |
| `ExtractionBudget.ScanEvents` | crates/sdkwork-intelligence-memory-service/src/open_api.rs:1078-1123 | the scan keeps the present events of a well-formed prefix that fits the budget and whose next event does not, counts the missing and the rest, or stops at the first malformed event it reaches |
| `ExtractionBudget.CutIsMaximal` | crates/sdkwork-intelligence-memory-service/src/open_api.rs:1082-1123 | kept, missing and skipped events are all events, and no longer prefix fits |
| `ExtractionBudget.KeptBytes` | crates/sdkwork-intelligence-memory-service/src/open_api.rs:1112-1119 | the budget counter is the total size of the kept texts |
| `ExtractionBudget.ScanIsDetermined` | crates/sdkwork-intelligence-memory-service/src/open_api.rs:1086-1123 | there is one place at which the scan can end and it either cuts or stops there, never both |
| `ExtractionBudget.DateLooks` | crates/sdkwork-intelligence-memory-service/src/open_api.rs:1130-1144 | the check on bytes is one on characters: four digits, a dash, two digits, a dash, two digits, after trimming |
| `ExtractionBudget.PlanIsExact` | crates/sdkwork-intelligence-memory-service/src/open_api.rs:1065-1145 | a request succeeds, the store permitting, exactly when it has events, not too many, its scan comes to a cut and its date is well formed; it then keeps the events of that cut |
| `ExtractionBudget.CandidateStore.DeletePending` | plugins/sdkwork-memory-plugin-native-sql/src/store.rs:4235-4253 | exactly the pending candidates of the job are removed |
| `ExtractionBudget.CandidateStore.CreateAll` | crates/sdkwork-intelligence-memory-service/src/open_api.rs:1251-1267 | one pending candidate per kept event in order under the next ids, or the first ones when the store fails, and whether all were created |
| `ExtractionBudget.CandidateStore.ExecuteExtraction` | crates/sdkwork-intelligence-memory-service/src/open_api.rs:1039-1285 | one attempt: its answer in every case, and the table and next id it leaves, as a function of the request, the events, the limits and the point where the store fails |
| `ExtractionBudget.CleanupKeeps` | plugins/sdkwork-memory-plugin-native-sql/src/store.rs:4228-4253 | reviewed candidates and those of runs without a job survive every cleanup |
| `ExtractionBudget.RetryLeavesOnePerEvent` | crates/sdkwork-intelligence-memory-service/src/open_api.rs:1050-1064 | after any requests of any jobs, whatever became of each, and reviews, a request that succeeds leaves as its job's pending candidates exactly one per event of its cut, in order, and changes no other job's |
| `ExtractionBudget.PendingAreOfTheLastAttempt` | crates/sdkwork-intelligence-memory-service/src/open_api.rs:1050-1064 | however many attempts were refused, cut short or completed, the pending candidates of a job are those its last attempt created, less the ones reviewed since |
| `ExtractionBudget.InlineRunsAccumulate` | crates/sdkwork-intelligence-memory-service/src/open_api.rs:1027-1037 | a run without a job only adds candidates, so repeating it repeats them |
| `ExtractionBudget.ReviewedForever` | plugins/sdkwork-memory-plugin-native-sql/src/store.rs:4228-4253 | a reviewed candidate is in every later state of the table |
| `SerdeInt64.PrintedDenotesItself` | crates/sdkwork-memory-contract/src/serde_int64.rs:4-9 | the printed text is a non-empty digit string whose value is the number |
| `SerdeInt64.ParseAcceptsExactly` | crates/sdkwork-memory-contract/src/serde_int64.rs:119-126 | string parsing accepts exactly the non-empty digit strings below 2^64, after at most one plus, and returns their value |
| `SerdeInt64.ReadAcceptsExactly` | crates/sdkwork-memory-contract/src/serde_int64.rs:92-131 | for every input, what is read and which error it is otherwise: negative numbers, strings that denote no 64-bit number, and values of any other kind are refused |
| `SerdeInt64.ReadOfWrite` | crates/sdkwork-memory-contract/src/serde_int64.rs:95-135 | every 64-bit value comes back from its text, with leading zeros and a plus, and from the JSON number |
| `SerdeInt64.ReadIsCanonical` | crates/sdkwork-memory-contract/src/serde_int64.rs:95-135 | whatever is read is a 64-bit value, and two inputs read as the same value exactly when they are written the same |
| `SerdeInt64.SerializeSeq` | crates/sdkwork-memory-contract/src/serde_int64.rs:11-21 | the list writer writes one text per element in order |
| `SerdeInt64.VisitSeq` | crates/sdkwork-memory-contract/src/serde_int64.rs:137-154 | the list reader yields all elements exactly when each is readable, and otherwise the first error |
| `SerdeInt64.ListRoundTrip` | crates/sdkwork-memory-contract/src/serde_int64.rs:11-37 | reading a written list of 64-bit values has that list as its only outcome |

## Left out

- Administration, commercial readiness, HTTP routing, authentication, tracing, environment parsing, outbound webhooks and endpoint validation: I/O or one-branch facts; a delivery, a probe and an access decision are parameters.
- The retrieval pipeline, fusion and ranking, the LLM extraction path and its parser, and candidate promotion: their logic is in components that are not part of this model.
- The retention worker, which removes terminal job, outbox and audit rows after their window: the theorems are about rows and audit entries while they exist.
- HMAC and SHA-256: function parameters. Only `Mem0Entity.RegistrationIsIdempotent` assumes that the hash has no collisions, and nothing is said about forging a token.
- Timestamps are natural numbers (seconds in the lease plane, milliseconds in the quota cache); a statement's own timestamp may be any earlier moment than the one it takes effect at. Clock skew between hosts is not modelled.
- Lease plane: the eval state 'accepted' is the queued state; priorities and the order in which a batch selects rows are free; `max_attempts` is fixed over a run; metrics and log lines are left out.
- Lease tokens are fresh: a counter that never repeats stands for `platform::next_numeric_id`.
- LeaseWorker.LeaseTable.RequeueStale: no other writer acts between the statements of the loop; with other writers every sweep statement is a step of the run theorems, but the loop's end and its counts are not stated.
- Lease recovery assumes that the sweep statement runs: its text has 500 placeholders and only the enumerated ids are bound (lines 258 and 275 of `plugins/sdkwork-memory-plugin-native-sql/src/learning_jobs.rs`, lines 4138 and 4154 of `store.rs` beside it), which PostgreSQL refuses for a shorter batch.
- Text order in the usage table is by code point; a database collation may order keys differently.
- UsagePaging.FollowVisitsEveryRowOnce: is over a fixed table whose days have no separator, as the code says of its days; rows inserted behind a cursor are not followed.
- RetrievalScore: exact reals and any positive, strictly decreasing discount instead of floating point and 1/log2(rank + 1); an empty expected set and a `topK` of 0 are refused before scoring.
- Percentile: the library's unstable sort is an insertion sort on values; only its being sorted and a permutation is used.
- Percentile.RankedValueIsP95: lengths below the point where length * 95 saturates; above it only the rank is stated.
- ProviderProbe: the two tables do not change during a sweep, and uuids are not empty; the bounded concurrency inside a page is modelled in row order.
- BatchUpdate: authorization and scope errors, which fail every slot alike, journal payloads, generated ids and timestamps, and concurrent writers between the pre-read and the updates.
- QuotaCache: the two environment variables are read in one moment.
- DomainHistogram: one observer at a time; the relaxed atomics of concurrent observers are not modelled.
- ExportGuard: numbers are their serialized text, not empty and of number characters only; collecting the records, its own byte cap and the upload are left out.
- Mem0Space: a deletion of a space stands for a change made outside the service; ids come from a counter that never repeats; the record count and the audit history of the mem0 surface are left out.
- ForgetSafety.CompletedRequestIsComplete: texts, owners and spaces of stored records do not change while a request runs, and a soft-deleted record is not restored.
- ForgetProtocol: the access decision is free only for a request that has an actor; the access check refuses every other one (`access.rs:299` under a context that `open_api.rs:546` never elevates), and so does the user scope.
- ForgetProtocol: record ids are positive, as generated ids are: the user and query sweeps start at `id > 0` (lines 163 and 266 of `plugins/sdkwork-memory-plugin-native-sql/src/privacy.rs`), the model's before every id. Job ids come from a counter that never repeats.
- ForgetProtocol: purged events, rejected candidates and the search index of a deletion; the ordering key of every sweep is the record id, while the space sweep orders by uuid.
- ExtractionBudget: the write-access check before an attempt and the store's own read errors are left out; attempts of one job do not overlap; creating a candidate fails before its effect.
- SerdeInt64: the optional forms add only a null case; a JSON number beyond 64 bits arrives as a float and is refused.
