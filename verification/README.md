# Job monitoring: verified model

This project models the stateful core of a job-monitoring system for compute clusters - a Go backend
with a PostgreSQL job store and an InfluxDB metric database, and a TypeScript frontend - and proves
what its protocols, caches and algorithms keep. `dafny verify dfyconfig.toml` checks everything.

Three concurrent protocols are state machines whose actions are the statements other goroutines can
observe, so their theorems quantify over every interleaving; the rest are classes and methods that
update their fields in place, proved against specification functions.

| file | component |
|---|---|
| `LiveMonitoring.dfy` | the producer, reader and forwarder goroutines of one live-monitoring websocket |
| `Jobs.dfy`, `JobTable.dfy`, `JobStore.dfy` | job records; stops, refreshes and overtime sweeps, interleaved and one at a time |
| `LruCache.dfy` | the recency list of the job cache and the inclusion property across cache sizes |
| `TagAgreement.dfy` | cached and stored tags of a job under concurrent tag and view handlers |
| `SampleIntervals.dfy` | the choice of a sample interval for a job view |
| `Decimal.dfy`, `Selections.dfy`, `JobFilter.dfy` | job search: printing the parameters, parsing them, composing and meaning of the query |
| `QueryStream.dfy` | splitting the row stream of a metric query into tables |
| `Configuration.dfy`, `Slices.dfy`, `ConfigUpdate.dfy` | configured metrics, the in-place slice delete, and metric references across configuration updates |
| `WebLogger.dfy` | the 25-slot log ring with replay for new connections |
| `AggregationTasks.dfy` | reconciling database tasks with the configured metrics |
| `SessionTokens.dfy` | issue, validation and revocation of login tokens |
| `Units.dfy` | parsing and printing values with units |
| `ThreadFold.dfy` | folding hyperthreads onto physical threads in the job view |

## Where the code does less than it seems to

Each of these is a lemma with the exact condition or a concrete run.

- A metadata refresh that overlaps a stop writes the old record back and the stop is lost
  (`RefreshCanLoseAStop`); its write is harmless exactly when the record still has the stop time and
  exit code it read (`RefreshWriteIsAtomicIff`). Stops themselves are atomic (`StopWriteIsAtomic`).
- The overtime sweep can replace the stop a job has just reported (`SweepCanOverruleAStop`,
  `OwnStopSurvivesIff`), and never closes a job in a partition whose `MaxTime` is not positive
  (`SweepClosesExactlyTheOverdue`).
- Reader and forwarder of a live-monitoring session can write to the websocket at the same time: whenever
  a load request is being answered (`CanOverlapIff`, `SessionCanOverlapIff`).
- A live-monitoring session never ends when a socket write does not return after the client is gone: the
  reader closes the socket only once the producer has taken its signal (`StuckWriteIff`).
- Cached tags stay outdated when a view handler inserts tags it has read before a change, or when
  `UpdateJob` fails to read the store, until the next tag change or eviction (`StaleInsertStays`,
  `FailedReadStays`). These are the only ways (`QuiescentTagsAgreeIff`).
- The comment on `CalculateSampleIntervals` promises the closest amount of samples. A view still shows more
  than twice the intended 200 points for some jobs when the metric interval is 6 seconds or less, and for
  very long jobs; `TwiceTheTargetIff` says which.
- Searches by user id or group id are ignored, because the parser keeps the number only when parsing it
  failed (`NumericIdsHaveNoEffect`). A tag given twice makes a search select nothing (`TagCountMeaning`).
  `SearchIsExactIff` says which searches are exact.
- Rows of a metric query are overwritten when their key comes back after another one (`TableIsGroupIff`).
- Configuration updates do not clean virtual partitions, so what is posted for them must name posted metrics
  only (`VirtualReferencesIff`, `VirtualPartitionsKeepDeleted`), and a list keeps a deleted metric it names
  more often than the old configuration did (`CleanedListIff`).
- Reconcile passes that look for a task before any of them creates it create duplicates, unless a creation
  is refused (`DuplicatesIffBothCreate`), and no pass repairs them (`PassMeaning`).
- Logging in again does not revoke an earlier token made with the same claims (`LoginRevokesIff`).
- A value can be printed with the mantissa 1000.00 (`MantissaRoundsUpIff`).
- With an odd number of threads nothing is folded and the upper half is not shown (`OddFold`, `ConservesIff`).

## Model

| member | source | states |
|---|---|---|
| LiveMonitoring.StepKeepsInv | backend/db/influxdb.go:242-258 | every action of ticker, producer, reader and forwarder keeps the joint invariant on program counters, channel closes and batches in flight |
| LiveMonitoring.RunKeepsInv | backend/router/router.go:855-905 | so does every run of any length |
| LiveMonitoring.EveryRunIsSafe | backend/db/influxdb.go:232-261 | in every interleaving nobody sends on a closed channel, each channel is closed at most once, `monitor` after `done` after the ticker was stopped, the batches handed to the socket writer are a prefix of those produced with at most two in flight, and at the end they are equal |
| LiveMonitoring.RunAccounts | backend/db/influxdb.go:242-258 | between any two states, queries, batches, ticks, load requests, answers and writes balance by kind |
| LiveMonitoring.EverythingHasItsCause | backend/router/router.go:855-905 | a session runs at most one query per tick, each failing or producing one batch, and serves each load request once |
| LiveMonitoring.StuckOnlyWhenDoneOrIdle | backend/router/router.go:852-905 | a reachable state allows no internal action if and only if all three goroutines have returned or all wait for ticker and client; there is no deadlock, and once all have returned nothing can happen any more |
| LiveMonitoring.StepRank | backend/db/influxdb.go:244-258 | once the client is gone every internal action but taking a tick lowers the rank by one or more, and a tick raises it by at most 4 |
| LiveMonitoring.ShutdownIsBounded | backend/db/influxdb.go:243-258 | after the client left the goroutines perform at most rank + 5 actions per tick still preferred by `select` |
| LiveMonitoring.FinishIsEnabled | backend/router/router.go:858-862 | until all have returned there is an enabled internal action that is not a tick |
| LiveMonitoring.ShutdownCanFinish | backend/router/router.go:855-905 | from every such state a run of at most rank actions, none external, ends with all three goroutines returned |
| LiveMonitoring.SessionEnds | backend/db/influxdb.go:250-254 | whole sessions: all have returned exactly when the rank is used up, which takes at most 13 + 5 actions per tick, and then nothing produced is lost |
| LiveMonitoring.StuckWriteIff | backend/router/router.go:858-862 | if socket writes need not return: once the client is gone nothing but the forwarder's write can go on exactly when the others have returned, or the producer waits with a batch and the reader for the producer |
| LiveMonitoring.WritersCanOverlap | backend/router/router.go:884-887 | from every state in which the reader writes a response there is a run, without any step of reader or client, to one in which the forwarder writes too |
| LiveMonitoring.CanOverlapIff | backend/router/router.go:884-900 | two writers can meet before the reader's next step if and only if the reader is writing a response |
| LiveMonitoring.SessionCanOverlapIff | backend/router/router.go:855-905 | a session comes to such a point if and only if it answered a load request |
| LiveMonitoring.OverlapAheadIff | backend/router/router.go:855-905 | two writers can still meet in the future of a state if and only if the client is not gone |
| LiveMonitoring.OneWriterWithoutLoads | backend/router/router.go:891-905 | without an answered load request the reader never writes, so the forwarder is the only writer |
| JobTable.StepGrows | backend/store/postgres_store.go:493-507 | no action removes a record, changes what was inserted or makes a stopped job run again |
| JobTable.StepKeepsInv | backend/store/postgres_store.go:312-343 | each read, compute and write half of a stop, refresh or sweep keeps every record and every pending copy sound |
| JobTable.RunKeepsInv | backend/router/router.go:1033-1053 | so does every interleaving of any number of them |
| JobTable.RecordsStaySound | backend/db/influxdb.go:155-164 | after any interleaving every record is as inserted or stops strictly after its start, with metrics of exactly that window, stop time and exit code of one single request and the inserted identity fields |
| JobTable.StopsAtMostOnce | backend/store/postgres_store.go:327-338 | along every run the running flag of a job changes at most once, never from stopped to running, and no record disappears |
| JobTable.StopWriteIsAtomic | backend/store/postgres_store.go:322-338 | however many updates ran since a stop read the record, its write equals one undivided stop of the current record |
| JobTable.RefreshWriteIsAtomicIff | backend/router/router.go:1034-1049 | the write of a refresh equals an undivided refresh if and only if the record still has the stop time and exit code the refresh read |
| JobTable.WithoutRefreshStepsAreAtomic | backend/store/postgres_store.go:312-343 | without refreshes every action is one undivided insert, one undivided stop that was requested, or nothing |
| JobTable.StepIsItsEffect | backend/store/postgres_store.go:493-507 | every action changes the table by the undivided insert or stop, or the written-back copy of a refresh, that it stands for |
| JobTable.RunIsItsWrites | backend/store/postgres_store.go:312-343 | the table after any run is the first one after these changes in the order of their writes; every stop among them was requested and ends after the job's start |
| JobTable.LastWriteWins | backend/store/postgres_store.go:493-507 | stop time and exit code of a record are those of the last change of it |
| JobTable.WritesItsRequest | backend/store/postgres_store.go:327-338 | a pending stop changes only its own record, and to what was requested |
| JobTable.StopOverrulesIff | backend/store/postgres_store.go:327-338 | the write of a stop replaces the stop time or exit code of the current record if and only if these differ from the request |
| JobTable.StopSurvivesIff | backend/store/postgres_store.go:312-343 | in every run in which one other change of any kind hits the record, a pending stop survives if and only if it is written later or the other left the same stop data |
| JobTable.OwnStopSurvivesIff | backend/store/postgres_store.go:563-591 | a job's own stop survives a sweep that has picked the job if and only if it is written after the sweep's stop or equals it |
| JobTable.StopAlone | backend/store/postgres_store.go:312-343 | an uninterrupted stop is a run with exactly the effect of the undivided stop |
| JobTable.RefreshUpToWrite | backend/router/router.go:1034-1048 | an uninterrupted refresh up to its write holds the undivided refresh of the record |
| JobTable.RefreshCanLoseAStop | backend/router/router.go:1034-1049 | for all values, a run in which the pending write of a refresh brings back the record from before a completed stop; something is lost exactly when that stop differs from the earlier one |
| JobTable.SweepCanOverruleAStop | backend/store/postgres_store.go:563-591 | for all values, a run in which the sweep's stop follows the one a job reported itself; the record changes exactly when the two differ |
| JobStore.PostgresStore.PutJob | backend/store/postgres_store.go:138-151 | inserts a new id and changes nothing for a known one, which is an error |
| JobStore.PostgresStore.GetJob | backend/store/postgres_store.go:322-325 | succeeds exactly for ids in the table, with the record stored under that id |
| JobStore.PostgresStore.UpdateJob | backend/store/postgres_store.go:493-507 | replaces the record with the same id and no other; unknown ids change nothing |
| JobStore.PostgresStore.StopJob | backend/store/postgres_store.go:312-343 | succeeds exactly when the job exists, the stop lies after its start and the metrics are available; then only that record changes, to the requested stop data and the metrics of exactly that window |
| JobStore.PostgresStore.RefreshMetadata | backend/router/router.go:1033-1053 | succeeds exactly for a stopped job with a stop after its start and available metrics, and then replaces only the metrics, by those of the stored window |
| JobStore.PostgresStore.FinishJob | backend/store/postgres_store.go:579-585 | stops the overdue job at start plus `MaxTime` with exit code 1 |
| JobStore.PostgresStore.FinishPartition | backend/store/postgres_store.go:567-587 | sweeps exactly the overdue running jobs of the partition, in whatever order |
| JobStore.PostgresStore.FinishOvertimeJobs | backend/store/postgres_store.go:563-591 | every record becomes its swept form, for every order of partitions |
| JobStore.SweepClosesExactlyTheOverdue | backend/store/postgres_store.go:563-591 | a sweep changes a record if and only if it runs in a configured partition, has run for longer than its positive `MaxTime` and its metrics are available; it then stops at start plus `MaxTime` with exit code 1, before the clock, and nothing else changes |
| JobStore.OneSweepSuffices | backend/store/postgres_store.go:567-587 | when metrics are available no overdue running job is left in a partition with positive `MaxTime`, and sweeping again changes nothing |
| JobStore.StopOutcomeIsAtomicStop | backend/store/postgres_store.go:327-338 | the store's stop and the undivided stop of the concurrent model agree, and fail exactly for an empty window or missing metrics |
| Recency.MostRecentFirstOrder | backend/lru_cache/lru_cache.go:84-93 | the reference order: every used id once, a later last use first |
| LruCache.LRUCache.constructor | backend/lru_cache/lru_cache.go:30-35 | an empty list of the configured size |
| LruCache.LRUCache.Find | backend/lru_cache/lru_cache.go:84-93 | finds an id exactly if it is cached and moves its item to the front, all others keeping their order |
| LruCache.LRUCache.Put | backend/lru_cache/lru_cache.go:76-82 | pushes the item to the front, dropping the last one exactly when the list is full |
| LruCache.LRUCache.Get | backend/lru_cache/lru_cache.go:38-55 | asks the database exactly on a miss, caches the answer exactly when it is no error, and returns the cached data on a hit |
| LruCache.LRUCache.UpdateJob | backend/lru_cache/lru_cache.go:58-74 | replaces the metadata of a cached job, keeps its series and every other item, and never changes the set of ids |
| LruCache.CacheIsMostRecent | backend/lru_cache/lru_cache.go:38-93 | after every sequence of calls the cache holds exactly the most recently used ids, at most its size, in order of last use |
| LruCache.LargerCacheIncludesSmaller | backend/lru_cache/lru_cache.go:38-93 | for the same calls and answers the ids of a smaller cache are always a subsequence of those of a larger one |
| LruCache.LargerCacheHitsMore | backend/lru_cache/lru_cache.go:42-54 | raising the size never turns a hit into a miss and never lowers the number of hits |
| TagAgreement.StepKeepsInvIff | backend/router/router.go:783-824 | every action of tag handlers, view handlers and eviction keeps the agreement invariant if and only if it neither inserts outdated tags nor is a failed read that leaves a change out of the cache, with nobody about to repair it |
| TagAgreement.BrokenStep | backend/lru_cache/lru_cache.go:58-74 | outdated tags stay until the next tag change or eviction, and then the invariant holds again |
| TagAgreement.RunKeepsInvIff | backend/router/router.go:783-824 | a run ends with the invariant if and only if no update was lost without a later tag change or eviction |
| TagAgreement.QuiescentTagsAgreeIff | backend/lru_cache/lru_cache.go:58-74 | in every run, once all handlers have finished, cached tags equal stored tags if and only if no update was lost without a later tag change or eviction |
| TagAgreement.CachedThroughoutAgrees | backend/store/postgres_store.go:510-560 | a job cached throughout ends with equal tags, for any number of handlers, unless a store read of `UpdateJob` fails |
| TagAgreement.LastWriteDecides | backend/store/postgres_store.go:510-560 | in every run a tag is stored in the end if and only if the last store write that names it adds it, or none names it and it was there before |
| TagAgreement.CachedTagsAreLastWritten | backend/router/router.go:783-824 | the same for the cached tags of a job cached throughout, once all handlers have finished |
| TagAgreement.ViewWithoutChangeIsNotStale | backend/lru_cache/lru_cache.go:38-55 | a view handler inserts outdated tags only if the store was written after it had read it |
| TagAgreement.StaleInsertStays | backend/lru_cache/lru_cache.go:38-55 | a run in which a view handler's earlier read leaves the cache without a stored tag |
| TagAgreement.FailedReadStays | backend/lru_cache/lru_cache.go:66-69 | a run in which a failed store read leaves a cached job without a stored tag |
| SampleIntervals.BestAvailable | backend/job/job.go:163-168 | of the metric interval and the defaults the nearest to the target, the earlier one among equally near |
| SampleIntervals.CalculateSampleIntervals | backend/job/job.go:153-176 | returns the first candidate among metric interval, 30, 60, 120, 300, 600 and 1800 s that is nearest to the least multiple of the metric interval needing at most 200 points, and as selectable intervals exactly the defaults between metric interval and choice, increasing |
| SampleIntervals.Selectable | backend/job/job.go:169-174 | exactly the defaults between metric interval and choice, increasing |
| SampleIntervals.NearestMeaning | backend/job/job.go:159-168 | the search ends at that first nearest candidate |
| SampleIntervals.ChosenIsUnique | backend/job/job.go:163-168 | metric interval and job length determine the choice |
| SampleIntervals.TargetBounds | backend/job/job.go:159-162 | the target is the least multiple of the metric interval that needs no more than 200 points |
| SampleIntervals.FinerThanMetricIff | backend/job/job.go:163-168 | the choice is finer than the metric interval exactly for jobs without length and metric intervals above 30 s |
| SampleIntervals.LongerJobsAreCoarser | backend/job/job.go:159-168 | a longer job never gets a finer interval |
| SampleIntervals.TwiceTheTargetIff | backend/job/job.go:153-176 | for every metric interval and length, exactly when a view shows at most 400 points; from 7 s on for every job of up to 200 hours |
| SampleIntervals.LongestAtMetricIntervalIff | backend/job/job.go:162-168 | the lengths up to which the metric's own interval is at least as near to the target as 30 s |
| SampleIntervals.WithinFactorTwo | backend/job/job.go:163-168 | between 7 s and 1800 s the choice is at least half the target or the largest default |
| SampleIntervals.FineMetricsExceedTheBound | backend/job/job.go:159-168 | for metric intervals up to 6 s a job of 600 intervals shows three times the target |
| Decimal.ParsePrinted | backend/router/router.go:1187-1192 | the digit loop reads back a printed number in front of any text, or reports overflow above 64 bits |
| Decimal.AtoiOfPrinted | frontend/utils/utils.ts:113-115 | a printed integer is read back exactly when it fits into 64 bits; otherwise the error carries the nearest bound |
| Decimal.PrintedWorth | frontend/utils/utils.ts:113-115 | the digits of a printed number, each times its power of ten, add up to it, without leading zero |
| Decimal.ParseUintIff | backend/router/router.go:1187-1192 | the digit loop succeeds exactly for digits whose worth fits, with that worth |
| Decimal.AtoiIff | backend/router/router.go:1195-1200 | a text is read as a number if and only if it is an optional sign and digits of that worth within 64 bits |
| Decimal.SplitOfJoined | frontend/utils/utils.ts:110-111 | splitting a joined list of comma-free texts gives the list |
| Decimal.JoinOfSplit | backend/router/router.go:1182-1182 | joining the parts of any text gives it back, and the parts are comma-free |
| SearchParams.Serialise | frontend/utils/utils.ts:107-118 | looking up any key in the built query gives the text of that parameter, empty for an absent one |
| FilterParser.ParseId | backend/router/router.go:1195-1200 | keeps a number only when the conversion fails, with the value the failed conversion returns |
| FilterParser.ParseRangeFilter | backend/router/router.go:1181-1194 | a filter exactly for texts with one comma, each end the number on its side or open when that is none |
| FilterParser.ParseTagIds | backend/router/router.go:1240-1247 | exactly the comma-separated entries that are numbers, one for each position, in order |
| FilterParser.ParseText | backend/router/router.go:1201-1203 | any text but the empty one is the filter value |
| FilterParser.ParseIsRunning | backend/router/router.go:1213-1222 | only the texts true and false set the flag |
| FilterParser.ParseGetJobParams | backend/router/router.go:1180-1251 | the filter is determined by the first value of every key |
| FilterParser.RangeRoundTripIff | backend/router/router.go:1181-1194 | a range with optional ends survives print and parse if and only if its ends fit into 64 bits |
| FilterParser.TagsRoundTrip | backend/router/router.go:1239-1249 | every list of tag ids survives; the empty one becomes no filter |
| FilterQuery.AppendedValue | backend/store/postgres_store.go:603-608 | an optional value filter adds exactly the equality to what the query asks |
| FilterQuery.AppendedRange | backend/store/postgres_store.go:611-621 | an optional range adds exactly its present ends |
| FilterQuery.GetFilteredJobs | backend/store/postgres_store.go:190-218 | the result picks, at increasing positions, exactly those rows of the table that match all parts of the filter |
| FilterQuery.ValuesSelect | backend/store/postgres_store.go:200-205 | the six optional equalities together |
| FilterQuery.RangesSelect | backend/store/postgres_store.go:206-209 | the four optional ranges together, GPUs as nodes times GPUs per node |
| FilterQuery.DistinctCount | backend/store/postgres_store.go:634-636 | a list has as many distinct elements as positions if and only if none is repeated |
| FilterQuery.TagCountMeaning | backend/store/postgres_store.go:624-641 | join, group and distinct count select a job if and only if the list is not empty, repeats nothing and the job has every tag |
| FilterPipeline.FilterArrives | backend/router/router.go:1180-1251 | every parameter reaches the filter as meant, except the two numeric ids, which vanish |
| FilterPipeline.SearchSelectsExactly | backend/store/postgres_store.go:190-218 | for all parameters a job passes serialised, parsed and composed search exactly when it meets every parameter but the numeric ids and no tag was given twice |
| FilterPipeline.OnlyConsistentSearchesAreMet | backend/store/postgres_store.go:190-218 | a job can meet a search only if its ranges do not contradict themselves or each other |
| FilterPipeline.SearchIsExactIff | backend/router/router.go:1180-1251 | the search returns what was asked for, whatever the tables hold, if and only if it names no numeric id and no tag twice, or its ranges contradict themselves |
| FilterPipeline.NumericIdsHaveNoEffect | backend/router/router.go:1195-1209 | a search by user or group id returns the same rows as one without |
| FilterPipeline.GetJobs | backend/router/router.go:202-220 | the result picks exactly the matching rows in table order; users without the admin role get only their own jobs, whatever they asked for |
| FilterPipeline.OwnSearchSelectsExactly | backend/router/router.go:207-215 | for any user, a job passes the handler's query exactly when it meets the search, is the user's own unless an admin asks, and no tag was given twice |
| FilterPipeline.Search | frontend/utils/utils.ts:107-118 | end to end, for admins and others: exactly the positions of the table whose rows were asked for, in order, so each job as often as it is stored |
| QueryStream.ParseQueryResult | backend/db/influxdb.go:539-618 | fails exactly for a second schema or a first record without key or table; otherwise every key of the records has one table, the records from i to j - 1 with that key and one table number, bounded by records that differ, and with no later record of the key; an empty stream gives an empty table |
| QueryStream.TablesAreLastRuns | backend/db/influxdb.go:592-608 | the keys are exactly those of the stream, and each has the rows of its last contiguous run |
| QueryStream.TablesHoldLastRuns | backend/db/influxdb.go:592-608 | what these runs are, in terms of the records |
| QueryStream.TableIsGroupIff | backend/db/influxdb.go:594-600 | a key's table is its order-preserving group if and only if the key does not come back; otherwise rows are missing |
| QueryStream.ComesBackIff | backend/db/influxdb.go:593-600 | a key comes back if and only if it starts a run at some row after having had a row before |
| QueryStream.RowsWithKeyPicked | backend/db/influxdb.go:610-611 | the group of a key is all of its rows, in order |
| QueryStream.RowsAddUp | backend/db/influxdb.go:610-615 | kept and overwritten rows add up to the input, and nothing is overwritten if and only if no key comes back |
| Slices.Contains | backend/utils/utils.go:8-15 | membership |
| Slices.Remove | backend/utils/utils.go:18-25 | in place: the slice without its first target, the backing array behind it unchanged |
| Slices.Removed | backend/utils/utils.go:18-25 | the resulting slice as a value |
| Slices.RemovesFirst | backend/utils/utils.go:18-25 | what goes is the first occurrence, or nothing, and the rest keeps its order |
| Slices.RemoveFirstCounts | backend/utils/utils.go:18-25 | exactly one occurrence goes, if there is one |
| ConfigUpdate.GetDeletedMetrics | backend/config/config.go:365-377 | picks exactly the old GUIDs that the new metrics lack, in order and with repetitions |
| ConfigUpdate.RemoveAll | backend/config/config.go:358-362 | deletes the first occurrence of each given GUID, one after the other |
| ConfigUpdate.Router.UpdateConfig | backend/router/router.go:951-980 | the metrics are the posted ones, each as often, those without GUID with the drawn one, ordered by name; partitions and categories as posted and the old radar list, with one occurrence less per old metric that is gone; and unchanged lists when every old metric is posted again |
| ConfigUpdate.FillGuids | backend/router/router.go:952-957 | every posted metric without GUID gets its own drawn one, the others stay |
| ConfigUpdate.CleanPartitions | backend/router/router.go:968-971 | the posted partitions with their lists cleaned, for every order of partitions |
| ConfigUpdate.UpdateMeaning | backend/router/router.go:951-980 | the laws of an update: which metrics, which occurrences in which lists, and when nothing is removed |
| ConfigUpdate.SortedCounts | backend/router/router.go:959-963 | sorting metrics by display name only reorders them |
| ConfigUpdate.SortIsStable | backend/router/router.go:959-963 | the result is ordered by display name and metrics of the same name keep their order |
| ConfigUpdate.RemoveEachCounts | backend/config/config.go:358-362 | the deletes take away one occurrence per deleted GUID |
| ConfigUpdate.CleanedListIff | backend/config/config.go:358-377 | a cleaned list names only configured metrics if and only if every other reference occurred at most as often as the old configuration listed that metric |
| ConfigUpdate.UpdateKeepsReferences | backend/router/router.go:965-980 | an update with duplicate-free partition lists of old or new metrics keeps every partition and radar reference valid |
| ConfigUpdate.UpdatesKeepReferences | backend/config/config.go:292-308 | so does every sequence of such updates, starting from a configuration the startup check accepts |
| ConfigUpdate.VirtualReferencesIff | backend/config/config.go:358-362 | after any update a virtual partition is as posted, and names only configured metrics if and only if the posted list names only posted ones |
| ConfigUpdate.VirtualPartitionsKeepDeleted | backend/router/router.go:965-971 | for every metric, a well posted update that meets the other half: a virtual partition still lists the deleted metric |
| WebLog.WebLogger.constructor | backend/utils/log.go:21-30 | an empty ring of 25 slots and no connections |
| WebLog.WebLogger.Broadcast | backend/utils/log.go:42-49 | every connection is sent the message once, nobody else is sent anything |
| WebLog.WebLogger.Write | backend/utils/log.go:33-53 | ring, connections and what was sent are those of the history extended by the message |
| WebLog.WebLogger.Replay | backend/utils/log.go:61-73 | sends the stored non-empty messages, starting at the current ring element, to the new socket only |
| WebLog.WebLogger.AddConnection | backend/utils/log.go:58-77 | ring, connections and what was sent are those of the history extended by the connection |
| WebLog.WebLogger.RemoveConnection | backend/utils/log.go:80-82 | likewise for a removal |
| WebLog.RingStep | backend/utils/log.go:35-39 | overwriting the current slot and stepping on keeps the newest 25 messages in their slots |
| WebLog.RingRounds | backend/utils/log.go:61-73 | the rounds of a replay visit the newest messages from the oldest to the latest |
| WebLog.ReplayThenFollow | backend/utils/log.go:33-82 | whoever joins has been sent the non-empty ones of the last 25 earlier messages and then every later message until it leaves, in order, without gap or duplicate |
| WebLog.SilentWhileAway | backend/utils/log.go:80-82 | a socket that left is sent nothing |
| WebLog.SilentAfterLeaving | backend/utils/log.go:80-82 | after leaving, or without ever joining, a socket gets nothing |
| WebLog.MessagesPicked | backend/utils/log.go:33-53 | the messages of a history are those of its writes, in order |
| WebLog.NonEmptyPicked | backend/utils/log.go:63-64 | a replay keeps every message but the empty ones, in order |
| WebLog.NewestAreLast | backend/utils/log.go:28-29 | the newest messages are the last 25, or all if there are fewer |
| WebLog.NothingFiltered | backend/utils/log.go:64-64 | without empty messages the replay is exactly the newest messages |
| AggregationTasks.InfluxDB.FindTasks | backend/db/influxdb.go:885-889 | the number of tasks with the name, or an error |
| AggregationTasks.InfluxDB.CreateTask | backend/db/influxdb.go:803-823 | adds one task to the server and to the own list, or neither on failure |
| AggregationTasks.InfluxDB.Reconcile | backend/db/influxdb.go:882-911 | creates the task exactly when the look-up succeeded and found none, and the server did not refuse |
| AggregationTasks.InfluxDB.ReconcileMetric | backend/db/influxdb.go:879-912 | one task for each missing name of the metric, repeated functions included only once |
| AggregationTasks.InfluxDB.UpdateAggregationTasks | backend/db/influxdb.go:874-916 | for every order of metrics a pass adds, once each, exactly the required names that were missing and whose requests succeeded |
| AggregationTasks.SameNameIff | backend/db/influxdb.go:882-882 | task names agree exactly if measurement and function do, joined; two functions of a metric have two names |
| AggregationTasks.EveryFunctionHasItsTask | backend/db/influxdb.go:878-911 | after a pass every function of every metric has a task under bucket, measurement and function, unless a request for it failed |
| AggregationTasks.PassMeaning | backend/db/influxdb.go:895-911 | afterwards such a name has exactly one task if and only if it had at most one; no other name changes |
| AggregationTasks.SecondPassCreatesNothing | backend/db/influxdb.go:900-911 | a pass after one without failures creates nothing |
| AggregationTasks.TasksAddUp | backend/db/influxdb.go:895-898 | every successful creation stays: no pass ever repairs duplicates |
| AggregationTasks.LookedBefore | backend/db/influxdb.go:885-911 | a pass creates only after looking, at a time when no pass had created yet |
| AggregationTasks.DuplicatesIffBothCreate | backend/db/influxdb.go:885-911 | for any number of concurrent passes and any failing requests, a name with at most one task ends with several if and only if two passes looked before either created and both creations succeeded |
| AggregationTasks.NoOverlapNoDuplicate | backend/db/influxdb.go:885-911 | passes that never look while another one is about to create leave at most one task |
| AggregationTasks.OverlappingPassesDuplicate | backend/db/influxdb.go:885-911 | a run of two overlapping passes that ends with two tasks |
| AggregationTasks.OverlapCanBeHarmless | backend/db/influxdb.go:904-910 | the same overlap with one creation refused ends with one task |
| SessionTokens.AuthManager.GenerateJWT | backend/auth/auth.go:288-322 | the token names exactly the user given and the issuer, is dated at the current second and expires at the second of the api lifetime for job-control users and of the session lifetime for others; it replaces the user's earlier one |
| SessionTokens.AuthManager.Logout | backend/auth/auth.go:377-379 | removes the user's token |
| SessionTokens.AuthManager.Validate | backend/auth/auth.go:250-285 | accepts exactly the tokens the history calls acceptable and returns the user, with the roles, of the last login under that name |
| SessionTokens.AcceptedUser | backend/auth/auth.go:284-284 | in every history an accepted token carries exactly the user of the last login under its name |
| SessionTokens.LiveIsLastLogin | backend/store/postgres_store.go:346-408 | the stored token of a user is the one of the last login that no logout followed |
| SessionTokens.AcceptedIff | backend/auth/auth.go:250-285 | in every history a token is accepted if and only if it was made by its user's last login, no logout followed and the clock is within its dates |
| SessionTokens.ValidForItsLifetime | backend/auth/auth.go:301-308 | a token is in time from its making until its lifetime is over, less at most one second |
| SessionTokens.SameTokenIff | backend/auth/auth.go:301-314 | two logins make the same token if and only if user and roles agree and both dates fall into the same seconds |
| SessionTokens.LoginRevokesIff | backend/auth/auth.go:317-319 | in every history an earlier token of a user who has logged in again stays valid if and only if both logins carry the same claims |
| SessionTokens.LogoutRevokesAll | backend/auth/auth.go:377-379 | after a logout no token of the user is accepted until the next login |
| Units.BaseUnitOfPrinted | frontend/types/units.ts:252-257 | each unit's printed text is recognised as that unit, although shorter formats occur inside longer ones |
| Units.PrefixOfPrinted | frontend/types/units.ts:265-274 | each prefix in front of a metric format is recognised as that prefix |
| Units.PrintedUnitRecognised | frontend/types/units.ts:184-197 | the text printed for a unit and a prefix leads back to both |
| Units.ScaleParse | frontend/types/units.ts:159-166 | parsing the value scaled by any prefix, with the unit printed for it, gives back type and value |
| Units.PrintParseRoundTrip | frontend/types/units.ts:184-219 | so it does for the best prefix, for every value and unit |
| Units.ReadableIff | frontend/types/units.ts:226-244 | a metric value gets a mantissa in [1, 1000) if and only if it lies between 1 and 1000 tebi; below 10^15 with a decimal prefix |
| Units.WhatIsPrinted | frontend/types/units.ts:184-244 | number and unit printed for every value: from 1000 on with k, M, G, T, then Ti up to 1000 tebi, and everything else as it is |
| Units.PrefixesRead | frontend/types/units.ts:159-166 | k, M, G and T in front of a metric format multiply by powers of 1000 |
| Units.BinaryPrefixesRead | frontend/types/units.ts:159-166 | Ki, Mi, Gi and Ti multiply by powers of 1024, and no prefix by one |
| Units.IncludesIff | frontend/types/units.ts:253-255 | one text includes another if and only if that is found at some position |
| Units.RoundingError | frontend/types/units.ts:215-215 | the printed number is a whole number of hundredths, the nearest one, the larger of two |
| Units.RoundingIsRelativelySmall | frontend/types/units.ts:204-219 | the number printed with two decimals is off by at most a two-hundredth of the value |
| Units.MantissaRoundsUpIff | frontend/types/units.ts:212-215 | two decimals show 1000.00 exactly from 999.995 on |
| ThreadFold.AggregatePair | frontend/components/jobview/MetricDataCharts.tsx:162-175 | sum or mean of the two threads at every time step, a missing hyperthread point counting 0, times and thread of the physical thread kept |
| ThreadFold.ThreadPoints | frontend/components/jobview/MetricDataCharts.tsx:157-179 | the folded pair if the hyperthread exists, otherwise the thread's own series |
| ThreadFold.PrepareMetricData | frontend/components/jobview/MetricDataCharts.tsx:144-183 | the points are consecutive blocks, one for each key below half the number of keys, or for each key of a metric not measured per thread; point by point with time and thread of the series, and as value that of the thread and its hyperthread half the keys further on, summed or averaged, a missing one counting 0 |
| ThreadFold.ShownPoints | frontend/components/jobview/MetricDataCharts.tsx:148-183 | the loop concatenates the lines in the order of their keys |
| ThreadFold.ShownIsChart | frontend/components/jobview/MetricDataCharts.tsx:157-179 | the concatenated lines are these blocks |
| ThreadFold.LinesOfThreads | frontend/components/jobview/MetricDataCharts.tsx:147-155 | with threads 0 to N - 1 the lines are those of the first half, rounded up |
| ThreadFold.LabelsKept | frontend/components/jobview/MetricDataCharts.tsx:163-174 | every line has the length, times and thread of its physical thread |
| ThreadFold.EvenFold | frontend/components/jobview/MetricDataCharts.tsx:151-176 | with 2n threads there are n lines, and at every time step their sum (doubled for means) and what hyperthreads recorded beyond their partner's end add up to the sum over all threads |
| ThreadFold.OddFold | frontend/components/jobview/MetricDataCharts.tsx:152-179 | with 2n + 1 threads the first n + 1 series are shown unchanged and the others not at all |
| ThreadFold.ConservesIff | frontend/components/jobview/MetricDataCharts.tsx:144-183 | for equally long series the fold keeps every time step's sum if and only if the number of threads is even, or one thread is shown as a sum |

## Left out

- HTTP handling, cookies, JSON, URL escaping, e-mail and websocket framing; a socket is the sequence of messages it was sent.
- The order in which the database returns rows; in the model it is that of the table.
- PostgreSQL, InfluxDB and the query texts sent to them; tables are maps or sequences and the metric database is a function or an answer that may be an error.
- Errors of the job store itself outside the interleaved model: in `JobStore` only missing records and unavailable metrics fail; in `JobTable` every read and write, in `TagAgreement` every write, read and metric query, and in `AggregationTasks` every request may fail.
- JWT signing, password hashing, OAuth and its pending sessions, notifications; a token is an injective image of its claims, and the session table answers every request.
- Change-point detection, and the concurrent fan-out of metric queries (`getJobData`, `getMetadataData`, `queryLastDatapoints`), whose goroutines append to shared slices without a lock; `GetJobMetadataMetrics` is modelled by its two guards and the window it asks for.
- The prefetch in the stop handler, and the aggregation it triggers, which run only when the stop failed.
- The content of load requests and responses in a live-monitoring session; the job copy the reader changes meanwhile is its own.
- Concurrent calls into the log, which the code does not synchronise, and failed socket writes there.
- Socket writes of a live-monitoring session that never return: the deadlock and shutdown theorems take `EndWrite` and `ResponseWritten` as steps that come eventually; `StuckWriteIff` says what waits for the forwarder's write.
- React components, charts, settings, titles and colours; of the job view only the preparation of its points for one selected node.
- Pagination, clamping, node authorisation and other helpers with only easy properties.
- Floating point: durations are whole seconds and values exact reals, so the sample interval is at least one second.
- Exponential notation of unit values; only the printed unit of such values is modelled.
- Writing the configuration to disk and re-initialising the database after an update.
- An error reported by the query stream after its records, and columns of unexpected types.
- Numbers of 10^21 and more, which JavaScript prints in exponential notation.
- LruCache.LRUCache.constructor: requires a size of at least one, because with size 0 the code removes the back of an empty list.
- ThreadFold.PrepareMetricData: thread keys are natural numbers, which JavaScript enumerates in ascending order; other keys are not modelled.
- FilterPipeline.SearchSelectsExactly: speaks of numbers that fit into 64 bits; what happens to others is stated by `Decimal.AtoiOfPrinted` and `FilterParser.RangeRoundTripIff`.
