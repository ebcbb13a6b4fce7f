# Blue/green deployment tracker — a Dafny model

This project models the core of a blue/green deployment tracker. The repository keeps a registry of deployments, each belonging to the `blue` or the `green` environment, together with health-check samples, an audit log and the split of traffic between the two environments.

The model covers four parts of that core:

- **`MemStorage`** (server/storage.ts) is the in-memory registry. Its records live in JavaScript `Map`s that keep insertion order. Its audit log holds at most 100 entries. It carries a schema version, which is upgraded by an ordered migration list, and it writes a JSON snapshot of its whole state and reads one back.
- **The HTTP handlers with logic of their own** (server/routes.ts):
  - *promote* is the only place where the promote transition exists;
  - *rollback* carries a not-found guard in front of the registry's rollback;
  - *POST traffic-split* validates the request body;
  - *`/api/deployments/current`* picks the newest deployment of blue and of green.
- **`MetricsMonitor`** (server/monitoring.ts) keeps health-check samples per deployment in a five-minute sliding window. It computes the error rate, the success rate and the average latency, and the advisory test for aborting a promotion.
- **`LogManager`** (server/lib/logging.ts) is a structured log of at most 1000 entries. Each entry carries a trace id and a span id. The log is read back through a conjunctive filter on level, trace id and time range.

## Modules and files

| file | module | contents |
|---|---|---|
| common.dfy | `Common` | `Option` and `Outcome` types; `KeepLast` and `Pushed`, the push-then-`slice(-cap)` log cap; `Reverse`; decimal text of an integer |
| iso_time.dfy | `IsoTime` | `Date` time values, including the Invalid Date; `toISOString` (`Format`) and `new Date(text)` (`Parse`) on a proleptic Gregorian calendar; their round trip |
| ordered_map.dfy | `OrderedMap` | a `Map` with insertion order: `get`, `set`, `values()`, `entries()`, `new Map(entries)` |
| records.dfy | `Records` | deployments, health checks, log entries, traffic split, migrations; the object-spread merge of `updateDeployment` |
| queries.dfy | `Queries` | the newest-first sort, the environment filter, the current and the previous deployment |
| migrations.dfy | `Migrations` | `validateSchema` and the `upgradeSchema` loop as functions of the migration list |
| snapshot.dfy | `Snapshot` | the JSON snapshot that `saveToDisk` writes and `loadFromDisk` rehydrates |
| storage.dfy | `Storage` | class `MemStorage` |
| routes.dfy | `Routes` | the promote, rollback, traffic-split and current handlers, as methods over a `MemStorage` |
| monitoring.dfy | `Monitoring` | class `MetricsMonitor` and the window, rate and latency functions |
| logging.dfy | `Logging` | class `LogManager`, structured entries and the log filter |

Inputs from the outside world become parameters:

- the clock: `now`, in milliseconds;
- the locale time text of an audit-log entry: `stamp`;
- the ids `randomUUID` returns: a fresh id, required not to be in use;
- what reading the data file yields: `FileRead`;
- whether writing it fails: `writeError`;
- the list of the migrations module, with what each `validate()` reports: a `seq<Migration>`.

Promote and rollback each loop over the listing. That loop sits in a helper method of its own (`Routes.UpdateStatuses` and `Storage.MemStorage.IdleOthers`). It runs the same steps in the same order as the source loop. The split only keeps each proof small.

Points of behaviour the model makes explicit:

- **Direction of the schema upgrade.** `loadFromDisk` upgrades the running version up to the version stored in the file. A file version below the running one is refused as a downgrade, with "Downgrade not supported" (server/storage.ts:85-87, 112-114).
- **Loaded versions above the supported one.** Such a version is not refused in every case; see Findings.
- **Promote leaves active siblings active.** After a promote, a deployment of the target's own environment that was already active stays active (server/routes.ts:115-121). `Routes.PromoteKeepsActiveSibling` proves that two deployments can then be active at once. Only rollback leaves exactly one (`Storage.RollbackLeavesOneActive`).
- **Traffic-split bounds.** The traffic-split POST checks only that both values are numbers and that they total exactly 100. There is no range check, so `150/-50` is accepted (`Routes.SplitAcceptance`).

## Model

| member | source | states |
|---|---|---|
| Common.KeepLast | server/storage.ts:369-376 | the capped log has at most `cap` entries, or is unchanged, and it is a suffix of what was pushed |
| Common.KeepLastAppend | server/storage.ts:369-376 | capping, appending and capping again equals appending first and capping once |
| Common.PushedIsRecent | server/storage.ts:369-376 | pushing entries one at a time with the cap leaves the last `cap` entries of the whole history |
| Common.PushedConcat | server/storage.ts:369-376 | pushing `a` then `b` is pushing `a + b` |
| Common.Reverse | server/storage.ts:364-367 | same length; element `i` is element `n-1-i` of the input |
| Common.ReverseReverse | server/storage.ts:364-367 | reversing twice gives the original order back |
| Common.IntText | server/storage.ts:100 | non-empty text, beginning with `-` exactly for negative numbers |
| Common.IntTextDigits | server/storage.ts:100 | the text of a non-negative integer is all digits, has no leading zero and denotes that integer |
| Common.DistinctCounts | server/storage.ts:243-257 | a list has no repeated element exactly when every element occurs at most once in its multiset |
| IsoTime.Format | server/storage.ts:153-154 | `toISOString` text is 24 characters, or 27 with a six-digit signed year, and ends in `Z` |
| IsoTime.Parse | server/storage.ts:125 | text of any other length is the Invalid Date; a date read back is a time value in range |
| IsoTime.ParseFormat | server/storage.ts:125 | reading back what `toISOString` wrote for a time value in range gives that time value |
| IsoTime.ReadYearText | server/storage.ts:125 | the year `toISOString` writes, four digits or signed six, is read back as the same year whatever follows it |
| IsoTime.ReadFieldsText | server/storage.ts:125 | the month, day, hour, minute, second and millisecond written after the year are read back unchanged |
| OrderedMap.GetAfterSet | server/storage.ts:272 | after `set(k, v)`, `get(k)` is `v`, every other key reads as before, and the key count grows exactly when `k` is new |
| OrderedMap.OrderedMap.Set | server/storage.ts:272 | the value is stored under the key; a new key goes last, an existing key keeps its place; validity is kept |
| OrderedMap.ValuesAreItems | server/storage.ts:244 | `values()` enumerates exactly the stored values |
| OrderedMap.EntriesAreItems | server/storage.ts:123-126 | `Entries` (`entries()`) enumerates exactly the stored key-value pairs, and `values()` is their values in the same order |
| OrderedMap.FromEntries | server/storage.ts:123-126 | `new Map(entries)` is a well-formed map |
| OrderedMap.FromEntriesFrom | server/storage.ts:123-126 | every stored pair is one of the given entries |
| OrderedMap.FromEntriesRoundTrip | server/storage.ts:123-126 | rebuilding a map from its own entries gives back the same map, order included |
| Records.Merge | server/storage.ts:288 | the spread never changes the id |
| Records.MergeLaws | server/storage.ts:288 | an empty patch changes nothing; a status patch changes only the status; two merges are one merge of the combined patch; a repeated merge changes nothing more |
| Queries.NewestFirstByDate | server/storage.ts:244-246 | `Recency`, the sort key: a newest-first listing orders the deployments with a valid date by that date, latest first; one without a valid date sorts as deployed at the epoch |
| Queries.Insert | server/storage.ts:244-246 | inserting into a newest-first list keeps it newest first and adds exactly that record |
| Queries.SortNewestFirst | server/storage.ts:244-246 | the result is newest first and a permutation of the input |
| Queries.OfEnvironmentMembers | server/storage.ts:254-255 | the filter keeps exactly the records of the environment |
| Queries.OfEnvironmentCount | server/storage.ts:254-255 | each record of the environment is kept as many times as it occurs, any other record never |
| Queries.OfEnvironmentConcat | server/storage.ts:254-255 | filtering a concatenation is concatenating the filtered parts, so input order is kept |
| Queries.TwoOfEnvironment | server/storage.ts:254-255 | the filter keeps two or more records exactly when two positions of the input hold records of the environment |
| Queries.ByEnvironment | server/storage.ts:253-257 | newest first, with the same elements and multiplicities as the filter's result |
| Queries.ByEnvironmentCount | server/storage.ts:253-257 | each record of the environment occurs as often as in the input, any other never; a listing without repeats gives a result without repeats |
| Queries.Latest | server/routes.ts:55-63 | none exactly when the environment has no record; otherwise a record of it that no record of it is newer than |
| Queries.Previous | server/storage.ts:301-305 | present exactly when two positions of the input hold records of the environment; then a record of it with at most one record of it strictly newer, and a record of it at least as new that is a different record or the same record listed twice |
| Migrations.Find | server/storage.ts:77 | none exactly when no migration has the version; otherwise the first migration that has it |
| Migrations.FirstOfVersion | server/storage.ts:77 | `find` returns the migration at the first position holding the version |
| Migrations.SchemaValid | server/storage.ts:76-82 | true exactly when the first migration with the version validates; false when no migration has it |
| Migrations.Upgrade | server/storage.ts:89-103 | the running version never drops and is the last migration applied; every migration applied is in (current, target], applied in ascending order; every migration left is at most the version reached or above the target |
| Migrations.InRange | server/storage.ts:91 | exactly the migrations with a version in (current, target] |
| Migrations.UpgradeAscending | server/storage.ts:89-103 | on a list ordered by version the loop applies exactly the migrations in (current, target], in order |
| Migrations.UpgradeReachesTarget | server/storage.ts:89-103 | with a migration at the target, an upgrade from below ends exactly at the target |
| Migrations.UpgradeAgain | server/storage.ts:89-103 | re-running the upgrade from the version it reached applies nothing |
| Snapshot.SaveDate | server/storage.ts:153-154 | fails (RangeError) exactly for an Invalid Date or an out-of-range time; null exactly for a missing date |
| Snapshot.LoadDate | server/storage.ts:125 | no date exactly for null or the empty text |
| Snapshot.DateRoundTrip | server/storage.ts:123-158 | rehydrating a written date gives back the date |
| Snapshot.SaveDeployment | server/storage.ts:153 | fails exactly when the deployment's date cannot be written |
| Snapshot.LoadDeployment | server/storage.ts:123-126 | the date is the rehydrated text |
| Snapshot.DeploymentRoundTrip | server/storage.ts:123-126 | a written deployment reads back equal to itself |
| Snapshot.SaveHealthCheck | server/storage.ts:154 | fails exactly when the check's date cannot be written |
| Snapshot.LoadHealthCheck | server/storage.ts:129-132 | the date is the rehydrated text |
| Snapshot.HealthCheckRoundTrip | server/storage.ts:129-132 | a written health check reads back equal to itself |
| Snapshot.SaveEach | server/storage.ts:153-154 | fails exactly when some element fails; otherwise element `i` is the conversion of input `i` |
| Snapshot.LoadDeployments | server/storage.ts:123-126 | the rebuilt map holds each record under its own id |
| Snapshot.LoadHealthChecks | server/storage.ts:129-132 | the rebuilt map holds each check under its own id |
| Snapshot.DeploymentsRoundTrip | server/storage.ts:123-126 | writing the deployments map and reading it back restores the same map, order included |
| Snapshot.HealthChecksRoundTrip | server/storage.ts:129-132 | the same for the health-check map |
| Snapshot.Serialise | server/storage.ts:152-158 | fails exactly when a date cannot be written; otherwise carries the log, the split and the version as given |
| Snapshot.SerialiseRoundTrip | server/storage.ts:123-158 | a snapshot that could be written rehydrates to the same deployments map and health-check map, order included |
| Storage.IdleEntriesMembers | server/storage.ts:321-325 | the idle loop logs one update entry for each deployment of the listing other than the target, and no other entry |
| Storage.RollbackLeavesOneActive | server/storage.ts:319-325 | after a rollback the target is the one and only active deployment |
| Storage.ListingCoversStore | server/storage.ts:314 | the listing holds each stored record, under its own id, and every stored id |
| Storage.ChecksFor | server/storage.ts:344-347 | exactly the checks of the deployment, no more than the input |
| Storage.ChecksForCount | server/storage.ts:344-347 | each check of the deployment is kept as many times as it occurs, any other check never |
| Storage.ChecksForConcat | server/storage.ts:344-347 | filtering a concatenation is concatenating the filtered parts, so input order is kept |
| Storage.ChecksForDistinct | server/storage.ts:344-347 | a list without repeats filters to a list without repeats |
| Storage.KeyedDeploymentsDistinct | server/storage.ts:244 | the values of a map holding each deployment under its own id have no repeats |
| Storage.KeyedHealthChecksDistinct | server/storage.ts:345 | the same for the health-check map |
| Storage.MemStorage.constructor | server/storage.ts:52-63 | no records, no log, all traffic to blue, schema version 1 |
| Storage.MemStorage.GetDeployments | server/storage.ts:243-247 | every stored record once, newest first |
| Storage.MemStorage.GetDeploymentById | server/storage.ts:249-251 | the stored record of the id, if any |
| Storage.MemStorage.GetDeploymentsByEnvironment | server/storage.ts:253-257 | newest first; each stored record of the environment exactly once, and no other record |
| Storage.MemStorage.GetPreviousDeployment | server/storage.ts:301-305 | the second record of the environment's listing, or none when it has fewer than two |
| Storage.MemStorage.GetHealthChecks | server/storage.ts:344-347 | the stored checks of the deployment in map insertion order (the filter of `values()`), each exactly once, and no other check |
| Storage.MemStorage.GetLogs | server/storage.ts:364-367 | the whole log, newest first; the deployment id is ignored |
| Storage.MemStorage.AddLog | server/storage.ts:369-376 | the entry is pushed and the log cut back to the last 100; nothing else changes |
| Storage.MemStorage.CreateDeployment | server/storage.ts:259-282 | one new record under the fresh id, deployed now, appended last; the creation entry logged; nothing else changes |
| Storage.MemStorage.UpdateDeployment | server/storage.ts:284-299 | an unknown id changes nothing; a known one gets the patch merged in place and an update entry naming the old version logged |
| Storage.MemStorage.UpdateTrafficSplit | server/storage.ts:382-392 | the split is stored as given, without checks, and logged |
| Storage.MemStorage.CreateHealthCheck | server/storage.ts:349-362 | one new check under the fresh id, checked now; nothing else changes |
| Storage.MemStorage.RollbackToDeployment | server/storage.ts:307-342 | an unknown id fails with "Deployment not found" and changes nothing; otherwise the target is active, every other deployment idle, the split follows the target, and the log gets its entries in order |
| Storage.MemStorage.IdleOthers | server/storage.ts:321-325 | every deployment of the listing other than the target becomes idle, one update entry each |
| Storage.MemStorage.UpgradeSchema | server/storage.ts:84-104 | a lower target fails with "Downgrade not supported" and changes nothing; otherwise the version and log follow the migration loop |
| Storage.MemStorage.SaveToDisk | server/storage.ts:144-174 | the snapshot is written exactly when the schema validates, every date can be written and the write succeeds; a failure logs one error entry carrying the message of the first failing step, in that order ("Invalid schema detected before save", "Invalid time value", the write error), and changes nothing else |
| Storage.MemStorage.LoadFromDisk | server/storage.ts:106-142 | a read error or a downgrade fails with nothing changed; after the upgrade, a version reached that validates restores every field from the file, and one that does not fails with "Invalid schema detected" |
| Storage.MemStorage.Restore | server/storage.ts:122-137 | every field is replaced by the file's: the two maps keyed by id with their dates read back, the log (empty when the file has none), the traffic split and the schema version |
| Storage.MemStorage.LoadFromDiskChecked | server/storage.ts:106-142 | a load passes only when the upgrade reaches the file's own version and it validates, and then the stored version validates; a read error, a downgrade or an unreachable version fails with nothing changed; a reached version that does not validate fails with the migrations applied and logged |
| Storage.LoadPastLastMigration | server/storage.ts:112-137 | with migration 1 only and a snapshot of version 2, the load passes and the stored version then fails validation, while the checked load refuses it |
| Storage.UpgradeStep | server/storage.ts:90-103 | one turn of the migration loop |
| Storage.MigrationEntriesSnoc | server/storage.ts:97-101 | one more migration applied is one more entry at the end |
| Routes.PromoteSplit | server/routes.ts:124-128 | all traffic to green exactly for a green target, else all to blue; the split totals 100 |
| Routes.PromoteEntriesMembers | server/routes.ts:115-121 | the promote loop logs one update entry for the target and for each deployment of another environment, and no other entry |
| Routes.PromoteActiveInTarget | server/routes.ts:113-128 | after a promote the target is active and every active deployment is in the target's environment |
| Routes.PromoteKeepsActiveSibling | server/routes.ts:115-121 | an already-active sibling in the target's environment stays active, so two can be active |
| Routes.UpdateStatuses | server/routes.ts:114-121 | the target becomes active, every deployment of another environment idle, the rest unchanged, with one update entry per change |
| Routes.Promote | server/routes.ts:103-134 | an unknown id answers 404 and changes nothing; otherwise the registry is the promoted one and the split and log follow |
| Routes.Rollback | server/routes.ts:137-165 | an unknown id answers 404 before the registry is touched; otherwise the registry is rolled back, the split follows the target's environment, the rollback's entries are logged in order, and the reported status is active; health checks and schema version never change |
| Routes.RollbackSplitMatchesPromote | server/storage.ts:327-332 | rolling back to a blue or green deployment routes the traffic as promoting it would; for another environment rollback keeps the split while promote sends all to blue |
| Routes.PostTrafficSplit | server/routes.ts:232-251 | 400 exactly when a value is not a number or the two do not total 100, with nothing changed; otherwise the split is stored as given and logged; the registry stays well formed and the health checks and schema version never change |
| Routes.SplitStaysWhole | server/routes.ts:232-251 | a split totalling 100 still totals 100 after a promote, a rollback or an accepted POST |
| Routes.SplitAcceptance | server/routes.ts:236-244 | a non-number and a pair not totalling 100 are refused; out-of-range values totalling 100 are accepted |
| Routes.CurrentDeployments | server/routes.ts:53-66 | for blue and for green, null exactly when the environment has no deployment, otherwise a deployment of it that none of it is newer than |
| Monitoring.InWindowShrinks | server/monitoring.ts:74-76 | `InWindow`, the window test: a sample checked now is inside the window, and one inside it at a time was inside it at every earlier time |
| Monitoring.Prune | server/monitoring.ts:27-29 | exactly the samples inside the window, no more than before |
| Monitoring.PruneIdempotent | server/monitoring.ts:27-29 | pruning twice is pruning once |
| Monitoring.PruneConcat | server/monitoring.ts:27-29 | pruning works sample by sample and keeps order |
| Monitoring.PruneLater | server/monitoring.ts:71-79 | pruning at an earlier and then at a later time is pruning at the later one |
| Monitoring.Cleared | server/monitoring.ts:71-79 | the same deployment ids are kept |
| Monitoring.ClearedIdempotent | server/monitoring.ts:71-79 | clearing twice at the same time is clearing once |
| Monitoring.Count | server/monitoring.ts:38 | at most the number of samples; zero exactly when none has the status; all exactly when every one has it |
| Monitoring.CountPartition | server/monitoring.ts:38 | every sample is passing, failing or pending |
| Monitoring.ErrorRate | server/monitoring.ts:34-40 | between 0 and 100; 0 for no samples; 0 exactly when none fails; 100 exactly when all fail |
| Monitoring.SuccessRate | server/monitoring.ts:51-57 | between 0 and 100; 100 for no samples; 100 exactly when every one passes; 0 exactly when samples exist and none passes |
| Monitoring.RatesShare | server/monitoring.ts:34-57 | the two rates total at most 100, and exactly 100 when none is pending |
| Monitoring.AverageLatency | server/monitoring.ts:42-49 | 0 for no samples; otherwise between the smallest and the largest response time |
| Monitoring.AbortFacts | server/monitoring.ts:59-69 | no samples never abort under the defaults; `minUptime` never matters |
| Monitoring.TwoFailuresInTwenty | server/monitoring.ts:10-15 | two failures in twenty is a 10% error rate, which aborts under the defaults |
| Monitoring.MetricsMonitor.constructor | server/monitoring.ts:18 | no samples |
| Monitoring.MetricsMonitor.AddHealthCheck | server/monitoring.ts:21-32 | the sample is appended and the deployment's list pruned, others unchanged; a sample without a time makes it throw after the push reached the stored list |
| Monitoring.MetricsMonitor.GetErrorRate | server/monitoring.ts:34-40 | the error rate of the deployment's stored samples (`get(id)`, or the empty list), so between 0 and 100, and 0 for an unknown deployment |
| Monitoring.MetricsMonitor.GetSuccessRate | server/monitoring.ts:51-57 | the success rate of the deployment's stored samples, so between 0 and 100, and 100 for an unknown deployment |
| Monitoring.MetricsMonitor.GetAverageLatency | server/monitoring.ts:42-49 | the average latency of the deployment's stored samples, so between their smallest and largest response time, and 0 for an unknown deployment |
| Monitoring.MetricsMonitor.ClearOldChecks | server/monitoring.ts:71-79 | every stored list pruned to the window, the same ids kept |
| Monitoring.MetricsMonitor.ShouldAbortPromotion | server/monitoring.ts:59-69 | the threshold test on the deployment's stored samples; for an unknown deployment it aborts only under thresholds below 0 or a minimum success rate above 100 |
| Logging.Entry | server/lib/logging.ts:27-34 | the timestamp reads back as the moment logged; level, message and metadata as given; each id is the caller's value when truthy and the generated one otherwise |
| Logging.CriteriaSupplied | server/lib/logging.ts:63-76 | one filter step per supplied criterion and no other: a level step exactly for a given level, a trace step exactly for a non-empty trace id, a bound step exactly for each given bound |
| Logging.Where | server/lib/logging.ts:65 | exactly the entries meeting the criterion |
| Logging.Select | server/lib/logging.ts:63-76 | exactly the entries meeting every supplied criterion |
| Logging.FilterWhere | server/lib/logging.ts:63-76 | one filter step followed by the rest is a single pass by all |
| Logging.WhereAllIsFilter | server/lib/logging.ts:63-76 | the chain of filter steps is a single pass by all criteria |
| Logging.CriteriaMatch | server/lib/logging.ts:63-76 | meeting every step of the chain is meeting the filter |
| Logging.FilterIsSelect | server/lib/logging.ts:63-76 | the single pass by the steps is the selection by the filter |
| Logging.SelectConcat | server/lib/logging.ts:63-76 | selection keeps stored order |
| Logging.LoggedTimeBounds | server/lib/logging.ts:70-75 | an entry logged at `now` passes a time bound exactly when `now` is on its side; an Invalid Date bound passes nothing |
| Logging.LogManager.constructor | server/lib/logging.ts:10 | the log is empty |
| Logging.LogManager.Log | server/lib/logging.ts:22-41 | a time `toISOString` cannot write throws and stores nothing; otherwise the entry is pushed last and the log cut back to the last 1000 |
| Logging.LogManager.GetLogs | server/lib/logging.ts:53-79 | no filter gives the whole log; a filter gives exactly the stored entries, in order, that meet every supplied criterion |
| Logging.LogManager.Clear | server/lib/logging.ts:81-83 | the log is empty |
| Logging.EmptyFilterKeepsAll | server/lib/logging.ts:63-76 | a filter that supplies nothing, or only an empty trace id, returns the whole log |

## Left out

- File system and JSON. `readFile`, `JSON.parse`, `mkdir` and `writeFile` are parameters: a `FileRead` and a `writeError`. The JSON document is the `StorageData` value, not its text.
- The `saveToDisk` calls inside `createDeployment`, `updateDeployment`, `addLog`, `updateTrafficSplit`, `createHealthCheck`, `rollbackToDeployment` and `upgradeSchema` (server/storage.ts:94, 280, 297, 341, 360, 375, 391). They are awaited, but `saveToDisk` catches every error itself (server/storage.ts:167-173), so a save never makes its caller fail. A save that succeeds changes nothing in memory. A save that fails appends an error entry through `addLog`, which saves again. The model's mutations do not save, so those error entries, and the chain of saves behind them, are not modelled. `SaveToDisk` is a method of its own.
- Asynchrony and interleaving of the `async` methods. Each method runs to completion.
- The constructor's load-or-fallback (server/storage.ts:64-68) and `initializeSampleData` with its fixed sample records. `new MemStorage(ms)` gives the initial fields.
- The singleton `storage` export and `LogManager.getInstance` (server/lib/logging.ts:15-20). The model keeps plain instances.
- The migrations module: shared/migrations/migrations.ts is not part of this model. Its list is a parameter, and a migration's `up()` acts on data outside this model.
- Migrations.SchemaValid, Storage.MemStorage.UpgradeSchema: each `validate()` is a fixed boolean and each `up()` resolves. A `validate()` or `up()` that rejects (server/storage.ts:81, 92) would abort `validateSchema`, `upgradeSchema` and `loadFromDisk` partway, with the migrations before it already applied; that path is not modelled.
- IsoTime.Parse: only the exact `toISOString` layout is read (24 characters, or 27 with a signed six-digit year). Every other text `new Date(text)` accepts, such as the date-only `2024-02-29`, a time-zone offset or fewer fraction digits, is the Invalid Date here. Snapshots written by `saveToDisk` always use that layout.
- Storage.CreatedEntry, Storage.UpdatedEntry, Storage.TrafficEntry, Storage.RollbackEntry, Storage.MigrationEntry: the numbers and the `JSON.stringify(updates)` text interpolated into messages are not rendered. A message keeps its literal text and its interpolated strings, except the migration version, which is rendered.
- Log timestamps of `MemStorage` (`toLocaleTimeString`) are the opaque `stamp` text.
- Queries.Recency: the sort key of a missing or Invalid Date counts as 0. In the source it is NaN, which makes the comparator's order implementation-defined.
- `Array.prototype.sort` is stable. The model's sort gives one newest-first permutation; its tie order is not stated.
- Routes.PostTrafficSplit: values are exact reals. Floating-point rounding in `blue + green !== 100` and the NaN and Infinity numbers are not modelled.
- Monitoring rates and average latency are exact reals, not floating point.
- Monitoring.Latency: `responseTime || 0` with NaN is not modelled.
- Logging.Meta: a number metadata value cannot be NaN.
- In both `Date.now()` and `new Date()`, the clock is the `now` parameter.
- Console output: development logging in `LogManager.log` and the `console.warn` of `saveToDisk`.
- HTTP plumbing is left out: JSON bodies, the 500 answers of the `catch` blocks, request validation by the schema library, the other routes, the middleware and the client.
- `Patch` has no `id` field. A patch that renames a record's id would make the map key and the record disagree.
- Snapshot.LoadDeployment: extra JSON keys in a file are not carried. The `...d` spread on load would copy them, but the model's records have fixed fields.

## Findings

| source | as written | input that shows it | evidently intended | confidence | as-written member | corrected member |
|---|---|---|---|---|---|---|
| server/storage.ts:112-137 | `loadFromDisk` validates the version the upgrade *reached* (line 117), then stores the file's version (line 137) | only migration 1 exists, the registry runs at 1, and the snapshot says version 2: no migration runs, version 1 validates, the load passes, and schema version 2 then fails `validateSchema`, so every later save fails "Invalid schema detected before save" | a snapshot whose version the migrations cannot reach is refused, so a version above the supported one is never silently accepted | not executed | Storage.LoadPastLastMigration | Storage.MemStorage.LoadFromDiskChecked |
