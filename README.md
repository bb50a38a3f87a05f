# Offline action queue and sync service

This project models the mobile client's offline resilience layer:
- `DatabaseService`, the SQLite-backed store with its three tables:
  - `offline_actions`, the requests kept for later delivery;
  - `patient_cache`, the cached patient snapshots;
  - `audit_logs`, the append-only audit trail.
- `SyncService`, which sends a request when the device is online and queues it otherwise, and which replays the queue in a pass guarded by the `isSyncing` flag.

Three modules:
- `Rows` (`rows.dfy`) holds generic facts about a table listing:
  - keeping a sequence ordered by an integer column;
  - deleting the rows whose key matches;
  - the fact that a filtered listing is a subsequence of the original.
- `Database` (`database.dfy`) models `mobile/services/Database.ts`.
  - The database file is a value, `DatabaseFile`. Each table is the sequence its `ORDER BY` query lists. `offline_actions` and `audit_logs` also carry the AUTOINCREMENT counter SQLite keeps for them; `patient_cache` has a TEXT primary key and no counter.
  - Each operation is a function on that value: `Enqueue`, `RemoveQueued`, `StorePatient`, `Log`, `RecentAudit` and `PatientSnapshots`.
  - `DatabaseFile.Valid` is the invariant every operation keeps: unique primary keys, ids no larger than the counter, and each listing in its query's order.
  - The class `DatabaseService` holds the lazily opened handle (`handleOpen`) and the file. Its methods are proved against those functions.
- `Sync` (`sync.dfy`) models `mobile/services/SyncService.ts`.
  - The network, the HTTP client and the clock are inputs:
    - the network-state probe (`None` when it throws);
    - the outcome of the one request `executeOrQueue` makes;
    - a `replay` outcome per queued action: failed, delivered and deleted, or delivered but the delete threw;
    - whether reading the queue throws;
    - the `now` timestamps.
  - Every request the service sends is returned in `sent`, in order.
  - `Survivors` and `Replays` define what one pass leaves queued and what it sends.
  - `SyncService.Sync` is proved to compute exactly those.

Three behaviours of the code worth stating:
- `init` runs `CREATE TABLE IF NOT EXISTS`, so opening the store keeps every existing row. It does not reset the tables.
- `getAuditLogs` reads at most 50 records (`LIMIT 50`). The limit is fixed; the caller cannot choose it.
- There is no operation that clears the queue, and the connectivity check has no time-out.

## Model

| member | source | states |
|---|---|---|
| Database.Enqueue | mobile/services/Database.ts:38-44 | The new row has id counter+1, above every id issued so far, and carries the given endpoint, method and body at the current time. Removing that id gives back the old listing exactly, so earlier rows are unchanged and in order. The multiset grows by that one row. The other tables are untouched. If no earlier row is newer, the row is appended; for rows with the same `createdAt` that order is the model's tie rule (see "## Left out"). The table stays valid. |
| Database.RemoveQueued | mobile/services/Database.ts:51-54 | Exactly the row with that id is deleted, and the others stay in order. With no such row the file is unchanged. Nothing outside `offline_actions` changes. |
| Database.Upsert | mobile/services/Database.ts:74-77 | `INSERT OR REPLACE`: afterwards the new snapshot is present and is the only entry with that id. Every entry with another id is kept, and nothing else appears. If no entry is newer, the snapshot is listed first; for an entry with the same `lastUpdated` that order is the model's tie rule (see "## Left out"). The cache stays unique and ordered by `lastUpdated` descending. |
| Database.StorePatient | mobile/services/Database.ts:71-79 | The result is the upsert followed by one audit record `PATIENT_SAVE` / `Saved patient <id>`. The queue is unchanged and the file stays valid. |
| Database.Log | mobile/services/Database.ts:88-94 | The log only grows: the new record has a fresh id, and removing it gives back the old log exactly. The multiset grows by that record. If no record is newer, the new one is first; for a record with the same `timestamp` that order is the model's tie rule (see "## Left out"). Other tables are untouched. |
| Database.RecentAudit | mobile/services/Database.ts:96-99 | At most 50 records, the first ones of the log, newest first. No record left out is newer than one returned. |
| Database.PatientSnapshots | mobile/services/Database.ts:81-85 | One snapshot per cached row, in listing order. Empty when the cache is empty. |
| Database.RemovedIdNotReissued | mobile/services/Database.ts:15 | After a row is deleted, the next enqueued id is still larger than the deleted one. AUTOINCREMENT never re-issues an id. |
| Database.NewRowsInOrder | mobile/services/Database.ts:38-44 | A run of `queueAction` calls creates consecutive ids in call order, each row carrying its own call's arguments and time. |
| Database.QueueIsFifo | mobile/services/Database.ts:46-49 | For any run of `queueAction` calls, each at its own time, where the times never decrease and none is older than a row already queued: the listing afterwards is the old listing followed by the new rows in call order. The listing is FIFO. Timestamps are whole seconds, so calls in the same second are ordered by the model's tie rule; SQL does not fix their order. |
| Database.SavedPatientListedFirst | mobile/services/Database.ts:71-85 | If every cached entry is strictly older than the save time, then after the save `getPatients` is non-empty and starts with that snapshot. That the saved entry is listed at all, whatever the clock, is `Upsert`'s contract. |
| Database.UpsertSize | mobile/services/Database.ts:74-77 | Saving a cached id keeps the cache size. Saving a new id adds exactly one entry. |
| Database.LoggedRecordsPersist | mobile/services/Database.ts:88-94 | A logged record survives any number of later `logAction` calls. Records are never modified or removed. |
| Database.LoggedRecordReadFirst | mobile/services/Database.ts:88-99 | If every earlier record is strictly older, the record just logged is the first one `getAuditLogs` returns. |
| Database.EmptyFileValid | mobile/services/Database.ts:12-31 | The empty tables created on a fresh install satisfy the store invariant. |
| Database.DatabaseService.constructor | mobile/services/Database.ts:5-6 | A new service holds the given file, with the handle not yet open. |
| Database.DatabaseService.Init | mobile/services/Database.ts:8-34 | Opening the handle leaves the file unchanged (`CREATE TABLE IF NOT EXISTS`). |
| Database.DatabaseService.QueueAction | mobile/services/Database.ts:38-44 | Opens the handle if needed. The new file is `Enqueue` of the old one, whether or not the handle was open. |
| Database.DatabaseService.GetQueuedActions | mobile/services/Database.ts:46-49 | Returns every pending row, ordered by `createdAt` ascending, with unique ids. The file is unchanged. |
| Database.DatabaseService.RemoveAction | mobile/services/Database.ts:51-54 | The new file is `RemoveQueued` of the old one. |
| Database.DatabaseService.SavePatient | mobile/services/Database.ts:71-79 | The new file is `StorePatient` of the old one: upsert, then audit record. |
| Database.DatabaseService.GetPatients | mobile/services/Database.ts:81-85 | Returns the snapshots of the cache, most recently updated first. The file is unchanged. |
| Database.DatabaseService.LogAction | mobile/services/Database.ts:88-94 | The new file is `Log` of the old one. |
| Database.DatabaseService.GetAuditLogs | mobile/services/Database.ts:96-99 | Returns `RecentAudit` of the file. The file is unchanged. |
| Sync.CheckConnectivity | mobile/services/SyncService.ts:24-31 | Online exactly when the probe succeeded and reports both `isConnected` and `isInternetReachable`. A probe that throws means offline. |
| Sync.Replays | mobile/services/SyncService.ts:76-83 | One pass sends one request per fetched action, in fetched order, each with the action's own method, endpoint and body. |
| Sync.Survivors | mobile/services/SyncService.ts:76-90 | What a pass leaves queued is a subsequence of the fetched queue: surviving actions keep their relative order. |
| Sync.SurvivorsMembers | mobile/services/SyncService.ts:76-90 | An action stays queued if and only if its replay was not both delivered and deleted. |
| Sync.AllDeliveredDrains | mobile/services/SyncService.ts:76-90 | When every replay succeeds, the pass drains the queue. |
| Sync.NoneDeliveredKeepsAll | mobile/services/SyncService.ts:86-89 | When no replay succeeds, the queue is left exactly as it was. |
| Sync.PartialFailureKeepsFailed | mobile/services/SyncService.ts:76-90 | Queue [A, B, C] where A fails and B and C succeed leaves [A]. |
| Sync.SecondPassChangesNothing | mobile/services/SyncService.ts:76-90 | A second pass with the same outcomes leaves the queue as the first pass did. |
| Sync.SurvivorsValid | mobile/services/SyncService.ts:70-90 | The queue left by a pass is still unique, ordered by `createdAt` and within the id counter. |
| Sync.SurvivorsStep | mobile/services/SyncService.ts:84-89 | In the middle of a pass, deleting a delivered action removes exactly its row and leaves the rest in order. An undelivered action stays where it is. |
| Sync.SyncService.constructor | mobile/services/SyncService.ts:10-15 | Given a valid store, a new service is not syncing, uses that store, and satisfies its invariant. |
| Sync.SyncService.ExecuteOrQueue | mobile/services/SyncService.ts:34-60 | Online with a reply: one request is sent, `Success(data)` is returned, and the store and its handle are unchanged. Online with a failure: one request is sent, then the action is queued once with the same endpoint, method and body, and `Queued` is returned. Offline: nothing is sent, the action is queued once, and `Queued` is returned. |
| Sync.SyncService.Sync | mobile/services/SyncService.ts:62-96 | Nothing is sent and the store is unchanged in three cases: a pass is already running; the device is offline; or the queue read throws, which is swallowed. In the first two the handle is not touched either. Otherwise the requests sent are `Replays` of the fetched queue and the queue left is `Survivors` of it; nothing else changes. `isSyncing` is back to its value on entry. |
| Sync.SyncService.ReplayQueue | mobile/services/SyncService.ts:70-90 | The fetch-and-replay loop: each fetched action replayed once in order, and the queue left is `Survivors` of the fetched queue. |
| Sync.SyncService.ReplayOne | mobile/services/SyncService.ts:77-89 | One loop iteration: the action's row is deleted exactly when its replay is delivered and the delete succeeds. |
| Sync.OfflineThenOnline | mobile/services/SyncService.ts:34-96 | On a fresh install, a request made while the probe throws is queued under id 1, nothing is sent, and the call returns `Queued` (`{success: false, queued: true}`). The next online pass, with every replay succeeding, sends it once and leaves the queue empty and the audit log untouched. |

## Left out

- The 30-second `setInterval` timer in the `SyncService` constructor (`mobile/services/SyncService.ts:17-22`) is not modelled. Each tick is one explicit `Sync` call.
- Concurrency is not modelled. That includes an `executeOrQueue` or a second `sync` interleaving with a pass. The `isSyncing` guard is modelled as state: `Sync` called with the flag set does nothing. In the source the flag is tested (`mobile/services/SyncService.ts:63`) before the awaited connectivity check and set only afterwards (line 68), so two overlapping `sync()` calls can both pass the guard and both start a pass. The model, being sequential, does not capture that.
- `saveSecure`/`getSecure` are not modelled. They forward to the platform's secure store.
- SQLite, `expo-network`, `axios` and the clock are not modelled.
  - SQLite is abstracted to the tables' contents and their AUTOINCREMENT counters. The WAL pragma and the database name carry no behaviour.
  - `expo-network`, `axios` and the clock become parameters: the probe, the response, the replay outcomes and `now`.
  - `API_URL` and the platform check are not modelled.
- Every HTTP request and every store call is assumed to settle: the `response` and `replay` parameters always give an outcome. In the source, `axios` is called with no `timeout`, and axios waits indefinitely by default (`mobile/services/SyncService.ts:39-43`, `79-83`). A request that never settles in `executeOrQueue` neither returns nor queues its action. One that never settles inside a pass keeps the `finally` at lines 93-94 from running, so `isSyncing` stays true and every later `sync` returns at line 63 until the app restarts. `Sync`'s guarantee that the flag is restored covers only passes that finish.
- JSON `stringify`/`parse` of the request body is not modelled: the body is an opaque string, stored and replayed unchanged. A body `queueAction` wrote always parses, so a replay that fails to parse is not a separate outcome.
- Storage failures are not modelled for `queueAction`, `savePatient` and `logAction`, nor for `getQueuedActions`, `removeAction`, `getPatients` and `getAuditLogs` when they are called outside `sync`: there they always succeed. Two failures are modelled in `sync`: the queue read throwing (`fetchFails`) and `removeAction` throwing after a successful replay (`DeliveredNotRemoved`, which keeps the row).
- The `db?.` paths taken when the handle is still null after `init` are not modelled. An `init` failure is not modelled either.
- AUTOINCREMENT counters are unbounded integers. SQLite's 64-bit limit is not modelled.
- Ties in `ORDER BY` are a modelling choice, because SQL leaves their order open. Equal `createdAt` values keep insertion order. Equal `lastUpdated` or `timestamp` values list the newest row first.
- `savePatient` stores the serialized patient under its id. The record's other fields are not modelled.
- `getPatients` returns `JSON.parse(r.data)` for each row (`mobile/services/Database.ts:84`). The model returns the stored `data` string itself (`PatientSnapshots`), because JSON is not modelled.
- `logAction` is called from `savePatient` without being awaited. The model runs it to completion, in order.
- Sync.CheckConnectivity: the source returns the JavaScript value of `isConnected && isInternetReachable`, which may be `null` or `undefined`. The model returns a boolean that is true only when both fields are present and true, which is how the callers' `if` reads the value.
