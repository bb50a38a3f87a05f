/**
 * The mobile client's durable store (`DatabaseService` in
 * mobile/services/Database.ts): three SQLite tables, `offline_actions`,
 * `patient_cache` and `audit_logs`, behind a lazily opened handle.
 *
 * The database file is a value, `DatabaseFile`. Each table is the sequence of
 * rows its query lists: `offline_actions` by `createdAt` ascending,
 * `patient_cache` by `lastUpdated` descending, `audit_logs` by `timestamp`
 * descending. SQL leaves the order of rows with equal timestamps open; here
 * equal-timestamp rows are in insertion order for the ascending listing and
 * newest first for the descending ones. Each operation is a pure function on
 * the file (`Enqueue`, `RemoveQueued`, `StorePatient`, `Log`). The class
 * `DatabaseService` holds the file in a field and its methods are proved
 * against those functions. SQLite's `unixepoch()` and `Date.now()` become the
 * `now` parameters.
 */
module Database {
  import opened Rows

  /** A row of `offline_actions`: a request kept for later delivery. */
  datatype QueuedAction = QueuedAction(id: int, endpoint: string, httpMethod: string, body: string, createdAt: int)

  /** A row of `patient_cache`: the serialized patient record under its id. */
  datatype CacheEntry = CacheEntry(id: string, data: string, lastUpdated: int)

  /** A row of `audit_logs`. */
  datatype AuditRecord = AuditRecord(id: int, action: string, details: string, timestamp: int)

  function ActionId(a: QueuedAction): int { a.id }
  function CreatedAt(a: QueuedAction): int { a.createdAt }
  function PatientId(e: CacheEntry): string { e.id }
  function LastUpdated(e: CacheEntry): int { e.lastUpdated }
  function AuditId(r: AuditRecord): int { r.id }
  function Timestamp(r: AuditRecord): int { r.timestamp }

  /** `getAuditLogs` reads at most this many records (`LIMIT 50`). */
  const AuditLogLimit: nat := 50

  /**
   * What the database file holds. `actionSeq` and `auditSeq` are the
   * AUTOINCREMENT counters SQLite keeps in `sqlite_sequence`: the largest id
   * ever issued in that table, whether or not its row still exists.
   */
  datatype DatabaseFile = DatabaseFile(
    actions: seq<QueuedAction>,
    actionSeq: nat,
    patients: seq<CacheEntry>,
    audit: seq<AuditRecord>,
    auditSeq: nat)
  {
    /** Primary keys are unique, AUTOINCREMENT ids are issued from 1 and never exceed the counter, and each listing is in its query's order. */
    ghost predicate Valid() {
      ActionsValid(actions, actionSeq) && PatientsValid(patients) && AuditValid(audit, auditSeq)
    }
  }

  ghost predicate ActionsValid(actions: seq<QueuedAction>, actionSeq: nat) {
    && Ascending(actions, CreatedAt)
    && Unique(actions, ActionId)
    && (forall i :: 0 <= i < |actions| ==> 0 < actions[i].id <= actionSeq)
  }

  ghost predicate PatientsValid(patients: seq<CacheEntry>) {
    Descending(patients, LastUpdated) && Unique(patients, PatientId)
  }

  ghost predicate AuditValid(audit: seq<AuditRecord>, auditSeq: nat) {
    && Descending(audit, Timestamp)
    && Unique(audit, AuditId)
    && (forall i :: 0 <= i < |audit| ==> 0 < audit[i].id <= auditSeq)
  }

  /** The file on a fresh install, once `init` has created the tables. */
  const EmptyFile := DatabaseFile([], 0, [], [], 0)

  lemma EmptyFileValid()
    ensures EmptyFile.Valid()
  {
  }

  // ---------------------------------------------------------------------
  // offline_actions
  // ---------------------------------------------------------------------

  /** The row `queueAction` inserts: the next AUTOINCREMENT id, the arguments, and the current time. */
  function NewAction(f: DatabaseFile, endpoint: string, httpMethod: string, body: string, now: int): QueuedAction
  {
    QueuedAction(f.actionSeq + 1, endpoint, httpMethod, body, now)
  }

  /**
   * `INSERT INTO offline_actions (endpoint, method, body)`: one new row with a
   * fresh id, every earlier row kept as it was and in its order, nothing else
   * in the file touched. Unless the clock went back, the row is appended.
   */
  function Enqueue(f: DatabaseFile, endpoint: string, httpMethod: string, body: string, now: int): (g: DatabaseFile)
    requires f.Valid()
    ensures g.Valid()
    ensures g.patients == f.patients && g.audit == f.audit && g.auditSeq == f.auditSeq
    ensures g.actionSeq == f.actionSeq + 1
    ensures multiset(g.actions) == multiset(f.actions) + multiset{QueuedAction(g.actionSeq, endpoint, httpMethod, body, now)}
    ensures forall i :: 0 <= i < |f.actions| ==> f.actions[i].id < g.actionSeq
    ensures RemoveKey(g.actions, ActionId, g.actionSeq) == f.actions
    ensures (forall i :: 0 <= i < |f.actions| ==> f.actions[i].createdAt <= now) ==>
              g.actions == f.actions + [QueuedAction(g.actionSeq, endpoint, httpMethod, body, now)]
  {
    var row := NewAction(f, endpoint, httpMethod, body, now);
    InsertActionValid(f.actions, f.actionSeq, row);
    f.(actions := InsertAscending(f.actions, row, CreatedAt), actionSeq := f.actionSeq + 1)
  }

  /** A row with the next AUTOINCREMENT id keeps the table valid wherever its timestamp puts it. */
  lemma InsertActionValid(actions: seq<QueuedAction>, actionSeq: nat, row: QueuedAction)
    requires ActionsValid(actions, actionSeq) && row.id == actionSeq + 1
    ensures ActionsValid(InsertAscending(actions, row, CreatedAt), actionSeq + 1)
    ensures RemoveKey(InsertAscending(actions, row, CreatedAt), ActionId, row.id) == actions
  {
    var i := AscendingSlot(actions, row.createdAt, CreatedAt);
    InsertKeepsUnique(actions, i, row, ActionId);
    SpliceThenRemove(actions, i, row, ActionId);
    var r := InsertAscending(actions, row, CreatedAt);
    forall j | 0 <= j < |r| ensures 0 < r[j].id <= actionSeq + 1 {
      if r[j] != row {
        var k :| 0 <= k < |actions| && actions[k] == r[j];
      }
    }
  }

  /**
   * `DELETE FROM offline_actions WHERE id = ?`: exactly the row with that id
   * goes, the others stay in their order; with no such row, nothing changes.
   */
  function RemoveQueued(f: DatabaseFile, id: int): (g: DatabaseFile)
    requires f.Valid()
    ensures g.Valid()
    ensures g == f.(actions := g.actions)
    ensures forall i :: 0 <= i < |f.actions| && f.actions[i].id == id ==> g.actions == f.actions[..i] + f.actions[i + 1..]
    ensures (forall i :: 0 <= i < |f.actions| ==> f.actions[i].id != id) ==> g == f
  {
    var actions := RemoveKey(f.actions, ActionId, id);
    SubsequenceAscending(actions, f.actions, CreatedAt);
    SubsequenceUnique(actions, f.actions, ActionId);
    RemoveKeyExactly(f.actions, ActionId, id);
    RemoveAbsentKey(f.actions, ActionId, id);
    f.(actions := actions)
  }

  // ---------------------------------------------------------------------
  // audit_logs
  // ---------------------------------------------------------------------

  /** The record `logAction` inserts. */
  function NewAuditRecord(f: DatabaseFile, action: string, details: string, now: int): AuditRecord
  {
    AuditRecord(f.auditSeq + 1, action, details, now)
  }

  /**
   * `INSERT INTO audit_logs`: the log only grows. Every earlier record is kept
   * as it was and in its order; unless the clock went back, the new record is
   * the newest.
   */
  function Log(f: DatabaseFile, action: string, details: string, now: int): (g: DatabaseFile)
    requires f.Valid()
    ensures g.Valid()
    ensures g.actions == f.actions && g.actionSeq == f.actionSeq && g.patients == f.patients
    ensures g.auditSeq == f.auditSeq + 1
    ensures multiset(g.audit) == multiset(f.audit) + multiset{AuditRecord(g.auditSeq, action, details, now)}
    ensures RemoveKey(g.audit, AuditId, g.auditSeq) == f.audit
    ensures (forall i :: 0 <= i < |f.audit| ==> f.audit[i].timestamp <= now) ==>
              g.audit == [AuditRecord(g.auditSeq, action, details, now)] + f.audit
  {
    var rec := NewAuditRecord(f, action, details, now);
    InsertAuditValid(f.audit, f.auditSeq, rec);
    f.(audit := InsertDescending(f.audit, rec, Timestamp), auditSeq := f.auditSeq + 1)
  }

  /** A record with the next AUTOINCREMENT id keeps the log valid wherever its timestamp puts it. */
  lemma InsertAuditValid(audit: seq<AuditRecord>, auditSeq: nat, rec: AuditRecord)
    requires AuditValid(audit, auditSeq) && rec.id == auditSeq + 1
    ensures AuditValid(InsertDescending(audit, rec, Timestamp), auditSeq + 1)
    ensures RemoveKey(InsertDescending(audit, rec, Timestamp), AuditId, rec.id) == audit
  {
    var i := DescendingSlot(audit, rec.timestamp, Timestamp);
    InsertKeepsUnique(audit, i, rec, AuditId);
    SpliceThenRemove(audit, i, rec, AuditId);
    var r := InsertDescending(audit, rec, Timestamp);
    forall j | 0 <= j < |r| ensures 0 < r[j].id <= auditSeq + 1 {
      if r[j] != rec {
        var k :| 0 <= k < |audit| && audit[k] == r[j];
      }
    }
  }

  /**
   * `SELECT * FROM audit_logs ORDER BY timestamp DESC LIMIT 50`: the 50 most
   * recent records, newest first; no record left out is newer than one read.
   */
  function RecentAudit(f: DatabaseFile): (r: seq<AuditRecord>)
    requires f.Valid()
    ensures |r| == if |f.audit| < AuditLogLimit then |f.audit| else AuditLogLimit
    ensures forall i :: 0 <= i < |r| ==> r[i] == f.audit[i]
    ensures Descending(r, Timestamp)
    ensures forall i, j :: 0 <= i < |r| <= j < |f.audit| ==> f.audit[j].timestamp <= r[i].timestamp
  {
    if |f.audit| < AuditLogLimit then f.audit else f.audit[..AuditLogLimit]
  }

  // ---------------------------------------------------------------------
  // patient_cache
  // ---------------------------------------------------------------------

  /**
   * `INSERT OR REPLACE INTO patient_cache`: afterwards exactly one entry has
   * the id, and it is the new snapshot; every other entry is kept as it was.
   * Unless the clock went back, the saved entry is listed first.
   */
  function Upsert(patients: seq<CacheEntry>, e: CacheEntry): (r: seq<CacheEntry>)
    requires PatientsValid(patients)
    ensures PatientsValid(r)
    ensures e in r
    ensures forall i :: 0 <= i < |r| && r[i].id == e.id ==> r[i] == e
    ensures forall i :: 0 <= i < |patients| && patients[i].id != e.id ==> patients[i] in r
    ensures forall i :: 0 <= i < |r| ==> r[i] == e || (r[i] in patients && r[i].id != e.id)
    ensures (forall i :: 0 <= i < |patients| ==> patients[i].lastUpdated <= e.lastUpdated) ==> r[0] == e
  {
    var others := RemoveKey(patients, PatientId, e.id);
    RemoveKeyMembers(patients, PatientId, e.id);
    SubsequenceDescending(others, patients, LastUpdated);
    SubsequenceUnique(others, patients, PatientId);
    SubsequenceMembers(others, patients);
    var i := DescendingSlot(others, e.lastUpdated, LastUpdated);
    InsertKeepsUnique(others, i, e, PatientId);
    InsertDescending(others, e, LastUpdated)
  }

  /**
   * `savePatient`: the upsert of the snapshot, then the audit record
   * `('PATIENT_SAVE', 'Saved patient <id>')`, written with its own clock reading.
   */
  function StorePatient(f: DatabaseFile, id: string, data: string, savedAt: int, loggedAt: int): (g: DatabaseFile)
    requires f.Valid()
    ensures g.Valid()
    ensures g.actions == f.actions && g.actionSeq == f.actionSeq
    ensures g.patients == Upsert(f.patients, CacheEntry(id, data, savedAt))
    ensures g == Log(f.(patients := g.patients), "PATIENT_SAVE", "Saved patient " + id, loggedAt)
  {
    var cached := f.(patients := Upsert(f.patients, CacheEntry(id, data, savedAt)));
    Log(cached, "PATIENT_SAVE", "Saved patient " + id, loggedAt)
  }

  /** `getPatients`: the cached snapshots, most recently updated first. */
  function PatientSnapshots(patients: seq<CacheEntry>): (r: seq<string>)
    ensures |r| == |patients|
    ensures forall i :: 0 <= i < |r| ==> r[i] == patients[i].data
  {
    if patients == [] then [] else [patients[0].data] + PatientSnapshots(patients[1..])
  }

  // ---------------------------------------------------------------------
  // Properties relating several operations
  // ---------------------------------------------------------------------

  /**
   * AUTOINCREMENT never hands out an id again, even after its row was
   * deleted: the id an enqueue issues exceeds every id the table ever held.
   */
  lemma RemovedIdNotReissued(f: DatabaseFile, k: nat, endpoint: string, httpMethod: string, body: string, now: int)
    requires f.Valid()
    requires k < |f.actions|
    ensures var g := Enqueue(RemoveQueued(f, f.actions[k].id), endpoint, httpMethod, body, now);
      f.actions[k].id < g.actionSeq && forall i :: 0 <= i < |g.actions| ==> g.actions[i].id <= g.actionSeq
  {
  }

  /** One `queueAction` call: its arguments and the time it ran. */
  datatype QueueCall = QueueCall(endpoint: string, httpMethod: string, body: string, now: int)

  /** No row of the listing is newer than `now`. */
  ghost predicate NoneNewer(actions: seq<QueuedAction>, now: int) {
    forall i :: 0 <= i < |actions| ==> actions[i].createdAt <= now
  }

  /** The calls ran while the clock did not go back: their times never decrease, and none is older than a row already queued. */
  ghost predicate ClockForward(actions: seq<QueuedAction>, calls: seq<QueueCall>) {
    && (forall i, j :: 0 <= i < j < |calls| ==> calls[i].now <= calls[j].now)
    && (calls != [] ==> NoneNewer(actions, calls[0].now))
  }

  /** The rows that `calls` create, with consecutive ids from `id`, each at its own call's time. */
  function NewRows(id: int, calls: seq<QueueCall>): (rows: seq<QueuedAction>)
    ensures |rows| == |calls|
    decreases |calls|
  {
    if calls == [] then []
    else [QueuedAction(id, calls[0].endpoint, calls[0].httpMethod, calls[0].body, calls[0].now)] + NewRows(id + 1, calls[1..])
  }

  /** The `j`-th call becomes the row with id `id + j`, carrying that call's arguments and time. */
  lemma {:induction false} NewRowsInOrder(id: int, calls: seq<QueueCall>)
    ensures forall j :: 0 <= j < |calls| ==>
              NewRows(id, calls)[j] == QueuedAction(id + j, calls[j].endpoint, calls[j].httpMethod, calls[j].body, calls[j].now)
    decreases |calls|
  {
    if calls != [] {
      NewRowsInOrder(id + 1, calls[1..]);
      forall j | 0 < j < |calls|
        ensures NewRows(id, calls)[j] == QueuedAction(id + j, calls[j].endpoint, calls[j].httpMethod, calls[j].body, calls[j].now)
      {
        assert calls[1..][j - 1] == calls[j];
      }
    }
  }

  /** The state after running `calls` one after another. */
  function EnqueueAll(f: DatabaseFile, calls: seq<QueueCall>): (g: DatabaseFile)
    requires f.Valid()
    ensures g.Valid() && g.actionSeq == f.actionSeq + |calls|
    decreases |calls|
  {
    if calls == [] then f
    else EnqueueAll(Enqueue(f, calls[0].endpoint, calls[0].httpMethod, calls[0].body, calls[0].now), calls[1..])
  }

  /** Queueing while the clock has not gone back appends the row; the rest of the calls still run with the clock forward. */
  lemma EnqueueOnTime(f: DatabaseFile, calls: seq<QueueCall>)
    requires f.Valid() && calls != []
    requires ClockForward(f.actions, calls)
    ensures var e := Enqueue(f, calls[0].endpoint, calls[0].httpMethod, calls[0].body, calls[0].now);
      && e.actions == f.actions + [QueuedAction(f.actionSeq + 1, calls[0].endpoint, calls[0].httpMethod, calls[0].body, calls[0].now)]
      && ClockForward(e.actions, calls[1..])
  {
    var e := Enqueue(f, calls[0].endpoint, calls[0].httpMethod, calls[0].body, calls[0].now);
    if |calls| > 1 {
      assert calls[1..][0] == calls[1];
      assert calls[0].now <= calls[1].now;
      forall i | 0 <= i < |e.actions| ensures e.actions[i].createdAt <= calls[1].now {
        if i < |f.actions| { assert e.actions[i] == f.actions[i]; }
      }
    }
  }

  /**
   * While the clock does not go back, actions are listed in the order they
   * were queued: after any run of `queueAction` calls, the listing is the old
   * one followed by the new rows in call order. The table is a FIFO queue.
   */
  lemma {:induction false} QueueIsFifo(f: DatabaseFile, calls: seq<QueueCall>)
    requires f.Valid()
    requires ClockForward(f.actions, calls)
    ensures EnqueueAll(f, calls).actions == f.actions + NewRows(f.actionSeq + 1, calls)
    decreases |calls|
  {
    if calls == [] {
      assert f.actions + [] == f.actions;
    } else {
      EnqueueOnTime(f, calls);
      var e := Enqueue(f, calls[0].endpoint, calls[0].httpMethod, calls[0].body, calls[0].now);
      QueueIsFifo(e, calls[1..]);
      EnqueueAllFirst(f, e, calls);
      var row := QueuedAction(f.actionSeq + 1, calls[0].endpoint, calls[0].httpMethod, calls[0].body, calls[0].now);
      NewRowsFirst(f.actionSeq + 1, e.actionSeq + 1, calls);
      AppendChain(EnqueueAll(e, calls[1..]).actions, e.actions, NewRows(e.actionSeq + 1, calls[1..]),
                  f.actions, row, NewRows(f.actionSeq + 1, calls));
    }
  }

  /** Running a non-empty run of calls is running the first, then the rest. */
  lemma EnqueueAllFirst(f: DatabaseFile, e: DatabaseFile, calls: seq<QueueCall>)
    requires f.Valid() && calls != []
    requires e == Enqueue(f, calls[0].endpoint, calls[0].httpMethod, calls[0].body, calls[0].now)
    ensures EnqueueAll(f, calls) == EnqueueAll(e, calls[1..])
  {
  }

  /** The first of the new rows carries the first call. */
  lemma NewRowsFirst(id: int, next: int, calls: seq<QueueCall>)
    requires calls != [] && next == id + 1
    ensures NewRows(id, calls)
              == [QueuedAction(id, calls[0].endpoint, calls[0].httpMethod, calls[0].body, calls[0].now)] + NewRows(next, calls[1..])
  {
  }

  /** After saving a patient at a time later than every cached entry, its snapshot is listed first. */
  lemma SavedPatientListedFirst(f: DatabaseFile, id: string, data: string, savedAt: int, loggedAt: int)
    requires f.Valid()
    requires forall e :: e in f.patients ==> e.lastUpdated < savedAt
    ensures var g := StorePatient(f, id, data, savedAt, loggedAt);
      |PatientSnapshots(g.patients)| > 0 && PatientSnapshots(g.patients)[0] == data
  {
  }

  /** Saving a patient already cached replaces its entry; saving a new one adds exactly one entry. */
  lemma UpsertSize(patients: seq<CacheEntry>, e: CacheEntry)
    requires PatientsValid(patients)
    ensures (exists i :: 0 <= i < |patients| && patients[i].id == e.id) ==> |Upsert(patients, e)| == |patients|
    ensures (forall i :: 0 <= i < |patients| ==> patients[i].id != e.id) ==> |Upsert(patients, e)| == |patients| + 1
  {
    RemoveKeyExactly(patients, PatientId, e.id);
    RemoveAbsentKey(patients, PatientId, e.id);
  }

  /** One `logAction` call: its arguments and the time it ran. */
  datatype LogCall = LogCall(action: string, details: string, now: int)

  /** Once a record is logged and more records follow, the record is still there, unchanged. */
  lemma {:induction false} LoggedRecordsPersist(f: DatabaseFile, entries: seq<LogCall>, r: AuditRecord)
    requires f.Valid() && r in f.audit
    ensures r in LogAll(f, entries).audit
    decreases |entries|
  {
    if entries != [] {
      var g := Log(f, entries[0].action, entries[0].details, entries[0].now);
      assert r in multiset(f.audit);
      assert r in multiset(g.audit);
      LoggedRecordsPersist(g, entries[1..], r);
    }
  }

  /** Logging `entries` one after another. */
  function LogAll(f: DatabaseFile, entries: seq<LogCall>): (g: DatabaseFile)
    requires f.Valid()
    ensures g.Valid()
    ensures |g.audit| == |f.audit| + |entries|
    decreases |entries|
  {
    if entries == [] then f
    else LogAll(Log(f, entries[0].action, entries[0].details, entries[0].now), entries[1..])
  }

  /** A record logged at a time later than every earlier record heads what `getAuditLogs` returns. */
  lemma LoggedRecordReadFirst(f: DatabaseFile, action: string, details: string, now: int)
    requires f.Valid()
    requires forall r :: r in f.audit ==> r.timestamp < now
    ensures var g := Log(f, action, details, now);
      RecentAudit(g)[0] == AuditRecord(g.auditSeq, action, details, now)
  {
  }

  // ---------------------------------------------------------------------
  // The store object
  // ---------------------------------------------------------------------

  /**
   * The `DatabaseService` object. `handleOpen` says whether the `db` handle is
   * set; `file` is what the database file holds. Every data
   * operation first runs `init` when the handle is not set, so it behaves the
   * same whether or not `init` ran before.
   */
  class DatabaseService {
    /** Whether `init` has opened the SQLite handle (`this.db` is set). */
    var handleOpen: bool
    /** The database file `gemini_clinic.db`, which outlives the handle. */
    var file: DatabaseFile

    ghost predicate Valid()
      reads this`file
    {
      file.Valid()
    }

    /** `new DatabaseService()` in a process that finds `file` on disk: the handle is not yet open. */
    constructor (file: DatabaseFile)
      requires file.Valid()
      ensures Valid() && !handleOpen && this.file == file
    {
      handleOpen := false;
      this.file := file;
    }

    /** `init`: opens the handle; `CREATE TABLE IF NOT EXISTS` keeps every existing row. */
    method Init()
      modifies this`handleOpen
      ensures handleOpen
    {
      handleOpen := true;
    }

    /** `queueAction`: stores the action with a fresh id and the current time. */
    method QueueAction(endpoint: string, httpMethod: string, body: string, now: int)
      requires Valid()
      modifies this
      ensures Valid() && handleOpen
      ensures file == Enqueue(old(file), endpoint, httpMethod, body, now)
    {
      if !handleOpen { Init(); }
      file := Enqueue(file, endpoint, httpMethod, body, now);
    }

    /** `getQueuedActions`: every pending action, oldest first. */
    method GetQueuedActions() returns (rows: seq<QueuedAction>)
      requires Valid()
      modifies this`handleOpen
      ensures handleOpen
      ensures rows == file.actions && Ascending(rows, CreatedAt) && Unique(rows, ActionId)
    {
      if !handleOpen { Init(); }
      rows := file.actions;
    }

    /** `removeAction`: deletes the action with that id, if there is one. */
    method RemoveAction(id: int)
      requires Valid()
      modifies this
      ensures Valid() && handleOpen
      ensures file == RemoveQueued(old(file), id)
    {
      if !handleOpen { Init(); }
      file := RemoveQueued(file, id);
    }

    /** `savePatient`: caches the snapshot and logs the save. */
    method SavePatient(id: string, data: string, savedAt: int, loggedAt: int)
      requires Valid()
      modifies this
      ensures Valid() && handleOpen
      ensures file == StorePatient(old(file), id, data, savedAt, loggedAt)
    {
      if !handleOpen { Init(); }
      file := file.(patients := Upsert(file.patients, CacheEntry(id, data, savedAt)));
      // logAction runs without being awaited; the store has no failures to lose
      LogAction("PATIENT_SAVE", "Saved patient " + id, loggedAt);
    }

    /** `getPatients`: the cached snapshots, most recently updated first. */
    method GetPatients() returns (snapshots: seq<string>)
      requires Valid()
      modifies this`handleOpen
      ensures handleOpen
      ensures snapshots == PatientSnapshots(file.patients) && Descending(file.patients, LastUpdated)
    {
      if !handleOpen { Init(); }
      snapshots := PatientSnapshots(file.patients);
    }

    /** `logAction`: adds one audit record. */
    method LogAction(action: string, details: string, now: int)
      requires Valid()
      modifies this
      ensures Valid() && handleOpen
      ensures file == Log(old(file), action, details, now)
    {
      if !handleOpen { Init(); }
      file := Log(file, action, details, now);
    }

    /** `getAuditLogs`: the 50 most recent audit records, newest first. */
    method GetAuditLogs() returns (records: seq<AuditRecord>)
      requires Valid()
      modifies this`handleOpen
      ensures handleOpen
      ensures records == RecentAudit(file)
    {
      if !handleOpen { Init(); }
      records := RecentAudit(file);
    }
  }
}
