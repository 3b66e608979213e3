// The task database as a value: the versioned ledger, the projection outbox, the
// derived view and the owner reservations, and each immediate transaction as one
// function on them.  A transaction that fails leaves the database as it was.
module StoreModel {
  import opened Prelude
  import opened DurableTasks
  import opened RowCodec
  import Decimal

  const SCHEMA_VERSION: int := 1
  const MAX_RETAINED_TASKS: nat := 4096
  const LEGACY_STATE: string := "legacy_identity_unavailable"

  datatype Pending = Pending(version: Version, json: Text<WireTask>)

  datatype ViewRow = ViewRow(
    contextId: string, state: WireState, stamp: Option<int>, version: Version, json: Text<WireTask>)

  datatype Owner = Owner(registration: string, recipient: Option<string>)

  datatype Database = Database(
    schema: int,
    ledger: map<string, Row>,
    outbox: map<string, Pending>,
    view: map<string, ViewRow>,
    owners: map<string, Owner>,
    epoch: string,
    firstStart: I64)

  function Count(ids: set<string>): nat { |ids| }

  // ----- What a ledger row demands of the view ------------------------------

  function ViewOf(w: WireTask, version: Version): ViewRow {
    ViewRow(w.contextId, w.state, w.timestamp, version, Canonical(w))
  }

  /** The view row a retained ledger row demands, or `None` when the row is
      quarantined, does not decode or has no projection. */
  function Demanded(id: string, row: Row): Option<ViewRow> {
    match Decode(id, row)
    case None => None
    case Some(t) =>
      match Project(t)
      case None => None
      case Some(w) => Some(ViewOf(w, row.version))
  }

  /** `validate_outbox_entry`. */
  predicate EntryValid(db: Database, id: string)
    requires id in db.outbox
  {
    && id in db.ledger
    && var demanded := Demanded(id, db.ledger[id]);
    && demanded.Some?
    && db.outbox[id] == Pending(db.ledger[id].version, demanded.value.json)
  }

  predicate ViewCurrent(db: Database, id: string)
    requires id in db.ledger
  {
    id in db.view && Demanded(id, db.ledger[id]) == Some(db.view[id])
  }

  // ----- Applying a projection ----------------------------------------------

  datatype Applied = Applied(db: Database, version: Version) | NotAuthorized | Invalid

  /** `apply_authorized_projection`. */
  function ApplyAuthorized(db: Database, w: WireTask): Applied {
    var id := w.id;
    if id !in db.outbox then
      if id in db.view && db.view[id].json == Canonical(w) then Applied(db, db.view[id].version)
      else NotAuthorized
    else if !EntryValid(db, id) then Invalid
    else if db.outbox[id].json != Canonical(w) then NotAuthorized
    else
      var version := db.outbox[id].version;
      if id in db.view && db.view[id].version > version then Invalid
      else Applied(db.(view := db.view[id := ViewOf(w, version)], outbox := db.outbox - {id}), version)
  }

  /** `clean_authoritative_projection`. */
  function CleanAuthority(db: Database, id: string): Option<DurableTask> {
    if id !in db.outbox && id in db.ledger && ViewCurrent(db, id) then Decode(id, db.ledger[id])
    else None
  }

  /** One outbox entry the drain can apply. */
  predicate Drainable(db: Database, id: string)
    requires id in db.outbox
  {
    && EntryValid(db, id)
    && (id in db.view ==> db.view[id].version <= db.outbox[id].version)
  }

  /** `apply_pending_projections_on_connection`: every entry or none. */
  function DrainTx(db: Database): Option<Database> {
    if db.schema == SCHEMA_VERSION && forall id :: id in db.outbox ==> Drainable(db, id) then
      Some(Drained(db))
    else None
  }

  function Drained(db: Database): Database
    requires forall id :: id in db.outbox ==> EntryValid(db, id)
  {
    db.(outbox := map[],
        view := map id | id in db.view.Keys + db.outbox.Keys ::
                  if id in db.outbox then (assert EntryValid(db, id); Demanded(id, db.ledger[id]).value)
                  else db.view[id])
  }

  // ----- Commit -------------------------------------------------------------

  datatype Batch = Batch(epoch: Option<U64>, upserts: seq<DurableTask>, deletes: seq<string>)

  datatype Commit = Committed(db: Database) | Reconcile | Refused

  function Ids(db: Database): set<string> { db.ledger.Keys + db.owners.Keys }

  function Purge(db: Database, ids: set<string>): Database {
    db.(ledger := db.ledger - ids, outbox := db.outbox - ids,
        view := db.view - ids, owners := db.owners - ids)
  }

  function BatchIds(ts: seq<DurableTask>): set<string> { set i | 0 <= i < |ts| :: ts[i].taskId }

  function UpsertOne(db: Database, t: DurableTask): Commit {
    var id := t.taskId;
    if Project(t).None? || Encode(t).None? || (id in db.ledger && db.ledger[id].quarantined) then Refused
    else
      var row := Encode(t).value;
      if id !in db.ledger || row.version > db.ledger[id].version then
        var entry := Pending(row.version, Canonical(Project(t).value));
        var outbox :=
          if id !in db.outbox || entry.version > db.outbox[id].version then db.outbox[id := entry]
          else db.outbox;
        Committed(db.(ledger := db.ledger[id := row], outbox := outbox))
      else
        match Decode(id, db.ledger[id])
        case None => Refused
        case Some(stored) => if stored == t then Committed(db) else Reconcile
  }

  function Upserts(db: Database, ts: seq<DurableTask>): Commit {
    if ts == [] then Committed(db)
    else
      match Upserts(db, ts[..|ts| - 1])
      case Committed(d) => UpsertOne(d, ts[|ts| - 1])
      case r => r
  }

  function RaiseEpoch(db: Database, epoch: Option<U64>): Option<Database> {
    match epoch
    case None => Some(db)
    case Some(e) =>
      match Decimal.Parse(db.epoch)
      case None => None
      case Some(current) => Some(if e > current then db.(epoch := Decimal.Text(e)) else db)
  }

  predicate Fits(db: Database, ts: seq<DurableTask>) {
    Count(Ids(db)) + Count(BatchIds(ts) - Ids(db)) <= MAX_RETAINED_TASKS
  }

  function IdSet(ids: seq<string>): set<string> { set i | 0 <= i < |ids| :: ids[i] }

  /** The ledger transaction of `commit`, before its drain. */
  function CommitTx(db: Database, b: Batch): Commit {
    if (exists i :: 0 <= i < |b.upserts| && Project(b.upserts[i]).None?) ||
       db.schema != SCHEMA_VERSION ||
       RaiseEpoch(db, b.epoch).None? ||
       (exists i :: 0 <= i < |b.deletes| && !ValidTaskId(b.deletes[i]))
    then Refused
    else
      var purged := Purge(RaiseEpoch(db, b.epoch).value, IdSet(b.deletes));
      if Fits(purged, b.upserts) then Upserts(purged, b.upserts) else Refused
  }

  // ----- Startup ------------------------------------------------------------

  function QuarantineRow(contextId: Option<string>, recipient: string, at: I64, version: Version,
                         retainUntil: I64): Row {
    Row(contextId, None, recipient, None, at, at, LEGACY_STATE, version, None, None, 0, None, None,
        Some(at), Some(retainUntil), true)
  }

  predicate QuarantineForm(row: Row) {
    row.quarantined && row.sender.None? && row.state == LEGACY_STATE && row.retainUntil.Some?
  }

  function Retention(at: int): Option<I64> {
    if -0x8000_0000_0000_0000 <= at <= MAX_I64 then CheckedAdd(at, TERMINAL_RETENTION_MS) else None
  }

  function ParsedTask(json: Text<WireTask>): Option<WireTask> {
    match json
    case Canonical(w) => Some(w)
    case NonCanonical(w, _) => Some(w)
    case Malformed(_) => None
  }

  predicate ValidOwner(db: Database, id: string) {
    && ValidTaskId(id)
    && id in db.owners
    && db.owners[id].recipient.Some?
    && ValidAgentName(db.owners[id].recipient.value)
  }

  /** A legacy task row the migration accepts. */
  predicate Migratable(db: Database, id: string)
    requires id in db.view
  {
    var row := db.view[id];
    && ValidOwner(db, id)
    && ValidTaskId(row.contextId)
    && ParsedTask(row.json).Some?
    && ParsedTask(row.json).value.id == id
    && ParsedTask(row.json).value.contextId == row.contextId
    && row.stamp.Some?
    && Retention(row.stamp.value).Some?
  }

  function Legacy(db: Database, id: string): Row
    requires id in db.view && Migratable(db, id)
  {
    var row := db.view[id];
    QuarantineRow(Some(row.contextId), db.owners[id].recipient.value, row.stamp.value, row.version,
                  Retention(row.stamp.value).value)
  }

  function Tombstone(db: Database, id: string, at: I64): Row
    requires ValidOwner(db, id) && Retention(at).Some?
  {
    QuarantineRow(None, db.owners[id].recipient.value, at, 1, Retention(at).value)
  }

  /** `migrate_schema`. */
  function MigrateTx(db: Database, now: I64): Option<Database> {
    if db.schema == SCHEMA_VERSION then Some(db)
    else if || db.schema != 0
            || Retention(now).None?
            || (exists id :: id in db.view && !Migratable(db, id))
            || (exists id :: id in db.owners && !ValidOwner(db, id))
            || Count(db.view.Keys + db.owners.Keys) > MAX_RETAINED_TASKS
    then None
    else
      Some(Database(
        SCHEMA_VERSION,
        map id | id in db.view.Keys + db.owners.Keys ::
          if id in db.view then Legacy(db, id) else Tombstone(db, id, now),
        map[], db.view, db.owners, "0", now))
  }

  function OwnerOnly(db: Database): set<string> { db.owners.Keys - db.view.Keys - db.ledger.Keys }

  /** `quarantine_owner_only_rows`. */
  function QuarantineTx(db: Database): Option<Database> {
    if || db.schema != SCHEMA_VERSION
       || db.firstStart < 0
       || Retention(db.firstStart).None?
       || Count(db.ledger.Keys) + Count(OwnerOnly(db)) > MAX_RETAINED_TASKS
       || (exists id :: id in OwnerOnly(db) && !ValidOwner(db, id))
    then None
    else
      Some(db.(ledger := db.ledger + map id | id in OwnerOnly(db) :: Tombstone(db, id, db.firstStart)))
  }

  predicate Lapsed(row: Row, now: I64) {
    row.quarantined && row.retainUntil.Some? && row.retainUntil.value <= now
  }

  function LapsedIds(db: Database, now: I64): set<string> {
    set id | id in db.ledger && Lapsed(db.ledger[id], now)
  }

  /** `prune_quarantined`. */
  function PruneTx(db: Database, now: I64): Option<Database> {
    if db.schema == SCHEMA_VERSION then Some(Purge(db, LapsedIds(db, now))) else None
  }

  /** `validate_store`. */
  predicate ValidateStore(db: Database) {
    && db.schema == SCHEMA_VERSION
    && Count(db.ledger.Keys) <= MAX_RETAINED_TASKS
    && (forall id :: id in db.ledger && db.ledger[id].quarantined ==> QuarantineForm(db.ledger[id]))
    && Count(db.outbox.Keys) <= Count(db.ledger.Keys)
    && (forall id :: id in db.outbox ==> EntryValid(db, id))
    && (forall id :: id in db.ledger && !db.ledger[id].quarantined ==>
          Demanded(id, db.ledger[id]).Some? && (ViewCurrent(db, id) || id in db.outbox))
  }

  datatype Startup = Ready(db: Database) | Halted(db: Database)

  /** The end of `prepare_startup`: prune, validate, drain. */
  function FinishStartup(db: Database, now: I64): Startup {
    match PruneTx(db, now)
    case None => Halted(db)
    case Some(pruned) =>
      if !ValidateStore(pruned) then Halted(pruned)
      else
        match DrainTx(pruned)
        case None => Halted(pruned)
        case Some(drained) => Ready(drained)
  }

  /** `prepare_startup`: four transactions in a row, with the store validated before
      the last one; a refusal stops there and keeps what was already committed. */
  function StartupRun(db: Database, now: I64): Startup {
    if now < 0 then Halted(db)
    else
      match MigrateTx(db, now)
      case None => Halted(db)
      case Some(migrated) =>
        match QuarantineTx(migrated)
        case None => Halted(migrated)
        case Some(closed) => FinishStartup(closed, now)
  }

  // ----- Owner reservations -------------------------------------------------

  datatype ClaimRequest = ClaimRequest(taskId: string, registration: string, recipient: string, cutoff: int)

  datatype Claim = Claimed(db: Database) | AlreadyMine(db: Database) | Full(db: Database) | Declined

  predicate TerminalBefore(row: ViewRow, cutoff: int) {
    && row.state in {Completed, WireCanceled, WireFailed, WireRejected}
    && (row.stamp.None? || row.stamp.value <= cutoff)
  }

  function OldTerminal(db: Database, cutoff: int): set<string> {
    set id | id in db.view && TerminalBefore(db.view[id], cutoff)
  }

  /** `claim_task_owner`; the sweep of old terminal rows is kept even when the claim
      is then refused for lack of room. */
  function ClaimTx(db: Database, c: ClaimRequest): Claim {
    if db.schema == SCHEMA_VERSION && c.taskId in db.ledger then Declined
    else
      var lapsed := OldTerminal(db, c.cutoff);
      var swept := db.(owners := db.owners - lapsed, view := db.view - lapsed);
      var mine := Owner(c.registration, Some(c.recipient));
      if c.taskId in swept.owners then
        if swept.owners[c.taskId] == mine then AlreadyMine(swept) else Declined
      else if Count(if db.schema == SCHEMA_VERSION then Ids(swept) else swept.owners.Keys) >= MAX_RETAINED_TASKS
      then Full(swept)
      else if c.taskId in swept.view then Declined
      else Claimed(swept.(owners := swept.owners[c.taskId := mine]))
  }

  /** `remove_task_owner_if_unpersisted`. */
  function ReleaseTx(db: Database, id: string, registration: string): Database {
    if id in db.owners && db.owners[id].registration == registration && id !in db.view then
      db.(owners := db.owners - {id})
    else db
  }

  // ----- SDK writes ---------------------------------------------------------

  /** The tables' part of `apply_sdk_projection`: a projection that is not current
      changes no table, whether or not an admission lets it through. */
  function SdkTx(db: Database, w: WireTask): Database {
    if db.schema != SCHEMA_VERSION then db
    else
      match ApplyAuthorized(db, w)
      case Applied(d, version) =>
        var clean := CleanAuthority(d, w.id);
        if clean.Some? && clean.value.version == version then d else db
      case _ => db
  }

  // ----- Runs ---------------------------------------------------------------

  datatype Event =
    | Migrate(now: I64)
    | QuarantineOwners
    | Prune(now: I64)
    | CommitLedger(batch: Batch)
    | Drain
    | SdkWrite(wire: WireTask)
    | ClaimOwner(request: ClaimRequest)
    | ReleaseOwner(taskId: string, registration: string)

  function OrElse(next: Option<Database>, db: Database): Database {
    match next
    case Some(d) => d
    case None => db
  }

  /** One committed or failed transaction.  A crash is a run that stops between two
      events, or inside one, where the rollback leaves the database as before. */
  function Step(db: Database, e: Event): Database {
    match e
    case Migrate(now) => if now < 0 then db else OrElse(MigrateTx(db, now), db)
    case QuarantineOwners => OrElse(QuarantineTx(db), db)
    case Prune(now) => OrElse(PruneTx(db, now), db)
    case CommitLedger(batch) =>
      (match CommitTx(db, batch)
       case Committed(d) => d
       case _ => db)
    case Drain => OrElse(DrainTx(db), db)
    case SdkWrite(wire) => SdkTx(db, wire)
    case ClaimOwner(request) =>
      (match ClaimTx(db, request)
       case Claimed(d) => d
       case AlreadyMine(d) => d
       case Full(d) => d
       case Declined => db)
    case ReleaseOwner(id, registration) => ReleaseTx(db, id, registration)
  }

  function Run(db: Database, events: seq<Event>): Database {
    if events == [] then db else Step(Run(db, events[..|events| - 1]), events[|events| - 1])
  }
}
