// The store as it runs: transactions that read and write the tables row by row.  A
// transaction works on a copy of the database and publishes it when SQLite commits;
// `durable` says whether that commit succeeded.
module TaskStores {
  import opened Prelude
  import opened DurableTasks
  import opened RowCodec
  import opened StoreModel
  import opened StoreInvariant
  import opened StoreRefinement
  import opened Admissions
  import opened AdmissionRegistries
  import StoreCommits
  import StoreMeaning
  import LegacyRows
  import Decimal

  datatype Outcome = Complete | ReconciliationRequired | Unavailable

  // ----- Row-level statements -----------------------------------------------

  lemma DemandedShape(id: string, row: Row)
    ensures Demanded(id, row).Some? ==>
              var v := Demanded(id, row).value;
              v.version == row.version && v.json.Canonical? && v.json.value.id == id &&
              v == ViewOf(v.json.value, row.version)
  {
  }

  /** Applies one projection: the guarded upsert, the read-back check, the delete. */
  method ApplyProjection(tx: Database, w: WireTask) returns (r: Applied)
    ensures r == ApplyAuthorized(tx, w)
    ensures r.NotAuthorized? <==> StaleAt(tx, w)
    ensures r.Applied? <==> PendingIs(tx, w) || (w.id !in tx.outbox && w.id in tx.view && tx.view[w.id].json == Canonical(w))
  {
    AppliesIff(tx, w);
    hide Demanded;
    var id := w.id;
    if id !in tx.outbox {
      if id in tx.view && tx.view[id].json == Canonical(w) {
        return Applied(tx, tx.view[id].version);
      }
      return NotAuthorized;
    }
    var entry := tx.outbox[id];
    if !EntryValid(tx, id) {
      return Invalid;
    }
    if entry.json != Canonical(w) {
      return NotAuthorized;
    }
    var view := tx.view;
    if id !in view || entry.version >= view[id].version {
      view := view[id := ViewOf(w, entry.version)];
    }
    if view[id] != ViewOf(w, entry.version) {
      return Invalid;
    }
    r := Applied(tx.(view := view, outbox := tx.outbox - {id}), entry.version);
  }

  /** Writes one task: insert, or update when its version is greater; a suppressed
      write must find exactly its own task stored. */
  method UpsertTask(tx: Database, t: DurableTask) returns (r: Commit)
    ensures r == UpsertOne(tx, t)
    ensures r.Committed? <==> StoreMeaning.Keepable(t) && StoreMeaning.Welcome(tx, t)
    ensures r.Reconcile? <==> StoreMeaning.Keepable(t) && StoreMeaning.Conflicts(tx, t)
    ensures r.Committed? ==> StoreMeaning.Stores(r.db, t)
  {
    StoreMeaning.UpsertOutcome(tx, t);
    if UpsertOne(tx, t).Committed? { StoreMeaning.UpsertStores(tx, t); }
    hide StoreMeaning.Keepable; hide StoreMeaning.Welcome; hide StoreMeaning.Conflicts; hide StoreMeaning.Stores;
    hide ValidForStore; hide Project; hide Encode; hide Decode;
    var id := t.taskId;
    var wire := Project(t);
    if wire.None? {
      return Refused;
    }
    if id in tx.ledger && tx.ledger[id].quarantined {
      return Refused;
    }
    var encoded := Encode(t);
    if encoded.None? {
      return Refused;
    }
    var row := encoded.value;
    if id in tx.ledger && !(row.version > tx.ledger[id].version) {
      var stored := Decode(id, tx.ledger[id]);
      if stored.None? {
        return Refused;
      }
      return if stored.value == t then Committed(tx) else Reconcile;
    }
    var outbox := tx.outbox;
    if id !in outbox || row.version > outbox[id].version {
      outbox := outbox[id := Pending(row.version, Canonical(wire.value))];
    }
    r := Committed(tx.(ledger := tx.ledger[id := row], outbox := outbox));
  }

  method AllProject(ts: seq<DurableTask>) returns (ok: bool)
    ensures ok <==> !exists i :: 0 <= i < |ts| && Project(ts[i]).None?
  {
    hide Project;
    for i := 0 to |ts|
      invariant forall j :: 0 <= j < i ==> Project(ts[j]).Some?
    {
      if Project(ts[i]).None? {
        return false;
      }
    }
    ok := true;
  }

  method DeleteRows(tx: Database, ids: seq<string>) returns (r: Option<Database>)
    ensures r == if exists i :: 0 <= i < |ids| && !ValidTaskId(ids[i]) then None else Some(Purge(tx, IdSet(ids)))
  {
    hide ValidTaskId;
    var d := tx;
    assert IdSet(ids[..0]) == {} && Purge(tx, {}) == tx;
    for i := 0 to |ids|
      invariant d == Purge(tx, IdSet(ids[..i]))
      invariant forall j :: 0 <= j < i ==> ValidTaskId(ids[j])
    {
      if !ValidTaskId(ids[i]) {
        return None;
      }
      d := d.(outbox := d.outbox - {ids[i]});
      d := d.(ledger := d.ledger - {ids[i]});
      d := d.(owners := d.owners - {ids[i]});
      d := d.(view := d.view - {ids[i]});
      assert IdSet(ids[..i + 1]) == IdSet(ids[..i]) + {ids[i]};
      PurgeMore(tx, IdSet(ids[..i]), ids[i]);
    }
    assert ids[..|ids|] == ids;
    r := Some(d);
  }

  lemma PurgeMore(db: Database, ids: set<string>, id: string)
    ensures Purge(Purge(db, ids), {id}) == Purge(db, ids + {id})
  {
    var a, b := Purge(Purge(db, ids), {id}), Purge(db, ids + {id});
    assert a.ledger == b.ledger && a.outbox == b.outbox && a.view == b.view && a.owners == b.owners;
  }

  /** The capacity check: retained ids plus the batch's distinct new ones. */
  method CountFits(tx: Database, ts: seq<DurableTask>) returns (ok: bool)
    ensures ok == Fits(tx, ts)
  {
    hide Count;
    var retained := Count(tx.ledger.Keys) + Count(tx.owners.Keys - tx.ledger.Keys);
    UnionCount(tx.ledger.Keys, tx.owners.Keys);
    var seen: set<string>, added := {}, 0;
    EmptyCount();
    assert BatchIds(ts[..0]) == {} && {} - Ids(tx) == {};
    for i := 0 to |ts|
      invariant seen == BatchIds(ts[..i]) && added == Count(seen - Ids(tx))
    {
      var id := ts[i].taskId;
      assert BatchIds(ts[..i + 1]) == BatchIds(ts[..i]) + {id};
      if id !in seen {
        if id !in tx.ledger && id !in tx.owners {
          NewCount(seen - Ids(tx), id);
          assert seen + {id} - Ids(tx) == seen - Ids(tx) + {id};
          added := added + 1;
        } else {
          assert seen + {id} - Ids(tx) == seen - Ids(tx);
        }
      } else {
        assert seen + {id} == seen;
      }
      seen := seen + {id};
    }
    assert ts[..|ts|] == ts;
    ok := retained + added <= MAX_RETAINED_TASKS;
  }

  lemma EmptyCount()
    ensures Count({}) == 0
  {
  }

  lemma NewCount(a: set<string>, id: string)
    requires id !in a
    ensures Count(a + {id}) == Count(a) + 1
  {
  }

  method UpsertRows(tx: Database, ts: seq<DurableTask>) returns (r: Commit)
    ensures r == Upserts(tx, ts)
  {
    hide UpsertOne;
    r := Committed(tx);
    for i := 0 to |ts|
      invariant r == Upserts(tx, ts[..i]) && r.Committed?
    {
      assert ts[..i + 1][..i] == ts[..i];
      r := UpsertTask(r.db, ts[i]);
      if !r.Committed? {
        UpsertsStop(tx, ts, i + 1);
        return;
      }
    }
    assert ts[..|ts|] == ts;
  }

  lemma {:induction false} UpsertsStop(tx: Database, ts: seq<DurableTask>, i: nat)
    requires i <= |ts| && !Upserts(tx, ts[..i]).Committed?
    ensures Upserts(tx, ts) == Upserts(tx, ts[..i])
    decreases |ts|
  {
    hide UpsertOne;
    if i == |ts| {
      assert ts[..i] == ts;
    } else {
      assert ts[..|ts| - 1][..i] == ts[..i];
      UpsertsStop(tx, ts[..|ts| - 1], i);
    }
  }

  /** Every id of the batch holds the last task the batch names for it. */
  ghost predicate BatchStored(db: Database, b: Batch) {
    forall i: nat :: i < |b.upserts| && StoreMeaning.LastNamed(b.upserts, i) ==> StoreMeaning.Stores(db, b.upserts[i])
  }

  /** And so do clients read it. */
  ghost predicate BatchShown(db: Database, b: Batch) {
    forall i: nat :: i < |b.upserts| && StoreMeaning.LastNamed(b.upserts, i) ==>
      b.upserts[i].taskId in db.view && StoreMeaning.RowShows(db.view[b.upserts[i].taskId], b.upserts[i])
  }

  lemma CommitIsStored(db: Database, b: Batch)
    requires CommitTx(db, b).Committed?
    ensures BatchStored(CommitTx(db, b).db, b)
  {
    hide CommitTx; hide StoreMeaning.Stores; hide StoreMeaning.LastNamed;
    forall i: nat | i < |b.upserts| && StoreMeaning.LastNamed(b.upserts, i)
      ensures StoreMeaning.Stores(CommitTx(db, b).db, b.upserts[i])
    {
      StoreMeaning.CommitStores(db, b, i);
    }
  }

  lemma StoredStays(a: Database, b: Database, batch: Batch)
    requires a.ledger == b.ledger && BatchStored(a, batch)
    ensures BatchStored(b, batch)
  {
    hide StoreMeaning.LastNamed; hide Decode;
  }

  lemma CommitIsShown(db: Database, b: Batch)
    requires Inv(db) && CommitTx(db, b).Committed?
    ensures DrainTx(CommitTx(db, b).db).Some? && BatchShown(DrainTx(CommitTx(db, b).db).value, b)
  {
    hide CommitTx; hide Inv; hide DrainTx; hide StoreMeaning.RowShows; hide StoreMeaning.LastNamed;
    CommitKeepsInv(db, b);
    InvDrains(CommitTx(db, b).db);
    forall i: nat | i < |b.upserts| && StoreMeaning.LastNamed(b.upserts, i)
      ensures b.upserts[i].taskId in DrainTx(CommitTx(db, b).db).value.view
      ensures StoreMeaning.RowShows(DrainTx(CommitTx(db, b).db).value.view[b.upserts[i].taskId], b.upserts[i])
    {
      StoreMeaning.CommittedIsShown(db, b, i);
    }
  }

  /** The whole ledger transaction. */
  method LedgerTransaction(db: Database, b: Batch) returns (r: Commit)
    ensures r == CommitTx(db, b)
    ensures r.Committed? ==> BatchStored(r.db, b)
  {
    hide BatchStored;
    hide Project; hide ValidTaskId; hide Fits; hide Upserts;
    if CommitTx(db, b).Committed? { CommitIsStored(db, b); }
    var projected := AllProject(b.upserts);
    if !projected || db.schema != SCHEMA_VERSION {
      return Refused;
    }
    var raised := db;
    if b.epoch.Some? {
      var current := Decimal.Parse(db.epoch);
      if current.None? {
        return Refused;
      }
      if b.epoch.value > current.value {
        raised := raised.(epoch := Decimal.Text(b.epoch.value));
      }
    }
    var purged := DeleteRows(raised, b.deletes);
    if purged.None? {
      return Refused;
    }
    var fits := CountFits(purged.value, b.upserts);
    if !fits {
      return Refused;
    }
    r := UpsertRows(purged.value, b.upserts);
  }

  // ----- The drain ----------------------------------------------------------

  /** The database with the outbox entries outside `pending` already applied. */
  ghost function PartlyDrained(db: Database, pending: set<string>): Database
    requires forall id :: id in db.outbox && id !in pending ==> EntryValid(db, id)
  {
    db.(outbox := map id | id in db.outbox && id in pending :: db.outbox[id],
        view := map id | id in db.view.Keys + (db.outbox.Keys - pending) ::
                  if id in db.outbox && id !in pending then (assert EntryValid(db, id); Demanded(id, db.ledger[id]).value)
                  else db.view[id])
  }

  lemma PartlyStart(db: Database)
    ensures PartlyDrained(db, db.outbox.Keys) == db
  {
    assert PartlyDrained(db, db.outbox.Keys).outbox == db.outbox;
    assert PartlyDrained(db, db.outbox.Keys).view == db.view;
  }

  lemma PartlyEnd(db: Database)
    requires forall id :: id in db.outbox ==> EntryValid(db, id)
    ensures PartlyDrained(db, {}) == Drained(db)
  {
    hide Demanded;
    assert PartlyDrained(db, {}).outbox == map[];
    assert PartlyDrained(db, {}).view == Drained(db).view;
  }

  lemma PartlyAt(db: Database, pending: set<string>, id: string)
    requires forall id :: id in db.outbox && id !in pending ==> EntryValid(db, id)
    requires id in pending && pending <= db.outbox.Keys
    ensures var d := PartlyDrained(db, pending);
            && id in d.outbox && d.outbox[id] == db.outbox[id] && d.ledger == db.ledger
            && (id in d.view <==> id in db.view) && (id in db.view ==> d.view[id] == db.view[id])
            && (EntryValid(d, id) <==> EntryValid(db, id))
  {
    hide Demanded;
  }

  lemma PartlyOutbox(db: Database, pending: set<string>, id: string)
    requires forall id :: id in db.outbox && id !in pending ==> EntryValid(db, id)
    requires id in pending && pending <= db.outbox.Keys && EntryValid(db, id)
    ensures PartlyDrained(db, pending).outbox - {id} == PartlyDrained(db, pending - {id}).outbox
  {
    hide Demanded; hide EntryValid;
  }

  lemma PartlyView(db: Database, pending: set<string>, id: string, other: string)
    requires forall id :: id in db.outbox && id !in pending ==> EntryValid(db, id)
    requires id in pending && pending <= db.outbox.Keys && EntryValid(db, id)
    ensures var view, next := PartlyDrained(db, pending).view[id := Demanded(id, db.ledger[id]).value],
                              PartlyDrained(db, pending - {id}).view;
            (other in view <==> other in next) && (other in view ==> view[other] == next[other])
  {
    hide Demanded;
  }

  lemma PartlyAdvance(db: Database, pending: set<string>, id: string)
    requires forall id :: id in db.outbox && id !in pending ==> EntryValid(db, id)
    requires id in pending && pending <= db.outbox.Keys && EntryValid(db, id)
    ensures var d := PartlyDrained(db, pending);
            d.(view := d.view[id := Demanded(id, db.ledger[id]).value], outbox := d.outbox - {id}) ==
            PartlyDrained(db, pending - {id})
  {
    hide Demanded;
    PartlyOutbox(db, pending, id);
    var row := Demanded(id, db.ledger[id]).value;
    var d, e := PartlyDrained(db, pending), PartlyDrained(db, pending - {id});
    assert d.ledger == e.ledger && d == e.(view := d.view, outbox := d.outbox);
    hide EntryValid; hide PartlyDrained;
    forall other ensures other in d.view[id := row] <==> other in e.view
      ensures other in e.view ==> d.view[id := row][other] == e.view[other]
    {
      PartlyView(db, pending, id, other);
    }
    assert d.view[id := row] == e.view;
  }

  /** Processing one pending entry succeeds exactly when it is drainable. */
  lemma PartlyStep(db: Database, pending: set<string>, id: string, w: WireTask)
    requires forall id :: id in db.outbox && id !in pending ==> EntryValid(db, id)
    requires id in pending && pending <= db.outbox.Keys
    requires ParsedTask(db.outbox[id].json) == Some(w) && w.id == id
    ensures var r := ApplyAuthorized(PartlyDrained(db, pending), w);
            && (r.Applied? <==> Drainable(db, id))
            && (r.Applied? ==> r.version == db.outbox[id].version && r.db == PartlyDrained(db, pending - {id}))
  {
    if id in db.ledger { DemandedShape(id, db.ledger[id]); }
    hide Demanded; hide PartlyDrained;
    PartlyAt(db, pending, id);
    if EntryValid(db, id) { PartlyAdvance(db, pending, id); }
  }

  method DrainOutbox(db: Database) returns (r: Option<Database>)
    ensures r == DrainTx(db)
  {
    hide Demanded; hide ApplyAuthorized; hide PartlyDrained;
    if db.schema != SCHEMA_VERSION {
      return None;
    }
    var tx := db;
    var pending := db.outbox.Keys;
    PartlyStart(db);
    while pending != {}
      invariant pending <= db.outbox.Keys
      invariant forall id :: id in db.outbox && id !in pending ==> Drainable(db, id)
      invariant tx == PartlyDrained(db, pending)
      decreases pending
    {
      var id :| id in pending;
      var parsed := ParsedTask(db.outbox[id].json);
      if parsed.None? || parsed.value.id != id {
        EntryNamesItself(db, id);
        return None;
      }
      PartlyStep(db, pending, id, parsed.value);
      var applied := ApplyProjection(tx, parsed.value);
      if !applied.Applied? || applied.version != db.outbox[id].version {
        return None;
      }
      tx := applied.db;
      pending := pending - {id};
    }
    PartlyEnd(db);
    r := Some(tx);
  }

  lemma EntryNamesItself(db: Database, id: string)
    requires id in db.outbox
    ensures EntryValid(db, id) ==>
              ParsedTask(db.outbox[id].json).Some? && ParsedTask(db.outbox[id].json).value.id == id
  {
    if id in db.ledger { DemandedShape(id, db.ledger[id]); }
    hide Demanded;
  }

  // ----- Startup ------------------------------------------------------------

  /** Quarantined, and due thirty days after `at`. */
  predicate DueAt(row: Row, at: int) {
    row.quarantined && row.retainUntil.Some? && row.retainUntil.value == at + StoreCommits.THIRTY_DAYS
  }

  predicate MigratedDue(d: Database, db: Database, now: I64) {
    forall id :: id in d.ledger ==> DueAt(d.ledger[id], StoreCommits.LegacyTime(db, now, id))
  }

  predicate ReservationsDue(d: Database, db: Database) {
    forall id :: id in d.ledger && id !in db.ledger ==> DueAt(d.ledger[id], db.firstStart)
  }

  lemma MigrationIsDue(db: Database, now: I64)
    requires db.schema == 0 && MigrateTx(db, now).Some?
    ensures MigratedDue(MigrateTx(db, now).value, db, now)
  {
    hide MigrateTx;
    StoreCommits.MigrationQuarantines(db, now);
  }

  lemma ClosingIsDue(db: Database)
    requires QuarantineTx(db).Some?
    ensures ReservationsDue(QuarantineTx(db).value, db)
  {
    hide QuarantineTx;
    forall id | id in QuarantineTx(db).value.ledger && id !in db.ledger
      ensures DueAt(QuarantineTx(db).value.ledger[id], db.firstStart)
    {
      LegacyRows.ClosedReservation(db, id);
    }
  }

  /** The quarantined rows of all legacy tasks, or nothing if one of them is refused. */
  method MigrateTasks(db: Database) returns (r: Option<map<string, Row>>)
    ensures r.None? <==> exists id :: id in db.view && !Migratable(db, id)
    ensures r.Some? ==> r.value.Keys == db.view.Keys && forall id :: id in db.view ==> r.value[id] == Legacy(db, id)
  {
    hide Migratable; hide Legacy;
    var ledger: map<string, Row> := map[];
    var todo := db.view.Keys;
    while todo != {}
      invariant todo <= db.view.Keys && ledger.Keys == db.view.Keys - todo
      invariant forall id :: id in ledger ==> Migratable(db, id) && ledger[id] == Legacy(db, id)
      decreases todo
    {
      var id :| id in todo;
      if !Migratable(db, id) {
        return None;
      }
      ledger := ledger[id := Legacy(db, id)];
      todo := todo - {id};
    }
    r := Some(ledger);
  }

  /** Those rows with a tombstone for each reservation that has no task. */
  method MigrateOwners(db: Database, tasks: map<string, Row>, now: I64) returns (r: Option<map<string, Row>>)
    requires tasks.Keys == db.view.Keys && Retention(now).Some?
    ensures r.None? <==> exists id :: id in db.owners && id !in db.view && !ValidOwner(db, id)
    ensures r.Some? ==>
              && r.value.Keys == db.view.Keys + db.owners.Keys
              && forall id :: id in r.value ==> r.value[id] == if id in db.view then tasks[id] else Tombstone(db, id, now)
  {
    hide ValidOwner; hide Tombstone; hide Retention;
    var ledger := tasks;
    var todo := db.owners.Keys - db.view.Keys;
    while todo != {}
      invariant todo <= db.owners.Keys - db.view.Keys
      invariant ledger.Keys == db.view.Keys + (db.owners.Keys - db.view.Keys - todo)
      invariant forall id :: id in db.view ==> ledger[id] == tasks[id]
      invariant forall id :: id in ledger && id !in db.view ==>
                  ValidOwner(db, id) && ledger[id] == Tombstone(db, id, now)
      decreases todo
    {
      var id :| id in todo;
      if !ValidOwner(db, id) {
        return None;
      }
      ledger := ledger[id := Tombstone(db, id, now)];
      todo := todo - {id};
    }
    assert ledger.Keys == db.view.Keys + db.owners.Keys;
    r := Some(ledger);
  }

  lemma MigratableIsOwned(db: Database)
    requires forall id :: id in db.view ==> Migratable(db, id)
    ensures forall id :: id in db.view ==> ValidOwner(db, id)
  {
    hide ValidOwner;
    forall id | id in db.view ensures ValidOwner(db, id) { assert Migratable(db, id); }
  }

  /** Quarantines every legacy task, then every reservation without one. */
  method MigrateSchema(db: Database, now: I64) returns (r: Option<Database>)
    ensures r == MigrateTx(db, now)
    ensures r.Some? && db.schema == 0 ==> MigratedDue(r.value, db, now)
  {
    hide MigratedDue;
    hide Count; hide Migratable; hide ValidOwner; hide Legacy; hide Tombstone; hide Retention;
    if db.schema == 0 && MigrateTx(db, now).Some? { MigrationIsDue(db, now); }
    if db.schema == SCHEMA_VERSION {
      return Some(db);
    }
    if db.schema != 0 {
      return None;
    }
    var tasks := MigrateTasks(db);
    if tasks.None? || Retention(now).None? {
      return None;
    }
    MigratableIsOwned(db);
    var ledger := MigrateOwners(db, tasks.value, now);
    if ledger.None? || Count(ledger.value.Keys) > MAX_RETAINED_TASKS {
      return None;
    }
    assert MigrateTx(db, now).Some? && MigrateTx(db, now).value.ledger == ledger.value;
    r := Some(Database(SCHEMA_VERSION, ledger.value, map[], db.view, db.owners, "0", now));
  }

  /** Closes reservations that never got a task. */
  method QuarantineOwnerOnly(db: Database) returns (r: Option<Database>)
    ensures r == QuarantineTx(db)
    ensures r.Some? ==> ReservationsDue(r.value, db)
  {
    hide ReservationsDue;
    hide Count; hide ValidTaskId; hide ValidAgentName; hide QuarantineRow;
    if QuarantineTx(db).Some? { ClosingIsDue(db); }
    if db.schema != SCHEMA_VERSION || db.firstStart < 0 || Retention(db.firstStart).None? {
      return None;
    }
    var ids := db.owners.Keys - db.view.Keys - db.ledger.Keys;
    if Count(db.ledger.Keys) + Count(ids) > MAX_RETAINED_TASKS {
      return None;
    }
    var ledger := db.ledger;
    var todo := ids;
    while todo != {}
      invariant todo <= ids && ledger.Keys == db.ledger.Keys + (ids - todo)
      invariant forall id :: id in db.ledger ==> ledger[id] == db.ledger[id]
      invariant forall id :: id in ids - todo ==> ValidOwner(db, id) && ledger[id] == Tombstone(db, id, db.firstStart)
      decreases todo
    {
      var id :| id in todo;
      if !ValidOwner(db, id) {
        return None;
      }
      ledger := ledger[id := Tombstone(db, id, db.firstStart)];
      todo := todo - {id};
    }
    assert ledger == db.ledger + map id | id in OwnerOnly(db) :: Tombstone(db, id, db.firstStart);
    r := Some(db.(ledger := ledger));
  }

  /** Removes each lapsed quarantined id from all four tables. */
  method PruneQuarantined(db: Database, now: I64) returns (r: Option<Database>)
    ensures r == PruneTx(db, now)
  {
    if db.schema != SCHEMA_VERSION {
      return None;
    }
    var lapsed := set id | id in db.ledger && Lapsed(db.ledger[id], now);
    var todo := lapsed;
    var tx := db;
    assert Purge(db, {}) == db;
    while todo != {}
      invariant todo <= lapsed && tx == Purge(db, lapsed - todo)
      decreases todo
    {
      var id :| id in todo;
      tx := tx.(outbox := tx.outbox - {id});
      tx := tx.(owners := tx.owners - {id});
      tx := tx.(view := tx.view - {id});
      tx := tx.(ledger := tx.ledger - {id});
      PurgeMore(db, lapsed - todo, id);
      assert lapsed - (todo - {id}) == lapsed - todo + {id};
      todo := todo - {id};
    }
    assert lapsed - {} == lapsed;
    r := Some(tx);
  }

  /** Checks the counts, every outbox entry and every retained row. */
  method Validate(db: Database) returns (ok: bool)
    ensures ok == ValidateStore(db)
  {
    hide Count; hide Demanded;
    if db.schema != SCHEMA_VERSION || Count(db.ledger.Keys) > MAX_RETAINED_TASKS {
      return false;
    }
    if exists id :: id in db.ledger && db.ledger[id].quarantined && !QuarantineForm(db.ledger[id]) {
      return false;
    }
    if Count(db.outbox.Keys) > Count(db.ledger.Keys) {
      return false;
    }
    var todo := db.outbox.Keys;
    while todo != {}
      invariant todo <= db.outbox.Keys
      invariant forall id :: id in db.outbox && id !in todo ==> EntryValid(db, id)
      decreases todo
    {
      var id :| id in todo;
      if !EntryValid(db, id) {
        return false;
      }
      todo := todo - {id};
    }
    todo := db.ledger.Keys;
    while todo != {}
      invariant todo <= db.ledger.Keys
      invariant forall id :: id in db.ledger && id !in todo && !db.ledger[id].quarantined ==>
                  Demanded(id, db.ledger[id]).Some? && (ViewCurrent(db, id) || id in db.outbox)
      decreases todo
    {
      var id :| id in todo;
      if !db.ledger[id].quarantined {
        var demanded := Demanded(id, db.ledger[id]);
        if demanded.None? {
          return false;
        }
        var current := id in db.view && db.view[id] == demanded.value;
        if !current && id !in db.outbox {
          return false;
        }
      }
      todo := todo - {id};
    }
    ok := true;
  }

  /** Each quarantined id is as it was before its deadline and gone from then on. */
  ghost predicate DeadlinesKept(before: Database, after: Database, now: I64) {
    forall id :: id in before.ledger && before.ledger[id].quarantined && before.ledger[id].retainUntil.Some? ==>
      if now < before.ledger[id].retainUntil.value then LegacyRows.KeptAs(after, before, id)
      else StoreMeaning.Gone(after, id)
  }

  lemma StartupDeadlines(db: Database, now: I64)
    requires Inv(db) && db.schema == SCHEMA_VERSION && StartupRun(db, now).Ready?
    ensures DeadlinesKept(db, StartupRun(db, now).db, now)
  {
    hide Inv;
    assert 0 <= now;
    hide StartupRun; hide LegacyRows.KeptAs; hide StoreMeaning.Gone;
    forall id | id in db.ledger && db.ledger[id].quarantined && db.ledger[id].retainUntil.Some?
      ensures if now < db.ledger[id].retainUntil.value then LegacyRows.KeptAs(StartupRun(db, now).db, db, id)
              else StoreMeaning.Gone(StartupRun(db, now).db, id)
    {
      LegacyRows.StartupAndDeadline(db, now, id);
    }
  }

  // ----- The store ----------------------------------------------------------

  class TaskStore {
    var db: Database
    const admissions: AdmissionRegistry

    constructor (db: Database)
      ensures this.db == db && fresh(admissions) && Valid(admissions.Model())
    {
      this.db := db;
      admissions := new AdmissionRegistry();
    }

    method ApplyPending(durable: bool) returns (ok: bool)
      modifies this`db
      ensures ok == (durable && DrainTx(old(db)).Some?)
      ensures db == if ok then DrainTx(old(db)).value else old(db)
    {
      hide DrainTx;
      var drained := DrainOutbox(db);
      ok := durable && drained.Some?;
      if ok {
        db := drained.value;
      }
    }

    /** `prepare_startup`, transaction by transaction. */
    method PrepareStartup(now: I64) returns (ready: bool)
      modifies this`db
      ensures ready == StartupRun(old(db), now).Ready? && db == StartupRun(old(db), now).db
      ensures ready && Inv(old(db)) && old(db).schema == SCHEMA_VERSION ==> DeadlinesKept(old(db), db, now)
    {
      if StartupRun(db, now).Ready? && Inv(db) && db.schema == SCHEMA_VERSION { StartupDeadlines(db, now); }
      hide DeadlinesKept; hide Inv;
      hide MigrateTx; hide QuarantineTx; hide PruneTx; hide ValidateStore; hide DrainTx;
      if now < 0 {
        return false;
      }
      var migrated := MigrateSchema(db, now);
      if migrated.None? {
        return false;
      }
      db := migrated.value;
      var closed := QuarantineOwnerOnly(db);
      if closed.None? {
        return false;
      }
      db := closed.value;
      var pruned := PruneQuarantined(db, now);
      if pruned.None? {
        return false;
      }
      db := pruned.value;
      var valid := Validate(db);
      if !valid {
        return false;
      }
      ready := ApplyPending(true);
    }

    /** Commits a batch and drains.  A refused or failed transaction changes nothing;
        `Complete` means full agreement; a batch that needs reconciliation still
        repairs what is pending. */
    method CommitBatch(b: Batch, durable: bool, drainDurable: bool) returns (outcome: Outcome)
      requires Valid(admissions.Model())
      modifies this`db, admissions
      ensures Valid(admissions.Model())
      ensures var tx := CommitTx(old(db), b);
              var settled := if tx.Committed? && durable then tx.db else old(db);
              var drained := drainDurable && DrainTx(settled).Some?;
              if tx.Refused? || (tx.Committed? && !durable) then outcome == Unavailable && db == old(db)
              else
                && db == (if drained then DrainTx(settled).value else settled)
                && outcome == (if tx.Committed? && drained then Complete else ReconciliationRequired)
      ensures outcome == Complete && Inv(old(db)) ==> Inv(db) && FullyAgrees(db)
      ensures outcome == Complete && Inv(old(db)) ==> BatchStored(db, b) && BatchShown(db, b)
      ensures outcome != Unavailable && CommitTx(old(db), b).Committed? ==>
                admissions.byTask == old(admissions.byTask) - IdSet(b.deletes) && admissions.next == old(admissions.next)
      ensures outcome == Unavailable || !CommitTx(old(db), b).Committed? ==> admissions.Model() == old(admissions.Model())
    {
      hide CommitTx; hide DrainTx; hide Inv; hide FullyAgrees; hide BatchStored; hide BatchShown;
      var tx := LedgerTransaction(db, b);
      if tx.Refused? || (tx.Committed? && !durable) {
        return Unavailable;
      }
      if tx.Committed? {
        db := tx.db;
        admissions.RetireAll(b.deletes);
      }
      ghost var settled := db;
      var drained := ApplyPending(drainDurable);
      outcome := if tx.Committed? && drained then Complete else ReconciliationRequired;
      if outcome == Complete && Inv(old(db)) {
        CommitNeedsSchema(old(db), b);
        CommitKeepsInv(old(db), b);
        DrainProjects(settled);
        DrainedAgrees(settled);
        CommitIsShown(old(db), b);
        StoredStays(settled, db, b);
      }
    }

    /** The read half of `authorize_sdk_projection`: version and incarnation of the
        task if the projection is the authoritative one. */
    method AuthorizeRead(w: WireTask) returns (r: Option<(U64, Incarnation)>)
      ensures r.Some? <==> db.schema == SCHEMA_VERSION && Authoritative(db, w)
      ensures r.Some? ==> var t := CleanAuthority(db, w.id).value; r.value == (t.version, IncarnationOf(t))
    {
      hide Demanded;
      if db.schema != SCHEMA_VERSION {
        return None;
      }
      var clean := CleanAuthority(db, w.id);
      if clean.None? || db.view[w.id].json != Canonical(w) {
        return None;
      }
      r := Some((clean.value.version, IncarnationOf(clean.value)));
    }

    /** An SDK write.  Success leaves the task settled at the version returned; failure
        changes no table and loses no admission; a stale projection succeeds only by
        taking an admission of the current incarnation and a smaller version, and
        then it writes nothing. */
    method WriteProjection(w: WireTask, durable: bool) returns (r: SdkOutcome, ghost at: int)
      requires Valid(admissions.Model())
      modifies this`db, admissions
      ensures Valid(admissions.Model())
      ensures r.Written? ==> db == SdkTx(old(db), w) && SettledAt(db, w.id, r.version)
      ensures r.Written? ==> (StaleAt(old(db), w) || db.view[w.id].json == Canonical(w))
      ensures r.Written? && StaleAt(old(db), w) ==>
                && db == old(db) && w.id in old(admissions.byTask) && old(admissions.total) > 0
                && IsFirstMatch(old(admissions.byTask)[w.id], at, w, r.version,
                                IncarnationOf(Decode(w.id, db.ledger[w.id]).value), true)
                && admissions.Model() == RemoveAt(old(admissions.Model()), w.id, at)
      ensures r.Written? <==> durable && Writable(old(db), old(admissions.byTask), w)
      ensures r.Denied? <==>
              && old(db).schema == SCHEMA_VERSION && StaleAt(old(db), w)
              && !(CleanAuthority(old(db), w.id).Some? &&
                   Admitted(old(admissions.byTask), w, CleanAuthority(old(db), w.id).value, true))
      ensures r.Written? && !StaleAt(old(db), w) ==>
                var t := Decode(w.id, db.ledger[w.id]).value;
                if Admitted(old(admissions.byTask), w, t, false) then
                  && w.id in old(admissions.byTask) && old(admissions.total) > 0
                  && IsFirstMatch(old(admissions.byTask)[w.id], at, w, t.version, IncarnationOf(t), false)
                  && admissions.Model() == RemoveAt(old(admissions.Model()), w.id, at)
                else admissions.Model() == old(admissions.Model())
      ensures !r.Written? ==> db == old(db) && Tickets(admissions.byTask) == old(Tickets(admissions.byTask))
    {
      hide Demanded; hide Decode; hide Valid; hide Writable; hide StaleAt;
      WritableIff(db, admissions.byTask, w);
      AppliesIff(db, w);
      at := -1;
      if db.schema != SCHEMA_VERSION {
        return StoreFailure, at;
      }
      var applied := ApplyProjection(db, w);
      if applied.Invalid? {
        return StoreFailure, at;
      }
      var stale := applied.NotAuthorized?;
      var tx := if stale then db else applied.db;
      var clean := CleanAuthority(tx, w.id);
      if clean.None? {
        return if stale then Denied else StoreFailure, at;
      }
      DecodedVersion(w.id, tx.ledger[w.id]);
      var version := clean.value.version;
      if !stale && applied.version != version {
        return StoreFailure, at;
      }
      ghost var before := admissions.Model();
      var taken;
      taken, at := admissions.Consume(w.id, w, version, IncarnationOf(clean.value), stale);
      if taken.Some? {
        assert Admissions.Matches(Queue(before.byTask, w.id)[at], w, version, IncarnationOf(clean.value), stale);
      }
      assert taken.Some? <==> Admitted(before.byTask, w, clean.value, stale);
      if stale && taken.None? {
        return Denied, at;
      }
      if !durable {
        if taken.Some? {
          TakenCanReturn(before, w.id, at);
          ghost var room, gone;
          room, gone := admissions.Restore(w.id, taken.value);
          ReturnedWhole(before, w.id, at, room, gone);
        }
        return StoreFailure, at;
      }
      db := tx;
      r := Written(version);
    }

    /** `claim_task_owner`: reserve an id, sweeping old finished tasks first. */
    method ClaimTaskOwner(c: ClaimRequest, durable: bool) returns (claim: Claim)
      modifies this`db
      ensures claim == ClaimTx(old(db), c)
      ensures db == if durable then Step(old(db), ClaimOwner(c)) else old(db)
      ensures Tells(old(db), c, claim)
      ensures db == old(db).(view := db.view, owners := db.owners)
      ensures durable && !claim.Declined? ==> ClaimsRows(old(db), db, c, !claim.Full?)
      ensures !durable || claim.Declined? ==> db == old(db)
      ensures Inv(old(db)) && ClaimSafe(old(db), c) ==> Inv(db)
    {
      hide Count; hide TerminalBefore; hide ClaimsRows; hide Tells; hide Inv; hide ClaimSafe;
      ClaimMeaning(db, c);
      if Inv(db) && ClaimSafe(db, c) { ClaimKeepsInv(db, c); }
      if db.schema == SCHEMA_VERSION && c.taskId in db.ledger {
        return Declined;
      }
      var lapsed := OldTerminal(db, c.cutoff);
      var tx := db.(owners := db.owners - lapsed, view := db.view - lapsed);
      var mine := Owner(c.registration, Some(c.recipient));
      if c.taskId in tx.owners {
        if tx.owners[c.taskId] != mine {
          return Declined;
        }
        claim := AlreadyMine(tx);
      } else {
        var retained := Count(if db.schema == SCHEMA_VERSION then Ids(tx) else tx.owners.Keys);
        if retained >= MAX_RETAINED_TASKS {
          claim := Full(tx);
        } else if c.taskId in tx.view {
          return Declined;
        } else {
          tx := tx.(owners := tx.owners[c.taskId := mine]);
          claim := Claimed(tx);
        }
      }
      if durable {
        db := tx;
      }
    }
  }

  datatype SdkOutcome = Written(version: U64) | Denied | StoreFailure

  /** The projection of the wire task is what the ledger demands, and nothing is pending. */
  predicate Authoritative(db: Database, w: WireTask) {
    CleanAuthority(db, w.id).Some? && w.id in db.view && db.view[w.id].json == Canonical(w)
  }

  /** Some admission of the task lets the projection through for the task as it is. */
  predicate Admitted(q: Queues, w: WireTask, t: DurableTask, stale: bool) {
    exists i :: 0 <= i < |Queue(q, w.id)| && Admissions.Matches(Queue(q, w.id)[i], w, t.version, IncarnationOf(t), stale)
  }

  /** The projection is the pending one, and the view is not ahead of it. */
  predicate PendingIs(db: Database, w: WireTask) {
    w.id in db.outbox && Drainable(db, w.id) && db.outbox[w.id].json == Canonical(w)
  }

  /** The projection is the current one, the pending one, or neither but admitted. */
  predicate Writable(db: Database, q: Queues, w: WireTask) {
    && db.schema == SCHEMA_VERSION
    && (|| Authoritative(db, w)
        || PendingIs(db, w)
        || (StaleAt(db, w) && CleanAuthority(db, w.id).Some? && Admitted(q, w, CleanAuthority(db, w.id).value, true)))
  }

  lemma CurrentIsApplied(db: Database, w: WireTask)
    requires Authoritative(db, w)
    ensures ApplyAuthorized(db, w) == Applied(db, db.view[w.id].version)
    ensures CleanAuthority(db, w.id).value.version == db.view[w.id].version
  {
    DecodedVersion(w.id, db.ledger[w.id]);
    DemandedShape(w.id, db.ledger[w.id]);
    hide Demanded; hide Decode;
  }

  lemma PendingIsApplied(db: Database, w: WireTask)
    requires PendingIs(db, w)
    ensures var r := ApplyAuthorized(db, w);
            && r.Applied? && r.version == db.outbox[w.id].version
            && CleanAuthority(r.db, w.id).Some? && CleanAuthority(r.db, w.id).value.version == r.version
  {
    DemandedShape(w.id, db.ledger[w.id]);
    DecodedVersion(w.id, db.ledger[w.id]);
    DemandedDecodes(w.id, db.ledger[w.id]);
    hide Demanded; hide Decode;
  }

  lemma DemandedDecodes(id: string, row: Row)
    ensures Demanded(id, row).Some? ==> Decode(id, row).Some?
  {
  }

  /** Applying goes by the tables: a projection goes through exactly if it is the view row's
      or the pending one, is stale exactly as `StaleAt` says, and anything else is invalid. */
  lemma AppliesIff(db: Database, w: WireTask)
    ensures ApplyAuthorized(db, w).NotAuthorized? <==> StaleAt(db, w)
    ensures ApplyAuthorized(db, w).Applied? <==>
            PendingIs(db, w) || (w.id !in db.outbox && w.id in db.view && db.view[w.id].json == Canonical(w))
  {
    hide Demanded; hide Decode;
  }

  /** The same condition, as the write comes upon it. */
  predicate GoesThrough(db: Database, q: Queues, w: WireTask) {
    && db.schema == SCHEMA_VERSION
    && match ApplyAuthorized(db, w)
       case Invalid => false
       case Applied(d, version) =>
         CleanAuthority(d, w.id).Some? && CleanAuthority(d, w.id).value.version == version
       case NotAuthorized =>
         CleanAuthority(db, w.id).Some? && Admitted(q, w, CleanAuthority(db, w.id).value, true)
  }

  lemma WritableIff(db: Database, q: Queues, w: WireTask)
    ensures Writable(db, q, w) <==> GoesThrough(db, q, w)
  {
    AppliesIff(db, w);
    if PendingIs(db, w) { PendingIsApplied(db, w); }
    if Authoritative(db, w) { CurrentIsApplied(db, w); }
    hide Demanded; hide Decode; hide Admitted; hide StaleAt; hide EntryValid;
  }

  /** A settled task's current projection can always be written, whatever is admitted; its
      write is stale exactly if it is another one. */
  lemma SettledIsWritable(db: Database, q: Queues, w: WireTask)
    requires db.schema == SCHEMA_VERSION && CleanAuthority(db, w.id).Some?
    ensures StaleAt(db, w) <==> db.view[w.id].json != Canonical(w)
    ensures !StaleAt(db, w) ==> Writable(db, q, w)
  {
    hide Demanded; hide Decode;
  }

  /** A pending projection can always be written in a store that keeps the invariant. */
  lemma PendingIsWritable(db: Database, q: Queues, w: WireTask)
    requires Agreement(db) && db.schema == SCHEMA_VERSION && w.id in db.outbox && db.outbox[w.id].json == Canonical(w)
    ensures Writable(db, q, w) && !StaleAt(db, w)
  {
    assert EntryValid(db, w.id);
    hide Demanded; hide Decode;
  }

  predicate SettledAt(db: Database, id: string, version: U64) {
    && id in db.ledger && id !in db.outbox && ViewCurrent(db, id)
    && db.ledger[id].version == version
    && Decode(id, db.ledger[id]).Some?
  }

  /** Neither the view row's projection of a settled id nor that of a valid pending entry. */
  predicate StaleAt(db: Database, w: WireTask) {
    if w.id in db.outbox then EntryValid(db, w.id) && db.outbox[w.id].json != Canonical(w)
    else !(w.id in db.view && db.view[w.id].json == Canonical(w))
  }

  lemma DecodedVersion(id: string, row: Row)
    ensures Decode(id, row).Some? ==> Decode(id, row).value.version == row.version
  {
  }

  lemma TakenCanReturn(r: Registry, id: string, at: int)
    requires Valid(r) && id in r.byTask && 0 <= at < |r.byTask[id]| && r.total > 0
    ensures var m := RemoveAt(r, id, at);
            r.byTask[id][at].sequence < m.next && Unused(m.byTask, r.byTask[id][at].sequence)
  {
    var m := RemoveAt(r, id, at);
    forall a, j | a in m.byTask && 0 <= j < |m.byTask[a]|
      ensures m.byTask[a][j].sequence != r.byTask[id][at].sequence
    {
      RemoveAtSource(r.byTask, id, at, a, j);
    }
  }

  /** A taken admission that comes straight back evicts nothing. */
  lemma ReturnedWhole(r: Registry, id: string, at: int, room: Registry, gone: set<Ticket>)
    requires Valid(r) && id in r.byTask && 0 <= at < |r.byTask[id]| && r.total > 0
    requires MadeRoom(RemoveAt(r, id, at), id, room, gone)
    ensures Tickets(Push(room, id, r.byTask[id][at]).byTask) == Tickets(r.byTask)
  {
    var m := RemoveAt(r, id, at);
    RemoveAtValid(r, id, at);
    assert |Queue(m.byTask, id)| < MAX_PER_TASK && m.total < MAX_ADMISSIONS;
    assert room == m;
    PushTickets(m.byTask, id, r.byTask[id][at]);
  }
}
