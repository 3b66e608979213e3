// Tasks and reservations from before the ledger: which stores are migrated, what their
// quarantined rows hold, and until when they stay.
module LegacyRows {
  import opened Prelude
  import opened DurableTasks
  import opened RowCodec
  import opened StoreModel
  import opened StoreInvariant
  import opened StoreRefinement
  import opened StoreCommits
  import opened StoreMeaning

  /** A quarantined row: nobody's request, in no state of delivery, everything at one time,
      and kept for thirty days from then. */
  predicate Closed(row: Row, contextId: Option<string>, recipient: Option<string>, at: int, version: int) {
    && row.quarantined && row.sender.None? && row.request.None? && row.reply.None?
    && row.contextId == contextId && Some(row.recipient) == recipient && row.version == version
    && row.state == "legacy_identity_unavailable"
    && row.deliveryId.None? && row.leaseExpires.None? && row.acknowledged.None? && row.attempt == 0
    && row.created == at && row.deadline == at && row.terminal == Some(at)
    && row.retainUntil.Some? && row.retainUntil.value == at + THIRTY_DAYS
  }

  // ----- Migration ----------------------------------------------------------

  predicate HasGoodOwner(db: Database, id: string) {
    IdWord(id) && id in db.owners && db.owners[id].recipient.Some? && NameWord(db.owners[id].recipient.value)
  }

  /** A legacy task that can be closed: owned, named by its own JSON, and with a time thirty
      days before the end of time. */
  predicate Closable(db: Database, id: string)
    requires id in db.view
  {
    var row := db.view[id];
    && HasGoodOwner(db, id) && IdWord(row.contextId)
    && !row.json.Malformed?
    && (row.json.Canonical? ==> row.json.value.id == id && row.json.value.contextId == row.contextId)
    && (row.json.NonCanonical? ==> row.json.parsed.id == id && row.json.parsed.contextId == row.contextId)
    && row.stamp.Some? && -0x8000_0000_0000_0000 <= row.stamp.value <= 0x7FFF_FFFF_FFFF_FFFF - THIRTY_DAYS
  }

  lemma GoodOwnerIff(db: Database, id: string)
    ensures ValidOwner(db, id) <==> HasGoodOwner(db, id)
  {
    WordsIff(id);
    if id in db.owners && db.owners[id].recipient.Some? { WordsIff(db.owners[id].recipient.value); }
    hide ValidTaskId; hide ValidAgentName; hide IdWord; hide NameWord;
  }

  lemma ClosableIff(db: Database, id: string)
    requires id in db.view
    ensures Migratable(db, id) <==> Closable(db, id)
  {
    GoodOwnerIff(db, id);
    WordsIff(db.view[id].contextId);
    hide ValidTaskId; hide IdWord; hide ValidOwner; hide HasGoodOwner;
  }

  /** A prepared store is left as it is; a legacy one is migrated exactly when every task and
      reservation in it can be closed and together they fit the cap; any other is refused. */
  lemma MigratesIff(db: Database, now: I64)
    ensures db.schema == 1 ==> MigrateTx(db, now) == Some(db)
    ensures db.schema != 1 ==>
              (MigrateTx(db, now).Some? <==>
                 && db.schema == 0
                 && now <= 0x7FFF_FFFF_FFFF_FFFF - THIRTY_DAYS
                 && (forall id :: id in db.view ==> Closable(db, id))
                 && (forall id :: id in db.owners ==> HasGoodOwner(db, id))
                 && Count(db.view.Keys + db.owners.Keys) <= 4096)
  {
    hide Count;
    forall id | id in db.view ensures Migratable(db, id) <==> Closable(db, id) { ClosableIff(db, id); }
    forall id | id in db.owners ensures ValidOwner(db, id) <==> HasGoodOwner(db, id) { GoodOwnerIff(db, id); }
    hide Migratable; hide Closable; hide ValidOwner; hide HasGoodOwner;
  }

  /** Every legacy id gets one closed row: a task with its own context, version and time, a
      mere reservation with those of the migration; the recipient is the reservation's. */
  lemma MigratedRow(db: Database, now: I64, id: string)
    requires db.schema == 0 && MigrateTx(db, now).Some?
    ensures var d := MigrateTx(db, now).value;
            && d.view == db.view && d.owners == db.owners && d.outbox == map[] && d.epoch == "0" && d.firstStart == now
            && (id in d.ledger <==> id in db.view || id in db.owners)
            && (id in d.ledger ==>
                  && id in db.owners
                  && var task := id in db.view;
                  Closed(d.ledger[id], if task then Some(db.view[id].contextId) else None, db.owners[id].recipient,
                         LegacyTime(db, now, id), if task then db.view[id].version else 1))
  {
    hide Count; hide ValidTaskId; hide ValidAgentName;
    var d := MigrateTx(db, now).value;
    if id in db.view {
      assert Migratable(db, id);
      assert d.ledger[id] == Legacy(db, id);
    } else if id in db.owners {
      assert ValidOwner(db, id);
      assert d.ledger[id] == Tombstone(db, id, now);
    }
  }

  /** Closing reservations gives each that has neither task nor row a closed row of the first
      start, and changes nothing else. */
  lemma ClosedReservation(db: Database, id: string)
    requires QuarantineTx(db).Some?
    ensures var d := QuarantineTx(db).value;
            && d == db.(ledger := d.ledger)
            && (id in db.ledger ==> id in d.ledger && d.ledger[id] == db.ledger[id])
            && (id !in db.ledger ==> (id in d.ledger <==> id in db.owners && id !in db.view))
            && (id !in db.ledger && id in d.ledger ==>
                  Closed(d.ledger[id], None, db.owners[id].recipient, db.firstStart, 1))
  {
    hide Count; hide ValidTaskId; hide ValidAgentName;
    if id in OwnerOnly(db) { assert ValidOwner(db, id); }
  }

  /** It is refused exactly for a first start out of range, for lack of room, or for a
      reservation with a malformed id or recipient. */
  lemma ClosesIff(db: Database)
    ensures QuarantineTx(db).Some? <==>
            && db.schema == SCHEMA_VERSION && 0 <= db.firstStart <= 0x7FFF_FFFF_FFFF_FFFF - THIRTY_DAYS
            && Count(db.ledger.Keys) + Count(OwnerOnly(db)) <= 4096
            && forall id :: id in db.owners && id !in db.view && id !in db.ledger ==> HasGoodOwner(db, id)
  {
    hide Count;
    forall id | id in db.owners ensures ValidOwner(db, id) <==> HasGoodOwner(db, id) { GoodOwnerIff(db, id); }
    hide ValidOwner; hide HasGoodOwner;
  }

  // ----- One startup --------------------------------------------------------

  /** The id's ledger row, view row and reservation are those of the other database. */
  predicate KeptAs(d: Database, db: Database, id: string) {
    && id in d.ledger && id in db.ledger && d.ledger[id] == db.ledger[id]
    && (id in d.view <==> id in db.view) && (id in d.view ==> d.view[id] == db.view[id])
    && (id in d.owners <==> id in db.owners) && (id in d.owners ==> d.owners[id] == db.owners[id])
  }

  lemma QuarantinedIsNotPending(db: Database, id: string)
    requires Agreement(db) && id in db.ledger && db.ledger[id].quarantined
    ensures id !in db.outbox
  {
    if id in db.outbox {
      assert EntryValid(db, id);
      DemandedIsRetained(id, db.ledger[id]);
    }
  }

  lemma DrainedElsewhere(db: Database, id: string)
    requires (forall id :: id in db.outbox ==> EntryValid(db, id)) && id !in db.outbox
    ensures var d := Drained(db);
            d.ledger == db.ledger && d.owners == db.owners && d.outbox == map[] &&
            (id in d.view <==> id in db.view) && (id in d.view ==> d.view[id] == db.view[id])
  {
    hide Demanded;
  }

  /** A startup of a prepared store is its three transactions one after the other. */
  lemma ReadyStartup(db: Database, now: I64)
    requires Inv(db) && db.schema == SCHEMA_VERSION && 0 <= now && StartupRun(db, now).Ready?
    ensures QuarantineTx(db).Some?
    ensures var closed := QuarantineTx(db).value;
            var pruned := Purge(closed, LapsedIds(closed, now));
            Inv(pruned) && pruned.schema == SCHEMA_VERSION &&
            (forall id :: id in pruned.outbox ==> EntryValid(pruned, id)) && StartupRun(db, now) == Ready(Drained(pruned))
  {
    hide Inv; hide QuarantineTx; hide FinishStartup; hide StartupRun; hide Step; hide FullyAgrees;
    PreparedStartup(db, now);
    QuarantineIsStep(db);
    StepKeepsInv(db, QuarantineOwners);
    KeepsSchema(db, QuarantineOwners);
    var closed := QuarantineTx(db).value;
    FinishCompletes(closed, now);
    EntriesAreValid(Purge(closed, LapsedIds(closed, now)));
  }

  /** A quarantined id survives a startup, with its view row and reservation, exactly if the
      startup is before its deadline; otherwise it is gone from all four tables. */
  lemma StartupAndDeadline(db: Database, now: I64, id: string)
    requires Inv(db) && db.schema == SCHEMA_VERSION && 0 <= now && StartupRun(db, now).Ready?
    requires id in db.ledger && db.ledger[id].quarantined && db.ledger[id].retainUntil.Some?
    ensures var d := StartupRun(db, now).db;
            if now < db.ledger[id].retainUntil.value then KeptAs(d, db, id) else Gone(d, id)
  {
    ReadyStartup(db, now);
    QuarantinedIsNotPending(db, id);
    ClosedReservation(db, id);
    hide Inv; hide StartupRun; hide QuarantineTx; hide EntryValid;
    var closed := QuarantineTx(db).value;
    PruneRemoves(closed, now, id);
    var pruned := Purge(closed, LapsedIds(closed, now));
    assert PruneTx(closed, now) == Some(pruned);
    hide Purge; hide LapsedIds; hide PruneTx; hide Drained;
    DrainedElsewhere(pruned, id);
  }

  /** What is gone and not reserved stays gone. */
  lemma StartupKeepsGone(db: Database, now: I64, id: string)
    requires Inv(db) && db.schema == SCHEMA_VERSION && 0 <= now && StartupRun(db, now).Ready? && Gone(db, id)
    ensures Gone(StartupRun(db, now).db, id)
  {
    ReadyStartup(db, now);
    ClosedReservation(db, id);
    hide Inv; hide StartupRun; hide QuarantineTx; hide EntryValid;
    var closed := QuarantineTx(db).value;
    var pruned := Purge(closed, LapsedIds(closed, now));
    hide LapsedIds; hide Drained;
    DrainedElsewhere(pruned, id);
  }

  // ----- Startup after startup ----------------------------------------------

  /** The database after one startup at each of the times. */
  function Restarts(db: Database, times: seq<I64>): Database {
    if times == [] then db else StartupRun(Restarts(db, times[..|times| - 1]), times[|times| - 1]).db
  }

  predicate AllOwned(db: Database) { db.owners.Keys <= db.ledger.Keys }

  lemma StartupKeepsOwned(db: Database, now: I64)
    requires Inv(db) && db.schema == SCHEMA_VERSION && AllOwned(db) && 0 <= now
    ensures StartupRun(db, now).Ready?
    ensures var d := StartupRun(db, now).db; Inv(d) && d.schema == SCHEMA_VERSION && AllOwned(d)
  {
    assert ReservationsValid(db);
    StartupCompletes(db, now);
    ReadyStartup(db, now);
    hide Inv; hide StartupRun; hide QuarantineTx; hide EntryValid; hide LapsedIds; hide Drained;
    var closed := QuarantineTx(db).value;
    var pruned := Purge(closed, LapsedIds(closed, now));
    forall id ensures id in pruned.owners ==> id in pruned.ledger { ClosedReservation(db, id); }
    ClosedReservation(db, "");
    DrainedTables(pruned);
  }

  lemma DrainedTables(db: Database)
    requires forall id :: id in db.outbox ==> EntryValid(db, id)
    ensures Drained(db).ledger == db.ledger && Drained(db).owners == db.owners && Drained(db).schema == db.schema
  {
    hide Demanded;
  }

  /** The legacy store, its times of startup and an id of it. */
  ghost predicate LegacyStart(db: Database, times: seq<I64>, id: string) {
    && Inv(db) && db.schema == 0 && times != [] && MigrateTx(db, times[0]).Some?
    && (forall i :: 0 <= i < |times| ==> 0 <= times[i])
    && (id in db.view || id in db.owners)
  }

  function LegacyDeadline(db: Database, now: int, id: string): int { LegacyTime(db, now, id) + THIRTY_DAYS }

  /** Still as the migration left it, with the view row and reservation it had before. */
  predicate StillClosed(d: Database, db: Database, now: int, id: string) {
    && id in d.ledger && d.ledger[id].quarantined && d.ledger[id].sender.None?
    && d.ledger[id].retainUntil.Some? && d.ledger[id].retainUntil.value == LegacyDeadline(db, now, id)
    && (id in d.view <==> id in db.view) && (id in d.view ==> d.view[id] == db.view[id])
    && (id in d.owners <==> id in db.owners) && (id in d.owners ==> d.owners[id] == db.owners[id])
  }

  lemma FirstStartup(db: Database, times: seq<I64>, id: string)
    requires LegacyStart(db, times, id) && |times| == 1
    ensures var d := Restarts(db, times);
            && Inv(d) && d.schema == SCHEMA_VERSION && AllOwned(d)
            && if times[0] < LegacyDeadline(db, times[0], id) then StillClosed(d, db, times[0], id) else Gone(d, id)
  {
    hide Inv; hide StartupRun; hide MigrateTx; hide Step;
    var now := times[0];
    assert Restarts(db, times) == StartupRun(Restarts(db, []), now).db && times[..0] == [];
    LegacyStartup(db, now);
    var m := MigrateTx(db, now).value;
    MigratedInv(db, now);
    MigratedRow(db, now, id);
    StartupKeepsOwned(m, now);
    StartupAndDeadline(m, now, id);
  }

  lemma MigratedInv(db: Database, now: I64)
    requires Inv(db) && MigrateTx(db, now).Some? && 0 <= now
    ensures Inv(MigrateTx(db, now).value)
  {
    hide Inv; hide MigrateTx; hide CommitTx; hide QuarantineTx; hide PruneTx; hide DrainTx; hide SdkTx; hide ClaimTx;
    StepKeepsInv(db, Migrate(now));
  }

  /** A legacy id is kept, with its view row and reservation, through every startup before
      thirty days after its task's status time, or after the migration if it has no task;
      the first startup at or past that time removes it from all four tables, for good. */
  lemma {:induction false} LegacyLife(db: Database, times: seq<I64>, id: string)
    requires LegacyStart(db, times, id)
    ensures var d := Restarts(db, times);
            && Inv(d) && d.schema == SCHEMA_VERSION && AllOwned(d)
            && if forall i :: 0 <= i < |times| ==> times[i] < LegacyDeadline(db, times[0], id)
               then StillClosed(d, db, times[0], id)
               else Gone(d, id)
  {
    hide Inv; hide StartupRun; hide MigrateTx;
    if |times| == 1 {
      FirstStartup(db, times, id);
    } else {
      var init, last := times[..|times| - 1], times[|times| - 1];
      LegacyLife(db, init, id);
      var d := Restarts(db, init);
      StartupKeepsOwned(d, last);
      if forall i :: 0 <= i < |init| ==> init[i] < LegacyDeadline(db, times[0], id) {
        StartupAndDeadline(d, last, id);
        assert forall i :: 0 <= i < |init| ==> times[i] == init[i];
      } else {
        StartupKeepsGone(d, last, id);
        var i :| 0 <= i < |init| && !(init[i] < LegacyDeadline(db, times[0], id));
        assert times[i] == init[i];
      }
    }
  }
}
