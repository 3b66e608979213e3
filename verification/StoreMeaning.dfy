// What the transactions mean for whoever reads the tables: which batches are accepted and
// what is then stored, what the view shows, how long legacy rows stay, and what startup
// checks.
module StoreMeaning {
  import opened Prelude
  import opened DurableTasks
  import opened RowCodec
  import opened StoreModel
  import opened StoreInvariant
  import opened StoreRefinement
  import opened StoreCommits
  import Decimal

  // ----- One task of a batch ------------------------------------------------

  /** The ledger holds exactly this task. */
  predicate Stores(db: Database, t: DurableTask) {
    t.taskId in db.ledger && Decode(t.taskId, db.ledger[t.taskId]) == Some(t)
  }

  /** A task with a projection and a version SQLite can hold. */
  predicate Keepable(t: DurableTask) { Project(t).Some? && 1 <= t.version <= 0x7FFF_FFFF_FFFF_FFFF }

  /** The id is free, or the task stored under it is older, or is this very task. */
  predicate Welcome(db: Database, t: DurableTask) {
    || t.taskId !in db.ledger
    || (!db.ledger[t.taskId].quarantined && (t.version > db.ledger[t.taskId].version || Stores(db, t)))
  }

  /** A retained task of no smaller version that is another one. */
  predicate Conflicts(db: Database, t: DurableTask) {
    && t.taskId in db.ledger && !db.ledger[t.taskId].quarantined
    && t.version <= db.ledger[t.taskId].version
    && Decode(t.taskId, db.ledger[t.taskId]).Some? && !Stores(db, t)
  }

  /** A task is taken exactly when it can be kept and is welcome, and needs reconciliation
      exactly when it can be kept and conflicts with what is stored. */
  lemma UpsertOutcome(db: Database, t: DurableTask)
    ensures UpsertOne(db, t).Committed? <==> Keepable(t) && Welcome(db, t)
    ensures UpsertOne(db, t).Reconcile? <==> Keepable(t) && Conflicts(db, t)
  {
    if t.taskId in db.ledger { DecodedColumns(t.taskId, db.ledger[t.taskId]); }
    hide Project; hide Decode;
  }

  lemma DecodedColumns(id: string, row: Row)
    ensures Decode(id, row).Some? ==> !row.quarantined && Decode(id, row).value.version == row.version
  {
  }

  /** A task taken is stored, exactly it; if it is new its repair is pending, exactly its
      projection at its version; and nothing else moves. */
  lemma UpsertEffect(db: Database, t: DurableTask)
    requires UpsertOne(db, t).Committed? && Behind(db, t.taskId)
    ensures var d := UpsertOne(db, t).db;
            && Stores(d, t)
            && d == db.(ledger := d.ledger, outbox := d.outbox)
            && (forall id :: id != t.taskId ==> SameAt(d, db, id))
            && (if Stores(db, t) && t.version <= db.ledger[t.taskId].version then d == db
                else t.taskId in d.outbox && d.outbox[t.taskId] == Pending(t.version, Canonical(Project(t).value)))
  {
    EncodedDemands(t);
    hide Project; hide Decode;
    forall id | id != t.taskId ensures SameAt(UpsertOne(db, t).db, db, id) { UpsertFrame(db, t, id); }
  }

  // ----- A whole batch ------------------------------------------------------

  predicate Deleted(b: Batch, id: string) { exists i :: 0 <= i < |b.deletes| && b.deletes[i] == id }

  predicate Named(b: Batch, id: string) { exists i :: 0 <= i < |b.upserts| && b.upserts[i].taskId == id }

  /** What is checked before any task is looked at. */
  predicate WellFormedBatch(db: Database, b: Batch) {
    && db.schema == SCHEMA_VERSION
    && (b.epoch.Some? ==> Decimal.Parse(db.epoch).Some?)
    && (forall i :: 0 <= i < |b.deletes| ==> IdWord(b.deletes[i]))
    && (forall i :: 0 <= i < |b.upserts| ==> Project(b.upserts[i]).Some?)
    && Count(set id | id in Ids(db) + BatchIds(b.upserts) && (Named(b, id) || !Deleted(b, id))) <= 4096
  }

  /** The task finds its id free because the batch deletes it first, or is welcome. */
  predicate Taken(db: Database, b: Batch, t: DurableTask) { Keepable(t) && (Deleted(b, t.taskId) || Welcome(db, t)) }

  predicate Clashes(db: Database, b: Batch, t: DurableTask) {
    Keepable(t) && !Deleted(b, t.taskId) && Conflicts(db, t)
  }

  lemma DeletedIsIdSet(b: Batch, id: string)
    ensures Deleted(b, id) <==> id in IdSet(b.deletes)
    ensures Named(b, id) <==> id in BatchIds(b.upserts)
  {
  }

  function Emptied(db: Database, b: Batch): Database
    requires RaiseEpoch(db, b.epoch).Some?
  {
    Purge(RaiseEpoch(db, b.epoch).value, IdSet(b.deletes))
  }

  lemma SurvivorsFit(db: Database, b: Batch)
    requires RaiseEpoch(db, b.epoch).Some?
    ensures Fits(Emptied(db, b), b.upserts) <==>
            Count(set id | id in Ids(db) + BatchIds(b.upserts) && (Named(b, id) || !Deleted(b, id))) <= 4096
  {
    hide Count; hide Deleted; hide Named; hide IdSet; hide BatchIds;
    var purged, ids := Emptied(db, b), BatchIds(b.upserts);
    UnionCount(Ids(purged), ids);
    forall id ensures Deleted(b, id) <==> id in IdSet(b.deletes) ensures Named(b, id) <==> id in ids {
      DeletedIsIdSet(b, id);
    }
    assert Ids(purged) == Ids(db) - IdSet(b.deletes);
    assert Ids(purged) + ids == set id | id in Ids(db) + BatchIds(b.upserts) && (Named(b, id) || !Deleted(b, id));
  }

  lemma WellFormedIff(db: Database, b: Batch)
    ensures WellFormedBatch(db, b) <==>
            && db.schema == SCHEMA_VERSION && RaiseEpoch(db, b.epoch).Some?
            && (forall i :: 0 <= i < |b.deletes| ==> ValidTaskId(b.deletes[i]))
            && (forall i :: 0 <= i < |b.upserts| ==> Project(b.upserts[i]).Some?)
            && Fits(Emptied(db, b), b.upserts)
  {
    hide Project; hide Fits; hide Count; hide Named; hide Deleted; hide Ids; hide BatchIds; hide Emptied;
    forall i | 0 <= i < |b.deletes| ensures IdWord(b.deletes[i]) <==> ValidTaskId(b.deletes[i]) { WordsIff(b.deletes[i]); }
    hide ValidTaskId; hide IdWord;
    if RaiseEpoch(db, b.epoch).Some? { SurvivorsFit(db, b); }
  }

  lemma CommitUnfolds(db: Database, b: Batch)
    ensures if WellFormedBatch(db, b) then RaiseEpoch(db, b.epoch).Some? && CommitTx(db, b) == Upserts(Emptied(db, b), b.upserts)
            else CommitTx(db, b).Refused?
  {
    WellFormedIff(db, b);
    hide Project; hide ValidTaskId; hide Fits; hide Upserts; hide WellFormedBatch;
  }

  lemma EmptiedAt(db: Database, b: Batch, t: DurableTask)
    requires RaiseEpoch(db, b.epoch).Some?
    ensures UpsertOne(Emptied(db, b), t).Committed? <==> Taken(db, b, t)
    ensures UpsertOne(Emptied(db, b), t).Reconcile? <==> Clashes(db, b, t)
  {
    DeletedIsIdSet(b, t.taskId);
    UpsertOutcome(Emptied(db, b), t);
    hide UpsertOne; hide Decode; hide Project; hide IdSet;
  }

  /** A batch of distinct ids is accepted exactly when it is well formed, fits the cap after
      its deletions, and every task of it is taken. */
  lemma CommitAcceptedIff(db: Database, b: Batch)
    requires Distinct(b.upserts)
    ensures CommitTx(db, b).Committed? <==>
            WellFormedBatch(db, b) && forall i :: 0 <= i < |b.upserts| ==> Taken(db, b, b.upserts[i])
  {
    CommitUnfolds(db, b);
    hide WellFormedBatch; hide UpsertOne; hide Taken; hide Upserts; hide CommitTx;
    if WellFormedBatch(db, b) {
      UpsertsApart(Emptied(db, b), b.upserts);
      forall i | 0 <= i < |b.upserts|
        ensures UpsertOne(Emptied(db, b), b.upserts[i]).Committed? <==> Taken(db, b, b.upserts[i])
      {
        EmptiedAt(db, b, b.upserts[i]);
      }
    }
  }

  lemma {:induction false} UpsertsReconcile(db: Database, ts: seq<DurableTask>)
    requires Distinct(ts)
    ensures Upserts(db, ts).Reconcile? <==>
            exists i :: 0 <= i < |ts| && UpsertOne(db, ts[i]).Reconcile? &&
                        forall j :: 0 <= j < i ==> UpsertOne(db, ts[j]).Committed?
  {
    hide UpsertOne; hide SameAt;
    if ts != [] {
      var init, n := ts[..|ts| - 1], |ts| - 1;
      UpsertsReconcile(db, init);
      UpsertsApart(db, init);
      assert forall j :: 0 <= j < n ==> init[j] == ts[j];
      if Upserts(db, init).Committed? {
        LastOfDistinct(db, ts);
      } else if Upserts(db, init).Reconcile? {
        var i :| 0 <= i < n && UpsertOne(db, init[i]).Reconcile? && forall j :: 0 <= j < i ==> UpsertOne(db, init[j]).Committed?;
        assert UpsertOne(db, ts[i]).Reconcile?;
      }
    }
  }

  lemma LastOfDistinct(db: Database, ts: seq<DurableTask>)
    requires Distinct(ts) && ts != [] && Upserts(db, ts[..|ts| - 1]).Committed?
    ensures var t, d := ts[|ts| - 1], Upserts(db, ts[..|ts| - 1]).db;
            && (UpsertOne(d, t).Committed? <==> UpsertOne(db, t).Committed?)
            && (UpsertOne(d, t).Reconcile? <==> UpsertOne(db, t).Reconcile?)
  {
    var init, t := ts[..|ts| - 1], ts[|ts| - 1];
    UpsertsApart(db, init);
    assert t.taskId !in BatchIds(init);
    var d := Upserts(db, init).db;
    assert SameAt(d, db, t.taskId);
    UpsertOutcome(d, t);
    UpsertOutcome(db, t);
    hide UpsertOne; hide Upserts; hide Decode; hide Project;
  }

  /** A well-formed batch of distinct ids needs reconciliation, and is rolled back, exactly
      when the first of its tasks that is not taken clashes with the task stored. */
  lemma ReconcileIff(db: Database, b: Batch)
    requires Distinct(b.upserts)
    ensures CommitTx(db, b).Reconcile? <==>
            WellFormedBatch(db, b) &&
            exists i :: 0 <= i < |b.upserts| && Clashes(db, b, b.upserts[i]) &&
                        forall j :: 0 <= j < i ==> Taken(db, b, b.upserts[j])
  {
    CommitUnfolds(db, b);
    hide WellFormedBatch; hide UpsertOne; hide Taken; hide Clashes; hide Upserts; hide CommitTx;
    if WellFormedBatch(db, b) {
      var d, ts := Emptied(db, b), b.upserts;
      UpsertsReconcile(d, ts);
      forall i | 0 <= i < |ts|
        ensures UpsertOne(d, ts[i]).Committed? <==> Taken(db, b, ts[i])
        ensures UpsertOne(d, ts[i]).Reconcile? <==> Clashes(db, b, ts[i])
      {
        EmptiedAt(db, b, ts[i]);
      }
    }
  }

  /** Task `i` is the last of its id in the batch. */
  predicate LastNamed(ts: seq<DurableTask>, i: nat)
    requires i < |ts|
  {
    forall j :: i < j < |ts| ==> ts[j].taskId != ts[i].taskId
  }

  lemma {:induction false} UpsertsStore(db: Database, ts: seq<DurableTask>, i: nat)
    requires Upserts(db, ts).Committed? && i < |ts| && LastNamed(ts, i)
    ensures Stores(Upserts(db, ts).db, ts[i])
  {
    hide UpsertOne;
    var init, t := ts[..|ts| - 1], ts[|ts| - 1];
    var d := Upserts(db, init).db;
    if i < |init| {
      UpsertsStore(db, init, i);
      UpsertFrame(d, t, ts[i].taskId);
    } else {
      UpsertStores(d, t);
    }
  }

  lemma UpsertStores(db: Database, t: DurableTask)
    requires UpsertOne(db, t).Committed?
    ensures Stores(UpsertOne(db, t).db, t)
  {
    EncodedDemands(t);
    hide Project; hide Decode;
  }

  lemma {:induction false} UpsertsSpare(db: Database, ts: seq<DurableTask>, id: string)
    requires Upserts(db, ts).Committed? && id !in BatchIds(ts)
    ensures SameAt(Upserts(db, ts).db, db, id)
  {
    hide UpsertOne;
    if ts != [] {
      var init, t := ts[..|ts| - 1], ts[|ts| - 1];
      assert BatchIds(ts) == BatchIds(init) + {t.taskId};
      UpsertsSpare(db, init, id);
      UpsertFrame(Upserts(db, init).db, t, id);
    }
  }

  /** After an accepted batch, duplicates included, the ledger holds for every id the last
      task the batch names for it. */
  lemma CommitStores(db: Database, b: Batch, i: nat)
    requires CommitTx(db, b).Committed? && i < |b.upserts| && LastNamed(b.upserts, i)
    ensures Stores(CommitTx(db, b).db, b.upserts[i])
  {
    CommitUnfolds(db, b);
    hide CommitTx; hide Upserts; hide WellFormedBatch;
    UpsertsStore(Emptied(db, b), b.upserts, i);
  }

  /** The row of an id in all four tables. */
  predicate SameRow(d: Database, db: Database, id: string) {
    && SameAt(d, db, id)
    && (id in d.view <==> id in db.view) && (id in d.view ==> d.view[id] == db.view[id])
    && (id in d.owners <==> id in db.owners) && (id in d.owners ==> d.owners[id] == db.owners[id])
  }

  predicate Gone(d: Database, id: string) { id !in d.ledger && id !in d.outbox && id !in d.view && id !in d.owners }

  /** An id the batch does not name is gone from all four tables if it is deleted and
      otherwise untouched; a named one keeps its view row and reservation unless deleted. */
  lemma CommitFrame(db: Database, b: Batch, id: string)
    requires CommitTx(db, b).Committed?
    ensures var d := CommitTx(db, b).db;
            && (!Named(b, id) && Deleted(b, id) ==> Gone(d, id))
            && (!Named(b, id) && !Deleted(b, id) ==> SameRow(d, db, id))
            && (id in d.view <==> id in db.view && !Deleted(b, id)) && (id in d.view ==> d.view[id] == db.view[id])
            && (id in d.owners <==> id in db.owners && !Deleted(b, id)) && (id in d.owners ==> d.owners[id] == db.owners[id])
            && d.schema == db.schema && d.firstStart == db.firstStart
  {
    CommitUnfolds(db, b);
    DeletedIsIdSet(b, id);
    hide CommitTx; hide Upserts; hide WellFormedBatch; hide IdSet; hide BatchIds; hide Deleted; hide Named;
    UpsertsGrow(Emptied(db, b), b.upserts);
    if !Named(b, id) { UpsertsSpare(Emptied(db, b), b.upserts, id); }
  }

  // ----- What the view shows ------------------------------------------------

  /** The columns a client is served from. */
  predicate RowShows(v: ViewRow, t: DurableTask) {
    && v.contextId == t.contextId && v.version == t.version
    && Project(t).Some? && v.json == Canonical(Project(t).value)
    && v.stamp.Some? && ShownAt(t, v.stamp.value)
    && (v.state == Submitted <==> t.state.Queued?)
    && (v.state == Working <==> t.state.Leased? || t.state.Acknowledged?)
    && (v.state == Completed <==> t.state.Replied?)
    && (v.state == WireFailed <==> t.state.Failed? || t.state.Expired?)
    && (v.state == WireRejected <==> t.state.Rejected?)
    && (v.state == WireCanceled <==> t.state.Canceled?)
  }

  /** In a settled store every retained task is shown by its view row, as it is. */
  lemma SettledViewShows(db: Database, id: string)
    requires FullyAgrees(db) && id in Retained(db)
    ensures id in db.view && Decode(id, db.ledger[id]).Some?
    ensures var t := Decode(id, db.ledger[id]).value;
            t.taskId == id && Project(t).Some? && RowShows(db.view[id], t)
  {
    assert ViewCurrent(db, id);
    var t := Decode(id, db.ledger[id]).value;
    ProjectionShows(t);
    DecodedColumns(id, db.ledger[id]);
    hide Project;
  }

  /** Committed and drained, a task of the batch is what clients are shown. */
  lemma CommittedIsShown(db: Database, b: Batch, i: nat)
    requires Inv(db) && CommitTx(db, b).Committed? && i < |b.upserts| && LastNamed(b.upserts, i)
    ensures var d, t := DrainTx(CommitTx(db, b).db), b.upserts[i];
            d.Some? && t.taskId in d.value.view && Project(t).Some? && RowShows(d.value.view[t.taskId], t)
  {
    CommitKeepsInv(db, b);
    CommitStores(db, b, i);
    var c, t := CommitTx(db, b).db, b.upserts[i];
    EntriesAreValid(c);
    DrainProjects(c);
    DecodedColumns(t.taskId, c.ledger[t.taskId]);
    hide CommitTx; hide DrainTx; hide Inv; hide FullyAgrees; hide Decode; hide RowShows; hide Restrict;
    SettledViewShows(Drained(c), t.taskId);
  }

  /** A claim's sweep takes a current view row exactly if its task finished by the cutoff. */
  lemma SweepsFinished(t: DurableTask, cutoff: int)
    requires Project(t).Some?
    ensures TerminalBefore(ViewOf(Project(t).value, if 1 <= t.version <= MAX_I64 then t.version else 1), cutoff) <==>
            Finished(t.state) && t.terminal.Some? && t.terminal.value <= cutoff
  {
    ProjectionShows(t);
    StoredIffShaped(t);
  }

  /** A release removes the reservation of its own registration if the task has no view row,
      and nothing else. */
  lemma ReleaseMeaning(db: Database, id: string, registration: string, other: string)
    ensures var d := ReleaseTx(db, id, registration);
            && d == db.(owners := d.owners)
            && (other in d.owners <==>
                  other in db.owners &&
                  !(other == id && db.owners[id].registration == registration && id !in db.view))
            && (other in d.owners ==> d.owners[other] == db.owners[other])
  {
  }

  /** A clean task is one that is stored, has nothing pending and is shown as it is. */
  lemma CleanIff(db: Database, id: string, t: DurableTask)
    ensures CleanAuthority(db, id) == Some(t) <==>
            && t.taskId == id && Stores(db, t) && id !in db.outbox
            && id in db.view && ShowsExactly(db.view[id], t)
  {
    if id in db.ledger {
      DecodedColumns(id, db.ledger[id]);
      DecodedId(id, db.ledger[id]);
    }
    hide Project; hide Decode;
  }

  lemma DecodedId(id: string, row: Row)
    ensures Decode(id, row).Some? ==> Decode(id, row).value.taskId == id
  {
  }

  // ----- What startup checks ------------------------------------------------

  /** The view row has every column of the task's projection, and its version. */
  predicate ShowsExactly(v: ViewRow, t: DurableTask) {
    && Project(t).Some?
    && var w := Project(t).value;
    && v.contextId == w.contextId && v.state == w.state && v.stamp == w.timestamp
    && v.version == t.version && v.json == Canonical(w)
  }

  /** A ledger row startup is content with: a closed one without sender and with a deadline,
      or one that holds a task with a projection, pending or shown. */
  predicate InOrder(db: Database, id: string)
    requires id in db.ledger
  {
    var row := db.ledger[id];
    if row.quarantined then row.sender.None? && row.state == "legacy_identity_unavailable" && row.retainUntil.Some?
    else
      && Decode(id, row).Some?
      && var t := Decode(id, row).value;
      Project(t).Some? && (id in db.outbox || (id in db.view && ShowsExactly(db.view[id], t)))
  }

  lemma InOrderIff(db: Database, id: string)
    requires id in db.ledger
    ensures Settled(db, id) <==> InOrder(db, id)
  {
    DecodedColumns(id, db.ledger[id]);
    hide Project; hide Decode;
  }

  /** Validation accepts exactly the prepared stores within the cap whose every ledger row is
      in order and whose every pending entry is its row's projection. */
  lemma ValidatesExactly(db: Database)
    ensures ValidateStore(db) <==>
            && db.schema == SCHEMA_VERSION && Count(db.ledger.Keys) <= 4096
            && (forall id :: id in db.ledger ==> InOrder(db, id))
            && (forall id :: id in db.outbox ==> EntryValid(db, id))
  {
    hide Count; hide Demanded;
    forall id | id in db.ledger ensures Settled(db, id) <==> InOrder(db, id) { InOrderIff(db, id); }
    hide InOrder;
    if forall id :: id in db.outbox ==> EntryValid(db, id) {
      assert db.outbox.Keys <= db.ledger.Keys;
      SubsetCount(db.outbox.Keys, db.ledger.Keys);
    }
  }

  /** A pending entry is valid exactly if its row is retained and holds a task whose
      projection and version the entry has. */
  lemma EntryValidIff(db: Database, id: string)
    requires id in db.outbox
    ensures EntryValid(db, id) <==>
            && id in db.ledger && !db.ledger[id].quarantined
            && Decode(id, db.ledger[id]).Some?
            && var t := Decode(id, db.ledger[id]).value;
            && Project(t).Some?
            && db.outbox[id].version == t.version && db.outbox[id].json == Canonical(Project(t).value)
  {
    if id in db.ledger { DecodedColumns(id, db.ledger[id]); }
    hide Decode; hide Project;
  }

  /** A startup with a clock before the epoch is refused and changes nothing. */
  lemma NoStartupBeforeEpoch(db: Database, now: I64)
    requires now < 0
    ensures StartupRun(db, now) == Halted(db) && Step(db, Migrate(now)) == db
  {
    hide MigrateTx; hide QuarantineTx; hide PruneTx; hide DrainTx; hide CommitTx; hide ClaimTx; hide SdkTx;
  }

  /** A startup that is refused keeps what its transactions had committed until then. */
  lemma HaltedKeeps(db: Database, now: I64)
    requires 0 <= now && StartupRun(db, now).Halted?
    ensures var halted := StartupRun(db, now).db;
            match MigrateTx(db, now)
            case None => halted == db
            case Some(migrated) =>
              match QuarantineTx(migrated)
              case None => halted == migrated
              case Some(closed) => halted == Purge(closed, LapsedIds(closed, now)) && !(ValidateStore(halted) && DrainTx(halted).Some?)
  {
    hide MigrateTx; hide Purge; hide LapsedIds; hide ValidateStore; hide DrainTx; hide Count; hide ValidOwner;
  }
}
