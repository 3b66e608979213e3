// The view refines a map over the ledger: draining yields exactly the projection
// of the ledger, and drains, SDK writes and crashes never change that outcome.
module StoreRefinement {
  import opened Prelude
  import opened DurableTasks
  import opened RowCodec
  import opened StoreModel
  import opened StoreInvariant

  // ----- The drain ----------------------------------------------------------

  lemma DemandedIsRetained(id: string, row: Row)
    ensures Demanded(id, row).Some? ==> !row.quarantined
  {
  }

  function Retained(db: Database): set<string> {
    set id | id in db.ledger && !db.ledger[id].quarantined
  }

  /** The specification of the view: the projection mapped over the retained ledger. */
  function Projected(db: Database): map<string, ViewRow>
    requires Agreement(db)
  {
    map id | id in Retained(db) :: (assert Settled(db, id); Demanded(id, db.ledger[id]).value)
  }

  predicate FullyAgrees(db: Database) {
    && db.outbox == map[]
    && (forall id :: id in Retained(db) ==> ViewCurrent(db, id))
    && (forall id :: id in db.view ==> id in db.ledger)
  }

  /** What the view will show for an id once its repair is made. */
  function Shown(db: Database, id: string): Option<ViewRow> {
    if id in db.outbox then (if id in db.ledger then Demanded(id, db.ledger[id]) else None)
    else if id in db.view then Some(db.view[id])
    else None
  }

  lemma DrainedShows(db: Database, id: string)
    requires forall id :: id in db.outbox ==> EntryValid(db, id)
    ensures Shown(db, id) == if id in Drained(db).view then Some(Drained(db).view[id]) else None
  {
    hide Demanded;
    if id in db.outbox { assert EntryValid(db, id); }
  }

  lemma DrainedPoint(db: Database, id: string)
    requires Agreement(db) && id in db.ledger
    ensures if id in Retained(db) then ViewCurrent(Drained(db), id) && Drained(db).view[id] == Projected(db)[id]
            else
              && id !in db.outbox
              && (id in Drained(db).view <==> id in db.view)
              && (id in db.view ==> Drained(db).view[id] == db.view[id])
  {
    assert Settled(db, id);
    DemandedIsRetained(id, db.ledger[id]);
    if id in db.outbox { assert EntryValid(db, id); }
    hide Demanded;
  }

  lemma OutboxWithinLedger(db: Database)
    requires Agreement(db)
    ensures db.outbox.Keys <= db.ledger.Keys
  {
    hide Demanded; hide Settled;
    forall id | id in db.outbox ensures id in db.ledger { assert EntryValid(db, id); }
  }

  lemma DrainedFully(db: Database)
    requires Agreement(db) && db.schema == SCHEMA_VERSION
    ensures FullyAgrees(Drained(db))
  {
    hide Demanded; hide EntryValid; hide Settled;
    OutboxWithinLedger(db);
    forall id | id in Retained(Drained(db)) ensures ViewCurrent(Drained(db), id) { DrainedPoint(db, id); }
  }

  function Restrict(view: map<string, ViewRow>, ids: set<string>): map<string, ViewRow> {
    map id | id in view && id in ids :: view[id]
  }

  lemma DrainedView(db: Database)
    requires Agreement(db) && db.schema == SCHEMA_VERSION
    ensures Restrict(Drained(db).view, Retained(db)) == Projected(db)
    ensures Drained(db).view - Retained(db) == db.view - Retained(db)
  {
    hide Demanded; hide EntryValid; hide Settled;
    OutboxWithinLedger(db);
    forall id | id in db.ledger
      ensures id in Retained(db) ==> id in Drained(db).view && Drained(db).view[id] == Projected(db)[id]
      ensures id !in Retained(db) ==>
                && (id in Drained(db).view <==> id in db.view)
                && (id in db.view ==> Drained(db).view[id] == db.view[id])
    {
      DrainedPoint(db, id);
    }
  }

  /** From any state of any run the drain succeeds, empties the outbox and makes the
      view of the retained tasks the projection of the ledger; every other row keeps
      the projection it had. */
  lemma DrainProjects(db: Database)
    requires Inv(db) && db.schema == SCHEMA_VERSION
    ensures DrainTx(db) == Some(Drained(db))
    ensures FullyAgrees(Drained(db)) && Drained(db).ledger == db.ledger && Drained(db).owners == db.owners
    ensures Restrict(Drained(db).view, Retained(db)) == Projected(db)
    ensures Drained(db).view - Retained(db) == db.view - Retained(db)
  {
    InvDrains(db);
    DrainedFully(db);
    DrainedView(db);
    hide DrainTx; hide FullyAgrees; hide Restrict; hide Capacity; hide Meta; hide EntryValid; hide Settled;
  }

  // ----- Settling -----------------------------------------------------------

  /** The database once every pending repair is made. */
  function Settle(db: Database): Database
    requires Agreement(db)
  {
    if db.schema == SCHEMA_VERSION then Drained(db) else db
  }

  lemma DrainedAgrees(db: Database)
    requires Inv(db) && db.schema == SCHEMA_VERSION
    ensures Inv(Drained(db)) && Drained(Drained(db)) == Drained(db)
  {
    hide Count; hide Demanded;
    InvDrains(db);
    DrainAgrees(db);
    assert Ids(Drained(db)) == Ids(db);
    assert Drained(Drained(db)).view == Drained(db).view;
  }

  lemma DrainedByShown(a: Database, view: map<string, ViewRow>)
    requires forall id :: id in a.outbox ==> EntryValid(a, id)
    requires forall id :: Shown(a, id) == if id in view then Some(view[id]) else None
    ensures Drained(a).view == view
  {
    hide Demanded; hide Shown;
    forall id ensures id in Drained(a).view <==> id in view
      ensures id in view ==> Drained(a).view[id] == view[id]
    {
      DrainedShows(a, id);
    }
  }

  lemma ShownOfPurged(db: Database, ids: set<string>, id: string)
    ensures Shown(Purge(db, ids), id) == if id in ids then None else Shown(db, id)
  {
    hide Demanded;
  }

  lemma DrainedOfPurged(db: Database, ids: set<string>)
    requires Agreement(db)
    ensures Agreement(Purge(db, ids)) && Drained(Purge(db, ids)) == Purge(Drained(db), ids)
  {
    hide Shown; hide EntryValid; hide Settled;
    PurgeAgrees(db, ids);
    var view := Drained(db).view - ids;
    forall id ensures Shown(Purge(db, ids), id) == if id in view then Some(view[id]) else None {
      DrainedShows(db, id);
      ShownOfPurged(db, ids, id);
    }
    DrainedByShown(Purge(db, ids), view);
    assert map[] == Purge(Drained(db), ids).outbox;
  }

  lemma DrainedOfExtended(db: Database, extra: map<string, Row>)
    requires Agreement(db) && extra.Keys !! db.ledger.Keys
    requires forall id :: id in extra ==> QuarantineForm(extra[id])
    ensures Agreement(db.(ledger := db.ledger + extra))
    ensures Drained(db.(ledger := db.ledger + extra)) == Drained(db).(ledger := db.ledger + extra)
  {
    TombstonesAgree(db, extra);
    hide Demanded;
    var d := db.(ledger := db.ledger + extra);
    forall id ensures Shown(d, id) == if id in Drained(db).view then Some(Drained(db).view[id]) else None {
      DrainedShows(db, id);
      if id in db.outbox { assert EntryValid(db, id); }
    }
    DrainedByShown(d, Drained(db).view);
  }

  lemma ShownOfSdk(db: Database, w: WireTask, id: string)
    requires Agreement(db)
    ensures Shown(SdkTx(db, w), id) == Shown(db, id)
  {
    hide Decode; hide Project; hide Settled;
    if w.id in db.outbox { assert EntryValid(db, w.id); }
  }

  lemma SdkSettles(db: Database, w: WireTask)
    requires Agreement(db) && db.schema == SCHEMA_VERSION
    ensures Agreement(SdkTx(db, w)) && Drained(SdkTx(db, w)) == Drained(db)
  {
    hide Demanded; hide Shown; hide EntryValid; hide Settled;
    SdkAgrees(db, w);
    forall id ensures Shown(SdkTx(db, w), id) == if id in Drained(db).view then Some(Drained(db).view[id]) else None {
      ShownOfSdk(db, w, id);
      DrainedShows(db, id);
    }
    DrainedByShown(SdkTx(db, w), Drained(db).view);
  }

  /** Two databases that differ only in which repairs were already made. */
  predicate Alike(a: Database, b: Database) {
    Agreement(a) && Agreement(b) && a.schema == b.schema == SCHEMA_VERSION && Drained(a) == Drained(b)
  }

  lemma ShownOfUpsert(db: Database, t: DurableTask, id: string)
    requires Agreement(db) && UpsertOne(db, t).Committed? && UpsertOne(db, t).db != db
    ensures Shown(UpsertOne(db, t).db, id) ==
            if id == t.taskId then Some(ViewOf(Project(t).value, t.version)) else Shown(db, id)
    ensures UpsertOne(db, t).db == db.(ledger := db.ledger[t.taskId := Encode(t).value],
                                       outbox := UpsertOne(db, t).db.outbox)
  {
    EncodedDemands(t);
    hide Decode; hide Project; hide Encode; hide Settled;
    if t.taskId in db.outbox { assert EntryValid(db, t.taskId); }
    hide Demanded;
  }

  /** Settling after an upsert: the new row, and everything else as it settled before. */
  lemma DrainedOfUpsert(db: Database, t: DurableTask)
    requires Agreement(db) && UpsertOne(db, t).Committed?
    requires Agreement(UpsertOne(db, t).db)
    ensures var d := UpsertOne(db, t).db;
            d == db ||
            Drained(d) == Drained(db).(
                            ledger := db.ledger[t.taskId := Encode(t).value],
                            view := Drained(db).view[t.taskId := ViewOf(Project(t).value, t.version)])
  {
    var d := UpsertOne(db, t).db;
    if d != db {
      ShownOfUpsert(db, t, t.taskId);
      EncodedDemands(t);
      hide UpsertOne; hide Demanded; hide Shown; hide Project; hide Encode; hide Settled; hide EntryValid;
      var view := Drained(db).view[t.taskId := ViewOf(Project(t).value, t.version)];
      forall id ensures Shown(d, id) == if id in view then Some(view[id]) else None {
        ShownOfUpsert(db, t, id);
        DrainedShows(db, id);
      }
      DrainedByShown(d, view);
    }
  }

  lemma UpsertReadsLedger(a: Database, b: Database, t: DurableTask)
    requires a.ledger == b.ledger
    ensures UpsertOne(a, t).Committed? <==> UpsertOne(b, t).Committed?
    ensures UpsertOne(a, t).Committed? ==>
              && UpsertOne(a, t).db.schema == a.schema
              && UpsertOne(a, t).db.ledger == UpsertOne(b, t).db.ledger
              && (UpsertOne(a, t).db == a <==> UpsertOne(a, t).db.ledger == a.ledger)
  {
    assert Encode(t).Some? ==> Encode(t).value.version == t.version;
    hide Decode; hide Project; hide Encode;
  }

  lemma AlikeUpsert(a: Database, b: Database, t: DurableTask)
    requires Alike(a, b)
    ensures UpsertOne(a, t).Committed? <==> UpsertOne(b, t).Committed?
    ensures UpsertOne(a, t).Committed? ==> Alike(UpsertOne(a, t).db, UpsertOne(b, t).db)
  {
    hide UpsertOne; hide Demanded; hide EntryValid; hide Project; hide Encode;
    assert a.ledger == Drained(a).ledger && b.ledger == Drained(b).ledger;
    UpsertReadsLedger(a, b, t);
    UpsertReadsLedger(b, a, t);
    if UpsertOne(a, t).Committed? {
      UpsertAgrees(a, t);
      UpsertAgrees(b, t);
      DrainedOfUpsert(a, t);
      DrainedOfUpsert(b, t);
    }
  }

  lemma {:induction false} AlikeUpserts(a: Database, b: Database, ts: seq<DurableTask>)
    requires Alike(a, b)
    ensures Upserts(a, ts).Committed? <==> Upserts(b, ts).Committed?
    ensures Upserts(a, ts).Committed? ==> Alike(Upserts(a, ts).db, Upserts(b, ts).db)
  {
    hide UpsertOne; hide Alike;
    if ts != [] {
      AlikeUpserts(a, b, ts[..|ts| - 1]);
      if Upserts(a, ts[..|ts| - 1]).Committed? {
        AlikeUpsert(Upserts(a, ts[..|ts| - 1]).db, Upserts(b, ts[..|ts| - 1]).db, ts[|ts| - 1]);
      }
    }
  }

  lemma AlikePurged(a: Database, b: Database, ids: set<string>)
    requires Alike(a, b)
    ensures Alike(Purge(a, ids), Purge(b, ids))
  {
    hide EntryValid;
    DrainedOfPurged(a, ids);
    DrainedOfPurged(b, ids);
  }

  lemma AlikeRaised(a: Database, b: Database, epoch: Option<U64>)
    requires Alike(a, b)
    ensures RaiseEpoch(a, epoch).Some? <==> RaiseEpoch(b, epoch).Some?
    ensures RaiseEpoch(a, epoch).Some? ==> Alike(RaiseEpoch(a, epoch).value, RaiseEpoch(b, epoch).value)
  {
    hide EntryValid; hide Demanded;
    assert a.epoch == Drained(a).epoch && b.epoch == Drained(b).epoch;
    if RaiseEpoch(a, epoch).Some? {
      DrainedOfRaised(a, epoch);
      DrainedOfRaised(b, epoch);
    }
  }

  lemma DrainedOfRaised(db: Database, epoch: Option<U64>)
    requires Agreement(db) && RaiseEpoch(db, epoch).Some?
    ensures var d := RaiseEpoch(db, epoch).value;
            Agreement(d) && Drained(d) == Drained(db).(epoch := d.epoch)
  {
    RaiseAgrees(db, epoch);
    hide Demanded;
    var d := RaiseEpoch(db, epoch).value;
    forall id ensures Shown(d, id) == if id in Drained(db).view then Some(Drained(db).view[id]) else None {
      DrainedShows(db, id);
    }
    DrainedByShown(d, Drained(db).view);
  }

  /** A commit cannot tell which repairs were already made. */
  lemma AlikeCommit(a: Database, b: Database, batch: Batch)
    requires Alike(a, b)
    ensures CommitTx(a, batch).Committed? <==> CommitTx(b, batch).Committed?
    ensures CommitTx(a, batch).Committed? ==> Alike(CommitTx(a, batch).db, CommitTx(b, batch).db)
  {
    hide Alike; hide Project; hide Count; hide RaiseEpoch; hide Upserts;
    AlikeSchema(a, b);
    AlikeRaised(a, b, batch.epoch);
    if RaiseEpoch(a, batch.epoch).Some? {
      var c, d := RaiseEpoch(a, batch.epoch).value, RaiseEpoch(b, batch.epoch).value;
      AlikePurged(c, d, IdSet(batch.deletes));
      AlikeSchema(Purge(c, IdSet(batch.deletes)), Purge(d, IdSet(batch.deletes)));
      AlikeUpserts(Purge(c, IdSet(batch.deletes)), Purge(d, IdSet(batch.deletes)), batch.upserts);
    }
  }

  lemma AlikeSchema(a: Database, b: Database)
    requires Alike(a, b)
    ensures a.schema == b.schema && a.ledger == b.ledger && a.owners == b.owners && a.firstStart == b.firstStart
  {
    hide EntryValid;
    assert a.ledger == Drained(a).ledger && a.owners == Drained(a).owners && a.firstStart == Drained(a).firstStart;
    assert b.ledger == Drained(b).ledger && b.owners == Drained(b).owners && b.firstStart == Drained(b).firstStart;
  }

  lemma OwnerOnlyIsUnledgered(db: Database)
    requires Agreement(db) && db.schema == SCHEMA_VERSION
    ensures OwnerOnly(db) == db.owners.Keys - db.ledger.Keys
  {
    hide EntryValid; hide Settled;
  }

  function Tombstones(db: Database): map<string, Row>
    requires Retention(db.firstStart).Some? && forall id :: id in OwnerOnly(db) ==> ValidOwner(db, id)
  {
    map id | id in OwnerOnly(db) :: Tombstone(db, id, db.firstStart)
  }

  lemma AlikeQuarantined(a: Database, b: Database)
    requires Alike(a, b)
    ensures QuarantineTx(a).Some? <==> QuarantineTx(b).Some?
    ensures QuarantineTx(a).Some? ==> Alike(QuarantineTx(a).value, QuarantineTx(b).value)
  {
    hide Count; hide EntryValid; hide Settled; hide ValidTaskId; hide ValidAgentName;
    AlikeSchema(a, b);
    OwnerOnlyIsUnledgered(a);
    OwnerOnlyIsUnledgered(b);
    assert OwnerOnly(a) == OwnerOnly(b);
    assert forall id :: ValidOwner(a, id) == ValidOwner(b, id);
    if QuarantineTx(a).Some? {
      assert Tombstones(a) == Tombstones(b);
      DrainedOfExtended(a, Tombstones(a));
      DrainedOfExtended(b, Tombstones(b));
    }
  }

  // ----- Repairs never matter -----------------------------------------------

  /** Equal before the schema exists; afterwards equal up to repairs already made. */
  predicate Matches(a: Database, b: Database) {
    Inv(a) && Inv(b) && if a.schema == SCHEMA_VERSION then Alike(a, b) else a == b
  }

  predicate IsRepair(e: Event) { e.Drain? || e.SdkWrite? }

  predicate NoClaims(events: seq<Event>) {
    forall i :: 0 <= i < |events| ==> !events[i].ClaimOwner?
  }

  predicate HoldsReservation(db: Database, id: string, registration: string) {
    id in db.owners && db.owners[id].registration == registration
  }

  /** A release finds the same thing in both: no such reservation, or the same answer to
      whether the task has a view row. */
  predicate ReleasesAlike(a: Database, b: Database, id: string, registration: string) {
    HoldsReservation(a, id, registration) ==> (id in a.view <==> id in b.view)
  }

  lemma SameViewUnlessRetained(a: Database, b: Database, id: string)
    requires Alike(a, b) && id !in Retained(a)
    ensures id in a.view <==> id in b.view
  {
    AlikeSchema(a, b);
    forall db | db == a || db == b ensures id in db.view <==> id in Drained(db).view {
      if id in db.outbox {
        assert EntryValid(db, id);
        DemandedIsRetained(id, db.ledger[id]);
      }
    }
    hide EntryValid; hide Settled;
  }

  lemma DrainedOfReleased(db: Database, owners: map<string, Owner>)
    requires Agreement(db)
    ensures Agreement(db.(owners := owners)) && Drained(db.(owners := owners)) == Drained(db).(owners := owners)
  {
    var d := db.(owners := owners);
    forall id | id in d.outbox ensures EntryValid(d, id) { assert EntryValid(db, id); }
    forall id | id in d.ledger ensures Settled(d, id) { assert Settled(db, id); }
    hide Demanded; hide Settled;
    assert Drained(d).view == Drained(db).view;
  }

  /** Two stores that differ only in repairs made still do after a release, if and only if
      the release finds the same thing in both. */
  lemma AlikeReleasedIff(a: Database, b: Database, id: string, registration: string)
    requires Alike(a, b)
    ensures Alike(ReleaseTx(a, id, registration), ReleaseTx(b, id, registration)) <==>
            ReleasesAlike(a, b, id, registration)
  {
    AlikeSchema(a, b);
    var a', b' := ReleaseTx(a, id, registration), ReleaseTx(b, id, registration);
    DrainedOfReleased(a, a'.owners);
    DrainedOfReleased(b, b'.owners);
    assert a' == a.(owners := a'.owners) && b' == b.(owners := b'.owners);
    AlikeParts(a, b);
    hide Agreement; hide Drained;
    if a'.owners != b'.owners {
      assert HoldsReservation(a, id, registration);
    }
  }

  lemma StepKeepsInv(db: Database, e: Event)
    requires Inv(db) && !e.ClaimOwner?
    ensures Inv(Step(db, e))
  {
    hide Step; hide Capacity; hide Agreement; hide Meta;
    StepKeepsAgreement(db, e);
    StepKeepsCapacity(db, e);
    StepKeepsMeta(db, e);
  }

  lemma MatchingStep(a: Database, b: Database, e: Event)
    requires Matches(a, b) && !IsRepair(e) && !e.ClaimOwner? && !e.ReleaseOwner?
    ensures Matches(Step(a, e), Step(b, e))
  {
    hide Inv; hide MigrateTx; hide CommitTx; hide QuarantineTx; hide PruneTx;
    StepKeepsInv(a, e);
    StepKeepsInv(b, e);
    if a.schema == SCHEMA_VERSION {
      KeepsSchema(a, e);
      MatchParts(a, b);
      AlikeStep(a, b, e);
      hide Alike; hide Step;
    } else {
      MatchesItself(Step(a, e));
    }
  }

  lemma PruneIsStep(db: Database, now: I64)
    requires db.schema == SCHEMA_VERSION
    ensures Step(db, Prune(now)) == Purge(db, LapsedIds(db, now))
  {
    hide Purge; hide LapsedIds;
  }

  lemma QuarantineIsStep(db: Database)
    ensures Step(db, QuarantineOwners) == OrElse(QuarantineTx(db), db)
  {
    hide QuarantineTx;
  }

  lemma CommitIsStep(db: Database, b: Batch)
    ensures Step(db, CommitLedger(b)) == if CommitTx(db, b).Committed? then CommitTx(db, b).db else db
  {
    hide CommitTx;
  }

  lemma MigrateIsStep(db: Database, now: I64)
    requires db.schema == SCHEMA_VERSION
    ensures Step(db, Migrate(now)) == db
  {
  }

  lemma AlikeStep(a: Database, b: Database, e: Event)
    requires Alike(a, b) && !IsRepair(e) && !e.ClaimOwner? && !e.ReleaseOwner?
    ensures Alike(Step(a, e), Step(b, e))
  {
    AlikeSchema(a, b);
    assert a.schema == SCHEMA_VERSION;
    hide Alike; hide CommitTx; hide QuarantineTx; hide Purge; hide LapsedIds; hide Step;
    match e
    case Migrate(now) =>
      MigrateIsStep(a, now);
      MigrateIsStep(b, now);
    case QuarantineOwners =>
      QuarantineIsStep(a);
      QuarantineIsStep(b);
      AlikeQuarantined(a, b);
    case Prune(now) =>
      PruneIsStep(a, now);
      PruneIsStep(b, now);
      SameLapsed(a, b, now);
      AlikePurged(a, b, LapsedIds(a, now));
    case CommitLedger(batch) =>
      CommitIsStep(a, batch);
      CommitIsStep(b, batch);
      AlikeCommit(a, b, batch);
  }

  lemma SameLapsed(a: Database, b: Database, now: I64)
    requires a.ledger == b.ledger
    ensures LapsedIds(a, now) == LapsedIds(b, now)
  {
  }

  lemma KeepsSchema(db: Database, e: Event)
    requires db.schema == SCHEMA_VERSION
    ensures Step(db, e).schema == SCHEMA_VERSION
  {
    hide Count; hide Demanded; hide Upserts; hide UpsertOne;
    match e
    case CommitLedger(batch) =>
      if CommitTx(db, batch).Committed? {
        UpsertsGrow(Purge(RaiseEpoch(db, batch.epoch).value, IdSet(batch.deletes)), batch.upserts);
      }
    case _ =>
  }

  lemma MatchingRepair(a: Database, b: Database, e: Event)
    requires Matches(a, b) && IsRepair(e)
    ensures Matches(Step(a, e), b)
  {
    hide Inv;
    StepKeepsInv(a, e);
    if a.schema == SCHEMA_VERSION {
      KeepsSchema(a, e);
      MatchParts(a, b);
      RepairSettles(a, e);
      hide EntryValid; hide Settled; hide Step;
    }
  }

  lemma RepairSettles(db: Database, e: Event)
    requires Inv(db) && db.schema == SCHEMA_VERSION && IsRepair(e)
    ensures Agreement(Step(db, e)) && Drained(Step(db, e)) == Drained(db)
  {
    StepKeepsAgreement(db, e);
    match e
    case Drain => InvDrains(db); DrainedAgrees(db); hide DrainTx; hide EntryValid; hide Settled;
    case SdkWrite(wire) => SdkSettles(db, wire); hide EntryValid; hide Settled; hide SdkTx;
  }

  function WithoutRepairs(events: seq<Event>): seq<Event> {
    if events == [] then []
    else
      var init, last := WithoutRepairs(events[..|events| - 1]), events[|events| - 1];
      if IsRepair(last) then init else init + [last]
  }

  lemma MatchingRelease(a: Database, b: Database, id: string, registration: string)
    requires Matches(a, b)
    ensures Matches(ReleaseTx(a, id, registration), ReleaseTx(b, id, registration)) <==>
            ReleasesAlike(a, b, id, registration)
  {
    hide Capacity; hide Agreement; hide Meta;
    StepKeepsInv(a, ReleaseOwner(id, registration));
    StepKeepsInv(b, ReleaseOwner(id, registration));
    if a.schema == SCHEMA_VERSION {
      MatchParts(a, b);
      AlikeReleasedIff(a, b, id, registration);
      hide Alike;
    }
  }

  /** What the event finds in the run and in the run without repairs. */
  predicate FindsAlike(db: Database, before: seq<Event>, e: Event) {
    e.ReleaseOwner? ==>
      ReleasesAlike(Run(db, before), Run(db, WithoutRepairs(before)), e.taskId, e.registration)
  }

  predicate ReleasesAgree(db: Database, events: seq<Event>) {
    forall i :: 0 <= i < |events| ==> FindsAlike(db, events[..i], events[i])
  }

  /** The run, and the run without its drains and SDK writes, settle to the same database. */
  predicate SettlesAlike(db: Database, events: seq<Event>) {
    var a, b := Run(db, events), Run(db, WithoutRepairs(events));
    Agreement(a) && Agreement(b) && Settle(a) == Settle(b)
  }

  lemma {:induction false} RunsKeepInv(db: Database, events: seq<Event>)
    requires Inv(db) && NoClaims(events)
    ensures Inv(Run(db, events)) && Inv(Run(db, WithoutRepairs(events)))
  {
    hide Inv; hide Step;
    if events != [] {
      var init, last := events[..|events| - 1], events[|events| - 1];
      RunsKeepInv(db, init);
      StepKeepsInv(Run(db, init), last);
      if !IsRepair(last) {
        StepKeepsInv(Run(db, WithoutRepairs(init)), last);
        assert (WithoutRepairs(init) + [last])[..|WithoutRepairs(init)|] == WithoutRepairs(init);
      }
    }
  }

  /** One more event keeps the two runs matched if and only if it finds the same in both. */
  lemma MatchingExtends(db: Database, events: seq<Event>)
    requires Inv(db) && NoClaims(events) && events != []
    requires Matches(Run(db, events[..|events| - 1]), Run(db, WithoutRepairs(events[..|events| - 1])))
    ensures Matches(Run(db, events), Run(db, WithoutRepairs(events))) <==>
            FindsAlike(db, events[..|events| - 1], events[|events| - 1])
  {
    hide Inv; hide Matches; hide ReleasesAlike;
    var init, last := events[..|events| - 1], events[|events| - 1];
    var a, b := Run(db, init), Run(db, WithoutRepairs(init));
    if IsRepair(last) {
      hide Step;
      MatchingRepair(a, b, last);
    } else {
      assert (WithoutRepairs(init) + [last])[..|WithoutRepairs(init)|] == WithoutRepairs(init);
      if last.ReleaseOwner? {
        MatchingRelease(a, b, last.taskId, last.registration);
        ReleaseIsStep(a, last);
        ReleaseIsStep(b, last);
      } else {
        hide Step;
        MatchingStep(a, b, last);
      }
    }
  }

  lemma ReleaseIsStep(db: Database, e: Event)
    requires e.ReleaseOwner?
    ensures Step(db, e) == ReleaseTx(db, e.taskId, e.registration)
  {
  }

  lemma {:induction false} RunsMatch(db: Database, events: seq<Event>)
    requires Inv(db) && NoClaims(events) && ReleasesAgree(db, events)
    ensures Matches(Run(db, events), Run(db, WithoutRepairs(events)))
  {
    hide Inv; hide Step; hide Matches; hide FindsAlike;
    if events == [] {
      MatchesItself(db);
    } else {
      var init := events[..|events| - 1];
      assert forall i :: 0 <= i < |init| ==> init[..i] == events[..i];
      RunsMatch(db, init);
      MatchingExtends(db, events);
    }
  }

  lemma SettlingMatches(a: Database, b: Database)
    requires Inv(a) && Inv(b)
    ensures Matches(a, b) <==> Settle(a) == Settle(b)
  {
    hide Capacity; hide Meta; hide EntryValid; hide Settled;
  }

  lemma {:induction false} SettlesIffAlike(db: Database, events: seq<Event>)
    requires Inv(db) && NoClaims(events)
    ensures (forall i :: 0 <= i <= |events| ==> SettlesAlike(db, events[..i])) <==> ReleasesAgree(db, events)
  {
    hide Inv; hide Run; hide Matches; hide FindsAlike; hide SettlesAlike; hide WithoutRepairs;
    if ReleasesAgree(db, events) {
      forall i | 0 <= i <= |events| ensures SettlesAlike(db, events[..i]) {
        var before := events[..i];
        assert forall k :: 0 <= k < |before| ==> before[..k] == events[..k];
        RunsMatch(db, before);
        SettlesIff(db, before);
      }
    }
    if forall i :: 0 <= i <= |events| ==> SettlesAlike(db, events[..i]) {
      forall i | 0 <= i < |events| ensures FindsAlike(db, events[..i], events[i]) {
        var upTo := events[..i + 1];
        assert upTo[..|upTo| - 1] == events[..i] && upTo[|upTo| - 1] == events[i];
        assert SettlesAlike(db, events[..i]) && SettlesAlike(db, upTo);
        SettlesIff(db, events[..i]);
        SettlesIff(db, upTo);
        MatchingExtends(db, upTo);
      }
    }
  }

  lemma SettlesIff(db: Database, events: seq<Event>)
    requires Inv(db) && NoClaims(events)
    ensures SettlesAlike(db, events) <==> Matches(Run(db, events), Run(db, WithoutRepairs(events)))
  {
    RunsKeepInv(db, events);
    hide Capacity; hide Meta; hide EntryValid; hide Settled; hide Run; hide WithoutRepairs; hide Matches; hide Settle;
    SettlingMatches(Run(db, events), Run(db, WithoutRepairs(events)));
  }

  // ----- The condition, seen from the run itself ----------------------------

  /** The event takes the id's row out of the view. */
  predicate Removes(db: Database, e: Event, id: string) {
    || (e.CommitLedger? && CommitTx(db, e.batch).Committed? && id in IdSet(e.batch.deletes))
    || (e.Prune? && db.schema == SCHEMA_VERSION && id in LapsedIds(db, e.now))
  }

  /** The id had a view row when the run began, and nothing has taken it out since. */
  predicate Survives(db: Database, events: seq<Event>, id: string) {
    id in db.view && forall i :: 0 <= i < |events| ==> !Removes(Run(db, events[..i]), events[i], id)
  }

  /** The release finds no reservation, or a view row exactly if one has been there from
      the start: none that a repair has put there meanwhile. */
  predicate ReleasesBlindly(db: Database, before: seq<Event>, e: Event) {
    var now := Run(db, before);
    e.ReleaseOwner? && HoldsReservation(now, e.taskId, e.registration) ==>
      (e.taskId in now.view <==> Survives(db, before, e.taskId))
  }

  predicate BlindReleases(db: Database, events: seq<Event>) {
    forall i :: 0 <= i < |events| ==> ReleasesBlindly(db, events[..i], events[i])
  }

  lemma CommitView(db: Database, b: Batch, id: string)
    requires CommitTx(db, b).Committed?
    ensures id in CommitTx(db, b).db.view <==> id in db.view && id !in IdSet(b.deletes)
  {
    hide Count; hide Upserts; hide Project; hide ValidTaskId;
    UpsertsGrow(Purge(RaiseEpoch(db, b.epoch).value, IdSet(b.deletes)), b.upserts);
  }

  /** Without repairs and claims the view only loses rows, to deletions and prunes. */
  lemma StepView(db: Database, e: Event, id: string)
    requires !IsRepair(e) && !e.ClaimOwner?
    ensures id in Step(db, e).view <==> id in db.view && !Removes(db, e, id)
  {
    hide CommitTx; hide Migratable; hide ValidOwner; hide Count; hide LapsedIds; hide IdSet;
    if e.CommitLedger? && CommitTx(db, e.batch).Committed? { CommitView(db, e.batch, id); }
  }

  lemma RemovesAlike(a: Database, b: Database, e: Event, id: string)
    requires Matches(a, b)
    ensures Removes(a, e, id) <==> Removes(b, e, id)
  {
    hide Inv; hide Alike; hide CommitTx; hide LapsedIds;
    if a.schema == SCHEMA_VERSION {
      MatchParts(a, b);
      AlikeSchema(a, b);
      if e.CommitLedger? { AlikeCommit(a, b, e.batch); }
      if e.Prune? { SameLapsed(a, b, e.now); }
    }
  }

  lemma SurvivesStep(db: Database, events: seq<Event>, id: string)
    requires events != []
    ensures Survives(db, events, id) <==>
            Survives(db, events[..|events| - 1], id) && !Removes(Run(db, events[..|events| - 1]), events[|events| - 1], id)
  {
    hide Removes; hide Run;
    var init := events[..|events| - 1];
    assert forall i :: 0 <= i < |init| ==> init[..i] == events[..i] && init[i] == events[i];
  }

  lemma RepairRemovesNothing(db: Database, e: Event, id: string)
    requires IsRepair(e)
    ensures !Removes(db, e, id)
  {
  }

  /** The run without repairs has a view row exactly where this run can tell. */
  lemma {:induction false} ViewWithoutRepairs(db: Database, events: seq<Event>, id: string)
    requires Inv(db) && NoClaims(events) && ReleasesAgree(db, events)
    ensures id in Run(db, WithoutRepairs(events)).view <==> Survives(db, events, id)
  {
    hide Inv; hide Step; hide Matches; hide FindsAlike; hide Removes; hide Survives;
    if events == [] {
      SurvivesNothing(db, id);
    } else {
      var init, last := events[..|events| - 1], events[|events| - 1];
      assert forall i :: 0 <= i < |init| ==> init[..i] == events[..i];
      ViewWithoutRepairs(db, init, id);
      SurvivesStep(db, events, id);
      if IsRepair(last) {
        RepairRemovesNothing(Run(db, init), last, id);
      } else {
        RunsMatch(db, init);
        assert (WithoutRepairs(init) + [last])[..|WithoutRepairs(init)|] == WithoutRepairs(init);
        StepView(Run(db, WithoutRepairs(init)), last, id);
        RemovesAlike(Run(db, init), Run(db, WithoutRepairs(init)), last, id);
      }
    }
  }

  lemma SurvivesNothing(db: Database, id: string)
    ensures Survives(db, [], id) <==> id in db.view
  {
  }

  /** Once the releases before it agreed, a release agrees exactly if it is blind. */
  lemma BlindIffAlike(db: Database, before: seq<Event>, e: Event)
    requires Inv(db) && NoClaims(before) && ReleasesAgree(db, before)
    ensures FindsAlike(db, before, e) <==> ReleasesBlindly(db, before, e)
  {
    hide Inv; hide Run; hide WithoutRepairs; hide Survives; hide ReleasesAgree;
    if e.ReleaseOwner? { ViewWithoutRepairs(db, before, e.taskId); }
  }

  lemma {:induction false} BlindIffAgree(db: Database, events: seq<Event>)
    requires Inv(db) && NoClaims(events)
    ensures BlindReleases(db, events) <==> ReleasesAgree(db, events)
  {
    hide Inv; hide Run; hide FindsAlike; hide ReleasesBlindly;
    if events != [] {
      var init, last := events[..|events| - 1], events[|events| - 1];
      assert forall i :: 0 <= i < |init| ==> init[..i] == events[..i] && init[i] == events[i];
      BlindIffAgree(db, init);
      if ReleasesAgree(db, init) {
        BlindIffAlike(db, init, last);
      } else {
        var i :| 0 <= i < |init| && !FindsAlike(db, init[..i], init[i]);
        assert !FindsAlike(db, events[..i], events[i]);
        var k :| 0 <= k < |init| && !ReleasesBlindly(db, init[..k], init[k]);
        assert !ReleasesBlindly(db, events[..k], events[k]);
      }
    }
  }

  /** Whatever drains and SDK writes happened, or failed to happen before a crash: at every
      point of the run the settled database is the one the other transactions alone
      determine, if and only if no release finds a view row that a repair has put there. */
  lemma RepairsDoNotMatter(db: Database, events: seq<Event>)
    requires Inv(db) && NoClaims(events)
    ensures (forall i :: 0 <= i <= |events| ==> SettlesAlike(db, events[..i])) <==> BlindReleases(db, events)
  {
    hide Inv; hide SettlesAlike; hide BlindReleases; hide ReleasesAgree;
    SettlesIffAlike(db, events);
    BlindIffAgree(db, events);
  }

  /** The event releases nothing, or the reservation of an id that is no retained task. */
  predicate ReleasesUnretained(db: Database, e: Event) {
    e.ReleaseOwner? && HoldsReservation(db, e.taskId, e.registration) ==> e.taskId !in Retained(db)
  }

  /** Releases of reservations that never became a task always meet the condition. */
  lemma UnretainedReleasesAreBlind(db: Database, events: seq<Event>)
    requires Inv(db) && NoClaims(events)
    requires forall i :: 0 <= i < |events| ==> ReleasesUnretained(Run(db, events[..i]), events[i])
    ensures BlindReleases(db, events)
  {
    hide Inv; hide Run; hide ReleasesUnretained; hide BlindReleases; hide ReleasesAgree;
    UnretainedReleasesAgree(db, events);
    BlindIffAgree(db, events);
  }

  lemma {:induction false} UnretainedReleasesAgree(db: Database, events: seq<Event>)
    requires Inv(db) && NoClaims(events)
    requires forall i :: 0 <= i < |events| ==> ReleasesUnretained(Run(db, events[..i]), events[i])
    ensures ReleasesAgree(db, events)
  {
    hide Inv; hide Step; hide Matches; hide Run; hide ReleasesUnretained; hide FindsAlike;
    if events != [] {
      var init, last := events[..|events| - 1], events[|events| - 1];
      assert forall i :: 0 <= i < |init| ==> init[..i] == events[..i];
      UnretainedReleasesAgree(db, init);
      RunsMatch(db, init);
      UnretainedFindsAlike(db, init, last);
    }
  }

  lemma UnretainedFindsAlike(db: Database, before: seq<Event>, e: Event)
    requires Matches(Run(db, before), Run(db, WithoutRepairs(before)))
    requires ReleasesUnretained(Run(db, before), e)
    ensures FindsAlike(db, before, e)
  {
    hide Inv; hide Run; hide WithoutRepairs; hide Alike;
    var a, b := Run(db, before), Run(db, WithoutRepairs(before));
    if e.ReleaseOwner? && a.schema == SCHEMA_VERSION && HoldsReservation(a, e.taskId, e.registration) {
      SameViewUnlessRetained(a, b, e.taskId);
    }
  }

  lemma MatchesItself(db: Database)
    requires Inv(db)
    ensures Matches(db, db)
  {
  }

  // ----- Startup ------------------------------------------------------------

  lemma QuarantineSucceeds(db: Database)
    requires Inv(db) && db.schema == SCHEMA_VERSION
    ensures QuarantineTx(db).Some? <==> ReservationsValid(db)
  {
    QuarantineIds(db);
    OwnerOnlyIsUnledgered(db);
    hide Count; hide Demanded;
  }

  lemma FinishCompletes(db: Database, now: I64)
    requires Inv(db) && db.schema == SCHEMA_VERSION
    ensures var pruned := Purge(db, LapsedIds(db, now));
            Inv(pruned) && FinishStartup(db, now) == Ready(Drained(pruned)) &&
            FullyAgrees(Drained(pruned)) && Inv(Drained(pruned))
  {
    hide Inv; hide ValidateStore; hide DrainTx; hide FullyAgrees; hide Drained;
    hide MigrateTx; hide CommitTx; hide QuarantineTx; hide ClaimTx; hide SdkTx;
    StepKeepsInv(db, Prune(now));
    var pruned := Purge(db, LapsedIds(db, now));
    InvValidates(pruned);
    InvDrains(pruned);
    DrainProjects(pruned);
    DrainedAgrees(pruned);
  }

  lemma PreparedStartup(db: Database, now: I64)
    requires db.schema == SCHEMA_VERSION && 0 <= now
    ensures StartupRun(db, now) == (match QuarantineTx(db)
                                    case None => Halted(db)
                                    case Some(closed) => FinishStartup(closed, now))
  {
    hide QuarantineTx; hide FinishStartup;
  }

  predicate ReservationsValid(db: Database) {
    forall id :: id in db.owners && id !in db.ledger ==> ValidOwner(db, id)
  }

  lemma PreparedCompletes(db: Database, now: I64)
    requires Inv(db) && db.schema == SCHEMA_VERSION && 0 <= now
    ensures StartupRun(db, now).Ready? <==> ReservationsValid(db)
    ensures StartupRun(db, now).Ready? ==> FullyAgrees(StartupRun(db, now).db) && Inv(StartupRun(db, now).db)
  {
    hide Inv; hide QuarantineTx; hide FinishStartup; hide StartupRun; hide FullyAgrees;
    hide MigrateTx; hide CommitTx; hide ClaimTx; hide SdkTx; hide DrainTx; hide ValidOwner;
    PreparedStartup(db, now);
    QuarantineSucceeds(db);
    StepKeepsInv(db, QuarantineOwners);
    KeepsSchema(db, QuarantineOwners);
    if QuarantineTx(db).Some? { FinishCompletes(QuarantineTx(db).value, now); }
  }

  /** Startup of a legacy store goes on from the migrated one. */
  lemma LegacyStartup(db: Database, now: I64)
    requires db.schema == 0 && 0 <= now
    ensures MigrateTx(db, now).None? ==> StartupRun(db, now) == Halted(db)
    ensures MigrateTx(db, now).Some? ==>
              var d := MigrateTx(db, now).value;
              d.schema == SCHEMA_VERSION && d.owners.Keys <= d.ledger.Keys && StartupRun(db, now) == StartupRun(d, now)
  {
    hide QuarantineTx; hide FinishStartup; hide Count; hide Migratable; hide ValidOwner; hide Legacy; hide Tombstone;
  }

  /** A prepared store halts at startup only on a reservation whose id or recipient is
      malformed, a legacy store only when its migration is refused; otherwise startup ends
      in full agreement. */
  lemma StartupCompletes(db: Database, now: I64)
    requires Inv(db) && 0 <= now
    ensures StartupRun(db, now).Ready? <==>
            if db.schema == SCHEMA_VERSION then ReservationsValid(db) else MigrateTx(db, now).Some?
    ensures StartupRun(db, now).Ready? ==> FullyAgrees(StartupRun(db, now).db) && Inv(StartupRun(db, now).db)
  {
    assert db.schema == SCHEMA_VERSION || db.schema == 0;
    hide Inv; hide StartupRun; hide FullyAgrees; hide MigrateTx;
    if db.schema == SCHEMA_VERSION {
      PreparedCompletes(db, now);
    } else {
      LegacyStartup(db, now);
      if MigrateTx(db, now).Some? {
        StepKeepsInv(db, Migrate(now));
        PreparedCompletes(MigrateTx(db, now).value, now);
      }
    }
  }

  /** A retained row without view row or pending repair stops every startup. */
  lemma BareRowHalts(db: Database, now: I64, id: string)
    requires db.schema == SCHEMA_VERSION && 0 <= now
    requires id in db.ledger && !db.ledger[id].quarantined && id !in db.view && id !in db.outbox
    ensures StartupRun(db, now).Halted?
  {
    hide Count; hide Demanded; hide DrainTx; hide EntryValid; hide ValidOwner; hide Tombstone;
    PreparedStartup(db, now);
    if QuarantineTx(db).Some? {
      var closed := QuarantineTx(db).value;
      assert id in closed.ledger && closed.ledger[id] == db.ledger[id];
      var pruned := PruneTx(closed, now).value;
      assert id in pruned.ledger && !ViewCurrent(pruned, id) && !ValidateStore(pruned);
    }
  }

  /** After a claim that takes effect, the next startup is ready if and only if the claim
      swept no only copy of a retained task's projection and every open reservation is
      well formed. */
  lemma ClaimThenStartup(db: Database, c: ClaimRequest, now: I64)
    requires Inv(db) && db.schema == SCHEMA_VERSION && 0 <= now && !ClaimTx(db, c).Declined?
    ensures StartupRun(AfterClaim(db, c), now).Ready? <==>
            ClaimSafe(db, c) && ReservationsValid(AfterClaim(db, c))
  {
    hide StartupRun; hide ReservationsValid; hide Settled; hide EntryValid; hide Count; hide TerminalBefore; hide Swept;
    KeepsSchema(db, ClaimOwner(c));
    if ClaimSafe(db, c) {
      ClaimKeepsInv(db, c);
      StartupCompletes(AfterClaim(db, c), now);
    } else {
      var id :| Swept(db, c, id) && id in db.ledger && !db.ledger[id].quarantined && id !in db.outbox;
      SweptIff(db, c, id);
      BareRowHalts(AfterClaim(db, c), now, id);
    }
  }

  lemma FinishOfMatching(a: Database, b: Database, now: I64)
    requires Matches(a, b) && a.schema == SCHEMA_VERSION
    ensures FinishStartup(a, now) == FinishStartup(b, now)
    ensures FinishStartup(a, now).Ready?
  {
    hide Inv; hide Alike; hide Matches; hide FinishStartup;
    MatchParts(a, b);
    FinishCompletes(a, now);
    FinishCompletes(b, now);
    AlikeSchema(a, b);
    AlikePurged(a, b, LapsedIds(a, now));
    AlikeParts(Purge(a, LapsedIds(a, now)), Purge(b, LapsedIds(b, now)));
  }

  lemma StartupOfMatching(a: Database, b: Database, now: I64)
    requires Matches(a, b) && a.schema == SCHEMA_VERSION && 0 <= now
    ensures StartupRun(a, now).Ready? <==> StartupRun(b, now).Ready?
    ensures StartupRun(a, now).Ready? ==> StartupRun(a, now) == StartupRun(b, now)
  {
    hide Inv; hide Alike; hide Matches; hide QuarantineTx; hide FinishStartup; hide StartupRun;
    hide MigrateTx; hide CommitTx; hide ClaimTx; hide SdkTx; hide DrainTx;
    MatchParts(a, b);
    PreparedStartup(a, now);
    PreparedStartup(b, now);
    AlikeQuarantined(a, b);
    MatchingStep(a, b, QuarantineOwners);
    KeepsSchema(a, QuarantineOwners);
    if QuarantineTx(a).Some? { FinishOfMatching(QuarantineTx(a).value, QuarantineTx(b).value, now); }
  }

  /** A crash between the ledger commit and its drain is invisible after restart:
      startup reaches the same database as if the drain had run. */
  lemma CrashThenStartup(db: Database, b: Batch, now: I64)
    requires Inv(db) && CommitTx(db, b).Committed? && 0 <= now
    ensures var crashed := CommitTx(db, b).db;
            Inv(crashed) && DrainTx(crashed).Some? &&
            var drained := DrainTx(crashed).value;
            (StartupRun(crashed, now).Ready? <==> StartupRun(drained, now).Ready?) &&
            (StartupRun(crashed, now).Ready? ==> StartupRun(crashed, now) == StartupRun(drained, now))
  {
    hide CommitTx; hide Inv; hide DrainTx; hide StartupRun; hide Matches; hide Drained;
    CommitKeepsInv(db, b);
    var crashed := CommitTx(db, b).db;
    EntriesAreValid(crashed);
    InvDrains(crashed);
    MatchesDrained(crashed);
    StartupOfMatching(crashed, Drained(crashed), now);
  }

  /** Startup after any run reaches what startup after its ledger transactions alone
      reaches, whichever drains and SDK writes a crash prevented. */
  lemma RestartAfterRun(db: Database, events: seq<Event>, now: I64)
    requires Inv(db) && NoClaims(events) && BlindReleases(db, events) && 0 <= now
    ensures var a, b := StartupRun(Run(db, events), now), StartupRun(Run(db, WithoutRepairs(events)), now);
            (a.Ready? <==> b.Ready?) && (a.Ready? ==> a == b)
  {
    hide Inv; hide Run; hide StartupRun; hide BlindReleases; hide ReleasesAgree; hide WithoutRepairs; hide Alike;
    BlindIffAgree(db, events);
    RunsMatch(db, events);
    if Run(db, events).schema == SCHEMA_VERSION {
      StartupOfMatching(Run(db, events), Run(db, WithoutRepairs(events)), now);
    }
  }

  lemma CommitKeepsInv(db: Database, b: Batch)
    requires Inv(db) && CommitTx(db, b).Committed?
    ensures Inv(CommitTx(db, b).db) && CommitTx(db, b).db.schema == SCHEMA_VERSION
  {
    hide CommitTx; hide Inv; hide Step;
    CommitNeedsSchema(db, b);
    CommitIsStep(db, b);
    StepKeepsInv(db, CommitLedger(b));
    KeepsSchema(db, CommitLedger(b));
  }

  lemma CommitNeedsSchema(db: Database, b: Batch)
    ensures CommitTx(db, b).Committed? ==> db.schema == SCHEMA_VERSION
  {
    hide Upserts; hide Fits;
  }

  lemma MatchesDrained(db: Database)
    requires Inv(db) && db.schema == SCHEMA_VERSION
    ensures Matches(db, Drained(db))
  {
    DrainedAgrees(db);
    hide EntryValid; hide Settled; hide Count;
  }

  lemma AlikeParts(a: Database, b: Database)
    requires Alike(a, b)
    ensures Agreement(a) && Agreement(b) && Drained(a) == Drained(b)
  {
    hide EntryValid; hide Settled;
  }

  lemma MatchParts(a: Database, b: Database)
    requires Matches(a, b) && a.schema == SCHEMA_VERSION
    ensures Inv(a) && Inv(b) && Alike(a, b) && b.schema == SCHEMA_VERSION
  {
    hide Inv; hide EntryValid; hide Settled;
  }
}
