// What every transaction keeps: retained ids within capacity, and a view that
// either agrees with the ledger or has its repair pending.
module StoreInvariant {
  import opened Prelude
  import opened DurableTasks
  import opened RowCodec
  import opened StoreModel
  import Decimal

  predicate Capacity(db: Database) {
    if db.schema == SCHEMA_VERSION then Count(Ids(db)) <= MAX_RETAINED_TASKS
    else db.schema == 0 && db.ledger == map[] && db.outbox == map[]
  }

  /** The retained ids fit the cap, before the schema is prepared and after. */
  predicate Bounded(db: Database) { Count(Ids(db)) <= MAX_RETAINED_TASKS }

  predicate Settled(db: Database, id: string)
    requires id in db.ledger
  {
    if db.ledger[id].quarantined then QuarantineForm(db.ledger[id])
    else Demanded(id, db.ledger[id]).Some? && (id in db.outbox || ViewCurrent(db, id))
  }

  predicate Agreement(db: Database) {
    && (forall id :: id in db.ledger ==> Settled(db, id))
    && (forall id :: id in db.outbox ==> EntryValid(db, id))
    && (db.schema == SCHEMA_VERSION ==>
          forall id :: id in db.view ==> id in db.ledger && db.view[id].version <= db.ledger[id].version)
  }

  predicate Meta(db: Database) {
    db.schema == SCHEMA_VERSION ==>
      Decimal.Parse(db.epoch).Some? && 0 <= db.firstStart && Retention(db.firstStart).Some?
  }

  predicate Inv(db: Database) { Capacity(db) && Agreement(db) && Meta(db) }

  // ----- Consequences of the invariant --------------------------------------

  lemma SubsetCount(a: set<string>, b: set<string>)
    requires a <= b
    ensures Count(a) <= Count(b)
  {
    assert b == a + (b - a);
  }

  lemma UnionCount(a: set<string>, b: set<string>)
    ensures Count(a + b) == Count(a) + Count(b - a)
  {
    assert a + b == a + (b - a);
  }

  lemma InsertCount(a: set<string>, id: string)
    ensures Count(a + {id}) <= Count(a) + 1
  {
    assert id !in a ==> |a + {id}| == |a| + 1;
    assert id in a ==> a + {id} == a;
  }

  /** A prepared store that keeps the invariant passes its own validation. */
  lemma InvValidates(db: Database)
    requires Inv(db) && db.schema == SCHEMA_VERSION
    ensures ValidateStore(db)
  {
    hide Count;
    SubsetCount(db.ledger.Keys, Ids(db));
    assert db.outbox.Keys <= db.ledger.Keys;
    SubsetCount(db.outbox.Keys, db.ledger.Keys);
  }

  lemma EntriesAreValid(db: Database)
    requires Inv(db)
    ensures forall id :: id in db.outbox ==> EntryValid(db, id)
  {
    hide EntryValid; hide Settled;
  }

  /** Every entry of a store that keeps the invariant can be drained, whatever the
      older view rows hold. */
  lemma InvDrains(db: Database)
    requires Inv(db) && db.schema == SCHEMA_VERSION
    ensures DrainTx(db) == Some(Drained(db))
  {
    forall id | id in db.outbox ensures Drainable(db, id) {
      assert EntryValid(db, id);
    }
  }

  // ----- Each transaction keeps the agreement -------------------------------

  lemma MigrateAgrees(db: Database, now: I64)
    requires Inv(db) && MigrateTx(db, now).Some?
    ensures Agreement(MigrateTx(db, now).value)
  {
    if db.schema == 0 {
      var d := MigrateTx(db, now).value;
      forall id | id in d.ledger ensures Settled(d, id) {
        assert id in db.view ==> d.ledger[id] == Legacy(db, id);
        assert id !in db.view ==> d.ledger[id] == Tombstone(db, id, now);
      }
    }
  }

  lemma TombstonesAgree(db: Database, extra: map<string, Row>)
    requires Agreement(db) && extra.Keys !! db.ledger.Keys
    requires forall id :: id in extra ==> QuarantineForm(extra[id])
    ensures Agreement(db.(ledger := db.ledger + extra))
  {
    var d := db.(ledger := db.ledger + extra);
    forall id | id in d.outbox ensures EntryValid(d, id) {
      assert EntryValid(db, id);
    }
    forall id | id in d.ledger ensures Settled(d, id) {
      if id in db.ledger { assert Settled(db, id); }
    }
  }

  lemma PurgeAgrees(db: Database, ids: set<string>)
    requires Agreement(db)
    ensures Agreement(Purge(db, ids))
  {
    var d := Purge(db, ids);
    forall id | id in d.outbox ensures EntryValid(d, id) {
      assert EntryValid(db, id);
    }
    forall id | id in d.ledger ensures Settled(d, id) {
      assert Settled(db, id);
    }
  }

  lemma DrainAgrees(db: Database)
    requires Agreement(db) && DrainTx(db).Some?
    ensures Agreement(DrainTx(db).value)
  {
    var d := DrainTx(db).value;
    forall id | id in d.ledger ensures Settled(d, id) {
      assert Settled(db, id);
      if id in db.outbox { assert EntryValid(db, id); }
    }
    forall id | id in d.view ensures id in d.ledger && d.view[id].version <= d.ledger[id].version {
      if id in db.outbox { assert EntryValid(db, id); }
    }
  }

  lemma SdkAgrees(db: Database, w: WireTask)
    requires Agreement(db)
    ensures Agreement(SdkTx(db, w))
  {
    var d := SdkTx(db, w);
    if d != db {
      assert EntryValid(db, w.id);
      forall id | id in d.outbox ensures EntryValid(d, id) {
        assert EntryValid(db, id);
      }
      forall id | id in d.ledger ensures Settled(d, id) {
        assert Settled(db, id);
      }
    }
  }

  lemma EncodedDemands(t: DurableTask)
    requires Project(t).Some? && Encode(t).Some?
    ensures Decode(t.taskId, Encode(t).value) == Some(t)
    ensures Demanded(t.taskId, Encode(t).value) == Some(ViewOf(Project(t).value, t.version))
  {
    DecodeOfEncode(t);
  }

  lemma UpsertAgrees(db: Database, t: DurableTask)
    requires Agreement(db) && UpsertOne(db, t).Committed?
    ensures Agreement(UpsertOne(db, t).db)
  {
    var d := UpsertOne(db, t).db;
    EncodedDemands(t);
    if t.taskId in db.outbox { assert EntryValid(db, t.taskId); }
    forall id | id in d.outbox ensures EntryValid(d, id) {
      if id != t.taskId { assert EntryValid(db, id); }
    }
    forall id | id in d.ledger ensures Settled(d, id) {
      if id in db.ledger { assert Settled(db, id); }
    }
  }

  lemma {:induction false} UpsertsAgree(db: Database, ts: seq<DurableTask>)
    requires Agreement(db) && Upserts(db, ts).Committed?
    ensures Agreement(Upserts(db, ts).db)
  {
    if ts != [] {
      UpsertsAgree(db, ts[..|ts| - 1]);
      UpsertAgrees(Upserts(db, ts[..|ts| - 1]).db, ts[|ts| - 1]);
    }
  }

  lemma RaiseAgrees(db: Database, epoch: Option<U64>)
    requires Agreement(db) && RaiseEpoch(db, epoch).Some?
    ensures Agreement(RaiseEpoch(db, epoch).value)
  {
    var d := RaiseEpoch(db, epoch).value;
    forall id | id in d.outbox ensures EntryValid(d, id) { assert EntryValid(db, id); }
    forall id | id in d.ledger ensures Settled(d, id) { assert Settled(db, id); }
  }

  lemma CommitAgrees(db: Database, b: Batch)
    requires Agreement(db) && CommitTx(db, b).Committed?
    ensures Agreement(CommitTx(db, b).db)
  {
    hide Count; hide Demanded;
    var raised := RaiseEpoch(db, b.epoch).value;
    RaiseAgrees(db, b.epoch);
    PurgeAgrees(raised, IdSet(b.deletes));
    UpsertsAgree(Purge(raised, IdSet(b.deletes)), b.upserts);
  }

  // ----- Claims and the agreement -------------------------------------------

  function AfterClaim(db: Database, c: ClaimRequest): Database { Step(db, ClaimOwner(c)) }

  /** The id's view row shows a task that is over, at no time or no later than the cutoff. */
  predicate Swept(db: Database, c: ClaimRequest, id: string) {
    && id in db.view
    && var row := db.view[id];
    && (row.state.Completed? || row.state.WireFailed? || row.state.WireRejected? || row.state.WireCanceled?)
    && (row.stamp.Some? ==> row.stamp.value <= c.cutoff)
  }

  lemma SweptIff(db: Database, c: ClaimRequest, id: string)
    ensures id in OldTerminal(db, c.cutoff) <==> Swept(db, c, id)
  {
  }

  /** The task is retained already, so its id is not to be had. */
  predicate TaskRetained(db: Database, c: ClaimRequest) {
    db.schema == SCHEMA_VERSION && c.taskId in db.ledger
  }

  /** A reservation of the id that the sweep does not remove. */
  predicate Reserved(db: Database, c: ClaimRequest) { c.taskId in db.owners && !Swept(db, c, c.taskId) }

  /** The ids that count after the sweep leave room for one more. */
  predicate RoomToClaim(db: Database, c: ClaimRequest) {
    var kept := set id | id in db.owners && !Swept(db, c, id);
    Count(if db.schema == SCHEMA_VERSION then db.ledger.Keys + kept else kept) < 4096
  }

  predicate Tells(db: Database, c: ClaimRequest, claim: Claim) {
    var mine := Owner(c.registration, Some(c.recipient));
    match claim
    case Declined =>
      || TaskRetained(db, c)
      || (Reserved(db, c) && db.owners[c.taskId] != mine)
      || (!Reserved(db, c) && RoomToClaim(db, c) && c.taskId in db.view && !Swept(db, c, c.taskId))
    case AlreadyMine(_) => !TaskRetained(db, c) && Reserved(db, c) && db.owners[c.taskId] == mine
    case Full(_) => !TaskRetained(db, c) && !Reserved(db, c) && !RoomToClaim(db, c)
    case Claimed(_) =>
      && !TaskRetained(db, c) && !Reserved(db, c) && RoomToClaim(db, c)
      && (c.taskId in db.view ==> Swept(db, c, c.taskId))
  }

  /** What a claim that is not declined does to the tables, row by row. */
  predicate ClaimsRow(db: Database, d: Database, c: ClaimRequest, won: bool, id: string) {
    && (id in d.view <==> id in db.view && !Swept(db, c, id))
    && (id in d.view ==> d.view[id] == db.view[id])
    && if id == c.taskId && won then id in d.owners && d.owners[id] == Owner(c.registration, Some(c.recipient))
       else (id in d.owners <==> id in db.owners && !Swept(db, c, id)) && (id in d.owners ==> d.owners[id] == db.owners[id])
  }

  ghost predicate ClaimsRows(db: Database, d: Database, c: ClaimRequest, won: bool) {
    forall id :: ClaimsRow(db, d, c, won, id)
  }

  /** The outcome of a claim by case, and its effect: the view and the reservations lose
      exactly the swept ids, the winner's reservation is there, and no other table moves. */
  lemma ClaimMeaning(db: Database, c: ClaimRequest)
    ensures Tells(db, c, ClaimTx(db, c))
    ensures var d, claim := AfterClaim(db, c), ClaimTx(db, c);
            && d == db.(view := d.view, owners := d.owners)
            && (claim.Declined? ==> d == db)
            && (!claim.Declined? ==> ClaimsRows(db, d, c, !claim.Full?))
  {
    hide Count; hide OldTerminal; hide Swept;
    forall id ensures id in OldTerminal(db, c.cutoff) <==> Swept(db, c, id) { SweptIff(db, c, id); }
    var lapsed := OldTerminal(db, c.cutoff);
    var swept := db.(owners := db.owners - lapsed, view := db.view - lapsed);
    assert swept.owners.Keys == set id | id in db.owners && !Swept(db, c, id);
  }

  /** No row the claim would sweep is the only copy of a retained task's projection. */
  predicate ClaimSafe(db: Database, c: ClaimRequest) {
    forall id :: Swept(db, c, id) && id in db.ledger && !db.ledger[id].quarantined ==> id in db.outbox
  }

  lemma SweepAgrees(db: Database, lapsed: set<string>, owners: map<string, Owner>)
    requires Agreement(db) && db.schema == SCHEMA_VERSION && lapsed <= db.view.Keys
    ensures Agreement(db.(view := db.view - lapsed, owners := owners)) <==>
            forall id :: id in lapsed && id in db.ledger && !db.ledger[id].quarantined ==> id in db.outbox
  {
    var d := db.(view := db.view - lapsed, owners := owners);
    forall id | id in d.outbox ensures EntryValid(d, id) { assert EntryValid(db, id); }
    forall id | id in lapsed && id in db.ledger && !db.ledger[id].quarantined && id !in db.outbox
      ensures !Settled(d, id)
    {
      assert id !in d.view;
    }
    forall id | id in d.ledger && (id !in lapsed || db.ledger[id].quarantined || id in db.outbox)
      ensures Settled(d, id)
    {
      assert Settled(db, id);
    }
  }

  lemma ClaimTables(db: Database, c: ClaimRequest)
    requires !ClaimTx(db, c).Declined?
    ensures AfterClaim(db, c) ==
            db.(view := db.view - OldTerminal(db, c.cutoff), owners := AfterClaim(db, c).owners)
  {
    hide Count; hide OldTerminal;
  }

  /** A claim that is not declined keeps the agreement exactly when it sweeps no
      retained row whose projection is not pending. */
  lemma ClaimAgreesIff(db: Database, c: ClaimRequest)
    requires Agreement(db) && db.schema == SCHEMA_VERSION && !ClaimTx(db, c).Declined?
    ensures Agreement(AfterClaim(db, c)) <==> ClaimSafe(db, c)
  {
    hide Agreement; hide AfterClaim; hide ClaimTx; hide TerminalBefore; hide Swept;
    forall id ensures id in OldTerminal(db, c.cutoff) <==> Swept(db, c, id) { SweptIff(db, c, id); }
    ClaimTables(db, c);
    SweepAgrees(db, OldTerminal(db, c.cutoff), AfterClaim(db, c).owners);
  }

  lemma ReleaseAgrees(db: Database, id: string, registration: string)
    requires Agreement(db)
    ensures Agreement(ReleaseTx(db, id, registration))
  {
    var d := ReleaseTx(db, id, registration);
    forall id | id in d.outbox ensures EntryValid(d, id) { assert EntryValid(db, id); }
    forall id | id in d.ledger ensures Settled(d, id) { assert Settled(db, id); }
  }

  // ----- Capacity -----------------------------------------------------------

  lemma UpsertGrows(db: Database, t: DurableTask)
    requires UpsertOne(db, t).Committed?
    ensures var d := UpsertOne(db, t).db;
            Ids(d) == Ids(db) + {t.taskId} && d.owners == db.owners && d.view == db.view &&
            d.epoch == db.epoch && d.schema == db.schema && d.firstStart == db.firstStart
  {
    hide Project; hide Encode; hide Decode;
  }

  lemma {:induction false} UpsertsGrow(db: Database, ts: seq<DurableTask>)
    requires Upserts(db, ts).Committed?
    ensures var d := Upserts(db, ts).db;
            Ids(d) == Ids(db) + BatchIds(ts) && d.owners == db.owners && d.view == db.view &&
            d.epoch == db.epoch && d.schema == db.schema && d.firstStart == db.firstStart
  {
    hide UpsertOne; hide Ids;
    if ts != [] {
      UpsertsGrow(db, ts[..|ts| - 1]);
      UpsertGrows(Upserts(db, ts[..|ts| - 1]).db, ts[|ts| - 1]);
      assert BatchIds(ts) == BatchIds(ts[..|ts| - 1]) + {ts[|ts| - 1].taskId};
    }
  }

  /** A committed batch retains exactly the surviving ids and the batch's own. */
  lemma CommitIds(db: Database, b: Batch)
    requires CommitTx(db, b).Committed?
    ensures Ids(CommitTx(db, b).db) == Ids(db) - IdSet(b.deletes) + BatchIds(b.upserts)
    ensures Count(Ids(CommitTx(db, b).db)) <= MAX_RETAINED_TASKS
  {
    hide Count; hide Upserts; hide Project; hide ValidTaskId;
    var purged := Purge(RaiseEpoch(db, b.epoch).value, IdSet(b.deletes));
    UpsertsGrow(purged, b.upserts);
    assert Ids(purged) == Ids(db) - IdSet(b.deletes);
    UnionCount(Ids(purged), BatchIds(b.upserts));
  }

  /** Once the schema is prepared, closing owner-only reservations changes no id and
      is never refused for lack of room. */
  lemma QuarantineIds(db: Database)
    requires Capacity(db) && db.schema == SCHEMA_VERSION
    ensures Count(db.ledger.Keys) + Count(OwnerOnly(db)) <= MAX_RETAINED_TASKS
    ensures QuarantineTx(db).Some? ==> Ids(QuarantineTx(db).value) == Ids(db)
  {
    hide Count;
    UnionCount(db.ledger.Keys, OwnerOnly(db));
    assert OwnerOnly(db) - db.ledger.Keys == OwnerOnly(db);
    SubsetCount(db.ledger.Keys + OwnerOnly(db), Ids(db));
  }

  /** A claim never takes the retained ids over the cap, on a legacy store either, whose
      ids are its reservations; nor does it turn a store without room into a larger one. */
  lemma ClaimCapacity(db: Database, c: ClaimRequest)
    requires Capacity(db)
    ensures Capacity(AfterClaim(db, c))
    ensures Bounded(db) || ClaimTx(db, c).Claimed? ==> Bounded(AfterClaim(db, c))
    ensures Count(Ids(AfterClaim(db, c))) <= MAX_RETAINED_TASKS || Ids(AfterClaim(db, c)) <= Ids(db)
  {
    hide Count;
    var d := AfterClaim(db, c);
    var swept := db.(owners := db.owners - OldTerminal(db, c.cutoff), view := db.view - OldTerminal(db, c.cutoff));
    SubsetCount(Ids(swept), Ids(db));
    if ClaimTx(db, c).Claimed? {
      assert Ids(swept) == if db.schema == SCHEMA_VERSION then Ids(swept) else swept.owners.Keys;
      InsertCount(Ids(swept), c.taskId);
      assert Ids(d) == Ids(swept) + {c.taskId};
    }
  }

  lemma CommitCapacity(db: Database, b: Batch)
    requires Capacity(db) && CommitTx(db, b).Committed?
    ensures Capacity(CommitTx(db, b).db) && Bounded(CommitTx(db, b).db)
  {
    hide Count; hide Upserts; hide Project; hide ValidTaskId; hide Ids;
    CommitIds(db, b);
    UpsertsGrow(Purge(RaiseEpoch(db, b.epoch).value, IdSet(b.deletes)), b.upserts);
  }

  lemma MigrateCapacity(db: Database, now: I64)
    requires Capacity(db) && MigrateTx(db, now).Some?
    ensures Capacity(MigrateTx(db, now).value) && Bounded(MigrateTx(db, now).value)
  {
    hide Count; hide Migratable; hide ValidOwner; hide Legacy; hide Tombstone;
    if db.schema == 0 { assert Ids(MigrateTx(db, now).value) == db.view.Keys + db.owners.Keys; }
  }

  lemma StepKeepsCapacity(db: Database, e: Event)
    requires Capacity(db)
    ensures Capacity(Step(db, e))
    ensures Bounded(db) ==> Bounded(Step(db, e))
  {
    hide Count; hide Demanded; hide CommitTx; hide MigrateTx; hide ValidOwner; hide TerminalBefore;
    match e
    case Migrate(now) => if MigrateTx(db, now).Some? { MigrateCapacity(db, now); }
    case QuarantineOwners => if db.schema == SCHEMA_VERSION { QuarantineIds(db); }
    case Prune(now) => SubsetCount(Ids(Step(db, e)), Ids(db));
    case CommitLedger(batch) => if CommitTx(db, batch).Committed? { CommitCapacity(db, batch); }
    case Drain =>
    case SdkWrite(wire) =>
    case ClaimOwner(request) => ClaimCapacity(db, request);
    case ReleaseOwner(id, registration) => SubsetCount(Ids(Step(db, e)), Ids(db));
  }

  /** The retained ids stay within the cap in every run of every transaction, from a
      legacy store on; and however the run began, a prepared store is within it. */
  lemma {:induction false} RunKeepsCapacity(db: Database, events: seq<Event>)
    requires Capacity(db)
    ensures Bounded(db) ==> Bounded(Run(db, events))
    ensures Run(db, events).schema == SCHEMA_VERSION ==> Bounded(Run(db, events))
    ensures Capacity(Run(db, events))
  {
    if events != [] {
      RunKeepsCapacity(db, events[..|events| - 1]);
      StepKeepsCapacity(Run(db, events[..|events| - 1]), events[|events| - 1]);
    }
  }

  // ----- Every run ----------------------------------------------------------

  /** Before the schema is prepared there is no ledger to agree with. */
  lemma LegacyClaimAgrees(db: Database, c: ClaimRequest)
    requires Capacity(db) && db.schema != SCHEMA_VERSION
    ensures Agreement(AfterClaim(db, c))
  {
    hide Count; hide TerminalBefore;
  }

  lemma StepKeepsAgreement(db: Database, e: Event)
    requires Inv(db)
    requires e.ClaimOwner? && !ClaimTx(db, e.request).Declined? ==> ClaimSafe(db, e.request)
    ensures Agreement(Step(db, e))
  {
    hide Count; hide Demanded; hide Agreement; hide Upserts; hide CommitTx; hide SdkTx; hide DrainTx; hide Migratable; hide ValidOwner;
    match e
    case Migrate(now) => if MigrateTx(db, now).Some? { MigrateAgrees(db, now); }
    case QuarantineOwners =>
      if QuarantineTx(db).Some? {
        TombstonesAgree(db, map id | id in OwnerOnly(db) :: Tombstone(db, id, db.firstStart));
      }
    case Prune(now) => PurgeAgrees(db, LapsedIds(db, now));
    case CommitLedger(batch) => if CommitTx(db, batch).Committed? { CommitAgrees(db, batch); }
    case Drain => if DrainTx(db).Some? { DrainAgrees(db); }
    case SdkWrite(wire) => SdkAgrees(db, wire);
    case ClaimOwner(request) =>
      if !ClaimTx(db, request).Declined? {
        if db.schema == SCHEMA_VERSION { ClaimAgreesIff(db, request); } else { LegacyClaimAgrees(db, request); }
      }
    case ReleaseOwner(id, registration) => ReleaseAgrees(db, id, registration);
  }

  lemma StepKeepsMeta(db: Database, e: Event)
    requires Meta(db)
    ensures Meta(Step(db, e))
  {
    hide Count; hide Demanded; hide Upserts; hide Migratable; hide ValidOwner;
    match e
    case Migrate(now) => Decimal.ParseAcceptsExactlyCanonical("0", 0);
    case CommitLedger(batch) =>
      if CommitTx(db, batch).Committed? {
        UpsertsGrow(Purge(RaiseEpoch(db, batch.epoch).value, IdSet(batch.deletes)), batch.upserts);
        if batch.epoch.Some? { Decimal.ParseAcceptsExactlyCanonical(Decimal.Text(batch.epoch.value), batch.epoch.value); }
      }
    case _ =>
  }

  lemma ClaimKeepsInv(db: Database, c: ClaimRequest)
    requires Inv(db) && ClaimSafe(db, c)
    ensures Inv(AfterClaim(db, c))
  {
    hide Capacity; hide Agreement; hide Meta; hide ClaimSafe; hide Step;
    StepKeepsAgreement(db, ClaimOwner(c));
    StepKeepsCapacity(db, ClaimOwner(c));
    StepKeepsMeta(db, ClaimOwner(c));
  }

  /** Every claim of the run that takes effect meets the condition of `ClaimAgreesIff`. */
  predicate ClaimsSafe(db: Database, events: seq<Event>) {
    forall i :: 0 <= i < |events| && events[i].ClaimOwner? ==>
      ClaimTx(Run(db, events[..i]), events[i].request).Declined? ||
      ClaimSafe(Run(db, events[..i]), events[i].request)
  }

  /** In every run of startup, commit, drain, SDK write, claim and crash the view
      agrees with the ledger or has its repair pending, and the store validates. */
  lemma {:induction false} RunKeepsInv(db: Database, events: seq<Event>)
    requires Inv(db) && ClaimsSafe(db, events)
    ensures Inv(Run(db, events))
    ensures Run(db, events).schema == SCHEMA_VERSION ==> ValidateStore(Run(db, events))
  {
    hide Count; hide Demanded;
    if events != [] {
      var init, last := events[..|events| - 1], events[|events| - 1];
      assert forall i :: 0 <= i < |init| ==> init[..i] == events[..i];
      RunKeepsInv(db, init);
      StepKeepsAgreement(Run(db, init), last);
      StepKeepsCapacity(Run(db, init), last);
      StepKeepsMeta(Run(db, init), last);
    }
    if Run(db, events).schema == SCHEMA_VERSION { InvValidates(Run(db, events)); }
  }
}
