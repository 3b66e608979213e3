// Laws of commit: convergence, idempotence, the epoch watermark; and the life of a
// quarantined row.
module StoreCommits {
  import opened Prelude
  import opened DurableTasks
  import opened RowCodec
  import opened StoreModel
  import opened StoreInvariant
  import opened StoreRefinement
  import Decimal

  // ----- Convergence --------------------------------------------------------

  function Single(t: DurableTask): Batch { Batch(None, [t], []) }

  function Singles(ts: seq<DurableTask>): seq<Event> {
    seq(|ts|, i requires 0 <= i < |ts| => CommitLedger(Single(ts[i])))
  }

  /** The first task of greatest version. */
  function Latest(ts: seq<DurableTask>): (t: DurableTask)
    requires ts != []
    ensures t in ts && forall i :: 0 <= i < |ts| ==> ts[i].version <= t.version
  {
    if |ts| == 1 then ts[0]
    else
      var m := Latest(ts[..|ts| - 1]);
      if ts[|ts| - 1].version > m.version then ts[|ts| - 1] else m
  }

  lemma OneBatch(db: Database, t: DurableTask)
    ensures BatchIds([t]) == {t.taskId} && Upserts(db, [t]) == UpsertOne(db, t)
    ensures IdSet([]) == {} && Purge(db, {}) == db
  {
    hide UpsertOne;
    assert [t][0] == t && [t][..0] == [];
    assert Upserts(db, []) == Committed(db);
  }

  /** What committing `t` alone leaves: its row if it is newer, else everything as it was. */
  function After(db: Database, t: DurableTask): Database {
    if UpsertOne(db, t).Committed? then UpsertOne(db, t).db else db
  }

  predicate HasRoom(db: Database, id: string) { Count(Ids(db) + {id}) <= MAX_RETAINED_TASKS }

  /** A batch of one task is one upsert if there is room for its id, and nothing if not. */
  lemma SingleCommit(db: Database, t: DurableTask)
    requires db.schema == SCHEMA_VERSION && Project(t).Some?
    ensures HasRoom(db, t.taskId) ==> CommitTx(db, Single(t)) == UpsertOne(db, t)
    ensures Step(db, CommitLedger(Single(t))) == if HasRoom(db, t.taskId) then After(db, t) else db
  {
    hide Count; hide UpsertOne; hide Project; hide Ids; hide Upserts; hide BatchIds; hide IdSet; hide Purge;
    hide MigrateTx; hide QuarantineTx; hide PruneTx; hide DrainTx; hide SdkTx; hide ClaimTx;
    OneBatch(db, t);
    UnionCount(Ids(db), {t.taskId});
  }

  predicate Newer(db: Database, t: DurableTask) {
    t.taskId !in db.ledger || (!db.ledger[t.taskId].quarantined && t.version > db.ledger[t.taskId].version)
  }

  function Written(db: Database, t: DurableTask): Database
    requires Encode(t).Some? && Project(t).Some?
  {
    db.(ledger := db.ledger[t.taskId := Encode(t).value],
        outbox := db.outbox[t.taskId := Pending(Encode(t).value.version, Canonical(Project(t).value))])
  }

  /** A pending entry is never ahead of its ledger row. */
  predicate Behind(db: Database, id: string) {
    id in db.outbox ==> id in db.ledger && db.outbox[id].version <= db.ledger[id].version
  }

  lemma AfterIs(db: Database, t: DurableTask)
    requires Behind(db, t.taskId) && Project(t).Some? && Encode(t).Some?
    ensures After(db, t) == if Newer(db, t) then Written(db, t) else db
  {
    hide Project; hide Decode;
  }

  lemma WrittenTwice(db: Database, m: DurableTask, t: DurableTask)
    requires m.taskId == t.taskId
    requires Project(m).Some? && Encode(m).Some? && Project(t).Some? && Encode(t).Some?
    ensures Written(Written(db, m), t) == Written(db, t)
    ensures Newer(Written(db, m), t) <==> t.version > m.version
    ensures Behind(Written(db, m), m.taskId)
  {
    hide Project;
  }

  /** Two versions of one task: the second counts only if it is newer than the first. */
  lemma AfterBoth(db: Database, m: DurableTask, t: DurableTask)
    requires Behind(db, t.taskId) && m.taskId == t.taskId
    requires Project(m).Some? && Encode(m).Some? && Project(t).Some? && Encode(t).Some?
    ensures After(After(db, m), t) == if t.version > m.version then After(db, t) else After(db, m)
  {
    hide After; hide Project; hide Encode; hide Written;
    AfterIs(db, m);
    AfterIs(db, t);
    if Newer(db, m) {
      WrittenTwice(db, m, t);
      AfterIs(Written(db, m), t);
    }
  }

  lemma AgreementIsBehind(db: Database, id: string)
    requires Agreement(db)
    ensures Behind(db, id)
  {
    if id in db.outbox { assert EntryValid(db, id); }
  }

  lemma AfterIds(db: Database, t: DurableTask)
    ensures Ids(After(db, t)) + {t.taskId} == Ids(db) + {t.taskId} && After(db, t).schema == db.schema
  {
    hide Project; hide Encode; hide Decode;
  }

  predicate Storable(id: string, ts: seq<DurableTask>) {
    forall i :: 0 <= i < |ts| ==> ts[i].taskId == id && Project(ts[i]).Some? && Encode(ts[i]).Some?
  }

  /** Committing any sequence of versions of one task, in any order and with any
      repetition, on top of whatever is stored, ends exactly where committing the
      greatest version alone ends. */
  lemma {:induction false} CommitsConverge(db: Database, id: string, ts: seq<DurableTask>)
    requires Behind(db, id) && db.schema == SCHEMA_VERSION && ts != [] && Storable(id, ts)
    ensures Run(db, Singles(ts)) == if HasRoom(db, id) then After(db, Latest(ts)) else db
  {
    hide Project; hide Encode; hide Count; hide After; hide Step; hide Ids;
    var init, last := ts[..|ts| - 1], ts[|ts| - 1];
    assert Singles(ts)[..|ts| - 1] == Singles(init);
    if |ts| == 1 {
      SingleCommit(db, last);
      assert Run(db, Singles(init)) == db;
    } else {
      CommitsConverge(db, id, init);
      var m := Latest(init);
      AfterBoth(db, m, last);
      AfterIds(db, m);
      SingleCommit(db, last);
      SingleCommit(After(db, m), last);
    }
  }

  /** Each version has a single content. */
  predicate Consistent(ts: seq<DurableTask>) {
    forall i, j :: 0 <= i < |ts| && 0 <= j < |ts| && ts[i].version == ts[j].version ==> ts[i] == ts[j]
  }

  /** The same tasks, in any order and any number of times. */
  predicate SameTasks(ts: seq<DurableTask>, us: seq<DurableTask>) {
    (forall i :: 0 <= i < |ts| ==> ts[i] in us) && (forall i :: 0 <= i < |us| ==> us[i] in ts)
  }

  lemma SameLatest(ts: seq<DurableTask>, us: seq<DurableTask>)
    requires ts != [] && us != [] && Consistent(ts) && SameTasks(ts, us)
    ensures Latest(ts) == Latest(us)
  {
    var a, b := Latest(ts), Latest(us);
    var i :| 0 <= i < |ts| && ts[i] == a;
    var j :| 0 <= j < |us| && us[j] == b;
    var k :| 0 <= k < |us| && us[k] == a;
    var l :| 0 <= l < |ts| && ts[l] == b;
    assert ts[i].version == ts[l].version;
  }

  /** Order and repetition do not matter, nor do drains, SDK writes or crashes in
      between: two histories with the same commits settle to the same database. */
  lemma OrderDoesNotMatter(db: Database, id: string, ts: seq<DurableTask>, us: seq<DurableTask>,
                           xs: seq<Event>, ys: seq<Event>)
    requires Inv(db) && db.schema == SCHEMA_VERSION
    requires ts != [] && us != [] && Storable(id, ts) && Storable(id, us)
    requires Consistent(ts) && SameTasks(ts, us)
    requires WithoutRepairs(xs) == Singles(ts) && WithoutRepairs(ys) == Singles(us)
    ensures Agreement(Run(db, xs)) && Agreement(Run(db, ys)) && Settle(Run(db, xs)) == Settle(Run(db, ys))
  {
    AgreementIsBehind(db, id);
    hide Inv; hide Storable; hide Run; hide After; hide Agreement; hide Count; hide Ids;
    hide Consistent; hide SameTasks; hide Singles; hide WithoutRepairs; hide Settle;
    CommitsConverge(db, id, ts);
    CommitsConverge(db, id, us);
    SameLatest(ts, us);
    OnlyCommits(xs, ts);
    OnlyCommits(ys, us);
    SettlesWithoutReleases(db, xs);
    SettlesWithoutReleases(db, ys);
  }

  lemma {:induction false} KeptOrRepair(xs: seq<Event>, i: nat)
    requires i < |xs|
    ensures IsRepair(xs[i]) || xs[i] in WithoutRepairs(xs)
  {
    var init := xs[..|xs| - 1];
    if i < |init| {
      KeptOrRepair(init, i);
    } else {
      assert !IsRepair(xs[i]) ==> WithoutRepairs(xs) == WithoutRepairs(init) + [xs[i]];
    }
  }

  lemma OnlyCommits(xs: seq<Event>, ts: seq<DurableTask>)
    requires WithoutRepairs(xs) == Singles(ts)
    ensures forall i :: 0 <= i < |xs| ==> IsRepair(xs[i]) || xs[i].CommitLedger?
  {
    forall i | 0 <= i < |xs| ensures IsRepair(xs[i]) || xs[i].CommitLedger? {
      KeptOrRepair(xs, i);
      if !IsRepair(xs[i]) {
        var k :| 0 <= k < |Singles(ts)| && Singles(ts)[k] == xs[i];
      }
    }
  }

  lemma SettlesWithoutReleases(db: Database, xs: seq<Event>)
    requires Inv(db) && forall i :: 0 <= i < |xs| ==> IsRepair(xs[i]) || xs[i].CommitLedger?
    ensures SettlesAlike(db, xs)
  {
    hide Inv; hide SettlesAlike; hide Run;
    RepairsDoNotMatter(db, xs);
    assert BlindReleases(db, xs);
    assert xs[..|xs|] == xs;
  }

  // ----- Idempotence --------------------------------------------------------

  /** Two databases hold the same ledger row and outbox entry for an id. */
  predicate SameAt(a: Database, b: Database, id: string) {
    && (id in a.ledger <==> id in b.ledger)
    && (id in a.ledger ==> a.ledger[id] == b.ledger[id])
    && (id in a.outbox <==> id in b.outbox)
    && (id in a.outbox ==> a.outbox[id] == b.outbox[id])
  }

  lemma UpsertFrame(db: Database, t: DurableTask, id: string)
    requires UpsertOne(db, t).Committed? && id != t.taskId
    ensures SameAt(UpsertOne(db, t).db, db, id)
  {
    hide Project; hide Encode; hide Decode;
  }

  lemma UpsertReadsOne(a: Database, b: Database, t: DurableTask)
    requires SameAt(a, b, t.taskId)
    ensures UpsertOne(a, t).Committed? <==> UpsertOne(b, t).Committed?
    ensures UpsertOne(a, t).Committed? ==> SameAt(UpsertOne(a, t).db, UpsertOne(b, t).db, t.taskId)
  {
    hide Project; hide Encode; hide Decode;
  }

  lemma UpsertTwice(db: Database, d: Database, t: DurableTask)
    requires UpsertOne(db, t).Committed? && SameAt(d, UpsertOne(db, t).db, t.taskId)
    ensures UpsertOne(d, t) == Committed(d)
  {
    EncodedDemands(t);
    assert Encode(t).value.version == t.version && !Encode(t).value.quarantined;
    assert t.taskId in db.ledger && Decode(t.taskId, db.ledger[t.taskId]) == Some(t) ==>
           db.ledger[t.taskId].version == t.version;
    hide Project; hide Encode; hide Decode;
  }

  predicate Distinct(ts: seq<DurableTask>) {
    forall i, j :: 0 <= i < j < |ts| ==> ts[i].taskId != ts[j].taskId
  }

  /** With distinct ids every upsert acts on its own row only, so a batch succeeds
      when each of its upserts does. */
  lemma {:induction false} UpsertsApart(db: Database, ts: seq<DurableTask>)
    requires Distinct(ts)
    ensures Upserts(db, ts).Committed? <==> forall i :: 0 <= i < |ts| ==> UpsertOne(db, ts[i]).Committed?
    ensures Upserts(db, ts).Committed? ==>
              && (forall i :: 0 <= i < |ts| ==>
                    SameAt(Upserts(db, ts).db, UpsertOne(db, ts[i]).db, ts[i].taskId))
              && (forall id :: id !in BatchIds(ts) ==> SameAt(Upserts(db, ts).db, db, id))
  {
    hide UpsertOne; hide SameAt;
    if ts == [] {
      SameAtItself(db);
    } else {
      var init, last := ts[..|ts| - 1], ts[|ts| - 1];
      UpsertsApart(db, init);
      assert forall i :: 0 <= i < |init| ==> init[i] == ts[i];
      assert BatchIds(ts) == BatchIds(init) + {last.taskId};
      if Upserts(db, init).Committed? {
        var d := Upserts(db, init).db;
        assert last.taskId !in BatchIds(init);
        UpsertReadsOne(d, db, last);
        if UpsertOne(d, last).Committed? {
          forall i | 0 <= i < |init| ensures SameAt(UpsertOne(d, last).db, UpsertOne(db, ts[i]).db, ts[i].taskId) {
            UpsertFrame(d, last, ts[i].taskId);
            SameAtJoins(UpsertOne(d, last).db, d, UpsertOne(db, ts[i]).db, ts[i].taskId);
          }
          forall id | id !in BatchIds(ts) ensures SameAt(UpsertOne(d, last).db, db, id) {
            UpsertFrame(d, last, id);
            SameAtJoins(UpsertOne(d, last).db, d, db, id);
          }
        }
      }
    }
  }

  lemma SameAtItself(db: Database)
    ensures forall id :: SameAt(db, db, id)
  {
  }

  lemma SameAtJoins(a: Database, b: Database, c: Database, id: string)
    requires SameAt(a, b, id) && SameAt(b, c, id)
    ensures SameAt(a, c, id)
  {
  }

  lemma PurgedAt(d: Database, ids: set<string>, id: string)
    ensures id !in ids ==> SameAt(Purge(d, ids), d, id)
    ensures id in ids ==> id !in Purge(d, ids).ledger && id !in Purge(d, ids).outbox
  {
  }

  /** Upserting again into what the upserts left, after the same deletes. */
  lemma RepeatedUpsert(x: Database, ids: set<string>, ts: seq<DurableTask>, i: nat)
    requires Distinct(ts) && i < |ts| && Purge(x, ids) == x && Upserts(x, ts).Committed?
    ensures var d, p := Upserts(x, ts).db, Purge(Upserts(x, ts).db, ids);
            UpsertOne(p, ts[i]).Committed? && SameAt(UpsertOne(p, ts[i]).db, d, ts[i].taskId)
  {
    hide UpsertOne; hide Purge;
    var id := ts[i].taskId;
    var d := Upserts(x, ts).db;
    var p := Purge(d, ids);
    UpsertsApart(x, ts);
    hide Upserts;
    PurgedAt(d, ids, id);
    PurgedAt(x, ids, id);
    if id in ids {
      UpsertReadsOne(p, x, ts[i]);
    } else {
      UpsertTwice(x, p, ts[i]);
    }
  }

  lemma RepeatedUpserts(x: Database, ids: set<string>, ts: seq<DurableTask>)
    requires Distinct(ts) && Purge(x, ids) == x && Upserts(x, ts).Committed?
    ensures Upserts(Purge(Upserts(x, ts).db, ids), ts) == Committed(Upserts(x, ts).db)
  {
    hide UpsertOne; hide SameAt; hide Distinct;
    var d := Upserts(x, ts).db;
    var p := Purge(d, ids);
    forall i | 0 <= i < |ts|
      ensures UpsertOne(p, ts[i]).Committed? && SameAt(UpsertOne(p, ts[i]).db, d, ts[i].taskId)
    {
      RepeatedUpsert(x, ids, ts, i);
    }
    UpsertsApart(p, ts);
    UpsertsApart(x, ts);
    var e := Upserts(p, ts).db;
    UpsertsGrow(x, ts);
    UpsertsGrow(p, ts);
    assert x.owners == Purge(x, ids).owners && x.view == Purge(x, ids).view;
    assert e.owners == d.owners && e.view == d.view;
    forall id ensures SameAt(e, d, id) {
      if id in BatchIds(ts) {
        var i :| 0 <= i < |ts| && ts[i].taskId == id;
        SameAtJoins(e, UpsertOne(p, ts[i]).db, d, id);
      } else {
        RepeatedElsewhere(x, d, ids, id);
        SameAtJoins(e, p, d, id);
      }
    }
    SameEverywhere(e, d);
  }

  lemma RepeatedElsewhere(x: Database, d: Database, ids: set<string>, id: string)
    requires Purge(x, ids) == x && SameAt(d, x, id)
    ensures SameAt(Purge(d, ids), d, id)
  {
    PurgedAt(x, ids, id);
    PurgedAt(d, ids, id);
  }

  lemma SameEverywhere(a: Database, b: Database)
    requires forall id :: SameAt(a, b, id)
    ensures a.ledger == b.ledger && a.outbox == b.outbox
  {
    assert forall id :: id in a.ledger ==> SameAt(a, b, id);
    assert forall id :: id in b.ledger ==> SameAt(a, b, id);
    assert forall id :: id in a.outbox ==> SameAt(a, b, id);
    assert forall id :: id in b.outbox ==> SameAt(a, b, id);
  }

  // ----- The epoch watermark ------------------------------------------------

  function EpochOf(db: Database): int {
    match Decimal.Parse(db.epoch)
    case Some(n) => n
    case None => 0
  }

  function Raised(current: int, epoch: Option<U64>): int {
    if epoch.Some? && epoch.value > current then epoch.value else current
  }

  lemma RaiseRaises(db: Database, epoch: Option<U64>)
    requires RaiseEpoch(db, epoch).Some? && Decimal.Parse(db.epoch).Some?
    ensures Decimal.Parse(RaiseEpoch(db, epoch).value.epoch) == Some(Raised(EpochOf(db), epoch))
  {
    if epoch.Some? { Decimal.ParseAcceptsExactlyCanonical(Decimal.Text(epoch.value), epoch.value); }
  }

  /** An accepted batch raises the watermark to the greater of the two; nothing else
      a prepared store does moves it. */
  lemma StepEpoch(db: Database, e: Event)
    requires Meta(db) && db.schema == SCHEMA_VERSION
    ensures EpochOf(Step(db, e)) ==
            if e.CommitLedger? && CommitTx(db, e.batch).Committed? then Raised(EpochOf(db), e.batch.epoch)
            else EpochOf(db)
  {
    hide Count; hide Demanded; hide Upserts;
    if e.CommitLedger? && CommitTx(db, e.batch).Committed? {
      UpsertsGrow(Purge(RaiseEpoch(db, e.batch.epoch).value, IdSet(e.batch.deletes)), e.batch.upserts);
      RaiseRaises(db, e.batch.epoch);
    }
  }

  /** The greatest epoch among the initial one and those of the accepted batches. */
  function Watermark(db: Database, events: seq<Event>): int {
    if events == [] then EpochOf(db)
    else
      var before, e := events[..|events| - 1], events[|events| - 1];
      if e.CommitLedger? && CommitTx(Run(db, before), e.batch).Committed?
      then Raised(Watermark(db, before), e.batch.epoch)
      else Watermark(db, before)
  }

  /** Over any run, whatever its claims sweep, the epoch is that watermark. */
  lemma {:induction false} RunEpoch(db: Database, events: seq<Event>)
    requires Meta(db) && db.schema == SCHEMA_VERSION
    ensures EpochOf(Run(db, events)) == Watermark(db, events)
    ensures Run(db, events).schema == SCHEMA_VERSION && Meta(Run(db, events))
  {
    hide Step; hide CommitTx; hide Meta;
    if events != [] {
      var init, last := events[..|events| - 1], events[|events| - 1];
      RunEpoch(db, init);
      StepEpoch(Run(db, init), last);
      StepKeepsMeta(Run(db, init), last);
      KeepsSchema(Run(db, init), last);
    }
  }

  lemma PurgedIds(db: Database, ids: set<string>)
    ensures Ids(Purge(db, ids)) == Ids(db) - ids
  {
  }

  lemma PurgeTwice(db: Database, ids: set<string>)
    ensures Purge(Purge(db, ids), ids) == Purge(db, ids)
  {
  }

  lemma RecommitFits(db: Database, b: Batch)
    requires CommitTx(db, b).Committed?
    ensures Fits(Purge(CommitTx(db, b).db, IdSet(b.deletes)), b.upserts)
  {
    hide Count; hide CommitTx; hide BatchIds; hide IdSet; hide Ids; hide Purge;
    CommitIds(db, b);
    var d, ids := CommitTx(db, b).db, IdSet(b.deletes);
    PurgedIds(d, ids);
    UnionCount(Ids(Purge(d, ids)), BatchIds(b.upserts));
    assert Ids(Purge(d, ids)) + BatchIds(b.upserts) == Ids(d);
  }

  lemma RecommitEpoch(db: Database, b: Batch)
    requires db.schema == SCHEMA_VERSION && CommitTx(db, b).Committed?
    ensures var d := CommitTx(db, b).db;
            d.schema == SCHEMA_VERSION && RaiseEpoch(d, b.epoch) == Some(d)
  {
    hide Project; hide ValidTaskId; hide Fits;
    UpsertsGrow(Purge(RaiseEpoch(db, b.epoch).value, IdSet(b.deletes)), b.upserts);
    if b.epoch.Some? { RaiseRaises(db, b.epoch); }
    hide Upserts;
  }

  /** Committing an accepted batch of distinct ids again changes nothing, even when
      it deletes and re-creates a task. */
  lemma RecommitChangesNothing(db: Database, b: Batch)
    requires CommitTx(db, b).Committed? && Distinct(b.upserts)
    ensures CommitTx(CommitTx(db, b).db, b) == CommitTx(db, b)
  {
    CommitNeedsSchema(db, b);
    RecommitFits(db, b);
    RecommitEpoch(db, b);
    hide Upserts; hide Distinct; hide Project; hide ValidTaskId; hide RaiseEpoch; hide Fits; hide Purge;
    var raised := RaiseEpoch(db, b.epoch).value;
    PurgeTwice(raised, IdSet(b.deletes));
    RepeatedUpserts(Purge(raised, IdSet(b.deletes)), IdSet(b.deletes), b.upserts);
  }

  // ----- Quarantined rows ---------------------------------------------------

  /** Thirty days in milliseconds. */
  const THIRTY_DAYS: int := 30 * 24 * 60 * 60 * 1000

  /** When a legacy id came to be as it is: its task's status time, or the migration. */
  function LegacyTime(db: Database, now: int, id: string): int {
    if id in db.view && db.view[id].stamp.Some? then db.view[id].stamp.value else now
  }

  /** Migration gives each legacy task or owner id exactly one sender-less quarantined
      row, keeps each task's version, and rewrites neither projections nor owners. */
  lemma MigrationQuarantines(db: Database, now: I64)
    requires db.schema == 0 && MigrateTx(db, now).Some?
    ensures var d := MigrateTx(db, now).value;
            && d.ledger.Keys == db.view.Keys + db.owners.Keys
            && d.view == db.view && d.owners == db.owners && d.outbox == map[]
            && (forall id :: id in d.ledger ==> QuarantineForm(d.ledger[id]))
            && (forall id :: id in db.view ==> d.ledger[id].version == db.view[id].version)
            && (forall id :: id in d.ledger ==> d.ledger[id].retainUntil.value == LegacyTime(db, now, id) + THIRTY_DAYS)
            && Retained(d) == {}
  {
    hide Count; hide ValidTaskId; hide ValidAgentName;
    var d := MigrateTx(db, now).value;
    forall id | id in d.ledger
      ensures QuarantineForm(d.ledger[id]) && (id in db.view ==> d.ledger[id].version == db.view[id].version)
      ensures d.ledger[id].retainUntil.value == LegacyTime(db, now, id) + THIRTY_DAYS
    {
      assert id in db.view ==> d.ledger[id] == Legacy(db, id);
      assert id !in db.view ==> d.ledger[id] == Tombstone(db, id, now);
    }
  }

  predicate Quarantined(db: Database, id: string) { id in db.ledger && db.ledger[id].quarantined }

  /** The two ways a quarantined row can leave: a prune at or after its deadline, or
      an accepted batch that deletes it. */
  predicate Evicts(db: Database, e: Event, id: string)
    requires id in db.ledger
  {
    || (e.Prune? && db.ledger[id].retainUntil.Some? && db.ledger[id].retainUntil.value <= e.now)
    || (e.CommitLedger? && CommitTx(db, e.batch).Committed? && id in e.batch.deletes)
  }

  lemma {:induction false} UpsertsSpareQuarantine(db: Database, ts: seq<DurableTask>, id: string)
    requires Quarantined(db, id) && Upserts(db, ts).Committed?
    ensures id in Upserts(db, ts).db.ledger && Upserts(db, ts).db.ledger[id] == db.ledger[id]
    ensures id !in BatchIds(ts)
  {
    hide Project; hide Encode; hide Decode;
    if ts != [] {
      UpsertsSpareQuarantine(db, ts[..|ts| - 1], id);
      assert BatchIds(ts) == BatchIds(ts[..|ts| - 1]) + {ts[|ts| - 1].taskId};
    }
  }

  /** Until then its row, and so its deadline, never changes: a batch that names the
      id is refused and so is a claim. */
  lemma QuarantineLasts(db: Database, e: Event, id: string)
    requires Quarantined(db, id) && db.schema == SCHEMA_VERSION && !Evicts(db, e, id)
    ensures id in Step(db, e).ledger && Step(db, e).ledger[id] == db.ledger[id]
    ensures e.CommitLedger? && id in BatchIds(e.batch.upserts) ==> !CommitTx(db, e.batch).Committed?
    ensures e.ClaimOwner? && e.request.taskId == id ==> ClaimTx(db, e.request).Declined?
  {
    hide Count; hide Demanded; hide Upserts; hide Project; hide ValidTaskId; hide ValidAgentName; hide CleanAuthority;
    if e.CommitLedger? && CommitTx(db, e.batch).Committed? {
      UpsertsSpareQuarantine(Purge(RaiseEpoch(db, e.batch.epoch).value, IdSet(e.batch.deletes)), e.batch.upserts, id);
    }
  }

  predicate NeverEvicted(db: Database, events: seq<Event>, id: string) {
    forall i :: 0 <= i < |events| && id in Run(db, events[..i]).ledger ==> !Evicts(Run(db, events[..i]), events[i], id)
  }

  /** Over any run that neither deletes the id nor prunes at or after its deadline,
      the quarantined row stays as it was, and the id is never loaded as a task. */
  lemma {:induction false} QuarantineLastsRuns(db: Database, events: seq<Event>, id: string)
    requires Quarantined(db, id) && db.schema == SCHEMA_VERSION && NeverEvicted(db, events, id)
    ensures var d := Run(db, events);
            d.schema == SCHEMA_VERSION && Quarantined(d, id) && d.ledger[id] == db.ledger[id] && id !in Retained(d)
  {
    hide Step; hide CommitTx;
    if events != [] {
      var init, last := events[..|events| - 1], events[|events| - 1];
      assert NeverEvicted(db, init, id) by {
        assert forall i :: 0 <= i < |init| ==> init[..i] == events[..i] && init[i] == events[i];
      }
      QuarantineLastsRuns(db, init, id);
      QuarantineLasts(Run(db, init), last, id);
      KeepsSchema(Run(db, init), last);
    }
  }

  /** A prune removes from all four tables the ids that are quarantined with a deadline no
      later than now, and touches no other row. */
  lemma PruneRemoves(db: Database, now: I64, id: string)
    requires db.schema == SCHEMA_VERSION
    ensures PruneTx(db, now).Some?
    ensures var d := PruneTx(db, now).value;
            if id in db.ledger && db.ledger[id].quarantined && db.ledger[id].retainUntil.Some? &&
               db.ledger[id].retainUntil.value <= now
            then id !in d.ledger && id !in d.outbox && id !in d.view && id !in d.owners
            else SameAt(d, db, id) && (id in d.view <==> id in db.view) && (id in d.view ==> d.view[id] == db.view[id]) &&
                 (id in d.owners <==> id in db.owners) && (id in d.owners ==> d.owners[id] == db.owners[id])
  {
  }

  lemma PurgeInSteps(db: Database, few: set<string>, all: set<string>)
    requires few <= all
    ensures Purge(Purge(db, few), all - few) == Purge(db, all)
  {
    var a, b := Purge(Purge(db, few), all - few), Purge(db, all);
    assert a.ledger == b.ledger && a.outbox == b.outbox && a.view == b.view && a.owners == b.owners;
  }

  /** Pruning twice is pruning once at the later time. */
  lemma PruneComposes(db: Database, t1: I64, t2: I64)
    requires db.schema == SCHEMA_VERSION && t1 <= t2
    ensures PruneTx(PruneTx(db, t1).value, t2) == PruneTx(db, t2)
  {
    assert LapsedIds(db, t1) <= LapsedIds(db, t2);
    assert LapsedIds(PruneTx(db, t1).value, t2) == LapsedIds(db, t2) - LapsedIds(db, t1);
    PurgeInSteps(db, LapsedIds(db, t1), LapsedIds(db, t2));
  }

  // ----- Why claims are kept apart ------------------------------------------

  /** A database holding one settled task. */
  function OneTask(t: DurableTask): Database
    requires Project(t).Some? && Encode(t).Some?
  {
    Database(SCHEMA_VERSION, map[t.taskId := Encode(t).value], map[],
             map[t.taskId := ViewOf(Project(t).value, t.version)], map[], "0", 0)
  }

  lemma OneTaskIsSettled(t: DurableTask)
    requires Project(t).Some? && Encode(t).Some?
    ensures Inv(OneTask(t))
  {
    EncodedDemands(t);
    Decimal.ParseAcceptsExactlyCanonical("0", 0);
    hide Decode; hide Project;
    assert Ids(OneTask(t)) == {t.taskId};
    assert Settled(OneTask(t), t.taskId);
  }

  /** A claim of another id on a store of one finished task: the task's view row goes. */
  lemma ClaimSweepsOne(db: Database, id: string, c: ClaimRequest)
    requires db.ledger.Keys == {id} && db.view.Keys == {id} && db.owners == map[] && c.taskId != id
    requires TerminalBefore(db.view[id], c.cutoff)
    ensures ClaimTx(db, c).Claimed?
    ensures AfterClaim(db, c) == db.(view := map[], owners := map[c.taskId := Owner(c.registration, Some(c.recipient))])
  {
    hide TerminalBefore;
    assert OldTerminal(db, c.cutoff) == {id};
    var swept := db.(owners := db.owners - {id}, view := db.view - {id});
    assert swept.owners == map[] && swept.view == map[] && Ids(swept) == {id};
  }

  lemma BareRowIsInvalid(db: Database, id: string)
    requires id in db.ledger && !db.ledger[id].quarantined && id !in db.view && id !in db.outbox
    ensures !ValidateStore(db)
  {
    hide Count; hide Demanded; hide EntryValid;
  }

  /** Any claim whose cutoff reaches a finished task's time breaks a valid store: no later
      startup gets past it. */
  lemma LateClaimBreaksTheStore(t: DurableTask, c: ClaimRequest, now: I64)
    requires Project(t).Some? && Encode(t).Some? && t.terminal.Some? && t.terminal.value <= c.cutoff
    requires c.taskId != t.taskId && 0 <= now
    ensures Inv(OneTask(t)) && ClaimTx(OneTask(t), c).Claimed?
    ensures !ValidateStore(AfterClaim(OneTask(t), c))
    ensures StartupRun(AfterClaim(OneTask(t), c), now).Halted?
  {
    hide StartupRun; hide Inv; hide ClaimTx; hide AfterClaim; hide ValidateStore;
    OneTaskIsSettled(t);
    var db := OneTask(t);
    assert TransitionTime(t) == t.terminal;
    assert TerminalBefore(db.view[t.taskId], c.cutoff);
    ClaimSweepsOne(db, t.taskId, c);
    BareRowIsInvalid(AfterClaim(db, c), t.taskId);
    BareRowHalts(AfterClaim(db, c), now, t.taskId);
  }

  // ----- Why releases must find the same thing ------------------------------

  /** A task just committed, its repair pending and its reservation still there. */
  function PendingTask(t: DurableTask, owner: Owner): Database
    requires Project(t).Some? && Encode(t).Some?
  {
    Database(SCHEMA_VERSION, map[t.taskId := Encode(t).value],
             map[t.taskId := Pending(Encode(t).value.version, Canonical(Project(t).value))],
             map[], map[t.taskId := owner], "0", 0)
  }

  lemma PendingTaskIsSettled(t: DurableTask, owner: Owner)
    requires Project(t).Some? && Encode(t).Some?
    ensures Inv(PendingTask(t, owner))
  {
    EncodedDemands(t);
    Decimal.ParseAcceptsExactlyCanonical("0", 0);
    hide Decode; hide Project;
    var db := PendingTask(t, owner);
    assert Ids(db) == {t.taskId};
    assert EntryValid(db, t.taskId) && Settled(db, t.taskId);
  }

  lemma DrainIsStep(db: Database)
    requires DrainTx(db).Some?
    ensures Step(db, Drain) == DrainTx(db).value
  {
    hide DrainTx;
  }

  /** A release of a task whose repair is pending depends on that repair: with the drain
      before it the reservation stays, without it the reservation goes. */
  lemma ReleaseSeesRepairs(t: DurableTask, owner: Owner)
    requires Project(t).Some? && Encode(t).Some?
    ensures var db, release := PendingTask(t, owner), ReleaseOwner(t.taskId, owner.registration);
            && Inv(db)
            && t.taskId in Run(db, [Drain, release]).owners && t.taskId !in Run(db, [release]).owners
            && WithoutRepairs([Drain, release]) == [release] && !SettlesAlike(db, [Drain, release])
  {
    hide Inv; hide DrainTx; hide Project; hide Encode; hide Demanded; hide Agreement; hide Settled; hide Step;
    PendingTaskIsSettled(t, owner);
    var db, release := PendingTask(t, owner), ReleaseOwner(t.taskId, owner.registration);
    EntriesAreValid(db);
    InvDrains(db);
    DrainIsStep(db);
    ReleaseIsStep(db, release);
    ReleaseIsStep(Drained(db), release);
    assert [Drain, release][..1] == [Drain] && [Drain][..0] == [] && [release][..0] == [];
    assert Run(db, []) == db && Run(db, [Drain]) == Drained(db);
    assert t.taskId in Drained(db).view;
    assert WithoutRepairs([]) == [] && WithoutRepairs([Drain]) == [] && [] + [release] == [release];
  }
}
