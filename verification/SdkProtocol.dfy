// Late SDK writes end to end.  Authorising one is a read under the connection lock and
// then a record under the registry lock; anything may happen in between: commits,
// deletions, other writes, and the retirement of the task's admissions.
module SdkProtocol {
  import opened Prelude
  import opened DurableTasks
  import opened StoreModel
  import opened Admissions
  import opened TaskStores
  import opened StoreCommits
  import opened StoreInvariant
  import opened RowCodec

  /** What the read half carries over to the record half. */
  datatype Pass = Pass(wire: WireTask, version: U64, incarnation: Incarnation)

  /** `passes` are all read halves that ever succeeded, by number; `pending` are those
      whose record half is still to come, `tickets` the admissions of the others. */
  datatype World = World(
    db: Database, books: Books, passes: map<nat, Pass>, pending: set<nat>, tickets: map<nat, Ticket>)

  datatype Move =
    | Store(event: Event)
    | ReadHalf(x: nat, wire: WireTask)
    | RecordHalf(x: nat)
    | Abandon(x: nat)
    | Take(wire: WireTask, at: int, stale: bool)
    | PutBack(ticket: Ticket)
    | Retire(task: string)

  predicate Authorizes(db: Database, p: Pass) {
    && db.schema == SCHEMA_VERSION
    && Authoritative(db, p.wire)
    && var t := CleanAuthority(db, p.wire.id).value;
    && p.version == t.version && p.incarnation == IncarnationOf(t)
  }

  /** A write takes an admission inside its transaction: the first that matches the task
      as the transaction sees it.  It then commits, or the admission is put back. */
  ghost predicate Takes(w: World, v: World, wire: WireTask, at: int, stale: bool) {
    && w.db.schema == SCHEMA_VERSION
    && (StaleAt(w.db, wire) <==> stale)
    && CleanAuthority(SdkTx(w.db, wire), wire.id).Some?
    && wire.id in w.books.registry.byTask
    && var t := CleanAuthority(SdkTx(w.db, wire), wire.id).value;
    && IsFirstMatch(w.books.registry.byTask[wire.id], at, wire, t.version, IncarnationOf(t), stale)
    && Consumes(w.books, v.books, wire.id, at)
  }

  function TicketFor(p: Pass, sequence: U64): Ticket {
    Ticket(p.wire.id, Admission(p.wire, p.version, p.incarnation, sequence))
  }

  ghost predicate Moves(w: World, v: World, m: Move) {
    match m
    case Store(event) => v == w.(db := Step(w.db, event))
    case ReadHalf(x, wire) =>
      && x !in w.passes && x in v.passes && v.passes[x].wire == wire && Authorizes(w.db, v.passes[x])
      && v == w.(passes := w.passes[x := v.passes[x]], pending := w.pending + {x})
    case RecordHalf(x) =>
      && x in w.pending && x in w.passes
      && var t := TicketFor(w.passes[x], w.books.registry.next);
      && Issues(w.books, v.books, t.task, t.admission)
      && v == w.(books := v.books, pending := w.pending - {x}, tickets := w.tickets[x := t])
    case Abandon(x) => v == w.(pending := w.pending - {x})
    case Take(wire, at, stale) => Takes(w, v, wire, at, stale) && v == w.(books := v.books)
    case PutBack(ticket) => Restores(w.books, v.books, ticket) && v == w.(books := v.books)
    case Retire(task) => Retires(w.books, v.books, task) && v == w.(books := v.books)
  }

  ghost predicate Run(worlds: seq<World>, moves: seq<Move>) {
    && |worlds| == |moves| + 1
    && worlds[0] == World(worlds[0].db, NO_BOOKS, map[], {}, map[])
    && forall i :: 0 <= i < |moves| ==> Moves(worlds[i], worlds[i + 1], moves[i])
  }

  // ----- Every admission goes back to a read --------------------------------

  predicate Backs(p: Pass, t: Ticket) { t == TicketFor(p, t.admission.sequence) }

  /** Tickets and recorded reads are the same thing. */
  predicate Backed(w: World) {
    && w.pending <= w.passes.Keys && w.pending !! w.tickets.Keys
    && (forall x :: x in w.tickets ==> x in w.passes && Backs(w.passes[x], w.tickets[x]))
    && (forall t :: t in w.books.issued ==> exists x :: x in w.tickets && w.tickets[x] == t)
  }

  lemma MoveBacks(w: World, v: World, m: Move)
    requires Backed(w) && Moves(w, v, m)
    ensures Backed(v) && w.passes.Keys <= v.passes.Keys
    ensures forall x :: x in w.passes ==> v.passes[x] == w.passes[x]
  {
    hide Authorizes, Step, MadeRoom, Present, CleanAuthority, StaleAt, SdkTx, IsFirstMatch, RemoveAt, Push;
    forall t | t in v.books.issued ensures exists x :: x in v.tickets && v.tickets[x] == t {
      if t in w.books.issued {
        var x :| x in w.tickets && w.tickets[x] == t;
        assert x in v.tickets && v.tickets[x] == t;
      } else {
        assert m.RecordHalf? && v.tickets[m.x] == t;
      }
    }
  }

  /** The admission books of a run are a history of the registry. */
  lemma MoveBalances(w: World, v: World, m: Move)
    requires Balanced(w.books) && Moves(w, v, m)
    ensures Balanced(v.books)
  {
    hide Balanced, Authorizes, Step, Issues, Consumes, Restores, Retires;
    match m
    case RecordHalf(x) =>
      var t := TicketFor(w.passes[x], w.books.registry.next);
      IssueBalances(w.books, v.books, t.task, t.admission);
    case Take(wire, at, _) => ConsumeBalances(w.books, v.books, wire.id, at);
    case PutBack(ticket) => RestoreBalances(w.books, v.books, ticket);
    case Retire(task) => RetireBalances(w.books, v.books, task);
    case _ =>
  }

  /** Move `k` of the run was the read that gave pass `p` its number. */
  predicate ReadBy(worlds: seq<World>, moves: seq<Move>, k: int, x: nat, p: Pass)
    requires |worlds| == |moves| + 1
  {
    0 <= k < |moves| && moves[k] == ReadHalf(x, p.wire) && Authorizes(worlds[k].db, p)
  }

  /** Passes and successful reads of the run are the same thing. */
  ghost predicate ReadsKnown(worlds: seq<World>, moves: seq<Move>)
    requires |worlds| == |moves| + 1
  {
    var w := worlds[|worlds| - 1];
    && (forall x :: x in w.passes ==> exists k :: ReadBy(worlds, moves, k, x, w.passes[x]))
    && (forall k :: 0 <= k < |moves| && moves[k].ReadHalf? ==>
          moves[k].x in w.passes && ReadBy(worlds, moves, k, moves[k].x, w.passes[moves[k].x]))
  }

  lemma MoveReads(w: World, v: World, m: Move)
    requires Moves(w, v, m)
    ensures forall x :: x in w.passes ==> x in v.passes && v.passes[x] == w.passes[x]
    ensures forall x :: x in v.passes && x !in w.passes ==> m == ReadHalf(x, v.passes[x].wire) && Authorizes(w.db, v.passes[x])
    ensures m.ReadHalf? ==> m.x in v.passes && v.passes[m.x].wire == m.wire && Authorizes(w.db, v.passes[m.x])
  {
    hide Authorizes, Step;
  }

  lemma ReadsExtend(worlds: seq<World>, moves: seq<Move>)
    requires Run(worlds, moves) && moves != []
    requires ReadsKnown(worlds[..|worlds| - 1], moves[..|moves| - 1])
    ensures ReadsKnown(worlds, moves)
  {
    hide Moves, Authorizes;
    var n := |moves| - 1;
    var before, earlier := worlds[..n + 1], moves[..n];
    var w, v := worlds[n], worlds[n + 1];
    MoveReads(w, v, moves[n]);
    forall x | x in v.passes ensures exists k :: ReadBy(worlds, moves, k, x, v.passes[x]) {
      if x in w.passes {
        var k :| ReadBy(before, earlier, k, x, w.passes[x]);
        assert ReadBy(worlds, moves, k, x, v.passes[x]);
      } else {
        assert ReadBy(worlds, moves, n, x, v.passes[x]);
      }
    }
    forall k | 0 <= k < |moves| && moves[k].ReadHalf?
      ensures moves[k].x in v.passes && ReadBy(worlds, moves, k, moves[k].x, v.passes[moves[k].x])
    {
      if k < n { assert earlier[k] == moves[k] && ReadBy(before, earlier, k, moves[k].x, w.passes[moves[k].x]); }
    }
  }

  lemma {:induction false} RunKeeps(worlds: seq<World>, moves: seq<Move>)
    requires Run(worlds, moves)
    ensures Backed(worlds[|worlds| - 1]) && Balanced(worlds[|worlds| - 1].books) && ReadsKnown(worlds, moves)
  {
    hide Moves, Balanced, Authorizes;
    if moves == [] {
      EmptyBalances();
    } else {
      var n := |moves| - 1;
      RunKeeps(worlds[..n + 1], moves[..n]);
      hide ReadsKnown, Backed;
      ReadsExtend(worlds, moves);
      MoveBacks(worlds[n], worlds[n + 1], moves[n]);
      MoveBalances(worlds[n], worlds[n + 1], moves[n]);
    }
  }

  // ----- When a stale projection is let through -----------------------------

  /** The admission that read `x` led to is still in the registry. */
  ghost predicate Queued(w: World, x: nat) { x in w.tickets && w.tickets[x] in Present(w.books) }

  /** The same task as far as the store can tell, further on. */
  predicate Succeeds(now: DurableTask, earlier: DurableTask) {
    && now.contextId == earlier.contextId && now.sender == earlier.sender
    && now.recipient == earlier.recipient && now.created == earlier.created
    && now.version > earlier.version
  }

  /** Move `k` read this projection, its admission is still there, and what it was read
      from is succeeded by the task as it is now. */
  ghost predicate Serves(worlds: seq<World>, moves: seq<Move>, k: int, wire: WireTask)
    requires |worlds| == |moves| + 1
  {
    var w := worlds[|worlds| - 1];
    && 0 <= k < |moves| && moves[k].ReadHalf? && moves[k].wire == wire
    && Queued(w, moves[k].x)
    && CleanAuthority(worlds[k].db, wire.id).Some? && CleanAuthority(w.db, wire.id).Some?
    && Succeeds(CleanAuthority(w.db, wire.id).value, CleanAuthority(worlds[k].db, wire.id).value)
  }

  /** The write of a stale projection can take an admission. */
  ghost predicate LetThrough(w: World, wire: WireTask) {
    exists v: World, at :: Takes(w, v, wire, at, true)
  }

  /** The store is prepared, the task settled and the projection not its current one. */
  predicate Overtaken(db: Database, wire: WireTask) {
    db.schema == SCHEMA_VERSION && StaleAt(db, wire) && CleanAuthority(db, wire.id).Some?
  }

  lemma ServingTakes(worlds: seq<World>, moves: seq<Move>, k: int, wire: WireTask)
    requires Run(worlds, moves) && Overtaken(worlds[|worlds| - 1].db, wire) && Serves(worlds, moves, k, wire)
    ensures LetThrough(worlds[|worlds| - 1], wire)
  {
    var w := worlds[|worlds| - 1];
    assert SdkTx(w.db, wire) == w.db;
    RunKeeps(worlds, moves);
    hide Moves, CleanAuthority, StaleAt, SdkTx;
    var x := moves[k].x;
    assert ReadBy(worlds, moves, k, x, w.passes[x]);
    var now := CleanAuthority(w.db, wire.id).value;
    assert Backs(w.passes[x], w.tickets[x]);
    var queue := w.books.registry.byTask[wire.id];
    var i :| 0 <= i < |queue| && Ticket(wire.id, queue[i]) == w.tickets[x];
    var at := FirstMatch(queue, i, wire, now.version, IncarnationOf(now));
    RemoveAtValid(w.books.registry, wire.id, at);
    var taken := Ticket(wire.id, queue[at]);
    var v := w.(books := w.books.(registry := RemoveAt(w.books.registry, wire.id, at),
                                  consumed := w.books.consumed + {taken}));
    assert Takes(w, v, wire, at, true);
  }

  lemma FirstMatch(queue: seq<Admission>, i: nat, wire: WireTask, version: U64, incarnation: Incarnation)
    returns (at: nat)
    requires i < |queue| && Matches(queue[i], wire, version, incarnation, true)
    ensures IsFirstMatch(queue, at, wire, version, incarnation, true)
  {
    at := 0;
    while !Matches(queue[at], wire, version, incarnation, true)
      invariant at <= i && forall j :: 0 <= j < at ==> !Matches(queue[j], wire, version, incarnation, true)
      decreases i - at
    {
      at := at + 1;
    }
  }

  /** The admission taken is that of a recorded read. */
  lemma TakenIsRecorded(w: World, v: World, wire: WireTask, at: int) returns (x: nat)
    requires Backed(w) && Balanced(w.books) && Takes(w, v, wire, at, true)
    ensures Queued(w, x) && x in w.passes && w.passes[x].wire == wire
    ensures CleanAuthority(w.db, wire.id).Some?
    ensures var now := CleanAuthority(w.db, wire.id).value;
            w.passes[x].incarnation == IncarnationOf(now) && w.passes[x].version < now.version
  {
    hide Balanced, CleanAuthority;
    assert SdkTx(w.db, wire) == w.db;
    var t := Ticket(wire.id, w.books.registry.byTask[wire.id][at]);
    TicketAt(w.books.registry.byTask, wire.id, at);
    PresentIssued(w.books);
    x :| x in w.tickets && w.tickets[x] == t;
    assert Backs(w.passes[x], t);
  }

  lemma TakingIsServed(worlds: seq<World>, moves: seq<Move>, v: World, wire: WireTask, at: int) returns (k: int)
    requires Run(worlds, moves) && Takes(worlds[|worlds| - 1], v, wire, at, true)
    ensures Serves(worlds, moves, k, wire)
    ensures Authoritative(worlds[k].db, wire)
  {
    hide Moves, CleanAuthority, Takes, Backed, Balanced, Queued;
    var w := worlds[|worlds| - 1];
    RunKeeps(worlds, moves);
    var x := TakenIsRecorded(w, v, wire, at);
    k :| ReadBy(worlds, moves, k, x, w.passes[x]);
  }

  /** In every interleaving, a stale projection is let through if and only if some read of
      it in the run still has its admission and was made of a task with the context,
      sender, recipient and creation time of the one that exists now, at a smaller
      version.  A deletion in between makes no difference to this. */
  lemma StaleTakesIff(worlds: seq<World>, moves: seq<Move>, wire: WireTask)
    requires Run(worlds, moves)
    ensures LetThrough(worlds[|worlds| - 1], wire) <==>
            Overtaken(worlds[|worlds| - 1].db, wire) && exists k :: Serves(worlds, moves, k, wire)
  {
    var w := worlds[|worlds| - 1];
    if LetThrough(w, wire) {
      var v: World, at :| Takes(w, v, wire, at, true);
      assert SdkTx(w.db, wire) == w.db;
      var k := TakingIsServed(worlds, moves, v, wire, at);
    }
    hide Run, Serves, LetThrough, Overtaken;
    if Overtaken(w.db, wire) && exists k :: Serves(worlds, moves, k, wire) {
      var k :| Serves(worlds, moves, k, wire);
      ServingTakes(worlds, moves, k, wire);
    }
  }

  /** A stale projection is let through only if it was once the authoritative one, of a
      task of the same incarnation as the one that exists now, at a smaller version. */
  lemma StaleWritesWereAuthorized(worlds: seq<World>, moves: seq<Move>, v: World, wire: WireTask, at: int)
    requires Run(worlds, moves) && Takes(worlds[|worlds| - 1], v, wire, at, true)
    ensures CleanAuthority(worlds[|worlds| - 1].db, wire.id).Some?
    ensures exists k :: 0 <= k < |worlds| && Authoritative(worlds[k].db, wire) &&
                        Succeeds(CleanAuthority(worlds[|worlds| - 1].db, wire.id).value,
                                 CleanAuthority(worlds[k].db, wire.id).value)
  {
    var k := TakingIsServed(worlds, moves, v, wire, at);
  }

  /** A task that replaced a deleted one is safe from the projections read before its
      time, if it differs in context, sender, recipient or creation time. */
  lemma DifferentSuccessorIsSafe(worlds: seq<World>, moves: seq<Move>, j: nat, wire: WireTask)
    requires Run(worlds, moves) && j <= |moves| && CleanAuthority(worlds[|worlds| - 1].db, wire.id).Some?
    requires forall k :: j <= k < |moves| && moves[k].ReadHalf? ==> moves[k].wire != wire
    requires forall k :: 0 <= k < j && CleanAuthority(worlds[k].db, wire.id).Some? ==>
               IncarnationOf(CleanAuthority(worlds[k].db, wire.id).value) !=
               IncarnationOf(CleanAuthority(worlds[|worlds| - 1].db, wire.id).value)
    ensures !LetThrough(worlds[|worlds| - 1], wire)
  {
    hide Run, CleanAuthority, LetThrough, Overtaken;
    StaleTakesIff(worlds, moves, wire);
  }

  lemma MoveRetires(w: World, v: World, m: Move)
    requires Moves(w, v, m)
    ensures w.books.retired <= v.books.retired
    ensures forall x :: x in w.tickets && !(m.RecordHalf? && m.x == x) ==> x in v.tickets && v.tickets[x] == w.tickets[x]
    ensures m.RecordHalf? ==> m.x in w.pending
    ensures m.Retire? ==> forall t :: t in Present(w.books) && t.task == m.task ==> t in v.books.retired
  {
    hide Authorizes, Step, MadeRoom, Tickets;
  }

  lemma {:induction false} RetiredStays(worlds: seq<World>, moves: seq<Move>, r: nat, x: nat)
    requires Run(worlds, moves) && r < |worlds| && x in worlds[r].tickets
    requires worlds[r].tickets[x] in worlds[r].books.retired
    ensures var w := worlds[|worlds| - 1];
            x in w.tickets && w.tickets[x] == worlds[r].tickets[x] && w.tickets[x] in w.books.retired
    decreases |moves|
  {
    hide Moves, Balanced;
    if r < |moves| {
      var n := |moves| - 1;
      RetiredStays(worlds[..n + 1], moves[..n], r, x);
      RunKeeps(worlds[..n + 1], moves[..n]);
      assert worlds[..n + 1][n] == worlds[n];
      MoveRetires(worlds[n], worlds[n + 1], moves[n]);
    }
  }

  /** An admission that was recorded when its task's admissions were retired never serves
      again: only a record half still to come can outlive the deletion. */
  lemma RetiredNeverServes(worlds: seq<World>, moves: seq<Move>, r: nat, x: nat)
    requires Run(worlds, moves) && r < |moves| && Queued(worlds[r], x)
    requires moves[r] == Retire(worlds[r].tickets[x].task)
    ensures !Queued(worlds[|worlds| - 1], x)
  {
    hide Moves, Present;
    MoveRetires(worlds[r], worlds[r + 1], moves[r]);
    RetiredStays(worlds, moves, r + 1, x);
    RunKeeps(worlds, moves);
  }

  // ----- A deletion can be overtaken ----------------------------------------

  function Deletion(id: string): Event { CommitLedger(Batch(None, [], [id])) }

  function NoTask(): Database { Database(SCHEMA_VERSION, map[], map[], map[], map[], "0", 0) }

  lemma DeletionEmpties(t: DurableTask)
    requires Project(t).Some? && Encode(t).Some?
    ensures Step(OneTask(t), Deletion(t.taskId)) == NoTask()
  {
    hide Project; hide Encode;
    assert ValidTaskId(t.taskId) by { ProjectedIdIsValid(t); }
    var db, ids := OneTask(t), IdSet([t.taskId]);
    assert [t.taskId][0] == t.taskId && ids == {t.taskId};
    assert Purge(db, ids) == NoTask();
    assert BatchIds([]) == {} && Ids(NoTask()) == {};
    assert Count({} - {}) == 0;
  }

  lemma ProjectedIdIsValid(t: DurableTask)
    requires Project(t).Some?
    ensures ValidTaskId(t.taskId)
  {
  }

  lemma CreationSettles(t: DurableTask)
    requires Project(t).Some? && Encode(t).Some?
    ensures Step(Step(NoTask(), CommitLedger(Single(t))), Drain) == OneTask(t)
  {
    hide Step; hide After; hide Project; hide Encode; hide Decode;
    assert Ids(NoTask()) + {t.taskId} == {t.taskId};
    SingleCommit(NoTask(), t);
    AfterIs(NoTask(), t);
    WrittenSettles(t);
    DrainIsStep(StoreCommits.Written(NoTask(), t));
  }

  lemma WrittenSettles(t: DurableTask)
    requires Project(t).Some? && Encode(t).Some?
    ensures DrainTx(StoreCommits.Written(NoTask(), t)) == Some(OneTask(t))
  {
    EncodedDemands(t);
    hide Project; hide Encode; hide Decode; hide Demanded;
    var d := StoreCommits.Written(NoTask(), t);
    assert d.ledger == OneTask(t).ledger;
    assert Drainable(d, t.taskId);
    assert Drained(d).view == OneTask(t).view;
  }

  lemma OneTaskIsClean(t: DurableTask, wire: WireTask)
    requires Project(t).Some? && Encode(t).Some? && wire.id == t.taskId
    ensures CleanAuthority(OneTask(t), t.taskId) == Some(t)
    ensures if wire == Project(t).value then Authoritative(OneTask(t), wire) else StaleAt(OneTask(t), wire)
  {
    EncodedDemands(t);
    hide Decode; hide Project; hide Encode;
  }

  /** The same task in two versions that show differently. */
  predicate Replaces(t2: DurableTask, t1: DurableTask) {
    && Project(t1).Some? && Encode(t1).Some? && Project(t2).Some? && Encode(t2).Some?
    && t1.taskId == t2.taskId && Succeeds(t2, t1) && Project(t1) != Project(t2)
  }

  function FirstBooks(t: Ticket): Books {
    Books(Push(Registry(map[], 0, 1), t.task, t.admission), {t}, {}, {}, {})
  }

  lemma FirstIssue(t: Ticket)
    requires t.admission.sequence == 0
    ensures Issues(NO_BOOKS, FirstBooks(t), t.task, t.admission) && t in Present(FirstBooks(t))
  {
    var r := Registry(map[], 0, 1);
    var none: set<Ticket> := {};
    assert TaskRoom(r, t.task, r, none) && TotalRoom(r, r, none) && none == none + none;
    assert MadeRoom(r, t.task, r, {});
    assert NO_BOOKS.issued + {t} == {t} && NO_BOOKS.evicted + {} == {};
    TicketAt(FirstBooks(t).registry.byTask, t.task, 0);
  }

  lemma NothingToRetire(id: string)
    ensures Retires(NO_BOOKS, NO_BOOKS, id)
  {
    var empty: Queues := map[];
    assert empty - {id} == empty;
    assert Tickets(map[]) == {};
    assert NO_BOOKS.retired + (set t | t in Present(NO_BOOKS) && t.task == id) == {};
  }

  /** Read, delete, retire, re-create, drain, record: the states of the database. */
  function Tables(t1: DurableTask, t2: DurableTask): seq<Database>
    requires Replaces(t2, t1)
  {
    [OneTask(t1), OneTask(t1), NoTask(), NoTask(), Step(NoTask(), CommitLedger(Single(t2))), OneTask(t2), OneTask(t2)]
  }

  lemma TablesFollow(t1: DurableTask, t2: DurableTask)
    requires Replaces(t2, t1)
    ensures var d := Tables(t1, t2);
            && d[2] == Step(d[1], Deletion(t1.taskId))
            && d[4] == Step(d[3], CommitLedger(Single(t2)))
            && d[5] == Step(d[4], Drain)
  {
    hide Step; hide Project; hide Encode;
    DeletionEmpties(t1);
    CreationSettles(t2);
  }

  function OvertakingMoves(t1: DurableTask, t2: DurableTask): seq<Move>
    requires Replaces(t2, t1)
  {
    [ReadHalf(0, Project(t1).value), Store(Deletion(t1.taskId)), Retire(t1.taskId),
     Store(CommitLedger(Single(t2))), Store(Drain), RecordHalf(0)]
  }

  function OvertakingWorlds(t1: DurableTask, t2: DurableTask): seq<World>
    requires Replaces(t2, t1)
  {
    var d, p := Tables(t1, t2), Pass(Project(t1).value, t1.version, IncarnationOf(t1));
    var t := TicketFor(p, 0);
    [World(d[0], NO_BOOKS, map[], {}, map[]),
     World(d[1], NO_BOOKS, map[0 := p], {0}, map[]),
     World(d[2], NO_BOOKS, map[0 := p], {0}, map[]),
     World(d[3], NO_BOOKS, map[0 := p], {0}, map[]),
     World(d[4], NO_BOOKS, map[0 := p], {0}, map[]),
     World(d[5], NO_BOOKS, map[0 := p], {0}, map[]),
     World(d[6], FirstBooks(t), map[0 := p], {}, map[0 := t])]
  }

  lemma StoreMove(w: World, v: World, e: Event)
    requires v == w.(db := Step(w.db, e))
    ensures Moves(w, v, Store(e))
  {
    hide Step;
  }

  lemma ReadMove(t: DurableTask)
    requires Project(t).Some? && Encode(t).Some?
    ensures var p := Pass(Project(t).value, t.version, IncarnationOf(t));
            Moves(World(OneTask(t), NO_BOOKS, map[], {}, map[]),
                  World(OneTask(t), NO_BOOKS, map[0 := p], {0}, map[]), ReadHalf(0, p.wire))
  {
    var p := Pass(Project(t).value, t.version, IncarnationOf(t));
    OneTaskIsClean(t, p.wire);
    assert Authorizes(OneTask(t), p);
    hide Project; hide Encode; hide OneTask; hide Authorizes;
    var none: map<nat, Pass> := map[];
    assert none[0 := p] == map[0 := p];
  }

  lemma RetireMove(w: World, id: string)
    requires w.books == NO_BOOKS
    ensures Moves(w, w, Retire(id))
  {
    hide Retires;
    NothingToRetire(id);
  }

  lemma RecordMove(db: Database, p: Pass)
    ensures Moves(World(db, NO_BOOKS, map[0 := p], {0}, map[]),
                  World(db, FirstBooks(TicketFor(p, 0)), map[0 := p], {}, map[0 := TicketFor(p, 0)]), RecordHalf(0))
  {
    hide Issues; hide FirstBooks;
    var t := TicketFor(p, 0);
    FirstIssue(t);
    var none: map<nat, Ticket> := map[];
    assert none[0 := t] == map[0 := t];
  }

  lemma OvertakingRuns(t1: DurableTask, t2: DurableTask)
    requires Replaces(t2, t1)
    ensures Run(OvertakingWorlds(t1, t2), OvertakingMoves(t1, t2))
  {
    hide Step; hide Project; hide Encode; hide OneTask; hide Moves; hide FirstBooks; hide Succeeds;
    var worlds, moves := OvertakingWorlds(t1, t2), OvertakingMoves(t1, t2);
    TablesFollow(t1, t2);
    ReadMove(t1);
    StoreMove(worlds[1], worlds[2], Deletion(t1.taskId));
    RetireMove(worlds[2], t1.taskId);
    StoreMove(worlds[3], worlds[4], CommitLedger(Single(t2)));
    StoreMove(worlds[4], worlds[5], Drain);
    RecordMove(OneTask(t2), worlds[5].passes[0]);
    forall i | 0 <= i < 6 ensures Moves(worlds[i], worlds[i + 1], moves[i]) {
      assert i == 0 || i == 1 || i == 2 || i == 3 || i == 4 || i == 5;
    }
  }

  /** An authorisation that a deletion overtook can serve the task's successor: whenever a
      deleted task is re-created from the same context, sender, recipient and creation time
      while the record half is still to come, the old projection is let through. */
  lemma DeletionIsOvertaken(t1: DurableTask, t2: DurableTask)
    requires Replaces(t2, t1)
    ensures var worlds, moves := OvertakingWorlds(t1, t2), OvertakingMoves(t1, t2);
            && Run(worlds, moves) && moves[0] == ReadHalf(0, Project(t1).value)
            && t1.taskId in worlds[0].db.ledger && t1.taskId !in worlds[2].db.ledger
            && worlds[6].db == OneTask(t2) && LetThrough(worlds[6], Project(t1).value)
  {
    OvertakingRuns(t1, t2);
    var worlds, moves, wire := OvertakingWorlds(t1, t2), OvertakingMoves(t1, t2), Project(t1).value;
    OneTaskIsClean(t1, wire);
    OneTaskIsClean(t2, wire);
    FirstIssue(TicketFor(Pass(wire, t1.version, IncarnationOf(t1)), 0));
    hide Run; hide Encode; hide CleanAuthority; hide StaleAt; hide Present; hide Step; hide LetThrough;
    assert Serves(worlds, moves, 0, wire);
    ServingTakes(worlds, moves, 0, wire);
  }

  /** Such tasks exist: one queued and, re-created, canceled. */
  lemma ReplacementsExist() returns (t1: DurableTask, t2: DurableTask)
    ensures Replaces(t2, t1)
  {
    t1 := DurableTask("t", "c", "s", "r", Payload("", NullMetadata, []), 0, 86_400_000, 1, DurableTasks.Queued,
                      None, 0, None, None, None, None);
    t2 := t1.(version := 2, state := Canceled, terminal := Some(0), retention := Some(2_592_000_000));
    assert Project(t1).value.state == Submitted && Project(t2).value.state == WireCanceled;
  }

  // ----- No read is used twice ----------------------------------------------

  function ReadsOf(passes: map<nat, Pass>, ids: set<nat>, wire: WireTask, incarnation: Incarnation): set<nat> {
    set x | x in ids && x in passes && passes[x].wire == wire && passes[x].incarnation == incarnation
  }

  ghost predicate Counted(w: World, wire: WireTask, incarnation: Incarnation) {
    |Of(w.books.issued, wire.id, wire, incarnation)| + |ReadsOf(w.passes, w.pending, wire, incarnation)| <=
    |ReadsOf(w.passes, w.passes.Keys, wire, incarnation)|
  }

  /** A new read joins `ids` in both counts or in neither. */
  lemma ReadsGrow(passes: map<nat, Pass>, ids: set<nat>, x: nat, p: Pass, wire: WireTask, incarnation: Incarnation)
    requires x !in passes && ids <= passes.Keys
    ensures |ReadsOf(passes[x := p], ids + {x}, wire, incarnation)| ==
            |ReadsOf(passes, ids, wire, incarnation)| + if p.wire == wire && p.incarnation == incarnation then 1 else 0
  {
    var before, after := ReadsOf(passes, ids, wire, incarnation), ReadsOf(passes[x := p], ids + {x}, wire, incarnation);
    assert x !in before;
    assert after == if p.wire == wire && p.incarnation == incarnation then before + {x} else before;
  }

  lemma ReadCounts(w: World, v: World, x: nat, read: WireTask, wire: WireTask, incarnation: Incarnation)
    requires w.pending <= w.passes.Keys && Moves(w, v, ReadHalf(x, read)) && Counted(w, wire, incarnation)
    ensures Counted(v, wire, incarnation)
  {
    hide Authorizes, ReadsOf, Of;
    ReadsGrow(w.passes, w.pending, x, v.passes[x], wire, incarnation);
    ReadsGrow(w.passes, w.passes.Keys, x, v.passes[x], wire, incarnation);
    assert v.passes.Keys == w.passes.Keys + {x};
  }

  lemma IssuedGrow(issued: set<Ticket>, t: Ticket, wire: WireTask, incarnation: Incarnation)
    ensures |Of(issued + {t}, wire.id, wire, incarnation)| <=
            |Of(issued, wire.id, wire, incarnation)| + |Of({t}, wire.id, wire, incarnation)|
  {
    var few, one := Of(issued, wire.id, wire, incarnation), Of({t}, wire.id, wire, incarnation);
    assert Of(issued + {t}, wire.id, wire, incarnation) == few + (one - few);
    assert one == (one - few) + (one * few);
  }

  lemma PendingShrink(passes: map<nat, Pass>, pending: set<nat>, x: nat, wire: WireTask, incarnation: Incarnation)
    requires x in pending
    ensures |ReadsOf(passes, pending, wire, incarnation)| ==
            |ReadsOf(passes, pending - {x}, wire, incarnation)| + |ReadsOf(passes, {x}, wire, incarnation)|
  {
    var rest, one := ReadsOf(passes, pending - {x}, wire, incarnation), ReadsOf(passes, {x}, wire, incarnation);
    assert ReadsOf(passes, pending, wire, incarnation) == rest + one;
  }

  lemma TicketCounts(passes: map<nat, Pass>, x: nat, sequence: U64, wire: WireTask, incarnation: Incarnation)
    requires x in passes
    ensures |Of({TicketFor(passes[x], sequence)}, wire.id, wire, incarnation)| ==
            |ReadsOf(passes, {x}, wire, incarnation)|
  {
    var t, p := TicketFor(passes[x], sequence), passes[x];
    var hit := p.wire == wire && p.incarnation == incarnation;
    assert Of({t}, wire.id, wire, incarnation) == if hit then {t} else {};
    assert ReadsOf(passes, {x}, wire, incarnation) == if hit then {x} else {};
  }

  lemma RecordCounts(w: World, v: World, x: nat, wire: WireTask, incarnation: Incarnation)
    requires w.pending <= w.passes.Keys && Moves(w, v, RecordHalf(x)) && Counted(w, wire, incarnation)
    ensures Counted(v, wire, incarnation)
  {
    hide MadeRoom, Of, ReadsOf;
    var t := TicketFor(w.passes[x], w.books.registry.next);
    assert v.books.issued == w.books.issued + {t};
    IssuedGrow(w.books.issued, t, wire, incarnation);
    PendingShrink(w.passes, w.pending, x, wire, incarnation);
    TicketCounts(w.passes, x, w.books.registry.next, wire, incarnation);
  }

  lemma MoveCounts(w: World, v: World, m: Move, wire: WireTask, incarnation: Incarnation)
    requires w.pending <= w.passes.Keys && Moves(w, v, m) && Counted(w, wire, incarnation)
    ensures Counted(v, wire, incarnation)
  {
    hide Authorizes, Step;
    match m
    case ReadHalf(x, read) => ReadCounts(w, v, x, read, wire, incarnation);
    case RecordHalf(x) => RecordCounts(w, v, x, wire, incarnation);
    case Abandon(x) =>
      var before, after := ReadsOf(w.passes, w.pending, wire, incarnation), ReadsOf(w.passes, v.pending, wire, incarnation);
      assert before == after + (before - after);
    case _ =>
  }

  lemma {:induction false} RunCounts(worlds: seq<World>, moves: seq<Move>, wire: WireTask, incarnation: Incarnation)
    requires Run(worlds, moves)
    ensures Counted(worlds[|worlds| - 1], wire, incarnation)
  {
    hide Moves, Balanced, Authorizes;
    if moves == [] {
      assert Of({}, wire.id, wire, incarnation) == {} && ReadsOf(map[], {}, wire, incarnation) == {};
    } else {
      var n := |moves| - 1;
      RunCounts(worlds[..n + 1], moves[..n], wire, incarnation);
      RunKeeps(worlds[..n + 1], moves[..n]);
      assert worlds[..n + 1][n] == worlds[n];
      MoveCounts(worlds[n], worlds[n + 1], moves[n], wire, incarnation);
    }
  }

  /** However the halves interleave, a projection is let through for one incarnation of a
      task at most as often as it was read as authoritative. */
  lemma TakenAtMostAuthorized(worlds: seq<World>, moves: seq<Move>, wire: WireTask, incarnation: Incarnation)
    requires Run(worlds, moves)
    ensures var w := worlds[|worlds| - 1];
            |Of(w.books.consumed, wire.id, wire, incarnation)| <= |ReadsOf(w.passes, w.passes.Keys, wire, incarnation)|
  {
    hide Moves, Balanced, Backed;
    var w := worlds[|worlds| - 1];
    RunKeeps(worlds, moves);
    RunCounts(worlds, moves, wire, incarnation);
    PresentIssued(w.books);
    OfGrows(w.books.consumed, w.books.issued, wire, incarnation);
  }

  lemma OfGrows(a: set<Ticket>, b: set<Ticket>, wire: WireTask, incarnation: Incarnation)
    requires a <= b
    ensures |Of(a, wire.id, wire, incarnation)| <= |Of(b, wire.id, wire, incarnation)|
  {
    var few, many := Of(a, wire.id, wire, incarnation), Of(b, wire.id, wire, incarnation);
    assert many == few + (many - few);
  }
}
