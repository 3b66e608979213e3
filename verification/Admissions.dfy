// The one-shot admission registry for late SDK writes: bounded queues per task, a
// bounded total, and eviction of the oldest sequence number.  A fingerprint is the
// projection itself, which is what an injective digest amounts to.
module Admissions {
  import opened Prelude
  import opened DurableTasks

  const MAX_PER_TASK: nat := 8
  const MAX_ADMISSIONS: nat := 4096

  datatype Incarnation = Incarnation(contextId: string, sender: string, recipient: string, created: I64)

  function IncarnationOf(t: DurableTask): Incarnation {
    Incarnation(t.contextId, t.sender, t.recipient, t.created)
  }

  datatype Admission = Admission(fingerprint: WireTask, version: U64, incarnation: Incarnation, sequence: U64)

  type Queues = map<string, seq<Admission>>

  datatype Registry = Registry(byTask: Queues, total: nat, next: U64)

  // ----- The registry as a value --------------------------------------------

  datatype Ticket = Ticket(task: string, admission: Admission)

  ghost function Tickets(q: Queues): set<Ticket> {
    set id, i | id in q && 0 <= i < |q[id]| :: Ticket(id, q[id][i])
  }

  predicate WellFormed(q: Queues) {
    forall id :: id in q ==> 1 <= |q[id]| <= MAX_PER_TASK
  }

  /** Every admission present has its own sequence number, already issued. */
  predicate Numbered(q: Queues, next: U64) {
    && (forall id, i :: id in q && 0 <= i < |q[id]| ==> q[id][i].sequence < next)
    && (forall id, i, id', i' ::
          id in q && 0 <= i < |q[id]| && id' in q && 0 <= i' < |q[id']| && (id != id' || i != i') ==>
            q[id][i].sequence != q[id'][i'].sequence)
  }

  ghost function SumLengths(q: Queues): nat {
    if q == map[] then 0
    else
      var id :| id in q;
      |q[id]| + SumLengths(q - {id})
  }

  ghost predicate Valid(r: Registry) {
    && WellFormed(r.byTask)
    && Numbered(r.byTask, r.next)
    && r.total == |Tickets(r.byTask)|
    && r.total <= MAX_ADMISSIONS
  }

  function WithQueue(q: Queues, id: string, queue: seq<Admission>): Queues {
    if queue == [] then q - {id} else q[id := queue]
  }

  function Queue(q: Queues, id: string): seq<Admission> { if id in q then q[id] else [] }

  function RemoveAt(r: Registry, id: string, i: nat): Registry
    requires id in r.byTask && i < |r.byTask[id]| && r.total > 0
  {
    var queue := r.byTask[id];
    r.(byTask := WithQueue(r.byTask, id, queue[..i] + queue[i + 1..]), total := r.total - 1)
  }

  function Push(r: Registry, id: string, a: Admission): Registry {
    r.(byTask := r.byTask[id := Queue(r.byTask, id) + [a]], total := r.total + 1)
  }

  /** From one to the other the task's queue gains `a` at its end; the others stay. */
  ghost predicate Appended(q: Queues, d: Queues, id: string, a: Admission) {
    Queue(d, id) == Queue(q, id) + [a] && forall other :: other != id ==> Queue(d, other) == Queue(q, other)
  }

  /** From one to the other the task's queue loses the admission at `i`, the rest of it in
      order, and is gone if that was all; the others stay. */
  ghost predicate Dropped(q: Queues, d: Queues, id: string, i: int) {
    && 0 <= i < |Queue(q, id)|
    && Queue(d, id) == Queue(q, id)[..i] + Queue(q, id)[i + 1..] && (id in d <==> |Queue(q, id)| > 1)
    && forall other :: other != id ==> Queue(d, other) == Queue(q, other)
  }

  lemma PushAppends(r: Registry, id: string, a: Admission)
    ensures Appended(r.byTask, Push(r, id, a).byTask, id, a)
  {
  }

  lemma RemoveAtDrops(r: Registry, id: string, i: nat)
    requires id in r.byTask && i < |r.byTask[id]| && r.total > 0
    ensures Dropped(r.byTask, RemoveAt(r, id, i).byTask, id, i)
  {
  }

  predicate IsOldest(q: Queues, id: string, i: int) {
    && id in q && 0 <= i < |q[id]|
    && forall id', i' :: id' in q && 0 <= i' < |q[id']| ==> q[id][i].sequence <= q[id'][i'].sequence
  }

  predicate IsOldestIn(queue: seq<Admission>, i: int) {
    0 <= i < |queue| && forall j :: 0 <= j < |queue| ==> queue[i].sequence <= queue[j].sequence
  }

  predicate Matches(a: Admission, fingerprint: WireTask, version: U64, incarnation: Incarnation, superseded: bool) {
    && a.fingerprint == fingerprint
    && a.incarnation == incarnation
    && if superseded then a.version < version else a.version <= version
  }

  predicate IsFirstMatch(queue: seq<Admission>, i: int, fingerprint: WireTask, version: U64,
                         incarnation: Incarnation, superseded: bool) {
    && 0 <= i < |queue|
    && Matches(queue[i], fingerprint, version, incarnation, superseded)
    && forall j :: 0 <= j < i ==> !Matches(queue[j], fingerprint, version, incarnation, superseded)
  }

  // ----- What each operation does to the registry ---------------------------

  /** Room in the task's own queue: a full queue loses its oldest admission. */
  ghost predicate TaskRoom(r: Registry, id: string, m: Registry, evicted: set<Ticket>) {
    if |Queue(r.byTask, id)| == MAX_PER_TASK then
      exists i :: IsOldestIn(r.byTask[id], i) && r.total > 0 && m == RemoveAt(r, id, i) &&
                  evicted == {Ticket(id, r.byTask[id][i])}
    else m == r && evicted == {}
  }

  /** Room in the registry: a full one loses the oldest admission of all. */
  ghost predicate TotalRoom(r: Registry, m: Registry, evicted: set<Ticket>) {
    if r.total == MAX_ADMISSIONS then
      exists id, i :: IsOldest(r.byTask, id, i) && m == RemoveAt(r, id, i) &&
                      evicted == {Ticket(id, r.byTask[id][i])}
    else m == r && evicted == {}
  }

  ghost predicate MadeRoom(r: Registry, id: string, m: Registry, evicted: set<Ticket>) {
    exists middle: Registry, first: set<Ticket>, second: set<Ticket> ::
      TaskRoom(r, id, middle, first) && TotalRoom(middle, m, second) && evicted == first + second
  }

  // ----- The invariant, operation by operation ------------------------------

  lemma TicketAt(q: Queues, id: string, i: int)
    requires id in q && 0 <= i < |q[id]|
    ensures Ticket(id, q[id][i]) in Tickets(q)
  {
  }

  function Source(id: string, i: nat, id': string, j: nat): nat { if id' == id && j >= i then j + 1 else j }

  lemma RemoveAtSource(q: Queues, id: string, i: nat, id': string, j: nat)
    requires id in q && i < |q[id]|
    requires var p := WithQueue(q, id, q[id][..i] + q[id][i + 1..]); id' in p && j < |p[id']|
    ensures var p := WithQueue(q, id, q[id][..i] + q[id][i + 1..]);
            id' in q && Source(id, i, id', j) < |q[id']| && p[id'][j] == q[id'][Source(id, i, id', j)]
  {
  }

  lemma RemoveAtTickets(q: Queues, next: U64, id: string, i: nat)
    requires id in q && i < |q[id]| && Numbered(q, next)
    ensures Tickets(WithQueue(q, id, q[id][..i] + q[id][i + 1..])) == Tickets(q) - {Ticket(id, q[id][i])}
    ensures Ticket(id, q[id][i]) in Tickets(q)
  {
    var p := WithQueue(q, id, q[id][..i] + q[id][i + 1..]);
    forall t | t in Tickets(p) ensures t in Tickets(q) && t != Ticket(id, q[id][i]) {
      var a, j :| a in p && 0 <= j < |p[a]| && t == Ticket(a, p[a][j]);
      RemoveAtSource(q, id, i, a, j);
      TicketAt(q, a, Source(id, i, a, j));
    }
    forall t | t in Tickets(q) && t != Ticket(id, q[id][i]) ensures t in Tickets(p) {
      var a, j :| a in q && 0 <= j < |q[a]| && t == Ticket(a, q[a][j]);
      var k := if a == id && j > i then j - 1 else j;
      assert a in p && k < |p[a]| && Source(id, i, a, k) == j;
      RemoveAtSource(q, id, i, a, k);
      TicketAt(p, a, k);
    }
  }

  lemma RemoveAtNumbered(q: Queues, next: U64, id: string, i: nat)
    requires id in q && i < |q[id]| && Numbered(q, next) && WellFormed(q)
    ensures Numbered(WithQueue(q, id, q[id][..i] + q[id][i + 1..]), next)
    ensures WellFormed(WithQueue(q, id, q[id][..i] + q[id][i + 1..]))
  {
    var p := WithQueue(q, id, q[id][..i] + q[id][i + 1..]);
    forall a, j | a in p && 0 <= j < |p[a]|
      ensures a in q && Source(id, i, a, j) < |q[a]| && p[a][j] == q[a][Source(id, i, a, j)]
    {
      RemoveAtSource(q, id, i, a, j);
    }
    hide WithQueue;
  }

  /** Removing one admission keeps the registry valid and takes exactly its ticket. */
  lemma RemoveAtValid(r: Registry, id: string, i: nat)
    requires Valid(r) && id in r.byTask && i < |r.byTask[id]|
    ensures r.total > 0 && Valid(RemoveAt(r, id, i))
    ensures Tickets(RemoveAt(r, id, i).byTask) == Tickets(r.byTask) - {Ticket(id, r.byTask[id][i])}
    ensures Ticket(id, r.byTask[id][i]) in Tickets(r.byTask)
  {
    RemoveAtTickets(r.byTask, r.next, id, i);
    RemoveAtNumbered(r.byTask, r.next, id, i);
  }

  lemma PushTickets(q: Queues, id: string, a: Admission)
    ensures Tickets(q[id := Queue(q, id) + [a]]) == Tickets(q) + {Ticket(id, a)}
  {
    var p := q[id := Queue(q, id) + [a]];
    TicketAt(p, id, |Queue(q, id)|);
    forall t | t in Tickets(q) ensures t in Tickets(p) {
      var id', j :| id' in q && 0 <= j < |q[id']| && t == Ticket(id', q[id'][j]);
      assert p[id'][j] == q[id'][j];
      TicketAt(p, id', j);
    }
  }

  predicate Unused(q: Queues, sequence: U64) {
    forall id, i :: id in q && 0 <= i < |q[id]| ==> q[id][i].sequence != sequence
  }

  lemma UnusedTicket(q: Queues, id: string, a: Admission)
    requires Unused(q, a.sequence)
    ensures Ticket(id, a) !in Tickets(q)
  {
  }

  lemma PushNumbered(q: Queues, next: U64, id: string, a: Admission)
    requires Numbered(q, next) && a.sequence < next && Unused(q, a.sequence)
    ensures Numbered(q[id := Queue(q, id) + [a]], next)
  {
    var p := q[id := Queue(q, id) + [a]];
    forall id', j | id' in p && 0 <= j < |p[id']|
      ensures if id' == id && j == |Queue(q, id)| then p[id'][j] == a
              else id' in q && j < |q[id']| && p[id'][j] == q[id'][j]
    {
    }
  }

  /** Appending an admission with a sequence number of its own keeps the registry valid. */
  lemma PushValid(r: Registry, id: string, a: Admission)
    requires Valid(r) && |Queue(r.byTask, id)| < MAX_PER_TASK && r.total < MAX_ADMISSIONS
    requires a.sequence < r.next && Unused(r.byTask, a.sequence)
    ensures Valid(Push(r, id, a)) && Ticket(id, a) !in Tickets(r.byTask)
    ensures Tickets(Push(r, id, a).byTask) == Tickets(r.byTask) + {Ticket(id, a)}
  {
    UnusedTicket(r.byTask, id, a);
    PushTickets(r.byTask, id, a);
    PushNumbered(r.byTask, r.next, id, a);
    hide Numbered; hide Unused; hide Tickets;
  }

  lemma TaskRoomValid(r: Registry, id: string, m: Registry, evicted: set<Ticket>)
    requires Valid(r) && TaskRoom(r, id, m, evicted)
    ensures Valid(m) && m.next == r.next && |Queue(m.byTask, id)| < MAX_PER_TASK
    ensures Tickets(m.byTask) == Tickets(r.byTask) - evicted && evicted <= Tickets(r.byTask)
  {
    hide Numbered;
    if |Queue(r.byTask, id)| == MAX_PER_TASK {
      var i :| IsOldestIn(r.byTask[id], i) && r.total > 0 && m == RemoveAt(r, id, i) &&
               evicted == {Ticket(id, r.byTask[id][i])};
      RemoveAtValid(r, id, i);
    }
  }

  lemma TotalRoomValid(r: Registry, m: Registry, evicted: set<Ticket>)
    requires Valid(r) && TotalRoom(r, m, evicted)
    ensures Valid(m) && m.next == r.next && m.total < MAX_ADMISSIONS
    ensures forall id :: |Queue(m.byTask, id)| <= |Queue(r.byTask, id)|
    ensures Tickets(m.byTask) == Tickets(r.byTask) - evicted && evicted <= Tickets(r.byTask)
  {
    hide Numbered;
    if r.total == MAX_ADMISSIONS {
      var id, i :| IsOldest(r.byTask, id, i) && m == RemoveAt(r, id, i) && evicted == {Ticket(id, r.byTask[id][i])};
      RemoveAtValid(r, id, i);
    }
  }

  lemma MadeRoomValid(r: Registry, id: string, m: Registry, evicted: set<Ticket>)
    requires Valid(r) && MadeRoom(r, id, m, evicted)
    ensures Valid(m) && m.next == r.next && |Queue(m.byTask, id)| < MAX_PER_TASK && m.total < MAX_ADMISSIONS
    ensures Tickets(m.byTask) == Tickets(r.byTask) - evicted && evicted <= Tickets(r.byTask)
  {
    hide Valid; hide TaskRoom; hide TotalRoom; hide Tickets;
    var middle: Registry, first: set<Ticket>, second: set<Ticket> :|
      TaskRoom(r, id, middle, first) && TotalRoom(middle, m, second) && evicted == first + second;
    TaskRoomValid(r, id, middle, first);
    TotalRoomValid(middle, m, second);
  }

  /** The sequence numbers of a set of tickets present say which are used. */
  lemma UnusedByTickets(q: Queues, sequence: U64)
    requires forall t :: t in Tickets(q) ==> t.admission.sequence != sequence
    ensures Unused(q, sequence)
  {
    forall id, i | id in q && 0 <= i < |q[id]| ensures q[id][i].sequence != sequence {
      TicketAt(q, id, i);
    }
  }

  // ----- Every run keeps the books ------------------------------------------

  /** The registry with what became of every admission ever issued. */
  datatype Books = Books(
    registry: Registry, issued: set<Ticket>, consumed: set<Ticket>, evicted: set<Ticket>, retired: set<Ticket>)

  ghost function Present(b: Books): set<Ticket> { Tickets(b.registry.byTask) }

  predicate Partition(all: set<Ticket>, p: set<Ticket>, c: set<Ticket>, e: set<Ticket>, r: set<Ticket>) {
    all == p + c + e + r && p !! c !! e !! r
  }

  predicate OwnNumbers(issued: set<Ticket>, next: U64) {
    && (forall t :: t in issued ==> t.admission.sequence < next)
    && (forall t, u :: t in issued && u in issued && t.admission.sequence == u.admission.sequence ==> t == u)
  }

  /** Issued = present + consumed + evicted + retired, nothing counted twice. */
  ghost predicate Balanced(b: Books) {
    && Valid(b.registry)
    && Partition(b.issued, Present(b), b.consumed, b.evicted, b.retired)
    && OwnNumbers(b.issued, b.registry.next)
  }

  ghost predicate Issues(b: Books, c: Books, id: string, a: Admission) {
    exists m: Registry, evicted: set<Ticket> ::
      && b.registry.next < MAX_U64
      && a.sequence == b.registry.next
      && MadeRoom(b.registry.(next := b.registry.next + 1), id, m, evicted)
      && c == b.(registry := Push(m, id, a), issued := b.issued + {Ticket(id, a)}, evicted := b.evicted + evicted)
  }

  ghost predicate Consumes(b: Books, c: Books, id: string, i: int) {
    && id in b.registry.byTask && 0 <= i < |b.registry.byTask[id]| && b.registry.total > 0
    && c == b.(registry := RemoveAt(b.registry, id, i),
               consumed := b.consumed + {Ticket(id, b.registry.byTask[id][i])})
  }

  /** Only an admission taken by a write whose transaction then failed comes back. */
  ghost predicate Restores(b: Books, c: Books, t: Ticket) {
    exists m: Registry, evicted: set<Ticket> ::
      && t in b.consumed
      && MadeRoom(b.registry, t.task, m, evicted)
      && c == b.(registry := Push(m, t.task, t.admission), consumed := b.consumed - {t}, evicted := b.evicted + evicted)
  }

  function Retired(r: Registry, id: string): Registry {
    r.(byTask := r.byTask - {id}, total := if |Queue(r.byTask, id)| <= r.total then r.total - |Queue(r.byTask, id)| else 0)
  }

  ghost predicate Retires(b: Books, c: Books, id: string) {
    && c.registry == Retired(b.registry, id)
    && c == b.(registry := c.registry, retired := b.retired + set t | t in Present(b) && t.task == id)
  }

  ghost predicate Next(b: Books, c: Books) {
    || b == c
    || (exists id, a :: Issues(b, c, id, a))
    || (exists id, i :: Consumes(b, c, id, i))
    || (exists t :: Restores(b, c, t))
    || (exists id :: Retires(b, c, id))
  }

  lemma IssueSets(all: set<Ticket>, p: set<Ticket>, c: set<Ticket>, e: set<Ticket>, r: set<Ticket>,
                  out: set<Ticket>, t: Ticket)
    requires Partition(all, p, c, e, r) && out <= p && t !in all
    ensures Partition(all + {t}, p - out + {t}, c, e + out, r)
  {
  }

  lemma RestoreSets(all: set<Ticket>, p: set<Ticket>, c: set<Ticket>, e: set<Ticket>, r: set<Ticket>,
                    out: set<Ticket>, t: Ticket)
    requires Partition(all, p, c, e, r) && out <= p && t in c
    ensures Partition(all, p - out + {t}, c - {t}, e + out, r)
    ensures forall u :: u in p - out ==> u in all && u != t
  {
  }

  lemma ConsumeSets(all: set<Ticket>, p: set<Ticket>, c: set<Ticket>, e: set<Ticket>, r: set<Ticket>, t: Ticket)
    requires Partition(all, p, c, e, r) && t in p
    ensures Partition(all, p - {t}, c + {t}, e, r)
  {
  }

  lemma RetireSets(all: set<Ticket>, p: set<Ticket>, c: set<Ticket>, e: set<Ticket>, r: set<Ticket>, out: set<Ticket>)
    requires Partition(all, p, c, e, r) && out <= p
    ensures Partition(all, p - out, c, e, r + out)
  {
  }

  lemma NextValid(r: Registry)
    requires Valid(r) && r.next < MAX_U64
    ensures Valid(r.(next := r.next + 1))
  {
  }

  lemma PushNext(r: Registry, id: string, a: Admission)
    ensures Push(r, id, a).next == r.next
  {
  }

  lemma PresentIssued(b: Books)
    requires Balanced(b)
    ensures Present(b) <= b.issued && b.consumed <= b.issued
  {
  }

  lemma IssueBalances(b: Books, c: Books, id: string, a: Admission)
    requires Balanced(b) && Issues(b, c, id, a)
    ensures Balanced(c)
  {
    hide Valid; hide Tickets; hide Partition; hide MadeRoom; hide Push;
    var r := b.registry.(next := b.registry.next + 1);
    var m: Registry, evicted: set<Ticket> :|
      MadeRoom(r, id, m, evicted) &&
      c == b.(registry := Push(m, id, a), issued := b.issued + {Ticket(id, a)}, evicted := b.evicted + evicted);
    NextValid(b.registry);
    MadeRoomValid(r, id, m, evicted);
    PresentIssued(b);
    UnusedByTickets(m.byTask, a.sequence);
    PushValid(m, id, a);
    PushNext(m, id, a);
    IssueSets(b.issued, Present(b), b.consumed, b.evicted, b.retired, evicted, Ticket(id, a));
  }

  lemma ConsumeBalances(b: Books, c: Books, id: string, i: int)
    requires Balanced(b) && Consumes(b, c, id, i)
    ensures Balanced(c)
  {
    hide Valid; hide Tickets; hide Partition;
    RemoveAtValid(b.registry, id, i);
    ConsumeSets(b.issued, Present(b), b.consumed, b.evicted, b.retired, Ticket(id, b.registry.byTask[id][i]));
  }

  lemma RestoreBalances(b: Books, c: Books, t: Ticket)
    requires Balanced(b) && Restores(b, c, t)
    ensures Balanced(c)
  {
    hide Valid; hide Tickets; hide Partition; hide MadeRoom; hide Push;
    var m: Registry, evicted: set<Ticket> :|
      MadeRoom(b.registry, t.task, m, evicted) &&
      c == b.(registry := Push(m, t.task, t.admission), consumed := b.consumed - {t}, evicted := b.evicted + evicted);
    MadeRoomValid(b.registry, t.task, m, evicted);
    PresentIssued(b);
    RestoreSets(b.issued, Present(b), b.consumed, b.evicted, b.retired, evicted, t);
    UnusedByTickets(m.byTask, t.admission.sequence);
    PushValid(m, t.task, t.admission);
    PushNext(m, t.task, t.admission);
    assert Ticket(t.task, t.admission) == t;
  }

  function Upto(id: string, queue: seq<Admission>, n: nat): set<Ticket>
    requires n <= |queue|
  {
    set i | 0 <= i < n :: Ticket(id, queue[i])
  }

  lemma {:induction false} QueueSize(id: string, queue: seq<Admission>, n: nat)
    requires n <= |queue|
    requires forall i, j :: 0 <= i < j < |queue| ==> queue[i].sequence != queue[j].sequence
    ensures |Upto(id, queue, n)| == n
  {
    if n > 0 {
      QueueSize(id, queue, n - 1);
      assert Upto(id, queue, n) == Upto(id, queue, n - 1) + {Ticket(id, queue[n - 1])};
    }
  }

  /** Dropping a task's whole queue takes exactly its tickets. */
  lemma RetireTickets(r: Registry, id: string)
    requires Valid(r)
    ensures var gone := set t | t in Tickets(r.byTask) && t.task == id;
            Tickets(r.byTask - {id}) == Tickets(r.byTask) - gone && |gone| == |Queue(r.byTask, id)|
  {
    var gone := set t | t in Tickets(r.byTask) && t.task == id;
    var queue := Queue(r.byTask, id);
    QueueSize(id, queue, |queue|);
    forall t | t in gone ensures t in Upto(id, queue, |queue|) {
      var id', i :| id' in r.byTask && 0 <= i < |r.byTask[id']| && t == Ticket(id', r.byTask[id'][i]);
    }
    forall t | t in Upto(id, queue, |queue|) ensures t in gone {
      var i :| 0 <= i < |queue| && t == Ticket(id, queue[i]);
      TicketAt(r.byTask, id, i);
    }
    assert gone == Upto(id, queue, |queue|);
    forall t | t in Tickets(r.byTask) && t.task != id ensures t in Tickets(r.byTask - {id}) {
      var id', i :| id' in r.byTask && 0 <= i < |r.byTask[id']| && t == Ticket(id', r.byTask[id'][i]);
      TicketAt(r.byTask - {id}, id', i);
    }
  }

  lemma RetireValid(r: Registry, id: string)
    requires Valid(r)
    ensures Valid(Retired(r, id)) && |Queue(r.byTask, id)| <= r.total
  {
    var gone := set t | t in Tickets(r.byTask) && t.task == id;
    RetireTickets(r, id);
    assert |Tickets(r.byTask) - gone| == |Tickets(r.byTask)| - |gone|;
  }

  lemma RetireBalances(b: Books, c: Books, id: string)
    requires Balanced(b) && Retires(b, c, id)
    ensures Balanced(c)
  {
    RetireValid(b.registry, id);
    RetireTickets(b.registry, id);
    hide Valid; hide Tickets; hide Partition;
    RetireSets(b.issued, Present(b), b.consumed, b.evicted, b.retired, set t | t in Present(b) && t.task == id);
  }

  lemma NextBalances(b: Books, c: Books)
    requires Balanced(b) && Next(b, c)
    ensures Balanced(c)
  {
    hide Balanced; hide Issues; hide Consumes; hide Restores; hide Retires;
    if id, a :| Issues(b, c, id, a) {
      IssueBalances(b, c, id, a);
    } else if id, i :| Consumes(b, c, id, i) {
      ConsumeBalances(b, c, id, i);
    } else if t :| Restores(b, c, t) {
      RestoreBalances(b, c, t);
    } else if id :| Retires(b, c, id) {
      RetireBalances(b, c, id);
    }
  }

  ghost predicate History(books: seq<Books>) {
    forall i :: 0 <= i < |books| - 1 ==> Next(books[i], books[i + 1])
  }

  const NO_BOOKS: Books := Books(Registry(map[], 0, 0), {}, {}, {}, {})

  /** In every history of issuing, consuming, restoring, evicting and retiring the
      books balance and the registry stays within its bounds. */
  lemma {:induction false} HistoryBalances(books: seq<Books>)
    requires books != [] && books[0] == NO_BOOKS && History(books)
    ensures Balanced(books[|books| - 1])
  {
    hide Next; hide Balanced;
    if |books| == 1 {
      EmptyBalances();
    } else {
      HistoryBalances(books[..|books| - 1]);
      NextBalances(books[|books| - 2], books[|books| - 1]);
    }
  }

  lemma EmptyBalances()
    ensures Balanced(NO_BOOKS)
  {
    assert Tickets(map[]) == {};
  }

  lemma PartitionOf(all: set<Ticket>, p: set<Ticket>, c: set<Ticket>, e: set<Ticket>, r: set<Ticket>,
                    task: string, fingerprint: WireTask, incarnation: Incarnation)
    requires Partition(all, p, c, e, r)
    ensures Partition(Of(all, task, fingerprint, incarnation), Of(p, task, fingerprint, incarnation),
                      Of(c, task, fingerprint, incarnation), Of(e, task, fingerprint, incarnation),
                      Of(r, task, fingerprint, incarnation))
  {
  }

  lemma PartitionSize(all: set<Ticket>, p: set<Ticket>, c: set<Ticket>, e: set<Ticket>, r: set<Ticket>)
    requires Partition(all, p, c, e, r)
    ensures |all| == |p| + |c| + |e| + |r|
  {
    assert |p + c| == |p| + |c|;
    assert |p + c + e| == |p + c| + |e|;
  }

  /** Conservation for each task, fingerprint and incarnation: what was issued is still
      present or was consumed, evicted or retired, so a stale projection is never let
      through more often than it was admitted. */
  lemma AdmissionsAreConserved(books: seq<Books>, task: string, fingerprint: WireTask, incarnation: Incarnation)
    requires books != [] && books[0] == NO_BOOKS && History(books)
    ensures var b := books[|books| - 1];
            |Of(b.issued, task, fingerprint, incarnation)| ==
            |Of(Present(b), task, fingerprint, incarnation)| + |Of(b.consumed, task, fingerprint, incarnation)| +
            |Of(b.evicted, task, fingerprint, incarnation)| + |Of(b.retired, task, fingerprint, incarnation)|
  {
    hide Valid; hide History; hide Present; hide Of; hide OwnNumbers; hide Partition;
    HistoryBalances(books);
    var b := books[|books| - 1];
    PartitionOf(b.issued, Present(b), b.consumed, b.evicted, b.retired, task, fingerprint, incarnation);
    PartitionSize(Of(b.issued, task, fingerprint, incarnation), Of(Present(b), task, fingerprint, incarnation),
                  Of(b.consumed, task, fingerprint, incarnation), Of(b.evicted, task, fingerprint, incarnation),
                  Of(b.retired, task, fingerprint, incarnation));
  }

  function Of(ts: set<Ticket>, task: string, fingerprint: WireTask, incarnation: Incarnation): set<Ticket> {
    set t | t in ts && t.task == task && t.admission.fingerprint == fingerprint && t.admission.incarnation == incarnation
  }

  /** A valid registry's queues hold 1 to 8 admissions each and at most 4096 in all, and its
      total is their sum. */
  lemma ValidMeans(r: Registry, id: string)
    requires Valid(r)
    ensures |Queue(r.byTask, id)| <= 8 && (id in r.byTask ==> r.byTask[id] != [])
    ensures r.total <= 4096 && r.total == SumLengths(r.byTask)
  {
    SumIsTickets(r.byTask, r.next);
  }

  // ----- The total is the sum of the queue lengths --------------------------

  lemma {:induction false} SumIsTickets(q: Queues, next: U64)
    requires Numbered(q, next)
    ensures SumLengths(q) == |Tickets(q)|
    decreases |q|
  {
    if q == map[] {
      assert Tickets(q) == {};
    } else {
      var id :| id in q && SumLengths(q) == |q[id]| + SumLengths(q - {id});
      SumIsTickets(q - {id}, next);
      QueueTickets(q, next, id);
    }
  }

  lemma QueueTickets(q: Queues, next: U64, id: string)
    requires Numbered(q, next) && id in q
    ensures |Tickets(q)| == |q[id]| + |Tickets(q - {id})|
  {
    QueueSize(id, q[id], |q[id]|);
    var mine := Upto(id, q[id], |q[id]|);
    forall t | t in Tickets(q) ensures t in mine + Tickets(q - {id}) {
      var id', i :| id' in q && 0 <= i < |q[id']| && t == Ticket(id', q[id'][i]);
      if id' != id { TicketAt(q - {id}, id', i); }
    }
    forall t | t in mine ensures t in Tickets(q) {
      var i :| 0 <= i < |q[id]| && t == Ticket(id, q[id][i]);
      TicketAt(q, id, i);
    }
    assert Tickets(q) == mine + Tickets(q - {id}) && mine !! Tickets(q - {id});
  }
}
