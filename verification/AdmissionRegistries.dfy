// The registry as the broker keeps it: a mutable map of queues, a running total and
// a sequence counter, updated in place under its lock.
module AdmissionRegistries {
  import opened Prelude
  import opened DurableTasks
  import opened Admissions

  class AdmissionRegistry {
    var byTask: Queues
    var total: nat
    var next: U64

    ghost function Model(): Registry
      reads this
    {
      Registry(byTask, total, next)
    }

    constructor ()
      ensures Model() == Registry(map[], 0, 0) && Valid(Model())
    {
      byTask, total, next := map[], 0, 0;
      new;
      assert Tickets(byTask) == {};
    }

    /** Takes one admission out of its queue and drops the queue once it is empty. */
    method Remove(id: string, i: nat) returns (taken: Admission)
      requires Valid(Model()) && id in byTask && i < |byTask[id]|
      modifies this
      ensures Valid(Model()) && old(total) > 0 && Model() == RemoveAt(old(Model()), id, i)
      ensures taken == old(byTask)[id][i] && Dropped(old(byTask), byTask, id, i)
    {
      RemoveAtValid(Model(), id, i);
      RemoveAtDrops(Model(), id, i);
      hide Valid; hide Dropped;
      var queue := byTask[id];
      taken := queue[i];
      byTask := byTask[id := queue[..i] + queue[i + 1..]];
      total := total - 1;
      if byTask[id] == [] {
        byTask := byTask - {id};
      }
      assert byTask == WithQueue(old(byTask), id, queue[..i] + queue[i + 1..]);
    }

    /** Evicts the admission with the smallest sequence number in the task's queue. */
    method RemoveOldestForTask(id: string) returns (ghost gone: set<Ticket>)
      requires Valid(Model())
      modifies this
      ensures Valid(Model())
      ensures if id !in old(byTask) then Model() == old(Model()) && gone == {}
              else exists i :: IsOldestIn(old(byTask)[id], i) && old(total) > 0 &&
                               Model() == RemoveAt(old(Model()), id, i) && gone == {Ticket(id, old(byTask)[id][i])}
    {
      gone := {};
      if id in byTask {
        var i := MinIndex(byTask[id]);
        hide Numbered; hide Tickets;
        var taken := Remove(id, i);
        gone := {Ticket(id, taken)};
      }
    }

    /** Evicts the admission with the smallest sequence number of all; a registry that
        holds one is all its `expect` calls need. */
    method RemoveOldest() returns (ghost gone: set<Ticket>)
      requires Valid(Model()) && total > 0
      modifies this
      ensures Valid(Model())
      ensures exists id, i :: IsOldest(old(byTask), id, i) && Model() == RemoveAt(old(Model()), id, i) &&
                              gone == {Ticket(id, old(byTask)[id][i])}
    {
      var id, i := FindOldest(byTask);
      hide Valid;
      var taken := Remove(id, i);
      gone := {Ticket(id, taken)};
    }

    /** The shared first half of recording and restoring. */
    method MakeRoom(id: string) returns (ghost gone: set<Ticket>)
      requires Valid(Model())
      modifies this
      ensures Valid(Model()) && MadeRoom(old(Model()), id, Model(), gone)
      ensures |Queue(old(byTask), id)| < 8 && old(total) < 4096 ==> gone == {} && Model() == old(Model())
      ensures |Queue(old(byTask), id)| == 8 ==> gone != {}
    {
      ghost var start := Model();
      ghost var first := {};
      if id in byTask && |byTask[id]| == MAX_PER_TASK {
        first := RemoveOldestForTask(id);
      }
      ghost var middle := Model();
      assert TaskRoom(start, id, middle, first);
      ghost var second := {};
      if total == MAX_ADMISSIONS {
        second := RemoveOldest();
      }
      assert TotalRoom(middle, Model(), second);
      gone := first + second;
    }

    /** Issues an admission under a new sequence number, evicting to make room. */
    method Record(id: string, fingerprint: WireTask, version: U64, incarnation: Incarnation)
      returns (ok: bool, ghost room: Registry, ghost gone: set<Ticket>)
      requires Valid(Model())
      modifies this
      ensures Valid(Model())
      ensures ok == (old(next) < MAX_U64)
      ensures !ok ==> Model() == old(Model())
      ensures ok ==> MadeRoom(old(Model()).(next := old(next) + 1), id, room, gone) &&
                     Model() == Push(room, id, Admission(fingerprint, version, incarnation, old(next))) &&
                     Appended(room.byTask, byTask, id, Admission(fingerprint, version, incarnation, old(next)))
    {
      hide Valid; hide MadeRoom; hide Appended; hide Push;
      room, gone := Model(), {};
      if next == MAX_U64 {
        return false, room, gone;
      }
      var sequence := next;
      NextValid(Model());
      next := next + 1;
      ghost var start := Model();
      gone := MakeRoom(id);
      room := Model();
      MadeRoomValid(start, id, room, gone);
      assert Unused(byTask, sequence) by {
        SequencesBelow(old(Model()), start, room, gone);
      }
      Append(id, Admission(fingerprint, version, incarnation, sequence));
      ok := true;
    }

    method Append(id: string, a: Admission)
      requires Valid(Model()) && |Queue(byTask, id)| < MAX_PER_TASK && total < MAX_ADMISSIONS
      requires a.sequence < next && Unused(byTask, a.sequence)
      modifies this
      ensures Valid(Model()) && Model() == Push(old(Model()), id, a) && Appended(old(byTask), byTask, id, a)
    {
      PushValid(Model(), id, a);
      PushAppends(Model(), id, a);
      hide Valid; hide Appended;
      byTask := byTask[id := Queue(byTask, id) + [a]];
      total := total + 1;
    }

    /** Takes the first admission of the task that matches; a superseded projection
        needs one of a strictly smaller version. */
    method Consume(id: string, fingerprint: WireTask, version: U64, incarnation: Incarnation, superseded: bool)
      returns (taken: Option<Admission>, ghost at: int)
      requires Valid(Model())
      modifies this
      ensures Valid(Model())
      ensures taken.None? ==>
                Model() == old(Model()) &&
                forall j :: 0 <= j < |Queue(byTask, id)| ==>
                  var a := Queue(byTask, id)[j];
                  a.fingerprint != fingerprint || a.incarnation != incarnation || a.version > version ||
                  (superseded && a.version == version)
      ensures taken.Some? ==>
                && id in old(byTask) && old(total) > 0
                && IsFirstMatch(old(byTask)[id], at, fingerprint, version, incarnation, superseded)
                && taken.value == old(byTask)[id][at]
                && taken.value.fingerprint == fingerprint && taken.value.incarnation == incarnation
                && (if superseded then taken.value.version < version else taken.value.version <= version)
                && Model() == RemoveAt(old(Model()), id, at) && Dropped(old(byTask), byTask, id, at)
    {
      at := -1;
      if id !in byTask {
        return None, at;
      }
      var queue := byTask[id];
      var i := 0;
      while i < |queue| && !Matches(queue[i], fingerprint, version, incarnation, superseded)
        invariant 0 <= i <= |queue|
        invariant forall j :: 0 <= j < i ==> !Matches(queue[j], fingerprint, version, incarnation, superseded)
      {
        i := i + 1;
      }
      if i == |queue| {
        return None, at;
      }
      at := i;
      hide Valid; hide Dropped;
      var found := Remove(id, i);
      taken := Some(found);
    }

    /** Puts back an admission whose write failed to commit. */
    method Restore(id: string, a: Admission) returns (ghost room: Registry, ghost gone: set<Ticket>)
      requires Valid(Model()) && a.sequence < next && Unused(byTask, a.sequence)
      modifies this
      ensures Valid(Model())
      ensures MadeRoom(old(Model()), id, room, gone) && Model() == Push(room, id, a)
      ensures Appended(room.byTask, byTask, id, a)
    {
      hide Valid; hide MadeRoom; hide Appended; hide Push;
      ghost var start := Model();
      gone := MakeRoom(id);
      room := Model();
      MadeRoomValid(start, id, room, gone);
      assert Unused(byTask, a.sequence) by {
        StillUnused(start, room, gone, a.sequence);
      }
      Append(id, a);
    }

    method RemoveTask(id: string)
      requires Valid(Model())
      modifies this
      ensures Valid(Model()) && Model() == Retired(old(Model()), id)
    {
      RetireValid(Model(), id);
      if id in byTask {
        total := total - |byTask[id]|;
      }
      byTask := byTask - {id};
    }

    /** `retire_sdk_projection_admissions`: no admission of a deleted task survives. */
    method RetireAll(ids: seq<string>)
      requires Valid(Model())
      modifies this
      ensures Valid(Model()) && next == old(next)
      ensures byTask == old(byTask) - (set i | 0 <= i < |ids| :: ids[i])
    {
      hide Valid;
      var i := 0;
      assert byTask == old(byTask) - {};
      while i < |ids|
        invariant 0 <= i <= |ids| && Valid(Model()) && next == old(next)
        invariant byTask == old(byTask) - (set j | 0 <= j < i :: ids[j])
      {
        RemoveTask(ids[i]);
        assert (set j | 0 <= j < i + 1 :: ids[j]) == (set j | 0 <= j < i :: ids[j]) + {ids[i]};
        i := i + 1;
      }
    }
  }

  lemma StillUnused(start: Registry, room: Registry, gone: set<Ticket>, sequence: U64)
    requires Unused(start.byTask, sequence) && Tickets(room.byTask) == Tickets(start.byTask) - gone
    ensures Unused(room.byTask, sequence)
  {
    forall t | t in Tickets(room.byTask) ensures t.admission.sequence != sequence {
      assert t in Tickets(start.byTask);
    }
    UnusedByTickets(room.byTask, sequence);
  }

  lemma SequencesBelow(before: Registry, start: Registry, room: Registry, gone: set<Ticket>)
    requires Valid(before) && start.byTask == before.byTask
    requires Tickets(room.byTask) == Tickets(start.byTask) - gone
    ensures Unused(room.byTask, before.next)
  {
    assert Unused(start.byTask, before.next);
    StillUnused(start, room, gone, before.next);
  }

  method MinIndex(queue: seq<Admission>) returns (k: nat)
    requires queue != []
    ensures IsOldestIn(queue, k)
  {
    k := 0;
    for i := 1 to |queue|
      invariant k < i && forall j :: 0 <= j < i ==> queue[k].sequence <= queue[j].sequence
    {
      if queue[i].sequence < queue[k].sequence {
        k := i;
      }
    }
  }

  /** The flattened minimum over all queues. */
  method FindOldest(q: Queues) returns (id: string, i: nat)
    requires WellFormed(q) && |Tickets(q)| > 0
    ensures IsOldest(q, id, i)
  {
    ghost var some :| some in Tickets(q);
    assert some.task in q;
    var ids := q.Keys;
    id :| id in ids;
    i := MinIndex(q[id]);
    ids := ids - {id};
    while ids != {}
      invariant ids <= q.Keys && id in q.Keys - ids && i < |q[id]|
      invariant forall id', j :: id' in q.Keys - ids && 0 <= j < |q[id']| ==> q[id][i].sequence <= q[id'][j].sequence
      decreases ids
    {
      var candidate :| candidate in ids;
      var k := MinIndex(q[candidate]);
      if q[candidate][k].sequence < q[id][i].sequence {
        id, i := candidate, k;
      }
      ids := ids - {candidate};
    }
  }
}
