// The cross-process session lock and descriptor protocol.  Every file operation is
// one step, processes interleave freely and may die between any two steps; the
// transition guard is a file lock, so it is freed when its holder dies.
module SessionLock {
  import opened Prelude

  datatype Record = Record(pid: nat, nonce: nat)

  datatype Descriptor = Descriptor(instance: string, publisher: nat)

  // Where a process stands.  `round` counts the two acquisition rounds.
  datatype Phase =
    | Idle
    | Publishing(round: nat, record: Record)                 // temporary written, about to link
    | Linked(record: Record)                                 // lock linked, stale descriptor still there
    | Judging(round: nat, record: Record)                    // link refused, about to read and probe
    | Condemned(round: nat, record: Record, stale: Record)   // owner dead, no healthy descriptor
    | Clearing(round: nat, record: Record, stale: Record)    // stale descriptor gone, about to unlink
    | Holding(record: Record)
    | Writing(record: Record)                                // descriptor temporary written
    | Renamed(record: Record, instance: string)              // descriptor visible, not yet synced
    | Releasing(record: Record)
    | Cleaning(instance: string, held: Option<Record>)       // about to read the descriptor
    | Matched(instance: string, held: Option<Record>)        // it named the instance, about to unlink

  datatype Process = Process(pid: nat, alive: bool, phase: Phase, nextNonce: nat)

  datatype World = World(
    lock: Option<Record>, descriptor: Option<Descriptor>, guard: Option<nat>, procs: map<nat, Process>)

  /** The record a process owns the session with: from the link on. */
  function Owned(phase: Phase): Option<Record> {
    match phase
    case Linked(r) => Some(r)
    case Holding(r) => Some(r)
    case Writing(r) => Some(r)
    case Renamed(r, _) => Some(r)
    case Releasing(r) => Some(r)
    case Cleaning(_, held) => held
    case Matched(_, held) => held
    case _ => None
  }

  predicate InGuard(phase: Phase) { !phase.Idle? && !phase.Holding? }

  /** A holder whose acquisition has returned. */
  predicate Holds(phase: Phase) { Owned(phase).Some? && !phase.Linked? }

  predicate Live(w: World, p: nat) { p in w.procs && w.procs[p].alive }

  function At(w: World, p: nat): Phase
    requires p in w.procs
  {
    w.procs[p].phase
  }

  function Move(w: World, p: nat, phase: Phase): World
    requires p in w.procs
  {
    w.(procs := w.procs[p := w.procs[p].(phase := phase)])
  }

  function Enter(w: World, p: nat, phase: Phase): World
    requires p in w.procs
  {
    Move(w, p, phase).(guard := Some(p))
  }

  function Leave(w: World, p: nat, phase: Phase): World
    requires p in w.procs
  {
    Move(w, p, phase).(guard := None)
  }

  function Back(held: Option<Record>): Phase {
    match held
    case Some(r) => Holding(r)
    case None => Idle
  }

  // ----- Steps --------------------------------------------------------------

  /** A process starts under an id no live process uses. */
  ghost predicate Starts(w: World, v: World, p: nat, pid: nat) {
    && p !in w.procs
    && (forall q :: Live(w, q) ==> w.procs[q].pid != pid)
    && v == w.(procs := w.procs[p := Process(pid, true, Idle, 1)])
  }

  ghost predicate Dies(w: World, v: World, p: nat) {
    && Live(w, p)
    && v == w.(procs := w.procs[p := w.procs[p].(alive := false)],
               guard := if w.guard == Some(p) then None else w.guard)
  }

  /** Taking the guard: to acquire, to publish, to release or to clean up. */
  ghost predicate Enters(w: World, v: World, p: nat) {
    && Live(w, p) && w.guard == None
    && var me := w.procs[p];
    || (me.phase.Idle? &&
        v == Enter(w.(procs := w.procs[p := me.(nextNonce := me.nextNonce + 1)]), p,
                   Publishing(0, Record(me.pid, me.nextNonce))))
    || (me.phase.Holding? && v == Enter(w, p, Writing(me.phase.record)))
    || (me.phase.Holding? && v == Enter(w, p, Releasing(me.phase.record)))
    || (me.phase.Idle? && exists instance :: v == Enter(w, p, Cleaning(instance, None)))
    || (me.phase.Holding? && exists instance :: v == Enter(w, p, Cleaning(instance, Some(me.phase.record))))
  }

  /** The acquisition: link, or judge the owner, clear it away and try again. */
  ghost predicate Acquires(w: World, v: World, p: nat) {
    && Live(w, p)
    && match At(w, p)
       case Publishing(round, record) =>
         if w.lock.None? then v == Move(w.(lock := Some(record)), p, Linked(record))
         else v == Move(w, p, Judging(round, record))
       case Linked(record) =>
         || v == Leave(w.(descriptor := None), p, Holding(record))
         || v == Leave(w.(lock := None), p, Idle)
         || v == Leave(w, p, Idle)
       case Judging(round, record) =>
         && w.lock.Some?
         && (forall q :: Live(w, q) ==> w.procs[q].pid != w.lock.value.pid)
         && v == Move(w, p, Condemned(round, record, w.lock.value))
       case Condemned(round, record, stale) =>
         if w.lock == Some(stale) then v == Move(w.(descriptor := None), p, Clearing(round, record, stale))
         else v == Retry(w, p, round, record)
       case Clearing(round, record, stale) => v == Retry(w.(lock := None), p, round, record)
       case _ => false
  }

  function Retry(w: World, p: nat, round: nat, record: Record): World
    requires p in w.procs
  {
    if round + 1 < 2 then Move(w, p, Publishing(round + 1, record)) else Leave(w, p, Idle)
  }

  /** A failed probe, read or file operation, or a live or healthy owner. */
  ghost predicate GivesUp(w: World, v: World, p: nat) {
    && Live(w, p)
    && match At(w, p)
       case Publishing(_, _) | Judging(_, _) | Condemned(_, _, _) | Clearing(_, _, _) => v == Leave(w, p, Idle)
       case Writing(record) => v == Leave(w, p, Holding(record))
       case Releasing(_) => v == Leave(w, p, Idle)
       case Cleaning(_, held) => v == Leave(w, p, Back(held))
       case Matched(_, held) => v == Leave(w, p, Back(held))
       case Holding(_) => v == Move(w, p, Idle)   // a release that could not take the guard
       case _ => false
  }

  /** A holder publishes: rename into place, then settle; a failed settle withdraws
      the descriptor if it still names this instance. */
  ghost predicate Publishes(w: World, v: World, p: nat) {
    && Live(w, p)
    && match At(w, p)
       case Writing(record) =>
         exists instance :: v == Move(w.(descriptor := Some(Descriptor(instance, p))), p, Renamed(record, instance))
       case Renamed(record, instance) =>
         || v == Leave(w, p, Holding(record))
         || (w.descriptor.Some? && w.descriptor.value.instance == instance &&
             v == Leave(w.(descriptor := None), p, Holding(record)))
       case _ => false
  }

  ghost predicate Releases(w: World, v: World, p: nat) {
    && Live(w, p) && At(w, p).Releasing?
    && v == Leave(if w.lock == Some(At(w, p).record) then w.(lock := None) else w, p, Idle)
  }

  /** Cleaning up one instance's descriptor: read, compare, then unlink whatever is there. */
  ghost predicate CleansUp(w: World, v: World, p: nat) {
    && Live(w, p)
    && match At(w, p)
       case Cleaning(instance, held) =>
         if w.descriptor.Some? && w.descriptor.value.instance == instance then v == Move(w, p, Matched(instance, held))
         else v == Leave(w, p, Back(held))
       case Matched(instance, held) => v == Leave(w.(descriptor := None), p, Back(held))
       case _ => false
  }

  ghost predicate Acts(w: World, v: World, p: nat) {
    || Dies(w, v, p) || Enters(w, v, p) || Acquires(w, v, p) || GivesUp(w, v, p)
    || Publishes(w, v, p) || Releases(w, v, p) || CleansUp(w, v, p)
  }

  ghost predicate Next(w: World, v: World) {
    || (exists p, pid :: Starts(w, v, p, pid))
    || (exists p :: Acts(w, v, p))
  }

  // ----- The invariant ------------------------------------------------------

  ghost predicate DistinctPids(w: World) {
    forall p, q :: Live(w, p) && Live(w, q) && w.procs[p].pid == w.procs[q].pid ==> p == q
  }

  ghost predicate Guarded(w: World) {
    && (w.guard.Some? ==> Live(w, w.guard.value))
    && (forall p: nat :: Live(w, p) ==> (InGuard(At(w, p)) <==> w.guard == Some(p)))
  }

  ghost predicate OwnersLocked(w: World) {
    forall p :: Live(w, p) && Owned(At(w, p)).Some? ==>
      w.lock == Owned(At(w, p)) && Owned(At(w, p)).value.pid == w.procs[p].pid
  }

  predicate Pretends(phase: Phase, pid: nat) {
    (phase.Publishing? || phase.Judging? || phase.Condemned? || phase.Clearing?) ==> phase.record.pid == pid
  }

  ghost predicate Judged(w: World) {
    forall p :: Live(w, p) ==>
      && Pretends(At(w, p), w.procs[p].pid)
      && (At(w, p).Condemned? || At(w, p).Clearing? ==>
            w.lock == Some(At(w, p).stale) && forall q :: Live(w, q) ==> Owned(At(w, q)).None?)
      && (At(w, p).Publishing? && At(w, p).round > 0 ==> w.lock.None?)
      && (At(w, p).Judging? || At(w, p).Condemned? || At(w, p).Clearing? ==> At(w, p).round == 0 && w.lock.Some?)
      && (At(w, p).Matched? ==> w.descriptor.Some? && w.descriptor.value.instance == At(w, p).instance)
  }

  ghost predicate HoldersPublish(w: World) {
    forall p :: Live(w, p) && Holds(At(w, p)) && w.descriptor.Some? ==> w.descriptor.value.publisher == p
  }

  ghost predicate Inv(w: World) {
    DistinctPids(w) && Guarded(w) && OwnersLocked(w) && Judged(w) && HoldersPublish(w)
  }

  // ----- Every step keeps it ------------------------------------------------

  lemma StartKeeps(w: World, v: World, p: nat, pid: nat)
    requires Inv(w) && Starts(w, v, p, pid)
    ensures Inv(v)
  {
  }

  lemma DeathKeeps(w: World, v: World, p: nat)
    requires Inv(w) && Dies(w, v, p)
    ensures Inv(v)
  {
  }

  lemma IdleCleans(w: World, p: nat, instance: string)
    requires Inv(w) && Live(w, p) && w.guard == None && At(w, p).Idle?
    ensures Inv(Enter(w, p, Cleaning(instance, None)))
  {
  }

  lemma IdlePublishes(w: World, p: nat)
    requires Inv(w) && Live(w, p) && w.guard == None && At(w, p).Idle?
    ensures var me := w.procs[p];
            Inv(Enter(w.(procs := w.procs[p := me.(nextNonce := me.nextNonce + 1)]), p,
                      Publishing(0, Record(me.pid, me.nextNonce))))
  {
  }

  lemma IdleEnterKeeps(w: World, v: World, p: nat)
    requires Inv(w) && Enters(w, v, p) && At(w, p).Idle?
    ensures Inv(v)
  {
    hide Inv;
    if At(v, p).Cleaning? { IdleCleans(w, p, At(v, p).instance); } else { IdlePublishes(w, p); }
  }

  /** A holder takes the guard and goes on owning the session. */
  lemma HolderMovesIn(w: World, p: nat, phase: Phase)
    requires Inv(w) && Live(w, p) && w.guard == None && At(w, p).Holding?
    requires phase.Writing? || phase.Releasing? || phase.Cleaning?
    requires Owned(phase) == Owned(At(w, p))
    ensures Inv(Enter(w, p, phase))
  {
  }

  lemma HolderEnterKeeps(w: World, v: World, p: nat)
    requires Inv(w) && Enters(w, v, p) && At(w, p).Holding?
    ensures Inv(v)
  {
    hide Inv;
    HolderMovesIn(w, p, At(v, p));
  }

  lemma LinkKeeps(w: World, v: World, p: nat)
    requires Inv(w) && Acquires(w, v, p) && At(w, p).Publishing?
    ensures Inv(v)
  {
  }

  lemma LinkedHolds(w: World, p: nat)
    requires Inv(w) && Live(w, p) && At(w, p).Linked?
    ensures Inv(Leave(w.(descriptor := None), p, Holding(At(w, p).record)))
  {
  }

  lemma LinkedGivesUp(w: World, p: nat)
    requires Inv(w) && Live(w, p) && At(w, p).Linked?
    ensures Inv(Leave(w.(lock := None), p, Idle)) && Inv(Leave(w, p, Idle))
  {
  }

  lemma LinkedKeeps(w: World, v: World, p: nat)
    requires Inv(w) && Acquires(w, v, p) && At(w, p).Linked?
    ensures Inv(v)
  {
    hide Inv;
    if At(v, p).Holding? { LinkedHolds(w, p); } else { LinkedGivesUp(w, p); }
  }

  lemma CondemnKeeps(w: World, v: World, p: nat)
    requires Inv(w) && Acquires(w, v, p) && At(w, p).Judging?
    ensures Inv(v)
  {
  }

  lemma ClearKeeps(w: World, v: World, p: nat)
    requires Inv(w) && Acquires(w, v, p) && At(w, p).Condemned?
    ensures Inv(v)
  {
  }

  lemma UnlinkKeeps(w: World, v: World, p: nat)
    requires Inv(w) && Acquires(w, v, p) && At(w, p).Clearing?
    ensures Inv(v)
  {
  }

  lemma TakeoverKeeps(w: World, v: World, p: nat)
    requires Inv(w) && Acquires(w, v, p) && !At(w, p).Publishing? && !At(w, p).Linked?
    ensures Inv(v)
  {
    hide Inv;
    if At(w, p).Judging? { CondemnKeeps(w, v, p); }
    else if At(w, p).Condemned? { ClearKeeps(w, v, p); }
    else { UnlinkKeeps(w, v, p); }
  }

  /** A process under the guard leaves it, keeping the session if it owned it or giving up
      its claim to it. */
  lemma LeavingKeeps(w: World, p: nat, phase: Phase)
    requires Inv(w) && Live(w, p) && InGuard(At(w, p)) && !At(w, p).Linked?
    requires phase.Idle? || (phase.Holding? && Owned(phase) == Owned(At(w, p)))
    ensures Inv(Leave(w, p, phase))
  {
  }

  lemma GiveUpKeeps(w: World, v: World, p: nat)
    requires Inv(w) && GivesUp(w, v, p)
    ensures Inv(v)
  {
    if At(w, p).Holding? {
      assert v == Move(w, p, Idle);
    } else {
      hide Inv;
      LeavingKeeps(w, p, At(v, p));
    }
  }

  /** A holder under the guard puts up its own descriptor or takes it down, and may leave. */
  lemma HolderPublishes(w: World, p: nat, descriptor: Option<Descriptor>, phase: Phase)
    requires Inv(w) && Live(w, p) && (At(w, p).Writing? || At(w, p).Renamed?)
    requires descriptor.Some? ==> descriptor.value.publisher == p
    requires Owned(phase) == Owned(At(w, p)) && (phase.Renamed? || phase.Holding?)
    ensures phase.Renamed? ==> Inv(Move(w.(descriptor := descriptor), p, phase))
    ensures phase.Holding? ==> Inv(Leave(w.(descriptor := descriptor), p, phase))
  {
  }

  lemma PublishKeeps(w: World, v: World, p: nat)
    requires Inv(w) && Publishes(w, v, p)
    ensures Inv(v)
  {
    assert w.descriptor.Some? && Holds(At(w, p)) ==> w.descriptor.value.publisher == p;
    hide Inv;
    HolderPublishes(w, p, v.descriptor, At(v, p));
  }

  lemma ReleaseKeeps(w: World, v: World, p: nat)
    requires Inv(w) && Releases(w, v, p)
    ensures Inv(v)
  {
  }

  lemma MatchKeeps(w: World, p: nat)
    requires Inv(w) && Live(w, p) && At(w, p).Cleaning?
    requires w.descriptor.Some? && w.descriptor.value.instance == At(w, p).instance
    ensures Inv(Move(w, p, Matched(At(w, p).instance, At(w, p).held)))
  {
  }

  lemma UnpublishKeeps(w: World, p: nat)
    requires Inv(w) && Live(w, p) && At(w, p).Matched?
    ensures Inv(Leave(w.(descriptor := None), p, Back(At(w, p).held)))
  {
  }

  lemma CleanUpKeeps(w: World, v: World, p: nat)
    requires Inv(w) && CleansUp(w, v, p)
    ensures Inv(v)
  {
    hide Inv;
    if At(w, p).Matched? { UnpublishKeeps(w, p); }
    else if At(v, p).Matched? { MatchKeeps(w, p); }
    else { LeavingKeeps(w, p, At(v, p)); }
  }

  lemma NextKeeps(w: World, v: World)
    requires Inv(w) && Next(w, v)
    ensures Inv(v)
  {
    hide Inv; hide Starts; hide Dies; hide Enters; hide Acquires; hide GivesUp; hide Publishes; hide Releases; hide CleansUp;
    if p, pid :| Starts(w, v, p, pid) {
      StartKeeps(w, v, p, pid);
    } else {
      var p :| Acts(w, v, p);
      if Dies(w, v, p) { DeathKeeps(w, v, p); }
      else if Enters(w, v, p) {
        ActorLives(w, v, p);
        if At(w, p).Idle? { IdleEnterKeeps(w, v, p); } else { HolderEnterKeeps(w, v, p); }
      }
      else if Acquires(w, v, p) {
        ActorLives(w, v, p);
        if At(w, p).Publishing? { LinkKeeps(w, v, p); }
        else if At(w, p).Linked? { LinkedKeeps(w, v, p); }
        else { TakeoverKeeps(w, v, p); }
      }
      else if GivesUp(w, v, p) { GiveUpKeeps(w, v, p); }
      else if Publishes(w, v, p) { PublishKeeps(w, v, p); }
      else if Releases(w, v, p) { ReleaseKeeps(w, v, p); }
      else { CleanUpKeeps(w, v, p); }
    }
  }

  lemma ActorLives(w: World, v: World, p: nat)
    requires Acquires(w, v, p) || Enters(w, v, p)
    ensures p in w.procs
    ensures Enters(w, v, p) ==> At(w, p).Idle? || At(w, p).Holding?
  {
  }

  const EMPTY: World := World(None, None, None, map[])

  /** A world reached from an empty directory by any interleaving of starts, steps and
      deaths at any stage. */
  ghost predicate Run(worlds: seq<World>) {
    && worlds != [] && worlds[0] == EMPTY
    && forall i :: 0 <= i < |worlds| - 1 ==> Next(worlds[i], worlds[i + 1])
  }

  lemma {:induction false} RunKeeps(worlds: seq<World>)
    requires Run(worlds)
    ensures Inv(worlds[|worlds| - 1])
  {
    hide Next;
    if |worlds| > 1 {
      RunKeeps(worlds[..|worlds| - 1]);
      NextKeeps(worlds[|worlds| - 2], worlds[|worlds| - 1]);
    }
  }

  // ----- What the protocol promises -----------------------------------------

  /** In every reachable world at most one live process owns the session, its lock file
      is in place, and once its acquisition has returned any visible descriptor is the
      one it published. */
  lemma OneOwner(worlds: seq<World>, p: nat)
    requires Run(worlds)
    requires Live(worlds[|worlds| - 1], p) && Owned(At(worlds[|worlds| - 1], p)).Some?
    ensures var w := worlds[|worlds| - 1];
            && w.lock == Owned(At(w, p))
            && (forall q :: Live(w, q) && Owned(At(w, q)).Some? ==> q == p)
            && (Holds(At(w, p)) && w.descriptor.Some? ==> w.descriptor.value.publisher == p)
  {
    RunKeeps(worlds);
    hide Run;
  }

  /** No step of another process, its death included, touches a live owner's lock. */
  lemma OwnersLockIsSafe(worlds: seq<World>, v: World, p: nat, q: nat)
    requires Run(worlds) && p != q && Acts(worlds[|worlds| - 1], v, q)
    requires Live(worlds[|worlds| - 1], p) && Owned(At(worlds[|worlds| - 1], p)).Some?
    ensures v.lock == worlds[|worlds| - 1].lock
    ensures Live(v, p) && At(v, p) == At(worlds[|worlds| - 1], p)
  {
    var w := worlds[|worlds| - 1];
    RunKeeps(worlds);
    hide Run;
    LockStays(w, v, p, q);
  }

  lemma LockStays(w: World, v: World, p: nat, q: nat)
    requires Inv(w) && p != q && Acts(w, v, q) && Live(w, p) && Owned(At(w, p)).Some?
    ensures v.lock == w.lock && Live(v, p) && At(v, p) == At(w, p)
  {
    hide HoldersPublish;
  }

  /** Cleaning up for one instance never removes another instance's descriptor, though
      the comparison and the unlink are two steps. */
  lemma CleanupIsExact(worlds: seq<World>, v: World, p: nat)
    requires Run(worlds) && CleansUp(worlds[|worlds| - 1], v, p)
    ensures var w := worlds[|worlds| - 1];
            v.descriptor != w.descriptor ==>
              v.descriptor.None? && w.descriptor.Some? && At(w, p).Matched? &&
              w.descriptor.value.instance == At(w, p).instance
  {
    RunKeeps(worlds);
    hide Run;
  }

  /** Acquisition never runs out of rounds: under the guard the lock cannot change
      between the two reads, and after a takeover the second link cannot be refused. */
  lemma TakeoverProgresses(worlds: seq<World>, v: World, p: nat)
    requires Run(worlds) && Acquires(worlds[|worlds| - 1], v, p)
    ensures var w := worlds[|worlds| - 1];
            match At(w, p)
            case Publishing(round, record) =>
              if round > 0 || w.lock.None? then At(v, p) == Linked(record) && v.lock == Some(record)
              else At(v, p).Judging? && v.lock == w.lock
            case Condemned(round, record, stale) =>
              w.lock == Some(stale) && At(v, p) == Clearing(round, record, stale) && v.descriptor.None?
            case Clearing(round, record, _) => v.lock.None? && At(v, p) == Publishing(1, record)
            case _ => true
  {
    RunKeeps(worlds);
    hide Run;
  }

  /** A release frees the session: the lock is gone, whatever happened since it was taken. */
  lemma ReleaseFrees(worlds: seq<World>, v: World, p: nat)
    requires Run(worlds) && Releases(worlds[|worlds| - 1], v, p)
    ensures v.lock.None? && v.guard.None? && At(v, p).Idle? && v.descriptor == worlds[|worlds| - 1].descriptor
  {
    RunKeeps(worlds);
    hide Run;
  }

  /** Who may change the files: a lock appears only for the process that then owns it, and
      goes only when its owner gives it up or when no live process owns the session; a
      descriptor appears only from a holder. */
  lemma FilesChangeBy(worlds: seq<World>, v: World, p: nat)
    requires Run(worlds) && Acts(worlds[|worlds| - 1], v, p)
    ensures LockChangeAllowed(worlds[|worlds| - 1], v, p)
    ensures DescriptorChangeAllowed(worlds[|worlds| - 1], v, p)
  {
    var w := worlds[|worlds| - 1];
    hide Run; hide LockChangeAllowed; hide DescriptorChangeAllowed; hide Inv;
    hide Dies; hide Enters; hide Acquires; hide GivesUp; hide Publishes; hide Releases; hide CleansUp;
    RunKeeps(worlds);
    if Acquires(w, v, p) { AcquiringChanges(w, v, p); }
    else { OtherwiseChanges(w, v, p); }
  }

  lemma AcquiringChanges(w: World, v: World, p: nat)
    requires Inv(w) && Acquires(w, v, p)
    ensures LockChangeAllowed(w, v, p) && DescriptorChangeAllowed(w, v, p)
  {
    hide DistinctPids; hide HoldersPublish; hide Guarded;
  }

  lemma OtherwiseChanges(w: World, v: World, p: nat)
    requires Inv(w)
    requires Dies(w, v, p) || Enters(w, v, p) || GivesUp(w, v, p) || Publishes(w, v, p) || Releases(w, v, p) || CleansUp(w, v, p)
    ensures LockChangeAllowed(w, v, p) && DescriptorChangeAllowed(w, v, p)
  {
    hide DistinctPids; hide HoldersPublish; hide Judged; hide Guarded; hide OwnersLocked;
  }

  ghost predicate LockChangeAllowed(w: World, v: World, p: nat) {
    v.lock == w.lock || LockAppears(w, v, p) || LockGoes(w, v, p)
  }

  predicate DescriptorChangeAllowed(w: World, v: World, p: nat) {
    v.descriptor.Some? ==>
      v.descriptor == w.descriptor || (v.descriptor.value.publisher == p && p in w.procs && Holds(At(w, p)))
  }

  predicate LockAppears(w: World, v: World, p: nat) {
    && p in w.procs && p in v.procs
    && w.lock.None? && v.lock.Some? && v.lock == Owned(At(v, p)) && v.lock.value.pid == w.procs[p].pid
  }

  ghost predicate LockGoes(w: World, v: World, p: nat) {
    && p in w.procs && p in v.procs && w.lock.Some? && v.lock.None?
    && ((Owned(At(w, p)) == w.lock && At(v, p).Idle?) || forall q :: Live(w, q) ==> Owned(At(w, q)).None?)
  }

  /** A step that is not `p`'s: another process starts, acts or dies. */
  ghost predicate OtherStep(w: World, v: World, p: nat) {
    || (exists q, pid :: Starts(w, v, q, pid))
    || (exists q :: q != p && Acts(w, v, q))
  }

  /** While `p` is under the guard nobody else can touch the files or `p` itself. */
  lemma OthersWait(w: World, v: World, p: nat)
    requires Inv(w) && Live(w, p) && InGuard(At(w, p)) && OtherStep(w, v, p)
    ensures Live(v, p) && At(v, p) == At(w, p) && v.lock == w.lock && v.descriptor == w.descriptor
  {
    hide Judged; hide HoldersPublish; hide OwnersLocked; hide DistinctPids;
    if q, pid :| Starts(w, v, q, pid) {
    } else {
      var q :| q != p && Acts(w, v, q);
      OtherIsOutside(w, p, q);
    }
  }

  lemma OtherIsOutside(w: World, p: nat, q: nat)
    requires Guarded(w) && Live(w, p) && InGuard(At(w, p)) && q != p
    ensures w.guard == Some(p) && (Live(w, q) ==> !InGuard(At(w, q)))
  {
  }

  ghost predicate OthersOnly(worlds: seq<World>, i: nat, j: nat, p: nat)
    requires i <= j < |worlds|
  {
    forall k :: i <= k < j ==> OtherStep(worlds[k], worlds[k + 1], p)
  }

  lemma {:induction false} Waits(worlds: seq<World>, i: nat, j: nat, p: nat)
    requires Run(worlds) && i <= j < |worlds| && OthersOnly(worlds, i, j, p)
    requires Live(worlds[i], p) && InGuard(At(worlds[i], p))
    ensures Live(worlds[j], p) && At(worlds[j], p) == At(worlds[i], p) && worlds[j].lock == worlds[i].lock
  {
    hide Next; hide OtherStep; hide InGuard;
    if i < j {
      Waits(worlds, i, j - 1, p);
      RunKeeps(worlds[..j]);
      OthersWait(worlds[j - 1], worlds[j], p);
    }
  }

  ghost predicate CanStep(w: World, p: nat) { exists v: World :: Acquires(w, v, p) }

  /** Once its owner is dead, nothing keeps `p` from taking the next step of a takeover. */
  lemma TakeoverCanStep(worlds: seq<World>, p: nat)
    requires Run(worlds) && Live(worlds[|worlds| - 1], p)
    requires var w := worlds[|worlds| - 1];
             || At(w, p).Condemned? || At(w, p).Clearing? || At(w, p).Publishing?
             || (At(w, p).Judging? && forall q :: w.lock.Some? && Live(w, q) ==> w.procs[q].pid != w.lock.value.pid)
    ensures CanStep(worlds[|worlds| - 1], p)
  {
    var w := worlds[|worlds| - 1];
    RunKeeps(worlds);
    hide Run;
    match At(w, p) {
      case Publishing(round, record) =>
        var v := if w.lock.None? then Move(w.(lock := Some(record)), p, Linked(record)) else Move(w, p, Judging(round, record));
        assert Acquires(w, v, p);
      case Judging(round, record) =>
        assert Acquires(w, Move(w, p, Condemned(round, record, w.lock.value)), p);
      case Condemned(round, record, stale) =>
        assert Acquires(w, Move(w.(descriptor := None), p, Clearing(round, record, stale)), p);
      case Clearing(round, record, stale) =>
        assert Acquires(w, Retry(w.(lock := None), p, round, record), p);
      case _ =>
    }
  }

  /** A takeover completes: once `p` has found the lock's owner dead, its next three steps
      clear the lock away and link its own, whatever other processes do in between. */
  lemma TakeoverCompletes(worlds: seq<World>, p: nat, a: nat, b: nat, c: nat, d: nat)
    requires Run(worlds) && a < b < c < d < |worlds| - 1
    requires p in worlds[a].procs && At(worlds[a], p).Judging?
    requires Acquires(worlds[a], worlds[a + 1], p) && OthersOnly(worlds, a + 1, b, p)
    requires Acquires(worlds[b], worlds[b + 1], p) && OthersOnly(worlds, b + 1, c, p)
    requires Acquires(worlds[c], worlds[c + 1], p) && OthersOnly(worlds, c + 1, d, p)
    requires Acquires(worlds[d], worlds[d + 1], p)
    ensures var record := At(worlds[a], p).record;
            && At(worlds[d + 1], p) == Linked(record) && worlds[d + 1].lock == Some(record)
            && record.pid == worlds[a].procs[p].pid
  {
    hide Run; hide OthersOnly; hide OtherStep; hide Next;
    var record := At(worlds[a], p).record;
    JudgeStep(worlds, p, a);
    Waits(worlds, a + 1, b, p);
    TakeoverStep(worlds, p, b);
    Waits(worlds, b + 1, c, p);
    TakeoverStep(worlds, p, c);
    Waits(worlds, c + 1, d, p);
    TakeoverStep(worlds, p, d);
  }

  lemma JudgeStep(worlds: seq<World>, p: nat, i: nat)
    requires Run(worlds) && i < |worlds| - 1 && p in worlds[i].procs && At(worlds[i], p).Judging?
    requires Acquires(worlds[i], worlds[i + 1], p)
    ensures Live(worlds[i + 1], p) && At(worlds[i + 1], p).Condemned?
    ensures At(worlds[i + 1], p).record == At(worlds[i], p).record
    ensures At(worlds[i], p).record.pid == worlds[i].procs[p].pid
  {
    assert Run(worlds[..i + 1]);
    RunKeeps(worlds[..i + 1]);
    hide Run; hide Next;
  }

  lemma TakeoverStep(worlds: seq<World>, p: nat, i: nat)
    requires Run(worlds) && i < |worlds| - 1 && Live(worlds[i], p) && Acquires(worlds[i], worlds[i + 1], p)
    ensures Live(worlds[i + 1], p)
    ensures match At(worlds[i], p)
            case Condemned(round, record, stale) => At(worlds[i + 1], p) == Clearing(round, record, stale)
            case Clearing(round, record, _) => At(worlds[i + 1], p) == Publishing(1, record)
            case Publishing(round, record) =>
              round > 0 ==> At(worlds[i + 1], p) == Linked(record) && worlds[i + 1].lock == Some(record)
            case _ => true
  {
    assert Run(worlds[..i + 1]);
    TakeoverProgresses(worlds[..i + 1], worlds[i + 1], p);
    hide Run; hide Next;
  }
}
