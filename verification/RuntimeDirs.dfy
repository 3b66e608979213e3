// The runtime directory as one process drives it while it holds the transition
// guard: the publish loop over temporary names, the two-round acquisition and the
// release.  `fails` says which file operations fail.
module RuntimeDirs {
  import opened Prelude
  import opened SessionLock

  const PUBLISH_ATTEMPTS: nat := 128

  datatype Op = CreateTemp | WriteTemp | LinkLock | ReadLock | RemoveDescriptor | UnlinkLock | UnlinkTemp

  type Faults = (nat, Op) -> bool

  datatype Publish = Published | Exists | PublishError

  datatype Acquire = Acquired(record: Record) | AlreadyOwned(pid: nat) | AcquireError | LockChanged

  /** A temporary name: `.lock-tmp-<pid>-<nonce>`. */
  datatype TempName = TempName(pid: nat, nonce: nat)

  predicate Displaceable(owner: Record, descriptor: Option<Descriptor>, alive: nat -> bool, healthy: Descriptor -> bool) {
    !alive(owner.pid) && (descriptor.Some? ==> !healthy(descriptor.value))
  }

  /** Some of the next 128 temporary names of the process is free. */
  predicate NameFree(temps: set<TempName>, process: nat, start: nat) {
    exists k :: start <= k < start + PUBLISH_ATTEMPTS && TempName(process, k) !in temps
  }

  /** The nonce after trying up to `n` names until one is free. */
  function AfterTries(temps: set<TempName>, process: nat, start: nat, n: nat): (next: nat)
    ensures start <= next <= start + n && (n > 0 ==> start < next)
    decreases n
  {
    if n == 0 then start
    else if TempName(process, start) !in temps then start + 1
    else AfterTries(temps, process, start + 1, n - 1)
  }

  ghost predicate NoFault(fails: Faults) { forall round, op :: !fails(round, op) }

  class RuntimeDir {
    var lock: Option<Record>
    var descriptor: Option<Descriptor>
    var temps: set<TempName>
    var nonce: nat

    constructor (lock: Option<Record>, descriptor: Option<Descriptor>, temps: set<TempName>)
      ensures this.lock == lock && this.descriptor == descriptor && this.temps == temps && nonce == 1
    {
      this.lock, this.descriptor, this.temps, nonce := lock, descriptor, temps, 1;
    }

    /** Writes the record to a private temporary and links it as the lock without
        clobbering one; the link is the commit point, so a lock that becomes visible
        is complete.  Running out of temporary names reads like an existing lock. */
    method PublishLock(process: nat, record: Record, round: nat, fails: Faults) returns (r: Publish)
      modifies this
      ensures descriptor == old(descriptor) && nonce == AfterTries(old(temps), process, old(nonce), PUBLISH_ATTEMPTS)
      ensures lock == if r.Published? then Some(record) else old(lock)
      ensures r.Published? ==> old(lock).None?
      ensures r.Exists? && old(NameFree(temps, process, nonce)) ==> old(lock).Some?
      ensures r.Published? ==> old(NameFree(temps, process, nonce))
      ensures r.PublishError? <==>
              old(NameFree(temps, process, nonce)) &&
              (fails(round, CreateTemp) || fails(round, WriteTemp) || fails(round, LinkLock))
      ensures old(lock).Some? ==> !r.Published?
      ensures old(temps) <= temps && (!fails(round, UnlinkTemp) ==> temps == old(temps))
    {
      var attempts := 0;
      while attempts < PUBLISH_ATTEMPTS
        invariant 0 <= attempts <= PUBLISH_ATTEMPTS && nonce == old(nonce) + attempts
        invariant lock == old(lock) && descriptor == old(descriptor) && temps == old(temps)
        invariant forall k :: old(nonce) <= k < nonce ==> TempName(process, k) in temps
        invariant AfterTries(temps, process, old(nonce), PUBLISH_ATTEMPTS) ==
                  AfterTries(temps, process, nonce, PUBLISH_ATTEMPTS - attempts)
      {
        var temp := TempName(process, nonce);
        nonce := nonce + 1;
        attempts := attempts + 1;
        if temp in temps {
          continue;
        }
        if fails(round, CreateTemp) {
          return PublishError;
        }
        if fails(round, WriteTemp) {
          return PublishError;
        }
        temps := temps + {temp};
        if fails(round, LinkLock) {
          r := PublishError;
        } else if lock.Some? {
          r := Exists;
        } else {
          lock := Some(record);
          r := Published;
        }
        if !fails(round, UnlinkTemp) {
          temps := temps - {temp};
        }
        return;
      }
      r := Exists;
    }

    /** When nothing fails: a free name to publish an absent lock under, or an owner to
        displace and a free name for the second round. */
    predicate CanAcquire(process: nat, alive: nat -> bool, healthy: Descriptor -> bool)
      reads this
    {
      match lock
      case None => NameFree(temps, process, nonce + 1)
      case Some(owner) =>
        && Displaceable(owner, descriptor, alive, healthy)
        && NameFree(temps, process, AfterTries(temps, process, nonce + 1, PUBLISH_ATTEMPTS))
    }

    /** Acquisition in at most two rounds.  A live or healthy owner is never displaced;
        when no operation fails the lock is acquired exactly if it is absent or can be
        displaced and a temporary name is free; and the exit that reports a changed lock
        is never taken by the one caller that holds the guard. */
    method AcquireLock(process: nat, pid: nat, alive: nat -> bool, healthy: Descriptor -> bool, fails: Faults)
      returns (r: Acquire)
      modifies this
      ensures r.Acquired? ==> r.record == Record(pid, old(nonce)) && lock == Some(r.record) && descriptor.None?
      ensures !r.Acquired? ==> lock.None? || lock == old(lock)
      ensures !r.Acquired? && lock == old(lock) == None ==> descriptor == old(descriptor)
      ensures nonce > old(nonce) && old(temps) <= temps && (NoFault(fails) ==> temps == old(temps))
      ensures !r.LockChanged?
      ensures old(lock).Some? && !Displaceable(old(lock).value, old(descriptor), alive, healthy) ==>
                !r.Acquired? && lock == old(lock) && descriptor == old(descriptor)
      ensures NoFault(fails) ==> (r.Acquired? <==> old(CanAcquire(process, alive, healthy)))
      ensures r.AlreadyOwned? ==> old(lock).Some? && r.pid == old(lock).value.pid
      ensures NoFault(fails) ==>
                (r.AlreadyOwned? <==>
                   old(lock).Some? && !Displaceable(old(lock).value, old(descriptor), alive, healthy))
    {
      hide AfterTries; hide NameFree;
      var record := Record(pid, nonce);
      nonce := nonce + 1;
      var round := 0;
      while round < 2
        invariant 0 <= round <= 2
        invariant round == 0 ==> lock == old(lock) && descriptor == old(descriptor)
        invariant round > 0 ==>
                    lock.None? && old(lock).Some? && Displaceable(old(lock).value, old(descriptor), alive, healthy)
        invariant round < 2
        invariant nonce > old(nonce) && old(temps) <= temps && (NoFault(fails) ==> temps == old(temps))
        invariant nonce == old(nonce) + 1 || round > 0
        invariant round > 0 && NoFault(fails) ==>
                    nonce == AfterTries(old(temps), process, old(nonce) + 1, PUBLISH_ATTEMPTS)
        decreases 2 - round
      {
        var published := PublishLock(process, record, round, fails);
        if published.Published? {
          if fails(round, RemoveDescriptor) {
            lock := None;
            return AcquireError;
          }
          descriptor := None;
          return Acquired(record);
        }
        if published.PublishError? {
          return AcquireError;
        }
        if lock.None? || fails(round, ReadLock) {
          return AcquireError;
        }
        var stale := lock.value;
        if alive(stale.pid) {
          return AlreadyOwned(stale.pid);
        }
        if descriptor.Some? && healthy(descriptor.value) {
          return AlreadyOwned(stale.pid);
        }
        if fails(round, ReadLock) || lock.None? {
          return AcquireError;
        }
        if lock.value != stale {
          round := round + 1;
          continue;
        }
        if fails(round, RemoveDescriptor) {
          return AcquireError;
        }
        descriptor := None;
        if fails(round, UnlinkLock) {
          return AcquireError;
        }
        lock := None;
        round := round + 1;
      }
      r := LockChanged;
    }

    /** Releasing removes the lock only while it still holds this owner's record. */
    method Release(record: Record, fails: Faults)
      modifies this`lock
      ensures old(lock) != Some(record) ==> lock == old(lock)
      ensures old(lock) == Some(record) ==> lock == (if fails(0, ReadLock) || fails(0, UnlinkLock) then old(lock) else None)
    {
      if fails(0, ReadLock) || lock != Some(record) {
        return;
      }
      if !fails(0, UnlinkLock) {
        lock := None;
      }
    }
  }
}
