// Connection recovery: the retry loop with bounded backoff, and the manager that
// lets one caller at a time replace the installed connection.  Times are in
// microseconds; a connection's identity stands for its shared pointer.
module Recovery {
  import opened Prelude

  const ATTEMPT_TIMEOUT: nat := 10_000_000
  const MAX_JITTER: nat := 25
  const MAX_ATTEMPTS: nat := 14

  datatype Error =
    | BrokerUnavailable | DescriptorInvalid | GenerationIncompatible | ProofInvalid
    | RegistrationRejected | DeadlineExpired | ShutDown

  datatype Result<+T> = Ok(value: T) | Err(error: Error)

  datatype Descriptor = Descriptor(session: string, workspace: string, executable: string, instance: string)

  datatype Registered = Registered(descriptor: Descriptor, agentName: string)

  datatype Identity = Identity(session: string, workspace: string, executable: string, agentName: Option<string>)

  // ----- One attempt --------------------------------------------------------

  /** What the outside world answers during one attempt: the launcher, the descriptor
      read, the authorization of another executable, the proof and registration, and
      whether the deadline or a shutdown cut the attempt short. */
  datatype Answers = Answers(
    launch: Option<Error>, read: Result<Descriptor>, generation: Option<Error>,
    register: Result<Registered>, cut: Option<Error>)

  function ValidateDescriptor(id: Identity, d: Descriptor, generation: Option<Error>): Option<Error> {
    if d.session != id.session || d.workspace != id.workspace then Some(DescriptorInvalid)
    else if d.executable != id.executable then generation
    else None
  }

  /** The attempt's own outcome, before the timeout is considered. */
  function Try(id: Identity, observed: Option<string>, initial: Option<Descriptor>, a: Answers): Result<Registered> {
    var found := if initial.Some? then Ok(initial.value)
                 else if a.launch.Some? then Err(a.launch.value)
                 else a.read;
    match found
    case Err(e) => Err(e)
    case Ok(d) =>
      var refused := ValidateDescriptor(id, d, a.generation);
      if refused.Some? then Err(refused.value)
      else if observed == Some(d.instance) then Err(BrokerUnavailable)
      else
        match a.register
        case Err(e) => Err(e)
        case Ok(c) =>
          if c.descriptor != d then Err(ProofInvalid)
          else if id.agentName.Some? && id.agentName.value != c.agentName then Err(RegistrationRejected)
          else Ok(c)
  }

  function Attempt(id: Identity, observed: Option<string>, initial: Option<Descriptor>, a: Answers): Result<Registered> {
    if a.cut.Some? then Err(a.cut.value) else Try(id, observed, initial, a)
  }

  /** A connection that may be installed: the session, workspace and name are the
      original ones and the broker is not the rejected one. */
  predicate Admissible(id: Identity, observed: Option<string>, c: Registered) {
    && c.descriptor.session == id.session
    && c.descriptor.workspace == id.workspace
    && observed != Some(c.descriptor.instance)
    && (id.agentName.Some? ==> c.agentName == id.agentName.value)
  }

  lemma AttemptIsAdmissible(id: Identity, observed: Option<string>, initial: Option<Descriptor>, a: Answers)
    ensures Attempt(id, observed, initial, a).Ok? ==> Admissible(id, observed, Attempt(id, observed, initial, a).value)
  {
  }

  /** What the launcher and the descriptor read come to. */
  function Found(initial: Option<Descriptor>, a: Answers): Result<Descriptor> {
    match initial
    case Some(d) => Ok(d)
    case None => (match a.launch case Some(e) => Err(e) case None => a.read)
  }

  /** The descriptor is for this session and workspace, by this executable or one it may hand
      over to. */
  predicate Acceptable(id: Identity, d: Descriptor, a: Answers) {
    d.session == id.session && d.workspace == id.workspace && (d.executable == id.executable || a.generation.None?)
  }

  /** An attempt succeeds exactly with what registering at an acceptable broker other than
      the observed one answers, if it is that broker's own descriptor and the known name. */
  lemma AttemptSucceedsIff(id: Identity, observed: Option<string>, initial: Option<Descriptor>, a: Answers, c: Registered)
    ensures Attempt(id, observed, initial, a) == Ok(c) <==>
            && a.cut.None? && Found(initial, a) == Ok(c.descriptor) && Acceptable(id, c.descriptor, a)
            && observed != Some(c.descriptor.instance) && a.register == Ok(c)
            && (id.agentName.None? || id.agentName == Some(c.agentName))
  {
  }

  /** It is worth another try exactly when something on the way was merely unavailable, or the
      descriptor still names the observed broker. */
  lemma AttemptRetriesIff(id: Identity, observed: Option<string>, initial: Option<Descriptor>, a: Answers)
    ensures Attempt(id, observed, initial, a) == Err(BrokerUnavailable) <==>
            || a.cut == Some(BrokerUnavailable)
            || (a.cut.None? && match Found(initial, a)
                               case Err(e) => e == BrokerUnavailable
                               case Ok(d) =>
                                 if Acceptable(id, d, a) then observed == Some(d.instance) || a.register == Err(BrokerUnavailable)
                                 else d.session == id.session && d.workspace == id.workspace &&
                                      a.generation == Some(BrokerUnavailable))
  {
  }

  // ----- Backoff ------------------------------------------------------------

  /** 50, 100, 200, 400, 800, then 1000 milliseconds. */
  function Base(index: nat): nat {
    if index == 0 then 50_000
    else if index == 1 then 100_000
    else if index == 2 then 200_000
    else if index == 3 then 400_000
    else if index == 4 then 800_000
    else 1_000_000
  }

  function Min(a: int, b: int): int { if a <= b then a else b }

  function Delay(index: nat, jitter: nat): nat { Base(index) + Base(index) * Min(jitter, MAX_JITTER) / 100 }

  /** `recovery_attempt_deadline`. */
  function AttemptDeadline(now: nat, operation: Option<nat>): nat {
    if operation.Some? then Min(operation.value, now + ATTEMPT_TIMEOUT) else now + ATTEMPT_TIMEOUT
  }

  function Planned(index: nat, jitter: nat, end: nat, deadline: nat): int { Min(Delay(index, jitter), deadline - end) }

  /** The least time `n` complete waits take. */
  function Waited(n: nat): nat { if n == 0 then 0 else Waited(n - 1) + Base(n - 1) }

  /** Waits start at 50 milliseconds and double up to a second; jitter adds at most a quarter. */
  lemma DelaysDouble(index: nat, jitter: nat)
    ensures Base(0) == 50_000 && Base(index + 1) == Min(2 * Base(index), 1_000_000)
    ensures 4 * Base(index) <= 4 * Delay(index, jitter) <= 5 * Base(index)
    ensures jitter <= 25 ==> Delay(index, jitter) == Base(index) * (100 + jitter) / 100
  {
    var b := Base(index);
    assert b % 100 == 0 && b == 100 * (b / 100);
    var j := Min(jitter, MAX_JITTER);
    assert b * j == 100 * (b / 100 * j);
    assert b * j / 100 == b / 100 * j;
    assert b * (100 + j) == 100 * (b / 100 * (100 + j));
    assert b / 100 * j <= b / 100 * 25;
  }

  lemma WaitedFourteen()
    ensures Waited(13) < ATTEMPT_TIMEOUT <= Waited(14)
  {
    assert Waited(5) == 1_550_000;
    assert Waited(9) == 5_550_000;
    assert Waited(13) == 9_550_000;
  }

  // ----- The retry loop -----------------------------------------------------

  /** One turn of the loop as it happened: the clock at its head, the answers, the
      clock when the attempt ended, the jitter drawn, how the sleep ended and when. */
  datatype Turn = Turn(cancelled: bool, start: nat, answers: Answers, end: nat, jitter: nat, slept: Option<Error>, wake: nat)

  /** Time does not run backwards and a completed sleep lasts at least its length. */
  ghost predicate Honest(turns: nat -> Turn, deadline: nat) {
    forall k: nat ::
      && turns(k).start <= turns(k).end
      && (turns(k).slept.None? && turns(k).end < deadline ==>
            turns(k).end + Planned(k, turns(k).jitter, turns(k).end, deadline) <= turns(k).wake)
      && turns(k).wake <= turns(k + 1).start
  }

  ghost predicate OnSchedule(turns: nat -> Turn, deadline: nat, k: nat) {
    turns(k).start >= turns(0).start + Waited(k) || turns(k).start >= deadline
  }

  lemma DelayAtLeastBase(index: nat, jitter: nat)
    ensures Delay(index, jitter) >= Base(index)
  {
  }

  lemma ScheduleAdvances(turns: nat -> Turn, deadline: nat, k: nat)
    requires Honest(turns, deadline) && OnSchedule(turns, deadline, k)
    requires turns(k).start < deadline && turns(k).end < deadline && turns(k).slept.None?
    ensures OnSchedule(turns, deadline, k + 1)
  {
    DelayAtLeastBase(k, turns(k).jitter);
    hide Base; hide Delay;
    assert Waited(k + 1) == Waited(k) + Base(k);
  }

  lemma ScheduleStarts(turns: nat -> Turn, deadline: nat)
    ensures OnSchedule(turns, deadline, 0)
  {
  }

  /** The fourteenth complete wait ends past any deadline ten seconds away. */
  lemma ScheduleEnds(turns: nat -> Turn, deadline: nat, k: nat)
    requires OnSchedule(turns, deadline, k) && deadline <= turns(0).start + ATTEMPT_TIMEOUT && k == MAX_ATTEMPTS
    ensures turns(k).start >= deadline
  {
    WaitedFourteen();
  }

  function Tried(id: Identity, observed: Option<string>, initial: Option<Descriptor>, turns: nat -> Turn, k: nat): Result<Registered> {
    Attempt(id, observed, if k == 0 then initial else None, turns(k).answers)
  }

  /** Turn `k` leads to another: its attempt was unavailable, and there was time to sleep. */
  predicate GoesOn(id: Identity, observed: Option<string>, deadline: nat, initial: Option<Descriptor>, turns: nat -> Turn, k: nat) {
    && !turns(k).cancelled && turns(k).start < deadline
    && Tried(id, observed, initial, turns, k) == Err(BrokerUnavailable)
    && turns(k).end < deadline && turns(k).slept.None?
  }

  /** Turn `k` ends the loop, and how: shutdown, deadline, the attempt's own answer, or the
      sleep's. */
  predicate EndsWith(id: Identity, observed: Option<string>, deadline: nat, initial: Option<Descriptor>, turns: nat -> Turn,
                     k: nat, r: Result<Registered>, attempts: nat) {
    var turn, tried := turns(k), Tried(id, observed, initial, turns, k);
    if turn.cancelled then r == Err(ShutDown) && attempts == k
    else if turn.start >= deadline then r == Err(DeadlineExpired) && attempts == k
    else
      && attempts == k + 1
      && if tried != Err(BrokerUnavailable) then r == tried
         else if turn.end >= deadline then r == Err(DeadlineExpired)
         else turn.slept.Some? && r == Err(turn.slept.value)
  }

  ghost predicate StopsAt(id: Identity, observed: Option<string>, deadline: nat, initial: Option<Descriptor>, turns: nat -> Turn,
                          n: nat, r: Result<Registered>, attempts: nat) {
    && (forall k: nat :: k < n ==> GoesOn(id, observed, deadline, initial, turns, k))
    && EndsWith(id, observed, deadline, initial, turns, n, r, attempts)
  }

  /** Retries until success, a final error, shutdown or the deadline, and answers with what
      the first turn that does not go on ends with.  A success is the
      first attempt that was not merely unavailable; no sleep is planned past the
      deadline; and a recovery epoch makes at most fourteen attempts whatever the
      jitter and durations. */
  method Establish(id: Identity, observed: Option<string>, deadline: nat, initial: Option<Descriptor>, turns: nat -> Turn)
    returns (r: Result<Registered>, attempts: nat, latest: nat)
    requires Honest(turns, deadline)
    requires deadline <= turns(0).start + ATTEMPT_TIMEOUT
    ensures attempts <= MAX_ATTEMPTS && latest <= deadline
    ensures forall k: nat :: k < attempts - 1 ==> Tried(id, observed, initial, turns, k) == Err(BrokerUnavailable)
    ensures r.Ok? ==> attempts > 0 && r == Tried(id, observed, initial, turns, attempts - 1)
    ensures r.Ok? ==> Admissible(id, observed, r.value)
    ensures r == Err(BrokerUnavailable) ==> attempts > 0 && turns(attempts - 1).slept == Some(BrokerUnavailable)
    ensures exists n: nat :: StopsAt(id, observed, deadline, initial, turns, n, r, attempts)
  {
    hide Attempt; hide OnSchedule; hide Admissible; hide Honest;
    attempts, latest := 0, 0;
    var first := initial;
    ScheduleStarts(turns, deadline);
    while true
      invariant attempts <= MAX_ATTEMPTS && latest <= deadline
      invariant first == if attempts == 0 then initial else None
      invariant forall k: nat :: k < attempts ==> Tried(id, observed, initial, turns, k) == Err(BrokerUnavailable)
      invariant OnSchedule(turns, deadline, attempts)
      invariant forall k: nat :: k < attempts ==> GoesOn(id, observed, deadline, initial, turns, k)
      decreases MAX_ATTEMPTS - attempts
    {
      var turn := turns(attempts);
      if turn.cancelled {
        assert StopsAt(id, observed, deadline, initial, turns, attempts, Err(ShutDown), attempts);
        return Err(ShutDown), attempts, latest;
      }
      if turn.start >= deadline {
        assert StopsAt(id, observed, deadline, initial, turns, attempts, Err(DeadlineExpired), attempts);
        return Err(DeadlineExpired), attempts, latest;
      }
      if attempts == MAX_ATTEMPTS {
        ScheduleEnds(turns, deadline, attempts);
      }
      var descriptor := first;
      first := None;
      AttemptIsAdmissible(id, observed, descriptor, turn.answers);
      r := Attempt(id, observed, descriptor, turn.answers);
      var index := attempts;
      attempts := attempts + 1;
      if r != Err(BrokerUnavailable) {
        assert StopsAt(id, observed, deadline, initial, turns, index, r, attempts);
        return;
      }
      if turn.end >= deadline {
        assert StopsAt(id, observed, deadline, initial, turns, index, Err(DeadlineExpired), attempts);
        return Err(DeadlineExpired), attempts, latest;
      }
      latest := turn.end + Planned(index, turn.jitter, turn.end, deadline);
      if turn.slept.Some? {
        assert StopsAt(id, observed, deadline, initial, turns, index, Err(turn.slept.value), attempts);
        return Err(turn.slept.value), attempts, latest;
      }
      ScheduleAdvances(turns, deadline, index);
    }
  }

  // ----- The manager --------------------------------------------------------

  datatype Mode = BrokerReplacement | RegistrationRefresh

  datatype Connection = Connection(id: nat, registered: Registered)

  function InstanceOf(c: Connection): string { c.registered.descriptor.instance }

  /** The manager under its recovery gate.  `next` numbers the connections made. */
  datatype Manager = Manager(identity: Identity, current: Connection, next: nat)

  predicate Valid(m: Manager) {
    && m.current.id < m.next
    && m.identity.agentName == Some(m.current.registered.agentName)
    && m.current.registered.descriptor.session == m.identity.session
    && m.current.registered.descriptor.workspace == m.identity.workspace
  }

  /** A call made with the connection it found broken and what the retry loop would
      answer it. */
  datatype Call = Call(observed: Connection, mode: Mode, answer: Result<Registered>)

  function Rejected(c: Call): Option<string> {
    if c.mode.BrokerReplacement? then Some(InstanceOf(c.observed)) else None
  }

  predicate Possible(m: Manager, c: Call) {
    c.observed.id < m.next && (c.answer.Ok? ==> Admissible(m.identity, Rejected(c), c.answer.value))
  }

  /** Someone already recovered from what the caller observed. */
  predicate AlreadyRecovered(m: Manager, c: Call) {
    m.current.id != c.observed.id && (c.mode.RegistrationRefresh? || InstanceOf(m.current) != InstanceOf(c.observed))
  }

  predicate Installs(m: Manager, c: Call) { !AlreadyRecovered(m, c) && c.answer.Ok? }

  function Recover(m: Manager, c: Call): (Manager, Result<Connection>) {
    if AlreadyRecovered(m, c) then (m, Ok(m.current))
    else
      match c.answer
      case Err(e) => (m, Err(e))
      case Ok(registered) =>
        var connection := Connection(m.next, registered);
        (m.(current := connection, next := m.next + 1), Ok(connection))
  }

  /** A replacement never returns the observed broker, a refresh never the observed
      connection, and what is installed keeps session, workspace and name. */
  lemma RecoverKeeps(m: Manager, c: Call)
    requires Valid(m) && Possible(m, c)
    ensures var (after, r) := Recover(m, c);
            && Valid(after) && after.identity == m.identity && after.next >= m.next
            && (r.Ok? ==> after.current == r.value)
            && (r.Ok? && c.mode.BrokerReplacement? ==> InstanceOf(r.value) != InstanceOf(c.observed))
            && (r.Ok? && c.mode.RegistrationRefresh? ==> r.value.id != c.observed.id)
            && (r.Err? ==> after == m)
  {
  }

  function RunCalls(m: Manager, calls: seq<Call>): Manager {
    if calls == [] then m else Recover(RunCalls(m, calls[..|calls| - 1]), calls[|calls| - 1]).0
  }

  ghost predicate PossibleRun(m: Manager, calls: seq<Call>) {
    forall i :: 0 <= i < |calls| ==> Possible(RunCalls(m, calls[..i]), calls[i])
  }

  lemma {:induction false} RunKeeps(m: Manager, calls: seq<Call>)
    requires Valid(m) && PossibleRun(m, calls)
    ensures Valid(RunCalls(m, calls)) && RunCalls(m, calls).identity == m.identity
  {
    hide Valid; hide Recover; hide Possible;
    if calls != [] {
      var init := calls[..|calls| - 1];
      assert PossibleRun(m, init) by { assert forall i :: 0 <= i < |init| ==> init[..i] == calls[..i]; }
      RunKeeps(m, init);
      RecoverKeeps(RunCalls(m, init), calls[|calls| - 1]);
    }
  }

  /** Once a connection newer than the observed one is installed it stays so. */
  lemma {:induction false} NewerStays(m: Manager, calls: seq<Call>, i: nat, observedId: nat)
    requires Valid(m) && PossibleRun(m, calls) && i <= |calls| && RunCalls(m, calls[..i]).current.id > observedId
    ensures RunCalls(m, calls).current.id > observedId
    decreases |calls|
  {
    hide Possible;
    if i < |calls| {
      var init := calls[..|calls| - 1];
      assert PossibleRun(m, init) by { assert forall k :: 0 <= k < |init| ==> init[..k] == calls[..k]; }
      assert init[..i] == calls[..i];
      NewerStays(m, init, i, observedId);
      RunKeeps(m, init);
    } else {
      assert calls[..i] == calls;
    }
  }

  /** Once a call has installed a connection, no later call finds its own observed one. */
  lemma NewerAfterInstall(m: Manager, calls: seq<Call>, i: nat, j: nat)
    requires Valid(m) && PossibleRun(m, calls) && i < j < |calls|
    requires Installs(RunCalls(m, calls[..i]), calls[i])
    ensures RunCalls(m, calls[..j]).current.id > calls[i].observed.id
  {
    var before := RunCalls(m, calls[..i]);
    assert Possible(before, calls[i]);
    assert calls[..i + 1][..i] == calls[..i];
    assert RunCalls(m, calls[..i + 1]).current.id == before.next > calls[i].observed.id;
    var prefix := calls[..j];
    assert PossibleRun(m, prefix) by { assert forall k :: 0 <= k < |prefix| ==> prefix[..k] == calls[..k]; }
    assert prefix[..i + 1] == calls[..i + 1];
    NewerStays(m, prefix, i + 1, calls[i].observed.id);
  }

  /** However other calls interleave, one observed connection is refreshed by at most
      one registration: after an installation every later refresh of it is answered
      with the installed connection. */
  lemma RefreshedOnce(m: Manager, calls: seq<Call>, i: nat, j: nat)
    requires Valid(m) && PossibleRun(m, calls) && i < j < |calls|
    requires calls[i].mode.RegistrationRefresh? && calls[j].mode.RegistrationRefresh?
    requires calls[i].observed.id == calls[j].observed.id
    requires Installs(RunCalls(m, calls[..i]), calls[i])
    ensures !Installs(RunCalls(m, calls[..j]), calls[j])
  {
    NewerAfterInstall(m, calls, i, j);
  }

  /** A replacement of the same connection registers again if and only if the broker it
      observed is the installed one again, which takes an installation in between that
      re-adopted that broker. */
  lemma ReplacementRepeatsIff(m: Manager, calls: seq<Call>, i: nat, j: nat)
    requires Valid(m) && PossibleRun(m, calls) && i < j < |calls|
    requires calls[i].mode.BrokerReplacement? && calls[j].mode.BrokerReplacement?
    requires calls[i].observed == calls[j].observed && calls[j].answer.Ok?
    requires Installs(RunCalls(m, calls[..i]), calls[i])
    ensures Installs(RunCalls(m, calls[..j]), calls[j]) <==>
            InstanceOf(RunCalls(m, calls[..j]).current) == InstanceOf(calls[i].observed)
    ensures Installs(RunCalls(m, calls[..j]), calls[j]) ==>
              exists k :: i < k < j && Installs(RunCalls(m, calls[..k]), calls[k]) &&
                          calls[k].answer.value.descriptor.instance == InstanceOf(calls[i].observed)
  {
    NewerAfterInstall(m, calls, i, j);
    if Installs(RunCalls(m, calls[..j]), calls[j]) {
      var before := RunCalls(m, calls[..i]);
      assert Possible(before, calls[i]);
      assert calls[..i + 1][..i] == calls[..i];
      var k := Readopts(m, calls, i + 1, j, InstanceOf(calls[i].observed));
    }
  }

  /** An instance that was not installed and then is was installed by some call. */
  lemma {:induction false} Readopts(m: Manager, calls: seq<Call>, lo: nat, hi: nat, instance: string) returns (k: nat)
    requires lo <= hi <= |calls| && InstanceOf(RunCalls(m, calls[..lo]).current) != instance
    requires InstanceOf(RunCalls(m, calls[..hi]).current) == instance
    ensures lo <= k < hi && Installs(RunCalls(m, calls[..k]), calls[k])
    ensures calls[k].answer.value.descriptor.instance == instance
    decreases hi
  {
    assert calls[..hi][..hi - 1] == calls[..hi - 1];
    if InstanceOf(RunCalls(m, calls[..hi - 1]).current) == instance {
      k := Readopts(m, calls, lo, hi - 1, instance);
    } else {
      k := hi - 1;
    }
  }

  predicate SameCallers(calls: seq<Call>, observed: Connection, mode: Mode) {
    forall i :: 0 <= i < |calls| ==> calls[i].observed == observed && calls[i].mode == mode
  }

  /** What every caller of one (observed, mode) finds once one of them has registered. */
  predicate Recovered(m: Manager, observed: Connection, mode: Mode) {
    m.current.id > observed.id && (mode.BrokerReplacement? ==> InstanceOf(m.current) != InstanceOf(observed))
  }

  lemma {:induction false} RecoveredStays(m: Manager, calls: seq<Call>, observed: Connection, mode: Mode, i: nat)
    requires SameCallers(calls, observed, mode) && i <= |calls| && Recovered(RunCalls(m, calls[..i]), observed, mode)
    ensures Recovered(RunCalls(m, calls), observed, mode)
    ensures RunCalls(m, calls) == RunCalls(m, calls[..i])
    decreases |calls|
  {
    if i < |calls| {
      var init := calls[..|calls| - 1];
      assert init[..i] == calls[..i];
      RecoveredStays(m, init, observed, mode, i);
    } else {
      assert calls[..i] == calls;
    }
  }

  /** Concurrent callers with the same observed connection and mode cause at most one
      registration; all later ones share the connection it installed. */
  lemma SingleFlight(m: Manager, calls: seq<Call>, observed: Connection, mode: Mode, i: nat, j: nat)
    requires Valid(m) && PossibleRun(m, calls) && SameCallers(calls, observed, mode) && i < j < |calls|
    requires Installs(RunCalls(m, calls[..i]), calls[i])
    ensures !Installs(RunCalls(m, calls[..j]), calls[j])
    ensures Recover(RunCalls(m, calls[..j]), calls[j]).1 == Ok(RunCalls(m, calls[..i + 1]).current)
  {
    var before := RunCalls(m, calls[..i]);
    assert Possible(before, calls[i]);
    assert calls[..i + 1][..i] == calls[..i];
    assert Recovered(RunCalls(m, calls[..i + 1]), observed, mode);
    assert calls[..j][..i + 1] == calls[..i + 1];
    RecoveredStays(m, calls[..j], observed, mode, i + 1);
  }

  /** With other callers in between, a replacement can be repeated: if a refresh
      re-adopts the instance first observed, the same replacement registers again. */
  lemma ReplacementCanRepeat()
    returns (m: Manager, calls: seq<Call>)
    ensures Valid(m) && PossibleRun(m, calls) && |calls| == 3
    ensures calls[0].observed == calls[2].observed && calls[0].mode.BrokerReplacement? && calls[2].mode.BrokerReplacement?
    ensures Installs(RunCalls(m, calls[..0]), calls[0]) && Installs(RunCalls(m, calls[..2]), calls[2])
  {
    var a := Registered(Descriptor("s", "w", "e", "one"), "n");
    var b := Registered(Descriptor("s", "w", "e", "two"), "n");
    m := Manager(Identity("s", "w", "e", Some("n")), Connection(0, a), 1);
    var c0 := Call(Connection(0, a), BrokerReplacement, Ok(b));
    var c1 := Call(Connection(1, b), RegistrationRefresh, Ok(a));
    calls := [c0, c1, c0];
    assert calls[..0] == [] && calls[..1] == [c0] && calls[..2] == [c0, c1];
    assert RunCalls(m, []) == m;
    assert [c0][..0] == [];
    assert RunCalls(m, [c0]) == Recover(m, c0).0;
    assert [c0, c1][..1] == [c0];
    assert RunCalls(m, [c0, c1]) == Recover(Recover(m, c0).0, c1).0;
    forall i | 0 <= i < 3 ensures Possible(RunCalls(m, calls[..i]), calls[i]) {
      assert i == 0 || i == 1 || i == 2;
    }
  }

  // ----- Probing for a replacement ------------------------------------------

  /** `recover_if_replaced`: `found` is what the launcher and descriptor read answer,
      `refused` the validation of what was found. */
  function RecoverIfReplaced(m: Manager, observed: string, found: Result<Descriptor>, refused: Option<Error>,
                             answer: Result<Registered>): (Manager, Result<Option<Connection>>) {
    if InstanceOf(m.current) != observed then (m, Ok(Some(m.current)))
    else
      match found
      case Err(BrokerUnavailable) => (m, Ok(None))
      case Err(e) => (m, Err(e))
      case Ok(d) =>
        if refused.Some? then (m, Err(refused.value))
        else if d.instance == observed then (m, Ok(None))
        else
          match Recover(m, Call(m.current, BrokerReplacement, answer))
          case (after, Ok(c)) => (after, Ok(Some(c)))
          case (after, Err(e)) => (after, Err(e))
  }

  /** It answers only with a connection to another broker instance. */
  lemma ReplacedMeansAnother(m: Manager, observed: string, found: Result<Descriptor>, refused: Option<Error>,
                             answer: Result<Registered>)
    requires Valid(m) && (answer.Ok? ==> Admissible(m.identity, Some(InstanceOf(m.current)), answer.value))
    ensures var (after, r) := RecoverIfReplaced(m, observed, found, refused, answer);
            && Valid(after) && after.identity == m.identity
            && (r.Ok? && r.value.Some? ==> InstanceOf(r.value.value) != observed && after.current == r.value.value)
            && (r.Err? || r.value.None? ==> after == m)
  {
    RecoverKeeps(m, Call(m.current, BrokerReplacement, answer));
  }

  // ----- The manager in memory ----------------------------------------------

  /** A probe answers with the installed connection exactly if its broker is already another
      one; otherwise it replaces it exactly if a valid descriptor names another broker and
      registering there succeeds, answers nothing if the broker is unavailable or still the
      observed one, and else passes the error on. */
  lemma ReplacedIff(m: Manager, observed: string, found: Result<Descriptor>, refused: Option<Error>, answer: Result<Registered>)
    ensures var (after, r) := RecoverIfReplaced(m, observed, found, refused, answer);
            if InstanceOf(m.current) != observed then after == m && r == Ok(Some(m.current))
            else if found == Err(BrokerUnavailable) then after == m && r == Ok(None)
            else if found.Err? then after == m && r == Err(found.error)
            else if refused.Some? then after == m && r == Err(refused.value)
            else if found.value.instance == observed then after == m && r == Ok(None)
            else if answer.Ok? then
              r == Ok(Some(after.current)) && after.current == Connection(m.next, answer.value) && after.next == m.next + 1
            else after == m && r == Err(answer.error)
  {
  }

  class ConnectionManager {
    const identity: Identity
    var current: Connection
    var next: nat

    ghost function Model(): Manager
      reads this
    {
      Manager(identity, current, next)
    }

    /** `connect`: the name verified first is the name ever after. */
    constructor (session: string, workspace: string, executable: string, registered: Registered)
      requires registered.descriptor.session == session && registered.descriptor.workspace == workspace
      ensures Valid(Model()) && current == Connection(0, registered) && next == 1
      ensures identity == Identity(session, workspace, executable, Some(registered.agentName))
    {
      identity := Identity(session, workspace, executable, Some(registered.agentName));
      current := Connection(0, registered);
      next := 1;
    }

    /** One `recover` call: wait for the gate, look again, and only then register. */
    method RecoverConnection(observed: Connection, mode: Mode, now: nat, operation: Option<nat>,
                             gate: Option<Error>, turns: nat -> Turn)
      returns (r: Result<Connection>, attempts: nat, ghost answer: Result<Registered>)
      requires Valid(Model()) && observed.id < next
      requires now <= turns(0).start && Honest(turns, AttemptDeadline(now, operation))
      modifies this`current, this`next
      ensures Valid(Model()) && attempts <= MAX_ATTEMPTS
      ensures gate.Some? ==> r == Err(gate.value) && Model() == old(Model()) && attempts == 0
      ensures gate.None? ==>
                && Possible(old(Model()), Call(observed, mode, answer))
                && (Model(), r) == Recover(old(Model()), Call(observed, mode, answer))
                && (AlreadyRecovered(old(Model()), Call(observed, mode, answer)) ==> attempts == 0)
      ensures gate.None? && !AlreadyRecovered(old(Model()), Call(observed, mode, answer)) ==>
                var limit := now + 10 * 1000 * 1000;
                var deadline := if operation.Some? && operation.value < limit then operation.value else limit;
                var rejected := if mode.BrokerReplacement? then Some(InstanceOf(observed)) else None;
                exists n: nat :: StopsAt(identity, rejected, deadline, None, turns, n, answer, attempts)
    {
      answer := Err(BrokerUnavailable);
      if gate.Some? {
        return Err(gate.value), 0, answer;
      }
      var installed := current;
      if installed.id != observed.id && (mode.RegistrationRefresh? || InstanceOf(installed) != InstanceOf(observed)) {
        return Ok(installed), 0, answer;
      }
      var rejected := if mode.BrokerReplacement? then Some(InstanceOf(observed)) else None;
      var deadline := AttemptDeadline(now, operation);
      var established, tries, latest := Establish(identity, rejected, deadline, None, turns);
      attempts := tries;
      answer := established;
      RecoverKeeps(Model(), Call(observed, mode, answer));
      if established.Err? {
        return Err(established.error), attempts, answer;
      }
      current := Connection(next, established.value);
      next := next + 1;
      r := Ok(current);
    }
  }
}
