// The per-task send gate: a map of weak references to mutexes, shared by concurrent
// send workflows.  Each step is atomic; the two that touch the map run under its lock.
module SendGate {
  import opened Prelude

  // What a workflow has in hand.  Every stage but the first and last holds a strong
  // reference to the gate.
  datatype Stage =
    | Arrived
    | Waiting(gate: nat)    // before `gate.lock()`
    | Inside(gate: nat)     // the guard is held
    | Leaving(gate: nat)    // the guard was dropped
    | Released(gate: nat)   // `release_send_gate` has run
    | Done

  datatype Workflow = Workflow(task: string, stage: Stage)

  datatype World = World(gates: map<string, nat>, flows: map<nat, Workflow>, next: nat)

  function GateOf(s: Stage): Option<nat> {
    match s
    case Waiting(g) => Some(g)
    case Inside(g) => Some(g)
    case Leaving(g) => Some(g)
    case Released(g) => Some(g)
    case _ => None
  }

  /** The strong references to a gate. */
  function Holders(w: World, g: nat): set<nat> {
    set x | x in w.flows && GateOf(w.flows[x].stage) == Some(g)
  }

  predicate Upgrades(w: World, task: string) { task in w.gates && Holders(w, w.gates[task]) != {} }

  function Move(w: World, x: nat, s: Stage): World
    requires x in w.flows
  {
    w.(flows := w.flows[x := w.flows[x].(stage := s)])
  }

  // ----- Steps --------------------------------------------------------------

  /** `send_gate`: upgrade the map's weak reference, or insert a new gate. */
  function TakeGate(w: World, x: nat): World
    requires x in w.flows
  {
    var task := w.flows[x].task;
    if Upgrades(w, task) then Move(w, x, Waiting(w.gates[task]))
    else Move(w.(gates := w.gates[task := w.next], next := w.next + 1), x, Waiting(w.next))
  }

  /** `release_send_gate`: forget the entry if it is this gate and nobody else holds it. */
  function ReleaseGate(w: World, x: nat): World
    requires x in w.flows && w.flows[x].stage.Leaving?
  {
    var task, g := w.flows[x].task, w.flows[x].stage.gate;
    var forget := Upgrades(w, task) && w.gates[task] == g && |Holders(w, g)| == 1;
    Move(if forget then w.(gates := w.gates - {task}) else w, x, Released(g))
  }

  ghost predicate Arrives(w: World, v: World, x: nat, task: string) {
    x !in w.flows && v == w.(flows := w.flows[x := Workflow(task, Arrived)])
  }

  ghost predicate Acts(w: World, v: World, x: nat) {
    && x in w.flows
    && match w.flows[x].stage
       case Arrived => v == TakeGate(w, x)
       case Waiting(g) =>
         // the mutex admits one at a time; a workflow may also be dropped while it waits
         || (v == Move(w, x, Inside(g)) && forall y :: y in w.flows ==> w.flows[y].stage != Inside(g))
         || v == Move(w, x, Done)
       case Inside(g) => v == Move(w, x, Leaving(g))
       case Leaving(g) => v == ReleaseGate(w, x) || v == Move(w, x, Done)   // or an early error return
       case Released(g) => v == Move(w, x, Done)
       case Done => false
  }

  ghost predicate Next(w: World, v: World) {
    (exists x, task :: Arrives(w, v, x, task)) || (exists x :: Acts(w, v, x))
  }

  // ----- The invariant ------------------------------------------------------

  predicate MayLock(s: Stage) { s.Waiting? || s.Inside? || s.Leaving? }

  /** Whoever may still lock a task's gate refers to the gate in the map. */
  ghost predicate Current(w: World) {
    forall x :: x in w.flows && MayLock(w.flows[x].stage) ==>
      w.flows[x].task in w.gates && w.gates[w.flows[x].task] == w.flows[x].stage.gate
  }

  ghost predicate Exclusive(w: World) {
    forall x, y ::
      x in w.flows && y in w.flows && w.flows[x].stage.Inside? && w.flows[x].stage == w.flows[y].stage ==>
        x == y
  }

  ghost predicate Allocated(w: World) {
    && (forall task :: task in w.gates ==> w.gates[task] < w.next)
    && (forall x :: x in w.flows && GateOf(w.flows[x].stage).Some? ==> GateOf(w.flows[x].stage).value < w.next)
  }

  ghost predicate Inv(w: World) { Current(w) && Exclusive(w) && Allocated(w) }

  lemma OnlyOne<T>(s: set<T>, a: T, b: T)
    requires |s| == 1 && a in s && b in s
    ensures a == b
  {
    assert s == {a} + (s - {a});
    assert |s - {a}| == 0;
  }

  lemma TakeKeeps(w: World, x: nat)
    requires Inv(w) && x in w.flows && w.flows[x].stage.Arrived?
    ensures Inv(TakeGate(w, x))
  {
    var task := w.flows[x].task;
    forall y | y in w.flows && MayLock(w.flows[y].stage) && w.flows[y].task == task ensures Upgrades(w, task) {
      assert y in Holders(w, w.gates[task]);
    }
  }

  lemma ReleaseKeeps(w: World, x: nat)
    requires Inv(w) && x in w.flows && w.flows[x].stage.Leaving?
    ensures Inv(ReleaseGate(w, x))
  {
    var task, g := w.flows[x].task, w.flows[x].stage.gate;
    if |Holders(w, g)| == 1 {
      forall y | y in w.flows && MayLock(w.flows[y].stage) && w.flows[y].task == task ensures y == x {
        OnlyOne(Holders(w, g), x, y);
      }
    }
  }

  lemma ActKeeps(w: World, v: World, x: nat)
    requires Inv(w) && Acts(w, v, x)
    ensures Inv(v)
  {
    match w.flows[x].stage
    case Arrived => TakeKeeps(w, x);
    case Leaving(g) => if v == ReleaseGate(w, x) { ReleaseKeeps(w, x); }
    case _ =>
  }

  lemma NextKeeps(w: World, v: World)
    requires Inv(w) && Next(w, v)
    ensures Inv(v)
  {
    if x :| Acts(w, v, x) {
      ActKeeps(w, v, x);
    }
  }

  ghost predicate Run(worlds: seq<World>) {
    && worlds != [] && worlds[0] == World(map[], map[], 0)
    && forall i :: 0 <= i < |worlds| - 1 ==> Next(worlds[i], worlds[i + 1])
  }

  lemma {:induction false} RunKeeps(worlds: seq<World>)
    requires Run(worlds)
    ensures Inv(worlds[|worlds| - 1])
  {
    hide Next;
    if |worlds| > 1 {
      RunKeeps(worlds[..|worlds| - 1]);
      NextKeeps(worlds[|worlds| - 2], worlds[|worlds| - 1]);
    }
  }

  /** In every interleaving, early error returns included, at most one workflow of a
      task is inside its gate. */
  lemma OneInsidePerTask(worlds: seq<World>, x: nat, y: nat)
    requires Run(worlds)
    requires var w := worlds[|worlds| - 1];
             x in w.flows && y in w.flows && w.flows[x].task == w.flows[y].task &&
             w.flows[x].stage.Inside? && w.flows[y].stage.Inside?
    ensures x == y
  {
    RunKeeps(worlds);
    hide Run;
  }

  /** An entry outlives its gate only as a dead reference, which the next arrival
      replaces: a workflow never waits on a gate nobody else of its task can see. */
  lemma ArrivalsMeet(worlds: seq<World>, x: nat, y: nat)
    requires Run(worlds)
    requires var w := worlds[|worlds| - 1];
             x in w.flows && y in w.flows && w.flows[x].task == w.flows[y].task &&
             w.flows[x].stage.Arrived? && MayLock(w.flows[y].stage)
    ensures var w := worlds[|worlds| - 1];
            TakeGate(w, x).flows[x].stage == Waiting(w.flows[y].stage.gate) && TakeGate(w, x).gates == w.gates
  {
    var w := worlds[|worlds| - 1];
    RunKeeps(worlds);
    assert y in Holders(w, w.gates[w.flows[y].task]);
    hide Run;
  }

  /** Every arrival is given a gate, the one the map then has for its task: the one there
      before if some workflow still refers to it, else one that no workflow has seen. */
  lemma ArrivalGetsGate(w: World, x: nat, task: string)
    requires Inv(w) && x in w.flows && w.flows[x].stage.Arrived?
    ensures var v := TakeGate(w, x);
            && v.flows[x].stage.Waiting? && v.flows[x].task == w.flows[x].task
            && var g := v.flows[x].stage.gate;
            && w.flows[x].task in v.gates && v.gates[w.flows[x].task] == g
            && (if exists y :: y in w.flows && w.flows[x].task in w.gates &&
                               GateOf(w.flows[y].stage) == Some(w.gates[w.flows[x].task])
                then g == w.gates[w.flows[x].task]
                else (forall y :: y in w.flows ==> GateOf(w.flows[y].stage) != Some(g)) && g !in w.gates.Values)
            && (task != w.flows[x].task ==>
                  (task in v.gates <==> task in w.gates) && (task in w.gates ==> v.gates[task] == w.gates[task]))
  {
    if y :| y in w.flows && w.flows[x].task in w.gates && GateOf(w.flows[y].stage) == Some(w.gates[w.flows[x].task]) {
      assert y in Holders(w, w.gates[w.flows[x].task]);
    }
  }

  // ----- The map in memory --------------------------------------------------

  /** The last workflow of a task to release its gate takes the entry out of the map, and no
      other release does. */
  lemma ForgetsIff(w: World, x: nat)
    requires Inv(w) && x in w.flows && w.flows[x].stage.Leaving?
    ensures var task, g := w.flows[x].task, w.flows[x].stage.gate;
            task !in ReleaseGate(w, x).gates <==>
            forall y :: y in w.flows && GateOf(w.flows[y].stage) == Some(g) ==> y == x
    ensures forall task :: task != w.flows[x].task ==>
              (task in ReleaseGate(w, x).gates <==> task in w.gates) &&
              (task in w.gates ==> ReleaseGate(w, x).gates[task] == w.gates[task])
  {
    var g := w.flows[x].stage.gate;
    assert x in Holders(w, g);
    if forall y :: y in w.flows && GateOf(w.flows[y].stage) == Some(g) ==> y == x {
      assert Holders(w, g) == {x};
    } else {
      var y :| y in w.flows && GateOf(w.flows[y].stage) == Some(g) && y != x;
      assert y in Holders(w, g);
      if |Holders(w, g)| == 1 { OnlyOne(Holders(w, g), x, y); }
    }
  }

  /** The handler's gate map with the reference counts behind it.  `world` is what the
      protocol above sees. */
  class GateMap {
    var gates: map<string, nat>
    var strong: map<nat, nat>
    var next: nat
    ghost var world: World

    ghost predicate Valid()
      reads this
    {
      && gates == world.gates && next == world.next && Inv(world)
      && (forall g: nat :: Strong(g) == |Holders(world, g)|)
    }

    function Strong(g: nat): nat
      reads this
    {
      if g in strong then strong[g] else 0
    }

    constructor ()
      ensures Valid() && world == World(map[], map[], 0)
    {
      gates, strong, next := map[], map[], 0;
      world := World(map[], map[], 0);
      new;
      forall g: nat ensures |Holders(world, g)| == 0 { assert Holders(world, g) == {}; }
    }

    method SendGate(ghost x: nat, task: string) returns (gate: nat)
      requires Valid() && x in world.flows && world.flows[x] == Workflow(task, Arrived)
      modifies this
      ensures Valid() && world == TakeGate(old(world), x) && world.flows[x].stage == Waiting(gate)
    {
      TakeKeeps(world, x);
      ghost var after := TakeGate(world, x);
      if task in gates && Strong(gates[task]) > 0 {
        gate := gates[task];
      } else {
        gate := next;
        gates := gates[task := gate];
        next := next + 1;
        NewGateUnheld(world);
      }
      HoldersGain(world, after, x, gate);
      strong := strong[gate := Strong(gate) + 1];
      world := after;
    }

    method ReleaseSendGate(ghost x: nat, task: string, gate: nat)
      requires Valid() && x in world.flows && world.flows[x] == Workflow(task, Leaving(gate))
      modifies this
      ensures Valid() && world == ReleaseGate(old(world), x)
    {
      ReleaseKeeps(world, x);
      ghost var after := ReleaseGate(world, x);
      if task in gates && Strong(gates[task]) > 0 && gates[task] == gate && Strong(gate) == 1 {
        gates := gates - {task};
      }
      forall g: nat ensures Holders(after, g) == Holders(world, g) { }
      world := after;
    }

    /** The workflow's own reference goes away: at its end, or on an early return. */
    method DropGate(ghost x: nat, gate: nat)
      requires Valid() && x in world.flows
      requires world.flows[x].stage in {Waiting(gate), Leaving(gate), Released(gate)}
      modifies this
      ensures Valid() && world == Move(old(world), x, Done) && gates == old(gates)
    {
      ActKeeps(world, Move(world, x, Done), x);
      HoldersLose(world, x, gate);
      assert x in Holders(world, gate);
      strong := strong[gate := Strong(gate) - 1];
      world := Move(world, x, Done);
    }
  }

  lemma HoldersLose(w: World, x: nat, gate: nat)
    requires x in w.flows && GateOf(w.flows[x].stage) == Some(gate)
    ensures forall g: nat ::
              |Holders(Move(w, x, Done), g)| == if g == gate then |Holders(w, g)| - 1 else |Holders(w, g)|
  {
    forall g: nat
      ensures |Holders(Move(w, x, Done), g)| == if g == gate then |Holders(w, g)| - 1 else |Holders(w, g)|
    {
      if g == gate {
        assert Holders(Move(w, x, Done), g) == Holders(w, g) - {x};
      } else {
        assert Holders(Move(w, x, Done), g) == Holders(w, g);
      }
    }
  }

  lemma NewGateUnheld(w: World)
    requires Inv(w)
    ensures Holders(w, w.next) == {}
  {
  }

  lemma HoldersGain(w: World, v: World, x: nat, gate: nat)
    requires x in w.flows && GateOf(w.flows[x].stage).None?
    requires v.flows == w.flows[x := w.flows[x].(stage := Waiting(gate))]
    ensures forall g: nat :: |Holders(v, g)| == if g == gate then |Holders(w, g)| + 1 else |Holders(w, g)|
  {
    forall g: nat ensures |Holders(v, g)| == if g == gate then |Holders(w, g)| + 1 else |Holders(w, g)| {
      if g == gate {
        assert Holders(v, g) == Holders(w, g) + {x};
      } else {
        assert Holders(v, g) == Holders(w, g);
      }
    }
  }
}
