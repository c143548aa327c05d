/** Concurrent calls of spawnIfAbsent for one target (internal/clientagent/proc.go): under a file lock, return the agent
    named by the pidfile if it lives, else spawn one and write its pid. Agents may die at any time. */
module SpawnOnce {

  import opened Wrappers

  datatype Phase =
    | Idle
    | Waiting
    | Locked
    | Read(named: Option<nat>)
    | Absent
    | Spawned(pid: nat)
    | Done(pid: nat)

  /** A call that returned pid while the agents in alive were running. */
  datatype Answer = Answer(pid: nat, alive: set<nat>)

  /** pidfile is None when it is missing or does not hold a number. issued holds every pid the kernel has given out. */
  datatype World = World(pidfile: Option<nat>, alive: set<nat>, issued: set<nat>, lock: Option<nat>,
                         callers: map<nat, Phase>, returned: seq<Answer>)

  /** left is what a failed write of the pidfile leaves behind. */
  datatype Event =
    | Call
    | Acquire
    | ReadPid
    | Probe
    | Spawn(pid: nat)
    | SpawnFails
    | Write
    | WriteFails(left: Option<nat>)
    | Return
    | Crash
    | AgentDies(pid: nat)

  function PhaseOf(s: World, p: nat): Phase {
    if p in s.callers then s.callers[p] else Idle
  }

  function Moved(s: World, p: nat, phase: Phase): World {
    s.(callers := s.callers[p := phase])
  }

  /** The call is over, or its process is: either way the lock goes. */
  function Left(s: World, p: nat): World {
    Moved(if s.lock == Some(p) then s.(lock := None) else s, p, Idle)
  }

  /** One atomic step of caller p, or of the agent an AgentDies names; None when it cannot happen now. */
  function Step(s: World, p: nat, e: Event): Option<World> {
    var phase := PhaseOf(s, p);
    match e
    case Call => if phase.Idle? then Some(Moved(s, p, Waiting)) else None
    case Acquire => if phase.Waiting? && s.lock.None? then Some(Moved(s.(lock := Some(p)), p, Locked)) else None
    case ReadPid => if phase.Locked? then Some(Moved(s, p, Read(s.pidfile))) else None
    case Probe =>
      if !phase.Read? then None
      else if phase.named.Some? && phase.named.value in s.alive then Some(Moved(s, p, Done(phase.named.value)))
      else Some(Moved(s, p, Absent))
    case Spawn(pid) =>
      if phase.Absent? && pid !in s.issued
      then Some(Moved(s.(alive := s.alive + {pid}, issued := s.issued + {pid}), p, Spawned(pid))) else None
    case SpawnFails => if phase.Absent? then Some(Left(s, p)) else None
    case Write => if phase.Spawned? then Some(Moved(s.(pidfile := Some(phase.pid)), p, Done(phase.pid))) else None
    case WriteFails(left) => if phase.Spawned? then Some(Left(s.(pidfile := left), p)) else None
    case Return =>
      if phase.Done? then Some(Left(s.(returned := s.returned + [Answer(phase.pid, s.alive)]), p)) else None
    case Crash => Some(Left(s, p))
    case AgentDies(pid) => if pid in s.alive then Some(s.(alive := s.alive - {pid})) else None
  }

  datatype Move = Move(who: nat, event: Event)

  /** The moves, in order, take s to t. */
  ghost predicate Run(s: World, moves: seq<Move>, t: World)
    decreases |moves|
  {
    if moves == [] then s == t
    else Step(s, moves[0].who, moves[0].event).Some? &&
         Run(Step(s, moves[0].who, moves[0].event).value, moves[1..], t)
  }

  /** No agent yet; the pidfile may be a stale one. */
  function Start(stale: Option<nat>, issued: set<nat>): World {
    World(stale, {}, issued, None, map[], [])
  }

  // ---- The invariant ---------------------------------------------------------------

  predicate HoldsLock(phase: Phase) {
    !phase.Idle? && !phase.Waiting?
  }

  /** The pids of agents a caller has spawned but not recorded yet. */
  predicate Unrecorded(s: World, p: nat, pid: nat) {
    PhaseOf(s, p) == Spawned(pid)
  }

  /** What caller p may rely on in its phase. */
  ghost predicate PhaseOk(s: World, p: nat) {
    var phase := PhaseOf(s, p);
    && (HoldsLock(phase) ==> s.lock == Some(p))
    && (phase.Read? ==> phase.named == s.pidfile)
    && (phase.Absent? ==> s.alive == {})
    && (phase.Spawned? ==> s.alive <= {phase.pid})
    && (phase.Done? ==> s.pidfile == Some(phase.pid))
  }

  /** Every live agent is the one in the pidfile, or its spawner is about to put it there. */
  ghost predicate Inv(s: World) {
    && s.alive <= s.issued
    && (forall i | 0 <= i < |s.returned| :: s.returned[i].alive <= {s.returned[i].pid})
    && (forall p: nat :: PhaseOk(s, p))
    && forall pid | pid in s.alive :: s.pidfile == Some(pid) || exists p: nat :: Unrecorded(s, p, pid)
  }

  /** The spawner goes away without recording its live agent: by dying, or because the pidfile could not be written. */
  predicate Orphans(s: World, p: nat, e: Event) {
    var phase := PhaseOf(s, p);
    && phase.Spawned? && phase.pid in s.alive
    && match e {
      case Crash => s.pidfile != Some(phase.pid)
      case WriteFails(left) => left != Some(phase.pid)
      case _ => false
    }
  }

  lemma {:induction false} SpawnerHoldsLock(s: World, p: nat, pid: nat)
    requires Inv(s) && Unrecorded(s, p, pid)
    ensures s.lock == Some(p) && s.alive <= {pid}
  {
    assert PhaseOk(s, p);
  }

  /** A lock holder knows that no agent is unrecorded, except by itself. */
  lemma {:induction false} OnlyHolderSpawned(s: World, p: nat, q: nat, pid: nat)
    requires Inv(s) && HoldsLock(PhaseOf(s, p)) && Unrecorded(s, q, pid)
    ensures p == q
  {
    assert PhaseOk(s, p) && PhaseOk(s, q);
  }

  lemma {:induction false} DoneKnows(s: World, p: nat)
    requires Inv(s) && PhaseOf(s, p).Done?
    ensures s.alive <= {PhaseOf(s, p).pid}
  {
    assert PhaseOk(s, p);
    forall a | a in s.alive
      ensures a == PhaseOf(s, p).pid
    {
      if q: nat :| Unrecorded(s, q, a) {
        OnlyHolderSpawned(s, p, q, a);
      }
    }
  }

  lemma {:induction false} StepKeepsPhases(s: World, p: nat, e: Event, t: World)
    requires Inv(s) && Step(s, p, e) == Some(t)
    ensures forall q: nat :: PhaseOk(t, q)
  {
    assert PhaseOk(s, p);
    forall q: nat
      ensures PhaseOk(t, q)
    {
      assert PhaseOk(s, q);
      if q == p && e.Probe? && PhaseOf(t, p).Absent? {
        forall pid | pid in s.alive
          ensures false
        {
          assert s.pidfile == Some(pid) || exists r: nat :: Unrecorded(s, r, pid);
          if s.pidfile != Some(pid) {
            var r: nat :| Unrecorded(s, r, pid);
            OnlyHolderSpawned(s, p, r, pid);
          }
        }
      }
    }
  }

  /** The invariant survives exactly the steps that do not orphan an agent. */
  lemma {:induction false} StepKeepsInvExactly(s: World, p: nat, e: Event, t: World)
    requires Inv(s) && Step(s, p, e) == Some(t)
    ensures Inv(t) <==> !Orphans(s, p, e)
  {
    assert PhaseOk(s, p);
    StepKeepsPhases(s, p, e, t);
    if e.Return? {
      DoneKnows(s, p);
    }
    if Orphans(s, p, e) {
      var pid := PhaseOf(s, p).pid;
      forall q: nat
        ensures !Unrecorded(t, q, pid)
      {
        if q != p && Unrecorded(s, q, pid) {
          OnlyHolderSpawned(s, p, q, pid);
        }
      }
    } else {
      forall pid | pid in t.alive
        ensures t.pidfile == Some(pid) || exists q: nat :: Unrecorded(t, q, pid)
      {
        if e.Spawn? && pid == e.pid {
          assert Unrecorded(t, p, pid);
        } else if s.pidfile != Some(pid) {
          var q: nat :| Unrecorded(s, q, pid);
          assert q != p ==> Unrecorded(t, q, pid);
        }
      }
    }
  }

  // ---- Runs ------------------------------------------------------------------------

  /** No step of the run orphans an agent. */
  ghost predicate NoOrphans(s: World, moves: seq<Move>)
    decreases |moves|
  {
    moves == [] ||
    (!Orphans(s, moves[0].who, moves[0].event) &&
     (Step(s, moves[0].who, moves[0].event).Some? ==>
        NoOrphans(Step(s, moves[0].who, moves[0].event).value, moves[1..])))
  }

  lemma {:induction false} RunKeepsInv(s: World, moves: seq<Move>, t: World)
    requires Inv(s) && Run(s, moves, t) && NoOrphans(s, moves)
    ensures Inv(t)
    decreases |moves|
  {
    if moves != [] {
      var next := Step(s, moves[0].who, moves[0].event).value;
      StepKeepsInvExactly(s, moves[0].who, moves[0].event, next);
      hide Inv;
      RunKeepsInv(next, moves[1..], t);
    }
  }

  /** At most one agent lives at any time; unless its spawner still holds the lock, the pidfile names it; and every
      call that returned while an agent was running returned the pid of that agent. */
  lemma {:induction false} OneAgent(stale: Option<nat>, issued: set<nat>, moves: seq<Move>, t: World)
    requires Run(Start(stale, issued), moves, t) && NoOrphans(Start(stale, issued), moves)
    ensures forall a, b | a in t.alive && b in t.alive :: a == b
    ensures forall a | a in t.alive && t.lock.None? :: t.pidfile == Some(a)
    ensures forall i | 0 <= i < |t.returned| :: t.returned[i].alive <= {t.returned[i].pid}
  {
    RunKeepsInv(Start(stale, issued), moves, t);
    forall a, b | a in t.alive && b in t.alive
      ensures a == b
    {
      if p: nat :| Unrecorded(t, p, a) {
        SpawnerHoldsLock(t, p, a);
      } else if q: nat :| Unrecorded(t, q, b) {
        SpawnerHoldsLock(t, q, b);
      }
    }
    forall a | a in t.alive && t.lock.None?
      ensures t.pidfile == Some(a)
    {
      if p: nat :| Unrecorded(t, p, a) {
        SpawnerHoldsLock(t, p, a);
      }
    }
  }

  // ---- What an orphan leads to -----------------------------------------------------

  lemma {:induction false} RunCons(s: World, p: nat, e: Event, next: World, moves: seq<Move>, t: World)
    requires Step(s, p, e) == Some(next) && Run(next, moves, t)
    ensures Run(s, [Move(p, e)] + moves, t)
  {
    assert ([Move(p, e)] + moves)[1..] == moves;
  }

  /** The world once caller p, undisturbed, has spawned pid. */
  function SpawnedBy(s: World, p: nat, pid: nat): World {
    Moved(s.(lock := Some(p), alive := s.alive + {pid}, issued := s.issued + {pid}), p, Spawned(pid))
  }

  lemma {:induction false} SpawnerRuns(s: World, p: nat, pid: nat, rest: seq<Move>, t: World) returns (moves: seq<Move>)
    requires PhaseOf(s, p).Idle? && s.lock.None? && s.pidfile.None? && pid !in s.issued
    requires Run(SpawnedBy(s, p, pid), rest, t)
    ensures Run(s, moves, t)
  {
    var s1 := Moved(s, p, Waiting);
    var s2 := Moved(s1.(lock := Some(p)), p, Locked);
    var s3 := Moved(s2, p, Read(None));
    var s4 := Moved(s3, p, Absent);
    assert Step(s4, p, Spawn(pid)).value.callers == SpawnedBy(s, p, pid).callers;
    assert Step(s4, p, Spawn(pid)) == Some(SpawnedBy(s, p, pid));
    hide Run;
    RunCons(s4, p, Spawn(pid), SpawnedBy(s, p, pid), rest, t);
    moves := [Move(p, Spawn(pid))] + rest;
    RunCons(s3, p, Probe, s4, moves, t);
    moves := [Move(p, Probe)] + moves;
    RunCons(s2, p, ReadPid, s3, moves, t);
    moves := [Move(p, ReadPid)] + moves;
    RunCons(s1, p, Acquire, s2, moves, t);
    moves := [Move(p, Acquire)] + moves;
    RunCons(s, p, Call, s1, moves, t);
    moves := [Move(p, Call)] + moves;
  }

  /** One failed write of the pidfile is enough for two agents on one target. */
  lemma {:induction false} OrphanMeansTwo(a: nat, b: nat) returns (moves: seq<Move>, t: World)
    requires a != b
    ensures Run(Start(None, {}), moves, t) && t.alive == {a, b} && t.pidfile == Some(b)
  {
    var first := SpawnedBy(Start(None, {}), 0, a);
    var orphaned := Left(first, 0);
    var second := SpawnedBy(orphaned, 1, b);
    t := Moved(second.(pidfile := Some(b)), 1, Done(b));
    moves := [];
    RunCons(second, 1, Write, t, moves, t);
    moves := SpawnerRuns(orphaned, 1, b, [Move(1, Write)] + moves, t);
    RunCons(first, 0, WriteFails(None), orphaned, moves, t);
    moves := SpawnerRuns(Start(None, {}), 0, a, [Move(0, WriteFails(None))] + moves, t);
  }
}
