/** What a call of spawnIfAbsent that returned knows about the agent it names: it was alive during the call. */
module SpawnHistory {

  import opened Wrappers
  import opened SpawnOnce

  /** A run with all its states: move i takes state i to state i + 1. */
  ghost predicate Trace(states: seq<World>, moves: seq<Move>) {
    && |states| == |moves| + 1
    && forall i: nat | i < |moves| :: Step(states[i], moves[i].who, moves[i].event) == Some(states[i + 1])
  }

  /** Caller p took the lock by move a and its call goes on, by move i. */
  ghost predicate Since(moves: seq<Move>, p: nat, a: nat, i: nat) {
    && a < i <= |moves| && moves[a] == Move(p, Acquire)
    && forall m: nat | a < m < i && moves[m].who == p ::
         var e := moves[m].event;
         !e.Call? && !e.Acquire? && !e.Return? && !e.Crash? && !e.SpawnFails? && !e.WriteFails?
  }

  /** By move m caller p spawned the agent, or found it alive. */
  ghost predicate Seen(states: seq<World>, moves: seq<Move>, p: nat, pid: nat, m: nat) {
    && m < |moves| && |states| == |moves| + 1
    && (moves[m] == Move(p, Spawn(pid)) || (moves[m] == Move(p, Probe) && pid in states[m].alive))
    && pid in states[m + 1].alive
  }

  ghost predicate SeenSince(states: seq<World>, moves: seq<Move>, p: nat, pid: nat, i: nat) {
    exists a: nat, m: nat :: Since(moves, p, a, i) && a < m < i && Seen(states, moves, p, pid, m)
  }

  lemma {:induction false} SinceLater(moves: seq<Move>, p: nat, a: nat, i: nat)
    requires Since(moves, p, a, i) && i < |moves|
    requires moves[i].who == p ==>
      var e := moves[i].event;
      !e.Call? && !e.Acquire? && !e.Return? && !e.Crash? && !e.SpawnFails? && !e.WriteFails?
    ensures Since(moves, p, a, i + 1)
  {
  }

  lemma {:induction false} SeenLater(states: seq<World>, moves: seq<Move>, p: nat, pid: nat, i: nat)
    requires SeenSince(states, moves, p, pid, i) && i < |moves|
    requires moves[i].who == p ==>
      var e := moves[i].event;
      !e.Call? && !e.Acquire? && !e.Return? && !e.Crash? && !e.SpawnFails? && !e.WriteFails?
    ensures SeenSince(states, moves, p, pid, i + 1)
  {
    var a: nat, m: nat :| Since(moves, p, a, i) && a < m < i && Seen(states, moves, p, pid, m);
    SinceLater(moves, p, a, i);
  }

  /** The pid a caller is about to record or return. */
  function Holding(phase: Phase): Option<nat> {
    if phase.Spawned? || phase.Done? then Some(phase.pid) else None
  }

  /** What a step does to caller p's phase: nothing, if it is another's; otherwise it takes the lock, spawns, or
      finds. */
  lemma {:induction false} HoldingStep(s: World, who: nat, e: Event, t: World, p: nat)
    requires Step(s, who, e) == Some(t)
    ensures who != p ==> PhaseOf(t, p) == PhaseOf(s, p)
    ensures HoldsLock(PhaseOf(t, p)) && !HoldsLock(PhaseOf(s, p)) ==> who == p && e == Acquire && Holding(PhaseOf(t, p)).None?
    ensures HoldsLock(PhaseOf(t, p)) && HoldsLock(PhaseOf(s, p)) && who == p ==>
      !e.Call? && !e.Acquire? && !e.Return? && !e.Crash? && !e.SpawnFails? && !e.WriteFails?
    ensures Holding(PhaseOf(t, p)).Some? && Holding(PhaseOf(t, p)) != Holding(PhaseOf(s, p)) ==>
      var pid := Holding(PhaseOf(t, p)).value;
      && who == p && HoldsLock(PhaseOf(s, p)) && pid in t.alive
      && (e == Spawn(pid) || (e == Probe && pid in s.alive))
  {
  }

  /** In every state of a run each caller inside the lock has taken it, and holds a pid only of an agent it has seen
      alive since. */
  lemma {:induction false} History(states: seq<World>, moves: seq<Move>, p: nat, i: nat)
    requires Trace(states, moves) && PhaseOf(states[0], p).Idle? && i <= |moves|
    ensures HoldsLock(PhaseOf(states[i], p)) ==> exists a: nat :: Since(moves, p, a, i)
    ensures Holding(PhaseOf(states[i], p)).Some? ==>
      SeenSince(states, moves, p, Holding(PhaseOf(states[i], p)).value, i)
    decreases i
  {
    if i > 0 {
      hide Since, Seen, SeenSince, PhaseOf, Step;
      var n := i - 1;
      History(states, moves, p, n);
      HoldingStep(states[n], moves[n].who, moves[n].event, states[n + 1], p);
      if HoldsLock(PhaseOf(states[i], p)) {
        if HoldsLock(PhaseOf(states[n], p)) {
          var a: nat :| Since(moves, p, a, n);
          SinceLater(moves, p, a, n);
          if Holding(PhaseOf(states[i], p)).Some? {
            var pid := Holding(PhaseOf(states[i], p)).value;
            if Holding(PhaseOf(states[n], p)) == Some(pid) {
              SeenLater(states, moves, p, pid, n);
            } else {
              SeenNow(states, moves, p, pid, a, n);
            }
          }
        } else {
          TakesLock(moves, p, n);
        }
      }
    }
  }

  lemma {:induction false} TakesLock(moves: seq<Move>, p: nat, n: nat)
    requires n < |moves| && moves[n] == Move(p, Acquire)
    ensures Since(moves, p, n, n + 1)
  {
  }

  lemma {:induction false} SeenNow(states: seq<World>, moves: seq<Move>, p: nat, pid: nat, a: nat, n: nat)
    requires |states| == |moves| + 1 && Since(moves, p, a, n) && Since(moves, p, a, n + 1) && pid in states[n + 1].alive
    requires moves[n] == Move(p, Spawn(pid)) || (moves[n] == Move(p, Probe) && pid in states[n].alive)
    ensures SeenSince(states, moves, p, pid, n + 1)
  {
    assert Seen(states, moves, p, pid, n);
  }

  /** An agent that lives in a run that started with none was spawned in it. */
  lemma {:induction false} AliveWasSpawned(states: seq<World>, moves: seq<Move>, pid: nat, i: nat)
    requires Trace(states, moves) && states[0].alive == {} && i <= |moves| && pid in states[i].alive
    ensures exists m: nat :: m < i && moves[m].event == Spawn(pid)
    decreases i
  {
    if i > 0 && pid in states[i - 1].alive {
      AliveWasSpawned(states, moves, pid, i - 1);
    } else if i > 0 {
      assert Step(states[i - 1], moves[i - 1].who, moves[i - 1].event) == Some(states[i - 1 + 1]);
      assert moves[i - 1].event == Spawn(pid);
    }
  }

  /** A call that returns adds one answer, and its agent was alive during the call: after caller p took the lock by
      move a, and before the return, it spawned that agent, or found it alive by the probe. Either way someone has
      spawned it in this run; so a caller that is alone has done so itself. */
  lemma {:induction false} ReturnedWasAlive(stale: Option<nat>, issued: set<nat>, states: seq<World>, moves: seq<Move>,
                                            i: nat) returns (pid: nat, a: nat, m: nat)
    requires Trace(states, moves) && states[0] == Start(stale, issued)
    requires i < |moves| && moves[i].event.Return?
    ensures states[i + 1].returned == states[i].returned + [Answer(pid, states[i].alive)]
    ensures a < m < i && moves[a] == Move(moves[i].who, Acquire) && Since(moves, moves[i].who, a, i)
    ensures pid in states[m + 1].alive
    ensures moves[m] == Move(moves[i].who, Spawn(pid)) || (moves[m] == Move(moves[i].who, Probe) && pid in states[m].alive)
    ensures exists n: nat :: n < i && moves[n].event == Spawn(pid)
    ensures (forall j: nat | j < i :: moves[j].who == moves[i].who) ==>
      exists n: nat :: n < i && moves[n] == Move(moves[i].who, Spawn(pid))
  {
    hide Step, Since, Seen, SeenSince, Start, PhaseOf;
    var p := moves[i].who;
    Starts(stale, issued, p);
    ReturnStep(states[i], p, states[i + 1]);
    History(states, moves, p, i);
    pid := PhaseOf(states[i], p).pid;
    a, m := RecallSeen(states, moves, p, pid, i);
    AliveWasSpawned(states, moves, pid, m + 1);
    var n: nat :| n < m + 1 && moves[n].event == Spawn(pid);
    assert moves[n] == Move(moves[n].who, Spawn(pid));
  }

  lemma {:induction false} Starts(stale: Option<nat>, issued: set<nat>, p: nat)
    ensures Start(stale, issued).alive == {} && PhaseOf(Start(stale, issued), p).Idle?
  {
  }

  lemma {:induction false} ReturnStep(s: World, p: nat, t: World)
    requires Step(s, p, Return) == Some(t)
    ensures PhaseOf(s, p).Done? && t.returned == s.returned + [Answer(PhaseOf(s, p).pid, s.alive)]
  {
  }

  lemma {:induction false} RecallSeen(states: seq<World>, moves: seq<Move>, p: nat, pid: nat, i: nat)
    returns (a: nat, m: nat)
    requires |states| == |moves| + 1 && i <= |moves| && SeenSince(states, moves, p, pid, i)
    ensures a < m < i && moves[a] == Move(p, Acquire) && Since(moves, p, a, i) && pid in states[m + 1].alive
    ensures moves[m] == Move(p, Spawn(pid)) || (moves[m] == Move(p, Probe) && pid in states[m].alive)
  {
    var a0: nat, m0: nat :| Since(moves, p, a0, i) && a0 < m0 < i && Seen(states, moves, p, pid, m0);
    a, m := a0, m0;
  }

  // ---- Calls that run alone ---------------------------------------------------------------

  lemma {:induction false} WritesAndReturns(s: World, p: nat, pid: nat) returns (t: World)
    requires PhaseOf(s, p) == Spawned(pid) && s.lock == Some(p)
    ensures Run(s, [Move(p, Write), Move(p, Return)], t)
    ensures t.returned == s.returned + [Answer(pid, s.alive)] && t.pidfile == Some(pid) && t.alive == s.alive
    ensures t.lock.None?
  {
    hide Run;
    var s1 := Moved(s.(pidfile := Some(pid)), p, Done(pid));
    t := Left(s1.(returned := s.returned + [Answer(pid, s.alive)]), p);
    var moves := OneMove(s1, p, Return, t);
    moves := Before(s, p, Write, s1, moves, t);
    assert moves == [Move(p, Write), Move(p, Return)];
  }

  /** The world once caller p, alone so far, has spawned pid. */
  function LoneSpawned(stale: Option<nat>, issued: set<nat>, p: nat, pid: nat): World {
    World(stale, {pid}, issued + {pid}, Some(p), map[p := Spawned(pid)], [])
  }

  lemma {:induction false} LoneSteps(stale: Option<nat>, issued: set<nat>, p: nat, pid: nat)
    requires pid !in issued
    ensures var s := Start(stale, issued);
      var s2 := s.(lock := Some(p));
      && Step(s, p, Call) == Some(s.(callers := map[p := Waiting]))
      && Step(s.(callers := map[p := Waiting]), p, Acquire) == Some(s2.(callers := map[p := Locked]))
      && Step(s2.(callers := map[p := Locked]), p, ReadPid) == Some(s2.(callers := map[p := Read(stale)]))
      && Step(s2.(callers := map[p := Read(stale)]), p, Probe) == Some(s2.(callers := map[p := Absent]))
      && Step(s2.(callers := map[p := Absent]), p, Spawn(pid)) == Some(LoneSpawned(stale, issued, p, pid))
  {
    assert forall a: Phase, b: Phase :: map[p := a][p := b] == map[p := b];
    assert {} + {pid} == {pid};
  }

  /** Whatever a stale pidfile says, a call that runs alone when no agent lives can spawn one, record it and return
      it. */
  lemma {:induction false} LoneCallSpawns(stale: Option<nat>, issued: set<nat>, p: nat, pid: nat)
    returns (moves: seq<Move>, t: World)
    requires pid !in issued
    ensures Run(Start(stale, issued), moves, t)
    ensures moves == [Move(p, Call), Move(p, Acquire), Move(p, ReadPid), Move(p, Probe), Move(p, Spawn(pid))]
                     + [Move(p, Write), Move(p, Return)]
    ensures t.returned == [Answer(pid, {pid})] && t.pidfile == Some(pid) && t.alive == {pid} && t.lock.None?
  {
    hide Run, Step;
    LoneSteps(stale, issued, p, pid);
    var s := Start(stale, issued);
    var s2 := s.(lock := Some(p));
    t := WritesAndReturns(LoneSpawned(stale, issued, p, pid), p, pid);
    assert [] + [Answer(pid, {pid})] == [Answer(pid, {pid})];
    moves := Before(s2.(callers := map[p := Absent]), p, Spawn(pid), LoneSpawned(stale, issued, p, pid),
                    [Move(p, Write), Move(p, Return)], t);
    moves := Before(s2.(callers := map[p := Read(stale)]), p, Probe, s2.(callers := map[p := Absent]), moves, t);
    moves := Before(s2.(callers := map[p := Locked]), p, ReadPid, s2.(callers := map[p := Read(stale)]), moves, t);
    moves := Before(s.(callers := map[p := Waiting]), p, Acquire, s2.(callers := map[p := Locked]), moves, t);
    moves := Before(s, p, Call, s.(callers := map[p := Waiting]), moves, t);
  }

  /** A call that runs alone while the agent in the pidfile lives returns it, and spawns none. */
  lemma {:induction false} LoneCallFinds(s: World, p: nat, pid: nat) returns (moves: seq<Move>, t: World)
    requires s.pidfile == Some(pid) && pid in s.alive && s.lock.None? && PhaseOf(s, p).Idle?
    ensures Run(s, moves, t)
    ensures moves == [Move(p, Call), Move(p, Acquire), Move(p, ReadPid), Move(p, Probe), Move(p, Return)]
    ensures t.returned == s.returned + [Answer(pid, s.alive)] && t.pidfile == s.pidfile && t.alive == s.alive
    ensures t.lock.None? && t.issued == s.issued
  {
    hide Run;
    var s1 := Moved(s, p, Waiting);
    var s2 := Moved(s1.(lock := Some(p)), p, Locked);
    var s3 := Moved(s2, p, Read(Some(pid)));
    var s4 := Moved(s3, p, Done(pid));
    t := Left(s4.(returned := s.returned + [Answer(pid, s.alive)]), p);
    moves := OneMove(s4, p, Return, t);
    moves := Before(s3, p, Probe, s4, moves, t);
    moves := Before(s2, p, ReadPid, s3, moves, t);
    moves := Before(s1, p, Acquire, s2, moves, t);
    moves := Before(s, p, Call, s1, moves, t);
  }

  lemma {:induction false} OneMove(s: World, p: nat, e: Event, t: World) returns (moves: seq<Move>)
    requires Step(s, p, e) == Some(t)
    ensures Run(s, moves, t) && moves == [Move(p, e)]
  {
    moves := [Move(p, e)];
    RunCons(s, p, e, t, [], t);
    assert [Move(p, e)] + [] == moves;
  }

  lemma {:induction false} Before(s: World, p: nat, e: Event, next: World, rest: seq<Move>, t: World)
    returns (moves: seq<Move>)
    requires Step(s, p, e) == Some(next) && Run(next, rest, t)
    ensures Run(s, moves, t) && moves == [Move(p, e)] + rest
  {
    moves := [Move(p, e)] + rest;
    RunCons(s, p, e, next, rest, t);
  }

  /** Any caller can die at any point, and then its lock is free again and the pidfile as it was; any agent can die; and the
      write of the pidfile can fail, leaving anything. */
  lemma {:induction false} MayFail(s: World, p: nat, left: Option<nat>) returns (t: World, u: World)
    ensures Step(s, p, Crash) == Some(t)
    ensures PhaseOf(t, p).Idle? && t.lock == (if s.lock == Some(p) then None else s.lock)
    ensures t.pidfile == s.pidfile && t.alive == s.alive
    ensures forall pid | pid in s.alive :: Step(s, p, AgentDies(pid)) == Some(s.(alive := s.alive - {pid}))
    ensures PhaseOf(s, p).Spawned? ==>
      Step(s, p, WriteFails(left)) == Some(u) && u.pidfile == left && u.lock != Some(p) && u.alive == s.alive
  {
    t, u := Left(s, p), Left(s.(pidfile := left), p);
  }
}
