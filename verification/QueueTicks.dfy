/** Which ticks are safe, told before they are taken: from the state, the snapshot and the clock alone, before it is
    known which forwards the master will accept. */
module QueueTicks {

  import opened Wrappers
  import opened RequestQueue
  import opened QueueProtocol
  import FA = ForwardAgent
  import AP = AgentProperties

  // ---- A tick exists for every answer ------------------------------------------------

  lemma {:induction false} LongestExists(cfg: FA.Config, input: FA.TickInput, c: seq<Request>, j: nat) returns (k: nat)
    requires j <= |c| && forall i | 0 <= i < j :: FA.Passes(cfg, input, c, i)
    ensures FA.LongestServed(cfg, input, c, k)
    decreases |c| - j
  {
    if j < |c| && FA.Passes(cfg, input, c, j) {
      k := LongestExists(cfg, input, c, j + 1);
    } else {
      k := j;
    }
  }

  /** Whatever the master would accept, the agent can take a tick on a sorted queue. */
  lemma {:induction false} TickExists(cfg: FA.Config, s: FA.AgentState, input: FA.TickInput)
    returns (s': FA.AgentState, rep: FA.TickReport)
    requires input.queue.Some? && Sorted(input.queue.value)
    ensures FA.TickRel(cfg, s, input, s', rep)
  {
    var order, base := input.queue.value, FA.Base(s, input);
    var c := FA.Candidates(order, base);
    var k := LongestExists(cfg, input, c, 0);
    var done, settled := FA.Firsts(c[..k]), FA.SettledAt(base, c, k);
    var stuck := k < |c| && !FA.Admissible(cfg, input, c[k]);
    s' := FA.AgentState(s.applied + FA.IdSet(done), FA.SpecsAfter(s.specs, done),
                        s.reported + (if stuck then {c[k].id} else {}), settled, true);
    rep := FA.TickReport(FA.Ids(done), settled, k < |c| && FA.Admissible(cfg, input, c[k]),
                         if stuck && c[k].id !in s.reported then Some(c[k].id) else None,
                         [FA.ReadQueue] + (if s.seeded then [] else [FA.ReadAck]) + FA.Forwards(done)
                         + FA.StopCommands(cfg, input, c, k) + FA.MarkCommands(base, settled));
    hide FA.Candidates, FA.Firsts, FA.Admissible, FA.IdSet, FA.SpecsAfter, FA.Forwards, FA.StopCommands,
         FA.MarkCommands, FA.LongestServed, FA.Base, Sorted;
    assert FA.IsOrder(order, order);
    assert FA.Served(cfg, s, input, order, k, s', rep);
  }

  // ---- How far a tick can reach ------------------------------------------------------

  /** The highest cursor a tick may start from. */
  function Floor(s: System): Uint64 {
    if s.agent.seeded then s.agent.lastAcked else s.ack
  }

  predicate Serves(cfg: FA.Config, now: int, r: Request) {
    FA.IsOurs(cfg, r) && !Expired(r, Cutoff(now, EffectiveTtl(cfg.ttl)))
  }

  /** A tick on the snapshot can settle on this id, above any it may start from: it is pending there, and everything
      up to it is ours and unexpired. */
  ghost predicate CanReach(s: System, snap: System, cfg: FA.Config, now: int, id: Uint64) {
    && Floor(s) < id && id in snap.ident
    && forall r | r in snap.queue.pending && Floor(s) < r.id <= id :: Serves(cfg, now, r)
  }

  /** No unforwarded request that is not passed yet, at or below an id that a tick on the snapshot can reach, has taken
      over its id since the snapshot was read, or lies where every tick starts too high to see it. */
  ghost predicate NoReuse(bound: Bound, s: System, snap: System, cfg: FA.Config, now: int) {
    forall id, reach | id in s.ident && Passed(bound, s) < id <= reach && CanReach(s, snap, cfg, now, reach) ::
      s.ident[id] in s.forwarded || (SameRequest(s, snap, id) && Floor(s) < id)
  }

  /** A tick on the snapshot, at this clock, with any answers of the master, any ack seed, and the ack write lost or
      not. */
  ghost predicate TickOn(s: System, snap: System, cfg: FA.Config, now: int, step: Step, s': System) {
    step.Ticks? && step.cfg == cfg && step.input.now == now && Ticked(s, snap, step, s')
  }

  ghost predicate SnapshotOk(s: System, snap: System) {
    IdentOk(snap) && StrictlySorted(snap.queue.pending) && IdsKept(snap, s)
  }

  lemma {:induction false} ReachIsAllowed(bound: Bound, s: System, snap: System, cfg: FA.Config, now: int, step: Step,
                                          s': System)
    requires Inv(bound, s) && SnapshotOk(s, snap) && TickOn(s, snap, cfg, now, step, s')
    requires PassedAfter(bound, s, step) > Passed(bound, s)
    ensures CanReach(s, snap, cfg, now, Settles(s, step)) && PassedAfter(bound, s, step) <= Settles(s, step)
    ensures Start(s, step) <= Floor(s)
  {
    PassingIsAbove(bound, s, snap, step, s');
    var input, rep := step.input, step.report;
    var order := snap.queue.pending;
    AppliedWerePending(cfg, s.agent, input, s'.agent, rep);
    assert rep.settled in FA.IdSet(order);
    hide FA.TickRel, RunMarks, StrictlySorted, FA.AgentInv, FA.IsOurs, Expired, Cutoff, PassedForwarded, PassedAfter, Passed;
    forall r | r in order && Floor(s) < r.id <= rep.settled
      ensures Serves(cfg, now, r)
    {
      AP.SettledWereServiceable(cfg, s.agent, input, s'.agent, rep, order, r);
    }
  }

  /** A tick that passes anything new settles above any cursor it may have started from. */
  lemma {:induction false} PassingIsAbove(bound: Bound, s: System, snap: System, step: Step, s': System)
    requires FA.AgentInv(s.agent) && step.Ticks? && Ticked(s, snap, step, s')
    requires PassedAfter(bound, s, step) > Passed(bound, s)
    ensures step.input.queue.Some? && PassedAfter(bound, s, step) <= Settles(s, step)
    ensures Start(s, step) <= Floor(s) < Settles(s, step)
  {
    TickReach(s, snap, step, s');
    TickMarks(step.cfg, s.agent, step.input, s'.agent, step.report, s.ack);
    hide FA.TickRel, RunMarks;
  }

  lemma {:induction false} AllowedIsSafe(bound: Bound, s: System, snap: System, cfg: FA.Config, now: int, step: Step)
    requires step.Ticks? && NoReuse(bound, s, snap, cfg, now)
    requires PassedAfter(bound, s, step) > Passed(bound, s) ==>
      && CanReach(s, snap, cfg, now, Settles(s, step)) && PassedAfter(bound, s, step) <= Settles(s, step)
      && Start(s, step) <= Floor(s)
    ensures TickSafe(bound, s, snap, step)
  {
    hide CanReach, Settles, Passed, PassedAfter, Floor, Start, SameRequest;
  }

  lemma {:induction false} NoReuseIsSafe(bound: Bound, s: System, snap: System, cfg: FA.Config, now: int, step: Step,
                                         s': System)
    requires Inv(bound, s) && SnapshotOk(s, snap) && TickOn(s, snap, cfg, now, step, s')
    requires NoReuse(bound, s, snap, cfg, now)
    ensures PassedForwarded(bound, s')
  {
    hide Inv, Ticked, PassedForwarded, CanReach, Settles, Passed, PassedAfter, Floor, Start, NoReuse, TickSafe, IdentOk,
         StrictlySorted, IdsKept;
    if PassedAfter(bound, s, step) > Passed(bound, s) {
      ReachIsAllowed(bound, s, snap, cfg, now, step, s');
    }
    AllowedIsSafe(bound, s, snap, cfg, now, step);
    TickPassedForwarded(bound, s, snap, step, s');
  }

  /** The tick that goes furthest: it seeds from the whole ack and everything it asks for is accepted. */
  function Furthest(s: System, snap: System, now: int): FA.TickInput {
    FA.TickInput(Some(snap.queue.pending), if s.agent.seeded then None else Some(s.ack), now, r => true)
  }

  lemma {:induction false} StrictIsSorted(s: seq<Request>)
    requires StrictlySorted(s)
    ensures Sorted(s)
  {
  }

  lemma {:induction false} PrefixCovers(cfg: FA.Config, input: FA.TickInput, c: seq<Request>, k: nat, r: Request)
    requires StrictlySorted(c) && k <= |c| && r in c
    requires k < |c| ==> !AP.Serviceable(cfg, input, c[k])
    requires forall x | x in c && x.id <= r.id :: AP.Serviceable(cfg, input, x)
    ensures k > 0 && r.id <= c[k - 1].id
  {
    hide AP.Serviceable;
    var j :| 0 <= j < |c| && c[j] == r;
    forall i | 0 <= i <= j
      ensures AP.Serviceable(cfg, input, c[i])
    {
      assert c[i] in c && c[i].id <= c[j].id;
    }
  }

  lemma {:induction false} ReachableIsServed(s: System, snap: System, cfg: FA.Config, now: int, reach: Uint64)
    requires CanReach(s, snap, cfg, now, reach)
    ensures forall x | x in FA.Candidates(snap.queue.pending, Floor(s)) && x.id <= reach ::
      AP.Serviceable(cfg, Furthest(s, snap, now), x)
  {
    FA.CandidatesExact(snap.queue.pending, Floor(s));
    hide FA.Candidates, Floor, FA.IsOurs, Expired, Cutoff;
    forall x | x in FA.Candidates(snap.queue.pending, Floor(s)) && x.id <= reach
      ensures AP.Serviceable(cfg, Furthest(s, snap, now), x)
    {
      assert Serves(cfg, now, x);
    }
  }

  lemma {:induction false} FurthestBase(s: System, snap: System, now: int)
    ensures FA.Base(s.agent, Furthest(s, snap, now)) == Floor(s)
  {
  }

  /** A tick whose every admissible request is accepted gets at least as far as any id it can reach. */
  lemma {:induction false} FurthestSettles(s: System, snap: System, cfg: FA.Config, now: int, reach: Uint64,
                                           agent: FA.AgentState, rep: FA.TickReport)
    requires SnapshotOk(s, snap) && CanReach(s, snap, cfg, now, reach)
    requires FA.TickRel(cfg, s.agent, Furthest(s, snap, now), agent, rep)
    ensures reach <= rep.settled
  {
    var input, order := Furthest(s, snap, now), snap.queue.pending;
    FurthestBase(s, snap, now);
    AP.TickServesLongestPrefix(cfg, s.agent, input, agent, rep, order);
    var r := InPending(snap, reach);
    FA.CandidatesExact(order, Floor(s));
    FA.CandidatesStrict(order, Floor(s));
    ReachableIsServed(s, snap, cfg, now, reach);
    hide FA.TickRel, FA.Candidates, FA.Base, Floor, IdentOk, IdsKept, AP.Serviceable, StrictlySorted, FA.Ids, CanReach;
    PrefixCovers(cfg, input, FA.Candidates(order, Floor(s)), |rep.applied|, r);
  }

  lemma {:induction false} ReuseIsUnsafe(bound: Bound, s: System, snap: System, cfg: FA.Config, now: int, id: Uint64,
                                         reach: Uint64)
    returns (step: Step, s': System)
    requires Inv(bound, s) && SnapshotOk(s, snap) && CanReach(s, snap, cfg, now, reach)
    requires id in s.ident && Passed(bound, s) < id <= reach
    requires s.ident[id] !in s.forwarded && !(SameRequest(s, snap, id) && Floor(s) < id)
    ensures TickOn(s, snap, cfg, now, step, s') && !PassedForwarded(bound, s')
  {
    var input := Furthest(s, snap, now);
    StrictIsSorted(snap.queue.pending);
    FurthestBase(s, snap, now);
    assert Floor(s) < reach;
    hide FA.TickRel, CanReach, TickOn, Inv, PassedForwarded, SameRequest, Sorted, StrictlySorted, IdentOk, IdsKept,
         Floor, Passed, FA.Base;
    var agent, rep := TickExists(cfg, s.agent, input);
    FurthestSettles(s, snap, cfg, now, reach, agent, rep);
    step, s' := BuildTick(s, snap, cfg, now, agent, rep);
    TickOnIsTicked(s, snap, cfg, now, step, s');
    LandedPasses(bound, s, snap, step, s');
    TickPassedForwarded(bound, s, snap, step, s');
  }

  /** When its ack write lands, a tick that settles above its start passes everything up to there. */
  lemma {:induction false} LandedPasses(bound: Bound, s: System, snap: System, step: Step, s': System)
    requires Inv(bound, s) && step.Ticks? && Ticked(s, snap, step, s')
    requires step.landed && step.input.queue.Some? && Start(s, step) < Settles(s, step)
    ensures Settles(s, step) <= PassedAfter(bound, s, step)
  {
    TickReach(s, snap, step, s');
    TickMarks(step.cfg, s.agent, step.input, s'.agent, step.report, s.ack);
    hide FA.TickRel, RunMarks;
  }

  lemma {:induction false} BuildTick(s: System, snap: System, cfg: FA.Config, now: int, agent: FA.AgentState,
                                     rep: FA.TickReport) returns (step: Step, s': System)
    requires FA.TickRel(cfg, s.agent, Furthest(s, snap, now), agent, rep)
    ensures TickOn(s, snap, cfg, now, step, s') && Settles(s, step) == rep.settled
    ensures step.landed && step.input == Furthest(s, snap, now)
  {
    hide FA.TickRel, RunMarks;
    step := Ticks(cfg, Furthest(s, snap, now), rep, true, 0);
    s' := s.(agent := agent, ack := RunMarks(s.ack, rep.commands),
             forwarded := s.forwarded + (set x | x in rep.applied && x in snap.ident :: snap.ident[x]));
  }

  lemma {:induction false} TickOnIsTicked(s: System, snap: System, cfg: FA.Config, now: int, step: Step, s': System)
    requires TickOn(s, snap, cfg, now, step, s')
    ensures step.Ticks? && Ticked(s, snap, step, s')
  {
  }

  /** Ticks at this clock on this snapshot keep "what was passed was forwarded", whatever the master accepts and
      whether or not the ack write lands, exactly when no id they can reach was reused for a request that is still
      to be forwarded. By the ack, a request that lies between the ack and the running agent's cursor must not be
      reachable either. */
  lemma {:induction false} NoReuseExactly(bound: Bound, s: System, snap: System, cfg: FA.Config, now: int)
    requires Inv(bound, s) && SnapshotOk(s, snap)
    ensures NoReuse(bound, s, snap, cfg, now)
       <==> forall step, s' | TickOn(s, snap, cfg, now, step, s') :: PassedForwarded(bound, s')
  {
    hide Inv, SnapshotOk, CanReach, PassedForwarded, SameRequest, TickOn, Passed, Floor;
    if NoReuse(bound, s, snap, cfg, now) {
      forall step, s' | TickOn(s, snap, cfg, now, step, s')
        ensures PassedForwarded(bound, s')
      {
        NoReuseIsSafe(bound, s, snap, cfg, now, step, s');
      }
    } else {
      var id, reach :| id in s.ident && Passed(bound, s) < id <= reach && CanReach(s, snap, cfg, now, reach)
                       && !(s.ident[id] in s.forwarded || (SameRequest(s, snap, id) && Floor(s) < id));
      var step, s' := ReuseIsUnsafe(bound, s, snap, cfg, now, id, reach);
    }
  }
}
