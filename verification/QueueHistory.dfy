/** What the account of a run means: a request counted as forwarded was forwarded by a tick of that run, one counted as
    expired was dropped by a writer that found it above the ack and older than the ttl. */
module QueueHistory {
  import opened RequestQueue
  import opened QueueProtocol
  import FA = ForwardAgent
  import D = Declare

  /** By step i a tick forwarded the request with identity u, which its snapshot held under this id. */
  ghost predicate ForwardedAt(run: seq<System>, steps: seq<Step>, u: int, i: nat, id: Uint64) {
    && |run| == |steps| + 1 && i < |steps| && steps[i].Ticks? && steps[i].seen <= i
    && id in steps[i].report.applied
    && id in run[steps[i].seen].ident && run[steps[i].seen].ident[id] == u
  }

  /** By step i a writer dropped the request r with identity u, unacknowledged and older than the ttl. */
  ghost predicate ExpiredAt(run: seq<System>, steps: seq<Step>, u: int, i: nat, r: Request) {
    && |run| == |steps| + 1 && i < |steps| && (steps[i].Declares? || steps[i].Requests?)
    && r in run[i].queue.pending && r.id in run[i].ident && run[i].ident[r.id] == u && r.id > run[i].ack
    && var ttl := if steps[i].Declares? && steps[i].d.ttl != 0 then steps[i].d.ttl else 600_000;
       r.createdUnixMs < (steps[i].now - ttl) % 0x1_0000_0000_0000_0000
  }

  lemma {:induction false} DroppedAre(s: System, cutoff: Uint64, u: int) returns (r: Request)
    requires s.ident.Keys == FA.IdSet(s.queue.pending) && u in TtlDropped(s, cutoff)
    ensures r in s.queue.pending && r.id in s.ident && s.ident[r.id] == u && r.id > s.ack && r.createdUnixMs < cutoff
  {
    forall x | x in s.queue.pending
      ensures x.id in s.ident
    {
      PendingIsIdentified(s, x);
    }
    hide FA.IdSet;
    r :| r in s.queue.pending && r.id > s.ack && Expired(r, cutoff) && s.ident[r.id] == u;
  }

  /** What a step adds to the account. */
  lemma {:induction false} StepAccounts(past: seq<System>, step: Step, s': System, u: int)
    returns (id: Uint64, r: Request)
    requires past != [] && StepRel(past, step, s')
    ensures u in s'.forwarded && u !in Last(past).forwarded ==>
      && step.Ticks? && step.seen < |past| && id in step.report.applied
      && id in past[step.seen].ident && past[step.seen].ident[id] == u
    ensures u in s'.expired && u !in Last(past).expired ==>
      && (step.Declares? || step.Requests?)
      && r in Last(past).queue.pending && r.id in Last(past).ident && Last(past).ident[r.id] == u && r.id > Last(past).ack
      && var ttl := if step.Declares? && step.d.ttl != 0 then step.d.ttl else 600_000;
         r.createdUnixMs < (step.now - ttl) % 0x1_0000_0000_0000_0000
  {
    hide MaxOf, Survivors, FA.IdSet, D.NewPorts, D.Minted, FA.TickRel, RunMarks, TtlDropped;
    var s := Last(past);
    id, r := 0, Request(0, "", 0, 0, "", "", "", 0);
    match step
    case Declares(d, _, now) =>
      if u in s'.expired && u !in s.expired {
        r := DroppedAre(s, Cutoff(now, EffectiveTtl(d.ttl)), u);
      }
    case Requests(_, _, now) =>
      if u in s'.expired && u !in s.expired {
        r := DroppedAre(s, Cutoff(now, DEFAULT_TTL), u);
      }
    case Ticks(_, _, _, _, seen) =>
      if u in s'.forwarded && u !in s.forwarded {
        id := NewlyForwarded(s, past[seen], step, s', u);
      }
    case _ =>
  }

  ghost predicate WasForwarded(run: seq<System>, steps: seq<Step>, u: int) {
    exists i: nat, id: Uint64 :: ForwardedAt(run, steps, u, i, id)
  }

  ghost predicate WasExpired(run: seq<System>, steps: seq<Step>, u: int) {
    exists i: nat, r: Request :: ExpiredAt(run, steps, u, i, r)
  }

  lemma {:induction false} Longer(run: seq<System>, steps: seq<Step>, u: int)
    requires |run| == |steps| + 1 && steps != []
    ensures WasForwarded(run[..|steps|], steps[..|steps| - 1], u) ==> WasForwarded(run, steps, u)
    ensures WasExpired(run[..|steps|], steps[..|steps| - 1], u) ==> WasExpired(run, steps, u)
  {
    var n := |steps| - 1;
    if WasForwarded(run[..n + 1], steps[..n], u) {
      var i: nat, id: Uint64 :| ForwardedAt(run[..n + 1], steps[..n], u, i, id);
      assert ForwardedAt(run, steps, u, i, id);
    }
    if WasExpired(run[..n + 1], steps[..n], u) {
      var i: nat, r: Request :| ExpiredAt(run[..n + 1], steps[..n], u, i, r);
      assert ExpiredAt(run, steps, u, i, r);
    }
  }

  /** In every run, safe or not, the account is truthful. */
  lemma {:induction false} AccountIsTrue(run: seq<System>, steps: seq<Step>, u: int)
    requires Run(run, steps)
    ensures u in Last(run).forwarded ==> WasForwarded(run, steps, u)
    ensures u in Last(run).expired ==> WasExpired(run, steps, u)
    decreases |steps|
  {
    hide Run, StepRel, WasForwarded, WasExpired;
    if steps == [] {
      NothingAtFirst(run);
    } else {
      RunPrefix(run, steps);
      var n := |steps| - 1;
      var past := run[..n + 1];
      AccountIsTrue(past, steps[..n], u);
      Longer(run, steps, u);
      var id, r := StepAccounts(past, steps[n], run[n + 1], u);
      if u in run[n + 1].forwarded && u !in Last(past).forwarded {
        ForwardedNow(run, steps, u, id);
      }
      if u in run[n + 1].expired && u !in Last(past).expired {
        ExpiredNow(run, steps, u, r);
      }
    }
  }

  lemma {:induction false} NothingAtFirst(run: seq<System>)
    requires Run(run, [])
    ensures Last(run).forwarded == {} && Last(run).expired == {}
  {
  }

  lemma {:induction false} ForwardedNow(run: seq<System>, steps: seq<Step>, u: int, id: Uint64)
    requires |run| == |steps| + 1 && steps != []
    requires var step, past := steps[|steps| - 1], run[..|steps|];
      && step.Ticks? && step.seen < |past| && id in step.report.applied
      && id in past[step.seen].ident && past[step.seen].ident[id] == u
    ensures WasForwarded(run, steps, u)
  {
    assert ForwardedAt(run, steps, u, |steps| - 1, id);
  }

  lemma {:induction false} ExpiredNow(run: seq<System>, steps: seq<Step>, u: int, r: Request)
    requires |run| == |steps| + 1 && steps != []
    requires var step, s := steps[|steps| - 1], Last(run[..|steps|]);
      && (step.Declares? || step.Requests?)
      && r in s.queue.pending && r.id in s.ident && s.ident[r.id] == u && r.id > s.ack
      && var ttl := if step.Declares? && step.d.ttl != 0 then step.d.ttl else 600_000;
         r.createdUnixMs < (step.now - ttl) % 0x1_0000_0000_0000_0000
    ensures WasExpired(run, steps, u)
  {
    assert ExpiredAt(run, steps, u, |steps| - 1, r);
  }

  /** No silent loss, with the account spelled out: at the end of a run all of whose steps were safe by the ack,
      every request ever enqueued is pending, or a tick of the run forwarded it, or a writer of the run found it
      unacknowledged and older than its ttl. Every pending request that the ack has passed is one of those
      forwarded. */
  lemma {:induction false} EveryRequestEndsWell(run: seq<System>, steps: seq<Step>, u: int)
    requires Run(run, steps) && AllSafe(ByAck, run, steps) && 0 <= u < Last(run).next
    ensures
      || (exists r :: r in Last(run).queue.pending && r.id in Last(run).ident && Last(run).ident[r.id] == u)
      || WasForwarded(run, steps, u)
      || WasExpired(run, steps, u)
    ensures forall r | r in Last(run).queue.pending && r.id <= Last(run).ack ::
      r.id in Last(run).ident && WasForwarded(run, steps, Last(run).ident[r.id])
  {
    hide Run, AllSafe, WasForwarded, WasExpired, StrictlySorted, FA.AgentInv;
    NoSilentLoss(ByAck, run, steps);
    assert Last(run) in run;
    var s := Last(run);
    assert Accounted(s, u);
    AccountIsTrue(run, steps, u);
    if u in s.ident.Values {
      var id :| id in s.ident && s.ident[id] == u;
      var r := InPending(s, id);
    }
    forall r | r in s.queue.pending && r.id <= s.ack
      ensures r.id in s.ident && WasForwarded(run, steps, s.ident[r.id])
    {
      PendingIsIdentified(s, r);
      AccountIsTrue(run, steps, s.ident[r.id]);
    }
  }

  // ---- What can always happen ------------------------------------------------------------

  /** A tick the agent can take on any state of the run so far is a step of the protocol, whether or not its ack write
      lands: the agent goes on as the tick leaves it, and a write that lands raises the ack to the settled cursor. */
  lemma {:induction false} TickIsStep(past: seq<System>, seen: nat, cfg: FA.Config, input: FA.TickInput,
                                      agent: FA.AgentState, rep: FA.TickReport, landed: bool) returns (s': System)
    requires seen < |past| && FA.TickRel(cfg, Last(past).agent, input, agent, rep)
    requires input.queue.Some? ==> input.queue.value == past[seen].queue.pending
    requires input.ackSeed.Some? ==> input.ackSeed.value <= Last(past).ack
    ensures StepRel(past, Ticks(cfg, input, rep, landed, seen), s')
    ensures s'.agent == agent && s'.queue == Last(past).queue
    ensures s'.ack ==
      if landed && input.queue.Some? && rep.settled > FA.Base(Last(past).agent, input) && rep.settled > Last(past).ack
      then rep.settled else Last(past).ack
  {
    var s, snap := Last(past), past[seen];
    TickMarks(cfg, s.agent, input, agent, rep, s.ack);
    hide FA.TickRel, RunMarks, FA.Base;
    s' := s.(agent := agent, ack := if landed then RunMarks(s.ack, rep.commands) else s.ack,
             forwarded := s.forwarded + (set x | x in rep.applied && x in snap.ident :: snap.ident[x]));
  }

  /** The agent can restart at any time, which forgets its cursor and all it has applied, and can cancel its forwards. */
  lemma {:induction false} AgentMayRestart(past: seq<System>, cancels: Uint64 -> bool)
    requires past != []
    ensures StepRel(past, Restarts, Last(past).(agent := FA.AgentState({}, map[], {}, 0, false)))
    ensures StepRel(past, Cancels(cancels), Last(past).(agent := Last(past).agent.(applied :=
      set id | id in Last(past).agent.applied && !(id in Last(past).agent.specs && cancels(id)))))
  {
  }
}
