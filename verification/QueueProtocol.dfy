/** The whole forward-queue protocol as a transition system: engine-side writers, the laptop agent's ticks, lost ack
    writes, agent restarts and cancellations. Ids can be reused once a queue entry has expired, so every request also
    has an identity of its own, which no step of the program can see. */
module QueueProtocol {
  import opened RequestQueue
  import FA = ForwardAgent
  import AP = AgentProperties
  import D = Declare

  /** ident names the request behind each pending id; identities are handed out in order from next. */
  datatype System = System(
    queue: QueueValue, ack: Uint64, agent: FA.AgentState,
    ident: map<Uint64, int>, next: nat, forwarded: set<int>, expired: set<int>)

  datatype Step =
    | Declares(d: D.Declarer, listeners: seq<Port>, now: int)
    | Requests(version: string, port: Port, now: int)
    /** A tick that read the queue of the seen-th state of the run and whose ack write may be lost. */
    | Ticks(cfg: FA.Config, input: FA.TickInput, report: FA.TickReport, landed: bool, seen: nat)
    | Cancels(cancels: Uint64 -> bool)
    | Restarts

  ghost predicate Init(s: System) {
    s == System(EMPTY_QUEUE, 0, FA.FRESH_AGENT, map[], 0, {}, {})
  }

  // ---- Writers ---------------------------------------------------------------

  function TtlDropped(s: System, cutoff: Uint64): set<int>
    requires s.ident.Keys == FA.IdSet(s.queue.pending)
  {
    set r | r in s.queue.pending && r.id > s.ack && Expired(r, cutoff) :: s.ident[r.id]
  }

  /** The queue is rewritten as its pruned form plus some requests with new identities. */
  ghost predicate Rewritten(s: System, cutoff: Uint64, added: seq<Request>, s': System)
    requires s.ident.Keys == FA.IdSet(s.queue.pending)
  {
    var p := Pruned(s.queue, s.ack, cutoff);
    && s'.queue == QueueValue(p.lastConsumedId, p.pending + added)
    && s'.ack == s.ack && s'.agent == s.agent && s'.forwarded == s.forwarded
    && s'.expired == s.expired + TtlDropped(s, cutoff)
    && s'.next == s.next + |added|
    && s'.ident.Keys == FA.IdSet(s'.queue.pending)
    && (forall r | r in p.pending :: r.id in s.ident && s'.ident[r.id] == s.ident[r.id])
    && (forall i | 0 <= i < |added| :: added[i] in s'.queue.pending && s'.ident[added[i].id] == s.next + i)
  }

  /** The one request the ports pane adds. */
  function PaneAdded(version: string, q: QueueValue, ack: Uint64, port: Port, now: int): seq<Request>
    requires D.HasRoom(q, ack, now, DEFAULT_TTL, 1)
  {
    [D.FromPane(version, now, MaxId(D.PrunedAt(q, ack, now, DEFAULT_TTL)) + 1, port)]
  }

  // ---- Ticks -----------------------------------------------------------------

  /** What the ack file holds after the remote side has run these commands: marks only ever raise it. */
  function RunMarks(ack: Uint64, commands: seq<FA.Command>): Uint64 {
    if commands == [] then ack
    else
      var a := RunMarks(ack, commands[..|commands| - 1]);
      var last := commands[|commands| - 1];
      if last.Mark? && last.id > a then last.id else a
  }

  /** The ack file after a tick, whose ack write may be lost. */
  function AckAfter(s: System, step: Step): Uint64
    requires step.Ticks?
  {
    if step.landed then RunMarks(s.ack, step.report.commands) else s.ack
  }

  ghost predicate Ticked(s: System, snap: System, step: Step, s': System)
    requires step.Ticks?
  {
    && (step.input.queue.Some? ==> step.input.queue.value == snap.queue.pending)
    && (step.input.ackSeed.Some? ==> step.input.ackSeed.value <= s.ack)
    && FA.TickRel(step.cfg, s.agent, step.input, s'.agent, step.report)
    && s'.queue == s.queue && s'.ident == s.ident && s'.next == s.next && s'.expired == s.expired
    && s'.ack == AckAfter(s, step)
    && s'.forwarded == s.forwarded + (set id | id in step.report.applied && id in snap.ident :: snap.ident[id])
  }

  // ---- Steps and runs ----------------------------------------------------------

  function Last(past: seq<System>): System
    requires past != []
  {
    past[|past| - 1]
  }

  ghost predicate StepRel(past: seq<System>, step: Step, s': System)
    requires past != []
  {
    var s := Last(past);
    match step
    case Declares(d, listeners, now) =>
      var ttl := EffectiveTtl(d.ttl);
      && s.ident.Keys == FA.IdSet(s.queue.pending)
      && D.HasRoom(s.queue, s.ack, now, ttl, |listeners|)
      && Rewritten(s, Cutoff(now, ttl), D.Added(d, s.queue, s.ack, listeners, now), s')
    case Requests(version, port, now) =>
      && s.ident.Keys == FA.IdSet(s.queue.pending)
      && D.HasRoom(s.queue, s.ack, now, DEFAULT_TTL, 1)
      && Rewritten(s, Cutoff(now, DEFAULT_TTL),
                   PaneAdded(version, s.queue, s.ack, port, now), s')
    case Ticks(_, _, _, _, seen) => seen < |past| && Ticked(s, past[seen], step, s')
    case Cancels(cancels) => s' == s.(agent := s.agent.(applied := FA.Uncancelled(s.agent, cancels)))
    case Restarts => s' == s.(agent := FA.FRESH_AGENT)
  }

  ghost predicate Run(run: seq<System>, steps: seq<Step>) {
    && |run| == |steps| + 1
    && Init(run[0])
    && forall i | 0 <= i < |steps| :: StepRel(run[..i + 1], steps[i], run[i + 1])
  }

  // ---- The invariant -------------------------------------------------------------

  function Max(a: Uint64, b: Uint64): Uint64 {
    if a < b then b else a
  }

  ghost predicate Accounted(s: System, u: int) {
    u in s.ident.Values || u in s.forwarded || u in s.expired
  }

  ghost predicate IdentOk(s: System) {
    && s.ident.Keys == FA.IdSet(s.queue.pending)
    && (forall id | id in s.ident :: 0 <= s.ident[id] < s.next)
    && (forall a, b | a in s.ident && b in s.ident && s.ident[a] == s.ident[b] :: a == b)
    && (forall u | u in s.forwarded || u in s.expired :: 0 <= u < s.next)
  }

  /** Up to where a request counts as passed: the remote ack alone, or the running agent's cursor as well. */
  datatype Bound = ByAck | ByCursor

  function Passed(bound: Bound, s: System): Uint64 {
    if bound.ByAck? then s.ack else Max(s.ack, s.agent.lastAcked)
  }

  /** Every pending request that was passed was forwarded. By the ack, this is the rule that ack follows apply: a
      pending request at or below the ack is dropped by the next rewrite. By the cursor it says more, of the ids
      that the running agent will not look at again but a restarted one would. */
  ghost predicate PassedForwarded(bound: Bound, s: System) {
    forall id | id in s.ident && id <= Passed(bound, s) :: s.ident[id] in s.forwarded
  }

  ghost predicate Inv(bound: Bound, s: System) {
    && StrictlySorted(s.queue.pending)
    && FA.AgentInv(s.agent)
    && IdentOk(s)
    && PassedForwarded(bound, s)
    && forall u | 0 <= u < s.next :: Accounted(s, u)
  }

  // ---- When a step is safe ---------------------------------------------------------

  /** The ids a writer is about to hand out lie above the running agent's cursor, if that counts. */
  ghost predicate Visible(bound: Bound, s: System, cutoff: Uint64, added: seq<Request>) {
    bound.ByAck? || added == [] || MaxId(Pruned(s.queue, s.ack, cutoff)) >= s.agent.lastAcked
  }

  /** The id stands for one request now and in the snapshot. */
  predicate SameRequest(s: System, snap: System, id: Uint64) {
    id in s.ident && id in snap.ident && snap.ident[id] == s.ident[id]
  }

  /** The cursor a tick starts from. */
  function Start(s: System, step: Step): Uint64
    requires step.Ticks?
  {
    FA.Base(s.agent, step.input)
  }

  /** The cursor a tick ends with. */
  function Settles(s: System, step: Step): Uint64
    requires step.Ticks?
  {
    if step.input.queue.Some? then step.report.settled else s.agent.lastAcked
  }

  function PassedAfter(bound: Bound, s: System, step: Step): Uint64
    requires step.Ticks?
  {
    if bound.ByAck? then AckAfter(s, step) else Max(s.ack, Settles(s, step))
  }

  /** Each request that the tick newly passes was forwarded before, or is the very request of its id in the snapshot and
      lies above the cursor the tick starts from. */
  ghost predicate TickSafe(bound: Bound, s: System, snap: System, step: Step)
    requires step.Ticks?
  {
    forall id | id in s.ident && Passed(bound, s) < id <= PassedAfter(bound, s, step) ::
      s.ident[id] in s.forwarded || (SameRequest(s, snap, id) && Start(s, step) < id)
  }

  ghost predicate Safe(bound: Bound, past: seq<System>, step: Step)
    requires past != []
  {
    var s := Last(past);
    match step
    case Declares(d, listeners, now) =>
      var ttl := EffectiveTtl(d.ttl);
      D.HasRoom(s.queue, s.ack, now, ttl, |listeners|) ==>
        Visible(bound, s, Cutoff(now, ttl), D.Added(d, s.queue, s.ack, listeners, now))
    case Requests(version, port, now) =>
      bound.ByAck? || MaxId(D.PrunedAt(s.queue, s.ack, now, DEFAULT_TTL)) >= s.agent.lastAcked
    case Ticks(_, _, _, _, seen) => seen < |past| ==> TickSafe(bound, s, past[seen], step)
    case Cancels(_) => true
    case Restarts => true
  }

  // ---- Writers keep the invariant ----------------------------------------------------

  /** New requests carry consecutive ids from just above everything the pruned queue knows. */
  ghost predicate FreshIds(p: QueueValue, added: seq<Request>) {
    forall i | 0 <= i < |added| :: added[i].id == MaxId(p) + 1 + i
  }

  lemma {:induction false} InPending(s: System, id: Uint64) returns (r: Request)
    requires s.ident.Keys == FA.IdSet(s.queue.pending) && id in s.ident
    ensures r in s.queue.pending && r.id == id
  {
    assert id in FA.IdSet(s.queue.pending);
    r :| r in s.queue.pending && r.id == id;
  }

  /** A rewritten queue holds, under each id, either a survivor or one of the new requests. */
  lemma {:induction false} RewrittenIdent(s: System, cutoff: Uint64, added: seq<Request>, s': System, id: Uint64)
    requires IdentOk(s) && Rewritten(s, cutoff, added, s') && id in s'.ident
    ensures
      || (id in s.ident && s'.ident[id] == s.ident[id] && exists r | r in Pruned(s.queue, s.ack, cutoff).pending :: r.id == id)
      || exists i | 0 <= i < |added| :: id == added[i].id && s'.ident[id] == s.next + i
  {
    var r := InPending(s', id);
    var p := Pruned(s.queue, s.ack, cutoff);
    if r in p.pending {
    } else {
      assert r in added;
      var i :| 0 <= i < |added| && added[i] == r;
    }
  }

  lemma {:induction false} FreshAbove(p: QueueValue, added: seq<Request>, i: nat)
    requires FreshIds(p, added) && i < |added|
    ensures AboveAll(added[i].id, p)
  {
    MaxOfIsMaximum(p.lastConsumedId, p.pending);
  }

  lemma {:induction false} TtlDroppedBounded(s: System, cutoff: Uint64)
    requires IdentOk(s)
    ensures forall u | u in TtlDropped(s, cutoff) :: 0 <= u < s.next
  {
    forall r | r in s.queue.pending
      ensures r.id in s.ident
    {
      assert r.id in FA.IdSet(s.queue.pending);
    }
  }

  lemma {:induction false} RewriteKeepsIdent(s: System, cutoff: Uint64, added: seq<Request>, s': System)
    requires IdentOk(s) && Rewritten(s, cutoff, added, s') && FreshIds(Pruned(s.queue, s.ack, cutoff), added)
    ensures IdentOk(s')
  {
    TtlDroppedBounded(s, cutoff);
    forall id | id in s'.ident
      ensures 0 <= s'.ident[id] < s'.next
    {
      RewrittenIdent(s, cutoff, added, s', id);
    }
    forall a, b | a in s'.ident && b in s'.ident && s'.ident[a] == s'.ident[b]
      ensures a == b
    {
      RewrittenIdent(s, cutoff, added, s', a);
      RewrittenIdent(s, cutoff, added, s', b);
    }
  }

  lemma {:induction false} AckBelowFloor(s: System, cutoff: Uint64)
    ensures MaxId(Pruned(s.queue, s.ack, cutoff)) >= s.ack
  {
    var p := Pruned(s.queue, s.ack, cutoff);
    MaxOfIsMaximum(p.lastConsumedId, p.pending);
  }

  /** Nothing unforwarded slips under the ack by a rewrite, and under the cursor exactly when the new ids are not
      visible to the agent. */
  lemma {:induction false} RewritePassedForwarded(bound: Bound, s: System, cutoff: Uint64, added: seq<Request>,
                                                  s': System)
    requires IdentOk(s) && PassedForwarded(bound, s) && Rewritten(s, cutoff, added, s')
    requires FreshIds(Pruned(s.queue, s.ack, cutoff), added)
    ensures PassedForwarded(bound, s') <==> Visible(bound, s, cutoff, added)
  {
    var p := Pruned(s.queue, s.ack, cutoff);
    AckBelowFloor(s, cutoff);
    if Visible(bound, s, cutoff, added) {
      forall id | id in s'.ident && id <= Passed(bound, s')
        ensures s'.ident[id] in s'.forwarded
      {
        RewrittenIdent(s, cutoff, added, s', id);
        if i :| 0 <= i < |added| && id == added[i].id && s'.ident[id] == s.next + i {
          assert false;
        }
      }
    } else {
      FreshAbove(p, added, 0);
      assert added[0].id in s'.ident && s'.ident[added[0].id] == s.next;
      assert added[0].id <= s.agent.lastAcked;
    }
  }

  lemma {:induction false} IdentifiedIsAccounted(s: System, id: Uint64)
    requires id in s.ident
    ensures Accounted(s, s.ident[id])
  {
  }

  /** A request that leaves the queue was forwarded or had expired unacknowledged. */
  lemma {:induction false} PendingIsIdentified(s: System, r: Request)
    requires s.ident.Keys == FA.IdSet(s.queue.pending) && r in s.queue.pending
    ensures r.id in s.ident
  {
    assert r.id in FA.IdSet(s.queue.pending);
  }

  lemma {:induction false} NewIsIdentified(s: System, cutoff: Uint64, added: seq<Request>, s': System, i: nat)
    requires s.ident.Keys == FA.IdSet(s.queue.pending) && Rewritten(s, cutoff, added, s') && i < |added|
    ensures added[i].id in s'.ident && s'.ident[added[i].id] == s.next + i
  {
    assert added[i] in s'.queue.pending;
    assert added[i].id in FA.IdSet(s'.queue.pending);
  }

  lemma {:induction false} RewriteAccounts(s: System, cutoff: Uint64, added: seq<Request>, s': System, u: int)
    requires IdentOk(s) && PassedForwarded(ByAck, s) && Rewritten(s, cutoff, added, s')
    requires 0 <= u < s'.next && (u < s.next ==> Accounted(s, u))
    ensures Accounted(s', u)
  {
    hide Survivors, FA.IdSet, Expired, MaxOf;
    if u >= s.next {
      var i := u - s.next;
      NewIsIdentified(s, cutoff, added, s', i);
      IdentifiedIsAccounted(s', added[i].id);
    } else if u in s.ident.Values {
      var id :| id in s.ident && s.ident[id] == u;
      var r := InPending(s, id);
      SurvivorsExact(s.queue.pending, s.ack, cutoff);
      if r.id > s.ack && !Expired(r, cutoff) {
        assert r in Pruned(s.queue, s.ack, cutoff).pending;
        assert r in s'.queue.pending;
        PendingIsIdentified(s', r);
        IdentifiedIsAccounted(s', id);
      } else if r.id > s.ack {
        assert u in TtlDropped(s, cutoff);
      }
    }
  }

  lemma {:induction false} AckIsPassed(bound: Bound, s: System)
    requires PassedForwarded(bound, s)
    ensures PassedForwarded(ByAck, s)
  {
  }

  /** In a good state, a writer's rewrite leaves a good state: by the ack always, by the cursor exactly when its new ids
      are visible to the agent. */
  lemma {:induction false} RewriteKeepsInv(bound: Bound, s: System, cutoff: Uint64, added: seq<Request>, s': System)
    requires Inv(bound, s) && Rewritten(s, cutoff, added, s') && StrictlySorted(s'.queue.pending)
    requires FreshIds(Pruned(s.queue, s.ack, cutoff), added)
    ensures Inv(bound, s') <==> Visible(bound, s, cutoff, added)
  {
    RewriteKeepsIdent(s, cutoff, added, s');
    RewritePassedForwarded(bound, s, cutoff, added, s');
    AckIsPassed(bound, s);
    forall u | 0 <= u < s'.next
      ensures Accounted(s', u)
    {
      if u < s.next {
        assert Accounted(s, u);
      }
      RewriteAccounts(s, cutoff, added, s', u);
    }
  }

  lemma {:induction false} DeclareKeepsInv(bound: Bound, s: System, d: D.Declarer, listeners: seq<Port>, now: int,
                                           s': System)
    requires Inv(bound, s) && StepRel([s], Declares(d, listeners, now), s')
    ensures Inv(bound, s') <==> Safe(bound, [s], Declares(d, listeners, now))
  {
    D.DeclaredSorted(d, s.queue, s.ack, listeners, now);
    hide Inv, StrictlySorted;
    RewriteKeepsInv(bound, s, Cutoff(now, EffectiveTtl(d.ttl)), D.Added(d, s.queue, s.ack, listeners, now), s');
  }

  lemma {:induction false} PaneIsFresh(version: string, q: QueueValue, ack: Uint64, port: Port, now: int)
    requires StrictlySorted(q.pending) && D.HasRoom(q, ack, now, DEFAULT_TTL, 1)
    ensures PaneAdded(version, q, ack, port, now) != []
    ensures FreshIds(Pruned(q, ack, Cutoff(now, DEFAULT_TTL)), PaneAdded(version, q, ack, port, now))
    ensures StrictlySorted(Pruned(q, ack, Cutoff(now, DEFAULT_TTL)).pending + PaneAdded(version, q, ack, port, now))
  {
    D.RequestedSorted(version, q, ack, port, now);
  }

  lemma {:induction false} RequestKeepsInv(bound: Bound, s: System, version: string, port: Port, now: int, s': System)
    requires Inv(bound, s) && StepRel([s], Requests(version, port, now), s')
    ensures Inv(bound, s') <==> Safe(bound, [s], Requests(version, port, now))
  {
    PaneIsFresh(version, s.queue, s.ack, port, now);
    hide PaneAdded, Inv, StrictlySorted, MaxOf, Survivors, FreshIds;
    RewriteKeepsInv(bound, s, Cutoff(now, DEFAULT_TTL), PaneAdded(version, s.queue, s.ack, port, now), s');
  }

  // ---- Ticks keep the invariant ---------------------------------------------------------

  lemma {:induction false} RunMarksNone(ack: Uint64, commands: seq<FA.Command>)
    requires AP.NoMark(commands)
    ensures RunMarks(ack, commands) == ack
  {
    if commands != [] {
      var n := |commands| - 1;
      assert forall cmd | cmd in commands[..n] :: cmd in commands;
      RunMarksNone(ack, commands[..n]);
      assert commands[n] in commands;
    }
  }

  /** A tick raises the ack to the cursor it settles on, if that is above its start and above the ack, and never
      lowers it. */
  lemma {:induction false} TickMarks(cfg: FA.Config, s: FA.AgentState, input: FA.TickInput, s': FA.AgentState,
                                     rep: FA.TickReport, ack: Uint64)
    requires FA.TickRel(cfg, s, input, s', rep)
    ensures RunMarks(ack, rep.commands)
         == if input.queue.Some? && rep.settled > FA.Base(s, input) then Max(ack, rep.settled) else ack
    ensures input.queue.Some? ==> FA.Base(s, input) <= rep.settled == s'.lastAcked
  {
    if input.queue.None? {
      RunMarksNone(ack, rep.commands);
    } else {
      AP.AppliedAboveBase(cfg, s, input, s', rep);
      hide FA.TickRel, AP.NoMark, RunMarks, FA.Base, FA.MarkCommands;
      var body := AP.CommandShape(cfg, s, input, s', rep);
      RunMarksNone(ack, body);
      MarkAfter(ack, body, FA.Base(s, input), rep.settled);
    }
  }

  /** An ack write after commands that leave the ack alone. */
  lemma {:induction false} MarkAfter(ack: Uint64, body: seq<FA.Command>, base: Uint64, settled: Uint64)
    requires RunMarks(ack, body) == ack
    ensures RunMarks(ack, body + FA.MarkCommands(base, settled)) == if settled > base then Max(ack, settled) else ack
  {
    var all := body + FA.MarkCommands(base, settled);
    if settled > base {
      assert all[..|all| - 1] == body && all[|all| - 1] == FA.Mark(settled);
    } else {
      assert all == body;
    }
  }

  lemma {:induction false} AppliedWerePending(
    cfg: FA.Config, s: FA.AgentState, input: FA.TickInput, s': FA.AgentState, rep: FA.TickReport)
    requires input.queue.Some? && FA.TickRel(cfg, s, input, s', rep)
    ensures forall id | id in rep.applied :: id in FA.IdSet(input.queue.value)
    ensures rep.settled > FA.Base(s, input) ==> rep.settled in FA.IdSet(input.queue.value)
  {
    hide FA.TickRel, FA.Served, FA.Candidates, FA.Firsts, FA.Base, Sorted, FA.IdSet;
    var order, k := FA.TickWitness(cfg, s, input, s', rep);
    var c := FA.Candidates(order, FA.Base(s, input));
    FA.ServedEffects(cfg, s, input, order, k, s', rep);
    AP.ServedCommands(cfg, s, input, order, k, s', rep);
    CandidatesPending(order, FA.Base(s, input), input.queue.value);
    AP.SortedPrefix(order, FA.Base(s, input), k);
    FA.FirstsExact(c[..k]);
    if k > 0 {
      assert c[k - 1] in c;
    }
    forall id | id in rep.applied
      ensures id in FA.IdSet(input.queue.value)
    {
      var done := FA.Firsts(c[..k]);
      var j :| 0 <= j < |rep.applied| && rep.applied[j] == id;
      assert done[j] in done && done[j] in c;
    }
  }

  lemma {:induction false} CandidatesPending(order: seq<Request>, base: Uint64, pending: seq<Request>)
    requires multiset(order) == multiset(pending)
    ensures forall r | r in FA.Candidates(order, base) :: r.id in FA.IdSet(pending)
  {
    FA.CandidatesExact(order, base);
    hide FA.Candidates;
    forall r | r in order
      ensures r in pending
    {
      assert r in multiset(order);
    }
  }

  /** A request that is pending in both keeps its id. */
  ghost predicate IdsKept(snap: System, s: System) {
    forall a, b | a in snap.ident && b in s.ident && snap.ident[a] == s.ident[b] :: a == b
  }

  /** Where a tick leaves the ack and the cursor: it passes nothing new without reading the queue, and nothing
      beyond the cursor it settles on. */
  lemma {:induction false} TickReach(s: System, snap: System, step: Step, s': System)
    requires FA.AgentInv(s.agent) && step.Ticks? && Ticked(s, snap, step, s')
    ensures s.ack <= s'.ack && s'.agent.lastAcked == Settles(s, step)
    ensures forall bound :: Passed(bound, s') == PassedAfter(bound, s, step) >= Passed(bound, s)
    ensures forall bound :: PassedAfter(bound, s, step) > Passed(bound, s) ==>
      step.input.queue.Some? && PassedAfter(bound, s, step) <= Settles(s, step)
    ensures Start(s, step) <= Max(s.ack, s.agent.lastAcked)
  {
    hide RunMarks, FA.Served, FA.IsOrder;
    TickMarks(step.cfg, s.agent, step.input, s'.agent, step.report, s.ack);
  }

  /** The requests a tick newly counts as forwarded are those of its applied ids in the snapshot. */
  lemma {:induction false} NewlyForwarded(s: System, snap: System, step: Step, s': System, u: int) returns (id: Uint64)
    requires step.Ticks? && Ticked(s, snap, step, s') && u in s'.forwarded && u !in s.forwarded
    ensures id in step.report.applied && id in snap.ident && snap.ident[id] == u
  {
    hide FA.TickRel, RunMarks;
    id :| id in step.report.applied && id in snap.ident && snap.ident[id] == u;
  }

  lemma {:induction false} TickKeepsQueue(s: System, snap: System, step: Step, s': System)
    requires step.Ticks? && Ticked(s, snap, step, s')
    ensures s'.ident == s.ident && s.forwarded <= s'.forwarded
  {
    hide FA.TickRel, RunMarks;
  }

  lemma {:induction false} AppliedAboveStart(s: System, snap: System, step: Step, s': System)
    requires step.Ticks? && Ticked(s, snap, step, s')
    ensures forall id | id in step.report.applied :: Start(s, step) < id
  {
    if step.input.queue.Some? {
      AP.AppliedAboveBase(step.cfg, s.agent, step.input, s'.agent, step.report);
    }
  }

  lemma {:induction false} PassedIsForwarded(s: System, snap: System, step: Step, s': System, id: Uint64)
    requires IdentOk(snap) && step.Ticks? && Ticked(s, snap, step, s') && step.input.queue.Some?
    requires SameRequest(s, snap, id) && Start(s, step) < id <= Settles(s, step)
    ensures s.ident[id] in s'.forwarded
  {
    var r := InPending(snap, id);
    hide FA.TickRel, RunMarks;
    AP.AckFollowsApply(step.cfg, s.agent, step.input, s'.agent, step.report, r);
  }

  /** Every pending request that was passed was forwarded, after a tick on any snapshot, exactly when each request newly
      passed was forwarded before or is the very request of its id in the snapshot, above the start of the tick. */
  lemma {:induction false} TickPassedForwarded(bound: Bound, s: System, snap: System, step: Step, s': System)
    requires Inv(bound, s) && IdentOk(snap) && IdsKept(snap, s) && step.Ticks? && Ticked(s, snap, step, s')
    ensures PassedForwarded(bound, s') <==> TickSafe(bound, s, snap, step)
  {
    hide Ticked, Settles, IdentOk, Passed, PassedAfter, Start, StrictlySorted, FA.AgentInv;
    TickReach(s, snap, step, s');
    AppliedAboveStart(s, snap, step, s');
    TickKeepsQueue(s, snap, step, s');
    if TickSafe(bound, s, snap, step) {
      forall id | id in s'.ident && id <= Passed(bound, s')
        ensures s'.ident[id] in s'.forwarded
      {
        if id > Passed(bound, s) && s.ident[id] !in s.forwarded {
          PassedIsForwarded(s, snap, step, s', id);
        }
      }
    }
    if PassedForwarded(bound, s') {
      forall id | id in s.ident && Passed(bound, s) < id <= PassedAfter(bound, s, step) && s.ident[id] !in s.forwarded
        ensures SameRequest(s, snap, id) && Start(s, step) < id
      {
        var x := NewlyForwarded(s, snap, step, s', s.ident[id]);
      }
    }
  }

  lemma {:induction false} TickKeepsIdent(s: System, snap: System, step: Step, s': System)
    requires IdentOk(s) && IdentOk(snap) && snap.next <= s.next && step.Ticks? && Ticked(s, snap, step, s')
    ensures IdentOk(s') && s'.next == s.next && s'.ident == s.ident
  {
    hide FA.TickRel, RunMarks;
    forall u | u in s'.forwarded
      ensures 0 <= u < s'.next
    {
      if u !in s.forwarded {
        var id := NewlyForwarded(s, snap, step, s', u);
      }
    }
  }

  /** A tick keeps the invariant exactly when it is safe, and never lowers the ack. */
  lemma {:induction false} TickKeepsInv(bound: Bound, s: System, snap: System, step: Step, s': System)
    requires Inv(bound, s) && IdentOk(snap) && IdsKept(snap, s) && snap.next <= s.next
    requires step.Ticks? && Ticked(s, snap, step, s')
    ensures Inv(bound, s') <==> TickSafe(bound, s, snap, step)
    ensures s.ack <= s'.ack
  {
    TickReach(s, snap, step, s');
    TickPassedForwarded(bound, s, snap, step, s');
    TickKeepsIdent(s, snap, step, s');
    TickKeepsAgent(s, snap, step, s');
    assert s'.queue == s.queue && s.forwarded <= s'.forwarded && s'.expired == s.expired;
    hide Ticked, FA.AgentInv, PassedForwarded, TickSafe, IdentOk, StrictlySorted, Settles, IdsKept;
    forall u | 0 <= u < s'.next
      ensures Accounted(s', u)
    {
      assert Accounted(s, u);
    }
  }

  lemma {:induction false} TickKeepsAgent(s: System, snap: System, step: Step, s': System)
    requires FA.AgentInv(s.agent) && step.Ticks? && Ticked(s, snap, step, s')
    ensures FA.AgentInv(s'.agent)
  {
    if step.input.queue.Some? {
      var order, k := FA.TickWitness(step.cfg, s.agent, step.input, s'.agent, step.report);
      hide FA.TickRel, RunMarks, FA.Served, FA.AgentInv;
      FA.ServedKeepsInv(step.cfg, s.agent, step.input, order, k, s'.agent, step.report);
    }
  }

  // ---- Whole runs ---------------------------------------------------------------------------

  lemma {:induction false} PaneFresh(version: string, q: QueueValue, ack: Uint64, port: Port, now: int)
    requires D.HasRoom(q, ack, now, DEFAULT_TTL, 1)
    ensures FreshIds(Pruned(q, ack, Cutoff(now, DEFAULT_TTL)), PaneAdded(version, q, ack, port, now))
  {
  }

  lemma {:induction false} AddedFresh(d: D.Declarer, q: QueueValue, ack: Uint64, listeners: seq<Port>, now: int)
    requires D.HasRoom(q, ack, now, EffectiveTtl(d.ttl), |listeners|)
    ensures FreshIds(Pruned(q, ack, Cutoff(now, EffectiveTtl(d.ttl))), D.Added(d, q, ack, listeners, now))
  {
    hide MaxOf, Pruned, D.NewPorts;
  }

  lemma {:induction false} RewriteKeepsIds(snap: System, s: System, cutoff: Uint64, added: seq<Request>, s': System)
    requires IdentOk(snap) && IdsKept(snap, s) && snap.next <= s.next
    requires IdentOk(s) && Rewritten(s, cutoff, added, s')
    ensures IdsKept(snap, s')
  {
    forall a, b | a in snap.ident && b in s'.ident && snap.ident[a] == s'.ident[b]
      ensures a == b
    {
      RewrittenIdent(s, cutoff, added, s', b);
    }
  }

  /** What every run keeps about identities, safe or not: they stay in order and keep their ids. */
  ghost predicate PastOk(past: seq<System>) {
    past != [] && forall snap | snap in past :: IdentOk(snap) && snap.next <= Last(past).next && IdsKept(snap, Last(past))
  }

  /** How a step leaves the identities: a rewrite, or none at all. */
  lemma {:induction false} StepIdent(past: seq<System>, step: Step, s': System) returns (cutoff: Uint64, added: seq<Request>)
    requires past != [] && StepRel(past, step, s')
    ensures step.Declares? || step.Requests? ==>
      var s := Last(past);
      && s.ident.Keys == FA.IdSet(s.queue.pending)
      && Rewritten(s, cutoff, added, s') && FreshIds(Pruned(s.queue, s.ack, cutoff), added)
    ensures !(step.Declares? || step.Requests?) ==> s'.ident == Last(past).ident && s'.next == Last(past).next
  {
    var s := Last(past);
    hide FreshIds, Rewritten, FA.TickRel, RunMarks, Pruned, FA.IdSet, PaneAdded, D.Added;
    cutoff, added := 0, [];
    match step
    case Declares(d, listeners, now) =>
      cutoff, added := Cutoff(now, EffectiveTtl(d.ttl)), D.Added(d, s.queue, s.ack, listeners, now);
      AddedFresh(d, s.queue, s.ack, listeners, now);
    case Requests(version, port, now) =>
      cutoff, added := Cutoff(now, DEFAULT_TTL), PaneAdded(version, s.queue, s.ack, port, now);
      PaneFresh(version, s.queue, s.ack, port, now);
    case _ =>
  }

  /** A step that a state's identities come through unharmed, told without the step. */
  ghost predicate Follows(past: seq<System>, s': System)
    requires past != []
  {
    IdentOk(s') && Last(past).next <= s'.next && forall snap | snap in past :: IdsKept(snap, s')
  }

  lemma {:induction false} RewriteFollows(past: seq<System>, cutoff: Uint64, added: seq<Request>, s': System)
    requires PastOk(past) && Last(past).ident.Keys == FA.IdSet(Last(past).queue.pending)
    requires Rewritten(Last(past), cutoff, added, s')
    requires FreshIds(Pruned(Last(past).queue, Last(past).ack, cutoff), added)
    ensures Follows(past, s')
  {
    var s := Last(past);
    assert s in past;
    assert s'.next == s.next + |added|;
    hide FreshIds, IdsKept, IdentOk, Rewritten, Pruned, FA.IdSet;
    RewriteKeepsIdent(s, cutoff, added, s');
    forall snap | snap in past
      ensures IdsKept(snap, s')
    {
      RewriteKeepsIds(snap, s, cutoff, added, s');
    }
  }

  lemma {:induction false} SameIdentFollows(past: seq<System>, s': System)
    requires PastOk(past) && IdentOk(s') && s'.ident == Last(past).ident && s'.next == Last(past).next
    ensures Follows(past, s')
  {
  }

  lemma {:induction false} StepFollows(past: seq<System>, step: Step, s': System)
    requires PastOk(past) && StepRel(past, step, s')
    ensures Follows(past, s')
  {
    var s := Last(past);
    assert s in past;
    var cutoff, added := StepIdent(past, step, s');
    if step.Declares? || step.Requests? {
      hide StepRel, PastOk, Follows, FreshIds, Rewritten;
      RewriteFollows(past, cutoff, added, s');
    } else if step.Ticks? {
      assert past[step.seen] in past;
      TickKeepsIdent(s, past[step.seen], step, s');
      hide StepRel, IdentOk, Follows;
      SameIdentFollows(past, s');
    } else {
      assert IdentOk(s');
      hide StepRel, IdentOk, Follows, PastOk;
      SameIdentFollows(past, s');
    }
  }

  lemma {:induction false} FollowsExtends(past: seq<System>, s': System)
    requires PastOk(past) && Follows(past, s')
    ensures PastOk(past + [s'])
  {
    IdsKeptSelf(s');
    hide IdentOk, IdsKept;
    assert forall snap | snap in past + [s'] :: snap in past || snap == s';
  }

  lemma {:induction false} StepKeepsPast(past: seq<System>, step: Step, s': System)
    requires PastOk(past) && StepRel(past, step, s')
    ensures PastOk(past + [s'])
  {
    hide PastOk, StepRel, Follows;
    StepFollows(past, step, s');
    FollowsExtends(past, s');
  }

  lemma {:induction false} IdsKeptSelf(s: System)
    requires IdentOk(s)
    ensures IdsKept(s, s)
  {
  }

  /** Every step keeps the invariant exactly when it is safe. */
  lemma {:induction false} StepKeepsInv(bound: Bound, past: seq<System>, step: Step, s': System)
    requires PastOk(past) && Inv(bound, Last(past)) && StepRel(past, step, s')
    ensures Inv(bound, s') <==> Safe(bound, past, step)
    ensures Last(past).ack <= s'.ack
  {
    var s := Last(past);
    assert s in past && Last([s]) == s;
    match step
    case Declares(d, listeners, now) => DeclareKeepsInv(bound, s, d, listeners, now, s');
    case Requests(version, port, now) => RequestKeepsInv(bound, s, version, port, now, s');
    case Ticks(_, _, _, _, seen) =>
      assert past[seen] in past;
      TickKeepsInv(bound, s, past[seen], step, s');
    case Cancels(_) => AgentChangeKeepsInv(bound, s, s');
    case Restarts => AgentChangeKeepsInv(bound, s, s');
  }

  lemma {:induction false} AgentChangeKeepsInv(bound: Bound, s: System, s': System)
    requires Inv(bound, s) && FA.AgentInv(s'.agent)
    requires s' == s.(agent := s'.agent) && s'.agent.lastAcked <= s.agent.lastAcked
    ensures Inv(bound, s')
  {
    assert forall u | 0 <= u < s.next :: Accounted(s, u) && (Accounted(s', u) <==> Accounted(s, u));
  }

  /** In every state so far every request is pending, forwarded or expired, what was passed was forwarded, and the
      ack was never higher than it is now. */
  ghost predicate AllGood(bound: Bound, run: seq<System>) {
    run != [] && forall s | s in run :: Inv(bound, s) && s.ack <= Last(run).ack
  }

  /** The invariant alone holds in every state of the run. */
  ghost predicate InvThroughout(bound: Bound, run: seq<System>) {
    forall s | s in run :: Inv(bound, s)
  }

  lemma {:induction false} RunPrefix(run: seq<System>, steps: seq<Step>)
    requires Run(run, steps) && steps != []
    ensures |run| == |steps| + 1
    ensures var n := |steps| - 1;
      && Run(run[..n + 1], steps[..n]) && run == run[..n + 1] + [run[n + 1]]
      && StepRel(run[..n + 1], steps[n], run[n + 1])
  {
    var n := |steps| - 1;
    forall i | 0 <= i < n
      ensures StepRel(run[..n + 1][..i + 1], steps[..n][i], run[..n + 1][i + 1])
    {
      assert run[..n + 1][..i + 1] == run[..i + 1];
    }
  }

  /** Every step of the run so far was safe to take. */
  ghost predicate AllSafe(bound: Bound, run: seq<System>, steps: seq<Step>)
    requires |run| == |steps| + 1
  {
    forall i | 0 <= i < |steps| :: Safe(bound, run[..i + 1], steps[i])
  }

  lemma {:induction false} AllSafeSnoc(bound: Bound, run: seq<System>, steps: seq<Step>)
    requires |run| == |steps| + 1 && steps != []
    ensures AllSafe(bound, run, steps) <==>
      AllSafe(bound, run[..|steps|], steps[..|steps| - 1]) && Safe(bound, run[..|steps|], steps[|steps| - 1])
  {
    var n := |steps| - 1;
    hide Safe;
    assert forall i | 0 <= i < n :: run[..n + 1][..i + 1] == run[..i + 1] && steps[..n][i] == steps[i];
    if AllSafe(bound, run, steps) {
      forall i | 0 <= i < n
        ensures Safe(bound, run[..n + 1][..i + 1], steps[..n][i])
      {
        assert Safe(bound, run[..i + 1], steps[i]);
      }
      assert Safe(bound, run[..n + 1], steps[n]);
    }
    if AllSafe(bound, run[..n + 1], steps[..n]) && Safe(bound, run[..n + 1], steps[n]) {
      forall i | 0 <= i < |steps|
        ensures Safe(bound, run[..i + 1], steps[i])
      {
        if i < n {
          assert Safe(bound, run[..n + 1][..i + 1], steps[..n][i]);
        }
      }
    }
  }

  lemma {:induction false} RunKeepsPast(run: seq<System>, steps: seq<Step>)
    requires Run(run, steps)
    ensures PastOk(run)
    decreases |steps|
  {
    if steps == [] {
      assert run == [run[0]];
    } else {
      var n := |steps| - 1;
      RunPrefix(run, steps);
      hide Run, StepRel, PastOk;
      RunKeepsPast(run[..n + 1], steps[..n]);
      StepKeepsPast(run[..n + 1], steps[n], run[n + 1]);
    }
  }

  lemma {:induction false} AllGoodSnoc(bound: Bound, past: seq<System>, s: System)
    requires past != [] && Last(past).ack <= s.ack
    ensures AllGood(bound, past) && Inv(bound, s) ==> AllGood(bound, past + [s])
    ensures AllGood(bound, past + [s]) ==> Inv(bound, s)
  {
    hide Inv;
    assert s in past + [s];
    assert forall x | x in past + [s] :: x in past || x == s;
  }

  lemma {:induction false} InitIsGood(bound: Bound, run: seq<System>)
    requires |run| == 1 && Init(run[0])
    ensures AllGood(bound, run)
  {
    assert run == [run[0]];
  }

  /** No silent loss, exactly: whatever forwards fail, ack writes vanish, snapshots go stale and agents restart, every
      request ever enqueued is pending, was forwarded or expired, what was passed was forwarded and the ack never falls,
      in every state of a run, if and only if each of its steps was safe. The second clause needs the invariant alone.
      By the ack, this is what the program promises, and only a tick can be unsafe; by the cursor it also covers the
      requests that the running agent skips but a restarted one would still serve. */
  lemma {:induction false} NoSilentLoss(bound: Bound, run: seq<System>, steps: seq<Step>)
    requires Run(run, steps)
    ensures AllSafe(bound, run, steps) ==> AllGood(bound, run)
    ensures InvThroughout(bound, run) ==> AllSafe(bound, run, steps)
    decreases |steps|
  {
    if steps == [] {
      InitIsGood(bound, run);
    } else {
      var n := |steps| - 1;
      var past := run[..n + 1];
      RunPrefix(run, steps);
      RunKeepsPast(past, steps[..n]);
      AllSafeSnoc(bound, run, steps);
      hide Run, StepRel, PastOk, Safe, AllSafe, Inv;
      NoSilentLoss(bound, past, steps[..n]);
      assert Last(past) in past && run[n + 1] in run && forall s | s in past :: s in run;
      if Inv(bound, Last(past)) {
        StepKeepsInv(bound, past, steps[n], run[n + 1]);
        AllGoodSnoc(bound, past, run[n + 1]);
      }
    }
  }

  /** A run that is safe by the cursor is safe by the ack. */
  lemma {:induction false} SafeByCursorIsSafe(run: seq<System>, steps: seq<Step>)
    requires Run(run, steps) && AllSafe(ByCursor, run, steps)
    ensures AllSafe(ByAck, run, steps)
  {
    hide Run, AllSafe;
    NoSilentLoss(ByCursor, run, steps);
    NoSilentLoss(ByAck, run, steps);
  }

  /** Every ack write lands. */
  ghost predicate AcksLand(steps: seq<Step>) {
    forall i | 0 <= i < |steps| :: steps[i].Ticks? ==> steps[i].landed
  }

  /** Every tick works on the queue as it is: no writer comes between its read and its ack. */
  ghost predicate TicksAtomic(steps: seq<Step>) {
    forall i | 0 <= i < |steps| :: steps[i].Ticks? ==> steps[i].seen == i
  }

  lemma {:induction false} OrderlyStepIsSafe(past: seq<System>, step: Step, s': System)
    requires past != [] && FA.AgentInv(Last(past).agent) && StepRel(past, step, s')
    requires Last(past).agent.lastAcked <= Last(past).ack && (step.Ticks? ==> step.seen == |past| - 1)
    ensures Safe(ByCursor, past, step)
  {
    var s := Last(past);
    match step
    case Declares(d, _, now) => AckBelowFloor(s, Cutoff(now, EffectiveTtl(d.ttl)));
    case Requests(_, _, now) => AckBelowFloor(s, Cutoff(now, DEFAULT_TTL));
    case Ticks(_, _, _, _, _) => TickReach(s, s, step, s');
    case _ =>
  }

  lemma {:induction false} OrderlyStepKeepsCursor(past: seq<System>, step: Step, s': System)
    requires past != [] && Inv(ByCursor, Last(past)) && Last(past).agent.lastAcked <= Last(past).ack
    requires StepRel(past, step, s') && (step.Ticks? ==> step.landed)
    ensures s'.agent.lastAcked <= s'.ack
  {
    var s := Last(past);
    if step.Ticks? {
      TickMarks(step.cfg, s.agent, step.input, s'.agent, step.report, s.ack);
      if step.input.queue.Some? {
        var order, k := FA.TickWitness(step.cfg, s.agent, step.input, s'.agent, step.report);
        FA.ServedRange(order, FA.Base(s.agent, step.input), k);
      }
    }
  }

  lemma {:induction false} OrderlyStart(run: seq<System>)
    requires Run(run, [])
    ensures AllSafe(ByCursor, run, []) && Last(run).agent.lastAcked <= Last(run).ack
  {
  }

  lemma {:induction false} OrderlyLast(steps: seq<Step>)
    requires AcksLand(steps) && TicksAtomic(steps) && steps != []
    ensures var n := |steps| - 1;
      AcksLand(steps[..n]) && TicksAtomic(steps[..n]) && (steps[n].Ticks? ==> steps[n].landed && steps[n].seen == n)
  {
  }

  lemma {:induction false} GoodAtLast(bound: Bound, run: seq<System>)
    requires AllGood(bound, run)
    ensures Inv(bound, Last(run)) && FA.AgentInv(Last(run).agent)
  {
    assert Last(run) in run;
  }

  /** When ticks are atomic and their ack writes land, every step is safe without further conditions. */
  lemma {:induction false} OrderlyRunsAreSafe(run: seq<System>, steps: seq<Step>)
    requires Run(run, steps) && AcksLand(steps) && TicksAtomic(steps)
    ensures AllSafe(ByCursor, run, steps) && AllGood(ByCursor, run)
    ensures Last(run).agent.lastAcked <= Last(run).ack
    decreases |steps|
  {
    hide Run, Safe, StepRel, AllSafe, AllGood, AcksLand, TicksAtomic, Inv, FA.AgentInv;
    if steps == [] {
      OrderlyStart(run);
    } else {
      var n := |steps| - 1;
      RunPrefix(run, steps);
      var past := run[..n + 1];
      OrderlyLast(steps);
      OrderlyRunsAreSafe(past, steps[..n]);
      GoodAtLast(ByCursor, past);
      OrderlyStepIsSafe(past, steps[n], run[n + 1]);
      OrderlyStepKeepsCursor(past, steps[n], run[n + 1]);
      AllSafeSnoc(ByCursor, run, steps);
    }
    NoSilentLoss(ByCursor, run, steps);
  }
}
