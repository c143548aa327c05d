/** Two runs of the queue protocol that lose a request, one for each hypothesis of the no-loss theorem: an ack write
    that does not land, and a tick that acts on a snapshot older than a declaration. In both the lost request carries
    an id that an expired request carried before it. Before its last two steps the first of them has lost nothing yet,
    although the running agent's cursor has passed the request. */
module QueueLosses {
  import opened Wrappers
  import opened RequestQueue
  import opened QueueProtocol
  import FA = ForwardAgent
  import D = Declare

  const DECLARER := D.Declarer("", "", 0)
  const CONFIG := FA.Config("engine", "", 0)

  function At(id: Uint64, port: Port, now: int): Request {
    D.Discovered(DECLARER, now, id, port)
  }

  function Input(queue: seq<Request>, ack: Uint64, now: int): FA.TickInput {
    FA.TickInput(Some(queue), Some(ack), now, r => true)
  }

  lemma {:induction false} NothingTaken(listeners: seq<Port>)
    ensures D.NewPorts(listeners, {}) == listeners
  {
    if listeners != [] {
      NothingTaken(listeners[..|listeners| - 1]);
    }
  }

  function Fresh(listeners: seq<Port>, now: int): (s: seq<Request>)
    requires |listeners| < 10
    ensures |s| == |listeners|
    ensures forall i | 0 <= i < |s| :: s[i] == At(1 + i, listeners[i], now)
  {
    D.Minted(DECLARER, now, 1, listeners)
  }

  lemma {:induction false} AddedOnEmpty(q: QueueValue, listeners: seq<Port>, now: int)
    requires |listeners| < 10 && D.PrunedAt(q, 0, now, DEFAULT_TTL) == EMPTY_QUEUE
    ensures D.HasRoom(q, 0, now, DEFAULT_TTL, |listeners|)
    ensures D.Added(DECLARER, q, 0, listeners, now) == Fresh(listeners, now)
  {
    hide Pruned, D.NewPorts, D.Minted;
    NothingTaken(listeners);
    assert D.Ports([]) == {};
  }

  /** Declaring ports on a queue that the prune empties hands out the ids from 1 on again. */
  lemma {:induction false} DeclareOnEmptied(past: seq<System>, listeners: seq<Port>, now: int, s': System)
    requires past != [] && |listeners| < 10
    requires var s := Last(past);
      && s.ident.Keys == FA.IdSet(s.queue.pending)
      && s.ack == s.queue.lastConsumedId == 0
      && (forall r | r in s.queue.pending :: Expired(r, Cutoff(now, DEFAULT_TTL)))
      && Rewritten(s, Cutoff(now, DEFAULT_TTL), Fresh(listeners, now), s')
    ensures StepRel(past, Declares(DECLARER, listeners, now), s')
  {
    var s := Last(past);
    hide Rewritten, Survivors, D.Minted, Fresh;
    NoSurvivors(s.queue.pending, 0, Cutoff(now, DEFAULT_TTL));
    AddedOnEmpty(s.queue, listeners, now);
  }

  /** Declaring nothing when every pending request has been acknowledged empties the queue. */
  lemma {:induction false} DeclareNothing(past: seq<System>, now: int, s': System)
    requires past != []
    requires var s := Last(past);
      && s.ident.Keys == FA.IdSet(s.queue.pending)
      && (forall r | r in s.queue.pending :: r.id <= s.ack) && s.ack < 10
      && s.queue.lastConsumedId == 0
      && s' == s.(queue := QueueValue(s.ack, []), ident := map[])
    ensures StepRel(past, Declares(DECLARER, [], now), s')
  {
    var s := Last(past);
    NoSurvivors(s.queue.pending, s.ack, Cutoff(now, DEFAULT_TTL));
    assert D.PrunedAt(s.queue, s.ack, now, DEFAULT_TTL) == QueueValue(s.ack, []);
    hide Survivors, Cutoff;
    assert D.Added(DECLARER, s.queue, s.ack, [], now) == [];
    assert FA.IdSet(s'.queue.pending) == {};
    assert s.expired + TtlDropped(s, Cutoff(now, DEFAULT_TTL)) == s.expired;
  }

  // ---- A tick that forwards the last entry and skips the others ------------------------

  lemma {:induction false} NoCandidates(s: seq<Request>, base: Uint64)
    requires forall r | r in s :: r.id <= base
    ensures FA.Candidates(s, base) == []
  {
    if s != [] {
      NoCandidates(s[..|s| - 1], base);
    }
  }

  lemma {:induction false} OneCandidate(r: Request, specs: map<Uint64, FA.ForwardSpec>)
    ensures FA.Firsts([r]) == [r] && FA.Ids([r]) == [r.id] && FA.IdSet([r]) == {r.id}
    ensures FA.Forwards([r]) == [FA.Forward(r.id, FA.SpecOf(r))]
    ensures FA.SpecsAfter(specs, [r]) == specs[r.id := FA.SpecOf(r)]
  {
    assert [r][..0] == [];
  }

  lemma {:induction false} LastCandidate(skipped: seq<Request>, r: Request, base: Uint64)
    requires (forall x | x in skipped :: x.id <= base) && r.id > base
    ensures FA.Candidates(skipped + [r], base) == [r]
  {
    NoCandidates(skipped, base);
    assert (skipped + [r])[..|skipped|] == skipped;
  }

  function AgentAfter(s: FA.AgentState, r: Request): FA.AgentState {
    FA.AgentState(s.applied + {r.id}, s.specs[r.id := FA.SpecOf(r)], s.reported, r.id, true)
  }

  function ReportOf(s: FA.AgentState, r: Request): FA.TickReport {
    FA.TickReport([r.id], r.id, false, None,
                  [FA.ReadQueue] + (if s.seeded then [] else [FA.ReadAck])
                  + [FA.Forward(r.id, FA.SpecOf(r))] + [] + [FA.Mark(r.id)])
  }

  lemma {:induction false} LongestOne(r: Request, input: FA.TickInput)
    requires FA.Admissible(CONFIG, input, r) && input.accepts(r)
    ensures FA.LongestServed(CONFIG, input, [r], 1)
  {
  }

  lemma {:induction false} TickForwardsLast(s: FA.AgentState, skipped: seq<Request>, r: Request, input: FA.TickInput)
    requires input.queue == Some(skipped + [r]) && Sorted(skipped + [r])
    requires forall x | x in skipped :: x.id <= FA.Base(s, input)
    requires r.id > FA.Base(s, input) && FA.Admissible(CONFIG, input, r) && input.accepts(r)
    ensures FA.TickRel(CONFIG, s, input, AgentAfter(s, r), ReportOf(s, r))
  {
    hide FA.Candidates, FA.Firsts, FA.Ids, FA.IdSet, FA.Forwards, FA.SpecsAfter, FA.Base, FA.Admissible;
    ShowOrder(skipped + [r]);
    hide FA.IsOrder, Sorted;
    LastCandidate(skipped, r, FA.Base(s, input));
    LongestOne(r, input);
    hide FA.LongestServed, FA.SpecOf;
    OneCandidate(r, s.specs);
    assert [r][..1] == [r];
    assert FA.Served(CONFIG, s, input, skipped + [r], 1, AgentAfter(s, r), ReportOf(s, r));
  }

  lemma {:induction false} ShowOrder(s: seq<Request>)
    requires Sorted(s)
    ensures FA.IsOrder(s, s)
  {
  }

  lemma {:induction false} ReportMarks(s: FA.AgentState, r: Request, ack: Uint64)
    requires ack <= r.id
    ensures RunMarks(ack, ReportOf(s, r).commands) == r.id
  {
    var commands := ReportOf(s, r).commands;
    var body := commands[..|commands| - 1];
    assert AP.NoMark(body);
    RunMarksNone(ack, body);
  }

  lemma {:induction false} ReportApplies(s: FA.AgentState, r: Request)
    ensures ReportOf(s, r).applied == [r.id]
  {
  }

  /** The system after such a tick. */
  function SystemAfter(s: System, snap: System, r: Request, ack: Uint64): System
    requires r.id in snap.ident
  {
    s.(agent := AgentAfter(s.agent, r), forwarded := s.forwarded + {snap.ident[r.id]}, ack := ack)
  }

  lemma {:induction false} OneValue(ident: map<Uint64, int>, id: Uint64)
    requires id in ident
    ensures (set x | x in [id] && x in ident :: ident[x]) == {ident[id]}
  {
  }

  lemma {:induction false} TickStep(past: seq<System>, seen: nat, skipped: seq<Request>, r: Request,
                                    input: FA.TickInput, landed: bool)
    requires seen < |past| && past[seen].queue.pending == skipped + [r] && r.id in past[seen].ident
    requires Last(past).ack <= r.id
    requires input.queue == Some(skipped + [r]) && input.ackSeed == Some(Last(past).ack) && Sorted(skipped + [r])
    requires forall x | x in skipped :: x.id <= FA.Base(Last(past).agent, input)
    requires r.id > FA.Base(Last(past).agent, input) && FA.Admissible(CONFIG, input, r) && input.accepts(r)
    ensures var s := Last(past);
      StepRel(past, Ticks(CONFIG, input, ReportOf(s.agent, r), landed, seen),
              SystemAfter(s, past[seen], r, if landed then r.id else s.ack))
  {
    TickedOne(Last(past), past[seen], seen, skipped, r, input, landed);
    hide Ticked, SystemAfter, ReportOf;
  }

  lemma {:induction false} TickedOne(s: System, snap: System, seen: nat, skipped: seq<Request>, r: Request,
                                     input: FA.TickInput, landed: bool)
    requires snap.queue.pending == skipped + [r] && r.id in snap.ident && s.ack <= r.id
    requires input.queue == Some(skipped + [r]) && input.ackSeed == Some(s.ack) && Sorted(skipped + [r])
    requires forall x | x in skipped :: x.id <= FA.Base(s.agent, input)
    requires r.id > FA.Base(s.agent, input) && FA.Admissible(CONFIG, input, r) && input.accepts(r)
    ensures Ticked(s, snap, Ticks(CONFIG, input, ReportOf(s.agent, r), landed, seen),
                   SystemAfter(s, snap, r, if landed then r.id else s.ack))
  {
    hide FA.TickRel, FA.Admissible, Sorted, RunMarks, FA.Base, AgentAfter, ReportOf;
    TickForwardsLast(s.agent, skipped, r, input);
    ReportMarks(s.agent, r, s.ack);
    ReportApplies(s.agent, r);
    OneValue(snap.ident, r.id);
  }

  // ---- The losing runs -------------------------------------------------------------------

  const T1: int := 1_000_000
  const T2: int := 2_000_000

  /** Neither pending, nor ever forwarded, nor dropped as expired. */
  ghost predicate Lost(s: System, u: int) {
    0 <= u < s.next && !Accounted(s, u)
  }

  function S0(): System { System(EMPTY_QUEUE, 0, FA.FRESH_AGENT, map[], 0, {}, {}) }
  function A1(): Request { At(1, 80, T1) }
  function B1(): Request { At(1, 81, T2) }
  function B2(): Request { At(2, 82, T2) }
  function S1(): System { S0().(queue := QueueValue(0, [A1()]), ident := map[1 := 0], next := 1) }

  function S2(): System { SystemAfter(S1(), S1(), A1(), 0) }
  function S3(): System { S2().(queue := QueueValue(0, [B1(), B2()]), ident := map[1 := 1, 2 := 2], next := 3, expired := {0}) }
  function S4(): System { SystemAfter(S3(), S3(), B2(), 2) }
  function S5(): System { S4().(queue := QueueValue(2, []), ident := map[]) }

  lemma {:induction false} FirstDeclare(past: seq<System>)
    requires past != [] && Last(past) == S0()
    ensures StepRel(past, Declares(DECLARER, [80], T1), S1())
  {
    FirstFacts();
    hide Fresh, FA.IdSet, Survivors, Cutoff, TtlDropped, A1, StepRel, Rewritten;
    RewrittenWhole(S0(), Cutoff(T1, DEFAULT_TTL), [A1()], S1());
    DeclareOnEmptied(past, [80], T1, S1());
  }

  lemma {:induction false} FirstFacts()
    ensures Fresh([80], T1) == [A1()] && A1().id == 1 && FA.IdSet([A1()]) == {1} && FA.IdSet([]) == {}
    ensures Pruned(EMPTY_QUEUE, 0, Cutoff(T1, DEFAULT_TTL)) == EMPTY_QUEUE
    ensures TtlDropped(S0(), Cutoff(T1, DEFAULT_TTL)) == {}
  {
    hide Cutoff;
    assert A1() in [A1()];
  }

  lemma {:induction false} TwoIds()
    ensures FA.IdSet([B1(), B2()]) == {1, 2} && FA.IdSet([A1()]) == {1} && FA.IdSet([B1()]) == {1}
    ensures Expired(A1(), Cutoff(T2, DEFAULT_TTL)) && Survivors([A1()], 0, Cutoff(T2, DEFAULT_TTL)) == []
  {
    assert B1() in [B1(), B2()] && B2() in [B1(), B2()] && A1() in [A1()] && B1() in [B1()];
    NoSurvivors([A1()], 0, Cutoff(T2, DEFAULT_TTL));
  }

  lemma {:induction false} RewrittenWhole(s: System, cutoff: Uint64, added: seq<Request>, s': System)
    requires s.ident.Keys == FA.IdSet(s.queue.pending) && Pruned(s.queue, s.ack, cutoff) == EMPTY_QUEUE
    requires s' == s.(queue := QueueValue(0, added), ident := s'.ident, next := s.next + |added|,
                      expired := s.expired + TtlDropped(s, cutoff))
    requires s'.ident.Keys == FA.IdSet(added)
    requires forall i | 0 <= i < |added| :: added[i].id in s'.ident && s'.ident[added[i].id] == s.next + i
    ensures Rewritten(s, cutoff, added, s')
  {
    hide Pruned, FA.IdSet, TtlDropped;
    assert [] + added == added;
  }

  lemma {:induction false} FirstExpires(s: System)
    requires s.queue == QueueValue(0, [A1()]) && s.ack == 0 && s.ident == map[1 := 0]
    ensures s.ident.Keys == FA.IdSet(s.queue.pending)
    ensures Pruned(s.queue, s.ack, Cutoff(T2, DEFAULT_TTL)) == EMPTY_QUEUE
    ensures Expired(A1(), Cutoff(T2, DEFAULT_TTL)) && TtlDropped(s, Cutoff(T2, DEFAULT_TTL)) == {0}
  {
    TwoIds();
    hide Survivors, FA.IdSet, Cutoff;
    assert A1() in s.queue.pending;
  }

  lemma {:induction false} FreshOnes()
    ensures Fresh([81], T2) == [B1()] && Fresh([81, 82], T2) == [B1(), B2()] && B1().id == 1 && B2().id == 2
  {
  }

  /** With the first request expired, the next declaration starts again at id 1. */
  lemma {:induction false} RedeclareFrom(past: seq<System>, listeners: seq<Port>, added: seq<Request>, s': System)
    requires past != [] && |listeners| < 10 && added == Fresh(listeners, T2)
    requires var s := Last(past);
      && s.queue == QueueValue(0, [A1()]) && s.ack == 0 && s.ident == map[1 := 0]
      && s' == s.(queue := QueueValue(0, added), ident := s'.ident, next := s.next + |added|, expired := s.expired + {0})
      && s'.ident.Keys == FA.IdSet(added)
      && (forall i | 0 <= i < |added| :: added[i].id in s'.ident && s'.ident[added[i].id] == s.next + i)
    ensures StepRel(past, Declares(DECLARER, listeners, T2), s')
  {
    var s := Last(past);
    FirstExpires(s);
    hide Pruned, Survivors, FA.IdSet, Fresh, Cutoff, TtlDropped, A1, StepRel, Rewritten;
    assert forall r | r in s.queue.pending :: r == A1();
    RewrittenWhole(s, Cutoff(T2, DEFAULT_TTL), added, s');
    DeclareOnEmptied(past, listeners, T2, s');
  }

  lemma {:induction false} Redeclare(past: seq<System>)
    requires past != [] && Last(past) == S2()
    ensures StepRel(past, Declares(DECLARER, [81, 82], T2), S3())
  {
    FreshOnes();
    TwoIds();
    hide FA.IdSet, Fresh, A1, B1, B2, StepRel, Survivors, Cutoff;
    RedeclareFrom(past, [81, 82], [B1(), B2()], S3());
  }

  lemma {:induction false} ExtendRun(run: seq<System>, steps: seq<Step>, step: Step, s': System)
    requires Run(run, steps) && StepRel(run, step, s')
    ensures Run(run + [s'], steps + [step])
  {
    var all, more := run + [s'], steps + [step];
    forall i | 0 <= i < |more|
      ensures StepRel(all[..i + 1], more[i], all[i + 1])
    {
      if i < |steps| {
        assert all[..i + 1] == run[..i + 1];
      } else {
        assert all[..i + 1] == run;
      }
    }
  }

  lemma {:induction false} RunOfFour(s0: System, s1: System, s2: System, s3: System, s4: System,
                                     t0: Step, t1: Step, t2: Step, t3: Step)
    requires Init(s0) && StepRel([s0], t0, s1) && StepRel([s0, s1], t1, s2)
    requires StepRel([s0, s1, s2], t2, s3) && StepRel([s0, s1, s2, s3], t3, s4)
    ensures Run([s0, s1, s2, s3, s4], [t0, t1, t2, t3])
  {
    hide StepRel;
    var run := [s0, s1, s2, s3, s4];
    assert run[..1] == [s0] && run[..2] == [s0, s1] && run[..3] == [s0, s1, s2] && run[..4] == [s0, s1, s2, s3];
  }

  lemma {:induction false} RunOfFive(s0: System, s1: System, s2: System, s3: System, s4: System, s5: System,
                                     t0: Step, t1: Step, t2: Step, t3: Step, t4: Step)
    requires Init(s0) && StepRel([s0], t0, s1) && StepRel([s0, s1], t1, s2)
    requires StepRel([s0, s1, s2], t2, s3) && StepRel([s0, s1, s2, s3], t3, s4)
    requires StepRel([s0, s1, s2, s3, s4], t4, s5)
    ensures Run([s0, s1, s2, s3, s4, s5], [t0, t1, t2, t3, t4])
  {
    hide StepRel;
    RunOfFour(s0, s1, s2, s3, s4, t0, t1, t2, t3);
    ExtendRun([s0, s1, s2, s3, s4], [t0, t1, t2, t3], t4, s5);
    assert [s0, s1, s2, s3, s4] + [s5] == [s0, s1, s2, s3, s4, s5];
    assert [t0, t1, t2, t3] + [t4] == [t0, t1, t2, t3, t4];
  }

  lemma {:induction false} FiveAtomic(t0: Step, t1: Step, t2: Step, t3: Step, t4: Step)
    requires !t0.Ticks? && (t1.Ticks? ==> t1.seen == 1) && !t2.Ticks? && (t3.Ticks? ==> t3.seen == 3) && !t4.Ticks?
    ensures TicksAtomic([t0, t1, t2, t3, t4])
  {
  }

  /** The ack write of step i is lost, and no other. */
  ghost predicate OnlyAckLost(steps: seq<Step>, i: nat) {
    forall j | 0 <= j < |steps| && steps[j].Ticks? :: steps[j].landed <==> j != i
  }

  lemma {:induction false} OnlySecondLost(t0: Step, t1: Step, t2: Step, t3: Step, t4: Step)
    requires !t0.Ticks? && t1.Ticks? && !t1.landed && !t2.Ticks? && (t3.Ticks? ==> t3.landed) && !t4.Ticks?
    ensures var steps := [t0, t1, t2, t3, t4];
      steps[1].Ticks? && OnlyAckLost(steps, 1)
  {
  }

  lemma {:induction false} FourLand(t0: Step, t1: Step, t2: Step, t3: Step)
    requires !t0.Ticks? && !t1.Ticks? && (t2.Ticks? ==> t2.landed) && !t3.Ticks?
    ensures AcksLand([t0, t1, t2, t3])
  {
  }

  lemma {:induction false} StartsEmpty()
    ensures Init(S0())
    ensures S1().agent == R2().agent == FA.FRESH_AGENT && S1().ack == R2().ack == 0
    ensures S2() == SystemAfter(S1(), S1(), A1(), 0) && R3() == SystemAfter(R2(), S1(), A1(), 1)
  {
  }

  /** Requests to port 80 and 82 were forwarded; the one to port 81 is gone. */
  lemma {:induction false} SecondIsLost()
    ensures Lost(S5(), 1) && Lost(R4(), 1)
  {
  }

  function D0(): Step { Declares(DECLARER, [80], T1) }
  function D1(): Step { Ticks(CONFIG, Input([A1()], 0, T1), ReportOf(S1().agent, A1()), false, 1) }
  function D2(): Step { Declares(DECLARER, [81, 82], T2) }
  function D3(): Step { Ticks(CONFIG, Input([B1(), B2()], 0, T2), ReportOf(S3().agent, B2()), true, 3) }
  function D4(): Step { Declares(DECLARER, [], T2) }

  lemma {:induction false} LostStep0()
    ensures Init(S0()) && StepRel([S0()], D0(), S1())
  {
    hide StepRel, S1;
    FirstDeclare([S0()]);
  }

  lemma {:induction false} LostStep1()
    ensures StepRel([S0(), S1()], D1(), S2())
  {
    StartsEmpty();
    hide StepRel, AgentAfter, ReportOf, At, Input, SystemAfter, S0, S1, S2, A1;
    FirstTick([S0(), S1()], 1, false, S1());
  }

  lemma {:induction false} LostStep2()
    ensures StepRel([S0(), S1(), S2()], D2(), S3())
  {
    hide StepRel, S0, S1, S2, S3;
    Redeclare([S0(), S1(), S2()]);
  }

  lemma {:induction false} LostStep3()
    ensures StepRel([S0(), S1(), S2(), S3()], D3(), S4())
  {
    hide StepRel, ReportOf, Input, S0, S1, S2, S3, S4, B1, B2;
    SecondTick([S0(), S1(), S2(), S3()]);
  }

  lemma {:induction false} LostStep4()
    ensures StepRel([S0(), S1(), S2(), S3(), S4()], D4(), S5())
  {
    hide StepRel, S0, S1, S2, S3, S4, S5;
    LastDeclare([S0(), S1(), S2(), S3(), S4()]);
  }

  lemma {:induction false} LostAckRuns()
    ensures Run([S0(), S1(), S2(), S3(), S4(), S5()], [D0(), D1(), D2(), D3(), D4()])
  {
    hide StepRel, S0, S1, S2, S3, S4, S5, Init, D0, D1, D2, D3, D4, Run;
    LostStep0();
    LostStep1();
    LostStep2();
    LostStep3();
    LostStep4();
    RunOfFive(S0(), S1(), S2(), S3(), S4(), S5(), D0(), D1(), D2(), D3(), D4());
  }

  /** One lost ack write, and the request for port 81 is silently lost: it reuses the id of the expired request for
      port 80, which the agent has already passed, so it is skipped, and the next ack that lands prunes it. */
  lemma {:induction false} LostAckLosesRequest() returns (run: seq<System>, steps: seq<Step>)
    ensures Run(run, steps)
    ensures TicksAtomic(steps) && |steps| > 1 && steps[1].Ticks? && OnlyAckLost(steps, 1)
    ensures |run| > 0 && Lost(Last(run), 1)
  {
    FiveAtomic(D0(), D1(), D2(), D3(), D4());
    OnlySecondLost(D0(), D1(), D2(), D3(), D4());
    hide OnlyAckLost, S0, S1, S2, S3, S4, S5, D0, D1, D2, D3, D4, Lost, TicksAtomic, Run;
    LostAckRuns();
    SecondIsLost();
    run, steps := [S0(), S1(), S2(), S3(), S4(), S5()], [D0(), D1(), D2(), D3(), D4()];
  }

  lemma {:induction false} RunOfThree(s0: System, s1: System, s2: System, s3: System, t0: Step, t1: Step, t2: Step)
    requires Init(s0) && StepRel([s0], t0, s1) && StepRel([s0, s1], t1, s2) && StepRel([s0, s1, s2], t2, s3)
    ensures Run([s0, s1, s2, s3], [t0, t1, t2])
  {
    hide StepRel;
    var run := [s0, s1, s2, s3];
    assert run[..1] == [s0] && run[..2] == [s0, s1] && run[..3] == [s0, s1, s2];
  }

  lemma {:induction false} SafeOfThree(s0: System, s1: System, s2: System, s3: System, t0: Step, t1: Step, t2: Step)
    ensures var run := [s0, s1, s2, s3];
      AllSafe(ByAck, run, [t0, t1, t2])
      <==> Safe(ByAck, [s0], t0) && Safe(ByAck, [s0, s1], t1) && Safe(ByAck, [s0, s1, s2], t2)
  {
    hide Safe;
    var run, steps := [s0, s1, s2, s3], [t0, t1, t2];
    assert run[..1] == [s0] && run[..2] == [s0, s1] && run[..3] == [s0, s1, s2];
    assert AllSafe(ByAck, run, steps) ==> Safe(ByAck, run[..1], steps[0]) && Safe(ByAck, run[..2], steps[1])
                                          && Safe(ByAck, run[..3], steps[2]);
  }

  lemma {:induction false} SafeByAck()
    ensures Safe(ByAck, [S0()], D0()) && Safe(ByAck, [S0(), S1()], D1()) && Safe(ByAck, [S0(), S1(), S2()], D2())
  {
    hide S0, S1, S2;
  }

  /** The first request waits under id 1, above the ack, but the running agent's cursor has passed it. */
  lemma {:induction false} UnseenByCursor()
    ensures 1 in S3().ident && 1 <= Passed(ByCursor, S3()) && S3().ident[1] !in S3().forwarded
  {
  }

  /** By the ack alone a rewrite is always safe: after the first three steps of the run above, the request for port
      81 has an id that the running agent has passed, yet nothing is lost, for the ack has not passed it and a
      restarted agent would serve it. */
  lemma {:induction false} CursorIsStricter() returns (run: seq<System>, steps: seq<Step>)
    ensures Run(run, steps) && AllGood(ByAck, run)
    ensures !AllSafe(ByCursor, run, steps)
  {
    hide S0, S1, S2, S3, D0, D1, D2, StepRel, Run, AllSafe, AllGood, Safe, Init, Passed;
    LostStep0();
    LostStep1();
    LostStep2();
    RunOfThree(S0(), S1(), S2(), S3(), D0(), D1(), D2());
    run, steps := [S0(), S1(), S2(), S3()], [D0(), D1(), D2()];
    SafeByAck();
    SafeOfThree(S0(), S1(), S2(), S3(), D0(), D1(), D2());
    NoSilentLoss(ByAck, run, steps);
    UnseenByCursor();
    NotAllGood(ByCursor, run, S3(), 1);
    NoSilentLoss(ByCursor, run, steps);
  }

  lemma {:induction false} NotAllGood(bound: Bound, run: seq<System>, s: System, id: Uint64)
    requires s in run && id in s.ident && id <= Passed(bound, s) && s.ident[id] !in s.forwarded
    ensures !AllGood(bound, run)
  {
    hide Passed;
    assert !PassedForwarded(bound, s);
  }

  lemma {:induction false} FirstTick(past: seq<System>, seen: nat, landed: bool, s: System)
    requires seen < |past| && past[seen] == S1() && Last(past) == s && s.agent == FA.FRESH_AGENT && s.ack == 0
    ensures StepRel(past, Ticks(CONFIG, Input([A1()], 0, T1), ReportOf(s.agent, A1()), landed, seen),
                    SystemAfter(s, S1(), A1(), if landed then 1 else 0))
  {
    assert [] + [A1()] == [A1()];
    TickStep(past, seen, [], A1(), Input([A1()], 0, T1), landed);
  }

  lemma {:induction false} SecondTick(past: seq<System>)
    requires |past| == 4 && past[3] == S3()
    ensures StepRel(past, Ticks(CONFIG, Input([B1(), B2()], 0, T2), ReportOf(S3().agent, B2()), true, 3), S4())
  {
    assert [B1()] + [B2()] == [B1(), B2()];
    TickStep(past, 3, [B1()], B2(), Input([B1(), B2()], 0, T2), true);
  }

  lemma {:induction false} LastDeclare(past: seq<System>)
    requires past != [] && Last(past) == S4()
    ensures StepRel(past, Declares(DECLARER, [], T2), S5())
  {
    TwoIds();
    DeclareNothing(past, T2, S5());
  }

  function R2(): System { S1().(queue := QueueValue(0, [B1()]), ident := map[1 := 1], next := 2, expired := {0}) }
  function R3(): System { SystemAfter(R2(), S1(), A1(), 1) }
  function R4(): System { R3().(queue := QueueValue(1, []), ident := map[]) }

  lemma {:induction false} RedeclareOne(past: seq<System>)
    requires past != [] && Last(past) == S1()
    ensures StepRel(past, Declares(DECLARER, [81], T2), R2())
  {
    FreshOnes();
    TwoIds();
    hide FA.IdSet, Fresh, A1, B1, StepRel, Survivors, Cutoff;
    RedeclareFrom(past, [81], [B1()], R2());
  }

  lemma {:induction false} LastDeclareOne(past: seq<System>)
    requires past != [] && Last(past) == R3()
    ensures StepRel(past, Declares(DECLARER, [], T2), R4())
  {
    TwoIds();
    DeclareNothing(past, T2, R4());
  }

  function E1(): Step { Declares(DECLARER, [81], T2) }
  function E2(): Step { Ticks(CONFIG, Input([A1()], 0, T1), ReportOf(R2().agent, A1()), true, 1) }

  lemma {:induction false} StaleStep1()
    ensures StepRel([S0(), S1()], E1(), R2())
  {
    hide StepRel, S0, S1, R2;
    RedeclareOne([S0(), S1()]);
  }

  lemma {:induction false} StaleStep2()
    ensures StepRel([S0(), S1(), R2()], E2(), R3())
  {
    StartsEmpty();
    hide StepRel, AgentAfter, ReportOf, At, Input, SystemAfter, S0, S1, R2, R3, A1;
    FirstTick([S0(), S1(), R2()], 1, true, R2());
  }

  lemma {:induction false} StaleStep3()
    ensures StepRel([S0(), S1(), R2(), R3()], D4(), R4())
  {
    hide StepRel, S0, S1, R2, R3, R4;
    LastDeclareOne([S0(), S1(), R2(), R3()]);
  }

  lemma {:induction false} StaleTickRuns()
    ensures Run([S0(), S1(), R2(), R3(), R4()], [D0(), E1(), E2(), D4()])
  {
    hide StepRel, S0, S1, R2, R3, R4, Init, D0, D4, E1, E2, Run;
    LostStep0();
    StaleStep1();
    StaleStep2();
    StaleStep3();
    RunOfFour(S0(), S1(), R2(), R3(), R4(), D0(), E1(), E2(), D4());
  }

  /** One declaration between an agent's read and its ack, with every ack write landing, and the request for port 81
      is silently lost: the ack for the expired request it took its id from prunes it. */
  lemma {:induction false} StaleTickLosesRequest() returns (run: seq<System>, steps: seq<Step>)
    ensures Run(run, steps)
    ensures AcksLand(steps)
    ensures |run| > 0 && Lost(Last(run), 1)
  {
    FourLand(D0(), E1(), E2(), D4());
    hide S0, S1, R2, R3, R4, D0, D4, E1, E2, Lost, AcksLand, Run;
    StaleTickRuns();
    SecondIsLost();
    run, steps := [S0(), S1(), R2(), R3(), R4()], [D0(), E1(), E2(), D4()];
  }
}
