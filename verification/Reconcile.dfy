/** The forward reconciler of internal/core/portfwd/manager.go, driving live forwards through commands that may fail,
    take effect although they failed, and answer falsely. */
module Reconcile {
  import Seqs

  type Port = n: int | 0 <= n < 0x1_0000

  datatype Key = Key(sandboxId: string, port: Port)

  datatype Listener = Listener(port: Port, sandboxId: string, running: bool)

  function Ports(keys: set<Key>): set<Port> {
    set k | k in keys :: k.port
  }

  /** The keys Reconcile is asked for: the running listeners. */
  function Desired(listeners: seq<Listener>): set<Key> {
    set l | l in listeners && l.running :: Key(l.sandboxId, l.port)
  }

  /** The keys TeardownSandbox leaves. */
  function Others(keys: set<Key>, id: string): set<Key> {
    set k | k in keys && k.sandboxId != id
  }

  ghost predicate DistinctPorts(keys: set<Key>) {
    forall k, k' | k in keys && k' in keys && k.port == k'.port :: k == k'
  }

  lemma {:induction false} PortsAdd(keys: set<Key>, k: Key)
    ensures Ports(keys + {k}) == Ports(keys) + {k.port}
  {
  }

  lemma {:induction false} DesiredAppend(listeners: seq<Listener>, l: Listener)
    ensures Desired(listeners + [l]) == Desired(listeners) + (if l.running then {Key(l.sandboxId, l.port)} else {})
  {
    assert forall x :: x in listeners + [l] <==> x in listeners || x == l;
  }

  lemma {:induction false} DesiredHas(desired: seq<Listener>, i: nat)
    requires i < |desired| && desired[i].running
    ensures Key(desired[i].sandboxId, desired[i].port) in Desired(desired)
  {
    assert desired[i] in desired;
  }

  // ---- The steps of a call ---------------------------------------------------------

  /** The applied keys, and the ports that really listen, which the program cannot see. */
  datatype State = State(applied: set<Key>, listening: set<Port>)

  /** What is done about one key. A cancel may close the forward whether or not it reports success; a probe may answer
      "present" of a port that does not listen; an apply that reports failure may have opened the port all the same. */
  datatype Step =
    | Drop(key: Key, works: bool, closes: bool)
    | ProbeFails(key: Key)
    | FoundPresent(key: Key)
    | Bind(key: Key, works: bool, opens: bool)

  predicate Works(step: Step) {
    match step
    case Drop(_, works, _) => works
    case ProbeFails(_) => false
    case FoundPresent(_) => true
    case Bind(_, works, _) => works
  }

  function Next(s: State, step: Step): State {
    match step
    case Drop(k, works, closes) =>
      State(if works then s.applied - {k} else s.applied, if closes then s.listening - {k.port} else s.listening)
    case ProbeFails(_) => s
    case FoundPresent(k) => s.(applied := s.applied + {k})
    case Bind(k, works, opens) =>
      State(if works then s.applied + {k} else s.applied,
            if works || opens then s.listening + {k.port} else s.listening)
  }

  /** Undesired keys are dropped first, in any order; then desired keys that are not applied are seen to. */
  predicate Enabled(s: State, desired: set<Key>, step: Step) {
    if step.Drop? then step.key in s.applied && step.key !in desired
    else s.applied <= desired && step.key in desired && step.key !in s.applied
  }

  function After(s: State, steps: seq<Step>): State {
    if steps == [] then s else Next(After(s, steps[..|steps| - 1]), steps[|steps| - 1])
  }

  predicate AllWork(steps: seq<Step>) {
    forall i | 0 <= i < |steps| :: Works(steps[i])
  }

  /** The steps of one call: each is enabled where it is taken, and one that fails is the last. */
  predicate Run(s: State, desired: set<Key>, steps: seq<Step>) {
    steps == [] ||
    (var front := steps[..|steps| - 1];
     Run(s, desired, front) && AllWork(front) && Enabled(After(s, front), desired, steps[|steps| - 1]))
  }

  /** A call that reports ok, or the failure of its last step. */
  predicate Call(s: State, desired: set<Key>, steps: seq<Step>, ok: bool) {
    && Run(s, desired, steps)
    && (ok <==> AllWork(steps))
    && (ok ==> After(s, steps).applied == desired)
  }

  datatype Command = Cancel(port: Port) | Present(port: Port) | Apply(port: Port)

  function Commands(steps: seq<Step>): seq<Command> {
    if steps == [] then [] else Commands(steps[..|steps| - 1]) + CommandsOf(steps[|steps| - 1])
  }

  function CommandsOf(step: Step): seq<Command> {
    match step
    case Drop(k, _, _) => [Cancel(k.port)]
    case ProbeFails(k) => [Present(k.port)]
    case FoundPresent(k) => [Present(k.port)]
    case Bind(k, _, _) => [Present(k.port), Apply(k.port)]
  }

  lemma {:induction false} RunExtend(s: State, desired: set<Key>, steps: seq<Step>, step: Step)
    requires Run(s, desired, steps) && AllWork(steps) && Enabled(After(s, steps), desired, step)
    ensures Run(s, desired, steps + [step])
    ensures After(s, steps + [step]) == Next(After(s, steps), step)
    ensures Commands(steps + [step]) == Commands(steps) + CommandsOf(step)
    ensures AllWork(steps + [step]) <==> Works(step)
  {
    assert (steps + [step])[..|steps|] == steps;
    assert (steps + [step])[|steps|] == step;
  }

  // ---- The answers behind the steps --------------------------------------------------

  /** How one command goes: whether it reports success, whether it takes effect, and what a probe says. */
  datatype Answer = Answer(works: bool, effective: bool, says: bool)

  /** The step is what the program makes of the answers to its commands, the first of which is command k. */
  predicate StepAnswered(step: Step, script: nat -> Answer, k: nat) {
    match step
    case Drop(_, works, closes) => works == script(k).works && closes == script(k).effective
    case ProbeFails(_) => !script(k).works
    case FoundPresent(_) => script(k).works && script(k).says
    case Bind(_, works, opens) =>
      script(k).works && !script(k).says && works == script(k + 1).works && opens == script(k + 1).effective
  }

  predicate Answered(steps: seq<Step>, script: nat -> Answer, k: nat) {
    steps == [] ||
    (var front := steps[..|steps| - 1];
     Answered(front, script, k) && StepAnswered(steps[|steps| - 1], script, k + |Commands(front)|))
  }

  lemma {:induction false} AnsweredExtend(steps: seq<Step>, step: Step, script: nat -> Answer, k: nat)
    requires Answered(steps, script, k) && StepAnswered(step, script, k + |Commands(steps)|)
    ensures Answered(steps + [step], script, k)
  {
    hide StepAnswered, Commands;
    assert (steps + [step])[..|steps|] == steps;
  }

  /** One more step, with its commands and their answers. */
  lemma {:induction false} CallExtend(s: State, desired: set<Key>, steps: seq<Step>, step: Step, script: nat -> Answer,
                                      log: seq<Command>)
    requires Run(s, desired, steps) && AllWork(steps) && Enabled(After(s, steps), desired, step)
    requires Answered(steps, script, |log|) && StepAnswered(step, script, |log + Commands(steps)|)
    ensures Run(s, desired, steps + [step]) && (AllWork(steps + [step]) <==> Works(step))
    ensures After(s, steps + [step]) == Next(After(s, steps), step)
    ensures log + Commands(steps + [step]) == log + Commands(steps) + CommandsOf(step)
    ensures Answered(steps + [step], script, |log|)
  {
    hide Run, After, AllWork, Commands, Answered, StepAnswered, Enabled, CommandsOf, Works, Next;
    RunExtend(s, desired, steps, step);
    AnsweredExtend(steps, step, script, |log|);
    Seqs.AppendAssoc(log, Commands(steps), CommandsOf(step));
  }

  lemma {:induction false} DropTaken(s: State, desired: set<Key>, key: Key, script: nat -> Answer, k: nat)
    requires key in s.applied && key !in desired
    ensures var step := Drop(key, script(k).works, script(k).effective);
      Enabled(s, desired, step) && StepAnswered(step, script, k) && CommandsOf(step) == [Cancel(key.port)]
  {
  }

  /** From position lo of the log on: every command but the last worked, a probe that said absent is followed by an
      apply for its port, and an apply follows only such a probe. */
  ghost predicate Disciplined(log: seq<Command>, lo: nat, script: nat -> Answer) {
    && (forall i: nat | lo <= i < |log| - 1 :: script(i).works)
    && (forall i: nat | lo <= i < |log| && log[i].Present? && script(i).works && !script(i).says ::
          i + 1 < |log| && log[i + 1] == Apply(log[i].port))
    && (forall i: nat | lo <= i < |log| && log[i].Apply? ::
          i > lo && log[i - 1] == Present(log[i].port) && script(i - 1).works && !script(i - 1).says)
  }

  ghost predicate EachWorked(log: seq<Command>, lo: nat, script: nat -> Answer) {
    forall i: nat | lo <= i < |log| :: script(i).works
  }

  /** A worked command that gives grounds to note a key of this port: a probe that said present, or an apply. */
  ghost predicate Grounds(log: seq<Command>, lo: nat, script: nat -> Answer, port: Port) {
    exists i: nat :: lo <= i < |log| && script(i).works
                     && ((log[i] == Present(port) && script(i).says) || log[i] == Apply(port))
  }

  ghost predicate Cancelled(log: seq<Command>, lo: nat, script: nat -> Answer, port: Port) {
    exists i: nat :: lo <= i < |log| && script(i).works && log[i] == Cancel(port)
  }

  lemma {:induction false} GroundsStay(log: seq<Command>, more: seq<Command>, lo: nat, script: nat -> Answer, port: Port)
    ensures Grounds(log, lo, script, port) ==> Grounds(log + more, lo, script, port)
    ensures Cancelled(log, lo, script, port) ==> Cancelled(log + more, lo, script, port)
  {
    var all := log + more;
    assert forall i: nat | i < |log| :: all[i] == log[i];
  }

  lemma {:induction false} OneMore(log: seq<Command>, lo: nat, c: Command, script: nat -> Answer)
    requires Disciplined(log, lo, script) && EachWorked(log, lo, script) && lo <= |log| && !c.Apply?
    requires c.Present? && script(|log|).works ==> script(|log|).says
    ensures Disciplined(log + [c], lo, script)
    ensures EachWorked(log + [c], lo, script) <==> script(|log|).works
  {
    var all, n := log + [c], |log|;
    assert all[n] == c && forall i: nat | i < n :: all[i] == log[i];
  }

  lemma {:induction false} TwoMore(log: seq<Command>, lo: nat, port: Port, script: nat -> Answer)
    requires Disciplined(log, lo, script) && EachWorked(log, lo, script) && lo <= |log|
    requires script(|log|).works && !script(|log|).says
    ensures Disciplined(log + [Present(port), Apply(port)], lo, script)
    ensures EachWorked(log + [Present(port), Apply(port)], lo, script) <==> script(|log| + 1).works
  {
    var all, n := log + [Present(port), Apply(port)], |log|;
    assert all[n] == Present(port) && all[n + 1] == Apply(port) && forall i: nat | i < n :: all[i] == log[i];
  }

  lemma {:induction false} LastGrounds(log: seq<Command>, lo: nat, script: nat -> Answer)
    requires lo < |log| && script(|log| - 1).works
    ensures var c := log[|log| - 1];
      && (c.Apply? || (c.Present? && script(|log| - 1).says) ==> Grounds(log, lo, script, c.port))
      && (c.Cancel? ==> Cancelled(log, lo, script, c.port))
  {
  }

  /** What one answered step adds to a disciplined log in which everything worked. */
  lemma {:induction false} StepDisciplined(log: seq<Command>, lo: nat, step: Step, script: nat -> Answer)
    requires Disciplined(log, lo, script) && EachWorked(log, lo, script) && StepAnswered(step, script, |log|)
    requires lo <= |log|
    ensures Disciplined(log + CommandsOf(step), lo, script)
    ensures Works(step) <==> EachWorked(log + CommandsOf(step), lo, script)
    ensures Works(step) && !step.Drop? ==> Grounds(log + CommandsOf(step), lo, script, step.key.port)
    ensures Works(step) && step.Drop? ==> Cancelled(log + CommandsOf(step), lo, script, step.key.port)
  {
    hide Disciplined, EachWorked, Grounds, Cancelled;
    if step.Bind? {
      TwoMore(log, lo, step.key.port, script);
    } else {
      OneMore(log, lo, CommandsOf(step)[0], script);
    }
    if Works(step) {
      LastGrounds(log + CommandsOf(step), lo, script);
    }
  }

  /** Every key that t has and s has not was noted on grounds, and every key that s has and t has not was cancelled. */
  ghost predicate Explained(s: State, t: State, log: seq<Command>, lo: nat, script: nat -> Answer) {
    && (forall x | x in t.applied - s.applied :: Grounds(log, lo, script, x.port))
    && (forall x | x in s.applied - t.applied :: Cancelled(log, lo, script, x.port))
  }

  lemma {:induction false} StepExplained(s: State, mid: State, step: Step, log: seq<Command>, lo: nat,
                                         script: nat -> Answer)
    requires Explained(s, mid, log, lo, script)
    requires Works(step) && !step.Drop? ==> Grounds(log + CommandsOf(step), lo, script, step.key.port)
    requires Works(step) && step.Drop? ==> Cancelled(log + CommandsOf(step), lo, script, step.key.port)
    ensures Explained(s, Next(mid, step), log + CommandsOf(step), lo, script)
  {
    hide Grounds, Cancelled, CommandsOf;
    forall port: Port
      ensures Grounds(log, lo, script, port) ==> Grounds(log + CommandsOf(step), lo, script, port)
      ensures Cancelled(log, lo, script, port) ==> Cancelled(log + CommandsOf(step), lo, script, port)
    {
      GroundsStay(log, CommandsOf(step), lo, script, port);
    }
  }

  lemma {:induction false} NothingYet(s: State, log: seq<Command>, script: nat -> Answer)
    ensures log + [] == log && Disciplined(log, |log|, script) && EachWorked(log, |log|, script)
    ensures Explained(s, s, log, |log|, script)
  {
  }

  /** What a run's commands and their answers say about the keys it gained and lost. */
  lemma {:induction false} RunDisciplined(s: State, desired: set<Key>, steps: seq<Step>, script: nat -> Answer,
                                          log: seq<Command>)
    requires Run(s, desired, steps) && Answered(steps, script, |log|)
    ensures Disciplined(log + Commands(steps), |log|, script)
    ensures AllWork(steps) <==> EachWorked(log + Commands(steps), |log|, script)
    ensures Explained(s, After(s, steps), log + Commands(steps), |log|, script)
    decreases |steps|
  {
    hide AllWork, StepAnswered, Disciplined, CommandsOf, Enabled, EachWorked, Explained, Works, Next, Grounds, Cancelled;
    if steps == [] {
      NothingYet(s, log, script);
      NothingWorks();
    } else {
      var front, last := steps[..|steps| - 1], steps[|steps| - 1];
      RunDisciplined(s, desired, front, script, log);
      AllWorkSplit(steps);
      Seqs.AppendAssoc(log, Commands(front), CommandsOf(last));
      StepDisciplined(log + Commands(front), |log|, last, script);
      StepExplained(s, After(s, front), last, log + Commands(front), |log|, script);
    }
  }

  lemma {:induction false} NothingWorks()
    ensures AllWork([])
  {
  }

  lemma {:induction false} DisciplineReads(log: seq<Command>, lo: nat, script: nat -> Answer)
    requires Disciplined(log, lo, script)
    ensures forall i: nat | lo <= i < |log| - 1 :: script(i).works
    ensures forall i: nat | lo <= i < |log| && log[i].Present? && script(i).works && !script(i).says ::
      i + 1 < |log| && log[i + 1] == Apply(log[i].port)
    ensures forall i: nat | lo <= i < |log| && log[i].Apply? ::
      i > lo && log[i - 1] == Present(log[i].port) && script(i - 1).works && !script(i - 1).says
    ensures EachWorked(log, lo, script) <==> forall i: nat | lo <= i < |log| :: script(i).works
  {
  }

  lemma {:induction false} ExplainedReads(s: State, t: State, log: seq<Command>, lo: nat, script: nat -> Answer)
    requires Explained(s, t, log, lo, script)
    ensures forall k | k in s.applied && k !in t.applied ::
      exists i: nat :: lo <= i < |log| && script(i).works && log[i] == Cancel(k.port)
    ensures forall k | k in t.applied && k !in s.applied ::
      exists i: nat :: lo <= i < |log| && script(i).works
                       && ((log[i] == Present(k.port) && script(i).says) || log[i] == Apply(k.port))
  {
    forall k | k in s.applied && k !in t.applied
      ensures exists i: nat :: lo <= i < |log| && script(i).works && log[i] == Cancel(k.port)
    {
      assert Cancelled(log, lo, script, k.port);
    }
    forall k | k in t.applied && k !in s.applied
      ensures exists i: nat :: lo <= i < |log| && script(i).works
                               && ((log[i] == Present(k.port) && script(i).says) || log[i] == Apply(k.port))
    {
      assert Grounds(log, lo, script, k.port);
    }
  }

  lemma {:induction false} AbsentApplies(s: State, t: State, log: seq<Command>, lo: nat, script: nat -> Answer)
    requires Explained(s, t, log, lo, script) && lo <= |log|
    ensures (forall i: nat | lo <= i < |log| :: script(i).works && !script(i).says) ==>
      forall k | k in t.applied && k !in s.applied :: Apply(k.port) in log[lo..]
  {
    if forall i: nat | lo <= i < |log| :: script(i).works && !script(i).says {
      forall k | k in t.applied && k !in s.applied
        ensures Apply(k.port) in log[lo..]
      {
        assert Grounds(log, lo, script, k.port);
        var i: nat :| lo <= i < |log| && script(i).works
                      && ((log[i] == Present(k.port) && script(i).says) || log[i] == Apply(k.port));
        assert log[lo..][i - lo] == log[i];
      }
    }
  }

  lemma {:induction false} AllAbsentApplies(listeners: seq<Listener>, ok: bool, s: State, t: State, log: seq<Command>,
                                            lo: nat, script: nat -> Answer)
    requires Explained(s, t, log, lo, script) && lo <= |log|
    requires (ok <==> EachWorked(log, lo, script)) && (ok ==> t.applied == Desired(listeners))
    ensures (forall i: nat | lo <= i < |log| :: script(i).works && !script(i).says) ==>
      ok && forall l | l in listeners && l.running && Key(l.sandboxId, l.port) !in s.applied :: Apply(l.port) in log[lo..]
  {
    hide Explained;
    AbsentApplies(s, t, log, lo, script);
  }

  lemma {:induction false} DesiredReads(listeners: seq<Listener>)
    ensures forall k :: k in Desired(listeners) <==>
      exists l | l in listeners :: l.running && k == Key(l.sandboxId, l.port)
  {
  }

  /** The commands of drop steps are cancels, for keys that were applied and are not desired. */
  lemma {:induction false} DropsCancel(s: State, desired: set<Key>, steps: seq<Step>)
    requires Run(s, desired, steps) && forall i | 0 <= i < |steps| :: steps[i].Drop?
    ensures s.applied * desired <= After(s, steps).applied <= s.applied
    ensures forall i | 0 <= i < |Commands(steps)| ::
      Commands(steps)[i].Cancel? && exists k | k in s.applied - desired :: k.port == Commands(steps)[i].port
    decreases |steps|
  {
    if steps != [] {
      var front, last := steps[..|steps| - 1], steps[|steps| - 1];
      DropsCancel(s, desired, front);
      assert last.key in s.applied - desired;
    }
  }

  lemma {:induction false} AllWorkSplit(steps: seq<Step>)
    requires steps != []
    ensures AllWork(steps) <==> AllWork(steps[..|steps| - 1]) && Works(steps[|steps| - 1])
  {
    hide Works;
    var n := |steps| - 1;
    assert forall i | 0 <= i < n :: steps[..n][i] == steps[i];
  }

  // ---- What a call keeps -----------------------------------------------------------

  /** No port is applied for two sandboxes, and every applied port is listening. */
  ghost predicate Faithful(s: State) {
    DistinctPorts(s.applied) && Ports(s.applied) <= s.listening
  }

  /** The two ways the program is misled: a cancel that reports failure has closed the forward, or a probe answers
      "present" of a port that does not listen. */
  predicate Misleads(s: State, step: Step) {
    match step
    case Drop(_, works, closes) => !works && closes
    case FoundPresent(k) => k.port !in s.listening
    case _ => false
  }

  predicate NeverMisled(s: State, steps: seq<Step>) {
    steps == [] ||
    (NeverMisled(s, steps[..|steps| - 1]) && !Misleads(After(s, steps[..|steps| - 1]), steps[|steps| - 1]))
  }

  lemma {:induction false} StepFaithful(s: State, desired: set<Key>, step: Step)
    requires Faithful(s) && DistinctPorts(desired) && Enabled(s, desired, step)
    ensures Faithful(Next(s, step)) <==> !Misleads(s, step)
  {
    var t := Next(s, step);
    if Misleads(s, step) {
      assert step.key in t.applied && step.key.port in Ports(t.applied);
    } else {
      forall k | k in t.applied
        ensures k.port in t.listening
      {
        assert k in s.applied ==> k.port in Ports(s.applied);
      }
    }
  }

  /** What stays lost: an applied port that does not listen. */
  predicate Lost(s: State, k: Key) {
    k in s.applied && k.port !in s.listening
  }

  lemma {:induction false} LostStays(s: State, desired: set<Key>, step: Step, k: Key)
    requires Lost(s, k) && k in desired && DistinctPorts(desired) && Enabled(s, desired, step)
    ensures Lost(Next(s, step), k)
  {
  }

  /** Where a call can stand after a misleading step that reported success. */
  ghost predicate Doomed(s: State, desired: set<Key>) {
    s.applied <= desired && exists k | k in s.applied :: Lost(s, k)
  }

  /** On every return path: with distinct desired ports, "every applied port listens, and none is applied twice" is kept
      exactly when no failed cancel took effect and no positive probe was false. */
  lemma {:induction false} FaithfulExactly(s: State, desired: set<Key>, steps: seq<Step>)
    requires Faithful(s) && DistinctPorts(desired) && Run(s, desired, steps)
    ensures Faithful(After(s, steps)) <==> NeverMisled(s, steps)
    ensures !NeverMisled(s, steps) ==> !AllWork(steps) || Doomed(After(s, steps), desired)
    decreases |steps|
  {
    if steps != [] {
      var front, last := steps[..|steps| - 1], steps[|steps| - 1];
      FaithfulExactly(s, desired, front);
      var mid := After(s, front);
      hide NeverMisled, AllWork, Run, DistinctPorts, Faithful, Enabled;
      if NeverMisled(s, front) {
        StepFaithful(mid, desired, last);
        AllWorkLast(steps);
        if Misleads(mid, last) && Works(last) {
          MisledIsDoomed(mid, desired, last);
        }
      } else {
        DoomedStays(mid, desired, last);
      }
    }
  }

  lemma {:induction false} AllWorkLast(steps: seq<Step>)
    requires steps != []
    ensures AllWork(steps) ==> Works(steps[|steps| - 1])
  {
  }

  lemma {:induction false} MisledIsDoomed(s: State, desired: set<Key>, step: Step)
    requires Enabled(s, desired, step) && Misleads(s, step) && Works(step)
    ensures Doomed(Next(s, step), desired)
  {
    assert Lost(Next(s, step), step.key);
  }

  lemma {:induction false} DoomedStays(s: State, desired: set<Key>, step: Step)
    requires Doomed(s, desired) && DistinctPorts(desired) && Enabled(s, desired, step)
    ensures Doomed(Next(s, step), desired) && !Faithful(Next(s, step))
  {
    var k :| k in s.applied && Lost(s, k);
    LostStays(s, desired, step, k);
    assert k.port in Ports(Next(s, step).applied);
  }

  // ---- Inputs that mislead ---------------------------------------------------------

  /** One false answer of the probe, and a call that reports success leaves a key applied that does not listen. */
  lemma {:induction false} FalsePresentLoses(k: Key)
    ensures var s := State({}, {});
      Faithful(s) && Call(s, {k}, [FoundPresent(k)], true) && Lost(After(s, [FoundPresent(k)]), k)
  {
    RunExtend(State({}, {}), {k}, [], FoundPresent(k));
    assert [] + [FoundPresent(k)] == [FoundPresent(k)];
  }

  /** One cancel that takes effect but reports failure, and the key stays applied with its forward closed. */
  lemma {:induction false} FailedCancelLoses(k: Key)
    ensures var s, step := State({k}, {k.port}), Drop(k, false, true);
      Faithful(s) && Call(s, {}, [step], false) && Lost(After(s, [step]), k)
  {
    var s, step := State({k}, {k.port}), Drop(k, false, true);
    RunExtend(s, {}, [], step);
    assert [] + [step] == [step];
  }

  // ---- Shared ports ----------------------------------------------------------------

  /** Two sandboxes on one port share one forward. To isolate that, every cancel closes exactly when it reports success
      and every probe is true. */
  predicate HonestStep(s: State, step: Step) {
    match step
    case Drop(_, works, closes) => closes == works
    case FoundPresent(k) => k.port in s.listening
    case _ => true
  }

  predicate Honest(s: State, steps: seq<Step>) {
    steps == [] ||
    (Honest(s, steps[..|steps| - 1]) && HonestStep(After(s, steps[..|steps| - 1]), steps[|steps| - 1]))
  }

  /** The port a failed apply opened all the same. */
  function Strays(steps: seq<Step>): set<Port> {
    if steps == [] then {}
    else Strays(steps[..|steps| - 1]) + StrayOf(steps[|steps| - 1])
  }

  function StrayOf(step: Step): set<Port> {
    if step.Bind? && !step.works && step.opens then {step.key.port} else {}
  }

  /** Cancels come first: while an undesired key is applied, nothing has been added or opened. */
  ghost predicate Shape(s: State, desired: set<Key>, t: State, strays: set<Port>) {
    && s.applied * desired <= t.applied
    && (t.applied <= desired || (t.applied <= s.applied && strays == {}))
  }

  ghost predicate Settled(s: State, t: State, strays: set<Port>) {
    t.listening == s.listening - Ports(s.applied - t.applied) + Ports(t.applied - s.applied) + strays
  }

  lemma {:induction false} SettledStep(s: State, desired: set<Key>, t: State, strays: set<Port>, step: Step)
    requires Shape(s, desired, t, strays) && Settled(s, t, strays)
    requires Enabled(t, desired, step) && HonestStep(t, step)
    ensures Shape(s, desired, Next(t, step), strays + StrayOf(step))
    ensures Settled(s, Next(t, step), strays + StrayOf(step))
  {
    var k, u := step.key, Next(t, step);
    if u.applied != t.applied {
      if step.Drop? {
        assert s.applied - u.applied == (s.applied - t.applied) + {k} && u.applied - s.applied == t.applied - s.applied;
        PortsAdd(s.applied - t.applied, k);
      } else {
        assert k !in s.applied;
        assert u.applied - s.applied == (t.applied - s.applied) + {k} && s.applied - u.applied == s.applied - t.applied;
        PortsAdd(t.applied - s.applied, k);
      }
    }
  }

  /** What listens when a call returns, on any path. */
  lemma {:induction false} ListeningAfter(s: State, desired: set<Key>, steps: seq<Step>)
    requires Run(s, desired, steps) && Honest(s, steps)
    ensures Shape(s, desired, After(s, steps), Strays(steps)) && Settled(s, After(s, steps), Strays(steps))
    decreases |steps|
  {
    if steps == [] {
      assert s.applied - s.applied == {} && Ports({}) == {};
    } else {
      var front, last := steps[..|steps| - 1], steps[|steps| - 1];
      ListeningAfter(s, desired, front);
      assert After(s, steps) == Next(After(s, front), last) && Strays(steps) == Strays(front) + StrayOf(last);
      hide After, Strays, Run, Honest, Shape, Settled, Enabled, HonestStep, Next, AllWork;
      SettledStep(s, desired, After(s, front), Strays(front), last);
    }
  }

  /** On every return path, errors included: every applied port listens exactly when each port that is both kept for one
      sandbox and dropped for another was opened again, for an added key or by an apply that failed. */
  lemma {:induction false} SharedExactly(s: State, desired: set<Key>, steps: seq<Step>)
    requires Ports(s.applied) <= s.listening && Run(s, desired, steps) && Honest(s, steps)
    ensures var t := After(s, steps);
      Ports(t.applied) <= t.listening
      <==> Ports(s.applied * t.applied) * Ports(s.applied - t.applied) <= Ports(t.applied - s.applied) + Strays(steps)
  {
    ListeningAfter(s, desired, steps);
    hide Run, Honest, After, Strays;
    var t := After(s, steps);
    PortsSplit(t.applied, s.applied);
    PortsSplit(s.applied, t.applied);
    assert t.applied * s.applied == s.applied * t.applied;
    var kept, dropped := Ports(s.applied * t.applied), Ports(s.applied - t.applied);
    var added := Ports(t.applied - s.applied);
    hide Ports;
    SharedSets(s.listening, kept, dropped, added, Strays(steps));
  }

  lemma {:induction false} SharedSets(listening: set<Port>, kept: set<Port>, dropped: set<Port>, added: set<Port>,
                                      strays: set<Port>)
    requires kept <= listening
    ensures kept + added <= listening - dropped + added + strays <==> kept * dropped <= added + strays
  {
    if kept + added <= listening - dropped + added + strays {
      forall p | p in kept * dropped
        ensures p in added + strays
      {
        assert p in kept + added;
      }
    }
    if kept * dropped <= added + strays {
      forall p | p in kept + added
        ensures p in listening - dropped + added + strays
      {
        assert p in kept && p in dropped ==> p in kept * dropped;
      }
    }
  }

  lemma {:induction false} PortsSplit(keys: set<Key>, other: set<Key>)
    ensures Ports(keys) == Ports(keys * other) + Ports(keys - other)
  {
    forall p | p in Ports(keys)
      ensures p in Ports(keys * other) + Ports(keys - other)
    {
      var k :| k in keys && k.port == p;
      assert k in keys * other || k in keys - other;
    }
  }

  /** Two sandboxes share a port and one is no longer desired: a call in which every command works and every answer is
      true reports success and leaves the other one's key applied with its forward closed. */
  lemma {:induction false} SharedPortIsLost(a: string, b: string, p: Port)
    requires a != b
    ensures var s, step := State({Key(a, p), Key(b, p)}, {p}), Drop(Key(b, p), true, true);
      && Call(s, {Key(a, p)}, [step], true) && Honest(s, [step])
      && Lost(After(s, [step]), Key(a, p))
  {
    var s, step := State({Key(a, p), Key(b, p)}, {p}), Drop(Key(b, p), true, true);
    RunExtend(s, {Key(a, p)}, [], step);
    assert [] + [step] == [step] && [step][..0] == [];
  }

  /** The same on an error path: the next cancel fails, without effect, and the call returns its error. */
  lemma {:induction false} SharedPortIsLostOnError(a: string, b: string, c: Key, p: Port)
    requires a != b && c != Key(a, p) && c != Key(b, p)
    ensures var s, steps := State({Key(a, p), Key(b, p), c}, {p, c.port}), LossThenError(b, c, p);
      Call(s, {Key(a, p)}, steps, false) && Honest(s, steps) && Lost(After(s, steps), Key(a, p))
  {
    var s, step := State({Key(a, p), Key(b, p), c}, {p, c.port}), Drop(Key(b, p), true, true);
    var steps := LossThenError(b, c, p);
    RunExtend(s, {Key(a, p)}, [], step);
    assert [] + [step] == [step] && [step][..0] == [];
    RunExtend(s, {Key(a, p)}, [step], Drop(c, false, false));
    assert [step] + [Drop(c, false, false)] == steps && steps[..1] == [step];
    assert !Works(steps[1]);
  }

  function LossThenError(b: string, c: Key, p: Port): seq<Step> {
    [Drop(Key(b, p), true, true), Drop(c, false, false)]
  }

  /** States reached one from the other by calls with the same desired set, each ending in any way at all. */
  ghost predicate Calls(states: seq<State>, desired: set<Key>) {
    forall i | 0 <= i < |states| - 1 ::
      exists steps :: Run(states[i], desired, steps) && states[i + 1] == After(states[i], steps)
  }

  lemma {:induction false} RunKeepsLost(s: State, desired: set<Key>, steps: seq<Step>, k: Key)
    requires Lost(s, k) && k in desired && DistinctPorts(desired) && Run(s, desired, steps)
    ensures Lost(After(s, steps), k)
    decreases |steps|
  {
    if steps != [] {
      var front, last := steps[..|steps| - 1], steps[|steps| - 1];
      RunKeepsLost(s, desired, front, k);
      hide Run, AllWork, DistinctPorts, Enabled;
      LostStays(After(s, front), desired, last, k);
    }
  }

  /** A forward once lost is never opened again, however often Reconcile is called with the same desired set. */
  lemma {:induction false} LostForGood(states: seq<State>, desired: set<Key>, k: Key, i: nat)
    requires Calls(states, desired) && i < |states| && DistinctPorts(desired)
    requires Lost(states[0], k) && k in desired
    ensures Lost(states[i], k)
  {
    if i > 0 {
      LostForGood(states, desired, k, i - 1);
      var n: nat := i - 1;
      assert exists steps :: Run(states[n], desired, steps) && states[n + 1] == After(states[n], steps);
      var steps :| Run(states[n], desired, steps) && states[n + 1] == After(states[n], steps);
      hide Run, After, Calls;
      RunKeepsLost(states[n], desired, steps, k);
    }
  }

  // ---- The environment -------------------------------------------------------------

  /** The live forwards on this machine; script(i) says how the i-th command goes. */
  class Forwards {
    const script: nat -> Answer
    var listening: set<Port>
    var log: seq<Command>

    method DoCancel(port: Port) returns (ok: bool)
      modifies this
      ensures log == old(log) + [Cancel(port)] && ok == script(|old(log)|).works
      ensures listening == if script(|old(log)|).effective then old(listening) - {port} else old(listening)
    {
      var a := script(|log|);
      log := log + [Cancel(port)];
      if a.effective {
        listening := listening - {port};
      }
      ok := a.works;
    }

    method DoPresent(port: Port) returns (ok: bool, present: bool)
      modifies this`log
      ensures log == old(log) + [Present(port)]
      ensures ok == script(|old(log)|).works && present == script(|old(log)|).says
    {
      var a := script(|log|);
      log := log + [Present(port)];
      ok, present := a.works, a.says;
    }

    method DoApply(port: Port) returns (ok: bool)
      modifies this
      ensures log == old(log) + [Apply(port)] && ok == script(|old(log)|).works
      ensures listening == if ok || script(|old(log)|).effective then old(listening) + {port} else old(listening)
    {
      var a := script(|log|);
      log := log + [Apply(port)];
      if a.works || a.effective {
        listening := listening + {port};
      }
      ok := a.works;
    }
  }

  // ---- The manager -----------------------------------------------------------------

  class Manager {
    const fw: Forwards
    var applied: set<Key>

    constructor (fw: Forwards)
      ensures this.fw == fw && applied == {}
    {
      this.fw := fw;
      applied := {};
    }

    function View(): State
      reads this, fw
    {
      State(applied, fw.listening)
    }

    /** Cancels every applied key outside wanted, in any order, stopping at the first cancel that reports failure.
        This is the loop of TeardownSandbox and the first loop of Reconcile. */
    method DropUnwanted(wanted: set<Key>) returns (ok: bool, ghost steps: seq<Step>)
      modifies this`applied, fw
      ensures Run(old(View()), wanted, steps) && View() == After(old(View()), steps) && (ok <==> AllWork(steps))
      ensures fw.log == old(fw.log) + Commands(steps) && Answered(steps, fw.script, |old(fw.log)|)
      ensures forall i | 0 <= i < |steps| :: steps[i].Drop?
      ensures ok ==> applied == old(applied) * wanted
      ensures old(applied) * wanted <= applied <= old(applied)
    {
      var todo := applied;
      ghost var s, log := View(), fw.log;
      steps := [];
      while todo != {}
        invariant todo <= applied <= s.applied && s.applied * wanted <= applied && applied - todo <= wanted
        invariant Run(s, wanted, steps) && AllWork(steps) && View() == After(s, steps)
        invariant fw.log == log + Commands(steps) && Answered(steps, fw.script, |log|)
        invariant forall i | 0 <= i < |steps| :: steps[i].Drop?
        decreases todo
      {
        var key :| key in todo;
        if key !in wanted {
          ghost var effective := fw.script(|fw.log|).effective;
          hide Run, After, AllWork, Commands, Answered, StepAnswered, Enabled, CommandsOf;
          DropTaken(View(), wanted, key, fw.script, |fw.log|);
          var done := fw.DoCancel(key.port);
          CallExtend(s, wanted, steps, Drop(key, done, effective), fw.script, log);
          steps := steps + [Drop(key, done, effective)];
          if !done {
            return false, steps;
          }
          applied := applied - {key};
        }
        todo := todo - {key};
      }
      ok := true;
    }

    /** Looks for the forward of a key that is not applied, opens it when absent, and notes the key as applied. */
    method EnsureForward(key: Key) returns (ok: bool, ghost step: Step)
      modifies this`applied, fw
      ensures step.key == key && !step.Drop? && ok == Works(step)
      ensures View() == Next(old(View()), step)
      ensures fw.log == old(fw.log) + CommandsOf(step) && StepAnswered(step, fw.script, |old(fw.log)|)
    {
      var asked, present := fw.DoPresent(key.port);
      if !asked {
        return false, ProbeFails(key);
      }
      if present {
        applied := applied + {key};
        return true, FoundPresent(key);
      }
      ghost var opens := fw.script(|fw.log|).effective;
      var bound := fw.DoApply(key.port);
      step := Bind(key, bound, opens);
      if bound {
        applied := applied + {key};
      }
      ok := bound;
    }

    /** The body of that loop, for a running listener's key. */
    method SeeTo(key: Key, ghost s: State, ghost wanted: set<Key>, ghost log: seq<Command>, ghost before: seq<Step>)
      returns (ok: bool, ghost steps: seq<Step>)
      requires Run(s, wanted, before) && AllWork(before) && View() == After(s, before)
      requires applied <= wanted && key in wanted && fw.log == log + Commands(before)
      requires Answered(before, fw.script, |log|)
      modifies this`applied, fw
      ensures Run(s, wanted, steps) && View() == After(s, steps) && (ok <==> AllWork(steps))
      ensures fw.log == log + Commands(steps) && Answered(steps, fw.script, |log|)
      ensures ok ==> applied == old(applied) + {key}
    {
      hide Run, After, AllWork, Commands, Works, CommandsOf, Answered, StepAnswered;
      if key in applied {
        return true, before;
      }
      ghost var seen := View();
      var done, step := EnsureForward(key);
      hide Next;
      CallExtend(s, wanted, before, step, fw.script, log);
      steps := before + [step];
      if done {
        WorkedAdds(seen, step);
      }
      ok := done;
    }

    /** The second loop of Reconcile, entered when the first has taken the steps before: each running listener that is
        not applied yet is seen to; the first command that reports failure ends it. */
    method AddMissing(desired: seq<Listener>, ghost s: State, ghost log: seq<Command>, ghost before: seq<Step>)
      returns (ok: bool, ghost steps: seq<Step>)
      requires Run(s, Desired(desired), before) && AllWork(before) && View() == After(s, before)
      requires applied <= Desired(desired) && fw.log == log + Commands(before)
      requires Answered(before, fw.script, |log|)
      modifies this`applied, fw
      ensures Run(s, Desired(desired), steps) && View() == After(s, steps) && (ok <==> AllWork(steps))
      ensures fw.log == log + Commands(steps) && Answered(steps, fw.script, |log|)
      ensures ok ==> applied == Desired(desired)
    {
      steps := before;
      ghost var wanted := Desired(desired);
      assert desired[..0] == [];
      for i := 0 to |desired|
        invariant Run(s, wanted, steps) && AllWork(steps) && View() == After(s, steps)
        invariant fw.log == log + Commands(steps) && Answered(steps, fw.script, |log|)
        invariant Desired(desired[..i]) <= applied <= wanted
      {
        hide Desired, Run, After, AllWork, Commands, Answered;
        var l := desired[i];
        assert desired[..i + 1] == desired[..i] + [l];
        DesiredAppend(desired[..i], l);
        if l.running {
          DesiredHas(desired, i);
          ok, steps := SeeTo(Key(l.sandboxId, l.port), s, wanted, log, steps);
          if !ok {
            return;
          }
        }
      }
      assert desired[..|desired|] == desired;
      ok := true;
    }

    /** Reconcile(ctx, desired). */
    method Reconcile(desired: seq<Listener>) returns (ok: bool, ghost steps: seq<Step>)
      modifies this`applied, fw
      ensures Call(old(View()), Desired(desired), steps, ok) && View() == After(old(View()), steps)
      ensures fw.log == old(fw.log) + Commands(steps) && Answered(steps, fw.script, |old(fw.log)|)
    {
      ghost var s, log := View(), fw.log;
      var wanted := Desired(desired);
      hide Desired, Run, After, AllWork, Commands, Answered;
      ok, steps := DropUnwanted(wanted);
      if !ok {
        return;
      }
      ok, steps := AddMissing(desired, s, log, steps);
    }

    /** TeardownSandbox(ctx, ref). */
    method TeardownSandbox(id: string) returns (ok: bool, ghost steps: seq<Step>)
      modifies this`applied, fw
      ensures Call(old(View()), Others(old(applied), id), steps, ok) && View() == After(old(View()), steps)
      ensures forall i | 0 <= i < |steps| :: steps[i].Drop?
      ensures applied <= old(applied) && forall k | k in old(applied) && k !in applied :: k.sandboxId == id
      ensures fw.log == old(fw.log) + Commands(steps) && Answered(steps, fw.script, |old(fw.log)|)
    {
      hide Run, After, AllWork, Commands, Answered;
      ok, steps := DropUnwanted(Others(applied, id));
    }
  }

  lemma {:induction false} WorkedAdds(s: State, step: Step)
    requires !step.Drop? && Works(step)
    ensures Next(s, step).applied == s.applied + {step.key}
  {
  }

  // ---- Calls by the answers to their commands -------------------------------------------

  /** A call of Reconcile, told by the commands it issues after those in before, and the answers to them. It
      succeeds when all of them worked, and the first that did not ends it. A probe that said absent is followed by
      an apply for its port, and an apply follows only such a probe. A key is dropped for a cancel that worked, and
      noted for a probe that said present or an apply that worked. On success the keys of the running listeners are
      applied, and no others. */
  lemma {:induction false} CallByAnswers(s: State, listeners: seq<Listener>, steps: seq<Step>, ok: bool,
                                         script: nat -> Answer, before: seq<Command>, log: seq<Command>)
    requires Call(s, Desired(listeners), steps, ok) && Answered(steps, script, |before|)
    requires log == before + Commands(steps)
    ensures ok <==> forall i: nat | |before| <= i < |log| :: script(i).works
    ensures forall i: nat | |before| <= i < |log| - 1 :: script(i).works
    ensures forall i: nat | |before| <= i < |log| && log[i].Present? && script(i).works && !script(i).says ::
      i + 1 < |log| && log[i + 1] == Apply(log[i].port)
    ensures forall i: nat | |before| <= i < |log| && log[i].Apply? ::
      i > |before| && log[i - 1] == Present(log[i].port) && script(i - 1).works && !script(i - 1).says
    ensures forall k | k in s.applied && k !in After(s, steps).applied ::
      exists i: nat :: |before| <= i < |log| && script(i).works && log[i] == Cancel(k.port)
    ensures forall k | k in After(s, steps).applied && k !in s.applied ::
      exists i: nat :: |before| <= i < |log| && script(i).works
                       && ((log[i] == Present(k.port) && script(i).says) || log[i] == Apply(k.port))
    ensures ok ==> forall k :: k in After(s, steps).applied <==>
      exists l | l in listeners :: l.running && k == Key(l.sandboxId, l.port)
  {
    hide Desired, Run, After, AllWork, Commands, Answered, Disciplined, EachWorked, Explained, Grounds, Cancelled;
    RunDisciplined(s, Desired(listeners), steps, script, before);
    DisciplineReads(log, |before|, script);
    ExplainedReads(s, After(s, steps), log, |before|, script);
    DesiredReads(listeners);
  }

  /** When everything works and every probe says absent, the call succeeds and an apply is issued for every running
      listener that was not applied before. */
  lemma {:induction false} AbsentIsApplied(s: State, listeners: seq<Listener>, steps: seq<Step>, ok: bool,
                                           script: nat -> Answer, before: seq<Command>, log: seq<Command>)
    requires Call(s, Desired(listeners), steps, ok) && Answered(steps, script, |before|)
    requires log == before + Commands(steps)
    requires forall i: nat | |before| <= i < |log| :: script(i).works && !script(i).says
    ensures ok
    ensures forall l | l in listeners && l.running && Key(l.sandboxId, l.port) !in s.applied ::
      Apply(l.port) in log[|before|..]
  {
    hide Desired, Run, After, AllWork, Commands, Answered, Explained, Disciplined;
    RunDisciplined(s, Desired(listeners), steps, script, before);
    AllAbsentApplies(listeners, ok, s, After(s, steps), log, |before|, script);
  }

  /** TeardownSandbox issues cancels only, for ports of that sandbox, up to the first that does not work; it drops a key
      for a cancel that worked, touches no other sandbox, and on success leaves that one without keys. */
  lemma {:induction false} TeardownByAnswers(s: State, id: string, steps: seq<Step>, ok: bool, script: nat -> Answer,
                                             before: seq<Command>, log: seq<Command>)
    requires Call(s, Others(s.applied, id), steps, ok) && Answered(steps, script, |before|)
    requires log == before + Commands(steps) && forall i | 0 <= i < |steps| :: steps[i].Drop?
    ensures ok <==> forall i: nat | |before| <= i < |log| :: script(i).works
    ensures forall i: nat | |before| <= i < |log| - 1 :: script(i).works
    ensures forall i: nat | |before| <= i < |log| ::
      log[i].Cancel? && exists k | k in s.applied :: k.sandboxId == id && k.port == log[i].port
    ensures forall k | k in s.applied && k !in After(s, steps).applied ::
      exists i: nat :: |before| <= i < |log| && script(i).works && log[i] == Cancel(k.port)
    ensures forall k | k in s.applied && k.sandboxId != id :: k in After(s, steps).applied
    ensures After(s, steps).applied <= s.applied && (ok ==> forall k | k in After(s, steps).applied :: k.sandboxId != id)
  {
    hide Run, After, AllWork, Commands, Answered, Disciplined, EachWorked, Explained, Grounds, Cancelled;
    var others := Others(s.applied, id);
    RunDisciplined(s, others, steps, script, before);
    DisciplineReads(log, |before|, script);
    ExplainedReads(s, After(s, steps), log, |before|, script);
    DropsCancel(s, others, steps);
    forall i: nat | |before| <= i < |log|
      ensures log[i] == Commands(steps)[i - |before|]
    {
    }
  }

  // ---- Repeated calls --------------------------------------------------------------

  /** A call whose desired set is applied already takes no step, so issues no command: the second of two calls, say. */
  lemma {:induction false} NothingToDo(s: State, steps: seq<Step>, ok: bool)
    requires Call(s, s.applied, steps, ok)
    ensures steps == [] && ok && Commands(steps) == [] && After(s, steps) == s
  {
    NothingRuns(s, steps);
  }

  lemma {:induction false} NothingRuns(s: State, steps: seq<Step>)
    requires Run(s, s.applied, steps)
    ensures steps == []
    decreases |steps|
  {
    if steps != [] {
      NothingRuns(s, steps[..|steps| - 1]);
    }
  }
}
