/** Where each call on the binding file took effect, read off a whole run: a write that returned renamed its own
    update into place while it held the lock, and a read that returned shows the file as it was when it was opened.
    */
module StoreHistory {

  import opened Wrappers
  import opened BindingStore
  import opened StoreProtocol

  /** A run with all its states: move i takes state i to state i + 1. */
  ghost predicate Trace(states: seq<World>, moves: seq<Move>) {
    && |states| == |moves| + 1
    && forall i: nat | i < |moves| :: Step(states[i], moves[i].who, moves[i].event) == Some(states[i + 1])
  }

  /** Process p started this call by move c, and it goes on by move i. */
  ghost predicate CallSince(moves: seq<Move>, p: nat, c: nat, i: nat) {
    && c < i <= |moves| && moves[c].who == p && (moves[c].event.Call? || moves[c].event.CallRead?)
    && forall m: nat | c < m < i && moves[m].who == p ::
         var e := moves[m].event; !e.Call? && !e.CallRead? && !e.Return? && !e.Finish? && !e.Stop?
  }

  /** By move r the call started by move c put its update in place. */
  ghost predicate Committed(states: seq<World>, moves: seq<Move>, p: nat, c: nat, r: nat, op: Op) {
    && c < r < |moves| && |states| == |moves| + 1
    && moves[c] == Move(p, Call(op)) && moves[r] == Move(p, Rename)
    && states[r].lock == Some(p) && states[r + 1].file == Commit(states[r].file, op)
    && states[r + 1].log == states[r].log + [op]
  }

  /** By move o the read started by move c opened the file. */
  ghost predicate OpenedBy(states: seq<World>, moves: seq<Move>, p: nat, c: nat, o: nat, content: seq<Binding>) {
    && c < o < |moves| && |states| == |moves| + 1
    && moves[c] == Move(p, CallRead) && moves[o] == Move(p, Open) && content == states[o].file
  }

  // ---- What each phase remembers -----------------------------------------------------

  function OpOf(phase: Phase): Option<Op> {
    match phase
    case Waiting(op, _) => Some(op)
    case Holding(op, _) => Some(op)
    case Loaded(op, _, _) => Some(op)
    case Staged(op, _, _) => Some(op)
    case Renamed(op, _, _) => Some(op)
    case _ => None
  }

  /** What process p's phase says of its call, started by move c, and of the moves before move i. */
  ghost predicate Recalls(states: seq<World>, moves: seq<Move>, p: nat, c: nat, i: nat, phase: Phase)
    requires |states| == |moves| + 1 && i <= |moves| && !phase.Idle?
  {
    && CallSince(moves, p, c, i) && phase.from == |states[c].log|
    && (OpOf(phase).Some? ==> moves[c] == Move(p, Call(OpOf(phase).value)))
    && (phase.Reading? || phase.Opened? ==> moves[c] == Move(p, CallRead))
    && (phase.Renamed? ==> exists r: nat :: CommittedAt(states, moves, p, c, r, i, phase.op, phase.at))
    && (phase.Opened? ==> exists o: nat :: OpenedAt(states, moves, p, c, o, i, phase.content, phase.at))
  }

  ghost predicate CommittedAt(states: seq<World>, moves: seq<Move>, p: nat, c: nat, r: nat, i: nat, op: Op, at: nat)
    requires |states| == |moves| + 1
  {
    r < i && Committed(states, moves, p, c, r, op) && at == |states[r].log|
  }

  ghost predicate OpenedAt(states: seq<World>, moves: seq<Move>, p: nat, c: nat, o: nat, i: nat, content: seq<Binding>,
                           at: nat)
    requires |states| == |moves| + 1
  {
    o < i && OpenedBy(states, moves, p, c, o, content) && at == |states[o].log|
  }

  ghost predicate Remembers(states: seq<World>, moves: seq<Move>, p: nat, i: nat, phase: Phase)
    requires |states| == |moves| + 1 && i <= |moves|
  {
    !phase.Idle? ==> exists c: nat :: Recalls(states, moves, p, c, i, phase)
  }

  lemma {:induction false} CallGoesOn(moves: seq<Move>, p: nat, c: nat, i: nat)
    requires CallSince(moves, p, c, i) && i < |moves|
    requires moves[i].who == p ==>
      var e := moves[i].event; !e.Call? && !e.CallRead? && !e.Return? && !e.Finish? && !e.Stop?
    ensures CallSince(moves, p, c, i + 1)
  {
  }

  lemma {:induction false} CallStarts(moves: seq<Move>, i: nat)
    requires i < |moves| && (moves[i].event.Call? || moves[i].event.CallRead?)
    ensures CallSince(moves, moves[i].who, i, i + 1)
  {
  }

  /** How a step changes the phase of process p. */
  lemma {:induction false} PhaseStep(s: World, who: nat, e: Event, t: World, p: nat)
    requires Step(s, who, e) == Some(t)
    ensures who != p ==> PhaseOf(t, p) == PhaseOf(s, p)
    ensures who == p && (e.Return? || e.Finish? || e.Stop?) ==> PhaseOf(t, p).Idle?
    ensures who == p && e.Call? ==> PhaseOf(s, p).Idle? && PhaseOf(t, p) == Waiting(e.op, |s.log|)
    ensures who == p && e.CallRead? ==> PhaseOf(s, p).Idle? && PhaseOf(t, p) == Reading(|s.log|)
    ensures who == p && (e.Acquire? || e.Load? || e.Stage? || e.Rename?) ==>
      && OpOf(PhaseOf(s, p)).Some? && OpOf(PhaseOf(t, p)) == OpOf(PhaseOf(s, p))
      && PhaseOf(t, p).from == PhaseOf(s, p).from
      && (if e.Rename? then PhaseOf(t, p).Renamed? && PhaseOf(t, p).at == |s.log| else !PhaseOf(t, p).Renamed?)
    ensures who == p && e.Open? ==>
      PhaseOf(s, p).Reading? && PhaseOf(t, p) == Opened(PhaseOf(s, p).from, |s.log|, s.file)
  {
  }

  /** A rename puts the writer's own update in place, on top of what the file holds, under the lock. */
  lemma {:induction false} RenameCommits(base: seq<Binding>, s: World, p: nat, t: World)
    requires Inv(base, s) && Step(s, p, Rename) == Some(t)
    ensures OpOf(PhaseOf(s, p)).Some? && s.lock == Some(p)
    ensures t.file == Commit(s.file, OpOf(PhaseOf(s, p)).value) && t.log == s.log + [OpOf(PhaseOf(s, p)).value]
  {
    hide Fold, Commit;
    assert PhaseOk(base, s, p);
  }

  lemma {:induction false} TraceKeepsInv(base: seq<Binding>, states: seq<World>, moves: seq<Move>, i: nat)
    requires Trace(states, moves) && Inv(base, states[0]) && i <= |moves|
    ensures Inv(base, states[i])
    decreases i
  {
    hide Inv;
    if i > 0 {
      TraceKeepsInv(base, states, moves, i - 1);
      assert Step(states[i - 1], moves[i - 1].who, moves[i - 1].event) == Some(states[i - 1 + 1]);
      hide Step;
      StepKeepsInv(base, states[i - 1], moves[i - 1].who, moves[i - 1].event, states[i]);
    }
  }

  /** In every state of a run each process is where its moves have brought it. */
  lemma {:induction false} History(base: seq<Binding>, states: seq<World>, moves: seq<Move>, p: nat, i: nat)
    requires Trace(states, moves) && states[0] == Start(base) && i <= |moves|
    ensures Remembers(states, moves, p, i, PhaseOf(states[i], p))
    decreases i
  {
    if i > 0 {
      var n := i - 1;
      History(base, states, moves, p, n);
      StartKeepsInv(base);
        TraceKeepsInv(base, states, moves, n);
      assert Step(states[n], moves[n].who, moves[n].event) == Some(states[n + 1]);
      hide Step;
      MoveRemembered(base, states, moves, p, n);
    }
  }

  lemma {:induction false} StartKeepsInv(base: seq<Binding>)
    ensures Inv(base, Start(base))
  {
  }

  lemma {:induction false} MoveRemembered(base: seq<Binding>, states: seq<World>, moves: seq<Move>, p: nat, n: nat)
    requires |states| == |moves| + 1 && n < |moves| && Inv(base, states[n])
    requires Step(states[n], moves[n].who, moves[n].event) == Some(states[n + 1])
    requires Remembers(states, moves, p, n, PhaseOf(states[n], p))
    ensures Remembers(states, moves, p, n + 1, PhaseOf(states[n + 1], p))
  {
    hide Inv, CallSince, Committed, OpenedBy, CommittedAt, OpenedAt, PhaseOf, Fold, Commit, Step, Recalls;
    var who, e, was, now := moves[n].who, moves[n].event, PhaseOf(states[n], p), PhaseOf(states[n + 1], p);
    PhaseStep(states[n], who, e, states[n + 1], p);
    if now.Idle? {
    } else if who == p && (e.Call? || e.CallRead?) {
      CallStarts(moves, n);
      FirstRecall(states, moves, p, n, now);
    } else {
      var c: nat :| Recalls(states, moves, p, c, n, was);
      StillCalled(states, moves, p, c, n, was);
      if who == p && e.Rename? {
        RenameCommits(base, states[n], p, states[n + 1]);
        NowCommitted(states, moves, p, c, n, was, now);
      } else if who == p && e.Open? {
        NowOpened(states, moves, p, c, n, was, now);
      } else {
        RecallGoesOn(states, moves, p, c, n, was, now);
      }
    }
  }

  lemma {:induction false} FirstRecall(states: seq<World>, moves: seq<Move>, p: nat, n: nat, now: Phase)
    requires |states| == |moves| + 1 && n < |moves| && moves[n].who == p && CallSince(moves, p, n, n + 1)
    requires now == if moves[n].event.Call? then Waiting(moves[n].event.op, |states[n].log|) else Reading(|states[n].log|)
    requires moves[n].event.Call? || moves[n].event.CallRead?
    ensures Recalls(states, moves, p, n, n + 1, now)
  {
    hide CallSince;
  }

  lemma {:induction false} StillCalled(states: seq<World>, moves: seq<Move>, p: nat, c: nat, n: nat, was: Phase)
    requires |states| == |moves| + 1 && n < |moves| && !was.Idle? && Recalls(states, moves, p, c, n, was)
    requires moves[n].who == p ==>
      var e := moves[n].event; !e.Call? && !e.CallRead? && !e.Return? && !e.Finish? && !e.Stop?
    ensures CallSince(moves, p, c, n) && CallSince(moves, p, c, n + 1)
  {
    hide CommittedAt, OpenedAt;
  }

  /** A step within the call that neither renames nor opens. */
  lemma {:induction false} RecallGoesOn(states: seq<World>, moves: seq<Move>, p: nat, c: nat, n: nat, was: Phase, now: Phase)
    requires |states| == |moves| + 1 && n < |moves| && !was.Idle? && Recalls(states, moves, p, c, n, was)
    requires CallSince(moves, p, c, n + 1)
    requires now == was ||
      (OpOf(was).Some? && OpOf(now) == OpOf(was) && now.from == was.from && !now.Renamed?)
    ensures Recalls(states, moves, p, c, n + 1, now)
  {
    hide CallSince, Committed, OpenedBy;
    if now.Renamed? {
      var r: nat :| CommittedAt(states, moves, p, c, r, n, was.op, was.at);
      assert CommittedAt(states, moves, p, c, r, n + 1, was.op, was.at);
    }
    if now.Opened? {
      var o: nat :| OpenedAt(states, moves, p, c, o, n, was.content, was.at);
      assert OpenedAt(states, moves, p, c, o, n + 1, was.content, was.at);
    }
  }

  lemma {:induction false} NowCommitted(states: seq<World>, moves: seq<Move>, p: nat, c: nat, n: nat, was: Phase, now: Phase)
    requires |states| == |moves| + 1 && n < |moves| && OpOf(was).Some? && Recalls(states, moves, p, c, n, was)
    requires CallSince(moves, p, c, n) && CallSince(moves, p, c, n + 1)
    requires moves[n] == Move(p, Rename) && states[n].lock == Some(p) && now.Renamed?
    requires OpOf(now) == OpOf(was) && now.from == was.from && now.at == |states[n].log|
    requires states[n + 1].file == Commit(states[n].file, now.op) && states[n + 1].log == states[n].log + [now.op]
    ensures Recalls(states, moves, p, c, n + 1, now)
  {
    hide Commit;
    assert CommittedAt(states, moves, p, c, n, n + 1, now.op, now.at);
  }

  lemma {:induction false} NowOpened(states: seq<World>, moves: seq<Move>, p: nat, c: nat, n: nat, was: Phase, now: Phase)
    requires |states| == |moves| + 1 && n < |moves| && was.Reading? && Recalls(states, moves, p, c, n, was)
    requires CallSince(moves, p, c, n) && CallSince(moves, p, c, n + 1)
    requires moves[n] == Move(p, Open) && now == Opened(was.from, |states[n].log|, states[n].file)
    ensures Recalls(states, moves, p, c, n + 1, now)
  {
    assert OpenedAt(states, moves, p, c, n, n + 1, now.content, now.at);
  }

  // ---- Results ---------------------------------------------------------------------

  /** A write that returned success took effect once, between its call and its return: under the lock, its update was
      applied to what the file held at that moment and nothing else changed it. The return records just that. */
  lemma {:induction false} WriteTookEffect(base: seq<Binding>, states: seq<World>, moves: seq<Move>, i: nat)
    returns (op: Op, c: nat, r: nat)
    requires Trace(states, moves) && states[0] == Start(base) && i < |moves| && moves[i].event.Return?
    ensures c < r < i && moves[c] == Move(moves[i].who, Call(op)) && moves[r] == Move(moves[i].who, Rename)
    ensures CallSince(moves, moves[i].who, c, i)
    ensures states[r].lock == Some(moves[i].who) && states[r + 1].file == Commit(states[r].file, op)
    ensures states[i + 1].acks == states[i].acks + [Ack(op, |states[c].log|, |states[r].log|, |states[i].log|)]
    ensures states[i + 1].lock != Some(moves[i].who)
  {
    var p := moves[i].who;
    hide CallSince, Fold, Commit, Start, Remembers, Recalls, CommittedAt;
    History(base, states, moves, p, i);
    ReturnStep(states[i], p, states[i + 1]);
    op, c, r := RecallWrite(states, moves, p, i, PhaseOf(states[i], p));
  }

  lemma {:induction false} ReturnStep(s: World, p: nat, t: World)
    requires Step(s, p, Return) == Some(t)
    ensures var phase := PhaseOf(s, p);
      phase.Renamed? && t.acks == s.acks + [Ack(phase.op, phase.from, phase.at, |s.log|)] && t.lock != Some(p)
  {
  }

  lemma {:induction false} FinishStep(s: World, p: nat, t: World)
    requires Step(s, p, Finish) == Some(t)
    ensures var phase := PhaseOf(s, p);
      phase.Opened? && t.views == s.views + [Seen(phase.content, phase.from, phase.at, |s.log|)]
  {
  }

  lemma {:induction false} RecallWrite(states: seq<World>, moves: seq<Move>, p: nat, i: nat, phase: Phase)
    returns (op: Op, c: nat, r: nat)
    requires |states| == |moves| + 1 && i <= |moves| && Remembers(states, moves, p, i, phase) && phase.Renamed?
    ensures c < r < i && moves[c] == Move(p, Call(op)) && moves[r] == Move(p, Rename) && CallSince(moves, p, c, i)
    ensures states[r].lock == Some(p) && states[r + 1].file == Commit(states[r].file, op)
    ensures op == phase.op && phase.from == |states[c].log| && phase.at == |states[r].log|
  {
    hide Commit;
    var c0: nat :| Recalls(states, moves, p, c0, i, phase);
    var r0: nat :| CommittedAt(states, moves, p, c0, r0, i, phase.op, phase.at);
    op, c, r := phase.op, c0, r0;
  }

  lemma {:induction false} RecallRead(states: seq<World>, moves: seq<Move>, p: nat, i: nat, phase: Phase)
    returns (c: nat, o: nat)
    requires |states| == |moves| + 1 && i <= |moves| && Remembers(states, moves, p, i, phase) && phase.Opened?
    ensures c < o < i && moves[c] == Move(p, CallRead) && moves[o] == Move(p, Open) && CallSince(moves, p, c, i)
    ensures phase.content == states[o].file && phase.from == |states[c].log| && phase.at == |states[o].log|
  {
    var c0: nat :| Recalls(states, moves, p, c0, i, phase);
    var o0: nat :| OpenedAt(states, moves, p, c0, o0, i, phase.content, phase.at);
    c, o := c0, o0;
  }

  /** A read that returned shows the file as it stood at one moment between its call and its return. */
  lemma {:induction false} ReadTookEffect(base: seq<Binding>, states: seq<World>, moves: seq<Move>, i: nat)
    returns (c: nat, o: nat)
    requires Trace(states, moves) && states[0] == Start(base) && i < |moves| && moves[i].event.Finish?
    ensures c < o < i && moves[c] == Move(moves[i].who, CallRead) && moves[o] == Move(moves[i].who, Open)
    ensures CallSince(moves, moves[i].who, c, i)
    ensures states[i + 1].views
         == states[i].views + [Seen(states[o].file, |states[c].log|, |states[o].log|, |states[i].log|)]
  {
    var p := moves[i].who;
    hide CallSince, Fold, Commit, Start, Remembers, Recalls, OpenedAt;
    History(base, states, moves, p, i);
    FinishStep(states[i], p, states[i + 1]);
    c, o := RecallRead(states, moves, p, i, PhaseOf(states[i], p));
  }

  // ---- Calls that run alone ---------------------------------------------------------------

  lemma {:induction false} Before(s: World, p: nat, e: Event, next: World, rest: seq<Move>, t: World)
    returns (moves: seq<Move>)
    requires Step(s, p, e) == Some(next) && Run(next, rest, t)
    ensures Run(s, moves, t) && moves == [Move(p, e)] + rest
  {
    moves := [Move(p, e)] + rest;
    assert moves[1..] == rest;
  }

  /** A write that runs alone, with the lock free, returns success and leaves the updated file and a free lock. */
  lemma {:induction false} LoneWrite(s: World, p: nat, op: Op) returns (moves: seq<Move>, t: World)
    requires PhaseOf(s, p).Idle? && s.lock.None?
    ensures Run(s, moves, t) && t.file == Commit(s.file, op) && t.lock.None? && t.log == s.log + [op]
    ensures moves == [Move(p, Call(op)), Move(p, Acquire), Move(p, Load), Move(p, Stage), Move(p, Rename), Move(p, Return)]
  {
    hide Run, Commit;
    var n, next := |s.log|, Commit(s.file, op);
    var s1 := Moved(s, p, Waiting(op, n));
    var s2 := Moved(s1.(lock := Some(p)), p, Holding(op, n));
    var s3 := Moved(s2, p, Loaded(op, n, s.file));
    var s4 := Moved(s3, p, Staged(op, n, next));
    var s5 := Moved(s4.(file := next, log := s.log + [op]), p, Renamed(op, n, n));
    t := Released(s5.(acks := s.acks + [Ack(op, n, n, n + 1)]), p);
    RunEmpty(t);
    moves := Before(s5, p, Return, t, [], t);
    moves := Before(s4, p, Rename, s5, moves, t);
    moves := Before(s3, p, Stage, s4, moves, t);
    moves := Before(s2, p, Load, s3, moves, t);
    moves := Before(s1, p, Acquire, s2, moves, t);
    moves := Before(s, p, Call(op), s1, moves, t);
  }

  lemma {:induction false} RunEmpty(t: World)
    ensures Run(t, [], t)
  {
  }

  /** A read needs no lock: it returns whoever holds it. */
  lemma {:induction false} LoneRead(s: World, p: nat) returns (moves: seq<Move>, t: World)
    requires PhaseOf(s, p).Idle?
    ensures Run(s, moves, t) && t.file == s.file && t.lock == s.lock
    ensures moves == [Move(p, CallRead), Move(p, Open), Move(p, Finish)]
  {
    hide Run;
    var n := |s.log|;
    var s1 := Moved(s, p, Reading(n));
    var s2 := Moved(s1, p, Opened(n, n, s.file));
    t := Moved(s2.(views := s.views + [Seen(s.file, n, n, n)]), p, Idle);
    RunEmpty(t);
    moves := Before(s2, p, Finish, t, [], t);
    moves := Before(s1, p, Open, s2, moves, t);
    moves := Before(s, p, CallRead, s1, moves, t);
  }

  /** Any process can stop at any point of a call, and then its lock is free again and the file as it was. */
  lemma {:induction false} MayStop(s: World, p: nat) returns (t: World)
    ensures Step(s, p, Stop) == Some(t)
    ensures t.lock == (if s.lock == Some(p) then None else s.lock) && PhaseOf(t, p).Idle?
    ensures t.file == s.file && t.log == s.log && t.acks == s.acks && t.views == s.views
    ensures forall q | q != p :: PhaseOf(t, q) == PhaseOf(s, q)
  {
    t := Released(s, p);
  }
}
