/** Many processes on one binding file: writers that lock, read, stage a temporary file and rename it over the old one,
    and readers that take no lock (internal/core/herdrspace/store.go). Any process may stop at any point, by an error
    return or by dying, and the kernel then drops its lock. */
module StoreProtocol {

  import opened Wrappers
  import opened BindingStore

  /** Where a process stands. Each phase but the first remembers how many updates had been committed when the call
      began (from), and the last ones how many there were when it took effect (at); these numbers are history only. */
  datatype Phase =
    | Idle
    | Waiting(op: Op, from: nat)
    | Holding(op: Op, from: nat)
    | Loaded(op: Op, from: nat, snapshot: seq<Binding>)
    | Staged(op: Op, from: nat, next: seq<Binding>)
    | Renamed(op: Op, from: nat, at: nat)
    | Reading(from: nat)
    | Opened(from: nat, at: nat, content: seq<Binding>)

  /** A write that returned success: it committed as update number at, between its call and its return. */
  datatype Ack = Ack(op: Op, from: nat, at: nat, to: nat)

  /** A read that returned. */
  datatype Seen = Seen(content: seq<Binding>, from: nat, at: nat, to: nat)

  datatype World = World(file: seq<Binding>, lock: Option<nat>, procs: map<nat, Phase>,
                         log: seq<Op>, acks: seq<Ack>, views: seq<Seen>)

  datatype Event =
    | Call(op: Op)
    | Acquire
    | Load
    | Stage
    | Rename
    | Return
    | CallRead
    | Open
    | Finish
    | Stop

  function PhaseOf(s: World, p: nat): Phase {
    if p in s.procs then s.procs[p] else Idle
  }

  function Moved(s: World, p: nat, phase: Phase): World {
    s.(procs := s.procs[p := phase])
  }

  function Released(s: World, p: nat): World {
    Moved(if s.lock == Some(p) then s.(lock := None) else s, p, Idle)
  }

  /** One atomic step of process p, or None when p cannot take it now. */
  function Step(s: World, p: nat, e: Event): Option<World> {
    var phase := PhaseOf(s, p);
    match e
    case Call(op) =>
      if phase.Idle? then Some(Moved(s, p, Waiting(op, |s.log|))) else None
    case Acquire =>
      if phase.Waiting? && s.lock.None?
      then Some(Moved(s.(lock := Some(p)), p, Holding(phase.op, phase.from))) else None
    case Load =>
      if phase.Holding? then Some(Moved(s, p, Loaded(phase.op, phase.from, s.file))) else None
    case Stage =>
      if phase.Loaded? then Some(Moved(s, p, Staged(phase.op, phase.from, Commit(phase.snapshot, phase.op)))) else None
    case Rename =>
      if phase.Staged?
      then Some(Moved(s.(file := phase.next, log := s.log + [phase.op]), p, Renamed(phase.op, phase.from, |s.log|)))
      else None
    case Return =>
      if phase.Renamed?
      then Some(Released(s.(acks := s.acks + [Ack(phase.op, phase.from, phase.at, |s.log|)]), p)) else None
    case CallRead =>
      if phase.Idle? then Some(Moved(s, p, Reading(|s.log|))) else None
    case Open =>
      if phase.Reading? then Some(Moved(s, p, Opened(phase.from, |s.log|, s.file))) else None
    case Finish =>
      if phase.Opened?
      then Some(Moved(s.(views := s.views + [Seen(phase.content, phase.from, phase.at, |s.log|)]), p, Idle)) else None
    case Stop =>
      Some(Released(s, p))
  }

  datatype Move = Move(who: nat, event: Event)

  /** The moves, in order, take s to t. */
  ghost predicate Run(s: World, moves: seq<Move>, t: World)
    decreases |moves|
  {
    if moves == [] then s == t
    else Step(s, moves[0].who, moves[0].event).Some? &&
         Run(Step(s, moves[0].who, moves[0].event).value, moves[1..], t)
  }

  function Start(base: seq<Binding>): World {
    World(base, None, map[], [], [], [])
  }

  /** The store after the updates of log, one after the other. */
  function Fold(base: seq<Binding>, log: seq<Op>): seq<Binding> {
    if log == [] then base else Commit(Fold(base, log[..|log| - 1]), log[|log| - 1])
  }

  lemma {:induction false} FoldAppend(base: seq<Binding>, log: seq<Op>, op: Op)
    ensures Fold(base, log + [op]) == Commit(Fold(base, log), op)
  {
    assert (log + [op])[..|log|] == log;
  }

  lemma {:induction false} FoldUnique(base: seq<Binding>, log: seq<Op>)
    requires Unique(base)
    ensures Unique(Fold(base, log))
  {
    if log != [] {
      FoldUnique(base, log[..|log| - 1]);
      CommitUnique(Fold(base, log[..|log| - 1]), log[|log| - 1]);
    }
  }

  // ---- The invariant ---------------------------------------------------------------

  predicate IsHolder(phase: Phase) {
    phase.Holding? || phase.Loaded? || phase.Staged? || phase.Renamed?
  }

  /** What process p may rely on in its phase. */
  ghost predicate PhaseOk(base: seq<Binding>, s: World, p: nat) {
    var phase := PhaseOf(s, p);
    && (IsHolder(phase) ==> s.lock == Some(p))
    && (!phase.Idle? ==> phase.from <= |s.log|)
    && (phase.Loaded? ==> phase.snapshot == s.file)
    && (phase.Staged? ==> phase.next == Commit(s.file, phase.op))
    && (phase.Renamed? ==> Latest(s, phase.op, phase.from, phase.at))
    && (phase.Opened? ==> SeenOk(base, s.log, Seen(phase.content, phase.from, phase.at, |s.log|)))
  }

  /** The update committed last is op, and no write has returned since. */
  ghost predicate Latest(s: World, op: Op, from: nat, at: nat) {
    from <= at && at + 1 == |s.log| && s.log[at] == op && forall i | 0 <= i < |s.acks| :: s.acks[i].at < at
  }

  /** The write took effect, between its call and its return. */
  ghost predicate AckOk(log: seq<Op>, a: Ack) {
    a.from <= a.at < a.to <= |log| && log[a.at] == a.op
  }

  /** The content read is the store as it stood at some moment between the call and the return. */
  ghost predicate SeenOk(base: seq<Binding>, log: seq<Op>, r: Seen) {
    r.from <= r.at <= r.to <= |log| && r.content == Fold(base, log[..r.at])
  }

  ghost predicate Inv(base: seq<Binding>, s: World) {
    && s.file == Fold(base, s.log)
    && (forall p: nat :: PhaseOk(base, s, p))
    && (forall i | 0 <= i < |s.acks| :: AckOk(s.log, s.acks[i]))
    && (forall i, j | 0 <= i < j < |s.acks| :: s.acks[i].at < s.acks[j].at)
    && (forall i | 0 <= i < |s.views| :: SeenOk(base, s.log, s.views[i]))
  }

  lemma {:induction false} SeenLater(base: seq<Binding>, log: seq<Op>, op: Op, r: Seen)
    requires SeenOk(base, log, r)
    ensures SeenOk(base, log + [op], r)
  {
    assert (log + [op])[..r.at] == log[..r.at];
  }

  lemma {:induction false} RenameKeepsPhase(base: seq<Binding>, s: World, p: nat, t: World, q: nat)
    requires Inv(base, s) && Step(s, p, Rename) == Some(t)
    ensures PhaseOk(base, t, q)
  {
    hide Fold, Commit;
    assert PhaseOk(base, s, p) && PhaseOk(base, s, q);
    var other := PhaseOf(s, q);
    if q != p && other.Opened? {
      SeenLater(base, s.log, PhaseOf(s, p).op, Seen(other.content, other.from, other.at, |s.log|));
    }
    if q == p {
      forall i | 0 <= i < |t.acks|
        ensures t.acks[i].at < |s.log|
      {
        assert AckOk(s.log, s.acks[i]);
      }
    }
  }

  /** A commit by the lock holder disturbs no other process. */
  lemma {:induction false} RenameKeepsInv(base: seq<Binding>, s: World, p: nat, t: World)
    requires Inv(base, s) && Step(s, p, Rename) == Some(t)
    ensures Inv(base, t)
  {
    hide Fold, Commit, SeenOk;
    var op := PhaseOf(s, p).op;
    assert PhaseOk(base, s, p);
    FoldAppend(base, s.log, op);
    forall q: nat
      ensures PhaseOk(base, t, q)
    {
      RenameKeepsPhase(base, s, p, t, q);
    }
    hide PhaseOk, PhaseOf;
    forall i | 0 <= i < |t.acks|
      ensures AckOk(t.log, t.acks[i])
    {
      assert AckOk(s.log, s.acks[i]);
    }
    forall i | 0 <= i < |t.views|
      ensures SeenOk(base, t.log, t.views[i])
    {
      SeenLater(base, s.log, op, s.views[i]);
    }
  }

  lemma {:induction false} StepKeepsInv(base: seq<Binding>, s: World, p: nat, e: Event, t: World)
    requires Inv(base, s) && Step(s, p, e) == Some(t)
    ensures Inv(base, t)
  {
    hide Fold, Commit, Inv, PhaseOk;
    if e.Rename? {
      RenameKeepsInv(base, s, p, t);
      return;
    }
    forall q: nat
      ensures PhaseOk(base, t, q)
    {
      StepKeepsPhase(base, s, p, e, t, q);
    }
    StepKeepsLists(base, s, p, e, t);
  }

  lemma {:induction false} StepKeepsPhase(base: seq<Binding>, s: World, p: nat, e: Event, t: World, q: nat)
    requires Inv(base, s) && Step(s, p, e) == Some(t) && !e.Rename?
    ensures PhaseOk(base, t, q)
  {
    hide Fold, Commit;
    assert PhaseOk(base, s, p) && PhaseOk(base, s, q);
    assert s.log[..|s.log|] == s.log;
  }

  lemma {:induction false} StepKeepsLists(base: seq<Binding>, s: World, p: nat, e: Event, t: World)
    requires Inv(base, s) && Step(s, p, e) == Some(t) && !e.Rename?
    requires forall q: nat :: PhaseOk(base, t, q)
    ensures Inv(base, t)
  {
    hide Fold, Commit;
    assert PhaseOk(base, s, p);
    hide PhaseOk;
  }

  lemma {:induction false} RunKeepsInv(base: seq<Binding>, s: World, moves: seq<Move>, t: World)
    requires Inv(base, s) && Run(s, moves, t)
    ensures Inv(base, t)
    decreases |moves|
  {
    if moves != [] {
      var next := Step(s, moves[0].who, moves[0].event).value;
      StepKeepsInv(base, s, moves[0].who, moves[0].event, next);
      RunKeepsInv(base, next, moves[1..], t);
    }
  }

  // ---- Results ---------------------------------------------------------------------

  /** Linearizability. Whatever the interleaving: the file is the committed updates applied in lock order, with
      labels and handles pairwise distinct; every write that returned success is among them at a position of its own,
      committed between its call and its return; and every read saw the store as it was at one moment of the read. */
  lemma {:induction false} Linearizable(base: seq<Binding>, moves: seq<Move>, t: World)
    requires Unique(base) && Run(Start(base), moves, t)
    ensures t.file == Fold(base, t.log) && Unique(t.file)
    ensures forall i | 0 <= i < |t.acks| :: AckOk(t.log, t.acks[i])
    ensures forall i, j | 0 <= i < j < |t.acks| :: t.acks[i].at < t.acks[j].at
    ensures forall i | 0 <= i < |t.views| :: SeenOk(base, t.log, t.views[i]) && Unique(t.views[i].content)
  {
    RunKeepsInv(base, Start(base), moves, t);
    FoldUnique(base, t.log);
    forall i | 0 <= i < |t.views|
      ensures Unique(t.views[i].content)
    {
      FoldUnique(base, t.log[..t.views[i].at]);
    }
  }

  /** At most one process is between taking the lock and letting it go. */
  lemma {:induction false} OneHolder(base: seq<Binding>, moves: seq<Move>, t: World, p: nat, q: nat)
    requires Run(Start(base), moves, t)
    requires IsHolder(PhaseOf(t, p)) && IsHolder(PhaseOf(t, q))
    ensures p == q
  {
    RunKeepsInv(base, Start(base), moves, t);
    assert PhaseOk(base, t, p) && PhaseOk(base, t, q);
  }

  /** No update is lost: a read called after a write returned sees the store with that write in it. */
  lemma {:induction false} ReadsSeeWrites(base: seq<Binding>, moves: seq<Move>, t: World, i: nat, j: nat)
    requires Unique(base) && Run(Start(base), moves, t)
    requires i < |t.acks| && j < |t.views| && t.acks[i].to <= t.views[j].from
    ensures exists k: nat :: t.acks[i].at < k <= |t.log| && t.log[t.acks[i].at] == t.acks[i].op
                           && t.views[j].content == Fold(base, t.log[..k])
  {
    Linearizable(base, moves, t);
    assert AckOk(t.log, t.acks[i]) && SeenOk(base, t.log, t.views[j]);
    var k: nat := t.views[j].at;
    assert t.views[j].content == Fold(base, t.log[..k]);
  }

  /** Reads do not go back in time: of two reads, one called after the other returned, the later one sees every update
      the earlier one saw. */
  lemma {:induction false} ReadsMoveForward(base: seq<Binding>, moves: seq<Move>, t: World, i: nat, j: nat)
    requires Unique(base) && Run(Start(base), moves, t)
    requires i < |t.views| && j < |t.views| && t.views[i].to <= t.views[j].from
    ensures exists k: nat, l: nat :: k <= l <= |t.log|
                                   && t.views[i].content == Fold(base, t.log[..k])
                                   && t.views[j].content == Fold(base, t.log[..l])
  {
    Linearizable(base, moves, t);
    var r, q := t.views[i], t.views[j];
    assert SeenOk(base, t.log, r) && SeenOk(base, t.log, q);
    var k: nat, l: nat := r.at, q.at;
    assert k <= l <= |t.log| && r.content == Fold(base, t.log[..k]) && q.content == Fold(base, t.log[..l]);
  }
}
