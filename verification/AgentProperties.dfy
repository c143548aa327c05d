/** What the tick of the forward agent promises: the longest serviceable prefix, acknowledgement only after a
    successful forward, and at most one forward of an id in the life of a process. */
module AgentProperties {
  import opened RequestQueue
  import opened ForwardAgent
  import Seqs

  ghost predicate Serviceable(cfg: Config, input: TickInput, r: Request) {
    Admissible(cfg, input, r) && input.accepts(r)
  }

  lemma {:induction false} PrefixOfStrict(c: seq<Request>, k: nat)
    requires StrictlySorted(c) && k <= |c|
    ensures Firsts(c[..k]) == c[..k]
    ensures forall j | 0 < j < |c| :: c[j - 1].id != c[j].id
  {
    FirstsDistinct(c[..k]);
  }

  /** With distinct ids a tick forwards exactly the longest prefix of the id-sorted requests above the cursor that
      are ours, unexpired and accepted, and settles on the last of them, or stays where it was. */
  lemma {:induction false} TickServesLongestPrefix(
    cfg: Config, s: AgentState, input: TickInput, s': AgentState, rep: TickReport, order: seq<Request>)
    requires input.queue.Some? && TickRel(cfg, s, input, s', rep)
    requires StrictlySorted(order) && multiset(order) == multiset(input.queue.value)
    ensures var c, k := Candidates(order, Base(s, input)), |rep.applied|;
      && k <= |c|
      && rep.applied == Ids(c[..k])
      && (forall j | 0 <= j < k :: Serviceable(cfg, input, c[j]))
      && (k < |c| ==> !Serviceable(cfg, input, c[k]))
      && rep.settled == s'.lastAcked == if k == 0 then Base(s, input) else c[k - 1].id
  {
    hide TickRel, Served, Candidates, IsOrder, Base, Serviceable, Ids;
    var o, k := TickWitness(cfg, s, input, s', rep);
    SortedPermutationUnique(order, o);
    StrictTick(cfg, s, input, order, k, s', rep);
  }

  lemma {:induction false} StrictTick(cfg: Config, s: AgentState, input: TickInput, order: seq<Request>, k: nat,
                                      s': AgentState, rep: TickReport)
    requires StrictlySorted(order) && Served(cfg, s, input, order, k, s', rep)
    ensures var c := Candidates(order, Base(s, input));
      && k == |rep.applied| <= |c|
      && rep.applied == Ids(c[..k])
      && (forall j | 0 <= j < k :: Serviceable(cfg, input, c[j]))
      && (k < |c| ==> !Serviceable(cfg, input, c[k]))
      && rep.settled == s'.lastAcked == if k == 0 then Base(s, input) else c[k - 1].id
  {
    hide Candidates, Base, Firsts, LongestServed, StopCommands, MarkCommands, ReadCommands, Forwards, Serviceable,
         StrictlySorted;
    ServedCommands(cfg, s, input, order, k, s', rep);
    hide Served;
    var c := Candidates(order, Base(s, input));
    CandidatesStrict(order, Base(s, input));
    StrictServed(cfg, input, c, k);
    PrefixOfStrict(c, k);
  }

  /** Where no id is repeated, the longest served prefix is the longest serviceable one. */
  lemma {:induction false} StrictServed(cfg: Config, input: TickInput, c: seq<Request>, k: nat)
    requires LongestServed(cfg, input, c, k) && StrictlySorted(c)
    ensures k <= |c| && forall j | 0 <= j < k :: Serviceable(cfg, input, c[j])
    ensures k < |c| ==> !Serviceable(cfg, input, c[k])
  {
    hide Admissible;
    forall j | 0 <= j < k
      ensures Serviceable(cfg, input, c[j])
    {
      assert Passes(cfg, input, c, j);
    }
  }

  lemma {:induction false} SettledInPrefix(order: seq<Request>, base: Uint64, k: nat, r: Request)
    requires Sorted(order) && k <= |Candidates(order, base)|
    requires r in order && base < r.id <= SettledAt(base, Candidates(order, base), k)
    ensures r.id in IdSet(Candidates(order, base)[..k])
  {
    var c := Candidates(order, base);
    CandidatesExact(order, base);
    CandidatesSorted(order, base);
    var i :| 0 <= i < |c| && c[i] == r;
    hide Candidates, Sorted;
    if i < k {
      assert c[..k][i] == r;
    } else {
      assert c[k - 1].id <= c[i].id;
      assert c[..k][k - 1].id == r.id;
    }
  }

  lemma {:induction false} IdsCoverIdSet(s: seq<Request>, id: Uint64)
    requires id in IdSet(s)
    ensures id in Ids(s)
  {
    var r :| r in s && r.id == id;
    var j :| 0 <= j < |s| && s[j] == r;
    assert Ids(s)[j] == id;
  }

  /** Ack follows apply: the acknowledged cursor never passes a queued request whose id this tick has not forwarded. */
  lemma {:induction false} AckFollowsApply(
    cfg: Config, s: AgentState, input: TickInput, s': AgentState, rep: TickReport, r: Request)
    requires input.queue.Some? && TickRel(cfg, s, input, s', rep)
    requires r in input.queue.value && Base(s, input) < r.id <= rep.settled
    ensures r.id in rep.applied
  {
    var order, k := TickWitness(cfg, s, input, s', rep);
    var base := Base(s, input);
    hide TickRel, Sorted, Candidates, Firsts, IdSet;
    assert r in multiset(order);
    var c := Candidates(order, base);
    SettledInPrefix(order, base, k, r);
    SortedPrefix(order, base, k);
    FirstsExact(c[..k]);
    IdsCoverIdSet(Firsts(c[..k]), r.id);
  }

  /** A tick forwards nothing at or below the cursor it starts from, and the cursor never falls. */
  lemma {:induction false} AppliedAboveBase(
    cfg: Config, s: AgentState, input: TickInput, s': AgentState, rep: TickReport)
    requires input.queue.Some? && TickRel(cfg, s, input, s', rep)
    ensures Base(s, input) <= rep.settled == s'.lastAcked
    ensures forall id | id in rep.applied :: Base(s, input) < id
  {
    hide TickRel, Sorted, Candidates, Firsts, IdSet, Served, Base;
    var order, k := TickWitness(cfg, s, input, s', rep);
    var body := CommandShape(cfg, s, input, s', rep);
    ServedEffects(cfg, s, input, order, k, s', rep);
    ServedIdsRange(order, Base(s, input), k);
    IdsInRange(Firsts(Candidates(order, Base(s, input))[..k]), Base(s, input), s'.lastAcked);
  }

  lemma {:induction false} SortedPrefix(order: seq<Request>, base: Uint64, k: nat)
    requires Sorted(order) && k <= |Candidates(order, base)|
    ensures Sorted(Candidates(order, base)[..k])
  {
    CandidatesSorted(order, base);
  }

  /** With distinct ids, every request the cursor passes was ours, unexpired and accepted by the master. */
  lemma {:induction false} SettledWereServiceable(
    cfg: Config, s: AgentState, input: TickInput, s': AgentState, rep: TickReport, order: seq<Request>, r: Request)
    requires input.queue.Some? && TickRel(cfg, s, input, s', rep)
    requires StrictlySorted(order) && multiset(order) == multiset(input.queue.value)
    requires r in order && Base(s, input) < r.id <= rep.settled
    ensures Serviceable(cfg, input, r)
  {
    var base := Base(s, input);
    TickServesLongestPrefix(cfg, s, input, s', rep, order);
    var c := Candidates(order, base);
    CandidatesExact(order, base);
    CandidatesStrict(order, base);
    hide TickRel, Candidates, Serviceable, Base, Ids;
    var i :| 0 <= i < |c| && c[i] == r;
  }

  ghost predicate NoMark(commands: seq<Command>) {
    forall cmd | cmd in commands :: !cmd.Mark?
  }

  ghost predicate ForwardsEach(commands: seq<Command>, ids: seq<Uint64>) {
    forall id | id in ids :: exists spec :: Forward(id, spec) in commands
  }

  ghost predicate ReadsAndForwards(commands: seq<Command>) {
    forall cmd | cmd in commands :: cmd.ReadQueue? || cmd.ReadAck? || cmd.Forward?
  }

  /** The ids of the forwards among the commands, in order. */
  function ForwardIds(commands: seq<Command>): seq<Uint64> {
    if commands == [] then []
    else
      var last := commands[|commands| - 1];
      ForwardIds(commands[..|commands| - 1]) + if last.Forward? then [last.id] else []
  }

  lemma {:induction false} ForwardIdsAppend(a: seq<Command>, b: seq<Command>)
    ensures ForwardIds(a + b) == ForwardIds(a) + ForwardIds(b)
  {
    if b == [] {
      assert a + b == a && ForwardIds(a) + [] == ForwardIds(a);
    } else {
      var n := |b| - 1;
      assert (a + b)[..|a + b| - 1] == a + b[..n] && (a + b)[|a + b| - 1] == b[n];
      ForwardIdsAppend(a, b[..n]);
      var last := if b[n].Forward? then [b[n].id] else [];
      assert ForwardIds(b) == ForwardIds(b[..n]) + last;
      hide ForwardIds;
      Seqs.AppendAssoc(ForwardIds(a), ForwardIds(b[..n]), last);
    }
  }

  lemma {:induction false} ForwardIdsOf(done: seq<Request>)
    ensures ForwardIds(Forwards(done)) == Ids(done)
  {
    if done != [] {
      var n := |done| - 1;
      ForwardIdsOf(done[..n]);
      assert Forwards(done)[..n] == Forwards(done[..n]);
      assert Ids(done) == Ids(done[..n]) + [done[n].id];
    }
  }

  lemma {:induction false} BodyCovers(head: seq<Command>, done: seq<Request>, tail: seq<Command>)
    requires NoMark(head) && NoMark(tail)
    ensures NoMark(head + Forwards(done) + tail)
    ensures ForwardsEach(head + Forwards(done) + tail, Ids(done))
  {
    forall i | 0 <= i < |done|
      ensures Forward(done[i].id, SpecOf(done[i])) in head + Forwards(done) + tail
    {
      assert (head + Forwards(done) + tail)[|head| + i] == Forwards(done)[i];
    }
  }

  lemma {:induction false} AscendingSnoc(ids: seq<Uint64>, id: Uint64)
    requires Ascending(ids) && (ids != [] ==> ids[|ids| - 1] < id)
    ensures Ascending(ids + [id])
  {
  }

  lemma {:induction false} IdsAscend(s: seq<Request>)
    requires StrictlySorted(s)
    ensures Ascending(Ids(s))
  {
  }

  /** The forward that stops a tick is of an id above all those forwarded before it. */
  lemma {:induction false} StopAscends(cfg: Config, input: TickInput, c: seq<Request>, k: nat)
    requires Sorted(c) && LongestServed(cfg, input, c, k)
    ensures Ascending(Ids(Firsts(c[..k])) + ForwardIds(StopCommands(cfg, input, c, k)))
  {
    var done := Firsts(c[..k]);
    FirstsStrict(c[..k]);
    FirstsExact(c[..k]);
    IdsAscend(done);
    if k < |c| && Admissible(cfg, input, c[k]) {
      assert k > 0 ==> c[k - 1].id < c[k].id && c[..k][k - 1] == c[k - 1];
      hide Firsts, Admissible, Ascending, Sorted, StrictlySorted, LongestServed, IdSet;
      var stop := Forward(c[k].id, SpecOf(c[k]));
      assert StopCommands(cfg, input, c, k) == [stop] && ForwardIds([stop]) == [c[k].id] by {
        assert [stop][..0] == [] && ForwardIds([]) == [];
      }
      AscendingSnoc(Ids(done), c[k].id);
    } else {
      assert Ids(done) + [] == Ids(done);
    }
  }

  function ReadCommands(seeded: bool): seq<Command> {
    [ReadQueue] + if seeded then [] else [ReadAck]
  }

  lemma {:induction false} ReadsForwardNothing(seeded: bool)
    ensures NoMark(ReadCommands(seeded)) && ReadsAndForwards(ReadCommands(seeded)) && ForwardIds(ReadCommands(seeded)) == []
  {
    assert [ReadQueue, ReadAck][..1] == [ReadQueue] && [ReadQueue][..0] == [];
  }

  lemma {:induction false} BodyReads(head: seq<Command>, done: seq<Request>, tail: seq<Command>)
    requires ReadsAndForwards(head) && ReadsAndForwards(tail) && ForwardIds(head) == []
    ensures ReadsAndForwards(head + Forwards(done) + tail)
    ensures ForwardIds(head + Forwards(done) + tail) == Ids(done) + ForwardIds(tail)
  {
    ForwardIdsAppend(head + Forwards(done), tail);
    ForwardIdsAppend(head, Forwards(done));
    ForwardIdsOf(done);
    hide ForwardIds;
    assert [] + Ids(done) == Ids(done);
  }

  lemma {:induction false} ServedCommands(cfg: Config, s: AgentState, input: TickInput, order: seq<Request>, k: nat,
                                          s': AgentState, rep: TickReport)
    requires Served(cfg, s, input, order, k, s', rep)
    ensures var base := Base(s, input); var c := Candidates(order, base);
      && LongestServed(cfg, input, c, k) && rep.applied == Ids(Firsts(c[..k]))
      && rep.commands == ReadCommands(s.seeded) + Forwards(Firsts(c[..k])) + StopCommands(cfg, input, c, k)
                         + MarkCommands(base, rep.settled)
      && rep.settled == s'.lastAcked == SettledAt(base, c, k) && rep.failed == (StopCommands(cfg, input, c, k) != [])
  {
    hide Candidates, Firsts, Base, Admissible, Ids, Forwards, IdSet, SpecsAfter, LongestServed;
  }

  lemma {:induction false} StopShape(cfg: Config, input: TickInput, c: seq<Request>, k: nat)
    ensures var tail := StopCommands(cfg, input, c, k);
      NoMark(tail) && ReadsAndForwards(tail) && |ForwardIds(tail)| == (if tail == [] then 0 else 1)
  {
    hide Admissible;
    if k < |c| {
      var stop := Forward(c[k].id, SpecOf(c[k]));
      assert [stop][..0] == [] && ForwardIds([]) == [];
    }
  }

  /** The commands of a tick: nothing but reads and forwards; the forwards go by ascending ids, so none is repeated, and
      are those of the applied ids and, if the tick failed, one more, which was refused; then comes the ack write of the
      settled cursor, if the cursor moved. */
  lemma {:induction false} CommandShape(
    cfg: Config, s: AgentState, input: TickInput, s': AgentState, rep: TickReport)
    returns (body: seq<Command>)
    requires input.queue.Some? && TickRel(cfg, s, input, s', rep)
    ensures rep.commands == body + MarkCommands(Base(s, input), rep.settled)
    ensures ReadsAndForwards(body) && NoMark(body) && ForwardsEach(body, rep.applied)
    ensures Ascending(ForwardIds(body)) && rep.applied <= ForwardIds(body)
    ensures |ForwardIds(body)| == |rep.applied| + (if rep.failed then 1 else 0)
    ensures rep.settled == s'.lastAcked
  {
    var order, k := TickWitness(cfg, s, input, s', rep);
    var c := Candidates(order, Base(s, input));
    ServedCommands(cfg, s, input, order, k, s', rep);
    CandidatesSorted(order, Base(s, input));
    StopAscends(cfg, input, c, k);
    StopShape(cfg, input, c, k);
    ReadsForwardNothing(s.seeded);
    var done, tail := Firsts(c[..k]), StopCommands(cfg, input, c, k);
    hide Served, TickRel, Candidates, Firsts, Base, SettledAt, Admissible, Ids, Forwards, ForwardsEach, ForwardIds,
         ReadCommands, StopCommands, MarkCommands, LongestServed, NoMark, ReadsAndForwards, Ascending, Sorted;
    BodyCovers(ReadCommands(s.seeded), done, tail);
    BodyReads(ReadCommands(s.seeded), done, tail);
    body := ReadCommands(s.seeded) + Forwards(done) + tail;
  }

  /** The ack write is the last command of its tick, it names the settled cursor, and it comes after a forward
      of every id the tick applied. */
  lemma {:induction false} MarkComesLast(
    cfg: Config, s: AgentState, input: TickInput, s': AgentState, rep: TickReport, n: Uint64)
    returns (before: seq<Command>)
    requires input.queue.Some? && TickRel(cfg, s, input, s', rep) && Mark(n) in rep.commands
    ensures n == rep.settled > Base(s, input)
    ensures rep.commands == before + [Mark(n)]
    ensures NoMark(before) && ForwardsEach(before, rep.applied)
  {
    hide TickRel, Base, ForwardsEach, ForwardIds, Ascending, ReadsAndForwards;
    before := CommandShape(cfg, s, input, s', rep);
    assert Mark(n) !in before;
  }

  // ---- One process, any sequence of ticks and cancellations -----------------

  datatype AgentStep = Ticked(input: TickInput, report: TickReport) | Cancelled(cancels: Uint64 -> bool)

  ghost predicate StepRel(cfg: Config, s: AgentState, step: AgentStep, s': AgentState) {
    match step
    case Ticked(input, report) => TickRel(cfg, s, input, s', report)
    case Cancelled(cancels) => s' == s.(applied := Uncancelled(s, cancels))
  }

  function AppliedIn(step: AgentStep): seq<Uint64> {
    match step
    case Ticked(_, report) => report.applied
    case Cancelled(_) => []
  }

  function AppliedOver(steps: seq<AgentStep>): seq<Uint64> {
    if steps == [] then [] else AppliedOver(steps[..|steps| - 1]) + AppliedIn(steps[|steps| - 1])
  }

  ghost predicate AgentRun(cfg: Config, states: seq<AgentState>, steps: seq<AgentStep>) {
    && |states| == |steps| + 1
    && states[0] == FRESH_AGENT
    && forall i | 0 <= i < |steps| :: StepRel(cfg, states[i], steps[i], states[i + 1])
  }

  lemma {:induction false} StepKeepsHistory(
    cfg: Config, s: AgentState, step: AgentStep, s': AgentState, history: seq<Uint64>)
    requires AgentInv(s) && HistoryInv(history, s) && StepRel(cfg, s, step, s')
    ensures AgentInv(s') && HistoryInv(history + AppliedIn(step), s') && s.lastAcked <= s'.lastAcked
  {
    match step
    case Cancelled(_) =>
      assert history + [] == history;
    case Ticked(input, rep) =>
      if input.queue.None? {
        assert history + [] == history;
      } else {
        var order, k := TickWitness(cfg, s, input, s', rep);
        ServedKeepsInv(cfg, s, input, order, k, s', rep);
        HistoryGrows(history, s, rep.applied, s');
      }
  }

  /** At most once: over any ticks on any queue contents, whether or not the ack writes land, and any cancellations,
      one process forwards ids in strictly ascending order, all at or below its cursor, which never falls. */
  lemma {:induction false} AtMostOnce(cfg: Config, states: seq<AgentState>, steps: seq<AgentStep>)
    requires AgentRun(cfg, states, steps)
    ensures Ascending(AppliedOver(steps))
    ensures AgentInv(states[|steps|]) && HistoryInv(AppliedOver(steps), states[|steps|])
    ensures forall i | 0 <= i < |steps| :: states[i].lastAcked <= states[i + 1].lastAcked
    decreases |steps|
  {
    if steps != [] {
      var n := |steps| - 1;
      AtMostOnce(cfg, states[..n + 1], steps[..n]);
      StepKeepsHistory(cfg, states[n], steps[n], states[n + 1], AppliedOver(steps[..n]));
    }
  }
}
