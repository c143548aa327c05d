/** The laptop agent of internal/clientagent/agent.go: it forwards queued requests in id order and acknowledges
    only what it has forwarded. Every answer of the remote side is an input, so any remote behaviour is covered. */
module ForwardAgent {
  import opened Wrappers
  import opened RequestQueue
  import Text

  datatype ForwardSpec = ForwardSpec(localPort: Port, remotePort: Port)

  function SpecOf(r: Request): ForwardSpec {
    ForwardSpec(r.localPort, r.remotePort)
  }

  datatype Command =
    | ReadQueue
    | ReadAck
    | Forward(id: Uint64, spec: ForwardSpec)
    | Mark(id: Uint64)
    | Cancel(id: Uint64, spec: ForwardSpec)

  datatype Config = Config(target: string, hostName: string, ttl: nat)

  function ServedHost(cfg: Config): string {
    if cfg.hostName != "" then cfg.hostName
    else
      var i := Text.LastIndex(cfg.target, '@');
      if i >= 0 then cfg.target[i + 1..] else cfg.target
  }

  predicate IsOurs(cfg: Config, r: Request) {
    r.host == "" || r.host == ServedHost(cfg)
  }

  /** What the remote side and the clock answer during one tick: the queue (None when it cannot be read or parsed),
      the number the ack file holds (None when it does not parse), and whether a forward is accepted. */
  datatype TickInput = TickInput(queue: Option<seq<Request>>, ackSeed: Option<Uint64>, now: int,
                                 accepts: Request -> bool)

  datatype TickReport = TickReport(
    applied: seq<Uint64>, settled: Uint64, failed: bool, notice: Option<Uint64>, commands: seq<Command>)

  datatype AgentState = AgentState(
    applied: set<Uint64>, specs: map<Uint64, ForwardSpec>, reported: set<Uint64>, lastAcked: Uint64, seeded: bool)

  const FRESH_AGENT := AgentState({}, map[], {}, 0, false)

  // ---- Specification of one tick -----------------------------------------

  /** The requests above the cursor, in order. */
  function Candidates(order: seq<Request>, base: Uint64): seq<Request> {
    if order == [] then []
    else
      var rest := Candidates(order[..|order| - 1], base);
      var r := order[|order| - 1];
      if r.id > base then rest + [r] else rest
  }

  /** Of each run of equal ids in a sorted sequence, the first request. */
  function Firsts(c: seq<Request>): seq<Request> {
    if c == [] then []
    else
      var n := |c| - 1;
      if n > 0 && c[n - 1].id == c[n].id then Firsts(c[..n]) else Firsts(c[..n]) + [c[n]]
  }

  function Ids(s: seq<Request>): (ids: seq<Uint64>)
    ensures |ids| == |s|
    ensures forall i | 0 <= i < |s| :: ids[i] == s[i].id
  {
    if s == [] then [] else Ids(s[..|s| - 1]) + [s[|s| - 1].id]
  }

  function Forwards(s: seq<Request>): (cs: seq<Command>)
    ensures |cs| == |s|
    ensures forall i | 0 <= i < |s| :: cs[i] == Forward(s[i].id, SpecOf(s[i]))
  {
    if s == [] then [] else Forwards(s[..|s| - 1]) + [Forward(s[|s| - 1].id, SpecOf(s[|s| - 1]))]
  }

  function SpecsAfter(specs: map<Uint64, ForwardSpec>, s: seq<Request>): map<Uint64, ForwardSpec> {
    if s == [] then specs
    else SpecsAfter(specs, s[..|s| - 1])[s[|s| - 1].id := SpecOf(s[|s| - 1])]
  }

  function IdSet(s: seq<Request>): set<Uint64> {
    set r | r in s :: r.id
  }

  predicate Admissible(cfg: Config, input: TickInput, r: Request) {
    IsOurs(cfg, r) && !Expired(r, Cutoff(input.now, EffectiveTtl(cfg.ttl)))
  }

  /** Candidate j does not stop the tick: it is forwarded, or it repeats the id of the candidate before it. */
  predicate Passes(cfg: Config, input: TickInput, c: seq<Request>, j: nat)
    requires j < |c|
  {
    (Admissible(cfg, input, c[j]) && input.accepts(c[j])) || (j > 0 && c[j - 1].id == c[j].id)
  }

  /** k is the length of the longest prefix of c that the agent gets through. */
  ghost predicate LongestServed(cfg: Config, input: TickInput, c: seq<Request>, k: nat) {
    && k <= |c|
    && (forall j | 0 <= j < k :: Passes(cfg, input, c, j))
    && (k < |c| ==> !Passes(cfg, input, c, k))
  }

  function Base(s: AgentState, input: TickInput): Uint64 {
    if !s.seeded && input.ackSeed.Some? then input.ackSeed.value else s.lastAcked
  }

  function SettledAt(base: Uint64, c: seq<Request>, k: nat): Uint64
    requires k <= |c|
  {
    if k == 0 then base else c[k - 1].id
  }

  function StopCommands(cfg: Config, input: TickInput, c: seq<Request>, k: nat): seq<Command> {
    if k < |c| && Admissible(cfg, input, c[k]) then [Forward(c[k].id, SpecOf(c[k]))] else []
  }

  function MarkCommands(base: Uint64, settled: Uint64): seq<Command> {
    if settled > base then [Mark(settled)] else []
  }

  /** The tick got through the first k candidates of this order of the queue. */
  ghost predicate Served(cfg: Config, s: AgentState, input: TickInput, order: seq<Request>, k: nat,
                         s': AgentState, rep: TickReport)
  {
    var base := Base(s, input);
    var c := Candidates(order, base);
    && LongestServed(cfg, input, c, k)
    && var done := Firsts(c[..k]);
    var stuck := k < |c| && !Admissible(cfg, input, c[k]);
    && s'.applied == s.applied + IdSet(done)
    && s'.specs == SpecsAfter(s.specs, done)
    && s'.reported == s.reported + (if stuck then {c[k].id} else {})
    && s'.lastAcked == SettledAt(base, c, k)
    && s'.seeded
    && rep.applied == Ids(done)
    && rep.settled == SettledAt(base, c, k)
    && rep.failed == (k < |c| && Admissible(cfg, input, c[k]))
    && rep.notice == (if stuck && c[k].id !in s.reported then Some(c[k].id) else None)
    && rep.commands == [ReadQueue] + (if s.seeded then [] else [ReadAck]) + Forwards(done)
                       + StopCommands(cfg, input, c, k) + MarkCommands(base, SettledAt(base, c, k))
  }

  ghost predicate IsOrder(order: seq<Request>, pending: seq<Request>) {
    Sorted(order) && multiset(order) == multiset(pending)
  }

  ghost predicate TickRel(cfg: Config, s: AgentState, input: TickInput, s': AgentState, rep: TickReport) {
    match input.queue
    case None => s' == s && rep == TickReport([], 0, true, None, [ReadQueue])
    case Some(pending) =>
      exists order: seq<Request>, k: nat :: IsOrder(order, pending) && Served(cfg, s, input, order, k, s', rep)
  }

  lemma {:induction false} TickWitness(cfg: Config, s: AgentState, input: TickInput, s': AgentState, rep: TickReport)
    returns (order: seq<Request>, k: nat)
    requires input.queue.Some? && TickRel(cfg, s, input, s', rep)
    ensures Sorted(order) && multiset(order) == multiset(input.queue.value)
    ensures Served(cfg, s, input, order, k, s', rep)
    ensures k <= |Candidates(order, Base(s, input))|
  {
    order, k :| IsOrder(order, input.queue.value) && Served(cfg, s, input, order, k, s', rep);
  }

  /** Everything this process has forwarded lies at or below its cursor. */
  ghost predicate AgentInv(s: AgentState) {
    && (forall id | id in s.applied :: id <= s.lastAcked)
    && s.applied <= s.specs.Keys
    && (!s.seeded ==> s.applied == {} && s.lastAcked == 0)
  }

  // ---- Facts about the specification functions ----------------------------

  lemma {:induction false} CandidatesExact(order: seq<Request>, base: Uint64)
    ensures forall r :: r in Candidates(order, base) <==> r in order && r.id > base
  {
    if order != [] {
      var n := |order| - 1;
      CandidatesExact(order[..n], base);
      assert order == order[..n] + [order[n]];
    }
  }

  lemma {:induction false} CandidatesSorted(order: seq<Request>, base: Uint64)
    requires Sorted(order)
    ensures Sorted(Candidates(order, base))
  {
    if order != [] {
      var n := |order| - 1;
      var rest := Candidates(order[..n], base);
      CandidatesSorted(order[..n], base);
      CandidatesExact(order[..n], base);
      forall j | 0 <= j < |rest|
        ensures rest[j].id <= order[n].id
      {
        assert rest[j] in order[..n];
      }
    }
  }

  lemma {:induction false} CandidatesStrict(order: seq<Request>, base: Uint64)
    requires StrictlySorted(order)
    ensures StrictlySorted(Candidates(order, base))
  {
    if order != [] {
      var n := |order| - 1;
      var rest := Candidates(order[..n], base);
      CandidatesStrict(order[..n], base);
      CandidatesExact(order[..n], base);
      forall j | 0 <= j < |rest|
        ensures rest[j].id < order[n].id
      {
        assert rest[j] in order[..n];
      }
    }
  }

  /** The candidates of a prefix are a prefix of the candidates. */
  lemma {:induction false} CandidatesPrefix(order: seq<Request>, i: nat, base: Uint64)
    requires i <= |order|
    ensures |Candidates(order[..i], base)| <= |Candidates(order, base)|
    ensures Candidates(order, base)[..|Candidates(order[..i], base)|] == Candidates(order[..i], base)
  {
    if i == |order| {
      assert order[..i] == order;
    } else {
      var n := |order| - 1;
      CandidatesPrefix(order[..n], i, base);
      assert order[..n][..i] == order[..i];
    }
  }

  lemma {:induction false} CandidatesStep(order: seq<Request>, i: nat, base: Uint64)
    requires i < |order|
    ensures Candidates(order[..i + 1], base)
         == Candidates(order[..i], base) + (if order[i].id > base then [order[i]] else [])
  {
    assert order[..i + 1][..i] == order[..i];
  }

  lemma {:induction false} IdSetAppend(s: seq<Request>, r: Request)
    ensures IdSet(s + [r]) == IdSet(s) + {r.id}
  {
    assert forall x :: x in s + [r] <==> x in s || x == r;
  }

  lemma {:induction false} FirstsStep(c: seq<Request>)
    requires c != []
    ensures var n := |c| - 1; var repeats := n > 0 && c[n - 1].id == c[n].id;
      && Firsts(c) == (if repeats then Firsts(c[..n]) else Firsts(c[..n]) + [c[n]])
      && (repeats ==> c[..n] != [] && c[..n][n - 1].id == c[n].id && c[n].id in IdSet(c[..n]))
  {
    var n := |c| - 1;
    if n > 0 {
      assert c[..n][n - 1] == c[n - 1] && c[n - 1] in c[..n];
    }
    hide IdSet;
    assert Firsts(c[..n]) + [] == Firsts(c[..n]);
  }

  lemma {:induction false} NoFirsts()
    ensures Firsts([]) == [] && IdSet([]) == {}
  {
  }

  lemma {:induction false} FirstsExact(c: seq<Request>)
    requires Sorted(c)
    ensures IdSet(Firsts(c)) == IdSet(c)
    ensures forall r | r in Firsts(c) :: r in c
    ensures c != [] ==> Firsts(c) != [] && Firsts(c)[|Firsts(c)| - 1].id == c[|c| - 1].id
  {
    hide Firsts, IdSet;
    if c == [] {
      NoFirsts();
    } else {
      var n := |c| - 1;
      FirstsExact(c[..n]);
      FirstsStep(c);
      IdSetAppend(c[..n], c[n]);
      IdSetAppend(Firsts(c[..n]), c[n]);
      assert c == c[..n] + [c[n]];
    }
  }

  lemma {:induction false} FirstsStrict(c: seq<Request>)
    requires Sorted(c)
    ensures StrictlySorted(Firsts(c))
  {
    if c != [] {
      var n := |c| - 1;
      FirstsStrict(c[..n]);
      FirstsExact(c[..n]);
    }
  }

  lemma {:induction false} FirstsDistinct(c: seq<Request>)
    requires StrictlySorted(c)
    ensures Firsts(c) == c
  {
    if c != [] {
      FirstsDistinct(c[..|c| - 1]);
    }
  }

  lemma {:induction false} SpecsAfterKeys(specs: map<Uint64, ForwardSpec>, s: seq<Request>)
    ensures SpecsAfter(specs, s).Keys == specs.Keys + IdSet(s)
  {
    if s != [] {
      var n := |s| - 1;
      SpecsAfterKeys(specs, s[..n]);
      assert s == s[..n] + [s[n]];
      IdSetAppend(s[..n], s[n]);
    }
  }

  // ---- What every tick keeps ------------------------------------------------

  ghost predicate Ascending(ids: seq<Uint64>) {
    forall i, j | 0 <= i < j < |ids| :: ids[i] < ids[j]
  }

  /** No id is forwarded twice by one process, and none lies above its cursor. */
  ghost predicate HistoryInv(history: seq<Uint64>, s: AgentState) {
    && Ascending(history)
    && (forall id | id in history :: id <= s.lastAcked)
    && (!s.seeded ==> history == [])
  }

  lemma {:induction false} HistoryGrows(history: seq<Uint64>, s: AgentState, ids: seq<Uint64>, s': AgentState)
    requires HistoryInv(history, s) && Ascending(ids)
    requires s.lastAcked <= s'.lastAcked && s'.seeded
    requires forall id | id in ids :: s.lastAcked < id <= s'.lastAcked
    ensures HistoryInv(history + ids, s')
  {
    var all := history + ids;
    forall i, j | 0 <= i < j < |all|
      ensures all[i] < all[j]
    {
      assert i < |history| ==> history[i] in history;
      assert j >= |history| ==> ids[j - |history|] in ids;
    }
  }

  /** A served prefix holds only ids above the base and at or below the new cursor. */
  lemma {:induction false} ServedRange(order: seq<Request>, base: Uint64, k: nat)
    requires Sorted(order) && k <= |Candidates(order, base)|
    ensures var c := Candidates(order, base);
      && base <= SettledAt(base, c, k)
      && StrictlySorted(Firsts(c[..k]))
      && IdSet(Firsts(c[..k])) == IdSet(c[..k])
      && forall r | r in c[..k] :: base < r.id <= SettledAt(base, c, k)
  {
    var c := Candidates(order, base);
    CandidatesExact(order, base);
    CandidatesSorted(order, base);
    FirstsExact(c[..k]);
    FirstsStrict(c[..k]);
    forall j | 0 <= j < k
      ensures base < c[j].id <= c[k - 1].id
    {
      assert c[j] in c;
    }
  }

  lemma {:induction false} ServedEffects(cfg: Config, s: AgentState, input: TickInput, order: seq<Request>, k: nat,
                                         s': AgentState, rep: TickReport)
    requires Served(cfg, s, input, order, k, s', rep)
    ensures k <= |Candidates(order, Base(s, input))|
    ensures var base := Base(s, input); var c := Candidates(order, base); var done := Firsts(c[..k]);
      && s'.applied == s.applied + IdSet(done) && s'.specs == SpecsAfter(s.specs, done) && s'.seeded
      && s'.lastAcked == SettledAt(base, c, k) && rep.applied == Ids(done)
  {
    hide Candidates, Firsts, IdSet, SpecsAfter, Base, Ids, Forwards, SettledAt, Passes;
  }

  /** The ids of one tick ascend from above the old cursor up to the new one, and the cursor never falls. */
  lemma {:induction false} ServedKeepsInv(cfg: Config, s: AgentState, input: TickInput, order: seq<Request>, k: nat,
                       s': AgentState, rep: TickReport)
    requires AgentInv(s) && Sorted(order) && Served(cfg, s, input, order, k, s', rep)
    ensures AgentInv(s')
    ensures s.lastAcked <= s'.lastAcked
    ensures Ascending(rep.applied)
    ensures forall id | id in rep.applied :: s.lastAcked < id <= s'.lastAcked
  {
    hide Served, Candidates, Firsts, Base, Sorted, AgentInv;
    ServedEffects(cfg, s, input, order, k, s', rep);
    BaseAbove(s, input);
    ServedIdsRange(order, Base(s, input), k);
    IdsInRange(Firsts(Candidates(order, Base(s, input))[..k]), Base(s, input), s'.lastAcked);
    DoneKeepsInv(s, Firsts(Candidates(order, Base(s, input))[..k]), Base(s, input), s');
  }

  lemma {:induction false} BaseAbove(s: AgentState, input: TickInput)
    requires AgentInv(s)
    ensures s.lastAcked <= Base(s, input)
  {
  }

  lemma {:induction false} ServedIdsRange(order: seq<Request>, base: Uint64, k: nat)
    requires Sorted(order) && k <= |Candidates(order, base)|
    ensures var c := Candidates(order, base);
      && base <= SettledAt(base, c, k) && StrictlySorted(Firsts(c[..k]))
      && forall id | id in IdSet(Firsts(c[..k])) :: base < id <= SettledAt(base, c, k)
  {
    ServedRange(order, base, k);
    hide Candidates, Firsts, SettledAt, Sorted, StrictlySorted;
  }

  lemma {:induction false} IdsInRange(done: seq<Request>, base: Uint64, top: Uint64)
    requires StrictlySorted(done) && forall id | id in IdSet(done) :: base < id <= top
    ensures Ascending(Ids(done)) && forall id | id in Ids(done) :: base < id <= top
  {
    forall i | 0 <= i < |done|
      ensures done[i].id in IdSet(done)
    {
      assert done[i] in done;
    }
  }

  lemma {:induction false} DoneKeepsInv(s: AgentState, done: seq<Request>, base: Uint64, s': AgentState)
    requires AgentInv(s) && s.lastAcked <= base <= s'.lastAcked && s'.seeded
    requires s'.applied == s.applied + IdSet(done) && s'.specs == SpecsAfter(s.specs, done)
    requires forall id | id in IdSet(done) :: base < id <= s'.lastAcked
    ensures AgentInv(s')
  {
    SpecsAfterKeys(s.specs, done);
    hide IdSet, SpecsAfter;
  }

  // ---- The loop of Tick, one iteration at a time ---------------------------

  datatype Progress = Progress(
    applied: set<Uint64>, specs: map<Uint64, ForwardSpec>, ids: seq<Uint64>, cursor: Uint64, commands: seq<Command>)

  /** The candidates c have all been got through, and p records it. */
  ghost predicate Records(s: AgentState, base: Uint64, c: seq<Request>, p: Progress) {
    var done := Firsts(c);
    && p.applied == s.applied + IdSet(done)
    && p.specs == SpecsAfter(s.specs, done)
    && p.ids == Ids(done)
    && p.cursor == SettledAt(base, c, |c|)
    && p.commands == Forwards(done)
  }

  /** All candidates among the first i requests have been got through, and p records it. */
  ghost predicate Reached(cfg: Config, s: AgentState, input: TickInput, order: seq<Request>, i: nat, p: Progress)
    requires i <= |order|
  {
    var c := Candidates(order[..i], Base(s, input));
    (forall j | 0 <= j < |c| :: Passes(cfg, input, c, j)) && Records(s, Base(s, input), c, p)
  }

  lemma {:induction false} ReachedStart(cfg: Config, s: AgentState, input: TickInput, order: seq<Request>)
    ensures Reached(cfg, s, input, order, 0, Progress(s.applied, s.specs, [], Base(s, input), []))
  {
    assert order[..0] == [];
  }

  lemma {:induction false} ReachedSkip(cfg: Config, s: AgentState, input: TickInput, order: seq<Request>,
                                       i: nat, p: Progress)
    requires i < |order| && Reached(cfg, s, input, order, i, p)
    requires order[i].id <= Base(s, input)
    ensures Reached(cfg, s, input, order, i + 1, p)
  {
    CandidatesStep(order, i, Base(s, input));
    assert Candidates(order[..i], Base(s, input)) + [] == Candidates(order[..i], Base(s, input));
  }

  lemma {:induction false} PassesExtend(cfg: Config, input: TickInput, c: seq<Request>, r: Request)
    requires forall j | 0 <= j < |c| :: Passes(cfg, input, c, j)
    requires Passes(cfg, input, c + [r], |c|)
    ensures forall j | 0 <= j < |c + [r]| :: Passes(cfg, input, c + [r], j)
  {
    forall j | 0 <= j < |c|
      ensures Passes(cfg, input, c + [r], j)
    {
      assert Passes(cfg, input, c, j);
    }
  }

  /** An id already applied and above the cursor was applied in this very tick, by the candidate just before. */
  lemma {:induction false} AppliedIsPrevious(cfg: Config, s: AgentState, input: TickInput, order: seq<Request>,
                                             i: nat, p: Progress)
    requires AgentInv(s) && Sorted(order) && i < |order| && Reached(cfg, s, input, order, i, p)
    requires order[i].id > Base(s, input)
    ensures var c := Candidates(order[..i], Base(s, input));
      order[i].id in p.applied <==> |c| > 0 && c[|c| - 1].id == order[i].id
  {
    var base := Base(s, input);
    var c := Candidates(order[..i], base);
    CandidatesSorted(order[..i], base);
    FirstsExact(c);
    BaseAbove(s, input);
    assert p.applied == s.applied + IdSet(Firsts(c)) && order[i].id !in s.applied;
    CandidatesBelow(order, i, base);
    hide Candidates, Firsts, Base, AgentInv, Reached;
    IdOfLast(c, order[i].id);
  }

  lemma {:induction false} CandidatesBelow(order: seq<Request>, i: nat, base: Uint64)
    requires Sorted(order) && i < |order|
    ensures forall r | r in Candidates(order[..i], base) :: r.id <= order[i].id
  {
    CandidatesExact(order[..i], base);
  }

  /** In a sorted list with no id above id, it occurs exactly when it is the last one. */
  lemma {:induction false} IdOfLast(c: seq<Request>, id: Uint64)
    requires Sorted(c) && forall r | r in c :: r.id <= id
    ensures id in IdSet(c) <==> c != [] && c[|c| - 1].id == id
  {
    if id in IdSet(c) {
      var r :| r in c && r.id == id;
      assert c[|c| - 1] in c && r.id <= c[|c| - 1].id;
    } else if c != [] {
      assert c[|c| - 1] in c;
    }
  }

  lemma {:induction false} ReachedRepeat(cfg: Config, s: AgentState, input: TickInput, order: seq<Request>,
                                         i: nat, p: Progress)
    requires AgentInv(s) && Sorted(order) && i < |order| && Reached(cfg, s, input, order, i, p)
    requires order[i].id > Base(s, input) && order[i].id in p.applied
    ensures Reached(cfg, s, input, order, i + 1, p.(cursor := order[i].id))
  {
    var c := Candidates(order[..i], Base(s, input));
    CandidatesStep(order, i, Base(s, input));
    AppliedIsPrevious(cfg, s, input, order, i, p);
    RecordsRepeat(s, Base(s, input), c, p, order[i]);
    hide Candidates, Sorted, AgentInv, Base, Records, Admissible;
    assert Passes(cfg, input, c + [order[i]], |c|);
    PassesExtend(cfg, input, c, order[i]);
  }

  /** A repeated id moves the cursor and nothing else. */
  lemma {:induction false} RecordsRepeat(s: AgentState, base: Uint64, c: seq<Request>, p: Progress, r: Request)
    requires Records(s, base, c, p) && c != [] && c[|c| - 1].id == r.id
    ensures Records(s, base, c + [r], p.(cursor := r.id))
  {
    assert (c + [r])[..|c|] == c;
  }

  lemma {:induction false} FirstsExtend(c: seq<Request>, r: Request)
    requires c == [] || c[|c| - 1].id != r.id
    ensures Firsts(c + [r]) == Firsts(c) + [r]
  {
    assert (c + [r])[..|c|] == c;
  }

  lemma {:induction false} DoneExtend(s: AgentState, done: seq<Request>, r: Request)
    ensures s.applied + IdSet(done + [r]) == s.applied + IdSet(done) + {r.id}
    ensures Ids(done + [r]) == Ids(done) + [r.id]
    ensures Forwards(done + [r]) == Forwards(done) + [Forward(r.id, SpecOf(r))]
    ensures SpecsAfter(s.specs, done + [r]) == SpecsAfter(s.specs, done)[r.id := SpecOf(r)]
  {
    assert (done + [r])[..|done|] == done;
    IdSetAppend(done, r);
  }

  lemma {:induction false} RecordsExtend(s: AgentState, base: Uint64, c: seq<Request>, p: Progress, r: Request)
    requires Records(s, base, c, p)
    requires c == [] || c[|c| - 1].id != r.id
    ensures Records(s, base, c + [r],
                    Progress(p.applied + {r.id}, p.specs[r.id := SpecOf(r)], p.ids + [r.id], r.id,
                             p.commands + [Forward(r.id, SpecOf(r))]))
  {
    FirstsExtend(c, r);
    DoneExtend(s, Firsts(c), r);
    hide Firsts, Ids, Forwards, SpecsAfter, IdSet;
  }

  lemma {:induction false} ReachedForward(
    cfg: Config, s: AgentState, input: TickInput, order: seq<Request>, i: nat, p: Progress)
    requires AgentInv(s) && Sorted(order) && i < |order| && Reached(cfg, s, input, order, i, p)
    requires order[i].id > Base(s, input) && order[i].id !in p.applied
    requires Admissible(cfg, input, order[i]) && input.accepts(order[i])
    ensures var r := order[i];
      Reached(cfg, s, input, order, i + 1,
              Progress(p.applied + {r.id}, p.specs[r.id := SpecOf(r)], p.ids + [r.id], r.id,
                       p.commands + [Forward(r.id, SpecOf(r))]))
  {
    var r, base := order[i], Base(s, input);
    var c := Candidates(order[..i], base);
    CandidatesStep(order, i, base);
    AppliedIsPrevious(cfg, s, input, order, i, p);
    assert forall j | 0 <= j < |c| :: Passes(cfg, input, c, j);
    hide Records, AgentInv, Sorted;
    PassesExtend(cfg, input, c, r);
    RecordsExtend(s, base, c, p, r);
  }

  /** The candidates among the first i requests are the first k of all candidates, and order[i] is the next one. */
  lemma {:induction false} CandidatesSplit(order: seq<Request>, i: nat, base: Uint64)
    requires i <= |order|
    requires i < |order| ==> order[i].id > base
    ensures var c, k := Candidates(order, base), |Candidates(order[..i], base)|;
      && k <= |c|
      && c[..k] == Candidates(order[..i], base)
      && (if i < |order| then k < |c| && c[k] == order[i] else k == |c|)
  {
    CandidatesPrefix(order, i, base);
    if i < |order| {
      CandidatesPrefix(order, i + 1, base);
      CandidatesStep(order, i, base);
    } else {
      assert order[..i] == order;
    }
  }

  /** Where the loop stops is where the longest served prefix ends. */
  lemma {:induction false} ReachedStop(cfg: Config, s: AgentState, input: TickInput, order: seq<Request>,
                                       i: nat, p: Progress)
    returns (k: nat)
    requires AgentInv(s) && Sorted(order) && i <= |order| && Reached(cfg, s, input, order, i, p)
    requires i < |order| ==>
      && order[i].id > Base(s, input) && order[i].id !in p.applied
      && !(Admissible(cfg, input, order[i]) && input.accepts(order[i]))
    ensures var c := Candidates(order, Base(s, input));
      && LongestServed(cfg, input, c, k)
      && c[..k] == Candidates(order[..i], Base(s, input))
      && (if i < |order| then k < |c| && c[k] == order[i] else k == |c|)
  {
    var base := Base(s, input);
    var c := Candidates(order, base);
    var d := Candidates(order[..i], base);
    k := |d|;
    CandidatesSplit(order, i, base);
    if i < |order| {
      AppliedIsPrevious(cfg, s, input, order, i, p);
    }
    hide AgentInv, Sorted, Firsts, Ids, Forwards, SpecsAfter, IdSet, Candidates;
    forall j | 0 <= j < k
      ensures Passes(cfg, input, c, j)
    {
      assert Passes(cfg, input, d, j);
      assert c[j] == d[j];
      assert j > 0 ==> c[j - 1] == d[j - 1];
    }
    if i < |order| && k > 0 {
      assert c[k - 1] == d[k - 1];
    }
  }

  /** Position i is where the loop stops: at the end, or before a request it cannot forward. */
  ghost predicate StopsAt(cfg: Config, s: AgentState, input: TickInput, order: seq<Request>, i: nat, p: Progress) {
    && i <= |order|
    && Reached(cfg, s, input, order, i, p)
    && (i < |order| ==>
      && order[i].id > Base(s, input) && order[i].id !in p.applied
      && !(Admissible(cfg, input, order[i]) && input.accepts(order[i])))
  }

  function StopTail(cfg: Config, input: TickInput, order: seq<Request>, i: nat): seq<Command> {
    if i < |order| && Admissible(cfg, input, order[i]) then [Forward(order[i].id, SpecOf(order[i]))] else []
  }

  function StopNotice(cfg: Config, input: TickInput, order: seq<Request>, i: nat,
                      reported: set<Uint64>): Option<Uint64> {
    if i < |order| && !Admissible(cfg, input, order[i]) && order[i].id !in reported then Some(order[i].id) else None
  }

  /** The state and report the loop leaves behind when it stops at position i. */
  function StopState(cfg: Config, s: AgentState, input: TickInput, order: seq<Request>, i: nat,
                     p: Progress): AgentState {
    var stuck := i < |order| && !Admissible(cfg, input, order[i]);
    AgentState(p.applied, p.specs, s.reported + (if stuck then {order[i].id} else {}), p.cursor, true)
  }

  function StopReport(cfg: Config, s: AgentState, input: TickInput, order: seq<Request>, i: nat,
                      p: Progress): TickReport {
    TickReport(p.ids, p.cursor, i < |order| && Admissible(cfg, input, order[i]),
               StopNotice(cfg, input, order, i, s.reported),
               [ReadQueue] + (if s.seeded then [] else [ReadAck]) + p.commands
               + StopTail(cfg, input, order, i) + MarkCommands(Base(s, input), p.cursor))
  }

  lemma {:induction false} StoppedIsServed(cfg: Config, s: AgentState, input: TickInput, order: seq<Request>,
                                           i: nat, p: Progress)
    returns (k: nat)
    requires AgentInv(s) && Sorted(order) && StopsAt(cfg, s, input, order, i, p)
    ensures Served(cfg, s, input, order, k, StopState(cfg, s, input, order, i, p), StopReport(cfg, s, input, order, i, p))
    ensures Base(s, input) <= p.cursor
  {
    k := ReachedStop(cfg, s, input, order, i, p);
    ServedRange(order, Base(s, input), k);
    var base := Base(s, input);
    var c := Candidates(order, base);
    assert StopTail(cfg, input, order, i) == StopCommands(cfg, input, c, k);
    assert SettledAt(base, c, k) == p.cursor;
  }

  lemma {:induction false} StopSatisfiesTick(cfg: Config, s: AgentState, input: TickInput, order: seq<Request>,
                                             i: nat, p: Progress)
    requires AgentInv(s) && StopsAt(cfg, s, input, order, i, p)
    requires input.queue.Some? && IsOrder(order, input.queue.value)
    ensures var s', rep := StopState(cfg, s, input, order, i, p), StopReport(cfg, s, input, order, i, p);
      && TickRel(cfg, s, input, s', rep)
      && AgentInv(s') && s.lastAcked <= s'.lastAcked && Base(s, input) <= p.cursor
      && Ascending(rep.applied)
      && forall id | id in rep.applied :: s.lastAcked < id <= s'.lastAcked
  {
    var k := StoppedIsServed(cfg, s, input, order, i, p);
    hide Served, StopsAt;
    ServedKeepsInv(cfg, s, input, order, k, StopState(cfg, s, input, order, i, p), StopReport(cfg, s, input, order, i, p));
  }

  lemma {:induction false} CursorMoves(cfg: Config, s: AgentState, input: TickInput, order: seq<Request>, i: nat,
                                       p: Progress)
    requires AgentInv(s) && StopsAt(cfg, s, input, order, i, p)
    requires input.queue.Some? && IsOrder(order, input.queue.value)
    ensures Base(s, input) <= p.cursor
  {
    StopSatisfiesTick(cfg, s, input, order, i, p);
  }

  // ---- Cancelling and back-off ---------------------------------------------

  function Uncancelled(s: AgentState, cancels: Uint64 -> bool): set<Uint64> {
    set id | id in s.applied && !(id in s.specs && cancels(id))
  }

  /** Five seconds and one minute, in milliseconds. */
  const DEFAULT_POLL: nat := 5_000
  const MAX_BACKOFF: nat := 60_000

  function EffectivePoll(poll: nat): nat {
    if poll == 0 then DEFAULT_POLL else poll
  }

  /** The delay after a streak of failed ticks, as Serve computes it step by step. */
  function Backoff(poll: nat, streak: nat): nat {
    if streak <= 1 then poll
    else if 2 * Backoff(poll, streak - 1) > MAX_BACKOFF then MAX_BACKOFF
    else 2 * Backoff(poll, streak - 1)
  }

  /** How many of the last ticks failed in a row. */
  function Streak(reports: seq<TickReport>): nat {
    if reports == [] || !reports[|reports| - 1].failed then 0 else 1 + Streak(reports[..|reports| - 1])
  }

  /** The pause after each tick. */
  function Delays(poll: nat, reports: seq<TickReport>): (ds: seq<nat>)
    ensures |ds| == |reports|
  {
    if reports == [] then [] else Delays(poll, reports[..|reports| - 1]) + [Backoff(poll, Streak(reports))]
  }

  function AllApplied(reports: seq<TickReport>): seq<Uint64> {
    if reports == [] then [] else AllApplied(reports[..|reports| - 1]) + reports[|reports| - 1].applied
  }

  function Pow2(n: nat): nat {
    if n == 0 then 1 else 2 * Pow2(n - 1)
  }

  function Min(a: int, b: int): int {
    if a < b then a else b
  }

  lemma {:induction false} Pow2Doubles(poll: nat, n: nat)
    requires n > 0
    ensures poll * Pow2(n) == 2 * (poll * Pow2(n - 1))
  {
  }

  lemma {:induction false} BackoffCapped(poll: nat, n: nat)
    requires n >= 1 && poll <= MAX_BACKOFF
    ensures Backoff(poll, n) == Min(MAX_BACKOFF, poll * Pow2(n - 1))
  {
    if n > 1 {
      BackoffCapped(poll, n - 1);
      Pow2Doubles(poll, n - 1);
    }
  }

  lemma {:induction false} BackoffWithin(poll: nat, n: nat)
    requires poll <= MAX_BACKOFF
    ensures poll <= Backoff(poll, n) <= MAX_BACKOFF
  {
    if n > 1 {
      BackoffWithin(poll, n - 1);
    }
  }

  /** Doubling with a cap has the closed form min(60s, poll * 2^(n-1)) and stays within [poll, 60s]
      for every streak exactly when the poll interval itself does not exceed the cap. */
  lemma {:induction false} BackoffClosedForm(poll: nat)
    ensures (forall n: nat | n >= 1 :: Backoff(poll, n) == Min(60_000, poll * Pow2(n - 1))) <==> poll <= 60_000
    ensures (forall n: nat :: poll <= Backoff(poll, n) <= 60_000) <==> poll <= 60_000
    ensures Pow2(0) == 1 && forall n: nat :: Pow2(n + 1) == 2 * Pow2(n)
  {
    if poll <= MAX_BACKOFF {
      forall n: nat | n >= 1
        ensures Backoff(poll, n) == Min(MAX_BACKOFF, poll * Pow2(n - 1))
      {
        BackoffCapped(poll, n);
      }
      forall n: nat
        ensures poll <= Backoff(poll, n) <= MAX_BACKOFF
      {
        BackoffWithin(poll, n);
      }
    } else {
      assert poll * Pow2(0) == poll;
      assert Backoff(poll, 1) != Min(MAX_BACKOFF, poll * Pow2(1 - 1));
    }
  }

  /** The streak is the number of failed ticks since the last that worked. */
  lemma {:induction false} StreakCounts(reports: seq<TickReport>)
    ensures Streak(reports) <= |reports|
    ensures forall j | |reports| - Streak(reports) <= j < |reports| :: reports[j].failed
    ensures Streak(reports) < |reports| ==> !reports[|reports| - Streak(reports) - 1].failed
  {
    if reports != [] && reports[|reports| - 1].failed {
      StreakCounts(reports[..|reports| - 1]);
    }
  }

  /** After n >= 1 failures in a row the pause is min(60s, poll * 2^(n-1)); after a success it is poll. */
  lemma {:induction false} DelayAfterTick(poll: nat, reports: seq<TickReport>, i: nat)
    requires i < |reports| && poll <= 60_000
    ensures var n := Streak(reports[..i + 1]);
      && n <= i + 1 && (forall j | i - n < j <= i :: reports[j].failed) && (n <= i ==> !reports[i - n].failed)
      && Delays(poll, reports)[i] == if n == 0 then poll else Min(60_000, poll * Pow2(n - 1))
  {
    hide Streak, Delays, Backoff, Pow2;
    StreakCounts(reports[..i + 1]);
    DelayIs(poll, reports, i);
    if Streak(reports[..i + 1]) > 0 {
      BackoffCapped(poll, Streak(reports[..i + 1]));
    } else {
      NoBackoff(poll);
    }
  }

  lemma {:induction false} NoBackoff(poll: nat)
    ensures Backoff(poll, 0) == poll
  {
  }

  lemma {:induction false} DelayIs(poll: nat, reports: seq<TickReport>, i: nat)
    requires i < |reports|
    ensures Delays(poll, reports)[i] == Backoff(poll, Streak(reports[..i + 1]))
  {
    hide Streak, Backoff;
    var last := |reports| - 1;
    if i < last {
      DelayIs(poll, reports[..last], i);
      assert reports[..last][..i + 1] == reports[..i + 1];
    } else {
      assert reports[..i + 1] == reports;
    }
  }

  lemma {:induction false} ServeStart(cfg: Config, inputs: seq<TickInput>, s: AgentState, poll: nat)
    ensures Streak([]) == 0 && Delays(poll, []) == [] && AllApplied([]) == [] && Backoff(poll, 0) == poll
    ensures TickChain(cfg, [s], inputs, [])
  {
  }

  lemma {:induction false} ReportAppended(poll: nat, reports: seq<TickReport>, rep: TickReport, past: seq<Uint64>)
    ensures var all, n := reports + [rep], Streak(reports);
      && Streak(all) == (if rep.failed then n + 1 else 0)
      && Delays(poll, all) == Delays(poll, reports) + [Backoff(poll, Streak(all))]
      && past + AllApplied(all) == past + AllApplied(reports) + rep.applied
  {
    assert (reports + [rep])[..|reports|] == reports;
  }

  // ---- The agent object ----------------------------------------------------

  /** The bookkeeping of Serve after a tick: the first failure in a row keeps the pause, each further one doubles it up
      to a minute, and a success resets it. */
  method NextBackoff(poll: nat, failed: bool, streak: nat, delay: nat) returns (streak': nat, delay': nat)
    requires delay == Backoff(poll, streak)
    ensures streak' == if failed then streak + 1 else 0
    ensures delay' == Backoff(poll, streak')
  {
    streak', delay' := streak, delay;
    if failed {
      streak' := streak' + 1;
      if streak' > 1 {
        delay' := delay' * 2;
        if delay' > MAX_BACKOFF {
          delay' := MAX_BACKOFF;
        }
      }
    } else {
      streak', delay' := 0, poll;
    }
  }

  /** The states passed through while each input gives its report. */
  ghost predicate TickChain(cfg: Config, states: seq<AgentState>, inputs: seq<TickInput>, reports: seq<TickReport>) {
    && |states| == |reports| + 1 && |reports| <= |inputs|
    && forall i | 0 <= i < |reports| :: TickRel(cfg, states[i], inputs[i], states[i + 1], reports[i])
  }

  lemma {:induction false} TickChainExtend(cfg: Config, states: seq<AgentState>, inputs: seq<TickInput>,
                                           reports: seq<TickReport>, s: AgentState, rep: TickReport)
    requires TickChain(cfg, states, inputs, reports) && |reports| < |inputs|
    requires TickRel(cfg, states[|reports|], inputs[|reports|], s, rep)
    ensures TickChain(cfg, states + [s], inputs, reports + [rep])
  {
    hide TickRel;
    var all, more := states + [s], reports + [rep];
    forall i | 0 <= i < |more|
      ensures TickRel(cfg, all[i], inputs[i], all[i + 1], more[i])
    {
      assert i < |reports| ==> all[i] == states[i] && all[i + 1] == states[i + 1];
    }
  }

  class Agent {
    const cfg: Config
    var applied: set<Uint64>
    var specs: map<Uint64, ForwardSpec>
    var reported: set<Uint64>
    var lastAcked: Uint64
    var seeded: bool
    /** Every id this process has forwarded, in order. */
    ghost var history: seq<Uint64>

    constructor (cfg: Config)
      ensures Valid() && State() == FRESH_AGENT && this.cfg == cfg && history == []
    {
      this.cfg := cfg;
      applied, specs, reported, lastAcked, seeded := {}, map[], {}, 0, false;
      history := [];
    }

    function State(): AgentState
      reads this
    {
      AgentState(applied, specs, reported, lastAcked, seeded)
    }

    ghost predicate Valid()
      reads this
    {
      AgentInv(State()) && HistoryInv(history, State())
    }

    /** The first tick that reads a queue takes the remote ack as its cursor, if that can be read. */
    method SeedCursor(input: TickInput) returns (seed: seq<Command>)
      modifies this`lastAcked, this`seeded
      ensures State() == old(State()).(lastAcked := Base(old(State()), input), seeded := true)
      ensures seed == if old(seeded) then [] else [ReadAck]
    {
      seed := [];
      if !seeded {
        seed := [ReadAck];
        if input.ackSeed.Some? {
          lastAcked := input.ackSeed.value;
        }
        seeded := true;
      }
    }

    /** A cursor that moved is written to the remote ack; it moves here whether or not the write succeeds. */
    method Settle(cursor: Uint64) returns (mark: seq<Command>)
      requires lastAcked <= cursor
      modifies this`lastAcked
      ensures State() == old(State()).(lastAcked := cursor)
      ensures mark == MarkCommands(old(lastAcked), cursor)
    {
      mark := [];
      if cursor > lastAcked {
        mark := [Mark(cursor)];
        lastAcked := cursor;
      }
    }

    /** The loop of Tick over the sorted requests: forward each one in turn, stop at the first that cannot be. */
    method ApplyInOrder(input: TickInput, order: seq<Request>, ghost s: AgentState)
      returns (p: Progress, failed: bool, notice: Option<Uint64>, tail: seq<Command>, ghost i: nat)
      requires AgentInv(s) && Sorted(order) && seeded
      requires State() == s.(lastAcked := Base(s, input), seeded := true)
      modifies this`applied, this`specs, this`reported
      ensures StopsAt(cfg, s, input, order, i, p)
      ensures failed == (i < |order| && Admissible(cfg, input, order[i]))
      ensures notice == StopNotice(cfg, input, order, i, s.reported)
      ensures tail == StopTail(cfg, input, order, i)
      ensures State() == StopState(cfg, s, input, order, i, p).(lastAcked := Base(s, input))
    {
      hide Reached;
      var ids: seq<Uint64>, forwards: seq<Command>, cursor: Uint64 := [], [], lastAcked;
      failed, notice, tail := false, None, [];
      var n := 0;
      ReachedStart(cfg, s, input, order);
      while n < |order|
        invariant n <= |order|
        invariant Reached(cfg, s, input, order, n, Progress(applied, specs, ids, cursor, forwards))
        invariant reported == s.reported
        invariant !failed && notice == None && tail == []
      {
        p := Progress(applied, specs, ids, cursor, forwards);
        var r := order[n];
        if r.id <= lastAcked {
          ReachedSkip(cfg, s, input, order, n, p);
        } else if r.id in applied {
          ReachedRepeat(cfg, s, input, order, n, p);
          cursor := r.id;
        } else if !IsOurs(cfg, r) || r.createdUnixMs < Cutoff(input.now, EffectiveTtl(cfg.ttl)) {
          if r.id !in reported {
            reported := reported + {r.id};
            notice := Some(r.id);
          }
          break;
        } else if !input.accepts(r) {
          tail := [Forward(r.id, SpecOf(r))];
          failed := true;
          break;
        } else {
          ReachedForward(cfg, s, input, order, n, p);
          forwards := forwards + [Forward(r.id, SpecOf(r))];
          applied := applied + {r.id};
          specs := specs[r.id := SpecOf(r)];
          ids := ids + [r.id];
          cursor := r.id;
        }
        n := n + 1;
      }
      p := Progress(applied, specs, ids, cursor, forwards);
      i := n;
    }

    /** The rest of a tick, once the queue has been read. */
    method ServeQueue(input: TickInput) returns (rep: TickReport)
      requires AgentInv(State()) && input.queue.Some?
      modifies this`applied, this`specs, this`reported, this`lastAcked, this`seeded
      ensures TickRel(cfg, old(State()), input, State(), rep)
      ensures AgentInv(State()) && seeded && old(lastAcked) <= lastAcked
      ensures Ascending(rep.applied) && forall id | id in rep.applied :: old(lastAcked) < id <= lastAcked
    {
      ghost var s := State();
      var seed := SeedCursor(input);
      var order := SortById(input.queue.value);
      var p, failed, notice, tail, i := ApplyInOrder(input, order, s);
      CursorMoves(cfg, s, input, order, i, p);
      var mark := Settle(p.cursor);
      rep := TickReport(p.ids, p.cursor, failed, notice, [ReadQueue] + seed + p.commands + tail + mark);
      assert State() == StopState(cfg, s, input, order, i, p);
      assert rep == StopReport(cfg, s, input, order, i, p);
      StopSatisfiesTick(cfg, s, input, order, i, p);
    }

    method Tick(input: TickInput) returns (rep: TickReport)
      requires Valid()
      modifies this
      ensures Valid()
      ensures TickRel(cfg, old(State()), input, State(), rep)
      ensures history == old(history) + rep.applied
      ensures old(lastAcked) <= lastAcked
    {
      if input.queue.None? {
        return TickReport([], 0, true, None, [ReadQueue]);
      }
      ghost var s := State();
      rep := ServeQueue(input);
      HistoryGrows(history, s, rep.applied, State());
      history := history + rep.applied;
    }

    /** Cancels every applied forward whose spec is known; those the master refuses to cancel stay applied.
        Map iteration order is arbitrary. */
    method CancelApplied(cancels: Uint64 -> bool) returns (ok: bool, commands: seq<Command>)
      requires Valid()
      modifies this`applied
      ensures Valid()
      ensures State() == old(State()).(applied := Uncancelled(old(State()), cancels))
      ensures forall id :: id in applied <==> id in old(applied) && (id in specs ==> !cancels(id))
      ensures ok == (forall id | id in old(applied) && id in specs :: cancels(id))
      ensures forall cmd :: cmd in commands <==> exists id | id in old(applied) && id in specs :: cmd == Cancel(id, specs[id])
    {
      var todo := applied;
      ok, commands := true, [];
      while todo != {}
        invariant todo <= old(applied) && todo <= applied <= old(applied)
        invariant forall id :: id in applied <==> id in old(applied) && (id in todo || !(id in specs && cancels(id)))
        invariant ok == (forall id | id in old(applied) - todo && id in specs :: cancels(id))
        invariant forall cmd :: cmd in commands <==>
          exists id | id in old(applied) - todo && id in specs :: cmd == Cancel(id, specs[id])
      {
        var id :| id in todo;
        ghost var before := old(applied) - todo;
        todo := todo - {id};
        assert old(applied) - todo == before + {id};
        if id in specs {
          commands := commands + [Cancel(id, specs[id])];
          if cancels(id) {
            applied := applied - {id};
          } else {
            ok := false;
          }
        }
      }
      assert old(applied) - todo == old(applied);
    }

    /** Serve until the context ends, which here is after the given ticks; delays[i] is the pause after tick i. */
    method Serve(poll: nat, masterOk: bool, inputs: seq<TickInput>, cancels: Uint64 -> bool)
      returns (reports: seq<TickReport>, delays: seq<nat>, ghost states: seq<AgentState>)
      requires Valid()
      modifies this
      ensures Valid()
      ensures !masterOk ==> reports == [] && State() == old(State())
      ensures masterOk ==> |reports| == |inputs|
      ensures TickChain(cfg, states, inputs, reports) && states[0] == old(State())
      ensures masterOk ==> State() == states[|inputs|].(applied := Uncancelled(states[|inputs|], cancels))
      ensures delays == Delays(if poll == 0 then 5_000 else poll, reports)
      ensures history == old(history) + AllApplied(reports)
      ensures old(lastAcked) <= lastAcked
    {
      hide TickChain, TickRel, AgentInv, HistoryInv, Uncancelled, Streak, Delays, Backoff, AllApplied;
      reports, delays, states := [], [], [State()];
      var effective := EffectivePoll(poll);
      ServeStart(cfg, inputs, State(), effective);
      if !masterOk {
        return;
      }
      var backoff, consec := effective, 0;
      for i := 0 to |inputs|
        invariant Valid() && old(lastAcked) <= lastAcked
        invariant |reports| == i && |states| == i + 1
        invariant TickChain(cfg, states, inputs, reports) && states[0] == old(State()) && states[i] == State()
        invariant consec == Streak(reports) && backoff == Backoff(effective, consec)
        invariant delays == Delays(effective, reports)
        invariant history == old(history) + AllApplied(reports)
      {
        var rep := Tick(inputs[i]);
        TickChainExtend(cfg, states, inputs, reports, State(), rep);
        states := states + [State()];
        ReportAppended(effective, reports, rep, old(history));
        reports := reports + [rep];
        consec, backoff := NextBackoff(effective, rep.failed, consec, backoff);
        delays := delays + [backoff];
      }
      var ok, commands := CancelApplied(cancels);
    }
  }
}
