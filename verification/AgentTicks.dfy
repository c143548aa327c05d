/** A tick of the forward agent in plain terms: which hosts, times and ports it goes by. */
module AgentTicks {
  import opened Wrappers
  import opened RequestQueue
  import opened ForwardAgent
  import opened AgentProperties
  import Seqs
  import Text

  // ---- Whose requests an agent serves ----------------------------------------------

  /** An ssh target splits at its last "@" into a user and a host, or is a bare host. */
  lemma {:induction false} TargetSplits(target: string) returns (user: string, host: string)
    ensures '@' !in host && (target == host || target == user + ("@" + host))
  {
    var i := Text.LastIndex(target, '@');
    if i < 0 {
      user, host := "", target;
    } else {
      user, host := target[..i], target[i + 1..];
      assert target == user + ("@" + host);
    }
  }

  lemma {:induction false} LastAt(user: string, host: string)
    requires '@' !in host
    ensures Text.LastIndex(user + ("@" + host), '@') == |user|
    ensures (user + ("@" + host))[|user| + 1..] == host
  {
    var target := user + ("@" + host);
    assert target[|user|] == '@';
    assert forall j | |user| < j < |target| :: target[j] == host[j - |user| - 1];
  }

  /** An agent serves requests that name no host, and those that name its host: the one it was told, or else the
      host part of its ssh target. */
  lemma {:induction false} OursExactly(cfg: Config, user: string, host: string, r: Request)
    requires '@' !in host && (cfg.target == host || cfg.target == user + ("@" + host))
    ensures IsOurs(cfg, r) <==> r.host == "" || r.host == (if cfg.hostName != "" then cfg.hostName else host)
  {
    LastAt(user, host);
  }

  /** When the agent asks the master to forward a request: it is the agent's, and it is no older than the ttl, ten
      minutes by default, in milliseconds that wrap. */
  lemma {:induction false} AdmissibleExactly(cfg: Config, user: string, host: string, input: TickInput, r: Request)
    requires '@' !in host && (cfg.target == host || cfg.target == user + ("@" + host))
    ensures Admissible(cfg, input, r) <==>
      && (r.host == "" || r.host == (if cfg.hostName != "" then cfg.hostName else host))
      && r.createdUnixMs >= (input.now - (if cfg.ttl == 0 then 600_000 else cfg.ttl)) % 0x1_0000_0000_0000_0000
  {
    OursExactly(cfg, user, host, r);
    hide IsOurs;
  }

  // ---- What a tick forwards ----------------------------------------------------------

  /** A tick on c, the requests above its start, has forwarded the first k of them and stopped at the next, if any. */
  ghost predicate StopsAt(cfg: Config, s: AgentState, input: TickInput, c: seq<Request>, k: nat, s': AgentState,
                          rep: TickReport)
  {
    && k <= |c| && StrictlySorted(c)
    && (forall j | 0 <= j < k :: Admissible(cfg, input, c[j]) && input.accepts(c[j]))
    && (k < |c| ==> !(Admissible(cfg, input, c[k]) && input.accepts(c[k])))
    && rep.applied == Ids(c[..k])
    && rep.failed == (k < |c| && Admissible(cfg, input, c[k]))
    && s'.reported == s.reported + (if k < |c| && !rep.failed then {c[k].id} else {})
    && rep.notice == (if k < |c| && !rep.failed && c[k].id !in s.reported then Some(c[k].id) else None)
    && rep.commands == ReadCommands(s.seeded) + Forwards(c[..k]) + StopCommands(cfg, input, c, k)
                       + MarkCommands(Base(s, input), rep.settled)
    && rep.settled == s'.lastAcked == if k == 0 then Base(s, input) else c[k - 1].id
  }

  lemma {:induction false} TickStops(cfg: Config, s: AgentState, input: TickInput, s': AgentState, rep: TickReport,
                                     queue: seq<Request>) returns (k: nat)
    requires input.queue.Some? && TickRel(cfg, s, input, s', rep)
    requires StrictlySorted(queue) && multiset(queue) == multiset(input.queue.value)
    ensures StopsAt(cfg, s, input, Candidates(queue, Base(s, input)), k, s', rep)
  {
    hide TickRel, Candidates, IsOrder, Base, Ids, Admissible, Firsts, Forwards, StopCommands, MarkCommands, IdSet,
         SpecsAfter, LongestServed, ReadCommands;
    var o;
    o, k := TickWitness(cfg, s, input, s', rep);
    SortedPermutationUnique(queue, o);
    var c := Candidates(queue, Base(s, input));
    CandidatesStrict(queue, Base(s, input));
    ServedCommands(cfg, s, input, queue, k, s', rep);
    StrictServed(cfg, input, c, k);
    PrefixOfStrict(c, k);
  }

  /** In place of positions in c, the ids of the queue. */
  lemma {:induction false} PrefixByIds(queue: seq<Request>, c: seq<Request>, k: nat, start: Uint64, fits: Request -> bool)
    requires StrictlySorted(c) && k <= |c| && forall r :: r in c <==> r in queue && r.id > start
    requires (forall j | 0 <= j < k :: fits(c[j])) && (k < |c| ==> !fits(c[k]))
    ensures forall r | r in queue :: r.id in Ids(c[..k]) <==>
      start < r.id && forall x | x in queue && start < x.id <= r.id :: fits(x)
  {
    hide Ids;
    forall r | r in queue
      ensures r.id in Ids(c[..k]) <==> start < r.id && forall x | x in queue && start < x.id <= r.id :: fits(x)
    {
      InPrefix(c, k, r.id);
      if j :| 0 <= j < k && c[j].id == r.id {
        assert c[j] in c;
        forall x | x in queue && start < x.id <= r.id
          ensures fits(x)
        {
          var i :| 0 <= i < |c| && c[i] == x;
          assert i <= j;
        }
      } else if start < r.id {
        var i :| 0 <= i < |c| && c[i] == r;
        assert k <= i && c[k] in c && c[k].id <= r.id;
      }
    }
  }

  lemma {:induction false} InPrefix(c: seq<Request>, k: nat, id: Uint64)
    requires k <= |c|
    ensures id in Ids(c[..k]) <==> exists j :: 0 <= j < k && c[j].id == id
  {
    var ids := Ids(c[..k]);
    assert |ids| == k && forall j | 0 <= j < k :: ids[j] == c[j].id;
    if j :| 0 <= j < k && c[j].id == id {
      assert ids[j] == id;
    }
  }

  /** With distinct ids, what a tick forwards told by the queue, the clock and the master alone: it starts from the
      cursor, or the first time from the ack file, and forwards the requests above in id order, up to the first that
      is not the agent's, is too old, or is refused; the cursor settles on the last one forwarded. */
  lemma {:induction false} TickForwardsExactly(
    cfg: Config, s: AgentState, input: TickInput, s': AgentState, rep: TickReport, queue: seq<Request>,
    user: string, host: string, start: Uint64, fits: Request -> bool)
    requires input.queue.Some? && TickRel(cfg, s, input, s', rep)
    requires StrictlySorted(queue) && multiset(queue) == multiset(input.queue.value)
    requires '@' !in host && (cfg.target == host || cfg.target == user + ("@" + host))
    requires start == if s.seeded || input.ackSeed.None? then s.lastAcked else input.ackSeed.value
    requires forall r :: fits(r) <==>
      && (r.host == "" || r.host == (if cfg.hostName != "" then cfg.hostName else host))
      && r.createdUnixMs >= (input.now - (if cfg.ttl == 0 then 600_000 else cfg.ttl)) % 0x1_0000_0000_0000_0000
      && input.accepts(r)
    ensures forall r | r in queue :: r.id in rep.applied <==>
      start < r.id && forall x | x in queue && start < x.id <= r.id :: fits(x)
    ensures start <= rep.settled == s'.lastAcked && (rep.settled == start || rep.settled in rep.applied)
    ensures forall id | id in rep.applied :: start < id <= rep.settled
  {
    hide TickRel, Candidates, Ids, Admissible, StopsAt, StrictlySorted;
    var k := TickStops(cfg, s, input, s', rep, queue);
    var c := Candidates(queue, start);
    CandidatesExact(queue, start);
    FitsIsServiceable(cfg, user, host, input, fits);
    StopsReads(cfg, s, input, c, k, s', rep, fits);
    PrefixByIds(queue, c, k, start, fits);
    PrefixEnds(c, k, start);
  }

  lemma {:induction false} StopsReads(cfg: Config, s: AgentState, input: TickInput, c: seq<Request>, k: nat,
                                      s': AgentState, rep: TickReport, fits: Request -> bool)
    requires StopsAt(cfg, s, input, c, k, s', rep)
    requires forall r :: fits(r) <==> Admissible(cfg, input, r) && input.accepts(r)
    ensures k <= |c| && StrictlySorted(c) && rep.applied == Ids(c[..k])
    ensures (forall j | 0 <= j < k :: fits(c[j])) && (k < |c| ==> !fits(c[k]))
    ensures rep.settled == s'.lastAcked == if k == 0 then Base(s, input) else c[k - 1].id
  {
    hide Admissible, StrictlySorted, Ids, Base, Forwards, StopCommands, MarkCommands, ReadCommands;
  }

  lemma {:induction false} FitsIsServiceable(cfg: Config, user: string, host: string, input: TickInput,
                                             fits: Request -> bool)
    requires '@' !in host && (cfg.target == host || cfg.target == user + ("@" + host))
    requires forall r :: fits(r) <==>
      && (r.host == "" || r.host == (if cfg.hostName != "" then cfg.hostName else host))
      && r.createdUnixMs >= (input.now - (if cfg.ttl == 0 then 600_000 else cfg.ttl)) % 0x1_0000_0000_0000_0000
      && input.accepts(r)
    ensures forall r :: fits(r) <==> Admissible(cfg, input, r) && input.accepts(r)
  {
    hide Admissible;
    forall r
      ensures fits(r) <==> Admissible(cfg, input, r) && input.accepts(r)
    {
      AdmissibleExactly(cfg, user, host, input, r);
    }
  }

  lemma {:induction false} PrefixEnds(c: seq<Request>, k: nat, start: Uint64)
    requires k <= |c| && StrictlySorted(c) && forall r | r in c :: r.id > start
    ensures var top := if k == 0 then start else c[k - 1].id;
      && start <= top && (k > 0 ==> top in Ids(c[..k]))
      && forall id | id in Ids(c[..k]) :: start < id <= top
  {
    if k > 0 {
      InPrefix(c, k, c[k - 1].id);
      assert c[k - 1] in c;
    }
    forall id | id in Ids(c[..k])
      ensures k > 0 && start < id <= c[k - 1].id
    {
      InPrefix(c, k, id);
      var j :| 0 <= j < k && c[j].id == id;
      assert c[j] in c;
    }
  }

  /** The request a tick stopped at: not forwarded, although all between the start and it were. */
  ghost predicate Stopped(queue: seq<Request>, start: Uint64, applied: seq<Uint64>, r: Request) {
    && r in queue && start < r.id && r.id !in applied
    && forall x | x in queue && start < x.id < r.id :: x.id in applied
  }

  lemma {:induction false} StoppedAtK(queue: seq<Request>, c: seq<Request>, k: nat, start: Uint64, r: Request)
    requires StrictlySorted(c) && k <= |c| && forall x :: x in c <==> x in queue && x.id > start
    ensures Stopped(queue, start, Ids(c[..k]), r) <==> k < |c| && r == c[k]
  {
    hide Ids;
    forall id
      ensures id in Ids(c[..k]) <==> exists j :: 0 <= j < k && c[j].id == id
    {
      InPrefix(c, k, id);
    }
    if k < |c| {
      assert c[k] in c;
      forall x | x in queue && start < x.id < c[k].id
        ensures x.id in Ids(c[..k])
      {
        var i :| 0 <= i < |c| && c[i] == x;
      }
    }
    if Stopped(queue, start, Ids(c[..k]), r) {
      var i :| 0 <= i < |c| && c[i] == r;
      assert k <= i;
    }
  }

  lemma {:induction false} ForwardsIn(c: seq<Request>, k: nat, head: seq<Command>, tail: seq<Command>)
    requires k <= |c| && (forall cmd | cmd in head :: !cmd.Forward?)
    ensures var all := head + Forwards(c[..k]) + tail;
      && (forall j | 0 <= j < k :: Forward(c[j].id, SpecOf(c[j])) in all)
      && forall id, spec | Forward(id, spec) in all ::
           Forward(id, spec) in tail || exists j | 0 <= j < k :: c[j].id == id && spec == SpecOf(c[j])
  {
    var all, f := head + Forwards(c[..k]) + tail, Forwards(c[..k]);
    forall j | 0 <= j < k
      ensures Forward(c[j].id, SpecOf(c[j])) in all
    {
      assert all[|head| + j] == f[j];
    }
    forall id, spec | Forward(id, spec) in all
      ensures Forward(id, spec) in tail || exists j | 0 <= j < k :: c[j].id == id && spec == SpecOf(c[j])
    {
      if Forward(id, spec) in f {
        var j :| 0 <= j < k && f[j] == Forward(id, spec);
        assert c[j].id == id && spec == SpecOf(c[j]);
      }
    }
  }

  /** The forwards of a tick: one to the ports of each applied request and, when the tick fails, one to those of the
      request it stopped at. */
  lemma {:induction false} TickForwardsTo(
    cfg: Config, s: AgentState, input: TickInput, s': AgentState, rep: TickReport, queue: seq<Request>)
    requires input.queue.Some? && TickRel(cfg, s, input, s', rep)
    requires StrictlySorted(queue) && multiset(queue) == multiset(input.queue.value)
    ensures forall id | id in rep.applied :: exists r | r in queue ::
      r.id == id && Forward(id, ForwardSpec(r.localPort, r.remotePort)) in rep.commands
    ensures forall id, spec | Forward(id, spec) in rep.commands :: exists r | r in queue ::
      && r.id == id && spec == ForwardSpec(r.localPort, r.remotePort)
      && (id in rep.applied || (rep.failed && Stopped(queue, Base(s, input), rep.applied, r)))
  {
    hide TickRel, Candidates, Ids, Admissible, Base, StrictlySorted, Stopped, StopsAt;
    var k := TickStops(cfg, s, input, s', rep, queue);
    var c := Candidates(queue, Base(s, input));
    CandidatesExact(queue, Base(s, input));
    StopsForwards(cfg, s, input, c, k, s', rep);
    if k < |c| {
      StoppedAtK(queue, c, k, Base(s, input), c[k]);
      assert c[k] in c;
    }
    forall id
      ensures id in rep.applied <==> exists j :: 0 <= j < k && c[j].id == id
    {
      InPrefix(c, k, id);
    }
    assert forall j | 0 <= j < k :: c[j] in c;
  }

  lemma {:induction false} StopsForwards(cfg: Config, s: AgentState, input: TickInput, c: seq<Request>, k: nat,
                                         s': AgentState, rep: TickReport)
    requires StopsAt(cfg, s, input, c, k, s', rep)
    ensures k <= |c| && StrictlySorted(c) && rep.applied == Ids(c[..k])
    ensures forall j | 0 <= j < k :: Forward(c[j].id, ForwardSpec(c[j].localPort, c[j].remotePort)) in rep.commands
    ensures forall id, spec | Forward(id, spec) in rep.commands ::
      || (exists j | 0 <= j < k :: c[j].id == id && spec == ForwardSpec(c[j].localPort, c[j].remotePort))
      || (k < |c| && rep.failed && c[k].id == id && spec == ForwardSpec(c[k].localPort, c[k].remotePort))
  {
    hide Ids, Admissible, Base, ReadCommands, MarkCommands, StrictlySorted, StopCommands, Forwards;
    ReadsNoForward(s.seeded);
    StopsForward(cfg, s, input, c, k, rep.settled);
    Seqs.AppendAssoc(ReadCommands(s.seeded) + Forwards(c[..k]), StopCommands(cfg, input, c, k),
                     MarkCommands(Base(s, input), rep.settled));
    ForwardsIn(c, k, ReadCommands(s.seeded),
               StopCommands(cfg, input, c, k) + MarkCommands(Base(s, input), rep.settled));
  }

  /** A tick fails exactly when the request it stopped at was due, and so refused; one that was not due is noticed
      instead, once in the life of a process. */
  lemma {:induction false} TickStopsExactly(
    cfg: Config, s: AgentState, input: TickInput, s': AgentState, rep: TickReport, queue: seq<Request>)
    requires input.queue.Some? && TickRel(cfg, s, input, s', rep)
    requires StrictlySorted(queue) && multiset(queue) == multiset(input.queue.value)
    ensures forall r | Stopped(queue, Base(s, input), rep.applied, r) ::
      && (rep.failed <==> Admissible(cfg, input, r)) && (rep.failed ==> !input.accepts(r))
      && s'.reported == (if rep.failed then s.reported else s.reported + {r.id})
      && rep.notice == (if rep.failed || r.id in s.reported then None else Some(r.id))
    ensures (forall r | r in queue :: !Stopped(queue, Base(s, input), rep.applied, r)) ==>
      !rep.failed && rep.notice == None && s'.reported == s.reported
  {
    hide TickRel, Candidates, Ids, Admissible, Base, StrictlySorted, Stopped, StopsAt;
    var k := TickStops(cfg, s, input, s', rep, queue);
    var c := Candidates(queue, Base(s, input));
    CandidatesExact(queue, Base(s, input));
    StopsNotice(cfg, s, input, c, k, s', rep);
    forall r
      ensures Stopped(queue, Base(s, input), rep.applied, r) <==> k < |c| && r == c[k]
    {
      StoppedAtK(queue, c, k, Base(s, input), r);
    }
    if k < |c| {
      assert c[k] in c;
    }
  }

  lemma {:induction false} StopsNotice(cfg: Config, s: AgentState, input: TickInput, c: seq<Request>, k: nat,
                                       s': AgentState, rep: TickReport)
    requires StopsAt(cfg, s, input, c, k, s', rep)
    ensures k <= |c| && StrictlySorted(c) && rep.applied == Ids(c[..k])
    ensures rep.failed <==> k < |c| && Admissible(cfg, input, c[k])
    ensures rep.failed ==> !input.accepts(c[k])
    ensures s'.reported == if k < |c| && !rep.failed then s.reported + {c[k].id} else s.reported
    ensures rep.notice == if k < |c| && !rep.failed && c[k].id !in s.reported then Some(c[k].id) else None
  {
    hide Ids, Admissible, Base, ReadCommands, MarkCommands, StrictlySorted, StopCommands, Forwards;
  }

  lemma {:induction false} ReadsNoForward(seeded: bool)
    ensures forall cmd | cmd in ReadCommands(seeded) :: !cmd.Forward?
  {
  }

  lemma {:induction false} StopsForward(cfg: Config, s: AgentState, input: TickInput, c: seq<Request>, k: nat,
                                        settled: Uint64)
    ensures forall id, spec |
      Forward(id, spec) in StopCommands(cfg, input, c, k) + MarkCommands(Base(s, input), settled) ::
        k < |c| && id == c[k].id && spec == ForwardSpec(c[k].localPort, c[k].remotePort) && Admissible(cfg, input, c[k])
  {
    hide Admissible, Base;
  }

  /** The ack is written exactly when the cursor moved, with the settled cursor. */
  lemma {:induction false} TickMarksExactly(
    cfg: Config, s: AgentState, input: TickInput, s': AgentState, rep: TickReport, start: Uint64)
    requires input.queue.Some? && TickRel(cfg, s, input, s', rep)
    requires start == if s.seeded || input.ackSeed.None? then s.lastAcked else input.ackSeed.value
    ensures forall n: Uint64 :: Mark(n) in rep.commands <==> n == rep.settled && n > start
  {
    hide TickRel, ForwardsEach, ReadsAndForwards, Ascending, ForwardIds;
    var body := CommandShape(cfg, s, input, s', rep);
  }

  /** What a tick leaves in memory: the ids it forwarded, each with the ports to cancel it by, and that the ack was
      read. */
  lemma {:induction false} TickRemembers(
    cfg: Config, s: AgentState, input: TickInput, s': AgentState, rep: TickReport, queue: seq<Request>)
    requires input.queue.Some? && TickRel(cfg, s, input, s', rep)
    requires StrictlySorted(queue) && multiset(queue) == multiset(input.queue.value)
    ensures forall id :: id in s'.applied <==> id in s.applied || id in rep.applied
    ensures s'.seeded
    ensures forall r | r in queue && r.id in rep.applied ::
      r.id in s'.specs && s'.specs[r.id] == ForwardSpec(r.localPort, r.remotePort)
    ensures forall id | id in s.specs && id !in rep.applied :: id in s'.specs && s'.specs[id] == s.specs[id]
  {
    hide TickRel, Candidates, IsOrder, Base, Admissible, Firsts, Forwards, StopCommands, MarkCommands, LongestServed,
         SpecsAfter, IdSet, Ids;
    var o, k := TickWitness(cfg, s, input, s', rep);
    SortedPermutationUnique(queue, o);
    var c := Candidates(queue, Base(s, input));
    CandidatesStrict(queue, Base(s, input));
    CandidatesExact(queue, Base(s, input));
    PrefixOfStrict(c, k);
    SpecsOf(s.specs, c[..k]);
    forall id
      ensures id in IdSet(c[..k]) <==> id in Ids(c[..k])
    {
      SetOfIds(c, k, id);
    }
    forall r | r in queue && r.id in rep.applied
      ensures r in c[..k]
    {
      InPrefix(c, k, r.id);
      var j :| 0 <= j < k && c[j].id == r.id;
      SameIdSame(queue, c[j], r);
      assert c[..k][j] == r;
    }
  }

  lemma {:induction false} SameIdSame(queue: seq<Request>, a: Request, b: Request)
    requires StrictlySorted(queue) && a in queue && b in queue && a.id == b.id
    ensures a == b
  {
  }

  lemma {:induction false} SetOfIds(c: seq<Request>, k: nat, id: Uint64)
    requires k <= |c|
    ensures id in IdSet(c[..k]) <==> id in Ids(c[..k])
  {
    hide Ids;
    InPrefix(c, k, id);
    if j :| 0 <= j < k && c[j].id == id {
      assert c[j] in c[..k];
    }
    if r :| r in c[..k] && r.id == id {
      var j :| 0 <= j < k && c[..k][j] == r;
      assert c[j].id == id;
    }
  }

  lemma {:induction false} SpecsOf(specs: map<Uint64, ForwardSpec>, done: seq<Request>)
    requires StrictlySorted(done)
    ensures var after := SpecsAfter(specs, done);
      && (forall r | r in done :: r.id in after && after[r.id] == ForwardSpec(r.localPort, r.remotePort))
      && (forall id | id in specs && id !in Ids(done) :: id in after && after[id] == specs[id])
  {
    if done != [] {
      var n := |done| - 1;
      SpecsOf(specs, done[..n]);
      assert done == done[..n] + [done[n]];
    }
  }

  /** A tick that cannot read the queue fails, having only tried to, and changes nothing. */
  lemma {:induction false} TickWithoutQueue(cfg: Config, s: AgentState, input: TickInput, s': AgentState, rep: TickReport)
    requires input.queue.None? && TickRel(cfg, s, input, s', rep)
    ensures s' == s && rep.failed && rep.applied == [] && rep.notice == None && rep.commands == [ReadQueue]
  {
  }
}
