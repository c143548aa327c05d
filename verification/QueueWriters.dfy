/** What the two writers leave in the queue file, entry by entry, and that each of their calls is a step of the
    protocol. */
module QueueWriters {
  import opened RequestQueue
  import opened Declare
  import QP = QueueProtocol
  import FA = ForwardAgent

  // ---- Entry by entry ----------------------------------------------------------------

  /** What a writer keeps of the stored queue: the requests above the ack that are no older than the ttl, in
      milliseconds that wrap. The consumed id is raised to the ack. */
  lemma {:induction false} KeptExactly(q: QueueValue, ack: Uint64, now: int, ttl: nat)
    ensures forall r :: r in PrunedAt(q, ack, now, ttl).pending <==>
      r in q.pending && r.id > ack && r.createdUnixMs >= (now - ttl) % 0x1_0000_0000_0000_0000
    ensures PrunedAt(q, ack, now, ttl).lastConsumedId >= ack
    ensures PrunedAt(q, ack, now, ttl).lastConsumedId in {ack, q.lastConsumedId}
    ensures PrunedAt(q, ack, now, ttl).lastConsumedId >= q.lastConsumedId
  {
    SurvivorsExact(q.pending, ack, Cutoff(now, ttl));
  }

  /** The new requests one by one. */
  lemma {:induction false} AddedAre(d: Declarer, p: QueueValue, ports: seq<Port>, now: int, added: seq<Request>)
    requires MaxId(p) + 1 + |ports| <= UINT64_SPAN && added == Minted(d, now, MaxId(p) + 1, ports)
    ensures |added| == |ports|
    ensures forall i | 0 <= i < |added| ::
      && added[i] == Request(MaxId(p) + 1 + i, d.host, ports[i], ports[i], "127.0.0.1", "discovery", d.pluginVersion,
                             now % 0x1_0000_0000_0000_0000)
    ensures forall x :: (exists a | a in added :: a.localPort == x) <==> x in ports
  {
    hide MaxOf, Minted;
    forall x | x in ports
      ensures exists a | a in added :: a.localPort == x
    {
      var i :| 0 <= i < |ports| && ports[i] == x;
      assert added[i] in added;
    }
  }

  /** The declared queue: what is kept, then one request for each listener port that has none, the ids going up by
      one from just above everything known. Each new request is for the declarer's host, forwards the port to itself
      on the loopback address, and is as old as the call. */
  lemma {:induction false} DeclaredExactly(d: Declarer, q: QueueValue, ack: Uint64, listeners: seq<Port>, now: int,
                                           kept: seq<Request>, added: seq<Request>)
    requires HasRoom(q, ack, now, EffectiveTtl(d.ttl), |listeners|)
    requires kept == PrunedAt(q, ack, now, if d.ttl == 0 then 600_000 else d.ttl).pending
    requires added == Added(d, q, ack, listeners, now)
    ensures Declared(d, q, ack, listeners, now).pending == kept + added
    ensures Declared(d, q, ack, listeners, now).lastConsumedId == if ack > q.lastConsumedId then ack else q.lastConsumedId
    ensures forall i | 0 <= i < |added| ::
      var r := added[i];
      && r.host == d.host && r.pluginVersion == d.pluginVersion && r.remoteBind == "127.0.0.1" && r.origin == "discovery"
      && r.localPort == r.remotePort && r.createdUnixMs == now % 0x1_0000_0000_0000_0000
      && r.id == added[0].id + i && r.id > ack && r.id > q.lastConsumedId
    ensures forall r, a | r in kept && a in added :: r.id < a.id && r.localPort != a.localPort
    ensures forall p :: (exists a | a in added :: a.localPort == p) <==>
      p in listeners && forall r | r in kept :: r.localPort != p
  {
    var p := PrunedAt(q, ack, now, EffectiveTtl(d.ttl));
    var ports := NewPorts(listeners, Ports(p.pending));
    hide MaxOf, Pruned, NewPorts, Minted, Added, Declared, Ports, PrunedAt, EffectiveTtl;
    NewPortsShort(listeners, Ports(p.pending));
    AddedIs(d, q, ack, listeners, now);
    AddedAre(d, p, ports, now, added);
    ConsumedIs(q, ack, now, EffectiveTtl(d.ttl));
    DeclaredIs(d, q, ack, listeners, now, p, ports, kept, added);
    NewAreAbove(p, added);
    PortsApart(kept, added, ports);
  }

  lemma {:induction false} AddedIs(d: Declarer, q: QueueValue, ack: Uint64, listeners: seq<Port>, now: int)
    requires HasRoom(q, ack, now, EffectiveTtl(d.ttl), |listeners|)
    ensures var p := PrunedAt(q, ack, now, EffectiveTtl(d.ttl)); var ports := NewPorts(listeners, Ports(p.pending));
      MaxId(p) + 1 + |ports| <= UINT64_SPAN && Added(d, q, ack, listeners, now) == Minted(d, now, MaxId(p) + 1, ports)
  {
    NewPortsShort(listeners, Ports(PrunedAt(q, ack, now, EffectiveTtl(d.ttl)).pending));
    hide MaxOf, Pruned, NewPorts, Minted, Ports;
  }

  lemma {:induction false} NewAreAbove(p: QueueValue, added: seq<Request>)
    requires forall i | 0 <= i < |added| :: added[i].id == MaxId(p) + 1 + i
    ensures forall i | 0 <= i < |added| :: added[i].id == added[0].id + i && added[i].id > p.lastConsumedId
    ensures forall r, a | r in p.pending && a in added :: r.id < a.id
  {
    MaxOfIsMaximum(p.lastConsumedId, p.pending);
    hide MaxOf;
  }

  lemma {:induction false} PortsApart(kept: seq<Request>, added: seq<Request>, ports: seq<Port>)
    requires |added| == |ports| && forall i | 0 <= i < |added| :: added[i].localPort == ports[i]
    requires forall x | x in ports :: forall r | r in kept :: r.localPort != x
    ensures forall r, a | r in kept && a in added :: r.localPort != a.localPort
  {
    forall r, a | r in kept && a in added
      ensures r.localPort != a.localPort
    {
      var i :| 0 <= i < |added| && added[i] == a;
      assert ports[i] in ports;
    }
  }

  lemma {:induction false} ConsumedIs(q: QueueValue, ack: Uint64, now: int, ttl: nat)
    ensures PrunedAt(q, ack, now, ttl).lastConsumedId == if ack > q.lastConsumedId then ack else q.lastConsumedId
  {
  }

  lemma {:induction false} DeclaredIs(d: Declarer, q: QueueValue, ack: Uint64, listeners: seq<Port>, now: int,
                                      p: QueueValue, ports: seq<Port>, kept: seq<Request>, added: seq<Request>)
    requires HasRoom(q, ack, now, EffectiveTtl(d.ttl), |listeners|) && p == PrunedAt(q, ack, now, EffectiveTtl(d.ttl))
    requires ports == NewPorts(listeners, Ports(p.pending)) && added == Added(d, q, ack, listeners, now)
    requires kept == PrunedAt(q, ack, now, if d.ttl == 0 then 600_000 else d.ttl).pending
    requires forall x :: x in ports <==> x in listeners && x !in Ports(p.pending)
    ensures Declared(d, q, ack, listeners, now) == QueueValue(p.lastConsumedId, kept + added) && p.pending == kept
    ensures forall x :: x in ports <==> x in listeners && forall r | r in kept :: r.localPort != x
  {
    hide MaxOf, Pruned, NewPorts, Minted;
  }

  /** The pane's queue: what is kept, then one request for the port, for any host, with an id just above everything
      known. */
  lemma {:induction false} RequestedExactly(version: string, q: QueueValue, ack: Uint64, port: Port, now: int,
                                            kept: seq<Request>) returns (r: Request)
    requires HasRoom(q, ack, now, DEFAULT_TTL, 1) && kept == PrunedAt(q, ack, now, 600_000).pending
    ensures Requested(version, q, ack, port, now).pending == kept + [r]
    ensures Requested(version, q, ack, port, now).lastConsumedId == if ack > q.lastConsumedId then ack else q.lastConsumedId
    ensures r.host == "" && r.pluginVersion == version && r.remoteBind == "127.0.0.1" && r.origin == "ports-pane"
    ensures r.localPort == r.remotePort == port && r.createdUnixMs == now % 0x1_0000_0000_0000_0000
    ensures r.id > ack && r.id > q.lastConsumedId && forall x | x in kept :: x.id < r.id
    ensures r.id - 1 in {ack, q.lastConsumedId} || exists x | x in kept :: x.id == r.id - 1
  {
    var p := PrunedAt(q, ack, now, DEFAULT_TTL);
    MaxOfIsMaximum(p.lastConsumedId, p.pending);
    hide MaxOf, Survivors;
    r := FromPane(version, now, MaxId(p) + 1, port);
  }

  // ---- Calls are steps -----------------------------------------------------------------

  /** The identities after a rewrite: new ones for the new ids, the old ones for the rest. */
  function IdentAfter(s: QP.System, cutoff: Uint64, added: seq<Request>): map<Uint64, int> {
    var p := Pruned(s.queue, s.ack, cutoff);
    map id | id in FA.IdSet(p.pending + added) && (id > MaxId(p) || id in s.ident) ::
      if id > MaxId(p) then s.next + (id - MaxId(p) - 1) else s.ident[id]
  }

  lemma {:induction false} RewriteExists(s: QP.System, cutoff: Uint64, added: seq<Request>) returns (s': QP.System)
    requires s.ident.Keys == FA.IdSet(s.queue.pending) && QP.FreshIds(Pruned(s.queue, s.ack, cutoff), added)
    ensures QP.Rewritten(s, cutoff, added, s')
    ensures s'.queue == QueueValue(Pruned(s.queue, s.ack, cutoff).lastConsumedId,
                                   Pruned(s.queue, s.ack, cutoff).pending + added)
  {
    var p := Pruned(s.queue, s.ack, cutoff);
    MaxOfIsMaximum(p.lastConsumedId, p.pending);
    SurvivorsExact(s.queue.pending, s.ack, cutoff);
    hide MaxOf, Survivors, Expired;
    var all := p.pending + added;
    s' := s.(queue := QueueValue(p.lastConsumedId, all), ident := IdentAfter(s, cutoff, added), next := s.next + |added|,
             expired := s.expired + QP.TtlDropped(s, cutoff));
    forall r | r in p.pending
      ensures r.id in s.ident && r.id <= MaxId(p) && r.id in s'.ident
    {
      assert r in s.queue.pending && r.id in FA.IdSet(s.queue.pending) && r in all && r.id in FA.IdSet(all);
    }
    forall i | 0 <= i < |added|
      ensures added[i] in all && added[i].id in s'.ident && s'.ident[added[i].id] == s.next + i
    {
      assert added[i] in all && added[i].id in FA.IdSet(all);
    }
    assert s'.ident.Keys == FA.IdSet(all);
  }

  /** Whatever the queue holds, Declare can be called when there is room for the ids, and what it writes is what a
      step of the protocol leaves. */
  lemma {:induction false} DeclareIsStep(past: seq<QP.System>, d: Declarer, listeners: seq<Port>, now: int)
    returns (s': QP.System)
    requires past != [] && QP.IdentOk(QP.Last(past))
    requires HasRoom(QP.Last(past).queue, QP.Last(past).ack, now, EffectiveTtl(d.ttl), |listeners|)
    ensures QP.StepRel(past, QP.Declares(d, listeners, now), s')
    ensures s'.queue == Declared(d, QP.Last(past).queue, QP.Last(past).ack, listeners, now)
    ensures s'.ack == QP.Last(past).ack && s'.agent == QP.Last(past).agent
  {
    var s := QP.Last(past);
    QP.AddedFresh(d, s.queue, s.ack, listeners, now);
    hide QP.FreshIds, Pruned, FA.IdSet, Added;
    s' := RewriteExists(s, Cutoff(now, EffectiveTtl(d.ttl)), Added(d, s.queue, s.ack, listeners, now));
  }

  lemma {:induction false} RequestIsStep(past: seq<QP.System>, version: string, port: Port, now: int)
    returns (s': QP.System)
    requires past != [] && QP.IdentOk(QP.Last(past))
    requires HasRoom(QP.Last(past).queue, QP.Last(past).ack, now, DEFAULT_TTL, 1)
    ensures QP.StepRel(past, QP.Requests(version, port, now), s')
    ensures s'.queue == Requested(version, QP.Last(past).queue, QP.Last(past).ack, port, now)
    ensures s'.ack == QP.Last(past).ack && s'.agent == QP.Last(past).agent
  {
    var s := QP.Last(past);
    QP.PaneFresh(version, s.queue, s.ack, port, now);
    hide QP.FreshIds, Pruned, FA.IdSet;
    s' := RewriteExists(s, Cutoff(now, DEFAULT_TTL), QP.PaneAdded(version, s.queue, s.ack, port, now));
  }
}
