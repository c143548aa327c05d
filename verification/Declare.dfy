/** The two engine-side writers of the queue file: Declarer.Declare in internal/cli/cmd_herdr_plugin.go and
    EnqueueForwardRequest in internal/cli/cmd_ports_pane.go. */
module Declare {
  import opened Wrappers
  import opened RequestQueue

  datatype Declarer = Declarer(host: string, pluginVersion: string, ttl: nat)

  // ---- Specification -------------------------------------------------------

  function Ports(s: seq<Request>): set<Port> {
    set r | r in s :: r.localPort
  }

  /** The listener ports that have no pending request, in order, repeats included. */
  function NewPorts(listeners: seq<Port>, taken: set<Port>): seq<Port> {
    if listeners == [] then []
    else
      var rest := NewPorts(listeners[..|listeners| - 1], taken);
      var p := listeners[|listeners| - 1];
      if p in taken then rest else rest + [p]
  }

  function Discovered(d: Declarer, now: int, id: Uint64, port: Port): Request {
    Request(id, d.host, port, port, "127.0.0.1", "discovery", d.pluginVersion, ToUint64(now))
  }

  /** One request per port, with consecutive ids from first on. */
  function Minted(d: Declarer, now: int, first: nat, ports: seq<Port>): (s: seq<Request>)
    requires first + |ports| <= UINT64_SPAN
    ensures |s| == |ports|
    ensures forall i | 0 <= i < |s| :: s[i] == Discovered(d, now, first + i, ports[i])
  {
    if ports == [] then []
    else
      var n := |ports| - 1;
      Minted(d, now, first, ports[..n]) + [Discovered(d, now, first + n, ports[n])]
  }

  function PrunedAt(q: QueueValue, ack: Uint64, now: int, ttl: nat): QueueValue {
    Pruned(q, ack, Cutoff(now, ttl))
  }

  ghost predicate HasRoom(q: QueueValue, ack: Uint64, now: int, ttl: nat, count: nat) {
    MaxId(PrunedAt(q, ack, now, ttl)) + count < UINT64_SPAN
  }

  function Added(d: Declarer, q: QueueValue, ack: Uint64, listeners: seq<Port>, now: int): seq<Request>
    requires HasRoom(q, ack, now, EffectiveTtl(d.ttl), |listeners|)
  {
    var p := PrunedAt(q, ack, now, EffectiveTtl(d.ttl));
    NewPortsShort(listeners, Ports(p.pending));
    Minted(d, now, MaxId(p) + 1, NewPorts(listeners, Ports(p.pending)))
  }

  function Declared(d: Declarer, q: QueueValue, ack: Uint64, listeners: seq<Port>, now: int): QueueValue
    requires HasRoom(q, ack, now, EffectiveTtl(d.ttl), |listeners|)
  {
    var p := PrunedAt(q, ack, now, EffectiveTtl(d.ttl));
    QueueValue(p.lastConsumedId, p.pending + Added(d, q, ack, listeners, now))
  }

  function FromPane(version: string, now: int, id: Uint64, port: Port): Request {
    Request(id, "", port, port, "127.0.0.1", "ports-pane", version, ToUint64(now))
  }

  function Requested(version: string, q: QueueValue, ack: Uint64, port: Port, now: int): QueueValue
    requires HasRoom(q, ack, now, DEFAULT_TTL, 1)
  {
    var p := PrunedAt(q, ack, now, DEFAULT_TTL);
    QueueValue(p.lastConsumedId, p.pending + [FromPane(version, now, MaxId(p) + 1, port)])
  }

  // ---- Facts about the specification ----------------------------------------

  lemma {:induction false} NewPortsShort(listeners: seq<Port>, taken: set<Port>)
    ensures |NewPorts(listeners, taken)| <= |listeners|
    ensures forall p :: p in NewPorts(listeners, taken) <==> p in listeners && p !in taken
  {
    if listeners != [] {
      var n := |listeners| - 1;
      NewPortsShort(listeners[..n], taken);
      assert listeners == listeners[..n] + [listeners[n]];
    }
  }

  lemma {:induction false} MaxOfAppend(floor: Uint64, s: seq<Request>, r: Request)
    requires r.id > MaxOf(floor, s)
    ensures MaxOf(floor, s + [r]) == r.id
  {
    assert (s + [r])[..|s|] == s;
  }

  lemma {:induction false} StrictAppend(floor: Uint64, s: seq<Request>, r: Request)
    requires StrictlySorted(s) && r.id > MaxOf(floor, s)
    ensures StrictlySorted(s + [r])
  {
    MaxOfIsMaximum(floor, s);
    forall i | 0 <= i < |s|
      ensures s[i].id < r.id
    {
      assert s[i] in s;
    }
  }

  /** Appending minted requests above the maximum keeps the order and raises the maximum by their number. */
  lemma {:induction false} MintedOnTop(d: Declarer, now: int, q: QueueValue, ports: seq<Port>)
    requires StrictlySorted(q.pending) && MaxId(q) + |ports| < UINT64_SPAN
    ensures var all := q.pending + Minted(d, now, MaxId(q) + 1, ports);
      && StrictlySorted(all)
      && MaxOf(q.lastConsumedId, all) == MaxId(q) + |ports|
  {
    if ports == [] {
      assert q.pending + [] == q.pending;
    } else {
      var n := |ports| - 1;
      MintedOnTop(d, now, q, ports[..n]);
      var front := q.pending + Minted(d, now, MaxId(q) + 1, ports[..n]);
      var last := Discovered(d, now, MaxId(q) + 1 + n, ports[n]);
      assert q.pending + Minted(d, now, MaxId(q) + 1, ports) == front + [last];
      MaxOfAppend(q.lastConsumedId, front, last);
      StrictAppend(q.lastConsumedId, front, last);
    }
  }

  lemma {:induction false} PrunedSorted(q: QueueValue, ack: Uint64, now: int, ttl: nat)
    requires StrictlySorted(q.pending)
    ensures StrictlySorted(PrunedAt(q, ack, now, ttl).pending)
  {
    SurvivorsSorted(q.pending, ack, Cutoff(now, ttl));
  }

  /** Pending stays strictly sorted. */
  lemma {:induction false} DeclaredSorted(d: Declarer, q: QueueValue, ack: Uint64, listeners: seq<Port>, now: int)
    requires StrictlySorted(q.pending) && HasRoom(q, ack, now, EffectiveTtl(d.ttl), |listeners|)
    ensures StrictlySorted(Declared(d, q, ack, listeners, now).pending)
  {
    hide PrunedAt, NewPorts, MaxOf, StrictlySorted, Minted, Ports;
    var p := PrunedAt(q, ack, now, EffectiveTtl(d.ttl));
    PrunedSorted(q, ack, now, EffectiveTtl(d.ttl));
    NewPortsShort(listeners, Ports(p.pending));
    MintedOnTop(d, now, p, NewPorts(listeners, Ports(p.pending)));
  }

  /** Every id Declare hands out is above the ack it read and above every entry it kept. */
  lemma {:induction false} AddedAboveAck(d: Declarer, q: QueueValue, ack: Uint64, listeners: seq<Port>, now: int)
    requires HasRoom(q, ack, now, EffectiveTtl(d.ttl), |listeners|)
    ensures forall r | r in Added(d, q, ack, listeners, now) ::
      AboveAll(r.id, PrunedAt(q, ack, now, EffectiveTtl(d.ttl))) && r.id > ack
  {
    var p := PrunedAt(q, ack, now, EffectiveTtl(d.ttl));
    assert ack <= p.lastConsumedId;
    MaxOfIsMaximum(p.lastConsumedId, p.pending);
    hide Pruned, Survivors, NewPorts, MaxOf;
  }

  lemma {:induction false} RequestedSorted(version: string, q: QueueValue, ack: Uint64, port: Port, now: int)
    requires StrictlySorted(q.pending) && HasRoom(q, ack, now, DEFAULT_TTL, 1)
    ensures StrictlySorted(Requested(version, q, ack, port, now).pending)
  {
    var p := PrunedAt(q, ack, now, DEFAULT_TTL);
    SurvivorsSorted(q.pending, ack, Cutoff(now, DEFAULT_TTL));
    StrictAppend(p.lastConsumedId, p.pending, FromPane(version, now, MaxId(p) + 1, port));
  }

  // ---- One pending request per port ------------------------------------------

  ghost predicate DistinctPorts(s: seq<Request>) {
    forall i, j | 0 <= i < j < |s| :: s[i].localPort != s[j].localPort
  }

  ghost predicate Distinct(ports: seq<Port>) {
    forall i, j | 0 <= i < j < |ports| :: ports[i] != ports[j]
  }

  lemma {:induction false} NewPortsDistinct(listeners: seq<Port>, taken: set<Port>)
    requires Distinct(listeners)
    ensures Distinct(NewPorts(listeners, taken))
  {
    if listeners != [] {
      var n := |listeners| - 1;
      NewPortsDistinct(listeners[..n], taken);
      NewPortsShort(listeners[..n], taken);
      assert listeners[n] !in listeners[..n];
    }
  }

  lemma {:induction false} AppendDistinct(d: Declarer, now: int, s: seq<Request>, first: nat, ports: seq<Port>)
    requires first + |ports| <= UINT64_SPAN
    requires forall p | p in ports :: p !in Ports(s)
    ensures DistinctPorts(s + Minted(d, now, first, ports)) <==> DistinctPorts(s) && Distinct(ports)
  {
    var m := Minted(d, now, first, ports);
    var all := s + m;
    if DistinctPorts(all) {
      assert forall i | 0 <= i < |s| :: all[i] == s[i];
      assert forall i | 0 <= i < |ports| :: all[|s| + i].localPort == ports[i];
    }
    if DistinctPorts(s) && Distinct(ports) {
      forall i, j | 0 <= i < j < |all|
        ensures all[i].localPort != all[j].localPort
      {
        if i < |s| <= j {
          assert ports[j - |s|] in ports && s[i] in s;
          assert s[i].localPort in Ports(s);
        }
      }
    }
  }

  /** Afterwards no port has two pending requests exactly when none had two after the prune and the ports Declare
      adds are pairwise distinct; distinct listener ports are enough for the latter. */
  lemma {:induction false} DeclaredOnePerPort(d: Declarer, q: QueueValue, ack: Uint64, listeners: seq<Port>, now: int)
    requires HasRoom(q, ack, now, EffectiveTtl(d.ttl), |listeners|)
    ensures var p := PrunedAt(q, ack, now, EffectiveTtl(d.ttl));
      && (DistinctPorts(Declared(d, q, ack, listeners, now).pending)
          <==> DistinctPorts(p.pending) && Distinct(NewPorts(listeners, Ports(p.pending))))
      && (Distinct(listeners) ==> Distinct(NewPorts(listeners, Ports(p.pending))))
  {
    var p := PrunedAt(q, ack, now, EffectiveTtl(d.ttl));
    NewPortsShort(listeners, Ports(p.pending));
    hide DistinctPorts, Distinct, MaxOf, Pruned, NewPorts;
    AppendDistinct(d, now, p.pending, MaxId(p) + 1, NewPorts(listeners, Ports(p.pending)));
    if Distinct(listeners) {
      NewPortsDistinct(listeners, Ports(p.pending));
    }
  }

  /** The pane's request is unconditional, so it keeps one request per port exactly when the port has none yet. */
  lemma {:induction false} RequestedOnePerPort(version: string, q: QueueValue, ack: Uint64, port: Port, now: int)
    requires HasRoom(q, ack, now, DEFAULT_TTL, 1)
    ensures var p := PrunedAt(q, ack, now, DEFAULT_TTL);
      DistinctPorts(Requested(version, q, ack, port, now).pending) <==> DistinctPorts(p.pending) && port !in Ports(p.pending)
  {
    hide PrunedAt, DistinctPorts, Ports;
    var p := PrunedAt(q, ack, now, DEFAULT_TTL);
    DistinctSnocExactly(p.pending, FromPane(version, now, MaxId(p) + 1, port));
  }

  lemma {:induction false} DistinctSnocExactly(s: seq<Request>, r: Request)
    ensures DistinctPorts(s + [r]) <==> DistinctPorts(s) && r.localPort !in Ports(s)
  {
    if DistinctPorts(s) && r.localPort !in Ports(s) {
      DistinctSnoc(s, r);
    }
    if DistinctPorts(s + [r]) {
      DistinctFront(s + [r]);
      hide DistinctPorts, Ports;
      assert (s + [r])[..|s + [r]| - 1] == s;
    }
  }

  lemma {:induction false} DistinctFront(s: seq<Request>)
    requires s != [] && DistinctPorts(s)
    ensures DistinctPorts(s[..|s| - 1]) && s[|s| - 1].localPort !in Ports(s[..|s| - 1])
  {
  }

  lemma {:induction false} DistinctSnoc(s: seq<Request>, r: Request)
    requires DistinctPorts(s) && r.localPort !in Ports(s)
    ensures DistinctPorts(s + [r])
  {
    forall j | 0 <= j < |s|
      ensures s[j].localPort in Ports(s)
    {
    }
  }

  /** Pruning cannot break "one pending request per port". */
  lemma {:induction false} SurvivorsDistinct(s: seq<Request>, ack: Uint64, cutoff: Uint64)
    requires DistinctPorts(s)
    ensures DistinctPorts(Survivors(s, ack, cutoff))
  {
    if s != [] {
      var front := s[..|s| - 1];
      DistinctFront(s);
      SurvivorsDistinct(front, ack, cutoff);
      SurvivorsExact(front, ack, cutoff);
      assert Ports(Survivors(front, ack, cutoff)) <= Ports(front);
      hide DistinctPorts, Ports, Expired;
      DistinctSnoc(Survivors(front, ack, cutoff), s[|s| - 1]);
    }
  }

  /** One pending request per port, kept from stored queue to stored queue: Declare on distinct listeners keeps it, and
      the pane keeps it exactly when no request for its port survives the prune. */
  lemma {:induction false} OnePerPortKept(d: Declarer, q: QueueValue, ack: Uint64, listeners: seq<Port>, now: int,
                                          version: string, port: Port)
    requires DistinctPorts(q.pending)
    ensures HasRoom(q, ack, now, EffectiveTtl(d.ttl), |listeners|) && Distinct(listeners) ==>
      DistinctPorts(Declared(d, q, ack, listeners, now).pending)
    ensures HasRoom(q, ack, now, DEFAULT_TTL, 1) ==>
      (DistinctPorts(Requested(version, q, ack, port, now).pending)
       <==> port !in Ports(PrunedAt(q, ack, now, DEFAULT_TTL).pending))
  {
    SurvivorsDistinct(q.pending, ack, Cutoff(now, EffectiveTtl(d.ttl)));
    SurvivorsDistinct(q.pending, ack, Cutoff(now, DEFAULT_TTL));
    hide DistinctPorts, Survivors, Declared, Requested, Distinct;
    if HasRoom(q, ack, now, EffectiveTtl(d.ttl), |listeners|) {
      DeclaredOnePerPort(d, q, ack, listeners, now);
    }
    if HasRoom(q, ack, now, DEFAULT_TTL, 1) {
      RequestedOnePerPort(version, q, ack, port, now);
    }
  }

  /** After Declare every listener has a pending request on its port. */
  lemma {:induction false} DeclaredCovers(d: Declarer, q: QueueValue, ack: Uint64, listeners: seq<Port>, now: int)
    requires HasRoom(q, ack, now, EffectiveTtl(d.ttl), |listeners|)
    ensures forall port | port in listeners :: port in Ports(Declared(d, q, ack, listeners, now).pending)
  {
    var p := PrunedAt(q, ack, now, EffectiveTtl(d.ttl));
    var ports := NewPorts(listeners, Ports(p.pending));
    NewPortsShort(listeners, Ports(p.pending));
    var all := Declared(d, q, ack, listeners, now).pending;
    forall port | port in listeners
      ensures port in Ports(all)
    {
      if port in Ports(p.pending) {
        var r :| r in p.pending && r.localPort == port;
        assert r in all;
      } else {
        var i :| 0 <= i < |ports| && ports[i] == port;
        assert all[|p.pending| + i].localPort == port;
      }
    }
  }

  // ---- Repeating a declaration -------------------------------------------------

  lemma {:induction false} NothingNew(listeners: seq<Port>, taken: set<Port>)
    requires forall p | p in listeners :: p in taken
    ensures NewPorts(listeners, taken) == []
  {
    if listeners != [] {
      NothingNew(listeners[..|listeners| - 1], taken);
    }
  }

  lemma {:induction false} SurvivorsAppend(s: seq<Request>, t: seq<Request>, ack: Uint64, cutoff: Uint64)
    ensures Survivors(s + t, ack, cutoff) == Survivors(s, ack, cutoff) + Survivors(t, ack, cutoff)
  {
    if t == [] {
      assert s + t == s;
      assert Survivors(s, ack, cutoff) + [] == Survivors(s, ack, cutoff);
    } else {
      var n := |t| - 1;
      var last := KeptOne(t[n], ack, cutoff);
      SurvivorsAppend(s, t[..n], ack, cutoff);
      SurvivorsSnoc(s + t[..n], t[n], ack, cutoff);
      SurvivorsSnoc(t[..n], t[n], ack, cutoff);
      hide Survivors, KeptOne;
      assert s + t == s + t[..n] + [t[n]] && t == t[..n] + [t[n]];
      RequestsAssoc(Survivors(s, ack, cutoff), Survivors(t[..n], ack, cutoff), last);
    }
  }

  /** What a request contributes to the survivors. */
  function KeptOne(r: Request, ack: Uint64, cutoff: Uint64): seq<Request> {
    if r.id <= ack || Expired(r, cutoff) then [] else [r]
  }

  lemma {:induction false} SurvivorsSnoc(s: seq<Request>, r: Request, ack: Uint64, cutoff: Uint64)
    ensures Survivors(s + [r], ack, cutoff) == Survivors(s, ack, cutoff) + KeptOne(r, ack, cutoff)
  {
    assert (s + [r])[..|s|] == s && (s + [r])[|s|] == r;
    assert Survivors(s, ack, cutoff) + [] == Survivors(s, ack, cutoff);
  }

  lemma {:induction false} RequestsAssoc(a: seq<Request>, b: seq<Request>, c: seq<Request>)
    ensures a + b + c == a + (b + c)
  {
  }

  lemma {:induction false} SurvivorsAgain(s: seq<Request>, t: seq<Request>, ack: Uint64, cutoff: Uint64,
                                          created: Uint64)
    requires forall r | r in s :: r.id > ack && !Expired(r, cutoff)
    requires forall r | r in t :: r.id > ack && r.createdUnixMs == created
    ensures Survivors(s + t, ack, cutoff) == s + (if created < cutoff then [] else t)
  {
    SurvivorsAppend(s, t, ack, cutoff);
    SurvivorsAll(s, ack, cutoff);
    if created < cutoff {
      NoSurvivors(t, ack, cutoff);
    } else {
      SurvivorsAll(t, ack, cutoff);
    }
  }

  lemma {:induction false} AddedAreFresh(d: Declarer, q: QueueValue, ack: Uint64, listeners: seq<Port>, now: int)
    requires HasRoom(q, ack, now, EffectiveTtl(d.ttl), |listeners|)
    ensures forall r | r in Added(d, q, ack, listeners, now) :: r.id > ack && r.createdUnixMs == ToUint64(now)
  {
    AddedAboveAck(d, q, ack, listeners, now);
  }

  lemma {:induction false} CutoffWraps(now: int, ttl: int)
    requires 0 <= now < UINT64_SPAN && 0 <= ttl < UINT64_SPAN
    ensures ToUint64(now) == now
    ensures now < Cutoff(now, ttl) <==> now < ttl
  {
  }

  /** What a second prune with the same ack and clock leaves of a declared queue: the survivors of the first prune,
      and the added requests unless the clock is within one ttl of the epoch, where the uint64 cutoff wraps. */
  lemma {:induction false} PruneAgain(d: Declarer, q: QueueValue, ack: Uint64, listeners: seq<Port>, now: int)
    requires HasRoom(q, ack, now, EffectiveTtl(d.ttl), |listeners|)
    requires 0 <= now < UINT64_SPAN && EffectiveTtl(d.ttl) < UINT64_SPAN
    ensures var ttl := EffectiveTtl(d.ttl);
      var p, added := PrunedAt(q, ack, now, ttl), Added(d, q, ack, listeners, now);
      PrunedAt(Declared(d, q, ack, listeners, now), ack, now, ttl)
      == QueueValue(p.lastConsumedId, p.pending + (if ttl <= now then added else []))
  {
    var ttl := EffectiveTtl(d.ttl);
    var cutoff := Cutoff(now, ttl);
    var p, added := PrunedAt(q, ack, now, ttl), Added(d, q, ack, listeners, now);
    SurvivorsExact(q.pending, ack, cutoff);
    AddedAreFresh(d, q, ack, listeners, now);
    CutoffWraps(now, ttl);
    hide Survivors, NewPorts, MaxOf, Added, StrictlySorted, Cutoff, ToUint64;
    SurvivorsAgain(p.pending, added, ack, cutoff, now);
  }

  /** Declare adds nothing exactly when every listener port is pending already. */
  lemma {:induction false} AddedNone(d: Declarer, q: QueueValue, ack: Uint64, listeners: seq<Port>, now: int)
    requires HasRoom(q, ack, now, EffectiveTtl(d.ttl), |listeners|)
    ensures Added(d, q, ack, listeners, now) == []
       <==> forall p | p in listeners :: p in Ports(PrunedAt(q, ack, now, EffectiveTtl(d.ttl)).pending)
  {
    var taken := Ports(PrunedAt(q, ack, now, EffectiveTtl(d.ttl)).pending);
    NewPortsShort(listeners, taken);
    hide Pruned, MaxOf, NewPorts;
    assert Added(d, q, ack, listeners, now) == [] <==> NewPorts(listeners, taken) == [];
    if NewPorts(listeners, taken) != [] {
      assert NewPorts(listeners, taken)[0] in NewPorts(listeners, taken);
    }
  }

  lemma {:induction false} TwiceSettled(d: Declarer, q: QueueValue, ack: Uint64, listeners: seq<Port>, now: int)
    requires HasRoom(q, ack, now, EffectiveTtl(d.ttl), |listeners|)
    requires 0 <= now < UINT64_SPAN && EffectiveTtl(d.ttl) < UINT64_SPAN
    requires HasRoom(Declared(d, q, ack, listeners, now), ack, now, EffectiveTtl(d.ttl), |listeners|)
    requires Added(d, q, ack, listeners, now) == [] || EffectiveTtl(d.ttl) <= now
    ensures var once := Declared(d, q, ack, listeners, now);
      Added(d, once, ack, listeners, now) == [] && Declared(d, once, ack, listeners, now) == once
  {
    hide Pruned, NewPorts, MaxOf, HasRoom;
    var once := Declared(d, q, ack, listeners, now);
    PruneAgain(d, q, ack, listeners, now);
    assert PrunedAt(once, ack, now, EffectiveTtl(d.ttl)) == once;
    DeclaredCovers(d, q, ack, listeners, now);
    NothingNew(listeners, Ports(once.pending));
    assert once.pending + [] == once.pending;
  }

  lemma {:induction false} TwiceUnsettled(d: Declarer, q: QueueValue, ack: Uint64, listeners: seq<Port>, now: int)
    requires HasRoom(q, ack, now, EffectiveTtl(d.ttl), |listeners|)
    requires 0 <= now < UINT64_SPAN && EffectiveTtl(d.ttl) < UINT64_SPAN
    requires HasRoom(Declared(d, q, ack, listeners, now), ack, now, EffectiveTtl(d.ttl), |listeners|)
    requires !(Added(d, q, ack, listeners, now) == [] || EffectiveTtl(d.ttl) <= now)
    ensures Added(d, Declared(d, q, ack, listeners, now), ack, listeners, now) == Added(d, q, ack, listeners, now)
  {
    hide Pruned, NewPorts, MaxOf, HasRoom;
    var p := PrunedAt(q, ack, now, EffectiveTtl(d.ttl));
    PruneAgain(d, q, ack, listeners, now);
    assert p.pending + [] == p.pending;
    assert PrunedAt(Declared(d, q, ack, listeners, now), ack, now, EffectiveTtl(d.ttl)) == p;
  }

  /** Declaring the same listeners again at the same time and ack adds nothing and leaves the queue as it is,
      exactly when every port was pending before the first call or the clock is at least one ttl past the epoch. */
  lemma {:induction false} DeclareTwice(d: Declarer, q: QueueValue, ack: Uint64, listeners: seq<Port>, now: int)
    requires HasRoom(q, ack, now, EffectiveTtl(d.ttl), |listeners|)
    requires 0 <= now < UINT64_SPAN && EffectiveTtl(d.ttl) < UINT64_SPAN
    requires HasRoom(Declared(d, q, ack, listeners, now), ack, now, EffectiveTtl(d.ttl), |listeners|)
    ensures var once := Declared(d, q, ack, listeners, now);
      (Added(d, once, ack, listeners, now) == [] && Declared(d, once, ack, listeners, now) == once)
      <==> (EffectiveTtl(d.ttl) <= now
            || forall p | p in listeners :: p in Ports(PrunedAt(q, ack, now, EffectiveTtl(d.ttl)).pending))
  {
    hide Pruned, NewPorts, MaxOf, HasRoom, Added, Declared, PrunedAt, Ports, EffectiveTtl;
    AddedNone(d, q, ack, listeners, now);
    if Added(d, q, ack, listeners, now) == [] || EffectiveTtl(d.ttl) <= now {
      TwiceSettled(d, q, ack, listeners, now);
    } else {
      TwiceUnsettled(d, q, ack, listeners, now);
    }
  }

  // ---- The loop of Declare, one iteration at a time ------------------------------

  /** After looking at some of the listeners, added holds a request for each new port among them. */
  ghost predicate MintedSoFar(
    d: Declarer, now: int, p: QueueValue, taken: set<Port>, seen: seq<Port>, added: seq<Request>)
  {
    var ports := NewPorts(seen, taken);
    MaxId(p) + 1 + |ports| <= UINT64_SPAN && added == Minted(d, now, MaxId(p) + 1, ports)
  }

  lemma {:induction false} MintStart(d: Declarer, now: int, p: QueueValue, taken: set<Port>)
    requires MaxId(p) < UINT64_SPAN
    ensures MintedSoFar(d, now, p, taken, [], [])
    ensures p.pending + [] == p.pending
  {
  }

  lemma {:induction false} MintOne(d: Declarer, now: int, p: QueueValue, ports: seq<Port>, port: Port)
    requires StrictlySorted(p.pending) && MaxId(p) + |ports| + 1 < UINT64_SPAN
    ensures var first, added := MaxId(p) + 1, Minted(d, now, MaxId(p) + 1, ports);
      var r := Discovered(d, now, first + |ports|, port);
      && NextIdOf(QueueValue(p.lastConsumedId, p.pending + added)) == first + |ports|
      && Minted(d, now, first, ports + [port]) == added + [r]
      && StrictlySorted(p.pending + added + [r])
  {
    assert (ports + [port])[..|ports|] == ports;
    hide StrictlySorted, MaxOf;
    MintedOnTop(d, now, p, ports);
    StrictAppend(p.lastConsumedId, p.pending + Minted(d, now, MaxId(p) + 1, ports),
                 Discovered(d, now, MaxId(p) + 1 + |ports|, port));
  }

  lemma {:induction false} NewPortsAppend(seen: seq<Port>, port: Port, taken: set<Port>)
    ensures NewPorts(seen + [port], taken) == if port in taken then NewPorts(seen, taken) else NewPorts(seen, taken) + [port]
  {
    assert (seen + [port])[..|seen|] == seen;
  }

  lemma {:induction false} MintSkip(
    d: Declarer, now: int, p: QueueValue, taken: set<Port>, seen: seq<Port>, port: Port, added: seq<Request>)
    requires MintedSoFar(d, now, p, taken, seen, added) && port in taken
    ensures MintedSoFar(d, now, p, taken, seen + [port], added)
  {
    NewPortsAppend(seen, port, taken);
  }

  lemma {:induction false} MintAdd(
    d: Declarer, now: int, p: QueueValue, taken: set<Port>, seen: seq<Port>, port: Port, added: seq<Request>)
    returns (r: Request)
    requires StrictlySorted(p.pending) && MaxId(p) + |seen| + 1 < UINT64_SPAN
    requires MintedSoFar(d, now, p, taken, seen, added) && port !in taken
    ensures r == Discovered(d, now, NextIdOf(QueueValue(p.lastConsumedId, p.pending + added)), port)
    ensures MintedSoFar(d, now, p, taken, seen + [port], added + [r])
    ensures StrictlySorted(p.pending + added + [r])
  {
    hide StrictlySorted, MaxOf, Discovered, NextIdOf, Minted, NewPorts;
    var ports := NewPorts(seen, taken);
    NewPortsAppend(seen, port, taken);
    NewPortsShort(seen, taken);
    MintOne(d, now, p, ports, port);
    r := Discovered(d, now, NextIdOf(QueueValue(p.lastConsumedId, p.pending + added)), port);
  }

  lemma {:induction false} MintDone(
    d: Declarer, q: QueueValue, ack: Uint64, listeners: seq<Port>, now: int, added: seq<Request>)
    requires StrictlySorted(q.pending) && HasRoom(q, ack, now, EffectiveTtl(d.ttl), |listeners|)
    requires var p := PrunedAt(q, ack, now, EffectiveTtl(d.ttl));
      MintedSoFar(d, now, p, Ports(p.pending), listeners, added)
    ensures added == Added(d, q, ack, listeners, now)
    ensures StrictlySorted(Declared(d, q, ack, listeners, now).pending)
  {
    DeclaredSorted(d, q, ack, listeners, now);
  }

  lemma {:induction false} PruneReady(d: Declarer, q: QueueValue, ack: Uint64, listeners: seq<Port>, now: int)
    requires StrictlySorted(q.pending) && HasRoom(q, ack, now, EffectiveTtl(d.ttl), |listeners|)
    ensures var p := PrunedAt(q, ack, now, EffectiveTtl(d.ttl));
      StrictlySorted(p.pending) && MaxId(p) + |listeners| < UINT64_SPAN
  {
    SurvivorsSorted(q.pending, ack, Cutoff(now, EffectiveTtl(d.ttl)));
  }

  /** The call of Enqueue in that loop. */
  method EnqueueDiscovered(d: Declarer, q: Queue, now: int, port: Port) returns (r: Request)
    requires StrictlySorted(q.pending + [Discovered(d, now, NextIdOf(q.Value()), port)])
    modifies q
    ensures r == Discovered(d, now, NextIdOf(old(q.Value())), port)
    ensures q.lastConsumedId == old(q.lastConsumedId) && q.pending == old(q.pending) + [r]
  {
    hide NextIdOf, StrictlySorted, Sorted;
    r := q.Enqueue(Request(0, d.host, port, port, "127.0.0.1", "discovery", d.pluginVersion, ToUint64(now)));
  }

  /** The loop of Declare: enqueue a request for each listener whose port the pruned queue does not hold. */
  method AddMissing(d: Declarer, q: Queue, listeners: seq<Port>, now: int) returns (added: seq<Request>)
    requires StrictlySorted(q.pending) && MaxId(q.Value()) + |listeners| < UINT64_SPAN
    modifies q
    ensures MintedSoFar(d, now, old(q.Value()), Ports(old(q.pending)), listeners, added)
    ensures q.Value() == QueueValue(old(q.lastConsumedId), old(q.pending) + added)
  {
    ghost var p := q.Value();
    var pending: set<Port> := set r | r in q.pending :: r.localPort;
    added := [];
    MintStart(d, now, p, pending);
    hide MaxOf, StrictlySorted, Sorted, MintedSoFar, NextIdOf;
    for i := 0 to |listeners|
      invariant MintedSoFar(d, now, p, pending, listeners[..i], added)
      invariant q.lastConsumedId == p.lastConsumedId && q.pending == p.pending + added
    {
      assert listeners[..i + 1] == listeners[..i] + [listeners[i]];
      if listeners[i] in pending {
        MintSkip(d, now, p, pending, listeners[..i], listeners[i], added);
      } else {
        ghost var minted := MintAdd(d, now, p, pending, listeners[..i], listeners[i], added);
        var r := EnqueueDiscovered(d, q, now, listeners[i]);
        assert p.pending + added + [r] == p.pending + (added + [r]);
        added := added + [r];
      }
    }
    assert listeners[..|listeners|] == listeners;
  }

  // ---- The state directory -----------------------------------------------------

  datatype Failure = LoadFailed | AckFailed | WriteFailed

  /** The engine's state directory: the queue file, None until it is first written, and the number in the ack file. */
  class StateDir {
    var queue: Option<QueueValue>
    var ack: Uint64

    constructor ()
      ensures Valid() && queue == None && ack == 0
    {
      queue, ack := None, 0;
    }

    /** Both writers keep the file sorted by distinct ids. */
    ghost predicate Valid()
      reads this
    {
      StrictlySorted(Loaded().pending)
    }

    function Loaded(): QueueValue
      reads this
    {
      if queue.Some? then queue.value else EMPTY_QUEUE
    }

    method Declare(d: Declarer, listeners: seq<Port>, now: int, loads: bool, readsAck: bool, writes: bool)
      returns (res: Result<seq<Request>, Failure>)
      requires Valid() && HasRoom(Loaded(), ack, now, EffectiveTtl(d.ttl), |listeners|)
      modifies this`queue
      ensures Valid()
      ensures res.Ok? <==> loads && readsAck && writes
      ensures res.Ok? ==>
        && queue == Some(Declared(d, old(Loaded()), ack, listeners, now))
        && res.value == Added(d, old(Loaded()), ack, listeners, now)
      ensures res.Err? ==> queue == old(queue)
    {
      if !loads {
        return Err(LoadFailed);
      }
      var q := new Queue(Loaded());
      if !readsAck {
        return Err(AckFailed);
      }
      ghost var loaded := Loaded();
      q.Prune(ack, now, if d.ttl == 0 then DEFAULT_TTL else d.ttl);
      PruneReady(d, loaded, ack, listeners, now);
      hide Pruned, NewPorts, Minted, StrictlySorted, HasRoom, MintedSoFar;
      var added := AddMissing(d, q, listeners, now);
      MintDone(d, loaded, ack, listeners, now, added);
      if !writes {
        return Err(WriteFailed);
      }
      queue := Some(QueueValue(q.lastConsumedId, q.pending));
      res := Ok(added);
    }

    method EnqueueForwardRequest(version: string, port: Port, now: int, loads: bool, readsAck: bool, writes: bool)
      returns (res: Result<(), Failure>)
      requires Valid() && HasRoom(Loaded(), ack, now, DEFAULT_TTL, 1)
      modifies this`queue
      ensures Valid()
      ensures res.Ok? <==> loads && readsAck && writes
      ensures res.Ok? ==> queue == Some(Requested(version, old(Loaded()), ack, port, now))
      ensures res.Err? ==> queue == old(queue)
    {
      if !loads {
        return Err(LoadFailed);
      }
      var q := new Queue(Loaded());
      if !readsAck {
        return Err(AckFailed);
      }
      q.Prune(ack, now, DEFAULT_TTL);
      ghost var p := q.Value();
      RequestedSorted(version, Loaded(), ack, port, now);
      NextIdAboveAll(p);
      var r := q.Enqueue(Request(0, "", port, port, "127.0.0.1", "ports-pane", version, ToUint64(now)));
      if !writes {
        return Err(WriteFailed);
      }
      queue := Some(QueueValue(q.lastConsumedId, q.pending));
      res := Ok(());
    }
  }
}
