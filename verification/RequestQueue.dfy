/** The forward-request queue of internal/clientagent/queue.go. */
module RequestQueue {

  const UINT64_SPAN: int := 0x1_0000_0000_0000_0000

  type Uint64 = n: int | 0 <= n < 0x1_0000_0000_0000_0000
  type Port = n: int | 0 <= n < 0x1_0000

  /** Ten minutes, in milliseconds. */
  const DEFAULT_TTL: nat := 600_000

  /** A ttl of zero stands for the default, in the agent's and in the declarer's configuration. */
  function EffectiveTtl(ttl: nat): nat {
    if ttl == 0 then DEFAULT_TTL else ttl
  }

  datatype Request = Request(
    id: Uint64,
    host: string,
    remotePort: Port,
    localPort: Port,
    remoteBind: string,
    origin: string,
    pluginVersion: string,
    createdUnixMs: Uint64)

  datatype QueueValue = QueueValue(lastConsumedId: Uint64, pending: seq<Request>)

  const EMPTY_QUEUE := QueueValue(0, [])

  /** Conversion of a signed millisecond count to uint64: negative values wrap. */
  function ToUint64(ms: int): Uint64 {
    ms % UINT64_SPAN
  }

  function Cutoff(now: int, ttl: int): Uint64 {
    ToUint64(now - ttl)
  }

  predicate Expired(r: Request, cutoff: Uint64) {
    r.createdUnixMs < cutoff
  }

  ghost predicate Sorted(s: seq<Request>) {
    forall i, j | 0 <= i < j < |s| :: s[i].id <= s[j].id
  }

  ghost predicate StrictlySorted(s: seq<Request>) {
    forall i, j | 0 <= i < j < |s| :: s[i].id < s[j].id
  }

  // ---- NextID ------------------------------------------------------------

  function MaxOf(floor: Uint64, s: seq<Request>): Uint64 {
    if s == [] then floor
    else
      var m := MaxOf(floor, s[..|s| - 1]);
      if s[|s| - 1].id > m then s[|s| - 1].id else m
  }

  function MaxId(q: QueueValue): Uint64 {
    MaxOf(q.lastConsumedId, q.pending)
  }

  function NextIdOf(q: QueueValue): Uint64 {
    (MaxId(q) + 1) % UINT64_SPAN
  }

  lemma {:induction false} MaxOfIsMaximum(floor: Uint64, s: seq<Request>)
    ensures floor <= MaxOf(floor, s)
    ensures forall r | r in s :: r.id <= MaxOf(floor, s)
    ensures MaxOf(floor, s) == floor || exists r | r in s :: r.id == MaxOf(floor, s)
  {
    if s != [] {
      var last := s[|s| - 1];
      MaxOfIsMaximum(floor, s[..|s| - 1]);
      assert s == s[..|s| - 1] + [last];
      assert last in s;
    }
  }

  ghost predicate AboveAll(id: Uint64, q: QueueValue) {
    id > q.lastConsumedId && forall r | r in q.pending :: id > r.id
  }

  /** The id handed out is above every id the queue knows of, except at the one value where uint64 wraps. */
  lemma {:induction false} NextIdAboveAll(q: QueueValue)
    ensures AboveAll(NextIdOf(q), q) <==> MaxId(q) < UINT64_SPAN - 1
    ensures MaxId(q) < UINT64_SPAN - 1 ==> NextIdOf(q) == MaxId(q) + 1
  {
    MaxOfIsMaximum(q.lastConsumedId, q.pending);
  }

  // ---- Prune -------------------------------------------------------------

  function Survivors(s: seq<Request>, acked: Uint64, cutoff: Uint64): seq<Request> {
    if s == [] then []
    else
      var rest := Survivors(s[..|s| - 1], acked, cutoff);
      var r := s[|s| - 1];
      if r.id <= acked || Expired(r, cutoff) then rest else rest + [r]
  }

  function Pruned(q: QueueValue, acked: Uint64, cutoff: Uint64): QueueValue {
    QueueValue(if acked > q.lastConsumedId then acked else q.lastConsumedId, Survivors(q.pending, acked, cutoff))
  }

  /** Prune drops exactly the acknowledged and the expired entries. */
  lemma {:induction false} SurvivorsExact(s: seq<Request>, acked: Uint64, cutoff: Uint64)
    ensures forall r :: r in Survivors(s, acked, cutoff) <==> r in s && r.id > acked && !Expired(r, cutoff)
  {
    if s != [] {
      var r := s[|s| - 1];
      var front := s[..|s| - 1];
      SurvivorsExact(front, acked, cutoff);
      assert s == front + [r];
    }
  }

  /** Prune keeps the order of what it keeps. */
  lemma {:induction false} SurvivorsSorted(s: seq<Request>, acked: Uint64, cutoff: Uint64)
    requires StrictlySorted(s)
    ensures StrictlySorted(Survivors(s, acked, cutoff))
  {
    if s != [] {
      var n := |s| - 1;
      var rest := Survivors(s[..n], acked, cutoff);
      SurvivorsSorted(s[..n], acked, cutoff);
      SurvivorsExact(s[..n], acked, cutoff);
      forall j | 0 <= j < |rest|
        ensures rest[j].id < s[n].id
      {
        assert rest[j] in s[..n];
      }
    }
  }

  lemma {:induction false} SurvivorsAll(s: seq<Request>, acked: Uint64, cutoff: Uint64)
    requires forall r | r in s :: r.id > acked && !Expired(r, cutoff)
    ensures Survivors(s, acked, cutoff) == s
  {
    if s != [] {
      SurvivorsAll(s[..|s| - 1], acked, cutoff);
    }
  }

  lemma {:induction false} NoSurvivors(s: seq<Request>, acked: Uint64, cutoff: Uint64)
    requires forall r | r in s :: r.id <= acked || Expired(r, cutoff)
    ensures Survivors(s, acked, cutoff) == []
  {
    if s != [] {
      NoSurvivors(s[..|s| - 1], acked, cutoff);
    }
  }

  // ---- Sorting -----------------------------------------------------------

  lemma {:induction false} InsertKeepsSorted(t: seq<Request>, k: nat, r: Request)
    requires Sorted(t) && k <= |t|
    requires forall j | 0 <= j < k :: t[j].id <= r.id
    requires k < |t| ==> r.id < t[k].id
    ensures Sorted(t[..k] + [r] + t[k..])
    ensures multiset(t[..k] + [r] + t[k..]) == multiset(t) + multiset{r}
  {
    var u := t[..k] + [r] + t[k..];
    InsertAt(t, k, r);
    InsertMultiset(t[..k], r, t[k..]);
    assert t == t[..k] + t[k..];
    assert forall j | k <= j < |t| :: r.id < t[j].id;
    forall i, j | 0 <= i < j < |u|
      ensures u[i].id <= u[j].id
    {
      assert u[i] == Inserted(t, k, r, i) && u[j] == Inserted(t, k, r, j);
    }
  }

  function Inserted(t: seq<Request>, k: nat, r: Request, i: nat): Request
    requires k <= |t| && i <= |t|
  {
    if i < k then t[i] else if i == k then r else t[i - 1]
  }

  lemma {:induction false} InsertAt(t: seq<Request>, k: nat, r: Request)
    requires k <= |t|
    ensures forall i: nat | i <= |t| :: (t[..k] + [r] + t[k..])[i] == Inserted(t, k, r, i)
  {
  }

  lemma {:induction false} InsertMultiset(a: seq<Request>, r: Request, b: seq<Request>)
    ensures multiset(a + [r] + b) == multiset(a + b) + multiset{r}
  {
  }

  method InsertById(t: seq<Request>, r: Request) returns (u: seq<Request>)
    requires Sorted(t)
    ensures Sorted(u) && multiset(u) == multiset(t) + multiset{r}
  {
    var k := 0;
    while k < |t| && t[k].id <= r.id
      invariant 0 <= k <= |t|
      invariant forall j | 0 <= j < k :: t[j].id <= r.id
    {
      k := k + 1;
    }
    InsertKeepsSorted(t, k, r);
    u := t[..k] + [r] + t[k..];
  }

  /** sort.Slice by id: any sorted permutation; the order of equal ids is not promised. */
  method SortById(s: seq<Request>) returns (t: seq<Request>)
    ensures Sorted(t) && multiset(t) == multiset(s)
  {
    t := [];
    for i := 0 to |s|
      invariant Sorted(t)
      invariant multiset(t) == multiset(s[..i])
    {
      t := InsertById(t, s[i]);
      assert s[..i + 1] == s[..i] + [s[i]];
    }
    assert s[..|s|] == s;
  }

  lemma {:induction false} LastIsMaximal(s: seq<Request>, r: Request)
    requires Sorted(s) && r in multiset(s)
    ensures |s| > 0 && r.id <= s[|s| - 1].id
  {
    assert r in s;
  }

  lemma {:induction false} MultisetFront(s: seq<Request>)
    requires s != []
    ensures s[|s| - 1] in multiset(s)
    ensures multiset(s[..|s| - 1]) == multiset(s) - multiset{s[|s| - 1]}
  {
    assert s == s[..|s| - 1] + [s[|s| - 1]];
  }

  lemma {:induction false} StrictLast(s: seq<Request>, r: Request)
    requires StrictlySorted(s) && r in multiset(s) && r.id >= s[|s| - 1].id
    ensures r == s[|s| - 1]
  {
    assert r in s;
  }

  lemma {:induction false} SameLast(s: seq<Request>, t: seq<Request>)
    requires StrictlySorted(s) && Sorted(t) && multiset(s) == multiset(t) && s != []
    ensures t != [] && s[|s| - 1] == t[|t| - 1]
    ensures multiset(s[..|s| - 1]) == multiset(t[..|t| - 1])
  {
    MultisetFront(s);
    LastIsMaximal(t, s[|s| - 1]);
    MultisetFront(t);
    StrictLast(s, t[|t| - 1]);
  }

  /** With distinct ids there is only one sorted permutation. */
  lemma {:induction false} SortedPermutationUnique(s: seq<Request>, t: seq<Request>)
    requires StrictlySorted(s) && Sorted(t) && multiset(s) == multiset(t)
    ensures s == t
  {
    if s == [] {
      assert |multiset(t)| == 0;
    } else {
      SameLast(s, t);
      var n, m := |s| - 1, |t| - 1;
      SortedPermutationUnique(s[..n], t[..m]);
      assert s == s[..n] + [s[n]] && t == t[..m] + [t[m]];
    }
  }

  // ---- The queue object --------------------------------------------------

  class Queue {
    var lastConsumedId: Uint64
    var pending: seq<Request>

    constructor (value: QueueValue)
      ensures Value() == value
    {
      lastConsumedId := value.lastConsumedId;
      pending := value.pending;
    }

    function Value(): QueueValue
      reads this
    {
      QueueValue(lastConsumedId, pending)
    }

    method NextID() returns (id: Uint64)
      ensures id == NextIdOf(Value())
    {
      var max := lastConsumedId;
      for i := 0 to |pending|
        invariant max == MaxOf(lastConsumedId, pending[..i])
      {
        assert pending[..i + 1][..i] == pending[..i];
        if pending[i].id > max {
          max := pending[i].id;
        }
      }
      assert pending[..|pending|] == pending;
      id := (max + 1) % UINT64_SPAN;
    }

    method Enqueue(r: Request) returns (stored: Request)
      modifies this
      ensures stored == if r.id == 0 then r.(id := NextIdOf(old(Value()))) else r
      ensures lastConsumedId == old(lastConsumedId)
      ensures Sorted(pending) && multiset(pending) == multiset(old(pending)) + multiset{stored}
      ensures StrictlySorted(old(pending) + [stored]) ==> pending == old(pending) + [stored]
    {
      stored := r;
      if r.id == 0 {
        var id := NextID();
        stored := r.(id := id);
      }
      ghost var before := pending + [stored];
      pending := SortById(pending + [stored]);
      if StrictlySorted(before) {
        SortedPermutationUnique(before, pending);
      }
    }

    method Prune(acked: Uint64, now: int, ttl: int)
      modifies this
      ensures Value() == Pruned(old(Value()), acked, Cutoff(now, ttl))
    {
      var cutoff := Cutoff(now, ttl);
      var kept: seq<Request> := [];
      for i := 0 to |pending|
        invariant kept == Survivors(pending[..i], acked, cutoff)
        invariant Value() == old(Value())
      {
        assert pending[..i + 1][..i] == pending[..i];
        if !(pending[i].id <= acked || pending[i].createdUnixMs < cutoff) {
          kept := kept + [pending[i]];
        }
      }
      assert pending[..|pending|] == pending;
      pending := kept;
      if acked > lastConsumedId {
        lastConsumedId := acked;
      }
    }
  }
}
