/** The host-port block allocator of internal/runtime/msb/rangealloc.go. */
module RangeAlloc {
  import opened Wrappers
  import opened Paging

  type Uint16 = n: int | 0 <= n < 0x1_0000
  type Uint32 = n: int | 0 <= n < 0x1_0000_0000

  const ALLOC_BASE: nat := 5_000
  const BLOCK_SIZE: nat := 10_000
  const GUEST_BASE: nat := 1_024
  const MAX_BLOCKS: nat := 6

  /** What can be read of a record's config: nothing, no network section, or the published host ports. */
  datatype PortConfig = EmptyConfig | Malformed | NoNetwork | Network(ports: seq<Uint32>)

  datatype PortRecord = PortRecord(name: string, config: PortConfig)

  function PortsOf(c: PortConfig): Option<seq<Uint32>> {
    match c
    case EmptyConfig => None
    case Malformed => None
    case NoNetwork => Some([])
    case Network(ports) => Some(ports)
  }

  function BaseOf(i: nat): nat {
    ALLOC_BASE + i * BLOCK_SIZE
  }

  predicate InBlock(p: Uint32, base: nat) {
    base <= p < base + BLOCK_SIZE
  }

  predicate Touches(ports: seq<Uint32>, base: nat) {
    exists p | p in ports :: InBlock(p, base)
  }

  predicate HitsBlock(r: PortRecord, base: nat) {
    PortsOf(r.config).Some? && Touches(PortsOf(r.config).value, base)
  }

  // ---- What the two scans decide ----------------------------------------------

  /** Some listed sandbox has a port in block i. */
  ghost predicate Used(recs: seq<PortRecord>, i: nat) {
    exists r | r in recs :: HitsBlock(r, BaseOf(i))
  }

  ghost predicate Readable(recs: seq<PortRecord>) {
    forall r | r in recs :: PortsOf(r.config).Some?
  }

  /** Sandboxes are listed, but none shows a port in the managed range. */
  ghost predicate Drift(recs: seq<PortRecord>) {
    recs != [] && forall i: nat | i < MAX_BLOCKS :: !Used(recs, i)
  }

  ghost predicate OccupancyKnown(fetch: Fetcher<PortRecord>, cancelled: nat -> bool, n: nat) {
    && Complete(fetch, n) && Arrives(fetch, n)
    && Awake(cancelled, n)
    && Readable(Records(fetch, n)) && !Drift(Records(fetch, n))
  }

  /** Every other sandbox is readable and keeps out of the block. */
  ghost predicate CollisionFree(recs: seq<PortRecord>, name: string, base: nat) {
    forall r | r in recs && r.name != name :: PortsOf(r.config).Some? && !HitsBlock(r, base)
  }

  ghost predicate ClearListing(fetch: Fetcher<PortRecord>, name: string, base: nat, n: nat) {
    Complete(fetch, n) && Arrives(fetch, n) && CollisionFree(Records(fetch, n), name, base)
  }

  // ---- The same by the records' own forms -----------------------------------------

  /** Block i is the ten thousand ports from 5000 + 10000 * i on, and some record shows a port in it. */
  lemma {:induction false} UsedByRecords(recs: seq<PortRecord>, i: nat)
    ensures BaseOf(i) == 5_000 + 10_000 * i
    ensures Used(recs, i) <==> exists r | r in recs ::
      r.config.Network? && exists p | p in r.config.ports :: 5_000 + 10_000 * i <= p < 15_000 + 10_000 * i
  {
    if r :| r in recs && HitsBlock(r, BaseOf(i)) {
      var p :| p in PortsOf(r.config).value && InBlock(p, BaseOf(i));
      assert r.config.Network? && p in r.config.ports;
    }
    if r :| r in recs && r.config.Network? && exists p | p in r.config.ports :: 5_000 + 10_000 * i <= p < 15_000 + 10_000 * i {
      var p :| p in r.config.ports && 5_000 + 10_000 * i <= p < 15_000 + 10_000 * i;
      assert InBlock(p, BaseOf(i));
      assert HitsBlock(r, BaseOf(i));
    }
  }

  /** A record whose config is empty or cannot be decoded makes the occupancy unknown; so does a listing of
      sandboxes none of which shows a port from 5000 to 64999. */
  lemma {:induction false} OccupancyByRecords(fetch: Fetcher<PortRecord>, cancelled: nat -> bool, n: nat)
    requires Arrives(fetch, n)
    ensures OccupancyKnown(fetch, cancelled, n) <==>
      && Complete(fetch, n) && (forall i: nat | i < n :: !cancelled(i))
      && (forall r | r in Records(fetch, n) :: r.config.NoNetwork? || r.config.Network?)
      && (Records(fetch, n) == [] || exists r | r in Records(fetch, n) ::
            r.config.Network? && exists p | p in r.config.ports :: 5_000 <= p < 65_000)
  {
    hide Complete;
    DriftByRecords(Records(fetch, n));
    hide Drift;
  }

  lemma {:induction false} DriftByRecords(recs: seq<PortRecord>)
    ensures Drift(recs) <==> recs != [] && !exists r | r in recs ::
      r.config.Network? && exists p | p in r.config.ports :: 5_000 <= p < 65_000
  {
    if r :| r in recs && r.config.Network? && exists p | p in r.config.ports :: 5_000 <= p < 65_000 {
      var p :| p in r.config.ports && 5_000 <= p < 65_000;
      BlockIndex(p);
      var i: nat := (p - ALLOC_BASE) / BLOCK_SIZE;
      UsedByRecords(recs, i);
      assert i < MAX_BLOCKS && Used(recs, i);
    }
    if i: nat :| i < MAX_BLOCKS && Used(recs, i) {
      UsedByRecords(recs, i);
    }
  }

  lemma {:induction false} ClearRecord(r: PortRecord, base: nat)
    ensures PortsOf(r.config).Some? && !HitsBlock(r, base) <==>
      || r.config.NoNetwork?
      || (r.config.Network? && forall p | p in r.config.ports :: p < base || base + 10_000 <= p)
  {
    if r.config.Network? {
      forall p: Uint32
        ensures InBlock(p, base) <==> !(p < base || base + 10_000 <= p)
      {
      }
      hide InBlock;
    }
  }

  /** The check passes when no other sandbox has an empty or undecodable config, or a port in the block. */
  lemma {:induction false} ClearByRecords(fetch: Fetcher<PortRecord>, name: string, base: nat, n: nat)
    requires Arrives(fetch, n)
    ensures ClearListing(fetch, name, base, n) <==>
      && Complete(fetch, n)
      && forall r | r in Records(fetch, n) && r.name != name ::
           r.config.NoNetwork?
           || (r.config.Network? && forall p | p in r.config.ports :: p < base || base + 10_000 <= p)
  {
    hide Complete, HitsBlock, PortsOf, Records;
    forall r: PortRecord
      ensures PortsOf(r.config).Some? && !HitsBlock(r, base) <==>
        || r.config.NoNetwork?
        || (r.config.Network? && forall p | p in r.config.ports :: p < base || base + 10_000 <= p)
    {
      ClearRecord(r, base);
    }
  }

  // ---- One page of the occupancy scan -------------------------------------------

  lemma {:induction false} BlockIndex(p: Uint32)
    requires BaseOf(0) <= p < BaseOf(MAX_BLOCKS)
    ensures (p - ALLOC_BASE) / BLOCK_SIZE < MAX_BLOCKS
    ensures forall i: nat | i < MAX_BLOCKS :: InBlock(p, BaseOf(i)) <==> i == (p - ALLOC_BASE) / BLOCK_SIZE
  {
  }

  lemma {:induction false} OutsideAll(p: Uint32, i: nat)
    requires i < MAX_BLOCKS && InBlock(p, BaseOf(i))
    ensures BaseOf(0) <= p < BaseOf(MAX_BLOCKS)
  {
  }

  lemma {:induction false} TouchesAppend(ports: seq<Uint32>, p: Uint32, base: nat)
    ensures Touches(ports + [p], base) <==> Touches(ports, base) || InBlock(p, base)
  {
    assert forall x :: x in ports + [p] <==> x in ports || x == p;
  }

  ghost predicate TouchesAny(ports: seq<Uint32>) {
    exists i: nat | i < MAX_BLOCKS :: Touches(ports, BaseOf(i))
  }

  lemma {:induction false} PortSeen(ports: seq<Uint32>, p: Uint32)
    ensures forall i: nat | i < MAX_BLOCKS ::
      Touches(ports + [p], BaseOf(i)) <==>
        Touches(ports, BaseOf(i)) || (BaseOf(0) <= p < BaseOf(MAX_BLOCKS) && i == (p - ALLOC_BASE) / BLOCK_SIZE)
    ensures TouchesAny(ports + [p]) <==> TouchesAny(ports) || BaseOf(0) <= p < BaseOf(MAX_BLOCKS)
  {
    if BaseOf(0) <= p < BaseOf(MAX_BLOCKS) {
      BlockIndex(p);
    }
    forall i: nat | i < MAX_BLOCKS
      ensures Touches(ports + [p], BaseOf(i)) <==>
        Touches(ports, BaseOf(i)) || (BaseOf(0) <= p < BaseOf(MAX_BLOCKS) && i == (p - ALLOC_BASE) / BLOCK_SIZE)
    {
      TouchesAppend(ports, p, BaseOf(i));
      if InBlock(p, BaseOf(i)) {
        OutsideAll(p, i);
      }
    }
    if BaseOf(0) <= p < BaseOf(MAX_BLOCKS) {
      assert Touches(ports + [p], BaseOf((p - ALLOC_BASE) / BLOCK_SIZE));
    }
  }

  /** Marks the blocks the given ports fall into, counting the ports inside the managed range. */
  method MarkPorts(ports: seq<Uint32>, occ: array<bool>) returns (count: nat)
    requires occ.Length == MAX_BLOCKS
    modifies occ
    ensures forall i: nat | i < MAX_BLOCKS :: occ[i] == (old(occ[i]) || Touches(ports, BaseOf(i)))
    ensures count > 0 <==> TouchesAny(ports)
  {
    var lo := ALLOC_BASE;
    var hi := lo + MAX_BLOCKS * BLOCK_SIZE - 1;
    count := 0;
    for k := 0 to |ports|
      invariant forall i: nat | i < MAX_BLOCKS :: occ[i] == (old(occ[i]) || Touches(ports[..k], BaseOf(i)))
      invariant count > 0 <==> TouchesAny(ports[..k])
    {
      var p := ports[k];
      assert ports[..k + 1] == ports[..k] + [p];
      PortSeen(ports[..k], p);
      hide Touches, TouchesAny;
      if lo <= p <= hi {
        count := count + 1;
        var idx := (p - lo) / BLOCK_SIZE;
        if idx < MAX_BLOCKS {
          occ[idx] := true;
        }
      }
    }
    assert ports[..|ports|] == ports;
  }

  lemma {:induction false} UsedAppend(recs: seq<PortRecord>, r: PortRecord, i: nat)
    ensures Used(recs + [r], i) <==> Used(recs, i) || HitsBlock(r, BaseOf(i))
  {
    assert forall x :: x in recs + [r] <==> x in recs || x == r;
  }

  ghost predicate UsedAny(recs: seq<PortRecord>) {
    exists i: nat | i < MAX_BLOCKS :: Used(recs, i)
  }

  lemma {:induction false} RecordSeen(recs: seq<PortRecord>, r: PortRecord)
    requires PortsOf(r.config).Some?
    ensures forall i: nat | i < MAX_BLOCKS ::
      Used(recs + [r], i) <==> Used(recs, i) || Touches(PortsOf(r.config).value, BaseOf(i))
    ensures UsedAny(recs + [r]) <==> UsedAny(recs) || TouchesAny(PortsOf(r.config).value)
    ensures Readable(recs) ==> Readable(recs + [r])
  {
    forall i: nat | i < MAX_BLOCKS
      ensures Used(recs + [r], i) <==> Used(recs, i) || Touches(PortsOf(r.config).value, BaseOf(i))
    {
      UsedAppend(recs, r, i);
    }
  }

  /** The scan state after seeing the given records. */
  ghost predicate Scanned(recs: seq<PortRecord>, occ: seq<bool>, live: nat, ports: nat) {
    && |occ| == MAX_BLOCKS
    && Readable(recs)
    && (forall i: nat | i < MAX_BLOCKS :: occ[i] == Used(recs, i))
    && live == |recs|
    && (ports > 0 <==> UsedAny(recs))
  }

  lemma {:induction false} ScanStart(occ: seq<bool>)
    requires occ == seq(MAX_BLOCKS, i => false)
    ensures Scanned([], occ, 0, 0)
  {
  }

  lemma {:induction false} ScanStep(
    recs: seq<PortRecord>, occ: seq<bool>, live: nat, ports: nat, r: PortRecord, occ': seq<bool>, count: nat)
    requires Scanned(recs, occ, live, ports) && PortsOf(r.config).Some? && |occ'| == MAX_BLOCKS
    requires forall i: nat | i < MAX_BLOCKS :: occ'[i] == (occ[i] || Touches(PortsOf(r.config).value, BaseOf(i)))
    requires count > 0 <==> TouchesAny(PortsOf(r.config).value)
    ensures Scanned(recs + [r], occ', live + 1, ports + count)
  {
    hide Used, UsedAny, Touches, TouchesAny;
    RecordSeen(recs, r);
  }

  /** The records of one page; stops at the first unreadable one. */
  method MarkPage(recs: seq<PortRecord>, occ: array<bool>, live: nat, ports: nat, ghost before: seq<PortRecord>)
    returns (ok: bool, live': nat, ports': nat)
    requires occ.Length == MAX_BLOCKS && Scanned(before, occ[..], live, ports)
    modifies occ
    ensures ok ==> Scanned(before + recs, occ[..], live', ports')
    ensures !ok ==> exists r :: r in recs && PortsOf(r.config).None?
  {
    live', ports' := live, ports;
    assert before + recs[..0] == before;
    hide Scanned;
    for k := 0 to |recs|
      invariant Scanned(before + recs[..k], occ[..], live', ports')
    {
      var rec := recs[k];
      var config := PortsOf(rec.config);
      if config.None? {
        return false, live', ports';
      }
      ghost var was := occ[..];
      var count := MarkPorts(config.value, occ);
      ScanStep(before + recs[..k], was, live', ports', rec, occ[..], count);
      assert before + recs[..k] + [rec] == before + recs[..k + 1];
      live', ports' := live' + 1, ports' + count;
    }
    assert recs[..|recs|] == recs;
    ok := true;
  }

  ghost predicate Hopeless(fetch: Fetcher<PortRecord>, cancelled: nat -> bool) {
    forall n: nat :: !OccupancyKnown(fetch, cancelled, n)
  }

  lemma {:induction false} CancelledIsHopeless(fetch: Fetcher<PortRecord>, cancelled: nat -> bool, k: nat)
    requires Continues(fetch, k) && cancelled(k)
    ensures Hopeless(fetch, cancelled)
  {
    forall n: nat
      ensures !OccupancyKnown(fetch, cancelled, n)
    {
      if Complete(fetch, n) {
        CompleteBeyond(fetch, k, n);
      }
    }
  }

  lemma {:induction false} UnreadableIsHopeless(fetch: Fetcher<PortRecord>, cancelled: nat -> bool, k: nat,
                                                r: PortRecord)
    requires Continues(fetch, k) && fetch(k).Ok?
    requires r in fetch(k).value.records && PortsOf(r.config).None?
    ensures Hopeless(fetch, cancelled)
  {
    forall n: nat
      ensures !OccupancyKnown(fetch, cancelled, n)
    {
      if Complete(fetch, n) {
        PageIncluded(fetch, k, n);
      }
    }
  }

  lemma {:induction false} EndlessIsHopeless(fetch: Fetcher<PortRecord>, cancelled: nat -> bool)
    requires Endless(fetch)
    ensures Hopeless(fetch, cancelled)
  {
  }

  /** The last page decides: the occupancy is known unless the listing shows schema drift. */
  lemma {:induction false} LastPage(fetch: Fetcher<PortRecord>, cancelled: nat -> bool, k: nat,
                                    occ: seq<bool>, live: nat, ports: nat)
    requires k < MAX_PAGES && Continues(fetch, k) && fetch(k).Ok? && fetch(k).value.next.None?
    requires Awake(cancelled, k + 1)
    requires Arrives(fetch, k + 1) && Scanned(Records(fetch, k + 1), occ, live, ports)
    ensures live > 0 && ports == 0 ==> Hopeless(fetch, cancelled)
    ensures !(live > 0 && ports == 0) ==> OccupancyKnown(fetch, cancelled, k + 1)
  {
    assert Complete(fetch, k + 1);
    if live > 0 && ports == 0 {
      forall n: nat
        ensures !OccupancyKnown(fetch, cancelled, n)
      {
        if Complete(fetch, n) {
          CompleteOnce(fetch, n, k + 1);
        }
      }
    }
  }

  lemma {:induction false} NotFetchedIsHopeless(fetch: Fetcher<PortRecord>, cancelled: nat -> bool, k: nat)
    requires Continues(fetch, k) && (cancelled(k) || Endless(fetch))
    ensures Hopeless(fetch, cancelled)
  {
    if cancelled(k) {
      CancelledIsHopeless(fetch, cancelled, k);
    } else {
      EndlessIsHopeless(fetch, cancelled);
    }
  }

  /** One turn of the loop: fetch page k, mark its blocks, and look at its cursor. */
  method OccupancyTurn(fetch: Fetcher<PortRecord>, cancelled: nat -> bool, k: nat, cursor: Option<string>,
                       occ: array<bool>, live: nat, ports: nat)
    returns (turn: Turn<(nat, nat)>)
    requires k <= MAX_PAGES && Continues(fetch, k) && Arrives(fetch, k) && IsCursor(fetch, k, cursor)
    requires Awake(cancelled, k) && occ.Length == MAX_BLOCKS
    requires Scanned(Records(fetch, k), occ[..], live, ports)
    modifies occ
    ensures turn.Stop? ==> turn.fetches <= MAX_PAGES && Hopeless(fetch, cancelled)
    ensures !turn.Stop? ==> k < MAX_PAGES && Awake(cancelled, k + 1) && Arrives(fetch, k + 1)
    ensures turn.Done? ==> OccupancyKnown(fetch, cancelled, k + 1)
    ensures turn.Done? ==> Scanned(Records(fetch, k + 1), occ[..], turn.answer.0, turn.answer.1)
    ensures turn.More? ==> Continues(fetch, k + 1) && IsCursor(fetch, k + 1, Some(turn.next))
    ensures turn.More? ==> Scanned(Records(fetch, k + 1), occ[..], turn.sofar.0, turn.sofar.1)
  {
    hide Scanned, Hopeless, Readable, Drift, Used, Continues, Complete, OccupancyKnown, Endless;
    var answer := FetchPage(fetch, cancelled, k);
    if answer.Err? {
      NotFetchedIsHopeless(fetch, cancelled, k);
      return Stop(answer.error, Tried(k, answer.error));
    }
    var ok, live', ports' := MarkPage(answer.value.records, occ, live, ports, Records(fetch, k));
    if !ok {
      ghost var bad :| bad in answer.value.records && PortsOf(bad.config).None?;
      UnreadableIsHopeless(fetch, cancelled, k, bad);
      return Stop(BadRecord, k + 1);
    }
    var next := answer.value.next;
    if next.None? {
      LastPage(fetch, cancelled, k, occ[..], live', ports');
      if live' > 0 && ports' == 0 {
        return Stop(SchemaDrift, k + 1);
      }
      return Done((live', ports'));
    }
    if cursor.Some? && next == cursor {
      NeverComplete(fetch, k);
      EndlessIsHopeless(fetch, cancelled);
      return Stop(RepeatedCursor, k + 1);
    }
    ContinuesStep(fetch, k);
    turn := More((live', ports'), next.value);
  }

  method OccupiedBlocksFrom(fetch: Fetcher<PortRecord>, cancelled: nat -> bool)
    returns (r: Result<seq<bool>, ListError>, fetches: nat)
    ensures fetches <= 1000
    ensures r.Ok? ==>
      && OccupancyKnown(fetch, cancelled, fetches)
      && |r.value| == MAX_BLOCKS
      && forall i: nat | i < MAX_BLOCKS :: r.value[i] == Used(Records(fetch, fetches), i)
    ensures r.Err? ==> Hopeless(fetch, cancelled)
  {
    hide Awake, Scanned, Hopeless, Readable, Drift, Used, Continues, Complete, OccupancyKnown, IsCursor, Records, Arrives;
    var occ := new bool[MAX_BLOCKS](i => false);
    var live: nat, ports: nat := 0, 0;
    var cursor: Option<string> := None;
    fetches := 0;
    ScanStart(occ[..]);
    NoPageYet(fetch, cancelled);
    while true
      invariant fetches <= MAX_PAGES
      invariant Continues(fetch, fetches) && Arrives(fetch, fetches) && IsCursor(fetch, fetches, cursor)
      invariant Awake(cancelled, fetches)
      invariant fresh(occ) && occ.Length == MAX_BLOCKS && Scanned(Records(fetch, fetches), occ[..], live, ports)
      decreases MAX_PAGES - fetches
    {
      var turn := OccupancyTurn(fetch, cancelled, fetches, cursor, occ, live, ports);
      match turn {
        case Stop(e, tried) =>
          return Err(e), tried;
        case Done(counts) =>
          ScannedOcc(Records(fetch, fetches + 1), occ[..], counts.0, counts.1);
          return Ok(occ[..]), fetches + 1;
        case More(counts, next) =>
          live, ports, cursor, fetches := counts.0, counts.1, Some(next), fetches + 1;
      }
    }
  }

  lemma {:induction false} ScannedOcc(recs: seq<PortRecord>, occ: seq<bool>, live: nat, ports: nat)
    requires Scanned(recs, occ, live, ports)
    ensures |occ| == MAX_BLOCKS && forall i: nat | i < MAX_BLOCKS :: occ[i] == Used(recs, i)
  {
  }

  /** The least block in which no listed sandbox has a port. */
  ghost predicate LeastFree(recs: seq<PortRecord>, i: nat) {
    i < MAX_BLOCKS && !Used(recs, i) && forall j: nat | j < i :: Used(recs, j)
  }

  method Allocate(fetch: Fetcher<PortRecord>, cancelled: nat -> bool)
    returns (r: Result<Uint16, ListError>, n: nat)
    ensures r.Ok? ==>
      && OccupancyKnown(fetch, cancelled, n)
      && exists i: nat :: LeastFree(Records(fetch, n), i) && r.value == BaseOf(i)
    ensures r.Ok? ==> exists i: nat | i < 6 ::
      && r.value == 5_000 + 10_000 * i && !Used(Records(fetch, n), i)
      && forall j: nat | j < i :: Used(Records(fetch, n), j)
    ensures r.Err? ==>
      Hopeless(fetch, cancelled)
      || (OccupancyKnown(fetch, cancelled, n) && forall i: nat | i < MAX_BLOCKS :: Used(Records(fetch, n), i))
  {
    var occupied, fetches := OccupiedBlocksFrom(fetch, cancelled);
    n := fetches;
    if occupied.Err? {
      return Err(occupied.error), n;
    }
    hide OccupancyKnown, Used;
    for i := 0 to MAX_BLOCKS
      invariant forall j: nat | j < i :: Used(Records(fetch, n), j)
    {
      if !occupied.value[i] {
        assert LeastFree(Records(fetch, n), i);
        return Ok(ALLOC_BASE + i * BLOCK_SIZE), n;
      }
    }
    r := Err(Collision);
  }

  // ---- The collision scan -----------------------------------------------------------

  ghost predicate NeverClear(fetch: Fetcher<PortRecord>, name: string, base: nat) {
    forall n: nat :: !ClearListing(fetch, name, base, n)
  }

  lemma {:induction false} OffenderIsNeverClear(fetch: Fetcher<PortRecord>, name: string, base: nat, k: nat,
                                                r: PortRecord)
    requires Continues(fetch, k) && fetch(k).Ok? && r in fetch(k).value.records
    requires r.name != name && (PortsOf(r.config).None? || HitsBlock(r, base))
    ensures NeverClear(fetch, name, base)
  {
    forall n: nat
      ensures !ClearListing(fetch, name, base, n)
    {
      if Complete(fetch, n) {
        PageIncluded(fetch, k, n);
      }
    }
  }

  lemma {:induction false} EndlessIsNeverClear(fetch: Fetcher<PortRecord>, name: string, base: nat)
    requires Endless(fetch)
    ensures NeverClear(fetch, name, base)
  {
  }

  lemma {:induction false} CollisionFreeConcat(a: seq<PortRecord>, b: seq<PortRecord>, name: string, base: nat)
    ensures CollisionFree(a + b, name, base) <==> CollisionFree(a, name, base) && CollisionFree(b, name, base)
  {
    hide HitsBlock, PortsOf;
    assert forall r :: r in a + b <==> r in a || r in b;
  }

  /** Looks through one page for another sandbox that is unreadable or has a port in the block. */
  method PageOffender(recs: seq<PortRecord>, name: string, base: nat) returns (r: Option<PortRecord>, unreadable: bool)
    ensures r.None? ==> CollisionFree(recs, name, base)
    ensures r.Some? ==> r.value in recs && r.value.name != name
    ensures r.Some? ==> unreadable == PortsOf(r.value.config).None?
    ensures r.Some? && !unreadable ==> HitsBlock(r.value, base)
  {
    var lo, hi := base, base + BLOCK_SIZE - 1;
    unreadable := false;
    for k := 0 to |recs|
      invariant CollisionFree(recs[..k], name, base)
    {
      var rec := recs[k];
      assert recs[..k + 1] == recs[..k] + [rec];
      if rec.name != name {
        var ports := PortsOf(rec.config);
        if ports.None? {
          return Some(rec), true;
        }
        for m := 0 to |ports.value|
          invariant forall j | 0 <= j < m :: !InBlock(ports.value[j], base)
        {
          if lo <= ports.value[m] <= hi {
            assert ports.value[m] in ports.value && InBlock(ports.value[m], base);
            return Some(rec), false;
          }
        }
        assert !Touches(ports.value, base);
      }
    }
    assert recs[..|recs|] == recs;
    r := None;
  }

  lemma {:induction false} NoneCollide(name: string, base: nat)
    ensures CollisionFree([], name, base)
  {
  }

  lemma {:induction false} ClearHere(fetch: Fetcher<PortRecord>, name: string, base: nat, n: nat)
    requires Complete(fetch, n) && Arrives(fetch, n) && CollisionFree(Records(fetch, n), name, base)
    ensures ClearListing(fetch, name, base, n)
  {
  }

  method CheckCollisionFrom(name: string, base: Uint16, fetch: Fetcher<PortRecord>)
    returns (r: Result<(), ListError>, fetches: nat)
    ensures fetches <= 1000
    ensures r.Ok? ==> ClearListing(fetch, name, base, fetches)
    ensures r.Err? ==> NeverClear(fetch, name, base)
  {
    hide CollisionFree, NeverClear, Continues, Complete, Endless, Records, IsCursor, ClearListing, Arrives;
    var cursor: Option<string> := None;
    fetches := 0;
    NoneCollide(name, base);
    NoPageYet(fetch, _ => false);
    while true
      invariant fetches <= MAX_PAGES
      invariant Continues(fetch, fetches) && Arrives(fetch, fetches) && IsCursor(fetch, fetches, cursor)
      invariant CollisionFree(Records(fetch, fetches), name, base)
      decreases MAX_PAGES - fetches
    {
      var answer := FetchPage(fetch, _ => false, fetches);
      if answer.Err? {
        EndlessIsNeverClear(fetch, name, base);
        return Err(answer.error), Tried(fetches, answer.error);
      }
      var offender, unreadable := PageOffender(answer.value.records, name, base);
      if offender.Some? {
        OffenderIsNeverClear(fetch, name, base, fetches, offender.value);
        return Err(if unreadable then BadRecord else Collision), fetches + 1;
      }
      CollisionFreeConcat(Records(fetch, fetches), answer.value.records, name, base);
      ArrivesStep(fetch, fetches);
      RecordsStep(fetch, fetches);
      var next := answer.value.next;
      if next.None? {
        CompletesHere(fetch, fetches);
        ClearHere(fetch, name, base, fetches + 1);
        return Ok(()), fetches + 1;
      }
      CursorIs(fetch, fetches, cursor);
      if cursor.Some? && next == cursor {
        NeverComplete(fetch, fetches);
        EndlessIsNeverClear(fetch, name, base);
        return Err(RepeatedCursor), fetches + 1;
      }
      ContinuesStep(fetch, fetches);
      NextCursor(fetch, fetches);
      cursor := next;
      fetches := fetches + 1;
    }
  }

  // ---- The port map of a block ---------------------------------------------------------

  const UINT16_SPAN: nat := 0x1_0000

  function HostPort(base: Uint16, i: nat): Uint16 {
    (base + i) % UINT16_SPAN
  }

  /** m maps the BLOCK_SIZE host ports from base on, wrapping at 2^16, to consecutive guest ports. */
  ghost predicate IsBlockMap(m: map<Uint16, Uint16>, base: Uint16, size: nat) {
    && (forall i: nat | i < size :: HostPort(base, i) in m && m[HostPort(base, i)] == GUEST_BASE + i)
    && (forall h | h in m :: exists i: nat :: i < size && h == HostPort(base, i))
  }

  lemma {:induction false} HostPortsDiffer(base: Uint16, i: nat)
    requires i < BLOCK_SIZE
    ensures forall j: nat | j < i :: HostPort(base, j) != HostPort(base, i)
  {
  }

  lemma {:induction false} BlockMapGrows(m: map<Uint16, Uint16>, base: Uint16, i: nat)
    requires IsBlockMap(m, base, i) && i < BLOCK_SIZE
    ensures IsBlockMap(m[HostPort(base, i) := GUEST_BASE + i], base, i + 1)
  {
    HostPortsDiffer(base, i);
    hide HostPort;
    var m' := m[HostPort(base, i) := GUEST_BASE + i];
    forall h | h in m'
      ensures exists j: nat :: j < i + 1 && h == HostPort(base, j)
    {
      if h in m {
        var j: nat :| j < i && h == HostPort(base, j);
        assert j < i + 1;
      } else {
        assert h == HostPort(base, i);
      }
    }
  }

  method BlockPortMap(hostBase: Uint16) returns (m: map<Uint16, Uint16>)
    ensures IsBlockMap(m, hostBase, BLOCK_SIZE)
    ensures forall h: Uint16 :: h in m <==> (h - hostBase) % 0x1_0000 < 10_000
    ensures forall h: Uint16 | h in m :: m[h] == 1_024 + (h - hostBase) % 0x1_0000
  {
    m := map[];
    var i := 0;
    while i < BLOCK_SIZE
      invariant i <= BLOCK_SIZE
      invariant IsBlockMap(m, hostBase, i)
    {
      BlockMapGrows(m, hostBase, i);
      m := m[(hostBase + i) % UINT16_SPAN := GUEST_BASE + i];
      i := i + 1;
    }
    MapReads(m, hostBase);
  }

  lemma {:induction false} MapReads(m: map<Uint16, Uint16>, base: Uint16)
    requires IsBlockMap(m, base, BLOCK_SIZE)
    ensures forall h: Uint16 :: h in m <==> (h - base) % 0x1_0000 < 10_000
    ensures forall h: Uint16 | h in m :: m[h] == 1_024 + (h - base) % 0x1_0000
  {
    forall h: Uint16
      ensures h in m <==> (h - base) % 0x1_0000 < 10_000
      ensures h in m ==> m[h] == 1_024 + (h - base) % 0x1_0000
    {
      var k: nat := (h - base) % 0x1_0000;
      OffsetOf(base, h, k);
      if k < 10_000 {
        assert HostPort(base, k) in m && m[HostPort(base, k)] == GUEST_BASE + k;
      } else if h in m {
        var i: nat :| i < BLOCK_SIZE && h == HostPort(base, i);
        OffsetOf(base, h, i);
      }
    }
  }

  lemma {:induction false} OffsetOf(base: Uint16, h: Uint16, i: nat)
    requires i < UINT16_SPAN
    ensures h == HostPort(base, i) <==> i == (h - base) % 0x1_0000
  {
  }

  predicate IsGuestPort(g: int) {
    1024 <= g <= 11023
  }

  /** For any base at all, a block's map is a bijection between its host ports and the guest ports 1024..11023. */
  lemma {:induction false} BlockMapBijection(m: map<Uint16, Uint16>, base: Uint16)
    requires IsBlockMap(m, base, BLOCK_SIZE)
    ensures forall h | h in m :: IsGuestPort(m[h])
    ensures forall g: Uint16 | IsGuestPort(g) :: g in m.Values
    ensures forall h, h' | h in m && h' in m && m[h] == m[h'] :: h == h'
  {
    forall g: Uint16 | IsGuestPort(g)
      ensures g in m.Values
    {
      var h := HostPort(base, g - GUEST_BASE);
      assert h in m && m[h] == g;
    }
  }

  ghost predicate NoWrap(base: Uint16) {
    forall k: nat | k < BLOCK_SIZE :: HostPort(base, k) == base + k
  }

  lemma {:induction false} NoWrapExactly(base: Uint16)
    ensures NoWrap(base) <==> base <= 55536
  {
    if base > 55536 {
      assert HostPort(base, BLOCK_SIZE - 1) != base + (BLOCK_SIZE - 1);
    }
  }

  /** The host ports of a base the allocator can return are the block itself, without wrapping around 2^16. */
  lemma {:induction false} BlockMapHosts(m: map<Uint16, Uint16>, i: nat)
    requires i < MAX_BLOCKS && IsBlockMap(m, BaseOf(i), BLOCK_SIZE)
    ensures NoWrap(BaseOf(i))
    ensures forall h: Uint16 :: h in m <==> InBlock(h, BaseOf(i))
  {
    var base := BaseOf(i);
    assert base <= 55000;
    hide BaseOf;
    forall j: nat | j < BLOCK_SIZE
      ensures HostPort(base, j) == base + j
    {
      NoWrapAt(base, j);
    }
    hide HostPort;
    forall h: Uint16
      ensures h in m <==> InBlock(h, base)
    {
      if InBlock(h, base) {
        assert h == HostPort(base, h - base);
      }
    }
  }

  lemma {:induction false} NoWrapAt(base: Uint16, j: nat)
    requires base + j < UINT16_SPAN
    ensures HostPort(base, j) == base + j
  {
  }

  /** Two blocks publish disjoint host ports. */
  lemma {:induction false} BlockMapsDisjoint(m: map<Uint16, Uint16>, i: nat, m': map<Uint16, Uint16>, j: nat)
    requires i < MAX_BLOCKS && j < MAX_BLOCKS && i != j
    requires IsBlockMap(m, BaseOf(i), BLOCK_SIZE) && IsBlockMap(m', BaseOf(j), BLOCK_SIZE)
    ensures m.Keys !! m'.Keys
  {
    BlockMapHosts(m, i);
    BlockMapHosts(m', j);
  }
}
