/** RAM admission: internal/core/admission/admission.go over the committed-memory scan of
    internal/runtime/msb/admission.go. */
module Admission {
  import opened Wrappers
  import opened Paging

  type Uint32 = n: int | 0 <= n < 0x1_0000_0000

  const MAX_UINT32: nat := 0xFFFF_FFFF

  /** What can be read of a record's config: nothing, or the two places a size may stand. */
  datatype MemConfig = EmptyConfig | Malformed | Fields(resources: Option<Uint32>, top: Uint32)

  datatype MemRecord = MemRecord(name: string, config: MemConfig)

  function MemoryMiB(c: MemConfig): Option<Uint32> {
    match c
    case EmptyConfig => None
    case Malformed => None
    case Fields(resources, top) =>
      if resources.Some? && resources.value > 0 then Some(resources.value)
      else if top > 0 then Some(top)
      else None
  }

  ghost predicate Sized(recs: seq<MemRecord>) {
    forall r | r in recs :: MemoryMiB(r.config).Some?
  }

  /** The true total, as a mathematical integer. */
  ghost function TrueSum(recs: seq<MemRecord>): nat
    requires Sized(recs)
  {
    if recs == [] then 0
    else
      assert recs[|recs| - 1] in recs;
      TrueSum(recs[..|recs| - 1]) + MemoryMiB(recs[|recs| - 1].config).value
  }

  function Saturated(n: nat): Uint32 {
    if n > MAX_UINT32 then MAX_UINT32 else n
  }

  ghost predicate CommittedKnown(fetch: Fetcher<MemRecord>, cancelled: nat -> bool, n: nat) {
    && Complete(fetch, n) && Arrives(fetch, n)
    && Awake(cancelled, n)
    && Sized(Records(fetch, n))
  }

  /** A record tells its size by its resources section or, if that is missing or zero, at top level; a record that tells
      none, or is empty or cannot be decoded, makes the total unknown. */
  lemma {:induction false} CommittedByRecords(fetch: Fetcher<MemRecord>, cancelled: nat -> bool, n: nat)
    requires Arrives(fetch, n)
    ensures CommittedKnown(fetch, cancelled, n) <==>
      && Complete(fetch, n) && (forall i: nat | i < n :: !cancelled(i))
      && forall r | r in Records(fetch, n) ::
           r.config.Fields? && ((r.config.resources.Some? && r.config.resources.value > 0) || r.config.top > 0)
  {
    hide Complete;
  }

  /** The total, record by record. */
  lemma {:induction false} SumByRecords(recs: seq<MemRecord>, r: MemRecord)
    requires Sized(recs) && Sized(recs + [r])
    ensures TrueSum([]) == 0
    ensures r.config.Fields?
    ensures TrueSum(recs + [r]) == TrueSum(recs) +
      if r.config.resources.Some? && r.config.resources.value > 0 then r.config.resources.value else r.config.top
  {
    assert (recs + [r])[..|recs|] == recs && (recs + [r])[|recs|] == r && r in recs + [r];
  }

  ghost predicate Unknown(fetch: Fetcher<MemRecord>, cancelled: nat -> bool) {
    forall n: nat :: !CommittedKnown(fetch, cancelled, n)
  }

  lemma {:induction false} SumAppend(recs: seq<MemRecord>, r: MemRecord)
    requires Sized(recs) && MemoryMiB(r.config).Some?
    ensures Sized(recs + [r]) && TrueSum(recs + [r]) == TrueSum(recs) + MemoryMiB(r.config).value
  {
    assert (recs + [r])[..|recs|] == recs;
  }

  /** total is the saturated sum of recs, all of which have a size. */
  ghost predicate Totals(recs: seq<MemRecord>, total: Uint32) {
    Sized(recs) && total == Saturated(TrueSum(recs))
  }

  /** Adds the sizes of one page to a saturating total; stops at the first record without a size. */
  method AddPage(recs: seq<MemRecord>, total: Uint32, ghost before: seq<MemRecord>) returns (r: Option<Uint32>)
    requires Totals(before, total)
    ensures r.Some? ==> Totals(before + recs, r.value)
    ensures r.None? ==> exists bad :: bad in recs && MemoryMiB(bad.config).None?
  {
    var sum := total;
    assert before + recs[..0] == before;
    hide Sized;
    for k := 0 to |recs|
      invariant Sized(before + recs[..k])
      invariant sum == Saturated(TrueSum(before + recs[..k]))
    {
      var mib := MemoryMiB(recs[k].config);
      if mib.None? {
        return None;
      }
      SumAppend(before + recs[..k], recs[k]);
      assert before + recs[..k] + [recs[k]] == before + recs[..k + 1];
      if sum > MAX_UINT32 - mib.value {
        sum := MAX_UINT32;
      } else {
        sum := sum + mib.value;
      }
    }
    assert recs[..|recs|] == recs;
    r := Some(sum);
  }

  lemma {:induction false} CancelledIsUnknown(fetch: Fetcher<MemRecord>, cancelled: nat -> bool, k: nat)
    requires Continues(fetch, k) && cancelled(k)
    ensures Unknown(fetch, cancelled)
  {
    forall n: nat
      ensures !CommittedKnown(fetch, cancelled, n)
    {
      if Complete(fetch, n) {
        CompleteBeyond(fetch, k, n);
      }
    }
  }

  lemma {:induction false} UnsizedIsUnknown(fetch: Fetcher<MemRecord>, cancelled: nat -> bool, k: nat, r: MemRecord)
    requires Continues(fetch, k) && fetch(k).Ok?
    requires r in fetch(k).value.records && MemoryMiB(r.config).None?
    ensures Unknown(fetch, cancelled)
  {
    forall n: nat
      ensures !CommittedKnown(fetch, cancelled, n)
    {
      if Complete(fetch, n) {
        PageIncluded(fetch, k, n);
      }
    }
  }

  lemma {:induction false} EndlessIsUnknown(fetch: Fetcher<MemRecord>, cancelled: nat -> bool)
    requires Endless(fetch)
    ensures Unknown(fetch, cancelled)
  {
  }

  lemma {:induction false} TotalsOfNone()
    ensures Totals([], 0)
  {
  }

  lemma {:induction false} TotalsKnown(recs: seq<MemRecord>, total: Uint32)
    requires Totals(recs, total)
    ensures Sized(recs) && total == Saturated(TrueSum(recs))
  {
  }

  lemma {:induction false} NotFetchedIsUnknown(fetch: Fetcher<MemRecord>, cancelled: nat -> bool, k: nat)
    requires Continues(fetch, k) && (cancelled(k) || Endless(fetch))
    ensures Unknown(fetch, cancelled)
  {
    if cancelled(k) {
      CancelledIsUnknown(fetch, cancelled, k);
    } else {
      EndlessIsUnknown(fetch, cancelled);
    }
  }

  /** One turn of the loop: fetch page k, add its sizes, and look at its cursor. */
  method SumTurn(fetch: Fetcher<MemRecord>, cancelled: nat -> bool, k: nat, cursor: Option<string>, total: Uint32)
    returns (turn: Turn<Uint32>)
    requires k <= MAX_PAGES && Continues(fetch, k) && Arrives(fetch, k) && IsCursor(fetch, k, cursor)
    requires Awake(cancelled, k) && Totals(Records(fetch, k), total)
    ensures turn.Stop? ==> turn.fetches <= MAX_PAGES && Unknown(fetch, cancelled)
    ensures !turn.Stop? ==> k < MAX_PAGES && Awake(cancelled, k + 1) && Arrives(fetch, k + 1)
    ensures turn.Done? ==> CommittedKnown(fetch, cancelled, k + 1) && Totals(Records(fetch, k + 1), turn.answer)
    ensures turn.More? ==> Continues(fetch, k + 1) && IsCursor(fetch, k + 1, Some(turn.next))
    ensures turn.More? ==> Totals(Records(fetch, k + 1), turn.sofar)
  {
    hide Unknown, Totals, Continues, Complete, Endless;
    var answer := FetchPage(fetch, cancelled, k);
    if answer.Err? {
      NotFetchedIsUnknown(fetch, cancelled, k);
      return Stop(answer.error, Tried(k, answer.error));
    }
    var sum := AddPage(answer.value.records, total, Records(fetch, k));
    if sum.None? {
      ghost var bad :| bad in answer.value.records && MemoryMiB(bad.config).None?;
      UnsizedIsUnknown(fetch, cancelled, k, bad);
      return Stop(BadRecord, k + 1);
    }
    var next := answer.value.next;
    if next.None? {
      CompletesHere(fetch, k);
      TotalsKnown(Records(fetch, k + 1), sum.value);
      return Done(sum.value);
    }
    if cursor.Some? && next == cursor {
      NeverComplete(fetch, k);
      EndlessIsUnknown(fetch, cancelled);
      return Stop(RepeatedCursor, k + 1);
    }
    ContinuesStep(fetch, k);
    turn := More(sum.value, next.value);
  }

  method SumCommittedMiB(fetch: Fetcher<MemRecord>, cancelled: nat -> bool)
    returns (r: Result<Uint32, ListError>, fetches: nat)
    ensures fetches <= 1000
    ensures r.Ok? ==>
      CommittedKnown(fetch, cancelled, fetches) && r.value == Saturated(TrueSum(Records(fetch, fetches)))
    ensures r.Err? ==> Unknown(fetch, cancelled)
  {
    hide Awake, Unknown, Totals, Continues, Complete, IsCursor, CommittedKnown, Records, Arrives, TrueSum, Sized;
    var total: Uint32 := 0;
    var cursor: Option<string> := None;
    fetches := 0;
    TotalsOfNone();
    NoPageYet(fetch, cancelled);
    while true
      invariant fetches <= MAX_PAGES
      invariant Continues(fetch, fetches) && Arrives(fetch, fetches) && IsCursor(fetch, fetches, cursor)
      invariant Awake(cancelled, fetches)
      invariant Totals(Records(fetch, fetches), total)
      decreases MAX_PAGES - fetches
    {
      var turn := SumTurn(fetch, cancelled, fetches, cursor, total);
      match turn {
        case Stop(e, tried) =>
          return Err(e), tried;
        case Done(sum) =>
          TotalsKnown(Records(fetch, fetches + 1), sum);
          return Ok(sum), fetches + 1;
        case More(sum, next) =>
          total, cursor, fetches := sum, Some(next), fetches + 1;
      }
    }
  }

  // ---- The decision ----------------------------------------------------------

  datatype Refusal = BudgetInvalid | RequestInvalid | BudgetExceeded | CommittedUnknown

  function Decide(budget: Uint32, committed: Uint32, requested: Uint32): (r: Result<(), Refusal>)
    ensures r.Ok? <==> 0 < requested && committed + requested <= budget
    ensures r == Err(BudgetInvalid) <==> budget == 0
    ensures r == Err(RequestInvalid) <==> budget > 0 && requested == 0
  {
    if budget == 0 then Err(BudgetInvalid)
    else if requested == 0 then Err(RequestInvalid)
    else if committed + requested > budget then Err(BudgetExceeded)
    else Ok(())
  }

  /** Admission over a live listing. The budget is None when it cannot be determined. */
  method Admit(budget: Option<Uint32>, fetch: Fetcher<MemRecord>, cancelled: nat -> bool, requested: Uint32)
    returns (r: Result<(), Refusal>, n: nat)
    ensures r.Ok? ==>
      && budget.Some? && requested > 0
      && CommittedKnown(fetch, cancelled, n)
      && TrueSum(Records(fetch, n)) + requested <= budget.value
    ensures r.Err? ==>
      || budget.None? || requested == 0
      || Unknown(fetch, cancelled)
      || (CommittedKnown(fetch, cancelled, n) && TrueSum(Records(fetch, n)) + requested > budget.value)
  {
    n := 0;
    if budget.None? {
      return Err(BudgetInvalid), n;
    }
    var committed, fetches := SumCommittedMiB(fetch, cancelled);
    n := fetches;
    if committed.Err? {
      return Err(CommittedUnknown), n;
    }
    r := Decide(budget.value, committed.value, requested);
  }

  /** Saturation costs nothing: deciding on the saturated total is deciding on the true one. */
  lemma {:induction false} SaturationIsExact(budget: Uint32, recs: seq<MemRecord>, requested: Uint32)
    requires Sized(recs)
    ensures Decide(budget, Saturated(TrueSum(recs)), requested).Ok? <==> 0 < requested && TrueSum(recs) + requested <= budget
    ensures TrueSum(recs) > MAX_UINT32 ==> Decide(budget, Saturated(TrueSum(recs)), requested).Err?
  {
    if TrueSum(recs) > MAX_UINT32 && 0 < requested {
      assert Saturated(TrueSum(recs)) + requested > MAX_UINT32;
    }
  }
}
