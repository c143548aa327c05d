/** The daemon's paged sandbox listing. A fetcher is given by its answers: fetch(i) is what the i-th call returns, so
    it may depend on time and on the cursor in any way at all. */
module Paging {
  import opened Wrappers

  const MAX_PAGES: nat := 1000

  datatype Page<R> = Page(records: seq<R>, next: Option<string>)

  type Fetcher<!R> = nat -> Result<Page<R>, string>

  datatype ListError = Cancelled | TooManyPages | FetchFailed | RepeatedCursor | BadRecord | Collision | SchemaDrift

  /** The first k pages arrive, each names a next page, and no cursor is handed out twice in a row. */
  ghost predicate Continues<R>(fetch: Fetcher<R>, k: nat) {
    forall i: nat | i < k ::
      && fetch(i).Ok?
      && fetch(i).value.next.Some?
      && (i > 0 ==> fetch(i - 1).Ok? && fetch(i).value.next != fetch(i - 1).value.next)
  }

  /** The listing is complete after n pages: the n-th page has no cursor. */
  ghost predicate Complete<R>(fetch: Fetcher<R>, n: nat) {
    && 1 <= n <= MAX_PAGES
    && Continues(fetch, n - 1)
    && fetch(n - 1).Ok?
    && fetch(n - 1).value.next.None?
  }

  ghost predicate Arrives<R>(fetch: Fetcher<R>, n: nat) {
    forall i: nat | i < n :: fetch(i).Ok?
  }

  /** The records of the first n pages. */
  ghost function Records<R>(fetch: Fetcher<R>, n: nat): seq<R>
    requires Arrives(fetch, n)
  {
    if n == 0 then [] else Records(fetch, n - 1) + fetch(n - 1).value.records
  }

  lemma {:induction false} CompleteArrives<R>(fetch: Fetcher<R>, n: nat)
    requires Complete(fetch, n)
    ensures Arrives(fetch, n)
  {
  }

  /** A listing that goes on for k pages is not complete before. */
  lemma {:induction false} CompleteBeyond<R>(fetch: Fetcher<R>, k: nat, n: nat)
    requires Continues(fetch, k) && Complete(fetch, n)
    ensures n > k
  {
  }

  lemma {:induction false} CompleteOnce<R>(fetch: Fetcher<R>, n: nat, m: nat)
    requires Complete(fetch, n) && Complete(fetch, m)
    ensures n == m
  {
    CompleteBeyond(fetch, n - 1, m);
    CompleteBeyond(fetch, m - 1, n);
  }

  /** The page bound, a failed fetch or a cursor handed out twice in a row: the listing never completes. */
  lemma {:induction false} NeverComplete<R>(fetch: Fetcher<R>, k: nat)
    requires Continues(fetch, k)
    requires
      || k >= 1000
      || fetch(k).Err?
      || (k > 0 && fetch(k).value.next.Some? && fetch(k).value.next == fetch(k - 1).value.next)
    ensures Endless(fetch)
  {
    forall n: nat
      ensures !Complete(fetch, n)
    {
      if Complete(fetch, n) {
        CompleteBeyond(fetch, k, n);
      }
    }
  }

  /** No number of pages completes the listing. */
  ghost predicate Endless<R>(fetch: Fetcher<R>) {
    forall n: nat :: !Complete(fetch, n)
  }

  /** How a turn of a paging loop ends: with the answer, with a cursor to go on from, or with an error. */
  datatype Turn<+T> = Done(answer: T) | More(sofar: T, next: string) | Stop(error: ListError, fetches: nat)

  /** The cursor held before page k is fetched. */
  predicate IsCursor<R>(fetch: Fetcher<R>, k: nat, cursor: Option<string>) {
    cursor == if k == 0 then None else if fetch(k - 1).Ok? then fetch(k - 1).value.next else None
  }

  /** The context was live before each of the first k fetches. */
  ghost predicate Awake(cancelled: nat -> bool, k: nat) {
    forall i: nat | i < k :: !cancelled(i)
  }

  lemma {:induction false} NoPageYet<R>(fetch: Fetcher<R>, cancelled: nat -> bool)
    ensures IsCursor(fetch, 0, None) && Continues(fetch, 0) && Awake(cancelled, 0)
    ensures Arrives(fetch, 0) && Records(fetch, 0) == []
  {
  }

  /** How each turn of a paging loop starts: it gives up when its context is cancelled, at the page bound, or when the
      fetch fails. */
  method FetchPage<R>(fetch: Fetcher<R>, cancelled: nat -> bool, k: nat) returns (r: Result<Page<R>, ListError>)
    requires Continues(fetch, k) && k <= MAX_PAGES
    ensures r.Ok? ==> k < MAX_PAGES && !cancelled(k) && fetch(k) == Ok(r.value)
    ensures r.Err? ==> (cancelled(k) || Endless(fetch)) && (r.error.FetchFailed? ==> k < MAX_PAGES)
  {
    if cancelled(k) {
      return Err(Cancelled);
    }
    if k >= MAX_PAGES {
      NeverComplete(fetch, k);
      return Err(TooManyPages);
    }
    var answer := fetch(k);
    if answer.Err? {
      NeverComplete(fetch, k);
      return Err(FetchFailed);
    }
    r := Ok(answer.value);
  }

  /** The fetches made when the fetch of page k went wrong. */
  function Tried(k: nat, e: ListError): nat {
    if e.FetchFailed? then k + 1 else k
  }

  lemma {:induction false} ContinuesStep<R>(fetch: Fetcher<R>, k: nat)
    requires Continues(fetch, k) && fetch(k).Ok? && fetch(k).value.next.Some?
    requires k > 0 ==> fetch(k).value.next != fetch(k - 1).value.next
    ensures Continues(fetch, k + 1)
  {
  }

  lemma {:induction false} RecordsStep<R>(fetch: Fetcher<R>, k: nat)
    requires Arrives(fetch, k + 1)
    ensures Arrives(fetch, k) && Records(fetch, k + 1) == Records(fetch, k) + fetch(k).value.records
  {
  }

  lemma {:induction false} ArrivesStep<R>(fetch: Fetcher<R>, k: nat)
    requires Arrives(fetch, k) && fetch(k).Ok?
    ensures Arrives(fetch, k + 1)
  {
  }

  lemma {:induction false} CursorIs<R>(fetch: Fetcher<R>, k: nat, cursor: Option<string>)
    requires IsCursor(fetch, k, cursor) && Continues(fetch, k)
    ensures k == 0 ==> cursor.None?
    ensures k > 0 ==> fetch(k - 1).Ok? && cursor == fetch(k - 1).value.next
  {
  }

  lemma {:induction false} NextCursor<R>(fetch: Fetcher<R>, k: nat)
    requires fetch(k).Ok?
    ensures IsCursor(fetch, k + 1, fetch(k).value.next)
  {
  }

  lemma {:induction false} CompletesHere<R>(fetch: Fetcher<R>, k: nat)
    requires Continues(fetch, k) && k < MAX_PAGES && fetch(k).Ok? && fetch(k).value.next.None?
    ensures Complete(fetch, k + 1)
  {
  }

  lemma {:induction false} RecordsPrefix<R>(fetch: Fetcher<R>, k: nat, n: nat)
    requires k <= n && Arrives(fetch, n)
    ensures Arrives(fetch, k)
    ensures forall r | r in Records(fetch, k) :: r in Records(fetch, n)
  {
    if k < n {
      RecordsPrefix(fetch, k, n - 1);
    }
  }

  /** A page that a continuing listing reaches is part of the complete listing. */
  lemma {:induction false} PageIncluded<R>(fetch: Fetcher<R>, k: nat, n: nat)
    requires Continues(fetch, k) && fetch(k).Ok? && Complete(fetch, n)
    ensures k < n && Arrives(fetch, n)
    ensures forall r | r in fetch(k).value.records :: r in Records(fetch, n)
  {
    CompleteBeyond(fetch, k, n);
    CompleteArrives(fetch, n);
    RecordsPrefix(fetch, k + 1, n);
    forall r | r in fetch(k).value.records
      ensures r in Records(fetch, k + 1)
    {
    }
  }
}
