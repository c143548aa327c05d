/** The collision scan of RangeAlloc as steps of BlockExclusion: what the paging loop reads, page by page, while other
    processes go on, decides which way its process moves. */
module BlockScan {
  import opened Wrappers
  import opened Paging
  import opened BlockExclusion
  import R = RangeAlloc

  /** Page j of the listing was read in the j-th of these states, and shows these records of it. */
  ghost predicate PagesOf(fetch: Fetcher<R.PortRecord>, states: seq<State>, pages: seq<seq<nat>>) {
    && |states| == |pages|
    && forall j: nat | j < |pages| ::
         && (forall b | b in pages[j] :: b in states[j].existing)
         && fetch(j).Ok? && fetch(j).value.records == PageRecords(states[j], pages[j])
  }

  /** The records of page j raise no alarm. */
  ghost predicate Quiet(states: seq<State>, pages: seq<seq<nat>>, name: string, base: nat, j: nat)
    requires |states| == |pages| && j < |pages|
  {
    && (forall b | b in pages[j] :: b in states[j].existing)
    && R.CollisionFree(PageRecords(states[j], pages[j]), name, base)
  }

  function Shown(pages: seq<seq<nat>>): set<nat> {
    set j, b | 0 <= j < |pages| && b in pages[j] :: b
  }

  /** The process is about to see page j. */
  ghost predicate AtPage(s: State, pid: nat, start: Proc, pages: seq<seq<nat>>, j: nat)
    requires start.Scanning? && j <= |pages|
  {
    pid in s.procs && s.procs[pid] == start.(todo := start.todo - Shown(pages[..j]))
  }

  ghost predicate PageClear(fetch: Fetcher<R.PortRecord>, name: string, base: nat, j: nat) {
    fetch(j).Ok? && R.CollisionFree(fetch(j).value.records, name, base)
  }

  lemma {:induction false} RecordsSplit(fetch: Fetcher<R.PortRecord>, name: string, base: nat, n: nat)
    requires n > 0 && Arrives(fetch, n)
    ensures R.CollisionFree(Records(fetch, n), name, base)
       <==> R.CollisionFree(Records(fetch, n - 1), name, base) && PageClear(fetch, name, base, n - 1)
  {
    hide R.CollisionFree;
    R.CollisionFreeConcat(Records(fetch, n - 1), fetch(n - 1).value.records, name, base);
  }

  lemma {:induction false} NoRecords(fetch: Fetcher<R.PortRecord>, name: string, base: nat)
    ensures Arrives(fetch, 0) && R.CollisionFree(Records(fetch, 0), name, base)
  {
  }

  lemma {:induction false} RecordsByPage(fetch: Fetcher<R.PortRecord>, name: string, base: nat, n: nat)
    requires Arrives(fetch, n)
    ensures R.CollisionFree(Records(fetch, n), name, base) <==> forall j: nat | j < n :: PageClear(fetch, name, base, j)
  {
    hide R.CollisionFree, Records, PageClear;
    if n == 0 {
      NoRecords(fetch, name, base);
    } else {
      RecordsByPage(fetch, name, base, n - 1);
      RecordsSplit(fetch, name, base, n);
    }
  }

  /** A complete listing made of these pages is clear exactly when no page raises an alarm. */
  lemma {:induction false} ClearByPages(fetch: Fetcher<R.PortRecord>, states: seq<State>, pages: seq<seq<nat>>,
                                        name: string, base: nat)
    requires PagesOf(fetch, states, pages) && Complete(fetch, |pages|)
    ensures R.ClearListing(fetch, name, base, |pages|)
       <==> forall j: nat | j < |pages| :: Quiet(states, pages, name, base, j)
  {
    hide R.CollisionFree, PageRecords, Complete, Records;
    CompleteArrives(fetch, |pages|);
    RecordsByPage(fetch, name, base, |pages|);
    assert forall j: nat | j < |pages| :: PageClear(fetch, name, base, j) <==> Quiet(states, pages, name, base, j);
  }

  lemma {:induction false} ShownNext(pages: seq<seq<nat>>, j: nat)
    requires j < |pages|
    ensures Shown(pages[..j + 1]) == Shown(pages[..j]) + (set b | b in pages[j])
  {
    var more := pages[..j + 1];
    assert more[j] == pages[j] && forall i | 0 <= i < j :: more[i] == pages[..j][i];
  }

  /** Where seeing page j takes the process: on to the next page if it is quiet, to the teardown if not. */
  lemma {:induction false} PageIsStep(states: seq<State>, pages: seq<seq<nat>>, j: nat, pid: nat, start: Proc)
    requires |states| == |pages| && j < |pages| && start.Scanning? && AtPage(states[j], pid, start, pages, j)
    requires forall b | b in pages[j] :: b in states[j].existing
    ensures var s := states[j];
      var p := if Quiet(states, pages, start.name, start.base, j) then start.(todo := start.todo - Shown(pages[..j + 1]))
               else TearingDown(start.birth);
      StepRel(s, SeePage(pid, pages[j]), s.(procs := s.procs[pid := p]))
  {
    ShownNext(pages, j);
    hide Shown, R.CollisionFree, PageRecords;
    assert start.todo - Shown(pages[..j]) - (set b | b in pages[j])
        == start.todo - (Shown(pages[..j]) + (set b | b in pages[j]));
  }

  /** A check that returns success is a scan of this system. If the listing it answers from is complete, made of
      records of successive states and clear, every page moves the process on; and once every page is seen it can
      finish, given that the listing showed each record that was there when the scan began and still is. */
  lemma {:induction false} ClearListingIsScan(fetch: Fetcher<R.PortRecord>, states: seq<State>, pages: seq<seq<nat>>,
                                              pid: nat, start: Proc, s: State)
    requires start.Scanning? && PagesOf(fetch, states, pages)
    requires R.ClearListing(fetch, start.name, start.base, |pages|)
    requires AtPage(s, pid, start, pages, |pages|)
    requires forall b | b in start.todo && b in s.existing :: b in Shown(pages)
    ensures forall j: nat | j < |pages| && AtPage(states[j], pid, start, pages, j) ::
      var p := start.(todo := start.todo - Shown(pages[..j + 1]));
      StepRel(states[j], SeePage(pid, pages[j]), states[j].(procs := states[j].procs[pid := p]))
    ensures StepRel(s, FinishScan(pid), s.(procs := s.procs - {pid}, succeeded := s.succeeded + {start.birth}))
  {
    ClearByPages(fetch, states, pages, start.name, start.base);
    assert pages[..|pages|] == pages;
    hide Shown, R.CollisionFree, PageRecords, Quiet;
    forall j: nat | j < |pages| && AtPage(states[j], pid, start, pages, j)
      ensures var p := start.(todo := start.todo - Shown(pages[..j + 1]));
        StepRel(states[j], SeePage(pid, pages[j]), states[j].(procs := states[j].procs[pid := p]))
    {
      PageIsStep(states, pages, j, pid, start);
    }
  }

  /** And a complete listing that is not clear has a page that sends the process to the teardown. */
  lemma {:induction false} UnclearListingTearsDown(fetch: Fetcher<R.PortRecord>, states: seq<State>,
                                                   pages: seq<seq<nat>>, start: Proc) returns (j: nat)
    requires start.Scanning? && PagesOf(fetch, states, pages) && Complete(fetch, |pages|)
    requires !R.ClearListing(fetch, start.name, start.base, |pages|)
    ensures j < |pages|
    ensures forall pid: nat | AtPage(states[j], pid, start, pages, j) ::
      StepRel(states[j], SeePage(pid, pages[j]),
              states[j].(procs := states[j].procs[pid := TearingDown(start.birth)]))
  {
    ClearByPages(fetch, states, pages, start.name, start.base);
    hide Shown, R.CollisionFree, PageRecords, Quiet;
    var i: nat :| i < |pages| && !Quiet(states, pages, start.name, start.base, i);
    j := i;
    forall pid: nat | AtPage(states[j], pid, start, pages, j)
      ensures StepRel(states[j], SeePage(pid, pages[j]),
                      states[j].(procs := states[j].procs[pid := TearingDown(start.birth)]))
    {
      PageIsStep(states, pages, j, pid, start);
    }
  }

  /** From there the teardown takes the new sandbox away, and no other. */
  lemma {:induction false} TornDownIsGone(s: State, pid: nat, birth: nat, s': State)
    requires pid in s.procs && s.procs[pid] == TearingDown(birth) && StepRel(s, Teardown(pid), s')
    ensures birth !in s'.existing && pid !in s'.procs && s'.succeeded == s.succeeded
    ensures forall b | b in s.existing && b != birth :: b in s'.existing && s'.existing[b] == s.existing[b]
  {
  }

  /** A process that runs alone can allocate any block, create a sandbox of any record with its name, scan a page
      that shows it, and keep it. */
  lemma {:induction false} LoneCreateIsKept(name: string, block: nat, record: R.PortRecord)
    returns (run: seq<State>, steps: seq<Step>)
    requires block < R.MAX_BLOCKS && record.name == name
    ensures Run(run, steps) && |run| == 6
    ensures steps == [Allocate(0, name, block), Create(0, record), BeginScan(0), SeePage(0, [0]), FinishScan(0)]
    ensures Kept(run[5], 0) && run[5].existing == map[0 := Sandbox(record, Some(5_000 + 10_000 * block))]
  {
    var base := R.BaseOf(block);
    var s0 := INITIAL;
    var s1 := s0.(procs := map[0 := Allocated(name, base)]);
    var s2 := State(map[0 := Sandbox(record, Some(base))], map[0 := Created(name, base, 0)], {}, 1);
    var s3 := s2.(procs := map[0 := Scanning(name, base, 0, {0})]);
    var s4 := s3.(procs := map[0 := Scanning(name, base, 0, {})]);
    var s5 := s4.(procs := map[], succeeded := {0});
    LoneAllocates(name, block, record);
    LoneScans(name, base, record);
    hide StepRel, R.BaseOf;
    run := [s0, s1, s2, s3, s4, s5];
    steps := [Allocate(0, name, block), Create(0, record), BeginScan(0), SeePage(0, [0]), FinishScan(0)];
    assert R.BaseOf(block) == 5_000 + 10_000 * block by {
      R.UsedByRecords([], block);
    }
  }

  lemma {:induction false} LoneAllocates(name: string, block: nat, record: R.PortRecord)
    requires block < R.MAX_BLOCKS && record.name == name
    ensures var base := R.BaseOf(block);
      var s1 := INITIAL.(procs := map[0 := Allocated(name, base)]);
      && StepRel(INITIAL, Allocate(0, name, block), s1)
      && StepRel(s1, Create(0, record),
                 State(map[0 := Sandbox(record, Some(base))], map[0 := Created(name, base, 0)], {}, 1))
  {
  }

  lemma {:induction false} LoneScans(name: string, base: nat, record: R.PortRecord)
    requires record.name == name
    ensures var s2 := State(map[0 := Sandbox(record, Some(base))], map[0 := Created(name, base, 0)], {}, 1);
      var s3 := s2.(procs := map[0 := Scanning(name, base, 0, {0})]);
      var s4 := s3.(procs := map[0 := Scanning(name, base, 0, {})]);
      && StepRel(s2, BeginScan(0), s3) && StepRel(s3, SeePage(0, [0]), s4)
      && StepRel(s4, FinishScan(0), s4.(procs := map[], succeeded := {0}))
  {
    var s2 := State(map[0 := Sandbox(record, Some(base))], map[0 := Created(name, base, 0)], {}, 1);
    var s3 := s2.(procs := map[0 := Scanning(name, base, 0, {0})]);
    assert s2.existing.Keys == {0};
    assert PageRecords(s3, [0])[0] == record;
    assert R.CollisionFree(PageRecords(s3, [0]), name, base);
    assert {0} - (set b | b in [0]) == {};
    var p, page := s3.procs[0], [0];
    assert p.todo - (set b | b in page) == {};
    assert p.(todo := p.todo - (set b | b in page)) == Scanning(name, base, 0, {});
    assert s2.procs[0 := Scanning(name, base, 0, {0})] == s3.procs;
    assert s3.procs[0 := Scanning(name, base, 0, {})] == map[0 := Scanning(name, base, 0, {})];
    assert map[0 := Scanning(name, base, 0, {})] - {0} == map[];
  }

  /** At any time others can create a sandbox under a free name, any sandbox can be removed, and any process can die, even
      one that was to tear its sandbox down. */
  lemma {:induction false} OthersMayAct(s: State, record: R.PortRecord, birth: nat, pid: nat)
    ensures (forall b | b in s.existing :: s.existing[b].record.name != record.name) ==>
      StepRel(s, CreateForeign(record),
              s.(existing := s.existing[s.births := Sandbox(record, None)], births := s.births + 1))
    ensures StepRel(s, Remove(birth), s.(existing := s.existing - {birth}))
    ensures StepRel(s, Crash(pid), s.(procs := s.procs - {pid}))
  {
  }
}
