/** Mutual exclusion of port blocks with no lock: any number of processes allocate a block, create a sandbox, scan the
    listing page by page and keep the sandbox only if the scan shows no other one in the block. */
module BlockExclusion {
  import opened Wrappers
  import R = RangeAlloc

  /** birth numbers records in order of creation; it is not visible to the program, names are. */
  datatype Sandbox = Sandbox(record: R.PortRecord, base: Option<nat>)

  datatype Proc =
    | Allocated(name: string, base: nat)
    | Created(name: string, base: nat, birth: nat)
    /** todo: the records that existed when the scan began and have not been shown yet. */
    | Scanning(name: string, base: nat, birth: nat, todo: set<nat>)
    | TearingDown(birth: nat)

  datatype State = State(existing: map<nat, Sandbox>, procs: map<nat, Proc>, succeeded: set<nat>, births: nat)

  const INITIAL := State(map[], map[], {}, 0)

  datatype Step =
    | Allocate(pid: nat, name: string, block: nat)
    | Create(pid: nat, record: R.PortRecord)
    | CreateForeign(record: R.PortRecord)
    | BeginScan(pid: nat)
    | SeePage(pid: nat, page: seq<nat>)
    | FinishScan(pid: nat)
    | Teardown(pid: nat)
    | Remove(birth: nat)
    | Crash(pid: nat)

  /** The daemon refuses a name that is in use. */
  ghost predicate NameFree(s: State, name: string) {
    forall b | b in s.existing :: s.existing[b].record.name != name
  }

  ghost function PageRecords(s: State, page: seq<nat>): (recs: seq<R.PortRecord>)
    requires forall b | b in page :: b in s.existing
    ensures |recs| == |page|
    ensures forall i | 0 <= i < |page| :: recs[i] == s.existing[page[i]].record
  {
    if page == [] then []
    else
      assert page[|page| - 1] in page;
      PageRecords(s, page[..|page| - 1]) + [s.existing[page[|page| - 1]].record]
  }

  ghost predicate StepRel(s: State, step: Step, s': State) {
    match step
    case Allocate(pid, name, block) =>
      && pid !in s.procs && block < R.MAX_BLOCKS
      && s' == s.(procs := s.procs[pid := Allocated(name, R.BaseOf(block))])
    case Create(pid, record) =>
      && pid in s.procs && s.procs[pid].Allocated?
      && record.name == s.procs[pid].name && NameFree(s, record.name)
      && s' == s.(existing := s.existing[s.births := Sandbox(record, Some(s.procs[pid].base))],
                  procs := s.procs[pid := Created(record.name, s.procs[pid].base, s.births)],
                  births := s.births + 1)
    case CreateForeign(record) =>
      && NameFree(s, record.name)
      && s' == s.(existing := s.existing[s.births := Sandbox(record, None)], births := s.births + 1)
    case BeginScan(pid) =>
      && pid in s.procs && s.procs[pid].Created?
      && var p := s.procs[pid];
      s' == s.(procs := s.procs[pid := Scanning(p.name, p.base, p.birth, s.existing.Keys)])
    case SeePage(pid, page) =>
      && pid in s.procs && s.procs[pid].Scanning?
      && (forall b | b in page :: b in s.existing)
      && var p := s.procs[pid];
      s' == s.(procs := s.procs[pid :=
        if R.CollisionFree(PageRecords(s, page), p.name, p.base)
        then p.(todo := p.todo - (set b | b in page))
        else TearingDown(p.birth)])
    case FinishScan(pid) =>
      && pid in s.procs && s.procs[pid].Scanning?
      && s.procs[pid].todo !! s.existing.Keys
      && s' == s.(procs := s.procs - {pid}, succeeded := s.succeeded + {s.procs[pid].birth})
    case Teardown(pid) =>
      && pid in s.procs && s.procs[pid].TearingDown?
      && s' == s.(procs := s.procs - {pid}, existing := s.existing - {s.procs[pid].birth})
    case Remove(birth) => s' == s.(existing := s.existing - {birth})
    case Crash(pid) => s' == s.(procs := s.procs - {pid})
  }

  ghost predicate Run(run: seq<State>, steps: seq<Step>) {
    && |run| == |steps| + 1
    && run[0] == INITIAL
    && forall i | 0 <= i < |steps| :: StepRel(run[i], steps[i], run[i + 1])
  }

  // ---- The invariant -----------------------------------------------------------

  /** A record older than birth that shows a port in the block. */
  ghost predicate OlderHit(s: State, a: nat, birth: nat, base: nat) {
    a in s.existing && a < birth && R.HitsBlock(s.existing[a].record, base)
  }

  ghost predicate NamesUnique(s: State) {
    forall a, b | a in s.existing && b in s.existing && a != b :: s.existing[a].record.name != s.existing[b].record.name
  }

  ghost predicate BirthsBounded(s: State) {
    && (forall b | b in s.existing :: b < s.births)
    && (forall b | b in s.succeeded :: b < s.births)
    && (forall pid | pid in s.procs && !s.procs[pid].Allocated? :: s.procs[pid].birth < s.births)
  }

  /** While its sandbox exists, a scanning process still has every older offender ahead of it. */
  ghost predicate ScanOk(s: State, p: Proc) {
    p.Scanning? && p.birth in s.existing ==>
      && s.existing[p.birth].record.name == p.name
      && s.existing[p.birth].base == Some(p.base)
      && forall a | OlderHit(s, a, p.birth, p.base) :: a in p.todo
  }

  ghost predicate CreatedOk(s: State, p: Proc) {
    p.Created? && p.birth in s.existing ==>
      s.existing[p.birth].record.name == p.name && s.existing[p.birth].base == Some(p.base)
  }

  /** No older record shows a port in the block of a sandbox that was kept. */
  ghost predicate KeptOk(s: State, b: nat) {
    b in s.succeeded && b in s.existing ==>
      s.existing[b].base.Some? && forall a :: !OlderHit(s, a, b, s.existing[b].base.value)
  }

  ghost predicate Inv(s: State) {
    && NamesUnique(s)
    && BirthsBounded(s)
    && (forall pid | pid in s.procs :: ScanOk(s, s.procs[pid]) && CreatedOk(s, s.procs[pid]))
    && (forall b :: KeptOk(s, b))
  }

  // ---- Every step keeps it ---------------------------------------------------------

  /** Adding a younger record harms nobody. */
  lemma {:induction false} BirthKeeps(s: State, sandbox: Sandbox, s': State)
    requires Inv(s) && NameFree(s, sandbox.record.name)
    requires s'.existing == s.existing[s.births := sandbox] && s'.births == s.births + 1
    requires s'.succeeded == s.succeeded
    ensures NamesUnique(s')
    ensures forall b :: KeptOk(s', b)
    ensures forall p: Proc | !p.Allocated? && p.birth < s.births ::
      (ScanOk(s, p) ==> ScanOk(s', p)) && (CreatedOk(s, p) ==> CreatedOk(s', p))
  {
    forall b
      ensures KeptOk(s', b)
    {
      assert KeptOk(s, b);
      if b in s.succeeded && b in s.existing {
        forall a
          ensures !OlderHit(s', a, b, s'.existing[b].base.value)
        {
          assert !OlderHit(s, a, b, s.existing[b].base.value);
        }
      }
    }
    forall p: Proc | !p.Allocated? && p.birth < s.births
      ensures (ScanOk(s, p) ==> ScanOk(s', p)) && (CreatedOk(s, p) ==> CreatedOk(s', p))
    {
      if p.Scanning? && p.birth in s.existing && ScanOk(s, p) {
        forall a | OlderHit(s', a, p.birth, p.base)
          ensures a in p.todo
        {
          assert OlderHit(s, a, p.birth, p.base);
        }
      }
    }
  }

  /** So does removing a record. */
  lemma {:induction false} RemovalKeeps(s: State, gone: nat, s': State)
    requires Inv(s) && s'.existing == s.existing - {gone}
    requires s'.births == s.births && s'.succeeded == s.succeeded
    requires s'.procs.Keys <= s.procs.Keys && forall pid | pid in s'.procs :: s'.procs[pid] == s.procs[pid]
    ensures Inv(s')
  {
    forall b
      ensures KeptOk(s', b)
    {
      assert KeptOk(s, b);
      if b in s'.succeeded && b in s'.existing {
        forall a
          ensures !OlderHit(s', a, b, s'.existing[b].base.value)
        {
          assert !OlderHit(s, a, b, s.existing[b].base.value);
        }
      }
    }
    forall pid | pid in s'.procs
      ensures ScanOk(s', s'.procs[pid]) && CreatedOk(s', s'.procs[pid])
    {
      var p := s.procs[pid];
      assert ScanOk(s, p) && CreatedOk(s, p);
      if p.Scanning? && p.birth in s'.existing {
        forall a | OlderHit(s', a, p.birth, p.base)
          ensures a in p.todo
        {
          assert OlderHit(s, a, p.birth, p.base);
        }
      }
    }
  }

  lemma {:induction false} PageShows(s: State, page: seq<nat>, b: nat)
    requires (forall x | x in page :: x in s.existing) && b in page
    ensures s.existing[b].record in PageRecords(s, page)
  {
    var i :| 0 <= i < |page| && page[i] == b;
    assert PageRecords(s, page)[i] == s.existing[b].record;
  }

  /** A page that raises no alarm shows no older offender. */
  lemma {:induction false} QuietPage(s: State, p: Proc, page: seq<nat>)
    requires NamesUnique(s) && p.Scanning? && ScanOk(s, p)
    requires forall b | b in page :: b in s.existing
    requires R.CollisionFree(PageRecords(s, page), p.name, p.base)
    ensures ScanOk(s, p.(todo := p.todo - (set b | b in page)))
  {
    if p.birth in s.existing {
      forall b | b in page
        ensures !OlderHit(s, b, p.birth, p.base)
      {
        PageShows(s, page, b);
      }
    }
  }

  /** A scan that has shown every record present throughout leaves no older offender. */
  lemma {:induction false} FinishedScan(s: State, p: Proc)
    requires p.Scanning? && ScanOk(s, p) && p.todo !! s.existing.Keys
    ensures p.birth in s.existing ==>
      s.existing[p.birth].base.Some? && forall a :: !OlderHit(s, a, p.birth, s.existing[p.birth].base.value)
  {
  }

  /** A step that touches no record and moves one process, or ends it. */
  lemma {:induction false} MoveKeepsInv(s: State, s': State, pid: nat)
    requires Inv(s) && s'.existing == s.existing && s'.births == s.births && s'.succeeded == s.succeeded
    requires s'.procs.Keys <= s.procs.Keys + {pid}
    requires forall q | q in s'.procs && q != pid :: s'.procs[q] == s.procs[q]
    requires pid in s'.procs ==>
      var p := s'.procs[pid]; ScanOk(s, p) && CreatedOk(s, p) && (p.Allocated? || p.birth < s.births)
    ensures Inv(s')
  {
    SameRecords(s, s', pid);
    hide ScanOk, CreatedOk, KeptOk, NamesUnique, OlderHit;
  }

  lemma {:induction false} CreateKeepsInv(s: State, pid: nat, record: R.PortRecord, s': State)
    requires Inv(s) && StepRel(s, Create(pid, record), s')
    ensures Inv(s')
  {
    BirthKeeps(s, Sandbox(record, Some(s.procs[pid].base)), s');
    hide NamesUnique, KeptOk, OlderHit, R.HitsBlock;
  }

  lemma {:induction false} ForeignKeepsInv(s: State, record: R.PortRecord, s': State)
    requires Inv(s) && StepRel(s, CreateForeign(record), s')
    ensures Inv(s')
  {
    BirthKeeps(s, Sandbox(record, None), s');
    hide NamesUnique, KeptOk, OlderHit, R.HitsBlock;
  }

  lemma {:induction false} BeginKeepsInv(s: State, pid: nat, s': State)
    requires Inv(s) && StepRel(s, BeginScan(pid), s')
    ensures Inv(s')
  {
    hide NamesUnique, KeptOk, R.HitsBlock;
    MoveKeepsInv(s, s', pid);
  }

  lemma {:induction false} SeeKeepsInv(s: State, pid: nat, page: seq<nat>, s': State)
    requires Inv(s) && StepRel(s, SeePage(pid, page), s')
    ensures Inv(s')
  {
    var p := s.procs[pid];
    if R.CollisionFree(PageRecords(s, page), p.name, p.base) {
      QuietPage(s, p, page);
    }
    hide NamesUnique, KeptOk, OlderHit, R.HitsBlock, R.CollisionFree, PageRecords;
    MoveKeepsInv(s, s', pid);
  }

  lemma {:induction false} FinishKeepsInv(s: State, pid: nat, s': State)
    requires Inv(s) && StepRel(s, FinishScan(pid), s')
    ensures Inv(s')
  {
    FinishedScan(s, s.procs[pid]);
    SameRecords(s, s', pid);
    hide NamesUnique, ScanOk, CreatedOk, R.HitsBlock;
  }

  lemma {:induction false} StepKeepsInv(s: State, step: Step, s': State)
    requires Inv(s) && StepRel(s, step, s')
    ensures Inv(s')
  {
    match step
    case Allocate(pid, name, block) => AllocateKeepsInv(s, step, s');
    case Create(pid, record) => CreateKeepsInv(s, pid, record, s');
    case CreateForeign(record) => ForeignKeepsInv(s, record, s');
    case BeginScan(pid) => BeginKeepsInv(s, pid, s');
    case SeePage(pid, page) => SeeKeepsInv(s, pid, page, s');
    case FinishScan(pid) => FinishKeepsInv(s, pid, s');
    case Teardown(pid) => EndKeepsInv(s, step, s');
    case Remove(birth) => EndKeepsInv(s, step, s');
    case Crash(pid) => EndKeepsInv(s, step, s');
  }

  lemma {:induction false} AllocateKeepsInv(s: State, step: Step, s': State)
    requires Inv(s) && step.Allocate? && StepRel(s, step, s')
    ensures Inv(s')
  {
    hide NamesUnique, KeptOk, OlderHit;
    MoveKeepsInv(s, s', step.pid);
  }

  lemma {:induction false} EndKeepsInv(s: State, step: Step, s': State)
    requires Inv(s) && (step.Teardown? || step.Remove? || step.Crash?) && StepRel(s, step, s')
    ensures Inv(s')
  {
    hide Inv;
    match step
    case Teardown(pid) => RemovalKeeps(s, s.procs[pid].birth, s');
    case Remove(birth) => RemovalKeeps(s, birth, s');
    case Crash(pid) => MoveKeepsInv(s, s', pid);
  }

  /** Steps that touch no record and only one process. */
  lemma {:induction false} SameRecords(s: State, s': State, pid: nat)
    requires Inv(s) && s'.existing == s.existing && s'.births == s.births
    requires s'.procs.Keys <= s.procs.Keys + {pid}
    requires forall q | q in s'.procs && q != pid :: s'.procs[q] == s.procs[q]
    ensures NamesUnique(s')
    ensures forall q | q in s'.procs && q != pid :: ScanOk(s', s'.procs[q]) && CreatedOk(s', s'.procs[q])
    ensures forall p: Proc :: (ScanOk(s, p) <==> ScanOk(s', p)) && (CreatedOk(s, p) <==> CreatedOk(s', p))
    ensures forall b | b in s'.succeeded <==> b in s.succeeded :: KeptOk(s', b)
  {
    forall p: Proc
      ensures ScanOk(s, p) <==> ScanOk(s', p)
    {
      assert forall a: nat, b: nat, base: nat :: OlderHit(s, a, b, base) <==> OlderHit(s', a, b, base);
    }
    forall b | b in s'.succeeded <==> b in s.succeeded
      ensures KeptOk(s', b)
    {
      assert KeptOk(s, b);
      assert forall a: nat, base: nat :: OlderHit(s, a, b, base) <==> OlderHit(s', a, b, base);
    }
  }

  lemma {:induction false} ReachableInv(run: seq<State>, steps: seq<Step>, i: nat)
    requires Run(run, steps) && i <= |steps|
    ensures Inv(run[i])
  {
    if i > 0 {
      ReachableInv(run, steps, i - 1);
      assert StepRel(run[i - 1], steps[i - 1], run[i - 1 + 1]);
      hide Inv, StepRel;
      StepKeepsInv(run[i - 1], steps[i - 1], run[i]);
    }
  }

  /** A sandbox whose create returned success and that still exists. */
  ghost predicate Kept(s: State, b: nat) {
    b in s.succeeded && b in s.existing
  }

  /** In every reachable state, however many processes interleave, fail and die, a kept sandbox has its block to
      itself among all older records that show a port in it, whoever created them. */
  lemma {:induction false} BlockIsOwned(run: seq<State>, steps: seq<Step>, i: nat, a: nat, b: nat)
    requires Run(run, steps) && i <= |steps|
    requires Kept(run[i], b) && a in run[i].existing && a < b
    ensures run[i].existing[b].base.Some?
    ensures !R.HitsBlock(run[i].existing[a].record, run[i].existing[b].base.value)
  {
    ReachableInv(run, steps, i);
    assert KeptOk(run[i], b);
    assert !OlderHit(run[i], a, b, run[i].existing[b].base.value);
  }

  /** The daemon lists at least one of the sandbox's ports in its block. */
  ghost predicate ShowsAPort(s: Sandbox) {
    s.base.Some? ==> R.HitsBlock(s.record, s.base.value)
  }

  /** No two existing sandboxes for which create returned success share a block, unless the older of the two shows
      none of its ports there. */
  lemma {:induction false} MutualExclusion(run: seq<State>, steps: seq<Step>, i: nat, a: nat, b: nat)
    requires Run(run, steps) && i <= |steps|
    requires Kept(run[i], a) && Kept(run[i], b) && a != b
    requires ShowsAPort(run[i].existing[if a < b then a else b])
    ensures run[i].existing[a].base.Some? && run[i].existing[b].base.Some?
    ensures run[i].existing[a].base != run[i].existing[b].base
  {
    var lo, hi := if a < b then a else b, if a < b then b else a;
    ReachableInv(run, steps, i);
    assert KeptOk(run[i], lo);
    BlockIsOwned(run, steps, i, lo, hi);
  }
}
