/** The order of effects in CreateAndBoot, internal/runtime/msb/runtime.go. */
module CreateBoot {
  import opened Wrappers
  import opened Paging
  import A = Admission
  import R = RangeAlloc

  type PortMap = map<R.Uint16, R.Uint16>

  /** The answers of the environment: the listings at the three points where one is read, and whether each call to
      the daemon succeeds. */
  datatype Answers = Answers(
    budget: Option<A.Uint32>,
    memory: Fetcher<A.MemRecord>, memoryCancelled: nat -> bool,
    occupancy: Fetcher<R.PortRecord>, occupancyCancelled: nat -> bool,
    creates: bool, detaches: bool, gets: bool, policyHolds: bool,
    collision: Fetcher<R.PortRecord>,
    tearsDown: bool)

  datatype Outcome = Booted | NoName | NotAdmitted | NoBlock | CreateFailed | DetachFailed | GetFailed | PolicyFailed | Collided

  /** The sandbox was created and this call could not take it down again. */
  predicate LeavesSandbox(o: Outcome, tearsDown: bool) {
    o.Booted? || o.DetachFailed? || o.GetFailed? || ((o.PolicyFailed? || o.Collided?) && !tearsDown)
  }

  /** Admission held on a complete listing read before anything else. */
  ghost predicate WasAdmitted(env: Answers, memory: A.Uint32) {
    exists n: nat ::
      && A.CommittedKnown(env.memory, env.memoryCancelled, n)
      && env.budget.Some? && 0 < memory
      && A.TrueSum(Records(env.memory, n)) + memory <= env.budget.value
  }

  /** The ports are those of the least block that the occupancy listing showed free. */
  ghost predicate InFreeBlock(env: Answers, ports: PortMap, i: nat) {
    && i < R.MAX_BLOCKS
    && R.IsBlockMap(ports, R.BaseOf(i), R.BLOCK_SIZE)
    && exists n: nat :: R.OccupancyKnown(env.occupancy, env.occupancyCancelled, n) && R.LeastFree(Records(env.occupancy, n), i)
  }

  ghost predicate ScannedClear(env: Answers, name: string, i: nat) {
    exists n: nat :: R.ClearListing(env.collision, name, R.BaseOf(i), n)
  }

  /** A complete, readable occupancy listing shows some block free. */
  ghost predicate Allocatable(env: Answers) {
    exists n: nat, i: nat :: R.OccupancyKnown(env.occupancy, env.occupancyCancelled, n)
                             && R.LeastFree(Records(env.occupancy, n), i)
  }

  /** What the steps after a create come to. */
  ghost function AfterCreate(env: Answers, name: string, ranged: bool, i: nat): Outcome {
    if !env.detaches then DetachFailed
    else if !env.gets then GetFailed
    else if !env.policyHolds then PolicyFailed
    else if ranged && !ScannedClear(env, name, i) then Collided
    else Booted
  }

  ghost function AfterAdmission(env: Answers, name: string, ranged: bool, i: nat): Outcome {
    if ranged && !Allocatable(env) then NoBlock
    else if !env.creates then CreateFailed
    else AfterCreate(env, name, ranged, i)
  }

  /** What a create comes to, told by the answers alone; block i is the one the occupancy listing shows free. */
  ghost function OutcomeOf(env: Answers, name: string, memory: A.Uint32, ranged: bool, i: nat): (o: Outcome)
    ensures o.Booted? <==>
      && name != "" && WasAdmitted(env, memory) && (ranged ==> Allocatable(env) && ScannedClear(env, name, i))
      && env.creates && env.detaches && env.gets && env.policyHolds
    ensures o.NoName? <==> name == ""
    ensures o.NotAdmitted? <==> name != "" && !WasAdmitted(env, memory)
    ensures o.NoBlock? <==> name != "" && WasAdmitted(env, memory) && ranged && !Allocatable(env)
    ensures var ready := name != "" && WasAdmitted(env, memory) && (ranged ==> Allocatable(env));
      && (o.CreateFailed? <==> ready && !env.creates)
      && (o.DetachFailed? <==> ready && env.creates && !env.detaches)
      && (o.GetFailed? <==> ready && env.creates && env.detaches && !env.gets)
      && (o.PolicyFailed? <==> ready && env.creates && env.detaches && env.gets && !env.policyHolds)
  {
    if name == "" then NoName
    else if !WasAdmitted(env, memory) then NotAdmitted
    else AfterAdmission(env, name, ranged, i)
  }

  /** Admission, the first step. */
  method AdmitFirst(env: Answers, memory: A.Uint32) returns (ok: bool)
    ensures ok <==> WasAdmitted(env, memory)
  {
    var admitted, n := A.Admit(env.budget, env.memory, env.memoryCancelled, memory);
    if admitted.Err? {
      RefusedIsNotAdmitted(env, memory, n);
      return false;
    }
    BootedIsAdmitted(env, memory, n);
    ok := true;
  }

  /** Allocation, the second. */
  method AllocateBlock(env: Answers) returns (ok: bool, base: R.Uint16, ports: PortMap)
    ensures ok <==> Allocatable(env)
    ensures ok ==> exists i: nat :: InFreeBlock(env, ports, i) && base == R.BaseOf(i)
  {
    ports, base := map[], 0;
    var granted, m := R.Allocate(env.occupancy, env.occupancyCancelled);
    if granted.Err? {
      NoneIsFree(env, m);
      return false, base, ports;
    }
    base := granted.value;
    ports := R.BlockPortMap(base);
    ghost var i: nat :| R.LeastFree(Records(env.occupancy, m), i) && base == R.BaseOf(i);
    assert InFreeBlock(env, ports, i);
    ok := true;
  }

  class Daemon {
    /** The existing sandboxes and the port map each was created with. */
    var sandboxes: map<string, PortMap>

    /** With ranged, the runtime has a block allocator; without it the caller's own ports are published. */
    method CreateAndBoot(name: string, memory: A.Uint32, ranged: bool, own: PortMap, env: Answers)
      returns (o: Outcome, ghost ports: PortMap, ghost block: nat)
      requires name in sandboxes ==> !env.creates
      modifies this
      ensures sandboxes == if LeavesSandbox(o, env.tearsDown) then old(sandboxes)[name := ports] else old(sandboxes)
      ensures LeavesSandbox(o, env.tearsDown) ==> name !in old(sandboxes) && WasAdmitted(env, memory)
      ensures LeavesSandbox(o, env.tearsDown) ==> if ranged then InFreeBlock(env, ports, block) else ports == own
      ensures o == OutcomeOf(env, name, memory, ranged, block)
      ensures o.NoName? || o.NotAdmitted? || o.NoBlock? || o.CreateFailed? ==> sandboxes == old(sandboxes)
      ensures (o.PolicyFailed? || o.Collided?) && env.tearsDown ==> sandboxes == old(sandboxes)
      ensures (o.PolicyFailed? || o.Collided?) && !env.tearsDown ==> sandboxes == old(sandboxes)[name := ports]
      ensures o.Booted? || o.DetachFailed? || o.GetFailed? ==> sandboxes == old(sandboxes)[name := ports]
    {
      ports, block := map[], 0;
      if name == "" {
        return NoName, ports, block;
      }
      hide InFreeBlock, WasAdmitted, AfterAdmission;
      var admitted := AdmitFirst(env, memory);
      if !admitted {
        return NotAdmitted, ports, block;
      }
      o, ports, block := Create(name, ranged, own, env);
    }

    /** The steps after admission: allocate, create, and settle. */
    method Create(name: string, ranged: bool, own: PortMap, env: Answers)
      returns (o: Outcome, ghost ports: PortMap, ghost block: nat)
      requires name in sandboxes ==> !env.creates
      modifies this
      ensures sandboxes == if LeavesSandbox(o, env.tearsDown) then old(sandboxes)[name := ports] else old(sandboxes)
      ensures LeavesSandbox(o, env.tearsDown) ==> name !in old(sandboxes)
      ensures LeavesSandbox(o, env.tearsDown) ==> if ranged then InFreeBlock(env, ports, block) else ports == own
      ensures o == AfterAdmission(env, name, ranged, block)
      ensures o.NoBlock? || o.CreateFailed? ==> sandboxes == old(sandboxes)
      ensures (o.PolicyFailed? || o.Collided?) && env.tearsDown ==> sandboxes == old(sandboxes)
      ensures (o.PolicyFailed? || o.Collided?) && !env.tearsDown ==> sandboxes == old(sandboxes)[name := ports]
      ensures o.Booted? || o.DetachFailed? || o.GetFailed? ==> sandboxes == old(sandboxes)[name := ports]
    {
      hide InFreeBlock, Allocatable, ScannedClear;
      ports, block := own, 0;
      var portMap, base := own, 0;
      if ranged {
        var granted;
        granted, base, portMap := AllocateBlock(env);
        if !granted {
          return NoBlock, ports, block;
        }
        block :| InFreeBlock(env, portMap, block) && base == R.BaseOf(block);
      }
      ports := portMap;
      if !env.creates {
        return CreateFailed, ports, block;
      }
      sandboxes := sandboxes[name := portMap];
      hide AfterCreate;
      o := Settle(name, ranged, base, env, block);
      assert old(sandboxes)[name := portMap] - {name} == old(sandboxes);
    }

    /** The steps after the create: detach, look the sandbox up, check its policy, scan for a collision. The last two
        take the sandbox down again when they fail. */
    method Settle(name: string, ranged: bool, base: R.Uint16, env: Answers, ghost block: nat) returns (o: Outcome)
      requires ranged ==> base == R.BaseOf(block)
      modifies this
      ensures sandboxes == if LeavesSandbox(o, env.tearsDown) then old(sandboxes) else old(sandboxes) - {name}
      ensures o == AfterCreate(env, name, ranged, block)
      ensures (o.PolicyFailed? || o.Collided?) && env.tearsDown ==> sandboxes == old(sandboxes) - {name}
      ensures (o.PolicyFailed? || o.Collided?) && !env.tearsDown ==> sandboxes == old(sandboxes)
      ensures o.Booted? || o.DetachFailed? || o.GetFailed? ==> sandboxes == old(sandboxes)
    {
      hide ScannedClear, R.ClearListing, R.NeverClear;
      if !env.detaches {
        return DetachFailed;
      }
      if !env.gets {
        return GetFailed;
      }
      if !env.policyHolds {
        Teardown(name, env.tearsDown);
        return PolicyFailed;
      }
      if ranged && base > 0 {
        var clear, fetches := R.CheckCollisionFrom(name, base, env.collision);
        if clear.Err? {
          NeverIsNotClear(env, name, block);
          Teardown(name, env.tearsDown);
          return Collided;
        }
        ClearWasScanned(env, name, block, fetches);
      }
      o := Booted;
    }

    method Teardown(name: string, works: bool)
      modifies this
      ensures sandboxes == if works then old(sandboxes) - {name} else old(sandboxes)
    {
      if works {
        sandboxes := sandboxes - {name};
      }
    }
  }

  lemma {:induction false} RefusedIsNotAdmitted(env: Answers, memory: A.Uint32, n: nat)
    requires
      || env.budget.None? || memory == 0
      || A.Unknown(env.memory, env.memoryCancelled)
      || (A.CommittedKnown(env.memory, env.memoryCancelled, n)
          && A.TrueSum(Records(env.memory, n)) + memory > env.budget.value)
    ensures !WasAdmitted(env, memory)
  {
    forall m: nat | A.CommittedKnown(env.memory, env.memoryCancelled, m) && A.CommittedKnown(env.memory, env.memoryCancelled, n)
      ensures m == n
    {
      CompleteOnce(env.memory, m, n);
    }
  }

  lemma {:induction false} NeverIsNotClear(env: Answers, name: string, i: nat)
    requires R.NeverClear(env.collision, name, R.BaseOf(i))
    ensures !ScannedClear(env, name, i)
  {
  }

  lemma {:induction false} NoneIsFree(env: Answers, n: nat)
    requires
      || R.Hopeless(env.occupancy, env.occupancyCancelled)
      || (R.OccupancyKnown(env.occupancy, env.occupancyCancelled, n)
          && forall i: nat | i < R.MAX_BLOCKS :: R.Used(Records(env.occupancy, n), i))
    ensures !Allocatable(env)
  {
    forall m: nat, i: nat | R.OccupancyKnown(env.occupancy, env.occupancyCancelled, m)
      ensures !R.LeastFree(Records(env.occupancy, m), i)
    {
      if R.OccupancyKnown(env.occupancy, env.occupancyCancelled, n) {
        CompleteOnce(env.occupancy, m, n);
      }
    }
  }

  lemma {:induction false} BootedIsAdmitted(env: Answers, memory: A.Uint32, n: nat)
    requires env.budget.Some? && memory > 0 && A.CommittedKnown(env.memory, env.memoryCancelled, n)
    requires A.TrueSum(Records(env.memory, n)) + memory <= env.budget.value
    ensures WasAdmitted(env, memory)
  {
  }

  lemma {:induction false} ClearWasScanned(env: Answers, name: string, i: nat, n: nat)
    requires R.ClearListing(env.collision, name, R.BaseOf(i), n)
    ensures ScannedClear(env, name, i)
  {
  }
}
