/** What becomes of each binding in a space-prune sweep, told by the requests made about it and the replies to them. */
module PruneOutcomes {

  import opened BindingStore
  import opened Prune
  import opened PruneSafety
  import Text

  // ---- One binding -------------------------------------------------------------------

  /** The last of these requests, the first at position k, is a remove that was answered "done"; or it is the only
      remove and was answered "no such sandbox". */
  ghost predicate RemovedBy(asked: seq<Request>, script: nat -> Reply, k: nat) {
    asked != [] &&
    (var n := |asked| - 1;
     && asked[n].Remove?
     && (script(k + n).ok || (script(k + n).notFound && forall j | 0 <= j < n :: !asked[j].Remove?)))
  }

  lemma {:induction false} AskedRemoves(b: Binding, live: set<string>, opts: Options, script: nat -> Reply, k: nat)
    ensures RemovedBy(Asked(b, live, opts, script, k), script, k)
       <==> IsStranded(b, live, script, k) && opts.apply && Permits(opts.killRunning, script(k + 1)) && Gone(script, k + 2)
  {
    hide ServiceName, IsStranded, Permits, Text.IsBlank;
    var of := ServiceName(b.handle);
    var asked := Asked(b, live, opts, script, k);
    if IsStranded(b, live, script, k) && opts.apply && Permits(opts.killRunning, script(k + 1)) {
      assert asked == [SignalQuery(b), Status(of)] + ReclaimAsks(of, script, k + 2);
      if script(k + 2).ok || script(k + 2).notFound {
        assert asked == [SignalQuery(b), Status(of), Remove(of)];
      } else if !script(k + 3).ok {
        assert asked == [SignalQuery(b), Status(of), Remove(of), Halt(of)];
      } else {
        assert asked == [SignalQuery(b), Status(of), Remove(of), Halt(of), Remove(of)];
        assert asked[2].Remove?;
      }
    }
  }

  /** Each line of a sweep, by the replies from position k on. The binding is kept unless its workspace is gone and
      so is its worktree or, if it never had one, its sandbox is not running. It is refused when a second look
      cannot tell, or finds the sandbox running and the sweep may not kill it. Otherwise the sandbox goes, and the
      binding with it when the store can be written, exactly when the last request about it was a remove that
      worked, or its only remove found no such sandbox. */
  lemma {:induction false} LineByReplies(line: Line, b: Binding, live: set<string>, opts: Options, script: nat -> Reply,
                                         k: nat, disk: Disk, stranded: bool, asked: seq<Request>)
    requires LineOk(line, b, live, opts, script, k, disk) && asked == Asked(b, live, opts, script, k)
    requires stranded <==>
      (b.workspaceId !in live &&
       if Text.IsBlank(b.checkoutPath) then (if script(k).ok then !script(k).yes else script(k).notFound)
       else script(k).yes)
    ensures line.Keep? <==> !stranded
    ensures line.WouldReclaim? <==> stranded && !opts.apply
    ensures line.RefusedUnknown? <==> stranded && opts.apply && !script(k + 1).ok && !script(k + 1).notFound
    ensures line.RefusedRunning? <==> stranded && opts.apply && script(k + 1).ok && script(k + 1).yes && !opts.killRunning
    ensures line.Reclaimed? || line.DeleteFailed? <==>
      asked != [] && asked[|asked| - 1].Remove? &&
      (script(k + |asked| - 1).ok
       || (script(k + |asked| - 1).notFound && forall j | 0 <= j < |asked| - 1 :: !asked[j].Remove?))
    ensures (exists j | 0 <= j < |asked| :: asked[j].Remove?) ==>
      line.Reclaimed? || line.DeleteFailed? || line.RemoveFailed?
    ensures line.DeleteFailed? ==> !Works(disk)
    ensures line.Reclaimed? ==> Works(disk)
    ensures stranded && opts.apply && !line.RefusedUnknown? && !line.RefusedRunning? ==>
      |asked| > 2 && asked[1] == Status(ServiceName(b.handle)) && asked[2] == Remove(ServiceName(b.handle))
  {
    hide Gone, Works, Asked, ServiceName, Text.IsBlank;
    AskedRemoves(b, live, opts, script, k);
    AskedThird(b, live, opts, script, k);
    assert script(k + (|asked| - 1)) == script(k + |asked| - 1);
  }

  lemma {:induction false} AskedThird(b: Binding, live: set<string>, opts: Options, script: nat -> Reply, k: nat)
    ensures Asked(b, live, opts, script, k) != []
    ensures var asked, of := Asked(b, live, opts, script, k), ServiceName(b.handle);
      if IsStranded(b, live, script, k) && opts.apply && Permits(opts.killRunning, script(k + 1))
      then |asked| > 2 && asked[1] == Status(of) && asked[2] == Remove(of)
      else forall j | 0 <= j < |asked| :: !asked[j].Remove?
  {
    hide ServiceName, IsStranded, Permits;
    var asked, of := Asked(b, live, opts, script, k), ServiceName(b.handle);
    if IsStranded(b, live, script, k) && opts.apply && Permits(opts.killRunning, script(k + 1)) {
      assert asked == [SignalQuery(b), Status(of)] + ReclaimAsks(of, script, k + 2);
      assert asked[2] == ReclaimAsks(of, script, k + 2)[0];
    } else {
      assert asked == [SignalQuery(b)] || asked == [SignalQuery(b), Status(of)];
      assert !SignalQuery(b).Remove?;
    }
  }

  // ---- The whole sweep -----------------------------------------------------------------

  /** The requests about binding i lie between the starts of binding i and of the next. */
  lemma {:induction false} RequestsAbout(bs: seq<Binding>, i: nat, live: set<string>, opts: Options,
                                         script: nat -> Reply, log: seq<Request>)
    requires i < |bs|
    ensures var k, all := |log|, log + AskedAll(bs, live, opts, script, |log|);
      var lo, hi := StartOf(i, bs, live, opts, script, k), StartOf(i + 1, bs, live, opts, script, k);
      k <= lo <= hi <= |all| && all[lo..hi] == Asked(bs[i], live, opts, script, lo)
  {
    hide Asked, AskedAll;
    AskedAllStep(bs, i, live, opts, script, log);
    AskedPrefix(bs, i + 1, live, opts, script, |log|);
    var upTo := log + AskedAll(bs[..i + 1], live, opts, script, |log|);
    assert (log + AskedAll(bs, live, opts, script, |log|))[..|upTo|] == upTo;
  }

  lemma {:induction false} AskedAbout(b: Binding, live: set<string>, opts: Options, script: nat -> Reply, k: nat)
    ensures forall r | r in Asked(b, live, opts, script, k) && r.Remove? :: r == Remove(ServiceName(b.handle))
  {
    hide ServiceName, IsStranded, Permits, Text.IsBlank;
  }

  lemma {:induction false} AtOnePlace(bs: seq<Binding>)
    requires Unique(bs)
    ensures forall i, j | 0 <= i < |bs| && 0 <= j < |bs| && bs[i] == bs[j] :: i == j
  {
  }

  lemma {:induction false} FailedLine(lines: seq<Line>, i: nat)
    requires i < |lines| && (lines[i].RemoveFailed? || lines[i].DeleteFailed?)
    ensures exists j :: 0 <= j < |lines| && Failed(lines[j])
  {
    assert Failed(lines[i]);
  }

  /** A sweep of a store with distinct labels, told by the requests about a binding it considers and the replies to
      them. The binding leaves the store only if the last of them was a remove that worked, or the only remove found
      no such sandbox; and if a remove was tried and the binding is still there, the sweep reports a failure. */
  lemma {:induction false} SweepByReplies(
    stored: seq<Binding>, workspace: string, bs: seq<Binding>, live: set<string>, opts: Options, script: nat -> Reply,
    before: seq<Request>, log: seq<Request>, lines: seq<Line>, deletes: nat -> Disk, left: seq<Binding>, failed: bool,
    reclaimable: nat, applied: nat, i: nat, lo: nat, hi: nat)
    requires Unique(stored) && bs == Scoped(stored, workspace) && |lines| == |bs| && i < |bs|
    requires LinesOk(lines, bs, live, opts, script, |before|, deletes) && Counted(lines, failed, reclaimable, applied)
    requires log == before + AskedAll(bs, live, opts, script, |before|) && left == Without(stored, Reclaims(bs, lines))
    requires lo == StartOf(i, bs, live, opts, script, |before|) && hi == StartOf(i + 1, bs, live, opts, script, |before|)
    ensures lo <= hi <= |log| && forall j | lo <= j < hi && log[j].Remove? :: log[j] == Remove(ServiceName(bs[i].handle))
    ensures bs[i] !in left ==>
      lo < hi && log[hi - 1].Remove?
      && (script(hi - 1).ok || (script(hi - 1).notFound && forall j | lo <= j < hi - 1 :: !log[j].Remove?))
    ensures bs[i] in left && (exists j | lo <= j < hi :: log[j].Remove?) ==> failed
  {
    hide Asked, AskedAll, LineOk, Without, Reclaims, Scoped, StartOf, Unique, Text.IsBlank, ServiceName;
    RequestsAbout(bs, i, live, opts, script, before);
    var b, asked := bs[i], log[lo..hi];
    assert forall j | lo <= j < hi :: log[j] == asked[j - lo];
    var stranded := b.workspaceId !in live &&
      if Text.IsBlank(b.checkoutPath) then (if script(lo).ok then !script(lo).yes else script(lo).notFound)
      else script(lo).yes;
    assert LineOk(lines[i], b, live, opts, script, lo, deletes(i));
    LineByReplies(lines[i], b, live, opts, script, lo, deletes(i), stranded, asked);
    AskedAbout(b, live, opts, script, lo);
    RemainsExactly(stored, workspace, lines, b);
    ScopedUnique(stored, workspace);
    ScopedHas(stored, workspace, b);
    AtOnePlace(bs);
    if lines[i].RemoveFailed? || lines[i].DeleteFailed? {
      FailedLine(lines, i);
    }
  }
}
