/** The space-prune sweep of internal/cli/cmd_herdrspace_prune.go: which bindings are stranded, which sandboxes may be
    destroyed, and what is left in the binding store. */
module Prune {

  import opened Wrappers
  import opened BindingStore
  import Seqs
  import Text

  // ---- Handles ---------------------------------------------------------------------

  datatype Name = Name(project: string, name: string)

  /** splitSandboxHandle: cut at the last slash. */
  function SplitHandle(handle: string): Name {
    var i := Text.LastIndex(handle, '/');
    if i < 0 then Name("", handle) else Name(handle[..i], handle[i + 1..])
  }

  /** service.New's default for an empty project. */
  function DefaultProject(): (s: string)
    ensures s != ""
  {
    "herdr"
  }

  /** The project and name that every service call about a handle is made with. */
  function ServiceName(handle: string): Name {
    var n := SplitHandle(handle);
    Name(if n.project == "" then DefaultProject() else n.project, n.name)
  }

  /** The three ways to write a sandbox of the default project. */
  function Spellings(name: string): set<string> {
    {name, "/" + name, DefaultProject() + ("/" + name)}
  }

  /** Two handles are about one sandbox exactly when they are equal, or both spell one name of the default project. */
  lemma {:induction false} SameSandboxExactly(h: string, h': string)
    ensures ServiceName(h) == ServiceName(h')
       <==> h == h' || exists n :: '/' !in n && h in Spellings(n) && h' in Spellings(n)
    ensures forall n :: Spellings(n) == {n, "/" + n, "herdr/" + n}
  {
    forall n: string
      ensures DefaultProject() + ("/" + n) == "herdr/" + n
    {
    }
    if ServiceName(h) == ServiceName(h') {
      var n := SplitHandle(h).name;
      SplitJoins(h);
      SplitJoins(h');
      hide SplitHandle, DefaultProject;
      if SplitHandle(h).project == SplitHandle(h').project {
        assert '/' in h && '/' in h' ==> h == h';
        assert SplitHandle(h).project == "" ==> h in Spellings(n) && h' in Spellings(n);
      } else {
        assert h in Spellings(n) && h' in Spellings(n);
      }
    }
    if n: string :| '/' !in n && h in Spellings(n) && h' in Spellings(n) {
      SpelledDefault(h, n);
      SpelledDefault(h', n);
    }
  }

  lemma {:induction false} SpelledDefault(h: string, n: string)
    requires '/' !in n && h in Spellings(n)
    ensures ServiceName(h) == Name(DefaultProject(), n)
  {
    hide ServiceName, DefaultProject;
    if h == n {
      BareName(n);
    } else if h == "/" + n {
      NothingBefore("/" + n);
      WithProject("", n);
    } else {
      WithProject(DefaultProject(), n);
    }
  }

  lemma {:induction false} NothingBefore(s: string)
    ensures "" + s == s
  {
  }

  lemma {:induction false} BareName(n: string)
    requires '/' !in n
    ensures ServiceName(n) == Name(DefaultProject(), n)
  {
    hide SplitHandle, DefaultProject;
    SplitJoins(n);
  }

  lemma {:induction false} WithProject(project: string, n: string)
    requires '/' !in n
    ensures ServiceName(project + ("/" + n)) == Name(if project == "" then DefaultProject() else project, n)
  {
    hide SplitHandle, DefaultProject;
    SplitSlash(project, n);
  }

  lemma {:induction false} SplitJoins(h: string)
    ensures h == if '/' in h then SplitHandle(h).project + ("/" + SplitHandle(h).name) else SplitHandle(h).name
    ensures '/' in h && SplitHandle(h).project == "" ==> h == "/" + SplitHandle(h).name
    ensures '/' !in h ==> SplitHandle(h).project == ""
    ensures '/' !in SplitHandle(h).name
  {
    var i := Text.LastIndex(h, '/');
    if i >= 0 {
      assert h == h[..i] + ("/" + h[i + 1..]);
    }
  }

  lemma {:induction false} SplitSlash(project: string, n: string)
    requires '/' !in n
    ensures SplitHandle(project + ("/" + n)) == Name(project, n)
  {
    var s := project + ("/" + n);
    assert s[|project|] == '/';
    assert forall j | |project| < j < |s| :: s[j] == n[j - |project| - 1];
    assert Text.LastIndex(s, '/') == |project|;
    assert s[..|project|] == project && s[|project| + 1..] == n;
  }

  // ---- The two-signal rule ---------------------------------------------------------

  datatype Liveness = Unknown | Running | Idle

  datatype Reason =
    | WorkspaceAlive | WorkspaceAliveNoWorktree | WorktreeGoneWorkspaceAlive
    | WorkspaceGoneWorktreePresent | WorkspaceGoneSandboxRunning | SandboxStateUnknown
    | WorkspaceGoneWorktreeGone | WorkspaceGoneSandboxIdle

  predicate Stranded(r: Reason) {
    r.WorkspaceGoneWorktreeGone? || r.WorkspaceGoneSandboxIdle?
  }

  /** pruneStrandReason: a binding is stranded exactly when its workspace is gone and so is its worktree or, when it
      never had one, its sandbox is known to be idle. */
  function StrandReason(workspaceLive: bool, noWorktree: bool, state: Liveness, pathGone: bool): (r: Reason)
    ensures Stranded(r) <==> !workspaceLive && (if noWorktree then state.Idle? else pathGone)
  {
    if noWorktree then
      if workspaceLive then WorkspaceAliveNoWorktree
      else if state.Running? then WorkspaceGoneSandboxRunning
      else if state.Idle? then WorkspaceGoneSandboxIdle
      else SandboxStateUnknown
    else
      if !workspaceLive && pathGone then WorkspaceGoneWorktreeGone
      else if !workspaceLive then WorkspaceGoneWorktreePresent
      else if pathGone then WorktreeGoneWorkspaceAlive
      else WorkspaceAlive
  }

  // ---- The outside world -----------------------------------------------------------

  /** What the sweep asks of the sandbox service and the file system. PathGone stats the trimmed path. */
  datatype Request = Status(of: Name) | PathGone(path: string) | Remove(of: Name) | Halt(of: Name)

  /** The reply to one request. On an error notFound tells whether it was "no such sandbox"; yes carries the answer
      (running, or gone) otherwise. */
  datatype Reply = Reply(ok: bool, notFound: bool, yes: bool)

  class Outside {
    const script: nat -> Reply
    var log: seq<Request>

    method Ask(r: Request) returns (reply: Reply)
      modifies this
      ensures log == old(log) + [r] && reply == script(|old(log)|)
    {
      reply := script(|log|);
      log := log + [r];
    }
  }

  /** pruneRunningCheck and pruneLiveness: a sandbox that does not exist is idle, any other error is unknown. */
  function LivenessOf(r: Reply): Liveness {
    if r.ok then (if r.yes then Running else Idle) else if r.notFound then Idle else Unknown
  }

  predicate Destroys(r: Request) {
    r.Remove? || r.Halt?
  }

  // ---- One binding -----------------------------------------------------------------

  datatype Options = Options(apply: bool, all: bool, workspace: string, killRunning: bool)

  /** What the sweep reports about one binding. */
  datatype Line =
    | Keep(reason: Reason)
    | WouldReclaim
    | RefusedUnknown
    | RefusedRunning
    | RemoveFailed
    | DeleteFailed
    | Reclaimed

  predicate Failed(line: Line) {
    line.RefusedUnknown? || line.RefusedRunning? || line.RemoveFailed? || line.DeleteFailed?
  }

  /** The question that gives the second signal about a binding. */
  function SignalQuery(b: Binding): Request {
    if Text.IsBlank(b.checkoutPath) then Status(ServiceName(b.handle)) else PathGone(b.checkoutPath)
  }

  predicate SecondSignal(b: Binding, r: Reply) {
    if Text.IsBlank(b.checkoutPath) then LivenessOf(r).Idle? else r.yes
  }

  /** pruneReclaim, told by the replies from position k on: the first remove worked or found nothing, or stopping the
      sandbox and removing it again both worked. A second remove that finds nothing is a failure. */
  predicate Gone(script: nat -> Reply, k: nat) {
    script(k).ok || script(k).notFound || (script(k + 1).ok && script(k + 2).ok)
  }

  /** Both signals say that the binding, whose questions start at position k of the log, is stranded. */
  predicate IsStranded(b: Binding, live: set<string>, script: nat -> Reply, k: nat) {
    b.workspaceId !in live && SecondSignal(b, script(k))
  }

  /** The status check lets the sandbox be destroyed. */
  predicate Permits(killRunning: bool, r: Reply) {
    LivenessOf(r).Idle? || (LivenessOf(r).Running? && killRunning)
  }

  /** What becomes of that binding when its deletion goes as disk says. */
  predicate LineOk(line: Line, b: Binding, live: set<string>, opts: Options, script: nat -> Reply, k: nat,
                   disk: Disk)
  {
    var stranded, status := IsStranded(b, live, script, k), LivenessOf(script(k + 1));
    var attempted := stranded && opts.apply && Permits(opts.killRunning, script(k + 1));
    && (line.Keep? <==> !stranded)
    && (line.WouldReclaim? <==> stranded && !opts.apply)
    && (line.RefusedUnknown? <==> stranded && opts.apply && status.Unknown?)
    && (line.RefusedRunning? <==> stranded && opts.apply && status.Running? && !opts.killRunning)
    && (line.RemoveFailed? <==> attempted && !Gone(script, k + 2))
    && (line.DeleteFailed? <==> attempted && Gone(script, k + 2) && !Works(disk))
  }

  /** The requests of pruneReclaim, from position k on. */
  function ReclaimAsks(of: Name, script: nat -> Reply, k: nat): seq<Request> {
    if script(k).ok || script(k).notFound then [Remove(of)]
    else if !script(k + 1).ok then [Remove(of), Halt(of)]
    else [Remove(of), Halt(of), Remove(of)]
  }

  /** All requests about one binding, from position k on. */
  function Asked(b: Binding, live: set<string>, opts: Options, script: nat -> Reply, k: nat): seq<Request> {
    var of := ServiceName(b.handle);
    if !IsStranded(b, live, script, k) || !opts.apply then [SignalQuery(b)]
    else if !Permits(opts.killRunning, script(k + 1)) then [SignalQuery(b), Status(of)]
    else [SignalQuery(b), Status(of)] + ReclaimAsks(of, script, k + 2)
  }

  /** Only a reclaimed binding leaves the store. */
  function AfterLine(bs: seq<Binding>, b: Binding, line: Line): seq<Binding> {
    if line.Reclaimed? then Commit(bs, Delete(b.spaceLabel)) else bs
  }

  /** pruneReclaim(ctx, project, name). */
  method Reclaim(outside: Outside, of: Name) returns (ok: bool)
    modifies outside
    ensures ok <==> Gone(outside.script, |old(outside.log)|)
    ensures outside.log == old(outside.log) + ReclaimAsks(of, outside.script, |old(outside.log)|)
  {
    var first := outside.Ask(Remove(of));
    if first.ok || first.notFound {
      return true;
    }
    var halt := outside.Ask(Halt(of));
    assert outside.log == old(outside.log) + [Remove(of), Halt(of)];
    if !halt.ok {
      return false;
    }
    var second := outside.Ask(Remove(of));
    assert outside.log == old(outside.log) + [Remove(of), Halt(of), Remove(of)];
    ok := second.ok;
  }

  /** The second half of the loop's body, for a stranded binding that is to be reclaimed. */
  method Attempt(outside: Outside, store: Store, b: Binding, opts: Options, disk: Disk) returns (line: Line)
    requires !store.file.Corrupt?
    modifies outside, store
    ensures !store.file.Corrupt?
    ensures var script, k, of := outside.script, |old(outside.log)|, ServiceName(b.handle);
      && outside.log == old(outside.log) + [Status(of)]
           + (if Permits(opts.killRunning, script(k)) then ReclaimAsks(of, script, k + 1) else [])
      && line == Attempted(opts.killRunning, script, k, disk)
    ensures store.Contents() == AfterLine(old(store.Contents()), b, line)
    ensures !line.Reclaimed? ==> store.file == old(store.file)
  {
    var of := ServiceName(b.handle);
    hide ReclaimAsks, ServiceName, Gone, Commit;
    var check := outside.Ask(Status(of));
    var status := LivenessOf(check);
    if status.Unknown? {
      return RefusedUnknown;
    }
    if status.Running? && !opts.killRunning {
      return RefusedRunning;
    }
    var gone := Reclaim(outside, of);
    if !gone {
      return RemoveFailed;
    }
    var deleted := store.Delete(b.spaceLabel, disk);
    if !deleted {
      return DeleteFailed;
    }
    line := Reclaimed;
  }

  /** What comes of that, by the status reply at position k and those after it. */
  function Attempted(killRunning: bool, script: nat -> Reply, k: nat, disk: Disk): Line {
    if LivenessOf(script(k)).Unknown? then RefusedUnknown
    else if LivenessOf(script(k)).Running? && !killRunning then RefusedRunning
    else if !Gone(script, k + 1) then RemoveFailed
    else if !Works(disk) then DeleteFailed
    else Reclaimed
  }

  lemma {:induction false} AskedSteps(b: Binding, live: set<string>, opts: Options, script: nat -> Reply,
                                      log: seq<Request>)
    ensures var k, all := |log|, log + Asked(b, live, opts, script, |log|);
      if !IsStranded(b, live, script, k) || !opts.apply then all == log + [SignalQuery(b)]
      else all == log + [SignalQuery(b)] + [Status(ServiceName(b.handle))]
                  + (if Permits(opts.killRunning, script(k + 1))
                     then ReclaimAsks(ServiceName(b.handle), script, k + 2) else [])
  {
    hide ReclaimAsks, ServiceName, SignalQuery, IsStranded, Permits;
  }

  lemma {:induction false} LineOfAttempt(b: Binding, live: set<string>, opts: Options, script: nat -> Reply, k: nat,
                                         disk: Disk)
    requires IsStranded(b, live, script, k) && opts.apply
    ensures LineOk(Attempted(opts.killRunning, script, k + 1, disk), b, live, opts, script, k, disk)
  {
    hide IsStranded, Gone, Works;
  }

  /** The body of the sweep's loop, for one binding. */
  method PruneOne(outside: Outside, store: Store, b: Binding, live: set<string>, opts: Options, disk: Disk)
    returns (line: Line)
    requires !store.file.Corrupt?
    modifies outside, store
    ensures !store.file.Corrupt?
    ensures LineOk(line, b, live, opts, outside.script, |old(outside.log)|, disk)
    ensures outside.log == old(outside.log) + Asked(b, live, opts, outside.script, |old(outside.log)|)
    ensures store.Contents() == AfterLine(old(store.Contents()), b, line)
    ensures !line.Reclaimed? ==> store.file == old(store.file)
  {
    ghost var k := |outside.log|;
    AskedSteps(b, live, opts, outside.script, outside.log);
    hide Asked, ReclaimAsks, ServiceName, Gone, AfterLine, Attempted;
    var state, pathGone := Unknown, false;
    var blank := Text.IsBlank(b.checkoutPath);
    var signal := outside.Ask(SignalQuery(b));
    if blank {
      state := LivenessOf(signal);
    } else {
      pathGone := signal.yes;
    }
    var reason := StrandReason(b.workspaceId in live, blank, state, pathGone);
    assert Stranded(reason) <==> IsStranded(b, live, outside.script, k);
    hide StrandReason, SecondSignal, SignalQuery, Text.IsBlank, IsStranded, LivenessOf, Permits;
    if !Stranded(reason) {
      KeepsStore(store.Contents(), b, Keep(reason));
      return Keep(reason);
    }
    if !opts.apply {
      KeepsStore(store.Contents(), b, WouldReclaim);
      return WouldReclaim;
    }
    LineOfAttempt(b, live, opts, outside.script, k, disk);
    hide LineOk;
    line := Attempt(outside, store, b, opts, disk);
  }

  lemma {:induction false} KeepsStore(bs: seq<Binding>, b: Binding, line: Line)
    requires !line.Reclaimed?
    ensures AfterLine(bs, b, line) == bs
  {
  }

  // ---- The sweep -------------------------------------------------------------------

  /** The bindings a sweep considers. */
  function Scoped(bs: seq<Binding>, workspace: string): seq<Binding> {
    if bs == [] then []
    else if workspace == "" || bs[0].workspaceId == workspace then [bs[0]] + Scoped(bs[1..], workspace)
    else Scoped(bs[1..], workspace)
  }

  lemma {:induction false} ScopedAppend(bs: seq<Binding>, b: Binding, workspace: string)
    ensures Scoped(bs + [b], workspace)
         == Scoped(bs, workspace) + (if workspace == "" || b.workspaceId == workspace then [b] else [])
  {
    if bs == [] {
      assert [] + [b] == [b] && [b][1..] == [];
    } else {
      assert (bs + [b])[0] == bs[0] && (bs + [b])[1..] == bs[1..] + [b];
      ScopedAppend(bs[1..], b, workspace);
    }
  }

  lemma {:induction false} ScopedAll(bs: seq<Binding>)
    ensures Scoped(bs, "") == bs
  {
    if bs != [] {
      ScopedAll(bs[1..]);
    }
  }

  lemma {:induction false} ScopedHas(bs: seq<Binding>, workspace: string, x: Binding)
    ensures x in Scoped(bs, workspace) <==> x in bs && (workspace == "" || x.workspaceId == workspace)
  {
    if bs != [] {
      ScopedHas(bs[1..], workspace, x);
    }
  }

  /** The store without the bindings of the given labels. */
  function Without(bs: seq<Binding>, labels: set<string>): seq<Binding> {
    if bs == [] then []
    else if bs[0].spaceLabel in labels then Without(bs[1..], labels)
    else [bs[0]] + Without(bs[1..], labels)
  }

  function Reclaims(bs: seq<Binding>, lines: seq<Line>): set<string>
    requires |lines| <= |bs|
  {
    set i | 0 <= i < |lines| && lines[i].Reclaimed? :: bs[i].spaceLabel
  }

  function Count(lines: seq<Line>, which: Line -> bool): nat {
    if lines == [] then 0
    else Count(lines[..|lines| - 1], which) + if which(lines[|lines| - 1]) then 1 else 0
  }

  lemma {:induction false} WithoutDelete(bs: seq<Binding>, labels: set<string>, spaceLabel: string)
    ensures Commit(Without(bs, labels), Delete(spaceLabel)) == Without(bs, labels + {spaceLabel})
  {
    if bs != [] {
      WithoutDelete(bs[1..], labels, spaceLabel);
    }
  }

  lemma {:induction false} WithoutNone(bs: seq<Binding>)
    ensures Without(bs, {}) == bs
  {
    if bs != [] {
      WithoutNone(bs[1..]);
    }
  }

  lemma {:induction false} WithoutHas(bs: seq<Binding>, labels: set<string>, x: Binding)
    ensures x in Without(bs, labels) <==> x in bs && x.spaceLabel !in labels
  {
    if bs != [] {
      WithoutHas(bs[1..], labels, x);
    }
  }

  /** All requests of a sweep, from position k on. */
  function AskedAll(bs: seq<Binding>, live: set<string>, opts: Options, script: nat -> Reply, k: nat): seq<Request> {
    if bs == [] then []
    else
      var front := AskedAll(bs[..|bs| - 1], live, opts, script, k);
      front + Asked(bs[|bs| - 1], live, opts, script, k + |front|)
  }

  /** Where the questions about binding i start, in a sweep that starts at position k. */
  function StartOf(i: nat, bs: seq<Binding>, live: set<string>, opts: Options, script: nat -> Reply, k: nat): nat
    requires i <= |bs|
  {
    k + |AskedAll(bs[..i], live, opts, script, k)|
  }

  /** Line i is what became of binding i. */
  ghost predicate LinesOk(lines: seq<Line>, bs: seq<Binding>, live: set<string>, opts: Options,
                          script: nat -> Reply, k: nat, deletes: nat -> Disk)
  {
    && |lines| <= |bs|
    && forall i: nat | i < |lines| ::
         LineOk(lines[i], bs[i], live, opts, script, StartOf(i, bs, live, opts, script, k), deletes(i))
  }

  lemma {:induction false} LinesOkStep(lines: seq<Line>, line: Line, bs: seq<Binding>, live: set<string>,
                                       opts: Options, script: nat -> Reply, k: nat, deletes: nat -> Disk)
    requires LinesOk(lines, bs, live, opts, script, k, deletes) && |lines| < |bs|
    requires LineOk(line, bs[|lines|], live, opts, script, StartOf(|lines|, bs, live, opts, script, k), deletes(|lines|))
    ensures LinesOk(lines + [line], bs, live, opts, script, k, deletes)
  {
    hide LineOk, StartOf;
  }

  lemma {:induction false} AskedAllSnoc(bs: seq<Binding>, i: nat, live: set<string>, opts: Options,
                                        script: nat -> Reply, k: nat)
    requires i < |bs|
    ensures AskedAll(bs[..i + 1], live, opts, script, k)
         == AskedAll(bs[..i], live, opts, script, k) + Asked(bs[i], live, opts, script, StartOf(i, bs, live, opts, script, k))
  {
    hide Asked;
    var more := bs[..i + 1];
    assert more[..|more| - 1] == bs[..i] && more[|more| - 1] == bs[i];
  }

  lemma {:induction false} AskedAllStep(bs: seq<Binding>, i: nat, live: set<string>, opts: Options,
                                        script: nat -> Reply, log: seq<Request>)
    requires i < |bs|
    ensures var k := |log|; var at := StartOf(i, bs, live, opts, script, k);
      && |log + AskedAll(bs[..i], live, opts, script, k)| == at
      && log + AskedAll(bs[..i], live, opts, script, k) + Asked(bs[i], live, opts, script, at)
         == log + AskedAll(bs[..i + 1], live, opts, script, k)
  {
    var k := |log|;
    var at := StartOf(i, bs, live, opts, script, k);
    AskedAllSnoc(bs, i, live, opts, script, k);
    hide Asked, AskedAll;
    Seqs.AppendAssoc(log, AskedAll(bs[..i], live, opts, script, k), Asked(bs[i], live, opts, script, at));
  }

  lemma {:induction false} ReclaimsStep(bs: seq<Binding>, lines: seq<Line>, line: Line)
    requires |lines| < |bs|
    ensures Reclaims(bs, lines + [line])
         == Reclaims(bs, lines) + (if line.Reclaimed? then {bs[|lines|].spaceLabel} else {})
  {
    var more := lines + [line];
    forall s
      ensures s in Reclaims(bs, more) <==> s in Reclaims(bs, lines) || (line.Reclaimed? && s == bs[|lines|].spaceLabel)
    {
      if s in Reclaims(bs, lines) {
        var i :| 0 <= i < |lines| && lines[i].Reclaimed? && bs[i].spaceLabel == s;
        assert more[i] == lines[i];
      }
      if s in Reclaims(bs, more) {
        var i :| 0 <= i < |more| && more[i].Reclaimed? && bs[i].spaceLabel == s;
        assert i < |lines| ==> more[i] == lines[i];
      }
      if line.Reclaimed? && s == bs[|lines|].spaceLabel {
        assert more[|lines|].Reclaimed?;
      }
    }
  }

  lemma {:induction false} RemainsStep(bs: seq<Binding>, lines: seq<Line>, line: Line, before: seq<Binding>)
    requires |lines| < |bs|
    ensures AfterLine(Without(before, Reclaims(bs, lines)), bs[|lines|], line)
         == Without(before, Reclaims(bs, lines + [line]))
  {
    ReclaimsStep(bs, lines, line);
    WithoutDelete(before, Reclaims(bs, lines), bs[|lines|].spaceLabel);
    hide Without, Reclaims, Commit;
    assert Reclaims(bs, lines) + {} == Reclaims(bs, lines);
  }

  predicate Applied(line: Line) {
    line.Reclaimed?
  }

  predicate Reclaimable(line: Line) {
    !line.Keep?
  }

  lemma {:induction false} CountStep(lines: seq<Line>, line: Line, which: Line -> bool)
    ensures Count(lines + [line], which) == Count(lines, which) + if which(line) then 1 else 0
  {
    assert (lines + [line])[..|lines|] == lines;
  }

  function Places(lines: seq<Line>, which: Line -> bool): set<int> {
    set i | 0 <= i < |lines| && which(lines[i])
  }

  lemma {:induction false} PlacesStep(lines: seq<Line>, which: Line -> bool)
    requires lines != []
    ensures var n := |lines| - 1;
      && n !in Places(lines[..n], which)
      && Places(lines, which) == Places(lines[..n], which) + (if which(lines[n]) then {n} else {})
  {
    var n := |lines| - 1;
    assert forall i | 0 <= i < n :: lines[..n][i] == lines[i];
  }

  lemma {:induction false} CountIsPlaces(lines: seq<Line>, which: Line -> bool)
    ensures Count(lines, which) == |Places(lines, which)|
  {
    if lines != [] {
      CountIsPlaces(lines[..|lines| - 1], which);
      PlacesStep(lines, which);
      hide Places;
    }
  }

  /** The two counters are those of the lines that are not "keep", and of those that are "reclaimed". */
  lemma {:induction false} CountsAre(lines: seq<Line>)
    ensures Count(lines, Applied) == |set i | 0 <= i < |lines| && lines[i].Reclaimed?|
    ensures Count(lines, Reclaimable) == |set i | 0 <= i < |lines| && !lines[i].Keep?|
  {
    hide Count;
    CountIsPlaces(lines, Applied);
    CountIsPlaces(lines, Reclaimable);
    assert Places(lines, Applied) == set i | 0 <= i < |lines| && lines[i].Reclaimed?;
    assert Places(lines, Reclaimable) == set i | 0 <= i < |lines| && !lines[i].Keep?;
  }

  /** A sweep that would reclaim every binding must be asked for by name. */
  predicate Refused(opts: Options) {
    opts.apply && opts.workspace == "" && !opts.all
  }

  /** The three counters of the sweep. */
  ghost predicate Counted(lines: seq<Line>, exitErr: bool, reclaimable: nat, applied: nat) {
    && reclaimable == Count(lines, Reclaimable) && applied == Count(lines, Applied)
    && (exitErr <==> exists i :: 0 <= i < |lines| && Failed(lines[i]))
  }

  lemma {:induction false} CountedStep(lines: seq<Line>, line: Line, exitErr: bool, reclaimable: nat, applied: nat)
    requires Counted(lines, exitErr, reclaimable, applied)
    ensures Counted(lines + [line], exitErr || Failed(line), if line.Keep? then reclaimable else reclaimable + 1,
                    if line.Reclaimed? then applied + 1 else applied)
  {
    CountStep(lines, line, Reclaimable);
    CountStep(lines, line, Applied);
    hide Count;
    var more := lines + [line];
    assert more[|lines|] == line && forall j | 0 <= j < |lines| :: more[j] == lines[j];
  }

  /** The loop of runSpacePrune. */
  method Sweep(outside: Outside, store: Store, bs: seq<Binding>, live: set<string>, opts: Options,
               deletes: nat -> Disk)
    returns (exitErr: bool, reclaimable: nat, applied: nat, lines: seq<Line>)
    requires !store.file.Corrupt?
    modifies outside, store
    ensures |lines| == |bs| && LinesOk(lines, bs, live, opts, outside.script, |old(outside.log)|, deletes)
    ensures Counted(lines, exitErr, reclaimable, applied)
    ensures outside.log == old(outside.log) + AskedAll(bs, live, opts, outside.script, |old(outside.log)|)
    ensures store.Contents() == Without(old(store.Contents()), Reclaims(bs, lines))
  {
    exitErr, reclaimable, applied, lines := false, 0, 0, [];
    ghost var before, log := store.Contents(), outside.log;
    WithoutNone(before);
    assert Reclaims(bs, []) == {} && log + [] == log && bs[..0] == [];
    for i := 0 to |bs|
      invariant |lines| == i && LinesOk(lines, bs, live, opts, outside.script, |log|, deletes)
      invariant !store.file.Corrupt?
      invariant Counted(lines, exitErr, reclaimable, applied)
      invariant outside.log == log + AskedAll(bs[..i], live, opts, outside.script, |log|)
      invariant store.Contents() == Without(before, Reclaims(bs, lines))
    {
      hide LinesOk, Without, Reclaims, Counted, LineOk, AfterLine, Failed, Asked, AskedAll, StartOf;
      AskedAllStep(bs, i, live, opts, outside.script, log);
      var line := PruneOne(outside, store, bs[i], live, opts, deletes(i));
      LinesOkStep(lines, line, bs, live, opts, outside.script, |log|, deletes);
      RemainsStep(bs, lines, line, before);
      CountedStep(lines, line, exitErr, reclaimable, applied);
      lines := lines + [line];
      exitErr := exitErr || Failed(line);
      if !line.Keep? {
        reclaimable := reclaimable + 1;
      }
      if line.Reclaimed? {
        applied := applied + 1;
      }
    }
    assert bs[..|bs|] == bs;
  }

  /** The filter by workspace. */
  method Scope(all: seq<Binding>, workspace: string) returns (bs: seq<Binding>)
    ensures bs == Scoped(all, workspace)
  {
    if workspace == "" {
      ScopedAll(all);
      return all;
    }
    bs := [];
    for i := 0 to |all|
      invariant bs == Scoped(all[..i], workspace)
    {
      assert all[..i + 1] == all[..i] + [all[i]];
      ScopedAppend(all[..i], all[i], workspace);
      hide Scoped;
      if all[i].workspaceId == workspace {
        bs := bs + [all[i]];
      }
    }
    assert all[..|all|] == all;
  }

  /** runSpacePrune once its flags are parsed. */
  method RunSpacePrune(outside: Outside, store: Store, opts: Options, list: Disk, workspaces: Option<set<string>>,
                       deletes: nat -> Disk)
    returns (exit: int, considered: nat, reclaimable: nat, applied: nat, lines: seq<Line>)
    modifies outside, store
    ensures exit == 2 <==> opts.apply && opts.workspace == "" && !opts.all
    ensures Refused(opts) || !list.live || !list.read || old(store.file).Corrupt? || workspaces.None? ==>
      exit != 0 && outside.log == old(outside.log) && store.file == old(store.file) && lines == []
    ensures exit == 0 ==> forall i | 0 <= i < |lines| ::
      lines[i].Keep? || lines[i].WouldReclaim? || lines[i].Reclaimed?
    ensures !Refused(opts) && list.live && list.read && !old(store.file).Corrupt? && workspaces.Some? ==>
      var bs, live, k := Scoped(old(store.Contents()), opts.workspace), workspaces.value, |old(outside.log)|;
      && |lines| == |bs| == considered
      && LinesOk(lines, bs, live, opts, outside.script, k, deletes)
      && outside.log == old(outside.log) + AskedAll(bs, live, opts, outside.script, k)
      && Counted(lines, exit == 1, reclaimable, applied)
      && store.Contents() == Without(old(store.Contents()), Reclaims(bs, lines))
  {
    hide Commit;
    considered, reclaimable, applied, lines := 0, 0, 0, [];
    if Refused(opts) {
      exit := 2;
      return;
    }
    var listed := store.List(list);
    if listed.Err? {
      exit := 1;
      return;
    }
    var bindings := Scope(listed.value, opts.workspace);
    if workspaces.None? {
      exit := 1;
      return;
    }
    hide LinesOk, Without, Reclaims, Scoped, AskedAll, Counted;
    var failed;
    failed, reclaimable, applied, lines := Sweep(outside, store, bindings, workspaces.value, opts, deletes);
    considered := |bindings|;
    exit := if failed then 1 else 0;
  }

  // ---- What is left ----------------------------------------------------------------

  lemma {:induction false} ScopedUnique(bs: seq<Binding>, workspace: string)
    requires Unique(bs)
    ensures Unique(Scoped(bs, workspace))
  {
    if bs != [] {
      UniqueHead(bs);
      ScopedUnique(bs[1..], workspace);
      forall x ensures x in Scoped(bs[1..], workspace) ==> x in bs[1..] {
        ScopedHas(bs[1..], workspace, x);
      }
      hide Unique;
      if workspace == "" || bs[0].workspaceId == workspace {
        UniqueCons(bs[0], Scoped(bs[1..], workspace));
      }
    }
  }

  lemma {:induction false} WithoutSize(bs: seq<Binding>, labels: set<string>)
    requires Unique(bs) && forall s | s in labels :: exists x :: x in bs && x.spaceLabel == s
    ensures |Without(bs, labels)| == |bs| - |labels|
  {
    if bs == [] {
      assert forall s :: s !in labels;
    } else {
      UniqueHead(bs);
      var rest := labels - {bs[0].spaceLabel};
      forall s | s in rest
        ensures exists x :: x in bs[1..] && x.spaceLabel == s
      {
        var x :| x in bs && x.spaceLabel == s;
        assert x in bs[1..];
      }
      WithoutSize(bs[1..], rest);
      WithoutSame(bs[1..], labels, bs[0].spaceLabel);
    }
  }

  lemma {:induction false} WithoutSame(bs: seq<Binding>, labels: set<string>, other: string)
    requires forall x | x in bs :: x.spaceLabel != other
    ensures Without(bs, labels) == Without(bs, labels - {other})
  {
    if bs != [] {
      assert bs[0] in bs;
      assert forall x | x in bs[1..] :: x in bs;
      WithoutSame(bs[1..], labels, other);
    }
  }

  lemma {:induction false} ReclaimsSize(bs: seq<Binding>, lines: seq<Line>)
    requires Unique(bs) && |lines| <= |bs|
    ensures |Reclaims(bs, lines)| == Count(lines, Applied)
  {
    if lines != [] {
      var front := lines[..|lines| - 1];
      ReclaimsSize(bs, front);
      assert lines == front + [lines[|lines| - 1]];
      ReclaimsStep(bs, front, lines[|lines| - 1]);
      assert bs[|front|].spaceLabel !in Reclaims(bs, front);
    }
  }

  /** With labels pairwise distinct, a sweep leaves exactly the bindings it did not reclaim, and its applied count is
      the number that went. */
  lemma {:induction false} RemainsExactly(all: seq<Binding>, workspace: string, lines: seq<Line>, x: Binding)
    requires Unique(all) && |lines| == |Scoped(all, workspace)|
    ensures x in Without(all, Reclaims(Scoped(all, workspace), lines))
       <==> x in all && !exists i :: 0 <= i < |lines| && lines[i].Reclaimed? && Scoped(all, workspace)[i] == x
    ensures |Without(all, Reclaims(Scoped(all, workspace), lines))| == |all| - Count(lines, Applied)
    ensures x in all && workspace != "" && x.workspaceId != workspace ==>
      x in Without(all, Reclaims(Scoped(all, workspace), lines))
  {
    var bs := Scoped(all, workspace);
    var labels := Reclaims(bs, lines);
    ScopedUnique(all, workspace);
    ReclaimsSize(bs, lines);
    WithoutHas(all, labels, x);
    forall s | s in labels
      ensures exists y :: y in all && y.spaceLabel == s
    {
      var i :| 0 <= i < |lines| && lines[i].Reclaimed? && bs[i].spaceLabel == s;
      ScopedHas(all, workspace, bs[i]);
    }
    WithoutSize(all, labels);
    ScopedHas(all, workspace, x);
    hide Scoped, Without, Count;
    if x in all && x.spaceLabel in labels {
      var i :| 0 <= i < |lines| && lines[i].Reclaimed? && bs[i].spaceLabel == x.spaceLabel;
      ScopedHas(all, workspace, bs[i]);
      assert bs[i] == x;
    }
  }
}
