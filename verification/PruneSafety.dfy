/** What a space-prune sweep may destroy: only with two signals and a permitting status, and, when no stranded binding
    shares a sandbox with a live one, never the sandbox of a live workspace. */
module PruneSafety {

  import opened BindingStore
  import opened Prune
  import Seqs
  import Text

  // ---- Two signals -----------------------------------------------------------------

  /** The request at position i destroys the sandbox of b. The questions about b start at position k: the second signal
      was given there, and the status check right after it allowed the request. */
  ghost predicate JustifiedBy(script: nat -> Reply, log: seq<Request>, i: nat, b: Binding, k: nat,
                              live: set<string>, killRunning: bool)
  {
    && k + 2 <= i <= k + 4 && i < |log|
    && log[i] in {Remove(ServiceName(b.handle)), Halt(ServiceName(b.handle))}
    && b.workspaceId !in live
    && log[k] == SignalQuery(b) && SecondSignal(b, script(k))
    && log[k + 1] == Status(ServiceName(b.handle)) && Permits(killRunning, script(k + 1))
  }

  ghost predicate Justified(script: nat -> Reply, log: seq<Request>, i: nat, bs: seq<Binding>,
                            live: set<string>, opts: Options)
  {
    opts.apply && exists b, k: nat | b in bs :: JustifiedBy(script, log, i, b, k, live, opts.killRunning)
  }

  lemma {:induction false} ReclaimAsksAt(of: Name, script: nat -> Reply, k: nat)
    ensures |ReclaimAsks(of, script, k)| <= 3
    ensures forall r | r in ReclaimAsks(of, script, k) :: r in {Remove(of), Halt(of)}
  {
  }

  /** Among the requests about one binding, those that destroy come third or later, after both questions. */
  lemma {:induction false} AskedAt(b: Binding, live: set<string>, opts: Options, script: nat -> Reply, k: nat, i: nat)
    requires i < |Asked(b, live, opts, script, k)| && Destroys(Asked(b, live, opts, script, k)[i])
    ensures opts.apply && b.workspaceId !in live && SecondSignal(b, script(k)) && Permits(opts.killRunning, script(k + 1))
    ensures var asked, of := Asked(b, live, opts, script, k), ServiceName(b.handle);
      && 2 <= i <= 4 && asked[0] == SignalQuery(b) && asked[1] == Status(of) && asked[i] in {Remove(of), Halt(of)}
  {
    var of, asked := ServiceName(b.handle), Asked(b, live, opts, script, k);
    ReclaimAsksAt(of, script, k + 2);
    assert !SignalQuery(b).Remove? && !SignalQuery(b).Halt?;
    hide ReclaimAsks, ServiceName, SecondSignal, Permits, SignalQuery;
    if i >= 2 {
      assert asked == [SignalQuery(b), Status(of)] + ReclaimAsks(of, script, k + 2);
      assert asked[i] == ReclaimAsks(of, script, k + 2)[i - 2];
    }
  }

  lemma {:induction false} AskedJustified(b: Binding, live: set<string>, opts: Options, script: nat -> Reply,
                                          log: seq<Request>, i: nat)
    requires |log| <= i < |log + Asked(b, live, opts, script, |log|)|
    requires Destroys((log + Asked(b, live, opts, script, |log|))[i])
    ensures opts.apply
    ensures JustifiedBy(script, log + Asked(b, live, opts, script, |log|), i, b, |log|, live, opts.killRunning)
  {
    hide Asked, ServiceName, SecondSignal, Permits, SignalQuery, Destroys;
    var asked := Asked(b, live, opts, script, |log|);
    Seqs.ElementAt(log, asked, i - |log|);
    AskedAt(b, live, opts, script, |log|, i - |log|);
    Seqs.ElementAt(log, asked, 0);
    Seqs.ElementAt(log, asked, 1);
  }

  lemma {:induction false} JustifiedLater(script: nat -> Reply, log: seq<Request>, log': seq<Request>, i: nat,
                                          bs: seq<Binding>, bs': seq<Binding>, live: set<string>, opts: Options)
    requires log <= log' && (forall b | b in bs :: b in bs') && Justified(script, log, i, bs, live, opts)
    ensures Justified(script, log', i, bs', live, opts)
  {
    var b, k: nat :| b in bs && JustifiedBy(script, log, i, b, k, live, opts.killRunning);
    assert JustifiedBy(script, log', i, b, k, live, opts.killRunning);
  }

  /** The two-signal rule, over any bindings and any answers. */
  lemma {:induction false} SweepJustified(bs: seq<Binding>, live: set<string>, opts: Options, script: nat -> Reply,
                                          log: seq<Request>, i: nat)
    requires |log| <= i < |log + AskedAll(bs, live, opts, script, |log|)|
    requires Destroys((log + AskedAll(bs, live, opts, script, |log|))[i])
    ensures Justified(script, log + AskedAll(bs, live, opts, script, |log|), i, bs, live, opts)
    decreases |bs|
  {
    if bs != [] {
      var n := |bs| - 1;
      AskedAllStep(bs, n, live, opts, script, log);
      assert bs[..n + 1] == bs;
      hide Asked, AskedAll, JustifiedBy;
      var front := log + AskedAll(bs[..n], live, opts, script, |log|);
      var all := log + AskedAll(bs, live, opts, script, |log|);
      if i < |front| {
        assert front[i] == all[i];
        SweepJustified(bs[..n], live, opts, script, log, i);
        JustifiedLater(script, front, all, i, bs[..n], bs, live, opts);
      } else {
        AskedJustified(bs[n], live, opts, script, front, i);
        assert bs[n] in bs;
      }
    }
  }

  // ---- Whose sandbox it is -----------------------------------------------------------

  /** One entry of the runtime's listing; the project is empty for a sandbox that carries none. */
  datatype Ref = Ref(project: string, name: string)

  predicate Fits(r: Ref, of: Name) {
    r.name == of.name && (r.project == "" || r.project == of.project)
  }

  /** Service.Resolve: the first entry that fits, or -1. */
  function Resolve(refs: seq<Ref>, of: Name): (i: int)
    ensures -1 <= i < |refs|
    ensures i >= 0 ==> Fits(refs[i], of)
    ensures forall j | 0 <= j < (if i < 0 then |refs| else i) :: !Fits(refs[j], of)
  {
    if refs == [] then -1
    else if Fits(refs[0], of) then 0
    else
      var rest := Resolve(refs[1..], of);
      assert forall j | 0 < j < |refs| :: refs[j] == refs[1..][j - 1];
      if rest < 0 then -1 else rest + 1
  }

  predicate SameTarget(refs: seq<Ref>, a: Name, b: Name) {
    Resolve(refs, a) >= 0 && Resolve(refs, a) == Resolve(refs, b)
  }

  ghost predicate Labelled(refs: seq<Ref>) {
    forall r | r in refs :: r.project != ""
  }

  /** Two names that some listing resolves to one entry: any two with one simple name, unless every sandbox carries its
      project. */
  predicate Alias(a: Name, b: Name, labelled: bool) {
    a.name == b.name && (labelled ==> a.project == b.project)
  }

  lemma {:induction false} AliasExactly(a: Name, b: Name, labelled: bool)
    requires a.project != ""
    ensures Alias(a, b, labelled) <==> exists refs :: (labelled ==> Labelled(refs)) && SameTarget(refs, a, b)
  {
    if Alias(a, b, labelled) {
      var refs := [Ref(if labelled then a.project else "", a.name)];
      assert Labelled(refs) <==> labelled;
      assert SameTarget(refs, a, b);
    }
    if refs :| (labelled ==> Labelled(refs)) && SameTarget(refs, a, b) {
      assert refs[Resolve(refs, a)] in refs;
    }
  }

  /** The reply is "no such sandbox". */
  predicate NotFound(r: Reply) {
    !r.ok && r.notFound
  }

  /** Answers the service can give: a request that worked resolved its name in the listing of its moment, and "no such
      sandbox" says that nothing there fits. Any other failure says nothing about the listing. */
  ghost predicate Coherent(log: seq<Request>, script: nat -> Reply, k: nat, listing: nat -> seq<Ref>) {
    forall i: nat | i < |log| && !log[i].PathGone? ::
      && (script(k + i).ok ==> Resolve(listing(k + i), log[i].of) >= 0)
      && (NotFound(script(k + i)) ==> Resolve(listing(k + i), log[i].of) < 0)
  }

  /** The request goes for the sandbox of x, whether or not it reports success. */
  predicate Hits(r: Request, reply: Reply, refs: seq<Ref>, x: Binding) {
    Destroys(r) && !NotFound(reply) && SameTarget(refs, r.of, ServiceName(x.handle))
  }

  /** No request hits the sandbox of a binding whose workspace is live. */
  ghost predicate Spares(log: seq<Request>, all: seq<Binding>, live: set<string>, script: nat -> Reply, k: nat,
                         listing: nat -> seq<Ref>)
  {
    forall i: nat, x | i < |log| && x in all && x.workspaceId in live ::
      !Hits(log[i], script(k + i), listing(k + i), x)
  }

  ghost predicate AllLabelled(listing: nat -> seq<Ref>) {
    forall i: nat :: Labelled(listing(i))
  }

  /** No binding considered whose workspace is gone aliases a binding whose workspace is live. */
  ghost predicate NoAlias(bs: seq<Binding>, all: seq<Binding>, live: set<string>, labelled: bool) {
    forall b, x | b in bs && b.workspaceId !in live && x in all && x.workspaceId in live ::
      !Alias(ServiceName(b.handle), ServiceName(x.handle), labelled)
  }

  lemma {:induction false} TargetsAlias(refs: seq<Ref>, a: Name, b: Name, labelled: bool)
    requires labelled ==> Labelled(refs)
    ensures SameTarget(refs, a, b) ==> Alias(a, b, labelled)
  {
    var i := Resolve(refs, a);
    assert i >= 0 ==> refs[i] in refs;
  }

  /** Every destructive request of a sweep is about a binding it considers whose workspace is gone. */
  lemma {:induction false} DestroysGone(bs: seq<Binding>, live: set<string>, opts: Options, script: nat -> Reply,
                                        k: nat, i: nat) returns (b: Binding)
    requires i < |AskedAll(bs, live, opts, script, k)| && Destroys(AskedAll(bs, live, opts, script, k)[i])
    ensures b in bs && b.workspaceId !in live && opts.apply
    ensures AskedAll(bs, live, opts, script, k)[i].of == ServiceName(b.handle)
  {
    hide AskedAll, ServiceName, SignalQuery, SecondSignal, Permits;
    var before: seq<Request> := seq(k, _ => PathGone(""));
    Seqs.ElementAt(before, AskedAll(bs, live, opts, script, k), i);
    SweepJustified(bs, live, opts, script, before, k + i);
    b := JustifyingBinding(script, before + AskedAll(bs, live, opts, script, k), k + i, bs, live, opts);
  }

  lemma {:induction false} JustifyingBinding(script: nat -> Reply, log: seq<Request>, i: nat, bs: seq<Binding>,
                                             live: set<string>, opts: Options) returns (b: Binding)
    requires Justified(script, log, i, bs, live, opts)
    ensures b in bs && b.workspaceId !in live && opts.apply && i < |log| && Destroys(log[i])
    ensures log[i].of == ServiceName(b.handle)
  {
    hide ServiceName, SignalQuery, SecondSignal, Permits;
    var x, j: nat :| x in bs && JustifiedBy(script, log, i, x, j, live, opts.killRunning);
    b := x;
  }

  lemma {:induction false} NoAliasSpares(bs: seq<Binding>, all: seq<Binding>, live: set<string>, opts: Options,
                                         labelled: bool, script: nat -> Reply, k: nat, listing: nat -> seq<Ref>)
    requires NoAlias(bs, all, live, labelled) && (labelled ==> AllLabelled(listing))
    ensures Spares(AskedAll(bs, live, opts, script, k), all, live, script, k, listing)
  {
    hide AskedAll, ServiceName, Resolve, SameTarget, Alias, NotFound;
    var log := AskedAll(bs, live, opts, script, k);
    forall i: nat, x | i < |log| && x in all && x.workspaceId in live
      ensures !Hits(log[i], script(k + i), listing(k + i), x)
    {
      if Destroys(log[i]) {
        var b := DestroysGone(bs, live, opts, script, k, i);
        assert labelled ==> Labelled(listing(k + i));
        TargetsAlias(listing(k + i), log[i].of, ServiceName(x.handle), labelled);
      }
    }
  }

  // ---- A sweep that removes the sandbox of a live workspace --------------------------------

  /** Nothing can be asked before the turn of binding n; then its worktree, if it had one, is gone, its sandbox is idle,
      and the remove works. Afterwards the sandbox is not found. */
  function Answers(n: nat, worktree: bool): nat -> Reply {
    i => if i < n then Reply(false, false, false)
         else if i <= n + 2 then Reply(true, false, worktree && i == n)
         else Reply(false, true, false)
  }

  /** One sandbox, until its remove worked. */
  function OneSandbox(n: nat, r: Ref): nat -> seq<Ref> {
    i => if i <= n + 2 then [r] else []
  }

  function AnswersFor(n: nat, b: Binding): nat -> Reply {
    Answers(n, !Text.IsBlank(b.checkoutPath))
  }

  lemma {:induction false} FailureKeeps(b: Binding, live: set<string>, opts: Options, script: nat -> Reply, k: nat)
    requires script(k) == Reply(false, false, false)
    ensures Asked(b, live, opts, script, k) == [SignalQuery(b)]
  {
    hide SignalQuery, ReclaimAsks, Permits;
  }

  lemma {:induction false} FailuresKeep(bs: seq<Binding>, n: nat, live: set<string>, opts: Options, script: nat -> Reply)
    requires n <= |bs| && forall i: nat | i < n :: script(i) == Reply(false, false, false)
    ensures |AskedAll(bs[..n], live, opts, script, 0)| == n
    decreases n
  {
    hide Asked;
    if n > 0 {
      FailuresKeep(bs, n - 1, live, opts, script);
      AskedAllSnoc(bs, n - 1, live, opts, script, 0);
      FailureKeeps(bs[n - 1], live, opts, script, n - 1);
    }
  }

  lemma {:induction false} AskedPrefix(bs: seq<Binding>, n: nat, live: set<string>, opts: Options, script: nat -> Reply,
                                       k: nat)
    requires n <= |bs|
    ensures AskedAll(bs[..n], live, opts, script, k) <= AskedAll(bs, live, opts, script, k)
    decreases |bs| - n
  {
    hide AskedAll, Asked, StartOf;
    if n == |bs| {
      assert bs[..n] == bs;
    } else {
      AskedAllSnoc(bs, n, live, opts, script, k);
      AskedPrefix(bs, n + 1, live, opts, script, k);
    }
  }

  lemma {:induction false} HitAsks(b: Binding, live: set<string>, opts: Options, n: nat)
    requires b.workspaceId !in live && opts.apply
    ensures var of := ServiceName(b.handle);
      Asked(b, live, opts, AnswersFor(n, b), n) == [SignalQuery(b), Status(of), Remove(of)]
  {
    hide ServiceName, Text.IsBlank;
    var of, script := ServiceName(b.handle), AnswersFor(n, b);
    assert ReclaimAsks(of, script, n + 2) == [Remove(of)];
    assert IsStranded(b, live, script, n) && Permits(opts.killRunning, script(n + 1));
  }

  /** The three requests about binding n come at positions n to n + 2. */
  lemma {:induction false} HitLog(bs: seq<Binding>, n: nat, live: set<string>, opts: Options)
    requires n < |bs| && bs[n].workspaceId !in live && opts.apply
    ensures var log, of := AskedAll(bs, live, opts, AnswersFor(n, bs[n]), 0), ServiceName(bs[n].handle);
      |log| > n + 2 && log[n] == SignalQuery(bs[n]) && log[n + 1] == Status(of) && log[n + 2] == Remove(of)
  {
    hide AskedAll, Asked, ServiceName, SignalQuery, Text.IsBlank;
    var script := AnswersFor(n, bs[n]);
    FailuresKeep(bs, n, live, opts, script);
    AskedAllSnoc(bs, n, live, opts, script, 0);
    HitAsks(bs[n], live, opts, n);
    AskedPrefix(bs, n + 1, live, opts, script, 0);
  }

  lemma {:induction false} HitCoherent(log: seq<Request>, n: nat, b: Binding, r: Ref)
    requires |log| > n + 2 && Fits(r, ServiceName(b.handle))
    requires log[n] == SignalQuery(b) && log[n + 1] == Status(ServiceName(b.handle))
    requires log[n + 2] == Remove(ServiceName(b.handle))
    ensures Coherent(log, AnswersFor(n, b), 0, OneSandbox(n, r))
  {
    hide ServiceName, Text.IsBlank;
    var of := ServiceName(b.handle);
    assert Resolve([r], of) == 0;
    forall i: nat | n <= i <= n + 2 && i < |log| && !log[i].PathGone?
      ensures log[i].of == of
    {
      assert i == n || i == n + 1 || i == n + 2;
    }
  }

  /** When a stranded binding aliases a live one, answers the service can give make the sweep remove the live one's
      sandbox, and report success. */
  lemma {:induction false} AliasHits(bs: seq<Binding>, n: nat, live: set<string>, opts: Options, labelled: bool,
                                     x: Binding) returns (script: nat -> Reply, listing: nat -> seq<Ref>)
    requires opts.apply && n < |bs| && bs[n].workspaceId !in live
    requires Alias(ServiceName(bs[n].handle), ServiceName(x.handle), labelled)
    ensures labelled ==> AllLabelled(listing)
    ensures var log := AskedAll(bs, live, opts, script, 0);
      && Coherent(log, script, 0, listing)
      && |log| > n + 2 && log[n + 2] == Remove(ServiceName(bs[n].handle)) && script(n + 2).ok
      && Hits(log[n + 2], script(n + 2), listing(n + 2), x)
  {
    hide AskedAll, Text.IsBlank, SignalQuery, SplitHandle, Coherent, DefaultProject;
    var of := ServiceName(bs[n].handle);
    var r := Ref(if labelled then of.project else "", of.name);
    script, listing := AnswersFor(n, bs[n]), OneSandbox(n, r);
    HitLog(bs, n, live, opts);
    HitCoherent(AskedAll(bs, live, opts, script, 0), n, bs[n], r);
  }

  /** If the service can give these answers on these listings, a sweep from position k on spares the live. */
  ghost predicate SweepSpares(bs: seq<Binding>, all: seq<Binding>, live: set<string>, opts: Options, labelled: bool,
                              script: nat -> Reply, k: nat, listing: nat -> seq<Ref>)
  {
    var log := AskedAll(bs, live, opts, script, k);
    (labelled ==> AllLabelled(listing)) && Coherent(log, script, k, listing) ==>
      Spares(log, all, live, script, k, listing)
  }

  /** For whatever answers the service can give and whatever the listings, a sweep spares the sandbox of every live
      binding exactly when no binding it considers whose workspace is gone aliases one: by its full name if every
      sandbox carries its project, and by its simple name otherwise. */
  lemma {:induction false} SparesLiveExactly(bs: seq<Binding>, all: seq<Binding>, live: set<string>, opts: Options,
                                             labelled: bool)
    requires opts.apply
    ensures NoAlias(bs, all, live, labelled)
       <==> forall script: nat -> Reply, k: nat, listing: nat -> seq<Ref> ::
              SweepSpares(bs, all, live, opts, labelled, script, k, listing)
  {
    hide ServiceName, Alias, AllLabelled, AskedAll, Coherent, Spares;
    if NoAlias(bs, all, live, labelled) {
      forall script: nat -> Reply, k: nat, listing: nat -> seq<Ref>
        ensures SweepSpares(bs, all, live, opts, labelled, script, k, listing)
      {
        if labelled ==> AllLabelled(listing) {
          NoAliasSpares(bs, all, live, opts, labelled, script, k, listing);
        }
      }
    } else {
      var b, x :| b in bs && b.workspaceId !in live && x in all && x.workspaceId in live
                  && Alias(ServiceName(b.handle), ServiceName(x.handle), labelled);
      var n: nat :| n < |bs| && bs[n] == b;
      var script, listing := AliasHits(bs, n, live, opts, labelled, x);
      HitIsNoSparing(AskedAll(bs, live, opts, script, 0), n + 2, all, live, script, listing, x);
      assert !SweepSpares(bs, all, live, opts, labelled, script, 0, listing);
    }
  }

  lemma {:induction false} HitIsNoSparing(log: seq<Request>, i: nat, all: seq<Binding>, live: set<string>,
                                          script: nat -> Reply, listing: nat -> seq<Ref>, x: Binding)
    requires i < |log| && x in all && x.workspaceId in live && Hits(log[i], script(i), listing(i), x)
    ensures !Spares(log, all, live, script, 0, listing)
  {
    hide Hits;
    assert Hits(log[i], script(0 + i), listing(0 + i), x);
  }

  lemma {:induction false} TwoSpellings(name: string)
    requires '/' !in name
    ensures "/" + name != DefaultProject() + ("/" + name)
    ensures Alias(ServiceName("/" + name), ServiceName(DefaultProject() + ("/" + name)), true)
  {
    SpelledDefault("/" + name, name);
    SpelledDefault(DefaultProject() + ("/" + name), name);
    hide ServiceName;
    assert |"/" + name| < |DefaultProject() + ("/" + name)|;
  }

  lemma {:induction false} TwoAreUnique(b: Binding, x: Binding)
    requires b.spaceLabel != x.spaceLabel && b.handle != x.handle
    ensures Unique([b, x])
  {
  }

  /** The unique keys of the store do not prevent it: a stranded binding written "/name" and a live one written
      "herdr/name" share a sandbox, every sandbox labelled, and a sweep of the store removes it. */
  lemma {:induction false} LiveSandboxIsRemoved(name: string, gone: string, live: string, opts: Options)
    returns (bs: seq<Binding>, script: nat -> Reply, listing: nat -> seq<Ref>)
    requires '/' !in name && gone != live && opts.apply
    ensures Unique(bs) && bs == Scoped(bs, "") && |bs| == 2
    ensures bs[1].workspaceId == live && bs[1].handle == DefaultProject() + ("/" + name)
    ensures var log := AskedAll(bs, {live}, opts, script, 0);
      && AllLabelled(listing) && Coherent(log, script, 0, listing)
      && |log| > 2 && log[2].Remove? && script(2).ok && Hits(log[2], script(2), listing(2), bs[1])
  {
    hide ServiceName, AskedAll, Scoped, Coherent, Hits, Alias, DefaultProject;
    var b, x := Binding("a", gone, "/" + name, ""), Binding("b", live, DefaultProject() + ("/" + name), "");
    bs := [b, x];
    TwoSpellings(name);
    ScopedAll(bs);
    TwoAreUnique(b, x);
    script, listing := AliasHits(bs, 0, {live}, opts, true, x);
  }
}
