/** The reconciler with the probe it really has: every answer is what the port matcher reads off a listing of the
    sockets that listen at that moment. */
module ProbedReconcile {

  import opened PortMatch
  import opened SsListing
  import R = Reconcile

  /** A listing of ss -ltn: the column heads and the sockets. */
  datatype Listing = Listing(heads: string, sockets: seq<Socket>)

  predicate IsListing(l: Listing) {
    IsHeads(l.heads) && forall s | s in l.sockets :: IsSocket(s)
  }

  function LocalPorts(l: Listing): set<R.Port> {
    set s | s in l.sockets :: s.port
  }

  ghost predicate Answers(l: Listing, p: Port) {
    AnyLineShows(PrintListing(l.heads, l.sockets), p)
  }

  /** If the step asks the probe, and the probe works, it is answered from this listing of what listens. */
  ghost predicate Saw(s: R.State, step: R.Step, l: Listing) {
    step.FoundPresent? || step.Bind? ==>
      && IsListing(l) && LocalPorts(l) == s.listening
      && (step.FoundPresent? <==> Answers(l, step.key.port))
  }

  /** Told without the listening ports, which the program cannot see: a cancel reports failure and has closed the
      forward, or the probe is asked about a port that no socket has while the leading digits of a group of some
      IPv6 address are it. */
  ghost predicate Deceives(step: R.Step, l: Listing) {
    match step
    case Drop(_, works, closes) => !works && closes
    case ProbeFails(_) => false
    case FoundPresent(k) => k.port !in LocalPorts(l) && exists s | s in l.sockets :: Misleads(s.host, k.port)
    case Bind(k, _, _) => k.port !in LocalPorts(l) && exists s | s in l.sockets :: Misleads(s.host, k.port)
  }

  lemma {:induction false} DeceivesExactly(s: R.State, step: R.Step, l: Listing)
    requires Saw(s, step, l)
    ensures R.Misleads(s, step) <==> Deceives(step, l)
  {
    hide AnyLineShows, PrintListing, Misleads, IsHeads, IsSocket;
    if step.FoundPresent? || step.Bind? {
      ListingShowsExactly(l.heads, l.sockets, step.key.port);
    }
  }

  ghost predicate MisledAt(s: R.State, steps: seq<R.Step>, i: nat)
    requires i < |steps|
  {
    R.Misleads(R.After(s, steps[..i]), steps[i])
  }

  lemma {:induction false} MisledAtPrefix(s: R.State, steps: seq<R.Step>, n: nat, i: nat)
    requires i < n <= |steps|
    ensures MisledAt(s, steps[..n], i) <==> MisledAt(s, steps, i)
  {
    assert steps[..n][..i] == steps[..i];
  }

  lemma {:induction false} NeverMisledLast(s: R.State, steps: seq<R.Step>)
    requires steps != []
    ensures R.NeverMisled(s, steps) <==> R.NeverMisled(s, steps[..|steps| - 1]) && !MisledAt(s, steps, |steps| - 1)
  {
  }

  lemma {:induction false} NeverMisledExactly(s: R.State, steps: seq<R.Step>)
    ensures R.NeverMisled(s, steps) <==> forall i: nat | i < |steps| :: !MisledAt(s, steps, i)
    decreases |steps|
  {
    if steps != [] {
      hide MisledAt, R.NeverMisled;
      var n := |steps| - 1;
      NeverMisledExactly(s, steps[..n]);
      NeverMisledLast(s, steps);
      forall i: nat | i < n
        ensures MisledAt(s, steps[..n], i) <==> MisledAt(s, steps, i)
      {
        MisledAtPrefix(s, steps, n, i);
      }
      if R.NeverMisled(s, steps) {
        forall i: nat | i < |steps|
          ensures !MisledAt(s, steps, i)
        {
          assert i < n ==> !MisledAt(s, steps[..n], i);
        }
      }
    }
  }

  /** On every return path, with distinct desired ports and every probe answered from a listing of what listens:
      "every applied port listens, and none is applied twice" is kept exactly when no cancel that reported failure
      had closed its forward and no IPv6 address misled about a port that was probed and not listening. */
  lemma {:induction false} FaithfulOnListings(s: R.State, desired: set<R.Key>, steps: seq<R.Step>, seen: seq<Listing>)
    requires R.Faithful(s) && R.DistinctPorts(desired) && R.Run(s, desired, steps)
    requires |seen| == |steps| && forall i: nat | i < |steps| :: Saw(R.After(s, steps[..i]), steps[i], seen[i])
    ensures R.Faithful(R.After(s, steps)) <==> forall i: nat | i < |steps| :: !Deceives(steps[i], seen[i])
  {
    hide R.Faithful, R.Run, R.NeverMisled, R.Misleads, R.After, R.DistinctPorts, Saw, Deceives;
    R.FaithfulExactly(s, desired, steps);
    NeverMisledExactly(s, steps);
    forall i: nat | i < |steps|
      ensures MisledAt(s, steps, i) <==> Deceives(steps[i], seen[i])
    {
      DeceivesExactly(R.After(s, steps[..i]), steps[i], seen[i]);
    }
  }
}
