/** Admission decides on the memory committed before a create, and several creators may stand between the two.
    This bounds by how much they can overshoot the budget together, and shows that the bound is reached. */
module Overshoot {
  import A = Admission

  /** Sizes of the existing sandboxes, and sizes admitted but not yet created. */
  datatype State = State(existing: seq<nat>, admitted: seq<nat>)

  /** A fixed budget, at most k creators between admission and creation, and a largest request. */
  datatype Limits = Limits(budget: A.Uint32, k: nat, largest: A.Uint32)

  function Sum(s: seq<nat>): nat {
    if s == [] then 0 else Sum(s[..|s| - 1]) + s[|s| - 1]
  }

  function Without(s: seq<nat>, i: nat): seq<nat>
    requires i < |s|
  {
    s[..i] + s[i + 1..]
  }

  /** One request passes admission, which reads the committed total atomically. */
  ghost predicate Admits(l: Limits, s: State, request: A.Uint32, s': State) {
    && |s.admitted| < l.k
    && request <= l.largest
    && A.Decide(l.budget, A.Saturated(Sum(s.existing)), request).Ok?
    && s' == s.(admitted := s.admitted + [request])
  }

  ghost predicate Creates(s: State, i: nat, s': State) {
    i < |s.admitted| && s' == State(s.existing + [s.admitted[i]], Without(s.admitted, i))
  }

  /** A creator fails or dies after admission, or a sandbox is removed. */
  ghost predicate Drops(s: State, i: nat, s': State) {
    || (i < |s.admitted| && s' == s.(admitted := Without(s.admitted, i)))
    || (i < |s.existing| && s' == s.(existing := Without(s.existing, i)))
  }

  ghost predicate Next(l: Limits, s: State, s': State) {
    || (exists request :: Admits(l, s, request, s'))
    || (exists i: nat :: Creates(s, i, s'))
    || (exists i: nat :: Drops(s, i, s'))
  }

  function Bound(l: Limits): int {
    l.budget + (l.k - 1) * l.largest
  }

  ghost predicate Run(l: Limits, run: seq<State>) {
    && run != []
    && Sum(run[0].existing) <= Bound(l) && run[0].admitted == []
    && forall i | 0 <= i < |run| - 1 :: Next(l, run[i], run[i + 1])
  }

  ghost predicate Inv(l: Limits, s: State) {
    && |s.admitted| <= l.k
    && (forall r | r in s.admitted :: r <= l.largest)
    && Sum(s.existing) + Sum(s.admitted) <= Bound(l)
  }

  lemma {:induction false} SumAppend(s: seq<nat>, x: nat)
    ensures Sum(s + [x]) == Sum(s) + x
  {
    assert (s + [x])[..|s|] == s;
  }

  lemma {:induction false} SumWithout(s: seq<nat>, i: nat)
    requires i < |s|
    ensures Sum(Without(s, i)) == Sum(s) - s[i]
  {
    var n := |s| - 1;
    if i == n {
      assert Without(s, i) == s[..n];
    } else {
      SumWithout(s[..n], i);
      assert Without(s, i) == Without(s[..n], i) + [s[n]];
      SumAppend(Without(s[..n], i), s[n]);
    }
  }

  lemma {:induction false} MulStep(n: nat, m: nat)
    ensures (n + 1) * m == n * m + m
  {
  }

  lemma {:induction false} SumAtMost(s: seq<nat>, m: nat)
    requires forall r | r in s :: r <= m
    ensures Sum(s) <= |s| * m
  {
    if s != [] {
      var n := |s| - 1;
      assert forall r | r in s[..n] :: r in s;
      assert s[n] in s;
      SumAtMost(s[..n], m);
      MulStep(n, m);
      assert Sum(s) <= n * m + m;
    }
  }

  lemma {:induction false} MulGrows(a: nat, b: nat, m: nat)
    requires a <= b
    ensures a * m <= b * m
  {
  }

  lemma {:induction false} AdmitKeepsInv(l: Limits, s: State, request: A.Uint32, s': State)
    requires Inv(l, s) && Admits(l, s, request, s')
    ensures Inv(l, s')
  {
    SumAppend(s.admitted, request);
    SumAtMost(s.admitted, l.largest);
    MulGrows(|s.admitted|, l.k - 1, l.largest);
  }

  lemma {:induction false} WithoutSubset(s: seq<nat>, i: nat)
    requires i < |s|
    ensures forall r | r in Without(s, i) :: r in s
  {
  }

  lemma {:induction false} CreateKeepsInv(l: Limits, s: State, i: nat, s': State)
    requires Inv(l, s) && Creates(s, i, s')
    ensures Inv(l, s')
  {
    SumAppend(s.existing, s.admitted[i]);
    SumWithout(s.admitted, i);
    WithoutSubset(s.admitted, i);
  }

  lemma {:induction false} DropKeepsInv(l: Limits, s: State, i: nat, s': State)
    requires Inv(l, s) && Drops(s, i, s')
    ensures Inv(l, s')
  {
    if i < |s.admitted| && s' == s.(admitted := Without(s.admitted, i)) {
      SumWithout(s.admitted, i);
      WithoutSubset(s.admitted, i);
    } else {
      SumWithout(s.existing, i);
    }
  }

  lemma {:induction false} NextKeepsInv(l: Limits, s: State, s': State)
    requires Inv(l, s) && Next(l, s, s')
    ensures Inv(l, s')
  {
    hide Inv, Admits, Creates, Drops;
    if request :| Admits(l, s, request, s') {
      AdmitKeepsInv(l, s, request, s');
    } else if i: nat :| Creates(s, i, s') {
      CreateKeepsInv(l, s, i, s');
    } else {
      var i: nat :| Drops(s, i, s');
      DropKeepsInv(l, s, i, s');
    }
  }

  /** In no reachable state is more than budget + (k - 1) * largest committed; with one creator at a time the budget
      itself is never exceeded. */
  lemma {:induction false} OvershootBounded(l: Limits, run: seq<State>, i: nat)
    requires Run(l, run) && i < |run|
    ensures Inv(l, run[i]) && Sum(run[i].existing) <= Bound(l)
    ensures l.k == 1 ==> Sum(run[i].existing) <= l.budget
  {
    RunKeepsInv(l, run, i);
    SumsAreNatural(run[i].admitted);
  }

  lemma {:induction false} SumsAreNatural(s: seq<nat>)
    ensures Sum(s) >= 0
  {
  }

  lemma {:induction false} RunKeepsInv(l: Limits, run: seq<State>, i: nat)
    requires Run(l, run) && i < |run|
    ensures Inv(l, run[i])
  {
    hide Run, Inv, Next;
    if i == 0 {
      RunStarts(l, run);
    } else {
      RunKeepsInv(l, run, i - 1);
      RunSteps(l, run, i - 1);
      NextKeepsInv(l, run[i - 1], run[i]);
    }
  }

  lemma {:induction false} RunStarts(l: Limits, run: seq<State>)
    requires Run(l, run)
    ensures Inv(l, run[0])
  {
  }

  lemma {:induction false} RunSteps(l: Limits, run: seq<State>, i: nat)
    requires Run(l, run) && i + 1 < |run|
    ensures Next(l, run[i], run[i + 1])
  {
    hide Next;
  }

  // ---- The bound is reached ------------------------------------------------------

  function Copies(n: nat, x: nat): (s: seq<nat>)
    ensures |s| == n
  {
    if n == 0 then [] else Copies(n - 1, x) + [x]
  }

  lemma {:induction false} SumCopies(n: nat, x: nat)
    ensures Sum(Copies(n, x)) == n * x
  {
    if n > 0 {
      SumCopies(n - 1, x);
      SumAppend(Copies(n - 1, x), x);
      hide Sum;
      MulStep(n - 1, x);
    }
  }

  /** All k creators are admitted on the same total before the first of them creates. */
  lemma {:induction false} AdmitAll(l: Limits, n: nat) returns (run: seq<State>)
    requires 0 < l.largest <= l.budget && n <= l.k
    ensures Run(l, run) && run[|run| - 1] == State([l.budget - l.largest], Copies(n, l.largest))
  {
    var start := [l.budget - l.largest];
    SumAppend([], l.budget - l.largest);
    assert [] + start == start;
    if n == 0 {
      run := [State(start, [])];
      if l.k == 0 {
        assert Bound(l) == l.budget - l.largest;
      } else {
        MulGrows(0, l.k - 1, l.largest);
      }
    } else {
      run := AdmitAll(l, n - 1);
      var last := run[|run| - 1];
      var s' := State(start, Copies(n, l.largest));
      assert Admits(l, last, l.largest, s');
      run := run + [s'];
    }
  }

  lemma {:induction false} CreateAll(l: Limits, n: nat) returns (run: seq<State>)
    requires 0 < l.largest <= l.budget && n <= l.k
    ensures Run(l, run)
    ensures run[|run| - 1] == State([l.budget - l.largest] + Copies(n, l.largest), Copies(l.k - n, l.largest))
  {
    if n == 0 {
      run := AdmitAll(l, l.k);
      assert [l.budget - l.largest] + [] == [l.budget - l.largest];
    } else {
      run := CreateAll(l, n - 1);
      var last := run[|run| - 1];
      var left := l.k - n;
      assert Copies(left + 1, l.largest) == Copies(left, l.largest) + [l.largest];
      assert Without(last.admitted, left) == Copies(left, l.largest);
      var s' := State([l.budget - l.largest] + Copies(n, l.largest), Copies(left, l.largest));
      assert last.existing + [l.largest] == s'.existing;
      assert Creates(last, left, s');
      run := run + [s'];
    }
  }

  /** For every budget, largest request within it and number of creators, some run commits exactly the bound. */
  lemma {:induction false} BoundReached(l: Limits) returns (run: seq<State>)
    requires 0 < l.largest <= l.budget
    ensures Run(l, run) && Sum(run[|run| - 1].existing) == Bound(l)
  {
    run := CreateAll(l, l.k);
    hide Sum, Run, Copies;
    SumOfStart(l.budget - l.largest, l.k, l.largest);
    MulPred(l.k, l.largest);
  }

  lemma {:induction false} MulPred(k: nat, m: nat)
    ensures (k - 1) * m == k * m - m
  {
  }

  lemma {:induction false} SumOfStart(x: nat, n: nat, y: nat)
    ensures Sum([x] + Copies(n, y)) == x + n * y
  {
    SumCons(x, Copies(n, y));
    SumCopies(n, y);
  }

  lemma {:induction false} SumCons(x: nat, s: seq<nat>)
    ensures Sum([x] + s) == x + Sum(s)
  {
    if s == [] {
      assert [x] + s == [] + [x];
      SumAppend([], x);
    } else {
      var n := |s| - 1;
      SumCons(x, s[..n]);
      SumAppend([x] + s[..n], s[n]);
      SumAppend(s[..n], s[n]);
      hide Sum;
      assert [x] + s == [x] + s[..n] + [s[n]] && s == s[..n] + [s[n]];
    }
  }
}
