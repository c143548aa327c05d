/** How internal/core/portfwd/forward.go decides from the output of ss or netstat whether a local port is listening. */
module PortMatch {

  import Text

  type Port = n: int | 0 <= n < 0x1_0000

  // ---- strings.Index ---------------------------------------------------------------

  /** needle stands at position i of s. */
  predicate At(s: string, i: int, needle: string) {
    0 <= i <= |s| - |needle| && s[i..i + |needle|] == needle
  }

  /** strings.Index: the first position of needle, or -1. */
  function Index(s: string, needle: string): (i: int)
    ensures -1 <= i
  {
    if At(s, 0, needle) then 0
    else if s == "" then -1
    else if Index(s[1..], needle) < 0 then -1
    else Index(s[1..], needle) + 1
  }

  lemma {:induction false} IndexIsFirst(s: string, needle: string)
    ensures Index(s, needle) >= 0 ==> At(s, Index(s, needle), needle)
    ensures Index(s, needle) < 0 ==> forall j :: !At(s, j, needle)
    ensures forall j | j < Index(s, needle) :: !At(s, j, needle)
  {
    if !At(s, 0, needle) && s != "" {
      IndexIsFirst(s[1..], needle);
      AtShift(s, needle);
      var i, rest := Index(s, needle), Index(s[1..], needle);
      hide At, Index;
      forall j | j > 0 && (rest < 0 || j <= rest)
        ensures !At(s, j, needle)
      {
        assert At(s, j, needle) <==> At(s[1..], j - 1, needle);
      }
      NegativeNotAt(s, needle);
      if rest >= 0 {
        assert At(s, rest + 1, needle) <==> At(s[1..], rest + 1 - 1, needle);
      }
    } else {
      NegativeNotAt(s, needle);
    }
  }

  lemma {:induction false} NegativeNotAt(s: string, needle: string)
    ensures forall j | j < 0 :: !At(s, j, needle)
  {
  }

  lemma {:induction false} AtShift(s: string, needle: string)
    requires s != ""
    ensures forall j | j > 0 :: At(s, j, needle) <==> At(s[1..], j - 1, needle)
  {
    forall j | j > 0
      ensures At(s, j, needle) <==> At(s[1..], j - 1, needle)
    {
      AtDrop(s, 1, needle, j - 1);
    }
  }

  lemma {:induction false} AtDrop(s: string, start: nat, needle: string, j: int)
    requires start <= |s| && j >= 0
    ensures At(s[start..], j, needle) <==> At(s, start + j, needle)
  {
    if start + j <= |s| - |needle| {
      assert s[start..][j..j + |needle|] == s[start + j..start + j + |needle|];
    }
  }

  /** What Index finds from a position on. */
  lemma {:induction false} NextAt(line: string, start: nat, needle: string)
    requires start <= |line|
    ensures var idx := Index(line[start..], needle);
      if idx < 0 then forall i | i >= start :: !At(line, i, needle)
      else At(line, start + idx, needle) && forall i | start <= i < start + idx :: !At(line, i, needle)
  {
    IndexIsFirst(line[start..], needle);
    var idx := Index(line[start..], needle);
    if idx >= 0 {
      AtDrop(line, start, needle, idx);
    }
    forall i | i >= start
      ensures At(line, i, needle) <==> At(line[start..], i - start, needle)
    {
      AtDrop(line, start, needle, i - start);
    }
    hide At, Index;
  }

  // ---- The matchers ----------------------------------------------------------------

  /** needle stands at i and no digit follows it. */
  predicate Guarded(line: string, i: int, needle: string) {
    At(line, i, needle) && (i + |needle| == |line| || !Text.IsDigit(line[i + |needle|]))
  }

  ghost predicate Matches(line: string, needle: string) {
    exists i :: Guarded(line, i, needle)
  }

  /** No digit stands at this position. */
  predicate EndsAt(line: string, after: int)
    requires 0 <= after <= |line|
  {
    after == |line| || line[after] < '0' || line[after] > '9'
  }

  ghost predicate NoneBefore(line: string, start: int, needle: string) {
    forall i | i < start :: !Guarded(line, i, needle)
  }

  /** One turn of the search. */
  lemma {:induction false} SearchStep(line: string, start: nat, needle: string, idx: int)
    requires start <= |line| && NoneBefore(line, start, needle) && idx == Index(line[start..], needle)
    ensures idx < 0 ==> !Matches(line, needle)
    ensures idx >= 0 ==> start + idx + |needle| <= |line|
    ensures idx >= 0 ==> (Guarded(line, start + idx, needle) <==> EndsAt(line, start + idx + |needle|))
    ensures idx >= 0 && !Guarded(line, start + idx, needle) ==> NoneBefore(line, start + idx + 1, needle)
  {
    NextAt(line, start, needle);
    hide Index;
    if idx < 0 {
      forall i
        ensures !Guarded(line, i, needle)
      {
        assert i < start ==> !Guarded(line, i, needle);
      }
    }
  }

  lemma {:induction false} NoneAtAll(line: string, start: nat, needle: string)
    requires start >= |line| && needle != "" && NoneBefore(line, start, needle)
    ensures !Matches(line, needle)
  {
  }

  lemma {:induction false} Found(line: string, i: int, needle: string)
    requires Guarded(line, i, needle)
    ensures Matches(line, needle)
  {
  }

  /** The search loop of both matchers: it succeeds exactly when some occurrence of the needle, overlapping ones
      included, is not followed by a digit. */
  method FindGuarded(line: string, needle: string) returns (found: bool)
    requires needle != ""
    ensures found <==> Matches(line, needle)
  {
    var start := 0;
    assert NoneBefore(line, 0, needle);
    hide NoneBefore, Guarded, Index, At, Matches;
    while start < |line|
      invariant 0 <= start <= |line|
      invariant NoneBefore(line, start, needle)
    {
      var idx := Index(line[start..], needle);
      SearchStep(line, start, needle, idx);
      if idx < 0 {
        return false;
      }
      var abs := start + idx;
      var after := abs + |needle|;
      if after >= |line| || line[after] < '0' || line[after] > '9' {
        Found(line, abs, needle);
        return true;
      }
      start := abs + 1;
    }
    NoneAtAll(line, start, needle);
    found := false;
  }

  /** fmt.Sprintf(":%d", port), or with a dot. */
  function Needle(c: char, port: Port): string {
    [c] + Text.Decimal(port)
  }

  /** matchColonPort(line, ":port"). */
  method MatchColonPort(line: string, port: Port) returns (found: bool)
    ensures found <==> Shows(line, ':', port)
  {
    GuardedExactly(line, ':', port);
    found := FindGuarded(line, Needle(':', port));
  }

  /** matchDotPort(line, ".port"): the netstat form, which counts on listening lines only. */
  method MatchDotPort(line: string, port: Port) returns (found: bool)
    ensures found <==> LastFieldIsListen(line) && Shows(line, '.', port)
  {
    if !LastFieldIsListen(line) {
      return false;
    }
    hide LastFieldIsListen;
    GuardedExactly(line, '.', port);
    found := FindGuarded(line, Needle('.', port));
  }

  predicate LastFieldIsListen(line: string) {
    var fields := Text.Fields(line);
    |fields| > 0 && fields[|fields| - 1] == "LISTEN"
  }

  predicate LineShows(line: string, port: Port) {
    (LastFieldIsListen(line) && Shows(line, '.', port)) || Shows(line, ':', port)
  }

  predicate AnyLineShows(output: string, port: Port) {
    exists line | line in Text.Lines(output) :: LineShows(line, port)
  }

  /** portInOutput(output, port). */
  method PortInOutput(output: string, port: Port) returns (found: bool)
    ensures found <==> AnyLineShows(output, port)
  {
    var lines := Text.Lines(output);
    hide Text.Lines, Shows, LastFieldIsListen;
    for k := 0 to |lines|
      invariant forall j | 0 <= j < k :: !LineShows(lines[j], port)
    {
      var dot := MatchDotPort(lines[k], port);
      assert dot ==> LineShows(lines[k], port);
      if dot {
        return true;
      }
      var colon := MatchColonPort(lines[k], port);
      assert colon ==> LineShows(lines[k], port);
      if colon {
        return true;
      }
    }
    found := false;
  }

  // ---- What a match means ----------------------------------------------------------

  /** The digits that start s, as many as there are. */
  function DigitRun(s: string): (r: string)
    ensures |r| <= |s| && r == s[..|r|]
    ensures forall j | 0 <= j < |r| :: Text.IsDigit(r[j])
    ensures |r| < |s| ==> !Text.IsDigit(s[|r|])
  {
    if s == "" || !Text.IsDigit(s[0]) then "" else [s[0]] + DigitRun(s[1..])
  }

  /** The character c at i introduces a numeral, read to its last digit, that is the port written in decimal. */
  predicate ShowsAt(line: string, i: int, c: char, port: Port) {
    0 <= i < |line| && line[i] == c && DigitRun(line[i + 1..]) == Text.Decimal(port)
  }

  predicate Shows(line: string, c: char, port: Port) {
    exists i | 0 <= i < |line| :: ShowsAt(line, i, c, port)
  }

  lemma {:induction false} RunIsUnique(s: string, digits: string)
    requires forall j | 0 <= j < |digits| :: Text.IsDigit(digits[j])
    ensures DigitRun(s) == digits
       <==> digits <= s && (|digits| == |s| || !Text.IsDigit(s[|digits|]))
  {
    var r := DigitRun(s);
    if digits <= s {
      assert forall j | 0 <= j < |digits| :: digits[j] == s[j];
    }
  }

  lemma {:induction false} GuardedAtExactly(line: string, i: int, c: char, digits: string)
    requires forall j | 0 <= j < |digits| :: Text.IsDigit(digits[j])
    ensures Guarded(line, i, [c] + digits)
       <==> 0 <= i < |line| && line[i] == c && DigitRun(line[i + 1..]) == digits
  {
    if 0 <= i < |line| {
      var rest := line[i + 1..];
      RunIsUnique(rest, digits);
      var n := |digits|;
      if n <= |rest| {
        assert line[i..i + 1 + n] == [line[i]] + rest[..n];
        assert line[i..i + 1 + n][1..] == rest[..n] && ([c] + digits)[1..] == digits;
        assert n < |rest| ==> rest[n] == line[i + 1 + n];
      }
    }
  }

  /** The digit guard makes the search exact: an occurrence that passes it is a whole numeral, equal to the port. */
  lemma {:induction false} GuardedExactly(line: string, c: char, port: Port)
    ensures Matches(line, Needle(c, port)) <==> Shows(line, c, port)
  {
    forall i
      ensures Guarded(line, i, Needle(c, port)) <==> ShowsAt(line, i, c, port)
    {
      GuardedAtExactly(line, i, c, Text.Decimal(port));
    }
    if Shows(line, c, port) {
      var i :| 0 <= i < |line| && ShowsAt(line, i, c, port);
      assert Guarded(line, i, Needle(c, port));
    }
  }

  function Numeral(s: string): nat
    requires forall j | 0 <= j < |s| :: Text.IsDigit(s[j])
  {
    if s == "" then 0
    else
      assert Text.IsDigit(s[|s| - 1]);
      10 * Numeral(s[..|s| - 1]) + (s[|s| - 1] as int - '0' as int)
  }

  lemma {:induction false} DecimalRoundTrip(n: nat)
    ensures Numeral(Text.Decimal(n)) == n
  {
    if n < 10 {
      assert [Text.Digit(n)][..0] == "";
    } else {
      DecimalRoundTrip(n / 10);
      var s := Text.Decimal(n);
      assert s[..|s| - 1] == Text.Decimal(n / 10);
    }
  }

  /** One place in a line shows one port at most. */
  lemma {:induction false} PortIsReadOff(line: string, i: int, c: char, p: Port, q: Port)
    requires ShowsAt(line, i, c, p) && ShowsAt(line, i, c, q)
    ensures p == q == Numeral(DigitRun(line[i + 1..]))
  {
    DecimalRoundTrip(p);
    DecimalRoundTrip(q);
  }
}
