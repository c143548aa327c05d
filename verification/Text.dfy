/** The string helpers of Go's standard library that the modelled code calls. */
module Text {

  /** strings.LastIndex for a one-character needle; -1 when absent. */
  function LastIndex(s: string, c: char): (i: int)
    ensures -1 <= i < |s|
    ensures 0 <= i ==> s[i] == c
    ensures forall j | i < j < |s| :: s[j] != c
  {
    if s == "" then -1
    else if s[|s| - 1] == c then |s| - 1
    else LastIndex(s[..|s| - 1], c)
  }

  /** unicode.IsSpace. */
  predicate IsSpace(c: char) {
    var n := c as int;
    9 <= n <= 13 || n == 0x20 || n == 0x85 || n == 0xA0 || n == 0x1680 || 0x2000 <= n <= 0x200A
    || n == 0x2028 || n == 0x2029 || n == 0x202F || n == 0x205F || n == 0x3000
  }

  predicate IsDigit(c: char) {
    '0' <= c <= '9'
  }

  // ---- strings.Split(text, "\n") -----------------------------------------

  function IndexOf(s: string, c: char): (i: nat)
    ensures i <= |s|
    ensures i < |s| ==> s[i] == c
    ensures forall j | 0 <= j < i :: s[j] != c
  {
    if s == "" || s[0] == c then 0 else 1 + IndexOf(s[1..], c)
  }

  function Lines(s: string): seq<string>
    decreases |s|
  {
    var i := IndexOf(s, '\n');
    if i == |s| then [s] else [s[..i]] + Lines(s[i + 1..])
  }

  lemma {:induction false} LinesCons(line: string, rest: string)
    requires '\n' !in line
    ensures Lines(line + "\n" + rest) == [line] + Lines(rest)
  {
    var s := line + "\n" + rest;
    assert s[|line|] == '\n';
    assert forall j | 0 <= j < |line| :: s[j] == line[j];
    assert IndexOf(s, '\n') == |line|;
    assert s[..|line|] == line && s[|line| + 1..] == rest;
  }

  // ---- strings.Fields ----------------------------------------------------

  function WordLength(s: string): (n: nat)
    ensures n <= |s|
    ensures forall j | 0 <= j < n :: !IsSpace(s[j])
    ensures n < |s| ==> IsSpace(s[n])
  {
    if s == "" || IsSpace(s[0]) then 0 else 1 + WordLength(s[1..])
  }

  function Fields(s: string): seq<string>
    decreases |s|
  {
    if s == "" then []
    else if IsSpace(s[0]) then Fields(s[1..])
    else [s[..WordLength(s)]] + Fields(s[WordLength(s)..])
  }

  ghost predicate IsWord(w: string) {
    w != "" && forall j | 0 <= j < |w| :: !IsSpace(w[j])
  }

  lemma {:induction false} FieldsWord(w: string, rest: string)
    requires IsWord(w)
    requires rest == "" || IsSpace(rest[0])
    ensures Fields(w + rest) == [w] + Fields(rest)
  {
    var s := w + rest;
    assert forall j | 0 <= j < |w| :: s[j] == w[j];
    assert |w| < |s| ==> s[|w|] == rest[0];
    assert WordLength(s) == |w|;
    assert s[..|w|] == w && s[|w|..] == rest;
  }

  lemma {:induction false} FieldsBlanks(blanks: string, rest: string)
    requires forall j | 0 <= j < |blanks| :: IsSpace(blanks[j])
    ensures Fields(blanks + rest) == Fields(rest)
  {
    if blanks == "" {
      assert blanks + rest == rest;
    } else {
      assert (blanks + rest)[1..] == blanks[1..] + rest;
      FieldsBlanks(blanks[1..], rest);
    }
  }

  /** strings.TrimSpace(s) == "" exactly when s is all white space. */
  predicate IsBlank(s: string) {
    forall j | 0 <= j < |s| :: IsSpace(s[j])
  }

  // ---- fmt.Sprintf("%d", n) ------------------------------------------------

  function Digit(d: int): (c: char)
    requires 0 <= d < 10
    ensures IsDigit(c)
  {
    '0' + d as char
  }

  function Decimal(n: nat): (s: string)
    ensures s != "" && forall j | 0 <= j < |s| :: IsDigit(s[j])
  {
    if n < 10 then [Digit(n)] else Decimal(n / 10) + [Digit(n % 10)]
  }
}
