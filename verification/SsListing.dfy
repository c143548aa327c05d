/** What the port matcher of internal/core/portfwd/forward.go makes of a listing that ss -ltn prints: exactly when its
    answer is the truth about the listening sockets. */
module SsListing {

  import opened PortMatch
  import Seqs
  import Text

  // ---- The listing -------------------------------------------------------------------

  /** A local address as printed: without colons (an IPv4 address or a star, perhaps with an interface), or an IPv6
      address in brackets, given by its groups, which are empty where "::" stands, and an interface. */
  datatype Host = Plain(text: string) | Bracketed(groups: seq<string>, scope: string)

  /** One socket. The queues are the columns before its local address; the peer is "0.0.0.0:*", "[::]:*" or "*:*". */
  datatype Socket = Socket(queues: string, host: Host, port: Port, gap: string, peer: string, padding: string)

  predicate IsHost(h: Host) {
    match h
    case Plain(text) => ':' !in text && '\n' !in text
    case Bracketed(groups, scope) =>
      && (forall g | g in groups :: ':' !in g && '\n' !in g)
      && ':' !in scope && '\n' !in scope
  }

  /** A colon is never followed by a digit. */
  predicate NoNumeral(s: string) {
    forall i | 0 <= i < |s| - 1 && s[i] == ':' :: !Text.IsDigit(s[i + 1])
  }

  predicate IsSocket(s: Socket) {
    && ':' !in s.queues && '\n' !in s.queues && IsHost(s.host)
    && s.gap != "" && Text.IsBlank(s.gap) && '\n' !in s.gap && Text.IsBlank(s.padding) && '\n' !in s.padding
    && s.peer in {"0.0.0.0:*", "[::]:*", "*:*"}
  }

  function Joined(groups: seq<string>): string {
    if groups == [] then "" else if |groups| == 1 then groups[0] else groups[0] + (":" + Joined(groups[1..]))
  }

  function PrintHost(h: Host): string {
    match h
    case Plain(text) => text
    case Bracketed(groups, scope) => "[" + (Joined(groups) + ("]" + scope))
  }

  function PrintRest(s: Socket): string {
    s.gap + (s.peer + s.padding)
  }

  function PrintSocket(s: Socket): string {
    s.queues + (PrintHost(s.host) + (":" + Text.Decimal(s.port) + PrintRest(s)))
  }

  function PrintSockets(sockets: seq<Socket>): string {
    if sockets == [] then "" else PrintSocket(sockets[0]) + ("\n" + PrintSockets(sockets[1..]))
  }

  /** The column heads, as any line that shows no port, and the sockets. */
  function PrintListing(heads: string, sockets: seq<Socket>): string {
    heads + ("\n" + PrintSockets(sockets))
  }

  predicate IsHeads(heads: string) {
    '\n' !in heads && NoNumeral(heads) && !LastFieldIsListen(heads)
  }

  // ---- Numerals and pieces of a line -------------------------------------------------

  predicate StartsApart(s: string) {
    s == "" || !Text.IsDigit(s[0])
  }

  lemma {:induction false} RunOfAppend(a: string, b: string)
    requires StartsApart(b)
    ensures DigitRun(a + b) == DigitRun(a)
  {
    var r := DigitRun(a);
    assert (a + b)[..|r|] == a[..|r|];
    assert |r| < |a| ==> (a + b)[|r|] == a[|r|];
    RunIsUnique(a + b, r);
  }

  lemma {:induction false} ShowsAtHead(a: string, b: string, i: nat, c: char, p: Port)
    requires StartsApart(b) && i < |a|
    ensures ShowsAt(a + b, i, c, p) <==> ShowsAt(a, i, c, p)
  {
    assert (a + b)[i + 1..] == a[i + 1..] + b;
    RunOfAppend(a[i + 1..], b);
  }

  lemma {:induction false} ShowsAtTail(a: string, b: string, i: nat, c: char, p: Port)
    requires i < |b|
    ensures ShowsAt(a + b, |a| + i, c, p) <==> ShowsAt(b, i, c, p)
  {
    assert (a + b)[|a| + i + 1..] == b[i + 1..];
  }

  /** What a piece shows, the whole shows. */
  lemma {:induction false} ShowsInTail(a: string, b: string, c: char, p: Port)
    requires Shows(b, c, p)
    ensures Shows(a + b, c, p)
  {
    var i: nat :| i < |b| && ShowsAt(b, i, c, p);
    ShowsAtTail(a, b, i, c, p);
  }

  lemma {:induction false} ShowsInHead(a: string, b: string, c: char, p: Port)
    requires StartsApart(b) && Shows(a, c, p)
    ensures Shows(a + b, c, p)
  {
    var i: nat :| i < |a| && ShowsAt(a, i, c, p);
    ShowsAtHead(a, b, i, c, p);
  }

  /** Pieces that no numeral straddles show what either shows. */
  lemma {:induction false} ShowsAppend(a: string, b: string, c: char, p: Port)
    requires StartsApart(b)
    ensures Shows(a + b, c, p) <==> Shows(a, c, p) || Shows(b, c, p)
  {
    hide ShowsAt;
    if Shows(a, c, p) {
      ShowsInHead(a, b, c, p);
    }
    if Shows(b, c, p) {
      ShowsInTail(a, b, c, p);
    }
    if i: nat :| i < |a + b| && ShowsAt(a + b, i, c, p) {
      if i < |a| {
        ShowsAtHead(a, b, i, c, p);
      } else {
        ShowsAtTail(a, b, i - |a|, c, p);
      }
    }
  }

  lemma {:induction false} ShowsShift(a: string, b: string, c: char, p: Port)
    requires c !in a
    ensures Shows(a + b, c, p) <==> Shows(b, c, p)
  {
    if Shows(b, c, p) {
      ShowsInTail(a, b, c, p);
    }
    if i: nat :| i < |a + b| && ShowsAt(a + b, i, c, p) {
      assert forall j | 0 <= j < |a| :: a[j] in a && (a + b)[j] == a[j];
      ShowsAtTail(a, b, i - |a|, c, p);
    }
  }

  lemma {:induction false} NoNumeralShowsNothing(s: string, p: Port)
    requires NoNumeral(s)
    ensures !Shows(s, ':', p)
  {
    forall i | 0 <= i < |s|
      ensures !ShowsAt(s, i, ':', p)
    {
      if s[i] == ':' {
        RunIsUnique(s[i + 1..], "");
      }
    }
  }

  lemma {:induction false} DecimalRun(n: nat)
    ensures DigitRun(Text.Decimal(n)) == Text.Decimal(n)
  {
    RunIsUnique(Text.Decimal(n), Text.Decimal(n));
  }

  lemma {:induction false} SamePort(p: Port, q: Port)
    ensures Text.Decimal(p) == Text.Decimal(q) <==> p == q
  {
    DecimalRoundTrip(p);
    DecimalRoundTrip(q);
  }

  /** A colon and what follows it. */
  lemma {:induction false} ShowsColon(s: string, p: Port)
    ensures Shows(":" + s, ':', p) <==> DigitRun(s) == Text.Decimal(p) || Shows(s, ':', p)
  {
    assert (":" + s)[1..] == s;
    assert ShowsAt(":" + s, 0, ':', p) <==> DigitRun(s) == Text.Decimal(p);
    if Shows(s, ':', p) {
      ShowsInTail(":", s, ':', p);
    }
    if i: nat :| i < |":" + s| && ShowsAt(":" + s, i, ':', p) {
      if i > 0 {
        ShowsAtTail(":", s, i - 1, ':', p);
      }
    }
  }

  lemma {:induction false} ShowsNothing(s: string, p: Port)
    requires ':' !in s
    ensures !Shows(s, ':', p)
  {
  }

  lemma {:induction false} ShowsPort(q: Port, p: Port)
    ensures Shows(":" + Text.Decimal(q), ':', p) <==> p == q
  {
    ShowsColon(Text.Decimal(q), p);
    DecimalRun(q);
    SamePort(p, q);
    assert ':' !in Text.Decimal(q);
    ShowsNothing(Text.Decimal(q), p);
  }

  // ---- Addresses ---------------------------------------------------------------------

  /** The leading digits of some group after the first are the port. */
  predicate GroupShows(groups: seq<string>, p: Port) {
    exists j | 1 <= j < |groups| :: DigitRun(groups[j]) == Text.Decimal(p)
  }

  predicate Misleads(h: Host, p: Port) {
    h.Bracketed? && GroupShows(h.groups, p)
  }

  lemma {:induction false} GroupShowsTail(groups: seq<string>, p: Port)
    requires |groups| > 1
    ensures GroupShows(groups, p) <==> DigitRun(groups[1]) == Text.Decimal(p) || GroupShows(groups[1..], p)
  {
    var rest := groups[1..];
    hide DigitRun, Text.Decimal;
    if j :| 1 <= j < |groups| && DigitRun(groups[j]) == Text.Decimal(p) {
      assert j > 1 ==> rest[j - 1] == groups[j];
    }
    if j :| 1 <= j < |rest| && DigitRun(rest[j]) == Text.Decimal(p) {
      assert rest[j] == groups[j + 1];
    }
  }

  lemma {:induction false} JoinedShows(groups: seq<string>, p: Port)
    requires forall g | g in groups :: ':' !in g
    ensures Shows(Joined(groups), ':', p) <==> GroupShows(groups, p)
  {
    if |groups| <= 1 {
      ShowsNothing(Joined(groups), p);
    } else {
      var rest := groups[1..];
      JoinedShows(rest, p);
      JoinedRun(rest);
      GroupShowsTail(groups, p);
      hide Shows, GroupShows, DigitRun, Text.Decimal;
      ShowsShift(groups[0], ":" + Joined(rest), ':', p);
      ShowsColon(Joined(rest), p);
    }
  }

  lemma {:induction false} JoinedRun(groups: seq<string>)
    requires groups != []
    ensures DigitRun(Joined(groups)) == DigitRun(groups[0])
  {
    if |groups| > 1 {
      RunOfAppend(groups[0], ":" + Joined(groups[1..]));
    }
  }

  lemma {:induction false} HostShows(h: Host, p: Port)
    requires IsHost(h)
    ensures Shows(PrintHost(h), ':', p) <==> Misleads(h, p)
  {
    match h
    case Plain(text) => ShowsNothing(text, p);
    case Bracketed(groups, scope) =>
      JoinedShows(groups, p);
      ShowsNothing("]" + scope, p);
      hide Shows, GroupShows, Joined;
      ShowsAppend(Joined(groups), "]" + scope, ':', p);
      ShowsShift("[", Joined(groups) + ("]" + scope), ':', p);
  }

  // ---- Rows --------------------------------------------------------------------------

  lemma {:induction false} RestShowsNothing(s: Socket, p: Port)
    requires IsSocket(s)
    ensures StartsApart(PrintRest(s)) && !Shows(PrintRest(s), ':', p)
  {
    assert s.gap[0] == PrintRest(s)[0] && Text.IsSpace(s.gap[0]);
    BlankHasNoColon(s.gap);
    BlankHasNoColon(s.padding);
    assert NoNumeral(s.peer) && StartsApart(s.padding);
    NoNumeralShowsNothing(s.peer, p);
    ShowsNothing(s.padding, p);
    hide Shows, NoNumeral;
    ShowsAppend(s.peer, s.padding, ':', p);
    ShowsShift(s.gap, s.peer + s.padding, ':', p);
  }

  lemma {:induction false} BlankHasNoColon(s: string)
    requires Text.IsBlank(s)
    ensures ':' !in s && StartsApart(s)
  {
  }

  lemma {:induction false} SocketShows(s: Socket, p: Port)
    requires IsSocket(s)
    ensures Shows(PrintSocket(s), ':', p) <==> s.port == p || Misleads(s.host, p)
  {
    var digits, rest := ":" + Text.Decimal(s.port), PrintRest(s);
    RestShowsNothing(s, p);
    ShowsPort(s.port, p);
    HostShows(s.host, p);
    assert StartsApart(digits + rest);
    hide Shows, PrintRest, PrintHost, Text.Decimal, Misleads;
    ShowsAppend(digits, rest, ':', p);
    ShowsAppend(PrintHost(s.host), digits + rest, ':', p);
    ShowsShift(s.queues, PrintHost(s.host) + (digits + rest), ':', p);
  }

  /** Words before a blank stay what they are. */
  lemma {:induction false} FieldsAppend(s: string, rest: string)
    requires rest == "" || Text.IsSpace(rest[0])
    ensures Text.Fields(s + rest) == Text.Fields(s) + Text.Fields(rest)
    decreases |s|
  {
    hide Text.Fields, Text.WordLength, Text.IsWord, Text.IsSpace;
    if s == "" {
      NoFields();
      assert s + rest == rest && [] + Text.Fields(rest) == Text.Fields(rest);
    } else if Text.IsSpace(s[0]) {
      assert (s + rest)[0] == s[0] && (s + rest)[1..] == s[1..] + rest;
      SkipBlank(s);
      SkipBlank(s + rest);
      FieldsAppend(s[1..], rest);
    } else {
      var n := Text.WordLength(s);
      var word, tail := s[..n], s[n..];
      FirstWord(s);
      FieldsAppend(tail, rest);
      Text.FieldsWord(word, tail);
      StartsBlank(tail, rest);
      Text.FieldsWord(word, tail + rest);
      Seqs.AppendAssoc(word, tail, rest);
      Seqs.AppendAssoc([word], Text.Fields(tail), Text.Fields(rest));
    }
  }

  lemma {:induction false} NoFields()
    ensures Text.Fields("") == []
  {
  }

  lemma {:induction false} SkipBlank(s: string)
    requires s != "" && Text.IsSpace(s[0])
    ensures Text.Fields(s) == Text.Fields(s[1..])
  {
  }

  lemma {:induction false} FirstWord(s: string)
    requires s != "" && !Text.IsSpace(s[0])
    ensures var n := Text.WordLength(s);
      && 0 < n <= |s| && s == s[..n] + s[n..] && Text.IsWord(s[..n])
      && (s[n..] == "" || Text.IsSpace(s[n..][0]))
  {
    hide Text.IsSpace;
  }

  lemma {:induction false} StartsBlank(tail: string, rest: string)
    requires (tail == "" || Text.IsSpace(tail[0])) && (rest == "" || Text.IsSpace(rest[0]))
    ensures tail + rest == "" || Text.IsSpace((tail + rest)[0])
  {
  }

  lemma {:induction false} RestFields(s: Socket)
    requires IsSocket(s)
    ensures Text.Fields(PrintRest(s)) == [s.peer]
  {
    PeerIsWord(s.peer);
    hide Text.IsWord;
    assert Text.Fields("") == [];
    hide Text.Fields, Text.IsSpace;
    Text.FieldsBlanks(s.gap, s.peer + s.padding);
    Text.FieldsBlanks(s.padding, "");
    assert s.padding + "" == s.padding;
    BlankStarts(s.padding);
    Text.FieldsWord(s.peer, s.padding);
    assert [s.peer] + [] == [s.peer];
  }

  lemma {:induction false} PeerIsWord(peer: string)
    requires peer in {"0.0.0.0:*", "[::]:*", "*:*"}
    ensures Text.IsWord(peer)
  {
  }

  lemma {:induction false} BlankStarts(s: string)
    requires Text.IsBlank(s)
    ensures s == "" || Text.IsSpace(s[0])
  {
  }

  lemma {:induction false} RestStartsBlank(s: Socket)
    requires IsSocket(s)
    ensures PrintRest(s) != "" && Text.IsSpace(PrintRest(s)[0])
  {
    assert PrintRest(s)[0] == s.gap[0];
  }

  /** The last word of a row is its peer, never "LISTEN". */
  lemma {:induction false} LastFieldIsPeer(s: Socket)
    requires IsSocket(s)
    ensures !LastFieldIsListen(PrintSocket(s))
  {
    var digits, rest := ":" + Text.Decimal(s.port), PrintRest(s);
    var front := s.queues + (PrintHost(s.host) + digits);
    RestFields(s);
    RestStartsBlank(s);
    assert s.peer != "LISTEN";
    hide Text.Fields, PrintHost, Text.Decimal, PrintRest, Text.IsBlank;
    Seqs.AppendAssoc(PrintHost(s.host), digits, rest);
    Seqs.AppendAssoc(s.queues, PrintHost(s.host) + digits, rest);
    FieldsAppend(front, rest);
  }

  // ---- The whole listing -------------------------------------------------------------

  lemma {:induction false} SocketIsOneLine(s: Socket)
    requires IsSocket(s)
    ensures '\n' !in PrintSocket(s)
  {
    if s.host.Bracketed? {
      JoinedIsOneLine(s.host.groups);
    }
    assert '\n' !in PrintHost(s.host);
    hide PrintHost, Text.Decimal;
    assert forall j | 0 <= j < |Text.Decimal(s.port)| :: Text.IsDigit(Text.Decimal(s.port)[j]);
  }

  lemma {:induction false} JoinedIsOneLine(groups: seq<string>)
    requires forall g | g in groups :: '\n' !in g
    ensures '\n' !in Joined(groups)
  {
    if |groups| > 1 {
      JoinedIsOneLine(groups[1..]);
    }
  }

  lemma {:induction false} AnyLineCons(line: string, rest: string, p: Port)
    requires '\n' !in line
    ensures AnyLineShows(line + ("\n" + rest), p) <==> LineShows(line, p) || AnyLineShows(rest, p)
  {
    Text.LinesCons(line, rest);
    Seqs.AppendAssoc(line, "\n", rest);
    hide Text.Lines, LineShows;
    assert forall x :: x in [line] + Text.Lines(rest) <==> x == line || x in Text.Lines(rest);
  }

  lemma {:induction false} SocketsShow(sockets: seq<Socket>, p: Port)
    requires forall s | s in sockets :: IsSocket(s)
    ensures AnyLineShows(PrintSockets(sockets), p)
       <==> exists s | s in sockets :: s.port == p || Misleads(s.host, p)
  {
    if sockets == [] {
      assert Text.Lines("") == [""];
      ShowsNothing("", p);
      assert Text.Fields("") == [];
    } else {
      var first, rest := sockets[0], sockets[1..];
      assert forall s :: s in sockets <==> s == first || s in rest;
      SocketsShow(rest, p);
      SocketIsOneLine(first);
      SocketShows(first, p);
      LastFieldIsPeer(first);
      hide PrintSocket, Shows, LastFieldIsListen, Misleads, AnyLineShows, IsSocket;
      AnyLineCons(PrintSocket(first), PrintSockets(rest), p);
    }
  }

  /** The answer about a port, on any listing: true if some socket has it as its local port, or if the leading digits of
      a group of some IPv6 address, after its first, happen to be it. */
  lemma {:induction false} ListingShowsExactly(heads: string, sockets: seq<Socket>, p: Port)
    requires IsHeads(heads) && forall s | s in sockets :: IsSocket(s)
    ensures AnyLineShows(PrintListing(heads, sockets), p)
       <==> exists s | s in sockets :: s.port == p || Misleads(s.host, p)
  {
    NoNumeralShowsNothing(heads, p);
    SocketsShow(sockets, p);
    hide AnyLineShows, Shows, LastFieldIsListen, Misleads, PrintSockets;
    AnyLineCons(heads, PrintSockets(sockets), p);
  }

  /** The answer is the truth about the local ports exactly when the port is listening or no address misleads. */
  lemma {:induction false} AnswerIsTrueExactly(heads: string, sockets: seq<Socket>, p: Port)
    requires IsHeads(heads) && forall s | s in sockets :: IsSocket(s)
    ensures (AnyLineShows(PrintListing(heads, sockets), p) <==> exists s | s in sockets :: s.port == p)
       <==> (exists s | s in sockets :: s.port == p) || forall s | s in sockets :: !Misleads(s.host, p)
  {
    ListingShowsExactly(heads, sockets, p);
    hide AnyLineShows, Misleads, IsSocket, IsHeads;
  }

  /** The loopback address is enough: with "[::1]:port" listening, port 1 is taken for listening too. */
  lemma {:induction false} LoopbackMisleads(heads: string, s: Socket)
    requires IsHeads(heads) && IsSocket(s) && s.host == Bracketed(["", "", "1"], "") && s.port != 1
    ensures PrintHost(s.host) == "[::1]"
    ensures AnyLineShows(PrintListing(heads, [s]), 1) && !exists x | x in [s] :: x.port == 1
  {
    hide AnyLineShows, IsSocket, IsHeads, DigitRun, Joined, GroupShows, PrintHost;
    LoopbackGroups();
    assert Misleads(s.host, 1);
    hide Misleads;
    ListingShowsExactly(heads, [s], 1);
    assert s in [s];
  }

  lemma {:induction false} LoopbackGroups()
    ensures PrintHost(Bracketed(["", "", "1"], "")) == "[::1]" && GroupShows(["", "", "1"], 1)
  {
    LoopbackPrints();
    assert Text.Decimal(1) == ['1'] == "1";
    DecimalRun(1);
    hide DigitRun, Text.Decimal, Joined;
    assert DigitRun(["", "", "1"][2]) == Text.Decimal(1);
  }

  lemma {:induction false} LoopbackPrints()
    ensures PrintHost(Bracketed(["", "", "1"], "")) == "[::1]"
  {
    var groups := ["", "", "1"];
    assert groups[1..] == ["", "1"] && ["", "1"][1..] == ["1"];
    assert Joined(["1"]) == "1" && Joined(["", "1"]) == ":1" && Joined(groups) == "::1";
  }
}
