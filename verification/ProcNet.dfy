/** The /proc/net/tcp parser of internal/core/portfwd/discovery.go, and the kernel's format it reads back. */
module ProcNet {

  import opened Wrappers
  import Seqs
  import Text

  type Byte = n: int | 0 <= n < 0x100
  type Port = n: int | 0 <= n < 0x1_0000
  type Word = n: int | 0 <= n < 0x1_0000_0000

  /** A listening socket: its port and the four or sixteen bytes of its address. */
  datatype PortBind = PortBind(port: Port, address: seq<Byte>)

  // ---- strconv.ParseUint(s, 16, bits) ----------------------------------------------

  function HexDigitValue(c: char): Option<nat> {
    if '0' <= c <= '9' then Some(c as int - '0' as int)
    else if 'a' <= c <= 'f' then Some(c as int - 'a' as int + 10)
    else if 'A' <= c <= 'F' then Some(c as int - 'A' as int + 10)
    else None
  }

  function HexValue(s: string): Option<nat> {
    if s == "" then Some(0)
    else
      match (HexValue(s[..|s| - 1]), HexDigitValue(s[|s| - 1]))
      case (Some(v), Some(d)) => Some(16 * v + d)
      case _ => None
  }

  /** No sign, no prefix and no blank is accepted, and neither is a value of limit or more. */
  function ParseHex(s: string, limit: nat): (r: Option<nat>)
    ensures r.Some? ==> r.value < limit
  {
    if s != "" && HexValue(s).Some? && HexValue(s).value < limit then HexValue(s) else None
  }

  // ---- One line --------------------------------------------------------------------

  /** byte(v), byte(v >> 8), byte(v >> 16), byte(v >> 24). */
  function LittleEndian(v: Word): seq<Byte> {
    [v % 0x100, v / 0x100 % 0x100, v / 0x1_0000 % 0x100, v / 0x100_0000]
  }

  /** The words of an address: eight hex digits each. */
  function ParseWords(hex: string): Option<seq<Byte>> {
    if hex == "" then Some([])
    else if |hex| < 8 then None
    else
      match (ParseHex(hex[..8], 0x1_0000_0000), ParseWords(hex[8..]))
      case (Some(v), Some(rest)) => Some(LittleEndian(v) + rest)
      case _ => None
  }

  function ParseAddress(hex: string): Option<seq<Byte>> {
    if |hex| == 8 || |hex| == 32 then ParseWords(hex) else None
  }

  /** The local address of a socket, as "address:port". */
  function ParseLocal(field: string): Option<PortBind> {
    var i := Text.LastIndex(field, ':');
    if i < 0 then None
    else
      match (ParseHex(field[i + 1..], 0x1_0000), ParseAddress(field[..i]))
      case (Some(p), Some(address)) => Some(PortBind(p, address))
      case _ => None
  }

  function ParseLine(line: string): Option<PortBind> {
    var fields := Text.Fields(line);
    if |fields| < 4 || fields[0] == "sl" || |fields[3]| != 2 || ParseHex(fields[3], 0x100) != Some(0x0A) then None
    else ParseLocal(fields[1])
  }

  function ToSeq(b: Option<PortBind>): seq<PortBind> {
    if b.Some? then [b.value] else []
  }

  function ParseLines(lines: seq<string>): seq<PortBind> {
    if lines == [] then [] else ToSeq(ParseLine(lines[0])) + ParseLines(lines[1..])
  }

  lemma {:induction false} ParseLinesAppend(lines: seq<string>, line: string)
    ensures ParseLines(lines + [line]) == ParseLines(lines) + ToSeq(ParseLine(line))
  {
    hide ParseLine;
    if lines == [] {
      assert lines + [line] == [line] && [line][1..] == [];
    } else {
      assert (lines + [line])[0] == lines[0] && (lines + [line])[1..] == lines[1..] + [line];
      ParseLinesAppend(lines[1..], line);
      Seqs.AppendAssoc(ToSeq(ParseLine(lines[0])), ParseLines(lines[1..]), ToSeq(ParseLine(line)));
    }
  }

  lemma {:induction false} TwoHexDigits(s: string)
    requires |s| == 2 && ParseHex(s, 0x100) == Some(0x0A)
    ensures s == "0A" || s == "0a"
  {
    assert s[..1][..0] == "" && s[..1][0] == s[0];
    assert HexValue(s[..1]) == HexDigitValue(s[0]);
    assert s == [s[0], s[1]];
  }

  /** Nothing else gives an entry: only a line of at least four words, not the header, in state 0A, whose second
      word is an address of eight or thirty-two digits, a colon, and a port. */
  lemma {:induction false} OnlyListeningRows(line: string) returns (k: nat)
    requires ParseLine(line).Some?
    ensures var f := Text.Fields(line);
      && |f| >= 4 && f[0] != "sl" && (f[3] == "0A" || f[3] == "0a")
      && k < |f[1]| && f[1][k] == ':' && ':' !in f[1][k + 1..] && (k == 8 || k == 32)
      && ParseHex(f[1][k + 1..], 0x1_0000) == Some(ParseLine(line).value.port)
      && |ParseLine(line).value.address| == k / 2
  {
    hide Text.Fields, ParseHex, HexValue, ParseWords;
    var f := Text.Fields(line);
    ListeningState(f[3]);
    k := Text.LastIndex(f[1], ':');
    AddressLength(f[1][..k]);
  }

  lemma {:induction false} ListeningState(s: string)
    ensures |s| == 2 && ParseHex(s, 0x100) == Some(0x0A) ==> s == "0A" || s == "0a"
  {
    hide ParseHex;
    if |s| == 2 && ParseHex(s, 0x100) == Some(0x0A) {
      TwoHexDigits(s);
    }
  }

  /** Eight digits give four bytes. */
  lemma {:induction false} AddressLength(hex: string)
    requires ParseWords(hex).Some?
    ensures |hex| % 8 == 0 && |ParseWords(hex).value| == |hex| / 2
    decreases |hex|
  {
    hide ParseHex;
    if hex != "" {
      AddressLength(hex[8..]);
    }
  }

  // ---- The parser ------------------------------------------------------------------

  lemma {:induction false} ParseWordsStep(hex: string, v: Word)
    requires |hex| >= 8 && ParseHex(hex[..8], 0x1_0000_0000) == Some(v)
    ensures ParseWords(hex) ==
      if ParseWords(hex[8..]).Some? then Some(LittleEndian(v) + ParseWords(hex[8..]).value) else None
  {
  }

  /** The address once the words before rest have given done. */
  function Partly(done: seq<Byte>, rest: string): Option<seq<Byte>> {
    if ParseWords(rest).Some? then Some(done + ParseWords(rest).value) else None
  }

  lemma {:induction false} PartlyNone(hex: string)
    ensures Partly([], hex) == ParseWords(hex)
  {
    if ParseWords(hex).Some? {
      assert [] + ParseWords(hex).value == ParseWords(hex).value;
    }
  }

  lemma {:induction false} PartlyStep(done: seq<Byte>, rest: string)
    requires |rest| >= 8
    ensures Partly(done, rest) ==
      match ParseHex(rest[..8], 0x1_0000_0000) {
        case None => None
        case Some(v) => Partly(done + LittleEndian(v), rest[8..])
      }
  {
    var w := ParseHex(rest[..8], 0x1_0000_0000);
    if w.Some? {
      ParseWordsStep(rest, w.value);
      if ParseWords(rest[8..]).Some? {
        Seqs.AppendAssoc(done, LittleEndian(w.value), ParseWords(rest[8..]).value);
      }
    }
  }

  /** Four assignments store a word, low byte first. */
  method StoreWord(b: array<Byte>, at: nat, v: Word)
    requires at + 4 <= b.Length
    modifies b
    ensures b[..at + 4] == old(b[..at]) + LittleEndian(v)
  {
    b[at] := v % 0x100;
    b[at + 1] := v / 0x100 % 0x100;
    b[at + 2] := v / 0x1_0000 % 0x100;
    b[at + 3] := v / 0x100_0000;
  }

  lemma {:induction false} NextChunk(hex: string, at: nat)
    requires at + 8 <= |hex|
    ensures hex[at..at + 8] == hex[at..][..8] && hex[at + 8..] == hex[at..][8..]
  {
  }

  /** The first at bytes are those of the words read so far. */
  ghost predicate Filled(bytes: seq<Byte>, at: nat, hex: string) {
    at <= |bytes| && 2 * at <= |hex| && ParseWords(hex) == Partly(bytes[..at], hex[2 * at..])
  }

  /** The body of the loop over the words of a long address. */
  method ReadWord(hex: string, b: array<Byte>, at: nat) returns (ok: bool)
    requires at + 4 <= b.Length && 2 * at + 8 <= |hex| && Filled(b[..], at, hex)
    modifies b
    ensures ok ==> Filled(b[..], at + 4, hex)
    ensures !ok ==> ParseWords(hex).None?
  {
    hide ParseWords, ParseHex, Partly, LittleEndian;
    ghost var done := b[..at];
    NextChunk(hex, 2 * at);
    var w := ParseHex(hex[2 * at..2 * at + 8], 0x1_0000_0000);
    assert b[..][..at] == done;
    PartlyStep(done, hex[2 * at..]);
    ok := w.Some?;
    if ok {
      StoreWord(b, at, w.value);
      assert b[..][..at + 4] == b[..at + 4];
    }
  }

  lemma {:induction false} NoneFilled(bytes: seq<Byte>, hex: string)
    ensures Filled(bytes, 0, hex)
  {
    assert hex[0..] == hex && bytes[..0] == [];
    PartlyNone(hex);
  }

  lemma {:induction false} AllFilled(bytes: seq<Byte>, hex: string)
    requires |hex| == 2 * |bytes| && Filled(bytes, |bytes|, hex)
    ensures ParseWords(hex) == Some(bytes)
  {
    assert hex[|hex|..] == "" && bytes[..|bytes|] == bytes && bytes + [] == bytes;
  }

  /** The four words of a long address fill an array of sixteen bytes. */
  method ReadWords(hex: string) returns (r: Option<seq<Byte>>)
    requires |hex| == 32
    ensures r == ParseWords(hex)
  {
    var b := new Byte[16];
    NoneFilled(b[..], hex);
    hide ParseWords, Filled;
    for j := 0 to 4
      invariant Filled(b[..], j * 4, hex)
    {
      var ok := ReadWord(hex, b, j * 4);
      if !ok {
        return None;
      }
    }
    AllFilled(b[..], hex);
    r := Some(b[..]);
  }

  /** The switch on the length of the address: one word, or four. */
  method ReadAddress(hex: string) returns (r: Option<seq<Byte>>)
    ensures r == ParseAddress(hex)
  {
    if |hex| == 8 {
      assert hex[..8] == hex && hex[8..] == "";
      var v := ParseHex(hex, 0x1_0000_0000);
      if v.None? {
        return None;
      }
      ParseWordsStep(hex, v.value);
      assert LittleEndian(v.value) + [] == LittleEndian(v.value);
      r := Some(LittleEndian(v.value));
    } else if |hex| == 32 {
      r := ReadWords(hex);
    } else {
      r := None;
    }
  }

  /** parseProcNetFile(text). */
  method ParseProcNetFile(text: string) returns (out: seq<PortBind>)
    ensures out == ParseLines(Text.Lines(text))
  {
    out := [];
    var lines := Text.Lines(text);
    for i := 0 to |lines|
      invariant out == ParseLines(lines[..i])
    {
      var line := lines[i];
      assert lines[..i + 1] == lines[..i] + [line];
      ParseLinesAppend(lines[..i], line);
      hide ParseLines, Text.Lines, Text.Fields, ParseHex, Text.LastIndex, ParseAddress;
      var fields := Text.Fields(line);
      if |fields| < 4 || fields[0] == "sl" {
        continue;
      }
      if |fields[3]| != 2 {
        continue;
      }
      var st := ParseHex(fields[3], 0x100);
      if st != Some(0x0A) {
        continue;
      }
      var k := Text.LastIndex(fields[1], ':');
      if k < 0 {
        continue;
      }
      var p := ParseHex(fields[1][k + 1..], 0x1_0000);
      if p.None? {
        continue;
      }
      var address := ReadAddress(fields[1][..k]);
      if address.None? {
        continue;
      }
      out := out + [PortBind(p.value, address.value)];
    }
    assert lines[..|lines|] == lines;
  }

  // ---- The kernel's format ---------------------------------------------------------

  /** One row of /proc/net/tcp (four address bytes) or /proc/net/tcp6 (sixteen). rest is what follows the state. */
  datatype Socket = Socket(slot: nat, local: seq<Byte>, localPort: Port, remote: seq<Byte>, remotePort: Port,
                           state: Byte, rest: string)

  predicate IsAddress(bytes: seq<Byte>) {
    |bytes| == 4 || |bytes| == 16
  }

  predicate IsRow(s: Socket) {
    IsAddress(s.local) && IsAddress(s.remote) && '\n' !in s.rest
  }

  type Row = s: Socket | IsRow(s) witness Socket(0, [0, 0, 0, 0], 0, [0, 0, 0, 0], 0, 0, "")

  /** A file: the column heads after the first, which is "sl", and the rows. */
  datatype File = File(heads: string, rows: seq<Row>)

  predicate IsFile(f: File) {
    '\n' !in f.heads
  }

  function HexDigit(d: int): char
    requires 0 <= d < 16
  {
    if d < 10 then '0' + d as char else 'A' + (d - 10) as char
  }

  /** %0wX of v. */
  function Hex(v: nat, w: nat): (s: string)
    ensures |s| == w
  {
    if w == 0 then "" else Hex(v / 16, w - 1) + [HexDigit(v % 16)]
  }

  /** Four bytes in memory, read as one word of a little-endian host. */
  function WordOf(b0: int, b1: int, b2: int, b3: int): int {
    b0 + 0x100 * (b1 + 0x100 * (b2 + 0x100 * b3))
  }

  /** The address as the kernel prints it, one host word at a time. */
  function PrintAddress(bytes: seq<Byte>): string {
    if |bytes| < 4 then ""
    else Hex(WordOf(bytes[0], bytes[1], bytes[2], bytes[3]), 8) + PrintAddress(bytes[4..])
  }

  function PrintLocal(bytes: seq<Byte>, port: Port): string {
    PrintAddress(bytes) + (":" + Hex(port, 4))
  }

  function Blanks(n: nat): string {
    seq(n, i => ' ')
  }

  function Spaced(words: seq<string>, rest: string): string {
    if words == [] then rest else words[0] + (" " + Spaced(words[1..], rest))
  }

  /** The first four columns: slot number, local and remote address, state. */
  function Columns(s: Row): seq<string> {
    [Text.Decimal(s.slot) + ":", PrintLocal(s.local, s.localPort), PrintLocal(s.remote, s.remotePort), Hex(s.state, 2)]
  }

  /** A row; its slot number is padded to width four. */
  function PrintRow(s: Row): string {
    var width := |Text.Decimal(s.slot)|;
    Blanks(if width < 4 then 4 - width else 0) + Spaced(Columns(s), s.rest)
  }

  function PrintHeader(heads: string): string {
    "  " + ("sl" + ("  " + heads))
  }

  function PrintRows(rows: seq<Row>, after: string): string {
    if rows == [] then after else PrintRow(rows[0]) + ("\n" + PrintRows(rows[1..], after))
  }

  /** The files one after the other, as cat writes them. */
  function PrintFiles(files: seq<File>): string {
    if files == [] then ""
    else PrintHeader(files[0].heads) + ("\n" + PrintRows(files[0].rows, PrintFiles(files[1..])))
  }

  /** The listening sockets of rows: those in state 0A. */
  function Listening(rows: seq<Row>): seq<PortBind> {
    if rows == [] then []
    else (if rows[0].state == 0x0A then [PortBind(rows[0].localPort, rows[0].local)] else []) + Listening(rows[1..])
  }

  function ListeningAll(files: seq<File>): seq<PortBind> {
    if files == [] then [] else Listening(files[0].rows) + ListeningAll(files[1..])
  }

  // ---- Hexadecimal round trip ------------------------------------------------------

  function Pow16(w: nat): nat {
    if w == 0 then 1 else 16 * Pow16(w - 1)
  }

  lemma {:induction false} HexRoundTrip(v: nat, w: nat)
    requires v < Pow16(w)
    ensures HexValue(Hex(v, w)) == Some(v)
  {
    if w > 0 {
      var high, low := v / 16, v % 16;
      assert high < Pow16(w - 1) && Hex(v, w) == Hex(high, w - 1) + [HexDigit(low)];
      HexDigitRoundTrip(low);
      hide Hex, HexValue, HexDigit, HexDigitValue, Pow16;
      HexRoundTrip(high, w - 1);
      HexValueSnoc(Hex(high, w - 1), HexDigit(low), high, low);
    }
  }

  lemma {:induction false} HexValueSnoc(s: string, c: char, high: nat, low: nat)
    requires HexValue(s) == Some(high) && HexDigitValue(c) == Some(low)
    ensures HexValue(s + [c]) == Some(16 * high + low)
  {
    assert (s + [c])[..|s + [c]| - 1] == s;
  }

  lemma {:induction false} HexDigitRoundTrip(d: int)
    requires 0 <= d < 16
    ensures HexDigitValue(HexDigit(d)) == Some(d)
    ensures !Text.IsSpace(HexDigit(d)) && HexDigit(d) != ':' && HexDigit(d) != '\n'
  {
  }

  /** Hex digits are neither blanks nor colons. */
  ghost predicate Plain(s: string) {
    forall j | 0 <= j < |s| :: !Text.IsSpace(s[j]) && s[j] != ':' && s[j] != '\n'
  }

  lemma {:induction false} HexPlain(v: nat, w: nat)
    ensures Plain(Hex(v, w))
  {
    if w > 0 {
      HexPlain(v / 16, w - 1);
      HexDigitRoundTrip(v % 16);
    }
  }

  lemma {:induction false} Pow16Values()
    ensures Pow16(2) == 0x100 && Pow16(4) == 0x1_0000 && Pow16(8) == 0x1_0000_0000
  {
    assert Pow16(1) == 16 && Pow16(3) == 0x1000 && Pow16(5) == 0x10_0000 && Pow16(6) == 0x100_0000
           && Pow16(7) == 0x1000_0000;
  }

  lemma {:induction false} ParsePrinted(v: nat, w: nat)
    requires 0 < w && v < Pow16(w)
    ensures ParseHex(Hex(v, w), Pow16(w)) == Some(v)
  {
    HexRoundTrip(v, w);
  }

  lemma {:induction false} LowByte(b: int, r: nat)
    requires 0 <= b < 0x100
    ensures (b + 0x100 * r) % 0x100 == b && (b + 0x100 * r) / 0x100 == r
  {
  }

  lemma {:induction false} ShiftTwice(v: nat)
    ensures v / 0x1_0000 == v / 0x100 / 0x100
  {
  }

  lemma {:induction false} ShiftThrice(v: nat)
    ensures v / 0x100_0000 == v / 0x1_0000 / 0x100
  {
  }

  lemma {:induction false} EndianRoundTrip(b0: Byte, b1: Byte, b2: Byte, b3: Byte)
    ensures 0 <= WordOf(b0, b1, b2, b3) < 0x1_0000_0000
    ensures LittleEndian(WordOf(b0, b1, b2, b3)) == [b0, b1, b2, b3]
  {
    var v3: nat := b3;
    var v2: nat := b2 as int + 0x100 * v3;
    var v1: nat := b1 as int + 0x100 * v2;
    var v: nat := b0 as int + 0x100 * v1;
    LowByte(b2, v3);
    LowByte(b1, v2);
    LowByte(b0, v1);
    ShiftTwice(v);
    ShiftThrice(v);
    assert v == WordOf(b0, b1, b2, b3);
  }

  lemma {:induction false} WordRoundTrip(b0: Byte, b1: Byte, b2: Byte, b3: Byte)
    ensures 0 <= WordOf(b0, b1, b2, b3) < 0x1_0000_0000
    ensures ParseHex(Hex(WordOf(b0, b1, b2, b3), 8), 0x1_0000_0000) == Some(WordOf(b0, b1, b2, b3))
    ensures Plain(Hex(WordOf(b0, b1, b2, b3), 8))
  {
    EndianRoundTrip(b0, b1, b2, b3);
    Pow16Values();
    hide WordOf, Hex, ParseHex, Pow16, LittleEndian;
    ParsePrinted(WordOf(b0, b1, b2, b3), 8);
    HexPlain(WordOf(b0, b1, b2, b3), 8);
  }

  lemma {:induction false} PlainAppend(s: string, u: string)
    requires Plain(s) && Plain(u)
    ensures Plain(s + u)
  {
  }

  lemma {:induction false} SplitAt(a: string, b: string)
    ensures (a + b)[..|a|] == a && (a + b)[|a|..] == b
  {
  }

  lemma {:induction false} AddressStep(word: string, v: Word, rest: string, tail: seq<Byte>)
    requires |word| == 8 && ParseHex(word, 0x1_0000_0000) == Some(v)
    requires ParseWords(rest) == Some(tail)
    ensures ParseWords(word + rest) == Some(LittleEndian(v) + tail)
  {
    hide ParseWords, ParseHex, LittleEndian;
    SplitAt(word, rest);
    ParseWordsStep(word + rest, v);
  }

  lemma {:induction false} PrintStep(bytes: seq<Byte>)
    requires |bytes| >= 4
    ensures PrintAddress(bytes) == Hex(WordOf(bytes[0], bytes[1], bytes[2], bytes[3]), 8) + PrintAddress(bytes[4..])
    ensures bytes == [bytes[0], bytes[1], bytes[2], bytes[3]] + bytes[4..]
  {
  }

  lemma {:induction false} AddressRoundTrip(bytes: seq<Byte>, words: nat)
    requires |bytes| == 4 * words
    ensures |PrintAddress(bytes)| == 8 * words
    ensures ParseWords(PrintAddress(bytes)) == Some(bytes)
    ensures Plain(PrintAddress(bytes))
  {
    if words > 0 {
      var v := WordOf(bytes[0], bytes[1], bytes[2], bytes[3]);
      EndianRoundTrip(bytes[0], bytes[1], bytes[2], bytes[3]);
      WordRoundTrip(bytes[0], bytes[1], bytes[2], bytes[3]);
      PrintStep(bytes);
      hide WordOf, Hex, ParseHex, LittleEndian, Plain, ParseWords, PrintAddress;
      AddressRoundTrip(bytes[4..], words - 1);
      AddressStep(Hex(v, 8), v, PrintAddress(bytes[4..]), bytes[4..]);
      PlainAppend(Hex(v, 8), PrintAddress(bytes[4..]));
    }
  }

  lemma {:induction false} ColonIsLast(a: string, d: string)
    requires Plain(d)
    ensures Text.LastIndex(a + (":" + d), ':') == |a|
    ensures (a + (":" + d))[..|a|] == a && (a + (":" + d))[|a| + 1..] == d
  {
    var field := a + (":" + d);
    assert field[|a|] == ':';
    assert forall j | |a| < j < |field| :: field[j] == d[j - |a| - 1];
  }

  lemma {:induction false} ColonWord(a: string, d: string)
    requires Plain(a) && Plain(d)
    ensures Text.IsWord(a + (":" + d))
  {
    var field := a + (":" + d);
    forall j | 0 <= j < |field|
      ensures !Text.IsSpace(field[j])
    {
      assert field[j] == if j < |a| then a[j] else if j == |a| then ':' else d[j - |a| - 1];
    }
  }

  lemma {:induction false} LocalRoundTrip(bytes: seq<Byte>, port: Port)
    requires IsAddress(bytes)
    ensures ParseLocal(PrintLocal(bytes, port)) == Some(PortBind(port, bytes))
    ensures Text.IsWord(PrintLocal(bytes, port))
  {
    AddressRoundTrip(bytes, if |bytes| == 4 then 1 else 4);
    Pow16Values();
    ParsePrinted(port, 4);
    HexPlain(port, 4);
    hide Hex, ParseHex, Pow16, ParseWords, PrintAddress, Plain, Text.LastIndex, Text.IsWord;
    ColonIsLast(PrintAddress(bytes), Hex(port, 4));
    ColonWord(PrintAddress(bytes), Hex(port, 4));
  }

  // ---- Rows ------------------------------------------------------------------------

  lemma {:induction false} FieldsSpaced(words: seq<string>, rest: string)
    requires forall w | w in words :: Text.IsWord(w)
    ensures Text.Fields(Spaced(words, rest)) == words + Text.Fields(rest)
  {
    if words == [] {
      assert words + Text.Fields(rest) == Text.Fields(rest);
    } else {
      FieldsSpaced(words[1..], rest);
      Text.FieldsWord(words[0], " " + Spaced(words[1..], rest));
      Text.FieldsBlanks(" ", Spaced(words[1..], rest));
      assert Spaced(words, rest) == words[0] + (" " + Spaced(words[1..], rest));
      hide Text.Fields, Spaced, Text.IsWord;
      assert words == [words[0]] + words[1..];
      Seqs.AppendAssoc([words[0]], words[1..], Text.Fields(rest));
    }
  }

  lemma {:induction false} PlainIsWord(s: string)
    requires Plain(s) && s != ""
    ensures Text.IsWord(s) && '\n' !in s
  {
  }

  lemma {:induction false} SlotIsWord(n: nat)
    ensures Text.IsWord(Text.Decimal(n) + ":") && Text.Decimal(n) + ":" != "sl"
  {
    var s := Text.Decimal(n) + ":";
    assert s[|s| - 1] == ':';
    forall j | 0 <= j < |s|
      ensures !Text.IsSpace(s[j])
    {
      assert j < |s| - 1 ==> Text.IsDigit(s[j]);
    }
  }

  lemma {:induction false} WordIsOneLine(w: string)
    requires Text.IsWord(w)
    ensures '\n' !in w
  {
  }

  lemma {:induction false} ColumnsAreWords(s: Row)
    ensures forall w | w in Columns(s) :: Text.IsWord(w) && '\n' !in w
  {
    SlotIsWord(s.slot);
    LocalRoundTrip(s.local, s.localPort);
    LocalRoundTrip(s.remote, s.remotePort);
    HexPlain(s.state, 2);
    PlainIsWord(Hex(s.state, 2));
    forall w | w in Columns(s)
      ensures Text.IsWord(w) && '\n' !in w
    {
      hide PrintLocal, Hex, Text.Decimal, Text.IsWord;
      WordIsOneLine(w);
    }
  }

  lemma {:induction false} RowFields(s: Row)
    ensures Text.Fields(PrintRow(s)) == Columns(s) + Text.Fields(s.rest)
  {
    ColumnsAreWords(s);
    var width := |Text.Decimal(s.slot)|;
    hide Columns, Spaced, Text.Decimal, Text.Fields, Text.IsWord;
    FieldsSpaced(Columns(s), s.rest);
    Text.FieldsBlanks(Blanks(if width < 4 then 4 - width else 0), Spaced(Columns(s), s.rest));
  }

  /** A row comes back exactly when its socket listens. */
  lemma {:induction false} RowRoundTrip(s: Row)
    ensures ParseLine(PrintRow(s)) == if s.state == 0x0A then Some(PortBind(s.localPort, s.local)) else None
  {
    RowFields(s);
    LocalRoundTrip(s.local, s.localPort);
    SlotIsWord(s.slot);
    Pow16Values();
    ParsePrinted(s.state, 2);
    hide PrintRow, PrintLocal, Hex, Text.Fields, Text.Decimal, ParseLocal, ParseHex, Pow16, Text.IsWord;
  }

  lemma {:induction false} HeaderFields(heads: string)
    ensures Text.Fields(PrintHeader(heads)) == ["sl"] + Text.Fields("  " + heads)
  {
    hide Text.Fields;
    HeadIsWord();
    BlankFirst(heads);
    Text.FieldsBlanks("  ", "sl" + ("  " + heads));
    Text.FieldsWord("sl", "  " + heads);
  }

  lemma {:induction false} HeadIsWord()
    ensures Text.IsWord("sl") && Text.IsSpace(' ')
  {
  }

  lemma {:induction false} BlankFirst(heads: string)
    ensures ("  " + heads)[0] == ' '
  {
  }

  lemma {:induction false} HeaderIsSkipped(heads: string)
    ensures ParseLine(PrintHeader(heads)) == None
  {
    hide Text.Fields, PrintHeader, ParseLocal, ParseHex;
    HeaderFields(heads);
    assert (["sl"] + Text.Fields("  " + heads))[0] == "sl";
  }

  lemma {:induction false} SpacedOneLine(words: seq<string>, rest: string)
    requires '\n' !in rest && forall w | w in words :: '\n' !in w
    ensures '\n' !in Spaced(words, rest)
  {
    if words != [] {
      SpacedOneLine(words[1..], rest);
    }
  }

  lemma {:induction false} RowIsOneLine(s: Row)
    ensures '\n' !in PrintRow(s)
  {
    ColumnsAreWords(s);
    hide Columns, Spaced, Text.Decimal, Text.IsWord;
    SpacedOneLine(Columns(s), s.rest);
  }

  // ---- Files -----------------------------------------------------------------------

  lemma {:induction false} ParseLinesCons(line: string, rest: string)
    requires '\n' !in line
    ensures ParseLines(Text.Lines(line + ("\n" + rest))) == ToSeq(ParseLine(line)) + ParseLines(Text.Lines(rest))
  {
    Text.LinesCons(line, rest);
    Seqs.AppendAssoc(line, "\n", rest);
    hide Text.Lines, ParseLine;
    assert ([line] + Text.Lines(rest))[1..] == Text.Lines(rest);
  }

  lemma {:induction false} RowsRoundTrip(rows: seq<Row>, after: string)
    ensures ParseLines(Text.Lines(PrintRows(rows, after))) == Listening(rows) + ParseLines(Text.Lines(after))
  {
    if rows != [] {
      RowsRoundTrip(rows[1..], after);
      RowRoundTrip(rows[0]);
      RowIsOneLine(rows[0]);
      hide PrintRow, ParseLine, ParseLines, Text.Lines;
      ParseLinesCons(PrintRow(rows[0]), PrintRows(rows[1..], after));
      Seqs.AppendAssoc(ToSeq(ParseLine(PrintRow(rows[0]))), Listening(rows[1..]), ParseLines(Text.Lines(after)));
    }
  }

  /** Whatever sockets of both families the kernel lists, and however many files with their headers are run together,
      parsing gives back exactly the listening ones, in order, with their ports and address bytes. */
  lemma {:induction false} FilesRoundTrip(files: seq<File>)
    requires forall f | f in files :: IsFile(f)
    ensures ParseLines(Text.Lines(PrintFiles(files))) == ListeningAll(files)
  {
    if files == [] {
      assert Text.Lines("") == [""] && ParseLine("") == None;
      assert [""][1..] == [];
    } else {
      assert forall f | f in files[1..] :: f in files;
      FilesRoundTrip(files[1..]);
      var rest := PrintFiles(files[1..]);
      HeaderIsSkipped(files[0].heads);
      HeaderIsOneLine(files[0]);
      RowsRoundTrip(files[0].rows, rest);
      hide PrintHeader, PrintRows, ParseLine, ParseLines, Text.Lines, Listening;
      ParseLinesCons(PrintHeader(files[0].heads), PrintRows(files[0].rows, rest));
    }
  }

  lemma {:induction false} HeaderIsOneLine(f: File)
    requires IsFile(f)
    ensures '\n' !in PrintHeader(f.heads)
  {
  }
}
