/** /proc/net/tcp: socket lines with hexadecimal addresses and ports. */
module Tcp {
  import opened Text
  import opened Numbers
  import opened Mmap

  datatype TcpSocket = TcpSocket(num: int, localAddress: string, localPort: nat, remAddress: string, remPort: nat)

  function QuadText(a: nat, b: nat, c: nat, d: nat): string
  {
    Digits(a, Dec) + "." + (Digits(b, Dec) + "." + (Digits(c, Dec) + "." + Digits(d, Dec)))
  }

  /** `inet_ntoa` on the address whose big-endian value is `v`. */
  function DottedQuad(v: nat): string
  {
    QuadText(v / 0x100_0000 % 0x100, v / 0x1_0000 % 0x100, v / 0x100 % 0x100, v % 0x100)
  }

  /** The address text: `htonl` keeps 32 bits of the `long`. */
  function AddressText(v: nat): string { DottedQuad(ToU32(v)) }

  datatype SocketText = SocketText(num: string, local: string, localPort: string, rem: string, remPort: string)

  function MatchEndpoint(s: string): Option<(string, string, string)>
  {
    var (address, s1) :- Lead(s, IsXDigit);
    var s2 :- Expect(s1, ':');
    var (port, s3) :- Lead(s2, IsXDigit);
    Some((address, port, s3))
  }

  function MatchSlot(s: string): Option<(string, string)>
  {
    var (gap, s1) :- Lead(s, IsSpace);
    var (num, s2) :- Lead(s1, IsDigit);
    var s3 :- Expect(s2, ':');
    var s4 :- OneSpace(s3);
    Some((num, s4))
  }

  function MatchSocket(line: string): Option<SocketText>
  {
    var (num, s) :- MatchSlot(line);
    var (local, localPort, t) :- MatchEndpoint(s);
    var u :- OneSpace(t);
    var (rem, remPort, tail) :- MatchEndpoint(u);
    Some(SocketText(num, local, localPort, rem, remPort))
  }

  ghost predicate EndpointText(s: string, address: string, port: string, rest: string)
  {
    s == address + ([':'] + (port + rest)) && IsHex(address) && IsHex(port) && (rest == "" || !IsXDigit(rest[0]))
  }

  lemma MatchEndpointIff(s: string, address: string, port: string, rest: string)
    ensures MatchEndpoint(s) == Some((address, port, rest)) <==> EndpointText(s, address, port, rest)
  {
    hide Lead, Expect;
    if MatchEndpoint(s) == Some((address, port, rest)) {
      var s1 := Lead(s, IsXDigit).value.1;
      var s2 := Expect(s1, ':').value;
      ExpectIff(s1, ':', s2);
      LeadIff(s2, IsXDigit, port, rest);
    }
    if EndpointText(s, address, port, rest) {
      LeadIff(s, IsXDigit, address, [':'] + (port + rest));
      ExpectIff([':'] + (port + rest), ':', port + rest);
      LeadIff(port + rest, IsXDigit, port, rest);
    }
  }

  ghost predicate SlotText(s: string, gap: string, num: string, sep: char, rest: string)
  {
    && s == gap + (num + ([':'] + ([sep] + rest)))
    && gap != "" && All(gap, IsSpace) && num != "" && All(num, IsDigit) && IsSpace(sep)
  }

  lemma MatchSlotIff(s: string, num: string, rest: string)
    ensures MatchSlot(s) == Some((num, rest)) <==> exists gap, sep :: SlotText(s, gap, num, sep, rest)
  {
    hide Lead, Expect, OneSpace;
    if MatchSlot(s) == Some((num, rest)) {
      var gap, s1 := Lead(s, IsSpace).value.0, Lead(s, IsSpace).value.1;
      var s2 := Lead(s1, IsDigit).value.1;
      var s3 := Expect(s2, ':').value;
      ExpectIff(s2, ':', s3);
      OneSpaceIff(s3, rest);
      assert SlotText(s, gap, num, s3[0], rest);
    }
    if gap, sep :| SlotText(s, gap, num, sep, rest) {
      SlotTextMatches(s, gap, num, sep, rest);
    }
  }

  lemma SlotTextMatches(s: string, gap: string, num: string, sep: char, rest: string)
    requires SlotText(s, gap, num, sep, rest)
    ensures MatchSlot(s) == Some((num, rest))
  {
    hide Lead, Expect, OneSpace;
    var s3 := [sep] + rest;
    var s2 := [':'] + s3;
    assert IsDigit(num[0]) && (num + s2)[0] == num[0];
    LeadIff(s, IsSpace, gap, num + s2);
    LeadIff(num + s2, IsDigit, num, s2);
    ExpectIff(s2, ':', s3);
    OneSpaceIff(s3, rest);
  }

  /** The socket line, cut where its captures end. */
  ghost predicate SocketLine(line: string, t: SocketText, s1: string, sep: char, s2: string, tail: string)
  {
    && (exists gap, sep :: SlotText(line, gap, t.num, sep, s1))
    && EndpointText(s1, t.local, t.localPort, [sep] + s2) && IsSpace(sep)
    && EndpointText(s2, t.rem, t.remPort, tail)
  }

  /** The socket pattern: whitespace, the slot number and a colon, and two endpoints of
      a hexadecimal address and port each; anything may follow. */
  lemma MatchSocketIff(line: string, t: SocketText)
    ensures MatchSocket(line) == Some(t) <==> exists s1, sep, s2, tail :: SocketLine(line, t, s1, sep, s2, tail)
  {
    hide MatchSlot, MatchEndpoint, OneSpace, SlotText, EndpointText;
    if MatchSocket(line) == Some(t) {
      var s1 := MatchSlot(line).value.1;
      var u := MatchEndpoint(s1).value.2;
      var s2 := OneSpace(u).value;
      var tail := MatchEndpoint(s2).value.2;
      MatchSlotIff(line, t.num, s1);
      MatchEndpointIff(s1, t.local, t.localPort, u);
      OneSpaceIff(u, s2);
      MatchEndpointIff(s2, t.rem, t.remPort, tail);
      assert SocketLine(line, t, s1, u[0], s2, tail);
    }
    if s1, sep, s2, tail :| SocketLine(line, t, s1, sep, s2, tail) {
      MatchSlotIff(line, t.num, s1);
      MatchEndpointIff(s1, t.local, t.localPort, [sep] + s2);
      OneSpaceIff([sep] + s2, s2);
      MatchEndpointIff(s2, t.rem, t.remPort, tail);
    }
  }

  /** The conversions; `None` when one throws. */
  function ConvertSocket(t: SocketText): Option<TcpSocket>
  {
    var num :- Stoi(t.num);
    var local :- HexStol(t.local);
    var localPort :- HexStoi(t.localPort);
    var rem :- HexStol(t.rem);
    var remPort :- HexStoi(t.remPort);
    Some(TcpSocket(num, AddressText(local), localPort, AddressText(rem), remPort))
  }

  function FoldSockets(sockets: seq<TcpSocket>, lines: seq<string>): Option<seq<TcpSocket>>
    decreases |lines|
  {
    if lines == [] then Some(sockets)
    else match MatchSocket(lines[0])
      case None => FoldSockets(sockets, lines[1..])
      case Some(text) =>
        var socket :- ConvertSocket(text);
        FoldSockets(sockets + [socket], lines[1..])
  }

  /** `getSocketTCP`; `None` when it throws. */
  function SocketsOf(text: Option<string>): Option<seq<TcpSocket>>
  {
    if text.None? then Some([]) else FoldSockets([], Pieces(text.value, '\n'))
  }

  method GetSocketTCP(text: Option<string>) returns (sockets: Option<seq<TcpSocket>>)
    ensures sockets == SocketsOf(text)
    ensures text == None ==> sockets == Some([])
  {
    if text.None? {
      return Some([]);
    }
    var list := [];
    var tcp := new InStream(text.value);
    var line := tcp.GetLine('\n');
    while line.Some?
      invariant fresh(tcp)
      invariant SocketsOf(text) ==
        FoldSockets(list, if line.Some? then [line.value] + Pieces(tcp.rest, '\n') else [])
      decreases |tcp.rest|, line.Some?
    {
      assert ([line.value] + Pieces(tcp.rest, '\n'))[1..] == Pieces(tcp.rest, '\n');
      var match' := MatchSocket(line.value);
      if match'.Some? {
        var socket := ConvertSocket(match'.value);
        if socket == None {
          return None;
        }
        list := list + [socket.value];
      }
      line := tcp.GetLine('\n');
    }
    return Some(list);
  }

  // -------------------------------------------------------------- addresses

  /** Reading a dotted quad back as a big-endian number. */
  function QuadValue(s: string): Option<nat>
  {
    var parts := SplitOn(s, '.');
    if |parts| != 4 then None
    else Some(QuadNumber(NumberOf(parts[0], Dec), NumberOf(parts[1], Dec),
                         NumberOf(parts[2], Dec), NumberOf(parts[3], Dec)))
  }

  /** The value of four base-256 digits, most significant first. */
  function QuadNumber(a: nat, b: nat, c: nat, d: nat): nat { ((a * 0x100 + b) * 0x100 + c) * 0x100 + d }

  lemma DivTwice(v: nat, k: nat)
    requires k == 0x100 || k == 0x1_0000
    ensures v / k / 0x100 == v / (k * 0x100)
  {
  }

  lemma Base256(v: nat)
    requires v < INT_RANGE
    ensures QuadNumber(v / 0x100_0000 % 0x100, v / 0x1_0000 % 0x100, v / 0x100 % 0x100, v % 0x100) == v
  {
    var a := v / 0x100;
    var b := a / 0x100;
    DivTwice(v, 0x100);
    DivTwice(v, 0x1_0000);
    assert b / 0x100 < 0x100;
  }

  lemma DigitsHaveNoDot(n: nat)
    ensures '.' !in Digits(n, Dec)
  {
    assert All(Digits(n, Dec), IsDigit);
  }

  lemma JoinFour(a: string, b: string, c: string, d: string)
    ensures Join([a, b, c, d], '.') == a + "." + (b + "." + (c + "." + d))
  {
    assert [a, b, c, d][1..] == [b, c, d] && [b, c, d][1..] == [c, d] && [c, d][1..] == [d];
    assert Join([d], '.') == d;
    assert Join([c, d], '.') == c + "." + d;
    assert Join([b, c, d], '.') == b + "." + (c + "." + d);
  }

  lemma QuadTextValue(a: nat, b: nat, c: nat, d: nat)
    ensures QuadValue(QuadText(a, b, c, d)) == Some(QuadNumber(a, b, c, d))
  {
    var parts := [Digits(a, Dec), Digits(b, Dec), Digits(c, Dec), Digits(d, Dec)];
    DigitsHaveNoDot(a);
    DigitsHaveNoDot(b);
    DigitsHaveNoDot(c);
    DigitsHaveNoDot(d);
    JoinFour(parts[0], parts[1], parts[2], parts[3]);
    SplitOfJoin(parts, '.');
    NumberOfDigits(a, Dec);
    NumberOfDigits(b, Dec);
    NumberOfDigits(c, Dec);
    NumberOfDigits(d, Dec);
  }

  lemma DottedQuadValue(v: nat, a: nat, b: nat, c: nat, d: nat)
    requires DottedQuad(v) == QuadText(a, b, c, d) && QuadNumber(a, b, c, d) == v
    ensures QuadValue(DottedQuad(v)) == Some(v)
  {
    QuadTextValue(a, b, c, d);
  }

  /** For every 32-bit value, the dotted quad reads back as that value; of a larger one,
      which more than eight digits can spell, only the low 32 bits count. */
  lemma QuadRoundTrip(v: nat)
    ensures QuadValue(AddressText(v)) == Some(v % 0x1_0000_0000)
    ensures v < INT_RANGE ==> QuadValue(AddressText(v)) == Some(v)
  {
    var w := v % 0x1_0000_0000;
    Base256(w);
    DottedQuadValue(w, w / 0x100_0000 % 0x100, w / 0x1_0000 % 0x100, w / 0x100 % 0x100, w % 0x100);
  }

  /** Different values have different texts. */
  lemma QuadInjective(v: nat, w: nat)
    requires v < INT_RANGE && w < INT_RANGE
    ensures AddressText(v) == AddressText(w) <==> v == w
  {
    QuadRoundTrip(v);
    QuadRoundTrip(w);
  }

  lemma NumberOfPair(s: string)
    requires |s| == 2
    ensures NumberOf(s, Hex) == 16 * DigitValue(s[0]) + DigitValue(s[1])
  {
    assert s == [] + [s[0]] + [s[1]];
    NumberOfSnoc([], s[0], Hex);
    NumberOfSnoc([] + [s[0]], s[1], Hex);
  }

  lemma NumberOfSplit(s: string, t: string)
    requires |t| == 2
    ensures NumberOf(s + t, Hex) == NumberOf(s, Hex) * 0x100 + NumberOf(t, Hex)
    ensures NumberOf(t, Hex) < 0x100
  {
    NumberOfPair(t);
    assert s + t == s + [t[0]] + [t[1]];
    NumberOfSnoc(s + [t[0]], t[1], Hex);
    NumberOfSnoc(s, t[0], Hex);
  }

  /** The four numbers are the pairs of hexadecimal digits, in text order. */
  lemma QuadOfHexText(a: string, b: string, c: string, d: string)
    requires |a| == |b| == |c| == |d| == 2
    ensures AddressText(NumberOf(a + b + c + d, Hex)) ==
      QuadText(NumberOf(a, Hex), NumberOf(b, Hex), NumberOf(c, Hex), NumberOf(d, Hex))
  {
    NumberOfSplit([], a);
    NumberOfSplit(a, b);
    NumberOfSplit(a + b, c);
    NumberOfSplit(a + b + c, d);
    FourDigits(NumberOf(a, Hex), NumberOf(b, Hex), NumberOf(c, Hex), NumberOf(d, Hex), NumberOf(a + b + c + d, Hex));
  }

  lemma FourDigits(a: nat, b: nat, c: nat, d: nat, v: nat)
    requires a < 0x100 && b < 0x100 && c < 0x100 && d < 0x100
    requires v == QuadNumber(a, b, c, d)
    ensures v < INT_RANGE
    ensures v / 0x100_0000 % 0x100 == a && v / 0x1_0000 % 0x100 == b && v / 0x100 % 0x100 == c && v % 0x100 == d
  {
    DivTwice(v, 0x100);
    DivTwice(v, 0x1_0000);
    LowDigit((a * 0x100 + b) * 0x100 + c, d);
    LowDigit(a * 0x100 + b, c);
    LowDigit(a, b);
  }

  lemma LowDigit(q: nat, r: nat)
    requires r < 0x100
    ensures (q * 0x100 + r) / 0x100 == q && (q * 0x100 + r) % 0x100 == r
  {
  }

  // -------------------------------------------------------------- round trip

  /** A socket as the kernel lists it: addresses and ports are hexadecimal texts, in
      either case. */
  datatype Entry = Entry(num: nat, local: string, localPort: string, rem: string, remPort: string, tail: string)

  function Blanks(n: nat): (b: string)
    ensures |b| == n && All(b, IsSpace) && '\n' !in b
  {
    seq(n, i => ' ')
  }

  /** The slot number, right-aligned in four places. */
  function PrintSlot(num: nat): string
  {
    var digits := Digits(num, Dec);
    if |digits| < 4 then Blanks(4 - |digits|) + digits else digits
  }

  function PrintEndpoint(address: string, port: string, tail: string): string
  {
    address + (":" + (port + tail))
  }

  function PrintSockets(e: Entry): string
  {
    PrintEndpoint(e.local, e.localPort, " " + PrintEndpoint(e.rem, e.remPort, e.tail))
  }

  function PrintEntry(e: Entry): string { PrintSlot(e.num) + (": " + PrintSockets(e)) }

  function PrintEntries(es: seq<Entry>): (lines: seq<string>)
    ensures |lines| == |es|
    ensures forall i :: 0 <= i < |es| ==> lines[i] == PrintEntry(es[i])
  {
    seq(|es|, i requires 0 <= i < |es| => PrintEntry(es[i]))
  }

  ghost predicate IsHexText(s: string, bound: nat) { s != "" && All(s, IsXDigit) && NumberOf(s, Hex) < bound }

  ghost predicate Printable(e: Entry)
  {
    && e.num < INT_HALF
    && IsHexText(e.local, INT_RANGE) && IsHexText(e.rem, INT_RANGE)
    && IsHexText(e.localPort, INT_HALF) && IsHexText(e.remPort, INT_HALF)
    && (e.tail == "" || !IsXDigit(e.tail[0])) && '\n' !in e.tail
  }

  /** `s` is the socket of `e`: the addresses read back as the numbers of their texts. */
  ghost predicate Shows(s: TcpSocket, e: Entry)
  {
    && s.num == e.num && s.localPort == NumberOf(e.localPort, Hex) && s.remPort == NumberOf(e.remPort, Hex)
    && s.localAddress == AddressText(NumberOf(e.local, Hex))
    && QuadValue(s.localAddress) == Some(NumberOf(e.local, Hex))
    && s.remAddress == AddressText(NumberOf(e.rem, Hex))
    && QuadValue(s.remAddress) == Some(NumberOf(e.rem, Hex))
  }

  lemma MatchPrintedEndpoint(address: string, port: string, tail: string)
    requires address != "" && All(address, IsXDigit) && port != "" && All(port, IsXDigit)
    requires tail == "" || !IsXDigit(tail[0])
    ensures MatchEndpoint(PrintEndpoint(address, port, tail)) == Some((address, port, tail))
  {
    LeadPrefix(address, ":" + (port + tail), IsXDigit);
    assert (":" + (port + tail))[1..] == port + tail;
    LeadPrefix(port, tail, IsXDigit);
  }

  /** Only numbers below a thousand leave a blank before them in four places. */
  lemma {:induction false} SlotWidth(num: nat)
    ensures |Digits(num, Dec)| < 4 <==> num < 1000
  {
    if num >= 10 {
      DigitsLength(num);
      DigitsLength(num / 10);
      DigitsLength(num / 100);
    }
  }

  lemma DigitsLength(num: nat)
    ensures |Digits(num, Dec)| == if num < 10 then 1 else |Digits(num / 10, Dec)| + 1
  {
  }

  lemma MatchPrintedSlot(num: nat, rest: string)
    requires num < 1000
    ensures MatchSlot(PrintSlot(num) + (": " + rest)) == Some((Digits(num, Dec), rest))
  {
    hide Digits, Lead;
    SlotWidth(num);
    var digits := Digits(num, Dec);
    var gap := Blanks(4 - |digits|);
    var after := ": " + rest;
    Assoc(gap, digits, after);
    assert IsDigit(digits[0]) && (digits + after)[0] == digits[0];
    LeadPrefix(gap, digits + after, IsSpace);
    LeadPrefix(digits, after, IsDigit);
    assert after[1..] == " " + rest && (" " + rest)[1..] == rest;
  }

  /** The pattern wants a blank before the slot number, so wider numbers do not match. */
  lemma WideSlotUnmatched(num: nat, rest: string)
    requires num >= 1000
    ensures MatchSocket(PrintSlot(num) + rest) == None
  {
    hide Digits, MatchEndpoint;
    SlotWidth(num);
    var digits := Digits(num, Dec);
    assert IsDigit(digits[0]) && (digits + rest)[0] == digits[0];
    SpanNone(digits + rest, IsSpace);
  }

  lemma MatchPrintedEntry(e: Entry)
    requires Printable(e) && e.num < 1000
    ensures MatchSocket(PrintEntry(e)) ==
      Some(SocketText(Digits(e.num, Dec), e.local, e.localPort, e.rem, e.remPort))
  {
    hide MatchSlot, MatchEndpoint, PrintSlot, PrintEndpoint, Digits, NumberOf;
    var rem := PrintEndpoint(e.rem, e.remPort, e.tail);
    MatchPrintedSlot(e.num, PrintSockets(e));
    MatchPrintedEndpoint(e.local, e.localPort, " " + rem);
    assert (" " + rem)[1..] == rem;
    MatchPrintedEndpoint(e.rem, e.remPort, e.tail);
  }

  lemma ConvertPrintedNum(num: nat)
    requires num < INT_HALF
    ensures Stoi(Digits(num, Dec)) == Some(num as int)
  {
    StrtolOfIntText(num);
    assert IntText(num) == Digits(num, Dec);
  }

  lemma ConvertPrinted(t: SocketText, e: Entry)
    requires Printable(e)
    requires t == SocketText(Digits(e.num, Dec), e.local, e.localPort, e.rem, e.remPort)
    ensures ConvertSocket(t).Some? && Shows(ConvertSocket(t).value, e)
  {
    hide NumberOf, Digits, Stoi, AddressText, QuadValue;
    ConvertPrintedNum(e.num);
    QuadRoundTrip(NumberOf(e.local, Hex));
    QuadRoundTrip(NumberOf(e.rem, Hex));
  }

  /** The line is read as a socket that shows `e`. */
  ghost predicate LineShows(line: string, e: Entry)
  {
    && MatchSocket(line).Some?
    && ConvertSocket(MatchSocket(line).value).Some?
    && Shows(ConvertSocket(MatchSocket(line).value).value, e)
  }

  /** One printed socket line is read as its socket exactly when the slot is below
      a thousand; from there on it is dropped. */
  lemma SocketRoundTrip(e: Entry)
    requires Printable(e)
    ensures LineShows(PrintEntry(e), e) <==> e.num < 1000
    ensures MatchSocket(PrintEntry(e)) == None <==> e.num >= 1000
  {
    hide MatchSocket, ConvertSocket, PrintSlot, PrintSockets, Shows, Digits;
    if e.num < 1000 {
      MatchPrintedEntry(e);
      ConvertPrinted(MatchSocket(PrintEntry(e)).value, e);
    } else {
      WideSlotUnmatched(e.num, ": " + PrintSockets(e));
    }
  }

  /** The entries that are listed in the end. */
  function Listed(es: seq<Entry>): seq<Entry>
  {
    if es == [] then [] else (if es[0].num < 1000 then [es[0]] else []) + Listed(es[1..])
  }

  ghost predicate ShowsAll(sockets: seq<TcpSocket>, es: seq<Entry>)
  {
    |sockets| == |es| && forall i :: 0 <= i < |es| ==> Shows(sockets[i], es[i])
  }

  lemma {:induction false} FoldPrinted(sockets: seq<TcpSocket>, shown: seq<Entry>, es: seq<Entry>)
    requires ShowsAll(sockets, shown)
    requires forall i :: 0 <= i < |es| ==> Printable(es[i])
    ensures FoldSockets(sockets, PrintEntries(es)).Some?
    ensures ShowsAll(FoldSockets(sockets, PrintEntries(es)).value, shown + Listed(es))
    decreases |es|
  {
    hide MatchSocket, ConvertSocket, PrintEntry, Printable, Shows;
    if es == [] {
      assert shown + Listed(es) == shown;
    } else {
      var line := PrintEntry(es[0]);
      assert PrintEntries(es)[1..] == PrintEntries(es[1..]);
      SocketRoundTrip(es[0]);
      if es[0].num < 1000 {
        var socket := ConvertSocket(MatchSocket(line).value).value;
        FoldPrinted(sockets + [socket], shown + [es[0]], es[1..]);
        Assoc(shown, [es[0]], Listed(es[1..]));
      } else {
        assert [] + Listed(es[1..]) == Listed(es[1..]);
        FoldPrinted(sockets, shown, es[1..]);
      }
    }
  }

  function PrintTable(title: string, es: seq<Entry>): string { Terminated([title] + PrintEntries(es), '\n') }

  lemma TableRead(title: string, es: seq<Entry>)
    requires '\n' !in title && MatchSocket(title) == None
    requires forall i :: 0 <= i < |es| ==> Printable(es[i])
    ensures SocketsOf(Some(PrintTable(title, es))) == FoldSockets([], PrintEntries(es))
  {
    hide Printable, MatchSocket, PrintEntries, Pieces, Terminated, FoldSockets, Free;
    TableLines(title, es);
    PiecesOfTerminated([title] + PrintEntries(es), '\n');
    AfterTitle(title, PrintEntries(es));
  }

  /** A printed table, after a title line, is read as exactly the entries with a slot
      below a thousand, in order. */
  lemma TcpRoundTrip(title: string, es: seq<Entry>)
    requires '\n' !in title && (TrimLeft(title) == "" || !IsDigit(TrimLeft(title)[0]))
    requires forall i :: 0 <= i < |es| ==> Printable(es[i])
    ensures
      var sockets := SocketsOf(Some(PrintTable(title, es)));
      sockets.Some? && ShowsAll(sockets.value, Listed(es))
  {
    hide Printable, ShowsAll, MatchSocket, PrintEntries, PrintTable, SocketsOf, FoldSockets, TrimLeft, Listed;
    TitleUnmatched(title);
    TableRead(title, es);
    FoldFromNothing(es);
  }

  lemma FoldFromNothing(es: seq<Entry>)
    requires forall i :: 0 <= i < |es| ==> Printable(es[i])
    ensures FoldSockets([], PrintEntries(es)).Some?
    ensures ShowsAll(FoldSockets([], PrintEntries(es)).value, Listed(es))
  {
    hide Printable, ShowsAll, PrintEntries, FoldSockets, Listed;
    var none: seq<Entry> := [];
    NothingShows();
    FoldPrinted([], none, es);
    assert none + Listed(es) == Listed(es);
  }

  lemma NothingShows()
    ensures ShowsAll([], [])
  {
  }

  lemma TitleUnmatched(title: string)
    requires TrimLeft(title) == "" || !IsDigit(TrimLeft(title)[0])
    ensures MatchSocket(title) == None
  {
    hide MatchEndpoint;
    SpanNone(TrimLeft(title), IsDigit);
  }

  lemma AfterTitle(title: string, lines: seq<string>)
    requires MatchSocket(title) == None
    ensures FoldSockets([], [title] + lines) == FoldSockets([], lines)
  {
    hide MatchSocket, ConvertSocket;
    assert ([title] + lines)[1..] == lines;
  }

  lemma TableLines(title: string, es: seq<Entry>)
    requires '\n' !in title
    requires forall i :: 0 <= i < |es| ==> Printable(es[i])
    ensures Free([title] + PrintEntries(es), '\n')
  {
    hide PrintEntry, Printable;
    var lines := [title] + PrintEntries(es);
    forall i | 0 <= i < |lines| ensures '\n' !in lines[i] {
      if i > 0 {
        EntryIsOneLine(es[i - 1]);
      }
    }
  }

  lemma EntryIsOneLine(e: Entry)
    requires Printable(e)
    ensures '\n' !in PrintEntry(e)
  {
    hide Digits, NumberOf;
    XDigitsHaveNoNewline(e.local);
    XDigitsHaveNoNewline(e.localPort);
    XDigitsHaveNoNewline(e.rem);
    XDigitsHaveNoNewline(e.remPort);
    XDigitsHaveNoNewline(Digits(e.num, Dec));
    assert '\n' !in PrintEndpoint(e.rem, e.remPort, e.tail);
    assert '\n' !in PrintSockets(e);
    assert '\n' !in PrintSlot(e.num);
  }

  lemma XDigitsHaveNoNewline(s: string)
    requires All(s, IsXDigit)
    ensures '\n' !in s
  {
  }

  // ------------------------------------------------------- from text to text

  function Zeros(n: nat): (z: string)
    ensures |z| == n && forall i :: 0 <= i < n ==> z[i] == '0'
  {
    seq(n, i => '0')
  }

  /** At least `width` hexadecimal digits, in lower case. */
  function PadHex(n: nat, width: nat): string
  {
    var s := Digits(n, Hex);
    if |s| < width then Zeros(width - |s|) + s else s
  }

  function LowerChar(c: char): char { if 'A' <= c <= 'F' then 'a' + (c - 'A') else c }

  function Lower(s: string): (t: string)
    ensures |t| == |s| && forall i :: 0 <= i < |s| ==> t[i] == LowerChar(s[i])
  {
    seq(|s|, i requires 0 <= i < |s| => LowerChar(s[i]))
  }

  /** Appending a digit to a padded number. */
  lemma PadHexSnoc(m: nat, d: nat, width: nat)
    requires d < 16 && 0 < |Digits(m, Hex)| <= width
    ensures PadHex(16 * m + d, width + 1) == PadHex(m, width) + [DigitChar(d)]
    ensures |Digits(16 * m + d, Hex)| <= width + 1
  {
    if m == 0 {
      assert Digits(0, Hex) == ['0'] && Digits(d, Hex) == [DigitChar(d)];
      assert Zeros(width - 1) + ['0'] == Zeros(width);
    } else {
      assert (16 * m + d) / 16 == m && (16 * m + d) % 16 == d;
      assert Digits(16 * m + d, Hex) == Digits(m, Hex) + [DigitChar(d)];
    }
  }

  /** Printing the number of a hexadecimal text, padded to its length, gives the text
      back in lower case. */
  lemma {:induction false} HexTextRoundTrip(s: string)
    requires s != "" && All(s, IsXDigit)
    ensures PadHex(NumberOf(s, Hex), |s|) == Lower(s)
    ensures |Digits(NumberOf(s, Hex), Hex)| <= |s|
    decreases |s|
  {
    hide NumberOf, PadHex, Digits, DigitValue, DigitChar, LowerChar;
    var t, c := s[..|s| - 1], s[|s| - 1];
    assert IsXDigit(c) && s == t + [c];
    NumberOfSnoc(t, c, Hex);
    LowerDigit(c);
    if t == "" {
      OneHexDigit(c);
      assert Lower(s) == [LowerChar(c)];
    } else {
      HexTextRoundTrip(t);
      PadHexSnoc(NumberOf(t, Hex), DigitValue(c), |t|);
      assert Lower(s) == Lower(t) + [LowerChar(c)];
    }
  }

  lemma OneHexDigit(c: char)
    requires IsXDigit(c)
    ensures NumberOf("", Hex) == 0
    ensures PadHex(DigitValue(c), 1) == [DigitChar(DigitValue(c))] && |Digits(DigitValue(c), Hex)| == 1
  {
  }

  lemma LowerDigit(c: char)
    requires IsXDigit(c)
    ensures DigitChar(DigitValue(c)) == LowerChar(c)
  {
  }

  /** A port of one to four digits is a 16-bit number. */
  lemma {:induction false} ShortPort(port: string)
    requires 1 <= |port| <= 4
    ensures HexStoi(port).Some? && HexStoi(port).value < 0x1_0000
    ensures HexStoi(port).value <
      (if |port| == 1 then 0x10 else if |port| == 2 then 0x100 else if |port| == 3 then 0x1000 else 0x1_0000)
  {
    if |port| > 1 {
      ShortPort(port[..|port| - 1]);
    } else {
      assert port == [] + [port[0]];
      NumberOfSnoc([], port[0], Hex);
    }
  }

  /** And it is the number the text shows, up to leading zeros and case. */
  lemma PortRoundTrip(port: string)
    requires 1 <= |port| <= 4 && All(port, IsXDigit)
    ensures HexStoi(port).Some? && PadHex(HexStoi(port).value, |port|) == Lower(port)
  {
    ShortPort(port);
    HexTextRoundTrip(port);
  }
}
