/** One region of /proc/<pid>/smaps: a header line and attribute lines. */
module Mmap {
  import opened Text
  import opened Numbers
  import opened Assignments

  datatype MapKind = Shared | Private

  datatype Header = Header(addressFrom: string, addressTo: string,
                           read: bool, write: bool, execute: bool, kind: MapKind,
                           offset: int, devMajor: nat, devMinor: nat, inode: int, pathname: string)

  /** A parsed region. `header` is `None` when the first line does not have the
      header format: the path is then empty and the permissions, the kind and
      the numbers are indeterminate. `sizes` binds the size attributes that were
      stored; the others are indeterminate. */
  datatype MMap = MMap(header: Option<Header>, sizes: map<string, nat>, vmFlags: seq<string>)

  // ------------------------------------------------------------ recognisers

  /** A nonempty run of characters satisfying `p`, and what follows it. */
  function Lead(s: string, p: char -> bool): (r: Option<(string, string)>)
    ensures r.Some? ==> r.value.0 != "" && All(r.value.0, p) && s == r.value.0 + r.value.1
  {
    var n := Span(s, p);
    if n == 0 then None else Some((s[..n], s[n..]))
  }

  function Expect(s: string, c: char): Option<string>
  {
    if s != "" && s[0] == c then Some(s[1..]) else None
  }

  function OneSpace(s: string): Option<string>
  {
    if s != "" && IsSpace(s[0]) then Some(s[1..]) else None
  }

  lemma LeadPrefix(a: string, b: string, p: char -> bool)
    requires a != "" && All(a, p)
    requires b == "" || !p(b[0])
    ensures Lead(a + b, p) == Some((a, b))
  {
    SpanPrefix(a, b, p);
  }

  /** The captures of the header pattern. */
  datatype HeaderText = HeaderText(addressFrom: string, addressTo: string, perms: string,
                                   offset: string, devMajor: string, devMinor: string,
                                   inode: string, pathname: string)

  predicate IsPerms(s: string)
  {
    && |s| == 4
    && (s[0] == 'r' || s[0] == '-') && (s[1] == 'w' || s[1] == '-')
    && (s[2] == 'x' || s[2] == '-') && (s[3] == 's' || s[3] == 'p')
  }

  function MatchAddresses(s: string): (r: Option<(string, string, string)>)
    ensures r.Some? ==> '-' in s
  {
    var (from, s1) :- Lead(s, IsXDigit);
    var s2 :- Expect(s1, '-');
    var (to, s3) :- Lead(s2, IsXDigit);
    var s4 :- OneSpace(s3);
    Some((from, to, s4))
  }

  function MatchDevice(s: string): (r: Option<(string, string, string, string)>)
    ensures r.Some? ==> r.value.0 != "" && All(r.value.0, IsXDigit)
  {
    var (offset, s1) :- Lead(s, IsXDigit);
    var s2 :- OneSpace(s1);
    var (devMajor, s3) :- Lead(s2, IsXDigit);
    var s4 :- Expect(s3, ':');
    var (devMinor, s5) :- Lead(s4, IsXDigit);
    var s6 :- OneSpace(s5);
    Some((offset, devMajor, devMinor, s6))
  }

  function MatchPath(s: string): (r: Option<(string, string)>)
    ensures r.Some? ==> r.value.0 != "" && All(r.value.0, IsDigit)
  {
    var (inode, s1) :- Lead(s, IsDigit);
    var (gap, path) :- Lead(s1, IsSpace);
    Some((inode, path))
  }

  function MatchPerms(s: string): Option<(string, string)>
  {
    if |s| < 4 || !IsPerms(s[..4]) then None
    else
      var rest :- OneSpace(s[4..]);
      Some((s[..4], rest))
  }

  function MatchHeader(line: string): (t: Option<HeaderText>)
    ensures t.Some? ==> IsPerms(t.value.perms)
    ensures t.Some? ==> '-' in line
    ensures t.Some? ==> t.value.offset != "" && All(t.value.offset, IsXDigit)
    ensures t.Some? ==> t.value.inode != "" && All(t.value.inode, IsDigit)
  {
    var (from, to, s) :- MatchAddresses(line);
    var (perms, t) :- MatchPerms(s);
    var (offset, devMajor, devMinor, u) :- MatchDevice(t);
    var (inode, path) :- MatchPath(u);
    Some(HeaderText(from, to, perms, offset, devMajor, devMinor, inode, path))
  }

  /** `m_offset = stol(...)`: the hexadecimal text is read in base 10. */
  function ConvertOffset(text: string): Option<int>
  {
    var v :- Stol(text);
    Some(ToInt32(v))
  }

  /** The assignments from the captures; `None` when a conversion throws. */
  function ConvertHeader(t: HeaderText): Option<Header>
    requires IsPerms(t.perms)
  {
    var offset :- ConvertOffset(t.offset);
    var devMajor :- HexStoi(t.devMajor);
    var devMinor :- HexStoi(t.devMinor);
    var inode :- Stol(t.inode);
    Some(Header(t.addressFrom, t.addressTo,
                t.perms[0] == 'r', t.perms[1] == 'w', t.perms[2] == 'x',
                if t.perms[3] == 'p' then Private else Shared,
                offset, devMajor, devMinor, inode, t.pathname))
  }

  /** An attribute line: an alphabetic key and its trimmed value. */
  function MatchAttribute(line: string): Option<(string, string)>
  {
    var (key, s1) :- Lead(line, IsAlpha);
    var s2 :- Expect(s1, ':');
    var (gap, value) :- Lead(s2, IsSpace);
    Some((key, Trim(value)))
  }

  /** The value pattern of sizes: a single digit, then whitespace. */
  function MatchSize(value: string): Option<nat>
  {
    if |value| >= 2 && IsDigit(value[0]) && IsSpace(value[1]) then Some(DigitValue(value[0])) else None
  }

  predicate IsSizeKey(key: string)
  {
    key in ["Size", "Rss", "Pss", "Shared_Clean", "Shared_Dirty", "Private_Clean", "Private_Dirty",
            "Referenced", "Anonymous", "AnonHugePages", "Swap", "KernelPageSize", "MMUPageSize", "Locked"]
  }

  // ------------------------------------------------------------ the patterns

  lemma LeadIff(s: string, p: char -> bool, a: string, b: string)
    ensures Lead(s, p) == Some((a, b)) <==>
      a != "" && All(a, p) && s == a + b && (b == "" || !p(b[0]))
  {
    hide Span;
    if a != "" && All(a, p) && s == a + b && (b == "" || !p(b[0])) {
      LeadPrefix(a, b, p);
    }
  }

  lemma ExpectIff(s: string, c: char, rest: string)
    ensures Expect(s, c) == Some(rest) <==> s == [c] + rest
  {
    if s == [c] + rest {
      assert s[1..] == rest;
    } else if s != "" {
      assert s == [s[0]] + s[1..];
    }
  }

  lemma OneSpaceIff(s: string, rest: string)
    ensures OneSpace(s) == Some(rest) <==> s != "" && IsSpace(s[0]) && s == [s[0]] + rest
  {
    if s != "" {
      assert s == [s[0]] + s[1..];
      if s == [s[0]] + rest {
        assert s[1..] == rest;
      }
    }
  }

  ghost predicate IsHex(s: string) { s != "" && All(s, IsXDigit) }

  ghost predicate AddressesText(s: string, from: string, to: string, sep: char, rest: string)
  {
    s == from + (['-'] + (to + ([sep] + rest))) && IsHex(from) && IsHex(to) && IsSpace(sep)
  }

  lemma MatchAddressesIff(s: string, from: string, to: string, rest: string)
    ensures MatchAddresses(s) == Some((from, to, rest)) <==> exists sep :: AddressesText(s, from, to, sep, rest)
  {
    hide Lead, Expect, OneSpace;
    if MatchAddresses(s) == Some((from, to, rest)) {
      var s1 := Lead(s, IsXDigit).value.1;
      var s2 := Expect(s1, '-').value;
      var s3 := Lead(s2, IsXDigit).value.1;
      ExpectIff(s1, '-', s2);
      OneSpaceIff(s3, rest);
      assert AddressesText(s, from, to, s3[0], rest);
    }
    if sep :| AddressesText(s, from, to, sep, rest) {
      LeadIff(s, IsXDigit, from, ['-'] + (to + ([sep] + rest)));
      ExpectIff(['-'] + (to + ([sep] + rest)), '-', to + ([sep] + rest));
      LeadIff(to + ([sep] + rest), IsXDigit, to, [sep] + rest);
      OneSpaceIff([sep] + rest, rest);
    }
  }

  ghost predicate PermsText(s: string, perms: string, sep: char, rest: string)
  {
    s == perms + ([sep] + rest) && IsPerms(perms) && IsSpace(sep)
  }

  lemma MatchPermsIff(s: string, perms: string, rest: string)
    ensures MatchPerms(s) == Some((perms, rest)) <==> exists sep :: PermsText(s, perms, sep, rest)
  {
    hide OneSpace;
    if MatchPerms(s) == Some((perms, rest)) {
      OneSpaceIff(s[4..], rest);
      assert s == perms + s[4..];
      assert PermsText(s, perms, s[4..][0], rest);
    }
    if sep :| PermsText(s, perms, sep, rest) {
      assert s[..4] == perms && s[4..] == [sep] + rest;
      OneSpaceIff([sep] + rest, rest);
    }
  }

  ghost predicate DeviceText(s: string, offset: string, devMajor: string, devMinor: string,
                             sep1: char, sep2: char, rest: string)
  {
    && s == offset + ([sep1] + (devMajor + ([':'] + (devMinor + ([sep2] + rest)))))
    && IsHex(offset) && IsHex(devMajor) && IsHex(devMinor) && IsSpace(sep1) && IsSpace(sep2)
  }

  lemma MatchDeviceIff(s: string, offset: string, devMajor: string, devMinor: string, rest: string)
    ensures MatchDevice(s) == Some((offset, devMajor, devMinor, rest)) <==>
      exists sep1, sep2 :: DeviceText(s, offset, devMajor, devMinor, sep1, sep2, rest)
  {
    if MatchDevice(s) == Some((offset, devMajor, devMinor, rest)) {
      MatchDeviceShape(s, offset, devMajor, devMinor, rest);
    }
    if sep1, sep2 :| DeviceText(s, offset, devMajor, devMinor, sep1, sep2, rest) {
      DeviceTextMatches(s, offset, devMajor, devMinor, sep1, sep2, rest);
    }
  }

  lemma MatchDeviceShape(s: string, offset: string, devMajor: string, devMinor: string, rest: string)
    requires MatchDevice(s) == Some((offset, devMajor, devMinor, rest))
    ensures exists sep1, sep2 :: DeviceText(s, offset, devMajor, devMinor, sep1, sep2, rest)
  {
    hide Lead, Expect, OneSpace;
    var s1 := Lead(s, IsXDigit).value.1;
    var s2 := OneSpace(s1).value;
    var s3 := Lead(s2, IsXDigit).value.1;
    var s4 := Expect(s3, ':').value;
    var s5 := Lead(s4, IsXDigit).value.1;
    OneSpaceIff(s1, s2);
    ExpectIff(s3, ':', s4);
    OneSpaceIff(s5, rest);
    assert DeviceText(s, offset, devMajor, devMinor, s1[0], s5[0], rest);
  }

  lemma DeviceTextMatches(s: string, offset: string, devMajor: string, devMinor: string,
                          sep1: char, sep2: char, rest: string)
    requires DeviceText(s, offset, devMajor, devMinor, sep1, sep2, rest)
    ensures MatchDevice(s) == Some((offset, devMajor, devMinor, rest))
  {
    hide Lead, Expect, OneSpace;
    var s5 := [sep2] + rest;
    var s4 := devMinor + s5;
    var s3 := [':'] + s4;
    var s2 := devMajor + s3;
    var s1 := [sep1] + s2;
    LeadIff(s, IsXDigit, offset, s1);
    OneSpaceIff(s1, s2);
    LeadIff(s2, IsXDigit, devMajor, s3);
    ExpectIff(s3, ':', s4);
    LeadIff(s4, IsXDigit, devMinor, s5);
    OneSpaceIff(s5, rest);
  }

  ghost predicate PathText(s: string, inode: string, gap: string, path: string)
  {
    && s == inode + (gap + path) && inode != "" && All(inode, IsDigit)
    && gap != "" && All(gap, IsSpace) && (path == "" || !IsSpace(path[0]))
  }

  lemma MatchPathIff(s: string, inode: string, path: string)
    ensures MatchPath(s) == Some((inode, path)) <==> exists gap :: PathText(s, inode, gap, path)
  {
    hide Lead;
    if MatchPath(s) == Some((inode, path)) {
      var s1 := Lead(s, IsDigit).value.1;
      var gap := Lead(s1, IsSpace).value.0;
      LeadIff(s1, IsSpace, gap, path);
      assert PathText(s, inode, gap, path);
    }
    if gap :| PathText(s, inode, gap, path) {
      assert IsSpace(gap[0]) && (gap + path)[0] == gap[0];
      LeadIff(s, IsDigit, inode, gap + path);
      LeadIff(gap + path, IsSpace, gap, path);
    }
  }

  /** The header line, cut where its captures end. */
  ghost predicate HeaderLine(line: string, t: HeaderText, s1: string, s2: string, s3: string)
  {
    && (exists sep :: AddressesText(line, t.addressFrom, t.addressTo, sep, s1))
    && (exists sep :: PermsText(s1, t.perms, sep, s2))
    && (exists sep1, sep2 :: DeviceText(s2, t.offset, t.devMajor, t.devMinor, sep1, sep2, s3))
    && (exists gap :: PathText(s3, t.inode, gap, t.pathname))
  }

  /** The declaration pattern: two hexadecimal addresses with a dash between them, the
      permissions, the offset, the device, the inode and the path. */
  lemma MatchHeaderIff(line: string, t: HeaderText)
    ensures MatchHeader(line) == Some(t) <==> exists s1, s2, s3 :: HeaderLine(line, t, s1, s2, s3)
  {
    hide MatchAddresses, MatchPerms, MatchDevice, MatchPath, AddressesText, PermsText, DeviceText, PathText;
    if MatchHeader(line) == Some(t) {
      var s1 := MatchAddresses(line).value.2;
      var s2 := MatchPerms(s1).value.1;
      var s3 := MatchDevice(s2).value.3;
      HeaderParts(line, t, s1, s2, s3);
      assert HeaderLine(line, t, s1, s2, s3);
    }
    if s1, s2, s3 :| HeaderLine(line, t, s1, s2, s3) {
      HeaderParts(line, t, s1, s2, s3);
    }
  }

  lemma HeaderParts(line: string, t: HeaderText, s1: string, s2: string, s3: string)
    ensures HeaderLine(line, t, s1, s2, s3) <==>
      && MatchAddresses(line) == Some((t.addressFrom, t.addressTo, s1)) && MatchPerms(s1) == Some((t.perms, s2))
      && MatchDevice(s2) == Some((t.offset, t.devMajor, t.devMinor, s3))
      && MatchPath(s3) == Some((t.inode, t.pathname))
  {
    hide MatchAddresses, MatchPerms, MatchDevice, MatchPath, AddressesText, PermsText, DeviceText, PathText;
    MatchAddressesIff(line, t.addressFrom, t.addressTo, s1);
    MatchPermsIff(s1, t.perms, s2);
    MatchDeviceIff(s2, t.offset, t.devMajor, t.devMinor, s3);
    MatchPathIff(s3, t.inode, t.pathname);
  }

  ghost predicate AttributeText(line: string, key: string, gap: string, rest: string)
  {
    && line == key + ([':'] + (gap + rest)) && key != "" && All(key, IsAlpha)
    && gap != "" && All(gap, IsSpace) && (rest == "" || !IsSpace(rest[0]))
  }

  /** The attribute pattern: a purely alphabetic key, a colon, whitespace, and a value,
      which is trimmed. */
  lemma MatchAttributeIff(line: string, key: string, value: string)
    ensures MatchAttribute(line) == Some((key, value)) <==>
      exists gap, rest :: AttributeText(line, key, gap, rest) && value == Trim(rest)
  {
    hide Lead, Expect, Trim;
    if MatchAttribute(line) == Some((key, value)) {
      var s1 := Lead(line, IsAlpha).value.1;
      var s2 := Expect(s1, ':').value;
      var gap, rest := Lead(s2, IsSpace).value.0, Lead(s2, IsSpace).value.1;
      ExpectIff(s1, ':', s2);
      LeadIff(s2, IsSpace, gap, rest);
      assert AttributeText(line, key, gap, rest) && value == Trim(rest);
    }
    if gap, rest :| AttributeText(line, key, gap, rest) && value == Trim(rest) {
      LeadIff(line, IsAlpha, key, [':'] + (gap + rest));
      ExpectIff([':'] + (gap + rest), ':', gap + rest);
      LeadIff(gap + rest, IsSpace, gap, rest);
    }
  }

  // ------------------------------------------------------------- the parser

  function StepAttribute(m: MMap, line: string): MMap
  {
    match MatchAttribute(line)
    case None => m
    case Some((key, value)) =>
      match MatchSize(value)
      case Some(n) => if IsSizeKey(key) then m.(sizes := m.sizes[key := n]) else m
      case None => m.(vmFlags := SplitOn(value, ' '))
  }

  function FoldAttributes(m: MMap, lines: seq<string>): MMap
    decreases |lines|
  {
    if lines == [] then m else FoldAttributes(StepAttribute(m, lines[0]), lines[1..])
  }

  /** What the declaration line sets; `None` when a conversion throws. */
  function Declare(line: string): Option<MMap>
  {
    match MatchHeader(line)
    case None => Some(MMap(None, map[], []))
    case Some(text) =>
      var header :- ConvertHeader(text);
      Some(MMap(Some(header), map[], []))
  }

  /** The region built from the lines of the stream. */
  function MMapOf(lines: seq<string>): Option<MMap>
  {
    if lines == [] then Declare("")
    else
      var m :- Declare(lines[0]);
      Some(FoldAttributes(m, lines[1..]))
  }

  /** The constructor: it consumes the stream. */
  method ParseMMap(ss: InStream) returns (map': Option<MMap>)
    modifies ss
    ensures map' == MMapOf(Pieces(old(ss.rest), '\n'))
    ensures map'.Some? ==> ss.rest == ""
  {
    hide StepAttribute, Declare;
    ghost var lines := Pieces(ss.rest, '\n');
    var declaration := ss.GetLine('\n');
    map' := Declare(declaration.GetOr(""));
    if map' == None {
      return;
    }
    var m := map'.value;
    var line := ss.GetLine('\n');
    while line.Some?
      invariant MMapOf(lines) == Some(FoldAttributes(m,
        if line.Some? then [line.value] + Pieces(ss.rest, '\n') else []))
      invariant line.None? ==> ss.rest == ""
      decreases |ss.rest|, line.Some?
    {
      m := StepAttribute(m, line.value);
      line := ss.GetLine('\n');
    }
    map' := Some(m);
  }

  // ------------------------------------------------------------- properties

  /** What `stol` accepts of the hexadecimal offset: it starts with a decimal
      digit, and the digits before its first letter are not too many. */
  predicate OffsetReadable(text: string)
  {
    text != "" && IsDigit(text[0]) && DecimalPrefix(text) < HALF_WORD
  }

  /** Any other offset makes the constructor throw. */
  lemma OffsetThrowsIff(text: string)
    requires text != "" && All(text, IsXDigit)
    ensures ConvertOffset(text) == None <==> !OffsetReadable(text)
    ensures OffsetReadable(text) ==> ConvertOffset(text) == Some(ToInt32(DecimalPrefix(text)))
  {
    StolOfHexText(text);
  }

  /** The offset is right exactly for values below ten. */
  lemma OffsetExact(text: string)
    requires text != "" && All(text, IsXDigit)
    ensures ConvertOffset(text) == Some(NumberOf(text, Hex) as int) <==> NumberOf(text, Hex) < 10
  {
    hide NumberOf, Stol;
    assert IsXDigit(text[0]);
    StolOfHexText(text);
    DecimalPrefixExact(text);
    if !IsDigit(text[0]) {
      LeadingLetterIsLarge(text);
    }
  }

  /** The captured numbers are in the range of their conversions. */
  predicate HeaderFits(t: HeaderText)
  {
    && OffsetReadable(t.offset)
    && NumberOf(t.devMajor, Hex) < INT_HALF && NumberOf(t.devMinor, Hex) < INT_HALF
    && NumberOf(t.inode, Dec) < HALF_WORD
  }

  lemma HeaderConvertsIff(t: HeaderText)
    requires IsPerms(t.perms)
    requires t.offset != "" && All(t.offset, IsXDigit) && t.inode != "" && All(t.inode, IsDigit)
    ensures ConvertHeader(t).Some? <==> HeaderFits(t)
  {
    hide NumberOf, ConvertOffset, OffsetReadable, Strtol;
    OffsetThrowsIff(t.offset);
    StrtolOfSigned(t.inode, false, t.inode);
  }

  /** If the line has the header format, its numbers convert. */
  predicate LineFits(line: string) { MatchHeader(line).Some? ==> HeaderFits(MatchHeader(line).value) }

  /** The constructor throws exactly when the first line has the header format and
      a number in it does not convert. */
  lemma MMapOfIff(lines: seq<string>)
    ensures MMapOf(lines).Some? <==> lines == [] || LineFits(lines[0])
  {
    hide MatchHeader, ConvertHeader, HeaderFits, FoldAttributes;
    if lines == [] {
      NoHeader();
    } else if MatchHeader(lines[0]).Some? {
      HeaderConvertsIff(MatchHeader(lines[0]).value);
    }
  }

  lemma NoHeader()
    ensures MatchHeader("") == None
  {
  }

  /** Every matched line gets a category except one whose header is missing:
      its kind was never set. */
  function Category(m: MMap): Option<string>
  {
    var path := if m.header.Some? then m.header.value.pathname else "";
    if Contains(path, "/usr/bin") || Contains(path, "/usr/lib")
       || path == "[vsyscall]" || path == "[vdso]" || path == "[vvar]" then Some("Image")
    else if Contains(path, "[heap]") then Some("Heap")
    else if Contains(path, "[stack") then Some("Stack")
    else if m.header.None? then None
    else if m.header.value.kind == Shared then Some("Shareable")
    else if path != "" then Some("Mapped File")
    else Some("Private")
  }

  predicate Contains(s: string, t: string)
  {
    t <= s || (s != "" && Contains(s[1..], t))
  }

  lemma {:induction false} ContainsPart(a: string, t: string, b: string)
    ensures Contains(a + t + b, t)
  {
    if a == "" {
      assert a + t + b == t + b;
    } else {
      assert (a + t + b)[1..] == a[1..] + t + b;
      ContainsPart(a[1..], t, b);
    }
  }

  predicate IsUsrPath(path: string) { Contains(path, "/usr/bin") || Contains(path, "/usr/lib") }

  /** The tests are ordered: a path with /usr/lib or /usr/bin in it makes an image
      even of a shared region, a heap or a stack; after that a heap goes before a
      stack, and either before the kind. */
  lemma PathGoesFirst(m: MMap, a: string, b: string)
    requires m.header.Some?
    ensures
      var path := m.header.value.pathname;
      && (path == a + "/usr/lib" + b || path == a + "/usr/bin" + b ==> Category(m) == Some("Image"))
      && (path == a + "[heap]" + b ==> Category(m) == Some(if IsUsrPath(path) then "Image" else "Heap"))
      && (path == a + "[stack" + b ==>
            Category(m) == Some(
              if IsUsrPath(path) then "Image" else if Contains(path, "[heap]") then "Heap" else "Stack"))
  {
    hide Contains;
    var path := m.header.value.pathname;
    ContainsPart(a, "/usr/lib", b);
    ContainsPart(a, "/usr/bin", b);
    ContainsPart(a, "[heap]", b);
    ContainsPart(a, "[stack", b);
    if path == a + "[heap]" + b || path == a + "[stack" + b {
      assert path != "[vdso]" && path != "[vvar]" && path != "[vsyscall]" by {
        BracketsDiffer(a, b);
      }
    }
  }

  lemma BracketsDiffer(a: string, b: string)
    ensures a + "[heap]" + b !in ["[vsyscall]", "[vdso]", "[vvar]"]
    ensures a + "[stack" + b !in ["[vsyscall]", "[vdso]", "[vvar]"]
  {
    assert (a + "[heap]" + b)[|a| + 1] == 'h' && (a + "[heap]" + b)[|a|] == '[';
    assert (a + "[stack" + b)[|a| + 1] == 's' && (a + "[stack" + b)[|a| + 2] == 't' && (a + "[stack" + b)[|a|] == '[';
  }

  /** Paths that decide the category by themselves. */
  predicate IsSpecial(path: string)
  {
    || IsUsrPath(path) || path in ["[vsyscall]", "[vdso]", "[vvar]"]
    || Contains(path, "[heap]") || Contains(path, "[stack")
  }

  /** For any other path the kind decides, and for a private region whether there is
      a path. */
  lemma KindDecides(m: MMap)
    requires m.header.Some? && !IsSpecial(m.header.value.pathname)
    ensures m.header.value.kind == Shared ==> Category(m) == Some("Shareable")
    ensures m.header.value.kind == Private && m.header.value.pathname != "" ==> Category(m) == Some("Mapped File")
    ensures m.header.value.kind == Private && m.header.value.pathname == "" ==> Category(m) == Some("Private")
  {
  }

  /** The three kernel mappings are images. */
  lemma KernelMappings(m: MMap)
    requires m.header.Some? && m.header.value.pathname in ["[vsyscall]", "[vdso]", "[vvar]"]
    ensures Category(m) == Some("Image")
  {
    hide Contains;
  }

  /** Only one-digit sizes with purely alphabetic keys are ever stored: none of
      the keys with an underscore, and no size above nine. */
  lemma {:induction false} SizesStored(m: MMap, lines: seq<string>)
    requires forall k :: k in m.sizes ==> m.sizes[k] < 10 && All(k, IsAlpha)
    ensures forall k :: k in FoldAttributes(m, lines).sizes ==>
      FoldAttributes(m, lines).sizes[k] < 10 && All(k, IsAlpha)
    decreases |lines|
  {
    if lines != [] {
      SizeStored(m, lines[0]);
      hide StepAttribute;
      SizesStored(StepAttribute(m, lines[0]), lines[1..]);
    }
  }

  lemma SizeStored(m: MMap, line: string)
    requires forall k :: k in m.sizes ==> m.sizes[k] < 10 && All(k, IsAlpha)
    ensures forall k :: k in StepAttribute(m, line).sizes ==>
      StepAttribute(m, line).sizes[k] < 10 && All(k, IsAlpha)
  {
    hide IsSizeKey, Trim, SplitOn;
  }

  /** The size a line stores, if any. */
  function SizeEffect(line: string): Effect<string>
  {
    match MatchAttribute(line)
    case None => Skip
    case Some((key, value)) =>
      if IsSizeKey(key) && MatchSize(value).Some? then Set(key, MatchSize(value).value) else Skip
  }

  function SizeEffects(lines: seq<string>): (es: seq<Effect<string>>)
    ensures |es| == |lines|
    ensures forall i :: 0 <= i < |lines| ==> es[i] == SizeEffect(lines[i])
  {
    seq(|lines|, i requires 0 <= i < |lines| => SizeEffect(lines[i]))
  }

  lemma StepSize(m: MMap, line: string)
    ensures Apply(m.sizes, SizeEffect(line)) == Done(StepAttribute(m, line).sizes)
  {
    hide IsSizeKey, MatchAttribute, SplitOn;
  }

  lemma {:induction false} SizesApplied(m: MMap, lines: seq<string>)
    ensures ApplyAll(m.sizes, SizeEffects(lines)) == Done(FoldAttributes(m, lines).sizes)
    decreases |lines|
  {
    if lines != [] {
      hide SizeEffect, StepAttribute;
      StepSize(m, lines[0]);
      SizesApplied(StepAttribute(m, lines[0]), lines[1..]);
      assert SizeEffects(lines)[1..] == SizeEffects(lines[1..]);
    }
  }

  /** A stored size is the one on the last line that stores one under its key. */
  lemma SizesLastWriter(m: MMap, lines: seq<string>, key: string)
    requires m.sizes == map[]
    ensures
      var sizes := FoldAttributes(m, lines).sizes;
      (if key in sizes then Some(sizes[key]) else None) == LastSet(SizeEffects(lines), key)
  {
    hide SizeEffect, FoldAttributes;
    SizesApplied(m, lines);
    DoneIff(m.sizes, SizeEffects(lines));
    LastWriter(m.sizes, SizeEffects(lines), key);
  }

  /** The keys of the sizes that a line can store: of the fourteen keys it knows,
      the ten without an underscore. */
  lemma SizeKeys(key: string)
    ensures IsSizeKey(key) && All(key, IsAlpha) <==>
      key in ["Size", "Rss", "Pss", "Referenced", "Anonymous", "AnonHugePages", "Swap",
              "KernelPageSize", "MMUPageSize", "Locked"]
  {
    hide IsSizeKey, All;
    if key in ["Size", "Rss", "Pss", "Referenced", "Anonymous", "AnonHugePages", "Swap",
               "KernelPageSize", "MMUPageSize", "Locked"] {
      StoredKeys(key);
    } else if IsSizeKey(key) {
      OtherKeys(key);
    }
  }

  lemma StoredKeys(key: string)
    requires key in ["Size", "Rss", "Pss", "Referenced", "Anonymous", "AnonHugePages", "Swap",
                     "KernelPageSize", "MMUPageSize", "Locked"]
    ensures IsSizeKey(key) && All(key, IsAlpha)
  {
    if key in ["Size", "Rss", "Pss", "Referenced", "Anonymous"] {
      assert All(key, IsAlpha);
    } else {
      assert All(key, IsAlpha);
    }
  }

  lemma OtherKeys(key: string)
    requires IsSizeKey(key)
    requires key !in ["Size", "Rss", "Pss", "Referenced", "Anonymous", "AnonHugePages", "Swap",
                      "KernelPageSize", "MMUPageSize", "Locked"]
    ensures !All(key, IsAlpha)
  {
    assert key[6] == '_' || key[7] == '_';
  }

  lemma PrintedSize(n: nat)
    ensures
      var value := Digits(n, Dec) + " kB";
      && NotSpace(value[0]) && Trim(value) == value
      && MatchSize(value) == (if n < 10 then Some(n) else None)
      && SplitOn(value, ' ') == [Digits(n, Dec), "kB"]
  {
    var digits := Digits(n, Dec);
    var value := digits + " kB";
    assert IsDigit(digits[0]) && value[0] == digits[0];
    assert value[|value| - 1] == 'B';
    TrimOfPadded("", value, "");
    assert "" + value + "" == value;
    SplitDigits(n);
    SizeOfDigits(n);
  }

  lemma SplitDigits(n: nat)
    ensures SplitOn(Digits(n, Dec) + " kB", ' ') == [Digits(n, Dec), "kB"]
  {
    var digits := Digits(n, Dec);
    assert ' ' !in digits by { assert All(digits, IsDigit); }
    SplitOfJoin([digits, "kB"], ' ');
    assert [digits, "kB"][1..] == ["kB"] && ["kB"][1..] == [];
    assert Join(["kB"], ' ') == "kB";
    assert Join([digits, "kB"], ' ') == digits + " kB";
  }

  lemma OneDigit(n: nat)
    ensures |Digits(n, Dec)| == 1 <==> n < 10
    ensures n < 10 ==> DigitValue(Digits(n, Dec)[0]) == n
  {
    if n < 10 {
      NumberOfDigits(n, Dec);
      NumberOfSnoc("", Digits(n, Dec)[0], Dec);
      assert Digits(n, Dec) == "" + [Digits(n, Dec)[0]];
    }
  }

  lemma SizeOfDigits(n: nat)
    ensures MatchSize(Digits(n, Dec) + " kB") == if n < 10 then Some(n) else None
  {
    hide Digits;
    OneDigit(n);
    var digits := Digits(n, Dec);
    var value := digits + " kB";
    assert IsDigit(digits[0]) && value[0] == digits[0];
    if n < 10 {
      assert value[1] == ' ';
    } else {
      assert IsDigit(digits[1]) && value[1] == digits[1];
    }
  }

  /** A printed size is stored exactly when it has one digit; a larger one
      overwrites the flags instead. */
  lemma SizePrintedLine(m: MMap, key: string, n: nat)
    requires IsSizeKey(key) && key != "" && All(key, IsAlpha)
    ensures StepAttribute(m, key + (": " + (Digits(n, Dec) + " kB"))) ==
      if n < 10 then m.(sizes := m.sizes[key := n]) else m.(vmFlags := [Digits(n, Dec), "kB"])
  {
    hide IsSizeKey, MatchAttribute, SplitOn, Trim;
    var value := Digits(n, Dec) + " kB";
    PrintedSize(n);
    MatchAttributeOf(key, value);
  }

  // ----------------------------------------------------------------- vmFlags

  /** What a line stores in the flags, if anything: an attribute whose value is
      not a single digit followed by whitespace. */
  function FlagsOf(line: string): Option<seq<string>>
  {
    var (key, value) :- MatchAttribute(line);
    if MatchSize(value).Some? then None else Some(SplitOn(value, ' '))
  }

  function LastFlags(lines: seq<string>): Option<seq<string>>
  {
    if lines == [] then None
    else if FlagsOf(lines[|lines| - 1]).Some? then FlagsOf(lines[|lines| - 1])
    else LastFlags(lines[..|lines| - 1])
  }

  lemma {:induction false} AttributesSnoc(m: MMap, lines: seq<string>, line: string)
    ensures FoldAttributes(m, lines + [line]) == StepAttribute(FoldAttributes(m, lines), line)
    decreases |lines|
  {
    if lines == [] {
      assert lines + [line] == [line] && [line][1..] == [];
    } else {
      assert (lines + [line])[1..] == lines[1..] + [line];
      AttributesSnoc(StepAttribute(m, lines[0]), lines[1..], line);
    }
  }

  /** Attributes never touch the header, and the flags are those of the last
      line that stores any, whatever its key. */
  lemma {:induction false} VmFlagsLastWriter(m: MMap, lines: seq<string>)
    ensures FoldAttributes(m, lines).header == m.header
    ensures FoldAttributes(m, lines).vmFlags == LastFlags(lines).GetOr(m.vmFlags)
    decreases |lines|
  {
    if lines != [] {
      var front, last := lines[..|lines| - 1], lines[|lines| - 1];
      assert front + [last] == lines;
      AttributesSnoc(m, front, last);
      VmFlagsLastWriter(m, front);
    }
  }

  function PrintFlags(flags: seq<string>, pad: string): string { "VmFlags: " + Join(flags, ' ') + pad }

  /** The list starts like a size: a lone digit before other flags. */
  predicate LooksLikeSize(flags: seq<string>)
  {
    |flags| >= 2 && |flags[0]| == 1 && IsDigit(flags[0][0])
  }

  ghost predicate AreWords(flags: seq<string>)
  {
    forall i :: 0 <= i < |flags| ==> flags[i] != "" && All(flags[i], NotSpace)
  }

  lemma {:induction false} JoinEnds(flags: seq<string>)
    requires flags != [] && AreWords(flags)
    ensures Join(flags, ' ') != ""
    ensures NotSpace(Join(flags, ' ')[0]) && NotSpace(Join(flags, ' ')[|Join(flags, ' ')| - 1])
  {
    assert NotSpace(flags[0][0]);
    if |flags| == 1 {
      assert NotSpace(flags[0][|flags[0]| - 1]);
    } else {
      JoinEnds(flags[1..]);
    }
  }

  lemma JoinLooksLikeSize(flags: seq<string>)
    requires flags != [] && AreWords(flags)
    ensures MatchSize(Join(flags, ' ')).Some? <==> LooksLikeSize(flags)
  {
    var j := Join(flags, ' ');
    assert NotSpace(flags[0][0]);
    if |flags| == 1 {
      assert |j| >= 2 ==> NotSpace(j[1]);
    } else {
      assert j == flags[0] + ([' '] + Join(flags[1..], ' '));
      if |flags[0]| >= 2 {
        assert j[1] == flags[0][1] && NotSpace(flags[0][1]);
      } else {
        assert j[0] == flags[0][0] && j[1] == ' ';
      }
    }
  }

  lemma MatchAttributeOf(key: string, value: string)
    requires key != "" && All(key, IsAlpha)
    requires value != "" && NotSpace(value[0])
    ensures MatchAttribute(key + (": " + value)) == Some((key, Trim(value)))
  {
    hide Trim, Lead;
    LeadPrefix(key, ": " + value, IsAlpha);
    assert (": " + value)[1..] == " " + value;
    LeadPrefix(" ", value, IsSpace);
  }

  lemma MatchPrintedFlags(flags: seq<string>, pad: string)
    requires flags != [] && AreWords(flags) && All(pad, IsSpace)
    ensures MatchAttribute(PrintFlags(flags, pad)) == Some(("VmFlags", Join(flags, ' ')))
  {
    hide MatchAttribute, Join, Trim;
    var j := Join(flags, ' ');
    JoinEnds(flags);
    assert PrintFlags(flags, pad) == "VmFlags" + (": " + (j + pad));
    MatchAttributeOf("VmFlags", j + pad);
    TrimOfPadded("", j, pad);
    assert "" + j + pad == j + pad;
  }

  /** A printed list of flags is read back exactly unless it looks like a size. */
  lemma VmFlagsRoundTrip(flags: seq<string>, pad: string)
    requires flags != [] && AreWords(flags) && All(pad, IsSpace)
    ensures FlagsOf(PrintFlags(flags, pad)) == Some(flags) <==> !LooksLikeSize(flags)
  {
    MatchPrintedFlags(flags, pad);
    JoinLooksLikeSize(flags);
    forall i | 0 <= i < |flags| ensures ' ' !in flags[i] {
      assert All(flags[i], NotSpace);
    }
    SplitOfJoin(flags, ' ');
  }

  /** A region whose last attribute line prints flags has those flags, whatever
      sizes came before. */
  lemma VmFlagsOfRegion(lines: seq<string>, flags: seq<string>, pad: string)
    requires lines != [] && Declare(lines[0]).Some?
    requires flags != [] && AreWords(flags) && All(pad, IsSpace) && !LooksLikeSize(flags)
    ensures MMapOf(lines + [PrintFlags(flags, pad)]).Some?
    ensures MMapOf(lines + [PrintFlags(flags, pad)]).value.vmFlags == flags
  {
    var last := PrintFlags(flags, pad);
    var all := lines + [last];
    assert all[1..] == lines[1..] + [last];
    assert all[1..][|all[1..]| - 1] == last;
    VmFlagsLastWriter(Declare(lines[0]).value, all[1..]);
    VmFlagsRoundTrip(flags, pad);
  }
}
