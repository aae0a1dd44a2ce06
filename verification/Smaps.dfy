/** /proc/<pid>/smaps: the lines are cut into groups, one region each. */
module Smaps {
  import opened Text
  import opened Numbers
  import opened Mmap

  /** A line that starts a new group. */
  predicate Declares(line: string) { '-' in line }

  /** The grouping loop: `current` is the group being collected. */
  function Cut(current: seq<string>, lines: seq<string>): seq<seq<string>>
    decreases |lines|
  {
    if lines == [] then [current]
    else if Declares(lines[0]) && current != [] then [current] + Cut([lines[0]], lines[1..])
    else Cut(current + [lines[0]], lines[1..])
  }

  function Segments(lines: seq<string>): seq<seq<string>> { Cut([], lines) }

  function FoldMaps(maps: seq<MMap>, groups: seq<seq<string>>): Outcome<seq<MMap>>
    decreases |groups|
  {
    if groups == [] then Done(maps)
    else match MMapOf(groups[0])
      case None => Threw(maps)
      case Some(m) => FoldMaps(maps + [m], groups[1..])
  }

  /** `readSmaps`: the vector is cleared; an unreadable file leaves it empty. */
  function DecodeSmaps(text: Option<string>): Outcome<seq<MMap>>
  {
    if text.None? then Done([]) else FoldMaps([], Segments(Pieces(text.value, '\n')))
  }

  // ----------------------------------------------------------- the partition

  function Concat(groups: seq<seq<string>>): seq<string>
  {
    if groups == [] then [] else groups[0] + Concat(groups[1..])
  }

  /** How many lines declare. */
  function CountDeclares(lines: seq<string>): nat
  {
    if lines == [] then 0 else (if Declares(lines[0]) then 1 else 0) + CountDeclares(lines[1..])
  }

  /** No line of the group declares, except perhaps its first. */
  ghost predicate OnlyFirstDeclares(group: seq<string>)
  {
    forall j :: 1 <= j < |group| ==> !Declares(group[j])
  }

  /** `groups` cuts `lines` exactly before each declaring line, the very first
      line of the input excepted. */
  ghost predicate IsPartition(groups: seq<seq<string>>, lines: seq<string>)
  {
    && groups != []
    && Concat(groups) == lines
    && (forall i :: 0 <= i < |groups| ==> OnlyFirstDeclares(groups[i]))
    && (forall i :: 1 <= i < |groups| ==> groups[i] != [] && Declares(groups[i][0]))
    && (groups[0] == [] ==> lines == [])
  }

  lemma {:induction false} CutIsPartition(current: seq<string>, lines: seq<string>)
    requires OnlyFirstDeclares(current)
    ensures IsPartition(Cut(current, lines), current + lines)
    ensures |Cut(current, lines)| ==
      1 + CountDeclares(if current == [] && lines != [] then lines[1..] else lines)
    ensures current != [] ==> current <= Cut(current, lines)[0]
    decreases |lines|
  {
    if lines == [] {
      assert [current][1..] == [] && current + [] == current;
      assert current + lines == current;
    } else if Declares(lines[0]) && current != [] {
      CutIsPartition([lines[0]], lines[1..]);
      assert [lines[0]] + lines[1..] == lines;
      assert Cut(current, lines)[1..] == Cut([lines[0]], lines[1..]);
    } else {
      CutIsPartition(current + [lines[0]], lines[1..]);
      assert current + [lines[0]] + lines[1..] == current + lines;
    }
  }

  /** For arbitrary lines: the groups handed to the region parser partition the
      input, and there is one more of them than declaring lines after the first. */
  lemma SegmentsPartition(lines: seq<string>)
    ensures IsPartition(Segments(lines), lines)
    ensures |Segments(lines)| == 1 + CountDeclares(if lines == [] then [] else lines[1..])
  {
    CutIsPartition([], lines);
    assert [] + lines == lines;
  }

  /** The first group of a partition ends at the next declaring line, or with the input. */
  lemma FirstGroupMaximal(groups: seq<seq<string>>, lines: seq<string>)
    requires IsPartition(groups, lines)
    ensures groups[0] <= lines && (groups[0] == [] ==> lines == [])
    ensures Concat(groups[1..]) == lines[|groups[0]|..]
    ensures |groups[0]| < |lines| ==> Declares(lines[|groups[0]|])
    ensures |groups| == 1 <==> |groups[0]| == |lines|
    ensures |groups| > 1 ==> IsPartition(groups[1..], lines[|groups[0]|..])
  {
    if |groups| > 1 {
      assert groups[1..][0] == groups[1];
    }
  }

  /** The partition is unique, so the loop computes the only one there is. */
  lemma {:induction false} PartitionUnique(a: seq<seq<string>>, b: seq<seq<string>>, lines: seq<string>)
    requires IsPartition(a, lines) && IsPartition(b, lines)
    ensures a == b
    decreases |a|
  {
    FirstGroupMaximal(a, lines);
    FirstGroupMaximal(b, lines);
    assert |a[0]| == |b[0]| by {
      assert OnlyFirstDeclares(a[0]) && OnlyFirstDeclares(b[0]);
    }
    assert a[0] == b[0];
    assert a == [a[0]] + a[1..] && b == [b[0]] + b[1..];
    if |a| > 1 {
      PartitionUnique(a[1..], b[1..], lines[|a[0]|..]);
    }
  }

  // ------------------------------------------------------------- completion

  /** No line of the text has the header format with a number that does not convert. */
  predicate SmapsTextOk(text: Option<string>)
  {
    text.Some? ==> forall line :: line in Pieces(text.value, '\n') ==> LineFits(line)
  }

  /** A line without a dash is never a header. */
  lemma QuietLineFits(line: string)
    requires !Declares(line)
    ensures LineFits(line)
  {
  }

  lemma GroupCompletesIff(group: seq<string>)
    requires OnlyFirstDeclares(group)
    ensures MMapOf(group).Some? <==> forall line :: line in group ==> LineFits(line)
  {
    hide LineFits, MMapOf;
    MMapOfIff(group);
    forall j | 1 <= j < |group| ensures LineFits(group[j]) {
      QuietLineFits(group[j]);
    }
  }

  lemma {:induction false} GroupsCompleteIff(maps: seq<MMap>, groups: seq<seq<string>>)
    requires forall i :: 0 <= i < |groups| ==> OnlyFirstDeclares(groups[i])
    ensures FoldMaps(maps, groups).Done? <==> forall line :: line in Concat(groups) ==> LineFits(line)
    decreases |groups|
  {
    hide LineFits, MMapOf, OnlyFirstDeclares;
    if groups != [] {
      GroupCompletesIff(groups[0]);
      if MMapOf(groups[0]).Some? {
        GroupsCompleteIff(maps + [MMapOf(groups[0]).value], groups[1..]);
      }
      assert forall line :: line in Concat(groups) <==> line in groups[0] || line in Concat(groups[1..]);
    }
  }

  /** Reading completes exactly when every line that looks like a header holds
      numbers that convert. */
  lemma SmapsDoneIff(text: Option<string>)
    ensures DecodeSmaps(text).Done? <==> SmapsTextOk(text)
  {
    if text.Some? {
      var lines := Pieces(text.value, '\n');
      SegmentsPartition(lines);
      GroupsCompleteIff([], Segments(lines));
    }
  }

  /** A group and the lines it printed into the buffer are the same thing. */
  lemma BufferLines(group: seq<string>)
    requires Free(group, '\n')
    ensures Pieces(Terminated(group, '\n'), '\n') == group
    ensures Terminated(group, '\n') == "" <==> group == []
  {
    PiecesOfTerminated(group, '\n');
  }

  // --------------------------------------------------------------- the loop

  /** What the loop still has to do: the group being collected, then the rest. */
  function Remaining(maps: seq<MMap>, group: seq<string>, lines: seq<string>): Outcome<seq<MMap>>
  {
    FoldMaps(maps, Cut(group, lines))
  }

  lemma Flush(maps: seq<MMap>, group: seq<string>, line: string, rest: seq<string>)
    requires Declares(line) && group != []
    ensures Remaining(maps, group, [line] + rest) ==
      match MMapOf(group)
      case None => Threw(maps)
      case Some(m) => Remaining(maps + [m], [], [line] + rest)
  {
    assert ([line] + rest)[1..] == rest;
    assert [] + [line] == [line];
    assert Cut(group, [line] + rest)[1..] == Cut([line], rest);
  }

  lemma Grow(maps: seq<MMap>, group: seq<string>, line: string, rest: seq<string>)
    requires !Declares(line) || group == []
    ensures Remaining(maps, group, [line] + rest) == Remaining(maps, group + [line], rest)
  {
    assert ([line] + rest)[1..] == rest;
  }

  lemma Finish(maps: seq<MMap>, group: seq<string>)
    ensures Remaining(maps, group, []) ==
      match MMapOf(group)
      case None => Threw(maps)
      case Some(m) => Done(maps + [m])
  {
    var groups := Cut(group, []);
    assert groups == [group] && groups[1..] == [];
    if MMapOf(group).Some? {
      assert FoldMaps(maps + [MMapOf(group).value], groups[1..]) == Done(maps + [MMapOf(group).value]);
    }
  }

  lemma AppendLine(group: seq<string>, line: string)
    requires Free(group, '\n') && '\n' !in line
    ensures Terminated(group + [line], '\n') == Terminated(group, '\n') + (line + "\n")
    ensures Free(group + [line], '\n')
  {
    TerminatedConcat(group, [line], '\n');
    TerminatedCons(line, [], '\n');
    assert [line] + [] == [line];
    assert line + ['\n'] + "" == line + "\n";
  }

  /** One more region from the buffer. */
  method AppendMap(mapStream: InStream, maps: seq<MMap>, ghost group: seq<string>)
    returns (ok: bool, longer: seq<MMap>)
    requires Free(group, '\n') && mapStream.rest == Terminated(group, '\n')
    modifies mapStream
    ensures ok <==> MMapOf(group).Some?
    ensures longer == if ok then maps + [MMapOf(group).value] else maps
  {
    BufferLines(group);
    var m := ParseMMap(mapStream);
    ok := m.Some?;
    longer := if ok then maps + [m.value] else maps;
  }

  /** The streaming reader: `maps` receives the regions built so far, also when
      a conversion throws. */
  method ReadSmaps(text: Option<string>) returns (ok: bool, maps: seq<MMap>)
    ensures DecodeSmaps(text) == if ok then Done(maps) else Threw(maps)
  {
    maps := [];
    ok := true;
    if text.None? {
      return;
    }
    var smaps := new InStream(text.value);
    var mapStream := new InStream("");
    ghost var group: seq<string> := [];
    var line := smaps.GetLine('\n');
    while line.Some?
      invariant Free(group, '\n') && mapStream.rest == Terminated(group, '\n')
      invariant mapStream != smaps && fresh(smaps) && fresh(mapStream)
      invariant line.Some? ==> '\n' !in line.value
      invariant DecodeSmaps(text) ==
        Remaining(maps, group, if line.Some? then [line.value] + Pieces(smaps.rest, '\n') else [])
      decreases |smaps.rest|, line.Some?
    {
      BufferLines(group);
      if '-' in line.value {
        if mapStream.rest != "" {
          Flush(maps, group, line.value, Pieces(smaps.rest, '\n'));
          ok, maps := AppendMap(mapStream, maps, group);
          if !ok {
            return;
          }
          mapStream.rest := "";
          group := [];
        }
      }
      Grow(maps, group, line.value, Pieces(smaps.rest, '\n'));
      AppendLine(group, line.value);
      group := group + [line.value];
      mapStream.rest := mapStream.rest + (line.value + "\n");
      line := smaps.GetLine('\n');
    }
    Finish(maps, group);
    ok, maps := AppendMap(mapStream, maps, group);
  }

  // ------------------------------------------------------------- round trip

  /** A region as the kernel prints it: `gap` is the padding before the path. */
  datatype Region = Region(addressFrom: string, addressTo: string,
                           read: bool, write: bool, execute: bool, kind: MapKind,
                           offset: string, devMajor: nat, devMinor: nat, inode: nat,
                           gap: string, path: string, attributes: seq<string>)

  /** At least two hexadecimal digits. */
  function TwoDigits(n: nat): string { if n < 16 then "0" + Digits(n, Hex) else Digits(n, Hex) }

  function PrintPerms(r: Region): string
  {
    [if r.read then 'r' else '-', if r.write then 'w' else '-', if r.execute then 'x' else '-',
     if r.kind == Private then 'p' else 's']
  }

  function PrintDevice(r: Region, tail: string): string
  {
    r.offset + (" " + (TwoDigits(r.devMajor) + (":" + (TwoDigits(r.devMinor) + (" " + tail)))))
  }

  function PrintPath(r: Region): string { Digits(r.inode, Dec) + (r.gap + r.path) }

  function PrintHeader(r: Region): string
  {
    r.addressFrom + ("-" + (r.addressTo + (" " + (PrintPerms(r) + (" " + PrintDevice(r, PrintPath(r)))))))
  }

  function PrintRegion(r: Region): seq<string> { [PrintHeader(r)] + r.attributes }

  function PrintRegions(rs: seq<Region>): seq<string>
  {
    if rs == [] then [] else PrintRegion(rs[0]) + PrintRegions(rs[1..])
  }

  function PrintSmaps(rs: seq<Region>): string { Terminated(PrintRegions(rs), '\n') }

  ghost predicate IsHexText(s: string) { s != "" && All(s, IsXDigit) }

  /** What a region must satisfy to be printed: fields of the right shape, numbers
      in the range of their C++ types, and no dash in an attribute line. */
  ghost predicate Printable(r: Region)
  {
    && IsHexText(r.addressFrom) && IsHexText(r.addressTo)
    && IsHexText(r.offset)
    && r.devMajor < INT_HALF && r.devMinor < INT_HALF && r.inode < HALF_WORD
    && r.gap != "" && All(r.gap, IsSpace) && '\n' !in r.gap
    && (r.path == "" || !IsSpace(r.path[0])) && '\n' !in r.path
    && (forall i :: 0 <= i < |r.attributes| ==> !Declares(r.attributes[i]) && '\n' !in r.attributes[i])
  }

  /** The header read back: everything but the offset is what was printed. */
  function HeaderOf(r: Region): Header
  {
    Header(r.addressFrom, r.addressTo, r.read, r.write, r.execute, r.kind,
           ToInt32(DecimalPrefix(r.offset)), r.devMajor, r.devMinor, r.inode, r.path)
  }

  lemma TwoDigitsHex(n: nat)
    ensures TwoDigits(n) != "" && All(TwoDigits(n), IsXDigit)
    ensures NumberOf(TwoDigits(n), Hex) == n
  {
    NumberOfDigits(n, Hex);
    NumberOfPadded("0", Digits(n, Hex), Hex);
  }

  lemma MatchPrintedDevice(r: Region, tail: string)
    requires IsHexText(r.offset)
    ensures MatchDevice(PrintDevice(r, tail)) == Some((r.offset, TwoDigits(r.devMajor), TwoDigits(r.devMinor), tail))
  {
    var minor := TwoDigits(r.devMinor) + (" " + tail);
    var major := TwoDigits(r.devMajor) + (":" + minor);
    TwoDigitsHex(r.devMajor);
    TwoDigitsHex(r.devMinor);
    LeadPrefix(r.offset, " " + major, IsXDigit);
    assert (" " + major)[1..] == major;
    LeadPrefix(TwoDigits(r.devMajor), ":" + minor, IsXDigit);
    assert (":" + minor)[1..] == minor;
    LeadPrefix(TwoDigits(r.devMinor), " " + tail, IsXDigit);
    assert (" " + tail)[1..] == tail;
  }

  lemma MatchPrintedAddresses(from: string, to: string, rest: string)
    requires IsHexText(from) && IsHexText(to)
    ensures MatchAddresses(from + ("-" + (to + (" " + rest)))) == Some((from, to, rest))
  {
    LeadPrefix(from, "-" + (to + (" " + rest)), IsXDigit);
    assert ("-" + (to + (" " + rest)))[1..] == to + (" " + rest);
    LeadPrefix(to, " " + rest, IsXDigit);
    assert (" " + rest)[1..] == rest;
  }

  lemma MatchPrintedPath(r: Region)
    requires r.gap != "" && All(r.gap, IsSpace)
    requires r.path == "" || !IsSpace(r.path[0])
    ensures MatchPath(PrintPath(r)) == Some((Digits(r.inode, Dec), r.path))
  {
    assert IsSpace(r.gap[0]) && (r.gap + r.path)[0] == r.gap[0];
    LeadPrefix(Digits(r.inode, Dec), r.gap + r.path, IsDigit);
    LeadPrefix(r.gap, r.path, IsSpace);
  }

  lemma MatchPrintedPerms(perms: string, rest: string)
    requires IsPerms(perms)
    ensures MatchPerms(perms + (" " + rest)) == Some((perms, rest))
  {
    var s := perms + (" " + rest);
    assert s[..4] == perms && s[4..] == " " + rest;
    assert (" " + rest)[1..] == rest;
  }

  lemma PrintableShape(r: Region)
    requires Printable(r)
    ensures IsHexText(r.addressFrom) && IsHexText(r.addressTo) && IsHexText(r.offset)
    ensures r.gap != "" && All(r.gap, IsSpace) && (r.path == "" || !IsSpace(r.path[0]))
  {
  }

  lemma MatchPrintedHeader(r: Region)
    requires Printable(r)
    ensures MatchHeader(PrintHeader(r)) == Some(HeaderText(r.addressFrom, r.addressTo, PrintPerms(r),
      r.offset, TwoDigits(r.devMajor), TwoDigits(r.devMinor), Digits(r.inode, Dec), r.path))
  {
    hide MatchAddresses, MatchPerms, MatchDevice, MatchPath, PrintDevice, PrintPath, TwoDigits, Digits, Printable;
    PrintableShape(r);
    var perms, path := PrintPerms(r), PrintPath(r);
    var device := PrintDevice(r, path);
    MatchPrintedPath(r);
    MatchPrintedDevice(r, path);
    MatchPrintedPerms(perms, device);
    MatchPrintedAddresses(r.addressFrom, r.addressTo, perms + (" " + device));
  }

  lemma InodeText(n: nat)
    ensures IntText(n) == Digits(n, Dec)
  {
  }

  lemma ConvertPrinted(t: HeaderText, r: Region)
    requires Printable(r)
    requires t == HeaderText(r.addressFrom, r.addressTo, PrintPerms(r),
      r.offset, TwoDigits(r.devMajor), TwoDigits(r.devMinor), Digits(r.inode, Dec), r.path)
    ensures IsPerms(t.perms)
    ensures ConvertHeader(t) == if OffsetReadable(r.offset) then Some(HeaderOf(r)) else None
  {
    hide NumberOf, Digits, TwoDigits, Span, OffsetReadable, ConvertOffset;
    OffsetThrowsIff(r.offset);
    TwoDigitsHex(r.devMajor);
    TwoDigitsHex(r.devMinor);
    StrtolOfIntText(r.inode);
    InodeText(r.inode);
  }

  lemma ConvertPrintedHeader(r: Region)
    requires Printable(r)
    ensures Declare(PrintHeader(r)) ==
      if OffsetReadable(r.offset) then Some(MMap(Some(HeaderOf(r)), map[], [])) else None
  {
    MatchPrintedHeader(r);
    ConvertPrinted(MatchHeader(PrintHeader(r)).value, r);
  }

  /** `m` is the region `r`, read back: everything but the offset as printed,
      and the flags of its last attribute line that stores any. */
  ghost predicate ReadsAs(m: MMap, r: Region)
  {
    && m.header == Some(HeaderOf(r))
    && m.vmFlags == LastFlags(r.attributes).GetOr([])
  }

  /** One printed region, read back unless its offset does not convert. */
  lemma RegionRoundTrip(r: Region)
    requires Printable(r)
    ensures MMapOf(PrintRegion(r)).Some? <==> OffsetReadable(r.offset)
    ensures MMapOf(PrintRegion(r)).Some? ==> ReadsAs(MMapOf(PrintRegion(r)).value, r)
  {
    ConvertPrintedHeader(r);
    assert PrintRegion(r)[1..] == r.attributes;
    VmFlagsLastWriter(MMap(Some(HeaderOf(r)), map[], []), r.attributes);
  }

  function Groups(rs: seq<Region>): (gs: seq<seq<string>>)
    ensures |gs| == |rs|
    ensures forall i :: 0 <= i < |rs| ==> gs[i] == PrintRegion(rs[i])
  {
    if rs == [] then [] else [PrintRegion(rs[0])] + Groups(rs[1..])
  }

  lemma {:induction false} ConcatGroups(rs: seq<Region>)
    ensures Concat(Groups(rs)) == PrintRegions(rs)
  {
    if rs != [] {
      assert Groups(rs)[1..] == Groups(rs[1..]);
      ConcatGroups(rs[1..]);
    }
  }

  lemma PrintedHeaderLine(r: Region)
    requires Printable(r)
    ensures Declares(PrintHeader(r)) && '\n' !in PrintHeader(r)
    ensures OnlyFirstDeclares(PrintRegion(r)) && Free(PrintRegion(r), '\n')
  {
    hide Digits, TwoDigits, ConvertOffset;
    var h := PrintHeader(r);
    assert h[|r.addressFrom|] == '-';
    TwoDigitsHex(r.devMajor);
    TwoDigitsHex(r.devMinor);
    HexHasNoNewline(r.addressFrom);
    HexHasNoNewline(r.addressTo);
    HexHasNoNewline(r.offset);
    HexHasNoNewline(TwoDigits(r.devMajor));
    HexHasNoNewline(TwoDigits(r.devMinor));
    HexHasNoNewline(Digits(r.inode, Dec));
    assert '\n' !in PrintPath(r);
    assert '\n' !in PrintDevice(r, PrintPath(r));
  }

  lemma HexHasNoNewline(s: string)
    requires All(s, IsXDigit)
    ensures '\n' !in s
  {
  }

  lemma PrintedGroupsPartition(rs: seq<Region>)
    requires rs != [] && forall i :: 0 <= i < |rs| ==> Printable(rs[i])
    ensures IsPartition(Groups(rs), PrintRegions(rs))
    ensures Segments(PrintRegions(rs)) == Groups(rs)
  {
    forall i | 0 <= i < |rs| ensures OnlyFirstDeclares(Groups(rs)[i]) && Declares(Groups(rs)[i][0]) {
      PrintedHeaderLine(rs[i]);
    }
    ConcatGroups(rs);
    SegmentsPartition(PrintRegions(rs));
    PartitionUnique(Segments(PrintRegions(rs)), Groups(rs), PrintRegions(rs));
  }

  lemma {:induction false} PrintedLinesFree(rs: seq<Region>)
    requires forall i :: 0 <= i < |rs| ==> Printable(rs[i])
    ensures Free(PrintRegions(rs), '\n')
  {
    if rs != [] {
      PrintedHeaderLine(rs[0]);
      PrintedLinesFree(rs[1..]);
    }
  }

  function ReadGroups(groups: seq<seq<string>>): (maps: seq<MMap>)
    requires forall i :: 0 <= i < |groups| ==> MMapOf(groups[i]).Some?
    ensures |maps| == |groups|
    ensures forall i :: 0 <= i < |groups| ==> maps[i] == MMapOf(groups[i]).value
  {
    seq(|groups|, i requires 0 <= i < |groups| => MMapOf(groups[i]).value)
  }

  lemma {:induction false} FoldReads(maps: seq<MMap>, groups: seq<seq<string>>, k: nat)
    requires k <= |groups|
    requires forall i :: 0 <= i < k ==> MMapOf(groups[i]).Some?
    requires k < |groups| ==> MMapOf(groups[k]) == None
    ensures FoldMaps(maps, groups) ==
      if k == |groups| then Done(maps + ReadGroups(groups[..k])) else Threw(maps + ReadGroups(groups[..k]))
    decreases k
  {
    hide MMapOf;
    if k == 0 {
      assert maps + ReadGroups(groups[..k]) == maps;
    } else {
      var first := MMapOf(groups[0]).value;
      assert groups[1..][..k - 1] == groups[..k][1..];
      FoldReads(maps + [first], groups[1..], k - 1);
      assert ReadGroups(groups[..k]) == [first] + ReadGroups(groups[..k][1..]);
      Assoc(maps, [first], ReadGroups(groups[..k][1..]));
    }
  }

  /** How many regions come before the first whose offset does not convert. */
  function ReadableRegions(rs: seq<Region>): (k: nat)
    ensures k <= |rs|
    ensures forall i :: 0 <= i < k ==> OffsetReadable(rs[i].offset)
    ensures k < |rs| ==> !OffsetReadable(rs[k].offset)
  {
    if rs == [] || !OffsetReadable(rs[0].offset) then 0 else 1 + ReadableRegions(rs[1..])
  }

  /** Printing any nonempty list of regions and reading the text gives one region
      for each, in order, with everything but the offset as printed, up to the
      first whose offset does not convert: there reading throws, and that region
      and the later ones are lost. */
  lemma SmapsRoundTrip(rs: seq<Region>)
    requires rs != [] && forall i :: 0 <= i < |rs| ==> Printable(rs[i])
    ensures
      var r := DecodeSmaps(Some(PrintSmaps(rs)));
      && (r.Done? <==> forall i :: 0 <= i < |rs| ==> OffsetReadable(rs[i].offset))
      && |r.state| == ReadableRegions(rs)
      && forall i :: 0 <= i < |r.state| ==> ReadsAs(r.state[i], rs[i])
  {
    hide Printable, ReadsAs, MMapOf, PrintRegion, Segments, FoldMaps, PrintRegions, Groups, Pieces, Terminated, Free,
      IsPartition, OffsetReadable, ReadableRegions;
    PrintedLinesFree(rs);
    PiecesOfTerminated(PrintRegions(rs), '\n');
    PrintedGroupsPartition(rs);
    var k := ReadableRegions(rs);
    forall i | 0 <= i < |rs|
      ensures MMapOf(Groups(rs)[i]).Some? <==> OffsetReadable(rs[i].offset)
      ensures MMapOf(Groups(rs)[i]).Some? ==> ReadsAs(MMapOf(Groups(rs)[i]).value, rs[i])
    {
      RegionRoundTrip(rs[i]);
    }
    FoldReads([], Groups(rs), k);
    var none: seq<MMap> := [];
    assert none + ReadGroups(Groups(rs)[..k]) == ReadGroups(Groups(rs)[..k]);
    assert DecodeSmaps(Some(PrintSmaps(rs))) == FoldMaps([], Groups(rs));
  }

  /** A device mapping at 0xf0000000. */
  const HIGH := Region("b6f00000", "b6f01000", true, true, false, Shared, "f0000000", 0, 6, 1025, " ", "/dev/mem", [])

  lemma HighIsPrintable()
    ensures Printable(HIGH) && !OffsetReadable(HIGH.offset)
  {
    assert All("b6f00000", IsXDigit) && All("b6f01000", IsXDigit) && All("f0000000", IsXDigit);
  }

  /** Such a mapping hides itself and every mapping after it. */
  lemma HighMappingThrows(rs: seq<Region>)
    requires forall i :: 0 <= i < |rs| ==> Printable(rs[i])
    ensures Printable(HIGH)
    ensures DecodeSmaps(Some(PrintSmaps([HIGH] + rs))) == Threw([])
  {
    hide PrintSmaps, DecodeSmaps, ReadsAs, Printable;
    HighIsPrintable();
    var all := [HIGH] + rs;
    SmapsRoundTrip(all);
    assert all[0] == HIGH && !OffsetReadable(HIGH.offset);
    assert ReadableRegions(all) == 0;
  }
}
