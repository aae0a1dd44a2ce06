/** The `key: value` files: /proc/<pid>/io and /proc/<pid>/status. */
module KeyValue {
  import opened Text
  import opened Numbers
  import opened Assignments

  // ------------------------------------------------------------------- io

  datatype IoField = Rchar | Wchar | Syscr | Syscw | ReadBytes | WriteBytes | CancelledWriteBytes

  function IoFieldOf(key: string): Option<IoField>
  {
    if key == "rchar" then Some(Rchar)
    else if key == "wchar" then Some(Wchar)
    else if key == "syscr" then Some(Syscr)
    else if key == "syscw" then Some(Syscw)
    else if key == "read_bytes" then Some(ReadBytes)
    else if key == "write_bytes" then Some(WriteBytes)
    else if key == "cancelled_write_bytes" then Some(CancelledWriteBytes)
    else None
  }

  /** The seven counters of `struct io_stat`: every one has some value, which
      is indeterminate until it is read. */
  type Counters = m: map<IoField, nat> | forall f: IoField :: f in m
    witness map f: IoField | true :: 0

  datatype IoStat = IoStat(counters: Counters, lastRead: int)

  /** A line of the io file: `stol` on the trimmed value, stored in an unsigned counter. */
  function IoEffect(line: string): (e: Effect<IoField>)
    ensures e.Set? ==> e.value < WORD
  {
    match IoFieldOf(KeyOf(line, ':'))
    case None => Skip
    case Some(f) =>
      match Stol(Trim(ValueOf(line, ':')))
      case None => Fail
      case Some(v) => Set(f, ToU64(v))
  }

  function IoEffects(lines: seq<string>): (es: seq<Effect<IoField>>)
    ensures |es| == |lines|
    ensures forall i :: 0 <= i < |lines| ==> es[i] == IoEffect(lines[i])
  {
    if lines == [] then [] else [IoEffect(lines[0])] + IoEffects(lines[1..])
  }

  lemma IoEffectsCons(line: string, lines: seq<string>)
    ensures IoEffects([line] + lines) == [IoEffect(line)] + IoEffects(lines)
  {
    assert ([line] + lines)[1..] == lines;
  }

  /** The counters once the remaining lines have been read. */
  function Remaining(c: Counters, lines: seq<string>): Outcome<map<IoField, nat>> { ApplyAll(c, IoEffects(lines)) }

  /** One turn of the reading loop. */
  lemma IoTurn(c: Counters, line: string, lines: seq<string>)
    ensures Remaining(c, [line] + lines) ==
      match IoEffect(line)
      case Skip => Remaining(c, lines)
      case Set(f, v) => Remaining(c[f := v], lines)
      case Fail => Threw(c)
  {
    hide IoEffect;
    IoEffectsCons(line, lines);
    assert ([IoEffect(line)] + IoEffects(lines))[1..] == IoEffects(lines);
  }

  function FileLines(text: Option<string>): seq<string>
  {
    if text.None? then [] else Pieces(text.value, '\n')
  }

  function FoldIo(c: Counters, lines: seq<string>): (r: Outcome<Counters>)
  {
    match ApplyAll(c, IoEffects(lines))
    case Done(m) => Done(m)
    case Threw(m) => Threw(m)
  }

  /** `readIo`: the clock is noted first, whatever the file holds. */
  function DecodeIo(io: IoStat, now: int, text: Option<string>): Outcome<IoStat>
  {
    match FoldIo(io.counters, FileLines(text))
    case Done(c) => Done(IoStat(c, now))
    case Threw(c) => Threw(IoStat(c, now))
  }

  /** Every recognised line converts. */
  predicate IoTextOk(text: Option<string>) { Fail !in IoEffects(FileLines(text)) }

  /** The record the loop has to reach, from what it has and what is left. */
  function IoRemaining(io: IoStat, lines: seq<string>): Outcome<IoStat>
  {
    match Remaining(io.counters, lines)
    case Done(c) => Done(IoStat(c, io.lastRead))
    case Threw(c) => Threw(IoStat(c, io.lastRead))
  }

  lemma DecodeIsRemaining(io: IoStat, now: int, text: Option<string>)
    ensures DecodeIo(io, now, text) == IoRemaining(IoStat(io.counters, now), FileLines(text))
    ensures IoRemaining(io, []) == Done(io)
  {
    hide IoEffect;
  }

  function StepIoLine(io: IoStat, e: Effect<IoField>): Outcome<IoStat>
  {
    match e
    case Skip => Done(io)
    case Set(f, v) => Done(io.(counters := io.counters[f := v]))
    case Fail => Threw(io)
  }

  lemma IoRecordTurn(io: IoStat, line: string, lines: seq<string>)
    ensures IoRemaining(io, [line] + lines) ==
      match StepIoLine(io, IoEffect(line))
      case Done(io') => IoRemaining(io', lines)
      case Threw(io') => Threw(io')
  {
    hide IoEffect;
    IoTurn(io.counters, line, lines);
  }

  lemma IoDoneIff(io: IoStat, now: int, text: Option<string>)
    ensures DecodeIo(io, now, text).Done? <==> IoTextOk(text)
  {
    DoneIff(io.counters, IoEffects(FileLines(text)));
  }

  /** Each counter ends as the number on the last line with its key, or as it
      was when there is none. */
  lemma IoLastWriter(io: IoStat, now: int, text: Option<string>, f: IoField)
    requires IoTextOk(text)
    ensures DecodeIo(io, now, text).Done?
    ensures DecodeIo(io, now, text).state.counters[f] ==
      LastSet(IoEffects(FileLines(text)), f).GetOr(io.counters[f])
  {
    LastWriter(io.counters, IoEffects(FileLines(text)), f);
  }

  lemma SameEffects(a: seq<string>, b: seq<string>)
    requires multiset(a) == multiset(b)
    ensures forall e :: e in IoEffects(a) ==> e in IoEffects(b)
  {
    forall e | e in IoEffects(a) ensures e in IoEffects(b) {
      var i :| 0 <= i < |a| && IoEffects(a)[i] == e;
      assert a[i] in multiset(b);
      var j :| 0 <= j < |b| && b[j] == a[i];
      assert IoEffects(b)[j] == e;
    }
  }

  /** When no two lines give the same counter different numbers, the order of
      the lines does not matter. */
  lemma IoOrderIrrelevant(c: Counters, lines: seq<string>, permuted: seq<string>)
    requires Fail !in IoEffects(lines) && Consistent(IoEffects(lines))
    requires multiset(lines) == multiset(permuted)
    ensures FoldIo(c, lines).Done?
    ensures FoldIo(c, permuted) == FoldIo(c, lines)
  {
    SameEffects(lines, permuted);
    SameEffects(permuted, lines);
    OrderIrrelevant(c, IoEffects(lines), IoEffects(permuted));
  }

  function IoName(f: IoField): string
  {
    match f
    case Rchar => "rchar"
    case Wchar => "wchar"
    case Syscr => "syscr"
    case Syscw => "syscw"
    case ReadBytes => "read_bytes"
    case WriteBytes => "write_bytes"
    case CancelledWriteBytes => "cancelled_write_bytes"
  }

  lemma IoNameKey(f: IoField)
    ensures IoFieldOf(IoName(f)) == Some(f) && ':' !in IoName(f)
  {
  }

  lemma DigitsOnly(n: nat)
    ensures '\n' !in Digits(n, Dec) && NotSpace(Digits(n, Dec)[0]) && NotSpace(Digits(n, Dec)[|Digits(n, Dec)| - 1])
  {
    var s := Digits(n, Dec);
    assert All(s, IsDigit);
    assert IsDigit(s[0]) && IsDigit(s[|s| - 1]);
  }

  /** A printed number is stored exactly when `stol` accepts it; a negative one wraps
      around in the unsigned field. */
  lemma IoSignedLine(f: IoField, v: int)
    ensures IoEffect(IoName(f) + ":" + (" " + IntText(v))) ==
      if v < -0x8000_0000_0000_0000 || v >= 0x8000_0000_0000_0000 then Fail
      else Set(f, if v < 0 then 0x1_0000_0000_0000_0000 + v else v)
  {
    hide IoName, IoFieldOf, IntText, Trim, Strtol;
    IoNameKey(f);
    IntTextEnds(v);
    KeyValueOfPrinted(IoName(f), ':', " " + IntText(v));
    TrimOfPadded(" ", IntText(v), "");
    assert " " + IntText(v) + "" == " " + IntText(v);
    StrtolOfIntText(v);
  }

  lemma IntTextEnds(v: int)
    ensures '\n' !in IntText(v) && NotSpace(IntText(v)[0]) && NotSpace(IntText(v)[|IntText(v)| - 1])
  {
    var s := IntText(v);
    assert All(s, NotSpace);
  }

  /** A line with any other key is ignored. */
  lemma IoIgnores(line: string)
    ensures IoEffect(line) == Skip <==>
      KeyOf(line, ':') !in ["rchar", "wchar", "syscr", "syscw", "read_bytes", "write_bytes", "cancelled_write_bytes"]
  {
    hide KeyOf, ValueOf, Trim, Stol;
  }

  /** A printed counter is read back exactly when it is below 2^63: from there on
      `stol` throws, although the field is unsigned. */
  lemma IoPrintedLine(f: IoField, n: nat)
    ensures IoEffect(IoName(f) + ":" + (" " + Digits(n, Dec))) == if n < HALF_WORD then Set(f, n) else Fail
  {
    hide IoEffect, Digits, IoName;
    DecimalText(n);
    IoSignedLine(f, n);
  }

  lemma DecimalText(n: nat)
    ensures IntText(n) == Digits(n, Dec)
  {
  }

  /** The io file with these counters, one line for each field of `fs`. */
  function PrintIoLines(c: Counters, fs: seq<IoField>): (lines: seq<string>)
    ensures |lines| == |fs|
    ensures forall i :: 0 <= i < |fs| ==> lines[i] == IoName(fs[i]) + ":" + (" " + Digits(c[fs[i]], Dec))
  {
    seq(|fs|, i requires 0 <= i < |fs| => IoName(fs[i]) + ":" + (" " + Digits(c[fs[i]], Dec)))
  }

  function PrintIo(c: Counters, fs: seq<IoField>): string { Terminated(PrintIoLines(c, fs), '\n') }

  lemma IoLineHasNoNewline(f: IoField, n: nat)
    ensures '\n' !in IoName(f) + ":" + (" " + Digits(n, Dec))
  {
    hide Digits;
    DigitsOnly(n);
  }

  /** The effect of each line is the assignment of its field, if that is in range. */
  ghost predicate Assigns(es: seq<Effect<IoField>>, c: Counters, fs: seq<IoField>)
  {
    |es| == |fs| &&
    forall i :: 0 <= i < |fs| ==> es[i] == if c[fs[i]] < HALF_WORD then Set(fs[i], c[fs[i]]) else Fail
  }

  lemma PrintedIoEffects(c: Counters, fs: seq<IoField>)
    ensures Assigns(IoEffects(PrintIoLines(c, fs)), c, fs)
    ensures Free(PrintIoLines(c, fs), '\n')
  {
    hide IoEffect, IoName, Digits;
    forall i | 0 <= i < |fs|
      ensures IoEffect(PrintIoLines(c, fs)[i]) == if c[fs[i]] < HALF_WORD then Set(fs[i], c[fs[i]]) else Fail
      ensures '\n' !in PrintIoLines(c, fs)[i]
    {
      IoPrintedLine(fs[i], c[fs[i]]);
      IoLineHasNoNewline(fs[i], c[fs[i]]);
    }
  }

  lemma AssignsFail(es: seq<Effect<IoField>>, c: Counters, fs: seq<IoField>)
    requires Assigns(es, c, fs) && forall f: IoField :: f in fs
    ensures Fail in es <==> exists f: IoField :: c[f] >= HALF_WORD
  {
    if f: IoField :| c[f] >= HALF_WORD {
      assert f in fs;
      var i :| 0 <= i < |fs| && fs[i] == f;
      assert es[i] == Fail;
    }
  }

  lemma AssignsValue(es: seq<Effect<IoField>>, c: Counters, fs: seq<IoField>, f: IoField)
    requires Assigns(es, c, fs) && f in fs && c[f] < HALF_WORD
    ensures LastSet(es, f) == Some(c[f])
  {
    hide LastSet;
    var i :| 0 <= i < |fs| && fs[i] == f;
    assert es[i] == Set(f, c[f]);
    assert LastSet(es, f).Some?;
    var j :| 0 <= j < |es| && es[j] == Set(f, LastSet(es, f).value);
  }

  /** A printed io file, its lines in any order, is read back exactly when every
      counter is below 2^63, whatever was cached; otherwise reading throws. */
  lemma IoRoundTrip(io: IoStat, now: int, c: Counters, fs: seq<IoField>)
    requires forall f: IoField :: f in fs
    ensures DecodeIo(io, now, Some(PrintIo(c, fs))).Done? <==> forall f: IoField :: c[f] < HALF_WORD
    ensures (forall f: IoField :: c[f] < HALF_WORD) ==> DecodeIo(io, now, Some(PrintIo(c, fs))) == Done(IoStat(c, now))
  {
    hide DecodeIo, IoEffects, PrintIoLines, LastSet, Assigns;
    var text := Some(PrintIo(c, fs));
    var es := IoEffects(PrintIoLines(c, fs));
    PrintedIoEffects(c, fs);
    PiecesOfTerminated(PrintIoLines(c, fs), '\n');
    assert FileLines(text) == PrintIoLines(c, fs);
    IoDoneIff(io, now, text);
    AssignsFail(es, c, fs);
    if IoTextOk(text) {
      forall f: IoField ensures DecodeIo(io, now, text).state.counters[f] == c[f] {
        AssignsValue(es, c, fs, f);
        IoLastWriter(io, now, text, f);
      }
      NowIsNoted(io, now, text);
      SameCounters(DecodeIo(io, now, text).state.counters, c);
    }
  }

  lemma SameCounters(a: Counters, b: Counters)
    requires forall f: IoField :: a[f] == b[f]
    ensures a == b
  {
  }

  lemma NowIsNoted(io: IoStat, now: int, text: Option<string>)
    ensures DecodeIo(io, now, text).state.lastRead == now
  {
  }

  // --------------------------------------------------------------- status

  datatype VmField = VmPeak | VmLck | VmPin | VmHWM | VmRSS | VmData
                   | VmStk | VmExe | VmLib | VmPTE | VmPMD | VmSwap

  function VmFieldOf(key: string): Option<VmField>
  {
    if key == "VmPeak" then Some(VmPeak)
    else if key == "VmLck" then Some(VmLck)
    else if key == "VmPin" then Some(VmPin)
    else if key == "VmHWM" then Some(VmHWM)
    else if key == "VmRSS" then Some(VmRSS)
    else if key == "VmData" then Some(VmData)
    else if key == "VmStk" then Some(VmStk)
    else if key == "VmExe" then Some(VmExe)
    else if key == "VmLib" then Some(VmLib)
    else if key == "VmPTE" then Some(VmPTE)
    else if key == "VmPMD" then Some(VmPMD)
    else if key == "VmSwap" then Some(VmSwap)
    else None
  }

  type VmFields = m: map<VmField, nat> | forall f: VmField :: f in m
    witness map f: VmField | true :: 0

  datatype StatusRecord = StatusRecord(uids: seq<int>, gids: seq<int>, vm: VmFields)

  /** The captures of the uid/gid pattern: leading whitespace, then exactly four
      decimal numbers. */
  function MatchIds(value: string): (ids: Option<seq<string>>)
    ensures ids.Some? ==> |ids.value| == 4
  {
    var ws := Words(value);
    if value != "" && IsSpace(value[0]) && |ws| == 4 &&
       (forall w :: w in ws ==> Span(w, IsDigit) == |w|)
    then Some(ws) else None
  }

  /** The capture of the Vm pattern: whitespace, digits, one whitespace, `kB`,
      optional whitespace. */
  function MatchVm(value: string): (digits: Option<string>)
    ensures digits.Some? ==> digits.value != "" && All(digits.value, IsDigit)
  {
    var t := TrimLeft(value);
    var n := Span(t, IsDigit);
    var rest := t[n..];
    if |t| < |value| && n > 0 && |rest| >= 3 && IsSpace(rest[0]) && rest[1] == 'k' && rest[2] == 'B' &&
       Span(rest[3..], IsSpace) == |rest| - 3
    then Some(t[..n]) else None
  }

  /** The uid/gid pattern: whitespace, four decimal numbers with whitespace between
      them, and perhaps whitespace at the end. */
  lemma MatchIdsIff(value: string, ids: seq<string>)
    ensures MatchIds(value) == Some(ids) <==>
      && |ids| == 4 && (forall i :: 0 <= i < |ids| ==> All(ids[i], IsDigit))
      && value != "" && IsSpace(value[0]) && Spells(value, ids)
  {
    hide Words, Spells;
    WordsIff(value, ids);
    forall w ensures Span(w, IsDigit) == |w| <==> All(w, IsDigit) {
      WholeSpan(w);
    }
    if MatchIds(value) == Some(ids) {
      forall i | 0 <= i < |ids| ensures All(ids[i], IsDigit) {
        assert ids[i] in ids;
      }
    }
  }

  lemma WholeSpan(w: string)
    ensures Span(w, IsDigit) == |w| <==> All(w, IsDigit)
  {
    assert w[..|w|] == w;
    if All(w, IsDigit) {
      SpanAll(w, IsDigit);
    }
  }

  ghost predicate VmText(value: string, pad: string, digits: string, gap: char, end: string)
  {
    && value == pad + (digits + ([gap] + "kB" + end))
    && pad != "" && All(pad, IsSpace) && digits != "" && All(digits, IsDigit) && IsSpace(gap) && All(end, IsSpace)
  }

  /** The Vm pattern: whitespace, a decimal number, one whitespace, `kB`, and perhaps
      whitespace at the end. */
  lemma MatchVmIff(value: string, digits: string)
    ensures MatchVm(value) == Some(digits) <==> exists pad, gap, end :: VmText(value, pad, digits, gap, end)
  {
    if MatchVm(value) == Some(digits) {
      MatchVmShape(value, digits);
    }
    if pad, gap, end :| VmText(value, pad, digits, gap, end) {
      VmTextMatches(value, pad, digits, gap, end);
    }
  }

  lemma MatchVmShape(value: string, digits: string)
    requires MatchVm(value) == Some(digits)
    ensures exists pad, gap, end :: VmText(value, pad, digits, gap, end)
  {
    hide Span;
    var p := Span(value, IsSpace);
    var t := value[p..];
    var rest := t[Span(t, IsDigit)..];
    assert value == value[..p] + t && t == digits + rest;
    var end := rest[3..];
    KiloBytes(rest);
    assert end[..|end|] == end;
    assert VmText(value, value[..p], digits, rest[0], end);
  }

  lemma KiloBytes(rest: string)
    requires |rest| >= 3 && rest[1] == 'k' && rest[2] == 'B'
    ensures rest == [rest[0]] + "kB" + rest[3..]
  {
  }

  lemma VmTextMatches(value: string, pad: string, digits: string, gap: char, end: string)
    requires VmText(value, pad, digits, gap, end)
    ensures MatchVm(value) == Some(digits)
  {
    var rest := [gap] + "kB" + end;
    assert rest[0] == gap && rest[1] == 'k' && rest[2] == 'B' && rest[3..] == end;
    assert (digits + rest)[0] == digits[0] && IsDigit(digits[0]);
    TrimLeftPadded(pad, digits + rest);
    SpanPrefix(digits, rest, IsDigit);
    SpanAll(end, IsSpace);
  }

  /** `stoi` on text made of digits. */
  function StoiDigits(s: string): (r: Option<nat>)
    ensures r.Some? ==> r.value < INT_HALF
  {
    if NumberOf(s, Dec) < INT_HALF then Some(NumberOf(s, Dec)) else None
  }

  function StoiAll(texts: seq<string>): (r: seq<Option<nat>>)
    ensures |r| == |texts|
  {
    seq(|texts|, i requires 0 <= i < |texts| => StoiDigits(texts[i]))
  }

  datatype StatusEffect = AddUids(ids: seq<Option<nat>>) | AddGids(ids: seq<Option<nat>>) | Vm(e: Effect<VmField>)

  function StatusEffectOf(line: string): (e: StatusEffect)
    ensures !e.Vm? ==> |e.ids| == 4
  {
    var key, value := KeyOf(line, ':'), ValueOf(line, ':');
    if key == "Uid" && MatchIds(value).Some? then AddUids(StoiAll(MatchIds(value).value))
    else if key == "Gid" && MatchIds(value).Some? then AddGids(StoiAll(MatchIds(value).value))
    else if VmFieldOf(key).Some? && MatchVm(value).Some? then
      match StoiDigits(MatchVm(value).value)
      case None => Vm(Fail)
      case Some(v) => Vm(Set(VmFieldOf(key).value, v))
    else Vm(Skip)
  }

  /** `push_back(stoi(...))` on each capture in turn. */
  function PushIds(ids: seq<int>, converted: seq<Option<nat>>): Outcome<seq<int>>
    decreases |converted|
  {
    if converted == [] then Done(ids)
    else match converted[0]
      case None => Threw(ids)
      case Some(v) => PushIds(ids + [v], converted[1..])
  }

  function StepStatus(r: StatusRecord, e: StatusEffect): Outcome<StatusRecord>
  {
    match e
    case AddUids(ids) =>
      (match PushIds(r.uids, ids)
       case Done(uids) => Done(r.(uids := uids))
       case Threw(uids) => Threw(r.(uids := uids)))
    case AddGids(ids) =>
      (match PushIds(r.gids, ids)
       case Done(gids) => Done(r.(gids := gids))
       case Threw(gids) => Threw(r.(gids := gids)))
    case Vm(vm) =>
      (match Apply(r.vm, vm)
       case Done(m) => Done(r.(vm := m))
       case Threw(m) => Threw(r))
  }

  function StatusEffects(lines: seq<string>): (es: seq<StatusEffect>)
    ensures |es| == |lines|
    ensures forall i :: 0 <= i < |lines| ==> es[i] == StatusEffectOf(lines[i])
  {
    if lines == [] then [] else [StatusEffectOf(lines[0])] + StatusEffects(lines[1..])
  }

  function FoldStatus(r: StatusRecord, es: seq<StatusEffect>): Outcome<StatusRecord>
    decreases |es|
  {
    if es == [] then Done(r)
    else match StepStatus(r, es[0])
      case Done(r') => FoldStatus(r', es[1..])
      case Threw(r') => Threw(r')
  }

  /** `readStatus`: the id vectors are not cleared before reading. */
  function DecodeStatus(r: StatusRecord, text: Option<string>): Outcome<StatusRecord>
  {
    FoldStatus(r, StatusEffects(FileLines(text)))
  }

  /** The record once the remaining lines have been read. */
  function StatusRemaining(r: StatusRecord, lines: seq<string>): Outcome<StatusRecord>
  {
    FoldStatus(r, StatusEffects(lines))
  }

  /** One turn of the reading loop. */
  lemma StatusTurn(r: StatusRecord, line: string, lines: seq<string>)
    ensures StatusRemaining(r, [line] + lines) ==
      match StepStatus(r, StatusEffectOf(line))
      case Done(r') => StatusRemaining(r', lines)
      case Threw(r') => Threw(r')
  {
    hide StatusEffectOf, StepStatus;
    assert ([line] + lines)[1..] == lines;
    assert ([StatusEffectOf(line)] + StatusEffects(lines))[1..] == StatusEffects(lines);
  }

  predicate EffectOk(e: StatusEffect) { if e.Vm? then e.e != Fail else None !in e.ids }

  predicate EffectsOk(es: seq<StatusEffect>) { forall i :: 0 <= i < |es| ==> EffectOk(es[i]) }

  predicate StatusTextOk(text: Option<string>) { EffectsOk(StatusEffects(FileLines(text))) }

  /** Nothing but the numbers that convert. */
  function Values(converted: seq<Option<nat>>): (r: seq<int>)
    ensures |r| == |converted|
  {
    seq(|converted|, i requires 0 <= i < |converted| => converted[i].GetOr(0))
  }

  /** The numbers before the first that does not convert. */
  function Pushed(converted: seq<Option<nat>>): (r: seq<int>)
    ensures None !in converted ==> r == Values(converted)
  {
    if converted == [] || converted[0] == None then []
    else
      assert converted == [converted[0]] + converted[1..];
      assert Values(converted) == [converted[0].value as int] + Values(converted[1..]);
      [converted[0].value] + Pushed(converted[1..])
  }

  lemma {:induction false} PushIdsDone(ids: seq<int>, converted: seq<Option<nat>>)
    ensures PushIds(ids, converted).Done? <==> None !in converted
    ensures PushIds(ids, converted).state == ids + Pushed(converted)
    decreases |converted|
  {
    if converted != [] && converted[0].Some? {
      assert converted == [converted[0]] + converted[1..];
      PushIdsDone(ids + [converted[0].value], converted[1..]);
      Assoc(ids, [converted[0].value as int], Pushed(converted[1..]));
    }
  }

  /** The user ids stored, up to the first conversion that throws. */
  function UidsOf(es: seq<StatusEffect>): seq<int>
  {
    if es == [] then []
    else
      var first := if es[0].AddUids? then Pushed(es[0].ids) else [];
      if EffectOk(es[0]) then first + UidsOf(es[1..]) else first
  }

  function GidsOf(es: seq<StatusEffect>): seq<int>
  {
    if es == [] then []
    else
      var first := if es[0].AddGids? then Pushed(es[0].ids) else [];
      if EffectOk(es[0]) then first + GidsOf(es[1..]) else first
  }

  function VmEffects(es: seq<StatusEffect>): seq<Effect<VmField>>
  {
    if es == [] then [] else (if es[0].Vm? then [es[0].e] else []) + VmEffects(es[1..])
  }

  lemma StepStatusEffect(r: StatusRecord, e: StatusEffect)
    ensures StepStatus(r, e).Done? <==> EffectOk(e)
    ensures StepStatus(r, e).state == StatusRecord(
      r.uids + UidsOf([e]), r.gids + GidsOf([e]), ApplyAll(r.vm, VmEffects([e])).state)
  {
    assert [e][1..] == [];
    match e
    case AddUids(ids) => PushIdsDone(r.uids, ids);
    case AddGids(ids) => PushIdsDone(r.gids, ids);
    case Vm(vm) =>
      assert VmEffects([e]) == [vm] && [vm][1..] == [];
  }

  lemma IdsCons(e: StatusEffect, es: seq<StatusEffect>)
    ensures UidsOf([e] + es) == UidsOf([e]) + (if EffectOk(e) then UidsOf(es) else [])
    ensures GidsOf([e] + es) == GidsOf([e]) + (if EffectOk(e) then GidsOf(es) else [])
  {
    hide Pushed, EffectOk;
    NoIds();
    assert ([e] + es)[0] == e && ([e] + es)[1..] == es && [e][1..] == [];
  }

  lemma VmEffectsCons(e: StatusEffect, es: seq<StatusEffect>)
    ensures VmEffects([e] + es) == VmEffects([e]) + VmEffects(es)
  {
    assert ([e] + es)[1..] == es && [e][1..] == [];
  }

  lemma OkCons(e: StatusEffect, es: seq<StatusEffect>)
    ensures EffectsOk([e] + es) <==> EffectOk(e) && EffectsOk(es)
  {
    hide EffectOk;
    if EffectsOk([e] + es) {
      assert ([e] + es)[0] == e;
      assert forall i :: 0 <= i < |es| ==> es[i] == ([e] + es)[i + 1];
    }
  }

  lemma VmAlone(e: StatusEffect)
    ensures EffectOk(e) ==> Fail !in VmEffects([e])
  {
    assert [e][1..] == [];
  }

  /** Reading a status file completes exactly when every matched number fits an
      `int`. */
  lemma {:induction false} StatusDoneIff(r: StatusRecord, es: seq<StatusEffect>)
    ensures FoldStatus(r, es).Done? <==> EffectsOk(es)
    decreases |es|
  {
    if es != [] {
      StepStatusEffect(r, es[0]);
      VmEffectsCons(es[0], es[1..]);
      OkCons(es[0], es[1..]);
      assert es == [es[0]] + es[1..];
      if StepStatus(r, es[0]).Done? {
        StatusDoneIff(StepStatus(r, es[0]).state, es[1..]);
      }
    }
  }

  /** The id vectors grow by the ids of every line that has them, in order, up to
      the first conversion that throws. */
  lemma {:induction false} StatusIds(r: StatusRecord, es: seq<StatusEffect>)
    ensures FoldStatus(r, es).state.uids == r.uids + UidsOf(es)
    ensures FoldStatus(r, es).state.gids == r.gids + GidsOf(es)
    decreases |es|
  {
    if es != [] {
      hide StepStatus, EffectOk, UidsOf, GidsOf, VmEffects;
      StepStatusEffect(r, es[0]);
      IdsCons(es[0], es[1..]);
      assert es == [es[0]] + es[1..];
      if EffectOk(es[0]) {
        StatusIds(StepStatus(r, es[0]).state, es[1..]);
        Assoc(r.uids, UidsOf([es[0]]), UidsOf(es[1..]));
        Assoc(r.gids, GidsOf([es[0]]), GidsOf(es[1..]));
      }
    } else {
      NoIds();
    }
  }

  lemma NoIds()
    ensures UidsOf([]) == [] && GidsOf([]) == []
  {
  }

  /** The Vm fields take their assignments in order. */
  lemma {:induction false} StatusVm(r: StatusRecord, es: seq<StatusEffect>)
    requires EffectsOk(es)
    ensures FoldStatus(r, es).state.vm == ApplyAll(r.vm, VmEffects(es)).state
    ensures Fail !in VmEffects(es)
    decreases |es|
  {
    if es != [] {
      StepStatusEffect(r, es[0]);
      VmEffectsCons(es[0], es[1..]);
      OkCons(es[0], es[1..]);
      VmAlone(es[0]);
      assert es == [es[0]] + es[1..];
      StatusVm(StepStatus(r, es[0]).state, es[1..]);
      ApplyConcat(r.vm, VmEffects([es[0]]), VmEffects(es[1..]));
    }
  }

  /** Each Vm field ends as the number on the last well-formed line with its
      key, or as it was when there is none. */
  lemma StatusLastWriter(r: StatusRecord, text: Option<string>, f: VmField)
    requires StatusTextOk(text)
    ensures DecodeStatus(r, text).Done?
    ensures DecodeStatus(r, text).state.vm[f] ==
      LastSet(VmEffects(StatusEffects(FileLines(text))), f).GetOr(r.vm[f])
  {
    var es := StatusEffects(FileLines(text));
    StatusDoneIff(r, es);
    StatusVm(r, es);
    LastWriter(r.vm, VmEffects(es), f);
  }

  lemma {:induction false} VmEffectsHolds(es: seq<StatusEffect>, e: Effect<VmField>)
    ensures e in VmEffects(es) <==> Vm(e) in es
  {
    if es != [] {
      VmEffectsHolds(es[1..], e);
      assert Vm(e) in es <==> es[0] == Vm(e) || Vm(e) in es[1..];
    }
  }

  lemma SameStatusEffects(a: seq<string>, b: seq<string>)
    requires multiset(a) == multiset(b)
    ensures forall e :: e in StatusEffects(a) ==> e in StatusEffects(b)
  {
    hide StatusEffectOf;
    forall e | e in StatusEffects(a) ensures e in StatusEffects(b) {
      var i :| 0 <= i < |a| && StatusEffects(a)[i] == e;
      assert a[i] in multiset(b);
      var j :| 0 <= j < |b| && b[j] == a[i];
      assert StatusEffects(b)[j] == e;
    }
  }

  /** When no two lines give the same Vm field different numbers, the order of
      the lines does not matter to those fields. */
  lemma VmOrderIrrelevant(r: StatusRecord, lines: seq<string>, permuted: seq<string>)
    requires EffectsOk(StatusEffects(lines)) && Consistent(VmEffects(StatusEffects(lines)))
    requires multiset(lines) == multiset(permuted)
    ensures FoldStatus(r, StatusEffects(lines)).Done? && FoldStatus(r, StatusEffects(permuted)).Done?
    ensures FoldStatus(r, StatusEffects(permuted)).state.vm == FoldStatus(r, StatusEffects(lines)).state.vm
  {
    hide StatusEffectOf, EffectOk;
    var es, fs := StatusEffects(lines), StatusEffects(permuted);
    SameStatusEffects(lines, permuted);
    SameStatusEffects(permuted, lines);
    forall e ensures e in VmEffects(es) <==> e in VmEffects(fs) {
      VmEffectsHolds(es, e);
      VmEffectsHolds(fs, e);
    }
    assert EffectsOk(fs) by {
      assert forall k :: 0 <= k < |fs| ==> fs[k] in es;
    }
    StatusDoneIff(r, es);
    StatusDoneIff(r, fs);
    StatusVm(r, es);
    StatusVm(r, fs);
    OrderIrrelevant(r.vm, VmEffects(es), VmEffects(fs));
  }

  /** Every id of a matched line converts. */
  predicate IdsFit(es: seq<StatusEffect>) { forall i :: 0 <= i < |es| && !es[i].Vm? ==> EffectOk(es[i]) }

  /** Then ids come in fours, also when a Vm size throws; and a file without them
      stores none. */
  lemma {:induction false} IdsInFours(es: seq<StatusEffect>)
    requires forall i :: 0 <= i < |es| && !es[i].Vm? ==> |es[i].ids| == 4
    requires IdsFit(es)
    ensures |UidsOf(es)| % 4 == 0 && |GidsOf(es)| % 4 == 0
    ensures EffectsOk(es) ==> (UidsOf(es) == [] <==> forall i :: 0 <= i < |es| ==> !es[i].AddUids?)
  {
    if es != [] {
      hide Pushed;
      IdsInFours(es[1..]);
      assert !es[0].Vm? ==> |Pushed(es[0].ids)| == 4;
    }
  }

  function VmName(f: VmField): string
  {
    match f
    case VmPeak => "VmPeak"
    case VmLck => "VmLck"
    case VmPin => "VmPin"
    case VmHWM => "VmHWM"
    case VmRSS => "VmRSS"
    case VmData => "VmData"
    case VmStk => "VmStk"
    case VmExe => "VmExe"
    case VmLib => "VmLib"
    case VmPTE => "VmPTE"
    case VmPMD => "VmPMD"
    case VmSwap => "VmSwap"
  }

  lemma VmNameKey(f: VmField)
    ensures VmFieldOf(VmName(f)) == Some(f) && ':' !in VmName(f)
    ensures VmName(f) != "Uid" && VmName(f) != "Gid"
  {
  }

  lemma MatchPrintedVm(pad: string, n: nat)
    requires pad != "" && All(pad, IsSpace)
    ensures MatchVm(pad + (Digits(n, Dec) + " kB")) == Some(Digits(n, Dec))
  {
    hide Digits;
    DigitsOnly(n);
    TrimLeftPadded(pad, Digits(n, Dec) + " kB");
    SpanPrefix(Digits(n, Dec), " kB", IsDigit);
    assert " kB"[3..] == "";
  }

  /** A printed Vm size is read back exactly when it is below 2^31 kB; a larger
      one, which a process can have, makes the whole reading throw. */
  lemma VmPrintedLine(f: VmField, pad: string, n: nat)
    requires pad != "" && All(pad, IsSpace) && '\n' !in pad
    ensures StatusEffectOf(VmName(f) + ":" + (pad + (Digits(n, Dec) + " kB"))) ==
      Vm(if n < INT_HALF then Set(f, n) else Fail)
  {
    hide VmName, VmFieldOf, Digits, MatchVm, MatchIds, NumberOf;
    VmNameKey(f);
    DigitsOnly(n);
    KeyValueOfPrinted(VmName(f), ':', pad + (Digits(n, Dec) + " kB"));
    MatchPrintedVm(pad, n);
    NumberOfDigits(n, Dec);
  }

  function PrintIds(a: nat, b: nat, c: nat, d: nat): string
  {
    "\t" + Digits(a, Dec) + ("\t" + Digits(b, Dec) + ("\t" + Digits(c, Dec) + ("\t" + Digits(d, Dec) + "")))
  }

  lemma FirstWord(n: nat, rest: string)
    requires rest == "" || IsSpace(rest[0])
    ensures Words("\t" + Digits(n, Dec) + rest) == [Digits(n, Dec)] + Words(rest)
  {
    hide Digits, ExtractWord;
    assert All(Digits(n, Dec), NotSpace) by { assert All(Digits(n, Dec), IsDigit); }
    ExtractPrintedWord("\t", Digits(n, Dec), rest);
  }

  lemma PrintedIdWords(a: nat, b: nat, c: nat, d: nat)
    ensures Words(PrintIds(a, b, c, d)) == [Digits(a, Dec), Digits(b, Dec), Digits(c, Dec), Digits(d, Dec)]
  {
    hide Digits, Words;
    var fourth := "\t" + Digits(d, Dec) + "";
    var third := "\t" + Digits(c, Dec) + fourth;
    var second := "\t" + Digits(b, Dec) + third;
    FirstWord(a, second);
    FirstWord(b, third);
    FirstWord(c, fourth);
    FirstWord(d, "");
    NoWords();
    assert PrintIds(a, b, c, d) == "\t" + Digits(a, Dec) + second;
  }

  lemma PrintedIdsOnOneLine(a: nat, b: nat, c: nat, d: nat)
    ensures '\n' !in PrintIds(a, b, c, d)
  {
    hide Digits;
    DigitsOnly(a);
    DigitsOnly(b);
    DigitsOnly(c);
    DigitsOnly(d);
  }

  lemma MatchPrintedIds(a: nat, b: nat, c: nat, d: nat)
    ensures MatchIds(PrintIds(a, b, c, d)) == Some([Digits(a, Dec), Digits(b, Dec), Digits(c, Dec), Digits(d, Dec)])
  {
    hide Digits, Words, Span;
    PrintedIdWords(a, b, c, d);
    AllDigits(a);
    AllDigits(b);
    AllDigits(c);
    AllDigits(d);
  }

  lemma AllDigits(n: nat)
    ensures Span(Digits(n, Dec), IsDigit) == |Digits(n, Dec)|
  {
    SpanAll(Digits(n, Dec), IsDigit);
  }

  /** A printed line of user ids adds the four of them, in order, provided each is
      below 2^31. */
  lemma UidPrintedLine(a: nat, b: nat, c: nat, d: nat)
    ensures StatusEffectOf("Uid" + ":" + PrintIds(a, b, c, d)).AddUids?
    ensures
      var e := StatusEffectOf("Uid" + ":" + PrintIds(a, b, c, d));
      && (EffectOk(e) <==> a < INT_HALF && b < INT_HALF && c < INT_HALF && d < INT_HALF)
      && (EffectOk(e) ==> Values(e.ids) == [a, b, c, d])
  {
    hide Digits, PrintIds, MatchIds, NumberOf;
    KeyValueOfPrinted("Uid", ':', PrintIds(a, b, c, d));
    MatchPrintedIds(a, b, c, d);
    PrintedIdsOnOneLine(a, b, c, d);
    NumberOfDigits(a, Dec);
    NumberOfDigits(b, Dec);
    NumberOfDigits(c, Dec);
    NumberOfDigits(d, Dec);
    var ids := StatusEffectOf("Uid" + ":" + PrintIds(a, b, c, d)).ids;
    assert ids == [StoiDigits(Digits(a, Dec)), StoiDigits(Digits(b, Dec)),
                   StoiDigits(Digits(c, Dec)), StoiDigits(Digits(d, Dec))];
    assert ids[0] in ids && ids[1] in ids && ids[2] in ids && ids[3] in ids;
  }

  /** The same for a line of group ids. */
  lemma GidPrintedLine(a: nat, b: nat, c: nat, d: nat)
    ensures StatusEffectOf("Gid" + ":" + PrintIds(a, b, c, d)).AddGids?
    ensures
      var e := StatusEffectOf("Gid" + ":" + PrintIds(a, b, c, d));
      && (EffectOk(e) <==> a < INT_HALF && b < INT_HALF && c < INT_HALF && d < INT_HALF)
      && (EffectOk(e) ==> Values(e.ids) == [a, b, c, d])
  {
    hide Digits, PrintIds, MatchIds, NumberOf;
    KeyValueOfPrinted("Gid", ':', PrintIds(a, b, c, d));
    MatchPrintedIds(a, b, c, d);
    PrintedIdsOnOneLine(a, b, c, d);
    NumberOfDigits(a, Dec);
    NumberOfDigits(b, Dec);
    NumberOfDigits(c, Dec);
    NumberOfDigits(d, Dec);
    var ids := StatusEffectOf("Gid" + ":" + PrintIds(a, b, c, d)).ids;
    assert ids == [StoiDigits(Digits(a, Dec)), StoiDigits(Digits(b, Dec)),
                   StoiDigits(Digits(c, Dec)), StoiDigits(Digits(d, Dec))];
    assert ids[0] in ids && ids[1] in ids && ids[2] in ids && ids[3] in ids;
  }

  // ------------------------------------------------------ a whole status file

  /** A line of a status file, by what it means. */
  datatype StatusItem = UidItem(uid: nat, euid: nat, suid: nat, fsuid: nat)
                      | GidItem(gid: nat, egid: nat, sgid: nat, fsgid: nat)
                      | VmItem(field: VmField, pad: string, kB: nat)
                      | OtherItem(line: string)

  function PrintItem(it: StatusItem): string
  {
    match it
    case UidItem(a, b, c, d) => "Uid" + ":" + PrintIds(a, b, c, d)
    case GidItem(a, b, c, d) => "Gid" + ":" + PrintIds(a, b, c, d)
    case VmItem(f, pad, n) => VmName(f) + ":" + (pad + (Digits(n, Dec) + " kB"))
    case OtherItem(line) => line
  }

  /** The lines that are not of the first three kinds have none of their keys. */
  ghost predicate Shaped(it: StatusItem)
  {
    match it
    case VmItem(_, pad, _) => pad != "" && All(pad, IsSpace) && '\n' !in pad
    case OtherItem(line) =>
      && '\n' !in line
      && KeyOf(line, ':') !in ["Uid", "Gid", "VmPeak", "VmLck", "VmPin", "VmHWM", "VmRSS", "VmData",
                               "VmStk", "VmExe", "VmLib", "VmPTE", "VmPMD", "VmSwap"]
    case _ => true
  }

  /** Every number of the line fits an `int`. */
  predicate ItemFits(it: StatusItem)
  {
    match it
    case UidItem(a, b, c, d) => a < INT_HALF && b < INT_HALF && c < INT_HALF && d < INT_HALF
    case GidItem(a, b, c, d) => a < INT_HALF && b < INT_HALF && c < INT_HALF && d < INT_HALF
    case VmItem(_, _, n) => n < INT_HALF
    case OtherItem(_) => true
  }

  function UidsIn(items: seq<StatusItem>): seq<int>
  {
    if items == [] then []
    else
      var it := items[0];
      (if it.UidItem? then [it.uid as int, it.euid, it.suid, it.fsuid] else []) + UidsIn(items[1..])
  }

  function GidsIn(items: seq<StatusItem>): seq<int>
  {
    if items == [] then []
    else
      var it := items[0];
      (if it.GidItem? then [it.gid as int, it.egid, it.sgid, it.fsgid] else []) + GidsIn(items[1..])
  }

  /** The size on the last line of a Vm field. */
  function VmIn(items: seq<StatusItem>, f: VmField): Option<nat>
  {
    if items == [] then None
    else
      var last := items[|items| - 1];
      if last.VmItem? && last.field == f then Some(last.kB) else VmIn(items[..|items| - 1], f)
  }

  function PrintItems(items: seq<StatusItem>): (lines: seq<string>)
    ensures |lines| == |items|
    ensures forall i :: 0 <= i < |items| ==> lines[i] == PrintItem(items[i])
  {
    seq(|items|, i requires 0 <= i < |items| => PrintItem(items[i]))
  }

  function PrintStatus(items: seq<StatusItem>): string { Terminated(PrintItems(items), '\n') }

  /** What the effect of a line has to be. */
  ghost predicate Means(e: StatusEffect, it: StatusItem)
  {
    && (EffectOk(e) <==> ItemFits(it))
    && (it.UidItem? <==> e.AddUids?) && (it.GidItem? <==> e.AddGids?)
    && (ItemFits(it) && it.UidItem? ==> Values(e.ids) == [it.uid as int, it.euid, it.suid, it.fsuid])
    && (ItemFits(it) && it.GidItem? ==> Values(e.ids) == [it.gid as int, it.egid, it.sgid, it.fsgid])
    && (ItemFits(it) && it.VmItem? ==> e == Vm(Set(it.field, it.kB)))
    && (it.OtherItem? ==> e == Vm(Skip))
  }

  lemma OtherLine(line: string)
    requires Shaped(OtherItem(line))
    ensures StatusEffectOf(line) == Vm(Skip)
  {
    hide MatchIds, MatchVm, KeyOf, ValueOf, VmFieldOf;
    UnknownVmKey(KeyOf(line, ':'));
  }

  lemma UnknownVmKey(key: string)
    ensures VmFieldOf(key) == None <==> key !in ["VmPeak", "VmLck", "VmPin", "VmHWM", "VmRSS", "VmData",
                                                 "VmStk", "VmExe", "VmLib", "VmPTE", "VmPMD", "VmSwap"]
  {
  }

  lemma ItemMeans(it: StatusItem)
    requires Shaped(it)
    ensures Means(StatusEffectOf(PrintItem(it)), it)
  {
    hide StatusEffectOf, PrintIds, VmName, Digits, Values;
    match it
    case UidItem(a, b, c, d) => UidPrintedLine(a, b, c, d);
    case GidItem(a, b, c, d) => GidPrintedLine(a, b, c, d);
    case VmItem(f, pad, n) => VmPrintedLine(f, pad, n);
    case OtherItem(line) => OtherLine(line);
  }

  lemma ItemOnOneLine(it: StatusItem)
    requires Shaped(it)
    ensures '\n' !in PrintItem(it)
  {
    hide Digits, PrintIds, VmName;
    match it
    case UidItem(a, b, c, d) => PrintedIdsOnOneLine(a, b, c, d);
    case GidItem(a, b, c, d) => PrintedIdsOnOneLine(a, b, c, d);
    case VmItem(f, pad, n) =>
      DigitsOnly(n);
      VmNameOnOneLine(f);
    case OtherItem(_) =>
  }

  lemma VmNameOnOneLine(f: VmField)
    ensures '\n' !in VmName(f)
  {
  }

  ghost predicate AllMean(es: seq<StatusEffect>, items: seq<StatusItem>)
  {
    |es| == |items| && forall i :: 0 <= i < |es| ==> Means(es[i], items[i])
  }

  lemma {:induction false} MeantIds(es: seq<StatusEffect>, items: seq<StatusItem>)
    requires AllMean(es, items) && forall i :: 0 <= i < |items| ==> ItemFits(items[i])
    ensures UidsOf(es) == UidsIn(items) && GidsOf(es) == GidsIn(items)
    decreases |es|
  {
    if es != [] {
      hide Values, ItemFits, Pushed;
      assert Means(es[0], items[0]);
      assert AllMean(es[1..], items[1..]);
      MeantIds(es[1..], items[1..]);
    }
  }

  lemma {:induction false} VmEffectsSnoc(es: seq<StatusEffect>, e: StatusEffect)
    ensures VmEffects(es + [e]) == VmEffects(es) + (if e.Vm? then [e.e] else [])
    decreases |es|
  {
    OneVmEffect(e);
    if es == [] {
      assert es + [e] == [e];
    } else {
      hide VmEffects;
      assert es + [e] == [es[0]] + (es[1..] + [e]) && es == [es[0]] + es[1..];
      VmEffectsCons(es[0], es[1..] + [e]);
      VmEffectsCons(es[0], es[1..]);
      VmEffectsSnoc(es[1..], e);
      Assoc(VmEffects([es[0]]), VmEffects(es[1..]), VmEffects([e]));
    }
  }

  lemma OneVmEffect(e: StatusEffect)
    ensures VmEffects([]) == [] && VmEffects([e]) == if e.Vm? then [e.e] else []
  {
    assert [e][1..] == [];
  }

  lemma LastSetSnoc(es: seq<Effect<VmField>>, e: Effect<VmField>, f: VmField)
    ensures LastSet(es + [e], f) == if e.Set? && e.field == f then Some(e.value) else LastSet(es, f)
  {
    assert (es + [e])[..|es + [e]| - 1] == es;
  }

  lemma {:induction false} MeantVm(es: seq<StatusEffect>, items: seq<StatusItem>, f: VmField)
    requires AllMean(es, items) && forall i :: 0 <= i < |items| ==> ItemFits(items[i])
    ensures LastSet(VmEffects(es), f) == VmIn(items, f)
    decreases |es|
  {
    if es != [] {
      hide Values, ItemFits, VmEffects, LastSet;
      var k := |es| - 1;
      assert Means(es[k], items[k]);
      assert AllMean(es[..k], items[..k]);
      assert es == es[..k] + [es[k]];
      MeantVm(es[..k], items[..k], f);
      VmEffectsSnoc(es[..k], es[k]);
      if es[k].Vm? {
        LastSetSnoc(VmEffects(es[..k]), es[k].e, f);
      } else {
        assert VmEffects(es[..k]) + [] == VmEffects(es[..k]);
      }
    } else {
      NothingMeant(f);
    }
  }

  lemma NothingMeant(f: VmField)
    ensures LastSet(VmEffects([]), f) == None
  {
  }

  lemma PrintedItemsMean(items: seq<StatusItem>)
    requires forall i :: 0 <= i < |items| ==> Shaped(items[i])
    ensures AllMean(StatusEffects(PrintItems(items)), items)
    ensures Free(PrintItems(items), '\n')
  {
    hide Means, Shaped, StatusEffectOf, PrintItem;
    forall i | 0 <= i < |items|
      ensures Means(StatusEffects(PrintItems(items))[i], items[i]) && '\n' !in PrintItems(items)[i]
    {
      ItemMeans(items[i]);
      ItemOnOneLine(items[i]);
    }
  }

  /** A printed status file, its lines in any order among any others: reading completes
      exactly when every number fits; it then appends the user ids to the user ids and
      the group ids to the group ids, and sets each Vm field that has a line. */
  lemma StatusRoundTrip(r: StatusRecord, items: seq<StatusItem>)
    requires forall i :: 0 <= i < |items| ==> Shaped(items[i])
    ensures
      var d := DecodeStatus(r, Some(PrintStatus(items)));
      && (d.Done? <==> forall i :: 0 <= i < |items| ==> ItemFits(items[i]))
      && (d.Done? ==>
            && d.state.uids == r.uids + UidsIn(items) && d.state.gids == r.gids + GidsIn(items)
            && forall f :: d.state.vm[f] == VmIn(items, f).GetOr(r.vm[f]))
  {
    hide StatusEffects, PrintItems, Pieces, Terminated, Shaped, ItemFits, UidsOf, GidsOf, VmEffects, Free, AllMean;
    var es := StatusEffects(PrintItems(items));
    PrintedItemsMean(items);
    PiecesOfTerminated(PrintItems(items), '\n');
    StatusDoneIff(r, es);
    MeansOk(es, items);
    if EffectsOk(es) {
      MeantIds(es, items);
      StatusIds(r, es);
      StatusVm(r, es);
      forall f ensures DecodeStatus(r, Some(PrintStatus(items))).state.vm[f] == VmIn(items, f).GetOr(r.vm[f]) {
        MeantVm(es, items, f);
        LastWriter(r.vm, VmEffects(es), f);
      }
    }
  }

  lemma MeansOk(es: seq<StatusEffect>, items: seq<StatusItem>)
    requires AllMean(es, items)
    ensures EffectsOk(es) <==> forall i :: 0 <= i < |items| ==> ItemFits(items[i])
  {
    hide EffectOk, ItemFits;
    forall i | 0 <= i < |es| ensures EffectOk(es[i]) <==> ItemFits(items[i]) {
      assert Means(es[i], items[i]);
    }
  }
}
