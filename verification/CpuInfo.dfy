/** /proc/cpuinfo: blocks of `key : value` lines, each closed by a blank line. */
module CpuInfo {
  import opened Text
  import opened Numbers
  import opened KeyValue

  /** One `cpu_info_t`. It starts zeroed: a numeric field that no line has
      written is 0. `texts` are stored with their leading space, since the value
      is trimmed before it is read. */
  datatype Cpu = Cpu(numbers: map<string, int>, texts: map<string, string>,
                     switches: map<string, bool>, flags: seq<string>)

  const NO_CPU := Cpu(map[], map[], map[], [])

  predicate IsNumberKey(key: string)
  {
    key in ["processor", "cpu family", "model", "stepping", "microcode", "physical id", "sibblings", "core id",
            "cpu cores", "apicid", "initial apicid", "cpuid_level", "clflush size", "cache_alignement"]
  }

  /** Keys whose number goes through `stol`. */
  predicate IsLongKey(key: string) { key in ["cpu MHz", "bogomipinfo"] }

  predicate IsTextKey(key: string)
  {
    key in ["vendor_id", "model name", "bugs", "address sizes", "power management"]
  }

  predicate IsSwitchKey(key: string) { key in ["fpu", "fpu_exception", "wp"] }

  /** One nonblank line; `None` when a conversion throws. */
  function StepCpu(c: Cpu, line: string): Option<Cpu>
  {
    var key, value := Trim(KeyOf(line, ':')), ValueOf(line, ':');
    if IsNumberKey(key) then
      var n :- Stoi(value);
      Some(c.(numbers := c.numbers[key := n]))
    else if IsLongKey(key) then
      var n :- Stol(value);
      Some(c.(numbers := c.numbers[key := n]))
    else if key == "cache size" then Some(c.(numbers := c.numbers[key := 0]))
    else if IsTextKey(key) then Some(c.(texts := c.texts[key := value]))
    else if IsSwitchKey(key) then Some(c.(switches := c.switches[key := value == "yes"]))
    else if key == "flags" then Some(c.(flags := c.flags + Words(value)))
    else Some(c)
  }

  /** The loop: `done` are the finished processors, `current` the one being read. */
  function FoldCpus(done: seq<Cpu>, current: Cpu, lines: seq<string>): Option<seq<Cpu>>
    decreases |lines|
  {
    if lines == [] then Some(done)
    else if lines[0] == "" then FoldCpus(done + [current], NO_CPU, lines[1..])
    else
      var c :- StepCpu(current, lines[0]);
      FoldCpus(done, c, lines[1..])
  }

  function CpusOf(text: Option<string>): Option<seq<Cpu>> { FoldCpus([], NO_CPU, FileLines(text)) }

  /** `getNbCores`: `None` when reading throws. */
  function CoresOf(text: Option<string>): Option<nat>
  {
    var cpus :- CpusOf(text);
    Some(|cpus|)
  }

  /** `core_id`, as value-initialised or last written. */
  function CoreId(c: Cpu): int { if "core id" in c.numbers then c.numbers["core id"] else 0 }

  method ReadCPUInfo(text: Option<string>) returns (cpus: Option<seq<Cpu>>)
    ensures cpus == CpusOf(text)
    ensures text == None ==> cpus == Some([])
  {
    var list: seq<Cpu> := [];
    var current := NO_CPU;
    if text.None? {
      return Some(list);
    }
    var file := new InStream(text.value);
    var line := file.GetLine('\n');
    while line.Some?
      invariant fresh(file)
      invariant CpusOf(text) ==
        FoldCpus(list, current, if line.Some? then [line.value] + Pieces(file.rest, '\n') else [])
      decreases |file.rest|, line.Some?
    {
      assert ([line.value] + Pieces(file.rest, '\n'))[1..] == Pieces(file.rest, '\n');
      if line.value == "" {
        list := list + [current];
        current := NO_CPU;
      } else {
        var c := StepCpu(current, line.value);
        if c == None {
          return None;
        }
        current := c.value;
      }
      line := file.GetLine('\n');
    }
    return Some(list);
  }

  method GetNbCores(text: Option<string>) returns (n: Option<nat>)
    ensures n == CoresOf(text)
  {
    var cpus := ReadCPUInfo(text);
    n := if cpus == None then None else Some(|cpus.value|);
  }

  /** `getNbCPUs`: the processors whose core id is 0. */
  method GetNbCPUs(text: Option<string>) returns (n: Option<nat>)
    ensures n.Some? <==> CpusOf(text).Some?
    ensures n.Some? ==> n.value == CountZeroCores(CpusOf(text).value)
  {
    hide CpusOf, CoreId;
    var cpus := ReadCPUInfo(text);
    if cpus == None {
      return None;
    }
    var count := 0;
    for i := 0 to |cpus.value|
      invariant count == CountZeroCores(cpus.value[..i])
    {
      assert cpus.value[..i + 1][..i] == cpus.value[..i];
      if CoreId(cpus.value[i]) == 0 {
        count := count + 1;
      }
    }
    assert cpus.value[..|cpus.value|] == cpus.value;
    return Some(count);
  }

  function CountZeroCores(cpus: seq<Cpu>): nat
  {
    if cpus == [] then 0
    else CountZeroCores(cpus[..|cpus| - 1]) + if CoreId(cpus[|cpus| - 1]) == 0 then 1 else 0
  }

  // ------------------------------------------------------------- properties

  /** A processor built from the lines of one block. */
  function CpuOf(current: Cpu, block: seq<string>): Option<Cpu>
    decreases |block|
  {
    if block == [] then Some(current)
    else
      var c :- StepCpu(current, block[0]);
      CpuOf(c, block[1..])
  }

  ghost predicate NoBlank(block: seq<string>) { forall i :: 0 <= i < |block| ==> block[i] != "" }

  /** The lines of the blocks, each followed by a blank line. */
  function CloseBlocks(blocks: seq<seq<string>>): seq<string>
  {
    if blocks == [] then [] else blocks[0] + [""] + CloseBlocks(blocks[1..])
  }

  lemma {:induction false} FoldBlock(done: seq<Cpu>, current: Cpu, block: seq<string>, rest: seq<string>)
    requires NoBlank(block)
    ensures FoldCpus(done, current, block + rest) ==
      match CpuOf(current, block)
      case None => None
      case Some(c) => FoldCpus(done, c, rest)
    decreases |block|
  {
    if block == [] {
      assert block + rest == rest;
    } else {
      assert (block + rest)[1..] == block[1..] + rest;
      assert (block + rest)[0] == block[0];
      if StepCpu(current, block[0]).Some? {
        FoldBlock(done, StepCpu(current, block[0]).value, block[1..], rest);
      }
    }
  }

  /** Every block closed by a blank line gives one processor, built from that
      block alone; lines after the last blank line give none. */
  lemma {:induction false} BlocksRead(done: seq<Cpu>, blocks: seq<seq<string>>, open: seq<string>)
    requires forall i :: 0 <= i < |blocks| ==> NoBlank(blocks[i]) && CpuOf(NO_CPU, blocks[i]).Some?
    requires NoBlank(open) && CpuOf(NO_CPU, open).Some?
    ensures
      var r := FoldCpus(done, NO_CPU, CloseBlocks(blocks) + open);
      && r.Some? && |r.value| == |done| + |blocks| && done <= r.value
      && forall j :: |done| <= j < |r.value| ==> Some(r.value[j]) == CpuOf(NO_CPU, blocks[j - |done|])
    decreases |blocks|
  {
    hide StepCpu;
    if blocks == [] {
      FoldBlock(done, NO_CPU, open, []);
      assert CloseBlocks(blocks) + open == open + [];
    } else {
      var cpu := CpuOf(NO_CPU, blocks[0]).value;
      var rest := CloseBlocks(blocks[1..]) + open;
      assert CloseBlocks(blocks) + open == blocks[0] + ([""] + rest);
      FoldBlock(done, NO_CPU, blocks[0], [""] + rest);
      assert ([""] + rest)[1..] == rest;
      BlocksRead(done + [cpu], blocks[1..], open);
      var r := FoldCpus(done + [cpu], NO_CPU, rest).value;
      forall j | |done| <= j < |r| ensures Some(r[j]) == CpuOf(NO_CPU, blocks[j - |done|]) {
        if j == |done| {
          assert r[j] == (done + [cpu])[j];
        }
      }
    }
  }

  /** The number a line gives a key, if any. */
  function NumberOn(line: string, key: string): Option<int>
  {
    if Trim(KeyOf(line, ':')) != key then None
    else if IsNumberKey(key) then Stoi(ValueOf(line, ':'))
    else if IsLongKey(key) then Stol(ValueOf(line, ':'))
    else if key == "cache size" then Some(0)
    else None
  }

  function LastNumber(lines: seq<string>, key: string): Option<int>
  {
    if lines == [] then None
    else
      var last := NumberOn(lines[|lines| - 1], key);
      if last.Some? then last else LastNumber(lines[..|lines| - 1], key)
  }

  lemma {:induction false} CpuSnoc(current: Cpu, block: seq<string>, line: string)
    ensures CpuOf(current, block + [line]) ==
      match CpuOf(current, block)
      case None => None
      case Some(c) => StepCpu(c, line)
    decreases |block|
  {
    hide StepCpu;
    if block == [] {
      assert block + [line] == [line] && [line][1..] == [];
    } else {
      assert (block + [line])[1..] == block[1..] + [line];
      if StepCpu(current, block[0]).Some? {
        CpuSnoc(StepCpu(current, block[0]).value, block[1..], line);
      }
    }
  }

  lemma StepNumber(c: Cpu, line: string, key: string)
    requires StepCpu(c, line).Some?
    ensures
      Lookup(StepCpu(c, line).value.numbers, key) ==
        if NumberOn(line, key).Some? then NumberOn(line, key) else Lookup(c.numbers, key)
  {
    hide Trim, KeyOf, ValueOf, Stoi, Stol, Words;
  }

  /** Each number of a processor is the one on the last line of its block that
      gives one; a key that no line has is absent. */
  lemma {:induction false} NumberLastWriter(block: seq<string>, key: string)
    requires CpuOf(NO_CPU, block).Some?
    ensures
      Lookup(CpuOf(NO_CPU, block).value.numbers, key) == LastNumber(block, key)
    decreases |block|
  {
    hide StepCpu, NumberOn;
    if block != [] {
      var front, last := block[..|block| - 1], block[|block| - 1];
      assert front + [last] == block;
      CpuSnoc(NO_CPU, front, last);
      NumberLastWriter(front, key);
      StepNumber(CpuOf(NO_CPU, front).value, last, key);
    }
  }

  /** The text a line gives a key, if any: what follows the colon, leading space included. */
  function TextOn(line: string, key: string): Option<string>
  {
    if IsTextKey(key) && Trim(KeyOf(line, ':')) == key then Some(ValueOf(line, ':')) else None
  }

  /** The switch a line sets, if any: only a value of exactly "yes" turns it on. */
  function SwitchOn(line: string, key: string): Option<bool>
  {
    if IsSwitchKey(key) && Trim(KeyOf(line, ':')) == key then Some(ValueOf(line, ':') == "yes") else None
  }

  /** The flags a line adds. */
  function FlagsOn(line: string): seq<string>
  {
    if Trim(KeyOf(line, ':')) == "flags" then Words(ValueOf(line, ':')) else []
  }

  function LastText(lines: seq<string>, key: string): Option<string>
  {
    if lines == [] then None
    else
      var last := TextOn(lines[|lines| - 1], key);
      if last.Some? then last else LastText(lines[..|lines| - 1], key)
  }

  function LastSwitch(lines: seq<string>, key: string): Option<bool>
  {
    if lines == [] then None
    else
      var last := SwitchOn(lines[|lines| - 1], key);
      if last.Some? then last else LastSwitch(lines[..|lines| - 1], key)
  }

  function AllFlags(lines: seq<string>): seq<string>
  {
    if lines == [] then [] else AllFlags(lines[..|lines| - 1]) + FlagsOn(lines[|lines| - 1])
  }

  lemma StepText(c: Cpu, line: string, key: string)
    requires StepCpu(c, line).Some?
    ensures Lookup(StepCpu(c, line).value.texts, key) ==
      if TextOn(line, key).Some? then TextOn(line, key) else Lookup(c.texts, key)
  {
    hide Trim, KeyOf, ValueOf, Stoi, Stol, Words;
  }

  lemma StepSwitch(c: Cpu, line: string, key: string)
    requires StepCpu(c, line).Some?
    ensures Lookup(StepCpu(c, line).value.switches, key) ==
      if SwitchOn(line, key).Some? then SwitchOn(line, key) else Lookup(c.switches, key)
  {
    hide Trim, KeyOf, ValueOf, Stoi, Stol, Words;
  }

  lemma StepFlags(c: Cpu, line: string)
    requires StepCpu(c, line).Some?
    ensures StepCpu(c, line).value.flags == c.flags + FlagsOn(line)
  {
    hide Trim, KeyOf, ValueOf, Stoi, Stol, Words;
    assert c.flags + [] == c.flags;
  }

  /** The texts and switches of a block likewise; its flags are those of all its
      flag lines, in order. */
  lemma {:induction false} BlockLastWriter(block: seq<string>, key: string)
    requires CpuOf(NO_CPU, block).Some?
    ensures
      var cpu := CpuOf(NO_CPU, block).value;
      && Lookup(cpu.texts, key) == LastText(block, key)
      && Lookup(cpu.switches, key) == LastSwitch(block, key)
      && cpu.flags == AllFlags(block)
    decreases |block|
  {
    hide StepCpu, TextOn, SwitchOn, FlagsOn;
    if block != [] {
      var front, last := block[..|block| - 1], block[|block| - 1];
      assert front + [last] == block;
      CpuSnoc(NO_CPU, front, last);
      BlockLastWriter(front, key);
      var cpu := CpuOf(NO_CPU, front).value;
      StepText(cpu, last, key);
      StepSwitch(cpu, last, key);
      StepFlags(cpu, last);
    }
  }

  /** So a block counts as a processor of its own when its last core id is 0, and
      also when it has none. */
  lemma CoreIdOfBlock(block: seq<string>)
    requires CpuOf(NO_CPU, block).Some?
    ensures CoreId(CpuOf(NO_CPU, block).value) == LastNumber(block, "core id").GetOr(0)
  {
    hide CpuOf, LastNumber;
    NumberLastWriter(block, "core id");
  }

  // --------------------------------------------------------- printed lines

  /** A line as the kernel prints it: the key, a tab, and the value after a blank. */
  function PrintLine(key: string, value: string): string { key + "\t" + ":" + (" " + value) }

  lemma PrintedKeyValue(key: string, value: string)
    requires key != "" && NotSpace(key[0]) && NotSpace(key[|key| - 1]) && ':' !in key && '\n' !in value
    ensures Trim(KeyOf(PrintLine(key, value), ':')) == key && ValueOf(PrintLine(key, value), ':') == " " + value
  {
    hide Trim;
    KeyValueOfPrinted(key + "\t", ':', " " + value);
    TrimOfPadded("", key, "\t");
    assert "" + key + "\t" == key + "\t";
  }

  /** A text is stored with the blank that the kernel prints before it. */
  lemma TextLine(c: Cpu, key: string, value: string)
    requires key in ["vendor_id", "model name", "bugs", "address sizes", "power management"] && '\n' !in value
    ensures StepCpu(c, PrintLine(key, value)) == Some(c.(texts := c.texts[key := " " + value]))
  {
    hide Trim, KeyOf, ValueOf, PrintLine, Words, Stoi, Stol;
    PrintedKeyValue(key, value);
  }

  /** So a printed switch is never on, whatever its value: "yes" comes with the blank. */
  lemma SwitchLine(c: Cpu, key: string, value: string)
    requires key in ["fpu", "fpu_exception", "wp"] && '\n' !in value
    ensures StepCpu(c, PrintLine(key, value)) == Some(c.(switches := c.switches[key := false]))
  {
    hide Trim, KeyOf, ValueOf, PrintLine, Words, Stoi, Stol;
    PrintedKeyValue(key, value);
    assert (" " + value)[0] == ' ' && "yes"[0] == 'y';
  }

  /** A printed number is stored under its key when it fits. */
  lemma NumberLine(c: Cpu, key: string, n: nat)
    requires n < 0x8000_0000
    requires key in ["processor", "cpu family", "model", "stepping", "physical id", "core id", "cpu cores",
                     "apicid", "initial apicid", "clflush size"]
    ensures StepCpu(c, PrintLine(key, Digits(n, Dec))) == Some(c.(numbers := c.numbers[key := n]))
  {
    hide Trim, KeyOf, ValueOf, PrintLine, Words, Strtol, Digits, IntText;
    DigitsOnly(n);
    PrintedKeyValue(key, Digits(n, Dec));
    DecimalText(n);
    StrtolOfPadded(n);
  }

  lemma StrtolOfPadded(n: nat)
    ensures Strtol(" " + Digits(n, Dec)) == Some(n as int)
  {
    hide Digits, NumberOf, SplitSign;
    var s := Digits(n, Dec);
    assert IsDigit(s[0]);
    TrimLeftPadded(" ", s);
    assert SplitSign(s) == Signed(false, s) by { NoSign(s); }
    SpanAll(s, IsDigit);
    NumberOfDigits(n, Dec);
  }

  lemma NoSign(s: string)
    requires s != "" && IsDigit(s[0])
    ensures SplitSign(s) == Signed(false, s)
  {
  }

  /** The microcode revision is printed in hexadecimal with its prefix, of which only
      the 0 is read. */
  lemma MicrocodeLine(c: Cpu, revision: string)
    requires revision != "" && !IsDigit(revision[0]) && '\n' !in revision
    ensures StepCpu(c, PrintLine("microcode", "0" + revision)) == Some(c.(numbers := c.numbers["microcode" := 0]))
  {
    hide Trim, KeyOf, ValueOf, PrintLine, Words, Strtol;
    PrintedKeyValue("microcode", "0" + revision);
    LeadingZero(revision);
  }

  lemma LeadingZero(rest: string)
    requires rest != "" && !IsDigit(rest[0])
    ensures Strtol(" " + ("0" + rest)) == Some(0)
  {
    hide NumberOf;
    TrimLeftPadded(" ", "0" + rest);
    SpanPrefix("0", rest, IsDigit);
    NumberOfSnoc("", '0', Dec);
    assert "" + ['0'] == "0";
    NumberOfNothing();
  }

  lemma NumberOfNothing()
    ensures NumberOf("", Dec) == 0
  {
  }

  /** Keys as the kernel spells them, which the reader spells otherwise. */
  lemma MisspelledIgnored(c: Cpu, key: string, value: string)
    requires key in ["siblings", "cpuid level", "bogomips", "cache_alignment"] && '\n' !in value
    ensures StepCpu(c, PrintLine(key, value)) == Some(c)
  {
    hide Trim, KeyOf, ValueOf, PrintLine, Words, Stoi, Stol, IsNumberKey, IsLongKey, IsTextKey, IsSwitchKey;
    PrintedKeyValue(key, value);
    UnknownKeys(key);
  }

  lemma UnknownKeys(key: string)
    requires key in ["siblings", "cpuid level", "bogomips", "cache_alignment"]
    ensures !IsNumberKey(key) && !IsLongKey(key) && !IsTextKey(key) && !IsSwitchKey(key)
    ensures key != "cache size" && key != "flags"
  {
  }

  // ----------------------------------------------------- what is counted

  /** The number on the last line of the block for this key, read as the library does. */
  function LastCoreId(block: seq<string>): Option<int>
  {
    if block == [] then None
    else
      var last := block[|block| - 1];
      if Trim(KeyOf(last, ':')) == "core id" then Stoi(ValueOf(last, ':')) else LastCoreId(block[..|block| - 1])
  }

  /** How many blocks have core id 0, or none at all. */
  function ZeroBlocks(blocks: seq<seq<string>>): nat
  {
    if blocks == [] then 0
    else (if LastCoreId(blocks[0]).GetOr(0) == 0 then 1 else 0) + ZeroBlocks(blocks[1..])
  }

  lemma {:induction false} LastCoreIdIsLastNumber(block: seq<string>)
    requires CpuOf(NO_CPU, block).Some?
    ensures LastCoreId(block) == LastNumber(block, "core id")
    decreases |block|
  {
    hide Trim, KeyOf, ValueOf, Stoi, Stol, Words;
    if block != [] {
      var front, last := block[..|block| - 1], block[|block| - 1];
      assert front + [last] == block;
      CpuSnoc(NO_CPU, front, last);
      LastCoreIdIsLastNumber(front);
      CoreIdConverts(CpuOf(NO_CPU, front).value, last);
    }
  }

  /** A core id line that does not convert throws. */
  lemma CoreIdConverts(c: Cpu, line: string)
    requires StepCpu(c, line).Some?
    ensures NumberOn(line, "core id") ==
      if Trim(KeyOf(line, ':')) == "core id" then Stoi(ValueOf(line, ':')) else None
    ensures Trim(KeyOf(line, ':')) == "core id" ==> Stoi(ValueOf(line, ':')).Some?
  {
    hide Trim, KeyOf, ValueOf, Stoi, Stol, Words;
  }

  lemma {:induction false} CountConcat(a: seq<Cpu>, b: seq<Cpu>)
    ensures CountZeroCores(a + b) == CountZeroCores(a) + CountZeroCores(b)
    decreases |b|
  {
    hide CoreId;
    if b == [] {
      assert a + b == a;
    } else {
      assert (a + b)[..|a + b| - 1] == a + b[..|b| - 1];
      CountConcat(a, b[..|b| - 1]);
    }
  }

  lemma {:induction false} CountsBlocks(cpus: seq<Cpu>, blocks: seq<seq<string>>)
    requires |cpus| == |blocks|
    requires forall i :: 0 <= i < |cpus| ==> Some(cpus[i]) == CpuOf(NO_CPU, blocks[i])
    ensures CountZeroCores(cpus) == ZeroBlocks(blocks)
    decreases |cpus|
  {
    hide CpuOf, LastCoreId, CoreId;
    if cpus != [] {
      assert cpus == [cpus[0]] + cpus[1..];
      CountConcat([cpus[0]], cpus[1..]);
      OneCounts(cpus[0]);
      CoreIdOfBlock(blocks[0]);
      LastCoreIdIsLastNumber(blocks[0]);
      CountsBlocks(cpus[1..], blocks[1..]);
    }
  }

  lemma OneCounts(c: Cpu)
    ensures CountZeroCores([c]) == if CoreId(c) == 0 then 1 else 0
  {
    assert [c][..0] == [];
  }

  /** `getNbCPUs` counts the closed blocks whose last core id is 0, and those that
      have none. */
  lemma CpusAreZeroBlocks(blocks: seq<seq<string>>, open: seq<string>)
    requires forall i :: 0 <= i < |blocks| ==> NoBlank(blocks[i]) && CpuOf(NO_CPU, blocks[i]).Some?
    requires NoBlank(open) && CpuOf(NO_CPU, open).Some?
    ensures
      var cpus := FoldCpus([], NO_CPU, CloseBlocks(blocks) + open);
      cpus.Some? && |cpus.value| == |blocks| && CountZeroCores(cpus.value) == ZeroBlocks(blocks)
  {
    hide CpuOf, FoldCpus, CountZeroCores, ZeroBlocks;
    BlocksRead([], blocks, open);
    CountsBlocks(FoldCpus([], NO_CPU, CloseBlocks(blocks) + open).value, blocks);
  }

  // ------------------------------------------------------------ completion

  /** If the line has a numeric key, `stoi` or `stol` accepts its value. */
  predicate LineConverts(line: string)
  {
    var key, number := Trim(KeyOf(line, ':')), Strtol(ValueOf(line, ':'));
    if key in ["processor", "cpu family", "model", "stepping", "microcode", "physical id", "sibblings", "core id",
               "cpu cores", "apicid", "initial apicid", "cpuid_level", "clflush size", "cache_alignement"]
    then number.Some? && -0x8000_0000 <= number.value < 0x8000_0000
    else if key in ["cpu MHz", "bogomipinfo"]
    then number.Some? && -0x8000_0000_0000_0000 <= number.value < 0x8000_0000_0000_0000
    else true
  }

  lemma StepConverts(c: Cpu, line: string)
    ensures StepCpu(c, line).Some? <==> LineConverts(line)
  {
    hide Trim, KeyOf, ValueOf, Strtol, Words;
  }

  lemma {:induction false} FoldConverts(done: seq<Cpu>, current: Cpu, lines: seq<string>)
    ensures FoldCpus(done, current, lines).Some? <==>
      forall k :: 0 <= k < |lines| && lines[k] != "" ==> LineConverts(lines[k])
    decreases |lines|
  {
    hide StepCpu, LineConverts;
    if lines != [] {
      assert forall k :: 0 < k < |lines| ==> lines[k] == lines[1..][k - 1];
      if lines[0] == "" {
        FoldConverts(done + [current], NO_CPU, lines[1..]);
      } else {
        StepConverts(current, lines[0]);
        if StepCpu(current, lines[0]).Some? {
          FoldConverts(done, StepCpu(current, lines[0]).value, lines[1..]);
        }
      }
      assert (forall k :: 0 <= k < |lines| && lines[k] != "" ==> LineConverts(lines[k])) <==>
        (lines[0] == "" || LineConverts(lines[0]))
        && forall k :: 0 <= k < |lines[1..]| && lines[1..][k] != "" ==> LineConverts(lines[1..][k]);
    }
  }

  /** Reading completes exactly when every line with a numeric key converts. */
  lemma CpusDoneIff(text: Option<string>)
    ensures CpusOf(text).Some? <==>
      forall k :: 0 <= k < |FileLines(text)| && FileLines(text)[k] != "" ==> LineConverts(FileLines(text)[k])
  {
    hide LineConverts, FoldCpus;
    FoldConverts([], NO_CPU, FileLines(text));
  }

  function CountBlank(lines: seq<string>): nat
  {
    if lines == [] then 0 else (if lines[0] == "" then 1 else 0) + CountBlank(lines[1..])
  }

  lemma {:induction false} CoresAreBlanks(done: seq<Cpu>, current: Cpu, lines: seq<string>)
    requires FoldCpus(done, current, lines).Some?
    ensures |FoldCpus(done, current, lines).value| == |done| + CountBlank(lines)
    decreases |lines|
  {
    if lines != [] {
      if lines[0] == "" {
        CoresAreBlanks(done + [current], NO_CPU, lines[1..]);
      } else {
        CoresAreBlanks(done, StepCpu(current, lines[0]).value, lines[1..]);
      }
    }
  }

  /** The number of cores is the number of blank lines, whatever the others say. */
  lemma CoresCountBlankLines(text: Option<string>)
    requires CoresOf(text).Some?
    ensures CoresOf(text).value == CountBlank(FileLines(text))
  {
    CoresAreBlanks([], NO_CPU, FileLines(text));
  }
}
