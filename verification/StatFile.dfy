/** /proc/<pid>/stat: one line, read by formatted extraction. */
module StatFile {
  import opened Text
  import opened Numbers

  const NUM_COUNT := 49
  const UTIME := 10
  const STIME := 11

  /** The type of the number extracted `i`-th after the state letter, from
      `m_ppid` (0) to `m_exit_code` (48). */
  function Kind(i: nat): NumKind
  {
    if i <= 4 then I32                 // ppid pgid session tty_nr tpgid
    else if i == 5 then U32            // flags
    else if i <= 13 then U64           // minflt cminflt majflt cmajflt utime stime cutime cstime
    else if i <= 17 then I64           // priority nice num_threads itrealvalue
    else if i == 20 then I64           // rss
    else if i <= 33 then U64           // starttime vmsize, rsslim to cnswap
    else if i <= 35 then I32           // exit_signal processor
    else if i <= 37 then U32           // rt_priority policy
    else if i == 40 then I64           // cguest_time
    else if i <= 47 then U64           // delayacct_blkio_ticks guest_time, start_data to env_end
    else I32                           // exit_code
  }

  predicate InRange(nums: seq<int>) { forall i :: 0 <= i < |nums| ==> Fits(nums[i], Kind(i)) }

  /** The 49 numeric fields, in file order. */
  type Nums = nums: seq<int> | |nums| == NUM_COUNT && InRange(nums) witness seq(49, _ => 0)

  datatype StatRecord = StatRecord(pid: int, name: string, state: string, nums: Nums)

  /** `utime()` and `stime()` once the file has been read. */
  function Utime(r: StatRecord): (t: nat)
    ensures t < WORD
  {
    assert Fits(r.nums[UTIME], Kind(UTIME));
    r.nums[UTIME]
  }

  function Stime(r: StatRecord): (t: nat)
    ensures t < WORD
  {
    assert Fits(r.nums[STIME], Kind(STIME));
    r.nums[STIME]
  }

  /** `utime() + stime()` in `unsigned long` arithmetic. */
  function ProcessTicks(r: StatRecord): (t: nat)
    ensures t < WORD
    ensures Utime(r) + Stime(r) < WORD ==> t == Utime(r) + Stime(r)
  {
    ToU64(Utime(r) + Stime(r))
  }

  predicate NotOpen(c: char) { c != '(' }

  predicate NotClose(c: char) { c != ')' }

  predicate NotParen(c: char) { NotOpen(c) && NotClose(c) }

  /** The two remove/erase statements on `m_name`. */
  function StripParens(name: string): string { Filter(Filter(name, NotOpen), NotClose) }

  function StateName(state: string): string
  {
    if state == "R" then "Running"
    else if state == "S" then "Sleeping"
    else if state == "D" then "Disk sleep"
    else if state == "Z" then "Zombie"
    else if state == "T" then "Stopped"
    else if state == "W" then "Waking"
    else state
  }

  /** The file stream between two extractions. */
  datatype Cursor = Cursor(rest: string, good: bool)

  datatype Taken<T> = Taken(value: T, next: Cursor)

  /** `stream >> variable`, where `prev` is the value the variable had. */
  function TakeNum(c: Cursor, prev: int, k: NumKind): (r: Taken<int>)
    ensures Fits(prev, k) ==> Fits(r.value, k)
  {
    if !c.good then Taken(prev, c)
    else
      var e := ExtractNum(c.rest, k);
      Taken(e.value.GetOr(prev), Cursor(e.rest, e.good))
  }

  function TakeWord(c: Cursor, prev: string): Taken<string>
  {
    if !c.good then Taken(prev, c)
    else
      var e := ExtractWord(c.rest);
      Taken(e.value.GetOr(prev), Cursor(e.rest, e.good))
  }

  function SetNum(nums: Nums, i: nat, v: int): (r: Nums)
    requires i < NUM_COUNT && Fits(v, Kind(i))
  {
    nums[i := v]
  }

  /** The numeric extractions from field `i` on. */
  function TakeNums(c: Cursor, nums: Nums, i: nat): (r: Nums)
    requires i <= NUM_COUNT
    decreases NUM_COUNT - i
  {
    if i == NUM_COUNT then nums
    else
      assert Fits(nums[i], Kind(i));
      var t := TakeNum(c, nums[i], Kind(i));
      TakeNums(t.next, SetNum(nums, i, t.value), i + 1)
  }

  /** Once an extraction has failed, the later fields keep their values. */
  lemma {:induction false} TakeNumsFailed(c: Cursor, nums: Nums, i: nat)
    requires i <= NUM_COUNT && !c.good
    ensures TakeNums(c, nums, i) == nums
    decreases NUM_COUNT - i
  {
    if i < NUM_COUNT {
      assert SetNum(nums, i, nums[i]) == nums by { assert Fits(nums[i], Kind(i)); }
      TakeNumsFailed(c, nums, i + 1);
    }
  }

  function OpenFile(text: Option<string>): Cursor
  {
    if text.None? then Cursor("", false) else Cursor(text.value, true)
  }

  /** `readStat`. When the file cannot be opened, everything is left alone
      except the state, which comes from a local variable. */
  function DecodeStat(prev: StatRecord, text: Option<string>): StatRecord
  {
    var pid := TakeNum(OpenFile(text), prev.pid, I32);
    var name := TakeWord(pid.next, prev.name);
    var state := TakeWord(name.next, "");
    StatRecord(pid.value, StripParens(name.value), StateName(state.value), TakeNums(state.next, prev.nums, 0))
  }

  // ------------------------------------------------------- print and parse

  function PrintNums(nums: seq<int>): (s: string)
    ensures nums != [] ==> s != "" && s[0] == ' '
  {
    if nums == [] then "" else " " + IntText(nums[0]) + PrintNums(nums[1..])
  }

  /** The line the kernel writes, as the text after the name and before it. */
  function PrintTail(state: string, nums: seq<int>): string { " " + state + PrintNums(nums) + "\n" }

  function PrintStat(r: StatRecord): string
  {
    IntText(r.pid) + (" (" + r.name + ")" + PrintTail(r.state, r.nums))
  }

  ghost predicate IsWord(s: string) { s != "" && All(s, NotSpace) }

  lemma {:induction false} TakePrintedNums(nums: Nums, vals: Nums, i: nat)
    requires i <= NUM_COUNT
    ensures TakeNums(Cursor(PrintNums(vals[i..]) + "\n", true), nums, i) == nums[..i] + vals[i..]
    decreases NUM_COUNT - i
  {
    hide TakeNum, SetNum, PrintNums, Kind, Fits, InRange;
    if i == NUM_COUNT {
      assert nums[..i] + vals[i..] == nums;
    } else {
      TakeOne(nums, vals, i);
      var nums' := SetNum(nums, i, vals[i]);
      TakePrintedNums(nums', vals, i + 1);
      Splice(nums, nums', vals, i);
    }
  }

  lemma TakeOne(nums: Nums, vals: Nums, i: nat)
    requires i < NUM_COUNT
    ensures Fits(nums[i], Kind(i)) && Fits(vals[i], Kind(i))
    ensures TakeNum(Cursor(PrintNums(vals[i..]) + "\n", true), nums[i], Kind(i)) ==
      Taken(vals[i], Cursor(PrintNums(vals[i + 1..]) + "\n", true))
  {
    hide Kind;
    var rest := PrintNums(vals[i + 1..]) + "\n";
    assert vals[i..][1..] == vals[i + 1..];
    assert PrintNums(vals[i..]) + "\n" == " " + IntText(vals[i]) + rest;
    NumsInRange(nums, i);
    NumsInRange(vals, i);
    hide IntText, ExtractNum, Fits;
    ExtractPrintedNum(" ", vals[i], rest, Kind(i));
  }

  lemma NumsInRange(nums: Nums, i: nat)
    requires i < NUM_COUNT
    ensures Fits(nums[i], Kind(i))
  {
  }

  lemma Splice(nums: Nums, nums': Nums, vals: Nums, i: nat)
    requires i < NUM_COUNT && Fits(vals[i], Kind(i)) && nums' == SetNum(nums, i, vals[i])
    ensures nums'[..i + 1] + vals[i + 1..] == nums[..i] + vals[i..]
  {
    hide Kind;
  }

  lemma TakePrintedTail(state: string, vals: Nums, nums: Nums)
    requires IsWord(state)
    ensures TakeWord(Cursor(PrintTail(state, vals), true), "").value == state
    ensures TakeNums(TakeWord(Cursor(PrintTail(state, vals), true), "").next, nums, 0) == vals
  {
    var rest := PrintNums(vals) + "\n";
    assert PrintTail(state, vals) == " " + state + rest;
    ExtractPrintedWord(" ", state, rest);
    TakePrintedNums(nums, vals, 0);
    assert vals[0..] == vals && nums[..0] + vals[0..] == vals;
  }

  /** Printing a record whose name has no whitespace and reading it recovers the
      pid and every number, and the name without its parentheses. */
  lemma StatRoundTrip(r: StatRecord, prev: StatRecord)
    requires Fits(r.pid, I32) && IsWord(r.state) && All(r.name, NotSpace)
    ensures DecodeStat(prev, Some(PrintStat(r))) ==
      StatRecord(r.pid, Filter(r.name, NotParen), StateName(r.state), r.nums)
  {
    hide PrintTail, TakeNum, TakeWord, TakeNums, StripParens, Filter;
    var tail := PrintTail(r.state, r.nums);
    var name := "(" + r.name + ")";
    TailStartsWithSpace(r.state, r.nums);
    assert PrintStat(r) == IntText(r.pid) + (" " + name + tail) by {
      assert " " + name == " (" + r.name + ")";
    }
    PidThenName(r, name, tail, prev);
    TakePrintedTail(r.state, r.nums, prev.nums);
    StripOfParenthesised(r.name);
  }

  lemma PidThenName(r: StatRecord, name: string, tail: string, prev: StatRecord)
    requires Fits(r.pid, I32) && IsWord(name)
    requires tail != "" && IsSpace(tail[0])
    ensures
      var pid := TakeNum(Cursor(IntText(r.pid) + (" " + name + tail), true), prev.pid, I32);
      pid.value == r.pid && TakeWord(pid.next, prev.name) == Taken(name, Cursor(tail, true))
  {
    var after := " " + name + tail;
    assert "" + IntText(r.pid) + after == IntText(r.pid) + after;
    ExtractPrintedNum("", r.pid, after, I32);
    ExtractPrintedWord(" ", name, tail);
  }

  lemma StripOfParenthesised(name: string)
    ensures StripParens("(" + name + ")") == Filter(name, NotParen)
  {
    FilterTwice("(" + name + ")", NotOpen, NotClose, NotParen);
    FilterConcat("(" + name, ")", NotParen);
    FilterConcat("(", name, NotParen);
    assert Filter("(", NotParen) == "" && Filter(")", NotParen) == "";
  }

  predicate PlainChar(c: char) { NotSpace(c) && NotParen(c) }

  lemma FilterSubset(s: string, p: char -> bool, q: char -> bool)
    requires All(s, p)
    ensures All(Filter(s, q), p)
  {
    if s != "" {
      assert forall i :: 0 <= i < |s| - 1 ==> s[1..][i] == s[i + 1];
      FilterSubset(s[1..], p, q);
      if q(s[0]) {
        var t := Filter(s[1..], q);
        assert forall i :: 0 < i < |t| + 1 ==> ([s[0]] + t)[i] == t[i - 1];
      }
    }
  }

  /** The name read back is the printed one exactly when it holds neither
      whitespace nor a parenthesis. */
  lemma StatNameExact(r: StatRecord, prev: StatRecord)
    requires Fits(r.pid, I32) && IsWord(r.state)
    ensures DecodeStat(prev, Some(PrintStat(r))).name == r.name <==> All(r.name, PlainChar)
  {
    var name := DecodeStat(prev, Some(PrintStat(r))).name;
    if All(r.name, NotSpace) {
      StatRoundTrip(r, prev);
      FilterKeepsAll(r.name, NotParen);
      assert All(r.name, PlainChar) <==> All(r.name, NotParen);
    } else {
      NameHasNoSpace(r, prev);
      assert name != r.name;
    }
  }

  lemma NameHasNoSpace(r: StatRecord, prev: StatRecord)
    requires Fits(r.pid, I32)
    ensures All(DecodeStat(prev, Some(PrintStat(r))).name, NotSpace)
  {
    var shown := "(" + r.name + ")" + PrintTail(r.state, r.nums);
    StatLine(r, shown);
    assert "" + IntText(r.pid) + (" " + shown) == PrintStat(r);
    ExtractPrintedNum("", r.pid, " " + shown, I32);
    StrippedWordHasNoSpace(Cursor(" " + shown, true), shown, prev.name);
  }

  lemma StatLine(r: StatRecord, shown: string)
    requires shown == "(" + r.name + ")" + PrintTail(r.state, r.nums)
    ensures PrintStat(r) == IntText(r.pid) + (" " + shown)
  {
    hide PrintTail, IntText;
    assert " " + shown == " (" + r.name + ")" + PrintTail(r.state, r.nums);
  }

  lemma StrippedWordHasNoSpace(c: Cursor, shown: string, prev: string)
    requires c.good && c.rest == " " + shown && shown != "" && NotSpace(shown[0])
    ensures All(StripParens(TakeWord(c, prev).value), NotSpace)
  {
    TrimLeftPadded(" ", shown);
    var word := ExtractWord(c.rest).value.value;
    FilterSubset(word, NotSpace, NotOpen);
    FilterSubset(Filter(word, NotOpen), NotSpace, NotClose);
  }

  // ------------------------------------------------------- fields by position

  function NumTexts(nums: seq<int>): (texts: seq<string>)
    ensures |texts| == |nums|
    ensures forall i :: 0 <= i < |nums| ==> texts[i] == IntText(nums[i])
  {
    if nums == [] then [] else [IntText(nums[0])] + NumTexts(nums[1..])
  }

  lemma {:induction false} WordsOfNums(nums: seq<int>)
    ensures Words(PrintNums(nums) + "\n") == NumTexts(nums)
    decreases |nums|
  {
    hide IntText, ExtractWord;
    if nums == [] {
      NewlineHasNoWords();
    } else {
      var rest := PrintNums(nums[1..]) + "\n";
      assert PrintNums(nums) + "\n" == " " + IntText(nums[0]) + rest;
      WordsOfPrinted(" ", IntText(nums[0]), rest);
      WordsOfNums(nums[1..]);
    }
  }

  lemma NewlineHasNoWords()
    ensures Words(PrintNums([]) + "\n") == []
  {
  }

  /** The words of a printed line: pid, name, state and the numbers. */
  lemma StatWords(r: StatRecord)
    requires IsWord(r.state) && All(r.name, NotSpace)
    ensures Words(PrintStat(r)) == [IntText(r.pid), "(" + r.name + ")", r.state] + NumTexts(r.nums)
  {
    hide IntText, Words, PrintNums;
    var nums := PrintNums(r.nums) + "\n";
    var tail := " " + r.state + nums;
    var name := "(" + r.name + ")";
    var after := " " + name + tail;
    assert PrintTail(r.state, r.nums) == tail;
    assert PrintStat(r) == "" + IntText(r.pid) + after by {
      assert " (" + r.name + ")" + tail == after;
    }
    WordsOfPrinted("", IntText(r.pid), after);
    WordsOfPrinted(" ", name, tail);
    WordsOfPrinted(" ", r.state, nums);
    WordsOfNums(r.nums);
  }

  /** Every number is read from its own position, three words after its index; user
      and system time are the 14th and the 15th word of the line. */
  lemma StatFieldsRead(r: StatRecord, prev: StatRecord)
    requires Fits(r.pid, I32) && IsWord(r.state) && All(r.name, NotSpace)
    ensures
      var fields := Words(PrintStat(r));
      var d := DecodeStat(prev, Some(PrintStat(r)));
      && |fields| == 52
      && Strtol(fields[0]) == Some(d.pid)
      && (forall i :: 0 <= i < 49 ==> Strtol(fields[i + 3]) == Some(d.nums[i]))
      && Strtol(fields[13]) == Some(Utime(d)) && Strtol(fields[14]) == Some(Stime(d))
  {
    hide IntText, Words, PrintStat, DecodeStat, Strtol, Kind;
    StatWords(r);
    StatRoundTrip(r, prev);
    var fields := Words(PrintStat(r));
    StrtolOfIntText(r.pid);
    forall i | 0 <= i < 49 ensures Strtol(fields[i + 3]) == Some(r.nums[i]) {
      StrtolOfIntText(r.nums[i]);
    }
  }

  /** The range of the number at index `i`, by the declared type of the field it is
      read into: `int`, `unsigned int`, `long` or `unsigned long`. */
  predicate InDeclaredRange(i: nat, v: int)
  {
    if i in {0, 1, 2, 3, 4, 34, 35, 48} then -0x8000_0000 <= v < 0x8000_0000
    else if i in {5, 36, 37} then 0 <= v < 0x1_0000_0000
    else if i in {14, 15, 16, 17, 20, 40} then -0x8000_0000_0000_0000 <= v < 0x8000_0000_0000_0000
    else 0 <= v < 0x1_0000_0000_0000_0000
  }

  lemma NumRanges(nums: seq<int>)
    requires |nums| == 49
    ensures InRange(nums) <==> forall i :: 0 <= i < 49 ==> InDeclaredRange(i, nums[i])
  {
    forall i | 0 <= i < 49 ensures Fits(nums[i], Kind(i)) <==> InDeclaredRange(i, nums[i]) {
    }
  }

  /** The state shown for each letter of a printed line. */
  lemma StateShown(r: StatRecord, prev: StatRecord)
    requires Fits(r.pid, I32) && IsWord(r.state) && All(r.name, NotSpace)
    ensures
      var shown := DecodeStat(prev, Some(PrintStat(r))).state;
      var names := map["R" := "Running", "S" := "Sleeping", "D" := "Disk sleep",
                       "Z" := "Zombie", "T" := "Stopped", "W" := "Waking"];
      shown == if r.state in names then names[r.state] else r.state
  {
    hide DecodeStat, PrintStat;
    StatRoundTrip(r, prev);
  }

  // ------------------------------------------------------------- short lines

  /** A line up to and including the state. Older kernels print fewer numbers after it. */
  function PrintHead(r: StatRecord): string { IntText(r.pid) + (" (" + r.name + ")" + (" " + r.state)) }

  /** `nums` with the fields from `i` to `k` taken from `vals`. */
  function Overwrite(nums: Nums, vals: Nums, i: nat, k: nat): (r: Nums)
    requires i <= k <= NUM_COUNT
    ensures forall j :: 0 <= j < NUM_COUNT ==> r[j] == if i <= j < k then vals[j] else nums[j]
    decreases k - i
  {
    if i == k then nums
    else
      assert Fits(vals[i], Kind(i));
      Overwrite(SetNum(nums, i, vals[i]), vals, i + 1, k)
  }

  /** Some numbers in range, then any text that does not continue the last of them. */
  lemma {:induction false} TakeShortNums(nums: Nums, vals: Nums, i: nat, k: nat, stop: string)
    requires i <= k <= NUM_COUNT && stop != "" && !IsDigit(stop[0])
    ensures TakeNums(Cursor(PrintNums(vals[i..k]) + stop, true), nums, i) ==
      TakeNums(Cursor(stop, true), Overwrite(nums, vals, i, k), k)
    decreases k - i
  {
    hide TakeNum, SetNum, Kind, Fits, InRange, ExtractNum;
    if i == k {
      assert PrintNums(vals[i..k]) + stop == stop;
    } else {
      hide PrintNums;
      TakeOneShort(nums, vals, i, k, stop);
      TakeShortNums(SetNum(nums, i, vals[i]), vals, i + 1, k, stop);
    }
  }

  /** At the end of the line nothing more is assigned. */
  lemma NothingLeft(nums: Nums, i: nat)
    requires i <= NUM_COUNT
    ensures TakeNums(Cursor("\n", true), nums, i) == nums
  {
    if i < NUM_COUNT {
      hide Kind;
      NumsInRange(nums, i);
      var t := TakeNum(Cursor("\n", true), nums[i], Kind(i));
      assert t.value == nums[i] && !t.next.good;
      assert SetNum(nums, i, nums[i]) == nums;
      TakeNumsFailed(t.next, nums, i + 1);
    }
  }

  lemma TakeOneShort(nums: Nums, vals: Nums, i: nat, k: nat, stop: string)
    requires i < k <= NUM_COUNT && stop != "" && !IsDigit(stop[0])
    ensures Fits(nums[i], Kind(i)) && Fits(vals[i], Kind(i))
    ensures TakeNum(Cursor(PrintNums(vals[i..k]) + stop, true), nums[i], Kind(i)) ==
      Taken(vals[i], Cursor(PrintNums(vals[i + 1..k]) + stop, true))
  {
    hide Kind;
    var rest := PrintNums(vals[i + 1..k]) + stop;
    assert vals[i..k][1..] == vals[i + 1..k];
    assert PrintNums(vals[i..k]) + stop == " " + IntText(vals[i]) + rest;
    NumsInRange(nums, i);
    NumsInRange(vals, i);
    hide IntText, ExtractNum, Fits;
    ExtractPrintedNum(" ", vals[i], rest, Kind(i));
  }

  /** A file that cannot be opened leaves the pid and the numbers, empties the state,
      and takes parentheses out of the old name, which has none left. */
  lemma StatUnreadable(prev: StatRecord)
    ensures
      var d := DecodeStat(prev, None);
      && d.pid == prev.pid && d.state == "" && d.nums == prev.nums
      && (All(prev.name, NotParen) ==> d.name == prev.name)
  {
    TakeNumsFailed(Cursor("", false), prev.nums, 0);
    FilterTwice(prev.name, NotOpen, NotClose, NotParen);
    if All(prev.name, NotParen) {
      FilterKeepsAll(prev.name, NotParen);
    }
  }

  /** A number above the range of its field sets the field to the top of the range,
      and the later fields keep what they had. */
  lemma TooLarge(nums: Nums, k: nat, v: nat, after: string)
    requires k < NUM_COUNT && v > MaxOf(Kind(k)) && (after == "" || !IsDigit(after[0]))
    ensures
      var r := TakeNums(Cursor(" " + IntText(v) + after, true), nums, k);
      forall j :: 0 <= j < NUM_COUNT ==> r[j] == if j == k then MaxOf(Kind(k)) else nums[j]
  {
    hide IntText, ExtractNum;
    NumsInRange(nums, k);
    ExtractTooLarge(" ", v, after, Kind(k));
    var t := TakeNum(Cursor(" " + IntText(v) + after, true), nums[k], Kind(k));
    TakeNumsFailed(t.next, SetNum(nums, k, t.value), k + 1);
  }

  /** The name and the state of a line, whatever follows them. */
  lemma HeadTaken(r: StatRecord, prev: StatRecord, rest: string)
    requires Fits(r.pid, I32) && IsWord(r.state) && All(r.name, NotSpace) && rest != "" && IsSpace(rest[0])
    ensures
      var d := DecodeStat(prev, Some(PrintHead(r) + rest));
      && d.pid == r.pid && d.name == Filter(r.name, NotParen) && d.state == StateName(r.state)
      && d.nums == TakeNums(Cursor(rest, true), prev.nums, 0)
  {
    hide TakeNum, TakeWord, TakeNums, StripParens, Filter, IntText;
    var tail := " " + r.state + rest;
    var name := "(" + r.name + ")";
    HeadText(r, rest, tail);
    PidThenName(r, name, tail, prev);
    StateTaken(r.state, rest);
    StripOfParenthesised(r.name);
  }

  lemma HeadText(r: StatRecord, rest: string, tail: string)
    requires tail == " " + r.state + rest
    ensures PrintHead(r) + rest == IntText(r.pid) + (" " + ("(" + r.name + ")") + tail)
  {
    hide IntText;
  }

  /** A line with fewer numbers sets those it has; the others keep what they had. */
  lemma StatShortLine(r: StatRecord, prev: StatRecord, k: nat)
    requires Fits(r.pid, I32) && IsWord(r.state) && All(r.name, NotSpace) && k <= NUM_COUNT
    ensures
      var d := DecodeStat(prev, Some(PrintHead(r) + (PrintNums(r.nums[..k]) + "\n")));
      && d.pid == r.pid && d.name == Filter(r.name, NotParen) && d.state == StateName(r.state)
      && (forall i :: 0 <= i < NUM_COUNT ==> d.nums[i] == if i < k then r.nums[i] else prev.nums[i])
  {
    hide DecodeStat, PrintHead, TakeNums, Filter, Kind;
    RestStarts(r.nums[..k], "\n");
    HeadTaken(r, prev, PrintNums(r.nums[..k]) + "\n");
    assert r.nums[0..k] == r.nums[..k];
    TakeShortNums(prev.nums, r.nums, 0, k, "\n");
    NothingLeft(Overwrite(prev.nums, r.nums, 0, k), k);
  }

  /** A line with a number that does not fit its field: the fields before it are set,
      the field itself to its greatest value, and the others keep what they had. */
  lemma StatTooLarge(r: StatRecord, prev: StatRecord, k: nat, v: nat, after: string)
    requires Fits(r.pid, I32) && IsWord(r.state) && All(r.name, NotSpace)
    requires k < NUM_COUNT && v > MaxOf(Kind(k)) && (after == "" || !IsDigit(after[0]))
    ensures
      var d := DecodeStat(prev, Some(PrintHead(r) + (PrintNums(r.nums[..k]) + (" " + IntText(v) + after))));
      forall i :: 0 <= i < NUM_COUNT ==>
        d.nums[i] == if i < k then r.nums[i] else if i == k then MaxOf(Kind(k)) else prev.nums[i]
  {
    hide DecodeStat, PrintHead, TakeNums, Filter, Kind, IntText, MaxOf;
    var stop := " " + IntText(v) + after;
    RestStarts(r.nums[..k], stop);
    HeadTaken(r, prev, PrintNums(r.nums[..k]) + stop);
    assert r.nums[0..k] == r.nums[..k];
    TakeShortNums(prev.nums, r.nums, 0, k, stop);
    TooLarge(Overwrite(prev.nums, r.nums, 0, k), k, v, after);
  }

  lemma RestStarts(nums: seq<int>, stop: string)
    requires stop != "" && IsSpace(stop[0])
    ensures IsSpace((PrintNums(nums) + stop)[0])
  {
  }

  lemma StateTaken(state: string, rest: string)
    requires IsWord(state) && (rest == "" || IsSpace(rest[0]))
    ensures TakeWord(Cursor(" " + state + rest, true), "") == Taken(state, Cursor(rest, true))
  {
    hide ExtractWord;
    ExtractPrintedWord(" ", state, rest);
  }

  // ---------------------------------------------------- names with whitespace

  lemma SpanStops(s: string, at: nat, p: char -> bool)
    requires at < |s| && !p(s[at])
    ensures Span(s, p) <= at
  {
  }

  lemma SplitKeepsEnd(t: string)
    ensures
      var b := |t| - |SplitSign(t).magnitude|;
      0 <= b <= 1 && SplitSign(t).magnitude == t[b..] && (b == 1 ==> t[0] == '-' || t[0] == '+')
  {
  }

  lemma SignedStopsAtClose(t: string, p: nat, k: NumKind)
    requires p < |t| && t[p] == ')'
    ensures
      var e := ExtractSigned(SplitSign(t), k);
      e.good ==>
        var d := |t| - |e.rest|;
        && 1 <= d <= p && e.rest == t[d..] && !IsDigit(e.rest[0])
        && (d == 1 ==> IsDigit(t[0]))
  {
    hide Span, ExtractSigned, SplitSign;
    var u := SplitSign(t);
    SplitKeepsEnd(t);
    var b := |t| - |u.magnitude|;
    SpanStops(u.magnitude, p - b, IsDigit);
    ConvertKeepsRest(u, k);
    var n := Span(u.magnitude, IsDigit);
    assert u.magnitude[n..] == t[b + n..];
    if n > 0 {
      assert IsDigit(u.magnitude[..n][0]) && u.magnitude[0] == t[b];
    }
  }

  /** A successful extraction from text that does not start with a digit takes at
      least two characters, and never a closing parenthesis. */
  lemma ExtractStopsAtClose(s: string, p: nat, k: NumKind)
    requires p < |s| && s[p] == ')' && !IsDigit(s[0])
    ensures
      var e := ExtractNum(s, k);
      e.good ==>
        var d := |s| - |e.rest|;
        2 <= d <= p && e.rest == s[d..] && !IsDigit(e.rest[0])
  {
    hide Span, ExtractSigned, SplitSign;
    var a := Span(s, IsSpace);
    SpanStops(s, p, IsSpace);
    SignedStopsAtClose(s[a..], p - a, k);
  }

  lemma ConvertKeepsRest(u: Signed, k: NumKind)
    ensures
      var n := Span(u.magnitude, IsDigit);
      ExtractSigned(u, k).rest == u.magnitude[n..] && (ExtractSigned(u, k).good ==> n > 0)
  {
    hide NumberOf;
  }

  lemma TakeOneBeforeClose(c: Cursor, prev: int, p: nat, k: NumKind)
    requires c.good && p < |c.rest| && c.rest[p] == ')' && !IsDigit(c.rest[0])
    ensures
      var next := TakeNum(c, prev, k).next;
      next.good ==>
        && next.rest != "" && !IsDigit(next.rest[0])
        && exists q: nat :: q + 2 <= p && q < |next.rest| && next.rest[q] == ')'
  {
    hide ExtractNum;
    ExtractStopsAtClose(c.rest, p, k);
    var next := TakeNum(c, prev, k).next;
    if next.good {
      var d := |c.rest| - |next.rest|;
      assert next.rest[p - d] == c.rest[p];
    }
  }

  /** So the extractions that start before a closing parenthesis at distance `p`
      reach at most p / 2 fields further. */
  lemma {:induction false} TakeNumsStopAtClose(c: Cursor, nums: Nums, i: nat, p: nat, j: nat)
    requires i <= NUM_COUNT && i + p / 2 < j < NUM_COUNT
    requires c.good ==> p < |c.rest| && c.rest[p] == ')' && !IsDigit(c.rest[0])
    ensures TakeNums(c, nums, i)[j] == nums[j]
    decreases NUM_COUNT - i
  {
    hide TakeNum, TakeNums, SetNum, Kind, Fits, InRange;
    if !c.good {
      TakeNumsFailed(c, nums, i);
    } else {
      var next, nums' := NextCursor(c, nums, i), NextNums(c, nums, i);
      TakeNumsStep(c, nums, i, j);
      NextBeforeClose(c, nums, i, p);
      if next.good {
        var q: nat :| q + 2 <= p && q < |next.rest| && next.rest[q] == ')';
        TakeNumsStopAtClose(next, nums', i + 1, q, j);
      } else {
        TakeNumsFailed(next, nums', i + 1);
      }
    }
  }

  function NextCursor(c: Cursor, nums: Nums, i: nat): Cursor
    requires i < NUM_COUNT
  {
    TakeNum(c, nums[i], Kind(i)).next
  }

  function NextNums(c: Cursor, nums: Nums, i: nat): Nums
    requires i < NUM_COUNT
  {
    assert Fits(nums[i], Kind(i));
    SetNum(nums, i, TakeNum(c, nums[i], Kind(i)).value)
  }

  lemma TakeNumsStep(c: Cursor, nums: Nums, i: nat, j: nat)
    requires i < j < NUM_COUNT
    ensures TakeNums(c, nums, i) == TakeNums(NextCursor(c, nums, i), NextNums(c, nums, i), i + 1)
    ensures NextNums(c, nums, i)[j] == nums[j]
  {
    hide TakeNum, Kind, Fits;
  }

  lemma NextBeforeClose(c: Cursor, nums: Nums, i: nat, p: nat)
    requires i < NUM_COUNT && c.good && p < |c.rest| && c.rest[p] == ')' && !IsDigit(c.rest[0])
    ensures
      var next := NextCursor(c, nums, i);
      next.good ==>
        && next.rest != "" && !IsDigit(next.rest[0])
        && exists q: nat :: q + 2 <= p && q < |next.rest| && next.rest[q] == ')'
  {
    hide TakeNum, Kind;
    TakeOneBeforeClose(c, nums[i], p, Kind(i));
  }

  predicate NotNumeric(c: char) { !IsDigit(c) && c != '-' && c != '+' }

  lemma LastWord(gap: string, rem: string, tail: string)
    requires All(gap, IsSpace) && All(rem, NotSpace) && tail != "" && IsSpace(tail[0])
    ensures TakeWord(Cursor(gap + (rem + (")" + tail)), true), "") == Taken(rem + ")", Cursor(tail, true))
  {
    hide ExtractWord;
    assert gap + (rem + (")" + tail)) == gap + (rem + ")") + tail;
    ExtractPrintedWord(gap, rem + ")", tail);
  }

  /** The state and the numbers as extracted after the first word of a name of
      several words, where `rem` is what follows the whitespace after it. */
  lemma SecondWord(gap: string, rem: string, state: string, vals: Nums, prev: Nums, j: nat)
    requires gap != "" && All(gap, IsSpace) && (rem == "" || NotSpace(rem[0]))
    requires IsWord(state) && NotNumeric(state[0])
    requires 0 < j < NUM_COUNT && |rem| <= 2 * j
    ensures
      var word := TakeWord(Cursor(gap + (rem + (")" + PrintTail(state, vals))), true), "");
      TakeNums(word.next, prev, 0)[j] == prev[j]
  {
    hide TakeNums, ExtractWord, PrintTail, Span;
    var tail := PrintTail(state, vals);
    var n := Span(rem, NotSpace);
    TailStartsWithSpace(state, vals);
    if n == |rem| {
      assert rem[..n] == rem;
      LastWord(gap, rem, tail);
      StateTakenForNumber(state, vals, prev);
    } else {
      var rest := rem[n..] + (")" + tail);
      assert gap + (rem + (")" + tail)) == gap + rem[..n] + rest;
      assert rest[0] == rem[n] && rest[|rem| - n] == ')';
      assert n > 0 by { assert NotSpace(rem[0]); }
      ExtractPrintedWord(gap, rem[..n], rest);
      TakeNumsStopAtClose(Cursor(rest, true), prev, 0, |rem| - n, j);
    }
  }

  lemma SpacedLine(r: StatRecord, first: string, gap: string, rem: string, tail: string)
    requires r.name == first + gap + rem && tail == PrintTail(r.state, r.nums)
    ensures PrintStat(r) == IntText(r.pid) + (" " + ("(" + first) + (gap + (rem + (")" + tail))))
  {
    hide IntText, PrintTail;
    assert " (" + r.name + ")" + tail == " " + ("(" + first) + (gap + (rem + (")" + tail)));
  }

  lemma SpacedCursor(r: StatRecord, prev: StatRecord, first: string, gap: string, after: string)
    requires Fits(r.pid, I32) && All(first, NotSpace) && gap != "" && All(gap, IsSpace)
    requires PrintStat(r) == IntText(r.pid) + (" " + ("(" + first) + (gap + after))
    ensures
      var pid := TakeNum(OpenFile(Some(PrintStat(r))), prev.pid, I32);
      var name := TakeWord(pid.next, prev.name);
      pid.value == r.pid && name == Taken("(" + first, Cursor(gap + after, true))
  {
    hide PrintStat, TakeNum, TakeWord;
    PidThenName(r, "(" + first, gap + after, prev);
  }

  /** A name with whitespace, of any number of words: only its first word is kept,
      and the words after it are read as the state and the first numbers, so that
      every later number keeps the value it had before the read. */
  lemma StatSpacedName(r: StatRecord, prev: StatRecord, j: nat)
    requires Fits(r.pid, I32) && IsWord(r.state) && NotNumeric(r.state[0])
    requires !All(r.name, NotSpace)
    requires 0 < j < NUM_COUNT && |r.name| <= 2 * j + 1
    ensures
      var d := DecodeStat(prev, Some(PrintStat(r)));
      && d.pid == r.pid
      && d.name == Filter(r.name[..Span(r.name, NotSpace)], NotParen)
      && d.nums[j] == prev.nums[j]
  {
    hide PrintTail, PrintStat, TakeNum, TakeWord, TakeNums, StripParens, Filter;
    var n := Span(r.name, NotSpace);
    var first := r.name[..n];
    var m := Span(r.name[n..], IsSpace);
    var gap, rem := r.name[n..][..m], r.name[n..][m..];
    assert r.name == first + gap + rem;
    assert m > 0 by { assert r.name[n..][0] == r.name[n]; }
    var tail := PrintTail(r.state, r.nums);
    SpacedLine(r, first, gap, rem, tail);
    SpacedCursor(r, prev, first, gap, rem + (")" + tail));
    SecondWord(gap, rem, r.state, r.nums, prev.nums, j);
    StripOpen(first);
  }

  /** With a name as long as the kernel allows (15 characters) and more, such a
      process keeps the CPU ticks it had. */
  lemma StatSpacedTicks(r: StatRecord, prev: StatRecord)
    requires Fits(r.pid, I32) && IsWord(r.state) && NotNumeric(r.state[0])
    requires !All(r.name, NotSpace) && |r.name| <= 2 * UTIME + 1
    ensures ProcessTicks(DecodeStat(prev, Some(PrintStat(r)))) == ProcessTicks(prev)
  {
    hide DecodeStat, PrintStat, ProcessTicks;
    StatSpacedName(r, prev, UTIME);
    StatSpacedName(r, prev, STIME);
    SameTicks(DecodeStat(prev, Some(PrintStat(r))), prev);
  }

  /** When the name is two words, the second is taken for the state and the
      state for a number: the parent becomes 0 and every other number, CPU time
      included, keeps the value it had before the read. */
  lemma StatTwoWordName(r: StatRecord, prev: StatRecord, first: string, space: char, second: string)
    requires Fits(r.pid, I32) && IsWord(r.state) && NotNumeric(r.state[0])
    requires IsSpace(space) && All(first, NotSpace) && All(second, NotSpace)
    requires r.name == first + [space] + second
    ensures
      var d := DecodeStat(prev, Some(PrintStat(r)));
      && d.pid == r.pid
      && d.name == Filter(first, NotParen)
      && d.state == StateName(second + ")")
      && d.nums == prev.nums[0 := 0]
  {
    hide PrintTail, PrintStat, TakeNum, TakeWord, TakeNums, StripParens, Filter;
    var tail := PrintTail(r.state, r.nums);
    TailStartsWithSpace(r.state, r.nums);
    SpacedLine(r, first, [space], second, tail);
    SpacedCursor(r, prev, first, [space], second + (")" + tail));
    LastWord([space], second, tail);
    StateTakenForNumber(r.state, r.nums, prev.nums);
    StripOpen(first);
  }

  lemma TailStartsWithSpace(state: string, nums: seq<int>)
    ensures PrintTail(state, nums) != "" && PrintTail(state, nums)[0] == ' '
  {
  }

  lemma StripOpen(first: string)
    ensures StripParens("(" + first) == Filter(first, NotParen)
  {
    FilterTwice("(" + first, NotOpen, NotClose, NotParen);
    FilterConcat("(", first, NotParen);
    assert Filter("(", NotParen) == "";
  }

  /** So the ticks of such a process never move. */
  lemma StatTwoWordTicks(r: StatRecord, prev: StatRecord, first: string, space: char, second: string)
    requires Fits(r.pid, I32) && IsWord(r.state) && NotNumeric(r.state[0])
    requires IsSpace(space) && All(first, NotSpace) && All(second, NotSpace)
    requires r.name == first + [space] + second
    ensures ProcessTicks(DecodeStat(prev, Some(PrintStat(r)))) == ProcessTicks(prev)
  {
    StatTwoWordName(r, prev, first, space, second);
    SameTicks(DecodeStat(prev, Some(PrintStat(r))), prev);
  }

  /** A record with some number of ticks, to start from. */
  function WithTicks(r: StatRecord, ticks: nat): (q: StatRecord)
    requires ticks < WORD
    ensures ProcessTicks(q) == ticks && q == r.(nums := q.nums)
  {
    assert Fits(ticks, Kind(UTIME)) && Fits(0, Kind(STIME));
    r.(nums := SetNum(SetNum(r.nums, UTIME, ticks), STIME, 0))
  }

  /** What the kernel shows of a process that has used `t` ticks. Reading the stat
      file sets the ticks to `t`; unless `always`, it may also leave them as they
      were, as it does when the file cannot be opened. */
  ghost predicate ShowsTicks(text: Option<string>, t: nat, always: bool)
  {
    forall prev: StatRecord ::
      ProcessTicks(DecodeStat(prev, text)) == t
      || (!always && ProcessTicks(DecodeStat(prev, text)) == ProcessTicks(prev))
  }

  /** A stat line as the kernel prints it, within its limit on names, shows its
      ticks; it does so whatever was cached exactly when the name holds no
      whitespace. */
  lemma PrintedShowsTicks(r: StatRecord)
    requires Fits(r.pid, I32) && IsWord(r.state) && NotNumeric(r.state[0])
    requires |r.name| <= 2 * UTIME + 1
    ensures ShowsTicks(Some(PrintStat(r)), ProcessTicks(r), false)
    ensures ShowsTicks(Some(PrintStat(r)), ProcessTicks(r), true) <==> All(r.name, NotSpace)
  {
    hide DecodeStat, PrintStat, ProcessTicks, WithTicks;
    var text := Some(PrintStat(r));
    if All(r.name, NotSpace) {
      forall prev: StatRecord ensures ProcessTicks(DecodeStat(prev, text)) == ProcessTicks(r) {
        StatRoundTrip(r, prev);
        SameTicks(DecodeStat(prev, text), r);
      }
    } else {
      forall prev: StatRecord ensures ProcessTicks(DecodeStat(prev, text)) == ProcessTicks(prev) {
        StatSpacedTicks(r, prev);
      }
      var other := WithTicks(r, if ProcessTicks(r) == 0 then 1 else 0);
      assert ProcessTicks(DecodeStat(other, text)) != ProcessTicks(r);
    }
  }

  /** An unreadable file leaves the ticks as they were. */
  lemma UnreadableShowsTicks(t: nat)
    ensures ShowsTicks(None, t, false)
  {
    hide ProcessTicks;
    forall prev: StatRecord ensures ProcessTicks(DecodeStat(prev, None)) == ProcessTicks(prev) {
      TakeNumsFailed(Cursor("", false), prev.nums, 0);
      SameTicks(DecodeStat(prev, None), prev);
    }
  }

  lemma SameTicks(a: StatRecord, b: StatRecord)
    requires a.nums[UTIME] == b.nums[UTIME] && a.nums[STIME] == b.nums[STIME]
    ensures ProcessTicks(a) == ProcessTicks(b)
  {
  }

  lemma StateTakenForNumber(state: string, vals: Nums, nums: Nums)
    requires IsWord(state) && NotNumeric(state[0])
    ensures TakeNums(Cursor(PrintTail(state, vals), true), nums, 0) == nums[0 := 0]
  {
    var t := state + PrintNums(vals) + "\n";
    assert PrintTail(state, vals) == " " + t;
    assert t[0] == state[0];
    TrimLeftPadded(" ", t);
    SpanNone(t, IsDigit);
    var failed := TakeNum(Cursor(PrintTail(state, vals), true), nums[0], Kind(0));
    assert failed.value == 0 && !failed.next.good;
    TakeNumsFailed(failed.next, SetNum(nums, 0, 0), 1);
  }
}
