/** /proc/<pid>/cmdline and /proc/<pid>/environ: NUL-separated text. */
module NulFiles {
  import opened Text

  const NUL := '\0'

  /** `readCmdline`; a file that cannot be opened gives the empty list. */
  function DecodeCmdline(text: Option<string>): seq<string>
  {
    if text.None? then [] else Pieces(text.value, NUL)
  }

  /** The list of arguments survives printing exactly when no argument holds a NUL. */
  lemma CmdlineRoundTrip(args: seq<string>)
    ensures DecodeCmdline(Some(Terminated(args, NUL))) == args <==> Free(args, NUL)
  {
    if Free(args, NUL) {
      PiecesOfTerminated(args, NUL);
    } else {
      var i :| 0 <= i < |args| && NUL in args[i];
      assert args[i] in args;
    }
  }

  /** Printing what was parsed returns the content, with its last argument closed. */
  lemma CmdlineReprint(content: string)
    ensures Terminated(DecodeCmdline(Some(content)), NUL) == content
       <==> content == "" || EndsWith(content, NUL)
    ensures Terminated(DecodeCmdline(Some(content)), NUL) == Closed(content, NUL)
  {
    TerminatedOfPieces(content, NUL);
  }

  // ------------------------------------------------------------- environ

  type Environ = map<string, string>

  function StepEnviron(m: Environ, entry: string): Environ
  {
    m[KeyOf(entry, '=') := ValueOf(entry, '=')]
  }

  function FoldEnviron(m: Environ, entries: seq<string>): Environ
    decreases |entries|
  {
    if entries == [] then m else FoldEnviron(StepEnviron(m, entries[0]), entries[1..])
  }

  /** `readEnviron`: the map is not cleared before reading. */
  function DecodeEnviron(m: Environ, text: Option<string>): Environ
  {
    if text.None? then m else FoldEnviron(m, Pieces(text.value, NUL))
  }

  lemma {:induction false} EnvironSnoc(m: Environ, entries: seq<string>, entry: string)
    ensures FoldEnviron(m, entries + [entry]) == StepEnviron(FoldEnviron(m, entries), entry)
    decreases |entries|
  {
    if entries != [] {
      assert (entries + [entry])[1..] == entries[1..] + [entry];
      EnvironSnoc(StepEnviron(m, entries[0]), entries[1..], entry);
    }
  }

  /** Reading is the left-to-right override: each key is bound to the value of
      the last entry that has it, and left as it was when none has. */
  lemma {:induction false} EnvironLastWins(m: Environ, entries: seq<string>, key: string)
    ensures Lookup(FoldEnviron(m, entries), key) ==
      match LastKeyed(entries, '=', key)
      case Some(entry) => Some(ValueOf(entry, '='))
      case None => Lookup(m, key)
    decreases |entries|
  {
    if entries != [] {
      var front, last := entries[..|entries| - 1], entries[|entries| - 1];
      assert front + [last] == entries;
      EnvironSnoc(m, front, last);
      EnvironLastWins(m, front, key);
    }
  }

  lemma UnionSteps(m: Environ, scratch: Environ, rest: Environ, key: string, value: string)
    requires scratch == map[key := value]
    ensures m[key := value] + rest == m + (scratch + rest)
  {
  }

  /** Reading over a map is reading from scratch and taking the override union. */
  lemma {:induction false} EnvironUnion(m: Environ, entries: seq<string>)
    ensures FoldEnviron(m, entries) == m + FoldEnviron(map[], entries)
    decreases |entries|
  {
    if entries != [] {
      hide KeyOf, ValueOf;
      var step := StepEnviron(m, entries[0]);
      var scratch := StepEnviron(map[], entries[0]);
      EnvironUnion(step, entries[1..]);
      EnvironUnion(scratch, entries[1..]);
      UnionSteps(m, scratch, FoldEnviron(map[], entries[1..]), KeyOf(entries[0], '='), ValueOf(entries[0], '='));
    }
  }

  // ---------------------------------------------------------- round trip

  datatype Variable = Variable(name: string, value: string)

  function PrintVariable(v: Variable): string { v.name + "=" + v.value }

  function PrintEntries(vs: seq<Variable>): (es: seq<string>)
    ensures |es| == |vs|
    ensures forall i :: 0 <= i < |vs| ==> es[i] == PrintVariable(vs[i])
  {
    seq(|vs|, i requires 0 <= i < |vs| => PrintVariable(vs[i]))
  }

  /** The text of an environ file for these variables. */
  function PrintEnviron(vs: seq<Variable>): string { Terminated(PrintEntries(vs), NUL) }

  /** `vs` lists the bindings of `m`, in some order, each once. */
  ghost predicate Lists(vs: seq<Variable>, m: Environ)
  {
    && (forall i, j :: 0 <= i < j < |vs| ==> vs[i].name != vs[j].name)
    && (forall i :: 0 <= i < |vs| ==> vs[i].name in m && m[vs[i].name] == vs[i].value)
    && (forall k :: k in m ==> exists i :: 0 <= i < |vs| && vs[i].name == k)
  }

  ghost predicate PrintableBinding(name: string, value: string)
  {
    '=' !in name && NUL !in name && NUL !in value && '\n' !in value
  }

  ghost predicate Printable(m: Environ)
  {
    forall k :: k in m ==> PrintableBinding(k, m[k])
  }

  /** Whatever the text, only printable bindings are ever stored. */
  lemma {:induction false} DecodedIsPrintable(m: Environ, entries: seq<string>)
    requires Printable(m) && Free(entries, NUL)
    ensures Printable(FoldEnviron(m, entries))
    decreases |entries|
  {
    if entries != [] {
      assert NUL !in entries[0];
      DecodedIsPrintable(StepEnviron(m, entries[0]), entries[1..]);
    }
  }

  /** Printing the environment in any order and reading it back from an empty
      start returns it exactly when every binding is printable; '=' in a value
      is no obstacle. */
  lemma EnvironRoundTrip(vs: seq<Variable>, m: Environ)
    requires Lists(vs, m)
    ensures DecodeEnviron(map[], Some(PrintEnviron(vs))) == m <==> Printable(m)
  {
    var text := PrintEnviron(vs);
    if Printable(m) {
      PrintedEntries(vs, m);
      PiecesOfTerminated(PrintEntries(vs), NUL);
      ReadPrinted(vs, m);
    } else {
      forall i | 0 <= i < |Pieces(text, NUL)| ensures NUL !in Pieces(text, NUL)[i] {
        assert Pieces(text, NUL)[i] in Pieces(text, NUL);
      }
      DecodedIsPrintable(map[], Pieces(text, NUL));
    }
  }

  lemma PrintedEntries(vs: seq<Variable>, m: Environ)
    requires Lists(vs, m) && Printable(m)
    ensures Free(PrintEntries(vs), NUL)
    ensures forall i :: 0 <= i < |vs| ==>
      KeyOf(PrintVariable(vs[i]), '=') == vs[i].name && ValueOf(PrintVariable(vs[i]), '=') == vs[i].value
  {
    forall i | 0 <= i < |vs|
      ensures NUL !in PrintEntries(vs)[i]
      ensures KeyOf(PrintVariable(vs[i]), '=') == vs[i].name && ValueOf(PrintVariable(vs[i]), '=') == vs[i].value
    {
      assert PrintableBinding(vs[i].name, m[vs[i].name]);
      KeyValueOfPrinted(vs[i].name, '=', vs[i].value);
    }
  }

  lemma SameLookups(a: Environ, b: Environ)
    requires forall k :: Lookup(a, k) == Lookup(b, k)
    ensures a == b
  {
    forall k ensures k in a <==> k in b ensures k in a ==> a[k] == b[k] {
      assert Lookup(a, k) == Lookup(b, k);
    }
  }

  lemma ReadPrinted(vs: seq<Variable>, m: Environ)
    requires Lists(vs, m) && Printable(m)
    ensures FoldEnviron(map[], PrintEntries(vs)) == m
  {
    hide KeyOf, ValueOf, PrintVariable, FoldEnviron, Printable;
    var es := PrintEntries(vs);
    var r := FoldEnviron(map[], es);
    PrintedEntries(vs, m);
    forall k ensures Lookup(r, k) == Lookup(m, k) {
      EnvironLastWins(map[], es, k);
      if k in m {
        var i :| 0 <= i < |vs| && vs[i].name == k;
        assert es[i] == PrintVariable(vs[i]);
        LastKeyedAt(es, '=', i);
      } else {
        assert forall i :: 0 <= i < |es| ==> KeyOf(es[i], '=') == vs[i].name;
      }
    }
    SameLookups(r, m);
  }
}
