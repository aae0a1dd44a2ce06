/** Streams and text: the pieces of the C++ standard library and of Boost that
    the readers of /proc rely on (`getline`, formatted string extraction,
    `trim`, `split`), over `string` as a sequence of bytes. */
module Text {

  datatype Option<+T> = None | Some(value: T) {
    predicate IsFailure() { None? }
    function PropagateFailure<U>(): Option<U> requires None? { None }
    function Extract(): T requires Some? { value }
    function GetOr(default: T): T { if Some? then value else default }
  }

  /** What a reader leaves behind: the state it built, and whether a numeric
      conversion threw on the way. */
  datatype Outcome<+T> = Done(state: T) | Threw(state: T)

  /** What a map binds a key to, if anything. */
  function Lookup<K, V>(m: map<K, V>, k: K): Option<V> { if k in m then Some(m[k]) else None }

  lemma Assoc<T>(a: seq<T>, b: seq<T>, c: seq<T>)
    ensures a + b + c == a + (b + c)
  {
  }

  /** The `isspace` of the C locale. */
  predicate IsSpace(c: char) { c == ' ' || '\t' <= c <= '\r' }

  predicate IsDigit(c: char) { '0' <= c <= '9' }

  predicate IsXDigit(c: char) { IsDigit(c) || 'a' <= c <= 'f' || 'A' <= c <= 'F' }

  predicate IsAlpha(c: char) { 'a' <= c <= 'z' || 'A' <= c <= 'Z' }

  predicate NotSpace(c: char) { !IsSpace(c) }

  /** The classes by the codes of their characters, in ASCII. */
  lemma CharacterClasses(c: char)
    ensures IsSpace(c) <==> c as int in {9, 10, 11, 12, 13, 32}
    ensures IsDigit(c) <==> 48 <= c as int <= 57
    ensures IsAlpha(c) <==> 65 <= c as int <= 90 || 97 <= c as int <= 122
    ensures IsXDigit(c) <==> 48 <= c as int <= 57 || 65 <= c as int <= 70 || 97 <= c as int <= 102
  {
    assert ' ' as int == 32 && '\t' as int == 9 && '\r' as int == 13;
  }

  ghost predicate All(s: string, p: char -> bool) { forall i :: 0 <= i < |s| ==> p(s[i]) }

  /** Length of the longest prefix whose characters satisfy `p`. */
  function Span(s: string, p: char -> bool): (n: nat)
    ensures n <= |s|
    ensures All(s[..n], p)
    ensures n < |s| ==> !p(s[n])
  {
    if s == "" || !p(s[0]) then 0 else
      var n := 1 + Span(s[1..], p);
      assert forall i :: 0 < i < n ==> s[i] == s[1..][i - 1];
      n
  }

  lemma {:induction false} SpanPrefix(a: string, b: string, p: char -> bool)
    requires All(a, p)
    requires b == "" || !p(b[0])
    ensures Span(a + b, p) == |a|
    ensures (a + b)[..|a|] == a && (a + b)[|a|..] == b
  {
    if a == "" {
      assert a + b == b;
    } else {
      assert (a + b)[1..] == a[1..] + b;
      SpanPrefix(a[1..], b, p);
    }
  }

  lemma SpanNone(s: string, p: char -> bool)
    requires s == "" || !p(s[0])
    ensures Span(s, p) == 0
  {
  }

  lemma SpanAll(s: string, p: char -> bool)
    requires All(s, p)
    ensures Span(s, p) == |s| && s[..|s|] == s && s[|s|..] == ""
  {
    SpanPrefix(s, "", p);
    assert s + "" == s;
  }

  /** Position of the first `d`, or the length when there is none. */
  function Find(s: string, d: char): (i: nat)
    ensures i <= |s|
    ensures d !in s[..i]
    ensures i < |s| ==> s[i] == d
    ensures i == |s| <==> d !in s
  {
    if s == "" || s[0] == d then 0 else
      var i := 1 + Find(s[1..], d);
      assert s == [s[0]] + s[1..];
      assert s[..i] == [s[0]] + s[1..][..i - 1];
      i
  }

  lemma {:induction false} FindPrefix(a: string, b: string, d: char)
    requires d !in a
    requires b == "" || b[0] == d
    ensures Find(a + b, d) == |a|
    ensures (a + b)[..|a|] == a && (a + b)[|a|..] == b
  {
    if a == "" {
      assert a + b == b;
    } else {
      assert (a + b)[1..] == a[1..] + b;
      FindPrefix(a[1..], b, d);
    }
  }

  /** What one `getline` stores from a nonempty stream. */
  function FirstPiece(s: string, d: char): (p: string)
    ensures d !in p
  {
    s[..Find(s, d)]
  }

  /** What one `getline` leaves in the stream. */
  function AfterPiece(s: string, d: char): (rest: string)
    ensures s != "" ==> |rest| < |s|
  {
    var i := Find(s, d);
    if i == |s| then "" else s[i + 1..]
  }

  /** All the values of the loop `while (getline(stream, x, d))`. */
  function Pieces(s: string, d: char): (ps: seq<string>)
    ensures forall p :: p in ps ==> d !in p
    ensures ps == [] <==> s == ""
    decreases |s|
  {
    if s == "" then [] else [FirstPiece(s, d)] + Pieces(AfterPiece(s, d), d)
  }

  /** The pieces, each followed by its delimiter. */
  function Terminated(ps: seq<string>, d: char): string
  {
    if ps == [] then "" else ps[0] + [d] + Terminated(ps[1..], d)
  }

  ghost predicate Free(ps: seq<string>, d: char) { forall i :: 0 <= i < |ps| ==> d !in ps[i] }

  lemma {:induction false} PiecesOfTerminated(ps: seq<string>, d: char)
    requires Free(ps, d)
    ensures Pieces(Terminated(ps, d), d) == ps
  {
    if ps == [] {
    } else {
      var rest := Terminated(ps[1..], d);
      assert Terminated(ps, d) == ps[0] + ([d] + rest);
      FindPrefix(ps[0], [d] + rest, d);
      assert AfterPiece(Terminated(ps, d), d) == rest;
      PiecesOfTerminated(ps[1..], d);
    }
  }

  predicate EndsWith(s: string, d: char) { s != "" && s[|s| - 1] == d }

  lemma TerminatedCons(p: string, ps: seq<string>, d: char)
    ensures Terminated([p] + ps, d) == p + [d] + Terminated(ps, d)
  {
    assert ([p] + ps)[1..] == ps;
  }

  /** The text with its last line closed. */
  function Closed(s: string, d: char): string { if s == "" || EndsWith(s, d) then s else s + [d] }

  lemma ClosedStep(first: string, rest: string, d: char)
    ensures Closed(first + [d] + rest, d) == first + [d] + Closed(rest, d)
  {
    var s := first + [d] + rest;
    if rest == "" {
      assert s == first + [d];
    } else {
      assert s[|s| - 1] == rest[|rest| - 1];
    }
  }

  lemma FirstThenAfter(s: string, d: char)
    requires Find(s, d) < |s|
    ensures s == FirstPiece(s, d) + [d] + AfterPiece(s, d)
  {
    hide Find;
    var i := Find(s, d);
    assert s == s[..i] + [s[i]] + s[i + 1..];
  }

  /** Re-terminating the pieces adds the final delimiter exactly when it was missing. */
  lemma {:induction false} TerminatedOfPieces(s: string, d: char)
    ensures Terminated(Pieces(s, d), d) == Closed(s, d)
    decreases |s|
  {
    if s == "" {
    } else {
      var first, rest := FirstPiece(s, d), AfterPiece(s, d);
      TerminatedCons(first, Pieces(rest, d), d);
      TerminatedOfPieces(rest, d);
      if Find(s, d) == |s| {
        assert s[|s| - 1] in s;
      } else {
        FirstThenAfter(s, d);
        ClosedStep(first, rest, d);
      }
    }
  }

  lemma {:induction false} TerminatedConcat(ps: seq<string>, qs: seq<string>, d: char)
    ensures Terminated(ps + qs, d) == Terminated(ps, d) + Terminated(qs, d)
  {
    if ps == [] {
      assert ps + qs == qs;
    } else {
      assert (ps + qs)[1..] == ps[1..] + qs;
      TerminatedConcat(ps[1..], qs, d);
    }
  }

  /** The key and the value of a line: one `getline` up to `sep` and one up to
      the end of the line, from an `istringstream` on the line. */
  function KeyOf(line: string, sep: char): (key: string)
    ensures sep !in key
  {
    FirstPiece(line, sep)
  }

  function ValueOf(line: string, sep: char): (value: string)
    ensures '\n' !in value
  {
    FirstPiece(AfterPiece(line, sep), '\n')
  }

  lemma KeyValueOfPrinted(key: string, sep: char, value: string)
    requires sep !in key
    ensures KeyOf(key + [sep] + value, sep) == key
    ensures AfterPiece(key + [sep] + value, sep) == value
    ensures '\n' !in value ==> ValueOf(key + [sep] + value, sep) == value
  {
    assert key + [sep] + value == key + ([sep] + value);
    FindPrefix(key, [sep] + value, sep);
    assert ([sep] + value)[1..] == value;
    if '\n' !in value {
      assert value + "" == value;
      FindPrefix(value, "", '\n');
    }
  }

  /** The last of the lines with this key. */
  function LastKeyed(lines: seq<string>, sep: char, key: string): (l: Option<string>)
    ensures l == None <==> forall i :: 0 <= i < |lines| ==> KeyOf(lines[i], sep) != key
    ensures l.Some? ==> l.value in lines && KeyOf(l.value, sep) == key
  {
    if lines == [] then None
    else
      var last := lines[|lines| - 1];
      if KeyOf(last, sep) == key then Some(last) else LastKeyed(lines[..|lines| - 1], sep, key)
  }

  lemma {:induction false} LastKeyedAt(lines: seq<string>, sep: char, i: nat)
    requires i < |lines|
    requires forall j :: i < j < |lines| ==> KeyOf(lines[j], sep) != KeyOf(lines[i], sep)
    ensures LastKeyed(lines, sep, KeyOf(lines[i], sep)) == Some(lines[i])
    decreases |lines|
  {
    if i < |lines| - 1 {
      LastKeyedAt(lines[..|lines| - 1], sep, i);
    }
  }

  /** `boost::algorithm::trim`. */
  function TrimLeft(s: string): (t: string)
    ensures t == "" || !IsSpace(t[0])
  {
    s[Span(s, IsSpace)..]
  }

  lemma TrimLeftPadded(pad: string, t: string)
    requires All(pad, IsSpace)
    requires t == "" || !IsSpace(t[0])
    ensures TrimLeft(pad + t) == t
  {
    SpanPrefix(pad, t, IsSpace);
  }

  function TrimRight(s: string): (t: string)
    ensures t == "" || !IsSpace(t[|t| - 1])
    ensures t <= s
  {
    if s == "" || !IsSpace(s[|s| - 1]) then s else TrimRight(s[..|s| - 1])
  }

  function Trim(s: string): string { TrimRight(TrimLeft(s)) }

  lemma TrimOfPadded(left: string, core: string, right: string)
    requires All(left, IsSpace) && All(right, IsSpace)
    requires core != "" && !IsSpace(core[0]) && !IsSpace(core[|core| - 1])
    ensures Trim(left + core + right) == core
  {
    assert left + core + right == left + (core + right);
    TrimLeftPadded(left, core + right);
    TrimRightOfPadded(core, right);
  }

  lemma {:induction false} TrimRightOfPadded(core: string, right: string)
    requires All(right, IsSpace)
    requires core == "" || !IsSpace(core[|core| - 1])
    ensures TrimRight(core + right) == core
    decreases |right|
  {
    if right == "" {
      assert core + right == core;
    } else {
      var shorter := right[..|right| - 1];
      assert (core + right)[..|core + right| - 1] == core + shorter;
      assert IsSpace((core + right)[|core + right| - 1]);
      TrimRightOfPadded(core, shorter);
    }
  }

  /** `boost::split` on one character, without token compression. */
  function SplitOn(s: string, d: char): (ps: seq<string>)
    ensures ps != []
    decreases |s|
  {
    var i := Find(s, d);
    if i == |s| then [s] else [s[..i]] + SplitOn(s[i + 1..], d)
  }

  function Join(ps: seq<string>, d: char): string
  {
    if ps == [] then "" else if |ps| == 1 then ps[0] else ps[0] + [d] + Join(ps[1..], d)
  }

  lemma SplitFirst(a: string, rest: string, d: char)
    requires d !in a
    ensures SplitOn(a, d) == [a]
    ensures SplitOn(a + ([d] + rest), d) == [a] + SplitOn(rest, d)
  {
    hide Find;
    FindPrefix(a, [d] + rest, d);
    assert (a + ([d] + rest))[|a| + 1..] == rest;
  }

  lemma {:induction false} SplitOfJoin(ps: seq<string>, d: char)
    requires ps != [] && Free(ps, d)
    ensures SplitOn(Join(ps, d), d) == ps
  {
    hide SplitOn;
    assert ps == [ps[0]] + ps[1..];
    if |ps| == 1 {
      SplitFirst(ps[0], "", d);
    } else {
      var rest := Join(ps[1..], d);
      assert Join(ps, d) == ps[0] + ([d] + rest);
      SplitFirst(ps[0], rest, d);
      SplitOfJoin(ps[1..], d);
    }
  }

  /** The characters of `s` that satisfy `p`, in order: `erase(remove_if(...))`. */
  function Filter(s: string, p: char -> bool): (t: string)
    ensures All(t, p)
    ensures |t| <= |s|
  {
    if s == "" then ""
    else if p(s[0]) then
      var t := Filter(s[1..], p);
      assert forall i :: 0 < i < |t| + 1 ==> ([s[0]] + t)[i] == t[i - 1];
      [s[0]] + t
    else Filter(s[1..], p)
  }

  lemma {:induction false} FilterKeepsAll(s: string, p: char -> bool)
    ensures Filter(s, p) == s <==> All(s, p)
  {
    if s == "" {
    } else {
      FilterKeepsAll(s[1..], p);
      assert s == [s[0]] + s[1..];
      assert All(s, p) <==> p(s[0]) && All(s[1..], p) by {
        assert forall i :: 0 < i < |s| ==> s[i] == s[1..][i - 1];
        assert forall i :: 0 <= i < |s| - 1 ==> s[1..][i] == s[i + 1];
      }
      if p(s[0]) {
        assert Filter(s, p)[1..] == Filter(s[1..], p);
      }
    }
  }

  lemma {:induction false} FilterConcat(s: string, t: string, p: char -> bool)
    ensures Filter(s + t, p) == Filter(s, p) + Filter(t, p)
  {
    if s == "" {
      assert s + t == t;
    } else {
      assert (s + t)[1..] == s[1..] + t;
      FilterConcat(s[1..], t, p);
    }
  }

  lemma {:induction false} FilterTwice(s: string, p: char -> bool, q: char -> bool, both: char -> bool)
    requires forall c :: both(c) <==> p(c) && q(c)
    ensures Filter(Filter(s, p), q) == Filter(s, both)
  {
    if s == "" {
    } else {
      FilterTwice(s[1..], p, q, both);
      if p(s[0]) {
        assert ([s[0]] + Filter(s[1..], p))[1..] == Filter(s[1..], p);
      }
    }
  }

  /** An input stream over text already fetched from /proc: the characters not
      yet extracted. */
  class InStream {
    var rest: string

    constructor (text: string)
      ensures rest == text
    {
      rest := text;
    }

    /** `getline(*this, line, d)`; `None` when the stream tests false afterwards. */
    method GetLine(d: char) returns (line: Option<string>)
      modifies this
      ensures old(rest) == "" ==> line == None && rest == ""
      ensures old(rest) != "" ==>
        line == Some(Pieces(old(rest), d)[0]) && Pieces(rest, d) == Pieces(old(rest), d)[1..]
      ensures rest == AfterPiece(old(rest), d)
      ensures line.Some? ==> |rest| < |old(rest)|
    {
      if rest == "" {
        line := None;
      } else {
        line := Some(FirstPiece(rest, d));
        rest := AfterPiece(rest, d);
      }
    }
  }
}
