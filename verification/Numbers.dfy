/** Machine integers and their text: 64-bit and 32-bit wrap-around, the
    conversions `stoi`/`stol`, and formatted extraction of numbers with `>>`. */
module Numbers {
  import opened Text

  const WORD := 0x1_0000_0000_0000_0000
  const HALF_WORD := 0x8000_0000_0000_0000
  const INT_RANGE := 0x1_0000_0000
  const INT_HALF := 0x8000_0000

  /** Conversion of an integer to `unsigned long`. */
  function ToU64(v: int): (w: nat)
    ensures w < WORD
    ensures 0 <= v < WORD ==> w == v
  {
    v % WORD
  }

  /** Conversion of a nonnegative integer to `uint32_t`. */
  function ToU32(v: nat): (w: nat)
    ensures w < INT_RANGE
    ensures v < INT_RANGE ==> w == v
  {
    v % INT_RANGE
  }

  /** Subtraction of two `unsigned long` values. */
  function Sub64(a: nat, b: nat): (w: nat)
    ensures w < WORD
    ensures b <= a < WORD ==> w == a - b
    ensures a < b < WORD ==> w == WORD - (b - a)
  {
    if a < b < WORD then
      assert (a - b) + WORD == WORD - (b - a);
      ToU64(a - b + WORD)
    else ToU64(a - b)
  }

  /** Conversion of an integer to a 32-bit `int`. */
  function ToInt32(v: int): (i: int)
    ensures -INT_HALF <= i < INT_HALF
    ensures -INT_HALF <= v < INT_HALF ==> i == v
  {
    var w := v % INT_RANGE;
    if w < INT_HALF then w else w - INT_RANGE
  }

  /** A conversion changes a number by a multiple of the range it converts to. */
  lemma ConversionsAreModular(v: int)
    ensures ToU64(v) == v - 0x1_0000_0000_0000_0000 * (v / 0x1_0000_0000_0000_0000)
    ensures exists q :: v == ToInt32(v) + 0x1_0000_0000 * q
  {
    var q := v / 0x1_0000_0000;
    if v % 0x1_0000_0000 < 0x8000_0000 {
      assert v == ToInt32(v) + 0x1_0000_0000 * q;
    } else {
      assert v == ToInt32(v) + 0x1_0000_0000 * (q + 1);
    }
  }

  // ---------------------------------------------------------------- digits

  function DigitValue(c: char): (d: nat)
    ensures d < 16
    ensures IsDigit(c) ==> d < 10
  {
    if IsDigit(c) then (c - '0') as nat
    else if 'a' <= c <= 'f' then 10 + (c - 'a') as nat
    else if 'A' <= c <= 'F' then 10 + (c - 'A') as nat
    else 0
  }

  /** The digit of value `d`, in lower case. */
  function DigitChar(d: nat): (c: char)
    requires d < 16
    ensures IsXDigit(c) && DigitValue(c) == d
    ensures d < 10 ==> IsDigit(c)
  {
    if d < 10 then '0' + d as char else 'a' + (d - 10) as char
  }

  datatype Base = Dec | Hex

  /** Appending one digit to a number. */
  function Append(b: Base, n: nat, d: nat): nat { if b == Dec then 10 * n + d else 16 * n + d }

  function Radix(b: Base): nat { if b == Dec then 10 else 16 }

  /** Value of a digit string in the given base, most significant digit first. */
  function NumberOf(s: string, b: Base): nat
  {
    if s == "" then 0 else Append(b, NumberOf(s[..|s| - 1], b), DigitValue(s[|s| - 1]))
  }

  lemma NumberOfSnoc(s: string, c: char, b: Base)
    ensures NumberOf(s + [c], b) == Append(b, NumberOf(s, b), DigitValue(c))
  {
    assert (s + [c])[..|s + [c]| - 1] == s;
  }

  function Digits(n: nat, b: Base): (s: string)
    ensures s != ""
    ensures All(s, IsXDigit)
    ensures b == Dec ==> All(s, IsDigit)
  {
    if b == Dec then
      if n < 10 then [DigitChar(n)] else Digits(n / 10, b) + [DigitChar(n % 10)]
    else
      if n < 16 then [DigitChar(n)] else Digits(n / 16, b) + [DigitChar(n % 16)]
  }

  lemma {:induction false} NumberOfDigits(n: nat, b: Base)
    ensures NumberOf(Digits(n, b), b) == n
  {
    if n < Radix(b) {
      NumberOfSnoc("", DigitChar(n), b);
      assert "" + [DigitChar(n)] == Digits(n, b);
    } else if b == Dec {
      NumberOfSnoc(Digits(n / 10, b), DigitChar(n % 10), b);
      NumberOfDigits(n / 10, b);
    } else {
      NumberOfSnoc(Digits(n / 16, b), DigitChar(n % 16), b);
      NumberOfDigits(n / 16, b);
    }
  }

  /** Leading zeros do not change a number. */
  lemma {:induction false} NumberOfPadded(zeros: string, s: string, b: Base)
    requires forall i :: 0 <= i < |zeros| ==> zeros[i] == '0'
    ensures NumberOf(zeros + s, b) == NumberOf(s, b)
    decreases |s|, |zeros|
  {
    if s != "" {
      assert (zeros + s)[..|zeros + s| - 1] == zeros + s[..|s| - 1];
      NumberOfPadded(zeros, s[..|s| - 1], b);
    } else if zeros != "" {
      assert zeros + s == zeros;
      assert zeros[..|zeros| - 1] + s == zeros[..|zeros| - 1];
      NumberOfPadded(zeros[..|zeros| - 1], s, b);
    }
  }

  /** Decimal text of a signed number. */
  function IntText(v: int): (s: string)
    ensures s != "" && All(s, NotSpace)
  {
    if v < 0 then "-" + Digits(-v, Dec) else Digits(v, Dec)
  }

  // ------------------------------------------------------ stoi and stol

  datatype Signed = Signed(negative: bool, magnitude: string)

  /** The optional sign before a number. */
  function SplitSign(t: string): Signed
  {
    if t != "" && t[0] == '-' then Signed(true, t[1..])
    else if t != "" && t[0] == '+' then Signed(false, t[1..])
    else Signed(false, t)
  }

  /** `strtol` in base 10: `None` when no digit can be converted. */
  function Strtol(s: string): Option<int>
  {
    var t := SplitSign(TrimLeft(s));
    var n := Span(t.magnitude, IsDigit);
    if n == 0 then None
    else
      var v: int := NumberOf(t.magnitude[..n], Dec);
      Some(if t.negative then -v else v)
  }

  /** `std::stoi` and `std::stol` in base 10; `None` is the exception. */
  function Stoi(s: string): (r: Option<int>)
    ensures r.Some? ==> -INT_HALF <= r.value < INT_HALF
  {
    var v :- Strtol(s);
    if -INT_HALF <= v < INT_HALF then Some(v) else None
  }

  function Stol(s: string): (r: Option<int>)
    ensures r.Some? ==> -HALF_WORD <= r.value < HALF_WORD
  {
    var v :- Strtol(s);
    if -HALF_WORD <= v < HALF_WORD then Some(v) else None
  }

  /** `std::stoi(s, 0, Hex)` and `std::stol(s, 0, Hex)` on text made of hexadecimal digits. */
  function HexStoi(s: string): (r: Option<nat>)
    ensures r.Some? ==> r.value < INT_HALF
  {
    if NumberOf(s, Hex) < INT_HALF then Some(NumberOf(s, Hex)) else None
  }

  function HexStol(s: string): (r: Option<nat>)
    ensures r.Some? ==> r.value < HALF_WORD
  {
    if NumberOf(s, Hex) < HALF_WORD then Some(NumberOf(s, Hex)) else None
  }

  lemma StrtolOfSigned(s: string, negative: bool, digits: string)
    requires digits != "" && All(digits, IsDigit)
    requires s == if negative then "-" + digits else digits
    ensures Strtol(s) == Some(if negative then -(NumberOf(digits, Dec) as int) else NumberOf(digits, Dec))
  {
    assert IsDigit(digits[0]);
    SpanNone(s, IsSpace);
    assert TrimLeft(s) == s;
    assert SplitSign(s) == Signed(negative, digits);
    SpanAll(digits, IsDigit);
  }

  /** Printing a number and converting it back is the identity. */
  lemma StrtolOfIntText(v: int)
    ensures Strtol(IntText(v)) == Some(v)
  {
    var m := if v < 0 then -v else v;
    StrtolOfSigned(IntText(v), v < 0, Digits(m, Dec));
    NumberOfDigits(m, Dec);
  }

  // ------------------------------------------ formatted extraction with >>

  datatype NumKind = I32 | U32 | I64 | U64

  function MaxOf(k: NumKind): int
  {
    match k
    case I32 => INT_HALF - 1
    case U32 => INT_RANGE - 1
    case I64 => HALF_WORD - 1
    case U64 => WORD - 1
  }

  function MinOf(k: NumKind): int
  {
    match k
    case I32 => -INT_HALF
    case U32 => 0
    case I64 => -HALF_WORD
    case U64 => 0
  }

  predicate Fits(v: int, k: NumKind) { MinOf(k) <= v <= MaxOf(k) }

  /** One `>>`: what it assigns (`None`: the variable is left alone), what it
      leaves in the stream, and whether the stream is still good. */
  datatype Extraction<T> = Extraction(value: Option<T>, rest: string, good: bool)

  /** Extraction of a number: at the end of the input nothing is assigned;
      without digits 0 is; out of range, the nearest bound is. An unsigned
      number with a minus sign wraps around. */
  function ExtractNum(s: string, k: NumKind): (e: Extraction<int>)
    ensures e.value.Some? ==> Fits(e.value.value, k)
  {
    var t := TrimLeft(s);
    if t == "" then Extraction(None, "", false) else ExtractSigned(SplitSign(t), k)
  }

  function ExtractSigned(u: Signed, k: NumKind): (e: Extraction<int>)
    ensures e.value.Some? ==> Fits(e.value.value, k)
  {
    var n := Span(u.magnitude, IsDigit);
    var rest := u.magnitude[n..];
    if n == 0 then Extraction(Some(0), rest, false)
    else ConvertNum(u.negative, NumberOf(u.magnitude[..n], Dec), rest, k)
  }

  function ConvertNum(negative: bool, m: nat, rest: string, k: NumKind): (e: Extraction<int>)
    ensures e.value.Some? ==> Fits(e.value.value, k)
  {
    if MinOf(k) < 0 then
      var v: int := if negative then -(m as int) else m;
      if v < MinOf(k) then Extraction(Some(MinOf(k)), rest, false)
      else if v > MaxOf(k) then Extraction(Some(MaxOf(k)), rest, false)
      else Extraction(Some(v), rest, true)
    else if m > MaxOf(k) then Extraction(Some(MaxOf(k)), rest, false)
    else if negative && m > 0 then Extraction(Some(MaxOf(k) + 1 - m), rest, true)
    else Extraction(Some(m), rest, true)
  }

  function ExtractWord(s: string): (e: Extraction<string>)
    ensures e.value.Some? ==> e.value.value != "" && All(e.value.value, NotSpace)
    ensures e.good <==> e.value.Some?
  {
    var t := TrimLeft(s);
    if t == "" then Extraction(None, "", false)
    else
      var n := Span(t, NotSpace);
      Extraction(Some(t[..n]), t[n..], true)
  }

  lemma ExtractDigits(negative: bool, digits: string, rest: string, k: NumKind)
    requires digits != "" && All(digits, IsDigit)
    requires rest == "" || !IsDigit(rest[0])
    ensures ExtractSigned(Signed(negative, digits + rest), k) == ConvertNum(negative, NumberOf(digits, Dec), rest, k)
  {
    hide ConvertNum, NumberOf;
    SpanPrefix(digits, rest, IsDigit);
  }

  predicate IsSign(sign: string) { sign in ["", "+", "-"] }

  /** The number that a sign and digits spell. */
  function SignedValue(sign: string, digits: string): int
  {
    if sign == "-" then -(NumberOf(digits, Dec) as int) else NumberOf(digits, Dec)
  }

  lemma SplitSigned(sign: string, digits: string, rest: string)
    requires IsSign(sign) && digits != "" && IsDigit(digits[0])
    ensures SplitSign(sign + (digits + rest)) == Signed(sign == "-", digits + rest)
    ensures NotSpace((sign + (digits + rest))[0])
  {
    var t := digits + rest;
    assert t[0] == digits[0];
    if sign == "" {
      assert sign + t == t;
    } else {
      assert (sign + t)[1..] == t;
    }
  }

  lemma SplitPrinted(v: int, rest: string)
    ensures IntText(v) + rest != "" && NotSpace((IntText(v) + rest)[0])
    ensures SplitSign(IntText(v) + rest) == Signed(v < 0, Digits(if v < 0 then -v else v, Dec) + rest)
  {
    hide Digits, SplitSign;
    var digits := Digits(if v < 0 then -v else v, Dec);
    var sign := if v < 0 then "-" else "";
    assert IsDigit(digits[0]);
    assert IntText(v) + rest == sign + (digits + rest);
    SplitSigned(sign, digits, rest);
  }

  /** A printed number in range, followed by something that is not a digit, is
      extracted exactly, and the stream is left at what follows it. */
  lemma ExtractPrintedNum(pad: string, v: int, rest: string, k: NumKind)
    requires All(pad, IsSpace) && Fits(v, k)
    requires rest == "" || !IsDigit(rest[0])
    ensures ExtractNum(pad + IntText(v) + rest, k) == Extraction(Some(v), rest, true)
  {
    var m := if v < 0 then -v else v;
    hide Digits, NumberOf, IntText, SplitSign, ExtractSigned, TrimLeft;
    NumberOfDigits(m, Dec);
    SplitPrinted(v, rest);
    ExtractDigits(v < 0, Digits(m, Dec), rest, k);
    TrimLeftPadded(pad, IntText(v) + rest);
    Assoc(pad, IntText(v), rest);
  }

  /** A printed number above the range is extracted as the top of the range, and the
      stream fails. */
  lemma ExtractTooLarge(pad: string, v: nat, rest: string, k: NumKind)
    requires All(pad, IsSpace) && v > MaxOf(k)
    requires rest == "" || !IsDigit(rest[0])
    ensures ExtractNum(pad + IntText(v) + rest, k) == Extraction(Some(MaxOf(k)), rest, false)
  {
    hide Digits, NumberOf, IntText, SplitSign, ExtractSigned, TrimLeft;
    NumberOfDigits(v, Dec);
    SplitPrinted(v, rest);
    ExtractDigits(false, Digits(v, Dec), rest, k);
    TrimLeftPadded(pad, IntText(v) + rest);
    Assoc(pad, IntText(v), rest);
  }

  /** `>>` on any signed decimal text. Into a signed field it stores the number, or the
      end of the range that it passed, and fails if it passed one; into an unsigned
      field it stores the number modulo its range, or the top of the range if there are
      too many digits for it. */
  lemma ExtractSignedText(pad: string, sign: string, digits: string, rest: string, k: NumKind)
    requires All(pad, IsSpace) && IsSign(sign) && digits != "" && All(digits, IsDigit)
    requires rest == "" || !IsDigit(rest[0])
    ensures
      var n, v := NumberOf(digits, Dec), SignedValue(sign, digits);
      var e := ExtractNum(pad + (sign + (digits + rest)), k);
      && e.rest == rest
      && (k.I32? || k.I64? ==>
            && e.value == Some(if v < MinOf(k) then MinOf(k) else if v > MaxOf(k) then MaxOf(k) else v)
            && (e.good <==> MinOf(k) <= v <= MaxOf(k)))
      && (k.U32? || k.U64? ==>
            && e.value == Some(if n > MaxOf(k) then MaxOf(k) else if v < 0 then v + MaxOf(k) + 1 else v)
            && (e.good <==> n <= MaxOf(k)))
  {
    hide NumberOf, SplitSign, ExtractSigned, TrimLeft;
    SplitSigned(sign, digits, rest);
    TrimLeftPadded(pad, sign + (digits + rest));
    ExtractDigits(sign == "-", digits, rest, k);
  }

  /** `strtol` on the same texts: whitespace before the number and anything after it
      are ignored. */
  lemma StrtolOfText(pad: string, sign: string, digits: string, rest: string)
    requires All(pad, IsSpace) && IsSign(sign) && digits != "" && All(digits, IsDigit)
    requires rest == "" || !IsDigit(rest[0])
    ensures Strtol(pad + (sign + (digits + rest))) == Some(SignedValue(sign, digits))
  {
    hide NumberOf, SplitSign, TrimLeft;
    SplitSigned(sign, digits, rest);
    TrimLeftPadded(pad, sign + (digits + rest));
    SpanPrefix(digits, rest, IsDigit);
  }

  lemma ExtractPrintedWord(pad: string, word: string, rest: string)
    requires All(pad, IsSpace)
    requires word != "" && All(word, NotSpace)
    requires rest == "" || IsSpace(rest[0])
    ensures ExtractWord(pad + word + rest) == Extraction(Some(word), rest, true)
  {
    assert pad + word + rest == pad + (word + rest);
    assert (word + rest)[0] == word[0];
    TrimLeftPadded(pad, word + rest);
    SpanPrefix(word, rest, NotSpace);
  }

  /** Whitespace-separated words. */
  function Words(s: string): (ws: seq<string>)
    ensures forall i :: 0 <= i < |ws| ==> ws[i] != ""
    decreases |s|
  {
    var e := ExtractWord(s);
    if e.value.None? then [] else [e.value.value] + Words(e.rest)
  }

  lemma NoWords()
    ensures Words("") == []
  {
  }

  lemma WordsOfPrinted(pad: string, word: string, rest: string)
    requires All(pad, IsSpace) && word != "" && All(word, NotSpace)
    requires rest == "" || IsSpace(rest[0])
    ensures Words(pad + word + rest) == [word] + Words(rest)
  {
    hide ExtractWord;
    ExtractPrintedWord(pad, word, rest);
  }

  /** `s` starts with whitespace, if any, and a word that ends there. */
  ghost predicate SpelledBy(s: string, gap: string, word: string, rest: string)
  {
    && s == gap + word + rest
    && All(gap, IsSpace) && word != "" && All(word, NotSpace) && (rest == "" || IsSpace(rest[0]))
  }

  /** `s` is these words, with whitespace before, between and after them. */
  ghost predicate Spells(s: string, ws: seq<string>)
    decreases |ws|
  {
    if ws == [] then All(s, IsSpace)
    else exists gap, rest :: SpelledBy(s, gap, ws[0], rest) && Spells(rest, ws[1..])
  }

  lemma FirstWordSpelled(s: string)
    ensures ExtractWord(s).value == None <==> All(s, IsSpace)
    ensures ExtractWord(s).value.Some? ==>
      SpelledBy(s, s[..Span(s, IsSpace)], ExtractWord(s).value.value, ExtractWord(s).rest)
  {
    hide Span;
    var n := Span(s, IsSpace);
    var t := s[n..];
    assert s == s[..n] + t && s[..|s|] == s;
    if All(s, IsSpace) {
      SpanAll(s, IsSpace);
    } else if n < |s| {
      var m := Span(t, NotSpace);
      assert t == t[..m] + t[m..];
      Assoc(s[..n], t[..m], t[m..]);
    }
  }

  lemma SpelledIsNotBlank(s: string, gap: string, word: string, rest: string)
    ensures SpelledBy(s, gap, word, rest) ==> !All(s, IsSpace)
  {
    if SpelledBy(s, gap, word, rest) {
      assert s[|gap|] == word[0];
    }
  }

  /** The words of a text are the only ones that spell it. */
  lemma {:induction false} WordsIff(s: string, ws: seq<string>)
    ensures Words(s) == ws <==> Spells(s, ws)
    decreases |s|
  {
    hide ExtractWord;
    FirstWordSpelled(s);
    var e := ExtractWord(s);
    if e.value.None? {
      if ws != [] {
        forall gap, rest ensures !SpelledBy(s, gap, ws[0], rest) {
          SpelledIsNotBlank(s, gap, ws[0], rest);
        }
      }
    } else if ws != [] {
      WordsIff(e.rest, ws[1..]);
      assert Words(s) == [e.value.value] + Words(e.rest);
      assert ws == [ws[0]] + ws[1..];
      if Spells(s, ws) {
        var gap, rest :| SpelledBy(s, gap, ws[0], rest) && Spells(rest, ws[1..]);
        ExtractPrintedWord(gap, ws[0], rest);
      }
    }
  }

  // --------------------------------------------------- hexadecimal and decimal

  /** Reading hexadecimal text in base 10 stops at the first letter: the value
      agrees with the true one only below ten. */
  function DecimalPrefix(h: string): nat { NumberOf(h[..Span(h, IsDigit)], Dec) }

  lemma {:induction false} NumberOfDominates(s: string)
    requires All(s, IsDigit)
    ensures NumberOf(s, Dec) <= NumberOf(s, Hex)
    ensures NumberOf(s, Dec) == NumberOf(s, Hex) <==> NumberOf(s, Hex) < 10
  {
    if s != "" {
      NumberOfDominates(s[..|s| - 1]);
      assert IsDigit(s[|s| - 1]);
    }
  }

  lemma {:induction false} NumberOfGrows(s: string, t: string)
    ensures NumberOf(s + t, Hex) >= NumberOf(s, Hex)
    ensures t != "" ==> NumberOf(s + t, Hex) >= 16 * NumberOf(s, Hex)
    ensures t != "" && NumberOf(s, Hex) == 0 ==> NumberOf(s + t, Hex) == NumberOf(t, Hex)
    decreases |t|
  {
    if t == "" {
      assert s + t == s;
    } else {
      assert (s + t)[..|s + t| - 1] == s + t[..|t| - 1];
      NumberOfGrows(s, t[..|t| - 1]);
      if |t| == 1 {
        assert s + t[..|t| - 1] == s;
      }
    }
  }

  lemma LeadingLetterIsLarge(t: string)
    requires t != "" && IsXDigit(t[0]) && !IsDigit(t[0])
    ensures NumberOf(t, Hex) >= 10
  {
    assert t == [t[0]] + t[1..];
    NumberOfGrows([t[0]], t[1..]);
    assert [t[0]][..0] == "";
    assert NumberOf([t[0]], Hex) == DigitValue(t[0]);
  }

  lemma PrefixExact(digits: string, letters: string)
    requires All(digits, IsDigit)
    requires letters == "" || (IsXDigit(letters[0]) && !IsDigit(letters[0]))
    ensures NumberOf(digits, Dec) <= NumberOf(digits + letters, Hex)
    ensures NumberOf(digits, Dec) == NumberOf(digits + letters, Hex) <==> NumberOf(digits + letters, Hex) < 10
  {
    NumberOfDominates(digits);
    NumberOfGrows(digits, letters);
    if letters == "" {
      assert digits + letters == digits;
    } else {
      LeadingLetterIsLarge(letters);
    }
  }

  /** The base-10 reading of hexadecimal text is right exactly for values below ten. */
  lemma DecimalPrefixExact(h: string)
    requires All(h, IsXDigit)
    ensures DecimalPrefix(h) <= NumberOf(h, Hex)
    ensures DecimalPrefix(h) == NumberOf(h, Hex) <==> NumberOf(h, Hex) < 10
  {
    hide NumberOf, Span;
    var n := Span(h, IsDigit);
    assert h == h[..n] + h[n..];
    PrefixExact(h[..n], h[n..]);
  }

  /** `stol` on hexadecimal text reads the digits before the first letter; it
      throws when there are none, or too many. */
  lemma StolOfHexText(h: string)
    requires h != "" && All(h, IsXDigit)
    ensures Stol(h) == if IsDigit(h[0]) && DecimalPrefix(h) < HALF_WORD then Some(DecimalPrefix(h)) else None
  {
    assert IsXDigit(h[0]);
    SpanNone(h, IsSpace);
    assert TrimLeft(h) == h;
    assert SplitSign(h) == Signed(false, h);
  }
}
