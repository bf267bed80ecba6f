/** Character classes, line splitting and decimal digit strings shared by the
    scheduler text-protocol parsers and the form validators.

    The character classes are the ASCII ones of Python 2's `re` module used
    without the UNICODE flag: `\s` is space, tab, newline, carriage return,
    vertical tab and form feed; `\d` is 0-9; `\w` is letters, digits and `_`. */
module Text {

  datatype Option<+T> = None | Some(value: T)

  // ---------------------------------------------------------------------
  // Character classes

  /** `\s` */
  predicate IsSpace(c: char) {
    c == ' ' || c == '\t' || c == '\n' || c == '\r' || c as int == 11 || c as int == 12
  }

  /** `\d` */
  predicate IsDigit(c: char) {
    '0' <= c <= '9'
  }

  /** `[a-z]` */
  predicate IsLower(c: char) {
    'a' <= c <= 'z'
  }

  /** `[A-Za-z0-9]` */
  predicate IsAlnum(c: char) {
    'A' <= c <= 'Z' || IsLower(c) || IsDigit(c)
  }

  /** `\w` */
  predicate IsWordChar(c: char) {
    IsAlnum(c) || c == '_'
  }

  /** The characters Python 2's `str.splitlines` breaks on. */
  predicate IsLineBreak(c: char) {
    c == '\n' || c == '\r'
  }

  predicate NoLineBreak(s: string) {
    forall i :: 0 <= i < |s| ==> !IsLineBreak(s[i])
  }

  predicate AllSpaces(s: string) {
    forall i :: 0 <= i < |s| ==> IsSpace(s[i])
  }

  /** A non-empty run of non-space characters: what `\S+` consumes. */
  predicate IsToken(s: string) {
    |s| > 0 && forall i :: 0 <= i < |s| ==> !IsSpace(s[i])
  }

  predicate AllDigits(s: string) {
    forall i :: 0 <= i < |s| ==> IsDigit(s[i])
  }

  /** A non-empty run of digits: what `\d+` consumes. */
  predicate IsDigits(s: string) {
    |s| > 0 && AllDigits(s)
  }

  predicate StartsWithSpace(s: string) {
    |s| > 0 && IsSpace(s[0])
  }

  predicate StartsWithDigit(s: string) {
    |s| > 0 && IsDigit(s[0])
  }

  // ---------------------------------------------------------------------
  // Python 2 `str.splitlines()`: lines end at "\n", "\r" or "\r\n"; the
  // terminators are dropped and a final terminator does not open a new line.

  /** Splits `s`, where `line` is the part of the current line read so far. */
  function SplitLinesFrom(s: string, line: string): (r: seq<string>)
    requires NoLineBreak(line)
    ensures forall i :: 0 <= i < |r| ==> NoLineBreak(r[i])
    decreases |s|
  {
    if s == [] then
      (if line == [] then [] else [line])
    else if s[0] == '\n' then
      [line] + SplitLinesFrom(s[1..], [])
    else if s[0] == '\r' then
      if |s| > 1 && s[1] == '\n' then [line] + SplitLinesFrom(s[2..], [])
      else [line] + SplitLinesFrom(s[1..], [])
    else
      SplitLinesFrom(s[1..], line + [s[0]])
  }

  function SplitLines(s: string): (r: seq<string>)
    ensures forall i :: 0 <= i < |r| ==> NoLineBreak(r[i])
  {
    SplitLinesFrom(s, [])
  }

  /** The text a process writes when it prints each of `lines` followed by "\n". */
  function JoinLines(lines: seq<string>): string {
    if lines == [] then [] else lines[0] + "\n" + JoinLines(lines[1..])
  }

  /** The line terminators `str.splitlines` recognises. */
  predicate IsTerminator(t: string) {
    t == "\n" || t == "\r\n" || t == "\r"
  }

  /** The text of `lines`, each followed by its own terminator `ends[i]`. */
  function Terminated(lines: seq<string>, ends: seq<string>): string
    requires |ends| == |lines|
  {
    if lines == [] then [] else lines[0] + ends[0] + Terminated(lines[1..], ends[1..])
  }

  /** `ends` are terminators for `lines` that split back into the same lines:
      only the last line may be unterminated, and then it is not empty; a
      lone "\r" is not followed by an empty line ended by "\n", which would
      read as one "\r\n". */
  predicate WellPrinted(lines: seq<string>, ends: seq<string>) {
    && |ends| == |lines|
    && (forall i :: 0 <= i < |lines| ==> NoLineBreak(lines[i]))
    && (forall i :: 0 <= i < |ends| ==> IsTerminator(ends[i]) || (i == |ends| - 1 && ends[i] == [] && lines[i] != []))
    && (forall i {:trigger lines[i]} :: 0 < i < |lines| && ends[i - 1] == "\r" && lines[i] == [] ==> ends[i] != "\n")
  }

  /** Splitting a text that holds no line break finishes the current line. */
  lemma {:induction false} SplitLastLine(line: string, s: string)
    requires NoLineBreak(line) && NoLineBreak(s)
    ensures SplitLinesFrom(s, line) == if line + s == [] then [] else [line + s]
    decreases |s|
  {
    if s == [] {
      assert line + s == line;
    } else {
      assert s[1..] == s[1..] && line + [s[0]] + s[1..] == line + s;
      SplitLastLine(line + [s[0]], s[1..]);
    }
  }

  /** Reading one more line `s` ended by the terminator `brk` finishes the
      current line. */
  lemma {:induction false} SplitPastLine(line: string, s: string, brk: string, rest: string)
    requires NoLineBreak(line) && NoLineBreak(s) && IsTerminator(brk)
    requires brk == "\r" ==> rest == [] || rest[0] != '\n'
    ensures SplitLinesFrom(s + brk + rest, line) == [line + s] + SplitLinesFrom(rest, [])
    decreases |s|
  {
    var t := s + brk + rest;
    if s == [] {
      assert line + s == line;
      assert t == brk + rest;
      if brk == "\r\n" {
        assert t[0] == '\r' && t[1] == '\n' && t[2..] == rest;
      } else {
        assert t[0] == brk[0] && t[1..] == rest;
      }
    } else {
      assert t[0] == s[0] && !IsLineBreak(s[0]);
      assert t[1..] == s[1..] + brk + rest;
      SplitPastLine(line + [s[0]], s[1..], brk, rest);
      assert line + [s[0]] + s[1..] == line + s;
    }
  }

  /** Splitting lines printed with any terminators gives back the lines. */
  lemma {:induction false} SplitTerminated(lines: seq<string>, ends: seq<string>)
    requires WellPrinted(lines, ends)
    ensures SplitLines(Terminated(lines, ends)) == lines
    decreases |lines|
  {
    if lines != [] {
      var rest := Terminated(lines[1..], ends[1..]);
      assert WellPrinted(lines[1..], ends[1..]) by {
        forall i | 0 < i < |lines| - 1 && ends[1..][i - 1] == "\r" && lines[1..][i] == []
          ensures ends[1..][i] != "\n"
        {
          assert ends[i] == "\r" && lines[i + 1] == [];
        }
      }
      SplitTerminated(lines[1..], ends[1..]);
      if ends[0] == [] {
        assert rest == [] && lines == [lines[0]];
        assert lines[0] + ends[0] + rest == lines[0];
        SplitLastLine([], lines[0]);
        assert [] + lines[0] == lines[0];
      } else {
        if ends[0] == "\r" && rest != [] {
          assert lines[1] + ends[1] <= rest;
          if lines[1] == [] {
            assert rest[0] == ends[1][0];
          } else {
            assert rest[0] == lines[1][0];
          }
        }
        SplitPastLine([], lines[0], ends[0], rest);
        assert [] + lines[0] == lines[0];
        assert lines == [lines[0]] + lines[1..];
      }
    }
  }

  /** One more line in front of well printed lines keeps them well printed. */
  lemma PrintedCons(line: string, brk: string, ls: seq<string>, es: seq<string>)
    requires NoLineBreak(line) && IsTerminator(brk) && WellPrinted(ls, es)
    requires brk == "\r" ==> Terminated(ls, es) == [] || Terminated(ls, es)[0] != '\n'
    ensures WellPrinted([line] + ls, [brk] + es)
    ensures Terminated([line] + ls, [brk] + es) == line + brk + Terminated(ls, es)
  {
    var lines, ends := [line] + ls, [brk] + es;
    assert lines[1..] == ls && ends[1..] == es;
    assert ls != [] && ls[0] == [] && es[0] != [] ==> Terminated(ls, es)[0] == es[0][0];
    forall i | 0 < i < |lines| && ends[i - 1] == "\r" && lines[i] == []
      ensures ends[i] != "\n"
    {
      if i > 1 {
        assert ends[i - 1] == es[i - 2] && lines[i] == ls[i - 1];
      }
    }
  }

  /** The index of the first line break of `s`, or |s| when it has none. */
  function FirstBreak(s: string): (i: nat)
    ensures i <= |s| && NoLineBreak(s[..i])
    ensures i < |s| ==> IsLineBreak(s[i])
    decreases |s|
  {
    if s == [] || IsLineBreak(s[0]) then 0
    else
      var i := 1 + FirstBreak(s[1..]);
      assert s[..i] == [s[0]] + s[1..][..i - 1];
      i
  }

  /** Every text is some well printed lines: cut at the first break, the
      terminator there is "\r\n" when a "\r" is followed by "\n". */
  lemma {:induction false} Decompose(s: string) returns (ls: seq<string>, es: seq<string>)
    ensures WellPrinted(ls, es) && Terminated(ls, es) == s
    decreases |s|
  {
    var i := FirstBreak(s);
    if i == |s| {
      assert s[..i] == s;
      if s == [] {
        ls, es := [], [];
      } else {
        ls, es := [s], [[]];
        assert Terminated(ls, es) == s + [] + [];
      }
    } else {
      var line := s[..i];
      var brk := if s[i] == '\r' && i + 1 < |s| && s[i + 1] == '\n' then "\r\n" else [s[i]];
      var rest := s[i + |brk|..];
      assert s == line + brk + rest;
      var ls', es' := Decompose(rest);
      assert brk == "\r" ==> rest == [] || rest[0] != '\n' by {
        if brk == "\r" && rest != [] {
          assert rest[0] == s[i + 1];
        }
      }
      PrintedCons(line, brk, ls', es');
      ls, es := [line] + ls', [brk] + es';
    }
  }

  /** Every text is its split lines printed with some terminators; together
      with SplitTerminated this determines `SplitLines` on every text. */
  lemma SplitLinesPrinted(s: string)
    ensures exists ends :: WellPrinted(SplitLines(s), ends) && Terminated(SplitLines(s), ends) == s
  {
    var ls, es := Decompose(s);
    SplitTerminated(ls, es);
  }

  /** The lines of a text are the only lines that print it: any well printed
      lines and terminators giving `s` are its split lines. */
  lemma SplitLinesUnique(s: string)
    ensures forall ls, es :: WellPrinted(ls, es) && Terminated(ls, es) == s ==> SplitLines(s) == ls
  {
    forall ls, es | WellPrinted(ls, es) && Terminated(ls, es) == s
      ensures SplitLines(s) == ls
    {
      SplitTerminated(ls, es);
    }
  }

  /** Output using only "\n" as terminator, with every line terminated. */
  predicate IsCanonicalOutput(s: string) {
    (forall i :: 0 <= i < |s| ==> s[i] != '\r') && (s != [] ==> s[|s| - 1] == '\n')
  }

  lemma {:induction false} JoinSplitFrom(s: string, line: string)
    requires NoLineBreak(line) && IsCanonicalOutput(s)
    requires s == [] ==> line == []
    ensures JoinLines(SplitLinesFrom(s, line)) == line + s
    decreases |s|
  {
    if s == [] {
      assert line + s == [];
    } else if s[0] == '\n' {
      var rest := SplitLinesFrom(s[1..], []);
      JoinSplitFrom(s[1..], []);
      var all := [line] + rest;
      assert all[0] == line && all[1..] == rest;
      assert line + s == line + "\n" + s[1..];
    } else {
      assert s[0] != '\r';
      assert |s| > 1;
      JoinSplitFrom(s[1..], line + [s[0]]);
      assert line + [s[0]] + s[1..] == line + s;
    }
  }

  /** Lines each ended by "\n" print as their join. */
  lemma {:induction false} TerminatedNewlines(ls: seq<string>)
    ensures Terminated(ls, seq(|ls|, _ => "\n")) == JoinLines(ls)
    decreases |ls|
  {
    if ls != [] {
      assert seq(|ls|, _ => "\n")[1..] == seq(|ls| - 1, _ => "\n");
      TerminatedNewlines(ls[1..]);
    }
  }

  /** Splitting the text of break-free lines printed one per line gives back
      exactly those lines. */
  lemma SplitJoin(ls: seq<string>)
    requires forall i :: 0 <= i < |ls| ==> NoLineBreak(ls[i])
    ensures SplitLines(JoinLines(ls)) == ls
  {
    var ends := seq(|ls|, _ => "\n");
    assert WellPrinted(ls, ends);
    SplitTerminated(ls, ends);
    TerminatedNewlines(ls);
  }

  /** Canonical output is exactly the lines it splits into, each followed by "\n". */
  lemma JoinSplit(s: string)
    requires IsCanonicalOutput(s)
    ensures JoinLines(SplitLines(s)) == s
  {
    JoinSplitFrom(s, []);
  }

  // ---------------------------------------------------------------------
  // Scanning helpers: each drops or takes a maximal run of one class.

  /** What is left after `\s*`. */
  function DropSpaces(s: string): (r: string)
    ensures |r| <= |s|
    ensures !StartsWithSpace(r)
    decreases |s|
  {
    if StartsWithSpace(s) then DropSpaces(s[1..]) else s
  }

  /** What is left after a maximal run of non-space characters. */
  function DropToken(s: string): (r: string)
    ensures |r| <= |s|
    ensures r == [] || IsSpace(r[0])
    decreases |s|
  {
    if s != [] && !IsSpace(s[0]) then DropToken(s[1..]) else s
  }

  /** The maximal run of digits at the start of `s`. */
  function TakeDigits(s: string): (r: string)
    ensures r <= s && AllDigits(r)
    ensures |r| == |s| || !IsDigit(s[|r|])
    decreases |s|
  {
    if StartsWithDigit(s) then [s[0]] + TakeDigits(s[1..]) else []
  }

  lemma {:induction false} DropSpacesConcat(w: string, rest: string)
    requires AllSpaces(w) && !StartsWithSpace(rest)
    ensures DropSpaces(w + rest) == rest
    decreases |w|
  {
    if w == [] {
      assert w + rest == rest;
    } else {
      assert (w + rest)[0] == w[0] && (w + rest)[1..] == w[1..] + rest;
      DropSpacesConcat(w[1..], rest);
    }
  }

  lemma {:induction false} DropTokenConcat(t: string, rest: string)
    requires forall i :: 0 <= i < |t| ==> !IsSpace(t[i])
    requires rest == [] || IsSpace(rest[0])
    ensures DropToken(t + rest) == rest
    decreases |t|
  {
    if t == [] {
      assert t + rest == rest;
    } else {
      assert (t + rest)[0] == t[0] && (t + rest)[1..] == t[1..] + rest;
      DropTokenConcat(t[1..], rest);
    }
  }

  lemma {:induction false} TakeDigitsConcat(d: string, rest: string)
    requires AllDigits(d) && !StartsWithDigit(rest)
    ensures TakeDigits(d + rest) == d
    decreases |d|
  {
    if d == [] {
      assert d + rest == rest;
    } else {
      assert (d + rest)[0] == d[0] && (d + rest)[1..] == d[1..] + rest;
      TakeDigitsConcat(d[1..], rest);
      assert d == [d[0]] + d[1..];
    }
  }

  // ---------------------------------------------------------------------
  // Decimal numbers

  function DigitValue(c: char): nat
    requires IsDigit(c)
  {
    (c as int) - ('0' as int)
  }

  /** Python's `int(s)` for a string of decimal digits (leading zeros allowed). */
  function DigitsValue(s: string): nat
    requires AllDigits(s)
    decreases |s|
  {
    if s == [] then 0 else 10 * DigitsValue(s[..|s| - 1]) + DigitValue(s[|s| - 1])
  }

  function DigitChar(d: nat): (c: char)
    requires d < 10
    ensures IsDigit(c) && DigitValue(c) == d
  {
    ('0' as int + d) as char
  }

  /** Python's `str(n)` for a non-negative integer. */
  function NatToDigits(n: nat): (r: string)
    ensures IsDigits(r)
    ensures r[0] == '0' ==> n == 0
    ensures |r| > 1 ==> r[0] != '0'
    decreases n
  {
    if n < 10 then [DigitChar(n)] else NatToDigits(n / 10) + [DigitChar(n % 10)]
  }

  /** A decimal numeral as `str` writes it: no leading zero except in "0",
      and a minus sign only before a non-zero number. */
  predicate IsCanonicalNumeral(s: string) {
    || (IsDigits(s) && (|s| > 1 ==> s[0] != '0'))
    || (|s| > 1 && s[0] == '-' && IsDigits(s[1..]) && s[1] != '0')
  }

  /** Python's `str(i)` for any integer. */
  function IntToString(i: int): (r: string)
    ensures IsCanonicalNumeral(r)
  {
    if i < 0 then
      var d := NatToDigits(-i);
      assert ("-" + d)[1..] == d;
      "-" + d
    else NatToDigits(i)
  }

  /** Reads back an optionally negative decimal numeral. */
  function ParseIntText(s: string): Option<int> {
    if |s| > 1 && s[0] == '-' && AllDigits(s[1..]) then Some(0 - DigitsValue(s[1..]) as int)
    else if IsDigits(s) then Some(DigitsValue(s))
    else None
  }

  lemma {:induction false} DigitsOfNat(n: nat)
    ensures DigitsValue(NatToDigits(n)) == n
    decreases n
  {
    var s := NatToDigits(n);
    if n >= 10 {
      assert s[..|s| - 1] == NatToDigits(n / 10);
      DigitsOfNat(n / 10);
    }
  }

  /** `str` and reading back are inverse on integers. */
  lemma IntToStringRoundTrip(i: int)
    ensures ParseIntText(IntToString(i)) == Some(i)
  {
    var d := if i < 0 then NatToDigits(-i) else NatToDigits(i);
    DigitsOfNat(if i < 0 then -i else i);
    if i < 0 {
      var s := "-" + d;
      assert s[1..] == d;
    } else {
      assert d[0] != '-';
    }
  }

  lemma {:induction false} LeadingDigitPositive(s: string)
    requires IsDigits(s) && s[0] != '0'
    ensures DigitsValue(s) > 0
    decreases |s|
  {
    if |s| > 1 {
      LeadingDigitPositive(s[..|s| - 1]);
    }
  }

  /** A digit string without a leading zero is the `str` of its value. */
  lemma {:induction false} CanonicalDigits(s: string)
    requires IsDigits(s) && (|s| > 1 ==> s[0] != '0')
    ensures NatToDigits(DigitsValue(s)) == s
    decreases |s|
  {
    var n := DigitsValue(s);
    var c := s[|s| - 1];
    if |s| == 1 {
      assert s[..0] == [] && DigitsValue(s) == 10 * DigitsValue(s[..0]) + DigitValue(c);
      assert DigitChar(n) == c;
      assert s == [c];
    } else {
      var p := s[..|s| - 1];
      LeadingDigitPositive(p);
      CanonicalDigits(p);
      assert n == 10 * DigitsValue(p) + DigitValue(c);
      assert n / 10 == DigitsValue(p) && n % 10 == DigitValue(c);
      assert DigitChar(n % 10) == c;
      assert s == p + [c];
    }
  }

  /** `str` writes each integer in exactly one way: a canonical numeral that
      reads back as `i` is `str(i)`. */
  lemma CanonicalNumeralUnique(s: string, i: int)
    requires IsCanonicalNumeral(s) && ParseIntText(s) == Some(i)
    ensures s == IntToString(i)
  {
    if s[0] == '-' {
      var d := s[1..];
      LeadingDigitPositive(d);
      CanonicalDigits(d);
      assert s == "-" + d;
    } else {
      CanonicalDigits(s);
    }
  }
}
