/** The line grammar of the ASCII command protocol, and the functions that recognise it. */
module AsciiGrammar {
  import opened Words

  const MAX_DIGITS: nat := 6

  datatype Line = Duty(left: int, right: int) | Vel(left: int, right: int) | Spd(on: int) | Halt

  predicate IsDigit(c: char) { '0' <= c <= '9' }

  predicate AllDigits(s: string) { forall c :: c in s ==> IsDigit(c) }

  predicate Blank(s: string) { forall c :: c in s ==> c == ' ' }

  function Digit(c: char): int
    requires IsDigit(c)
  {
    c as int - '0' as int
  }

  /** The decimal value of a digit string. */
  function Value(s: string): int
    requires AllDigits(s)
  {
    if s == "" then 0 else Value(s[..|s| - 1]) * 10 + Digit(s[|s| - 1])
  }

  // ---------------------------------------------------------------- the grammar

  predicate Signed1(s: string) { s != "" && (s[0] == '-' || s[0] == '+') }

  function Unsigned(s: string): string { if Signed1(s) then s[1..] else s }

  /** An optional sign and one to six digits. */
  predicate Numeral(s: string) { 1 <= |Unsigned(s)| <= MAX_DIGITS && AllDigits(Unsigned(s)) }

  function NumeralValue(s: string): int
    requires Numeral(s)
  {
    if s[0] == '-' then -Value(Unsigned(s)) else Value(Unsigned(s))
  }

  /** Two numerals after a keyword: blanks before the first, blanks or a sign before the second,
      blanks behind. */
  ghost predicate TwoNumbers(tail: string, left: int, right: int) {
    exists sp1, n1, sp2, n2, sp3 :: Pair(tail, sp1, n1, sp2, n2, sp3, left, right)
  }

  ghost predicate Pair(tail: string, sp1: string, n1: string, sp2: string, n2: string, sp3: string,
                       left: int, right: int) {
    && tail == sp1 + (n1 + (sp2 + (n2 + sp3)))
    && Blank(sp1) && sp1 != "" && Blank(sp2) && Blank(sp3)
    && Numeral(n1) && Numeral(n2) && (sp2 != "" || Signed1(n2))
    && left == NumeralValue(n1) && right == NumeralValue(n2)
  }

  ghost predicate OneNumber(tail: string, value: int) {
    exists sp1, n1, sp2 :: Single(tail, sp1, n1, sp2, value)
  }

  ghost predicate Single(tail: string, sp1: string, n1: string, sp2: string, value: int) {
    && tail == sp1 + (n1 + sp2) && Blank(sp1) && sp1 != "" && Blank(sp2) && Numeral(n1)
    && value == NumeralValue(n1)
  }

  /** The sentences of the protocol. */
  ghost predicate Sentence(text: string, cmd: Line) {
    match cmd
    case Duty(l, r) => |text| >= 4 && text[..4] == "duty" && TwoNumbers(text[4..], l, r)
    case Vel(l, r) => |text| >= 3 && text[..3] == "vel" && TwoNumbers(text[3..], l, r)
    case Spd(on) => |text| >= 3 && text[..3] == "spd" && OneNumber(text[3..], on) && (on == 0 || on == 1)
    case Halt => text == "stop"
  }

  // ---------------------------------------------------------------- the recogniser

  function SkipBlanks(s: string): string {
    if s != "" && s[0] == ' ' then SkipBlanks(s[1..]) else s
  }

  /** Length of the run of digits `s` starts with. */
  function DigitRun(s: string): (n: nat)
    ensures n <= |s| && AllDigits(s[..n]) && (n < |s| ==> !IsDigit(s[n]))
  {
    if s != "" && IsDigit(s[0]) then
      assert s[..1 + DigitRun(s[1..])] == [s[0]] + s[1..][..DigitRun(s[1..])];
      1 + DigitRun(s[1..])
    else 0
  }

  /** parse_i32: skips blanks, reads one numeral, and returns its value and what follows it. */
  function ParseNumber(s: string): Option<(int, string)> {
    var t := SkipBlanks(s);
    var u := Unsigned(t);
    var n := DigitRun(u);
    if n == 0 || n > MAX_DIGITS then None
    else Some((if t[0] == '-' then -Value(u[..n]) else Value(u[..n]), u[n..]))
  }

  predicate AtEnd(s: string) { SkipBlanks(s) == "" }

  predicate HeadIs(s: string, tag: string) {
    |s| >= |tag| && s[..|tag|] == tag && (|s| == |tag| || s[|tag|] == ' ')
  }

  function ParseTwo(s: string): Option<(int, int)> {
    var a := ParseNumber(s);
    if a.None? then None
    else
      var b := ParseNumber(a.value.1);
      if b.None? || !AtEnd(b.value.1) then None else Some((a.value.0, b.value.0))
  }

  function ParseOne(s: string): Option<int> {
    var a := ParseNumber(s);
    if a.None? || !AtEnd(a.value.1) then None else Some(a.value.0)
  }

  /** protocol_parse_line on the text before the first NUL. */
  function ParseText(s: string): Option<Line> {
    if HeadIs(s, "duty") || HeadIs(s, "vel") then
      var isVel := s[0] == 'v';
      var two := ParseTwo(s[if isVel then 3 else 4..]);
      if two.None? then None
      else if isVel then Some(Vel(two.value.0, two.value.1)) else Some(Duty(two.value.0, two.value.1))
    else if HeadIs(s, "spd") then
      var one := ParseOne(s[3..]);
      if one.None? || (one.value != 0 && one.value != 1) then None else Some(Spd(one.value))
    else if s == "stop" then Some(Halt)
    else None
  }

  /** A C string ends at its first NUL. */
  function CString(line: string): string {
    if line == "" || line[0] == '\0' then "" else [line[0]] + CString(line[1..])
  }

  // ---------------------------------------------------------------- recogniser and grammar agree

  lemma {:induction false} SkipBlanksSplit(s: string) returns (sp: string)
    ensures s == sp + SkipBlanks(s) && Blank(sp)
    ensures SkipBlanks(s) != "" ==> SkipBlanks(s)[0] != ' '
    ensures s != "" && s[0] == ' ' ==> sp != ""
  {
    if s != "" && s[0] == ' ' {
      sp := SkipBlanksSplit(s[1..]);
      sp := [s[0]] + sp;
    } else {
      sp := "";
    }
  }

  lemma {:induction false} SkipBlanksOver(sp: string, s: string)
    requires Blank(sp) && (s != "" ==> s[0] != ' ')
    ensures SkipBlanks(sp + s) == s
  {
    if sp == "" {
      assert sp + s == s;
    } else {
      assert (sp + s)[1..] == sp[1..] + s;
      assert sp[0] in sp && forall c :: c in sp[1..] ==> c in sp;
      SkipBlanksOver(sp[1..], s);
    }
  }

  lemma {:induction false} DigitRunOver(d: string, s: string)
    requires AllDigits(d) && (s != "" ==> !IsDigit(s[0]))
    ensures DigitRun(d + s) == |d|
  {
    if d == "" {
      assert d + s == s;
    } else {
      assert (d + s)[1..] == d[1..] + s;
      assert d[0] in d && forall c :: c in d[1..] ==> c in d;
      DigitRunOver(d[1..], s);
    }
  }

  /** Reading a number succeeds exactly on blanks followed by a numeral that no digit follows. */
  lemma ParseNumberSound(s: string) returns (sp: string, n: string)
    requires ParseNumber(s).Some?
    ensures s == sp + (n + ParseNumber(s).value.1) && Blank(sp) && Numeral(n)
    ensures ParseNumber(s).value.0 == NumeralValue(n)
    ensures ParseNumber(s).value.1 != "" ==> !IsDigit(ParseNumber(s).value.1[0])
    ensures s != "" && s[0] == ' ' ==> sp != ""
    ensures s != "" && s[0] != ' ' ==> sp == ""
  {
    sp := SkipBlanksSplit(s);
    var t := SkipBlanks(s);
    var u := Unsigned(t);
    var k := DigitRun(u);
    if Signed1(t) {
      n := t[..1] + u[..k];
      assert Unsigned(n) == u[..k];
    } else {
      n := u[..k];
      assert !Signed1(n);
    }
    assert t == n + u[k..];
  }

  lemma ParseNumberComplete(sp: string, n: string, rest: string)
    requires Blank(sp) && Numeral(n) && (rest != "" ==> !IsDigit(rest[0]))
    ensures ParseNumber(sp + (n + rest)) == Some((NumeralValue(n), rest))
  {
    var t := n + rest;
    assert n[0] != ' ' by {
      assert !Signed1(n) ==> n[0] in Unsigned(n);
    }
    SkipBlanksOver(sp, t);
    var u := Unsigned(n);
    assert Signed1(t) <==> Signed1(n);
    assert Unsigned(t) == u + rest;
    DigitRunOver(u, rest);
    assert (u + rest)[..|u|] == u && (u + rest)[|u|..] == rest;
  }

  lemma AtEndIsBlank(s: string)
    ensures AtEnd(s) <==> Blank(s)
  {
    if AtEnd(s) {
      var sp := SkipBlanksSplit(s);
      assert s == sp + "" == sp;
    }
    if Blank(s) {
      assert s + "" == s;
      SkipBlanksOver(s, "");
    }
  }

  lemma NumeralStart(n: string, rest: string)
    requires Numeral(n)
    ensures n + rest != "" && (Signed1(n) ==> !IsDigit((n + rest)[0])) && (n + rest)[0] != ' '
    ensures Signed1(n + rest) <==> Signed1(n)
  {
    assert !Signed1(n) ==> n[0] in Unsigned(n);
    assert (n + rest)[0] == n[0];
  }

  lemma ParseTwoExact(s: string, left: int, right: int)
    requires s == "" || s[0] == ' '
    ensures ParseTwo(s) == Some((left, right)) <==> TwoNumbers(s, left, right)
  {
    if ParseTwo(s) == Some((left, right)) {
      var sp1, n1 := ParseNumberSound(s);
      var r1 := ParseNumber(s).value.1;
      var sp2, n2 := ParseNumberSound(r1);
      var r2 := ParseNumber(r1).value.1;
      AtEndIsBlank(r2);
      NumeralStart(n2, r2);
      assert sp2 == "" ==> r1 == n2 + r2;
      assert !Signed1(n2) ==> n2[0] in Unsigned(n2);
      assert Pair(s, sp1, n1, sp2, n2, r2, left, right);
    }
    if TwoNumbers(s, left, right) {
      var sp1, n1, sp2, n2, sp3 :| Pair(s, sp1, n1, sp2, n2, sp3, left, right);
      PairParses(s, sp1, n1, sp2, n2, sp3, left, right);
    }
  }

  lemma PairParses(s: string, sp1: string, n1: string, sp2: string, n2: string, sp3: string, left: int, right: int)
    requires Pair(s, sp1, n1, sp2, n2, sp3, left, right)
    ensures ParseTwo(s) == Some((left, right))
  {
    var r1 := sp2 + (n2 + sp3);
    NumeralStart(n2, sp3);
    assert sp2 != "" ==> r1[0] == sp2[0] && sp2[0] in sp2;
    assert sp2 == "" ==> r1 == n2 + sp3;
    assert r1 != "" ==> !IsDigit(r1[0]);
    ParseNumberComplete(sp1, n1, r1);
    assert sp3 != "" ==> sp3[0] in sp3;
    ParseNumberComplete(sp2, n2, sp3);
    AtEndIsBlank(sp3);
  }

  lemma ParseOneExact(s: string, value: int)
    requires s == "" || s[0] == ' '
    ensures ParseOne(s) == Some(value) <==> OneNumber(s, value)
  {
    if ParseOne(s) == Some(value) {
      var sp1, n1 := ParseNumberSound(s);
      var r1 := ParseNumber(s).value.1;
      AtEndIsBlank(r1);
      assert Single(s, sp1, n1, r1, value);
    }
    if OneNumber(s, value) {
      var sp1, n1, sp2 :| Single(s, sp1, n1, sp2, value);
      assert sp2 != "" ==> sp2[0] in sp2;
      ParseNumberComplete(sp1, n1, sp2);
      AtEndIsBlank(sp2);
    }
  }

  lemma TailStartsBlank(s: string, n: nat, left: int, right: int)
    requires n <= |s|
    ensures TwoNumbers(s[n..], left, right) ==> n < |s| && s[n] == ' '
    ensures OneNumber(s[n..], left) ==> n < |s| && s[n] == ' '
  {
    if TwoNumbers(s[n..], left, right) {
      var sp1, n1, sp2, n2, sp3 :| Pair(s[n..], sp1, n1, sp2, n2, sp3, left, right);
      assert s[n..][0] == sp1[0] && sp1[0] in sp1;
    }
    if OneNumber(s[n..], left) {
      var sp1, n1, sp2 :| Single(s[n..], sp1, n1, sp2, left);
      assert s[n..][0] == sp1[0] && sp1[0] in sp1;
    }
  }

  lemma KeywordsDiffer(text: string)
    ensures HeadIs(text, "duty") ==> text[0] == 'd'
    ensures HeadIs(text, "vel") ==> text[0] == 'v'
    ensures HeadIs(text, "spd") ==> text[0] == 's' && text[1] == 'p'
    ensures text == "stop" ==> text[0] == 's' && text[1] == 't'
  {
    if HeadIs(text, "duty") { assert text[..4][0] == 'd'; }
    if HeadIs(text, "vel") { assert text[..3][0] == 'v'; }
    if HeadIs(text, "spd") { assert text[..3][0] == 's' && text[..3][1] == 'p'; }
  }

  lemma DutyExact(text: string, l: int, r: int)
    ensures ParseText(text) == Some(Duty(l, r)) <==> Sentence(text, Duty(l, r))
  {
    KeywordsDiffer(text);
    if |text| >= 4 && text[..4] == "duty" {
      TailStartsBlank(text, 4, l, r);
      if HeadIs(text, "duty") { ParseTwoExact(text[4..], l, r); }
    }
  }

  lemma VelExact(text: string, l: int, r: int)
    ensures ParseText(text) == Some(Vel(l, r)) <==> Sentence(text, Vel(l, r))
  {
    KeywordsDiffer(text);
    if |text| >= 3 && text[..3] == "vel" {
      TailStartsBlank(text, 3, l, r);
      if HeadIs(text, "vel") { ParseTwoExact(text[3..], l, r); }
    }
  }

  lemma SpdExact(text: string, on: int)
    ensures ParseText(text) == Some(Spd(on)) <==> Sentence(text, Spd(on))
  {
    KeywordsDiffer(text);
    if |text| >= 3 && text[..3] == "spd" {
      TailStartsBlank(text, 3, on, 0);
      if HeadIs(text, "spd") { ParseOneExact(text[3..], on); }
    }
  }

  /** The parser accepts exactly the sentences of the grammar, each as the command it denotes. */
  lemma ParserIsGrammar(text: string, cmd: Line)
    ensures ParseText(text) == Some(cmd) <==> Sentence(text, cmd)
  {
    match cmd
    case Duty(l, r) => DutyExact(text, l, r);
    case Vel(l, r) => VelExact(text, l, r);
    case Spd(on) => SpdExact(text, on);
    case Halt => KeywordsDiffer(text);
  }
}
