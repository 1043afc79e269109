/** protocol_ascii: bytes to lines to commands, with poisoning and resynchronisation at line ends. */
module ProtocolAscii {
  import opened Words
  import opened AsciiGrammar

  const LINE_CAP: nat := 32

  datatype Event = Nothing | Command(cmd: Line) | Reject

  /** The state of the line assembler: what is collected of the current line, and whether the line
      is known to be damaged. */
  datatype Proto = Proto(line: string, poisoned: bool, rejects: nat, poisons: nat)

  const FRESH: Proto := Proto("", false, 0, 0)

  predicate IsLineEnd(c: char) { c == '\n' || c == '\r' }

  function Poison(p: Proto): Proto {
    p.(line := "", poisoned := true, poisons := if p.poisoned then p.poisons else p.poisons + 1)
  }

  function Parse(line: string): Option<Line> { ParseText(CString(line)) }

  function Push(p: Proto, c: char): (Proto, Event) {
    if IsLineEnd(c) then
      var p1 := p.(line := "", poisoned := false);
      if p.poisoned then (p1.(rejects := p.rejects + 1), Reject)
      else if p.line == "" then (p1, Nothing)
      else if Parse(p.line).Some? then (p1, Command(Parse(p.line).value))
      else (p1.(rejects := p.rejects + 1), Reject)
    else if p.poisoned then (p, Nothing)
    else if |p.line| >= LINE_CAP - 1 then (Poison(p), Nothing)
    else (p.(line := p.line + [c]), Nothing)
  }

  function PushAll(p: Proto, s: string): Proto {
    if s == "" then p else Push(PushAll(p, s[..|s| - 1]), s[|s| - 1]).0
  }

  /** A line without line ends, fed after a line end, is collected whole if it fits and poisons the
      assembler if it does not. */
  lemma {:induction false} CollectsLine(p: Proto, s: string)
    requires p.line == "" && !p.poisoned && forall c :: c in s ==> !IsLineEnd(c)
    ensures PushAll(p, s) == if |s| < LINE_CAP then p.(line := s) else Poison(p)
  {
    if s != "" {
      var t, c := s[..|s| - 1], s[|s| - 1];
      assert s == t + [c] && c in s;
      CollectsLine(p, t);
      CollectsOne(p, t, c);
    }
  }

  lemma CollectsOne(p: Proto, t: string, c: char)
    requires !IsLineEnd(c) && !p.poisoned && p.line == ""
    ensures Push(if |t| < LINE_CAP then p.(line := t) else Poison(p), c).0 ==
            if |t| + 1 < LINE_CAP then p.(line := t + [c]) else Poison(p)
  {
  }

  /** What a complete line yields: its command if it is a sentence and fits the buffer, nothing if
      it is empty, a reject otherwise; and the assembler is clean again. */
  lemma LineYields(p: Proto, s: string, end: char)
    requires p.line == "" && !p.poisoned && (end == '\n' || end == '\r')
    requires forall c :: c in s ==> c != '\n' && c != '\r'
    ensures var (p1, e) := Push(PushAll(p, s), end);
            && p1.line == "" && !p1.poisoned && p1.rejects == p.rejects + (if e == Reject then 1 else 0)
            && e == (if s == "" then Nothing
                     else if |s| < LINE_CAP && Parse(s).Some? then Command(Parse(s).value) else Reject)
  {
    CollectsLine(p, s);
  }

  /** A poisoned line never yields a command, whatever follows before its end. */
  lemma {:induction false} PoisonedYieldsReject(p: Proto, s: string, end: char)
    requires p.poisoned && p.line == "" && (end == '\n' || end == '\r')
    requires forall c :: c in s ==> c != '\n' && c != '\r'
    ensures PushAll(p, s) == p
    ensures Push(PushAll(p, s), end) == (p.(poisoned := false, rejects := p.rejects + 1), Reject)
  {
    if s != "" {
      var t, last := s[..|s| - 1], s[|s| - 1];
      assert s == t + [last] && last in s;
      assert forall c :: c in t ==> c in s;
      PoisonedYieldsReject(p, t, end);
    }
  }

  // ---------------------------------------------------------------- the C text functions

  /** Reading a NUL-terminated buffer at an index of its text or at its end. */
  lemma {:induction false} TextAt(line: string, i: nat)
    requires line != "" && line[|line| - 1] == '\0' && i <= |CString(line)|
    ensures |CString(line)| < |line|
    ensures line[i] == if i < |CString(line)| then CString(line)[i] else '\0'
    ensures i < |CString(line)| ==> line[i] != '\0'
  {
    if line[0] != '\0' && i > 0 {
      TextAt(line[1..], i - 1);
    } else if line[0] != '\0' {
      TextAt(line[1..], 0);
    }
  }

  /** `while (*p == ' ') p++;` */
  method SkipSpaces(line: string, cursor: nat) returns (p: nat)
    requires line != "" && line[|line| - 1] == '\0' && cursor <= |CString(line)|
    ensures cursor <= p <= |CString(line)| && CString(line)[p..] == SkipBlanks(CString(line)[cursor..])
  {
    ghost var text := CString(line);
    p := cursor;
    TextAt(line, p);
    while line[p] == ' '
      invariant cursor <= p <= |text| < |line|
      invariant line[p] == if p < |text| then text[p] else '\0'
      invariant SkipBlanks(text[p..]) == SkipBlanks(text[cursor..])
      decreases |text| - p
    {
      assert text[p..][1..] == text[p + 1..];
      p := p + 1;
      TextAt(line, p);
    }
  }

  /** The digit loop of parse_i32: at most six digits, and no seventh behind them. */
  method ReadDigits(line: string, start: nat) returns (ok: bool, value: int, p: nat)
    requires line != "" && line[|line| - 1] == '\0' && start <= |CString(line)|
    ensures var u := CString(line)[start..];
            && (ok <==> DigitRun(u) <= MAX_DIGITS)
            && (ok ==> p == start + DigitRun(u) && value == Value(u[..DigitRun(u)]))
  {
    ghost var text := CString(line);
    ghost var u := text[start..];
    p, value := start, 0;
    var digits := 0;
    TextAt(line, p);
    while '0' <= line[p] <= '9'
      invariant start <= p <= |text| < |line| && p == start + digits && digits <= MAX_DIGITS
      invariant line[p] == if p < |text| then text[p] else '\0'
      invariant AllDigits(u[..digits]) && value == Value(u[..digits])
      decreases |text| - p
    {
      RunContinues(u, digits);
      if digits >= MAX_DIGITS {
        return false, 0, p;
      }
      assert u[..digits + 1][..digits] == u[..digits];
      value := value * 10 + (line[p] as int - '0' as int);
      p := p + 1;
      digits := digits + 1;
      TextAt(line, p);
    }
    RunEnds(u, digits);
    ok := true;
  }

  lemma RunContinues(u: string, k: nat)
    requires k < |u| && AllDigits(u[..k]) && IsDigit(u[k])
    ensures DigitRun(u) > k && AllDigits(u[..k + 1])
  {
    assert u[..k + 1] == u[..k] + [u[k]];
    assert forall j :: 0 <= j < k ==> u[j] in u[..k];
  }

  lemma RunEnds(u: string, k: nat)
    requires k <= |u| && AllDigits(u[..k]) && (k < |u| ==> !IsDigit(u[k]))
    ensures DigitRun(u) == k
  {
    assert u == u[..k] + u[k..];
    DigitRunOver(u[..k], u[k..]);
  }

  /** parse_i32 */
  method ParseI32(line: string, cursor: nat) returns (ok: bool, value: int, next: nat)
    requires line != "" && line[|line| - 1] == '\0' && cursor <= |CString(line)|
    ensures var r := ParseNumber(CString(line)[cursor..]);
            && (ok <==> r.Some?)
            && (ok ==> next <= |CString(line)| && value == r.value.0 && CString(line)[next..] == r.value.1)
  {
    ghost var text := CString(line);
    var p := SkipSpaces(line, cursor);
    ghost var t := text[p..];
    TextAt(line, p);
    var sign := 1;
    if line[p] == '-' {
      sign := -1;
      p := p + 1;
    } else if line[p] == '+' {
      p := p + 1;
    }
    ghost var u := text[p..];
    assert u == Unsigned(t);
    var good, v, e := ReadDigits(line, p);
    if !good || e == p {
      return false, 0, cursor;
    }
    assert u[DigitRun(u)..] == text[e..];
    ok, value, next := true, sign * v, e;
  }

  /** One number at the cursor, and nothing but blanks to the end. */
  method ParseLast(line: string, cursor: nat) returns (ok: bool, value: int)
    requires line != "" && line[|line| - 1] == '\0' && cursor <= |CString(line)|
    ensures ParseOne(CString(line)[cursor..]) == if ok then Some(value) else None
  {
    var p;
    ok, value, p := ParseI32(line, cursor);
    if ok {
      ok := OnlyBlanksLeft(line, p);
    }
  }

  /** Two numbers at the cursor, and nothing but blanks to the end. */
  method ParsePair(line: string, cursor: nat) returns (ok: bool, left: int, right: int)
    requires line != "" && line[|line| - 1] == '\0' && cursor <= |CString(line)|
    ensures ParseTwo(CString(line)[cursor..]) == if ok then Some((left, right)) else None
  {
    var p;
    right := 0;
    ok, left, p := ParseI32(line, cursor);
    if ok {
      ok, right := ParseLast(line, p);
    }
  }

  /** Only blanks are left. */
  method OnlyBlanksLeft(line: string, cursor: nat) returns (yes: bool)
    requires line != "" && line[|line| - 1] == '\0' && cursor <= |CString(line)|
    ensures yes <==> AtEnd(CString(line)[cursor..])
  {
    var e := SkipSpaces(line, cursor);
    TextAt(line, e);
    yes := line[e] == '\0';
    assert e < |CString(line)| ==> CString(line)[e..] != "";
  }

  /** protocol_parse_line */
  method ParseLine(line: string) returns (cmd: Option<Line>)
    requires line != "" && line[|line| - 1] == '\0'
    ensures cmd == ParseText(CString(line))
  {
    ghost var text := CString(line);
    TextAt(line, 0);
    var isDuty := HeadMatches(line, "duty");
    var isVel := HeadMatches(line, "vel");
    if isDuty || isVel {
      KeywordsDiffer(text);
      var vel := line[0] == 'v';
      var ok, l, r := ParsePair(line, if vel then 3 else 4);
      return if !ok then None else if vel then Some(Vel(l, r)) else Some(Duty(l, r));
    }
    var isSpd := HeadMatches(line, "spd");
    if isSpd {
      var ok, on := ParseLast(line, 3);
      return if !ok || (on != 0 && on != 1) then None else Some(Spd(on));
    }
    var n := TextLength(line);
    cmd := if line[..n] == "stop" then Some(Halt) else None;
  }

  /** strlen */
  method TextLength(line: string) returns (n: nat)
    requires line != "" && line[|line| - 1] == '\0'
    ensures n < |line| && line[..n] == CString(line)
  {
    ghost var text := CString(line);
    n := 0;
    TextAt(line, 0);
    while line[n] != '\0'
      invariant n <= |text| < |line| && line[..n] == text[..n]
      invariant line[n] == if n < |text| then text[n] else '\0'
      decreases |text| - n
    {
      n := n + 1;
      TextAt(line, n);
    }
    if n < |text| {
      TextAt(line, n);
      assert false;
    }
    assert text[..n] == text;
  }

  /** head_is */
  method HeadMatches(line: string, tag: string) returns (yes: bool)
    requires line != "" && line[|line| - 1] == '\0' && '\0' !in tag
    ensures yes <==> HeadIs(CString(line), tag)
  {
    var n := TextLength(line);
    TextAt(line, n);
    yes := n >= |tag| && line[..|tag|] == tag && (line[|tag|] == ' ' || line[|tag|] == '\0');
    ghost var text := CString(line);
    assert line[..n] == text;
    if n >= |tag| {
      TextAt(line, |tag|);
      assert line[..|tag|] == text[..|tag|];
    }
  }

  /** protocol_t */
  class Assembler {
    const buf: array<char>
    var length: nat
    var poisoned: bool
    var rejects: nat
    var poisons: nat

    ghost predicate Ok()
      reads this
    {
      buf.Length == LINE_CAP && length < LINE_CAP
    }

    function State(): Proto
      requires buf.Length == LINE_CAP && length < LINE_CAP
      reads this, buf
    {
      Proto(buf[..length], poisoned, rejects, poisons)
    }

    constructor ()
      ensures Ok() && fresh(buf) && State() == FRESH
    {
      buf := new char[LINE_CAP](i => '\0');
      length, poisoned, rejects, poisons := 0, false, 0, 0;
    }

    method Spoil()
      requires Ok()
      modifies this
      ensures Ok() && State() == Poison(old(State()))
    {
      if !poisoned {
        poisoned := true;
        poisons := poisons + 1;
      }
      length := 0;
    }

    /** protocol_push */
    method PushChar(c: char) returns (e: Event)
      requires Ok()
      modifies this, buf
      ensures Ok() && (State(), e) == Push(old(State()), c)
    {
      if c == '\n' || c == '\r' {
        var wasPoisoned, n := poisoned, length;
        ghost var collected := buf[..n];
        poisoned := false;
        length := 0;
        if wasPoisoned {
          rejects := rejects + 1;
          return Reject;
        }
        if n == 0 {
          return Nothing;
        }
        buf[n] := '\0';
        assert buf[..n] == collected;
        Terminated(buf[..n + 1], collected);
        var cmd := ParseLine(buf[..n + 1]);
        if cmd.Some? {
          return Command(cmd.value);
        }
        rejects := rejects + 1;
        return Reject;
      }
      if poisoned {
        return Nothing;
      }
      if length >= LINE_CAP - 1 {
        Spoil();
        return Nothing;
      }
      buf[length] := c;
      length := length + 1;
      assert buf[..length] == old(buf[..length]) + [c];
      e := Nothing;
    }
  }

  /** Terminating the collected bytes does not change their text. */
  lemma {:induction false} Terminated(line: string, collected: string)
    requires |line| == |collected| + 1 && line[..|collected|] == collected && line[|collected|] == '\0'
    ensures CString(line) == CString(collected)
  {
    if collected != "" && line[0] != '\0' {
      assert line[1..][..|collected| - 1] == collected[1..];
      Terminated(line[1..], collected[1..]);
    }
  }
}
