/** Output lines: a tag, then a blank and a decimal for each value, then a newline, filled into the
    buffer from its end. */
module LineBuilder {
  import opened AsciiGrammar
  import opened Words

  const I64_MIN: int := -0x8000_0000_0000_0000
  const I64_MAX: int := 0x7FFF_FFFF_FFFF_FFFF
  const TWO64: int := 0x1_0000_0000_0000_0000
  const I32_MIN: int := -0x8000_0000
  const I32_MAX: int := 0x7FFF_FFFF

  type i64 = x: int | I64_MIN <= x <= I64_MAX
  type i32 = x: int | I32_MIN <= x <= I32_MAX

  function DigitChar(d: int): char
    requires 0 <= d < 10
  {
    '0' + d as char
  }

  function Digits(n: nat): string {
    if n < 10 then [DigitChar(n)] else Digits(n / 10) + [DigitChar(n % 10)]
  }

  function Decimal(v: int): string { if v < 0 then "-" + Digits(-v) else Digits(v) }

  function Fields(values: seq<int>): string {
    if values == [] then "" else " " + Decimal(values[0]) + Fields(values[1..])
  }

  function LineText(tag: string, values: seq<int>): string { tag + Fields(values) + "\n" }

  /** Reading a decimal back gives the number it was made from. */
  lemma {:induction false} DigitsMeanNumber(n: nat)
    ensures Digits(n) != "" && AllDigits(Digits(n)) && Value(Digits(n)) == n
  {
    if n < 10 {
      assert Digits(n)[..0] == "" && Value("") == 0;
    } else {
      DigitsMeanNumber(n / 10);
      assert Digits(n)[..|Digits(n)| - 1] == Digits(n / 10);
    }
  }

  lemma {:induction false} DigitsLength(n: nat, k: nat)
    requires n < Pow10(k) && k >= 1
    ensures 1 <= |Digits(n)| <= k
  {
    if n >= 10 {
      DigitsLength(n / 10, k - 1);
    }
  }

  function Pow10(k: nat): nat { if k == 0 then 1 else 10 * Pow10(k - 1) }

  lemma {:induction false} FieldsSnoc(values: seq<int>, v: int, rest: seq<int>)
    ensures Fields([v] + rest) == " " + Decimal(v) + Fields(rest)
  {
    assert ([v] + rest)[1..] == rest;
  }

  /** The host side of the wire: a printed duty or velocity command is parsed as itself. */
  lemma PrintedCommandParses(left: int, right: int)
    requires -999_999 <= left <= 999_999 && -999_999 <= right <= 999_999
    ensures ParseText("duty" + Fields([left, right])) == Some(Duty(left, right))
    ensures ParseText("vel" + Fields([left, right])) == Some(Vel(left, right))
  {
    var tail := Fields([left, right]);
    PrintedPair(left, right);
    PrintedKeyword("duty", tail);
    PrintedKeyword("vel", tail);
    ParserIsGrammar("duty" + tail, Duty(left, right));
    ParserIsGrammar("vel" + tail, Vel(left, right));
  }

  lemma PrintedKeyword(tag: string, tail: string)
    ensures |tag + tail| >= |tag| && (tag + tail)[..|tag|] == tag && (tag + tail)[|tag|..] == tail
  {
  }

  lemma PrintedPair(left: int, right: int)
    requires -999_999 <= left <= 999_999 && -999_999 <= right <= 999_999
    ensures TwoNumbers(Fields([left, right]), left, right)
  {
    DecimalIsNumeral(left);
    DecimalIsNumeral(right);
    FieldsSnoc([], left, [right]);
    FieldsSnoc([], right, []);
    assert [left] + [right] == [left, right] && [right] + [] == [right];
    PairText(Decimal(left), Decimal(right), Fields([left, right]), left, right);
  }

  lemma PairText(l: string, r: string, tail: string, left: int, right: int)
    requires tail == " " + l + (" " + r + "")
    requires Numeral(l) && Numeral(r) && NumeralValue(l) == left && NumeralValue(r) == right
    ensures TwoNumbers(tail, left, right)
  {
    assert tail == " " + (l + (" " + (r + "")));
    assert Pair(tail, " ", l, " ", r, "", left, right);
  }

  lemma DecimalIsNumeral(v: int)
    requires -999_999 <= v <= 999_999
    ensures Numeral(Decimal(v)) && NumeralValue(Decimal(v)) == v
  {
    var n := if v < 0 then -v else v;
    DigitsMeanNumber(n);
    assert Pow10(6) == 1_000_000 by {
      assert Pow10(3) == 1000;
    }
    DigitsLength(n, 6);
    assert Digits(n)[0] in Digits(n);
  }

  // ---------------------------------------------------------------- every line of the IO task fits

  const TX_LINE_CAP: nat := 64

  /** Everything the IO task can send, with the widths its values have. */
  datatype Message =
    | OkLine(ms: u32, left: i32, right: i32)
    | ErrLine(ms: u32)
    | WdLine(ms: u32)
    | TicksLine(ms: u32, ticksLeft: i64, ticksRight: i64)
    | SpdLine(ms: u32, tpsLeft: i32, dutyLeft: i32, tpsRight: i32, dutyRight: i32)

  function Render(m: Message): string {
    match m
    case OkLine(ms, l, r) => LineText("ok", [ms, l, r])
    case ErrLine(ms) => LineText("err", [ms])
    case WdLine(ms) => LineText("wd", [ms])
    case TicksLine(ms, l, r) => LineText("ticks", [ms, l, r])
    case SpdLine(ms, a, b, c, d) => LineText("spd", [ms, a, b, c, d])
  }

  lemma DecimalLengths(v: int)
    ensures 0 <= v < TWO32 ==> |Decimal(v)| <= 10
    ensures I32_MIN <= v <= I32_MAX ==> |Decimal(v)| <= 11
    ensures I64_MIN <= v <= I64_MAX ==> |Decimal(v)| <= 20
  {
    assert Pow10(10) == 10_000_000_000 by {
      assert Pow10(5) == 100_000 by { assert Pow10(2) == 100; }
      assert Pow10(8) == 100_000_000;
    }
    assert Pow10(19) == 10_000_000_000_000_000_000 by {
      assert Pow10(13) == 10_000_000_000_000;
      assert Pow10(16) == 10_000_000_000_000_000;
    }
    var n := if v < 0 then -v else v;
    if 0 <= v < TWO32 || I32_MIN <= v <= I32_MAX {
      DigitsLength(n, 10);
    }
    if I64_MIN <= v <= I64_MAX {
      DigitsLength(n, 19);
    }
  }

  lemma {:induction false} FieldsLength(values: seq<int>, widths: seq<nat>)
    requires |values| == |widths|
    requires forall i :: 0 <= i < |values| ==> |Decimal(values[i])| <= widths[i]
    ensures |Fields(values)| <= |values| + Sum(widths)
  {
    if values != [] {
      FieldsLength(values[1..], widths[1..]);
    }
  }

  function Sum(ns: seq<nat>): nat { if ns == [] then 0 else ns[0] + Sum(ns[1..]) }

  lemma Sum3(a: nat, b: nat, c: nat)
    ensures Sum([a]) == a && Sum([a, b, c]) == a + b + c
  {
    assert [a, b, c][1..] == [b, c] && [b, c][1..] == [c] && [c][1..] == [] && [a][1..] == [];
    assert Sum([c]) == c && Sum([b, c]) == b + c;
  }

  lemma Sum5(a: nat, b: nat, c: nat, d: nat, e: nat)
    ensures Sum([a, b, c, d, e]) == a + b + c + d + e
  {
    assert [a, b, c, d, e][1..] == [b, c, d, e] && [b, c, d, e][1..] == [c, d, e];
    Sum3(c, d, e);
  }

  /** No value the IO task can report makes a line overflow its buffer: the longest are 59 and 63
      bytes, so the build fault is unreachable. */
  lemma EveryLineFits(m: Message)
    ensures |Render(m)| <= TX_LINE_CAP
    ensures m.TicksLine? ==> |Render(m)| <= 59
    ensures m.SpdLine? ==> |Render(m)| <= 63
  {
    DecimalLengths(m.ms);
    Sum3(10, 11, 11);
    match m
    case OkLine(ms, l, r) =>
      DecimalLengths(l);
      DecimalLengths(r);
      FieldsLength([ms, l, r], [10, 11, 11]);
    case ErrLine(ms) => FieldsLength([ms], [10]);
    case WdLine(ms) => FieldsLength([ms], [10]);
    case TicksLine(ms, l, r) =>
      DecimalLengths(l);
      DecimalLengths(r);
      Sum3(10, 20, 20);
      FieldsLength([ms, l, r], [10, 20, 20]);
    case SpdLine(ms, a, b, c, d) =>
      DecimalLengths(a);
      DecimalLengths(b);
      DecimalLengths(c);
      DecimalLengths(d);
      Sum5(10, 11, 11, 11, 11);
      FieldsLength([ms, a, b, c, d], [10, 11, 11, 11, 11]);
  }

  /** The widest telemetry line needs 63 of the 64 bytes: the margin is one byte. */
  lemma SpdMarginIsOne()
    ensures |Render(SpdLine(4_294_967_295, I32_MIN, I32_MIN, I32_MIN, I32_MIN))| == 63
  {
    TenDigits(4_294_967_295);
    TenDigits(2_147_483_648);
    var v: int := I32_MIN;
    assert |Decimal(v)| == 11 && |Decimal(4_294_967_295)| == 10;
    FieldsSnoc([], v, []);
    FieldsSnoc([], v, [v]);
    FieldsSnoc([], v, [v, v]);
    FieldsSnoc([], v, [v, v, v]);
    FieldsSnoc([], 4_294_967_295, [v, v, v, v]);
    assert [v] + [] == [v] && [v] + [v] == [v, v] && [v] + [v, v] == [v, v, v] && [v] + [v, v, v] == [v, v, v, v];
    assert [4_294_967_295] + [v, v, v, v] == [4_294_967_295, v, v, v, v];
  }

  lemma TenDigits(n: nat)
    requires 1_000_000_000 <= n < 10_000_000_000
    ensures |Digits(n)| == 10
  {
    assert Pow10(9) == 1_000_000_000 by {
      assert Pow10(5) == 100_000;
    }
    assert Pow10(10) == 10_000_000_000;
    DigitsLength(n, 10);
    DigitsAtLeast(n, 10);
  }

  lemma {:induction false} DigitsAtLeast(n: nat, k: nat)
    requires k >= 1 && n >= Pow10(k - 1)
    ensures |Digits(n)| >= k
  {
    if k > 1 {
      DigitsAtLeast(n / 10, k - 1);
    }
  }

  // ---------------------------------------------------------------- the builder

  /** put_char: writes in front of `pos`. */
  method PutChar(buf: array<char>, pos: nat, c: char) returns (ok: bool, at: nat)
    requires pos <= buf.Length
    modifies buf
    ensures ok <==> pos > 0
    ensures ok ==> at == pos - 1 && buf[at..] == [c] + old(buf[pos..])
    ensures !ok ==> buf[..] == old(buf[..])
  {
    if pos == 0 {
      return false, pos;
    }
    ghost var tail := buf[pos..];
    at := pos - 1;
    buf[at] := c;
    assert buf[at..] == [buf[at]] + buf[pos..];
    assert buf[pos..] == tail;
    ok := true;
  }

  /** The magnitude put_i64 computes in unsigned arithmetic: two's complement negation of the bits. */
  function Magnitude(value: i64): nat {
    if value < 0 then (TWO64 - 1 - value % TWO64 + 1) % TWO64 else value
  }

  lemma MagnitudeIsAbs(value: i64)
    ensures Magnitude(value) == if value < 0 then -(value as int) else value
  {
    if value < 0 {
      var v: int := value;
      assert v % TWO64 == v + TWO64;
    }
  }

  /** put_i64 */
  method PutI64(buf: array<char>, pos: nat, value: i64) returns (ok: bool, at: nat)
    requires pos <= buf.Length
    modifies buf
    ensures ok <==> |Decimal(value)| <= pos
    ensures ok ==> at == pos - |Decimal(value)| && buf[at..] == Decimal(value) + old(buf[pos..])
  {
    MagnitudeIsAbs(value);
    ghost var tail := buf[pos..];
    var magnitude := Magnitude(value);
    ghost var all := magnitude;
    ok, at := PutChar(buf, pos, DigitChar(magnitude % 10));
    DigitsPositive(all);
    if !ok {
      return;
    }
    ghost var done := [DigitChar(magnitude % 10)];
    magnitude := magnitude / 10;
    while magnitude != 0
      invariant at <= buf.Length && at + |done| == pos
      invariant buf[at..] == done + tail
      invariant Digits(all) == if magnitude == 0 then done else Digits(magnitude) + done
      decreases magnitude
    {
      ghost var before := buf[at..];
      DigitsPositive(magnitude);
      ok, at := PutChar(buf, at, DigitChar(magnitude % 10));
      if !ok {
        return;
      }
      assert buf[at..] == [DigitChar(magnitude % 10)] + done + tail;
      DigitsLead(magnitude, done);
      done := [DigitChar(magnitude % 10)] + done;
      magnitude := magnitude / 10;
    }
    ok := true;
    if value < 0 {
      ok, at := PutChar(buf, at, '-');
      assert ok ==> buf[at..] == ("-" + done) + tail;
    }
  }

  lemma DigitsPositive(n: nat)
    ensures |Digits(n)| >= 1
  {
  }

  lemma DigitsLead(n: nat, done: string)
    requires n > 0
    ensures Digits(n) + done ==
            if n / 10 == 0 then [DigitChar(n % 10)] + done else Digits(n / 10) + ([DigitChar(n % 10)] + done)
  {
  }

  lemma {:induction false} FieldsSplit(values: seq<int>, i: nat)
    requires i < |values|
    ensures Fields(values[i..]) == " " + Decimal(values[i]) + Fields(values[i + 1..])
  {
    assert values[i..][1..] == values[i + 1..];
  }

  /** line_build: the text ends at the end of the buffer, and the build fails exactly when the text
      does not fit. */
  method Build(buf: array<char>, tag: string, values: seq<i64>) returns (ok: bool, offset: nat, length: nat)
    modifies buf
    ensures ok <==> |LineText(tag, values)| <= buf.Length
    ensures ok ==> offset + length == buf.Length && buf[offset..] == LineText(tag, values)
  {
    offset, length := 0, 0;
    var pos;
    ok, pos := PutChar(buf, buf.Length, '\n');
    if !ok {
      return;
    }
    ok, pos := PutFields(buf, pos, values);
    if !ok {
      return;
    }
    var n := |tag|;
    if n > pos {
      return false, 0, 0;
    }
    ghost var tail := buf[pos..];
    pos := pos - n;
    PutTag(buf, pos, tag);
    assert buf[pos..] == LineText(tag, values) by {
      assert tag + (Fields(values) + "\n") == LineText(tag, values);
    }
    ok, offset, length := true, pos, buf.Length - pos;
  }

  /** The value loop of line_build: from the last value to the first. */
  method PutFields(buf: array<char>, start: nat, values: seq<i64>) returns (ok: bool, pos: nat)
    requires start <= buf.Length
    modifies buf
    ensures ok <==> |Fields(values)| <= start
    ensures ok ==> pos == start - |Fields(values)| && buf[pos..] == Fields(values) + old(buf[start..])
  {
    ghost var end := buf[start..];
    pos, ok := start, true;
    var i := |values|;
    assert Fields(values[i..]) + end == end;
    while i > 0
      invariant i <= |values| && pos <= buf.Length && ok
      invariant buf[pos..] == Fields(values[i..]) + end
      invariant pos == start - |Fields(values[i..])|
    {
      i := i - 1;
      FieldsSplit(values, i);
      FieldsSuffix(values, i);
      ghost var rest := Fields(values[i + 1..]);
      ok, pos := PutField(buf, pos, values[i]);
      if !ok {
        return;
      }
      Regroup(" " + Decimal(values[i]), rest, end);
    }
    assert values[0..] == values;
  }

  lemma Regroup(a: string, b: string, c: string)
    ensures a + (b + c) == a + b + c
  {
  }

  /** One value: its digits, and a blank in front. */
  method PutField(buf: array<char>, start: nat, value: i64) returns (ok: bool, pos: nat)
    requires start <= buf.Length
    modifies buf
    ensures ok <==> |Decimal(value)| + 1 <= start
    ensures ok ==> pos == start - |Decimal(value)| - 1 && buf[pos..] == " " + Decimal(value) + old(buf[start..])
  {
    ghost var end := buf[start..];
    ok, pos := PutI64(buf, start, value);
    if !ok {
      return;
    }
    ok, pos := PutChar(buf, pos, ' ');
    assert ok ==> buf[pos..] == " " + Decimal(value) + end;
  }

  /** memcpy of the tag. */
  method PutTag(buf: array<char>, at: nat, tag: string)
    requires at + |tag| <= buf.Length
    modifies buf
    ensures buf[at..] == tag + old(buf[at + |tag|..])
  {
    ghost var tail := buf[at + |tag|..];
    for k := 0 to |tag|
      invariant buf[at..at + k] == tag[..k]
      invariant buf[at + |tag|..] == tail
    {
      buf[at + k] := tag[k];
      assert buf[at..at + k + 1] == buf[at..at + k] + [buf[at + k]];
    }
    assert buf[at..] == buf[at..at + |tag|] + buf[at + |tag|..];
  }

  /** Later fields are part of the whole text, so if they do not fit, nothing does. */
  lemma {:induction false} FieldsSuffix(values: seq<int>, i: nat)
    requires i <= |values|
    ensures |Fields(values[i..])| <= |Fields(values)|
  {
    if i == 0 {
      assert values[0..] == values;
    } else {
      FieldsSuffix(values[1..], i - 1);
      assert values[1..][i - 1..] == values[i..];
    }
  }
}
