/** Event keys that sort by time: eight digits of the time and twelve of chance, in an alphabet of 64
    characters. */
module PushIds {

  const NUMERALS: string := "0123456789"
  const UPPER: string := "ABCDEFGHIJKLMNOPQRSTUVWXYZ"
  const LOWER: string := "abcdefghijklmnopqrstuvwxyz"
  const PUSH_CHARS: string := "-" + NUMERALS + UPPER + "_" + LOWER

  const HEAD: nat := 8
  const TAIL: nat := 12

  /** 64 to the power of HEAD */
  const TIME_LIMIT: nat := 0x1_0000_0000_0000

  type Digit = d: int | 0 <= d < 64

  function Char(d: Digit): char { PUSH_CHARS[d] }

  /** The character codes of the alphabet, piece by piece. */
  function Code(d: Digit): int {
    if d == 0 then 45 else if d < 11 then 47 + d else if d < 37 then 54 + d else if d == 37 then 95 else 59 + d
  }

  lemma PieceCodes(i: nat)
    ensures i < 10 ==> NUMERALS[i] as int == 48 + i
    ensures i < 26 ==> UPPER[i] as int == 65 + i && LOWER[i] as int == 97 + i
  {
  }

  lemma CharCode(d: Digit)
    ensures Char(d) as int == Code(d)
  {
    if 0 < d < 11 {
      PieceCodes(d - 1);
      assert PUSH_CHARS[d] == NUMERALS[d - 1];
    } else if 11 <= d < 37 {
      PieceCodes(d - 11);
      assert PUSH_CHARS[d] == UPPER[d - 11];
    } else if 37 < d {
      PieceCodes(d - 38);
      assert PUSH_CHARS[d] == LOWER[d - 38];
    }
  }

  /** The alphabet is in the order of its character codes. */
  lemma AlphabetSorted(d: Digit, e: Digit)
    ensures d < e <==> Char(d) < Char(e)
    ensures d == e <==> Char(d) == Char(e)
  {
    CharCode(d);
    CharCode(e);
  }

  function Text(ds: seq<Digit>): (s: string)
    ensures |s| == |ds| && forall i :: 0 <= i < |s| ==> s[i] == Char(ds[i])
  {
    seq(|ds|, i requires 0 <= i < |ds| => Char(ds[i]))
  }

  /** The order of strings: by the first character that differs, a prefix before what it begins. */
  predicate Before(s: string, t: string) {
    t != "" && (s == "" || s[0] < t[0] || (s[0] == t[0] && Before(s[1..], t[1..])))
  }

  /** The number the digits stand for. */
  function Num(ds: seq<Digit>): nat { if ds == [] then 0 else Num(ds[..|ds| - 1]) * 64 + ds[|ds| - 1] }

  lemma {:induction false} BeforeSnoc(s: string, t: string, x: char, y: char)
    requires |s| == |t|
    ensures Before(s + [x], t + [y]) <==> Before(s, t) || (s == t && x < y)
    decreases |s|
  {
    if s == "" {
      assert s + [x] == [x] && t + [y] == [y];
    } else {
      assert (s + [x])[1..] == s[1..] + [x] && (t + [y])[1..] == t[1..] + [y];
      BeforeSnoc(s[1..], t[1..], x, y);
      assert s == [s[0]] + s[1..] && t == [t[0]] + t[1..];
    }
  }

  /** The texts of numbers of equally many digits are ordered as the numbers are. */
  lemma {:induction false} OrderIsNumeric(a: seq<Digit>, b: seq<Digit>)
    requires |a| == |b|
    ensures Before(Text(a), Text(b)) <==> Num(a) < Num(b)
    ensures Text(a) == Text(b) <==> Num(a) == Num(b)
    decreases |a|
  {
    if a != [] {
      var n := |a| - 1;
      OrderIsNumeric(a[..n], b[..n]);
      AlphabetSorted(a[n], b[n]);
      TextSnoc(a);
      TextSnoc(b);
      NumSnoc(a, b);
      BeforeSnoc(Text(a[..n]), Text(b[..n]), Char(a[n]), Char(b[n]));
      SameSnoc(Text(a[..n]), Text(b[..n]), Char(a[n]), Char(b[n]));
    }
  }

  lemma TextSnoc(a: seq<Digit>)
    requires a != []
    ensures Text(a) == Text(a[..|a| - 1]) + [Char(a[|a| - 1])]
  {
  }

  lemma NumSnoc(a: seq<Digit>, b: seq<Digit>)
    requires |a| == |b| != 0
    ensures var n := |a| - 1;
            && (Num(a) < Num(b) <==> Num(a[..n]) < Num(b[..n]) || (Num(a[..n]) == Num(b[..n]) && a[n] < b[n]))
            && (Num(a) == Num(b) <==> Num(a[..n]) == Num(b[..n]) && a[n] == b[n])
  {
  }

  lemma SameSnoc(s: string, t: string, x: char, y: char)
    requires |s| == |t|
    ensures s + [x] == t + [y] <==> s == t && x == y
  {
    if s + [x] == t + [y] {
      assert (s + [x])[..|s|] == s && (t + [y])[..|t|] == t;
      assert (s + [x])[|s|] == x && (t + [y])[|t|] == y;
    }
  }

  lemma {:induction false} BeforeJoin(s1: string, s2: string, t1: string, t2: string)
    requires |s1| == |t1|
    ensures Before(s1 + s2, t1 + t2) <==> Before(s1, t1) || (s1 == t1 && Before(s2, t2))
    decreases |s1|
  {
    if s1 == "" {
      assert s1 + s2 == s2 && t1 + t2 == t2;
    } else {
      assert (s1 + s2)[1..] == s1[1..] + s2 && (t1 + t2)[1..] == t1[1..] + t2;
      BeforeJoin(s1[1..], s2, t1[1..], t2);
      assert s1 == [s1[0]] + s1[1..] && t1 == [t1[0]] + t1[1..];
    }
  }

  lemma {:induction false} BeforeTransitive(s: string, t: string, u: string)
    requires Before(s, t) && Before(t, u)
    ensures Before(s, u)
    decreases |s|
  {
    if s != "" && s[0] == t[0] && t[0] == u[0] {
      BeforeTransitive(s[1..], t[1..], u[1..]);
    }
  }

  // ---------------------------------------------------------------- the two halves

  /** The last n digits of a number. */
  function Digits(v: nat, n: nat): (ds: seq<Digit>)
    ensures |ds| == n
  {
    if n == 0 then [] else Digits(v / 64, n - 1) + [v % 64]
  }

  function Pow64(n: nat): nat { if n == 0 then 1 else 64 * Pow64(n - 1) }

  /** A number that fits its digits is what they stand for. */
  lemma {:induction false} DigitsMean(v: nat, n: nat)
    requires v < Pow64(n)
    ensures Num(Digits(v, n)) == v
  {
    if n > 0 {
      DigitsMean(v / 64, n - 1);
      assert Digits(v, n)[..n - 1] == Digits(v / 64, n - 1);
    }
  }

  lemma TimeFits()
    ensures Pow64(HEAD) == TIME_LIMIT
  {
    assert Pow64(4) == 0x100_0000;
  }

  predicate AllMax(ds: seq<Digit>) { forall i :: 0 <= i < |ds| ==> ds[i] == 63 }

  /** One more, by carrying; the highest number of all starts over. */
  function Succ(ds: seq<Digit>): (r: seq<Digit>)
    ensures |r| == |ds|
  {
    if ds == [] then []
    else if ds[|ds| - 1] == 63 then Succ(ds[..|ds| - 1]) + [0]
    else ds[..|ds| - 1] + [ds[|ds| - 1] + 1]
  }

  lemma {:induction false} SuccMeans(ds: seq<Digit>)
    ensures Num(Succ(ds)) == if AllMax(ds) then 0 else Num(ds) + 1
    decreases |ds|
  {
    if ds != [] {
      var n := |ds| - 1;
      SuccMeans(ds[..n]);
      assert Succ(ds)[..n] == if ds[n] == 63 then Succ(ds[..n]) else ds[..n];
      assert AllMax(ds) <==> AllMax(ds[..n]) && ds[n] == 63 by {
        assert forall i :: 0 <= i < n ==> ds[..n][i] == ds[i];
      }
    }
  }

  // ---------------------------------------------------------------- runs of the generator

  function IdOf(ts: nat, rand: seq<Digit>): string { Text(Digits(ts, HEAD)) + Text(rand) }

  /** A call, with the chance digits it would draw. */
  datatype Call = Call(ts: nat, chance: seq<Digit>)

  predicate WellFormed(c: Call) { |c.chance| == TAIL && c.ts < TIME_LIMIT }

  /** The chance part after a call that follows one at `lastTs`. */
  function Rand(lastTs: int, lastRand: seq<Digit>, c: Call): (r: seq<Digit>)
    ensures |lastRand| == |c.chance| ==> |r| == |lastRand|
  {
    if c.ts == lastTs then Succ(lastRand) else c.chance
  }

  function LastTs(calls: seq<Call>): int { if calls == [] then -1 else calls[|calls| - 1].ts }

  function LastRand(calls: seq<Call>): (r: seq<Digit>)
    requires forall c :: c in calls ==> WellFormed(c)
    ensures |r| == TAIL
  {
    if calls == [] then [0, 0, 0, 0, 0, 0, 0, 0, 0, 0, 0, 0]
    else
      var before := calls[..|calls| - 1];
      var c := calls[|calls| - 1];
      assert c in calls && WellFormed(c);
      Rand(LastTs(before), LastRand(before), c)
  }

  function LastId(calls: seq<Call>): string
    requires calls != [] && forall c :: c in calls ==> WellFormed(c)
  {
    IdOf(calls[|calls| - 1].ts, LastRand(calls))
  }

  /** Two keys in a row are in order exactly if time went on, or it stood still and the chance part was
      not at its end. */
  lemma NextIsLater(ts: nat, rand: seq<Digit>, c: Call)
    requires |rand| == TAIL && ts <= c.ts && WellFormed(c)
    ensures Before(IdOf(ts, rand), IdOf(c.ts, Rand(ts, rand, c))) <==> ts < c.ts || !AllMax(rand)
  {
    TimeFits();
    DigitsMean(ts, HEAD);
    DigitsMean(c.ts, HEAD);
    var rand1 := Rand(ts, rand, c);
    OrderIsNumeric(Digits(ts, HEAD), Digits(c.ts, HEAD));
    OrderIsNumeric(rand, rand1);
    SuccMeans(rand);
    BeforeJoin(Text(Digits(ts, HEAD)), Text(rand), Text(Digits(c.ts, HEAD)), Text(rand1));
  }

  /** No call finds the chance part at its end within the millisecond of the call before. */
  predicate NoOverflow(calls: seq<Call>)
    requires forall c :: c in calls ==> WellFormed(c)
  {
    |calls| < 2 ||
    (var before := calls[..|calls| - 1];
     NoOverflow(before) && (calls[|calls| - 1].ts == LastTs(before) ==> !AllMax(LastRand(before))))
  }

  predicate InOrder(calls: seq<Call>) {
    |calls| < 2 || (InOrder(calls[..|calls| - 1]) && calls[|calls| - 2].ts <= calls[|calls| - 1].ts)
  }

  /** For times that do not go back, the keys are strictly increasing as strings, however many there are
      within one millisecond, as long as its chance part does not run out. */
  lemma {:induction false} KeysSortByTime(calls: seq<Call>, i: nat)
    requires forall c :: c in calls ==> WellFormed(c)
    requires InOrder(calls) && NoOverflow(calls) && i + 1 < |calls|
    ensures Before(LastId(calls[..i + 1]), LastId(calls))
    decreases |calls|
  {
    var n := |calls| - 1;
    var before := calls[..n];
    NextIsLater(before[n - 1].ts, LastRand(before), calls[n]);
    assert Before(LastId(before), LastId(calls));
    if i + 1 < n {
      KeysSortByTime(before, i);
      assert before[..i + 1] == calls[..i + 1];
      BeforeTransitive(LastId(calls[..i + 1]), LastId(before), LastId(calls));
    } else {
      assert calls[..i + 1] == before;
    }
  }

  // ---------------------------------------------------------------- the generator

  class Generator {
    var lastTs: int
    var lastRand: array<Digit>

    ghost predicate Valid()
      reads this, lastRand
    {
      lastRand.Length == TAIL
    }

    constructor ()
      ensures Valid() && fresh(lastRand) && lastTs == LastTs([]) && lastRand[..] == LastRand([])
    {
      lastTs := -1;
      lastRand := new Digit[TAIL](_ => 0);
      new;
      assert lastRand[..] == [0, 0, 0, 0, 0, 0, 0, 0, 0, 0, 0, 0];
    }

    /** The carry loop. */
    method Increment()
      requires Valid()
      modifies lastRand
      ensures lastRand[..] == Succ(old(lastRand[..]))
    {
      ghost var ds := lastRand[..];
      var i := TAIL - 1;
      assert ds[..TAIL] == ds;
      while i >= 0 && lastRand[i] == 63
        invariant -1 <= i < TAIL
        invariant lastRand[..i + 1] == ds[..i + 1] && forall k :: i < k < TAIL ==> lastRand[k] == 0
        invariant |Succ(ds)| == TAIL && Succ(ds) == Succ(ds[..i + 1]) + Succ(ds)[i + 1..]
        invariant forall k :: i < k < TAIL ==> Succ(ds)[k] == 0
      {
        assert ds[..i + 1][..i] == ds[..i] && ds[i] == 63;
        assert lastRand[..i] == lastRand[..i + 1][..i];
        lastRand[i] := 0;
        i := i - 1;
      }
      if i >= 0 {
        assert lastRand[i] == ds[i] && ds[..i + 1][..i] == ds[..i];
        lastRand[i] := lastRand[i] + 1;
      }
      assert forall k :: 0 <= k < TAIL ==> lastRand[k] == Succ(ds)[k];
    }

    /** The time part: eight digits collected from the last one on, and turned round. */
    method Head(ts: nat) returns (s: string)
      ensures s == Text(Digits(ts, HEAD))
    {
      var rest := ts;
      var ds: seq<Digit> := [];
      for k := 0 to HEAD
        invariant |ds| == k && Digits(ts, HEAD) == Digits(rest, HEAD - k) + Reversed(ds)
      {
        assert Reversed(ds + [rest % 64]) == [rest % 64] + Reversed(ds);
        ds := ds + [rest % 64];
        rest := rest / 64;
      }
      s := Text(Reversed(ds));
    }

    /** PushIds.__call__ */
    method Make(ts: nat, chance: seq<Digit>) returns (id: string)
      requires Valid() && |chance| == TAIL
      modifies this, lastRand
      ensures Valid() && lastTs == ts && (lastRand == old(lastRand) || fresh(lastRand))
      ensures lastRand[..] == Rand(old(lastTs), old(lastRand[..]), Call(ts, chance))
      ensures id == IdOf(ts, lastRand[..])
    {
      if ts == lastTs {
        Increment();
      } else {
        lastRand := new Digit[TAIL](i requires 0 <= i < TAIL => chance[i]);
        lastTs := ts;
        assert lastRand[..] == chance;
      }
      var head := Head(ts);
      id := head + Text(lastRand[..]);
    }
  }

  function Reversed(ds: seq<Digit>): (r: seq<Digit>)
    ensures |r| == |ds|
  {
    if ds == [] then [] else [ds[|ds| - 1]] + Reversed(ds[..|ds| - 1])
  }
}
