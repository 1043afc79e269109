/** The receive ring between the interrupt (only producer) and the IO task (only consumer). */
module RxRing {

  const SIZE: nat := 64

  /** Index arithmetic of the ring: `& (SIZE - 1)` for a power of two. */
  function Wrapped(i: nat): (j: nat)
    ensures j < SIZE && (i < SIZE ==> j == i) && (SIZE <= i < 2 * SIZE ==> j == i - SIZE)
  {
    i % SIZE
  }

  /** The ring as a value: one slot always stays empty, so head == tail means empty. */
  datatype Ring = Ring(buf: seq<char>, head: nat, tail: nat, drops: nat)

  ghost predicate Valid(r: Ring) { |r.buf| == SIZE && r.head < SIZE && r.tail < SIZE }

  function Contents(r: Ring): (s: seq<char>)
    requires |r.buf| == SIZE && r.head < SIZE && r.tail < SIZE
    ensures |s| == if r.tail <= r.head then r.head - r.tail else SIZE - r.tail + r.head
  {
    if r.tail <= r.head then r.buf[r.tail..r.head] else r.buf[r.tail..] + r.buf[..r.head]
  }

  function Push(r: Ring, c: char): (Ring, bool)
    requires |r.buf| == SIZE && r.head < SIZE && r.tail < SIZE
  {
    if Wrapped(r.head + 1) == r.tail then (r.(drops := r.drops + 1), false)
    else (r.(buf := r.buf[r.head := c], head := Wrapped(r.head + 1)), true)
  }

  lemma PushAppends(r: Ring, c: char)
    requires Valid(r)
    ensures var (r1, ok) := Push(r, c);
            && Valid(r1) && r1.tail == r.tail
            && (ok <==> |Contents(r)| < SIZE - 1)
            && Contents(r1) == (if ok then Contents(r) + [c] else Contents(r))
            && (r.head != r.tail ==> r1.head != r1.tail && r1.buf[r.tail] == r.buf[r.tail])
  {
    var (r1, ok) := Push(r, c);
    if ok {
      if r.tail <= r.head && r.head + 1 == SIZE {
        assert r1.buf[r.tail..] + r1.buf[..0] == Contents(r) + [c];
      } else if r.tail <= r.head {
        assert r1.buf[r.tail..r.head + 1] == Contents(r) + [c];
      } else {
        assert r1.buf[r.tail..] == r.buf[r.tail..];
        assert r1.buf[..r.head + 1] == r.buf[..r.head] + [c];
      }
    }
  }

  function PushAll(r: Ring, cs: seq<char>): (r1: Ring)
    requires |r.buf| == SIZE && r.head < SIZE && r.tail < SIZE
    ensures |r1.buf| == SIZE && r1.head < SIZE && r1.tail == r.tail
    decreases |cs|
  {
    if cs == [] then r else PushAll(Push(r, cs[0]).0, cs[1..])
  }

  /** What is left of a burst once the ring is full. */
  function Kept(room: nat, cs: seq<char>): seq<char> { if |cs| <= room then cs else cs[..room] }

  lemma {:induction false} PushAllAppends(r: Ring, cs: seq<char>)
    requires Valid(r)
    ensures var r1 := PushAll(r, cs);
            && Valid(r1) && r1.tail == r.tail
            && Contents(r1) == Contents(r) + Kept(SIZE - 1 - |Contents(r)|, cs)
            && (r.head != r.tail ==> r1.head != r1.tail && r1.buf[r.tail] == r.buf[r.tail])
    decreases |cs|
  {
    if cs != [] {
      PushAppends(r, cs[0]);
      PushAllAppends(Push(r, cs[0]).0, cs[1..]);
      KeptFirst(Contents(r), SIZE - 1 - |Contents(r)|, cs);
    }
  }

  lemma KeptFirst(s: seq<char>, room: nat, cs: seq<char>)
    requires cs != []
    ensures if room == 0 then s + Kept(0, cs[1..]) == s + Kept(0, cs)
            else (s + [cs[0]]) + Kept(room - 1, cs[1..]) == s + Kept(room, cs)
  {
    if room > 0 {
      assert [cs[0]] + Kept(room - 1, cs[1..]) == Kept(room, cs);
    }
  }

  lemma DropFirst(s: seq<char>, t: seq<char>)
    requires s != []
    ensures (s + t)[1..] == s[1..] + t && (s + t)[0] == s[0]
  {
  }

  /** Two bursts are one burst of both. */
  lemma {:induction false} BurstsJoin(r: Ring, burst1: seq<char>, burst2: seq<char>)
    requires Valid(r)
    ensures PushAll(PushAll(r, burst1), burst2) == PushAll(r, burst1 + burst2)
    decreases |burst1|
  {
    if burst1 == [] {
      assert burst1 + burst2 == burst2;
    } else {
      BurstsJoin(Push(r, burst1[0]).0, burst1[1..], burst2);
      assert (burst1 + burst2)[1..] == burst1[1..] + burst2;
    }
  }

  function Pop(r: Ring): Ring
    requires r.tail < SIZE
  {
    r.(tail := Wrapped(r.tail + 1))
  }

  lemma PopTakesFirst(r: Ring)
    requires Valid(r) && r.head != r.tail
    ensures Valid(Pop(r)) && r.buf[r.tail] == Contents(r)[0] && Contents(Pop(r)) == Contents(r)[1..]
  {
  }

  /** Lock-freedom: the consumer reads the indices, then the byte, then publishes the new tail, and
      bursts of pushes may come in between. It still gets the oldest byte, and what remains is what
      a pop before both bursts would have left, with the bursts behind it. */
  lemma PopIsAtomic(r: Ring, burst1: seq<char>, burst2: seq<char>)
    requires Valid(r) && r.head != r.tail
    ensures var r1 := PushAll(r, burst1);
            var r2 := PushAll(r1, burst2);
            var room := SIZE - 1 - |Contents(r)|;
            && r1.buf[r.tail] == Contents(r)[0]
            && Valid(r2) && r2.tail == r.tail
            && Contents(Pop(r2)) == Contents(r)[1..] + Kept(room, burst1 + burst2)
  {
    PopTakesFirst(r);
    PushAllAppends(r, burst1);
    BurstsJoin(r, burst1, burst2);
    PushAllAppends(r, burst1 + burst2);
    PopTakesFirst(PushAll(r, burst1 + burst2));
    DropFirst(Contents(r), Kept(SIZE - 1 - |Contents(r)|, burst1 + burst2));
  }

  /** rx_ring_t */
  class Buffer {
    const buf: array<char>
    var head: nat
    var tail: nat
    var drops: nat

    ghost predicate Ok()
      reads this
    {
      buf.Length == SIZE && head < SIZE && tail < SIZE
    }

    ghost function Value(): Ring
      reads this, buf
    {
      Ring(buf[..], head, tail, drops)
    }

    constructor ()
      ensures Ok() && fresh(buf) && Contents(Value()) == [] && drops == 0
    {
      buf := new char[SIZE];
      head, tail, drops := 0, 0, 0;
    }

    method PushByte(c: char) returns (ok: bool)
      requires Ok()
      modifies this, buf
      ensures Ok() && (Value(), ok) == Push(old(Value()), c)
      ensures ok <==> |old(Contents(Value()))| < SIZE - 1
      ensures Contents(Value()) == if ok then old(Contents(Value())) + [c] else old(Contents(Value()))
    {
      PushAppends(Value(), c);
      var next := Wrapped(head + 1);
      if next == tail {
        drops := drops + 1;
        return false;
      }
      buf[head] := c;
      head := next;
      ok := true;
    }

    method PopByte() returns (c: char, ok: bool)
      requires Ok()
      modifies this`tail
      ensures Ok()
      ensures ok <==> old(Contents(Value())) != []
      ensures ok ==> c == old(Contents(Value()))[0] && Contents(Value()) == old(Contents(Value()))[1..]
      ensures !ok ==> Value() == old(Value())
    {
      c := '\0';
      if tail == head {
        return c, false;
      }
      PopTakesFirst(Value());
      c := buf[tail];
      tail := Wrapped(tail + 1);
      ok := true;
    }

    method DiscardAll()
      requires Ok()
      modifies this`tail
      ensures Ok() && Contents(Value()) == []
    {
      tail := head;
    }
  }
}
