/** 32-bit machine words and what their wrapping subtraction says about unbounded time. */
module Words {

  const TWO31: int := 0x8000_0000
  const TWO32: int := 0x1_0000_0000

  type u32 = x: int | 0 <= x < TWO32
  type u16 = x: int | 0 <= x < 0x1_0000

  /** Truncation of an integer to 32 bits. */
  function Wrap(x: int): u32 { x % TWO32 }

  /** The 32 bits of a word read as a two's complement number. */
  function Signed(x: u32): int {
    if x < TWO31 then x else x - TWO32
  }

  function Next(x: u32): u32 { Wrap(x + 1) }

  datatype Option<T> = None | Some(value: T)

  lemma WrapShift(x: int, k: int)
    ensures (x + k * TWO32) % TWO32 == x % TWO32
  {
    var q := x / TWO32;
    assert x == q * TWO32 + x % TWO32;
    assert x + k * TWO32 == (q + k) * TWO32 + x % TWO32;
  }

  /** Subtracting two wrapped clocks gives the wrapped difference. */
  lemma WrapSub(a: int, b: int)
    ensures Wrap(Wrap(a) - Wrap(b)) == Wrap(a - b)
  {
    WrapShift(a - b, -(a / TWO32) + b / TWO32);
  }

  lemma WrapAdd(a: int, b: int)
    ensures Wrap(Wrap(a) + b) == Wrap(a + b)
  {
    WrapShift(a + b, -(a / TWO32));
  }

  lemma WrapAddBoth(a: int, b: int)
    ensures Wrap(Wrap(a) + Wrap(b)) == Wrap(a + b)
  {
    WrapAdd(a, Wrap(b));
    WrapAdd(b, a);
  }

  /** Adding the wrapped difference leads back to where it was measured. */
  lemma WrapForward(to: u32, from: u32)
    ensures Wrap(from + Wrap(to - from)) == to
  {
    WrapAdd(to - from, from);
  }

  /** An unsigned age test is exact while the true age stays below 2^32. */
  lemma UnsignedAge(now: int, since: int)
    requires 0 <= now - since < TWO32
    ensures Wrap(Wrap(now) - Wrap(since)) == now - since
  {
    WrapSub(now, since);
  }

  /** A signed deadline test is exact while the distance stays within 2^31. */
  lemma SignedDistance(now: int, deadline: int)
    requires -TWO31 <= now - deadline < TWO31
    ensures Signed(Wrap(Wrap(now) - Wrap(deadline))) == now - deadline
  {
    WrapSub(now, deadline);
    if now < deadline {
      WrapShift(now - deadline, 1);
    }
  }
}
