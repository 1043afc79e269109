/** Wrap-safe accumulation of a free-running 16-bit encoder counter. */
module Encoder {
  import opened Words

  datatype Enc = Enc(ticks: int, prev: u16, sign: int)

  /** now - prev on 16 bits, unfolded to a signed step. */
  function FoldDelta(now: u16, prev: u16): int {
    var raw := (now - prev) % 0x1_0000;
    if raw < 0x8000 then raw else raw - 65536
  }

  function Delta(e: Enc, now: u16): int { e.sign * FoldDelta(now, e.prev) }

  function Update(e: Enc, now: u16): Enc {
    e.(ticks := e.ticks + Delta(e, now), prev := now)
  }

  /** What the counter register shows when the shaft is at `position`. */
  function Counter(position: int): u16 { position % 0x1_0000 }

  /** A shaft is followed exactly if and only if it moves less than half a turn of the counter between
      samples. */
  lemma FoldIsDisplacement(from: int, to: int)
    ensures FoldDelta(Counter(to), Counter(from)) == to - from <==> -32768 <= to - from <= 32767
  {
    if -32768 <= to - from <= 32767 {
      FoldSlow(from, to);
    }
  }

  lemma FoldSlow(from: int, to: int)
    requires -32768 <= to - from <= 32767
    ensures FoldDelta(Counter(to), Counter(from)) == to - from
  {
    var k := from / 0x1_0000 - to / 0x1_0000;
    assert Counter(to) - Counter(from) == (to - from) + k * 0x1_0000;
    if to >= from {
      assert ((to - from) + k * 0x1_0000) % 0x1_0000 == to - from;
    } else {
      assert ((to - from) + k * 0x1_0000) % 0x1_0000 == to - from + 0x1_0000;
    }
  }

  function FeedRaw(e: Enc, raws: seq<u16>): Enc {
    if raws == [] then e else Update(FeedRaw(e, raws[..|raws| - 1]), raws[|raws| - 1])
  }

  function Counters(positions: seq<int>): (raws: seq<u16>)
    ensures |raws| == |positions|
  {
    if positions == [] then [] else Counters(positions[..|positions| - 1]) + [Counter(positions[|positions| - 1])]
  }

  function LastOf(at: int, samples: seq<int>): int { if samples == [] then at else samples[|samples| - 1] }

  /** No step of the sampled positions leaves the range the 16-bit difference can express. */
  ghost predicate SlowEnough(at: int, samples: seq<int>) {
    samples == [] ||
    (SlowEnough(at, samples[..|samples| - 1]) &&
     -32768 <= samples[|samples| - 1] - LastOf(at, samples[..|samples| - 1]) <= 32767)
  }

  /** For any sampling schedule the accumulated ticks are the signed total displacement, however
      often the counter wrapped. */
  lemma {:induction false} TicksAreDisplacement(e: Enc, at: int, samples: seq<int>)
    requires e.prev == Counter(at) && SlowEnough(at, samples)
    ensures FeedRaw(e, Counters(samples)).ticks - e.ticks == e.sign * (LastOf(at, samples) - at)
    ensures FeedRaw(e, Counters(samples)).prev == Counter(LastOf(at, samples))
    ensures FeedRaw(e, Counters(samples)).sign == e.sign
    decreases |samples|
  {
    if samples != [] {
      var before, p := samples[..|samples| - 1], samples[|samples| - 1];
      TicksAreDisplacement(e, at, before);
      FoldIsDisplacement(LastOf(at, before), p);
      assert Counters(samples)[..|samples| - 1] == Counters(before);
      DistributeSign(e.sign, LastOf(at, before) - at, p - LastOf(at, before));
    }
  }

  lemma DistributeSign(s: int, a: int, b: int)
    ensures s * a + s * b == s * (a + b)
  {
  }

  /** encoder_accum_t */
  class Accumulator {
    var ticks: int
    var prev: u16
    var sign: int

    function Value(): Enc
      reads this
    {
      Enc(ticks, prev, sign)
    }

    constructor (sign: int, initial: u16)
      ensures Value() == Enc(0, initial, sign)
    {
      ticks, prev, this.sign := 0, initial, sign;
    }

    method GetDelta(now: u16) returns (d: int)
      ensures d == Delta(Value(), now)
    {
      d := sign * FoldDelta(now, prev);
    }

    method Sample(now: u16)
      modifies this
      ensures Value() == Update(old(Value()), now)
    {
      var d := GetDelta(now);
      ticks := ticks + d;
      prev := now;
    }
  }
}
