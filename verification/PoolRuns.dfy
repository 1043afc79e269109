/** Whole histories of the pool: what any sequence of requests, releases and resizes keeps. */
module PoolRuns {
  import opened PoolHeap

  datatype Op = Request(bytes: nat) | Give(ptr: nat) | Resize(ptr: nat, bytes: nat)

  function Apply(bs: seq<Block>, op: Op): seq<Block> {
    match op
    case Request(bytes) => AllocResult(bs, bytes).0
    case Give(ptr) => FreeResult(bs, ptr)
    case Resize(ptr, bytes) => ReallocResult(bs, ptr, bytes).0
  }

  /** The block list of an arena [lo, hi) after a history of operations. */
  function After(lo: nat, hi: nat, ops: seq<Op>): seq<Block>
    requires lo <= hi
  {
    if ops == [] then [Block(lo, hi - lo, Idle)]
    else Apply(After(lo, hi, ops[..|ops| - 1]), ops[|ops| - 1])
  }

  ghost predicate Arena(bs: seq<Block>, lo: nat, hi: nat) {
    Tiled(bs, lo, hi) && NoTouch(bs) && NoLoose(bs)
  }

  lemma RequestKeeps(bs: seq<Block>, bytes: nat, lo: nat, hi: nat)
    requires Arena(bs, lo, hi)
    ensures Arena(AllocResult(bs, bytes).0, lo, hi)
  {
    var k := FitIndex(bs, Need(bytes));
    if k < |bs| {
      TakeKeeps(bs, k, Need(bytes), lo, hi);
      TakeLive(bs, k, Need(bytes), lo, hi);
    }
  }

  lemma GiveKeeps(bs: seq<Block>, ptr: nat, lo: nat, hi: nat)
    requires Arena(bs, lo, hi)
    ensures Arena(FreeResult(bs, ptr), lo, hi)
  {
    var i := LiveIndex(bs, ptr);
    if i < |bs| {
      ReleaseKeeps(bs, i, lo, hi);
      ReleaseLive(bs, i);
    }
  }

  lemma ResizeKeeps(bs: seq<Block>, ptr: nat, bytes: nat, lo: nat, hi: nat)
    requires Arena(bs, lo, hi)
    ensures Arena(ReallocResult(bs, ptr, bytes).0, lo, hi)
  {
    if ptr == 0 {
      RequestKeeps(bs, bytes, lo, hi);
      assert ReallocResult(bs, ptr, bytes) == AllocResult(bs, bytes);
    } else if bytes == 0 {
      GiveKeeps(bs, ptr, lo, hi);
      assert ReallocResult(bs, ptr, bytes) == (FreeResult(bs, ptr), 0);
    } else if LiveIndex(bs, ptr) < |bs| && bs[LiveIndex(bs, ptr)].size < bytes + HEADER {
      RequestKeeps(bs, bytes, lo, hi);
      var (bs1, r) := AllocResult(bs, bytes);
      if r != 0 {
        GiveKeeps(bs1, ptr, lo, hi);
        assert ReallocResult(bs, ptr, bytes) == (FreeResult(bs1, ptr), r);
      }
    }
  }

  lemma ApplyKeeps(bs: seq<Block>, op: Op, lo: nat, hi: nat)
    requires Arena(bs, lo, hi)
    ensures Arena(Apply(bs, op), lo, hi)
  {
    match op
    case Request(bytes) => RequestKeeps(bs, bytes, lo, hi);
    case Give(ptr) => GiveKeeps(bs, ptr, lo, hi);
    case Resize(ptr, bytes) =>
      ResizeKeeps(bs, ptr, bytes, lo, hi);
  }

  /** After any history the blocks tile the arena, no two free ones touch, and free and live
      bytes add up to its capacity. */
  lemma {:induction false} HistoryKeepsArena(lo: nat, hi: nat, ops: seq<Op>)
    requires lo % ALIGN == 0 && hi % ALIGN == 0 && lo + MIN_BLOCK <= hi
    ensures Arena(After(lo, hi, ops), lo, hi)
    ensures FreeSum(After(lo, hi, ops)) + LiveSum(After(lo, hi, ops)) == hi - lo
  {
    if ops == [] {
      assert After(lo, hi, ops)[1..] == [];
    } else {
      HistoryKeepsArena(lo, hi, ops[..|ops| - 1]);
      ApplyKeeps(After(lo, hi, ops[..|ops| - 1]), ops[|ops| - 1], lo, hi);
    }
    SumsCover(After(lo, hi, ops), lo, hi);
  }

  /** Fragmentation never outlives the blocks: after any history that leaves nothing live, the
      arena is the one free block it started as. */
  lemma NothingLeaks(lo: nat, hi: nat, ops: seq<Op>)
    requires lo % ALIGN == 0 && hi % ALIGN == 0 && lo + MIN_BLOCK <= hi
    requires LiveCount(After(lo, hi, ops)) == 0
    ensures After(lo, hi, ops) == After(lo, hi, [])
  {
    HistoryKeepsArena(lo, hi, ops);
    NothingLiveIsWhole(After(lo, hi, ops), lo, hi);
  }

  /** Putting a taken block and its remainder back together gives the free block they came from. */
  lemma CoalesceUndoesTake(xs: seq<Block>, f: Block, ys: seq<Block>, need: nat)
    requires f.kind.Idle? && need <= f.size
    requires (xs != [] ==> !xs[|xs| - 1].kind.Idle?) && (ys != [] ==> !ys[0].kind.Idle?)
    ensures Coalesce(xs, Taken(f, need).(kind := Loose), Remainder(f, need) + ys) == xs + [f] + ys
  {
    var x, r := Taken(f, need).(kind := Loose), Remainder(f, need);
    if r == [] {
      assert r + ys == ys;
    } else {
      assert (r + ys)[1..] == ys;
    }
    assert Merged(xs, x, r + ys) == f;
  }

  /** Freeing what was just served restores the block list exactly. */
  lemma FreeUndoesAlloc(bs: seq<Block>, bytes: nat, lo: nat, hi: nat)
    requires Arena(bs, lo, hi) && AllocResult(bs, bytes).1 != 0
    ensures FreeResult(AllocResult(bs, bytes).0, AllocResult(bs, bytes).1) == bs
  {
    var need := Need(bytes);
    var k := FitIndex(bs, need);
    var f, xs, ys := bs[k], bs[..k], bs[k + 1..];
    LoosenedParts(bs, k);
    NoTouchParts(xs, f, ys);
    TakeLive(bs, k, need, lo, hi);
    TakePrefix(bs, k, need);
    CoalesceUndoesTake(xs, f, ys, need);
  }

  lemma TakePrefix(bs: seq<Block>, k: nat, need: nat)
    requires k < |bs| && bs[k].size >= need
    ensures var bs1 := Take(bs, k, need);
            k < |bs1| && bs1[..k] == bs[..k] && bs1[k] == Taken(bs[k], need) &&
            bs1[k + 1..] == Remainder(bs[k], need) + bs[k + 1..]
  {
  }

  /** What a client gets: an aligned payload of at least the size asked for, not in use before,
      and every payload in use keeps its place and size. */
  lemma AllocGives(bs: seq<Block>, bytes: nat, lo: nat, hi: nat)
    requires Arena(bs, lo, hi) && AllocResult(bs, bytes).1 != 0
    ensures var (bs1, r) := AllocResult(bs, bytes);
            && r % ALIGN == 0 && lo + HEADER <= r && r + bytes <= hi
            && LiveAt(bs1, r) && !LiveAt(bs, r)
            && bs1[LiveIndex(bs1, r)].size >= bytes + HEADER
            && forall b :: b in bs && b.kind.Live? ==> b in bs1
  {
    var need := Need(bytes);
    var k := FitIndex(bs, need);
    var (bs1, r) := AllocResult(bs, bytes);
    TakeKeeps(bs, k, need, lo, hi);
    TakeLive(bs, k, need, lo, hi);
    TiledBounds(bs, lo, hi);
    assert bs[k] in bs;
    var i := LiveIndex(bs, r);
    if i < |bs| {
      assert bs[i] in bs;
      DistinctBlocks(bs, lo, hi, i, k);
      assert false;
    }
    forall b | b in bs && b.kind.Live?
      ensures b in bs1
    {
      var l :| 0 <= l < |bs| && bs[l] == b;
      StillLive(bs, k, need, l, b.addr + HEADER, lo, hi);
    }
  }

  /** Payloads in use are aligned and never overlap. */
  lemma PayloadsApart(bs: seq<Block>, p: nat, q: nat, lo: nat, hi: nat)
    requires Arena(bs, lo, hi) && LiveAt(bs, p) && LiveAt(bs, q) && p != q
    ensures p % ALIGN == 0 && lo + HEADER <= p && bs[LiveIndex(bs, p)].End() <= hi
    ensures bs[LiveIndex(bs, p)].End() + HEADER <= q || bs[LiveIndex(bs, q)].End() + HEADER <= p
  {
    var i, j := LiveIndex(bs, p), LiveIndex(bs, q);
    TiledBounds(bs, lo, hi);
    assert bs[i] in bs;
    DistinctBlocks(bs, lo, hi, i, j);
  }

  /** realloc never loses a payload: the pointer it returns holds at least the size asked for,
      and when it returns none for a growing request the old payload is still in use. */
  lemma ReallocKeepsPayload(bs: seq<Block>, ptr: nat, bytes: nat, lo: nat, hi: nat)
    requires Arena(bs, lo, hi) && LiveAt(bs, ptr) && bytes > 0
    ensures var (bs1, r) := ReallocResult(bs, ptr, bytes);
            if r == 0 then bs1 == bs && forall a :: !FreeRun(bs, a, Need(bytes))
            else LiveAt(bs1, r) && bs1[LiveIndex(bs1, r)].size >= bytes + HEADER &&
                 (r != ptr ==> !LiveAt(bs1, ptr))
  {
    NoRunOrLowest(bs, lo, hi, Need(bytes));
    LivePositive(bs, ptr, lo, hi);
    if bs[LiveIndex(bs, ptr)].size < bytes + HEADER && AllocResult(bs, bytes).1 != 0 {
      RelocationKeepsPayload(bs, ptr, bytes, lo, hi);
    }
  }

  lemma LivePositive(bs: seq<Block>, ptr: nat, lo: nat, hi: nat)
    requires Arena(bs, lo, hi) && LiveAt(bs, ptr)
    ensures ptr != 0
  {
  }

  lemma RelocationKeepsPayload(bs: seq<Block>, ptr: nat, bytes: nat, lo: nat, hi: nat)
    requires Arena(bs, lo, hi) && LiveAt(bs, ptr) && AllocResult(bs, bytes).1 != 0
    ensures var (bs1, r) := AllocResult(bs, bytes);
            var bs2 := FreeResult(bs1, ptr);
            LiveAt(bs2, r) && bs2[LiveIndex(bs2, r)].size >= bytes + HEADER && !LiveAt(bs2, ptr)
  {
    AllocGives(bs, bytes, lo, hi);
    RequestKeeps(bs, bytes, lo, hi);
    StillLive(bs, FitIndex(bs, Need(bytes)), Need(bytes), LiveIndex(bs, ptr), ptr, lo, hi);
    FreeOthers(AllocResult(bs, bytes).0, ptr, AllocResult(bs, bytes).1, lo, hi);
  }

  lemma FreeOthers(bs: seq<Block>, p: nat, q: nat, lo: nat, hi: nat)
    requires Arena(bs, lo, hi) && LiveAt(bs, p) && LiveAt(bs, q) && p != q
    ensures var bs1 := FreeResult(bs, p);
            LiveAt(bs1, q) && bs1[LiveIndex(bs1, q)] == bs[LiveIndex(bs, q)] && !LiveAt(bs1, p)
  {
    ReleaseOthers(bs, LiveIndex(bs, p), LiveIndex(bs, q), p, q, lo, hi);
  }

  /** Where block j ends up when block i is released. */
  function Moved(bs: seq<Block>, i: nat, j: nat): int
    requires i < |bs|
  {
    if j < i then j else |LeftRest(bs[..i])| + 1 + (j - i - 1) - (|bs| - i - 1 - |RightRest(bs[i + 1..])|)
  }

  lemma MovedBlock(bs: seq<Block>, i: nat, j: nat)
    requires i < |bs| && j < |bs| && i != j && !bs[j].kind.Idle?
    ensures 0 <= Moved(bs, i, j) < |Release(bs, i)| && Release(bs, i)[Moved(bs, i, j)] == bs[j]
  {
    var xs, ys := bs[..i], bs[i + 1..];
    var pre, post := LeftRest(xs), RightRest(ys);
    if j < i {
      assert xs[j] == bs[j];
      assert pre[j] == xs[j];
    } else {
      assert ys[j - i - 1] == bs[j];
      assert post[j - i - 1 - (|ys| - |post|)] == ys[j - i - 1];
    }
  }

  /** Releasing one block leaves every other live block in use, and its own pointer dead. */
  lemma ReleaseOthers(bs: seq<Block>, i: nat, j: nat, p: nat, q: nat, lo: nat, hi: nat)
    requires Arena(bs, lo, hi) && i < |bs| && j < |bs| && i != j && bs[i].kind.Live? && bs[j].kind.Live?
    requires p == bs[i].addr + HEADER && q == bs[j].addr + HEADER
    ensures var bs1 := Release(bs, i);
            LiveAt(bs1, q) && bs1[LiveIndex(bs1, q)] == bs[j] && !LiveAt(bs1, p)
  {
    ReleaseKeeps(bs, i, lo, hi);
    MovedBlock(bs, i, j);
    LiveIndexOf(Release(bs, i), lo, hi, Moved(bs, i, j));
    ReleasedDead(bs, i, lo, hi);
  }

  lemma ReleasedDead(bs: seq<Block>, i: nat, lo: nat, hi: nat)
    requires Arena(bs, lo, hi) && i < |bs| && bs[i].kind.Live?
    ensures !LiveAt(Release(bs, i), bs[i].addr + HEADER)
  {
    var bs1 := Release(bs, i);
    var m := LiveIndex(bs1, bs[i].addr + HEADER);
    if m < |bs1| {
      var n := FromRelease(bs, i, m);
      assert bs[i] in bs && bs[n] in bs;
      TiledBounds(bs, lo, hi);
      DistinctBlocks(bs, lo, hi, n, i);
      assert false;
    }
  }

  /** Every live block after a release was a live block before it, and another one. */
  lemma FromRelease(bs: seq<Block>, i: nat, m: nat) returns (n: nat)
    requires i < |bs| && m < |Release(bs, i)| && Release(bs, i)[m].kind.Live?
    ensures n < |bs| && n != i && bs[n] == Release(bs, i)[m]
  {
    var xs, ys := bs[..i], bs[i + 1..];
    var pre, post := LeftRest(xs), RightRest(ys);
    if m < |pre| {
      n := m;
    } else {
      n := i + 1 + (|ys| - |post|) + (m - |pre| - 1);
      assert post[m - |pre| - 1] == bs[n];
    }
  }
}
