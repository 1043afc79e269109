/** First-fit allocator with an address-ordered free list over one stretch of RAM. Pointers are
    absolute addresses into `ram`, and every header field is read from and written to its bytes
    there, so a stale header inside a payload is as real as it is on the target. */
module StaticPool {
  import opened PoolHeap
  import opened PoolLinks

  const NULL: nat := 0

  /** The address of the list head `start`, which lives outside the pool. */
  const START: nat := ADDRESS_SPACE

  /** A uint32 counter after one more event. */
  function Inc(n: nat): nat { (n + 1) % ADDRESS_SPACE }

  /** A word is its four bytes, the lowest first. */
  lemma WordBytes(v: nat)
    requires v < ADDRESS_SPACE
    ensures v == v % 0x100 + 0x100 * (v / 0x100 % 0x100) + 0x1_0000 * (v / 0x1_0000 % 0x100)
                 + 0x100_0000 * (v / 0x100_0000)
    ensures v / 0x100_0000 < 0x100
  {
    var w := v / 0x100;
    assert v / 0x1_0000 == w / 0x100 && v / 0x100_0000 == w / 0x100 / 0x100;
  }

  datatype Metrics = Metrics(capacity: nat, freeBytes: nat, freeBytesMin: nat, largest: nat,
                             allocCount: nat, freeCount: nat, allocFail: nat, invalidFree: nat,
                             liveBlocks: nat)

  class Pool {
    const ram: array<byte>
    var startNext: nat
    var base: nat
    var end: nat
    var capacity: nat
    var freeBytes: nat
    var freeBytesMin: nat
    var allocCount: nat
    var freeCount: nat
    var allocFailCount: nat
    var invalidFreeCount: nat
    var liveBlocks: nat
    ghost var blocks: seq<Block>

    /** The headers in memory are those of `blocks`, which tile the arena. */
    ghost predicate Shape()
      reads this, ram
    {
      && 0 < capacity && base + capacity == end
      && Formed(ram[..], blocks, startNext, base, end)
    }

    ghost predicate Valid()
      reads this, ram
    {
      && freeBytesMin <= freeBytes == FreeSum(blocks)
      && liveBlocks == LiveCount(blocks)
      && (if capacity == 0 then blocks == [] && startNext == NULL
          else Shape() && NoTouch(blocks) && NoLoose(blocks))
    }

    // ------------------------------------------------------------- memory access

    method PutWord(a: nat, v: nat)
      requires a + 4 <= ram.Length && v < ADDRESS_SPACE
      modifies ram
      ensures Word(ram[..], a) == v
      ensures forall i :: 0 <= i < ram.Length && !(a <= i < a + 4) ==> ram[i] == old(ram[i])
    {
      WordBytes(v);
      ram[a] := v % 0x100;
      ram[a + 1] := v / 0x100 % 0x100;
      ram[a + 2] := v / 0x1_0000 % 0x100;
      ram[a + 3] := v / 0x100_0000;
    }

    method PutNext(a: nat, v: nat)
      requires a + HEADER <= ram.Length && v < ADDRESS_SPACE
      modifies ram
      ensures NextOf(ram[..], a) == v && SizeOf(ram[..], a) == old(SizeOf(ram[..], a))
      ensures forall i :: 0 <= i < ram.Length && !(a <= i < a + HEADER) ==> ram[i] == old(ram[i])
    {
      PutWord(a, v);
    }

    method PutSize(a: nat, v: nat)
      requires a + HEADER <= ram.Length && v < ADDRESS_SPACE
      modifies ram
      ensures SizeOf(ram[..], a) == v && NextOf(ram[..], a) == old(NextOf(ram[..], a))
      ensures forall i :: 0 <= i < ram.Length && !(a <= i < a + HEADER) ==> ram[i] == old(ram[i])
    {
      PutWord(a + 4, v);
    }

    method PutHeader(a: nat, next: nat, size: nat)
      requires a + HEADER <= ram.Length && next < ADDRESS_SPACE && size < ADDRESS_SPACE
      modifies ram
      ensures SizeOf(ram[..], a) == size && NextOf(ram[..], a) == next
      ensures OnlyAt(old(ram[..]), ram[..], a, a)
    {
      PutSize(a, size);
      PutNext(a, next);
    }

    /** `p->next`, for a header in memory and for the list head. */
    function Link(p: nat): nat
      requires p == START || p + HEADER <= ram.Length
      reads this, ram
    {
      if p == START then startNext else NextOf(ram[..], p)
    }

    method PutLink(p: nat, v: nat)
      requires p == START || p + HEADER <= ram.Length
      requires v < ADDRESS_SPACE
      modifies this`startNext, ram
      ensures Link(p) == v
      ensures p == START ==> ram[..] == old(ram[..])
      ensures p != START ==> startNext == old(startNext) && SizeOf(ram[..], p) == old(SizeOf(ram[..], p))
      ensures forall i :: 0 <= i < ram.Length && !(p <= i < p + HEADER) ==> ram[i] == old(ram[i])
    {
      if p == START {
        startNext := v;
      } else {
        PutNext(p, v);
      }
    }

    // ------------------------------------------------------------- the free list

    /** Walks to the last list element below `loose`; the ghost results say where it stands. */
    method FindPlace(loose: nat, ghost xs: seq<Block>, ghost nx: nat)
      returns (iter: nat, ghost p: seq<Block>, ghost s: seq<Block>)
      requires Tiled(xs, base, loose) && Chained(ram[..], xs, nx) && startNext == FirstFree(xs, nx)
      requires loose <= nx && loose <= ram.Length <= ADDRESS_SPACE
      ensures iter == START || iter + MIN_BLOCK <= loose
      ensures xs == p + s && NoFree(s) && Link(iter) == nx
      ensures if iter == START then p == []
              else p != [] && p[|p| - 1].kind.Idle? && p[|p| - 1].addr == iter
    {
      TiledBounds(xs, base, loose);
      iter, p, s := START, [], xs;
      assert xs == p + s;
      while Link(iter) < loose
        invariant iter == START || iter + MIN_BLOCK <= loose
        invariant xs == p + s
        invariant if iter == START then p == []
                  else p != [] && p[|p| - 1].kind.Idle? && p[|p| - 1].addr == iter
        invariant Link(iter) == FirstFree(s, nx)
        decreases |s|
      {
        FirstFreeNone(s, nx);
        ghost var pre, f, post := SplitFirstFree(s, nx);
        assert f in s;
        assert f in xs;
        assert xs == (p + pre) + [f] + post;
        ChainedParts(ram[..], p + pre, f, post, nx);
        iter := Link(iter);
        p, s := p + pre + [f], post;
      }
      FirstFreeBelow(p, s, base, loose, nx);
      FirstFreeNone(s, nx);
    }

    /** Lets the list element before `loose` take it over if the two touch. */
    method AbsorbLeft(iter: nat, loose: nat, ghost size: nat, ghost touching: bool) returns (block: nat)
      requires loose + HEADER <= ram.Length && (iter == START || iter + MIN_BLOCK <= loose)
      requires SizeOf(ram[..], loose) == size
      requires touching <==> iter != START && iter + SizeOf(ram[..], iter) == loose
      requires touching ==> SizeOf(ram[..], iter) + size < ADDRESS_SPACE
      modifies ram
      ensures block == if touching then iter else loose
      ensures SizeOf(ram[..], block) == size + if touching then loose - iter else 0
      ensures Link(iter) == old(Link(iter))
      ensures if touching then forall i :: 0 <= i < ram.Length && !(iter <= i < iter + HEADER) ==> ram[i] == old(ram[i])
              else ram[..] == old(ram[..])
    {
      block := loose;
      if iter != START && iter + SizeOf(ram[..], iter) == block {
        PutSize(iter, SizeOf(ram[..], iter) + SizeOf(ram[..], block));
        block := iter;
      }
    }

    /** Lets `b` take over the free block behind it if the two touch, and links it onward. */
    method AbsorbRight(block: nat, after: nat, ghost b: Block, ghost ys: seq<Block>)
      requires end + HEADER <= ram.Length <= ADDRESS_SPACE
      requires b.addr == block && WellSized(b) && b.End() <= end && SizeOf(ram[..], block) == b.size
      requires Tiled(ys, b.End(), end) && Chained(ram[..], ys, end) && after == FirstFree(ys, end)
      modifies ram
      ensures HeaderOk(ram[..], Merged([], b, ys), FirstFree(RightRest(ys), end))
      ensures forall i :: 0 <= i < ram.Length && !(block <= i < block + HEADER) ==> ram[i] == old(ram[i])
    {
      TiledBounds(ys, b.End(), end);
      FreeAddrBound(ys, b.End(), end);
      if block + SizeOf(ram[..], block) == after {
        if after != end {
          TiledBounds(ys[1..], ys[0].End(), end);
          FreeAddrBound(ys[1..], ys[0].End(), end);
          PutSize(block, SizeOf(ram[..], block) + SizeOf(ram[..], after));
          AgreeHeader(old(ram[..]), ram[..], after);
          PutNext(block, NextOf(ram[..], after));
        } else {
          PutNext(block, end);
        }
      } else {
        PutNext(block, after);
      }
    }

    /** Merges `x` with what it touches; the result is linked onward, but nothing leads to it yet. */
    method Absorb(iter: nat, loose: nat, ghost left: bool, ghost x: Block, ghost ys: seq<Block>, ghost b: Block)
      returns (block: nat)
      requires end + HEADER <= ram.Length <= ADDRESS_SPACE
      requires Tiled(ys, x.End(), end) && x.End() <= end && Chained(ram[..], ys, end)
      requires WellSized(x) && x.addr == loose && SizeOf(ram[..], loose) == x.size
      requires iter == START || iter + MIN_BLOCK <= loose
      requires left <==> iter != START && iter + SizeOf(ram[..], iter) == loose
      requires WellSized(b) && b.addr == (if left then iter else loose) && b.End() == x.End()
      requires Link(iter) == FirstFree(ys, end)
      modifies ram
      ensures block == b.addr
      ensures HeaderOk(ram[..], Merged([], b, ys), FirstFree(RightRest(ys), end))
      ensures OnlyAt(old(ram[..]), ram[..], block, block)
    {
      block := AbsorbLeft(iter, loose, x.size, left);
      AbsorbedTail(old(ram[..]), ram[..], b, ys, end);
      AbsorbRight(block, Link(iter), b, ys);
    }

    /** Links the merged block behind `iter`. */
    method LinkIn(iter: nat, block: nat, ghost f: Block, ghost n: Block, ghost q: nat)
      requires iter == START || (iter + HEADER <= ram.Length && f.addr == iter && f.kind.Idle?)
      requires block + HEADER <= ram.Length <= ADDRESS_SPACE
      requires n.addr == block && HeaderOk(ram[..], n, q) && n.kind.Idle?
      requires iter != START && iter != block ==> SizeOf(ram[..], iter) == f.size && iter + HEADER <= block
      modifies this`startNext, ram
      ensures HeaderOk(ram[..], n, q)
      ensures startNext == if iter == START then block else old(startNext)
      ensures iter != START && iter != block ==> HeaderOk(ram[..], f, block)
      ensures var at := if iter == START then block else iter; OnlyAt(old(ram[..]), ram[..], at, at)
    {
      if iter != block {
        PutLink(iter, block);
        AgreeHeader(old(ram[..]), ram[..], block);
      }
    }

    /** Finds the place of `x`, merges it there and links it in: the memory side of an insertion.
        `m1` is the memory before the link that leads to the merged block is written. */
    method Place(loose: nat, ghost xs: seq<Block>, ghost x: Block, ghost ys: seq<Block>)
      returns (ghost p: seq<Block>, ghost s: seq<Block>, ghost m1: seq<byte>)
      requires Tiled(xs, base, loose) && Tiled(ys, x.End(), end) && WellSized(x) && x.End() <= end
      requires end + HEADER <= ram.Length <= ADDRESS_SPACE
      requires x.addr == loose && SizeOf(ram[..], loose) == x.size
      requires Chained(ram[..], xs, FirstFree(ys, end)) && Chained(ram[..], ys, end)
      requires startNext == FirstFree(xs, FirstFree(ys, end))
      modifies this`startNext, ram
      ensures xs == p + s && NoFree(s) && (p != [] ==> p[|p| - 1].kind.Idle?)
      ensures var n := Merged(xs, x, ys);
              var at := if p == [] then n.addr else p[|p| - 1].addr;
              && OnlyAt(old(ram[..]), m1, n.addr, n.addr) && OnlyAt(m1, ram[..], at, at)
              && HeaderOk(ram[..], n, FirstFree(RightRest(ys), end))
              && (p != [] && at != n.addr ==> HeaderOk(ram[..], p[|p| - 1], n.addr))
              && startNext == if p == [] then n.addr else old(startNext)
    {
      ghost var m0 := ram[..];
      TiledBounds(ys, x.End(), end);
      FreeAddrBound(ys, x.End(), end);
      var iter;
      iter, p, s := FindPlace(loose, xs, FirstFree(ys, end));
      LastFree(m0, p, s, base, x.addr, FirstFree(ys, end));
      ghost var f := if p == [] then x else p[|p| - 1];
      ghost var left := p != [] && f.End() == loose;
      ghost var b := Front(p, s, x, ys, base);
      assert left <==> iter != START && iter + SizeOf(m0, iter) == loose;
      var block := Absorb(iter, loose, left, x, ys, b);
      m1 := ram[..];
      if iter != START && iter != block {
        AgreeHeader(m0, m1, iter);
      }
      LinkIn(iter, block, f, Merged(xs, x, ys), FirstFree(RightRest(ys), end));
    }

    /** The insertion as a change of memory alone. */
    method Insert(loose: nat, ghost xs: seq<Block>, ghost x: Block, ghost ys: seq<Block>)
      requires Formed(ram[..], xs + [x] + ys, startNext, base, end)
      requires x.kind.Loose? && x.addr == loose && NoTouch(xs) && NoTouch(ys)
      modifies this`startNext, ram
      ensures Formed(ram[..], Coalesce(xs, x, ys), startNext, base, end)
      ensures OnlyHeaders(old(ram[..]), ram[..], xs + [x])
      ensures loose + HEADER <= ram.Length && SizeOf(ram[..], loose) < ALLOC_BIT
    {
      ghost var m0, first := ram[..], startNext;
      InsertReady(m0, xs, x, ys, base, end);
      ghost var p, s, m1 := Place(loose, xs, x, ys);
      InsertDone(m0, m1, ram[..], xs, p, s, x, ys, base, end, first, startNext);
    }

    /** Puts the loose block `x` back, merging it with the free blocks that touch it. */
    method InsertFree(loose: nat, ghost xs: seq<Block>, ghost x: Block, ghost ys: seq<Block>)
      requires Shape() && blocks == xs + [x] + ys
      requires x.kind.Loose? && x.addr == loose && NoTouch(xs) && NoTouch(ys)
      modifies this`startNext, this`blocks, ram
      ensures Shape() && blocks == Coalesce(xs, x, ys)
      ensures OnlyHeaders(old(ram[..]), ram[..], xs + [x])
      ensures loose + HEADER <= ram.Length && SizeOf(ram[..], loose) < ALLOC_BIT
    {
      Insert(loose, xs, x, ys);
      blocks := Coalesce(xs, x, ys);
    }

    // ------------------------------------------------------------- allocation

    /** First fit: walks the list to the first block of at least `need` bytes, or to the end. */
    method FindFit(need: nat) returns (prev: nat, block: nat, ghost p: seq<Block>, ghost s: seq<Block>)
      requires Shape()
      ensures var i := FitIndex(blocks, need);
              && block == (if i < |blocks| then blocks[i].addr else end)
              && (i < |blocks| ==> block < end && blocks[..i] == p + s)
      ensures NoFree(s) && (p != [] ==> p[|p| - 1].kind.Idle?)
      ensures prev == (if p == [] then START else p[|p| - 1].addr)
      ensures FitIndex(blocks, need) < |blocks| ==> (prev == START || prev + MIN_BLOCK <= end) && Link(prev) == block
    {
      ghost var m, bs := ram[..], blocks;
      prev, block, p := START, startNext, [];
      ghost var t := bs;
      FreeAddrBound(bs, base, end);
      while block != end && SizeOf(ram[..], block) < need
        invariant bs == p + t && Fits(p, need) == 0
        invariant p != [] ==> p[|p| - 1].kind.Idle?
        invariant prev == if p == [] then START else p[|p| - 1].addr
        invariant prev == START || prev + MIN_BLOCK <= end
        invariant Link(prev) == block == FirstFree(t, end)
        invariant block <= end
        decreases |t|
      {
        ghost var pre, f, post := NextFree(m, bs, p, t, base, end);
        FitsConcat(p, pre, f, need);
        p, t := p + pre + [f], post;
        prev := block;
        block := NextOf(ram[..], block);
      }
      s := ScanEnds(m, bs, p, t, need, base, end);
    }

    /** Takes the free block f off the list. */
    method Unlink(prev: nat, block: nat, ghost p: seq<Block>, ghost s: seq<Block>, ghost f: Block, ghost ys: seq<Block>)
      requires Shape() && blocks == p + s + [f] + ys && f.kind.Idle? && f.addr == block
      requires NoFree(s) && (p != [] ==> p[|p| - 1].kind.Idle?)
      requires prev == if p == [] then START else p[|p| - 1].addr
      modifies this`startNext, this`blocks, ram
      ensures Shape() && blocks == p + s + [f.(kind := Loose)] + ys
      ensures Keeps(old(ram[..]), ram[..], old(blocks), base, end)
    {
      ghost var m := ram[..];
      UnlinkReady(m, p, s, f, ys, base, end);
      PutLink(prev, NextOf(ram[..], block));
      Unlinked(m, ram[..], p, s, f, ys, base, end);
      blocks := p + s + [f.(kind := Loose)] + ys;
    }

    /** Cuts the loose block at `block` after `need` bytes; both parts stay loose. */
    method Split(block: nat, need: nat, ghost xs: seq<Block>, ghost f: Block, ghost ys: seq<Block>)
      requires Shape() && blocks == xs + [f] + ys && f.kind.Loose? && f.addr == block
      requires need >= MIN_BLOCK && need % ALIGN == 0 && f.size - need >= MIN_BLOCK
      modifies this`blocks, ram
      ensures Shape()
      ensures blocks == xs + [Block(block, need, Loose)] + [Block(block + need, f.size - need, Loose)] + ys
      ensures OnlyAt(old(ram[..]), ram[..], block + need, block)
    {
      ghost var m := ram[..];
      SplitReady(m, xs, f, ys, base, end);
      var split := block + need;
      PutSize(split, SizeOf(ram[..], block) - need);
      PutNext(split, NULL);
      AgreeHeader(m, ram[..], block);
      ghost var m1 := ram[..];
      PutSize(block, need);
      AgreeHeader(m1, ram[..], split);
      SplitDone(m, ram[..], xs, f, ys, need, base, end);
      blocks := xs + [Block(block, need, Loose)] + [Block(split, f.size - need, Loose)] + ys;
    }

    /** Marks the loose block at `block` in use. */
    method MarkLive(block: nat, ghost xs: seq<Block>, ghost b: Block, ghost ys: seq<Block>)
      requires Shape() && blocks == xs + [b] + ys && b.kind.Loose? && b.addr == block
      modifies this`blocks, ram
      ensures Shape() && blocks == xs + [b.(kind := Live)] + ys
      ensures OnlyAt(old(ram[..]), ram[..], block, block)
      ensures block + HEADER <= ram.Length && SizeOf(ram[..], block) == b.size + ALLOC_BIT
    {
      ghost var m := ram[..];
      SplitReady(m, xs, b, ys, base, end);
      PutSize(block, SizeOf(ram[..], block) + ALLOC_BIT);
      PutNext(block, NULL);
      Reheaded(m, ram[..], xs, b, b.(kind := Live), ys, base, end);
      blocks := xs + [b.(kind := Live)] + ys;
    }

    /** Cuts the unlinked block down to `need` and gives the rest back, if there is enough of it. */
    method Carve(block: nat, need: nat, ghost xs: seq<Block>, ghost f: Block, ghost ys: seq<Block>)
      requires Shape() && blocks == xs + [f] + ys && f.kind.Loose? && f.addr == block
      requires need >= MIN_BLOCK && need % ALIGN == 0 && f.size >= need
      requires NoTouch(xs) && NoTouch(ys) && (ys != [] ==> !ys[0].kind.Idle?)
      modifies this`startNext, this`blocks, ram
      ensures Shape() && blocks == xs + [Taken(f, need).(kind := Loose)] + (Remainder(f, need) + ys)
      ensures Keeps(old(ram[..]), ram[..], xs + [f] + ys, base, end)
    {
      ghost var m1 := ram[..];
      SplitReady(m1, xs, f, ys, base, end);
      if SizeOf(ram[..], block) - need >= MIN_BLOCK {
        CarveSplit(block, need, xs, f, ys);
      } else {
        assert [] + ys == ys;
      }
    }

    /** Puts the rest r of a split block on the list; it has no free neighbour. */
    method GiveRest(split: nat, ghost xs: seq<Block>, ghost t: Block, ghost r: Block, ghost ys: seq<Block>)
      requires Shape() && blocks == xs + [t] + [r] + ys && t.kind.Loose? && r.kind.Loose? && r.addr == split
      requires NoTouch(xs) && NoTouch(ys) && (ys != [] ==> !ys[0].kind.Idle?)
      modifies this`startNext, this`blocks, ram
      ensures Shape() && blocks == xs + [t] + ([Block(r.addr, r.size, Idle)] + ys)
      ensures OnlyHeaders(old(ram[..]), ram[..], xs + [t] + [r])
    {
      SplitNeighbours(xs, t, r, ys);
      InsertFree(split, xs + [t], r, ys);
    }

    method CarveSplit(block: nat, need: nat, ghost xs: seq<Block>, ghost f: Block, ghost ys: seq<Block>)
      requires Shape() && blocks == xs + [f] + ys && f.kind.Loose? && f.addr == block
      requires need >= MIN_BLOCK && need % ALIGN == 0 && f.size - need >= MIN_BLOCK
      requires NoTouch(xs) && NoTouch(ys) && (ys != [] ==> !ys[0].kind.Idle?)
      modifies this`startNext, this`blocks, ram
      ensures Shape()
      ensures blocks == xs + [Block(block, need, Loose)] + ([Block(block + need, f.size - need, Idle)] + ys)
      ensures Keeps(old(ram[..]), ram[..], xs + [f] + ys, base, end)
    {
      ghost var m1 := ram[..];
      ghost var t, r := Block(block, need, Loose), Block(block + need, f.size - need, Loose);
      Split(block, need, xs, f, ys);
      ghost var m2 := ram[..];
      GiveRest(block + need, xs, t, r, ys);
      SplitKeeps(m1, m2, ram[..], xs, f, t, r, ys, base, end);
    }

    /** Takes the free block f off the list and cuts it down to `need`. */
    method Detach(prev: nat, block: nat, need: nat,
                  ghost p: seq<Block>, ghost s: seq<Block>, ghost f: Block, ghost ys: seq<Block>)
      requires Shape() && blocks == p + s + [f] + ys && f.kind.Idle? && f.addr == block
      requires NoTouch(p + s) && NoTouch(ys) && (ys != [] ==> !ys[0].kind.Idle?)
      requires need >= MIN_BLOCK && need % ALIGN == 0 && f.size >= need
      requires NoFree(s) && (p != [] ==> p[|p| - 1].kind.Idle?)
      requires prev == if p == [] then START else p[|p| - 1].addr
      modifies this`startNext, this`blocks, ram
      ensures Shape() && blocks == p + s + [Taken(f, need).(kind := Loose)] + (Remainder(f, need) + ys)
      ensures Keeps(old(ram[..]), ram[..], old(blocks), base, end)
    {
      ghost var m, xs := ram[..], p + s;
      Unlink(prev, block, p, s, f, ys);
      ghost var m1 := ram[..];
      Carve(block, need, xs, f.(kind := Loose), ys);
      DetachKeeps(m, m1, ram[..], xs, f, ys, base, end);
    }

    /** Serves `need` from the free block f at `block`: unlink, split, mark in use. */
    method TakeBlock(prev: nat, block: nat, need: nat,
                     ghost p: seq<Block>, ghost s: seq<Block>, ghost f: Block, ghost ys: seq<Block>)
      requires Shape() && blocks == p + s + [f] + ys && f.kind.Idle? && f.addr == block && NoTouch(blocks)
      requires need >= MIN_BLOCK && need % ALIGN == 0 && f.size >= need
      requires NoFree(s) && (p != [] ==> p[|p| - 1].kind.Idle?)
      requires prev == if p == [] then START else p[|p| - 1].addr
      modifies this`startNext, this`blocks, ram
      ensures Shape() && blocks == p + s + [Taken(f, need)] + (Remainder(f, need) + ys)
      ensures block + HEADER <= ram.Length
      ensures SizeOf(ram[..], block) == Taken(f, need).size + ALLOC_BIT
      ensures Keeps(old(ram[..]), ram[..], old(blocks), base, end)
    {
      ghost var m, t := ram[..], Taken(f, need);
      NoTouchParts(p + s, f, ys);
      Detach(prev, block, need, p, s, f, ys);
      ghost var m1 := ram[..];
      MarkLive(block, p + s, t.(kind := Loose), Remainder(f, need) + ys);
      MarkKeeps(m, m1, ram[..], p + s, f, ys, base, end);
    }

    // ------------------------------------------------------------- the public operations

    twostate predicate SameArena()
      reads this
    {
      base == old(base) && end == old(end) && capacity == old(capacity)
    }

    /** static_pool_init: aligns the start up, puts the sentinel at the top, frees the rest. */
    constructor (memory: array<byte>, raw: nat, bytes: nat)
      requires memory.Length <= ADDRESS_SPACE && raw + bytes <= memory.Length
      requires bytes < ALLOC_BIT
      modifies memory
      ensures ram == memory && Valid() && liveBlocks == 0
      ensures var lo := AlignUp(raw);
              if raw != NULL && lo + HEADER + MIN_BLOCK <= raw + bytes
              then var hi := (raw + bytes - HEADER) / ALIGN * ALIGN;
                   base == lo && end == hi && capacity == hi - lo && blocks == [Block(lo, hi - lo, Idle)]
              else capacity == 0
      ensures Agree(old(memory[..]), memory[..], 0, raw)
      ensures Agree(old(memory[..]), memory[..], raw + bytes, memory.Length)
    {
      ram := memory;
      startNext, base, end, capacity := NULL, 0, 0, 0;
      freeBytes, freeBytesMin, liveBlocks := 0, 0, 0;
      allocCount, freeCount, allocFailCount, invalidFreeCount := 0, 0, 0, 0;
      blocks := [];
      new;
      if raw == NULL || bytes == 0 {
        return;
      }
      var lo := AlignUp(raw);
      if lo - raw >= bytes {
        return;
      }
      var usable := bytes - (lo - raw);
      if usable < HEADER + MIN_BLOCK {
        return;
      }
      var hi := (lo + usable - HEADER) / ALIGN * ALIGN;
      Format(lo, hi);
    }

    /** Writes the sentinel at `hi` and one free block over everything below it. */
    method Format(lo: nat, hi: nat)
      requires 0 < lo && lo + MIN_BLOCK <= hi && hi + HEADER <= ram.Length <= ADDRESS_SPACE
      requires lo % ALIGN == 0 && hi % ALIGN == 0 && hi - lo < ALLOC_BIT && liveBlocks == 0
      modifies this, ram
      ensures Valid() && base == lo && end == hi && capacity == hi - lo && blocks == [Block(lo, hi - lo, Idle)]
      ensures Agree(old(ram[..]), ram[..], 0, lo) && Agree(old(ram[..]), ram[..], hi + HEADER, ram.Length)
      ensures liveBlocks == 0
    {
      base, end := lo, hi;
      ghost var m := ram[..];
      PutHeader(hi, NULL, 0);
      ghost var m1 := ram[..];
      PutHeader(lo, hi, hi - lo);
      AgreeHeader(m1, ram[..], hi);
      startNext, capacity, freeBytes, freeBytesMin := lo, hi - lo, hi - lo, hi - lo;
      blocks := [Block(lo, hi - lo, Idle)];
      OneFreeBlock(ram[..], lo, hi);
    }

    /** static_pool_alloc */
    method Alloc(bytes: nat) returns (r: nat)
      requires Valid() && bytes < ADDRESS_SPACE
      modifies this, ram
      ensures Valid() && SameArena()
      ensures (blocks, r) == AllocResult(old(blocks), bytes)
      ensures r == NULL ==> ram[..] == old(ram[..])
      ensures allocFailCount == if r == NULL then Inc(old(allocFailCount)) else old(allocFailCount)
      ensures allocCount == if r == NULL then old(allocCount) else Inc(old(allocCount))
      ensures freeBytesMin == if freeBytes < old(freeBytesMin) then freeBytes else old(freeBytesMin)
      ensures r == NULL <==> forall a :: !FreeRun(old(blocks), a, Need(bytes))
      ensures r != NULL ==> FreeRun(old(blocks), r - HEADER, Need(bytes)) &&
                            forall a :: FreeRun(old(blocks), a, Need(bytes)) ==> r - HEADER <= a
      ensures r != NULL ==> TakesLeast(old(blocks), blocks, r, bytes)
      ensures freeCount == old(freeCount) && invalidFreeCount == old(invalidFreeCount)
      ensures Keeps(old(ram[..]), ram[..], old(blocks), base, end)
    {
      NoRunOrLowest(blocks, base, end, Need(bytes));
      if capacity == 0 || bytes >= ALLOC_BIT - HEADER {
        if capacity != 0 {
          TooLargeNeverFits(blocks, base, end, Need(bytes));
        }
        allocFailCount := Inc(allocFailCount);
        return NULL;
      }
      var need := Need(bytes);
      var prev, block;
      ghost var p, s;
      prev, block, p, s := FindFit(need);
      if block == end {
        allocFailCount := Inc(allocFailCount);
        return NULL;
      }
      AllocTakesLeast(blocks, bytes, base, end);
      AllocFit(prev, block, need, FitIndex(blocks, need), p, s);
      r := block + HEADER;
    }

    /** The successful end of an allocation: takes block `i` and does the accounting. */
    method AllocFit(prev: nat, block: nat, need: nat, ghost i: nat, ghost p: seq<Block>, ghost s: seq<Block>)
      requires Valid() && capacity != 0 && i < |blocks| && blocks[i].kind.Idle? && blocks[i].addr == block
      requires need >= MIN_BLOCK && need % ALIGN == 0 && blocks[i].size >= need
      requires blocks[..i] == p + s && NoFree(s) && (p != [] ==> p[|p| - 1].kind.Idle?)
      requires prev == if p == [] then START else p[|p| - 1].addr
      modifies this, ram
      ensures Valid() && SameArena() && blocks == Take(old(blocks), i, need)
      ensures allocCount == Inc(old(allocCount)) && allocFailCount == old(allocFailCount)
      ensures freeBytesMin == if freeBytes < old(freeBytesMin) then freeBytes else old(freeBytesMin)
      ensures freeCount == old(freeCount) && invalidFreeCount == old(invalidFreeCount)
      ensures Keeps(old(ram[..]), ram[..], old(blocks), base, end)
    {
      TakeKeeps(blocks, i, need, base, end);
      TakeLive(blocks, i, need, base, end);
      var size := Serve(prev, block, need, i, p, s);
      Account(size);
    }

    /** One more block in use, of this size. */
    method Account(size: nat)
      requires freeBytesMin <= freeBytes && size <= freeBytes
      modifies this`freeBytes, this`freeBytesMin, this`allocCount, this`liveBlocks
      ensures freeBytesMin <= freeBytes == old(freeBytes) - size
      ensures freeBytesMin == if freeBytes < old(freeBytesMin) then freeBytes else old(freeBytesMin)
      ensures allocCount == Inc(old(allocCount)) && liveBlocks == old(liveBlocks) + 1
    {
      freeBytes := freeBytes - size;
      if freeBytes < freeBytesMin {
        freeBytesMin := freeBytes;
      }
      allocCount := Inc(allocCount);
      liveBlocks := liveBlocks + 1;
    }

    /** Takes `need` bytes out of free block `i`, found behind `prev`. */
    method Serve(prev: nat, block: nat, need: nat, ghost i: nat, ghost p: seq<Block>, ghost s: seq<Block>)
      returns (size: nat)
      requires Shape() && NoTouch(blocks) && i < |blocks| && blocks[i].kind.Idle? && blocks[i].addr == block
      requires need >= MIN_BLOCK && need % ALIGN == 0 && blocks[i].size >= need
      requires blocks[..i] == p + s && NoFree(s) && (p != [] ==> p[|p| - 1].kind.Idle?)
      requires prev == if p == [] then START else p[|p| - 1].addr
      modifies this`startNext, this`blocks, ram
      ensures Shape() && blocks == Take(old(blocks), i, need) && size == Taken(old(blocks)[i], need).size
      ensures Keeps(old(ram[..]), ram[..], old(blocks), base, end)
    {
      ghost var f, ys := blocks[i], blocks[i + 1..];
      assert blocks == p + s + [f] + ys;
      TakeBlock(prev, block, need, p, s, f, ys);
      TakeAssoc(p + s, Taken(f, need), Remainder(f, need), ys);
      size := SizeOf(ram[..], block) - ALLOC_BIT;
    }

    /** The ownership check: the header of the live block whose payload is at `ptr`, or NULL. */
    function LiveBlock(ptr: nat): (block: nat)
      requires Valid()
      reads this, ram
      ensures block != NULL ==> block + HEADER == ptr && base <= block && block + HEADER <= ram.Length
      ensures block != NULL ==> SizeOf(ram[..], block) >= ALLOC_BIT
    {
      if capacity == 0 || ptr == NULL then NULL
      else if ptr < base + HEADER || ptr >= end then NULL
      else if ptr % ALIGN != 0 then NULL
      else if SizeOf(ram[..], ptr - HEADER) < ALLOC_BIT then NULL
      else ptr - HEADER
    }

    /** What the operations may be given: NULL, a payload in use, or a pointer the check rejects. */
    ghost predicate Admissible(ptr: nat)
      requires Valid()
      reads this, ram
    {
      LiveAt(blocks, ptr) || LiveBlock(ptr) == NULL
    }

    /** The check accepts exactly the payloads in use. */
    lemma LiveBlockIsLive(ptr: nat)
      requires Valid() && Admissible(ptr)
      ensures LiveBlock(ptr) == if LiveAt(blocks, ptr) then ptr - HEADER else NULL
      ensures LiveAt(blocks, ptr) ==>
                var b := blocks[LiveIndex(blocks, ptr)];
                capacity != 0 && b.addr == ptr - HEADER && base <= b.addr && b.End() <= end && WellSized(b) &&
                HeaderOk(ram[..], b, 0)
    {
      var i := LiveIndex(blocks, ptr);
      if i < |blocks| {
        LiveHeader(ram[..], blocks, base, end, i);
      }
    }

    /** static_pool_payload_size */
    method PayloadSize(ptr: nat) returns (n: nat)
      requires Valid() && Admissible(ptr)
      ensures n == if LiveAt(blocks, ptr) then blocks[LiveIndex(blocks, ptr)].size - HEADER else 0
      ensures n == 0 <==> !LiveAt(blocks, ptr)
    {
      LiveBlockIsLive(ptr);
      var block := LiveBlock(ptr);
      if block == NULL {
        return 0;
      }
      n := SizeOf(ram[..], block) - ALLOC_BIT - HEADER;
    }

    /** Clears the in-use bit of block `i`, which is then neither live nor on the list. */
    method Loosen(block: nat, ghost i: nat)
      requires Shape() && i < |blocks| && blocks[i].kind.Live? && blocks[i].addr == block
      modifies this`blocks, ram
      ensures Shape() && blocks == Loosened(old(blocks), i)
      ensures OnlyAt(old(ram[..]), ram[..], block, block)
      ensures block + HEADER <= ram.Length && SizeOf(ram[..], block) == blocks[i].size
    {
      ghost var m, bs := ram[..], blocks;
      ghost var xs, b, ys := bs[..i], bs[i], bs[i + 1..];
      LoosenedParts(bs, i);
      LiveHeader(m, bs, base, end, i);
      PutSize(block, SizeOf(ram[..], block) - ALLOC_BIT);
      PutNext(block, NULL);
      Reheaded(m, ram[..], xs, b, b.(kind := Loose), ys, base, end);
      blocks := Loosened(bs, i);
    }

    /** Puts block `i`, just loosened, back on the free list. */
    method GiveBack(block: nat, ghost bs: seq<Block>, ghost i: nat)
      requires Shape() && Tiled(bs, base, end) && NoTouch(bs) && i < |bs| && bs[i].kind.Live? && bs[i].addr == block
      requires blocks == Loosened(bs, i)
      modifies this`startNext, this`blocks, ram
      ensures Shape() && blocks == Release(bs, i)
      ensures Keeps(old(ram[..]), ram[..], Loosened(bs, i), base, end)
      ensures block + HEADER <= ram.Length && SizeOf(ram[..], block) < ALLOC_BIT
    {
      ghost var m := ram[..];
      ghost var xs, b, ys := bs[..i], bs[i], bs[i + 1..];
      LoosenedParts(bs, i);
      NoTouchParts(xs, b, ys);
      InsertFree(block, xs, b.(kind := Loose), ys);
      InsertKeeps(m, ram[..], xs, b.(kind := Loose), ys, base, end);
    }

    /** static_pool_free */
    method Free(ptr: nat)
      requires Valid() && Admissible(ptr)
      modifies this, ram
      ensures Valid() && SameArena()
      ensures blocks == FreeResult(old(blocks), ptr)
      ensures if LiveAt(old(blocks), ptr) then
                freeCount == Inc(old(freeCount)) && invalidFreeCount == old(invalidFreeCount)
              else
                && ram[..] == old(ram[..]) && freeCount == old(freeCount)
                && invalidFreeCount == if ptr == NULL then old(invalidFreeCount) else Inc(old(invalidFreeCount))
      ensures Keeps(old(ram[..]), ram[..], Without(old(blocks), ptr), base, end)
      ensures LiveBlock(ptr) == NULL
      ensures allocCount == old(allocCount) && allocFailCount == old(allocFailCount)
      ensures freeBytesMin == old(freeBytesMin)
    {
      if ptr == NULL {
        LiveBlockIsLive(ptr);
        return;
      }
      LiveBlockIsLive(ptr);
      var block := LiveBlock(ptr);
      if block == NULL {
        invalidFreeCount := Inc(invalidFreeCount);
        return;
      }
      FreeLive(block, LiveIndex(blocks, ptr));
    }

    /** The successful end of a free: puts live block `i` back and does the accounting. */
    method FreeLive(block: nat, ghost i: nat)
      requires Valid() && i < |blocks| && blocks[i].kind.Live? && blocks[i].addr == block && capacity != 0
      modifies this, ram
      ensures Valid() && SameArena() && blocks == Release(old(blocks), i)
      ensures freeCount == Inc(old(freeCount)) && invalidFreeCount == old(invalidFreeCount)
      ensures allocCount == old(allocCount) && allocFailCount == old(allocFailCount)
      ensures freeBytesMin == old(freeBytesMin)
      ensures Keeps(old(ram[..]), ram[..], Loosened(old(blocks), i), base, end)
      ensures block + HEADER <= ram.Length && SizeOf(ram[..], block) < ALLOC_BIT
    {
      ReleaseKeeps(blocks, i, base, end);
      ReleaseLive(blocks, i);
      var size := Retire(block, i);
      freeBytes := freeBytes + size;
      freeCount := Inc(freeCount);
      liveBlocks := liveBlocks - 1;
    }

    /** Takes live block `i` off duty and puts it back on the free list. */
    method Retire(block: nat, ghost i: nat) returns (size: nat)
      requires Shape() && NoTouch(blocks) && i < |blocks| && blocks[i].kind.Live? && blocks[i].addr == block
      modifies this`startNext, this`blocks, ram
      ensures Shape() && blocks == Release(old(blocks), i) && size == old(blocks)[i].size
      ensures Keeps(old(ram[..]), ram[..], Loosened(old(blocks), i), base, end)
      ensures block + HEADER <= ram.Length && SizeOf(ram[..], block) < ALLOC_BIT
    {
      ghost var m, bs := ram[..], blocks;
      Loosen(block, i);
      ghost var m1 := ram[..];
      size := SizeOf(ram[..], block);
      GiveBack(block, bs, i);
      FreedKeeps(m, m1, ram[..], bs, i, base, end);
    }

    // ------------------------------------------------------------- payloads

    method MemCopy(dst: nat, src: nat, n: nat)
      requires dst + n <= ram.Length && src + n <= ram.Length && (dst + n <= src || src + n <= dst)
      modifies ram
      ensures forall a :: dst <= a < dst + n ==> ram[a] == old(ram[src + (a - dst)])
      ensures forall a :: 0 <= a < ram.Length && !(dst <= a < dst + n) ==> ram[a] == old(ram[a])
    {
      ghost var m := ram[..];
      for k := 0 to n
        invariant forall a :: dst <= a < dst + k ==> ram[a] == m[src + (a - dst)]
        invariant forall a :: 0 <= a < ram.Length && !(dst <= a < dst + k) ==> ram[a] == m[a]
      {
        ram[dst + k] := ram[src + k];
      }
    }

    method MemZero(dst: nat, n: nat)
      requires dst + n <= ram.Length
      modifies ram
      ensures forall a :: dst <= a < dst + n ==> ram[a] == 0
      ensures forall a :: 0 <= a < ram.Length && !(dst <= a < dst + n) ==> ram[a] == old(ram[a])
    {
      for k := 0 to n
        invariant forall a :: dst <= a < dst + k ==> ram[a] == 0
        invariant forall a :: 0 <= a < ram.Length && !(dst <= a < dst + k) ==> ram[a] == old(ram[a])
      {
        ram[dst + k] := 0;
      }
    }

    /** Copies `n` bytes from the payload of live block `i` to that of live block `j`. */
    method CopyPayload(dst: nat, src: nat, n: nat, ghost i: nat, ghost j: nat)
      requires Valid() && i < |blocks| && j < |blocks| && i != j && blocks[i].kind.Live? && blocks[j].kind.Live?
      requires src == blocks[i].addr + HEADER && src + n <= blocks[i].End()
      requires dst == blocks[j].addr + HEADER && dst + n <= blocks[j].End()
      modifies ram
      ensures Valid()
      ensures src + n <= ram.Length && dst + n <= ram.Length
      ensures forall a :: dst <= a < dst + n ==> ram[a] == old(ram[src + (a - dst)])
      ensures forall a :: 0 <= a < ram.Length && !(dst <= a < dst + n) ==> ram[a] == old(ram[a])
    {
      ghost var m := ram[..];
      LiveHeader(m, blocks, base, end, i);
      LiveHeader(m, blocks, base, end, j);
      DistinctBlocks(blocks, base, end, i, j);
      MemCopy(dst, src, n);
      PayloadWritten(m, ram[..], blocks, base, end, j);
    }

    /** Clears the first `n` bytes of the payload of live block `j`. */
    method ClearPayload(dst: nat, n: nat, ghost j: nat)
      requires Valid() && j < |blocks| && blocks[j].kind.Live?
      requires dst == blocks[j].addr + HEADER && dst + n <= blocks[j].End()
      modifies ram
      ensures Valid()
      ensures dst + n <= ram.Length
      ensures forall a :: dst <= a < dst + n ==> ram[a] == 0
      ensures forall a :: 0 <= a < ram.Length && !(dst <= a < dst + n) ==> ram[a] == old(ram[a])
    {
      ghost var m := ram[..];
      LiveHeader(m, blocks, base, end, j);
      MemZero(dst, n);
      PayloadWritten(m, ram[..], blocks, base, end, j);
    }

    /** static_pool_realloc */
    method Realloc(ptr: nat, bytes: nat) returns (r: nat)
      requires Valid() && Admissible(ptr) && bytes < ADDRESS_SPACE
      modifies this, ram
      ensures Valid() && SameArena()
      ensures (blocks, r) == ReallocResult(old(blocks), ptr, bytes)
      ensures Moved(old(blocks), old(ram[..]), ptr, r)
      ensures Keeps(old(ram[..]), ram[..], Without(old(blocks), ptr), base, end)
      ensures bytes != 0 && r == NULL ==> ram[..] == old(ram[..])
      ensures bytes != 0 && LiveAt(old(blocks), ptr) &&
              old(blocks)[LiveIndex(old(blocks), ptr)].size >= bytes + HEADER ==>
                r == ptr && ram[..] == old(ram[..])
    {
      if ptr == NULL {
        LiveBlockIsLive(ptr);
        r := Alloc(bytes);
        return;
      }
      if bytes == 0 {
        Free(ptr);
        return NULL;
      }
      var size := PayloadSize(ptr);
      if size == 0 {
        invalidFreeCount := Inc(invalidFreeCount);
        return NULL;
      }
      if size >= bytes {
        return ptr;
      }
      r := Relocate(ptr, size, bytes);
    }

    /** A payload that moved carries the bytes of the old one. */
    ghost predicate Moved(bs: seq<Block>, m: seq<byte>, ptr: nat, r: nat)
      reads ram
    {
      var i := LiveIndex(bs, ptr);
      i < |bs| && r != NULL && r != ptr ==>
        var n := bs[i].size - HEADER;
        r + n <= ram.Length && ptr + n <= |m| && forall a :: r <= a < r + n ==> ram[a] == m[ptr + (a - r)]
    }

    /** The growing case of realloc: a new block, a copy, and the old block freed. */
    method Relocate(ptr: nat, size: nat, bytes: nat) returns (r: nat)
      requires Valid() && LiveAt(blocks, ptr) && size == blocks[LiveIndex(blocks, ptr)].size - HEADER < bytes
      requires bytes < ADDRESS_SPACE && ptr != NULL
      modifies this, ram
      ensures Valid() && SameArena()
      ensures (blocks, r) == ReallocResult(old(blocks), ptr, bytes)
      ensures Moved(old(blocks), old(ram[..]), ptr, r)
      ensures Keeps(old(ram[..]), ram[..], Without(old(blocks), ptr), base, end)
      ensures r == NULL ==> ram[..] == old(ram[..])
    {
      ghost var m0, bs := ram[..], blocks;
      r := Alloc(bytes);
      if r == NULL {
        assert ReallocResult(bs, ptr, bytes) == (bs, NULL);
        KeepsLess(m0, m0, bs, LiveIndex(bs, ptr), base, end);
      } else {
        CarryOver(ptr, size, bytes, r, bs, m0);
      }
    }

    /** The rest of it, once r has been served out of the blocks bs in memory m0. */
    method CarryOver(ptr: nat, size: nat, bytes: nat, r: nat, ghost bs: seq<Block>, ghost m0: seq<byte>)
      requires Valid() && Tiled(bs, base, end) && NoTouch(bs) && NoLoose(bs) && |m0| == ram.Length
      requires LiveAt(bs, ptr) && size == bs[LiveIndex(bs, ptr)].size - HEADER < bytes && end <= ram.Length
      requires r != NULL && (blocks, r) == AllocResult(bs, bytes) && Keeps(m0, ram[..], bs, base, end)
      modifies this, ram
      ensures Valid() && SameArena() && blocks == FreeResult(old(blocks), ptr)
      ensures Moved(bs, m0, ptr, r) && Keeps(m0, ram[..], Without(bs, ptr), base, end)
    {
      ghost var need := Need(bytes);
      ghost var i, k := LiveIndex(bs, ptr), FitIndex(bs, need);
      ghost var m1 := ram[..];
      RoomToMove(bs, i, k, need, ptr, r, size);
      ghost var m2 := Move(ptr, r, size, k);
      Relocated(m0, m1, m2, ram[..], bs, i, k, need, ptr, r, size, base, end);
    }

    /** Both payloads are in use, and the new one has room. */
    lemma RoomToMove(bs: seq<Block>, i: nat, k: nat, need: nat, ptr: nat, r: nat, size: nat)
      requires Tiled(bs, base, end) && NoTouch(bs) && NoLoose(bs) && i < |bs| && bs[i].kind.Live?
      requires ptr == bs[i].addr + HEADER && size == bs[i].size - HEADER && size + HEADER <= need
      requires k < |bs| && bs[k].kind.Idle? && bs[k].size >= need >= MIN_BLOCK && need % ALIGN == 0
      requires blocks == Take(bs, k, need) && r == bs[k].addr + HEADER
      ensures LiveAt(blocks, ptr) && blocks[LiveIndex(blocks, ptr)] == bs[i]
      ensures k < |blocks| && k != LiveIndex(blocks, ptr) && blocks[k].kind.Live?
      ensures r == blocks[k].addr + HEADER && r + size <= blocks[k].End()
    {
      StillLive(bs, k, need, i, ptr, base, end);
    }

    /** Copies a payload into the block `k` just served and frees the old one. */
    method Move(ptr: nat, dst: nat, size: nat, ghost k: nat) returns (ghost copied: seq<byte>)
      requires Valid() && LiveAt(blocks, ptr) && k < |blocks| && k != LiveIndex(blocks, ptr)
      requires blocks[k].kind.Live? && dst == blocks[k].addr + HEADER && dst + size <= blocks[k].End()
      requires size == blocks[LiveIndex(blocks, ptr)].size - HEADER
      modifies this, ram
      ensures Valid() && SameArena() && blocks == FreeResult(old(blocks), ptr)
      ensures |copied| == ram.Length && dst + size <= ram.Length && ptr + size <= ram.Length
      ensures forall a :: dst <= a < dst + size ==> copied[a] == old(ram[ptr + (a - dst)])
      ensures forall a :: 0 <= a < ram.Length && !(dst <= a < dst + size) ==> copied[a] == old(ram[a])
      ensures Keeps(copied, ram[..], Loosened(old(blocks), LiveIndex(old(blocks), ptr)), base, end)
      ensures base < end && end <= ram.Length
    {
      CopyPayload(dst, ptr, size, LiveIndex(blocks, ptr), k);
      copied := ram[..];
      LiveBlockIsLive(ptr);
      Free(ptr);
    }

    /** static_pool_calloc */
    method Calloc(n: nat, size: nat) returns (r: nat)
      requires Valid() && n < ADDRESS_SPACE && size < ADDRESS_SPACE
      modifies this, ram
      ensures Valid() && SameArena()
      ensures r == NULL <==> forall a :: !FreeRun(old(blocks), a, Need(n * size))
      ensures r != NULL ==>
                r + n * size <= ram.Length && forall a :: r <= a < r + n * size ==> ram[a] == 0
      ensures (blocks, r) == AllocResult(old(blocks), n * size)
      ensures r != NULL ==> TakesLeast(old(blocks), blocks, r, n * size)
      ensures r == NULL ==> ram[..] == old(ram[..])
      ensures allocFailCount == if r == NULL then Inc(old(allocFailCount)) else old(allocFailCount)
      ensures allocCount == if r == NULL then old(allocCount) else Inc(old(allocCount))
      ensures freeBytesMin == if freeBytes < old(freeBytesMin) then freeBytes else old(freeBytesMin)
      ensures freeCount == old(freeCount) && invalidFreeCount == old(invalidFreeCount)
      ensures Keeps(old(ram[..]), ram[..], old(blocks), base, end)
    {
      if n != 0 && size > (ADDRESS_SPACE - 1) / n {
        ProductOverflows(n, size);
        if blocks != [] {
          TooLargeNeverFits(blocks, base, end, Need(n * size));
        }
        NoRunOrLowest(blocks, base, end, Need(n * size));
        allocFailCount := Inc(allocFailCount);
        return NULL;
      }
      ProductFits(n, size);
      r := AllocCleared(n * size);
    }

    /** A block of cleared bytes. */
    method AllocCleared(total: nat) returns (r: nat)
      requires Valid() && total < ADDRESS_SPACE
      modifies this, ram
      ensures Valid() && SameArena()
      ensures r == NULL <==> forall a :: !FreeRun(old(blocks), a, Need(total))
      ensures r != NULL ==> r + total <= ram.Length && forall a :: r <= a < r + total ==> ram[a] == 0
      ensures (blocks, r) == AllocResult(old(blocks), total)
      ensures r != NULL ==> TakesLeast(old(blocks), blocks, r, total)
      ensures r == NULL ==> ram[..] == old(ram[..])
      ensures allocFailCount == if r == NULL then Inc(old(allocFailCount)) else old(allocFailCount)
      ensures allocCount == if r == NULL then old(allocCount) else Inc(old(allocCount))
      ensures freeBytesMin == if freeBytes < old(freeBytesMin) then freeBytes else old(freeBytesMin)
      ensures freeCount == old(freeCount) && invalidFreeCount == old(invalidFreeCount)
      ensures Keeps(old(ram[..]), ram[..], old(blocks), base, end)
    {
      ghost var m0, bs := ram[..], blocks;
      r := Alloc(total);
      if r != NULL {
        ghost var m1, k := ram[..], FitIndex(bs, Need(total));
        TakeLive(bs, k, Need(total), base, end);
        ClearPayload(r, total, k);
        Zeroed(m0, m1, ram[..], bs, k, Need(total), base, end);
      }
    }

    /** static_pool_metrics: the counters, and the largest free block found on the list. */
    method GetMetrics() returns (out: Metrics)
      requires Valid()
      ensures out == Metrics(capacity, freeBytes, freeBytesMin, LargestIdle(blocks), allocCount, freeCount,
                             allocFailCount, invalidFreeCount, liveBlocks)
    {
      var largest := 0;
      var block := startNext;
      ghost var p, t := [], blocks;
      while block != NULL && block != end
        invariant capacity == 0 ==> blocks == [] && block == NULL
        invariant blocks == p + t && largest == LargestIdle(p)
        invariant capacity != 0 ==> block == FirstFree(t, end)
        decreases |t|
      {
        ghost var pre, f, post := NextFree(ram[..], blocks, p, t, base, end);
        LargestConcat(p, pre + [f]);
        LargestNoFree(pre, f);
        p, t := p + (pre + [f]), post;
        if SizeOf(ram[..], block) > largest {
          largest := SizeOf(ram[..], block);
        }
        block := NextOf(ram[..], block);
      }
      LargestConcat(p, t);
      if capacity != 0 {
        LinksPositive(p, t, base, end);
        FirstFreeBelow(p, t, base, end, end);
        LargestNone(t);
      }
      out := Metrics(capacity, freeBytes, freeBytesMin, largest, allocCount, freeCount,
                     allocFailCount, invalidFreeCount, liveBlocks);
    }
  }
}
