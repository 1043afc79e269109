/** The heap the static pool keeps inside its byte array, seen as a value: the blocks that
    tile the arena in address order, and what their headers in memory must say.

    The target is ILP32 (Cortex-M4): a header is two 32-bit words, `next` and `size`, and the
    top bit of `size` marks a block in use. */
module PoolHeap {

  type byte = b: int | 0 <= b < 256

  const ALIGN: nat := 8
  const HEADER: nat := 8
  const MIN_BLOCK: nat := 2 * HEADER
  const ALLOC_BIT: nat := 0x8000_0000
  const ADDRESS_SPACE: nat := 0x1_0000_0000

  // ---------------------------------------------------------------- words in memory

  /** The little-endian 32-bit word at address `a`. */
  function Word(m: seq<byte>, a: nat): nat
    requires a + 4 <= |m|
  {
    var b0: int, b1: int, b2: int, b3: int := m[a], m[a + 1], m[a + 2], m[a + 3];
    b0 + 0x100 * b1 + 0x1_0000 * b2 + 0x100_0000 * b3
  }

  function NextOf(m: seq<byte>, a: nat): nat
    requires a + HEADER <= |m|
  {
    Word(m, a)
  }

  function SizeOf(m: seq<byte>, a: nat): nat
    requires a + HEADER <= |m|
  {
    Word(m, a + 4)
  }

  ghost predicate Agree(m: seq<byte>, m': seq<byte>, lo: int, hi: int)
    requires |m| == |m'|
  {
    forall i :: 0 <= i < |m| && lo <= i < hi ==> m[i] == m'[i]
  }

  lemma AgreeHeader(m: seq<byte>, m': seq<byte>, a: nat)
    requires |m| == |m'| && a + HEADER <= |m|
    requires Agree(m, m', a, a + HEADER)
    ensures NextOf(m, a) == NextOf(m', a) && SizeOf(m, a) == SizeOf(m', a)
  {
    assert forall i :: a <= i < a + HEADER ==> m[i] == m'[i];
  }

  function AlignUp(n: nat): (r: nat)
    ensures n <= r < n + ALIGN && r % ALIGN == 0
  {
    (n + (ALIGN - 1)) / ALIGN * ALIGN
  }

  /** Size of the block that serves a request of `bytes`. */
  function Need(bytes: nat): (r: nat)
    ensures r >= MIN_BLOCK && r % ALIGN == 0 && r >= bytes + HEADER
  {
    var n := AlignUp(bytes + HEADER);
    if n < MIN_BLOCK then MIN_BLOCK else n
  }

  // ---------------------------------------------------------------- blocks

  /** A block of the arena. `Loose` is a block that is neither on the free list nor marked in
      use: the state it passes through inside alloc and free. */
  datatype Kind = Idle | Live | Loose

  datatype Block = Block(addr: nat, size: nat, kind: Kind) {
    function End(): nat { addr + size }
  }

  ghost predicate WellSized(b: Block) {
    b.addr % ALIGN == 0 && b.size % ALIGN == 0 && b.size >= MIN_BLOCK
  }

  /** `bs` covers [lo, hi) exactly, in address order, without gap or overlap. */
  ghost predicate Tiled(bs: seq<Block>, lo: nat, hi: nat) {
    if bs == [] then lo == hi
    else bs[0].addr == lo && WellSized(bs[0]) && Tiled(bs[1..], bs[0].End(), hi)
  }

  /** Address of the first free block of `bs`, or `q` when it has none. */
  function FirstFree(bs: seq<Block>, q: nat): nat {
    if bs == [] then q
    else if bs[0].kind.Idle? then bs[0].addr
    else FirstFree(bs[1..], q)
  }

  ghost predicate HeaderOk(m: seq<byte>, b: Block, next: nat) {
    && b.addr + HEADER <= |m|
    && match b.kind
       case Idle => SizeOf(m, b.addr) == b.size && NextOf(m, b.addr) == next
       case Live => SizeOf(m, b.addr) == b.size + ALLOC_BIT && NextOf(m, b.addr) == 0
       case Loose => SizeOf(m, b.addr) == b.size
  }

  /** The headers of `bs` hold its sizes, and the free ones link in address order to `q`. */
  ghost predicate Chained(m: seq<byte>, bs: seq<Block>, q: nat) {
    bs == [] || (HeaderOk(m, bs[0], FirstFree(bs[1..], q)) && Chained(m, bs[1..], q))
  }

  /** A well-formed heap in memory m: blocks tiling [lo, hi), their headers, the address of the first
      free one, and the end marker. */
  ghost predicate Formed(m: seq<byte>, bs: seq<Block>, first: nat, lo: nat, hi: nat) {
    && 0 < lo && lo % ALIGN == 0 && hi - lo < ALLOC_BIT && hi + HEADER <= |m| <= ADDRESS_SPACE
    && Tiled(bs, lo, hi) && Chained(m, bs, hi) && first == FirstFree(bs, hi)
    && SizeOf(m, hi) == 0 && NextOf(m, hi) == 0
  }

  ghost predicate Apart(bs: seq<Block>, i: nat)
    requires i < |bs| - 1
  {
    !(bs[i].kind.Idle? && bs[i + 1].kind.Idle?)
  }

  ghost predicate NoTouch(bs: seq<Block>) {
    forall i :: 0 <= i < |bs| - 1 ==> Apart(bs, i)
  }

  ghost predicate NoFree(bs: seq<Block>) {
    forall b :: b in bs ==> !b.kind.Idle?
  }

  ghost predicate NoLoose(bs: seq<Block>) {
    forall b :: b in bs ==> !b.kind.Loose?
  }

  ghost function FreeSum(bs: seq<Block>): nat {
    if bs == [] then 0 else (if bs[0].kind.Idle? then bs[0].size else 0) + FreeSum(bs[1..])
  }

  ghost function LiveSum(bs: seq<Block>): nat {
    if bs == [] then 0 else (if bs[0].kind.Live? then bs[0].size else 0) + LiveSum(bs[1..])
  }

  ghost function LiveCount(bs: seq<Block>): nat {
    if bs == [] then 0 else (if bs[0].kind.Live? then 1 else 0) + LiveCount(bs[1..])
  }

  // ---------------------------------------------------------------- concatenation

  lemma {:induction false} TiledConcat(xs: seq<Block>, ys: seq<Block>, lo: nat, mid: nat, hi: nat)
    requires Tiled(xs, lo, mid)
    ensures Tiled(xs + ys, lo, hi) <==> Tiled(ys, mid, hi)
  {
    if xs == [] {
      assert xs + ys == ys;
    } else {
      assert (xs + ys)[1..] == xs[1..] + ys;
      TiledConcat(xs[1..], ys, xs[0].End(), mid, hi);
    }
  }

  /** A tiling of a concatenation splits where its left part ends. */
  lemma {:induction false} TiledSplit(xs: seq<Block>, ys: seq<Block>, lo: nat, hi: nat) returns (mid: nat)
    requires Tiled(xs + ys, lo, hi)
    ensures lo <= mid <= hi && Tiled(xs, lo, mid) && Tiled(ys, mid, hi)
    ensures xs != [] ==> mid == xs[|xs| - 1].End() && lo < mid
    ensures ys != [] ==> mid == ys[0].addr && mid < hi
  {
    if xs == [] {
      assert xs + ys == ys;
      mid := lo;
      TiledBounds(ys, lo, hi);
    } else {
      assert (xs + ys)[1..] == xs[1..] + ys;
      mid := TiledSplit(xs[1..], ys, xs[0].End(), hi);
    }
  }

  lemma {:induction false} TiledBounds(bs: seq<Block>, lo: nat, hi: nat)
    requires Tiled(bs, lo, hi)
    ensures lo <= hi && (bs != [] ==> lo < hi)
    ensures forall b :: b in bs ==> WellSized(b) && lo <= b.addr && b.End() <= hi
    ensures lo % ALIGN == 0 ==> hi % ALIGN == 0
  {
    if bs != [] {
      TiledBounds(bs[1..], bs[0].End(), hi);
    }
  }

  /** Blocks of a tiling never overlap: an earlier one ends before a later one starts. */
  lemma {:induction false} TiledOrder(bs: seq<Block>, lo: nat, hi: nat, i: nat, j: nat)
    requires Tiled(bs, lo, hi) && i < j < |bs|
    ensures bs[i].End() <= bs[j].addr
    ensures j == i + 1 ==> bs[i].End() == bs[j].addr
  {
    if i == 0 {
      TiledBounds(bs[1..], bs[0].End(), hi);
      assert bs[j] in bs[1..];
      assert j == 1 ==> bs[1..][0] == bs[1];
    } else {
      TiledOrder(bs[1..], bs[0].End(), hi, i - 1, j - 1);
    }
  }

  lemma {:induction false} FirstFreeConcat(xs: seq<Block>, ys: seq<Block>, q: nat)
    ensures FirstFree(xs + ys, q) == FirstFree(xs, FirstFree(ys, q))
  {
    if xs == [] {
      assert xs + ys == ys;
    } else {
      assert (xs + ys)[1..] == xs[1..] + ys;
      FirstFreeConcat(xs[1..], ys, q);
    }
  }

  lemma {:induction false} FirstFreeNone(bs: seq<Block>, q: nat)
    ensures NoFree(bs) ==> FirstFree(bs, q) == q
  {
    if bs != [] {
      FirstFreeNone(bs[1..], q);
    }
  }

  /** A free block in `bs` is found whatever lies behind `bs`. */
  lemma {:induction false} FirstFreeSome(bs: seq<Block>, q: nat, q': nat)
    requires !NoFree(bs)
    ensures FirstFree(bs, q) == FirstFree(bs, q')
  {
    if !bs[0].kind.Idle? {
      FirstFreeSome(bs[1..], q, q');
    }
  }

  /** Splits `bs` at its first free block. */
  lemma {:induction false} SplitFirstFree(bs: seq<Block>, q: nat)
    returns (pre: seq<Block>, f: Block, post: seq<Block>)
    requires !NoFree(bs)
    ensures bs == pre + [f] + post && NoFree(pre) && f.kind.Idle?
    ensures FirstFree(bs, q) == f.addr
  {
    if bs[0].kind.Idle? {
      pre, f, post := [], bs[0], bs[1..];
    } else {
      pre, f, post := SplitFirstFree(bs[1..], q);
      pre := [bs[0]] + pre;
    }
  }

  lemma {:induction false} ChainedConcat(m: seq<byte>, xs: seq<Block>, ys: seq<Block>, q: nat)
    ensures Chained(m, xs + ys, q) <==> Chained(m, xs, FirstFree(ys, q)) && Chained(m, ys, q)
  {
    if xs == [] {
      assert xs + ys == ys;
    } else {
      assert (xs + ys)[1..] == xs[1..] + ys;
      FirstFreeConcat(xs[1..], ys, q);
      ChainedConcat(m, xs[1..], ys, q);
    }
  }

  /** The links of three consecutive segments, taken apart and put together. */
  lemma ChainedParts(m: seq<byte>, xs: seq<Block>, b: Block, ys: seq<Block>, q: nat)
    ensures Chained(m, xs + [b] + ys, q) <==>
            && Chained(m, xs, FirstFree([b] + ys, q))
            && HeaderOk(m, b, FirstFree(ys, q))
            && Chained(m, ys, q)
    ensures FirstFree(xs + [b] + ys, q) == FirstFree(xs, FirstFree([b] + ys, q))
    ensures FirstFree([b] + ys, q) == if b.kind.Idle? then b.addr else FirstFree(ys, q)
  {
    assert xs + [b] + ys == xs + ([b] + ys);
    assert ([b] + ys)[1..] == ys;
    ChainedConcat(m, xs, [b] + ys, q);
    FirstFreeConcat(xs, [b] + ys, q);
  }

  /** Links only depend on the bytes of the headers they run through. */
  lemma {:induction false} ChainedFrame(m: seq<byte>, m': seq<byte>, bs: seq<Block>, q: nat)
    requires Chained(m, bs, q) && |m| == |m'|
    requires forall b :: b in bs ==> Agree(m, m', b.addr, b.addr + HEADER)
    ensures Chained(m', bs, q)
  {
    if bs != [] {
      AgreeHeader(m, m', bs[0].addr);
      ChainedFrame(m, m', bs[1..], q);
    }
  }

  /** Where no block is free there is no link to redirect. */
  lemma {:induction false} ChainedNoFree(m: seq<byte>, bs: seq<Block>, q: nat, q': nat)
    requires Chained(m, bs, q) && NoFree(bs)
    ensures Chained(m, bs, q')
  {
    if bs != [] {
      ChainedNoFree(m, bs[1..], q, q');
    }
  }

  /** Redirecting the last free block of xs + [f] + ys redirects the whole segment. */
  lemma Relink(m: seq<byte>, m': seq<byte>, xs: seq<Block>, f: Block, ys: seq<Block>, q: nat, q': nat)
    requires |m| == |m'| && Chained(m, xs + [f] + ys, q) && f.kind.Idle? && NoFree(ys)
    requires forall b :: b in xs + ys ==> Agree(m, m', b.addr, b.addr + HEADER)
    requires HeaderOk(m', f, q')
    ensures Chained(m', xs + [f] + ys, q')
    ensures FirstFree(xs + [f] + ys, q') == FirstFree(xs + [f] + ys, q)
  {
    ChainedParts(m, xs, f, ys, q);
    ChainedParts(m', xs, f, ys, q');
    FirstFreeNone(ys, q);
    FirstFreeNone(ys, q');
    ChainedNoFree(m, ys, q, q');
    ChainedFrame(m, m', xs, f.addr);
    ChainedFrame(m, m', ys, q');
  }

  lemma {:induction false} SumsConcat(xs: seq<Block>, ys: seq<Block>)
    ensures FreeSum(xs + ys) == FreeSum(xs) + FreeSum(ys)
    ensures LiveSum(xs + ys) == LiveSum(xs) + LiveSum(ys)
    ensures LiveCount(xs + ys) == LiveCount(xs) + LiveCount(ys)
  {
    if xs == [] {
      assert xs + ys == ys;
    } else {
      assert (xs + ys)[1..] == xs[1..] + ys;
      SumsConcat(xs[1..], ys);
    }
  }

  lemma SumsParts(xs: seq<Block>, b: Block, ys: seq<Block>)
    ensures FreeSum(xs + [b] + ys) == FreeSum(xs) + (if b.kind.Idle? then b.size else 0) + FreeSum(ys)
    ensures LiveSum(xs + [b] + ys) == LiveSum(xs) + (if b.kind.Live? then b.size else 0) + LiveSum(ys)
    ensures LiveCount(xs + [b] + ys) == LiveCount(xs) + (if b.kind.Live? then 1 else 0) + LiveCount(ys)
  {
    SumsConcat(xs + [b], ys);
    SumsConcat(xs, [b]);
    assert [b][1..] == [];
  }

  // ---------------------------------------------------------------- what the operations do

  /** What stays in front of a block put back behind `xs`: a free block touching it is absorbed. */
  function LeftRest(xs: seq<Block>): seq<Block> {
    if xs != [] && xs[|xs| - 1].kind.Idle? then xs[..|xs| - 1] else xs
  }

  function RightRest(ys: seq<Block>): seq<Block> {
    if ys != [] && ys[0].kind.Idle? then ys[1..] else ys
  }

  /** The free block made of `x` and the free blocks that touch it on either side. */
  function Merged(xs: seq<Block>, x: Block, ys: seq<Block>): Block {
    var left := xs != [] && xs[|xs| - 1].kind.Idle?;
    var right := ys != [] && ys[0].kind.Idle?;
    Block(if left then xs[|xs| - 1].addr else x.addr,
          (if left then xs[|xs| - 1].size else 0) + x.size + (if right then ys[0].size else 0),
          Idle)
  }

  /** The block list after putting `x` back between `xs` and `ys`. */
  function Coalesce(xs: seq<Block>, x: Block, ys: seq<Block>): seq<Block> {
    LeftRest(xs) + [Merged(xs, x, ys)] + RightRest(ys)
  }

  lemma {:induction false} SnocTiled(xs: seq<Block>, b: Block, lo: nat, hi: nat)
    ensures Tiled(xs + [b], lo, hi) <==> Tiled(xs, lo, b.addr) && WellSized(b) && b.End() == hi
  {
    if xs == [] {
      assert xs + [b] == [b] && [b][1..] == [];
    } else {
      assert (xs + [b])[1..] == xs[1..] + [b];
      SnocTiled(xs[1..], b, xs[0].End(), hi);
    }
  }

  lemma TiledParts(xs: seq<Block>, b: Block, ys: seq<Block>, lo: nat, hi: nat)
    ensures Tiled(xs + [b] + ys, lo, hi) <==>
            Tiled(xs, lo, b.addr) && WellSized(b) && Tiled(ys, b.End(), hi)
  {
    if Tiled(xs + [b] + ys, lo, hi) {
      var mid := TiledSplit(xs + [b], ys, lo, hi);
      SnocTiled(xs, b, lo, mid);
    }
    if Tiled(xs, lo, b.addr) && WellSized(b) && Tiled(ys, b.End(), hi) {
      SnocTiled(xs, b, lo, b.End());
      TiledConcat(xs + [b], ys, lo, b.End(), hi);
    }
  }

  lemma LeftRestKeeps(xs: seq<Block>, x: Block, ys: seq<Block>, lo: nat)
    requires Tiled(xs, lo, x.addr) && NoTouch(xs)
    ensures Tiled(LeftRest(xs), lo, Merged(xs, x, ys).addr)
    ensures NoTouch(LeftRest(xs))
    ensures LeftRest(xs) != [] ==> !LeftRest(xs)[|LeftRest(xs)| - 1].kind.Idle?
    ensures FreeSum(xs) == FreeSum(LeftRest(xs)) + (x.addr - Merged(xs, x, ys).addr)
    ensures LiveSum(xs) == LiveSum(LeftRest(xs)) && LiveCount(xs) == LiveCount(LeftRest(xs))
  {
    if xs != [] && xs[|xs| - 1].kind.Idle? {
      var f := xs[|xs| - 1];
      assert xs == LeftRest(xs) + [f];
      assert LeftRest(xs) + [f] + [] == xs;
      NoTouchParts(LeftRest(xs), f, []);
      SnocTiled(LeftRest(xs), f, lo, x.addr);
      SumsParts(LeftRest(xs), f, []);
    } else if xs != [] {
      TiledBounds(xs, lo, x.addr);
      SnocTiled(xs[..|xs| - 1], xs[|xs| - 1], lo, x.addr);
      assert xs == xs[..|xs| - 1] + [xs[|xs| - 1]];
    }
  }

  lemma RightRestKeeps(x: Block, ys: seq<Block>, hi: nat)
    requires Tiled(ys, x.End(), hi) && NoTouch(ys)
    ensures Tiled(RightRest(ys), Merged([], x, ys).End(), hi)
    ensures NoTouch(RightRest(ys))
    ensures RightRest(ys) != [] ==> !RightRest(ys)[0].kind.Idle?
    ensures FreeSum(ys) == FreeSum(RightRest(ys)) + (Merged([], x, ys).size - x.size)
    ensures LiveSum(ys) == LiveSum(RightRest(ys)) && LiveCount(ys) == LiveCount(RightRest(ys))
  {
    if ys != [] && ys[0].kind.Idle? {
      assert [] + [ys[0]] + ys[1..] == ys;
      NoTouchParts([], ys[0], ys[1..]);
    }
  }

  lemma WellSizedSum(a: Block, n: nat, k: Kind)
    requires WellSized(a) && n % ALIGN == 0
    ensures WellSized(Block(a.addr, a.size + n, k))
  {
  }

  lemma MergedKeeps(xs: seq<Block>, x: Block, ys: seq<Block>, lo: nat, hi: nat)
    requires Tiled(xs, lo, x.addr) && WellSized(x) && Tiled(ys, x.End(), hi)
    ensures WellSized(Merged(xs, x, ys))
    ensures Merged(xs, x, ys).End() == Merged([], x, ys).End()
    ensures Merged(xs, x, ys).size == (x.addr - Merged(xs, x, ys).addr) + Merged([], x, ys).size
  {
    if xs != [] {
      assert xs == xs[..|xs| - 1] + [xs[|xs| - 1]];
      SnocTiled(xs[..|xs| - 1], xs[|xs| - 1], lo, x.addr);
    }
    if ys != [] {
      WellSizedSum(x, ys[0].size, Idle);
    }
    if xs != [] && xs[|xs| - 1].kind.Idle? {
      WellSizedSum(xs[|xs| - 1], Merged([], x, ys).size, Idle);
    }
  }

  /** Coalescing keeps the tiling, loses no byte, and leaves no two free blocks touching. */
  lemma CoalesceKeeps(xs: seq<Block>, x: Block, ys: seq<Block>, lo: nat, hi: nat)
    requires Tiled(xs + [x] + ys, lo, hi) && NoTouch(xs) && NoTouch(ys)
    ensures Tiled(Coalesce(xs, x, ys), lo, hi)
    ensures NoTouch(Coalesce(xs, x, ys))
    ensures FreeSum(Coalesce(xs, x, ys)) == FreeSum(xs) + x.size + FreeSum(ys)
    ensures LiveSum(Coalesce(xs, x, ys)) == LiveSum(xs) + LiveSum(ys)
    ensures LiveCount(Coalesce(xs, x, ys)) == LiveCount(xs) + LiveCount(ys)
  {
    var n, pre, post := Merged(xs, x, ys), LeftRest(xs), RightRest(ys);
    TiledParts(xs, x, ys, lo, hi);
    LeftRestKeeps(xs, x, ys, lo);
    RightRestKeeps(x, ys, hi);
    MergedKeeps(xs, x, ys, lo, hi);
    TiledParts(pre, n, post, lo, hi);
    SumsParts(pre, n, post);
    NoTouchJoin(pre, n, post);
  }

  lemma NoTouchJoin(xs: seq<Block>, n: Block, ys: seq<Block>)
    requires NoTouch(xs) && NoTouch(ys)
    requires xs != [] ==> !xs[|xs| - 1].kind.Idle? || !n.kind.Idle?
    requires ys != [] ==> !ys[0].kind.Idle? || !n.kind.Idle?
    ensures NoTouch(xs + [n] + ys)
  {
    var bs := xs + [n] + ys;
    forall i | 0 <= i < |bs| - 1
      ensures Apart(bs, i)
    {
      if i + 1 < |xs| {
        assert Apart(xs, i) && bs[i] == xs[i] && bs[i + 1] == xs[i + 1];
      } else if i > |xs| {
        assert Apart(ys, i - |xs| - 1) && bs[i] == ys[i - |xs| - 1] && bs[i + 1] == ys[i - |xs|];
      }
    }
  }

  // ---------------------------------------------------------------- what a client observes

  lemma TiledDisjoint(bs: seq<Block>, lo: nat, hi: nat, b: Block, c: Block)
    requires Tiled(bs, lo, hi) && b in bs && c in bs
    ensures b == c || b.End() <= c.addr || c.End() <= b.addr
  {
    var i :| 0 <= i < |bs| && bs[i] == b;
    var j :| 0 <= j < |bs| && bs[j] == c;
    if i < j {
      TiledOrder(bs, lo, hi, i, j);
    } else if j < i {
      TiledOrder(bs, lo, hi, j, i);
    }
  }

  /** Every block in use keeps its bytes, and nothing outside the arena changes. */
  ghost predicate Keeps(m: seq<byte>, m': seq<byte>, bs: seq<Block>, lo: nat, hi: nat) {
    && |m| == |m'|
    && (forall b :: b in bs && b.kind.Live? ==> Agree(m, m', b.addr, b.End()))
    && Agree(m, m', 0, lo) && Agree(m, m', hi, |m|)
  }

  lemma KeepsTrans(m: seq<byte>, m': seq<byte>, m'': seq<byte>, bs: seq<Block>, lo: nat, hi: nat)
    requires Keeps(m, m', bs, lo, hi) && Keeps(m', m'', bs, lo, hi)
    ensures Keeps(m, m'', bs, lo, hi)
  {
    forall b | b in bs && b.kind.Live?
      ensures Agree(m, m'', b.addr, b.End())
    {
      AgreeTrans(m, m', m'', b.addr, b.End());
    }
    AgreeTrans(m, m', m'', 0, lo);
    AgreeTrans(m, m', m'', hi, |m|);
  }

  lemma AgreeTrans(m: seq<byte>, m': seq<byte>, m'': seq<byte>, lo: int, hi: int)
    requires |m| == |m'| == |m''| && Agree(m, m', lo, hi) && Agree(m', m'', lo, hi)
    ensures Agree(m, m'', lo, hi)
  {
    forall i | 0 <= i < |m| && lo <= i < hi
      ensures m[i] == m''[i]
    {
      assert m[i] == m'[i];
    }
  }

  /** m' differs from m only inside the headers at `a` and `c`. */
  ghost predicate OnlyAt(m: seq<byte>, m': seq<byte>, a: nat, c: nat) {
    && |m| == |m'|
    && forall i :: 0 <= i < |m| && !(a <= i < a + HEADER) && !(c <= i < c + HEADER) ==> m[i] == m'[i]
  }

  /** Writing a header inside a block that is not in use disturbs no one. */
  lemma KeepsAt(m: seq<byte>, m': seq<byte>, bs: seq<Block>, lo: nat, hi: nat, g: Block, a: nat)
    requires Tiled(bs, lo, hi) && OnlyAt(m, m', a, a)
    requires g in bs && !g.kind.Live? && g.addr <= a && a + HEADER <= g.End()
    ensures Keeps(m, m', bs, lo, hi)
  {
    TiledBounds(bs, lo, hi);
    forall b | b in bs && b.kind.Live?
      ensures Agree(m, m', b.addr, b.End())
    {
      TiledDisjoint(bs, lo, hi, b, g);
    }
  }

  /** Every byte that changed from m to m' lies in the header of a block of `bs` not in use. */
  ghost predicate OnlyHeaders(m: seq<byte>, m': seq<byte>, bs: seq<Block>) {
    && |m| == |m'|
    && forall i :: 0 <= i < |m| && m[i] != m'[i] ==>
         exists b :: b in bs && !b.kind.Live? && b.addr <= i < b.addr + HEADER
  }

  /** `cs` only has unused blocks where `bs` has unused ones. */
  ghost predicate Inside(cs: seq<Block>, bs: seq<Block>) {
    forall c :: c in cs && !c.kind.Live? ==>
      exists g :: g in bs && !g.kind.Live? && g.addr <= c.addr && c.addr + HEADER <= g.End()
  }

  lemma KeepsHeaders(m: seq<byte>, m': seq<byte>, bs: seq<Block>, lo: nat, hi: nat, cs: seq<Block>)
    requires Tiled(bs, lo, hi) && OnlyHeaders(m, m', cs) && Inside(cs, bs)
    ensures Keeps(m, m', bs, lo, hi)
  {
    TiledBounds(bs, lo, hi);
    forall b | b in bs && b.kind.Live?
      ensures Agree(m, m', b.addr, b.End())
    {
      forall i | 0 <= i < |m| && b.addr <= i < b.End()
        ensures m[i] == m'[i]
      {
        if m[i] != m'[i] {
          var c :| c in cs && !c.kind.Live? && c.addr <= i < c.addr + HEADER;
          var g :| g in bs && !g.kind.Live? && g.addr <= c.addr && c.addr + HEADER <= g.End();
          TiledDisjoint(bs, lo, hi, b, g);
        }
      }
    }
    forall i | 0 <= i < |m| && !(lo <= i < hi)
      ensures m[i] == m'[i]
    {
    }
  }

  // ---------------------------------------------------------------- allocation

  /** Index of the first free block large enough, or |bs|. */
  function FitIndex(bs: seq<Block>, need: nat): (i: nat)
    ensures i <= |bs|
    ensures i < |bs| ==> bs[i].kind.Idle? && bs[i].size >= need
  {
    if bs == [] then 0
    else if bs[0].kind.Idle? && bs[0].size >= need then 0
    else 1 + FitIndex(bs[1..], need)
  }

  /** No block before that index fits. */
  lemma {:induction false} FitIndexIsFirst(bs: seq<Block>, need: nat, j: nat)
    requires j < FitIndex(bs, need)
    ensures !(bs[j].kind.Idle? && bs[j].size >= need)
  {
    if j > 0 {
      FitIndexIsFirst(bs[1..], need, j - 1);
    }
  }

  /** What a fitting free block leaves behind: a free block, unless it would be too small. */
  function Remainder(f: Block, need: nat): seq<Block>
    requires f.size >= need
  {
    if f.size - need >= MIN_BLOCK then [Block(f.addr + need, f.size - need, Idle)] else []
  }

  function Taken(f: Block, need: nat): Block
    requires f.size >= need
  {
    Block(f.addr, if f.size - need >= MIN_BLOCK then need else f.size, Live)
  }

  /** The block list after serving `need` from block `i`. */
  function Take(bs: seq<Block>, i: nat, need: nat): seq<Block>
    requires i < |bs| && bs[i].size >= need
  {
    bs[..i] + ([Taken(bs[i], need)] + Remainder(bs[i], need)) + bs[i + 1..]
  }

  ghost predicate FreeByte(bs: seq<Block>, a: int) {
    exists b :: b in bs && b.kind.Idle? && b.addr <= a < b.End()
  }

  /** `n` consecutive free bytes from `a` on. */
  ghost predicate FreeRun(bs: seq<Block>, a: int, n: nat) {
    forall k :: a <= k < a + n ==> FreeByte(bs, k)
  }

  /** Free neighbours are always merged, so a run of free bytes never spans two blocks. */
  lemma FreeRunInOneBlock(bs: seq<Block>, lo: nat, hi: nat, a: int, n: nat) returns (i: nat)
    requires Tiled(bs, lo, hi) && NoTouch(bs) && n > 0 && FreeRun(bs, a, n)
    ensures i < |bs| && bs[i].kind.Idle? && bs[i].addr <= a && a + n <= bs[i].End()
  {
    assert FreeByte(bs, a);
    var b :| b in bs && b.kind.Idle? && b.addr <= a < b.End();
    i :| 0 <= i < |bs| && bs[i] == b;
    assert i < |bs| - 1 ==> Apart(bs, i);
    if a + n > b.End() {
      assert FreeByte(bs, b.End());
      var c :| c in bs && c.kind.Idle? && c.addr <= b.End() < c.End();
      var j :| 0 <= j < |bs| && bs[j] == c;
      TiledBounds(bs, lo, hi);
      if j < i {
        TiledOrder(bs, lo, hi, j, i);
      } else if i + 1 < j {
        TiledOrder(bs, lo, hi, i, i + 1);
        TiledOrder(bs, lo, hi, i + 1, j);
      }
      assert false;
    }
  }

  /** First fit is complete and lowest: the chosen block starts the lowest run of `need` free
      bytes, and there is no such run when no block is chosen. */
  lemma FirstFitIsLowestRun(bs: seq<Block>, lo: nat, hi: nat, need: nat)
    requires Tiled(bs, lo, hi) && NoTouch(bs) && need > 0
    ensures var i := FitIndex(bs, need);
            if i == |bs| then forall a :: !FreeRun(bs, a, need)
            else FreeRun(bs, bs[i].addr, need) && forall a :: FreeRun(bs, a, need) ==> bs[i].addr <= a
  {
    var i := FitIndex(bs, need);
    forall a | FreeRun(bs, a, need)
      ensures i < |bs| && bs[i].addr <= a
    {
      var j := FreeRunInOneBlock(bs, lo, hi, a, need);
      if i < j {
        TiledOrder(bs, lo, hi, i, j);
      } else if j < i {
        FitIndexIsFirst(bs, need, j);
      }
    }
    if i < |bs| {
      assert bs[i] in bs;
      assert FreeRun(bs, bs[i].addr, need);
    }
  }

  lemma TakeWholeKeeps(xs: seq<Block>, f: Block, ys: seq<Block>, lo: nat, hi: nat)
    requires Tiled(xs + [f] + ys, lo, hi) && NoTouch(xs + [f] + ys) && f.kind.Idle?
    ensures var bs := xs + [f.(kind := Live)] + ys;
            && Tiled(bs, lo, hi) && NoTouch(bs)
            && FreeSum(bs) == FreeSum(xs + [f] + ys) - f.size && LiveCount(bs) == LiveCount(xs + [f] + ys) + 1
  {
    var t := f.(kind := Live);
    TiledParts(xs, f, ys, lo, hi);
    TiledParts(xs, t, ys, lo, hi);
    SumsParts(xs, f, ys);
    SumsParts(xs, t, ys);
    NoTouchParts(xs, f, ys);
    NoTouchJoin(xs, t, ys);
  }

  lemma NoTouchParts(xs: seq<Block>, f: Block, ys: seq<Block>)
    requires NoTouch(xs + [f] + ys)
    ensures NoTouch(xs) && NoTouch(ys)
    ensures f.kind.Idle? ==> (xs != [] ==> !xs[|xs| - 1].kind.Idle?) && (ys != [] ==> !ys[0].kind.Idle?)
  {
    var bs := xs + [f] + ys;
    assert bs[|xs|] == f;
    forall i | 0 <= i < |xs| - 1
      ensures Apart(xs, i)
    {
      assert Apart(bs, i) && bs[i] == xs[i] && bs[i + 1] == xs[i + 1];
    }
    forall i | 0 <= i < |ys| - 1
      ensures Apart(ys, i)
    {
      assert Apart(bs, |xs| + 1 + i) && bs[|xs| + 1 + i] == ys[i] && bs[|xs| + 2 + i] == ys[i + 1];
    }
    assert xs != [] ==> Apart(bs, |xs| - 1) && bs[|xs| - 1] == xs[|xs| - 1];
    assert ys != [] ==> Apart(bs, |xs|) && bs[|xs| + 1] == ys[0];
  }

  lemma SplitWellSized(f: Block, need: nat)
    requires WellSized(f) && need >= MIN_BLOCK && need % ALIGN == 0 && f.size - need >= MIN_BLOCK
    ensures WellSized(Block(f.addr, need, Live)) && WellSized(Block(f.addr + need, f.size - need, Idle))
  {
  }

  lemma TakeSplitKeeps(xs: seq<Block>, f: Block, ys: seq<Block>, lo: nat, hi: nat, need: nat)
    requires Tiled(xs + [f] + ys, lo, hi) && NoTouch(xs + [f] + ys) && f.kind.Idle?
    requires need >= MIN_BLOCK && need % ALIGN == 0 && f.size - need >= MIN_BLOCK
    ensures var bs := xs + [Block(f.addr, need, Live)] + ([Block(f.addr + need, f.size - need, Idle)] + ys);
            && Tiled(bs, lo, hi) && NoTouch(bs)
            && FreeSum(bs) == FreeSum(xs + [f] + ys) - need && LiveCount(bs) == LiveCount(xs + [f] + ys) + 1
  {
    var t, r := Block(f.addr, need, Live), Block(f.addr + need, f.size - need, Idle);
    TiledParts(xs, f, ys, lo, hi);
    SplitWellSized(f, need);
    assert ([r] + ys)[1..] == ys;
    TiledParts(xs, t, [r] + ys, lo, hi);
    SumsParts(xs, f, ys);
    SumsParts(xs, t, [r] + ys);
    NoTouchParts(xs, f, ys);
    NoTouchJoin([], r, ys);
    assert [] + [r] + ys == [r] + ys;
    NoTouchJoin(xs, t, [r] + ys);
  }

  /** Serving a request keeps the tiling and moves exactly the taken bytes from free to live. */
  lemma TakeKeeps(bs: seq<Block>, i: nat, need: nat, lo: nat, hi: nat)
    requires Tiled(bs, lo, hi) && NoTouch(bs)
    requires i < |bs| && bs[i].kind.Idle? && bs[i].size >= need >= MIN_BLOCK && need % ALIGN == 0
    ensures Tiled(Take(bs, i, need), lo, hi) && NoTouch(Take(bs, i, need))
    ensures FreeSum(Take(bs, i, need)) == FreeSum(bs) - Taken(bs[i], need).size
    ensures LiveCount(Take(bs, i, need)) == LiveCount(bs) + 1
  {
    var f, xs, ys := bs[i], bs[..i], bs[i + 1..];
    assert bs == xs + [f] + ys;
    if f.size - need >= MIN_BLOCK {
      TakeSplitKeeps(xs, f, ys, lo, hi, need);
      assert Take(bs, i, need) == xs + [Taken(f, need)] + (Remainder(f, need) + ys);
    } else {
      TakeWholeKeeps(xs, f, ys, lo, hi);
      assert Take(bs, i, need) == xs + [Taken(f, need)] + ys;
    }
  }

  // ---------------------------------------------------------------- release

  /** Index of the live block whose payload starts at `ptr`, or |bs|. */
  function LiveIndex(bs: seq<Block>, ptr: nat): (i: nat)
    ensures i <= |bs|
    ensures i < |bs| ==> bs[i].kind.Live? && bs[i].addr + HEADER == ptr
    ensures i == |bs| ==> forall b :: b in bs && b.kind.Live? ==> b.addr + HEADER != ptr
  {
    if bs == [] then 0
    else if bs[0].kind.Live? && bs[0].addr + HEADER == ptr then 0
    else 1 + LiveIndex(bs[1..], ptr)
  }

  /** `ptr` is the payload of a block in use. */
  predicate LiveAt(bs: seq<Block>, ptr: nat) {
    LiveIndex(bs, ptr) < |bs|
  }

  /** The block list once block `i` is off duty but not yet back on the list. */
  function Loosened(bs: seq<Block>, i: nat): seq<Block>
    requires i < |bs|
  {
    bs[i := bs[i].(kind := Loose)]
  }

  /** The block list after freeing block `i`. */
  function Release(bs: seq<Block>, i: nat): seq<Block>
    requires i < |bs|
  {
    Coalesce(bs[..i], bs[i].(kind := Loose), bs[i + 1..])
  }

  lemma LoosenedParts(bs: seq<Block>, i: nat)
    requires i < |bs|
    ensures bs == bs[..i] + [bs[i]] + bs[i + 1..]
    ensures Loosened(bs, i) == bs[..i] + [bs[i].(kind := Loose)] + bs[i + 1..]
  {
  }

  /** Freeing a block keeps the tiling and moves exactly its bytes from live to free. */
  lemma ReleaseKeeps(bs: seq<Block>, i: nat, lo: nat, hi: nat)
    requires Tiled(bs, lo, hi) && NoTouch(bs) && i < |bs| && bs[i].kind.Live?
    ensures Tiled(Release(bs, i), lo, hi) && NoTouch(Release(bs, i))
    ensures FreeSum(Release(bs, i)) == FreeSum(bs) + bs[i].size
    ensures LiveCount(Release(bs, i)) == LiveCount(bs) - 1
  {
    var xs, b, ys := bs[..i], bs[i], bs[i + 1..];
    var x := b.(kind := Loose);
    LoosenedParts(bs, i);
    TiledParts(xs, b, ys, lo, hi);
    TiledParts(xs, x, ys, lo, hi);
    NoTouchParts(xs, b, ys);
    SumsParts(xs, b, ys);
    CoalesceKeeps(xs, x, ys, lo, hi);
  }

  /** The header of a block in use, as the ownership check of free reads it. */
  lemma LiveHeader(m: seq<byte>, bs: seq<Block>, lo: nat, hi: nat, i: nat)
    requires Tiled(bs, lo, hi) && Chained(m, bs, hi) && i < |bs| && bs[i].kind.Live?
    ensures lo <= bs[i].addr && bs[i].End() <= hi && WellSized(bs[i])
    ensures HeaderOk(m, bs[i], 0)
  {
    LoosenedParts(bs, i);
    TiledBounds(bs, lo, hi);
    assert bs[i] in bs;
    ChainedParts(m, bs[..i], bs[i], bs[i + 1..], hi);
  }

  /** Payload pointers identify their blocks. */
  lemma LiveIndexOf(bs: seq<Block>, lo: nat, hi: nat, i: nat)
    requires Tiled(bs, lo, hi) && i < |bs| && bs[i].kind.Live?
    ensures LiveIndex(bs, bs[i].addr + HEADER) == i
  {
    var j := LiveIndex(bs, bs[i].addr + HEADER);
    TiledBounds(bs, lo, hi);
    if j < i {
      TiledOrder(bs, lo, hi, j, i);
    } else if i < j < |bs| {
      TiledOrder(bs, lo, hi, i, j);
    }
    assert bs[i] in bs;
  }

  // ---------------------------------------------------------------- whole-arena facts

  /** Conservation: free and live bytes make up the arena. */
  lemma {:induction false} SumsCover(bs: seq<Block>, lo: nat, hi: nat)
    requires Tiled(bs, lo, hi) && NoLoose(bs)
    ensures FreeSum(bs) + LiveSum(bs) == hi - lo
    ensures LiveCount(bs) * MIN_BLOCK <= LiveSum(bs)
  {
    if bs != [] {
      TiledBounds(bs[1..], bs[0].End(), hi);
      SumsCover(bs[1..], bs[0].End(), hi);
    }
  }

  /** With nothing live the arena is one free block again. */
  lemma NothingLiveIsWhole(bs: seq<Block>, lo: nat, hi: nat)
    requires Tiled(bs, lo, hi) && NoTouch(bs) && NoLoose(bs) && LiveCount(bs) == 0 && lo < hi
    ensures bs == [Block(lo, hi - lo, Idle)]
  {
    assert bs[0] in bs && (|bs| > 1 ==> bs[1] in bs);
    AllFree(bs);
    assert |bs| > 1 ==> Apart(bs, 0);
    assert bs[1..] == [];
  }

  lemma {:induction false} AllFree(bs: seq<Block>)
    requires NoLoose(bs) && LiveCount(bs) == 0
    ensures forall b :: b in bs ==> b.kind.Idle?
  {
    if bs != [] {
      AllFree(bs[1..]);
    }
  }

  /** Whatever the clients write into their payloads, the heap stays the same. */
  lemma {:induction false} PayloadWritesKeepLinks(m: seq<byte>, m': seq<byte>, bs: seq<Block>, lo: nat, hi: nat)
    requires Tiled(bs, lo, hi) && Chained(m, bs, hi) && |m| == |m'| && hi + HEADER <= |m|
    requires forall i :: 0 <= i < |m| && m[i] != m'[i] ==>
               exists b :: b in bs && b.kind.Live? && b.addr + HEADER <= i < b.End()
    ensures Chained(m', bs, hi)
    ensures SizeOf(m', hi) == SizeOf(m, hi) && NextOf(m', hi) == NextOf(m, hi)
  {
    TiledBounds(bs, lo, hi);
    forall c | c in bs
      ensures Agree(m, m', c.addr, c.addr + HEADER)
    {
      forall i | 0 <= i < |m| && c.addr <= i < c.addr + HEADER
        ensures m[i] == m'[i]
      {
        if m[i] != m'[i] {
          var b :| b in bs && b.kind.Live? && b.addr + HEADER <= i < b.End();
          TiledDisjoint(bs, lo, hi, b, c);
        }
      }
    }
    ChainedFrame(m, m', bs, hi);
    AgreeHeader(m, m', hi);
  }

  // ---------------------------------------------------------------- facts about a served request

  lemma {:induction false} TakeLive(bs: seq<Block>, i: nat, need: nat, lo: nat, hi: nat)
    requires Tiled(bs, lo, hi) && NoTouch(bs) && NoLoose(bs)
    requires i < |bs| && bs[i].kind.Idle? && bs[i].size >= need >= MIN_BLOCK && need % ALIGN == 0
    ensures NoLoose(Take(bs, i, need))
    ensures Take(bs, i, need)[i] == Taken(bs[i], need) && LiveIndex(Take(bs, i, need), bs[i].addr + HEADER) == i
    ensures (bs[i].addr + HEADER) % ALIGN == 0
  {
    TakeKeeps(bs, i, need, lo, hi);
    LiveIndexOf(Take(bs, i, need), lo, hi, i);
    TiledBounds(bs, lo, hi);
    assert bs[i] in bs;
    forall b | b in Take(bs, i, need)
      ensures !b.kind.Loose?
    {
      assert b in bs[..i] || b == Taken(bs[i], need) || b in Remainder(bs[i], need) || b in bs[i + 1..];
    }
  }

  /** A request beyond the size limit fits nowhere. */
  lemma TooLargeNeverFits(bs: seq<Block>, lo: nat, hi: nat, need: nat)
    requires Tiled(bs, lo, hi) && hi - lo < need
    ensures FitIndex(bs, need) == |bs|
  {
    var i := FitIndex(bs, need);
    assert i < |bs| ==> bs[i] in bs;
    TiledBounds(bs, lo, hi);
  }

  lemma ReleaseLive(bs: seq<Block>, i: nat)
    requires NoLoose(bs) && i < |bs|
    ensures NoLoose(Release(bs, i))
  {
    forall b | b in Release(bs, i)
      ensures !b.kind.Loose?
    {
      assert b in bs || b.kind.Idle?;
    }
  }

  lemma TakeAssoc(xs: seq<Block>, t: Block, r: seq<Block>, ys: seq<Block>)
    ensures xs + [t] + (r + ys) == xs + ([t] + r) + ys
  {
  }

  /** First fit in terms of runs, for an arena that may also be empty. */
  lemma NoRunOrLowest(bs: seq<Block>, lo: nat, hi: nat, need: nat)
    requires need > 0 && (bs == [] || (Tiled(bs, lo, hi) && NoTouch(bs)))
    ensures var i := FitIndex(bs, need);
            if i == |bs| then forall a :: !FreeRun(bs, a, need)
            else FreeRun(bs, bs[i].addr, need) && forall a :: FreeRun(bs, a, need) ==> bs[i].addr <= a
  {
    if bs == [] {
      forall a
        ensures !FreeRun(bs, a, need)
      {
        assert !FreeByte(bs, a);
      }
    } else {
      FirstFitIsLowestRun(bs, lo, hi, need);
    }
  }

  lemma DistinctBlocks(bs: seq<Block>, lo: nat, hi: nat, i: nat, j: nat)
    requires Tiled(bs, lo, hi) && i < |bs| && j < |bs| && i != j
    ensures bs[i].End() <= bs[j].addr || bs[j].End() <= bs[i].addr
  {
    if i < j {
      TiledOrder(bs, lo, hi, i, j);
    } else {
      TiledOrder(bs, lo, hi, j, i);
    }
  }

  /** Writing inside the payload of one live block leaves the heap as it was. */
  lemma PayloadWritten(m: seq<byte>, m': seq<byte>, bs: seq<Block>, lo: nat, hi: nat, j: nat)
    requires Tiled(bs, lo, hi) && Chained(m, bs, hi) && |m| == |m'| && hi + HEADER <= |m|
    requires j < |bs| && bs[j].kind.Live?
    requires forall i :: 0 <= i < |m| && !(bs[j].addr + HEADER <= i < bs[j].End()) ==> m[i] == m'[i]
    ensures Chained(m', bs, hi)
    ensures SizeOf(m', hi) == SizeOf(m, hi) && NextOf(m', hi) == NextOf(m, hi)
  {
    assert bs[j] in bs;
    PayloadWritesKeepLinks(m, m', bs, lo, hi);
  }

  // ---------------------------------------------------------------- facts about realloc and calloc

  /** What a request does to the block list, and the pointer it returns. */
  function AllocResult(bs: seq<Block>, bytes: nat): (seq<Block>, nat) {
    var k := FitIndex(bs, Need(bytes));
    if k == |bs| then (bs, 0) else (Take(bs, k, Need(bytes)), bs[k].addr + HEADER)
  }

  /** n is the least size a block for `bytes` may have: aligned, with room for its header, and no less
      than two headers. */
  ghost predicate LeastSize(bytes: nat, n: nat) {
    && Holds(bytes, n) && forall k: nat :: k < n ==> !Holds(bytes, k)
  }

  predicate Holds(bytes: nat, n: nat) { n % ALIGN == 0 && n >= 2 * HEADER && n >= bytes + HEADER }

  /** The list bs1 has given just the block at r - HEADER out of bs, and no more of it than it must: exactly
      n bytes if two headers' worth are free behind them, and less than that on top otherwise. Every other
      free byte is still free. */
  ghost predicate Frugal(bs: seq<Block>, bs1: seq<Block>, r: nat, n: nat) {
    && LiveIndex(bs1, r) < |bs1|
    && var size := bs1[LiveIndex(bs1, r)].size;
       && n <= size < n + 2 * HEADER
       && (FreeRun(bs, r - HEADER, n + 2 * HEADER) ==> size == n)
       && forall a :: FreeByte(bs1, a) <==> FreeByte(bs, a) && !(r - HEADER <= a < r - HEADER + size)
  }

  /** `bytes` were served at r without waste. */
  ghost predicate TakesLeast(bs: seq<Block>, bs1: seq<Block>, r: nat, bytes: nat) {
    exists n: nat :: LeastSize(bytes, n) && Frugal(bs, bs1, r, n)
  }

  lemma NeedIsLeast(bytes: nat)
    ensures LeastSize(bytes, Need(bytes))
  {
    forall k: nat | k < Need(bytes)
      ensures !Holds(bytes, k)
    {
    }
  }

  /** What an allocation takes away from the free bytes: the bytes of the block served, and no others. */
  lemma TakeFreeBytes(bs: seq<Block>, i: nat, need: nat, lo: nat, hi: nat, a: int)
    requires Tiled(bs, lo, hi) && NoTouch(bs) && i < |bs| && bs[i].kind.Idle? && bs[i].size >= need
    ensures FreeByte(Take(bs, i, need), a) <==>
            FreeByte(bs, a) && !(bs[i].addr <= a < Taken(bs[i], need).End())
  {
    var f, bs1, rest := bs[i], Take(bs, i, need), Remainder(bs[i], need);
    assert f in bs;
    if FreeByte(bs1, a) {
      var b :| b in bs1 && b.kind.Idle? && b.addr <= a < b.End();
      if b in rest {
        assert FreeByte(bs, a);
      } else {
        assert b in bs[..i] || b in bs[i + 1..];
        OtherBlock(bs, i, lo, hi, b);
      }
    }
    if FreeByte(bs, a) && !(f.addr <= a < Taken(f, need).End()) {
      var b :| b in bs && b.kind.Idle? && b.addr <= a < b.End();
      if b == f {
        assert rest[0] in bs1;
      } else {
        assert b in bs[..i] || b in bs[i + 1..];
        assert b in bs1;
      }
    }
  }

  lemma OtherBlock(bs: seq<Block>, i: nat, lo: nat, hi: nat, b: Block)
    requires Tiled(bs, lo, hi) && i < |bs| && (b in bs[..i] || b in bs[i + 1..])
    ensures b in bs && (b.End() <= bs[i].addr || bs[i].End() <= b.addr)
  {
    var j :| 0 <= j < |bs| && j != i && bs[j] == b;
    TiledBounds(bs, lo, hi);
    if j < i {
      TiledOrder(bs, lo, hi, j, i);
    } else {
      TiledOrder(bs, lo, hi, i, j);
    }
  }

  /** Allocation wastes nothing: it takes the least size that holds the request, or less than two headers
      more when too little would be left, and every other free byte stays free. */
  lemma AllocTakesLeast(bs: seq<Block>, bytes: nat, lo: nat, hi: nat)
    requires Tiled(bs, lo, hi) && NoTouch(bs) && NoLoose(bs) && AllocResult(bs, bytes).1 != 0
    ensures TakesLeast(bs, AllocResult(bs, bytes).0, AllocResult(bs, bytes).1, bytes)
  {
    var n := Need(bytes);
    var k, r := FitIndex(bs, n), AllocResult(bs, bytes).1;
    var f, bs1 := bs[k], AllocResult(bs, bytes).0;
    NeedIsLeast(bytes);
    TakeLive(bs, k, n, lo, hi);
    forall a
      ensures FreeByte(bs1, a) <==> FreeByte(bs, a) && !(f.addr <= a < Taken(f, n).End())
    {
      TakeFreeBytes(bs, k, n, lo, hi, a);
    }
    if FreeRun(bs, f.addr, n + 2 * HEADER) {
      var i := FreeRunInOneBlock(bs, lo, hi, f.addr, n + 2 * HEADER);
      if i != k {
        OtherBlock(bs, k, lo, hi, bs[i]);
        assert false;
      }
    }
    assert Frugal(bs, bs1, r, n);
  }

  function FreeResult(bs: seq<Block>, ptr: nat): seq<Block> {
    var i := LiveIndex(bs, ptr);
    if i == |bs| then bs else Release(bs, i)
  }

  /** realloc: a request, a release, nothing at all, or a request followed by a release. */
  function ReallocResult(bs: seq<Block>, ptr: nat, bytes: nat): (seq<Block>, nat) {
    var i := LiveIndex(bs, ptr);
    if ptr == 0 then AllocResult(bs, bytes)
    else if bytes == 0 then (FreeResult(bs, ptr), 0)
    else if i == |bs| then (bs, 0)
    else if bs[i].size >= bytes + HEADER then (bs, ptr)
    else
      var (bs1, r) := AllocResult(bs, bytes);
      if r == 0 then (bs, 0) else (FreeResult(bs1, ptr), r)
  }

  /** The block list with the block at `ptr` no longer counted as in use. */
  function Without(bs: seq<Block>, ptr: nat): seq<Block> {
    var i := LiveIndex(bs, ptr);
    if i == |bs| then bs else Loosened(bs, i)
  }

  lemma KeepsLess(m: seq<byte>, m': seq<byte>, bs: seq<Block>, i: nat, lo: nat, hi: nat)
    requires Keeps(m, m', bs, lo, hi) && i < |bs|
    ensures Keeps(m, m', Loosened(bs, i), lo, hi)
  {
    forall b | b in Loosened(bs, i) && b.kind.Live?
      ensures b in bs
    {
    }
  }

  /** Serving one request does not touch the block of another. */
  lemma StillLive(bs: seq<Block>, k: nat, need: nat, i: nat, ptr: nat, lo: nat, hi: nat)
    requires Tiled(bs, lo, hi) && NoTouch(bs) && NoLoose(bs) && i < |bs| && bs[i].kind.Live?
    requires ptr == bs[i].addr + HEADER
    requires k < |bs| && bs[k].kind.Idle? && bs[k].size >= need >= MIN_BLOCK && need % ALIGN == 0
    ensures var bs1 := Take(bs, k, need);
            var j := LiveIndex(bs1, ptr);
            && j < |bs1| && bs1[j] == bs[i] && j != k && k < |bs1| && bs1[k] == Taken(bs[k], need)
    ensures forall b :: b in bs && b.kind.Live? ==> b in Take(bs, k, need)
  {
    var bs1 := Take(bs, k, need);
    TakeKeeps(bs, k, need, lo, hi);
    TakeLive(bs, k, need, lo, hi);
    var n := |bs1| - |bs|;
    var j := if i < k then i else i + n;
    assert bs1[j] == bs[i];
    LiveIndexOf(bs1, lo, hi, j);
    forall b | b in bs && b.kind.Live?
      ensures b in bs1
    {
      var l :| 0 <= l < |bs| && bs[l] == b;
      assert b == bs1[if l < k then l else l + n];
    }
  }

  /** Allocating, copying and freeing move one payload and disturb no other. */
  lemma Relocated(m0: seq<byte>, m1: seq<byte>, m2: seq<byte>, m3: seq<byte>, bs: seq<Block>, i: nat, k: nat,
                  need: nat, ptr: nat, r: nat, size: nat, lo: nat, hi: nat)
    requires Tiled(bs, lo, hi) && NoTouch(bs) && NoLoose(bs) && i < |bs| && bs[i].kind.Live?
    requires k < |bs| && bs[k].kind.Idle? && bs[k].size >= need >= MIN_BLOCK && need % ALIGN == 0
    requires ptr == bs[i].addr + HEADER && LiveIndex(Take(bs, k, need), ptr) < |Take(bs, k, need)|
    requires r == bs[k].addr + HEADER && size == bs[i].size - HEADER && size + HEADER <= need
    requires hi <= |m0| == |m1| == |m2| == |m3|
    requires Keeps(m0, m1, bs, lo, hi)
    requires Keeps(m2, m3, Loosened(Take(bs, k, need), LiveIndex(Take(bs, k, need), ptr)), lo, hi)
    requires r + size <= |m1| && ptr + size <= |m1|
    requires forall a :: r <= a < r + size ==> m2[a] == m1[ptr + (a - r)]
    requires forall a :: 0 <= a < |m1| && !(r <= a < r + size) ==> m2[a] == m1[a]
    ensures forall a :: r <= a < r + size ==> m3[a] == m0[ptr + (a - r)]
    ensures Keeps(m0, m3, Loosened(bs, i), lo, hi)
  {
    var bs1 := Take(bs, k, need);
    var j := LiveIndex(bs1, ptr);
    var t := Taken(bs[k], need);
    TakeKeeps(bs, k, need, lo, hi);
    StillLive(bs, k, need, i, ptr, lo, hi);
    TiledBounds(bs, lo, hi);
    TiledBounds(bs1, lo, hi);
    assert bs[i] in bs && t in bs1;
    assert Loosened(bs1, j)[k] == t;
    assert Agree(m2, m3, t.addr, t.End());
    assert Agree(m0, m1, bs[i].addr, bs[i].End());
    forall a | r <= a < r + size
      ensures m3[a] == m0[ptr + (a - r)]
    {
      assert m2[a] == m3[a];
      assert m0[ptr + (a - r)] == m1[ptr + (a - r)];
    }
    forall b | b in Loosened(bs, i) && b.kind.Live?
      ensures Agree(m0, m3, b.addr, b.End())
    {
      assert b in bs;
      OtherLive(bs, k, need, i, j, ptr, b, lo, hi);
      KeptApart(m0, m1, m2, m3, b.addr, b.End(), r, size);
    }
    KeptApart(m0, m1, m2, m3, 0, lo, r, size);
    KeptApart(m0, m1, m2, m3, hi, |m0|, r, size);
  }

  lemma KeptApart(m0: seq<byte>, m1: seq<byte>, m2: seq<byte>, m3: seq<byte>, lo: int, hi: int, r: nat, size: nat)
    requires |m0| == |m1| == |m2| == |m3|
    requires Agree(m0, m1, lo, hi) && Agree(m2, m3, lo, hi) && (hi <= r || r + size <= lo)
    requires forall a :: 0 <= a < |m1| && !(r <= a < r + size) ==> m2[a] == m1[a]
    ensures Agree(m0, m3, lo, hi)
  {
    forall a | 0 <= a < |m0| && lo <= a < hi
      ensures m0[a] == m3[a]
    {
      assert m0[a] == m1[a];
      assert m2[a] == m3[a];
    }
  }

  /** A third live block survives a relocation in place, apart from the new one. */
  lemma OtherLive(bs: seq<Block>, k: nat, need: nat, i: nat, j: nat, ptr: nat, b: Block, lo: nat, hi: nat)
    requires Tiled(bs, lo, hi) && NoTouch(bs) && NoLoose(bs) && i < |bs| && bs[i].kind.Live?
    requires k < |bs| && bs[k].kind.Idle? && bs[k].size >= need >= MIN_BLOCK && need % ALIGN == 0
    requires ptr == bs[i].addr + HEADER && j == LiveIndex(Take(bs, k, need), ptr) < |Take(bs, k, need)|
    requires b in Loosened(bs, i) && b.kind.Live?
    ensures b in Loosened(Take(bs, k, need), j)
    ensures b.End() <= bs[k].addr || bs[k].End() <= b.addr
  {
    var bs1 := Take(bs, k, need);
    StillLive(bs, k, need, i, ptr, lo, hi);
    var l :| 0 <= l < |bs| && Loosened(bs, i)[l] == b;
    assert l != i;
    assert b == bs[l];
    DistinctBlocks(bs, lo, hi, l, k);
    DistinctBlocks(bs, lo, hi, l, i);
    TiledBounds(bs, lo, hi);
    assert b in bs && bs[i] in bs;
    assert b in bs1;
    var n :| 0 <= n < |bs1| && bs1[n] == b;
    assert n != j;
    assert Loosened(bs1, j)[n] == b;
  }

  lemma Zeroed(m0: seq<byte>, m1: seq<byte>, m2: seq<byte>, bs: seq<Block>, k: nat, need: nat, lo: nat, hi: nat)
    requires Tiled(bs, lo, hi) && k < |bs| && bs[k].kind.Idle? && bs[k].size >= need
    requires Keeps(m0, m1, bs, lo, hi) && |m1| == |m2|
    requires forall a :: 0 <= a < |m1| && !(bs[k].addr <= a < bs[k].addr + need) ==> m2[a] == m1[a]
    ensures Keeps(m0, m2, bs, lo, hi)
  {
    TiledBounds(bs, lo, hi);
    assert bs[k] in bs;
    forall b | b in bs && b.kind.Live?
      ensures Agree(m0, m2, b.addr, b.End())
    {
      TiledDisjoint(bs, lo, hi, b, bs[k]);
      KeptApart(m0, m1, m2, m2, b.addr, b.End(), bs[k].addr, need);
    }
    KeptApart(m0, m1, m2, m2, 0, lo, bs[k].addr, need);
    KeptApart(m0, m1, m2, m2, hi, |m0|, bs[k].addr, need);
  }

  lemma ProductOverflows(n: nat, size: nat)
    requires n != 0 && size > (ADDRESS_SPACE - 1) / n
    ensures n * size >= ADDRESS_SPACE
  {
    var q := (ADDRESS_SPACE - 1) / n;
    assert n * (q + 1) > ADDRESS_SPACE - 1;
    assert n * size >= n * (q + 1);
  }

  lemma ProductFits(n: nat, size: nat)
    requires n == 0 || size <= (ADDRESS_SPACE - 1) / n
    ensures n * size < ADDRESS_SPACE
  {
    if n != 0 {
      var q := (ADDRESS_SPACE - 1) / n;
      assert n * q <= ADDRESS_SPACE - 1;
      assert n * size <= n * q;
    }
  }

  // ---------------------------------------------------------------- the largest free block

  function Max(a: nat, b: nat): nat { if a < b then b else a }

  /** Size of the largest free block, 0 when there is none. */
  function LargestIdle(bs: seq<Block>): nat {
    if bs == [] then 0 else Max(if bs[0].kind.Idle? then bs[0].size else 0, LargestIdle(bs[1..]))
  }

  lemma {:induction false} LargestConcat(xs: seq<Block>, ys: seq<Block>)
    ensures LargestIdle(xs + ys) == Max(LargestIdle(xs), LargestIdle(ys))
  {
    if xs == [] {
      assert xs + ys == ys;
    } else {
      assert (xs + ys)[1..] == xs[1..] + ys;
      LargestConcat(xs[1..], ys);
    }
  }

  lemma {:induction false} LargestNone(bs: seq<Block>)
    requires NoFree(bs)
    ensures LargestIdle(bs) == 0
  {
    if bs != [] {
      LargestNone(bs[1..]);
    }
  }

  lemma LargestNoFree(pre: seq<Block>, f: Block)
    requires NoFree(pre) && f.kind.Idle?
    ensures LargestIdle(pre + [f]) == f.size
  {
    LargestConcat(pre, [f]);
    LargestNone(pre);
    assert [f][1..] == [];
  }

  /** The reported largest free block tells exactly which requests succeed. */
  lemma {:induction false} FitsIffWithinLargest(bs: seq<Block>, need: nat)
    requires need > 0
    ensures FitIndex(bs, need) < |bs| <==> need <= LargestIdle(bs)
  {
    if bs != [] {
      FitsIffWithinLargest(bs[1..], need);
    }
  }

  lemma LinksPositive(p: seq<Block>, t: seq<Block>, lo: nat, hi: nat)
    requires Tiled(p + t, lo, hi) && 0 < lo < hi
    ensures FirstFree(t, hi) != 0
  {
    var mid := TiledSplit(p, t, lo, hi);
    FirstFreePositive(t, mid, hi);
  }

  lemma {:induction false} FirstFreePositive(bs: seq<Block>, lo: nat, hi: nat)
    requires Tiled(bs, lo, hi) && 0 < lo
    ensures FirstFree(bs, hi) != 0
  {
    if bs != [] {
      FirstFreePositive(bs[1..], bs[0].End(), hi);
    }
  }
}
