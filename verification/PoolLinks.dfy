/** What the writes of one allocator operation do to the links of the free list. */
module PoolLinks {
  import opened PoolHeap

  /** Links only lead to blocks of the segment they run through, or out of it. */
  lemma {:induction false} FreeAddrBound(ys: seq<Block>, lo: nat, hi: nat)
    requires Tiled(ys, lo, hi)
    ensures lo <= FirstFree(ys, hi) <= hi
    ensures FirstFree(ys, hi) == lo <==> ys == [] || ys[0].kind.Idle?
    ensures FirstFree(ys, hi) == hi <==> NoFree(ys)
  {
    if ys != [] {
      TiledBounds(ys, lo, hi);
      FreeAddrBound(ys[1..], ys[0].End(), hi);
    }
  }

  /** The last free block of p + s is the last of p; it touches the end exactly when s is empty. */
  lemma LastFree(m: seq<byte>, p: seq<Block>, s: seq<Block>, lo: nat, hi: nat, nx: nat)
    requires Tiled(p + s, lo, hi) && Chained(m, p + s, nx) && NoFree(s)
    requires p != [] ==> p[|p| - 1].kind.Idle?
    ensures p != [] ==> HeaderOk(m, p[|p| - 1], nx) && WellSized(p[|p| - 1])
    ensures p != [] ==> (p[|p| - 1].End() == hi <==> s == [])
    ensures (p + s != [] && (p + s)[|p + s| - 1].kind.Idle?) <==> (p != [] && s == [])
  {
    if p != [] {
      var f := p[|p| - 1];
      assert p + s == p[..|p| - 1] + [f] + s;
      ChainedParts(m, p[..|p| - 1], f, s, nx);
      FirstFreeNone(s, nx);
      var mid := TiledSplit(p, s, lo, hi);
      TiledBounds(p + s, lo, hi);
      assert f in p + s;
    }
    if s != [] {
      assert (p + s)[|p + s| - 1] in s;
    } else {
      assert p + s == p;
    }
  }

  /** A free block of a segment is linked from inside the segment. */
  lemma FirstFreeBelow(p: seq<Block>, s: seq<Block>, lo: nat, hi: nat, nx: nat)
    requires Tiled(p + s, lo, hi)
    ensures NoFree(s) || FirstFree(s, nx) + MIN_BLOCK <= hi
  {
    if !NoFree(s) {
      TiledBounds(p + s, lo, hi);
      var pre, f, post := SplitFirstFree(s, nx);
      assert (p + s)[|p| + |pre|] == f;
    }
  }

  // --------------------------------------------------------------- links after an insertion

  /** What an insertion leaves behind the new block is linked as before. */
  lemma SpliceTail(m: seq<byte>, m': seq<byte>, b: Block, ys: seq<Block>, hi: nat, a: nat, c: nat)
    requires Tiled(ys, b.End(), hi) && Chained(m, ys, hi) && OnlyAt(m, m', a, c)
    requires a + HEADER <= b.End() && c + HEADER <= b.End()
    ensures Chained(m', RightRest(ys), hi)
  {
    TiledBounds(ys, b.End(), hi);
    if ys != [] && ys[0].kind.Idle? {
      ChainedFrame(m, m', ys[1..], hi);
    } else {
      ChainedFrame(m, m', ys, hi);
    }
  }

  /** The blocks before a free last one. */
  lemma UpToLast(m: seq<byte>, xs: seq<Block>, lo: nat, end: nat, q: nat)
    requires xs != [] && xs[|xs| - 1].kind.Idle? && Tiled(xs, lo, end) && Chained(m, xs, q)
    ensures var pre, f := LeftRest(xs), xs[|xs| - 1];
            && Tiled(pre, lo, f.addr) && WellSized(f) && f.End() == end && lo <= f.addr
            && Chained(m, pre, f.addr) && FirstFree(xs, q) == FirstFree(pre, f.addr)
  {
    var pre, f := LeftRest(xs), xs[|xs| - 1];
    assert pre + [f] == xs && pre + [f] + [] == xs;
    SnocTiled(pre, f, lo, end);
    TiledBounds(pre, lo, f.addr);
    ChainedParts(m, pre, f, [], q);
  }

  /** Links after an insertion that merged with the free block in front. */
  lemma SpliceMerged(m: seq<byte>, m': seq<byte>, xs: seq<Block>, x: Block, ys: seq<Block>, lo: nat, hi: nat)
    requires Tiled(xs + [x] + ys, lo, hi) && Chained(m, xs, FirstFree(ys, hi)) && Chained(m, ys, hi)
    requires xs != [] && xs[|xs| - 1].kind.Idle?
    requires OnlyAt(m, m', xs[|xs| - 1].addr, xs[|xs| - 1].addr)
    requires HeaderOk(m', Merged(xs, x, ys), FirstFree(RightRest(ys), hi))
    ensures Chained(m', Coalesce(xs, x, ys), hi)
    ensures FirstFree(Coalesce(xs, x, ys), hi) == FirstFree(xs, FirstFree(ys, hi))
  {
    var pre, f := LeftRest(xs), xs[|xs| - 1];
    TiledParts(xs, x, ys, lo, hi);
    UpToLast(m, xs, lo, x.addr, FirstFree(ys, hi));
    TiledBounds(pre, lo, f.addr);
    ChainedFrame(m, m', pre, f.addr);
    SpliceTail(m, m', x, ys, hi, f.addr, f.addr);
    ChainedParts(m', pre, Merged(xs, x, ys), RightRest(ys), hi);
  }

  /** Links after an insertion behind the free block `p[|p| - 1]`, which it does not touch. */
  lemma SpliceAfter(m: seq<byte>, m': seq<byte>, p: seq<Block>, s: seq<Block>, x: Block, ys: seq<Block>,
                    lo: nat, hi: nat)
    requires Tiled(p + s + [x] + ys, lo, hi) && Chained(m, p + s, FirstFree(ys, hi)) && Chained(m, ys, hi)
    requires p != [] && p[|p| - 1].kind.Idle? && NoFree(s) && s != []
    requires OnlyAt(m, m', p[|p| - 1].addr, x.addr)
    requires HeaderOk(m', p[|p| - 1], x.addr)
    requires HeaderOk(m', Merged(p + s, x, ys), FirstFree(RightRest(ys), hi))
    ensures Chained(m', Coalesce(p + s, x, ys), hi)
    ensures FirstFree(Coalesce(p + s, x, ys), hi) == FirstFree(p + s, FirstFree(ys, hi))
  {
    var xs, pre, f := p + s, p[..|p| - 1], p[|p| - 1];
    assert xs == pre + [f] + s;
    assert xs[|xs| - 1] in s;
    TiledParts(xs, x, ys, lo, hi);
    TiledParts(pre, f, s, lo, x.addr);
    TiledBounds(pre, lo, f.addr);
    TiledBounds(s, f.End(), x.addr);
    Relink(m, m', pre, f, s, FirstFree(ys, hi), x.addr);
    SpliceTail(m, m', x, ys, hi, f.addr, x.addr);
    ChainedParts(m', xs, Merged(xs, x, ys), RightRest(ys), hi);
  }

  /** Links after an insertion in front of every free block. */
  lemma SpliceFirst(m: seq<byte>, m': seq<byte>, xs: seq<Block>, x: Block, ys: seq<Block>, lo: nat, hi: nat)
    requires Tiled(xs + [x] + ys, lo, hi) && Chained(m, xs, FirstFree(ys, hi)) && Chained(m, ys, hi)
    requires NoFree(xs) && OnlyAt(m, m', x.addr, x.addr)
    requires HeaderOk(m', Merged(xs, x, ys), FirstFree(RightRest(ys), hi))
    ensures Chained(m', Coalesce(xs, x, ys), hi)
    ensures FirstFree(Coalesce(xs, x, ys), hi) == x.addr
  {
    assert xs != [] ==> xs[|xs| - 1] in xs;
    TiledParts(xs, x, ys, lo, hi);
    TiledBounds(xs, lo, x.addr);
    ChainedNoFree(m, xs, FirstFree(ys, hi), x.addr);
    ChainedFrame(m, m', xs, x.addr);
    FirstFreeNone(xs, x.addr);
    SpliceTail(m, m', x, ys, hi, x.addr, x.addr);
    ChainedParts(m', xs, Merged(xs, x, ys), RightRest(ys), hi);
  }

  /** The loose block grown by the free block in front of it, if the two touch. */
  lemma Front(p: seq<Block>, s: seq<Block>, x: Block, ys: seq<Block>, lo: nat) returns (b: Block)
    requires Tiled(p + s, lo, x.addr) && WellSized(x) && NoFree(s)
    requires p != [] ==> p[|p| - 1].kind.Idle?
    ensures b == (if p != [] && p[|p| - 1].End() == x.addr
                  then Block(p[|p| - 1].addr, p[|p| - 1].size + x.size, Loose) else x)
    ensures WellSized(b) && b.End() == x.End() && Merged([], b, ys) == Merged(p + s, x, ys)
  {
    var mid := TiledSplit(p, s, lo, x.addr);
    TiledBounds(p + s, lo, x.addr);
    if s != [] {
      assert (p + s)[|p + s| - 1] in s;
    } else {
      assert p + s == p;
    }
    if p != [] {
      var f := p[|p| - 1];
      assert f in p + s;
      b := if f.End() == x.addr then Block(f.addr, f.size + x.size, Loose) else x;
    } else {
      b := x;
    }
  }

  lemma OnlyAtTrans(m0: seq<byte>, m1: seq<byte>, m2: seq<byte>, a: nat, c: nat)
    requires OnlyAt(m0, m1, c, c) && OnlyAt(m1, m2, a, a)
    ensures OnlyAt(m0, m2, a, c)
  {
    forall i | 0 <= i < |m0| && !(a <= i < a + HEADER) && !(c <= i < c + HEADER)
      ensures m0[i] == m2[i]
    {
      assert m0[i] == m1[i];
    }
  }

  lemma SentinelKept(m: seq<byte>, m': seq<byte>, a: nat, c: nat, end: nat)
    requires OnlyAt(m, m', a, c) && a + HEADER <= end && c + HEADER <= end && end + HEADER <= |m|
    ensures SizeOf(m, end) == SizeOf(m', end) && NextOf(m, end) == NextOf(m', end)
  {
    AgreeHeader(m, m', end);
  }

  lemma OnlyAtHeaders(m: seq<byte>, m': seq<byte>, a: Block, c: Block, bs: seq<Block>)
    requires OnlyAt(m, m', a.addr, c.addr) && a in bs && c in bs && !a.kind.Live? && !c.kind.Live?
    ensures OnlyHeaders(m, m', bs)
  {
  }

  /** Taking over the block in front leaves the links behind alone. */
  lemma AbsorbedTail(m: seq<byte>, m': seq<byte>, b: Block, ys: seq<Block>, hi: nat)
    requires Tiled(ys, b.End(), hi) && Chained(m, ys, hi) && OnlyAt(m, m', b.addr, b.addr) && WellSized(b)
    ensures Chained(m', ys, hi)
  {
    TiledBounds(ys, b.End(), hi);
    ChainedFrame(m, m', ys, hi);
  }

  /** Links after an insertion, wherever it happened. */
  lemma Spliced(m: seq<byte>, m': seq<byte>, p: seq<Block>, s: seq<Block>, x: Block, ys: seq<Block>,
                lo: nat, hi: nat)
    requires Tiled(p + s + [x] + ys, lo, hi) && Chained(m, p + s, FirstFree(ys, hi)) && Chained(m, ys, hi)
    requires NoFree(s) && (p != [] ==> p[|p| - 1].kind.Idle?) && !x.kind.Live?
    requires var n := Merged(p + s, x, ys);
             && HeaderOk(m', n, FirstFree(RightRest(ys), hi))
             && OnlyAt(m, m', if p == [] then n.addr else p[|p| - 1].addr, n.addr)
             && (p != [] && p[|p| - 1].addr != n.addr ==> HeaderOk(m', p[|p| - 1], n.addr))
    ensures Chained(m', Coalesce(p + s, x, ys), hi)
    ensures FirstFree(Coalesce(p + s, x, ys), hi) ==
            if p == [] then x.addr else FirstFree(p + s, FirstFree(ys, hi))
    ensures OnlyHeaders(m, m', p + s + [x])
  {
    var xs := p + s;
    if s == [] {
      assert xs == p;
    } else {
      assert xs[|xs| - 1] in s;
      TiledParts(xs, x, ys, lo, hi);
      TiledBounds(xs, lo, x.addr);
      assert p != [] ==> p[|p| - 1] in xs;
    }
    if xs != [] && xs[|xs| - 1].kind.Idle? {
      SpliceMerged(m, m', xs, x, ys, lo, hi);
      OnlyAtHeaders(m, m', xs[|xs| - 1], xs[|xs| - 1], xs + [x]);
    } else if p == [] {
      assert Merged(xs, x, ys).addr == x.addr;
      SpliceFirst(m, m', xs, x, ys, lo, hi);
      OnlyAtHeaders(m, m', x, x, xs + [x]);
    } else {
      SpliceAfter(m, m', p, s, x, ys, lo, hi);
      OnlyAtHeaders(m, m', p[|p| - 1], x, xs + [x]);
    }
  }

  /** The heap after an insertion: m1 is the memory once the merged block has its header, m2 once
      it is linked in. */
  lemma Inserted(m0: seq<byte>, m1: seq<byte>, m2: seq<byte>, p: seq<Block>, s: seq<Block>, x: Block,
                 ys: seq<Block>, lo: nat, hi: nat)
    requires Tiled(p + s + [x] + ys, lo, hi) && hi + HEADER <= |m0| && NoTouch(p + s) && NoTouch(ys)
    requires Chained(m0, p + s + [x] + ys, hi) && x.kind.Loose?
    requires NoFree(s) && (p != [] ==> p[|p| - 1].kind.Idle?)
    requires var n := Merged(p + s, x, ys);
             var at := if p == [] then n.addr else p[|p| - 1].addr;
             && OnlyAt(m0, m1, n.addr, n.addr) && OnlyAt(m1, m2, at, at)
             && HeaderOk(m2, n, FirstFree(RightRest(ys), hi))
             && (p != [] && at != n.addr ==> HeaderOk(m2, p[|p| - 1], n.addr))
    ensures var bs := Coalesce(p + s, x, ys);
            && Tiled(bs, lo, hi) && Chained(m2, bs, hi)
            && FirstFree(bs, hi) == if p == [] then Merged(p + s, x, ys).addr
                                    else FirstFree(p + s + [x] + ys, hi)
    ensures SizeOf(m2, hi) == SizeOf(m0, hi) && NextOf(m2, hi) == NextOf(m0, hi)
    ensures OnlyHeaders(m0, m2, p + s + [x])
  {
    var n := Merged(p + s, x, ys);
    var at := if p == [] then n.addr else p[|p| - 1].addr;
    assert p != [] ==> p[|p| - 1] in p + s + [x] + ys;
    TiledBounds(p + s + [x] + ys, lo, hi);
    ChainedParts(m0, p + s, x, ys, hi);
    TiledParts(p + s, x, ys, lo, hi);
    MergedKeeps(p + s, x, ys, lo, hi);
    CoalesceKeeps(p + s, x, ys, lo, hi);
    OnlyAtTrans(m0, m1, m2, at, n.addr);
    MergedBelow(p + s, x, ys, lo, hi);
    SentinelKept(m0, m2, at, n.addr, hi);
    Spliced(m0, m2, p, s, x, ys, lo, hi);
    if p == [] {
      assert p + s == s;
      assert s != [] ==> s[|s| - 1] in s;
    }
  }

  lemma MergedBelow(xs: seq<Block>, x: Block, ys: seq<Block>, lo: nat, hi: nat)
    requires Tiled(xs + [x] + ys, lo, hi)
    ensures Merged(xs, x, ys).End() <= hi
  {
    TiledParts(xs, x, ys, lo, hi);
    TiledBounds(ys, x.End(), hi);
    MergedKeeps(xs, x, ys, lo, hi);
    if ys != [] {
      assert ys[0] in ys;
    }
  }

  // --------------------------------------------------------------- first fit

  /** The next free block of a scan that has gone through p, and where its link leads. */
  lemma NextFree(m: seq<byte>, bs: seq<Block>, p: seq<Block>, t: seq<Block>, lo: nat, hi: nat)
    returns (pre: seq<Block>, f: Block, post: seq<Block>)
    requires bs == p + t && Tiled(bs, lo, hi) && Chained(m, bs, hi) && FirstFree(t, hi) != hi
    ensures t == pre + [f] + post && NoFree(pre) && f.kind.Idle? && f.addr == FirstFree(t, hi)
    ensures bs == p + pre + [f] + post
    ensures f.addr + MIN_BLOCK <= hi && HeaderOk(m, f, FirstFree(post, hi)) && FirstFree(post, hi) <= hi
  {
    FirstFreeNone(t, hi);
    pre, f, post := SplitFirstFree(t, hi);
    assert bs == p + pre + [f] + post;
    TiledBounds(bs, lo, hi);
    assert bs[|p + pre|] == f;
    ChainedParts(m, p + pre, f, post, hi);
    TiledParts(p + pre, f, post, lo, hi);
    FreeAddrBound(post, f.End(), hi);
  }

  /** How many free blocks of `bs` could serve `need`. */
  ghost function Fits(bs: seq<Block>, need: nat): nat {
    if bs == [] then 0
    else (if bs[|bs| - 1].kind.Idle? && bs[|bs| - 1].size >= need then 1 else 0) + Fits(bs[..|bs| - 1], need)
  }

  lemma {:induction false} FitsConcat(p: seq<Block>, pre: seq<Block>, f: Block, need: nat)
    requires Fits(p, need) == 0 && NoFree(pre) && f.size < need
    ensures Fits(p + pre + [f], need) == 0
  {
    assert (p + pre + [f])[..|p + pre|] == p + pre;
    FitsNoFree(p, pre, need);
  }

  lemma {:induction false} FitsNoFree(p: seq<Block>, pre: seq<Block>, need: nat)
    requires NoFree(pre)
    ensures Fits(p + pre, need) == Fits(p, need)
  {
    if pre == [] {
      assert p + pre == p;
    } else {
      assert (p + pre)[..|p + pre| - 1] == p + pre[..|pre| - 1];
      assert (p + pre)[|p + pre| - 1] in pre;
      FitsNoFree(p, pre[..|pre| - 1], need);
    }
  }

  lemma {:induction false} FitsNone(p: seq<Block>, need: nat, j: nat)
    requires Fits(p, need) == 0 && j < |p|
    ensures !(p[j].kind.Idle? && p[j].size >= need)
  {
    if j < |p| - 1 {
      FitsNone(p[..|p| - 1], need, j);
    }
  }

  lemma FitNowhere(bs: seq<Block>, p: seq<Block>, t: seq<Block>, need: nat)
    requires bs == p + t && NoFree(t) && Fits(p, need) == 0
    ensures FitIndex(bs, need) == |bs|
  {
    assert forall j :: |p| <= j < |bs| ==> bs[j] in t;
    var i := FitIndex(bs, need);
    if i < |p| {
      FitsNone(p, need, i);
    }
  }

  lemma SpliceAt(bs: seq<Block>, p: seq<Block>, pre: seq<Block>, f: Block, post: seq<Block>)
    requires bs == p + pre + [f] + post
    ensures |bs| == |p| + |pre| + 1 + |post| && bs[|p| + |pre|] == f && bs[..|p| + |pre|] == p + pre
    ensures forall j :: 0 <= j < |p| ==> bs[j] == p[j]
    ensures forall j :: |p| <= j < |p| + |pre| ==> bs[j] in pre
  {
    assert forall j :: |p| <= j < |p| + |pre| ==> bs[j] == pre[j - |p|];
  }

  lemma FitHere(bs: seq<Block>, p: seq<Block>, pre: seq<Block>, f: Block, post: seq<Block>, need: nat)
    requires bs == p + pre + [f] + post && NoFree(pre) && Fits(p, need) == 0
    requires f.kind.Idle? && f.size >= need
    ensures FitIndex(bs, need) == |p| + |pre| && bs[|p| + |pre|] == f && bs[..|p| + |pre|] == p + pre
  {
    SpliceAt(bs, p, pre, f, post);
    var i := FitIndex(bs, need);
    if i < |p| {
      FitsNone(p, need, i);
    } else if |p| + |pre| < i {
      FitIndexIsFirst(bs, need, |p| + |pre|);
    }
  }

  /** Where a first-fit scan stops. */
  lemma ScanEnds(m: seq<byte>, bs: seq<Block>, p: seq<Block>, t: seq<Block>, need: nat, lo: nat, hi: nat)
    returns (s: seq<Block>)
    requires bs == p + t && Tiled(bs, lo, hi) && Chained(m, bs, hi) && Fits(p, need) == 0
    requires FirstFree(t, hi) != hi ==>
               FirstFree(t, hi) + HEADER <= |m| && SizeOf(m, FirstFree(t, hi)) >= need
    ensures NoFree(s)
    ensures var i := FitIndex(bs, need);
            if FirstFree(t, hi) == hi then i == |bs|
            else i < |bs| && bs[i].addr == FirstFree(t, hi) < hi && bs[..i] == p + s
  {
    if FirstFree(t, hi) == hi {
      FirstFreeBelow(p, t, lo, hi, hi);
      FitNowhere(bs, p, t, need);
      s := t;
    } else {
      var pre, f, post := NextFree(m, bs, p, t, lo, hi);
      FitHere(bs, p, pre, f, post, need);
      s := pre;
    }
  }

  // --------------------------------------------------------------- links during an allocation

  lemma UnlinkReady(m: seq<byte>, p: seq<Block>, s: seq<Block>, f: Block, ys: seq<Block>, lo: nat, hi: nat)
    requires Tiled(p + s + [f] + ys, lo, hi) && Chained(m, p + s + [f] + ys, hi) && f.kind.Idle?
    requires NoFree(s) && (p != [] ==> p[|p| - 1].kind.Idle?)
    ensures HeaderOk(m, f, FirstFree(ys, hi)) && FirstFree(ys, hi) <= hi
    ensures p != [] ==> HeaderOk(m, p[|p| - 1], f.addr) && p[|p| - 1].End() <= f.addr
  {
    ChainedParts(m, p + s, f, ys, hi);
    TiledParts(p + s, f, ys, lo, hi);
    LastFree(m, p, s, lo, f.addr, f.addr);
    FreeAddrBound(ys, f.End(), hi);
    TiledBounds(p + s, lo, f.addr);
    assert p != [] ==> p[|p| - 1] in p + s;
  }

  /** Skipping f in the list leaves everything else linked. */
  lemma Unlinked(m: seq<byte>, m': seq<byte>, p: seq<Block>, s: seq<Block>, f: Block, ys: seq<Block>,
                 lo: nat, hi: nat)
    requires Tiled(p + s + [f] + ys, lo, hi) && Chained(m, p + s + [f] + ys, hi) && f.kind.Idle?
    requires NoFree(s) && (p != [] ==> p[|p| - 1].kind.Idle?) && hi + HEADER <= |m|
    requires if p == [] then m' == m
             else OnlyAt(m, m', p[|p| - 1].addr, p[|p| - 1].addr) && HeaderOk(m', p[|p| - 1], FirstFree(ys, hi))
    ensures var bs := p + s + [f.(kind := Loose)] + ys;
            && Tiled(bs, lo, hi) && Chained(m', bs, hi)
            && FirstFree(bs, hi) == if p == [] then FirstFree(ys, hi) else FirstFree(p + s + [f] + ys, hi)
    ensures Keeps(m, m', p + s + [f] + ys, lo, hi)
    ensures SizeOf(m', hi) == SizeOf(m, hi) && NextOf(m', hi) == NextOf(m, hi)
  {
    var xs, l, q := p + s, f.(kind := Loose), FirstFree(ys, hi);
    ChainedParts(m, xs, f, ys, hi);
    TiledParts(xs, f, ys, lo, hi);
    TiledParts(xs, l, ys, lo, hi);
    if p == [] {
      assert xs == s;
      ChainedNoFree(m, s, f.addr, q);
      FirstFreeNone(s, q);
    } else {
      Skipped(m, m', p, s, f, ys, lo, hi);
      KeepsAt(m, m', p + s + [f] + ys, lo, hi, p[|p| - 1], p[|p| - 1].addr);
    }
    ChainedParts(m', xs, l, ys, hi);
  }

  lemma Skipped(m: seq<byte>, m': seq<byte>, p: seq<Block>, s: seq<Block>, f: Block, ys: seq<Block>,
                lo: nat, hi: nat)
    requires Tiled(p + s + [f] + ys, lo, hi) && Chained(m, p + s, f.addr) && Chained(m, ys, hi)
    requires HeaderOk(m, f, FirstFree(ys, hi)) && f.kind.Idle?
    requires NoFree(s) && p != [] && p[|p| - 1].kind.Idle? && hi + HEADER <= |m|
    requires OnlyAt(m, m', p[|p| - 1].addr, p[|p| - 1].addr) && HeaderOk(m', p[|p| - 1], FirstFree(ys, hi))
    ensures Chained(m', p + s, FirstFree(ys, hi)) && Chained(m', ys, hi) && HeaderOk(m', f, FirstFree(ys, hi))
    ensures FirstFree(p + s, FirstFree(ys, hi)) == FirstFree(p + s, f.addr)
    ensures SizeOf(m', hi) == SizeOf(m, hi) && NextOf(m', hi) == NextOf(m, hi)
    ensures p[|p| - 1] in p + s + [f] + ys && WellSized(p[|p| - 1])
  {
    var xs, q := p + s, FirstFree(ys, hi);
    var g, pre := p[|p| - 1], p[..|p| - 1];
    assert xs == pre + [g] + s;
    assert g in p + s + [f] + ys;
    TiledParts(xs, f, ys, lo, hi);
    TiledBounds(ys, f.End(), hi);
    TiledParts(pre, g, s, lo, f.addr);
    TiledBounds(pre, lo, g.addr);
    TiledBounds(s, g.End(), f.addr);
    Relink(m, m', pre, g, s, f.addr, q);
    ChainedFrame(m, m', ys, hi);
    AgreeHeader(m, m', f.addr);
    SentinelKept(m, m', g.addr, g.addr, hi);
  }

  lemma SplitReady(m: seq<byte>, xs: seq<Block>, b: Block, ys: seq<Block>, lo: nat, hi: nat)
    requires Tiled(xs + [b] + ys, lo, hi) && Chained(m, xs + [b] + ys, hi)
    ensures WellSized(b) && lo <= b.addr && b.End() <= hi
    ensures HeaderOk(m, b, FirstFree(ys, hi))
  {
    ChainedParts(m, xs, b, ys, hi);
    TiledParts(xs, b, ys, lo, hi);
    TiledBounds(xs, lo, b.addr);
    TiledBounds(ys, b.End(), hi);
  }

  /** Rewriting the header of a block that is not on the list leaves the links alone. */
  lemma Reheaded(m: seq<byte>, m': seq<byte>, xs: seq<Block>, b: Block, b': Block, ys: seq<Block>, lo: nat, hi: nat)
    requires Tiled(xs + [b] + ys, lo, hi) && Chained(m, xs + [b] + ys, hi) && !b.kind.Idle? && !b'.kind.Idle?
    requires b'.addr == b.addr && b'.size == b.size && OnlyAt(m, m', b.addr, b.addr) && hi + HEADER <= |m|
    requires HeaderOk(m', b', FirstFree(ys, hi))
    ensures Tiled(xs + [b'] + ys, lo, hi) && Chained(m', xs + [b'] + ys, hi)
    ensures FirstFree(xs + [b'] + ys, hi) == FirstFree(xs + [b] + ys, hi)
    ensures SizeOf(m', hi) == SizeOf(m, hi) && NextOf(m', hi) == NextOf(m, hi)
  {
    ChainedParts(m, xs, b, ys, hi);
    TiledParts(xs, b, ys, lo, hi);
    TiledParts(xs, b', ys, lo, hi);
    TiledBounds(xs, lo, b.addr);
    TiledBounds(ys, b.End(), hi);
    ChainedFrame(m, m', xs, FirstFree(ys, hi));
    ChainedFrame(m, m', ys, hi);
    SentinelKept(m, m', b.addr, b.addr, hi);
    ChainedParts(m', xs, b', ys, hi);
  }

  lemma SplitTiles(xs: seq<Block>, f: Block, ys: seq<Block>, need: nat, lo: nat, hi: nat)
    requires Tiled(xs + [f] + ys, lo, hi) && need >= MIN_BLOCK && need % ALIGN == 0 && f.size - need >= MIN_BLOCK
    ensures Tiled(xs + [Block(f.addr, need, Loose)] + [Block(f.addr + need, f.size - need, Loose)] + ys, lo, hi)
  {
    var t, r := Block(f.addr, need, Loose), Block(f.addr + need, f.size - need, Loose);
    TiledParts(xs, f, ys, lo, hi);
    SplitWellSized(f, need);
    SnocTiled(xs, t, lo, r.addr);
    TiledParts(xs + [t], r, ys, lo, hi);
  }

  /** Two loose blocks in a row, where the links run past them. */
  lemma ChainTwo(m: seq<byte>, xs: seq<Block>, t: Block, r: Block, ys: seq<Block>, hi: nat)
    requires t.kind.Loose? && r.kind.Loose? && HeaderOk(m, t, 0) && HeaderOk(m, r, 0)
    requires Chained(m, xs, FirstFree(ys, hi)) && Chained(m, ys, hi)
    ensures Chained(m, xs + [t] + [r] + ys, hi)
    ensures FirstFree(xs + [t] + [r] + ys, hi) == FirstFree(xs, FirstFree(ys, hi))
  {
    assert xs + [t] + [] == xs + [t];
    ChainedParts(m, xs, t, [], FirstFree(ys, hi));
    ChainedParts(m, xs + [t], r, ys, hi);
  }

  lemma SplitDone(m: seq<byte>, m': seq<byte>, xs: seq<Block>, f: Block, ys: seq<Block>, need: nat, lo: nat, hi: nat)
    requires Tiled(xs + [f] + ys, lo, hi) && Chained(m, xs + [f] + ys, hi) && f.kind.Loose?
    requires need >= MIN_BLOCK && need % ALIGN == 0 && f.size - need >= MIN_BLOCK && hi + HEADER <= |m|
    requires OnlyAt(m, m', f.addr + need, f.addr)
    requires HeaderOk(m', Block(f.addr, need, Loose), 0) && HeaderOk(m', Block(f.addr + need, f.size - need, Loose), 0)
    ensures var bs := xs + [Block(f.addr, need, Loose)] + [Block(f.addr + need, f.size - need, Loose)] + ys;
            && Tiled(bs, lo, hi) && Chained(m', bs, hi) && FirstFree(bs, hi) == FirstFree(xs + [f] + ys, hi)
    ensures SizeOf(m', hi) == SizeOf(m, hi) && NextOf(m', hi) == NextOf(m, hi)
  {
    SplitTiles(xs, f, ys, need, lo, hi);
    ChainedParts(m, xs, f, ys, hi);
    TiledParts(xs, f, ys, lo, hi);
    TiledBounds(xs, lo, f.addr);
    TiledBounds(ys, f.End(), hi);
    ChainedFrame(m, m', xs, FirstFree(ys, hi));
    ChainedFrame(m, m', ys, hi);
    SentinelKept(m, m', f.addr + need, f.addr, hi);
    ChainTwo(m', xs, Block(f.addr, need, Loose), Block(f.addr + need, f.size - need, Loose), ys, hi);
  }

  /** The rest of a split block has no free neighbour to merge with. */
  lemma SplitNeighbours(xs: seq<Block>, t: Block, r: Block, ys: seq<Block>)
    requires t.kind.Loose? && NoTouch(xs) && NoTouch(ys) && (ys != [] ==> !ys[0].kind.Idle?)
    ensures NoTouch(xs + [t])
    ensures Coalesce(xs + [t], r, ys) == xs + [t] + ([Block(r.addr, r.size, Idle)] + ys)
  {
    NoTouchJoin(xs, t, []);
    assert xs + [t] + [] == xs + [t];
  }

  lemma SplitKeeps(m1: seq<byte>, m2: seq<byte>, m3: seq<byte>, xs: seq<Block>, f: Block, t: Block, r: Block,
                   ys: seq<Block>, lo: nat, hi: nat)
    requires Tiled(xs + [f] + ys, lo, hi) && !f.kind.Live?
    requires t.addr == f.addr && t.size >= MIN_BLOCK && r.addr == t.End() && r.End() == f.End() && r.size >= MIN_BLOCK
    requires OnlyAt(m1, m2, r.addr, t.addr) && OnlyHeaders(m2, m3, xs + [t] + [r])
    ensures Keeps(m1, m3, xs + [f] + ys, lo, hi)
  {
    var bs := xs + [f] + ys;
    assert bs[|xs|] == f;
    forall c | c in xs + [t] + [r] && !c.kind.Live?
      ensures exists g :: g in bs && !g.kind.Live? && g.addr <= c.addr && c.addr + HEADER <= g.End()
    {
      TiledBounds(bs, lo, hi);
      if c in xs {
        assert c in bs;
      } else {
        assert f in bs;
      }
    }
    KeepsHeaders(m2, m3, bs, lo, hi, xs + [t] + [r]);
    OnlyAtHeaders(m1, m2, r.(kind := Loose), t.(kind := Loose), [t.(kind := Loose), r.(kind := Loose)]);
    KeepsHeaders(m1, m2, bs, lo, hi, [t.(kind := Loose), r.(kind := Loose)]);
    KeepsTrans(m1, m2, m3, bs, lo, hi);
  }

  /** The three steps of taking f disturb no block in use. */
  lemma DetachKeeps(m: seq<byte>, m1: seq<byte>, m2: seq<byte>, xs: seq<Block>, f: Block, ys: seq<Block>,
                    lo: nat, hi: nat)
    requires f.kind.Idle?
    requires Keeps(m, m1, xs + [f] + ys, lo, hi) && Keeps(m1, m2, xs + [f.(kind := Loose)] + ys, lo, hi)
    ensures Keeps(m, m2, xs + [f] + ys, lo, hi)
  {
    SameLive(xs, f, ys);
    assert Keeps(m1, m2, xs + [f] + ys, lo, hi);
    KeepsTrans(m, m1, m2, xs + [f] + ys, lo, hi);
  }

  lemma MarkKeeps(m: seq<byte>, m1: seq<byte>, m2: seq<byte>, xs: seq<Block>, f: Block, ys: seq<Block>,
                  lo: nat, hi: nat)
    requires Tiled(xs + [f] + ys, lo, hi) && f.kind.Idle?
    requires Keeps(m, m1, xs + [f] + ys, lo, hi) && OnlyAt(m1, m2, f.addr, f.addr)
    ensures Keeps(m, m2, xs + [f] + ys, lo, hi)
  {
    var bs := xs + [f] + ys;
    TiledBounds(bs, lo, hi);
    assert bs[|xs|] == f;
    KeepsAt(m1, m2, bs, lo, hi, f, f.addr);
    KeepsTrans(m, m1, m2, bs, lo, hi);
  }

  lemma SameLive(xs: seq<Block>, f: Block, ys: seq<Block>)
    requires f.kind.Idle?
    ensures forall b :: b in xs + [f] + ys && b.kind.Live? ==> b in xs + [f.(kind := Loose)] + ys
  {
    forall b | b in xs + [f] + ys && b.kind.Live?
      ensures b in xs + [f.(kind := Loose)] + ys
    {
      assert b in xs || b in ys;
    }
  }

  /** The header at the old start of an inserted block, stale or not, never looks in use. */
  lemma StaleHeader(m0: seq<byte>, m1: seq<byte>, m2: seq<byte>, p: seq<Block>, s: seq<Block>, x: Block,
                    ys: seq<Block>, lo: nat, hi: nat)
    requires Tiled(p + s + [x] + ys, lo, hi) && hi + HEADER <= |m0| && hi - lo < ALLOC_BIT
    requires Chained(m0, p + s + [x] + ys, hi) && x.kind.Loose?
    requires NoFree(s) && (p != [] ==> p[|p| - 1].kind.Idle?)
    requires var n := Merged(p + s, x, ys);
             var at := if p == [] then n.addr else p[|p| - 1].addr;
             && OnlyAt(m0, m1, n.addr, n.addr) && OnlyAt(m1, m2, at, at)
             && HeaderOk(m2, n, FirstFree(RightRest(ys), hi))
    ensures x.addr + HEADER <= |m2| && SizeOf(m2, x.addr) < ALLOC_BIT
  {
    var n := Merged(p + s, x, ys);
    var at := if p == [] then n.addr else p[|p| - 1].addr;
    ChainedParts(m0, p + s, x, ys, hi);
    TiledParts(p + s, x, ys, lo, hi);
    TiledBounds(p + s, lo, x.addr);
    TiledBounds(ys, x.End(), hi);
    assert p != [] ==> p[|p| - 1] in p + s;
    assert (p == [] ==> p + s == s) && (s != [] ==> s[|s| - 1] in s);
    if n.addr == x.addr {
      MergedBelow(p + s, x, ys, lo, hi);
    } else {
      AgreeHeader(m0, m1, x.addr);
      AgreeHeader(m1, m2, x.addr);
    }
  }

  /** A header over everything and the end marker make a heap of one free block. */
  lemma OneFreeBlock(m: seq<byte>, lo: nat, hi: nat)
    requires 0 < lo && lo + MIN_BLOCK <= hi && hi + HEADER <= |m| <= ADDRESS_SPACE
    requires lo % ALIGN == 0 && hi % ALIGN == 0 && hi - lo < ALLOC_BIT
    requires SizeOf(m, lo) == hi - lo && NextOf(m, lo) == hi && SizeOf(m, hi) == 0 && NextOf(m, hi) == 0
    ensures var bs := [Block(lo, hi - lo, Idle)];
            Formed(m, bs, lo, lo, hi) && NoTouch(bs) && NoLoose(bs) && FreeSum(bs) == hi - lo && LiveCount(bs) == 0
  {
    var b := Block(lo, hi - lo, Idle);
    AlignedDistance(lo, hi);
    assert WellSized(b) && b.End() == hi;
    assert HeaderOk(m, b, hi);
    Alone(m, b, hi);
  }

  lemma AlignedDistance(lo: nat, hi: nat)
    requires lo <= hi && lo % ALIGN == 0 && hi % ALIGN == 0
    ensures (hi - lo) % ALIGN == 0
  {
  }

  lemma Alone(m: seq<byte>, b: Block, hi: nat)
    requires b.kind.Idle? && WellSized(b) && b.End() == hi && HeaderOk(m, b, hi)
    requires 0 < b.addr && b.size < ALLOC_BIT && hi + HEADER <= |m| <= ADDRESS_SPACE
    requires SizeOf(m, hi) == 0 && NextOf(m, hi) == 0
    ensures Formed(m, [b], b.addr, b.addr, hi) && NoTouch([b]) && NoLoose([b])
    ensures FreeSum([b]) == b.size && LiveCount([b]) == 0
  {
    OneBlock(m, b, hi);
    OneApart(b);
  }

  lemma OneApart(b: Block)
    requires b.kind.Idle?
    ensures NoTouch([b]) && NoLoose([b])
  {
  }

  lemma OneBlock(m: seq<byte>, b: Block, hi: nat)
    requires HeaderOk(m, b, hi) && WellSized(b) && b.End() == hi && b.kind.Idle?
    ensures Tiled([b], b.addr, hi) && Chained(m, [b], hi) && FirstFree([b], hi) == b.addr
    ensures FreeSum([b]) == b.size && LiveCount([b]) == 0
  {
    assert [b][1..] == [];
  }

  lemma InsertReady(m: seq<byte>, xs: seq<Block>, x: Block, ys: seq<Block>, lo: nat, hi: nat)
    requires Tiled(xs + [x] + ys, lo, hi) && Chained(m, xs + [x] + ys, hi) && x.kind.Loose?
    ensures Tiled(xs, lo, x.addr) && Tiled(ys, x.End(), hi) && WellSized(x) && x.End() <= hi
    ensures HeaderOk(m, x, 0) && Chained(m, xs, FirstFree(ys, hi)) && Chained(m, ys, hi)
    ensures FirstFree(xs + [x] + ys, hi) == FirstFree(xs, FirstFree(ys, hi))
  {
    ChainedParts(m, xs, x, ys, hi);
    TiledParts(xs, x, ys, lo, hi);
    TiledBounds(ys, x.End(), hi);
  }

  /** An insertion leaves a well-formed arena, touches unused headers only, and no header in use where
      the block began. */
  lemma InsertDone(m0: seq<byte>, m1: seq<byte>, m2: seq<byte>, xs: seq<Block>, p: seq<Block>, s: seq<Block>,
                   x: Block, ys: seq<Block>, lo: nat, hi: nat, first: nat, first2: nat)
    requires xs == p + s && NoFree(s) && (p != [] ==> p[|p| - 1].kind.Idle?)
    requires Formed(m0, xs + [x] + ys, first, lo, hi) && x.kind.Loose? && NoTouch(xs) && NoTouch(ys)
    requires var n := Merged(xs, x, ys);
             var at := if p == [] then n.addr else p[|p| - 1].addr;
             && OnlyAt(m0, m1, n.addr, n.addr) && OnlyAt(m1, m2, at, at)
             && HeaderOk(m2, n, FirstFree(RightRest(ys), hi))
             && (p != [] && at != n.addr ==> HeaderOk(m2, p[|p| - 1], n.addr))
             && first2 == if p == [] then n.addr else first
    ensures Formed(m2, Coalesce(xs, x, ys), first2, lo, hi)
    ensures OnlyHeaders(m0, m2, xs + [x])
    ensures x.addr + HEADER <= |m2| && SizeOf(m2, x.addr) < ALLOC_BIT
  {
    Inserted(m0, m1, m2, p, s, x, ys, lo, hi);
    StaleHeader(m0, m1, m2, p, s, x, ys, lo, hi);
  }

  // --------------------------------------------------------------- frames of a release

  lemma InsertKeeps(m: seq<byte>, m': seq<byte>, xs: seq<Block>, x: Block, ys: seq<Block>, lo: nat, hi: nat)
    requires Tiled(xs + [x] + ys, lo, hi) && OnlyHeaders(m, m', xs + [x])
    ensures Keeps(m, m', xs + [x] + ys, lo, hi)
  {
    TiledBounds(xs + [x] + ys, lo, hi);
    forall c | c in xs + [x] && !c.kind.Live?
      ensures exists g :: g in xs + [x] + ys && !g.kind.Live? && g.addr <= c.addr && c.addr + HEADER <= g.End()
    {
      assert c in xs + [x] + ys;
    }
    KeepsHeaders(m, m', xs + [x] + ys, lo, hi, xs + [x]);
  }

  lemma FreedKeeps(m: seq<byte>, m1: seq<byte>, m2: seq<byte>, bs: seq<Block>, i: nat, lo: nat, hi: nat)
    requires Tiled(bs, lo, hi) && i < |bs| && bs[i].kind.Live?
    requires OnlyAt(m, m1, bs[i].addr, bs[i].addr) && Keeps(m1, m2, Loosened(bs, i), lo, hi)
    ensures Keeps(m, m2, Loosened(bs, i), lo, hi)
  {
    LoosenedParts(bs, i);
    var x := bs[i].(kind := Loose);
    TiledParts(bs[..i], bs[i], bs[i + 1..], lo, hi);
    TiledParts(bs[..i], x, bs[i + 1..], lo, hi);
    assert Loosened(bs, i)[i] == x;
    KeepsAt(m, m1, Loosened(bs, i), lo, hi, x, x.addr);
    KeepsTrans(m, m1, m2, Loosened(bs, i), lo, hi);
  }
}
