/** The kernel heap: first fit over an address-ordered list of blocks, splitting on
    allocation, and one coalescing pass on every free. */
module Heap {
  import opened Words

  const HEADER := 12
  const NULL: nat := 0

  datatype Block = Block(size: nat, free: bool)

  // ---- layout ----

  function Bytes(bs: seq<Block>): nat {
    if bs == [] then 0 else HEADER + bs[0].size + Bytes(bs[1..])
  }

  lemma {:induction false} BytesAppend(bs: seq<Block>, cs: seq<Block>)
    ensures Bytes(bs + cs) == Bytes(bs) + Bytes(cs)
  {
    if bs == [] {
      assert bs + cs == cs;
    } else {
      BytesAppend(bs[1..], cs);
      assert (bs + cs)[1..] == bs[1..] + cs;
    }
  }

  /** The address of block i's header in a heap that starts at `start`. */
  function Addr(start: nat, bs: seq<Block>, i: nat): nat
    requires i <= |bs|
  {
    start + Bytes(bs[..i])
  }

  lemma AddrStep(start: nat, bs: seq<Block>, i: nat)
    requires i < |bs|
    ensures Addr(start, bs, i + 1) == Addr(start, bs, i) + HEADER + bs[i].size
  {
    assert bs[..i + 1] == bs[..i] + [bs[i]];
    BytesAppend(bs[..i], [bs[i]]);
  }

  lemma {:induction false} AddrLess(start: nat, bs: seq<Block>, i: nat, j: nat)
    requires i < j <= |bs|
    ensures Addr(start, bs, i) + HEADER + bs[i].size <= Addr(start, bs, j)
    decreases j
  {
    AddrStep(start, bs, j - 1);
    if i < j - 1 {
      AddrLess(start, bs, i, j - 1);
    }
  }

  // ---- the list operations ----

  /** The size asked for, rounded up to a multiple of 4. */
  function Need(n: nat): nat { (n + 3) / 4 * 4 }

  predicate FitsIn(b: Block, need: nat) { b.free && b.size >= need }

  function FirstFit(bs: seq<Block>, need: nat): (r: Option<nat>)
    ensures r.Some? ==> r.value < |bs| && FitsIn(bs[r.value], need)
    ensures r.Some? ==> forall i :: 0 <= i < r.value ==> !FitsIn(bs[i], need)
    ensures r.None? ==> forall i :: 0 <= i < |bs| ==> !FitsIn(bs[i], need)
  {
    if bs == [] then None
    else if FitsIn(bs[0], need) then Some(0)
    else
      match FirstFit(bs[1..], need)
      case None =>
        assert forall i :: 1 <= i < |bs| ==> bs[i] == bs[1..][i - 1];
        None
      case Some(i) =>
        assert forall k :: 1 <= k < |bs| ==> bs[k] == bs[1..][k - 1];
        Some(i + 1)
  }

  /** What becomes of the block an allocation takes. */
  function Parts(b: Block, need: nat): (ps: seq<Block>)
    requires FitsIn(b, need)
  {
    if b.size > need + HEADER + 4 then [Block(need, false), Block(b.size - need - HEADER, true)]
    else [Block(b.size, false)]
  }

  function Allocate(bs: seq<Block>, i: nat, need: nat): seq<Block>
    requires i < |bs| && FitsIn(bs[i], need)
  {
    bs[..i] + Parts(bs[i], need) + bs[i + 1..]
  }

  /** The coalescing pass of `kfree`. */
  function Merge(bs: seq<Block>): seq<Block>
    decreases |bs|
  {
    if |bs| < 2 then bs
    else if bs[0].free && bs[1].free then Merge([Block(bs[0].size + bs[1].size + HEADER, true)] + bs[2..])
    else [bs[0]] + Merge(bs[1..])
  }

  function Release(bs: seq<Block>, i: nat): seq<Block>
    requires i < |bs|
  {
    Merge(bs[i := Block(bs[i].size, true)])
  }

  // ---- what a block list means ----

  datatype Live = Live(addr: nat, size: nat)

  /** The allocated blocks by header address: a heap's abstract value. */
  function Allocated(at: nat, bs: seq<Block>): set<Live>
    decreases |bs|
  {
    if bs == [] then {}
    else (if bs[0].free then {} else {Live(at, bs[0].size)}) + Allocated(at + HEADER + bs[0].size, bs[1..])
  }

  predicate NoFreePair(bs: seq<Block>) {
    forall i :: 0 <= i < |bs| - 1 ==> !(bs[i].free && bs[i + 1].free)
  }

  /** Every header address is a multiple of 4. */
  predicate Aligned(at: nat, bs: seq<Block>)
    decreases |bs|
  {
    bs != [] ==> at % 4 == 0 && Aligned(at + HEADER + bs[0].size, bs[1..])
  }

  predicate HeapOk(start: nat, size: nat, bs: seq<Block>) {
    bs != [] && Bytes(bs) == size && NoFreePair(bs) && Aligned(start, bs)
  }

  lemma {:induction false} AllocatedAppend(at: nat, bs: seq<Block>, cs: seq<Block>)
    ensures Allocated(at, bs + cs) == Allocated(at, bs) + Allocated(at + Bytes(bs), cs)
    decreases |bs|
  {
    if bs == [] {
      assert bs + cs == cs;
    } else {
      assert (bs + cs)[1..] == bs[1..] + cs;
      AllocatedAppend(at + HEADER + bs[0].size, bs[1..], cs);
    }
  }

  lemma {:induction false} AllocatedFrom(at: nat, bs: seq<Block>, l: Live)
    requires l in Allocated(at, bs)
    ensures at <= l.addr && l.addr + HEADER + l.size <= at + Bytes(bs)
    decreases |bs|
  {
    if bs[0].free || l != Live(at, bs[0].size) {
      AllocatedFrom(at + HEADER + bs[0].size, bs[1..], l);
    }
  }

  lemma {:induction false} AllocatedAligned(at: nat, bs: seq<Block>, l: Live)
    requires Aligned(at, bs) && l in Allocated(at, bs)
    ensures l.addr % 4 == 0
    decreases |bs|
  {
    if bs[0].free || l != Live(at, bs[0].size) {
      AllocatedAligned(at + HEADER + bs[0].size, bs[1..], l);
    }
  }

  predicate Apart(l: Live, k: Live) {
    l.addr + HEADER + l.size <= k.addr || k.addr + HEADER + k.size <= l.addr
  }

  lemma {:induction false} AllocatedApart(at: nat, bs: seq<Block>, l: Live, k: Live)
    requires l in Allocated(at, bs) && k in Allocated(at, bs) && l != k
    ensures Apart(l, k)
    decreases |bs|
  {
    var next := at + HEADER + bs[0].size;
    var here := Live(at, bs[0].size);
    if !bs[0].free && l == here {
      AllocatedFrom(next, bs[1..], k);
    } else if !bs[0].free && k == here {
      AllocatedFrom(next, bs[1..], l);
    } else {
      AllocatedApart(next, bs[1..], l, k);
    }
  }

  /** Payloads are 4-aligned, lie inside the heap, and no two overlap. */
  lemma PayloadsSeparate(start: nat, size: nat, bs: seq<Block>)
    requires HeapOk(start, size, bs)
    ensures forall l :: l in Allocated(start, bs) ==>
      (l.addr + HEADER) % 4 == 0 && start + HEADER <= l.addr + HEADER && l.addr + HEADER + l.size <= start + size
    ensures forall l, k :: l in Allocated(start, bs) && k in Allocated(start, bs) && l != k ==>
      l.addr + HEADER + l.size <= k.addr || k.addr + HEADER + k.size <= l.addr
  {
    forall l | l in Allocated(start, bs)
      ensures (l.addr + HEADER) % 4 == 0 && start + HEADER <= l.addr + HEADER && l.addr + HEADER + l.size <= start + size
    {
      AllocatedFrom(start, bs, l);
      AllocatedAligned(start, bs, l);
    }
    forall l, k | l in Allocated(start, bs) && k in Allocated(start, bs) && l != k
      ensures Apart(l, k)
    {
      AllocatedApart(start, bs, l, k);
    }
  }

  // ---- the layout is determined by what is allocated ----

  /** The offset at which the first allocated block starts, or the end. */
  lemma {:induction false} FirstBlock(at: nat, bs: seq<Block>)
    requires bs != [] && NoFreePair(bs) && bs[0].free
    ensures var next := at + HEADER + bs[0].size;
      && (Allocated(at, bs) == {} <==> |bs| == 1)
      && (|bs| > 1 ==> Live(next, bs[1].size) in Allocated(at, bs))
      && forall l :: l in Allocated(at, bs) ==> l.addr >= next
  {
    var next := at + HEADER + bs[0].size;
    if |bs| > 1 {
      assert !bs[1].free;
    }
    forall l | l in Allocated(at, bs)
      ensures l.addr >= next
    {
      AllocatedFrom(next, bs[1..], l);
    }
  }

  lemma HeadAllocated(at: nat, bs: seq<Block>, l: Live)
    requires bs != [] && l in Allocated(at, bs) && l.addr == at
    ensures !bs[0].free && l.size == bs[0].size
  {
    if bs[0].free || l != Live(at, bs[0].size) {
      AllocatedFrom(at + HEADER + bs[0].size, bs[1..], l);
    }
  }

  lemma TailAllocated(at: nat, bs: seq<Block>)
    requires bs != []
    ensures Allocated(at + HEADER + bs[0].size, bs[1..]) == set l | l in Allocated(at, bs) && l.addr != at
  {
    forall l | l in Allocated(at + HEADER + bs[0].size, bs[1..])
      ensures l.addr != at
    {
      AllocatedFrom(at + HEADER + bs[0].size, bs[1..], l);
    }
  }

  /** Two heaps without adjacent free blocks that have the same extent and the same allocated
      blocks are the same list: nothing of the history remains. */
  lemma {:induction false} LayoutDetermined(at: nat, bs: seq<Block>, cs: seq<Block>)
    requires NoFreePair(bs) && NoFreePair(cs)
    requires Bytes(bs) == Bytes(cs) && Allocated(at, bs) == Allocated(at, cs)
    ensures bs == cs
    decreases |bs|
  {
    if bs != [] {
      SameHead(at, bs, cs);
      TailAllocated(at, bs);
      TailAllocated(at, cs);
      LayoutDetermined(at + HEADER + bs[0].size, bs[1..], cs[1..]);
      assert bs == [bs[0]] + bs[1..] && cs == [cs[0]] + cs[1..];
    }
  }

  lemma SameHead(at: nat, bs: seq<Block>, cs: seq<Block>)
    requires bs != [] && cs != [] && NoFreePair(bs) && NoFreePair(cs)
    requires Bytes(bs) == Bytes(cs) && Allocated(at, bs) == Allocated(at, cs)
    ensures bs[0] == cs[0]
  {
    if !bs[0].free {
      HeadAllocated(at, cs, Live(at, bs[0].size));
    } else if !cs[0].free {
      HeadAllocated(at, bs, Live(at, cs[0].size));
    } else {
      FirstBlock(at, bs);
      FirstBlock(at, cs);
      if |bs| > 1 {
        assert Live(at + HEADER + bs[0].size, bs[1].size) in Allocated(at, cs);
        assert |cs| > 1;
        assert Live(at + HEADER + cs[0].size, cs[1].size) in Allocated(at, bs);
      } else {
        assert bs[1..] == [] && cs[1..] == [];
      }
    }
  }

  // ---- allocation ----

  lemma AllocateParts(bs: seq<Block>, i: nat, need: nat)
    requires i < |bs| && FitsIn(bs[i], need)
    ensures bs == bs[..i] + ([bs[i]] + bs[i + 1..])
    ensures Allocate(bs, i, need) == bs[..i] + (Parts(bs[i], need) + bs[i + 1..])
  {
  }

  lemma AllocateKeepsBytes(bs: seq<Block>, i: nat, need: nat)
    requires i < |bs| && FitsIn(bs[i], need)
    ensures Bytes(Allocate(bs, i, need)) == Bytes(bs)
  {
    AllocateParts(bs, i, need);
    var ps := Parts(bs[i], need);
    BytesAppend(bs[..i], [bs[i]] + bs[i + 1..]);
    BytesAppend([bs[i]], bs[i + 1..]);
    BytesAppend(bs[..i], ps + bs[i + 1..]);
    BytesAppend(ps, bs[i + 1..]);
    assert |ps| == 2 ==> ps[1..][1..] == [];
  }

  lemma AllocateKeepsApart(bs: seq<Block>, i: nat, need: nat)
    requires i < |bs| && FitsIn(bs[i], need) && NoFreePair(bs)
    ensures NoFreePair(Allocate(bs, i, need))
  {
    var cs, ps := Allocate(bs, i, need), Parts(bs[i], need);
    forall k | 0 <= k < |cs| - 1
      ensures !(cs[k].free && cs[k + 1].free)
    {
      if k >= i + |ps| {
        assert cs[k] == bs[k - |ps| + 1] && cs[k + 1] == bs[k - |ps| + 2];
      }
    }
  }

  lemma {:induction false} AlignedAppend(at: nat, bs: seq<Block>, cs: seq<Block>)
    ensures Aligned(at, bs + cs) <==> Aligned(at, bs) && Aligned(at + Bytes(bs), cs)
    decreases |bs|
  {
    if bs == [] {
      assert bs + cs == cs;
    } else {
      assert (bs + cs)[1..] == bs[1..] + cs;
      AlignedAppend(at + HEADER + bs[0].size, bs[1..], cs);
    }
  }

  lemma AllocateKeepsAligned(at: nat, bs: seq<Block>, i: nat, need: nat)
    requires i < |bs| && FitsIn(bs[i], need) && Aligned(at, bs) && need % 4 == 0
    ensures Aligned(at, Allocate(bs, i, need))
  {
    AllocateParts(bs, i, need);
    AlignedAppend(at, bs[..i], [bs[i]] + bs[i + 1..]);
    AlignedAppend(at, bs[..i], Parts(bs[i], need) + bs[i + 1..]);
    PartsAligned(at + Bytes(bs[..i]), bs[i], need, bs[i + 1..]);
  }

  lemma PartsAligned(a: nat, b: Block, need: nat, rest: seq<Block>)
    requires FitsIn(b, need) && need % 4 == 0 && Aligned(a, [b] + rest)
    ensures Aligned(a, Parts(b, need) + rest)
  {
    var ps := Parts(b, need);
    assert ([b] + rest)[1..] == rest;
    if |ps| == 2 {
      assert (ps + rest)[1..] == [ps[1]] + rest && ([ps[1]] + rest)[1..] == rest;
    } else {
      assert (ps + rest)[1..] == rest;
    }
  }

  /** An allocation adds the one block it returns and changes no other. */
  lemma AllocateAddsOne(at: nat, bs: seq<Block>, i: nat, need: nat)
    requires i < |bs| && FitsIn(bs[i], need)
    ensures var l := Live(Addr(at, bs, i), Parts(bs[i], need)[0].size);
      && l.size == (if bs[i].size > need + 16 then need else bs[i].size) && l.size >= need && l !in Allocated(at, bs)
      && Allocated(at, Allocate(bs, i, need)) == Allocated(at, bs) + {l}
  {
    AllocateParts(bs, i, need);
    AllocatedAround(at, bs[..i], bs[i], need, bs[i + 1..]);
  }

  lemma AllocatedAround(at: nat, front: seq<Block>, b: Block, need: nat, rest: seq<Block>)
    requires FitsIn(b, need)
    ensures var l := Live(at + Bytes(front), Parts(b, need)[0].size);
      && l !in Allocated(at, front + ([b] + rest))
      && Allocated(at, front + (Parts(b, need) + rest)) == Allocated(at, front + ([b] + rest)) + {l}
  {
    var a := at + Bytes(front);
    AllocatedAppend(at, front, [b] + rest);
    AllocatedAppend(at, front, Parts(b, need) + rest);
    PartsAllocated(a, b, need, rest);
    NotAround(at, front, rest, b.size, Live(a, Parts(b, need)[0].size));
  }

  /** A block at the address behind bs is neither among bs nor behind itself. */
  lemma NotAround(at: nat, bs: seq<Block>, rest: seq<Block>, size: nat, l: Live)
    requires l.addr == at + Bytes(bs)
    ensures l !in Allocated(at, bs) && l !in Allocated(at + Bytes(bs) + HEADER + size, rest)
  {
    if l in Allocated(at, bs) {
      AllocatedFrom(at, bs, l);
    }
    if l in Allocated(at + Bytes(bs) + HEADER + size, rest) {
      AllocatedFrom(at + Bytes(bs) + HEADER + size, rest, l);
    }
  }

  lemma PartsAllocated(a: nat, b: Block, need: nat, rest: seq<Block>)
    requires FitsIn(b, need)
    ensures Allocated(a, [b] + rest) == Allocated(a + HEADER + b.size, rest)
    ensures Allocated(a, Parts(b, need) + rest) == {Live(a, Parts(b, need)[0].size)} + Allocated(a + HEADER + b.size, rest)
  {
    assert ([b] + rest)[1..] == rest;
    var ps := Parts(b, need);
    if |ps| == 2 {
      assert (ps + rest)[1..] == [ps[1]] + rest;
      assert ([ps[1]] + rest)[1..] == rest;
    } else {
      assert (ps + rest)[1..] == rest;
    }
  }

  lemma NeedIs(n: nat)
    ensures Need(n) % 4 == 0 && n <= Need(n) < n + 4
  {
  }

  // ---- freeing ----

  lemma {:induction false} MergeKeeps(at: nat, bs: seq<Block>)
    ensures Bytes(Merge(bs)) == Bytes(bs) && Allocated(at, Merge(bs)) == Allocated(at, bs)
    ensures Aligned(at, bs) ==> Aligned(at, Merge(bs))
    decreases |bs|
  {
    if |bs| >= 2 {
      assert bs[1..][1..] == bs[2..];
      if bs[0].free && bs[1].free {
        var cs := [Block(bs[0].size + bs[1].size + HEADER, true)] + bs[2..];
        assert cs[1..] == bs[2..];
        if Aligned(at, bs) {
          assert Aligned(at + HEADER + bs[0].size, bs[1..]);
        }
        MergeKeeps(at, cs);
      } else {
        MergeKeeps(at + HEADER + bs[0].size, bs[1..]);
        var cs := [bs[0]] + Merge(bs[1..]);
        assert cs[1..] == Merge(bs[1..]);
      }
    }
  }

  /** One pass leaves no two adjacent free blocks, whatever it started from. */
  lemma {:induction false} MergeIsMaximal(bs: seq<Block>)
    ensures NoFreePair(Merge(bs))
    ensures bs != [] ==> Merge(bs) != [] && Merge(bs)[0].free == bs[0].free
    decreases |bs|
  {
    if |bs| >= 2 {
      if bs[0].free && bs[1].free {
        MergeIsMaximal([Block(bs[0].size + bs[1].size + HEADER, true)] + bs[2..]);
      } else {
        MergeIsMaximal(bs[1..]);
        var cs, ms := [bs[0]] + Merge(bs[1..]), Merge(bs[1..]);
        forall k | 0 <= k < |cs| - 1
          ensures !(cs[k].free && cs[k + 1].free)
        {
          if k > 0 {
            assert cs[k] == ms[k - 1] && cs[k + 1] == ms[k];
          }
        }
      }
    }
  }

  lemma MarkFree(at: nat, bs: seq<Block>, i: nat)
    requires i < |bs|
    ensures var cs := bs[i := Block(bs[i].size, true)];
      Bytes(cs) == Bytes(bs) && (Aligned(at, bs) <==> Aligned(at, cs))
  {
    var b, rest := bs[i], bs[i + 1..];
    assert bs == bs[..i] + ([b] + rest);
    assert bs[i := Block(b.size, true)] == bs[..i] + ([Block(b.size, true)] + rest);
    assert ([b] + rest)[1..] == rest && ([Block(b.size, true)] + rest)[1..] == rest;
    BytesAppend(bs[..i], [b] + rest);
    BytesAppend(bs[..i], [Block(b.size, true)] + rest);
    AlignedAppend(at, bs[..i], [b] + rest);
    AlignedAppend(at, bs[..i], [Block(b.size, true)] + rest);
  }

  lemma MarkFreeAllocated(at: nat, bs: seq<Block>, i: nat)
    requires i < |bs| && !bs[i].free
    ensures var l := Live(Addr(at, bs, i), bs[i].size);
      l in Allocated(at, bs) && Allocated(at, bs[i := Block(bs[i].size, true)]) == Allocated(at, bs) - {l}
  {
    var b, rest := bs[i], bs[i + 1..];
    assert bs == bs[..i] + ([b] + rest);
    assert bs[i := Block(b.size, true)] == bs[..i] + ([Block(b.size, true)] + rest);
    assert ([b] + rest)[1..] == rest && ([Block(b.size, true)] + rest)[1..] == rest;
    AllocatedAppend(at, bs[..i], [b] + rest);
    AllocatedAppend(at, bs[..i], [Block(b.size, true)] + rest);
    NotAround(at, bs[..i], rest, b.size, Live(Addr(at, bs, i), b.size));
  }

  /** A free removes the one block it is given and changes no other. */
  lemma FreeRemovesOne(at: nat, bs: seq<Block>, i: nat)
    requires i < |bs| && !bs[i].free
    ensures var l := Live(Addr(at, bs, i), bs[i].size);
      && l in Allocated(at, bs)
      && Allocated(at, Release(bs, i)) == Allocated(at, bs) - {l}
      && Bytes(Release(bs, i)) == Bytes(bs)
      && (Aligned(at, bs) ==> Aligned(at, Release(bs, i)))
  {
    MarkFree(at, bs, i);
    MarkFreeAllocated(at, bs, i);
    MergeKeeps(at, bs[i := Block(bs[i].size, true)]);
  }

  // ---- heap laws ----

  lemma AllocKeepsHeap(start: nat, size: nat, bs: seq<Block>, i: nat, n: nat)
    requires HeapOk(start, size, bs) && i < |bs| && FitsIn(bs[i], Need(n))
    ensures HeapOk(start, size, Allocate(bs, i, Need(n)))
  {
    NeedIs(n);
    AllocateKeepsBytes(bs, i, Need(n));
    AllocateKeepsApart(bs, i, Need(n));
    AllocateKeepsAligned(start, bs, i, Need(n));
  }

  lemma FreeKeepsHeap(start: nat, size: nat, bs: seq<Block>, i: nat)
    requires HeapOk(start, size, bs) && i < |bs| && !bs[i].free
    ensures HeapOk(start, size, Release(bs, i))
  {
    FreeRemovesOne(start, bs, i);
    MergeIsMaximal(bs[i := Block(bs[i].size, true)]);
  }

  /** Freeing the block just allocated restores the exact block list. */
  lemma FreeUndoesAlloc(start: nat, size: nat, bs: seq<Block>, i: nat, n: nat)
    requires HeapOk(start, size, bs) && i < |bs| && FitsIn(bs[i], Need(n))
    ensures i < |Allocate(bs, i, Need(n))| && !Allocate(bs, i, Need(n))[i].free
    ensures Release(Allocate(bs, i, Need(n)), i) == bs
  {
    var cs := Allocate(bs, i, Need(n));
    assert cs[i] == Parts(bs[i], Need(n))[0];
    assert cs[..i] == bs[..i];
    AllocateAddsOne(start, bs, i, Need(n));
    AllocKeepsHeap(start, size, bs, i, n);
    FreeRemovesOne(start, cs, i);
    FreeKeepsHeap(start, size, cs, i);
    LayoutDetermined(start, Release(cs, i), bs);
  }
}
