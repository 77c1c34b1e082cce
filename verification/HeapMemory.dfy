/** `kmalloc` and `kfree` on block headers in memory, against the block list. */
module HeapMemory {
  import opened Words
  import opened Heap

  datatype Header = Header(size: nat, free: bool, next: nat)

  /** The headers linked from address a on are the blocks bs, one behind the other. */
  predicate Rep(mem: map<nat, Header>, a: nat, bs: seq<Block>)
    decreases |bs|
  {
    if bs == [] then a == NULL
    else
      && a != NULL && a in mem && mem[a].size == bs[0].size && mem[a].free == bs[0].free
      && (|bs| > 1 ==> mem[a].next == a + HEADER + bs[0].size)
      && Rep(mem, mem[a].next, bs[1..])
  }

  lemma {:induction false} RepSuffix(mem: map<nat, Header>, a: nat, bs: seq<Block>, i: nat)
    requires Rep(mem, a, bs) && i < |bs|
    ensures Rep(mem, Addr(a, bs, i), bs[i..])
    decreases i
  {
    if i == 0 {
      assert bs[..0] == [] && bs[0..] == bs;
    } else {
      RepSuffix(mem, mem[a].next, bs[1..], i - 1);
      assert bs[..i][1..] == bs[1..][..i - 1] && bs[i..] == bs[1..][i - 1..];
    }
  }

  lemma {:induction false} RepFrame(mem: map<nat, Header>, now: map<nat, Header>, a: nat, bs: seq<Block>)
    requires Rep(mem, a, bs) && forall k :: k in mem && k >= a ==> k in now && now[k] == mem[k]
    ensures Rep(now, a, bs)
    decreases |bs|
  {
    if |bs| > 1 {
      RepFrame(mem, now, mem[a].next, bs[1..]);
    }
  }

  /** A list rewritten from block i on, nothing below it touched. */
  lemma {:induction false} RepReplace(mem: map<nat, Header>, now: map<nat, Header>, a: nat, bs: seq<Block>, i: nat, rest: seq<Block>)
    requires Rep(mem, a, bs) && i < |bs| && rest != []
    requires forall k :: k in mem && k < Addr(a, bs, i) ==> k in now && now[k] == mem[k]
    requires Rep(now, Addr(a, bs, i), rest)
    ensures Rep(now, a, bs[..i] + rest)
    decreases i
  {
    if i == 0 {
      assert bs[..0] + rest == rest;
    } else {
      assert bs[..i][1..] == bs[1..][..i - 1];
      AddrLess(a, bs, 0, i);
      RepReplace(mem, now, mem[a].next, bs[1..], i - 1, rest);
      assert (bs[..i] + rest)[1..] == bs[1..][..i - 1] + rest;
    }
  }

  lemma FirstFitIs(bs: seq<Block>, need: nat, i: nat)
    requires i <= |bs| && forall k :: 0 <= k < i ==> !FitsIn(bs[k], need)
    ensures i == |bs| ==> FirstFit(bs, need) == None
    ensures i < |bs| && FitsIn(bs[i], need) ==> FirstFit(bs, need) == Some(i)
  {
  }

  // ---- which block an address is ----

  predicate IsBlockAt(start: nat, bs: seq<Block>, i: nat, a: int) {
    i < |bs| && Addr(start, bs, i) == a
  }

  /** An address that kmalloc returned and nobody has freed since. */
  ghost predicate IsLive(start: nat, bs: seq<Block>, ptr: nat) {
    exists i: nat :: IsBlockAt(start, bs, i, ptr - HEADER) && !bs[i].free
  }

  lemma BlockUnique(start: nat, bs: seq<Block>, i: nat, j: nat, a: int)
    requires IsBlockAt(start, bs, i, a) && IsBlockAt(start, bs, j, a)
    ensures i == j
  {
    if i < j {
      AddrLess(start, bs, i, j);
    } else if j < i {
      AddrLess(start, bs, j, i);
    }
  }

  /** Where two blocks do not merge the pass goes on behind the first. */
  lemma MergeSkips(bs: seq<Block>, i: nat)
    requires i < |bs| && !(bs[i].free && i + 1 < |bs| && bs[i + 1].free)
    ensures bs[..i] + Merge(bs[i..]) == bs[..i + 1] + Merge(bs[i + 1..]) && bs[i..][1..] == bs[i + 1..]
  {
    var rest := bs[i..];
    assert rest[1..] == bs[i + 1..];
    assert Merge(rest) == [rest[0]] + Merge(rest[1..]);
    assert bs[..i + 1] == bs[..i] + [bs[i]];
  }

  lemma OneBlock(start: nat, b: Block)
    requires start % 4 == 0
    ensures HeapOk(start, HEADER + b.size, [b])
  {
    assert [b][1..] == [];
  }

  class KernelHeap {
    var mem: map<nat, Header>
    var list: nat
    ghost var size: nat
    ghost var blocks: seq<Block>

    ghost predicate Valid()
      reads this
    {
      && list != NULL && list + size <= 0x1_0000_0000
      && Rep(mem, list, blocks) && HeapOk(list, size, blocks)
    }

    /** `malloc_init`. */
    constructor (start: nat, size: nat)
      requires start != NULL && start % 4 == 0 && size >= HEADER && start + size <= 0x1_0000_0000
      ensures Valid() && list == start && this.size == size && blocks == [Block(size - HEADER, true)]
    {
      this.size := size;
      list := start;
      mem := map[start := Header(size - HEADER, true, NULL)];
      blocks := [Block(size - HEADER, true)];
      OneBlock(start, Block(size - HEADER, true));
    }

    /** `kmalloc`, for requests whose rounding does not wrap. */
    method Kmalloc(n: nat) returns (ptr: nat)
      requires Valid() && n <= 0xFFFF_FFFC
      modifies this
      ensures Valid() && list == old(list) && size == old(size)
      ensures match FirstFit(old(blocks), Need(n))
        case None => ptr == NULL && blocks == old(blocks)
        case Some(i) => ptr == Addr(list, old(blocks), i) + HEADER && blocks == Allocate(old(blocks), i, Need(n))
      ensures ptr == NULL <==> forall i :: 0 <= i < |old(blocks)| ==> !FitsIn(old(blocks)[i], Need(n))
    {
      var curr: nat := list;
      var need := (n + 3) / 4 * 4;
      ghost var i: nat := 0;
      while curr != NULL
        invariant Valid() && list == old(list) && size == old(size) && blocks == old(blocks)
        invariant i <= |blocks| && Rep(mem, curr, blocks[i..])
        invariant i < |blocks| ==> curr == Addr(list, blocks, i)
        invariant forall k :: 0 <= k < i ==> !FitsIn(blocks[k], need)
        decreases |blocks| - i
      {
        if mem[curr].free && mem[curr].size >= need {
          FirstFitIs(blocks, need, i);
          AllocKeepsHeap(list, size, blocks, i, n);
          Take(curr, need, i);
          return curr + HEADER;
        }
        AddrStep(list, blocks, i);
        assert blocks[i..][1..] == blocks[i + 1..];
        curr := mem[curr].next;
        i := i + 1;
      }
      FirstFitIs(blocks, need, i);
      return NULL;
    }

    /** Split the block at `curr` when more than a header and four bytes would remain, and take it. */
    method Take(curr: nat, need: nat, ghost i: nat)
      requires list != NULL && Rep(mem, list, blocks)
      requires i < |blocks| && FitsIn(blocks[i], need) && curr == Addr(list, blocks, i)
      modifies this
      ensures list == old(list) && size == old(size)
      ensures blocks == Allocate(old(blocks), i, need) && Rep(mem, list, blocks)
    {
      ghost var was, bs := mem, blocks;
      RepSuffix(mem, list, blocks, i);
      if mem[curr].size > need + HEADER + 4 {
        var next := curr + HEADER + need;
        mem := mem[next := Header(mem[curr].size - need - HEADER, true, mem[curr].next)];
        mem := mem[curr := Header(need, mem[curr].free, next)];
      }
      mem := mem[curr := mem[curr].(free := false)];
      blocks := Allocate(blocks, i, need);
      TakenList(was, mem, curr, bs[i..], need);
      assert bs[i..][1..] == bs[i + 1..];
      RepReplace(was, mem, list, bs, i, Parts(bs[i], need) + bs[i + 1..]);
      AllocateParts(bs, i, need);
    }

    /** `kfree`. */
    method Kfree(ptr: nat)
      requires Valid() && (ptr == NULL || IsLive(list, blocks, ptr))
      modifies this
      ensures Valid() && list == old(list) && size == old(size)
      ensures ptr == NULL ==> blocks == old(blocks)
      ensures forall i: nat :: ptr != NULL && IsBlockAt(list, old(blocks), i, ptr - HEADER) ==> blocks == Release(old(blocks), i)
    {
      if ptr == NULL {
        return;
      }
      var header := ptr - HEADER;
      ghost var i: nat :| IsBlockAt(list, blocks, i, header) && !blocks[i].free;
      FreeKeepsHeap(list, size, blocks, i);
      forall j: nat | IsBlockAt(list, blocks, j, header)
        ensures j == i
      {
        BlockUnique(list, blocks, i, j, header);
      }
      Mark(header, i);
      Coalesce();
    }

    method Mark(header: nat, ghost i: nat)
      requires list != NULL && Rep(mem, list, blocks) && IsBlockAt(list, blocks, i, header)
      modifies this
      ensures list == old(list) && size == old(size)
      ensures blocks == old(blocks)[i := Block(old(blocks)[i].size, true)] && Rep(mem, list, blocks)
    {
      ghost var was, bs := mem, blocks;
      RepSuffix(mem, list, blocks, i);
      mem := mem[header := mem[header].(free := true)];
      ghost var rest := bs[i..];
      if |rest| > 1 {
        RepFrame(was, mem, was[header].next, rest[1..]);
      }
      ghost var marked := [Block(bs[i].size, true)] + rest[1..];
      assert marked[1..] == rest[1..];
      RepReplace(was, mem, list, bs, i, marked);
      blocks := bs[i := Block(bs[i].size, true)];
      assert bs[..i] + marked == blocks;
    }

    method Coalesce()
      requires list != NULL && Rep(mem, list, blocks)
      modifies this
      ensures list == old(list) && size == old(size)
      ensures blocks == Merge(old(blocks)) && Rep(mem, list, blocks)
    {
      var curr: nat := list;
      ghost var i: nat := 0;
      while curr != NULL
        invariant list == old(list) && size == old(size)
        invariant i <= |blocks| && Rep(mem, list, blocks) && Rep(mem, curr, blocks[i..])
        invariant i < |blocks| ==> curr == Addr(list, blocks, i)
        invariant blocks[..i] + Merge(blocks[i..]) == Merge(old(blocks))
        decreases |blocks| - i
      {
        if mem[curr].free && mem[curr].next != NULL && mem[mem[curr].next].free {
          Absorb(curr, i);
        } else {
          MergeSkips(blocks, i);
          AddrStep(list, blocks, i);
          curr := mem[curr].next;
          i := i + 1;
        }
      }
    }

    /** The block at `curr` takes over the free block behind it. */
    method Absorb(curr: nat, ghost i: nat)
      requires list != NULL && Rep(mem, list, blocks)
      requires i + 1 < |blocks| && curr == Addr(list, blocks, i) && blocks[i].free && blocks[i + 1].free
      requires Rep(mem, curr, blocks[i..])
      modifies this
      ensures list == old(list) && size == old(size) && |blocks| == |old(blocks)| - 1
      ensures blocks[..i] == old(blocks)[..i]
      ensures Merge(blocks[i..]) == Merge(old(blocks)[i..])
      ensures Rep(mem, list, blocks) && Rep(mem, curr, blocks[i..])
      ensures curr == Addr(list, blocks, i)
    {
      ghost var was, bs := mem, blocks;
      ghost var rest := bs[i..];
      mem := mem[curr := Header(mem[curr].size + mem[mem[curr].next].size + HEADER, mem[curr].free, mem[mem[curr].next].next)];
      ghost var merged := [Block(rest[0].size + rest[1].size + HEADER, true)] + rest[2..];
      assert rest[1..][1..] == rest[2..] == merged[1..];
      assert Rep(was, was[curr].next, rest[1..]) && Rep(was, was[was[curr].next].next, rest[2..]);
      if |rest| > 2 {
        RepFrame(was, mem, was[was[curr].next].next, rest[2..]);
      }
      assert Rep(mem, curr, merged);
      RepReplace(was, mem, list, bs, i, merged);
      blocks := bs[..i] + merged;
      assert blocks[i..] == merged && blocks[..i] == bs[..i];
    }

    /** `get_malloc_info`. */
    method GetMallocInfo() returns (total: nat, used: nat, free: nat, totalBlocks: nat, freeBlocks: nat)
      requires Valid()
      ensures total == size && totalBlocks == |blocks|
      ensures total == used + free + HEADER * freeBlocks
      ensures free == FreeBytes(blocks) && freeBlocks == FreeCount(blocks)
    {
      total, used, free, totalBlocks, freeBlocks := 0, 0, 0, 0, 0;
      var curr: nat := list;
      ghost var i: nat := 0;
      while curr != NULL
        invariant i <= |blocks| && Rep(mem, curr, blocks[i..])
        invariant total + Bytes(blocks[i..]) == Bytes(blocks) && totalBlocks == i
        invariant total == used + free + HEADER * freeBlocks
        invariant free + FreeBytes(blocks[i..]) == FreeBytes(blocks)
        invariant freeBlocks + FreeCount(blocks[i..]) == FreeCount(blocks)
        decreases |blocks| - i
      {
        totalBlocks := totalBlocks + 1;
        total := total + mem[curr].size + HEADER;
        if mem[curr].free {
          freeBlocks := freeBlocks + 1;
          free := free + mem[curr].size;
        } else {
          used := used + mem[curr].size + HEADER;
        }
        assert blocks[i..][1..] == blocks[i + 1..];
        curr := mem[curr].next;
        i := i + 1;
      }
    }
  }

  function FreeBytes(bs: seq<Block>): nat {
    if bs == [] then 0 else (if bs[0].free then bs[0].size else 0) + FreeBytes(bs[1..])
  }

  function FreeCount(bs: seq<Block>): nat {
    if bs == [] then 0 else (if bs[0].free then 1 else 0) + FreeCount(bs[1..])
  }

  /** Free bytes and free blocks add up block by block. */
  lemma {:induction false} FreeAddsUp(bs: seq<Block>, cs: seq<Block>, n: nat)
    ensures FreeBytes(bs + cs) == FreeBytes(bs) + FreeBytes(cs) && FreeCount(bs + cs) == FreeCount(bs) + FreeCount(cs)
    ensures FreeBytes([Block(n, true)]) == n && FreeBytes([Block(n, false)]) == 0
    ensures FreeCount([Block(n, true)]) == 1 && FreeCount([Block(n, false)]) == 0
  {
    if bs == [] {
      assert bs + cs == cs;
    } else {
      FreeAddsUp(bs[1..], cs, n);
      assert (bs + cs)[1..] == bs[1..] + cs;
    }
  }

  /** The headers from `curr` on after the block there was taken. */
  lemma TakenList(was: map<nat, Header>, now: map<nat, Header>, curr: nat, rest: seq<Block>, need: nat)
    requires rest != [] && Rep(was, curr, rest) && FitsIn(rest[0], need)
    requires now == if rest[0].size > need + HEADER + 4
      then was[curr + HEADER + need := Header(rest[0].size - need - HEADER, true, was[curr].next)]
              [curr := Header(need, false, curr + HEADER + need)]
      else was[curr := Header(rest[0].size, false, was[curr].next)]
    ensures Rep(now, curr, Parts(rest[0], need) + rest[1..])
  {
    var ps := Parts(rest[0], need);
    if |rest| > 1 {
      RepFrame(was, now, was[curr].next, rest[1..]);
    }
    var all := ps + rest[1..];
    if |ps| == 2 {
      assert all[1..] == [ps[1]] + rest[1..] && all[1..][1..] == rest[1..];
    } else {
      assert all[1..] == rest[1..];
    }
  }

  // ---- runs ----

  /** A call: an allocation of n bytes, or a free of an address. */
  datatype Call = Alloc(n: nat) | Free(ptr: nat)

  /** The block list after a call. */
  ghost function After(start: nat, bs: seq<Block>, c: Call): seq<Block>
    requires c.Free? ==> IsLive(start, bs, c.ptr)
  {
    match c
    case Alloc(n) =>
      (match FirstFit(bs, Need(n))
       case None => bs
       case Some(i) => Allocate(bs, i, Need(n)))
    case Free(ptr) =>
      var i: nat :| IsBlockAt(start, bs, i, ptr - HEADER) && !bs[i].free;
      Release(bs, i)
  }

  /** What a call does to the set of allocated blocks, seen from outside. */
  ghost predicate SetStep(was: set<Live>, now: set<Live>, c: Call) {
    match c
    case Alloc(n) => now == was || exists l :: Adds(was, now, l, n)
    case Free(ptr) => exists l :: Drops(was, now, l, ptr)
  }

  predicate Adds(was: set<Live>, now: set<Live>, l: Live, n: nat) {
    l !in was && now == was + {l} && l.size >= n
  }

  predicate Drops(was: set<Live>, now: set<Live>, l: Live, ptr: nat) {
    l in was && now == was - {l} && l.addr + HEADER == ptr
  }

  /** Every call keeps the heap well-formed and changes the allocated set by its one block. */
  lemma CallStep(start: nat, size: nat, bs: seq<Block>, c: Call)
    requires HeapOk(start, size, bs) && (c.Free? ==> IsLive(start, bs, c.ptr))
    ensures HeapOk(start, size, After(start, bs, c))
    ensures SetStep(Allocated(start, bs), Allocated(start, After(start, bs, c)), c)
    ensures c.Alloc? && (exists i :: 0 <= i < |bs| && bs[i].free && bs[i].size >= Need(c.n)) ==>
      Allocated(start, After(start, bs, c)) != Allocated(start, bs)
  {
    match c
    case Alloc(n) =>
      var r := FirstFit(bs, Need(n));
      if r.Some? {
        var i := r.value;
        NeedIs(n);
        AllocateAddsOne(start, bs, i, Need(n));
        AllocKeepsHeap(start, size, bs, i, n);
        assert Adds(Allocated(start, bs), Allocated(start, After(start, bs, c)), Live(Addr(start, bs, i), Parts(bs[i], Need(n))[0].size), n);
      }
    case Free(ptr) =>
      var i: nat :| IsBlockAt(start, bs, i, ptr - HEADER) && !bs[i].free && After(start, bs, c) == Release(bs, i);
      FreeRemovesOne(start, bs, i);
      FreeKeepsHeap(start, size, bs, i);
      assert Drops(Allocated(start, bs), Allocated(start, After(start, bs, c)), Live(Addr(start, bs, i), bs[i].size), ptr);
  }

  /** The block lists of a run: frees are of live addresses. */
  ghost predicate IsRun(start: nat, states: seq<seq<Block>>, calls: seq<Call>) {
    && |states| == |calls| + 1
    && forall k :: 0 <= k < |calls| ==>
         (calls[k].Free? ==> IsLive(start, states[k], calls[k].ptr)) && states[k + 1] == After(start, states[k], calls[k])
  }

  /** Along every run the blocks tile the heap, no two free ones are adjacent, and each call
      changes the allocated set by its own block alone. */
  lemma {:induction false} RunsKeepHeap(start: nat, size: nat, states: seq<seq<Block>>, calls: seq<Call>, k: nat)
    requires IsRun(start, states, calls) && HeapOk(start, size, states[0]) && k < |states|
    ensures HeapOk(start, size, states[k])
    ensures k > 0 ==> SetStep(Allocated(start, states[k - 1]), Allocated(start, states[k]), calls[k - 1])
    decreases k
  {
    if k > 0 {
      RunsKeepHeap(start, size, states, calls, k - 1);
      CallStep(start, size, states[k - 1], calls[k - 1]);
      assert states[k - 1 + 1] == After(start, states[k - 1], calls[k - 1]);
    }
  }

  /** Two runs on the same heap that leave the same blocks allocated leave the same block list. */
  lemma RunsConverge(start: nat, size: nat, states: seq<seq<Block>>, calls: seq<Call>, others: seq<seq<Block>>, more: seq<Call>, k: nat, m: nat)
    requires IsRun(start, states, calls) && IsRun(start, others, more) && k < |states| && m < |others|
    requires HeapOk(start, size, states[0]) && HeapOk(start, size, others[0])
    requires Allocated(start, states[k]) == Allocated(start, others[m])
    ensures states[k] == others[m]
  {
    RunsKeepHeap(start, size, states, calls, k);
    RunsKeepHeap(start, size, others, more, m);
    LayoutDetermined(start, states[k], others[m]);
  }
}
