/** The frame bitmap, the frames and the page directories in place: pmm.c and paging.c. */
module PhysicalMemory {
  import opened Words
  import opened Paging

  /** A bitmap word, bit by bit. */
  type Flags = w: seq<bool> | |w| == 32 witness seq(32, _ => false)

  const WORDS := 256

  function UsedBits(bitmap: seq<Flags>): (used: seq<bool>)
    requires |bitmap| == WORDS
    ensures |used| == FRAMES
  {
    seq(FRAMES, i requires 0 <= i < FRAMES => bitmap[i / 32][i % 32])
  }

  lemma SetBit(bitmap: seq<Flags>, i: nat, b: bool)
    requires |bitmap| == WORDS && i < FRAMES
    ensures UsedBits(bitmap[i / 32 := bitmap[i / 32][i % 32 := b]]) == UsedBits(bitmap)[i := b]
  {
    var now := bitmap[i / 32 := bitmap[i / 32][i % 32 := b]];
    forall k | 0 <= k < FRAMES
      ensures UsedBits(now)[k] == UsedBits(bitmap)[i := b][k]
    {
      if k / 32 == i / 32 && k != i {
        assert k % 32 != i % 32;
      }
    }
  }

  lemma FrameOfAddr(i: nat)
    requires i < FRAMES
    ensures (FrameAddr(i) - POOL) / PAGE == i
    ensures InPool(FrameAddr(i)) && Base(FrameAddr(i)) == FrameAddr(i) && FrameOf(FrameAddr(i)) == i
    ensures TableEntry(i) == FrameAddr(i) + PRESENT_WRITABLE_USER && Base(TableEntry(i)) == FrameAddr(i)
  {
    EntryBits(0x1000 + i);
  }

  class Physical {
    var bitmap: array<Flags>
    var pool: array<Page>

    ghost predicate Valid()
      reads this
    {
      bitmap.Length == WORDS && pool.Length == FRAMES
    }

    ghost function View(): (r: Ram)
      requires Valid()
      reads this, bitmap, pool
      ensures RamOk(r)
    {
      Ram(UsedBits(bitmap[..]), pool[..])
    }

    /** `pmm_init`, on frames that hold anything. */
    constructor (pool: array<Page>)
      requires pool.Length == FRAMES
      ensures Valid() && fresh(bitmap) && this.pool == pool
      ensures View().used == seq(FRAMES, _ => false)
    {
      this.pool := pool;
      var clear: Flags := seq(32, _ => false);
      bitmap := new Flags[WORDS](_ => clear);
      new;
      assert bitmap[..] == seq(WORDS, _ => clear);
    }

    /** `pmm_alloc`: 0 when every frame is taken. */
    method Alloc() returns (addr: u32)
      requires Valid()
      modifies bitmap
      ensures var f := LeastUnused(old(View()).used, 0);
        if f == FRAMES then addr == 0 && View() == old(View())
        else addr == FrameAddr(f) == 0x0100_0000 + 0x1000 * f && View() == old(View()).(used := old(View()).used[f := true])
    {
      ghost var used := View().used;
      for i := 0 to FRAMES
        invariant bitmap[..] == old(bitmap[..]) && LeastUnused(used, 0) == LeastUnused(used, i)
      {
        var idx, bit := i / 32, i % 32;
        if !bitmap[idx][bit] {
          SetBit(bitmap[..], i, true);
          bitmap[idx] := bitmap[idx][bit := true];
          return POOL + i * PAGE;
        }
      }
      return 0;
    }

    /** `pmm_free`. */
    method Free(addr: u32)
      requires Valid()
      modifies bitmap
      ensures View() == if 0x0100_0000 <= addr < 0x0300_0000
        then old(View()).(used := old(View()).used[(addr - 0x0100_0000) / 0x1000 := false]) else old(View())
    {
      if addr < POOL {
        return;
      }
      var i := (addr - POOL) / PAGE;
      if i >= FRAMES {
        return;
      }
      SetBit(bitmap[..], i, false);
      bitmap[i / 32] := bitmap[i / 32][i % 32 := false];
    }

    /** The two ways `get_page_table` fills a new table. */
    method FillTable(pt: u32, e: u32)
      requires Valid() && InPool(pt) && Base(pt) == pt
      modifies pool
      ensures pool[..] == old(pool[..])[FrameOf(pt) := NewTable(e)]
    {
      var words := new u32[1024](_ => 0);
      if Present(e) {
        var base := e / REGION * REGION;
        for i := 0 to 1024
          invariant words[..i] == IdentityTable(e)[..i] && pool[..] == old(pool[..])
        {
          words[i] := base + i * PAGE + PRESENT_WRITABLE_USER;
        }
        assert words[..] == IdentityTable(e);
      } else {
        for i := 0 to 1024
          invariant words[..i] == EmptyTable()[..i] && pool[..] == old(pool[..])
        {
          words[i] := 0;
        }
        assert words[..] == EmptyTable();
      }
      pool[FrameOf(pt)] := Table(words[..]);
    }

    /** `get_page_table`: the address of the table for va, 0 for none. */
    method GetPageTable(dir: array<u32>, va: u32, create: bool) returns (pt: u32)
      requires Valid() && dir.Length == 1024 && DirOk(View(), dir[..])
      modifies bitmap, pool, dir
      ensures var s := Space(old(View()), old(dir[..]));
        Space(View(), dir[..]) == if create then WithTable(s, va) else s
      ensures HasTable(dir[RegionOf(va)]) ==> pt == Base(dir[RegionOf(va)])
      ensures !HasTable(dir[RegionOf(va)]) ==> pt == 0
    {
      var e := dir[va / REGION];
      assert EntryOk(View(), e);
      if HasTable(e) {
        return Base(e);
      }
      if !create {
        return 0;
      }
      if LeastUnused(View().used, 0) < FRAMES {
        FrameOfAddr(LeastUnused(View().used, 0));
      }
      pt := CreateTable(dir, va, e);
    }

    /** Both creating paths: a frame for the table, the entry that leads to it, its words. */
    method CreateTable(dir: array<u32>, va: u32, e: u32) returns (pt: u32)
      requires Valid() && dir.Length == 1024 && e == dir[RegionOf(va)] && !HasTable(e)
      modifies bitmap, pool, dir
      ensures Space(View(), dir[..]) == WithTable(Space(old(View()), old(dir[..])), va)
      ensures LeastUnused(old(View()).used, 0) == FRAMES ==> pt == 0 && dir[RegionOf(va)] == e
      ensures var f := LeastUnused(old(View()).used, 0); f < FRAMES ==> pt == FrameAddr(f) && dir[RegionOf(va)] == TableEntry(f)
    {
      ghost var f := LeastUnused(View().used, 0);
      pt := Alloc();
      if pt == 0 {
        return 0;
      }
      InstallTable(dir, RegionOf(va), pt, e, f);
    }

    method InstallTable(dir: array<u32>, i: nat, pt: u32, e: u32, ghost f: nat)
      requires Valid() && dir.Length == 1024 && i < 1024 && f < FRAMES && pt == FrameAddr(f)
      modifies pool, dir
      ensures dir[..] == old(dir[..])[i := TableEntry(f)] && pool[..] == old(pool[..])[f := NewTable(e)]
    {
      FrameOfAddr(f);
      dir[i] := pt + PRESENT_WRITABLE_USER;
      FillTable(pt, e);
    }

    /** `paging_map_page`; without a frame for the table the page stays unmapped. */
    method MapPage(dir: array<u32>, va: u32, pa: u32, flags: u32)
      requires Valid() && dir.Length == 1024 && DirOk(View(), dir[..]) && flags < PAGE
      modifies bitmap, pool, dir
      ensures Space(View(), dir[..]) == Mapped(Space(old(View()), old(dir[..])), va, pa, flags)
    {
      ghost var s := Space(View(), dir[..]);
      WithTableOk(s, va);
      var pt := GetPageTable(dir, va, true);
      assert EntryOk(View(), dir[RegionOf(va)]);
      if pt != 0 {
        WritePageEntry(dir[RegionOf(va)], pt, va, pa, flags);
      }
    }

    method WritePageEntry(ghost e: u32, pt: u32, va: u32, pa: u32, flags: u32)
      requires Valid() && HasTable(e) && EntryOk(View(), e) && pt == Base(e) && flags < PAGE
      modifies pool
      ensures pool[..] == old(pool[..])[FrameOf(e) := Table(old(pool[FrameOf(e)]).words[SlotOf(va) := PageEntry(pa, flags)])]
    {
      var f := (pt - POOL) / PAGE;
      BaseAndFlags(pa, flags);
      pool[f] := Table(pool[f].words[(va / PAGE) % 1024 := pa / PAGE * PAGE + flags]);
    }

    /** `paging_get_phys`. */
    method GetPhys(dir: array<u32>, va: u32) returns (pa: nat)
      requires Valid() && dir.Length == 1024 && EntryOk(View(), dir[RegionOf(va)])
      ensures pa == Phys(View(), dir[..], va)
    {
      var e := dir[va / REGION];
      if !Present(e) {
        return 0;
      }
      if IsBig(e) {
        return e / REGION * REGION + va % REGION;
      }
      var pte := pool[(e / PAGE * PAGE - POOL) / PAGE].words[(va / PAGE) % 1024];
      if !Present(pte) {
        return 0;
      }
      return pte / PAGE * PAGE + va % PAGE;
    }
  }

  /** The kernel's directory as `paging_init` fills it. */
  method InitKernelDir() returns (dir: array<u32>)
    ensures fresh(dir) && dir.Length == 1024 && dir[..] == KernelDir() && MapsKernel(dir[..])
  {
    dir := new u32[1024](_ => 0);
    for i := 0 to KERNEL_REGIONS
      invariant dir[..i] == KernelDir()[..i]
    {
      dir[i] := i * REGION + BIG + PRESENT_WRITABLE_USER;
    }
    for i := KERNEL_REGIONS to 1024
      invariant dir[..i] == KernelDir()[..i]
    {
      dir[i] := 0;
    }
    assert dir[..] == KernelDir();
    KernelIsMapped();
  }

  /** `paging_new_dir`, its memory granted. */
  method NewPageDir(kernelDir: array<u32>) returns (dir: array<u32>)
    requires kernelDir.Length == 1024 && kernelDir[..] == KernelDir()
    ensures fresh(dir) && dir.Length == 1024 && dir[..] == KernelDir() && MapsKernel(dir[..])
  {
    dir := new u32[1024](_ => 0);
    for i := 0 to KERNEL_REGIONS
      invariant dir[..i] == kernelDir[..i] && kernelDir[..] == KernelDir()
    {
      dir[i] := kernelDir[i];
    }
    for i := KERNEL_REGIONS to 1024
      invariant dir[..i] == KernelDir()[..i]
    {
      dir[i] := 0;
    }
    assert dir[..] == KernelDir();
    KernelIsMapped();
  }

  /** A frame taken and given back: the bitmap is as before. */
  lemma FreeUndoesAlloc(used: seq<bool>)
    requires |used| == FRAMES && LeastUnused(used, 0) < FRAMES
    ensures var f := LeastUnused(used, 0);
      used[f := true][(FrameAddr(f) - POOL) / PAGE := false] == used
  {
    var f := LeastUnused(used, 0);
    assert (FrameAddr(f) - POOL) / PAGE == f;
    assert used[f := true][f := false] == used;
  }
}
