/** Page directories, page tables and the frames behind them, as values. */
module Paging {
  import opened Words

  const FRAMES := 8192
  const POOL := 0x0100_0000
  const PAGE := 0x1000
  const REGION := 0x40_0000
  const KERNEL_REGIONS := 64
  const PRESENT_WRITABLE_USER := 7
  const BIG := 0x80

  /** A frame holds the 1024 words of a page table or a page of bytes. */
  datatype Page = Table(words: seq<u32>) | Data(bytes: seq<byte>)

  /** The frame pool: which frames are taken, and what each holds. */
  datatype Ram = Ram(used: seq<bool>, pool: seq<Page>)

  type Dir = d: seq<u32> | |d| == 1024 witness seq(1024, _ => 0)

  predicate RamOk(ram: Ram) { |ram.used| == |ram.pool| == FRAMES }

  // ---- addresses and entries ----

  function FrameAddr(i: nat): u32
    requires i < FRAMES
  {
    POOL + i * PAGE
  }

  function RegionOf(va: u32): (i: nat)
    ensures i < 1024
  {
    va / REGION
  }

  function SlotOf(va: u32): (i: nat)
    ensures i < 1024
  {
    (va / PAGE) % 1024
  }

  predicate Present(e: u32) { e % 2 == 1 }

  predicate IsBig(e: u32) { (e / BIG) % 2 == 1 }

  /** The entry leads to a page table. */
  predicate HasTable(e: u32) { Present(e) && !IsBig(e) }

  function Base(e: u32): u32 { e / PAGE * PAGE }

  predicate InPool(e: u32) { POOL <= Base(e) < POOL + FRAMES * PAGE }

  /** The frame an entry points to. */
  function FrameOf(e: u32): (i: nat)
    requires InPool(e)
    ensures i < FRAMES
  {
    (Base(e) - POOL) / PAGE
  }

  lemma EntryBits(k: nat)
    requires k < 0x10_0000
    ensures var e := k * PAGE + PRESENT_WRITABLE_USER; Base(e) == k * PAGE && e / BIG == k * 32 && e % 2 == 1
  {
    var e := k * PAGE + PRESENT_WRITABLE_USER;
    assert e == BIG * (k * 32) + PRESENT_WRITABLE_USER;
    assert e == 2 * (k * 2048 + 3) + 1;
  }

  /** The entry for a table in frame i. */
  function TableEntry(i: nat): (e: u32)
    requires i < FRAMES
    ensures HasTable(e) && InPool(e) && FrameOf(e) == i
  {
    EntryBits(0x1000 + i);
    FrameAddr(i) + PRESENT_WRITABLE_USER
  }

  // ---- pmm_alloc and pmm_free ----

  /** The first free frame from i on; FRAMES when there is none. */
  function LeastUnused(used: seq<bool>, i: nat): (f: nat)
    requires |used| == FRAMES && i <= FRAMES
    ensures i <= f <= FRAMES && (f < FRAMES ==> !used[f])
    decreases FRAMES - i
  {
    if i == FRAMES || !used[i] then i else LeastUnused(used, i + 1)
  }

  /** Every frame before it is taken. */
  lemma {:induction false} LeastUnusedIsLeast(used: seq<bool>, i: nat, k: nat)
    requires |used| == FRAMES && i <= FRAMES && i <= k < LeastUnused(used, i)
    ensures used[k]
    decreases FRAMES - i
  {
    if i < k {
      LeastUnusedIsLeast(used, i + 1, k);
    }
  }

  function FrameTaken(ram: Ram, i: nat, page: Page): (r: Ram)
    requires RamOk(ram) && i < FRAMES
    ensures RamOk(r)
  {
    Ram(ram.used[i := true], ram.pool[i := page])
  }

  // ---- paging_get_phys ----

  /** Every table an entry leads to is a taken frame that holds one. */
  predicate EntryOk(ram: Ram, e: u32)
    requires RamOk(ram)
  {
    HasTable(e) ==> InPool(e) && ram.used[FrameOf(e)] && ram.pool[FrameOf(e)].Table? && |ram.pool[FrameOf(e)].words| == 1024
  }

  predicate DirOk(ram: Ram, dir: Dir)
    requires RamOk(ram)
  {
    forall i {:trigger EntryOk(ram, dir[i])} :: 0 <= i < 1024 ==> EntryOk(ram, dir[i])
  }

  /** The page table entry for va; 0 where there is no table. */
  function Pte(ram: Ram, e: u32, va: u32): u32
    requires RamOk(ram) && EntryOk(ram, e) && HasTable(e)
  {
    ram.pool[FrameOf(e)].words[SlotOf(va)]
  }

  /** `paging_get_phys`. */
  function Phys(ram: Ram, dir: Dir, va: u32): nat
    requires RamOk(ram) && EntryOk(ram, dir[RegionOf(va)])
  {
    var e := dir[RegionOf(va)];
    if !Present(e) then 0
    else if IsBig(e) then e / REGION * REGION + va % REGION
    else
      var p := Pte(ram, e, va);
      if !Present(p) then 0 else Base(p) + va % PAGE
  }

  // ---- get_page_table ----

  /** The table that replaces a 4MB entry: the same range, page by page. */
  function IdentityTable(e: u32): (ws: seq<u32>)
    ensures |ws| == 1024
  {
    seq(1024, i requires 0 <= i < 1024 => e / REGION * REGION + i * PAGE + PRESENT_WRITABLE_USER)
  }

  function EmptyTable(): (ws: seq<u32>)
    ensures |ws| == 1024 && forall i :: 0 <= i < 1024 ==> ws[i] == 0
  {
    seq(1024, _ => 0)
  }

  function NewTable(e: u32): (p: Page)
    ensures p.Table? && |p.words| == 1024
  {
    Table(if Present(e) then IdentityTable(e) else EmptyTable())
  }

  datatype Space = Space(ram: Ram, dir: Dir)

  /** `get_page_table` with create: an empty table for an absent entry, an identity table for
      a 4MB one; nothing when no frame is free. */
  function WithTable(s: Space, va: u32): (t: Space)
    requires RamOk(s.ram)
    ensures RamOk(t.ram)
  {
    var e := s.dir[RegionOf(va)];
    var f := LeastUnused(s.ram.used, 0);
    if HasTable(e) || f == FRAMES then s
    else Space(FrameTaken(s.ram, f, NewTable(e)), s.dir[RegionOf(va) := TableEntry(f)])
  }

  /** `paging_map_page`. */
  function Mapped(s: Space, va: u32, pa: u32, flags: u32): (t: Space)
    requires RamOk(s.ram) && DirOk(s.ram, s.dir) && flags < PAGE
    ensures RamOk(t.ram)
  {
    var w := WithTable(s, va);
    WithTableOk(s, va);
    var e := w.dir[RegionOf(va)];
    if !HasTable(e) then s
    else
      assert EntryOk(w.ram, e);
      var ws := w.ram.pool[FrameOf(e)].words;
      w.(ram := w.ram.(pool := w.ram.pool[FrameOf(e) := Table(ws[SlotOf(va) := PageEntry(pa, flags)])]))
  }

  lemma WithTableOk(s: Space, va: u32)
    requires RamOk(s.ram) && DirOk(s.ram, s.dir)
    ensures DirOk(WithTable(s, va).ram, WithTable(s, va).dir)
  {
    var t := WithTable(s, va);
    forall i | 0 <= i < 1024
      ensures EntryOk(t.ram, t.dir[i])
    {
      assert EntryOk(s.ram, s.dir[i]);
    }
  }

  // ---- splitting changes no translation ----

  lemma BigPage(e: u32, va: u32)
    ensures e / REGION * REGION + va % REGION == e / REGION * REGION + SlotOf(va) * PAGE + va % PAGE
    ensures IdentityTable(e)[SlotOf(va)] % 2 == 1 && Base(IdentityTable(e)[SlotOf(va)]) == e / REGION * REGION + SlotOf(va) * PAGE
  {
    assert va % REGION == SlotOf(va) * PAGE + va % PAGE;
    var k := e / REGION * 1024 + SlotOf(va);
    assert k * PAGE == e / REGION * REGION + SlotOf(va) * PAGE;
    EntryBits(k);
  }

  /** Replacing an entry by a table leaves every address of the directory where it was. */
  lemma SplitKeepsPhys(s: Space, va: u32, a: u32)
    requires RamOk(s.ram) && DirOk(s.ram, s.dir)
    ensures var t := WithTable(s, va);
      EntryOk(t.ram, t.dir[RegionOf(a)]) && Phys(t.ram, t.dir, a) == Phys(s.ram, s.dir, a)
  {
    var t := WithTable(s, va);
    var e := s.dir[RegionOf(a)];
    assert EntryOk(s.ram, e);
    WithTableOk(s, va);
    if RegionOf(a) == RegionOf(va) {
      if IsBig(e) {
        BigPage(e, a);
      }
    }
  }

  // ---- mapping changes one page ----

  /** The entry leads to table frame f. */
  predicate Leads(e: u32, f: nat) { HasTable(e) && InPool(e) && FrameOf(e) == f }

  /** No two entries of the directory lead to the same table. */
  ghost predicate TablesDistinct(dir: Dir) {
    forall i, j, f: nat {:trigger Leads(dir[i], f), Leads(dir[j], f)} ::
      0 <= i < 1024 && 0 <= j < 1024 && Leads(dir[i], f) && Leads(dir[j], f) ==> i == j
  }

  /** The entry `paging_map_page` writes: present when its low flag is set. */
  function PageEntry(pa: u32, flags: u32): (e: u32)
    requires flags < PAGE
    ensures Base(e) == Base(pa) && (Present(e) <==> flags % 2 == 1)
  {
    BaseAndFlags(pa, flags);
    Base(pa) + flags
  }

  lemma BaseAndFlags(pa: u32, flags: u32)
    requires flags < PAGE
    ensures Base(pa) + flags < 0x1_0000_0000 && Base(Base(pa) + flags) == Base(pa) && (Base(pa) + flags) % 2 == flags % 2
  {
    var k := pa / PAGE;
    assert k * PAGE + flags == 2 * (k * 2048) + flags;
  }

  /** What mapping va to pa makes of address a. */
  function MappedPhys(s: Space, va: u32, pa: u32, flags: u32, a: u32): nat
    requires RamOk(s.ram) && DirOk(s.ram, s.dir)
  {
    assert EntryOk(s.ram, s.dir[RegionOf(a)]);
    if a / PAGE == va / PAGE then (if flags % 2 == 1 then Base(pa) + a % PAGE else 0) else Phys(s.ram, s.dir, a)
  }

  lemma SamePage(a: u32, va: u32)
    ensures a / PAGE == va / PAGE <==> RegionOf(a) == RegionOf(va) && SlotOf(a) == SlotOf(va)
  {
    assert a / REGION == a / PAGE / 1024 && va / REGION == va / PAGE / 1024;
  }

  lemma WithTableDistinct(s: Space, va: u32)
    requires RamOk(s.ram) && DirOk(s.ram, s.dir) && TablesDistinct(s.dir)
    ensures TablesDistinct(WithTable(s, va).dir)
  {
    var t := WithTable(s, va);
    forall i, j, f: nat | 0 <= i < 1024 && 0 <= j < 1024 && Leads(t.dir[i], f) && Leads(t.dir[j], f)
      ensures i == j
    {
      assert EntryOk(s.ram, s.dir[i]) && EntryOk(s.ram, s.dir[j]);
      assert Leads(s.dir[i], f) || i == RegionOf(va);
      assert Leads(s.dir[j], f) || j == RegionOf(va);
    }
  }

  /** The walk the processor makes: present bits, the 4MB bit, and the two indices. */
  lemma PhysIsWalk(ram: Ram, dir: Dir, va: u32)
    requires RamOk(ram) && EntryOk(ram, dir[va / 0x40_0000])
    ensures var e := dir[va / 0x40_0000];
      && (e % 2 == 0 ==> Phys(ram, dir, va) == 0)
      && (e % 2 == 1 && e / 0x80 % 2 == 1 ==> Phys(ram, dir, va) == e - e % 0x40_0000 + va % 0x40_0000)
      && (e % 2 == 1 && e / 0x80 % 2 == 0 ==>
           var f := e / 0x1000 - 0x1000;
           && 0 <= f < 8192 && ram.pool[f].Table? && |ram.pool[f].words| == 1024
           && var p := ram.pool[f].words[va / 0x1000 % 1024];
           Phys(ram, dir, va) == if p % 2 == 0 then 0 else p - p % 0x1000 + va % 0x1000)
  {
  }

  /** A table that replaces a 4MB entry grants what that did: every word present, writable and open
      to user mode, and its directory entry too. */
  lemma SplitGrants(s: Space, va: u32, k: nat)
    requires RamOk(s.ram) && !HasTable(s.dir[va / 0x40_0000]) && LeastUnused(s.ram.used, 0) < 8192 && k < 1024
    ensures var t, f := WithTable(s, va), LeastUnused(s.ram.used, 0);
      && t.dir[va / 0x40_0000] == 0x0100_0000 + 0x1000 * f + 7 && t.ram.used[f] && t.ram.pool[f].Table?
      && |t.ram.pool[f].words| == 1024
      && t.ram.pool[f].words[k] % 0x1000 == if s.dir[va / 0x40_0000] % 2 == 1 then 7 else 0
  {
    var e := s.dir[va / 0x40_0000];
    assert e / REGION * REGION + k * PAGE + 7 == 0x1000 * (e / REGION * 0x400 + k) + 7;
  }

  /** The word a mapping writes, where there is a table for it: the frame's address and the flags. */
  lemma MappingWrites(s: Space, va: u32, pa: u32, flags: u32)
    requires RamOk(s.ram) && DirOk(s.ram, s.dir) && flags < 0x1000 && HasTable(WithTable(s, va).dir[va / 0x40_0000])
    ensures var t := Mapped(s, va, pa, flags);
      && EntryOk(t.ram, t.dir[va / 0x40_0000]) && HasTable(t.dir[va / 0x40_0000])
      && Pte(t.ram, t.dir[va / 0x40_0000], va) == pa - pa % 0x1000 + flags
  {
    var w := WithTable(s, va);
    WithTableOk(s, va);
    assert EntryOk(w.ram, w.dir[RegionOf(va)]);
  }

  /** Mapping a page, a frame being free for its table where one is needed, changes the
      translation of that page alone. */
  lemma MapChangesOnePage(s: Space, va: u32, pa: u32, flags: u32, a: u32)
    requires RamOk(s.ram) && DirOk(s.ram, s.dir) && TablesDistinct(s.dir) && flags < PAGE
    ensures var t := Mapped(s, va, pa, flags);
      && DirOk(t.ram, t.dir) && TablesDistinct(t.dir)
      && EntryOk(t.ram, t.dir[RegionOf(a)])
      && EntryOk(s.ram, s.dir[RegionOf(a)])
      && Phys(t.ram, t.dir, a) ==
           if a / 0x1000 == va / 0x1000 && HasTable(WithTable(s, va).dir[RegionOf(va)])
           then (if flags % 2 == 1 then pa - pa % 0x1000 + a % 0x1000 else 0)
           else Phys(s.ram, s.dir, a)
  {
    var w := WithTable(s, va);
    var t := Mapped(s, va, pa, flags);
    WithTableOk(s, va);
    WithTableDistinct(s, va);
    SplitKeepsPhys(s, va, a);
    assert EntryOk(s.ram, s.dir[RegionOf(a)]);
    if HasTable(w.dir[RegionOf(va)]) {
      MapInTable(w, va, pa, flags, t, a);
    }
  }

  /** Writing one word of a table the directory has. */
  lemma MapInTable(w: Space, va: u32, pa: u32, flags: u32, t: Space, a: u32)
    requires RamOk(w.ram) && DirOk(w.ram, w.dir) && TablesDistinct(w.dir) && flags < PAGE
    requires var e := w.dir[RegionOf(va)];
      && HasTable(e) && EntryOk(w.ram, e)
      && t == w.(ram := w.ram.(pool := w.ram.pool[FrameOf(e) := Table(w.ram.pool[FrameOf(e)].words[SlotOf(va) := PageEntry(pa, flags)])]))
    ensures RamOk(t.ram) && DirOk(t.ram, t.dir) && EntryOk(t.ram, t.dir[RegionOf(a)])
    ensures Phys(t.ram, t.dir, a) == MappedPhys(w, va, pa, flags, a)
  {
    forall i | 0 <= i < 1024
      ensures EntryOk(t.ram, t.dir[i])
    {
      assert EntryOk(w.ram, w.dir[i]);
    }
    SamePage(a, va);
    assert EntryOk(w.ram, w.dir[RegionOf(a)]);
    if RegionOf(a) != RegionOf(va) && HasTable(w.dir[RegionOf(a)]) {
      var f := FrameOf(w.dir[RegionOf(va)]);
      assert Leads(w.dir[RegionOf(va)], f);
      assert !Leads(w.dir[RegionOf(a)], f);
    }
  }

  // ---- several directories ----

  /** The kernel's directory: 256MB mapped to itself in 4MB entries, nothing above. */
  function KernelDir(): (d: Dir)
    ensures forall i :: 0 <= i < 1024 ==> !HasTable(d[i])
  {
    forall i | 0 <= i < KERNEL_REGIONS
      ensures IsBig(i * REGION + BIG + PRESENT_WRITABLE_USER)
    {
      BigEntry(i);
    }
    seq(1024, i requires 0 <= i < 1024 => if i < KERNEL_REGIONS then i * REGION + BIG + PRESENT_WRITABLE_USER else 0)
  }

  /** Whatever the frames hold, the directory maps the first 256MB to themselves and nothing else. */
  ghost predicate MapsKernel(dir: Dir) {
    forall ram: Ram, va: u32 :: RamOk(ram) ==>
      EntryOk(ram, dir[RegionOf(va)]) && Phys(ram, dir, va) == if va < 0x1000_0000 then va else 0
  }

  lemma KernelIsMapped()
    ensures MapsKernel(KernelDir())
    ensures forall i :: 0 <= i < 64 ==> KernelDir()[i] % 0x1000 == 0x87
  {
    forall ram: Ram, va: u32 | RamOk(ram)
      ensures EntryOk(ram, KernelDir()[RegionOf(va)])
      ensures Phys(ram, KernelDir(), va) == if va < 0x1000_0000 then va else 0
    {
      if RegionOf(va) < KERNEL_REGIONS {
        BigEntry(RegionOf(va));
        BigFlags(RegionOf(va));
      }
    }
    forall i | 0 <= i < 64
      ensures KernelDir()[i] % 0x1000 == 0x87
    {
      BigFlags(i);
    }
  }

  lemma BigFlags(i: nat)
    requires i < KERNEL_REGIONS
    ensures var e := i * REGION + BIG + PRESENT_WRITABLE_USER; e % 0x1000 == 0x87 && e / REGION == i && e % 2 == 1
  {
    var e := i * REGION + BIG + PRESENT_WRITABLE_USER;
    assert e == 0x1000 * (i * 0x400) + 0x87;
    assert e == 2 * (i * 0x20_0000 + 0x43) + 1;
  }

  lemma BigEntry(i: nat)
    requires i < KERNEL_REGIONS
    ensures IsBig(i * REGION + BIG + PRESENT_WRITABLE_USER)
  {
    assert i * REGION + BIG + PRESENT_WRITABLE_USER == BIG * (2 * (i * 0x4000) + 1) + PRESENT_WRITABLE_USER;
  }

  /** The frames and every process's page directory. */
  datatype System = System(ram: Ram, dirs: seq<Dir>)

  /** Table frame f is one of the directory's. */
  ghost predicate Uses(d: Dir, f: nat) {
    exists i :: 0 <= i < 1024 && Leads(d[i], f)
  }

  /** No table serves two directories. */
  ghost predicate NoneShared(d: Dir, e: Dir) {
    forall f: nat :: !(Uses(d, f) && Uses(e, f))
  }

  /** Every directory leads to its own tables only. */
  ghost predicate Isolated(s: System) {
    && RamOk(s.ram)
    && (forall a :: 0 <= a < |s.dirs| ==> DirOk(s.ram, s.dirs[a]) && TablesDistinct(s.dirs[a]))
    && forall a, b :: 0 <= a < |s.dirs| && 0 <= b < |s.dirs| && a != b ==> NoneShared(s.dirs[a], s.dirs[b])
  }

  datatype Op =
    | NewDir
    | Map(d: nat, va: u32, pa: u32, flags: u32)
    | TakeFrame(bytes: seq<byte>)

  predicate Allowed(s: System, op: Op) {
    match op
    case Map(d, _, _, flags) => d < |s.dirs| && flags < PAGE
    case _ => true
  }

  predicate Sane(s: System) {
    RamOk(s.ram) && forall a :: 0 <= a < |s.dirs| ==> DirOk(s.ram, s.dirs[a])
  }

  function Apply(s: System, op: Op): (t: System)
    requires Sane(s) && Allowed(s, op)
    ensures RamOk(t.ram)
  {
    match op
    case NewDir => s.(dirs := s.dirs + [KernelDir()])
    case Map(d, va, pa, flags) =>
      var t := Mapped(Space(s.ram, s.dirs[d]), va, pa, flags);
      System(t.ram, s.dirs[d := t.dir])
    case TakeFrame(bytes) =>
      var f := LeastUnused(s.ram.used, 0);
      if f == FRAMES then s else s.(ram := FrameTaken(s.ram, f, Data(bytes)))
  }

  /** What another directory needs to keep all its translations. */
  predicate TablesKept(ram: Ram, now: Ram, e: Dir)
    requires RamOk(ram) && RamOk(now)
  {
    forall i :: 0 <= i < 1024 && HasTable(e[i]) && InPool(e[i]) ==>
      now.used[FrameOf(e[i])] == ram.used[FrameOf(e[i])] && now.pool[FrameOf(e[i])] == ram.pool[FrameOf(e[i])]
  }

  lemma KeptPhys(ram: Ram, now: Ram, e: Dir, a: u32)
    requires RamOk(ram) && RamOk(now) && DirOk(ram, e) && TablesKept(ram, now, e)
    ensures DirOk(now, e) && EntryOk(now, e[RegionOf(a)]) && EntryOk(ram, e[RegionOf(a)]) && Phys(now, e, a) == Phys(ram, e, a)
  {
    forall i | 0 <= i < 1024
      ensures EntryOk(now, e[i])
    {
      assert EntryOk(ram, e[i]);
    }
    assert EntryOk(ram, e[RegionOf(a)]);
  }

  lemma TakenKeeps(ram: Ram, f: nat, page: Page, e: Dir)
    requires RamOk(ram) && f < FRAMES && !ram.used[f] && DirOk(ram, e)
    ensures TablesKept(ram, FrameTaken(ram, f, page), e)
  {
    forall i | 0 <= i < 1024 && HasTable(e[i]) && InPool(e[i])
      ensures FrameOf(e[i]) != f
    {
      assert EntryOk(ram, e[i]);
    }
  }

  lemma UnusedNotUsed(ram: Ram, e: Dir, f: nat)
    requires RamOk(ram) && DirOk(ram, e) && f < FRAMES && !ram.used[f]
    ensures !Uses(e, f)
  {
    forall i | 0 <= i < 1024
      ensures !Leads(e[i], f)
    {
      assert EntryOk(ram, e[i]);
    }
  }

  /** Getting a table and writing one of its words touch no frame of another directory. */
  lemma MapKeepsOther(s: Space, va: u32, pa: u32, flags: u32, e: Dir)
    requires RamOk(s.ram) && DirOk(s.ram, s.dir) && flags < PAGE && DirOk(s.ram, e) && NoneShared(s.dir, e)
    ensures TablesKept(s.ram, Mapped(s, va, pa, flags).ram, e) && NoneShared(Mapped(s, va, pa, flags).dir, e)
  {
    var w, t := WithTable(s, va), Mapped(s, va, pa, flags);
    var f := LeastUnused(s.ram.used, 0);
    if w != s {
      TakenKeeps(s.ram, f, NewTable(s.dir[RegionOf(va)]), e);
    }
    WithTableOk(s, va);
    var entry := w.dir[RegionOf(va)];
    forall g: nat | Uses(w.dir, g)
      ensures !Uses(e, g)
    {
      var i :| 0 <= i < 1024 && Leads(w.dir[i], g);
      if w.dir[i] == s.dir[i] {
        assert Uses(s.dir, g);
      } else {
        UnusedNotUsed(s.ram, e, f);
      }
    }
    if HasTable(entry) {
      assert EntryOk(w.ram, entry) && Leads(entry, FrameOf(entry));
      assert Uses(w.dir, FrameOf(entry));
      forall i | 0 <= i < 1024 && HasTable(e[i]) && InPool(e[i])
        ensures FrameOf(e[i]) != FrameOf(entry)
      {
        assert Leads(e[i], FrameOf(e[i]));
      }
    }
  }

  /** What an operation changes: a mapping, one page of one directory; all else, nothing. */
  ghost predicate OnlyItsPage(s: System, t: System, op: Op)
    requires Isolated(s) && Isolated(t) && Allowed(s, op) && |s.dirs| <= |t.dirs|
  {
    forall a, va: u32 :: 0 <= a < |s.dirs| && !(op.Map? && op.d == a && va / PAGE == op.va / PAGE) ==>
      SamePhys(s, t, a, va)
  }

  ghost predicate Confined(s: System, t: System, op: Op) {
    Isolated(s) && Isolated(t) && Allowed(s, op) && |s.dirs| <= |t.dirs| && OnlyItsPage(s, t, op)
  }

  predicate SamePhys(s: System, t: System, a: nat, va: u32)
    requires RamOk(s.ram) && RamOk(t.ram) && a < |s.dirs| && a < |t.dirs|
  {
    EntryOk(s.ram, s.dirs[a][RegionOf(va)]) && EntryOk(t.ram, t.dirs[a][RegionOf(va)])
      && Phys(s.ram, s.dirs[a], va) == Phys(t.ram, t.dirs[a], va)
  }

  /** New directories start with no table of their own, so they share none. */
  lemma NewDirIsolated(s: System)
    requires Isolated(s)
    ensures Isolated(Apply(s, NewDir)) && OnlyItsPage(s, Apply(s, NewDir), NewDir)
  {
    var t := Apply(s, NewDir);
    forall f: nat
      ensures !Uses(KernelDir(), f)
    {
    }
    forall a, va: u32 | 0 <= a < |s.dirs|
      ensures SamePhys(s, t, a, va)
    {
      assert DirOk(s.ram, s.dirs[a]);
      assert EntryOk(s.ram, s.dirs[a][RegionOf(va)]);
    }
  }

  lemma TakeFrameIsolated(s: System, bytes: seq<byte>)
    requires Isolated(s)
    ensures Isolated(Apply(s, TakeFrame(bytes))) && OnlyItsPage(s, Apply(s, TakeFrame(bytes)), TakeFrame(bytes))
  {
    var t := Apply(s, TakeFrame(bytes));
    var f := LeastUnused(s.ram.used, 0);
    forall a | 0 <= a < |s.dirs|
      ensures DirOk(t.ram, t.dirs[a])
    {
      if f < FRAMES {
        TakenKeeps(s.ram, f, Data(bytes), s.dirs[a]);
        KeptPhys(s.ram, t.ram, s.dirs[a], 0);
      }
    }
    forall a, va: u32 | 0 <= a < |s.dirs|
      ensures SamePhys(s, t, a, va)
    {
      if f < FRAMES {
        TakenKeeps(s.ram, f, Data(bytes), s.dirs[a]);
        KeptPhys(s.ram, t.ram, s.dirs[a], va);
      } else {
        assert EntryOk(s.ram, s.dirs[a][RegionOf(va)]);
      }
    }
  }

  lemma MapIsolated(s: System, op: Op)
    requires Isolated(s) && op.Map? && Allowed(s, op)
    ensures Isolated(Apply(s, op)) && OnlyItsPage(s, Apply(s, op), op)
  {
    var Map(d, va, pa, flags) := op;
    var t := Apply(s, op);
    var was := Space(s.ram, s.dirs[d]);
    forall a | 0 <= a < |s.dirs|
      ensures DirOk(t.ram, t.dirs[a]) && TablesDistinct(t.dirs[a])
      ensures a != d ==> NoneShared(t.dirs[d], t.dirs[a])
    {
      MapChangesOnePage(was, va, pa, flags, 0);
      if a != d {
        MapKeepsOther(was, va, pa, flags, s.dirs[a]);
        KeptPhys(s.ram, t.ram, s.dirs[a], 0);
      }
    }
    forall a, v: u32 | 0 <= a < |s.dirs| && !(d == a && v / PAGE == va / PAGE)
      ensures SamePhys(s, t, a, v)
    {
      assert EntryOk(s.ram, s.dirs[a][RegionOf(v)]);
      if a == d {
        MapChangesOnePage(was, va, pa, flags, v);
      } else {
        MapKeepsOther(was, va, pa, flags, s.dirs[a]);
        KeptPhys(s.ram, t.ram, s.dirs[a], v);
      }
    }
  }

  /** Every operation keeps the directories apart and changes at most its own page. */
  lemma OpIsolated(s: System, op: Op)
    requires Isolated(s) && Allowed(s, op)
    ensures Isolated(Apply(s, op)) && |s.dirs| <= |Apply(s, op).dirs| && OnlyItsPage(s, Apply(s, op), op)
  {
    match op
    case NewDir => NewDirIsolated(s);
    case Map(_, _, _, _) => MapIsolated(s, op);
    case TakeFrame(bytes) => TakeFrameIsolated(s, bytes);
  }

  /** What each operation does: a new directory maps what the kernel's does, a mapping moves its page
      where it has or gets a table, and a frame taken is the first free one and holds the bytes. */
  lemma OpDoes(s: System, op: Op)
    requires Isolated(s) && Allowed(s, op)
    ensures var t := Apply(s, op);
      match op
      case NewDir => t.ram == s.ram && |t.dirs| == |s.dirs| + 1 && t.dirs[..|s.dirs|] == s.dirs && MapsKernel(t.dirs[|s.dirs|])
      case Map(d, va, pa, flags) =>
        && |t.dirs| == |s.dirs| && EntryOk(t.ram, t.dirs[d][RegionOf(va)])
        && (LeastUnused(s.ram.used, 0) < 8192 && flags % 2 == 1 ==> Phys(t.ram, t.dirs[d], va) == pa - pa % 0x1000 + va % 0x1000)
      case TakeFrame(bytes) =>
        var f := LeastUnused(s.ram.used, 0);
        t.dirs == s.dirs && t.ram == if f == 8192 then s.ram else Ram(s.ram.used[f := true], s.ram.pool[f := Data(bytes)])
  {
    match op
    case NewDir => KernelIsMapped();
    case Map(d, va, pa, flags) => MapChangesOnePage(Space(s.ram, s.dirs[d]), va, pa, flags, va);
    case TakeFrame(bytes) =>
  }

  ghost predicate IsRun(states: seq<System>, ops: seq<Op>) {
    |states| == |ops| + 1 && forall k :: 0 <= k < |ops| ==> StepsAt(states, ops, k)
  }

  ghost predicate StepsAt(states: seq<System>, ops: seq<Op>, k: nat)
    requires |states| == |ops| + 1 && k < |ops|
  {
    Sane(states[k]) && Allowed(states[k], ops[k]) && states[k + 1] == Apply(states[k], ops[k])
  }

  /** From the state `paging_init` leaves, along every run of new directories, mappings and
      frames taken for data, directories stay apart, and no step moves a page it does not map. */
  lemma {:induction false} RunsIsolated(states: seq<System>, ops: seq<Op>, k: nat)
    requires IsRun(states, ops) && k < |states|
    requires RamOk(states[0].ram) && states[0].dirs == []
    ensures Isolated(states[k])
    ensures k > 0 ==> Confined(states[k - 1], states[k], ops[k - 1])
    decreases k
  {
    if k > 0 {
      RunsIsolated(states, ops, k - 1);
      assert StepsAt(states, ops, k - 1);
      OpIsolated(states[k - 1], ops[k - 1]);
    }
  }
}
