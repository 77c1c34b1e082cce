/** What the ELF loader builds: the image its program headers describe, and the pages that hold it. */
module ElfImage {
  import opened Words
  import opened Readers
  import opened Paging

  // ---- program headers ----

  const HEADER_BYTES := 52
  const PH_BYTES := 32

  /** A loadable segment. */
  datatype Segment = Segment(offset: u32, vaddr: u32, filesz: u32, memsz: u32)

  /** Program header i: None when it cannot be read whole, is not PT_LOAD, or has no memory. */
  function SegmentAt(content: seq<byte>, phoff: u32, i: nat): Option<Segment> {
    var b := Piece(content, (phoff + i * PH_BYTES) % 0x1_0000_0000, PH_BYTES);
    if |b| < PH_BYTES || Get32(b, 0) != 1 || Get32(b, 20) == 0 then None
    else Some(Segment(Get32(b, 4), Get32(b, 8), Get32(b, 16), Get32(b, 20)))
  }

  /** The word at byte off of the file. */
  function WordAt(content: seq<byte>, off: nat): nat
    requires off + 4 <= |content|
  {
    WordOf(content[off], content[off + 1], content[off + 2], content[off + 3])
  }

  /** A program header is 32 bytes: its type, where the segment begins in the file and in memory, and
      its size in either at bytes 0, 4, 8, 16 and 20. */
  lemma HeaderBytes(content: seq<byte>, phoff: u32, i: nat)
    ensures var off, r := (phoff + 32 * i) % 0x1_0000_0000, SegmentAt(content, phoff, i);
      if off + 32 > |content| || WordAt(content, off) != 1 || WordAt(content, off + 20) == 0 then r == None
      else r.Some? && r.value.offset == WordAt(content, off + 4) && r.value.vaddr == WordAt(content, off + 8)
           && r.value.filesz == WordAt(content, off + 16) && r.value.memsz == WordAt(content, off + 20)
  {
    PieceIs(content, (phoff + i * PH_BYTES) % 0x1_0000_0000, PH_BYTES);
  }

  /** The first n program headers' segments, in order. */
  function Segments(content: seq<byte>, phoff: u32, n: nat): (r: seq<Segment>)
    ensures |r| <= n
  {
    if n == 0 then [] else
    match SegmentAt(content, phoff, n - 1)
    case None => Segments(content, phoff, n - 1)
    case Some(s) => Segments(content, phoff, n - 1) + [s]
  }

  /** No segment wraps, and none has more bytes in the file than in memory. */
  predicate SegmentsOk(ss: seq<Segment>) {
    forall i :: 0 <= i < |ss| ==> ss[i].vaddr + ss[i].memsz <= 0xFFFF_F000 && ss[i].filesz <= ss[i].memsz
  }

  function Lowest(ss: seq<Segment>): (m: u32)
    ensures forall i :: 0 <= i < |ss| ==> m <= ss[i].vaddr
  {
    if ss == [] then 0xFFFF_FFFF else
    var m, v := Lowest(ss[..|ss| - 1]), ss[|ss| - 1].vaddr;
    if v < m then v else m
  }

  function Highest(ss: seq<Segment>): (m: u32)
    requires SegmentsOk(ss)
    ensures forall i :: 0 <= i < |ss| ==> ss[i].vaddr + ss[i].memsz <= m
    ensures m <= 0xFFFF_F000
  {
    if ss == [] then 0 else
    var m, s := Highest(ss[..|ss| - 1]), ss[|ss| - 1];
    if s.vaddr + s.memsz > m then s.vaddr + s.memsz else m
  }

  /** The lowest address is some segment's start, and the highest some segment's end. */
  lemma {:induction false} BoundsAreMet(ss: seq<Segment>)
    requires ss != [] && SegmentsOk(ss)
    ensures exists i :: 0 <= i < |ss| && ss[i].vaddr == Lowest(ss)
    ensures exists i :: 0 <= i < |ss| && ss[i].vaddr + ss[i].memsz == Highest(ss)
  {
    var n, before := |ss| - 1, ss[..|ss| - 1];
    assert Lowest(ss) == ss[n].vaddr || Lowest(ss) == Lowest(before);
    assert Highest(ss) == ss[n].vaddr + ss[n].memsz || Highest(ss) == Highest(before);
    if before != [] {
      BoundsAreMet(before);
      var i :| 0 <= i < |before| && before[i].vaddr == Lowest(before);
      var j :| 0 <= j < |before| && before[j].vaddr + before[j].memsz == Highest(before);
      assert ss[i] == before[i] && ss[j] == before[j];
    }
  }

  // ---- the image ----

  /** `part` written over temp at a place; nothing where it would not fit. */
  function Overlay(temp: seq<byte>, at: int, part: seq<byte>): (r: seq<byte>)
    ensures |r| == |temp|
  {
    if 0 <= at && at + |part| <= |temp| then temp[..at] + part + temp[at + |part|..] else temp
  }

  /** What a segment contributes: its bytes as far as the file has them. */
  function PartOf(content: seq<byte>, s: Segment): (p: seq<byte>)
    ensures |p| <= s.filesz
  {
    if s.filesz > 0 then Piece(content, s.offset, s.filesz) else []
  }

  /** The loader's buffer once the segments of ss are copied into it. */
  function Image(content: seq<byte>, ss: seq<Segment>, min: u32, size: nat): (r: seq<byte>)
    ensures |r| == size
  {
    if ss == [] then seq(size, _ => 0)
    else
      var s := ss[|ss| - 1];
      Overlay(Image(content, ss[..|ss| - 1], min, size), s.vaddr - min, PartOf(content, s))
  }

  /** Every segment lies in the buffer. */
  predicate Inside(ss: seq<Segment>, min: u32, size: nat) {
    SegmentsOk(ss) && forall i :: 0 <= i < |ss| ==> min <= ss[i].vaddr && ss[i].vaddr + ss[i].memsz <= min + size
  }

  /** The segment has file data for address a. */
  predicate Covers(content: seq<byte>, s: Segment, a: nat) {
    s.vaddr <= a < s.vaddr + s.filesz && s.offset + (a - s.vaddr) < |content|
  }

  /** The byte address a is due: that of the last segment with file data for it, else zero. */
  function ByteDue(content: seq<byte>, ss: seq<Segment>, a: nat): byte {
    if ss == [] then 0
    else
      var s := ss[|ss| - 1];
      if Covers(content, s, a) then content[s.offset + (a - s.vaddr)] else ByteDue(content, ss[..|ss| - 1], a)
  }

  /** ByteDue in other words. */
  lemma {:induction false} LastCoverWins(content: seq<byte>, ss: seq<Segment>, a: nat, i: nat)
    requires i <= |ss| && forall j :: i <= j < |ss| ==> !Covers(content, ss[j], a)
    ensures i == 0 ==> ByteDue(content, ss, a) == 0
    ensures i > 0 && Covers(content, ss[i - 1], a) ==> ByteDue(content, ss, a) == content[ss[i - 1].offset + (a - ss[i - 1].vaddr)]
    decreases |ss|
  {
    if i < |ss| {
      LastCoverWins(content, ss[..|ss| - 1], a, i);
    }
  }

  /** Program header i has file data for address a. */
  predicate HeaderCovers(content: seq<byte>, phoff: u32, i: nat, a: nat) {
    SegmentAt(content, phoff, i).Some? && Covers(content, SegmentAt(content, phoff, i).value, a)
  }

  /** Of the first n program headers the last with file data for an address decides its byte, and
      where none has any it is zero. */
  lemma {:induction false} LastHeaderWins(content: seq<byte>, phoff: u32, n: nat, i: nat, a: nat)
    requires i <= n && forall j: nat :: i <= j < n ==> !HeaderCovers(content, phoff, j, a)
    ensures i == 0 ==> ByteDue(content, Segments(content, phoff, n), a) == 0
    ensures i > 0 && HeaderCovers(content, phoff, i - 1, a) ==>
      var s := SegmentAt(content, phoff, i - 1).value; ByteDue(content, Segments(content, phoff, n), a) == content[s.offset + (a - s.vaddr)]
    decreases n
  {
    if n > 0 {
      var ss := Segments(content, phoff, n);
      var last := SegmentAt(content, phoff, n - 1);
      assert last.Some? ==> ss[..|ss| - 1] == Segments(content, phoff, n - 1) && ss[|ss| - 1] == last.value;
      if i < n {
        assert !HeaderCovers(content, phoff, n - 1, a);
        LastHeaderWins(content, phoff, n - 1, i, a);
      }
    }
  }

  /** The buffer holds each address's byte. */
  lemma {:induction false} ImageHolds(content: seq<byte>, ss: seq<Segment>, min: u32, size: nat, k: nat)
    requires Inside(ss, min, size) && k < size
    ensures Image(content, ss, min, size)[k] == ByteDue(content, ss, min + k)
    decreases |ss|
  {
    if ss != [] {
      var before, s := ss[..|ss| - 1], ss[|ss| - 1];
      LessInside(ss, min, size);
      ImageHolds(content, before, min, size, k);
      PartHolds(content, s, min + k);
      OverlayHolds(Image(content, before, min, size), s.vaddr - min, PartOf(content, s), k);
    }
  }

  lemma LessInside(ss: seq<Segment>, min: u32, size: nat)
    requires ss != [] && Inside(ss, min, size)
    ensures Inside(ss[..|ss| - 1], min, size)
  {
    var before := ss[..|ss| - 1];
    forall i | 0 <= i < |before|
      ensures before[i] == ss[i]
    {
    }
  }

  lemma OverlayHolds(temp: seq<byte>, at: nat, part: seq<byte>, k: nat)
    requires at + |part| <= |temp| && k < |temp|
    ensures Overlay(temp, at, part)[k] == if at <= k < at + |part| then part[k - at] else temp[k]
  {
  }

  lemma PartHolds(content: seq<byte>, s: Segment, a: nat)
    ensures var p := PartOf(content, s);
      && (Covers(content, s, a) <==> s.vaddr <= a < s.vaddr + |p|)
      && (Covers(content, s, a) ==> p[a - s.vaddr] == content[s.offset + (a - s.vaddr)])
  {
  }

  // ---- the pages ----

  /** The page of the image that starts at off, filled up with zeros. */
  function PageOf(image: seq<byte>, off: nat): (b: seq<byte>)
    ensures |b| == PAGE
  {
    seq(PAGE, j requires 0 <= j < PAGE => if off + j < |image| then image[off + j] else 0)
  }

  /** One page: a frame taken, filled and mapped; skipped when no frame is free. */
  function PageLoaded(s: Space, image: seq<byte>, min: u32, va: u32): (t: Space)
    requires RamOk(s.ram) && DirOk(s.ram, s.dir) && min <= va
    ensures RamOk(t.ram)
  {
    var f := LeastUnused(s.ram.used, 0);
    if f == FRAMES then s
    else
      TakenKeepsDir(s, f, Data(PageOf(image, va - min)));
      Mapped(s.(ram := FrameTaken(s.ram, f, Data(PageOf(image, va - min)))), va, FrameAddr(f), PRESENT_WRITABLE_USER)
  }

  lemma TakenKeepsDir(s: Space, f: nat, page: Page)
    requires RamOk(s.ram) && DirOk(s.ram, s.dir) && f < FRAMES && !s.ram.used[f]
    ensures DirOk(FrameTaken(s.ram, f, page), s.dir)
    ensures forall a: u32 ::
      EntryOk(s.ram, s.dir[RegionOf(a)]) && EntryOk(FrameTaken(s.ram, f, page), s.dir[RegionOf(a)])
      && Phys(FrameTaken(s.ram, f, page), s.dir, a) == Phys(s.ram, s.dir, a)
  {
    TakenKeeps(s.ram, f, page, s.dir);
    forall a: u32
      ensures EntryOk(s.ram, s.dir[RegionOf(a)]) && EntryOk(FrameTaken(s.ram, f, page), s.dir[RegionOf(a)])
      ensures Phys(FrameTaken(s.ram, f, page), s.dir, a) == Phys(s.ram, s.dir, a)
    {
      KeptPhys(s.ram, FrameTaken(s.ram, f, page), s.dir, a);
    }
    KeptPhys(s.ram, FrameTaken(s.ram, f, page), s.dir, 0);
  }

  ghost predicate SpaceOk(s: Space) {
    RamOk(s.ram) && DirOk(s.ram, s.dir) && TablesDistinct(s.dir)
  }

  lemma PageLoadedOk(s: Space, image: seq<byte>, min: u32, va: u32)
    requires SpaceOk(s) && min <= va
    ensures SpaceOk(PageLoaded(s, image, min, va))
  {
    var f := LeastUnused(s.ram.used, 0);
    if f < FRAMES {
      TakenKeepsDir(s, f, Data(PageOf(image, va - min)));
      MapChangesOnePage(s.(ram := FrameTaken(s.ram, f, Data(PageOf(image, va - min)))), va, FrameAddr(f), PRESENT_WRITABLE_USER, 0);
    }
  }

  /** The loader's last loop, from its k-th round on. */
  ghost function Loaded(s: Space, image: seq<byte>, min: u32, k: nat, n: nat): (t: Space)
    requires SpaceOk(s) && min + n * PAGE <= 0x1_0000_0000
    ensures RamOk(t.ram)
    decreases n - k
  {
    if k >= n then s
    else
      InRange(min, k, n);
      PageLoadedOk(s, image, min, min + k * PAGE);
      Loaded(PageLoaded(s, image, min, min + k * PAGE), image, min, k + 1, n)
  }

  lemma InRange(min: nat, k: nat, n: nat)
    requires k < n && min + n * PAGE <= 0x1_0000_0000
    ensures min + k * PAGE + PAGE <= 0x1_0000_0000
  {
  }

  // ---- enough frames ----

  function FreeFrames(used: seq<bool>): nat {
    if used == [] then 0 else FreeFrames(used[..|used| - 1]) + if used[|used| - 1] then 0 else 1
  }

  lemma {:induction false} FreeAfter(used: seq<bool>, f: nat)
    requires f < |used| && !used[f]
    ensures FreeFrames(used[f := true]) + 1 == FreeFrames(used)
  {
    var n := |used| - 1;
    if f == n {
      assert used[f := true][..n] == used[..n];
    } else {
      FreeAfter(used[..n], f);
      assert used[f := true][..n] == used[..n][f := true];
    }
  }

  lemma {:induction false} NoneFree(used: seq<bool>)
    requires forall k :: 0 <= k < |used| ==> used[k]
    ensures FreeFrames(used) == 0
  {
    if used != [] {
      NoneFree(used[..|used| - 1]);
    }
  }

  lemma SomeFree(used: seq<bool>)
    requires |used| == FRAMES && FreeFrames(used) > 0
    ensures LeastUnused(used, 0) < FRAMES
  {
    if LeastUnused(used, 0) == FRAMES {
      forall k | 0 <= k < FRAMES
        ensures used[k]
      {
        LeastUnusedIsLeast(used, 0, k);
      }
      NoneFree(used);
    }
  }

  /** Which regions of a directory have tables. */
  function Tabled(dir: Dir): (t: set<nat>) {
    set i: nat | i < 1024 && HasTable(dir[i])
  }

  /** One for a page whose region has no table. */
  function TableCost(tabled: set<nat>, p: nat): nat { if p / 1024 in tabled then 0 else 1 }

  /** The frames that pages p up to end take, tables included. */
  function NeedFrames(tabled: set<nat>, p: nat, end: nat): nat
    decreases end - p
  {
    if p >= end then 0 else 1 + TableCost(tabled, p) + NeedFrames(tabled + {p / 1024}, p + 1, end)
  }

  predicate EnoughFrames(s: Space, p: nat, end: nat) {
    FreeFrames(s.ram.used) >= NeedFrames(Tabled(s.dir), p, end)
  }

  /** The first address of page p. */
  function AddrOf(p: nat): u32
    requires p < 0x10_0000
  {
    p * PAGE
  }

  lemma AddrOfPage(p: nat)
    requires p < 0x10_0000
    ensures RegionOf(AddrOf(p)) == p / 1024 && AddrOf(p) / PAGE == p
  {
  }

  /** Getting a table when a frame is free. */
  lemma TableGot(s: Space, p: nat)
    requires SpaceOk(s) && p < 0x10_0000 && FreeFrames(s.ram.used) >= TableCost(Tabled(s.dir), p)
    ensures var t := WithTable(s, AddrOf(p));
      && Tabled(t.dir) == Tabled(s.dir) + {p / 1024}
      && FreeFrames(t.ram.used) + TableCost(Tabled(s.dir), p) == FreeFrames(s.ram.used)
      && forall g :: 0 <= g < FRAMES && s.ram.used[g] ==> t.ram.used[g] && t.ram.pool[g] == s.ram.pool[g]
  {
    AddrOfPage(p);
    if !HasTable(s.dir[p / 1024]) {
      SomeFree(s.ram.used);
      FreeAfter(s.ram.used, LeastUnused(s.ram.used, 0));
    }
  }

  /** A page of data taken before stays as it is. */
  predicate DataKept(s: Ram, t: Ram)
    requires RamOk(s) && RamOk(t)
  {
    forall g :: 0 <= g < FRAMES && s.used[g] && s.pool[g].Data? ==> t.used[g] && t.pool[g] == s.pool[g]
  }

  lemma MapGot(s: Space, p: nat, pa: u32)
    requires SpaceOk(s) && p < 0x10_0000 && FreeFrames(s.ram.used) >= TableCost(Tabled(s.dir), p)
    ensures var t := Mapped(s, AddrOf(p), pa, PRESENT_WRITABLE_USER);
      && Tabled(t.dir) == Tabled(s.dir) + {p / 1024}
      && FreeFrames(t.ram.used) + TableCost(Tabled(s.dir), p) == FreeFrames(s.ram.used)
      && DataKept(s.ram, t.ram) && UsedKept(s.ram, t.ram) && HasTable(WithTable(s, AddrOf(p)).dir[p / 1024])
  {
    AddrOfPage(p);
    TableGot(s, p);
    WithTableOk(s, AddrOf(p));
    var w := WithTable(s, AddrOf(p));
    assert p / 1024 in Tabled(w.dir);
    assert EntryOk(w.ram, w.dir[p / 1024]);
  }

  predicate UsedKept(s: Ram, t: Ram)
    requires RamOk(s) && RamOk(t)
  {
    forall g :: 0 <= g < FRAMES && s.used[g] ==> t.used[g]
  }

  /** The space once the page's data is in frame f. */
  function WithData(s: Space, f: nat, image: seq<byte>, base: nat, p: nat): (w: Space)
    requires RamOk(s.ram) && f < FRAMES && base <= p < 0x10_0000
    ensures RamOk(w.ram)
  {
    s.(ram := FrameTaken(s.ram, f, Data(PageOf(image, (p - base) * PAGE))))
  }

  lemma DataPut(s: Space, image: seq<byte>, base: nat, p: nat)
    requires SpaceOk(s) && base <= p < 0x10_0000 && FreeFrames(s.ram.used) > 0
    ensures var f := LeastUnused(s.ram.used, 0);
      f < FRAMES &&
      var w := WithData(s, f, image, base, p);
      && SpaceOk(w) && Tabled(w.dir) == Tabled(s.dir) && FreeFrames(w.ram.used) + 1 == FreeFrames(s.ram.used)
      && DataKept(s.ram, w.ram) && UsedKept(s.ram, w.ram)
      && w.ram.used[f] && w.ram.pool[f] == Data(PageOf(image, (p - base) * PAGE))
  {
    SomeFree(s.ram.used);
    var f := LeastUnused(s.ram.used, 0);
    FreeAfter(s.ram.used, f);
    TakenKeepsDir(s, f, Data(PageOf(image, (p - base) * PAGE)));
  }

  /** Putting a page in and mapping it are what a round does. */
  lemma RoundIs(s: Space, image: seq<byte>, base: nat, p: nat)
    requires SpaceOk(s) && base <= p < 0x10_0000 && LeastUnused(s.ram.used, 0) < FRAMES
    requires SpaceOk(WithData(s, LeastUnused(s.ram.used, 0), image, base, p))
    ensures var f := LeastUnused(s.ram.used, 0);
      PageLoaded(s, image, AddrOf(base), AddrOf(p)) ==
        Mapped(WithData(s, f, image, base, p), AddrOf(p), FrameAddr(f), PRESENT_WRITABLE_USER)
  {
    assert AddrOf(p) - AddrOf(base) == (p - base) * PAGE;
  }

  lemma KeptOn(s: Ram, w: Ram, t: Ram)
    requires RamOk(s) && RamOk(w) && RamOk(t)
    requires DataKept(s, w) && UsedKept(s, w) && DataKept(w, t) && UsedKept(w, t)
    ensures DataKept(s, t) && UsedKept(s, t)
  {
  }

  /** One round: the frame of data put in and, where one was missing, the table. */
  lemma PageGot(s: Space, image: seq<byte>, base: nat, p: nat)
    requires SpaceOk(s) && base <= p < 0x10_0000 && FreeFrames(s.ram.used) >= 1 + TableCost(Tabled(s.dir), p)
    ensures var t := PageLoaded(s, image, AddrOf(base), AddrOf(p));
      && SpaceOk(t)
      && Tabled(t.dir) == Tabled(s.dir) + {p / 1024}
      && FreeFrames(t.ram.used) + 1 + TableCost(Tabled(s.dir), p) == FreeFrames(s.ram.used)
      && DataKept(s.ram, t.ram) && UsedKept(s.ram, t.ram)
  {
    DataPut(s, image, base, p);
    var f := LeastUnused(s.ram.used, 0);
    var w := WithData(s, f, image, base, p);
    RoundIs(s, image, base, p);
    MapGot(w, p, FrameAddr(f));
    MappedOk(w, AddrOf(p), FrameAddr(f));
    KeptOn(s.ram, w.ram, Mapped(w, AddrOf(p), FrameAddr(f), PRESENT_WRITABLE_USER).ram);
  }

  lemma MappedOk(w: Space, va: u32, pa: u32)
    requires SpaceOk(w)
    ensures SpaceOk(Mapped(w, va, pa, PRESENT_WRITABLE_USER))
  {
    MapChangesOnePage(w, va, pa, PRESENT_WRITABLE_USER, 0);
  }

  /** The frame a page was put in. */
  lemma PagePut(s: Space, image: seq<byte>, base: nat, p: nat)
    requires SpaceOk(s) && base <= p < 0x10_0000 && FreeFrames(s.ram.used) >= 1 + TableCost(Tabled(s.dir), p)
    ensures var t, f := PageLoaded(s, image, AddrOf(base), AddrOf(p)), LeastUnused(s.ram.used, 0);
      f < FRAMES && !s.ram.used[f] && t.ram.used[f] && t.ram.pool[f] == Data(PageOf(image, (p - base) * PAGE))
  {
    DataPut(s, image, base, p);
    var f := LeastUnused(s.ram.used, 0);
    RoundIs(s, image, base, p);
    MapGot(WithData(s, f, image, base, p), p, FrameAddr(f));
  }

  predicate SameAt(s: Space, t: Space, a: u32)
    requires RamOk(s.ram) && RamOk(t.ram)
  {
    EntryOk(s.ram, s.dir[RegionOf(a)]) && EntryOk(t.ram, t.dir[RegionOf(a)]) && Phys(t.ram, t.dir, a) == Phys(s.ram, s.dir, a)
  }

  lemma FrameOfOwn(f: nat)
    requires f < FRAMES
    ensures Paging.Base(FrameAddr(f)) == FrameAddr(f)
  {
    EntryBits(0x1000 + f);
  }

  lemma DataAt(s: Space, image: seq<byte>, base: nat, p: nat, a: u32)
    requires SpaceOk(s) && base <= p < 0x10_0000 && LeastUnused(s.ram.used, 0) < FRAMES
    ensures SameAt(s, WithData(s, LeastUnused(s.ram.used, 0), image, base, p), a)
  {
    TakenKeepsDir(s, LeastUnused(s.ram.used, 0), Data(PageOf(image, (p - base) * PAGE)));
  }

  lemma MappedAt(w: Space, p: nat, f: nat, a: u32)
    requires SpaceOk(w) && p < 0x10_0000 && f < FRAMES && FreeFrames(w.ram.used) >= TableCost(Tabled(w.dir), p)
    ensures var t := Mapped(w, AddrOf(p), FrameAddr(f), PRESENT_WRITABLE_USER);
      && (a / PAGE != p ==> SameAt(w, t, a))
      && (a / PAGE == p ==> EntryOk(t.ram, t.dir[RegionOf(a)]) && Phys(t.ram, t.dir, a) == FrameAddr(f) + a % PAGE)
  {
    AddrOfPage(p);
    FrameOfOwn(f);
    MapGot(w, p, FrameAddr(f));
    assert EntryOk(w.ram, w.dir[RegionOf(a)]);
    MapChangesOnePage(w, AddrOf(p), FrameAddr(f), PRESENT_WRITABLE_USER, a);
  }

  lemma SameOn(s: Space, w: Space, t: Space, a: u32)
    requires RamOk(s.ram) && RamOk(w.ram) && RamOk(t.ram) && SameAt(s, w, a) && SameAt(w, t, a)
    ensures SameAt(s, t, a)
  {
  }

  lemma PageAt(s: Space, image: seq<byte>, base: nat, p: nat, a: u32)
    requires SpaceOk(s) && base <= p < 0x10_0000 && FreeFrames(s.ram.used) >= 1 + TableCost(Tabled(s.dir), p)
    ensures var t, f := PageLoaded(s, image, AddrOf(base), AddrOf(p)), LeastUnused(s.ram.used, 0);
      && f < FRAMES
      && (a / PAGE != p ==> SameAt(s, t, a))
      && (a / PAGE == p ==> EntryOk(t.ram, t.dir[RegionOf(a)]) && Phys(t.ram, t.dir, a) == FrameAddr(f) + a % PAGE)
  {
    DataPut(s, image, base, p);
    var f := LeastUnused(s.ram.used, 0);
    var w := WithData(s, f, image, base, p);
    RoundIs(s, image, base, p);
    DataAt(s, image, base, p, a);
    MappedAt(w, p, f, a);
    if a / PAGE != p {
      SameOn(s, w, Mapped(w, AddrOf(p), FrameAddr(f), PRESENT_WRITABLE_USER), a);
    }
  }

  // ---- the loaded image ----

  /** From s to t frames stay taken, data stays in place, and address a stays where it is. */
  predicate Keeps(s: Space, t: Space, a: u32)
    requires RamOk(s.ram) && RamOk(t.ram)
  {
    DataKept(s.ram, t.ram) && UsedKept(s.ram, t.ram) && SameAt(s, t, a)
  }

  lemma KeepsBoth(s: Space, t: Space, u: Space, a: u32)
    requires RamOk(s.ram) && RamOk(t.ram) && RamOk(u.ram) && Keeps(s, t, a) && Keeps(t, u, a)
    ensures Keeps(s, u, a)
  {
  }

  /** Address a, of page p or later, is in frame f, which holds its page of the image. */
  predicate HeldIn(t: Space, image: seq<byte>, base: nat, a: u32, f: nat)
    requires RamOk(t.ram)
  {
    && f < FRAMES && t.ram.used[f] && EntryOk(t.ram, t.dir[RegionOf(a)])
    && Phys(t.ram, t.dir, a) == FrameAddr(f) + a % PAGE
    && a / PAGE >= base && t.ram.pool[f] == Data(PageOf(image, (a / PAGE - base) * PAGE))
  }

  /** The pages p up to end of a program whose lowest page is base, loaded one after the other. */
  ghost function Pages(s: Space, image: seq<byte>, base: nat, p: nat, end: nat): (t: Space)
    requires SpaceOk(s) && base <= p && end <= 0x10_0000
    ensures RamOk(t.ram)
    decreases end - p
  {
    if p >= end then s
    else
      PageLoadedOk(s, image, AddrOf(base), AddrOf(p));
      Pages(PageLoaded(s, image, AddrOf(base), AddrOf(p)), image, base, p + 1, end)
  }

  /** On a page boundary the loop's rounds are the pages. */
  lemma {:induction false} LoadedIsPages(s: Space, image: seq<byte>, base: nat, k: nat, n: nat)
    requires SpaceOk(s) && base + n <= 0x10_0000 && k <= n && base < 0x10_0000
    ensures Loaded(s, image, AddrOf(base), k, n) == Pages(s, image, base, base + k, base + n)
    decreases n - k
  {
    if k < n {
      var t := PageLoaded(s, image, AddrOf(base), AddrOf(base + k));
      PageLoadedOk(s, image, AddrOf(base), AddrOf(base + k));
      RestIsPages(s, t, image, base, k, n);
    }
  }

  lemma {:induction false} RestIsPages(s: Space, t: Space, image: seq<byte>, base: nat, k: nat, n: nat)
    requires SpaceOk(s) && SpaceOk(t) && base + n <= 0x10_0000 && k < n && t == PageLoaded(s, image, AddrOf(base), AddrOf(base + k))
    ensures Loaded(s, image, AddrOf(base), k, n) == Pages(s, image, base, base + k, base + n)
    decreases n - k, 0
  {
    LoadedIsPages(t, image, base, k + 1, n);
    OneRound(s, t, image, base, k, n);
  }

  lemma OneRound(s: Space, t: Space, image: seq<byte>, base: nat, k: nat, n: nat)
    requires SpaceOk(s) && SpaceOk(t) && base + n <= 0x10_0000 && k < n
    requires t == PageLoaded(s, image, AddrOf(base), AddrOf(base + k))
    ensures Loaded(s, image, AddrOf(base), k, n) == Loaded(t, image, AddrOf(base), k + 1, n)
    ensures Pages(s, image, base, base + k, base + n) == Pages(t, image, base, base + k + 1, base + n)
  {
    LoadedRound(s, t, image, AddrOf(base), AddrOf(base + k), k, n);
    PagesRound(s, t, image, base, base + k, base + n);
  }

  lemma LoadedRound(s: Space, t: Space, image: seq<byte>, min: u32, va: u32, k: nat, n: nat)
    requires SpaceOk(s) && SpaceOk(t) && va == min + k * PAGE && k < n && min + n * PAGE <= 0x1_0000_0000
    requires t == PageLoaded(s, image, min, va)
    ensures Loaded(s, image, min, k, n) == Loaded(t, image, min, k + 1, n)
  {
  }

  lemma PagesRound(s: Space, t: Space, image: seq<byte>, base: nat, p: nat, end: nat)
    requires SpaceOk(s) && SpaceOk(t) && base <= p < end <= 0x10_0000
    requires t == PageLoaded(s, image, AddrOf(base), AddrOf(p))
    ensures Pages(s, image, base, p, end) == Pages(t, image, base, p + 1, end)
  {
  }

  /** One round of the loading loop. */
  lemma Round(s: Space, image: seq<byte>, base: nat, p: nat, end: nat)
    requires SpaceOk(s) && base <= p < end <= 0x10_0000 && EnoughFrames(s, p, end)
    ensures var t := PageLoaded(s, image, AddrOf(base), AddrOf(p));
      SpaceOk(t) && EnoughFrames(t, p + 1, end)
  {
    PageGot(s, image, base, p);
  }

  /** What a round does with other pages. */
  lemma RoundKeeps(s: Space, image: seq<byte>, base: nat, p: nat, end: nat, a: u32)
    requires SpaceOk(s) && base <= p < end <= 0x10_0000 && EnoughFrames(s, p, end) && a / PAGE != p
    ensures Keeps(s, PageLoaded(s, image, AddrOf(base), AddrOf(p)), a)
  {
    PageGot(s, image, base, p);
    PageAt(s, image, base, p, a);
  }

  /** What a round does with its own page. */
  lemma RoundHolds(s: Space, image: seq<byte>, base: nat, p: nat, end: nat, a: u32)
    requires SpaceOk(s) && base <= p < end <= 0x10_0000 && EnoughFrames(s, p, end) && a / PAGE == p
    ensures var t, f := PageLoaded(s, image, AddrOf(base), AddrOf(p)), LeastUnused(s.ram.used, 0);
      f < FRAMES && !s.ram.used[f] && HeldIn(t, image, base, a, f)
  {
    PagePut(s, image, base, p);
    PageAt(s, image, base, p, a);
    HeldWhen(PageLoaded(s, image, AddrOf(base), AddrOf(p)), image, base, p, a, LeastUnused(s.ram.used, 0));
  }

  lemma HeldWhen(t: Space, image: seq<byte>, base: nat, p: nat, a: u32, f: nat)
    requires RamOk(t.ram) && f < FRAMES && base <= p && a / PAGE == p
    requires t.ram.used[f] && t.ram.pool[f] == Data(PageOf(image, (p - base) * PAGE))
    requires EntryOk(t.ram, t.dir[RegionOf(a)]) && Phys(t.ram, t.dir, a) == FrameAddr(f) + a % PAGE
    ensures HeldIn(t, image, base, a, f)
  {
  }

  /** Loading pages p and up leaves other pages and frames of data alone. */
  lemma {:induction false} LoadKeeps(s: Space, image: seq<byte>, base: nat, p: nat, end: nat, a: u32)
    requires SpaceOk(s) && base <= p && end <= 0x10_0000 && EnoughFrames(s, p, end)
    requires a / PAGE < p || a / PAGE >= end
    ensures Keeps(s, Pages(s, image, base, p, end), a)
    decreases end - p
  {
    if p < end {
      var t := PageLoaded(s, image, AddrOf(base), AddrOf(p));
      Round(s, image, base, p, end);
      RoundKeeps(s, image, base, p, end, a);
      RestKeeps(s, t, image, base, p, end, a);
    } else {
      assert EntryOk(s.ram, s.dir[RegionOf(a)]);
    }
  }

  lemma {:induction false} RestKeeps(s: Space, t: Space, image: seq<byte>, base: nat, p: nat, end: nat, a: u32)
    requires SpaceOk(s) && base <= p < end <= 0x10_0000 && (a / PAGE < p || a / PAGE >= end)
    requires t == PageLoaded(s, image, AddrOf(base), AddrOf(p)) && SpaceOk(t) && EnoughFrames(t, p + 1, end) && Keeps(s, t, a)
    ensures Keeps(s, Pages(s, image, base, p, end), a)
    decreases end - p, 0
  {
    LoadKeeps(t, image, base, p + 1, end, a);
    KeepsBoth(s, t, Pages(t, image, base, p + 1, end), a);
  }

  lemma StillHeld(t: Space, image: seq<byte>, base: nat, p: nat, end: nat, a: u32, f: nat)
    requires SpaceOk(t) && base <= p && end <= 0x10_0000 && EnoughFrames(t, p, end)
    requires a / PAGE < p && HeldIn(t, image, base, a, f)
    ensures HeldIn(Pages(t, image, base, p, end), image, base, a, f)
  {
    LoadKeeps(t, image, base, p, end, a);
  }

  /** The first page is held by the first free frame. */
  lemma FirstHeld(s: Space, image: seq<byte>, base: nat, p: nat, end: nat, a: u32)
    requires SpaceOk(s) && base <= p < end <= 0x10_0000 && EnoughFrames(s, p, end) && a / PAGE == p
    ensures LeastUnused(s.ram.used, 0) < FRAMES
    ensures HeldIn(Pages(s, image, base, p, end), image, base, a, LeastUnused(s.ram.used, 0))
  {
    Round(s, image, base, p, end);
    RoundHolds(s, image, base, p, end, a);
    FirstStays(s, PageLoaded(s, image, AddrOf(base), AddrOf(p)), image, base, p, end, a, LeastUnused(s.ram.used, 0));
  }

  lemma FirstStays(s: Space, t: Space, image: seq<byte>, base: nat, p: nat, end: nat, a: u32, f: nat)
    requires SpaceOk(s) && base <= p < end <= 0x10_0000 && a / PAGE == p
    requires t == PageLoaded(s, image, AddrOf(base), AddrOf(p)) && SpaceOk(t) && EnoughFrames(t, p + 1, end)
    requires HeldIn(t, image, base, a, f)
    ensures HeldIn(Pages(s, image, base, p, end), image, base, a, f)
  {
    StillHeld(t, image, base, p + 1, end, a, f);
  }

  lemma UsedStays(s: Space, image: seq<byte>, base: nat, p: nat, end: nat, f: nat)
    requires SpaceOk(s) && base <= p < end <= 0x10_0000 && EnoughFrames(s, p, end) && f < FRAMES
    ensures var t := PageLoaded(s, image, AddrOf(base), AddrOf(p));
      !t.ram.used[f] ==> !s.ram.used[f] && f != LeastUnused(s.ram.used, 0)
    ensures LeastUnused(s.ram.used, 0) < FRAMES
  {
    PageGot(s, image, base, p);
    PagePut(s, image, base, p);
  }

  ghost predicate HeldInNew(s: Space, t: Space, image: seq<byte>, base: nat, a: u32)
    requires RamOk(s.ram) && RamOk(t.ram)
  {
    exists f: nat :: HeldIn(t, image, base, a, f) && !s.ram.used[f]
  }

  /** Every page ends up in a frame that was free, holding its part of the image. */
  lemma {:induction false} LoadHolds(s: Space, image: seq<byte>, base: nat, p: nat, end: nat, a: u32)
    requires SpaceOk(s) && base <= p <= a / PAGE < end <= 0x10_0000 && EnoughFrames(s, p, end)
    ensures HeldInNew(s, Pages(s, image, base, p, end), image, base, a)
    decreases end - p
  {
    if a / PAGE == p {
      FirstHeld(s, image, base, p, end, a);
    } else {
      var t := PageLoaded(s, image, AddrOf(base), AddrOf(p));
      Round(s, image, base, p, end);
      LoadHolds(t, image, base, p + 1, end, a);
      var f: nat :| HeldIn(Pages(t, image, base, p + 1, end), image, base, a, f) && !t.ram.used[f];
      UsedStays(s, image, base, p, end, f);
    }
  }

  /** Two pages never share a frame. */
  lemma {:induction false} LoadDistinct(s: Space, image: seq<byte>, base: nat, p: nat, end: nat, a: u32, b: u32, f: nat, g: nat)
    requires SpaceOk(s) && base <= p <= a / PAGE < b / PAGE < end <= 0x10_0000 && EnoughFrames(s, p, end)
    requires var t := Pages(s, image, base, p, end); HeldIn(t, image, base, a, f) && HeldIn(t, image, base, b, g)
    ensures f != g
    decreases end - p
  {
    var t := PageLoaded(s, image, AddrOf(base), AddrOf(p));
    Round(s, image, base, p, end);
    if a / PAGE == p {
      FirstHeld(s, image, base, p, end, a);
      SameFrame(a, f, LeastUnused(s.ram.used, 0));
      LaterElsewhere(s, t, image, base, p, end, b, g);
    } else {
      DistinctBelow(s, t, image, base, p, end, a, b, f, g);
    }
  }

  lemma {:induction false} DistinctBelow(s: Space, t: Space, image: seq<byte>, base: nat, p: nat, end: nat, a: u32, b: u32, f: nat, g: nat)
    requires SpaceOk(s) && base <= p < a / PAGE < b / PAGE < end <= 0x10_0000
    requires t == PageLoaded(s, image, AddrOf(base), AddrOf(p)) && SpaceOk(t) && EnoughFrames(t, p + 1, end)
    requires var u := Pages(s, image, base, p, end); HeldIn(u, image, base, a, f) && HeldIn(u, image, base, b, g)
    ensures f != g
    decreases end - p, 0
  {
    LoadDistinct(t, image, base, p + 1, end, a, b, f, g);
  }

  /** A later page is in another frame than the first. */
  lemma LaterElsewhere(s: Space, t: Space, image: seq<byte>, base: nat, p: nat, end: nat, b: u32, g: nat)
    requires SpaceOk(s) && base <= p < b / PAGE < end <= 0x10_0000 && EnoughFrames(s, p, end)
    requires t == PageLoaded(s, image, AddrOf(base), AddrOf(p)) && SpaceOk(t) && EnoughFrames(t, p + 1, end)
    requires HeldIn(Pages(t, image, base, p + 1, end), image, base, b, g)
    ensures g != LeastUnused(s.ram.used, 0)
  {
    LoadHolds(t, image, base, p + 1, end, b);
    PagePut(s, image, base, p);
    NewElsewhere(t, Pages(t, image, base, p + 1, end), image, base, b, g, LeastUnused(s.ram.used, 0));
  }

  lemma NewElsewhere(t: Space, u: Space, image: seq<byte>, base: nat, b: u32, g: nat, f: nat)
    requires RamOk(t.ram) && RamOk(u.ram) && HeldInNew(t, u, image, base, b) && HeldIn(u, image, base, b, g)
    requires f < FRAMES && t.ram.used[f]
    ensures g != f
  {
    var h: nat :| HeldIn(u, image, base, b, h) && !t.ram.used[h];
    SameFrame(b, g, h);
  }

  lemma SameFrame(a: u32, f: nat, g: nat)
    requires f < FRAMES && g < FRAMES && FrameAddr(f) + a % PAGE == FrameAddr(g) + a % PAGE
    ensures f == g
  {
  }

  /** The byte at address a, read through the directory. */
  function ByteAt(t: Space, a: u32): Option<byte>
    requires RamOk(t.ram) && EntryOk(t.ram, t.dir[RegionOf(a)])
  {
    var p := Phys(t.ram, t.dir, a);
    if POOL <= p < POOL + FRAMES * PAGE && t.ram.pool[(p - POOL) / PAGE].Data? && |t.ram.pool[(p - POOL) / PAGE].bytes| == PAGE
    then Some(t.ram.pool[(p - POOL) / PAGE].bytes[p % PAGE]) else None
  }

  lemma ByteOfPage(t: Space, image: seq<byte>, base: nat, a: u32, f: nat)
    requires RamOk(t.ram) && HeldIn(t, image, base, a, f)
    ensures var k := a - base * PAGE; k >= 0 && ByteAt(t, a) == Some(if k < |image| then image[k] else 0)
  {
    FrameByte(f, a % PAGE);
    assert (a / PAGE - base) * PAGE + a % PAGE == a - base * PAGE;
  }

  lemma FrameByte(f: nat, r: nat)
    requires f < FRAMES && r < PAGE
    ensures var p := FrameAddr(f) + r; POOL <= p < POOL + FRAMES * PAGE && (p - POOL) / PAGE == f && p % PAGE == r
  {
  }

  /** The end of the program's memory, rounded up to a page: the process's first break. */
  function Brk(ss: seq<Segment>): (b: u32)
    requires SegmentsOk(ss)
    ensures b % PAGE == 0 && Highest(ss) <= b < Highest(ss) + PAGE && b <= 0xFFFF_F000
  {
    (Highest(ss) + PAGE - 1) / PAGE * PAGE
  }

  /** How many rounds the loop from the lowest address takes. */
  function Rounds(min: nat, brk: nat): nat {
    if min >= brk then 0 else (brk - min + PAGE - 1) / PAGE
  }

  lemma RoundsFit(min: nat, brk: nat)
    requires min < 0x1_0000_0000 && brk <= 0xFFFF_F000
    ensures min + Rounds(min, brk) * PAGE <= 0x1_0000_0000
    ensures min % PAGE == 0 && brk % PAGE == 0 && min <= brk ==> Rounds(min, brk) == brk / PAGE - min / PAGE
  {
  }

  /** The address space once the program is loaded. */
  ghost function Program(s: Space, content: seq<byte>, ss: seq<Segment>): (t: Space)
    requires SpaceOk(s) && SegmentsOk(ss) && ss != []
    ensures RamOk(t.ram)
  {
    RoundsFit(Lowest(ss), Brk(ss));
    Loaded(s, Buffer(content, ss), Lowest(ss), 0, Rounds(Lowest(ss), Brk(ss)))
  }

  /** A program whose lowest segment starts on a page boundary, with frames enough for it. */
  ghost predicate Fits(s: Space, ss: seq<Segment>)
    requires SegmentsOk(ss)
  {
    SpaceOk(s) && ss != [] && Lowest(ss) % PAGE == 0 && EnoughFrames(s, Lowest(ss) / PAGE, Brk(ss) / PAGE)
  }

  /** The buffer's bytes behind the lowest address. */
  function Buffer(content: seq<byte>, ss: seq<Segment>): (image: seq<byte>)
    requires SegmentsOk(ss) && ss != []
    ensures Lowest(ss) <= Highest(ss) && |image| == Highest(ss) - Lowest(ss)
  {
    assert Lowest(ss) <= ss[0].vaddr;
    Image(content, ss, Lowest(ss), Highest(ss) - Lowest(ss))
  }

  lemma ProgramIsPages(s: Space, content: seq<byte>, ss: seq<Segment>)
    requires SegmentsOk(ss) && Fits(s, ss)
    ensures Lowest(ss) / PAGE <= Brk(ss) / PAGE <= 0x10_0000
    ensures Program(s, content, ss) == Pages(s, Buffer(content, ss), Lowest(ss) / PAGE, Lowest(ss) / PAGE, Brk(ss) / PAGE)
  {
    var image, min, brk := Buffer(content, ss), Lowest(ss), Brk(ss);
    RoundsFit(min, brk);
    RoundsArePages(s, image, min, brk);
  }

  lemma RoundsArePages(s: Space, image: seq<byte>, min: u32, brk: u32)
    requires SpaceOk(s) && min % PAGE == 0 && brk % PAGE == 0 && min <= brk <= 0xFFFF_F000
    requires min + Rounds(min, brk) * PAGE <= 0x1_0000_0000 && Rounds(min, brk) == brk / PAGE - min / PAGE
    ensures Loaded(s, image, min, 0, Rounds(min, brk)) == Pages(s, image, min / PAGE, min / PAGE, brk / PAGE)
  {
    assert AddrOf(min / PAGE) == min;
    LoadedIsPages(s, image, min / PAGE, 0, Rounds(min, brk));
  }

  /** The loaded program: with its lowest segment on a page boundary and frames enough, every
      address from there to the page-rounded top reads as the file byte of the last segment
      that has one for it, else zero; no address outside has moved. */
  lemma ImageIsLoaded(s: Space, content: seq<byte>, ss: seq<Segment>, a: u32)
    requires SegmentsOk(ss) && Fits(s, ss)
    ensures var t := Program(s, content, ss);
      if Lowest(ss) <= a < Brk(ss)
      then EntryOk(t.ram, t.dir[RegionOf(a)]) && ByteAt(t, a) == Some(ByteDue(content, ss, a))
      else SameAt(s, t, a)
  {
    ProgramIsPages(s, content, ss);
    ImageAt(s, Buffer(content, ss), content, ss, Program(s, content, ss), a, Lowest(ss) / PAGE, Brk(ss) / PAGE);
  }

  lemma ImageAt(s: Space, image: seq<byte>, content: seq<byte>, ss: seq<Segment>, t: Space, a: u32, base: nat, end: nat)
    requires SegmentsOk(ss) && ss != [] && image == Buffer(content, ss)
    requires Lowest(ss) == base * PAGE && Brk(ss) == end * PAGE
    requires SpaceOk(s) && base <= end <= 0x10_0000 && EnoughFrames(s, base, end) && t == Pages(s, image, base, base, end)
    ensures if Lowest(ss) <= a < Brk(ss)
      then EntryOk(t.ram, t.dir[RegionOf(a)]) && ByteAt(t, a) == Some(ByteDue(content, ss, a))
      else SameAt(s, t, a)
  {
    PagesHold(s, image, base, end, a);
    if Lowest(ss) <= a < Brk(ss) {
      DueHeld(t, image, content, ss, a, base);
    }
  }

  lemma DueHeld(t: Space, image: seq<byte>, content: seq<byte>, ss: seq<Segment>, a: u32, base: nat)
    requires SegmentsOk(ss) && ss != [] && image == Buffer(content, ss) && Lowest(ss) == base * PAGE <= a
    requires RamOk(t.ram) && EntryOk(t.ram, t.dir[RegionOf(a)])
    requires ByteAt(t, a) == Some(if a - base * PAGE < |image| then image[a - base * PAGE] else 0)
    ensures ByteAt(t, a) == Some(ByteDue(content, ss, a))
  {
    BufferDue(content, ss, a);
  }

  lemma BufferDue(content: seq<byte>, ss: seq<Segment>, a: nat)
    requires SegmentsOk(ss) && ss != [] && a >= Lowest(ss)
    ensures var k := a - Lowest(ss);
      ByteDue(content, ss, a) == if k < |Buffer(content, ss)| then Buffer(content, ss)[k] else 0
  {
    ImageDue(content, ss, Lowest(ss), Highest(ss) - Lowest(ss), a);
  }

  lemma PagesHold(s: Space, image: seq<byte>, base: nat, end: nat, a: u32)
    requires SpaceOk(s) && base <= end <= 0x10_0000 && EnoughFrames(s, base, end)
    ensures var t := Pages(s, image, base, base, end);
      if base * PAGE <= a < end * PAGE
      then EntryOk(t.ram, t.dir[RegionOf(a)]) && ByteAt(t, a) == Some(if a - base * PAGE < |image| then image[a - base * PAGE] else 0)
      else SameAt(s, t, a)
  {
    if base * PAGE <= a < end * PAGE {
      LoadHolds(s, image, base, base, end, a);
      var f: nat :| HeldIn(Pages(s, image, base, base, end), image, base, a, f) && !s.ram.used[f];
      ByteOfPage(Pages(s, image, base, base, end), image, base, a, f);
    } else {
      LoadKeeps(s, image, base, base, end, a);
    }
  }

  /** With every frame free, as after boot, and a new directory there are frames enough for any program
      of at most 4096 pages. */
  lemma BootHasFrames(ram: Ram, ss: seq<Segment>)
    requires RamOk(ram) && (forall f :: 0 <= f < 8192 ==> !ram.used[f])
    requires SegmentsOk(ss) && ss != [] && Lowest(ss) % 0x1000 == 0 && Brk(ss) - Lowest(ss) <= 4096 * 0x1000
    ensures Fits(Space(ram, KernelDir()), ss)
  {
    AllFree(ram.used);
    NeedAtMost(Tabled(KernelDir()), Lowest(ss) / PAGE, Brk(ss) / PAGE);
    assert forall i :: 0 <= i < 1024 ==> EntryOk(ram, KernelDir()[i]);
  }

  lemma {:induction false} AllFree(used: seq<bool>)
    requires forall k :: 0 <= k < |used| ==> !used[k]
    ensures FreeFrames(used) == |used|
  {
    if used != [] {
      AllFree(used[..|used| - 1]);
    }
  }

  lemma {:induction false} NeedAtMost(tabled: set<nat>, p: nat, end: nat)
    ensures NeedFrames(tabled, p, end) <= if p < end then 2 * (end - p) else 0
    decreases end - p
  {
    if p < end {
      NeedAtMost(tabled + {p / 1024}, p + 1, end);
    }
  }

  // ---- what the program may do with its pages ----

  /** Address a is in a table, and its word there is that of a page open to user mode for writing. */
  predicate Granted(t: Space, a: u32)
    requires RamOk(t.ram)
  {
    var e := t.dir[RegionOf(a)];
    EntryOk(t.ram, e) && HasTable(e) && Pte(t.ram, e, a) % 0x1000 == 7
  }

  lemma TableStays(s: Space, va: u32, a: u32)
    requires SpaceOk(s) && Granted(s, a)
    ensures Granted(WithTable(s, va), a) && WithTable(s, va).dir[RegionOf(a)] == s.dir[RegionOf(a)]
  {
    WithTableOk(s, va);
  }

  lemma MappedGrants(w: Space, p: nat, f: nat, a: u32)
    requires SpaceOk(w) && p < 0x10_0000 && f < FRAMES && FreeFrames(w.ram.used) >= TableCost(Tabled(w.dir), p)
    requires a / PAGE == p || Granted(w, a)
    ensures Granted(Mapped(w, AddrOf(p), FrameAddr(f), PRESENT_WRITABLE_USER), a)
  {
    AddrOfPage(p);
    MapGot(w, p, FrameAddr(f));
    if a / PAGE == p {
      SamePage(a, AddrOf(p));
      MappingWrites(w, AddrOf(p), FrameAddr(f), 7);
      FrameOfOwn(f);
    } else {
      TableStays(w, AddrOf(p), a);
      OtherGranted(w, AddrOf(p), FrameAddr(f), a);
    }
  }

  lemma OtherGranted(w: Space, va: u32, pa: u32, a: u32)
    requires SpaceOk(w) && Granted(WithTable(w, va), a) && a / PAGE != va / PAGE
    ensures Granted(Mapped(w, va, pa, 7), a)
  {
    var v := WithTable(w, va);
    WithTableOk(w, va);
    WithTableDistinct(w, va);
    SamePage(a, va);
    MapChangesOnePage(w, va, pa, 7, a);
    if HasTable(v.dir[RegionOf(va)]) && RegionOf(a) != RegionOf(va) {
      var f := FrameOf(v.dir[RegionOf(va)]);
      assert Leads(v.dir[RegionOf(va)], f) && !Leads(v.dir[RegionOf(a)], f);
    }
  }

  lemma DataGrants(s: Space, image: seq<byte>, base: nat, p: nat, a: u32)
    requires SpaceOk(s) && base <= p < 0x10_0000 && LeastUnused(s.ram.used, 0) < FRAMES && Granted(s, a)
    ensures Granted(WithData(s, LeastUnused(s.ram.used, 0), image, base, p), a)
  {
    TakenKeepsDir(s, LeastUnused(s.ram.used, 0), Data(PageOf(image, (p - base) * PAGE)));
  }

  lemma RoundGrants(s: Space, image: seq<byte>, base: nat, p: nat, end: nat, a: u32)
    requires SpaceOk(s) && base <= p < end <= 0x10_0000 && EnoughFrames(s, p, end)
    requires a / PAGE == p || Granted(s, a)
    ensures Granted(PageLoaded(s, image, AddrOf(base), AddrOf(p)), a)
  {
    DataPut(s, image, base, p);
    var f := LeastUnused(s.ram.used, 0);
    RoundIs(s, image, base, p);
    if a / PAGE != p {
      DataGrants(s, image, base, p, a);
    }
    MappedGrants(WithData(s, f, image, base, p), p, f, a);
  }

  lemma {:induction false} LoadGrants(s: Space, image: seq<byte>, base: nat, p: nat, end: nat, a: u32)
    requires SpaceOk(s) && base <= p && end <= 0x10_0000 && EnoughFrames(s, p, end)
    requires p <= a / PAGE < end || Granted(s, a)
    ensures Granted(Pages(s, image, base, p, end), a)
    decreases end - p
  {
    if p < end {
      var t := PageLoaded(s, image, AddrOf(base), AddrOf(p));
      Round(s, image, base, p, end);
      if a / PAGE == p || Granted(s, a) {
        RoundGrants(s, image, base, p, end, a);
      }
      RestGrants(s, t, image, base, p, end, a);
    }
  }

  lemma {:induction false} RestGrants(s: Space, t: Space, image: seq<byte>, base: nat, p: nat, end: nat, a: u32)
    requires SpaceOk(s) && base <= p < end <= 0x10_0000 && t == PageLoaded(s, image, AddrOf(base), AddrOf(p)) && SpaceOk(t)
    requires EnoughFrames(t, p + 1, end) && (p + 1 <= a / PAGE < end || Granted(t, a))
    ensures Granted(Pages(s, image, base, p, end), a)
    decreases end - p, 0
  {
    LoadGrants(t, image, base, p + 1, end, a);
  }

  /** Every page of the loaded program is open to it for reading and writing. */
  lemma ProgramIsGranted(s: Space, content: seq<byte>, ss: seq<Segment>, a: u32)
    requires SegmentsOk(ss) && Fits(s, ss) && Lowest(ss) <= a < Brk(ss)
    ensures Granted(Program(s, content, ss), a)
  {
    ProgramIsPages(s, content, ss);
    LoadGrants(s, Buffer(content, ss), Lowest(ss) / PAGE, Lowest(ss) / PAGE, Brk(ss) / PAGE, a);
  }

  // ---- frames of its own ----

  /** No two pages of the program share a frame, and none is in a page table or in a frame taken before. */
  lemma FramesOfTheirOwn(s: Space, content: seq<byte>, ss: seq<Segment>, a: u32, b: u32)
    requires SegmentsOk(ss) && Fits(s, ss)
    requires Lowest(ss) <= a < Brk(ss) && Lowest(ss) <= b < Brk(ss) && a / PAGE < b / PAGE
    ensures var t := Program(s, content, ss);
      && EntryOk(t.ram, t.dir[RegionOf(a)]) && EntryOk(t.ram, t.dir[RegionOf(b)])
      && exists f: nat, g: nat :: OwnFrame(s, t, a, f) && OwnFrame(s, t, b, g) && f != g
  {
    ProgramIsPages(s, content, ss);
    PagesOfTheirOwn(s, Buffer(content, ss), Lowest(ss) / PAGE, Brk(ss) / PAGE, a, b);
  }

  lemma PagesOfTheirOwn(s: Space, image: seq<byte>, base: nat, end: nat, a: u32, b: u32)
    requires SpaceOk(s) && base <= a / PAGE < b / PAGE < end <= 0x10_0000 && EnoughFrames(s, base, end)
    ensures var t := Pages(s, image, base, base, end);
      && EntryOk(t.ram, t.dir[RegionOf(a)]) && EntryOk(t.ram, t.dir[RegionOf(b)])
      && exists f: nat, g: nat :: OwnFrame(s, t, a, f) && OwnFrame(s, t, b, g) && f != g
  {
    LoadHolds(s, image, base, base, end, a);
    LoadHolds(s, image, base, base, end, b);
    var t := Pages(s, image, base, base, end);
    var f: nat :| HeldIn(t, image, base, a, f) && !s.ram.used[f];
    var g: nat :| HeldIn(t, image, base, b, g) && !s.ram.used[g];
    LoadDistinct(s, image, base, base, end, a, b, f, g);
    assert OwnFrame(s, t, a, f) && OwnFrame(s, t, b, g);
  }

  /** Address a is in frame f, a frame of data that was free before. */
  predicate OwnFrame(s: Space, t: Space, a: u32, f: nat)
    requires RamOk(s.ram) && RamOk(t.ram)
  {
    && f < FRAMES && !s.ram.used[f] && t.ram.used[f] && t.ram.pool[f].Data?
    && EntryOk(t.ram, t.dir[RegionOf(a)]) && Phys(t.ram, t.dir, a) == FrameAddr(f) + a % PAGE
  }

  lemma ImageDue(content: seq<byte>, ss: seq<Segment>, min: u32, size: nat, a: nat)
    requires Inside(ss, min, size) && a >= min && Highest(ss) == min + size
    ensures ByteDue(content, ss, a) == if a - min < size then Image(content, ss, min, size)[a - min] else 0
  {
    if a - min < size {
      ImageHolds(content, ss, min, size, a - min);
    } else {
      NothingDue(content, ss, a);
    }
  }

  lemma {:induction false} NothingDue(content: seq<byte>, ss: seq<Segment>, a: nat)
    requires SegmentsOk(ss) && a >= Highest(ss)
    ensures ByteDue(content, ss, a) == 0
  {
    if ss != [] {
      NothingDue(content, ss[..|ss| - 1], a);
    }
  }
}
