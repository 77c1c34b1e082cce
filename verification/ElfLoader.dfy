/** `elf_load_file` on the drive, the frames and a new page directory. */
module ElfLoader {
  import opened Words
  import opened Volume
  import opened Readers
  import opened Paging
  import opened PhysicalMemory
  import opened ElfImage

  /** The file on the volume: its first cluster, its chain, and the bytes of that chain. */
  ghost predicate IsFile(vol: Volume, first: nat, cs: seq<nat>, content: seq<byte>)
    reads vol
  {
    && vol.Valid() && Visits(vol.View().fat, first, cs) && (cs == [] ==> vol.View().fat[0] >= END_MARK)
    && Blocks(vol.View().data, cs, vol.g.ClusterBytes()) && content == Gather(vol.View().data, cs)
  }

  /** What the loader accepts: a whole header with the ELF magic, for the i386. */
  predicate IsElf(content: seq<byte>) {
    |content| >= HEADER_BYTES && content[..4] == [0x7F, 69, 76, 70] && Get16(content, 18) == 3
  }

  function Entry(content: seq<byte>): u32
    requires IsElf(content)
  {
    Get32(content, 24)
  }

  function SegmentsOf(content: seq<byte>): seq<Segment>
    requires IsElf(content)
  {
    Segments(content, Get32(content, 28), Get16(content, 44))
  }

  /** What makes a file one, off its bytes: a whole header, the magic, and the machine at 18. */
  lemma IsElfBytes(content: seq<byte>)
    ensures IsElf(content) <==> (|content| >= 52 && content[0] == 0x7F && content[1] == 'E' as int && content[2] == 'L' as int
                                 && content[3] == 'F' as int && content[18] == 3 && content[19] == 0)
  {
    if |content| >= 52 {
      assert content[..4] == [content[0], content[1], content[2], content[3]];
    }
  }

  /** The entry point stands at 24. */
  lemma EntryField(content: seq<byte>)
    requires IsElf(content)
    ensures Entry(content) as int == WordAt(content, 24)
  {
  }

  /** The place and number of the program headers stand at 28 and 44. */
  lemma HeaderFields(content: seq<byte>)
    requires IsElf(content)
    ensures SegmentsOf(content) == Segments(content, WordAt(content, 28), WordOf(content[44], content[45], 0, 0))
  {
  }

  lemma PrefixWords(content: seq<byte>, b: seq<byte>, off: nat)
    requires |content| >= HEADER_BYTES && b == content[..HEADER_BYTES] && off + 4 <= HEADER_BYTES
    ensures Get32(b, off) == Get32(content, off) && Get16(b, off) == Get16(content, off)
  {
    assert forall k :: 0 <= k < HEADER_BYTES ==> b[k] == content[k];
  }

  method ReadSegment(vol: Volume, first: nat, phoff: u32, i: nat, ghost cs: seq<nat>, ghost content: seq<byte>) returns (r: Option<Segment>)
    requires IsFile(vol, first, cs, content)
    ensures r == SegmentAt(content, phoff, i)
  {
    var b := ReadAt(vol, first, (phoff + i * PH_BYTES) % 0x1_0000_0000, PH_BYTES, cs);
    if |b| < PH_BYTES || Get32(b, 0) != 1 || Get32(b, 20) == 0 {
      return None;
    }
    return Some(Segment(Get32(b, 4), Get32(b, 8), Get32(b, 16), Get32(b, 20)));
  }

  lemma {:induction false} SegmentsPrefix(content: seq<byte>, phoff: u32, n: nat, m: nat)
    requires n <= m
    ensures Segments(content, phoff, n) <= Segments(content, phoff, m)
    decreases m
  {
    if n < m {
      SegmentsPrefix(content, phoff, n, m - 1);
    }
  }

  lemma PrefixOk(ss: seq<Segment>, all: seq<Segment>)
    requires ss <= all && SegmentsOk(all)
    ensures SegmentsOk(ss)
  {
  }

  /** Reading one more header: nothing, or one more segment. */
  lemma NextSegment(content: seq<byte>, phoff: u32, i: nat, n: nat)
    requires i < n && SegmentsOk(Segments(content, phoff, n))
    ensures var before, ph := Segments(content, phoff, i), SegmentAt(content, phoff, i);
      && Segments(content, phoff, i + 1) == (if ph.Some? then before + [ph.value] else before)
      && SegmentsOk(Segments(content, phoff, i + 1)) && SegmentsOk(before)
    ensures Segments(content, phoff, i + 1) <= Segments(content, phoff, n)
  {
    SegmentsPrefix(content, phoff, i, n);
    SegmentsPrefix(content, phoff, i + 1, n);
    PrefixOk(Segments(content, phoff, i), Segments(content, phoff, n));
    PrefixOk(Segments(content, phoff, i + 1), Segments(content, phoff, n));
  }

  lemma BoundsNext(ss: seq<Segment>, s: Segment)
    requires SegmentsOk(ss) && SegmentsOk(ss + [s])
    ensures Lowest(ss + [s]) == if s.vaddr < Lowest(ss) then s.vaddr else Lowest(ss)
    ensures s.vaddr + s.memsz < 0x1_0000_0000
    ensures Highest(ss + [s]) == if s.vaddr + s.memsz > Highest(ss) then s.vaddr + s.memsz else Highest(ss)
  {
    var all := ss + [s];
    assert all[..|all| - 1] == ss && all[|all| - 1] == s;
  }

  /** The first pass: lowest and highest address. */
  method Measure(vol: Volume, first: nat, phoff: u32, n: nat, ghost cs: seq<nat>, ghost content: seq<byte>) returns (min: u32, max: u32)
    requires IsFile(vol, first, cs, content) && SegmentsOk(Segments(content, phoff, n))
    ensures min == Lowest(Segments(content, phoff, n)) && max == Highest(Segments(content, phoff, n))
  {
    min, max := 0xFFFF_FFFF, 0;
    for i := 0 to n
      invariant SegmentsOk(Segments(content, phoff, i))
      invariant min == Lowest(Segments(content, phoff, i)) && max == Highest(Segments(content, phoff, i))
    {
      var ph := ReadSegment(vol, first, phoff, i, cs, content);
      NextSegment(content, phoff, i, n);
      if ph.Some? {
        BoundsNext(Segments(content, phoff, i), ph.value);
        if ph.value.vaddr < min { min := ph.value.vaddr; }
        if ph.value.vaddr + ph.value.memsz > max { max := ph.value.vaddr + ph.value.memsz; }
      }
    }
  }

  method CopyIn(temp: array<byte>, at: nat, part: seq<byte>)
    requires at + |part| <= temp.Length
    modifies temp
    ensures temp[..] == Overlay(old(temp[..]), at, part)
  {
    for j := 0 to |part|
      invariant forall k :: 0 <= k < temp.Length ==> temp[k] == if at <= k < at + j then part[k - at] else old(temp[k])
    {
      temp[at + j] := part[j];
    }
  }

  /** The second pass: the segments copied into a zeroed buffer. */
  method FillImage(vol: Volume, first: nat, phoff: u32, n: nat, min: u32, size: nat, ghost cs: seq<nat>, ghost content: seq<byte>)
    returns (temp: array<byte>)
    requires IsFile(vol, first, cs, content) && Inside(Segments(content, phoff, n), min, size)
    ensures fresh(temp) && ImageSoFar(temp[..], content, Segments(content, phoff, n), min, size)
  {
    temp := new byte[size](_ => 0);
    EmptyImage(temp[..], content, phoff, min, size);
    for i := 0 to n
      invariant ImageSoFar(temp[..], content, Segments(content, phoff, i), min, size)
    {
      FillRound(vol, first, phoff, i, n, min, temp, cs, content);
    }
  }

  /** The buffer once these segments are in. */
  predicate ImageSoFar(temp: seq<byte>, content: seq<byte>, ss: seq<Segment>, min: u32, size: nat) {
    |temp| == size && temp == Image(content, ss, min, size)
  }

  lemma EmptyImage(temp: seq<byte>, content: seq<byte>, phoff: u32, min: u32, size: nat)
    requires |temp| == size && forall k :: 0 <= k < size ==> temp[k] == 0
    ensures ImageSoFar(temp, content, Segments(content, phoff, 0), min, size)
  {
    assert temp == seq(size, _ => 0);
  }

  method FillRound(vol: Volume, first: nat, phoff: u32, i: nat, n: nat, min: u32, temp: array<byte>,
                   ghost cs: seq<nat>, ghost content: seq<byte>)
    requires IsFile(vol, first, cs, content) && i < n && Inside(Segments(content, phoff, n), min, temp.Length)
    requires ImageSoFar(temp[..], content, Segments(content, phoff, i), min, temp.Length)
    modifies temp
    ensures ImageSoFar(temp[..], content, Segments(content, phoff, i + 1), min, temp.Length)
  {
    FillStep(temp[..], content, phoff, i, n, min, temp.Length);
    var ph := ReadSegment(vol, first, phoff, i, cs, content);
    if ph.Some? {
      CopySegment(vol, first, temp, ph.value, min, cs, content);
    }
  }

  lemma FillStep(temp: seq<byte>, content: seq<byte>, phoff: u32, i: nat, n: nat, min: u32, size: nat)
    requires i < n && Inside(Segments(content, phoff, n), min, size)
    requires ImageSoFar(temp, content, Segments(content, phoff, i), min, size)
    ensures match SegmentAt(content, phoff, i)
      case None => ImageSoFar(temp, content, Segments(content, phoff, i + 1), min, size)
      case Some(s) =>
        && min <= s.vaddr && s.vaddr - min + s.filesz <= size
        && ImageSoFar(Overlay(temp, s.vaddr - min, PartOf(content, s)), content, Segments(content, phoff, i + 1), min, size)
  {
    NextSegment(content, phoff, i, n);
    PrefixInside(Segments(content, phoff, i + 1), Segments(content, phoff, n), min, size);
    var ph := SegmentAt(content, phoff, i);
    if ph.Some? {
      OneMore(temp, content, Segments(content, phoff, i), ph.value, Segments(content, phoff, i + 1), min, size);
    }
  }

  lemma OneMore(temp: seq<byte>, content: seq<byte>, before: seq<Segment>, s: Segment, after: seq<Segment>, min: u32, size: nat)
    requires after == before + [s] && Inside(after, min, size)
    requires ImageSoFar(temp, content, before, min, size)
    ensures min <= s.vaddr && s.vaddr - min + s.filesz <= size
    ensures ImageSoFar(Overlay(temp, s.vaddr - min, PartOf(content, s)), content, after, min, size)
  {
    assert after[..|after| - 1] == before && after[|after| - 1] == s;
  }

  lemma PrefixInside(ss: seq<Segment>, all: seq<Segment>, min: u32, size: nat)
    requires ss <= all && Inside(all, min, size)
    ensures Inside(ss, min, size)
  {
  }

  method CopySegment(vol: Volume, first: nat, temp: array<byte>, s: Segment, min: u32, ghost cs: seq<nat>, ghost content: seq<byte>)
    requires IsFile(vol, first, cs, content) && min <= s.vaddr && s.vaddr - min + s.filesz <= temp.Length
    modifies temp
    ensures temp[..] == Overlay(old(temp[..]), s.vaddr - min, PartOf(content, s))
  {
    if s.filesz > 0 {
      var part := ReadAt(vol, first, s.offset, s.filesz, cs);
      CopyIn(temp, s.vaddr - min, part);
    }
  }

  /** One page of the image, filled up with zeros. */
  method CutPage(temp: array<byte>, offset: nat) returns (b: seq<byte>)
    requires offset <= temp.Length
    ensures b == PageOf(temp[..], offset)
  {
    var copyLen := if offset + PAGE <= temp.Length then PAGE else temp.Length - offset;
    var dst := new byte[PAGE](_ => 0);
    for j := 0 to copyLen
      invariant dst[..j] == PageOf(temp[..], offset)[..j]
    {
      dst[j] := temp[offset + j];
    }
    for j := copyLen to PAGE
      invariant dst[..j] == PageOf(temp[..], offset)[..j]
    {
      dst[j] := 0;
    }
    assert dst[..] == PageOf(temp[..], offset);
    return dst[..];
  }

  /** One round of the last loop. */
  method LoadPage(mem: Physical, dir: array<u32>, temp: array<byte>, min: u32, va: u32)
    requires mem.Valid() && dir.Length == 1024 && SpaceOk(Space(mem.View(), dir[..]))
    requires min <= va && va - min <= temp.Length
    modifies mem.bitmap, mem.pool, dir
    ensures Space(mem.View(), dir[..]) == PageLoaded(Space(old(mem.View()), old(dir[..])), temp[..], min, va)
  {
    ghost var s := Space(mem.View(), dir[..]);
    var phys := mem.Alloc();
    if phys != 0 {
      FillFrame(mem, dir, temp, min, va, phys, s);
    }
  }

  /** The frame just taken is filled with its page and mapped. */
  method FillFrame(mem: Physical, dir: array<u32>, temp: array<byte>, min: u32, va: u32, phys: u32, ghost s: Space)
    requires mem.Valid() && dir.Length == 1024 && SpaceOk(s) && dir[..] == s.dir
    requires min <= va && va - min <= temp.Length
    requires var f := LeastUnused(s.ram.used, 0);
      f < FRAMES && phys == FrameAddr(f) && mem.View() == s.ram.(used := s.ram.used[f := true])
    modifies mem.bitmap, mem.pool, dir
    ensures Space(mem.View(), dir[..]) == PageLoaded(s, temp[..], min, va)
  {
    ghost var f := LeastUnused(s.ram.used, 0);
    var page := CutPage(temp, va - min);
    PutPage(mem, phys, page, f);
    PageIn(s, temp[..], min, va, f, page);
    assert Space(mem.View(), dir[..]) == s.(ram := FrameTaken(s.ram, f, Data(page)));
    mem.MapPage(dir, va, phys, PRESENT_WRITABLE_USER);
  }

  lemma PageIn(s: Space, image: seq<byte>, min: u32, va: u32, f: nat, page: seq<byte>)
    requires SpaceOk(s) && min <= va && f == LeastUnused(s.ram.used, 0) < FRAMES && page == PageOf(image, va - min)
    ensures DirOk(FrameTaken(s.ram, f, Data(page)), s.dir)
    ensures PageLoaded(s, image, min, va) ==
      Mapped(s.(ram := FrameTaken(s.ram, f, Data(page))), va, FrameAddr(f), PRESENT_WRITABLE_USER)
  {
    TakenKeepsDir(s, f, Data(page));
  }

  method PutPage(mem: Physical, phys: u32, page: seq<byte>, ghost f: nat)
    requires mem.Valid() && f < FRAMES && phys == FrameAddr(f)
    modifies mem.pool
    ensures mem.View() == old(mem.View()).(pool := old(mem.View()).pool[f := Data(page)])
  {
    FrameOfAddr(f);
    mem.pool[(phys - POOL) / PAGE] := Data(page);
  }

  /** The last loop: pages from the lowest address up to the break. */
  method LoadPages(mem: Physical, dir: array<u32>, temp: array<byte>, min: u32, brk: u32)
    requires mem.Valid() && dir.Length == 1024 && SpaceOk(Space(mem.View(), dir[..]))
    requires brk <= 0xFFFF_F000 && (min < brk ==> (brk - min) % PAGE == 0 && brk - min < temp.Length + PAGE)
    requires min + Rounds(min, brk) * PAGE <= 0x1_0000_0000
    modifies mem.bitmap, mem.pool, dir
    ensures Space(mem.View(), dir[..]) == Loaded(Space(old(mem.View()), old(dir[..])), temp[..], min, 0, Rounds(min, brk))
  {
    ghost var s, n := Space(mem.View(), dir[..]), Rounds(min, brk);
    ghost var goal := Loaded(s, temp[..], min, 0, n);
    var va: nat, k: nat := min, 0;
    while va < brk
      invariant va == min + k * PAGE && k <= n && (va < brk <==> k < n)
      invariant SpaceOk(Space(mem.View(), dir[..])) && Loaded(Space(mem.View(), dir[..]), temp[..], min, k, n) == goal
      decreases n - k
    {
      RoundsLeft(min, brk, k, temp.Length);
      LoadRound(mem, dir, temp, min, va, k, n);
      va := va + PAGE;
      k := k + 1;
    }
  }

  lemma RoundsLeft(min: nat, brk: nat, k: nat, len: nat)
    requires k < Rounds(min, brk) && (brk - min) % PAGE == 0 && brk - min < len + PAGE
    ensures min + (k + 1) * PAGE < brk <==> k + 1 < Rounds(min, brk)
    ensures k * PAGE <= len
  {
  }

  method LoadRound(mem: Physical, dir: array<u32>, temp: array<byte>, min: u32, va: u32, ghost k: nat, ghost n: nat)
    requires mem.Valid() && dir.Length == 1024 && SpaceOk(Space(mem.View(), dir[..]))
    requires va == min + k * PAGE && k < n && min + n * PAGE <= 0x1_0000_0000 && va - min <= temp.Length
    modifies mem.bitmap, mem.pool, dir
    ensures SpaceOk(Space(mem.View(), dir[..]))
    ensures Loaded(Space(mem.View(), dir[..]), temp[..], min, k + 1, n) == Loaded(Space(old(mem.View()), old(dir[..])), temp[..], min, k, n)
  {
    ghost var s := Space(mem.View(), dir[..]);
    LoadPage(mem, dir, temp, min, va);
    LoadedNext(s, Space(mem.View(), dir[..]), temp[..], min, va, k, n);
  }

  lemma LoadedNext(s: Space, t: Space, image: seq<byte>, min: u32, va: u32, k: nat, n: nat)
    requires SpaceOk(s) && va == min + k * PAGE && k < n && min + n * PAGE <= 0x1_0000_0000
    requires t == PageLoaded(s, image, min, va)
    ensures SpaceOk(t) && Loaded(t, image, min, k + 1, n) == Loaded(s, image, min, k, n)
  {
    PageLoadedOk(s, image, min, va);
  }

  /** `elf_load_file`, its task and its memory granted: None for a file it does not accept, else
      the new directory, the entry point and the first break. */
  method LoadFile(vol: Volume, first: nat, mem: Physical, kernelDir: array<u32>, ghost cs: seq<nat>, ghost content: seq<byte>)
    returns (r: Option<(array<u32>, u32, u32)>)
    requires IsFile(vol, first, cs, content) && mem.Valid()
    requires kernelDir.Length == 1024 && kernelDir[..] == KernelDir()
    requires IsElf(content) ==> SegmentsOk(SegmentsOf(content)) && (SegmentsOf(content) != [] ==> Lowest(SegmentsOf(content)) % PAGE == 0)
    modifies mem.bitmap, mem.pool
    ensures r.Some? <==> IsElf(content)
    ensures r.None? ==> mem.View() == old(mem.View())
    ensures r.Some? ==>
      var (dir, entry, brk) := r.value;
      && fresh(dir) && dir.Length == 1024 && entry == Entry(content) && brk == Brk(SegmentsOf(content))
      && SpaceOk(Space(old(mem.View()), KernelDir()))
      && Space(mem.View(), dir[..]) ==
           if SegmentsOf(content) == [] then Space(old(mem.View()), KernelDir())
           else Program(Space(old(mem.View()), KernelDir()), content, SegmentsOf(content))
  {
    var eh := ReadHeader(vol, first, cs, content);
    if eh == None {
      return None;
    }
    var dir, brk := LoadSegments(vol, first, mem, kernelDir, Get32(eh.value, 28), Get16(eh.value, 44), cs, content);
    return Some((dir, Get32(eh.value, 24), brk));
  }

  /** The ELF header of a file the loader accepts. */
  method ReadHeader(vol: Volume, first: nat, ghost cs: seq<nat>, ghost content: seq<byte>) returns (r: Option<seq<byte>>)
    requires IsFile(vol, first, cs, content)
    ensures r.Some? <==> IsElf(content)
    ensures r.Some? ==> |r.value| == HEADER_BYTES && Get32(r.value, 24) == Entry(content)
    ensures r.Some? ==> SegmentsOf(content) == Segments(content, Get32(r.value, 28), Get16(r.value, 44))
  {
    var eh := ReadAt(vol, first, 0, HEADER_BYTES, cs);
    if |eh| < HEADER_BYTES {
      return None;
    }
    NotElf(content, eh);
    if eh[0] != 0x7F || eh[1] != 69 || eh[2] != 76 || eh[3] != 70 {
      return None;
    }
    if Get16(eh, 18) != 3 {
      return None;
    }
    HeaderRead(content, eh);
    return Some(eh);
  }

  lemma NotElf(content: seq<byte>, eh: seq<byte>)
    requires |content| >= HEADER_BYTES && eh == content[..HEADER_BYTES]
    ensures eh[0] != 0x7F || eh[1] != 69 || eh[2] != 76 || eh[3] != 70 || Get16(eh, 18) != 3 ==> !IsElf(content)
  {
    PrefixWords(content, eh, 18);
    assert forall k :: 0 <= k < 4 ==> eh[k] == content[..4][k];
  }

  lemma HeaderRead(content: seq<byte>, eh: seq<byte>)
    requires |content| >= HEADER_BYTES && eh == content[..HEADER_BYTES]
    requires eh[0] == 0x7F && eh[1] == 69 && eh[2] == 76 && eh[3] == 70 && Get16(eh, 18) == 3
    ensures IsElf(content) && Get32(eh, 24) == Entry(content) && SegmentsOf(content) == Segments(content, Get32(eh, 28), Get16(eh, 44))
  {
    PrefixWords(content, eh, 18);
    PrefixWords(content, eh, 24);
    PrefixWords(content, eh, 28);
    PrefixWords(content, eh, 44);
    assert content[..4] == [0x7F, 69, 76, 70];
  }

  method LoadSegments(vol: Volume, first: nat, mem: Physical, kernelDir: array<u32>, phoff: u32, n: nat,
                      ghost cs: seq<nat>, ghost content: seq<byte>)
    returns (dir: array<u32>, brk: u32)
    requires IsFile(vol, first, cs, content) && mem.Valid()
    requires kernelDir.Length == 1024 && kernelDir[..] == KernelDir()
    requires var ss := Segments(content, phoff, n); SegmentsOk(ss) && (ss != [] ==> Lowest(ss) % PAGE == 0)
    modifies mem.bitmap, mem.pool
    ensures fresh(dir) && dir.Length == 1024 && brk == Brk(Segments(content, phoff, n))
    ensures SpaceOk(Space(old(mem.View()), KernelDir()))
    ensures Space(mem.View(), dir[..]) ==
      if Segments(content, phoff, n) == [] then Space(old(mem.View()), KernelDir())
      else Program(Space(old(mem.View()), KernelDir()), content, Segments(content, phoff, n))
  {
    var min, max, temp := BuildBuffer(vol, first, phoff, n, cs, content);
    dir, brk := MapImage(mem, kernelDir, temp, min, max, Segments(content, phoff, n), content);
  }

  /** The half of the loader that does not read the file. */
  method MapImage(mem: Physical, kernelDir: array<u32>, temp: array<byte>, min: u32, max: u32, ghost ss: seq<Segment>, ghost content: seq<byte>)
    returns (dir: array<u32>, brk: u32)
    requires mem.Valid() && kernelDir.Length == 1024 && kernelDir[..] == KernelDir()
    requires SegmentsOk(ss) && (ss != [] ==> Lowest(ss) % PAGE == 0) && min == Lowest(ss) && max == Highest(ss)
    requires ImageSoFar(temp[..], content, ss, min, temp.Length) && temp.Length == BufferSize(ss)
    modifies mem.bitmap, mem.pool
    ensures fresh(dir) && dir.Length == 1024 && brk == Brk(ss)
    ensures SpaceOk(Space(old(mem.View()), KernelDir()))
    ensures Space(mem.View(), dir[..]) ==
      if ss == [] then Space(old(mem.View()), KernelDir()) else Program(Space(old(mem.View()), KernelDir()), content, ss)
  {
    brk := (max + PAGE - 1) / PAGE * PAGE;
    BufferFilled(temp[..], content, ss, temp.Length);
    RangeFits(ss, temp.Length);
    dir := NewPageDir(kernelDir);
    LoadImage(mem, dir, temp, min, brk, ss, content);
  }

  /** The last loop, into a directory just made. */
  method LoadImage(mem: Physical, dir: array<u32>, temp: array<byte>, min: u32, brk: u32, ghost ss: seq<Segment>, ghost content: seq<byte>)
    requires mem.Valid() && dir.Length == 1024 && dir[..] == KernelDir() && SegmentsOk(ss) && min == Lowest(ss) && brk == Brk(ss)
    requires (min < brk ==> (brk - min) % PAGE == 0 && brk - min < temp.Length + PAGE) && (ss != [] ==> temp[..] == Buffer(content, ss))
    requires min + Rounds(min, brk) * PAGE <= 0x1_0000_0000 && (ss == [] ==> Rounds(min, brk) == 0)
    modifies mem.bitmap, mem.pool, dir
    ensures SpaceOk(Space(old(mem.View()), KernelDir()))
    ensures Space(mem.View(), dir[..]) ==
      if ss == [] then Space(old(mem.View()), KernelDir()) else Program(Space(old(mem.View()), KernelDir()), content, ss)
  {
    NewDirOk(mem.View());
    LoadPages(mem, dir, temp, min, brk);
    LoadedProgram(Space(old(mem.View()), KernelDir()), content, ss, temp[..]);
  }

  lemma LoadedProgram(s: Space, content: seq<byte>, ss: seq<Segment>, temp: seq<byte>)
    requires SpaceOk(s) && SegmentsOk(ss) && (ss != [] ==> temp == Buffer(content, ss))
    requires Lowest(ss) + Rounds(Lowest(ss), Brk(ss)) * PAGE <= 0x1_0000_0000 && (ss == [] ==> Rounds(Lowest(ss), Brk(ss)) == 0)
    ensures Loaded(s, temp, Lowest(ss), 0, Rounds(Lowest(ss), Brk(ss))) == if ss == [] then s else Program(s, content, ss)
  {
  }

  /** Both passes: the bounds and the buffer. */
  method BuildBuffer(vol: Volume, first: nat, phoff: u32, n: nat, ghost cs: seq<nat>, ghost content: seq<byte>)
    returns (min: u32, max: u32, temp: array<byte>)
    requires IsFile(vol, first, cs, content) && SegmentsOk(Segments(content, phoff, n))
    ensures fresh(temp) && min == Lowest(Segments(content, phoff, n)) && max == Highest(Segments(content, phoff, n))
    ensures temp.Length == BufferSize(Segments(content, phoff, n))
    ensures ImageSoFar(temp[..], content, Segments(content, phoff, n), min, temp.Length)
  {
    min, max := Measure(vol, first, phoff, n, cs, content);
    var size := if max >= min then max - min else max + 0x1_0000_0000 - min;
    BufferInside(Segments(content, phoff, n), size);
    temp := FillImage(vol, first, phoff, n, min, size, cs, content);
  }

  /** max - min in 32 bits. */
  function BufferSize(ss: seq<Segment>): nat
    requires SegmentsOk(ss)
  {
    if Highest(ss) >= Lowest(ss) then Highest(ss) - Lowest(ss) else Highest(ss) + 0x1_0000_0000 - Lowest(ss)
  }

  lemma BufferFilled(temp: seq<byte>, content: seq<byte>, ss: seq<Segment>, size: nat)
    requires Inside(ss, Lowest(ss), size) && ImageSoFar(temp, content, ss, Lowest(ss), size)
    requires size == BufferSize(ss)
    ensures ss != [] ==> temp == Buffer(content, ss) && |temp| == Highest(ss) - Lowest(ss)
  {
    if ss != [] {
      BufferInside(ss, size);
      BufferIs(temp, content, ss, Lowest(ss), size);
    }
  }

  lemma BufferIs(temp: seq<byte>, content: seq<byte>, ss: seq<Segment>, min: u32, size: nat)
    requires Inside(ss, min, size) && temp == Image(content, ss, min, size)
    requires ss != [] && min == Lowest(ss) && size == Highest(ss) - min
    ensures temp == Buffer(content, ss)
  {
  }

  /** The loop's bounds: whole pages, each starting inside the buffer. */
  lemma RangeFits(ss: seq<Segment>, size: nat)
    requires SegmentsOk(ss) && (ss != [] ==> Lowest(ss) % PAGE == 0 && size == Highest(ss) - Lowest(ss))
    ensures var min, brk := Lowest(ss), Brk(ss);
      && (min < brk ==> (brk - min) % PAGE == 0 && brk - min < size + PAGE)
      && min + Rounds(min, brk) * PAGE <= 0x1_0000_0000 && (ss == [] ==> Rounds(min, brk) == 0)
  {
    RoundsFit(Lowest(ss), Brk(ss));
    if ss != [] {
      assert Lowest(ss) <= ss[0].vaddr;
    }
  }

  /** Without segments the buffer has one byte, and there is nothing to load. */
  lemma BufferInside(ss: seq<Segment>, size: nat)
    requires SegmentsOk(ss)
    requires size == BufferSize(ss)
    ensures Inside(ss, Lowest(ss), size) && (ss != [] ==> Lowest(ss) <= Highest(ss))
    ensures ss == [] ==> Brk(ss) < Lowest(ss)
  {
    if ss != [] {
      assert Lowest(ss) <= ss[0].vaddr;
    }
  }

  lemma NewDirOk(ram: Ram)
    requires RamOk(ram)
    ensures SpaceOk(Space(ram, KernelDir()))
  {
  }
}
