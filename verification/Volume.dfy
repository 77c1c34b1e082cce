/** A FAT32 volume on its sectors: the file allocation table as little-endian words,
    mirrored in every copy, and the clusters behind it. `View` is what the rest of
    the file system works with: one 28-bit value and one block of bytes a cluster. */
module Volume {
  import opened Words

  const SECTOR := 512
  const WORDS_PER_SECTOR := 128
  const FAT_MASK := 0x1000_0000   // one more than 0x0FFFFFFF
  const END_MARK := 0x0FFF_FFF8
  const END: nat := 0x0FFF_FFFF

  type Sector = s: seq<byte> | |s| == 512 witness seq(512, _ => 0)

  datatype Geometry = Geometry(fatStart: nat, numFats: nat, fatSectors: nat, spc: nat, totalSectors: nat, root: nat) {
    function DataStart(): nat { fatStart + numFats * fatSectors }

    /** The clusters the free scan covers; it counts from total sectors. */
    function Clusters(): nat
      requires spc > 0
    {
      totalSectors / spc
    }

    function ClusterBytes(): nat { spc * SECTOR }

    /** `_fat32_cluster_to_lba`. */
    function Lba(c: nat): nat
      requires c >= 2
    {
      DataStart() + (c - 2) * spc
    }

    /** The FAT covers every cluster and the drive holds every cluster. */
    predicate Fits(drive: nat) {
      && numFats >= 1 && 1 <= spc <= 128
      && 2 <= root < Clusters() < END_MARK
      && Clusters() * 4 <= fatSectors * SECTOR
      && DataStart() + Clusters() * spc <= drive
    }
  }

  datatype Disk = Disk(fat: seq<nat>, data: seq<seq<byte>>)

  // ---- reading the view off the sectors ----

  function Flatten(ss: seq<Sector>): (b: seq<byte>)
    ensures |b| == SECTOR * |ss|
  {
    if ss == [] then [] else Flatten(ss[..|ss| - 1]) + ss[|ss| - 1]
  }

  function FatWord(s: seq<Sector>, g: Geometry, copy: nat, c: nat): u32
    requires g.Fits(|s|) && copy < g.numFats && c < g.Clusters()
  {
    CopyInRange(g, copy, c / WORDS_PER_SECTOR);
    Get32(s[g.fatStart + copy * g.fatSectors + c / WORDS_PER_SECTOR], c % WORDS_PER_SECTOR * 4)
  }

  function FatEntry(s: seq<Sector>, g: Geometry, c: nat): nat
    requires g.Fits(|s|) && c < g.Clusters()
  {
    FatWord(s, g, 0, c) % FAT_MASK
  }

  function Fat(s: seq<Sector>, g: Geometry): (f: seq<nat>)
    requires g.Fits(|s|)
    ensures |f| == g.Clusters()
  {
    seq(g.Clusters(), c requires 0 <= c < g.Clusters() => FatEntry(s, g, c))
  }

  function ClusterAt(s: seq<Sector>, g: Geometry, c: nat): (b: seq<byte>)
    requires g.Fits(|s|) && 2 <= c < g.Clusters()
    ensures |b| == g.ClusterBytes()
  {
    ClusterInRange(g, c, |s|);
    Flatten(s[g.Lba(c)..g.Lba(c) + g.spc])
  }

  function Data(s: seq<Sector>, g: Geometry): (d: seq<seq<byte>>)
    requires g.Fits(|s|)
    ensures |d| == g.Clusters()
  {
    seq(g.Clusters(), c requires 0 <= c < g.Clusters() => if c < 2 then [] else ClusterAt(s, g, c))
  }

  function DiskOf(s: seq<Sector>, g: Geometry): Disk
    requires g.Fits(|s|)
  {
    Disk(Fat(s, g), Data(s, g))
  }

  /** Every copy of the FAT holds the same sectors. */
  predicate Mirrored(s: seq<Sector>, g: Geometry)
    requires g.Fits(|s|)
  {
    forall copy, r | 0 <= copy < g.numFats && 0 <= r < g.fatSectors ::
      SectorOf(s, g, copy, r) == SectorOf(s, g, 0, r)
  }

  function SectorOf(s: seq<Sector>, g: Geometry, copy: nat, r: nat): Sector
    requires g.Fits(|s|) && copy < g.numFats && r < g.fatSectors
  {
    CopyInRange(g, copy, r);
    s[g.fatStart + copy * g.fatSectors + r]
  }

  // ---- the layout ----

  lemma CopyInRange(g: Geometry, copy: nat, r: nat)
    requires copy < g.numFats && r < g.fatSectors
    ensures g.fatStart <= g.fatStart + copy * g.fatSectors + r < g.DataStart()
  {
    assert (copy + 1) * g.fatSectors <= g.numFats * g.fatSectors;
  }

  lemma NextBlock(i: nat, j: nat, size: nat)
    requires i < j
    ensures i * size + size <= j * size
  {
    assert i * size + size == (i + 1) * size;
  }

  lemma CopiesApart(g: Geometry, i: nat, r: nat, j: nat, q: nat)
    requires r < g.fatSectors && q < g.fatSectors
    requires i * g.fatSectors + r == j * g.fatSectors + q
    ensures i == j && r == q
  {
    if i < j {
      NextBlock(i, j, g.fatSectors);
    } else if j < i {
      NextBlock(j, i, g.fatSectors);
    }
  }

  lemma ClusterInRange(g: Geometry, c: nat, drive: nat)
    requires g.Fits(drive) && 2 <= c < g.Clusters()
    ensures g.DataStart() <= g.Lba(c) && g.Lba(c) + g.spc <= drive
  {
    assert (c - 2) * g.spc + g.spc == (c - 1) * g.spc;
    assert (c - 1) * g.spc <= g.Clusters() * g.spc;
  }

  lemma ClustersApart(g: Geometry, c: nat, d: nat)
    requires 2 <= c < d
    ensures g.Lba(c) + g.spc <= g.Lba(d)
  {
    NextBlock(c - 2, d - 2, g.spc);
  }

  // ---- setting a FAT entry ----

  /** The sector `buf` stored at FAT sector r of the first n copies. */
  function StoreCopies(s: seq<Sector>, g: Geometry, r: nat, buf: Sector, n: nat): (t: seq<Sector>)
    requires g.Fits(|s|) && r < g.fatSectors && n <= g.numFats
    ensures |t| == |s|
  {
    if n == 0 then s else
    CopyInRange(g, n - 1, r);
    StoreCopies(s, g, r, buf, n - 1)[g.fatStart + r + (n - 1) * g.fatSectors := buf]
  }

  function SetEntry(s: seq<Sector>, g: Geometry, c: nat, v: u32): (t: seq<Sector>)
    requires g.Fits(|s|) && c < g.Clusters()
    ensures |t| == |s|
  {
    StoreCopies(s, g, c / WORDS_PER_SECTOR, NewSector(s, g, c, v), g.numFats)
  }

  lemma {:induction false} StoredCopy(s: seq<Sector>, g: Geometry, r: nat, buf: Sector, n: nat, copy: nat, q: nat)
    requires g.Fits(|s|) && r < g.fatSectors && n <= g.numFats
    requires copy < g.numFats && q < g.fatSectors
    ensures SectorOf(StoreCopies(s, g, r, buf, n), g, copy, q) ==
      if q == r && copy < n then buf else SectorOf(s, g, copy, q)
    decreases n
  {
    CopyInRange(g, copy, q);
    if n > 0 {
      StoredCopy(s, g, r, buf, n - 1, copy, q);
      if g.fatStart + copy * g.fatSectors + q == g.fatStart + r + (n - 1) * g.fatSectors {
        CopiesApart(g, copy, q, n - 1, r);
      }
    }
  }

  lemma {:induction false} StoreFrame(s: seq<Sector>, g: Geometry, r: nat, buf: Sector, n: nat, lba: nat)
    requires g.Fits(|s|) && r < g.fatSectors && n <= g.numFats
    requires lba < |s| && (lba < g.fatStart || g.DataStart() <= lba)
    ensures StoreCopies(s, g, r, buf, n)[lba] == s[lba]
    decreases n
  {
    if n > 0 {
      StoreFrame(s, g, r, buf, n - 1, lba);
      CopyInRange(g, n - 1, r);
    }
  }

  /** The FAT sector of cluster c and the offset of its word there. */
  lemma WordPlace(c: nat)
    ensures c * 4 / SECTOR == c / WORDS_PER_SECTOR && c * 4 % SECTOR == c % WORDS_PER_SECTOR * 4
  {
  }

  function NewSector(s: seq<Sector>, g: Geometry, c: nat, v: u32): Sector
    requires g.Fits(|s|) && c < g.Clusters()
  {
    Put32(SectorOf(s, g, 0, c / WORDS_PER_SECTOR), c % WORDS_PER_SECTOR * 4, v % FAT_MASK)
  }

  lemma SectorAfterSet(s: seq<Sector>, g: Geometry, c: nat, v: u32, copy: nat, q: nat)
    requires g.Fits(|s|) && c < g.Clusters() && copy < g.numFats && q < g.fatSectors
    ensures SectorOf(SetEntry(s, g, c, v), g, copy, q) ==
      if q == c / WORDS_PER_SECTOR then NewSector(s, g, c, v) else SectorOf(s, g, copy, q)
  {
    StoredCopy(s, g, c / WORDS_PER_SECTOR, NewSector(s, g, c, v), g.numFats, copy, q);
  }

  /** Words of different clusters in one FAT sector do not overlap. */
  lemma WordsApart(c: nat, d: nat)
    requires c != d && c / WORDS_PER_SECTOR == d / WORDS_PER_SECTOR
    ensures var i, j := c % WORDS_PER_SECTOR * 4, d % WORDS_PER_SECTOR * 4;
      i + 4 <= j || j + 4 <= i
  {
  }

  lemma EntryOf(s: seq<Sector>, g: Geometry, d: nat)
    requires g.Fits(|s|) && d < g.Clusters()
    ensures FatEntry(s, g, d) == Get32(SectorOf(s, g, 0, d / WORDS_PER_SECTOR), d % WORDS_PER_SECTOR * 4) % FAT_MASK
  {
  }

  lemma EntryAfterSet(s: seq<Sector>, g: Geometry, c: nat, v: u32, d: nat)
    requires g.Fits(|s|) && c < g.Clusters() && d < g.Clusters()
    ensures FatEntry(SetEntry(s, g, c, v), g, d) == if d == c then v % FAT_MASK else FatEntry(s, g, d)
  {
    var q := d / WORDS_PER_SECTOR;
    EntryOf(s, g, d);
    EntryOf(SetEntry(s, g, c, v), g, d);
    SectorAfterSet(s, g, c, v, 0, q);
    if q == c / WORDS_PER_SECTOR {
      if c != d {
        WordsApart(c, d);
      }
      GetPut32(SectorOf(s, g, 0, q), c % WORDS_PER_SECTOR * 4, v % FAT_MASK, d % WORDS_PER_SECTOR * 4);
    }
  }

  /** Setting an entry sets that entry to the masked value, leaves every other entry
      and every cluster alone, and keeps all copies of the FAT equal. */
  lemma SetEntryView(s: seq<Sector>, g: Geometry, c: nat, v: u32)
    requires g.Fits(|s|) && c < g.Clusters() && Mirrored(s, g)
    ensures Mirrored(SetEntry(s, g, c, v), g)
    ensures DiskOf(SetEntry(s, g, c, v), g) ==
      Disk(DiskOf(s, g).fat[c := v % FAT_MASK], DiskOf(s, g).data)
  {
    var t := SetEntry(s, g, c, v);
    forall copy, q | 0 <= copy < g.numFats && 0 <= q < g.fatSectors
      ensures SectorOf(t, g, copy, q) == SectorOf(t, g, 0, q)
    {
      SectorAfterSet(s, g, c, v, copy, q);
      SectorAfterSet(s, g, c, v, 0, q);
    }
    forall d | 0 <= d < g.Clusters()
      ensures Fat(t, g)[d] == Fat(s, g)[c := v % FAT_MASK][d]
    {
      EntryAfterSet(s, g, c, v, d);
    }
    SameData(s, t, g, c, v);
  }

  lemma SameData(s: seq<Sector>, t: seq<Sector>, g: Geometry, c: nat, v: u32)
    requires g.Fits(|s|) && c < g.Clusters() && t == SetEntry(s, g, c, v)
    ensures Data(t, g) == Data(s, g)
  {
    forall d | 2 <= d < g.Clusters()
      ensures ClusterAt(t, g, d) == ClusterAt(s, g, d)
    {
      ClusterInRange(g, d, |s|);
      forall lba | g.Lba(d) <= lba < g.Lba(d) + g.spc
        ensures t[lba] == s[lba]
      {
        StoreFrame(s, g, c / WORDS_PER_SECTOR, NewSector(s, g, c, v), g.numFats, lba);
      }
      assert t[g.Lba(d)..g.Lba(d) + g.spc] == s[g.Lba(d)..g.Lba(d) + g.spc];
    }
  }

  // ---- writing clusters ----

  /** The sectors of a buffer. */
  function Sectors(b: seq<byte>): (ss: seq<Sector>)
    requires |b| % SECTOR == 0
    ensures |ss| == |b| / SECTOR
  {
    seq(|b| / SECTOR, i requires 0 <= i < |b| / SECTOR => b[SECTOR * i..SECTOR * i + SECTOR])
  }

  function Overwrite(s: seq<Sector>, lba: nat, ss: seq<Sector>): (t: seq<Sector>)
    requires lba + |ss| <= |s|
    ensures |t| == |s|
  {
    s[..lba] + ss + s[lba + |ss|..]
  }

  lemma FlattenSectors(b: seq<byte>)
    requires |b| % SECTOR == 0
    ensures Flatten(Sectors(b)) == b
  {
    FlattenSectorsOf(b, |b| / SECTOR);
  }

  lemma {:induction false} FlattenSectorsOf(b: seq<byte>, n: nat)
    requires |b| == SECTOR * n
    ensures Flatten(Sectors(b)) == b
  {
    if n > 0 {
      var c := b[..SECTOR * (n - 1)];
      FlattenSectorsOf(c, n - 1);
      SectorsPrefix(b, c, n);
    }
  }

  lemma SectorsPrefix(b: seq<byte>, c: seq<byte>, n: nat)
    requires n > 0 && |b| == SECTOR * n && c == b[..SECTOR * (n - 1)]
    ensures Sectors(b) == Sectors(c) + [b[SECTOR * (n - 1)..]]
  {
    assert |b| / SECTOR == n && |c| / SECTOR == n - 1;
    var l, r := Sectors(b), Sectors(c) + [b[SECTOR * (n - 1)..]];
    forall i | 0 <= i < n
      ensures l[i] == r[i]
    {
      if i < n - 1 {
        SubSlice(b, 0, SECTOR * (n - 1), SECTOR * i, SECTOR * i + SECTOR);
      }
    }
  }

  lemma {:induction false} FlattenAppend(ss: seq<Sector>, tt: seq<Sector>)
    ensures Flatten(ss + tt) == Flatten(ss) + Flatten(tt)
  {
    if tt == [] {
      assert ss + tt == ss;
    } else {
      FlattenAppend(ss, tt[..|tt| - 1]);
      assert (ss + tt)[..|ss + tt| - 1] == ss + tt[..|tt| - 1];
    }
  }

  /** What the first sectors of a cluster hold once b is written over its start. */
  function Onto(old_: seq<byte>, b: seq<byte>): seq<byte>
    requires |b| <= |old_|
  {
    b + old_[|b|..]
  }

  /** Sector i of a block, read out of its bytes. */
  lemma {:induction false} FlattenAt(ss: seq<Sector>, i: nat)
    requires i < |ss|
    ensures Flatten(ss)[SECTOR * i..SECTOR * i + SECTOR] == ss[i]
  {
    if i < |ss| - 1 {
      FlattenAt(ss[..|ss| - 1], i);
      assert Flatten(ss)[..SECTOR * (|ss| - 1)] == Flatten(ss[..|ss| - 1]);
      assert Flatten(ss)[SECTOR * i..SECTOR * i + SECTOR] == Flatten(ss[..|ss| - 1])[SECTOR * i..SECTOR * i + SECTOR];
    }
  }

  /** A write behind the FAT leaves every FAT sector alone. */
  lemma WriteKeepsFat(s: seq<Sector>, g: Geometry, lba: nat, ss: seq<Sector>)
    requires g.Fits(|s|) && g.DataStart() <= lba && lba + |ss| <= |s| && Mirrored(s, g)
    ensures Mirrored(Overwrite(s, lba, ss), g) && Fat(Overwrite(s, lba, ss), g) == Fat(s, g)
  {
    var t := Overwrite(s, lba, ss);
    forall copy, q | 0 <= copy < g.numFats && 0 <= q < g.fatSectors
      ensures SectorOf(t, g, copy, q) == SectorOf(s, g, copy, q)
    {
      CopyInRange(g, copy, q);
    }
    forall d | 0 <= d < g.Clusters()
      ensures FatEntry(t, g, d) == FatEntry(s, g, d)
    {
      EntryOf(s, g, d);
      EntryOf(t, g, d);
    }
  }

  /** A write inside cluster c leaves every other cluster alone. */
  lemma WriteKeepsCluster(s: seq<Sector>, g: Geometry, c: nat, ss: seq<Sector>, d: nat)
    requires g.Fits(|s|) && 2 <= c < g.Clusters() && 2 <= d < g.Clusters() && c != d
    requires |ss| <= g.spc && g.Lba(c) + |ss| <= |s|
    ensures ClusterAt(Overwrite(s, g.Lba(c), ss), g, d) == ClusterAt(s, g, d)
  {
    var t := Overwrite(s, g.Lba(c), ss);
    ClusterInRange(g, d, |s|);
    if d < c { ClustersApart(g, d, c); } else { ClustersApart(g, c, d); }
    assert t[g.Lba(d)..g.Lba(d) + g.spc] == s[g.Lba(d)..g.Lba(d) + g.spc];
  }

  /** Writing the start of cluster c changes that cluster and nothing else. */
  lemma WriteView(s: seq<Sector>, g: Geometry, c: nat, b: seq<byte>)
    requires g.Fits(|s|) && 2 <= c < g.Clusters() && Mirrored(s, g)
    requires |b| % SECTOR == 0 && |b| <= g.ClusterBytes()
    requires g.Lba(c) + |b| / SECTOR <= |s|
    ensures var t := Overwrite(s, g.Lba(c), Sectors(b));
      && Mirrored(t, g)
      && DiskOf(t, g) == Disk(DiskOf(s, g).fat, DiskOf(s, g).data[c := Onto(DiskOf(s, g).data[c], b)])
  {
    var ss := Sectors(b);
    var t := Overwrite(s, g.Lba(c), ss);
    ClusterInRange(g, c, |s|);
    WriteKeepsFat(s, g, g.Lba(c), ss);
    WrittenCluster(s, g, c, b);
    forall d | 0 <= d < g.Clusters()
      ensures Data(t, g)[d] == Data(s, g)[c := Onto(Data(s, g)[c], b)][d]
    {
      if d >= 2 && d != c {
        WriteKeepsCluster(s, g, c, ss, d);
      }
    }
  }

  lemma WrittenCluster(s: seq<Sector>, g: Geometry, c: nat, b: seq<byte>)
    requires g.Fits(|s|) && 2 <= c < g.Clusters()
    requires |b| % SECTOR == 0 && |b| <= g.ClusterBytes()
    requires g.Lba(c) + |b| / SECTOR <= |s|
    ensures ClusterAt(Overwrite(s, g.Lba(c), Sectors(b)), g, c) == Onto(ClusterAt(s, g, c), b)
  {
    var ss := Sectors(b);
    ClusterInRange(g, c, |s|);
    FlattenSectors(b);
    FlattenOverwrite(s, g.Lba(c), ss, g.Lba(c) + g.spc);
  }

  /** Overwriting the front of a range of sectors overwrites the front of its bytes. */
  lemma FlattenOverwrite(s: seq<Sector>, lo: nat, ss: seq<Sector>, hi: nat)
    requires lo + |ss| <= hi <= |s|
    ensures Flatten(Overwrite(s, lo, ss)[lo..hi]) == Onto(Flatten(s[lo..hi]), Flatten(ss))
  {
    var front, rest := s[lo..lo + |ss|], s[lo + |ss|..hi];
    OverwriteRange(s, lo, ss, hi);
    FlattenAppend(ss, rest);
    FlattenAppend(front, rest);
    OntoFront(Flatten(front), Flatten(rest), Flatten(ss));
  }

  lemma OverwriteRange(s: seq<Sector>, lo: nat, ss: seq<Sector>, hi: nat)
    requires lo + |ss| <= hi <= |s|
    ensures Overwrite(s, lo, ss)[lo..hi] == ss + s[lo + |ss|..hi]
    ensures s[lo..hi] == s[lo..lo + |ss|] + s[lo + |ss|..hi]
  {
  }

  lemma OntoFront(front: seq<byte>, rest: seq<byte>, b: seq<byte>)
    requires |b| == |front|
    ensures Onto(front + rest, b) == b + rest
  {
  }

  // ---- the free scan ----

  /** The least free cluster from c on; 0 when there is none. */
  function LeastFree(fat: seq<nat>, c: nat): (r: nat)
    requires c >= 1
    ensures r == 0 || (c <= r < |fat| && fat[r] == 0)
    decreases |fat| - c
  {
    if c >= |fat| then 0 else if fat[c] == 0 then c else LeastFree(fat, c + 1)
  }

  /** The scan skips no free cluster. */
  lemma {:induction false} LeastFreeIsLeast(fat: seq<nat>, c: nat, d: nat)
    requires 1 <= c <= d < |fat| && (LeastFree(fat, c) == 0 || d < LeastFree(fat, c))
    ensures fat[d] != 0
    decreases d - c
  {
    if c < d {
      LeastFreeIsLeast(fat, c + 1, d);
    }
  }

  // ---- the driver's view ----

  class Volume {
    var sectors: seq<Sector>
    const g: Geometry

    ghost predicate Valid()
      reads this
    {
      g.Fits(|sectors|) && Mirrored(sectors, g)
    }

    ghost function View(): (d: Disk)
      requires Valid()
      reads this
      ensures |d.fat| == |d.data| == g.Clusters()
      ensures forall c :: 2 <= c < g.Clusters() ==> |d.data[c]| == g.ClusterBytes()
    {
      DiskOf(sectors, g)
    }

    constructor (g: Geometry, sectors: seq<Sector>)
      requires g.Fits(|sectors|) && Mirrored(sectors, g)
      ensures Valid() && this.g == g && this.sectors == sectors
    {
      this.g := g;
      this.sectors := sectors;
    }

    /** `_fat32_get_fat_entry`. */
    method GetFat(c: nat) returns (v: nat)
      requires Valid() && c < g.Clusters()
      ensures v == View().fat[c]
    {
      var fatOffset := c * 4;
      WordPlace(c);
      CopyInRange(g, 0, c / WORDS_PER_SECTOR);
      var buf := sectors[g.fatStart + fatOffset / SECTOR];
      var entry := Get32(buf, fatOffset % SECTOR);
      v := entry % FAT_MASK;
    }

    /** `_fat32_set_fat_entry`: one sector read from the first copy, written to every copy. */
    method SetFat(c: nat, v: u32)
      requires Valid() && c < g.Clusters()
      modifies this
      ensures Valid()
      ensures View() == Disk(old(View()).fat[c := v % FAT_MASK], old(View()).data)
    {
      SetEntryView(sectors, g, c, v);
      var fatOffset := c * 4;
      var r, entOffset := fatOffset / SECTOR, fatOffset % SECTOR;
      WordPlace(c);
      CopyInRange(g, 0, r);
      var buf: Sector := sectors[g.fatStart + r];
      buf := Put32(buf, entOffset, v % FAT_MASK);
      WriteCopies(r, buf);
    }

    method WriteCopies(r: nat, buf: Sector)
      requires g.Fits(|sectors|) && r < g.fatSectors
      modifies this
      ensures |sectors| == |old(sectors)|
      ensures sectors == StoreCopies(old(sectors), g, r, buf, g.numFats)
    {
      for i := 0 to g.numFats
        invariant |sectors| == |old(sectors)|
        invariant sectors == StoreCopies(old(sectors), g, r, buf, i)
      {
        CopyInRange(g, i, r);
        sectors := sectors[g.fatStart + r + i * g.fatSectors := buf];
      }
    }

    /** `_fat32_find_free_cluster`, which reads a FAT sector only when the scan enters it. */
    method FindFree() returns (c: nat)
      requires Valid()
      ensures c == LeastFree(View().fat, 2)
    {
      var total := g.totalSectors / g.spc;
      var buf: Sector := seq(SECTOR, _ => 0);
      var current: int := -1;
      var i := 2;
      while i < total
        invariant 2 <= i
        invariant current == -1 || (g.fatStart <= current < g.DataStart() && current < |sectors| && buf == sectors[current])
        invariant LeastFree(View().fat, 2) == LeastFree(View().fat, i)
      {
        var fatSector := g.fatStart + i * 4 / SECTOR;
        WordPlace(i);
        CopyInRange(g, 0, i / WORDS_PER_SECTOR);
        if fatSector != current {
          buf := sectors[fatSector];
          current := fatSector;
        }
        assert View().fat[i] == Get32(buf, i * 4 % SECTOR) % FAT_MASK;
        if Get32(buf, i * 4 % SECTOR) % FAT_MASK == 0 {
          return i;
        }
        i := i + 1;
      }
      return 0;
    }

    /** `ata_read_sectors` of one sector of a cluster. */
    method ReadSector(c: nat, sec: nat) returns (b: seq<byte>)
      requires Valid() && 2 <= c < g.Clusters() && sec < g.spc
      ensures SECTOR * sec + SECTOR <= |View().data[c]|
      ensures b == View().data[c][SECTOR * sec..SECTOR * sec + SECTOR]
    {
      ClusterInRange(g, c, |sectors|);
      b := sectors[g.Lba(c) + sec];
      FlattenAt(sectors[g.Lba(c)..g.Lba(c) + g.spc], sec);
    }

    /** `ata_read_sectors` of a whole cluster. */
    method ReadCluster(c: nat) returns (b: seq<byte>)
      requires Valid() && 2 <= c < g.Clusters()
      ensures b == View().data[c]
    {
      ClusterInRange(g, c, |sectors|);
      b := [];
      for i := 0 to g.spc
        invariant b == Flatten(sectors[g.Lba(c)..g.Lba(c) + i])
      {
        ghost var upTo := sectors[g.Lba(c)..g.Lba(c) + i + 1];
        assert upTo[..|upTo| - 1] == sectors[g.Lba(c)..g.Lba(c) + i];
        b := b + sectors[g.Lba(c) + i];
      }
    }

    /** `ata_write_sectors` of the first |b|/512 sectors of a cluster. */
    method WriteCluster(c: nat, b: seq<byte>)
      requires Valid() && 2 <= c < g.Clusters()
      requires |b| % SECTOR == 0 && |b| <= g.ClusterBytes()
      modifies this
      ensures Valid()
      ensures View() == Disk(old(View()).fat, old(View()).data[c := Onto(old(View()).data[c], b)])
    {
      ghost var s := sectors;
      ClusterInRange(g, c, |sectors|);
      var lba := g.Lba(c);
      var n := |b| / SECTOR;
      for i := 0 to n
        invariant |sectors| == |s|
        invariant sectors == s[..lba] + Sectors(b)[..i] + s[lba + i..]
      {
        var buf: Sector := b[SECTOR * i..SECTOR * i + SECTOR];
        sectors := sectors[lba + i := buf];
      }
      assert sectors == Overwrite(s, lba, Sectors(b));
      WriteView(s, g, c, b);
    }
  }
}
