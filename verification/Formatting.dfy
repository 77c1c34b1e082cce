/** `fat32_format` and `fat32_init`: the state every run starts from. */
module Formatting {
  import opened Words
  import opened Slots
  import opened Volume
  import opened Chains
  import opened Tree
  import opened FileSystem
  import opened FileOps
  import opened FileRuns
  import opened Hierarchies

  function Zero(): (z: Sector)
    ensures forall k :: 0 <= k < 512 ==> z[k] == 0
  {
    seq(512, _ => 0)
  }

  const FORMAT: Geometry := Geometry(704, 2, 160, 8, 20480, 2)

  // ---- the boot sector ----

  /** Bytes to be stored at a place of the sector. */
  datatype Field = Field(at: nat, text: seq<byte>)

  function With(b: seq<byte>, f: Field): (r: seq<byte>)
    ensures |r| == |b|
  {
    seq(|b|, k requires 0 <= k < |b| => if f.at <= k < f.at + |f.text| then f.text[k - f.at] else b[k])
  }

  function Lay(b: seq<byte>, fs: seq<Field>): (r: seq<byte>)
    ensures |r| == |b|
  {
    if fs == [] then b else With(Lay(b, fs[..|fs| - 1]), fs[|fs| - 1])
  }

  function Bytes16(w: u16): seq<byte> { [w % 0x100, w / 0x100] }

  function Bytes32(w: u32): seq<byte> {
    [w % 0x100, (w / 0x100) % 0x100, (w / 0x1_0000) % 0x100, w / 0x100_0000]
  }

  const JUMP: seq<byte> := [0xEB, 0x3C, 0x90]
  const OEM: seq<byte> := [78, 79, 65, 78, 79, 83, 0]                    // NOANOS
  const LABEL: seq<byte> := [78, 79, 65, 78, 32, 79, 83, 32, 32, 0]      // NOAN OS
  const FS_TYPE: seq<byte> := [70, 65, 84, 51, 50, 32, 32, 32]           // FAT32

  /** The two loops that copy the names read one byte past their string literals; whatever
      stands there ends up in the sector. */
  datatype Past = Past(oem: byte, volume: byte)

  /** The fields the code stores, at their places in the boot sector. */
  function Fields(g: Geometry, past: Past): (fs: seq<Field>)
    requires g.spc < 0x100 && g.numFats < 0x100 && g.fatStart < 0x1_0000
    requires g.totalSectors < 0x1_0000_0000 && g.fatSectors < 0x1_0000_0000 && g.root < 0x1_0000_0000
    ensures |fs| == 15
  {
    [Field(0, JUMP), Field(3, OEM + [past.oem]), Field(11, Bytes16(512)), Field(13, [g.spc]), Field(14, Bytes16(g.fatStart)),
     Field(16, [g.numFats]), Field(21, [0xF8]), Field(32, Bytes32(g.totalSectors)), Field(36, Bytes32(g.fatSectors)),
     Field(44, Bytes32(g.root)), Field(66, [0x29]), Field(67, Bytes32(0x12345678)), Field(71, LABEL + [past.volume]),
     Field(82, FS_TYPE), Field(510, Bytes16(0xAA55))]
  }

  function BootSector(g: Geometry, past: Past): (b: Sector)
    requires g.spc < 0x100 && g.numFats < 0x100 && g.fatStart < 0x1_0000
    requires g.totalSectors < 0x1_0000_0000 && g.fatSectors < 0x1_0000_0000 && g.root < 0x1_0000_0000
  {
    Lay(Zero(), Fields(g, past))
  }

  /** One field behind the other, none past the sector's end. */
  predicate InOrder(fs: seq<Field>, n: nat) {
    && (forall i, j :: 0 <= i < j < |fs| ==> fs[i].at + |fs[i].text| <= fs[j].at)
    && forall i :: 0 <= i < |fs| ==> fs[i].at + |fs[i].text| <= n
  }

  /** Fields in order all stand where they were stored. */
  lemma {:induction false} LaidStands(b: seq<byte>, fs: seq<Field>, i: nat)
    requires InOrder(fs, |b|) && i < |fs|
    ensures Lay(b, fs)[fs[i].at..fs[i].at + |fs[i].text|] == fs[i].text
    decreases |fs|
  {
    var front, last := fs[..|fs| - 1], fs[|fs| - 1];
    if i < |fs| - 1 {
      LaidStands(b, front, i);
      assert Lay(b, front)[fs[i].at..fs[i].at + |fs[i].text|] == Lay(b, fs)[fs[i].at..fs[i].at + |fs[i].text|];
    }
  }

  lemma Read16(b: seq<byte>, off: nat, w: u16)
    requires off + 2 <= |b| && b[off..off + 2] == Bytes16(w)
    ensures Get16(b, off) == w
  {
    assert b[off..off + 2][0] == b[off] && b[off..off + 2][1] == b[off + 1];
  }

  lemma Read32(b: seq<byte>, off: nat, w: u32)
    requires off + 4 <= |b| && b[off..off + 4] == Bytes32(w)
    ensures Get32(b, off) == w
  {
    var s := b[off..off + 4];
    assert s[0] == b[off] && s[1] == b[off + 1] && s[2] == b[off + 2] && s[3] == b[off + 3];
    SplitWord(w);
  }

  /** `fat32_init`. */
  function GeometryOf(b: Sector): Geometry {
    Geometry(Get16(b, 14), b[16], Get32(b, 36), b[13], Get32(b, 32), Get32(b, 44))
  }

  /** Mounting reads back the geometry that formatting wrote, and every field stands as it was written. */
  lemma MountReadsBack(g: Geometry, past: Past)
    requires g.spc < 0x100 && g.numFats < 0x100 && g.fatStart < 0x1_0000
    requires g.totalSectors < 0x1_0000_0000 && g.fatSectors < 0x1_0000_0000 && g.root < 0x1_0000_0000
    ensures GeometryOf(BootSector(g, past)) == g
    ensures forall i :: 0 <= i < 15 ==>
      var f := Fields(g, past)[i]; f.at + |f.text| <= 512 && BootSector(g, past)[f.at..f.at + |f.text|] == f.text
  {
    var fs, b := Fields(g, past), BootSector(g, past);
    forall i | 0 <= i < 15
      ensures fs[i].at + |fs[i].text| <= 512 && b[fs[i].at..fs[i].at + |fs[i].text|] == fs[i].text
    {
      LaidStands(Zero(), fs, i);
    }
    assert fs[3] == Field(13, [g.spc]) && fs[4] == Field(14, Bytes16(g.fatStart)) && fs[5] == Field(16, [g.numFats]);
    assert fs[7] == Field(32, Bytes32(g.totalSectors)) && fs[8] == Field(36, Bytes32(g.fatSectors)) && fs[9] == Field(44, Bytes32(g.root));
    GeometryStands(b, g);
  }

  /** A text's characters as bytes. */
  function Chars(text: string): (r: seq<byte>)
    requires forall i :: 0 <= i < |text| ==> text[i] as int < 0x80
    ensures |r| == |text|
  {
    seq(|text|, i requires 0 <= i < |text| => text[i] as int)
  }

  /** The bytes stand at this place of the sector. */
  predicate Stands(b: seq<byte>, at: nat, bytes: seq<byte>) {
    at + |bytes| <= |b| && b[at..at + |bytes|] == bytes
  }

  lemma FieldStands(past: Past, i: nat, f: Field)
    requires i < 15 && f == Fields(FORMAT, past)[i]
    ensures Stands(BootSector(FORMAT, past), f.at, f.text)
  {
    MountReadsBack(FORMAT, past);
  }

  /** The geometry in the boot sector a format writes: 512 bytes a sector, 8 sectors a cluster, 704
      reserved ones, two tables of 160 on a volume of 20480 whose root is cluster 2. */
  lemma BootGeometry(past: Past)
    ensures var b := BootSector(FORMAT, past);
      && Stands(b, 11, [0x00, 0x02]) && Stands(b, 13, [8]) && Stands(b, 14, [0xC0, 0x02]) && Stands(b, 16, [2])
      && Stands(b, 32, [0x00, 0x50, 0, 0]) && Stands(b, 36, [0xA0, 0, 0, 0]) && Stands(b, 44, [2, 0, 0, 0])
  {
    FieldStands(past, 2, Field(11, [0x00, 0x02]));
    FieldStands(past, 3, Field(13, [8]));
    FieldStands(past, 4, Field(14, [0xC0, 0x02]));
    FieldStands(past, 5, Field(16, [2]));
    FieldStands(past, 7, Field(32, [0x00, 0x50, 0, 0]));
    FieldStands(past, 8, Field(36, [0xA0, 0, 0, 0]));
    FieldStands(past, 9, Field(44, [2, 0, 0, 0]));
  }

  /** Its jump, media type, serial number and signature, and its names, each with its NUL and the one
      byte behind it. */
  lemma BootNames(past: Past)
    ensures var b := BootSector(FORMAT, past);
      && Stands(b, 0, [0xEB, 0x3C, 0x90]) && Stands(b, 3, Chars("NOANOS") + [0, past.oem]) && Stands(b, 21, [0xF8])
      && Stands(b, 66, [0x29]) && Stands(b, 67, [0x78, 0x56, 0x34, 0x12]) && Stands(b, 71, Chars("NOAN OS  ") + [0, past.volume])
      && Stands(b, 82, Chars("FAT32   ")) && Stands(b, 510, [0x55, 0xAA])
  {
    FieldStands(past, 0, Field(0, [0xEB, 0x3C, 0x90]));
    FieldStands(past, 1, Field(3, Chars("NOANOS") + [0, past.oem]));
    FieldStands(past, 6, Field(21, [0xF8]));
    FieldStands(past, 10, Field(66, [0x29]));
    FieldStands(past, 11, Field(67, [0x78, 0x56, 0x34, 0x12]));
    FieldStands(past, 12, Field(71, Chars("NOAN OS  ") + [0, past.volume]));
    FieldStands(past, 13, Field(82, Chars("FAT32   ")));
    FieldStands(past, 14, Field(510, [0x55, 0xAA]));
  }

  lemma {:induction false} LaidElsewhere(b: seq<byte>, fs: seq<Field>, k: nat)
    requires k < |b| && forall i :: 0 <= i < |fs| ==> !(fs[i].at <= k < fs[i].at + |fs[i].text|)
    ensures Lay(b, fs)[k] == b[k]
  {
    if fs != [] {
      LaidElsewhere(b, fs[..|fs| - 1], k);
    }
  }

  /** All other bytes of it are zero. */
  lemma BootZeros(past: Past, k: nat)
    requires 17 <= k < 21 || 22 <= k < 32 || 40 <= k < 44 || 48 <= k < 66 || 90 <= k < 510
    ensures BootSector(FORMAT, past)[k] == 0
  {
    LaidElsewhere(Zero(), Fields(FORMAT, past), k);
  }

  /** A format writes the boot sector, the two tables and the root directory, and no other sector. */
  lemma FormatTouches(drive: seq<Sector>, past: Past, i: nat)
    requires |drive| >= 21504 && 0 < i < |drive| && !(704 <= i < 1032)
    ensures Formatted(drive, past)[i] == drive[i]
  {
  }

  lemma GeometryStands(b: Sector, g: Geometry)
    requires g.spc < 0x100 && g.numFats < 0x100 && g.fatStart < 0x1_0000
    requires g.totalSectors < 0x1_0000_0000 && g.fatSectors < 0x1_0000_0000 && g.root < 0x1_0000_0000
    requires b[13..14] == [g.spc] && b[16..17] == [g.numFats] && b[14..16] == Bytes16(g.fatStart)
    requires b[32..36] == Bytes32(g.totalSectors) && b[36..40] == Bytes32(g.fatSectors) && b[44..48] == Bytes32(g.root)
    ensures GeometryOf(b) == g
  {
    Read16(b, 14, g.fatStart);
    Read32(b, 32, g.totalSectors);
    Read32(b, 36, g.fatSectors);
    Read32(b, 44, g.root);
    assert b[13..14][0] == b[13] && b[16..17][0] == b[16];
  }

  // ---- the sectors ----

  /** The first sector of each FAT copy: two reserved entries and the root's end mark. */
  function First(): Sector {
    Put32(Put32(Put32(Zero(), 0, END_MARK), 4, END), 8, END)
  }

  function FormattedSector(drive: seq<Sector>, past: Past, i: nat): Sector
    requires i < |drive|
  {
    if i == 0 then BootSector(FORMAT, past)
    else if i == 704 || i == 864 then First()
    else if 704 < i < 1032 then Zero()
    else drive[i]
  }

  function Formatted(drive: seq<Sector>, past: Past): (s: seq<Sector>)
    ensures |s| == |drive|
  {
    seq(|drive|, i requires 0 <= i < |drive| => FormattedSector(drive, past, i))
  }

  /** A field stored byte by byte. */
  method Store(b: Sector, f: Field) returns (r: Sector)
    requires f.at + |f.text| <= 512
    ensures r == With(b, f)
  {
    r := b;
    for i := 0 to |f.text|
      invariant forall k :: 0 <= k < 512 ==> r[k] == if f.at <= k < f.at + i then f.text[k - f.at] else b[k]
    {
      r := r[f.at + i := f.text[i]];
    }
  }

  method StoreNext(b: Sector, f: Field, ghost fs: seq<Field>, ghost i: nat) returns (r: Sector)
    requires i < |fs| && f == fs[i] && f.at + |f.text| <= 512 && b == Lay(Zero(), fs[..i])
    ensures r == Lay(Zero(), fs[..i + 1])
  {
    r := Store(b, f);
    assert fs[..i + 1][..i] == fs[..i];
  }

  /** The stores of `fat32_format` into its buffer, in order. */
  method FillBoot(past: Past) returns (boot: Sector)
    ensures boot == BootSector(FORMAT, past)
  {
    ghost var fs := Fields(FORMAT, past);
    boot := Zero();
    boot := StoreNext(boot, Field(0, [0xEB, 0x3C, 0x90]), fs, 0);
    boot := StoreNext(boot, Field(3, OEM + [past.oem]), fs, 1);
    boot := StoreNext(boot, Field(11, Bytes16(512)), fs, 2);
    boot := StoreNext(boot, Field(13, [8]), fs, 3);
    boot := StoreNext(boot, Field(14, Bytes16(704)), fs, 4);
    boot := StoreNext(boot, Field(16, [2]), fs, 5);
    boot := StoreNext(boot, Field(21, [0xF8]), fs, 6);
    boot := StoreNext(boot, Field(32, Bytes32(20480)), fs, 7);
    boot := StoreNext(boot, Field(36, Bytes32(160)), fs, 8);
    boot := StoreNext(boot, Field(44, Bytes32(2)), fs, 9);
    boot := StoreNext(boot, Field(66, [0x29]), fs, 10);
    boot := StoreNext(boot, Field(67, Bytes32(0x12345678)), fs, 11);
    boot := StoreNext(boot, Field(71, LABEL + [past.volume]), fs, 12);
    boot := StoreNext(boot, Field(82, FS_TYPE), fs, 13);
    boot := StoreNext(boot, Field(510, Bytes16(0xAA55)), fs, 14);
    assert fs[..15] == fs;
  }

  /** Sector k once i-1 sectors behind the first of each FAT copy are cleared. */
  function WhileClearing(drive: seq<Sector>, boot: Sector, fat: Sector, i: nat, k: nat): Sector
    requires k < |drive|
  {
    if k == 0 then boot else if k == 704 || k == 864 then fat
    else if 704 < k < 704 + i || 864 < k < 864 + i then Zero() else drive[k]
  }

  method Format(drive: seq<Sector>, past: Past) returns (s: seq<Sector>)
    requires |drive| >= 21504
    ensures s == Formatted(drive, past)
  {
    var boot := FillBoot(past);
    var fat: Sector := Zero();
    fat := Put32(fat, 0, END_MARK);
    fat := Put32(fat, 4, END);
    fat := Put32(fat, 8, END);
    s := drive[0 := boot][704 := fat][704 + 160 := fat];
    for i := 1 to 160
      invariant |s| == |drive|
      invariant forall k :: 0 <= k < |s| ==> s[k] == WhileClearing(drive, boot, fat, i, k)
    {
      s := s[704 + i := Zero()][704 + 160 + i := Zero()];
    }
    for k := 0 to 8
      invariant |s| == |drive|
      invariant forall i :: 0 <= i < |s| ==> s[i] == if 1024 + k <= i < 1032 then drive[i] else FormattedSector(drive, past, i)
    {
      s := s[1024 + k := Zero()];
    }
  }

  // ---- what it is as a file system ----

  lemma FirstWords()
    ensures Get32(First(), 0) == END_MARK && Get32(First(), 4) == END && Get32(First(), 8) == END
    ensures forall c :: 3 <= c < WORDS_PER_SECTOR ==> Get32(First(), 4 * c) == 0
  {
    var b0: seq<byte> := Zero();
    var b1 := Put32(b0, 0, END_MARK);
    var b2 := Put32(b1, 4, END);
    GetPut32(b0, 0, END_MARK, 0);
    GetPut32(b1, 4, END, 0);
    GetPut32(b1, 4, END, 4);
    GetPut32(b2, 8, END, 0);
    GetPut32(b2, 8, END, 4);
    GetPut32(b2, 8, END, 8);
    forall c | 3 <= c < WORDS_PER_SECTOR
      ensures Get32(First(), 4 * c) == 0
    {
      GetPut32(b0, 0, END_MARK, 4 * c);
      GetPut32(b1, 4, END, 4 * c);
      GetPut32(b2, 8, END, 4 * c);
    }
  }

  lemma FormatFits(drive: nat)
    requires drive >= 21504
    ensures FORMAT.Fits(drive) && FORMAT.Clusters() == 2560 && FORMAT.ClusterBytes() == 4096
  {
  }

  lemma FormattedEntry(drive: seq<Sector>, past: Past, c: nat)
    requires |drive| >= 21504 && c < 2560
    ensures FORMAT.Fits(|drive|)
    ensures FatEntry(Formatted(drive, past), FORMAT, c) == if c == 0 then END_MARK else if c <= 2 then END else 0
  {
    FormatFits(|drive|);
    FirstWords();
    var r := c / WORDS_PER_SECTOR;
    assert Formatted(drive, past)[704 + r] == FormattedSector(drive, past, 704 + r);
    assert Get32(Zero(), c % WORDS_PER_SECTOR * 4) == 0;
  }

  lemma FormattedMirrored(drive: seq<Sector>, past: Past)
    requires |drive| >= 21504
    ensures FORMAT.Fits(|drive|) && Mirrored(Formatted(drive, past), FORMAT)
  {
    FormatFits(|drive|);
    var s := Formatted(drive, past);
    forall copy, r | 0 <= copy < 2 && 0 <= r < 160
      ensures SectorOf(s, FORMAT, copy, r) == SectorOf(s, FORMAT, 0, r)
    {
      assert s[704 + r] == FormattedSector(drive, past, 704 + r);
      assert s[864 + r] == FormattedSector(drive, past, 864 + r);
    }
  }

  lemma {:induction false} FlattenZero(ss: seq<Sector>)
    requires forall i :: 0 <= i < |ss| ==> ss[i] == Zero()
    ensures forall k :: 0 <= k < |Flatten(ss)| ==> Flatten(ss)[k] == 0
  {
    if ss != [] {
      FlattenZero(ss[..|ss| - 1]);
    }
  }

  lemma FormattedRoot(drive: seq<Sector>, past: Past)
    requires |drive| >= 21504
    ensures FORMAT.Fits(|drive|)
    ensures forall k :: 0 <= k < 4096 ==> ClusterAt(Formatted(drive, past), FORMAT, 2)[k] == 0
  {
    FormatFits(|drive|);
    var s := Formatted(drive, past);
    forall i | 0 <= i < 8
      ensures s[1024..1032][i] == Zero()
    {
      assert s[1024 + i] == FormattedSector(drive, past, 1024 + i);
    }
    FlattenZero(s[1024..1032]);
  }

  /** An empty root directory and nothing else. */
  ghost predicate EmptyVolume(d: Disk) {
    && |d.fat| == |d.data| == 2560 && |d.data[2]| == 4096
    && (forall c :: 0 <= c < 2560 ==> d.fat[c] == if c == 0 then 0x0FFF_FFF8 else if c <= 2 then 0x0FFF_FFFF else 0)
    && (forall k :: 0 <= k < 4096 ==> d.data[2][k] == 0)
  }

  lemma EmptyRoot(d: Disk)
    requires EmptyVolume(d)
    ensures forall j :: 0 <= j < 128 ==> Dir(d, 2)[j][0] == FREE
  {
  }

  lemma EmptyVolumeIsSound(d: Disk)
    requires EmptyVolume(d)
    ensures Sound(State(d, 2), 2, 4096, true)
  {
    var rank: map<nat, nat> := map[2 := 0];
    EmptyRoot(d);
    assert forall f :: !IsFile(d, rank, f);
    assert DirOk(d, 2, rank, 4096, 2);
    assert SoundBy(d, 2, 4096, 2, rank, true);
  }

  lemma EmptyVolumeIsOrderly(d: Disk)
    requires EmptyVolume(d)
    ensures Orderly(State(d, 2), 2, 4096)
  {
    var depth: map<nat, nat> := map[2 := 0];
    EmptyRoot(d);
    assert DirOk(d, 2, depth, 4096, 2);
    assert Ordered(d, 2, 4096, depth);
  }

  /** A freshly formatted drive mounts with the geometry written, equal FAT copies and a
      consistent, empty file system: two reserved clusters, the root, and all others free. */
  lemma FormattedIsSound(drive: seq<Sector>, past: Past)
    requires |drive| >= 21504
    ensures GeometryOf(Formatted(drive, past)[0]) == FORMAT
    ensures FORMAT.Fits(|drive|) && Mirrored(Formatted(drive, past), FORMAT)
    ensures EmptyVolume(DiskOf(Formatted(drive, past), FORMAT))
    ensures Kept(State(DiskOf(Formatted(drive, past), FORMAT), FORMAT.root), FORMAT.root, FORMAT.ClusterBytes(), true)
  {
    var s := Formatted(drive, past);
    assert s[0] == FormattedSector(drive, past, 0);
    MountReadsBack(FORMAT, past);
    FormattedMirrored(drive, past);
    FormatFits(|drive|);
    var d := DiskOf(s, FORMAT);
    forall c | 0 <= c < 2560
      ensures d.fat[c] == if c == 0 then END_MARK else if c <= 2 then END else 0
    {
      FormattedEntry(drive, past, c);
    }
    FormattedRoot(drive, past);
    EmptyVolumeIsSound(d);
    EmptyVolumeIsOrderly(d);
  }

  lemma KeptAnyway(s: State, root: u32, cb: nat, whole: bool)
    requires Kept(s, root, cb, true)
    ensures Kept(s, root, cb, whole)
  {
    WholeIsSound(s, root, cb, whole);
  }

  /** From a formatted drive and its root on, every run of calls that give rm no dot entry's name
      below the root stays consistent: in particular the chains of its files end, have no cycle,
      and share nothing; and where no copy filled the disk, every file has the clusters its size needs. */
  lemma FormattedRuns(drive: seq<Sector>, past: Past, states: seq<State>, ops: seq<FileOp>, i: nat, whole: bool)
    requires |drive| >= 21504 && FORMAT.Fits(|drive|)
    requires CarefulRun(states, 2, 4096, ops) && states[0] == State(DiskOf(Formatted(drive, past), FORMAT), 2) && i < |states|
    requires whole ==> NoneCutShort(states, 2, 4096, ops)
    ensures Kept(states[i], 2, 4096, whole)
    ensures exists rank :: SoundBy(states[i].disk, 2, 4096, states[i].cwd, rank, whole) && ChainsApart(states[i].disk, rank)
  {
    FormattedIsSound(drive, past);
    KeptAnyway(states[0], 2, 4096, whole);
    CarefulRunsKeep(states, 2, 4096, ops, i, whole);
    SoundHasChains(states[i].disk, 2, 4096, states[i].cwd, whole);
  }

  /** In every state such a run comes to, rm keeps the volume consistent if and only if the current
      directory is the root or the name is no dot entry's. */
  lemma FormattedRemovals(drive: seq<Sector>, past: Past, states: seq<State>, ops: seq<FileOp>, i: nat, name: seq<byte>)
    requires |drive| >= 21504 && FORMAT.Fits(|drive|)
    requires CarefulRun(states, 2, 4096, ops) && states[0] == State(DiskOf(Formatted(drive, past), FORMAT), 2) && i < |states|
    ensures var s := states[i];
      && Closed(s.disk.fat)
      && (Sound(State(RemovedByName(s.disk, s.cwd, name), s.cwd), 2, 4096, false) <==> s.cwd == 2 || DotFree(name))
  {
    FormattedRuns(drive, past, states, ops, i, false);
    CarelessBreaks(states[i], 2, 4096, name);
  }
}
