/** What stands in which byte: directory slots, the table, the clusters, as the Microsoft FAT
    Specification lays them out but for the order of a long name's slots. */
module OnDisk {
  import opened Words
  import opened Names
  import opened Slots
  import opened DirectoryEdit
  import opened DirectoryLaws
  import opened Volume
  import opened Tree

  // ---- words ----

  /** Words are stored with their lowest byte first. */
  lemma StoredLowFirst(b: seq<byte>, off: nat, w: u32)
    requires off + 4 <= |b|
    ensures var r := Put32(b, off, w);
      && WordOf(r[off], r[off + 1], r[off + 2], r[off + 3]) == w
      && forall i :: 0 <= i < |b| && !(off <= i < off + 4) ==> r[i] == b[i]
    ensures Get32(b, off) as int == WordOf(b[off], b[off + 1], b[off + 2], b[off + 3])
  {
    SplitWord(w);
  }

  lemma HalfStoredLowFirst(b: seq<byte>, off: nat, w: u16)
    requires off + 2 <= |b|
    ensures var r := Put16(b, off, w);
      && WordOf(r[off], r[off + 1], 0, 0) == w && forall i :: 0 <= i < |b| && i != off && i != off + 1 ==> r[i] == b[i]
    ensures Get16(b, off) as int == WordOf(b[off], b[off + 1], 0, 0)
  {
  }

  // ---- directory slots ----

  /** A short entry: alias, attribute, the cluster's halves at bytes 20 and 26, the size at 28. */
  predicate IsShortEntry(e: Slot, was: Slot, alias: seq<byte>, attr: byte, cluster: u32, size: u32) {
    && e[..11] == alias && e[11] == attr && e[12..20] == was[12..20] && e[22..26] == was[22..26]
    && WordOf(e[26], e[27], e[20], e[21]) == cluster && WordOf(e[28], e[29], e[30], e[31]) == size
  }

  /** The unit at place q of a long name: its character, 0 behind the last, then 0xFFFF. */
  predicate IsUnit(name: seq<byte>, q: nat, lo: byte, hi: byte) {
    if q < |name| then lo == name[q] && hi == 0 else if q == |name| then lo == 0 && hi == 0 else lo == 0xFF && hi == 0xFF
  }

  /** Slot p from the top of a long name in k slots. */
  predicate IsLongEntry(e: Slot, name: seq<byte>, k: nat, p: nat, sum: byte)
    requires p < k <= 31
  {
    && e[0] == k - p + (if p == 0 then 0x40 else 0)
    && e[11] == 0x0F && e[12] == 0 && e[13] == sum && e[26] == 0 && e[27] == 0
    && forall r :: 0 <= r < 13 ==> IsUnit(name, 13 * p + r, e[CHAR_BYTES[r]], e[CHAR_BYTES[r] + 1])
  }

  lemma LongSlotOnDisk(name: seq<byte>, k: nat, p: nat, sum: byte)
    requires p < k <= 31
    ensures IsLongEntry(LongSlot(name, k, p, sum), name, k, p, sum)
  {
    var e := LongSlot(name, k, p, sum);
    forall r | 0 <= r < 13
      ensures IsUnit(name, 13 * p + r, e[CHAR_BYTES[r]], e[CHAR_BYTES[r] + 1])
    {
      assert CharOf(CHAR_BYTES[r]) == Some(r) && CharOf(CHAR_BYTES[r] + 1) == Some(r);
    }
  }

  lemma ShortSlotOnDisk(was: Slot, alias: seq<byte>, attr: byte, cluster: u32, size: u32)
    requires |alias| == 11
    ensures IsShortEntry(ShortSlot(was, alias, attr, cluster, size), was, alias, attr, cluster, size)
  {
    SplitWord(size);
  }

  /** A name that fits 8.3 takes no long-name slot, any other as few as hold its characters. */
  lemma LongSlotsAreFewest(name: seq<byte>)
    ensures LongSlots(name) == 0 <==> name == [] || exists b: nat :: Fits83(name, b)
    ensures LongSlots(name) > 0 ==> 13 * (LongSlots(name) - 1) < |name| <= 13 * LongSlots(name)
  {
    ReadsBackIffFits(name);
  }

  /** An addition at slot i puts the slots of a long name there, top first. */
  lemma LongNameOnDisk(D: seq<Slot>, i: nat, name: seq<byte>, attr: byte, cluster: u32, size: u32, p: nat)
    requires p < LongSlots(name) <= 31 && i + LongSlots(name) < |D|
    ensures IsLongEntry(Written(D, i, name, attr, cluster, size)[i + p], name, LongSlots(name), p, Checksum(Short83(name)))
  {
    LongAt(D, i, name, attr, cluster, size, p);
    LongSlotOnDisk(name, LongSlots(name), p, Checksum(Short83(name)));
  }

  /** It puts the short entry with the alias behind them, and changes no other slot. */
  lemma AdditionOnDisk(D: seq<Slot>, i: nat, name: seq<byte>, attr: byte, cluster: u32, size: u32, s: nat)
    requires LongSlots(name) <= 31 && i + LongSlots(name) < |D| && s < |D| && !(i <= s < i + LongSlots(name))
    ensures var e := Written(D, i, name, attr, cluster, size)[s];
      if s == i + LongSlots(name) then IsShortEntry(e, D[s], Short83(name), attr, cluster, size) else e == D[s]
  {
    WrittenAt(D, i, name, attr, cluster, size, s);
    ShortSlotOnDisk(D[s], Short83(name), attr, cluster, size);
  }

  /** Slots from i on whose first byte is 0 or 0xE5, enough for the entry and its long name. */
  predicate HasFree(D: seq<Slot>, i: nat, k: nat) {
    i + k < |D| && forall t :: i <= t <= i + k ==> D[t][0] in {0, 0xE5}
  }

  /** The entry goes to the first place where there are such slots, and nowhere when there is none. */
  lemma PlaceIsFirst(D: seq<Slot>, name: seq<byte>, i: nat)
    ensures Place(D, name) == Some(i) <==> HasFree(D, i, LongSlots(name)) && forall q :: 0 <= q < i ==> !HasFree(D, q, LongSlots(name))
  {
    forall q: nat | q + LongSlots(name) < |D|
      ensures FreeRun(D, q, LongSlots(name)) == HasFree(D, q, LongSlots(name))
    {
    }
  }

  /** A removal writes 0xE5 over the first byte of the entry and of a long-name slot right above it
      that has the alias's checksum, and nothing else. */
  lemma RemovalOnDisk(D: seq<Slot>, i: nat, s: nat)
    requires i < |D| && s < |D|
    ensures Cleared(D, i)[s] ==
      if s == i || (s + 1 == i && D[s][11] == 0x0F && D[s][13] == Checksum(D[i][..11])) then D[s][0 := 0xE5] else D[s]
  {
  }

  /** So an entry with a long name, added and removed again, leaves all its long-name slots but the
      nearest taken for good. */
  lemma RemovalLeavesOrphans(D: seq<Slot>, i: nat, name: seq<byte>, attr: byte, cluster: u32, size: u32, s: nat)
    requires IsComponent(name) && attr != 0x0F && 0 < LongSlots(name) <= 31 && i + LongSlots(name) < |D| && s < |D|
    requires FreeRun(D, i, LongSlots(name))
    ensures Live(Cleared(Written(D, i, name, attr, cluster, size), i + LongSlots(name))[s]) <==>
      Live(D[s]) || i <= s < i + LongSlots(name) - 1
  {
    var E, k := Written(D, i, name, attr, cluster, size), LongSlots(name);
    WrittenSlots(D, i, name, attr, cluster, size);
    RemovalOnDisk(E, i + k, s);
  }

  /** Slot i of a directory cluster is its bytes from 32i on. */
  lemma SlotBytes(d: Disk, c: nat, i: nat, k: nat)
    requires c < |d.data| && 32 * i + 32 <= |d.data[c]| && k < 32
    ensures |Dir(d, c)| == |d.data[c]| / 32 && Dir(d, c)[i][k] == d.data[c][32 * i + k]
  {
  }

  /** A new directory: entries of size 0 for itself and for the one above, whose aliases are eleven
      spaces and a dot behind eight, and zeros. */
  lemma DotsOnDisk(self: u32, parent: u32, n: nat, i: nat, zero: Slot)
    requires n >= 2 && i < n && forall k :: 0 <= k < 32 ==> zero[k] == 0
    ensures var e := DotSlots(self, parent, n)[i];
      if i == 0 then IsShortEntry(e, zero, seq(11, _ => ' ' as int), 0x10, self, 0)
      else if i == 1 then IsShortEntry(e, zero, seq(11, k => if k == 8 then '.' as int else ' ' as int), 0x10, parent, 0)
      else e == zero
  {
    DotAliases();
    assert zero == seq(SLOT, _ => 0);
    assert DotSlots(self, parent, n)[i] == DotSlot(self, parent, i);
    ShortSlotOnDisk(zero, Short83(if i == 0 then DOT_NAME else DOTDOT_NAME), ATTR_DIRECTORY, if i == 0 then self else parent, 0);
  }

  lemma DotAliases()
    ensures Short83(DOT_NAME) == seq(11, _ => ' ' as int)
    ensures Short83(DOTDOT_NAME) == seq(11, k => if k == 8 then '.' as int else ' ' as int)
  {
    AliasOfDotted([], []);
    AliasOfDotted([], [DOT]);
    assert [] + [DOT] + [] == DOT_NAME && [] + [DOT] + [DOT] == DOTDOT_NAME;
    FieldsOf(Short83(DOT_NAME), [], []);
    FieldsOf(Short83(DOTDOT_NAME), [], [DOT]);
  }

  // ---- the table and the clusters ----

  /** The bytes of n sectors from lba on. */
  function BytesAt(s: seq<Sector>, lba: nat, n: nat): seq<byte>
    requires lba + n <= |s|
  {
    Flatten(s[lba..lba + n])
  }

  lemma {:induction false} ByteAt(s: seq<Sector>, lba: nat, n: nat, k: nat)
    requires lba + n <= |s| && k < SECTOR * n
    ensures BytesAt(s, lba, n)[k] == s[lba + k / 512][k % 512]
  {
    var i := k / SECTOR;
    FlattenAt(s[lba..lba + n], i);
    assert BytesAt(s, lba, n)[SECTOR * i..SECTOR * i + SECTOR][k % SECTOR] == BytesAt(s, lba, n)[k];
  }

  lemma TableByte(s: seq<Sector>, g: Geometry, c: nat, i: nat)
    requires g.fatStart + g.fatSectors <= |s| && 4 * c + 4 <= SECTOR * g.fatSectors && i < 4
    ensures c / 128 < g.fatSectors && BytesAt(s, g.fatStart, g.fatSectors)[4 * c + i] == s[g.fatStart + c / 128][c % 128 * 4 + i]
  {
    ByteAt(s, g.fatStart, g.fatSectors, 4 * c + i);
    assert 4 * c + i == SECTOR * (c / 128) + (c % 128 * 4 + i);
  }

  lemma TableFits(g: Geometry, drive: nat, c: nat)
    requires g.Fits(drive) && c < g.Clusters()
    ensures g.fatStart + g.fatSectors <= drive && 4 * c + 4 <= SECTOR * g.fatSectors
  {
    CopyInRange(g, 0, g.fatSectors - 1);
  }

  /** Entry c of the table is the word at byte 4c of its first copy, which begins behind the reserved
      sectors, without its top four bits. There is one for each cluster that the total number
      of sectors would make. */
  lemma TableOnDisk(s: seq<Sector>, g: Geometry, c: nat)
    requires g.Fits(|s|) && c < g.totalSectors / g.spc
    ensures g.fatStart + g.fatSectors <= |s| && 4 * c + 4 <= 512 * g.fatSectors
    ensures |DiskOf(s, g).fat| == |DiskOf(s, g).data| == g.totalSectors / g.spc
    ensures var b := BytesAt(s, g.fatStart, g.fatSectors);
      DiskOf(s, g).fat[c] == WordOf(b[4 * c], b[4 * c + 1], b[4 * c + 2], b[4 * c + 3]) % 0x1000_0000
  {
    TableFits(g, |s|, c);
    EntryOf(s, g, c);
    WordIs(s, g, c, s[g.fatStart + c / 128], c % 128 * 4);
  }

  lemma WordIs(s: seq<Sector>, g: Geometry, c: nat, r: Sector, off: nat)
    requires g.fatStart + g.fatSectors <= |s| && 4 * c + 4 <= SECTOR * g.fatSectors && off == c % 128 * 4
    requires c / 128 < g.fatSectors && r == s[g.fatStart + c / 128]
    ensures off + 4 <= 512
    ensures var b := BytesAt(s, g.fatStart, g.fatSectors);
      Get32(r, off) == WordOf(b[4 * c], b[4 * c + 1], b[4 * c + 2], b[4 * c + 3])
  {
    TableByte(s, g, c, 0);
    TableByte(s, g, c, 1);
    TableByte(s, g, c, 2);
    TableByte(s, g, c, 3);
  }

  /** Cluster c is the spc sectors that begin c-2 clusters behind the copies of the table. */
  lemma ClusterOnDisk(s: seq<Sector>, g: Geometry, c: nat)
    requires g.Fits(|s|) && 2 <= c < g.totalSectors / g.spc
    ensures var lba := g.fatStart + g.numFats * g.fatSectors + (c - 2) * g.spc;
      lba + g.spc <= |s| && DiskOf(s, g).data[c] == BytesAt(s, lba, g.spc)
  {
    ClusterInRange(g, c, |s|);
  }
}
