/** What additions and removals keep, and what they change, in one directory cluster. */
module DirectoryLaws {
  import opened Words
  import opened Names
  import opened Slots
  import opened Directory
  import opened DirectoryEdit

  // ---- the new entry ----

  lemma LongSlotFacts(component: seq<byte>, k: nat, p: nat, sum: byte)
    requires p < k <= 31
    ensures var e := LongSlot(component, k, p, sum);
      IsLfn(e) && Live(e) && Ord(e) == k - p && (Top(e) <==> p == 0) && e[13] == sum
  {
  }

  lemma LongSlotChar(component: seq<byte>, k: nat, p: nat, sum: byte, q: nat)
    requires p < k <= 31 && q < LFN_CHARS
    ensures Get16(LongSlot(component, k, p, sum), CharOff(q)) == UnitOf(component, LFN_CHARS * p + q)
  {
    assert CharOf(CharOff(q)) == Some(q) && CharOf(CharOff(q) + 1) == Some(q);
  }

  lemma ShortSlotFacts(was: Slot, component: seq<byte>, attr: byte, cluster: u32, size: u32)
    requires Ascii(component) && attr != ATTR_LFN
    ensures var e := ShortSlot(was, Short83(component), attr, cluster, size);
      Short(e) && Alias(e) == Short83(component) && e[11] == attr && FirstCluster(e) == cluster && FileSize(e) == size
  {
    var alias := Short83(component);
    var e0 := alias + [attr] + was[12..];
    var e1 := Put16(e0, 20, cluster / 0x1_0000);
    var e2 := Put16(e1, 26, cluster % 0x1_0000);
    GetPut32(e2, 28, size, 28);
    var e := Put32(e2, 28, size);
    assert e[..11] == alias;
    AliasStartsLive(component);
    assert e[0] == alias[0];
  }

  /** A component of at most 63 characters needs at most five long-name slots. */
  lemma FewLongSlots(component: seq<byte>)
    requires IsComponent(component)
    ensures var k := LongSlots(component);
      k <= 5 && (k > 0 ==> |component| <= LFN_CHARS * k) && (k == 0 ==> Readable(Short83(component)) == component)
  {
  }

  /** In a well-formed directory no run hangs above a free slot, whatever removal left there. */
  lemma NoRunAboveFree(D: seq<Slot>, i: nat)
    requires WellFormed(D) && i + 1 < |D| && !Live(D[i + 1])
    ensures !(IsLfn(D[i]) && Ord(D[i]) == 1)
  {
  }

  /** The name round trip: the entry just written reads back as the very component
      it was given, with its attribute, cluster and size. */
  lemma NewEntryReadsBack(D: seq<Slot>, i: nat, component: seq<byte>, attr: byte, cluster: u32, size: u32)
    requires WellFormed(D) && IsComponent(component) && attr != ATTR_LFN
    requires LongSlots(component) <= 31 && i + LongSlots(component) < |D| && FreeRun(D, i, LongSlots(component))
    ensures var E := Written(D, i, component, attr, cluster, size);
      var si := i + LongSlots(component);
      && Short(E[si]) && Topped(E, si)
      && EntryAt(E, si) == Entry(component, attr, cluster, size)
      && RunLen(E, si) == LongSlots(component)
      && Alias(E[si]) == Short83(component)
  {
    NewShort(D, i, component, attr, cluster, size);
    NewName(D, i, component, attr, cluster, size);
  }

  /** The short slot of the new entry. */
  lemma NewShort(D: seq<Slot>, i: nat, component: seq<byte>, attr: byte, cluster: u32, size: u32)
    requires IsComponent(component) && attr != ATTR_LFN
    requires LongSlots(component) <= 31 && i + LongSlots(component) < |D|
    ensures var e := Written(D, i, component, attr, cluster, size)[i + LongSlots(component)];
      Short(e) && Alias(e) == Short83(component) && e[11] == attr && FirstCluster(e) == cluster && FileSize(e) == size
  {
    var k := LongSlots(component);
    ShortSlotFacts(D[i + k], component, attr, cluster, size);
    assert Written(D, i, component, attr, cluster, size)[i + k] == SlotAfter(D, i, k, component, attr, cluster, size, i + k);
  }

  /** The name of the new entry. */
  lemma NewName(D: seq<Slot>, i: nat, component: seq<byte>, attr: byte, cluster: u32, size: u32)
    requires WellFormed(D) && IsComponent(component) && attr != ATTR_LFN
    requires LongSlots(component) <= 31 && i + LongSlots(component) < |D| && FreeRun(D, i, LongSlots(component))
    ensures var E := Written(D, i, component, attr, cluster, size);
      var si := i + LongSlots(component);
      Topped(E, si) && RunLen(E, si) == LongSlots(component) && FullName(E, si) == component
  {
    var k := LongSlots(component);
    var E := Written(D, i, component, attr, cluster, size);
    FewLongSlots(component);
    NewShort(D, i, component, attr, cluster, size);
    if k == 0 {
      NoRunAbove(D, i, component, attr, cluster, size);
    } else {
      NewRun(D, i, component, attr, cluster, size);
      forall q | 0 <= q < LFN_CHARS * k
        ensures Unit(E, i + k, k, q) == UnitOf(component, q)
      {
        NewUnit(D, i, component, attr, cluster, size, q);
      }
      TextOfName(E, i + k, k, 0, FULL_NAME_CAP, component);
    }
  }

  /** Without long-name slots of its own the new entry gets none from above. */
  lemma NoRunAbove(D: seq<Slot>, i: nat, component: seq<byte>, attr: byte, cluster: u32, size: u32)
    requires WellFormed(D) && LongSlots(component) == 0 && i < |D| && FreeRun(D, i, 0)
    ensures RunLen(Written(D, i, component, attr, cluster, size), i) == 0
  {
    var E := Written(D, i, component, attr, cluster, size);
    if i > 0 {
      assert E[i - 1] == SlotAfter(D, i, 0, component, attr, cluster, size, i - 1);
      NoRunAboveFree(D, i - 1);
      assert !Link(E, i, 1);
    }
  }

  /** The slots of an addition one by one. */
  lemma WrittenSlots(D: seq<Slot>, i: nat, component: seq<byte>, attr: byte, cluster: u32, size: u32)
    requires IsComponent(component) && attr != ATTR_LFN
    requires LongSlots(component) <= 31 && i + LongSlots(component) < |D|
    ensures var E := Written(D, i, component, attr, cluster, size);
      var si := i + LongSlots(component);
      && (forall s :: 0 <= s < i || si < s < |D| ==> E[s] == D[s])
      && (forall s :: i <= s < si ==>
           Live(E[s]) && IsLfn(E[s]) && Ord(E[s]) == si - s && E[s][13] == Checksum(Short83(component)) && (Top(E[s]) <==> s == i))
      && Short(E[si]) && Alias(E[si]) == Short83(component) && E[si][11] == attr
  {
    var k := LongSlots(component);
    var E := Written(D, i, component, attr, cluster, size);
    var si := i + k;
    forall s | i <= s < si
      ensures Live(E[s]) && IsLfn(E[s]) && Ord(E[s]) == si - s && E[s][13] == Checksum(Short83(component)) && (Top(E[s]) <==> s == i)
    {
      LongSlotFacts(component, k, s - i, Checksum(Short83(component)));
      assert E[s] == SlotAfter(D, i, k, component, attr, cluster, size, s);
    }
    assert E[si] == SlotAfter(D, i, k, component, attr, cluster, size, si);
    ShortSlotFacts(D[si], component, attr, cluster, size);
  }

  /** The slot t places above entry si is live, numbered t, and flagged just when t = k. */
  predicate Numbered(E: seq<Slot>, si: nat, k: nat, t: nat)
    requires t <= si < |E|
  {
    var e := Up(E, si, t);
    Live(e) && IsLfn(e) && Ord(e) == t && e[13] == Checksum(Alias(E[si])) && (Top(e) <==> t == k)
  }

  /** Slots numbered k down to 1 are accepted as one run. */
  lemma NumberedRun(E: seq<Slot>, si: nat, k: nat)
    requires 0 < k <= si < |E|
    requires forall t :: 1 <= t <= k ==> Numbered(E, si, k, t)
    ensures RunLen(E, si) == k && Topped(E, si)
  {
    forall t | 1 <= t <= k
      ensures Link(E, si, t) && (t < k ==> !Top(Up(E, si, t)))
    {
      assert Numbered(E, si, k, t);
    }
    assert Numbered(E, si, k, k);
    RunReaches(E, si, 0, k);
  }

  lemma NewSlotNumbered(D: seq<Slot>, E: seq<Slot>, i: nat, k: nat, component: seq<byte>, attr: byte, cluster: u32, size: u32, t: nat)
    requires IsComponent(component) && attr != ATTR_LFN
    requires 1 <= t <= k == LongSlots(component) <= 31 && i + k < |D| && E == Written(D, i, component, attr, cluster, size)
    ensures Numbered(E, i + k, k, t)
  {
    LongSlotFacts(component, k, k - t, Checksum(Short83(component)));
    NewShort(D, i, component, attr, cluster, size);
    LongAt(D, i, component, attr, cluster, size, k - t);
  }

  /** A long-name slot of the new entry. */
  lemma LongAt(D: seq<Slot>, i: nat, component: seq<byte>, attr: byte, cluster: u32, size: u32, p: nat)
    requires LongSlots(component) <= 31 && i + LongSlots(component) < |D| && p < LongSlots(component)
    ensures Written(D, i, component, attr, cluster, size)[i + p] ==
      LongSlot(component, LongSlots(component), p, Checksum(Short83(component)))
  {
    WrittenAt(D, i, component, attr, cluster, size, i + p);
    LongAfter(D, i, LongSlots(component), component, attr, cluster, size, i + p, p);
  }

  lemma WrittenAt(D: seq<Slot>, i: nat, component: seq<byte>, attr: byte, cluster: u32, size: u32, s: nat)
    requires LongSlots(component) <= 31 && i + LongSlots(component) < |D| && s < |D|
    ensures Written(D, i, component, attr, cluster, size)[s] ==
      SlotAfter(D, i, LongSlots(component), component, attr, cluster, size, s)
  {
  }

  lemma LongAfter(D: seq<Slot>, i: nat, k: nat, component: seq<byte>, attr: byte, cluster: u32, size: u32, s: nat, p: nat)
    requires k <= 31 && i + k < |D| && s == i + p && p < k
    ensures SlotAfter(D, i, k, component, attr, cluster, size, s) ==
      LongSlot(component, k, p, Checksum(Short83(component)))
  {
  }

  /** The long-name slots just written form the run of the short entry below them. */
  lemma NewRun(D: seq<Slot>, i: nat, component: seq<byte>, attr: byte, cluster: u32, size: u32)
    requires IsComponent(component) && attr != ATTR_LFN
    requires 0 < LongSlots(component) <= 31 && i + LongSlots(component) < |D|
    ensures var E := Written(D, i, component, attr, cluster, size);
      var k := LongSlots(component);
      RunLen(E, i + k) == k && Topped(E, i + k)
  {
    var k := LongSlots(component);
    var E := Written(D, i, component, attr, cluster, size);
    var si := i + k;
    forall t | 1 <= t <= k
      ensures Numbered(E, si, k, t)
    {
      NewSlotNumbered(D, E, i, k, component, attr, cluster, size, t);
    }
    NumberedRun(E, si, k);
  }

  lemma NewUnit(D: seq<Slot>, i: nat, component: seq<byte>, attr: byte, cluster: u32, size: u32, q: nat)
    requires 0 < LongSlots(component) <= 31 && i + LongSlots(component) < |D|
    requires q < LFN_CHARS * LongSlots(component)
    ensures var k := LongSlots(component);
      Unit(Written(D, i, component, attr, cluster, size), i + k, k, q) == UnitOf(component, q)
  {
    var k := LongSlots(component);
    var p, r := q / LFN_CHARS, q % LFN_CHARS;
    LongChar(D, i, component, attr, cluster, size, p, r);
    UnitIs(Written(D, i, component, attr, cluster, size), i, k, p, r, q, UnitOf(component, q));
  }

  lemma UnitIs(E: seq<Slot>, i: nat, k: nat, p: nat, r: nat, q: nat, u: u16)
    requires i + k < |E| && p < k && r < LFN_CHARS && q == LFN_CHARS * p + r && Get16(E[i + p], CharOff(r)) == u
    ensures Unit(E, i + k, k, q) == u
  {
    UnitAt(E, i + k, k, p, r);
  }

  /** A character in a long-name slot of the new entry. */
  lemma LongChar(D: seq<Slot>, i: nat, component: seq<byte>, attr: byte, cluster: u32, size: u32, p: nat, r: nat)
    requires LongSlots(component) <= 31 && i + LongSlots(component) < |D|
    requires p < LongSlots(component) && r < LFN_CHARS
    ensures Get16(Written(D, i, component, attr, cluster, size)[i + p], CharOff(r)) == UnitOf(component, LFN_CHARS * p + r)
  {
    LongSlotChar(component, LongSlots(component), p, Checksum(Short83(component)), r);
    LongAt(D, i, component, attr, cluster, size, p);
  }

  // ---- the other entries ----

  /** An addition leaves every other live entry its slot, its name and its matches. */
  lemma AddFrame(D: seq<Slot>, i: nat, component: seq<byte>, attr: byte, cluster: u32, size: u32, j: nat)
    requires WellFormed(D) && IsComponent(component) && attr != ATTR_LFN
    requires LongSlots(component) <= 31 && i + LongSlots(component) < |D| && FreeRun(D, i, LongSlots(component))
    requires j < |D| && Short(D[j])
    ensures var E := Written(D, i, component, attr, cluster, size);
      && E[j] == D[j] && Topped(E, j) && EntryAt(E, j) == EntryAt(D, j)
      && RunLen(E, j) == RunLen(D, j)
      && forall c :: Matches(E, j, c) == Matches(D, j, c)
  {
    var k := LongSlots(component);
    var E := Written(D, i, component, attr, cluster, size);
    forall s | 0 <= s < |D| && Live(D[s])
      ensures E[s] == D[s]
    {
      assert E[s] == SlotAfter(D, i, k, component, attr, cluster, size, s);
    }
    assert Topped(D, j);
    forall t | 1 <= t <= RunLen(D, j)
      ensures Up(D, j, t) == Up(E, j, t)
    {
      assert Live(Up(D, j, t));
    }
    if RunLen(D, j) == 0 && j > 0 {
      assert E[j - 1] == SlotAfter(D, i, k, component, attr, cluster, size, j - 1);
      assert !Link(D, j, 1);
      if i <= j - 1 <= i + k {
        assert j - 1 == i + k;
        ShortSlotFacts(D[j - 1], component, attr, cluster, size);
      }
      assert !Link(E, j, 1);
    }
    EntryFrame(D, E, j);
  }

  /** Everything from the first 0x00 on is free. */
  lemma FreeFromFirstZero(D: seq<Slot>, k: nat, z: nat)
    requires Packed(D) && z + k < |D| && D[z][0] == FREE
    ensures FreeRun(D, z, k)
  {
  }

  lemma AddKeepsPacked(D: seq<Slot>, component: seq<byte>, attr: byte, cluster: u32, size: u32)
    requires WellFormed(D) && IsComponent(component) && attr != ATTR_LFN
    requires Place(D, component).Some? && LongSlots(component) <= 31
    ensures Packed(Written(D, Place(D, component).value, component, attr, cluster, size))
  {
    var i, k := Place(D, component).value, LongSlots(component);
    var E := Written(D, i, component, attr, cluster, size);
    WrittenSlots(D, i, component, attr, cluster, size);
    forall z, j | 0 <= z < j < |E| && E[z][0] == FREE
      ensures !Live(E[j])
    {
      assert !(i <= z <= i + k);
      assert D[z][0] == FREE;
      if z < i {
        // the run would have been placed at z
        FreeFromFirstZero(D, k, z);
      }
    }
  }

  lemma AddKeepsAnchored(D: seq<Slot>, i: nat, component: seq<byte>, attr: byte, cluster: u32, size: u32)
    requires WellFormed(D) && IsComponent(component) && attr != ATTR_LFN
    requires LongSlots(component) <= 31 && i + LongSlots(component) < |D| && FreeRun(D, i, LongSlots(component))
    ensures Anchored(Written(D, i, component, attr, cluster, size))
  {
    var si := i + LongSlots(component);
    var E := Written(D, i, component, attr, cluster, size);
    WrittenSlots(D, i, component, attr, cluster, size);
    AllAnchored(D, E, i, si, Checksum(Short83(component)));
  }

  /** Old long-name slots stay anchored, and new ones are. */
  lemma AllAnchored(D: seq<Slot>, E: seq<Slot>, i: nat, si: nat, sum: byte)
    requires Anchored(D) && |E| == |D| && i <= si < |D| && Short(E[si]) && Checksum(Alias(E[si])) == sum
    requires forall s :: 0 <= s < i || si < s < |D| ==> E[s] == D[s]
    requires forall s :: i <= s <= si ==> !Live(D[s])
    requires forall s :: i <= s < si ==> Ord(E[s]) == si - s && E[s][13] == sum
    ensures Anchored(E)
  {
    forall t | 0 <= t < |E| && Live(E[t]) && IsLfn(E[t]) && Ord(E[t]) == 1
      ensures t + 1 < |E| && Short(E[t + 1]) && E[t][13] == Checksum(Alias(E[t + 1]))
    {
      if t < i || si < t {
        OldAnchored(D, E, i, si, t);
      } else {
        NewAnchored(E, i, si, sum, t);
      }
    }
  }

  /** Slots live before an addition are the same after it, and so is what they are anchored to. */
  lemma OldAnchored(D: seq<Slot>, E: seq<Slot>, i: nat, si: nat, t: nat)
    requires Anchored(D) && |E| == |D| && i <= si < |D| && t < |D|
    requires forall s :: 0 <= s < i || si < s < |D| ==> E[s] == D[s]
    requires forall s :: i <= s <= si ==> !Live(D[s])
    requires !(i <= t <= si) && Live(E[t]) && IsLfn(E[t]) && Ord(E[t]) == 1
    ensures t + 1 < |E| && Short(E[t + 1]) && E[t][13] == Checksum(Alias(E[t + 1]))
  {
    assert E[t] == D[t];
    assert Live(D[t + 1]);
  }

  lemma NewAnchored(E: seq<Slot>, i: nat, si: nat, sum: byte, t: nat)
    requires i <= t <= si < |E| && Short(E[si]) && Checksum(Alias(E[si])) == sum
    requires forall s :: i <= s < si ==> Ord(E[s]) == si - s && E[s][13] == sum
    requires IsLfn(E[t]) && Ord(E[t]) == 1
    ensures t + 1 < |E| && Short(E[t + 1]) && E[t][13] == Checksum(Alias(E[t + 1]))
  {
    if t < si {
      assert t + 1 == si;
    }
  }

  /** An addition keeps a directory well-formed. */
  lemma AddKeepsWellFormed(D: seq<Slot>, component: seq<byte>, attr: byte, cluster: u32, size: u32)
    requires WellFormed(D) && IsComponent(component) && attr != ATTR_LFN
    requires Place(D, component).Some? && LongSlots(component) <= 31
    ensures WellFormed(Written(D, Place(D, component).value, component, attr, cluster, size))
  {
    var i := Place(D, component).value;
    var E := Written(D, i, component, attr, cluster, size);
    AddKeepsPacked(D, component, attr, cluster, size);
    AddKeepsAnchored(D, i, component, attr, cluster, size);
    forall j | 0 <= j < |E| && Short(E[j])
      ensures Topped(E, j)
    {
      AddTopped(D, i, component, attr, cluster, size, j);
    }
  }

  lemma AddTopped(D: seq<Slot>, i: nat, component: seq<byte>, attr: byte, cluster: u32, size: u32, j: nat)
    requires WellFormed(D) && IsComponent(component) && attr != ATTR_LFN
    requires LongSlots(component) <= 31 && i + LongSlots(component) < |D| && FreeRun(D, i, LongSlots(component))
    requires j < |D| && Short(Written(D, i, component, attr, cluster, size)[j])
    ensures Topped(Written(D, i, component, attr, cluster, size), j)
    ensures j != i + LongSlots(component) ==> Short(D[j])
  {
    WrittenSlots(D, i, component, attr, cluster, size);
    if j == i + LongSlots(component) {
      NewEntryReadsBack(D, i, component, attr, cluster, size);
    } else {
      AddFrame(D, i, component, attr, cluster, size, j);
    }
  }

  /** In a well-formed directory the listing holds exactly the live short entries. */
  lemma ListingIs(D: seq<Slot>, m: map<nat, Entry>)
    requires Packed(D)
    requires forall j: nat :: j in m <==> j < |D| && Short(D[j])
    requires forall j: nat :: j in m ==> m[j] == EntryAt(D, j)
    ensures Listing(D) == m
  {
    ListedWhenShort(D);
    assert Listing(D).Keys == m.Keys;
  }

  lemma ListedWhenShort(D: seq<Slot>)
    requires Packed(D)
    ensures forall j: nat :: j in Listing(D) <==> j < |D| && Short(D[j])
  {
  }

  /** An addition changes the listing at the new entry's slot and nowhere else. */
  lemma AddChangesOneEntry(D: seq<Slot>, component: seq<byte>, attr: byte, cluster: u32, size: u32)
    requires WellFormed(D) && IsComponent(component) && attr != ATTR_LFN
    requires Place(D, component).Some? && LongSlots(component) <= 31
    ensures var i := Place(D, component).value;
      var si := i + LongSlots(component);
      && si !in Listing(D)
      && Listing(Written(D, i, component, attr, cluster, size)) ==
         Listing(D)[si := Entry(component, attr, cluster, size)]
  {
    var i := Place(D, component).value;
    var si := i + LongSlots(component);
    var E := Written(D, i, component, attr, cluster, size);
    AddKeepsWellFormed(D, component, attr, cluster, size);
    NewEntryReadsBack(D, i, component, attr, cluster, size);
    ListedWhenShort(D);
    assert !Live(D[si]);
    forall j: nat | j < |D| && Short(D[j])
      ensures Short(E[j]) && EntryAt(E, j) == EntryAt(D, j)
    {
      AddFrame(D, i, component, attr, cluster, size, j);
    }
    forall j: nat | j < |D| && Short(E[j])
      ensures j == si || Short(D[j])
    {
      AddTopped(D, i, component, attr, cluster, size, j);
    }
    ListingIs(E, Listing(D)[si := Entry(component, attr, cluster, size)]);
  }

  // ---- removal ----

  /** A removal leaves every other live entry its slot, its name and its matches. */
  lemma RemoveFrame(D: seq<Slot>, i: nat, j: nat)
    requires WellFormed(D) && i < |D| && Short(D[i])
    requires j < |D| && Short(D[j]) && j != i
    ensures var E := Cleared(D, i);
      && E[j] == D[j] && Topped(E, j) && EntryAt(E, j) == EntryAt(D, j)
      && RunLen(E, j) == RunLen(D, j)
      && forall c :: Matches(E, j, c) == Matches(D, j, c)
  {
    var E := Cleared(D, i);
    assert Topped(D, j);
    forall t | 1 <= t <= RunLen(D, j)
      ensures Up(D, j, t) == Up(E, j, t)
    {
      RunLinks(D, j, 0, t);
      if j - t == i - 1 && t > 1 {
        RunLinks(D, j, 0, t - 1);
      }
    }
    if RunLen(D, j) == 0 && j > 0 {
      assert !Link(D, j, 1);
      assert !Link(E, j, 1);
    }
    EntryFrame(D, E, j);
  }

  lemma RemoveKeepsWellFormed(D: seq<Slot>, i: nat)
    requires WellFormed(D) && i < |D| && Short(D[i])
    ensures WellFormed(Cleared(D, i))
  {
    var E := Cleared(D, i);
    forall j | 0 <= j < |E| && Short(E[j])
      ensures Topped(E, j)
    {
      RemoveFrame(D, i, j);
    }
    forall t | 0 <= t < |E| && Live(E[t]) && IsLfn(E[t]) && Ord(E[t]) == 1
      ensures t + 1 < |E| && Short(E[t + 1]) && E[t][13] == Checksum(Alias(E[t + 1]))
    {
      assert E[t] == D[t];
      assert t + 1 != i;
    }
    assert Anchored(E);
    forall z, j | 0 <= z < j < |E| && E[z][0] == FREE
      ensures !Live(E[j])
    {
      assert D[z][0] == FREE;
    }
    assert Packed(E);
  }

  /** A removal drops the removed entry from the listing and touches no other. */
  lemma RemoveDropsOneEntry(D: seq<Slot>, i: nat)
    requires WellFormed(D) && i < |D| && Short(D[i])
    ensures i in Listing(D) && Listing(Cleared(D, i)) == Listing(D) - {i}
  {
    var E := Cleared(D, i);
    RemoveKeepsWellFormed(D, i);
    ListedWhenShort(D);
    forall j: nat | j < |D| && Short(D[j]) && j != i
      ensures Short(E[j]) && EntryAt(E, j) == EntryAt(D, j)
    {
      RemoveFrame(D, i, j);
    }
    ListingIs(E, Listing(D) - {i});
  }

  // ---- whole runs ----

  datatype Op =
    | Add(component: seq<byte>, attr: byte, cluster: u32, size: u32)
    | Remove(name: seq<byte>)

  predicate ValidOp(op: Op) {
    match op
    case Add(component, attr, _, _) => IsComponent(component) && attr != ATTR_LFN
    case Remove(_) => true
  }

  /** One edit of the cluster; an addition that finds no room and a removal that finds no entry change nothing. */
  function Apply(D: seq<Slot>, op: Op): (E: seq<Slot>)
    requires ValidOp(op)
    ensures |E| == |D|
  {
    match op
    case Add(component, attr, cluster, size) =>
      (match Place(D, component)
       case None => D
       case Some(i) => if LongSlots(component) <= 31 then Written(D, i, component, attr, cluster, size) else D)
    case Remove(name) =>
      (match Lookup(D, name)
       case None => D
       case Some(i) => Cleared(D, i))
  }

  function ApplyAll(D: seq<Slot>, ops: seq<Op>): (E: seq<Slot>)
    requires forall o :: 0 <= o < |ops| ==> ValidOp(ops[o])
    ensures |E| == |D|
  {
    if ops == [] then D else Apply(ApplyAll(D, ops[..|ops| - 1]), ops[|ops| - 1])
  }

  /** The bookkeeping a caller could do: an addition records what it was given under
      the slot it was placed at, a removal forgets the entry it found. */
  function LedgerStep(ledger: map<nat, Entry>, D: seq<Slot>, op: Op): map<nat, Entry>
    requires ValidOp(op)
  {
    match op
    case Add(component, attr, cluster, size) =>
      (match Place(D, component)
       case None => ledger
       case Some(i) => ledger[i + LongSlots(component) := Entry(component, attr, cluster, size)])
    case Remove(name) =>
      (match Lookup(D, name)
       case None => ledger
       case Some(i) => ledger - {i})
  }

  function Ledger(D: seq<Slot>, ops: seq<Op>): map<nat, Entry>
    requires forall o :: 0 <= o < |ops| ==> ValidOp(ops[o])
  {
    if ops == [] then Listing(D) else
    var before := ops[..|ops| - 1];
    LedgerStep(Ledger(D, before), ApplyAll(D, before), ops[|ops| - 1])
  }

  lemma AddStep(D: seq<Slot>, component: seq<byte>, attr: byte, cluster: u32, size: u32)
    requires WellFormed(D) && IsComponent(component) && attr != ATTR_LFN
    ensures var op := Add(component, attr, cluster, size);
      WellFormed(Apply(D, op)) && Listing(Apply(D, op)) == LedgerStep(Listing(D), D, op)
  {
    FewLongSlots(component);
    if Place(D, component).Some? {
      var i := Place(D, component).value;
      AddStepAt(D, Written(D, i, component, attr, cluster, size), i, component, attr, cluster, size);
    }
  }

  lemma AddStepAt(D: seq<Slot>, E: seq<Slot>, i: nat, component: seq<byte>, attr: byte, cluster: u32, size: u32)
    requires WellFormed(D) && IsComponent(component) && attr != ATTR_LFN && Place(D, component) == Some(i) && LongSlots(component) <= 31
    requires E == Written(D, i, component, attr, cluster, size)
    ensures var op := Add(component, attr, cluster, size);
      WellFormed(Apply(D, op)) && Listing(Apply(D, op)) == LedgerStep(Listing(D), D, op)
  {
    AddKeepsWellFormed(D, component, attr, cluster, size);
    AddChangesOneEntry(D, component, attr, cluster, size);
    AddApplies(D, E, i, component, attr, cluster, size);
    AddRecorded(Listing(D), D, i, component, attr, cluster, size);
  }

  lemma AddApplies(D: seq<Slot>, E: seq<Slot>, i: nat, component: seq<byte>, attr: byte, cluster: u32, size: u32)
    requires IsComponent(component) && attr != ATTR_LFN && Place(D, component) == Some(i) && LongSlots(component) <= 31
    requires E == Written(D, i, component, attr, cluster, size)
    ensures Apply(D, Add(component, attr, cluster, size)) == E
  {
  }

  lemma AddRecorded(ledger: map<nat, Entry>, D: seq<Slot>, i: nat, component: seq<byte>, attr: byte, cluster: u32, size: u32)
    requires IsComponent(component) && attr != ATTR_LFN && Place(D, component) == Some(i)
    ensures LedgerStep(ledger, D, Add(component, attr, cluster, size)) ==
      ledger[i + LongSlots(component) := Entry(component, attr, cluster, size)]
  {
  }

  lemma RemoveStep(D: seq<Slot>, name: seq<byte>)
    requires WellFormed(D)
    ensures WellFormed(Apply(D, Remove(name))) && Listing(Apply(D, Remove(name))) == LedgerStep(Listing(D), D, Remove(name))
  {
    if Lookup(D, name).Some? {
      RemoveKeepsWellFormed(D, Lookup(D, name).value);
      RemoveDropsOneEntry(D, Lookup(D, name).value);
    }
  }

  lemma StepKeepsListing(D: seq<Slot>, op: Op)
    requires WellFormed(D) && ValidOp(op)
    ensures WellFormed(Apply(D, op))
    ensures Listing(Apply(D, op)) == LedgerStep(Listing(D), D, op)
  {
    match op
    case Add(component, attr, cluster, size) => AddStep(D, component, attr, cluster, size);
    case Remove(name) => RemoveStep(D, name);
  }

  /** Over every run of additions and removals the cluster stays well-formed and its
      listing is exactly the ledger: no edit ever disturbs an entry it did not name. */
  lemma {:induction false} RunsKeepListing(D: seq<Slot>, ops: seq<Op>)
    requires WellFormed(D)
    requires forall o :: 0 <= o < |ops| ==> ValidOp(ops[o])
    ensures WellFormed(ApplyAll(D, ops))
    ensures Listing(ApplyAll(D, ops)) == Ledger(D, ops)
  {
    if ops != [] {
      var before := ops[..|ops| - 1];
      RunsKeepListing(D, before);
      StepKeepsListing(ApplyAll(D, before), ops[|ops| - 1]);
    }
  }

  // ---- lookups after an edit ----

  /** A scan decides by its first visible match. */
  lemma LookupDecided(D: seq<Slot>, component: seq<byte>, j: nat)
    requires WellFormed(D) && j < |D| && Short(D[j])
    ensures Lookup(D, component) == Some(j) <==>
      Matches(D, j, component) && forall q :: 0 <= q < j && Short(D[q]) ==> !Matches(D, q, component)
  {
    LookupIsFirst(D, component, false, 0, j);
    assert NoneFreeBefore(D, j);
    assert forall q :: 0 <= q < j ==> (Wanted(D, component, false, q) <==> Short(D[q]) && Matches(D, q, component));
  }

  /** The names that lead to the entry made for a component: equal to it up to letter case,
      or of the same alias where the entry has no long name. */
  predicate NamesEntry(component: seq<byte>, c: seq<byte>) {
    if LongSlots(component) > 0 then LowerAll(component) == LowerAll(c) else Short83(component) == Short83(c)
  }

  lemma NewEntryMatches(D: seq<Slot>, i: nat, component: seq<byte>, attr: byte, cluster: u32, size: u32, c: seq<byte>)
    requires WellFormed(D) && IsComponent(component) && attr != ATTR_LFN
    requires LongSlots(component) <= 31 && i + LongSlots(component) < |D| && FreeRun(D, i, LongSlots(component))
    ensures Matches(Written(D, i, component, attr, cluster, size), i + LongSlots(component), c) <==> NamesEntry(component, c)
  {
    NewEntryReadsBack(D, i, component, attr, cluster, size);
  }

  /** Entry j is in both clusters, reads the same, and is matched by the same names. */
  ghost predicate SameEntry(D: seq<Slot>, E: seq<Slot>, j: nat)
    requires j < |D| == |E|
  {
    && Short(D[j]) && Short(E[j]) && EntryAt(E, j) == EntryAt(D, j)
    && forall c :: Matches(E, j, c) == Matches(D, j, c)
  }

  /** E holds the entries of D and one more, at slot si. */
  ghost predicate OneMore(D: seq<Slot>, E: seq<Slot>, si: nat) {
    && si < |D| == |E| && !Short(D[si]) && Short(E[si])
    && WellFormed(D) && WellFormed(E)
    && forall j: nat :: j < |D| && j != si && (Short(D[j]) || Short(E[j])) ==> SameEntry(D, E, j)
  }

  /** An addition is one more entry. */
  lemma AddIsOneMore(D: seq<Slot>, component: seq<byte>, attr: byte, cluster: u32, size: u32)
    requires WellFormed(D) && IsComponent(component) && attr != ATTR_LFN
    requires Place(D, component).Some? && LongSlots(component) <= 31
    ensures var i := Place(D, component).value;
      OneMore(D, Written(D, i, component, attr, cluster, size), i + LongSlots(component))
  {
    var i := Place(D, component).value;
    var si := i + LongSlots(component);
    var E := Written(D, i, component, attr, cluster, size);
    AddKeepsWellFormed(D, component, attr, cluster, size);
    NewShort(D, i, component, attr, cluster, size);
    assert !Live(D[si]);
    forall j: nat | j < |D| && j != si && (Short(D[j]) || Short(E[j]))
      ensures SameEntry(D, E, j)
    {
      OldEntrySame(D, i, component, attr, cluster, size, j);
    }
  }

  lemma OldEntrySame(D: seq<Slot>, i: nat, component: seq<byte>, attr: byte, cluster: u32, size: u32, j: nat)
    requires WellFormed(D) && IsComponent(component) && attr != ATTR_LFN
    requires LongSlots(component) <= 31 && i + LongSlots(component) < |D| && FreeRun(D, i, LongSlots(component))
    requires j < |D| && j != i + LongSlots(component)
    requires Short(D[j]) || Short(Written(D, i, component, attr, cluster, size)[j])
    ensures SameEntry(D, Written(D, i, component, attr, cluster, size), j)
  {
    if !Short(D[j]) {
      AddTopped(D, i, component, attr, cluster, size, j);
    }
    AddFrame(D, i, component, attr, cluster, size, j);
  }

  /** With one more entry, a name it matches that nothing matched before is found there. */
  lemma NewIsFound(D: seq<Slot>, E: seq<Slot>, si: nat, c: seq<byte>)
    requires OneMore(D, E, si) && Lookup(D, c) == None && Matches(E, si, c)
    ensures Lookup(E, c) == Some(si)
  {
    LookupFails(D, c, 0);
    forall q: nat | q < si && Short(E[q])
      ensures !Matches(E, q, c)
    {
      assert SameEntry(D, E, q);
      assert NoneFreeBefore(D, q);
    }
    LookupDecided(E, c, si);
  }

  lemma NothingIsFound(D: seq<Slot>, E: seq<Slot>, si: nat, c: seq<byte>)
    requires OneMore(D, E, si) && Lookup(D, c) == None && !Matches(E, si, c)
    ensures Lookup(E, c) == None
  {
    var r := Lookup(E, c);
    if r.Some? {
      assert SameEntry(D, E, r.value);
      LookupFails(D, c, 0);
    }
  }

  /** With one more entry, a name found before is found where it was exactly when the
      new entry does not come before and match it. */
  lemma OldIsFound(D: seq<Slot>, E: seq<Slot>, si: nat, c: seq<byte>, j: nat)
    requires OneMore(D, E, si) && Lookup(D, c) == Some(j)
    ensures SameEntry(D, E, j)
    ensures Lookup(E, c) == Some(j) <==> !(si < j && Matches(E, si, c))
  {
    assert SameEntry(D, E, j);
    LookupDecided(D, c, j);
    forall q: nat | q < j && Short(E[q]) && q != si
      ensures !Matches(E, q, c)
    {
      assert SameEntry(D, E, q);
    }
    LookupDecided(E, c, j);
  }

  /** Create then find: a component that matched nothing is found at the entry just
      written, with exactly the attribute, cluster and size it was given. */
  lemma CreatedIsFound(D: seq<Slot>, component: seq<byte>, attr: byte, cluster: u32, size: u32)
    requires WellFormed(D) && IsComponent(component) && attr != ATTR_LFN
    requires Place(D, component).Some? && LongSlots(component) <= 31
    requires Lookup(D, component) == None
    ensures var i := Place(D, component).value;
      var E := Written(D, i, component, attr, cluster, size);
      var si := i + LongSlots(component);
      Lookup(E, component) == Some(si) && EntryAt(E, si) == Entry(component, attr, cluster, size)
  {
    var i := Place(D, component).value;
    NewIsThere(D, Written(D, i, component, attr, cluster, size), component, attr, cluster, size);
    NewIsWhole(D, Written(D, i, component, attr, cluster, size), i, component, attr, cluster, size);
  }

  lemma NewIsWhole(D: seq<Slot>, E: seq<Slot>, i: nat, component: seq<byte>, attr: byte, cluster: u32, size: u32)
    requires WellFormed(D) && IsComponent(component) && attr != ATTR_LFN && LongSlots(component) <= 31
    requires Place(D, component) == Some(i) && E == Written(D, i, component, attr, cluster, size)
    ensures EntryAt(E, i + LongSlots(component)) == Entry(component, attr, cluster, size)
  {
    NewEntryReadsBack(D, i, component, attr, cluster, size);
  }

  lemma NewIsThere(D: seq<Slot>, E: seq<Slot>, component: seq<byte>, attr: byte, cluster: u32, size: u32)
    requires WellFormed(D) && IsComponent(component) && attr != ATTR_LFN
    requires Place(D, component).Some? && LongSlots(component) <= 31 && Lookup(D, component) == None
    requires E == Written(D, Place(D, component).value, component, attr, cluster, size)
    ensures Lookup(E, component) == Some(Place(D, component).value + LongSlots(component))
  {
    AddIsOneMore(D, component, attr, cluster, size);
    NewMatchesItself(D, Place(D, component).value, component, attr, cluster, size);
    NewIsFound(D, E, Place(D, component).value + LongSlots(component), component);
  }

  lemma NewMatchesItself(D: seq<Slot>, i: nat, component: seq<byte>, attr: byte, cluster: u32, size: u32)
    requires WellFormed(D) && IsComponent(component) && attr != ATTR_LFN
    requires LongSlots(component) <= 31 && i + LongSlots(component) < |D| && FreeRun(D, i, LongSlots(component))
    ensures Matches(Written(D, i, component, attr, cluster, size), i + LongSlots(component), component)
  {
    NewEntryMatches(D, i, component, attr, cluster, size, component);
  }

  /** Whether the new entry comes to stand in front of entry j for the name c: it lies
      in an earlier slot, and c names it. */
  predicate Shadows(D: seq<Slot>, component: seq<byte>, c: seq<byte>, j: nat)
    requires Place(D, component).Some?
  {
    Place(D, component).value + LongSlots(component) < j && NamesEntry(component, c)
  }

  /** Nothing a fresh component equals up to letter case was resolvable. */
  lemma FreshInAnyCase(D: seq<Slot>, component: seq<byte>, c: seq<byte>, j: nat)
    requires WellFormed(D) && Lookup(D, component) == None && Lookup(D, c) == Some(j)
    ensures LowerAll(component) != LowerAll(c)
  {
    LookupFails(D, component, 0);
    LookupIsFirst(D, c, false, 0, j);
    if LowerAll(component) == LowerAll(c) {
      CaseIs(component, c);
      MatchIgnoresCase(D, j, component, c);
    }
  }

  /** A component that named nothing shadows by its alias alone, and only when its entry
      has no long name. */
  lemma FreshShadows(D: seq<Slot>, component: seq<byte>, c: seq<byte>, j: nat)
    requires WellFormed(D) && Place(D, component).Some?
    requires Lookup(D, component) == None && Lookup(D, c) == Some(j)
    ensures Shadows(D, component, c, j) <==>
      LongSlots(component) == 0 && Place(D, component).value < j && Short83(c) == Short83(component)
  {
    FreshInAnyCase(D, component, c, j);
  }

  /** A name that resolved before an addition resolves to the same entry after it exactly
      when the new entry does not shadow it. */
  lemma OthersStillFound(D: seq<Slot>, component: seq<byte>, attr: byte, cluster: u32, size: u32, c: seq<byte>, j: nat)
    requires WellFormed(D) && IsComponent(component) && attr != ATTR_LFN
    requires Place(D, component).Some? && LongSlots(component) <= 31
    requires Lookup(D, c) == Some(j)
    ensures var E := Written(D, Place(D, component).value, component, attr, cluster, size);
      && EntryAt(E, j) == EntryAt(D, j)
      && (Lookup(E, c) == Some(j) <==> !Shadows(D, component, c, j))
  {
    var i := Place(D, component).value;
    AddIsOneMore(D, component, attr, cluster, size);
    OldIsFound(D, Written(D, i, component, attr, cluster, size), i + LongSlots(component), c, j);
    NewEntryMatches(D, i, component, attr, cluster, size, c);
  }

  /** Whether a lookup of c after the addition ends at the new entry. */
  predicate NewWins(D: seq<Slot>, component: seq<byte>, c: seq<byte>)
    requires Place(D, component).Some?
  {
    NamesEntry(component, c) &&
    match Lookup(D, c)
    case None => true
    case Some(j) => Place(D, component).value + LongSlots(component) < j
  }

  /** Every lookup after an addition: the new entry where it wins, else what was found before. */
  lemma LookupAfterAdd(D: seq<Slot>, E: seq<Slot>, component: seq<byte>, attr: byte, cluster: u32, size: u32, c: seq<byte>)
    requires WellFormed(D) && IsComponent(component) && attr != ATTR_LFN
    requires Place(D, component).Some? && LongSlots(component) <= 31
    requires E == Written(D, Place(D, component).value, component, attr, cluster, size)
    ensures Lookup(E, c) ==
      if NewWins(D, component, c) then Some(Place(D, component).value + LongSlots(component)) else Lookup(D, c)
  {
    var si := Place(D, component).value + LongSlots(component);
    AddIsOneMore(D, component, attr, cluster, size);
    NewEntryMatches(D, Place(D, component).value, component, attr, cluster, size, c);
    LookupWithOneMore(D, E, si, c);
  }

  lemma LookupWithOneMore(D: seq<Slot>, E: seq<Slot>, si: nat, c: seq<byte>)
    requires OneMore(D, E, si)
    ensures Lookup(E, c) ==
      if Matches(E, si, c) && (Lookup(D, c).Some? ==> si < Lookup(D, c).value) then Some(si) else Lookup(D, c)
  {
    var r := Lookup(D, c);
    if r == None {
      if Matches(E, si, c) {
        NewIsFound(D, E, si, c);
      } else {
        NothingIsFound(D, E, si, c);
      }
    } else {
      OldIsFound(D, E, si, c, r.value);
      if Matches(E, si, c) && si < r.value {
        NewOvertakes(D, E, si, c, r.value);
      }
    }
  }

  lemma NewOvertakes(D: seq<Slot>, E: seq<Slot>, si: nat, c: seq<byte>, j: nat)
    requires OneMore(D, E, si) && Lookup(D, c) == Some(j) && si < j && Matches(E, si, c)
    ensures Lookup(E, c) == Some(si)
  {
    LookupDecided(D, c, j);
    forall q: nat | q < si && Short(E[q])
      ensures !Matches(E, q, c)
    {
      assert SameEntry(D, E, q);
    }
    LookupDecided(E, c, si);
  }

  /** After a removal every name that resolved to another entry still resolves to it. */
  lemma RemovalKeepsLookups(D: seq<Slot>, i: nat, c: seq<byte>, j: nat)
    requires WellFormed(D) && i < |D| && Short(D[i])
    requires Lookup(D, c) == Some(j) && j != i
    ensures Lookup(Cleared(D, i), c) == Some(j)
  {
    var E := Cleared(D, i);
    RemoveKeepsWellFormed(D, i);
    RemoveFrame(D, i, j);
    LookupDecided(D, c, j);
    LookupDecided(E, c, j);
    forall q | 0 <= q < j && Short(E[q])
      ensures !Matches(E, q, c)
    {
      RemoveFrame(D, i, q);
    }
  }

  // ---- a creation that does shadow ----

  const NAME_A: seq<byte> := [65]                                                          // A
  const NAME_SHORT: seq<byte> := [70, 79, 79, 49, 50, 51, 52, 53]                          // FOO12345
  const NAME_LONG: seq<byte> := [70, 79, 79, 49, 50, 51, 52, 53, 54, 55, 56, 46, 84, 88, 84] // FOO12345678.TXT

  predicate ShadowingTriple(a: seq<byte>, long: seq<byte>, short: seq<byte>) {
    && IsComponent(a) && IsComponent(long) && IsComponent(short)
    && LongSlots(a) == 0 && LongSlots(short) == 0 && LongSlots(long) == 2
    && Short83(long) == Short83(short) && Short83(a) != Short83(long)
    && LowerAll(short) != LowerAll(long)
  }

  const FOO_ALIAS: seq<byte> := [70, 79, 79, 49, 50, 51, 52, 53, 32, 32, 32]

  /** Eight characters of base and no dot after them: the alias is the base in capitals. */
  lemma FullBase(name: seq<byte>)
    requires |name| >= 8 && forall i :: 0 <= i < 8 ==> name[i] != DOT
    requires |name| > 8 ==> name[8] != DOT
    ensures Short83(name) == UpperAll(name[..8]) + [SPACE, SPACE, SPACE]
  {
    BaseIsFull(name, 0);
  }

  lemma {:induction false} BaseIsFull(name: seq<byte>, j: nat)
    requires |name| >= 8 && j <= 8 && forall i :: 0 <= i < 8 ==> name[i] != DOT
    ensures BaseLen(name, j) == 8
    decreases 8 - j
  {
    if j < 8 {
      BaseIsFull(name, j + 1);
    }
  }

  lemma FooAliases()
    ensures Short83(NAME_SHORT) == FOO_ALIAS && Short83(NAME_LONG) == FOO_ALIAS
    ensures |NAME_SHORT| == 8 && |NAME_LONG| == 15
  {
    FullBase(NAME_SHORT);
    FullBase(NAME_LONG);
    assert NAME_LONG[..8] == NAME_SHORT[..8] == NAME_SHORT;
    assert UpperAll(NAME_SHORT) == NAME_SHORT;
  }

  lemma FooReads()
    ensures Readable(FOO_ALIAS) == NAME_SHORT
  {
    assert UntilSpace(FOO_ALIAS, 4, 8) == [50, 51, 52, 53];
    assert UntilSpace(FOO_ALIAS, 0, 8) == [70, 79, 79, 49] + UntilSpace(FOO_ALIAS, 4, 8);
  }

  lemma AReads()
    ensures Short83(NAME_A)[0] != FOO_ALIAS[0] && Readable(Short83(NAME_A)) == NAME_A
  {
    assert BaseLen(NAME_A, 0) == 1;
    assert Short83(NAME_A)[1] == SPACE;
    assert Short83(NAME_A)[0] == 65;
    assert Short83(NAME_A)[8] == SPACE;
  }

  /** Dots, digits and capitals make a component. */
  lemma PlainName(s: seq<byte>)
    requires 1 <= |s| <= 63 && forall i :: 0 <= i < |s| ==> SLASH < s[i] < 0x80 || s[i] == DOT
    ensures IsComponent(s)
  {
  }

  lemma PlainNames()
    ensures IsComponent(NAME_A) && IsComponent(NAME_LONG) && IsComponent(NAME_SHORT)
  {
    PlainName(NAME_A);
    PlainName(NAME_LONG);
    PlainName(NAME_SHORT);
  }

  lemma TripleFrom(a: seq<byte>, long: seq<byte>, short: seq<byte>, alias: seq<byte>)
    requires IsComponent(a) && IsComponent(long) && IsComponent(short) && |alias| == 11
    requires Readable(Short83(a)) == a && Short83(long) == alias && Short83(short) == alias && Readable(alias) == short
    requires Short83(a)[0] != alias[0] && |long| == 15 && |short| == 8
    ensures ShadowingTriple(a, long, short)
  {
    assert |LowerAll(short)| != |LowerAll(long)|;
  }

  /** FOO12345 needs no long name, and FOO12345678.TXT gets the same alias. */
  lemma ShadowingNames()
    ensures ShadowingTriple(NAME_A, NAME_LONG, NAME_SHORT)
  {
    FooAliases();
    FooReads();
    AReads();
    PlainNames();
    TripleFrom(NAME_A, NAME_LONG, NAME_SHORT, FOO_ALIAS);
  }

  function EmptySlots(n: nat): (D: seq<Slot>)
    ensures |D| == n && forall i :: 0 <= i < n ==> D[i][0] == FREE
  {
    seq(n, _ => seq(32, _ => FREE))
  }

  lemma FirstAdd(a: seq<byte>, long: seq<byte>, short: seq<byte>, D: seq<Slot>, E: seq<Slot>)
    requires ShadowingTriple(a, long, short)
    requires |D| >= 4 && D == EmptySlots(|D|) && E == Apply(D, Add(a, ATTR_ARCHIVE, 0, 0))
    ensures WellFormed(E) && Lookup(E, a) == Some(0) && Lookup(E, long) == None
    ensures Short(E[0]) && forall q :: 1 <= q < |E| ==> E[q][0] == FREE
  {
    EmptyDirectory(D);
    AddToEmpty(a, D, E);
    NewEntryMatches(D, 0, a, ATTR_ARCHIVE, 0, 0, long);
  }

  lemma AddToEmpty(a: seq<byte>, D: seq<Slot>, E: seq<Slot>)
    requires IsComponent(a) && LongSlots(a) == 0 && WellFormed(D) && |D| >= 4
    requires D == EmptySlots(|D|) && E == Apply(D, Add(a, ATTR_ARCHIVE, 0, 0))
    ensures WellFormed(E) && Lookup(E, a) == Some(0) && E == Written(D, 0, a, ATTR_ARCHIVE, 0, 0) && FreeRun(D, 0, 0)
    ensures Short(E[0]) && forall q :: 1 <= q < |E| ==> E[q][0] == FREE
  {
    assert FreeRun(D, 0, 0);
    assert Place(D, a) == Some(0);
    AddKeepsWellFormed(D, a, ATTR_ARCHIVE, 0, 0);
    assert Lookup(D, a) == None;
    CreatedIsFound(D, a, ATTR_ARCHIVE, 0, 0);
    WrittenSlots(D, 0, a, ATTR_ARCHIVE, 0, 0);
  }

  /** A directory whose one entry is that of `long`, in slot 3. */
  predicate LongAlone(D: seq<Slot>, long: seq<byte>, entry: Entry) {
    && |D| >= 4 && WellFormed(D) && Lookup(D, long) == Some(3) && RunLen(D, 3) == 2
    && EntryAt(D, 3) == entry && entry.name == long && Alias(D[3]) == Short83(long)
  }

  lemma SecondAdd(a: seq<byte>, long: seq<byte>, short: seq<byte>, E: seq<Slot>, F: seq<Slot>, attr: byte, cluster: u32, size: u32)
    requires ShadowingTriple(a, long, short) && attr != ATTR_LFN
    requires |E| >= 4 && WellFormed(E) && Lookup(E, a) == Some(0) && Lookup(E, long) == None
    requires Short(E[0]) && forall q :: 1 <= q < |E| ==> E[q][0] == FREE
    requires F == Apply(E, Add(long, attr, cluster, size))
    ensures LongAlone(F, long, Entry(long, attr, cluster, size)) && Lookup(F, a) == Some(0)
    ensures forall q :: 0 <= q < |F| && Short(F[q]) ==> q == 0 || q == 3
  {
    assert !FreeRun(E, 0, 2) && FreeRun(E, 1, 2);
    assert FirstFit(E, 2, 1) == Some(1);
    assert Place(E, long) == Some(1);
    AddKeepsWellFormed(E, long, attr, cluster, size);
    CreatedIsFound(E, long, attr, cluster, size);
    NewEntryReadsBack(E, 1, long, attr, cluster, size);
    WrittenSlots(E, 1, long, attr, cluster, size);
    OthersStillFound(E, long, attr, cluster, size, a, 0);
  }

  lemma ThenRemove(a: seq<byte>, long: seq<byte>, short: seq<byte>, F: seq<Slot>, G: seq<Slot>, entry: Entry)
    requires ShadowingTriple(a, long, short) && LongAlone(F, long, entry) && Lookup(F, a) == Some(0)
    requires forall q :: 0 <= q < |F| && Short(F[q]) ==> q == 0 || q == 3
    requires G == Apply(F, Remove(a))
    ensures LongAlone(G, long, entry) && forall q :: 0 <= q < |G| && Short(G[q]) ==> q == 3
    ensures Lookup(G, short) == None && Place(G, short) == Some(0)
  {
    RemoveKeepsWellFormed(F, 0);
    RemovalKeepsLookups(F, 0, long, 3);
    RemoveFrame(F, 0, 3);
    FirstRemoved(F, G);
    assert !Matches(G, 3, short);
  }

  lemma FirstRemoved(F: seq<Slot>, G: seq<Slot>)
    requires |F| >= 4 && G == Cleared(F, 0) && forall q :: 0 <= q < |F| && Short(F[q]) ==> q == 0 || q == 3
    ensures (forall q :: 0 <= q < |G| && Short(G[q]) ==> q == 3) && FreeRun(G, 0, 0)
  {
  }

  /** In an empty directory of n slots: add `a`, add `long`, remove `a`. */
  function Gapped(n: nat, a: seq<byte>, long: seq<byte>, attr: byte, cluster: u32, size: u32): (G: seq<Slot>)
    requires IsComponent(a) && IsComponent(long) && attr != ATTR_LFN
    ensures |G| == n
  {
    Apply(Apply(Apply(EmptySlots(n), Add(a, ATTR_ARCHIVE, 0, 0)), Add(long, attr, cluster, size)), Remove(a))
  }

  lemma GappedIs(n: nat, a: seq<byte>, long: seq<byte>, short: seq<byte>, attr: byte, cluster: u32, size: u32)
    requires ShadowingTriple(a, long, short) && n >= 4 && attr != ATTR_LFN
    ensures var G := Gapped(n, a, long, attr, cluster, size);
      && LongAlone(G, long, Entry(long, attr, cluster, size)) && (forall q :: 0 <= q < |G| && Short(G[q]) ==> q == 3)
      && Lookup(G, short) == None && Place(G, short) == Some(0)
  {
    var D := EmptySlots(n);
    var E := Apply(D, Add(a, ATTR_ARCHIVE, 0, 0));
    var F := Apply(E, Add(long, attr, cluster, size));
    FirstAdd(a, long, short, D, E);
    SecondAdd(a, long, short, E, F, attr, cluster, size);
    ThenRemove(a, long, short, F, Apply(F, Remove(a)), Entry(long, attr, cluster, size));
  }

  /** So a name can stop resolving to its entry without being removed: add A, add
      FOO12345678.TXT, remove A, add FOO12345, in an empty directory of four slots.
      Slot 3 keeps its entry, but a lookup for FOO12345678.TXT no longer reaches it. */
  lemma ShadowingHappens()
    ensures IsComponent(NAME_A) && IsComponent(NAME_SHORT) && IsComponent(NAME_LONG)
    ensures var G := Gapped(4, NAME_A, NAME_LONG, ATTR_ARCHIVE, 3, 7);
      var H := Apply(G, Add(NAME_SHORT, ATTR_ARCHIVE, 4, 9));
      && Lookup(G, NAME_SHORT) == None && Lookup(G, NAME_LONG) == Some(3)
      && EntryAt(H, 3) == EntryAt(G, 3) && Lookup(H, NAME_LONG) != Some(3)
  {
    ShadowingNames();
    Shadowing(NAME_A, NAME_LONG, NAME_SHORT);
  }

  lemma Shadowing(a: seq<byte>, long: seq<byte>, short: seq<byte>)
    requires ShadowingTriple(a, long, short)
    ensures var G := Gapped(4, a, long, ATTR_ARCHIVE, 3, 7);
      var H := Apply(G, Add(short, ATTR_ARCHIVE, 4, 9));
      && Lookup(G, short) == None && Lookup(G, long) == Some(3)
      && EntryAt(H, 3) == EntryAt(G, 3) && Lookup(H, long) != Some(3)
  {
    GappedIs(4, a, long, short, ATTR_ARCHIVE, 3, 7);
    OthersStillFound(Gapped(4, a, long, ATTR_ARCHIVE, 3, 7), short, ATTR_ARCHIVE, 4, 9, long, 3);
  }
}
