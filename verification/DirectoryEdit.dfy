/** `dir_add_entry` and the slot clearing of `fat32_rm`, on the slots of one cluster. */
module DirectoryEdit {
  import opened Words
  import opened Names
  import opened Slots

  // ---- what an addition writes ----

  /** How many long-name slots a component needs: none when its alias reads back as itself. */
  function LongSlots(component: seq<byte>): nat {
    if Readable(Short83(component)) == component then 0 else (|component| + LFN_CHARS - 1) / LFN_CHARS
  }

  /** Which character a byte of a long-name slot belongs to; none for bytes 0, 11-13, 26 and 27. */
  function CharOf(b: nat): Option<nat>
    requires b < 32
  {
    if 1 <= b <= 10 then Some((b - 1) / 2)
    else if 14 <= b <= 25 then Some(5 + (b - 14) / 2)
    else if 28 <= b then Some(11 + (b - 28) / 2)
    else None
  }

  /** Long-name slot p of k, counted from the top: characters 13p to 13p+12, sequence number k-p. */
  function LongSlot(component: seq<byte>, k: nat, p: nat, sum: byte): Slot
    requires p < k <= 31
  {
    seq(32, b requires 0 <= b < 32 =>
      if b == 0 then (if p == 0 then 0x40 else 0) + (k - p)
      else if b == 11 then ATTR_LFN
      else if b == 13 then sum
      else match CharOf(b)
        case None => 0
        case Some(j) =>
          var u := UnitOf(component, LFN_CHARS * p + j);
          if b % 2 == (if j < 5 then 1 else 0) then u % 0x100 else u / 0x100)
  }

  /** A short entry written over slot `was`; bytes 12-19 and 22-25 keep what was there. */
  function ShortSlot(was: Slot, alias: seq<byte>, attr: byte, cluster: u32, size: u32): Slot
    requires |alias| == 11
  {
    Put32(Put16(Put16(alias + [attr] + was[12..], 20, cluster / 0x1_0000), 26, cluster % 0x1_0000), 28, size)
  }

  /** Slot s once k long-name slots are written at i and the short entry at i+k. */
  function SlotAfter(D: seq<Slot>, i: nat, k: nat, component: seq<byte>, attr: byte, cluster: u32, size: u32, s: nat): Slot
    requires k <= 31 && i + k < |D| && s < |D|
  {
    if i <= s < i + k then LongSlot(component, k, s - i, Checksum(Short83(component)))
    else if s == i + k then ShortSlot(D[s], Short83(component), attr, cluster, size)
    else D[s]
  }

  /** The slots with component's entry written at slot i+k and its long name at i up to i+k-1. */
  function Written(D: seq<Slot>, i: nat, component: seq<byte>, attr: byte, cluster: u32, size: u32): (E: seq<Slot>)
    requires LongSlots(component) <= 31 && i + LongSlots(component) < |D|
    ensures |E| == |D|
  {
    seq(|D|, s requires 0 <= s < |D| => SlotAfter(D, i, LongSlots(component), component, attr, cluster, size, s))
  }

  predicate FreeRun(D: seq<Slot>, i: nat, k: nat)
    requires i + k < |D|
  {
    forall t :: i <= t <= i + k ==> !Live(D[t])
  }

  /** The first run of k+1 free slots at or after slot i. */
  function FirstFit(D: seq<Slot>, k: nat, i: nat): (r: Option<nat>)
    ensures r.Some? ==> i <= r.value && r.value + k < |D| && FreeRun(D, r.value, k)
    ensures r.Some? ==> forall q :: i <= q < r.value ==> !FreeRun(D, q, k)
    ensures r.None? ==> forall q :: i <= q && q + k < |D| ==> !FreeRun(D, q, k)
    decreases |D| - i
  {
    if i + k >= |D| then None
    else if FreeRun(D, i, k) then Some(i)
    else FirstFit(D, k, i + 1)
  }

  /** Where `dir_add_entry` puts the run of a component. */
  function Place(D: seq<Slot>, component: seq<byte>): (r: Option<nat>)
    ensures r.Some? ==> r.value + LongSlots(component) < |D|
  {
    FirstFit(D, LongSlots(component), 0)
  }

  method DirAddEntry(entries: array<Slot>, component: seq<byte>, alias: seq<byte>,
                     attr: byte, cluster: u32, size: u32) returns (ok: bool)
    requires IsComponent(component) && alias == Short83(component)
    modifies entries
    ensures ok <==> Place(old(entries[..]), component).Some?
    ensures entries[..] == (
      if ok then Written(old(entries[..]), Place(old(entries[..]), component).value, component, attr, cluster, size)
      else old(entries[..]))
  {
    ghost var D := entries[..];
    var len := |component|;
    var k := 0;
    var readable := AliasReadable(alias, 80);
    if readable != component && len > 0 {
      k := (len + LFN_CHARS - 1) / LFN_CHARS;
    }
    assert k == LongSlots(component);
    var i := 0;
    while i + k < entries.Length
      invariant FirstFit(D, k, 0) == FirstFit(D, k, i)
      invariant entries[..] == D
    {
      var freeRun := IsFreeRun(entries, i, k);
      if freeRun {
        WriteEntry(entries, i, k, component, alias, attr, cluster, size);
        return true;
      }
      i := i + 1;
    }
    return false;
  }

  method WriteEntry(entries: array<Slot>, i: nat, k: nat, component: seq<byte>, alias: seq<byte>,
                    attr: byte, cluster: u32, size: u32)
    requires alias == Short83(component)
    requires k == LongSlots(component) <= 31 && i + k < entries.Length
    modifies entries
    ensures entries[..] == Written(old(entries[..]), i, component, attr, cluster, size)
  {
    ghost var D := entries[..];
    if k > 0 {
      WriteRun(entries, i, k, component, alias);
    }
    assert entries[i + k] == D[i + k];
    WriteShort(entries, i + k, alias, attr, cluster, size);
    ghost var E := Written(D, i, component, attr, cluster, size);
    forall s | 0 <= s < |D|
      ensures entries[..][s] == E[s]
    {
      assert E[s] == SlotAfter(D, i, k, component, attr, cluster, size, s);
    }
  }

  method IsFreeRun(entries: array<Slot>, i: nat, k: nat) returns (free: bool)
    requires i + k < entries.Length
    ensures free == FreeRun(entries[..], i, k)
  {
    var t := 0;
    while t <= k
      invariant t <= k + 1
      invariant forall q :: i <= q < i + t ==> !Live(entries[q])
    {
      var first := entries[i + t][0];
      if first != FREE && first != DELETED {
        assert Live(entries[..][i + t]);
        return false;
      }
      t := t + 1;
    }
    return true;
  }

  /** The long-name slots of a component, from slot i down. */
  method WriteRun(entries: array<Slot>, i: nat, k: nat, component: seq<byte>, alias: seq<byte>)
    requires 0 < k <= 31 && i + k < entries.Length
    requires |alias| == 11
    modifies entries
    ensures forall s :: 0 <= s < i || i + k <= s < entries.Length ==> entries[s] == old(entries[s])
    ensures forall s :: i <= s < i + k ==> entries[s] == LongSlot(component, k, s - i, Checksum(alias))
  {
    var sum := LfnChecksum(alias);
    assert alias[..11] == alias;
    for p := 0 to k
      invariant forall s :: 0 <= s < i || i + p <= s < entries.Length ==> entries[s] == old(entries[s])
      invariant forall s :: i <= s < i + p ==> entries[s] == LongSlot(component, k, s - i, sum)
    {
      entries[i + p] := FillLongSlot(component, k, p, sum);
    }
  }

  method FillLongSlot(component: seq<byte>, k: nat, p: nat, sum: byte) returns (e: Slot)
    requires p < k <= 31
    ensures e == LongSlot(component, k, p, sum)
  {
    e := seq(32, _ => 0);
    e := e[0 := (if p == 0 then 0x40 else 0) + (k - p)];
    e := e[11 := ATTR_LFN];
    e := e[13 := sum];
    ghost var full := LongSlot(component, k, p, sum);
    for j := 0 to LFN_CHARS
      invariant forall b :: 0 <= b < 32 && (CharOf(b).None? || CharOf(b).value < j) ==> e[b] == full[b]
    {
      var ci := p * LFN_CHARS + j;
      var v: u16 := 0xFFFF;
      if ci < |component| {
        v := component[ci];
      } else if ci == |component| {
        v := 0x0000;
      }
      assert v == UnitOf(component, LFN_CHARS * p + j);
      e := e[CharOff(j) := v % 0x100][CharOff(j) + 1 := v / 0x100];
    }
  }

  method WriteShort(entries: array<Slot>, si: nat, alias: seq<byte>, attr: byte, cluster: u32, size: u32)
    requires si < entries.Length && |alias| == 11
    modifies entries
    ensures entries[..] == old(entries[..])[si := ShortSlot(old(entries[si]), alias, attr, cluster, size)]
  {
    ghost var was := entries[si];
    var e := entries[si];
    for j := 0 to 11
      invariant |e| == 32
      invariant forall b :: 0 <= b < 32 ==> e[b] == if b < j then alias[b] else was[b]
    {
      e := e[j := alias[j]];
    }
    e := e[11 := attr];
    assert e == alias + [attr] + was[12..];
    e := Put16(e, 20, cluster / 0x1_0000);
    e := Put16(e, 26, cluster % 0x1_0000);
    e := Put32(e, 28, size);
    entries[si] := e;
  }

  // ---- what a removal clears ----

  /** The short slot of entry i marked deleted, and the long-name slot directly above
      it when it carries the same checksum. Nothing higher is cleared: the flag that
      should end the run is tested after the byte holding it is overwritten. */
  function Cleared(D: seq<Slot>, i: nat): (E: seq<Slot>)
    requires i < |D|
    ensures |E| == |D|
  {
    var E := D[i := D[i][0 := DELETED]];
    if i > 0 && IsLfn(D[i - 1]) && D[i - 1][13] == Checksum(Alias(D[i])) then
      E[i - 1 := D[i - 1][0 := DELETED]]
    else E
  }

  method MarkDeleted(entries: array<Slot>, i: nat)
    requires i < entries.Length
    modifies entries
    ensures entries[..] == Cleared(old(entries[..]), i)
  {
    ghost var D := entries[..];
    var sum := LfnChecksum(entries[i]);
    entries[i] := entries[i][0 := DELETED];
    var t := i;
    var ended := false;
    while t > 0 && !ended
      invariant if ended then entries[..] == Cleared(D, i) else t == i && entries[..] == D[i := D[i][0 := DELETED]]
      decreases t, !ended
    {
      if entries[t - 1][11] != ATTR_LFN || entries[t - 1][13] != sum {
        ended := true;
      } else {
        t := t - 1;
        entries[t] := entries[t][0 := DELETED];
        ended := (entries[t][0] / 0x40) % 2 == 1;
      }
    }
  }
}
