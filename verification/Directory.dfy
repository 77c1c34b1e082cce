/** One directory cluster under additions and removals.

    The slots of a cluster are edited in place. Removal clears the short slot and
    only the long-name slot next to it, so orphaned long-name slots stay behind;
    `WellFormed` says what nevertheless holds in every reachable cluster. */
module Directory {
  import opened Words
  import opened Names
  import opened Slots

  datatype Entry = Entry(name: seq<byte>, attr: byte, cluster: u32, size: u32)

  // ---- what a directory means ----

  predicate NoneFreeBefore(D: seq<Slot>, j: nat)
    requires j <= |D|
  {
    forall i :: 0 <= i < j ==> D[i][0] != FREE
  }

  /** A scan, which stops at the first 0x00, reaches entry j. */
  predicate Visible(D: seq<Slot>, j: nat)
    requires j < |D|
  {
    Short(D[j]) && NoneFreeBefore(D, j)
  }

  function EntryAt(D: seq<Slot>, j: nat): Entry
    requires j < |D|
  {
    Entry(FullName(D, j), D[j][11], FirstCluster(D[j]), FileSize(D[j]))
  }

  /** The entries of a directory by slot: its abstract value. */
  function Listing(D: seq<Slot>): map<nat, Entry> {
    map j: nat | j < |D| && Visible(D, j) :: EntryAt(D, j)
  }

  /** The first entry from slot i on that `component` names. */
  function LookupFrom(D: seq<Slot>, component: seq<byte>, dirsOnly: bool, i: nat): (r: Option<nat>)
    requires i <= |D|
    ensures r.Some? ==> i <= r.value < |D| && Short(D[r.value]) && Matches(D, r.value, component)
    ensures r.Some? && dirsOnly ==> IsDirectory(D[r.value])
    decreases |D| - i
  {
    if i == |D| || D[i][0] == FREE then None
    else if Short(D[i]) && (dirsOnly ==> IsDirectory(D[i])) && Matches(D, i, component) then Some(i)
    else LookupFrom(D, component, dirsOnly, i + 1)
  }

  function Lookup(D: seq<Slot>, component: seq<byte>): Option<nat> {
    LookupFrom(D, component, false, 0)
  }

  /** The directory scan of `_fat32_find_entry` (dirsOnly = false) and of
      `_fat32_create_entry`'s intermediate step (dirsOnly = true). */
  method FindSlot(entries: array<Slot>, component: seq<byte>, dirsOnly: bool) returns (r: Option<nat>)
    ensures r == LookupFrom(entries[..], component, dirsOnly, 0)
  {
    ghost var D := entries[..];
    var i := 0;
    while i < entries.Length
      invariant i <= entries.Length
      invariant LookupFrom(D, component, dirsOnly, 0) == LookupFrom(D, component, dirsOnly, i)
    {
      if entries[i][0] == FREE { break; }
      if entries[i][0] != DELETED && entries[i][11] != ATTR_LFN && (!dirsOnly || IsDirectory(entries[i])) {
        var m := EntryMatches(entries, i, component);
        if m {
          return Some(i);
        }
      }
      i := i + 1;
    }
    return None;
  }

  /** An entry the scan is after. */
  predicate Wanted(D: seq<Slot>, component: seq<byte>, dirsOnly: bool, q: nat)
    requires q < |D|
  {
    Short(D[q]) && Matches(D, q, component) && (dirsOnly ==> (D[q][11] / 16) % 2 == 1)
  }

  /** Either scan finds entry j exactly when it is after it, no visible entry before it is one it is
      after, and no slot up to it is 0x00. */
  lemma LookupIsFirst(D: seq<Slot>, component: seq<byte>, dirsOnly: bool, i: nat, j: nat)
    requires i <= j < |D|
    ensures LookupFrom(D, component, dirsOnly, i) == Some(j) <==>
      && Wanted(D, component, dirsOnly, j)
      && (forall q :: i <= q <= j ==> D[q][0] != 0)
      && (forall q :: i <= q < j ==> !Wanted(D, component, dirsOnly, q))
  {
    if LookupFrom(D, component, dirsOnly, i) == Some(j) {
      FoundIsFirst(D, component, dirsOnly, i, j);
    }
    if IsFirst(D, component, dirsOnly, i, j) {
      FirstIsFound(D, component, dirsOnly, i, j);
    }
  }

  predicate IsFirst(D: seq<Slot>, component: seq<byte>, dirsOnly: bool, i: nat, j: nat)
    requires i <= j < |D|
  {
    && Wanted(D, component, dirsOnly, j)
    && (forall q :: i <= q <= j ==> D[q][0] != 0)
    && (forall q :: i <= q < j ==> !Wanted(D, component, dirsOnly, q))
  }

  lemma {:induction false} FoundIsFirst(D: seq<Slot>, component: seq<byte>, dirsOnly: bool, i: nat, j: nat)
    requires i <= j < |D| && LookupFrom(D, component, dirsOnly, i) == Some(j)
    ensures IsFirst(D, component, dirsOnly, i, j)
    decreases j - i
  {
    assert !Wanted(D, component, dirsOnly, i) || i == j;
    if i < j {
      FoundIsFirst(D, component, dirsOnly, i + 1, j);
    }
  }

  lemma {:induction false} FirstIsFound(D: seq<Slot>, component: seq<byte>, dirsOnly: bool, i: nat, j: nat)
    requires i <= j < |D| && IsFirst(D, component, dirsOnly, i, j)
    ensures LookupFrom(D, component, dirsOnly, i) == Some(j)
    decreases j - i
  {
    if i < j {
      assert !Wanted(D, component, dirsOnly, i);
      FirstIsFound(D, component, dirsOnly, i + 1, j);
    }
  }

  lemma {:induction false} LookupFails(D: seq<Slot>, component: seq<byte>, i: nat)
    requires i <= |D|
    requires LookupFrom(D, component, false, i) == None
    ensures forall q :: i <= q < |D| && Short(D[q]) && (forall z :: i <= z < q ==> D[z][0] != FREE) ==>
      !Matches(D, q, component)
    decreases |D| - i
  {
    if i < |D| && D[i][0] != FREE {
      LookupFails(D, component, i + 1);
    }
  }

  // ---- well-formed directories ----

  /** Nothing live follows the first 0x00. */
  predicate Packed(D: seq<Slot>) {
    forall i, j :: 0 <= i < j < |D| && D[i][0] == FREE ==> !Live(D[j])
  }

  /** A live long-name slot numbered 1 sits directly above a live short entry with its checksum. */
  predicate Anchored(D: seq<Slot>) {
    forall t :: 0 <= t < |D| && Live(D[t]) && IsLfn(D[t]) && Ord(D[t]) == 1 ==>
      t + 1 < |D| && Short(D[t + 1]) && D[t][13] == Checksum(Alias(D[t + 1]))
  }

  /** The run accepted for entry j is live throughout and topped by 0x40. */
  predicate Topped(D: seq<Slot>, j: nat)
    requires j < |D|
  {
    var n := RunLen(D, j);
    && (n > 0 ==> Top(Up(D, j, n)))
    && (forall t :: 1 <= t <= n ==> Live(Up(D, j, t)))
  }

  predicate WellFormed(D: seq<Slot>) {
    && Packed(D)
    && Anchored(D)
    && (forall j :: 0 <= j < |D| && Short(D[j]) ==> Topped(D, j))
  }

  /** The eleven bytes and the long name apart, an entry survives unchanged in E. */
  lemma EntryFrame(D: seq<Slot>, E: seq<Slot>, j: nat)
    requires j < |D| == |E| && D[j] == E[j]
    requires Topped(D, j)
    requires forall t :: 1 <= t <= RunLen(D, j) ==> Up(D, j, t) == Up(E, j, t)
    requires RunLen(D, j) == 0 && j > 0 ==> !Link(E, j, 1)
    ensures RunLen(E, j) == RunLen(D, j) && Topped(E, j)
    ensures EntryAt(E, j) == EntryAt(D, j)
    ensures forall c :: Matches(E, j, c) == Matches(D, j, c)
  {
    RunFrame(D, E, j, 0);
    var n := RunLen(D, j);
    forall t | 1 <= t <= n
      ensures Live(Up(E, j, t))
    {
      assert Up(D, j, t) == Up(E, j, t);
    }
    TextFrame(D, E, j, n, 0, FULL_NAME_CAP);
  }

  lemma {:induction false} TextFrame(D: seq<Slot>, E: seq<Slot>, j: nat, n: nat, i: nat, cap: nat)
    requires n <= j < |D| == |E| && i <= LFN_CHARS * n
    requires forall t :: 1 <= t <= n ==> Up(D, j, t) == Up(E, j, t)
    ensures Text(D, j, n, i, cap) == Text(E, j, n, i, cap)
    decreases LFN_CHARS * n - i
  {
    if i < LFN_CHARS * n {
      var t := n - i / LFN_CHARS;
      assert Up(D, j, t) == Up(E, j, t);
      assert D[j - n + i / LFN_CHARS] == Up(D, j, t);
      TextFrame(D, E, j, n, i + 1, cap);
      if cap > 0 {
        TextFrame(D, E, j, n, i + 1, cap - 1);
      }
    }
  }

  /** An all-zero cluster is a well-formed directory with no entries. */
  lemma EmptyDirectory(D: seq<Slot>)
    requires forall i :: 0 <= i < |D| ==> D[i][0] == 0
    ensures WellFormed(D) && Listing(D) == map[]
  {
  }
}
