/** Directory slots and what they say: the runs of long-name slots above a short
    entry, the name an entry carries, and how a component is matched with it. */
module Slots {
  import opened Words
  import opened Names

  const FREE: byte := 0x00
  const DELETED: byte := 0xE5
  const ATTR_LFN: byte := 0x0F
  const ATTR_DIRECTORY: byte := 0x10
  const ATTR_ARCHIVE: byte := 0x20
  const LFN_CHARS := 13
  const FULL_NAME_CAP: nat := 255

  /** Thirty-two raw bytes: a short entry or a long-name entry, by byte 11. */
  type Slot = s: seq<byte> | |s| == 32 witness seq(32, _ => 0)

  predicate Live(e: Slot) { e[0] != FREE && e[0] != DELETED }

  predicate IsLfn(e: Slot) { e[11] == ATTR_LFN }

  /** A live short entry. */
  predicate Short(e: Slot) { Live(e) && !IsLfn(e) }

  predicate IsDirectory(e: Slot) { (e[11] / 0x10) % 2 == 1 }

  /** Sequence number of a long-name slot: byte 0 masked with 0x1F. */
  function Ord(e: Slot): nat { e[0] % 0x20 }

  /** The 0x40 flag that marks the top of a long-name run. */
  predicate Top(e: Slot) { (e[0] / 0x40) % 2 == 1 }

  function Alias(e: Slot): (a: seq<byte>)
    ensures |a| == 11
  {
    e[..11]
  }

  function FirstCluster(e: Slot): u32 {
    var hi: int, lo: int := Get16(e, 20), Get16(e, 26);
    hi * 0x1_0000 + lo
  }

  function FileSize(e: Slot): u32 { Get32(e, 28) }

  // ---- long-name runs ----

  /** The slot t places above slot j. */
  function Up(D: seq<Slot>, j: nat, t: nat): Slot
    requires t <= j < |D|
  {
    D[j - t]
  }

  /** Slot j-t is the t-th long-name slot of the short entry j. */
  predicate Link(D: seq<Slot>, j: nat, t: nat)
    requires 1 <= t <= j < |D|
  {
    var e := Up(D, j, t);
    IsLfn(e) && Ord(e) == t && e[13] == Checksum(Alias(D[j]))
  }

  /** Length of the accepted run above entry j, n slots of it already accepted. */
  function Run(D: seq<Slot>, j: nat, n: nat): (r: nat)
    requires n <= j < |D|
    ensures n <= r <= j
    decreases j - n
  {
    if n < j && Link(D, j, n + 1) then
      if Top(Up(D, j, n + 1)) then n + 1 else Run(D, j, n + 1)
    else n
  }

  function RunLen(D: seq<Slot>, j: nat): (r: nat)
    requires j < |D|
    ensures r <= j
  {
    Run(D, j, 0)
  }

  /** Every slot of the run is a link, and no slot below its top carries 0x40. */
  lemma {:induction false} RunLinks(D: seq<Slot>, j: nat, n: nat, t: nat)
    requires n <= j < |D|
    requires n < t <= Run(D, j, n)
    ensures Link(D, j, t) && (t < Run(D, j, n) ==> !Top(Up(D, j, t)))
    decreases j - n
  {
    if t > n + 1 {
      RunLinks(D, j, n + 1, t);
    }
  }

  /** A run of links topped by the first 0x40 is accepted whole. */
  lemma {:induction false} RunReaches(D: seq<Slot>, j: nat, n: nat, k: nat)
    requires n < k <= j < |D|
    requires forall t :: n < t <= k ==> Link(D, j, t)
    requires forall t :: n < t < k ==> !Top(Up(D, j, t))
    requires Top(Up(D, j, k))
    ensures Run(D, j, n) == k
    decreases j - n
  {
    if n + 1 < k {
      RunReaches(D, j, n + 1, k);
    }
  }

  /** A run depends only on the entry, the run's own slots, and the slot that stops it. */
  lemma {:induction false} RunFrame(D: seq<Slot>, E: seq<Slot>, j: nat, n: nat)
    requires n <= j < |D| == |E| && D[j] == E[j]
    requires forall t :: n < t <= Run(D, j, n) ==> Up(D, j, t) == Up(E, j, t)
    requires Run(D, j, n) == n && n < j ==> !Link(E, j, n + 1)
    requires Run(D, j, n) > n ==> Top(Up(D, j, Run(D, j, n)))
    ensures Run(E, j, n) == Run(D, j, n)
    decreases j - n
  {
    var k := Run(D, j, n);
    if k > n {
      forall t | n < t <= k
        ensures Link(E, j, t) && (t < k ==> !Top(Up(E, j, t)))
      {
        RunLinks(D, j, n, t);
        assert Up(D, j, t) == Up(E, j, t);
      }
      RunReaches(E, j, n, k);
    }
  }

  /** Slot j-t holds what a long-name slot numbered t of the entry in slot j holds. */
  predicate LinkBytes(D: seq<Slot>, j: nat, t: nat)
    requires t <= j < |D|
  {
    D[j - t][11] == 0x0F && D[j - t][0] % 32 == t && D[j - t][13] == Checksum(D[j][..11])
  }

  /** The 0x40 bit of slot j-t is clear. */
  predicate NotTop(D: seq<Slot>, j: nat, t: nat)
    requires t <= j < |D|
  {
    D[j - t][0] % 128 < 64
  }

  /** The run reaches t slots up exactly when these are numbered from 1 on with the alias's
      checksum, and none below the t-th has its 0x40 bit set. */
  lemma RunIs(D: seq<Slot>, j: nat, t: nat)
    requires 1 <= t <= j < |D|
    ensures t <= RunLen(D, j) <==>
      (forall u :: 1 <= u <= t ==> LinkBytes(D, j, u)) && (forall u :: 1 <= u < t ==> NotTop(D, j, u))
  {
    if t <= RunLen(D, j) {
      forall u | 1 <= u <= t
        ensures LinkBytes(D, j, u) && (u < t ==> NotTop(D, j, u))
      {
        RunLinks(D, j, 0, u);
      }
    } else if (forall u :: 1 <= u <= t ==> LinkBytes(D, j, u)) && (forall u :: 1 <= u < t ==> NotTop(D, j, u)) {
      RunCovers(D, j, 0, t);
    }
  }

  lemma {:induction false} RunCovers(D: seq<Slot>, j: nat, n: nat, t: nat)
    requires n <= t <= j < |D|
    requires forall u :: n < u <= t ==> LinkBytes(D, j, u)
    requires forall u :: n < u < t ==> NotTop(D, j, u)
    ensures t <= Run(D, j, n)
    decreases t - n
  {
    if n < t {
      assert LinkBytes(D, j, n + 1);
      if n + 1 < t {
        assert NotTop(D, j, n + 1);
        RunCovers(D, j, n + 1, t);
      }
    }
  }

  method RunLength(entries: array<Slot>, idx: nat) returns (n: nat)
    requires idx < entries.Length
    ensures n == RunLen(entries[..], idx)
  {
    var wantSum := LfnChecksum(entries[idx]);
    n := 0;
    while idx >= n + 1
      invariant n <= idx
      invariant Run(entries[..], idx, n) == RunLen(entries[..], idx)
    {
      var e := entries[idx - (n + 1)];
      if e[11] != ATTR_LFN { break; }
      if e[0] % 0x20 != n + 1 || e[13] != wantSum { break; }
      n := n + 1;
      if (e[0] / 0x40) % 2 == 1 { break; }
    }
  }

  // ---- the thirteen characters of a long-name slot ----

  /** Byte offset of character j: bytes 1-10, 14-25 and 28-31. */
  function CharOff(j: nat): (o: nat)
    requires j < LFN_CHARS
    ensures 1 <= o <= 30
  {
    if j < 5 then 1 + 2 * j else if j < 11 then 14 + 2 * (j - 5) else 28 + 2 * (j - 11)
  }

  /** Unit i of the run of n slots above entry j, the top chunk first. */
  function Unit(D: seq<Slot>, j: nat, n: nat, i: nat): u16
    requires n <= j < |D| && i < LFN_CHARS * n
  {
    Get16(D[j - n + i / LFN_CHARS], CharOff(i % LFN_CHARS))
  }

  /** The text the units from i on spell: it ends at 0x0000 or 0xFFFF, units above
      ASCII are dropped, and at most `cap` characters are kept. */
  function Text(D: seq<Slot>, j: nat, n: nat, i: nat, cap: nat): (r: seq<byte>)
    requires n <= j < |D| && i <= LFN_CHARS * n
    ensures |r| <= cap
    decreases LFN_CHARS * n - i
  {
    if i == LFN_CHARS * n then [] else
    var c := Unit(D, j, n, i);
    if c == 0x0000 || c == 0xFFFF then []
    else if c < 0x80 && cap > 0 then [c] + Text(D, j, n, i + 1, cap - 1)
    else Text(D, j, n, i + 1, cap)
  }

  /** Where the thirteen characters of a long-name slot stand. */
  const CHAR_BYTES: seq<nat> := [1, 3, 5, 7, 9, 14, 16, 18, 20, 22, 24, 28, 30]

  /** Unit r of the p-th slot from the top, off its bytes. */
  lemma UnitBytes(D: seq<Slot>, j: nat, n: nat, p: nat, r: nat)
    requires p < n <= j < |D| && r < 13
    ensures var e, o := D[j - n + p], CHAR_BYTES[r]; Unit(D, j, n, 13 * p + r) as int == e[o] as int + 0x100 * e[o + 1] as int
  {
    assert (13 * p + r) / 13 == p && (13 * p + r) % 13 == r;
  }

  /** The units that are ASCII characters. */
  function AsciiOf(us: seq<u16>): seq<byte> {
    if us == [] then [] else (if us[0] < 0x80 then [us[0]] else []) + AsciiOf(us[1..])
  }

  /** The text is the ASCII characters among the units before the first end mark, as many as fit. */
  lemma {:induction false} TextIs(D: seq<Slot>, j: nat, n: nat, i: nat, cap: nat, us: seq<u16>)
    requires n <= j < |D| && i + |us| <= 13 * n
    requires forall q :: 0 <= q < |us| ==> us[q] == Unit(D, j, n, i + q) && us[q] != 0x0000 && us[q] != 0xFFFF
    requires i + |us| < 13 * n ==> Unit(D, j, n, i + |us|) in {0x0000, 0xFFFF}
    ensures Text(D, j, n, i, cap) == AsciiOf(us)[..Min(|AsciiOf(us)|, cap)]
    decreases |us|
  {
    if us != [] {
      TextIs(D, j, n, i + 1, if us[0] < 0x80 && cap > 0 then cap - 1 else cap, us[1..]);
    }
  }

  /** A run whose units are those of an ASCII name spells that name, byte for byte. */
  lemma {:induction false} TextOfName(D: seq<Slot>, j: nat, n: nat, i: nat, cap: nat, name: seq<byte>)
    requires n <= j < |D| && i <= |name| <= LFN_CHARS * n && |name| - i <= cap
    requires Ascii(name)
    requires forall q :: 0 <= q < LFN_CHARS * n ==> Unit(D, j, n, q) == UnitOf(name, q)
    ensures Text(D, j, n, i, cap) == name[i..]
    decreases LFN_CHARS * n - i
  {
    if i < |name| {
      assert Unit(D, j, n, i) == name[i];
      TextOfName(D, j, n, i + 1, cap - 1, name);
    }
  }

  // ---- names and matching ----

  /** The name `_fat32_entry_full_name` reads for entry j. */
  function FullName(D: seq<Slot>, j: nat): seq<byte>
    requires j < |D|
  {
    var n := RunLen(D, j);
    var long := Text(D, j, n, 0, FULL_NAME_CAP);
    if n == 0 || long == [] then Readable(Alias(D[j])) else long
  }

  /** The name of an entry with a run, whose units up to an end mark are us: their ASCII characters,
      255 at most, or the readable alias when there is none. */
  lemma NameIs(D: seq<Slot>, j: nat, us: seq<u16>)
    requires j < |D| && |us| <= 13 * RunLen(D, j)
    requires forall q :: 0 <= q < |us| ==> us[q] == Unit(D, j, RunLen(D, j), q) && us[q] != 0x0000 && us[q] != 0xFFFF
    requires |us| < 13 * RunLen(D, j) ==> Unit(D, j, RunLen(D, j), |us|) in {0x0000, 0xFFFF}
    ensures FullName(D, j) == if AsciiOf(us) == [] then Readable(D[j][..11]) else AsciiOf(us)[..Min(|AsciiOf(us)|, 255)]
  {
    TextIs(D, j, RunLen(D, j), 0, FULL_NAME_CAP, us);
  }

  method EntryFullName(entries: array<Slot>, idx: nat) returns (out: seq<byte>)
    requires idx < entries.Length
    ensures out == FullName(entries[..], idx)
  {
    ghost var D := entries[..];
    var n := RunLength(entries, idx);
    if n == 0 {
      out := AliasReadable(entries[idx][..11], FULL_NAME_CAP + 1);
      return;
    }
    out := [];
    var t := n;
    ghost var all, i: nat := Text(D, idx, n, 0, FULL_NAME_CAP), 0;
    var ended := false;
    while t >= 1 && !ended
      invariant t <= n && i == n - t && |out| <= FULL_NAME_CAP
      invariant all == if ended then out else out + Text(D, idx, n, LFN_CHARS * i, FULL_NAME_CAP - |out|)
      decreases t, !ended
    {
      out, ended := AppendChars(entries[idx - t], out, D, idx, n, i);
      if !ended {
        t, i := t - 1, i + 1;
      }
    }
    if |out| == 0 {
      out := AliasReadable(entries[idx][..11], FULL_NAME_CAP + 1);
    }
  }

  lemma UnitAt(D: seq<Slot>, idx: nat, n: nat, i: nat, j: nat)
    requires i < n <= idx < |D| && j < LFN_CHARS
    ensures Unit(D, idx, n, LFN_CHARS * i + j) == Get16(D[idx - n + i], CharOff(j))
  {
    assert (LFN_CHARS * i + j) / LFN_CHARS == i && (LFN_CHARS * i + j) % LFN_CHARS == j;
  }

  /** The thirteen characters of one long-name slot, up to an end mark. */
  method AppendChars(e: Slot, sofar: seq<byte>, ghost D: seq<Slot>, ghost idx: nat, ghost n: nat, ghost i: nat)
    returns (out: seq<byte>, ended: bool)
    requires i < n <= idx < |D| && e == D[idx - n + i] && |sofar| <= FULL_NAME_CAP
    ensures |out| <= FULL_NAME_CAP
    ensures sofar + Text(D, idx, n, LFN_CHARS * i, FULL_NAME_CAP - |sofar|) ==
      if ended then out else out + Text(D, idx, n, LFN_CHARS * (i + 1), FULL_NAME_CAP - |out|)
  {
    out, ended := sofar, false;
    ghost var all := sofar + Text(D, idx, n, LFN_CHARS * i, FULL_NAME_CAP - |sofar|);
    for j := 0 to LFN_CHARS
      invariant |out| <= FULL_NAME_CAP && !ended
      invariant all == out + Text(D, idx, n, LFN_CHARS * i + j, FULL_NAME_CAP - |out|)
    {
      var c := Get16(e, CharOff(j));
      UnitAt(D, idx, n, i, j);
      assert c == Unit(D, idx, n, LFN_CHARS * i + j);
      if c == 0x0000 || c == 0xFFFF {
        return out, true;
      }
      if c < 0x80 && |out| < FULL_NAME_CAP {
        out := out + [c];
      }
    }
  }

  /** Whether `component` names entry j: case-insensitively against a long name,
      else byte for byte against the alias the component would get. */
  predicate Matches(D: seq<Slot>, j: nat, component: seq<byte>)
    requires j < |D|
  {
    if RunLen(D, j) > 0 then LowerAll(FullName(D, j)) == LowerAll(component)
    else Alias(D[j]) == Short83(component)
  }

  method EntryMatches(entries: array<Slot>, idx: nat, component: seq<byte>) returns (m: bool)
    requires idx < entries.Length
    ensures m == Matches(entries[..], idx, component)
  {
    var n := RunLength(entries, idx);
    if n > 0 {
      var full := EntryFullName(entries, idx);
      var i := 0;
      while i < |full| && i < |component|
        invariant 0 <= i <= |full| && i <= |component|
        invariant LowerAll(full[..i]) == LowerAll(component[..i])
      {
        if Lower(full[i]) != Lower(component[i]) {
          assert LowerAll(full)[i] != LowerAll(component)[i] || |full| != |component|;
          return false;
        }
        LowerStep(full, i);
        LowerStep(component, i);
        i := i + 1;
      }
      assert full[..|full|] == full && component[..|component|] == component;
      return i == |full| && i == |component|;
    }
    var alias := new byte[11];
    NameTo83(component, alias);
    var j := 0;
    while j < 11
      invariant 0 <= j <= 11 && entries[idx][..j] == alias[..j]
    {
      if entries[idx][j] != alias[j] {
        assert Alias(entries[idx])[j] != alias[..][j];
        return false;
      }
      j := j + 1;
    }
    assert alias[..11] == alias[..];
    return true;
  }

  /** An entry with a run answers to its name in any case, one without to any name of its alias. */
  lemma MatchIs(D: seq<Slot>, j: nat, component: seq<byte>)
    requires j < |D|
    ensures Matches(D, j, component) <==>
      if RunLen(D, j) > 0 then SameButCase(FullName(D, j), component) else Short83(component) == D[j][..11]
  {
    CaseIs(FullName(D, j), component);
  }

  /** Matching cannot tell two components apart that differ only in case. */
  lemma MatchIgnoresCase(D: seq<Slot>, j: nat, a: seq<byte>, b: seq<byte>)
    requires j < |D| && SameButCase(a, b)
    ensures Matches(D, j, a) == Matches(D, j, b)
  {
    CaseIs(a, b);
    AliasIgnoresCase(a, b);
  }
}
