/** Names as fat32_path.c spells them: the padded 8.3 alias, its checksum, its
    readable form, and the thirteen-character chunks of a long name. */
module Names {
  import opened Words

  const DOT: byte := 46
  const SPACE: byte := 32
  const SLASH: byte := 47

  function Upper(c: byte): byte {
    if 97 <= c <= 122 then c - 32 else c
  }

  function Lower(c: byte): byte {
    if 65 <= c <= 90 then c + 32 else c
  }

  function UpperAll(s: seq<byte>): (r: seq<byte>)
    ensures |r| == |s|
  {
    seq(|s|, i requires 0 <= i < |s| => Upper(s[i]))
  }

  function LowerAll(s: seq<byte>): (r: seq<byte>)
    ensures |r| == |s|
  {
    seq(|s|, i requires 0 <= i < |s| => Lower(s[i]))
  }

  lemma LowerStep(s: seq<byte>, i: nat)
    requires i < |s|
    ensures LowerAll(s[..i + 1]) == LowerAll(s[..i]) + [Lower(s[i])]
  {
  }

  /** ASCII without NUL. */
  predicate Ascii(s: seq<byte>) {
    forall i :: 0 <= i < |s| ==> 0 < s[i] < 0x80
  }

  /** One path component: what fits the 64-byte component buffers. */
  predicate IsComponent(s: seq<byte>) {
    Ascii(s) && 1 <= |s| <= 63 && SLASH !in s
  }

  // ---- the 8.3 alias ----

  /** How many characters the base takes, having taken j: it stops at a dot, at the end, or at eight. */
  function BaseLen(name: seq<byte>, j: nat): (b: nat)
    requires j <= 8 && j <= |name|
    ensures j <= b <= 8 && b <= |name|
    decreases 8 - j
  {
    if j < 8 && j < |name| && name[j] != DOT then BaseLen(name, j + 1) else j
  }

  function Extension(name: seq<byte>): (e: seq<byte>)
    ensures |e| <= 3
  {
    var b := BaseLen(name, 0);
    if b < |name| && name[b] == DOT then name[b + 1..Min(|name|, b + 4)] else []
  }

  function Pad(s: seq<byte>, n: nat): (r: seq<byte>)
    requires |s| <= n
    ensures |r| == n
  {
    s + seq(n - |s|, _ => SPACE)
  }

  /** The eleven bytes `_fat32_name_to_83` produces. */
  function Short83(name: seq<byte>): (r: seq<byte>)
    ensures |r| == 11
  {
    Pad(UpperAll(name[..BaseLen(name, 0)]), 8) + Pad(UpperAll(Extension(name)), 3)
  }

  /** Storing the next upper-cased character extends the padded text by it. */
  lemma PadStep(s: seq<byte>, n: nat, c: byte)
    requires |s| < n
    ensures Pad(UpperAll(s), n)[|s| := Upper(c)] == Pad(UpperAll(s + [c]), n)
  {
  }

  method NameTo83(name: seq<byte>, dest: array<byte>)
    requires dest.Length == 11
    modifies dest
    ensures dest[..] == Short83(name)
  {
    for z := 0 to 11
      invariant forall q :: 0 <= q < z ==> dest[q] == SPACE
    {
      dest[z] := SPACE;
    }
    assert dest[..] == Pad(UpperAll(name[..0]), 8) + Pad(UpperAll([]), 3);
    var i, j := 0, 0;
    while i < |name| && name[i] != DOT && j < 8
      invariant i == j <= 8 && i <= |name|
      invariant BaseLen(name, 0) == BaseLen(name, j)
      invariant dest[..] == Pad(UpperAll(name[..i]), 8) + Pad(UpperAll([]), 3)
      decreases 8 - j
    {
      PadStep(name[..i], 8, name[i]);
      assert name[..i] + [name[i]] == name[..i + 1];
      dest[j] := Upper(name[i]);
      i, j := i + 1, j + 1;
    }
    if i < |name| && name[i] == DOT {
      FillExtension(name, i, dest);
    }
  }

  /** The second loop, over what stands behind the dot. */
  method FillExtension(name: seq<byte>, dot: nat, dest: array<byte>)
    requires dest.Length == 11 && dot < |name| && dot == BaseLen(name, 0) && name[dot] == DOT
    requires dest[..] == Pad(UpperAll(name[..dot]), 8) + Pad(UpperAll([]), 3)
    modifies dest
    ensures dest[..] == Short83(name)
  {
    ghost var base := Pad(UpperAll(name[..dot]), 8);
    var i, j := dot + 1, 8;
    ghost var e := i;
    assert name[e..i] == [];
    while i < |name| && j < 11
      invariant 8 <= j <= 11 && i == e + (j - 8) <= |name|
      invariant dest[..] == base + Pad(UpperAll(name[e..i]), 3)
    {
      PadStep(name[e..i], 3, name[i]);
      SliceStep(name, e, i);
      dest[j] := Upper(name[i]);
      i, j := i + 1, j + 1;
    }
    assert Extension(name) == name[e..i];
  }

  /** The capital of a letter, any other byte as it is. */
  predicate IsCapitalOf(u: byte, c: byte) {
    u == if 'a' as int <= c <= 'z' as int then c - 32 else c
  }

  predicate NoDot(s: seq<byte>) {
    forall i :: 0 <= i < |s| ==> s[i] != '.' as int
  }

  /** A field of the alias: the characters in capitals, then spaces. */
  predicate FieldHolds(field: seq<byte>, s: seq<byte>) {
    forall i :: 0 <= i < |field| ==> if i < |s| then IsCapitalOf(field[i], s[i]) else field[i] == ' ' as int
  }

  lemma {:induction false} BaseEnds(name: seq<byte>, j: nat, b: nat)
    requires j <= b <= 8 && b <= |name| && forall i :: j <= i < b ==> name[i] != DOT
    requires b == 8 || b == |name| || name[b] == DOT
    ensures BaseLen(name, j) == b
    decreases b - j
  {
    if j < b {
      BaseEnds(name, j + 1, b);
    }
  }

  /** The alias of a name whose first dot stands behind at most eight characters: they are its
      base, and the next three characters its extension. */
  lemma AliasOfDotted(base: seq<byte>, rest: seq<byte>)
    requires |base| <= 8 && NoDot(base)
    ensures var a := Short83(base + ['.' as int] + rest); FieldHolds(a[..8], base) && FieldHolds(a[8..], rest)
  {
    var name := base + [DOT] + rest;
    BaseEnds(name, 0, |base|);
    assert name[..|base|] == base;
    assert Extension(name) == rest[..Min(|rest|, 3)];
  }

  /** The alias of any other name: its first eight characters, and no extension. */
  lemma AliasOfUndotted(name: seq<byte>)
    requires NoDot(name[..Min(|name|, 9)])
    ensures var a := Short83(name); FieldHolds(a[..8], name) && FieldHolds(a[8..], [])
  {
    forall i | 0 <= i < Min(|name|, 9)
      ensures name[i] != DOT
    {
      assert name[i] == name[..Min(|name|, 9)][i];
    }
    BaseEnds(name, 0, Min(|name|, 8));
  }

  /** A component's alias never looks like a free slot. */
  lemma AliasStartsLive(name: seq<byte>)
    requires Ascii(name)
    ensures Short83(name)[0] != 0x00 && Short83(name)[0] != 0xE5
  {
    var b := BaseLen(name, 0);
    if b > 0 {
      assert Short83(name)[0] == Upper(name[0]);
    } else {
      assert Short83(name)[0] == SPACE;
    }
  }

  /** Names that differ only in case share an alias. */
  lemma AliasIgnoresCase(a: seq<byte>, b: seq<byte>)
    requires SameButCase(a, b)
    ensures Short83(a) == Short83(b)
  {
    CaseIs(a, b);
    AliasOfLower(a, b);
  }

  lemma AliasOfLower(a: seq<byte>, b: seq<byte>)
    requires LowerAll(a) == LowerAll(b)
    ensures Short83(a) == Short83(b)
  {
    assert |a| == |b|;
    forall i | 0 <= i < |a|
      ensures Lower(a[i]) == Lower(b[i])
    {
      assert LowerAll(a)[i] == Lower(a[i]) && LowerAll(b)[i] == Lower(b[i]);
    }
    SameBase(a, b, 0);
    var n := BaseLen(a, 0);
    SameSlice(a, b, 0, n);
    assert n < |a| ==> (a[n] == DOT <==> b[n] == DOT);
    if n < |a| && a[n] == DOT {
      SameSlice(a, b, n + 1, Min(|a|, n + 4));
    }
  }

  lemma SameSlice(a: seq<byte>, b: seq<byte>, lo: nat, hi: nat)
    requires |a| == |b| && lo <= hi <= |a| && forall i :: 0 <= i < |a| ==> Lower(a[i]) == Lower(b[i])
    ensures UpperAll(a[lo..hi]) == UpperAll(b[lo..hi])
  {
    forall i | 0 <= i < hi - lo
      ensures UpperAll(a[lo..hi])[i] == UpperAll(b[lo..hi])[i]
    {
      assert Lower(a[lo + i]) == Lower(b[lo + i]);
    }
  }

  /** Two spellings that differ in nothing but the case of letters. */
  predicate SameButCase(a: seq<byte>, b: seq<byte>) {
    |a| == |b| && forall i :: 0 <= i < |a| ==>
      a[i] == b[i] || ('A' as int <= Min(a[i], b[i]) <= 'Z' as int && a[i] as int - b[i] as int in {-32, 32})
  }

  /** Comparing in small letters is comparing but for case. */
  lemma CaseIs(a: seq<byte>, b: seq<byte>)
    ensures LowerAll(a) == LowerAll(b) <==> SameButCase(a, b)
  {
    if LowerAll(a) == LowerAll(b) {
      forall i | 0 <= i < |a|
        ensures Lower(a[i]) == Lower(b[i])
      {
        assert LowerAll(a)[i] == LowerAll(b)[i];
      }
    }
  }

  lemma SameBase(a: seq<byte>, b: seq<byte>, j: nat)
    requires |a| == |b| && j <= 8 && j <= |a|
    requires forall i :: 0 <= i < |a| ==> Lower(a[i]) == Lower(b[i])
    ensures BaseLen(a, j) == BaseLen(b, j)
    decreases 8 - j
  {
    if j < 8 && j < |a| && a[j] != DOT {
      SameBase(a, b, j + 1);
    }
  }

  // ---- the alias checksum ----

  function SumStep(sum: byte, c: byte): byte {
    ((if sum % 2 == 1 then 0x80 else 0) + sum / 2 + c) % 0x100
  }

  function Checksum(s: seq<byte>): byte {
    if s == [] then 0 else SumStep(Checksum(s[..|s| - 1]), s[|s| - 1])
  }

  /** The eight bits of b one place to the right, the lowest in front. */
  predicate RotatedRight(b: byte, r: byte) {
    r / 0x80 == b % 2 && r % 0x80 == b / 2
  }

  /** Each byte is added, modulo 256, to the sum so far with its bits rotated right. */
  lemma ChecksumRotates(s: seq<byte>, c: byte, r: byte)
    requires RotatedRight(Checksum(s), r)
    ensures Checksum([]) == 0 && Checksum(s + [c]) == (r + c) % 0x100
  {
    assert (s + [c])[..|s|] == s;
  }

  method LfnChecksum(shortName: seq<byte>) returns (sum: byte)
    requires |shortName| >= 11
    ensures sum == Checksum(shortName[..11])
  {
    sum := 0;
    for i := 0 to 11
      invariant sum == Checksum(shortName[..i])
    {
      assert shortName[..i + 1][..i] == shortName[..i];
      sum := SumStep(sum, shortName[i]);
    }
  }

  // ---- the readable alias ----

  /** The bytes from j up to the first space, hi at most. */
  function UntilSpace(s: seq<byte>, j: nat, hi: nat): (r: seq<byte>)
    requires j <= hi <= |s|
    ensures |r| <= hi - j
    decreases hi - j
  {
    if j == hi || s[j] == SPACE then [] else [s[j]] + UntilSpace(s, j + 1, hi)
  }

  function Readable(alias: seq<byte>): (r: seq<byte>)
    requires |alias| == 11
    ensures |r| <= 12
  {
    UntilSpace(alias, 0, 8) + if alias[8] != SPACE then [DOT] + UntilSpace(alias, 8, 11) else []
  }

  /** One copying loop of `alias_readable`, over the field [lo, hi). */
  method AppendField(alias: seq<byte>, lo: nat, hi: nat, prefix: seq<byte>, outSize: nat) returns (out: seq<byte>)
    requires lo <= hi <= |alias| && |prefix| + (hi - lo) < outSize
    ensures out == prefix + UntilSpace(alias, lo, hi)
  {
    out := prefix;
    var j := lo;
    while j < hi && alias[j] != SPACE
      invariant lo <= j <= hi && |out| == |prefix| + (j - lo)
      invariant out + UntilSpace(alias, j, hi) == prefix + UntilSpace(alias, lo, hi)
    {
      if |out| < outSize - 1 {
        out := out + [alias[j]];
      }
      j := j + 1;
    }
  }

  /** `alias_readable`; every caller's buffer holds the twelve characters and the NUL. */
  method AliasReadable(alias: seq<byte>, outSize: nat) returns (out: seq<byte>)
    requires |alias| == 11 && outSize >= 13
    ensures out == Readable(alias)
  {
    out := AppendField(alias, 0, 8, [], outSize);
    if alias[8] != SPACE {
      if |out| < outSize - 1 {
        out := out + [DOT];
      }
      out := AppendField(alias, 8, 11, out, outSize);
    }
  }

  /** No space and no small letter. */
  predicate Plain(s: seq<byte>) {
    forall i :: 0 <= i < |s| ==> s[i] != ' ' as int && !('a' as int <= s[i] <= 'z' as int)
  }

  /** A name that 8.3 spells as it stands, with a base of b characters. */
  predicate Fits83(name: seq<byte>, b: nat) {
    && b <= 8 && b <= |name| && NoDot(name[..b]) && Plain(name[..b])
    && (b < |name| ==> name[b] == '.' as int && b + 2 <= |name| <= b + 4 && Plain(name[b + 1..]))
  }

  /** Reading a field gives back what it holds. */
  lemma {:induction false} FieldReads(field: seq<byte>, s: seq<byte>, j: nat, hi: nat)
    requires j <= hi <= |field| && |s| <= hi - j && Plain(s)
    requires forall i :: j <= i < hi ==> if i - j < |s| then IsCapitalOf(field[i], s[i - j]) else field[i] == SPACE
    ensures UntilSpace(field, j, hi) == s
    decreases hi - j
  {
    if s != [] {
      FieldReads(field, s[1..], j + 1, hi);
      assert s == [s[0]] + s[1..];
    }
  }

  /** What is read of a field of capitals has no space and no small letter. */
  lemma {:induction false} ReadIsPlain(field: seq<byte>, j: nat, hi: nat)
    requires j <= hi <= |field| && forall i :: j <= i < hi ==> !(97 <= field[i] <= 122)
    ensures var r := UntilSpace(field, j, hi); Plain(r) && r == field[j..j + |r|]
    ensures j < hi && field[j] != SPACE ==> UntilSpace(field, j, hi) != []
    decreases hi - j
  {
    if j < hi && field[j] != SPACE {
      ReadIsPlain(field, j + 1, hi);
    }
  }

  lemma FieldsRead(a: seq<byte>, base: seq<byte>, rest: seq<byte>)
    requires |a| == 11 && FieldHolds(a[..8], base) && FieldHolds(a[8..], rest)
    requires |base| <= 8 && |rest| <= 3 && Plain(base) && Plain(rest)
    ensures Readable(a) == base + if rest == [] then [] else [DOT] + rest
  {
    FieldsOf(a, base, rest);
    FieldReads(a, base, 0, 8);
    FieldReads(a, rest, 8, 11);
    assert rest != [] ==> IsCapitalOf(a[8], rest[0]);
  }

  lemma FitsReads(name: seq<byte>, b: nat)
    requires Fits83(name, b)
    ensures Readable(Short83(name)) == name
  {
    if b < |name| {
      DottedName(name, b);
      DottedReads(name, name[..b], name[b + 1..]);
    } else {
      UndottedFields(name);
      UndottedReads(Short83(name), name);
    }
  }

  lemma DottedName(name: seq<byte>, b: nat)
    requires b < |name| && name[b] == DOT
    ensures name == name[..b] + [DOT] + name[b + 1..] && name == name[..b] + ([DOT] + name[b + 1..])
  {
  }

  lemma DottedReads(name: seq<byte>, base: seq<byte>, rest: seq<byte>)
    requires name == base + [DOT] + rest && name == base + ([DOT] + rest)
    requires |base| <= 8 && NoDot(base) && Plain(base) && 0 < |rest| <= 3 && Plain(rest)
    ensures Readable(Short83(name)) == name
  {
    DottedFields(name, base, rest);
    FieldsRead(Short83(name), base, rest);
  }

  lemma DottedFields(name: seq<byte>, base: seq<byte>, rest: seq<byte>)
    requires name == base + [DOT] + rest && |base| <= 8 && NoDot(base)
    ensures FieldHolds(Short83(name)[..8], base) && FieldHolds(Short83(name)[8..], rest)
  {
    AliasOfDotted(base, rest);
  }

  lemma UndottedFields(name: seq<byte>)
    requires |name| <= 8 && NoDot(name[..|name|])
    ensures FieldHolds(Short83(name)[..8], name) && FieldHolds(Short83(name)[8..], [])
  {
    assert name[..|name|] == name == name[..Min(|name|, 9)];
    AliasOfUndotted(name);
  }

  lemma UndottedReads(a: seq<byte>, name: seq<byte>)
    requires |a| == 11 && FieldHolds(a[..8], name) && FieldHolds(a[8..], []) && |name| <= 8 && Plain(name[..|name|])
    ensures Readable(a) == name
  {
    assert name[..|name|] == name;
    FieldsRead(a, name, []);
  }

  lemma FieldsOf(a: seq<byte>, base: seq<byte>, rest: seq<byte>)
    requires |a| == 11 && FieldHolds(a[..8], base) && FieldHolds(a[8..], rest)
    ensures forall i :: 0 <= i < 8 ==> if i < |base| then IsCapitalOf(a[i], base[i]) else a[i] == SPACE
    ensures forall i :: 8 <= i < 11 ==> if i - 8 < |rest| then IsCapitalOf(a[i], rest[i - 8]) else a[i] == SPACE
  {
    forall i | 0 <= i < 8
      ensures a[i] == a[..8][i]
    {
    }
    forall i | 8 <= i < 11
      ensures a[i] == a[8..][i - 8]
    {
    }
  }

  /** An alias reads back as its name exactly when the name fits 8.3. */
  lemma ReadsBackIffFits(name: seq<byte>)
    ensures Readable(Short83(name)) == name <==> exists b: nat :: Fits83(name, b)
  {
    if b: nat :| Fits83(name, b) {
      FitsReads(name, b);
    }
    if Readable(Short83(name)) == name {
      ReadableFits(name, Short83(name));
    }
  }

  lemma ReadableFits(name: seq<byte>, a: seq<byte>)
    requires a == Short83(name) && Readable(a) == name
    ensures exists b: nat :: Fits83(name, b)
  {
    NoSmallLetters(name);
    ReadIsPlain(a, 0, 8);
    ReadIsPlain(a, 8, 11);
    var base, rest := UntilSpace(a, 0, 8), UntilSpace(a, 8, 11);
    assert forall i :: 0 <= i < |base| ==> base[i] == a[..|base|][i] == a[i];
    forall i | 0 <= i < 8
      ensures a[i] != DOT
    {
      BaseIsNoDot(name, i);
    }
    FitsFrom(name, base, if a[8] == SPACE then [] else rest);
  }

  lemma NoSmallLetters(name: seq<byte>)
    ensures forall i :: 0 <= i < 11 ==> !(97 <= Short83(name)[i] <= 122)
  {
  }

  lemma FitsFrom(name: seq<byte>, base: seq<byte>, rest: seq<byte>)
    requires |base| <= 8 && |rest| <= 3 && Plain(base) && Plain(rest) && NoDot(base)
    requires name == base + if rest == [] then [] else [DOT] + rest
    ensures Fits83(name, |base|)
  {
    assert name[..|base|] == base;
    if rest != [] {
      assert name[|base| + 1..] == rest;
    }
  }

  /** No character of the alias's base is a dot. */
  lemma BaseIsNoDot(name: seq<byte>, i: nat)
    requires i < 8
    ensures Short83(name)[i] != DOT
  {
    if i < BaseLen(name, 0) {
      BaseHasNone(name, 0, i);
    }
  }

  lemma {:induction false} BaseHasNone(name: seq<byte>, j: nat, i: nat)
    requires j <= 8 && j <= |name| && j <= i < BaseLen(name, j)
    ensures i < |name| && name[i] != DOT
    decreases 8 - j
  {
    if j < i {
      BaseHasNone(name, j + 1, i);
    }
  }

  // ---- long-name text ----

  /** The unit stored at position ci of a component: its character, the terminator, or filler. */
  function UnitOf(component: seq<byte>, ci: nat): u16 {
    if ci < |component| then component[ci] else if ci == |component| then 0x0000 else 0xFFFF
  }
}
