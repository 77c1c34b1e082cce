/** Machine words and byte sequences. */
module Words {

  type byte = x: int | 0 <= x < 0x100
  type u16 = x: int | 0 <= x < 0x1_0000
  type u32 = x: int | 0 <= x < 0x1_0000_0000

  datatype Option<+T> = None | Some(value: T)

  function Min(a: int, b: int): int {
    if a < b then a else b
  }

  /** A slice grows at its end by the next element. */
  lemma SliceStep<T>(s: seq<T>, lo: nat, hi: nat)
    requires lo <= hi < |s|
    ensures s[lo..hi] + [s[hi]] == s[lo..hi + 1]
  {
  }

  lemma SubSlice<T>(s: seq<T>, a: nat, b: nat, c: nat, d: nat)
    requires a <= b <= |s| && c <= d <= b - a
    ensures s[a..b][c..d] == s[a + c..a + d]
  {
    forall k | 0 <= k < d - c
      ensures s[a..b][c..d][k] == s[a + c..a + d][k]
    {
    }
  }

  // ---- little-endian words inside byte buffers ----

  /** The word whose bytes are these, the lowest first. */
  function WordOf(b0: byte, b1: byte, b2: byte, b3: byte): nat {
    b0 as int + 0x100 * b1 as int + 0x1_0000 * b2 as int + 0x100_0000 * b3 as int
  }

  function Get16(b: seq<byte>, off: nat): u16
    requires off + 2 <= |b|
  {
    var lo: int, hi: int := b[off], b[off + 1];
    lo + 0x100 * hi
  }

  function Put16(b: seq<byte>, off: nat, w: u16): (r: seq<byte>)
    requires off + 2 <= |b|
    ensures |r| == |b|
  {
    b[off := w % 0x100][off + 1 := w / 0x100]
  }

  function Get32(b: seq<byte>, off: nat): u32
    requires off + 4 <= |b|
  {
    var b0: int, b1: int, b2: int, b3: int := b[off], b[off + 1], b[off + 2], b[off + 3];
    b0 + 0x100 * b1 + 0x1_0000 * b2 + 0x100_0000 * b3
  }

  function Put32(b: seq<byte>, off: nat, w: u32): (r: seq<byte>)
    requires off + 4 <= |b|
    ensures |r| == |b|
  {
    b[off := w % 0x100][off + 1 := (w / 0x100) % 0x100]
     [off + 2 := (w / 0x1_0000) % 0x100][off + 3 := w / 0x100_0000]
  }

  lemma SplitWord(w: u32)
    ensures w == w % 0x100 + 0x100 * ((w / 0x100) % 0x100)
                 + 0x1_0000 * ((w / 0x1_0000) % 0x100) + 0x100_0000 * (w / 0x100_0000)
  {
    assert w / 0x1_0000 == (w / 0x100) / 0x100;
    assert w / 0x100_0000 == (w / 0x1_0000) / 0x100;
  }

  /** A word written is the word read back; a word that does not overlap it is untouched. */
  lemma GetPut32(b: seq<byte>, off: nat, w: u32, at: nat)
    requires off + 4 <= |b| && at + 4 <= |b|
    requires at == off || at + 4 <= off || off + 4 <= at
    ensures Get32(Put32(b, off, w), at) == if at == off then w else Get32(b, at)
  {
    SplitWord(w);
  }
}
