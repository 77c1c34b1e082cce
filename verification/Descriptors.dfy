/** Open regular files: reading at a file descriptor's offset and moving the offset. */
module Descriptors {
  import opened Words
  import opened Slots
  import opened Volume
  import opened Chains
  import opened Readers

  /** Where the first cluster of a read is entered: offsets beyond the first sector are lost. */
  function Landing(skip: nat): nat {
    Min(skip, SECTOR)
  }

  /** The content position a descriptor at offset off reads from. */
  function ReadsFrom(off: nat, cb: nat): nat
    requires cb > 0
  {
    cb * (off / cb) + Landing(off % cb)
  }

  /** A read starts at its own offset exactly when that lies at most one sector into its cluster. */
  lemma ReadsAtItsOffset(off: nat, cb: nat)
    requires cb > 0
    ensures ReadsFrom(off, cb) == off <==> off % cb <= SECTOR
  {
    assert off == cb * (off / cb) + off % cb;
  }

  lemma ReadsFromIs(off: nat, cb: nat, i: nat, skip: nat)
    requires cb > 0 && skip < cb && off == cb * i + skip
    ensures ReadsFrom(off, cb) == cb * i + Landing(skip)
  {
    BlockOf(cb, off, cb * i, i);
    var q := off / cb;
    assert off == cb * q + off % cb;
    if q < i {
      NextBlock(q, i, cb);
    } else if i < q {
      NextBlock(i, q, cb);
    }
  }

  /** When it does not, any content whose bytes differ at the two places is misread. */
  lemma LostOffset(content: seq<byte>, off: nat, cb: nat, n: nat)
    requires cb > 0 && off % cb > SECTOR && n > 0 && off < |content|
    ensures ReadsFrom(off, cb) == off - off % cb + 512 < off
    ensures content[ReadsFrom(off, cb)] != content[off] ==>
      Piece(content, ReadsFrom(off, cb), n) != Piece(content, off, n)
  {
    assert off == cb * (off / cb) + off % cb;
    assert |Piece(content, off, n)| > 0 && Piece(content, off, n)[0] == content[off];
    assert |Piece(content, ReadsFrom(off, cb), n)| > 0
      && Piece(content, ReadsFrom(off, cb), n)[0] == content[ReadsFrom(off, cb)];
  }

  method ReadClusterFrom(vol: Volume, cluster: nat, sofar: seq<byte>, want: nat, skip: nat) returns (out: seq<byte>)
    requires vol.Valid() && 2 <= cluster < vol.g.Clusters() && |sofar| <= want
    requires skip < vol.g.ClusterBytes()
    ensures out == sofar + Piece(vol.View().data[cluster], Landing(skip), want - |sofar|)
  {
    out := sofar;
    ghost var b := vol.View().data[cluster];
    ghost var land, n := Landing(skip), want - |sofar|;
    var left := skip;
    var s := 0;
    while s < vol.g.spc && |out| < want
      invariant s <= vol.g.spc
      invariant if s == 0 then left == skip && out == sofar
                else left == 0 && out == sofar + Piece(b, land, Min(SECTOR * s - land, n))
    {
      var tmp := vol.ReadSector(cluster, s);
      var start := if left > 0 && s == 0 then left else 0;
      if s == 0 {
        FirstSectorFrom(b, skip, n);
      } else {
        NextSectorFrom(b, land, s, n);
      }
      out := CopyBytes(out, tmp, start, want);
      left := 0;
      s := s + 1;
    }
  }

  /** A skip of a whole sector or more takes nothing from the first sector, and no more than that sector away. */
  lemma FirstSectorFrom(b: seq<byte>, skip: nat, n: nat)
    requires |b| >= SECTOR
    ensures Piece(b[SECTOR * 0..SECTOR * 0 + SECTOR], skip, n) == Piece(b, Landing(skip), Min(SECTOR - Landing(skip), n))
  {
  }

  lemma NextSectorFrom(b: seq<byte>, land: nat, sec: nat, n: nat)
    requires SECTOR * sec + SECTOR <= |b| && land <= SECTOR * sec && SECTOR * sec - land <= n
    ensures Piece(b, land, SECTOR * sec - land) + Piece(b[SECTOR * sec..SECTOR * sec + SECTOR], 0, n - (SECTOR * sec - land)) ==
      Piece(b, land, Min(SECTOR * (sec + 1) - land, n))
  {
    var m := Min(SECTOR, n - (SECTOR * sec - land));
    SubSlice(b, SECTOR * sec, SECTOR * sec + SECTOR, 0, m);
  }

  /** Where a descriptor read stands before cluster i. */
  ghost predicate ReadTo(data: seq<seq<byte>>, cs: seq<nat>, i: nat, from: nat, out: seq<byte>, want: nat)
    requires i <= |cs| && forall q :: 0 <= q < |cs| ==> cs[q] < |data|
  {
    && |out| <= want && out == Piece(Gather(data, cs), from, |out|)
    && (|out| < want ==> from + |out| == Base(data, cs, i))
  }

  lemma ReadToStep(data: seq<seq<byte>>, cs: seq<nat>, cb: nat, i: nat, from: nat, out: seq<byte>, want: nat)
    requires i < |cs| && Blocks(data, cs, cb)
    requires ReadTo(data, cs, i, from, out, want) && |out| < want
    ensures ReadTo(data, cs, i + 1, from, out + Piece(data[cs[i]], 0, want - |out|), want)
  {
    BaseStep(data, cs, cb, i);
    var base, content, n := Base(data, cs, i), Gather(data, cs), Min(cb, want - |out|);
    SubSlice(content, base, base + cb, 0, n);
    assert Piece(data[cs[i]], 0, want - |out|) == content[base..base + n];
    assert out + content[base..base + n] == Piece(content, from, |out| + n);
  }

  lemma ReadToStart(data: seq<seq<byte>>, cs: seq<nat>, cb: nat, i: nat, skip: nat, want: nat)
    requires i < |cs| && Blocks(data, cs, cb) && skip < cb && cb >= SECTOR
    ensures ReadTo(data, cs, i + 1, Base(data, cs, i) + Landing(skip), Piece(data[cs[i]], Landing(skip), want), want)
  {
    BaseStep(data, cs, cb, i);
    PieceOfBlock(Gather(data, cs), Base(data, cs, i), data[cs[i]], Landing(skip), want);
  }

  /** A piece of a block is the same piece of the content around it. */
  lemma PieceOfBlock(content: seq<byte>, base: nat, block: seq<byte>, at: nat, n: nat)
    requires base + |block| <= |content| && content[base..base + |block|] == block && at <= |block|
    ensures Piece(block, at, n) == Piece(content, base + at, |Piece(block, at, n)|)
    ensures |Piece(block, at, n)| == Min(|block| - at, n)
  {
    var m := Min(|block| - at, n);
    SubSlice(content, base, base + |block|, at, at + m);
  }

  /** An FD_FILE slot of a process. */
  class Descriptor {
    var cluster: nat
    var offset: u32
    var size: u32

    /** A freshly opened file. */
    constructor (cluster: nat, size: u32)
      ensures this.cluster == cluster && this.size == size && offset == 0
    {
      this.cluster := cluster;
      this.size := size;
      this.offset := 0;
    }

    ghost predicate InRange()
      reads this
    {
      offset <= size
    }

    /** `proc_read_fd`: min(count, size - offset) bytes, from where the offset lands. */
    method Read(vol: Volume, count: u32, ghost cs: seq<nat>) returns (out: seq<byte>)
      requires vol.Valid() && InRange() && Visits(vol.View().fat, cluster, cs)
      requires forall i :: 0 <= i < |cs| ==> cs[i] < |vol.View().data|
      requires size <= |Gather(vol.View().data, cs)|
      modifies this`offset
      ensures InRange()
      ensures |out| == Min(count, size - old(offset)) && offset == old(offset) + |out|
      ensures out == Piece(Gather(vol.View().data, cs), ReadsFrom(old(offset), vol.g.ClusterBytes()), |out|)
    {
      var remaining := size - offset;
      var want := if count > remaining then remaining else count;
      if want == 0 {
        return [];
      }
      ghost var i, skip;
      out, i, skip := ReadBytes(vol, want, cs);
      BaseIs(vol.View().data, cs, vol.g.ClusterBytes(), i);
      ReadsFromIs(offset, vol.g.ClusterBytes(), i, skip);
      offset := offset + |out|;
    }

    method ReadBytes(vol: Volume, want: nat, ghost cs: seq<nat>) returns (out: seq<byte>, ghost i: nat, ghost skip: nat)
      requires vol.Valid() && Visits(vol.View().fat, cluster, cs)
      requires forall i :: 0 <= i < |cs| ==> cs[i] < |vol.View().data|
      requires 0 < want && offset + want <= size <= |Gather(vol.View().data, cs)|
      ensures |out| == want && i < |cs| && skip < vol.g.ClusterBytes()
      ensures offset == Base(vol.View().data, cs, i) + skip
      ensures out == Piece(Gather(vol.View().data, cs), Base(vol.View().data, cs, i) + Landing(skip), want)
    {
      var c, into;
      c, into, i := Position(vol, cs);
      skip := into;
      ReadToStart(vol.View().data, cs, vol.g.ClusterBytes(), i, skip, want);
      out := ReadClusterFrom(vol, c, [], want, into);
      assert out == Piece(vol.View().data[cs[i]], Landing(skip), want);
      assert Landing(skip) <= skip;
      c := Follow(vol, c, cs, i);
      out := ReadOn(vol, c, out, want, cs, i + 1, Base(vol.View().data, cs, i) + Landing(skip));
    }

    /** The cluster that holds the offset, by whole clusters skipped, and what is left to skip in it. */
    method Position(vol: Volume, ghost cs: seq<nat>) returns (c: nat, skip: nat, ghost i: nat)
      requires vol.Valid() && Visits(vol.View().fat, cluster, cs)
      requires forall i :: 0 <= i < |cs| ==> cs[i] < |vol.View().data|
      requires offset < |Gather(vol.View().data, cs)|
      ensures i < |cs| && c == cs[i] && skip < vol.g.ClusterBytes()
      ensures offset == Base(vol.View().data, cs, i) + skip
    {
      var cb := vol.g.ClusterBytes();
      c, skip, i := cluster, offset, 0;
      while skip >= cb && c < END_MARK
        invariant i < |cs| && c == cs[i] && offset == Base(vol.View().data, cs, i) + skip
      {
        BaseStep(vol.View().data, cs, cb, i);
        skip := skip - cb;
        c := Follow(vol, c, cs, i);
        i := i + 1;
      }
    }
  }

  const MAX_FDS: nat := 16

  /** The rest of `proc_open`, for the entry found: the first free place from 3 on, none taken
      when the table is full. A free place holds null. */
  method Open(fds: array<Descriptor?>, e: Slot) returns (fd: int)
    requires fds.Length == MAX_FDS
    modifies fds
    ensures fd == -1 || 3 <= fd < MAX_FDS
    ensures forall i :: 3 <= i < (if fd == -1 then MAX_FDS else fd) ==> old(fds[i]) != null
    ensures forall i :: 0 <= i < MAX_FDS && i != fd ==> fds[i] == old(fds[i])
    ensures fd != -1 ==> old(fds[fd]) == null && fds[fd] != null && fresh(fds[fd])
    ensures fd != -1 ==> fds[fd].cluster == FirstCluster(e) && fds[fd].size == FileSize(e) && fds[fd].offset == 0
  {
    for i := 3 to MAX_FDS
      invariant forall k :: 3 <= k < i ==> fds[k] != null
      invariant fds[..] == old(fds[..])
    {
      if fds[i] == null {
        fds[i] := new Descriptor(FirstCluster(e), FileSize(e));
        return i;
      }
    }
    return -1;
  }

  /** The clusters after the first, each from its start. */
  method ReadOn(vol: Volume, first: nat, sofar: seq<byte>, want: nat, ghost cs: seq<nat>, ghost start: nat, ghost from: nat)
    returns (out: seq<byte>)
    requires vol.Valid() && IsChain(vol.View().fat, cs) && start <= |cs|
    requires first == AtStep(vol.View().fat, cs, start)
    requires ReadTo(vol.View().data, cs, start, from, sofar, want)
    requires from + want <= |Gather(vol.View().data, cs)|
    ensures out == Piece(Gather(vol.View().data, cs), from, want) && |out| == want
  {
    var c := first;
    out := sofar;
    ghost var i := start;
    while |out| < want && c < END_MARK
      invariant i <= |cs| && c == AtStep(vol.View().fat, cs, i)
      invariant ReadTo(vol.View().data, cs, i, from, out, want)
      decreases |cs| - i
    {
      ReadToStep(vol.View().data, cs, vol.g.ClusterBytes(), i, from, out, want);
      out := ReadClusterFrom(vol, c, out, want, 0);
      c := Follow(vol, c, cs, i);
      i := i + 1;
    }
    assert cs[..|cs|] == cs;
  }

  // ---- lseek ----

  /** A 32-bit word read as a signed number. */
  function Signed(w: u32): int {
    if w < 0x8000_0000 then w else w - 0x1_0000_0000
  }

  function Word(i: int): u32 {
    i % 0x1_0000_0000
  }

  /** `lseek` on a regular file. The place aimed at wraps at 32 bits; then what is negative as a signed
      word becomes the start, and what lies behind the end the end. */
  method Seek(f: Descriptor, delta: int, whence: int) returns (r: u32)
    requires -0x8000_0000 <= delta < 0x8000_0000
    modifies f`offset
    ensures f.InRange() && r == f.offset
    ensures var aim := if whence == 0 then delta else if whence == 1 then old(f.offset) + delta
                       else if whence == 2 then f.size + delta else old(f.offset);
      var w := aim % 0x1_0000_0000;
      f.offset == if w >= 0x8000_0000 then 0 else if w > f.size then f.size else w
    ensures old(f.InRange()) && f.size < 0x8000_0000 ==>
      var aim := if whence == 0 then delta else if whence == 1 then old(f.offset) + delta
                 else if whence == 2 then f.size + delta else old(f.offset);
      aim < 0x8000_0000 ==> f.offset == if aim < 0 then 0 else if aim > f.size then f.size else aim
  {
    if whence == 0 {
      f.offset := Word(delta);
    } else if whence == 1 {
      f.offset := Word(Signed(f.offset) + delta);
    } else if whence == 2 {
      f.offset := Word(Signed(f.size) + delta);
    }
    if Signed(f.offset) < 0 {
      f.offset := 0;
    }
    if f.offset > f.size {
      f.offset := f.size;
    }
    r := f.offset;
  }
}
