/** The three file readers, each refining one abstract content: the bytes of the
    file's clusters in chain order. */
module Readers {
  import opened Words
  import opened Volume
  import opened Chains

  /** The clusters of cs one after another. */
  function Gather(data: seq<seq<byte>>, cs: seq<nat>): seq<byte>
    requires forall i :: 0 <= i < |cs| ==> cs[i] < |data|
  {
    if cs == [] then [] else Gather(data, cs[..|cs| - 1]) + data[cs[|cs| - 1]]
  }

  /** Every cluster of cs is a block of cb bytes. */
  predicate Blocks(data: seq<seq<byte>>, cs: seq<nat>, cb: nat) {
    forall i :: 0 <= i < |cs| ==> cs[i] < |data| && |data[cs[i]]| == cb
  }

  lemma {:induction false} GatherLen(data: seq<seq<byte>>, cs: seq<nat>, cb: nat)
    requires Blocks(data, cs, cb)
    ensures |Gather(data, cs)| == cb * |cs|
  {
    if cs != [] {
      GatherLen(data, cs[..|cs| - 1], cb);
      assert cb * |cs| == cb * (|cs| - 1) + cb;
    }
  }

  lemma {:induction false} GatherPrefix(data: seq<seq<byte>>, cs: seq<nat>, i: nat)
    requires i <= |cs| && forall q :: 0 <= q < |cs| ==> cs[q] < |data|
    ensures Gather(data, cs[..i]) <= Gather(data, cs)
  {
    if i < |cs| {
      GatherPrefix(data, cs[..|cs| - 1], i);
      assert cs[..|cs| - 1][..i] == cs[..i];
    } else {
      assert cs[..i] == cs;
    }
  }

  /** Cluster i of a chain fills the i-th block of its bytes. */
  lemma GatherAt(data: seq<seq<byte>>, cs: seq<nat>, cb: nat, i: nat)
    requires Blocks(data, cs, cb) && i < |cs|
    ensures cb * i + cb <= |Gather(data, cs)|
    ensures Gather(data, cs)[cb * i..cb * i + cb] == data[cs[i]]
  {
    var upTo := cs[..i + 1];
    assert upTo[..i] == cs[..i];
    GatherLen(data, cs[..i], cb);
    GatherLen(data, upTo, cb);
    GatherPrefix(data, cs, i + 1);
    assert Gather(data, upTo) == Gather(data, cs[..i]) + data[cs[i]];
    assert cb * (i + 1) == cb * i + cb;
  }

  /** Gathering reads nothing outside its clusters. */
  lemma {:induction false} GatherFrame(data: seq<seq<byte>>, other: seq<seq<byte>>, cs: seq<nat>)
    requires forall i :: 0 <= i < |cs| ==> cs[i] < |data| && cs[i] < |other| && data[cs[i]] == other[cs[i]]
    ensures Gather(data, cs) == Gather(other, cs)
  {
    if cs != [] {
      GatherFrame(data, other, cs[..|cs| - 1]);
    }
  }

  /** What following the table from `cluster` visits; nothing for an empty file. */
  predicate Visits(fat: seq<nat>, cluster: nat, cs: seq<nat>) {
    if cs == [] then cluster == 0 || cluster >= END_MARK else StartsChain(fat, cluster, cs)
  }

  /** The cluster a walk along cs holds after i steps: the end mark behind the last. */
  function AtStep(fat: seq<nat>, cs: seq<nat>, i: nat): nat
    requires IsChain(fat, cs) && i <= |cs|
  {
    if i < |cs| then cs[i] else fat[cs[|cs| - 1]]
  }

  lemma Advance(fat: seq<nat>, cs: seq<nat>, i: nat)
    requires IsChain(fat, cs) && i < |cs|
    ensures fat[cs[i]] == AtStep(fat, cs, i + 1)
    ensures AtStep(fat, cs, i + 1) < END_MARK <==> i + 1 < |cs|
  {
  }

  /** One table lookup along a chain. */
  method Follow(vol: Volume, c: nat, ghost cs: seq<nat>, ghost i: nat) returns (next: nat)
    requires vol.Valid() && IsChain(vol.View().fat, cs) && i < |cs| && c == cs[i]
    ensures next == AtStep(vol.View().fat, cs, i + 1)
    ensures next < END_MARK <==> i + 1 < |cs|
  {
    Advance(vol.View().fat, cs, i);
    next := vol.GetFat(c);
  }

  /** The bytes of b from `start`, n at most. */
  function Piece(b: seq<byte>, start: nat, n: nat): (p: seq<byte>)
    ensures |p| <= n
  {
    if start >= |b| then [] else b[start..Min(|b|, start + n)]
  }

  lemma PieceIs(b: seq<byte>, start: nat, n: nat)
    ensures var p := Piece(b, start, n);
      && |p| == (if start + n <= |b| then n else if start <= |b| then |b| - start else 0)
      && forall k :: 0 <= k < |p| ==> p[k] == b[start + k]
  {
  }

  /** The byte loop the readers share: copy a sector's bytes from `start` until the
      sector or the request is exhausted. */
  method CopyBytes(sofar: seq<byte>, b: seq<byte>, start: nat, limit: nat) returns (out: seq<byte>)
    requires |b| == SECTOR && |sofar| <= limit
    ensures out == sofar + Piece(b, start, limit - |sofar|)
  {
    out := sofar;
    var i := start;
    while i < SECTOR && |out| < limit
      invariant i == start || start <= i <= SECTOR
      invariant out == sofar + Piece(b, start, i - start) && |out| == |sofar| + (i - start) <= limit
    {
      assert Piece(b, start, i - start) + [b[i]] == Piece(b, start, i + 1 - start);
      out := out + [b[i]];
      i := i + 1;
    }
  }

  /** Where a sequential read stands after i clusters. */
  ghost predicate ReadSoFar(data: seq<seq<byte>>, cs: seq<nat>, i: nat, out: seq<byte>, want: nat)
    requires i <= |cs| && forall q :: 0 <= q < |cs| ==> cs[q] < |data|
  {
    out <= Gather(data, cs) && |out| <= want && (|out| < want ==> out == Gather(data, cs[..i]))
  }

  lemma ReadStep(data: seq<seq<byte>>, cs: seq<nat>, i: nat, out: seq<byte>, want: nat)
    requires i < |cs| && forall q :: 0 <= q < |cs| ==> cs[q] < |data|
    requires ReadSoFar(data, cs, i, out, want) && |out| < want
    ensures ReadSoFar(data, cs, i + 1, out + Piece(data[cs[i]], 0, want - |out|), want)
  {
    assert cs[..i + 1][..i] == cs[..i];
    assert Gather(data, cs[..i + 1]) == out + data[cs[i]];
    GatherPrefix(data, cs, i + 1);
  }

  /** `fat32_read` on an opened entry: the first min(size, max) bytes, sector by sector. */
  method ReadFile(vol: Volume, first: nat, size: nat, max: nat, ghost cs: seq<nat>) returns (out: seq<byte>)
    requires vol.Valid() && Visits(vol.View().fat, first, cs)
    ensures forall i :: 0 <= i < |cs| ==> cs[i] < |vol.View().data|
    ensures var content := Gather(vol.View().data, cs);
      out == content[..Min(Min(size, max), |content|)]
  {
    var want := if size > max then max else size;
    var cluster := first;
    out := [];
    ghost var i := 0;
    while |out| < want && cluster < END_MARK && cluster >= 2
      invariant i <= |cs|
      invariant if cs == [] then cluster == first else cluster == AtStep(vol.View().fat, cs, i)
      invariant ReadSoFar(vol.View().data, cs, i, out, want)
      decreases |cs| - i
    {
      ReadStep(vol.View().data, cs, i, out, want);
      out := ReadOneCluster(vol, cluster, out, want);
      cluster := Follow(vol, cluster, cs, i);
      i := i + 1;
    }
    if |out| < want {
      assert i == |cs|;
      assert cs[..|cs|] == cs;
    }
  }

  method ReadOneCluster(vol: Volume, cluster: nat, sofar: seq<byte>, want: nat) returns (out: seq<byte>)
    requires vol.Valid() && 2 <= cluster < vol.g.Clusters() && |sofar| <= want
    ensures out == sofar + Piece(vol.View().data[cluster], 0, want - |sofar|)
  {
    out := sofar;
    ghost var b := vol.View().data[cluster];
    var sec := 0;
    while sec < vol.g.spc && |out| < want
      invariant sec <= vol.g.spc
      invariant out == sofar + Piece(b, 0, Min(SECTOR * sec, want - |sofar|))
    {
      var buf := vol.ReadSector(cluster, sec);
      NextSector(b, sec, want - |sofar|);
      out := CopyBytes(out, buf, 0, want);
      sec := sec + 1;
    }
  }

  /** Sector `sec` continues a block read up to it. */
  lemma NextSector(b: seq<byte>, sec: nat, n: nat)
    requires SECTOR * sec + SECTOR <= |b| && SECTOR * sec <= n
    ensures Piece(b, 0, SECTOR * sec) + Piece(b[SECTOR * sec..SECTOR * sec + SECTOR], 0, n - SECTOR * sec) ==
      Piece(b, 0, Min(SECTOR * (sec + 1), n))
  {
  }

  // ---- reading at an offset ----

  /** Where block i of a chain begins in its content. */
  function Base(data: seq<seq<byte>>, cs: seq<nat>, i: nat): nat
    requires i <= |cs| && forall q :: 0 <= q < |cs| ==> cs[q] < |data|
  {
    |Gather(data, cs[..i])|
  }

  lemma BaseIs(data: seq<seq<byte>>, cs: seq<nat>, cb: nat, i: nat)
    requires Blocks(data, cs, cb) && i <= |cs|
    ensures Base(data, cs, i) == cb * i
  {
    GatherLen(data, cs[..i], cb);
  }

  lemma BaseStep(data: seq<seq<byte>>, cs: seq<nat>, cb: nat, i: nat)
    requires Blocks(data, cs, cb) && i < |cs|
    ensures Base(data, cs, i + 1) == Base(data, cs, i) + cb <= |Gather(data, cs)|
    ensures Gather(data, cs)[Base(data, cs, i)..Base(data, cs, i) + cb] == data[cs[i]]
    ensures i + 1 == |cs| ==> Base(data, cs, i + 1) == |Gather(data, cs)|
  {
    BaseIs(data, cs, cb, i);
    BaseIs(data, cs, cb, i + 1);
    GatherAt(data, cs, cb, i);
    assert cs[..|cs|] == cs;
    assert cb * (i + 1) == cb * i + cb;
  }

  /** A read that stays in block i ends on a cluster boundary only at the block's end. */
  lemma EndOfPart(cb: nat, p: nat, n: nat, base: nat, i: nat)
    requires cb > 0 && base == cb * i && base <= p && n > 0 && p + n <= base + cb
    ensures (p + n) % cb == 0 <==> p + n == base + cb
  {
    if p + n < base + cb {
      BlockOf(cb, p + n, base, i);
    } else {
      assert cb * (i + 1) == base + cb;
      BlockOf(cb, p + n, base + cb, i + 1);
    }
  }

  /** Clusters are whole sectors, so an offset has the same place in its sector either way. */
  lemma SectorOffset(spc: nat, p: nat)
    requires spc > 0
    ensures p % SECTOR == p % (spc * SECTOR) % SECTOR
  {
    var cb := spc * SECTOR;
    assert p == cb * (p / cb) + p % cb;
    assert cb * (p / cb) == SECTOR * (spc * (p / cb));
  }

  /** Which cluster of a chain holds offset off. */
  function ClusterIndex(off: nat, cb: nat): nat
    requires cb > 0
  {
    off / cb
  }

  /** Inside block i the remainder of an offset is its distance from the block's start. */
  lemma BlockOf(cb: nat, p: nat, base: nat, i: nat)
    requires cb > 0 && base == cb * i && base <= p < base + cb
    ensures p % cb == p - base
  {
    var q, r := p / cb, p % cb;
    assert p == cb * q + r;
    if q < i {
      NextBlock(q, i, cb);
    } else if i < q {
      NextBlock(i, q, cb);
    }
  }

  /** Following the table n steps, as both offset readers begin. */
  method SkipClusters(vol: Volume, first: nat, n: nat, ghost cs: seq<nat>) returns (cluster: nat)
    requires vol.Valid() && Visits(vol.View().fat, first, cs)
    requires cs == [] ==> vol.View().fat[0] >= END_MARK
    ensures cs != [] ==> cluster == AtStep(vol.View().fat, cs, Min(n, |cs|))
    ensures cs == [] ==> cluster == 0 || cluster >= END_MARK
  {
    cluster := first;
    var i := 0;
    while i < n && cluster < END_MARK
      invariant i <= n
      invariant cs == [] ==> cluster == 0 || cluster >= END_MARK
      invariant cs != [] ==> cluster == AtStep(vol.View().fat, cs, Min(i, |cs|)) && i <= |cs|
    {
      if cs != [] {
        Advance(vol.View().fat, cs, i);
      }
      cluster := vol.GetFat(cluster);
      i := i + 1;
    }
  }

  /** One round of `elf_read_at`: what the sector at file offset p still holds, `left`
      bytes at most, and whether that ends the cluster. Block i of the file starts at base. */
  method ReadPart(vol: Volume, cluster: nat, p: nat, left: nat, ghost i: nat, ghost base: nat)
    returns (part: seq<byte>, crossed: bool)
    requires vol.Valid() && 2 <= cluster < vol.g.Clusters() && left > 0
    requires base == vol.g.ClusterBytes() * i && base <= p < base + vol.g.ClusterBytes()
    ensures 0 < |part| <= left && p + |part| <= base + vol.g.ClusterBytes()
    ensures part == Piece(vol.View().data[cluster], p - base, |part|)
    ensures crossed <==> p + |part| == base + vol.g.ClusterBytes()
  {
    var cb := vol.g.ClusterBytes();
    SectorOffset(vol.g.spc, p);
    BlockOf(cb, p, base, i);
    var posInCluster := p % cb;
    var posInSector := p % SECTOR;
    SectorInBlock(vol.g.spc, posInCluster);
    var buf := vol.ReadSector(cluster, posInCluster / SECTOR);
    var canCopy := SECTOR - posInSector;
    if canCopy > left {
      canCopy := left;
    }
    part := buf[posInSector..posInSector + canCopy];
    ghost var b := vol.View().data[cluster];
    ghost var sec := posInCluster / SECTOR;
    SubSlice(b, SECTOR * sec, SECTOR * sec + SECTOR, posInSector, posInSector + canCopy);
    EndOfPart(cb, p, canCopy, base, i);
    crossed := (p + canCopy) % cb == 0;
  }

  lemma SectorInBlock(spc: nat, r: nat)
    requires r < spc * SECTOR
    ensures r / SECTOR < spc && r == SECTOR * (r / SECTOR) + r % SECTOR
    ensures r + (SECTOR - r % SECTOR) <= spc * SECTOR
  {
  }

  /** Where an offset read stands: its bytes are the content's from off on, and block i holds the next one. */
  ghost predicate ReadingAt(data: seq<seq<byte>>, cs: seq<nat>, cb: nat, i: nat, off: nat, dest: seq<byte>)
    requires i <= |cs| && Blocks(data, cs, cb)
  {
    && dest == Piece(Gather(data, cs), off, |dest|)
    && if i < |cs| then Base(data, cs, i) <= off + |dest| < Base(data, cs, i) + cb
       else off + |dest| >= |Gather(data, cs)|
  }

  lemma ReadAtStep(data: seq<seq<byte>>, cs: seq<nat>, cb: nat, i: nat, off: nat, dest: seq<byte>, part: seq<byte>, crossed: bool)
    requires cb > 0 && i < |cs| && Blocks(data, cs, cb) && ReadingAt(data, cs, cb, i, off, dest)
    requires var p, base := off + |dest|, Base(data, cs, i);
      && part != [] && p + |part| <= base + cb && part == Piece(data[cs[i]], p - base, |part|)
      && (crossed <==> p + |part| == base + cb)
    ensures ReadingAt(data, cs, cb, if crossed then i + 1 else i, off, dest + part)
  {
    var base, p, content := Base(data, cs, i), off + |dest|, Gather(data, cs);
    BaseStep(data, cs, cb, i);
    SubSlice(content, base, base + cb, p - base, p - base + |part|);
    assert dest + part == Piece(content, off, |dest| + |part|);
    if i + 1 < |cs| {
      BaseStep(data, cs, cb, i + 1);
    }
  }

  /** One round of the loop: copy from the current sector, and step to the next cluster when it is used up. */
  method ReadRound(vol: Volume, cluster: nat, off: nat, len: nat, sofar: seq<byte>, ghost cs: seq<nat>, ghost i: nat)
    returns (dest: seq<byte>, next: nat, ghost j: nat)
    requires vol.Valid() && IsChain(vol.View().fat, cs) && i < |cs| && cluster == cs[i] && |sofar| < len
    requires ReadingAt(vol.View().data, cs, vol.g.ClusterBytes(), i, off, sofar)
    ensures |sofar| < |dest| <= len && i <= j <= |cs|
    ensures ReadingAt(vol.View().data, cs, vol.g.ClusterBytes(), j, off, dest)
    ensures next == AtStep(vol.View().fat, cs, j)
  {
    var cb := vol.g.ClusterBytes();
    BaseIs(vol.View().data, cs, cb, i);
    var part, crossed := ReadPart(vol, cluster, off + |sofar|, len - |sofar|, i, Base(vol.View().data, cs, i));
    ReadAtStep(vol.View().data, cs, cb, i, off, sofar, part, crossed);
    dest, next, j := sofar + part, cluster, i;
    if crossed {
      next := Follow(vol, cluster, cs, i);
      j := i + 1;
    }
  }

  /** `elf_read_at`: len bytes of the chain from file offset off, fewer only where the chain ends. */
  method ReadAt(vol: Volume, first: nat, off: nat, len: nat, ghost cs: seq<nat>) returns (dest: seq<byte>)
    requires vol.Valid() && Visits(vol.View().fat, first, cs)
    requires cs == [] ==> vol.View().fat[0] >= END_MARK
    requires Blocks(vol.View().data, cs, vol.g.ClusterBytes())
    ensures dest == Piece(Gather(vol.View().data, cs), off, len)
  {
    var cb := vol.g.ClusterBytes();
    var cluster := SkipClusters(vol, first, ClusterIndex(off, cb), cs);
    dest := [];
    ghost var i: nat := Min(ClusterIndex(off, cb), |cs|);
    ReadAtStart(vol.View().data, cs, cb, off);
    while |dest| < len && cluster >= 2 && cluster < END_MARK
      invariant |dest| <= len && i <= |cs|
      invariant if cs == [] then cluster == 0 || cluster >= END_MARK else cluster == AtStep(vol.View().fat, cs, i)
      invariant ReadingAt(vol.View().data, cs, cb, i, off, dest)
      decreases len - |dest|
    {
      dest, cluster, i := ReadRound(vol, cluster, off, len, dest, cs, i);
    }
  }

  lemma ReadAtStart(data: seq<seq<byte>>, cs: seq<nat>, cb: nat, off: nat)
    requires Blocks(data, cs, cb) && cb > 0
    ensures ReadingAt(data, cs, cb, Min(ClusterIndex(off, cb), |cs|), off, [])
  {
    GatherLen(data, cs, cb);
    BaseIs(data, cs, cb, Min(ClusterIndex(off, cb), |cs|));
    OffsetBlock(cb, off, |cs|);
  }

  lemma OffsetBlock(cb: nat, off: nat, n: nat)
    requires cb > 0
    ensures off / cb < n ==> cb * (off / cb) <= off < cb * (off / cb) + cb
    ensures off / cb >= n ==> off >= cb * n
  {
    var q := off / cb;
    assert off == cb * q + off % cb;
    if q > n {
      NextBlock(n, q, cb);
    }
  }
}
