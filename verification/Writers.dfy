/** The two chain builders: the cluster copy of `fat32_copy` and the bulk writer of `install_file`. */
module Writers {
  import opened Words
  import opened Volume
  import opened Chains
  import opened Readers

  /** The clusters' contents after block i was written to cluster ds[i], for every i. */
  function Stored(data: seq<seq<byte>>, ds: seq<nat>, bs: seq<seq<byte>>): (r: seq<seq<byte>>)
    requires |ds| <= |bs| && forall i :: 0 <= i < |ds| ==> ds[i] < |data|
    ensures |r| == |data|
  {
    if ds == [] then data else Stored(data, ds[..|ds| - 1], bs)[ds[|ds| - 1] := bs[|ds| - 1]]
  }

  lemma {:induction false} StoredFrame(data: seq<seq<byte>>, ds: seq<nat>, bs: seq<seq<byte>>, c: nat)
    requires |ds| <= |bs| && forall i :: 0 <= i < |ds| ==> ds[i] < |data|
    requires c < |data| && c !in ds
    ensures Stored(data, ds, bs)[c] == data[c]
  {
    if ds != [] {
      StoredFrame(data, ds[..|ds| - 1], bs, c);
    }
  }

  lemma {:induction false} StoredAt(data: seq<seq<byte>>, ds: seq<nat>, bs: seq<seq<byte>>, i: nat)
    requires |ds| <= |bs| && forall i :: 0 <= i < |ds| ==> ds[i] < |data|
    requires forall i, j :: 0 <= i < j < |ds| ==> ds[i] != ds[j]
    requires i < |ds|
    ensures Stored(data, ds, bs)[ds[i]] == bs[i]
  {
    if i < |ds| - 1 {
      StoredAt(data, ds[..|ds| - 1], bs, i);
    }
  }

  function Concat(bs: seq<seq<byte>>): seq<byte> {
    if bs == [] then [] else Concat(bs[..|bs| - 1]) + bs[|bs| - 1]
  }

  /** Reading the new chain gives the blocks in order. */
  lemma {:induction false} GatherStored(data: seq<seq<byte>>, ds: seq<nat>, bs: seq<seq<byte>>)
    requires |ds| <= |bs| && forall i :: 0 <= i < |ds| ==> ds[i] < |data|
    requires forall i, j :: 0 <= i < j < |ds| ==> ds[i] != ds[j]
    ensures Gather(Stored(data, ds, bs), ds) == Concat(bs[..|ds|])
  {
    var n := |ds|;
    if n > 0 {
      var es := ds[..n - 1];
      GatherStored(data, es, bs);
      forall i | 0 <= i < |es|
        ensures Stored(data, ds, bs)[es[i]] == Stored(data, es, bs)[es[i]]
      {
        assert es[i] != ds[n - 1];
      }
      GatherFrame(Stored(data, ds, bs), Stored(data, es, bs), es);
      assert bs[..n][..n - 1] == bs[..n - 1];
    }
  }

  // ---- taking clusters one at a time ----

  /** The table with the chain ds grown in it, ds being the first |ds| clusters to take. */
  predicate Growing(fat0: seq<nat>, ds: seq<nat>, fat: seq<nat>) {
    ds == Taken(fat0, |ds|) && fat == Grown(fat0, ds)
  }

  lemma GrowStep(fat0: seq<nat>, ds: seq<nat>, fat: seq<nat>, c: nat)
    requires Growing(fat0, ds, fat) && c == LeastFree(fat, 2) != 0
    ensures Growing(fat0, ds + [c], if ds == [] then fat[c := END] else fat[ds[|ds| - 1] := c][c := END])
  {
    assert (ds + [c])[..|ds|] == ds;
  }

  /** Once the disk is full, asking for more takes nothing more. */
  lemma {:induction false} TakenStops(fat0: seq<nat>, ds: seq<nat>, fat: seq<nat>, n: nat)
    requires Growing(fat0, ds, fat) && LeastFree(fat, 2) == 0 && |ds| <= n
    ensures Taken(fat0, n) == ds
    decreases n
  {
    if |ds| < n {
      TakenStops(fat0, ds, fat, n - 1);
    }
  }

  /** Mark a cluster as the end of a chain, hung behind `last` unless it is the first. */
  method Link(vol: Volume, last: nat, next: nat)
    requires vol.Valid() && last < vol.g.Clusters() && next < vol.g.Clusters()
    modifies vol
    ensures vol.Valid()
    ensures var fat := old(vol.View().fat);
      vol.View() == Disk(if last == 0 then fat[next := END] else fat[last := next][next := END], old(vol.View().data))
  {
    assert next % FAT_MASK == next && END % FAT_MASK == END;
    if last != 0 {
      vol.SetFat(last, next);
    }
    vol.SetFat(next, END);
  }

  /** Take the least free cluster and hang it behind the last one. */
  method Extend(vol: Volume, last: nat, ghost fat0: seq<nat>, ghost ds: seq<nat>) returns (next: nat)
    requires vol.Valid() && Growing(fat0, ds, vol.View().fat)
    requires if ds == [] then last == 0 else last == ds[|ds| - 1]
    modifies vol
    ensures vol.Valid() && vol.View().data == old(vol.View().data)
    ensures next == 0 ==> vol.View() == old(vol.View()) && LeastFree(vol.View().fat, 2) == 0
    ensures next != 0 ==> Growing(fat0, ds + [next], vol.View().fat) && 2 <= next < vol.g.Clusters()
  {
    next := vol.FindFree();
    if next != 0 {
      GrowStep(fat0, ds, vol.View().fat, next);
      if ds != [] {
        LastTaken(fat0, ds);
      }
      Link(vol, last, next);
    }
  }

  lemma LastTaken(fat0: seq<nat>, ds: seq<nat>)
    requires ds == Taken(fat0, |ds|) && ds != []
    ensures 2 <= ds[|ds| - 1] < |fat0|
  {
    TakenFresh(fat0, |ds|);
  }

  // ---- fat32_copy ----

  /** How many blocks a copy of `size` bytes has; an empty file still gets one. */
  function CopyBlocks(size: nat, cb: nat): (n: nat)
    requires cb > 0
    ensures n >= 1
  {
    if size <= cb then 1 else 1 + CopyBlocks(size - cb, cb)
  }

  lemma {:induction false} CopyBlocksHold(size: nat, cb: nat)
    requires cb > 0
    ensures size <= cb * CopyBlocks(size, cb)
    ensures forall n: nat :: n >= 1 && size <= cb * n ==> CopyBlocks(size, cb) <= n
    decreases size
  {
    if size > cb {
      CopyBlocksHold(size - cb, cb);
      assert cb * CopyBlocks(size, cb) == cb * CopyBlocks(size - cb, cb) + cb;
      forall n: nat | n >= 1 && size <= cb * n
        ensures CopyBlocks(size, cb) <= n
      {
        assert cb * n == cb * (n - 1) + cb;
      }
    }
  }

  /** The blocks of a source chain. */
  function BlocksOf(data: seq<seq<byte>>, cs: seq<nat>): (bs: seq<seq<byte>>)
    requires forall i :: 0 <= i < |cs| ==> cs[i] < |data|
    ensures |bs| == |cs|
  {
    seq(|cs|, i requires 0 <= i < |cs| => data[cs[i]])
  }

  /** What a copy needs of its source: nothing for an empty file, else a chain. */
  predicate CanCopy(d: Disk, src: nat, size: nat, cs: seq<nat>, cb: nat)
    requires cb > 0
  {
    |d.data| == |d.fat| && (size > 0 ==> StartsChain(d.fat, src, cs))
  }

  /** How many clusters a copy asks for: those its size needs, or one more than the source
      has when that chain is too short for its size. */
  function CopyAsks(size: nat, len: nat, cb: nat): (n: nat)
    requires cb > 0
    ensures n >= 1
  {
    if CopyBlocks(size, cb) <= len + 1 then CopyBlocks(size, cb) else len + 1
  }

  /** The clusters of ds that have a source cluster at their place. */
  function Fed(ds: seq<nat>, len: nat): seq<nat> {
    if |ds| <= len then ds else ds[..len]
  }

  /** The volume after a copy took its clusters and filled them from cs. */
  function Copied(d: Disk, src: nat, size: nat, cs: seq<nat>, cb: nat): Disk
    requires cb > 0 && CanCopy(d, src, size, cs, cb)
  {
    var ds := Taken(d.fat, CopyAsks(size, |cs|, cb));
    Disk(Grown(d.fat, ds), if size == 0 then d.data else Stored(d.data, Fed(ds, |cs|), BlocksOf(d.data, cs)))
  }

  /** A chain and freshly taken clusters have nothing in common. */
  lemma ChainNotFresh(fat: seq<nat>, cs: seq<nat>, ds: seq<nat>, i: nat)
    requires IsChain(fat, cs) && Fresh(fat, ds) && i < |cs|
    ensures cs[i] !in ds && fat[cs[i]] != 0
  {
    if i < |cs| - 1 {
      assert fat[cs[i]] == cs[i + 1];
    }
  }

  /** Where a copy stands with the clusters ds taken: every block before the last is
      stored, and the last too once nothing remains. */
  ghost predicate Copying(d0: Disk, cs: seq<nat>, ds: seq<nat>, d: Disk, size: nat, remaining: nat, cb: nat)
    requires cb > 0 && |d0.fat| == |d0.data| && IsChain(d0.fat, cs)
  {
    && Growing(d0.fat, ds, d.fat)
    && 1 <= |ds| <= |cs| + 1
    && if remaining > 0
       then |ds| - 1 + CopyBlocks(remaining, cb) == CopyBlocks(size, cb)
            && d.data == Stored(d0.data, ds[..|ds| - 1], BlocksOf(d0.data, cs))
       else |ds| <= |cs| && |ds| == CopyBlocks(size, cb) && d.data == Stored(d0.data, ds, BlocksOf(d0.data, cs))
  }

  /** The source block a copy reads is untouched, and so is the way to the next one. */
  lemma CopyReads(d0: Disk, cs: seq<nat>, ds: seq<nat>, d: Disk, size: nat, remaining: nat, cb: nat)
    requires cb > 0 && |d0.fat| == |d0.data| && IsChain(d0.fat, cs)
    requires Copying(d0, cs, ds, d, size, remaining, cb) && remaining > 0 && |ds| <= |cs|
    ensures |d.data| == |d0.data| && |d.fat| == |d0.fat|
    ensures d.data[cs[|ds| - 1]] == d0.data[cs[|ds| - 1]]
    ensures d.fat[cs[|ds| - 1]] == d0.fat[cs[|ds| - 1]]
    ensures d.data[ds[|ds| - 1] := d.data[cs[|ds| - 1]]] == Stored(d0.data, ds, BlocksOf(d0.data, cs))
  {
    var k := |ds|;
    TakenFresh(d0.fat, k);
    ChainNotFresh(d0.fat, cs, ds, k - 1);
    GrownFrame(d0.fat, ds, cs[k - 1]);
    StoredFrame(d0.data, ds[..k - 1], BlocksOf(d0.data, cs), cs[k - 1]);
  }

  method CopyCluster(vol: Volume, from: nat, dest: nat)
    requires vol.Valid() && 2 <= from < vol.g.Clusters() && 2 <= dest < vol.g.Clusters()
    modifies vol
    ensures vol.Valid()
    ensures vol.View() == Disk(old(vol.View().fat), old(vol.View().data)[dest := old(vol.View().data)[from]])
  {
    var buf := vol.ReadCluster(from);
    assert Onto(vol.View().data[dest], buf) == buf;
    vol.WriteCluster(dest, buf);
  }

  /** The body of the copy loop: fill the cluster taken last. */
  method CopyBlock(vol: Volume, from: nat, dest: nat, remaining: nat, ghost d0: Disk, ghost cs: seq<nat>, ghost ds: seq<nat>, ghost size: nat)
    returns (left: nat)
    requires vol.Valid() && |d0.fat| == |d0.data| && IsChain(d0.fat, cs)
    requires Copying(d0, cs, ds, vol.View(), size, remaining, vol.g.ClusterBytes()) && remaining > 0 && |ds| <= |cs|
    requires from == cs[|ds| - 1] && dest == ds[|ds| - 1]
    modifies vol
    ensures vol.Valid() && left < remaining && vol.View().fat == old(vol.View().fat)
    ensures vol.View().data == Stored(d0.data, ds, BlocksOf(d0.data, cs))
    ensures left == 0 <==> |ds| == CopyBlocks(size, vol.g.ClusterBytes())
    ensures left > 0 ==> |ds| + CopyBlocks(left, vol.g.ClusterBytes()) == CopyBlocks(size, vol.g.ClusterBytes())
    ensures vol.View().fat[from] == d0.fat[from]
  {
    var cb := vol.g.ClusterBytes();
    CopyReads(d0, cs, ds, vol.View(), size, remaining, cb);
    LastTaken(d0.fat, ds);
    CopyCluster(vol, from, dest);
    left := remaining - (if remaining > cb then cb else remaining);
  }

  /** The loop's end, however it comes about: nothing remains, the source chain has ended, or
      the disk is full. */
  lemma CopyEnds(d0: Disk, src: nat, cs: seq<nat>, ds: seq<nat>, d: Disk, size: nat, remaining: nat, cb: nat)
    requires cb > 0 && size > 0 && CanCopy(d0, src, size, cs, cb) && Copying(d0, cs, ds, d, size, remaining, cb)
    requires remaining == 0 || |ds| == |cs| + 1
    ensures d == Copied(d0, src, size, cs, cb) && ds == Taken(d0.fat, CopyAsks(size, |cs|, cb))
  {
  }

  lemma CopyStops(d0: Disk, src: nat, cs: seq<nat>, ds: seq<nat>, d: Disk, size: nat, cb: nat)
    requires cb > 0 && size > 0 && CanCopy(d0, src, size, cs, cb) && Growing(d0.fat, ds, d.fat)
    requires |ds| <= |cs| && |ds| < CopyBlocks(size, cb) && d.data == Stored(d0.data, ds, BlocksOf(d0.data, cs))
    requires LeastFree(d.fat, 2) == 0
    ensures d == Copied(d0, src, size, cs, cb) && ds == Taken(d0.fat, CopyAsks(size, |cs|, cb))
  {
    TakenStops(d0.fat, ds, d.fat, CopyAsks(size, |cs|, cb));
  }

  /** The copy loop, entered with one cluster taken. */
  method CopyLoop(vol: Volume, src: nat, first: nat, size: nat, ghost d0: Disk, ghost cs: seq<nat>)
    requires vol.Valid() && size > 0 && CanCopy(d0, src, size, cs, vol.g.ClusterBytes())
    requires Growing(d0.fat, [first], vol.View().fat) && vol.View().data == d0.data
    modifies vol
    ensures vol.Valid() && vol.View() == Copied(d0, src, size, cs, vol.g.ClusterBytes())
    ensures var ds := Taken(d0.fat, CopyAsks(size, |cs|, vol.g.ClusterBytes())); ds != [] && ds[0] == first
  {
    var cb := vol.g.ClusterBytes();
    ghost var ds := [first];
    var dest, from, remaining := first, src, size;
    while remaining > 0 && from < END_MARK
      invariant vol.Valid() && Copying(d0, cs, ds, vol.View(), size, remaining, cb)
      invariant ds[0] == first
      invariant remaining > 0 ==> dest == ds[|ds| - 1] && from == AtStep(d0.fat, cs, |ds| - 1)
      decreases remaining
    {
      var left := CopyBlock(vol, from, dest, remaining, d0, cs, ds, size);
      if left > 0 {
        Advance(d0.fat, cs, |ds| - 1);
        from := vol.GetFat(from);
        var next := Extend(vol, dest, d0.fat, ds);
        if next == 0 {
          CopyStops(d0, src, cs, ds, vol.View(), size, cb);
          return;
        }
        assert (ds + [next])[..|ds|] == ds;
        ds := ds + [next];
        dest := next;
      }
      remaining := left;
    }
    CopyEnds(d0, src, cs, ds, vol.View(), size, remaining, cb);
  }

  /** The chain `fat32_copy` builds: the least free clusters in turn, each filled from
      the source cluster at its place. An empty source still costs one cluster. */
  method CopyChain(vol: Volume, src: nat, size: nat, ghost cs: seq<nat>) returns (first: nat)
    requires vol.Valid() && CanCopy(vol.View(), src, size, cs, vol.g.ClusterBytes())
    modifies vol
    ensures vol.Valid()
    ensures vol.View() == Copied(old(vol.View()), src, size, cs, vol.g.ClusterBytes())
    ensures var ds := Taken(old(vol.View().fat), CopyAsks(size, |cs|, vol.g.ClusterBytes()));
      first == if ds == [] then 0 else ds[0]
  {
    ghost var d0 := vol.View();
    var cb := vol.g.ClusterBytes();
    first := Extend(vol, 0, d0.fat, []);
    if first == 0 {
      TakenStops(d0.fat, [], d0.fat, CopyAsks(size, |cs|, cb));
      return;
    }
    if size > 0 {
      CopyLoop(vol, src, first, size, d0, cs);
    }
  }

  /** The copy of a chain long enough reads as the source does: same bytes, up to the size copied. */
  lemma CopyReadsBack(d: Disk, src: nat, size: nat, cs: seq<nat>, cb: nat)
    requires cb > 0 && size > 0 && CanCopy(d, src, size, cs, cb) && Blocks(d.data, cs, cb)
    requires CopyBlocks(size, cb) <= |cs| && |Taken(d.fat, CopyBlocks(size, cb))| == CopyBlocks(size, cb)
    ensures var ds := Taken(d.fat, CopyBlocks(size, cb));
      var e := Copied(d, src, size, cs, cb);
      && size <= |Gather(e.data, ds)| && size <= |Gather(d.data, cs)|
      && Gather(e.data, ds)[..size] == Gather(d.data, cs)[..size]
  {
    var n := CopyBlocks(size, cb);
    TakenFresh(d.fat, n);
    CopyBlocksHold(size, cb);
    StoredReadsBack(d.data, cs, Taken(d.fat, n), n, size, cb);
  }

  lemma StoredReadsBack(data: seq<seq<byte>>, cs: seq<nat>, ds: seq<nat>, n: nat, size: nat, cb: nat)
    requires |ds| == n <= |cs| && Blocks(data, cs, cb) && size <= cb * n
    requires (forall i :: 0 <= i < |ds| ==> ds[i] < |data|) && forall i, j :: 0 <= i < j < |ds| ==> ds[i] != ds[j]
    ensures var g := Gather(Stored(data, ds, BlocksOf(data, cs)), ds);
      size <= |g| && size <= |Gather(data, cs)| && g[..size] == Gather(data, cs)[..size]
  {
    GatherStored(data, ds, BlocksOf(data, cs));
    ConcatBlocks(data, cs, n);
    GatherPrefix(data, cs, n);
    GatherLen(data, cs[..n], cb);
  }

  lemma {:induction false} ConcatBlocks(data: seq<seq<byte>>, cs: seq<nat>, n: nat)
    requires n <= |cs| && forall i :: 0 <= i < |cs| ==> cs[i] < |data|
    ensures Concat(BlocksOf(data, cs)[..n]) == Gather(data, cs[..n])
  {
    if n > 0 {
      ConcatBlocks(data, cs, n - 1);
      assert BlocksOf(data, cs)[..n][..n - 1] == BlocksOf(data, cs)[..n - 1];
      assert cs[..n][..n - 1] == cs[..n - 1];
    }
  }

  /** A source whose chain is too short for its size, left by a copy that filled the disk: its copy
      has one cluster more than it, the source's clusters in order and then one nobody wrote to. */
  lemma CopyOfCutShort(d: Disk, src: nat, size: nat, cs: seq<nat>, cb: nat, ds: seq<nat>)
    requires cb > 0 && CanCopy(d, src, size, cs, cb) && Blocks(d.data, cs, cb) && cb * |cs| < size
    requires ds == Taken(d.fat, |cs| + 1) && |ds| == |cs| + 1
    ensures var e := Copied(d, src, size, cs, cb);
      && e.fat == Grown(d.fat, ds)
      && (forall i :: 0 <= i < |ds| ==> ds[i] < |e.data|) && Gather(e.data, ds[..|cs|]) == Gather(d.data, cs)
      && ds[|cs|] < |d.data| && e.data[ds[|cs|]] == d.data[ds[|cs|]]
  {
    TakenFresh(d.fat, |cs| + 1);
    NoFewerBlocks(size, cb, |cs|);
    AllStored(d.data, cs, ds);
    CopiedIs(d, src, size, cs, cb, ds);
  }

  lemma CopiedIs(d: Disk, src: nat, size: nat, cs: seq<nat>, cb: nat, ds: seq<nat>)
    requires cb > 0 && CanCopy(d, src, size, cs, cb) && size > 0 && CopyBlocks(size, cb) > |cs|
    requires ds == Taken(d.fat, |cs| + 1) && |ds| == |cs| + 1
    requires forall i :: 0 <= i < |cs| ==> cs[i] < |d.data|
    ensures Copied(d, src, size, cs, cb) == Disk(Grown(d.fat, ds), Stored(d.data, ds[..|cs|], BlocksOf(d.data, cs)))
  {
    assert CopyAsks(size, |cs|, cb) == |cs| + 1;
    assert Fed(ds, |cs|) == ds[..|cs|];
  }

  lemma AllStored(data: seq<seq<byte>>, cs: seq<nat>, ds: seq<nat>)
    requires |ds| == |cs| + 1 && forall i :: 0 <= i < |cs| ==> cs[i] < |data|
    requires (forall i :: 0 <= i < |ds| ==> ds[i] < |data|) && forall i, j :: 0 <= i < j < |ds| ==> ds[i] != ds[j]
    ensures var r := Stored(data, ds[..|cs|], BlocksOf(data, cs));
      Gather(r, ds[..|cs|]) == Gather(data, cs) && r[ds[|cs|]] == data[ds[|cs|]]
  {
    var fed := ds[..|cs|];
    GatherStored(data, fed, BlocksOf(data, cs));
    ConcatBlocks(data, cs, |cs|);
    assert BlocksOf(data, cs)[..|cs|] == BlocksOf(data, cs) && cs[..|cs|] == cs;
    StoredFrame(data, fed, BlocksOf(data, cs), ds[|cs|]);
  }

  lemma NoFewerBlocks(size: nat, cb: nat, n: nat)
    requires cb > 0 && cb * n < size
    ensures CopyBlocks(size, cb) > n
  {
    CopyBlocksHold(size, cb);
    assert cb * (n + 1) == cb * n + cb;
    NoMore(cb, n + 1, CopyBlocks(size, cb), size);
  }

  // ---- install_file ----

  /** How many clusters the installer takes for a number of sectors. */
  function InstallBlocks(sectors: nat, spc: nat): nat
    requires spc > 0
  {
    if sectors == 0 then 0 else if sectors <= spc then 1 else 1 + InstallBlocks(sectors - spc, spc)
  }

  lemma InstallRound(left: nat, spc: nat)
    requires spc > 0 && left > 0
    ensures InstallBlocks(left, spc) == 1 + InstallBlocks(left - Min(spc, left), spc)
  {
  }

  lemma {:induction false} InstallBlocksIs(sectors: nat, spc: nat)
    requires spc > 0
    ensures InstallBlocks(sectors, spc) == (sectors + spc - 1) / spc
    decreases sectors
  {
    var q := (sectors + spc - 1) / spc;
    var r := (sectors + spc - 1) % spc;
    assert sectors + spc - 1 == spc * q + r;
    if sectors > spc {
      InstallBlocksIs(sectors - spc, spc);
      BlockNumber(sectors - spc + spc - 1, spc, q - 1, r);
    } else if sectors > 0 {
      BlockNumber(sectors + spc - 1, spc, 1, sectors - 1);
    } else {
      BlockNumber(spc - 1, spc, 0, spc - 1);
    }
  }

  lemma BlockNumber(a: nat, b: nat, q: nat, r: nat)
    requires r < b && a == b * q + r
    ensures a / b == q
  {
    var p := a / b;
    assert a == b * p + a % b;
    if p < q {
      NextBlock(p, q, b);
    } else if q < p {
      NextBlock(q, p, b);
    }
  }

  /** How many clusters of cb bytes hold `size` bytes. */
  function BlocksFor(size: nat, cb: nat): nat
    requires cb > 0
  {
    (size + cb - 1) / cb
  }

  lemma BlocksForHold(size: nat, cb: nat)
    requires cb > 0
    ensures size <= cb * BlocksFor(size, cb) < size + cb
  {
    var q, r := (size + cb - 1) / cb, (size + cb - 1) % cb;
    assert size + cb - 1 == cb * q + r;
  }

  /** Rounding up to sectors and then to clusters rounds up to clusters. */
  lemma InstallIsBlocksFor(size: nat, spc: nat)
    requires spc > 0
    ensures InstallBlocks((size + SECTOR - 1) / SECTOR, spc) == BlocksFor(size, spc * SECTOR)
  {
    var sectors := (size + SECTOR - 1) / SECTOR;
    var n, m := InstallBlocks(sectors, spc), BlocksFor(size, spc * SECTOR);
    InstallBlocksIs(sectors, spc);
    BlocksForHold(sectors, spc);
    BlocksForHold(size, spc * SECTOR);
    RoundTwice(size, sectors, spc, n, m);
  }

  lemma RoundTwice(size: nat, sectors: nat, spc: nat, n: nat, m: nat)
    requires spc > 0 && SECTOR * sectors - SECTOR < size <= SECTOR * sectors
    requires sectors <= spc * n < sectors + spc && size <= spc * SECTOR * m < size + spc * SECTOR
    ensures n == m
  {
    assert spc * SECTOR * m == SECTOR * (spc * m);
    NoMore(spc, n, m, sectors);
    NoMore(spc, m, n, sectors);
  }

  lemma NoMore(c: nat, n: nat, m: nat, s: nat)
    requires c * n < s + c && s <= c * m
    ensures n <= m
  {
    var k := n - m;
    assert c * n == c * m + c * k;
    assert c * k < c;
  }

  /** Where an installation stands: the blocks written so far begin with mem's first `at` bytes. */
  ghost predicate Installing(d0: Disk, ds: seq<nat>, bs: seq<seq<byte>>, d: Disk, mem: seq<byte>, at: nat, more: bool) {
    && |d0.fat| == |d0.data|
    && Growing(d0.fat, ds, d.fat) && |bs| == |ds|
    && d.data == Stored(d0.data, ds, bs)
    && at <= |Concat(bs)| && at <= |mem| && Concat(bs)[..at] == mem[..at]
    && (more ==> |Concat(bs)| == at)
  }

  lemma InstallStep(d0: Disk, ds: seq<nat>, bs: seq<seq<byte>>, mem: seq<byte>, at: nat, c: nat, b: seq<byte>, n: nat)
    requires |d0.fat| == |d0.data| && |bs| == |ds| && InTable(d0.fat, ds) && c < |d0.fat|
    requires at + n <= |mem| && |Concat(bs)| == at && Concat(bs)[..at] == mem[..at]
    requires n <= |b| && b[..n] == mem[at..at + n]
    ensures Stored(d0.data, ds + [c], bs + [b]) == Stored(d0.data, ds, bs)[c := b]
    ensures Concat(bs + [b]) == Concat(bs) + b && Concat(bs + [b])[..at + n] == mem[..at + n]
  {
    assert (bs + [b])[..|bs|] == bs && (ds + [c])[..|ds|] == ds;
    StoredPrefix(d0.data, ds, bs, bs + [b]);
  }

  lemma {:induction false} StoredPrefix(data: seq<seq<byte>>, ds: seq<nat>, bs: seq<seq<byte>>, cs: seq<seq<byte>>)
    requires |ds| <= |bs| && bs <= cs && forall i :: 0 <= i < |ds| ==> ds[i] < |data|
    ensures Stored(data, ds, bs) == Stored(data, ds, cs)
  {
    if ds != [] {
      StoredPrefix(data, ds[..|ds| - 1], bs, cs);
    }
  }

  /** Write n bytes of mem, whole sectors, to a cluster just taken. */
  method InstallWrite(vol: Volume, clus: nat, mem: seq<byte>, at: nat, n: nat,
                      ghost d0: Disk, ghost ds: seq<nat>, ghost bs: seq<seq<byte>>) returns (ghost cs: seq<seq<byte>>)
    requires vol.Valid() && 2 <= clus < vol.g.Clusters()
    requires |d0.fat| == |d0.data| && |bs| == |ds| && InTable(d0.fat, ds)
    requires Growing(d0.fat, ds + [clus], vol.View().fat) && vol.View().data == Stored(d0.data, ds, bs)
    requires n % SECTOR == 0 && n <= vol.g.ClusterBytes() && at + n <= |mem|
    requires |Concat(bs)| == at && Concat(bs)[..at] == mem[..at]
    modifies vol
    ensures vol.Valid() && Installing(d0, ds + [clus], cs, vol.View(), mem, at + n, n == vol.g.ClusterBytes())
  {
    ghost var b := Onto(vol.View().data[clus], mem[at..at + n]);
    InstallStep(d0, ds, bs, mem, at, clus, b, n);
    cs := bs + [b];
    vol.WriteCluster(clus, mem[at..at + n]);
  }

  lemma RoundSize(done: nat, sectors: nat, spc: nat, w: nat, now: nat)
    requires done < sectors && spc > 0 && w == (if done + spc > sectors then sectors - done else spc) && now == done + w
    ensures InstallBlocks(sectors - done, spc) == 1 + InstallBlocks(sectors - now, spc)
    ensures SECTOR * done + SECTOR * w == SECTOR * now <= SECTOR * sectors && SECTOR * w % SECTOR == 0
    ensures SECTOR * w <= spc * SECTOR && (now < sectors ==> SECTOR * w == spc * SECTOR)
  {
    InstallRound(sectors - done, spc);
  }

  /** One round of the installer: as many sectors as the cluster holds or are left. */
  method InstallOne(vol: Volume, clus: nat, mem: seq<byte>, done: nat, sectors: nat,
                    ghost d0: Disk, ghost ds: seq<nat>, ghost bs: seq<seq<byte>>)
    returns (now: nat, ghost cs: seq<seq<byte>>)
    requires vol.Valid() && 2 <= clus < vol.g.Clusters()
    requires |d0.fat| == |d0.data| && |bs| == |ds| && InTable(d0.fat, ds)
    requires Growing(d0.fat, ds + [clus], vol.View().fat) && vol.View().data == Stored(d0.data, ds, bs)
    requires done < sectors && SECTOR * sectors <= |mem|
    requires |Concat(bs)| == SECTOR * done && Concat(bs)[..SECTOR * done] == mem[..SECTOR * done]
    modifies vol
    ensures vol.Valid() && done <= now <= sectors
    ensures InstallBlocks(sectors - done, vol.g.spc) == 1 + InstallBlocks(sectors - now, vol.g.spc)
    ensures Installing(d0, ds + [clus], cs, vol.View(), mem, SECTOR * now, now < sectors)
  {
    var writeSectors := if done + vol.g.spc > sectors then sectors - done else vol.g.spc;
    now := done + writeSectors;
    RoundSize(done, sectors, vol.g.spc, writeSectors, now);
    cs := InstallWrite(vol, clus, mem, SECTOR * done, SECTOR * writeSectors, d0, ds, bs);
    SameInstalling(d0, ds + [clus], cs, vol.View(), mem, SECTOR * done + SECTOR * writeSectors, SECTOR * now,
                   SECTOR * writeSectors == vol.g.ClusterBytes(), now < sectors);
  }

  lemma SameInstalling(d0: Disk, ds: seq<nat>, bs: seq<seq<byte>>, d: Disk, mem: seq<byte>, at: nat, same: nat, more: bool, wants: bool)
    requires Installing(d0, ds, bs, d, mem, at, more) && at == same && (wants ==> more)
    ensures Installing(d0, ds, bs, d, mem, same, wants)
  {
  }

  /** `install_file` without its directory part: the first `size` bytes of mem, written in
      whole sectors to clusters taken in turn; 0 clusters for an empty file. It gives up
      when the disk is full. mem is the memory from the data pointer on. */
  method InstallChain(vol: Volume, mem: seq<byte>, size: nat)
    returns (ok: bool, first: nat, ghost ds: seq<nat>, ghost bs: seq<seq<byte>>)
    requires vol.Valid() && SECTOR * ((size + SECTOR - 1) / SECTOR) <= |mem|
    modifies vol
    ensures vol.Valid()
    ensures var n := InstallBlocks((size + SECTOR - 1) / SECTOR, vol.g.spc);
      ds == Taken(old(vol.View().fat), n) && (ok <==> |ds| == n)
    ensures first == if ds == [] then 0 else ds[0]
    ensures |bs| == |ds| && vol.View() == Disk(Grown(old(vol.View().fat), ds), Stored(old(vol.View().data), ds, bs))
    ensures ok ==> size <= |Concat(bs)| && Concat(bs)[..size] == mem[..size]
  {
    ghost var d0 := vol.View();
    var sectors := (size + SECTOR - 1) / SECTOR;
    var needed := ClustersFor(sectors, vol.g.spc);
    first, ds, bs := 0, [], [];
    var prev: nat, done: nat, c: nat := 0, 0, 0;   // done is c * spc until the last round
    while c < needed
      invariant c == |ds| && vol.Valid() && done <= sectors
      invariant Installing(d0, ds, bs, vol.View(), mem, SECTOR * done, done < sectors)
      invariant prev == if ds == [] then 0 else ds[|ds| - 1]
      invariant first == if ds == [] then 0 else ds[0]
      invariant c + InstallBlocks(sectors - done, vol.g.spc) == needed
    {
      var clus := Extend(vol, prev, d0.fat, ds);
      if clus == 0 {
        TakenStops(d0.fat, ds, vol.View().fat, needed);
        return false, first, ds, bs;
      }
      if c == 0 { first := clus; }
      done, bs := InstallOne(vol, clus, mem, done, sectors, d0, ds, bs);
      ds := ds + [clus];
      prev := clus;
      c := c + 1;
    }
    FirstBytes(Concat(bs), mem, SECTOR * sectors, size);
    return true, first, ds, bs;
  }

  lemma FirstBytes(a: seq<byte>, b: seq<byte>, n: nat, m: nat)
    requires m <= n <= |a| && n <= |b| && a[..n] == b[..n]
    ensures a[..m] == b[..m]
  {
    assert a[..m] == a[..n][..m] && b[..m] == b[..n][..m];
  }

  method ClustersFor(sectors: nat, spc: nat) returns (n: nat)
    requires spc > 0
    ensures n == InstallBlocks(sectors, spc)
  {
    InstallBlocksIs(sectors, spc);
    n := (sectors + spc - 1) / spc;
  }
}
