/** The files of a volume and what keeps them apart: every file's chain is complete and
    shares no cluster with another file or a directory. */
module FileSystem {
  import opened Words
  import opened Names
  import opened Slots
  import opened Directory
  import opened DirectoryEdit
  import opened DirectoryLaws
  import opened Volume
  import opened Chains
  import opened Tree
  import opened Paths

  function SlotAt(d: Disk, f: Found): Slot {
    if f.slot < |Dir(d, f.dir)| then Dir(d, f.dir)[f.slot] else seq(SLOT, _ => 0)
  }

  /** A live entry in a known directory. */
  predicate KnownSlot(d: Disk, rank: map<nat, nat>, f: Found) {
    f.dir in rank && f.slot < |Dir(d, f.dir)| && Short(SlotAt(d, f))
  }

  /** One that is no directory. */
  ghost predicate IsFile(d: Disk, rank: map<nat, nat>, f: Found) {
    KnownSlot(d, rank, f) && !IsDirectory(SlotAt(d, f))
  }

  /** The clusters from c on; none for an empty file. */
  ghost function ClustersFrom(fat: seq<nat>, c: nat): seq<nat> {
    if HasChain(fat, c) then ChainOf(fat, c) else []
  }

  ghost function ChainAt(d: Disk, f: Found): seq<nat> {
    ClustersFrom(d.fat, FirstCluster(SlotAt(d, f)))
  }

  /** A chain that holds no directory, or nothing for cluster 0. */
  ghost predicate ChainOk(fat: seq<nat>, rank: map<nat, nat>, head: nat, size: nat)
  {
    && (if head == 0 then size == 0 && ClustersFrom(fat, head) == [] else HasChain(fat, head))
    && forall x :: x in ClustersFrom(fat, head) ==> x !in rank
  }

  ghost predicate FileOk(d: Disk, rank: map<nat, nat>, f: Found) {
    ChainOk(d.fat, rank, FirstCluster(SlotAt(d, f)), FileSize(SlotAt(d, f)))
  }

  ghost predicate Disjoint(cs: seq<nat>, ds: seq<nat>) {
    forall x :: x in cs ==> x !in ds
  }

  ghost predicate AllFilesOk(d: Disk, rank: map<nat, nat>) {
    forall f :: IsFile(d, rank, f) ==> FileOk(d, rank, f)
  }

  ghost predicate AllApart(d: Disk, rank: map<nat, nat>) {
    forall f, g :: IsFile(d, rank, f) && IsFile(d, rank, g) && f != g ==> Disjoint(ChainAt(d, f), ChainAt(d, g))
  }

  /** A chain no entry names yet. */
  ghost predicate LooseOk(d: Disk, rank: map<nat, nat>, loose: seq<nat>) {
    && (loose != [] ==> IsChain(d.fat, loose))
    && (forall x :: x in loose ==> x !in rank)
    && (forall f :: IsFile(d, rank, f) ==> Disjoint(ChainAt(d, f), loose))
  }

  /** A consistent file system; `loose` is a chain being built for an entry to come. */
  ghost predicate FsOk(d: Disk, root: u32, rank: map<nat, nat>, cb: nat, loose: seq<nat>) {
    && TreeOk(d, root, rank, cb) && cb >= 2 * SLOT
    && Closed(d.fat)
    && AllFilesOk(d, rank) && AllApart(d, rank) && LooseOk(d, rank, loose)
  }

  // ---- what an operation leaves alone ----

  /** The entry, the clusters and the bytes of f are what they were. */
  ghost predicate FileKept(d: Disk, e: Disk, more: map<nat, nat>, f: Found) {
    && IsFile(e, more, f)
    && SlotAt(e, f) == SlotAt(d, f)
    && ChainAt(e, f) == ChainAt(d, f)
    && forall x :: x in ChainAt(d, f) ==> x < |d.data| && x < |e.data| && e.data[x] == d.data[x]
  }

  ghost predicate FilesKept(d: Disk, e: Disk, rank: map<nat, nat>, more: map<nat, nat>) {
    forall f :: IsFile(d, rank, f) ==> FileKept(d, e, more, f)
  }

  ghost predicate NoNewFiles(d: Disk, e: Disk, rank: map<nat, nat>, more: map<nat, nat>) {
    forall f :: IsFile(e, more, f) ==> IsFile(d, rank, f)
  }

  lemma ChainInTable(fat: seq<nat>, c: nat)
    ensures forall x :: x in ClustersFrom(fat, c) ==> 2 <= x < |fat| && fat[x] != 0
    ensures HasChain(fat, c) ==> IsChain(fat, ClustersFrom(fat, c)) && ClustersFrom(fat, c)[0] == c && 2 <= c < |fat|
  {
    if HasChain(fat, c) {
      var cs := ChainOf(fat, c);
      forall x | x in cs
        ensures 2 <= x < |fat| && fat[x] != 0
      {
        var i :| 0 <= i < |cs| && cs[i] == x;
        if i < |cs| - 1 {
          assert fat[cs[i]] == cs[i + 1];
        }
      }
    }
  }

  /** A table that agrees on a chain has the same chain. */
  lemma SameChain(fat: seq<nat>, gat: seq<nat>, c: nat)
    requires HasChain(fat, c) && |gat| == |fat|
    requires forall x :: x in ClustersFrom(fat, c) ==> gat[x] == fat[x]
    ensures HasChain(gat, c) && ClustersFrom(gat, c) == ClustersFrom(fat, c)
  {
    ChainInTable(fat, c);
    ChainFrame(fat, gat, ChainOf(fat, c));
    ChainOfIs(gat, c, ChainOf(fat, c));
  }

  /** Cluster 0 starts no chain where its entry is an end mark or chains are kept. */
  lemma NoChainFromZero(fat: seq<nat>)
    ensures !HasChain(fat, 0)
  {
    if HasChain(fat, 0) {
      ChainInTable(fat, 0);
    }
  }

  /** A file whose entry and whose clusters' table entries survive keeps its chain. */
  lemma KeptWhen(d: Disk, e: Disk, rank: map<nat, nat>, more: map<nat, nat>, f: Found)
    requires IsFile(d, rank, f) && FileOk(d, rank, f)
    requires |e.fat| == |d.fat| == |d.data| == |e.data|
    requires IsFile(e, more, f) && SlotAt(e, f) == SlotAt(d, f)
    requires forall x :: x in ChainAt(d, f) ==> e.fat[x] == d.fat[x] && e.data[x] == d.data[x]
    ensures FileKept(d, e, more, f)
  {
    var h := FirstCluster(SlotAt(d, f));
    ChainInTable(d.fat, h);
    if h == 0 {
      NoChainFromZero(e.fat);
    } else {
      SameChain(d.fat, e.fat, h);
    }
  }

  /** Keeping every file and adding none keeps the files in order. */
  lemma FilesStayOk(d: Disk, e: Disk, rank: map<nat, nat>, more: map<nat, nat>)
    requires AllFilesOk(d, rank) && AllApart(d, rank)
    requires FilesKept(d, e, rank, more) && NoNewFiles(d, e, rank, more)
    requires forall f, x :: IsFile(d, rank, f) && x in ChainAt(d, f) ==> x !in more
    ensures AllFilesOk(e, more) && AllApart(e, more)
  {
    forall f | IsFile(e, more, f)
      ensures FileOk(e, more, f)
    {
      assert IsFile(d, rank, f);
      assert FileOk(d, rank, f) && FileKept(d, e, more, f);
      KeptIsOk(d, e, rank, more, f);
    }
    forall f, g | IsFile(e, more, f) && IsFile(e, more, g) && f != g
      ensures Disjoint(ChainAt(e, f), ChainAt(e, g))
    {
      assert FileKept(d, e, more, f) && FileKept(d, e, more, g);
    }
  }

  lemma KeptIsOk(d: Disk, e: Disk, rank: map<nat, nat>, more: map<nat, nat>, f: Found)
    requires FileOk(d, rank, f) && FileKept(d, e, more, f)
    requires forall x :: x in ChainAt(d, f) ==> x !in more
    ensures FileOk(e, more, f)
  {
    var h := FirstCluster(SlotAt(d, f));
    ChainInTable(d.fat, h);
    ChainInTable(e.fat, h);
  }

  lemma KeptTrans(d: Disk, e: Disk, g: Disk, rank: map<nat, nat>, more: map<nat, nat>, most: map<nat, nat>)
    requires FilesKept(d, e, rank, more) && FilesKept(e, g, more, most)
    ensures FilesKept(d, g, rank, most)
  {
    forall f | IsFile(d, rank, f)
      ensures FileKept(d, g, most, f)
    {
      assert FileKept(d, e, more, f) && FileKept(e, g, most, f);
    }
  }

  // ---- taking clusters ----

  /** Cluster c is in use, so a free one is another. */
  lemma UsedNotFresh(fat: seq<nat>, ds: seq<nat>, c: nat)
    requires Fresh(fat, ds) && c < |fat| && fat[c] != 0
    ensures c !in ds && Grown(fat, ds)[c] == fat[c]
  {
    GrownFrame(fat, ds, c);
  }

  lemma TakeKeepsDirs(d: Disk, e: Disk, root: u32, rank: map<nat, nat>, cb: nat, ds: seq<nat>)
    requires TreeOk(d, root, rank, cb) && Fresh(d.fat, ds)
    requires e.fat == Grown(d.fat, ds) && |e.data| == |d.data|
    requires forall c :: 0 <= c < |d.data| && c !in ds ==> e.data[c] == d.data[c]
    ensures TreeOk(e, root, rank, cb)
    ensures forall c :: c in rank ==> Dir(e, c) == Dir(d, c)
  {
    forall c | c in rank
      ensures Dir(e, c) == Dir(d, c) && DirOk(e, root, rank, cb, c)
    {
      RankedIsUsed(d, root, rank, cb, c);
      UsedNotFresh(d.fat, ds, c);
      assert DirOk(d, root, rank, cb, c);
      DirOkFrame(d, e, root, rank, rank, cb, c);
    }
  }

  lemma TakeKeepsFile(d: Disk, e: Disk, rank: map<nat, nat>, ds: seq<nat>, f: Found)
    requires |d.fat| == |d.data| == |e.data| && Fresh(d.fat, ds) && e.fat == Grown(d.fat, ds)
    requires forall c :: 0 <= c < |d.data| && c !in ds ==> e.data[c] == d.data[c]
    requires IsFile(d, rank, f) && FileOk(d, rank, f) && Dir(e, f.dir) == Dir(d, f.dir)
    ensures FileKept(d, e, rank, f) && Disjoint(ChainAt(d, f), ds)
    ensures forall x :: x in ChainAt(d, f) ==> x !in rank
  {
    ChainInTable(d.fat, FirstCluster(SlotAt(d, f)));
    forall x | x in ChainAt(d, f)
      ensures x !in ds && e.fat[x] == d.fat[x]
    {
      UsedNotFresh(d.fat, ds, x);
    }
    KeptWhen(d, e, rank, rank, f);
  }

  /** A writer that takes free clusters, links them, and writes nowhere else disturbs no file;
      what it built is a chain of its own. */
  lemma TakeKeepsFs(d: Disk, e: Disk, root: u32, rank: map<nat, nat>, cb: nat, ds: seq<nat>)
    requires FsOk(d, root, rank, cb, []) && Fresh(d.fat, ds) && ds != []
    requires e.fat == Grown(d.fat, ds) && |e.data| == |d.data|
    requires forall c :: 0 <= c < |d.data| && c !in ds ==> e.data[c] == d.data[c]
    ensures FsOk(e, root, rank, cb, ds) && FilesKept(d, e, rank, rank) && NoNewFiles(d, e, rank, rank)
  {
    TakeKeepsDirs(d, e, root, rank, cb, ds);
    GrownChain(d.fat, ds);
    forall f | IsFile(d, rank, f)
      ensures FileKept(d, e, rank, f) && Disjoint(ChainAt(d, f), ds)
      ensures forall x :: x in ChainAt(d, f) ==> x !in rank
    {
      TakeKeepsFile(d, e, rank, ds, f);
    }
    FilesStayOk(d, e, rank, rank);
    forall x | x in ds
      ensures x !in rank
    {
      if x in rank {
        RankedIsUsed(d, root, rank, cb, x);
      }
    }
    LooseAfter(d, e, rank, rank, ds);
  }

  lemma LooseAfter(d: Disk, e: Disk, rank: map<nat, nat>, more: map<nat, nat>, loose: seq<nat>)
    requires FilesKept(d, e, rank, more) && NoNewFiles(d, e, rank, more)
    requires loose != [] ==> IsChain(e.fat, loose)
    requires forall x :: x in loose ==> x !in more
    requires forall f :: IsFile(d, rank, f) ==> Disjoint(ChainAt(d, f), loose)
    ensures LooseOk(e, more, loose)
  {
    forall f | IsFile(e, more, f)
      ensures Disjoint(ChainAt(e, f), loose)
    {
      assert FileKept(d, e, more, f);
    }
  }

  // ---- making directories ----

  /** The same files stand in slot j of a directory before and after. */
  predicate SameFile(D: seq<Slot>, E: seq<Slot>, j: nat) {
    && (j < |D| && Short(D[j]) && !IsDirectory(D[j]) ==> j < |E| && E[j] == D[j])
    && (j < |E| && Short(E[j]) && !IsDirectory(E[j]) ==> j < |D| && E[j] == D[j])
  }

  lemma SameFileHere(d: Disk, e: Disk, rank: map<nat, nat>, more: map<nat, nat>, f: Found)
    requires f.dir in rank ==> f.dir in more
    requires f.dir in more && f.dir !in rank ==> !IsFile(e, more, f)
    requires f.dir in rank ==> SameFile(Dir(d, f.dir), Dir(e, f.dir), f.slot)
    ensures IsFile(d, rank, f) ==> IsFile(e, more, f) && SlotAt(e, f) == SlotAt(d, f)
    ensures IsFile(e, more, f) ==> IsFile(d, rank, f)
  {
  }

  lemma AddedDirectory(d: Disk, dir: nat, component: seq<byte>, spare: u32, j: nat)
    requires WellFormed(Dir(d, dir)) && IsComponent(component)
    requires Place(Dir(d, dir), component).Some? && LongSlots(component) <= 31
    ensures SameFile(Dir(d, dir), Added(d, dir, component, DirMeta(spare)), j)
  {
    if j < |Dir(d, dir)| {
      AddedFiles(d, dir, component, DirMeta(spare), j);
    }
  }

  lemma MakeDirFiles(d: Disk, root: u32, rank: map<nat, nat>, cb: nat, dir: u32, component: seq<byte>, f: Found)
    requires TreeOk(d, root, rank, cb) && cb >= 2 * SLOT && dir as nat in rank && IsComponent(component)
    requires LeastFree(d.fat, 2) != 0
    ensures var spare := LeastFree(d.fat, 2);
      var e, more := MakeDir(d, dir, component, cb / SLOT), Deeper(rank, dir, spare);
      && (IsFile(d, rank, f) ==> IsFile(e, more, f) && SlotAt(e, f) == SlotAt(d, f))
      && (IsFile(e, more, f) ==> IsFile(d, rank, f))
  {
    var spare := LeastFree(d.fat, 2);
    SpareIsNew(d, root, rank, cb);
    FewLongSlots(component);
    Ranked(d, root, rank, cb, dir);
    MakeDirDirs(d, dir, component, cb / SLOT, f.dir);
    MakeDirFile(d, MakeDir(d, dir, component, cb / SLOT), rank, dir, component, spare, cb / SLOT, f);
  }

  lemma MakeDirFile(d: Disk, e: Disk, rank: map<nat, nat>, dir: u32, component: seq<byte>, spare: u32, n: nat, f: Found)
    requires n >= 2 && spare as nat !in rank && dir as nat in rank
    requires WellFormed(Dir(d, dir)) && IsComponent(component) && LongSlots(component) <= 31
    requires Dir(e, f.dir) ==
      if f.dir == spare then DotSlots(spare, dir, n)
      else if f.dir == dir && Place(Dir(d, dir), component).Some? then Added(d, dir, component, DirMeta(spare))
      else Dir(d, f.dir)
    ensures var more := Deeper(rank, dir, spare);
      && (IsFile(d, rank, f) ==> IsFile(e, more, f) && SlotAt(e, f) == SlotAt(d, f))
      && (IsFile(e, more, f) ==> IsFile(d, rank, f))
  {
    if f.dir == spare {
      DotSlotsDirectories(spare, dir, n);
    } else if f.dir == dir && Place(Dir(d, dir), component).Some? {
      AddedDirectory(d, dir, component, spare, f.slot);
    }
    SameFileHere(d, e, rank, Deeper(rank, dir, spare), f);
  }

  lemma MakeDirTable(d: Disk, dir: u32, component: seq<byte>, n: nat, x: nat)
    requires |d.fat| == |d.data| && |d.fat| < END_MARK && LeastFree(d.fat, 2) != 0
    requires x < |d.fat| && d.fat[x] != 0 && x != dir
    ensures MakeDir(d, dir, component, n).fat[x] == d.fat[x] && MakeDir(d, dir, component, n).data[x] == d.data[x]
    ensures x != LeastFree(d.fat, 2)
  {
  }

  lemma MakeDirKeepsFile(d: Disk, root: u32, rank: map<nat, nat>, cb: nat, dir: u32, component: seq<byte>, f: Found)
    requires TreeOk(d, root, rank, cb) && cb >= 2 * SLOT && dir as nat in rank && IsComponent(component)
    requires LeastFree(d.fat, 2) != 0
    requires IsFile(d, rank, f) && FileOk(d, rank, f)
    ensures FileKept(d, MakeDir(d, dir, component, cb / SLOT), Deeper(rank, dir, LeastFree(d.fat, 2)), f)
    ensures forall x :: x in ChainAt(d, f) ==> x !in Deeper(rank, dir, LeastFree(d.fat, 2))
  {
    var n := cb / SLOT;
    MakeDirFiles(d, root, rank, cb, dir, component, f);
    ChainInTable(d.fat, FirstCluster(SlotAt(d, f)));
    forall x | x in ChainAt(d, f)
      ensures MakeDir(d, dir, component, n).fat[x] == d.fat[x] && MakeDir(d, dir, component, n).data[x] == d.data[x]
      ensures x != LeastFree(d.fat, 2)
    {
      MakeDirTable(d, dir, component, n, x);
    }
    KeptWhen(d, MakeDir(d, dir, component, n), rank, Deeper(rank, dir, LeastFree(d.fat, 2)), f);
  }

  lemma MakeDirKeepsFiles(d: Disk, root: u32, rank: map<nat, nat>, cb: nat, dir: u32, component: seq<byte>)
    requires TreeOk(d, root, rank, cb) && cb >= 2 * SLOT && dir as nat in rank && IsComponent(component)
    requires AllFilesOk(d, rank) && AllApart(d, rank)
    requires LeastFree(d.fat, 2) != 0
    ensures var e, more := MakeDir(d, dir, component, cb / SLOT), Deeper(rank, dir, LeastFree(d.fat, 2));
      && FilesKept(d, e, rank, more) && NoNewFiles(d, e, rank, more)
      && AllFilesOk(e, more) && AllApart(e, more)
  {
    var e, more := MakeDir(d, dir, component, cb / SLOT), Deeper(rank, dir, LeastFree(d.fat, 2));
    forall f | IsFile(d, rank, f)
      ensures FileKept(d, e, more, f)
      ensures forall x :: x in ChainAt(d, f) ==> x !in more
    {
      assert FileOk(d, rank, f);
      MakeDirKeepsFile(d, root, rank, cb, dir, component, f);
    }
    forall f | IsFile(e, more, f)
      ensures IsFile(d, rank, f)
    {
      MakeDirFiles(d, root, rank, cb, dir, component, f);
    }
    FilesStayOk(d, e, rank, more);
  }

  /** Making a missing directory disturbs no file and no chain being built. */
  lemma MakeDirKeepsFs(d: Disk, root: u32, rank: map<nat, nat>, cb: nat, dir: u32, component: seq<byte>, loose: seq<nat>)
    requires FsOk(d, root, rank, cb, loose) && dir as nat in rank && IsComponent(component)
    requires LeastFree(d.fat, 2) != 0
    ensures var e, more := MakeDir(d, dir, component, cb / SLOT), Deeper(rank, dir, LeastFree(d.fat, 2));
      && FsOk(e, root, more, cb, loose) && FilesKept(d, e, rank, more) && NoNewFiles(d, e, rank, more)
      && forall x :: x in loose ==> x < |d.data| && e.data[x] == d.data[x]
  {
    var n := cb / SLOT;
    var e, more := MakeDir(d, dir, component, n), Deeper(rank, dir, LeastFree(d.fat, 2));
    MakeDirKeepsTree(d, root, rank, cb, dir, component);
    MakeDirKeepsFiles(d, root, rank, cb, dir, component);
    MakeDirLoose(d, dir, component, n, loose, rank);
    LooseAfter(d, e, rank, more, loose);
    MakeDirClosed(d, dir, component, n);
  }

  lemma MakeDirClosed(d: Disk, dir: u32, component: seq<byte>, n: nat)
    requires |d.fat| == |d.data| && |d.fat| < END_MARK && Closed(d.fat)
    ensures Closed(MakeDir(d, dir, component, n).fat)
  {
  }

  lemma MakeDirLoose(d: Disk, dir: u32, component: seq<byte>, n: nat, loose: seq<nat>, rank: map<nat, nat>)
    requires |d.fat| == |d.data| && |d.fat| < END_MARK && LeastFree(d.fat, 2) != 0
    requires LooseOk(d, rank, loose) && dir as nat in rank
    ensures var e := MakeDir(d, dir, component, n);
      && (loose != [] ==> IsChain(e.fat, loose))
      && (forall x :: x in loose ==> x < |d.data| && e.data[x] == d.data[x])
      && (forall x :: x in loose ==> x !in Deeper(rank, dir, LeastFree(d.fat, 2)))
  {
    var e := MakeDir(d, dir, component, n);
    if loose != [] {
      ChainOfIs(d.fat, loose[0], loose);
      ChainInTable(d.fat, loose[0]);
      forall x | x in loose
        ensures e.fat[x] == d.fat[x] && e.data[x] == d.data[x] && x != LeastFree(d.fat, 2)
      {
        MakeDirTable(d, dir, component, n, x);
      }
      ChainFrame(d.fat, e.fat, loose);
    }
  }
}
