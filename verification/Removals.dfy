/** `fat32_rm` on a directory: the code frees its cluster without looking inside, or around. */
module Removals {
  import opened Words
  import opened Slots
  import opened Directory
  import opened DirectoryEdit
  import opened Volume
  import opened Chains
  import opened Tree
  import opened Paths
  import opened FileSystem
  import opened FileLaws
  import opened FileOps

  // ---- which directories are in use ----

  /** Directory a has an entry, other than the one left out, that leads to directory c. */
  ghost predicate Hop(d: Disk, root: u32, but: Option<Found>, a: nat, c: nat) {
    exists j: nat :: HopAt(d, root, but, a, c, j)
  }

  predicate HopAt(d: Disk, root: u32, but: Option<Found>, a: nat, c: nat, j: nat) {
    && j < |Dir(d, a)| && Short(Dir(d, a)[j]) && IsDirectory(Dir(d, a)[j]) && Enter(root, Dir(d, a)[j]) as nat == c
    && Some(Found(a, j)) != but
  }

  /** At most k entries lead from directory a to directory c. */
  ghost predicate Reached(d: Disk, root: u32, but: Option<Found>, a: nat, c: nat, k: nat)
    decreases k
  {
    c == a || (k > 0 && exists b: nat :: Reached(d, root, but, a, b, k - 1) && Hop(d, root, but, b, c))
  }

  /** Entries lead to directory c from the root or from the current directory. */
  ghost predicate InUse(d: Disk, root: u32, but: Option<Found>, cwd: nat, c: nat) {
    exists k: nat :: Reached(d, root, but, root, c, k) || Reached(d, root, but, cwd, c, k)
  }

  lemma HopIsKnown(d: Disk, root: u32, rank: map<nat, nat>, cb: nat, but: Option<Found>, a: nat, c: nat)
    requires TreeOk(d, root, rank, cb) && a in rank && Hop(d, root, but, a, c)
    ensures c in rank
  {
    var j: nat :| HopAt(d, root, but, a, c, j);
    assert DirOk(d, root, rank, cb, a) && EntryOk(d, root, rank, a, j);
  }

  /** Every entry of these directories that leads somewhere on d, the one left out aside, does on e,
      and to one of them. */
  ghost predicate Carries(d: Disk, but: Option<Found>, e: Disk, other: Option<Found>, root: u32, dirs: set<nat>) {
    forall a, c :: a in dirs && Hop(d, root, but, a, c) ==> Hop(e, root, other, a, c) && c in dirs
  }

  lemma {:induction false} ReachedCarries(d: Disk, but: Option<Found>, e: Disk, other: Option<Found>, root: u32, dirs: set<nat>,
                                          a: nat, c: nat, k: nat)
    requires Carries(d, but, e, other, root, dirs) && a in dirs && Reached(d, root, but, a, c, k)
    ensures Reached(e, root, other, a, c, k) && c in dirs
    decreases k
  {
    if c != a {
      var b: nat :| Reached(d, root, but, a, b, k - 1) && Hop(d, root, but, b, c);
      ReachedCarries(d, but, e, other, root, dirs, a, b, k - 1);
    }
  }

  /** So what is in use on d is in use on e, and one of them. */
  lemma InUseCarries(d: Disk, but: Option<Found>, e: Disk, other: Option<Found>, root: u32, dirs: set<nat>, cwd: nat, c: nat)
    requires Carries(d, but, e, other, root, dirs) && root as nat in dirs && cwd in dirs && InUse(d, root, but, cwd, c)
    ensures InUse(e, root, other, cwd, c) && c in dirs
  {
    var k: nat :| Reached(d, root, but, root, c, k) || Reached(d, root, but, cwd, c, k);
    ReachedCarries(d, but, e, other, root, dirs, if Reached(d, root, but, root, c, k) then root else cwd, c, k);
  }

  /** Directories in use are known ones. */
  lemma InUseIsKnown(d: Disk, root: u32, rank: map<nat, nat>, cb: nat, cwd: nat, c: nat)
    requires TreeOk(d, root, rank, cb) && cwd in rank && InUse(d, root, None, cwd, c)
    ensures c in rank && c < |d.fat| && d.fat[c] != 0
  {
    forall a, b | a in rank.Keys && Hop(d, root, None, a, b)
      ensures b in rank.Keys
    {
      HopIsKnown(d, root, rank, cb, None, a, b);
    }
    InUseCarries(d, None, d, None, root, rank.Keys, cwd, c);
    RankedIsUsed(d, root, rank, cb, c);
  }

  lemma InUseGoesOn(d: Disk, root: u32, but: Option<Found>, cwd: nat, b: nat, c: nat)
    requires InUse(d, root, but, cwd, b) && Hop(d, root, but, b, c)
    ensures InUse(d, root, but, cwd, c)
  {
    var k: nat :| Reached(d, root, but, root, b, k) || Reached(d, root, but, cwd, b, k);
    assert Reached(d, root, but, root, c, k + 1) || Reached(d, root, but, cwd, c, k + 1);
  }

  lemma HopAtAfter(d: Disk, e: Disk, root: u32, at: Found, a: nat, c: nat, j: nat)
    requires WellFormed(Dir(d, a)) && at.slot < |Dir(d, at.dir)| && Short(Dir(d, at.dir)[at.slot])
    requires Dir(e, a) == if a == at.dir then Cleared(Dir(d, at.dir), at.slot) else Dir(d, a)
    ensures HopAt(e, root, None, a, c, j) <==> HopAt(d, root, Some(at), a, c, j)
  {
    if a == at.dir && j < |Dir(d, a)| {
      ClearedSlots(Dir(d, a), at.slot, j);
    }
  }

  lemma HopAfter(d: Disk, e: Disk, root: u32, at: Found, a: nat, c: nat)
    requires WellFormed(Dir(d, a)) && at.slot < |Dir(d, at.dir)| && Short(Dir(d, at.dir)[at.slot])
    requires Dir(e, a) == if a == at.dir then Cleared(Dir(d, at.dir), at.slot) else Dir(d, a)
    ensures Hop(e, root, None, a, c) <==> Hop(d, root, Some(at), a, c)
  {
    forall j: nat
      ensures HopAt(e, root, None, a, c, j) <==> HopAt(d, root, Some(at), a, c, j)
    {
      HopAtAfter(d, e, root, at, a, c, j);
    }
  }

  /** Clearing an entry leaves the others to lead where they led. */
  lemma HopsAfter(d: Disk, e: Disk, root: u32, rank: map<nat, nat>, cb: nat, at: Found)
    requires TreeOk(d, root, rank, cb) && KnownSlot(d, rank, at) && OneCleared(d, e, rank, at)
    ensures Carries(d, Some(at), e, None, root, rank.Keys) && Carries(e, None, d, Some(at), root, rank.Keys)
  {
    forall a, c | a in rank.Keys
      ensures Hop(e, root, None, a, c) <==> Hop(d, root, Some(at), a, c)
      ensures Hop(d, root, Some(at), a, c) ==> c in rank.Keys
    {
      Ranked(d, root, rank, cb, a);
      HopAfter(d, e, root, at, a, c);
      if Hop(d, root, Some(at), a, c) {
        HopIsKnown(d, root, rank, cb, Some(at), a, c);
      }
    }
  }

  /** So what is in use after a removal is what other entries lead to before it. */
  lemma InUseAfter(d: Disk, e: Disk, root: u32, rank: map<nat, nat>, cb: nat, at: Found, cwd: nat, c: nat)
    requires TreeOk(d, root, rank, cb) && KnownSlot(d, rank, at) && OneCleared(d, e, rank, at) && cwd in rank
    ensures InUse(e, root, None, cwd, c) <==> InUse(d, root, Some(at), cwd, c)
  {
    HopsAfter(d, e, root, rank, cb, at);
    if InUse(e, root, None, cwd, c) {
      InUseCarries(e, None, d, Some(at), root, rank.Keys, cwd, c);
    }
    if InUse(d, root, Some(at), cwd, c) {
      InUseCarries(d, Some(at), e, None, root, rank.Keys, cwd, c);
    }
  }

  /** The known directories that are in use. */
  ghost function StillUsed(e: Disk, root: u32, cwd: nat, rank: map<nat, nat>): (less: map<nat, nat>)
    ensures forall c :: c in less ==> c in rank && less[c] == rank[c]
  {
    map c | c in rank && InUse(e, root, None, cwd, c) :: rank[c]
  }

  lemma StillUsedLeads(e: Disk, root: u32, cwd: nat, rank: map<nat, nat>, c: nat)
    requires c in StillUsed(e, root, cwd, rank) && 2 <= c < |e.data| && Leads(e, root, rank.Keys, c)
    ensures Leads(e, root, StillUsed(e, root, cwd, rank).Keys, c)
  {
    forall j: nat | j < |Dir(e, c)| && Short(Dir(e, c)[j]) && IsDirectory(Dir(e, c)[j])
      ensures Enter(root, Dir(e, c)[j]) as nat in StillUsed(e, root, cwd, rank)
    {
      assert HopAt(e, root, None, c, Enter(root, Dir(e, c)[j]), j);
      InUseGoesOn(e, root, None, cwd, c, Enter(root, Dir(e, c)[j]));
    }
  }

  // ---- a directory's entry is removed ----

  /** The cluster of the entry in slot j is in no file's chain and makes up a directory alone. */
  lemma DirectoryCluster(d: Disk, root: u32, rank: map<nat, nat>, cb: nat, at: Found)
    requires TreeOk(d, root, rank, cb) && Closed(d.fat) && KnownSlot(d, rank, at) && IsDirectory(SlotAt(d, at))
    ensures var x := FirstCluster(SlotAt(d, at));
      x < |d.fat| && FreeChain(d.fat, x) == (if x == 0 then d.fat else d.fat[x := 0]) && (x != 0 ==> x in rank)
  {
    var x := FirstCluster(SlotAt(d, at));
    RankedIsUsed(d, root, rank, cb, root);
    assert DirOk(d, root, rank, cb, at.dir) && EntryOk(d, root, rank, at.dir, at.slot);
    if x != 0 {
      assert DirOk(d, root, rank, cb, x);
      OneFreed(d.fat, x);
    }
  }

  lemma OneFreed(fat: seq<nat>, x: nat)
    requires Closed(fat) && 0 < x < |fat| < END_MARK && fat[x] >= END_MARK
    ensures FreeChain(fat, x) == fat[x := 0]
  {
    UsedAfter(fat, x, 0);
    assert FreeChain(fat[x := 0], fat[x]) == fat[x := 0];
  }

  /** e is d with a directory's entry cleared and its cluster x freed. */
  ghost predicate Freed(d: Disk, e: Disk, rank: map<nat, nat>, cb: nat, at: Found, x: nat) {
    && KnownSlot(d, rank, at) && IsDirectory(SlotAt(d, at)) && OneCleared(d, e, rank, at)
    && |e.fat| == |d.fat| == |d.data| == |e.data| && x < |d.fat| && e.fat == (if x == 0 then d.fat else d.fat[x := 0])
    && (x != 0 ==> x in rank)
    && (forall y :: 0 <= y < |d.data| && y != at.dir ==> e.data[y] == d.data[y])
    && (forall c :: c in rank ==> c < |e.data| && |e.data[c]| == cb)
  }

  /** A directory in use after the removal. */
  lemma RestDirOk(d: Disk, e: Disk, root: u32, rank: map<nat, nat>, cb: nat, cwd: nat, at: Found, x: nat, c: nat)
    requires TreeOk(d, root, rank, cb) && Freed(d, e, rank, cb, at, x)
    requires c in StillUsed(e, root, cwd, rank) && c != x
    ensures DirOk(e, root, StillUsed(e, root, cwd, rank), cb, c)
  {
    assert DirOk(d, root, rank, cb, c);
    RemoveDir(d, e, root, rank, cb, at, c);
    AllLead(e, root, rank, cb, c);
    StillUsedLeads(e, root, cwd, rank, c);
    FewerOk(e, root, rank, StillUsed(e, root, cwd, rank), cb, c);
  }

  lemma AllLead(e: Disk, root: u32, rank: map<nat, nat>, cb: nat, c: nat)
    requires DirOk(e, root, rank, cb, c)
    ensures Leads(e, root, rank.Keys, c)
  {
    forall j: nat | j < |Dir(e, c)| && Short(Dir(e, c)[j]) && IsDirectory(Dir(e, c)[j])
      ensures Enter(root, Dir(e, c)[j]) as nat in rank
    {
      assert EntryOk(e, root, rank, c, j);
    }
  }

  /** Fewer directories do as long as none leads out of them. */
  lemma FewerOk(e: Disk, root: u32, rank: map<nat, nat>, less: map<nat, nat>, cb: nat, c: nat)
    requires DirOk(e, root, rank, cb, c) && c in less && Leads(e, root, less.Keys, c)
    requires forall y :: y in less ==> y in rank && less[y] == rank[y]
    ensures DirOk(e, root, less, cb, c)
  {
    forall j: nat | j < |Dir(e, c)| && Short(Dir(e, c)[j])
      ensures EntryOk(e, root, less, c, j)
    {
      assert EntryOk(e, root, rank, c, j);
    }
  }

  lemma RestTreeOk(d: Disk, e: Disk, root: u32, rank: map<nat, nat>, cb: nat, cwd: nat, at: Found, x: nat)
    requires TreeOk(d, root, rank, cb) && Freed(d, e, rank, cb, at, x) && cwd in rank
    requires x != 0 ==> !InUse(e, root, None, cwd, x)
    ensures TreeOk(e, root, StillUsed(e, root, cwd, rank), cb) && cwd in StillUsed(e, root, cwd, rank)
  {
    assert Reached(e, root, None, root, root, 0) && Reached(e, root, None, cwd, cwd, 0);
    forall c | c in StillUsed(e, root, cwd, rank)
      ensures DirOk(e, root, StillUsed(e, root, cwd, rank), cb, c)
    {
      Ranked(d, root, rank, cb, c);
      RestDirOk(d, e, root, rank, cb, cwd, at, x, c);
    }
  }

  lemma RestSlots(d: Disk, e: Disk, rank: map<nat, nat>, less: map<nat, nat>, at: Found, f: Found)
    requires KnownSlot(d, rank, at) && IsDirectory(SlotAt(d, at)) && WellFormed(Dir(d, at.dir)) && f.dir in rank
    requires Dir(e, f.dir) == if f.dir == at.dir then Cleared(Dir(d, at.dir), at.slot) else Dir(d, f.dir)
    ensures IsFile(d, less, f) <==> IsFile(e, less, f)
    ensures IsFile(d, less, f) ==> SlotAt(e, f) == SlotAt(d, f)
  {
    if f.dir == at.dir && f.slot < |Dir(d, f.dir)| {
      ClearedSlots(Dir(d, at.dir), at.slot, f.slot);
    }
  }

  /** A file in a directory still in use is kept. */
  lemma RestKept(d: Disk, e: Disk, rank: map<nat, nat>, less: map<nat, nat>, cb: nat, at: Found, x: nat, f: Found)
    requires Freed(d, e, rank, cb, at, x) && WellFormed(Dir(d, at.dir))
    requires (forall y :: y in less ==> y in rank) && IsFile(d, less, f) && FileOk(d, rank, f)
    ensures FileKept(d, e, less, f) && FileOk(d, less, f) && forall y :: y in ChainAt(d, f) ==> y !in less
  {
    RestSlots(d, e, rank, less, at, f);
    ChainInTable(d.fat, FirstCluster(SlotAt(d, f)));
    KeptWhen(d, e, less, less, f);
  }

  lemma RestFiles(d: Disk, e: Disk, root: u32, rank: map<nat, nat>, less: map<nat, nat>, cb: nat, at: Found, x: nat)
    requires TreeOk(d, root, rank, cb) && Freed(d, e, rank, cb, at, x)
    requires (forall y :: y in less ==> y in rank) && AllFilesOk(d, rank) && AllApart(d, rank)
    ensures FilesKept(d, e, less, less) && NoNewFiles(d, e, less, less) && AllFilesOk(e, less) && AllApart(e, less)
  {
    Ranked(d, root, rank, cb, at.dir);
    RestAllKept(d, e, rank, less, cb, at, x);
    forall f | IsFile(e, less, f)
      ensures IsFile(d, less, f)
    {
      RestSlots(d, e, rank, less, at, f);
    }
    FewerApart(d, rank, less);
    FilesStayOk(d, e, less, less);
  }

  lemma RestAllKept(d: Disk, e: Disk, rank: map<nat, nat>, less: map<nat, nat>, cb: nat, at: Found, x: nat)
    requires Freed(d, e, rank, cb, at, x) && WellFormed(Dir(d, at.dir))
    requires (forall y :: y in less ==> y in rank) && AllFilesOk(d, rank)
    ensures FilesKept(d, e, less, less) && AllFilesOk(d, less)
    ensures forall f, y :: IsFile(d, less, f) && y in ChainAt(d, f) ==> y !in less
  {
    forall f | IsFile(d, less, f)
      ensures FileKept(d, e, less, f) && FileOk(d, less, f) && forall y :: y in ChainAt(d, f) ==> y !in less
    {
      assert IsFile(d, rank, f) && FileOk(d, rank, f);
      RestKept(d, e, rank, less, cb, at, x, f);
    }
  }

  lemma FewerApart(d: Disk, rank: map<nat, nat>, less: map<nat, nat>)
    requires (forall y :: y in less ==> y in rank) && AllApart(d, rank)
    ensures AllApart(d, less)
  {
    forall f, g | IsFile(d, less, f) && IsFile(d, less, g) && f != g
      ensures Disjoint(ChainAt(d, f), ChainAt(d, g))
    {
      assert IsFile(d, rank, f) && IsFile(d, rank, g);
    }
  }

  /** What rm finds is no directory that other entries lead to from the root or the current directory. */
  ghost predicate Severed(d: Disk, root: u32, cwd: u32, name: seq<byte>) {
    match Lookup(Dir(d, cwd), name)
    case None => true
    case Some(j) =>
      IsDirectory(Dir(d, cwd)[j]) && FirstCluster(Dir(d, cwd)[j]) != 0 ==>
        !InUse(d, root, Some(Found(cwd, j)), cwd, FirstCluster(Dir(d, cwd)[j]))
  }

  lemma RemovedIsFreed(d: Disk, root: u32, rank: map<nat, nat>, cb: nat, at: Found)
    requires TreeOk(d, root, rank, cb) && Closed(d.fat) && KnownSlot(d, rank, at) && IsDirectory(SlotAt(d, at))
    ensures FirstCluster(SlotAt(d, at)) < |d.fat| && Freed(d, Removed(d, at), rank, cb, at, FirstCluster(SlotAt(d, at)))
  {
    DirectoryCluster(d, root, rank, cb, at);
    RemovedDirsAll(d, root, rank, cb, at);
    RemovedSizes(d, Removed(d, at), root, rank, cb, at);
    FreedFrom(d, Removed(d, at), rank, cb, at);
  }

  lemma FreedFrom(d: Disk, e: Disk, rank: map<nat, nat>, cb: nat, at: Found)
    requires |d.fat| == |d.data| && Closed(d.fat) && KnownSlot(d, rank, at) && IsDirectory(SlotAt(d, at))
    requires FirstCluster(SlotAt(d, at)) < |d.fat| && e == Removed(d, at) && OneCleared(d, e, rank, at)
    requires var x := FirstCluster(SlotAt(d, at));
      FreeChain(d.fat, x) == (if x == 0 then d.fat else d.fat[x := 0]) && (x != 0 ==> x in rank)
    requires forall c :: c in rank ==> c < |e.data| && |e.data[c]| == cb
    ensures Freed(d, e, rank, cb, at, FirstCluster(SlotAt(d, at)))
  {
  }

  lemma RemovedSizes(d: Disk, e: Disk, root: u32, rank: map<nat, nat>, cb: nat, at: Found)
    requires TreeOk(d, root, rank, cb) && Closed(d.fat) && KnownSlot(d, rank, at) && FirstCluster(SlotAt(d, at)) < |d.fat|
    requires e == Removed(d, at)
    ensures forall c :: c in rank ==> c < |e.data| && |e.data[c]| == cb
  {
    forall c | c in rank
      ensures c < |e.data| && |e.data[c]| == cb
    {
      assert DirOk(d, root, rank, cb, c);
      RemovedDirs(d, at, cb, c);
    }
  }

  /** All that is still in use is consistent and as before. */
  ghost predicate RestKeptWhole(d: Disk, e: Disk, root: u32, cb: nat, cwd: nat, less: map<nat, nat>) {
    && FsOk(e, root, less, cb, []) && cwd in less
    && FilesKept(d, e, less, less) && NoNewFiles(d, e, less, less)
  }

  /** The removal of a directory's entry frees exactly its cluster, and when no other entry leads
      there from the root or the current directory, all that is still in use is as before. */
  lemma RemoveDirectory(d: Disk, root: u32, rank: map<nat, nat>, cb: nat, cwd: u32, name: seq<byte>, j: nat)
    requires FsOk(d, root, rank, cb, []) && cwd as nat in rank
    requires Lookup(Dir(d, cwd), name) == Some(j) && IsDirectory(Dir(d, cwd)[j])
    ensures var e := RemovedByName(d, cwd, name);
      && Freed(d, e, rank, cb, Found(cwd, j), FirstCluster(Dir(d, cwd)[j]))
      && (Severed(d, root, cwd, name) ==> RestKeptWhole(d, e, root, cb, cwd, StillUsed(e, root, cwd, rank)))
  {
    var x, e := FirstCluster(Dir(d, cwd)[j]), RemovedByName(d, cwd, name);
    RemovedIsFreed(d, root, rank, cb, Found(cwd, j));
    InUseAfter(d, e, root, rank, cb, Found(cwd, j), cwd, x);
    if x != 0 ==> !InUse(e, root, None, cwd, x) {
      RestIsOk(d, e, root, rank, cb, cwd, Found(cwd, j), x);
    }
  }

  lemma RestIsOk(d: Disk, e: Disk, root: u32, rank: map<nat, nat>, cb: nat, cwd: nat, at: Found, x: nat)
    requires TreeOk(d, root, rank, cb) && cb >= 2 * SLOT && Closed(d.fat) && AllFilesOk(d, rank) && AllApart(d, rank)
    requires Freed(d, e, rank, cb, at, x) && cwd in rank && (x != 0 ==> !InUse(e, root, None, cwd, x))
    ensures RestKeptWhole(d, e, root, cb, cwd, StillUsed(e, root, cwd, rank))
  {
    RestTreeOk(d, e, root, rank, cb, cwd, at, x);
    RestFiles(d, e, root, rank, StillUsed(e, root, cwd, rank), cb, at, x);
    FreedClosed(d, e, rank, cb, at, x);
    RestWhole(d, e, root, cb, cwd, StillUsed(e, root, cwd, rank));
  }

  lemma FreedClosed(d: Disk, e: Disk, rank: map<nat, nat>, cb: nat, at: Found, x: nat)
    requires Closed(d.fat) && Freed(d, e, rank, cb, at, x)
    ensures Closed(e.fat)
  {
  }

  lemma RestWhole(d: Disk, e: Disk, root: u32, cb: nat, cwd: nat, less: map<nat, nat>)
    requires TreeOk(e, root, less, cb) && cb >= 2 * SLOT && Closed(e.fat) && AllFilesOk(e, less) && AllApart(e, less)
    requires cwd in less && FilesKept(d, e, less, less) && NoNewFiles(d, e, less, less)
    ensures RestKeptWhole(d, e, root, cb, cwd, less)
  {
    LooseAfter(e, e, less, less, []);
  }

  // ---- any removal ----

  /** What rm finds, file or directory, can be freed: it has a cluster of the table. */
  lemma RemoveReady(d: Disk, root: u32, rank: map<nat, nat>, cb: nat, cwd: u32, name: seq<byte>, j: nat)
    requires FsOk(d, root, rank, cb, []) && cwd as nat in rank && Lookup(Dir(d, cwd), name) == Some(j)
    ensures FirstCluster(Dir(d, cwd)[j]) < |d.fat| && RemovedByName(d, cwd, name) == Removed(d, Found(cwd, j))
  {
    StartKnown(d, rank, cwd, name);
    FirstInTable(d, root, rank, cb, Found(cwd, j));
  }

  lemma FirstInTable(d: Disk, root: u32, rank: map<nat, nat>, cb: nat, at: Found)
    requires FsOk(d, root, rank, cb, []) && KnownSlot(d, rank, at)
    ensures FirstCluster(SlotAt(d, at)) < |d.fat|
  {
    if IsDirectory(SlotAt(d, at)) {
      DirectoryCluster(d, root, rank, cb, at);
    } else {
      RemoveDropsFile(d, root, rank, cb, at);
    }
  }
}
