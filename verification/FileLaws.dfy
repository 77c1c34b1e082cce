/** What adding and removing a file does to a consistent file system. */
module FileLaws {
  import opened Words
  import opened Names
  import opened Slots
  import opened Directory
  import opened DirectoryEdit
  import opened DirectoryLaws
  import opened Volume
  import opened Chains
  import opened Tree
  import opened Paths
  import opened FileSystem

  // ---- an entry is added to a known directory ----

  /** What a file is given besides its name: the chain just built, and no size without one. */
  predicate FileMeta(meta: Meta, loose: seq<nat>) {
    && meta.attr != ATTR_LFN && (meta.attr / 0x10) % 2 == 0
    && meta.cluster as nat == (if loose == [] then 0 else loose[0])
    && (loose == [] ==> meta.size == 0)
  }

  lemma AddFileSlots(d: Disk, e: Disk, rank: map<nat, nat>, dir: nat, component: seq<byte>, meta: Meta, f: Found)
    requires WellFormed(Dir(d, dir)) && IsComponent(component) && LongSlots(component) <= 31 && meta.attr != ATTR_LFN
    requires Place(Dir(d, dir), component).Some?
    requires Dir(e, f.dir) == if f.dir == dir then Added(d, dir, component, meta) else Dir(d, f.dir)
    ensures IsFile(d, rank, f) ==>
      IsFile(e, rank, f) && SlotAt(e, f) == SlotAt(d, f) && f != Found(dir, NewSlot(d, dir, component))
    ensures IsFile(e, rank, f) ==> f == Found(dir, NewSlot(d, dir, component)) || IsFile(d, rank, f)
  {
    if f.dir == dir && f.slot < |Dir(d, dir)| {
      AddedFiles(d, dir, component, meta, f.slot);
    }
  }

  lemma AddFileNew(d: Disk, e: Disk, rank: map<nat, nat>, dir: nat, component: seq<byte>, meta: Meta)
    requires WellFormed(Dir(d, dir)) && IsComponent(component) && LongSlots(component) <= 31 && meta.attr != ATTR_LFN
    requires (meta.attr / 0x10) % 2 == 0 && dir in rank
    requires Place(Dir(d, dir), component).Some?
    requires Dir(e, dir) == Added(d, dir, component, meta)
    ensures var at := Found(dir, NewSlot(d, dir, component));
      && IsFile(e, rank, at) && !IsFile(d, rank, at)
      && FirstCluster(SlotAt(e, at)) == meta.cluster && FileSize(SlotAt(e, at)) == meta.size
  {
    AddedFiles(d, dir, component, meta, NewSlot(d, dir, component));
  }

  lemma AddFileDir(d: Disk, e: Disk, root: u32, rank: map<nat, nat>, cb: nat, dir: nat, component: seq<byte>, meta: Meta, c: nat)
    requires cb % SLOT == 0 && |d.fat| == |d.data| && e == AddTo(d, dir, component, meta)
    requires dir in rank && DirOk(d, root, rank, cb, dir) && c in rank && DirOk(d, root, rank, cb, c)
    requires IsComponent(component) && LongSlots(component) <= 31 && meta.attr != ATTR_LFN && (meta.attr / 0x10) % 2 == 0
    requires Place(Dir(d, dir), component).Some?
    ensures DirOk(e, root, rank, cb, c)
  {
    AddToDir(d, dir, component, meta, c);
    if c == dir {
      AddToSize(d, dir, component, meta, cb);
      AddedFiles(d, dir, component, meta, NewSlot(d, dir, component));
      DirOkAdded(d, e, root, rank, rank, cb, dir, component, meta);
    } else {
      DirOkFrame(d, e, root, rank, rank, cb, c);
    }
  }

  lemma AddToSize(d: Disk, dir: nat, component: seq<byte>, meta: Meta, cb: nat)
    requires cb % SLOT == 0 && dir < |d.data| && |d.data[dir]| == cb
    ensures |AddTo(d, dir, component, meta).data[dir]| == cb
  {
  }

  lemma AddFileKeepsTree(d: Disk, root: u32, rank: map<nat, nat>, cb: nat, dir: nat, component: seq<byte>, meta: Meta)
    requires TreeOk(d, root, rank, cb) && dir in rank && IsComponent(component) && Place(Dir(d, dir), component).Some?
    requires meta.attr != ATTR_LFN && (meta.attr / 0x10) % 2 == 0
    ensures TreeOk(AddTo(d, dir, component, meta), root, rank, cb)
  {
    FewLongSlots(component);
    var e := AddTo(d, dir, component, meta);
    forall c | c in rank
      ensures DirOk(e, root, rank, cb, c)
    {
      assert DirOk(d, root, rank, cb, c) && DirOk(d, root, rank, cb, dir);
      AddFileDir(d, e, root, rank, cb, dir, component, meta, c);
    }
  }

  lemma AddFileKept(d: Disk, e: Disk, rank: map<nat, nat>, dir: nat, component: seq<byte>, meta: Meta, f: Found)
    requires |d.fat| == |d.data| && e == AddTo(d, dir, component, meta) && dir in rank && dir < |d.data|
    requires WellFormed(Dir(d, dir)) && IsComponent(component) && LongSlots(component) <= 31 && meta.attr != ATTR_LFN
    requires Place(Dir(d, dir), component).Some?
    requires IsFile(d, rank, f) && FileOk(d, rank, f)
    ensures FileKept(d, e, rank, f) && forall x :: x in ChainAt(d, f) ==> x !in rank
  {
    AddToDir(d, dir, component, meta, f.dir);
    AddFileSlots(d, e, rank, dir, component, meta, f);
    ChainInTable(d.fat, FirstCluster(SlotAt(d, f)));
    KeptWhen(d, e, rank, rank, f);
  }

  /** Old files kept, and one new one with a chain of its own: all files are in order. */
  ghost predicate OnlyNew(d: Disk, e: Disk, rank: map<nat, nat>, more: map<nat, nat>, at: Found) {
    && IsFile(e, more, at) && !IsFile(d, rank, at)
    && forall f :: IsFile(e, more, f) && f != at ==> IsFile(d, rank, f)
  }

  lemma FilesWithNew(d: Disk, e: Disk, rank: map<nat, nat>, more: map<nat, nat>, at: Found)
    requires AllFilesOk(d, rank) && AllApart(d, rank)
    requires FilesKept(d, e, rank, more) && OnlyNew(d, e, rank, more, at) && FileOk(e, more, at)
    requires forall f, x :: IsFile(d, rank, f) && x in ChainAt(d, f) ==> x !in more
    requires forall f :: IsFile(d, rank, f) ==> Disjoint(ChainAt(d, f), ChainAt(e, at))
    ensures AllFilesOk(e, more) && AllApart(e, more)
  {
    forall f | IsFile(e, more, f)
      ensures FileOk(e, more, f)
    {
      if f != at {
        assert FileOk(d, rank, f) && FileKept(d, e, more, f);
        KeptIsOk(d, e, rank, more, f);
      }
    }
    forall f, g | IsFile(e, more, f) && IsFile(e, more, g) && f != g
      ensures Disjoint(ChainAt(e, f), ChainAt(e, g))
    {
      assert f != at ==> FileKept(d, e, more, f);
      assert g != at ==> FileKept(d, e, more, g);
    }
  }

  lemma NewChain(fat: seq<nat>, loose: seq<nat>, head: nat)
    requires loose != [] ==> IsChain(fat, loose)
    requires head == if loose == [] then 0 else loose[0]
    ensures ClustersFrom(fat, head) == loose && (head != 0 ==> HasChain(fat, head))
  {
    if loose == [] {
      NoChainFromZero(fat);
    } else {
      ChainOfIs(fat, head, loose);
    }
  }

  /** Old files are kept and there is one new file, whose clusters are cs. */
  ghost predicate FileAdded(d: Disk, e: Disk, root: u32, rank: map<nat, nat>, more: map<nat, nat>, cb: nat,
                            cs: seq<nat>, at: Found)
  {
    && FsOk(e, root, more, cb, [])
    && (forall c :: c in rank ==> c in more)
    && FilesKept(d, e, rank, more) && OnlyNew(d, e, rank, more, at)
    && ChainAt(e, at) == cs
  }

  /** What creating a file amounts to: the new file has the chain built for it, bytes and all. */
  ghost predicate FileMade(d: Disk, e: Disk, root: u32, rank: map<nat, nat>, more: map<nat, nat>, cb: nat,
                           loose: seq<nat>, at: Found)
  {
    && FileAdded(d, e, root, rank, more, cb, loose, at)
    && forall x :: x in loose ==> x < |d.data| && x < |e.data| && e.data[x] == d.data[x]
  }

  lemma AddFileOk(d: Disk, e: Disk, rank: map<nat, nat>, loose: seq<nat>, at: Found, meta: Meta)
    requires LooseOk(d, rank, loose) && e.fat == d.fat && FileMeta(meta, loose)
    requires FirstCluster(SlotAt(e, at)) == meta.cluster && FileSize(SlotAt(e, at)) == meta.size
    ensures FileOk(e, rank, at) && ChainAt(e, at) == loose
    ensures forall f :: IsFile(d, rank, f) ==> Disjoint(ChainAt(d, f), ChainAt(e, at))
  {
    NewChain(e.fat, loose, meta.cluster);
  }

  lemma AddFileOldFiles(d: Disk, root: u32, rank: map<nat, nat>, cb: nat, dir: nat, component: seq<byte>, meta: Meta)
    requires TreeOk(d, root, rank, cb) && AllFilesOk(d, rank)
    requires dir in rank && IsComponent(component) && Place(Dir(d, dir), component).Some?
    requires meta.attr != ATTR_LFN && (meta.attr / 0x10) % 2 == 0
    ensures var e, at := AddTo(d, dir, component, meta), Found(dir, NewSlot(d, dir, component));
      && FilesKept(d, e, rank, rank) && OnlyNew(d, e, rank, rank, at)
      && FirstCluster(SlotAt(e, at)) == meta.cluster && FileSize(SlotAt(e, at)) == meta.size
    ensures forall f, x :: IsFile(d, rank, f) && x in ChainAt(d, f) ==> x !in rank
  {
    var e := AddTo(d, dir, component, meta);
    FewLongSlots(component);
    Ranked(d, root, rank, cb, dir);
    AddToDir(d, dir, component, meta, dir);
    AddFileNew(d, e, rank, dir, component, meta);
    forall f | IsFile(d, rank, f)
      ensures FileKept(d, e, rank, f) && forall x :: x in ChainAt(d, f) ==> x !in rank
    {
      AddFileKept(d, e, rank, dir, component, meta, f);
    }
    forall f | IsFile(e, rank, f) && f != Found(dir, NewSlot(d, dir, component))
      ensures IsFile(d, rank, f)
    {
      AddToDir(d, dir, component, meta, f.dir);
      AddFileSlots(d, e, rank, dir, component, meta, f);
    }
  }

  lemma LooseNotRanked(d: Disk, root: u32, rank: map<nat, nat>, cb: nat, loose: seq<nat>)
    requires FsOk(d, root, rank, cb, loose)
    ensures forall x :: x in loose ==> x < |d.data| && x !in rank
  {
  }

  /** The last step of a creation gives the chain built before to a new file. */
  lemma AddFileMakes(d: Disk, root: u32, rank: map<nat, nat>, cb: nat, dir: nat, component: seq<byte>, meta: Meta, loose: seq<nat>)
    requires FsOk(d, root, rank, cb, loose) && FileMeta(meta, loose)
    requires dir in rank && IsComponent(component) && Place(Dir(d, dir), component).Some?
    ensures FileMade(d, AddTo(d, dir, component, meta), root, rank, rank, cb, loose, Found(dir, NewSlot(d, dir, component)))
  {
    var e, at := AddTo(d, dir, component, meta), Found(dir, NewSlot(d, dir, component));
    AddFileKeepsTree(d, root, rank, cb, dir, component, meta);
    AddFileOldFiles(d, root, rank, cb, dir, component, meta);
    AddFileFiles(d, e, rank, loose, at, meta);
    LooseNotRanked(d, root, rank, cb, loose);
    AddToData(d, dir, component, meta, rank, loose);
    MadeHere(d, e, root, rank, cb, loose, at);
  }

  lemma AddFileFiles(d: Disk, e: Disk, rank: map<nat, nat>, loose: seq<nat>, at: Found, meta: Meta)
    requires AllFilesOk(d, rank) && AllApart(d, rank) && LooseOk(d, rank, loose)
    requires e.fat == d.fat && FileMeta(meta, loose)
    requires FirstCluster(SlotAt(e, at)) == meta.cluster && FileSize(SlotAt(e, at)) == meta.size
    requires FilesKept(d, e, rank, rank) && OnlyNew(d, e, rank, rank, at)
    requires forall f, x :: IsFile(d, rank, f) && x in ChainAt(d, f) ==> x !in rank
    ensures AllFilesOk(e, rank) && AllApart(e, rank) && ChainAt(e, at) == loose
  {
    AddFileOk(d, e, rank, loose, at, meta);
    FilesWithNew(d, e, rank, rank, at);
  }

  lemma AddToData(d: Disk, dir: nat, component: seq<byte>, meta: Meta, rank: map<nat, nat>, loose: seq<nat>)
    requires dir in rank && forall x :: x in loose ==> x < |d.data| && x !in rank
    ensures var e := AddTo(d, dir, component, meta);
      forall x :: x in loose ==> x < |d.data| && x < |e.data| && e.data[x] == d.data[x]
  {
  }

  lemma MadeHere(d: Disk, e: Disk, root: u32, rank: map<nat, nat>, cb: nat, loose: seq<nat>, at: Found)
    requires TreeOk(e, root, rank, cb) && cb >= 2 * SLOT && Closed(e.fat)
    requires AllFilesOk(e, rank) && AllApart(e, rank)
    requires FilesKept(d, e, rank, rank) && OnlyNew(d, e, rank, rank, at) && ChainAt(e, at) == loose
    requires forall x :: x in loose ==> x < |d.data| && x < |e.data| && e.data[x] == d.data[x]
    ensures FileMade(d, e, root, rank, rank, cb, loose, at)
  {
    LooseAfter(e, e, rank, rank, []);
  }

  // ---- a file is created through a path ----

  lemma MadeBelow(d: Disk, e: Disk, g: Disk, root: u32, rank: map<nat, nat>, more: map<nat, nat>, most: map<nat, nat>,
                  cb: nat, loose: seq<nat>, at: Found)
    requires FilesKept(d, e, rank, more) && NoNewFiles(d, e, rank, more)
    requires forall c :: c in rank ==> c in more
    requires forall x :: x in loose ==> x < |d.data| && x < |e.data| && e.data[x] == d.data[x]
    requires FileMade(e, g, root, more, most, cb, loose, at)
    ensures FileMade(d, g, root, rank, most, cb, loose, at)
  {
    KeptTrans(d, e, g, rank, more, most);
    forall f | IsFile(d, rank, f)
      ensures f != at
    {
      assert FileKept(d, e, more, f);
    }
  }

  /** The files are what they were: none is lost, none is new. */
  ghost predicate SameFiles(d: Disk, e: Disk, root: u32, rank: map<nat, nat>, more: map<nat, nat>, cb: nat) {
    && FsOk(e, root, more, cb, [])
    && (forall c :: c in rank ==> c in more)
    && FilesKept(d, e, rank, more) && NoNewFiles(d, e, rank, more)
  }

  /** What a creation amounts to: one new file where it lands, or none when it lands nowhere. */
  ghost predicate FileMadeOrNot(d: Disk, e: Disk, root: u32, rank: map<nat, nat>, cb: nat, loose: seq<nat>, at: Option<Found>) {
    match at
    case Some(f) => exists more :: FileMade(d, e, root, rank, more, cb, loose, f)
    case None => exists more :: SameFiles(d, e, root, rank, more, cb)
  }

  lemma FilesKeptAll(d: Disk, rank: map<nat, nat>)
    requires AllFilesOk(d, rank) && |d.fat| == |d.data|
    ensures FilesKept(d, d, rank, rank) && NoNewFiles(d, d, rank, rank)
  {
    forall f | IsFile(d, rank, f)
      ensures FileKept(d, d, rank, f)
    {
      assert FileOk(d, rank, f);
      KeptWhen(d, d, rank, rank, f);
    }
  }

  /** A creation that stops at once changes nothing but that its chain is nobody's. */
  lemma NothingMade(d: Disk, root: u32, rank: map<nat, nat>, cb: nat, loose: seq<nat>)
    requires FsOk(d, root, rank, cb, loose)
    ensures FileMadeOrNot(d, d, root, rank, cb, loose, None)
  {
    FilesKeptAll(d, rank);
    assert SameFiles(d, d, root, rank, rank, cb);
  }

  lemma SameBelow(d: Disk, e: Disk, g: Disk, root: u32, rank: map<nat, nat>, more: map<nat, nat>, most: map<nat, nat>, cb: nat)
    requires FilesKept(d, e, rank, more) && NoNewFiles(d, e, rank, more)
    requires (forall c :: c in rank ==> c in more) && SameFiles(e, g, root, more, most, cb)
    ensures SameFiles(d, g, root, rank, most, cb)
  {
    KeptTrans(d, e, g, rank, more, most);
  }

  lemma MadeOrNotBelow(d: Disk, e: Disk, g: Disk, root: u32, rank: map<nat, nat>, more: map<nat, nat>, cb: nat, loose: seq<nat>, at: Option<Found>)
    requires FilesKept(d, e, rank, more) && NoNewFiles(d, e, rank, more)
    requires forall c :: c in rank ==> c in more
    requires forall x :: x in loose ==> x < |d.data| && x < |e.data| && e.data[x] == d.data[x]
    requires FileMadeOrNot(e, g, root, more, cb, loose, at)
    ensures FileMadeOrNot(d, g, root, rank, cb, loose, at)
  {
    match at
    case Some(f) =>
      var most :| FileMade(e, g, root, more, most, cb, loose, f);
      MadeBelow(d, e, g, root, rank, more, most, cb, loose, f);
    case None =>
      var most :| SameFiles(e, g, root, more, most, cb);
      SameBelow(d, e, g, root, rank, more, most, cb);
  }

  /** Creating a file through any path, whatever it resolves to and whatever room there is,
      keeps the file system consistent and every file; where it lands there is a new file with
      exactly the chain built for it, and where it does not, none. */
  lemma {:induction false} CreateMakesFile(d: Disk, root: u32, rank: map<nat, nat>, cb: nat, dir: u32, ps: seq<seq<byte>>,
                                           meta: Meta, loose: seq<nat>)
    requires FsOk(d, root, rank, cb, loose) && dir as nat in rank && Parts(ps) && FileMeta(meta, loose)
    ensures FileMadeOrNot(d, Create(d, root, dir, ps, meta, cb / SLOT), root, rank, cb, loose, Landing(d, root, dir, ps, cb / SLOT))
    decreases |ps|
  {
    if ps == [] || ps[0] == [] {
      NothingMade(d, root, rank, cb, loose);
    } else if |ps| == 1 {
      CreateMakesHere(d, root, rank, cb, dir, ps, meta, loose);
    } else {
      CreateUnfold(d, root, dir, ps, meta, cb / SLOT);
      var r := LookupFrom(Dir(d, dir), ps[0], true, 0);
      if r.Some? {
        StepInto(d, root, rank, cb, dir, ps[0]);
        CreateMakesFile(d, root, rank, cb, Enter(root, Dir(d, dir)[r.value]), ps[1..], meta, loose);
      } else if LeastFree(d.fat, 2) == 0 {
        NothingMade(d, root, rank, cb, loose);
      } else {
        CreateMakesBelow(d, root, rank, cb, dir, ps, meta, loose);
      }
    }
  }

  lemma CreateMakesHere(d: Disk, root: u32, rank: map<nat, nat>, cb: nat, dir: u32, ps: seq<seq<byte>>, meta: Meta, loose: seq<nat>)
    requires FsOk(d, root, rank, cb, loose) && dir as nat in rank && |ps| == 1 && IsComponent(ps[0]) && FileMeta(meta, loose)
    ensures FileMadeOrNot(d, Create(d, root, dir, ps, meta, cb / SLOT), root, rank, cb, loose, Landing(d, root, dir, ps, cb / SLOT))
  {
    CreateOne(d, root, dir, ps, meta, cb / SLOT);
    if Place(Dir(d, dir), ps[0]).Some? {
      AddFileMakes(d, root, rank, cb, dir, ps[0], meta, loose);
    } else {
      NothingMade(d, root, rank, cb, loose);
    }
  }

  lemma {:induction false} CreateMakesBelow(d: Disk, root: u32, rank: map<nat, nat>, cb: nat, dir: u32, ps: seq<seq<byte>>,
                                            meta: Meta, loose: seq<nat>)
    requires FsOk(d, root, rank, cb, loose) && dir as nat in rank && FileMeta(meta, loose)
    requires |ps| > 1 && IsComponent(ps[0]) && Parts(ps[1..]) && LeastFree(d.fat, 2) != 0
    ensures var n, spare := cb / SLOT, LeastFree(d.fat, 2);
      FileMadeOrNot(d, Create(MakeDir(d, dir, ps[0], n), root, spare, ps[1..], meta, n), root, rank, cb, loose,
                    Landing(MakeDir(d, dir, ps[0], n), root, spare, ps[1..], n))
    decreases |ps|, 0
  {
    var n := cb / SLOT;
    var spare := LeastFree(d.fat, 2);
    var e, more := MakeDir(d, dir, ps[0], n), Deeper(rank, dir, spare);
    MakeDirKeepsFs(d, root, rank, cb, dir, ps[0], loose);
    CreateMakesFile(e, root, more, cb, spare, ps[1..], meta, loose);
    MadeOrNotBelow(d, e, Create(e, root, spare, ps[1..], meta, n), root, rank, more, cb, loose, Landing(e, root, spare, ps[1..], n));
  }

  // ---- a file is removed ----

  /** The slot cleared and the chain freed. */
  function Removed(d: Disk, at: Found): (e: Disk)
    requires at.slot < |Dir(d, at.dir)| && Closed(d.fat)
    requires FirstCluster(SlotAt(d, at)) < |d.fat| || FirstCluster(SlotAt(d, at)) >= END_MARK
    ensures |e.fat| == |d.fat| && |e.data| == |d.data|
  {
    var D := Dir(d, at.dir);
    Disk(FreeChain(d.fat, FirstCluster(D[at.slot])), d.data[at.dir := BytesOf(Cleared(D, at.slot))])
  }

  lemma FreedChain(fat: seq<nat>, rank: map<nat, nat>, head: nat, size: nat)
    requires Closed(fat) && |fat| > 0 && ChainOk(fat, rank, head, size)
    ensures head < |fat| && FreeChain(fat, head) == Zeroed(fat, ClustersFrom(fat, head))
    ensures Used(FreeChain(fat, head)) + |ClustersFrom(fat, head)| == Used(fat)
  {
    if head == 0 {
      assert Zeroed(fat, []) == fat;
    } else {
      ChainInTable(fat, head);
      FreeClearsChain(fat, ChainOf(fat, head));
    }
  }

  /** The slots of a directory after a removal: those that were short before, but for the one. */
  lemma ClearedSlots(D: seq<Slot>, i: nat, j: nat)
    requires WellFormed(D) && i < |D| && Short(D[i]) && j < |D|
    ensures var E := Cleared(D, i);
      && (Short(D[j]) && j != i ==> E[j] == D[j])
      && (Short(E[j]) ==> E[j] == D[j] && j != i)
  {
    if Short(D[j]) && j != i {
      RemoveFrame(D, i, j);
    }
  }

  lemma RemoveSlots(d: Disk, e: Disk, rank: map<nat, nat>, at: Found, f: Found)
    requires IsFile(d, rank, at) && WellFormed(Dir(d, at.dir))
    requires Dir(e, f.dir) == if f.dir == at.dir then Cleared(Dir(d, at.dir), at.slot) else Dir(d, f.dir)
    ensures IsFile(d, rank, f) && f != at ==> IsFile(e, rank, f) && SlotAt(e, f) == SlotAt(d, f)
    ensures IsFile(e, rank, f) ==> IsFile(d, rank, f) && f != at
  {
    if f.dir == at.dir && f.slot < |Dir(d, f.dir)| {
      ClearedSlots(Dir(d, at.dir), at.slot, f.slot);
    }
  }

  lemma RemoveDir(d: Disk, e: Disk, root: u32, rank: map<nat, nat>, cb: nat, at: Found, c: nat)
    requires cb % SLOT == 0 && c in rank && DirOk(d, root, rank, cb, c) && KnownSlot(d, rank, at)
    requires |e.data| == |d.data| && |e.fat| == |d.fat| && e.fat[c] == d.fat[c] && |e.data[c]| == cb
    requires Dir(e, c) == if c == at.dir then Cleared(Dir(d, c), at.slot) else Dir(d, c)
    ensures DirOk(e, root, rank, cb, c)
  {
    var D, E := Dir(d, c), Dir(e, c);
    if c == at.dir {
      RemoveKeepsWellFormed(D, at.slot);
      ClearedSlashFree(D, at.slot);
      forall j: nat | j < |E| && Short(E[j])
        ensures EntryOk(e, root, rank, c, j)
      {
        ClearedSlots(D, at.slot, j);
        RemoveFrame(D, at.slot, j);
        assert EntryOk(d, root, rank, c, j);
      }
    } else {
      DirOkFrame(d, e, root, rank, rank, cb, c);
    }
  }

  lemma RemovedDirs(d: Disk, at: Found, cb: nat, x: nat)
    requires at.slot < |Dir(d, at.dir)| && Closed(d.fat)
    requires FirstCluster(SlotAt(d, at)) < |d.fat| || FirstCluster(SlotAt(d, at)) >= END_MARK
    requires x < |d.data| && |d.data[x]| == cb && cb % SLOT == 0
    ensures Dir(Removed(d, at), x) == if x == at.dir then Cleared(Dir(d, at.dir), at.slot) else Dir(d, x)
    ensures |Removed(d, at).data[x]| == cb
  {
    DirAfter(d, FreeChain(d.fat, FirstCluster(SlotAt(d, at))), at.dir, Cleared(Dir(d, at.dir), at.slot), x);
  }

  lemma RemoveKeepsTree(d: Disk, root: u32, rank: map<nat, nat>, cb: nat, at: Found)
    requires TreeOk(d, root, rank, cb) && Closed(d.fat) && IsFile(d, rank, at) && FileOk(d, rank, at)
    ensures FirstCluster(SlotAt(d, at)) < |d.fat|
    ensures TreeOk(Removed(d, at), root, rank, cb)
  {
    var head := FirstCluster(SlotAt(d, at));
    RankedIsUsed(d, root, rank, cb, root);
    FreedChain(d.fat, rank, head, FileSize(SlotAt(d, at)));
    forall c | c in rank
      ensures DirOk(Removed(d, at), root, rank, cb, c)
    {
      assert DirOk(d, root, rank, cb, c);
      RemovedDirs(d, at, cb, c);
      RemoveDir(d, Removed(d, at), root, rank, cb, at, c);
    }
  }

  ghost predicate OthersKept(d: Disk, e: Disk, rank: map<nat, nat>, at: Found) {
    forall f :: IsFile(d, rank, f) && f != at ==> FileKept(d, e, rank, f)
  }

  /** What removing a file amounts to: every other file is kept, no file is added, exactly
      the file's clusters are free now. */
  ghost predicate FileGone(d: Disk, e: Disk, root: u32, rank: map<nat, nat>, cb: nat, at: Found) {
    && FsOk(e, root, rank, cb, [])
    && !IsFile(e, rank, at)
    && OthersKept(d, e, rank, at)
    && NoNewFiles(d, e, rank, rank)
    && e.fat == Zeroed(d.fat, ChainAt(d, at))
    && Used(e.fat) + |ChainAt(d, at)| == Used(d.fat)
  }

  lemma RemovedFiles(d: Disk, root: u32, rank: map<nat, nat>, cb: nat, at: Found, f: Found)
    requires TreeOk(d, root, rank, cb) && Closed(d.fat) && IsFile(d, rank, at)
    requires FirstCluster(SlotAt(d, at)) < |d.fat|
    ensures IsFile(d, rank, f) && f != at ==> IsFile(Removed(d, at), rank, f) && SlotAt(Removed(d, at), f) == SlotAt(d, f)
    ensures IsFile(Removed(d, at), rank, f) ==> IsFile(d, rank, f) && f != at
  {
    if f.dir in rank {
      assert DirOk(d, root, rank, cb, f.dir) && DirOk(d, root, rank, cb, at.dir);
      RemovedDirs(d, at, cb, f.dir);
      RemoveSlots(d, Removed(d, at), rank, at, f);
    }
  }

  lemma RemoveKeepsFile(d: Disk, root: u32, rank: map<nat, nat>, cb: nat, at: Found, f: Found)
    requires TreeOk(d, root, rank, cb) && Closed(d.fat) && IsFile(d, rank, at) && FileOk(d, rank, at)
    requires IsFile(d, rank, f) && FileOk(d, rank, f) && f != at && Disjoint(ChainAt(d, f), ChainAt(d, at))
    requires FirstCluster(SlotAt(d, at)) < |d.fat|
    ensures FileKept(d, Removed(d, at), rank, f) && forall x :: x in ChainAt(d, f) ==> x !in rank
  {
    RemovedFiles(d, root, rank, cb, at, f);
    RemovedTable(d, rank, at);
    KeptAfterFreeing(d, Removed(d, at), rank, at, f);
  }

  lemma RemovedTable(d: Disk, rank: map<nat, nat>, at: Found)
    requires |d.fat| == |d.data| && Closed(d.fat) && IsFile(d, rank, at) && FileOk(d, rank, at)
    requires FirstCluster(SlotAt(d, at)) < |d.fat|
    ensures var e := Removed(d, at);
      && e.fat == Zeroed(d.fat, ChainAt(d, at))
      && forall x :: 0 <= x < |d.data| && x != at.dir ==> e.data[x] == d.data[x]
  {
    FreedChain(d.fat, rank, FirstCluster(SlotAt(d, at)), FileSize(SlotAt(d, at)));
  }

  lemma KeptAfterFreeing(d: Disk, e: Disk, rank: map<nat, nat>, at: Found, f: Found)
    requires |d.fat| == |d.data| == |e.data| && e.fat == Zeroed(d.fat, ChainAt(d, at))
    requires forall x :: 0 <= x < |d.data| && x != at.dir ==> e.data[x] == d.data[x]
    requires IsFile(d, rank, f) && FileOk(d, rank, f) && Disjoint(ChainAt(d, f), ChainAt(d, at)) && at.dir in rank
    requires IsFile(e, rank, f) && SlotAt(e, f) == SlotAt(d, f)
    ensures FileKept(d, e, rank, f) && forall x :: x in ChainAt(d, f) ==> x !in rank
  {
    ChainInTable(d.fat, FirstCluster(SlotAt(d, f)));
    KeptWhen(d, e, rank, rank, f);
  }

  lemma FilesWithout(d: Disk, e: Disk, rank: map<nat, nat>, at: Found)
    requires AllFilesOk(d, rank) && AllApart(d, rank)
    requires OthersKept(d, e, rank, at)
    requires forall f :: IsFile(e, rank, f) ==> IsFile(d, rank, f) && f != at
    requires forall f, x :: IsFile(d, rank, f) && f != at && x in ChainAt(d, f) ==> x !in rank
    ensures AllFilesOk(e, rank) && AllApart(e, rank)
  {
    forall f | IsFile(e, rank, f)
      ensures FileOk(e, rank, f)
    {
      assert FileOk(d, rank, f) && FileKept(d, e, rank, f);
      KeptIsOk(d, e, rank, rank, f);
    }
    forall f, g | IsFile(e, rank, f) && IsFile(e, rank, g) && f != g
      ensures Disjoint(ChainAt(e, f), ChainAt(e, g))
    {
      assert FileKept(d, e, rank, f) && FileKept(d, e, rank, g);
    }
  }

  /** Removing a file frees exactly its clusters and disturbs no other file. */
  lemma RemoveDropsFile(d: Disk, root: u32, rank: map<nat, nat>, cb: nat, at: Found)
    requires FsOk(d, root, rank, cb, []) && IsFile(d, rank, at)
    ensures FirstCluster(SlotAt(d, at)) < |d.fat|
    ensures FileGone(d, Removed(d, at), root, rank, cb, at)
  {
    assert FileOk(d, rank, at);
    RemoveKeepsTree(d, root, rank, cb, at);
    RemoveFiles(d, root, rank, cb, at);
    var e := Removed(d, at);
    FreedChain(d.fat, rank, FirstCluster(SlotAt(d, at)), FileSize(SlotAt(d, at)));
    GoneHere(d, e, root, rank, cb, at);
  }

  lemma RemoveFiles(d: Disk, root: u32, rank: map<nat, nat>, cb: nat, at: Found)
    requires TreeOk(d, root, rank, cb) && Closed(d.fat) && IsFile(d, rank, at) && FileOk(d, rank, at)
    requires AllFilesOk(d, rank) && AllApart(d, rank)
    requires FirstCluster(SlotAt(d, at)) < |d.fat|
    ensures var e := Removed(d, at);
      && OthersKept(d, e, rank, at)
      && (forall f :: IsFile(e, rank, f) ==> IsFile(d, rank, f) && f != at)
      && AllFilesOk(e, rank) && AllApart(e, rank)
  {
    var e := Removed(d, at);
    forall f | IsFile(d, rank, f) && f != at
      ensures FileKept(d, e, rank, f) && forall x :: x in ChainAt(d, f) ==> x !in rank
    {
      assert FileOk(d, rank, f) && Disjoint(ChainAt(d, f), ChainAt(d, at));
      RemoveKeepsFile(d, root, rank, cb, at, f);
    }
    forall f | IsFile(e, rank, f)
      ensures IsFile(d, rank, f) && f != at
    {
      RemovedFiles(d, root, rank, cb, at, f);
    }
    FilesWithout(d, e, rank, at);
  }

  lemma GoneHere(d: Disk, e: Disk, root: u32, rank: map<nat, nat>, cb: nat, at: Found)
    requires TreeOk(e, root, rank, cb) && cb >= 2 * SLOT && Closed(e.fat)
    requires AllFilesOk(e, rank) && AllApart(e, rank)
    requires OthersKept(d, e, rank, at)
    requires forall f :: IsFile(e, rank, f) ==> IsFile(d, rank, f) && f != at
    requires e.fat == Zeroed(d.fat, ChainAt(d, at)) && Used(e.fat) + |ChainAt(d, at)| == Used(d.fat)
    ensures FileGone(d, e, root, rank, cb, at)
  {
    LooseAfter(e, e, rank, rank, []);
  }
}
