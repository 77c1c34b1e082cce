/** touch, copy, install, rm and move on files, over single calls and over runs. */
module FileOps {
  import opened Words
  import opened Names
  import opened Slots
  import opened Directory
  import opened DirectoryEdit
  import opened DirectoryLaws
  import opened Volume
  import opened Chains
  import opened Readers
  import opened Writers
  import opened Tree
  import opened Paths
  import opened Arrival
  import opened Room
  import opened Stages
  import opened FileSystem
  import opened FileLaws

  // ---- what a path reads as ----

  predicate InData(data: seq<seq<byte>>, cs: seq<nat>) {
    forall i :: 0 <= i < |cs| ==> cs[i] < |data|
  }

  /** The entry's bytes: the front of its clusters, as long as its size says. */
  ghost function Content(d: Disk, e: Slot): seq<byte> {
    var cs := ClustersFrom(d.fat, FirstCluster(e));
    if InData(d.data, cs) then Gather(d.data, cs)[..Min(FileSize(e), |Gather(d.data, cs)|)] else []
  }

  /** The entry at f is a file's of this name and first cluster and reads as these bytes. */
  ghost predicate HoldsAt(d: Disk, f: Found, name: seq<byte>, head: nat, bytes: seq<byte>) {
    && f.slot < |Dir(d, f.dir)| && FullName(Dir(d, f.dir), f.slot) == name && SlotAt(d, f)[11] == 0x20
    && FirstCluster(SlotAt(d, f)) == head
    && FileSize(SlotAt(d, f)) == |bytes| && Content(d, SlotAt(d, f)) == bytes
  }

  /** The path resolves to an entry of this name and first cluster that reads as these bytes. */
  ghost predicate ReadsAs(d: Disk, root: u32, dir: u32, ps: seq<seq<byte>>, name: seq<byte>, head: nat, bytes: seq<byte>) {
    var t := Trace(d, root, dir, ps);
    t.Some? && t.value != [] && HoldsAt(d, t.value[|t.value| - 1], name, head, bytes)
  }

  /** The first cluster of a chain; 0 for none. */
  function Head(cs: seq<nat>): nat { if cs == [] then 0 else cs[0] }

  lemma ContentIs(d: Disk, e: Slot, cs: seq<nat>, bytes: seq<byte>)
    requires ClustersFrom(d.fat, FirstCluster(e)) == cs && InData(d.data, cs)
    requires FileSize(e) == |bytes| <= |Gather(d.data, cs)| && Gather(d.data, cs)[..|bytes|] == bytes
    ensures Content(d, e) == bytes
  {
  }

  /** A new file's attribute, first cluster and size. */
  predicate NewMeta(meta: Meta, ds: seq<nat>, bytes: seq<byte>) {
    meta.attr == ATTR_ARCHIVE && meta.cluster as nat == Head(ds) && meta.size as nat == |bytes|
  }

  lemma HoldsNew(e: Disk, f: Found, name: seq<byte>, meta: Meta, ds: seq<nat>, bytes: seq<byte>)
    requires f.slot < |Dir(e, f.dir)| && EntryAt(Dir(e, f.dir), f.slot) == GivenEntry(name, meta)
    requires NewMeta(meta, ds, bytes) && (ds != [] ==> IsChain(e.fat, ds))
    requires InData(e.data, ds) && |bytes| <= |Gather(e.data, ds)| && Gather(e.data, ds)[..|bytes|] == bytes
    ensures HoldsAt(e, f, name, Head(ds), bytes)
  {
    NewMetaIsFile(meta, ds, bytes);
    NewChain(e.fat, ds, meta.cluster);
    ContentIs(e, SlotAt(e, f), ds, bytes);
  }

  // ---- the writers ----

  /** The disk once a writer took the clusters of ds, linked them, and wrote to no other. */
  predicate Took(d: Disk, mid: Disk, ds: seq<nat>) {
    && |d.fat| == |d.data| == |mid.data| && Fresh(d.fat, ds) && InTable(d.fat, ds) && mid.fat == Grown(d.fat, ds)
    && (forall c :: 0 <= c < |d.data| && c !in ds ==> mid.data[c] == d.data[c])
  }

  /** Taken, and filled with these bytes. */
  predicate Filled(d: Disk, mid: Disk, ds: seq<nat>, bytes: seq<byte>) {
    && Took(d, mid, ds)
    && |bytes| <= |Gather(mid.data, ds)| && Gather(mid.data, ds)[..|bytes|] == bytes
  }

  /** A new file at `at` with the clusters ds, or no new file; every file there before keeps its
      entry, clusters and bytes, and the file system stays consistent. */
  ghost predicate AddedOrNot(d: Disk, e: Disk, root: u32, rank: map<nat, nat>, cb: nat, ds: seq<nat>, at: Option<Found>) {
    match at
    case Some(f) => exists more :: FileAdded(d, e, root, rank, more, cb, ds, f)
    case None => exists more :: SameFiles(d, e, root, rank, more, cb)
  }

  /** A new file at `at`, of this name, in clusters that were free, which reads as these bytes;
      every file there before keeps its entry, clusters and bytes. */
  ghost predicate WroteAt(d: Disk, e: Disk, root: u32, rank: map<nat, nat>, cb: nat, name: seq<byte>,
                          ds: seq<nat>, bytes: seq<byte>, at: Found)
  {
    && AddedOrNot(d, e, root, rank, cb, ds, Some(at))
    && (forall c :: c in ds ==> 2 <= c < |d.fat| && d.fat[c] == 0)
    && HoldsAt(e, at, name, Head(ds), bytes)
  }

  /** What a writer promises: a new file that reads as the bytes written, and a path that leads
      to it exactly when the walk of the disk before arrives there. */
  ghost predicate Wrote(d: Disk, e: Disk, root: u32, rank: map<nat, nat>, cb: nat, dir: u32, ps: seq<seq<byte>>,
                        ds: seq<nat>, bytes: seq<byte>)
  {
    ps != [] && exists at :: WroteTo(d, e, root, rank, cb, dir, ps, ds, bytes, at)
  }

  ghost predicate WroteTo(d: Disk, e: Disk, root: u32, rank: map<nat, nat>, cb: nat, dir: u32, ps: seq<seq<byte>>,
                          ds: seq<nat>, bytes: seq<byte>, at: Found)
    requires ps != []
  {
    && WroteAt(d, e, root, rank, cb, ps[|ps| - 1], ds, bytes, at)
    && LeadsTo(e, root, dir, ps, at) == Arrives(d, root, PlanOf(d, root, dir, ps), Known(dir), ps)
  }

  /** So where the walk arrives, the path reads as the bytes written. */
  lemma WroteReads(d: Disk, e: Disk, root: u32, rank: map<nat, nat>, cb: nat, dir: u32, ps: seq<seq<byte>>, ds: seq<nat>, bytes: seq<byte>)
    requires Wrote(d, e, root, rank, cb, dir, ps, ds, bytes)
    requires Arrives(d, root, PlanOf(d, root, dir, ps), Known(dir), ps)
    ensures ReadsAs(e, root, dir, ps, ps[|ps| - 1], Head(ds), bytes)
  {
    var at :| WroteTo(d, e, root, rank, cb, dir, ps, ds, bytes, at);
  }

  lemma TakeNone(d: Disk, mid: Disk)
    requires Took(d, mid, [])
    ensures mid == d
  {
    assert mid.data == d.data;
  }

  /** Taking and filling clusters leaves everything in order, the new chain being loose. */
  lemma TookIsLoose(d: Disk, mid: Disk, root: u32, rank: map<nat, nat>, cb: nat, ds: seq<nat>)
    requires FsOk(d, root, rank, cb, []) && Took(d, mid, ds)
    ensures FsOk(mid, root, rank, cb, ds) && FilesKept(d, mid, rank, rank) && NoNewFiles(d, mid, rank, rank)
  {
    if ds == [] {
      TakeNone(d, mid);
      FilesKeptAll(d, rank);
    } else {
      TakeKeepsFs(d, mid, root, rank, cb, ds);
    }
  }

  /** A chain left loose is nobody's: without it the files are as before. */
  lemma TookIsSame(d: Disk, mid: Disk, root: u32, rank: map<nat, nat>, cb: nat, ds: seq<nat>)
    requires FsOk(d, root, rank, cb, []) && Took(d, mid, ds)
    ensures SameFiles(d, mid, root, rank, rank, cb)
  {
    TookIsLoose(d, mid, root, rank, cb, ds);
  }

  lemma AddedFromMid(d: Disk, mid: Disk, e: Disk, root: u32, rank: map<nat, nat>, more: map<nat, nat>, cb: nat, ds: seq<nat>, at: Found)
    requires FilesKept(d, mid, rank, rank) && NoNewFiles(d, mid, rank, rank)
    requires FileAdded(mid, e, root, rank, more, cb, ds, at)
    ensures FileAdded(d, e, root, rank, more, cb, ds, at)
  {
    KeptTrans(d, mid, e, rank, rank, more);
    forall f | IsFile(d, rank, f)
      ensures f != at
    {
      assert FileKept(d, mid, rank, f);
    }
  }

  /** Creating an entry for clusters just taken, through any path: a new file where the creation
      lands, none where it lands nowhere, and no other file disturbed. */
  lemma TakeThenCreate(d: Disk, mid: Disk, root: u32, rank: map<nat, nat>, cb: nat, dir: u32, ps: seq<seq<byte>>, ds: seq<nat>, meta: Meta)
    requires FsOk(d, root, rank, cb, []) && Took(d, mid, ds) && FileMeta(meta, ds) && dir as nat in rank && Parts(ps)
    ensures |mid.fat| == |mid.data| && |mid.fat| < END_MARK
    ensures AddedOrNot(d, Create(mid, root, dir, ps, meta, cb / SLOT), root, rank, cb, ds, Landing(mid, root, dir, ps, cb / SLOT))
  {
    TookIsLoose(d, mid, root, rank, cb, ds);
    CreateMakesFile(mid, root, rank, cb, dir, ps, meta, ds);
    AddedAfterTaking(d, mid, Create(mid, root, dir, ps, meta, cb / SLOT), root, rank, cb, ds, Landing(mid, root, dir, ps, cb / SLOT));
  }

  lemma AddedAfterTaking(d: Disk, mid: Disk, e: Disk, root: u32, rank: map<nat, nat>, cb: nat, ds: seq<nat>, at: Option<Found>)
    requires FilesKept(d, mid, rank, rank) && NoNewFiles(d, mid, rank, rank) && FileMadeOrNot(mid, e, root, rank, cb, ds, at)
    ensures AddedOrNot(d, e, root, rank, cb, ds, at)
  {
    match at
    case Some(f) =>
      var more :| FileMade(mid, e, root, rank, more, cb, ds, f);
      AddedFromMid(d, mid, e, root, rank, more, cb, ds, f);
    case None =>
      var more :| SameFiles(mid, e, root, rank, more, cb);
      SameBelow(d, mid, e, root, rank, rank, more, cb);
  }

  lemma LooseData(mid: Disk, e: Disk, ds: seq<nat>, bytes: seq<byte>)
    requires InData(mid.data, ds) && |bytes| <= |Gather(mid.data, ds)| && Gather(mid.data, ds)[..|bytes|] == bytes
    requires forall x :: x in ds ==> x < |mid.data| && x < |e.data| && e.data[x] == mid.data[x]
    ensures InData(e.data, ds) && |bytes| <= |Gather(e.data, ds)| && Gather(e.data, ds)[..|bytes|] == bytes
  {
    assert forall i :: 0 <= i < |ds| ==> ds[i] in ds;
    GatherFrame(mid.data, e.data, ds);
  }

  lemma AddedChain(e: Disk, d: Disk, root: u32, rank: map<nat, nat>, more: map<nat, nat>, cb: nat, cs: seq<nat>, at: Found)
    requires FileAdded(d, e, root, rank, more, cb, cs, at)
    ensures cs != [] ==> IsChain(e.fat, cs)
  {
    ChainInTable(e.fat, FirstCluster(SlotAt(e, at)));
  }

  lemma NewMetaFits(meta: Meta, ds: seq<nat>, bytes: seq<byte>)
    requires NewMeta(meta, ds, bytes) && (ds == [] ==> bytes == [])
    ensures FileMeta(meta, ds)
  {
  }

  lemma NewMetaIsFile(meta: Meta, ds: seq<nat>, bytes: seq<byte>)
    requires NewMeta(meta, ds, bytes)
    ensures (meta.attr / 0x10) % 2 == 0 && meta.attr != ATTR_LFN
  {
  }

  /** Whatever wrote the bytes: where its entry lands, the new file reads as exactly those bytes. */
  lemma WriterStores(d: Disk, mid: Disk, root: u32, rank: map<nat, nat>, cb: nat, dir: u32, ps: seq<seq<byte>>,
                     ds: seq<nat>, bytes: seq<byte>, meta: Meta, at: Found)
    requires FsOk(d, root, rank, cb, []) && Filled(d, mid, ds, bytes) && NewMeta(meta, ds, bytes) && dir as nat in rank && Parts(ps)
    requires |mid.fat| == |mid.data| && |mid.fat| < END_MARK && Landing(mid, root, dir, ps, cb / SLOT) == Some(at)
    ensures ps != [] && WroteAt(d, Create(mid, root, dir, ps, meta, cb / SLOT), root, rank, cb, ps[|ps| - 1], ds, bytes, at)
  {
    var e := Create(mid, root, dir, ps, meta, cb / SLOT);
    NewMetaFits(meta, ds, bytes);
    TookIsLoose(d, mid, root, rank, cb, ds);
    TakeThenCreate(d, mid, root, rank, cb, dir, ps, ds, meta);
    CreateMakesFile(mid, root, rank, cb, dir, ps, meta, ds);
    LandingHolds(mid, e, root, rank, cb, dir, ps, meta, at);
    NewFileHolds(mid, e, root, rank, cb, ps[|ps| - 1], ds, bytes, meta, at);
  }

  /** The new entry has the size it was given. */
  lemma CreatedSize(mid: Disk, root: u32, rank: map<nat, nat>, cb: nat, dir: u32, ps: seq<seq<byte>>, meta: Meta, at: Found)
    requires TreeOk(mid, root, rank, cb) && cb >= 2 * SLOT && dir as nat in rank && meta.attr != ATTR_LFN && Parts(ps)
    requires Landing(mid, root, dir, ps, cb / SLOT) == Some(at)
    ensures FileSize(SlotAt(Create(mid, root, dir, ps, meta, cb / SLOT), at)) == meta.size
  {
    LandingHolds(mid, Create(mid, root, dir, ps, meta, cb / SLOT), root, rank, cb, dir, ps, meta, at);
  }

  lemma NewFileHolds(mid: Disk, e: Disk, root: u32, rank: map<nat, nat>, cb: nat, name: seq<byte>, ds: seq<nat>, bytes: seq<byte>,
                     meta: Meta, at: Found)
    requires FileMadeOrNot(mid, e, root, rank, cb, ds, Some(at)) && NewMeta(meta, ds, bytes)
    requires HoldsEntry(e, at, GivenEntry(name, meta))
    requires InData(mid.data, ds) && |bytes| <= |Gather(mid.data, ds)| && Gather(mid.data, ds)[..|bytes|] == bytes
    ensures HoldsAt(e, at, name, Head(ds), bytes)
  {
    var more :| FileMade(mid, e, root, rank, more, cb, ds, at);
    AddedChain(e, mid, root, rank, more, cb, ds, at);
    LooseData(mid, e, ds, bytes);
    HoldsNew(e, at, name, meta, ds, bytes);
  }

  lemma TookDirs(d: Disk, mid: Disk, root: u32, rank: map<nat, nat>, cb: nat, ds: seq<nat>)
    requires TreeOk(d, root, rank, cb) && Took(d, mid, ds)
    ensures TreeOk(mid, root, rank, cb) && forall c :: c in rank ==> Dir(mid, c) == Dir(d, c)
    ensures Used(mid.fat) == Used(d.fat) + |ds|
  {
    GrownCount(d.fat, ds);
    TakeKeepsDirs(d, mid, root, rank, cb, ds);
  }

  /** A path open before a writer takes its clusters can be created afterwards, and the same is missing of it. */
  lemma TookCanCreate(d: Disk, mid: Disk, root: u32, rank: map<nat, nat>, cb: nat, dir: u32, ps: seq<seq<byte>>, ds: seq<nat>)
    requires TreeOk(d, root, rank, cb) && Took(d, mid, ds) && dir as nat in rank && HasRoom(d, root, cb, dir, ps, |ds|)
    ensures TreeOk(mid, root, rank, cb) && CanCreate(mid, root, dir, ps, cb / SLOT)
    ensures PlanOf(mid, root, dir, ps) == PlanOf(d, root, dir, ps) && PlanOf(d, root, dir, ps).top as nat in rank
    ensures Arrives(mid, root, PlanOf(d, root, dir, ps), Known(dir), ps) == Arrives(d, root, PlanOf(d, root, dir, ps), Known(dir), ps)
  {
    TookDirs(d, mid, root, rank, cb, ds);
    OpenFrame(d, mid, root, rank, cb, dir, ps);
    OpenCanCreate(mid, root, rank, cb, dir, ps);
    CreateAtTop(mid, root, rank, cb, dir, ps, Meta(ATTR_ARCHIVE, 0, 0));
    ArrivesFrame(d, mid, root, rank, cb, PlanOf(d, root, dir, ps), Known(dir), ps);
  }

  /** There is room for a new file of n clusters at this path. */
  predicate HasRoom(d: Disk, root: u32, cb: nat, dir: u32, ps: seq<seq<byte>>, n: nat) {
    cb >= 8 * SLOT && Open(d, root, dir, ps) && Used(d.fat) + n + MissingDirs(d, root, dir, ps) + 2 <= |d.fat|
  }

  /** A writer's file reads back: with room for it there is a new file of exactly the bytes
      written, and the path leads to it exactly when the walk of the disk before arrives. */
  lemma WriterReadsBack(d: Disk, mid: Disk, root: u32, rank: map<nat, nat>, cb: nat, dir: u32, ps: seq<seq<byte>>,
                        ds: seq<nat>, bytes: seq<byte>, meta: Meta)
    requires FsOk(d, root, rank, cb, []) && Filled(d, mid, ds, bytes) && NewMeta(meta, ds, bytes) && dir as nat in rank
    requires HasRoom(d, root, cb, dir, ps, |ds|)
    ensures |mid.fat| == |mid.data|
    ensures Landing(mid, root, dir, ps, cb / SLOT).Some?
    ensures Wrote(d, Create(mid, root, dir, ps, meta, cb / SLOT), root, rank, cb, dir, ps, ds, bytes)
  {
    TookCanCreate(d, mid, root, rank, cb, dir, ps, ds);
    CanCreateLands(mid, root, dir, ps, cb / SLOT);
    NewMetaIsFile(meta, ds, bytes);
    WroteWhereItLands(d, mid, Create(mid, root, dir, ps, meta, cb / SLOT), root, rank, cb, dir, ps, ds, bytes, meta,
                      Landing(mid, root, dir, ps, cb / SLOT).value, PlanOf(d, root, dir, ps));
  }

  lemma WroteWhereItLands(d: Disk, mid: Disk, e: Disk, root: u32, rank: map<nat, nat>, cb: nat, dir: u32, ps: seq<seq<byte>>,
                          ds: seq<nat>, bytes: seq<byte>, meta: Meta, at: Found, p: Plan)
    requires FsOk(d, root, rank, cb, []) && Filled(d, mid, ds, bytes) && NewMeta(meta, ds, bytes) && Parts(ps)
    requires (meta.attr / 0x10) % 2 == 0
    requires CreatedAt(mid, e, root, rank, cb, dir, ps, meta, at) && p == PlanOf(mid, root, dir, ps) == PlanOf(d, root, dir, ps)
    requires Arrives(mid, root, p, Known(dir), ps) == Arrives(d, root, p, Known(dir), ps)
    ensures Wrote(d, e, root, rank, cb, dir, ps, ds, bytes)
  {
    WriterStores(d, mid, root, rank, cb, dir, ps, ds, bytes, meta, at);
    FileFound(mid, e, root, rank, cb, dir, ps, meta, at, p, LeadsTo(e, root, dir, ps, at), Arrives(mid, root, p, Known(dir), ps));
    assert WroteTo(d, e, root, rank, cb, dir, ps, ds, bytes, at);
  }

  /** What a writer promises for any path there is room for once its clusters are taken: a new file
      that reads as the bytes written, and a path that leads to it exactly when the walk of the
      creation's last stage arrives. */
  ghost predicate WroteOnStage(d: Disk, mid: Disk, e: Disk, root: u32, rank: map<nat, nat>, cb: nat, dir: u32, ps: seq<seq<byte>>,
                               ds: seq<nat>, bytes: seq<byte>)
    requires |mid.fat| == |mid.data| && |mid.fat| < END_MARK
  {
    ps != [] && exists at ::
      && WroteAt(d, e, root, rank, cb, ps[|ps| - 1], ds, bytes, at)
      && LeadsTo(e, root, dir, ps, at) == StageArrives(mid, root, dir, ps, cb / SLOT)
  }

  lemma WriterFound(d: Disk, mid: Disk, root: u32, rank: map<nat, nat>, cb: nat, dir: u32, ps: seq<seq<byte>>,
                    ds: seq<nat>, bytes: seq<byte>, meta: Meta)
    requires FsOk(d, root, rank, cb, []) && Filled(d, mid, ds, bytes) && NewMeta(meta, ds, bytes) && dir as nat in rank
    requires |mid.fat| == |mid.data| && |mid.fat| < END_MARK && HasPlace(mid, root, dir, ps, cb / SLOT)
    ensures WroteOnStage(d, mid, Create(mid, root, dir, ps, meta, cb / SLOT), root, rank, cb, dir, ps, ds, bytes)
  {
    HasPlaceLands(mid, root, dir, ps, cb / SLOT);
    var at := Landing(mid, root, dir, ps, cb / SLOT).value;
    NewMetaIsFile(meta, ds, bytes);
    TookDirs(d, mid, root, rank, cb, ds);
    WriterStores(d, mid, root, rank, cb, dir, ps, ds, bytes, meta, at);
    StagedCreateThenFind(mid, Create(mid, root, dir, ps, meta, cb / SLOT), root, rank, cb, dir, ps, meta, at);
  }

  // ---- touch ----

  /** `fat32_touch`: an empty file, unless the path resolves already. */
  function Touched(d: Disk, root: u32, dir: u32, ps: seq<seq<byte>>, n: nat): Disk
    requires |d.fat| == |d.data| && |d.fat| < END_MARK
  {
    if Find(d, root, dir, ps).Some? then d else Create(d, root, dir, ps, Meta(ATTR_ARCHIVE, 0, 0), n)
  }

  /** Touching a path that does not resolve, with room, makes an empty file and disturbs no other. */
  lemma TouchMakesEmpty(d: Disk, root: u32, rank: map<nat, nat>, cb: nat, dir: u32, ps: seq<seq<byte>>)
    requires FsOk(d, root, rank, cb, []) && dir as nat in rank
    requires Find(d, root, dir, ps) == None && HasRoom(d, root, cb, dir, ps, 0)
    ensures Wrote(d, Touched(d, root, dir, ps, cb / SLOT), root, rank, cb, dir, ps, [], [])
  {
    WriterReadsBack(d, d, root, rank, cb, dir, ps, [], [], Meta(ATTR_ARCHIVE, 0, 0));
  }

  /** The same for any path there is room for. */
  lemma TouchFound(d: Disk, root: u32, rank: map<nat, nat>, cb: nat, dir: u32, ps: seq<seq<byte>>)
    requires FsOk(d, root, rank, cb, []) && dir as nat in rank && Find(d, root, dir, ps) == None && HasPlace(d, root, dir, ps, cb / SLOT)
    ensures WroteOnStage(d, d, Touched(d, root, dir, ps, cb / SLOT), root, rank, cb, dir, ps, [], [])
  {
    WriterFound(d, d, root, rank, cb, dir, ps, [], [], Meta(ATTR_ARCHIVE, 0, 0));
  }

  /** Any touch: a new file where it lands, else the same files. */
  lemma TouchKeepsFs(d: Disk, root: u32, rank: map<nat, nat>, cb: nat, dir: u32, ps: seq<seq<byte>>)
    requires FsOk(d, root, rank, cb, []) && dir as nat in rank && Parts(ps)
    ensures AddedOrNot(d, Touched(d, root, dir, ps, cb / SLOT), root, rank, cb, [],
      if Find(d, root, dir, ps).Some? then None else Landing(d, root, dir, ps, cb / SLOT))
  {
    if Find(d, root, dir, ps).Some? {
      FilesKeptAll(d, rank);
      assert SameFiles(d, d, root, rank, rank, cb);
    } else {
      TakeThenCreate(d, d, root, rank, cb, dir, ps, [], Meta(ATTR_ARCHIVE, 0, 0));
    }
  }

  // ---- copy ----

  /** Every cluster is a block of cb bytes. */
  predicate Sized(d: Disk, cb: nat) {
    forall c :: 2 <= c < |d.data| ==> |d.data[c]| == cb
  }

  ghost predicate Resolved(d: Disk, rank: map<nat, nat>, e: Slot) {
    exists f :: IsFile(d, rank, f) && SlotAt(d, f) == e
  }

  /** A path that resolves to no directory resolves to one of the files. */
  lemma {:induction false} FoundIsFile(d: Disk, root: u32, rank: map<nat, nat>, cb: nat, dir: u32, ps: seq<seq<byte>>, e: Slot)
    requires TreeOk(d, root, rank, cb) && dir as nat in rank
    requires Find(d, root, dir, ps) == Some(e) && !IsDirectory(e)
    ensures Resolved(d, rank, e)
    decreases |ps|
  {
    var j := Lookup(Dir(d, dir), ps[0]).value;
    if |ps| == 1 {
      assert IsFile(d, rank, Found(dir, j)) && SlotAt(d, Found(dir, j)) == e;
    } else {
      StepDown(d, root, rank, cb, dir, ps[0]);
      FoundIsFile(d, root, rank, cb, Enter(root, Dir(d, dir)[j]), ps[1..], e);
    }
  }

  /** The clusters of an entry are as many as its size needs. */
  ghost predicate WholeSlot(d: Disk, cb: nat, e: Slot) {
    FileSize(e) <= cb * |ClustersFrom(d.fat, FirstCluster(e))|
  }

  /** A file can be copied. */
  lemma SourceCanCopy(d: Disk, rank: map<nat, nat>, cb: nat, e: Slot)
    requires AllFilesOk(d, rank) && Resolved(d, rank, e) && cb > 0 && |d.fat| == |d.data|
    ensures CanCopy(d, FirstCluster(e), FileSize(e), ClustersFrom(d.fat, FirstCluster(e)), cb)
  {
    var f :| IsFile(d, rank, f) && SlotAt(d, f) == e;
    assert FileOk(d, rank, f);
    ChainInTable(d.fat, FirstCluster(e));
  }

  /** The copy's clusters, taken and filled. */
  ghost function CopyTaken(d: Disk, s: Slot, cb: nat): Disk
    requires cb > 0 && CanCopy(d, FirstCluster(s), FileSize(s), ClustersFrom(d.fat, FirstCluster(s)), cb)
  {
    Copied(d, FirstCluster(s), FileSize(s), ClustersFrom(d.fat, FirstCluster(s)), cb)
  }

  ghost function CopyClusters(d: Disk, s: Slot, cb: nat): seq<nat>
    requires cb > 0
  {
    Taken(d.fat, CopyAsks(FileSize(s), |ClustersFrom(d.fat, FirstCluster(s))|, cb))
  }

  /** `fat32_copy` of entry s: its bytes in clusters of their own, then the new entry. */
  ghost function CopiedTo(d: Disk, root: u32, s: Slot, dir: u32, ps: seq<seq<byte>>, cb: nat): Disk
    requires |d.fat| == |d.data| && |d.fat| < END_MARK && cb > 0
    requires CanCopy(d, FirstCluster(s), FileSize(s), ClustersFrom(d.fat, FirstCluster(s)), cb)
  {
    var ds, mid := CopyClusters(d, s, cb), CopyTaken(d, s, cb);
    if ds == [] then mid else Create(mid, root, dir, ps, Meta(ATTR_ARCHIVE, ds[0], FileSize(s)), cb / SLOT)
  }

  /** Where the copy's entry goes; None on a disk without a free cluster. */
  ghost function CopyLanding(d: Disk, root: u32, s: Slot, dir: u32, ps: seq<seq<byte>>, cb: nat): Option<Found>
    requires |d.fat| == |d.data| && |d.fat| < END_MARK && cb > 0
    requires CanCopy(d, FirstCluster(s), FileSize(s), ClustersFrom(d.fat, FirstCluster(s)), cb)
  {
    if CopyClusters(d, s, cb) == [] then None else Landing(CopyTaken(d, s, cb), root, dir, ps, cb / SLOT)
  }

  lemma CopyTook(d: Disk, s: Slot, cb: nat)
    requires cb > 0 && CanCopy(d, FirstCluster(s), FileSize(s), ClustersFrom(d.fat, FirstCluster(s)), cb)
    ensures Took(d, CopyTaken(d, s, cb), CopyClusters(d, s, cb))
  {
    var cs, ds := ClustersFrom(d.fat, FirstCluster(s)), CopyClusters(d, s, cb);
    TakenFresh(d.fat, CopyAsks(FileSize(s), |cs|, cb));
    if FileSize(s) > 0 {
      forall c | 0 <= c < |d.data| && c !in ds
        ensures CopyTaken(d, s, cb).data[c] == d.data[c]
      {
        StoredFrame(d.data, Fed(ds, |cs|), BlocksOf(d.data, cs), c);
      }
    }
  }

  /** Any copy of a file: a new file where its entry lands, else the same files. */
  lemma CopyKeepsFs(d: Disk, root: u32, rank: map<nat, nat>, cb: nat, s: Slot, dir: u32, ps: seq<seq<byte>>)
    requires FsOk(d, root, rank, cb, []) && Resolved(d, rank, s) && dir as nat in rank && Parts(ps)
    ensures CanCopy(d, FirstCluster(s), FileSize(s), ClustersFrom(d.fat, FirstCluster(s)), cb)
    ensures AddedOrNot(d, CopiedTo(d, root, s, dir, ps, cb), root, rank, cb, CopyClusters(d, s, cb), CopyLanding(d, root, s, dir, ps, cb))
  {
    SourceCanCopy(d, rank, cb, s);
    CopyTook(d, s, cb);
    CopyAdds(d, CopyTaken(d, s, cb), root, rank, cb, CopyClusters(d, s, cb), FileSize(s), dir, ps);
  }

  lemma CopyAdds(d: Disk, mid: Disk, root: u32, rank: map<nat, nat>, cb: nat, ds: seq<nat>, size: u32, dir: u32, ps: seq<seq<byte>>)
    requires FsOk(d, root, rank, cb, []) && Took(d, mid, ds) && dir as nat in rank && Parts(ps)
    ensures |mid.fat| == |mid.data| && |mid.fat| < END_MARK && (ds != [] ==> ds[0] < |d.fat|)
    ensures AddedOrNot(d, if ds == [] then mid else Create(mid, root, dir, ps, Meta(ATTR_ARCHIVE, ds[0], size), cb / SLOT),
      root, rank, cb, ds, if ds == [] then None else Landing(mid, root, dir, ps, cb / SLOT))
  {
    if ds == [] {
      TookIsSame(d, mid, root, rank, cb, ds);
    } else {
      TakeThenCreate(d, mid, root, rank, cb, dir, ps, ds, Meta(ATTR_ARCHIVE, ds[0], size));
    }
  }

  /** The clusters a copy of entry s takes hold its content. */
  ghost predicate CopyReady(d: Disk, s: Slot, cb: nat) {
    cb > 0 && Sized(d, cb) &&
    var cs, n := ClustersFrom(d.fat, FirstCluster(s)), CopyBlocks(FileSize(s), cb);
      && CanCopy(d, FirstCluster(s), FileSize(s), cs, cb) && Blocks(d.data, cs, cb)
      && (FileSize(s) > 0 ==> n <= |cs|) && FileSize(s) <= |Gather(d.data, cs)| && |Taken(d.fat, n)| == n
  }

  lemma CopyFillsFile(d: Disk, s: Slot, cb: nat)
    requires CopyReady(d, s, cb)
    ensures var ds := CopyClusters(d, s, cb);
      && ds == Taken(d.fat, CopyBlocks(FileSize(s), cb)) && |ds| == CopyBlocks(FileSize(s), cb)
      && ds != [] && ds[0] < |d.fat| && Filled(d, CopyTaken(d, s, cb), ds, Content(d, s)) && |Content(d, s)| == FileSize(s)
  {
    var cs, size := ClustersFrom(d.fat, FirstCluster(s)), FileSize(s);
    ContentIsFront(d, s, cb);
    CopyTook(d, s, cb);
    CopyBlocksHold(size, cb);
    if size > 0 {
      CopyReadsBack(d, FirstCluster(s), size, cs, cb);
    }
  }

  lemma ContentIsFront(d: Disk, s: Slot, cb: nat)
    requires CopyReady(d, s, cb)
    ensures Content(d, s) == Gather(d.data, ClustersFrom(d.fat, FirstCluster(s)))[..FileSize(s)]
  {
  }

  lemma SourceIsReady(d: Disk, root: u32, rank: map<nat, nat>, cb: nat, q: u32, src: seq<seq<byte>>, s: Slot)
    requires FsOk(d, root, rank, cb, []) && Sized(d, cb) && q as nat in rank
    requires Find(d, root, q, src) == Some(s) && !IsDirectory(s) && WholeSlot(d, cb, s)
    requires Used(d.fat) + CopyBlocks(FileSize(s), cb) + 2 <= |d.fat|
    ensures CopyReady(d, s, cb)
  {
    FoundIsFile(d, root, rank, cb, q, src, s);
    SourceCanCopy(d, rank, cb, s);
    var cs := ClustersFrom(d.fat, FirstCluster(s));
    ChainInTable(d.fat, FirstCluster(s));
    GatherLen(d.data, cs, cb);
    CopyBlocksHold(FileSize(s), cb);
    TakenAll(d.fat, CopyBlocks(FileSize(s), cb));
  }

  /** A copy reads as its source does, from clusters that were free, and every file there
      before, the source included, is as before. */
  lemma CopyReadsAsSource(d: Disk, root: u32, rank: map<nat, nat>, cb: nat, q: u32, src: seq<seq<byte>>, s: Slot,
                          dir: u32, ps: seq<seq<byte>>)
    requires FsOk(d, root, rank, cb, []) && Sized(d, cb) && q as nat in rank && dir as nat in rank
    requires Find(d, root, q, src) == Some(s) && !IsDirectory(s) && WholeSlot(d, cb, s)
    requires HasRoom(d, root, cb, dir, ps, CopyBlocks(FileSize(s), cb))
    ensures CopyReady(d, s, cb)
    ensures Wrote(d, CopiedTo(d, root, s, dir, ps, cb), root, rank, cb, dir, ps, CopyClusters(d, s, cb), Content(d, s))
  {
    SourceIsReady(d, root, rank, cb, q, src, s);
    CopyOf(d, root, rank, cb, s, dir, ps);
  }

  lemma CopyOf(d: Disk, root: u32, rank: map<nat, nat>, cb: nat, s: Slot, dir: u32, ps: seq<seq<byte>>)
    requires FsOk(d, root, rank, cb, []) && dir as nat in rank && CopyReady(d, s, cb)
    requires HasRoom(d, root, cb, dir, ps, CopyBlocks(FileSize(s), cb))
    ensures CopyLanding(d, root, s, dir, ps, cb).Some?
    ensures Wrote(d, CopiedTo(d, root, s, dir, ps, cb), root, rank, cb, dir, ps, CopyClusters(d, s, cb), Content(d, s))
  {
    var ds := CopyClusters(d, s, cb);
    CopyFillsFile(d, s, cb);
    WriterReadsBack(d, CopyTaken(d, s, cb), root, rank, cb, dir, ps, ds, Content(d, s), Meta(ATTR_ARCHIVE, ds[0], FileSize(s)));
  }

  /** A copy to any path there is room for once its clusters are taken. */
  lemma CopyFound(d: Disk, root: u32, rank: map<nat, nat>, cb: nat, s: Slot, dir: u32, ps: seq<seq<byte>>)
    requires FsOk(d, root, rank, cb, []) && dir as nat in rank && CopyReady(d, s, cb) && HasPlace(CopyTaken(d, s, cb), root, dir, ps, cb / SLOT)
    ensures WroteOnStage(d, CopyTaken(d, s, cb), CopiedTo(d, root, s, dir, ps, cb), root, rank, cb, dir, ps, CopyClusters(d, s, cb), Content(d, s))
  {
    var ds := CopyClusters(d, s, cb);
    CopyFillsFile(d, s, cb);
    WriterFound(d, CopyTaken(d, s, cb), root, rank, cb, dir, ps, ds, Content(d, s), Meta(ATTR_ARCHIVE, ds[0], FileSize(s)));
  }

  /** `fat32_copy`: nothing for a source that does not resolve or is a directory. */
  ghost function CopyResult(d: Disk, root: u32, q: u32, src: seq<seq<byte>>, dir: u32, ps: seq<seq<byte>>, cb: nat): Disk
    requires |d.fat| == |d.data| && |d.fat| < END_MARK && cb > 0
  {
    match Find(d, root, q, src)
    case None => d
    case Some(s) =>
      if IsDirectory(s) || !CanCopy(d, FirstCluster(s), FileSize(s), ClustersFrom(d.fat, FirstCluster(s)), cb) then d
      else CopiedTo(d, root, s, dir, ps, cb)
  }

  // ---- install_file ----

  /** `install_file` from an entry's clusters on: enough of them are taken and filled and the
      entry is created, or the disk is full and those taken are left. */
  ghost predicate InstallsBy(d: Disk, e: Disk, root: u32, cb: nat, dir: u32, ps: seq<seq<byte>>, bytes: seq<byte>, mid: Disk) {
    cb > 0 && |bytes| < 0x1_0000_0000 &&
    var ds := Taken(d.fat, BlocksFor(|bytes|, cb));
    && Took(d, mid, ds) && |mid.fat| == |mid.data| && |mid.fat| < END_MARK
    && if |ds| < BlocksFor(|bytes|, cb) then e == mid
       else Filled(d, mid, ds, bytes) && Head(ds) < 0x1_0000_0000
            && e == Create(mid, root, dir, ps, Meta(ATTR_ARCHIVE, Head(ds), |bytes|), cb / SLOT)
  }

  ghost predicate Installs(d: Disk, e: Disk, root: u32, cb: nat, dir: u32, ps: seq<seq<byte>>, bytes: seq<byte>) {
    exists mid :: InstallsBy(d, e, root, cb, dir, ps, bytes, mid)
  }

  /** The names a call that resolves or creates a path can be given. */
  predicate PathName(name: seq<byte>) { Ascii(name) && ShortComponents(name) }

  /** The first step of `install_file`: an entry the path resolves to is removed, by that
      same name and so only when the current directory holds it. */
  ghost function Cleaned(d: Disk, root: u32, cwd: u32, name: seq<byte>): Disk
    requires Closed(d.fat)
  {
    if Find(d, root, StartDir(root, cwd, name), Split(name)).Some? then RemovedByName(d, cwd, name) else d
  }

  /** What was installed under a path with room reads back as the bytes given, from clusters
      that were free, every other file as before. */
  lemma InstallReadsBack(d: Disk, e: Disk, root: u32, rank: map<nat, nat>, cb: nat, dir: u32, ps: seq<seq<byte>>, bytes: seq<byte>)
    requires FsOk(d, root, rank, cb, []) && dir as nat in rank && Installs(d, e, root, cb, dir, ps, bytes)
    requires HasRoom(d, root, cb, dir, ps, BlocksFor(|bytes|, cb))
    ensures Wrote(d, e, root, rank, cb, dir, ps, Taken(d.fat, BlocksFor(|bytes|, cb)), bytes)
  {
    var mid :| InstallsBy(d, e, root, cb, dir, ps, bytes, mid);
    var ds := Taken(d.fat, BlocksFor(|bytes|, cb));
    TakenAll(d.fat, BlocksFor(|bytes|, cb));
    WriterReadsBack(d, mid, root, rank, cb, dir, ps, ds, bytes, Meta(ATTR_ARCHIVE, Head(ds), |bytes|));
  }

  /** The same for any path there is room for once its clusters are taken. */
  lemma InstallFound(d: Disk, e: Disk, root: u32, rank: map<nat, nat>, cb: nat, dir: u32, ps: seq<seq<byte>>, bytes: seq<byte>, mid: Disk)
    requires FsOk(d, root, rank, cb, []) && dir as nat in rank && InstallsBy(d, e, root, cb, dir, ps, bytes, mid)
    requires |Taken(d.fat, BlocksFor(|bytes|, cb))| == BlocksFor(|bytes|, cb) && HasPlace(mid, root, dir, ps, cb / SLOT)
    ensures WroteOnStage(d, mid, e, root, rank, cb, dir, ps, Taken(d.fat, BlocksFor(|bytes|, cb)), bytes)
  {
    var ds := Taken(d.fat, BlocksFor(|bytes|, cb));
    WriterFound(d, mid, root, rank, cb, dir, ps, ds, bytes, Meta(ATTR_ARCHIVE, Head(ds), |bytes|));
  }

  /** Any installation: a new file where its entry lands, else the same files. */
  lemma InstallKeepsFs(d: Disk, e: Disk, root: u32, rank: map<nat, nat>, cb: nat, dir: u32, ps: seq<seq<byte>>, bytes: seq<byte>, mid: Disk)
    requires FsOk(d, root, rank, cb, []) && dir as nat in rank && Parts(ps) && InstallsBy(d, e, root, cb, dir, ps, bytes, mid)
    ensures var ds := Taken(d.fat, BlocksFor(|bytes|, cb));
      AddedOrNot(d, e, root, rank, cb, ds, if |ds| < BlocksFor(|bytes|, cb) then None else Landing(mid, root, dir, ps, cb / SLOT))
  {
    var ds := Taken(d.fat, BlocksFor(|bytes|, cb));
    if |ds| < BlocksFor(|bytes|, cb) {
      TookIsSame(d, mid, root, rank, cb, ds);
    } else {
      BlocksForHold(|bytes|, cb);
      NewMetaFits(Meta(ATTR_ARCHIVE, Head(ds), |bytes|), ds, bytes);
      TakeThenCreate(d, mid, root, rank, cb, dir, ps, ds, Meta(ATTR_ARCHIVE, Head(ds), |bytes|));
    }
  }

  // ---- rm ----

  /** `fat32_rm` in directory `dir`, its one cluster: the first entry the name matches. */
  ghost function RemovedByName(d: Disk, dir: u32, name: seq<byte>): Disk
    requires Closed(d.fat)
  {
    match Lookup(Dir(d, dir), name)
    case None => d
    case Some(j) =>
      var c := FirstCluster(Dir(d, dir)[j]);
      if c < |d.fat| || c >= END_MARK then Removed(d, Found(dir, j)) else d
  }

  /** Removing a file by name drops the file the name resolves to, and only that one. */
  lemma RemoveByName(d: Disk, root: u32, rank: map<nat, nat>, cb: nat, dir: u32, name: seq<byte>, j: nat)
    requires FsOk(d, root, rank, cb, []) && dir as nat in rank
    requires Lookup(Dir(d, dir), name) == Some(j) && !IsDirectory(Dir(d, dir)[j])
    ensures FileGone(d, RemovedByName(d, dir, name), root, rank, cb, Found(dir, j))
    ensures RemovedByName(d, dir, name) == Removed(d, Found(dir, j))
  {
    RemoveDropsFile(d, root, rank, cb, Found(dir, j));
  }

  /** No entry but the one in slot i matches the name. */
  predicate NoOther(D: seq<Slot>, i: nat, name: seq<byte>) {
    forall j: nat :: j < |D| && Short(D[j]) && j != i ==> !Matches(D, j, name)
  }

  /** After a removal the name resolves to nothing exactly when no other entry matches it too. */
  lemma RemovedNameGone(D: seq<Slot>, i: nat, name: seq<byte>)
    requires WellFormed(D) && Lookup(D, name) == Some(i)
    ensures Lookup(Cleared(D, i), name) == None <==> NoOther(D, i, name)
  {
    var E := Cleared(D, i);
    LookupDecided(D, name, i);
    RemoveKeepsWellFormed(D, i);
    if r: nat :| r < |D| && Short(D[r]) && r != i && Matches(D, r, name) {
      RemoveFrame(D, i, r);
      if Lookup(E, name) == None {
        LookupFails(E, name, 0);
      }
    } else if Lookup(E, name) != None {
      var j := Lookup(E, name).value;
      ClearedSlots(D, i, j);
      RemoveFrame(D, i, j);
    }
  }

  /** Of the known directories one has lost the entry `at`. */
  ghost predicate OneCleared(d: Disk, e: Disk, rank: map<nat, nat>, at: Found) {
    && at.slot < |Dir(d, at.dir)|
    && forall c :: c in rank ==> Dir(e, c) == if c == at.dir then Cleared(Dir(d, at.dir), at.slot) else Dir(d, c)
  }

  /** A path that does not end at the removed file resolves as before. */
  lemma {:induction false} RemovalKeepsPaths(d: Disk, e: Disk, root: u32, rank: map<nat, nat>, cb: nat, at: Found, q: u32, qs: seq<seq<byte>>)
    requires TreeOk(d, root, rank, cb) && IsFile(d, rank, at) && q as nat in rank
    requires OneCleared(d, e, rank, at)
    requires Trace(d, root, q, qs).Some? && at !in Trace(d, root, q, qs).value
    ensures Trace(e, root, q, qs) == Trace(d, root, q, qs) && Find(e, root, q, qs) == Find(d, root, q, qs)
    decreases |qs|
  {
    TraceStarts(d, root, q, qs);
    Ranked(d, root, rank, cb, q);
    var j := Lookup(Dir(d, q), qs[0]).value;
    if q as nat == at.dir {
      RemovalKeepsLookups(Dir(d, q), at.slot, qs[0], j);
      ClearedSlots(Dir(d, q), at.slot, j);
    }
    if |qs| > 1 {
      StepDown(d, root, rank, cb, q, qs[0]);
      TraceStep(d, root, q, qs, j);
      RemovalKeepsPaths(d, e, root, rank, cb, at, Enter(root, Dir(d, q)[j]), qs[1..]);
      SameTail(d, e, root, q, qs);
    }
  }

  /** A file kept reads as before. */
  lemma ContentKept(d: Disk, e: Disk, more: map<nat, nat>, f: Found)
    requires FileKept(d, e, more, f)
    ensures Content(e, SlotAt(e, f)) == Content(d, SlotAt(d, f))
  {
    var cs := ChainAt(d, f);
    assert forall i :: 0 <= i < |cs| ==> cs[i] in cs;
    GatherFrame(d.data, e.data, cs);
  }

  /** Every step of a trace but the last is a directory. */
  lemma {:induction false} TraceSteps(d: Disk, root: u32, dir: u32, ps: seq<seq<byte>>, i: nat)
    requires Trace(d, root, dir, ps).Some? && i < |ps| - 1
    ensures IsDirectory(SlotAt(d, Trace(d, root, dir, ps).value[i]))
    decreases |ps|
  {
    TraceStarts(d, root, dir, ps);
    var j := Lookup(Dir(d, dir), ps[0]).value;
    TraceStep(d, root, dir, ps, j);
    if i > 0 {
      TraceSteps(d, root, Enter(root, Dir(d, dir)[j]), ps[1..], i - 1);
    }
  }

  /** A trace passes a file only at its end. */
  lemma FileOnlyLast(d: Disk, rank: map<nat, nat>, root: u32, dir: u32, ps: seq<seq<byte>>, at: Found)
    requires Trace(d, root, dir, ps).Some? && IsFile(d, rank, at)
    requires Trace(d, root, dir, ps).value[|ps| - 1] != at
    ensures at !in Trace(d, root, dir, ps).value
  {
    var t := Trace(d, root, dir, ps).value;
    forall i | 0 <= i < |t|
      ensures t[i] != at
    {
      if i < |t| - 1 {
        TraceSteps(d, root, dir, ps, i);
      }
    }
  }

  ghost predicate AllKnown(d: Disk, rank: map<nat, nat>, t: seq<Found>) {
    forall i :: 0 <= i < |t| ==> KnownSlot(d, rank, t[i])
  }

  /** Every directory a trace passes is known, and every entry live. */
  lemma {:induction false} TraceKnown(d: Disk, root: u32, rank: map<nat, nat>, cb: nat, dir: u32, ps: seq<seq<byte>>, t: seq<Found>)
    requires TreeOk(d, root, rank, cb) && dir as nat in rank
    requires Trace(d, root, dir, ps) == Some(t)
    ensures AllKnown(d, rank, t)
    decreases |ps|
  {
    TraceStarts(d, root, dir, ps);
    if |ps| > 1 {
      StepDown(d, root, rank, cb, dir, ps[0]);
      TraceBehind(d, root, dir, ps, t);
      TraceKnown(d, root, rank, cb, Enter(root, Dir(d, dir)[Lookup(Dir(d, dir), ps[0]).value]), ps[1..], t[1..]);
    }
    AllKnownFrom(d, rank, t, dir, ps[0]);
  }

  lemma AllKnownFrom(d: Disk, rank: map<nat, nat>, t: seq<Found>, dir: nat, component: seq<byte>)
    requires dir in rank && Lookup(Dir(d, dir), component).Some?
    requires t != [] && t[0] == Found(dir, Lookup(Dir(d, dir), component).value)
    requires |t| == 1 || AllKnown(d, rank, t[1..])
    ensures AllKnown(d, rank, t)
  {
    StartKnown(d, rank, dir, component);
    forall i | 0 <= i < |t|
      ensures KnownSlot(d, rank, t[i])
    {
      assert i > 0 ==> t[i] == t[1..][i - 1];
    }
  }

  /** Behind its first step a trace is the trace of the rest. */
  lemma TraceBehind(d: Disk, root: u32, dir: u32, ps: seq<seq<byte>>, t: seq<Found>)
    requires Trace(d, root, dir, ps) == Some(t) && |ps| > 1 && Lookup(Dir(d, dir), ps[0]).Some?
    ensures Trace(d, root, Enter(root, Dir(d, dir)[Lookup(Dir(d, dir), ps[0]).value]), ps[1..]) == Some(t[1..])
  {
    var j := Lookup(Dir(d, dir), ps[0]).value;
    TraceStarts(d, root, dir, ps);
    TraceStep(d, root, dir, ps, j);
  }

  lemma StartKnown(d: Disk, rank: map<nat, nat>, dir: nat, component: seq<byte>)
    requires dir in rank && Lookup(Dir(d, dir), component).Some?
    ensures KnownSlot(d, rank, Found(dir, Lookup(Dir(d, dir), component).value))
  {
  }

  lemma HoldsAfterRemoval(e: Disk, r: Disk, rank: map<nat, nat>, at: Found, f: Found, name: seq<byte>, head: nat, bytes: seq<byte>)
    requires IsFile(e, rank, at) && WellFormed(Dir(e, at.dir)) && IsFile(e, rank, f) && f != at && FileKept(e, r, rank, f)
    requires Dir(r, f.dir) == if f.dir == at.dir then Cleared(Dir(e, f.dir), at.slot) else Dir(e, f.dir)
    requires HoldsAt(e, f, name, head, bytes)
    ensures HoldsAt(r, f, name, head, bytes)
  {
    ContentKept(e, r, rank, f);
    if f.dir == at.dir {
      RemoveFrame(Dir(e, f.dir), at.slot, f.slot);
    }
  }

  lemma LastHolds(e: Disk, r: Disk, rank: map<nat, nat>, at: Found, f: Found, name: seq<byte>, head: nat, bytes: seq<byte>)
    requires IsFile(e, rank, at) && WellFormed(Dir(e, at.dir)) && KnownSlot(e, rank, f) && f != at
    requires OneCleared(e, r, rank, at)
    requires OthersKept(e, r, rank, at)
    requires HoldsAt(e, f, name, head, bytes)
    ensures HoldsAt(r, f, name, head, bytes)
  {
    HeldIsFile(e, rank, f, name, head, bytes);
    OtherKept(e, r, rank, at, f);
    HoldsAfterRemoval(e, r, rank, at, f, name, head, bytes);
  }

  lemma HeldIsFile(e: Disk, rank: map<nat, nat>, f: Found, name: seq<byte>, head: nat, bytes: seq<byte>)
    requires KnownSlot(e, rank, f) && HoldsAt(e, f, name, head, bytes)
    ensures IsFile(e, rank, f)
  {
  }

  lemma OtherKept(e: Disk, r: Disk, rank: map<nat, nat>, at: Found, f: Found)
    requires IsFile(e, rank, f) && f != at && OneCleared(e, r, rank, at) && OthersKept(e, r, rank, at)
    ensures FileKept(e, r, rank, f) && Dir(r, f.dir) == if f.dir == at.dir then Cleared(Dir(e, f.dir), at.slot) else Dir(e, f.dir)
  {
  }

  lemma RemovedDirsAll(d: Disk, root: u32, rank: map<nat, nat>, cb: nat, at: Found)
    requires TreeOk(d, root, rank, cb) && Closed(d.fat) && KnownSlot(d, rank, at)
    requires FirstCluster(SlotAt(d, at)) < |d.fat|
    ensures OneCleared(d, Removed(d, at), rank, at)
  {
    forall c | c in rank
      ensures Dir(Removed(d, at), c) == if c == at.dir then Cleared(Dir(d, at.dir), at.slot) else Dir(d, c)
    {
      assert DirOk(d, root, rank, cb, c);
      RemovedDirs(d, at, cb, c);
    }
  }

  lemma SameTraceReads(e: Disk, r: Disk, root: u32, rank: map<nat, nat>, at: Found, dir: u32, ps: seq<seq<byte>>,
                       name: seq<byte>, head: nat, bytes: seq<byte>)
    requires IsFile(e, rank, at) && WellFormed(Dir(e, at.dir))
    requires OneCleared(e, r, rank, at) && OthersKept(e, r, rank, at)
    requires ReadsAs(e, root, dir, ps, name, head, bytes) && Trace(r, root, dir, ps) == Trace(e, root, dir, ps)
    requires Trace(e, root, dir, ps).value[|ps| - 1] != at && KnownSlot(e, rank, Trace(e, root, dir, ps).value[|ps| - 1])
    ensures ReadsAs(r, root, dir, ps, name, head, bytes)
  {
    LastHolds(e, r, rank, at, Trace(e, root, dir, ps).value[|ps| - 1], name, head, bytes);
  }

  lemma RemovalKeepsTrace(e: Disk, r: Disk, root: u32, rank: map<nat, nat>, cb: nat, at: Found, dir: u32, ps: seq<seq<byte>>)
    requires TreeOk(e, root, rank, cb) && IsFile(e, rank, at) && dir as nat in rank && OneCleared(e, r, rank, at)
    requires Trace(e, root, dir, ps).Some? && Trace(e, root, dir, ps).value[|ps| - 1] != at
    ensures Trace(r, root, dir, ps) == Trace(e, root, dir, ps)
  {
    FileOnlyLast(e, rank, root, dir, ps, at);
    RemovalKeepsPaths(e, r, root, rank, cb, at, dir, ps);
  }

  lemma FileDirOk(e: Disk, root: u32, rank: map<nat, nat>, cb: nat, at: Found)
    requires TreeOk(e, root, rank, cb) && IsFile(e, rank, at)
    ensures WellFormed(Dir(e, at.dir))
  {
    Ranked(e, root, rank, cb, at.dir);
  }

  /** A path that reads a file still does, at the same slots, when another file is removed. */
  lemma ReadsAsAfterRemoval(e: Disk, root: u32, rank: map<nat, nat>, cb: nat, at: Found, dir: u32, ps: seq<seq<byte>>,
                            name: seq<byte>, head: nat, bytes: seq<byte>)
    requires FsOk(e, root, rank, cb, []) && IsFile(e, rank, at) && dir as nat in rank
    requires ReadsAs(e, root, dir, ps, name, head, bytes)
    requires Trace(e, root, dir, ps).value[|ps| - 1] != at
    ensures FirstCluster(SlotAt(e, at)) < |e.fat|
    ensures ReadsAs(Removed(e, at), root, dir, ps, name, head, bytes)
  {
    RemoveDropsFile(e, root, rank, cb, at);
    RemovedDirsAll(e, root, rank, cb, at);
    StillReads(e, Removed(e, at), root, rank, cb, at, dir, ps, name, head, bytes);
  }

  lemma StillReads(e: Disk, r: Disk, root: u32, rank: map<nat, nat>, cb: nat, at: Found, dir: u32, ps: seq<seq<byte>>,
                   name: seq<byte>, head: nat, bytes: seq<byte>)
    requires TreeOk(e, root, rank, cb) && IsFile(e, rank, at) && dir as nat in rank
    requires OneCleared(e, r, rank, at) && OthersKept(e, r, rank, at)
    requires ReadsAs(e, root, dir, ps, name, head, bytes) && Trace(e, root, dir, ps).value[|ps| - 1] != at
    ensures ReadsAs(r, root, dir, ps, name, head, bytes)
  {
    RemovalKeepsTrace(e, r, root, rank, cb, at, dir, ps);
    LastKnown(e, root, rank, cb, dir, ps, Trace(e, root, dir, ps).value);
    FileDirOk(e, root, rank, cb, at);
    SameTraceReads(e, r, root, rank, at, dir, ps, name, head, bytes);
  }

  lemma LastKnown(e: Disk, root: u32, rank: map<nat, nat>, cb: nat, dir: u32, ps: seq<seq<byte>>, t: seq<Found>)
    requires TreeOk(e, root, rank, cb) && dir as nat in rank && Trace(e, root, dir, ps) == Some(t)
    ensures |ps| == |t| > 0 && KnownSlot(e, rank, t[|ps| - 1])
  {
    TraceKnown(e, root, rank, cb, dir, ps, t);
  }

  // ---- the current directory ----

  /** `fat32_cd`: the root, or a directory the name matches in the current one. */
  function Changed(d: Disk, root: u32, cwd: u32, name: seq<byte>): u32 {
    if name == [SLASH] then root
    else match LookupFrom(Dir(d, cwd), name, true, 0)
      case None => cwd
      case Some(j) => Enter(root, Dir(d, cwd)[j])
  }

  /** The directory changed to is a known one. */
  lemma ChangedIsKnown(d: Disk, root: u32, rank: map<nat, nat>, cb: nat, cwd: u32, name: seq<byte>)
    requires TreeOk(d, root, rank, cb) && cwd as nat in rank
    ensures Changed(d, root, cwd, name) as nat in rank
  {
    var r := LookupFrom(Dir(d, cwd), name, true, 0);
    if name != [SLASH] && r.Some? {
      TreeIsNavigable(d, root, rank, cb);
      assert Leads(d, root, rank.Keys, cwd);
    }
  }
}
