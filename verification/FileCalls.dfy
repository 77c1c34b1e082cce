/** The file calls on the drive: `fat32_read`, `fat32_touch`, `fat32_rm`, `fat32_copy`,
    `fat32_move`, `fat32_cd` and `install_file`, each against what it does to the volume's view. */
module FileCalls {
  import opened Words
  import opened Names
  import opened Slots
  import opened Directory
  import opened DirectoryEdit
  import opened Volume
  import opened Chains
  import opened Readers
  import opened Writers
  import opened Tree
  import opened Paths
  import opened FileSystem
  import opened FileLaws
  import opened FileOps
  import opened Removals
  import opened Moves
  import opened FileRuns

  /** What the calls ask of the volume: consistent, with the current directory known. */
  ghost predicate Ready(vol: Volume, cwd: u32, rank: map<nat, nat>)
    reads vol
  {
    && vol.Valid() && vol.g.root < 0x1_0000_0000
    && FsOk(vol.View(), vol.g.root, rank, vol.g.ClusterBytes(), []) && cwd as nat in rank
  }

  /** The step of a run that a call makes of the volume's view. */
  ghost predicate Does(d: Disk, e: Disk, root: u32, cb: nat, cwd: u32, op: FileOp) {
    Call(State(d, cwd), State(e, cwd), root, cb, op)
  }

  lemma TouchDoes(d: Disk, root: u32, rank: map<nat, nat>, cb: nat, cwd: u32, name: seq<byte>)
    requires FsOk(d, root, rank, cb, []) && PathName(name)
    ensures Does(d, Touched(d, root, StartDir(root, cwd, name), Split(name), cb / SLOT), root, cb, cwd, FileOp.Touch(name))
  {
  }

  lemma RemoveDoes(d: Disk, root: u32, rank: map<nat, nat>, cb: nat, cwd: u32, name: seq<byte>)
    requires FsOk(d, root, rank, cb, [])
    ensures Does(d, RemovedByName(d, cwd, name), root, cb, cwd, FileOp.Remove(name))
  {
  }

  lemma CopyDoes(d: Disk, root: u32, rank: map<nat, nat>, cb: nat, cwd: u32, src: seq<byte>, dest: seq<byte>)
    requires FsOk(d, root, rank, cb, []) && PathName(src) && PathName(dest)
    ensures Does(d, CopyCall(State(d, cwd), root, cb, src, dest), root, cb, cwd, FileOp.Copy(src, dest))
  {
  }

  lemma MoveDoes(d: Disk, m: Disk, root: u32, rank: map<nat, nat>, cb: nat, cwd: u32, src: seq<byte>, dest: seq<byte>)
    requires FsOk(d, root, rank, cb, []) && PathName(src) && PathName(dest)
    requires m == CopyCall(State(d, cwd), root, cb, src, dest) && Closed(m.fat)
    ensures Does(d, RemovedByName(m, cwd, src), root, cb, cwd, FileOp.Move(src, dest))
  {
  }

  lemma InstallDoes(d: Disk, e: Disk, root: u32, rank: map<nat, nat>, cb: nat, cwd: u32, name: seq<byte>, bytes: seq<byte>)
    requires FsOk(d, root, rank, cb, []) && PathName(name)
    requires Installs(Cleaned(d, root, cwd, name), e, root, cb, StartDir(root, cwd, name), Split(name), bytes)
    ensures Does(d, e, root, cb, cwd, Install(name, bytes))
  {
  }

  method FindByName(vol: Volume, cwd: u32, name: seq<byte>, ghost rank: map<nat, nat>) returns (r: Option<Slot>)
    requires vol.Valid() && vol.g.root < 0x1_0000_0000
    requires TreeOk(vol.View(), vol.g.root, rank, vol.g.ClusterBytes()) && cwd as nat in rank && PathName(name)
    ensures r == Find(vol.View(), vol.g.root, StartDir(vol.g.root, cwd, name), Split(name))
  {
    TreeIsNavigable(vol.View(), vol.g.root, rank, vol.g.ClusterBytes());
    r := FindEntry(vol, cwd, name, rank.Keys);
  }

  /** The found entry's clusters, as the readers want them. */
  lemma FileVisits(d: Disk, root: u32, rank: map<nat, nat>, cb: nat, q: u32, ps: seq<seq<byte>>, s: Slot)
    requires FsOk(d, root, rank, cb, []) && q as nat in rank && Find(d, root, q, ps) == Some(s) && !IsDirectory(s)
    ensures Visits(d.fat, FirstCluster(s), ClustersFrom(d.fat, FirstCluster(s)))
    ensures InData(d.data, ClustersFrom(d.fat, FirstCluster(s)))
  {
    FoundIsFile(d, root, rank, cb, q, ps, s);
    var f :| IsFile(d, rank, f) && SlotAt(d, f) == s;
    assert FileOk(d, rank, f);
    ChainVisits(d.fat, rank, FirstCluster(s), FileSize(s));
  }

  lemma ChainVisits(fat: seq<nat>, rank: map<nat, nat>, head: nat, size: nat)
    requires ChainOk(fat, rank, head, size)
    ensures Visits(fat, head, ClustersFrom(fat, head))
    ensures forall i :: 0 <= i < |ClustersFrom(fat, head)| ==> ClustersFrom(fat, head)[i] < |fat|
  {
    ChainInTable(fat, head);
  }

  /** `fat32_read`: the front of the file the path resolves to. */
  method Read(vol: Volume, cwd: u32, name: seq<byte>, max: nat, ghost rank: map<nat, nat>) returns (r: Option<seq<byte>>)
    requires Ready(vol, cwd, rank) && PathName(name)
    ensures match Find(vol.View(), vol.g.root, StartDir(vol.g.root, cwd, name), Split(name))
      case None => r == None
      case Some(s) => r == if IsDirectory(s) then None else Some(Content(vol.View(), s)[..Min(max, |Content(vol.View(), s)|)])
  {
    var e := FindByName(vol, cwd, name, rank);
    if e == None || IsDirectory(e.value) {
      return None;
    }
    StartKnownDir(vol.View(), vol.g.root, rank, vol.g.ClusterBytes(), cwd, name);
    FileVisits(vol.View(), vol.g.root, rank, vol.g.ClusterBytes(), StartDir(vol.g.root, cwd, name), Split(name), e.value);
    var out := ReadFound(vol, e.value, max);
    return Some(out);
  }

  method ReadFound(vol: Volume, s: Slot, max: nat) returns (out: seq<byte>)
    requires vol.Valid() && Visits(vol.View().fat, FirstCluster(s), ClustersFrom(vol.View().fat, FirstCluster(s)))
    requires InData(vol.View().data, ClustersFrom(vol.View().fat, FirstCluster(s)))
    ensures out == Content(vol.View(), s)[..Min(max, |Content(vol.View(), s)|)]
  {
    out := ReadFile(vol, FirstCluster(s), FileSize(s), max, ClustersFrom(vol.View().fat, FirstCluster(s)));
  }

  /** `fat32_cd`: the new current directory. */
  method ChangeDir(vol: Volume, cwd: u32, name: seq<byte>, ghost rank: map<nat, nat>) returns (now: u32)
    requires Ready(vol, cwd, rank)
    ensures now == Changed(vol.View(), vol.g.root, cwd, name)
    ensures Call(State(vol.View(), cwd), State(vol.View(), now), vol.g.root, vol.g.ClusterBytes(), FileOp.ChangeDir(name))
  {
    if name == [SLASH] {
      return vol.g.root;
    }
    TreeIsNavigable(vol.View(), vol.g.root, rank, vol.g.ClusterBytes());
    var r, next := FindStep(vol, cwd, name, true, rank.Keys);
    now := if r.Some? then next else cwd;
  }

  /** `fat32_touch`. */
  method Touch(vol: Volume, cwd: u32, name: seq<byte>, ghost rank: map<nat, nat>)
    requires Ready(vol, cwd, rank) && PathName(name)
    modifies vol
    ensures vol.Valid()
    ensures vol.View() == Touched(old(vol.View()), vol.g.root, StartDir(vol.g.root, cwd, name), Split(name), vol.g.ClusterBytes() / SLOT)
    ensures Does(old(vol.View()), vol.View(), vol.g.root, vol.g.ClusterBytes(), cwd, FileOp.Touch(name))
  {
    TouchDoes(vol.View(), vol.g.root, rank, vol.g.ClusterBytes(), cwd, name);
    var e := FindByName(vol, cwd, name, rank);
    if e == None {
      CreateEntry(vol, cwd, name, Meta(ATTR_ARCHIVE, 0, 0), rank);
    }
  }

  /** `fat32_rm`. */
  method Remove(vol: Volume, cwd: u32, name: seq<byte>, ghost rank: map<nat, nat>) returns (ok: bool)
    requires Ready(vol, cwd, rank)
    modifies vol
    ensures vol.Valid() && vol.View() == RemovedByName(old(vol.View()), cwd, name)
    ensures ok <==> Lookup(Dir(old(vol.View()), cwd), name).Some?
    ensures Does(old(vol.View()), vol.View(), vol.g.root, vol.g.ClusterBytes(), cwd, FileOp.Remove(name))
  {
    ghost var d := vol.View();
    RemoveDoes(d, vol.g.root, rank, vol.g.ClusterBytes(), cwd, name);
    Ranked(d, vol.g.root, rank, vol.g.ClusterBytes(), cwd);
    var entries := LoadDirectory(vol, cwd);
    var found := FindSlot(entries, name, false);
    if found == None {
      return false;
    }
    RemoveReady(d, vol.g.root, rank, vol.g.ClusterBytes(), cwd, name, found.value);
    RemoveSlot(vol, cwd, entries, found.value);
    return true;
  }

  /** Free the chain of the entry in slot j, clear its slots, write the cluster back. */
  method RemoveSlot(vol: Volume, dir: u32, entries: array<Slot>, j: nat)
    requires vol.Valid() && Closed(vol.View().fat) && 2 <= dir < vol.g.Clusters()
    requires entries[..] == Dir(vol.View(), dir) && SLOT * entries.Length == vol.g.ClusterBytes()
    requires j < entries.Length && FirstCluster(entries[j]) < vol.g.Clusters()
    modifies vol, entries
    ensures vol.Valid() && vol.View() == Removed(old(vol.View()), Found(dir, j))
  {
    FreeClusters(vol, FirstCluster(entries[j]));
    MarkDeleted(entries, j);
    StoreDirectory(vol, dir, entries);
  }

  /** `fat32_copy`. */
  method Copy(vol: Volume, cwd: u32, src: seq<byte>, dest: seq<byte>, ghost rank: map<nat, nat>)
    requires Ready(vol, cwd, rank) && PathName(src) && PathName(dest)
    modifies vol
    ensures vol.Valid()
    ensures vol.View() == CopyCall(State(old(vol.View()), cwd), vol.g.root, vol.g.ClusterBytes(), src, dest)
    ensures Does(old(vol.View()), vol.View(), vol.g.root, vol.g.ClusterBytes(), cwd, FileOp.Copy(src, dest))
  {
    CopyDoes(vol.View(), vol.g.root, rank, vol.g.ClusterBytes(), cwd, src, dest);
    var e := FindByName(vol, cwd, src, rank);
    if e == None || IsDirectory(e.value) {
      return;
    }
    CopyFound(vol, cwd, src, e.value, dest, rank);
  }

  method CopyFound(vol: Volume, cwd: u32, ghost src: seq<byte>, s: Slot, dest: seq<byte>, ghost rank: map<nat, nat>)
    requires Ready(vol, cwd, rank) && PathName(dest)
    requires Find(vol.View(), vol.g.root, StartDir(vol.g.root, cwd, src), Split(src)) == Some(s) && !IsDirectory(s)
    modifies vol
    ensures vol.Valid()
    ensures var d, root, cb := old(vol.View()), vol.g.root, vol.g.ClusterBytes();
      && CanCopy(d, FirstCluster(s), FileSize(s), ClustersFrom(d.fat, FirstCluster(s)), cb)
      && vol.View() == CopiedTo(d, root, s, StartDir(root, cwd, dest), Split(dest), cb)
  {
    ghost var d := vol.View();
    CanCopyFound(d, vol.g.root, rank, vol.g.ClusterBytes(), cwd, src, s);
    var first := CopyChain(vol, FirstCluster(s), FileSize(s), ClustersFrom(d.fat, FirstCluster(s)));
    if first != 0 {
      CreateEntry(vol, cwd, dest, Meta(ATTR_ARCHIVE, first, FileSize(s)), rank);
    }
  }

  lemma CanCopyFound(d: Disk, root: u32, rank: map<nat, nat>, cb: nat, cwd: u32, src: seq<byte>, s: Slot)
    requires FsOk(d, root, rank, cb, []) && cwd as nat in rank
    requires Find(d, root, StartDir(root, cwd, src), Split(src)) == Some(s) && !IsDirectory(s)
    ensures CanCopy(d, FirstCluster(s), FileSize(s), ClustersFrom(d.fat, FirstCluster(s)), cb)
    ensures TreeOk(CopyTaken(d, s, cb), root, rank, cb)
    ensures var ds := CopyClusters(d, s, cb); forall i :: 0 <= i < |ds| ==> 2 <= ds[i] < |d.fat|
  {
    StartKnownDir(d, root, rank, cb, cwd, src);
    FoundIsFile(d, root, rank, cb, StartDir(root, cwd, src), Split(src), s);
    SourceCanCopy(d, rank, cb, s);
    CopyTook(d, s, cb);
    TookDirs(d, CopyTaken(d, s, cb), root, rank, cb, CopyClusters(d, s, cb));
  }

  /** `fat32_move`: whatever src is, its copy, and then what rm finds under that name is gone. */
  method Move(vol: Volume, cwd: u32, src: seq<byte>, dest: seq<byte>, ghost rank: map<nat, nat>)
    requires Ready(vol, cwd, rank) && PathName(src) && PathName(dest)
    modifies vol
    ensures vol.Valid()
    ensures Does(old(vol.View()), vol.View(), vol.g.root, vol.g.ClusterBytes(), cwd, FileOp.Move(src, dest))
  {
    ghost var s := State(vol.View(), cwd);
    ghost var root, cb := vol.g.root, vol.g.ClusterBytes();
    ghost var known := AfterCopy(s, root, rank, cb, src, dest);
    MoveDoes(vol.View(), CopyCall(s, root, cb, src, dest), root, rank, cb, cwd, src, dest);
    Copy(vol, cwd, src, dest, rank);
    var ok := Remove(vol, cwd, src, known);
  }

  /** The directories known once the copy is made. */
  lemma AfterCopy(s: State, root: u32, rank: map<nat, nat>, cb: nat, src: seq<byte>, dest: seq<byte>) returns (known: map<nat, nat>)
    requires FsOk(s.disk, root, rank, cb, []) && s.cwd as nat in rank && PathName(src) && PathName(dest)
    ensures Mounted(s.disk, cb) && FsOk(CopyCall(s, root, cb, src, dest), root, known, cb, []) && s.cwd as nat in known
  {
    CopyCallIsSound(s, root, rank, cb, src, dest, FileOp.Copy(src, dest), false);
    known :| SoundBy(CopyCall(s, root, cb, src, dest), root, cb, s.cwd, known, false);
  }

  // ---- install_file ----

  lemma StoredTook(d: Disk, mid: Disk, ds: seq<nat>, bs: seq<seq<byte>>, n: nat)
    requires |d.fat| == |d.data| && ds == Taken(d.fat, n) && |bs| == |ds|
    requires mid == Disk(Grown(d.fat, ds), Stored(d.data, ds, bs))
    ensures Took(d, mid, ds)
  {
    TakenFresh(d.fat, n);
    forall c | 0 <= c < |d.data| && c !in ds
      ensures mid.data[c] == d.data[c]
    {
      StoredFrame(d.data, ds, bs, c);
    }
  }

  lemma StoredFills(d: Disk, mid: Disk, ds: seq<nat>, bs: seq<seq<byte>>, bytes: seq<byte>)
    requires Took(d, mid, ds) && |bs| == |ds| && mid.data == Stored(d.data, ds, bs)
    requires |bytes| <= |Concat(bs)| && Concat(bs)[..|bytes|] == bytes
    ensures Filled(d, mid, ds, bytes)
  {
    GatherStored(d.data, ds, bs);
    assert bs[..|ds|] == bs;
  }

  /** The rest of `install_file`, for a name without entry. */
  method InstallNew(vol: Volume, cwd: u32, name: seq<byte>, mem: seq<byte>, size: u32, ghost rank: map<nat, nat>) returns (ok: bool)
    requires Ready(vol, cwd, rank) && PathName(name) && SECTOR * ((size + SECTOR - 1) / SECTOR) <= |mem| && size <= |mem|
    modifies vol
    ensures vol.Valid()
    ensures ok <==> |Taken(old(vol.View().fat), BlocksFor(size, vol.g.ClusterBytes()))| == BlocksFor(size, vol.g.ClusterBytes())
    ensures Installs(old(vol.View()), vol.View(), vol.g.root, vol.g.ClusterBytes(), StartDir(vol.g.root, cwd, name), Split(name), mem[..size])
  {
    ghost var d := vol.View();
    ghost var dir, ps := StartDir(vol.g.root, cwd, name), Split(name);
    ghost var cb := vol.g.ClusterBytes();
    var first: nat;
    ghost var ds, bs;
    InstallIsBlocksFor(size, vol.g.spc);
    ok, first, ds, bs := InstallChain(vol, mem, size);
    ghost var mid := vol.View();
    InstallReady(d, mid, vol.g.root, rank, cb, ds, bs, BlocksFor(size, cb));
    if !ok {
      assert InstallsBy(d, mid, vol.g.root, cb, dir, ps, mem[..size], mid);
      return;
    }
    StoredFills(d, mid, ds, bs, mem[..size]);
    CreateEntry(vol, cwd, name, Meta(ATTR_ARCHIVE, first, size), rank);
    assert InstallsBy(d, vol.View(), vol.g.root, cb, dir, ps, mem[..size], mid);
  }

  lemma InstallReady(d: Disk, mid: Disk, root: u32, rank: map<nat, nat>, cb: nat, ds: seq<nat>, bs: seq<seq<byte>>, n: nat)
    requires TreeOk(d, root, rank, cb) && ds == Taken(d.fat, n) && |bs| == |ds|
    requires mid == Disk(Grown(d.fat, ds), Stored(d.data, ds, bs))
    ensures Took(d, mid, ds) && TreeOk(mid, root, rank, cb) && Head(ds) < 0x1_0000_0000
  {
    StoredTook(d, mid, ds, bs, n);
    TookDirs(d, mid, root, rank, cb, ds);
  }

  /** `install_file`, where what it removes first is no directory in use. */
  method InstallFile(vol: Volume, cwd: u32, name: seq<byte>, mem: seq<byte>, size: u32, ghost rank: map<nat, nat>) returns (ok: bool)
    requires Ready(vol, cwd, rank) && PathName(name) && SECTOR * ((size + SECTOR - 1) / SECTOR) <= |mem| && size <= |mem|
    requires Harmless(State(vol.View(), cwd), vol.g.root, vol.g.ClusterBytes(), Install(name, mem[..size]))
    modifies vol
    ensures vol.Valid()
    ensures var d, cb := Cleaned(old(vol.View()), vol.g.root, cwd, name), vol.g.ClusterBytes();
      ok <==> |Taken(d.fat, BlocksFor(size, cb))| == BlocksFor(size, cb)
    ensures Does(old(vol.View()), vol.View(), vol.g.root, vol.g.ClusterBytes(), cwd, Install(name, mem[..size]))
  {
    ghost var d := vol.View();
    ghost var known := AfterCleaning(State(d, cwd), vol.g.root, rank, vol.g.ClusterBytes(), name, mem[..size]);
    var e := FindByName(vol, cwd, name, rank);
    if e.Some? {
      var gone := Remove(vol, cwd, name, rank);
    }
    ok := InstallNew(vol, cwd, name, mem, size, known);
    InstallDoes(d, vol.View(), vol.g.root, rank, vol.g.ClusterBytes(), cwd, name, mem[..size]);
  }

  /** The directories known once the old entry is removed. */
  lemma AfterCleaning(s: State, root: u32, rank: map<nat, nat>, cb: nat, name: seq<byte>, bytes: seq<byte>) returns (known: map<nat, nat>)
    requires FsOk(s.disk, root, rank, cb, []) && s.cwd as nat in rank
    requires Harmless(s, root, cb, Install(name, bytes))
    ensures FsOk(Cleaned(s.disk, root, s.cwd, name), root, known, cb, []) && s.cwd as nat in known
  {
    assert SoundBy(s.disk, root, cb, s.cwd, rank, false);
    CleanedIsSound(s, root, cb, name, bytes, false);
    known :| SoundBy(Cleaned(s.disk, root, s.cwd, name), root, cb, s.cwd, known, false);
  }

  /** Installing again under an absolute path removes nothing: rm is given the whole path
      and looks for it in the current directory, where no entry matches it. */
  lemma ReinstallKeepsOld(d: Disk, root: u32, rank: map<nat, nat>, cb: nat, cwd: u32, name: seq<byte>)
    requires FsOk(d, root, rank, cb, []) && cwd as nat in rank && name != [] && name[0] == SLASH
    ensures Cleaned(d, root, cwd, name) == d
  {
    AbsoluteFindsNothing(d, root, rank, cb, cwd, name);
  }
}
