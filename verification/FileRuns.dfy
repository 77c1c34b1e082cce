/** Over every run of touch, copy, install, rm, move and cd. */
module FileRuns {
  import opened Words
  import opened Slots
  import opened Directory
  import opened Volume
  import opened Chains
  import opened Writers
  import opened Tree
  import opened Paths
  import opened FileSystem
  import opened FileLaws
  import opened FileOps
  import opened Removals

  // ---- calls ----

  /** The volume and the current directory. */
  datatype State = State(disk: Disk, cwd: u32)

  datatype FileOp =
    | Touch(name: seq<byte>)
    | Copy(src: seq<byte>, dest: seq<byte>)
    | Install(name: seq<byte>, bytes: seq<byte>)
    | Remove(name: seq<byte>)
    | Move(src: seq<byte>, dest: seq<byte>)
    | ChangeDir(name: seq<byte>)

  predicate Mounted(d: Disk, cb: nat) {
    |d.fat| == |d.data| && |d.fat| < END_MARK && cb > 0 && Closed(d.fat)
  }

  ghost function CopyCall(s: State, root: u32, cb: nat, src: seq<byte>, dest: seq<byte>): Disk
    requires Mounted(s.disk, cb)
  {
    CopyResult(s.disk, root, StartDir(root, s.cwd, src), Split(src), StartDir(root, s.cwd, dest), Split(dest), cb)
  }

  /** One call, whatever it comes to. */
  ghost predicate Call(s: State, t: State, root: u32, cb: nat, op: FileOp) {
    var d, e := s.disk, t.disk;
    && Mounted(d, cb)
    && t.cwd == (if op.ChangeDir? then Changed(d, root, s.cwd, op.name) else s.cwd)
    && match op
       case Touch(name) =>
         PathName(name) && e == Touched(d, root, StartDir(root, s.cwd, name), Split(name), cb / SLOT)
       case Copy(src, dest) =>
         PathName(src) && PathName(dest) && e == CopyCall(s, root, cb, src, dest)
       case Install(name, bytes) =>
         PathName(name) && Installs(Cleaned(d, root, s.cwd, name), e, root, cb, StartDir(root, s.cwd, name), Split(name), bytes)
       case Remove(name) =>
         e == RemovedByName(d, s.cwd, name)
       case Move(src, dest) =>
         var m := CopyCall(s, root, cb, src, dest);
         PathName(src) && PathName(dest) && Closed(m.fat) && e == RemovedByName(m, s.cwd, src)
       case ChangeDir(_) => e == d
  }

  /** No directory in use is removed by the call. */
  ghost predicate Harmless(s: State, root: u32, cb: nat, op: FileOp)
    requires Mounted(s.disk, cb)
  {
    match op
    case Remove(name) => Severed(s.disk, root, s.cwd, name)
    case Move(src, dest) =>
      var m := CopyCall(s, root, cb, src, dest);
      Closed(m.fat) ==> Severed(m, root, s.cwd, src)
    case Install(name, _) =>
      Find(s.disk, root, StartDir(root, s.cwd, name), Split(name)).Some? ==> Severed(s.disk, root, s.cwd, name)
    case _ => true
  }

  ghost predicate Step(s: State, t: State, root: u32, cb: nat, op: FileOp) {
    Call(s, t, root, cb, op) && Harmless(s, root, cb, op)
  }

  /** A copy whose disk filled up on the way. */
  ghost predicate CutShort(s: State, root: u32, cb: nat, op: FileOp)
    requires cb > 0
  {
    (op.Copy? || op.Move?) &&
    match Find(s.disk, root, StartDir(root, s.cwd, op.src), Split(op.src))
    case None => false
    case Some(e) => !IsDirectory(e) && |CopyClusters(s.disk, e, cb)| < CopyBlocks(FileSize(e), cb)
  }

  // ---- consistency ----

  /** Every file has the clusters its size needs. */
  ghost predicate AllWhole(d: Disk, rank: map<nat, nat>, cb: nat) {
    forall f :: IsFile(d, rank, f) ==> WholeSlot(d, cb, SlotAt(d, f))
  }

  /** A consistent file system whose directories include the current one; when whole, every file
      has the clusters its size needs. */
  ghost predicate SoundBy(d: Disk, root: u32, cb: nat, cwd: u32, rank: map<nat, nat>, whole: bool) {
    FsOk(d, root, rank, cb, []) && cwd as nat in rank && (whole ==> AllWhole(d, rank, cb))
  }

  ghost predicate Sound(s: State, root: u32, cb: nat, whole: bool) {
    exists rank: map<nat, nat> :: SoundBy(s.disk, root, cb, s.cwd, rank, whole)
  }

  /** With all kept and none new but whole ones, all are whole. */
  lemma KeptWhole(d: Disk, e: Disk, rank: map<nat, nat>, more: map<nat, nat>, cb: nat)
    requires FilesKept(d, e, rank, more) && AllWhole(d, rank, cb)
    requires forall f :: IsFile(e, more, f) ==> IsFile(d, rank, f) || WholeSlot(e, cb, SlotAt(e, f))
    ensures AllWhole(e, more, cb)
  {
    forall f | IsFile(e, more, f)
      ensures WholeSlot(e, cb, SlotAt(e, f))
    {
      if IsFile(d, rank, f) {
        assert FileKept(d, e, more, f);
      }
    }
  }

  lemma SoundAfter(d: Disk, e: Disk, root: u32, rank: map<nat, nat>, more: map<nat, nat>, cb: nat, cwd: u32, whole: bool)
    requires FsOk(e, root, more, cb, []) && cwd as nat in more && (whole ==> AllWhole(d, rank, cb)) && FilesKept(d, e, rank, more)
    requires whole ==> forall f :: IsFile(e, more, f) ==> IsFile(d, rank, f) || WholeSlot(e, cb, SlotAt(e, f))
    ensures Sound(State(e, cwd), root, cb, whole)
  {
    if whole {
      KeptWhole(d, e, rank, more, cb);
    }
    assert SoundBy(e, root, cb, cwd, more, whole);
  }

  lemma NewIsWhole(d: Disk, e: Disk, rank: map<nat, nat>, more: map<nat, nat>, cb: nat, ds: seq<nat>, at: Found)
    requires OnlyNew(d, e, rank, more, at) && ChainAt(e, at) == ds && FileSize(SlotAt(e, at)) <= cb * |ds|
    ensures forall f :: IsFile(e, more, f) ==> IsFile(d, rank, f) || WholeSlot(e, cb, SlotAt(e, f))
  {
  }

  lemma OneAddedIsSound(d: Disk, e: Disk, root: u32, rank: map<nat, nat>, more: map<nat, nat>, cb: nat, cwd: u32, ds: seq<nat>, at: Found, whole: bool)
    requires cwd as nat in rank && (whole ==> AllWhole(d, rank, cb)) && FileAdded(d, e, root, rank, more, cb, ds, at)
    requires whole ==> FileSize(SlotAt(e, at)) <= cb * |ds|
    ensures Sound(State(e, cwd), root, cb, whole)
  {
    if whole {
      NewIsWhole(d, e, rank, more, cb, ds, at);
    }
    SoundAfter(d, e, root, rank, more, cb, cwd, whole);
  }

  lemma NoneAddedIsSound(d: Disk, e: Disk, root: u32, rank: map<nat, nat>, more: map<nat, nat>, cb: nat, cwd: u32, whole: bool)
    requires cwd as nat in rank && (whole ==> AllWhole(d, rank, cb)) && SameFiles(d, e, root, rank, more, cb)
    ensures Sound(State(e, cwd), root, cb, whole)
  {
    SoundAfter(d, e, root, rank, more, cb, cwd, whole);
  }

  /** What a writer adds, or does not, leaves the file system sound. */
  lemma AddedIsSound(d: Disk, e: Disk, root: u32, rank: map<nat, nat>, cb: nat, cwd: u32, ds: seq<nat>, at: Option<Found>, whole: bool)
    requires cwd as nat in rank && (whole ==> AllWhole(d, rank, cb)) && AddedOrNot(d, e, root, rank, cb, ds, at)
    requires whole && at.Some? ==> FileSize(SlotAt(e, at.value)) <= cb * |ds|
    ensures Sound(State(e, cwd), root, cb, whole)
  {
    match at
    case Some(f) =>
      var more :| FileAdded(d, e, root, rank, more, cb, ds, f);
      OneAddedIsSound(d, e, root, rank, more, cb, cwd, ds, f, whole);
    case None =>
      var more :| SameFiles(d, e, root, rank, more, cb);
      NoneAddedIsSound(d, e, root, rank, more, cb, cwd, whole);
  }

  lemma TouchIsSound(d: Disk, root: u32, rank: map<nat, nat>, cb: nat, cwd: u32, name: seq<byte>, whole: bool)
    requires SoundBy(d, root, cb, cwd, rank, whole) && PathName(name)
    ensures Sound(State(Touched(d, root, StartDir(root, cwd, name), Split(name), cb / SLOT), cwd), root, cb, whole)
  {
    var dir, ps := StartDir(root, cwd, name), Split(name);
    StartKnownDir(d, root, rank, cb, cwd, name);
    SplitIsParts(name);
    TouchKeepsFs(d, root, rank, cb, dir, ps);
    var at := if Find(d, root, dir, ps).Some? then None else Landing(d, root, dir, ps, cb / SLOT);
    if at.Some? {
      CreatedSize(d, root, rank, cb, dir, ps, Meta(ATTR_ARCHIVE, 0, 0), at.value);
    }
    AddedIsSound(d, Touched(d, root, dir, ps, cb / SLOT), root, rank, cb, cwd, [], at, whole);
  }

  lemma CopyIsSound(d: Disk, root: u32, rank: map<nat, nat>, cb: nat, cwd: u32, s: Slot, dir: u32, ps: seq<seq<byte>>, whole: bool)
    requires SoundBy(d, root, cb, cwd, rank, whole) && Resolved(d, rank, s) && dir as nat in rank && Parts(ps)
    requires whole ==> |CopyClusters(d, s, cb)| >= CopyBlocks(FileSize(s), cb)
    ensures CanCopy(d, FirstCluster(s), FileSize(s), ClustersFrom(d.fat, FirstCluster(s)), cb)
    ensures Sound(State(CopiedTo(d, root, s, dir, ps, cb), cwd), root, cb, whole)
  {
    CopyKeepsFs(d, root, rank, cb, s, dir, ps);
    CopySize(d, root, rank, cb, s, dir, ps);
    if whole {
      CopyEnough(FileSize(s), cb, |CopyClusters(d, s, cb)|);
    }
    AddedIsSound(d, CopiedTo(d, root, s, dir, ps, cb), root, rank, cb, cwd, CopyClusters(d, s, cb), CopyLanding(d, root, s, dir, ps, cb), whole);
  }

  lemma CopyEnough(size: nat, cb: nat, n: nat)
    requires cb > 0 && n >= CopyBlocks(size, cb)
    ensures size <= cb * n
  {
    CopyBlocksHold(size, cb);
    assert cb * CopyBlocks(size, cb) <= cb * n;
  }

  lemma CopySize(d: Disk, root: u32, rank: map<nat, nat>, cb: nat, s: Slot, dir: u32, ps: seq<seq<byte>>)
    requires TreeOk(d, root, rank, cb) && cb >= 2 * SLOT && dir as nat in rank && Parts(ps)
    requires CanCopy(d, FirstCluster(s), FileSize(s), ClustersFrom(d.fat, FirstCluster(s)), cb)
    ensures var at := CopyLanding(d, root, s, dir, ps, cb);
      at.Some? ==> FileSize(SlotAt(CopiedTo(d, root, s, dir, ps, cb), at.value)) == FileSize(s)
  {
    var ds, at := CopyClusters(d, s, cb), CopyLanding(d, root, s, dir, ps, cb);
    CopyTook(d, s, cb);
    if at.Some? {
      TakenSize(d, CopyTaken(d, s, cb), root, rank, cb, ds, dir, ps, Meta(ATTR_ARCHIVE, ds[0], FileSize(s)), at.value);
    }
  }

  lemma TakenSize(d: Disk, mid: Disk, root: u32, rank: map<nat, nat>, cb: nat, ds: seq<nat>, dir: u32, ps: seq<seq<byte>>, meta: Meta, at: Found)
    requires TreeOk(d, root, rank, cb) && cb >= 2 * SLOT && dir as nat in rank && Parts(ps) && Took(d, mid, ds) && meta.attr != ATTR_LFN
    requires |mid.fat| == |mid.data| && |mid.fat| < END_MARK && Landing(mid, root, dir, ps, cb / SLOT) == Some(at)
    ensures FileSize(SlotAt(Create(mid, root, dir, ps, meta, cb / SLOT), at)) == meta.size
  {
    TookDirs(d, mid, root, rank, cb, ds);
    CreatedSize(mid, root, rank, cb, dir, ps, meta, at);
  }

  lemma CopyCallIsSound(s: State, root: u32, rank: map<nat, nat>, cb: nat, src: seq<byte>, dest: seq<byte>, op: FileOp, whole: bool)
    requires SoundBy(s.disk, root, cb, s.cwd, rank, whole) && PathName(src) && PathName(dest)
    requires (op == Copy(src, dest) || op == Move(src, dest)) && (whole ==> !CutShort(s, root, cb, op))
    ensures Mounted(s.disk, cb) && Sound(State(CopyCall(s, root, cb, src, dest), s.cwd), root, cb, whole)
  {
    StartKnownDir(s.disk, root, rank, cb, s.cwd, src);
    StartKnownDir(s.disk, root, rank, cb, s.cwd, dest);
    SplitIsParts(dest);
    CopyResultIsSound(s.disk, root, rank, cb, s.cwd, StartDir(root, s.cwd, src), Split(src), StartDir(root, s.cwd, dest), Split(dest), whole);
  }

  lemma HereIsSound(d: Disk, root: u32, rank: map<nat, nat>, cb: nat, cwd: u32, whole: bool)
    requires SoundBy(d, root, cb, cwd, rank, whole)
    ensures Sound(State(d, cwd), root, cb, whole)
  {
    assert SoundBy(State(d, cwd).disk, root, cb, State(d, cwd).cwd, rank, whole);
  }

  lemma CopyResultIsSound(d: Disk, root: u32, rank: map<nat, nat>, cb: nat, cwd: u32, q: u32, src: seq<seq<byte>>, dir: u32, ps: seq<seq<byte>>, whole: bool)
    requires SoundBy(d, root, cb, cwd, rank, whole) && q as nat in rank && dir as nat in rank && Parts(ps)
    requires Find(d, root, q, src).Some? && !IsDirectory(Find(d, root, q, src).value) && whole ==>
      |CopyClusters(d, Find(d, root, q, src).value, cb)| >= CopyBlocks(FileSize(Find(d, root, q, src).value), cb)
    ensures |d.fat| == |d.data| && |d.fat| < END_MARK && Sound(State(CopyResult(d, root, q, src, dir, ps, cb), cwd), root, cb, whole)
  {
    var r := Find(d, root, q, src);
    if r.Some? && !IsDirectory(r.value) {
      FoundIsFile(d, root, rank, cb, q, src, r.value);
      CopiedIsSound(d, root, rank, cb, cwd, q, src, r.value, dir, ps, whole);
    } else {
      HereIsSound(d, root, rank, cb, cwd, whole);
      assert CopyResult(d, root, q, src, dir, ps, cb) == d;
    }
  }

  lemma CopiedIsSound(d: Disk, root: u32, rank: map<nat, nat>, cb: nat, cwd: u32, q: u32, src: seq<seq<byte>>, s: Slot, dir: u32, ps: seq<seq<byte>>, whole: bool)
    requires SoundBy(d, root, cb, cwd, rank, whole) && dir as nat in rank && Parts(ps) && Resolved(d, rank, s)
    requires Find(d, root, q, src) == Some(s) && !IsDirectory(s) && (whole ==> |CopyClusters(d, s, cb)| >= CopyBlocks(FileSize(s), cb))
    ensures |d.fat| == |d.data| && |d.fat| < END_MARK && Sound(State(CopyResult(d, root, q, src, dir, ps, cb), cwd), root, cb, whole)
  {
    CopyIsSound(d, root, rank, cb, cwd, s, dir, ps, whole);
    assert CopyResult(d, root, q, src, dir, ps, cb) == CopiedTo(d, root, s, dir, ps, cb);
  }

  lemma InstallIsSound(d: Disk, e: Disk, root: u32, rank: map<nat, nat>, cb: nat, cwd: u32, dir: u32, ps: seq<seq<byte>>, bytes: seq<byte>,
                       mid: Disk, whole: bool)
    requires SoundBy(d, root, cb, cwd, rank, whole) && dir as nat in rank && Parts(ps) && InstallsBy(d, e, root, cb, dir, ps, bytes, mid)
    ensures Sound(State(e, cwd), root, cb, whole)
  {
    var n := BlocksFor(|bytes|, cb);
    var ds := Taken(d.fat, n);
    var at := if |ds| < n then None else Landing(mid, root, dir, ps, cb / SLOT);
    InstallKeepsFs(d, e, root, rank, cb, dir, ps, bytes, mid);
    if at.Some? {
      BlocksEnough(|bytes|, cb, |ds|);
      TakenSize(d, mid, root, rank, cb, ds, dir, ps, Meta(ATTR_ARCHIVE, Head(ds), |bytes|), at.value);
    }
    AddedIsSound(d, e, root, rank, cb, cwd, ds, at, whole);
  }

  lemma BlocksEnough(size: nat, cb: nat, n: nat)
    requires cb > 0 && n >= BlocksFor(size, cb)
    ensures size <= cb * n
  {
    BlocksForHold(size, cb);
    assert cb * BlocksFor(size, cb) <= cb * n;
  }

  // ---- rm ----

  lemma RemovedFileSound(d: Disk, root: u32, rank: map<nat, nat>, cb: nat, cwd: u32, name: seq<byte>, j: nat, whole: bool)
    requires SoundBy(d, root, cb, cwd, rank, whole)
    requires Lookup(Dir(d, cwd), name) == Some(j) && !IsDirectory(Dir(d, cwd)[j])
    ensures Sound(State(RemovedByName(d, cwd, name), cwd), root, cb, whole)
  {
    var e := RemovedByName(d, cwd, name);
    RemoveByName(d, root, rank, cb, cwd, name, j);
    if whole {
      GoneWhole(d, e, root, rank, cb, Found(cwd, j));
    }
    assert SoundBy(e, root, cb, cwd, rank, whole);
  }

  lemma GoneWhole(d: Disk, e: Disk, root: u32, rank: map<nat, nat>, cb: nat, at: Found)
    requires FileGone(d, e, root, rank, cb, at) && AllWhole(d, rank, cb)
    ensures AllWhole(e, rank, cb)
  {
    forall f | IsFile(e, rank, f)
      ensures WholeSlot(e, cb, SlotAt(e, f))
    {
      assert IsFile(d, rank, f) && FileKept(d, e, rank, f);
    }
  }

  lemma SeveredSound(d: Disk, root: u32, rank: map<nat, nat>, cb: nat, cwd: u32, name: seq<byte>, j: nat, whole: bool)
    requires SoundBy(d, root, cb, cwd, rank, whole) && Severed(d, root, cwd, name)
    requires Lookup(Dir(d, cwd), name) == Some(j) && IsDirectory(Dir(d, cwd)[j])
    ensures Sound(State(RemovedByName(d, cwd, name), cwd), root, cb, whole)
  {
    var e := RemovedByName(d, cwd, name);
    var less := StillUsed(e, root, cwd, rank);
    RemoveDirectory(d, root, rank, cb, cwd, name, j);
    if whole {
      assert AllWhole(d, less, cb) by {
        assert forall f :: IsFile(d, less, f) ==> IsFile(d, rank, f);
      }
      KeptWhole(d, e, less, less, cb);
    }
    assert SoundBy(e, root, cb, cwd, less, whole);
  }

  /** A directory in use whose cluster is free: no tree of directories has it. */
  lemma UnsoundWhenFreed(e: Disk, root: u32, cb: nat, cwd: u32, x: nat)
    requires InUse(e, root, None, cwd, x) && x < |e.fat| && e.fat[x] == 0
    ensures !Sound(State(e, cwd), root, cb, false)
  {
    if Sound(State(e, cwd), root, cb, false) {
      var rank :| SoundBy(e, root, cb, cwd, rank, false);
      InUseIsKnown(e, root, rank, cb, cwd, x);
    }
  }

  /** rm keeps the file system consistent exactly when it removes no directory in use. */
  lemma RemoveIsSound(d: Disk, root: u32, rank: map<nat, nat>, cb: nat, cwd: u32, name: seq<byte>)
    requires SoundBy(d, root, cb, cwd, rank, false)
    ensures Sound(State(RemovedByName(d, cwd, name), cwd), root, cb, false) <==> Severed(d, root, cwd, name)
  {
    var r := Lookup(Dir(d, cwd), name);
    if r == None {
      assert SoundBy(d, root, cb, cwd, rank, false);
    } else if !IsDirectory(Dir(d, cwd)[r.value]) {
      RemovedFileSound(d, root, rank, cb, cwd, name, r.value, false);
    } else if Severed(d, root, cwd, name) {
      SeveredSound(d, root, rank, cb, cwd, name, r.value, false);
    } else {
      var e, x := RemovedByName(d, cwd, name), FirstCluster(Dir(d, cwd)[r.value]);
      RemoveDirectory(d, root, rank, cb, cwd, name, r.value);
      InUseAfter(d, e, root, rank, cb, Found(cwd, r.value), cwd, x);
      UnsoundWhenFreed(e, root, cb, cwd, x);
    }
  }

  /** So removing the current directory or the root, by their dot entries say, never does. */
  lemma RemovingItself(d: Disk, root: u32, rank: map<nat, nat>, cb: nat, cwd: u32, name: seq<byte>, j: nat)
    requires SoundBy(d, root, cb, cwd, rank, false)
    requires Lookup(Dir(d, cwd), name) == Some(j) && IsDirectory(Dir(d, cwd)[j])
    requires FirstCluster(Dir(d, cwd)[j]) == cwd || FirstCluster(Dir(d, cwd)[j]) == root
    ensures !Sound(State(RemovedByName(d, cwd, name), cwd), root, cb, false)
  {
    RemoveIsSound(d, root, rank, cb, cwd, name);
    Ranked(d, root, rank, cb, cwd);
    Ranked(d, root, rank, cb, root);
    assert Reached(d, root, Some(Found(cwd, j)), cwd, cwd, 0) && Reached(d, root, Some(Found(cwd, j)), root, root, 0);
  }

  lemma RemoveKeepsSound(d: Disk, root: u32, cb: nat, cwd: u32, name: seq<byte>, whole: bool)
    requires Sound(State(d, cwd), root, cb, whole) && Closed(d.fat) && Severed(d, root, cwd, name)
    ensures Sound(State(RemovedByName(d, cwd, name), cwd), root, cb, whole)
  {
    var rank :| SoundBy(d, root, cb, cwd, rank, whole);
    var r := Lookup(Dir(d, cwd), name);
    if r.Some? {
      if IsDirectory(Dir(d, cwd)[r.value]) {
        SeveredSound(d, root, rank, cb, cwd, name, r.value, whole);
      } else {
        RemovedFileSound(d, root, rank, cb, cwd, name, r.value, whole);
      }
    }
  }

  // ---- steps ----

  lemma CleanedIsSound(s: State, root: u32, cb: nat, name: seq<byte>, bytes: seq<byte>, whole: bool)
    requires Sound(s, root, cb, whole) && Mounted(s.disk, cb) && Harmless(s, root, cb, Install(name, bytes))
    ensures Sound(State(Cleaned(s.disk, root, s.cwd, name), s.cwd), root, cb, whole)
  {
    if Find(s.disk, root, StartDir(root, s.cwd, name), Split(name)).Some? {
      assert s == State(s.disk, s.cwd);
      RemoveKeepsSound(s.disk, root, cb, s.cwd, name, whole);
    }
  }

  lemma InstallStepIsSound(s: State, t: State, root: u32, cb: nat, name: seq<byte>, bytes: seq<byte>, whole: bool)
    requires Sound(s, root, cb, whole) && Step(s, t, root, cb, Install(name, bytes))
    ensures Sound(t, root, cb, whole)
  {
    CleanedIsSound(s, root, cb, name, bytes, whole);
    var d := Cleaned(s.disk, root, s.cwd, name);
    var rank :| SoundBy(d, root, cb, s.cwd, rank, whole);
    var dir, ps := StartDir(root, s.cwd, name), Split(name);
    var mid :| InstallsBy(d, t.disk, root, cb, dir, ps, bytes, mid);
    StartKnownDir(d, root, rank, cb, s.cwd, name);
    SplitIsParts(name);
    InstallIsSound(d, t.disk, root, rank, cb, s.cwd, dir, ps, bytes, mid, whole);
  }

  /** A move ends with a removal from the disk with the copy. */
  lemma MoveEnds(s: State, t: State, root: u32, cb: nat, src: seq<byte>, dest: seq<byte>)
    requires Step(s, t, root, cb, Move(src, dest))
    ensures PathName(src) && PathName(dest) && Mounted(s.disk, cb)
    ensures var m := CopyCall(s, root, cb, src, dest);
      Closed(m.fat) && Severed(m, root, s.cwd, src) && t == State(RemovedByName(m, s.cwd, src), s.cwd)
  {
  }

  lemma MoveStepIsSound(s: State, t: State, root: u32, cb: nat, src: seq<byte>, dest: seq<byte>, whole: bool)
    requires Sound(s, root, cb, whole) && Step(s, t, root, cb, Move(src, dest)) && (whole ==> !CutShort(s, root, cb, Move(src, dest)))
    ensures Sound(t, root, cb, whole)
  {
    MoveEnds(s, t, root, cb, src, dest);
    var rank :| SoundBy(s.disk, root, cb, s.cwd, rank, whole);
    CopyCallIsSound(s, root, rank, cb, src, dest, Move(src, dest), whole);
    RemoveKeepsSound(CopyCall(s, root, cb, src, dest), root, cb, s.cwd, src, whole);
  }

  /** Every step keeps the file system consistent, and its files whole unless a copy was cut short. */
  lemma StepIsSound(s: State, t: State, root: u32, cb: nat, op: FileOp, whole: bool)
    requires Sound(s, root, cb, whole) && Step(s, t, root, cb, op) && (whole ==> !CutShort(s, root, cb, op))
    ensures Sound(t, root, cb, whole)
  {
    var rank :| SoundBy(s.disk, root, cb, s.cwd, rank, whole);
    match op
    case Touch(name) => TouchIsSound(s.disk, root, rank, cb, s.cwd, name, whole);
    case Copy(src, dest) => CopyCallIsSound(s, root, rank, cb, src, dest, op, whole);
    case Install(name, bytes) => InstallStepIsSound(s, t, root, cb, name, bytes, whole);
    case Remove(name) => RemoveKeepsSound(s.disk, root, cb, s.cwd, name, whole);
    case Move(src, dest) => MoveStepIsSound(s, t, root, cb, src, dest, whole);
    case ChangeDir(name) =>
      ChangedIsKnown(s.disk, root, rank, cb, s.cwd, name);
      assert SoundBy(t.disk, root, cb, t.cwd, rank, whole);
  }

  lemma WholeIsSound(s: State, root: u32, cb: nat, whole: bool)
    requires Sound(s, root, cb, true)
    ensures Sound(s, root, cb, whole)
  {
    var rank :| SoundBy(s.disk, root, cb, s.cwd, rank, true);
    assert SoundBy(s.disk, root, cb, s.cwd, rank, whole);
  }

  // ---- runs ----

  ghost predicate IsRun(states: seq<State>, root: u32, cb: nat, ops: seq<FileOp>) {
    |states| == |ops| + 1 && forall i :: 0 <= i < |ops| ==> StepsAt(states, root, cb, ops, i)
  }

  ghost predicate StepsAt(states: seq<State>, root: u32, cb: nat, ops: seq<FileOp>, i: nat)
    requires i < |ops| && |states| == |ops| + 1
  {
    Step(states[i], states[i + 1], root, cb, ops[i])
  }

  /** No copy of the run filled the disk. */
  ghost predicate NoneCutShort(states: seq<State>, root: u32, cb: nat, ops: seq<FileOp>)
    requires |states| == |ops| + 1 && cb > 0
  {
    forall i :: 0 <= i < |ops| ==> UncutAt(states, root, cb, ops, i)
  }

  ghost predicate UncutAt(states: seq<State>, root: u32, cb: nat, ops: seq<FileOp>, i: nat)
    requires i < |ops| && |states| == |ops| + 1 && cb > 0
  {
    !CutShort(states[i], root, cb, ops[i])
  }

  ghost predicate SoundAt(states: seq<State>, root: u32, cb: nat, k: nat, whole: bool) {
    k < |states| && Sound(states[k], root, cb, whole)
  }

  lemma RunStep(states: seq<State>, root: u32, cb: nat, ops: seq<FileOp>, i: nat, whole: bool)
    requires IsRun(states, root, cb, ops) && cb > 0 && 0 < i < |states| && (whole ==> NoneCutShort(states, root, cb, ops))
    ensures SoundAt(states, root, cb, i - 1, whole) ==> SoundAt(states, root, cb, i, whole)
  {
    assert StepsAt(states, root, cb, ops, i - 1);
    assert whole ==> UncutAt(states, root, cb, ops, i - 1);
    if SoundAt(states, root, cb, i - 1, whole) {
      StepIsSound(states[i - 1], states[i], root, cb, ops[i - 1], whole);
    }
  }

  /** What each step keeps holds all along. */
  lemma {:induction false} Along(ok: seq<bool>, i: nat)
    requires i < |ok| && ok[0] && forall k :: 0 < k < |ok| && ok[k - 1] ==> ok[k]
    ensures ok[i]
    decreases i
  {
    if i > 0 {
      Along(ok, i - 1);
      assert ok[i - 1] ==> ok[i];
    }
  }

  /** Consistency holds all along every run, wholeness where no copy filled the disk. */
  lemma RunsAreSound(states: seq<State>, root: u32, cb: nat, ops: seq<FileOp>, i: nat, whole: bool)
    requires IsRun(states, root, cb, ops) && cb > 0 && Sound(states[0], root, cb, whole) && i < |states|
    requires whole ==> NoneCutShort(states, root, cb, ops)
    ensures Sound(states[i], root, cb, whole)
  {
    var ok := seq(|states|, k requires 0 <= k < |states| => SoundAt(states, root, cb, k, whole));
    RunSteps(states, root, cb, ops, whole, ok);
    Along(ok, i);
  }

  lemma RunSteps(states: seq<State>, root: u32, cb: nat, ops: seq<FileOp>, whole: bool, ok: seq<bool>)
    requires IsRun(states, root, cb, ops) && cb > 0 && (whole ==> NoneCutShort(states, root, cb, ops))
    requires |ok| == |states| && forall k :: 0 <= k < |ok| ==> ok[k] == SoundAt(states, root, cb, k, whole)
    ensures forall k :: 0 < k < |ok| && ok[k - 1] ==> ok[k]
  {
    forall k | 0 < k < |ok| && ok[k - 1]
      ensures ok[k]
    {
      RunStep(states, root, cb, ops, k, whole);
    }
  }

  /** In a consistent file system the chain of every non-empty file ends in an end mark, and meets
      no cluster twice and none of any other file. */
  ghost predicate ChainsApart(d: Disk, rank: map<nat, nat>) {
    forall f, g, i: nat, k: nat :: IsFile(d, rank, f) && IsFile(d, rank, g) && i < |ChainAt(d, f)| && k < |ChainAt(d, g)| ==>
      && IsChain(d.fat, ChainAt(d, f))
      && (ChainAt(d, f)[i] == ChainAt(d, g)[k] ==> f == g && i == k)
  }

  lemma SoundChains(d: Disk, root: u32, rank: map<nat, nat>, cb: nat)
    requires FsOk(d, root, rank, cb, [])
    ensures ChainsApart(d, rank)
  {
    forall f, g, i: nat, k: nat | IsFile(d, rank, f) && IsFile(d, rank, g) && i < |ChainAt(d, f)| && k < |ChainAt(d, g)|
      ensures IsChain(d.fat, ChainAt(d, f))
      ensures ChainAt(d, f)[i] == ChainAt(d, g)[k] ==> f == g && i == k
    {
      FileChainsApart(d, rank, f, g, i, k);
    }
  }

  lemma SoundHasChains(d: Disk, root: u32, cb: nat, cwd: u32, whole: bool)
    requires Sound(State(d, cwd), root, cb, whole)
    ensures exists rank :: SoundBy(d, root, cb, cwd, rank, whole) && ChainsApart(d, rank)
  {
    var rank :| SoundBy(d, root, cb, cwd, rank, whole);
    SoundChains(d, root, rank, cb);
  }

  lemma FileChainsApart(d: Disk, rank: map<nat, nat>, f: Found, g: Found, i: nat, k: nat)
    requires AllApart(d, rank)
    requires IsFile(d, rank, f) && IsFile(d, rank, g) && i < |ChainAt(d, f)| && k < |ChainAt(d, g)|
    ensures IsChain(d.fat, ChainAt(d, f))
    ensures ChainAt(d, f)[i] == ChainAt(d, g)[k] ==> f == g && i == k
  {
    ChainInTable(d.fat, FirstCluster(SlotAt(d, f)));
    if f != g {
      NoneShared(d, rank, f, g, i, k);
    } else if i < k {
      ChainAcyclic(d.fat, ChainAt(d, f), i, k);
    } else if k < i {
      ChainAcyclic(d.fat, ChainAt(d, f), k, i);
    }
  }

  lemma NoneShared(d: Disk, rank: map<nat, nat>, f: Found, g: Found, i: nat, k: nat)
    requires AllApart(d, rank) && IsFile(d, rank, f) && IsFile(d, rank, g) && f != g
    requires i < |ChainAt(d, f)| && k < |ChainAt(d, g)|
    ensures ChainAt(d, f)[i] != ChainAt(d, g)[k]
  {
    assert Disjoint(ChainAt(d, f), ChainAt(d, g));
    assert ChainAt(d, f)[i] in ChainAt(d, f);
  }
}
