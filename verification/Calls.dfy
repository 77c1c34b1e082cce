/** What each file call does, said of the volume and the current directory before and after it. */
module Calls {
  import opened Words
  import opened Names
  import opened Slots
  import opened Directory
  import opened DirectoryEdit
  import opened Volume
  import opened Chains
  import opened Writers
  import opened Tree
  import opened Paths
  import opened PathNames
  import opened FileSystem
  import opened FileLaws
  import opened FileOps
  import opened Removals
  import opened Moves
  import opened FileRuns

  /** A consistent volume whose directories include the current one. */
  ghost predicate Consistent(s: State, root: u32, cb: nat, rank: map<nat, nat>) {
    FsOk(s.disk, root, rank, cb, []) && s.cwd as nat in rank
  }

  lemma Starts(s: State, root: u32, cb: nat, rank: map<nat, nat>, name: seq<byte>, dir: u32, ps: seq<seq<byte>>)
    requires Consistent(s, root, cb, rank) && From(root, s.cwd, name, dir, ps)
    ensures dir as nat in rank && dir == StartDir(root, s.cwd, name) && ps == Split(name) && (PathName(name) ==> Parts(ps))
  {
    FromIs(root, s.cwd, name, dir, ps);
    StartKnownDir(s.disk, root, rank, cb, s.cwd, name);
    if PathName(name) {
      SplitIsParts(name);
    }
  }

  /** The calls take every component as a name, and the paths these make up. */
  lemma PathNamesAre(c: seq<byte>, rest: seq<byte>)
    requires IsComponent(c) && PathName(rest)
    ensures PathName(c) && PathName(c + (['/' as int] + rest)) && PathName(['/' as int] + rest)
  {
    RootedIsPathName(rest);
    ComponentIsPathName(c, []);
    assert c + [] == c;
    ComponentIsPathName(c, [SLASH] + rest);
  }

  lemma RootedIsPathName(rest: seq<byte>)
    requires PathName(rest)
    ensures PathName([SLASH] + rest)
  {
    assert ([SLASH] + rest)[1..] == rest;
  }

  lemma ComponentIsPathName(c: seq<byte>, behind: seq<byte>)
    requires IsComponent(c) && PathName(behind) && (behind == [] || behind[0] == SLASH)
    ensures PathName(c + behind)
  {
    ComponentEnds(c, behind);
    if behind != [] {
      assert (c + behind)[|c| + 1..] == behind[1..];
      assert ComponentLen(behind) == 0;
    }
  }

  // ---- touch ----

  /** A touch leaves everything as it is where the path resolves; where it does not and there is room
      it makes an empty file, to which the path leads exactly when the walk arrives. */
  lemma TouchCall(s: State, t: State, root: u32, cb: nat, rank: map<nat, nat>, name: seq<byte>, dir: u32, ps: seq<seq<byte>>)
    requires Consistent(s, root, cb, rank) && Call(s, t, root, cb, FileOp.Touch(name)) && From(root, s.cwd, name, dir, ps)
    ensures t.cwd == s.cwd && (Find(s.disk, root, dir, ps).Some? ==> t == s)
    ensures Find(s.disk, root, dir, ps) == None && HasRoom(s.disk, root, cb, dir, ps, 0) ==>
      Wrote(s.disk, t.disk, root, rank, cb, dir, ps, [], [])
  {
    Starts(s, root, cb, rank, name, dir, ps);
    if Find(s.disk, root, dir, ps) == None && HasRoom(s.disk, root, cb, dir, ps, 0) {
      TouchMakesEmpty(s.disk, root, rank, cb, dir, ps);
    }
  }

  // ---- copy ----

  /** The path resolves to this entry, a file's. */
  predicate Resolves(d: Disk, root: u32, dir: u32, ps: seq<seq<byte>>, e: Slot) {
    Find(d, root, dir, ps) == Some(e) && (e[11] / 16) % 2 == 0
  }

  /** A copy with clusters and room makes a file that reads as the source did before the call, in
      clusters that were free; every file, the source included, is as before. */
  lemma CopyMakes(s: State, t: State, root: u32, cb: nat, rank: map<nat, nat>, src: seq<byte>, dest: seq<byte>,
                  q: u32, qs: seq<seq<byte>>, e: Slot, dir: u32, ps: seq<seq<byte>>)
    requires Consistent(s, root, cb, rank) && Call(s, t, root, cb, FileOp.Copy(src, dest))
    requires From(root, s.cwd, src, q, qs) && From(root, s.cwd, dest, dir, ps) && Resolves(s.disk, root, q, qs, e)
    requires CopyReady(s.disk, e, cb) && HasRoom(s.disk, root, cb, dir, ps, CopyBlocks(FileSize(e), cb))
    ensures t.cwd == s.cwd
    ensures exists ds :: |ds| == CopyBlocks(FileSize(e), cb) && Wrote(s.disk, t.disk, root, rank, cb, dir, ps, ds, Content(s.disk, e))
  {
    Starts(s, root, cb, rank, src, q, qs);
    Starts(s, root, cb, rank, dest, dir, ps);
    CopyIs(s, root, cb, src, dest, q, qs, e, dir, ps);
    CopyFillsFile(s.disk, e, cb);
    CopyOf(s.disk, root, rank, cb, e, dir, ps);
  }

  lemma CopyIs(s: State, root: u32, cb: nat, src: seq<byte>, dest: seq<byte>, q: u32, qs: seq<seq<byte>>, e: Slot, dir: u32, ps: seq<seq<byte>>)
    requires Mounted(s.disk, cb) && q == StartDir(root, s.cwd, src) && qs == Split(src) && dir == StartDir(root, s.cwd, dest) && ps == Split(dest)
    requires Resolves(s.disk, root, q, qs, e) && CanCopy(s.disk, FirstCluster(e), FileSize(e), ClustersFrom(s.disk.fat, FirstCluster(e)), cb)
    ensures CopyCall(s, root, cb, src, dest) == CopiedTo(s.disk, root, e, dir, ps, cb)
  {
  }

  /** No cluster is free. */
  predicate DiskFull(fat: seq<nat>) {
    forall c :: 2 <= c < |fat| ==> fat[c] != 0
  }

  lemma CopyEnds(s: State, t: State, root: u32, cb: nat, src: seq<byte>, dest: seq<byte>)
    requires Call(s, t, root, cb, FileOp.Copy(src, dest))
    ensures Mounted(s.disk, cb) && PathName(src) && PathName(dest) && t.cwd == s.cwd
    ensures t.disk == CopyResult(s.disk, root, StartDir(root, s.cwd, src), Split(src), StartDir(root, s.cwd, dest), Split(dest), cb)
  {
  }

  /** A copy changes nothing if and only if its source is missing or a directory, or the disk is full. */
  lemma CopyChanges(s: State, t: State, root: u32, cb: nat, rank: map<nat, nat>, src: seq<byte>, dest: seq<byte>, q: u32, qs: seq<seq<byte>>)
    requires Consistent(s, root, cb, rank) && Call(s, t, root, cb, FileOp.Copy(src, dest)) && From(root, s.cwd, src, q, qs)
    ensures t == s <==> (forall e :: !Resolves(s.disk, root, q, qs, e)) || DiskFull(s.disk.fat)
  {
    Starts(s, root, cb, rank, src, q, qs);
    CopyEnds(s, t, root, cb, src, dest);
    ResultChanges(s.disk, root, rank, cb, q, qs, StartDir(root, s.cwd, dest), Split(dest));
  }

  lemma ResultChanges(d: Disk, root: u32, rank: map<nat, nat>, cb: nat, q: u32, qs: seq<seq<byte>>, dir: u32, ps: seq<seq<byte>>)
    requires FsOk(d, root, rank, cb, []) && q as nat in rank
    ensures CopyResult(d, root, q, qs, dir, ps, cb) == d <==> (forall e :: !Resolves(d, root, q, qs, e)) || DiskFull(d.fat)
  {
    var r := Find(d, root, q, qs);
    if r.Some? && !IsDirectory(r.value) {
      assert Resolves(d, root, q, qs, r.value);
      FoundIsFile(d, root, rank, cb, q, qs, r.value);
      SourceCanCopy(d, rank, cb, r.value);
      CopyTakes(d, root, r.value, dir, ps, cb);
    } else {
      assert CopyResult(d, root, q, qs, dir, ps, cb) == d;
    }
  }

  /** What a creation finds in use stays in use. */
  lemma {:induction false} CreateKeepsUsed(d: Disk, root: u32, dir: u32, ps: seq<seq<byte>>, meta: Meta, n: nat, x: nat)
    requires |d.fat| == |d.data| && |d.fat| < END_MARK && x < |d.fat| && d.fat[x] != 0
    ensures Create(d, root, dir, ps, meta, n).fat[x] != 0
    decreases |ps|
  {
    if |ps| > 1 && ps[0] != [] {
      CreateUnfold(d, root, dir, ps, meta, n);
      var r := LookupFrom(Dir(d, dir), ps[0], true, 0);
      if r.Some? {
        CreateKeepsUsed(d, root, Enter(root, Dir(d, dir)[r.value]), ps[1..], meta, n, x);
      } else if LeastFree(d.fat, 2) != 0 {
        CreateKeepsUsed(MakeDir(d, dir, ps[0], n), root, LeastFree(d.fat, 2), ps[1..], meta, n, x);
      }
    }
  }

  lemma TakenNone(fat: seq<nat>, n: nat)
    requires n > 0
    ensures Taken(fat, n) == [] <==> LeastFree(fat, 2) == 0
    ensures LeastFree(fat, 2) == 0 <==> DiskFull(fat)
  {
    TakenFirst(fat, n);
    if LeastFree(fat, 2) == 0 {
      forall c | 2 <= c < |fat|
        ensures fat[c] != 0
      {
        LeastFreeIsLeast(fat, 2, c);
      }
    }
  }

  lemma {:induction false} TakenFirst(fat: seq<nat>, n: nat)
    requires n > 0
    ensures Taken(fat, n) == [] <==> LeastFree(fat, 2) == 0
    decreases n
  {
    if n > 1 {
      TakenFirst(fat, n - 1);
    }
  }

  lemma CopyTakes(d: Disk, root: u32, e: Slot, dir: u32, ps: seq<seq<byte>>, cb: nat)
    requires |d.fat| == |d.data| && |d.fat| < END_MARK && cb > 0
    requires CanCopy(d, FirstCluster(e), FileSize(e), ClustersFrom(d.fat, FirstCluster(e)), cb)
    ensures CopiedTo(d, root, e, dir, ps, cb) == d <==> DiskFull(d.fat)
  {
    var ds, mid := CopyClusters(d, e, cb), CopyTaken(d, e, cb);
    CopyTook(d, e, cb);
    TakenNone(d.fat, CopyAsks(FileSize(e), |ClustersFrom(d.fat, FirstCluster(e))|, cb));
    if ds == [] {
      TakeNone(d, mid);
    } else {
      GrownUsed(d.fat, ds);
      CreateKeepsUsed(mid, root, dir, ps, Meta(ATTR_ARCHIVE, ds[0], FileSize(e)), cb / SLOT, ds[0]);
    }
  }

  /** At most one file is new, and every other is as before. */
  ghost predicate KeepsFiles(d: Disk, e: Disk, root: u32, rank: map<nat, nat>, cb: nat) {
    exists ds, at :: AddedOrNot(d, e, root, rank, cb, ds, at)
  }

  lemma NothingKeepsFiles(d: Disk, root: u32, rank: map<nat, nat>, cb: nat)
    requires FsOk(d, root, rank, cb, [])
    ensures KeepsFiles(d, d, root, rank, cb)
  {
    FilesKeptAll(d, rank);
    assert SameFiles(d, d, root, rank, rank, cb);
    assert AddedOrNot(d, d, root, rank, cb, [], None);
  }

  lemma ResultKeepsFiles(d: Disk, root: u32, rank: map<nat, nat>, cb: nat, q: u32, qs: seq<seq<byte>>, dir: u32, ps: seq<seq<byte>>)
    requires FsOk(d, root, rank, cb, []) && q as nat in rank && dir as nat in rank && Parts(ps)
    ensures |d.fat| == |d.data| && |d.fat| < END_MARK && KeepsFiles(d, CopyResult(d, root, q, qs, dir, ps, cb), root, rank, cb)
  {
    var r := Find(d, root, q, qs);
    if r.Some? && !IsDirectory(r.value) {
      CopiedKeepsFiles(d, root, rank, cb, q, qs, r.value, dir, ps);
    } else {
      NothingKeepsFiles(d, root, rank, cb);
      assert CopyResult(d, root, q, qs, dir, ps, cb) == d;
    }
  }

  lemma CopiedKeepsFiles(d: Disk, root: u32, rank: map<nat, nat>, cb: nat, q: u32, qs: seq<seq<byte>>, e: Slot, dir: u32, ps: seq<seq<byte>>)
    requires FsOk(d, root, rank, cb, []) && q as nat in rank && dir as nat in rank && Parts(ps) && Resolves(d, root, q, qs, e)
    ensures |d.fat| == |d.data| && |d.fat| < END_MARK && KeepsFiles(d, CopyResult(d, root, q, qs, dir, ps, cb), root, rank, cb)
  {
    FoundIsFile(d, root, rank, cb, q, qs, e);
    CopyKeepsFs(d, root, rank, cb, e, dir, ps);
    assert CopyResult(d, root, q, qs, dir, ps, cb) == CopiedTo(d, root, e, dir, ps, cb);
  }

  /** Whatever a copy comes to, every file is as before, and at most one is new. */
  lemma CopyKeeps(s: State, t: State, root: u32, cb: nat, rank: map<nat, nat>, src: seq<byte>, dest: seq<byte>)
    requires Consistent(s, root, cb, rank) && Call(s, t, root, cb, FileOp.Copy(src, dest))
    ensures KeepsFiles(s.disk, t.disk, root, rank, cb)
  {
    var q, qs, dir, ps := StartDir(root, s.cwd, src), Split(src), StartDir(root, s.cwd, dest), Split(dest);
    Starts(s, root, cb, rank, src, q, qs);
    Starts(s, root, cb, rank, dest, dir, ps);
    CopyEnds(s, t, root, cb, src, dest);
    ResultKeepsFiles(s.disk, root, rank, cb, q, qs, dir, ps);
  }

  /** A copy of a file with the clusters its size needs fills the disk only when there are fewer free
      clusters than that. */
  lemma EnoughIsWhole(s: State, root: u32, cb: nat, rank: map<nat, nat>, src: seq<byte>, dest: seq<byte>, q: u32, qs: seq<seq<byte>>, e: Slot)
    requires Consistent(s, root, cb, rank) && Sized(s.disk, cb) && From(root, s.cwd, src, q, qs) && Resolves(s.disk, root, q, qs, e)
    requires WholeSlot(s.disk, cb, e) && Used(s.disk.fat) + CopyBlocks(FileSize(e), cb) + 2 <= |s.disk.fat|
    ensures CopyReady(s.disk, e, cb) && !CutShort(s, root, cb, FileOp.Copy(src, dest)) && !CutShort(s, root, cb, FileOp.Move(src, dest))
  {
    Starts(s, root, cb, rank, src, q, qs);
    SourceIsReady(s.disk, root, rank, cb, q, qs, e);
    CopyFillsFile(s.disk, e, cb);
  }

  // ---- rm ----

  /** The entry at `at` is cleared; if it was a file's, its clusters are free and no other file is
      touched, and of a directory its cluster is. */
  ghost predicate GoneFrom(d: Disk, e: Disk, root: u32, rank: map<nat, nat>, cb: nat, at: Found) {
    && OneCleared(d, e, rank, at)
    && if (SlotAt(d, at)[11] / 16) % 2 == 0 then FileGone(d, e, root, rank, cb, at)
       else Freed(d, e, rank, cb, at, FirstCluster(SlotAt(d, at)))
  }

  /** A removal takes the first entry the name finds in the current directory, and does nothing
      without one. */
  lemma RemoveCall(s: State, t: State, root: u32, cb: nat, rank: map<nat, nat>, name: seq<byte>)
    requires Consistent(s, root, cb, rank) && Call(s, t, root, cb, FileOp.Remove(name))
    ensures t.cwd == s.cwd
    ensures match Lookup(Dir(s.disk, s.cwd), name)
      case None => t == s
      case Some(j) => GoneFrom(s.disk, t.disk, root, rank, cb, Found(s.cwd, j))
  {
    RemoveEnds(s, t, root, cb, name);
    if Lookup(Dir(s.disk, s.cwd), name).Some? {
      RemoveHere(s.disk, root, cb, rank, s.cwd, name, Lookup(Dir(s.disk, s.cwd), name).value);
    }
  }

  lemma RemoveEnds(s: State, t: State, root: u32, cb: nat, name: seq<byte>)
    requires Call(s, t, root, cb, FileOp.Remove(name))
    ensures Closed(s.disk.fat) && t == State(RemovedByName(s.disk, s.cwd, name), s.cwd)
  {
  }

  lemma ClearedHere(d: Disk, root: u32, cb: nat, rank: map<nat, nat>, cwd: u32, name: seq<byte>, j: nat)
    requires FsOk(d, root, rank, cb, []) && cwd as nat in rank && Lookup(Dir(d, cwd), name) == Some(j)
    ensures OneCleared(d, RemovedByName(d, cwd, name), rank, Found(cwd, j))
  {
    StartKnown(d, rank, cwd, name);
    RemoveReady(d, root, rank, cb, cwd, name, j);
    RemovedDirsAll(d, root, rank, cb, Found(cwd, j));
  }

  lemma RemoveHere(d: Disk, root: u32, cb: nat, rank: map<nat, nat>, cwd: u32, name: seq<byte>, j: nat)
    requires FsOk(d, root, rank, cb, []) && cwd as nat in rank && Lookup(Dir(d, cwd), name) == Some(j)
    ensures GoneFrom(d, RemovedByName(d, cwd, name), root, rank, cb, Found(cwd, j))
  {
    ClearedHere(d, root, cb, rank, cwd, name, j);
    if IsDirectory(Dir(d, cwd)[j]) {
      RemoveDirectory(d, root, rank, cb, cwd, name, j);
    } else {
      RemoveByName(d, root, rank, cb, cwd, name, j);
    }
    GoneWhen(d, RemovedByName(d, cwd, name), root, rank, cb, Found(cwd, j), IsDirectory(Dir(d, cwd)[j]));
  }

  lemma GoneWhen(d: Disk, e: Disk, root: u32, rank: map<nat, nat>, cb: nat, at: Found, isDir: bool)
    requires OneCleared(d, e, rank, at) && isDir == IsDirectory(SlotAt(d, at))
    requires if isDir then Freed(d, e, rank, cb, at, FirstCluster(SlotAt(d, at))) else FileGone(d, e, root, rank, cb, at)
    ensures GoneFrom(d, e, root, rank, cb, at)
  {
  }

  // ---- install ----

  /** Installing under a path that does not resolve, or under an absolute one, removes nothing, and
      with room makes a file of exactly the bytes given. */
  lemma InstallMakes(s: State, t: State, root: u32, cb: nat, rank: map<nat, nat>, name: seq<byte>, bytes: seq<byte>, dir: u32, ps: seq<seq<byte>>)
    requires Consistent(s, root, cb, rank) && Call(s, t, root, cb, FileOp.Install(name, bytes)) && From(root, s.cwd, name, dir, ps)
    requires Find(s.disk, root, dir, ps) == None || (name != [] && name[0] == '/' as int)
    requires HasRoom(s.disk, root, cb, dir, ps, BlocksFor(|bytes|, cb))
    ensures t.cwd == s.cwd
    ensures exists ds :: |ds| == BlocksFor(|bytes|, cb) && Wrote(s.disk, t.disk, root, rank, cb, dir, ps, ds, bytes)
  {
    Starts(s, root, cb, rank, name, dir, ps);
    if Find(s.disk, root, dir, ps).Some? {
      AbsoluteMoveCopies(s.disk, root, rank, cb, s.cwd, name);
    }
    InstallReadsBack(s.disk, t.disk, root, rank, cb, dir, ps, bytes);
    TakenAll(s.disk.fat, BlocksFor(|bytes|, cb));
  }

  /** From d to e the file at f is gone and there is one new file, at `at`; every other is as before. */
  ghost predicate Replaced(d: Disk, e: Disk, root: u32, rank: map<nat, nat>, more: map<nat, nat>, cb: nat, f: Found, at: Found) {
    && FsOk(e, root, more, cb, []) && IsFile(e, more, at)
    && (forall g :: IsFile(d, rank, g) && g != f ==> g != at && FileKept(d, e, more, g))
    && forall g :: IsFile(e, more, g) && g != at ==> IsFile(d, rank, g) && g != f
  }

  /** Installing again under a name in the current directory replaces the file of that name. */
  lemma InstallReplaces(s: State, t: State, root: u32, cb: nat, rank: map<nat, nat>, name: seq<byte>, bytes: seq<byte>, j: nat)
    requires Consistent(s, root, cb, rank) && Call(s, t, root, cb, FileOp.Install(name, bytes)) && IsComponent(name)
    requires Lookup(Dir(s.disk, s.cwd), name) == Some(j) && IsFile(s.disk, rank, Found(s.cwd, j))
    requires HasRoom(RemovedByName(s.disk, s.cwd, name), root, cb, s.cwd, [name], BlocksFor(|bytes|, cb))
    ensures exists more, at, head ::
      Replaced(s.disk, t.disk, root, rank, more, cb, Found(s.cwd, j), at) && HoldsAt(t.disk, at, name, head, bytes)
  {
    InstallsOver(s, t, root, cb, name, bytes, j);
    InstalledAgain(s.disk, RemovedByName(s.disk, s.cwd, name), t.disk, root, cb, rank, s.cwd, name, bytes, j);
  }

  lemma InstallEnds(s: State, t: State, root: u32, cb: nat, name: seq<byte>, bytes: seq<byte>)
    requires Call(s, t, root, cb, FileOp.Install(name, bytes))
    ensures Closed(s.disk.fat) && PathName(name) && t.cwd == s.cwd
    ensures var dir, ps := StartDir(root, s.cwd, name), Split(name);
      Installs(if Find(s.disk, root, dir, ps).Some? then RemovedByName(s.disk, s.cwd, name) else s.disk, t.disk, root, cb, dir, ps, bytes)
  {
  }

  lemma InstallsOver(s: State, t: State, root: u32, cb: nat, name: seq<byte>, bytes: seq<byte>, j: nat)
    requires Call(s, t, root, cb, FileOp.Install(name, bytes)) && NoSlash(name) && name != [] && Lookup(Dir(s.disk, s.cwd), name) == Some(j)
    ensures Closed(s.disk.fat) && Installs(RemovedByName(s.disk, s.cwd, name), t.disk, root, cb, s.cwd, [name], bytes)
  {
    InstallEnds(s, t, root, cb, name, bytes);
    OneComponent(s.disk, root, s.cwd, name);
    SplitIs(name, []);
  }

  lemma InstalledAgain(d: Disk, r: Disk, e: Disk, root: u32, cb: nat, rank: map<nat, nat>, cwd: u32, name: seq<byte>, bytes: seq<byte>, j: nat)
    requires FsOk(d, root, rank, cb, []) && cwd as nat in rank && Lookup(Dir(d, cwd), name) == Some(j) && IsFile(d, rank, Found(cwd, j))
    requires r == RemovedByName(d, cwd, name) && Installs(r, e, root, cb, cwd, [name], bytes)
    requires HasRoom(r, root, cb, cwd, [name], BlocksFor(|bytes|, cb))
    ensures exists more, at, head :: Replaced(d, e, root, rank, more, cb, Found(cwd, j), at) && HoldsAt(e, at, name, head, bytes)
  {
    RemoveHere(d, root, cb, rank, cwd, name, j);
    InstallReadsBack(r, e, root, rank, cb, cwd, [name], bytes);
    WroteOver(d, r, e, root, cb, rank, cwd, name, bytes, Found(cwd, j), Taken(r.fat, BlocksFor(|bytes|, cb)));
  }

  lemma WroteOver(d: Disk, r: Disk, e: Disk, root: u32, cb: nat, rank: map<nat, nat>, cwd: u32, name: seq<byte>, bytes: seq<byte>, f: Found, ds: seq<nat>)
    requires FileGone(d, r, root, rank, cb, f) && Wrote(r, e, root, rank, cb, cwd, [name], ds, bytes)
    ensures exists more, at, head :: Replaced(d, e, root, rank, more, cb, f, at) && HoldsAt(e, at, name, head, bytes)
  {
    var at :| WroteTo(r, e, root, rank, cb, cwd, [name], ds, bytes, at);
    var more := AddedOver(d, r, e, root, rank, cb, f, ds, at);
    assert HoldsAt(e, at, name, Head(ds), bytes);
  }

  lemma AddedOver(d: Disk, r: Disk, e: Disk, root: u32, rank: map<nat, nat>, cb: nat, f: Found, ds: seq<nat>, at: Found) returns (more: map<nat, nat>)
    requires FileGone(d, r, root, rank, cb, f) && AddedOrNot(r, e, root, rank, cb, ds, Some(at))
    ensures Replaced(d, e, root, rank, more, cb, f, at)
  {
    more :| FileAdded(r, e, root, rank, more, cb, ds, at);
    GoneThenAdded(d, r, e, root, rank, more, cb, f, ds, at);
  }

  lemma GoneThenAdded(d: Disk, r: Disk, e: Disk, root: u32, rank: map<nat, nat>, more: map<nat, nat>, cb: nat, f: Found, ds: seq<nat>, at: Found)
    requires FileGone(d, r, root, rank, cb, f) && FileAdded(r, e, root, rank, more, cb, ds, at)
    ensures Replaced(d, e, root, rank, more, cb, f, at)
  {
    forall g | IsFile(d, rank, g) && g != f
      ensures g != at && FileKept(d, e, more, g)
    {
      assert FileKept(d, r, rank, g) && FileKept(r, e, more, g);
    }
  }

  // ---- move ----

  lemma CopySizes(s: State, root: u32, cb: nat, src: seq<byte>, dest: seq<byte>)
    requires Mounted(s.disk, cb)
    ensures var m := CopyCall(s, root, cb, src, dest); |m.fat| == |s.disk.fat| && |m.data| == |s.disk.data|
  {
    var r := Find(s.disk, root, StartDir(root, s.cwd, src), Split(src));
    if r.Some? && CanCopy(s.disk, FirstCluster(r.value), FileSize(r.value), ClustersFrom(s.disk.fat, FirstCluster(r.value)), cb) {
      CopyTook(s.disk, r.value, cb);
    }
  }

  ghost predicate CopiesTo(s: State, m: Disk, root: u32, cb: nat, src: seq<byte>, dest: seq<byte>) {
    Call(s, State(m, s.cwd), root, cb, FileOp.Copy(src, dest))
  }

  ghost predicate RemovesFrom(m: Disk, cwd: u32, t: State, root: u32, cb: nat, src: seq<byte>) {
    Call(State(m, cwd), t, root, cb, FileOp.Remove(src))
  }

  /** A move is a copy and then a removal by the source's name, whatever either comes to. */
  lemma MoveIsCopyThenRemove(s: State, t: State, root: u32, cb: nat, src: seq<byte>, dest: seq<byte>)
    ensures Call(s, t, root, cb, FileOp.Move(src, dest)) <==>
      exists m: Disk :: CopiesTo(s, m, root, cb, src, dest) && RemovesFrom(m, s.cwd, t, root, cb, src)
  {
    if Call(s, t, root, cb, FileOp.Move(src, dest)) {
      MoveSplits(s, t, root, cb, src, dest);
    }
    if m: Disk :| CopiesTo(s, m, root, cb, src, dest) && RemovesFrom(m, s.cwd, t, root, cb, src) {
      assert m == CopyCall(s, root, cb, src, dest);
    }
  }

  lemma MoveSplits(s: State, t: State, root: u32, cb: nat, src: seq<byte>, dest: seq<byte>)
    requires Call(s, t, root, cb, FileOp.Move(src, dest))
    ensures exists m: Disk :: CopiesTo(s, m, root, cb, src, dest) && RemovesFrom(m, s.cwd, t, root, cb, src)
  {
    var m := CopyCall(s, root, cb, src, dest);
    CopySizes(s, root, cb, src, dest);
    assert CopiesTo(s, m, root, cb, src, dest);
    assert RemovesFrom(m, s.cwd, t, root, cb, src);
  }

  /** The move of the file at f has the copy at `at` in clusters ds, and everything else as it was. */
  ghost predicate MovedTo(d: Disk, r: Disk, root: u32, rank: map<nat, nat>, more: map<nat, nat>, cb: nat, f: Found,
                          dir: u32, ps: seq<seq<byte>>, ds: seq<nat>, at: Found)
  {
    exists e :: Moved(d, e, r, root, rank, more, cb, f, dir, ps, ds, at)
  }

  lemma MoveIs(s: State, t: State, root: u32, cb: nat, rank: map<nat, nat>, src: seq<byte>, dest: seq<byte>,
               q: u32, qs: seq<seq<byte>>, f: Found, dir: u32, ps: seq<seq<byte>>)
    requires Consistent(s, root, cb, rank) && Call(s, t, root, cb, FileOp.Move(src, dest)) && IsFile(s.disk, rank, f)
    requires From(root, s.cwd, src, q, qs) && From(root, s.cwd, dest, dir, ps) && Resolves(s.disk, root, q, qs, SlotAt(s.disk, f))
    ensures dir as nat in rank && t.cwd == s.cwd
    ensures CanCopy(s.disk, FirstCluster(SlotAt(s.disk, f)), FileSize(SlotAt(s.disk, f)), ClustersFrom(s.disk.fat, FirstCluster(SlotAt(s.disk, f))), cb)
    ensures var e := CopiedTo(s.disk, root, SlotAt(s.disk, f), dir, ps, cb); Closed(e.fat) && t.disk == RemovedByName(e, s.cwd, src)
  {
    Starts(s, root, cb, rank, src, q, qs);
    Starts(s, root, cb, rank, dest, dir, ps);
    SourceCanCopy(s.disk, rank, cb, SlotAt(s.disk, f));
    CopyIs(s, root, cb, src, dest, q, qs, SlotAt(s.disk, f), dir, ps);
  }

  /** A move whose removal finds the source, with clusters and room for the copy: the new file reads as
      the source did before the call, the source and its clusters are gone, all other files are kept. */
  lemma MoveCallMoves(s: State, t: State, root: u32, cb: nat, rank: map<nat, nat>, src: seq<byte>, dest: seq<byte>,
                      q: u32, qs: seq<seq<byte>>, f: Found, dir: u32, ps: seq<seq<byte>>)
    requires Consistent(s, root, cb, rank) && Call(s, t, root, cb, FileOp.Move(src, dest)) && IsFile(s.disk, rank, f)
    requires From(root, s.cwd, src, q, qs) && From(root, s.cwd, dest, dir, ps) && Resolves(s.disk, root, q, qs, SlotAt(s.disk, f))
    requires CopyReady(s.disk, SlotAt(s.disk, f), cb) && HasRoom(s.disk, root, cb, dir, ps, CopyBlocks(FileSize(SlotAt(s.disk, f)), cb))
    requires FindsSource(s.disk, root, cb, s.cwd, src, f, dir, ps)
    ensures exists more, ds, at :: |ds| == CopyBlocks(FileSize(SlotAt(s.disk, f)), cb) && MovedTo(s.disk, t.disk, root, rank, more, cb, f, dir, ps, ds, at)
  {
    var e := SlotAt(s.disk, f);
    MoveIs(s, t, root, cb, rank, src, dest, q, qs, f, dir, ps);
    CopyFillsFile(s.disk, e, cb);
    AsksEnough(s.disk, e, cb);
    RoomAdds(s.disk, root, cb, e, dir, ps);
    MoveMoves(s.disk, root, rank, cb, s.cwd, src, f, dir, ps);
    var more, at :| Moved(s.disk, CopiedTo(s.disk, root, e, dir, ps, cb), t.disk, root, rank, more, cb, f, dir, ps, CopyClusters(s.disk, e, cb), at);
    assert MovedTo(s.disk, t.disk, root, rank, more, cb, f, dir, ps, CopyClusters(s.disk, e, cb), at);
  }

  lemma AsksEnough(d: Disk, e: Slot, cb: nat)
    requires CopyReady(d, e, cb)
    ensures CopyAsks(FileSize(e), |ClustersFrom(d.fat, FirstCluster(e))|, cb) == CopyBlocks(FileSize(e), cb)
  {
  }

  /** With room or without, the source's entry is gone exactly when the removal finds it. */
  lemma MoveCallRemoves(s: State, t: State, root: u32, cb: nat, rank: map<nat, nat>, src: seq<byte>, dest: seq<byte>,
                        q: u32, qs: seq<seq<byte>>, f: Found, dir: u32, ps: seq<seq<byte>>)
    requires Consistent(s, root, cb, rank) && Call(s, t, root, cb, FileOp.Move(src, dest)) && IsFile(s.disk, rank, f)
    requires From(root, s.cwd, src, q, qs) && From(root, s.cwd, dest, dir, ps) && Resolves(s.disk, root, q, qs, SlotAt(s.disk, f))
    requires Destination(s.disk, root, dir, ps)
    ensures KnownSlot(t.disk, rank, f) <==> !FindsSource(s.disk, root, cb, s.cwd, src, f, dir, ps)
  {
    MoveIs(s, t, root, cb, rank, src, dest, q, qs, f, dir, ps);
    SourceGone(s.disk, root, rank, cb, s.cwd, src, f, dir, ps);
  }

  /** On a full disk, or into a full directory, a move that finds its source loses the file. */
  lemma MoveCallLoses(s: State, t: State, root: u32, cb: nat, rank: map<nat, nat>, src: seq<byte>, dest: seq<byte>,
                      q: u32, qs: seq<seq<byte>>, f: Found, dir: u32, ps: seq<seq<byte>>)
    requires Consistent(s, root, cb, rank) && Call(s, t, root, cb, FileOp.Move(src, dest)) && IsFile(s.disk, rank, f)
    requires From(root, s.cwd, src, q, qs) && From(root, s.cwd, dest, dir, ps) && Resolves(s.disk, root, q, qs, SlotAt(s.disk, f))
    requires Destination(s.disk, root, dir, ps) && FindsSource(s.disk, root, cb, s.cwd, src, f, dir, ps)
    requires DiskFull(s.disk.fat) || (|ps| == 1 && Place(Dir(s.disk, dir), ps[0]) == None)
    ensures exists more :: Lost(s.disk, t.disk, root, rank, more, cb, f)
  {
    MoveIs(s, t, root, cb, rank, src, dest, q, qs, f, dir, ps);
    if DiskFull(s.disk.fat) {
      FullLandsNone(s.disk, root, cb, SlotAt(s.disk, f), dir, ps);
    } else {
      NoPlaceLandsNone(s.disk, root, cb, rank, SlotAt(s.disk, f), dir, ps);
    }
    MoveLosesFile(s.disk, root, rank, cb, s.cwd, src, f, dir, ps);
  }

  lemma FullLandsNone(d: Disk, root: u32, cb: nat, e: Slot, dir: u32, ps: seq<seq<byte>>)
    requires |d.fat| == |d.data| && |d.fat| < END_MARK && cb > 0 && DiskFull(d.fat)
    requires CanCopy(d, FirstCluster(e), FileSize(e), ClustersFrom(d.fat, FirstCluster(e)), cb)
    ensures CopyLanding(d, root, e, dir, ps, cb) == None
  {
    TakenNone(d.fat, CopyAsks(FileSize(e), |ClustersFrom(d.fat, FirstCluster(e))|, cb));
  }

  lemma NoPlaceLandsNone(d: Disk, root: u32, cb: nat, rank: map<nat, nat>, e: Slot, dir: u32, ps: seq<seq<byte>>)
    requires TreeOk(d, root, rank, cb) && cb > 0 && dir as nat in rank
    requires CanCopy(d, FirstCluster(e), FileSize(e), ClustersFrom(d.fat, FirstCluster(e)), cb)
    requires |ps| == 1 && Place(Dir(d, dir), ps[0]) == None
    ensures CopyLanding(d, root, e, dir, ps, cb) == None
  {
    assert ps == [ps[0]];
    if ps[0] != [] {
      CopyTook(d, e, cb);
      NoneLandsAfter(d, root, rank, cb, dir, e, dir, ps[0]);
    }
  }

  // ---- cd ----

  /** cd changes the current directory alone: to the root for a slash, else to the cluster of the first
      directory the name finds in the current one, the root where that is 0, and stays without one. */
  lemma CdCall(s: State, t: State, root: u32, cb: nat, name: seq<byte>)
    requires Call(s, t, root, cb, FileOp.ChangeDir(name))
    ensures t.disk == s.disk && (name == ['/' as int] ==> t.cwd == root)
    ensures name != ['/' as int] ==>
      match LookupFrom(Dir(s.disk, s.cwd), name, true, 0)
      case None => t.cwd == s.cwd
      case Some(j) => t.cwd == if FirstCluster(Dir(s.disk, s.cwd)[j]) == 0 then root else FirstCluster(Dir(s.disk, s.cwd)[j])
  {
  }

  /** After cd into a directory that a component finds, a relative path finds what the longer path
      through that component found before. */
  lemma CdThenPath(s: State, t: State, root: u32, cb: nat, c: seq<byte>, rest: seq<byte>, j: nat)
    requires Call(s, t, root, cb, FileOp.ChangeDir(c)) && NoSlash(c) && c != [] && rest != [] && rest[0] != '/' as int
    requires Lookup(Dir(s.disk, s.cwd), c) == Some(j) && IsDirectory(Dir(s.disk, s.cwd)[j])
    ensures var path := c + ['/' as int] + rest;
      Find(t.disk, root, StartDir(root, t.cwd, rest), Split(rest)) == Find(s.disk, root, StartDir(root, s.cwd, path), Split(path))
  {
    DirectoryLookup(Dir(s.disk, s.cwd), c, 0);
    CdCall(s, t, root, cb, c);
    NextComponent(s.disk, root, s.cwd, c, rest, j);
  }
}
