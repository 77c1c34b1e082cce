/** `fat32_move`: a copy, then a removal by the source's name. The copy resolves that name as a
    path; the removal matches the whole string in the current directory. */
module Moves {
  import opened Words
  import opened Names
  import opened Slots
  import opened Directory
  import opened DirectoryEdit
  import opened DirectoryLaws
  import opened Volume
  import opened Chains
  import opened Writers
  import opened Tree
  import opened Paths
  import opened Arrival
  import opened Room
  import opened FileSystem
  import opened FileLaws
  import opened FileOps
  import opened Removals

  // ---- lookups once the copy is made ----

  lemma {:induction false} SameAddition(d: Disk, e: Disk, root: u32, rank: map<nat, nat>, cb: nat, dir: u32, ps: seq<seq<byte>>, m: Meta, n: Meta)
    requires TreeOk(d, root, rank, cb) && dir as nat in rank && |d.fat| < END_MARK && |e.fat| < END_MARK && ps != []
    requires forall c :: c in rank ==> Dir(e, c) == Dir(d, c)
    ensures var a, b := FirstAddition(d, root, dir, ps, m), FirstAddition(e, root, dir, ps, n);
      a.dir == b.dir && a.component == b.component
    decreases |ps|
  {
    if |ps| > 1 {
      var r := LookupFrom(Dir(d, dir), ps[0], true, 0);
      if r.Some? {
        StepInto(d, root, rank, cb, dir, ps[0]);
        SameAddition(d, e, root, rank, cb, Enter(root, Dir(d, dir)[r.value]), ps[1..], m, n);
      }
    }
  }

  /** Whether a lookup in directory cwd ends at the entry that the addition puts there. */
  predicate AdditionWins(d: Disk, cwd: u32, a: Addition, c: seq<byte>) {
    cwd as nat == a.dir && Place(Dir(d, cwd), a.component).Some? && NewWins(Dir(d, cwd), a.component, c)
  }

  /** There is room for the copy and for its entry. */
  ghost predicate CopyHasRoom(d: Disk, root: u32, cb: nat, s: Slot, dir: u32, ps: seq<seq<byte>>)
    requires cb > 0
  {
    HasRoom(d, root, cb, dir, ps, CopyAsks(FileSize(s), |ClustersFrom(d.fat, FirstCluster(s))|, cb))
  }

  /** The copy comes to add an entry to a directory that is there: it has got a cluster, the
      directory it comes to has room, and a cluster is left where that entry is to be a directory. */
  ghost predicate CopyAdds(d: Disk, root: u32, cb: nat, s: Slot, dir: u32, ps: seq<seq<byte>>)
    requires cb > 0
  {
    CopyClusters(d, s, cb) != [] && AddsFirst(d, root, dir, ps, LeastFree(Grown(d.fat, CopyClusters(d, s, cb)), 2) != 0)
  }

  /** A destination path: components, plain ones behind the first missing directory. */
  predicate Destination(d: Disk, root: u32, dir: u32, ps: seq<seq<byte>>) {
    Parts(ps) && ps != [] && PlainBeyond(d, root, dir, ps)
  }

  lemma {:induction false} AddsFrame(d: Disk, e: Disk, root: u32, rank: map<nat, nat>, cb: nat, dir: u32, ps: seq<seq<byte>>, free: bool)
    requires TreeOk(d, root, rank, cb) && dir as nat in rank && forall c :: c in rank ==> Dir(e, c) == Dir(d, c)
    ensures AddsFirst(e, root, dir, ps, free) == AddsFirst(d, root, dir, ps, free)
    ensures PlainBeyond(e, root, dir, ps) == PlainBeyond(d, root, dir, ps)
    decreases |ps|
  {
    if |ps| > 1 {
      var r := LookupFrom(Dir(d, dir), ps[0], true, 0);
      if r.Some? {
        StepInto(d, root, rank, cb, dir, ps[0]);
        AddsFrame(d, e, root, rank, cb, Enter(root, Dir(d, dir)[r.value]), ps[1..], free);
      }
    }
  }

  /** One directory has gained the addition's entry, or none has gained any. */
  ghost predicate MayAdd(d: Disk, e: Disk, a: Addition, adds: bool, c: nat) {
    if adds then exists m: Meta :: m.attr != ATTR_LFN && AddsOnly(d, e, Addition(a.dir, a.component, m), c)
    else Dir(e, c) == Dir(d, c)
  }

  lemma AddsAfterTaking(d: Disk, mid: Disk, root: u32, rank: map<nat, nat>, cb: nat, dir: u32, ps: seq<seq<byte>>, ds: seq<nat>, meta: Meta, c: nat)
    requires TreeOk(d, root, rank, cb) && cb >= 2 * SLOT && Took(d, mid, ds) && dir as nat in rank && c in rank && Destination(d, root, dir, ps)
    requires meta.attr != ATTR_LFN
    ensures |mid.fat| == |mid.data| && |mid.fat| < END_MARK
    ensures MayAdd(d, Create(mid, root, dir, ps, meta, cb / SLOT), AdditionOf(d, root, dir, ps), AddsFirst(d, root, dir, ps, LeastFree(mid.fat, 2) != 0), c)
  {
    TookDirs(d, mid, root, rank, cb, ds);
    AddsFrame(d, mid, root, rank, cb, dir, ps, LeastFree(mid.fat, 2) != 0);
    CreateMayAdd(mid, root, rank, cb, dir, ps, meta, c);
    AdditionAttr(mid, root, dir, ps, meta);
    SameAddition(d, mid, root, rank, cb, dir, ps, Meta(ATTR_ARCHIVE, 0, 0), meta);
    MayAddSame(d, mid, Create(mid, root, dir, ps, meta, cb / SLOT), AdditionOf(d, root, dir, ps), FirstAddition(mid, root, dir, ps, meta),
               AddsFirst(d, root, dir, ps, LeastFree(mid.fat, 2) != 0), c);
  }

  lemma MayAddSame(d: Disk, mid: Disk, e: Disk, a: Addition, b: Addition, adds: bool, c: nat)
    requires a.dir == b.dir && a.component == b.component && b.meta.attr != ATTR_LFN && Dir(mid, c) == Dir(d, c) && Dir(mid, b.dir) == Dir(d, b.dir)
    requires if adds then AddsOnly(mid, e, b, c) else Dir(e, c) == Dir(mid, c)
    ensures MayAdd(d, e, a, adds, c)
  {
    if adds {
      assert AddsOnly(d, e, Addition(a.dir, a.component, b.meta), c);
    }
  }

  /** The directories once the copy is made, cut short or not. */
  lemma CopyStages(d: Disk, root: u32, rank: map<nat, nat>, cb: nat, s: Slot, dir: u32, ps: seq<seq<byte>>, c: nat)
    requires FsOk(d, root, rank, cb, []) && Resolved(d, rank, s) && dir as nat in rank && c in rank && Destination(d, root, dir, ps)
    ensures CanCopy(d, FirstCluster(s), FileSize(s), ClustersFrom(d.fat, FirstCluster(s)), cb)
    ensures MayAdd(d, CopiedTo(d, root, s, dir, ps, cb), AdditionOf(d, root, dir, ps), CopyAdds(d, root, cb, s, dir, ps), c)
  {
    SourceCanCopy(d, rank, cb, s);
    CopyTook(d, s, cb);
    CopyStagesFrom(d, root, rank, cb, s, dir, ps, c, CopyTaken(d, s, cb), CopyClusters(d, s, cb));
  }

  lemma CopyStagesFrom(d: Disk, root: u32, rank: map<nat, nat>, cb: nat, s: Slot, dir: u32, ps: seq<seq<byte>>, c: nat, mid: Disk, ds: seq<nat>)
    requires TreeOk(d, root, rank, cb) && cb >= 2 * SLOT && dir as nat in rank && c in rank && Destination(d, root, dir, ps)
    requires CanCopy(d, FirstCluster(s), FileSize(s), ClustersFrom(d.fat, FirstCluster(s)), cb)
    requires ds == CopyClusters(d, s, cb) && mid == CopyTaken(d, s, cb) && Took(d, mid, ds)
    ensures MayAdd(d, CopiedTo(d, root, s, dir, ps, cb), AdditionOf(d, root, dir, ps), CopyAdds(d, root, cb, s, dir, ps), c)
  {
    TookDirs(d, mid, root, rank, cb, ds);
    if ds != [] {
      AddsAfterTaking(d, mid, root, rank, cb, dir, ps, ds, Meta(ATTR_ARCHIVE, ds[0], FileSize(s)), c);
    }
  }

  /** Every lookup in a known directory once the copy is made. */
  lemma LookupAfterCopy(d: Disk, root: u32, rank: map<nat, nat>, cb: nat, s: Slot, dir: u32, ps: seq<seq<byte>>, cwd: u32, c: seq<byte>)
    requires FsOk(d, root, rank, cb, []) && Resolved(d, rank, s) && dir as nat in rank && cwd as nat in rank && Destination(d, root, dir, ps)
    ensures CanCopy(d, FirstCluster(s), FileSize(s), ClustersFrom(d.fat, FirstCluster(s)), cb)
    ensures var a := AdditionOf(d, root, dir, ps);
      Lookup(Dir(CopiedTo(d, root, s, dir, ps, cb), cwd), c) ==
        if CopyAdds(d, root, cb, s, dir, ps) && AdditionWins(d, cwd, a, c) then Some(NewSlot(d, cwd, a.component)) else Lookup(Dir(d, cwd), c)
  {
    CopyStages(d, root, rank, cb, s, dir, ps, cwd);
    Ranked(d, root, rank, cb, cwd);
    if CopyAdds(d, root, cb, s, dir, ps) {
      LookupAfterAdding(d, CopiedTo(d, root, s, dir, ps, cb), AdditionOf(d, root, dir, ps), cwd, c);
    }
  }

  lemma FreeBesides(fat: seq<nat>, n: nat, missing: nat)
    requires n > 0 && Closed(fat) && Used(fat) + n + missing + 2 <= |fat|
    ensures Taken(fat, n) != [] && (missing > 0 ==> LeastFree(Grown(fat, Taken(fat, n)), 2) != 0)
  {
    TakenAll(fat, n);
    TakenFresh(fat, n);
    GrownCount(fat, Taken(fat, n));
    if missing > 0 {
      SomeFree(Grown(fat, Taken(fat, n)));
    }
  }

  /** With room the copy adds its entry. */
  lemma RoomAdds(d: Disk, root: u32, cb: nat, s: Slot, dir: u32, ps: seq<seq<byte>>)
    requires cb > 0 && Closed(d.fat) && CopyHasRoom(d, root, cb, s, dir, ps)
    ensures Destination(d, root, dir, ps) && CopyAdds(d, root, cb, s, dir, ps)
  {
    FreeBesides(d.fat, CopyAsks(FileSize(s), |ClustersFrom(d.fat, FirstCluster(s))|, cb), MissingDirs(d, root, dir, ps));
    OpenIsParts(d, root, dir, ps);
    OpenAdds(d, root, dir, ps, LeastFree(Grown(d.fat, CopyClusters(d, s, cb)), 2) != 0);
  }

  lemma {:induction false} OpenAdds(d: Disk, root: u32, dir: u32, ps: seq<seq<byte>>, free: bool)
    requires Open(d, root, dir, ps) && (MissingDirs(d, root, dir, ps) > 0 ==> free)
    ensures AddsFirst(d, root, dir, ps, free) && PlainBeyond(d, root, dir, ps)
    decreases |ps|
  {
    if |ps| > 1 {
      var r := LookupFrom(Dir(d, dir), ps[0], true, 0);
      if r.Some? {
        OpenAdds(d, root, Enter(root, Dir(d, dir)[r.value]), ps[1..], free);
      }
    }
  }

  lemma LookupAfterAdding(d: Disk, e: Disk, a: Addition, cwd: u32, c: seq<byte>)
    requires WellFormed(Dir(d, cwd))
    requires exists m: Meta :: m.attr != ATTR_LFN && AddsOnly(d, e, Addition(a.dir, a.component, m), cwd)
    ensures Lookup(Dir(e, cwd), c) ==
      if AdditionWins(d, cwd, a, c) then Some(NewSlot(d, cwd, a.component)) else Lookup(Dir(d, cwd), c)
  {
    var m: Meta :| m.attr != ATTR_LFN && AddsOnly(d, e, Addition(a.dir, a.component, m), cwd);
    if cwd as nat == a.dir {
      LookupAdded(d, e, cwd, a.component, m, c, NewWins(Dir(d, cwd), a.component, c));
    }
  }

  lemma LookupAdded(d: Disk, e: Disk, cwd: u32, component: seq<byte>, m: Meta, c: seq<byte>, wins: bool)
    requires WellFormed(Dir(d, cwd)) && m.attr != ATTR_LFN && AddsOnly(d, e, Addition(cwd, component, m), cwd)
    requires wins == NewWins(Dir(d, cwd), component, c)
    ensures Lookup(Dir(e, cwd), c) == if wins then Some(NewSlot(d, cwd, component)) else Lookup(Dir(d, cwd), c)
  {
    TopLookupFrom(d, e, Plan(cwd, [component]), m, c);
    TopWinsIs(d, Plan(cwd, [component]), c, wins);
  }

  /** The name would no longer lead to what it finds in the current directory: the entry that
      the copy adds there comes first and is named by it too. */
  ghost predicate MoveShadows(d: Disk, root: u32, cb: nat, cwd: u32, src: seq<byte>, s: Slot, dir: u32, ps: seq<seq<byte>>)
    requires cb > 0 && ps != [] && |d.fat| < END_MARK
  {
    CopyAdds(d, root, cb, s, dir, ps) && StepShadowed(d, cwd, src, AdditionOf(d, root, dir, ps))
  }

  /** The removal finds the source: it lies in the current directory, the whole name finds it
      there, and the copy's entry does not shadow it. */
  ghost predicate FindsSource(d: Disk, root: u32, cb: nat, cwd: u32, src: seq<byte>, f: Found, dir: u32, ps: seq<seq<byte>>)
    requires cb > 0 && ps != [] && |d.fat| < END_MARK
  {
    f.dir == cwd as nat && Lookup(Dir(d, cwd), src) == Some(f.slot) && !MoveShadows(d, root, cb, cwd, src, SlotAt(d, f), dir, ps)
  }

  /** For every source name, path or not, and with room or without: what the removal finds is the
      source exactly when the name finds it in the current directory and is not shadowed there. */
  lemma SourceFound(d: Disk, root: u32, rank: map<nat, nat>, cb: nat, cwd: u32, src: seq<byte>, f: Found, dir: u32, ps: seq<seq<byte>>)
    requires FsOk(d, root, rank, cb, []) && cwd as nat in rank && dir as nat in rank && IsFile(d, rank, f)
    requires Destination(d, root, dir, ps)
    ensures CanCopy(d, FirstCluster(SlotAt(d, f)), FileSize(SlotAt(d, f)), ClustersFrom(d.fat, FirstCluster(SlotAt(d, f))), cb)
    ensures f.dir == cwd as nat && Lookup(Dir(CopiedTo(d, root, SlotAt(d, f), dir, ps, cb), cwd), src) == Some(f.slot)
      <==> FindsSource(d, root, cb, cwd, src, f, dir, ps)
  {
    LookupAfterCopy(d, root, rank, cb, SlotAt(d, f), dir, ps, cwd, src);
    FoundIffUnshadowed(d, root, rank, cwd, src, f, AdditionOf(d, root, dir, ps), CopiedTo(d, root, SlotAt(d, f), dir, ps, cb),
                       CopyAdds(d, root, cb, SlotAt(d, f), dir, ps));
  }

  lemma FoundIffUnshadowed(d: Disk, root: u32, rank: map<nat, nat>, cwd: u32, src: seq<byte>, f: Found, a: Addition, e: Disk, adds: bool)
    requires IsFile(d, rank, f)
    requires Lookup(Dir(e, cwd), src) == if adds && AdditionWins(d, cwd, a, src) then Some(NewSlot(d, cwd, a.component)) else Lookup(Dir(d, cwd), src)
    ensures f.dir == cwd as nat && Lookup(Dir(e, cwd), src) == Some(f.slot)
      <==> f.dir == cwd as nat && Lookup(Dir(d, cwd), src) == Some(f.slot) && !(adds && StepShadowed(d, cwd, src, a))
  {
    if cwd as nat == a.dir && Place(Dir(d, cwd), a.component).Some? {
      NewSlotNotLive(d, cwd, a.component);
    }
  }

  lemma NewSlotNotLive(d: Disk, dir: nat, component: seq<byte>)
    requires Place(Dir(d, dir), component).Some?
    ensures !Live(Dir(d, dir)[NewSlot(d, dir, component)])
  {
  }

  /** So the source's entry is gone after the move exactly when the removal finds it. */
  lemma SourceGone(d: Disk, root: u32, rank: map<nat, nat>, cb: nat, cwd: u32, src: seq<byte>, f: Found, dir: u32, ps: seq<seq<byte>>)
    requires FsOk(d, root, rank, cb, []) && cwd as nat in rank && dir as nat in rank && IsFile(d, rank, f)
    requires Destination(d, root, dir, ps)
    ensures CanCopy(d, FirstCluster(SlotAt(d, f)), FileSize(SlotAt(d, f)), ClustersFrom(d.fat, FirstCluster(SlotAt(d, f))), cb)
    ensures var e := CopiedTo(d, root, SlotAt(d, f), dir, ps, cb);
      Closed(e.fat) && (KnownSlot(RemovedByName(e, cwd, src), rank, f) <==> !FindsSource(d, root, cb, cwd, src, f, dir, ps))
  {
    SourceFound(d, root, rank, cb, cwd, src, f, dir, ps);
    CopyKeepsFs(d, root, rank, cb, SlotAt(d, f), dir, ps);
    GoneWhenFound(d, CopiedTo(d, root, SlotAt(d, f), dir, ps, cb), root, rank, cb, CopyClusters(d, SlotAt(d, f), cb), cwd, src, f,
                  CopyLanding(d, root, SlotAt(d, f), dir, ps, cb));
  }

  lemma GoneWhenFound(d: Disk, e: Disk, root: u32, rank: map<nat, nat>, cb: nat, ds: seq<nat>, cwd: u32, src: seq<byte>, f: Found, at: Option<Found>)
    requires AddedOrNot(d, e, root, rank, cb, ds, at) && cwd as nat in rank && IsFile(d, rank, f)
    ensures Closed(e.fat)
    ensures KnownSlot(RemovedByName(e, cwd, src), rank, f) <==> !(f.dir == cwd as nat && Lookup(Dir(e, cwd), src) == Some(f.slot))
  {
    var more: map<nat, nat> := KnownAfter(d, e, root, rank, cb, ds, at);
    var j := Lookup(Dir(e, cwd), src);
    if j.Some? {
      StartKnown(e, more, cwd, src);
      RemoveReady(e, root, more, cb, cwd, src, j.value);
      RemovedDirsAll(e, root, more, cb, Found(cwd, j.value));
      ClearedKnown(e, RemovedByName(e, cwd, src), root, rank, more, cb, Found(cwd, j.value), f);
    }
  }

  lemma KnownAfter(d: Disk, e: Disk, root: u32, rank: map<nat, nat>, cb: nat, ds: seq<nat>, at: Option<Found>) returns (more: map<nat, nat>)
    requires AddedOrNot(d, e, root, rank, cb, ds, at)
    ensures FsOk(e, root, more, cb, []) && (forall c :: c in rank ==> c in more) && FilesKept(d, e, rank, more)
  {
    match at
    case Some(f) => more :| FileAdded(d, e, root, rank, more, cb, ds, f);
    case None => more :| SameFiles(d, e, root, rank, more, cb);
  }

  lemma ClearedKnown(e: Disk, r: Disk, root: u32, rank: map<nat, nat>, more: map<nat, nat>, cb: nat, at: Found, f: Found)
    requires TreeOk(e, root, more, cb) && KnownSlot(e, more, at) && KnownSlot(e, rank, f) && f.dir in more && OneCleared(e, r, more, at)
    ensures KnownSlot(r, rank, f) <==> f != at
  {
    Ranked(e, root, more, cb, at.dir);
    if f.dir == at.dir {
      ClearedSlots(Dir(e, at.dir), at.slot, f.slot);
    }
  }

  // ---- the source is found ----

  /** No step of the path, as far as it goes, finds the entry at f. */
  predicate PassesBy(e: Disk, root: u32, dir: u32, ps: seq<seq<byte>>, f: Found)
    decreases |ps|
  {
    ps != [] && ps[0] != [] ==>
      match Lookup(Dir(e, dir), ps[0])
      case None => true
      case Some(j) =>
        && Found(dir, j) != f
        && (|ps| > 1 && IsDirectory(Dir(e, dir)[j]) ==> PassesBy(e, root, Enter(root, Dir(e, dir)[j]), ps[1..], f))
  }

  /** A name that found nothing finds nothing after a removal either. */
  lemma RemovalKeepsMisses(D: seq<Slot>, i: nat, c: seq<byte>)
    requires WellFormed(D) && i < |D| && Short(D[i]) && Lookup(D, c) == None
    ensures Lookup(Cleared(D, i), c) == None
  {
    var E := Cleared(D, i);
    var r := Lookup(E, c);
    if r.Some? {
      ClearedSlots(D, i, r.value);
      RemoveFrame(D, i, r.value);
      RemoveKeepsWellFormed(D, i);
      LookupFails(D, c, 0);
    }
  }

  /** One step of a path that does not find the removed entry is the same after the removal. */
  lemma SameStep(d: Disk, e: Disk, root: u32, rank: map<nat, nat>, cb: nat, at: Found, q: u32, c: seq<byte>)
    requires TreeOk(d, root, rank, cb) && IsFile(d, rank, at) && q as nat in rank && OneCleared(d, e, rank, at)
    requires Lookup(Dir(d, q), c).Some? ==> Found(q, Lookup(Dir(d, q), c).value) != at
    ensures Lookup(Dir(e, q), c) == Lookup(Dir(d, q), c) && SlotKept(d, e, q, c)
  {
    var j := Lookup(Dir(d, q), c);
    Ranked(d, root, rank, cb, q);
    if q as nat == at.dir {
      if j == None {
        RemovalKeepsMisses(Dir(d, q), at.slot, c);
      } else {
        RemovalKeepsLookups(Dir(d, q), at.slot, c, j.value);
        ClearedSlots(Dir(d, q), at.slot, j.value);
      }
    }
  }

  /** A path that passes the removed entry by is the same path after the removal. */
  lemma {:induction false} RemovalKeepsWalk(d: Disk, e: Disk, root: u32, rank: map<nat, nat>, cb: nat, at: Found, q: u32, qs: seq<seq<byte>>)
    requires TreeOk(d, root, rank, cb) && IsFile(d, rank, at) && q as nat in rank && OneCleared(d, e, rank, at)
    requires PassesBy(d, root, q, qs, at)
    ensures Trace(e, root, q, qs) == Trace(d, root, q, qs)
    decreases |qs|
  {
    if qs != [] && qs[0] != [] {
      SameStep(d, e, root, rank, cb, at, q, qs[0]);
      var j := Lookup(Dir(d, q), qs[0]);
      if |qs| > 1 && j.Some? && IsDirectory(Dir(d, q)[j.value]) {
        StepDown(d, root, rank, cb, q, qs[0]);
        RemovalKeepsWalk(d, e, root, rank, cb, at, Enter(root, Dir(d, q)[j.value]), qs[1..]);
      }
      SameWalk(d, e, root, q, qs);
    }
  }

  /** Paths whose first steps agree agree when their rests do. */
  lemma SameWalk(d: Disk, e: Disk, root: u32, q: u32, qs: seq<seq<byte>>)
    requires qs != [] && qs[0] != [] && Lookup(Dir(e, q), qs[0]) == Lookup(Dir(d, q), qs[0]) && SlotKept(d, e, q, qs[0])
    requires |qs| > 1 && Lookup(Dir(d, q), qs[0]).Some? && IsDirectory(Dir(d, q)[Lookup(Dir(d, q), qs[0]).value]) ==>
      var next := Enter(root, Dir(d, q)[Lookup(Dir(d, q), qs[0]).value]); Trace(e, root, next, qs[1..]) == Trace(d, root, next, qs[1..])
    ensures Trace(e, root, q, qs) == Trace(d, root, q, qs)
  {
    var j := Lookup(Dir(d, q), qs[0]);
    if |qs| > 1 && j.Some? && IsDirectory(Dir(d, q)[j.value]) {
      TraceStep(d, root, q, qs, j.value);
      TraceStep(e, root, q, qs, j.value);
    }
  }

  /** A file that leads nowhere else is led to as before when another is removed. */
  lemma LeadsAfterRemoval(e: Disk, r: Disk, root: u32, rank: map<nat, nat>, cb: nat, f: Found, dir: u32, ps: seq<seq<byte>>, at: Found)
    requires TreeOk(e, root, rank, cb) && IsFile(e, rank, f) && dir as nat in rank && OneCleared(e, r, rank, f) && at != f
    ensures LeadsTo(e, root, dir, ps, at) ==> LeadsTo(r, root, dir, ps, at)
    ensures PassesBy(e, root, dir, ps, f) ==> LeadsTo(r, root, dir, ps, at) == LeadsTo(e, root, dir, ps, at)
  {
    if LeadsTo(e, root, dir, ps, at) {
      TraceStarts(e, root, dir, ps);
      RemovalKeepsTrace(e, r, root, rank, cb, f, dir, ps);
    }
    if PassesBy(e, root, dir, ps, f) {
      RemovalKeepsWalk(e, r, root, rank, cb, f, dir, ps);
    }
  }

  /** The source at f is gone and its clusters with it, the file at `at` reads as its bytes, the
      path leads there where the walk of the disk before arrives, and every other file is as before. */
  ghost predicate Moved(d: Disk, e: Disk, r: Disk, root: u32, rank: map<nat, nat>, more: map<nat, nat>, cb: nat, f: Found,
                        dir: u32, ps: seq<seq<byte>>, ds: seq<nat>, at: Found)
  {
    && FsOk(r, root, more, cb, []) && (forall c :: c in rank ==> c in more)
    && !IsFile(r, more, f) && MoveKeeps(d, r, rank, more, f)
    && (forall x :: x in ChainAt(d, f) ==> x < |r.fat| && r.fat[x] == 0)
    && at != f && ps != [] && HoldsAt(r, at, ps[|ps| - 1], Head(ds), Content(d, SlotAt(d, f)))
    && MovedLeads(d, e, r, root, f, dir, ps, at)
  }

  /** Where the path leads after the move. */
  ghost predicate MovedLeads(d: Disk, e: Disk, r: Disk, root: u32, f: Found, dir: u32, ps: seq<seq<byte>>, at: Found) {
    var arrives := Arrives(d, root, PlanOf(d, root, dir, ps), Known(dir), ps);
    && (arrives ==> LeadsTo(r, root, dir, ps, at))
    && (PassesBy(e, root, dir, ps, f) ==> LeadsTo(r, root, dir, ps, at) == arrives)
  }

  ghost predicate MoveKeeps(d: Disk, r: Disk, rank: map<nat, nat>, more: map<nat, nat>, at: Found) {
    forall f :: IsFile(d, rank, f) && f != at ==> FileKept(d, r, more, f)
  }

  lemma MoveKeepsOthers(d: Disk, e: Disk, r: Disk, rank: map<nat, nat>, more: map<nat, nat>, at: Found)
    requires FilesKept(d, e, rank, more) && OthersKept(e, r, more, at)
    ensures MoveKeeps(d, r, rank, more, at)
  {
    forall f | IsFile(d, rank, f) && f != at
      ensures FileKept(d, r, more, f)
    {
      assert FileKept(d, e, more, f) && FileKept(e, r, more, f);
    }
  }

  lemma FreedAfterwards(d: Disk, e: Disk, r: Disk, more: map<nat, nat>, at: Found)
    requires FileKept(d, e, more, at) && r.fat == Zeroed(e.fat, ChainAt(e, at))
    ensures forall x :: x in ChainAt(d, at) ==> x < |r.fat| && r.fat[x] == 0
  {
    ChainInTable(e.fat, FirstCluster(SlotAt(e, at)));
  }

  /** What the addition of the copy leaves for the removal to start from. */
  lemma AddedGives(d: Disk, e: Disk, root: u32, rank: map<nat, nat>, more: map<nat, nat>, cb: nat, ds: seq<nat>, at: Found, f: Found)
    requires FileAdded(d, e, root, rank, more, cb, ds, at) && IsFile(d, rank, f)
    ensures FileKept(d, e, more, f) && IsFile(e, more, f) && IsFile(e, more, at) && at != f
    ensures TreeOk(e, root, more, cb) && FsOk(e, root, more, cb, []) && Closed(e.fat)
    ensures FilesKept(d, e, rank, more) && forall c :: c in rank ==> c in more
  {
  }

  /** What the removal of a file by name amounts to. */
  lemma RemovalGives(e: Disk, root: u32, rank: map<nat, nat>, cb: nat, cwd: u32, src: seq<byte>, j: nat)
    requires FsOk(e, root, rank, cb, []) && IsFile(e, rank, Found(cwd, j)) && Lookup(Dir(e, cwd), src) == Some(j)
    ensures var r := RemovedByName(e, cwd, src);
      && FileGone(e, r, root, rank, cb, Found(cwd, j)) && OneCleared(e, r, rank, Found(cwd, j))
  {
    RemoveByName(e, root, rank, cb, cwd, src, j);
    RemoveDropsFile(e, root, rank, cb, Found(cwd, j));
    RemovedDirsAll(e, root, rank, cb, Found(cwd, j));
  }

  lemma GoneGives(e: Disk, r: Disk, root: u32, rank: map<nat, nat>, cb: nat, f: Found)
    requires FileGone(e, r, root, rank, cb, f)
    ensures FsOk(r, root, rank, cb, []) && !IsFile(r, rank, f) && OthersKept(e, r, rank, f) && NoNewFiles(e, r, rank, rank)
    ensures r.fat == Zeroed(e.fat, ChainAt(e, f))
  {
  }

  /** The second half of a move: the copy is in place and the source is removed. */
  lemma MoveRemoves(d: Disk, e: Disk, r: Disk, root: u32, rank: map<nat, nat>, more: map<nat, nat>, cb: nat, f: Found,
                    dir: u32, ps: seq<seq<byte>>, ds: seq<nat>, at: Found, arrives: bool)
    requires TreeOk(e, root, more, cb) && IsFile(e, more, f) && IsFile(e, more, at) && at != f && dir as nat in more && ps != []
    requires FileKept(d, e, more, f) && FilesKept(d, e, rank, more) && forall c :: c in rank ==> c in more
    requires HoldsAt(e, at, ps[|ps| - 1], Head(ds), Content(d, SlotAt(d, f)))
    requires arrives == Arrives(d, root, PlanOf(d, root, dir, ps), Known(dir), ps) && LeadsTo(e, root, dir, ps, at) == arrives
    requires FsOk(r, root, more, cb, []) && !IsFile(r, more, f) && OthersKept(e, r, more, f) && r.fat == Zeroed(e.fat, ChainAt(e, f))
    requires OneCleared(e, r, more, f)
    ensures Moved(d, e, r, root, rank, more, cb, f, dir, ps, ds, at)
  {
    LeadsAfterRemoval(e, r, root, more, cb, f, dir, ps, at);
    CopyStays(e, r, root, more, cb, f, at, ps[|ps| - 1], Head(ds), Content(d, SlotAt(d, f)));
    MovedWhen(d, e, r, root, rank, more, cb, f, dir, ps, ds, at);
  }

  lemma CopyStays(e: Disk, r: Disk, root: u32, rank: map<nat, nat>, cb: nat, f: Found, at: Found, name: seq<byte>, head: nat, bytes: seq<byte>)
    requires TreeOk(e, root, rank, cb) && IsFile(e, rank, f) && IsFile(e, rank, at) && at != f
    requires OneCleared(e, r, rank, f) && OthersKept(e, r, rank, f) && HoldsAt(e, at, name, head, bytes)
    ensures HoldsAt(r, at, name, head, bytes)
  {
    FileDirOk(e, root, rank, cb, f);
    HoldsAfterRemoval(e, r, rank, f, at, name, head, bytes);
  }

  lemma MovedWhen(d: Disk, e: Disk, r: Disk, root: u32, rank: map<nat, nat>, more: map<nat, nat>, cb: nat, f: Found,
                  dir: u32, ps: seq<seq<byte>>, ds: seq<nat>, at: Found)
    requires FilesKept(d, e, rank, more) && FileKept(d, e, more, f)
    requires FsOk(r, root, more, cb, []) && !IsFile(r, more, f) && OthersKept(e, r, more, f) && r.fat == Zeroed(e.fat, ChainAt(e, f))
    requires (forall c :: c in rank ==> c in more) && at != f
    requires ps != [] && HoldsAt(r, at, ps[|ps| - 1], Head(ds), Content(d, SlotAt(d, f))) && MovedLeads(d, e, r, root, f, dir, ps, at)
    ensures Moved(d, e, r, root, rank, more, cb, f, dir, ps, ds, at)
  {
    MoveKeepsOthers(d, e, r, rank, more, f);
    FreedAfterwards(d, e, r, more, f);
  }

  lemma MoveWhole(d: Disk, e: Disk, root: u32, rank: map<nat, nat>, more: map<nat, nat>, cb: nat, cwd: u32, src: seq<byte>, j: nat,
                  dir: u32, ps: seq<seq<byte>>, ds: seq<nat>, at: Found, arrives: bool)
    requires FileAdded(d, e, root, rank, more, cb, ds, at) && IsFile(d, rank, Found(cwd, j)) && dir as nat in rank && ps != []
    requires HoldsAt(e, at, ps[|ps| - 1], Head(ds), Content(d, SlotAt(d, Found(cwd, j))))
    requires arrives == Arrives(d, root, PlanOf(d, root, dir, ps), Known(dir), ps) && LeadsTo(e, root, dir, ps, at) == arrives
    requires Lookup(Dir(e, cwd), src) == Some(j)
    ensures Closed(e.fat) && Moved(d, e, RemovedByName(e, cwd, src), root, rank, more, cb, Found(cwd, j), dir, ps, ds, at)
  {
    var f := Found(cwd, j);
    AddedGives(d, e, root, rank, more, cb, ds, at, f);
    RemovalGives(e, root, more, cb, cwd, src, j);
    GoneGives(e, RemovedByName(e, cwd, src), root, more, cb, f);
    MoveRemoves(d, e, RemovedByName(e, cwd, src), root, rank, more, cb, f, dir, ps, ds, at, arrives);
  }

  lemma MoveMade(d: Disk, e: Disk, root: u32, rank: map<nat, nat>, cb: nat, cwd: u32, src: seq<byte>, j: nat,
                 dir: u32, ps: seq<seq<byte>>, ds: seq<nat>)
    requires IsFile(d, rank, Found(cwd, j)) && dir as nat in rank
    requires Wrote(d, e, root, rank, cb, dir, ps, ds, Content(d, SlotAt(d, Found(cwd, j))))
    requires Lookup(Dir(e, cwd), src) == Some(j)
    ensures Closed(e.fat)
    ensures exists more, at :: Moved(d, e, RemovedByName(e, cwd, src), root, rank, more, cb, Found(cwd, j), dir, ps, ds, at)
  {
    var at :| WroteTo(d, e, root, rank, cb, dir, ps, ds, Content(d, SlotAt(d, Found(cwd, j))), at);
    MoveAt(d, e, root, rank, cb, cwd, src, j, dir, ps, ds, at);
  }

  lemma MoveAt(d: Disk, e: Disk, root: u32, rank: map<nat, nat>, cb: nat, cwd: u32, src: seq<byte>, j: nat,
               dir: u32, ps: seq<seq<byte>>, ds: seq<nat>, at: Found)
    requires IsFile(d, rank, Found(cwd, j)) && dir as nat in rank && ps != []
    requires WroteTo(d, e, root, rank, cb, dir, ps, ds, Content(d, SlotAt(d, Found(cwd, j))), at)
    requires Lookup(Dir(e, cwd), src) == Some(j)
    ensures Closed(e.fat)
    ensures exists more :: Moved(d, e, RemovedByName(e, cwd, src), root, rank, more, cb, Found(cwd, j), dir, ps, ds, at)
  {
    var more :| FileAdded(d, e, root, rank, more, cb, ds, at);
    MoveWhole(d, e, root, rank, more, cb, cwd, src, j, dir, ps, ds, at, Arrives(d, root, PlanOf(d, root, dir, ps), Known(dir), ps));
  }

  /** A move whose removal finds the source, with room for the copy: the source is gone, its
      clusters are free, the copy reads as the source did, all other files are as before. */
  lemma MoveMoves(d: Disk, root: u32, rank: map<nat, nat>, cb: nat, cwd: u32, src: seq<byte>, f: Found, dir: u32, ps: seq<seq<byte>>)
    requires FsOk(d, root, rank, cb, []) && cwd as nat in rank && dir as nat in rank && IsFile(d, rank, f)
    requires CopyReady(d, SlotAt(d, f), cb) && CopyHasRoom(d, root, cb, SlotAt(d, f), dir, ps)
    requires Destination(d, root, dir, ps) && FindsSource(d, root, cb, cwd, src, f, dir, ps)
    ensures var s := SlotAt(d, f);
      var e := CopiedTo(d, root, s, dir, ps, cb);
      && Closed(e.fat)
      && exists more, at :: Moved(d, e, RemovedByName(e, cwd, src), root, rank, more, cb, f, dir, ps, CopyClusters(d, s, cb), at)
  {
    var s := SlotAt(d, f);
    CopyFillsFile(d, s, cb);
    CopyOf(d, root, rank, cb, s, dir, ps);
    SourceFound(d, root, rank, cb, cwd, src, f, dir, ps);
    MoveMade(d, CopiedTo(d, root, s, dir, ps, cb), root, rank, cb, cwd, src, f.slot, dir, ps, CopyClusters(d, s, cb));
  }

  /** The source's name afterwards: it finds nothing in the current directory exactly when no
      other entry there matches it, the copy's included. */
  lemma NameAfterMove(d: Disk, e: Disk, a: Addition, cwd: u32, src: seq<byte>, j: nat)
    requires WellFormed(Dir(d, cwd)) && WellFormed(Dir(e, cwd)) && Lookup(Dir(e, cwd), src) == Some(j) && Lookup(Dir(d, cwd), src) == Some(j)
    requires exists m: Meta :: m.attr != ATTR_LFN && AddsOnly(d, e, Addition(a.dir, a.component, m), cwd)
    ensures Lookup(Cleared(Dir(e, cwd), j), src) == None <==>
      NoOther(Dir(d, cwd), j, src) && !(a.dir == cwd as nat && NamesEntry(a.component, src))
  {
    var m: Meta :| m.attr != ATTR_LFN && AddsOnly(d, e, Addition(a.dir, a.component, m), cwd);
    RemovedNameGone(Dir(e, cwd), j, src);
    if a.dir == cwd as nat {
      OthersWithNew(Dir(d, cwd), Dir(e, cwd), a.component, m, src, j, NamesEntry(a.component, src));
    }
  }

  lemma OthersWithNew(D: seq<Slot>, E: seq<Slot>, component: seq<byte>, m: Meta, c: seq<byte>, j: nat, named: bool)
    requires WellFormed(D) && m.attr != ATTR_LFN && IsComponent(component) && LongSlots(component) <= 31 && Place(D, component).Some?
    requires E == Written(D, Place(D, component).value, component, m.attr, m.cluster, m.size)
    requires j < |D| && Short(D[j]) && named == NamesEntry(component, c)
    ensures NoOther(E, j, c) <==> NoOther(D, j, c) && !named
  {
    var si := NewMatches(D, E, component, m, c, named);
    OthersMatch(D, E, si, j, c);
  }

  lemma NewMatches(D: seq<Slot>, E: seq<Slot>, component: seq<byte>, m: Meta, c: seq<byte>, named: bool) returns (si: nat)
    requires WellFormed(D) && m.attr != ATTR_LFN && IsComponent(component) && LongSlots(component) <= 31 && Place(D, component).Some?
    requires E == Written(D, Place(D, component).value, component, m.attr, m.cluster, m.size) && named == NamesEntry(component, c)
    ensures OneMore(D, E, si) && Matches(E, si, c) == named && !Short(D[si])
  {
    si := Place(D, component).value + LongSlots(component);
    AddIsOneMore(D, component, m.attr, m.cluster, m.size);
    NewEntryMatches(D, Place(D, component).value, component, m.attr, m.cluster, m.size, c);
  }

  /** With one more entry, another than entry j matches exactly when one did before or the new one does. */
  lemma OthersMatch(D: seq<Slot>, E: seq<Slot>, si: nat, j: nat, c: seq<byte>)
    requires OneMore(D, E, si) && j != si
    ensures NoOther(E, j, c) <==> NoOther(D, j, c) && !Matches(E, si, c)
  {
    forall i: nat | i < |D| && i != si && (Short(D[i]) || Short(E[i]))
      ensures SameEntry(D, E, i)
    {
    }
  }

  // ---- the source is not found ----

  /** Shadowed, the name leads to the entry the copy added. */
  lemma ShadowedFindsNew(d: Disk, root: u32, rank: map<nat, nat>, cb: nat, cwd: u32, src: seq<byte>, s: Slot, dir: u32, ps: seq<seq<byte>>)
    requires FsOk(d, root, rank, cb, []) && Resolved(d, rank, s) && dir as nat in rank && cwd as nat in rank
    requires Destination(d, root, dir, ps) && MoveShadows(d, root, cb, cwd, src, s, dir, ps)
    ensures CanCopy(d, FirstCluster(s), FileSize(s), ClustersFrom(d.fat, FirstCluster(s)), cb)
    ensures var a := AdditionOf(d, root, dir, ps);
      Lookup(Dir(CopiedTo(d, root, s, dir, ps, cb), cwd), src) == Some(NewSlot(d, cwd, a.component))
  {
    LookupAfterCopy(d, root, rank, cb, s, dir, ps, cwd, src);
  }

  /** With no directory to make, the addition is the copy's own entry. */
  lemma AdditionIsCopy(d: Disk, root: u32, rank: map<nat, nat>, cb: nat, s: Slot, dir: u32, ps: seq<seq<byte>>)
    requires FsOk(d, root, rank, cb, []) && Resolved(d, rank, s) && dir as nat in rank && CopyHasRoom(d, root, cb, s, dir, ps)
    requires |Lacking(d, root, dir, ps)| == 1
    ensures CanCopy(d, FirstCluster(s), FileSize(s), ClustersFrom(d.fat, FirstCluster(s)), cb)
    ensures var a := AdditionOf(d, root, dir, ps);
      && Place(Dir(d, a.dir), a.component).Some?
      && CopyLanding(d, root, s, dir, ps, cb) == Some(Found(a.dir, NewSlot(d, a.dir, a.component)))
  {
    SourceCanCopy(d, rank, cb, s);
    CopyTook(d, s, cb);
    var ds, mid := CopyClusters(d, s, cb), CopyTaken(d, s, cb);
    TakenAll(d.fat, CopyAsks(FileSize(s), |ClustersFrom(d.fat, FirstCluster(s))|, cb));
    TookCanCreate(d, mid, root, rank, cb, dir, ps, ds);
    TookDirs(d, mid, root, rank, cb, ds);
    LandsAtTop(d, mid, root, rank, cb, dir, ps);
  }

  lemma LandsAtTop(d: Disk, mid: Disk, root: u32, rank: map<nat, nat>, cb: nat, dir: u32, ps: seq<seq<byte>>)
    requires TreeOk(mid, root, rank, cb) && dir as nat in rank && forall c :: c in rank ==> Dir(mid, c) == Dir(d, c)
    requires CanCreate(mid, root, dir, ps, cb / SLOT) && PlanOf(mid, root, dir, ps) == PlanOf(d, root, dir, ps)
    requires ps != [] && |PlanOf(d, root, dir, ps).comps| == 1 && |d.fat| < END_MARK
    ensures var a := AdditionOf(d, root, dir, ps);
      Place(Dir(d, a.dir), a.component).Some? && Landing(mid, root, dir, ps, cb / SLOT) == Some(Found(a.dir, NewSlot(d, a.dir, a.component)))
  {
    var p := PlanOf(d, root, dir, ps);
    PlanIsAddition(d, root, dir, ps);
    CreateAtTop(mid, root, rank, cb, dir, ps, Meta(ATTR_ARCHIVE, 0, 0));
    LandsHere(d, mid, root, p, AdditionOf(d, root, dir, ps), cb / SLOT);
  }

  lemma LandsHere(d: Disk, mid: Disk, root: u32, p: Plan, a: Addition, n: nat)
    requires |mid.fat| == |mid.data| && |mid.fat| < END_MARK && CanCreate(mid, root, p.top, p.comps, n) && |p.comps| == 1
    requires a.dir == p.top && a.component == p.comps[0] && Dir(mid, p.top) == Dir(d, p.top)
    ensures Place(Dir(d, a.dir), a.component).Some?
    ensures Landing(mid, root, p.top, p.comps, n) == Some(Found(a.dir, NewSlot(d, a.dir, a.component)))
  {
  }

  /** A new file removed again leaves the files as they were. */
  lemma AddedThenGone(d: Disk, e: Disk, r: Disk, root: u32, rank: map<nat, nat>, more: map<nat, nat>, cb: nat, at: Found)
    requires FilesKept(d, e, rank, more) && OnlyNew(d, e, rank, more, at) && forall c :: c in rank ==> c in more
    requires FsOk(r, root, more, cb, []) && !IsFile(r, more, at) && OthersKept(e, r, more, at) && NoNewFiles(e, r, more, more)
    ensures SameFiles(d, r, root, rank, more, cb)
  {
    KeptThenGone(d, e, r, rank, more, at);
    NoneNewThen(d, e, r, rank, more, at);
  }

  lemma KeptThenGone(d: Disk, e: Disk, r: Disk, rank: map<nat, nat>, more: map<nat, nat>, at: Found)
    requires FilesKept(d, e, rank, more) && !IsFile(d, rank, at) && OthersKept(e, r, more, at)
    ensures FilesKept(d, r, rank, more)
  {
    forall f | IsFile(d, rank, f)
      ensures FileKept(d, r, more, f)
    {
      assert FileKept(d, e, more, f) && f != at;
      assert FileKept(e, r, more, f);
    }
  }

  lemma NoneNewThen(d: Disk, e: Disk, r: Disk, rank: map<nat, nat>, more: map<nat, nat>, at: Found)
    requires OnlyNew(d, e, rank, more, at) && !IsFile(r, more, at) && NoNewFiles(e, r, more, more)
    ensures NoNewFiles(d, r, rank, more)
  {
    forall f | IsFile(r, more, f)
      ensures IsFile(d, rank, f)
    {
      assert IsFile(e, more, f) && f != at;
    }
  }

  /** The move removes the very copy it made, and every file, the source included, is as before. */
  ghost predicate UndoesItself(d: Disk, root: u32, rank: map<nat, nat>, cb: nat, cwd: u32, src: seq<byte>, s: Slot, dir: u32, ps: seq<seq<byte>>)
    requires |d.fat| == |d.data| && |d.fat| < END_MARK && cb > 0
  {
    && CanCopy(d, FirstCluster(s), FileSize(s), ClustersFrom(d.fat, FirstCluster(s)), cb)
    && var e, at := CopiedTo(d, root, s, dir, ps, cb), CopyLanding(d, root, s, dir, ps, cb);
    && at.Some? && at.value.dir == cwd as nat && Lookup(Dir(e, cwd), src) == Some(at.value.slot)
    && Closed(e.fat) && exists more :: SameFiles(d, RemovedByName(e, cwd, src), root, rank, more, cb)
  }

  /** A shadowed move with no directory to make undoes itself. */
  lemma ShadowedMoveUndone(d: Disk, root: u32, rank: map<nat, nat>, cb: nat, cwd: u32, src: seq<byte>, s: Slot, dir: u32, ps: seq<seq<byte>>)
    requires FsOk(d, root, rank, cb, []) && Resolved(d, rank, s) && dir as nat in rank && cwd as nat in rank
    requires CopyHasRoom(d, root, cb, s, dir, ps) && Destination(d, root, dir, ps)
    requires MoveShadows(d, root, cb, cwd, src, s, dir, ps) && |Lacking(d, root, dir, ps)| == 1
    ensures UndoesItself(d, root, rank, cb, cwd, src, s, dir, ps)
  {
    ShadowedFindsNew(d, root, rank, cb, cwd, src, s, dir, ps);
    AdditionIsCopy(d, root, rank, cb, s, dir, ps);
    CopyParts(d, root, cb, s, dir, ps);
    CopyKeepsFs(d, root, rank, cb, s, dir, ps);
    CopyUndone(d, CopiedTo(d, root, s, dir, ps, cb), root, rank, cb, CopyClusters(d, s, cb), cwd, src, CopyLanding(d, root, s, dir, ps, cb).value);
  }

  lemma CopyUndone(d: Disk, e: Disk, root: u32, rank: map<nat, nat>, cb: nat, ds: seq<nat>, cwd: u32, src: seq<byte>, at: Found)
    requires AddedOrNot(d, e, root, rank, cb, ds, Some(at)) && cwd as nat in rank
    requires at.dir == cwd as nat && Lookup(Dir(e, cwd), src) == Some(at.slot)
    ensures Closed(e.fat) && exists more :: SameFiles(d, RemovedByName(e, cwd, src), root, rank, more, cb)
  {
    var more :| FileAdded(d, e, root, rank, more, cb, ds, at);
    RemoveByName(e, root, more, cb, cwd, src, at.slot);
    GoneGives(e, RemovedByName(e, cwd, src), root, more, cb, at);
    AddedThenGone(d, e, RemovedByName(e, cwd, src), root, rank, more, cb, at);
  }

  /** An open path is made of components. */
  lemma {:induction false} OpenIsParts(d: Disk, root: u32, dir: u32, ps: seq<seq<byte>>)
    requires Open(d, root, dir, ps)
    ensures Parts(ps)
    decreases |ps|
  {
    if |ps| == 1 {
      assert Parts(ps[1..]);
    } else {
      var r := LookupFrom(Dir(d, dir), ps[0], true, 0);
      if r.Some? {
        OpenIsParts(d, root, Enter(root, Dir(d, dir)[r.value]), ps[1..]);
      } else {
        PlainIsParts(ps[1..]);
      }
    }
  }

  lemma {:induction false} PlainIsParts(ps: seq<seq<byte>>)
    requires PlainComponents(ps)
    ensures Parts(ps)
  {
    if ps != [] {
      PlainRest(ps);
      PlainIsParts(ps[1..]);
    }
  }

  lemma CopyParts(d: Disk, root: u32, cb: nat, s: Slot, dir: u32, ps: seq<seq<byte>>)
    requires cb > 0 && CopyHasRoom(d, root, cb, s, dir, ps)
    ensures Parts(ps)
  {
    OpenIsParts(d, root, dir, ps);
  }

  /** An absolute name finds nothing in any directory: its alias and its text begin with a slash. */
  lemma AbsoluteFindsNothing(d: Disk, root: u32, rank: map<nat, nat>, cb: nat, dir: nat, name: seq<byte>)
    requires TreeOk(d, root, rank, cb) && dir in rank && name != [] && name[0] == SLASH
    ensures Lookup(Dir(d, dir), name) == None
  {
    assert DirOk(d, root, rank, cb, dir);
    var r := Lookup(Dir(d, dir), name);
    if r.Some? {
      NoMatchForPath(Dir(d, dir), r.value, name);
    }
  }

  lemma NoMatchForPath(D: seq<Slot>, j: nat, name: seq<byte>)
    requires j < |D| && Short(D[j]) && SlashFree(D) && name != [] && name[0] == SLASH
    ensures !Matches(D, j, name)
  {
    var full := FullName(D, j);
    assert Short83(name)[0] == SLASH;
    assert Alias(D[j])[0] in Alias(D[j]);
    if full != [] {
      assert full[0] in full;
      assert LowerAll(full)[0] != LowerAll(name)[0];
    }
  }

  /** So a move by an absolute name removes nothing at all: the source stays beside its copy. */
  lemma AbsoluteMoveCopies(e: Disk, root: u32, rank: map<nat, nat>, cb: nat, cwd: u32, src: seq<byte>)
    requires FsOk(e, root, rank, cb, []) && cwd as nat in rank && src != [] && src[0] == SLASH
    ensures RemovedByName(e, cwd, src) == e
  {
    AbsoluteFindsNothing(e, root, rank, cb, cwd, src);
  }

  /** A first component of eight characters without a dot stands for the whole path in a match
      against an entry without a long name: rm of SUBDIREC/A finds SUBDIREC itself. */
  lemma EightCharsStandForPath(D: seq<Slot>, j: nat, p: seq<byte>, rest: seq<byte>)
    requires j < |D| && RunLen(D, j) == 0 && |p| == 8 && forall i :: 0 <= i < 8 ==> p[i] != DOT
    ensures Matches(D, j, p + [SLASH] + rest) <==> Matches(D, j, p)
  {
    var path := p + [SLASH] + rest;
    assert path[..8] == p == p[..8];
    assert forall i :: 0 <= i < 8 ==> path[i] == p[i];
    FullBase(p);
    FullBase(path);
  }

  /** No long name equals a path: it has no slash. */
  lemma LongNameIsNoPath(D: seq<Slot>, j: nat, p: seq<byte>, rest: seq<byte>)
    requires j < |D| && Short(D[j]) && SlashFree(D) && RunLen(D, j) > 0
    ensures !Matches(D, j, p + [SLASH] + rest)
  {
    var path, full := p + [SLASH] + rest, FullName(D, j);
    assert LowerAll(path)[|p|] == SLASH;
    if |full| > |p| {
      assert full[|p|] in full;
      assert LowerAll(full)[|p|] != SLASH;
    }
  }

  /** So what `fat32_move` removes for the source SUBDIREC/A is the entry SUBDIREC. */
  lemma PathFindsItsFirst(D: seq<Slot>, j: nat, p: seq<byte>, rest: seq<byte>)
    requires WellFormed(D) && SlashFree(D) && Lookup(D, p) == Some(j) && RunLen(D, j) == 0
    requires |p| == 8 && forall i :: 0 <= i < 8 ==> p[i] != DOT
    ensures Lookup(D, p + [SLASH] + rest) == Some(j)
  {
    LookupDecided(D, p, j);
    EightCharsStandForPath(D, j, p, rest);
    forall q: nat | q < j && Short(D[q])
      ensures !Matches(D, q, p + [SLASH] + rest)
    {
      if RunLen(D, q) > 0 {
        LongNameIsNoPath(D, q, p, rest);
      } else {
        EightCharsStandForPath(D, q, p, rest);
      }
    }
    LookupDecided(D, p + [SLASH] + rest, j);
  }

  /** The move deletes the file at f. */
  ghost predicate LosesFile(d: Disk, root: u32, rank: map<nat, nat>, cb: nat, cwd: u32, src: seq<byte>, f: Found, dir: u32, ps: seq<seq<byte>>)
    requires |d.fat| == |d.data| && |d.fat| < END_MARK && cb > 0
  {
    && CanCopy(d, FirstCluster(SlotAt(d, f)), FileSize(SlotAt(d, f)), ClustersFrom(d.fat, FirstCluster(SlotAt(d, f))), cb)
    && var e := CopiedTo(d, root, SlotAt(d, f), dir, ps, cb);
    && Closed(e.fat) && exists more :: Lost(d, RemovedByName(e, cwd, src), root, rank, more, cb, f)
  }

  /** A move that makes no copy, for want of a slot or of clusters, but finds its source removes
      it all the same: no file holds its bytes any more. */
  lemma MoveLosesFile(d: Disk, root: u32, rank: map<nat, nat>, cb: nat, cwd: u32, src: seq<byte>, f: Found, dir: u32, ps: seq<seq<byte>>)
    requires FsOk(d, root, rank, cb, []) && cwd as nat in rank && dir as nat in rank && IsFile(d, rank, f) && Destination(d, root, dir, ps)
    requires CanCopy(d, FirstCluster(SlotAt(d, f)), FileSize(SlotAt(d, f)), ClustersFrom(d.fat, FirstCluster(SlotAt(d, f))), cb)
    requires CopyLanding(d, root, SlotAt(d, f), dir, ps, cb) == None && FindsSource(d, root, cb, cwd, src, f, dir, ps)
    ensures LosesFile(d, root, rank, cb, cwd, src, f, dir, ps)
  {
    SourceFound(d, root, rank, cb, cwd, src, f, dir, ps);
    CopyKeepsFs(d, root, rank, cb, SlotAt(d, f), dir, ps);
    NoneThenLost(d, CopiedTo(d, root, SlotAt(d, f), dir, ps, cb), root, rank, cb, CopyClusters(d, SlotAt(d, f), cb), cwd, src, f);
  }

  lemma NoneThenLost(d: Disk, e: Disk, root: u32, rank: map<nat, nat>, cb: nat, ds: seq<nat>, cwd: u32, src: seq<byte>, f: Found)
    requires AddedOrNot(d, e, root, rank, cb, ds, None) && IsFile(d, rank, f)
    requires f.dir == cwd as nat && Lookup(Dir(e, cwd), src) == Some(f.slot)
    ensures Closed(e.fat) && exists more :: Lost(d, RemovedByName(e, cwd, src), root, rank, more, cb, f)
  {
    var more :| SameFiles(d, e, root, rank, more, cb);
    SameThenLost(d, e, root, rank, more, cb, cwd, src, f);
  }

  lemma SameThenLost(d: Disk, e: Disk, root: u32, rank: map<nat, nat>, more: map<nat, nat>, cb: nat, cwd: u32, src: seq<byte>, f: Found)
    requires SameFiles(d, e, root, rank, more, cb) && IsFile(d, rank, f)
    requires f.dir == cwd as nat && Lookup(Dir(e, cwd), src) == Some(f.slot)
    ensures Closed(e.fat) && Lost(d, RemovedByName(e, cwd, src), root, rank, more, cb, f)
  {
    SameGives(d, e, root, rank, more, cb, f);
    RemovalGives(e, root, more, cb, cwd, src, f.slot);
    GoneGives(e, RemovedByName(e, cwd, src), root, more, cb, f);
    LostWhen(d, e, RemovedByName(e, cwd, src), root, rank, more, cb, f);
  }

  lemma SameGives(d: Disk, e: Disk, root: u32, rank: map<nat, nat>, more: map<nat, nat>, cb: nat, f: Found)
    requires SameFiles(d, e, root, rank, more, cb) && IsFile(d, rank, f)
    ensures FileKept(d, e, more, f) && IsFile(e, more, f) && FsOk(e, root, more, cb, []) && Closed(e.fat)
    ensures FilesKept(d, e, rank, more) && NoNewFiles(d, e, rank, more) && forall c :: c in rank ==> c in more
  {
  }

  /** The file at f is gone, its clusters are free, and there is no new file. */
  ghost predicate Lost(d: Disk, r: Disk, root: u32, rank: map<nat, nat>, more: map<nat, nat>, cb: nat, f: Found) {
    && FsOk(r, root, more, cb, []) && (forall c :: c in rank ==> c in more)
    && !IsFile(r, more, f) && MoveKeeps(d, r, rank, more, f) && NoNewFiles(d, r, rank, more)
    && forall x :: x in ChainAt(d, f) ==> x < |r.fat| && r.fat[x] == 0
  }

  lemma LostWhen(d: Disk, e: Disk, r: Disk, root: u32, rank: map<nat, nat>, more: map<nat, nat>, cb: nat, f: Found)
    requires FilesKept(d, e, rank, more) && NoNewFiles(d, e, rank, more) && FileKept(d, e, more, f) && forall c :: c in rank ==> c in more
    requires FsOk(r, root, more, cb, []) && !IsFile(r, more, f) && OthersKept(e, r, more, f) && NoNewFiles(e, r, more, more)
    requires r.fat == Zeroed(e.fat, ChainAt(e, f))
    ensures Lost(d, r, root, rank, more, cb, f)
  {
    MoveKeepsOthers(d, e, r, rank, more, f);
    FreedAfterwards(d, e, r, more, f);
  }

  /** It comes to that in particular when the destination directory is full. */
  lemma FullDirectoryLosesFile(d: Disk, root: u32, rank: map<nat, nat>, cb: nat, cwd: u32, src: seq<byte>, f: Found, dir: u32, name: seq<byte>)
    requires FsOk(d, root, rank, cb, []) && cwd as nat in rank && dir as nat in rank && IsFile(d, rank, f) && IsComponent(name)
    requires Place(Dir(d, dir), name) == None && f.dir == cwd as nat && Lookup(Dir(d, cwd), src) == Some(f.slot)
    ensures LosesFile(d, root, rank, cb, cwd, src, f, dir, [name])
  {
    OnePart(name);
    NoneLands(d, root, rank, cb, cwd, SlotAt(d, f), dir, name);
    NoRoomAddsNone(d, root, cb, cwd, src, f, dir, name);
    MoveLosesFile(d, root, rank, cb, cwd, src, f, dir, [name]);
  }

  lemma NoRoomAddsNone(d: Disk, root: u32, cb: nat, cwd: u32, src: seq<byte>, f: Found, dir: u32, name: seq<byte>)
    requires cb > 0 && |d.fat| < END_MARK && Place(Dir(d, dir), name) == None && f.dir == cwd as nat && Lookup(Dir(d, cwd), src) == Some(f.slot)
    ensures PlainBeyond(d, root, dir, [name]) && FindsSource(d, root, cb, cwd, src, f, dir, [name])
  {
  }

  lemma NoneLands(d: Disk, root: u32, rank: map<nat, nat>, cb: nat, cwd: u32, s: Slot, dir: u32, name: seq<byte>)
    requires FsOk(d, root, rank, cb, []) && cwd as nat in rank && dir as nat in rank && Resolved(d, rank, s) && name != []
    requires Place(Dir(d, dir), name) == None
    ensures CanCopy(d, FirstCluster(s), FileSize(s), ClustersFrom(d.fat, FirstCluster(s)), cb)
    ensures CopyLanding(d, root, s, dir, [name], cb) == None
    ensures Dir(CopiedTo(d, root, s, dir, [name], cb), cwd) == Dir(d, cwd)
  {
    SourceCanCopy(d, rank, cb, s);
    CopyTook(d, s, cb);
    NoneLandsAfter(d, root, rank, cb, cwd, s, dir, name);
  }

  lemma OnePart(name: seq<byte>)
    requires IsComponent(name)
    ensures Parts([name])
  {
    assert [name][1..] == [];
  }

  lemma NoneLandsAfter(d: Disk, root: u32, rank: map<nat, nat>, cb: nat, cwd: u32, s: Slot, dir: u32, name: seq<byte>)
    requires TreeOk(d, root, rank, cb) && cwd as nat in rank && dir as nat in rank && name != [] && cb > 0
    requires CanCopy(d, FirstCluster(s), FileSize(s), ClustersFrom(d.fat, FirstCluster(s)), cb)
    requires Took(d, CopyTaken(d, s, cb), CopyClusters(d, s, cb))
    requires Place(Dir(d, dir), name) == None
    ensures CopyLanding(d, root, s, dir, [name], cb) == None && Dir(CopiedTo(d, root, s, dir, [name], cb), cwd) == Dir(d, cwd)
  {
    NoEntryAdded(d, CopyTaken(d, s, cb), root, rank, cb, CopyClusters(d, s, cb), cwd, dir, name);
  }

  lemma NoEntryAdded(d: Disk, mid: Disk, root: u32, rank: map<nat, nat>, cb: nat, ds: seq<nat>, cwd: u32, dir: u32, name: seq<byte>)
    requires TreeOk(d, root, rank, cb) && Took(d, mid, ds) && cwd as nat in rank && dir as nat in rank
    requires Place(Dir(d, dir), name) == None && name != []
    ensures |mid.fat| == |mid.data| && |mid.fat| < END_MARK && Landing(mid, root, dir, [name], cb / SLOT) == None
    ensures forall meta :: Create(mid, root, dir, [name], meta, cb / SLOT) == mid
    ensures Dir(mid, cwd) == Dir(d, cwd)
  {
    TookDirs(d, mid, root, rank, cb, ds);
  }
}
