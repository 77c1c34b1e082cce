/** When a path can be created, said of the disk as it stands before the call: by its
    directories and its count of free clusters alone. */
module Room {
  import opened Words
  import opened Names
  import opened Slots
  import opened Directory
  import opened DirectoryEdit
  import opened DirectoryLaws
  import opened Volume
  import opened Chains
  import opened Tree
  import opened Paths
  import opened Arrival

  /** Where the path meets its first missing directory, or its end, there is room for one
      entry; plain names follow a missing directory. */
  predicate Open(d: Disk, root: u32, dir: u32, ps: seq<seq<byte>>)
    decreases |ps|
  {
    && ps != [] && IsComponent(ps[0])
    && if |ps| == 1 then Place(Dir(d, dir), ps[0]).Some?
       else match LookupFrom(Dir(d, dir), ps[0], true, 0)
         case Some(j) => Open(d, root, Enter(root, Dir(d, dir)[j]), ps[1..])
         case None => Place(Dir(d, dir), ps[0]).Some? && PlainComponents(ps[1..])
  }

  /** How many directories a creation has to make on the way. */
  function MissingDirs(d: Disk, root: u32, dir: u32, ps: seq<seq<byte>>): nat
    decreases |ps|
  {
    if |ps| <= 1 then 0 else
    match LookupFrom(Dir(d, dir), ps[0], true, 0)
    case Some(j) => MissingDirs(d, root, Enter(root, Dir(d, dir)[j]), ps[1..])
    case None => |ps| - 1
  }

  lemma SomeFree(fat: seq<nat>)
    requires Used(fat) + 3 <= |fat|
    ensures LeastFree(fat, 2) != 0
  {
    if LeastFree(fat, 2) == 0 {
      forall c | 2 <= c < |fat|
        ensures fat[c] != 0
      {
        LeastFreeIsLeast(fat, 2, c);
      }
      AllUsed(fat, 2);
    }
  }

  /** A new directory has room for any entry. */
  lemma RoomInNew(self: u32, parent: u32, n: nat, component: seq<byte>)
    requires n >= 8 && IsComponent(component)
    ensures Place(DotSlots(self, parent, n), component).Some?
  {
    FewLongSlots(component);
    var D := DotSlots(self, parent, n);
    var k := LongSlots(component);
    DotSlotsOk(self, parent, n);
    forall t | 2 <= t <= 2 + k
      ensures !Live(D[t])
    {
      assert D[t] == DotSlot(self, parent, t);
    }
    assert FreeRun(D, 2, k);
  }

  lemma MakeDirUsed(d: Disk, dir: u32, component: seq<byte>, n: nat)
    requires |d.fat| == |d.data| && |d.fat| < END_MARK && LeastFree(d.fat, 2) != 0
    ensures Used(MakeDir(d, dir, component, n).fat) == Used(d.fat) + 1
    ensures MakeDir(d, dir, component, n).fat[LeastFree(d.fat, 2)] != 0
  {
    UsedAfter(d.fat, LeastFree(d.fat, 2), END);
  }

  /** Below a directory just made everything can be created that there are clusters for. */
  lemma {:induction false} CanCreateInNew(d: Disk, root: u32, self: u32, parent: u32, ps: seq<seq<byte>>, n: nat)
    requires |d.fat| == |d.data| && |d.fat| < END_MARK && n >= 8
    requires self < |d.data| && d.fat[self] != 0 && Dir(d, self) == DotSlots(self, parent, n)
    requires ps != [] && PlainComponents(ps) && Used(d.fat) + |ps| + 1 <= |d.fat|
    ensures CanCreate(d, root, self, ps, n)
    decreases |ps|
  {
    NothingInNew(self, parent, n, ps[0]);
    RoomInNew(self, parent, n, ps[0]);
    if |ps| > 1 {
      SomeFree(d.fat);
      FewLongSlots(ps[0]);
      var spare := LeastFree(d.fat, 2);
      MakeDirUsed(d, self, ps[0], n);
      MakeDirDirs(d, self, ps[0], n, spare);
      PlainRest(ps);
      CanCreateInNew(MakeDir(d, self, ps[0], n), root, spare, self, ps[1..], n);
    }
  }

  /** An open path can be created when there is a free cluster for each missing directory. */
  lemma {:induction false} OpenCanCreate(d: Disk, root: u32, rank: map<nat, nat>, cb: nat, dir: u32, ps: seq<seq<byte>>)
    requires TreeOk(d, root, rank, cb) && cb >= 8 * SLOT && dir as nat in rank
    requires Open(d, root, dir, ps) && Used(d.fat) + MissingDirs(d, root, dir, ps) + 2 <= |d.fat|
    ensures CanCreate(d, root, dir, ps, cb / SLOT)
    decreases |ps|
  {
    if |ps| > 1 {
      var n := cb / SLOT;
      var r := LookupFrom(Dir(d, dir), ps[0], true, 0);
      if r.Some? {
        StepInto(d, root, rank, cb, dir, ps[0]);
        OpenCanCreate(d, root, rank, cb, Enter(root, Dir(d, dir)[r.value]), ps[1..]);
      } else {
        SomeFree(d.fat);
        FewLongSlots(ps[0]);
        Ranked(d, root, rank, cb, dir);
        SpareIsNew(d, root, rank, cb);
        var spare := LeastFree(d.fat, 2);
        MakeDirUsed(d, dir, ps[0], n);
        MakeDirDirs(d, dir, ps[0], n, spare);
        CanCreateInNew(MakeDir(d, dir, ps[0], n), root, spare, dir, ps[1..], n);
      }
    }
  }

  /** Only the directories matter to whether a path is open, and to what is missing of it. */
  lemma {:induction false} OpenFrame(d: Disk, e: Disk, root: u32, rank: map<nat, nat>, cb: nat, dir: u32, ps: seq<seq<byte>>)
    requires TreeOk(d, root, rank, cb) && dir as nat in rank
    requires forall c :: c in rank ==> Dir(e, c) == Dir(d, c)
    ensures Open(e, root, dir, ps) == Open(d, root, dir, ps) && MissingDirs(e, root, dir, ps) == MissingDirs(d, root, dir, ps)
    ensures PlanOf(e, root, dir, ps) == PlanOf(d, root, dir, ps)
    decreases |ps|
  {
    if |ps| > 1 {
      var r := LookupFrom(Dir(d, dir), ps[0], true, 0);
      if r.Some? {
        StepInto(d, root, rank, cb, dir, ps[0]);
        OpenFrame(d, e, root, rank, cb, Enter(root, Dir(d, dir)[r.value]), ps[1..]);
      }
    }
  }

  /** Where a walk arrives is decided by the directories alone. */
  lemma {:induction false} ArrivesFrame(d: Disk, e: Disk, root: u32, rank: map<nat, nat>, cb: nat, p: Plan, at: Spot, qs: seq<seq<byte>>)
    requires TreeOk(d, root, rank, cb) && p.top as nat in rank && (at.Known? ==> at.dir as nat in rank)
    requires forall c :: c in rank ==> Dir(e, c) == Dir(d, c)
    ensures Arrives(e, root, p, at, qs) == Arrives(d, root, p, at, qs)
    decreases |qs|
  {
    if qs != [] && qs[0] != [] {
      StepFrame(d, e, root, rank, cb, p, at, qs[0]);
      var next := Go(d, root, p, at, qs[0]);
      if |qs| > 1 && next.Some? {
        ArrivesFrame(d, e, root, rank, cb, p, next.value, qs[1..]);
      }
    }
  }

  /** One step of the walk, too, and it stays among the known directories. */
  lemma StepFrame(d: Disk, e: Disk, root: u32, rank: map<nat, nat>, cb: nat, p: Plan, at: Spot, c: seq<byte>)
    requires TreeOk(d, root, rank, cb) && p.top as nat in rank && (at.Known? ==> at.dir as nat in rank)
    requires forall c :: c in rank ==> Dir(e, c) == Dir(d, c)
    ensures Go(e, root, p, at, c) == Go(d, root, p, at, c) && Hits(e, p, at, c) == Hits(d, p, at, c)
    ensures var next := Go(d, root, p, at, c); next.Some? && next.value.Known? ==> next.value.dir as nat in rank
  {
    if at.Known? {
      EntersKnown(d, root, rank, cb, at.dir, c);
    }
  }
}
