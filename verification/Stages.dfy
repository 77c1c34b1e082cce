/** Creating a path with dot names behind a missing directory, as in NEW/../A: the directories made
    on the way up to there are a stage of their own, and the rest is a creation on that stage. */
module Stages {
  import opened Words
  import opened Names
  import opened Slots
  import opened Directory
  import opened DirectoryEdit
  import opened DirectoryLaws
  import opened Volume
  import opened Tree
  import opened Paths
  import opened Arrival

  /** There is room for what the path lacks, whatever names it has. Each check is made in the
      state the creation has reached when it gets there. */
  predicate HasPlace(d: Disk, root: u32, dir: u32, ps: seq<seq<byte>>, n: nat)
    requires |d.fat| == |d.data| && |d.fat| < END_MARK
    decreases |ps|
  {
    && ps != [] && IsComponent(ps[0])
    && if |ps| == 1 then Place(Dir(d, dir), ps[0]).Some?
       else match LookupFrom(Dir(d, dir), ps[0], true, 0)
         case Some(j) => HasPlace(d, root, Enter(root, Dir(d, dir)[j]), ps[1..], n)
         case None =>
           && Place(Dir(d, dir), ps[0]).Some? && LeastFree(d.fat, 2) != 0
           && HasPlace(MakeDir(d, dir, ps[0], n), root, LeastFree(d.fat, 2), ps[1..], n)
  }

  /** The volume, the directory and the components a creation has come to. */
  datatype Stage = Stage(disk: Disk, dir: u32, rest: seq<seq<byte>>)

  /** The last stage: from the first missing directory that only plain names follow. */
  function LastStage(d: Disk, root: u32, dir: u32, ps: seq<seq<byte>>, n: nat): Stage
    requires |d.fat| == |d.data| && |d.fat| < END_MARK
    decreases |ps|
  {
    if |ps| <= 1 then Stage(d, dir, ps)
    else match LookupFrom(Dir(d, dir), ps[0], true, 0)
      case Some(j) => LastStage(d, root, Enter(root, Dir(d, dir)[j]), ps[1..], n)
      case None =>
        if PlainComponents(ps[1..]) then Stage(d, dir, ps)
        else LastStage(MakeDir(d, dir, ps[0], n), root, LeastFree(d.fat, 2), ps[1..], n)
  }

  lemma {:induction false} PlainInNew(d: Disk, root: u32, self: u32, parent: u32, ps: seq<seq<byte>>, n: nat)
    requires |d.fat| == |d.data| && |d.fat| < END_MARK && n >= 2 && self < |d.data| && d.fat[self] != 0
    requires Dir(d, self) == DotSlots(self, parent, n) && PlainComponents(ps) && HasPlace(d, root, self, ps, n)
    ensures CanCreate(d, root, self, ps, n)
    decreases |ps|
  {
    if |ps| > 1 {
      NothingInNew(self, parent, n, ps[0]);
      FewLongSlots(ps[0]);
      PlainRest(ps);
      MakeDirDirs(d, self, ps[0], n, LeastFree(d.fat, 2));
      PlainInNew(MakeDir(d, self, ps[0], n), root, LeastFree(d.fat, 2), self, ps[1..], n);
    }
  }

  lemma PlainStage(d: Disk, root: u32, rank: map<nat, nat>, cb: nat, dir: u32, ps: seq<seq<byte>>)
    requires TreeOk(d, root, rank, cb) && cb >= 2 * SLOT && dir as nat in rank && HasPlace(d, root, dir, ps, cb / SLOT)
    requires |ps| > 1 && LookupFrom(Dir(d, dir), ps[0], true, 0) == None && PlainComponents(ps[1..])
    ensures CanCreate(d, root, dir, ps, cb / SLOT)
  {
    var spare, n := LeastFree(d.fat, 2), cb / SLOT;
    FewLongSlots(ps[0]);
    Ranked(d, root, rank, cb, dir);
    SpareIsNew(d, root, rank, cb);
    MakeDirDirs(d, dir, ps[0], n, spare);
    PlainInNew(MakeDir(d, dir, ps[0], n), root, spare, dir, ps[1..], n);
  }

  /** The stage is a consistent tree in which the rest can be created. */
  ghost predicate StageOk(s: Stage, root: u32, more: map<nat, nat>, cb: nat) {
    && TreeOk(s.disk, root, more, cb) && cb >= 2 * SLOT && s.dir as nat in more && CanCreate(s.disk, root, s.dir, s.rest, cb / SLOT)
  }

  /** Creating the path is creating the rest on the last stage. */
  ghost predicate SameOnStage(d: Disk, root: u32, dir: u32, ps: seq<seq<byte>>, meta: Meta, s: Stage, n: nat)
    requires |d.fat| == |d.data| && |d.fat| < END_MARK && |s.disk.fat| == |s.disk.data| && |s.disk.fat| < END_MARK
  {
    && Create(d, root, dir, ps, meta, n) == Create(s.disk, root, s.dir, s.rest, meta, n)
    && Landing(d, root, dir, ps, n) == Landing(s.disk, root, s.dir, s.rest, n)
    && ps != [] && s.rest != [] && s.rest[|s.rest| - 1] == ps[|ps| - 1]
  }

  lemma {:induction false} StageCreates(d: Disk, root: u32, rank: map<nat, nat>, cb: nat, dir: u32, ps: seq<seq<byte>>, meta: Meta)
    returns (more: map<nat, nat>)
    requires TreeOk(d, root, rank, cb) && cb >= 2 * SLOT && dir as nat in rank && HasPlace(d, root, dir, ps, cb / SLOT)
    ensures forall c :: c in rank ==> c in more
    ensures var s := LastStage(d, root, dir, ps, cb / SLOT); StageOk(s, root, more, cb) && SameOnStage(d, root, dir, ps, meta, s, cb / SLOT)
    decreases |ps|
  {
    more := rank;
    if |ps| > 1 {
      CreateUnfold(d, root, dir, ps, meta, cb / SLOT);
      var r := LookupFrom(Dir(d, dir), ps[0], true, 0);
      if r.Some? {
        StepInto(d, root, rank, cb, dir, ps[0]);
        more := StageCreates(d, root, rank, cb, Enter(root, Dir(d, dir)[r.value]), ps[1..], meta);
      } else if PlainComponents(ps[1..]) {
        PlainStage(d, root, rank, cb, dir, ps);
      } else {
        var spare := LeastFree(d.fat, 2);
        MakeDirKeepsTree(d, root, rank, cb, dir, ps[0]);
        more := StageCreates(MakeDir(d, dir, ps[0], cb / SLOT), root, Deeper(rank, dir, spare), cb, spare, ps[1..], meta);
      }
    }
  }

  /** Create then find for every path there is room for: the slot it lands in holds an entry of exactly
      the last component, attribute, cluster and size, and a file's path leads to it exactly when
      the walk of its last stage arrives there. */
  lemma StagedCreateThenFind(d: Disk, e: Disk, root: u32, rank: map<nat, nat>, cb: nat, dir: u32, ps: seq<seq<byte>>, meta: Meta, at: Found)
    requires TreeOk(d, root, rank, cb) && cb >= 2 * SLOT && dir as nat in rank && meta.attr != ATTR_LFN
    requires HasPlace(d, root, dir, ps, cb / SLOT) && e == Create(d, root, dir, ps, meta, cb / SLOT)
    requires Landing(d, root, dir, ps, cb / SLOT) == Some(at)
    ensures ps != [] && HoldsEntry(e, at, GivenEntry(ps[|ps| - 1], meta))
    ensures StageArrives(d, root, dir, ps, cb / SLOT) ==> LeadsTo(e, root, dir, ps, at)
    ensures (meta.attr / 0x10) % 2 == 0 && LeadsTo(e, root, dir, ps, at) ==> StageArrives(d, root, dir, ps, cb / SLOT)
  {
    var more := StageCreates(d, root, rank, cb, dir, ps, meta);
    FoundOnStage(LastStage(d, root, dir, ps, cb / SLOT), e, root, more, cb, dir, ps, meta, at);
  }

  /** The walk over the directories of the last stage comes to what is created there. */
  predicate StageArrives(d: Disk, root: u32, dir: u32, ps: seq<seq<byte>>, n: nat)
    requires |d.fat| == |d.data| && |d.fat| < END_MARK
  {
    var s := LastStage(d, root, dir, ps, n);
    Arrives(s.disk, root, PlanOf(s.disk, root, s.dir, s.rest), Known(dir), ps)
  }

  lemma FoundOnStage(s: Stage, e: Disk, root: u32, more: map<nat, nat>, cb: nat, dir: u32, ps: seq<seq<byte>>, meta: Meta, at: Found)
    requires StageOk(s, root, more, cb) && dir as nat in more && meta.attr != ATTR_LFN && ps != []
    requires e == Create(s.disk, root, s.dir, s.rest, meta, cb / SLOT) && Landing(s.disk, root, s.dir, s.rest, cb / SLOT) == Some(at)
    requires s.rest != [] && s.rest[|s.rest| - 1] == ps[|ps| - 1]
    ensures HoldsEntry(e, at, GivenEntry(ps[|ps| - 1], meta))
    ensures var arrives := Arrives(s.disk, root, PlanOf(s.disk, root, s.dir, s.rest), Known(dir), ps);
      && (arrives ==> LeadsTo(e, root, dir, ps, at))
      && ((meta.attr / 0x10) % 2 == 0 && LeadsTo(e, root, dir, ps, at) ==> arrives)
  {
    CanCreateLands(s.disk, root, s.dir, s.rest, cb / SLOT);
    LandingHolds(s.disk, e, root, more, cb, s.dir, s.rest, meta, at);
    WalkOnStage(s, e, root, more, cb, dir, ps, meta, at, PlanOf(s.disk, root, s.dir, s.rest));
  }

  lemma WalkOnStage(s: Stage, e: Disk, root: u32, more: map<nat, nat>, cb: nat, dir: u32, ps: seq<seq<byte>>, meta: Meta, at: Found, p: Plan)
    requires StageOk(s, root, more, cb) && dir as nat in more && meta.attr != ATTR_LFN && p == PlanOf(s.disk, root, s.dir, s.rest)
    requires e == Create(s.disk, root, s.dir, s.rest, meta, cb / SLOT) && Landing(s.disk, root, s.dir, s.rest, cb / SLOT) == Some(at)
    ensures Arrives(s.disk, root, p, Known(dir), ps) ==> LeadsTo(e, root, dir, ps, at)
    ensures (meta.attr / 0x10) % 2 == 0 && LeadsTo(e, root, dir, ps, at) ==> Arrives(s.disk, root, p, Known(dir), ps)
  {
    CreateAtTop(s.disk, root, more, cb, s.dir, s.rest, meta);
    CreatedAtTop(s.disk, e, root, more, cb, p, meta);
    ArrivesIsLeads(s.disk, e, root, more, cb, p, NewDirs(s.disk, p.top, p.comps, cb / SLOT), meta, Known(dir), ps, at);
  }

  // ---- the plain case ----

  /** Where the path can be created plainly, its last stage is the disk as it is. */
  lemma {:induction false} PlainPathsStayHere(d: Disk, root: u32, dir: u32, ps: seq<seq<byte>>, n: nat)
    requires |d.fat| == |d.data| && |d.fat| < END_MARK && CanCreate(d, root, dir, ps, n)
    ensures HasPlace(d, root, dir, ps, n) && LastStage(d, root, dir, ps, n).disk == d
    ensures var s := LastStage(d, root, dir, ps, n); PlanOf(d, root, s.dir, s.rest) == PlanOf(d, root, dir, ps)
    decreases |ps|
  {
    if |ps| > 1 {
      var r := LookupFrom(Dir(d, dir), ps[0], true, 0);
      if r.Some? {
        PlainPathsStayHere(d, root, Enter(root, Dir(d, dir)[r.value]), ps[1..], n);
      } else {
        PlainHasPlace(MakeDir(d, dir, ps[0], n), root, LeastFree(d.fat, 2), ps[1..], n);
      }
    }
  }

  lemma {:induction false} PlainHasPlace(d: Disk, root: u32, dir: u32, ps: seq<seq<byte>>, n: nat)
    requires |d.fat| == |d.data| && |d.fat| < END_MARK && CanCreate(d, root, dir, ps, n)
    ensures HasPlace(d, root, dir, ps, n)
    decreases |ps|
  {
    if |ps| > 1 {
      var r := LookupFrom(Dir(d, dir), ps[0], true, 0);
      if r.Some? {
        PlainHasPlace(d, root, Enter(root, Dir(d, dir)[r.value]), ps[1..], n);
      } else {
        PlainHasPlace(MakeDir(d, dir, ps[0], n), root, LeastFree(d.fat, 2), ps[1..], n);
      }
    }
  }

  lemma {:induction false} HasPlaceLands(d: Disk, root: u32, dir: u32, ps: seq<seq<byte>>, n: nat)
    requires |d.fat| == |d.data| && |d.fat| < END_MARK && HasPlace(d, root, dir, ps, n)
    ensures Landing(d, root, dir, ps, n).Some? && Parts(ps)
    decreases |ps|
  {
    if |ps| == 1 {
      assert Parts(ps[1..]);
    } else {
      var r := LookupFrom(Dir(d, dir), ps[0], true, 0);
      if r.Some? {
        HasPlaceLands(d, root, Enter(root, Dir(d, dir)[r.value]), ps[1..], n);
      } else {
        HasPlaceLands(MakeDir(d, dir, ps[0], n), root, LeastFree(d.fat, 2), ps[1..], n);
      }
    }
  }
}
