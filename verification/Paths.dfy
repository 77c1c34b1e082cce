/** Creating through a path and finding through paths afterwards. */
module Paths {
  import opened Words
  import opened Names
  import opened Slots
  import opened Directory
  import opened DirectoryEdit
  import opened DirectoryLaws
  import opened Volume
  import opened Tree

  // ---- where a creation puts its entry ----

  /** Components as a path splits: the last may be empty. */
  predicate Parts(ps: seq<seq<byte>>) {
    ps != [] ==> (IsComponent(ps[0]) || (|ps| == 1 && ps[0] == [])) && Parts(ps[1..])
  }

  /** The slot a creation writes its entry to; None when the directory it comes to is full,
      a missing directory finds no cluster, or the path ends in a slash. */
  function Landing(d: Disk, root: u32, dir: u32, ps: seq<seq<byte>>, n: nat): Option<Found>
    requires |d.fat| == |d.data| && |d.fat| < END_MARK
    decreases |ps|
  {
    if ps == [] || ps[0] == [] then None
    else if |ps| == 1 then
      (match Place(Dir(d, dir), ps[0])
       case None => None
       case Some(i) => Some(Found(dir, i + LongSlots(ps[0]))))
    else
      match LookupFrom(Dir(d, dir), ps[0], true, 0)
      case Some(j) => Landing(d, root, Enter(root, Dir(d, dir)[j]), ps[1..], n)
      case None =>
        var spare := LeastFree(d.fat, 2);
        if spare == 0 then None else Landing(MakeDir(d, dir, ps[0], n), root, spare, ps[1..], n)
  }

  function GivenEntry(name: seq<byte>, meta: Meta): Entry {
    Entry(name, meta.attr, meta.cluster, meta.size)
  }

  predicate HoldsEntry(d: Disk, f: Found, entry: Entry) {
    f.slot < |Dir(d, f.dir)| && EntryAt(Dir(d, f.dir), f.slot) == entry
  }

  /** The step a path takes into a directory found by the scan leads to a known one. */
  lemma StepInto(d: Disk, root: u32, rank: map<nat, nat>, cb: nat, dir: u32, component: seq<byte>)
    requires TreeOk(d, root, rank, cb) && dir as nat in rank && LookupFrom(Dir(d, dir), component, true, 0).Some?
    ensures Enter(root, Dir(d, dir)[LookupFrom(Dir(d, dir), component, true, 0).value]) as nat in rank
  {
    TreeIsNavigable(d, root, rank, cb);
    assert Leads(d, root, rank.Keys, dir);
  }

  /** The first step of a creation: into a directory that is there, or one made for it. */
  lemma CreateUnfold(d: Disk, root: u32, dir: u32, ps: seq<seq<byte>>, meta: Meta, n: nat)
    requires |d.fat| == |d.data| && |d.fat| < END_MARK && |ps| > 1 && ps[0] != []
    ensures var r, spare := LookupFrom(Dir(d, dir), ps[0], true, 0), LeastFree(d.fat, 2);
      && Create(d, root, dir, ps, meta, n) == (
        if r.Some? then Create(d, root, Enter(root, Dir(d, dir)[r.value]), ps[1..], meta, n)
        else if spare == 0 then d
        else Create(MakeDir(d, dir, ps[0], n), root, spare, ps[1..], meta, n))
      && Landing(d, root, dir, ps, n) == (
        if r.Some? then Landing(d, root, Enter(root, Dir(d, dir)[r.value]), ps[1..], n)
        else if spare == 0 then None
        else Landing(MakeDir(d, dir, ps[0], n), root, spare, ps[1..], n))
  {
  }

  /** Wherever a creation lands, the slot holds an entry of exactly its last component,
      attribute, cluster and size. */
  lemma {:induction false} LandingHolds(d: Disk, e: Disk, root: u32, rank: map<nat, nat>, cb: nat, dir: u32, ps: seq<seq<byte>>, meta: Meta, at: Found)
    requires TreeOk(d, root, rank, cb) && cb >= 2 * SLOT && dir as nat in rank && meta.attr != ATTR_LFN && Parts(ps)
    requires e == Create(d, root, dir, ps, meta, cb / SLOT) && Landing(d, root, dir, ps, cb / SLOT) == Some(at)
    ensures ps != [] && HoldsEntry(e, at, GivenEntry(ps[|ps| - 1], meta))
    decreases |ps|
  {
    if |ps| == 1 {
      Ranked(d, root, rank, cb, dir);
      CreateOne(d, root, dir, ps, meta, cb / SLOT);
      LastHolds(d, dir, ps[0], meta);
    } else {
      LandingBelow(d, e, root, rank, cb, dir, ps, meta, at);
      assert ps[1..][|ps| - 2] == ps[|ps| - 1];
    }
  }

  /** A creation of one component. */
  lemma CreateOne(d: Disk, root: u32, dir: u32, ps: seq<seq<byte>>, meta: Meta, n: nat)
    requires |d.fat| == |d.data| && |d.fat| < END_MARK && |ps| == 1 && ps[0] != []
    ensures Create(d, root, dir, ps, meta, n) == AddTo(d, dir, ps[0], meta)
    ensures Landing(d, root, dir, ps, n) ==
      if Place(Dir(d, dir), ps[0]).Some? then Some(Found(dir, NewSlot(d, dir, ps[0]))) else None
  {
  }

  lemma {:induction false} LandingBelow(d: Disk, e: Disk, root: u32, rank: map<nat, nat>, cb: nat, dir: u32, ps: seq<seq<byte>>, meta: Meta, at: Found)
    requires TreeOk(d, root, rank, cb) && cb >= 2 * SLOT && dir as nat in rank && meta.attr != ATTR_LFN && Parts(ps) && |ps| != 1
    requires e == Create(d, root, dir, ps, meta, cb / SLOT) && Landing(d, root, dir, ps, cb / SLOT) == Some(at)
    ensures |ps| > 1 && HoldsEntry(e, at, GivenEntry(ps[1..][|ps| - 2], meta))
    decreases |ps|, 0
  {
    CreateUnfold(d, root, dir, ps, meta, cb / SLOT);
    var r := LookupFrom(Dir(d, dir), ps[0], true, 0);
    if r.Some? {
      StepInto(d, root, rank, cb, dir, ps[0]);
      LandingHolds(d, e, root, rank, cb, Enter(root, Dir(d, dir)[r.value]), ps[1..], meta, at);
    } else {
      MakeDirKeepsTree(d, root, rank, cb, dir, ps[0]);
      LandingHolds(MakeDir(d, dir, ps[0], cb / SLOT), e, root, Deeper(rank, dir, LeastFree(d.fat, 2)), cb, LeastFree(d.fat, 2), ps[1..], meta, at);
    }
  }

  lemma LastHolds(d: Disk, dir: nat, component: seq<byte>, meta: Meta)
    requires dir < |d.data| && WellFormed(Dir(d, dir)) && IsComponent(component) && meta.attr != ATTR_LFN
    requires Place(Dir(d, dir), component).Some?
    ensures HoldsEntry(AddTo(d, dir, component, meta), Found(dir, NewSlot(d, dir, component)), GivenEntry(component, meta))
  {
    var i := Place(Dir(d, dir), component).value;
    FewLongSlots(component);
    AddToDir(d, dir, component, meta, dir);
    AddedHolds(d, AddTo(d, dir, component, meta), dir, component, meta, i);
    assert NewSlot(d, dir, component) == i + LongSlots(component);
  }

  lemma AddedHolds(d: Disk, e: Disk, dir: nat, component: seq<byte>, meta: Meta, i: nat)
    requires WellFormed(Dir(d, dir)) && IsComponent(component) && LongSlots(component) <= 31 && meta.attr != ATTR_LFN
    requires Place(Dir(d, dir), component) == Some(i) && Dir(e, dir) == Added(d, dir, component, meta)
    ensures HoldsEntry(e, Found(dir, i + LongSlots(component)), GivenEntry(component, meta))
  {
    NewIsWhole(Dir(d, dir), Dir(e, dir), i, component, meta.attr, meta.cluster, meta.size);
  }

  // ---- when a path can be created ----

  predicate PlainComponents(ps: seq<seq<byte>>) {
    forall i :: 0 <= i < |ps| ==> IsComponent(ps[i]) && DotFree(ps[i])
  }

  /** There is room for what the path lacks, and plain names follow the first missing directory.
      Each check is made in the state the creation has reached when it gets there. */
  predicate CanCreate(d: Disk, root: u32, dir: u32, ps: seq<seq<byte>>, n: nat)
    requires |d.fat| == |d.data| && |d.fat| < END_MARK
    decreases |ps|
  {
    && ps != [] && IsComponent(ps[0])
    && if |ps| == 1 then Place(Dir(d, dir), ps[0]).Some?
       else match LookupFrom(Dir(d, dir), ps[0], true, 0)
         case Some(j) => CanCreate(d, root, Enter(root, Dir(d, dir)[j]), ps[1..], n)
         case None =>
           && Place(Dir(d, dir), ps[0]).Some? && PlainComponents(ps[1..])
           && LeastFree(d.fat, 2) != 0
           && CanCreate(MakeDir(d, dir, ps[0], n), root, LeastFree(d.fat, 2), ps[1..], n)
  }

  /** The components from the first missing one on. */
  function Lacking(d: Disk, root: u32, dir: u32, ps: seq<seq<byte>>): seq<seq<byte>>
    decreases |ps|
  {
    if |ps| <= 1 then ps else
    match LookupFrom(Dir(d, dir), ps[0], true, 0)
    case Some(j) => Lacking(d, root, Enter(root, Dir(d, dir)[j]), ps[1..])
    case None => ps
  }

  /** The one entry a creation adds to a directory that was there before. */
  datatype Addition = Addition(dir: nat, component: seq<byte>, meta: Meta)

  function FirstAddition(d: Disk, root: u32, dir: u32, ps: seq<seq<byte>>, meta: Meta): Addition
    requires ps != [] && |d.fat| < END_MARK
    decreases |ps|
  {
    if |ps| == 1 then Addition(dir, ps[0], meta)
    else match LookupFrom(Dir(d, dir), ps[0], true, 0)
      case Some(j) => FirstAddition(d, root, Enter(root, Dir(d, dir)[j]), ps[1..], meta)
      case None => Addition(dir, ps[0], DirMeta(LeastFree(d.fat, 2)))
  }

  /** What the first addition does to the directories that were there before. */
  ghost predicate AddsOnly(d: Disk, e: Disk, a: Addition, c: nat)
  {
    && IsComponent(a.component) && LongSlots(a.component) <= 31 && Place(Dir(d, a.dir), a.component).Some?
    && Dir(e, c) == if c == a.dir then Added(d, a.dir, a.component, a.meta) else Dir(d, c)
  }

  // ---- lookups for directories only ----

  lemma {:induction false} DirectoryLookup(D: seq<Slot>, component: seq<byte>, i: nat)
    requires i <= |D|
    ensures LookupFrom(D, component, false, i).None? ==> LookupFrom(D, component, true, i).None?
    ensures LookupFrom(D, component, false, i).Some? && IsDirectory(D[LookupFrom(D, component, false, i).value]) ==>
      LookupFrom(D, component, true, i) == LookupFrom(D, component, false, i)
    decreases |D| - i
  {
    if i < |D| && D[i][0] != FREE {
      DirectoryLookup(D, component, i + 1);
    }
  }

  /** Only the dot names resolve in a new directory. */
  lemma NothingInNew(self: u32, parent: u32, n: nat, component: seq<byte>)
    requires n >= 2 && DotFree(component)
    ensures Lookup(DotSlots(self, parent, n), component) == None
    ensures LookupFrom(DotSlots(self, parent, n), component, true, 0) == None
  {
    DotSlotsOk(self, parent, n);
    DirectoryLookup(DotSlots(self, parent, n), component, 0);
  }

  /** The step a path takes into an existing directory goes down one level. */
  lemma StepDown(d: Disk, root: u32, rank: map<nat, nat>, cb: nat, dir: u32, component: seq<byte>)
    requires TreeOk(d, root, rank, cb) && dir as nat in rank
    requires Lookup(Dir(d, dir), component).Some?
    requires IsDirectory(Dir(d, dir)[Lookup(Dir(d, dir), component).value])
    ensures var next := Enter(root, Dir(d, dir)[Lookup(Dir(d, dir), component).value]);
      next as nat in rank && (DotFree(component) ==> rank[next] == rank[dir] + 1)
  {
    assert DirOk(d, root, rank, cb, dir);
    assert EntryOk(d, root, rank, dir, Lookup(Dir(d, dir), component).value);
  }

  lemma Ranked(d: Disk, root: u32, rank: map<nat, nat>, cb: nat, dir: nat)
    requires TreeOk(d, root, rank, cb) && dir in rank
    ensures 2 <= dir < |d.data| && WellFormed(Dir(d, dir)) && |Dir(d, dir)| == cb / SLOT
  {
    assert DirOk(d, root, rank, cb, dir);
  }

  // ---- creation, step by step ----

  /** A creation passes through an existing directory. */
  lemma CreateOld(d: Disk, root: u32, dir: u32, ps: seq<seq<byte>>, meta: Meta, n: nat)
    requires |d.fat| == |d.data| && |d.fat| < END_MARK
    requires CanCreate(d, root, dir, ps, n) && |ps| > 1 && LookupFrom(Dir(d, dir), ps[0], true, 0).Some?
    ensures var next := Enter(root, Dir(d, dir)[LookupFrom(Dir(d, dir), ps[0], true, 0).value]);
      && CanCreate(d, root, next, ps[1..], n)
      && Create(d, root, dir, ps, meta, n) == Create(d, root, next, ps[1..], meta, n)
      && FirstAddition(d, root, dir, ps, meta) == FirstAddition(d, root, next, ps[1..], meta)
      && Lacking(d, root, dir, ps) == Lacking(d, root, next, ps[1..])
      && Landing(d, root, dir, ps, n) == Landing(d, root, next, ps[1..], n)
  {
  }

  /** A creation makes a missing directory and goes on inside it. */
  lemma CreateMissing(d: Disk, root: u32, dir: u32, ps: seq<seq<byte>>, meta: Meta, n: nat)
    requires |d.fat| == |d.data| && |d.fat| < END_MARK
    requires CanCreate(d, root, dir, ps, n) && |ps| > 1 && LookupFrom(Dir(d, dir), ps[0], true, 0).None?
    ensures var spare := LeastFree(d.fat, 2);
      && spare != 0 && Place(Dir(d, dir), ps[0]).Some? && PlainComponents(ps[1..])
      && CanCreate(MakeDir(d, dir, ps[0], n), root, spare, ps[1..], n)
      && Create(d, root, dir, ps, meta, n) == Create(MakeDir(d, dir, ps[0], n), root, spare, ps[1..], meta, n)
      && FirstAddition(d, root, dir, ps, meta) == Addition(dir, ps[0], DirMeta(spare))
      && Lacking(d, root, dir, ps) == ps
      && Landing(d, root, dir, ps, n) == Landing(MakeDir(d, dir, ps[0], n), root, spare, ps[1..], n)
  {
  }

  /** A creation ends by adding the last component. */
  lemma CreateLast(d: Disk, root: u32, dir: u32, ps: seq<seq<byte>>, meta: Meta, n: nat, c: nat)
    requires |d.fat| == |d.data| && |d.fat| < END_MARK && dir < |d.data|
    requires CanCreate(d, root, dir, ps, n) && |ps| == 1
    ensures FirstAddition(d, root, dir, ps, meta) == Addition(dir, ps[0], meta)
    ensures AddsOnly(d, Create(d, root, dir, ps, meta, n), Addition(dir, ps[0], meta), c)
    ensures Landing(d, root, dir, ps, n) == Some(Found(dir, NewSlot(d, dir, ps[0])))
  {
    FewLongSlots(ps[0]);
    AddToDir(d, dir, ps[0], meta, c);
  }

  /** In a directory just made the rest of the path adds its next component, whatever follows. */
  lemma AddsToNew(d: Disk, root: u32, self: u32, parent: u32, ps: seq<seq<byte>>, meta: Meta, n: nat)
    requires |d.fat| == |d.data| && |d.fat| < END_MARK && CanCreate(d, root, self, ps, n) && PlainComponents(ps)
    requires n >= 2 && Dir(d, self) == DotSlots(self, parent, n)
    ensures var a := FirstAddition(d, root, self, ps, meta);
      a.dir == self && a.component == ps[0] && a.meta == if |ps| == 1 then meta else DirMeta(LeastFree(d.fat, 2))
    ensures |ps| > 1 ==> LookupFrom(Dir(d, self), ps[0], true, 0) == None
  {
    NothingInNew(self, parent, n, ps[0]);
  }

  /** Of the directories there before, a creation changes one by one added entry. */
  lemma {:induction false} CreateChanges(d: Disk, root: u32, rank: map<nat, nat>, cb: nat, dir: u32, ps: seq<seq<byte>>,
                                         meta: Meta, c: nat)
    requires TreeOk(d, root, rank, cb) && cb >= 2 * SLOT && dir as nat in rank && c in rank
    requires CanCreate(d, root, dir, ps, cb / SLOT)
    ensures var a := FirstAddition(d, root, dir, ps, meta);
      a.dir in rank && AddsOnly(d, Create(d, root, dir, ps, meta, cb / SLOT), a, c)
    decreases |ps|
  {
    Ranked(d, root, rank, cb, dir);
    if |ps| == 1 {
      CreateLast(d, root, dir, ps, meta, cb / SLOT, c);
    } else if LookupFrom(Dir(d, dir), ps[0], true, 0).Some? {
      CreateOld(d, root, dir, ps, meta, cb / SLOT);
      StepInto(d, root, rank, cb, dir, ps[0]);
      CreateChanges(d, root, rank, cb, Enter(root, Dir(d, dir)[LookupFrom(Dir(d, dir), ps[0], true, 0).value]), ps[1..], meta, c);
    } else {
      CreateMissing(d, root, dir, ps, meta, cb / SLOT);
      CreateBelow(d, root, rank, cb, dir, ps, meta, c);
    }
  }

  lemma {:induction false} CreateBelow(d: Disk, root: u32, rank: map<nat, nat>, cb: nat, dir: u32, ps: seq<seq<byte>>,
                                       meta: Meta, c: nat)
    requires TreeOk(d, root, rank, cb) && cb >= 2 * SLOT && dir as nat in rank && c in rank
    requires CanCreate(d, root, dir, ps, cb / SLOT)
    requires |ps| > 1 && LookupFrom(Dir(d, dir), ps[0], true, 0) == None
    ensures AddsOnly(d, Create(d, root, dir, ps, meta, cb / SLOT), Addition(dir, ps[0], DirMeta(LeastFree(d.fat, 2))), c)
    decreases |ps|, 0
  {
    var n := cb / SLOT;
    var spare := LeastFree(d.fat, 2);
    var e := MakeDir(d, dir, ps[0], n);
    FewLongSlots(ps[0]);
    Ranked(d, root, rank, cb, dir);
    CreateMissing(d, root, dir, ps, meta, n);
    MakeDirKeepsTree(d, root, rank, cb, dir, ps[0]);
    MakeDirDirs(d, dir, ps[0], n, c);
    MakeDirDirs(d, dir, ps[0], n, spare);
    AddsToNew(e, root, spare, dir, ps[1..], meta, n);
    CreateChanges(e, root, Deeper(rank, dir, spare), cb, spare, ps[1..], meta, c);
  }

  // ---- a creation that may stop short ----

  /** Plain components; a path that ends in a slash has an empty one behind them. */
  predicate PlainToEnd(ps: seq<seq<byte>>) {
    forall i :: 0 <= i < |ps| ==> ps[i] == [] || (IsComponent(ps[i]) && DotFree(ps[i]))
  }

  /** Plain names follow the first missing directory. */
  predicate PlainBeyond(d: Disk, root: u32, dir: u32, ps: seq<seq<byte>>)
    decreases |ps|
  {
    |ps| > 1 ==>
      match LookupFrom(Dir(d, dir), ps[0], true, 0)
      case Some(j) => PlainBeyond(d, root, Enter(root, Dir(d, dir)[j]), ps[1..])
      case None => PlainToEnd(ps[1..])
  }

  /** The creation comes to add its first entry: the directory it comes to has room for it and, if
      that is to be a directory, a cluster is free. */
  predicate AddsFirst(d: Disk, root: u32, dir: u32, ps: seq<seq<byte>>, free: bool)
    decreases |ps|
  {
    && ps != [] && ps[0] != []
    && if |ps| == 1 then Place(Dir(d, dir), ps[0]).Some?
       else match LookupFrom(Dir(d, dir), ps[0], true, 0)
         case Some(j) => AddsFirst(d, root, Enter(root, Dir(d, dir)[j]), ps[1..], free)
         case None => Place(Dir(d, dir), ps[0]).Some? && free
  }

  /** In a directory just made a creation leaves every other directory alone. */
  lemma {:induction false} NewBelowKeeps(d: Disk, root: u32, self: u32, parent: u32, ps: seq<seq<byte>>, meta: Meta, n: nat, c: nat)
    requires |d.fat| == |d.data| && |d.fat| < END_MARK && n >= 2 && self < |d.data| && d.fat[self] != 0 && Dir(d, self) == DotSlots(self, parent, n)
    requires PlainToEnd(ps) && c != self as nat && c < |d.fat| && d.fat[c] != 0
    ensures Dir(Create(d, root, self, ps, meta, n), c) == Dir(d, c)
    decreases |ps|
  {
    if ps != [] && ps[0] != [] {
      FewLongSlots(ps[0]);
      if |ps| == 1 {
        AddToDir(d, self, ps[0], meta, c);
      } else {
        NothingInNew(self, parent, n, ps[0]);
        CreateUnfold(d, root, self, ps, meta, n);
        if LeastFree(d.fat, 2) != 0 {
          NextBelowKeeps(d, root, self, ps, meta, n, c);
        }
      }
    }
  }

  lemma {:induction false} NextBelowKeeps(d: Disk, root: u32, self: u32, ps: seq<seq<byte>>, meta: Meta, n: nat, c: nat)
    requires |d.fat| == |d.data| && |d.fat| < END_MARK && n >= 2 && self < |d.data| && d.fat[self] != 0
    requires PlainToEnd(ps) && |ps| > 1 && LongSlots(ps[0]) <= 31 && LeastFree(d.fat, 2) != 0 && c != self as nat && c < |d.fat| && d.fat[c] != 0
    ensures Dir(Create(MakeDir(d, self, ps[0], n), root, LeastFree(d.fat, 2), ps[1..], meta, n), c) == Dir(d, c)
    decreases |ps|, 0
  {
    var spare, e := LeastFree(d.fat, 2), MakeDir(d, self, ps[0], n);
    MakeDirDirs(d, self, ps[0], n, c);
    MakeDirDirs(d, self, ps[0], n, spare);
    NewBelowKeeps(e, root, spare, self, ps[1..], meta, n, c);
  }

  /** What a creation does to the directories there before, with room or without: its first
      addition where it comes to that, and nothing else. */
  lemma {:induction false} CreateMayAdd(d: Disk, root: u32, rank: map<nat, nat>, cb: nat, dir: u32, ps: seq<seq<byte>>, meta: Meta, c: nat)
    requires TreeOk(d, root, rank, cb) && cb >= 2 * SLOT && dir as nat in rank && c in rank && Parts(ps) && ps != []
    requires PlainBeyond(d, root, dir, ps)
    ensures var a, e := FirstAddition(d, root, dir, ps, meta), Create(d, root, dir, ps, meta, cb / SLOT);
      && a.dir in rank
      && if AddsFirst(d, root, dir, ps, LeastFree(d.fat, 2) != 0) then AddsOnly(d, e, a, c) else Dir(e, c) == Dir(d, c)
    decreases |ps|
  {
    Ranked(d, root, rank, cb, dir);
    if ps[0] != [] {
      if |ps| == 1 {
        FewLongSlots(ps[0]);
        AddToDir(d, dir, ps[0], meta, c);
      } else {
        CreateUnfold(d, root, dir, ps, meta, cb / SLOT);
        var r := LookupFrom(Dir(d, dir), ps[0], true, 0);
        if r.Some? {
          StepInto(d, root, rank, cb, dir, ps[0]);
          CreateMayAdd(d, root, rank, cb, Enter(root, Dir(d, dir)[r.value]), ps[1..], meta, c);
        } else if LeastFree(d.fat, 2) != 0 {
          MissingMayAdd(d, root, rank, cb, dir, ps, meta, c);
        }
      }
    }
  }

  lemma MissingMayAdd(d: Disk, root: u32, rank: map<nat, nat>, cb: nat, dir: u32, ps: seq<seq<byte>>, meta: Meta, c: nat)
    requires TreeOk(d, root, rank, cb) && cb >= 2 * SLOT && dir as nat in rank && c in rank
    requires |ps| > 1 && IsComponent(ps[0]) && PlainToEnd(ps[1..]) && LeastFree(d.fat, 2) != 0
    ensures var spare := LeastFree(d.fat, 2);
      var e := Create(MakeDir(d, dir, ps[0], cb / SLOT), root, spare, ps[1..], meta, cb / SLOT);
      if Place(Dir(d, dir), ps[0]).Some? then AddsOnly(d, e, Addition(dir, ps[0], DirMeta(spare)), c) else Dir(e, c) == Dir(d, c)
  {
    var spare, n := LeastFree(d.fat, 2), cb / SLOT;
    FewLongSlots(ps[0]);
    Ranked(d, root, rank, cb, dir);
    SpareIsNew(d, root, rank, cb);
    RankedIsUsed(d, root, rank, cb, c);
    MakeDirDirs(d, dir, ps[0], n, c);
    MakeDirDirs(d, dir, ps[0], n, spare);
    NewBelowKeeps(MakeDir(d, dir, ps[0], n), root, spare, dir, ps[1..], meta, n, c);
  }

  // ---- every other path ----

  /** No step of the path goes through the directory that gained the entry by a name the entry shadows. */
  predicate Unshadowed(d: Disk, root: u32, dir: u32, qs: seq<seq<byte>>, a: Addition)
    decreases |qs|
  {
    qs != [] ==>
      match Lookup(Dir(d, dir), qs[0])
      case None => true
      case Some(j) =>
        && !StepShadowed(d, dir, qs[0], a)
        && Unshadowed(d, root, Enter(root, Dir(d, dir)[j]), qs[1..], a)
  }

  /** One step of a trace. */
  lemma TraceStep(e: Disk, root: u32, dir: u32, ps: seq<seq<byte>>, j: nat)
    requires |ps| > 1 && ps[0] != [] && Lookup(Dir(e, dir), ps[0]) == Some(j) && IsDirectory(Dir(e, dir)[j])
    ensures var t := Trace(e, root, Enter(root, Dir(e, dir)[j]), ps[1..]);
      Trace(e, root, dir, ps) == if t.Some? then Some([Found(dir, j)] + t.value) else None
  {
  }

  /** A creation leaves a path that resolved to the same entries step by step exactly when
      none of the steps is shadowed, and those entries are unchanged then. */
  lemma {:induction false} CreateKeepsPaths(d: Disk, e: Disk, root: u32, rank: map<nat, nat>, cb: nat, a: Addition,
                                            q: u32, qs: seq<seq<byte>>)
    requires TreeOk(d, root, rank, cb) && a.dir in rank && q as nat in rank
    requires a.meta.attr != ATTR_LFN
    requires forall c :: c in rank ==> AddsOnly(d, e, a, c)
    requires Trace(d, root, q, qs).Some?
    ensures Trace(e, root, q, qs) == Trace(d, root, q, qs) <==> Unshadowed(d, root, q, qs, a)
    ensures Unshadowed(d, root, q, qs, a) ==> Find(e, root, q, qs) == Find(d, root, q, qs)
    decreases |qs|
  {
    TraceStarts(d, root, q, qs);
    StepKept(d, e, root, rank, cb, a, q, qs[0]);
    if |qs| > 1 {
      var next := Enter(root, Dir(d, q)[Lookup(Dir(d, q), qs[0]).value]);
      StepDown(d, root, rank, cb, q, qs[0]);
      SameTail(d, e, root, q, qs);
      CreateKeepsPaths(d, e, root, rank, cb, a, next, qs[1..]);
    }
    KeptFromStep(d, e, root, q, qs, a);
  }

  predicate StepShadowed(d: Disk, q: u32, c: seq<byte>, a: Addition) {
    var j := Lookup(Dir(d, q), c);
    j.Some? && q as nat == a.dir && Place(Dir(d, q), a.component).Some? && Shadows(Dir(d, q), a.component, c, j.value)
  }

  /** A path is kept exactly when its first step and the rest are. */
  lemma KeptFromStep(d: Disk, e: Disk, root: u32, q: u32, qs: seq<seq<byte>>, a: Addition)
    requires Trace(d, root, q, qs).Some? && qs != [] && qs[0] != [] && Lookup(Dir(d, q), qs[0]).Some?
    requires SlotKept(d, e, q, qs[0])
    requires Lookup(Dir(e, q), qs[0]) == Lookup(Dir(d, q), qs[0]) <==> !StepShadowed(d, q, qs[0], a)
    requires |qs| > 1 ==>
      var next := Enter(root, Dir(d, q)[Lookup(Dir(d, q), qs[0]).value]);
      && (Trace(e, root, next, qs[1..]) == Trace(d, root, next, qs[1..]) <==> Unshadowed(d, root, next, qs[1..], a))
      && (Unshadowed(d, root, next, qs[1..], a) ==> Find(e, root, next, qs[1..]) == Find(d, root, next, qs[1..]))
    ensures Trace(e, root, q, qs) == Trace(d, root, q, qs) <==> Unshadowed(d, root, q, qs, a)
    ensures Unshadowed(d, root, q, qs, a) ==> Find(e, root, q, qs) == Find(d, root, q, qs)
  {
    TraceStarts(d, root, q, qs);
    if Lookup(Dir(e, q), qs[0]) != Lookup(Dir(d, q), qs[0]) {
      if Trace(e, root, q, qs).Some? {
        TraceStarts(e, root, q, qs);
      }
    } else if |qs| > 1 {
      SameTail(d, e, root, q, qs);
    }
  }

  /** The slot a step led to is still what it was. */
  predicate SlotKept(d: Disk, e: Disk, q: u32, c: seq<byte>) {
    var j := Lookup(Dir(d, q), c);
    j.Some? ==> j.value < |Dir(e, q)| && Dir(e, q)[j.value] == Dir(d, q)[j.value]
  }

  /** Two disks that agree on a path's first step agree on the path exactly when they agree on the rest. */
  lemma SameTail(d: Disk, e: Disk, root: u32, q: u32, qs: seq<seq<byte>>)
    requires |qs| > 1 && Trace(d, root, q, qs).Some? && Lookup(Dir(d, q), qs[0]).Some? && SlotKept(d, e, q, qs[0])
    ensures var next := Enter(root, Dir(d, q)[Lookup(Dir(d, q), qs[0]).value]);
      && Trace(d, root, next, qs[1..]).Some?
      && (Lookup(Dir(e, q), qs[0]) == Lookup(Dir(d, q), qs[0]) ==>
           (Trace(e, root, q, qs) == Trace(d, root, q, qs) <==> Trace(e, root, next, qs[1..]) == Trace(d, root, next, qs[1..])))
  {
    var j := Lookup(Dir(d, q), qs[0]).value;
    TraceStep(d, root, q, qs, j);
    if Lookup(Dir(e, q), qs[0]) == Some(j) {
      TraceStep(e, root, q, qs, j);
      var next := Enter(root, Dir(d, q)[j]);
      var t, u := Trace(d, root, next, qs[1..]), Trace(e, root, next, qs[1..]);
      if u.Some? && t.Some? {
        assert ([Found(q, j)] + u.value)[1..] == u.value;
        assert ([Found(q, j)] + t.value)[1..] == t.value;
      }
    }
  }

  lemma TraceStarts(d: Disk, root: u32, q: u32, qs: seq<seq<byte>>)
    requires Trace(d, root, q, qs).Some?
    ensures qs != [] && Lookup(Dir(d, q), qs[0]).Some? && |qs| == |Trace(d, root, q, qs).value|
    ensures |qs| > 1 ==> IsDirectory(Dir(d, q)[Lookup(Dir(d, q), qs[0]).value])
    ensures Trace(d, root, q, qs).value[0] == Found(q, Lookup(Dir(d, q), qs[0]).value)
  {
  }

  lemma StepKept(d: Disk, e: Disk, root: u32, rank: map<nat, nat>, cb: nat, a: Addition, q: u32, c: seq<byte>)
    requires TreeOk(d, root, rank, cb) && a.dir in rank && q as nat in rank
    requires a.meta.attr != ATTR_LFN && AddsOnly(d, e, a, q)
    requires Lookup(Dir(d, q), c).Some?
    ensures SlotKept(d, e, q, c)
    ensures Lookup(Dir(e, q), c) == Lookup(Dir(d, q), c) <==> !StepShadowed(d, q, c, a)
  {
    Ranked(d, root, rank, cb, q);
    if q as nat == a.dir {
      var D := Dir(d, q);
      var j := Lookup(D, c).value;
      OthersStillFound(D, a.component, a.meta.attr, a.meta.cluster, a.meta.size, c, j);
      AddFrame(D, Place(D, a.component).value, a.component, a.meta.attr, a.meta.cluster, a.meta.size, j);
    }
  }

  /** Where the directories are the same every path is. */
  lemma {:induction false} SameDirsSamePaths(d: Disk, e: Disk, root: u32, rank: map<nat, nat>, cb: nat, q: u32, qs: seq<seq<byte>>)
    requires TreeOk(d, root, rank, cb) && q as nat in rank && forall c :: c in rank ==> Dir(e, c) == Dir(d, c)
    ensures Trace(e, root, q, qs) == Trace(d, root, q, qs) && Find(e, root, q, qs) == Find(d, root, q, qs)
    decreases |qs|
  {
    if |qs| > 1 && qs[0] != [] {
      var j := Lookup(Dir(d, q), qs[0]);
      if j.Some? && IsDirectory(Dir(d, q)[j.value]) {
        StepDown(d, root, rank, cb, q, qs[0]);
        SameDirsSamePaths(d, e, root, rank, cb, Enter(root, Dir(d, q)[j.value]), qs[1..]);
      }
    }
  }

  /** Every other path across a creation, with room for it or without: it resolves through the same
      entries exactly when the entry added, if one is, shadows none of its steps. */
  lemma CreationAndOtherPaths(d: Disk, root: u32, rank: map<nat, nat>, cb: nat, dir: u32, ps: seq<seq<byte>>, meta: Meta,
                              q: u32, qs: seq<seq<byte>>)
    requires TreeOk(d, root, rank, cb) && cb >= 2 * SLOT && dir as nat in rank && q as nat in rank
    requires meta.attr != ATTR_LFN && Parts(ps) && ps != [] && PlainBeyond(d, root, dir, ps)
    requires Trace(d, root, q, qs).Some?
    ensures var e, a := Create(d, root, dir, ps, meta, cb / SLOT), FirstAddition(d, root, dir, ps, meta);
      var kept := AddsFirst(d, root, dir, ps, LeastFree(d.fat, 2) != 0) ==> Unshadowed(d, root, q, qs, a);
      && (Trace(e, root, q, qs) == Trace(d, root, q, qs) <==> kept)
      && (kept ==> Find(e, root, q, qs) == Find(d, root, q, qs))
  {
    var e, a := Create(d, root, dir, ps, meta, cb / SLOT), FirstAddition(d, root, dir, ps, meta);
    var adds := AddsFirst(d, root, dir, ps, LeastFree(d.fat, 2) != 0);
    forall c | c in rank
      ensures a.dir in rank && if adds then AddsOnly(d, e, a, c) else Dir(e, c) == Dir(d, c)
    {
      CreateMayAdd(d, root, rank, cb, dir, ps, meta, c);
    }
    AdditionAttr(d, root, dir, ps, meta);
    if adds {
      CreateKeepsPaths(d, e, root, rank, cb, a, q, qs);
    } else {
      SameDirsSamePaths(d, e, root, rank, cb, q, qs);
    }
  }

  lemma {:induction false} AdditionAttr(d: Disk, root: u32, dir: u32, ps: seq<seq<byte>>, meta: Meta)
    requires ps != [] && |d.fat| < END_MARK && meta.attr != ATTR_LFN
    ensures FirstAddition(d, root, dir, ps, meta).meta.attr != ATTR_LFN
    decreases |ps|
  {
    if |ps| > 1 {
      var j := LookupFrom(Dir(d, dir), ps[0], true, 0);
      if j.Some? {
        AdditionAttr(d, root, Enter(root, Dir(d, dir)[j.value]), ps[1..], meta);
      }
    }
  }

  // ---- the drive ----

  /** Add one entry to a directory cluster; the cluster is written back when there was room. */
  method AddEntry(vol: Volume, dir: nat, component: seq<byte>, meta: Meta)
    requires vol.Valid() && 2 <= dir < vol.g.Clusters() && IsComponent(component)
    modifies vol
    ensures vol.Valid() && vol.View() == AddTo(old(vol.View()), dir, component, meta)
  {
    FewLongSlots(component);
    var alias := new byte[11];
    NameTo83(component, alias);
    var entries := LoadDirectory(vol, dir);
    var ok := DirAddEntry(entries, component, alias[..], meta.attr, meta.cluster, meta.size);
    if ok {
      StoreDirectory(vol, dir, entries);
    }
  }

  /** Fill a cluster with the entries . and .. of a new directory. */
  method WriteDots(vol: Volume, self: u32, parent: u32)
    requires vol.Valid() && 2 <= self < vol.g.Clusters()
    modifies vol
    ensures vol.Valid()
    ensures vol.View() == Disk(old(vol.View().fat),
      old(vol.View().data)[self := BytesOf(DotSlots(self, parent, vol.g.ClusterBytes() / SLOT))])
  {
    ClusterSlots(vol.g.spc);
    var de := FillDots(self, parent, vol.g.ClusterBytes() / SLOT);
    StoreDirectory(vol, self, de);
  }

  method FillDots(self: u32, parent: u32, n: nat) returns (de: array<Slot>)
    requires n >= 2
    ensures fresh(de) && de[..] == DotSlots(self, parent, n)
  {
    var zero: Slot := seq(SLOT, _ => 0);
    de := new Slot[n](_ => zero);
    assert de[..] == seq(n, _ => zero);
    var alias := new byte[11];
    NameTo83(DOT_NAME, alias);
    WriteShort(de, 0, alias[..], ATTR_DIRECTORY, self, 0);
    NameTo83(DOTDOT_NAME, alias);
    WriteShort(de, 1, alias[..], ATTR_DIRECTORY, parent, 0);
    DotSlotsAre(self, parent, n, zero);
  }

  lemma DotSlotsAre(self: u32, parent: u32, n: nat, zero: Slot)
    requires n >= 2 && zero == seq(SLOT, _ => 0)
    ensures DotSlots(self, parent, n) ==
      seq(n, _ => zero)[0 := ShortSlot(zero, Short83(DOT_NAME), ATTR_DIRECTORY, self, 0)]
                       [1 := ShortSlot(zero, Short83(DOTDOT_NAME), ATTR_DIRECTORY, parent, 0)]
  {
  }

  /** Make a missing directory; 0 when no cluster is free. */
  method MakeDirectory(vol: Volume, dir: u32, component: seq<byte>) returns (spare: u32)
    requires vol.Valid() && 2 <= dir < vol.g.Clusters() && IsComponent(component)
    modifies vol
    ensures vol.Valid() && spare == LeastFree(old(vol.View().fat), 2)
    ensures vol.View() == MakeDir(old(vol.View()), dir, component, vol.g.ClusterBytes() / SLOT)
  {
    spare := vol.FindFree();
    if spare != 0 {
      assert END % FAT_MASK == END;
      vol.SetFat(spare, END);
      AddEntry(vol, dir, component, DirMeta(spare));
      WriteDots(vol, spare, dir);
    }
  }

  lemma FirstComponent(path: seq<byte>)
    requires path != [] && Ascii(path) && ShortComponents(path)
    ensures var m := ComponentLen(path);
      if m == 0 then Ascii(path[1..]) && ShortComponents(path[1..])
      else IsComponent(path[..m]) && (m < |path| ==> Ascii(path[m + 1..]) && ShortComponents(path[m + 1..]))
  {
  }

  /** The path behind its first component, or behind a slash in front. */
  function Behind(path: seq<byte>): (rest: seq<byte>)
    requires path != []
    ensures |rest| < |path|
  {
    var m := ComponentLen(path);
    if m == 0 then path[1..] else if m == |path| then [] else path[m + 1..]
  }

  lemma BehindFits(path: seq<byte>)
    requires path != [] && Ascii(path) && ShortComponents(path)
    ensures Ascii(Behind(path)) && ShortComponents(Behind(path))
  {
    FirstComponent(path);
  }

  lemma {:induction false} SplitIsParts(path: seq<byte>)
    requires Ascii(path) && ShortComponents(path)
    ensures Parts(Split(path))
    decreases |path|
  {
    if path != [] {
      var m := ComponentLen(path);
      SplitStep(path);
      FirstComponent(path);
      if m < |path| {
        SplitIsParts(path[if m == 0 then 1 else m + 1..]);
      }
    }
  }

  method AddLast(vol: Volume, dir: u32, component: seq<byte>, meta: Meta, ghost rank: map<nat, nat>)
    requires vol.Valid() && vol.g.root < 0x1_0000_0000 && IsComponent(component)
    requires TreeOk(vol.View(), vol.g.root, rank, vol.g.ClusterBytes()) && dir as nat in rank
    modifies vol
    ensures vol.Valid() && vol.View() == AddTo(old(vol.View()), dir, component, meta)
  {
    Ranked(vol.View(), vol.g.root, rank, vol.g.ClusterBytes(), dir);
    AddEntry(vol, dir, component, meta);
  }

  /** What the first component of a path means for its creation. */
  lemma CreateFront(d: Disk, root: u32, dir: u32, path: seq<byte>, meta: Meta, n: nat)
    requires |d.fat| == |d.data| && |d.fat| < END_MARK && path != []
    ensures var m := ComponentLen(path);
      && (m == 0 ==> Create(d, root, dir, Split(path), meta, n) == Create(d, root, dir, Split(path[1..]), meta, n))
      && (m == |path| ==> Create(d, root, dir, Split(path), meta, n) == AddTo(d, dir, path[..m], meta))
      && (0 < m < |path| ==>
           |Split(path)| > 1 && Split(path)[0] == path[..m] && Split(path)[1..] == Split(path[m + 1..]))
  {
    SplitStep(path);
  }

  /** One round of the loop of `_fat32_create_entry`, entered at the path's next component. */
  method CreateRound(vol: Volume, dir: u32, path: seq<byte>, meta: Meta, ghost rank: map<nat, nat>)
    returns (done: bool, next: u32, rest: seq<byte>, ghost known: map<nat, nat>)
    requires vol.Valid() && vol.g.root < 0x1_0000_0000 && path != [] && Ascii(path) && ShortComponents(path) && ComponentLen(path) > 0
    requires TreeOk(vol.View(), vol.g.root, rank, vol.g.ClusterBytes()) && dir as nat in rank
    modifies vol
    ensures vol.Valid() && rest == Behind(path)
    ensures var d, n := old(vol.View()), vol.g.ClusterBytes() / SLOT;
      Create(d, vol.g.root, dir, Split(path), meta, n) ==
        if done then vol.View() else Create(vol.View(), vol.g.root, next, Split(rest), meta, n)
    ensures !done ==> next as nat in known && TreeOk(vol.View(), vol.g.root, known, vol.g.ClusterBytes())
  {
    var m := ComponentLen(path);
    FirstComponent(path);
    CreateFront(vol.View(), vol.g.root, dir, path, meta, vol.g.ClusterBytes() / SLOT);
    if m == |path| {
      AddLast(vol, dir, path[..m], meta, rank);
      done, next, rest, known := true, dir, [], rank;
    } else {
      done, next, known := CreateStep(vol, dir, path[..m], meta, rank, Split(path));
      rest := path[m + 1..];
    }
  }

  /** `_fat32_create_entry`. */
  method CreateEntry(vol: Volume, cwd: u32, name: seq<byte>, meta: Meta, ghost rank: map<nat, nat>)
    requires vol.Valid() && vol.g.root < 0x1_0000_0000
    requires TreeOk(vol.View(), vol.g.root, rank, vol.g.ClusterBytes())
    requires cwd as nat in rank && Ascii(name) && ShortComponents(name)
    modifies vol
    ensures vol.Valid()
    ensures vol.View() == Create(old(vol.View()), vol.g.root, StartDir(vol.g.root, cwd, name), Split(name), meta,
                                 vol.g.ClusterBytes() / SLOT)
  {
    ghost var goal := Create(vol.View(), vol.g.root, StartDir(vol.g.root, cwd, name), Split(name), meta, vol.g.ClusterBytes() / SLOT);
    ghost var known := rank;
    var target: u32, path := cwd, name;
    if |name| > 0 && name[0] == SLASH {
      FirstComponent(name);
      target, path := vol.g.root, name[1..];
    }
    while |path| > 0
      invariant vol.Valid() && target as nat in known && Ascii(path) && ShortComponents(path)
      invariant TreeOk(vol.View(), vol.g.root, known, vol.g.ClusterBytes())
      invariant Create(vol.View(), vol.g.root, target, Split(path), meta, vol.g.ClusterBytes() / SLOT) == goal
      decreases |path|
    {
      var done;
      BehindFits(path);
      if ComponentLen(path) == 0 {
        CreateFront(vol.View(), vol.g.root, target, path, meta, vol.g.ClusterBytes() / SLOT);
        path := path[1..];
        continue;
      }
      done, target, path, known := CreateRound(vol, target, path, meta, known);
      if done {
        return;
      }
    }
  }

  /** An intermediate component: enter the directory it names, or make one. */
  method CreateStep(vol: Volume, dir: u32, component: seq<byte>, ghost meta: Meta, ghost rank: map<nat, nat>, ghost ps: seq<seq<byte>>)
    returns (stop: bool, next: u32, ghost known: map<nat, nat>)
    requires vol.Valid() && vol.g.root < 0x1_0000_0000 && IsComponent(component)
    requires TreeOk(vol.View(), vol.g.root, rank, vol.g.ClusterBytes()) && dir as nat in rank
    requires |ps| > 1 && ps[0] == component
    modifies vol
    ensures vol.Valid() && next as nat in known
    ensures TreeOk(vol.View(), vol.g.root, known, vol.g.ClusterBytes())
    ensures var d, n := old(vol.View()), vol.g.ClusterBytes() / SLOT;
      Create(d, vol.g.root, dir, ps, meta, n) ==
        if stop then vol.View() else Create(vol.View(), vol.g.root, next, ps[1..], meta, n)
  {
    ghost var d := vol.View();
    TreeIsNavigable(d, vol.g.root, rank, vol.g.ClusterBytes());
    var e;
    e, next := FindStep(vol, dir, component, true, rank.Keys);
    CreateUnfold(d, vol.g.root, dir, ps, meta, vol.g.ClusterBytes() / SLOT);
    if e.Some? {
      return false, next, rank;
    }
    stop, next, known := MakeMissing(vol, dir, component, rank);
  }

  method MakeMissing(vol: Volume, dir: u32, component: seq<byte>, ghost rank: map<nat, nat>)
    returns (stop: bool, next: u32, ghost known: map<nat, nat>)
    requires vol.Valid() && vol.g.root < 0x1_0000_0000 && IsComponent(component)
    requires TreeOk(vol.View(), vol.g.root, rank, vol.g.ClusterBytes()) && dir as nat in rank
    modifies vol
    ensures vol.Valid() && next as nat in known
    ensures TreeOk(vol.View(), vol.g.root, known, vol.g.ClusterBytes())
    ensures stop <==> LeastFree(old(vol.View().fat), 2) == 0
    ensures vol.View() == MakeDir(old(vol.View()), dir, component, vol.g.ClusterBytes() / SLOT)
    ensures !stop ==> next == LeastFree(old(vol.View().fat), 2)
  {
    Ranked(vol.View(), vol.g.root, rank, vol.g.ClusterBytes(), dir);
    if LeastFree(vol.View().fat, 2) != 0 {
      MakeDirKeepsTree(vol.View(), vol.g.root, rank, vol.g.ClusterBytes(), dir, component);
    }
    next := MakeDirectory(vol, dir, component);
    if next == 0 {
      return true, dir, rank;
    }
    return false, next, Deeper(rank, dir, next);
  }
}
