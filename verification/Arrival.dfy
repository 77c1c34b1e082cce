/** Where a lookup of a path ends once the path has been created. The new entry can come to
    stand in front of an older one that the path passes, so a path through . and .. need not
    lead to what was created under it; `Arrives` says, from the disk before, when it does. */
module Arrival {
  import opened Words
  import opened Names
  import opened Slots
  import opened Directory
  import opened DirectoryEdit
  import opened DirectoryLaws
  import opened Volume
  import opened Tree
  import opened Paths

  // ---- the directories a creation makes ----

  /** The clusters of the directories made for all components but the last. */
  function NewDirs(d: Disk, dir: u32, comps: seq<seq<byte>>, n: nat): (ns: seq<u32>)
    requires |d.fat| == |d.data| && |d.fat| < END_MARK
    ensures |ns| == if comps == [] then 0 else |comps| - 1
    decreases |comps|
  {
    if |comps| <= 1 then [] else
    var spare := LeastFree(d.fat, 2);
    [spare] + NewDirs(MakeDir(d, dir, comps[0], n), spare, comps[1..], n)
  }

  /** E is D with the entry of a component added. */
  predicate IsAdded(D: seq<Slot>, E: seq<Slot>, component: seq<byte>, m: Meta) {
    && IsComponent(component) && LongSlots(component) <= 31 && Place(D, component).Some?
    && E == Written(D, Place(D, component).value, component, m.attr, m.cluster, m.size)
  }

  /** Directory `self` below `up` holds, besides its dots, the entry of one component. */
  predicate HoldsOne(e: Disk, self: u32, up: u32, component: seq<byte>, meta: Meta, n: nat) {
    DotFree(component) && IsAdded(DotSlots(self, up, n), Dir(e, self), component, meta)
  }

  /** The directory above the i-th new one. */
  function UpOf(top: u32, ns: seq<u32>, i: nat): u32
    requires 1 <= i <= |ns|
  {
    if i == 1 then top else ns[i - 2]
  }

  /** What the entry of component i is given. */
  function MetaOf(ns: seq<u32>, meta: Meta, i: nat): Meta
    requires i <= |ns|
  {
    if i == |ns| then meta else DirMeta(ns[i])
  }

  ghost predicate DirMade(e: Disk, top: u32, comps: seq<seq<byte>>, ns: seq<u32>, meta: Meta, n: nat, i: nat)
    requires 1 <= i <= |ns| && |comps| == |ns| + 1
  {
    HoldsOne(e, ns[i - 1], UpOf(top, ns, i), comps[i], MetaOf(ns, meta, i), n)
  }

  ghost predicate DirsMade(e: Disk, top: u32, comps: seq<seq<byte>>, ns: seq<u32>, meta: Meta, n: nat) {
    |comps| == |ns| + 1 && forall i: nat :: 1 <= i <= |ns| ==> DirMade(e, top, comps, ns, meta, n, i)
  }

  /** Clusters that were no directories, each different from the others. */
  predicate AllNew(rank: map<nat, nat>, ns: seq<u32>) {
    && (forall i :: 0 <= i < |ns| ==> ns[i] as nat !in rank && ns[i] != 0)
    && (forall i, j :: 0 <= i < j < |ns| ==> ns[i] != ns[j])
  }

  lemma DirsMadeFrom(e: Disk, top: u32, comps: seq<seq<byte>>, spare: u32, rest: seq<u32>, meta: Meta, n: nat)
    requires |comps| > 1 && DirsMade(e, spare, comps[1..], rest, meta, n)
    requires HoldsOne(e, spare, top, comps[1], MetaOf([spare] + rest, meta, 1), n)
    ensures DirsMade(e, top, comps, [spare] + rest, meta, n)
  {
    var ns := [spare] + rest;
    forall i: nat | 1 <= i <= |ns|
      ensures DirMade(e, top, comps, ns, meta, n, i)
    {
      if i > 1 {
        DirMadeBehind(e, top, comps, spare, rest, ns, meta, n, i - 1);
      }
    }
  }

  lemma DirMadeBehind(e: Disk, top: u32, comps: seq<seq<byte>>, spare: u32, rest: seq<u32>, ns: seq<u32>, meta: Meta, n: nat, k: nat)
    requires |comps| == |rest| + 2 && DirsMade(e, spare, comps[1..], rest, meta, n) && ns == [spare] + rest && 1 <= k <= |rest|
    ensures DirMade(e, top, comps, ns, meta, n, k + 1)
  {
    assert DirMade(e, spare, comps[1..], rest, meta, n, k);
    SameLast(top, comps, spare, rest, ns, k);
    assert k < |rest| ==> ns[k + 1] == rest[k];
  }

  /** The slot an addition to a directory takes. */
  function SlotFor(dir: u32, D: seq<Slot>, component: seq<byte>): Option<Found> {
    match Place(D, component)
    case None => None
    case Some(i) => Some(Found(dir, i + LongSlots(component)))
  }

  /** Where the last component's entry goes. */
  function TargetOf(d: Disk, top: u32, comps: seq<seq<byte>>, ns: seq<u32>, n: nat): Option<Found>
    requires |comps| == |ns| + 1
  {
    var k := |ns|;
    if k == 0 then SlotFor(top, Dir(d, top), comps[0])
    else SlotFor(ns[k - 1], DotSlots(ns[k - 1], UpOf(top, ns, k), n), comps[k])
  }

  lemma TargetBelow(d: Disk, e: Disk, top: u32, comps: seq<seq<byte>>, spare: u32, rest: seq<u32>, ns: seq<u32>, n: nat)
    requires |comps| == |rest| + 2 && Dir(e, spare) == DotSlots(spare, top, n) && ns == [spare] + rest
    ensures TargetOf(d, top, comps, ns, n) == TargetOf(e, spare, comps[1..], rest, n)
  {
    var k := |rest|;
    assert comps[1..][k] == comps[k + 1];
    if k > 0 {
      SameLast(top, comps, spare, rest, ns, k);
    }
  }

  lemma SameLast(top: u32, comps: seq<seq<byte>>, spare: u32, rest: seq<u32>, ns: seq<u32>, k: nat)
    requires ns == [spare] + rest && |comps| == |rest| + 2 && 1 <= k <= |rest|
    ensures ns[k] == rest[k - 1] && UpOf(top, ns, k + 1) == UpOf(spare, rest, k) && comps[k + 1] == comps[1..][k]
  {
  }

  /** The directories a creation made, and the slot it ended at. */
  ghost predicate Laid(d: Disk, g: Disk, root: u32, rank: map<nat, nat>, top: u32, comps: seq<seq<byte>>, ns: seq<u32>, meta: Meta, n: nat)
    requires |d.fat| == |d.data| && |d.fat| < END_MARK
  {
    && DirsMade(g, top, comps, ns, meta, n) && AllNew(rank, ns)
    && Landing(d, root, top, comps, n) == TargetOf(d, top, comps, ns, n)
    && FirstAddition(d, root, top, comps, meta) == Addition(top, comps[0], MetaOf(ns, meta, 0))
  }

  /** A creation below `top`, all of whose directories are missing, makes them one inside the other. */
  lemma {:induction false} CreateMakesDirs(d: Disk, root: u32, rank: map<nat, nat>, cb: nat, top: u32, comps: seq<seq<byte>>, meta: Meta)
    requires TreeOk(d, root, rank, cb) && cb >= 2 * SLOT && top as nat in rank
    requires CanCreate(d, root, top, comps, cb / SLOT)
    requires |comps| > 1 ==> LookupFrom(Dir(d, top), comps[0], true, 0) == None
    ensures Laid(d, Create(d, root, top, comps, meta, cb / SLOT), root, rank, top, comps, NewDirs(d, top, comps, cb / SLOT), meta, cb / SLOT)
    decreases |comps|
  {
    if |comps| > 1 {
      CreateMakesMore(d, Create(d, root, top, comps, meta, cb / SLOT), root, rank, cb, top, comps, meta);
    } else {
      LaidHere(d, Create(d, root, top, comps, meta, cb / SLOT), root, rank, top, comps, [], meta, cb / SLOT);
    }
  }

  lemma LaidHere(d: Disk, g: Disk, root: u32, rank: map<nat, nat>, top: u32, comps: seq<seq<byte>>, ns: seq<u32>, meta: Meta, n: nat)
    requires |d.fat| == |d.data| && |d.fat| < END_MARK && |comps| == 1 && comps[0] != [] && ns == []
    ensures Laid(d, g, root, rank, top, comps, ns, meta, n)
  {
  }

  lemma {:induction false} CreateMakesMore(d: Disk, g: Disk, root: u32, rank: map<nat, nat>, cb: nat, top: u32, comps: seq<seq<byte>>, meta: Meta)
    requires TreeOk(d, root, rank, cb) && cb >= 2 * SLOT && top as nat in rank && g == Create(d, root, top, comps, meta, cb / SLOT)
    requires CanCreate(d, root, top, comps, cb / SLOT)
    requires |comps| > 1 && LookupFrom(Dir(d, top), comps[0], true, 0) == None
    ensures Laid(d, g, root, rank, top, comps, NewDirs(d, top, comps, cb / SLOT), meta, cb / SLOT)
    decreases |comps|, 0
  {
    var n := cb / SLOT;
    var spare := LeastFree(d.fat, 2);
    var e := MakeDir(d, top, comps[0], n);
    var more := Deeper(rank, top, spare);
    CreateMissing(d, root, top, comps, meta, n);
    MakeDirKeepsTree(d, root, rank, cb, top, comps[0]);
    NewDirIsEmpty(d, root, rank, cb, top, comps[0]);
    AddsToNew(e, root, spare, top, comps[1..], meta, n);
    CreateMakesDirs(e, root, more, cb, spare, comps[1..], meta);
    CreateChanges(e, root, more, cb, spare, comps[1..], meta, spare);
    LaidBelow(d, e, g, root, rank, top, comps, spare, NewDirs(e, spare, comps[1..], n), meta, n);
  }

  lemma NewDirIsEmpty(d: Disk, root: u32, rank: map<nat, nat>, cb: nat, top: u32, component: seq<byte>)
    requires TreeOk(d, root, rank, cb) && top as nat in rank && IsComponent(component)
    requires LeastFree(d.fat, 2) != 0 && LeastFree(d.fat, 2) !in rank
    ensures Dir(MakeDir(d, top, component, cb / SLOT), LeastFree(d.fat, 2)) == DotSlots(LeastFree(d.fat, 2), top, cb / SLOT)
  {
    Ranked(d, root, rank, cb, top);
    FewLongSlots(component);
    MakeDirDirs(d, top, component, cb / SLOT, LeastFree(d.fat, 2));
  }

  lemma LaidBelow(d: Disk, e: Disk, g: Disk, root: u32, rank: map<nat, nat>, top: u32, comps: seq<seq<byte>>, spare: u32, rest: seq<u32>,
                  meta: Meta, n: nat)
    requires |d.fat| == |d.data| == |e.fat| == |e.data| && |d.fat| < END_MARK
    requires |comps| > 1 && top as nat in rank && spare != 0 && spare as nat !in rank && PlainComponents(comps[1..])
    requires Dir(e, spare) == DotSlots(spare, top, n)
    requires Laid(e, g, root, Deeper(rank, top, spare), spare, comps[1..], rest, meta, n)
    requires AddsOnly(e, g, FirstAddition(e, root, spare, comps[1..], meta), spare)
    requires Landing(d, root, top, comps, n) == Landing(e, root, spare, comps[1..], n)
    requires FirstAddition(d, root, top, comps, meta) == Addition(top, comps[0], DirMeta(spare))
    ensures Laid(d, g, root, rank, top, comps, [spare] + rest, meta, n)
  {
    assert IsComponent(comps[1..][0]) && DotFree(comps[1..][0]);
    FirstHolds(e, g, top, comps, spare, rest, meta, n, MetaOf(rest, meta, 0));
    DirsMadeFrom(g, top, comps, spare, rest, meta, n);
    TargetBelow(d, e, top, comps, spare, rest, [spare] + rest, n);
    AllNewFrom(rank, top, spare, rest, [spare] + rest);
    LaidWhen(d, g, root, rank, top, comps, [spare] + rest, meta, n, spare);
  }

  lemma AllNewFrom(rank: map<nat, nat>, top: u32, spare: u32, rest: seq<u32>, ns: seq<u32>)
    requires top as nat in rank && spare != 0 && spare as nat !in rank && AllNew(Deeper(rank, top, spare), rest)
    requires ns == [spare] + rest
    ensures AllNew(rank, ns)
  {
    forall i | 0 <= i < |ns|
      ensures ns[i] as nat !in rank && ns[i] != 0
    {
      assert i > 0 ==> ns[i] == rest[i - 1];
    }
    forall i, j | 0 <= i < j < |ns|
      ensures ns[i] != ns[j]
    {
      assert ns[j] == rest[j - 1] && (i > 0 ==> ns[i] == rest[i - 1]);
    }
  }

  lemma LaidWhen(d: Disk, g: Disk, root: u32, rank: map<nat, nat>, top: u32, comps: seq<seq<byte>>, ns: seq<u32>, meta: Meta, n: nat, spare: u32)
    requires |d.fat| == |d.data| && |d.fat| < END_MARK && ns != [] && ns[0] == spare
    requires DirsMade(g, top, comps, ns, meta, n) && AllNew(rank, ns)
    requires Landing(d, root, top, comps, n) == TargetOf(d, top, comps, ns, n)
    requires FirstAddition(d, root, top, comps, meta) == Addition(top, comps[0], DirMeta(spare))
    ensures Laid(d, g, root, rank, top, comps, ns, meta, n)
  {
  }

  lemma FirstHolds(e: Disk, g: Disk, top: u32, comps: seq<seq<byte>>, spare: u32, rest: seq<u32>, meta: Meta, n: nat, m: Meta)
    requires |comps| == |rest| + 2 && IsComponent(comps[1]) && DotFree(comps[1]) && m == MetaOf(rest, meta, 0)
    requires Dir(e, spare) == DotSlots(spare, top, n) && AddsOnly(e, g, Addition(spare, comps[1], m), spare)
    ensures HoldsOne(g, spare, top, comps[1], MetaOf([spare] + rest, meta, 1), n)
  {
  }

  // ---- walking a path afterwards, said of the disk before ----

  /** Where the creation's missing components begin, and what they are. */
  datatype Plan = Plan(top: u32, comps: seq<seq<byte>>)

  /** A place on a walk: a directory that was there, or the i-th new one. */
  datatype Spot = Known(dir: u32) | New(i: nat)

  ghost predicate PlanOk(d: Disk, rank: map<nat, nat>, p: Plan) {
    p.top as nat in rank && p.comps != [] && Place(Dir(d, p.top), p.comps[0]).Some?
  }

  predicate IsDot(c: seq<byte>) { Short83(c) == Short83(DOT_NAME) }

  predicate IsDotDot(c: seq<byte>) { Short83(c) == Short83(DOTDOT_NAME) }

  /** The new entry in the directory that was there before wins the lookup. */
  predicate TopWins(d: Disk, p: Plan, dir: u32, c: seq<byte>) {
    && p.comps != [] && dir == p.top
    && Place(Dir(d, dir), p.comps[0]).Some? && NewWins(Dir(d, dir), p.comps[0], c)
  }

  /** A step inside the i-th new directory of k: the dots lead to itself and up, the one other
      name one further down. */
  function StepNew(top: u32, k: nat, i: nat, dot: bool, dotdot: bool, named: bool): Option<Spot> {
    if dot then Some(New(i))
    else if dotdot then Some(if i <= 1 then Known(top) else New(i - 1))
    else if named && i < k then Some(New(i + 1))
    else None
  }

  /** The directory that name c leads to; None for a file or nothing. */
  function Go(d: Disk, root: u32, p: Plan, at: Spot, c: seq<byte>): Option<Spot> {
    match at
    case Known(dir) =>
      if TopWins(d, p, dir, c) then (if |p.comps| > 1 then Some(New(1)) else None)
      else
        (match Into(d, root, dir, c)
         case None => None
         case Some(next) => Some(Known(next)))
    case New(i) =>
      if i >= |p.comps| then None
      else StepNew(p.top, |p.comps| - 1, i, IsDot(c), IsDotDot(c), NamesEntry(p.comps[i], c))
  }

  predicate HitsNew(dot: bool, dotdot: bool, named: bool) { !dot && !dotdot && named }

  /** Name c leads to the entry of the last component. */
  predicate Hits(d: Disk, p: Plan, at: Spot, c: seq<byte>) {
    match at
    case Known(dir) => |p.comps| == 1 && TopWins(d, p, dir, c)
    case New(i) => i + 1 == |p.comps| && HitsNew(IsDot(c), IsDotDot(c), NamesEntry(p.comps[i], c))
  }

  /** The path leads to the entry created. */
  predicate Arrives(d: Disk, root: u32, p: Plan, at: Spot, qs: seq<seq<byte>>)
    decreases |qs|
  {
    qs != [] && qs[0] != [] &&
    if |qs| == 1 then Hits(d, p, at, qs[0])
    else
      match Go(d, root, p, at, qs[0])
      case None => false
      case Some(next) => Arrives(d, root, p, next, qs[1..])
  }

  /** The path resolves, to this slot. */
  predicate LeadsTo(e: Disk, root: u32, dir: u32, qs: seq<seq<byte>>, f: Found) {
    var t := Trace(e, root, dir, qs);
    t.Some? && t.value[|qs| - 1] == f
  }

  /** The directory an entry leads to; None for a file. */
  function IntoSlot(root: u32, e: Slot): Option<u32> {
    if IsDirectory(e) then Some(Enter(root, e)) else None
  }

  /** The directory a name leads to. */
  function Into(e: Disk, root: u32, dir: u32, c: seq<byte>): Option<u32> {
    match Lookup(Dir(e, dir), c)
    case None => None
    case Some(j) => IntoSlot(root, Dir(e, dir)[j])
  }

  function IntoMeta(root: u32, m: Meta): Option<u32> {
    if (m.attr / 0x10) % 2 == 0 then None else Some(if m.cluster == 0 then root else m.cluster)
  }

  lemma IntoGiven(root: u32, e: Slot, m: Meta)
    requires e[11] == m.attr && FirstCluster(e) == m.cluster
    ensures IntoSlot(root, e) == IntoMeta(root, m)
  {
  }

  lemma LeadsStep(e: Disk, root: u32, dir: u32, qs: seq<seq<byte>>, f: Found)
    requires |qs| > 1 && qs[0] != []
    ensures LeadsTo(e, root, dir, qs, f) <==>
      Into(e, root, dir, qs[0]).Some? && LeadsTo(e, root, Into(e, root, dir, qs[0]).value, qs[1..], f)
  {
    var j := Lookup(Dir(e, dir), qs[0]);
    if j.Some? && IsDirectory(Dir(e, dir)[j.value]) {
      TraceStep(e, root, dir, qs, j.value);
      LeadsFrom(e, root, dir, Enter(root, Dir(e, dir)[j.value]), qs, f, Found(dir, j.value));
    } else {
      NoTrace(e, root, dir, qs);
    }
  }

  lemma LeadsFrom(e: Disk, root: u32, dir: u32, next: u32, qs: seq<seq<byte>>, f: Found, g: Found)
    requires |qs| > 1
    requires var t := Trace(e, root, next, qs[1..]); Trace(e, root, dir, qs) == if t.Some? then Some([g] + t.value) else None
    ensures LeadsTo(e, root, dir, qs, f) <==> LeadsTo(e, root, next, qs[1..], f)
  {
    var t := Trace(e, root, next, qs[1..]);
    if t.Some? {
      SameEnd(g, t.value, |qs|);
    }
  }

  lemma SameEnd(g: Found, t: seq<Found>, n: nat)
    requires |t| + 1 == n > 1
    ensures ([g] + t)[n - 1] == t[n - 2]
  {
  }

  lemma NoTrace(e: Disk, root: u32, dir: u32, qs: seq<seq<byte>>)
    requires |qs| > 1 && qs[0] != [] && Into(e, root, dir, qs[0]) == None
    ensures Trace(e, root, dir, qs) == None
  {
  }

  lemma LeadsEnd(e: Disk, root: u32, dir: u32, qs: seq<seq<byte>>, f: Found)
    requires |qs| == 1 && qs[0] != []
    ensures LeadsTo(e, root, dir, qs, f) <==> Lookup(Dir(e, dir), qs[0]) == Some(f.slot) && f.dir == dir
  {
  }

  // ---- the two walks agree ----

  /** The disk after the creation, as the walk needs it. */
  ghost predicate Created(d: Disk, e: Disk, root: u32, rank: map<nat, nat>, cb: nat, p: Plan, ns: seq<u32>, meta: Meta) {
    && TreeOk(d, root, rank, cb) && cb >= 2 * SLOT && meta.attr != ATTR_LFN && PlanOk(d, rank, p)
    && DirsMade(e, p.top, p.comps, ns, meta, cb / SLOT) && AllNew(rank, ns)
    && forall c :: c in rank ==> AddsOnly(d, e, Addition(p.top, p.comps[0], MetaOf(ns, meta, 0)), c)
  }

  ghost predicate SpotOk(rank: map<nat, nat>, ns: seq<u32>, at: Spot) {
    match at
    case Known(dir) => dir as nat in rank
    case New(i) => 1 <= i <= |ns|
  }

  function ClusterOf(ns: seq<u32>, at: Spot): u32 {
    match at
    case Known(dir) => dir
    case New(i) => if 1 <= i <= |ns| then ns[i - 1] else 0
  }

  /** The walk on the disk before says where a name leads on the disk after. */
  ghost predicate Agrees(rank: map<nat, nat>, ns: seq<u32>, meta: Meta, into: Option<u32>, to: Option<Spot>) {
    && (to.Some? ==> SpotOk(rank, ns, to.value) && into == Some(ClusterOf(ns, to.value)))
    && (to.None? && (meta.attr / 0x10) % 2 == 0 ==> into == None)
  }

  /** Lookups in a directory just made: its dots, else the one entry. */
  lemma NewDirLookup(e: Disk, self: u32, up: u32, component: seq<byte>, m: Meta, n: nat, c: seq<byte>, dot: bool, dotdot: bool, named: bool)
    returns (si: nat)
    requires HoldsOne(e, self, up, component, m, n) && n >= 2 && m.attr != ATTR_LFN
    requires dot == IsDot(c) && dotdot == IsDotDot(c) && named == NamesEntry(component, c)
    ensures si >= 2 && SlotFor(self, DotSlots(self, up, n), component) == Some(Found(self, si))
    ensures Lookup(Dir(e, self), c) == if dot then Some(0) else if dotdot then Some(1) else if named then Some(si) else None
  {
    DotLookup(self, up, n, c, dot, dotdot);
    PlaceBehindDots(self, up, n, component);
    si := NewLookupWith(e, self, DotSlots(self, up, n), component, m, c, dot, dotdot, named);
  }

  lemma NewLookupWith(e: Disk, self: u32, D: seq<Slot>, component: seq<byte>, m: Meta, c: seq<byte>, dot: bool, dotdot: bool, named: bool)
    returns (si: nat)
    requires m.attr != ATTR_LFN && WellFormed(D) && IsAdded(D, Dir(e, self), component, m)
    requires Place(D, component).value >= 2 && named == NamesEntry(component, c)
    requires Lookup(D, c) == if dot then Some(0) else if dotdot then Some(1) else None
    ensures si >= 2 && SlotFor(self, D, component) == Some(Found(self, si))
    ensures Lookup(Dir(e, self), c) == if dot then Some(0) else if dotdot then Some(1) else if named then Some(si) else None
  {
    si := NewSi(self, D, component);
    var wins := NewWins(D, component, c);
    DotsWin(D, component, c, dot, dotdot, named);
    AddedLookup(D, Dir(e, self), component, m, c, wins);
  }

  lemma NewSi(self: u32, D: seq<Slot>, component: seq<byte>) returns (si: nat)
    requires Place(D, component).Some? && Place(D, component).value >= 2
    ensures si == Place(D, component).value + LongSlots(component) && si >= 2
    ensures SlotFor(self, D, component) == Some(Found(self, si))
  {
    si := Place(D, component).value + LongSlots(component);
  }

  lemma DotsWin(D: seq<Slot>, component: seq<byte>, c: seq<byte>, dot: bool, dotdot: bool, named: bool)
    requires Place(D, component).Some? && Place(D, component).value >= 2 && named == NamesEntry(component, c)
    requires Lookup(D, c) == if dot then Some(0) else if dotdot then Some(1) else None
    ensures NewWins(D, component, c) <==> named && !dot && !dotdot
  {
  }

  lemma PlaceBehindDots(self: u32, up: u32, n: nat, component: seq<byte>)
    requires n >= 2 && Place(DotSlots(self, up, n), component).Some?
    ensures Place(DotSlots(self, up, n), component).value >= 2
  {
    DotSlotsOk(self, up, n);
  }

  lemma DotLookup(self: u32, up: u32, n: nat, c: seq<byte>, dot: bool, dotdot: bool)
    requires n >= 2 && dot == IsDot(c) && dotdot == IsDotDot(c)
    ensures WellFormed(DotSlots(self, up, n))
    ensures Lookup(DotSlots(self, up, n), c) == if dot then Some(0) else if dotdot then Some(1) else None
  {
    var D := DotSlots(self, up, n);
    DotSlotsOk(self, up, n);
    if dot {
      LookupDecided(D, c, 0);
    } else if dotdot {
      LookupDecided(D, c, 1);
    } else {
      NothingInNew(self, up, n, c);
    }
  }

  /** The slots of a directory just made: where each leads. */
  lemma NewDirSlots(e: Disk, root: u32, self: u32, up: u32, component: seq<byte>, m: Meta, n: nat, si: nat)
    requires HoldsOne(e, self, up, component, m, n) && n >= 2 && m.attr != ATTR_LFN && self != 0 && up != 0
    requires SlotFor(self, DotSlots(self, up, n), component) == Some(Found(self, si))
    ensures var E := Dir(e, self);
      && 2 <= |E| && si < |E|
      && IntoSlot(root, E[0]) == Some(self) && IntoSlot(root, E[1]) == Some(up) && IntoSlot(root, E[si]) == IntoMeta(root, m)
  {
    var D := DotSlots(self, up, n);
    var i := Place(D, component).value;
    DotSlotsOk(self, up, n);
    DotSlotsDirectories(self, up, n);
    AddFrame(D, i, component, m.attr, m.cluster, m.size, 0);
    AddFrame(D, i, component, m.attr, m.cluster, m.size, 1);
    NewShort(D, i, component, m.attr, m.cluster, m.size);
    IntoGiven(root, Dir(e, self)[si], m);
  }

  lemma OtherStep(d: Disk, e: Disk, root: u32, rank: map<nat, nat>, cb: nat, p: Plan, ns: seq<u32>, meta: Meta, dir: u32, c: seq<byte>)
    requires Created(d, e, root, rank, cb, p, ns, meta) && dir as nat in rank && dir != p.top
    ensures Agrees(rank, ns, meta, Into(e, root, dir, c), Go(d, root, p, Known(dir), c))
  {
    assert AddsOnly(d, e, Addition(p.top, p.comps[0], MetaOf(ns, meta, 0)), dir);
    EntersKnown(d, root, rank, cb, dir, c);
    OtherStepFrom(d, e, root, rank, p, ns, meta, dir, c);
  }

  /** A directory that a name finds is a known one. */
  ghost predicate FindsKnown(d: Disk, root: u32, rank: map<nat, nat>, dir: u32, c: seq<byte>) {
    Into(d, root, dir, c).Some? ==> Into(d, root, dir, c).value as nat in rank
  }

  lemma EntersKnown(d: Disk, root: u32, rank: map<nat, nat>, cb: nat, dir: u32, c: seq<byte>)
    requires TreeOk(d, root, rank, cb) && dir as nat in rank
    ensures FindsKnown(d, root, rank, dir, c)
  {
    var j := Lookup(Dir(d, dir), c);
    if j.Some? && IsDirectory(Dir(d, dir)[j.value]) {
      StepDown(d, root, rank, cb, dir, c);
    }
  }

  lemma OtherStepFrom(d: Disk, e: Disk, root: u32, rank: map<nat, nat>, p: Plan, ns: seq<u32>, meta: Meta, dir: u32, c: seq<byte>)
    requires Dir(e, dir) == Dir(d, dir) && dir != p.top && FindsKnown(d, root, rank, dir, c)
    ensures Agrees(rank, ns, meta, Into(e, root, dir, c), Go(d, root, p, Known(dir), c))
  {
  }

  lemma TopLookup(d: Disk, e: Disk, root: u32, rank: map<nat, nat>, cb: nat, p: Plan, ns: seq<u32>, meta: Meta, c: seq<byte>)
    requires Created(d, e, root, rank, cb, p, ns, meta)
    ensures Lookup(Dir(e, p.top), c) ==
      if TopWins(d, p, p.top, c) then Some(NewSlot(d, p.top, p.comps[0])) else Lookup(Dir(d, p.top), c)
  {
    assert AddsOnly(d, e, Addition(p.top, p.comps[0], MetaOf(ns, meta, 0)), p.top);
    Ranked(d, root, rank, cb, p.top);
    TopLookupFrom(d, e, p, MetaOf(ns, meta, 0), c);
  }

  lemma TopLookupFrom(d: Disk, e: Disk, p: Plan, m: Meta, c: seq<byte>)
    requires p.comps != [] && m.attr != ATTR_LFN && WellFormed(Dir(d, p.top))
    requires AddsOnly(d, e, Addition(p.top, p.comps[0], m), p.top)
    ensures Lookup(Dir(e, p.top), c) ==
      if TopWins(d, p, p.top, c) then Some(NewSlot(d, p.top, p.comps[0])) else Lookup(Dir(d, p.top), c)
  {
    var wins := NewWins(Dir(d, p.top), p.comps[0], c);
    TopWinsIs(d, p, c, wins);
    AddsAt(d, e, p.top, p.comps[0], m);
    AddedLookup(Dir(d, p.top), Dir(e, p.top), p.comps[0], m, c, wins);
  }

  lemma AddsAt(d: Disk, e: Disk, top: u32, component: seq<byte>, m: Meta)
    requires AddsOnly(d, e, Addition(top, component, m), top)
    ensures IsAdded(Dir(d, top), Dir(e, top), component, m)
    ensures NewSlot(d, top, component) == Place(Dir(d, top), component).value + LongSlots(component)
  {
  }

  lemma TopWinsIs(d: Disk, p: Plan, c: seq<byte>, wins: bool)
    requires p.comps != [] && Place(Dir(d, p.top), p.comps[0]).Some? && wins == NewWins(Dir(d, p.top), p.comps[0], c)
    ensures TopWins(d, p, p.top, c) == wins
  {
  }

  lemma AddedLookup(D: seq<Slot>, E: seq<Slot>, component: seq<byte>, m: Meta, c: seq<byte>, wins: bool)
    requires m.attr != ATTR_LFN && WellFormed(D) && IsAdded(D, E, component, m) && wins == NewWins(D, component, c)
    ensures Lookup(E, c) == if wins then Some(Place(D, component).value + LongSlots(component)) else Lookup(D, c)
  {
    LookupAfterAdd(D, E, component, m.attr, m.cluster, m.size, c);
  }

  /** The new entry's slot in the directory that was there before leads where it should, and
      what the name found there before is as it was. */
  ghost predicate TopKept(d: Disk, e: Disk, root: u32, p: Plan, m: Meta, c: seq<byte>)
    requires p.comps != [] && Place(Dir(d, p.top), p.comps[0]).Some?
  {
    var D, E, j, si := Dir(d, p.top), Dir(e, p.top), Lookup(Dir(d, p.top), c), NewSlot(d, p.top, p.comps[0]);
    && |E| == |D| && (j.Some? ==> E[j.value] == D[j.value])
    && si < |E| && IntoSlot(root, E[si]) == IntoMeta(root, m)
  }

  lemma TopSlots(d: Disk, e: Disk, root: u32, rank: map<nat, nat>, cb: nat, p: Plan, ns: seq<u32>, meta: Meta, c: seq<byte>)
    requires Created(d, e, root, rank, cb, p, ns, meta)
    ensures TopKept(d, e, root, p, MetaOf(ns, meta, 0), c)
  {
    var m := MetaOf(ns, meta, 0);
    var j, si := Lookup(Dir(d, p.top), c), NewSlot(d, p.top, p.comps[0]);
    assert AddsOnly(d, e, Addition(p.top, p.comps[0], m), p.top);
    Ranked(d, root, rank, cb, p.top);
    AddedFiles(d, p.top, p.comps[0], m, if j.Some? then j.value else si);
    IntoGiven(root, Dir(e, p.top)[si], m);
  }

  lemma TopStep(d: Disk, e: Disk, root: u32, rank: map<nat, nat>, cb: nat, p: Plan, ns: seq<u32>, meta: Meta, c: seq<byte>)
    requires Created(d, e, root, rank, cb, p, ns, meta)
    ensures Agrees(rank, ns, meta, Into(e, root, p.top, c), Go(d, root, p, Known(p.top), c))
  {
    TopLookup(d, e, root, rank, cb, p, ns, meta, c);
    TopSlots(d, e, root, rank, cb, p, ns, meta, c);
    EntersKnown(d, root, rank, cb, p.top, c);
    TopStepFrom(d, e, root, rank, p, ns, meta, c);
  }

  lemma TopStepFrom(d: Disk, e: Disk, root: u32, rank: map<nat, nat>, p: Plan, ns: seq<u32>, meta: Meta, c: seq<byte>)
    requires PlanOk(d, rank, p) && |p.comps| == |ns| + 1 && FindsKnown(d, root, rank, p.top, c) && AllNew(rank, ns)
    requires TopKept(d, e, root, p, MetaOf(ns, meta, 0), c)
    requires Lookup(Dir(e, p.top), c) ==
      if TopWins(d, p, p.top, c) then Some(NewSlot(d, p.top, p.comps[0])) else Lookup(Dir(d, p.top), c)
    ensures Agrees(rank, ns, meta, Into(e, root, p.top, c), Go(d, root, p, Known(p.top), c))
  {
    TopInto(d, e, root, p, MetaOf(ns, meta, 0), c, TopWins(d, p, p.top, c));
    TopAgrees(root, rank, ns, meta, Into(d, root, p.top, c), TopWins(d, p, p.top, c));
  }

  lemma TopInto(d: Disk, e: Disk, root: u32, p: Plan, m: Meta, c: seq<byte>, wins: bool)
    requires p.comps != [] && Place(Dir(d, p.top), p.comps[0]).Some? && TopKept(d, e, root, p, m, c)
    requires Lookup(Dir(e, p.top), c) == if wins then Some(NewSlot(d, p.top, p.comps[0])) else Lookup(Dir(d, p.top), c)
    ensures Into(e, root, p.top, c) == if wins then IntoMeta(root, m) else Into(d, root, p.top, c)
  {
  }

  lemma TopAgrees(root: u32, rank: map<nat, nat>, ns: seq<u32>, meta: Meta, old_: Option<u32>, wins: bool)
    requires (old_.Some? ==> old_.value as nat in rank) && AllNew(rank, ns)
    ensures Agrees(rank, ns, meta, if wins then IntoMeta(root, MetaOf(ns, meta, 0)) else old_,
      if wins then (if ns != [] then Some(New(1)) else None) else if old_.Some? then Some(Known(old_.value)) else None)
  {
  }

  /** Where a name leads from the i-th new directory, when its slots are what they should be. */
  function IntoNew(root: u32, top: u32, ns: seq<u32>, meta: Meta, i: nat, dot: bool, dotdot: bool, named: bool): Option<u32>
    requires 1 <= i <= |ns|
  {
    if dot then Some(ns[i - 1]) else if dotdot then Some(UpOf(top, ns, i))
    else if named then IntoMeta(root, MetaOf(ns, meta, i)) else None
  }

  lemma NewAgrees(root: u32, rank: map<nat, nat>, top: u32, ns: seq<u32>, meta: Meta, i: nat, dot: bool, dotdot: bool, named: bool)
    requires top as nat in rank && AllNew(rank, ns) && 1 <= i <= |ns|
    ensures Agrees(rank, ns, meta, IntoNew(root, top, ns, meta, i, dot, dotdot, named), StepNew(top, |ns|, i, dot, dotdot, named))
  {
  }

  /** Lookups and slots of one new directory. */
  lemma NewDirInto(e: Disk, root: u32, self: u32, up: u32, component: seq<byte>, m: Meta, n: nat, c: seq<byte>, dot: bool, dotdot: bool, named: bool)
    requires HoldsOne(e, self, up, component, m, n) && n >= 2 && m.attr != ATTR_LFN && self != 0 && up != 0
    requires dot == IsDot(c) && dotdot == IsDotDot(c) && named == NamesEntry(component, c)
    ensures Into(e, root, self, c) == if dot then Some(self) else if dotdot then Some(up) else if named then IntoMeta(root, m) else None
  {
    var si := NewDirLookup(e, self, up, component, m, n, c, dot, dotdot, named);
    NewDirSlots(e, root, self, up, component, m, n, si);
    IntoFrom(e, root, self, up, m, c, si, dot, dotdot, named);
  }

  lemma IntoFrom(e: Disk, root: u32, self: u32, up: u32, m: Meta, c: seq<byte>, si: nat, dot: bool, dotdot: bool, named: bool)
    requires var E := Dir(e, self);
      && si < |E| && 2 <= |E|
      && IntoSlot(root, E[0]) == Some(self) && IntoSlot(root, E[1]) == Some(up) && IntoSlot(root, E[si]) == IntoMeta(root, m)
      && Lookup(E, c) == if dot then Some(0) else if dotdot then Some(1) else if named then Some(si) else None
    ensures Into(e, root, self, c) == if dot then Some(self) else if dotdot then Some(up) else if named then IntoMeta(root, m) else None
  {
  }

  lemma NewStep(d: Disk, e: Disk, root: u32, rank: map<nat, nat>, cb: nat, p: Plan, ns: seq<u32>, meta: Meta, i: nat, c: seq<byte>)
    requires Created(d, e, root, rank, cb, p, ns, meta) && 1 <= i <= |ns|
    ensures Agrees(rank, ns, meta, Into(e, root, ns[i - 1], c), Go(d, root, p, New(i), c))
  {
    assert DirMade(e, p.top, p.comps, ns, meta, cb / SLOT, i);
    Ranked(d, root, rank, cb, p.top);
    NewStepFrom(d, e, root, rank, cb, p, ns, meta, i, c, IsDot(c), IsDotDot(c), NamesEntry(p.comps[i], c));
  }

  lemma NewStepFrom(d: Disk, e: Disk, root: u32, rank: map<nat, nat>, cb: nat, p: Plan, ns: seq<u32>, meta: Meta, i: nat, c: seq<byte>,
                    dot: bool, dotdot: bool, named: bool)
    requires p.top as nat in rank && p.top != 0 && AllNew(rank, ns) && 1 <= i <= |ns| && |p.comps| == |ns| + 1
    requires DirMade(e, p.top, p.comps, ns, meta, cb / SLOT, i) && cb >= 2 * SLOT && meta.attr != ATTR_LFN
    requires dot == IsDot(c) && dotdot == IsDotDot(c) && named == NamesEntry(p.comps[i], c)
    ensures Agrees(rank, ns, meta, Into(e, root, ns[i - 1], c), StepNew(p.top, |ns|, i, dot, dotdot, named))
  {
    NewDirInto(e, root, ns[i - 1], UpOf(p.top, ns, i), p.comps[i], MetaOf(ns, meta, i), cb / SLOT, c, dot, dotdot, named);
    NewAgrees(root, rank, p.top, ns, meta, i, dot, dotdot, named);
  }

  lemma StepAgrees(d: Disk, e: Disk, root: u32, rank: map<nat, nat>, cb: nat, p: Plan, ns: seq<u32>, meta: Meta, at: Spot, c: seq<byte>)
    requires Created(d, e, root, rank, cb, p, ns, meta) && SpotOk(rank, ns, at)
    ensures Agrees(rank, ns, meta, Into(e, root, ClusterOf(ns, at), c), Go(d, root, p, at, c))
  {
    match at
    case Known(dir) =>
      if dir == p.top {
        TopStep(d, e, root, rank, cb, p, ns, meta, c);
      } else {
        OtherStep(d, e, root, rank, cb, p, ns, meta, dir, c);
      }
    case New(i) => NewStep(d, e, root, rank, cb, p, ns, meta, i, c);
  }

  lemma HitAgrees(d: Disk, e: Disk, root: u32, rank: map<nat, nat>, cb: nat, p: Plan, ns: seq<u32>, meta: Meta, at: Spot, c: seq<byte>, f: Found)
    requires Created(d, e, root, rank, cb, p, ns, meta) && SpotOk(rank, ns, at)
    requires TargetOf(d, p.top, p.comps, ns, cb / SLOT) == Some(f)
    ensures Hits(d, p, at, c) <==> Lookup(Dir(e, ClusterOf(ns, at)), c) == Some(f.slot) && f.dir == ClusterOf(ns, at)
  {
    match at
    case Known(dir) => KnownHit(d, e, root, rank, cb, p, ns, meta, dir, c, f);
    case New(i) => NewHit(d, e, root, rank, cb, p, ns, meta, i, c, f);
  }

  lemma KnownHit(d: Disk, e: Disk, root: u32, rank: map<nat, nat>, cb: nat, p: Plan, ns: seq<u32>, meta: Meta, dir: u32, c: seq<byte>, f: Found)
    requires Created(d, e, root, rank, cb, p, ns, meta) && dir as nat in rank
    requires TargetOf(d, p.top, p.comps, ns, cb / SLOT) == Some(f)
    ensures Hits(d, p, Known(dir), c) <==> Lookup(Dir(e, dir), c) == Some(f.slot) && f.dir == dir
  {
    TopLookup(d, e, root, rank, cb, p, ns, meta, c);
    KnownHits(d, e, rank, cb, p, ns, dir, c, f);
  }

  lemma NewHit(d: Disk, e: Disk, root: u32, rank: map<nat, nat>, cb: nat, p: Plan, ns: seq<u32>, meta: Meta, i: nat, c: seq<byte>, f: Found)
    requires Created(d, e, root, rank, cb, p, ns, meta) && 1 <= i <= |ns|
    requires TargetOf(d, p.top, p.comps, ns, cb / SLOT) == Some(f)
    ensures Hits(d, p, New(i), c) <==> Lookup(Dir(e, ns[i - 1]), c) == Some(f.slot) && f.dir == ns[i - 1]
  {
    assert DirMade(e, p.top, p.comps, ns, meta, cb / SLOT, i);
    NewHits(d, e, rank, cb, p, ns, meta, i, c, f, IsDot(c), IsDotDot(c), NamesEntry(p.comps[i], c));
  }

  lemma KnownHits(d: Disk, e: Disk, rank: map<nat, nat>, cb: nat, p: Plan, ns: seq<u32>, dir: u32, c: seq<byte>, f: Found)
    requires PlanOk(d, rank, p) && |p.comps| == |ns| + 1 && AllNew(rank, ns) && dir as nat in rank
    requires TargetOf(d, p.top, p.comps, ns, cb / SLOT) == Some(f)
    requires Lookup(Dir(e, p.top), c) ==
      if TopWins(d, p, p.top, c) then Some(NewSlot(d, p.top, p.comps[0])) else Lookup(Dir(d, p.top), c)
    ensures Hits(d, p, Known(dir), c) <==> Lookup(Dir(e, dir), c) == Some(f.slot) && f.dir == dir
  {
    if ns == [] {
      NewSlotWasFree(d, p.top, p.comps[0], c);
    } else {
      TargetIsNew(d, rank, p, ns, cb / SLOT, dir, f);
    }
  }

  lemma TargetIsNew(d: Disk, rank: map<nat, nat>, p: Plan, ns: seq<u32>, n: nat, dir: u32, f: Found)
    requires |p.comps| == |ns| + 1 > 1 && AllNew(rank, ns) && dir as nat in rank && TargetOf(d, p.top, p.comps, ns, n) == Some(f)
    ensures f.dir != dir as nat
  {
  }

  /** No lookup before the creation ended at the slot it takes. */
  lemma NewSlotWasFree(d: Disk, dir: nat, component: seq<byte>, c: seq<byte>)
    requires Place(Dir(d, dir), component).Some?
    ensures Lookup(Dir(d, dir), c) != Some(NewSlot(d, dir, component))
  {
  }

  lemma NewHits(d: Disk, e: Disk, rank: map<nat, nat>, cb: nat, p: Plan, ns: seq<u32>, meta: Meta, i: nat, c: seq<byte>, f: Found,
                dot: bool, dotdot: bool, named: bool)
    requires |p.comps| == |ns| + 1 && AllNew(rank, ns) && 1 <= i <= |ns| && cb >= 2 * SLOT && meta.attr != ATTR_LFN
    requires DirMade(e, p.top, p.comps, ns, meta, cb / SLOT, i)
    requires TargetOf(d, p.top, p.comps, ns, cb / SLOT) == Some(f)
    requires dot == IsDot(c) && dotdot == IsDotDot(c) && named == NamesEntry(p.comps[i], c)
    ensures (i + 1 == |p.comps| && HitsNew(dot, dotdot, named)) <==> Lookup(Dir(e, ns[i - 1]), c) == Some(f.slot) && f.dir == ns[i - 1]
  {
    var si := NewDirLookup(e, ns[i - 1], UpOf(p.top, ns, i), p.comps[i], MetaOf(ns, meta, i), cb / SLOT, c, dot, dotdot, named);
    TargetIs(d, rank, p, ns, cb / SLOT, i, f);
  }

  lemma TargetIs(d: Disk, rank: map<nat, nat>, p: Plan, ns: seq<u32>, n: nat, i: nat, f: Found)
    requires |p.comps| == |ns| + 1 && AllNew(rank, ns) && 1 <= i <= |ns| && TargetOf(d, p.top, p.comps, ns, n) == Some(f)
    ensures f.dir == ns[i - 1] <==> i == |ns|
    ensures i == |ns| ==> SlotFor(ns[i - 1], DotSlots(ns[i - 1], UpOf(p.top, ns, i), n), p.comps[i]) == Some(f)
  {
  }

  /** Walking a path on the disk before tells whether it leads to the entry on the disk after. */
  lemma {:induction false} ArrivesIsLeads(d: Disk, e: Disk, root: u32, rank: map<nat, nat>, cb: nat, p: Plan, ns: seq<u32>, meta: Meta,
                                          at: Spot, qs: seq<seq<byte>>, f: Found)
    requires Created(d, e, root, rank, cb, p, ns, meta) && SpotOk(rank, ns, at)
    requires TargetOf(d, p.top, p.comps, ns, cb / SLOT) == Some(f)
    ensures Arrives(d, root, p, at, qs) ==> LeadsTo(e, root, ClusterOf(ns, at), qs, f)
    ensures (meta.attr / 0x10) % 2 == 0 && LeadsTo(e, root, ClusterOf(ns, at), qs, f) ==> Arrives(d, root, p, at, qs)
    decreases |qs|
  {
    if |qs| == 1 && qs[0] != [] {
      LeadsEnd(e, root, ClusterOf(ns, at), qs, f);
      HitAgrees(d, e, root, rank, cb, p, ns, meta, at, qs[0], f);
    } else if |qs| > 1 && qs[0] != [] {
      LeadsStep(e, root, ClusterOf(ns, at), qs, f);
      StepAgrees(d, e, root, rank, cb, p, ns, meta, at, qs[0]);
      var to := Go(d, root, p, at, qs[0]);
      if to.Some? {
        ArrivesIsLeads(d, e, root, rank, cb, p, ns, meta, to.value, qs[1..], f);
      }
    }
  }

  // ---- create then find ----

  /** The directory below which a path's components are missing. */
  function TopOf(d: Disk, root: u32, dir: u32, ps: seq<seq<byte>>): u32
    decreases |ps|
  {
    if |ps| <= 1 then dir else
    match LookupFrom(Dir(d, dir), ps[0], true, 0)
    case Some(j) => TopOf(d, root, Enter(root, Dir(d, dir)[j]), ps[1..])
    case None => dir
  }

  function PlanOf(d: Disk, root: u32, dir: u32, ps: seq<seq<byte>>): Plan {
    Plan(TopOf(d, root, dir, ps), Lacking(d, root, dir, ps))
  }

  /** Past the directories that are there, a creation is one of the missing components. */
  lemma {:induction false} CreateAtTop(d: Disk, root: u32, rank: map<nat, nat>, cb: nat, dir: u32, ps: seq<seq<byte>>, meta: Meta)
    requires TreeOk(d, root, rank, cb) && dir as nat in rank && CanCreate(d, root, dir, ps, cb / SLOT)
    ensures var p, n := PlanOf(d, root, dir, ps), cb / SLOT;
      && p.top as nat in rank && CanCreate(d, root, p.top, p.comps, n) && p.comps != []
      && (|p.comps| > 1 ==> LookupFrom(Dir(d, p.top), p.comps[0], true, 0) == None)
      && Create(d, root, dir, ps, meta, n) == Create(d, root, p.top, p.comps, meta, n)
      && Landing(d, root, dir, ps, n) == Landing(d, root, p.top, p.comps, n)
      && FirstAddition(d, root, dir, ps, meta) == FirstAddition(d, root, p.top, p.comps, meta)
      && p.comps[|p.comps| - 1] == ps[|ps| - 1]
    decreases |ps|
  {
    if |ps| > 1 && LookupFrom(Dir(d, dir), ps[0], true, 0).Some? {
      CreateOld(d, root, dir, ps, meta, cb / SLOT);
      StepInto(d, root, rank, cb, dir, ps[0]);
      CreateAtTop(d, root, rank, cb, Enter(root, Dir(d, dir)[LookupFrom(Dir(d, dir), ps[0], true, 0).value]), ps[1..], meta);
    }
  }

  lemma CreatedAtTop(d: Disk, e: Disk, root: u32, rank: map<nat, nat>, cb: nat, p: Plan, meta: Meta)
    requires TreeOk(d, root, rank, cb) && cb >= 2 * SLOT && meta.attr != ATTR_LFN && p.top as nat in rank
    requires CanCreate(d, root, p.top, p.comps, cb / SLOT) && e == Create(d, root, p.top, p.comps, meta, cb / SLOT)
    requires |p.comps| > 1 ==> LookupFrom(Dir(d, p.top), p.comps[0], true, 0) == None
    ensures Created(d, e, root, rank, cb, p, NewDirs(d, p.top, p.comps, cb / SLOT), meta)
    ensures Landing(d, root, p.top, p.comps, cb / SLOT) == TargetOf(d, p.top, p.comps, NewDirs(d, p.top, p.comps, cb / SLOT), cb / SLOT)
  {
    CreateMakesDirs(d, root, rank, cb, p.top, p.comps, meta);
    forall c | c in rank
      ensures AddsOnly(d, e, FirstAddition(d, root, p.top, p.comps, meta), c)
    {
      CreateChanges(d, root, rank, cb, p.top, p.comps, meta, c);
    }
    CreateChanges(d, root, rank, cb, p.top, p.comps, meta, p.top);
  }

  /** A path that can be created has a slot to land in. */
  lemma {:induction false} CanCreateLands(d: Disk, root: u32, dir: u32, ps: seq<seq<byte>>, n: nat)
    requires |d.fat| == |d.data| && |d.fat| < END_MARK && CanCreate(d, root, dir, ps, n)
    ensures Landing(d, root, dir, ps, n).Some? && Parts(ps)
    decreases |ps|
  {
    if |ps| == 1 {
      assert Parts(ps[1..]);
    } else {
      var r := LookupFrom(Dir(d, dir), ps[0], true, 0);
      if r.Some? {
        CanCreateLands(d, root, Enter(root, Dir(d, dir)[r.value]), ps[1..], n);
      } else {
        CanCreateLands(MakeDir(d, dir, ps[0], n), root, LeastFree(d.fat, 2), ps[1..], n);
      }
    }
  }

  /** e is d once a path with room was created, its entry landing at `at`. */
  ghost predicate CreatedAt(d: Disk, e: Disk, root: u32, rank: map<nat, nat>, cb: nat, dir: u32, ps: seq<seq<byte>>, meta: Meta, at: Found) {
    && TreeOk(d, root, rank, cb) && cb >= 2 * SLOT && dir as nat in rank && meta.attr != ATTR_LFN
    && CanCreate(d, root, dir, ps, cb / SLOT)
    && e == Create(d, root, dir, ps, meta, cb / SLOT) && Landing(d, root, dir, ps, cb / SLOT) == Some(at)
  }

  /** Create then find: the slot a creation lands in holds an entry of exactly the last
      component, attribute, cluster and size, and a file's path leads to it exactly when the
      walk of the disk before arrives there. */
  lemma CreateThenFind(d: Disk, e: Disk, root: u32, rank: map<nat, nat>, cb: nat, dir: u32, ps: seq<seq<byte>>, meta: Meta, at: Found)
    requires CreatedAt(d, e, root, rank, cb, dir, ps, meta, at)
    ensures HoldsEntry(e, at, GivenEntry(ps[|ps| - 1], meta))
    ensures Arrives(d, root, PlanOf(d, root, dir, ps), Known(dir), ps) ==> LeadsTo(e, root, dir, ps, at)
    ensures (meta.attr / 0x10) % 2 == 0 && LeadsTo(e, root, dir, ps, at) ==> Arrives(d, root, PlanOf(d, root, dir, ps), Known(dir), ps)
  {
    CanCreateLands(d, root, dir, ps, cb / SLOT);
    LandingHolds(d, e, root, rank, cb, dir, ps, meta, at);
    FoundWhenArrives(d, e, root, rank, cb, dir, ps, meta, at, PlanOf(d, root, dir, ps));
  }

  lemma FoundWhenArrives(d: Disk, e: Disk, root: u32, rank: map<nat, nat>, cb: nat, dir: u32, ps: seq<seq<byte>>, meta: Meta, at: Found, p: Plan)
    requires CreatedAt(d, e, root, rank, cb, dir, ps, meta, at) && p == PlanOf(d, root, dir, ps)
    ensures Arrives(d, root, p, Known(dir), ps) ==> LeadsTo(e, root, dir, ps, at)
    ensures (meta.attr / 0x10) % 2 == 0 && LeadsTo(e, root, dir, ps, at) ==> Arrives(d, root, p, Known(dir), ps)
  {
    CreateAtTop(d, root, rank, cb, dir, ps, meta);
    CreatedAtTop(d, e, root, rank, cb, p, meta);
    ArrivesIsLeads(d, e, root, rank, cb, p, NewDirs(d, p.top, p.comps, cb / SLOT), meta, Known(dir), ps, at);
  }

  /** A file's path leads to it exactly when the walk arrives. */
  lemma FileFound(d: Disk, e: Disk, root: u32, rank: map<nat, nat>, cb: nat, dir: u32, ps: seq<seq<byte>>, meta: Meta, at: Found, p: Plan,
                  leads: bool, arrives: bool)
    requires CreatedAt(d, e, root, rank, cb, dir, ps, meta, at) && p == PlanOf(d, root, dir, ps) && (meta.attr / 0x10) % 2 == 0
    requires leads == LeadsTo(e, root, dir, ps, at) && arrives == Arrives(d, root, p, Known(dir), ps)
    ensures leads == arrives
  {
    FoundWhenArrives(d, e, root, rank, cb, dir, ps, meta, at, p);
  }

  // ---- when a fresh path arrives ----

  /** The path's last component names nothing, and those before it name directories or nothing. */
  predicate Untaken(d: Disk, root: u32, dir: u32, ps: seq<seq<byte>>)
    decreases |ps|
  {
    ps != [] ==>
      match Lookup(Dir(d, dir), ps[0])
      case None => true
      case Some(j) => |ps| > 1 && IsDirectory(Dir(d, dir)[j]) && Untaken(d, root, Enter(root, Dir(d, dir)[j]), ps[1..])
  }

  /** The addition to the directory where an untaken path stops resolving. */
  function AdditionOf(d: Disk, root: u32, dir: u32, ps: seq<seq<byte>>): Addition
    requires ps != [] && |d.fat| < END_MARK
  {
    FirstAddition(d, root, dir, ps, Meta(ATTR_ARCHIVE, 0, 0))
  }

  lemma {:induction false} PlanIsAddition(d: Disk, root: u32, dir: u32, ps: seq<seq<byte>>)
    requires ps != [] && |d.fat| < END_MARK
    ensures var a, p := AdditionOf(d, root, dir, ps), PlanOf(d, root, dir, ps);
      p.comps != [] && a.dir == p.top && a.component == p.comps[0]
    decreases |ps|
  {
    if |ps| > 1 {
      var r := LookupFrom(Dir(d, dir), ps[0], true, 0);
      if r.Some? {
        PlanIsAddition(d, root, Enter(root, Dir(d, dir)[r.value]), ps[1..]);
      }
    }
  }

  /** In the new directories the remaining components lead down to the entry. */
  lemma {:induction false} NewArrives(d: Disk, root: u32, p: Plan, i: nat, qs: seq<seq<byte>>)
    requires 1 <= i < |p.comps| && qs == p.comps[i..] && PlainComponents(qs)
    ensures Arrives(d, root, p, New(i), qs)
    decreases |qs|
  {
    if |qs| > 1 {
      PlainRest(qs);
      NewArrives(d, root, p, i + 1, qs[1..]);
    }
    NewArrivesFrom(d, root, p, i, qs, qs[0]);
  }

  lemma NewArrivesFrom(d: Disk, root: u32, p: Plan, i: nat, qs: seq<seq<byte>>, c: seq<byte>)
    requires 1 <= i < |p.comps| && qs != [] && c == qs[0] == p.comps[i] && c != [] && DotFree(c) && |qs| == |p.comps| - i
    requires |qs| > 1 ==> Arrives(d, root, p, New(i + 1), qs[1..])
    ensures Arrives(d, root, p, New(i), qs)
  {
    NewPasses(d, root, p, i, c);
  }

  lemma ArrivesHere(d: Disk, root: u32, p: Plan, at: Spot, qs: seq<seq<byte>>)
    requires |qs| == 1 && qs[0] != [] && Hits(d, p, at, qs[0])
    ensures Arrives(d, root, p, at, qs)
  {
  }

  lemma PlainRest(qs: seq<seq<byte>>)
    requires qs != [] && PlainComponents(qs)
    ensures PlainComponents(qs[1..])
  {
    forall k | 0 <= k < |qs[1..]|
      ensures IsComponent(qs[1..][k]) && DotFree(qs[1..][k])
    {
      assert qs[1..][k] == qs[k + 1];
    }
  }

  lemma NewPasses(d: Disk, root: u32, p: Plan, i: nat, c: seq<byte>)
    requires 1 <= i < |p.comps| && c == p.comps[i] && DotFree(c)
    ensures if i + 1 < |p.comps| then Go(d, root, p, New(i), c) == Some(New(i + 1)) else Hits(d, p, New(i), c)
  {
  }

  /** From the directory below which they are missing, the missing components lead to the entry. */
  lemma TopArrives(d: Disk, root: u32, p: Plan)
    requires p.comps != [] && p.comps[0] != [] && PlainComponents(p.comps[1..])
    requires Place(Dir(d, p.top), p.comps[0]).Some? && Lookup(Dir(d, p.top), p.comps[0]) == None
    ensures Arrives(d, root, p, Known(p.top), p.comps)
  {
    if |p.comps| > 1 {
      NewArrives(d, root, p, 1, p.comps[1..]);
    }
  }

  /** A fresh path that no step shadows leads to what was created. */
  lemma {:induction false} UnshadowedArrives(d: Disk, root: u32, p: Plan, a: Addition, dir: u32, ps: seq<seq<byte>>, n: nat)
    requires |d.fat| == |d.data| && |d.fat| < END_MARK && CanCreate(d, root, dir, ps, n)
    requires Untaken(d, root, dir, ps) && p == PlanOf(d, root, dir, ps) && p.comps != []
    requires a.dir == p.top && a.component == p.comps[0] && Unshadowed(d, root, dir, ps, a)
    ensures Arrives(d, root, p, Known(dir), ps)
    decreases |ps|
  {
    var r := Lookup(Dir(d, dir), ps[0]);
    DirectoryLookup(Dir(d, dir), ps[0], 0);
    if r == None {
      assert |ps| == 1 ==> ps[1..] == [];
      TopArrives(d, root, p);
    } else {
      UnshadowedArrives(d, root, p, a, Enter(root, Dir(d, dir)[r.value]), ps[1..], n);
    }
  }

  /** When no directory is missing, only such a path does. */
  lemma {:induction false} ArrivesUnshadowed(d: Disk, root: u32, p: Plan, a: Addition, dir: u32, ps: seq<seq<byte>>)
    requires Untaken(d, root, dir, ps) && |p.comps| == 1 && a.dir == p.top && a.component == p.comps[0]
    requires Arrives(d, root, p, Known(dir), ps)
    ensures Unshadowed(d, root, dir, ps, a)
    decreases |ps|
  {
    var r := Lookup(Dir(d, dir), ps[0]);
    if r.Some? {
      ArrivesUnshadowed(d, root, p, a, Enter(root, Dir(d, dir)[r.value]), ps[1..]);
    }
  }

  /** The directory that gains the entry lies at or below every directory a path without dot names passes. */
  lemma {:induction false} AdditionBelow(d: Disk, root: u32, rank: map<nat, nat>, cb: nat, dir: u32, ps: seq<seq<byte>>)
    requires TreeOk(d, root, rank, cb) && dir as nat in rank && ps != [] && Untaken(d, root, dir, ps)
    requires forall i :: 0 <= i < |ps| - 1 ==> DotFree(ps[i])
    ensures var a := AdditionOf(d, root, dir, ps); a.dir in rank && rank[a.dir] >= rank[dir]
    decreases |ps|
  {
    var r := Lookup(Dir(d, dir), ps[0]);
    DirectoryLookup(Dir(d, dir), ps[0], 0);
    if r.Some? {
      StepDown(d, root, rank, cb, dir, ps[0]);
      assert forall i :: 0 <= i < |ps[1..]| - 1 ==> ps[1..][i] == ps[i + 1];
      AdditionBelow(d, root, rank, cb, Enter(root, Dir(d, dir)[r.value]), ps[1..]);
    }
  }

  /** So a fresh path without dot names is never shadowed. */
  lemma {:induction false} PlainUnshadowed(d: Disk, root: u32, rank: map<nat, nat>, cb: nat, dir: u32, ps: seq<seq<byte>>)
    requires TreeOk(d, root, rank, cb) && dir as nat in rank && ps != [] && Untaken(d, root, dir, ps)
    requires forall i :: 0 <= i < |ps| - 1 ==> DotFree(ps[i])
    ensures Unshadowed(d, root, dir, ps, AdditionOf(d, root, dir, ps))
    decreases |ps|
  {
    var r := Lookup(Dir(d, dir), ps[0]);
    DirectoryLookup(Dir(d, dir), ps[0], 0);
    if r.Some? {
      StepDown(d, root, rank, cb, dir, ps[0]);
      assert forall i :: 0 <= i < |ps[1..]| - 1 ==> ps[1..][i] == ps[i + 1];
      AdditionBelow(d, root, rank, cb, Enter(root, Dir(d, dir)[r.value]), ps[1..]);
      PlainUnshadowed(d, root, rank, cb, Enter(root, Dir(d, dir)[r.value]), ps[1..]);
    }
  }

  /** Create then find for a fresh path: what is found without dot names or shadowing is the new
      entry; and when only the last component is missing, an unshadowed path is the only one that
      finds it. */
  lemma FreshPathArrives(d: Disk, root: u32, rank: map<nat, nat>, cb: nat, dir: u32, ps: seq<seq<byte>>)
    requires TreeOk(d, root, rank, cb) && dir as nat in rank
    requires CanCreate(d, root, dir, ps, cb / SLOT) && Untaken(d, root, dir, ps)
    ensures var a, p := AdditionOf(d, root, dir, ps), PlanOf(d, root, dir, ps);
      && (Unshadowed(d, root, dir, ps, a) ==> Arrives(d, root, p, Known(dir), ps))
      && ((forall i :: 0 <= i < |ps| - 1 ==> DotFree(ps[i])) ==> Arrives(d, root, p, Known(dir), ps))
      && (|p.comps| == 1 && Arrives(d, root, p, Known(dir), ps) ==> Unshadowed(d, root, dir, ps, a))
  {
    var a, p := AdditionOf(d, root, dir, ps), PlanOf(d, root, dir, ps);
    PlanIsAddition(d, root, dir, ps);
    if forall i :: 0 <= i < |ps| - 1 ==> DotFree(ps[i]) {
      PlainUnshadowed(d, root, rank, cb, dir, ps);
    }
    if Unshadowed(d, root, dir, ps, a) {
      UnshadowedArrives(d, root, p, a, dir, ps, cb / SLOT);
    }
    if |p.comps| == 1 && Arrives(d, root, p, Known(dir), ps) {
      ArrivesUnshadowed(d, root, p, a, dir, ps);
    }
  }
}
