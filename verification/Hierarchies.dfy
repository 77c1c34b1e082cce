/** The hierarchy of directories that calls from a formatted volume on build, and what it makes of
    removals: one of a directory is harmless unless its name is that of a dot entry. */
module Hierarchies {
  import opened Words
  import opened Names
  import opened Slots
  import opened Directory
  import opened DirectoryEdit
  import opened DirectoryLaws
  import opened Volume
  import opened Chains
  import opened Writers
  import opened Tree
  import opened Paths
  import opened FileSystem
  import opened FileLaws
  import opened FileOps
  import opened Removals
  import opened FileRuns

  // ---- the hierarchy ----

  /** A live entry for a directory. */
  predicate Sub(D: seq<Slot>, j: nat) { j < |D| && Short(D[j]) && IsDirectory(D[j]) }

  /** The slots of a directory's own dot entries; the root has none. */
  predicate DotPlace(root: u32, a: nat, j: nat) { a != root as nat && j < 2 }

  /** Any other entry for a directory. */
  predicate Branch(d: Disk, root: u32, a: nat, j: nat) { Sub(Dir(d, a), j) && !DotPlace(root, a, j) }

  function Target(d: Disk, a: nat, j: nat): nat { FirstCluster(SlotAt(d, Found(a, j))) }

  /** Where the entry .. of a directory leads. */
  function Parent(d: Disk, c: nat): nat { Target(d, c, 1) }

  /** The first two entries are . and .. . */
  predicate HasDots(D: seq<Slot>) {
    && Sub(D, 0) && Sub(D, 1)
    && Alias(D[0]) == Short83(DOT_NAME) && Alias(D[1]) == Short83(DOTDOT_NAME)
  }

  /** The directory has its dot entries, and its parent an entry for it. */
  ghost predicate DotsOk(d: Disk, root: u32, depth: map<nat, nat>, c: nat) {
    && HasDots(Dir(d, c)) && Target(d, c, 0) == c && Parent(d, c) in depth
    && exists j: nat :: Branch(d, root, Parent(d, c), j) && Target(d, Parent(d, c), j) == c
  }

  predicate BranchOk(d: Disk, root: u32, depth: map<nat, nat>, a: nat, j: nat)
    requires a in depth
  {
    var c := Target(d, a, j);
    c != 0 && c != root as nat && c in depth && depth[c] == depth[a] + 1
  }

  predicate Twins(d: Disk, root: u32, a: nat, j: nat, b: nat, k: nat) {
    Branch(d, root, a, j) && Branch(d, root, b, k) && Target(d, a, j) == Target(d, b, k)
  }

  /** Every directory but the root has exactly one entry other than dot entries, one level up. */
  ghost predicate Hierarchy(d: Disk, root: u32, depth: map<nat, nat>) {
    && (forall a, j: nat :: a in depth && Branch(d, root, a, j) ==> BranchOk(d, root, depth, a, j))
    && (forall a, j: nat, b, k: nat :: a in depth && b in depth && Twins(d, root, a, j, b, k) ==> a == b && j == k)
    && (forall c :: c in depth && c != root as nat ==> DotsOk(d, root, depth, c))
  }

  ghost predicate Ordered(d: Disk, root: u32, cb: nat, depth: map<nat, nat>) {
    TreeOk(d, root, depth, cb) && cb >= 2 * SLOT && Hierarchy(d, root, depth)
  }

  /** The directories make up a hierarchy, and the current one belongs to it. */
  ghost predicate Orderly(s: State, root: u32, cb: nat) {
    exists depth: map<nat, nat> :: Ordered(s.disk, root, cb, depth) && s.cwd as nat in depth
  }

  // ---- at or below a directory ----

  /** Directory c is x or lies below it. */
  ghost predicate Below(d: Disk, root: u32, depth: map<nat, nat>, x: nat, c: nat)
    decreases if c in depth then depth[c] else 0
  {
    c == x ||
    (c in depth && c != root as nat && Parent(d, c) in depth && depth[Parent(d, c)] < depth[c]
      && Below(d, root, depth, x, Parent(d, c)))
  }

  lemma ParentIsAbove(d: Disk, root: u32, depth: map<nat, nat>, c: nat) returns (j: nat)
    requires Hierarchy(d, root, depth) && c in depth && c != root as nat
    ensures Parent(d, c) in depth && depth[c] == depth[Parent(d, c)] + 1
    ensures Branch(d, root, Parent(d, c), j) && Target(d, Parent(d, c), j) == c
  {
    assert DotsOk(d, root, depth, c);
    j :| Branch(d, root, Parent(d, c), j) && Target(d, Parent(d, c), j) == c;
    assert BranchOk(d, root, depth, Parent(d, c), j);
  }

  lemma {:induction false} BelowIsDeeper(d: Disk, root: u32, depth: map<nat, nat>, x: nat, c: nat)
    requires x in depth && c in depth && Below(d, root, depth, x, c)
    ensures depth[c] >= depth[x]
    decreases depth[c]
  {
    if c != x {
      BelowIsDeeper(d, root, depth, x, Parent(d, c));
    }
  }

  lemma ParentStaysOut(d: Disk, root: u32, depth: map<nat, nat>, x: nat, a: nat)
    requires Hierarchy(d, root, depth) && a in depth && a != root as nat && !Below(d, root, depth, x, a)
    ensures Parent(d, a) in depth && !Below(d, root, depth, x, Parent(d, a))
  {
    var j := ParentIsAbove(d, root, depth, a);
  }

  lemma ChildStaysOut(d: Disk, root: u32, depth: map<nat, nat>, at: Found, a: nat, j: nat)
    requires Hierarchy(d, root, depth) && at.dir in depth && Branch(d, root, at.dir, at.slot) && Found(a, j) != at
    requires a in depth && Branch(d, root, a, j) && !Below(d, root, depth, Target(d, at.dir, at.slot), a)
    ensures BranchOk(d, root, depth, a, j) && !Below(d, root, depth, Target(d, at.dir, at.slot), Target(d, a, j))
  {
    var c := Target(d, a, j);
    assert BranchOk(d, root, depth, a, j);
    var k := ParentIsAbove(d, root, depth, c);
    assert Twins(d, root, Parent(d, c), k, a, j);
    assert c == Target(d, at.dir, at.slot) ==> Twins(d, root, a, j, at.dir, at.slot);
  }

  /** From a directory that is not below x no entry but the one for x leads below x. */
  lemma StaysOut(d: Disk, root: u32, depth: map<nat, nat>, cb: nat, at: Found, a: nat, c: nat, j: nat)
    requires Ordered(d, root, cb, depth) && at.dir in depth && Branch(d, root, at.dir, at.slot)
    requires a in depth && !Below(d, root, depth, Target(d, at.dir, at.slot), a) && HopAt(d, root, Some(at), a, c, j)
    ensures c in depth && !Below(d, root, depth, Target(d, at.dir, at.slot), c)
  {
    if DotPlace(root, a, j) {
      DotsAre(d, root, depth, a);
      ParentStaysOut(d, root, depth, Target(d, at.dir, at.slot), a);
      Ranked(d, root, depth, cb, a);
      Ranked(d, root, depth, cb, Parent(d, a));
    } else {
      ChildStaysOut(d, root, depth, at, a, j);
    }
  }

  /** So a directory whose entry is no dot entry is severed when that goes. */
  lemma BranchIsSevered(d: Disk, root: u32, depth: map<nat, nat>, cb: nat, at: Found)
    requires Ordered(d, root, cb, depth) && at.dir in depth && Branch(d, root, at.dir, at.slot)
    ensures !InUse(d, root, Some(at), at.dir, Target(d, at.dir, at.slot))
  {
    var x := Target(d, at.dir, at.slot);
    var out := set c | c in depth && !Below(d, root, depth, x, c);
    assert BranchOk(d, root, depth, at.dir, at.slot);
    if Below(d, root, depth, x, at.dir) {
      BelowIsDeeper(d, root, depth, x, at.dir);
    }
    forall a, c | a in out && Hop(d, root, Some(at), a, c)
      ensures Hop(d, root, Some(at), a, c) && c in out
    {
      var j: nat :| HopAt(d, root, Some(at), a, c, j);
      StaysOut(d, root, depth, cb, at, a, c, j);
    }
    if InUse(d, root, Some(at), at.dir, x) {
      InUseCarries(d, Some(at), d, Some(at), root, out, at.dir, x);
    }
  }

  /** The root leads to every directory without the dot entries. */
  lemma {:induction false} RootLeads(d: Disk, root: u32, depth: map<nat, nat>, cb: nat, but: Option<Found>, c: nat) returns (k: nat)
    requires Ordered(d, root, cb, depth) && c in depth && (but.Some? ==> DotPlace(root, but.value.dir, but.value.slot))
    ensures Reached(d, root, but, root, c, k)
    decreases depth[c]
  {
    if c == root as nat {
      k := 0;
    } else {
      var j := ParentIsAbove(d, root, depth, c);
      k := RootLeads(d, root, depth, cb, but, Parent(d, c));
      Ranked(d, root, depth, cb, c);
      assert HopAt(d, root, but, Parent(d, c), c, j);
      assert Hop(d, root, but, Parent(d, c), c);
      k := k + 1;
    }
  }

  /** Any consistent tree of directories has those of the hierarchy. */
  lemma DepthIsKnown(d: Disk, root: u32, depth: map<nat, nat>, rank: map<nat, nat>, cb: nat, c: nat)
    requires Ordered(d, root, cb, depth) && TreeOk(d, root, rank, cb) && c in depth
    ensures c in rank
  {
    var k := RootLeads(d, root, depth, cb, None, c);
    assert InUse(d, root, None, root, c);
    InUseIsKnown(d, root, rank, cb, root, c);
  }

  /** The dot entries lead to directories in use. */
  lemma DotIsInUse(d: Disk, root: u32, depth: map<nat, nat>, cb: nat, at: Found)
    requires Ordered(d, root, cb, depth) && at.dir in depth && DotPlace(root, at.dir, at.slot)
    ensures Target(d, at.dir, at.slot) in depth && InUse(d, root, Some(at), at.dir, Target(d, at.dir, at.slot))
  {
    DotsAre(d, root, depth, at.dir);
    if at.slot == 0 {
      assert Reached(d, root, Some(at), at.dir, at.dir, 0);
    } else {
      assert at.slot == 1;
      ParentInUse(d, root, depth, cb, at);
    }
  }

  lemma DotsAre(d: Disk, root: u32, depth: map<nat, nat>, c: nat)
    requires Hierarchy(d, root, depth) && c in depth && c != root as nat
    ensures HasDots(Dir(d, c)) && Target(d, c, 0) == c && Parent(d, c) in depth
  {
    assert DotsOk(d, root, depth, c);
  }

  lemma ParentInUse(d: Disk, root: u32, depth: map<nat, nat>, cb: nat, at: Found)
    requires Ordered(d, root, cb, depth) && DotPlace(root, at.dir, at.slot) && Parent(d, at.dir) in depth
    ensures InUse(d, root, Some(at), at.dir, Parent(d, at.dir))
  {
    var k := RootLeads(d, root, depth, cb, Some(at), Parent(d, at.dir));
  }

  // ---- what a name finds ----

  lemma DotRuns(D: seq<Slot>)
    requires HasDots(D)
    ensures RunLen(D, 0) == 0 && RunLen(D, 1) == 0
  {
    assert !Slots.Link(D, 1, 1);
  }

  /** The dot entries are found under the names that share their aliases, and under no other. */
  lemma DotNames(D: seq<Slot>, name: seq<byte>)
    requires WellFormed(D) && HasDots(D)
    ensures !DotFree(name) ==> Lookup(D, name).Some? && Lookup(D, name).value < 2
    ensures DotFree(name) ==> forall j :: Lookup(D, name) == Some(j) ==> j >= 2
  {
    DotRuns(D);
    LookupDecided(D, name, 0);
    LookupDecided(D, name, 1);
  }

  /** In a hierarchy a removal leaves nothing in use behind exactly when the current directory is the
      root or the name is no dot entry's. */
  lemma SeveredIff(d: Disk, root: u32, depth: map<nat, nat>, cb: nat, cwd: u32, name: seq<byte>)
    requires Ordered(d, root, cb, depth) && cwd as nat in depth
    ensures Severed(d, root, cwd, name) <==> cwd == root || DotFree(name)
  {
    if cwd == root || DotFree(name) {
      NoDotSevered(d, root, depth, cb, cwd, name);
    } else {
      DotNotSevered(d, root, depth, cb, cwd, name);
    }
  }

  lemma NoDotSevered(d: Disk, root: u32, depth: map<nat, nat>, cb: nat, cwd: u32, name: seq<byte>)
    requires Ordered(d, root, cb, depth) && cwd as nat in depth && (cwd == root || DotFree(name))
    ensures Severed(d, root, cwd, name)
  {
    Ranked(d, root, depth, cb, cwd);
    if cwd != root {
      DotsAre(d, root, depth, cwd);
      DotNames(Dir(d, cwd), name);
    }
    var r := Lookup(Dir(d, cwd), name);
    if r.Some? && IsDirectory(Dir(d, cwd)[r.value]) {
      BranchIsSevered(d, root, depth, cb, Found(cwd, r.value));
    }
  }

  lemma DotNotSevered(d: Disk, root: u32, depth: map<nat, nat>, cb: nat, cwd: u32, name: seq<byte>)
    requires Ordered(d, root, cb, depth) && cwd as nat in depth && cwd != root && !DotFree(name)
    ensures !Severed(d, root, cwd, name)
  {
    Ranked(d, root, depth, cb, cwd);
    DotsAre(d, root, depth, cwd);
    DotNames(Dir(d, cwd), name);
    var j := Lookup(Dir(d, cwd), name).value;
    DotIsInUse(d, root, depth, cb, Found(cwd, j));
    Ranked(d, root, depth, cb, Target(d, cwd, j));
  }

  // ---- what keeps the hierarchy ----

  /** The same entries for directories stand in the same slots. */
  predicate SameSubs(D: seq<Slot>, E: seq<Slot>) {
    |E| == |D| && forall j: nat :: j < |D| && (Sub(D, j) || Sub(E, j)) ==> E[j] == D[j]
  }

  lemma SubsAt(d: Disk, e: Disk, root: u32, a: nat, j: nat)
    requires SameSubs(Dir(d, a), Dir(e, a))
    ensures Branch(e, root, a, j) <==> Branch(d, root, a, j)
    ensures Sub(Dir(d, a), j) ==> Target(e, a, j) == Target(d, a, j)
  {
  }

  lemma SubsKeepDots(d: Disk, e: Disk, root: u32, depth: map<nat, nat>, c: nat)
    requires DotsOk(d, root, depth, c) && SameSubs(Dir(d, c), Dir(e, c)) && SameSubs(Dir(d, Parent(d, c)), Dir(e, Parent(d, c)))
    ensures DotsOk(e, root, depth, c)
  {
    SubsAt(d, e, root, c, 0);
    SubsAt(d, e, root, c, 1);
    var j: nat :| Branch(d, root, Parent(d, c), j) && Target(d, Parent(d, c), j) == c;
    SubsAt(d, e, root, Parent(d, c), j);
  }

  lemma SubsKeepHierarchy(d: Disk, e: Disk, root: u32, depth: map<nat, nat>)
    requires Hierarchy(d, root, depth) && forall c :: c in depth ==> SameSubs(Dir(d, c), Dir(e, c))
    ensures Hierarchy(e, root, depth)
  {
    forall a, j: nat | a in depth && Branch(e, root, a, j)
      ensures BranchOk(e, root, depth, a, j)
    {
      SubsAt(d, e, root, a, j);
      assert BranchOk(d, root, depth, a, j);
    }
    forall a, j: nat, b, k: nat | a in depth && b in depth && Twins(e, root, a, j, b, k)
      ensures a == b && j == k
    {
      SubsAt(d, e, root, a, j);
      SubsAt(d, e, root, b, k);
      assert Twins(d, root, a, j, b, k);
    }
    forall c | c in depth && c != root as nat
      ensures DotsOk(e, root, depth, c)
    {
      assert DotsOk(d, root, depth, c);
      SubsKeepDots(d, e, root, depth, c);
    }
  }

  /** What leaves the directories and their table entries alone keeps the hierarchy. */
  lemma FrameKeepsOrder(d: Disk, e: Disk, root: u32, cb: nat, depth: map<nat, nat>)
    requires Ordered(d, root, cb, depth) && |e.fat| == |d.fat| && |e.data| == |d.data|
    requires forall c :: c in depth && c < |d.data| && c < |d.fat| ==> e.data[c] == d.data[c] && e.fat[c] == d.fat[c]
    ensures Ordered(e, root, cb, depth)
  {
    forall c | c in depth
      ensures DirOk(e, root, depth, cb, c) && SameSubs(Dir(d, c), Dir(e, c))
    {
      assert DirOk(d, root, depth, cb, c);
      DirOkFrame(d, e, root, depth, depth, cb, c);
    }
    SubsKeepHierarchy(d, e, root, depth);
  }

  /** Adding a file to a directory adds no entry for a directory. */
  lemma FileAddsNoSub(d: Disk, dir: nat, component: seq<byte>, meta: Meta)
    requires WellFormed(Dir(d, dir)) && IsComponent(component) && LongSlots(component) <= 31 && Place(Dir(d, dir), component).Some?
    requires meta.attr != ATTR_LFN && (meta.attr / 0x10) % 2 == 0
    ensures SameSubs(Dir(d, dir), Added(d, dir, component, meta))
  {
    forall j: nat | j < |Dir(d, dir)| && (Sub(Dir(d, dir), j) || Sub(Added(d, dir, component, meta), j))
      ensures Added(d, dir, component, meta)[j] == Dir(d, dir)[j]
    {
      AddedFiles(d, dir, component, meta, j);
    }
  }

  lemma AddFileKeepsOrder(d: Disk, root: u32, cb: nat, depth: map<nat, nat>, dir: nat, component: seq<byte>, meta: Meta)
    requires Ordered(d, root, cb, depth) && dir in depth && IsComponent(component) && Place(Dir(d, dir), component).Some?
    requires meta.attr != ATTR_LFN && (meta.attr / 0x10) % 2 == 0
    ensures Ordered(AddTo(d, dir, component, meta), root, cb, depth)
  {
    var e := AddTo(d, dir, component, meta);
    FewLongSlots(component);
    AddFileKeepsTree(d, root, depth, cb, dir, component, meta);
    Ranked(d, root, depth, cb, dir);
    forall c | c in depth
      ensures SameSubs(Dir(d, c), Dir(e, c))
    {
      AddToDir(d, dir, component, meta, c);
      if c == dir {
        FileAddsNoSub(d, dir, component, meta);
      }
    }
    SubsKeepHierarchy(d, e, root, depth);
  }

  // ---- a new directory ----

  /** Of the entries for directories other than dot entries, e has those of d and one more, for
      the new directory spare. */
  ghost predicate OneBranch(d: Disk, e: Disk, root: u32, depth: map<nat, nat>, at: Found, spare: nat) {
    forall a, j: nat :: a in depth || a == spare ==> NewBranch(d, e, root, depth, at, spare, a, j)
  }

  predicate NewBranch(d: Disk, e: Disk, root: u32, depth: map<nat, nat>, at: Found, spare: nat, a: nat, j: nat) {
    && (Branch(e, root, a, j) <==> (a in depth && Branch(d, root, a, j)) || Found(a, j) == at)
    && (a in depth && Branch(d, root, a, j) ==> Found(a, j) != at && Target(e, a, j) == Target(d, a, j))
    && (Found(a, j) == at ==> Target(e, a, j) == spare)
  }

  lemma AddedSubs(d: Disk, dir: nat, component: seq<byte>, spare: u32, j: nat)
    requires WellFormed(Dir(d, dir)) && IsComponent(component) && LongSlots(component) <= 31 && Place(Dir(d, dir), component).Some?
    ensures var D, E, si := Dir(d, dir), Added(d, dir, component, DirMeta(spare)), NewSlot(d, dir, component);
      && (Sub(E, j) <==> Sub(D, j) || j == si)
      && (Sub(D, j) ==> j != si && E[j] == D[j])
      && Sub(E, si) && FirstCluster(E[si]) == spare
  {
    AddedFiles(d, dir, component, DirMeta(spare), NewSlot(d, dir, component));
    if j < |Dir(d, dir)| {
      AddedFiles(d, dir, component, DirMeta(spare), j);
    }
  }

  lemma DotsAreSubs(spare: u32, dir: u32, n: nat, j: nat)
    requires n >= 2
    ensures HasDots(DotSlots(spare, dir, n)) && (Sub(DotSlots(spare, dir, n), j) <==> j < 2)
  {
    DotSlotsOk(spare, dir, n);
    DotSlotsDirectories(spare, dir, n);
  }

  /** What the directories are once a missing one was made. */
  ghost predicate DirsWithNew(d: Disk, e: Disk, depth: map<nat, nat>, dir: u32, component: seq<byte>, spare: u32, n: nat) {
    && Place(Dir(d, dir), component).Some? && LongSlots(component) <= 31
    && Dir(e, spare) == DotSlots(spare, dir, n)
    && forall c :: c in depth ==> Dir(e, c) == if c == dir as nat then Added(d, dir, component, DirMeta(spare)) else Dir(d, c)
  }

  lemma NewSlotBehindDots(d: Disk, dir: nat, component: seq<byte>)
    requires HasDots(Dir(d, dir)) && Place(Dir(d, dir), component).Some?
    ensures NewSlot(d, dir, component) >= 2
  {
  }

  lemma BranchAfter(d: Disk, e: Disk, root: u32, depth: map<nat, nat>, dir: u32, component: seq<byte>, spare: u32, n: nat, a: nat, j: nat)
    requires DirsWithNew(d, e, depth, dir, component, spare, n) && n >= 2 && dir as nat in depth && spare as nat !in depth && root as nat in depth
    requires WellFormed(Dir(d, dir)) && IsComponent(component) && (dir != root ==> HasDots(Dir(d, dir))) && (a in depth || a == spare as nat)
    ensures NewBranch(d, e, root, depth, Found(dir, NewSlot(d, dir, component)), spare, a, j)
  {
    if a == spare as nat {
      DotsAreSubs(spare, dir, n, j);
    } else if a == dir as nat {
      AddedSubs(d, dir, component, spare, j);
      if dir != root {
        NewSlotBehindDots(d, dir, component);
      }
    }
  }

  /** The new directory has its dots and its entry; the others keep theirs. */
  lemma DotsWithNew(d: Disk, e: Disk, root: u32, depth: map<nat, nat>, dir: u32, component: seq<byte>, spare: u32, n: nat, c: nat)
    requires DirsWithNew(d, e, depth, dir, component, spare, n) && n >= 2 && dir as nat in depth && spare as nat !in depth
    requires OneBranch(d, e, root, depth, Found(dir, NewSlot(d, dir, component)), spare)
    requires WellFormed(Dir(d, dir)) && IsComponent(component)
    requires c == spare as nat || (c in depth && DotsOk(d, root, depth, c))
    ensures DotsOk(e, root, Deeper(depth, dir, spare), c)
  {
    if c == spare as nat {
      DotsAreSubs(spare, dir, n, 0);
      DotSlotsOk(spare, dir, n);
      assert NewBranch(d, e, root, depth, Found(dir, NewSlot(d, dir, component)), spare, dir, NewSlot(d, dir, component));
    } else {
      if c == dir as nat {
        AddedSubs(d, dir, component, spare, 0);
        AddedSubs(d, dir, component, spare, 1);
      }
      var j: nat :| Branch(d, root, Parent(d, c), j) && Target(d, Parent(d, c), j) == c;
      assert NewBranch(d, e, root, depth, Found(dir, NewSlot(d, dir, component)), spare, Parent(d, c), j);
    }
  }

  lemma OneBranchKeeps(d: Disk, e: Disk, root: u32, depth: map<nat, nat>, at: Found, spare: nat)
    requires Hierarchy(d, root, depth) && OneBranch(d, e, root, depth, at, spare) && at.dir in depth && spare !in depth
    requires spare != 0 && spare != root as nat
    requires forall c :: (c in depth || c == spare) && c != root as nat ==> DotsOk(e, root, Deeper(depth, at.dir, spare), c)
    ensures Hierarchy(e, root, Deeper(depth, at.dir, spare))
  {
    var more := Deeper(depth, at.dir, spare);
    forall a, j: nat | a in more && Branch(e, root, a, j)
      ensures BranchOk(e, root, more, a, j)
    {
      assert NewBranch(d, e, root, depth, at, spare, a, j);
      assert Found(a, j) != at ==> BranchOk(d, root, depth, a, j);
    }
    forall a, j: nat, b, k: nat | a in more && b in more && Twins(e, root, a, j, b, k)
      ensures a == b && j == k
    {
      assert NewBranch(d, e, root, depth, at, spare, a, j) && NewBranch(d, e, root, depth, at, spare, b, k);
      assert Found(a, j) != at ==> BranchOk(d, root, depth, a, j);
      assert Found(b, k) != at ==> BranchOk(d, root, depth, b, k);
      assert Found(a, j) != at && Found(b, k) != at ==> Twins(d, root, a, j, b, k);
    }
  }

  lemma MakeDirDirsAll(d: Disk, root: u32, depth: map<nat, nat>, cb: nat, dir: u32, component: seq<byte>)
    requires TreeOk(d, root, depth, cb) && dir as nat in depth && IsComponent(component)
    requires LeastFree(d.fat, 2) != 0 && Place(Dir(d, dir), component).Some?
    ensures DirsWithNew(d, MakeDir(d, dir, component, cb / SLOT), depth, dir, component, LeastFree(d.fat, 2), cb / SLOT)
  {
    FewLongSlots(component);
    SpareIsNew(d, root, depth, cb);
    Ranked(d, root, depth, cb, dir);
    MakeDirDirs(d, dir, component, cb / SLOT, LeastFree(d.fat, 2));
    forall c | c in depth
      ensures Dir(MakeDir(d, dir, component, cb / SLOT), c) ==
        if c == dir as nat then Added(d, dir, component, DirMeta(LeastFree(d.fat, 2))) else Dir(d, c)
    {
      MakeDirDirs(d, dir, component, cb / SLOT, c);
    }
  }

  /** A missing directory with an entry becomes part of the hierarchy. */
  lemma MakeDirKeepsOrder(d: Disk, root: u32, cb: nat, depth: map<nat, nat>, dir: u32, component: seq<byte>)
    requires Ordered(d, root, cb, depth) && dir as nat in depth && IsComponent(component)
    requires LeastFree(d.fat, 2) != 0 && Place(Dir(d, dir), component).Some?
    ensures Ordered(MakeDir(d, dir, component, cb / SLOT), root, cb, Deeper(depth, dir, LeastFree(d.fat, 2)))
  {
    MakeDirKeepsTree(d, root, depth, cb, dir, component);
    MakeDirDirsAll(d, root, depth, cb, dir, component);
    Ranked(d, root, depth, cb, dir);
    NewDirKeepsHierarchy(d, MakeDir(d, dir, component, cb / SLOT), root, depth, dir, component, LeastFree(d.fat, 2), cb / SLOT);
  }

  lemma NewDirKeepsHierarchy(d: Disk, e: Disk, root: u32, depth: map<nat, nat>, dir: u32, component: seq<byte>, spare: u32, n: nat)
    requires Hierarchy(d, root, depth) && DirsWithNew(d, e, depth, dir, component, spare, n) && n >= 2
    requires dir as nat in depth && root as nat in depth && spare as nat !in depth && spare != 0
    requires WellFormed(Dir(d, dir)) && IsComponent(component)
    ensures Hierarchy(e, root, Deeper(depth, dir, spare))
  {
    var at := Found(dir, NewSlot(d, dir, component));
    if dir != root {
      DotsAre(d, root, depth, dir);
    }
    forall a, j: nat | a in depth || a == spare as nat
      ensures NewBranch(d, e, root, depth, at, spare, a, j)
    {
      BranchAfter(d, e, root, depth, dir, component, spare, n, a, j);
    }
    forall c | (c in depth || c == spare as nat) && c != root as nat
      ensures DotsOk(e, root, Deeper(depth, dir, spare), c)
    {
      assert c in depth ==> DotsOk(d, root, depth, c);
      DotsWithNew(d, e, root, depth, dir, component, spare, n, c);
    }
    OneBranchKeeps(d, e, root, depth, at, spare);
  }

  // ---- creation ----

  /** A hierarchy that has all these directories. */
  ghost predicate StaysOrdered(e: Disk, root: u32, cb: nat, depth: map<nat, nat>) {
    exists more: map<nat, nat> :: (forall c :: c in depth ==> c in more) && Ordered(e, root, cb, more)
  }

  /** What is done to a directory outside the hierarchy does not touch it. */
  lemma OutsideAddKeepsOrder(d: Disk, root: u32, cb: nat, depth: map<nat, nat>, q: nat, component: seq<byte>, meta: Meta)
    requires Ordered(d, root, cb, depth) && q !in depth && q < |d.data| && LongSlots(component) <= 31
    ensures Ordered(AddTo(d, q, component, meta), root, cb, depth)
  {
    FrameKeepsOrder(d, AddTo(d, q, component, meta), root, cb, depth);
  }

  /** A directory made without an entry, for want of room or outside the hierarchy, is no part of it. */
  lemma LooseDirKeepsOrder(d: Disk, root: u32, cb: nat, depth: map<nat, nat>, q: u32, component: seq<byte>)
    requires Ordered(d, root, cb, depth) && q < |d.data| && LongSlots(component) <= 31 && LeastFree(d.fat, 2) != 0
    requires q as nat !in depth || Place(Dir(d, q), component) == None
    ensures Ordered(MakeDir(d, q, component, cb / SLOT), root, cb, depth)
  {
    SpareIsNew(d, root, depth, cb);
    MarkedIsSame(d, q, component, LeastFree(d.fat, 2));
    FrameKeepsOrder(d, MakeDir(d, q, component, cb / SLOT), root, cb, depth);
  }

  lemma MarkedIsSame(d: Disk, q: u32, component: seq<byte>, spare: u32)
    requires spare < |d.fat| && q < |d.data|
    ensures var marked := Disk(d.fat[spare := END], d.data);
      Dir(marked, q) == Dir(d, q)
  {
  }

  /** Creating a file through any path keeps the hierarchy, whatever room there is. */
  lemma {:induction false} CreateKeepsOrder(d: Disk, root: u32, cb: nat, depth: map<nat, nat>, known: map<nat, nat>, q: u32,
                                            ps: seq<seq<byte>>, meta: Meta)
    requires Ordered(d, root, cb, depth) && TreeOk(d, root, known, cb) && (forall c :: c in depth ==> c in known)
    requires q as nat in known && Parts(ps) && meta.attr != ATTR_LFN && (meta.attr / 0x10) % 2 == 0
    ensures StaysOrdered(Create(d, root, q, ps, meta, cb / SLOT), root, cb, depth)
    decreases |ps|
  {
    if ps == [] || ps[0] == [] {
      assert StaysOrdered(d, root, cb, depth);
    } else if |ps| == 1 {
      LastKeepsOrder(d, root, cb, depth, known, q, ps[0], meta);
    } else {
      CreateUnfold(d, root, q, ps, meta, cb / SLOT);
      var r := LookupFrom(Dir(d, q), ps[0], true, 0);
      if r.Some? {
        StepInto(d, root, known, cb, q, ps[0]);
        CreateKeepsOrder(d, root, cb, depth, known, Enter(root, Dir(d, q)[r.value]), ps[1..], meta);
      } else if LeastFree(d.fat, 2) == 0 {
        assert StaysOrdered(d, root, cb, depth);
      } else {
        CreateBelowKeepsOrder(d, root, cb, depth, known, q, ps, meta);
      }
    }
  }

  lemma LastKeepsOrder(d: Disk, root: u32, cb: nat, depth: map<nat, nat>, known: map<nat, nat>, q: u32, component: seq<byte>, meta: Meta)
    requires Ordered(d, root, cb, depth) && TreeOk(d, root, known, cb) && q as nat in known
    requires IsComponent(component) && meta.attr != ATTR_LFN && (meta.attr / 0x10) % 2 == 0
    ensures StaysOrdered(AddTo(d, q, component, meta), root, cb, depth)
  {
    Ranked(d, root, known, cb, q);
    FewLongSlots(component);
    if q as nat !in depth {
      OutsideAddKeepsOrder(d, root, cb, depth, q, component, meta);
    } else if Place(Dir(d, q), component).Some? {
      AddFileKeepsOrder(d, root, cb, depth, q, component, meta);
    }
  }

  lemma {:induction false} CreateBelowKeepsOrder(d: Disk, root: u32, cb: nat, depth: map<nat, nat>, known: map<nat, nat>, q: u32,
                                                 ps: seq<seq<byte>>, meta: Meta)
    requires Ordered(d, root, cb, depth) && TreeOk(d, root, known, cb) && (forall c :: c in depth ==> c in known)
    requires q as nat in known && |ps| > 1 && IsComponent(ps[0]) && Parts(ps[1..]) && LeastFree(d.fat, 2) != 0
    requires meta.attr != ATTR_LFN && (meta.attr / 0x10) % 2 == 0
    ensures StaysOrdered(Create(MakeDir(d, q, ps[0], cb / SLOT), root, LeastFree(d.fat, 2), ps[1..], meta, cb / SLOT), root, cb, depth)
    decreases |ps|, 0
  {
    var spare, e := LeastFree(d.fat, 2), MakeDir(d, q, ps[0], cb / SLOT);
    var below := depth;
    MakeDirKeepsTree(d, root, known, cb, q, ps[0]);
    if q as nat in depth && Place(Dir(d, q), ps[0]).Some? {
      MakeDirKeepsOrder(d, root, cb, depth, q, ps[0]);
      below := Deeper(depth, q, spare);
    } else {
      Ranked(d, root, known, cb, q);
      FewLongSlots(ps[0]);
      LooseDirKeepsOrder(d, root, cb, depth, q, ps[0]);
    }
    CreateKeepsOrder(e, root, cb, below, Deeper(known, q, spare), spare, ps[1..], meta);
  }

  // ---- the calls ----

  lemma TakeKeepsOrder(d: Disk, mid: Disk, root: u32, cb: nat, depth: map<nat, nat>, ds: seq<nat>)
    requires Ordered(d, root, cb, depth) && Took(d, mid, ds)
    ensures Ordered(mid, root, cb, depth) && |mid.fat| == |mid.data| && |mid.fat| < END_MARK
  {
    TookDirs(d, mid, root, depth, cb, ds);
    SubsKeepHierarchy(d, mid, root, depth);
  }

  lemma StaysSo(d: Disk, root: u32, cb: nat, depth: map<nat, nat>)
    requires Ordered(d, root, cb, depth)
    ensures StaysOrdered(d, root, cb, depth)
  {
  }

  lemma ArchiveIsFile(meta: Meta)
    requires meta.attr == ATTR_ARCHIVE
    ensures meta.attr != ATTR_LFN && (meta.attr / 0x10) % 2 == 0
  {
  }

  lemma NewFileKeepsOrder(d: Disk, root: u32, cb: nat, depth: map<nat, nat>, dir: u32, ps: seq<seq<byte>>, meta: Meta)
    requires Ordered(d, root, cb, depth) && dir as nat in depth && Parts(ps) && meta.attr == ATTR_ARCHIVE
    ensures |d.fat| == |d.data| && |d.fat| < END_MARK && StaysOrdered(Create(d, root, dir, ps, meta, cb / SLOT), root, cb, depth)
  {
    ArchiveIsFile(meta);
    CreateKeepsOrder(d, root, cb, depth, depth, dir, ps, meta);
  }

  lemma TouchKeepsOrder(d: Disk, root: u32, cb: nat, depth: map<nat, nat>, dir: u32, ps: seq<seq<byte>>)
    requires Ordered(d, root, cb, depth) && dir as nat in depth && Parts(ps)
    ensures |d.fat| == |d.data| && |d.fat| < END_MARK && StaysOrdered(Touched(d, root, dir, ps, cb / SLOT), root, cb, depth)
  {
    StaysSo(d, root, cb, depth);
    NewFileKeepsOrder(d, root, cb, depth, dir, ps, Meta(ATTR_ARCHIVE, 0, 0));
  }

  lemma CopyKeepsOrder(d: Disk, root: u32, cb: nat, depth: map<nat, nat>, q: u32, src: seq<seq<byte>>, dir: u32, ps: seq<seq<byte>>)
    requires Ordered(d, root, cb, depth) && dir as nat in depth && Parts(ps)
    ensures |d.fat| == |d.data| && |d.fat| < END_MARK && StaysOrdered(CopyResult(d, root, q, src, dir, ps, cb), root, cb, depth)
  {
    StaysSo(d, root, cb, depth);
    var r := Find(d, root, q, src);
    if r.Some? && CanCopy(d, FirstCluster(r.value), FileSize(r.value), ClustersFrom(d.fat, FirstCluster(r.value)), cb) {
      CopiedKeepsOrder(d, root, cb, depth, r.value, dir, ps);
    }
    ResultIsCopy(d, root, q, src, dir, ps, cb);
  }

  /** A copy either changes nothing or is the copy of the entry found. */
  lemma ResultIsCopy(d: Disk, root: u32, q: u32, src: seq<seq<byte>>, dir: u32, ps: seq<seq<byte>>, cb: nat)
    requires |d.fat| == |d.data| && |d.fat| < END_MARK && cb > 0
    ensures var r := Find(d, root, q, src);
      || CopyResult(d, root, q, src, dir, ps, cb) == d
      || (r.Some? && CanCopy(d, FirstCluster(r.value), FileSize(r.value), ClustersFrom(d.fat, FirstCluster(r.value)), cb)
          && CopyResult(d, root, q, src, dir, ps, cb) == CopiedTo(d, root, r.value, dir, ps, cb))
  {
  }

  lemma CopiedKeepsOrder(d: Disk, root: u32, cb: nat, depth: map<nat, nat>, s: Slot, dir: u32, ps: seq<seq<byte>>)
    requires Ordered(d, root, cb, depth) && dir as nat in depth && Parts(ps)
    requires CanCopy(d, FirstCluster(s), FileSize(s), ClustersFrom(d.fat, FirstCluster(s)), cb)
    ensures |d.fat| == |d.data| && |d.fat| < END_MARK && StaysOrdered(CopiedTo(d, root, s, dir, ps, cb), root, cb, depth)
  {
    CopyTook(d, s, cb);
    CopyMakesOrder(d, CopyTaken(d, s, cb), root, cb, depth, CopyClusters(d, s, cb), FileSize(s), dir, ps);
  }

  lemma CopyMakesOrder(d: Disk, mid: Disk, root: u32, cb: nat, depth: map<nat, nat>, ds: seq<nat>, size: u32, dir: u32, ps: seq<seq<byte>>)
    requires Ordered(d, root, cb, depth) && Took(d, mid, ds) && dir as nat in depth && Parts(ps)
    ensures |mid.fat| == |mid.data| && |mid.fat| < END_MARK && (ds != [] ==> ds[0] < |d.fat|)
    ensures StaysOrdered(if ds == [] then mid else Create(mid, root, dir, ps, Meta(ATTR_ARCHIVE, ds[0], size), cb / SLOT), root, cb, depth)
  {
    TakeKeepsOrder(d, mid, root, cb, depth, ds);
    if ds == [] {
      StaysSo(mid, root, cb, depth);
    } else {
      NewFileKeepsOrder(mid, root, cb, depth, dir, ps, Meta(ATTR_ARCHIVE, ds[0], size));
    }
  }

  lemma InstallKeepsOrder(d: Disk, e: Disk, root: u32, cb: nat, depth: map<nat, nat>, dir: u32, ps: seq<seq<byte>>, bytes: seq<byte>, mid: Disk)
    requires Ordered(d, root, cb, depth) && dir as nat in depth && Parts(ps) && InstallsBy(d, e, root, cb, dir, ps, bytes, mid)
    ensures StaysOrdered(e, root, cb, depth)
  {
    var ds := Taken(d.fat, BlocksFor(|bytes|, cb));
    TakeKeepsOrder(d, mid, root, cb, depth, ds);
    if |ds| < BlocksFor(|bytes|, cb) {
      StaysSo(mid, root, cb, depth);
    } else {
      NewFileKeepsOrder(mid, root, cb, depth, dir, ps, Meta(ATTR_ARCHIVE, Head(ds), |bytes|));
    }
  }

  // ---- removals ----

  lemma FileRemovedSubs(d: Disk, e: Disk, depth: map<nat, nat>, at: Found, c: nat)
    requires KnownSlot(d, depth, at) && !IsDirectory(SlotAt(d, at)) && WellFormed(Dir(d, at.dir))
    requires Dir(e, c) == if c == at.dir then Cleared(Dir(d, at.dir), at.slot) else Dir(d, c)
    ensures SameSubs(Dir(d, c), Dir(e, c))
  {
    forall j: nat | j < |Dir(d, c)| && (Sub(Dir(d, c), j) || Sub(Dir(e, c), j))
      ensures Dir(e, c)[j] == Dir(d, c)[j]
    {
      if c == at.dir {
        ClearedSlots(Dir(d, at.dir), at.slot, j);
      }
    }
  }

  lemma FileRemovalKeepsOrder(d: Disk, root: u32, cb: nat, depth: map<nat, nat>, at: Found)
    requires Ordered(d, root, cb, depth) && Closed(d.fat) && IsFile(d, depth, at) && FileOk(d, depth, at)
    ensures FirstCluster(SlotAt(d, at)) < |d.fat| && Ordered(Removed(d, at), root, cb, depth)
  {
    RemoveKeepsTree(d, root, depth, cb, at);
    RemovedDirsAll(d, root, depth, cb, at);
    Ranked(d, root, depth, cb, at.dir);
    forall c | c in depth
      ensures SameSubs(Dir(d, c), Dir(Removed(d, at), c))
    {
      FileRemovedSubs(d, Removed(d, at), depth, at, c);
    }
    SubsKeepHierarchy(d, Removed(d, at), root, depth);
  }

  /** Of the entries for directories one is cleared. */
  predicate LessBranch(d: Disk, e: Disk, root: u32, at: Found, a: nat, j: nat) {
    && (Branch(e, root, a, j) <==> Branch(d, root, a, j) && Found(a, j) != at)
    && (Sub(Dir(d, a), j) && Found(a, j) != at ==> Sub(Dir(e, a), j) && Dir(e, a)[j] == Dir(d, a)[j])
  }

  lemma BranchCleared(d: Disk, e: Disk, root: u32, at: Found, a: nat, j: nat)
    requires at.slot < |Dir(d, at.dir)| && Short(Dir(d, at.dir)[at.slot]) && WellFormed(Dir(d, at.dir))
    requires Dir(e, a) == if a == at.dir then Cleared(Dir(d, at.dir), at.slot) else Dir(d, a)
    ensures LessBranch(d, e, root, at, a, j)
  {
    if a == at.dir && j < |Dir(d, a)| {
      ClearedSlots(Dir(d, at.dir), at.slot, j);
    }
  }

  lemma LeadsOn(e: Disk, root: u32, less: map<nat, nat>, cb: nat, a: nat, j: nat)
    requires TreeOk(e, root, less, cb) && a in less && Sub(Dir(e, a), j) && Target(e, a, j) != 0
    ensures Target(e, a, j) in less
  {
    assert DirOk(e, root, less, cb, a) && EntryOk(e, root, less, a, j);
  }

  lemma ParentLeft(d: Disk, e: Disk, root: u32, at: Found, c: nat, p: nat, j: nat)
    requires Branch(d, root, p, j) && Target(d, p, j) == c && c != Target(d, at.dir, at.slot) && LessBranch(d, e, root, at, p, j)
    ensures Branch(e, root, p, j) && Target(e, p, j) == c
  {
  }

  lemma DotsLeft(d: Disk, e: Disk, root: u32, depth: map<nat, nat>, at: Found, c: nat)
    requires c != root as nat && DotsOk(d, root, depth, c) && !DotPlace(root, at.dir, at.slot)
    requires LessBranch(d, e, root, at, c, 0) && LessBranch(d, e, root, at, c, 1)
    ensures HasDots(Dir(e, c)) && Target(e, c, 0) == c && Parent(e, c) == Parent(d, c)
  {
  }

  lemma DotsOkLeft(d: Disk, e: Disk, root: u32, depth: map<nat, nat>, less: map<nat, nat>, cb: nat, at: Found, c: nat)
    requires TreeOk(e, root, less, cb) && c in less && c in depth && c != root as nat && DotsOk(d, root, depth, c) && 0 !in depth
    requires forall a, j: nat :: a in depth ==> LessBranch(d, e, root, at, a, j)
    requires !DotPlace(root, at.dir, at.slot) && c != Target(d, at.dir, at.slot)
    ensures DotsOk(e, root, less, c)
  {
    assert LessBranch(d, e, root, at, c, 0) && LessBranch(d, e, root, at, c, 1);
    DotsLeft(d, e, root, depth, at, c);
    var j: nat :| Branch(d, root, Parent(d, c), j) && Target(d, Parent(d, c), j) == c;
    assert LessBranch(d, e, root, at, Parent(d, c), j);
    ParentLeft(d, e, root, at, c, Parent(d, c), j);
    LeadsOn(e, root, less, cb, c, 1);
  }

  lemma BranchLeft(d: Disk, e: Disk, root: u32, depth: map<nat, nat>, less: map<nat, nat>, cb: nat, at: Found, a: nat, j: nat)
    requires Hierarchy(d, root, depth) && TreeOk(e, root, less, cb) && a in less && a in depth
    requires forall c :: c in less ==> c in depth && less[c] == depth[c]
    requires LessBranch(d, e, root, at, a, j) && Branch(e, root, a, j)
    ensures BranchOk(e, root, less, a, j)
  {
    assert BranchOk(d, root, depth, a, j);
    LeadsOn(e, root, less, cb, a, j);
  }

  lemma LessKeepsHierarchy(d: Disk, e: Disk, root: u32, depth: map<nat, nat>, less: map<nat, nat>, cb: nat, at: Found)
    requires Hierarchy(d, root, depth) && TreeOk(e, root, less, cb) && 0 !in depth
    requires forall c :: c in less ==> c in depth && less[c] == depth[c]
    requires forall a, j: nat :: a in depth ==> LessBranch(d, e, root, at, a, j)
    requires !DotPlace(root, at.dir, at.slot) && Target(d, at.dir, at.slot) !in less
    ensures Hierarchy(e, root, less)
  {
    forall a, j: nat | a in less && Branch(e, root, a, j)
      ensures BranchOk(e, root, less, a, j)
    {
      BranchLeft(d, e, root, depth, less, cb, at, a, j);
    }
    forall a, j: nat, b, k: nat | a in less && b in less && Twins(e, root, a, j, b, k)
      ensures a == b && j == k
    {
      assert LessBranch(d, e, root, at, a, j) && LessBranch(d, e, root, at, b, k);
      assert Twins(d, root, a, j, b, k);
    }
    forall c | c in less && c != root as nat
      ensures DotsOk(e, root, less, c)
    {
      assert DotsOk(d, root, depth, c);
      DotsOkLeft(d, e, root, depth, less, cb, at, c);
    }
  }

  /** The entry of a directory below the current one goes, and with it what only it led to. */
  lemma BranchRemovalKeepsOrder(d: Disk, e: Disk, root: u32, cb: nat, depth: map<nat, nat>, at: Found)
    requires Ordered(d, root, cb, depth) && Freed(d, e, depth, cb, at, Target(d, at.dir, at.slot)) && Branch(d, root, at.dir, at.slot)
    ensures var less := StillUsed(e, root, at.dir, depth); Ordered(e, root, cb, less) && at.dir in less
  {
    var x := Target(d, at.dir, at.slot);
    BranchIsSevered(d, root, depth, cb, at);
    InUseAfter(d, e, root, depth, cb, at, at.dir, x);
    RestTreeOk(d, e, root, depth, cb, at.dir, at, x);
    BranchesCleared(d, e, root, cb, depth, at);
    LessKeepsHierarchy(d, e, root, depth, StillUsed(e, root, at.dir, depth), cb, at);
  }

  lemma BranchesCleared(d: Disk, e: Disk, root: u32, cb: nat, depth: map<nat, nat>, at: Found)
    requires TreeOk(d, root, depth, cb) && KnownSlot(d, depth, at) && OneCleared(d, e, depth, at)
    ensures 0 !in depth && forall a, j: nat :: a in depth ==> LessBranch(d, e, root, at, a, j)
  {
    forall c | c in depth
      ensures c >= 2 && WellFormed(Dir(d, c))
    {
      Ranked(d, root, depth, cb, c);
    }
    forall a, j: nat | a in depth
      ensures LessBranch(d, e, root, at, a, j)
    {
      BranchCleared(d, e, root, at, a, j);
    }
  }

  /** A file's entry is one of the hierarchy's files too. */
  lemma FileOfOrder(d: Disk, root: u32, cb: nat, depth: map<nat, nat>, rank: map<nat, nat>, at: Found)
    requires Ordered(d, root, cb, depth) && TreeOk(d, root, rank, cb) && AllFilesOk(d, rank) && IsFile(d, depth, at)
    ensures FileOk(d, depth, at)
  {
    forall c | c in depth
      ensures c in rank
    {
      DepthIsKnown(d, root, depth, rank, cb, c);
    }
    assert IsFile(d, rank, at) && FileOk(d, rank, at);
  }

  /** A removal of no directory in use keeps the hierarchy. */
  lemma RemovalKeepsOrder(d: Disk, root: u32, cb: nat, depth: map<nat, nat>, rank: map<nat, nat>, cwd: u32, name: seq<byte>)
    requires Ordered(d, root, cb, depth) && cwd as nat in depth && FsOk(d, root, rank, cb, [])
    requires cwd == root || DotFree(name)
    ensures Orderly(State(RemovedByName(d, cwd, name), cwd), root, cb)
  {
    var r := Lookup(Dir(d, cwd), name);
    DepthIsKnown(d, root, depth, rank, cb, cwd);
    if r == None {
      assert Ordered(d, root, cb, depth);
    } else {
      RemoveReady(d, root, rank, cb, cwd, name, r.value);
      FoundRemovalKeepsOrder(d, root, cb, depth, rank, cwd, name, r.value);
    }
  }

  lemma FoundRemovalKeepsOrder(d: Disk, root: u32, cb: nat, depth: map<nat, nat>, rank: map<nat, nat>, cwd: u32, name: seq<byte>, j: nat)
    requires Ordered(d, root, cb, depth) && cwd as nat in depth && FsOk(d, root, rank, cb, [])
    requires Lookup(Dir(d, cwd), name) == Some(j) && (cwd == root || DotFree(name)) && FirstCluster(Dir(d, cwd)[j]) < |d.fat|
    ensures Orderly(State(Removed(d, Found(cwd, j)), cwd), root, cb)
  {
    var at := Found(cwd, j);
    StartKnown(d, depth, cwd, name);
    if IsDirectory(Dir(d, cwd)[j]) {
      NoDotFound(d, root, cb, depth, cwd, name, j);
      RemovedIsFreed(d, root, depth, cb, at);
      BranchRemovalKeepsOrder(d, Removed(d, at), root, cb, depth, at);
    } else {
      FileOfOrder(d, root, cb, depth, rank, at);
      FileRemovalKeepsOrder(d, root, cb, depth, at);
    }
  }

  lemma NoDotFound(d: Disk, root: u32, cb: nat, depth: map<nat, nat>, cwd: u32, name: seq<byte>, j: nat)
    requires Ordered(d, root, cb, depth) && cwd as nat in depth && (cwd == root || DotFree(name))
    requires Lookup(Dir(d, cwd), name) == Some(j)
    ensures !DotPlace(root, cwd, j)
  {
    Ranked(d, root, depth, cb, cwd);
    if cwd != root {
      DotsAre(d, root, depth, cwd);
      DotNames(Dir(d, cwd), name);
    }
  }

  // ---- steps and runs ----

  /** The name a call gives to rm is no dot entry's in a directory that has them. */
  predicate Careful(s: State, root: u32, op: FileOp) {
    match op
    case Remove(name) => s.cwd == root || DotFree(name)
    case Move(src, _) => s.cwd == root || DotFree(src)
    case Install(name, _) => Find(s.disk, root, StartDir(root, s.cwd, name), Split(name)).Some? ==> s.cwd == root || DotFree(name)
    case _ => true
  }

  lemma CopyStateOrderly(s: State, root: u32, cb: nat, src: seq<byte>, dest: seq<byte>)
    requires Orderly(s, root, cb) && Mounted(s.disk, cb) && PathName(dest)
    ensures Orderly(State(CopyCall(s, root, cb, src, dest), s.cwd), root, cb)
  {
    var depth: map<nat, nat> :| Ordered(s.disk, root, cb, depth) && s.cwd as nat in depth;
    StartKnownDir(s.disk, root, depth, cb, s.cwd, dest);
    SplitIsParts(dest);
    CopyKeepsOrder(s.disk, root, cb, depth, StartDir(root, s.cwd, src), Split(src), StartDir(root, s.cwd, dest), Split(dest));
  }

  /** rm of what is found in an orderly state: harmless exactly when careful. */
  lemma OrderlySevered(s: State, root: u32, cb: nat, name: seq<byte>)
    requires Orderly(s, root, cb)
    ensures Severed(s.disk, root, s.cwd, name) <==> s.cwd == root || DotFree(name)
  {
    var depth: map<nat, nat> :| Ordered(s.disk, root, cb, depth) && s.cwd as nat in depth;
    SeveredIff(s.disk, root, depth, cb, s.cwd, name);
  }

  /** In an orderly state a call removes no directory in use exactly when it is careful: what that
      takes is the current directory and the name. */
  lemma CarefulIsHarmless(s: State, t: State, root: u32, cb: nat, op: FileOp)
    requires Orderly(s, root, cb) && Call(s, t, root, cb, op)
    ensures Harmless(s, root, cb, op) <==> Careful(s, root, op)
  {
    match op
    case Remove(name) => OrderlySevered(s, root, cb, name);
    case Install(name, _) => OrderlySevered(s, root, cb, name);
    case Move(src, dest) =>
      CopyStateOrderly(s, root, cb, src, dest);
      OrderlySevered(State(CopyCall(s, root, cb, src, dest), s.cwd), root, cb, src);
    case _ =>
  }

  lemma OrderedIsOrderly(e: Disk, root: u32, cb: nat, depth: map<nat, nat>, cwd: u32)
    requires StaysOrdered(e, root, cb, depth) && cwd as nat in depth
    ensures Orderly(State(e, cwd), root, cb)
  {
    var more: map<nat, nat> :| (forall c :: c in depth ==> c in more) && Ordered(e, root, cb, more);
  }

  lemma TouchIsOrderly(s: State, root: u32, cb: nat, name: seq<byte>)
    requires Orderly(s, root, cb) && Mounted(s.disk, cb) && PathName(name)
    ensures Orderly(State(Touched(s.disk, root, StartDir(root, s.cwd, name), Split(name), cb / SLOT), s.cwd), root, cb)
  {
    var depth: map<nat, nat> :| Ordered(s.disk, root, cb, depth) && s.cwd as nat in depth;
    StartKnownDir(s.disk, root, depth, cb, s.cwd, name);
    SplitIsParts(name);
    TouchKeepsOrder(s.disk, root, cb, depth, StartDir(root, s.cwd, name), Split(name));
    OrderedIsOrderly(Touched(s.disk, root, StartDir(root, s.cwd, name), Split(name), cb / SLOT), root, cb, depth, s.cwd);
  }

  lemma RemoveIsOrderly(d: Disk, cwd: u32, root: u32, cb: nat, name: seq<byte>)
    requires Orderly(State(d, cwd), root, cb) && Sound(State(d, cwd), root, cb, false) && (cwd == root || DotFree(name))
    ensures Closed(d.fat) && Orderly(State(RemovedByName(d, cwd, name), cwd), root, cb)
  {
    var depth: map<nat, nat> :| Ordered(d, root, cb, depth) && cwd as nat in depth;
    var rank :| SoundBy(d, root, cb, cwd, rank, false);
    RemovalKeepsOrder(d, root, cb, depth, rank, cwd, name);
  }

  lemma InstallIsOrderly(d: Disk, e: Disk, cwd: u32, root: u32, cb: nat, name: seq<byte>, bytes: seq<byte>)
    requires Orderly(State(d, cwd), root, cb) && PathName(name)
    requires Installs(d, e, root, cb, StartDir(root, cwd, name), Split(name), bytes)
    ensures Orderly(State(e, cwd), root, cb)
  {
    var depth: map<nat, nat> :| Ordered(d, root, cb, depth) && cwd as nat in depth;
    var mid :| InstallsBy(d, e, root, cb, StartDir(root, cwd, name), Split(name), bytes, mid);
    StartKnownDir(d, root, depth, cb, cwd, name);
    SplitIsParts(name);
    InstallKeepsOrder(d, e, root, cb, depth, StartDir(root, cwd, name), Split(name), bytes, mid);
    OrderedIsOrderly(e, root, cb, depth, cwd);
  }

  lemma InstallStepIsOrderly(s: State, t: State, root: u32, cb: nat, name: seq<byte>, bytes: seq<byte>)
    requires Orderly(s, root, cb) && Sound(s, root, cb, false)
    requires Call(s, t, root, cb, Install(name, bytes)) && Careful(s, root, Install(name, bytes))
    ensures Orderly(t, root, cb)
  {
    assert s == State(s.disk, s.cwd) && t == State(t.disk, s.cwd);
    if Find(s.disk, root, StartDir(root, s.cwd, name), Split(name)).Some? {
      RemoveIsOrderly(s.disk, s.cwd, root, cb, name);
    }
    InstallIsOrderly(Cleaned(s.disk, root, s.cwd, name), t.disk, s.cwd, root, cb, name, bytes);
  }

  lemma MoveStepIsOrderly(s: State, t: State, root: u32, cb: nat, src: seq<byte>, dest: seq<byte>)
    requires Orderly(s, root, cb) && Sound(s, root, cb, false)
    requires Call(s, t, root, cb, Move(src, dest)) && Careful(s, root, Move(src, dest))
    ensures Orderly(t, root, cb)
  {
    var rank :| SoundBy(s.disk, root, cb, s.cwd, rank, false);
    CopyCallIsSound(s, root, rank, cb, src, dest, Move(src, dest), false);
    CopyStateOrderly(s, root, cb, src, dest);
    RemoveIsOrderly(CopyCall(s, root, cb, src, dest), s.cwd, root, cb, src);
    assert t == State(t.disk, s.cwd);
  }

  lemma ChangeIsOrderly(s: State, root: u32, cb: nat, name: seq<byte>)
    requires Orderly(s, root, cb)
    ensures Orderly(State(s.disk, Changed(s.disk, root, s.cwd, name)), root, cb)
  {
    var depth: map<nat, nat> :| Ordered(s.disk, root, cb, depth) && s.cwd as nat in depth;
    ChangedIsKnown(s.disk, root, depth, cb, s.cwd, name);
  }

  /** Every careful call keeps the hierarchy. */
  lemma CallKeepsOrder(s: State, t: State, root: u32, cb: nat, op: FileOp)
    requires Orderly(s, root, cb) && Sound(s, root, cb, false) && Call(s, t, root, cb, op) && Careful(s, root, op)
    ensures Orderly(t, root, cb)
  {
    match op
    case Touch(name) =>
      TouchIsOrderly(s, root, cb, name);
      assert t == State(t.disk, s.cwd);
    case Copy(src, dest) =>
      CopyStateOrderly(s, root, cb, src, dest);
      assert t == State(t.disk, s.cwd);
    case Install(name, bytes) => InstallStepIsOrderly(s, t, root, cb, name, bytes);
    case Remove(name) =>
      assert s == State(s.disk, s.cwd) && t == State(t.disk, s.cwd);
      RemoveIsOrderly(s.disk, s.cwd, root, cb, name);
    case Move(src, dest) => MoveStepIsOrderly(s, t, root, cb, src, dest);
    case ChangeDir(name) =>
      ChangeIsOrderly(s, root, cb, name);
      assert t == State(s.disk, t.cwd);
  }

  ghost predicate CarefulStep(s: State, t: State, root: u32, cb: nat, op: FileOp) {
    Call(s, t, root, cb, op) && Careful(s, root, op)
  }

  ghost predicate CarefulAt(states: seq<State>, root: u32, cb: nat, ops: seq<FileOp>, i: nat)
    requires i < |ops| && |states| == |ops| + 1
  {
    CarefulStep(states[i], states[i + 1], root, cb, ops[i])
  }

  /** A run of calls, each careful by the names it is given. */
  ghost predicate CarefulRun(states: seq<State>, root: u32, cb: nat, ops: seq<FileOp>) {
    |states| == |ops| + 1 && forall i :: 0 <= i < |ops| ==> CarefulAt(states, root, cb, ops, i)
  }

  ghost predicate Kept(s: State, root: u32, cb: nat, whole: bool) {
    Orderly(s, root, cb) && Sound(s, root, cb, whole)
  }

  lemma CarefulStepKeeps(s: State, t: State, root: u32, cb: nat, op: FileOp, whole: bool)
    requires Kept(s, root, cb, whole) && CarefulStep(s, t, root, cb, op) && (whole ==> !CutShort(s, root, cb, op))
    ensures Kept(t, root, cb, whole) && Step(s, t, root, cb, op)
  {
    CarefulIsHarmless(s, t, root, cb, op);
    StepIsSound(s, t, root, cb, op, whole);
    SoundAnyway(s, root, cb, whole);
    CallKeepsOrder(s, t, root, cb, op);
  }

  lemma SoundAnyway(s: State, root: u32, cb: nat, whole: bool)
    requires Sound(s, root, cb, whole)
    ensures Sound(s, root, cb, false)
  {
    var rank :| SoundBy(s.disk, root, cb, s.cwd, rank, whole);
    assert SoundBy(s.disk, root, cb, s.cwd, rank, false);
  }

  /** Consistency and the hierarchy hold all along every careful run. */
  lemma CarefulRunsKeep(states: seq<State>, root: u32, cb: nat, ops: seq<FileOp>, i: nat, whole: bool)
    requires CarefulRun(states, root, cb, ops) && cb > 0 && KeptAt(states, root, cb, 0, whole) && i < |states|
    requires whole ==> NoneCutShort(states, root, cb, ops)
    ensures KeptAt(states, root, cb, i, whole)
  {
    var ok := seq(|states|, k requires 0 <= k < |states| => KeptAt(states, root, cb, k, whole));
    CarefulSteps(states, root, cb, ops, whole, ok);
    Along(ok, i);
  }

  lemma CarefulSteps(states: seq<State>, root: u32, cb: nat, ops: seq<FileOp>, whole: bool, ok: seq<bool>)
    requires CarefulRun(states, root, cb, ops) && cb > 0 && (whole ==> NoneCutShort(states, root, cb, ops))
    requires |ok| == |states| && forall k :: 0 <= k < |ok| ==> ok[k] == KeptAt(states, root, cb, k, whole)
    ensures forall k :: 0 < k < |ok| && ok[k - 1] ==> ok[k]
  {
    forall k | 0 < k < |ok| && ok[k - 1]
      ensures ok[k]
    {
      CarefulNext(states, root, cb, ops, k, whole);
    }
  }

  ghost predicate KeptAt(states: seq<State>, root: u32, cb: nat, k: nat, whole: bool) {
    k < |states| && Kept(states[k], root, cb, whole)
  }

  lemma CarefulNext(states: seq<State>, root: u32, cb: nat, ops: seq<FileOp>, i: nat, whole: bool)
    requires CarefulRun(states, root, cb, ops) && cb > 0 && 0 < i < |states| && (whole ==> NoneCutShort(states, root, cb, ops))
    ensures KeptAt(states, root, cb, i - 1, whole) ==> KeptAt(states, root, cb, i, whole)
  {
    assert CarefulAt(states, root, cb, ops, i - 1);
    assert whole ==> UncutAt(states, root, cb, ops, i - 1);
    if KeptAt(states, root, cb, i - 1, whole) {
      CarefulStepKeeps(states[i - 1], states[i], root, cb, ops[i - 1], whole);
    }
  }

  /** And the condition is exact: a removal by a dot entry's name below the root breaks the volume. */
  lemma CarelessBreaks(s: State, root: u32, cb: nat, name: seq<byte>)
    requires Kept(s, root, cb, false)
    ensures Closed(s.disk.fat)
    ensures Sound(State(RemovedByName(s.disk, s.cwd, name), s.cwd), root, cb, false) <==> s.cwd == root || DotFree(name)
  {
    var rank :| SoundBy(s.disk, root, cb, s.cwd, rank, false);
    OrderlySevered(s, root, cb, name);
    RemoveIsSound(s.disk, root, rank, cb, s.cwd, name);
  }
}
