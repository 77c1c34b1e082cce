/** Directories on the disk and the paths through them: `_fat32_find_entry` and
    `_fat32_create_entry`. Every directory is one cluster. */
module Tree {
  import opened Words
  import opened Names
  import opened Slots
  import opened Directory
  import opened DirectoryEdit
  import opened DirectoryLaws
  import opened Volume

  const SLOT := 32

  // ---- clusters as directories ----

  function SlotsOf(b: seq<byte>): (D: seq<Slot>)
    ensures |D| == |b| / SLOT
  {
    seq(|b| / SLOT, i requires 0 <= i < |b| / SLOT => b[SLOT * i..SLOT * i + SLOT])
  }

  function BytesOf(D: seq<Slot>): (b: seq<byte>)
    ensures |b| == SLOT * |D|
  {
    if D == [] then [] else BytesOf(D[..|D| - 1]) + D[|D| - 1]
  }

  /** A buffer read as slots and written back as bytes is the same directory. */
  lemma {:induction false} SlotsOfBytes(D: seq<Slot>)
    ensures SlotsOf(BytesOf(D)) == D
  {
    if D != [] {
      var n := |D| - 1;
      SlotsOfBytes(D[..n]);
      var b, c := BytesOf(D), BytesOf(D[..n]);
      forall i | 0 <= i < n
        ensures SlotsOf(b)[i] == D[i]
      {
        assert b[SLOT * i..SLOT * i + SLOT] == c[SLOT * i..SLOT * i + SLOT];
        assert SlotsOf(c)[i] == D[..n][i];
      }
      assert SlotsOf(b)[n] == D[n];
    }
  }

  /** The slots of directory cluster c. */
  function Dir(d: Disk, c: nat): seq<Slot> {
    if c < |d.data| then SlotsOf(d.data[c]) else []
  }

  /** Where entering a directory entry leads; cluster 0 stands for the root. */
  function Enter(root: u32, e: Slot): u32 {
    if FirstCluster(e) == 0 then root else FirstCluster(e)
  }

  // ---- finding ----

  datatype Found = Found(dir: nat, slot: nat)

  /** Length of the component at the front of a path. */
  function ComponentLen(path: seq<byte>): (n: nat)
    ensures n <= |path|
    ensures n < |path| ==> path[n] == SLASH
    ensures SLASH !in path[..n]
  {
    if path == [] || path[0] == SLASH then 0
    else
      assert path[1..][..ComponentLen(path[1..])] == path[1..1 + ComponentLen(path[1..])];
      1 + ComponentLen(path[1..])
  }

  /** The components of a path in order, empty ones skipped; a path that does not end
      in a component ends in an empty one. */
  function Split(path: seq<byte>): (ps: seq<seq<byte>>)
    ensures ps != []
    decreases |path|
  {
    if path == [] then [[]] else
    var m := ComponentLen(path);
    if m == 0 then Split(path[1..])
    else if m == |path| then [path]
    else [path[..m]] + Split(path[m + 1..])
  }

  lemma SplitStep(path: seq<byte>)
    requires path != []
    ensures var m := ComponentLen(path);
      if m == 0 then Split(path) == Split(path[1..])
      else
        && Split(path)[0] == path[..m] != []
        && (m == |path| ==> |Split(path)| == 1)
        && (m < |path| ==> |Split(path)| > 1 && Split(path)[1..] == Split(path[m + 1..]))
  {
    assert path[..|path|] == path;
  }

  /** The entries a path passes through, one for each component; None when it does not
      resolve. A path that ends in a slash never resolves. */
  function Trace(d: Disk, root: u32, dir: u32, ps: seq<seq<byte>>): (t: Option<seq<Found>>)
    ensures t.Some? ==> |t.value| == |ps| > 0
    decreases |ps|
  {
    if ps == [] || ps[0] == [] then None else
    match Lookup(Dir(d, dir), ps[0])
    case None => None
    case Some(j) =>
      if |ps| == 1 then Some([Found(dir, j)])
      else if !IsDirectory(Dir(d, dir)[j]) then None
      else
        match Trace(d, root, Enter(root, Dir(d, dir)[j]), ps[1..])
        case None => None
        case Some(t) => Some([Found(dir, j)] + t)
  }

  /** The entry a path resolves to. */
  function Find(d: Disk, root: u32, dir: u32, ps: seq<seq<byte>>): Option<Slot>
    decreases |ps|
  {
    if ps == [] || ps[0] == [] then None else
    match Lookup(Dir(d, dir), ps[0])
    case None => None
    case Some(j) =>
      var e := Dir(d, dir)[j];
      if |ps| == 1 then Some(e)
      else if !IsDirectory(e) then None
      else Find(d, root, Enter(root, e), ps[1..])
  }

  /** Finding a path, one component at a time. */
  lemma FindPath(d: Disk, root: u32, dir: u32, path: seq<byte>)
    requires path != []
    ensures var m := ComponentLen(path);
      Find(d, root, dir, Split(path)) ==
        if m == 0 then Find(d, root, dir, Split(path[1..]))
        else
          match Lookup(Dir(d, dir), path[..m])
          case None => None
          case Some(j) =>
            var e := Dir(d, dir)[j];
            if m == |path| then Some(e) else if !IsDirectory(e) then None
            else Find(d, root, Enter(root, e), Split(path[m + 1..]))
  {
    SplitStep(path);
  }

  predicate EndsAt(d: Disk, t: seq<Found>, e: Slot) {
    t != [] &&
    var f := t[|t| - 1];
    f.slot < |Dir(d, f.dir)| && Dir(d, f.dir)[f.slot] == e
  }

  lemma EndsAtTail(d: Disk, f: Found, t: seq<Found>, e: Slot)
    requires EndsAt(d, t, e)
    ensures EndsAt(d, [f] + t, e)
  {
  }

  /** The two agree: a path resolves to the slot its trace ends at. */
  lemma {:induction false} FindIsLastOfTrace(d: Disk, root: u32, dir: u32, ps: seq<seq<byte>>)
    ensures Find(d, root, dir, ps).Some? <==> Trace(d, root, dir, ps).Some?
    ensures Find(d, root, dir, ps).Some? ==>
      EndsAt(d, Trace(d, root, dir, ps).value, Find(d, root, dir, ps).value)
    decreases |ps|
  {
    if |ps| > 1 && ps[0] != [] {
      var r := Lookup(Dir(d, dir), ps[0]);
      if r.Some? {
        var next := Enter(root, Dir(d, dir)[r.value]);
        FindIsLastOfTrace(d, root, next, ps[1..]);
        if Find(d, root, dir, ps).Some? {
          EndsAtTail(d, Found(dir, r.value), Trace(d, root, next, ps[1..]).value, Find(d, root, next, ps[1..]).value);
        }
      }
    }
  }

  // ---- creating ----

  /** What an entry is given besides its name. */
  datatype Meta = Meta(attr: byte, cluster: u32, size: u32)

  /** `dir_add_entry` on a directory cluster; nothing when it has no room. */
  function AddTo(d: Disk, dir: nat, component: seq<byte>, meta: Meta): (e: Disk)
    ensures e.fat == d.fat && |e.data| == |d.data|
  {
    var D := Dir(d, dir);
    var i := Place(D, component);
    if dir < |d.data| && i.Some? && LongSlots(component) <= 31 then
      d.(data := d.data[dir := BytesOf(Written(D, i.value, component, meta.attr, meta.cluster, meta.size))])
    else d
  }

  /** A directory entry's attribute, cluster and (zero) size. */
  function DirMeta(cluster: u32): Meta {
    Meta(ATTR_DIRECTORY, cluster, 0)
  }

  const DOT_NAME: seq<byte> := [DOT]
  const DOTDOT_NAME: seq<byte> := [DOT, DOT]

  function DotSlot(self: u32, parent: u32, i: nat): Slot {
    var zero: Slot := seq(SLOT, _ => 0);
    if i == 0 then ShortSlot(zero, Short83(DOT_NAME), ATTR_DIRECTORY, self, 0)
    else if i == 1 then ShortSlot(zero, Short83(DOTDOT_NAME), ATTR_DIRECTORY, parent, 0)
    else zero
  }

  /** A new directory: the entries . and .. and free slots behind them. */
  function DotSlots(self: u32, parent: u32, n: nat): (D: seq<Slot>)
    ensures |D| == n
  {
    seq(n, i requires 0 <= i < n => DotSlot(self, parent, i))
  }

  /** A missing intermediate directory, made in `dir`: a free cluster is marked, the entry
      added, the cluster filled. */
  function MakeDir(d: Disk, dir: u32, component: seq<byte>, n: nat): (e: Disk)
    requires |d.fat| == |d.data| && |d.fat| < END_MARK
    ensures |e.fat| == |d.fat| && |e.data| == |d.data|
  {
    var spare := LeastFree(d.fat, 2);
    if spare == 0 then d else
    var marked := Disk(d.fat[spare := END], d.data);
    var linked := AddTo(marked, dir, component, DirMeta(spare));
    Disk(linked.fat, linked.data[spare := BytesOf(DotSlots(spare, dir, n))])
  }

  /** `_fat32_create_entry` from directory `dir` on; n is the number of slots of a cluster. */
  function Create(d: Disk, root: u32, dir: u32, ps: seq<seq<byte>>, meta: Meta, n: nat): (e: Disk)
    requires |d.fat| == |d.data| && |d.fat| < END_MARK
    ensures |e.fat| == |d.fat| && |e.data| == |d.data|
    decreases |ps|
  {
    if ps == [] || ps[0] == [] then d
    else if |ps| == 1 then AddTo(d, dir, ps[0], meta)
    else
      match LookupFrom(Dir(d, dir), ps[0], true, 0)
      case Some(j) => Create(d, root, Enter(root, Dir(d, dir)[j]), ps[1..], meta, n)
      case None =>
        var spare := LeastFree(d.fat, 2);
        if spare == 0 then d else Create(MakeDir(d, dir, ps[0], n), root, spare, ps[1..], meta, n)
  }

  // ---- well-formed trees ----

  /** What is asked of one directory cluster. */
  ghost predicate DirOk(d: Disk, root: u32, rank: map<nat, nat>, cb: nat, c: nat) {
    && 2 <= c < |d.data| && c < |d.fat| && |d.data[c]| == cb && d.fat[c] >= END_MARK
    && WellFormed(Dir(d, c)) && SlashFree(Dir(d, c))
    && forall j: nat :: j < |Dir(d, c)| && Short(Dir(d, c)[j]) ==> EntryOk(d, root, rank, c, j)
  }

  /** No name in the directory holds a slash. */
  predicate SlashFree(D: seq<Slot>) {
    forall j :: 0 <= j < |D| && Short(D[j]) ==> SLASH !in FullName(D, j) && SLASH !in Alias(D[j])
  }

  lemma AliasSlashFree(name: seq<byte>)
    requires SLASH !in name
    ensures SLASH !in Short83(name)
  {
    var b := BaseLen(name, 0);
    assert forall i :: 0 <= i < |name| ==> name[i] in name;
    assert SLASH !in UpperAll(name[..b]) && SLASH !in UpperAll(Extension(name));
  }

  lemma AddedSlashFree(d: Disk, dir: nat, component: seq<byte>, meta: Meta)
    requires WellFormed(Dir(d, dir)) && SlashFree(Dir(d, dir)) && IsComponent(component) && meta.attr != ATTR_LFN
    requires Place(Dir(d, dir), component).Some? && LongSlots(component) <= 31
    ensures SlashFree(Added(d, dir, component, meta))
  {
    var D, E, i := Dir(d, dir), Added(d, dir, component, meta), Place(Dir(d, dir), component).value;
    AliasSlashFree(component);
    forall j | 0 <= j < |E| && Short(E[j])
      ensures SLASH !in FullName(E, j) && SLASH !in Alias(E[j])
    {
      if j == i + LongSlots(component) {
        NewEntryReadsBack(D, i, component, meta.attr, meta.cluster, meta.size);
      } else {
        AddTopped(D, i, component, meta.attr, meta.cluster, meta.size, j);
        AddFrame(D, i, component, meta.attr, meta.cluster, meta.size, j);
      }
    }
  }

  lemma ClearedSlashFree(D: seq<Slot>, i: nat)
    requires WellFormed(D) && SlashFree(D) && i < |D| && Short(D[i])
    ensures SlashFree(Cleared(D, i))
  {
    var E := Cleared(D, i);
    forall j | 0 <= j < |E| && Short(E[j])
      ensures SLASH !in FullName(E, j) && SLASH !in Alias(E[j])
    {
      RemoveFrame(D, i, j);
    }
  }

  lemma DotsSlashFree(self: u32, parent: u32, n: nat)
    requires n >= 2
    ensures SlashFree(DotSlots(self, parent, n))
  {
    DotSlotsOk(self, parent, n);
    AliasSlashFree(DOT_NAME);
    AliasSlashFree(DOTDOT_NAME);
    ReadableSlashFree(Short83(DOT_NAME));
    ReadableSlashFree(Short83(DOTDOT_NAME));
  }

  lemma ReadableSlashFree(alias: seq<byte>)
    requires |alias| == 11 && SLASH !in alias
    ensures SLASH !in Readable(alias)
  {
    UntilSpaceSlashFree(alias, 0, 8);
    UntilSpaceSlashFree(alias, 8, 11);
  }

  lemma {:induction false} UntilSpaceSlashFree(s: seq<byte>, j: nat, hi: nat)
    requires j <= hi <= |s| && SLASH !in s
    ensures SLASH !in UntilSpace(s, j, hi)
    decreases hi - j
  {
    if j < hi {
      assert s[j] in s;
      UntilSpaceSlashFree(s, j + 1, hi);
    }
  }

  /** A directory entry leads to a directory, and down one level unless only the dot names match it. */
  ghost predicate EntryOk(d: Disk, root: u32, rank: map<nat, nat>, c: nat, j: nat)
    requires j < |Dir(d, c)|
  {
    var e := Dir(d, c)[j];
    IsDirectory(e) ==>
      && Enter(root, e) as nat in rank
      && (c in rank ==> forall name :: DotFree(name) && Matches(Dir(d, c), j, name) ==> rank[Enter(root, e)] == rank[c] + 1)
  }

  /** A name that does not share its alias with . or .. . */
  predicate DotFree(name: seq<byte>) {
    Short83(name) != Short83(DOT_NAME) && Short83(name) != Short83(DOTDOT_NAME)
  }

  /** Directories are single well-formed clusters, and form a tree but for their dot entries:
      rank gives each one's depth. */
  ghost predicate TreeOk(d: Disk, root: u32, rank: map<nat, nat>, cb: nat) {
    && |d.fat| == |d.data| && |d.fat| < END_MARK && cb % SLOT == 0
    && root as nat in rank
    && forall c :: c in rank ==> DirOk(d, root, rank, cb, c)
  }

  /** Every directory entry met from these directories leads to one of them. */
  ghost predicate Navigable(d: Disk, root: u32, dirs: set<nat>) {
    root as nat in dirs && forall c :: c in dirs ==> Leads(d, root, dirs, c)
  }

  ghost predicate Leads(d: Disk, root: u32, dirs: set<nat>, c: nat) {
    2 <= c < |d.data| &&
    forall j: nat :: j < |Dir(d, c)| && Short(Dir(d, c)[j]) && IsDirectory(Dir(d, c)[j]) ==> Enter(root, Dir(d, c)[j]) as nat in dirs
  }

  lemma TreeIsNavigable(d: Disk, root: u32, rank: map<nat, nat>, cb: nat)
    requires TreeOk(d, root, rank, cb)
    ensures Navigable(d, root, rank.Keys)
  {
    forall c | c in rank.Keys
      ensures Leads(d, root, rank.Keys, c)
    {
      assert DirOk(d, root, rank, cb, c);
      forall j: nat | j < |Dir(d, c)| && Short(Dir(d, c)[j]) && IsDirectory(Dir(d, c)[j])
        ensures Enter(root, Dir(d, c)[j]) as nat in rank.Keys
      {
        assert EntryOk(d, root, rank, c, j);
      }
    }
  }

  // ---- what creation does to the directories ----

  lemma DirAfter(d: Disk, fat: seq<nat>, c: nat, D: seq<Slot>, x: nat)
    requires c < |d.data|
    ensures Dir(Disk(fat, d.data[c := BytesOf(D)]), x) == if x == c then D else Dir(d, x)
  {
    SlotsOfBytes(D);
  }

  /** Where an addition to a directory puts the new short entry. */
  function NewSlot(d: Disk, dir: nat, component: seq<byte>): nat
    requires Place(Dir(d, dir), component).Some?
  {
    Place(Dir(d, dir), component).value + LongSlots(component)
  }

  /** The slots of `dir` after an addition there. */
  function Added(d: Disk, dir: nat, component: seq<byte>, meta: Meta): seq<Slot>
    requires Place(Dir(d, dir), component).Some? && LongSlots(component) <= 31
  {
    Written(Dir(d, dir), Place(Dir(d, dir), component).value, component, meta.attr, meta.cluster, meta.size)
  }

  lemma AddToDir(d: Disk, dir: nat, component: seq<byte>, meta: Meta, x: nat)
    requires dir < |d.data| && LongSlots(component) <= 31
    ensures Dir(AddTo(d, dir, component, meta), x) ==
      if x == dir && Place(Dir(d, dir), component).Some? then Added(d, dir, component, meta) else Dir(d, x)
  {
    if Place(Dir(d, dir), component).Some? {
      DirAfter(d, d.fat, dir, Added(d, dir, component, meta), x);
    }
  }

  /** The directories after a missing one was made: the new one, its parent, and all others. */
  lemma MakeDirDirs(d: Disk, dir: u32, component: seq<byte>, n: nat, x: nat)
    requires |d.fat| == |d.data| && |d.fat| < END_MARK && LeastFree(d.fat, 2) != 0
    requires dir < |d.data| && dir != LeastFree(d.fat, 2) && LongSlots(component) <= 31
    ensures var spare := LeastFree(d.fat, 2);
      Dir(MakeDir(d, dir, component, n), x) ==
        if x == spare then DotSlots(spare, dir, n)
        else if x == dir && Place(Dir(d, dir), component).Some? then Added(d, dir, component, DirMeta(spare))
        else Dir(d, x)
  {
    var spare := LeastFree(d.fat, 2);
    var marked := Disk(d.fat[spare := END], d.data);
    var linked := AddTo(marked, dir, component, DirMeta(spare));
    AddToDir(marked, dir, component, DirMeta(spare), x);
    DirAfter(linked, linked.fat, spare, DotSlots(spare, dir, n), x);
  }

  /** A new directory is well-formed, and only the dot names match its two entries. */
  lemma DotSlotsOk(self: u32, parent: u32, n: nat)
    requires n >= 2
    ensures var D := DotSlots(self, parent, n);
      && WellFormed(D)
      && (forall j: nat :: j < n && Short(D[j]) ==> j < 2)
      && Short(D[0]) && Short(D[1]) && RunLen(D, 0) == 0 && RunLen(D, 1) == 0
      && Alias(D[0]) == Short83(DOT_NAME) && Alias(D[1]) == Short83(DOTDOT_NAME)
      && FirstCluster(D[0]) == self && FirstCluster(D[1]) == parent
  {
    var zero: Slot := seq(SLOT, _ => 0);
    ShortSlotFacts(zero, DOT_NAME, ATTR_DIRECTORY, self, 0);
    ShortSlotFacts(zero, DOTDOT_NAME, ATTR_DIRECTORY, parent, 0);
    var D := DotSlots(self, parent, n);
    assert D[0] == DotSlot(self, parent, 0) && D[1] == DotSlot(self, parent, 1);
    forall j | 2 <= j < n
      ensures D[j][0] == FREE
    {
      assert D[j] == DotSlot(self, parent, j);
    }
    assert !Link(D, 1, 1);
  }

  lemma DotSlotsDirectories(self: u32, parent: u32, n: nat)
    requires n >= 2
    ensures forall j: nat :: j < n && Short(DotSlots(self, parent, n)[j]) ==> IsDirectory(DotSlots(self, parent, n)[j])
  {
    DotSlotsOk(self, parent, n);
    var zero: Slot := seq(SLOT, _ => 0);
    ShortSlotFacts(zero, DOT_NAME, ATTR_DIRECTORY, self, 0);
    ShortSlotFacts(zero, DOTDOT_NAME, ATTR_DIRECTORY, parent, 0);
    var D := DotSlots(self, parent, n);
    assert D[0] == DotSlot(self, parent, 0) && D[1] == DotSlot(self, parent, 1);
  }

  /** The slots of a directory an entry was added to: the new one, and those that were short before. */
  lemma AddedFiles(d: Disk, dir: nat, component: seq<byte>, meta: Meta, j: nat)
    requires WellFormed(Dir(d, dir)) && IsComponent(component) && meta.attr != ATTR_LFN
    requires Place(Dir(d, dir), component).Some? && LongSlots(component) <= 31
    requires j < |Dir(d, dir)|
    ensures var D, E, si := Dir(d, dir), Added(d, dir, component, meta), NewSlot(d, dir, component);
      && |E| == |D|
      && (Short(D[j]) ==> E[j] == D[j] && j != si)
      && (Short(E[j]) ==> j == si || Short(D[j]))
      && Short(E[si]) && E[si][11] == meta.attr && FirstCluster(E[si]) == meta.cluster && FileSize(E[si]) == meta.size
  {
    var D, i := Dir(d, dir), Place(Dir(d, dir), component).value;
    var k := LongSlots(component);
    if Short(D[j]) {
      AddFrame(D, i, component, meta.attr, meta.cluster, meta.size, j);
    }
    if Short(Added(d, dir, component, meta)[j]) {
      AddTopped(D, i, component, meta.attr, meta.cluster, meta.size, j);
    }
    ShortSlotFacts(D[i + k], component, meta.attr, meta.cluster, meta.size);
    assert Added(d, dir, component, meta)[i + k] == SlotAfter(D, i, k, component, meta.attr, meta.cluster, meta.size, i + k);
    assert !Live(D[i + k]);
  }

  /** Directories that an update leaves alone stay as they were, more directories being known. */
  lemma DirOkFrame(d: Disk, e: Disk, root: u32, rank: map<nat, nat>, more: map<nat, nat>, cb: nat, c: nat)
    requires DirOk(d, root, rank, cb, c) && c in rank
    requires forall x :: x in rank ==> x in more && more[x] == rank[x]
    requires c < |e.data| && c < |e.fat| && |e.data[c]| == cb && e.fat[c] >= END_MARK && Dir(e, c) == Dir(d, c)
    ensures DirOk(e, root, more, cb, c)
  {
    forall j: nat | j < |Dir(e, c)| && Short(Dir(e, c)[j])
      ensures EntryOk(e, root, more, c, j)
    {
      assert EntryOk(d, root, rank, c, j);
    }
  }

  /** A directory with an entry added: fine when the new entry itself is. */
  lemma DirOkAdded(d: Disk, e: Disk, root: u32, rank: map<nat, nat>, more: map<nat, nat>, cb: nat, dir: nat,
                   component: seq<byte>, meta: Meta)
    requires DirOk(d, root, rank, cb, dir) && dir in rank
    requires forall x :: x in rank ==> x in more && more[x] == rank[x]
    requires IsComponent(component) && meta.attr != ATTR_LFN && LongSlots(component) <= 31
    requires Place(Dir(d, dir), component).Some?
    requires dir < |e.data| && dir < |e.fat| && |e.data[dir]| == cb && e.fat[dir] >= END_MARK
    requires Dir(e, dir) == Added(d, dir, component, meta)
    requires EntryOk(e, root, more, dir, NewSlot(d, dir, component))
    ensures DirOk(e, root, more, cb, dir)
  {
    var D, i := Dir(d, dir), Place(Dir(d, dir), component).value;
    AddKeepsWellFormed(D, component, meta.attr, meta.cluster, meta.size);
    AddedSlashFree(d, dir, component, meta);
    forall j: nat | j < |Dir(e, dir)| && Short(Dir(e, dir)[j])
      ensures EntryOk(e, root, more, dir, j)
    {
      AddTopped(D, i, component, meta.attr, meta.cluster, meta.size, j);
      if j != NewSlot(d, dir, component) {
        AddFrame(D, i, component, meta.attr, meta.cluster, meta.size, j);
        assert EntryOk(d, root, rank, dir, j);
      }
    }
  }

  lemma NewDirectoryEntry(d: Disk, e: Disk, root: u32, more: map<nat, nat>, dir: nat, component: seq<byte>, spare: u32)
    requires IsComponent(component) && LongSlots(component) <= 31 && Place(Dir(d, dir), component).Some?
    requires Dir(e, dir) == Added(d, dir, component, DirMeta(spare))
    requires spare != 0 && spare as nat in more && dir in more && more[spare] == more[dir] + 1
    ensures EntryOk(e, root, more, dir, NewSlot(d, dir, component))
  {
    var D, i, k := Dir(d, dir), Place(Dir(d, dir), component).value, LongSlots(component);
    NewShort(D, i, component, ATTR_DIRECTORY, spare, 0);
    LeadsDown(e, root, more, dir, i + k, spare);
  }

  lemma LeadsDown(e: Disk, root: u32, more: map<nat, nat>, dir: nat, j: nat, spare: u32)
    requires j < |Dir(e, dir)| && FirstCluster(Dir(e, dir)[j]) == spare != 0
    requires spare as nat in more && dir in more && more[spare] == more[dir] + 1
    ensures EntryOk(e, root, more, dir, j)
  {
  }

  lemma NewDirectoryOk(e: Disk, root: u32, more: map<nat, nat>, cb: nat, spare: u32, parent: u32)
    requires cb % SLOT == 0 && cb >= 2 * SLOT
    requires 2 <= spare < |e.data| && spare < |e.fat| && |e.data[spare]| == cb && e.fat[spare] >= END_MARK
    requires Dir(e, spare) == DotSlots(spare, parent, cb / SLOT)
    requires parent != 0 && parent as nat in more && spare as nat in more
    ensures DirOk(e, root, more, cb, spare)
  {
    DotSlotsOk(spare, parent, cb / SLOT);
    DotsSlashFree(spare, parent, cb / SLOT);
    var D := Dir(e, spare);
    forall j: nat | j < |D| && Short(D[j])
      ensures EntryOk(e, root, more, spare, j)
    {
      assert j == 0 || j == 1;
      forall name | DotFree(name)
        ensures !Matches(D, j, name)
      {
      }
    }
  }

  lemma RankedIsUsed(d: Disk, root: u32, rank: map<nat, nat>, cb: nat, c: nat)
    requires TreeOk(d, root, rank, cb) && c in rank
    ensures c < |d.fat| && d.fat[c] != 0
  {
    assert DirOk(d, root, rank, cb, c);
  }

  lemma SpareIsNew(d: Disk, root: u32, rank: map<nat, nat>, cb: nat)
    requires TreeOk(d, root, rank, cb)
    ensures LeastFree(d.fat, 2) == 0 || LeastFree(d.fat, 2) !in rank
  {
    var spare := LeastFree(d.fat, 2);
    if spare in rank {
      RankedIsUsed(d, root, rank, cb, spare);
    }
  }

  /** The tree with a directory made below `dir`. */
  function Deeper(rank: map<nat, nat>, dir: nat, spare: nat): map<nat, nat>
    requires dir in rank
  {
    rank[spare := rank[dir] + 1]
  }

  lemma MakeDirOne(d: Disk, root: u32, rank: map<nat, nat>, cb: nat, dir: u32, component: seq<byte>, c: nat)
    requires TreeOk(d, root, rank, cb) && cb >= 2 * SLOT && dir as nat in rank && IsComponent(component)
    requires LeastFree(d.fat, 2) != 0 && LeastFree(d.fat, 2) !in rank
    requires c in Deeper(rank, dir, LeastFree(d.fat, 2))
    ensures DirOk(MakeDir(d, dir, component, cb / SLOT), root, Deeper(rank, dir, LeastFree(d.fat, 2)), cb, c)
  {
    var spare := LeastFree(d.fat, 2);
    var n := cb / SLOT;
    var e := MakeDir(d, dir, component, n);
    var more := Deeper(rank, dir, spare);
    FewLongSlots(component);
    assert DirOk(d, root, rank, cb, dir);
    if c == spare {
      MakeDirDirs(d, dir, component, n, c);
      NewDirectoryOk(e, root, more, cb, spare, dir);
    } else {
      assert DirOk(d, root, rank, cb, c);
      MakeDirOld(d, root, rank, cb, dir, component, c);
    }
  }

  lemma MakeDirOld(d: Disk, root: u32, rank: map<nat, nat>, cb: nat, dir: u32, component: seq<byte>, c: nat)
    requires |d.fat| == |d.data| && |d.fat| < END_MARK && cb % SLOT == 0
    requires LeastFree(d.fat, 2) != 0 && LeastFree(d.fat, 2) !in rank
    requires c in rank && DirOk(d, root, rank, cb, c) && dir as nat in rank && DirOk(d, root, rank, cb, dir)
    requires IsComponent(component) && LongSlots(component) <= 31
    ensures DirOk(MakeDir(d, dir, component, cb / SLOT), root, Deeper(rank, dir, LeastFree(d.fat, 2)), cb, c)
  {
    var spare := LeastFree(d.fat, 2);
    var n := cb / SLOT;
    var e := MakeDir(d, dir, component, n);
    var more := Deeper(rank, dir, spare);
    MakeDirDirs(d, dir, component, n, c);
    MakeDirSizes(d, dir, component, n, cb, c);
    if c == dir && Place(Dir(d, dir), component).Some? {
      NewDirectoryEntry(d, e, root, more, dir, component, spare);
      DirOkAdded(d, e, root, rank, more, cb, dir, component, DirMeta(spare));
    } else {
      DirOkFrame(d, e, root, rank, more, cb, c);
    }
  }

  /** Making a missing directory keeps the tree, with the new directory one level below its parent. */
  lemma MakeDirKeepsTree(d: Disk, root: u32, rank: map<nat, nat>, cb: nat, dir: u32, component: seq<byte>)
    requires TreeOk(d, root, rank, cb) && cb >= 2 * SLOT && dir as nat in rank && IsComponent(component)
    requires LeastFree(d.fat, 2) != 0
    ensures LeastFree(d.fat, 2) !in rank
    ensures TreeOk(MakeDir(d, dir, component, cb / SLOT), root, Deeper(rank, dir, LeastFree(d.fat, 2)), cb)
  {
    SpareIsNew(d, root, rank, cb);
    forall c | c in Deeper(rank, dir, LeastFree(d.fat, 2))
      ensures DirOk(MakeDir(d, dir, component, cb / SLOT), root, Deeper(rank, dir, LeastFree(d.fat, 2)), cb, c)
    {
      MakeDirOne(d, root, rank, cb, dir, component, c);
    }
  }

  lemma MakeDirSizes(d: Disk, dir: u32, component: seq<byte>, n: nat, cb: nat, c: nat)
    requires |d.fat| == |d.data| && |d.fat| < END_MARK && LeastFree(d.fat, 2) != 0
    requires c < |d.data| && dir < |d.data| && cb == SLOT * n && |d.data[dir]| == cb
    requires c == LeastFree(d.fat, 2) || (|d.data[c]| == cb && d.fat[c] >= END_MARK)
    ensures var e := MakeDir(d, dir, component, n);
      |e.data[c]| == cb && e.fat[c] >= END_MARK
  {
  }

  // ---- the drive ----

  /** A directory cluster read into a buffer of slots. */
  method LoadDirectory(vol: Volume, c: nat) returns (entries: array<Slot>)
    requires vol.Valid() && 2 <= c < vol.g.Clusters()
    ensures fresh(entries) && entries[..] == Dir(vol.View(), c)
    ensures SLOT * entries.Length == vol.g.ClusterBytes()
  {
    var buf := vol.ReadCluster(c);
    ClusterSlots(vol.g.spc);
    entries := new Slot[|buf| / SLOT](i requires 0 <= i < |buf| / SLOT => buf[SLOT * i..SLOT * i + SLOT]);
    assert entries[..] == SlotsOf(buf);
  }

  lemma ClusterSlots(spc: nat)
    ensures SLOT * (spc * SECTOR / SLOT) == spc * SECTOR
  {
    assert spc * SECTOR == SLOT * (16 * spc);
  }

  /** The buffer written back. */
  method StoreDirectory(vol: Volume, c: nat, entries: array<Slot>)
    requires vol.Valid() && 2 <= c < vol.g.Clusters()
    requires SLOT * entries.Length == vol.g.ClusterBytes()
    modifies vol
    ensures vol.Valid()
    ensures vol.View() == Disk(old(vol.View().fat), old(vol.View().data)[c := BytesOf(entries[..])])
  {
    var b := BytesOf(entries[..]);
    assert Onto(vol.View().data[c], b) == b;
    vol.WriteCluster(c, b);
  }

  /** Path components fit the 64-byte buffer. */
  predicate ShortComponents(path: seq<byte>)
    decreases |path|
  {
    path != [] ==>
      var n := ComponentLen(path);
      n <= 63 && (n < |path| ==> ShortComponents(path[n + 1..]))
  }

  /** An absolute path starts at the root, any other in the current directory. */
  function StartDir(root: u32, cwd: u32, name: seq<byte>): u32 {
    if name != [] && name[0] == SLASH then root else cwd
  }

  lemma StartKnownDir(d: Disk, root: u32, rank: map<nat, nat>, cb: nat, cwd: u32, name: seq<byte>)
    requires TreeOk(d, root, rank, cb) && cwd as nat in rank
    ensures StartDir(root, cwd, name) as nat in rank
  {
  }

  /** One component of a lookup: the first entry of directory `cluster` it names, and where that leads. */
  method FindStep(vol: Volume, cluster: u32, component: seq<byte>, dirsOnly: bool, ghost dirs: set<nat>)
    returns (r: Option<Slot>, next: u32)
    requires vol.Valid() && vol.g.root < 0x1_0000_0000
    requires Navigable(vol.View(), vol.g.root, dirs) && cluster as nat in dirs
    ensures var found := LookupFrom(Dir(vol.View(), cluster), component, dirsOnly, 0);
      && (r.Some? <==> found.Some?)
      && (r.Some? ==> r.value == Dir(vol.View(), cluster)[found.value] && next == Enter(vol.g.root, r.value))
    ensures r.Some? && IsDirectory(r.value) ==> next as nat in dirs
  {
    assert Leads(vol.View(), vol.g.root, dirs, cluster);
    var entries := LoadDirectory(vol, cluster);
    var found := FindSlot(entries, component, dirsOnly);
    if found == None {
      return None, cluster;
    }
    var e := entries[found.value];
    next := FirstCluster(e);
    if next == 0 {
      next := vol.g.root;
    }
    return Some(e), next;
  }

  /** `_fat32_find_entry`. */
  method FindEntry(vol: Volume, cwd: u32, name: seq<byte>, ghost dirs: set<nat>) returns (r: Option<Slot>)
    requires vol.Valid() && vol.g.root < 0x1_0000_0000
    requires Navigable(vol.View(), vol.g.root, dirs)
    requires cwd as nat in dirs && Ascii(name) && ShortComponents(name)
    ensures r == Find(vol.View(), vol.g.root, StartDir(vol.g.root, cwd, name), Split(name))
  {
    var cluster: u32, rest := cwd, name;
    if |name| > 0 && name[0] == SLASH {
      cluster, rest := vol.g.root, name[1..];
    }
    while |rest| > 0
      invariant cluster as nat in dirs
      invariant Find(vol.View(), vol.g.root, cluster, Split(rest)) ==
        Find(vol.View(), vol.g.root, StartDir(vol.g.root, cwd, name), Split(name))
      decreases |rest|
    {
      var n := ComponentLen(rest);
      FindPath(vol.View(), vol.g.root, cluster, rest);
      if n == 0 {
        rest := rest[1..];
      } else {
        var e, next := FindStep(vol, cluster, rest[..n], false, dirs);
        if e == None {
          return None;
        }
        if n == |rest| {
          return e;
        }
        if !IsDirectory(e.value) {
          return None;
        }
        cluster := next;
        rest := rest[n + 1..];
      }
    }
    return None;
  }
}
