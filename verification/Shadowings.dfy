/** Inputs at which a new entry hides another: a path that does not lead to what was created
    under it, one that does although it is shadowed, and a move that removes its own copy. */
module Shadowings {
  import opened Words
  import opened Names
  import opened Slots
  import opened Directory
  import opened DirectoryEdit
  import opened DirectoryLaws
  import opened Volume
  import opened Chains
  import opened Tree
  import opened Paths
  import opened Arrival
  import opened Room
  import opened FileSystem
  import opened FileOps
  import opened Moves
  import opened FileRuns

  // ---- the volume ----

  function EmptyCluster(): (b: seq<byte>)
    ensures |b| == 512
  {
    seq(512, _ => 0)
  }

  const TABLE: seq<nat> := [END_MARK, END, END, END, 0, 0, 0, 0]

  /** Eight clusters of 512 bytes. The root, cluster 2, has one entry, that of FOO12345678.TXT
      in slot 3 behind a deleted slot; cluster 3 is a directory without entries. */
  function Example(attr: byte, cluster: u32): Disk
    requires attr != ATTR_LFN
  {
    PlainNames();
    WithRoot(Gapped(16, NAME_A, NAME_LONG, attr, cluster, 0))
  }

  function WithRoot(D: seq<Slot>): Disk {
    var z := EmptyCluster();
    Disk(TABLE, [z, z, BytesOf(D), BytesOf(DotSlots(3, 2, 16)), z, z, z, z])
  }

  const RANK: map<nat, nat> := map[2 := 0, 3 := 1]

  /** What matters of its root's slots. */
  ghost predicate GapSlots(D: seq<Slot>, long: seq<byte>, short: seq<byte>, entry: Entry) {
    && |D| == 16 && LongAlone(D, long, entry) && (forall q :: 0 <= q < 16 && Short(D[q]) ==> q == 3)
    && Lookup(D, short) == None && Place(D, short) == Some(0)
  }

  /** What matters of it. */
  ghost predicate Gap(d: Disk, long: seq<byte>, short: seq<byte>, entry: Entry) {
    && |d.data| == 8 && d.fat == TABLE && |d.data[2]| == |d.data[3]| == 512
    && GapSlots(Dir(d, 2), long, short, entry) && Dir(d, 3) == DotSlots(3, 2, 16)
  }

  lemma ExampleIs(attr: byte, cluster: u32)
    requires attr != ATTR_LFN
    ensures Gap(Example(attr, cluster), NAME_LONG, NAME_SHORT, Entry(NAME_LONG, attr, cluster, 0))
  {
    ShadowingNames();
    PlainNames();
    GappedIs(16, NAME_A, NAME_LONG, NAME_SHORT, attr, cluster, 0);
    WithRootDirs(Gapped(16, NAME_A, NAME_LONG, attr, cluster, 0));
  }

  lemma WithRootDirs(D: seq<Slot>)
    requires |D| == 16
    ensures var d := WithRoot(D);
      && |d.data| == 8 && d.fat == TABLE && |d.data[2]| == |d.data[3]| == 512
      && Dir(d, 2) == D && Dir(d, 3) == DotSlots(3, 2, 16)
  {
    SlotsOfBytes(D);
    SlotsOfBytes(DotSlots(3, 2, 16));
  }

  /** The names: the long one has the short one's alias. */
  predicate SameAlias(long: seq<byte>, short: seq<byte>) {
    && IsComponent(long) && IsComponent(short) && LongSlots(short) == 0 && Short83(long) == Short83(short)
    && SLASH !in long && DotFree(short)
  }

  /** A directory leads to cluster 3, a file has no cluster. */
  predicate FitsEntry(entry: Entry) {
    entry.size == 0 && entry.attr != ATTR_LFN && entry.cluster == if (entry.attr / 0x10) % 2 == 0 then 0 else 3
  }

  lemma AloneSlashFree(D: seq<Slot>, long: seq<byte>, entry: Entry)
    requires LongAlone(D, long, entry) && SLASH !in long && forall q :: 0 <= q < |D| && Short(D[q]) ==> q == 3
    ensures SlashFree(D)
  {
    AliasSlashFree(long);
  }

  lemma GapRoot(d: Disk, long: seq<byte>, short: seq<byte>, entry: Entry)
    requires Gap(d, long, short, entry) && SLASH !in long && FitsEntry(entry)
    ensures DirOk(d, 2, RANK, 512, 2)
  {
    AloneSlashFree(Dir(d, 2), long, entry);
    GapEntry(d, long, short, entry);
  }

  lemma GapEntry(d: Disk, long: seq<byte>, short: seq<byte>, entry: Entry)
    requires Gap(d, long, short, entry) && FitsEntry(entry)
    ensures EntryOk(d, 2, RANK, 2, 3)
  {
  }

  lemma GapTree(d: Disk, long: seq<byte>, short: seq<byte>, entry: Entry)
    requires Gap(d, long, short, entry) && SLASH !in long && FitsEntry(entry)
    ensures TreeOk(d, 2, RANK, 512)
  {
    NewDirectoryOk(d, 2, RANK, 512, 3, 2);
    GapRoot(d, long, short, entry);
  }

  lemma GapFiles(d: Disk, long: seq<byte>, short: seq<byte>, entry: Entry, f: Found)
    requires Gap(d, long, short, entry) && FitsEntry(entry) && IsFile(d, RANK, f)
    ensures f == Found(2, 3) && !IsDirectory(SlotAt(d, f)) && FileOk(d, RANK, f) && ChainAt(d, f) == []
  {
    DotSlotsDirectories(3, 2, 16);
    NoChainFromZero(d.fat);
  }

  lemma GapFs(d: Disk, long: seq<byte>, short: seq<byte>, entry: Entry)
    requires Gap(d, long, short, entry) && SLASH !in long && FitsEntry(entry)
    ensures FsOk(d, 2, RANK, 512, [])
  {
    GapTree(d, long, short, entry);
    GapNoChains(d, long, short, entry);
    TableClosed(d.fat);
    FsFrom(d, 2, RANK, 512);
  }

  lemma TableClosed(fat: seq<nat>)
    requires fat == TABLE
    ensures Closed(fat)
  {
  }

  lemma FsFrom(d: Disk, root: u32, rank: map<nat, nat>, cb: nat)
    requires TreeOk(d, root, rank, cb) && cb >= 2 * SLOT && Closed(d.fat)
    requires AllFilesOk(d, rank) && AllApart(d, rank) && LooseOk(d, rank, [])
    ensures FsOk(d, root, rank, cb, [])
  {
  }

  lemma GapNoChains(d: Disk, long: seq<byte>, short: seq<byte>, entry: Entry)
    requires Gap(d, long, short, entry) && FitsEntry(entry)
    ensures AllFilesOk(d, RANK) && AllApart(d, RANK) && LooseOk(d, RANK, [])
  {
    forall f | IsFile(d, RANK, f)
      ensures FileOk(d, RANK, f) && ChainAt(d, f) == []
    {
      GapFiles(d, long, short, entry, f);
    }
  }

  // ---- a creation that is lost ----

  /** FOO12345678.TXT leads down to cluster 3, from where .. leads up again; FOO12345 names
      nothing, and its entry would be found under both names. */
  ghost predicate DownUp(d: Disk, long: seq<byte>, short: seq<byte>) {
    && |d.fat| == |d.data| == 8 && IsComponent(long) && IsComponent(DOTDOT_NAME) && IsComponent(short)
    && LookupFrom(Dir(d, 2), long, true, 0) == Some(3) && IsDirectory(Dir(d, 2)[3]) && Enter(2, Dir(d, 2)[3]) == 3
    && LookupFrom(Dir(d, 3), DOTDOT_NAME, true, 0) == Some(1) && IsDirectory(Dir(d, 3)[1]) && Enter(2, Dir(d, 3)[1]) == 2
    && Lookup(Dir(d, 2), long) == Some(3) && Lookup(Dir(d, 2), short) == None && LookupFrom(Dir(d, 2), short, true, 0) == None
    && WellFormed(Dir(d, 2)) && Place(Dir(d, 2), short) == Some(0) && LongSlots(short) == 0
    && NewWins(Dir(d, 2), short, long) && NewWins(Dir(d, 2), short, short) && !IsDot(DOTDOT_NAME)
  }

  lemma GapDots(d: Disk, long: seq<byte>, short: seq<byte>, entry: Entry)
    requires Gap(d, long, short, entry)
    ensures IsComponent(DOTDOT_NAME) && !IsDot(DOTDOT_NAME)
    ensures LookupFrom(Dir(d, 3), DOTDOT_NAME, true, 0) == Some(1) && IsDirectory(Dir(d, 3)[1]) && Enter(2, Dir(d, 3)[1]) == 2
  {
    DotSlotsOk(3, 2, 16);
    DotSlotsDirectories(3, 2, 16);
    DotsDiffer();
    LookupDecided(Dir(d, 3), DOTDOT_NAME, 1);
    DirectoryLookup(Dir(d, 3), DOTDOT_NAME, 0);
  }

  lemma DotsDiffer()
    ensures Short83(DOT_NAME) != Short83(DOTDOT_NAME) && IsComponent(DOTDOT_NAME)
  {
    assert BaseLen(DOT_NAME, 0) == 0 && BaseLen(DOTDOT_NAME, 0) == 0;
    assert Short83(DOT_NAME)[8] == SPACE && Short83(DOTDOT_NAME)[8] == DOT;
    PlainName(DOTDOT_NAME);
  }

  /** The new entry would be found under both names. */
  lemma GapWins(d: Disk, long: seq<byte>, short: seq<byte>, entry: Entry)
    requires Gap(d, long, short, entry) && SameAlias(long, short)
    ensures Lookup(Dir(d, 2), long) == Some(3) && NewWins(Dir(d, 2), short, long) && NewWins(Dir(d, 2), short, short)
    ensures LookupFrom(Dir(d, 2), short, true, 0) == None
    ensures IsDirectory(Dir(d, 2)[3]) ==> LookupFrom(Dir(d, 2), long, true, 0) == Some(3)
  {
    DirectoryLookup(Dir(d, 2), long, 0);
    DirectoryLookup(Dir(d, 2), short, 0);
  }

  lemma GapDownUp(d: Disk, long: seq<byte>, short: seq<byte>, entry: Entry)
    requires Gap(d, long, short, entry) && SameAlias(long, short) && entry.attr == ATTR_DIRECTORY && entry.cluster == 3
    ensures DownUp(d, long, short)
  {
    GapDots(d, long, short, entry);
    GapWins(d, long, short, entry);
  }

  /** Creating path ps from directory dir is creating qs from directory next. */
  ghost predicate SameCreation(d: Disk, root: u32, dir: u32, ps: seq<seq<byte>>, next: u32, qs: seq<seq<byte>>, meta: Meta, n: nat)
    requires |d.fat| == |d.data| && |d.fat| < END_MARK && ps != [] && qs != []
  {
    && CanCreate(d, root, dir, ps, n) == CanCreate(d, root, next, qs, n) && PlanOf(d, root, dir, ps) == PlanOf(d, root, next, qs)
    && Landing(d, root, dir, ps, n) == Landing(d, root, next, qs, n) && Create(d, root, dir, ps, meta, n) == Create(d, root, next, qs, meta, n)
    && FirstAddition(d, root, dir, ps, meta) == FirstAddition(d, root, next, qs, meta)
  }

  lemma StepsInto(d: Disk, root: u32, dir: u32, next: u32, ps: seq<seq<byte>>, qs: seq<seq<byte>>, meta: Meta, n: nat)
    requires |d.fat| == |d.data| && |d.fat| < END_MARK && |ps| > 1 && qs == ps[1..] && IsComponent(ps[0])
    requires var r := LookupFrom(Dir(d, dir), ps[0], true, 0); r.Some? && Enter(root, Dir(d, dir)[r.value]) == next
    ensures SameCreation(d, root, dir, ps, next, qs, meta, n)
  {
  }

  lemma TwoSteps(d: Disk, root: u32, a: u32, ps: seq<seq<byte>>, b: u32, qs: seq<seq<byte>>, c: u32, rs: seq<seq<byte>>, meta: Meta, n: nat)
    requires |d.fat| == |d.data| && |d.fat| < END_MARK && ps != [] && qs != [] && rs != []
    requires SameCreation(d, root, a, ps, b, qs, meta, n) && SameCreation(d, root, b, qs, c, rs, meta, n)
    ensures SameCreation(d, root, a, ps, c, rs, meta, n)
  {
  }

  /** A path through FOO12345678.TXT/.. is created as what follows. */
  lemma DownAndUp(d: Disk, long: seq<byte>, short: seq<byte>, ps: seq<seq<byte>>, rest: seq<seq<byte>>, meta: Meta)
    requires DownUp(d, long, short) && rest != [] && ps == [long, DOTDOT_NAME] + rest
    ensures SameCreation(d, 2, 2, ps, 2, rest, meta, 16)
  {
    var qs := [DOTDOT_NAME] + rest;
    assert ps[1..] == qs && qs[1..] == rest;
    StepsInto(d, 2, 2, 3, ps, qs, meta, 16);
    StepsInto(d, 2, 3, 2, qs, rest, meta, 16);
    TwoSteps(d, 2, 2, ps, 3, qs, 2, rest, meta, 16);
  }

  /** The path can be created, lands in the root's slot 0, and does not resolve afterwards. */
  ghost predicate LosesCreation(d: Disk, ps: seq<seq<byte>>, meta: Meta) {
    && |d.fat| == |d.data| && |d.fat| < END_MARK && CanCreate(d, 2, 2, ps, 16)
    && !Arrives(d, 2, PlanOf(d, 2, 2, ps), Known(2), ps)
    && Landing(d, 2, 2, ps, 16) == Some(Found(2, 0))
    && Find(Create(d, 2, 2, ps, meta, 16), 2, 2, ps) == None
  }

  /** The path can be created and leads to what was created although one of its steps is shadowed. */
  ghost predicate ArrivesShadowed(d: Disk, ps: seq<seq<byte>>) {
    && ps != [] && |d.fat| == |d.data| && |d.fat| < END_MARK && CanCreate(d, 2, 2, ps, 16)
    && Arrives(d, 2, PlanOf(d, 2, 2, ps), Known(2), ps)
    && !Unshadowed(d, 2, 2, ps, AdditionOf(d, 2, 2, ps))
  }

  /** Creating FOO12345678.TXT/../FOO12345 works and adds an entry that hides the directory the
      path starts with: the walk does not arrive, and the path resolves to nothing. */
  lemma CreationLost(d: Disk, long: seq<byte>, short: seq<byte>, meta: Meta)
    requires DownUp(d, long, short) && meta.attr != ATTR_LFN && (meta.attr / 0x10) % 2 == 0
    ensures LosesCreation(d, [long, DOTDOT_NAME, short], meta)
  {
    var ps := [long, DOTDOT_NAME, short];
    DownAndUp(d, long, short, ps, [short], meta);
    ShortCreated(d, short, meta);
    HidesLong(d, AddTo(d, 2, short, meta), long, short, meta);
    LostWalk(d, long, short, ps);
  }

  lemma ShortCreated(d: Disk, short: seq<byte>, meta: Meta)
    requires |d.fat| == |d.data| && |d.fat| < END_MARK
    requires IsComponent(short) && LongSlots(short) == 0 && Place(Dir(d, 2), short) == Some(0)
    ensures CanCreate(d, 2, 2, [short], 16) && PlanOf(d, 2, 2, [short]) == Plan(2, [short])
    ensures Landing(d, 2, 2, [short], 16) == Some(Found(2, 0)) && Create(d, 2, 2, [short], meta, 16) == AddTo(d, 2, short, meta)
  {
  }

  lemma LostWalk(d: Disk, long: seq<byte>, short: seq<byte>, ps: seq<seq<byte>>)
    requires DownUp(d, long, short) && |ps| > 1 && ps[0] == long
    ensures !Arrives(d, 2, Plan(2, [short]), Known(2), ps)
  {
    assert Go(d, 2, Plan(2, [short]), Known(2), long) == None;
  }

  lemma HidesLong(d: Disk, e: Disk, long: seq<byte>, short: seq<byte>, meta: Meta)
    requires DownUp(d, long, short) && meta.attr != ATTR_LFN && (meta.attr / 0x10) % 2 == 0
    requires e == AddTo(d, 2, short, meta)
    ensures Lookup(Dir(e, 2), long) == Some(0) && !IsDirectory(Dir(e, 2)[0])
  {
    AddToDir(d, 2, short, meta, 2);
    AddedLookup(Dir(d, 2), Dir(e, 2), short, meta, long, true);
    AddedFiles(d, 2, short, meta, 0);
  }

  /** With a directory to make in its stead the same path goes on: FOO12345678.TXT/../FOO12345/A
      leads to A although its first step is shadowed, because the new directory is found under
      both names. */
  lemma ShadowedYetFound(d: Disk, a: seq<byte>, long: seq<byte>, short: seq<byte>)
    requires DownUp(d, long, short) && LeastFree(d.fat, 2) == 4 && IsComponent(a) && DotFree(a)
    ensures ArrivesShadowed(d, [long, DOTDOT_NAME, short, a])
  {
    var ps, meta := [long, DOTDOT_NAME, short, a], Meta(ATTR_ARCHIVE, 0, 0);
    DownAndUp(d, long, short, ps, [short, a], meta);
    TwoCreated(d, a, long, short);
    TwoPlanned(d, a, long, short, meta);
    TwoArrive(d, a, long, short, Plan(2, [short, a]), ps);
    FirstShadowed(d, long, short, ps, AdditionOf(d, 2, 2, ps));
  }

  lemma FirstShadowed(d: Disk, long: seq<byte>, short: seq<byte>, ps: seq<seq<byte>>, b: Addition)
    requires DownUp(d, long, short) && ps != [] && ps[0] == long && b.dir == 2 && b.component == short
    ensures !Unshadowed(d, 2, 2, ps, b)
  {
  }

  lemma TwoCreated(d: Disk, a: seq<byte>, long: seq<byte>, short: seq<byte>)
    requires DownUp(d, long, short) && IsComponent(a) && DotFree(a) && LeastFree(d.fat, 2) == 4
    ensures CanCreate(d, 2, 2, [short, a], 16)
  {
    assert [short, a][1..] == [a];
    MakeDirDirs(d, 2, short, 16, 4);
    NothingInNew(4, 2, 16, a);
    RoomInNew(4, 2, 16, a);
  }

  lemma TwoPlanned(d: Disk, a: seq<byte>, long: seq<byte>, short: seq<byte>, meta: Meta)
    requires DownUp(d, long, short)
    ensures PlanOf(d, 2, 2, [short, a]) == Plan(2, [short, a])
    ensures var b := FirstAddition(d, 2, 2, [short, a], meta); b.dir == 2 && b.component == short
  {
  }

  lemma TwoArrive(d: Disk, a: seq<byte>, long: seq<byte>, short: seq<byte>, p: Plan, ps: seq<seq<byte>>)
    requires DownUp(d, long, short) && IsComponent(a) && DotFree(a)
    requires p == Plan(2, [short, a]) && ps == [long, DOTDOT_NAME, short, a]
    ensures Arrives(d, 2, p, Known(2), ps)
  {
    assert ps[1..] == [DOTDOT_NAME, short, a] && ps[1..][1..] == [short, a] && ps[1..][1..][1..] == [a];
    TwoWalk(d, a, long, short, p);
    ArrivesHere(d, 2, p, New(1), [a]);
    assert Arrives(d, 2, p, Known(2), [short, a]);
    assert Arrives(d, 2, p, New(1), [DOTDOT_NAME, short, a]);
  }

  lemma TwoWalk(d: Disk, a: seq<byte>, long: seq<byte>, short: seq<byte>, p: Plan)
    requires DownUp(d, long, short) && IsComponent(a) && DotFree(a) && p == Plan(2, [short, a])
    ensures Go(d, 2, p, Known(2), long) == Some(New(1)) && Go(d, 2, p, New(1), DOTDOT_NAME) == Some(Known(2))
    ensures Go(d, 2, p, Known(2), short) == Some(New(1)) && Hits(d, p, New(1), a)
  {
    NewPasses(d, 2, p, 1, a);
  }

  lemma FirstFree(fat: seq<nat>)
    requires fat == TABLE
    ensures LeastFree(fat, 2) == 4 && Used(fat) == 4
  {
    assert LeastFree(fat, 3) == 4;
    FrontUsed(fat, 4);
    FrontUsed(fat, 8);
  }

  lemma {:induction false} FrontUsed(fat: seq<nat>, n: nat)
    requires fat == TABLE && n <= 8
    ensures Used(fat[..n]) == Min(n, 4)
    decreases n
  {
    if n > 0 {
      FrontUsed(fat, n - 1);
      assert fat[..n][..n - 1] == fat[..n - 1];
    }
  }

  /** On a consistent volume: the creation that is lost, and the one that is not. */
  lemma CreationLostHappens(meta: Meta)
    requires meta.attr != ATTR_LFN && (meta.attr / 0x10) % 2 == 0
    ensures var d, ps, qs := Example(ATTR_DIRECTORY, 3), [NAME_LONG, DOTDOT_NAME, NAME_SHORT], [NAME_LONG, DOTDOT_NAME, NAME_SHORT, NAME_A];
      FsOk(d, 2, RANK, 512, []) && LosesCreation(d, ps, meta) && ArrivesShadowed(d, qs)
  {
    ExampleReady(ATTR_DIRECTORY, 3);
    LostAndFound(Example(ATTR_DIRECTORY, 3), NAME_A, NAME_LONG, NAME_SHORT, Entry(NAME_LONG, ATTR_DIRECTORY, 3, 0), meta);
  }

  lemma LostAndFound(d: Disk, a: seq<byte>, long: seq<byte>, short: seq<byte>, entry: Entry, meta: Meta)
    requires Gap(d, long, short, entry) && SameAlias(long, short) && IsComponent(a) && DotFree(a)
    requires entry.attr == ATTR_DIRECTORY && entry.cluster == 3 && meta.attr != ATTR_LFN && (meta.attr / 0x10) % 2 == 0
    ensures LosesCreation(d, [long, DOTDOT_NAME, short], meta) && ArrivesShadowed(d, [long, DOTDOT_NAME, short, a])
  {
    GapDownUp(d, long, short, entry);
    FirstFree(d.fat);
    CreationLost(d, long, short, meta);
    ShadowedYetFound(d, a, long, short);
  }

  lemma ExampleReady(attr: byte, cluster: u32)
    requires FitsEntry(Entry(NAME_LONG, attr, cluster, 0))
    ensures var d, entry := Example(attr, cluster), Entry(NAME_LONG, attr, cluster, 0);
      && FsOk(d, 2, RANK, 512, []) && Gap(d, NAME_LONG, NAME_SHORT, entry)
      && SameAlias(NAME_LONG, NAME_SHORT) && DotFree(NAME_A) && d.fat == TABLE
    ensures IsComponent(NAME_A)
  {
    ShadowingNames();
    NamesDiffer();
    ExampleIs(attr, cluster);
    GapFs(Example(attr, cluster), NAME_LONG, NAME_SHORT, Entry(NAME_LONG, attr, cluster, 0));
  }

  lemma NamesDiffer()
    ensures DotFree(NAME_A) && DotFree(NAME_SHORT) && SLASH !in NAME_LONG
  {
    FooAliases();
    assert BaseLen(DOT_NAME, 0) == 0 && BaseLen(DOTDOT_NAME, 0) == 0 && BaseLen(NAME_A, 0) == 1;
    assert Short83(DOT_NAME)[0] == SPACE && Short83(DOTDOT_NAME)[0] == SPACE && Short83(NAME_A)[0] == 65;
  }

  // ---- a move that removes its own copy ----

  /** FOO12345678.TXT moved to FOO12345: rm finds the copy, and the file is where it was. */
  lemma MoveUndone(d: Disk, long: seq<byte>, short: seq<byte>, entry: Entry)
    requires Gap(d, long, short, entry) && SameAlias(long, short) && entry.attr == ATTR_ARCHIVE && FitsEntry(entry)
    ensures FsOk(d, 2, RANK, 512, []) && IsFile(d, RANK, Found(2, 3))
    ensures MoveShadows(d, 2, 512, 2, long, SlotAt(d, Found(2, 3)), 2, [short]) && UndoesItself(d, 2, RANK, 512, 2, long, SlotAt(d, Found(2, 3)), 2, [short])
  {
    GapFs(d, long, short, entry);
    GapFile(d, long, short, entry);
    GapRoom(d, long, short, entry, SlotAt(d, Found(2, 3)));
    RoomAdds(d, 2, 512, SlotAt(d, Found(2, 3)), 2, [short]);
    GapShadows(d, long, short, entry);
    ShadowedMoveUndone(d, 2, RANK, 512, 2, long, SlotAt(d, Found(2, 3)), 2, [short]);
  }

  lemma GapFile(d: Disk, long: seq<byte>, short: seq<byte>, entry: Entry)
    requires Gap(d, long, short, entry) && entry.attr == ATTR_ARCHIVE && FitsEntry(entry)
    ensures IsFile(d, RANK, Found(2, 3))
    ensures var s := SlotAt(d, Found(2, 3)); FirstCluster(s) == 0 && FileSize(s) == 0
  {
    FileEntry(Dir(d, 2), entry);
  }

  lemma FileEntry(D: seq<Slot>, entry: Entry)
    requires |D| > 3 && EntryAt(D, 3) == entry && entry.attr == ATTR_ARCHIVE
    ensures !IsDirectory(D[3]) && FirstCluster(D[3]) == entry.cluster && FileSize(D[3]) == entry.size
  {
  }

  lemma GapRoom(d: Disk, long: seq<byte>, short: seq<byte>, entry: Entry, s: Slot)
    requires Gap(d, long, short, entry) && IsComponent(short) && FirstCluster(s) == 0 && FileSize(s) == 0
    ensures CopyHasRoom(d, 2, 512, s, 2, [short])
  {
    FirstFree(d.fat);
    NoChainFromZero(d.fat);
  }

  lemma GapShadows(d: Disk, long: seq<byte>, short: seq<byte>, entry: Entry)
    requires Gap(d, long, short, entry) && SameAlias(long, short)
    ensures StepShadowed(d, 2, long, AdditionOf(d, 2, 2, [short])) && Lacking(d, 2, 2, [short]) == [short]
  {
  }

  lemma MoveUndoneHappens()
    ensures var d := Example(ATTR_ARCHIVE, 0);
      && FsOk(d, 2, RANK, 512, []) && IsFile(d, RANK, Found(2, 3)) && MoveShadows(d, 2, 512, 2, NAME_LONG, SlotAt(d, Found(2, 3)), 2, [NAME_SHORT])
      && UndoesItself(d, 2, RANK, 512, 2, NAME_LONG, SlotAt(d, Found(2, 3)), 2, [NAME_SHORT])
  {
    ExampleReady(ATTR_ARCHIVE, 0);
    MoveUndone(Example(ATTR_ARCHIVE, 0), NAME_LONG, NAME_SHORT, Entry(NAME_LONG, ATTR_ARCHIVE, 0, 0));
  }

  // ---- a removal that breaks the volume ----

  lemma GapParent(d: Disk, long: seq<byte>, short: seq<byte>, entry: Entry)
    requires Gap(d, long, short, entry)
    ensures Lookup(Dir(d, 3), DOTDOT_NAME) == Some(1) && IsDirectory(Dir(d, 3)[1]) && FirstCluster(Dir(d, 3)[1]) == 2
  {
    DotSlotsOk(3, 2, 16);
    DotSlotsDirectories(3, 2, 16);
    DotsDiffer();
    LookupDecided(Dir(d, 3), DOTDOT_NAME, 1);
  }

  lemma ParentRemoved(d: Disk, long: seq<byte>, short: seq<byte>, entry: Entry)
    requires Gap(d, long, short, entry) && FsOk(d, 2, RANK, 512, [])
    ensures Closed(d.fat) && Sound(State(d, 3), 2, 512, false)
    ensures !Sound(State(RemovedByName(d, 3, DOTDOT_NAME), 3), 2, 512, false)
  {
    HereIsSound(d, 2, RANK, 512, 3, false);
    GapParent(d, long, short, entry);
    RemovingItself(d, 2, RANK, 512, 3, DOTDOT_NAME, 1);
  }

  /** In the directory FOO12345678.TXT, `rm ..` frees the root's cluster. */
  lemma ParentRemovalHappens()
    ensures var d := Example(ATTR_DIRECTORY, 3);
      && Closed(d.fat) && Sound(State(d, 3), 2, 512, false)
      && !Sound(State(RemovedByName(d, 3, DOTDOT_NAME), 3), 2, 512, false)
  {
    ExampleReady(ATTR_DIRECTORY, 3);
    ParentRemoved(Example(ATTR_DIRECTORY, 3), NAME_LONG, NAME_SHORT, Entry(NAME_LONG, ATTR_DIRECTORY, 3, 0));
  }

  // ---- a move that loses its file ----

  /** Sixteen files A to P of no size but the first, which has five bytes in cluster 3. */
  function FullSlot(i: nat): Slot
    requires i < 16
  {
    ShortSlot(seq(SLOT, _ => 0), Short83([65 + i]), ATTR_ARCHIVE, if i == 0 then 3 else 0, if i == 0 then 5 else 0)
  }

  function FullSlots(): (D: seq<Slot>)
    ensures |D| == 16
  {
    seq(16, i requires 0 <= i < 16 => FullSlot(i))
  }

  /** Their directory is the root, and it has no free slot. */
  function FullExample(): Disk {
    var z := EmptyCluster();
    Disk(TABLE, [z, z, BytesOf(FullSlots()), z, z, z, z, z])
  }

  const ROOT_ONLY: map<nat, nat> := map[2 := 0]

  lemma LetterAlias(i: nat)
    requires i < 16
    ensures Short83([65 + i])[0] == 65 + i && SLASH !in Short83([65 + i])
  {
    var name: seq<byte> := [65 + i];
    assert BaseLen(name, 0) == 1;
    assert Short83(name)[0] == UpperAll(name[..1])[0];
    AliasSlashFree(name);
  }

  /** Every slot is a file's without a long name. */
  ghost predicate FullAt(D: seq<Slot>, i: nat) {
    && i < 16 && i < |D| && Short(D[i]) && RunLen(D, i) == 0 && !IsDirectory(D[i]) && Alias(D[i]) == Short83([65 + i])
    && FirstCluster(D[i]) == (if i == 0 then 3 else 0) && FileSize(D[i]) == (if i == 0 then 5 else 0)
  }

  lemma FullSlotIs(i: nat)
    requires i < 16
    ensures var e := FullSlot(i);
      && Short(e) && !IsDirectory(e) && Alias(e) == Short83([65 + i]) && e[11] == ATTR_ARCHIVE
      && FirstCluster(e) == (if i == 0 then 3 else 0) && FileSize(e) == (if i == 0 then 5 else 0)
  {
    LetterAlias(i);
    ShortSlotFacts(seq(SLOT, _ => 0), [65 + i], ATTR_ARCHIVE, if i == 0 then 3 else 0, if i == 0 then 5 else 0);
  }

  lemma FullAll()
    ensures forall i: nat :: i < 16 ==> FullAt(FullSlots(), i)
  {
    var D := FullSlots();
    forall i: nat | i < 16
      ensures Short(D[i]) && D[i] == FullSlot(i)
    {
      FullSlotIs(i);
    }
    forall i: nat | i < 16
      ensures FullAt(D, i)
    {
      FullSlotIs(i);
      if i > 0 {
        assert Short(D[i - 1]);
        assert !Link(D, i, 1);
      }
    }
  }

  lemma FullSlotNames(D: seq<Slot>, i: nat)
    requires FullAt(D, i)
    ensures D[i][0] == 65 + i && SLASH !in FullName(D, i) && SLASH !in Alias(D[i])
  {
    LetterAlias(i);
    ReadableSlashFree(Alias(D[i]));
    assert Alias(D[i])[0] == D[i][0];
  }

  lemma NoFreeRun(D: seq<Slot>, k: nat)
    requires forall t :: 0 <= t < |D| ==> Live(D[t])
    ensures FirstFit(D, k, 0) == None
  {
    forall q: nat | q + k < |D|
      ensures !FreeRun(D, q, k)
    {
      assert Live(D[q]);
    }
  }

  lemma AllShortWell(D: seq<Slot>)
    requires forall i :: 0 <= i < |D| ==> Short(D[i]) && D[i][0] != FREE && RunLen(D, i) == 0
    ensures WellFormed(D)
  {
  }

  /** A directory of these files is well-formed, finds A in its first slot, and has no room. */
  lemma FullIsWell(D: seq<Slot>)
    requires |D| == 16 && forall i: nat :: i < 16 ==> FullAt(D, i)
    ensures WellFormed(D) && SlashFree(D) && Lookup(D, NAME_A) == Some(0) && Place(D, [81]) == None
  {
    forall i: nat | i < 16
      ensures Short(D[i]) && RunLen(D, i) == 0 && SLASH !in FullName(D, i) && SLASH !in Alias(D[i])
    {
      assert FullAt(D, i);
      FullSlotNames(D, i);
    }
    AllShortWell(D);
    NoFreeRun(D, LongSlots([81]));
    assert FullAt(D, 0);
    LookupDecided(D, NAME_A, 0);
  }

  /** What matters of the volume. */
  ghost predicate Full(d: Disk) {
    && |d.data| == 8 && d.fat == TABLE && |d.data[2]| == 512
    && |Dir(d, 2)| == 16 && forall i: nat :: i < 16 ==> FullAt(Dir(d, 2), i)
  }

  lemma FullExampleIs()
    ensures Full(FullExample())
  {
    FullAll();
    SlotsOfBytes(FullSlots());
  }

  lemma FullRoot(d: Disk)
    requires Full(d)
    ensures DirOk(d, 2, ROOT_ONLY, 512, 2)
  {
    FullIsWell(Dir(d, 2));
    forall j: nat | j < |Dir(d, 2)| && Short(Dir(d, 2)[j])
      ensures EntryOk(d, 2, ROOT_ONLY, 2, j)
    {
      assert FullAt(Dir(d, 2), j);
    }
  }

  lemma OneCluster(fat: seq<nat>)
    requires fat == TABLE
    ensures HasChain(fat, 3) && ClustersFrom(fat, 3) == [3]
  {
    ChainOfIs(fat, 3, [3]);
  }

  lemma FullFile(d: Disk, f: Found)
    requires Full(d) && IsFile(d, ROOT_ONLY, f)
    ensures f.dir == 2 && FileOk(d, ROOT_ONLY, f) && ChainAt(d, f) == if f.slot == 0 then [3] else []
  {
    assert FullAt(Dir(d, 2), f.slot);
    OneCluster(d.fat);
    NoChainFromZero(d.fat);
  }

  lemma FullFs(d: Disk)
    requires Full(d)
    ensures FsOk(d, 2, ROOT_ONLY, 512, [])
  {
    FullRoot(d);
    forall f | IsFile(d, ROOT_ONLY, f)
      ensures f.dir == 2 && FileOk(d, ROOT_ONLY, f) && ChainAt(d, f) == if f.slot == 0 then [3] else []
    {
      FullFile(d, f);
    }
    TableClosed(d.fat);
    FsFrom(d, 2, ROOT_ONLY, 512);
  }

  lemma FullHasA(d: Disk)
    requires Full(d)
    ensures IsFile(d, ROOT_ONLY, Found(2, 0)) && Lookup(Dir(d, 2), NAME_A) == Some(0)
    ensures Place(Dir(d, 2), [81]) == None && IsComponent([81])
  {
    FullIsWell(Dir(d, 2));
    assert FullAt(Dir(d, 2), 0);
  }

  lemma FileLost(d: Disk)
    requires Full(d) && FsOk(d, 2, ROOT_ONLY, 512, [])
    ensures LosesFile(d, 2, ROOT_ONLY, 512, 2, NAME_A, Found(2, 0), 2, [[81]])
  {
    FullHasA(d);
    FullDirectoryLosesFile(d, 2, ROOT_ONLY, 512, 2, NAME_A, Found(2, 0), 2, [81]);
  }

  lemma FullHasExampleA()
    ensures IsFile(FullExample(), ROOT_ONLY, Found(2, 0))
  {
    FullExampleIs();
    FullHasA(FullExample());
  }

  /** Renaming A to Q in a root that is full deletes A: its cluster is freed, and no file is new. */
  lemma FileLostHappens()
    ensures var d := FullExample();
      FsOk(d, 2, ROOT_ONLY, 512, []) && ChainAt(d, Found(2, 0)) == [3] && LosesFile(d, 2, ROOT_ONLY, 512, 2, NAME_A, Found(2, 0), 2, [[81]])
  {
    FullHasExampleA();
    FullExampleIs();
    FullFs(FullExample());
    FullFile(FullExample(), Found(2, 0));
    FileLost(FullExample());
  }
}
