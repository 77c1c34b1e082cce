/** The first file on a freshly formatted drive, from the format to the bytes read back. */
module FreshDrive {
  import opened Words
  import opened Names
  import opened Slots
  import opened Directory
  import opened DirectoryEdit
  import opened DirectoryLaws
  import opened Volume
  import opened Chains
  import opened Writers
  import opened Tree
  import opened PathNames
  import opened Arrival
  import opened FileOps
  import opened FileRuns
  import opened Formatting
  import opened Calls

  /** The volume as mounted right after the format, in its root directory. */
  function Fresh(drive: seq<Sector>, past: Past): State
    requires FORMAT.Fits(|drive|)
  {
    State(DiskOf(Formatted(drive, past), FORMAT), 2)
  }

  lemma {:induction false} UsedIs(fat: seq<nat>)
    requires |fat| >= 3 && (forall c :: 0 <= c < 3 ==> fat[c] != 0) && forall c :: 3 <= c < |fat| ==> fat[c] == 0
    ensures Used(fat) == 3
  {
    var front := fat[..|fat| - 1];
    if |fat| > 3 {
      UsedIs(front);
    } else {
      UsedAll(fat);
    }
  }

  lemma {:induction false} UsedAll(fat: seq<nat>)
    requires forall c :: 0 <= c < |fat| ==> fat[c] != 0
    ensures Used(fat) == |fat|
  {
    if fat != [] {
      UsedAll(fat[..|fat| - 1]);
    }
  }

  /** There is room for a file of up to 2555 clusters under any name, which finds nothing yet. */
  lemma FreshHasRoom(d: Disk, name: seq<byte>, n: nat)
    requires EmptyVolume(d) && IsComponent(name) && n <= 2555
    ensures HasRoom(d, 2, 4096, 2, [name], n) && Lookup(Dir(d, 2), name) == None
  {
    EmptyRoot(d);
    UsedIs(d.fat);
    FewLongSlots(name);
    var D := Dir(d, 2);
    assert |D| == 128;
    assert FreeRun(D, 0, LongSlots(name));
    assert Lookup(D, name) == None;
  }

  /** A name in an empty root is a fresh path: the walk arrives. */
  lemma FreshArrives(d: Disk, rank: map<nat, nat>, name: seq<byte>)
    requires TreeOk(d, 2, rank, 4096) && 2 in rank && IsComponent(name) && Place(Dir(d, 2), name).Some? && Lookup(Dir(d, 2), name) == None
    ensures Arrives(d, 2, PlanOf(d, 2, 2, [name]), Known(2), [name])
  {
    FreshPathArrives(d, 2, rank, 4096, 2, [name]);
  }

  /** What is installed first on a fresh drive, under any name and with any bytes there are clusters
      for, is found under that name and reads back as those bytes. */
  lemma FirstFileReadsBack(drive: seq<Sector>, past: Past, t: State, name: seq<byte>, bytes: seq<byte>)
    requires |drive| >= 21504 && FORMAT.Fits(|drive|) && IsComponent(name) && |bytes| <= 2555 * 4096
    requires Call(Fresh(drive, past), t, 2, 4096, FileOp.Install(name, bytes))
    ensures exists e :: Resolves(t.disk, 2, 2, [name], e) && FileSize(e) == |bytes| && Content(t.disk, e) == bytes
  {
    FormattedIsSound(drive, past);
    FormatFits(|drive|);
    var d := Fresh(drive, past).disk;
    BlocksForHold(|bytes|, 4096);
    FreshHasRoom(d, name, BlocksFor(|bytes|, 4096));
    var rank :| SoundBy(d, 2, 4096, 2, rank, true);
    FirstFileFrom(Fresh(drive, past), t, rank, name, bytes);
  }

  lemma FirstFileFrom(s: State, t: State, rank: map<nat, nat>, name: seq<byte>, bytes: seq<byte>)
    requires Consistent(s, 2, 4096, rank) && s.cwd == 2 && IsComponent(name) && Call(s, t, 2, 4096, FileOp.Install(name, bytes))
    requires HasRoom(s.disk, 2, 4096, 2, [name], BlocksFor(|bytes|, 4096)) && Lookup(Dir(s.disk, 2), name) == None
    ensures exists e :: Resolves(t.disk, 2, 2, [name], e) && FileSize(e) == |bytes| && Content(t.disk, e) == bytes
  {
    SplitIs(name, []);
    InstallMakes(s, t, 2, 4096, rank, name, bytes, 2, [name]);
    var ds :| Wrote(s.disk, t.disk, 2, rank, 4096, 2, [name], ds, bytes);
    FreshArrives(s.disk, rank, name);
    WroteReads(s.disk, t.disk, 2, rank, 4096, 2, [name], ds, bytes);
    ReadsResolve(t.disk, 2, 2, [name], name, Head(ds), bytes);
  }

  lemma ReadsResolve(d: Disk, root: u32, dir: u32, ps: seq<seq<byte>>, name: seq<byte>, head: nat, bytes: seq<byte>)
    requires ReadsAs(d, root, dir, ps, name, head, bytes)
    ensures exists e :: Resolves(d, root, dir, ps, e) && FileSize(e) == |bytes| && Content(d, e) == bytes
  {
    FindIsLastOfTrace(d, root, dir, ps);
    var e := Find(d, root, dir, ps).value;
    HoldsGives(d, Trace(d, root, dir, ps).value[|ps| - 1], name, head, bytes);
    ArchiveIsFile(e);
    assert Resolves(d, root, dir, ps, e);
  }

  lemma HoldsGives(d: Disk, f: Found, name: seq<byte>, head: nat, bytes: seq<byte>)
    requires HoldsAt(d, f, name, head, bytes)
    ensures f.slot < |Dir(d, f.dir)|
    ensures var e := Dir(d, f.dir)[f.slot]; e[11] == 0x20 && FileSize(e) == |bytes| && Content(d, e) == bytes
  {
  }

  lemma ArchiveIsFile(e: Slot)
    ensures e[11] == 0x20 ==> (e[11] / 16) % 2 == 0
  {
  }
}
