/** What the spelling of a path means: where it starts, and which components it has. */
module PathNames {
  import opened Words
  import opened Names
  import opened Slots
  import opened Directory
  import opened DirectoryEdit
  import opened DirectoryLaws
  import opened Volume
  import opened Tree
  import opened Paths

  /** Where a path starts and what its components are, off its characters. */
  predicate From(root: u32, cwd: u32, name: seq<byte>, dir: u32, ps: seq<seq<byte>>) {
    dir == (if name != [] && name[0] == '/' as int then root else cwd) && ps == Split(name)
  }

  lemma FromIs(root: u32, cwd: u32, name: seq<byte>, dir: u32, ps: seq<seq<byte>>)
    ensures From(root, cwd, name, dir, ps) <==> dir == StartDir(root, cwd, name) && ps == Split(name)
  {
  }

  predicate NoSlash(s: seq<byte>) {
    forall i :: 0 <= i < |s| ==> s[i] != '/' as int
  }

  lemma {:induction false} ComponentEnds(c: seq<byte>, rest: seq<byte>)
    requires NoSlash(c) && (rest == [] || rest[0] == SLASH)
    ensures ComponentLen(c + rest) == |c|
  {
    if c != [] {
      assert (c + rest)[1..] == c[1..] + rest;
      ComponentEnds(c[1..], rest);
    } else {
      assert c + rest == rest;
    }
  }

  /** The components are what the slashes separate; slashes in front and doubled ones count for
      nothing, and a path that ends in one ends in an empty component. */
  lemma SplitIs(c: seq<byte>, rest: seq<byte>)
    requires NoSlash(c) && c != []
    ensures Split([]) == [[]] && Split(['/' as int] + rest) == Split(rest)
    ensures Split(c) == [c] && Split(c + ['/' as int] + rest) == [c] + Split(rest)
  {
    ComponentEnds([], [SLASH] + rest);
    assert [] + ([SLASH] + rest) == [SLASH] + rest && ([SLASH] + rest)[1..] == rest;
    ComponentEnds(c, []);
    assert c + [] == c;
    var path := c + [SLASH] + rest;
    ComponentEnds(c, [SLASH] + rest);
    assert c + ([SLASH] + rest) == path;
    assert path[..|c|] == c && path[|c| + 1..] == rest;
  }

  // ---- finding ----

  /** A relative path takes its first step in the current directory, an absolute one in the root. */
  lemma FirstStep(d: Disk, root: u32, cwd: u32, name: seq<byte>, dir: u32, ps: seq<seq<byte>>)
    requires From(root, cwd, name, dir, ps) && Trace(d, root, StartDir(root, cwd, name), Split(name)).Some?
    ensures var t := Trace(d, root, StartDir(root, cwd, name), Split(name)).value;
      && name != [] && |t| == |ps| > 0 && t[0].dir == (if name[0] == '/' as int then root else cwd)
      && Lookup(Dir(d, t[0].dir), ps[0]) == Some(t[0].slot)
  {
    TraceStarts(d, root, dir, ps);
  }

  /** A name that is one component finds what a lookup in the current directory finds. */
  lemma OneComponent(d: Disk, root: u32, cwd: u32, name: seq<byte>)
    requires NoSlash(name) && name != []
    ensures Find(d, root, StartDir(root, cwd, name), Split(name)) ==
      match Lookup(Dir(d, cwd), name)
      case None => None
      case Some(j) => Some(Dir(d, cwd)[j])
  {
    SplitIs(name, []);
  }

  /** Any further component is looked for in the directory the entry before it leads to, the root
      where that has cluster 0. */
  lemma NextComponent(d: Disk, root: u32, cwd: u32, c: seq<byte>, rest: seq<byte>, j: nat)
    requires NoSlash(c) && c != [] && Lookup(Dir(d, cwd), c) == Some(j)
    ensures var e, name := Dir(d, cwd)[j], c + ['/' as int] + rest;
      var next := if FirstCluster(e) == 0 then root else FirstCluster(e);
      Find(d, root, StartDir(root, cwd, name), Split(name)) == if (e[11] / 16) % 2 == 0 then None else Find(d, root, next, Split(rest))
  {
    SplitIs(c, rest);
    assert (c + [SLASH] + rest)[0] == c[0];
  }

  /** An absolute path means the same in every directory: the path from the root. */
  lemma AbsoluteIgnoresCwd(d: Disk, root: u32, cwd: u32, name: seq<byte>)
    ensures var path := ['/' as int] + name; Find(d, root, StartDir(root, cwd, path), Split(path)) == Find(d, root, root, Split(name))
  {
    SplitIs([0], name);
  }

  /** A path that ends in a slash finds nothing. */
  lemma {:induction false} EndsInSlash(d: Disk, root: u32, dir: u32, ps: seq<seq<byte>>)
    requires ps != [] && ps[|ps| - 1] == []
    ensures Find(d, root, dir, ps) == None
    decreases |ps|
  {
    if |ps| > 1 && ps[0] != [] {
      var r := Lookup(Dir(d, dir), ps[0]);
      if r.Some? {
        EndsInSlash(d, root, Enter(root, Dir(d, dir)[r.value]), ps[1..]);
      }
    }
  }

  // ---- creating ----

  /** A creation by a name that is one component adds its entry to the current directory and to no
      other, a creation by its absolute spelling to the root. */
  lemma CreatesHere(d: Disk, root: u32, cwd: u32, name: seq<byte>, absolute: bool, meta: Meta, n: nat, c: nat)
    requires |d.fat| == |d.data| && |d.fat| < END_MARK && IsComponent(name) && cwd < |d.data| && root < |d.data|
    ensures var path, here: nat := if absolute then ['/' as int] + name else name, if absolute then root else cwd;
      var e := Create(d, root, StartDir(root, cwd, path), Split(path), meta, n);
      match Place(Dir(d, here), name)
      case None => e == d
      case Some(i) =>
        LongSlots(name) <= 31 &&
        Dir(e, c) == if c == here then Written(Dir(d, here), i, name, meta.attr, meta.cluster, meta.size) else Dir(d, c)
  {
    var here := if absolute then root else cwd;
    SplitIs(name, []);
    SplitIs([0], name);
    FewLongSlots(name);
    AddToDir(d, here, name, meta, c);
  }

  /** A directory a creation makes on its way is entered where it was missing, under its name, as a
      directory of size 0 in the first free cluster. */
  lemma MissingIsMade(d: Disk, root: u32, rank: map<nat, nat>, cb: nat, dir: u32, ps: seq<seq<byte>>, meta: Meta)
    requires TreeOk(d, root, rank, cb) && cb >= 2 * SLOT && dir as nat in rank && CanCreate(d, root, dir, ps, cb / SLOT)
    requires |ps| > 1 && LookupFrom(Dir(d, dir), ps[0], true, 0) == None
    ensures Place(Dir(d, dir), ps[0]).Some?
    ensures HoldsEntry(Create(d, root, dir, ps, meta, cb / SLOT), Found(dir, NewSlot(d, dir, ps[0])), Entry(ps[0], 0x10, LeastFree(d.fat, 2), 0))
  {
    Ranked(d, root, rank, cb, dir);
    CreateMissing(d, root, dir, ps, meta, cb / SLOT);
    CreateChanges(d, root, rank, cb, dir, ps, meta, dir);
    MadeHolds(Create(d, root, dir, ps, meta, cb / SLOT), dir, Dir(d, dir), ps[0], LeastFree(d.fat, 2));
  }

  lemma MadeHolds(e: Disk, dir: nat, D: seq<Slot>, name: seq<byte>, spare: u32)
    requires WellFormed(D) && IsComponent(name) && LongSlots(name) <= 31 && Place(D, name).Some?
    requires Dir(e, dir) == Written(D, Place(D, name).value, name, ATTR_DIRECTORY, spare, 0)
    ensures HoldsEntry(e, Found(dir, Place(D, name).value + LongSlots(name)), Entry(name, 0x10, spare, 0))
  {
    NewIsWhole(D, Dir(e, dir), Place(D, name).value, name, ATTR_DIRECTORY, spare, 0);
  }
}
