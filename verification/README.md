# NoanOS kernel: verified model

NoanOS is a small 32-bit kernel written in C. This project models its four subsystems with real
invariants at the level the code works at, and proves in Dafny what they keep over whole runs:

* **FAT32 with long names.** Directory slots are arrays of 32-byte records edited in place; the FAT
  is a run of little-endian words in sectors, mirrored; file data hangs on linked chains. The
  modules build on each other: `Names`, `Slots` (8.3 aliases, checksums, long-name runs),
  `Directory`, `DirectoryEdit`, `DirectoryLaws` (one directory cluster), `Volume`, `Chains` (sectors,
  the FAT), `OnDisk` (what stands in which byte), `Readers`, `Descriptors`, `Writers` (file data),
  `Tree`, `Paths`, `PathNames`, `Arrival`, `Stages`, `Room` (paths), `FileSystem`, `FileLaws`, `FileOps`,
  `Removals`, `Moves`, `FileRuns`, `Hierarchies`, `Formatting`, `FileCalls` (whole volumes), `Calls`
  (what each call does), `FreshDrive` (the first file), `Shadowings` (inputs at which calls go wrong).
* **Scheduling and the exec/exit protocol.** `Tasks` (the switch as a function of the ring),
  `WaitProtocol` (the state machine of timer tick, exec, exit, fault, sleep, key press),
  `Scheduler` (the linked nodes the kernel updates).
* **Paging, frames and the ELF loader.** `Paging`, `PhysicalMemory`, `ElfImage`, `ElfLoader`, and
  `NoanStack` for the argument stack of native programs.
* **The kernel heap.** `Heap` (block lists), `HeapMemory` (headers linked through memory).

Code that works step by step is a method over arrays, fields or linked objects, proved equal to a
function of the state before; the laws are then lemmas about those functions. The drive is a
sequence of 512-byte sectors. Names are ASCII without NUL; a path component has 1 to 63 bytes, which
is what the code's 64-byte component buffers take. Long names use the code's own chunk order, with
the first thirteen characters in the top slot, not the order of section 7 of the Microsoft FAT
Specification; reader and writer agree on it.

`dafny verify dfyconfig.toml` verifies the whole project.

## What the proofs bring out

* Creating a file can hide another one. An entry without a long name matches every component with
  the same alias, so FOO12345 placed in an earlier slot shadows FOO12345678.TXT. Lookups survive a
  creation exactly when the new entry does not shadow them (`DirectoryLaws.OthersStillFound`,
  `Paths.CreationAndOtherPaths`), and a four-slot directory shows it happen
  (`DirectoryLaws.ShadowingHappens`).
* A path that goes down and up again can hide its own beginning: FOO12345678.TXT/../FOO12345 can be
  created and does not resolve afterwards. A path leads to what was created under it exactly when a
  walk over the directories as they were before arrives there (`Arrival.CreateThenFind`). A fresh
  path always arrives when no step is shadowed, in particular without dot names; when the creation
  makes directories on the way, a shadowed one may arrive all the same, as
  FOO12345678.TXT/../FOO12345/A does (`Arrival.FreshPathArrives`, `Shadowings.CreationLostHappens`).
* `fat32_move` copies from the path it is given and removes by matching the whole string in the
  current directory. The source is gone if and only if it lies there, the string finds it there, and
  the copy's entry does not shadow it (`Moves.SourceGone`). A shadowed move removes its own copy
  (`Moves.ShadowedMoveUndone`, `Shadowings.MoveUndoneHappens`), an absolute one removes nothing
  (`Moves.AbsoluteMoveCopies`), and one of SUBDIREC/A removes SUBDIREC (`Moves.PathFindsItsFirst`).
  A move into a full directory loses the file (`Moves.FullDirectoryLosesFile`,
  `Shadowings.FileLostHappens`).
* `fat32_rm` removes directories without looking at what is in them or leads to them. The file system
  stays consistent if and only if no other entry leads to the directory from the root or the current
  directory (`FileRuns.RemoveIsSound`). From a formatted volume on that comes down to the name: rm is
  harmless if and only if the current directory is the root or the name does not share its alias with
  . or .. (`Hierarchies.CarefulIsHarmless`, `Formatting.FormattedRemovals`); `rm ..` in a directory
  below the root frees the root (`Shadowings.ParentRemovalHappens`).
* The comment above `dir_add_entry` promises a bare 8.3 entry when there is no free run for the long
  name (`src/kernel/storage/fat32_path.c:219-220`); the code adds nothing. The model follows the code.
* `fat32_rm` tests the 0x40 flag after overwriting the byte that holds it
  (`src/kernel/storage/fat32_file.c:184-185`), so only the nearest long-name slot is cleared; the others
  stay taken for good (`OnDisk.RemovalLeavesOrphans`). Directories stay well-formed and every other entry
  keeps its name all the same (`DirectoryLaws.RunsKeepListing`).
* `install_file` hands the whole path to `fat32_rm`, which looks in the current directory only, so
  installing again under an absolute path removes nothing (`FileCalls.ReinstallKeepsOld`).
* `fat32_format` copies its two names with loops one byte longer than the string literals
  (`src/kernel/storage/fat32.c:67`, `:78`); the two bytes read past them are parameters of the model.
* `proc_read_fd` reads from its offset exactly when that lies at most 512 bytes into its cluster
  (`Descriptors.ReadsAtItsOffset`).
* The scan of `task_switch` stops after 100 steps. With a runnable task within them it is round robin,
  as it always is up to 101 tasks
  (`Tasks.TargetIsPick`, `Tasks.SmallRingInReach`). As terminated tasks are never unlinked, the 102nd
  command of a shell sets a terminated task running (`WaitProtocol.BoundIsMet`).

## Model

| member | source | states |
|---|---|---|
| Names.NameTo83 | src/kernel/storage/fat32_path.c:12-28 | The eleven bytes written are the alias: base and extension cut at the first dots, in capitals, padded with spaces. |
| Names.AliasStartsLive | src/kernel/storage/fat32_path.c:12-28 | The alias of an ASCII name never begins with a byte that marks a free slot. |
| Names.AliasOfDotted | src/kernel/storage/fat32_path.c:12-28 | Byte by byte: a name whose first dot stands behind at most eight characters has these as base and the next three as extension, in capitals and padded. |
| Names.AliasOfUndotted | src/kernel/storage/fat32_path.c:12-28 | Byte by byte: any other name has its first eight characters as base and no extension. |
| Names.ReadsBackIffFits | src/kernel/storage/fat32_path.c:227-241 | An alias reads back as its name if and only if that is a base of at most eight characters, alone or with a dot and an extension of one to three, with no space, no small letter, and no dot in the base. |
| Names.AliasIgnoresCase | src/kernel/storage/fat32_path.c:12-28 | Components that differ only in letter case get the same alias. |
| Names.CaseIs | src/kernel/storage/fat32_path.c:79-82 | Comparing in small letters is comparing up to the case of letters A to Z. |
| Names.LfnChecksum | src/kernel/storage/fat32_path.c:42-48 | The rotating sum of the eleven alias bytes, modulo 256. |
| Names.ChecksumRotates | src/kernel/storage/fat32_path.c:42-48 | Each byte is added to the sum so far with its bits rotated right by one. |
| Names.AliasReadable | src/kernel/storage/fat32_path.c:65-77 | The buffer holds base and extension up to their first spaces, with a dot only before an extension. |
| Slots.RunLength | src/kernel/storage/fat32_path.c:88-102 | The backward walk accepts exactly the run of long-name slots that count up from the short entry and carry its checksum. |
| Slots.RunReaches | src/kernel/storage/fat32_path.c:93-102 | Slots numbered in order whose first 0x40 flag is on the k-th are accepted as a run of k. |
| Slots.RunIs | src/kernel/storage/fat32_path.c:88-102 | The run reaches t slots up if and only if the bytes of these slots number them from 1 on with the alias's checksum and no 0x40 bit is set below the t-th. |
| Slots.UnitBytes | src/kernel/storage/fat32_path.c:50-54 | Each character of a run is the two bytes at its place among 1-10, 14-25 and 28-31, low byte first. |
| Slots.TextOfName | src/kernel/storage/fat32_path.c:109-127 | A run whose 16-bit units are an ASCII name, its terminator and filler spells that name byte for byte. |
| Slots.EntryFullName | src/kernel/storage/fat32_path.c:84-128 | The name read at a slot is the run's text, or the readable alias where there is no run or no text. |
| Slots.NameIs | src/kernel/storage/fat32_path.c:109-127 | The name is the ASCII characters among the units before the first end mark, 255 at most, or the readable alias when there are none. |
| Slots.EntryMatches | src/kernel/storage/fat32_path.c:130-166 | A component matches case-insensitively against a long name, else its alias must equal the slot's byte for byte. |
| Slots.MatchIs | src/kernel/storage/fat32_path.c:130-166 | An entry with a run answers to its name up to case and to no other, one without to the names of its alias. |
| Slots.MatchIgnoresCase | src/kernel/storage/fat32_path.c:130-166 | Every entry gives the same answer for two components that differ only in case. |
| Directory.FindSlot | src/kernel/storage/fat32_path.c:196-205 | The directory scan returns the first matching live entry before the first 0x00, for both variants of the scan. |
| Directory.LookupIsFirst | src/kernel/storage/fat32_path.c:196-205 | Either scan ends at entry j if and only if j is live, matches and, where directories are wanted, is one, no slot up to j is 0x00 and no such entry comes before it. |
| Directory.EmptyDirectory | src/kernel/storage/fat32.c:94-100 | A zeroed cluster is a well-formed directory with no entries. |
| DirectoryEdit.DirAddEntry | src/kernel/storage/fat32_path.c:221-285 | Succeeds if and only if a free run exists; then the slots are those with the entry written at the first such run and nothing else changed, otherwise they are untouched. |
| DirectoryEdit.MarkDeleted | src/kernel/storage/fat32_file.c:174-187 | Clears the short slot and the nearest long-name slot of its checksum, and no other. |
| OnDisk.LongSlotsAreFewest | src/kernel/storage/fat32_path.c:227-245 | A name that fits 8.3 takes no long-name slot, any other the fewest that hold its characters. |
| OnDisk.PlaceIsFirst | src/kernel/storage/fat32_path.c:247-255 | The entry goes to the first place with enough slots that begin with 0 or 0xE5, and nowhere if and only if there is none. |
| OnDisk.LongNameOnDisk | src/kernel/storage/fat32_path.c:257-275 | The bytes of each long-name slot: number and 0x40 flag, attribute, checksum, and thirteen characters, the terminator or filler at their places. |
| OnDisk.AdditionOnDisk | src/kernel/storage/fat32_path.c:277-283 | The bytes of the short entry, with the cluster's halves at 20 and 26 and the size at 28; every other slot stays. |
| OnDisk.RemovalOnDisk | src/kernel/storage/fat32_file.c:174-187 | A removal writes 0xE5 over the first byte of the entry and of a long-name slot right above it with its checksum, and changes nothing else. |
| OnDisk.RemovalLeavesOrphans | src/kernel/storage/fat32_file.c:174-187 | An entry with a long name, added and removed again, leaves all its long-name slots but the nearest taken. |
| DirectoryLaws.NewEntryReadsBack | src/kernel/storage/fat32_path.c:221-285 | Name round trip: the entry just written reads back as the very component, attribute, cluster and size it was given, whether it needed a long name or not. |
| DirectoryLaws.NewEntryMatches | src/kernel/storage/fat32_path.c:130-166 | The new entry matches a component if and only if they are equal up to case, or share the alias when it has no long name. |
| DirectoryLaws.NoRunAboveFree | src/kernel/storage/fat32_file.c:180-186 | In a well-formed directory no slot numbered 1 stands above a free slot, whatever orphans removals left, so a new entry never inherits one. |
| DirectoryLaws.AddKeepsWellFormed | src/kernel/storage/fat32_path.c:247-285 | An addition keeps a directory well-formed: packed before the first 0x00, runs anchored to their entry by checksum and topped by 0x40. |
| DirectoryLaws.AddChangesOneEntry | src/kernel/storage/fat32_path.c:247-285 | An addition changes the map from slots to entries at the new slot and nowhere else. |
| DirectoryLaws.RemoveKeepsWellFormed | src/kernel/storage/fat32_file.c:174-187 | A removal keeps a directory well-formed although it leaves orphaned long-name slots. |
| DirectoryLaws.RemoveDropsOneEntry | src/kernel/storage/fat32_file.c:174-187 | A removal drops the removed entry from the map and changes no other. |
| DirectoryLaws.RunsKeepListing | src/kernel/storage/fat32_path.c:221-285 | Over every run of additions and removals the cluster stays well-formed and its entries are exactly those a caller's ledger of the calls predicts. |
| DirectoryLaws.CreatedIsFound | src/kernel/storage/fat32_path.c:196-205 | A component that matched nothing is found, after its creation, at the entry written for it. |
| DirectoryLaws.OthersStillFound | src/kernel/storage/fat32_path.c:196-205 | A name that resolved before a creation resolves to the same unchanged entry after it if and only if the new entry does not shadow it. |
| DirectoryLaws.FreshShadows | src/kernel/storage/fat32_path.c:158-165 | A component that named nothing shadows a name exactly when it needs no long name, has that name's alias, and goes into an earlier slot. |
| DirectoryLaws.LookupAfterAdd | src/kernel/storage/fat32_path.c:196-205 | Every lookup after an addition, also of a name the directory had: the new entry where that is named and comes first, else what was found before. |
| DirectoryLaws.ShadowingHappens | src/kernel/storage/fat32_path.c:158-165 | A concrete sequence of three additions and a removal after which a name no longer reaches its untouched entry. |
| DirectoryLaws.RemovalKeepsLookups | src/kernel/storage/fat32_file.c:160-192 | After a removal every name that resolved to another entry still resolves to it. |
| Volume.Volume.GetFat | src/kernel/storage/fat32_fat.c:15-26 | Reads the cluster's 28-bit value in the abstract table. |
| Volume.Volume.SetFat | src/kernel/storage/fat32_fat.c:28-41 | The abstract table changes at that cluster to the masked value, every other entry and all data stay, and all copies of the FAT stay equal. |
| Volume.SetEntryView | src/kernel/storage/fat32_fat.c:28-41 | The byte-level counterpart: storing the sector in every copy refines one update of the map from clusters to values. |
| OnDisk.TableOnDisk | src/kernel/storage/fat32_fat.c:15-26 | Entry c of the table is the little-endian word at byte 4c behind the reserved sectors, less its top four bits; there are total sectors / sectors per cluster of them. |
| OnDisk.ClusterOnDisk | src/kernel/storage/fat32_fat.c:10-13 | Cluster c is the sectors that begin c-2 clusters behind the copies of the table. |
| Volume.Volume.FindFree | src/kernel/storage/fat32_fat.c:43-65 | The scan that reads a FAT sector only on entering it returns what an uncached scan would. |
| Volume.LeastFreeIsLeast | src/kernel/storage/fat32_fat.c:49-63 | No cluster before the one returned is free, and none at all when it returns 0. |
| Volume.WriteView | src/kernel/storage/fat32_fat.c:10-13 | Writing whole sectors at a cluster's address changes the front of that cluster and neither the FAT nor any other cluster. |
| Chains.ChainAcyclic | src/kernel/storage/fat32_file.c:168-172 | A chain that reaches an end mark visits no cluster twice. |
| Chains.ChainsMerge | src/kernel/storage/fat32_file.c:168-172 | Two chains that share a cluster share everything behind it. |
| Chains.FreeClusters | src/kernel/storage/fat32_file.c:166-172 | The freeing loop terminates on every closed table, cyclic chains included, and leaves data alone. |
| Chains.FreeClearsReachable | src/kernel/storage/fat32_file.c:166-172 | A cluster is freed by it if and only if it can be reached from the first; all others keep their value. |
| Chains.FreeClearsChain | src/kernel/storage/fat32_file.c:166-172 | On a complete chain it zeroes exactly that chain and raises the free count by its length. |
| Chains.TakenFresh | src/kernel/core/installer.c:34-40 | The clusters a writer takes one by one are distinct and were free. |
| Chains.GrownChain | src/kernel/core/installer.c:38-40 | Linking them behind each other yields one complete chain in order. |
| Chains.GrownFrame | src/kernel/core/installer.c:38-40 | No other table entry changes. |
| Chains.GrownCount | src/kernel/core/installer.c:38-40 | The number of used clusters grows by the chain's length. |
| Chains.TakenAll | src/kernel/storage/fat32_fat.c:43-65 | A writer gets all the clusters it asks for when that many are free. |
| Readers.ReadFile | src/kernel/storage/fat32_file.c:61-89 | The bytes read sector by sector are the first min(size, max) of the chain's content. |
| Readers.ReadAt | src/kernel/storage/elf.c:12-46 | For any offset and length the bytes are content[off..off+len], cut short only where the chain ends. |
| Descriptors.Descriptor.constructor | src/kernel/cpu/syscall.c:96-98 | A descriptor starts at offset 0 with the cluster and the size given. |
| Descriptors.Open | src/kernel/cpu/syscall.c:93-101 | Takes the first free place from 3 on, for the entry's cluster and size at offset 0, and no other; -1 and no change when none is free. |
| Descriptors.Descriptor.Read | src/kernel/cpu/syscall.c:119-154 | Returns exactly min(count, size - offset) bytes, a contiguous piece of the content, and advances the offset by their number, which stays at most the size. |
| Descriptors.ReadsAtItsOffset | src/kernel/cpu/syscall.c:143-151 | The piece starts at the descriptor's offset if and only if the offset is at most one sector into its cluster. |
| Descriptors.LostOffset | src/kernel/cpu/syscall.c:143-151 | Otherwise it starts at the second sector of the cluster, and any content that differs at the two places is misread. |
| Descriptors.Seek | src/kernel/cpu/syscall.c:512-520 | On every input: the place aimed at wraps at 32 bits, and then becomes 0 if its sign bit is set, the size if it lies behind that; without wrapping it is the target clamped to the file. |
| Writers.CopyChain | src/kernel/storage/fat32_file.c:214-247 | The copy's clusters are the least free ones in turn, each filled from the source cluster at its place, until the size is covered, the source chain has ended or the disk is full; nothing else changes. |
| Writers.CopyBlocksHold | src/kernel/storage/fat32_file.c:228-246 | The number of clusters copied is the least, and at least one, that holds the size. |
| Writers.CopyReadsBack | src/kernel/storage/fat32_file.c:228-247 | Where neither the source chain nor the disk ends first, the new chain reads as the source chain up to the size. |
| Writers.CopyOfCutShort | src/kernel/storage/fat32_file.c:227-248 | The copy of a file whose chain is too short for its size has one cluster more than it, the source's clusters in order and then one nobody wrote to. |
| Writers.InstallChain | src/kernel/core/installer.c:25-48 | Succeeds if and only if enough clusters were free; the chain then begins with exactly the given bytes and no other cluster has changed. |
| Writers.BlocksForHold | src/kernel/core/installer.c:25-32 | The number of clusters taken is the least that holds the size. |
| Writers.InstallBlocksIs | src/kernel/core/installer.c:25-43 | Rounds of at most one cluster each amount to the rounded-up quotient the code computes. |
| Tree.SlotsOfBytes | src/kernel/storage/fat32_path.c:307-315 | A directory written to its cluster and read again is the same slots. |
| OnDisk.SlotBytes | src/kernel/storage/fat32_path.c:307-311 | Byte k of slot i of a directory is byte 32i+k of its cluster. |
| Tree.FindEntry | src/kernel/storage/fat32_path.c:168-215 | Resolving a path byte by byte equals resolving its components one after the other; a path that ends in a slash never resolves. |
| PathNames.SplitIs | src/kernel/storage/fat32_path.c:175-189 | The components of a path are what its slashes separate; slashes in front and doubled ones count for nothing. |
| PathNames.FirstStep | src/kernel/storage/fat32_path.c:170-173 | A relative path takes its first step in the current directory, an absolute one in the root. |
| PathNames.OneComponent | src/kernel/storage/fat32_path.c:170-208 | A name that is one component finds exactly what a lookup in the current directory finds. |
| PathNames.NextComponent | src/kernel/storage/fat32_path.c:208-212 | The rest of a path is looked for in the directory the entry before it leads to, in the root where that has cluster 0, and not at all behind a file. |
| PathNames.AbsoluteIgnoresCwd | src/kernel/storage/fat32_path.c:173 | An absolute path finds in every directory what it finds from the root. |
| PathNames.EndsInSlash | src/kernel/storage/fat32_path.c:175-215 | A path that ends in a slash finds nothing. |
| Tree.FindIsLastOfTrace | src/kernel/storage/fat32_path.c:175-214 | A path resolves if and only if every step does, to the slot the last step reached. |
| Tree.MakeDirKeepsTree | src/kernel/storage/fat32_path.c:339-358 | Making a missing directory keeps every directory well-formed and the tree a tree, the new one a level below its parent. |
| Tree.DotSlotsOk | src/kernel/storage/fat32_path.c:346-355 | A new directory is well-formed and holds just . and .. with the right clusters. |
| OnDisk.DotsOnDisk | src/kernel/storage/fat32_path.c:347-358 | The bytes of a new directory: its two dot entries, of aliases eleven spaces and a dot behind eight, and zeros. |
| Paths.MakeDirectory | src/kernel/storage/fat32_path.c:339-358 | Takes the least free cluster, adds the entry where there is room, fills the cluster; nothing without a free one. |
| Paths.CreateEntry | src/kernel/storage/fat32_path.c:287-363 | The path loop equals creation by components: enter an existing directory, else make one, then add the last component. |
| PathNames.CreatesHere | src/kernel/storage/fat32_path.c:287-325 | A creation by a one-component name adds its entry to the current directory and to no other, by its absolute spelling to the root. |
| PathNames.MissingIsMade | src/kernel/storage/fat32_path.c:339-346 | A directory made on the way is entered where it was missing, under its name, with attribute 0x10, size 0 and the first free cluster. |
| Paths.LandingHolds | src/kernel/storage/fat32_path.c:287-363 | Wherever a creation lands, dot names on the way or not, the slot holds an entry of exactly the last component, attribute, cluster and size. |
| Paths.CreateChanges | src/kernel/storage/fat32_path.c:321-361 | Of the directories there before, a creation with room and plain names behind the first missing directory changes exactly one, by one added entry, also where a name is there already. |
| Paths.CreateMayAdd | src/kernel/storage/fat32_path.c:321-361 | The same without room: that one entry is added or nothing is, which the room where the path stops resolving and a free cluster decide. |
| Arrival.CreateThenFind | src/kernel/storage/fat32_path.c:287-363 | Create then find: the slot a creation lands in, directories made on the way included, holds exactly what was asked for, and the path leads there if and only if the walk of the disk before arrives. |
| Arrival.ArrivesIsLeads | src/kernel/storage/fat32_path.c:168-215 | Any path on the disk after a creation leads to the new entry exactly when the walk over the directories before it, and over the new ones one inside the other, arrives. |
| Stages.StagedCreateThenFind | src/kernel/storage/fat32_path.c:287-363 | Create then find for every path there is room for, dot names behind missing directories included: the slot holds exactly what was asked for, and a file's path leads to it if and only if the walk arrives over the directories as they are when the last run of missing ones begins. |
| Stages.PlainPathsStayHere | src/kernel/storage/fat32_path.c:287-363 | Where only plain names follow the first missing directory, those are the directories before the call. |
| Arrival.FreshPathArrives | src/kernel/storage/fat32_path.c:287-363 | A path whose last component names nothing arrives when none of its steps is shadowed, so always when it has no dot names; with no directory to make, only then. |
| Shadowings.CreationLostHappens | src/kernel/storage/fat32_path.c:287-363 | A consistent volume on which FOO12345678.TXT/../FOO12345 can be created and then resolves to nothing, while FOO12345678.TXT/../FOO12345/A is shadowed in its first step and leads to A. |
| Paths.CreationAndOtherPaths | src/kernel/storage/fat32_path.c:168-215 | A path that resolved before resolves through the same entries after the creation, with room for it or without, if and only if the entry added, if one is, shadows none of its steps. |
| Room.OpenCanCreate | src/kernel/storage/fat32_path.c:336-345 | A path with room where it stops resolving, whatever names lead there, and clusters for the missing directories can be created. |
| FileSystem.TakeKeepsFs | src/kernel/core/installer.c:34-48 | Taking, linking and filling free clusters keeps the file system consistent and every file's entry, clusters and bytes. |
| FileSystem.MakeDirKeepsFs | src/kernel/storage/fat32_path.c:339-358 | Making a directory disturbs no file and no chain being built. |
| FileLaws.AddFileMakes | src/kernel/storage/fat32_path.c:311-319 | The last step of a creation makes one new file that owns the chain built for it; every other file is kept. |
| FileLaws.CreateMakesFile | src/kernel/storage/fat32_path.c:287-363 | Through any path, whatever it resolves to and whatever room there is: one new file that owns the chain built for it where the creation lands, none where it lands nowhere, every other file kept, the file system consistent. |
| FileLaws.RemoveDropsFile | src/kernel/storage/fat32_file.c:166-187 | Removing a file frees exactly its clusters, raises the free count by their number, and keeps every other file's entry, chain and bytes. |
| FileOps.WriterStores | src/kernel/core/installer.c:34-50 | Whatever filled freshly taken clusters: where the entry lands, the new file reads as exactly those bytes, all other files are as before, and the file system stays consistent. |
| FileOps.WriterReadsBack | src/kernel/core/installer.c:34-50 | With room the entry lands, and the path reads as those bytes if and only if the walk of the disk before arrives. |
| FileOps.WriterFound | src/kernel/core/installer.c:34-50 | The same for every path there is room for once the clusters are taken, by the walk of its last stage. |
| FileOps.TouchFound | src/kernel/storage/fat32_file.c:135-139 | So a touched path of any names with room is an empty file, found exactly when that walk arrives. |
| FileOps.CopyFound | src/kernel/storage/fat32_file.c:200-252 | A copy to any such path reads as its source, found exactly when that walk arrives. |
| FileOps.InstallFound | src/kernel/core/installer.c:18-51 | What is installed under any such path reads as the bytes given, found exactly when that walk arrives. |
| FileOps.TouchMakesEmpty | src/kernel/storage/fat32_file.c:135-139 | Touching a path that does not resolve, with room, makes an empty file, found under that path exactly when the walk arrives, and disturbs no other. |
| FileOps.TouchKeepsFs | src/kernel/storage/fat32_file.c:129-141 | Every touch: an empty new file or none, every other file kept, the file system consistent. |
| FileOps.CopyReadsAsSource | src/kernel/storage/fat32_file.c:200-252 | With room, the copy reads as the source does, from clusters that were free, and the destination path leads to it exactly when the walk arrives; the source and every other file are as before. |
| FileOps.CopyKeepsFs | src/kernel/storage/fat32_file.c:200-252 | Every copy, onto an existing name or a full disk too: one new file or none, every other file kept, the file system consistent. |
| FileOps.InstallReadsBack | src/kernel/core/installer.c:25-50 | What was installed under a path with room reads back as the bytes given, from clusters that were free, every other file as before. |
| FileOps.InstallKeepsFs | src/kernel/core/installer.c:25-50 | Every installation, cut short or not: one new file or none, every other file kept, the file system consistent. |
| FileOps.RemoveByName | src/kernel/storage/fat32_file.c:160-192 | Where its name leads to a file in the current directory rm drops that file and only that one. |
| Removals.RemoveDirectory | src/kernel/storage/fat32_file.c:160-192 | Where it leads to a directory exactly that one's cluster is freed, and when no other entry leads there from the root or the current directory, every file still in use is kept and the file system is consistent. |
| Removals.InUseAfter | src/kernel/storage/fat32_file.c:160-192 | What entries lead to after the removal is what the entries other than the one removed lead to before it. |
| FileOps.RemovedNameGone | src/kernel/storage/fat32_file.c:160-192 | After it the name resolves to nothing if and only if no other entry matches the name too. |
| FileOps.RemovalKeepsPaths | src/kernel/storage/fat32_file.c:160-192 | Every path that does not pass the removed file resolves as before, step by step. |
| FileOps.ReadsAsAfterRemoval | src/kernel/storage/fat32_file.c:160-192 | A path that read a file reads the same name, cluster and bytes after another file is removed. |
| FileOps.ChangedIsKnown | src/kernel/storage/fat32_dir.c:83-95 | Changing directory leads to a directory of the tree, the root standing for cluster 0. |
| Moves.SourceFound | src/kernel/storage/fat32_file.c:257-260 | For every source name, path or not, with room for the copy or without: between copy and removal it finds the source in the current directory if and only if it did before and the entry the copy adds, if it adds one, does not shadow it. |
| Moves.SourceGone | src/kernel/storage/fat32_file.c:257-260 | So the source's entry is gone after the move if and only if it lay in the current directory, the name found it there, and the copy added no entry that shadows it: all said of the disk before. |
| Moves.MoveMoves | src/kernel/storage/fat32_file.c:257-260 | Then its clusters are free, the copy reads as the source did, the destination leads to it where the walk arrives, and all other files are as before. |
| Moves.NameAfterMove | src/kernel/storage/fat32_file.c:257-260 | The source's name finds nothing in the current directory afterwards if and only if no other entry there matches it, the copy's included. |
| Moves.ShadowedMoveUndone | src/kernel/storage/fat32_file.c:257-260 | A shadowed move with no directory to make removes the very entry it added: every file, the source included, is as before. |
| Shadowings.MoveUndoneHappens | src/kernel/storage/fat32_file.c:257-260 | A consistent volume on which moving FOO12345678.TXT to FOO12345 does that. |
| Moves.AbsoluteMoveCopies | src/kernel/storage/fat32_file.c:257-260 | After the copy a move by an absolute name removes nothing, whatever the current directory holds. |
| Moves.EightCharsStandForPath | src/kernel/storage/fat32_path.c:158-165 | An entry without a long name matches a path whose first component has eight characters and no dot exactly when it matches that component. |
| Moves.PathFindsItsFirst | src/kernel/storage/fat32_file.c:160-164 | So what the removal finds for SUBDIREC/A is the entry SUBDIREC, when that has no long name. |
| Moves.MoveLosesFile | src/kernel/storage/fat32_file.c:257-260 | A move that makes no entry but finds its source removes it all the same: its clusters are free, no file is new, every other is as before. |
| Moves.FullDirectoryLosesFile | src/kernel/storage/fat32_file.c:257-260 | It comes to that whenever the destination directory has no free run for the name. |
| Shadowings.FileLostHappens | src/kernel/storage/fat32_file.c:257-260 | A consistent volume with sixteen files in its root on which renaming A to Q frees A's cluster and leaves no file of that content. |
| FileRuns.RemoveIsSound | src/kernel/storage/fat32_file.c:146-195 | rm keeps the file system consistent if and only if what it finds is no directory that another entry leads to from the root or the current directory, on the disk before. |
| Hierarchies.SeveredIff | src/kernel/storage/fat32_file.c:146-195 | In a hierarchy of directories no other entry leads there if and only if the current directory is the root or the name does not share its alias with . or .. . |
| Hierarchies.CallKeepsOrder | src/kernel/storage/fat32_file.c:129-260 | Every call of touch, copy, install, rm, move and cd that gives rm no such name keeps a hierarchy: each directory but the root has its two dot entries and exactly one other entry, in its parent. |
| Hierarchies.CarefulIsHarmless | src/kernel/storage/fat32_file.c:129-260 | For every call on a hierarchy: it removes no directory in use if and only if it gives rm no such name below the root. |
| Hierarchies.CarefulRunsKeep | src/kernel/storage/fat32_file.c:129-260 | So hierarchy and consistency hold all along every run of such calls. |
| Shadowings.ParentRemovalHappens | src/kernel/storage/fat32_file.c:160-172 | A consistent volume on which `rm ..` leaves no consistent file system. |
| FileRuns.RemovingItself | src/kernel/storage/fat32_file.c:160-172 | A name that leads to the current directory or to the root breaks it. |
| FileRuns.StepIsSound | src/kernel/storage/fat32_file.c:129-260 | Every call of touch, copy, install, rm, move and cd that removes no directory in use keeps the file system consistent, and all files as long as their size unless a copy filled the disk. |
| FileRuns.RunsAreSound | src/kernel/storage/fat32_file.c:129-260 | So does every run of such calls. |
| FileRuns.SoundChains | src/kernel/storage/fat32_file.c:200-252 | In a consistent file system every file's chain is end-marked and acyclic and shares no cluster with another's. |
| Formatting.Format | src/kernel/storage/fat32.c:57-104 | The stores and loops leave boot sector, both FAT copies and the root cluster as specified, and every other sector as it was. |
| Formatting.MountReadsBack | src/kernel/storage/fat32.c:33-45 | Mounting reads back the geometry that formatting wrote, and each of the fifteen fields stands in the boot sector as it was stored. |
| Formatting.BootGeometry | src/kernel/storage/fat32.c:68-75 | The geometry's bytes in the boot sector. |
| Formatting.BootNames | src/kernel/storage/fat32.c:66-80 | The bytes of its jump, names, media type, serial number and signature. |
| Formatting.BootZeros | src/kernel/storage/fat32.c:63 | All its other bytes are zero. |
| Formatting.FormatTouches | src/kernel/storage/fat32.c:82-105 | A format writes the boot sector, the two tables and the root directory, and no other sector. |
| Formatting.FormattedIsSound | src/kernel/storage/fat32.c:57-104 | A formatted drive has equal FAT copies and a consistent, empty file system with only clusters 0 to 2 in use. |
| Formatting.FormattedRuns | src/kernel/storage/fat32.c:85-104 | From a formatted drive on, over every run of calls that give rm no dot entry's name below the root, the chains of all files end, have no cycle and share nothing, and are long enough unless a copy filled the disk. |
| Formatting.FormattedRemovals | src/kernel/storage/fat32_file.c:146-195 | In every state of such a run rm keeps the file system consistent if and only if the current directory is the root or the name does not share its alias with . or .. . |
| FileCalls.Read | src/kernel/storage/fat32_file.c:54-90 | Returns the first min(size, max) bytes of the file the path resolves to, and fails on a directory or an unresolved path. |
| FileCalls.Touch | src/kernel/storage/fat32_file.c:129-141 | The volume becomes the one touch specifies, unchanged where the path resolves; the call is a step of a run. |
| FileCalls.Remove | src/kernel/storage/fat32_file.c:146-195 | The volume becomes the one without the first matching entry, file or directory; reports whether there was one; the call is a step of a run. |
| FileCalls.Copy | src/kernel/storage/fat32_file.c:200-252 | The volume becomes the copy's, cut short or not, and is unchanged for an unresolved source or a directory; the call is a step of a run. |
| FileCalls.Move | src/kernel/storage/fat32_file.c:257-260 | For any two paths the volume becomes the copy's with what the source's name then finds removed from the current directory; the call is a step of a run. |
| FileCalls.ChangeDir | src/kernel/storage/fat32_dir.c:62-102 | The new current directory is the root or the first matching directory, else the old one; the call is a step of a run. |
| FileCalls.InstallFile | src/kernel/core/installer.c:18-51 | Removes what the name finds, then installs; succeeds if and only if enough clusters were free; the call is a step of a run. |
| FileCalls.ReinstallKeepsOld | src/kernel/core/installer.c:20-23 | Under an absolute path the removal in front changes nothing. |
| Calls.PathNamesAre | src/kernel/storage/fat32_path.c:175-189 | The calls below take every component of 1 to 63 bytes as a name, and every path these make up. |
| Calls.TouchCall | src/kernel/storage/fat32_file.c:129-141 | A touch call leaves everything as it is where the path resolves, and else, with room, makes an empty file the path leads to exactly when the walk arrives. |
| Calls.CopyMakes | src/kernel/storage/fat32_file.c:200-252 | A copy call whose path resolves to a file, with clusters and room, makes a file that reads as the source did before, in free clusters; every file, the source included, is as before. |
| Calls.CopyChanges | src/kernel/storage/fat32_file.c:203-220 | A copy call changes nothing if and only if its source is missing or a directory, or no cluster is free. |
| Calls.CopyKeeps | src/kernel/storage/fat32_file.c:200-252 | Whatever a copy call comes to, every file is as before and at most one is new. |
| Calls.EnoughIsWhole | src/kernel/storage/fat32_file.c:236-244 | The disk fills up during the copy of a file with the clusters its size needs only when there are fewer free ones than that. |
| Calls.RemoveCall | src/kernel/storage/fat32_file.c:146-195 | A removal takes the first entry the name finds in the current directory, a file's clusters or a directory's cluster with it, and does nothing without one. |
| Calls.InstallMakes | src/kernel/core/installer.c:18-51 | Installing under a path that is absolute or does not resolve, with room, makes a file of exactly the bytes given and removes nothing. |
| Calls.InstallReplaces | src/kernel/core/installer.c:18-51 | Installing again under a name in the current directory replaces the file of that name: it is gone, one new file holds the bytes, all others are as before. |
| Calls.MoveIsCopyThenRemove | src/kernel/storage/fat32_file.c:257-260 | A move is a copy and then a removal by the source's name, in both directions and whatever either comes to. |
| Calls.MoveCallMoves | src/kernel/storage/fat32_file.c:257-260 | A move call whose removal finds the source, with clusters and room, leaves a file that reads as the source did before, and the source and its clusters gone. |
| Calls.MoveCallRemoves | src/kernel/storage/fat32_file.c:257-260 | With room or without, the source's entry is gone after the call if and only if the removal finds it. |
| Calls.MoveCallLoses | src/kernel/storage/fat32_file.c:257-260 | On a full disk, or into a full directory, a move call that finds its source loses the file. |
| Calls.CdCall | src/kernel/storage/fat32_dir.c:62-102 | cd changes the current directory alone: to the root, to the cluster of the first directory the name finds, or not at all. |
| Calls.CdThenPath | src/kernel/storage/fat32_dir.c:62-102 | After cd into a directory a relative path finds what the longer path through its name found before. |
| FreshDrive.FirstFileReadsBack | src/kernel/core/installer.c:18-51 | From the format on: what is installed first, under any one-component name and with any bytes up to 2555 clusters, is found under that name and reads back as those bytes. |
| Heap.PayloadsSeparate | src/kernel/core/malloc.c:21-48 | Allocated payloads are 4-aligned, inside the heap and pairwise disjoint. |
| Heap.NeedIs | src/kernel/core/malloc.c:24-25 | A request is rounded up to the next multiple of 4. |
| Heap.AllocateAddsOne | src/kernel/core/malloc.c:28-42 | An allocation adds to the set of allocated blocks the one it returns and changes no other; its size is the one asked for when more than 16 bytes would remain, else the whole block. |
| Heap.FreeRemovesOne | src/kernel/core/malloc.c:50-66 | A free removes the one block it is given from that set, coalescing included. |
| Heap.MergeIsMaximal | src/kernel/core/malloc.c:56-65 | The single coalescing pass leaves no two adjacent free blocks, whatever list it starts from. |
| Heap.AllocKeepsHeap | src/kernel/core/malloc.c:21-48 | After an allocation the blocks still tile the heap, aligned, with no two free neighbours. |
| Heap.FreeKeepsHeap | src/kernel/core/malloc.c:50-66 | So they do after a free. |
| Heap.FreeUndoesAlloc | src/kernel/core/malloc.c:21-66 | Freeing the block just allocated restores the exact block list, split or not. |
| Heap.LayoutDetermined | src/kernel/core/malloc.c:21-66 | The block list is determined by the set of allocated blocks and the heap's extent. |
| HeapMemory.KernelHeap.constructor | src/kernel/core/malloc.c:14-19 | One free block spans the heap. |
| HeapMemory.KernelHeap.Kmalloc | src/kernel/core/malloc.c:21-48 | First fit: NULL if and only if no free block holds the rounded size, else the address of the first that does, split when more than a header and four bytes remain. |
| HeapMemory.KernelHeap.Kfree | src/kernel/core/malloc.c:50-66 | The linked headers become the list with that block freed and coalesced; NULL changes nothing. |
| HeapMemory.KernelHeap.GetMallocInfo | src/kernel/core/malloc.c:68-89 | total is the heap's size and equals used + free + header times free blocks. |
| HeapMemory.FreeAddsUp | src/kernel/core/malloc.c:78-88 | Free bytes and free blocks are the sums over the blocks. |
| HeapMemory.CallStep | src/kernel/core/malloc.c:21-66 | Each call keeps the heap well-formed and changes the set of allocated blocks by its own block alone; an allocation that some free block can serve does change it. |
| HeapMemory.RunsKeepHeap | src/kernel/core/malloc.c:14-66 | So along every run of allocations and valid frees. |
| HeapMemory.RunsConverge | src/kernel/core/malloc.c:14-66 | Two runs that leave the same blocks allocated leave the same block list. |
| Tasks.TargetIsPick | src/kernel/cpu/task.c:154-182 | The scan and the idle rule settle on the round-robin choice, a runnable one, if a runnable task is within reach of the scan; if none is, they settle on a blocked one. |
| Tasks.PickIsNearest | src/kernel/cpu/task.c:154-182 | That choice is runnable, and no runnable task stands nearer behind the current one. |
| Tasks.SmallRingInReach | src/kernel/cpu/task.c:160-167 | With at most 101 tasks a runnable one is always within reach. |
| Tasks.DeadRevived | src/kernel/cpu/task.c:160-167 | Behind more than a hundred terminated tasks the choice is a terminated one. |
| Tasks.SwitchPicks | src/kernel/cpu/task.c:142-203 | A switch makes the round-robin choice current and running, changes no other state, and saves the old stack pointer unless the task is parked. |
| Tasks.TurnNears | src/kernel/cpu/task.c:154-182 | Each switch dispatches a given runnable task or brings its turn one nearer. |
| Tasks.FairWithin | src/kernel/system/timer.c:10-13 | With k runnable tasks each is dispatched within k consecutive switches. |
| WaitProtocol.StepKeeps | src/kernel/cpu/syscall.c:896-978 | Every step whose switch has a runnable task within the scan's reach keeps: ids distinct and growing from parent to child, the idle task runnable, and a task waiting exactly when one living task names it as parent. |
| WaitProtocol.RunsKeep | src/kernel/cpu/syscall.c:1199-1201 | From boot on, that holds along every run of ticks, execs, exits, faults, sleeps and key presses in which the scan reaches a runnable task, whatever its length and the number of tasks. |
| WaitProtocol.SmallRunsKeep | src/kernel/cpu/task.c:160-167 | Every run with at most 101 tasks is one of those. |
| WaitProtocol.WaitsEnd | src/kernel/storage/noan.c:230-231 | Every waiting task waits, through a chain of children, for a living task that does not wait. |
| WaitProtocol.WaitsForward | src/kernel/storage/noan.c:154-160 | Along such a chain ids grow, so no task waits for itself. |
| WaitProtocol.ParkedKeepsEsp | src/kernel/cpu/task.c:145-152 | While a task waits no step changes the stack pointer it parked with, nor terminates it. |
| WaitProtocol.CreatedAt | src/kernel/cpu/task.c:40-129 | A new task has the next id, is ready, and has the parent, frame, directory and stack given; every other task is as before. |
| WaitProtocol.ExecSavesEsp | src/kernel/cpu/syscall.c:914-931 | An exec parks the caller with its own system call's frame, and a runnable child with the next id and its first frame names it. |
| WaitProtocol.ExitWakesParent | src/kernel/cpu/syscall.c:896-912 | The step in which the child ends makes its parent runnable, with its frame intact. |
| WaitProtocol.StepKeepsOthers | src/kernel/cpu/syscall.c:896-978 | But for the current task, a step changes no task except that it makes ready those it wakes and running the one it picks. |
| WaitProtocol.KeyWakesSleepers | src/kernel/io/keyboard.c:69-79 | A key press makes every sleeper ready, so that none sleeps, and changes nothing else of any task. |
| WaitProtocol.SleepSavesEsp | src/kernel/cpu/syscall.c:1044-1051 | A read that finds no key puts the reader to sleep with its own system call's frame. |
| WaitProtocol.SleeperStays | src/kernel/cpu/task.c:142-203 | Every step but a key press leaves a sleeper asleep with its frame. |
| WaitProtocol.SleepsOn | src/kernel/cpu/syscall.c:1044-1051 | So on every run from boot a sleeper sleeps on, unchanged, until the first key press. |
| WaitProtocol.KeyThenRuns | src/kernel/io/keyboard.c:69-79 | After a key press it gets the processor within as many switches as there are runnable tasks. |
| WaitProtocol.ExecveReplaces | src/kernel/cpu/task.c:311-352 | A task that executes a program keeps its id, parent and state and gets the program's frame, directory and stack; no other task changes. |
| WaitProtocol.CommandWorks | src/kernel/cpu/syscall.c:896-978 | Behind at most 100 terminated children a shell gets the processor back after a command. |
| WaitProtocol.CommandRevives | src/kernel/cpu/task.c:160-167 | Behind more of them a terminated child is set running in its stead. |
| WaitProtocol.BoundIsMet | src/kernel/cpu/task.c:160-167 | From boot, a shell's first 101 commands come back to it and the 102nd does not. |
| Scheduler.Scheduler.constructor | src/kernel/cpu/task.c:18-38 | One running task, pid 1, linked to itself. |
| Scheduler.Scheduler.Create | src/kernel/cpu/task.c:40-129 | The list stays a simple cycle headed by pid 1 and gains exactly the new node, ready, behind the head. |
| Scheduler.Scheduler.Switch | src/kernel/cpu/task.c:142-203 | The nodes become those of the switch function, the cycle is untouched, and the pointer returned is the one the chosen task saved. |
| Scheduler.Scheduler.Exec | src/kernel/cpu/syscall.c:914-931 | SYS_EXEC: a child that names the caller, the caller parked with its frame, and the switch, in the code's order of updates; returns the stack pointer the chosen task last saved. |
| Scheduler.Scheduler.ExecElf | src/kernel/cpu/syscall.c:933-978 | SYS_EXEC_ELF, whose task is adopted after its creation, reaches the same state and returns the same way. |
| Scheduler.Scheduler.Exit | src/kernel/cpu/syscall.c:896-912 | SYS_EXIT, whose waking loop stops at the parent; returns the stack pointer the chosen task last saved. |
| Scheduler.Scheduler.EndLinux | src/kernel/cpu/syscall.c:177-214 | exit and exit_group, whose loop goes all the way round, wake the same tasks. |
| Scheduler.Scheduler.Sleep | src/kernel/cpu/syscall.c:1044-1051 | SYS_READ on an empty buffer puts the caller to sleep and switches; returns the stack pointer the chosen task last saved. |
| Scheduler.Scheduler.KeyPress | src/kernel/io/keyboard.c:69-79 | Exactly the sleeping tasks become ready. |
| Scheduler.Scheduler.TaskExec | src/kernel/cpu/task.c:297-363 | A successful task_exec leaves the same nodes in the same cycle, the loader's task unlinked and its directory and stack with the current task. |
| Scheduler.StepMovesResources | src/kernel/cpu/task.c:311-352 | Each step gives the directory and the stack it brings to the task it creates, or to the current one when that executes a program; every other task keeps its own. |
| Scheduler.StepKeepsOwned | src/kernel/cpu/task.c:311-352 | Every kind of step whose directory and stack are nobody's when it is taken leaves none with two tasks. |
| Scheduler.RunsKeepOwned | src/kernel/cpu/task.c:311-352 | So from boot on no page directory and no user stack ever belongs to two tasks, over runs of any length and rings of any size. |
| Paging.SplitKeepsPhys | src/kernel/cpu/paging.c:19-55 | Replacing an absent or 4MB entry by a page table leaves the translation of every address as it was. |
| Paging.PhysIsWalk | src/kernel/cpu/paging.c:66-79 | The translation is the processor's walk over the words: present bits, the 4MB bit and both indices. |
| Paging.SplitGrants | src/kernel/cpu/paging.c:23-52 | The new table's directory entry is its frame with the bits present, writable and user, its words too where it replaces a 4MB entry, and 0 where it replaces an absent one. |
| Paging.MapChangesOnePage | src/kernel/cpu/paging.c:58-63 | Mapping changes the translation of that page of that directory alone, also where a 4MB entry had to be split. |
| Paging.MappingWrites | src/kernel/cpu/paging.c:58-63 | The word a mapping writes is the frame's address with all twelve flag bits given. |
| Paging.KernelIsMapped | src/kernel/cpu/paging.c:81-88 | Whatever the frames hold, the kernel's directory maps each address below 256MB to itself and none above, present, writable and user. |
| Paging.OpIsolated | src/kernel/cpu/paging.c:58-112 | Each new directory, mapping or frame taken keeps all directories' tables apart and changes no translation but its own page's. |
| Paging.OpDoes | src/kernel/cpu/paging.c:58-112 | What each of these does besides: a new directory maps what the kernel's does, a mapping moves its page, a frame taken is the first free one and holds the bytes. |
| Paging.RunsIsolated | src/kernel/cpu/paging.c:81-112 | So along every run from the state paging_init leaves. |
| Paging.LeastUnusedIsLeast | src/kernel/core/pmm.c:10-19 | Every frame before the one allocated is taken. |
| PhysicalMemory.Physical.constructor | src/kernel/core/pmm.c:6-8 | Every frame is free. |
| PhysicalMemory.Physical.Alloc | src/kernel/core/pmm.c:10-19 | Takes the first free frame and no other; 0 and no change when there is none. |
| PhysicalMemory.Physical.Free | src/kernel/core/pmm.c:21-26 | Frees the one frame that holds the address and ignores addresses outside the pool. |
| PhysicalMemory.Physical.GetPageTable | src/kernel/cpu/paging.c:19-55 | Both creating paths give directory, bitmap and table words the state the model specifies; without create nothing changes. |
| PhysicalMemory.Physical.MapPage | src/kernel/cpu/paging.c:58-63 | Memory and directory become those with the one page mapped. |
| PhysicalMemory.Physical.GetPhys | src/kernel/cpu/paging.c:66-79 | Returns the translation, 0 for an unmapped address. |
| PhysicalMemory.InitKernelDir | src/kernel/cpu/paging.c:81-88 | Every address below 256MB translates to itself and none above, whatever the frames hold. |
| PhysicalMemory.NewPageDir | src/kernel/cpu/paging.c:102-112 | A fresh directory equal to the kernel's, with the same translation of every address. |
| PhysicalMemory.FreeUndoesAlloc | src/kernel/core/pmm.c:10-26 | Freeing the frame just allocated restores the bitmap. |
| ElfImage.ImageHolds | src/kernel/storage/elf.c:83-93 | The buffer holds for each address the file byte of the last segment that has one for it, else zero. |
| ElfImage.HeaderBytes | src/kernel/storage/elf.c:69-73 | A program header is the 32 bytes at its place: type, file offset, address and both sizes; skipped when cut off, of another type, or without memory. |
| ElfImage.BoundsAreMet | src/kernel/storage/elf.c:74-75 | The lowest address is some segment's start and the highest some segment's end. |
| ElfImage.LastCoverWins | src/kernel/storage/elf.c:83-93 | What that byte is, said without recursion over the segments. |
| ElfImage.LastHeaderWins | src/kernel/storage/elf.c:83-93 | Of the program headers the last with file data for an address decides its byte; where none has any it is zero. |
| ElfImage.ImageIsLoaded | src/kernel/storage/elf.c:123-136 | Every address from the lowest segment to the page-rounded top reads through the directory as that byte, and no address outside has moved. |
| ElfImage.FramesOfTheirOwn | src/kernel/storage/elf.c:123-136 | No two pages of the program share a frame, and each has one that was free before and holds no page table. |
| ElfImage.ProgramIsGranted | src/kernel/storage/elf.c:123-136 | Every page of the loaded program is present, writable and open to user mode. |
| ElfImage.BootHasFrames | src/kernel/storage/elf.c:117-136 | With all frames free and a new directory there are frames enough for any program of at most 4096 pages. |
| ElfLoader.Measure | src/kernel/storage/elf.c:67-76 | The first pass finds the lowest and the highest address of the loadable segments. |
| ElfLoader.FillImage | src/kernel/storage/elf.c:78-93 | The second pass, reading from the volume, fills the buffer with the image of those segments. |
| ElfLoader.LoadPages | src/kernel/storage/elf.c:123-136 | The last loop leaves memory and directory as the page-by-page specification does. |
| ElfLoader.IsElfBytes | src/kernel/storage/elf.c:56-64 | A file is accepted if and only if it has a whole header with the magic and machine 3. |
| ElfLoader.EntryField | src/kernel/storage/elf.c:101 | The entry point is the word at byte 24. |
| ElfLoader.HeaderFields | src/kernel/storage/elf.c:68-71 | The program headers begin at the word at byte 28 and are as many as the half word at 44 says. |
| ElfLoader.LoadFile | src/kernel/storage/elf.c:48-140 | Accepts exactly whole i386 ELF headers; then the directory, entry point and break are those of the program its headers describe. |
| NoanStack.SpansAreTokens | src/kernel/storage/noan.c:170-178 | The splitting rule yields longest runs of non-blank bytes, in order. |
| NoanStack.SpansFindAll | src/kernel/storage/noan.c:170-178 | It passes over none: each token is found or lies behind the last of as many as were wanted. |
| NoanStack.ArgumentsAreTokens | src/kernel/storage/noan.c:162-178 | The arguments are the tokens of the command's first 127 bytes, all of them or the first sixteen. |
| NoanStack.Tokenise | src/kernel/storage/noan.c:170-178 | The pointer loop cuts exactly those tokens out of the buffer, each ended by a NUL. |
| NoanStack.CopyStrings | src/kernel/storage/noan.c:186-199 | The strings stand below the top of the stack one behind the other, and the pointers are their addresses. |
| NoanStack.PushWords | src/kernel/storage/noan.c:201-220 | Return address, argc, argv, the pointers and NULL stand at the final stack pointer, and nothing above has changed. |
| NoanStack.BuildStack | src/kernel/storage/noan.c:162-220 | At the final stack pointer, word-aligned and inside the 4096 bytes, argc and argv decode to the first 16 blank-separated tokens of the first 127 bytes of the command line; the strings do not overlap. |

## Left out

- Paths.CreateChanges: asks for plain names behind the first missing directory; behind .. a creation can add further entries to the directories that are there.
- Paths.CreationAndOtherPaths: asks for the same.
- Arrival.CreateThenFind: asks for the same and for room; Stages.StagedCreateThenFind covers the other names, and FileLaws.CreateMakesFile says without any of it what a creation does to the files.
- FileOps.CopyReadsAsSource: asks for room, for free clusters and for a source that has the clusters its size needs; the code reports nothing when they are missing.
- Moves.ShadowedMoveUndone: asks that no directory is missing; else what rm finds is the new directory.
- FileOps.RemoveByName: covers files; a name that leads to a directory is Removals.RemoveDirectory.
- FileCalls.InstallFile: asks that the entry it removes first is no directory in use.
- FileRuns.StepIsSound: a step removes no directory in use, the exact condition FileRuns.RemoveIsSound and Hierarchies.CarefulIsHarmless give; what follows once one was removed is not modelled.
- HeapMemory.KernelHeap.Kmalloc: asks for requests below 2^32 - 3, as larger ones round to a wrapped size.
- HeapMemory.KernelHeap.Kfree: asks for NULL or an address that kmalloc returned and nobody has freed since.
- WaitProtocol.RunsKeep: asks that each switch has a runnable task among the hundred behind the current one, which WaitProtocol.BoundIsMet shows to fail in a long session.
- ElfLoader.LoadFile: takes the file as its cluster chain, the path being resolved before, asks that segments do not wrap, have no more file bytes than memory, and start with the lowest on a page boundary, and that task_create and kmalloc succeed.
- ElfImage.ImageIsLoaded: asks for frames enough; without, the code skips pages silently.
- Scheduler.Scheduler.Create: takes its three allocations as granted; the failure paths that free what was taken, the first frame on the kernel stack and the table of open files are not modelled.
- Formatting.Format: does not model the read-back of the root cluster, whose result is only printed.
- Formatting.FormattedRuns: new directories arise as missing components of paths; `fat32_mkdir` is not modelled.
- The free scan is bounded by total sectors instead of data sectors; drives are taken to be large enough to hold every cluster it can return.
- Components of 64 bytes and more, which the code copies past its 64-byte buffers.
- kmalloc failure and disk errors inside the file system, whose results the code drops.
- Directories of more than one cluster, which the code never grows; ls, echo, cat, stat and getdents64.
- waitpid, fork and copy-on-write directories; brk, mmap and the stat stubs; task_kill_current.
- The iret frame and other contents of kernel stacks; a task's saved stack pointer is a number.
- Serial output, keyboard tables, interrupt and segment setup, the TLB flush and control registers.
- Frames hold either a table or data in the model; a kernel write through a physical address to a frame of the other kind is not expressed.
- Command line contents after the shell, the initrd archive, the vim editor, the installer's dialogue.
- Range checks on user pointers.
