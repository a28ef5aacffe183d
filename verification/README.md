# aufs: a verified model of the driver and its formatter

aufs is a small MINIX-style file system: a kernel driver (`kern/`) and a formatter (`user/`). The
two programs meet only on the device, and each computes the layout with its own formulas. This
project models the parts of both that hold the state: bitmaps, zone allocation, the map from file
blocks to device blocks, inode records, directories, the namespace, the formatter's bit iterator,
allocators and block cache. It proves what they keep over whole runs.

`dafny verify dfyconfig.toml` checks everything.

## How it is organised

Code that updates state in place is modelled by classes and methods over arrays, sequences and maps.
Each such method is proved against a specification function, and the theorems about runs are lemmas
about those functions.

| module | what it holds |
|---|---|
| `Numbers`, `Endian`, `PackedBits`, `Options` | machine integers, big-endian words, bits packed in bytes |
| `FirstFit`, `MapBlocks` | first-fit allocation on flat bits, and a map of many blocks as one flat map |
| `ZoneProtocol` | any number of threads inside the zone allocator |
| `KernelBitmap`, `ShortScan` | the kernel's allocators over map buffers, and the 16-bit indexed bit search |
| `BitIterator`, `Formatter` | the formatter's iterator, map filling, and the root's allocations |
| `Layout` | what the formatter and the kernel each think is where |
| `InodeTable`, `Metadata`, `MapBytes` | the 64-byte inode record; zone map and inode table as bytes of the device, write-back and mount; map buffers against map blocks |
| `FileStore`, `Persistence` | file blocks on the shared device, with both maps, the inodes, the superblock and dirty marks; what a remount restores |
| `Damage` | which stores and which filled pointers a remount does not survive |
| `FileRuns`, `Conservation`, `Refinement`, `FileCapacity`, `Creation` | runs of file operations: the invariant, conservation of zones, independence of files, when a run is starved, and which inode numbers creations use |
| `FileVolume` | the mounted object: both maps as buffers, with write-back and mount |
| `BlockCache` | the formatter's write-back cache against a plain disk |
| `DirectoryEntries`, `DirectoryHoles`, `Directory`, `RootDirectory` | directory slots: specification and theorems, the same for slots with holes, the paged loops, and the block that the formatter writes |
| `Namespace`, `NamespaceEffects`, `NamespaceOps` | mkdir, mknod and tmpfile as steps: the tree theorem, what each achieves and when, and the operations with their undo paths |
| `StoredDirectories`, `StoredTree`, `StoredFiles` | directories as blocks of `FileStore`, the namespace and the volume as one system, and the files in it |
| `WholeSystem` | formatting followed by mounting, on one device |
| `StarvedDevice`, `FailingInputs` | an input for each case in which the code does not do what it is for; those that need a full device are reached by runs from the formatter on |

## Main results

- **Files are independent, across remounts.** For every covered run of creations, changes, block writes, block
  reads, write-backs and remounts on any number of inodes, each read returns the last write to its own (inode, file
  block) and nothing else in the data region changes. A remount writes the dirty map blocks and inode records into
  the metadata blocks and rebuilds memory from block 0 on. A run is covered if fields fit the record; file blocks lie
  within nine zones or are refused; a read or write that fills a pointer leaves its inode marked, or finds it dirty; and
  there is always a zone. The last of these is decided before the run: the zones it names that nobody owns must be no
  more than the zones free at the start, and this is exact.
- **The tree is on the device.** Namespace operations take numbers in the volume's inode map and store their entries
  in directory blocks, with file operations, write-backs and remounts between them. After every covered run a further
  remount finds on the device exactly the directories of the namespace, and they form a tree. This holds from the
  formatter on.
- **A remount loses nothing exactly when the state is intact**: the superblock decodes as before, every clean block of
  both maps and every clean record on the device agrees with memory, and every dirty inode fits its record. Storing a
  block is harmless, whatever is stored, exactly when no mount reads it back; a read or write that finds a zone
  is harmless exactly when its pointer was set, its inode is marked or dirty, or no zone was free.
- **Zones and inode numbers are conserved** over every run, starved or not, whose remounts meet an intact state; they do
  when nothing before them did harm. On a formatted device the accounts are exact: the bits set are bits 0 and 1, the
  reserved tail, and those of the zones that a pointer holds.
- **The concurrent zone allocator is linearizable and wait-free.** Any interleaving, with one atomic
  step per locked map block, equals a sequence of atomic first-fit allocations in the order of the returns, one
  per call.
- **The namespace is a tree** after every run of mkdir, mknod and tmpfile, with every failure of preparing and of
  committing a directory block: one path per number, every live directory reachable, `..` naming the holder, exact
  link counts, and numbers that are never taken twice. When each operation succeeds, and with which error it fails,
  is exact, and what was created is found under its name ever after. Every entry names a live inode exactly when no
  commit failed.
- **Directories refine a name-to-number map**, and a listing resumed any number of times between appends
  always shows a prefix of the live entries.
- **The block cache refines a plain disk** for every sequence of client operations.
- **The two programs agree on one device**: superblock, maps, root inode and root directory as the formatter writes
  them are what the kernel reads, with an exact condition wherever they can differ.

## Where the code does not do what it is for

The model follows the code. Each case has a lemma with the exact condition, and an input on its failing side.

- A full zone map makes `aufs_get_block` map file blocks onto the first blocks of the device, the same ones
  for every file, and report success (`FileStore.GetBlockReachesDataWhen`, `StarvedDevice.StarvingRun`). A write there
  is harmless exactly when the block is not read back (`FileRuns.StarvedWriteIsHarmlessWhen`). Otherwise the file block
  decides what is lost at the next mount: the superblock, the zone map, the inode map, or records, the root directory's
  among them (`StarvedDevice.StarvedWriteThenRemount`).
- A mount that reads another magic number crashes: the failed read returns a null pointer, and `aufs_fill_sb`
  reads through it before it tests it (kern/super.c:159-164; `Persistence.MountCrashesWhen`,
  `StarvedDevice.SuperIsLost`). Unmounting marks the superblock buffer dirty although the mount has released it
  (kern/super.c:13, 75); if it is still there, it is written over whatever a starved write put into block 0
  (`StarvedDevice.ContentsAreLost`).
- The driver does not mark an inode dirty when it fills one of its pointers. Unless something else does, the zone
  is lost at the next mount (`FileRuns.ReadIsHarmlessWhen`, `FileRuns.WriteIsHarmlessWhen`, `StarvedDevice.UnmarkedReadRun`).
- The pointer array is read before the index is tested, so a file block past nine zones is refused only if
  the word found there is 0 (`FileStore.PastEndIsRefusedWhen`, `FailingInputs.PastEndIsMapped`). The index is 32 bits wide and wraps
  (`FileStore.FarBlocksAlias`).
- Zone numbers pass through `int` and are right exactly below 2^31 (`Layout.ZoneNumberExactWhen`, `FailingInputs.NegativeZone`).
- For zone sizes below 4096 the kernel looks for inodes beyond the first inode block in the wrong place,
  because it derives the block size from a field that it has not loaded yet (`Layout.InodeAddressAgreesWhen`, `FailingInputs.InodeEightMoves`).
- The maps are read before the block size is set (`WholeSystem.MapBlockIsReadWhen`, which has its failing device).
- The superblock's zone-map count is filled from the inode-map count (`Layout.ZoneMapWordAgreesWhen`, `FailingInputs.MapIsCutShort`).
- The formatter's device check forgets the metadata and computes a 32-bit product
  (`Layout.CheckedDeviceIsTooSmall`, `Layout.DeviceCheckIsExactWhen`, `FailingInputs.CheckAsksForNothing`).
- Formatter and kernel put zone 1, the root directory's, at different blocks unless there is room for one more
  zone before the alignment boundary (`Layout.RootZoneIsKernelZoneOneWhen`, `FailingInputs.ZoneOneMoves`). This is harmless,
  since no later zone meets either place (`Layout.RootZoneIsApart`).
- `AllocateZones` never terminates when the first free run is too short and ends at a set bit
  (`Formatter.DivergesMeansNeverStops`, `FailingInputs.ShortRunDiverges`). The end iterator adds bits to a byte pointer, so with no reserved
  tail the search reads past the map (`Formatter.RootScanStaysInsideWhen`, `FailingInputs.FullMapIsOverrun`).
- `advance` is wrong exactly when the offset plus the distance is negative (`BitIterator.AdvanceExactWhen`, `FailingInputs.StepBackMisses`).
- `IsPowerOfTwo` accepts 0 (`Layout.IsPowerOfTwo`, `FailingInputs.ZeroIsNoPower`); the size check beside it excludes that.
- The 16-bit indexed search is right exactly for multiples of 16 (`ShortScan.ScanIsExactWhen`, `ShortScan.SmallSizeFails`,
  `ShortScan.OddSizeFails`); its callers pass nothing else.
- The append's duplicate check stops at the first empty slot (`DirectoryEntries.DuplicateIsSeenWhen`, `FailingInputs.HiddenDuplicate`); reachable
  directories have none (`DirectoryEntries.ReachableHasNoHoles`).
- An append whose commit fails reports the error and leaves its entry; mkdir and mknod then drop the inode that
  the entry names (`Namespace.FailureUndoesWhen`, `Namespace.EntriesAreLiveWhen`, `FailingInputs.FailedCommitLeavesEntry`).
- `minix_mknod` reads through a null pointer exactly when no inode is to be had (`Namespace.MkNodOopsWhen`, `FailingInputs.CreateOnFullMap`).
- The inode record holds 32-bit sizes and counts and 16-bit owners (`InodeTable.RoundTripExactWhen`, `FailingInputs.OwnerIsLost`).

## Model

| member | source | states |
|---|---|---|
| `Refinement.FilesAreIndependent` | kern/inode.c:25-51 | Over every covered run of creations, changes, writes, reads, write-backs and remounts, the device refines independent per-file maps: each read returned the last write to its own (inode, file block), else what the device first held there, every other block of the data region is as at the start, no location moved, and the final state would survive a remount |
| `Refinement.WrittenIsRead` | kern/inode.c:41-51 | In every covered run a read returns what was last written to its own file block, with any operations but a write to it between, remounts included |
| `Refinement.UnwrittenIsRead` | kern/inode.c:41-51 | A read of a file block that no operation has written returns what the device held at the start in the block that it is mapped to |
| `Refinement.ChangedIsFound` | kern/inode.c:90-116 | The fields of an inode are those of the last change, through write-backs and remounts |
| `Refinement.MetadataIsOnlyWrittenBack` | kern/inode.c:34-51 | After every covered run the records of unused numbers are as at the start, the superblock decodes as it did, and a remount, whether or not the superblock buffer is still there, restores both maps and every live inode |
| `FileStore.LocIsInjective` | kern/inode.c:34-51 | In every state with the invariant, (inode, file block) to device block is injective, contiguous inside a zone, and above all metadata |
| `Refinement.LocIsStable` | kern/inode.c:41-51 | In every covered run, remounts included, the location of a file block is the same in all states after it is assigned |
| `FileStore.GetBlockKeepsInv` | kern/inode.c:25-51 | Every call, also a failing one or one on a full map, keeps the invariant: pointers are the root zone or zones with set bits, and no two are equal |
| `FileStore.GetBlockMaps` | kern/inode.c:34-51 | A call whose pointer is set or that finds a free zone returns the file block's location and disturbs no other pointer |
| `FileStore.GetBlockReachesDataWhen` | kern/inode.c:41-51 | Within nine zones the call always succeeds, and it reaches the data region if and only if the pointer is set or a zone is free; otherwise it names one of the first blocks of the device |
| `FileStore.PastEndIsRefusedWhen` | kern/inode.c:41-49 | Past nine zones EIO is returned if and only if the 32-bit index is past the array and the word read there is 0 |
| `FileStore.PastEndMapsTo` | kern/inode.c:41-51 | Any other word read there is taken for a zone, at the offset of the file block |
| `FileStore.FarBlocksAlias` | kern/inode.c:15-35 | File blocks 2^32 zones apart are mapped alike, because the index is 32 bits wide |
| `FileStore.SizeIsRefusedWhen` | kern/inode.c:25-32 | A buffer size is refused with EIO, and nothing changes, if and only if it is larger than a zone or does not divide it |
| `FileStore.MappedInBuffers` | kern/inode.c:34-51 | For any other size a set pointer is reached with index and offset counted in buffers of that size |
| `Conservation.ZonesAreConserved` | kern/inode.c:41-50 | Over every run whose remounts meet an intact state, starved or not, the map gains exactly one set bit per pointer gained, every newly set bit has a pointer, no bit is cleared, no zone has two owners, and every inode gained has a number that was free and is taken |
| `Conservation.HarmlessRunsRestore` | kern/super.c:50-103 | Remounts meet an intact state if no operation before them did harm: no store into a block that is read back, no field that does not fit, no filled pointer of an inode that stays clean |
| `FileRuns.HarmlessRunsAreGood` | kern/inode.c:25-51 | Every run of harmless operations keeps the whole volume invariant, so each remount in it loses nothing |
| `Persistence.RemountRestoresWhen` | kern/super.c:9-103 | Writing back what is dirty, the superblock buffer too if it is held, and reading superblock, both maps and inodes again brings the volume up with all bits, pointers and other fields as they were if and only if the state is intact |
| `Persistence.MountCrashesWhen` | kern/super.c:105-164 | The mount reads through a null pointer if and only if the superblock that it reads has another magic number |
| `Persistence.MapsFoundWhen` | kern/super.c:87-102 | A mount finds both maps as memory had them if and only if every block was written back with bit 0 set or the device still agreed with it |
| `Persistence.InodeFoundWhen` | kern/inode.c:90-116 | A mount finds an inode as memory had it if and only if its mode is in 0x4000-0x4fff or 0x8000-0x8fff and it was written back and fits, or the device still agreed with it |
| `Persistence.SyncKeepsMaps` | kern/bitmap.c:29-31 | If the maps were kept, then after a write-back the device agrees with both of them |
| `Persistence.SyncKeepsInodes` | kern/inode.c:90-116 | If the inodes were kept, then after a write-back the device agrees with every one of them |
| `Damage.StoreIsSafeWhen` | kern/super.c:50-103 | In an intact state, storing a block leaves it intact whatever is stored if and only if the block is no metadata or is written over before the next mount |
| `FileRuns.ReadIsHarmlessWhen` | kern/inode.c:41-46 | On a good volume a read within nine zones leaves an intact state if and only if it leaves its inode marked, its pointer was set, no zone was free, or its inode was dirty |
| `FileRuns.WriteIsHarmlessWhen` | kern/inode.c:41-46 | The same for a write that finds or is given its zone |
| `FileRuns.StarvedWriteIsHarmlessWhen` | kern/inode.c:45-51 | A write that finds no zone leaves an intact state whatever is written if and only if the block it goes to is not read back |
| `Metadata.SyncedRecord` | kern/bitmap.c:136-145 | After a write-back of any records and map blocks, each record written is in its place and every other record is as it was |
| `Metadata.SyncedMap` | kern/super.c:87-94 | Each map block written holds what was written, and every other one what it held |
| `Metadata.UnpackPack` | kern/super.c:89-94 | Map bits written as bytes are read back as the same bits |
| `FileCapacity.CoveredWhen` | kern/bitmap.c:20-41 | A run is covered if and only if each operation is addressable and the zones it uses and nobody owns at the start are at most the zones free at the start; both are known before the run |
| `FileCapacity.RunOwns` | kern/inode.c:41-46 | A covered run owns exactly the pointers owned at the start and those its operations use |
| `FileCapacity.ZonesGained` | kern/inode.c:41-50 | Over any conserving run the pointers gained are as many as the zones no longer free |
| `FileVolume.Volume.MapBlock` | kern/inode.c:10-62 | The in-place mapping of a file block has exactly the effect and result of the specification, allocation in the map buffers included |
| `FileVolume.Volume.AllocateInto` | kern/inode.c:43-46 | An empty pointer receives the first free zone, or stays 0 on a full map |
| `FileVolume.Volume.CreateInode` | kern/bitmap.c:63-106 | A new inode takes the first free number of the map buffers, has nine empty pointers and is marked dirty, and no other inode changes |
| `Creation.NumberIsUsableWhen` | kern/aufs.h:89-100 | A number above 0 gets an inode if and only if its 64 bytes end inside the block and its block lies in the table, stated by arithmetic on the configuration |
| `Creation.FreeNumbersAreUsable` | kern/aufs.h:89-100 | For zone sizes of at least 4096 the numbers that have a bit and can be used are exactly those that the formatter leaves free and the root's |
| `Creation.NumbersForAllZones` | user/block.hpp:92-101 | There is a number for every zone, as far as one map block goes, and less than a block of the table more |
| `Creation.FormattedCreations` | kern/bitmap.c:63-106 | On a formatted device `n` creations leave exactly the inodes 1 to `n` + 1, until the map is full; each has the fields it was created with and nine empty pointers |
| `FileVolume.Volume.RemountVolume` | kern/super.c:9-103 | Writing every dirty buffer and record, and the superblock buffer if it is held, to the device, and reading superblock, map buffers and inodes from it again, is the specification's remount |
| `FileVolume.Volume.SyncVolume` | kern/inode.c:90-116 | The write-back of the dirty buffers of both maps and of the dirty inodes, block by block, is the specification's write-back |
| `FileVolume.Volume.Reload` | kern/super.c:65-110 | The mount decodes the superblock and builds both maps and the inodes from the device alone, or does not come up |
| `FileVolume.WriteRecords` | kern/inode.c:90-116 | Patching each record into its block, in any order, gives the device with all of them written |
| `FileVolume.WriteMap` | kern/bitmap.c:31 | Each dirty buffer of a map, and no other, is written to its block |
| `FileVolume.ReadMap` | kern/super.c:84-102 | The buffers of a map hold the device's blocks from its first one on, with bit 0 set |
| `FileVolume.ReadInode` | kern/inode.c:180-233 | An inode is decoded from its place and refused if it is neither file nor directory |
| `Metadata.InodeIsReadWhen` | kern/inode.c:218-233 | A record is read if and only if its mode is in 0x4000-0x4fff or 0x8000-0x8fff, whatever the permissions |
| `MapBytes.BufferRoundTrip` | kern/super.c:89-94 | A map buffer written and read again has the same bits |
| `MapBytes.BitsAreByWeight` | kern/super.c:89-94 | The byte stored for a buffer word is the same number, and bit `i` of a map is the bit of weight `i` mod 8 of byte `i` / 8 |
| `FileVolume.Volume.WriteBlock` | kern/inode.c:10-62 | A block write is the specification's write step |
| `FileVolume.Volume.ReadBlock` | kern/inode.c:10-62 | A block read is the specification's read step, and yields its answer |
| `ZoneProtocol.EveryInterleavingIsSequential` | kern/bitmap.c:20-41 | Under any interleaving of any number of threads, map and returned zones are those of the atomic first-fit allocator called in the order of the returns |
| `ZoneProtocol.NextKeepsInv` | kern/bitmap.c:25-39 | Every atomic step keeps the simulation, and a thread past a block has seen it full for good |
| `ZoneProtocol.NoZoneReturnedTwice` | kern/bitmap.c:20-41 | Later returns carry strictly larger zones, each was free at the start, and the bits set are exactly the initial and the returned ones |
| `ZoneProtocol.ReturnsNothingOnlyWhenFull` | kern/bitmap.c:27-41 | At the moment a thread returns 0 every map block is full |
| `ZoneProtocol.ReturnsAreConsecutive` | kern/bitmap.c:20-41 | From a formatted map the k-th return of any interleaving is the k-th free number, and nothing once the reserved tail is reached |
| `ZoneProtocol.EveryThreadReturns` | kern/bitmap.c:20-41 | A thread returns after one own step per remaining map block plus one, whatever the others do |
| `ZoneProtocol.EveryCallReturns` | kern/bitmap.c:20-41 | A thread that enters has returned after one own step per map block plus one, whatever the others do |
| `ZoneProtocol.OneReturnPerCall` | kern/bitmap.c:20-41 | In every run each call of a thread has returned once or is still inside, and there are no other returns |
| `ZoneProtocol.CallsAreAllocations` | kern/bitmap.c:20-41 | Calls made one after the other return, in order and each to its caller, exactly the results of as many atomic first-fit allocations |
| `KernelBitmap.BlockMap.Scan` | kern/bitmap.c:64-72 | The search finds the first map block that is not full and its least clear bit, or that all are full |
| `KernelBitmap.BlockMap.NewZone` | kern/bitmap.c:14-42 | The multi-block scan is first fit on the flat map; the result is that zone's block number through two `int` conversions, or 0 with nothing changed |
| `KernelBitmap.BlockMap.NewInode` | kern/bitmap.c:60-97 | The number is the least free bit of the whole map; bit 0 is no number and is lost |
| `MapBlocks.ScanFindsFirstFree` | kern/bitmap.c:26-37 | Skipping full blocks and taking the first clear bit of the next is the least clear bit of the whole map |
| `FirstFit.ShapeRun` | kern/bitmap.c:63-97 | From "full prefix, free middle, reserved tail" any number of attempts hands out consecutive numbers up to the tail, then nothing, and keeps the shape |
| `FirstFit.RunSetsWhatItHandsOut` | kern/bitmap.c:26-32 | From any map, the bits set are exactly those set before or handed out, and each handed-out bit was clear |
| `FirstFit.RunIncreases` | kern/bitmap.c:26-37 | Numbers handed out strictly increase, and no success follows a failure |
| `ShortScan.FindFirstZeroBit` | kern/minix.h:32-49 | For every size and every buffer that the loop stays inside of, the least index whose bit test is false, but no further than the words that the shifted and wrapping count lets it read |
| `ShortScan.ScanIsExactWhen` | kern/minix.h:37-48 | That is the least clear bit below the size, or the size, on every buffer, if and only if the size is a multiple of 16 |
| `ShortScan.FullWord` | kern/minix.h:41-62 | A word equals 0xffff if and only if the bit test holds for all sixteen positions |
| `Layout.InodeAddressAgreesWhen` | kern/aufs.h:89-100 | Formatter and kernel put an inode at the same block and offset if and only if the zone size is at least 4096 or the number is in the first inode block |
| `Layout.InodeSlotsAreDisjoint` | user/format.cpp:201-213 | For zone sizes of at least 4096, every number that the map leaves free has its record inside the table and inside one block, and records never overlap |
| `Layout.RootZoneIsApart` | user/format.cpp:228 | The root zone lies above the metadata and below every zone the kernel can issue, for every accepted configuration |
| `Layout.RootZoneIsKernelZoneOneWhen` | kern/bitmap.c:37 | The two formulas for zone 1 agree if and only if the extra zone inside the kernel's round-up stays before the alignment boundary |
| `Layout.ZonesAreDisjoint` | kern/bitmap.c:37 | Different zones are disjoint block ranges in the order of their numbers |
| `Layout.ZonesAboveMetadata` | kern/bitmap.c:37 | Every zone starts at least one zone above the metadata |
| `Layout.ZoneNumberExactWhen` | kern/bitmap.c:32-37 | All block numbers below a limit survive the conversions to `int` if and only if the last one is below 2^31 |
| `Layout.ZonesFitWhen` | kern/bitmap.c:37 | All zones lie on the device if and only if it has room for them and the base |
| `Layout.CheckedDeviceIsTooSmall` | user/mkfs.cpp:31-39 | A device no larger than the formatter's check asks for never holds the last zone |
| `Layout.DeviceCheckIsExactWhen` | user/mkfs.cpp:35 | The size compared is the true one if and only if it is below 2^32 |
| `Layout.ZoneMapWordAgreesWhen` | user/format.cpp:185-186 | From the words on the device the kernel learns the true zone-map size, and the true extent of the metadata, if and only if both maps have the same size |
| `Layout.MountReadsFormat` | kern/super.c:33-48 | A first mount of a formatted device reads back every word of the configuration |
| `Layout.FormattedWordsAre` | kern/aufs.h:20-29 | Each word of the formatted superblock, by its byte offset |
| `Layout.SuperFieldsAre` | kern/super.c:33-48 | Each field of the kernel's superblock by the byte offset that it is read from, and what is computed from the zone size |
| `Layout.SuperBlock.Fill` | kern/super.c:33-48 | The assignments in source order give the decoded superblock, with inodes per block derived from the zone size held before |
| `Layout.FillSuper` | user/format.cpp:166-188 | Each of the seven words reads back as the value stored, and the rest of the block is unchanged |
| `Layout.IsPowerOfTwo` | user/mkfs.cpp:41-48 | True if and only if the argument is a power of two or 0 |
| `Layout.AcceptedSizes` | user/mkfs.cpp:50-62 | Accepted zone sizes are 512, 1024, 2048 and multiples of 4096, and both programs then agree on blocks per zone |
| `Numbers.RoundUpIsLeastMultiple` | user/block.hpp:75-90 | The alignment step gives the least multiple that is not below its argument |
| `Formatter.AllocateZones` | user/format.cpp:142-164 | Over packed bytes and the over-long end, the loop has exactly the effect and outcome of the run-allocation specification |
| `Formatter.AllocateRunIsFirstFit` | user/format.cpp:147-157 | Allocation succeeds if and only if the first free run is long enough; it then returns the least free index and sets exactly the bits of the run |
| `Formatter.DivergesMeansNeverStops` | user/format.cpp:148-157 | The outcome is divergence if and only if the loop is still running after any number of passes |
| `Formatter.AllocateInode` | user/format.cpp:124-140 | Takes the least clear bit, or terminates when there is none |
| `Formatter.FillMap` | user/format.cpp:190-213 | Whatever the block held, exactly the numbers from 1 up to the limit are free afterwards, and bytes after the map are untouched |
| `Formatter.Maps.constructor` | user/format.cpp:116-122 | Both maps have the formatted shape with the limits of the configuration |
| `Formatter.Maps.MkRootDir` | user/format.cpp:220-228 | Both allocation assertions hold for every accepted zone size, and bit k ends clear if and only if k is from 2 up to the limit |
| `Formatter.RootScanStaysInsideWhen` | user/format.cpp:144-150 | The search for the end of the root's run stays inside the map if and only if there is a reserved tail |
| `BitIterator.AdvanceExactWhen` | user/bit_iterator.hpp:111-124 | Advance lands the given distance away if and only if offset plus distance is not negative |
| `BitIterator.AdvanceIsRepeatedStep` | user/bit_iterator.hpp:93-124 | There it equals the repeated increment or decrement, in either direction |
| `BitIterator.DifferenceInvertsAdvance` | user/bit_iterator.hpp:157-160 | Difference undoes advance, and advance by a difference undoes the subtraction |
| `BitIterator.OrderMatchesIndex` | user/bit_iterator.hpp:126-154 | Order and equality of iterators are those of flat bit indices |
| `BitIterator.Find` | user/format.cpp:129-150 | A search between two iterators stops at the least flat index that holds the value, or at the end |
| `BitIterator.Fill` | user/format.cpp:195-212 | A fill over a range changes exactly those flat bits, also inside shared bytes |
| `PackedBits.AssignIsExact` | user/bit_iterator.hpp:25-38 | Assigning through a bit reference changes that bit and no other bit of the byte |
| `PackedBits.StoreBitIsPointUpdate` | user/bit_iterator.hpp:25-38 | Storing a bit in packed bytes is a point update of the flat bits |
| `InodeTable.UpdateInode` | kern/inode.c:90-116 | Write-back replaces the inode's own 64 bytes by its big-endian record and no others |
| `InodeTable.FillInode` | kern/inode.c:64-85 | Reading field by field gives the decoded record |
| `InodeTable.RoundTripExactWhen` | kern/inode.c:64-116 | A record restores an inode if and only if its fields fit: 32-bit pointers, blocks and size, owners below 65536 |
| `InodeTable.DecodeEncode` | kern/inode.c:64-116 | For every inode, exactly what comes back: low 32 bits, overflow owners, and mode and ctime unchanged |
| `InodeTable.ReadBack` | kern/inode.c:64-116 | The same field by field, in numbers: words modulo 2^32, owners above 65535 as 65534 |
| `InodeTable.TailWords` | kern/aufs.h:31-44 | Each field of the record by its byte offset |
| `Metadata.WriteInodeIsLocal` | kern/bitmap.c:123-147 | Writing one inode puts its record in its own place and leaves every other record as it was |
| `Metadata.WriteAllKeepsLast` | kern/inode.c:90-116 | After any sequence of write-backs each place holds the last record for its number |
| `Metadata.RereadRestoresWhen` | kern/inode.c:164-233 | A fresh read returns the inode last written if and only if it fits the record and its mode is in 0x4000-0x4fff or 0x8000-0x8fff |
| `Metadata.WriteAllStaysInTable` | kern/aufs.h:89-100 | No write-back of inodes changes a block outside the inode table |
| `BlockCache.Replay` | user/block.cpp:29-64 | For every sequence of get, read, write, drop and sync, every answer shows the bytes last stored in the block that the handle was opened with, on top of what the device held at the start, and after a final sync so does the device |
| `BlockCache.Perform` | user/block.cpp:29-64 | Each client operation is the same operation on the plain disk |
| `BlockCache.PlainAnswers` | user/block.cpp:29-47 | On the plain disk a read through a handle answers with the bytes last stored in its number, through whichever handle |
| `BlockCache.PeekIsGet` | user/block.hpp:135-143 | Looking through a handle shows what opening its number again would show, and changes nothing |
| `BlockCache.PokeShows` | user/block.hpp:135-138 | A store through one handle is seen through every handle of its number, in one byte, and through no other |
| `BlockCache.DropShows` | user/block.cpp:58-62 | Giving up a handle keeps the numbers of the others in order, and the disk |
| `BlockCache.Cache.GetBlock` | user/block.cpp:29-47 | The block holds the latest contents, is the one object clients already hold for that number, and nothing is lost by the eviction it may cause |
| `BlockCache.Cache.Fetch` | user/block.cpp:37-46 | A miss leaves the abstract disk as it was, also when room is made first |
| `BlockCache.Cache.Sync` | user/block.cpp:49-64 | Afterwards the device equals the abstract disk, the disk is unchanged, and exactly the blocks that clients hold stay cached |
| `BlockCache.Cache.Flush` | user/block.cpp:58-62 | Writing one block out and dropping it if unshared leaves the abstract disk as it was |
| `BlockCache.Cache.ReadBlock` | user/block.cpp:66-72 | A new object with the device's contents |
| `BlockCache.Cache.Poke` | user/block.hpp:135-138 | A store through a client's reference changes one byte of that block and no other block |
| `BlockCache.OneObjectPerNumber` | user/block.cpp:33-46 | Two client references to the same number are the same object |
| `Directory.Dir.FindEntry` | kern/dir.c:122-166 | The page and slot loops find the first matching slot in use of the whole directory |
| `Directory.Dir.InodeByName` | kern/dir.c:385-401 | The number in that slot, or 0 |
| `Directory.Dir.SearchSlot` | kern/dir.c:188-220 | The append's search always decides: the crash after the loop is unreachable for every directory size, exact page multiples included |
| `Directory.Dir.WriteEntry` | kern/dir.c:228-231 | One slot becomes the entry, every other slot is kept, and the error of the commit is returned with the entry in place |
| `Directory.Dir.CommitChunk` | kern/dir.c:64-81 | The size grows exactly when the chunk reaches past it, also when the commit reports an error |
| `Directory.Dir.Link` | kern/dir.c:168-241 | The whole append has exactly the effect and result of its specification, with errors before and after the entry is stored |
| `Directory.Dir.MakeEmpty` | kern/dir.c:243-276 | A new directory holds the two dot entries, also when their commit fails, and nothing when preparing the block failed |
| `Directory.Dir.ReadDir` | kern/dir.c:314-363 | The listing emits and advances as its specification says, from any position and for any emitter |
| `DirectoryEntries.NameCompareIsEquality` | kern/dir.c:97-103 | On any slot, whatever follows the NUL, a name of 1 to 60 bytes without NUL compares equal if and only if it is the name that the slot shows |
| `DirectoryEntries.DecodeEncode` | kern/dir.c:228-230 | An entry is listed under the name and number it was written with |
| `DirectoryEntries.DuplicateIsSeenWhen` | kern/dir.c:200-216 | In any directory, a duplicate is reported if and only if a matching slot precedes the first empty one |
| `DirectoryEntries.SearchDecides` | kern/dir.c:200-216 | Without empty slots it is reported if and only if the name is present, and otherwise the end is found |
| `DirectoryEntries.FindIsLookup` | kern/dir.c:138-165 | The lookup is the name-to-number map: the number added under exactly this name, 0 for absent names |
| `DirectoryEntries.AddLinkRefines` | kern/dir.c:188-231 | The append refines appending to a list of unique names, result included, and leaves no empty slot, whatever the block layer reports |
| `DirectoryEntries.AppendIsMapUpdate` | kern/dir.c:213-231 | A present name gives EEXIST and changes nothing; an absent one is entered if and only if its block could be had, and a commit error is then returned although the name is there |
| `DirectoryEntries.ReachableHasNoHoles` | kern/dir.c:243-276 | Every directory reachable by appends, with any prepare and commit errors, has no empty slot and no name twice |
| `DirectoryEntries.ReaddirEmits` | kern/dir.c:323-358 | A call emits exactly the next entries that its emitter takes and moves past them |
| `DirectoryEntries.ListingIsAPrefix` | kern/dir.c:314-363 | For any listing calls stopped anywhere, with appends between them, all output is a prefix of the live entries |
| `DirectoryEntries.ListingReachesTheEnd` | kern/dir.c:314-363 | Calls that each take an entry reach the whole list, in at most as many calls as entries are left |
| `DirectoryHoles.FindIsLeast` | kern/dir.c:138-165 | On any slots a lookup finds the first one that is in use and matches, past empty ones, and none if there is none |
| `DirectoryHoles.SearchStopsAt` | kern/dir.c:200-216 | On any slots the append's search stops at the first empty slot, or at a match before it, or at the end |
| `DirectoryHoles.AppendFills` | kern/dir.c:223-231 | On any slots an append changes the slot at which its search stops, and no other, or nothing if it is refused |
| `DirectoryHoles.ListsTheLive` | kern/dir.c:323-358 | On any slots and from any position a listing emits the entries that follow, empty slots left out, as far as its emitter takes them, and leaves exactly the others for the next call |
| `Namespace.NamespaceIsATree` | kern/namei.c:2-62 | In every state of every run two paths to one number are the same path, and every live directory has a path that its `..` entries spell backwards |
| `Namespace.RunKeepsTree` | kern/namei.c:2-99 | Every run, with every failure, keeps: one non-dot entry per number, larger numbers below, `..` naming the holder, unique names, exact link counts; and the numbers it takes are consecutive and below the reserved tail |
| `Namespace.StepKeepsTree` | kern/namei.c:15-49 | Each step keeps the tree properties |
| `Namespace.StepNumber` | kern/bitmap.c:63-97 | A step takes the next number of the map or none, and the number is new to all live inodes |
| `Namespace.FailureUndoesWhen` | kern/namei.c:42-48 | A failing step leaves every existing link count as it was, and every directory as it was if and only if it did not fail in the commit of its entry |
| `Namespace.EntriesAreLiveWhen` | kern/namei.c:34-45 | After a run every entry names a live inode if and only if no step failed in the commit of its entry |
| `Namespace.MkNodOopsWhen` | kern/namei.c:86-87 | Creating a file reads through a null pointer if and only if no inode is to be had |
| `Namespace.AppendIsAddLink` | kern/namei.c:34 | The list append of the steps is the append on any slots that show the same entries, in contents and in result |
| `Namespace.FormattedIsGood` | user/format.cpp:220-254 | The formatted root alone satisfies all of it |
| `NamespaceEffects.SucceedsWhen` | kern/namei.c:2-99 | mkdir, mknod and tmpfile succeed if and only if there is memory, a number, a new name, a regular type, and no error from the block layer |
| `NamespaceEffects.FailsWith` | kern/namei.c:2-99 | The error returned is that of the first thing that goes wrong, in the order of the source |
| `NamespaceEffects.SuccessLeaves` | kern/namei.c:2-62 | A success leaves the new inode with its entry, its dot entries and its link count 0, 1 or 2, one more link on the holder of a directory, and nothing else |
| `NamespaceEffects.FailureLeaves` | kern/namei.c:34-48 | A refused special file leaves its inode with link count 1, a failed commit its entry, and any other failure nothing |
| `NamespaceEffects.CreatedIsFound` | kern/namei.c:28-36 | After a successful mkdir or mknod the path with the new name leads to the new inode |
| `NamespaceEffects.CountsStay` | kern/namei.c:51-62 | In every later state of a run a temporary file has link count 0 and a named file 1, and its path leads to it |
| `NamespaceEffects.DirectoriesStay` | kern/namei.c:15-49 | In every later state a directory is found under its path, with two links and one per subdirectory |
| `NamespaceOps.Mount.NewInode` | kern/bitmap.c:44-121 | The number, error and map of the specification; the new inode has link count 1 and was not live |
| `NamespaceOps.Mount.Mkdir` | kern/namei.c:15-49 | Raising, populating and undoing link counts in source order is exactly the specification's step |
| `NamespaceOps.Mount.Populate` | kern/namei.c:28-45 | Either the directory is complete with two links, or the inode is gone; its holder then has the entry only if the commit of the entry failed |
| `NamespaceOps.Mount.AddNondir` | kern/namei.c:2-13 | Either the file is named, or its link is taken back and the inode dropped, with the entry left behind if its commit failed |
| `NamespaceOps.Mount.Mknod` | kern/namei.c:78-99 | Exactly the specification's step, with its null-pointer and wrong-type cases |
| `NamespaceOps.Mount.Tmpfile` | kern/namei.c:51-62 | Exactly the specification's step: an unnamed inode without links |
| `WholeSystem.FormattedFilesAreIndependent` | user/mkfs.cpp:140-149 | On a freshly formatted and mounted device, every run that is addressable and whose zones fit keeps files independent, answers each read with the last write, survives its remounts, and leaves metadata to the write-back and the root in its place |
| `WholeSystem.FormattedCapacity` | user/format.cpp:190-199 | On such a device a run is covered if and only if it is addressable and uses at most the number of zones less two besides the root's |
| `WholeSystem.FormattedVolumeIsGood` | user/format.cpp:220-240 | The volume invariant holds at the first mount of every accepted configuration whose block numbers fit an `int`, formatted by a user with 16-bit ids |
| `WholeSystem.RootIsFound` | user/format.cpp:233-240 | The kernel finds, at its own address and for every accepted zone size, the root with the uid, gid, mode, size, block count, time and first block that the formatter stored, each by name |
| `WholeSystem.RootInMemory` | kern/inode.c:64-85 | The first mount holds it so in memory |
| `WholeSystem.FormattedNamespaceIsATree` | user/format.cpp:242-249 | The kernel sees the two dot entries in the root's block, whatever bytes follow the names, and every run from there keeps a tree rooted at inode 1 |
| `WholeSystem.Format` | user/mkfs.cpp:140-149 | Whatever the device held, superblock, both maps, the root's record and the root's block are as the kernel expects, and no other block is written |
| `WholeSystem.FormatRoot` | user/format.cpp:233-251 | Each big-endian word of the root's record holds the field that belongs there, the root's block its entries, and every other byte of both blocks is as it was |
| `WholeSystem.MountFormatted` | kern/super.c:50-103 | For every block size found before the mount sets it, the superblock read is the formatted one and the maps are the bytes at the addresses that this size gives; they are buffers of the volume that the theorems start from if and only if it is the formatted size |
| `WholeSystem.FormattedZonesAreExact` | kern/inode.c:41-50 | On a formatted device, after every run whose remounts meet an intact state, the bits set are bits 0 and 1, the reserved tail, and exactly those of zones that a pointer holds; besides bit 0 and the tail there is one per pointer |
| `WholeSystem.MapIsFound` | kern/super.c:89-102 | The kernel's two maps hold the formatted bits; setting bit 0 again changes nothing |
| `WholeSystem.MapBlockIsReadWhen` | kern/super.c:87-91 | Read with the block size that the device has before the mount sets it, a map block is the formatted block on every device if and only if the two sizes are equal |
| `RootDirectory.RootShowsDots` | user/format.cpp:244-249 | Whatever the block held before, the kernel sees exactly `.` and `..`, both with the byte-swapped number |
| `RootDirectory.RootHoldsBadBlocks` | user/format.cpp:250-251 | The third record shows `.badblocks` with the byte-swapped 2 |
| `RootDirectory.WriteRootDir` | user/format.cpp:246-251 | The three records are stored, names up to their NUL |
| `StoredDirectories.DirIsKept` | kern/inode.c:34-51 | Every covered operation that neither writes a directory nor sets its fields, a remount for one, leaves all its entries on the device |
| `StoredDirectories.EnterStores` | kern/dir.c:223-233 | Writing the block after the last record and growing the size appends the entries to the directory that the device holds |
| `StoredDirectories.EnterSpares` | kern/dir.c:223-233 | It keeps the volume good, takes no number, and leaves every other directory as it was |
| `StoredDirectories.DirIsDetermined` | kern/dir.c:323-358 | What the device holds for an inode is one list of entries only |
| `StoredTree.NameIsStored` | kern/namei.c:2-62 | Every covered mkdir, mknod and tmpfile, with every failure, leaves on the device the directories and the inode map of the namespace step |
| `StoredTree.TreeIsStored` | kern/namei.c:2-62 | Over every covered run of namespace operations, file operations, write-backs and remounts the device holds exactly the directories of the namespace, and the volume stays good |
| `StoredTree.TreeSurvivesRemount` | kern/super.c:50-103 | After every such run a further remount comes up and finds these directories and no others under their numbers, and they form a tree |
| `StoredTree.FormattedTreeSurvives` | user/format.cpp:220-254 | The same from the formatter's bytes on |
| `StoredTree.MkdirIsCovered` | kern/namei.c:15-49 | A mkdir with a free zone, a usable number and room in the first block of its directory is covered, on a formatted device in particular |
| `StoredFiles.WrittenStaysInTree` | kern/inode.c:41-51 | In runs of names and files together, what a file operation writes is there in every later state until the block is written again |
| `StoredFiles.NameSparesFile` | kern/namei.c:2-62 | Every covered namespace operation leaves contents and fields of every file as they were |
| `StoredFiles.NameSetsFields` | kern/dir.c:228-233 | The new inode has the fields it was created with, a new directory also the size of its dot entries; the directory that names it grows by one record; both have the time of the change |
| `StarvedDevice.StarvingRun` | kern/bitmap.c:41 | Three zones written on the smallest device with the default zone size are never covered |
| `StarvedDevice.VolumeIsFilled` | kern/bitmap.c:20-41 | A run of creations, writes and a write-back leaves that device full and clean, with an inode that has no zone |
| `StarvedDevice.StarvedWriteThenRemount` | kern/super.c:63-110 | From there a write of zeros and a remount lose, by the file block written: the superblock and with it the mount, or else the contents; bits of the zone map; numbers of the inode map; or the root directory's record |
| `StarvedDevice.UnmarkedReadLosesZone` | kern/inode.c:41-46 | On every good volume, a read of any block that fills a pointer of a clean inode and does not mark it ends, after a remount, with the zone taken and the pointer empty |
| `StarvedDevice.UnmarkedReadRun` | kern/inode.c:41-46 | On a formatted device a creation, a write-back, such a read and a remount get there |
| `FailingInputs.FailedCommitLeavesEntry` | kern/namei.c:34-45 | A mkdir whose entry cannot be committed fails and leaves an entry for a dead inode in the root |
| `FailingInputs.HiddenDuplicate` | kern/dir.c:211-214 | With an empty slot before the entry the same name is entered twice |
| `FailingInputs.NegativeZone` | kern/bitmap.c:37 | With accepted zones of 1 GiB, zone 8192, which the formatter leaves free, gets a negative number |
| `FailingInputs.ZoneOneMoves` | kern/bitmap.c:37 | With 32768 zones of 2 MiB and the formatter's own alignment the two programs put zone 1 1024 blocks apart |
| `FailingInputs.ShortRunDiverges` | user/format.cpp:148-157 | On every map of the formatter whose first free run is one bit long, the run allocator asked for two zones never stops |
| `FailingInputs.StepBackMisses` | user/bit_iterator.hpp:113-115 | One step back from the first bit of a byte lands 2^61 bytes ahead |

## Left out

- Linux VFS, page cache and buffer I/O: pages and blocks are values whose reads succeed; failing reads are not modelled. The error of a synchronous directory write is.
- When the VFS marks an inode dirty: a read or write may or may not, as the operation says; an append to a directory does, as in kern/dir.c:74 and 233.
- When the buffer of the superblock, which the mount releases, is dropped from memory: an unmount may or may not find it.
- What a mount of a device with the right magic number and another superblock does: the volume is only known not to be this one.
- Reading the fields of the superblock object after it is freed, in the unmount (kern/super.c:14-20).
- Writing dirty metadata over file contents that a starved write put there, in another order than at a write-back or an unmount.
- Mount and unmount plumbing, slab caches, RCU freeing, and module registration (kern/super.c).
- kern/file.c and kern/itree_common.c: operation tables and one ceiling division, easy members only.
- The variant without `MULTI_BLOCK_PTR_SCHEME`.
- Map counts other than one block each in the formatter, and 32-bit wrap-around of its products for those counts; the kernel allocators and the kernel's write-back and mount are modelled for any number of map blocks.
- Races between two `aufs_get_block` calls on one inode: each call is one step of `FileStore`; only the allocator inside it is modelled step by step, in `ZoneProtocol`.
- Discarding an inode that owns zones: its bits stay set in the source; `FileStore` runs have no such step.
- Looking up an entry whose inode was dropped after a failed commit: the kernel would read the record of that number from the table.
- Empty slots in stored directories: `StoredTree` has directories as they arise from appends, which have none (`DirectoryEntries.ReachableHasNoHoles`). The pages that a lookup reads, and so maps, are file operations of its runs.
- StoredTree.NameIsStored: an inode dropped by a failing step stays in memory; the namespace does not name it, and its number stays taken as in the source.
- Link counts across a remount: they are not stored on the device, so those of `Namespace` cover one mount.
- Command-line parsing, device probing, printing and timestamps.
- FileVolume.Volume.CreateInode: a number whose record would not lie inside one block of the table is taken and lost; for zone sizes of at least 4096 the inode map hands out none (`Creation.FreeNumbersAreUsable`), for smaller ones (`Creation.SomeNumbersAreNotUsable`) the source reads and writes past the block.
- WholeSystem.MountFormatted: with another block size than the formatted one the kernel goes on with map buffers of the wrong bytes; the model stops at what they hold.
- Layout.SuperBlock.Fill: a zone size of 2^31 or more held before the call would turn negative in an `int`; the source only calls it on zeroed memory.
- ShortScan.FindFirstZeroBit: buffers that the loop would leave are not modelled. The native and little-endian searches are kernel code; `KernelBitmap.FindFirstZeroBit` stands for them.
- Directory.Dir.Link: names longer than 60 bytes are outside the model, because the lookup that precedes every append refuses them (kern/namei.c:69).
- Directory.Dir.MakeEmpty: pages are lists of 64 records, each a native 32-bit number and a 60-byte name, rather than raw bytes shared with other readers.
- BlockCache.Cache.Sync: the order in which blocks are written is arbitrary, a superset of the ascending order of the source; a device whose last block is cut short is not modelled.
- BlockCache.Cache.Poke: block contents are a sequence field, so raw pointers into the middle of a block are not modelled.
- Formatter.AllocateZones: memory after the map is readable, as far as the over-long end iterator reaches.
- NamespaceOps.Mount.NewInode: the inode map is kept as its flat bits; `KernelBitmap.BlockMap.NewInode` proves that the map buffers implement them.
