# Verified model of the course's file systems

Three small file systems, each in the form its program has: arrays of blocks and tables changed in place, with the loops the programs have, proved against specification functions; and about those functions the properties the programs are for.

* **The linked-block file system** (`lymly_3799072/ufs`). The disk is an array of blocks with a packed bitmap. Files and directories are chains of blocks, paths nest to any depth. `Words`, `Bitmaps` and `Runs` are the bitmap, its 32-bit windows and the free-block search. `Paths` is the splitting of paths. `Disk`, `Tree` and `Walking` are chains, directories, the structural invariant and the tree of paths the disk stands for. `Creating`, `Removing`, `FileData`, `Writing`, `Splicing`, `Appending` and `Reading` are the operations as written, each as a function on the disk, and what it does; `Effects`, `LaterRuns` and `WriteAnswers` say on every good disk, block by block, what they write, mark and answer; `HalfGrowing` is about a directory that was grown but not filled, `ShortRuns` about a file that runs on into a block in use. `Layout` is the byte layout of directory entries; `Leftovers` is about the bytes of a file that are read as entries. `History` is about whole runs. `FileSystems` is the program: a class over the block array and the bitmap bytes whose methods leave exactly the disk the functions say. `Reaching` follows a list of operations from the formatted disk block by block, and `Deviations` uses it to reach disks on which the code does not do what it is meant to.
* **The older ufs write** (`OldUfs`, `OldLinks`, `OldAnswers`, `OldRounds`), which finds its block by subtracting block sizes and copies with strncpy.
* **The control-block tree of vfs.c** (`Vfs`, `VfsTree`, `VfsBlocks`, `VfsRuns`, `VfsAnswers`, `VfsInputs`, and the program in `VirtualDisks`).

The code is modelled as written. Where it does not do what its tree operation should, the operation keeps what the code does and a lemma says exactly when the two agree: `Creating.CreateAddsExactly` (the buffer of the last block is written over the first), `Creating.CreateUniqueExactly` (the existence test stops at a free slot), `Splicing.WriteSplicesExactly` (a write that ends inside a block drops what is behind), `Splicing.BoundaryFails` (an append at a block boundary), `Appending.LinksExactly` (a second run is not linked), `OldUfs.WritesExactly`, `OldRounds.LoopEndsExactly`, `VfsRuns.MakeListsExactly`, `VfsTree.RmOkExactly`, `VfsBlocks.WriteBlocksExactly`. Two accidents of allocation can break the structure: a directory that can be grown but not filled, and a first run too short for its write. They do so exactly when the block then led to does not fit (`HalfGrowing.CreateOkExactly`, `ShortRuns.ShortOkExactly`), and there History's runs stop (`History.LuckyExactly`).

An `Fs` value is the disk (blocks, used set, size) together with the list of its objects, which block belongs to which, and where an object's entry is; the class carries those lists as ghost fields. A result of 0 or more is success, other results are the code's own error codes. `Tree.TreeOf` is the tree of paths: every path that resolves, with the kind, size and bytes found there.

## Model

| member | source | states |
|---|---|---|
| `Words.WindowTestsBit` | FS lab/exmple/lymly_3799072/ufs/ufs/op.c:607-618 | a mask laid over the 32-bit word read at a byte offset answers for exactly one bit of the four bytes: bit k of the word is bit k % 8 of byte k / 8 |
| `Words.RollMask` | FS lab/exmple/lymly_3799072/ufs/ufs/op.c:621-627 | shifting the mask up by one, or restarting it at bit 0 of the next word when it was on the top bit, moves it to the next bit; it is on the top bit exactly at position 31 |
| `Words.ChangeLowByte` | FS lab/exmple/lymly_3799072/ufs/ufs/op.c:671-683 | setting or clearing one of the low eight bits of the 32-bit window changes the first of its four bytes only |
| `Bitmaps.ChangeWindow` | FS lab/exmple/lymly_3799072/ufs/ufs/op.c:666-680 | writing the window back changes one bit of the bitmap and leaves the three bytes behind it, and all others, alone |
| `Bitmaps.Bitmap.SetBlk` | FS lab/exmple/lymly_3799072/ufs/ufs/op.c:650-683 | the set of used blocks gains or loses exactly the block named; block -1 is refused and nothing changes |
| `Bitmaps.Bitmap.Roll` | FS lab/exmple/lymly_3799072/ufs/ufs/op.c:621-627 | the rolling mask stays on one bit of the word in hand, one position further on, across the refill of the word |
| `Bitmaps.Bitmap.ScanRun` | FS lab/exmple/lymly_3799072/ufs/ufs/op.c:609-628 | the bit-by-bit scan from a start position returns the length of the free run there, cut off at the number asked for |
| `Runs.BestMeans` | FS lab/exmple/lymly_3799072/ufs/ufs/op.c:594-648 | what the naive search finds: a full run exactly when one exists, and then the leftmost; otherwise a longest one, bounded by a used block; nothing exactly when every start position is used |
| `Runs.SkipIsSafe` | FS lab/exmple/lymly_3799072/ufs/ufs/op.c:633-637 | no start position inside a run just measured, up to the used block that ends it, has a longer run, so the scan may jump behind it |
| `Bitmaps.Bitmap.SearchFreeBlk` | FS lab/exmple/lymly_3799072/ufs/ufs/op.c:594-648 | the skip-ahead search returns what the naive search over all start positions returns, and marks exactly that run used; when it returns 0 nothing is marked |
| `Paths.ParseRender` | FS lab/exmple/lymly_3799072/ufs/ufs/op.c:160-179 | every list of component names is the meaning of its rendered path |
| `Paths.ParentAndName` | FS lab/exmple/lymly_3799072/ufs/ufs/op.c:11-28 | for every normalised path below the root, the part before the last slash has all components but the last, and the part behind it is the last |
| `FileSystems.FileSystem.OpOpen` | FS lab/exmple/lymly_3799072/ufs/ufs/op.c:206-276 | the loop over the components, one find_dirent each, resolves the path as taking the parent's answer and looking the last name up in it does, at every depth |
| `FileSystems.FileSystem.FindDirent` | FS lab/exmple/lymly_3799072/ufs/ufs/op.c:181-204 | finds the first live entry with the name along the whole chain, or fails when no block has one |
| `Reading.FindIsFirst` | FS lab/exmple/lymly_3799072/ufs/ufs/op.c:181-204 | the entry found is the first of that name in the order of blocks and slots; none is found exactly when there is none |
| `FileSystems.FileSystem.IsExist` | FS lab/exmple/lymly_3799072/ufs/ufs/op.c:50-74 | sees a name exactly when some block of the chain shows it before its first free slot; when it does not, the buffer is left on the chain's last block |
| `Creating.VisibleMeans` | FS lab/exmple/lymly_3799072/ufs/ufs/op.c:50-74 | the existence test never reports a name that is not there, and misses none when live slots come before free ones |
| `Creating.VisibleExactly` | FS lab/exmple/lymly_3799072/ufs/ufs/op.c:50-74 | exactly which names the test shows: those of entries with no free slot before them in their block |
| `Disk.ChainUnique` | FS lab/exmple/lymly_3799072/ufs/ufs/ufs.h:32-36 | a start block has at most one chain of next pointers that ends in -1 |
| `Disk.ChainDistinct` | FS lab/exmple/lymly_3799072/ufs/ufs/ufs.h:32-36 | a chain that ends in -1 visits no block twice |
| `Tree.OkIsSafe` | FS lab/exmple/lymly_3799072/ufs/ufs/op.c:278-491 | the structural invariant in the disk's own terms: chains end without repetition, share no block, lie at or above the root block and are marked used from block 9 on; live entries point to distinct objects |
| `Tree.SamePath` | FS lab/exmple/lymly_3799072/ufs/ufs/op.c:206-276 | on such a disk no two paths lead to the same object |
| `Tree.TreeStep` | FS lab/exmple/lymly_3799072/ufs/ufs/op.c:206-491 | a change of what one directory answers for one name, between childless answers, is one update of the tree of paths and leaves every other path where it led |
| `FileSystems.FileSystem.constructor` | FS lab/exmple/lymly_3799072/ufs/ufs/init.c:13-83 | writes the formatted disk in place and establishes the invariant |
| `History.FormattedOk` | FS lab/exmple/lymly_3799072/ufs/ufs/init.c:48-75 | the formatted disk satisfies the invariant and stands for the tree that holds the root directory only |
| `History.FormattedHolds` | FS lab/exmple/lymly_3799072/ufs/ufs/init.c:13-83 | formatting marks blocks 0 to 7 and no others, empties the root block and leaves every other block |
| `Layout.EntryReadBack` | FS lab/exmple/lymly_3799072/ufs/ufs/ufs.h:25-30 | a block's bytes after an entry has been written into slot k are read as that entry in slot k and as before in every other slot, for every name without NUL of at most 12 characters and every number that fits its field |
| `Layout.FormattedAgrees` | FS lab/exmple/lymly_3799072/ufs/ufs/init.c:48-75 | formatting a disk whose entries are what its bytes are read as leaves such a disk |
| `Layout.RunsAgree` | FS lab/exmple/lymly_3799072/ufs/ufs/op.c:278-491 | so does every run, mended accidents included: at every moment every block's entries are what its bytes are read as, whatever the block was used for before |
| `History.RunsAreSafe` | FS lab/exmple/lymly_3799072/ufs/ufs/op.c:278-491 | on every run of create, remove and write from a good disk every state is safe, as long as no call leaves a disk that no lists make a good one; the code is taken as written, so blocks may leak, directories may lose entries, and a directory may gain the entries that a file's leftover bytes are read as |
| `History.LuckyExactly` | FS lab/exmple/lymly_3799072/ufs/ufs/op.c:278-491 | a call leaves a good disk exactly when it neither leaves a directory half-grown nor finds a first run too short, or the block that the directory or the file would then lead to fits; which is seen before the call, except where pointers lead from a file's stray block to a free one |
| `History.StepRefines` | FS lab/exmple/lymly_3799072/ufs/ufs/op.c:206-491 | each proper create, remove and write does one step on the tree of paths with the tree's result; or it fails with -1, exactly for want of space or at a block boundary, and changes nothing |
| `History.StepRefinesExactly` | FS lab/exmple/lymly_3799072/ufs/ufs/op.c:206-491 | a step that does not fail with -1 does the tree's step, with the tree's result, exactly when it is proper |
| `History.PutStarves` | FS lab/exmple/lymly_3799072/ufs/ufs/ufs.c:213-364 | a write to a complete file fails with -1 exactly when it is an append at a non-zero multiple of 496, or has bytes beyond the offset's block and every start position is used |
| `History.RunsRefine` | FS lab/exmple/lymly_3799072/ufs/ufs/op.c:206-491 | on every proper run the disk stands, at each moment, for the tree that the same operations build, with the tree's results; -1 comes exactly where space is wanting or a write appends at a block boundary, and then nothing changes |
| `History.TidyRunsRefine` | FS lab/exmple/lymly_3799072/ufs/ufs/op.c:206-491 | in particular on every run that is otherwise proper and creates only in parents whose live slots come first, and in their last block only |
| `History.RunsUniqueExactly` | FS lab/exmple/lymly_3799072/ufs/ufs/op.c:50-74 | on every run without half-grown directories, whatever else the operations do and writes find, names stay unique at every moment exactly when no creation repeats a name that its parent's last block hides behind a free slot |
| `History.RunsUnique` | FS lab/exmple/lymly_3799072/ufs/ufs/op.c:50-74 | in particular on every run in which the live slots of each parent form a prefix of their block |
| `FileSystems.FileSystem.OpCreate` | FS lab/exmple/lymly_3799072/ufs/ufs/op.c:278-419 | the program's steps on blocks, bitmap and lists leave exactly the disk the specification of creation says, with its result |
| `FileSystems.FileSystem.InsertEntry` | FS lab/exmple/lymly_3799072/ufs/ufs/op.c:320-419 | the entry goes into the last block's first free slot, or into a new block; the buffer is written to the directory's first block, as the code does |
| `Creating.CreateOk` | FS lab/exmple/lymly_3799072/ufs/ufs/op.c:278-419 | creation keeps the structural invariant unless it leaves the parent half-grown |
| `Creating.CreateAddsExactly` | FS lab/exmple/lymly_3799072/ufs/ufs/op.c:315-360 | a successful creation adds one empty file or directory to the tree and changes nothing else exactly when only the parent's last block holds entries |
| `Creating.CreateUniqueExactly` | FS lab/exmple/lymly_3799072/ufs/ufs/op.c:50-74 | a successful creation keeps names unique exactly when the parent's last block did not hold the name already |
| `Creating.CreateRefines` | FS lab/exmple/lymly_3799072/ufs/ufs/op.c:278-419 | where the name is seen, or is not there and only the parent's last block holds entries, creation is mknod or mkdir on the tree, error codes included, unless it fails with -1; free slots may lie anywhere |
| `Creating.CreateRefinesExactly` | FS lab/exmple/lymly_3799072/ufs/ufs/op.c:278-419 | a creation that does not fail with -1 is mknod or mkdir on the tree exactly there |
| `Creating.PackedFits` | FS lab/exmple/lymly_3799072/ufs/ufs/op.c:50-74 | a parent whose live slots come first, and in its last block only, is such a place for every name |
| `Creating.CreateStarves` | FS lab/exmple/lymly_3799072/ufs/ufs/op.c:296-402 | it fails with -1 exactly when the parent is a directory that does not show the name and every start position is used, or all but one and the parent's last block is full; only the latter changes the disk |
| `Effects.CreateWrites` | FS lab/exmple/lymly_3799072/ufs/ufs/op.c:296-402 | a successful creation marks the first free block, or the first two when the parent's last block is full, zeroes the object's, leaves the parent with its last block's entries and the new one, and changes no other block |
| `Creating.HalfGrownLeaves` | FS lab/exmple/lymly_3799072/ufs/ufs/op.c:369-402 | when the second search fails the call fails, yet the directory leads to a block marked used and never initialised |
| `Effects.HalfGrowthWrites` | FS lab/exmple/lymly_3799072/ufs/ufs/op.c:369-402 | it marks the first free block, links the parent's first block, which holds what its last held, to it, and changes no other block |
| `HalfGrowing.HalfGrownExactly` | FS lab/exmple/lymly_3799072/ufs/ufs/op.c:369-402 | the half-grown directory has a chain of blocks that are marked used and in no other object's chain exactly when the pointer left in its new block starts one |
| `HalfGrowing.HalfGrownOkExactly` | FS lab/exmple/lymly_3799072/ufs/ufs/op.c:369-402 | the disk is then good, for some lists of places, exactly when also the entries that these blocks' bytes are read as name objects that no other directory names, each once |
| `HalfGrowing.CreateOkExactly` | FS lab/exmple/lymly_3799072/ufs/ufs/op.c:278-419 | creation leaves a good disk exactly when the parent is not left half-grown or the block it then leads to fits |
| `HalfGrowing.CleanMends` | FS lab/exmple/lymly_3799072/ufs/ufs/op.c:369-402 | a new block that ends the chain and whose bytes are read as no live entry fits, one that leads into another object never does |
| `Leftovers.FileReadAsEntries` | FS lab/exmple/lymly_3799072/ufs/ufs/ufs.c:365-388 | after twelve files, a write of between 496 and 992 bytes to the first and a write that cuts it off again, for every buffer: the thirteenth file leaves the root leading to the block with the rest of that buffer; if its bytes are read as no live entry the disk is still good, if they are read as an entry with the second file's start no lists make it good |
| `Leftovers.SuchABuffer` | FS lab/exmple/lymly_3799072/ufs/ufs/op.c:181-204 | there is a buffer of 900 bytes that is read so |
| `FileSystems.FileSystem.OpModifyAttr` | FS lab/exmple/lymly_3799072/ufs/ufs/op.c:76-158 | rewrites size, start and kind of the entry the path leads to, in the slot it is in, and nothing else |
| `Effects.ModifiedMeans` | FS lab/exmple/lymly_3799072/ufs/ufs/op.c:76-158 | on every good disk the entry found gets the new numbers and keeps its name, every other entry and block is as it was, and a path that leads nowhere gets -ENOENT and no change |
| `FileSystems.FileSystem.OpRm` | FS lab/exmple/lymly_3799072/ufs/ufs/op.c:421-491 | the program's steps leave exactly the disk the specification of removal says, with its result, and keep the invariant |
| `FileSystems.FileSystem.FreeChain` | FS lab/exmple/lymly_3799072/ufs/ufs/op.c:448-467 | on any region closed under next pointers, cycles included, the freeing loop ends and has unmarked and zeroed exactly the blocks reached from the start |
| `Walking.PendingDrops` | FS lab/exmple/lymly_3799072/ufs/ufs/op.c:448-467 | each step that finds a next pointer other than -1 lowers the number of such blocks |
| `Walking.WholeDiskClosed` | FS lab/exmple/lymly_3799072/ufs/ufs/op.c:448-467 | the whole disk is such a region whenever its next pointers are -1 or in range |
| `Walking.TrailOfChain` | FS lab/exmple/lymly_3799072/ufs/ufs/op.c:448-467 | on an acyclic chain the blocks reached are exactly the chain's |
| `Walking.TrailReaches` | FS lab/exmple/lymly_3799072/ufs/ufs/op.c:448-467 | in general, cycles included, the blocks freed are those that some number of next pointers leads to from the start |
| `FileSystems.FileSystem.IsEmptyDir` | FS lab/exmple/lymly_3799072/ufs/ufs/op.c:493-562 | answers for a directory whether no slot of its chain is in use, and with an error for a file or a missing path |
| `Removing.RemoveOk` | FS lab/exmple/lymly_3799072/ufs/ufs/op.c:421-491 | removal keeps the structural invariant |
| `Removing.RemoveDrops` | FS lab/exmple/lymly_3799072/ufs/ufs/op.c:421-491 | a successful removal takes exactly that path out of the tree and frees exactly the object's blocks |
| `Effects.RemoveWrites` | FS lab/exmple/lymly_3799072/ufs/ufs/op.c:421-491 | it gives back and zeroes exactly the object's blocks, its entry keeps its name with start -1, and nothing else changes; a removal that fails changes nothing |
| `Removing.RemoveRefines` | FS lab/exmple/lymly_3799072/ufs/ufs/op.c:421-491 | removal is unlink or rmdir on the tree, error codes included: only a childless directory goes |
| `Removing.RemoveUnique` | FS lab/exmple/lymly_3799072/ufs/ufs/op.c:421-491 | removal keeps names unique |
| `Removing.CreatedOpens` | FS lab/exmple/lymly_3799072/ufs/ufs/op.c:278-367 | after a creation in a free slot the path opens with size 0 and the newly allocated block |
| `Removing.CreateThenRemove` | FS lab/exmple/lymly_3799072/ufs/ufs/op.c:278-491 | creating a path there and removing it again restores the bitmap and the tree |
| `FileData.FillRunChain` | FS lab/exmple/lymly_3799072/ufs/ufs/ufs.c:334-357 | a run long enough holds the bytes in a chain of exactly as many blocks as they need |
| `FileData.FillRunContent` | FS lab/exmple/lymly_3799072/ufs/ufs/ufs.c:334-357 | the run's blocks hold the bytes in order; behind them the last block repeats what the reused buffer held one block earlier |
| `FileSystems.FileSystem.UFsWrite` | FS lab/exmple/lymly_3799072/ufs/ufs/ufs.c:282-405 | the program's steps leave exactly the disk the specification of a write says, with its result (LaterRuns, WriteAnswers and Splicing say what that is), and the invariant holds unless the first run was too short |
| `FileSystems.FileSystem.WriteData` | FS lab/exmple/lymly_3799072/ufs/ufs/ufs.c:213-230 | find_offset_to_write and the data half of the write: the offset's block by division, the new blocks, the freed tail |
| `FileSystems.FileSystem.AppendBlocks` | FS lab/exmple/lymly_3799072/ufs/ufs/ufs.c:334-364 | the nested loops over runs and blocks leave what the specification's recursion leaves |
| `LaterRuns.RunsLay` | FS lab/exmple/lymly_3799072/ufs/ufs/ufs.c:334-364 | whatever runs the searches find: the blocks marked hold the bytes piece by piece, each with its size and next pointer; the loop answers -1 exactly when they hold too little, and then no start is free |
| `LaterRuns.WriteLays` | FS lab/exmple/lymly_3799072/ufs/ufs/ufs.c:310-364 | the same for a write, covered or not: it marks blocks that were free, fills them in order, links the offset's block to the first and changes no other block; it fails exactly when 496 bytes for each block marked are less than the bytes that do not fit the offset's block |
| `LaterRuns.LaysHolds` | FS lab/exmple/lymly_3799072/ufs/ufs/ufs.c:334-357 | such blocks hold the bytes, in order, as many as there is room for, and their sizes add up to that many |
| `WriteAnswers.WriteRecords` | FS lab/exmple/lymly_3799072/ufs/ufs/ufs.c:282-405 | on every good disk a write to a file answers -1, and leaves its entry as it was, exactly when it reaches behind the chain or fails so; otherwise it answers the number of bytes and records max(old size, end) |
| `WriteAnswers.WriteNothing` | FS lab/exmple/lymly_3799072/ufs/ufs/ufs.c:213-321 | behind the chain, or when bytes do not fit and no start is free, nothing changes at all |
| `WriteAnswers.WriteFrees` | FS lab/exmple/lymly_3799072/ufs/ufs/ufs.c:365-388 | a write that fits the block it starts in gives back exactly the blocks behind that one |
| `WriteAnswers.SizesExactly` | FS lab/exmple/lymly_3799072/ufs/ufs/ufs.c:306-341 | the block sizes of a complete file stay right exactly when nothing is written or the write starts at the file's end; bytes that are replaced are counted again |
| `Writing.WriteExtends` | FS lab/exmple/lymly_3799072/ufs/ufs/ufs.c:310-388 | of the blocks in use a good write changes only the offset's block, behind which the chain goes on in blocks that were free; at most the blocks cut off are freed |
| `Writing.RelinkOk` | FS lab/exmple/lymly_3799072/ufs/ufs/ufs.c:310-388 | such a change of one object's chain keeps the structural invariant |
| `Splicing.WriteStores` | FS lab/exmple/lymly_3799072/ufs/ufs/ufs.c:310-357 | the chain's payload after a write: the old bytes up to the offset, the buffer, and what is behind it |
| `Splicing.WriteSplicesExactly` | FS lab/exmple/lymly_3799072/ufs/ufs/ufs.c:282-405 | for every offset up to the file's size, a write whose first run covers the surplus replaces exactly the bytes from the offset on by the buffer, with size max(old, end), and keeps every other path, exactly when it starts in the last block, reaches the end, or happens to keep the tail it drops |
| `Splicing.WriteStaysComplete` | FS lab/exmple/lymly_3799072/ufs/ufs/ufs.c:282-405 | such a write leaves the file with exactly the blocks its new size needs |
| `Splicing.WriteOk` | FS lab/exmple/lymly_3799072/ufs/ufs/ufs.c:282-405 | a write keeps the structural invariant whenever the first run covers the surplus or none is found |
| `Splicing.WriteUnique` | FS lab/exmple/lymly_3799072/ufs/ufs/ufs.c:282-405 | a write keeps names unique |
| `Splicing.BoundaryFails` | FS lab/exmple/lymly_3799072/ufs/ufs/ufs.c:217-230 | a complete file runs out of blocks in front of the offset exactly when the write is an append at a non-zero multiple of 496; it then fails and changes nothing |
| `Appending.AppendEffect` | FS lab/exmple/lymly_3799072/ufs/ufs/ufs.c:322-357 | an append that needs more blocks marks the run asked for and links the blocks its bytes need |
| `Appending.AppendAccounting` | FS lab/exmple/lymly_3799072/ufs/ufs/ufs.c:322-357 | for n bytes beyond the block n / 496 + 1 blocks are marked and n / 496 rounded up are linked; every marked block is reachable exactly when 496 does not divide n |
| `Appending.LinksExactly` | FS lab/exmple/lymly_3799072/ufs/ufs/ufs.c:346-364 | the file's new chain consists of its old blocks and of blocks that were free exactly when the first run covers the surplus; otherwise it runs into a block already in use |
| `ShortRuns.ShortOkExactly` | FS lab/exmple/lymly_3799072/ufs/ufs/ufs.c:346-364 | a write whose first run is too short leaves a good disk with the objects it should have exactly when, before it, the block behind that run, one in use, starts a chain of used blocks that belong to no other object and is not led through the offset's block; or a chain the write leaves there goes through a block that a later run took, which needs a pointer into a free block before the write |
| `ShortRuns.RunsOnExactly` | FS lab/exmple/lymly_3799072/ufs/ufs/ufs.c:346-364 | the same for the file's chain: what it runs on into is told by the blocks, bitmap and chains before the write, unless pointers led from there to a free block |
| `ShortRuns.BehindDecides` | FS lab/exmple/lymly_3799072/ufs/ufs/ufs.c:346-364 | a block of another object, or of the file up to the offset's block, never fits; a block the write cuts off always does |
| `ShortRuns.RechainedOk` | FS lab/exmple/lymly_3799072/ufs/ufs/ufs.h:32-36 | whatever a call does to one file's blocks and to blocks of no object, a chain of the file's own makes the disk a good one |
| `Appending.WriteKeepsDirs` | FS lab/exmple/lymly_3799072/ufs/ufs/ufs.c:322-388 | no write, covered or not, touches a directory's blocks |
| `FileSystems.FileSystem.UFsRead` | FS lab/exmple/lymly_3799072/ufs/ufs/ufs.c:129-211 | the walk and the copies into the caller's buffer return what the specification of a read says, put the bytes in front and leave the rest of the buffer and the disk alone |
| `Reading.ReadsBytes` | FS lab/exmple/lymly_3799072/ufs/ufs/ufs.c:129-211 | on a complete file a read returns exactly the bytes from offset to min(offset + size, file size) |
| `Reading.ReadExactly` | FS lab/exmple/lymly_3799072/ufs/ufs/ufs.c:129-211 | on every good disk and for every path: the error codes, and for a file -1 exactly when the bytes asked for, clipped to its size, or the block of the first of them, lie behind the chain; otherwise those bytes of the chain |
| `Reading.ReadBack` | FS lab/exmple/lymly_3799072/ufs/ufs/ufs.c:129-211 | a read of the range just written gives the buffer back |
| `Reading.ReadElsewhere` | FS lab/exmple/lymly_3799072/ufs/ufs/ufs.c:129-211 | a read before or behind the range written gives what it gave before the write |
| `Reading.ReadOther` | FS lab/exmple/lymly_3799072/ufs/ufs/ufs.c:129-211 | a read of another file gives what it gave before the write, even when the write dropped its own file's tail |
| `FileSystems.FileSystem.UFsReaddir` | FS lab/exmple/lymly_3799072/ufs/ufs/ufs.c:32-100 | hands over ".", ".." and the names of all live entries in chain order |
| `Reading.ListsInOrder` | FS lab/exmple/lymly_3799072/ufs/ufs/ufs.c:32-100 | on every good disk the listing is ".", ".." and then one name for each live slot, in the order of blocks and slots, repeated names included |
| `Reading.ListsExactly` | FS lab/exmple/lymly_3799072/ufs/ufs/ufs.c:68-90 | under unique names a name is listed once if opening that child succeeds, and not at all if it fails |
| `Reaching.MakeDepicts` | FS lab/exmple/lymly_3799072/ufs/ufs/op.c:278-367 | what creating a file makes of the root directory's slots, the files' chains and the bitmap, block by block |
| `Reaching.UnmakeDepicts` | FS lab/exmple/lymly_3799072/ufs/ufs/op.c:421-491 | the same for removing a file: the slot keeps its name and gets start -1 |
| `Reaching.PutDepicts` | FS lab/exmple/lymly_3799072/ufs/ufs/ufs.c:282-405 | the same for writing a file from its start into more than one block |
| `Deviations.TailDropped` | FS lab/exmple/lymly_3799072/ufs/ufs/ufs.c:365-388 | after creating a file and writing 497 bytes to it, a byte written at its start cuts its second block off |
| `Deviations.LastBlockWritten` | FS lab/exmple/lymly_3799072/ufs/ufs/ufs.c:282-405 | on the same disk a byte written into the second block replaces one byte |
| `Deviations.AppendFails` | FS lab/exmple/lymly_3799072/ufs/ufs/ufs.c:217-230 | after creating a file and writing 992 bytes to it, every append fails |
| `Deviations.NameTwice` | FS lab/exmple/lymly_3799072/ufs/ufs/op.c:50-74 | after creating a and b and removing a, b can be created a second time |
| `Deviations.EntryLost` | FS lab/exmple/lymly_3799072/ufs/ufs/op.c:315-360 | after creating thirteen files the fourteenth creation succeeds and the first file is gone from the tree |
| `Deviations.HalfGrowth` | FS lab/exmple/lymly_3799072/ufs/ufs/op.c:369-402 | with one start left the thirteenth creation leaves the root directory half-grown; a clean block mends it, a block that leads into a file cannot |
| `Deviations.RunUnlinked` | FS lab/exmple/lymly_3799072/ufs/ufs/ufs.c:346-364 | after creating four files, extending the last and removing two, a write takes two runs, the second is not in its file's chain, and no good disk is left |
| `Deviations.RunsTooLittle` | FS lab/exmple/lymly_3799072/ufs/ufs/ufs.c:358-363 | on the same disk a write of more than three blocks' worth fails with both free blocks marked and the file's entry as it was |
| `OldUfs.Volume.UFsWrite` | FS lab/exmple/ufs/ufs/ufs.c:238-335 | the older write leaves what its specification says, for every offset |
| `OldAnswers.WriteCodes` | FS lab/exmple/ufs/ufs/ufs.c:238-335 | it refuses exactly an offset behind the recorded size, fails exactly when the block sizes do not reach the offset, changing nothing in both cases, and otherwise records where the bytes end, also when the file was longer |
| `OldAnswers.WriteCutsOff` | FS lab/exmple/ufs/ufs/ufs.c:310-322 | a write that fits its block gives back exactly the blocks behind it and changes no other |
| `OldAnswers.WriteLays` | FS lab/exmple/ufs/ufs/ufs.c:282-309 | a write that needs further blocks, linked or not, marks blocks that were free, which hold the rest of the buffer in order as strncpy copies it, and changes no other block but the offset's |
| `OldUfs.Volume.FindOffset` | FS lab/exmple/ufs/ufs/ufs.c:261-270 | the size-subtracting walk stops at the first block whose end the offset does not pass |
| `OldUfs.Volume.StrNCpy` | FS lab/exmple/ufs/ufs/ufs.c:275-275 | strncpy: the bytes up to the first NUL, then NULs |
| `OldUfs.WalkStops` | FS lab/exmple/ufs/ufs/ufs.c:261-270 | the sizes of the blocks passed and the rest add up to the offset |
| `OldUfs.WalkAgainstDivMod` | FS lab/exmple/ufs/ufs/ufs.c:261-270 | on a chain whose non-last blocks are full, for every capacity and offset, the size-subtracting and the div/mod walk name the same byte, and the same place except at a block boundary, where the first stops at the end of the full block and the second may leave the chain |
| `OldUfs.LayRunHolds` | FS lab/exmple/ufs/ufs/ufs.c:288-305 | a run that suffices is a chain of full blocks that holds the pieces in order |
| `OldUfs.WritesExactly` | FS lab/exmple/ufs/ufs/ufs.c:238-335 | for every offset up to the file's size: the block sizes still add up to the recorded size with all blocks but the last full exactly when the offset is the end of the file or a block boundary, and then the file holds its old bytes up to there and the pieces of the buffer |
| `OldLinks.LinksExactly` | FS lab/exmple/ufs/ufs/ufs.c:282-309 | a write that needs further blocks leaves the file a chain of its old blocks and of blocks that were free exactly when the first run suffices |
| `OldUfs.ReceivedExactly` | FS lab/exmple/ufs/ufs/ufs.c:275-294 | strncpy keeps the buffer exactly when no piece has a byte other than NUL behind a NUL |
| `OldAnswers.ReceivedAt` | FS lab/exmple/ufs/ufs/ufs.c:275-294 | byte by byte: it arrives unless a NUL lies before it in its piece, and then a NUL does |
| `OldUfs.AppendsConcatenate` | FS lab/exmple/ufs/ufs/ufs.c:254-330 | on every run of appends without NULs, exact multiples of the block size included, the file holds the buffers one after the other in full blocks whose sizes add up to the recorded size |
| `OldUfs.EmptyFile` | FS lab/exmple/ufs/ufs/ufs.c:254-330 | the empty file of one block is a place for such a run to start |
| `OldRounds.EmptyRound` | FS lab/exmple/ufs/ufs/ufs.c:282-309 | a round of the outer loop leaves disk, bitmap and remaining buffer as they were exactly when every start position is used |
| `OldRounds.SameForEver` | FS lab/exmple/ufs/ufs/ufs.c:282-309 | on a full disk every later round is the same |
| `OldRounds.NeverEnds` | FS lab/exmple/ufs/ufs/ufs.c:282-309 | on a volume of 1300 blocks, all in use, one byte to write is still to be written after any number of rounds |
| `OldRounds.LoopEndsExactly` | FS lab/exmple/ufs/ufs/ufs.c:282-309 | the outer loop ends exactly when no search on the way comes back empty |
| `OldRounds.LoopEnds` | FS lab/exmple/ufs/ufs/ufs.c:282-309 | it then ends after at most as many rounds as there are bytes and leaves what the write's specification says |
| `OldRounds.NulCutsOff` | FS lab/exmple/ufs/ufs/ufs.c:275-275 | a buffer whose second byte is lost behind a NUL |
| `OldRounds.MiddleWritten` | FS lab/exmple/ufs/ufs/ufs.c:273-279 | after two bytes have been written to an empty file, a byte written at offset 1 makes the block sizes add up to 3 and the recorded size 2 |
| `VirtualDisks.VirtualDisk.MFormat` | FS lab/exmple/5-vfs/5-vfs/vfs.c:178-280 | fills the tables in place with the formatted volume, which satisfies both invariants |
| `VirtualDisks.VirtualDisk.MMkdir` | FS lab/exmple/5-vfs/5-vfs/vfs.c:282-373 | the program's steps leave exactly what the specification of mkdir says |
| `VirtualDisks.VirtualDisk.MMkfile` | FS lab/exmple/5-vfs/5-vfs/vfs.c:451-492 | the program's steps leave exactly what the specification of mkfile says |
| `VirtualDisks.VirtualDisk.MCd` | FS lab/exmple/5-vfs/5-vfs/vfs.c:407-450 | the program's steps leave exactly what the specification of cd says |
| `VirtualDisks.VirtualDisk.MWrite` | FS lab/exmple/5-vfs/5-vfs/vfs.c:633-741 | the same for the block allocation of write; the invariants hold afterwards exactly when enough blocks were free |
| `VirtualDisks.VirtualDisk.MCp` | FS lab/exmple/5-vfs/5-vfs/vfs.c:748-853 | the same for the control block and block allocation of cp |
| `VirtualDisks.VirtualDisk.MRm` | FS lab/exmple/5-vfs/5-vfs/vfs.c:899-967 | the program's steps leave exactly what the specification of rm says, for every name; the invariants hold afterwards unless it is "." or ".." |
| `VirtualDisks.VirtualDisk.FreeFCB` | FS lab/exmple/5-vfs/5-vfs/vfs.c:1045-1056 | empties one control block and no other |
| `VfsTree.MkdirGrows` | FS lab/exmple/5-vfs/5-vfs/vfs.c:305-366 | mkdir takes the first three free control blocks for the directory and its two entries, which lead to it and to its parent |
| `VfsTree.GrowsOk` | FS lab/exmple/5-vfs/5-vfs/vfs.c:282-373 | making a node keeps the invariant of the tree even when a record is overwritten |
| `VfsTree.ShrinksOk` | FS lab/exmple/5-vfs/5-vfs/vfs.c:899-967 | removing a childless node keeps it |
| `VfsTree.RmOkExactly` | FS lab/exmple/5-vfs/5-vfs/vfs.c:899-967 | rm leaves a good tree, for some account of what was made where, exactly when the name is neither "." nor ".." |
| `VfsTree.CdOk` | FS lab/exmple/5-vfs/5-vfs/vfs.c:407-450 | cd changes nothing but the current directory, which stays a directory of the tree |
| `VfsRuns.FormattedOk` | FS lab/exmple/5-vfs/5-vfs/vfs.c:178-245 | the formatted volume satisfies both invariants |
| `VfsRuns.FormattedHolds` | FS lab/exmple/5-vfs/5-vfs/vfs.c:178-245 | it holds nothing: only the root's three control blocks and the system's blocks are taken |
| `VfsRuns.StepOk` | FS lab/exmple/5-vfs/5-vfs/vfs.c:282-967 | every command keeps the invariants of the tree and of the blocks |
| `VfsRuns.RunsAreSafe` | FS lab/exmple/5-vfs/5-vfs/vfs.c:282-967 | on every run a directory's length is 2 plus the number of things made under it, no block is recorded twice, recorded blocks are marked used, system blocks stay unrecorded, and cd .. leads to the root |
| `VfsRuns.ClimbReachesRoot` | FS lab/exmple/5-vfs/5-vfs/vfs.c:425-432 | repeating cd .. reaches the root after exactly as many steps as the directory is deep |
| `VfsRuns.RmFreesChildless` | FS lab/exmple/5-vfs/5-vfs/vfs.c:899-967 | rm of a name that is found is refused exactly for a directory with something made under it; otherwise that node goes with its two entries and every other live control block stays |
| `VfsAnswers.RmGivesBack` | FS lab/exmple/5-vfs/5-vfs/vfs.c:936-950 | rm of a file marks free the blocks it records, all of them and no others; rm of a directory none |
| `VfsAnswers.RmFreesLength` | FS lab/exmple/5-vfs/5-vfs/vfs.c:936-950 | the free blocks grow by exactly the file's length |
| `VfsAnswers.WriteThenRm` | FS lab/exmple/5-vfs/5-vfs/vfs.c:685-956 | writing a file and removing it leaves the block table of before the write exactly when enough blocks were free, or none at all for a single one: what the file held before stays marked |
| `VfsAnswers.RmDotFrees` | FS lab/exmple/5-vfs/5-vfs/vfs.c:936-950 | rm of . or .. answers 1 and marks free the block whose number is the control block's the entry leads to |
| `VfsRuns.CdLeads` | FS lab/exmple/5-vfs/5-vfs/vfs.c:435-447 | cd to a name leads to a directory of that name made under the current one, and fails exactly when the first record with the name is no directory or there is none |
| `VfsRuns.CdAndBack` | FS lab/exmple/5-vfs/5-vfs/vfs.c:407-450 | cd to a directory and cd .. is back where it was |
| `VfsAnswers.CdRoot` | FS lab/exmple/5-vfs/5-vfs/vfs.c:418-424 | cd to the root leads, from everywhere, where repeating cd .. leads at the top, and cd . leads nowhere else; both succeed |
| `VfsRuns.MkdirMakes` | FS lab/exmple/5-vfs/5-vfs/vfs.c:282-373 | mkdir makes one empty directory of the name and changes nothing else, unless the directory is full or the control block whose number is its length carries the name |
| `VfsRuns.MkfileMakes` | FS lab/exmple/5-vfs/5-vfs/vfs.c:451-492 | mkfile makes one empty file of the name exactly when a record and a control block are free |
| `VfsRuns.CpMakes` | FS lab/exmple/5-vfs/5-vfs/vfs.c:748-853 | cp makes one file of the new name with the source's size and number of blocks exactly when the source is a file, the new name is not there and a control block is free |
| `VfsAnswers.FoundMeans` | FS lab/exmple/5-vfs/5-vfs/vfs.c:644-655 | a name leads to the control block of the first of the ten records that carries it |
| `VfsAnswers.WriteFinds` | FS lab/exmple/5-vfs/5-vfs/vfs.c:644-659 | write takes place exactly when that is a file, and otherwise answers 110 and changes nothing |
| `VfsAnswers.Answers` | FS lab/exmple/5-vfs/5-vfs/vfs.c:282-492 | the error codes of mkfile, mkdir and rm, each exactly |
| `VfsAnswers.CpAnswers` | FS lab/exmple/5-vfs/5-vfs/vfs.c:748-797 | the error codes of cp, each exactly |
| `VfsAnswers.MakeTakesNone` | FS lab/exmple/5-vfs/5-vfs/vfs.c:282-492 | mkfile, mkdir and cd mark no block and give none back |
| `VfsAnswers.WriteTakes` | FS lab/exmple/5-vfs/5-vfs/vfs.c:685-738 | write marks the first free blocks, one more than the characters fill, and records them in order; where there are too few it records block 0 for those missing |
| `VfsAnswers.CpTakes` | FS lab/exmple/5-vfs/5-vfs/vfs.c:798-853 | so does cp, for as many as its source has |
| `VfsRuns.WriteSizesExactly` | FS lab/exmple/5-vfs/5-vfs/vfs.c:725-738 | a write records as many blocks as the characters need, with one begun even when they end at a boundary, and their number as size exactly when they fill no block; otherwise only the last block's |
| `VfsRuns.MakeListsExactly` | FS lab/exmple/5-vfs/5-vfs/vfs.c:362-367 | making something keeps everything under the directory recorded exactly when the record behind its length is empty |
| `VfsRuns.MkfileListsExactly` | FS lab/exmple/5-vfs/5-vfs/vfs.c:484-487 | the same for mkfile |
| `VfsInputs.EntryOverwritten` | FS lab/exmple/5-vfs/5-vfs/vfs.c:484-487 | after a and b have been made on the formatted volume and a removed, mkfile takes b's record and b is no longer listed |
| `VfsInputs.WriteLeaks` | FS lab/exmple/5-vfs/5-vfs/vfs.c:685-741 | a write never gives a block back: it takes one more than the full ones from the free blocks, or all there are |
| `VfsInputs.SizeForgotten` | FS lab/exmple/5-vfs/5-vfs/vfs.c:725-738 | on the formatted volume with one file made, a write of one whole block records size 0 |
| `VfsInputs.BlocksRunOut` | FS lab/exmple/5-vfs/5-vfs/vfs.c:685-741 | after one file has been written 92 times two blocks are free, and one more write, or a copy, records blocks that were not free |
| `VfsBlocks.GrabTakes` | FS lab/exmple/5-vfs/5-vfs/vfs.c:685-698 | the search takes distinct free blocks in order and marks exactly those; as many as asked for, or all there are |
| `VfsBlocks.WriteBlocksExactly` | FS lab/exmple/5-vfs/5-vfs/vfs.c:685-741 | a write keeps blocks apart and off the system's own blocks exactly when enough blocks are free |
| `VfsBlocks.CpBlocksExactly` | FS lab/exmple/5-vfs/5-vfs/vfs.c:798-853 | so does a cp that makes its copy |
| `VfsBlocks.LostBlocksOk` | FS lab/exmple/5-vfs/5-vfs/vfs.c:936-956 | freeing a file's blocks leaves every other file's blocks marked used |

## Left out

- Paths reach the operations as the kernel hands them over: normalised, with directories above the last component (`Walking.PrefixDirs`), not the root for create and remove, a file for write. The code does not check these.
- A directory block has 12 slots. The scanning loops go on to byte 496, where a thirteenth, cut-off slot would begin; reading it runs past the block and is not modelled.
- A block's 496 bytes are kept in two views, data and the entries they are read as, and every operation writes both. Sizes, starts and names are unbounded in the model, so the views agree when names are C strings and numbers fit their fields (`Layout.ArgumentsFit`, `Layout.Numbered`). Where `strcpy` leaves the bytes behind a name's NUL, and the padding of the structure, are taken as gcc lays them out on a 64-bit machine (ufs.h:25-30).
- init_new_blk, and the formatting of the root block and of a grown directory's new block, leave zeroed blocks, as they intend; the code leaves bytes it got from malloc.
- The device is longer than the recorded size of the file system, by at least the blocks a write asks for (`Writing.Room`), and the bitmap a little longer than the device, because the search bounds only where a run starts (op.c:606): a run may lie behind the last block. The constructor asks for the same.
- FileSystems.FileSystem.UFsWrite: requires offset <= size, because behind the end of a file the hole is sized with arithmetic that does not match the walk, and what is left of the offset can lie outside the block written (ufs.c:231-278); and promises the invariant only when the first run covers the surplus or nothing is found.
- History.RunsAreSafe: stops in front of a call after which no lists make the disk a good one (`History.LuckyExactly`); what the code does on such a disk is left open.
- History.RunsRefine: speaks of runs whose steps meet `History.Proper`, which is exactly the condition of the single step (History.StepRefinesExactly), and in which no directory is left half-grown and no first run is too short (`History.Plain`); without that a step is safe (History.RunsAreSafe) but not the tree's.
- History.RunsUniqueExactly: speaks of runs in which no directory is left half-grown; the entries such a directory then shows are whatever its new block's bytes are read as.
- FileSystems.FileSystem.OpCreate: the class's ghost lists are not brought in line behind a half-grown directory, even when its new block fits; `HalfGrowing.Created` does that on values, and `ShortRuns.Relisting` for a write.
- FileSystems.FileSystem.OpOpen: requires that every proper prefix of the path that leads somewhere leads to a directory; the code would read a file's bytes as entries, and these can send the walk to any block number or round for ever.
- OldUfs.Volume.UFsWrite: requires that every search finds something (`OldUfs.NeverStuck`), which is exactly when its outer loop ends (OldRounds.LoopEndsExactly); and OldUfs.WritesExactly that the first run suffices, because a second run is not linked (OldLinks.LinksExactly).
- The older write's path lookup and the update of the entry: start and recorded size are parameters and results. Its error value -errno is modelled as -1.
- vfs.c: the characters written, read and copied (the copying loops are wrong beyond one block), the open-file table, ls, command parsing, times and the disk image. Names have fewer than eight characters. A record of -1 is skipped where the code would read in front of the table.
- VirtualDisks.VirtualDisk.MMkdir: requires three free control blocks; the code does not check and would write behind the table.
- VirtualDisks.VirtualDisk.MCp: requires a directory that is not full; the code does not check and would write its record over the directory's length.
- VirtualDisks.VirtualDisk.MWrite: requires fewer than 10240 characters; the code does not check and would write behind its list of blocks.
- Integer widths: sizes, offsets and block numbers are unbounded; the casts between int, long and size_t are not modelled.
- Host-file I/O (disk.c, disk_emu.c), malloc and fopen failures, times, permissions, registration with FUSE, getattr, and a readdir filler that refuses.
- sfs_api.c and fuse_wrappers.c: two of their functions disagree on where a block's mark lives, and read and write are unfinished.
- The older op.c and init.c and the third copy of ufs: the same allocator and lookups again.
