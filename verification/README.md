# Verified models of Motor OS components

Motor OS is an operating system written in Rust. This project models the parts of it whose
correctness is a matter of state over whole runs, in Dafny, and proves what they promise.

| files | component |
|---|---|
| `Srfs*.dfy` | srfs, the file system: block allocator and transactions, files in four block layouts, directories in three, the directory tree, runs of calls |
| `BlockCache.dfy`, `SrfsTrail.dfy`, `SrfsAccess.dfy` | the 16-slot LRU block cache under srfs, and the accesses that srfs makes to it |
| `Frusa*.dfy`, `RwLock.dfy` | Frusa, the global allocator: slabs, batches, metadata, reclaim, client runs, and its reader/writer lock |
| `IoChannel.dfy`, `IoCalls.dfy`, `Ring.dfy` | the shared-memory message queue of `moto-ipc`, and what becomes of every `send` and `recv` |
| `ArrayQueue.dfy`, `QueueCalls.dfy`, `QueueSettled.dfy`, `LapCode.dfy` | the bounded queue of `moto-runtime`, with `force_push`, what becomes of every call, and the queue at rest |
| `NetSubchannels.dfy`, `NetWake.dfy`, `NetCalls.dfy` | the subchannel reservation and the sleep/wake hand-off of the network runtime, and what becomes of every `send_msg` |
| `SyncPipe.dfy` | the byte pipe between two processes |
| `FlatFs.dfy`, `FlatFsTree.dfy` | the flat file system image and the tree built from it |
| `UrlCodec.dfy` | `url_encode` and `url_decode` |
| `CallLog.dfy` | a history of concurrent calls, which position each claimed and how it ended |
| `Arithmetic.dfy`, `Bytes.dfy`, `Counting.dfy`, `Options.dfy` | shared definitions |

`dafny verify dfyconfig.toml` checks all of it. Nothing was executed.

## How the models are built

- **Sequential code that updates fields** (srfs, the block cache, Frusa) is a class whose methods
  follow the source branch by branch. The class carries ghost fields for what the blocks stand for:
  in srfs the files and directories, which block is used for what, and which blocks are leaked.
  `Valid()` ties them to the device, and every method keeps it.
- **Lock-free code** is a state machine. A step is one visible atomic operation of one thread; any
  number of threads interleave in any order, and all runs are covered by an inductive invariant.
  Beside the state machine runs a history of calls (`CallLog.dfy`): it is written from what the threads
  do and restricts nothing, every run has one, and it tells how each call ended and with what. That a
  call does its work at all is proved for calls that no other thread disturbs.
- **Numbers.** Queue positions, stamps and pipe counters are unbounded. Block numbers and sizes of
  srfs are bounded by 2^64 and written as little-endian words into real byte blocks; the lock word
  of Frusa wraps at 2^32 in the model and is proved not to.
- **Memory model.** Interleavings are sequentially consistent.
- **srfs over the cache.** The file system class works on the device as seen through the block
  cache. `BlockCache.dfy` proves that this view is what the cache gives: lookups, evictions and
  write-backs leave it unchanged, and a write changes it at one block. The class records each access
  it makes to the cache in a ghost trail that only ever grows, on every path, and every access is proved
  to be fine when it is made: a block that has to be cached is one of the last 16 looked at, only a
  dirty block is written, and as long as one is dirty nothing else is looked at. `SrfsAccess.dfy`
  proves that the cache answers every such trail: each `get`, `get_mut` and `write` finds its block
  and each evicted slot is clean.
- **Debug build.** srfs is modelled with its debug assertions on: a failed one is `Failed`, like any
  panic. Two answers differ in a release build: `move_rename` of an entry id that does not validate then
  answers `ValidationFailed`, and an empty write at the end of a file with a partly filled last data
  block then answers `Ok(0)`.
- **The outside world.** Fallback allocator, lost compare-and-swaps, schedules and the map order of
  `unpack` are arbitrary. Device accesses succeed.
- **Constants** are those of `src/lib/srfs-core/src/layout.rs`: 4096-byte blocks, 3968 bytes, 496
  links or 14 entries in a metadata block, 512 links or 15 entries in another block, 65536 entries.

## Where the code does not do what it seems meant to

Each of these is kept as the code has it, with a concrete case at a real input and, where the
property can fail, the exact condition under which it holds.

- A write that starts below the end of a file with data blocks and passes a partly filled last
  block counts bytes that are lost (`SrfsCalls.WriteAllIff`, run `SrfsCases.LostTailRun`). The
  comment above `write` asks callers to repeat it for the rest, which assumes otherwise.
- `read` can count bytes past the end of the file (`SrfsCalls.ReadStaysIff`, run
  `SrfsCases.ReadPastRun`).
- `free_txn_block` never sets the head of the free list, so a block freed anywhere but at the tail
  is counted free and never found again (`SrfsRuns.TraceLeaks` counts them over every run, run
  `SrfsCalls.LeakRun`).
- A write at the end of a file fails when the file has data blocks and the buffer is empty, or when
  the file is at its largest size (`Fits` in `SrfsFs.dfy`, runs `SrfsCases.EmptyAppendRun` and
  `FullFileRun`).
- `move_rename` can put a directory under itself (`SrfsRuns.StepRootedIff`, run `LoopRun`).
- The id of a removed object is still accepted exactly if its block is the last in use once the link
  block and the data block that its directory gives up with the entry are freed, in that order; how many
  entries the directory has decides which of them are (`SyncFileSystem.Remove`, runs
  `SrfsCases.StaleRun`, `SrfsCases.StaleSpillRun` and, for a refusal, `SrfsCalls.LeakRun`). A write
  through such an id is counted and lost (`SrfsCases.LostWriteRun`).
- `unpack` panics on an image without files, and on one that ends in an empty file whose name is a
  multiple of eight bytes long (`FlatFs.UnpackOfPack`, inputs in `UnpackPanics`).
- Frusa honours alignments up to 2M only (`FrusaAlign.AlignedIff`, states in `Misaligned`); its two
  public configurations serve no larger request from a slab.
- The subchannel scan needs two subchannels (`NetSubchannels.NeverPanicsIff`, runs beside it); there
  are eight.

## Model

| member | source | states |
|---|---|---|
| `SrfsRuns.RunCalls` | src/lib/srfs-core/src/fs_sync.rs:16-1703 | From a formatted device, every run of add, remove, move, write and truncate calls up to the first that fails is a run over the plain tree of files and directories (add appends an entry, remove puts the last entry in the hole, a write or truncation changes one byte sequence), with exactly the blocks taken and freed; at every moment the whole invariant holds, the client has exactly the ids of what exists, and `free_blocks` is ahead of the blocks that can be allocated by exactly the number of frees not at the end of the used area; the run stops exactly at the first call for which Succeeds is false; everything stays reachable from the root if no directory was moved under itself |
| `SrfsRuns.Perform` | src/lib/srfs-core/src/fs_sync.rs:107-1021 | One call of a client that keeps its ids does not fail if and only if it uses ids it holds, the generation counter is below its limit and there are blocks for what it adds; it is then a step over the plain tree, with the exact blocks it takes and frees and the exact place of every block |
| `SrfsRuns.PerformAdd` | src/lib/srfs-core/src/fs_sync.rs:312-362 | The same for add: exact blocks and generation used, and the exact new id |
| `SrfsRuns.PerformRemove` | src/lib/srfs-core/src/fs_sync.rs:797-835 | The same for remove, which never fails for an id that exists: the blocks freed are those the parent gives up with an entry, then the object's own; a refused call changes no block |
| `SrfsRuns.PerformMove` | src/lib/srfs-core/src/fs_sync.rs:675-795 | The same for move_rename: inside one directory it takes and frees no block, else it takes the blocks of one more entry and then frees those the old parent gives up; a refused call changes none |
| `SrfsRuns.PerformWrite` | src/lib/srfs-core/src/fs_sync.rs:973-1021 | The same for write: fails exactly where Writable is false |
| `SrfsRuns.PerformTruncate` | src/lib/srfs-core/src/fs_sync.rs:454-644 | The same for set_file_size, which never fails: the blocks freed, data block by data block from the end, each with the link blocks only it needed |
| `SrfsRuns.TraceLeaks` | src/lib/srfs-core/src/fs_sync.rs:1651-1677 | In every run `free_blocks` exceeds the blocks that can still be allocated by exactly the number of frees so far that were not at the end of the used area, which are the leaked blocks |
| `SrfsRuns.StepLeaks` | src/lib/srfs-core/src/fs_sync.rs:1651-1677 | The same for one call, whatever it takes and frees |
| `SrfsReplay.Replay` | src/lib/srfs-core/src/fs_sync.rs:16-1703 | Two runs of the same calls on formatted devices of the same size have the same files, directories, ids, superblock, block uses and leaked blocks at every moment, whatever was on the devices and whatever unwritten blocks hold |
| `SrfsReplay.SameEnd` | src/lib/srfs-core/src/fs_sync.rs:16-1703 | And they stop at the same call, if at any |
| `SrfsReplay.SameTree` | src/lib/srfs-core/src/fs_sync.rs:797-835 | A call that does not fail has one outcome on files, directories and the place of their blocks |
| `SrfsReplay.SameRoles` | src/lib/srfs-core/src/fs_sync.rs:1600-1649 | The use of every block follows from the files and directories |
| `SrfsRuns.NeverReused` | src/lib/srfs-core/src/layout.rs:69-75 | In every run an id that is gone never names anything again |
| `SrfsRuns.IssuedApart` | src/lib/srfs-core/src/layout.rs:69-75 | In every run the generations of the ids issued grow, so no two are equal, whatever was removed in between |
| `SrfsRuns.StepGenerations` | src/lib/srfs-core/src/fs_sync.rs:328-338 | A call never lowers the generation, and what comes into being has a new one |
| `SrfsRuns.StepRootedIff` | src/lib/srfs-core/src/fs_sync.rs:691-719 | A call keeps every object reachable from the root if and only if it is not a permitted move of a directory into itself or below itself, which move_rename does not refuse |
| `SrfsRuns.TraceRooted` | src/lib/srfs-core/src/fs_sync.rs:675-795 | The same over whole runs |
| `SrfsRuns.LoopRun` | src/lib/srfs-core/src/fs_sync.rs:691-719 | The failing case: a directory moved into its own child succeeds, the invariant holds, and neither is reachable from the root |
| `SrfsRooted.ReparentedRootedIff` | src/lib/srfs-core/src/fs_sync.rs:715-719 | A new parent keeps the tree rooted if and only if the new parent does not have the moved object above it |
| `SrfsRooted.AddedRooted` | src/lib/srfs-core/src/fs_sync.rs:312-363 | A new object under an existing directory keeps the tree rooted |
| `SrfsRooted.RemovedRooted` | src/lib/srfs-core/src/fs_sync.rs:803-811 | Removing is safe because an object of size zero is above nothing |
| `SrfsRooted.CycleHasNoRoot` | src/lib/srfs-core/src/fs_sync.rs:691-719 | An object above itself never leads to the root |
| `SrfsCalls.RunFile` | src/lib/srfs-core/src/fs_sync.rs:973-1456 | Every run of writes and truncations of one file, up to the first write there is no room for, gives the plain byte sequence with the same overwrites, appends and truncations, across all layouts, with exactly the blocks taken and freed at each call and where they lie, and changes nothing else; it stops exactly at a write for which Writable is false |
| `SrfsCalls.TraceApplies` | src/lib/srfs-core/src/fs_sync.rs:973-1456 | Along such a run the contents are the calls applied to the plain byte sequence one after the other |
| `SrfsCalls.WriteAllIff` | src/lib/srfs-core/src/fs_sync.rs:968-1021 | The documented loop (write again for the rest after a short count) writes the whole buffer if and only if it does not start below the size of a file with a partly filled last data block and pass that size, the file does not outgrow the largest size, and the device has the blocks the longer file needs |
| `SrfsCalls.WriteWhole` | src/lib/srfs-core/src/fs_sync.rs:968-1021 | The loop on the file system itself: it ends exactly if the loop on the plain bytes does, with the same contents and exactly the blocks that the longer file has more; so the file is the whole overlay exactly under that condition |
| `SrfsCalls.StepRoom` | src/lib/srfs-core/src/fs_sync.rs:1069-1392 | Room for the whole buffer is room for the first write and then for the rest, and the other way round |
| `SrfsCalls.AppendBlocks` | src/lib/srfs-core/src/fs_sync.rs:1069-1392 | The blocks one append takes are those the longer file has more, across every layout change |
| `SrfsCalls.Crosses` | src/lib/srfs-core/src/fs_sync.rs:1394-1409 | Only an overrun is counted past the end of the file |
| `SrfsCalls.StepOverlays` | src/lib/srfs-core/src/fs_sync.rs:1394-1409 | One write of that loop leaves the same overlay to be written, unless it is the one that overruns |
| `SrfsCalls.OverlaySplit` | src/lib/srfs-core/src/fs_sync.rs:968-1021 | The first part of a buffer written and the rest laid over is the whole buffer laid over |
| `SrfsCalls.LostTail` | src/lib/srfs-core/src/fs_sync.rs:1394-1409 | The failing case: 20 bytes at offset 4990 of a 5000-byte file are all counted as written and 10 are lost |
| `SrfsCalls.ReadStaysIff` | src/lib/srfs-core/src/fs_sync.rs:1023-1067 | read's count stays within the file if and only if the read does not pass the end of the file inside its last data block |
| `SrfsCalls.ReadWhole` | src/lib/srfs-core/src/fs_sync.rs:1023-1067 | A client that reads until a read returns nothing, with buffers of any sizes, gets the file from its offset to the last byte, and nothing more if and only if none of its reads passes the end of a partly filled last data block |
| `SrfsCalls.ReadOn` | src/lib/srfs-core/src/fs_sync.rs:1023-1067 | One read of that client: it gets the next bytes of the file, unless it is the one that passes the end |
| `SrfsCalls.EndsWithBlock` | src/lib/srfs-core/src/fs_sync.rs:1023-1067 | No read can pass the end of a file in its metadata block, or of one that fills its last data block |
| `SrfsCalls.LeakRun` | src/lib/srfs-core/src/fs_sync.rs:1651-1677 | The failing case of free-block accounting: after one non-tail free, one block is counted free and a new file cannot be made; the id of the removed file is refused |
| `SrfsCases.ReadPastRun` | src/lib/srfs-core/src/fs_sync.rs:1054-1066 | On a formatted device, a read of 20 bytes at offset 3990 of a 4000-byte file returns 20 bytes |
| `SrfsCases.ShortReadRun` | src/lib/srfs-core/src/fs_sync.rs:1043-1052 | On a formatted device, reads of a 100-byte file: 10 bytes at 0, the last 40 at 60 into a buffer of 50, nothing at 100 |
| `SrfsCases.WriteReadRun` | src/lib/srfs-core/src/fs_sync.rs:968-1067 | What a client writes to a new file and reads back with buffers of any sizes is what it wrote, if and only if none of its reads passes the end |
| `SrfsCases.NameRun` | src/lib/srfs-core/src/layout.rs:588-594 | On a fresh device with room, an entry is refused if and only if its name has more than 255 bytes, has a slash, or is "." or ".."; else it is there, empty, under that name |
| `SrfsCases.RenameRun` | src/lib/srfs-core/src/layout.rs:588-594 | The same for the new name of a file in move_rename; its own name already exists |
| `SrfsCases.SampleNames` | src/lib/srfs-core/src/layout.rs:588-594 | "a.txt", "...", no bytes and 255 bytes are taken; ".", "..", "a/b" and 256 bytes are refused |
| `SrfsCases.EmptyAppendRun` | src/lib/srfs-core/src/fs_sync.rs:1411-1416 | On a formatted device, an empty write at the end of a 4000-byte file fails the assertion of find_data_block |
| `SrfsCases.FullFileRun` | src/lib/srfs-core/src/fs_sync.rs:1252-1313 | A file of the largest size, written on a device with room for it, cannot be appended to however many blocks are left |
| `SrfsCases.LostTailRun` | src/lib/srfs-core/src/fs_sync.rs:1394-1409 | The lost tail as a run on a formatted device |
| `SrfsCases.StaleRun` | src/lib/srfs-core/src/fs_sync.rs:1661-1662 | The last object made is removed: its id names nothing, its block still validates and seems to be an empty file |
| `SrfsCases.StaleSpillRun` | src/lib/srfs-core/src/fs_sync.rs:885-899 | The same for a file whose block is not the last in use: the 15th entry of a directory takes a data block after it, which is freed first |
| `SrfsCases.LostWriteRun` | src/lib/srfs-core/src/fs_sync.rs:973-1021 | A write through the id of a removed file is counted and can be read back, and no file holds it |
| `SrfsCalls.OneLeaked` | src/lib/srfs-core/src/fs_sync.rs:1651-1677 | The invariant alone forces that count: a block freed below the empty area stays counted as free and out of reach |
| `SrfsCalls.OnlyMeta` | src/lib/srfs-core/src/fs_sync.rs:1600-1649 | When every object fits its metadata block, those blocks are the only ones in use |
| `SrfsFs.SyncFileSystem.Format` | src/lib/srfs-core/src/fs_sync.rs:16-49 | format and open_fs establish the invariant: an empty root directory, one block in use, the rest free, nothing leaked |
| `SrfsFs.SyncFileSystem.StartTxn` | src/lib/srfs-core/src/fs_sync.rs:1679-1691 | Opens a transaction; block accounting is unchanged |
| `SrfsFs.SyncFileSystem.CommitTxn` | src/lib/srfs-core/src/fs_sync.rs:1693-1702 | Closes it, with every transaction field cleared; block accounting is unchanged |
| `SrfsFs.SyncFileSystem.AllocateRaw` | src/lib/srfs-core/src/fs_sync.rs:1600-1649 | FsFull if and only if no block is counted free; with the free list empty it takes the first block of the empty area or fails |
| `SrfsFs.SyncFileSystem.Allocate` | src/lib/srfs-core/src/fs_sync.rs:1600-1649 | In every reachable state it returns a block no object uses, and fails if and only if the empty area is used up: FsFull if nothing was leaked, another error otherwise |
| `SrfsFs.SyncFileSystem.Free` | src/lib/srfs-core/src/fs_sync.rs:1651-1677 | A block at the tail goes back to the empty area, any other is leaked: counted free and never found again; written to the cache only in the second case |
| `SrfsFs.SyncFileSystem.LinkDirect` | src/lib/srfs-core/src/fs_sync.rs:1181-1186 | A data block linked in the metadata block extends the block tree |
| `SrfsFs.SyncFileSystem.LinkSingle` | src/lib/srfs-core/src/fs_sync.rs:1187-1251 | The same with one level of link blocks, including the change of layout, or failure exactly when blocks run out |
| `SrfsFs.SyncFileSystem.LinkDouble` | src/lib/srfs-core/src/fs_sync.rs:1252-1378 | The same with lists of link blocks, including the change of layout |
| `SrfsFs.SyncFileSystem.LinkBlock` | src/lib/srfs-core/src/fs_sync.rs:1181-1378 | The tree gains exactly the new data block, in the layout of the new size, with the link blocks taken right after it |
| `SrfsFs.SyncFileSystem.FindDataBlock` | src/lib/srfs-core/src/fs_sync.rs:1411-1456 | The block that holds the byte at an offset, in every layout; each cache access on the way is answered |
| `SrfsFs.SyncFileSystem.UpdateFile` | src/lib/srfs-core/src/fs_sync.rs:1394-1409 | Overwrites bytes of one data block; bytes past the file's size are not part of the file |
| `SrfsFs.SyncFileSystem.AppendSpill` | src/lib/srfs-core/src/fs_sync.rs:1085-1134 | Growing out of the metadata block keeps every byte and appends the new ones; exact block taken |
| `SrfsFs.SyncFileSystem.PlaceData` | src/lib/srfs-core/src/fs_sync.rs:1162-1180 | A data block no object uses, with the bytes written, and every other block as it was; fails exactly when the empty area is used up |
| `SrfsFs.SyncFileSystem.AppendInBlock` | src/lib/srfs-core/src/fs_sync.rs:1136-1160 | Appends in the last data block |
| `SrfsFs.SyncFileSystem.AppendNewBlock` | src/lib/srfs-core/src/fs_sync.rs:1162-1392 | Appends in a new data block, or fails exactly when the data and link blocks it takes are not there; exact blocks and their places |
| `SrfsFs.SyncFileSystem.Append` | src/lib/srfs-core/src/fs_sync.rs:1069-1392 | Appends as much of the buffer as one block takes, and says how much |
| `SrfsFs.SyncFileSystem.WriteInMeta` | src/lib/srfs-core/src/fs_sync.rs:991-1009 | Bytes that stay in the metadata block: the file is the plain overwrite or append in the same blocks |
| `SrfsFs.SyncFileSystem.Write` | src/lib/srfs-core/src/fs_sync.rs:973-1021 | The contents become the plain overwrite or append; exact count, blocks taken and their places, and exactly when it is refused or fails; nothing else changes. Through the id of a removed object that still validates, bytes that fit its metadata block are counted and change no file. Every cache access is answered |
| `SrfsFs.SyncFileSystem.Read` | src/lib/srfs-core/src/fs_sync.rs:1023-1067 | The bytes of the file from the offset on, as many as the buffer holds, the block of the offset has left, and, in a metadata block, the file has left, and no fewer, in every layout; exactly when it is refused; the same for the bytes that a removed file has left |
| `SrfsFs.CountsAreLargest` | src/lib/srfs-core/src/fs_sync.rs:973-1067 | The counts of read and write are the largest that stay within the buffer, within one block and, in a metadata block, within the file |
| `SrfsFs.SyncFileSystem.DropDirect` | src/lib/srfs-core/src/fs_sync.rs:498-535 | Drops the last block of a file of up to 2M, or brings the bytes back into the metadata block; exact block freed |
| `SrfsFs.SyncFileSystem.DropSingle` | src/lib/srfs-core/src/fs_sync.rs:537-581 | Drops the last block of a file of up to 1G, with its link block and layout where only it needed them; exact blocks freed, in order |
| `SrfsFs.SyncFileSystem.DropDouble` | src/lib/srfs-core/src/fs_sync.rs:583-643 | Drops the last block of a larger file, with its link block, list and layout; exact blocks freed, in order |
| `SrfsFs.SyncFileSystem.GiveUp` | src/lib/srfs-core/src/fs_sync.rs:506-533 | The transaction that frees a data block and the link blocks it leaves unused, in that order, with the exact start of the empty area after it |
| `SrfsFs.SyncFileSystem.CopyLinks` | src/lib/srfs-core/src/fs_sync.rs:564-573 | The loop that copies all 496 links back to the metadata block |
| `SrfsFs.SyncFileSystem.Shorten` | src/lib/srfs-core/src/fs_sync.rs:457-643 | One round of the shrinking loop keeps a prefix of the file and makes progress |
| `SrfsFs.SyncFileSystem.SetFileSize` | src/lib/srfs-core/src/fs_sync.rs:454-644 | The file becomes its prefix of the new size; the blocks freed and the tree left are those of cutting the data blocks one by one from the end; refused exactly for a larger size or a bad id; never fails otherwise; the same prefix for what a removed file has left |
| `SrfsFs.SyncFileSystem.ScanBlock` | src/lib/srfs-core/src/fs_sync.rs:1521-1530 | The entries of one data block, in order, up to the last |
| `SrfsFs.SyncFileSystem.ScanDirect` | src/lib/srfs-core/src/fs_sync.rs:1508-1533 | The first match among data blocks linked directly |
| `SrfsFs.SyncFileSystem.ScanLink` | src/lib/srfs-core/src/fs_sync.rs:1549-1566 | The first match among the data blocks of one link block |
| `SrfsFs.SyncFileSystem.FindEntry` | src/lib/srfs-core/src/fs_sync.rs:1480-1569 | Finds an entry if and only if one meets the predicate, and the first one, at the place where it is stored, which is the block looked at last |
| `SrfsFs.SyncFileSystem.GetDirectoryEntry` | src/lib/srfs-core/src/fs_sync.rs:365-412 | Element `pos` of the directory's entry sequence, or NotFound, in every layout; NotFound for a removed directory that still validates |
| `SrfsFs.SyncFileSystem.CopyLinksOut` | src/lib/srfs-core/src/fs_sync.rs:240-248 | The loop that copies 496 links to a link block |
| `SrfsFs.SyncFileSystem.LinkEntryBlock` | src/lib/srfs-core/src/fs_sync.rs:194-285 | A new data block of entries joins the tree, directly or through a link block |
| `SrfsFs.SyncFileSystem.CopyEntriesOut` | src/lib/srfs-core/src/fs_sync.rs:173-179 | The loop that copies the 14 entries of the metadata block out |
| `SrfsFs.SyncFileSystem.AddSpill` | src/lib/srfs-core/src/fs_sync.rs:164-202 | The 15th entry: all entries move to a data block and keep their order |
| `SrfsFs.SyncFileSystem.AddNewBlock` | src/lib/srfs-core/src/fs_sync.rs:186-285 | The first entry of a new data block |
| `SrfsFs.SyncFileSystem.AddInBlock` | src/lib/srfs-core/src/fs_sync.rs:203-218 | An entry in the last data block |
| `SrfsFs.SyncFileSystem.AddEntryInner` | src/lib/srfs-core/src/fs_sync.rs:138-310 | Appends the entry in every layout, with the exact blocks taken and their places, or fails exactly when they are not there; every cache access is answered |
| `SrfsFs.SyncFileSystem.FillHole` | src/lib/srfs-core/src/fs_sync.rs:862-921 | The last entry takes the place of the removed one |
| `SrfsFs.SyncFileSystem.CopyEntriesIn` | src/lib/srfs-core/src/fs_sync.rs:885-893 | The loop that copies 14 entries back to the metadata block |
| `SrfsFs.SyncFileSystem.DropLastEntry` | src/lib/srfs-core/src/fs_sync.rs:877-963 | The last entry goes; exactly the blocks left unused are marked for freeing, by the number of entries: a data block for 15 or 1 modulo 15, a link block for 7441 or 1 modulo 7680 |
| `SrfsFs.SyncFileSystem.RemoveEntryInner` | src/lib/srfs-core/src/fs_sync.rs:838-966 | Removes the entry of an id: the last entry moves into its place, all others stay; exactly the marked blocks and the tree that is left; every cache access is answered |
| `SrfsFs.SyncFileSystem.ValidateNewEntry` | src/lib/srfs-core/src/fs_sync.rs:117-135 | Refuses names of more than 255 bytes, with a slash, "." and "..", block numbers off the device, existing names and full directories, in that order, and nothing else; a removed directory that still validates seems empty |
| `SrfsFs.SyncFileSystem.CreateEntry` | src/lib/srfs-core/src/fs_sync.rs:328-362 | A fresh block and id, an empty object, and its entry at the end of the parent; fails exactly when blocks run out |
| `SrfsFs.SyncFileSystem.AddDirectoryEntry` | src/lib/srfs-core/src/fs_sync.rs:312-362 | The above after validation, with the exact names that are refused; a refused call changes nothing |
| `SrfsFs.SyncFileSystem.FreeMarked` | src/lib/srfs-core/src/fs_sync.rs:826-832 | Frees exactly the marked blocks, the link block first, with the exact start of the empty area after it |
| `SrfsFs.SyncFileSystem.RemoveObj` | src/lib/srfs-core/src/fs_sync.rs:814-834 | The object, its entry and its block go, with exactly the blocks the parent gives up freed before it |
| `SrfsFs.SyncFileSystem.RemoveBlocks` | src/lib/srfs-core/src/fs_sync.rs:826-834 | The block of the removed object still validates if and only if it is the last in use once the marked blocks are freed |
| `SrfsFs.SyncFileSystem.Remove` | src/lib/srfs-core/src/fs_sync.rs:797-835 | Refused exactly for the root, an id of nothing or a non-empty object; otherwise the object is gone and nothing else changed. Its id still validates if and only if its block is the last before the empty area once the link block and the data block that the parent gives up (for its number of entries before the call) are freed, in that order |
| `SrfsFs.SyncFileSystem.RenameEntry` | src/lib/srfs-core/src/fs_sync.rs:700-709 | Only the name in the entry changes |
| `SrfsFs.SyncFileSystem.MoveEntry` | src/lib/srfs-core/src/fs_sync.rs:711-795 | The entry moves to the end of the new directory, the hole in the old one is filled, the parent link follows; exact blocks taken and freed and exact trees |
| `SrfsFs.SyncFileSystem.MoveRename` | src/lib/srfs-core/src/fs_sync.rs:675-795 | Every outcome of move_rename, and the tree after it; ids that do not validate fail the assertions of a debug build |
| `SrfsFs.MovedExactly` | src/lib/srfs-core/src/fs_sync.rs:711-795 | The whole directory tree after a move, with the place of every block |
| `SrfsFs.LeftWritten` | src/lib/srfs-core/src/fs_sync.rs:991-1009 | A write to a file that was removed changes what its block seems to hold as it would a file |
| `SrfsFs.LeftCut` | src/lib/srfs-core/src/fs_sync.rs:486-496 | And so does a truncation |
| `SrfsFs.UnusedWritten` | src/lib/srfs-core/src/fs_sync.rs:1651-1677 | A write to a block that nothing uses keeps the whole invariant |
| `SrfsDirOps.EntryFreesAre` | src/lib/srfs-core/src/fs_sync.rs:877-963 | The blocks a directory gives up with an entry, by their numbers in the tree |
| `SrfsSpace.AfterCount` | src/lib/srfs-core/src/fs_sync.rs:1651-1677 | Every block freed moves the start of the empty area or is leaked |
| `SrfsSpace.TradesLeaks` | src/lib/srfs-core/src/fs_sync.rs:1600-1677 | The number of leaked blocks after any blocks taken and freed |
| `SrfsSpace.FreeIsUnused` | src/lib/srfs-core/src/fs_sync.rs:1600-1677 | Conservation: `free_blocks` is the number of blocks not in use, the superblock aside |
| `SrfsSpace.CutStep` | src/lib/srfs-core/src/fs_sync.rs:457-643 | Cutting a file block by block frees the same blocks, in the same order, as the whole cut |
| `SrfsFs.NextGeneration` | src/lib/srfs-core/src/fs_sync.rs:328-335 | Generations grow; the parity tells files from directories |
| `SrfsTree.CountsGrow` | src/lib/srfs-core/src/fs_sync.rs:1181-1262 | One more data block takes a new link block or list exactly at the multiples the code tests |
| `SrfsTree.GrowDirect` | src/lib/srfs-core/src/fs_sync.rs:1181-1186 | A word in the metadata block |
| `SrfsTree.GrowFirstLink` | src/lib/srfs-core/src/fs_sync.rs:1198-1211 | The first link block takes over the 496 links of the metadata block |
| `SrfsTree.GrowLink` | src/lib/srfs-core/src/fs_sync.rs:1212-1228 | A further link block |
| `SrfsTree.GrowInLink` | src/lib/srfs-core/src/fs_sync.rs:1229-1251 | A free word of the last link block |
| `SrfsTree.GrowFirstLol` | src/lib/srfs-core/src/fs_sync.rs:1281-1295 | The first list of links takes over the links of the metadata block |
| `SrfsTree.GrowLol` | src/lib/srfs-core/src/fs_sync.rs:1296-1313 | A further list of links |
| `SrfsTree.GrowLinkInLol` | src/lib/srfs-core/src/fs_sync.rs:1332-1354 | A new link block in the last list |
| `SrfsTree.ShrinkSame` | src/lib/srfs-core/src/fs_sync.rs:537-581 | Dropping the last block changes no link unless the layout changes |
| `SrfsTree.ShrinkToDirect` | src/lib/srfs-core/src/fs_sync.rs:564-573 | From one link block back to links in the metadata block |
| `SrfsTree.ShrinkToSingle` | src/lib/srfs-core/src/fs_sync.rs:623-632 | From one list back to link blocks in the metadata block |
| `SrfsTree.Route` | src/lib/srfs-core/src/fs_sync.rs:1411-1456 | Following the links leads to data block i in all three layouts |
| `SrfsTree.Shifts` | src/lib/srfs-core/src/fs_sync.rs:1418-1455 | The shifts and masks on offsets are division and remainder of block numbers |
| `SrfsFile.PasteData` | src/lib/srfs-core/src/fs_sync.rs:1394-1409 | Pasting bytes into a data block changes those bytes of the file and no link |
| `SrfsFile.ExtendData` | src/lib/srfs-core/src/fs_sync.rs:1162-1180 | A file gains the bytes of a new last block |
| `SrfsFile.Spill` | src/lib/srfs-core/src/fs_sync.rs:1085-1134 | From metadata block to data block, contents kept |
| `SrfsFile.Cut` | src/lib/srfs-core/src/fs_sync.rs:485-496 | A shorter file of as many blocks |
| `SrfsFile.DropBlock` | src/lib/srfs-core/src/fs_sync.rs:497-581 | A file without its last block |
| `SrfsFile.Unspill` | src/lib/srfs-core/src/fs_sync.rs:516-531 | Back into the metadata block, contents kept |
| `SrfsDir.EntryOfSetName` | src/lib/srfs-core/src/layout.rs:158-165 | A name written into an entry reads back, and no other entry changes |
| `SrfsDir.EntryOfSet` | src/lib/srfs-core/src/layout.rs:500-523 | An entry written into a block reads back, and no other entry changes |
| `SrfsDir.EntryOfCopy` | src/lib/srfs-core/src/fs_sync.rs:869-876 | Copying an entry between blocks copies that entry alone |
| `SrfsDir.PutEntry` | src/lib/srfs-core/src/fs_sync.rs:203-218 | One entry of the sequence replaced, or appended to a block with room |
| `SrfsDir.ExtendEntries` | src/lib/srfs-core/src/fs_sync.rs:186-202 | One entry appended in a new block |
| `SrfsDir.SpillEntries` | src/lib/srfs-core/src/fs_sync.rs:169-192 | From metadata block to data block, entries kept in order |
| `SrfsDir.CutEntries` | src/lib/srfs-core/src/fs_sync.rs:877-884 | The last entry dropped, its block kept |
| `SrfsDir.DropEntryBlock` | src/lib/srfs-core/src/fs_sync.rs:877-884 | The last entry dropped with its block |
| `SrfsDir.UnspillEntries` | src/lib/srfs-core/src/fs_sync.rs:885-900 | Back into the metadata block, entries kept in order |
| `SrfsLinks.SwapRemoveKeeps` | src/lib/srfs-core/src/fs_sync.rs:846-876 | Moving the last entry into the hole keeps all other entries and their distinctness |
| `SrfsLinks.Unlink` | src/lib/srfs-core/src/fs_sync.rs:838-966 | Removing an entry leaves the tree right but for its object |
| `SrfsLinks.Attach` | src/lib/srfs-core/src/fs_sync.rs:715-733 | An entry and a parent link that agree complete the tree |
| `SrfsLinks.Create` | src/lib/srfs-core/src/fs_sync.rs:344-351 | A new empty object disturbs nothing |
| `SrfsLinks.Delete` | src/lib/srfs-core/src/fs_sync.rs:826-834 | An unnamed empty object can go |
| `SrfsLinks.Rename` | src/lib/srfs-core/src/fs_sync.rs:700-709 | A fresh name keeps names distinct |
| `SrfsDirOps.AfterMove` | src/lib/srfs-core/src/fs_sync.rs:711-795 | The whole invariant after a move between directories |
| `SrfsDirOps.AfterRemove` | src/lib/srfs-core/src/fs_sync.rs:797-835 | The whole invariant after a removal |
| `SrfsDirOps.CreatedLinked` | src/lib/srfs-core/src/fs_sync.rs:312-363 | The tree after a creation: parent link and entry agree, names stay distinct |
| `SrfsFileOps.BlockAppended` | src/lib/srfs-core/src/fs_sync.rs:1162-1392 | The object on the device after an append in a new block, in every layout |
| `SrfsFileOps.Updated` | src/lib/srfs-core/src/fs_sync.rs:1394-1409 | The whole invariant after an overwrite |
| `SrfsFileOps.Spilled` | src/lib/srfs-core/src/fs_sync.rs:1085-1134 | The whole invariant after leaving the metadata block |
| `SrfsFileOps.TruncatedInPlace` | src/lib/srfs-core/src/fs_sync.rs:485-496 | The whole invariant after a truncation without a layout change |
| `SrfsFileOps.AfterDrop` | src/lib/srfs-core/src/fs_sync.rs:497-643 | The whole invariant after a block is dropped |
| `SrfsFileOps.AfterUnspill` | src/lib/srfs-core/src/fs_sync.rs:516-533 | The whole invariant after returning to the metadata block |
| `BlockCache.BlockCache.constructor` | src/lib/srfs-core/src/block_cache.rs:41-48 | An empty cache shows the device |
| `BlockCache.BlockCache.PushTop` | src/lib/srfs-core/src/block_cache.rs:158-165 | The swap loop is a rotation that brings the slot to the front |
| `BlockCache.BlockCache.Find` | src/lib/srfs-core/src/block_cache.rs:50-57 | The first copy of the block, or none |
| `BlockCache.BlockCache.Read` | src/lib/srfs-core/src/block_cache.rs:50-68 | Returns the block as seen through the cache; the view of the whole device is unchanged, the slots are exactly the LRU move or the eviction of the last |
| `BlockCache.BlockCache.ReadMut` | src/lib/srfs-core/src/block_cache.rs:70-90 | The same, with the front slot dirty |
| `BlockCache.BlockCache.MarkDirty` | src/lib/srfs-core/src/block_cache.rs:70-90 | Marking dirty changes no view |
| `BlockCache.BlockCache.Get` | src/lib/srfs-core/src/block_cache.rs:92-101 | The cached block, moved to the front; view unchanged |
| `BlockCache.BlockCache.GetMut` | src/lib/srfs-core/src/block_cache.rs:103-113 | The same, dirty |
| `BlockCache.BlockCache.GetBlockUninit` | src/lib/srfs-core/src/block_cache.rs:115-122 | Changes the view at that block only, whatever older copies of it are left in the cache |
| `BlockCache.BlockCache.SetFront` | src/lib/srfs-core/src/block_cache.rs:28-30 | Writing through the returned reference changes the view at that block only |
| `BlockCache.BlockCache.Write` | src/lib/srfs-core/src/block_cache.rs:124-138 | The device catches up with the view, which is unchanged |
| `BlockCache.BlockCache.WriteUncached` | src/lib/srfs-core/src/block_cache.rs:149-156 | Coherent afterwards if and only if the block is not cached, or its first copy is dirty, or has the written contents |
| `BlockCache.RotateKeeps` | src/lib/srfs-core/src/block_cache.rs:158-165 | Moving a first copy to the front keeps every first copy first, so view and coherence stay |
| `BlockCache.ReplaceLast` | src/lib/srfs-core/src/block_cache.rs:58-68 | Evicting a clean last slot changes the view at the new block only: stale copies are never seen |
| `BlockCache.ChangeFront` | src/lib/srfs-core/src/block_cache.rs:28-30 | Changing the front slot changes one block of the view |
| `BlockCache.CopyBack` | src/lib/srfs-core/src/block_cache.rs:124-138 | Writing back changes no view |
| `SrfsAccess.Accesses.Get` | src/lib/srfs-core/src/block_cache.rs:92-101 | A block that is one of the last 16 looked at is cached, so get does not panic |
| `SrfsAccess.Accesses.GetMut` | src/lib/srfs-core/src/block_cache.rs:103-113 | The same for get_mut |
| `SrfsAccess.Accesses.Write` | src/lib/srfs-core/src/block_cache.rs:124-138 | A write finds its block at the front and dirty, and leaves no slot dirty |
| `SrfsAccess.Accesses.Read` | src/lib/srfs-core/src/block_cache.rs:50-68 | A read evicts a clean slot or finds its block |
| `SrfsAccess.Accesses.ReadMut` | src/lib/srfs-core/src/block_cache.rs:70-90 | So does read_mut |
| `SrfsAccess.Accesses.Uninit` | src/lib/srfs-core/src/block_cache.rs:115-122 | get_block_uninit evicts a clean slot |
| `SrfsAccess.Accesses.DoAll` | src/lib/srfs-core/src/block_cache.rs:50-138 | Every list of accesses that the file system can have made (each fine when it was made) is answered by the cache, from a clean one on and whatever is written: no get, get_mut or write misses, no dirty slot is evicted |
| `SrfsAccess.TrailIsLog` | src/lib/srfs-core/src/block_cache.rs:50-138 | A trail is its list of accesses, each of which was fine when it was made |
| `SrfsAccess.KnowsLooked` | src/lib/srfs-core/src/block_cache.rs:50-68 | A lookup moves every other block back by one slot at most |
| `SrfsAccess.KnowsTaken` | src/lib/srfs-core/src/block_cache.rs:115-122 | So does taking a slot for a new block |
| `FrusaRuns.RunClient` | src/lib/frusa/src/lib.rs:763-777 | Every run of alloc, dealloc and reclaim requests, for every number of slabs and with a fallback allocator that may refuse at any time, is served request by request: an alloc adds one grant unless the fallback refuses, a dealloc takes exactly its grant away, reclaim takes nothing; at every moment no two grants overlap and each is as large as asked and aligned as asked up to 2M; at the end the client holds exactly what is allocated. It stops early only at a request no client may make or when the set-up is refused |
| `FrusaRuns.HeldSeparate` | src/lib/frusa/src/lib.rs:763-777 | What a client holds never overlaps and is aligned as asked: entries, metadata and the fallback's own regions together |
| `FrusaRuns.DoTake` | src/lib/frusa/src/lib.rs:763-769 | alloc adds one grant, or none exactly if the fallback refuses; it panics exactly if the set-up on first use is refused |
| `FrusaRuns.DoGive` | src/lib/frusa/src/lib.rs:771-776 | dealloc takes exactly that allocation away |
| `FrusaRuns.DoSweep` | src/lib/frusa/src/lib.rs:614-622 | reclaim takes nothing from the client and moves nothing; it panics exactly if the set-up on first use is refused |
| `FrusaRuns.ReclaimedGrants` | src/lib/frusa/src/lib.rs:614-680 | After a reclaim every live allocation is live, in the same place and slab, and none is new |
| `Frusa.Frusa.constructor` | src/lib/frusa/src/lib.rs:316-327 | An allocator that holds nothing, for every number of slabs that the constructor accepts |
| `Frusa.Frusa.FallbackAlloc` | src/lib/frusa/src/lib.rs:298-302 | The fallback allocator: any free aligned region, or null |
| `Frusa.Frusa.FallbackDealloc` | src/lib/frusa/src/lib.rs:298-302 | A region goes back only with the size and alignment it was obtained with |
| `Frusa.Frusa.BlockAlloc` | src/lib/frusa/src/lib.rs:137-156 | The lowest free entry of a block; null only if there is none or a swap is lost |
| `Frusa.Frusa.SlabAlloc` | src/lib/frusa/src/lib.rs:189-214 | An entry that was free; null only if the list has none or a swap was lost; bytes_in_use stays the set bits times the entry size |
| `Frusa.Frusa.SlabDealloc` | src/lib/frusa/src/lib.rs:216-236 | Clears the bit of the one block that holds the address |
| `Frusa.Frusa.AddPage` | src/lib/frusa/src/lib.rs:408-445 | A metadata page is one block of 64 entries whose first is its own structure |
| `Frusa.Frusa.AllocMetadata` | src/lib/frusa/src/lib.rs:447-465 | A metadata entry that was not in use, or null if no page can be had |
| `Frusa.Frusa.DeallocMetadata` | src/lib/frusa/src/lib.rs:751-753 | The entry is free again and nothing else changes |
| `Frusa.Frusa.DropBlocks` | src/lib/frusa/src/lib.rs:571-577 | The undo loop frees every structure already made |
| `Frusa.Frusa.LinkBlock` | src/lib/frusa/src/lib.rs:582-600 | One more linked block structure of the batch |
| `Frusa.Frusa.MakeBlocks` | src/lib/frusa/src/lib.rs:566-600 | All structures of a batch, or none |
| `Frusa.Frusa.AddBlocks` | src/lib/frusa/src/lib.rs:528-606 | A whole batch of empty blocks in front of the list, or nothing but metadata pages; live allocations are undisturbed |
| `Frusa.Frusa.FillRegion` | src/lib/frusa/src/lib.rs:562-606 | The same once the region is there |
| `Frusa.Frusa.UndoRegion` | src/lib/frusa/src/lib.rs:571-580 | The region goes back with its size and alignment |
| `Frusa.Frusa.JoinBatch` | src/lib/frusa/src/lib.rs:602-605 | The list is the new batch followed by the old list, with bytes_total raised by the region |
| `Frusa.Frusa.AllocFromSlab` | src/lib/frusa/src/lib.rs:506-526 | An entry that was not live becomes live and every other stays where it is; null exactly if the fallback refuses; while there is a free entry and no swap is lost the fallback is not asked; the loop ends |
| `Frusa.Frusa.DeallocToSlab` | src/lib/frusa/src/lib.rs:608-612 | Exactly that entry stops being live |
| `Frusa.Frusa.Unmark` | src/lib/frusa/src/lib.rs:711-721 | The unmarking loop restores every bitmap |
| `Frusa.Frusa.MarkBatch` | src/lib/frusa/src/lib.rs:689-726 | Marks all of an empty batch, or finds a live entry and leaves memory as it was |
| `Frusa.Frusa.FreeStructures` | src/lib/frusa/src/lib.rs:741-754 | Every structure of the batch goes back to the metadata slab |
| `Frusa.Frusa.MaybeFreeBatch` | src/lib/frusa/src/lib.rs:684-760 | Frees a batch if and only if it has no live entry, with its region, size and alignment |
| `Frusa.Frusa.ReclaimStep` | src/lib/frusa/src/lib.rs:651-674 | A batch leaves or stays; bytes_total drops by exactly what was freed |
| `Frusa.Frusa.ReclaimSlab` | src/lib/frusa/src/lib.rs:624-680 | Unless less than a page is unused, exactly the batches without a live entry leave and the others stay in order |
| `Frusa.Frusa.ReclaimAll` | src/lib/frusa/src/lib.rs:614-622 | The same for every slab |
| `Frusa.Frusa.Reclaim` | src/lib/frusa/src/lib.rs:614-622 | The same as a public call, which sets the allocator up on first use |
| `Frusa.Frusa.TakeTable` | src/lib/frusa/src/lib.rs:386-401 | The loop that takes the metadata entries of the slab array |
| `Frusa.Frusa.Init` | src/lib/frusa/src/lib.rs:347-406 | The first page holds the array of slabs; panics exactly if the fallback refuses it |
| `Frusa.Frusa.EmptyTable` | src/lib/frusa/src/lib.rs:383-401 | The loop that sets the slabs up, with entry sizes 16, 32, 64 and so on |
| `Frusa.Frusa.EnsureInit` | src/lib/frusa/src/lib.rs:467-485 | Set up exactly once |
| `Frusa.Frusa.Alloc` | src/lib/frusa/src/lib.rs:763-769 | A small request gets an entry that was not live, large enough, and aligned as asked up to 2M, and one that was free already if there was one and no swap was lost; a large one a region of its own; live allocations stay. The answer is null, or the set-up panics, exactly when the fallback refuses |
| `Frusa.Frusa.Dealloc` | src/lib/frusa/src/lib.rs:771-776 | Exactly the allocation returned for that layout goes |
| `FrusaList.FirstFree` | src/lib/frusa/src/lib.rs:137-156 | The lowest clear bit, or 64 |
| `FrusaList.FullIff` | src/lib/frusa/src/lib.rs:189-196 | bytes_in_use equals bytes_total if and only if no block has a free entry: what the early return of Slab::alloc rests on |
| `FrusaList.UsedUpdate` | src/lib/frusa/src/lib.rs:189-236 | The count of set bits follows a change of one block |
| `FrusaMem.LiveApart` | src/lib/frusa/src/lib.rs:137-236 | Live allocations never overlap |
| `FrusaMem.LiveApartFromOthers` | src/lib/frusa/src/lib.rs:408-445 | Live allocations never overlap metadata or the clients' own regions |
| `FrusaBatch.WholeBlocks` | src/lib/frusa/src/lib.rs:533-564 | A region is a whole number of blocks, more than zero and fewer than 2^16, in every slab: the assertions of the source hold |
| `FrusaBatch.EntryAligned` | src/lib/frusa/src/lib.rs:550-557 | Entries up to 2M are aligned to their size |
| `FrusaBatch.LargeAligned` | src/lib/frusa/src/lib.rs:550-557 | Entries above 2M are aligned to 2M |
| `FrusaAlign.AlignedIff` | src/lib/frusa/src/lib.rs:487-557 | In every state of the allocator what serves a small request is aligned as asked if and only if at most 2M is asked for |
| `FrusaAlign.Misaligned` | src/lib/frusa/src/lib.rs:528-606 | For every larger slab a state of the allocator, within its invariant, with a live entry at address 2M |
| `Arithmetic.LogUp` | src/lib/frusa/src/lib.rs:497-504 | The least power of two that is large enough |
| `FrusaBatch.OrderFits` | src/lib/frusa/src/lib.rs:487-504 | The chosen slab exists, its entries are large enough and a multiple of the alignment |
| `FrusaBatch.SmallIff` | src/lib/frusa/src/lib.rs:487-504 | A request is served from a slab if and only if the entries of some slab are no smaller than its size and its alignment, and then from the first such slab |
| `FrusaBatch.AlignedAsAsked` | src/lib/frusa/src/lib.rs:487-557 | The address is aligned as asked, for alignments up to 2M and entries of any size |
| `FrusaBatch.BatchAdded` | src/lib/frusa/src/lib.rs:582-605 | Every list stays a concatenation of complete batches, blocks apart |
| `FrusaBatch.GrowthDone` | src/lib/frusa/src/lib.rs:528-606 | The whole invariant after growth |
| `FrusaBatch.GrowthFailed` | src/lib/frusa/src/lib.rs:557-580 | The whole invariant after growth that failed half way |
| `FrusaBatch.DataBit` | src/lib/frusa/src/lib.rs:189-236 | The whole invariant after one bit changes, and what that does to the set of live allocations |
| `FrusaReclaim.BatchAlone` | src/lib/frusa/src/lib.rs:732-757 | Only the blocks of a batch lie in its region, so freeing it is safe |
| `FrusaReclaim.ListShrunk` | src/lib/frusa/src/lib.rs:656-668 | List and counters after a batch leaves |
| `FrusaReclaim.BatchGone` | src/lib/frusa/src/lib.rs:732-757 | The data side of the invariant after a batch leaves |
| `FrusaReclaim.BatchFreed` | src/lib/frusa/src/lib.rs:684-760 | The whole invariant after a batch leaves |
| `RwLock.StepInv` | src/lib/frusa/src/rwlock.rs:12-55 | Every step keeps the word equal to twice the readers (holding or backing off) plus the writer bit, with at most one writer, for fewer than 2^31 threads |
| `RwLock.WordKept` | src/lib/frusa/src/rwlock.rs:12-55 | The arithmetic of that step: the wrapping 32-bit operations never wrap |
| `RwLock.RunInv` | src/lib/frusa/src/rwlock.rs:12-55 | The same in every run |
| `RwLock.MutualExclusion` | src/lib/frusa/src/rwlock.rs:38-55 | While one thread has the write lock no other has either lock, so reclaim never overlaps alloc or dealloc in a slab |
| `RwLock.WriteRefusedIff` | src/lib/frusa/src/rwlock.rs:38-42 | single_write_lock answers false exactly when another thread is behind the writer bit |
| `RwLock.WriterProgress` | src/lib/frusa/src/rwlock.rs:44-55 | For a waiting writer the word says exactly whether a reader is left; the assertion in write_unlock holds |
| `RwLock.ReadAdmittedIff` | src/lib/frusa/src/rwlock.rs:12-23 | try_read_lock answers true if and only if no thread is behind the writer bit and fewer than 2^30 threads are counted in the word |
| `RwLock.WriteAdmittedIff` | src/lib/frusa/src/rwlock.rs:44-50 | A poll of single_write_lock ends it if and only if no thread is counted in the word |
| `RwLock.LocksChangeHands` | src/lib/frusa/src/rwlock.rs:12-55 | Nothing but a thread's own calls gives it or takes from it either lock |
| `IoChannel.StepInv` | src/lib/moto-ipc/src/io_channel.rs:449-514 | Every step of every sender and receiver keeps the slot, stamp and history invariant |
| `IoChannel.RunInv` | src/lib/moto-ipc/src/io_channel.rs:405-514 | The invariant holds in every run from the stamps that connect sets |
| `IoChannel.SlotsApart` | src/lib/moto-ipc/src/io_channel.rs:455-513 | No slot is worked on by two threads |
| `IoChannel.ReadMsgInv` | src/lib/moto-ipc/src/io_channel.rs:511-513 | The message a receiver copies is the one sent at its position |
| `IoChannel.StepRefinesFifo` | src/lib/moto-ipc/src/io_channel.rs:449-514 | Each step leaves a plain FIFO queue of at most 64 messages alone, appends at its tail (a winning send) or removes its head (a winning recv) |
| `IoChannel.DeliveredIsSent` | src/lib/moto-ipc/src/io_channel.rs:423-514 | In every run what is received at a position is what its sender sent, at most once, and no slot is written and read at the same time |
| `IoChannel.QuiescentDelivery` | src/lib/moto-ipc/src/io_channel.rs:449-514 | With no call in progress exactly the claimed messages are delivered: nothing is lost |
| `IoChannel.SendNotReadyIff` | src/lib/moto-ipc/src/io_channel.rs:450-480 | The stamp that send loads makes it answer NotReady if and only if its position is still the head and the message one lap back has not been delivered; every other end of a send is told by `IoCalls.SendEnds` |
| `IoChannel.HeadSlot` | src/lib/moto-ipc/src/io_channel.rs:450-480 | The slot of the head is free if and only if the message one lap back has been delivered |
| `IoChannel.RecvNotReadyIff` | src/lib/moto-ipc/src/io_channel.rs:483-514 | NotReady exactly when the position is still the tail and nothing is published there |
| `IoCalls.SendOutcomes` | src/lib/moto-ipc/src/io_channel.rs:450-480 | In every run, for every send: one that returned Ok stored its message at one position, published, that no other send has; one that returned NotReady stored it nowhere and found the queue full; every position holds the message of one send; with all threads idle every send has returned |
| `IoCalls.RecvOutcomes` | src/lib/moto-ipc/src/io_channel.rs:483-514 | The same for every recv: one that returned Ok took one position that no other recv has, and its message is the one sent there; one that returned NotReady took none and found none ready |
| `IoCalls.SendEnds` | src/lib/moto-ipc/src/io_channel.rs:450-480 | However a send ends, at any step: with a claimed position it has just published its message there, without one the queue is full |
| `IoCalls.RecvEnds` | src/lib/moto-ipc/src/io_channel.rs:483-514 | However a recv ends: with a claimed position it returns the message sent there and has just released the slot, without one none is ready |
| `IoCalls.SendTurns` | src/lib/moto-ipc/src/io_channel.rs:450-480 | Every step of a send begins it, goes on with the same message, claims the next position for it, or ends it |
| `IoCalls.RecvTurns` | src/lib/moto-ipc/src/io_channel.rs:483-514 | The same for recv |
| `IoCalls.NotReadyWasFull` | src/lib/moto-ipc/src/io_channel.rs:450-480 | A send that returned NotReady found the queue full at a step of the run |
| `IoCalls.NotReadyWasNone` | src/lib/moto-ipc/src/io_channel.rs:483-514 | A recv that returned NotReady found no message ready at a step of the run |
| `IoCalls.LaterSendsFollow` | src/lib/moto-ipc/src/io_channel.rs:450-480 | In every run, a send that began after another had returned stores its message behind that of the other |
| `IoCalls.LaterRecvsFollow` | src/lib/moto-ipc/src/io_channel.rs:483-514 | A recv that began after another had returned takes a later message |
| `IoCalls.SendAlone` | src/lib/moto-ipc/src/io_channel.rs:450-480 | From every state of every run, a send that no other thread disturbs comes to its end: it has stored and published its message, or the queue was full |
| `IoCalls.RecvAlone` | src/lib/moto-ipc/src/io_channel.rs:483-514 | The same for recv: it has returned the oldest message, or none was ready |
| `IoCalls.HaveSends` | src/lib/moto-ipc/src/io_channel.rs:450-480 | Every run has such a history of sends |
| `IoCalls.HaveRecvs` | src/lib/moto-ipc/src/io_channel.rs:483-514 | and of recvs |
| `CallLog.NotedOk` | src/lib/moto-ipc/src/io_channel.rs:450-514 | Steps that each begin a call, go on with it, claim the next position or end it keep the history in order: who is in which call, what each has claimed, what each ended with |
| `CallLog.ClaimsOnce` | src/lib/moto-ipc/src/io_channel.rs:450-514 | A call claims one position at most |
| `CallLog.EndsWithClaim` | src/lib/moto-ipc/src/io_channel.rs:450-514 | A finished call claimed exactly what it ended with |
| `CallLog.LaterClaims` | src/lib/moto-ipc/src/io_channel.rs:450-514 | A call that began after another had ended claims a later position |
| `LapCode.New` | src/lib/moto-runtime/src/util.rs:209-239 | The lap is a power of two above the capacity, for every capacity, and at most twice the capacity |
| `LapCode.IndexOfEnc` | src/lib/moto-runtime/src/util.rs:250-251 | Masking the word of a position gives its slot |
| `LapCode.AdvanceEnc` | src/lib/moto-runtime/src/util.rs:253-261 | The new tail computed by push is the word of the next position |
| `LapCode.StampsDistinct` | src/lib/moto-runtime/src/util.rs:209-261 | Free stamps and full stamps of a slot never collide; words are unique to positions |
| `LapCode.LenIsDistance` | src/lib/moto-runtime/src/util.rs:436-458 | The case distinction of len is the distance of the two positions |
| `ArrayQueue.StepInv` | src/lib/moto-runtime/src/util.rs:241-407 | Every step of push, force_push, pop and len keeps the invariant, for every capacity |
| `ArrayQueue.RunInv` | src/lib/moto-runtime/src/util.rs:209-407 | The same in every run |
| `ArrayQueue.PushAppends` | src/lib/moto-runtime/src/util.rs:269-284 | A winning push appends to a queue that is not full |
| `ArrayQueue.PopRemovesOldest` | src/lib/moto-runtime/src/util.rs:360-384 | A winning pop removes the oldest value, the one it returns |
| `ArrayQueue.ForceDisplacesOldest` | src/lib/moto-runtime/src/util.rs:317-327 | A winning force_push finds the queue full and removes the oldest value |
| `ArrayQueue.ForceAppends` | src/lib/moto-runtime/src/util.rs:328-335 | and then appends its own; occupancy never exceeds the capacity |
| `ArrayQueue.OtherStepsKeep` | src/lib/moto-runtime/src/util.rs:241-407 | No other step changes the queue, so values leave exactly once and in order |
| `ArrayQueue.ValuesLeaveIntact` | src/lib/moto-runtime/src/util.rs:317-407 | A pop returns the value pushed at its position, a force_push the value it displaced; no slot is shared |
| `ArrayQueue.SlotAccessInBounds` | src/lib/moto-runtime/src/util.rs:263-266 | The unchecked slot access is in bounds |
| `ArrayQueue.PushFullIff` | src/lib/moto-runtime/src/util.rs:303-315 | push gives its value back exactly when the queue is full as it loads the head |
| `ArrayQueue.PopEmptyIff` | src/lib/moto-runtime/src/util.rs:390-397 | pop answers None exactly when the queue is empty as it loads the tail |
| `ArrayQueue.LenIsExact` | src/lib/moto-runtime/src/util.rs:436-458 | What len returns is the exact occupancy at one moment of the call |
| `QueueCalls.PushOutcomes` | src/lib/moto-runtime/src/util.rs:241-343 | In every run, for every push and force_push: one that was accepted queued its value at one position that no other call has; one that was given back queued it nowhere and found the queue full; with all threads idle every call has returned |
| `QueueCalls.PopOutcomes` | src/lib/moto-runtime/src/util.rs:345-407 | The same for every pop: one that returned a value took one position that no other pop has, one that returned None took none and found the queue empty; with all threads idle every pop has returned |
| `QueueCalls.OthersDisplaced` | src/lib/moto-runtime/src/util.rs:317-407 | A value that left through no pop was displaced by a force_push on a full queue |
| `QueueCalls.PushEnds` | src/lib/moto-runtime/src/util.rs:241-343 | However a push or force_push ends, at any step: with a claimed position its value is in its slot and just stamped, and a force_push hands back the value one lap before; without one it is a push and the queue is full |
| `QueueCalls.PopEnds` | src/lib/moto-runtime/src/util.rs:345-407 | However a pop ends: with a claimed position it returns the value pushed there and has just released the slot; without one the queue is empty |
| `QueueCalls.LenEnds` | src/lib/moto-runtime/src/util.rs:436-458 | len goes on until it returns an exact occupancy |
| `QueueCalls.PushTurns` | src/lib/moto-runtime/src/util.rs:241-343 | Every step of a push begins it, goes on with the same value, claims the next position for it, or ends it; push and force_push do not change into each other |
| `QueueCalls.PopTurns` | src/lib/moto-runtime/src/util.rs:345-407 | The same for pop; a displaced value leaves through no pop |
| `QueueCalls.LaterPushesFollow` | src/lib/moto-runtime/src/util.rs:241-343 | In every run, a push that began after another had returned queues its value behind that of the other |
| `QueueCalls.LaterPopsFollow` | src/lib/moto-runtime/src/util.rs:345-407 | A pop that began after another had returned takes a later value |
| `QueueSettled.SettledStep` | src/lib/moto-runtime/src/util.rs:241-407 | Every step keeps: each slot of the last lap of claims that no thread works on is stamped as published or as released |
| `QueueSettled.RunSettled` | src/lib/moto-runtime/src/util.rs:209-407 | The same in every run |
| `QueueSettled.PushAlone` | src/lib/moto-runtime/src/util.rs:241-343 | While no thread works on a slot, a push that no other disturbs queues its value, or gives it back if the queue is full; a force_push queues it, and hands back the oldest if the queue was full |
| `QueueSettled.PopAlone` | src/lib/moto-runtime/src/util.rs:345-407 | and a pop returns the oldest value, or None if the queue is empty |
| `QueueSettled.RestsWhenIdle` | src/lib/moto-runtime/src/util.rs:241-407 | In every state of every run where no thread works on a slot, the memory is as those runs need it |
| `QueueSettled.AloneSteps` | src/lib/moto-runtime/src/util.rs:241-407 | Those runs are steps of the queue, whatever the other threads are at |
| `NetSubchannels.OccupiedLeavesRoom` | src/lib/moto-runtime/src/net.rs:331-339 | Behind an occupied flag there is one competitor fewer for the rest |
| `NetSubchannels.StepInv` | src/lib/moto-runtime/src/net.rs:53-77 | Every step keeps: threads scanning at or holding an index of h or more number at most IO_SUBCHANNELS - h |
| `NetSubchannels.RunInv` | src/lib/moto-runtime/src/net.rs:53-77 | The same in every run |
| `NetSubchannels.ReservationSafety` | src/lib/moto-runtime/src/net.rs:331-360 | In every interleaving of connects, accepts and drops no scan reaches its panic, no index has two holders, the release assertion holds, and a channel is never over-reserved |
| `NetSubchannels.ScanTakesIff` | src/lib/moto-runtime/src/net.rs:331-339 | A scan takes an index if and only if no socket holds it, and else goes on to the next |
| `NetSubchannels.ReserveOpensIff` | src/lib/moto-runtime/src/net.rs:53-69 | A socket is sent to a channel with room, and a new channel is opened if and only if every channel has as many sockets as subchannels |
| `NetSubchannels.SocketsMove` | src/lib/moto-runtime/src/net.rs:53-77 | A socket leaves a scan only for the index it was at, and gives up its subchannel and channel only by its own release |
| `NetSubchannels.NeverPanicsIff` | src/lib/moto-runtime/src/net.rs:331-339 | No interleaving panics if and only if there are at least two subchannels; the source has eight |
| `NetSubchannels.OneSubchannelPanics` | src/lib/moto-runtime/src/net.rs:331-360 | A run that panics with one subchannel |
| `NetSubchannels.NoSubchannelPanics` | src/lib/moto-runtime/src/net.rs:331-339 | A run that panics with none |
| `NetWake.StepInv` | src/lib/moto-runtime/src/net.rs:125-273 | Every step of the I/O thread and any number of producers keeps the hand-off invariant |
| `NetWake.RunInv` | src/lib/moto-runtime/src/net.rs:125-273 | The same in every run |
| `NetWake.NoLostWakeup` | src/lib/moto-runtime/src/net.rs:134-164 | If the I/O thread waits with no wake pending and no producer is inside its hand-off, both queues are empty, every blocked producer has a wake pending, and everything pushed has been sent |
| `NetWake.MessagesLeaveInOrder` | src/lib/moto-runtime/src/net.rs:230-264 | What was pushed leaves in that order, none lost or repeated; the assertion before sleeping holds. That every call pushes is told by `NetCalls.SendsArePushed` |
| `NetCalls.SendsArePushed` | src/lib/moto-runtime/src/net.rs:381-394 | In every run, for every call of send_msg: one that has returned pushed its message, once, at a position no other call has, whether or not it had to wait; one that has not is held by its producer, with its message or past its push; with every producer idle every call has returned |
| `NetCalls.OthersAreDrops` | src/lib/moto-runtime/src/net.rs:381-394 | What was pushed by no call was queued by the I/O thread for a dropped stream |
| `NetCalls.ActorTurns` | src/lib/moto-runtime/src/net.rs:381-394 | Every step of a producer begins a call, goes on with the same message, pushes it, or ends the call past its push |
| `NetCalls.LaterSendsFollow` | src/lib/moto-runtime/src/net.rs:381-394 | A message sent after another call had returned is pushed, and so leaves, after that call's |
| `NetCalls.SendAlone` | src/lib/moto-runtime/src/net.rs:381-394 | A send_msg that no other thread disturbs queues its message and returns, or blocks as a waiter if there is no room; either way the I/O thread is running or will be woken |
| `NetCalls.IoSleeps` | src/lib/moto-runtime/src/net.rs:125-164 | An undisturbed I/O thread with nobody waiting for room hands over everything kept and queued, in order, and sleeps |
| `NetCalls.IoDrains` | src/lib/moto-runtime/src/net.rs:230-264 | and does so however many messages there are, beginning again after 33 |
| `NetCalls.HaveLog` | src/lib/moto-runtime/src/net.rs:381-394 | Every run has such a history |
| `SyncPipe.CellIsIdx` | src/lib/moto-ipc/src/sync_pipe.rs:91-156 | The two-slice copy puts each byte where its position belongs |
| `SyncPipe.StepInv` | src/lib/moto-ipc/src/sync_pipe.rs:81-335 | Every step of reader and writer keeps the invariant, with stale copies of the other's counter |
| `SyncPipe.RunInv` | src/lib/moto-ipc/src/sync_pipe.rs:81-335 | The same in every run |
| `SyncPipe.ReadIsPrefixOfWritten` | src/lib/moto-ipc/src/sync_pipe.rs:91-156 | In every run what was read is a prefix of what was written, counters stay within one ring, unread bytes sit at their masked positions |
| `SyncPipe.CopiesApart` | src/lib/moto-ipc/src/sync_pipe.rs:91-156 | The two sides never copy the same cell |
| `SyncPipe.UndoInv` | src/lib/moto-ipc/src/sync_pipe.rs:159-171 | Rolling back drops exactly the unread bytes |
| `SyncPipe.RollbackCount` | src/lib/moto-ipc/src/sync_pipe.rs:287-335 | After a rollback the count is exactly how many bytes of this call the reader took, an error exactly if none, whatever was unread from before |
| `SyncPipe.WriteEnds` | src/lib/moto-ipc/src/sync_pipe.rs:287-335 | However a write ends, at any step: its count is the number of its bytes in the stream from then on, an error exactly if there are none; they are its first bytes, at the place where it began; unless the reader is gone they are all of them, behind everything written before |
| `SyncPipe.ReadEnds` | src/lib/moto-ipc/src/sync_pipe.rs:205-261 | However a read ends: it took the next unread bytes, at least one, no more than its buffer holds, and as many as it holds or as were there when it looked; or it is an error, and then nothing is unread |
| `SyncPipe.WaitsIff` | src/lib/moto-ipc/src/sync_pipe.rs:81-89 | The writer waits exactly when it finds the ring full of unread bytes, the reader exactly when it finds nothing unread and knows of no error |
| `SyncPipe.LoadsCopy` | src/lib/moto-ipc/src/sync_pipe.rs:91-136 | A copy that is begun moves as much as fits, and at least one byte |
| `SyncPipe.CommitStream` | src/lib/moto-ipc/src/sync_pipe.rs:91-122 | What a commit adds to the stream is the next part of the call |
| `FlatFs.Pack` | src/lib/flatfs/src/lib.rs:45-115 | The loop writes exactly the image: headers, names, contents, padding; its length assertion holds |
| `FlatFs.PackedSize` | src/lib/flatfs/src/lib.rs:45-53 | The size computed beforehand is the size emitted |
| `FlatFs.AppendEntry` | src/lib/flatfs/src/lib.rs:74-110 | One entry, with a next_header that points to the following entry or is zero |
| `FlatFs.PadTo8` | src/lib/flatfs/src/lib.rs:106-109 | Zero padding to eight bytes |
| `FlatFs.SampleImage` | src/lib/flatfs/src/lib.rs:15-112 | The image of one file "a" with the byte 9, byte for byte |
| `FlatFs.Unpack` | src/lib/flatfs/src/lib.rs:163-236 | The loop computes the reference reader, on every buffer, malformed ones included |
| `FlatFs.HeaderReadsBack` | src/lib/flatfs/src/lib.rs:200-204 | A header reads back field by field |
| `FlatFs.EntryReadsBack` | src/lib/flatfs/src/lib.rs:194-231 | An entry reads back as its file, or panics exactly if it is the last, empty, and ends at its name |
| `FlatFs.BodyReadsBack` | src/lib/flatfs/src/lib.rs:194-232 | The same for the chain of entries |
| `FlatFs.PutAllHolds` | src/lib/flatfs/src/lib.rs:227-236 | Inserting the files in order gives the map that holds exactly them |
| `FlatFs.UnpackOfPack` | src/lib/flatfs/src/lib.rs:163-236 | unpack of pack rebuilds exactly the packed files, or panics if and only if there is no file, or the last one is empty and its name a multiple of eight bytes long |
| `FlatFs.UnpackPanics` | src/lib/flatfs/src/lib.rs:220-232 | Both panics, for the empty image and for a single empty file with a name of eight bytes |
| `FlatFsTree.FirstSlash` | src/lib/flatfs/src/lib.rs:125-160 | The first slash, or none |
| `FlatFsTree.BuildTree` | src/lib/flatfs/src/lib.rs:238-250 | The loop that adds every file to the tree |
| `FlatFsTree.AddFileFailsIff` | src/lib/flatfs/src/lib.rs:125-160 | add_file fails exactly for names that end in a single slash after a segment |
| `FlatFsTree.PathOfSegments` | src/lib/flatfs/src/lib.rs:125-160 | The path of a name, from its segments: all that are not empty and the last in any case, or none exactly if the last is empty and the one before it is not |
| `FlatFsTree.PathNoneIff` | src/lib/flatfs/src/lib.rs:137-139 | A name has no path exactly if it ends in a single slash after a segment |
| `FlatFsTree.SplitName` | src/lib/flatfs/src/lib.rs:125-132 | Every name is slash-free segments with slashes between |
| `FlatFsTree.TreeLabelled` | src/lib/flatfs/src/lib.rs:118-160 | In every tree that is built each directory has its own name and its full path right |
| `FlatFsTree.AddFileLookup` | src/lib/flatfs/src/lib.rs:125-160 | add_file changes the tree at its own path and nowhere else |
| `FlatFsTree.AddFileLabels` | src/lib/flatfs/src/lib.rs:118-160 | Every directory keeps its own name and full path right |
| `FlatFsTree.TreeHoldsFiles` | src/lib/flatfs/src/lib.rs:238-250 | The tree is built unless a name ends in a single slash after a segment; walking any path finds the last file with that path, and nothing where there is none |
| `FlatFsTree.TreeOfMap` | src/lib/flatfs/src/lib.rs:238-250 | The same for the map in any order, when paths are distinct |
| `FlatFsTree.TreeOfPack` | src/lib/flatfs/src/lib.rs:45-250 | Pack, unpack and build: walking the tree by each file's path finds its bytes, every other path finds nothing, and every directory has its name and full path right |
| `UrlCodec.EncodeIsText` | src/lib/moto-sys/src/lib.rs:43-49 | The three passes encode character by character: no pass disturbs another's output |
| `UrlCodec.DecodeEq` | src/lib/moto-sys/src/lib.rs:52-53 | The first decoding pass undoes the last encoding pass |
| `UrlCodec.DecodeCol` | src/lib/moto-sys/src/lib.rs:54 | The second undoes the second |
| `UrlCodec.DecodeAmp` | src/lib/moto-sys/src/lib.rs:56 | The third undoes the first |
| `UrlCodec.RoundTrip` | src/lib/moto-sys/src/lib.rs:43-57 | Decoding undoes encoding, for every string |
| `UrlCodec.EncodedIsSafe` | src/lib/moto-sys/src/lib.rs:43-49 | The encoded form has neither separator, and encoding is one-to-one |

## Left out

- Weak memory effects and fences: steps are sequentially consistent, also where `net.rs` stores one flag and then loads another.
- Syscalls, memory mapping, handles, CRCs, timestamps and pointer casts; a wake is one pending token, as `thread.rs` describes it.
- srfs crash recovery, and what follows an I/O error or running out of blocks inside a transaction: the file system then refuses further work, and the contracts say nothing about the device.
- SrfsFs.SyncFileSystem.Write: through the id of a removed object that still validates, writes that outgrow its metadata block are not modelled; they would allocate a block for an object that is not there.
- SrfsFs.SyncFileSystem.AddDirectoryEntry: the parent is not the id of a removed directory that still validates; the new object would have no place in the tree.
- SrfsFs.SyncFileSystem.Remove: the same for a removed object.
- SrfsFs.SyncFileSystem.MoveRename: the same for both ids.
- Ids that were never issued and whose block, used for something else, happens to hold the header that they ask for.
- srfs `get_name`, `get_parent`, `stat`, `get_num_entries`, `get_file_size` and UTF-8 checks: each only reads a field that the invariant already fixes.
- Overflow of the 64-bit generation counter of srfs.
- The superblock is written past the cache and is not part of the trail of accesses.
- The trail of accesses is written by the methods of the file system class beside their reads and changes of blocks; the contracts say that it only grows and that every access in it is answered, not that no access is missing from it.
- Failed device reads, which leave a cache slot tagged with the new block number.
- BlockCache.BlockCache.Read: requires the evicted slot to be clean where the source asserts it; `SrfsAccess.dfy` proves that it is, for every access that srfs makes.
- BlockCache.BlockCache.ReadMut: the same precondition.
- BlockCache.BlockCache.GetBlockUninit: the same precondition.
- BlockCache.BlockCache.Get: requires the block to be cached where the source panics otherwise; `SrfsAccess.dfy` proves that it is, for every access that srfs makes.
- BlockCache.BlockCache.GetMut: the same precondition.
- BlockCache.BlockCache.Write: requires a cached and dirty block, where the source panics or asserts.
- Frusa under concurrency: the class is run by one thread that may lose compare-and-swaps to others; the locked marker in the list head and the reclaim lock are not interleaved with it. `RwLock.dfy` has the lock alone.
- Frusa.Frusa.Alloc: alignment is stated up to 2M; above that `FrusaAlign.AlignedIff` shows that it can fail in every configuration that takes such requests.
- Frusa's metadata pages are never given back, in the source as in the model.
- RwLock.StepInv: for fewer than 2^31 threads, so that the 32-bit word cannot wrap.
- Progress of the lock-free loops while other threads disturb them, and termination of spin loops.
- Page allocation in `io_channel.rs`, and dropping an `ArrayQueue`.
- Timeouts of a write to a pipe whose reader is alive: `unwrite` takes the reader to be gone.
- The futex, the `mpmc` channels, the kibim editor, the kernel, the boot loaders, `httpd`, `rnetbench`, `mdbg` and `sys-tty`.
- The eight-byte alignment of the buffer that `unpack` is given is taken as given, and UTF-8 validity is an arbitrary predicate on names.
