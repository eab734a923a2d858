# A verified model of TécnicoFS, its producer-consumer queue and the box requests

The project models three parts of the repository and proves what they promise, for all parameters and all runs.

**TécnicoFS** (`fs/state.c`, `fs/operations.c`). The concrete layout is kept: an inode table, three first-fit
bitmaps, one flat byte region cut into blocks, a directory of 44-byte records inside the root's block, and an
open-file table. `FileSystem` holds the program itself, a class over fixed arrays that loops scan and update in place.
Each of its methods is proved equal to the step of the same name on the tables' values (`FsState`, `Operations`), where
a failed `ALWAYS_ASSERT` or an access outside the tables is the outcome `Fault`. `AbstractFs` is what a client sees: a
map from names to byte strings, and handles with cursors; no inodes, blocks or slots. `Refinement` proves that every
operation on the tables is the operation of the same name on that map, with the same return values, exhaustion and
handle numbers included.

**The queue** (`producer-consumer/producer-consumer.c`). `Queue` is a transition system for any number of threads, with
one step per lock operation, critical section, wait, wake-up (spurious ones included) and signal, and all three locks
explicit. `Ring` holds the critical sections as functions, `PcQueue` the same sections as methods over the buffer
array. Enqueuers and dequeuers run the same protocol with free places and elements exchanged, so one definition
serves both.

**Create and remove requests** (`manager/manager.c`, `mbroker/mbroker.c`). `Requests` is the 289-byte message and what
serving a sequence of requests does to a set of box names; `Broker` is the manager's and the server's code, with the one
reused message buffer, and the path from any ready interleaving of the queue to the files. `Workers` and `Threads` put
the dispatching thread, the queue and any number of workers together, each step of each thread interleaved with all
others; since creating a box is two calls on the file system, another worker may unlink a box that is still open, and
`Orphans` shows what the file system keeps then.

## Files, from the bottom up

- `Bytes`, `Bitmap`, `Modular`: C strings, `size_t`, little-endian ints, flat memory, first fit, remainders.
- `Directory`: records in memory as a finite map. `FsState`, `Operations`: the two C files as steps.
- `AbstractFs`: the client's file system. `Storage`, `Abstraction`, `Refinement`: the invariant and the refinement.
- `FileSystem`: the arrays and loops.
- `Interface`: the operations again, on the characters of a path and the numbers a caller passes.
- `Runs`, `Exactness`, `History`, `Streams`, `Conservation`, `Isolation`, `Orphans`: theorems over runs.
- `Ring`, `Queue`, `QueueTheorems`, `PcQueue`: the queue. `Requests`, `Broker`: requests. `Workers`, `Threads`: all
  threads together.

## What is assumed

- Counts of inodes, blocks, handles and directory records fit in an `int`, the last because `find_in_dir` counts through
  them with an `int` (`fs/state.c:391`); the block size is positive, the data region is one C object, and a written
  buffer is one too (at most PTRDIFF_MAX bytes). Together these rule out overflow in the sum at
  `fs/operations.c:206`.
- A client does not unlink a file while a handle is open on it, and does not truncate a non-empty file while an open
  handle on it is past its start. The code does not check either; `Exactness.UnlinkKeepsInvariantIff` and
  `Exactness.OpenKeepsInvariantIff` show that these two conditions are exactly what the invariant needs,
  `Exactness.UnlinkingOpenFile` and `Exactness.TruncatingOpenFile` that a client can break each from `tfs_init` on in two
  or three calls. `Orphans.LiveRunsKeepNames` needs neither: it only asks that no read or write goes through a handle
  that is orphaned or past the end of its file.
- Nothing is assumed about the memory `malloc` returns. `clear_dir_entry` compares names without looking at `d_inumber`,
  but slots are filled first-fit and cleared with zeroes, so an empty slot in front of a live one is always blank.
- The list of boxes that the workers get is NULL and stays NULL: `main` sets it so (`mbroker/mbroker.c:449`, `472`), and
  `insertBox` and `deleteBox` take it by value. So `deleteBox` always fails, and every removal is answered with an
  error, also the one that removes the box (`Requests.AnswersTellOutcomesIff`).
- Each file-system operation holds the library's one mutex from start to end and is one atomic step.

Where code and comments differ the model follows the code: `fs/operations.h:116-124` speaks of link counts, but
`tfs_unlink` removes the file at once; and a truncating open that finds the handle table full leaves the file
truncated, which `fs/operations.c:158-160` says only of creation.

## Model

| member | source | states |
|---|---|---|
| FileSystem.TakeFirstFree | projeto-so-2022-23-main/fs/state.c:163-178 | the allocation loop takes the first FREE entry of the bitmap and changes no other, or returns -1 when there is none |
| Bitmap.FirstFreeSpec | projeto-so-2022-23-main/fs/state.c:410-423 | first fit fails if and only if the number of TAKEN entries is the size of the table, and otherwise finds a FREE entry |
| Bitmap.FirstFreeIsLeastUnused | projeto-so-2022-23-main/fs/state.c:468-480 | the entry first fit finds is the least number not in use, so handle numbers are a function of the open handles alone |
| FileSystem.Tfs.constructor | projeto-so-2022-23-main/fs/state.c:95-128 | fresh tables of the given sizes, or of 64 inodes, 1024 blocks of 1024 bytes and 16 handles; all bitmaps FREE, every other byte arbitrary |
| FileSystem.Tfs.InodeAlloc | projeto-so-2022-23-main/fs/state.c:162-179 | equal to the step on the tables: one bit of the inode bitmap changes |
| FileSystem.Tfs.DataBlockAlloc | projeto-so-2022-23-main/fs/state.c:410-423 | equal to the step on the tables: one bit of the block bitmap changes |
| FileSystem.Tfs.DataBlockFree | projeto-so-2022-23-main/fs/state.c:431-438 | equal to the step on the tables, for every valid block number |
| FileSystem.Tfs.InodeCreate | projeto-so-2022-23-main/fs/state.c:198-244 | equal to the step on the tables for files and directories, with the roll-back when no block is free |
| FileSystem.Tfs.InodeDelete | projeto-so-2022-23-main/fs/state.c:252-267 | equal to the step on the tables, whenever both assertions of the code hold |
| FileSystem.Tfs.LabelEntries | projeto-so-2022-23-main/fs/state.c:226-232 | only the inumber fields of the block's records are written, each with -1 |
| FileSystem.Tfs.FindInDir | projeto-so-2022-23-main/fs/state.c:375-400 | the loop over records returns the inumber of the first live record whose padded name matches, or -1 |
| FileSystem.Tfs.AddDirEntry | projeto-so-2022-23-main/fs/state.c:333-360 | the three partial copies amount to writing one record in the first empty slot, or nothing is written and -1 returned |
| FileSystem.Tfs.ClearDirEntry | projeto-so-2022-23-main/fs/state.c:297-316 | the first record whose C string equals the name, live or not, is blanked, or -1 is returned |
| FileSystem.Tfs.AddToOpenFileTable | projeto-so-2022-23-main/fs/state.c:468-480 | the first free handle gets the inumber and offset, or -1 is returned and nothing changes |
| FileSystem.Tfs.IsOpenHandle | projeto-so-2022-23-main/fs/state.c:507-517 | a handle is open if and only if its number is in range and its entry is TAKEN |
| FileSystem.Tfs.TfsInit | projeto-so-2022-23-main/fs/operations.c:25-44 | returns 0 exactly when there is an inode and a block; the invariant then holds and the client sees an empty file system |
| FileSystem.Tfs.TfsLookup | projeto-so-2022-23-main/fs/operations.c:68-77 | -1 for an invalid path, otherwise the directory's answer for the name after the slash |
| FileSystem.Tfs.TfsOpen | projeto-so-2022-23-main/fs/operations.c:79-161 | whole new tables and handle; under the invariant and the truncation condition, the client's open with the same result |
| FileSystem.Tfs.PrepareExisting | projeto-so-2022-23-main/fs/operations.c:99-117 | truncation frees the block and empties the inode, and the initial offset is 0 or the size after truncation |
| FileSystem.Tfs.CreateFile | projeto-so-2022-23-main/fs/operations.c:118-140 | a fresh inode linked under the name, or the inode given back and -1 |
| FileSystem.Tfs.TfsClose | projeto-so-2022-23-main/fs/operations.c:163-184 | whole new tables; under the invariant, the client's close with the same result |
| FileSystem.Tfs.TfsWrite | projeto-so-2022-23-main/fs/operations.c:186-243 | whole new tables and count; under the invariant, the client's write with the same result |
| FileSystem.Tfs.TfsRead | projeto-so-2022-23-main/fs/operations.c:245-284 | whole new tables, count and bytes; under the invariant, the client's read with the same result |
| FileSystem.Tfs.TfsUnlink | projeto-so-2022-23-main/fs/operations.c:286-328 | whole new tables; under the invariant and with no handle open on the file, the client's unlink with the same result |
| Bytes.IntRoundTrip | projeto-so-2022-23-main/fs/state.h:15-18 | a signed 32-bit inumber stored in a record's four bytes reads back as itself, -1 included |
| Bytes.StrncmpIsEquality | projeto-so-2022-23-main/fs/state.c:391-397 | the 40-byte comparison with a zero-padded name is equality of whole strings, for queries of every length |
| Bytes.StrcmpIsEquality | projeto-so-2022-23-main/fs/state.c:308-313 | the unbounded comparison with a padded name is equality of whole strings, whatever memory follows |
| Directory.FindRefinesLookup | projeto-so-2022-23-main/fs/state.c:375-400 | searching the slots is looking the name up in the directory's finite map |
| Directory.FillRefinesInsert | projeto-so-2022-23-main/fs/state.c:348-357 | filling the first empty slot with a new name keeps the directory well-formed and inserts into its map |
| Directory.ClearRefinesRemove | projeto-so-2022-23-main/fs/state.c:308-314 | blanking a live slot keeps the directory well-formed and removes its name from the map |
| Directory.MatchHits | projeto-so-2022-23-main/fs/state.c:308-313 | the clearing scan, which ignores `d_inumber`, stops at the slot that the lookup found |
| Directory.FullIffMapFull | projeto-so-2022-23-main/fs/state.c:348-359 | there is no empty slot if and only if the map has as many names as the block has records |
| Directory.PutSlot | projeto-so-2022-23-main/fs/state.c:351-353 | writing the 44 bytes of one record changes that slot and no other |
| Directory.SlotsFrame | projeto-so-2022-23-main/fs/operations.c:229 | a copy outside the directory's block leaves every record as it was |
| Directory.LabelEmptySlot | projeto-so-2022-23-main/fs/state.c:230-232 | initialisation makes a slot empty and leaves its name field as memory had it |
| FsState.BlocksAreDisjoint | projeto-so-2022-23-main/fs/state.c:448-454 | block `b` ends before any later block, and before the end of the region, begins |
| Storage.CreateInode | projeto-so-2022-23-main/fs/state.c:198-244 | a new file inode is one not in use, and there is none if and only if all are in use |
| Storage.DeleteInode | projeto-so-2022-23-main/fs/state.c:252-267 | deleting a file inode frees it and its block exactly, and keeps names and all other contents |
| Storage.TruncateInode | projeto-so-2022-23-main/fs/operations.c:106-111 | truncation frees the block, empties that file, and keeps names and all other contents |
| Storage.ContentWrite | projeto-so-2022-23-main/fs/operations.c:228-235 | a copy into a file's block overwrites exactly that stretch of its contents and grows it to cover it |
| Storage.ContentFrame | projeto-so-2022-23-main/fs/operations.c:228-229 | a copy into one block leaves the contents of files in other blocks alone |
| Storage.AddEntry | projeto-so-2022-23-main/fs/state.c:333-360 | inserts into the directory map and changes no file, or refuses exactly when the name is bad or the directory full |
| Storage.ClearEntry | projeto-so-2022-23-main/fs/operations.c:313-320 | after a successful lookup, clearing cannot fail and removes that very name, changing no file |
| Refinement.InitRefines | projeto-so-2022-23-main/fs/operations.c:25-44 | success exactly when there is room for the root; then the invariant, an empty client file system, and only the root's bits TAKEN; otherwise nothing stays allocated |
| Refinement.ResourcesRunOut | projeto-so-2022-23-main/fs/state.c:162-179 | inodes, blocks, directory slots and handles run out exactly when the client's counts of names, non-empty files and handles say so |
| Refinement.LookupRefines | projeto-so-2022-23-main/fs/operations.c:68-77 | lookup returns the inode of the name, or -1 exactly when the client has no such file |
| Refinement.OpenRefines | projeto-so-2022-23-main/fs/operations.c:79-161 | under the invariant, open never faults, keeps the invariant and is the client's open, failures and handle number included |
| Refinement.CreateFileRollsBack | projeto-so-2022-23-main/fs/operations.c:131-138 | with a bad name or a full directory the fresh inode is given back and the client sees no change |
| Refinement.CloseRefines | projeto-so-2022-23-main/fs/operations.c:163-184 | close never faults, keeps the invariant and removes exactly that handle |
| Refinement.WriteRefines | projeto-so-2022-23-main/fs/operations.c:186-243 | write never faults, keeps the invariant and overwrites the file under the cursor by what fits the block, or fails as the client's write does |
| Refinement.ReadRefines | projeto-so-2022-23-main/fs/operations.c:245-284 | read never faults, keeps the invariant and returns the file's bytes from the cursor on |
| Refinement.UnlinkRefines | projeto-so-2022-23-main/fs/operations.c:286-328 | with no handle open on the file, unlink never faults, keeps the invariant and removes exactly that name |
| Runs.RunRefines | projeto-so-2022-23-main/fs/operations.c:79-328 | any allowed sequence of calls runs without a failed assertion or stray access, keeps the invariant, and returns and ends as the client's file system does |
| Runs.FileSystemRefinesClient | projeto-so-2022-23-main/fs/operations.c:25-328 | the same from `tfs_init` on, for all parameters and whatever `malloc` left in the tables |
| Exactness.InodesAreRootAndLinks | projeto-so-2022-23-main/fs/state.c:252-267 | the TAKEN inodes are exactly the root and the inumbers of live slots; live slots share no name and no inumber; names have 1 to 39 bytes |
| Exactness.BlocksAreOwnedOnce | projeto-so-2022-23-main/fs/state.c:410-438 | the TAKEN blocks are exactly those of TAKEN inodes of positive size, no block has two owners, no size exceeds the block |
| Exactness.UnlinkKeepsInvariantIff | projeto-so-2022-23-main/fs/operations.c:313-320 | unlink keeps the invariant if and only if no handle is open on the file it removes |
| Exactness.UnlinkOrphansHandle | projeto-so-2022-23-main/fs/operations.c:202 | otherwise unlink succeeds and leaves an open handle on a FREE inode |
| Exactness.OpenKeepsInvariantIff | projeto-so-2022-23-main/fs/operations.c:106-111 | open keeps the invariant if and only if it does not truncate a non-empty file under a cursor past its start |
| Exactness.TruncateStrandsCursor | projeto-so-2022-23-main/fs/operations.c:264 | otherwise an open handle is left with its offset past the end of its now empty file |
| Exactness.StrandedReadInvents | projeto-so-2022-23-main/fs/operations.c:264-277 | a read through that handle, whose file is empty, leaves the tables or returns the lesser of what is asked for and 2^64 minus the offset, because the subtraction wraps round |
| Exactness.UnlinkingOpenFile | projeto-so-2022-23-main/fs/operations.c:292-320 | for all parameters with room for one file: `tfs_init`, creating a file and unlinking it while it is open is a run that succeeds and breaks the invariant |
| Exactness.TruncatingOpenFile | projeto-so-2022-23-main/fs/operations.c:99-117 | for all such parameters: `tfs_init`, creating a file, writing one byte and opening it again to truncate it breaks the invariant, and a read through the first handle leaves the tables or returns bytes of an empty file |
| Exactness.CreateSucceedsIff | projeto-so-2022-23-main/fs/operations.c:118-156 | a new name is created and opened if and only if the path has 2 to 40 characters, the first a slash, and a free inode, slot and handle exist |
| Interface.BadPathsAreRefused | projeto-so-2022-23-main/fs/operations.c:52-92 | in any state, open, lookup and unlink of NULL, of fewer than two characters or of a path without a leading slash return -1 and change nothing |
| Interface.LookupByName | projeto-so-2022-23-main/fs/operations.c:68-77 | for every `n`, a lookup of a slash and `n` finds the file named `n`, or -1 exactly when there is none |
| Interface.OpenByName | projeto-so-2022-23-main/fs/operations.c:79-161 | for every `n`, an open of a slash and `n` opens, creates (1 to 39 characters, an inode and 44 bytes of directory left) or truncates the file named `n`; the handle is the least one not in use, at the start or end of that file |
| Interface.UnlinkByName | projeto-so-2022-23-main/fs/operations.c:286-328 | for every `n`, an unlink of a slash and `n` removes the file named `n` and nothing else, or returns -1 exactly when there is none |
| Interface.CreatesIff | projeto-so-2022-23-main/fs/operations.c:118-156 | an absent file is created and opened if and only if creation is asked for, the path has 2 to 40 characters, the first a slash, and the counts of files and handles leave room |
| Interface.WriteByHandle | projeto-so-2022-23-main/fs/operations.c:204-243 | a write returns what fits the block after the cursor, or -1 exactly when it needs a first block and as many files as blocks besides the root's are non-empty |
| Interface.Limits | projeto-so-2022-23-main/fs/state.c:162-179 | never more files than inodes besides the root's or than 44-byte records in a block, never more handles than entries, never a file longer than a block |
| Interface.HandlesInARow | projeto-so-2022-23-main/fs/state.c:468-480 | opens of one file, none closed, return consecutive handles until the table is full and -1 from then on |
| Interface.SixteenHandles | projeto-so-2022-23-main/fs/operations.c:15-44 | after `tfs_init(NULL)` a file can be open 16 times at once and no more |
| Exactness.AllowedIff | projeto-so-2022-23-main/fs/operations.c:79-328 | a call keeps the invariant if and only if it is one of those that the runs of the theorems allow |
| Exactness.WriteFailsIff | projeto-so-2022-23-main/fs/operations.c:191-223 | write returns -1 if and only if the handle is not open, or something fits but the file is empty and no block is free |
| Exactness.FailureAtomic | projeto-so-2022-23-main/fs/operations.c:85-160 | every -1 of any operation leaves the client's file system unchanged, except the full handle table after a create or truncate, whose effect is stated exactly |
| Exactness.WriteStaysInBlock | projeto-so-2022-23-main/fs/operations.c:225-235 | a write changes memory only at the cursor inside the one non-root block the file then owns; directory records and all other files keep their bytes |
| History.ReadsLatestBytes | projeto-so-2022-23-main/fs/operations.c:204-277 | after any allowed run, each byte read is the latest one written at that position of that file since its creation or truncation, and only the end of the file cuts a read short |
| History.LogDescribesTables | projeto-so-2022-23-main/fs/operations.c:25-328 | after any allowed run from `tfs_init` the log of its calls alone determines every byte and the end of every file that the tables stand for |
| Streams.HandleIsStable | projeto-so-2022-23-main/fs/operations.c:149-156 | the handle an open returns stays on the inode that the directory gives for that name until it is closed, whatever is opened, created, unlinked or closed in between |
| Streams.ChunkedWritesOnTables | projeto-so-2022-23-main/fs/operations.c:186-243 | on the tables: writes through one handle at the end of a file, in any chunks and between any calls on other files, append the concatenation up to the block size, and the counts add up |
| Streams.ChunkedReadsOnTables | projeto-so-2022-23-main/fs/operations.c:245-284 | on the tables: reads through one handle, in any chunks and between any calls on other files, deliver consecutive slices from the cursor and then nothing |
| Streams.WriteReadRoundTrip | projeto-so-2022-23-main/fs/operations.c:186-284 | on the tables: writing an empty file in any chunks, opening it again and reading it in any chunks gives back what was written, up to the block size |
| Conservation.BitmapsAccountForEverything | projeto-so-2022-23-main/fs/state.c:115-125 | in every run TAKEN inodes = 1 + names, TAKEN blocks = 1 + non-empty files, TAKEN handles = successful opens - successful closes |
| Conservation.EmptyMeansInitialBitmaps | projeto-so-2022-23-main/fs/state.c:252-267 | with no names and no handles left, all three bitmaps are exactly as after `tfs_init` |
| Conservation.CleanupRestoresBitmaps | projeto-so-2022-23-main/fs/operations.c:163-328 | from any state, closing every handle and unlinking every name succeeds call by call and restores the bitmaps |
| Isolation.NonInterference | projeto-so-2022-23-main/fs/operations.c:79-328 | on the tables: a run and its part about one file, from two initialisations with different leftover memory, show that file's client the same counts, bytes and outcomes, if nothing ran out in the full run |
| Isolation.RunsOutWhenFailing | projeto-so-2022-23-main/fs/operations.c:118-223 | an open runs out of something if and only if it fails although its path is proper and the file is there or may be created; a write runs out when it fails through an open handle; no other call does |
| Orphans.OpenKeepsNames | projeto-so-2022-23-main/fs/operations.c:79-161 | whatever handles are open, on whatever inodes, an open does to the files what the client's open does, fails besides only for want of a handle, and returns the first free one |
| Orphans.UnlinkKeepsNames | projeto-so-2022-23-main/fs/operations.c:286-328 | an unlink removes exactly its name and keeps the invariant of names, inodes, blocks and slots, even while handles are open on the file |
| Orphans.RunKeepsNames | projeto-so-2022-23-main/fs/operations.c:79-328 | any run of opens, closes and unlinks, with no condition on what is open, fails no assertion and acts on the files as on the client's; when all handles are closed the whole invariant holds again |
| Orphans.InvariantIffHandlesLive | projeto-so-2022-23-main/fs/operations.c:196-261 | given what holds of names, inodes, blocks and slots, the whole invariant holds if and only if every open handle is on a TAKEN file inode with its offset inside the file |
| Orphans.WriteKeepsNames | projeto-so-2022-23-main/fs/operations.c:186-243 | a write through a live handle is the client's write, whatever other handles are orphaned |
| Orphans.ReadKeepsNames | projeto-so-2022-23-main/fs/operations.c:245-284 | a read through a live handle is the client's read, whatever other handles are orphaned |
| Orphans.LiveRunsKeepNames | projeto-so-2022-23-main/fs/operations.c:79-328 | any run of any calls in which no read or write goes through a handle that is not live fails no assertion, stays inside the tables and keeps everything about names, inodes, blocks and slots |
| Orphans.OrphanDenotesAnother | projeto-so-2022-23-main/fs/operations.c:196-235 | for all parameters with room for one file and two handles: create a file, unlink it while it is open, create a second file; the first handle now denotes the second file, and a write through it changes that file |
| Ring.EnqueueAppends | projeto-so-2022-23-main/producer-consumer/producer-consumer.c:93-107 | a whole enqueue with room appends to the sequence the ring holds, across wrap-around |
| Ring.DequeueRemovesOldest | projeto-so-2022-23-main/producer-consumer/producer-consumer.c:134-146 | a whole dequeue with an element returns and removes the oldest one |
| PcQueue.PcQueue.constructor | projeto-so-2022-23-main/producer-consumer/producer-consumer.c:9-44 | a fresh queue of any capacity holds the empty sequence |
| PcQueue.PcQueue.HeadSection | projeto-so-2022-23-main/producer-consumer/producer-consumer.c:99-111 | the section under the head lock stores into the head slot and advances the head round the ring |
| PcQueue.PcQueue.TailSection | projeto-so-2022-23-main/producer-consumer/producer-consumer.c:140-150 | the section under the tail lock reads the tail slot and advances the tail round the ring |
| PcQueue.PcQueue.Enqueue | projeto-so-2022-23-main/producer-consumer/producer-consumer.c:75-118 | with room and nobody else inside, the queue is longer by a copy of the caller's bytes |
| PcQueue.PcQueue.Dequeue | projeto-so-2022-23-main/producer-consumer/producer-consumer.c:120-157 | with an element and nobody else inside, the oldest element is returned and removed |
| Queue.AnyQueueStarts | projeto-so-2022-23-main/producer-consumer/producer-consumer.c:9-44 | the runs below start for every capacity and every number of threads |
| Queue.RunKeepsInv | projeto-so-2022-23-main/producer-consumer/producer-consumer.c:75-157 | the queue's invariant (locks, counters, wake-ups, slots) holds after every interleaving of any calls by any number of threads, for every capacity; with capacity 0 no thread reaches the division by it |
| Queue.StepKeepsWakeups | projeto-so-2022-23-main/producer-consumer/producer-consumer.c:86-115 | every single step, spurious wake-ups included, keeps the no-lost-wake-up bound for both roles |
| QueueTheorems.OneLockPerThread | projeto-so-2022-23-main/producer-consumer/producer-consumer.c:82-111 | no thread ever holds two of the three locks |
| QueueTheorems.DeadlockFreeIff | projeto-so-2022-23-main/producer-consumer/producer-consumer.c:82-154 | in every reachable state a thread can go on without a new call or spurious wake-up, if and only if some thread inside is not asleep with nothing to use; and enqueuers and dequeuers wait at the same time only on a queue of capacity 0 |
| QueueTheorems.CountersBalance | projeto-so-2022-23-main/producer-consumer/producer-consumer.c:93-146 | in every reachable state the size is in range, head and tail are the numbers of finished sections modulo the capacity, and their difference is the size minus reserved-unwritten plus released-unread |
| QueueTheorems.WakeupsAreNotLost | projeto-so-2022-23-main/producer-consumer/producer-consumer.c:86-154 | while a dequeuer sleeps, every element is covered by an enqueuer yet to signal or a woken dequeuer yet to look; symmetrically for enqueuers and free places |
| QueueTheorems.CallsAreConserved | projeto-so-2022-23-main/producer-consumer/producer-consumer.c:75-157 | in every interleaving: enqueues called are the elements stored and those still in the hands of threads inside, as multisets; dequeues called are the slots read and the threads still inside; so no call gives up on a full or empty queue |
| QueueTheorems.SleepsIff | projeto-so-2022-23-main/producer-consumer/producer-consumer.c:86-132 | a step puts a thread to sleep if and only if it finds nothing to use; it releases the size lock, keeps its element and changes nothing else |
| QueueTheorems.SpuriousWakeups | projeto-so-2022-23-main/producer-consumer/producer-consumer.c:86-132 | every sleeping thread may wake up at any time and then tests again |
| QueueTheorems.TailSectionReads | projeto-so-2022-23-main/producer-consumer/producer-consumer.c:140-146 | in every reachable state the k-th tail section reads the latest element written to its slot, which is the k-th element written if and only if that write is done and not yet overwritten |
| QueueTheorems.ReadyRunsAreFifo | projeto-so-2022-23-main/producer-consumer/producer-consumer.c:99-146 | every interleaving whose head and tail sections find their slots ready is first-in first-out, over any number of turns |
| QueueTheorems.ReadyIff | projeto-so-2022-23-main/producer-consumer/producer-consumer.c:93-146 | a section finds its slot ready if and only if the calls between their two sections leave it so: their numbers compared with the size |
| QueueTheorems.ReadyProgress | projeto-so-2022-23-main/producer-consumer/producer-consumer.c:93-146 | waiting for slots to be ready never blocks the queue: while a thread inside is not asleep, some thread can go on with its slot ready |
| QueueTheorems.OneSidedRunsAreFifo | projeto-so-2022-23-main/producer-consumer/producer-consumer.c:75-157 | enqueues overlapping enqueues and dequeues overlapping dequeues in any way, the queue is first-in first-out as long as no enqueue and dequeue are between their two sections at the same time |
| QueueTheorems.OneAtATimeRefinesSequence | projeto-so-2022-23-main/producer-consumer/producer-consumer.c:75-157 | every run of calls made one at a time finds its slots ready and refines a bounded sequence: the ring ends up holding the sequence, and each dequeue returns what was at its front |
| QueueTheorems.FreshQueueRefinesSequence | projeto-so-2022-23-main/producer-consumer/producer-consumer.c:9-157 | the same from `pcq_create` on, where the sequence is empty |
| QueueTheorems.RaceReadsGarbage | projeto-so-2022-23-main/producer-consumer/producer-consumer.c:93-144 | without ready slots order is lost: a dequeuer that overtakes a paused enqueuer returns a slot nobody wrote |
| Requests.WireLayout | projeto-so-2022-23-main/manager/manager.c:20-47 | the message byte by byte: code, 256 bytes of zero-padded pipe name, a slash, 31 bytes of zero-padded box name |
| Requests.DecodesIff | projeto-so-2022-23-main/mbroker/mbroker.c:336-343 | the worker gets code, pipe and "/"+box back from the message if and only if pipe and box names have at most 255 and 30 bytes |
| Requests.CreateRefinesInsert | projeto-so-2022-23-main/mbroker/mbroker.c:213-243 | creating a box is insert-if-absent on the set of box names, up to capacity, changes no contents, is answered with its outcome, and leaves nothing open |
| Requests.RemoveRefinesDelete | projeto-so-2022-23-main/mbroker/mbroker.c:246-272 | removing a box deletes it from the set of box names and changes no other file; the answer is an error in any case, which is the outcome if and only if the box was absent |
| Requests.ServeAllRefinesSet | projeto-so-2022-23-main/mbroker/mbroker.c:336-389 | any sequence of encoded requests, served one after the other, leaves the names of the same inserts and removals on a set and the contents of the boxes that stay, and is answered accordingly: a create with its outcome, a removal with an error |
| Requests.ServeByBytes | projeto-so-2022-23-main/mbroker/mbroker.c:336-389 | a 289-byte message naming box `b` creates it if its first byte is 3, removes it if that is 5, and does neither otherwise; files and answer are given exactly |
| Requests.NoSlashIsRefused | projeto-so-2022-23-main/fs/operations.c:52-54 | a box field without a leading slash is answered with an error and changes nothing |
| Requests.TwentyThreeBoxes | projeto-so-2022-23-main/mbroker/mbroker.c:416 | after `tfs_init(NULL)` the first 23 different boxes are created and no more |
| Requests.AnswersTellOutcomesIff | projeto-so-2022-23-main/mbroker/mbroker.c:246-262 | the answers to a sequence of requests are what happened to the boxes if and only if no removal finds its box |
| Requests.ServedBoxesFit | projeto-so-2022-23-main/mbroker/mbroker.c:216-224 | after any served requests the TAKEN inodes are one more than the boxes, which never exceed the inodes or the directory slots |
| Requests.DistinctBoxesNeverCollide | projeto-so-2022-23-main/mbroker/mbroker.c:213-272 | next to a file system that serves only the requests about one box, in runs of any length: the answers about that box are the same if and only if other boxes never take the room when it is to be created, and then it exists in both or in neither |
| Requests.FewNamesNeverCrowd | projeto-so-2022-23-main/mbroker/mbroker.c:213-224 | there is always room when no more boxes than fit the tables are ever named, however many requests there are |
| Broker.BoxRequest | projeto-so-2022-23-main/manager/manager.c:20-47 | the buffer filled field by field is exactly the encoded message, with over-long names clipped as the code clips them |
| Broker.StartFileSystem | projeto-so-2022-23-main/mbroker/mbroker.c:415-419 | `tfs_init(NULL)` succeeds and gives an empty file system of 64 inodes, 1024 blocks of 1024 bytes and 16 handles |
| Broker.Server.Dispatch | projeto-so-2022-23-main/mbroker/mbroker.c:507-535 | the queue is longer by a copy of the request, which survives the zeroing of the one message buffer |
| Broker.Server.Handle | projeto-so-2022-23-main/mbroker/mbroker.c:336-389 | one worker turn on a create or remove request does to the tables exactly what serving the message means and hands `box_answer` exactly that code |
| Broker.Server.DeleteBox | projeto-so-2022-23-main/utils/common.c:86-107 | the walk along the list returns 0 or -1 exactly as the list's meaning says, for every list |
| Broker.Server.ServeBatch | projeto-so-2022-23-main/mbroker/mbroker.c:327-535 | requests built by the manager, dispatched through the queue and handled leave the files of the same inserts and removals on a set, the answers that go with them, and the queue empty |
| Broker.EndToEnd | projeto-so-2022-23-main/mbroker/mbroker.c:327-535 | for every interleaving of the queue whose slots are ready, serving what the workers have taken acts on a fresh file system as the corresponding requests act on a set of names, and is answered accordingly |
| Workers.CreateTurn | projeto-so-2022-23-main/mbroker/mbroker.c:219-224 | whatever other workers hold open, the open of a create inserts the box if absent, and fails only for want of room or of a handle; in the latter case the box is there all the same, though the answer is an error |
| Workers.FirstByBytes | projeto-so-2022-23-main/mbroker/mbroker.c:336-389 | whatever handles are open, a worker's first call on a message naming box `b` creates it exactly if the first byte is 3, removes it exactly if that is 5, changes no other contents, and goes on to a close exactly when a create got a handle |
| Workers.FinishTurn | projeto-so-2022-23-main/mbroker/mbroker.c:226-229 | the close that ends a create succeeds, even if the box was unlinked meanwhile, and gives back that worker's handle and no other |
| Workers.RemoveTurn | projeto-so-2022-23-main/mbroker/mbroker.c:246-262 | an unlink between the two calls of a create removes the box if it is there, takes no worker's handle, and is answered with an error in either case |
| Threads.MoveKeepsInv | projeto-so-2022-23-main/mbroker/mbroker.c:327-535 | every step of any thread, in the queue or on the file system, fails no assertion, stays inside the tables, reads no message that nobody wrote, and keeps the invariant of the whole server |
| Threads.InterleavingsServeAtomically | projeto-so-2022-23-main/mbroker/mbroker.c:327-535 | for every interleaving of any number of threads whose queue slots are ready: no failed assertion, no access outside the tables, no message read that nobody wrote; each message taken is served once or in a worker's hands; files and answers are those of the requests taken one at a time in the order of their first calls; the whole invariant holds whenever no create is under way |
| Threads.MessagesAreConserved | projeto-so-2022-23-main/mbroker/mbroker.c:327-535 | in every such interleaving each message that a thread has begun to enqueue is in exactly one place: its hands, the ring, a worker's hands, or its request is begun |
| Threads.NeverStuckIff | projeto-so-2022-23-main/mbroker/mbroker.c:327-535 | after any such run some thread can go on without a new call or a spurious wake-up if and only if not every thread is between requests or waiting on a full or empty queue |
| Threads.ThreadsAreFree | projeto-so-2022-23-main/mbroker/mbroker.c:327-404 | in any reachable state a thread between requests may dequeue or enqueue any valid message, and nothing hinders a worker that has a message or a handle |
| Threads.HandlesSuffice | projeto-so-2022-23-main/mbroker/mbroker.c:219-224 | with at least as many handles as threads, the first call of a request gets a handle if and only if it creates a box that exists or has room; none is refused for want of a handle |

## Left out

- PcQueue.PcQueue.Enqueue: covers the call that finds room without waiting; waiting, waking and signalling are in the transition system of `Queue`, which shares the critical sections.
- PcQueue.PcQueue.Dequeue: covers the call that finds an element without waiting, for the same reason.
- PcQueue.PcQueue.HeadSection: does not model the `free` of the slot's old pointer; elements are byte strings.
- Broker.Server.Dispatch: covers the turn that finds room in the queue; with a full queue `main` waits, as in `Threads`.
- Broker.Server.ServeBatch: one schedule, the batch queued before any request is handled; all others are in `Threads`.
- Broker.EndToEnd: serves what was taken one message at a time; workers serving at the same time are in `Threads`.
- Threads.InterleavingsServeAtomically: supposes, like first-in first-out order, that head and tail sections find their slots ready; `QueueTheorems.RaceReadsGarbage` is a run in which they do not, and `Threads.NeverStuckIff` shows that supposing it blocks nothing.
- Broker.Server.Handle: covers first bytes 3 and 5 and box fields that end with a NUL inside their 32 bytes; for longer names the code reads past its buffer.
- Requests.CreateRefinesInsert, Requests.RemoveRefinesDelete: the answer is the code handed to `box_answer`; the message that carries it is not modelled.
- Refinement.WriteRefines: buffers longer than PTRDIFF_MAX are not covered, since no C object is that long.
- The box linked list (`utils/common.c`): only the return values of `insertBox` and `deleteBox`, which decide the answers; what they do to nodes never reaches the workers.
- Publisher and subscriber sessions, the list request and the answer formats: encoder and decoder disagree on layout, or buffers advance without being rewound.
- Named pipes, `mkfifo`, signals, command lines and printing: operating-system input and output. The pipe name is decoded but not opened.
- Error returns of `pthread`, failures of `malloc` and `calloc`, the artificial delays and logging: locks and condition variables are atomic primitives, delays do nothing.
- `free` of queue elements and of message buffers: elements are immutable byte strings, so that an enqueue after a turn of the ring frees a slot's old element again (`producer-consumer/producer-consumer.c:103`, `mbroker/mbroker.c:403`) is not in the model.
- `state_destroy`, a second `state_init`: one branch each.
- `tfs_link`, `tfs_sym_link`, `tfs_copy_from_external_fs`: declared in `fs/operations.h` but not defined in the repository's `fs` files.
