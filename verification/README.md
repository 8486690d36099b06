# Verified models of the repository's hard core

Each module below models one component of the repository and proves what that component is for. `dafny verify dfyconfig.toml` checks all of them.

| module | component |
|---|---|
| `FlatStore`, `FuseBuffer` | the scatter/gather copy of libfuse between vectors of memory and file buffers, refined to one flat byte copy |
| `WorkerThread`, `WorkerService` | the on-demand worker of the web server: a lock, a flag also read outside it, and a join under the lock, as steps of any number of threads; what it does for its clients |
| `Md5Spec`, `Md5Examples`, `Md5Rounds`, `Md5` | RFC 1321 with two of its test vectors, and the streaming digest with its staging buffer |
| `InodeRefs`, `InodeFiles`, `InodeList`, `ReadDir` | the inode table of the pass-through file system: reference counts and the file an entry stands for under every interleaving, the linked ring, directory paging |
| `EmsQueue`, `MemPool`, `PoolCounters` | intrusive circular lists, the pool allocator on them, what it writes outside its lock |
| `ChunkedCoding`, `ChunkedSender` | section 4.1 of RFC 7230, and the sender that puts a file on the wire in chunks |
| `CanonPath` | the in-place path normaliser and the document-root test |
| `Base64` | the base64 filter with line breaks |
| `Frames` | length-prefixed messages over a byte stream |
| `Checksum` | the Internet checksum of the ping program |
| `ChecksumLines` | the lines md5sum prints and takes apart again in place |
| `Bytes` | shared vocabulary |

How the outside world appears. System calls are methods that may return any result the interface allows: a short count, the end of the file, an error. Counters beside them record what they did (`World.shorts` and `World.stops`, which are ghost, and `Client.refused` and `Client.short`), so that a contract can say when an operation must be complete. `malloc` is a parameter that supplies a fresh region or none. Threads are state machines whose steps are the sections between two lock operations or two accesses to shared data; a run is any sequence of such steps. C strings are sequences of characters without NUL, with the terminator read one past the end.

Where a promise of the code does not hold in every case, the model keeps the code and states the exact case:

- two concurrent lookups can list one file twice (`InodeRefs.TwoInodesOneFile`), exactly when an inode is inserted although its key has been listed since the search (`InodeRefs.UniqueUnlessRace`, `InodeRefs.ListedMeansOvertaken`);
- when the source vector is finished the destination cursor of a buffer copy does not count the last chunk, and both when and by how much is stated exactly (`FuseBuffer.CopyVectors`, `FuseBuffer.FinishingChunk`; `FuseBuffer.LastChunkUncounted` is a run);
- a buffer of unlimited size makes the size of its vector unlimited only if the sizes behind it add up to zero (`FuseBuffer.SaturatesIfNothingFollows`, `FuseBuffer.SaturationIsLost`);
- a pool set not to extend itself goes on extending, since pool mode never counts its blocks (`MemPool.Pool.Refill`, `MemPool.ExtendsAllTheSame`);
- giving a node back to the pool writes into it after the lock has been released, when it may be somebody else's (`PoolCounters.StoreMeetsOwner`, `PoolCounters.HolderLosesWord`);
- a pool whose blocks are smaller than its nodes hands out its own list sentinel (`MemPool.Pool.Alloc`, `MemPool.SentinelHandedOut`);
- a path that fills the normaliser's buffer loses the last character of an ordinary last component (`CanonPath.WrittenIsCanonical`, `CanonPath.LongestPathIsCut`);
- the document root "/" accepts no path but "/" (`CanonPath.DocrootTest`, `CanonPath.RootAcceptsNothingElse`);
- a checksum line in standard form loses its mode once the reversed format is set (`ChecksumLines.StandardRoundTrip`, `ChecksumLines.ModeIsLost`);
- a queued client is without a worker if `pthread_create` failed (`WorkerThread.QueuedMeansServed`, `WorkerThread.QueuedWithoutWorker`);
- a file that is shorter than announced leaves the sent body incomplete although the transfer ends normally (`ChunkedSender.Client.Write`).

## Model

| member | source | states |
|---|---|---|
| `FlatStore.FlatCopyMeaning` | libfuse-fuse-3.6.2/lib/buffer.c:281-321 | what "n bytes copied" means on flat locations: between disjoint places the first n destination bytes equal the old source bytes and every other byte is untouched |
| `FlatStore.FlatCopyLength` | libfuse-fuse-3.6.2/lib/buffer.c:42-74 | a file grows exactly to the last byte copied into it |
| `FlatStore.FlatCopySplit` | libfuse-fuse-3.6.2/lib/buffer.c:281-321 | copying m bytes and then n more from where the first copy stopped is copying m + n |
| `FlatStore.BlockIsFlatCopy` | libfuse-fuse-3.6.2/lib/buffer.c:42-108 | a block moved by one system call equals the byte-by-byte copy of it |
| `FuseBuffer.World.Pread` | libfuse-fuse-3.6.2/lib/buffer.c:76-108 | a read may move any part of the request, hit the end of the file or fail; only then nothing changes |
| `FuseBuffer.World.Pwrite` | libfuse-fuse-3.6.2/lib/buffer.c:42-74 | a write may move any part of the request or fail; only then nothing changes |
| `FuseBuffer.FuseBufWrite` | libfuse-fuse-3.6.2/lib/buffer.c:42-74 | whatever the system does, the returned number of bytes of memory stand in the file from the position of the buffer plus the offset on, and nothing else changed; an error, which is that of the failed call, is returned only if nothing was moved; the whole length unless a call was short, with the retry flag unless a call moved nothing; one call without the flag |
| `FuseBuffer.FuseBufRead` | libfuse-fuse-3.6.2/lib/buffer.c:76-108 | the same from a file to memory: the returned number of bytes of the file, from the position of the buffer plus the offset on, stand in memory |
| `FuseBuffer.Relay` | libfuse-fuse-3.6.2/lib/buffer.c:110-158 | a read into the temporary buffer followed by a write of part of it continues the copy from file to file |
| `FuseBuffer.FdToFdRound` | libfuse-fuse-3.6.2/lib/buffer.c:124-155 | one round through the temporary buffer extends the copy by its result, and leaves the files alone if that is not positive |
| `FuseBuffer.FuseBufFdToFd` | libfuse-fuse-3.6.2/lib/buffer.c:110-158 | file to file through 4096-byte rounds: exactly the returned number of bytes are across, memory is unchanged, an error means nothing was written |
| `FuseBuffer.CopyMemory` | libfuse-fuse-3.6.2/lib/buffer.c:234-245 | the memory case, memmove included: the destination receives the old source bytes even if the two overlap |
| `FuseBuffer.FuseBufCopyOne` | libfuse-fuse-3.6.2/lib/buffer.c:227-255 | all four combinations of memory and descriptor meet one contract; memory to memory is never short |
| `FuseBuffer.FlatAt` | libfuse-fuse-3.6.2/lib/buffer.c:42-108 | which locations a vector stands for: byte o of a buffer comes behind all bytes of the buffers before it and lies o bytes behind its address, or behind its position in the file |
| `FuseBuffer.FlatLength` | libfuse-fuse-3.6.2/lib/buffer.c:22-35 | a vector stands for as many locations as its sizes add up to |
| `FuseBuffer.BufVec.Advance` | libfuse-fuse-3.6.2/lib/buffer.c:265-279 | the locations still ahead of the cursor lose exactly the first len; both assertions of the code hold; the cursor skips to the next buffer only when one is used up |
| `FuseBuffer.FuseBufSize` | libfuse-fuse-3.6.2/lib/buffer.c:22-35 | the value for any sizes, the cursor unmoved: SIZE_MAX, if any buffer has it, stands for all up to the last such buffer, and the sizes behind it are added modulo 2^64 |
| `FuseBuffer.NothingSaturates` | libfuse-fuse-3.6.2/lib/buffer.c:22-35 | without a buffer of size SIZE_MAX the total is the sum of the sizes modulo 2^64 |
| `FuseBuffer.SaturatesIfNothingFollows` | libfuse-fuse-3.6.2/lib/buffer.c:22-35 | with a buffer of size SIZE_MAX the total is SIZE_MAX if and only if the sizes behind the last such buffer add up to zero modulo 2^64 |
| `FuseBuffer.SaturationIsLost` | libfuse-fuse-3.6.2/lib/buffer.c:22-35 | a buffer of size SIZE_MAX and one byte behind it: the total is zero |
| `FuseBuffer.TransferChunk` | libfuse-fuse-3.6.2/lib/buffer.c:300-310 | copying one chunk extends the flat copy of the whole vectors by the result |
| `FuseBuffer.AdvanceBoth` | libfuse-fuse-3.6.2/lib/buffer.c:312-314 | after a chunk the source cursor has moved by the result; the destination cursor too, except when the source vector is finished, where it lags by exactly this chunk |
| `FuseBuffer.FinishingChunk` | libfuse-fuse-3.6.2/lib/buffer.c:312-314 | how much that is, from the two vectors, the two cursors at the start and the count alone: the chunk began with the last buffer of the source or, if that is later, with the buffer of the destination in which it ended |
| `FuseBuffer.CopyChunk` | libfuse-fuse-3.6.2/lib/buffer.c:289-318 | one round keeps the copy invariant; the loop's measure, the unfinished buffers of both sides, drops unless the round is the last |
| `FuseBuffer.CopyLoop` | libfuse-fuse-3.6.2/lib/buffer.c:289-318 | the loop keeps the copy invariant; it ends with one side used up unless a call was short, and returns the bytes that are across, or the error of the first chunk |
| `FuseBuffer.CopyVectors` | libfuse-fuse-3.6.2/lib/buffer.c:281-321 | refinement of one flat copy for any buffers, sizes of zero included, and any behaviour of the descriptors: the result counts the bytes that are across, a negative result means nothing changed, the source cursor advances by exactly that many; the destination cursor lags if and only if this call copied every byte the source had left and its last buffer had some of them, and then by the last chunk, the smaller of those bytes and of the bytes copied into the destination buffer reached last; the count is the smaller of the two remainders unless a call was short |
| `FuseBuffer.FuseBufCopy` | libfuse-fuse-3.6.2/lib/buffer.c:281-321 | all of that for the entry point, both cursors and the lag included; between memory buffers the count is always the smaller of the two remainders; the size of the vector when both arguments are one vector |
| `FuseBuffer.LastChunkUncounted` | libfuse-fuse-3.6.2/lib/buffer.c:281-321 | one byte copied from one buffer of memory to another: all of it is across, and the destination cursor stands where it stood |
| `FuseBuffer.LoWriteBuf` | libfuse-fuse-3.6.2/example/passthrough_ll.c:894-915 | a write request of any buffers, at any offset: each byte it counts is in the file at its place, the file reaches no further, and no other location has changed |
| `FuseBuffer.WriteMemory` | libfuse-fuse-3.6.2/example/passthrough_ll.c:894-915 | the same for a request of one buffer of memory, as slices of the file and of memory |
| `FuseBuffer.ReadMemory` | libfuse-fuse-3.6.2/lib/buffer.c:281-321 | a copy from a descriptor at any position to memory: each byte it counts is in memory at its place, and no other byte and no file has changed |
| `WorkerThread.NextKeepsInv` | http_server/uhttpd-2012-10-30/dt_uhttpd_select.c:103-244 | every step of any thread keeps the invariant on lock, run flag, thread id, queue and private notes |
| `WorkerThread.AtMostOneWorker` | http_server/uhttpd-2012-10-30/dt_uhttpd_select.c:222-244 | in every interleaving there are never two live workers, and a live one is the one recorded in tid |
| `WorkerThread.QueuedMeansServed` | http_server/uhttpd-2012-10-30/dt_uhttpd_select.c:188-244 | whenever the lock is free and a client is queued, run is set and a worker is alive, if and only if the last pthread_create did not fail |
| `WorkerThread.QueuedWithoutWorker` | http_server/uhttpd-2012-10-30/dt_uhttpd_select.c:232-241 | the run in which it fails: the lock is free, the client stays queued, and no worker is alive |
| `WorkerThread.DestroyedOnce` | http_server/uhttpd-2012-10-30/dt_uhttpd_select.c:136-150 | an accepted client is either queued or destroyed, never both, and destroyed at most once |
| `WorkerThread.SelectsLiveClients` | http_server/uhttpd-2012-10-30/dt_uhttpd_select.c:156-179 | the descriptors a worker waits for outside the lock belong to clients that are still queued |
| `WorkerThread.JoinReturns` | http_server/uhttpd-2012-10-30/dt_uhttpd_select.c:226-230 | the join under the lock cannot deadlock: the worker it waits for has stopped or can take its last step without the lock |
| `WorkerThread.LockIsReleased` | http_server/uhttpd-2012-10-30/dt_uhttpd_select.c:103-244 | while the lock is held no step of any thread puts its release off, and every step of the thread it waits for, the holder or the worker being joined, brings it nearer; such a step is always possible, so a fair scheduler releases the lock |
| `WorkerService.BuildAsksAll` | http_server/uhttpd-2012-10-30/dt_uhttpd_select.c:103-121 | a worker that builds its list asks for every queued client, and no other |
| `WorkerService.AskedIffAccepted` | http_server/uhttpd-2012-10-30/dt_uhttpd_select.c:103-179 | while a worker waits, it has asked for exactly those of the queued clients that had been accepted when it built its list |
| `WorkerService.WalkVisits` | http_server/uhttpd-2012-10-30/dt_uhttpd_select.c:128-154 | a walk stands once at every client that was in the queue when it began, in the order of the queue |
| `WorkerService.DestroyedWasReady` | http_server/uhttpd-2012-10-30/dt_uhttpd_select.c:128-154 | a client is destroyed only by a worker that stands at it in its walk, after it had asked for it and select had reported it ready |
| `WorkerService.KeepsItsPlace` | http_server/uhttpd-2012-10-30/dt_uhttpd_select.c:222-224 | first come, first in line: a queued client stays ahead of those behind it and of all that are accepted later, as long as both are queued |
| `WorkerService.StopsWhenEmpty` | http_server/uhttpd-2012-10-30/dt_uhttpd_select.c:183-204 | a worker leaves the locked test of the main loop with run cleared if and only if the queue is empty |
| `WorkerService.ClientIsServed` | http_server/uhttpd-2012-10-30/dt_uhttpd_select.c:103-244 | the run from a first request to the stop of its worker: created, asked, reported, visited, destroyed |
| `WorkerThread.WithoutSuffix` | http_server/uhttpd-2012-10-30/dt_uhttpd_select.c:137-148 | unlinking the node of the walk leaves the rest of the walk as the end of the queue |
| `Md5Spec.BlocksAppend` | c/md5/ems_md5.c:312-449 | hashing a whole number of blocks and then more is hashing the concatenation |
| `Md5Spec.PaddedLength` | c/md5/ems_md5.c:101-102 | padding completes the last block for every length |
| `Md5Examples.OutputOrder` | c/md5/ems_md5.c:80-92 | the initial registers, written out, are the octets 01 23 45 to 10 of section 3.3 of RFC 1321 |
| `Md5Examples.DigestEmpty` | c/md5/ems_md5.c:198-211 | the digest of the empty message, as in appendix A.5 of RFC 1321 |
| `Md5Examples.DigestAbc` | c/md5/ems_md5.c:198-211 | the digest of "abc", as in appendix A.5 of RFC 1321 |
| `Md5Examples.OneBlock` | c/md5/ems_md5.c:314-449 | one block takes any registers to their compression with its words |
| `Md5Rounds.FFIsF` | c/md5/ems_md5.c:285 | the optimised FF is function F of section 3.4 of RFC 1321 |
| `Md5Rounds.FGIsG` | c/md5/ems_md5.c:286 | FF with rotated arguments is function G of section 3.4 of RFC 1321 |
| `Md5Rounds.CyclicIsRotation` | c/md5/ems_md5.c:341 | the two shifts are a rotation for every amount from 1 to 31 |
| `Md5Rounds.OpIsStep` | c/md5/ems_md5.c:329-337 | one OP, with its own order of additions, is one step of the standard |
| `Md5Rounds.Quad` | c/md5/ems_md5.c:353-357 | four OPs with the register names rotated are four steps |
| `Md5Rounds.Round1` | c/md5/ems_md5.c:353-369 | the first sixteen unrolled operations are steps 0 to 15 |
| `Md5Rounds.Round2` | c/md5/ems_md5.c:384-400 | the next sixteen are steps 16 to 31, with their own word order and shifts |
| `Md5Rounds.Round3` | c/md5/ems_md5.c:402-418 | steps 32 to 47 |
| `Md5Rounds.Round4` | c/md5/ems_md5.c:420-436 | steps 48 to 63 |
| `Md5.CountAdd` | c/md5/ems_md5.c:306-310 | two 32-bit words with a carry hold the byte count modulo 2^64 for every length added |
| `Md5.Ctx.CountUp` | c/md5/ems_md5.c:306-310 | a count held by the two words goes up by the length, modulo 2^64 |
| `Md5.BitCount` | c/md5/ems_md5.c:109-111 | the two shifted words, the bits shifted out of the low one added to the high one, are eight times the byte count modulo 2^64 |
| `Md5.HighWord` | c/md5/ems_md5.c:111 | the operands of the bitwise or have no bit in common, so the stored high word is their sum |
| `Md5.FinalLength` | c/md5/ems_md5.c:101-111 | the eight length octets are those of section 3.2 of RFC 1321 |
| `Md5.FillIsPadding` | c/md5/ems_md5.c:101-113 | the fill copied from fillbuf, never more than its 64 bytes, and the length words are the padding of section 3.1, for every staged count from 0 to 64 |
| `Md5.Transform` | c/md5/ems_md5.c:314-443 | the loop body is the block step of the standard |
| `Md5.Ctx.ProcessBlock` | c/md5/ems_md5.c:293-450 | registers and count after any whole number of blocks are those of all the blocks processed so far |
| `Md5.Ctx.TopUp` | c/md5/ems_md5.c:217-240 | the first path: staged bytes and the rest of the data are still the same input, and nothing is left unless the stage is empty |
| `Md5.Ctx.Bulk` | c/md5/ems_md5.c:242-262 | the second path, aligned or not: the same, leaving at most 64 bytes |
| `Md5.Ctx.Tail` | c/md5/ems_md5.c:264-277 | the third path stages the rest, at most 64 bytes remaining staged |
| `Md5.Ctx.ProcessBytes` | c/md5/ems_md5.c:214-278 | processed blocks followed by staged bytes are exactly the input so far, whatever length and alignment; at most 64 bytes stay staged |
| `Md5.Ctx.Finish` | c/md5/ems_md5.c:97-119 | the digest is the MD5 of everything that was put in |
| `Md5.Md5Buffer` | c/md5/ems_md5.c:198-211 | the digest of one buffer is RFC 1321 MD5 |
| `Md5.Md5Chunks` | c/md5/ems_md5.c:214-278 | chunking does not matter: any split into calls gives the digest of the concatenation |
| `Md5.ReadBlock` | c/md5/ems_md5.c:143-173 | partial reads are collected in order until a block is full, the stream ends or an error shows |
| `Md5.Md5Stream` | c/md5/ems_md5.c:124-192 | under any partial reads the digest is the MD5 of the rest of the stream; failure only after a read error |
| `InodeRefs.StepKeepsInv` | libfuse-fuse-3.6.2/example/passthrough_ll.c:285-580 | every lock section of every request keeps counts, list and descriptors consistent |
| `InodeRefs.RefcountIsLookupCount` | libfuse-fuse-3.6.2/example/passthrough_ll.c:526-580 | in every interleaving a refcount is the entries the kernel holds plus those under way to it or back; with no request under way, the kernel's alone |
| `InodeRefs.ListedWhileReferenced` | libfuse-fuse-3.6.2/example/passthrough_ll.c:526-549 | an inode is on the list, once, exactly while its count is positive |
| `InodeRefs.NoUseAfterFree` | libfuse-fuse-3.6.2/example/passthrough_ll.c:452-489 | no section touches a freed inode, neither its own nor the parent directory whose descriptor it opens or links by, and the assertion before the subtraction holds |
| `InodeRefs.OwnDescriptors` | libfuse-fuse-3.6.2/example/passthrough_ll.c:324-350 | each listed inode has a descriptor of its own, which is open |
| `InodeRefs.ClosedOnce` | libfuse-fuse-3.6.2/example/passthrough_ll.c:541-545 | a thread about to close a descriptor is its only owner |
| `InodeRefs.NoDescriptorLeaks` | libfuse-fuse-3.6.2/example/passthrough_ll.c:316-350 | a descriptor that is open belongs to a listed inode or to a request |
| `InodeRefs.UniqueUnlessRace` | libfuse-fuse-3.6.2/example/passthrough_ll.c:303-350 | the exact case, for every run of any requests: no two listed inodes have the same inode and device number in any state up to n if and only if no step before n inserts an inode whose key has been listed since that thread searched |
| `InodeRefs.StepUnique` | libfuse-fuse-3.6.2/example/passthrough_ll.c:324-350 | one step from a list without duplicates leaves one if and only if it is not such an insertion |
| `InodeRefs.ListedMeansOvertaken` | libfuse-fuse-3.6.2/example/passthrough_ll.c:324-350 | what makes an insertion late: between this thread's search and now another thread, whose search had missed it too, has inserted the same key |
| `InodeRefs.SerialUnique` | libfuse-fuse-3.6.2/example/passthrough_ll.c:303-350 | so with requests one at a time no two listed inodes ever have the same inode and device number |
| `InodeRefs.TwoInodesOneFile` | libfuse-fuse-3.6.2/example/passthrough_ll.c:324-349 | and one run in which two do: the interleaving of two lookups in which both searches precede both insertions, and one file is listed twice |
| `InodeFiles.FindsTheFile` | libfuse-fuse-3.6.2/example/passthrough_ll.c:285-301 | a search answers with the first listed inode of the file it looks for, or, only if none is listed, with nothing |
| `InodeFiles.ServesItsRequest` | libfuse-fuse-3.6.2/example/passthrough_ll.c:303-364 | in every run, what a thread has found, is about to insert or holds is an inode with the key of the file it opened, or the inode that the link names |
| `InodeFiles.EntryIsTheFile` | libfuse-fuse-3.6.2/example/passthrough_ll.c:303-489 | an entry that reaches the kernel is for the file that its request opened or linked |
| `InodeFiles.WholeLife` | libfuse-fuse-3.6.2/example/passthrough_ll.c:303-580 | the run in which a file is looked up, found again, linked and forgotten, after which no inode and no descriptor is left |
| `InodeList.LoData.LoFind` | libfuse-fuse-3.6.2/example/passthrough_ll.c:285-301 | the walk finds an inode with the key and counts it once more, or there is none |
| `InodeList.LoData.LoInsert` | libfuse-fuse-3.6.2/example/passthrough_ll.c:342-349 | the ring with the new inode behind the root, in both directions |
| `InodeList.Unlink` | libfuse-fuse-3.6.2/example/passthrough_ll.c:537-540 | joining the neighbours leaves the ring without the inode, in both directions |
| `InodeList.LoData.UnrefInode` | libfuse-fuse-3.6.2/example/passthrough_ll.c:526-549 | the count drops by n; at zero the inode leaves the ring and its descriptor is closed, otherwise neither |
| `InodeList.LoData.LoDoLookup` | libfuse-fuse-3.6.2/example/passthrough_ll.c:303-364 | a lookup takes one reference on the one inode of its file, reusing it and closing the new descriptor, or adding it |
| `InodeList.LoData.LoForgetOne` | libfuse-fuse-3.6.2/example/passthrough_ll.c:551-564 | a forget gives back exactly n references, of no other file, and frees the inode exactly when none is left |
| `ReadDir.DotNames` | libfuse-fuse-3.6.2/example/passthrough_ll.c:647-651 | the test by characters is true of "." and ".." and of no other name |
| `ReadDir.EntSizeIsLeast` | libfuse-fuse-3.6.2/lib/fuse_lowlevel.c:267-281 | an entry takes the least multiple of 8 that holds its header, 24 bytes or 152 with plus, and its name |
| `ReadDir.HaveEntry` | libfuse-fuse-3.6.2/example/passthrough_ll.c:681-692 | the entry left over from the last call, or the next one, end and error told apart by errno |
| `ReadDir.AddEntry` | libfuse-fuse-3.6.2/example/passthrough_ll.c:693-724 | with plus one reference is kept exactly for an entry that fits and is not "." or ".."; for one that does not fit it is given back |
| `ReadDir.SeekTo` | libfuse-fuse-3.6.2/example/passthrough_ll.c:671-675 | from any state of the directory handle the next entry is the one the offset names |
| `ReadDir.LoDoReaddir` | libfuse-fuse-3.6.2/example/passthrough_ll.c:653-744 | a reply holds consecutive entries from the offset, stops only when the next does not fit, at the end or on an error, and takes exactly the references of its entries; an error is reported only for an empty reply |
| `ReadDir.ReadWholeDirectory` | libfuse-fuse-3.6.2/example/passthrough_ll.c:653-744 | paging is exact: with any sizes that hold one entry, going on from the last offset lists every entry once and in order, and raises the references by exactly the entries other than "." and ".." |
| `EmsQueue.Memory.Init` | c/mempool/ems_queue.h:14-16 | the ring of no entries |
| `EmsQueue.Memory.Empty` | c/mempool/ems_queue.h:19-20 | true exactly for the ring of no entries |
| `EmsQueue.Memory.InsertHead` | c/mempool/ems_queue.h:23-27 | the ring with the entry in front, nothing else written |
| `EmsQueue.Memory.InsertTail` | c/mempool/ems_queue.h:32-36 | the ring with the entry at the end, nothing else written |
| `EmsQueue.Memory.Remove` | c/mempool/ems_queue.h:64-66 | the ring without the entry, whose own pointers are kept |
| `EmsQueue.SplitRings` | c/mempool/ems_queue.h:71-77 | the six assignments leave two rings, before the entry and from it on |
| `EmsQueue.Memory.Split` | c/mempool/ems_queue.h:71-77 | splitting leaves the entries before q with h and the others with n |
| `EmsQueue.Memory.Add` | c/mempool/ems_queue.h:80-84 | the concatenation, also when the second ring is empty |
| `EmsQueue.Memory.Clean` | c/mempool/ems_queue.h:109-115 | terminates with the empty ring |
| `EmsQueue.SplitAndAdd` | c/mempool/ems_queue.h:71-84 | adding back what was split off restores the original |
| `MemPool.SlotInside` | c/mempool/mempool.c:10-22 | each of the block_size / node_size slots lies inside its block |
| `MemPool.SlotsDisjoint` | c/mempool/mempool.c:10-22 | slots of one or of different blocks never overlap |
| `MemPool.PoolExpand` | c/mempool/mempool.c:10-22 | the carving loop appends exactly those slots to the free list, in order |
| `MemPool.Pool.constructor` | c/mempool/mempool.c:129-156 | a pool starts with two empty lists and zero counters, and keeps what it was given |
| `MemPool.Pool.Expand` | c/mempool/mempool.c:24-40 | a new block goes onto the block list and its slots onto the free list |
| `MemPool.Pool.Refill` | c/mempool/mempool.c:42-61 | a block is added exactly when no node is free and malloc succeeds, also when auto_extend is off, since in this mode the count of blocks that the test looks at stays zero |
| `MemPool.ExtendsAllTheSame` | c/mempool/mempool.c:49-61 | a pool with one block in use and auto_extend cleared gets a second block |
| `MemPool.Pool.Alloc` | c/mempool/mempool.c:42-76 | hands out the first free node, after adding a block if there was none; fails if and only if the free list is empty and malloc fails, whatever auto_extend says; and hands out the list's own sentinel exactly when the list was empty and a block is smaller than a node |
| `MemPool.SentinelHandedOut` | c/mempool/mempool.c:42-76 | a pool whose blocks have no room for a node hands out the sentinel of its free list at the first call |
| `MemPool.TakenFrom` | c/mempool/mempool.c:63-65 | free list and handed-out nodes stay a partition of all carved slots |
| `MemPool.Pool.Free` | c/mempool/mempool.c:78-92 | the node goes to the end of the free list, and its word _ptr gets its own address |
| `MemPool.Pool.OwnerWrites` | c/mempool/mempool.c:67-70 | whatever an owner writes into a node it holds leaves the pool intact |
| `MemPool.ClearBlocks` | c/mempool/ems_queue.h:99-106 | the list ends empty and every entry is passed on once, in order |
| `MemPool.Pool.Uninit` | c/mempool/mempool.c:158-170 | both lists end empty and every block is given back once, in order |
| `PoolCounters.StepKeepsCounts` | c/mempool/mempool.c:42-92 | the counters, updated outside the mutex, account for every node held and every call in flight |
| `PoolCounters.NeverWraps` | c/mempool/mempool.c:72-89 | in every interleaving the used count is positive whenever it is about to be decremented, and frees never outrun allocations |
| `PoolCounters.QuietCounters` | c/mempool/mempool.c:72-89 | with no call in flight used is allocations minus frees and the number of nodes held |
| `PoolCounters.OneHolder` | c/mempool/mempool.c:49-84 | a node is never free and held, or held by two threads |
| `PoolCounters.StoreMeetsOwner` | c/mempool/mempool.c:78-92 | the store behind the lock section, in every interleaving: it falls into a node that somebody owns if and only if the node has been taken off the free list since this thread put it back and not been put back again; if not, the node is on the free list |
| `PoolCounters.HolderReads` | c/mempool/mempool.c:78-92 | what the word _ptr of a node holds after any run in which its holder has not written it: what it held before, or the node's address exactly if such a store has fallen into it |
| `PoolCounters.HolderLosesWord` | c/mempool/mempool.c:78-92 | the run in which a second thread takes the node and writes into it before the first one stores, and loses what it wrote |
| `ChunkedCoding.ReadHexHex` | http_server/uhttpd-2012-10-30/dt_uhttpd_utils.c:21 | the hexadecimal chunk size reads back as the number |
| `ChunkedCoding.DecodeBody` | http_server/uhttpd-2012-10-30/dt_uhttpd_utils.c:12-40 | a reader of section 4.1 of RFC 7230 gets the content back from the coding, whatever follows it |
| `ChunkedCoding.UpperCase` | http_server/uhttpd-2012-10-30/dt_uhttpd_utils.c:21 | the digits of the chunk size are 0 to 9 and A to F |
| `ChunkedCoding.OnTheWire` | http_server/uhttpd-2012-10-30/dt_uhttpd_utils.c:12-40 | the text "hello" as octets on the wire |
| `ChunkedCoding.CutAt4096` | http_server/uhttpd-2012-10-30/dt_uhttpd_utils.c:12-40 | content longer than 4096 octets goes in chunks of 4096 |
| `ChunkedSender.Client.FillChunk` | http_server/uhttpd-2012-10-30/dt_uhttpd_utils.c:12-40 | the buffer of 4096 + 16 bytes holds exactly one chunk, or the last-chunk for no data |
| `ChunkedSender.Client.GetFileContent` | http_server/uhttpd-2012-10-30/dt_uhttpd_utils.c:42-61 | what is asked for, counted off and returned, and the three ways it ends |
| `ChunkedSender.Client.FillAccount` | http_server/uhttpd-2012-10-30/dt_uhttpd_utils.c:64-89 | a fill moves bytes from the future into the buffer: all that it owes if the read was full, and strictly fewer otherwise |
| `ChunkedSender.ShorterChunk` | http_server/uhttpd-2012-10-30/dt_uhttpd_utils.c:20-36 | a shorter chunk is shorter on the wire |
| `ChunkedSender.Client.FillBuffer` | http_server/uhttpd-2012-10-30/dt_uhttpd_utils.c:64-89 | sent, waiting and future bytes keep adding up to the whole |
| `ChunkedSender.Client.Write` | http_server/uhttpd-2012-10-30/dt_uhttpd_utils.c:126-154 | every call sends more of the body or is refused; a refusal passes exactly for EINTR and EAGAIN; what is sent is a prefix of the body; it finishes having sent all of it exactly if no read was short |
| `ChunkedSender.Serve` | http_server/uhttpd-2012-10-30/dt_uhttpd_utils.c:126-154 | over a whole transfer, whatever the socket does: the same, the content decodes from what was sent, and the number of calls is bounded by bytes sent and refusals |
| `CanonPath.Idempotent` | http_server/uhttpd-2012-10-30/uhttpd-utils.c:480-545 | normalising a normalised path changes nothing |
| `CanonPath.CanonicalShape` | http_server/uhttpd-2012-10-30/uhttpd-utils.c:480-545 | no empty, "." or ".." component and no trailing slash, unless the path is "/" |
| `CanonPath.TargetOfDirectory` | http_server/uhttpd-2012-10-30/uhttpd-utils.c:480-545 | a normalised path names the component stack it was made from |
| `CanonPath.Appending` | http_server/uhttpd-2012-10-30/uhttpd-utils.c:502-534 | what one more component does to where a path leads: nothing and "." stay, ".." drops the last component or stays at the root, any other name is added |
| `CanonPath.ThereAndBack` | http_server/uhttpd-2012-10-30/uhttpd-utils.c:502-534 | appending an ordinary component and ".." changes nothing |
| `CanonPath.DropLast` | http_server/uhttpd-2012-10-30/uhttpd-utils.c:527-528 | stepping back removes exactly the last component, or nothing at the root |
| `CanonPath.StandingSkips` | http_server/uhttpd-2012-10-30/uhttpd-utils.c:502-534 | each look-ahead of the automaton is one step over the component stack |
| `CanonPath.CanonPath` | http_server/uhttpd-2012-10-30/uhttpd-utils.c:480-545 | the two-pointer automaton writes the path that folding the components over a stack gives, NUL-terminated and within the buffer, exactly unless the path fills the buffer and ends in an ordinary component |
| `CanonPath.WrittenIsCanonical` | http_server/uhttpd-2012-10-30/uhttpd-utils.c:502 | the exact condition: the result is the normalised path if and only if the path is not cut short |
| `CanonPath.LongestPathIsCut` | http_server/uhttpd-2012-10-30/uhttpd-utils.c:502 | a path of 4095 characters for which it is not |
| `CanonPath.DocrootTest` | http_server/uhttpd-2012-10-30/uhttpd-utils.c:669-675 | for a normalised root other than "/" the byte test accepts a normalised path exactly if the root's components are a prefix of its components; for the root "/" it accepts "/" only |
| `CanonPath.RootAcceptsNothingElse` | http_server/uhttpd-2012-10-30/uhttpd-utils.c:669-675 | the path "/a" is turned away under the root "/" |
| `Base64.Cb64IsAlphabet` | c/b64.c:228 | the encoding table is table 1 of section 4 of RFC 4648 |
| `Base64.Cd64IsAlphabet` | c/b64.c:233 | the decoding table is its inverse, and every other byte is noise |
| `Base64.SextetsRoundTrip` | c/b64.c:272-278 | grouping octets into sextets and back, short last groups included, is the identity |
| `Base64.EncodeBits` | c/b64.c:274-277 | the shifts and masks are the four digits to base 64 of the 24-bit group |
| `Base64.DecodeGroup` | c/b64.c:336-338 | the shifts and masks of decoding are the octets of the group, as many as its length determines |
| `Base64.NoiseIgnored` | c/b64.c:359-367 | bytes outside the alphabet make no difference, wherever they stand |
| `Base64.DecodeEncoded` | c/b64.c:285-392 | decoding an encoded string gives it back for every line width |
| `Base64.LineCount` | c/b64.c:319-324 | the number of lines is the number of blocks over the blocks of a line, rounded up |
| `Base64.BreaksAt` | c/b64.c:319-324 | a newline stands behind every full line and at the end of the text, and nowhere else |
| `Base64.EncodedLines` | c/b64.c:285-327 | no stretch of an encoded file without a newline is longer than a line, and a file that is not empty ends with a newline |
| `Base64.UnbrokenShape` | c/b64.c:307-317 | four characters for every three octets begun, none of them a newline |
| `Base64.Rfc4648Short` | c/b64.c:272-278 | test vectors of section 10 of RFC 4648 that need padding |
| `Base64.Rfc4648Long` | c/b64.c:272-278 | and two that need none |
| `Base64.ReadBlock` | c/b64.c:295-305 | up to three octets in order, the missing ones zero, and the end of the file noticed exactly when one is missing |
| `Base64.EncodeBlock` | c/b64.c:272-278 | the four characters of the block, padded |
| `Base64.Encode` | c/b64.c:285-327 | the text is the encoding cut into lines of the width, each ended by a newline |
| `Base64.NextValue` | c/b64.c:359-367 | the next alphabet character of the stream, past any noise, or the end |
| `Base64.ReadGroup` | c/b64.c:357-377 | up to four values in order; what the other slots hold is left open |
| `Base64.DecodeBlock` | c/b64.c:334-339 | the octets that are written do not depend on stale slots |
| `Base64.Decode` | c/b64.c:346-392 | the output is the octets of all alphabet characters of the text |
| `Base64.EncodeThenDecode` | c/b64.c:285-392 | encoding a file and decoding the text gives the file, at every line size |
| `Frames.SendMsg` | c/mp_sniffer/sockettest.py:15-28 | the frame of tag and payload, an absent and an empty payload alike, exactly if both header fields fit 16 bits |
| `Frames.OnTheWire` | c/mp_sniffer/sockettest.py:15-28 | both header fields with the high-order octet first, the length counting the header, then the payload |
| `Frames.ParseIsExact` | c/mp_sniffer/sockettest.py:107-121 | what was read, framed again, followed by what is kept is exactly the data; what is kept is an incomplete frame, or a malformed one |
| `Frames.ParseStream` | c/mp_sniffer/sockettest.py:107-121 | a stream of frames reads back as its messages |
| `Frames.ParseAppend` | c/mp_sniffer/sockettest.py:105-121 | data that arrives later only continues the reading |
| `Frames.PrefixOfStream` | c/mp_sniffer/sockettest.py:97-121 | at every moment the messages delivered are a prefix of those sent, and what is kept is the beginning of the next frame |
| `Frames.TakeFrames` | c/mp_sniffer/sockettest.py:107-121 | the inner loop ends and leaves what the reference reader leaves |
| `Frames.HandleEvent` | c/mp_sniffer/sockettest.py:97-121 | the messages depend on the bytes received and not on how they were cut into pieces |
| `Frames.DeliverAll` | c/mp_sniffer/sockettest.py:97-121 | any split of the frames of some messages delivers exactly those messages, in order |
| `Checksum.OnesSumIsResidue` | c/ping.c:432-443 | the ones'-complement sum of section 1 of RFC 1071 is the residue of the plain sum |
| `Checksum.SumBound` | c/ping.c:424-443 | the accumulator stays below 2^31 for 65536 bytes |
| `Checksum.LongerOverflows` | c/ping.c:424-435 | and may reach it with one more word |
| `Checksum.TwoFolds` | c/ping.c:448-450 | two folds are enough for every value of the accumulator |
| `Checksum.InCksum` | c/ping.c:417-452 | the complement of the ones'-complement sum, an odd last byte included |
| `Checksum.Rfc1071Example` | c/ping.c:417-452 | the numerical example of section 3 of RFC 1071 |
| `Checksum.RecheckIsZero` | c/ping.c:269-282 | the checksum stored in its zeroed word makes the checksum of the packet zero |
| `Checksum.OneWordError` | c/ping.c:417-452 | altering one word of a correct packet is detected exactly unless it swaps the two forms of zero; from 0xffff to 0 is detected too if no other word is nonzero |
| `Checksum.Seal` | c/ping.c:267-282 | the packet as it is sent checks to zero and differs only in the checksum word |
| `ChecksumLines.UnescapeEscape` | c/md5/md5sum.c:229-272 | unescaping inverts escaping on every name without NUL |
| `ChecksumLines.EscapeUnescape` | c/md5/md5sum.c:229-272 | and only escaped names unescape, on what a line can hold |
| `ChecksumLines.EscapeMatters` | c/md5/md5sum.c:837-869 | escaping changes a name exactly if it holds a backslash or a newline, which is when the line is marked as escaped |
| `ChecksumLines.PrintFilename` | c/md5/md5sum.c:660-687 | the loop prints the escaped name, or the name; the two differ exactly for an escaped name that needs it |
| `ChecksumLines.FilenameUnescape` | c/md5/md5sum.c:229-272 | in place: success exactly for a well-formed escape, then the name and a NUL, nothing outside the name written |
| `ChecksumLines.BsdSplit3` | c/md5/md5sum.c:278-315 | in place: digest and name of the reversed-tag form, up to the last ')', or failure exactly when there is none or no equals sign or a bad escape |
| `ChecksumLines.Md5Sum.SplitStandard` | c/md5/md5sum.c:358-398 | in place: digest, mode and name, and what becomes of the format state, a failing line included |
| `ChecksumLines.Md5Sum.Split3` | c/md5/md5sum.c:321-399 | the whole decision for any line, as a function of its text and the format state |
| `ChecksumLines.HexDigits` | c/md5/md5sum.c:403-414 | true exactly for 32 hexadecimal digits and the end |
| `ChecksumLines.PrintLine` | c/md5/md5sum.c:837-869 | the printed line, in both forms |
| `ChecksumLines.HexAt` | c/md5/md5sum.c:857-858 | two lower-case digits for each byte, the high-order one first |
| `ChecksumLines.CompareDigest` | c/md5/md5sum.c:575-586 | equality of the digits up to case |
| `ChecksumLines.PrintedDigest` | c/md5/md5sum.c:575-586 | a printed digest is accepted for the same digest only |
| `ChecksumLines.StandardRoundTrip` | c/md5/md5sum.c:358-398 | digest, mode and name come back from the standard form for every name, newlines and backslashes included; with the reversed format set, and only then, the name gains the mode character and the mode is lost |
| `ChecksumLines.ModeIsLost` | c/md5/md5sum.c:358-398 | two lines: one with a name of a single character, after which the digest of a name printed in standard form comes back without its mode and with the mode character in its name |
| `ChecksumLines.TagRoundTrip` | c/md5/md5sum.c:278-315 | digest and name come back from the --tag form for every name, ')' included |
| `ChecksumLines.BlanksAroundEquals` | c/md5/md5sum.c:298-315 | any spaces and tabs may stand on either side of the equals sign of the reversed-tag form |
| `ChecksumLines.TooShort` | c/md5/md5sum.c:354-360 | a line without a tag that cannot hold 32 digits, a blank and a name is refused, and leaves the format undecided |
| `ChecksumLines.OneLine` | c/md5/md5sum.c:837-869 | a printed line is one line and not a comment |
| `ChecksumLines.FormatSticks` | c/md5/md5sum.c:372-389 | over any run of lines the format never changes once it is decided |

## Left out

- `FuseBuffer`: descriptors without the seek flag, and `splice(2)`; conservation does not hold for a source that cannot seek, since a short write loses what was read.
- `FuseBuffer.FuseBufCopy`: the 64-bit width of copied counts and offsets, and source and destination that overlap, other than two memory buffers in one call of `FuseBuffer.CopyMemory`.
- `WorkerThread`: `dt_uhttpd_uninit`, the timing of `select`, and weak memory; each access to a shared variable is one atomic step. A failed `pthread_create` is taken to leave the thread id at zero.
- `Md5Spec`: the sine formula of the constants of RFC 1321 is not derived, the table is given; big-endian byte swapping and failing allocation in `md5_stream` are not modelled.
- `InodeRefs`: the 64-bit width of a reference count, forgetting of the root, failing allocation, and requests that take no reference.
- `InodeList.LoData.LoDoLookup`: one request at a time; the interleavings are those of `InodeRefs`.
- `ReadDir`: a directory that changes while it is read, and the layout of an entry beyond its size.
- `MemPool`: the mode that uses the system allocator, the size fields of a node, and the wrapping of the statistics at 2^64.
- `ChunkedSender.Client.Write`: the response header sent before the file, TLS, and an unset or invalid socket.
- `CanonPath.CanonPath`: the `stat` call at the end, which decides whether the path is returned at all, working directories that are not absolute, and paths of 4096 characters or more, which its caller cuts before.
- `Base64.Encode`: errors of the output stream; the command line, which also raises a line size below 4 to 4.
- `Frames.HandleEvent`: decoding of payloads as UTF-8 and the connection that ends, which raises an exception.
- `Checksum.Seal`: the other header fields, the timestamp and the pattern of the payload; the host is little-endian.
- `ChecksumLines`: algorithms other than MD5, opening and reading the listed files, and the messages and exit status of md5sum.
- `uh_path_lookup` beyond the document-root test, URL decoding, CGI, Lua, ubus sessions, range requests, the option parser and the remaining example programs of the repository.
