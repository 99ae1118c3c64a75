# mugglec: a verified model of its hard core

mugglec is a C library of data structures, allocators, inter-thread channels and ciphers. This
project models the parts of it whose correctness rests on invariants that the code never
writes down, and proves those invariants. `dafny verify dfyconfig.toml` checks everything.

| file | what it models |
|---|---|
| `ShmRing.dfy`, `ShmEmptyRecord.dfy`, `ShmRecords.dfy`, `ShmHugeRequest.dfy` | the shared-memory ring of variable-length records: one writer, one reader, wrap markers, a cached amount of free space; records of no bytes; what a writer asks for and writes; requests of 2^31 lines or more |
| `Channel.dfy`, `ChannelCalls.dfy` | the multi-writer channel in its three read modes (futex, mutex, busy loop); its calls from beginning to end |
| `MaRing.dfy`, `MaRingProgress.dfy`, `MaRingCapacity.dfy` | the asynchronous rings: one ring per producer thread, one backend thread, joining and cleaning up; what they get done; changes of the capacity |
| `SyncLock.dfy` | the futex lock, for any number of threads |
| `SowrPool.dfy` | the block pool with one allocating and one freeing thread |
| `MemoryPool.dfy` | the growing block pool |
| `BytesBuffer.dfy` | the byte ring with a truncate position |
| `AvlShape.dfy`, `AvlTree.dfy` | the AVL tree: shapes as values, and linked nodes updated in place |
| `Heap.dfy` | the binary heap |
| `Sorting.dfy` | insertion, merge, quick and heap sort |
| `Feistel.dfy`, `DesTrace.dfy` | the block operation and key set-up of DES and triple DES; both step by step |
| `CipherModes.dfy`, `CipherLoops.dfy`, `ModesByBlock.dfy` | CBC, CFB, OFB and CTR over an arbitrary block function: as functions, as loops on buffers, and block by block |
| `DesModes.dfy` | DES and triple DES as such block functions |
| `PowerOfTwo.dfy`, `NextPower.dfy` | power-of-two capacities and remainders; rounding up to a power of two |
| `Basics.dfy`, `CryptBase.dfy`, `Ordering.dfy` | shared definitions; comparison functions |

How things are modelled:

- A protocol between threads is a transition system with one step for each access to a shared
  cell. A run is any interleaving of steps that the program counters allow. Main theorems hold
  in every state of every run. Accesses are taken to be sequentially consistent.
- Code that updates an object in place is a class (or a method on arrays) whose methods are
  proved against functions on the object's value, or directly against what they promise.
- Data pointers are numbers that only a caller-supplied comparison looks behind; the comparison
  is any total preorder. 32-bit and 64-bit wrap-around is written out where it matters.
- `granted` parameters say whether the system had the memory that was asked for.

Where the code does not keep what one would expect of it, the model follows the code, the
failure is a lemma, and a second lemma says exactly when the code is right:

- A shared-memory record of length 0 looks like a wrap marker. Everything published before it
  is still read; then the reader goes back to line 0, and hands out a second time whatever
  record stands there. With a length above 0 the record is delivered, from the same states
  (`ShmEmptyRecord.DeliveredIffNonEmpty`, `ShmEmptyRecord.EmptyRecordRepeatsTheFirst`).
- A shared-memory ring of more than 2^31 bytes gets a data area that does not hold them
  (`ShmRing.OpenHoldsIff`).
- Reserving space in a pool with no block in use lays the free list out as if every block were
  in use; from then on a block can be handed out twice (`MemoryPool.GrowIsSoundIffUsed`,
  `MemoryPool.GrowingIdleHandsOutTwice`).
- A `read` that drains a byte buffer whose writer stands on an old truncate position brings
  the bytes back (`BytesBuffer.ReadDrops`, `BytesBuffer.DrainedBytesComeBack`). The comment at
  the head of the source file lists three layout states and does not mention this one.
- A `read` that drains a byte buffer between `writer_fc` and `writer_move_n` resets it, and
  the bytes filled in meanwhile are lost, unless they were filled in at the start
  (`BytesBuffer.MoveAppendsIff`, `BytesBuffer.DrainLosesReservation`).
- CFB and CBC decryption read their input after having written their output. A call is right
  for every state and every message of n bytes if and only if it encrypts, has two buffers, or
  n is 0 (`CipherModes.CfbInPlaceIsRightIff`, `CipherModes.CbcInPlaceIsRightIff`; at DES and
  triple DES, `DesModes.DesInPlaceIsRightIff`). Inputs that fail, for every block function and
  every message but the empty one: `CipherModes.CfbDecryptInPlaceFails`,
  `CipherModes.CbcDecryptInPlaceFails`. OFB and CTR are right in one buffer.
- A producer thread keeps the read position it last loaded from one ring to the next. A change
  of the capacity while no ring is in use is safe, for everything that may happen afterwards,
  if and only if every thread's position is below the new capacity
  (`MaRingCapacity.CapacityChangeIsSafeIff`); otherwise nothing stops the producer from
  overtaking the backend (`MaRingCapacity.StaleCachedRLosesALap`), and a run from the start
  comes to such a change (`MaRingCapacity.SmallerCapacityBreaksPromises`). A capacity raised
  while a ring is in use lets its producer write behind the buffer's end
  (`MaRingCapacity.RaisedInUseLeavesTheBuffer`).
- A shared-memory request of 2^31 lines or more counts as negative in one comparison. It is
  refused if and only if the reader does not stand on line 0; if it does, the request is granted
  and what was unread is lost. Even a refused one can stop the ring for good
  (`ShmHugeRequest.HugeRequest`, `ShmHugeRequest.HugeRequestStopsTheRing`).
- Rounding up to a power of two copies the highest one over 32 places only. It is right for
  powers of two and for numbers without 32 zeros in a row below their highest one, and for no
  others (`NextPower.NextPowOf2IsLeastIff`); so it is for all 32-bit capacities
  (`NextPower.NextPowOf2IsLeast`), but not for 2^33 + 1 (`NextPower.NextPowOf2Fails`).
- Merge sort and quick sort of no elements wrap `count - 1` and leave the array
  (`Sorting.MergeStaysInsideIff`, `Sorting.QuickStaysInsideIff`).
- Heap sort of 2^32 - 1 elements or more cuts the count to 32 bits and, if it accepts the
  result, loses elements (`Sorting.HeapSort`).
- A channel of capacity 1 or 2 accepts no message at all (`Channel.EveryRunIsFifo`).

## Model

The first 38 rows are the main results, the others lead up to them.

| member | source | states |
|---|---|---|
| ShmRing.EveryRunIsFifo | muggle/c/sync/shm_ring_buffer.c:98-233 | in every state of every interleaving the records read, followed by the unread ones, are the records published, in order, with their lengths and payloads; a record in the reader's hands is the next one published; no access leaves the ring |
| ShmRecords.WrittenIsPublished | muggle/c/sync/shm_ring_buffer.c:152-179 | in every run, a record is published with the length and the number of lines that were asked for, and with what was last written into each of its lines |
| ShmRing.UnreadLinesAreNeverOverwritten | muggle/c/sync/shm_ring_buffer.c:98-179 | no step changes a cache line of an unread record or the wrap marker |
| ShmRing.FetchIsEmptyOnlyIfNothingWasUnread | muggle/c/sync/shm_ring_buffer.c:181-220 | a fetch returns NULL only if nothing was unread when it loaded the write cursor, whatever the writer does meanwhile; the last `return NULL` is never reached |
| ShmRing.ProgressBound | muggle/c/sync/shm_ring_buffer.c:98-171 | whenever nothing is unread, an allocation of up to N/2 - 1 lines succeeds, from every cursor position and cached value |
| ShmRing.ProgressBoundIsTight | muggle/c/sync/shm_ring_buffer.c:98-171 | the bound is exact: in a ring of any size 2k some reachable state with nothing unread refuses k lines |
| ShmEmptyRecord.DeliveredIffNonEmpty | muggle/c/sync/shm_ring_buffer.c:152-220 | from every state in which the writer has been granted lines, whatever is unread and wherever the cursors stand: once the backlog has been read, in order and undisturbed, the next fetch hands out the new record if and only if its length is not 0; otherwise the reader goes back to line 0 and hands out again the record there, if the empty one was not at line 0 itself and line 0 has ever been written |
| Channel.EveryRunIsFifo | muggle/c/sync/channel.c:81-275 | for any number of writers, in every state of every run: messages read, followed by the slots strictly between the cursors, are the accepted messages in publish order; at most capacity - 2 are unread; a parked reader with unread messages has a writer that still owes its wake; capacities 1 and 2 accept nothing |
| ChannelCalls.PassedIsAccepted | muggle/c/sync/channel.c:81-275 | in every run, what a writer publishes is what its caller passed to write |
| ChannelCalls.AnswerIsTrue | muggle/c/sync/channel.c:495-509 | in every run, the answer of write is OK if and only if the writer has published since it was called, and only then does it wake the reader |
| ChannelCalls.WriteAlone | muggle/c/sync/channel.c:81-275 | from every state of the invariant in which the locks are free, in every mode: a write succeeds if and only if fewer than capacity - 2 messages are unread; then exactly its message is appended and a sleeping reader is awake, otherwise nothing changes |
| ChannelCalls.ReadAlone | muggle/c/sync/channel.c:148-275 | from every state of the invariant with a message unread, in every mode and wherever an awake reader stands: it comes back with the oldest unread message |
| MaRing.EveryRunIsSafe | muggle/c/sync/ma_ring.c:22-302 | for any number of producers, each setting up and cleaning up one ring after another, the capacity being changed only as `CapacityChangeIsSafeIff` allows: the backend has called back, once and in order, a prefix of what was moved into each ring; a ring is freed only when all of it was called back; no step touches a freed ring or leaves a buffer; one thread at a time is behind the spinlock, and what it has loaded of the list is still so |
| MaRingProgress.EveryLoopSweeps | muggle/c/sync/ma_ring.c:98-126 | from every state of the invariant at the start of the backend's loop: the backend alone comes to the start again, and has then called back every item of every ring that was listed or waiting to be, taken those that waited for removal off the list and marked them done, and left nothing to be taken over |
| MaRingProgress.CleanupCompletes | muggle/c/sync/ma_ring.c:269-279 | from every such state: a cleanup ends after two rounds of the backend, with every item of the ring called back |
| MaRingProgress.FilledIsMoved | muggle/c/sync/ma_ring.c:281-302 | in every run, what a producer last filled into its block is what its next move appends |
| MaRingCapacity.CapacityChangeIsSafeIff | muggle/c/sync/ma_ring.c:149-153 | from every state of the invariant with no ring in use and for every new capacity: every run from there on keeps all those promises if and only if every thread's remembered read position is below the new capacity |
| SyncLock.EveryRunIsSafe | muggle/c/sync/synclock.c:17-46 | for any number of threads, in every state of every run: one holder at most, and the word is locked exactly while there is one; when the word is free and threads are asleep, somebody will look at it again |
| SowrPool.EveryRunIsSafe | muggle/c/memory/sowr_memory_pool.c:70-108 | in every interleaving no block is outstanding twice, despite the stale cached position and the 32-bit wrap of the index |
| MemoryPool.EveryRunIsSound | muggle/c/memory/memory_pool.c:220-480 | in every run of allocations, releases, growth with a block in use, and changes of flag and growth limit, outstanding blocks and listed free blocks are exactly the blocks ever created, each once |
| MemoryPool.GrowingIdleHandsOutTwice | muggle/c/memory/memory_pool.c:405-423 | for every idle pool and every growth: one allocation, its release, and as many allocations as there are blocks hand one block out twice |
| BytesBuffer.EveryRunIsFifo | muggle/c/memory/bytes_buffer.c:52-380 | in every run of writes, reads, skips, and reservations with reads in between, up to a step that one of the two conditions rules out, the bytes taken out followed by the unread ones are the bytes put in, and no step leaves the buffer |
| BytesBuffer.ReadDrops | muggle/c/memory/bytes_buffer.c:190-225 | a read drops exactly what it returned if and only if it does not drain an unwrapped buffer at the truncate position; otherwise bytes already read come back |
| BytesBuffer.MoveAppendsIff | muggle/c/memory/bytes_buffer.c:327-352 | moving the writer by what was filled into reserved memory appends exactly that, if and only if no drain came in between a reservation that is not at the start, or the same bytes happen to stand at the start |
| AvlTree.AvlTree.Insert | muggle/c/dsaa/avl_tree.c:542-667 | the tree stays linked, sorted and balanced; exactly the pair is added, in a new node, unless the key is present or memory is short; the climb takes a number of steps at most the height and logarithmic in the number of nodes |
| AvlTree.AvlTree.Remove | muggle/c/dsaa/avl_tree.c:669-803 | the tree stays linked, sorted and balanced; exactly the node's pair disappears and one node is given back; the climb takes a number of steps at most the height and logarithmic in the number of nodes |
| Heap.Heap.Remove | muggle/c/dsaa/heap.c:229-316 | in place; takes out exactly the pair of the given slot and keeps the order; a slot not in use is refused |
| Sorting.MergeSort | muggle/c/dsaa/sort.c:93-146 | in place; sorted and stable, for every array with an element and every total preorder |
| Sorting.QuickSort | muggle/c/dsaa/sort.c:178-223 | in place; a sorted permutation, for every array with an element and every total preorder |
| Sorting.HeapSort | muggle/c/dsaa/sort.c:66-91 | in place; a sorted permutation below 2^31 - 1 elements; refused from there up to 2^32 - 2; beyond, where the count is cut to 32 bits and accepted, exactly the elements that the heap has no room for, and no memory to double, are lost, the others come out sorted and the last of them fills the rest |
| DesTrace.CryptIsTraced | muggle/c/crypt/des.c:93-141 | for all subkeys, blocks and round functions: the halves of the block picked by the initial table, the halves after each round, bit by bit, and the exchanged halves of the last round picked by the final table |
| DesModes.DesCbcRoundTrip | muggle/c/crypt/des.c:211-256 | CBC with DES: decryption returns every message of whole blocks and carries the same vector on |
| DesModes.TripleDesCbcRoundTrip | muggle/c/crypt/tdes.c:186-231 | CBC with triple DES |
| ModesByBlock.MessageIs | muggle/c/crypt/aes.c:273-393 | a whole message in blocks, as sections 6.3 to 6.5 of NIST SP 800-38A have it: the blocks linked by ciphertext (CFB), by the output of the block function (OFB) or by consecutive counters modulo 2^64 or 2^128 (CTR), and mixed with the block function's output by exclusive or |
| CipherModes.CallsAreOneRun | muggle/c/crypt/aes.c:273-393 | CFB, OFB and CTR: however a message is cut into any number of consecutive calls, output and carried state are those of one call |
| CipherModes.RunUndo | muggle/c/crypt/aes.c:273-393 | CFB, OFB and CTR: decrypting from the same initial state returns the message and ends in the same state |
| CipherModes.CfbInPlaceIsRightIff | muggle/c/crypt/des.c:258-305 | a CFB call is right for every state and every message of n bytes if and only if it encrypts, has two buffers, or n is 0 |
| DesModes.DesInPlaceIsRightIff | muggle/c/crypt/des.c:207-305 | both at DES, for every key |
| ShmRing.StepRefinesFifo | muggle/c/sync/shm_ring_buffer.c:98-233 | every atomic step of writer and reader is one step of a FIFO of records: publishing appends exactly the written record, moving the reader removes the head, every other step (wrap marker, jump, stale free-space cache) leaves the queue alone |
| ShmRing.EveryStepIsSafe | muggle/c/sync/shm_ring_buffer.c:98-233 | no step writes outside the ring or makes an unsigned counter wrap |
| ShmRing.NothingUnread | muggle/c/sync/shm_ring_buffer.c:187-206 | nothing is unread if and only if the cursors meet, or the reader stands on the wrap marker with the write cursor still at 0 |
| ShmRecords.GrantedIffFits | muggle/c/sync/shm_ring_buffer.c:98-171 | without interference, from every state of the invariant and whatever the cached free space says: a request is granted if and only if the lines fit in front of the writer, or before the reader when that stands behind the writer |
| ShmRing.FetchTakesTheHead | muggle/c/sync/shm_ring_buffer.c:181-220 | a fetch without interference hands out the head of the queue, and NULL if and only if the queue is empty |
| ShmEmptyRecord.QueueSurvivesIffNonEmpty | muggle/c/sync/shm_ring_buffer.c:152-179 | from the same states: the ring still holds a queue of records after publication if and only if the record has a byte |
| ShmEmptyRecord.BacklogIsReadFirst | muggle/c/sync/shm_ring_buffer.c:152-233 | records unread before a publication are read first and unchanged, also before an empty record |
| ShmEmptyRecord.PublishedIsSteps | muggle/c/sync/shm_ring_buffer.c:165-179 | the publication these lemmas speak of is the header store followed by the move of the writer |
| ShmEmptyRecord.ReadOneIsSteps | muggle/c/sync/shm_ring_buffer.c:181-233 | the reading they speak of is the sequence of the atomic steps of fetch and move |
| ShmEmptyRecord.EmptyRecordRepeatsTheFirst | muggle/c/sync/shm_ring_buffer.c:152-233 | the failure itself: a record is written and read, an empty one is published, and the next read returns the first record a second time |
| ShmRing.RingBuffer.constructor | muggle/c/sync/shm_ring_buffer.c:44-61 | opening sets up the initial state of the protocol |
| ShmRing.RingBuffer.Open | muggle/c/sync/shm_ring_buffer.c:24-58 | a request of up to 2^31 bytes gives an empty ring of a power of two of lines, enough for the bytes, and half of them would not be |
| ShmRing.OpenHoldsIff | muggle/c/sync/shm_ring_buffer.c:20-32 | for every 32-bit request: the data area that the 32-bit arithmetic arrives at holds the bytes asked for if and only if they are at most 2^31 |
| ShmHugeRequest.HugeRequest | muggle/c/sync/shm_ring_buffer.c:98-171 | for every request of 2^31 lines or more: refused if and only if the reader does not stand on line 0; the unread records survive it if and only if the reader does not stand there or the writer does as well |
| ShmHugeRequest.HugeRequestStopsTheRing | muggle/c/sync/shm_ring_buffer.c:98-220 | with nothing unread and both cursors at line 1, after such a request every later one is refused and every fetch returns NULL |
| ShmHugeRequest.UpdateIsProtocol | muggle/c/sync/shm_ring_buffer.c:98-171 | for all smaller requests the update these two speak of is the one of the protocol |
| ShmRing.RingBuffer.UpdateCachedRemain | muggle/c/sync/shm_ring_buffer.c:98-142 | in place, the new state is the one the atomic steps lead to; the invariant is kept |
| ShmRing.RingBuffer.AllocCachelines | muggle/c/sync/shm_ring_buffer.c:152-171 | in place, the allocation of the protocol; the position returned is the write cursor, or none |
| ShmRing.RingBuffer.WMove | muggle/c/sync/shm_ring_buffer.c:173-179 | in place, publishing appends the written record to the unread ones |
| ShmRing.RingBuffer.Fetch | muggle/c/sync/shm_ring_buffer.c:181-220 | in place, the fetch of the protocol, with the length of the head of the queue |
| ShmRing.RingBuffer.RMove | muggle/c/sync/shm_ring_buffer.c:222-233 | in place, moving the reader removes the head of the queue |
| Channel.StepKeepsInv | muggle/c/sync/channel.c:81-275 | every atomic step of any writer or the reader, in each of the three modes, keeps the locks exclusive, the ring's contents and the promise of a wake-up |
| Channel.RefusedOnlyWhenFull | muggle/c/sync/channel.c:81-141 | at the comparison with the read cursor a write goes ahead if and only if fewer than capacity - 2 messages are unread, also after busy mode's stale cached cursor |
| Channel.FullIff | muggle/c/sync/channel.c:81-101 | the next write position meets the slot before the read position if and only if the ring holds all it can |
| Channel.EmptyIff | muggle/c/sync/channel.c:148-169 | the reader's comparison of cursors says exactly whether a message is unread |
| ChannelCalls.LoadFindsIff | muggle/c/sync/channel.c:148-169 | the reader goes on to the block if and only if a message is unread; otherwise it waits, sleeps or looks again, as its mode has it |
| ChannelCalls.WaitSleepsIff | muggle/c/sync/channel.c:148-169 | a waiting reader goes to sleep if and only if nothing has been published since it looked |
| ChannelCalls.CachedCursorDecides | muggle/c/sync/channel.c:223-245 | in busy mode the writer loads the read cursor anew if and only if the messages since the last load fill the ring |
| Channel.SlotsAreUnread | muggle/c/sync/channel.c:437-439 | the slots between the two cursors hold exactly the accepted and unread messages |
| Channel.ReaderKeepsWakeup | muggle/c/sync/channel.c:148-220 | a reader parks only when nothing was published since it looked, the futex word cannot come back to its old value unnoticed |
| Channel.WriterKeepsWakeup | muggle/c/sync/channel.c:495-509 | a writer that publishes owes a wake until it has given it |
| MaRing.StepKeepsInv | muggle/c/sync/ma_ring.c:22-126 | every step of any producer or of the backend keeps the rings' data, the two lists, each ring's ownership and the spinlock's exclusion |
| MaRing.CleanupWaitsForAll | muggle/c/sync/ma_ring.c:269-279 | cleanup frees a ring only when every item moved into it has been called back |
| MaRingProgress.MoveAlone | muggle/c/sync/ma_ring.c:287-302 | with room in its ring, a producer's move comes to its end in at most five steps of its own and appends its item |
| MaRingProgress.LetOnIffRoom | muggle/c/sync/ma_ring.c:295-299 | once it has reloaded the read position a producer is let on if and only if fewer than capacity - 1 of its items are unaccounted for |
| MaRing.JoinSeesAllStored | muggle/c/sync/ma_ring.c:218-228 | join leaves its loop only when every moved item has been consumed |
| MaRing.CompareDecides | muggle/c/sync/ma_ring.c:287-302 | the producer's comparison with its cached read position lets it go on only when the next slot is free, even with a cached value left over from an earlier ring |
| MaRing.ReloadOpensTheGap | muggle/c/sync/ma_ring.c:287-302 | reloading the read position makes the cached gap agree with what is still unconsumed |
| MaRing.GapIsZero | muggle/c/sync/ma_ring.c:287-302 | the gap behind a cached position is used up if and only if the next position equals it |
| MaRing.PublishKeepsData | muggle/c/sync/ma_ring.c:287-302 | publishing an item keeps every ring's data and ownership |
| MaRing.BackendIsSafe | muggle/c/sync/ma_ring.c:22-126 | the backend only touches rings that are not freed, and takes no node from an empty list |
| MaRing.SetCapacityKeepsData | muggle/c/sync/ma_ring.c:149-153 | a change of the capacity while no ring is in use keeps data and ownership, if no thread remembers a read position the new capacity does not have |
| MaRing.ProducerKeepsSpin | muggle/c/sync/ma_ring.c:184-201 | the load of the head of the list and the store of the new one happen under the spinlock, which one thread at a time has; so the load is still good at the store |
| MaRing.BackendKeepsSpin | muggle/c/sync/ma_ring.c:22-38 | the same for the backend's test, load and store |
| MaRingCapacity.StaleCachedRLosesALap | muggle/c/sync/ma_ring.c:287-302 | for every state with a remembered position beyond the capacity: a lap of items moved into an empty ring leaves the two positions equal, so that none of them is called back and join takes them for consumed |
| MaRingCapacity.StaleIsReached | muggle/c/sync/ma_ring.c:230-267 | from every change of the capacity to or below a remembered position, a few steps lead to such a state with a new ring |
| MaRingCapacity.SmallerCapacityBreaksPromises | muggle/c/sync/ma_ring.c:22-302 | the failure itself: a run from the start in which a thread uses and gives back a ring of capacity 2, after which a capacity of 1 breaks the promises |
| MaRingCapacity.RaisedInUseLeavesTheBuffer | muggle/c/sync/ma_ring.c:281-302 | for every state of the invariant with a producer on its ring's last slot: after the capacity is raised it moves its item unhindered, and its next item is written behind the buffer's end |
| MaRingCapacity.MoveItemIsSteps | muggle/c/sync/ma_ring.c:281-302 | one item moved, as those lemmas have it, is the sequence of the atomic steps |
| SyncLock.StepKeepsMutex | muggle/c/sync/synclock.c:17-46 | every step keeps at most one holder, also when the weak compare-and-swap fails spuriously |
| SyncLock.StepKeepsWaker | muggle/c/sync/synclock.c:17-46 | when the word is free and threads are parked, an unlocker still owes a wake or an awake thread is about to try |
| SyncLock.FreeLockIsTaken | muggle/c/sync/synclock.c:17-39 | whenever the word is free and a thread wants the lock, some enabled step leads on |
| SyncLock.LockAlone | muggle/c/sync/synclock.c:17-39 | without interference a lock call takes a free lock and goes to sleep on a held one |
| SyncLock.UnlockAlone | muggle/c/sync/synclock.c:41-46 | without interference an unlock call frees the lock and sends one sleeping thread, if any, to try again |
| SowrPool.StepIsSafe | muggle/c/memory/sowr_memory_pool.c:70-98 | a block handed out is in range and not outstanding; NULL is returned only when capacity - 1 blocks are outstanding at the load |
| SowrPool.TryDecides | muggle/c/memory/sowr_memory_pool.c:70-80 | the first try hands out a block if and only if fewer than capacity - 1 were handed out since the freed position was last loaded |
| SowrPool.AllFreeIsExact | muggle/c/memory/sowr_memory_pool.c:101-108 | `is_all_free` answers yes if and only if no block is outstanding |
| SowrPool.MemoryPool.Init | muggle/c/memory/sowr_memory_pool.c:18-60 | a capacity of 0 stands for 8; any other is rounded up to a power of two, or refused above 2^31, where the rounded capacity cut to 32 bits is 0 |
| SowrPool.WrapKeepsSlot | muggle/c/memory/sowr_memory_pool.c:70-91 | wrapping the index at 2^32 does not move a slot of a power-of-two ring |
| SowrPool.MemoryPool.constructor | muggle/c/memory/sowr_memory_pool.c:48-58 | with the rounded capacity the pool starts with every block free |
| SowrPool.MemoryPool.Alloc | muggle/c/memory/sowr_memory_pool.c:70-91 | in place, the allocation of the protocol |
| SowrPool.MemoryPool.Free | muggle/c/memory/sowr_memory_pool.c:93-98 | in place, the release of the protocol, skipping ahead allowed |
| SowrPool.MemoryPool.AllFree | muggle/c/memory/sowr_memory_pool.c:101-108 | answers whether no block is outstanding |
| NextPower.NextPowOf2IsLeastIff | muggle/c/base/utils.c:14-24 | for every number up to 2^63: the shifts and the addition give the least power of two that is not below it, if and only if the number is a power of two or has, below its highest one, no 32 zeros in a row |
| NextPower.NextPowOf2IsLeast | muggle/c/base/utils.c:14-24 | for every 32-bit capacity they give the least power of two that is not below it |
| NextPower.NextPowOf2Fails | muggle/c/base/utils.c:14-24 | for 2^33 + 1 they do not |
| NextPower.IsPowOf2IsRight | muggle/c/base/utils.h:19 | the test by `x & (x - 1)` holds of exactly the powers of two among the numbers above 0 |
| NextPower.SmearReaches32 | muggle/c/base/utils.c:14-24 | after the five shifts a place is one if and only if one of the 32 places from there upwards was |
| PowerOfTwo.LeastPow2Is | muggle/c/base/utils.c:14-24 | rounding up gives a power of two that is not below the number, and not above any power of two that is not below it |
| PowerOfTwo.MaskIsRemainder | muggle/c/base/macro.h:216 | masking with capacity - 1 is the remainder, for every power-of-two capacity |
| MemoryPool.AllocTakesHead | muggle/c/memory/memory_pool.c:239-253 | allocation takes the head of the circular free list |
| MemoryPool.FreeAppends | muggle/c/memory/memory_pool.c:255-264 | a returned block goes to the end of the free list |
| MemoryPool.GrowAppends | muggle/c/memory/memory_pool.c:370-462 | with a block in use, the three-way section copy keeps the free list in order and appends exactly the new blocks |
| MemoryPool.GrowIsSoundIffUsed | muggle/c/memory/memory_pool.c:376-462 | after growth the allocation index is the free index plus the blocks in use, modulo the capacity, if and only if a block was in use |
| MemoryPool.AllocateIsSound | muggle/c/memory/memory_pool.c:220-254 | an allocation hands out a block that nobody holds, growing a full pool first, or changes nothing; which of the two is `AllocateInNumbers` |
| MemoryPool.AllocateInNumbers | muggle/c/memory/memory_pool.c:220-254 | an allocation fails if and only if the pool is full and the constant-size flag, the system or 2^32 forbids growth; a full pool grows by its capacity, or by the limit if that is smaller |
| MemoryPool.ReservedInNumbers | muggle/c/memory/memory_pool.c:266-280 | making room gives the capacity asked for, unless that is there already or the flag or the system forbids it |
| MemoryPool.FreshInNumbers | muggle/c/memory/memory_pool.c:27-80 | a new pool has the capacity asked for, or 8, and a growth limit of 2^31 bytes |
| MemoryPool.FreeIsSound | muggle/c/memory/memory_pool.c:255-264 | returning an outstanding block keeps the free list exact |
| MemoryPool.GrowIsSound | muggle/c/memory/memory_pool.c:266-465 | growing with a block in use keeps the free list and the blocks in use a partition of all blocks created |
| MemoryPool.FreshIsSound | muggle/c/memory/memory_pool.c:27-90 | a new pool lists each of its blocks once |
| MemoryPool.FixedPoolKeepsSize | muggle/c/memory/memory_pool.c:266-280 | no step makes a pool with the constant-size flag grow |
| MemoryPool.SectionsAre | muggle/c/memory/memory_pool.c:370-447 | the four section pointers and counts describe the re-laid free list |
| MemoryPool.MemoryPool.Init | muggle/c/memory/memory_pool.c:27-90 | a block size of 0 is refused; a capacity of 0 stands for 8; growth is limited to 2^31 bytes at a time |
| MemoryPool.MemoryPool.EnsureSpace | muggle/c/memory/memory_pool.c:266-465 | in place; the capacity becomes the one asked for unless it is there already or the flag or the system forbids it; the pool stays valid if and only if it did not grow or had a block in use |
| MemoryPool.MemoryPool.CopySections | muggle/c/memory/memory_pool.c:370-447 | the copies produce the new order of the old pointers |
| MemoryPool.MemoryPool.Alloc | muggle/c/memory/memory_pool.c:220-254 | in place; the block returned was not outstanding and now is; fails exactly as `AllocateInNumbers` says, and the capacity afterwards is the one there |
| MemoryPool.MemoryPool.Free | muggle/c/memory/memory_pool.c:255-264 | in place; the block is no longer outstanding |
| MemoryPool.MemoryPool.SetFlag | muggle/c/memory/memory_pool.c:472-475 | in place; nothing else changes |
| MemoryPool.MemoryPool.SetMaxDelta | muggle/c/memory/memory_pool.c:477-480 | in place; nothing else changes |
| BytesBuffer.SpaceIsShared | muggle/c/memory/bytes_buffer.c:52-163 | readable is the number of unread bytes; readable, writable and one spare byte add up to the capacity, or to the truncate position in the wrapped layout |
| BytesBuffer.RoomBehindIff | muggle/c/memory/bytes_buffer.c:53-71 | bytes can be put behind the writer, and are appended by that, if and only if they are no more than the contiguous writable space |
| BytesBuffer.RoomAtStartIff | muggle/c/memory/bytes_buffer.c:73-91 | bytes can be put at the start, and are appended by that, if and only if they are no more than the writable space after a jump |
| BytesBuffer.InARowIff | muggle/c/memory/bytes_buffer.c:153-163 | the contiguous readable bytes are exactly the unread bytes that follow each other from the reader on |
| BytesBuffer.WriteAppends | muggle/c/memory/bytes_buffer.c:227-271 | a write appends its bytes, in one piece, after a jump that truncates, or in two pieces |
| BytesBuffer.StepsDoTheirWork | muggle/c/memory/bytes_buffer.c:52-380 | what each step of a run does: writes, reads and skips what it says if there is room or there are bytes enough, and otherwise nothing; reserves if there is a place; appends what was filled in |
| BytesBuffer.WrittenInARowIff | muggle/c/memory/bytes_buffer.c:227-271 | which way a write goes: to the start if and only if it fits there and not behind the writer; in one piece if and only if it fits into one of the two |
| BytesBuffer.FillDisturbsNothing | muggle/c/memory/bytes_buffer.c:273-292 | filling reserved memory disturbs no unread byte |
| BytesBuffer.ReadKeepsReserved | muggle/c/memory/bytes_buffer.c:190-225 | a read between reservation and move leaves the reservation in place, or clears the buffer |
| BytesBuffer.DrainLosesReservation | muggle/c/memory/bytes_buffer.c:327-352 | the failure: 3 bytes are written, 2 more reserved and filled in, the 3 are read, and moving the writer shows 2 of the 3 again |
| BytesBuffer.DrainedBytesComeBack | muggle/c/memory/bytes_buffer.c:190-225 | six ordinary calls on a buffer of 8 reach that case |
| BytesBuffer.ReaderMoveDrops | muggle/c/memory/bytes_buffer.c:354-380 | a move of the reader drops exactly the bytes that were shown |
| BytesBuffer.FetchedIsPrefix | muggle/c/memory/bytes_buffer.c:165-188 | a fetch copies out the oldest unread bytes, across the truncate position |
| BytesBuffer.BytesBuffer.constructor | muggle/c/memory/bytes_buffer.c:117-128 | a new buffer is empty |
| BytesBuffer.BytesBuffer.Write | muggle/c/memory/bytes_buffer.c:227-271 | in place; succeeds if and only if the bytes fit, and then appends them |
| BytesBuffer.BytesBuffer.Fetch | muggle/c/memory/bytes_buffer.c:165-188 | succeeds if and only if that many bytes are unread, and returns the oldest |
| BytesBuffer.BytesBuffer.Read | muggle/c/memory/bytes_buffer.c:190-225 | in place; returns the oldest bytes; the history stays exact if and only if it does not drain at the truncate position |
| BytesBuffer.BytesBuffer.WriterFc | muggle/c/memory/bytes_buffer.c:273-292 | reports none if and only if no place has room in a row, and the place behind the writer if and only if there is room there |
| BytesBuffer.BytesBuffer.FillIn | muggle/c/memory/bytes_buffer.c:273-292 | in place, the caller's copy: the unread bytes and the reservation stay |
| BytesBuffer.BytesBuffer.WriterMoveN | muggle/c/memory/bytes_buffer.c:327-352 | in place; appends what the caller filled in, which may be less than it asked for; the history stays exact if and only if the reservation is still good or the same bytes stand at the start |
| BytesBuffer.BytesBuffer.ReaderFc | muggle/c/memory/bytes_buffer.c:354-365 | shows the oldest bytes if and only if they lie in a row |
| BytesBuffer.BytesBuffer.ReaderMove | muggle/c/memory/bytes_buffer.c:367-380 | in place; drops exactly that many bytes if they lie in a row |
| AvlShape.RebalancedIsAvl | muggle/c/dsaa/avl_tree.c:418-454 | the four-way rebalancing restores, for every tilted node, true balances within one everywhere, and says truthfully whether the height shrank |
| AvlShape.RebalancedRearranges | muggle/c/dsaa/avl_tree.c:104-454 | rebalancing keeps the in-order contents and the nodes |
| AvlShape.GrewStep | muggle/c/dsaa/avl_tree.c:621-664 | one step of the insertion's climb leaves the tree balanced or hands the growth on to the parent |
| AvlShape.ShrankStep | muggle/c/dsaa/avl_tree.c:737-802 | one step of the removal's climb leaves the tree balanced or hands the shrinking on to the parent |
| AvlShape.SwapKeepsRest | muggle/c/dsaa/avl_tree.c:674-713 | exchanging a node's data with its in-order neighbour keeps the other pairs in order |
| AvlShape.SizeAtLeastFib | muggle/c/dsaa/avl_tree.c:418-454 | a tree of height h has at least Fib(h + 2) - 1 nodes |
| AvlShape.HeightIsLogarithmic | muggle/c/dsaa/avl_tree.c:516-540 | a number of steps up to the height is logarithmic in the number of nodes |
| AvlTree.TurnedOnceLinked | muggle/c/dsaa/avl_tree.c:104-238 | after the pointer writes of a single rotation the nodes are linked as the rotated tree, parents included |
| AvlTree.TurnedTwiceLinked | muggle/c/dsaa/avl_tree.c:240-414 | the same for the double rotations |
| AvlTree.FewSteps | muggle/c/dsaa/avl_tree.c:516-540 | for linked nodes: any number of steps up to the height is logarithmic in the number of nodes in memory |
| AvlTree.AvlTree.RotateLeftAt | muggle/c/dsaa/avl_tree.c:104-169 | in place, the left rotation of the subtree below any path, balances included |
| AvlTree.AvlTree.RotateRightAt | muggle/c/dsaa/avl_tree.c:173-238 | in place, the right rotation |
| AvlTree.AvlTree.RotateRightLeftAt | muggle/c/dsaa/avl_tree.c:240-326 | in place, the right-left rotation |
| AvlTree.AvlTree.RotateLeftRightAt | muggle/c/dsaa/avl_tree.c:328-414 | in place, the left-right rotation |
| AvlTree.AvlTree.Rebalance | muggle/c/dsaa/avl_tree.c:418-454 | in place, a tilted subtree becomes the rebalanced one, any other is left alone |
| AvlTree.AvlTree.Find | muggle/c/dsaa/avl_tree.c:516-540 | finds a node with an equal key if and only if there is one, in a number of steps at most the height and logarithmic in the number of stored nodes |
| AvlTree.AvlTree.RetraceInsert | muggle/c/dsaa/avl_tree.c:621-664 | the climb ends in an AVL tree with the same data |
| AvlTree.AvlTree.SinkData | muggle/c/dsaa/avl_tree.c:674-713 | the pair to be removed moves down to a leaf, the other pairs keep their order |
| AvlTree.AvlTree.EraseLeaf | muggle/c/dsaa/avl_tree.c:715-802 | removing the leaf leaves an AVL tree of the other pairs |
| AvlTree.AvlTree.RetraceRemove | muggle/c/dsaa/avl_tree.c:737-802 | the climb ends in an AVL tree with the same data |
| Heap.MoveUp | muggle/c/dsaa/heap.c:276-288 | moving a smaller node up leaves a hole with strictly greater nodes below |
| Heap.MoveDown | muggle/c/dsaa/heap.c:290-308 | moving a greater node down to its smaller child leaves a hole with no greater node above |
| Heap.HoleCloses | muggle/c/dsaa/heap.c:312-313 | a hole that fits on both sides completes the heap |
| Heap.RootIsLeast | muggle/c/dsaa/heap.c:166-174 | the first node is a least one |
| Heap.Heap.Root | muggle/c/dsaa/heap.c:166-174 | no node if and only if the heap is empty, otherwise the first, than which none is smaller |
| Heap.PickIsSmaller | muggle/c/dsaa/heap.c:191-197 | the child that is compared is not greater than the other one |
| Heap.Heap.Init | muggle/c/dsaa/heap.c:15-40 | capacity 0 stands for 8, 2^31 or more is refused |
| Heap.Heap.EnsureCapacity | muggle/c/dsaa/heap.c:93-122 | in place; keeps the nodes, refuses 2^31 or more |
| Heap.Heap.Insert | muggle/c/dsaa/heap.c:124-164 | in place; keeps the order and adds exactly the pair, or fails when the heap is full and cannot double |
| Heap.Heap.Extract | muggle/c/dsaa/heap.c:176-214 | in place; takes out exactly one pair, none smaller, and keeps the order |
| Heap.Heap.Find | muggle/c/dsaa/heap.c:216-227 | the first node with an equal key, if there is one |
| Heap.Heap.SiftBothWays | muggle/c/dsaa/heap.c:263-313 | the loop that may move up or down never changes direction, ends, and never compares the vacated slot |
| Sorting.StableIsPermutation | muggle/c/dsaa/sort.c:16-146 | keeping the order of equal elements implies being a permutation |
| Sorting.StableSortIsUnique | muggle/c/dsaa/sort.c:16-146 | a sequence has one sorted stable rearrangement only, so the stable sorts agree |
| Sorting.InsertKeepsSorted | muggle/c/dsaa/sort.c:19-35 | insertion behind the last element that is not greater keeps the front sorted |
| Sorting.InsertIsStable | muggle/c/dsaa/sort.c:19-35 | and puts the element after those equal to it |
| Sorting.InsertionSort | muggle/c/dsaa/sort.c:16-38 | in place; sorted, stable, nothing outside the range touched |
| Sorting.MergeSorted | muggle/c/dsaa/sort.c:101-124 | merging sorted sequences gives a sorted one |
| Sorting.MergeIsStable | muggle/c/dsaa/sort.c:101-124 | merging keeps equal elements in order, those of the left half first |
| Sorting.MergeInto | muggle/c/dsaa/sort.c:101-124 | the three loops compute that merge |
| Sorting.MergeStaysInsideIff | muggle/c/dsaa/sort.c:131-146 | for every count: what the recursion from 0 to `count - 1` merges first lies inside the array if and only if the count is not 0 |
| Sorting.ScanUp | muggle/c/dsaa/sort.c:189 | the first unguarded scan stops at the latest at the other side's sentinel |
| Sorting.ScanDown | muggle/c/dsaa/sort.c:190 | so does the second |
| Sorting.Median3 | muggle/c/dsaa/sort.c:148-176 | in place; the median of three ends up next to last with the smaller one first and the greater one last |
| Sorting.Partition | muggle/c/dsaa/sort.c:183-206 | in place; a permutation with nothing greater before the pivot and nothing smaller behind it; scans and swaps stay inside the range |
| Sorting.QuickStaysInsideIff | muggle/c/dsaa/sort.c:148-223 | for every count: what quick sort looks at first lies inside the array if and only if the count is not 0 |
| Feistel.IpTable | muggle/c/crypt/internal/internal_des.c:77-115 | the initial permutation, row by row |
| Feistel.FpTable | muggle/c/crypt/internal/internal_des.c:117-155 | the final permutation, row by row |
| DesTrace.KeysAreTraced | muggle/c/crypt/des.c:57-83 | the subkey of each round is cut out of the key as shifted up to that round; an encrypt context has them in order, a decrypt context backwards |
| DesTrace.TripleKeysAre | muggle/c/crypt/tdes.c:91-125 | which key's subkeys, and in which direction, are the first, the middle and the last 16 of a triple DES context |
| Feistel.TablesUndoEachOther | muggle/c/crypt/internal/internal_des.c:77-155 | the two permutations undo each other |
| Feistel.RoundsUndo | muggle/c/crypt/des.c:114-127 | any number of rounds, for any round function, are undone by the same rounds with the subkeys reversed |
| Feistel.CryptUndo | muggle/c/crypt/des.c:93-141 | the whole block operation is undone by running the subkeys backwards |
| Feistel.DesRoundTrip | muggle/c/crypt/des.c:33-141 | for every key, schedule and round function the decrypt context undoes the encrypt context and the other way round |
| Feistel.TripleKeysReverse | muggle/c/crypt/tdes.c:91-125 | the 48 subkeys of a triple DES decrypt context are those of the encrypt context backwards |
| Feistel.TripleRoundTrip | muggle/c/crypt/tdes.c:23-149 | the triple DES decrypt context undoes the encrypt context and the other way round |
| Feistel.SetKeyInner | muggle/c/crypt/des.c:57-83 | the loop stores the schedule's subkeys in order, or backwards for decryption |
| Feistel.SetKey | muggle/c/crypt/des.c:143-177 | unknown operations and modes are refused; CFB, OFB and CTR always get encryption subkeys |
| Feistel.SetTripleKey | muggle/c/crypt/tdes.c:78-149 | key order and inversion of the middle key, for both operations and all modes |
| Feistel.CryptBlock | muggle/c/crypt/des.c:93-141 | the 16-round loop computes the operation that `CryptIsTraced` follows |
| Feistel.TripleCryptBlock | muggle/c/crypt/tdes.c:23-76 | the three loops are one chain of 48 rounds of that operation |
| DesModes.DesIsInvertible | muggle/c/crypt/des.c:33-141 | DES on blocks of 8 bytes is an invertible block function, for every key, schedule and round function |
| DesModes.TripleDesIsInvertible | muggle/c/crypt/tdes.c:23-149 | so is triple DES |
| DesModes.DesBlockIs | muggle/c/crypt/des.c:33-141 | DES on 8 bytes is the block operation on their bits, with the encrypt context's subkeys one way and the decrypt context's the other |
| DesModes.TripleDesBlockIs | muggle/c/crypt/tdes.c:23-149 | so is triple DES |
| DesModes.ToBitsAt | muggle/c/crypt/internal/internal_des.c:77-115 | bit 8i + j of a block is bit j of its byte i |
| DesModes.TripleDesInPlaceIsRightIff | muggle/c/crypt/tdes.c:181-283 | both at triple DES |
| CipherModes.RunJoin | muggle/c/crypt/aes.c:273-393 | CFB, OFB and CTR: a message may be cut into calls anywhere, output and carried state are those of one call |
| CipherModes.RunBlock | muggle/c/crypt/des.c:258-381 | whole blocks are mixed as sections 6.3 to 6.5 of NIST SP 800-38A prescribe: with the block function of the previous ciphertext, of its own previous value, or of the next nonce |
| ModesByBlock.BlockIs | muggle/c/crypt/des.c:258-381 | what the block function is given, byte by byte what its output is mixed with, and what is carried on |
| ModesByBlock.PartIs | muggle/c/crypt/des.c:258-381 | part of a block, too, is mixed with the output of the block function |
| ModesByBlock.LittleIs | muggle/c/crypt/aes.c:379-384 | the bytes of the nonce in memory, weighted by powers of 256, add up to it |
| ModesByBlock.CbcMessageIs | muggle/c/crypt/des.c:207-256 | a whole CBC message in blocks, as section 6.2 of NIST SP 800-38A has it |
| CipherModes.NonceAdvances | muggle/c/crypt/aes.c:375-388 | over q blocks the nonce advances by q modulo 2^128, or 2^64 for DES |
| CipherLoops.IncrementNonce | muggle/c/crypt/aes.c:379-383 | the two-word increment with carry adds one modulo 2^128 |
| CipherModes.CbcJoin | muggle/c/crypt/aes.c:249-268 | CBC may be cut into calls at any block |
| CipherModes.CbcCallsAreOneRun | muggle/c/crypt/aes.c:249-268 | the same for CBC, cut at any blocks |
| CipherModes.CbcUndo | muggle/c/crypt/des.c:232-253 | CBC decryption returns the plaintext and carries the same vector on, for every invertible block function |
| CipherModes.CfbDecryptInPlaceIff | muggle/c/crypt/des.c:280-302 | with one buffer for input and output, CFB decryption is right, in its output and in the vector it carries on, if and only if it leaves every byte as it was |
| CipherModes.CbcDecryptInPlaceIff | muggle/c/crypt/des.c:243-251 | the same for CBC decryption |
| CipherModes.CfbDecryptInPlaceFails | muggle/c/crypt/des.c:280-302 | for every injective block function and every message but the empty one: CFB decryption in one buffer is wrong from a block of ones with one byte used up |
| CipherModes.CbcDecryptInPlaceFails | muggle/c/crypt/des.c:243-251 | for every block function and every message of whole blocks but the empty one: a vector with which CBC decryption in one buffer is wrong |
| CipherModes.CbcInPlaceIsRightIff | muggle/c/crypt/des.c:232-253 | a CBC call is right for every vector and every message of n bytes in whole blocks if and only if it encrypts, has two buffers, or n is 0 |
| CipherLoops.CryptCfb | muggle/c/crypt/des.c:258-305 | on buffers that may be one and the same: the loop, its carried vector and offset, and its refusals; in one buffer it always runs as encryption does |
| CipherLoops.CryptOfb | muggle/c/crypt/aes.c:318-351 | on buffers that may be one and the same: the loop and its refusals; only the AES version checks the operation |
| CipherLoops.CryptCtr | muggle/c/crypt/aes.c:353-393 | on buffers that may be one and the same: the loop with nonce, stream block and offset, and its refusals |
| CipherLoops.CryptCbc | muggle/c/crypt/aes.c:228-271 | on buffers that may be one and the same: the loop, its carried vector, and its refusal of input that is not whole blocks; in one buffer decryption carries on what it has just written |

## Left out

- Memory orders and fences: every access to a shared cell is one sequentially consistent step.
- The size check for 32-bit platforms in the pools; failures of the system allocator, except where a `granted`, `more` or `addr` parameter stands for them; huge pages, cache-line padding, the `destroy` and `clear` functions.
- The blocking loops of `channel.c`, `ma_ring.c` and `synclock.c` are transition systems on values, not methods on objects: Dafny has no threads to run them in.
- The deprecated `muggle_bytes_buffer_writer_move`, which its own header says does not match `writer_fc`; a second write or reservation between `writer_fc` and `writer_move_n`; a buffer capacity of 0 and negative byte counts.
- BytesBuffer.EveryRunIsFifo: a run ends before a read or a move that loses or repeats bytes; `ReadDrops` and `MoveAppendsIff` say exactly which these are.
- MemoryPool.EveryRunIsSound: a run ends before growth with no block in use; `GrowIsSoundIffUsed` says that this is exactly when growth goes wrong.
- MaRing.EveryRunIsSafe: a change of the capacity while a ring is in use, or to or below a remembered read position, is ruled out by its hypothesis `AllCareful`. For the second `CapacityChangeIsSafeIff` says that it is exact; of the first only the failure `RaisedInUseLeavesTheBuffer` is proved, not when such a change does no harm.
- Nodes of the AVL tree are entries of an explicit memory, one map from addresses to nodes, not Dafny objects; `remove` moves data between nodes, so a caller's pointer to another node may afterwards hold different data.
- Calls of the key and value free functions in the heap and the AVL tree.
- ShmRing.RingBuffer.Open: creation only; attaching to existing shared memory, and the system calls behind both, do not appear.
- ShmRing.RingBuffer.AllocCachelines: requests of 2^31 lines or more are excluded here and in the runs, and treated in `ShmHugeRequest` without interference of the reader.
- SowrPool.MemoryPool.Init: the size of a block does not appear.
- Channel.EveryRunIsFifo: the write lock is a mutual exclusion primitive; which of the library's locks is configured does not appear.
- Sorting.MergeSort: an empty array is excluded, since the code leaves it (`MergeStaysInsideIff`), unless `malloc(0)` returns NULL, when it refuses; the same holds for quick sort (`QuickStaysInsideIff`).
- Shell sort.
- The S-boxes, expansion, PC-1, PC-2 and the AES rounds and key expansion: the round function, the key schedule's permutations and the block function are arbitrary functions. Triple DES as three composed DES calls: there is no exchange of halves between its stages, so only its own round trip is claimed. ECB, the OpenSSL code paths and the checks for null pointers.
- CipherLoops.CryptCbc: input and output are one buffer or do not overlap, and the vector is a buffer of its own; the same holds for the other three modes.
- CipherLoops.CryptCtr: the nonce is laid out in memory lowest byte first.
- `threadsafe_memory_pool.c`, `ring_buffer.c`, the lists, queues, stacks, hash tables, tries, reference counts, timers, and the network, event, log and system layers.
