# Crossbow in Dafny

Crossbow is the support library of a distributed database. This project models the parts of it that
are hard to get right: the shared-memory protocols, and the index, wire format, messaging and string
code built on them. It proves what they promise, for every input and every run.

| file | models | main results |
|---|---|---|
| `Epoch.dfy` | guards, `free` and the rotation of the epoch allocator | a destructor runs exactly once, and only after every guard that was alive when the block was freed has left |
| `Reclaim.dfy` | the progress of the epoch allocator | leaving guards rotate exactly when they may, and three of them give all freed memory back |
| `FreeList.dfy` | `own`, `append` and `destruct` on the lists of freed nodes | one of several frees of a block wins; it ends at one place, and destructors run in push order |
| `Ring.dfy` | the multi-producer, single-consumer ring | what is consumed is a prefix of what was claimed; no write hits an unconsumed slot |
| `EventLoop.dfy` | `execute`, polling, sleeping and waking on top of the ring | no lost wakeup |
| `RingProgress.dfy` | the progress of ring and event loop | exactly the right producers are let in; writes, reads and batches finish; a sleeping thread runs the next task |
| `Stack.dfy` | the lock-free bounded stack | every step is a step of an abstract stack; last in, first out with one popping thread |
| `StackProgress.dfy` | the progress of the stack | pushes in flight finish in order, and pops finish |
| `Bits.dfy`, `ConcurrentMap.dfy` | the hash map with its buckets, masks and resizes | every run of operations answers as a plain map does |
| `StripedLocks.dfy` | the lock striping of the hash map | one writer per bucket, resizes exclude operations, no deadlock |
| `Bytes.dfy`, `Serializer.dfy` | sizer, writer and reader of the serializer | exact sizes, round trips over an unbounded type universe |
| `Batching.dfy` | message framing, batching, flushing and receiving | what is parsed from the sent buffers, then the current one, is what was accepted |
| `BufferPool.dfy` | the send-buffer pool and work request ids | each buffer id is in one place; buffers never overlap |
| `RpcClient.dfy` | the queue of pending synchronous requests | each request completes once, with its own delivered answer or an abort that has its reason |
| `SmallString.dfy` | the small-buffer string | in-place edits refine edits of a character sequence, outcomes included; amortised `push_back` |
| `TokenStore.dfy` | the memory token table | scans of the slots agree with a map from token to entry |

## How it is modelled

Concurrent code becomes a state machine. `Enabled` and `Do` give the steps, and `Exec` is the state
after a run. Atomic accesses use sequentially consistent order (section 29.3 of ISO/IEC 14882:2011),
so each is one step. An invariant is proved of every step and then of every run. Fields that only
record history, such as the claim order of the ring, say so where they are declared. Progress is proved
by building continuations: from any reachable state, a bounded number of steps of the call itself.

Sequential code that works on objects becomes classes with the fields of the source. Their methods
keep a predicate `Valid` and are specified by functions of the old state. A method `Run` executes
any sequence of calls. The environment (the device, the pool, the server, the fibers that run at a
resume point) is a parameter: a flag, an offer or a script.

The serializer is structural recursion over types, so it is functions and lemmas.

Some properties of the source hold only under a condition, and the model states the exact one.
`tryWrite` tests the ring correctly unless nothing has been consumed yet (`Ring.TryWriteTestIsExact`).
The 32-bit frame length is right unless it overflows (`Batching.LengthTestIff`). A response reaches its
own request unless an older pending one is a multiple of 2^32 calls away (`RpcClient.OwnAnswerIff`).
The same holds of string sizes in the serializer, of string sizes and positions that overflow 64 bits,
of tokens published twice, and of tables with fewer buckets than locks.

## Model

| member | source | states |
|---|---|---|
| `Epoch.StepKeepsInv` | libs/allocator/src/allocator.cpp:154-202 | every step of guard entry, exit, free and rotation keeps the invariant: counters are twice their holders plus the open bit, pointers follow the rotation store by store, nobody holds the oldest counter |
| `Epoch.ExecInv` | libs/allocator/src/allocator.cpp:111-202 | the invariant holds in every reachable state |
| `Epoch.DestroyedAfterGuardsLeft` | libs/allocator/src/allocator.cpp:154-202 | over whole runs: a guard alive while the winning free owns a block has left once the destructor of that block has run |
| `Epoch.FreesTouchLiveMemory` | libs/allocator/src/allocator.cpp:154-162 | a free in progress never works on a deleted list or on the node of a destroyed block, also when a guard frees a block again that was freed while the guard was alive |
| `Epoch.BlocksHaveOnePlace` | libs/allocator/src/allocator.cpp:195-200 | no block is on two lists, or both listed and destroyed, or destroyed twice |
| `Epoch.ExecKept` | libs/allocator/src/allocator.cpp:154-202 | in every reachable state a freed block is on its list until its destructor ran, a list out of the rotation is held by a guard that will delete it, and a block taken by a free is in its hands or on a list |
| `Epoch.TakenBlocksAreKept` | libs/allocator/src/allocator.cpp:154-202 | destructors run exactly once: a block that a free has taken is in that call's hands, or on exactly one list (one of the rotation, or one a guard is about to delete) and not destroyed, or on no list and destroyed once |
| `Epoch.RotationsExclude` | libs/allocator/src/allocator.cpp:181-202 | at most one guard rotates, and two guards never delete the same list |
| `Epoch.CountersAfterEntry` | libs/allocator/src/allocator.cpp:171-179 | adding 2 to a counter counts exactly the new holder |
| `Epoch.CountersAfterExit` | libs/allocator/src/allocator.cpp:182 | subtracting 2 uncounts exactly the leaving holder and never wraps |
| `Epoch.PointersFollow` | libs/allocator/src/allocator.cpp:191-199 | every load and store of the rotation takes the pointers to the arrangement of its next instruction |
| `Reclaim.RotatesIff` | libs/allocator/src/allocator.cpp:181-190 | in every reachable state a leaving guard starts a rotation exactly if nobody rotates and nobody is left from the epoch before |
| `Reclaim.RotateAlone` | libs/allocator/src/allocator.cpp:191-199 | a rotation runs to its end from any of its instructions, whatever other guards are in the middle of |
| `Reclaim.ThreeGuardsReclaim` | libs/allocator/src/allocator.cpp:171-202 | from any state with no guard at work, three guards that enter and leave one after the other have every block destroyed, once, that a free had taken |
| `Reclaim.FreeAlone` | libs/allocator/src/allocator.cpp:154-162 | an undisturbed free of a block that nobody has taken puts it on the active list |
| `FreeList.Destruct` | libs/allocator/src/allocator.cpp:67-78 | the recursive destructor visits the nodes of a chain in push order |
| `FreeList.ExecInv` | libs/allocator/src/allocator.cpp:48-91 | in every interleaving of owning and appending, each head leads through exactly the pushed nodes |
| `FreeList.DestructorsRunInPushOrder` | libs/allocator/src/allocator.cpp:67-91 | deleting a list in any reachable state runs its destructors in push order, the order `free_in_order` is for |
| `FreeList.PushedOnce` | libs/allocator/src/allocator.cpp:82-91 | a node is on at most one list at one position |
| `FreeList.OneCallWins` | libs/allocator/src/allocator.cpp:48-59 | of several calls for a node at most one pushes it; a refused call means that another one owns or has pushed it |
| `FreeList.FinishedIsListed` | libs/allocator/src/allocator.cpp:48-91 | once a call for a node has finished and none is at work on it, the node is at exactly one position of exactly one list |
| `FreeList.CallFinishes` | libs/allocator/src/allocator.cpp:48-91 | from any state a call run alone finishes within six steps: its node is at the end of its list, or it is refused exactly if the node is taken by another |
| `Ring.IndexIsModulo` | crossbow/singleconsumerqueue.hpp:121 | the recursive slot index is the position modulo the ring size |
| `Ring.StepKeepsInv` | crossbow/singleconsumerqueue.hpp:50-124 | every step of `write`, `read` and `readMultiple` keeps the ring invariant |
| `Ring.ExecInv` | crossbow/singleconsumerqueue.hpp:50-124 | the invariant holds in every reachable state, from the wrapped initial value of `_consumed` on |
| `Ring.ConsumedIsPrefixOfClaims` | crossbow/singleconsumerqueue.hpp:53-111 | consumed values are exactly the first values in claim order |
| `Ring.WritesHitFreeSlots` | crossbow/singleconsumerqueue.hpp:114-124 | a producer about to write owns a slot that holds no unconsumed item and that nobody else writes |
| `Ring.BatchIsBounded` | crossbow/singleconsumerqueue.hpp:93-111 | one `readMultiple` takes at most QueueSize - 1 items |
| `Ring.BatchStopsOnlyAtTheEnd` | crossbow/singleconsumerqueue.hpp:93-111 | `readMultiple` goes on exactly while its output has room and the next position is published |
| `Ring.ReadOfPublishedSucceeds` | crossbow/singleconsumerqueue.hpp:79-90 | a `read` started on a published position takes the item and stores the counter, whatever producers do meanwhile |
| `Ring.CounterCountsConsumed` | crossbow/singleconsumerqueue.hpp:50-111 | between reads `_consumed + 1` is the number of items consumed |
| `Ring.TryWriteTestIsExact` | crossbow/singleconsumerqueue.hpp:67-77 | the refusal test of `tryWrite` agrees with `isFull` exactly unless nothing was consumed and the position is past the first QueueSize - 1 |
| `RingProgress.GrantedIff` | crossbow/singleconsumerqueue.hpp:114-117 | while no read is under way, a waiting producer is let in exactly if its position is among the next QueueSize - 1 |
| `RingProgress.FirstPositions` | crossbow/singleconsumerqueue.hpp:50-64 | before anything is consumed, exactly the first QueueSize - 1 positions are let in |
| `RingProgress.WriterFinishes` | crossbow/singleconsumerqueue.hpp:54-64 | a producer with room publishes its item within three steps of its own |
| `RingProgress.ReaderFinishes` | crossbow/singleconsumerqueue.hpp:79-90 | a `read` that found its item published ends with that item within five steps of its own |
| `RingProgress.BatchFinishes` | crossbow/singleconsumerqueue.hpp:93-111 | a `readMultiple` run alone takes items until its output is full or the next position is not published |
| `RingProgress.WriteThenRead` | crossbow/singleconsumerqueue.hpp:53-90 | on an empty ring in any reachable state, a write followed by a read gives the value back |
| `EventLoop.LoopExecInv` | libs/infinio/src/EventProcessor.cpp:100-189 | the handshake invariant in every reachable state: a sleeping consumer with work to do is covered by a signal or by a producer that will signal |
| `EventLoop.FailedReadSawNothing` | crossbow/singleconsumerqueue.hpp:79-82 | a read that fails saw the next slot not valid or not claimed |
| `EventLoop.NoLostWakeup` | libs/infinio/src/EventProcessor.cpp:100-189 | whenever the poll thread sleeps although the next position is published, it can be woken within one flag load and one signal of a producer |
| `EventLoop.TasksRunInOrder` | libs/infinio/src/EventProcessor.cpp:153-172 | tasks run in the order in which their positions were claimed |
| `EventLoop.AwakeMeansNoSignal` | libs/infinio/src/EventProcessor.cpp:153-159 | while the poll thread never prepared to sleep, no producer signals |
| `EventLoop.FlagStaysSet` | libs/infinio/src/EventProcessor.cpp:174-189 | once set, the sleeping flag stays set until the eventfd itself wakes the thread, whatever other pollers report |
| `RingProgress.WakesUp` | libs/infinio/src/EventProcessor.cpp:113-126 | a poll thread that sleeps although a task is published is awake, with its flag cleared, within five steps of producers and itself |
| `RingProgress.RunsNextTask` | libs/infinio/src/EventProcessor.cpp:161-172 | a published next task is run by the next call of `poll` |
| `RingProgress.WakesAndRuns` | libs/infinio/src/EventProcessor.cpp:100-189 | from sleep with a published task there is a continuation that runs exactly that task |
| `RingProgress.FallsAsleep` | libs/infinio/src/EventProcessor.cpp:109-115 | with nothing published the poll thread is asleep, with its flag set, within four steps |
| `Stack.ExecInv` | crossbow/fixed_size_stack.hpp:68-104 | the stack invariant in every reachable state, for any number of pushers and poppers |
| `Stack.HeadsAndSlots` | crossbow/fixed_size_stack.hpp:68-111 | read head <= write head <= capacity, the slots between them belong to the pushes in flight one each, and `size` is published pushes minus successful pops |
| `Stack.StepsAreStackOperations` | crossbow/fixed_size_stack.hpp:68-104 | each step pushes, pops or leaves the abstract stack alone; publications are in reservation order, no pop commits while a push is in flight, a failed pop saw it empty |
| `Stack.PublisherIsFirst` | crossbow/fixed_size_stack.hpp:95-101 | the push that publishes is the one that reserved first |
| `Stack.PushFailsIff` | crossbow/fixed_size_stack.hpp:85-89 | a push gives up exactly if the write head it loaded is at the capacity |
| `Stack.FailedPushSawFull` | crossbow/fixed_size_stack.hpp:82-89 | over whole runs: a push that reported failure saw a head of the run, while it was under way, with the write head at the capacity |
| `StackProgress.FirstFinishes` | crossbow/fixed_size_stack.hpp:92-103 | from every reachable state, the push that reserved first returns true within five steps of its own, with its element on top |
| `StackProgress.AllFinish` | crossbow/fixed_size_stack.hpp:92-103 | all pushes in flight can finish, each on top of those that reserved before it |
| `StackProgress.ReservesAlone` | crossbow/fixed_size_stack.hpp:85-90 | a push that loaded a head with room reserves the next slot within two steps of its own |
| `StackProgress.PopFinishes` | crossbow/fixed_size_stack.hpp:68-79 | while no push is in flight, a pop takes the top away, or finds the stack empty, within five steps of its own |
| `StackProgress.SoloPop` | crossbow/fixed_size_stack.hpp:68-79 | a pop that runs alone returns the top element, or reports empty exactly if the stack is |
| `Stack.PopReturnsTop` | crossbow/fixed_size_stack.hpp:75-77 | a pop returns the top unless another pop committed since it loaded the head |
| `Stack.SinglePopperIsLifo` | crossbow/fixed_size_stack.hpp:68-104 | with one popping thread, a successful pop returns the newest published element |
| `Stack.TwoPoppersCanRepeat` | crossbow/fixed_size_stack.hpp:75-76 | a run with two poppers in which a pop returns an element popped before |
| `Bits.AlignRoundsUp` | crossbow/alignment.hpp:48-52 | the mask expression of `align` is the next multiple of the power of two |
| `Bits.AndLowMask` | crossbow/concurrent_map.hpp:370-372 | masking with 2^k - 1 keeps the lowest k bits |
| `Bits.AndHighMask` | crossbow/alignment.hpp:48-52 | masking with a negated power of two clears the low bits |
| `ConcurrentMap.BucketInsert` | crossbow/concurrent_map.hpp:93-117 | a bucket that holds a map holds the updated map after an insert, and the answer is the plain map's |
| `ConcurrentMap.BucketErase` | crossbow/concurrent_map.hpp:129-144 | erasing removes the key and returns its value, whether it was in the slot or in the overflow |
| `ConcurrentMap.EraseSlotHolds` | crossbow/concurrent_map.hpp:222-234 | refilling the inline slot from the end of the overflow keeps the bucket's map and the empty-slot rule |
| `ConcurrentMap.EraseOverflowHolds` | crossbow/concurrent_map.hpp:236-241 | erasing in the overflow removes that key only |
| `ConcurrentMap.BucketAt` | crossbow/concurrent_map.hpp:145-160 | lookup in a bucket is lookup in its map |
| `ConcurrentMap.BucketExecOn` | crossbow/concurrent_map.hpp:176-204 | `exec_on` erases, updates or inserts as the callback says, and the count changes accordingly |
| `ConcurrentMap.BucketForEach` | crossbow/concurrent_map.hpp:163-173 | every entry of the bucket is visited once, and the new values are kept |
| `ConcurrentMap.MoveAll` | crossbow/concurrent_map.hpp:119-127 | re-inserting elements without a duplicate check extends the table's map by them |
| `ConcurrentMap.Rehash` | crossbow/concurrent_map.hpp:381-399 | the rebuilt table holds the same map, relying on empty slots having empty overflow |
| `ConcurrentMap.TableForEach` | crossbow/concurrent_map.hpp:350-352 | the visit lists the whole map, each key once |
| `ConcurrentMap.MaskOfSize` | crossbow/concurrent_map.hpp:382 | SIZE_MAX modulo a power of two is its mask |
| `ConcurrentMap.GrownSize` | crossbow/concurrent_map.hpp:335-338 | the growth loop ends at the smallest power of two that is at least doubled and large enough |
| `ConcurrentMap.ConcurrentMap.constructor` | crossbow/concurrent_map.hpp:255-265 | an empty map with a power of two of buckets |
| `ConcurrentMap.ConcurrentMap.Reserve` | crossbow/concurrent_map.hpp:329-340 | grows only at the bound, and never changes the contents |
| `ConcurrentMap.ConcurrentMap.Resize` | crossbow/concurrent_map.hpp:374-400 | the contents survive, and every key is in its bucket under the new mask |
| `ConcurrentMap.ConcurrentMap.Insert` | crossbow/concurrent_map.hpp:285-293 | plain map update, answer, and count |
| `ConcurrentMap.ConcurrentMap.Erase` | crossbow/concurrent_map.hpp:295-303 | plain map removal, answer, and count |
| `ConcurrentMap.ConcurrentMap.At` | crossbow/concurrent_map.hpp:305-309 | plain map lookup |
| `ConcurrentMap.ConcurrentMap.ExecOn` | crossbow/concurrent_map.hpp:316-321 | plain map update by the callback |
| `ConcurrentMap.ConcurrentMap.ForEach` | crossbow/concurrent_map.hpp:324-353 | visits every entry once and maps the values |
| `ConcurrentMap.ConcurrentMap.Run` | crossbow/concurrent_map.hpp:281-340 | any sequence of operations gives the answers of a plain map, `_count` is its size and stays within one of the growth bound |
| `StripedLocks.SameBucketSameLock` | crossbow/concurrent_map.hpp:366-372 | hashes that select the same bucket select the same lock |
| `StripedLocks.LockIsRemainder` | crossbow/concurrent_map.hpp:366-368 | the lowest c bits are the hash modulo the number of locks |
| `StripedLocks.OneLockPerBucketIff` | crossbow/concurrent_map.hpp:366-372 | for 2^c locks and 2^b buckets, every bucket has one lock exactly if c <= b |
| `StripedLocks.ExecInv` | crossbow/concurrent_map.hpp:285-400 | the locking invariant in every reachable state, with any number of threads and resizes |
| `StripedLocks.OneWriterPerBucket` | crossbow/concurrent_map.hpp:285-321 | no two threads work on the same bucket |
| `StripedLocks.WorkerIsAlone` | crossbow/concurrent_map.hpp:343-384 | while a thread resizes or visits the table, no other thread is inside an operation |
| `StripedLocks.NoDeadlock` | crossbow/concurrent_map.hpp:329-384 | whoever is active, somebody can take a step |
| `StripedLocks.ReserveDecides` | crossbow/concurrent_map.hpp:332-339 | under lock 0 a `reserve` gives up exactly if the table as it is then has room for what it asked for |
| `StripedLocks.TablesGrow` | crossbow/concurrent_map.hpp:329-340 | tables only grow, because of the second test under lock 0 only when the entries asked for have reached the bound of the table as it is then, and a finished resize leaves the decided size |
| `Serializer.SizeIsLength` | crossbow/serializer/Serializer.hpp:255-322 | the sizer counts the bytes written, for every value of every type |
| `Serializer.SizeFromLastIsSizeAll` | crossbow/serializer/Serializer.hpp:255-322 | sizing a tuple from its last component gives the sum over its fields |
| `Serializer.StringSizeIsExact` | crossbow/serializer/string.hpp:29-63 | sizer and writer agree on a string exactly if it is shorter than 2^32 |
| `Serializer.RoundTrip` | crossbow/serializer/Serializer.hpp:99-253 | reading what was written, before any suffix, gives the value and stops at the suffix |
| `Serializer.StringRoundTrip` | crossbow/serializer/string.hpp:29-63 | the length-prefixed string comes back |
| `Serializer.FieldsRoundTrip` | crossbow/serializer/Serializer.hpp:99-253 | tuple fields come back in order |
| `Serializer.ElemsRoundTrip` | crossbow/serializer/vector.hpp:29-71 | vector elements come back in order |
| `Serializer.MapRoundTrip` | crossbow/serializer/map.hpp:29-123 | maps and multimaps come back with their count |
| `Serializer.EntriesRoundTrip` | crossbow/serializer/map.hpp:29-123 | emplacing the entries one by one rebuilds the map |
| `Serializer.SerializeDeserialize` | crossbow/serializer/Serializer.hpp:421-434 | the buffer is filled exactly, and the value comes back from it |
| `Serializer.NoEncodingIsPrefix` | crossbow/serializer/BoostOptional.hpp:31-72 | within a type no encoding is a proper prefix of another, so values can be streamed |
| `Serializer.AnyIterationOrder` | crossbow/serializer/unordered_map.hpp:29-75 | an unordered map comes back as the same map for any iteration order |
| `Serializer.WireFormat` | crossbow/serializer/Serializer.hpp:123-131 | the bytes on the wire: tags 0 and 1 for booleans and optionals, little endian lengths of four and eight bytes, components in order |
| `Batching.AlignedOffset` | crossbow/byte_buffer.hpp:106-108 | aligning an address in an 8-aligned buffer aligns the offset |
| `Batching.FramesAppend` | libs/infinio/include/crossbow/infinio/BatchingMessageSocket.hpp:278-282 | a padded frame behind a run of frames is a run of frames |
| `Batching.HeaderRoundTrip` | libs/infinio/include/crossbow/infinio/BatchingMessageSocket.hpp:316-325 | the header fields and the payload come back from the bytes |
| `Batching.ParseFrames` | libs/infinio/include/crossbow/infinio/BatchingMessageSocket.hpp:308-331 | the receiver recovers exactly the framed messages, whatever the padding holds |
| `Batching.ReadMessage` | libs/infinio/include/crossbow/infinio/BatchingMessageSocket.hpp:317-330 | one round of the receive loop takes the first message off what is left, or stops at a length that does not fit |
| `Batching.OnReceive` | libs/infinio/include/crossbow/infinio/BatchingMessageSocket.hpp:308-331 | the receive loop computes the parse of the buffer, for every buffer |
| `Batching.LengthTestIff` | libs/infinio/include/crossbow/infinio/BatchingMessageSocket.hpp:244-245 | the 32-bit room test is right exactly if the length does not overflow, or overflows to something that does not fit either |
| `Batching.SentOneMore` | libs/infinio/include/crossbow/infinio/BatchingMessageSocket.hpp:353-369 | sending a buffer moves its messages from the current ones to the delivered ones |
| `Batching.Socket.constructor` | libs/infinio/include/crossbow/infinio/BatchingMessageSocket.hpp:62-74 | a socket starts without a buffer and without a flush task |
| `Batching.Socket.SendCurrentBuffer` | libs/infinio/include/crossbow/infinio/BatchingMessageSocket.hpp:353-369 | hands out exactly the bytes written, or fails; either way there is no current buffer left |
| `Batching.Socket.ScheduleFlush` | libs/infinio/include/crossbow/infinio/BatchingMessageSocket.hpp:371-403 | exactly one flush task is queued |
| `Batching.Socket.FlushTask` | libs/infinio/include/crossbow/infinio/BatchingMessageSocket.hpp:376-400 | sends a buffer with data, releases an empty one, and leaves none |
| `Batching.Socket.Put` | crossbow/byte_buffer.hpp:172-181 | bytes are copied in place and the rest is kept |
| `Batching.Socket.WriteFrame` | libs/infinio/include/crossbow/infinio/BatchingMessageSocket.hpp:275-282 | the frame is written behind the others, in bounds and aligned |
| `Batching.Socket.Append` | libs/infinio/include/crossbow/infinio/BatchingMessageSocket.hpp:275-291 | a message is accepted, or the failed write is rolled back to the old contents |
| `Batching.Socket.NextBuffer` | libs/infinio/include/crossbow/infinio/BatchingMessageSocket.hpp:253-267 | the old buffer is sent, and an empty one with a queued flush task is in place |
| `Batching.Socket.WriteMessage` | libs/infinio/include/crossbow/infinio/BatchingMessageSocket.hpp:242-291 | the outcome in every case: too big exactly if header and payload exceed an empty buffer (absent other errors); a message that fits a batch that is not full stays in the buffer, otherwise the buffer goes out |
| `Batching.Socket.Run` | libs/infinio/include/crossbow/infinio/BatchingMessageSocket.hpp:242-403 | over any run: a valid buffer implies a flush task, the batch size counts the frames, positions stay aligned and in bounds; without flushes, a buffer goes out only with a full batch or without room for a later message |
| `Batching.Socket.Transfer` | libs/infinio/include/crossbow/infinio/BatchingMessageSocket.hpp:242-331 | over any run without a failed send, the messages parsed from the sent buffers and then from the current one are the accepted messages in order; writes that nothing stands in the way of are accepted |
| `WorkRequestId.PackIsOr` | libs/infinio/src/WorkRequestId.hpp:89-93 | the packed id is the or of the fields shifted by 32, 16 and 0 bits |
| `WorkRequestId.RoundTrip` | libs/infinio/src/WorkRequestId.hpp:66-93 | user id, buffer id and type come back from the packed id |
| `WorkRequestId.UnpackRoundTrip` | libs/infinio/src/WorkRequestId.hpp:66-93 | a word is the packing of its own fields exactly if its type code is known |
| `BufferPool.CompletionContext.constructor` | libs/infinio/src/DeviceContext.cpp:206-210 | every id starts on the free stack |
| `BufferPool.CompletionContext.Acquire` | libs/infinio/src/DeviceContext.cpp:268-280 | gives the top id's buffer, inside the region; none exactly if the stack is empty or the request too long, so the range check never fails |
| `BufferPool.CompletionContext.Release` | libs/infinio/src/DeviceContext.cpp:282-295 | the id goes back on the stack |
| `BufferPool.CompletionContext.Post` | libs/infinio/src/InfinibandSocket.cpp:226-239 | the device gets the id of the held buffer, or the buffer is released |
| `BufferPool.CompletionContext.Complete` | libs/infinio/src/DeviceContext.cpp:363-426 | a completion releases the id that was posted, whether or not its socket is known |
| `BufferPool.CompletionContext.Run` | libs/infinio/src/DeviceContext.cpp:268-426 | over any run each id is counted once over stack, holders and posted sends, and held buffers do not overlap |
| `BufferPool.EachIdHasOnePlace` | libs/infinio/src/DeviceContext.cpp:268-295 | the places recorded per id imply the count of one |
| `BufferPool.CompletionContext.BuffersApart` | libs/infinio/src/DeviceContext.cpp:278-279 | buffers of different ids do not overlap |
| `RpcClient.RpcClientSocket.constructor` | libs/infinio/src/RpcClient.cpp:60-69 | no request is pending at the start |
| `RpcClient.RpcClientSocket.Send` | libs/infinio/include/crossbow/infinio/RpcClient.hpp:477-505 | the three cases: queued under the next id and handed to the server, aborted at once with the write error or the lost connection, or unchanged while the queue is full |
| `RpcClient.RpcClientSocket.Round` | libs/infinio/src/RpcClient.cpp:106-121 | the front request gets the arriving answer or is aborted, with sends of other fibers before and after |
| `RpcClient.RpcClientSocket.OnSyncResponse` | libs/infinio/src/RpcClient.cpp:105-125 | the answer goes to the first request queued under its id, and those before it end without a response, under any re-entrant sends |
| `RpcClient.RpcClientSocket.Deliver` | libs/infinio/src/RpcClient.cpp:97-125 | while ids stay within a window of 2^32 calls, an answer reaches its own request |
| `RpcClient.RpcClientSocket.OnSocketDisconnected` | libs/infinio/src/RpcClient.cpp:76-85 | every request that was pending ends as aborted by the disconnect, and the queue is left empty |
| `RpcClient.RpcClientSocket.Run` | libs/infinio/src/RpcClient.cpp:76-125 | over any run: pending requests stay within the maximum; each request is pending or completed once for good; an answer is one that was delivered, and each kind of abort has its reason; no request gets another's answer; while connected no answered request is aborted |
| `RpcClient.OwnAnswerIff` | libs/infinio/src/RpcClient.cpp:114-118 | an answer is taken by its own request exactly if no older pending one is a multiple of 2^32 calls away |
| `RpcClient.OldRequestTakesAnswer` | libs/infinio/src/RpcClient.cpp:105-125 | a run of one request, 2^32 - 1 failed writes and another request, after which the answer to the second completes the first |
| `RpcClient.PopKeepsAwaited` | libs/infinio/src/RpcClient.cpp:106-117 | during a delivery the front request is the answered one or older, and its id tells which |
| `RpcClient.PushKeepsInv` | libs/infinio/include/crossbow/infinio/RpcClient.hpp:493-504 | queueing a request keeps the invariant of queue, outcomes and server |
| `RpcClient.Response.SetInternalResult` | libs/infinio/include/crossbow/infinio/RpcClient.hpp:288-300 | the first result stays and resumes the waiting fiber once; a second one is refused |
| `RpcClient.Response.OnResponse` | libs/infinio/include/crossbow/infinio/RpcClient.hpp:255-278 | each kind of response completes the request with the right result or error |
| `SmallString.String.constructor` | crossbow/string.hpp:142-146 | an empty text in the object, with its terminator |
| `SmallString.String.Reserve` | crossbow/string.hpp:432-451 | the text is kept; a larger capacity is the request or the double of the old one, whichever is more; the errors and the number of copied characters are exact |
| `SmallString.String.ShrinkToFit` | crossbow/string.hpp:412-431 | the text is kept and moves back into the object, or into a block of its size |
| `SmallString.ShiftUp` | crossbow/string.hpp:464-466 | the backward loop moves the tail without losing characters |
| `SmallString.ShiftDown` | crossbow/string.hpp:545-549 | the forward loop closes the gap |
| `SmallString.String.Insert` | crossbow/string.hpp:474-490 | insertion of characters, with the exact outcome and capacity; the text is unchanged on an error |
| `SmallString.String.InsertFill` | crossbow/string.hpp:457-473 | insertion of repeated characters, where the 64-bit size does not overflow |
| `SmallString.InsertInsideIff` | crossbow/string.hpp:457-473 | with room for the size computed in 64 bits, all writes of an insertion stay in the buffer exactly if size plus count is below 2^64 |
| `SmallString.InsertNposOverflows` | crossbow/string.hpp:457-473 | inserting `npos` characters into a one-character text computes size 0 and writes outside the buffer |
| `SmallString.String.EraseRange` | crossbow/string.hpp:539-553 | the range is cut out and the terminator restored |
| `SmallString.String.Erase` | crossbow/string.hpp:557-564 | erases up to `count` characters, all of them for `npos` |
| `SmallString.String.PushBack` | crossbow/string.hpp:565-571 | appends a character, and reallocates only when full |
| `SmallString.String.Resize` | crossbow/string.hpp:757-769 | cuts or pads the text |
| `SmallString.String.ReplaceRange` | crossbow/string.hpp:652-666 | replaces the range; if the text cannot grow, the range has been overwritten all the same |
| `SmallString.String.Replace` | crossbow/string.hpp:667-674 | replaces up to `count` characters at a checked position |
| `SmallString.String.ReplaceFill` | crossbow/string.hpp:716-732 | replaces by repeated characters |
| `SmallString.ReplaceEndIff` | crossbow/string.hpp:670-672 | the 64-bit end of the replaced part is right exactly if position plus count is below 2^64 |
| `SmallString.ReplaceToNposOverflows` | crossbow/string.hpp:670-672 | with `npos` from inside the text the end lies before the start |
| `SmallString.String.CopyOf` | crossbow/string.hpp:202-211 | a copy has the text and its own memory; a short heap text is copied into the object |
| `SmallString.String.MoveFrom` | crossbow/string.hpp:222-226 | a move takes the text and the heap block, and leaves a valid empty string |
| `SmallString.String.Run` | crossbow/string.hpp:412-769 | any sequence of edits, reserves and shrinks gives exactly the outcomes, the text and the capacity of a text with a capacity, whatever form the string takes |
| `SmallString.FailsIff` | crossbow/string.hpp:432-451 | the exact error of an edit inside the text: too long if the need exceeds capacity and maximum, no memory if only the doubled capacity exceeds the maximum |
| `SmallString.ReallocationsAreFew` | crossbow/string.hpp:432-451 | without shrinking, every reallocation of a run at least doubles the capacity, so their number is logarithmic in the last one |
| `SmallString.RefinesCharacterSequence` | crossbow/string.hpp:412-769 | while twice the room needed fits, a run of edits is the run on a plain character sequence, and only positions outside the text are refused |
| `SmallString.RoomMeansNoOverflow` | crossbow/string.hpp:457-732 | in such a run no sum overflows, given replaced parts that do not |
| `SmallString.String.PushBackAll` | crossbow/string.hpp:565-571 | n calls of `push_back` on an empty text copy at most 3n characters |
| `TokenStore.PublishKeepsIff` | libs/infinityverbs/src/core/MemoryTokenStore.cpp:67-82 | publishing keeps tokens unshadowed exactly if the token is not published already |
| `TokenStore.PublishAddsEntry` | libs/infinityverbs/src/core/MemoryTokenStore.cpp:67-82 | taking the first free slot adds the entry to the map |
| `TokenStore.FirstIsEnabled` | libs/infinityverbs/src/queues/QueuePair.cpp:257-264 | the first slot with a token is the enabled one, if there is one |
| `TokenStore.UnpublishRemovesEntry` | libs/infinityverbs/src/core/MemoryTokenStore.cpp:84-93 | disabling the first slot with the token removes exactly that token |
| `TokenStore.FullIff` | libs/infinityverbs/src/core/MemoryTokenStore.cpp:69-80 | no slot is free exactly if there are as many entries as slots |
| `TokenStore.Lookup` | libs/infinityverbs/src/queues/QueuePair.cpp:248-255 | the scan answers as the map does |
| `TokenStore.IsValid` | libs/infinityverbs/src/queues/QueuePair.cpp:257-264 | the scan that ignores the enabled flag still answers as the map does |
| `TokenStore.MemoryTokenStore.constructor` | libs/infinityverbs/src/core/MemoryTokenStore.cpp:39-58 | the table starts empty although the memory is not cleared |
| `TokenStore.MemoryTokenStore.Publish` | libs/infinityverbs/src/core/MemoryTokenStore.cpp:67-82 | fills the first free slot, and fails exactly if the table is full; the slots stay a map exactly if the token was not published, and then the entry is added |
| `TokenStore.MemoryTokenStore.Unpublish` | libs/infinityverbs/src/core/MemoryTokenStore.cpp:84-93 | removes the token's entry and nothing else |
| `TokenStore.MemoryTokenStore.Run` | libs/infinityverbs/src/core/MemoryTokenStore.cpp:67-93 | every history that publishes no token twice gets exactly the answers of a map with as many places as slots |
| `TokenStore.PublishedTwice` | libs/infinityverbs/src/core/MemoryTokenStore.cpp:84-93 | a token published twice and unpublished once is found but not valid |

## Left out

- Verbs, connection manager, epoll, mmap, logging, fiber switching and sockets: foreign calls. A send is "posted, later completed", the eventfd is a counter, and a fiber resume is a script of calls.
- The separate loads at libs/allocator/src/allocator.cpp:183-187: they and the closing compare-and-swap are one step. A torn snapshot can pass the test, so the safety of the reclamation needs this.
- `allocator::malloc`, `free_now` and `destroy`: they take no part in the protocol.
- `tryWrite` beyond its test: it lets a producer past the capacity before the first item is consumed.
- Exact values with several concurrent poppers: `Stack.TwoPoppersCanRepeat` shows why.
- `clear` of the hash map: it erases while it iterates and does not adjust the count.
- The hash map in `ConcurrentMap.dfy` is sequential; `StripedLocks.dfy` proves the exclusion that makes its operations so. Buckets are values that the class reassigns, not memory updated in place.
- Numbers of locks and initial buckets that are not powers of two, or fewer buckets than locks; rings with fewer than two slots; buffers whose address or length is not a multiple of eight; a batch limit of zero.
- Orders weaker than sequential consistency in `reserve`, and memory reordering of the ring's slot accesses.
- Numbers of guards, frees and positions that would overflow 64 bits, and tables of 2^48 or more entries.
- An empty local task queue at sleep: the last poll may enqueue local work.
- Liveness of fibers that wait to send, asynchronous requests and reconnecting.
- Batching.Socket.WriteMessage: a frame length of 2^32 bytes or more is excluded, because the source then hands out a region past the buffer; `Batching.LengthTestIff` states what the overflow does to the room test.
- Batching.Socket.Run: excludes the same frame lengths.
- Batching.Socket.Transfer: excludes the same frame lengths, and covers runs without a failed send; a failed send drops the messages of its buffer.
- RpcClient.RpcClientSocket.Run: its claims about answers hold while no request is queued 2^32 or more calls after one that is still pending; `OwnAnswerIff` is exact.
- SmallString.String.InsertFill: size plus count stays below 2^64, because the source otherwise writes outside the buffer (`InsertInsideIff`).
- SmallString.String.ReplaceFill: the same, and position plus count stays below 2^64.
- SmallString.String.Run: the same for each of its edits.
- SmallString.String.Replace: the sum of position and count does not overflow; `ReplaceEndIff` states what happens otherwise. The overload that takes a plain character pointer and a length has no range check and is not modelled apart.
- TokenStore.MemoryTokenStore.Run: histories that publish a token again while it is published; `Publish`, `PublishKeepsIff` and `PublishedTwice` say what happens then.
- The order in which the sizer reads its field in `s.size += p(s, obj)` (crossbow/serializer/Serializer.hpp:340): C++11 leaves it open, and the nested call is taken first.
- Allocators whose maximum is half of the 64-bit range or more.
- Types with their own serialization operator: the universe is closed under the library's own policies.
- String search, comparison, substring append, self-aliasing edits, streams and wide strings.
- Receive buffers, remote reads and writes, scatter-gather sends.
- Protocol headers, program options, singleton, logger, chunk memory pool and completion watermark: they would only add easy members.
