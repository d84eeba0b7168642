# Verified model of cq-kvstore's data structures and protocols

A Dafny model of the hard parts of the C and C++ code under `src/`: the key/value engines, the
lock-free queues, the page pool, the deadlock detector, the thread pool and the connection pool,
with proofs of what they keep over every run. `dafny verify dfyconfig.toml` checks the whole
project.

## How it is modelled

**Engines** (`CStrings`, `KeyOrder`, `RbShape`, `RbArena`, `RbTree`, `HashEngine`, `Commands`).
Keys and values are C strings compared as `strcmp` does. The tree lives in an arena of cells with
colour, parent and child ids, id 0 being the shared `nil`; a ghost tree and a ghost path from the
root (a zipper) say what the cells mean. The two mirror-image branches of each rotation and fix-up
case are one branch with a `Side` parameter. The write of `nil`'s parent in the deletion is kept.
The hash engine is a table of bucket heads over an arena of nodes, its slots taken as null at the
start. `Commands` runs any command sequence on both engines against one map.

**Lock-free queues** (`LinkedQueue`, `LinkedQueueCalls`, `LinkedQueueRace`, `ArrayQueue`,
`ArrayQueueCalls`, `YPipe`, `PipeRuns`). Each load, store,
exchange and compare-and-swap on shared memory is one step of one thread, and any enabled thread
may step next. Assignments to a thread's own variables are folded into the shared access next to
them. Memory is sequentially consistent; indices and versions are unbounded. Weak
compare-and-swaps may fail at will. `YPipe` has the pipe and its chunked queue in one state, since
the pipe's pointers are addresses in the queue's chunks.

**Page pool** (`PagePool`). Addresses are integers, the operating system's grants are inputs that
are aligned and apart from everything it granted before, and the fields the code leaves unset
(the first page's `next` and `quote`, a new page's `quote` and `failed`) are taken as null and 0.
Ghost maps record the live pieces and large blocks.

**Deadlock detector** (`WaitGraph`, `DeadlockDetector`). The vertex table, mark array, path array,
stack height and flag are the globals of the source. The table's capacity of 100 is a precondition
where the source relies on it. Printed paths are recorded in a field.

**Thread pool** (`ThreadPool`). A stretch of code under the lock is one step; sleeping, spurious
wake-ups, signals and running a task are steps too. One destroy is made.

**Connection pool** (`ConnectionPool`). A monitor: one method for each stretch under the mutex.

## Where the code does not do what is promised

- `SimpleLockFreeQueue` calls itself correct without a bound on consumers. It is first-in first-out in
  every run exactly when at most one consumer takes part (`LinkedQueueRace.FifoIffOneConsumer`).
- The array queue's full and empty tests can be wrong when another thread moves an index between the two loads;
  `ArrayQueueCalls.EnqueueAttempt` and `ArrayQueueCalls.DequeueAttempt` say exactly when.
- `check_dead_lock` reports a deadlock exactly when the graph has a cycle or two different edges below
  one edge meet in one vertex (`DeadlockDetector.Detector.CheckDeadLock`); `DeadlockDetector.ReportsFalseAlarm` builds a
  graph without a cycle on which it does.
- `remove_edge` compares ids and not kinds, so it can drop another edge, even where the one asked for is absent;
  `DeadlockDetector.RemovesThatEdge` says exactly when it does what was asked.
- `mp_free` takes any address from a page's header to its end as a piece of that page; the pool stays sound exactly
  for the pointers of `PagePool.Freeable`.
- The tree's stored count also counts SETs of stored keys; `Commands.RunTree` says by how much.
- `_hash` yields a slot outside the table for some keys with bytes above 127; `HashEngine.IndexableExactly` says for which.
- The scanner of the connection pool asks an empty queue for its front exactly when the condition in
  `ConnectionPool.Pool.Scan` holds. It sleeps for the limit in seconds and then
  compares ticks of `clock()` with 1000 times the limit.
- The thread pool's header says that one queue place is kept free to tell a full queue; the code fills every place.

## Model

| member | source | states |
|---|---|---|
| CStrings.StrcmpZeroIsEquality | src/kv_engine/kvstore_rbtree.c:177-183 | `strcmp` is 0 exactly for equal keys |
| CStrings.Trichotomy | src/kv_engine/kvstore_rbtree.c:177-183 | exactly one of the three outcomes of comparing two keys holds |
| CStrings.LessTransitive | src/kv_engine/kvstore_rbtree.c:177-183 | the key order is transitive |
| RbShape.RotatedKeeps | src/kv_engine/kvstore_rbtree.c:74-117 | a rotation keeps the pairs in order and the set of nodes |
| RbTree.Engine.RotateAt | src/kv_engine/kvstore_rbtree.c:74-117 | the pointer writes of a rotation turn exactly the rotated subtree in its place, links consistent both ways, no pair touched |
| RbTree.Engine.constructor | src/kv_engine/kvstore_rbtree.c:379-393 | an empty tree of a black nil, count 0 |
| RbShape.InsertRecolors | src/kv_engine/kvstore_rbtree.c:124-129 | recolouring moves the only possible violation two levels up |
| RbShape.InsertStraightens | src/kv_engine/kvstore_rbtree.c:132-135 | the inner rotation keeps the violation at the focus and makes it outer |
| RbShape.InsertRotates | src/kv_engine/kvstore_rbtree.c:137-139 | the outer rotation removes the violation |
| RbTree.Engine.InsertRecolor | src/kv_engine/kvstore_rbtree.c:124-129 | the recolouring writes realise that case on the cells |
| RbTree.Engine.InsertStraighten | src/kv_engine/kvstore_rbtree.c:132-135 | the inner rotation realises that case on the cells |
| RbTree.Engine.InsertRotate | src/kv_engine/kvstore_rbtree.c:137-139 | the outer rotation realises that case on the cells, with a black parent, so the loop ends |
| RbTree.Engine.InsertStep | src/kv_engine/kvstore_rbtree.c:122-159 | one turn keeps "the only violation is at z", the pairs and the links, and lowers z's depth |
| RbTree.Engine.InsertFixup | src/kv_engine/kvstore_rbtree.c:119-164 | the loop ends in a red-black tree with the same pairs |
| RbTree.Engine.Hang | src/kv_engine/kvstore_rbtree.c:196-211 | the new node is a red leaf in the hole the walk found, linked both ways |
| RbTree.Engine.Attach | src/kv_engine/kvstore_rbtree.c:196-213 | hanging a node and fixing up adds exactly its pair |
| RbTree.Engine.Insert | src/kv_engine/kvstore_rbtree.c:167-214 | a fresh key adds exactly its pair and node to a well-formed tree; a stored key changes nothing at all |
| RbTree.Engine.Mini | src/kv_engine/kvstore_rbtree.c:45-50 | the node at the end of the left spine of a subtree |
| RbTree.Engine.Climb | src/kv_engine/kvstore_rbtree.c:64-70 | the first ancestor reached from its left, with the pairs up to it unchanged |
| RbTree.Engine.Successor | src/kv_engine/kvstore_rbtree.c:59-71 | the node of the next key, or nil exactly when no key is greater |
| RbShape.ShortSubtreeHasSibling | src/kv_engine/kvstore_rbtree.c:221-230 | a subtree one black short has a sibling that is not nil, so the fix-up never inspects nil's children |
| RbShape.DeleteRedSibling | src/kv_engine/kvstore_rbtree.c:222-228 | the red-sibling case keeps the shortage in place and gives a black sibling |
| RbShape.DeleteBlackNephews | src/kv_engine/kvstore_rbtree.c:230-232 | the two-black-nephews case moves the shortage to the parent |
| RbShape.DeleteInnerNephew | src/kv_engine/kvstore_rbtree.c:235-240 | the inner-nephew case makes the outer nephew red |
| RbShape.DeleteOuterNephew | src/kv_engine/kvstore_rbtree.c:242-247 | the outer-nephew case ends the shortage |
| RbTree.Engine.DeleteLiftSibling | src/kv_engine/kvstore_rbtree.c:222-228 | the red-sibling writes realise that case on the cells |
| RbTree.Engine.DeletePushUp | src/kv_engine/kvstore_rbtree.c:230-232 | the two-black-nephews write realises that case on the cells |
| RbTree.Engine.DeleteTurnNephew | src/kv_engine/kvstore_rbtree.c:235-240 | the inner-nephew writes realise that case on the cells |
| RbTree.Engine.DeleteSettle | src/kv_engine/kvstore_rbtree.c:242-247 | the outer-nephew writes realise that case on the cells and leave a red-black tree |
| RbTree.Engine.DeleteEnds | src/kv_engine/kvstore_rbtree.c:233-248 | with a red nephew one turn leaves a red-black tree |
| RbTree.Engine.DeleteStep | src/kv_engine/kvstore_rbtree.c:219-280 | one turn keeps the deletion invariant, the pairs and the links, and lowers the loop's measure |
| RbTree.Engine.DeleteFixup | src/kv_engine/kvstore_rbtree.c:216-284 | the loop ends in a red-black tree with the same pairs |
| RbTree.Engine.SpliceOut | src/kv_engine/kvstore_rbtree.c:299-312 | the node is bypassed and its child, nil included, gets its parent |
| RbTree.Engine.SwapPairs | src/kv_engine/kvstore_rbtree.c:314-328 | the two nodes exchange their pairs and nothing else changes |
| RbTree.Engine.Detach | src/kv_engine/kvstore_rbtree.c:299-328 | bypass and exchange leave the links consistent and the bypassed node with the pair asked for |
| RbTree.Engine.Rebalance | src/kv_engine/kvstore_rbtree.c:330-332 | the fix-up is made exactly when the bypassed node was black, and the tree is red-black either way |
| RbTree.Engine.Unlink | src/kv_engine/kvstore_rbtree.c:299-334 | bypass, exchange and fix-up together leave a well-formed tree without the deleted pair, which the bypassed node carries |
| RbTree.RemovesSelf | src/kv_engine/kvstore_rbtree.c:293-294 | bypassing a node with a free side removes exactly its pair |
| RbTree.RemovesSuccessor | src/kv_engine/kvstore_rbtree.c:295-328 | bypassing the successor and moving its pair removes exactly the pair asked for |
| RbTree.Engine.Delete | src/kv_engine/kvstore_rbtree.c:288-335 | deleting any node leaves a well-formed tree with exactly the other pairs; the returned node carries the deleted pair and is no longer in the tree |
| RbTree.Engine.Search | src/kv_engine/kvstore_rbtree.c:339-363 | finds the node of a stored key, nil exactly for a missing one, in at most as many steps as the tree is high |
| RbShape.HeightBound | src/kv_engine/kvstore_rbtree.c:119-164 | height at most 2 log2(n + 1), without logarithms |
| RbTree.Engine.Set | src/kv_engine/kvstore_rbtree.c:423-450 | the map gains the pair of a fresh key only; the count grows by one in either case |
| RbTree.Engine.Get | src/kv_engine/kvstore_rbtree.c:452-461 | the stored value, nothing exactly for a missing key |
| RbTree.Engine.Del | src/kv_engine/kvstore_rbtree.c:464-481 | removes a stored key and answers 0, else answers -1 and changes nothing |
| RbTree.Engine.Modify | src/kv_engine/kvstore_rbtree.c:484-501 | replaces the value of a stored key and answers 0, else answers -1 and changes nothing |
| HashEngine.IndexableExactly | src/kv_engine/kvstore_hash.c:51-65 | the exact condition for `_hash` to yield a slot |
| HashEngine.PlainKeysIndexable | src/kv_engine/kvstore_hash.c:51-65 | seven-bit keys always have a slot |
| HashEngine.HighByteNotIndexable | src/kv_engine/kvstore_hash.c:51-65 | a key of one byte above 127 has none |
| HashEngine.Engine.Hash | src/kv_engine/kvstore_hash.c:51-65 | the loop computes C's remainder of the signed byte sum |
| HashEngine.IndexIsRemainder | src/kv_engine/kvstore_hash.c:63 | the index is what whole table sizes leave of the byte sum, with its sign |
| HashEngine.SumAdds | src/kv_engine/kvstore_hash.c:58-61 | the sum of a joined key is the sum of its parts, each byte as a signed char |
| HashEngine.Engine.constructor | src/kv_engine/kvstore_hash.c:103-114 | an empty table, count 0 |
| HashEngine.KeyListed | src/kv_engine/kvstore_hash.c:149-157 | a key is stored exactly when its bucket has a node for it |
| HashEngine.Engine.Walk | src/kv_engine/kvstore_hash.c:149-157 | the walk ends at the key's node, or at null exactly when the bucket has none |
| HashEngine.Engine.Find | src/kv_engine/kvstore_hash.c:147-157 | finds a key's node, with its value, exactly when the key is stored |
| HashEngine.Prepend | src/kv_engine/kvstore_hash.c:160-164 | a node in front of its bucket adds exactly its pair, each key once and in its own bucket |
| HashEngine.Bypass | src/kv_engine/kvstore_hash.c:204-242 | bypassing a node of a bucket removes exactly its pair |
| HashEngine.Revalue | src/kv_engine/kvstore_hash.c:312-318 | a new value in a node changes exactly that pair |
| HashEngine.Engine.AddNode | src/kv_engine/kvstore_hash.c:159-165 | adds exactly the pair of a missing key |
| HashEngine.Engine.DropHead | src/kv_engine/kvstore_hash.c:204-219 | removes exactly the pair of a bucket's head |
| HashEngine.Engine.DropNext | src/kv_engine/kvstore_hash.c:233-249 | removes exactly the pair of the node after the one reached |
| HashEngine.Engine.Set | src/kv_engine/kvstore_hash.c:143-167 | answers 1 and changes nothing for a stored key, else adds the pair; count stays the number of keys |
| HashEngine.Engine.Get | src/kv_engine/kvstore_hash.c:169-189 | the stored value, nothing exactly for a missing key |
| HashEngine.Engine.FindBefore | src/kv_engine/kvstore_hash.c:221-231 | finds the predecessor of a key's node past the head, or that the bucket has none |
| HashEngine.Engine.Delete | src/kv_engine/kvstore_hash.c:196-252 | removes a stored key and answers 0, else answers -1 and changes nothing; count stays the number of keys |
| HashEngine.Engine.Modify | src/kv_engine/kvstore_hash.c:302-329 | replaces the value of a stored key and answers 0, else answers -1 and changes nothing |
| Commands.StoredMeansSet | src/kv_engine/kvstore_hash.c:143-252 | in the reference map a key is stored exactly when it was set and not deleted since |
| Commands.TreeCommand | src/kv_engine/kvstore_rbtree.c:423-507 | one command changes the tree's map as the reference and answers as it does; count minus keys grows exactly on a repeated SET |
| Commands.HashCommand | src/kv_engine/kvstore_hash.c:143-329 | one command changes the hash table's map as the reference and answers as it does |
| Commands.RunTree | src/kv_engine/kvstore_rbtree.c:423-507 | after every command sequence the tree holds the reference map, answers as it does, its count is the keys plus the repeated SETs, and its height is bounded |
| Commands.RunHash | src/kv_engine/kvstore_hash.c:143-333 | after every command sequence the hash table holds the reference map, answers as it does, and its count is the number of keys |
| Commands.RunBoth | src/kv_engine/kvstore_hash.c:143-333 | on every common sequence both engines hold the same map and answer GET, DEL and MOD alike; the counts differ by the repeated SETs |
| LinkedQueue.RunInv | src/hpc/zmq/SimpleLockFreeQueue.h:69-119 | with one consumer, every interleaving keeps the memory and thread invariants |
| LinkedQueue.FifoWithOneConsumer | src/hpc/zmq/SimpleLockFreeQueue.h:69-119 | what was dequeued is a prefix of what was enqueued in tail-exchange order |
| LinkedQueue.OneHolder | src/hpc/zmq/SimpleLockFreeQueue.h:183-228 | each node is in exactly one place: live chain, free list, or one thread's hand |
| LinkedQueue.PopInstallsSuccessor | src/hpc/zmq/SimpleLockFreeQueue.h:190-203 | a free-list exchange that will succeed installs the true successor |
| LinkedQueue.PredecessorStillLive | src/hpc/zmq/SimpleLockFreeQueue.h:72-75 | the predecessor an enqueuer has yet to link is still live, right before its node |
| LinkedQueue.NoDanglingStep | src/hpc/zmq/SimpleLockFreeQueue.h:69-119 | every thread's next dereference is of an existing node, so no thread is ever stuck |
| LinkedQueueCalls.EnqueueCall | src/hpc/zmq/SimpleLockFreeQueue.h:69-78 | an enqueue that returns has put its item behind the tail, once, and linked it |
| LinkedQueueCalls.EnqueueReturns | src/hpc/zmq/SimpleLockFreeQueue.h:69-78 | alone, it returns after at most eight steps, the item last and linked, in the free list's top node if there is one, else a new one |
| LinkedQueueCalls.DequeueCall | src/hpc/zmq/SimpleLockFreeQueue.h:80-119 | a dequeue that returns handed out one item, or answered empty and handed out none |
| LinkedQueueCalls.EmptyAnswer | src/hpc/zmq/SimpleLockFreeQueue.h:82-105 | with one consumer, empty exactly when at the load the head was consumed and had no successor, and what was then delivered; otherwise it claims or moves the head, starting over only on a weak failure |
| LinkedQueueCalls.DequeueReturns | src/hpc/zmq/SimpleLockFreeQueue.h:80-119 | alone, it returns after at most fourteen steps, empty exactly then, and else with the next item in order |
| LinkedQueueRace.TwoConsumersBreakFifo | src/hpc/zmq/SimpleLockFreeQueue.h:92-111 | with two consumers a run delivers a value that was not next, because the node was recycled before it was read |
| LinkedQueueRace.FifoIffOneConsumer | src/hpc/zmq/SimpleLockFreeQueue.h:80-119 | all runs are first-in first-out exactly when there is at most one consumer |
| ArrayQueue.SameSlot | src/hpc/zmq/ArrayLockFreeQueueImp.h:23-25 | indices less than a lap apart share a slot exactly when they are equal |
| ArrayQueue.RunInv | src/hpc/zmq/ArrayLockFreeQueueImp.h:40-115 | every interleaving of producers and consumers keeps the ring and thread invariants |
| ArrayQueue.DequeuesFollowReservations | src/hpc/zmq/ArrayLockFreeQueueImp.h:81-109 | successful dequeues, in exchange order, deliver a prefix of the reservations' values |
| ArrayQueue.IndexOrder | src/hpc/zmq/ArrayLockFreeQueueImp.h:44-67 | read <= maximum read <= write < read + size always, though the full test is not atomic and sees residues only |
| ArrayQueue.OneOwner | src/hpc/zmq/ArrayLockFreeQueueImp.h:52-67 | each reserved and uncommitted index has exactly one producer |
| ArrayQueue.SlotsApart | src/hpc/zmq/ArrayLockFreeQueueImp.h:55-100 | no two readable or reserved indices share a slot |
| ArrayQueue.QuietCount | src/hpc/zmq/ArrayLockFreeQueueImp.h:69-106 | with no call in progress the element counter is write minus read |
| ArrayQueueCalls.EnqueueAttempt | src/hpc/zmq/ArrayLockFreeQueueImp.h:44-52 | in every interleaving, exactly when a turn of enqueue is refused, reserves or starts over; with no reservation between its loads, refused exactly when the ring is full |
| ArrayQueueCalls.DequeueAttempt | src/hpc/zmq/ArrayLockFreeQueueImp.h:85-100 | in every interleaving, exactly when a turn of dequeue answers empty; with no read between its loads, exactly when all committed is read |
| ArrayQueueCalls.EnqueueCall | src/hpc/zmq/ArrayLockFreeQueueImp.h:40-73 | an enqueue that returns has reserved one index, for its own item, or was refused and none |
| ArrayQueueCalls.DequeueCall | src/hpc/zmq/ArrayLockFreeQueueImp.h:81-115 | a dequeue that returns took one item, or answered empty and took none |
| ArrayQueueCalls.EnqueueReturns | src/hpc/zmq/ArrayLockFreeQueueImp.h:40-73 | alone with all reservations committed, it is refused without effect exactly when full, and else returns with its item readable behind all others |
| ArrayQueueCalls.DequeueReturns | src/hpc/zmq/ArrayLockFreeQueueImp.h:81-109 | alone, it answers empty exactly when all committed is read, and else returns with the next item |
| PipeRuns.RunInv | src/hpc/zmq/ypipe.hpp:65-162 | every interleaving of writer and reader keeps the memory and thread invariants |
| PipeRuns.ReadsFollowFlushedWrites | src/hpc/zmq/ypipe.hpp:65-162 | values read are a prefix of the completed and flushed writes; incomplete and un-written items are never seen; un-written values come back in order |
| PipeRuns.PositionOrder | src/hpc/zmq/ypipe.hpp:183-190 | front <= w <= f <= back, with r between front and w whenever it is not null |
| PipeRuns.SleepWake | src/hpc/zmq/ypipe.hpp:96-148 | c is null or w, null only when all that was flushed is read; a flush with pending items answers false exactly when the reader sleeps, and its plain store cannot race |
| PipeRuns.ReadAnswers | src/hpc/zmq/ypipe.hpp:126-155 | a read or check finds something exactly when not all that was flushed is read; finding nothing leaves c null |
| PipeRuns.ReadHandsOut | src/hpc/zmq/ypipe.hpp:157-161 | a read that found something hands out the next flushed item |
| PipeRuns.SleepsUntilFlush | src/hpc/zmq/ypipe.hpp:96-148 | once null, c stays null until the next flush begins |
| PipeRuns.FlushAnswers | src/hpc/zmq/ypipe.hpp:96-122 | a flush publishes every complete item; with something to publish it answers false exactly when c was null |
| PipeRuns.WakePublishes | src/hpc/zmq/ypipe.hpp:111-113 | the last step of a flush that answers false publishes all it set out to |
| PipeRuns.SleeperIsWoken | src/hpc/zmq/ypipe.hpp:96-148 | after a read that found nothing the next flush with something to publish answers false |
| PipeRuns.CallsEnd | src/hpc/zmq/yqueue.hpp:89-160 | every step inside a call of either thread brings it nearer to its end |
| PipeRuns.LiveAddressesDiffer | src/hpc/zmq/yqueue.hpp:74-118 | different live positions have different addresses |
| PipeRuns.UnpushFollowsLiveLinks | src/hpc/zmq/yqueue.hpp:122-143 | an un-push follows prev links the reader has not cleared, to the chunk before |
| PipeRuns.NoDanglingStep | src/hpc/zmq/yqueue.hpp:89-160 | every next dereference is of an allocated chunk |
| PagePool.FitsMeansRoom | src/pool/mempool/fixsizememorypool.c:191-192 | the aligned bump pointer never passes end, so the unsigned comparison means that the piece fits |
| PagePool.LiveApart | src/pool/mempool/fixsizememorypool.c:114-203 | live regions are aligned, pairwise apart, apart from large headers, and either inside the used part of one page past its node header or a large block apart from every page |
| PagePool.HeadersApart | src/pool/mempool/fixsizememorypool.c:134-143 | large headers are aligned, pairwise apart, apart from large blocks, and inside the used part of one page |
| PagePool.AddPiece | src/pool/mempool/fixsizememorypool.c:191-195 | carving at the aligned bump pointer keeps the pool sound |
| PagePool.RemovePiece | src/pool/mempool/fixsizememorypool.c:229-239 | releasing a piece, with the rewind at zero, keeps the pool sound and every other piece intact |
| PagePool.ServingPage | src/pool/mempool/fixsizememorypool.c:226-228 | the address test picks the page that served a pointer and no other |
| PagePool.CreatePool | src/pool/mempool/fixsizememorypool.c:70-91 | an empty sound pool, or null exactly when the block is refused; the block asked for holds the first page |
| PagePool.Pool.constructor | src/pool/mempool/fixsizememorypool.c:84-88 | the first page starts after the pool's own header and its node header |
| PagePool.Pool.Age | src/pool/mempool/fixsizememorypool.c:162-172 | pages from `current` on, but the last, fail once more; `current` moves past the last one that failed too often |
| PagePool.Pool.Carve | src/pool/mempool/fixsizememorypool.c:191-195 | the piece at the aligned bump pointer is new, the page's pointer and count move on, no other page changes, and the pool stays sound |
| PagePool.Pool.FindRoom | src/pool/mempool/fixsizememorypool.c:189-200 | the first page from `current` on with room |
| PagePool.Pool.MallocBlock | src/pool/mempool/fixsizememorypool.c:147-174 | a new page serves the piece; pages age and `current` moves past those that failed too often |
| PagePool.Pool.MallocSmall | src/pool/mempool/fixsizememorypool.c:185-202 | first fit, else a new page, else no change, with the exact condition for failure |
| PagePool.Pool.FindReleased | src/pool/mempool/fixsizememorypool.c:123-133 | a released header among the first five, if there is one |
| PagePool.Pool.NewLarge | src/pool/mempool/fixsizememorypool.c:134-143 | a header carved from the pool records the block, or nothing changes, with the exact condition |
| PagePool.Pool.MallocLarge | src/pool/mempool/fixsizememorypool.c:114-144 | callers gain exactly the large block, or nothing changes, with the exact condition for failure |
| PagePool.Pool.Malloc | src/pool/mempool/fixsizememorypool.c:177-203 | callers gain one region of the size asked for, apart from all they held, or nothing changes |
| PagePool.Pool.FreeLarge | src/pool/mempool/fixsizememorypool.c:215-223 | a large block is given up and its header kept for reuse |
| PagePool.Pool.Release | src/pool/mempool/fixsizememorypool.c:229-239 | the page counts one less; at zero its bump pointer and failures are reset and the search starts from the first page; no other page changes; sound exactly when callers held the piece |
| PagePool.Pool.FreeSmall | src/pool/mempool/fixsizememorypool.c:224-242 | the first page that covers the pointer, the serving one for a piece, counts one less and is rewound at zero, no other page changing; sound afterwards exactly for freeable pointers |
| PagePool.Pool.Free | src/pool/mempool/fixsizememorypool.c:214-243 | exactly the region at `p` is given back; its page counts one less, and with its only piece gone has all its room again; a null pointer or one into no page changes nothing; sound exactly for the pointers callers hold and those no page covers |
| PagePool.EmptiedServes | src/pool/mempool/fixsizememorypool.c:230-238 | a rewound page takes any piece up to the whole page less its headers, and nothing larger |
| PagePool.StrayBreaks | src/pool/mempool/fixsizememorypool.c:228-241 | a page that counts a piece it did not lose breaks the pool |
| PagePool.StrayFree | src/pool/mempool/fixsizememorypool.c:228-241 | an address inside the only piece of a page rewinds the page under that piece |
| PagePool.Pool.FreeBlocks | src/pool/mempool/fixsizememorypool.c:54-58 | every large block in use is freed exactly once |
| PagePool.Pool.Reset | src/pool/mempool/fixsizememorypool.c:50-67 | callers hold nothing, every large block is freed once, every page is rewound |
| PagePool.Pool.Destroy | src/pool/mempool/fixsizememorypool.c:94-111 | every block held is freed exactly once |
| WaitGraph.MergeCycles | src/hpc/deadlock/deadlock.c:185-207 | with at most one outgoing edge each, two edges can only meet on a cycle |
| WaitGraph.ChildStep | src/hpc/deadlock/deadlock.c:198-205 | after one more child the walk met no mark exactly when it had met none and the child's walk met none |
| WaitGraph.SearchVerdict | src/hpc/deadlock/deadlock.c:215-242 | a search along an edge meets a mark exactly when it leads back, or two edges below it meet |
| WaitGraph.FlagMeaning | src/hpc/deadlock/deadlock.c:387-401 | some edge is flagged exactly when there is a cycle or a merge |
| WaitGraph.FlagMeansCycle | src/hpc/deadlock/deadlock.c:387-401 | with at most one outgoing edge each, exactly when there is a cycle |
| WaitGraph.FalseAlarm | src/hpc/deadlock/deadlock.c:185-193 | a graph without a cycle that is flagged |
| DeadlockDetector.Detector.SearchVertex | src/hpc/deadlock/deadlock.c:72-85 | the slot of a vertex, -1 exactly when it has none |
| DeadlockDetector.IndexOfMeaning | src/hpc/deadlock/deadlock.c:72-85 | the first slot of the vertex, -1 exactly when it has none |
| DeadlockDetector.Detector.AddVertex | src/hpc/deadlock/deadlock.c:87-97 | a missing vertex gets a slot, slots stay apart |
| DeadlockDetector.Detector.AddEdge | src/hpc/deadlock/deadlock.c:100-113 | one edge more at the end of the chain, nothing else changed |
| DeadlockDetector.Detector.VerifyEdge | src/hpc/deadlock/deadlock.c:116-137 | true exactly when the vertex exists and it or a target of it has the id |
| DeadlockDetector.Detector.RemoveEdge | src/hpc/deadlock/deadlock.c:140-167 | the first target with the id goes, if both vertices exist; all targets keep a slot |
| DeadlockDetector.RemovesThatEdge | src/hpc/deadlock/deadlock.c:150-158 | what was asked is done exactly when no target has the id or the first that has is the one asked for |
| DeadlockDetector.RemovesAnotherEdge | src/hpc/deadlock/deadlock.c:150-158 | an input where another edge goes |
| DeadlockDetector.RemovesWhereNoneIs | src/hpc/deadlock/deadlock.c:150-158 | an input where an edge goes although the one asked for is absent |
| DeadlockDetector.Detector.Dfs | src/hpc/deadlock/deadlock.c:185-212 | ends, stays within `path`, restores the stack, and raises the flag exactly when what it walks is not a fresh tree |
| DeadlockDetector.Detector.Meet | src/hpc/deadlock/deadlock.c:188-195 | a met mark raises the flag and reports a walk of the graph |
| DeadlockDetector.Detector.Visit | src/hpc/deadlock/deadlock.c:201-202 | a child's walk leaves the stack as it was |
| DeadlockDetector.Detector.Restart | src/hpc/deadlock/deadlock.c:219-233 | only the start stays marked and the stack holds it alone |
| DeadlockDetector.Detector.Probe | src/hpc/deadlock/deadlock.c:224-239 | one search raises the flag exactly when its edge is flagged |
| DeadlockDetector.Detector.Scan | src/hpc/deadlock/deadlock.c:391-395 | stopping at the first raised flag loses no verdict |
| DeadlockDetector.Detector.SearchForCycle | src/hpc/deadlock/deadlock.c:215-242 | raises the flag exactly when an edge out of the vertex is flagged |
| DeadlockDetector.Detector.CheckDeadLock | src/hpc/deadlock/deadlock.c:387-401 | raises the flag exactly on a cycle or a merge, so on every cycle; exactly on a cycle if each vertex has at most one edge; reports only walks of the graph |
| DeadlockDetector.ReportsFalseAlarm | src/hpc/deadlock/deadlock.c:100-113 | four edges added one by one, without a cycle, on which the flag is raised |
| ThreadPool.RunInv | src/pool/thread_pool/thrd_pool_c.c:92-244 | every interleaving keeps the pool's invariants |
| ThreadPool.StepKeeps | src/pool/thread_pool/thrd_pool_c.c:92-244 | every step of every thread keeps the pool's invariants |
| ThreadPool.AddKeepsRing | src/pool/thread_pool/thrd_pool_c.c:106-125 | an accepted task goes behind those queued, a refused one changes nothing |
| ThreadPool.LockKeepsRing | src/pool/thread_pool/thrd_pool_c.c:222-236 | a taken task is the oldest queued |
| ThreadPool.RingInEveryRun | src/pool/thread_pool/thrd_pool_c.c:108-125 | tail = (head + count) mod size, and the ring holds the accepted tasks not yet taken, in order |
| ThreadPool.AddAnswers | src/pool/thread_pool/thrd_pool_c.c:92-134 | each answer exactly: invalid for a null function, full when every place is taken, even during a shutdown, shutdown otherwise, 0 exactly when the task is accepted; refusals change nothing |
| ThreadPool.TakenInOrderRunOnce | src/pool/thread_pool/thrd_pool_c.c:228-239 | tasks are taken in acceptance order, each run once by one worker |
| ThreadPool.NeverAllAsleep | src/pool/thread_pool/thrd_pool_c.c:222-224 | no wake-up is lost: a waiting task never finds all workers asleep, a shutdown finds none |
| ThreadPool.WorkerTurn | src/pool/thread_pool/thrd_pool_c.c:222-251 | under the lock a worker takes the oldest accepted task left, and else sleeps while the pool is open and exits otherwise; after an immediate destroy it always exits |
| ThreadPool.DestroyDecides | src/pool/thread_pool/thrd_pool_c.c:158-163 | the flag of the one destroy decides the kind of shutdown for good, and the pool was open before |
| ThreadPool.ExitedAfterDestroy | src/pool/thread_pool/thrd_pool_c.c:226-246 | all workers have exited only after a destroy, and then started is 0 |
| ThreadPool.GracefulEnd | src/pool/thread_pool/thrd_pool_c.c:163-177 | when all workers have exited after a graceful destroy, started is 0 and every accepted task was taken and has ended |
| ThreadPool.ImmediateTakesNone | src/pool/thread_pool/thrd_pool_c.c:226-230 | from an immediate destroy on no task is taken or accepted |
| ThreadPool.ShutdownStep | src/pool/thread_pool/thrd_pool_c.c:222-251 | after a shutdown every worker step lowers the bound and nothing else changes the pool |
| ThreadPool.ShutdownEnds | src/pool/thread_pool/thrd_pool_c.c:158-177 | after a shutdown the workers make a bounded number of steps and can step until all have exited |
| ConnectionPool.Pool.constructor | src/pool/mysql_pool/connection_pool.cpp:44-73 | one idle connection for each of the first initial-size tries that connects, idle since that try |
| ConnectionPool.Pool.Push | src/pool/mysql_pool/connection_pool.cpp:55-58 | a new connection is last in the queue, idle from now |
| ConnectionPool.Pool.Produce | src/pool/mysql_pool/connection_pool.cpp:76-97 | at most one connection more, only while below the limit |
| ConnectionPool.Pool.GetConnection | src/pool/mysql_pool/connection_pool.cpp:117-149 | lends the longest idle connection, to one caller; null exactly when none is idle |
| ConnectionPool.Pool.GiveBack | src/pool/mysql_pool/connection_pool.cpp:138-144 | back to the queue's end, idle from now; created = idle + lent and the idle order stay |
| ConnectionPool.CreatedWithinLimit | src/pool/mysql_pool/connection_pool.cpp:84-92 | created = idle + lent, never more than the limit if the initial number is not |
| ConnectionPool.FreshFront | src/pool/mysql_pool/connection_pool.cpp:171-174 | behind a front that has not expired nothing has |
| ConnectionPool.Pool.Drop | src/pool/mysql_pool/connection_pool.cpp:165-169 | the front goes and the count with it |
| ConnectionPool.Pool.Scan | src/pool/mysql_pool/connection_pool.cpp:158-175 | removes the longest idle, expired ones only; stops with at most the initial number or with none expired; exact condition for meeting an empty queue |

## Left out

- Allocation failures in the engines, freeing of key and value strings, `rbtree_maxi`, traversal and table destruction: no bearing on the maps.
- HashEngine.Engine.Hash: does not model overflow of the 32-bit byte sum, which needs a key of some 17 million bytes.
- The array engine `src/kv_engine/kvstore_array.c`, `src/kv_engine/hash.c` and the command dispatch of `src/kv_engine/kvstore.c`: the first is not a map on general runs, the others repeat or only route.
- Weak memory orderings, wrap-around of 64-bit indices and of 24-bit versions, and the bit layout of node indices in the queues: indices and versions are unbounded pairs.
- Destructors of the queues and the block tables behind node indices of the linked queue.
- `probe` of the pipe, and `size` of the array queue: single reads that add nothing to the protocols.
- `mp_calloc` and the monitor of the page pool, and the width of its `int` counters.
- The lock table of the deadlock detector, its hooks and its background thread.
- `threadpool_create`: its argument limits (64 threads, 65536 places); the model covers any positive numbers.
- Failing mutex, condition and join calls, a second destroy, and a failing thread creation in the thread pool.
- Parsing of the connection pool's configuration, time-outs as durations, and the queries made over connections.
- The class-based thread pool, the other memory pools, the network servers, the leak detector, the web client and all drivers.
