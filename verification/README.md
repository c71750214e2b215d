# Verified models of the nginx allocators, indexes and locks

This project models the core of a C++ port of the nginx pool allocator and of the nginx 1.12.2
core library it comes from, and proves what that code is for. Each part is a model in the form
of the code it models: objects whose methods change fields are classes, loops are loops with
invariants, arithmetic and text formats are functions. What a part promises is stated about a
plain value (a tree of nodes in order, a table of page uses, a map of prefixes, a sequence of
elements, a calendar date) and every operation is proved against that value.

- **Red-black tree** (`RbShape`, `RbLinks`, `RbBalance`, `RbEdit`, `RbSteps`, `RbTree`,
  `RbMeaning`): in-place insert and delete with parent pointers and a shared sentinel, the
  successor function, timer keys with wrap-around. `RbTree.Tree` holds the code; `RbMeaning` says
  what its invariant means for a recursive tree.
- **Slab allocator** (`SlabModel`, `SlabLists`, `SlabPages`, `SlabGive`, `SlabBits`,
  `SlabChunks`, `SlabBlocks`, `SlabCounts`, `SlabScan`, `SlabFacts`, `SlabPool`, `SlabRun`): page
  table, free-run splitting and coalescing, three kinds of chunk bitmaps, intrusive lists,
  statistics. The configuration is 64-bit words, 4096-byte pages and a `min_shift` of 3.
- **Locks and thread pool** (`Shmtx`, `Rwlock`, `ThreadPool`, each with a module on its progress, and
  `Counting`): state machines whose steps are single atomic operations of any number of processes;
  theorems are over every run, for what never happens and for what every call comes to.
- **Pool allocator and array** (`PoolModel`, `PoolState`, `PoolReset`, `MemPool`, `PoolRun`,
  `PoolArray`, `ArrayRun`): block chain, failure counters, large regions, cleanup actions, reset
  and destruction; the growable array on top of it. The header size is a parameter: 64 bytes in
  the C++ port, 80 in the C original.
- **Radix tree** (`RadixModel`, `Radix`): 32-bit prefixes, against a map of prefixes.
- **Arithmetic and text** (`Calendar`, `HttpDate`, `HttpDateText`, `HttpDateCode`, `Inet6`,
  `Inet6Text`, `Inet6Code`, `HashStream`): for dates and addresses, what a text means, exactly
  which texts mean something, and the code that reads and prints them.
- `Common`, `Arith` and `Words` hold sequences and options, facts about division, and facts about
  the bits of words.

Three methods run whole histories: `SlabRun.Run`, `PoolRun.Run` and `ArrayRun.Run` take any
sequence of operations, perform them on a fresh allocator or on two fresh arrays, and state what
the caller holds, and finds in it, in terms of requests and answers alone.

Where the code and its promises part ways, the code is followed and the condition is exact:

- The room test of a block is sound if and only if blocks end at a word boundary
  (`PoolModel.TestNeedsAlignedEnd`).
- A reset does not clear the list of cleanup actions. The list survives if and only if all its
  headers lie in parts of further blocks that the rewind leaves out (`PoolReset.ListSurvives`);
  exactly the other headers can be given to a later request (`PoolReset.GivenAgain`).
  `PoolRun.HeaderGivenAgain` and `PoolRun.HeaderKept` are runs of both kinds.
- The IPv6 round trip holds for all addresses but two (`Inet6.PrintThenParse`). The parsers accept
  more than RFC 4291 does, and less: empty numbers in IPv4 addresses (`Inet6Text.InetExact`), a
  colon before the text (`Inet6Text.ColonPassedOver`), a colon at the end behind a gap, but no gap
  that stands for the eighth word alone (`Inet6Text.ParseExact`).
- The date parser accepts the texts of one grammar (`HttpDateText.ParseExact`). Among texts that
  say a date, it accepts exactly the valid ones unless the day is 0 (`HttpDateText.OnlyValidDates`);
  months are told by one to three letters, and the time is wrong only in January and February of
  the year 0 (`HttpDateText.OnlyRightTimes`).
- Deleting a prefix whose node is a leaf without a value answers OK (`Radix.DeletePreallocated`).

## Model

| member | source | states |
|---|---|---|
| `RbTree.Tree.Insert` | cleanup_destructor/nginx-1.12.2/src/core/ngx_rbtree.c:24-93 | after an insert the links are again a red-black tree over the old nodes and the new one, whose in-order sequence is the old one with the node put in; if the keys were sorted (timer keys: within half the counter range of some base) the node lands right after the last key not greater than its own and the sequence stays sorted |
| `RbTree.Tree.FindPlace` | cleanup_destructor/nginx-1.12.2/src/core/ngx_rbtree.c:96-153 | both descents, plain and by the sign of a wrapped difference, end at a free side of a node such that every key before it is at most the new key and every key from it on is greater |
| `RbTree.LessIsRank` | cleanup_destructor/nginx-1.12.2/src/core/ngx_rbtree.c:129-139 | the wrapped comparison of timer keys agrees with the order of their distances from a base, for all keys within half the counter range of it |
| `RbTree.Tree.InsertFix` | cleanup_destructor/nginx-1.12.2/src/core/ngx_rbtree.c:48-92 | the rebalancing loop ends, restores all red-black conditions and does not change the in-order sequence or the set of nodes |
| `RbTree.Tree.InsertFixLeft` | cleanup_destructor/nginx-1.12.2/src/core/ngx_rbtree.c:50-68 | one round under a left parent, all cases: the in-order sequence stays, the one possible violation moves strictly closer to the root or disappears |
| `RbTree.Tree.InsertFixRight` | cleanup_destructor/nginx-1.12.2/src/core/ngx_rbtree.c:70-89 | the mirror image: same guarantee under a right parent |
| `RbTree.Tree.Delete` | cleanup_destructor/nginx-1.12.2/src/core/ngx_rbtree.c:156-320 | after a delete the links are again a red-black tree; the in-order sequence has lost exactly this node and is otherwise in the same order (so sorted if it was); the node's own links and key are cleared |
| `RbTree.Tree.RemoveRoot` | cleanup_destructor/nginx-1.12.2/src/core/ngx_rbtree.c:185-196 | the early return for a root with at most one child: tree valid, exactly the root gone, although the new root's parent pointer is left stale |
| `RbTree.Tree.RemoveTwo` | cleanup_destructor/nginx-1.12.2/src/core/ngx_rbtree.c:198-253 | a node with two children is replaced by its successor in place: valid tree, exactly the given node gone |
| `RbTree.Tree.RemoveInner` | cleanup_destructor/nginx-1.12.2/src/core/ngx_rbtree.c:198-253 | a node below the root with at most one child leaves: valid tree, exactly the given node gone |
| `RbTree.Tree.DeleteFix` | cleanup_destructor/nginx-1.12.2/src/core/ngx_rbtree.c:257-319 | the delete loop: from a tree in which one side is one black node short, it ends with a valid red-black tree and the same in-order sequence, whether or not the short side is the sentinel |
| `RbTree.Tree.SettleSibling` | cleanup_destructor/nginx-1.12.2/src/core/ngx_rbtree.c:262-267 | a red sibling is rotated away: the shortage stays at the same node, its sibling is black, the remaining work has not grown |
| `RbTree.Tree.SettleNephew` | cleanup_destructor/nginx-1.12.2/src/core/ngx_rbtree.c:274-279 | a red near nephew is rotated into the far place, the in-order sequence unchanged |
| `RbTree.Tree.Repair` | cleanup_destructor/nginx-1.12.2/src/core/ngx_rbtree.c:269-286 | with a black sibling the shortage moves strictly up or is closed for good |
| `RbTree.Tree.LeftRotate` | cleanup_destructor/nginx-1.12.2/src/core/ngx_rbtree.c:323-350 | the six pointer assignments amount to the rotation of the tree they unfold to; the parts not involved keep their links |
| `RbTree.Tree.RightRotate` | cleanup_destructor/nginx-1.12.2/src/core/ngx_rbtree.c:353-380 | the same to the other side |
| `RbTree.Tree.Next` | cleanup_destructor/nginx-1.12.2/src/core/ngx_rbtree.c:383-409 | the node after a given one in the in-order sequence, null exactly after the last, without ever reading the root's parent |
| `RbTree.Tree.Min` | cleanup_destructor/nginx-1.12.2/src/core/ngx_rbtree.h:73-81 | the first node of a subtree in order |
| `RbTree.Tree.Walk` | cleanup_destructor/nginx-1.12.2/src/core/ngx_rbtree.c:383-409 | from the minimum, repeated steps visit every node exactly once, in order |
| `RbMeaning.IsRedBlackTree` | cleanup_destructor/nginx-1.12.2/src/core/ngx_rbtree.c:24-320 | the local invariant kept by the operations means that the links unfold to a recursive tree with agreeing parent links, no red node with a red child, equal black heights, a black root, the recorded in-order sequence, and 2^height at most (n+1)^2 |
| `RbMeaning.UnfoldsUnique` | cleanup_destructor/nginx-1.12.2/src/core/ngx_rbtree.c:24-320 | the links determine the tree they stand for |
| `RbShape.HeightBound` | cleanup_destructor/nginx-1.12.2/src/core/ngx_rbtree.c:24-320 | height at most 2*log2(n+1) for every balanced tree with a black root |
| `RbSteps.StepsRotate` | cleanup_destructor/nginx-1.12.2/src/core/ngx_rbtree.c:323-380 | the assignments of a rotation, in program order, yield the rotated tree state |
| `RbBalance.UncleRed` | cleanup_destructor/nginx-1.12.2/src/core/ngx_rbtree.c:53-57 | recolouring parent, uncle and grandparent keeps all conditions except a possible red pair two levels up |
| `RbBalance.OuterChild` | cleanup_destructor/nginx-1.12.2/src/core/ngx_rbtree.c:65-67 | recolouring and rotating at the grandparent ends the violation |
| `RbBalance.FarNephewReady` | cleanup_destructor/nginx-1.12.2/src/core/ngx_rbtree.c:281-285 | closing rotation of a delete: the result is a valid red-black tree |
| `SlabPool.SlabPool.constructor` | cleanup_destructor/nginx-1.12.2/src/core/ngx_slab.c:86-162 | a fresh pool is in order: one free run of all pages, `pfree` their number, the page area at the first page boundary behind the descriptors, all inside the given memory; less is left over than two more pages would need |
| `SlabPool.SlabPool.InitTable` | cleanup_destructor/nginx-1.12.2/src/core/ngx_slab.c:113-145 | exactly the list heads and page descriptors exist; the one free run is linked in, all else is empty |
| `SlabPool.SlabPool.Alloc` | cleanup_destructor/nginx-1.12.2/src/core/ngx_slab.c:180-408 | returns 0 exactly when there is neither a free chunk of the class nor, for a page or more, a free run of as many bytes, and then nothing changed; otherwise a new block of the smallest class that holds the request, or of whole pages with less than a page to spare, every other block where it was; requests and failures counted per class; descriptors, lists, bitmaps, `pfree`, `used` and `total` all exact again |
| `SlabPool.SlabPool.Free` | cleanup_destructor/nginx-1.12.2/src/core/ngx_slab.c:451-663 | gives back exactly the block at the address; if none starts there, nothing changes; the answer is the one that the uses of the pages call for (outside, wrong chunk, already free, page free, wrong page); everything stays exact |
| `SlabPool.SlabPool.AllocRun` | cleanup_destructor/nginx-1.12.2/src/core/ngx_slab.c:188-203 | a large request gets whole pages with less than a page to spare; it fails exactly if every free run has fewer bytes |
| `SlabPool.SlabPool.AllocUsed` | cleanup_destructor/nginx-1.12.2/src/core/ngx_slab.c:223-327 | a page on the slot list always yields a chunk: the busy alert is unreachable |
| `SlabPool.SlabPool.AllocFresh` | cleanup_destructor/nginx-1.12.2/src/core/ngx_slab.c:329-396 | a chunk from a newly cut page, or failure only if no page is free |
| `SlabPool.SlabPool.UseChunk` | cleanup_destructor/nginx-1.12.2/src/core/ngx_slab.c:225-323 | marks a chunk that was free, in whichever of the three bitmaps, and takes the page off its list exactly when it is now full |
| `SlabPool.SlabPool.CutPage` | cleanup_destructor/nginx-1.12.2/src/core/ngx_slab.c:331-395 | a page just taken becomes a page of chunks whose bitmap marks the reserved chunks and the one handed out, alone on its slot list |
| `SlabPool.SlabPool.FreshBitmap` | cleanup_destructor/nginx-1.12.2/src/core/ngx_slab.c:333-348 | the in-page bitmap of a new page marks the bitmap's own chunks and one more, no others |
| `SlabPool.SlabPool.AllocPages` | cleanup_destructor/nginx-1.12.2/src/core/ngx_slab.c:666-719 | takes the first free run on the list that is long enough and leaves the rest of it free; fails only if no free run is long enough, and then changes nothing |
| `SlabPool.SlabPool.FindRun` | cleanup_destructor/nginx-1.12.2/src/core/ngx_slab.c:671-673 | the first run on the free list that is long enough, none only if there is none |
| `SlabPool.SlabPool.FreePages` | cleanup_destructor/nginx-1.12.2/src/core/ngx_slab.c:722-799 | the pages become free, joined with the free runs on both sides; descriptors and lists agree with the page uses again, `pfree` grows by the pages |
| `SlabPool.SlabPool.JoinBehind` | cleanup_destructor/nginx-1.12.2/src/core/ngx_slab.c:742-761 | joins the free run that begins right behind, if any, and no other |
| `SlabPool.SlabPool.JoinBefore` | cleanup_destructor/nginx-1.12.2/src/core/ngx_slab.c:763-787 | joins the free run that ends right before, if any, found through its last descriptor |
| `SlabPool.SlabPool.ClearChunk` | cleanup_destructor/nginx-1.12.2/src/core/ngx_slab.c:491-501 | the chunk's bit is cleared and a page that was full returns to the front of its slot list |
| `SlabPool.SlabPool.FreeChunk` | cleanup_destructor/nginx-1.12.2/src/core/ngx_slab.c:473-606 | exactly this chunk is lost to the pool's blocks, and its page goes back when it was the last one; counters stay exact |
| `SlabPool.SlabPool.FreeRun` | cleanup_destructor/nginx-1.12.2/src/core/ngx_slab.c:608-633 | exactly this page run is given back |
| `SlabPool.SlabPool.Store` | cleanup_destructor/nginx-1.12.2/src/core/ngx_slab.c:180-408 | what the holder of a block writes into any word of it never disturbs the pool's bookkeeping, in-page bitmaps included; exactly the addressed word changes |
| `SlabRun.Run` | cleanup_destructor/nginx-1.12.2/src/core/ngx_slab.c:86-799 | any sequence of requests, returns and writes by holders on a fresh pool: the blocks held, told from the answers alone, lie in the page area, are large enough, aligned to their class or the page, pairwise disjoint; what a holder wrote is still there as long as the block is held; every return of something held succeeds; when all is returned the table is one free run and `pfree` is all pages |
| `SlabFacts.ContentsKept` | cleanup_destructor/nginx-1.12.2/src/core/ngx_slab.c:180-663 | a step that writes to in-page bitmaps only leaves every word of every live block as it was |
| `SlabRun.HeldSeparate` | cleanup_destructor/nginx-1.12.2/src/core/ngx_slab.c:180-663 | blocks held are disjoint, inside and aligned; holding nothing means one single free run |
| `SlabBlocks.InsidePool` | cleanup_destructor/nginx-1.12.2/src/core/ngx_slab.c:180-408 | every live block lies inside the page area |
| `SlabBlocks.Disjoint` | cleanup_destructor/nginx-1.12.2/src/core/ngx_slab.c:180-408 | two different live blocks never overlap, chunks and runs alike |
| `SlabBlocks.ClearOfBitmap` | cleanup_destructor/nginx-1.12.2/src/core/ngx_slab.c:331-358 | a small chunk never overlaps the bitmap at the start of its page |
| `SlabBlocks.Aligned` | cleanup_destructor/nginx-1.12.2/src/core/ngx_slab.c:180-408 | a chunk is aligned to its size, a run to the page size |
| `SlabBlocks.NothingLive` | cleanup_destructor/nginx-1.12.2/src/core/ngx_slab.c:722-799 | a tiled table with no block left is one maximal free run |
| `SlabBlocks.TakeGains` | cleanup_destructor/nginx-1.12.2/src/core/ngx_slab.c:666-719 | taking pages adds exactly one block and moves none |
| `SlabBlocks.GiveGains` | cleanup_destructor/nginx-1.12.2/src/core/ngx_slab.c:722-799 | giving pages back loses exactly the block they held |
| `SlabBlocks.TakeCounts` | cleanup_destructor/nginx-1.12.2/src/core/ngx_slab.c:696-696 | taking k pages lowers the number of free pages by k and leaves every class's counts alone |
| `SlabBlocks.GiveCounts` | cleanup_destructor/nginx-1.12.2/src/core/ngx_slab.c:728-728 | giving k pages back raises the number of free pages by k and removes just that page's chunks from the counts |
| `SlabModel.TakeTiled` | cleanup_destructor/nginx-1.12.2/src/core/ngx_slab.c:666-719 | splitting a free run keeps the table tiled by allocated runs and maximal free runs |
| `SlabModel.GiveTiled` | cleanup_destructor/nginx-1.12.2/src/core/ngx_slab.c:722-799 | freeing with coalescing keeps it tiled: no two free runs become neighbours |
| `SlabModel.MergeBounds` | cleanup_destructor/nginx-1.12.2/src/core/ngx_slab.c:742-787 | what is merged is exactly the two neighbouring free runs, and the result has no free neighbour |
| `SlabModel.BitmapFits` | cleanup_destructor/nginx-1.12.2/src/core/ngx_slab.c:333-344 | for every class the reserved chunks hold the bitmap and leave room for others |
| `SlabModel.BitmapTight` | cleanup_destructor/nginx-1.12.2/src/core/ngx_slab.c:333-344 | no fewer chunks would hold the bitmap, and none are reserved where the bitmap is elsewhere |
| `SlabModel.PagesFor` | cleanup_destructor/nginx-1.12.2/src/core/ngx_slab.c:193-194 | the fewest pages that hold the request |
| `SlabModel.RoomCounts` | cleanup_destructor/nginx-1.12.2/src/core/ngx_slab.c:356-388 | what a page adds to `total` is the number of chunks that it can hand out |
| `SlabPages.TakeConforms` | cleanup_destructor/nginx-1.12.2/src/core/ngx_slab.c:666-719 | after a split, descriptors, free list (exactly the heads of free runs) and slot lists (exactly the pages of the class with a free chunk) still describe the page uses |
| `SlabPages.TakeFreeExact` | cleanup_destructor/nginx-1.12.2/src/core/ngx_slab.c:675-690 | the free list still holds exactly the heads of the free runs |
| `SlabFacts.FinishedPool` | cleanup_destructor/nginx-1.12.2/src/core/ngx_slab.c:742-799 | after joining and relisting, descriptors and lists conform to the merged page uses |
| `SlabFacts.PageFacts` | cleanup_destructor/nginx-1.12.2/src/core/ngx_slab.c:460-634 | tag and word of a descriptor tell exactly what its page is used for |
| `SlabFacts.RunWord` | cleanup_destructor/nginx-1.12.2/src/core/ngx_slab.c:614-627 | the top bit of a run's word says that it is allocated, the remaining bits are its length |
| `SlabFacts.ChunkTest` | cleanup_destructor/nginx-1.12.2/src/core/ngx_slab.c:482-488 | the bit tested in any of the three bitmaps is set exactly for reserved chunks and chunks in use |
| `SlabFacts.ChunkAddress` | cleanup_destructor/nginx-1.12.2/src/core/ngx_slab.c:473-606 | in a page of chunks an address is a live block exactly when it is aligned to the class and its chunk is in use |
| `SlabFacts.PageAddress` | cleanup_destructor/nginx-1.12.2/src/core/ngx_slab.c:608-629 | in other pages only the start of an allocated run is a block |
| `SlabScan.ClassOf` | cleanup_destructor/nginx-1.12.2/src/core/ngx_slab.c:205-213 | the shift computed by halving is the smallest class that holds the request |
| `SlabScan.FindChunk` | cleanup_destructor/nginx-1.12.2/src/core/ngx_slab.c:225-323 | on a page that is not full every one of the three scans ends at a chunk that is neither reserved nor in use |
| `SlabScan.IsFull` | cleanup_destructor/nginx-1.12.2/src/core/ngx_slab.c:248-253 | the words from the found one on being all ones (or the mask being complete) means exactly that no chunk is free |
| `SlabScan.IsEmpty` | cleanup_destructor/nginx-1.12.2/src/core/ngx_slab.c:503-519 | the test after a free is exactly that no chunk is in use |
| `SlabCounts.SwapTally` | cleanup_destructor/nginx-1.12.2/src/core/ngx_slab.c:356-376 | `used` and `total` of a class stay the number of its chunks in use and its chunk capacity when a page changes its chunks or is cut up |
| `SlabCounts.GiveTally` | cleanup_destructor/nginx-1.12.2/src/core/ngx_slab.c:521-523 | ... and when a page goes back |
| `Shmtx.RunInv` | cleanup_destructor/nginx-1.12.2/src/core/ngx_shmtx.c:62-196 | over every interleaving of any number of processes: one holder at most and the lock word names it, the waiter accounting balances, no wakeup is lost |
| `Shmtx.StepInv` | cleanup_destructor/nginx-1.12.2/src/core/ngx_shmtx.c:62-196 | every atomic step of every process keeps that invariant |
| `Shmtx.MutualExclusion` | cleanup_destructor/nginx-1.12.2/src/core/ngx_shmtx.c:62-146 | in no run do two processes hold the mutex |
| `Shmtx.WaitersAccounted` | cleanup_destructor/nginx-1.12.2/src/core/ngx_shmtx.c:100-127 | `wait` (read as signed) + semaphore value + posts in flight always equals the number of registered waiters, within the number of processes |
| `Shmtx.NobodyLeftAsleep` | cleanup_destructor/nginx-1.12.2/src/core/ngx_shmtx.c:164-196 | in no reachable state is the lock free while a process sleeps on a zero semaphore and every other one is idle or asleep: some process is under way that does not hold the lock |
| `Shmtx.NeverStuck` | cleanup_destructor/nginx-1.12.2/src/core/ngx_shmtx.c:69-196 | whenever some process is not idle, some process can take a step that changes something, whatever it calls |
| `ShmtxProgress.UnlockFrees` | cleanup_destructor/nginx-1.12.2/src/core/ngx_shmtx.c:137-146 | in every run an unlock by the holder leaves the lock word 0 and the mutex unheld |
| `ShmtxProgress.UnlockWakes` | cleanup_destructor/nginx-1.12.2/src/core/ngx_shmtx.c:164-196 | undisturbed it then posts the semaphore once and takes one waiter off the count if any was counted, and otherwise changes nothing |
| `ShmtxProgress.LockTakes` | cleanup_destructor/nginx-1.12.2/src/core/ngx_shmtx.c:69-80 | in every run an idle process that finds the mutex free and is not disturbed holds it after three steps of lock, and nothing else has changed |
| `ShmtxProgress.TryLockTakes` | cleanup_destructor/nginx-1.12.2/src/core/ngx_shmtx.c:62-66 | the same for trylock |
| `ShmtxProgress.TryLockFails` | cleanup_destructor/nginx-1.12.2/src/core/ngx_shmtx.c:62-66 | on a mutex that is held, trylock comes back after one look with nothing changed, and unlock by another process does nothing |
| `ShmtxProgress.LockSleeps` | cleanup_destructor/nginx-1.12.2/src/core/ngx_shmtx.c:69-127 | on a mutex that stays held, lock makes exactly its number of attempts, counts itself as a waiter, tries once more and sleeps |
| `ShmtxProgress.SleeperWakes` | cleanup_destructor/nginx-1.12.2/src/core/ngx_shmtx.c:113-127 | a sleeper that is posted for starts over with all its attempts |
| `ShmtxProgress.LockEnds` | cleanup_destructor/nginx-1.12.2/src/core/ngx_shmtx.c:69-131 | whatever the others do, a call of lock ends with the mutex only |
| `ShmtxProgress.TryLockEnds` | cleanup_destructor/nginx-1.12.2/src/core/ngx_shmtx.c:62-66 | whatever the others do, a trylock ends with the mutex, or without it at a moment when it is held |
| `ShmtxProgress.LostRace` | cleanup_destructor/nginx-1.12.2/src/core/ngx_shmtx.c:77-95 | an attempt that loses the race for a free mutex counts like one that finds it held |
| `ShmtxProgress.ComesToRest` | cleanup_destructor/nginx-1.12.2/src/core/ngx_shmtx.c:62-196 | no deadlock: every run can be continued so that all calls end and the mutex is free |
| `Rwlock.RunInv` | cleanup_destructor/nginx-1.12.2/src/core/ngx_rwlock.c:19-109 | over every interleaving of fewer processes than the writer's mark the word stays exact, stale reads in unlock included |
| `Rwlock.Exclusion` | cleanup_destructor/nginx-1.12.2/src/core/ngx_rwlock.c:19-87 | a writer excludes every other holder |
| `Rwlock.WordTells` | cleanup_destructor/nginx-1.12.2/src/core/ngx_rwlock.c:19-109 | the word is all ones exactly when there is one writer and no reader, and otherwise the number of readers |
| `Rwlock.StepInv` | cleanup_destructor/nginx-1.12.2/src/core/ngx_rwlock.c:19-109 | every memory access of every process keeps that |
| `RwlockProgress.ReaderJoins` | cleanup_destructor/nginx-1.12.2/src/core/ngx_rwlock.c:51-86 | in every run without a writer inside, an idle process that is not disturbed is inside as a reader after three steps, beside those that are, and the word is one more |
| `RwlockProgress.WriterEnters` | cleanup_destructor/nginx-1.12.2/src/core/ngx_rwlock.c:19-48 | a lock that nobody is in is taken by a writer in three steps |
| `RwlockProgress.WriterWaits` | cleanup_destructor/nginx-1.12.2/src/core/ngx_rwlock.c:19-48 | while anybody is inside a writer waits, however long, and changes nothing |
| `RwlockProgress.ReaderWaits` | cleanup_destructor/nginx-1.12.2/src/core/ngx_rwlock.c:51-86 | while a writer is inside a reader waits, however long, and changes nothing |
| `RwlockProgress.Leaves` | cleanup_destructor/nginx-1.12.2/src/core/ngx_rwlock.c:89-109 | undisturbed, a writer's unlock leaves the word 0, a reader's leaves it one less |
| `RwlockProgress.WriterEnds` | cleanup_destructor/nginx-1.12.2/src/core/ngx_rwlock.c:19-48 | whatever the others do, a writer's call ends with all of the lock only |
| `RwlockProgress.ReaderEnds` | cleanup_destructor/nginx-1.12.2/src/core/ngx_rwlock.c:51-86 | whatever the others do, a reader's call ends inside only, with the readers one more |
| `RwlockProgress.UnlockEnds` | cleanup_destructor/nginx-1.12.2/src/core/ngx_rwlock.c:89-109 | whatever the others do, an unlock ends with the word given back only |
| `RwlockProgress.ComesToRest` | cleanup_destructor/nginx-1.12.2/src/core/ngx_rwlock.c:19-109 | no deadlock: every run can be continued so that all calls end and the word is 0 |
| `ThreadPool.RunInv` | cleanup_destructor/nginx-1.12.2/src/core/ngx_thread_pool.c:230-394 | over every interleaving of the main thread, any number of workers and spurious wakeups: lock ownership, places of tasks, the `waiting` counter and attendance all stay consistent |
| `ThreadPool.OnePlace` | cleanup_destructor/nginx-1.12.2/src/core/ngx_thread_pool.c:230-394 | an active task is in exactly one of queue, one worker, done list or the batch being delivered; any other task is in none |
| `ThreadPool.PostOrder` | cleanup_destructor/nginx-1.12.2/src/core/ngx_thread_pool.c:262-324 | tasks start in the order in which they were posted |
| `ThreadPool.QueueBounded` | cleanup_destructor/nginx-1.12.2/src/core/ngx_thread_pool.c:243-312 | `waiting` is the queue length less the workers that have announced but not dequeued, and never exceeds `max_queue` |
| `ThreadPool.NothingStranded` | cleanup_destructor/nginx-1.12.2/src/core/ngx_thread_pool.c:257-347 | while a worker sleeps unsignalled, the workers on their way to the queue suffice for all queued tasks |
| `ThreadPool.CompletionNoticed` | cleanup_destructor/nginx-1.12.2/src/core/ngx_thread_pool.c:350-359 | in every reachable state completed tasks are notified, being fetched, or about to be notified by a worker |
| `ThreadPool.AllDelivered` | cleanup_destructor/nginx-1.12.2/src/core/ngx_thread_pool.c:230-394 | whenever the pool comes to rest every accepted task has been delivered, exactly as often as it was accepted |
| `ThreadPool.NeverStuck` | cleanup_destructor/nginx-1.12.2/src/core/ngx_thread_pool.c:230-394 | while an accepted task is undelivered some thread can take a step that changes something, without any further post |
| `ThreadPool.WorkerInv` | cleanup_destructor/nginx-1.12.2/src/core/ngx_thread_pool.c:277-361 | every step of a worker keeps the invariant |
| `ThreadPool.MainInv` | cleanup_destructor/nginx-1.12.2/src/core/ngx_thread_pool.c:230-394 | every step of the posting and delivering thread keeps it |
| `ThreadPoolProgress.PostStarts` | cleanup_destructor/nginx-1.12.2/src/core/ngx_thread_pool.c:230-241 | a post of an active task changes nothing, any other comes to the check under the mutex |
| `ThreadPoolProgress.PostOutcome` | cleanup_destructor/nginx-1.12.2/src/core/ngx_thread_pool.c:243-274 | however the threads are interleaved, when the main thread comes back from a post the task has been queued last, counted and marked active if fewer than the limit were waiting at the check, and otherwise nothing has changed |
| `ThreadPoolProgress.CompletionOrder` | cleanup_destructor/nginx-1.12.2/src/core/ngx_thread_pool.c:345-391 | tasks are delivered in the order in which they were completed: every step keeps delivered, being delivered and done, and only a completion adds to the end |
| `ThreadPoolProgress.HandlerRuns` | cleanup_destructor/nginx-1.12.2/src/core/ngx_thread_pool.c:336-338 | a task's handler is run before each of its deliveries, and at rest exactly as often as the task was accepted |
| `ThreadPoolProgress.Spends` | cleanup_destructor/nginx-1.12.2/src/core/ngx_thread_pool.c:230-394 | no schedule without further posts goes on for ever: every step that changes something uses up work |
| `ThreadPoolProgress.GoesOn` | cleanup_destructor/nginx-1.12.2/src/core/ngx_thread_pool.c:230-394 | as long as the pool is not at rest some thread can take such a step |
| `ThreadPoolProgress.Finishes` | cleanup_destructor/nginx-1.12.2/src/core/ngx_thread_pool.c:230-394 | so every run can be finished without any further post, with what was delivered being what was accepted, as multisets |
| `ThreadPoolProgress.OnePost` | cleanup_destructor/nginx-1.12.2/src/core/ngx_thread_pool.c:230-394 | a run of one post on a fresh pool of any size: the task is accepted, and delivered once |
| `PoolModel.TestNeedsAlignedEnd` | ngx_mem_pool_x64.cpp:78-87 | the unsigned room test is sound for every fill mark and size exactly when blocks end at a word boundary |
| `PoolModel.RoomTest` | ngx_mem_pool_x64.cpp:73-91 | with the end at a word boundary, the test passes exactly if the request fits, aligned or not, and then at the lowest such place |
| `PoolModel.InBounds` | ngx_mem_pool_x64.cpp:68-132 | every live piece lies inside memory obtained from malloc and not freed |
| `PoolModel.Separate` | ngx_mem_pool_x64.cpp:68-174 | no two live pieces, headers of large and cleanup entries included, overlap |
| `PoolModel.ClearOfHeaders` | ngx_mem_pool_x64.cpp:97-132 | no live piece touches a block header |
| `PoolModel.RaisedPaced` | ngx_mem_pool_x64.cpp:121-129 | after a failed search counters still do not rise along the chain and `current` is still the first block with a counter of at most 5 |
| `PoolModel.AtMostSeven` | ngx_mem_pool_x64.cpp:68-95 | without a reset at most 7 blocks lie from `current` to the end |
| `PoolState.RaiseCounters` | ngx_mem_pool_x64.cpp:121-129 | exactly the blocks from `current` on, but the last, have failed once more, and searches start past those that failed too often |
| `PoolState.FreeLarges` | ngx_mem_pool_x64.cpp:239-245 | every large region goes back exactly once, its header read only while its block is held |
| `PoolState.RunHandlers` | ngx_mem_pool_x64.cpp:230-236 | every handler that is set is called once, the one registered last first |
| `PoolState.FreeBlocks` | ngx_mem_pool_x64.cpp:247-255 | every block goes back once, and its link is read before it is freed |
| `PoolReset.ListSurvives` | ngx_mem_pool_x64.cpp:194-221 | after a reset the pool can go on with its list of cleanup actions, whatever it counts as given out, if and only if every header on the list lies in the part of a further block that the rewind leaves out |
| `PoolReset.GivenAgain` | ngx_mem_pool_x64.cpp:194-221 | after a reset no later request can be given memory of a header still on the list, if and only if that header lies in such a part |
| `PoolReset.ResetGood` | ngx_mem_pool_x64.cpp:194-221 | every reset leaves the pool in order for all further requests, the list kept where it survives |
| `PoolRun.HeaderGivenAgain` | ngx_mem_pool_x64.cpp:3-289 | a run: create, register an action, reset, request 24 bytes; the answer is the address of the header still linked, for every pool size and both header sizes |
| `PoolRun.HeaderKept` | ngx_mem_pool_x64.cpp:3-289 | a run at a pool of 96 bytes in which the header opens a further block and is still linked and intact after the reset |
| `MemPool.MemPool.constructor` | ngx_mem_pool_x64.cpp:3-30 | a pool of one empty block, or none if malloc refused |
| `MemPool.MemPool.PallocSmall` | ngx_mem_pool_x64.cpp:68-95 | a new piece at the lowest place where it fits in the first block from `current` on where it does, only that block's mark moved; if it fits nowhere, at the start of a new last block, all blocks searched but the last having failed once more; without a reset at most 7 blocks are looked at; fails only if malloc refused |
| `MemPool.MemPool.FindRoom` | ngx_mem_pool_x64.cpp:73-91 | the first block from `current` on that passes the room test, none only if all fail it; the place is aligned if asked for and really in the block |
| `MemPool.MemPool.PallocBlock` | ngx_mem_pool_x64.cpp:97-132 | a further block of the pool's block size at the end of the chain serves the request from its start; all pieces stay |
| `MemPool.MemPool.PallocLarge` | ngx_mem_pool_x64.cpp:135-174 | a region of its own, held by the first empty one of the front five headers, or else by a new header at the front of the list; if no header can be had the region goes back and nothing changed for callers |
| `MemPool.MemPool.FindEmpty` | ngx_mem_pool_x64.cpp:147-159 | the first of the front five headers that holds no region, none only if all of them hold one |
| `MemPool.MemPool.Palloc` | ngx_mem_pool_x64.cpp:32-41 | a word-aligned piece of the asked size that overlaps nothing live, at the first place where it fits, or a region of its own; everything given before stays; fails only if malloc refused |
| `MemPool.MemPool.Pnalloc` | ngx_mem_pool_x64.cpp:43-53 | the same without alignment: a small piece begins exactly at the mark of the first block where it fits |
| `MemPool.MemPool.Pfree` | ngx_mem_pool_x64.cpp:176-190 | a large region goes back, once; any other address changes nothing |
| `MemPool.MemPool.Destroy` | ngx_mem_pool_x64.cpp:224-256 | handlers first, last registered first, then every region held, each exactly once; nothing that malloc gave is left |
| `MemPool.MemPool.Reset` | ngx_mem_pool_x64.cpp:194-221 | all pieces are taken back, exactly the large regions are freed, every block is empty again and the pool in order; the list of cleanup actions is good for use exactly if it was and all its headers are out of reach of later requests |
| `MemPool.MemPool.CleanupAdd` | ngx_mem_pool_x64.cpp:259-289 | a new action first in line with its own data piece; on failure the list is as before |
| `PoolRun.Run` | ngx_mem_pool_x64.cpp:3-289 | any run that creates a pool, allocates, releases, registers, resets and destroys: what is held, told from the answers alone and with the data of cleanup actions, is in obtained memory, aligned as asked, pairwise disjoint, and clear of the headers of blocks, large regions and actions; only frees happen before the end; then each handler once in reverse order of registration, then every region still held freed once; nothing is left |
| `PoolRun.TracksLess` | ngx_mem_pool_x64.cpp:176-190 | releasing a large piece takes exactly that piece from the caller |
| `PoolArray.Array.Push` | cleanup_destructor/nginx-1.12.2/src/core/ngx_array.c:47-91 | all elements keep value and order; grows in place exactly when it is the last allocation of the first block with room behind it, otherwise doubles elsewhere; bytes change only in its own place, and every other piece stays where it was |
| `PoolArray.Array.PushN` | cleanup_destructor/nginx-1.12.2/src/core/ngx_array.c:94-141 | the same for n elements at once |
| `PoolArray.Array.Append` | cleanup_destructor/nginx-1.12.2/src/core/ngx_array.c:47-91 | the array refines an append-only sequence: the elements are the old ones plus the new value, or unchanged on failure |
| `PoolArray.Array.GrowInPlace` | cleanup_destructor/nginx-1.12.2/src/core/ngx_array.c:62-71 | the array's own extent grows by the elements and no other extent changes |
| `PoolArray.Array.Move` | cleanup_destructor/nginx-1.12.2/src/core/ngx_array.c:73-84 | relocation keeps all elements and writes only into the new place |
| `ArrayRun.AllocBeside` | cleanup_destructor/nginx-1.12.2/src/core/ngx_palloc.c:122-249 | another allocation from the same pool leaves the elements of both arrays alone and overlaps none of them |
| `ArrayRun.WriteBeside` | cleanup_destructor/nginx-1.12.2/src/core/ngx_palloc.c:122-249 | a write into memory of others leaves the elements of both arrays alone |
| `ArrayRun.AppendBeside` | cleanup_destructor/nginx-1.12.2/src/core/ngx_array.c:47-91 | an append to one array, relocation included, changes neither the other array nor a byte that was given to someone else |
| `ArrayRun.Run` | cleanup_destructor/nginx-1.12.2/src/core/ngx_array.c:12-91 | any interleaving of appends to two arrays of one pool, other allocations and writes into them, over one memory: each array holds exactly the values appended to it, in order, and every byte written elsewhere is still there; nothing fails unless malloc refuses |
| `PoolArray.Array.Destroy` | cleanup_destructor/nginx-1.12.2/src/core/ngx_array.c:30-44 | gives back exactly the elements and the record, each only if it is then the last of the first block |
| `PoolArray.Array.Create` | cleanup_destructor/nginx-1.12.2/src/core/ngx_array.c:12-27 | an empty array with room for n elements in memory of its own; everything given before stays |
| `PoolArray.Copy` | cleanup_destructor/nginx-1.12.2/src/core/ngx_array.c:81-81 | copies the bytes and writes nothing else |
| `Radix.Radix.Find` | cleanup_destructor/nginx-1.12.2/src/core/ngx_radix_tree.c:236-263 | the value of the longest stored prefix that covers the key, or NO_VALUE if none does |
| `Radix.Radix.Insert` | cleanup_destructor/nginx-1.12.2/src/core/ngx_radix_tree.c:108-170 | refines insertion into a map of prefixes: busy exactly if the prefix has a value, otherwise stored; out of memory only if a page was refused, and then the map is unchanged; new nodes only along the prefix |
| `Radix.Radix.Delete` | cleanup_destructor/nginx-1.12.2/src/core/ngx_radix_tree.c:173-233 | removes exactly this prefix from the map; a leaf goes with all ancestors left without value and children, up to the first that has one or the root, and all other nodes stay; OK exactly if there was a value or a leaf |
| `Radix.DeletePreallocated` | cleanup_destructor/nginx-1.12.2/src/core/ngx_radix_tree.c:173-233 | a run: a fresh tree with one preallocated level answers OK to the deletion of a prefix that was never stored |
| `Radix.Radix.Alloc` | cleanup_destructor/nginx-1.12.2/src/core/ngx_radix_tree.c:463-488 | a node that is neither in the tree nor on the free list: the first of the free list if there is one, else the next of the page, else the first of a new page; tree and map untouched; fails only if a page was refused |
| `Radix.Radix.Preallocate` | cleanup_destructor/nginx-1.12.2/src/core/ngx_radix_tree.c:81-102 | nodes for all prefixes up to the given length, nothing stored; stops early only if memory runs out |
| `Radix.Radix.PruneUp` | cleanup_destructor/nginx-1.12.2/src/core/ngx_radix_tree.c:206-230 | the walk up frees exactly the useless end of the path |
| `Radix.Radix.Descend` | cleanup_destructor/nginx-1.12.2/src/core/ngx_radix_tree.c:115-134 | follows the key as far as there are nodes, and tells whether the mask was used up |
| `RadixModel.AttachGood` | cleanup_destructor/nginx-1.12.2/src/core/ngx_radix_tree.c:151-164 | hanging a fresh leaf keeps every node in exactly one of tree and free list and the tree in agreement with the map |
| `RadixModel.PruneGood` | cleanup_destructor/nginx-1.12.2/src/core/ngx_radix_tree.c:207-215 | so does moving a leaf to the free list |
| `RadixModel.TakeFreeGood` | cleanup_destructor/nginx-1.12.2/src/core/ngx_radix_tree.c:468-472 | so does taking the first free node |
| `RadixModel.TakeNewGood` | cleanup_destructor/nginx-1.12.2/src/core/ngx_radix_tree.c:474-487 | so does carving a node from a page |
| `Calendar.Gmtime` | cleanup_destructor/nginx-1.12.2/src/core/ngx_times.c:299-389 | for every t >= 0 a valid Gregorian date and time of day that count, with true leap years, to exactly t seconds, and the right day of the week |
| `Calendar.MarchYear` | cleanup_destructor/nginx-1.12.2/src/core/ngx_times.c:326-344 | the estimated year, corrected once, is the March year the day falls in |
| `Calendar.GaussIsDayNumber` | cleanup_destructor/nginx-1.12.2/src/core/ngx_times.c:354-380 | Gauss' formula equals counting days year by year and month by month |
| `Calendar.OneDate` | cleanup_destructor/nginx-1.12.2/src/core/ngx_times.c:299-389 | a day number belongs to one valid date only, so the conversion is determined |
| `HttpDateCode.HttpTime` | cleanup_destructor/nginx-1.12.2/src/core/ngx_times.c:254-269 | the text printed is that of the valid date whose time is t |
| `HttpDateText.PrintedText` | cleanup_destructor/nginx-1.12.2/src/core/ngx_times.c:58-60 | the text, part by part: the weekday and month by name, two digits each, the year without leading zeros, all separators, GMT |
| `HttpDateCode.ParseHttpTime` | cleanup_destructor/nginx-1.12.2/src/core/ngx_parse_time.c:14-276 | the walk of the cursor through the text, check by check, computes the parse defined on the whole text, for all three date forms and all errors |
| `HttpDateText.ParseExact` | cleanup_destructor/nginx-1.12.2/src/core/ngx_parse_time.c:14-276 | exactly which texts are accepted, as a grammar over the whole text, and with which time: a name and separator, spaces, one of three forms, a month by the letters that tell it apart, a valid time and a day that is valid or 0; anything may follow |
| `HttpDate.CheckedExact` | cleanup_destructor/nginx-1.12.2/src/core/ngx_parse_time.c:222-275 | for every year that four digits can say, the checks pass exactly the valid dates and day 0, and the time computed is the right one exactly if it is not January or February of the year 0 |
| `HttpDateText.OnlyValidDates` | cleanup_destructor/nginx-1.12.2/src/core/ngx_parse_time.c:14-276 | of a text that says a date in one of the forms: it is accepted exactly if the date and time are valid, if and only if it does not say day 0 with a valid time |
| `HttpDateText.OnlyRightTimes` | cleanup_destructor/nginx-1.12.2/src/core/ngx_parse_time.c:242-275 | an accepted text gives the time of the date it says, if and only if that is not in January or February of the year 0, where the unsigned year wraps |
| `HttpDateText.DayZeroText` | cleanup_destructor/nginx-1.12.2/src/core/ngx_parse_time.c:222-232 | the text Sun, 00 Nov 1994 08:49:37 GMT is read as the last of October |
| `HttpDateText.DayZeroAccepted` | cleanup_destructor/nginx-1.12.2/src/core/ngx_parse_time.c:222-232 | the same in every year from 0 to 9999 |
| `HttpDateText.LettersIgnored` | cleanup_destructor/nginx-1.12.2/src/core/ngx_parse_time.c:75-131 | Nxx is read as November |
| `HttpDateText.EarlyYear` | cleanup_destructor/nginx-1.12.2/src/core/ngx_parse_time.c:242-275 | a date of the year 1 is accepted and gives its negative time |
| `HttpDateText.YearZero` | cleanup_destructor/nginx-1.12.2/src/core/ngx_parse_time.c:242-275 | a date of January of the year 0 is accepted and gives a wrong time |
| `HttpDate.PrintThenParse` | cleanup_destructor/nginx-1.12.2/src/core/ngx_parse_time.c:14-276 | parsing the printed form of a date gives its time |
| `HttpDateCode.RoundTrip` | cleanup_destructor/nginx-1.12.2/src/core/ngx_times.c:254-269 | for every t through the year 9999, parsing the printed HTTP date returns t |
| `HttpDate.DashedThenParse` | cleanup_destructor/nginx-1.12.2/src/core/ngx_parse_time.c:138-146 | the form of RFC 850 with any day name is read back, two-digit years as 1970 to 2069 |
| `HttpDate.AsctimeThenParse` | cleanup_destructor/nginx-1.12.2/src/core/ngx_parse_time.c:148-220 | the form of asctime() with any day name is read back |
| `Inet6.RunIsFirstLongest` | cleanup_destructor/nginx-1.12.2/src/core/ngx_inet.c:304-330 | the run left out is the first of the longest runs of at least two zero words |
| `Inet6.DottedBack` | cleanup_destructor/nginx-1.12.2/src/core/ngx_inet.c:17-57 | the IPv4 parser reads back the four octets of any dotted text |
| `Inet6.InetAddr` | cleanup_destructor/nginx-1.12.2/src/core/ngx_inet.c:17-57 | the loop computes the scan of the whole text, errors included |
| `Inet6Text.InetExact` | cleanup_destructor/nginx-1.12.2/src/core/ngx_inet.c:17-57 | exactly which texts are IPv4 addresses: four rows of decimal digits with dots between them, each of any length, empty included, and saying at most 255; every other text is refused |
| `Inet6Text.ParseExact` | cleanup_destructor/nginx-1.12.2/src/core/ngx_inet.c:62-175 | exactly which texts are IPv6 addresses, as a grammar over the whole text: groups of one to four hexadecimal digits of either case, at most one gap, an IPv4 address at the end or not, eight words, or at most seven with a gap; and which bytes they say |
| `Inet6Text.ColonPassedOver` | cleanup_destructor/nginx-1.12.2/src/core/ngx_inet.c:80-83 | a single colon before a text changes nothing |
| `Inet6Text.TextLetters` | cleanup_destructor/nginx-1.12.2/src/core/ngx_inet.c:293-367 | printed texts have digits, small letters, colons and dots only |
| `Inet6Text.DottedExactly` | cleanup_destructor/nginx-1.12.2/src/core/ngx_inet.c:332-341 | exactly which addresses are printed with a tail like an IPv4 address, by their bytes |
| `Inet6Text.Shortest` | cleanup_destructor/nginx-1.12.2/src/core/ngx_inet.c:352-364 | numbers are printed without leading zeros |
| `Inet6.PrintThenParse` | cleanup_destructor/nginx-1.12.2/src/core/ngx_inet.c:293-367 | parsing the text of an address gives the address, for every address except ::255.255.255.255 and ::ffff:255.255.255.255, for which it fails |
| `Inet6Code.ZeroRun` | cleanup_destructor/nginx-1.12.2/src/core/ngx_inet.c:304-330 | the byte loop finds the run of zero words that the specification finds |
| `Inet6Code.Ntop` | cleanup_destructor/nginx-1.12.2/src/core/ngx_inet.c:293-367 | nothing for a buffer shorter than documented; otherwise the printer's loops produce the text of the address, which is never longer than the buffer |
| `Inet6.TextFits` | cleanup_destructor/nginx-1.12.2/src/core/ngx_inet.c:299-301 | the text of every address has at most 39 characters, less than the documented 45 |
| `Inet6Code.Inet6Addr` | cleanup_destructor/nginx-1.12.2/src/core/ngx_inet.c:62-175 | succeeds exactly for the texts of the grammar and leaves the 16 bytes that they say in the buffer |
| `Inet6Code.MakeRoom` | cleanup_destructor/nginx-1.12.2/src/core/ngx_inet.c:156-166 | the backward shift in place moves the bytes after the gap to the end and zeros into the gap, overlaps included |
| `Inet6Code.RoundTrip` | cleanup_destructor/nginx-1.12.2/src/core/ngx_inet.c:62-367 | printing and parsing an address succeeds exactly if it is not one of the two colliding ones, and returns the same 16 bytes |
| `HashStream.Context.Update` | cleanup_destructor/nginx-1.12.2/src/core/ngx_md5.c:30-58 | for every piece of input the context is that of the whole input so far: the block function folded over all whole blocks, the rest in the buffer |
| `HashStream.Context.Final` | cleanup_destructor/nginx-1.12.2/src/core/ngx_md5.c:61-91 | exactly the padded message of sections 3.1 and 3.2 of RFC 1321 (or section 4 of RFC 3174) has been absorbed, and the digest is the words of that state |
| `HashStream.HashPieces` | cleanup_destructor/nginx-1.12.2/src/core/ngx_sha1.c:32-117 | the digest depends on the concatenated input alone, however it was split across updates |
| `HashStream.Md5` | cleanup_destructor/nginx-1.12.2/src/core/ngx_md5.c:18-111 | the digest that RFC 1321 describes, byte by byte: the four initial words, the padded message in blocks of 64 bytes, the length and the words of the state least significant byte first |
| `HashStream.Sha1` | cleanup_destructor/nginx-1.12.2/src/core/ngx_sha1.c:19-117 | the digest that RFC 3174 describes, byte by byte: the five initial words, the padded message in blocks, the length and the words most significant byte first |
| `HashStream.DigestIs` | cleanup_destructor/nginx-1.12.2/src/core/ngx_sha1.c:32-117 | the digest is what the descriptions say of the padded message, for both byte orders |
| `HashStream.LengthField` | cleanup_destructor/nginx-1.12.2/src/core/ngx_md5.c:75-83 | the eight bytes of the length field, one by one |
| `HashStream.OutputBytes` | cleanup_destructor/nginx-1.12.2/src/core/ngx_md5.c:87-102 | the four bytes that the digest has for each word of the state |
| `HashStream.AbsorbBlocks` | cleanup_destructor/nginx-1.12.2/src/core/ngx_md5.c:47-50 | absorbing is taking in block after block, each of the next 64 bytes |
| `HashStream.PaddedWhole` | cleanup_destructor/nginx-1.12.2/src/core/ngx_md5.c:61-83 | the padding is the shortest that fills whole blocks |
| `HashStream.LengthBack` | cleanup_destructor/nginx-1.12.2/src/core/ngx_sha1.c:82-93 | the length field determines the length, and the two byte orders are each other's reverse |
| `HashStream.AbsorbMore` | cleanup_destructor/nginx-1.12.2/src/core/ngx_md5.c:30-58 | absorbing whole blocks and then the rest is absorbing all of it |

## Left out

Assumptions and simplifications of what is modelled:

- Red-black tree: the parent of the root and of the sentinel are outside the invariant, as the code leaves the first stale and uses the second as scratch space. Which insert function a tree uses is a flag; only the two of ngx_rbtree.c are modelled. The fields of a deleted node are cleared after the rebalancing, not before it.
- Slab: page descriptors and list heads are records in a dictionary, and the tag in the low bits of `prev` is a field of its own. Junk filling, logging, the mutex around the pool and the 32-bit constants are left out, and so are regions too small for one page.
- SlabPool.SlabPool.Free: is not called with an address inside a page's own bitmap or behind the last page, which callers are never given; the code does not check for these.
- Shmtx: sequential consistency; process death, forced unlock, semaphore errors and the file-lock variant do not occur; spinning is counted attempts without pauses.
- Rwlock: sequential consistency; pauses and yields do not touch the word.
- Thread pool: links between tasks are sequences; errors of the threading library, shutdown and the configuration directives are left out; `max_queue` is not negative.
- Pool: malloc is known by its contract alone, a fresh region aligned to 16 bytes and disjoint from all it has given, or a refusal; headers are records by address. Sizes and addresses are below 2^64 and not so large that their sums wrap. `ngx_pcalloc`, `ngx_pmemalign` and the file cleanups are left out.
- MemPool.MemPool.constructor: the size is a multiple of the word and at least the minimum, as the header file demands, and fits a 64-bit word, as its type does.
- PoolRun.Run: a reset is performed only while no cleanup action is registered; a reset with actions registered is in `MemPool.MemPool.Reset`.
- MemPool.MemPool.Destroy: is called only while the list of cleanup actions has survived all resets, as otherwise it would follow headers that callers may have overwritten; memory of such headers is not modelled byte by byte.
- MemPool.MemPool.CleanupAdd: under the same condition, as the new action is linked to that list.
- PoolState.RunHandlers: under the same condition.
- PoolArray.Array.Create: element size and initial count are at least 1, and their product does not wrap.
- Radix tree: masks are contiguous. The 128-bit form is left out: same shape, with byte indexes.
- Radix.Radix.Delete: is not called with an empty mask while the root has no child, where the code would follow a null parent.
- Calendar.Gmtime: the year is not narrowed to a C int, and times before 1970, which the code excludes, are left out.
- HashStream: the mixing of one 64-byte block is an arbitrary function of state and block.

Parts of the repository that are not modelled:

- m32 pool: the same algorithm with another integer width.
- ngx_hash, ngx_list, ngx_string, ngx_crc32, ngx_parse, ngx_queue, ngx_buf: only easier members, or claims with many side conditions.
- Events, connections, files, configuration, logging, resolver, process control: code around system calls.
- ngx_regex, ngx_crypt, ngx_cpuinfo: wrappers over libraries and CPU instructions.
