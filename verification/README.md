# Verified models of NFOS

NFOS runs packet-processing network functions on many cores. It rests on a set of hand-written index
structures and small concurrent protocols. This project models them in Dafny and proves, for each, that
it agrees with something simple: a finite map, longest-prefix match, a priority list, a sequential run, a
rate bound.

Code that changes state in place is modelled by classes and arrays whose methods are proved against
specification functions; concurrent protocols are step systems in which a schedule is an arbitrary
sequence of thread identifiers.

| file | what it models |
|---|---|
| `McsLock.dfy` | the MCS queue lock, one memory access per step |
| `Barrier.dfy`, `Migration.dfy` | the reusable barrier, and the two-barrier migration of the partition table |
| `PowersOfTwo.dfy`, `HashMap.dfy` | `next_pow2` and masks; the open-addressed map with chain counters |
| `LongestPrefixMatch.dfy`, `MultibitTrie.dfy`, `Mtrie.dfy`, `MtrieShared.dfy` | the IPv4 16-8-8 trie: its specification, what plies mean, the code, several tries on one pool |
| `Counting.dfy`, `ConsistentHash.dfy` | the Maglev-style consistent hash table |
| `CellLists.dfy`, `DchainExp.dfy`, `ConcurrentDchain.dfy` | rings and free lists threaded through one cell array; the transactional and the lock-based index allocator |
| `ConcurrentMap.dfy`, `PktSetManager.dfy`, `PktSetExpiry.dfy` | the chained map in the allocator's cells, the packet set manager, how long a packet set stays |
| `PktSetProtocol.dfy`, `PktSetSteps.dfy`, `PktSetCalls.dfy`, `PktSetRuns.dfy` | the manager's log-then-commit protocol as a step system, the manager as a run of it, what each call does to its core, and the run of every partition |
| `MacTable.dfy`, `MacClocks.dfy`, `MacRuns.dfy` | the bridge's MAC learning table, the client that keeps map, vectors and allocator coherent; clocks that are out of step; whole runs |
| `Bst.dfy`, `GreedyEpoch.dfy`, `Rebalancer.dfy`, `Improvement.dfy`, `EmptyTree.dfy` | index-linked search trees, epochs of greedy moves on loads alone, the load rebalancer as such epochs, what it achieves, on which calls it searches an empty tree |
| `Policer.dfy` | the token-bucket policer |
| `BatchModel.dfy`, `BatchLoop.dfy` | the batched packet loop with its undo log, as functions and in place |
| `Arithmetic.dfy` | facts about products, remainders and row-by-row tables |

Conventions. A multi-version RLU operation is atomic: it takes effect as a whole, or it aborts and changes
nothing. Its methods take the set of cells, entries or slots that other threads hold; an abort is possible
only when that set is not empty, and `locks` records the order of locking. Hash functions are arbitrary,
key comparison is equality. All interleavings are sequentially consistent. Every core reads its own clock
(src/include/timer.h), once for a round of polling (src/nf.c:123), so calls of different cores come with times
in any order; no method requires more than that the times of one core do not decrease.

## Where the code differs from what it says

- `exp_mac` does not reset `expiration_done` on a retry (nf/bridge/main.c:234-268). `MacTable.Bridge.ExpMac`
  keeps this: the pass takes effect exactly when the first end of its transaction succeeds, and
  `MacTable.FailedEndKeepsExpired` exhibits an expired MAC that survives.
- `exp_mac` looks at the first index of each ring only (src/double-chain-exp.c:405-418), and the cores' clocks
  can leave a ring unsorted, when a core renews an index on another core's ring. A pass removes expired MACs
  only, whatever the times are. `MacTable.PassIsComplete`: it removes all of them exactly when on no ring an
  expired index is behind a fresh one, which holds as long as the packets come in the order of their times;
  `MacClocks.LateClockKeepsExpired` exhibits an expired MAC that a clock behind another one leaves.
- Rejuvenating the only allocated index of a core returns 1 without writing its time
  (src/concurrent-double-chain-impl.c:294-298), although src/include/concurrent-double-chain.h:36 promises
  the update. `ConcurrentDchain.ConcurrentDoubleChain.RejuvenateIndex` states both cases. The packet set
  manager inherits it: a use of the only packet set of a partition is not recorded.
  `PktSetExpiry.ForgottenWhenAlone` says, over every run, exactly when a packet set is forgotten;
  `PktSetExpiry.LoneSetIsForgotten` exhibits one that is used within its validity and forgotten.
- The undo log of the batch loop is replayed from its start (src/data-plane.c:53-61), so that a state that
  was logged twice is not restored. `BatchModel.BatchCondition`: a batch of counting handlers ends as if
  its packets had been processed one at a time exactly when no two packets of anything that is rolled back
  share a state. `BatchModel.SafeIsSequential` covers all handlers; `BatchModel.TwoCountedAsThree` is a
  batch of two packets that is counted as three.
- After a missing `continue` (deps/vigor/nf-lb/lb_algo.c:101-102) the partition mover can search the empty
  tree of a core that is not overloaded and go on with `partitions[-1]`. The model moves nothing there and
  reports it. `Rebalancer.MovePartitions`: an epoch does so exactly when the greedy choice among
  the loads, `GreedyEpoch.Epoch`, meets a core without partitions. `Rebalancer.LbRebalancing`: a call
  never does on balanced loads or when at most one core is idle, and always does on the unbalanced loads that
  `Rebalancer.Trap` describes. `EmptyTree.ManyIdleCores` exhibits, for every number of idle cores from two on, a
  call on which it does, so at most one idle core is the best such bound; `EmptyTree.FourCores` has the core
  loads 0, 0, {26, 24}, {60}.
- A worker's counter of the partition to expire next is reset only when it is above the number of
  partitions (deps/vigor/nf.c:342-347, src/nf.c:325-332), so the worker reads `new_reta` one entry past the
  end. `Migration.NoTornReads`: it does so exactly in every last of 129 rounds, for 128 partitions;
  `Migration.ExpiryLeavesTable` exhibits a run. The model records such a lookup without a value.
- When the number of cores does not divide the number of indexes, the remaining indexes are on no list
  (src/double-chain-exp.c:104-120). The models keep this; `CellLists.UsableIsAll` says when nothing is lost.
- The policer's specification (deps/vigor/vigpol/spec.py) has no check of a new flow's packet against the
  burst size; the model follows the code (deps/vigor/vigpol/policer_main.c:77-80), and
  `Policer.DepartsFromSpecification` says on which packets the two differ.

## Model

| member | source | states |
|---|---|---|
| McsLock.StepKeepsInv | src/include/lock.h:47-81 | every memory access of lock and unlock by any thread keeps the queue invariant |
| McsLock.MutualExclusion | src/include/lock.h:47-81 | in every interleaving of any number of threads at most one is in the critical section |
| McsLock.FirstComeFirstServed | src/include/lock.h:54-68 | threads enter in exactly the order of their swaps on the tail |
| McsLock.SomeThreadCanStep | src/include/lock.h:47-81 | whenever the lock is taken, the head of the queue or the successor it waits for can move |
| McsLock.EveryThreadCanEnter | src/include/lock.h:47-81 | after any run every thread can still get the lock: it joins the queue by steps of its own, and those before it hand the lock over |
| Barrier.StepKeepsInv | deps/vigor/nf-lb/barrier.c:34-52 | every step keeps: arrivals are counted, and a thread that completes a round finds all others waiting |
| Barrier.BarrierIsSafe | deps/vigor/nf-lb/barrier.c:34-52 | in every interleaving no thread has left more barriers than any other thread has begun |
| Barrier.SomeThreadCanStep | deps/vigor/nf-lb/barrier.c:34-52 | the threads are never all stuck in the spin loop |
| Barrier.EveryThreadCanLeave | deps/vigor/nf-lb/barrier.c:34-52 | after any run every thread can still leave the barrier that it is in, or the next one |
| Migration.StepKeepsInv | deps/vigor/nf-lb/lb.c:265-284 | every step of load balancer and workers keeps the phases, the flag and the table versions consistent |
| Migration.WriterIsAlone | deps/vigor/nf-lb/lb.c:265-278 | while the table is written, every worker is between its two barrier calls |
| Migration.NoTornReads | deps/vigor/nf.c:337-382 | in every interleaving each lookup of an index of the table returns its entry in the complete table that belongs to the worker's migrations; the lookup for an expiration leaves the table exactly in every last of as many rounds as there are partitions, plus one |
| Migration.ReadIsCurrent | deps/vigor/nf.c:370-382 | after any run the lookup for a packet is that of the latest complete table |
| Migration.ExpiryLeavesTable | deps/vigor/nf.c:342-347 | every worker reads one entry past the end within its first rounds of expiration |
| Migration.SomeThreadCanMove | deps/vigor/nf-lb/lb.c:265-284 | while any thread takes part in a migration, some thread can move |
| Migration.VersionsAreRequests | deps/vigor/nf-lb/lb.c:260-278 | in every interleaving the complete tables are the first one and then exactly the ones asked for, in order, but for the last one while it is being written |
| Migration.RequestsAreScheduled | deps/vigor/nf-lb/lb.c:260-266 | these requests are entries of the schedule, in its order |
| Migration.MigrationIsSafe | deps/vigor/nf-lb/lb.c:265-284 | workers that process packets together use the same table, none waits for a migration the balancer does not carry out, and the table that is in force after the write is the one last asked for |
| PowersOfTwo.NextPow2IsSmallest | src/map.c:28-37 | the result is the smallest power of two not below the argument, or 0 when 32 bits overflow |
| PowersOfTwo.MaskIsModulo | src/map.c:66-74 | masking with a power of two minus one is the remainder |
| HashMap.ProbeIsMasked | src/map.c:71-73 | the masked probe index is the circular one |
| HashMap.ZeroChainEndsProbe | src/map.c:76-84 | stopping at an entry with chain count 0 never misses a key |
| HashMap.InsertKeepsInv | src/map.c:89-154 | adding the key keeps: each count is the number of keys whose probe passes over the entry, cached hashes are right, keys are unique |
| HashMap.RemoveKeepsInv | src/map.c:156-220 | removing a key keeps the same invariant |
| HashMap.SizeBound | src/map.c:89-154 | the map is full exactly when every entry is busy |
| HashMap.NfosMap.constructor | src/map.c:39-64 | an empty map whose size is the next power of two |
| HashMap.NfosMap.Get | src/map.c:66-87 | finds a key exactly when the finite map has it, with its value |
| HashMap.NfosMap.Put | src/map.c:89-154 | extends the finite map, is refused exactly when it is full, locks the changed entries once each in ascending order even when the probe wraps, and aborts without effect |
| HashMap.NfosMap.Erase | src/map.c:156-220 | removes the key, is refused exactly when it is absent, same locking order, aborts without effect |
| LongestPrefixMatch.BestIsLongestMatch | nf/common/mtrie.c:306-313 | folding the additions gives the last added among the longest covering routes, or adjacency 0 |
| LongestPrefixMatch.MaskedIsAnd | nf/common/mtrie.c:309-309 | the 32-bit mask clears the address bits below the prefix |
| MultibitTrie.ResolvesToTerminal | nf/common/mtrie.h:57-69 | every address resolves to a terminal leaf in at most three array reads |
| MultibitTrie.FilledSlotsAreCovered | nf/common/mtrie.c:93-105 | the slot loop of a ply visits exactly the slots that the route covers |
| MultibitTrie.PutKeepsPoolOk | nf/common/mtrie.c:104-160 | a slot write with the adjusted count keeps every ply in order: the count of non-empty slots is the number of slots with a length above the ply's base, and slots name plies of their own |
| MultibitTrie.Deepen | nf/common/mtrie.c:166-184 | hanging a fresh ply, filled with the slot's leaf, off a slot changes no lookup |
| MultibitTrie.OtherTrieKeeps | nf/common/mtrie.c:16-35 | an addition to one trie leaves the lookups of every other trie on the pool unchanged |
| Mtrie.PlyPool.PlyInit | nf/common/mtrie.h:143-171 | all slots of the new ply hold the leaf, and the count of non-empty slots is set |
| Mtrie.PlyPool.LookupStep | nf/common/mtrie.h:104-118 | one array read, which a terminal leaf short-cuts |
| Mtrie.PlyPool.SetPlyWithMoreSpecificLeaf | nf/common/mtrie.c:36-69 | pushing a leaf down improves exactly the less specific slots below the ply |
| Mtrie.PlyPool.SetLeaf | nf/common/mtrie.c:71-196 | afterwards every address below the ply resolves as the added route requires, and only plies below it have changed |
| Mtrie.Trie.constructor | nf/common/mtrie.c:4-9 | a trie without routes |
| Mtrie.Trie.SetRootLeaf | nf/common/mtrie.c:197-304 | the same for the whole trie, with at most two new plies and none for lengths up to 16 |
| Mtrie.Trie.RouteAdd | nf/common/mtrie.c:306-313 | the trie represents the longer list of routes; exact number of plies taken, all on the route's way; plies stay where they hang; other tries' plies untouched |
| MtrieShared.AddAll | nf/common/mtrie.c:306-313 | after any sequence of additions to any of several tries on one pool, every trie answers lookups by longest-prefix match over its own routes; tries without plies take exactly one for each 16-bit prefix of their routes longer than that and one for each such 24-bit prefix, others at most as many |
| MtrieShared.EnoughPlies | nf/common/mtrie.c:166-304 | an addition takes no ply that an earlier route of the trie has needed |
| MtrieShared.NoPliesToSpare | nf/common/mtrie.c:166-304 | and takes every other ply that its route needs |
| Mtrie.Trie.Lookup | nf/common/mtrie.h:57-118 | the adjacency of the longest match, the last added among equals, 0 if there is none |
| ConsistentHash.RowIsPermutation | src/cht.c:19-32 | for a prime height each backend's row is a permutation of the buckets |
| ConsistentHash.FavouriteIsFirst | src/cht.c:21-24 | a backend's first choice is bucket (31 * id mod 2^32) mod height, and no other |
| ConsistentHash.NextPreference | src/cht.c:23-28 | each next choice is (id mod (height - 1)) + 1 buckets further, around the table |
| ConsistentHash.AgreeOnce | src/cht.c:21-30 | two backends with different steps give exactly one bucket the same place |
| ConsistentHash.PriorityListIsUnique | src/cht.c:44-62 | ordering all backends by place, then id, determines a bucket's list |
| ConsistentHash.FillCht | src/cht.c:11-68 | every bucket gets that list, which begins with the least backend whose first choice the bucket is, if there is one; every slot is written exactly once and in bounds |
| ConsistentHash.ChosenIsBest | src/cht.c:70-88 | a backend is found exactly when any is active, and it precedes all other active ones |
| ConsistentHash.DeactivationIsLocal | src/cht.c:70-88 | deactivating another backend leaves the choice alone |
| ConsistentHash.ActivationIsLocal | src/cht.c:70-88 | activating a backend keeps the choice or moves it to that backend |
| ConsistentHash.FindPreferredAvailableBackend | src/cht.c:70-88 | the loop returns the first active backend of the hash's bucket |
| CellLists.UsableIsAll | src/double-chain-exp.c:104-120 | all indexes are usable exactly when the number of cores divides their number |
| CellLists.InitLists | src/double-chain-impl.c:10-63 | initialisation links the cores' shares into their free lists, all rings empty |
| CellLists.AllocatedByListInd | src/double-chain-exp.c:380-489 | `list_ind` is -1 exactly on free cells, and otherwise names the ring |
| CellLists.OnExactlyOneList | src/double-chain-impl.c:10-292 | every index is on exactly one ring, per-core free list or the global list, and there once |
| DchainExp.MigrationStep | src/double-chain-exp.c:163-203 | one migration to the global list keeps all lists linked and locks no cell twice |
| DchainExp.EmptySourceMeansFull | src/double-chain-exp.c:152-217 | when even the refilled global list is empty, every index is allocated |
| DchainExp.AllocationHolds | src/double-chain-impl.c:65-226 | an allocation, with or without refill, changes the state of the one index it returns |
| DchainExp.NewIsLatest | src/double-chain-exp.c:246-284 | an allocation at a time not before the latest one on its ring keeps every ring sorted by expiry time |
| DchainExp.LiftedIsLatest | src/double-chain-exp.c:289-371 | so does a rejuvenation |
| DchainExp.ExpiryKeepsSorted | src/double-chain-exp.c:380-477 | so does an expiration |
| DchainExp.NfosDoubleChainExp.constructor | src/double-chain-exp.c:31-123 | an allocator with all lists linked and nothing allocated |
| DchainExp.NfosDoubleChainExp.AllocateNewIndex | src/double-chain-exp.c:125-287 | appends a free index to the core's ring with its expiry time; returns nothing only when all are allocated; aborts without effect; no cell locked twice |
| DchainExp.NfosDoubleChainExp.RejuvenateIndex | src/double-chain-exp.c:289-371 | succeeds exactly on allocated indexes, moves the index to its ring's end and renews its time |
| DchainExp.NfosDoubleChainExp.ExpireOneIndex | src/double-chain-exp.c:380-477 | frees the oldest index of the current ring if its time has passed, else turns to the next ring |
| DchainExp.NfosDoubleChainExp.FreeIndex | src/double-chain-impl.c:228-292 | frees an allocated index, whichever ring it is on, into the core's free list |
| DchainExp.NfosDoubleChainExp.IsIndexAllocated | src/double-chain-exp.c:479-489 | tells whether the index is on a ring |
| MacTable.IndexedExactlyWhenAllocated | nf/bridge/main.c:134-202 | the map sends a MAC to an index exactly when the index is allocated and stores the MAC |
| MacTable.RoomWhileFree | nf/bridge/main.c:170-200 | an insertion after a successful allocation finds room in the map |
| MacTable.LeftIsTrimmed | nf/bridge/main.c:228-271 | what a pass removes has expired, in whatever order the times are |
| MacTable.PassIsComplete | nf/bridge/main.c:228-271 | a pass leaves exactly the fresh entries if and only if on no ring an expired index is behind a fresh one |
| MacTable.Bridge.PktHandler | nf/bridge/main.c:134-223 | at any time of any core: learning, refreshing and forwarding on the table of known MACs, with the index put to the end of its ring; an aborted packet changes nothing |
| MacTable.Bridge.Forget | nf/bridge/main.c:249-263 | erasing the MAC of an expired index always finds its key and keeps all structures coherent |
| MacTable.Bridge.ExpMac | nf/bridge/main.c:228-271 | the pass terminates; if the first attempt that reaches the end of its transaction is valid there, it removes from each ring the expired indexes before the first fresh one, and changes nothing otherwise; only expired entries go, and all of them exactly when none is behind a fresh one; sorted rings stay sorted; all attempts before that first one met a held object |
| MacClocks.HandledStaysSorted | nf/bridge/main.c:134-202 | a packet whose time is not before the latest one on the ring it goes to keeps all rings sorted |
| MacClocks.LateClockKeepsExpired | nf/bridge/main.c:228-271 | a packet of a core whose clock is behind another one's makes a pass leave an expired MAC |
| MacRuns.Serve | nf/bridge/main.c:134-271 | over every run, with packets of all cores at any times and any contention: each packet is aborted, or enters its source's device and time while there is room and goes where the table says; each pass removes expired entries only, and exactly these when the packets before it came in the order of their times |
| MacRuns.SentWhereLearned | nf/bridge/main.c:134-219 | over every run: a packet is sent only to a device at which a packet from its destination came in |
| MacRuns.LearnedIsReached | nf/bridge/main.c:134-271 | over every run: until a pass comes after the expiry time, packets to a learned MAC go to the device from which it was learned |
| MacTable.FailedEndKeepsExpired | nf/bridge/main.c:234-268 | a pass whose first end of transaction fails leaves an expired MAC behind |
| ConcurrentDchain.ConcurrentDoubleChain.HasFreeIndexes | src/concurrent-double-chain-impl.c:88-95 | tells whether the core's own free list is non-empty |
| ConcurrentDchain.ConcurrentDoubleChain.AllocateLocal | src/concurrent-double-chain-impl.c:97-129 | succeeds exactly when the own free list is non-empty; moves its first index to the ring |
| ConcurrentDchain.ConcurrentDoubleChain.FillGlobal | src/concurrent-double-chain-impl.c:133-159 | moves the core's first free index, if any, to the global list |
| ConcurrentDchain.ConcurrentDoubleChain.AllocateGlobal | src/concurrent-double-chain-impl.c:161-220 | takes an index from the global list, refilled if empty; fails only when all are allocated |
| ConcurrentDchain.ConcurrentDoubleChain.AllocateNewIndex | src/concurrent-double-chain.c:49-60 | local allocation when the own free list is non-empty, else global |
| ConcurrentDchain.ConcurrentDoubleChain.FreeIndex | src/concurrent-double-chain-impl.c:222-263 | succeeds exactly on indexes of the core's ring |
| ConcurrentDchain.ConcurrentDoubleChain.HasExpiredIndex | src/concurrent-double-chain.c:86-98 | the oldest index and whether its time is below the border |
| ConcurrentDchain.ConcurrentDoubleChain.RejuvenateIndex | src/concurrent-double-chain-impl.c:280-320 | succeeds exactly on indexes of the core's ring; renews the time unless the index is alone there |
| ConcurrentDchain.ConcurrentDoubleChain.IsIndexAllocated | src/concurrent-double-chain-impl.c:322-344 | tells whether the index is on the core's ring |
| ConcurrentMap.BucketIdIsMasked | src/concurrent-map.c:56-58 | mask and shift give a bucket in the partition's range |
| ConcurrentMap.BucketsAreDisjoint | src/concurrent-map.c:56-58 | the bucket ranges of different partitions do not overlap |
| ConcurrentMap.PutKeepsInv | src/concurrent-map.c:78-100 | chains stay acyclic, disjoint and end in -1; cells outside chains have link -1; keys are unique per partition |
| ConcurrentMap.EraseKeepsInv | src/concurrent-map.c:102-125 | the same for removal |
| ConcurrentMap.ConcurrentMap.Get | src/concurrent-map.c:55-76 | finds a key exactly when the partition stores it, with its index |
| ConcurrentMap.ConcurrentMap.Put | src/concurrent-map.c:78-100 | adds the key to its partition and changes no other partition |
| ConcurrentMap.ConcurrentMap.Erase | src/concurrent-map.c:102-125 | removes the key from its partition and changes no other partition |
| PktSetManager.StoredExactlyWhenOnRing | src/pkt-set-manager.c:99-205 | a partition's map holds exactly the ids of its allocated indexes |
| PktSetManager.PktSetManager.AddPktSetLog | src/pkt-set-manager.c:87-97 | logs exactly when the core's own free list is non-empty |
| PktSetManager.PktSetManager.AddPktSetCommit | src/pkt-set-manager.c:99-126 | registers the packet set with the logged state by a local allocation, and changes no other partition; the time need only be not before the core's own last one |
| PktSetManager.PktSetManager.GetPktSetState | src/pkt-set-manager.c:128-148 | finds exactly the registered packet sets; records the use unless the packet set is its partition's only one |
| PktSetManager.PktSetManager.DeleteExpiredPktSets | src/pkt-set-manager.c:150-205 | forgets exactly the packet sets of the partition without a recorded use since the border time, oldest first; terminates |
| PktSetManager.AloneInPartition | src/concurrent-double-chain-impl.c:294-298 | equal links, by which the allocator recognises a lone index, single out the only packet set of a partition |
| PktSetExpiry.UseThenExpire | src/pkt-set-manager.c:128-205 | a packet set used since the border time stays registered exactly when it was not its partition's only one or had an earlier recorded use since then |
| PktSetExpiry.ForgottenWhenAlone | src/pkt-set-manager.c:128-205 | over every run of a partition, whose times are those of its core: a check forgets a packet set exactly when it was not registered within the validity and every use within the validity found it alone |
| PktSetCalls.FreeWhileRoom | src/pkt-set-manager.c:87-97 | a core that runs a handler has a free index exactly when its partition has fewer packet sets than the core's share of indexes |
| PktSetCalls.Serve | src/pkt-set-manager.c:83-205 | over any interleaved calls of all cores: what each call does to its core's phase, log and packet sets, and that it does nothing to other cores |
| PktSetCalls.AddedIsRegistered | src/pkt-set-manager.c:83-126 | a packet set that a handler adds while there is room is registered with its state by the commit, whatever other cores do in between |
| PktSetRuns.RunsGoOn | src/pkt-set-manager.c:87-205 | a call adds to the run of its core's partition what it tells of and leaves the runs of all other partitions alone |
| PktSetRuns.Serve | src/pkt-set-manager.c:87-205 | any calls of all cores, interleaved at will as long as no core's own clock goes backwards, take every partition of a manager without packet sets through such a run, which ends with the packet sets that the manager holds for it |
| PktSetExpiry.LoneSetIsForgotten | src/concurrent-double-chain-impl.c:294-298 | the only packet set of a partition is found within its validity and then forgotten |
| PktSetProtocol.StepKeepsInv | src/pkt-set-manager.c:83-126 | every step of every core keeps: a logged addition still has a free index, and no core uses the global list |
| PktSetProtocol.CommitsAreLocal | src/concurrent-double-chain-impl.c:88-220 | in every interleaving commits allocate locally, the global refill is never entered, and each core keeps exactly the indexes of its share |
| PktSetSteps.InstalledIsSteps | src/concurrent-double-chain-impl.c:97-129 | a local allocation is two steps of the protocol |
| PktSetSteps.FreedIsSteps | src/concurrent-double-chain-impl.c:222-263 | freeing the oldest index is two steps |
| PktSetSteps.LiftedIsStep | src/concurrent-double-chain-impl.c:280-320 | a rejuvenation is one step |
| PktSetSteps.CommitIsReady | src/pkt-set-manager.c:99-126 | the protocol's invariant gives what a commit demands: a free index of the core's own, and an unregistered packet set |
| PktSetSteps.Serve | src/pkt-set-manager.c:83-205 | whatever packets arrive at which cores, in any interleaving of calls in which no core's own clock goes backwards, a running manager goes through a run of the protocol and all its methods are called as they must be |
| PktSetSteps.ServeFirst | src/pkt-set-manager.c:50-205 | so does a new manager, from the protocol's initial state |
| Bst.InsertedIsOrdered | deps/vigor/nf-lb/bst.c:3-41 | insertion keeps left < node <= right and adds exactly the index |
| Bst.DeletedIsOrdered | deps/vigor/nf-lb/bst.c:70-150 | deletion, also of a node with two children and among equal loads, keeps the order and removes exactly the index |
| Bst.Insert | deps/vigor/nf-lb/bst.c:3-41 | the links represent the tree with the index inserted; a partition without load is not inserted; other links unchanged |
| Bst.Search | deps/vigor/nf-lb/bst.c:46-68 | the greatest load not above the target, else the least load, else -1 |
| Bst.Delete | deps/vigor/nf-lb/bst.c:70-150 | the links represent the tree with the index deleted; other links unchanged; 1 exactly on the empty tree |
| Rebalancer.LoadIsConserved | deps/vigor/nf-lb/lb_algo.c:16-136 | under every mapping the cores together carry the total load |
| Rebalancer.LastIsHeaviest | deps/vigor/nf-lb/lb_algo.c:57-61 | after sorting, the last core has the greatest load of the mapping |
| Rebalancer.MovePartition | deps/vigor/nf-lb/lb_algo.c:113-121 | moving a partition changes its core and keeps trees, roots and loads in agreement with the mapping |
| Rebalancer.MoveOne | deps/vigor/nf-lb/lb_algo.c:104-122 | one search and move: it meets an empty tree exactly on a core without load, leaves a core's only loaded partition, and otherwise moves one partition from the overloaded to the underloaded core |
| Rebalancer.GiveIsGreedy | deps/vigor/nf-lb/lb_algo.c:104-122 | on nothing but the loads, a search in the tree and its move is the greedy choice: the greatest load that fits, else the least one, unless it is all that the core carries |
| Rebalancer.MovePartitions | deps/vigor/nf-lb/lb_algo.c:91-128 | an epoch of moves terminates, keeps every partition on one core and makes no core idle; its loads are those of the greedy moves, whatever the trees; it searches an empty tree if and only if these meet a core without partitions; then all cores up to the average load, at least two, are idle |
| GreedyEpoch.EpochSettles | deps/vigor/nf-lb/lb_algo.c:91-128 | greedy moves bring all cores that were not overloaded up to the average, or relieve all that were |
| Improvement.EpochBalances | deps/vigor/nf-lb/lb_algo.c:91-128 | the same of the mappings before and after an epoch: the overloaded cores come down to the average or keep a partition that makes up their load |
| Rebalancer.Iterate | deps/vigor/nf-lb/lb_algo.c:44-130 | the mappings that it goes through are each an epoch of greedy moves from the one before; it saves exactly those with a smaller greatest load than all earlier ones, at most eleven; it ends exactly when the load is good enough, the eleventh is saved, or two in a row are no better |
| Improvement.FinalIsBest | deps/vigor/nf-lb/lb_algo.c:44-136 | the final mapping has the smallest greatest load of all mappings gone through |
| Improvement.WhyItStops | deps/vigor/nf-lb/lb_algo.c:62-86 | a call gives up only with good enough loads, with eleven saved mappings, or when two epochs of greedy moves from the final mapping lead to none that is better |
| Rebalancer.GreedyClimbs | deps/vigor/nf-lb/lb_algo.c:44-136 | an unbalanced call makes the heaviest core lighter if one epoch of greedy moves does, in whatever order of equally loaded cores |
| Rebalancer.LbRebalancing | deps/vigor/nf-lb/lb_algo.c:16-136 | all this of a whole call; returns 1 exactly when the final mapping's greatest load is below the initial one, and otherwise leaves the mapping unchanged; leaves the array exactly when one of its epochs of greedy moves meets a core without partitions, which happens on no balanced call and with no more than one idle core, and on the unbalanced loads described by `Trap` |
| Improvement.FourOnOneOfTwo | deps/vigor/nf-lb/lb_algo.c:44-136 | a call with four equal partitions on one of two cores returns 1 |
| EmptyTree.Rebalance | deps/vigor/nf-lb/lb_algo.c:16-136 | the same for a call with a given mapping and given loads, by the number of idle cores |
| EmptyTree.FourCores | deps/vigor/nf-lb/lb_algo.c:100-122 | with core loads 0, 0, {26, 24}, {60} an empty tree is searched |
| EmptyTree.ManyIdleCores | deps/vigor/nf-lb/lb_algo.c:100-122 | for every number of idle cores from two on there is a call on which an empty tree is searched |
| Policer.CheckKeepsTable | deps/vigor/vigpol/policer_main.c:34-103 | buckets stay within [0, burst], their times in the past, and the table within its capacity |
| Policer.PolicerTable.CheckTb | deps/vigor/vigpol/policer_main.c:34-103 | computes the specified new table and decision; the source's assertions hold |
| Policer.PolicerTable.Process | deps/vigor/vigpol/policer_main.c:111-145 | expiry, then the decision by device: LAN packets go to the WAN, others than LAN and WAN packets back; a WAN packet whose destination has credit for one byte more goes to the LAN, if the table has room or an expired entry |
| Policer.DepartsFromSpecification | deps/vigor/vigpol/spec.py:20-45 | code and specification differ exactly on a packet above the burst size to a new destination while there is room; the specification would overdraw the new bucket |
| Policer.PacketPays | deps/vigor/vigpol/policer_main.c:22-103 | what a packet forwards is paid for by its destination's credit, up to the rounding of a full refill; expiry and re-creation give nothing away |
| Policer.PacketKeepsCredit | deps/vigor/vigpol/policer_main.c:22-103 | a packet costs its destination what it forwards and less than one token, and other destinations nothing; so a dropped one costs less than a token |
| Policer.EnoughCreditIsForwarded | deps/vigor/vigpol/policer_main.c:34-138 | a packet is forwarded when its destination has credit for it and one byte more, and there is room |
| Policer.RateBound | deps/vigor/vigpol/policer_main.c:22-103 | over any window M * bytes <= M * burst + rate * (time + full refills), without the last term when the rate divides M * burst |
| Policer.ServiceBound | deps/vigor/vigpol/policer_main.c:22-103 | over any window in which a destination's bucket is never full, rate * time <= M * (bytes + packets) + the growth of its credit |
| BatchModel.DistinctLogRestores | src/data-plane.c:44-61 | when the logged pointers are pairwise distinct the rollback restores the states, whatever each packet's handler does and whatever the failing one leaves behind |
| BatchModel.RollbackCondition | src/data-plane.c:53-61 | an aborted attempt of counting handlers is undone exactly when the logged pointers are pairwise distinct |
| BatchModel.SafeIsSequential | src/data-plane.c:141-245 | a batch has the effect of processing its packets one at a time when no two packets of anything that is rolled back share a state |
| BatchModel.BatchCondition | src/data-plane.c:141-245 | for counting handlers exactly then |
| BatchModel.AfterIsOneByOne | src/data-plane.c:155-241 | one-at-a-time processing hands each packet of a registered packet set its state and stores what the handler makes of it, and enters an unknown one with the state that its handler chooses |
| BatchModel.NextIsHandled | src/data-plane.c:170-241 | the next packet of a packet set that has been entered is handled with the state entered |
| BatchModel.StateIsKept | src/data-plane.c:155-241 | between its own packets a packet set stays registered with its state |
| BatchModel.TwoCountedAsThree | src/data-plane.c:206-241 | two packets of one packet set and one abort at the end of their transaction raise the counter by three |
| BatchModel.RestorableIsDistinctIds | src/data-plane.c:188-204 | packets of a range share no state exactly when they belong to pairwise distinct packet sets |
| BatchModel.RepeatsApart | src/data-plane.c:155-204 | a packet set may come again in a batch without harm when a packet of an unknown one comes in between |
| BatchLoop.DataPlane.Rollback | src/data-plane.c:53-61 | the loop replays the log from its start |
| BatchLoop.DataPlane.Attempt | src/data-plane.c:206-241 | one attempt leaves the states, the log and the devices of running the handlers in turn, up to the one that gives up |
| BatchLoop.DataPlane.RunRange | src/data-plane.c:206-241 | the exact world and devices of a range after any number of aborts; its one-at-a-time effect when no two packets of what is rolled back share a state |
| BatchLoop.DataPlane.RunUnknown | src/data-plane.c:155-184 | an unknown packet runs its handler once, after any aborts, and is entered with the state that the handler chooses, if any and if there is room; nothing else changes; its device is the chosen one |
| BatchLoop.DataPlane.ProcessPkt | src/data-plane.c:141-245 | the exact world of a batch under any finite aborts; when no two packets of anything that is rolled back share a state, the world and the chosen devices are those of handing the packets to their handlers one at a time |

## Left out

- BatchLoop.DataPlane.ProcessPkt: only batches with packet set state; a batch without packet set state is one transaction whose restart (src/data-plane.c:116-137) is not modelled. The index range is taken to fit the batch arrays, and looking up a packet set does not renew its time.
- MacTable.Bridge.PktHandler: the packet's bytes and the sending of the packet are reduced to MACs, device numbers and a verdict.
- HashMap.NfosMap.Put: the key must not be in the map yet, as for every caller.
- Mtrie.Trie.RouteAdd: a route of length 0 must have address 0, because the source shifts a 32-bit value by 32 there (nf/common/mtrie.c:309); the pool must have room, which the source asserts.
- ConsistentHash.FillCht: requires a prime height, as the design of the table does.
- CellLists.InitLists: at least as many indexes as cores, because the source's loop steps by their quotient.
- ConcurrentDchain.ConcurrentDoubleChain.AllocateGlobal: locked sections are atomic, and the time fields that initialisation leaves unset are set.
- ConcurrentMap.ConcurrentMap.Put: the key and the index must not be stored yet, as for its only caller.
- ConcurrentMap.ConcurrentMap.Erase: the key must be stored, as for its only caller; the source has no answer for an absent key.
- PktSetManager.PktSetManager.DeleteExpiredPktSets: the network function's handler for expired packet sets, which is retried until it commits, is not called.
- PktSetManager.PktSetManager.AddPktSetCommit: a logged addition must have a free index, and its id must be unregistered; `PktSetSteps.Serve` shows that both always hold. The links and ids that the source keeps in the allocator's cells are arrays beside them.
- PktSetSteps.Serve: calls of the manager are atomic there; the protocol itself has finer steps.
- Rebalancer.LbRebalancing: what a call does after it has gone on with `partitions[-1]`; the order of equally loaded cores is left open. `qsort` is a selection sort with the same contract; the total load must fit a 32-bit integer.
- Bst.Delete: the index must be in the tree, as for its only caller.
- Policer.PolicerTable.CheckTb: the libvig map, vectors and allocator are one finite map with last-use times; 64-bit overflow of rate times time is not modelled.
- Related packet sets, marked as a temporary hack in src/pkt-set-manager.c.
- Overflow of times, loads and counters; failing memory allocation; 16-bit partition indexes.
- The internals of multi-version RLU, weak memory effects and fences.
- Packets forwarded through `work_rings` (deps/vigor/nf.c:382-392), which a later migration may overtake.
- NIC, RSS and flow-rule set-up, packet parsing and checksums, vectors, timers, profilers, configuration parsers, the other network functions and the specification translator.
