# Theia offline analysis: a Dafny model

A Dafny model of the hardest logic in the Theia offline-analysis repository, and
proofs about it, in four parts.

1. **The set-associative cache simulator** (`taint64/pin/include/pin_cache.H`).
   `Bits` and `Geometry` hold the word arithmetic, with `&` defined bit by bit;
   `CacheSets` the two set policies; `CacheModel` the transition system of the
   public operations; `CacheObject` the object that updates its sets and counters
   in place, proved equal to that transition system call by call. `FifoCache` is a
   much simpler cache, one bounded queue per set; every run of the simulator, with
   either policy, is shown to behave as it does. `AccessLoop`, `FifoTheorems` and
   `CacheTheorems` then prove laws of whole runs, `RepeatedAccess` when an access hits
   the second time, and `NewCaches` applies them to a cache object as its constructor
   leaves it.
2. **Lock-free and blocking synchronisation** (`taint64/pin/include/atomic`,
   `taint64/pin/include/sync`): the counted LIFO queue (`LifoStack`), the LIFO queue
   that marks pointers (`LifoPtr`), the identifier set (`IdSet`), the two of them
   together as they are used (`LifoQueue`, `LifoProgress`), the futex lock
   (`SimpleLock`), the reader/writer lock with its semaphore (`ReaderWriterLock`), and
   that lock run on the futex lock (`FutexReaderWriter`), each a state machine whose
   steps are single atomic accesses of any number of threads, under sequential
   consistency.
3. **The key compressor** of `taint64/pin/include/pin_profile.H`.
4. **The replay server** (`theia-replay-server/replay_server`): the UUID printer and
   parser, the checkpoint decoder, the process index and its lookup, the choice of
   what to replay, the timestamp filters, the loader of query paths into the
   relational tables, what the tables then hold (`LoadedTables`), and the way from the
   paths to the replays (`TaintQuery`). Tables are sequences of rows; the graph
   database's answers are inputs.

`dafny verify dfyconfig.toml` checks the whole project.

## What the code does not promise

Where a property one would expect is false of the code, the model keeps the code
and a lemma gives the exact condition.

- The loop of `Access` ends if and only if `(addr + size) mod 2^64` is at most the
  start of the last line (`LoopHaltsIff`); four bytes at 2^64 - 8 with 64-byte lines
  never return (`EndlessAccess`). A call that returns visits exactly the lines of its
  bytes if and only if it crosses the top of the address space exactly when it starts
  in the last line (`VisitedExactIff`); a zero-byte access at the start of the last
  line visits every line there is.
- The cache constructor accepts a cache smaller than one set; set indices then leave
  the array (`SetIndexInBoundsIff`, with a geometry and an address in `NoSetEscapes`).
  `Flush` starts one past the sets in use and, from 2^31 sets on, clears nothing
  (`FlushEmptiesIff`; in `FlushClearsNothing` a loaded line survives it).
- Tag 0 means "empty", so line 0 hits in a new cache (`LineZeroHits`). The misses of a
  fitting load trace are its distinct lines other than line 0, hence its distinct
  lines if and only if it does not touch line 0 (`CompulsoryMisses`).
- `CeilLog2(0)` is 32; the comment above it says -1.
- The counted LIFO queue tolerates any stall of pushes and clears. All its runs whose
  pops stall for at most b modifications are linearizable if and only if b is below
  2^CounterBits, for every counter width (`StallBoundIff`).
- `IDSET::GetID` scales the word index by the bytes of a word, so identifiers are
  unique if and only if MaxID is at most 32 (`UniqueIff`). The pointer-marking LIFO
  queue takes the identifiers of its pops from there: all its runs, without any bound
  on stalls, are linearizable if and only if it has at most five low bits
  (`LinearizableIff`).
- Both LIFO queues are documented as non-blocking. The counted one is: while no
  operation completes, no thread takes more than four steps (`ThreadNonBlocking`). In
  the pointer-marking one two pops can replace each other's marks for ever
  (`Livelock`); the bound holds with one pop at a time (`OnePopNonBlocking`), so the
  queue is non-blocking if and only if it has a single low bit (`NonBlockingIff`).
- The compressor only reserves room: there is a counter for every key if and only if
  the keys fit the initial length (`CountersForAllKeysIff`, with one key too many in
  `KeyWithoutCounter`).
- The path filters never look at the time of a single edge (`ForwardEndIff`,
  `BackwardStartIff`), the forward filter ignores `start` and the backward filter `end`,
  although the documentation promises that no event outside the interval is involved.
  `ForwardIntervalIff` and `BackwardIntervalIff` say exactly which accepted paths keep
  to both ends, and `OutsideAccepted` gives paths that miss each of them.
- `unpack_ckpt` drops the last byte of the name whatever it is; a file is what would be
  written for its checkpoint if and only if that byte is there and zero
  (`PackUnpackedIff`, `UnterminatedReads`).
- A host with a dash hides the object from `strip_host` (`StripHostIff`).
- A process name is the pid followed by the executable's name, which tells the
  process only for few of them (`UnambiguousIff`), and always between names that do
  not start with a digit. No log is replayed twice if and only if no two processes of
  the query share a name that the index knows (`NoLogTwiceIff`); two do in
  `OneLogTwice`.
- A missing subject, file or netflow becomes the text `None` in a subgraph row. A
  reference has its row if and only if one of the two nodes of its hop is of that type
  or a node named `None` is stored (`ReferenceHasRowIff`); after a process reads a
  file, the netflow of the row is not there (`ReadDangles`).

## Model

| member | source | states |
|---|---|---|
| Geometry.FloorLog2 | taint64/pin/include/pin_cache.H:60-73 | The five masked halvings find p with 2^p <= n < 2^(p+1); -1 at 0 |
| Geometry.CeilLog2 | taint64/pin/include/pin_cache.H:80-83 | The least p with n <= 2^p; 32 at 0 |
| Geometry.IsPower2Meaning | taint64/pin/include/pin_cache.H:50-53 | The mask test accepts exactly 0 and the powers of two |
| Geometry.NumSetsIsQuotient | taint64/pin/include/pin_cache.H:293-303 | The wrapped mask arithmetic gives cacheSize divided by the bytes of a set, and at least one set exactly when one fits |
| Geometry.SplitAddressLaw | taint64/pin/include/pin_cache.H:267-278 | addr = tag * lineSize + lineIndex and setIndex = tag mod NumSets() < MAX_SETS, for every accepted geometry with a set |
| Geometry.SameTagIffSameLine | taint64/pin/include/pin_cache.H:267-271 | Two addresses share a tag if and only if they lie in one line |
| Geometry.SetIndexInBoundsIff | taint64/pin/include/pin_cache.H:293-303 | Under the constructor's assertions all set indices are in the array if and only if the cache holds a set |
| Geometry.AcceptedIff | taint64/pin/include/pin_cache.H:293-303 | The assertions on the mask let through exactly the line sizes that are powers of two and the quotients that are and fit MAX_SETS, 0 included in both |
| Geometry.NoSetEscapes | taint64/pin/include/pin_cache.H:267-303 | An accepted geometry without a set, and an address whose set index leaves the array |
| CacheSets.FindIsMembership | taint64/pin/include/pin_cache.H:157-170 | Find is membership in the replacement queue |
| CacheSets.ReplaceIsEnqueue | taint64/pin/include/pin_cache.H:172-180 | Writing at the decreasing, wrapping index drops the oldest entry and appends the new one |
| CacheSets.FlushIsEmptyQueue | taint64/pin/include/pin_cache.H:181-188 | A flushed set stands for the all-empty queue |
| CacheSets.RingRefinesFifo | taint64/pin/include/pin_cache.H:109-188 | Over every operation sequence a set of either policy answers as a bounded FIFO queue, and its index stays among the used slots |
| CacheSets.RoundRobinSet.constructor | taint64/pin/include/pin_cache.H:137-147 | Everything the assertion lets through gives an all-empty ring with its index at the wrapped last slot; it is usable if and only if the associativity is from 1 to 2^31 |
| CacheSets.RoundRobinSet.SetAssociativity | taint64/pin/include/pin_cache.H:149-154 | Changes the ways in use, keeps the tags, for everything the assertion lets through; usable if and only if from 1 to 2^31 |
| CacheSets.RoundRobinSet.Find | taint64/pin/include/pin_cache.H:157-170 | The downward search finds a tag exactly when a used slot holds it |
| CacheSets.RoundRobinSet.Replace | taint64/pin/include/pin_cache.H:172-180 | The in-place update is the ring's Replace |
| CacheSets.RoundRobinSet.Flush | taint64/pin/include/pin_cache.H:181-188 | Clears the used slots, resets the index, keeps the unused slots |
| CacheSets.DirectMappedSet.Find | taint64/pin/include/pin_cache.H:120-120 | Compares the one stored tag |
| CacheSets.DirectMappedSet.Replace | taint64/pin/include/pin_cache.H:121-121 | Stores the tag |
| CacheSets.DirectMappedSet.Flush | taint64/pin/include/pin_cache.H:122-122 | Clears the tag |
| CacheModel.NextLineLaw | taint64/pin/include/pin_cache.H:408-428 | The masked step is the next line number, wrapping to 0 after the last |
| CacheObject.NewSetIsEmpty | taint64/pin/include/pin_cache.H:137-154 | A new set of either policy is an empty queue of its ways |
| CacheObject.Cache.constructor | taint64/pin/include/pin_cache.H:293-387 | Every accepted geometry with a set gives empty sets of the right ways, disjoint in memory, and zero counters |
| CacheObject.Cache.SplitAddress | taint64/pin/include/pin_cache.H:267-271 | Shift and mask give the line number and its remainder modulo the sets |
| CacheObject.Cache.TouchRange | taint64/pin/include/pin_cache.H:405-430 | The do-while loop ends and equals visiting the lines of Visited in order |
| CacheObject.Cache.Access | taint64/pin/include/pin_cache.H:403-435 | New state and result are exactly the transition system's |
| CacheObject.Cache.AccessSingleLine | taint64/pin/include/pin_cache.H:441-461 | New state and result are exactly the transition system's |
| CacheObject.Cache.Flush | taint64/pin/include/pin_cache.H:466-473 | New state is the transition system's, including the extra set and the signed index |
| CacheObject.Cache.ResetStats | taint64/pin/include/pin_cache.H:476-484 | New state is the transition system's |
| CacheObject.Cache.SumAccess | taint64/pin/include/pin_cache.H:233-243 | The sum over the access types |
| AccessLoop.LoopHaltsIff | taint64/pin/include/pin_cache.H:405-430 | Some number of iterations leads out of the loop if and only if the wrapped end is at most the last line's start |
| AccessLoop.EndlessAccess | taint64/pin/include/pin_cache.H:405-430 | A concrete access whose loop never ends |
| AccessLoop.VisitsExactlyTheRange | taint64/pin/include/pin_cache.H:405-430 | A range below the last line: exactly its lines, each once, increasing, one line for size 0 |
| AccessLoop.VisitedExactIff | taint64/pin/include/pin_cache.H:405-430 | The exact condition under which the visited lines are those of the bytes, the address space being a ring |
| FifoCache.RunRefinesFifo | taint64/pin/include/pin_cache.H:370-484 | Every run of the simulator returns what the FIFO cache returns and ends in its queues |
| FifoTheorems.TraceDecomposition | taint64/pin/include/pin_cache.H:415-426 | A set after any trace holds what it would hold run alone on its own lines |
| FifoTheorems.OneSlotPerLine | taint64/pin/include/pin_cache.H:267-271 | After any trace a line occupies at most one slot of the whole cache |
| FifoTheorems.EntryAges | taint64/pin/include/pin_cache.H:172-180 | An entry moves one place per insertion and not on hits |
| FifoTheorems.ExactLifetime | taint64/pin/include/pin_cache.H:419-426 | An inserted line stays through the next ways-1 insertions into its set and is gone after one more |
| FifoTheorems.VisitsMakeResident | taint64/pin/include/pin_cache.H:415-426 | Allocating visits to lines of different sets leave them all resident |
| FifoTheorems.OnlyFirstVisitsMiss | taint64/pin/include/pin_cache.H:450-458 | While the lines fit, exactly the first visits to lines other than 0 miss |
| CacheTheorems.AccessIsFold | taint64/pin/include/pin_cache.H:403-461 | Access leaves the sets that single-line accesses to its lines in order leave, and returns whether all hit |
| CacheTheorems.OneLineAccessAgrees | taint64/pin/include/pin_cache.H:403-461 | On a range inside one line, also one that ends at 2^64, both entry points agree on sets, result and counters |
| CacheTheorems.Conservation | taint64/pin/include/pin_cache.H:257-262 | Hits plus misses is the number of calls since the last reset, per type and in total |
| CacheTheorems.ConservationWithoutReset | taint64/pin/include/pin_cache.H:257-310 | Without a reset, as from construction on, the counts grow by the calls |
| CacheTheorems.CountersAreTally | taint64/pin/include/pin_cache.H:432-484 | The counters depend only on the operations and their results |
| CacheTheorems.HitsAreTrueResults | taint64/pin/include/pin_cache.H:432-458 | In every run without a reset, the hits of each access type grow by the calls of that type that returned true and its misses by those that returned false |
| CacheTheorems.FlushesCounted | taint64/pin/include/pin_cache.H:466-484 | Flushes and resets are counted over every run, modulo 2^32 |
| CacheTheorems.StoresWithoutAllocation | taint64/pin/include/pin_cache.H:422-426 | Under no-allocate no store changes any set |
| CacheTheorems.StoreAllocates | taint64/pin/include/pin_cache.H:450-458 | With STORE_ALLOCATE a missing store drops the oldest entry of its set, appends its line and leaves it found |
| CacheTheorems.StoresAsLoads | taint64/pin/include/pin_cache.H:403-461 | With STORE_ALLOCATE every run returns the same and ends in the same sets when all its stores are loads |
| CacheTheorems.SameQueuesSameRun | taint64/pin/include/pin_cache.H:370-484 | Caches standing for equal queues return the same in every run |
| CacheTheorems.DirectMappedIsOneWay | taint64/pin/include/pin_cache.H:109-189 | Direct-mapped and one-way round-robin caches return and count the same for every operation sequence |
| CacheTheorems.FlushMakesNew | taint64/pin/include/pin_cache.H:466-473 | After any run and a flush, every further run returns what it returns on a new cache; the flush keeps the counters |
| CacheTheorems.FlushEmptiesIff | taint64/pin/include/pin_cache.H:466-473 | Flush empties a non-empty cache if and only if it has fewer than 2^31 sets |
| CacheTheorems.FlushReach | taint64/pin/include/pin_cache.H:466-473 | Below 2^31 sets a flush empties the sets in use and the one after them, and keeps the others |
| CacheTheorems.FlushClearsNothing | taint64/pin/include/pin_cache.H:466-473 | In an accepted geometry with 2^31 sets a loaded line hits again after a flush |
| CacheTheorems.RunIsVisits | taint64/pin/include/pin_cache.H:403-473 | A run's effect on the sets is that of its line visits and flushes, in order |
| CacheTheorems.RunDecomposes | taint64/pin/include/pin_cache.H:415-456 | Trace decomposition and placement for runs of the public operations |
| CacheTheorems.LoadedLineLifetime | taint64/pin/include/pin_cache.H:441-461 | The exact lifetime of a loaded line over runs of the public operations |
| CacheTheorems.RepeatedAccessHits | taint64/pin/include/pin_cache.H:403-435 | After a load, or a store with STORE_ALLOCATE, of at most NumSets() lines the same range hits entirely, also across the wrap |
| CacheTheorems.OneWayRepeatIff | taint64/pin/include/pin_cache.H:403-435 | After a load, or a store with STORE_ALLOCATE, with one way per set, it hits if and only if it visits at most NumSets() lines, from every state |
| RepeatedAccess.HitsBound | taint64/pin/include/pin_cache.H:403-435 | From every state, an access that hits entirely visits at most NumSets() * ways lines |
| RepeatedAccess.RepeatIff | taint64/pin/include/pin_cache.H:403-435 | From an empty cache with any number of ways, after a load, or a store with STORE_ALLOCATE, the same access hits entirely if and only if it visits at most NumSets() * ways lines |
| CacheTheorems.CompulsoryMisses | taint64/pin/include/pin_cache.H:440-461 | From an empty cache a fitting load trace misses exactly once per distinct line other than 0, so once per distinct line if and only if it avoids line 0 |
| CacheTheorems.LineZeroHits | taint64/pin/include/pin_cache.H:94-97 | In an empty cache an access to line 0 hits and changes no set |
| NewCaches.FreshIsEmpty | taint64/pin/include/pin_cache.H:293-387 | A constructed cache, of either policy, is the empty cache of the laws |
| NewCaches.NewCacheMisses | taint64/pin/include/pin_cache.H:293-461 | A constructed cache misses once per distinct line other than 0 on every fitting load trace |
| NewCaches.FlushRestoresNew | taint64/pin/include/pin_cache.H:466-473 | After any run and a flush, a constructed cache answers every run as it did when it was new |
| NewCaches.NewCacheRepeat | taint64/pin/include/pin_cache.H:403-435 | The repetition law for a constructed cache |
| NewCaches.NewCachesAgree | taint64/pin/include/pin_cache.H:109-189 | Constructed alike, a direct-mapped and a one-way round-robin cache answer and count alike for every operation sequence |
| LifoStack.StepLinearizes | taint64/pin/include/atomic/lifo-ctr.hpp:129-262 | Each atomic step keeps the invariant and does to the stack what its label says |
| LifoStack.Linearizable | taint64/pin/include/atomic/lifo-ctr.hpp:129-262 | Every interleaving whose pops stall for fewer than 2^CounterBits swaps is a legal history of one atomic stack, which memory holds |
| LifoStack.ThreadNonBlocking | taint64/pin/include/atomic/lifo-ctr.hpp:50-52 | In every part of a run in which no operation completes, no thread takes more than four steps |
| LifoStack.NonBlocking | taint64/pin/include/atomic/lifo-ctr.hpp:50-52 | Among n threads some operation completes in every part of a run with more than 4n steps |
| LifoStack.NobodyWaits | taint64/pin/include/atomic/lifo-ctr.hpp:129-262 | A thread inside an operation can always take its next step |
| LifoStack.RunConserves | taint64/pin/include/atomic/lifo-ctr.hpp:129-262 | No element is lost or appears in any such run |
| LifoStack.StallOfOneWrapBreaks | taint64/pin/include/atomic/lifo-ctr.hpp:68-73 | With a stall of exactly one wrap, a run of the constructed queue hands out an element that is not on the stack |
| LifoStack.StallBoundIff | taint64/pin/include/atomic/lifo-ctr.hpp:68-112 | For every counter width, all runs of a constructed queue whose pops stall for at most b swaps are linearizable if and only if b < 2^CounterBits |
| IdSet.UniqueUpTo32 | taint64/pin/include/atomic/idset.hpp:107-153 | Up to 32 identifiers, in every interleaving, are unique and in range |
| IdSet.RefusedOnlyWhenAllTaken | taint64/pin/include/atomic/idset.hpp:101-153 | A GetID that finds no free bit looked when every identifier was taken: released ones can be had again |
| IdSet.GetIdGives | taint64/pin/include/atomic/idset.hpp:107-129 | While an identifier is free, the next two undisturbed steps of GetID return one that nobody had |
| IdSet.DuplicateBeyond32 | taint64/pin/include/atomic/idset.hpp:107-129 | Above 32 a run gives two threads identifier 5 |
| IdSet.UniqueIff | taint64/pin/include/atomic/idset.hpp:107-129 | Identifiers are unique in every run if and only if MaxID <= 32 |
| IdSet.NonBlocking | taint64/pin/include/atomic/idset.hpp:48-51 | In every run, while no call returns, no thread takes more steps than there are words, and two |
| LifoPtr.SharedIdBreaks | taint64/pin/include/atomic/lifo-ptr.hpp:187-241 | From any state of an empty queue in which two pops have begun with one identifier, the queue's own steps lead to a clear that hands out an element not on the stack |
| LifoQueue.StepLinearizes | taint64/pin/include/atomic/lifo-ptr.hpp:113-345 | Up to 32 identifiers each atomic step of queue or identifier set keeps the joint invariant (every pop in progress holds its identifier) and does to the stack what its label says |
| LifoQueue.Linearizable | taint64/pin/include/atomic/lifo-ptr.hpp:113-345 | Up to 32 identifiers every interleaving, stalls unbounded, is a legal history of one atomic stack, which memory holds |
| LifoQueue.BreaksBeyond32 | taint64/pin/include/atomic/lifo-ptr.hpp:187-241 | Beyond 32 identifiers a run of the constructed queue, identifiers taken by GetID, is not linearizable |
| LifoQueue.LinearizableIff | taint64/pin/include/atomic/lifo-ptr.hpp:390-394 | All runs of the constructed queue are linearizable if and only if LowBits <= 5 |
| LifoProgress.OnePopNonBlocking | taint64/pin/include/atomic/lifo-ptr.hpp:187-241 | With at most one pop at a time, no thread takes more than seven steps on the queue while no operation completes |
| LifoProgress.Livelock | taint64/pin/include/atomic/lifo-ptr.hpp:187-241 | From a constructed queue with two identifiers, a pop can take any number of steps while no operation completes |
| LifoProgress.NonBlockingIff | taint64/pin/include/atomic/lifo-ptr.hpp:51-52 | Some bound on the steps without completion holds in all runs if and only if LowBits is 1 |
| SimpleLock.StepKeepsInv | taint64/pin/include/sync/simple-lock-futex.hpp:88-158 | Every atomic step keeps one owner per locked word and somebody acting for the sleepers |
| SimpleLock.MutualExclusion | taint64/pin/include/sync/simple-lock-futex.hpp:88-158 | At most one owner in every interleaving |
| SimpleLock.SleeperNotAbandoned | taint64/pin/include/sync/simple-lock-futex.hpp:112-145 | While a thread sleeps, the owner will see MAYBE_WAITERS or a thread is already releasing, waking or woken |
| SimpleLock.FreeLockIsTaken | taint64/pin/include/sync/simple-lock-futex.hpp:88-123 | In every part of a run in which nobody has the lock and nobody gets it, no thread takes more than three steps: Lock on a free lock returns |
| SimpleLock.TryLockIff | taint64/pin/include/sync/simple-lock-futex.hpp:153-158 | TryLock gets the lock if and only if nobody has it, and changes nothing otherwise |
| SimpleLock.OwnerReleases | taint64/pin/include/sync/simple-lock-futex.hpp:88-145 | While a thread keeps the lock, it takes at most one step in Lock and one in Unlock |
| SimpleLock.BlockingThreadSleeps | taint64/pin/include/sync/simple-lock-futex.hpp:96-123 | While another thread keeps the lock, a thread that has stopped spinning takes at most eleven steps, and four more per wake-up, before it sleeps |
| ReaderWriterLock.StepKeepsInv | taint64/pin/include/sync/reader-writer-lock-futex.hpp:91-193 | Every atomic step of lock and semaphore, and every wake-up of the kernel, keeps count, semaphore, pending signals and pending wake-ups as the situation demands |
| ReaderWriterLock.MutualExclusion | taint64/pin/include/sync/reader-writer-lock-futex.hpp:91-193 | A writer excludes every other writer and every reader, in every interleaving |
| ReaderWriterLock.CountMeaning | taint64/pin/include/sync/reader-writer-lock-futex.hpp:206-211 | The documented meaning of the count, in every reachable state |
| ReaderWriterLock.NoLostWakeup | taint64/pin/include/sync/semaphore-futex.hpp:78-140 | Without readers, a waiting writer's semaphore is set or exactly one thread is about to set it; a writer asleep at a set semaphore has a thread about to wake it |
| ReaderWriterLock.DeadlockFree | taint64/pin/include/sync/reader-writer-lock-futex.hpp:91-193 | While a thread is inside an operation or has the lock, some thread can move |
| ReaderWriterLock.OperationsReturn | taint64/pin/include/sync/reader-writer-lock-futex.hpp:91-193 | With the inner lock at hand and no waiting for readers, every operation returns after at most five steps of its thread, whatever the others do |
| ReaderWriterLock.ReadLockReads | taint64/pin/include/sync/reader-writer-lock-futex.hpp:91-96 | A thread that ReadLock or TryReadLock gave the inner lock reads after two steps of its own |
| ReaderWriterLock.TryWriteIff | taint64/pin/include/sync/reader-writer-lock-futex.hpp:176-193 | TryWriteLock gets the lock if and only if there is no reader, and leaves the inner lock free otherwise |
| ReaderWriterLock.WriteLockIff | taint64/pin/include/sync/reader-writer-lock-futex.hpp:103-119 | WriteLock writes at once if and only if there is no reader, and waits otherwise |
| ReaderWriterLock.WaitingStep | taint64/pin/include/sync/reader-writer-lock-futex.hpp:198-203 | While a writer waits, no step adds a reader, and every step but a wake-up for no reason brings the writer nearer |
| ReaderWriterLock.WriterPreferred | taint64/pin/include/sync/reader-writer-lock-futex.hpp:198-203 | From every reachable state with a waiting writer, every run of a bounded length lets it write, and no new reader gets in before |
| FutexReaderWriter.StepRefines | taint64/pin/include/sync/reader-writer-lock-futex.hpp:91-193 | Every atomic step of the lock on its futex inner lock is a step of the lock with an atomic inner lock, or none |
| FutexReaderWriter.RunRefines | taint64/pin/include/sync/simple-lock-futex.hpp:88-158 | Every run on the futex inner lock is a run with an atomic one, with steps inside the inner lock in between |
| FutexReaderWriter.MutualExclusion | taint64/pin/include/sync/reader-writer-lock-futex.hpp:91-193 | A writer excludes everybody else in every interleaving of the steps of both locks |
| FutexReaderWriter.DeadlockFree | taint64/pin/include/sync/reader-writer-lock-futex.hpp:91-193 | While a thread is inside either lock or has it, sleepers at both included, some thread's own step or wake-up call is possible, without spurious wake-ups |
| FutexReaderWriter.InnerLockIsTaken | taint64/pin/include/sync/reader-writer-lock-futex.hpp:91-105 | In every part of every run in which nobody has the inner lock and nobody gets it, no thread takes more than three steps inside it |
| FutexReaderWriter.TryLockIff | taint64/pin/include/sync/reader-writer-lock-futex.hpp:159-193 | TryReadLock and TryWriteLock get past the inner lock if and only if nobody has it, and then continue as their own operation |
| FutexReaderWriter.CalledOperationBegins | taint64/pin/include/sync/reader-writer-lock-futex.hpp:91-105 | When the inner lock is gained, the operation that was called is the one that continues |
| FutexReaderWriter.WriterPreferred | taint64/pin/include/sync/reader-writer-lock-futex.hpp:198-203 | A waiting writer writes after a bounded number of steps outside the inner lock, however many steps are taken inside it, and no new reader gets in at any point before |
| KeyCompressor.KeysAreFirstSeen | taint64/pin/include/pin_profile.H:89-106 | The mapped keys are the distinct keys in first-seen order |
| KeyCompressor.IndicesAreFirstSeenOrder | taint64/pin/include/pin_profile.H:89-106 | Each call returned its key's place in that order, for good |
| KeyCompressor.StableBijection | taint64/pin/include/pin_profile.H:89-106 | Equal indices if and only if equal keys, and every index below the number of keys is used |
| KeyCompressor.CapacityBounds | taint64/pin/include/pin_profile.H:179-191 | Capacity stays above the keys and within max(initial, 2 * keys); from 0 it stays 0; the length never changes |
| KeyCompressor.CountersForAllKeysIff | taint64/pin/include/pin_profile.H:110-132 | Every returned index has a counter if and only if the keys fit the initial length |
| KeyCompressor.KeyWithoutCounter | taint64/pin/include/pin_profile.H:110-132 | For every initial length, one key more and some key has no counter |
| KeyCompressor.CompressorCounter.StringLong | taint64/pin/include/pin_profile.H:136-166 | The first pass counts exactly the items that the second prints: those that reach the threshold, in key order |
| KeyCompressor.SelectedExact | taint64/pin/include/pin_profile.H:140-162 | An item is printed if and only if it is mapped and its counter reaches the threshold |
| KeyCompressor.SelectedInOrder | taint64/pin/include/pin_profile.H:140-162 | Each item that reaches the threshold is printed once, between those before and those after it |
| KeyCompressor.CompressorCounter.Map | taint64/pin/include/pin_profile.H:179-191 | New state and index are those of the compressor's transition |
| KeyCompressor.CompressorCounter.MapKey | taint64/pin/include/pin_profile.H:89-106 | Finds the key's index or appends the key |
| Uuid.PrintThenParse | theia-replay-server/replay_server/replay_utils.py:52-63 | Parsing printed bytes gives back the 16 bytes |
| Uuid.PrintedPieces | theia-replay-server/replay_server/replay_utils.py:52-58 | The printed form is the sixteen bytes in order, each as its decimal numeral |
| Uuid.NormalRoundTrip | theia-replay-server/replay_server/replay_utils.py:52-63 | Whatever text of a UUID is converted, the way back gives the UUID that the text names |
| Uuid.YangRoundTrip | theia-replay-server/replay_server/replay_utils.py:52-63 | Every UUID is converted from the text that str() prints for it, and back |
| Uuid.ParseThenPrintIff | theia-replay-server/replay_server/replay_utils.py:52-63 | Printing a parsed text gives the text back if and only if its numerals are canonical |
| Uuid.YangToNormalIff | theia-replay-server/replay_server/replay_utils.py:61-63 | A text is read if and only if it is sixteen numbers below 256 |
| Uuid.CapitalsRead | theia-replay-server/replay_server/replay_utils.py:52-58 | Capital digits without dashes name the same UUID |
| Uuid.DecorationsRead | theia-replay-server/replay_server/replay_utils.py:52-58 | So do braces and the urn:uuid: prefix |
| Text.ParseIntForms | theia-replay-server/replay_server/replay_utils.py:61-63 | int() reads numerals with a sign and with blanks around them |
| Text.ParseHexForms | theia-replay-server/replay_server/replay_utils.py:52-58 | int(text, 16) reads a sign, the 0x prefix and a final L |
| Uuid.StripHostIff | theia-replay-server/replay_server/search.py:17-18 | Behind a dash-free host the object is recovered if and only if it has no dash; behind another host the object is never looked at; without a dash the call raises |
| Uuid.StripHostRecovers | theia-replay-server/replay_server/search.py:78-80 | From a host-object identifier of printed UUIDs the object's bytes are recovered |
| Checkpoints.UnpackPacked | theia-replay-server/replay_server/replay_utils.py:66-82 | Decoding a written checkpoint gives it back, whatever follows |
| Checkpoints.PackUnpackedIff | theia-replay-server/replay_server/replay_utils.py:66-82 | A readable file starts with the encoding of what is read from it if and only if its name ends in a zero byte |
| Checkpoints.UnterminatedReads | theia-replay-server/replay_server/replay_utils.py:66-82 | For every checkpoint, a file that ends its name in another byte reads the same |
| Checkpoints.LittleEndianAppend | theia-replay-server/replay_server/replay_utils.py:66-82 | Each byte of an integer field is worth 256 times the one before it |
| Checkpoints.SmallFileReads | theia-replay-server/replay_server/replay_utils.py:66-82 | One file written out byte by byte, with the four fields read from it |
| Checkpoints.ParseCkpts | theia-replay-server/replay_server/replay_utils.py:85-103 | Lists the readable checkpoints in log order, skipping the others |
| Checkpoints.ReadableExact | theia-replay-server/replay_server/replay_utils.py:92-103 | An entry is listed if and only if some log unpacks to its record id and pid, with the text after the last slash of the file name and the log's directory |
| Checkpoints.ReadableInOrder | theia-replay-server/replay_server/replay_utils.py:92-103 | A readable log adds one entry, its own, behind those of the logs before it and before those of the logs after it; an unreadable one adds none |
| ReplayIndex.ProcIndex | theia-replay-server/replay_server/replay_utils.py:147-176 | Succeeds exactly when nothing inserted exceeds its column; then the index has unique names and maps each to its earliest checkpoint's directory |
| ReplayIndex.IndexDirsUnique | theia-replay-server/replay_server/replay_utils.py:147-176 | An index of logs in different directories names each directory once |
| ReplayIndex.FirstDirIsEarliest | theia-replay-server/replay_server/replay_utils.py:163-173 | That directory's checkpoint matches and none before it does |
| ReplayIndex.FirstDirFound | theia-replay-server/replay_server/replay_utils.py:163-173 | There is a directory if and only if some checkpoint has the name |
| ReplayIndex.ProcNameInjective | theia-replay-server/replay_server/replay_utils.py:138-173 | Process names are unique between names that do not start with a digit |
| ReplayIndex.UnambiguousIff | theia-replay-server/replay_server/replay_utils.py:138-173 | The exact processes whose name no other process can have |
| ReplayIndex.GetSubjectsToTaint | theia-replay-server/replay_server/replay_utils.py:106-144 | One subject per row; exactly the first of each process gets the log its name finds |
| ReplayIndex.OneReplayPerProcess | theia-replay-server/replay_server/replay_utils.py:122-144 | Of the rows with one pid and one path at most one gets a log, and one does if and only if the index knows the name |
| ReplayIndex.NoLogTwiceIff | theia-replay-server/replay_server/replay_utils.py:122-144 | No log is given to two subjects if and only if no two processes of the rows share a name that the index knows |
| ReplayIndex.OneLogTwice | theia-replay-server/replay_server/replay_utils.py:137-142 | Two processes that get the same log |
| ReplayIndex.ReplayedLogMatches | theia-replay-server/replay_server/replay_utils.py:137-142 | Without digit-led names, a subject's log is one whose checkpoint unpacks to its pid and to a file name that ends in its executable name |
| TaintQuery.EveryProcessConsidered | theia-replay-server/replay_server/replay_utils.py:106-144 | After loading any paths, the last process of every relevant hop is in the answer with the hop's event; of the rows with its pid and path one gets a log if and only if the index knows the pid's numeral followed by the path, and never two |
| TaintQuery.ReplayedFromGraph | theia-replay-server/replay_server/replay_utils.py:106-144 | From the graph to the log: the pid is that of the first node row naming the process, the path the text after the last slash of its first executed file, and a log is given if and only if the index knows the two together |
| TaintQuery.NothingElseConsidered | theia-replay-server/replay_server/replay_utils.py:109-115 | Into an empty subgraph, every row of the answer is about the last process and the event of some relevant hop |
| TaintQuery.ConsideredIff | theia-replay-server/replay_server/replay_utils.py:109-115 | Into an empty subgraph, the answer has a row about a hop if and only if the hop has a process, or a subject named None was stored or is on the paths |
| Text.RFindIsBasename | theia-replay-server/replay_server/search.py:52-57 | The loader's and the index's executable names are the same function of the path |
| QueryFilters.ForwardEndIff | theia-replay-server/replay_server/search.py:82-86 | An accepted path keeps to the end time if and only if it has two edges or its only edge does |
| QueryFilters.BackwardStartIff | theia-replay-server/replay_server/search.py:100-104 | The mirror image for the start time |
| QueryFilters.ForwardIff | theia-replay-server/replay_server/search.py:82-86 | A path is accepted forwards if and only if its times never decrease and, from two edges on, its last is not after the end |
| QueryFilters.BackwardIff | theia-replay-server/replay_server/search.py:100-104 | The mirror image |
| QueryFilters.ForwardIntervalIff | theia-replay-server/replay_server/search.py:72-90 | All times of an accepted forward path lie in the interval if and only if the first is not before its start and, on a single edge, not after its end |
| QueryFilters.BackwardIntervalIff | theia-replay-server/replay_server/search.py:92-107 | The mirror image |
| QueryFilters.OutsideAccepted | theia-replay-server/replay_server/search.py:72-107 | For every interval, accepted paths in both directions with an event before it and with an event after it |
| QueryFilters.BackwardIsForwardReversed | theia-replay-server/replay_server/search.py:72-107 | Within an interval, the backward filter is the forward filter on the reversed path |
| QueryFilters.ForwardSorted | theia-replay-server/replay_server/search.py:84-85 | Times never decrease along an accepted forward path |
| QueryFilters.BackwardSorted | theia-replay-server/replay_server/search.py:102-103 | Times never increase along an accepted backward path |
| Loader.LoadingKeepsIntegrity | theia-replay-server/replay_server/search.py:277-379 | Loading any paths keeps keys unique and every reference other than the text None joining, and no old row changes |
| Loader.RowCount | theia-replay-server/replay_server/search.py:299-379 | The subgraph grows by exactly the reads, writes, sends and receives traversed |
| Loader.HopLoadsIff | theia-replay-server/replay_server/search.py:299-379 | A hop loads if and only if its edge is known and, when it moves data, every row of both nodes can be stored and the edge's identifier stripped |
| Loader.LastPartMeaning | theia-replay-server/replay_server/search.py:304-307 | Node and edge identifiers are the texts after the last slash |
| Loader.JoinsOneSubject | theia-replay-server/replay_server/replay_utils.py:110-115 | A subgraph row joins at most one subject, and joins one unless its subject is the text None and no subject is named so |
| LoadedTables.RowsAreHops | theia-replay-server/replay_server/search.py:299-379 | The new subgraph rows are those of the relevant hops, one each, in order |
| LoadedTables.RowColumns | theia-replay-server/replay_server/search.py:315-379 | The k-th new row has the event columns of the k-th relevant hop and refers to the last subject, file and netflow of its nodes |
| LoadedTables.RowAt | theia-replay-server/replay_server/search.py:299-379 | The row of every data-moving edge stands behind as many rows as there are such edges before it, and has the columns of that edge and its two nodes |
| LoadedTables.LoadingIsNodes | theia-replay-server/replay_server/search.py:299-379 | Loading paths is storing, in order, the nodes met on their relevant hops |
| LoadedTables.StoredSubject | theia-replay-server/replay_server/search.py:46-64 | A new subject has the pid of the first node row that names it, the text after the last slash of its first executed file and that file's stripped principal, or both empty without one |
| LoadedTables.StoredFile | theia-replay-server/replay_server/search.py:66-67 | A new file has the path of the first node row that names it, and the query's id |
| LoadedTables.StoredNetflow | theia-replay-server/replay_server/search.py:69-70 | A new netflow has the two addresses and the two ports of the first node row that names it, and the query's id |
| LoadedTables.KeysAfterLoading | theia-replay-server/replay_server/search.py:43-70 | The keys of each node table after loading are the old ones and those of the nodes of its type on relevant hops |
| LoadedTables.ReferenceHasRowIff | theia-replay-server/replay_server/search.py:315-379 | After loading, a reference of a new row has its row if and only if a node of the type is on its hop, or one named None was stored or is on the paths |
| LoadedTables.ReadDangles | theia-replay-server/replay_server/search.py:315-379 | One hop whose netflow reference has no row while the two others have |
| Loader.AddNodeLaws | theia-replay-server/replay_server/search.py:43-70 | One node's insertion keeps keys unique, keeps rows, and puts the node in its table |
| Loader.HopKeepsSound | theia-replay-server/replay_server/search.py:315-379 | One hop keeps the tables sound |
| Loader.Tables.InsertNode | theia-replay-server/replay_server/search.py:43-70 | Succeeds exactly when the identifiers split; then the tables are those of AddNode; sound in any case |
| Loader.Tables.InsertProcess | theia-replay-server/replay_server/search.py:46-64 | The first executed file names the process; without one the path is empty |
| Loader.Tables.InsertExecuted | theia-replay-server/replay_server/search.py:51-59 | The loop over the executed files inserts once and fails on an odd principal |
| Loader.Tables.InsertSubject | theia-replay-server/replay_server/search.py:59-64 | Inserts unless the uuid is there |
| Loader.Tables.InsertFile | theia-replay-server/replay_server/search.py:66-67 | Inserts unless the key is there |
| Loader.Tables.InsertNetflow | theia-replay-server/replay_server/search.py:69-70 | Inserts unless the key is there |
| Loader.Tables.VisitNodes | theia-replay-server/replay_server/search.py:331-366 | Inserts all rows of a node and remembers the last identifier of each type |
| Loader.Tables.LoadHop | theia-replay-server/replay_server/search.py:299-379 | Adds the nodes and the row of a relevant edge, nothing for another |
| Loader.Tables.InsertPaths | theia-replay-server/replay_server/search.py:277-379 | Succeeds exactly when all paths load; then the tables are those of AddPaths and AllRows; sound in any case |

## Left out

- Statistics output (`StatsLong`, `operator<<`, `pin_util.H`): text with floating-point rates. Of the compressor's `StringLong` the items are modelled, not their text.
- CacheObject.Cache.constructor: requires at least one set, though the code accepts none; `SetIndexInBoundsIff` shows what that means. Also MAX_ASSOCIATIVITY <= 2^31, so that the sets after the last one in use are countable by a signed index too. CACHE_STATS, supplied by the tool, is a natural number.
- CacheObject.Cache.Flush: requires NumSets() < MAX_SETS below 2^31 sets, without which the code writes past its array.
- CacheObject.Cache.Access: requires the exact halting condition, a loop without end having no result.
- KeyCompressor.CapacityBounds: the index type is unbounded and `reserve` is taken to be exact, as in the usual vector implementations.
- KeyCompressor.CompressorCounter.StringLong: requires a counter for every key, without which the code reads past its vector; `CountersForAllKeysIff` says when there is one.
- COUNTER_ARRAY comparisons and the accessors of the profile classes: one-line members.
- Memory orderings: the synchronisation models are sequentially consistent; barrier arguments and backoff delays are not modelled.
- ReaderWriterLock.StepKeepsInv: takes the inner lock as an atomic object; `FutexReaderWriter` shows that the futex lock may stand for it. The count is unbounded.
- The spin and event variants of the locks, the semaphore's timed wait, `fixed-lifo.hpp`, `fixed-multimap.hpp`.
- IdSet.UniqueUpTo32: a word is the set of its one bits.
- Reading files, globbing, process control, the databases and message queues; query results and file contents are inputs.
- Loader.Tables.InsertPaths: leaves out the statistics counters, the row of the query table, column lengths and SQL quoting; null identifiers of graph nodes are not modelled.
- ReplayIndex.GetSubjectsToTaint: takes the rows of the join as input, which `TaintQuery` ties to the tables; subjects are values, identified by position. The condition on query_id compares the column with itself and selects nothing. Process ids are natural numbers.
- The taint propagation engine itself (`taint64/taint64/src`) and the older scripts.
