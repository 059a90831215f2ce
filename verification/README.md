# Verified model of asp2

asp2 is a C++ utility library in the spirit of Rust's standard library. This project models the
parts of it in which correctness depends on interleavings, on whole runs, or on exact arithmetic,
and proves what those parts are for. `dafny verify dfyconfig.toml` checks everything.

| file | models |
|---|---|
| `RefCount.dfy` | `SharedPtr` and `WeakPtr`: the intrusive counting protocol, one step per atomic operation, for any number of threads and pointers, including pointers stored inside managed objects |
| `RefCountOps.dfy` | what each operation of the two pointers does for its caller, from any state and carried to its end |
| `PtrSwap.dfy`, `PtrSwapRuns.dfy` | `PtrSwap` on top of `RefCount`: load, store, swap and the read-copy-update loop, with spurious compare-exchange failures and an allocator that reuses addresses; what a cell holds told from the actions of a run |
| `PtrSwapOps.dfy` | what each operation of a cell does for its caller |
| `PtrSwapRetain.dfy` | the late increment of the copying `swap` and of `rcu`, whatever other threads do between the exchange and the increment |
| `PtrSwapLimits.dfy` | the late increment of `load`, and when a cell may be moved |
| `Cache.dfy`, `CacheOps.dfy`, `CacheRuns.dfy` | `Cache` as a class, what one call does entry by entry, and what the cache guarantees over whole runs |
| `Words.dfy`, `SmallVec.dfy` | bit smearing on 64-bit words, and `SmallVec` as a class over arrays |
| `Pipelines.dfy`, `PipelineLaws.dfy` | the iterator adapters, arbitrarily nested, against list denotations, and what those denotations mean |
| `Lines.dfy`, `Split.dfy` | the string iterators `lines`, `split` and `splitAny`, and the consumer `join` |
| `Channel.dfy`, `ThreadPool.dfy` | the queue with its condition variable, and the pool with its join barrier, as interleavings |
| `Time.dfy` | `Duration` and `Instant` on 64-bit words |
| `Numerals.dfy` | `constexprParse` and `constexprToString` |
| `Wrappers.dfy` | `Option` |

Protocols are state machines: a predicate `Enabled` says when a step can happen (only what the
language demands of a client, never what the invariant promises), `Apply` says what it does, and the
theorems speak about every state of every run. Objects that the library updates in place are classes
whose methods are proved against functions on values; the theorems over whole runs are about those
functions. Clock readings, scan orders of hash maps, the choice of the thread that `notify_one` wakes,
and the choice of the next step are left open.

Where the code does not do what its documentation or its name promises, the model follows the code and
states exactly when the promise holds:

- `Lines.FinalNewline`: "may or may not end with a line terminator, making no difference" holds exactly
  for strings that end in an ordinary character; after a final `\r` a newline changes the last line.
- `Time.SumExact`, `Time.EarlierExact`: results leave normal form exactly when the nanosecond parts add up
  to one second (`Duration::checkedAdd`) or are equal (`Instant::checkedSub`). `Time.Make`: the
  two-argument constructor drops the carried seconds.
- `Time.ElapsedExact`: `durationSince` is exact exactly when the seconds differ by a signed 64-bit number and the
  borrow from it, if there is one, does not overflow.
- `Numerals.PrintsDecimal`, `Numerals.ReadsDecimal`, `Numerals.RoundTrip`: the text of the eight-byte
  minimum is not its decimal, and the minimum of one byte prints as a lone minus sign.
- `Channel.NoLostWakeupExactly`, `Channel.TakersServedExactly`: no run of a program loses a wakeup exactly
  if the program never calls `waitForMessages`; those who take messages are always served exactly if it does
  not call it or waits in no other way. `Channel.StepServesExactly`, `Channel.RunServesExactly`: in any
  program, the only step that stops serving them is a push that notifies a watcher while a taker is parked
  and no taker on the way is to spare.
- `CacheRuns.OverwriteEvicts`, `CacheRuns.OverwriteIsSafe`: overwriting a key loses no other entry exactly if
  the cache is not full, or the key itself has the oldest use, or the entry with the oldest use has expired and
  the call cleans up.
- `PtrSwapLimits.DeferredRetain`: `load` increments after it read the cell; the late increment is safe exactly if
  somebody still owns the object at that moment, which `PtrSwapLimits.ReaderLosesObject` shows need not be.
- `PtrSwapRetain.LateRetainExactly`: the copying `swap` and `rcu` increment after they published the new pointer;
  the late increment is safe exactly if no release in between takes the count to zero. `PtrSwapRetain.KeptIsSafe`:
  none does as long as the pointer stays in the cell and with the caller. `PtrSwapRetain.OwnerLosesObject`: another
  swap and one release are enough for the object to be destroyed although the caller owns it all the time.
- `PtrSwapLimits.MoveConstructExactly`, `PtrSwapLimits.MoveAssignExactly`: moving a cell keeps the counts
  exactly if the source cell is null.
- `SmallVec.SmallVec.Erase`: the pointer returned is to the element behind the erased range exactly if the
  range is empty.

## Model

| member | source | states |
|---|---|---|
| RefCount.StepKeepsInv | include/asp/ptr/SharedPtr.hpp:102-316 | Every copy, move, release, destructor end, deallocation and `upgrade` step of any thread keeps the protocol invariant: both counters exact, phases and pending continuations consistent |
| RefCount.CountersExact | include/asp/ptr/SharedPtr.hpp:212-241 | In every reachable state the strong counter is the number of strong pointers and the weak counter the number of weak pointers, plus one until the destroying thread has given up the implicit weak reference |
| RefCount.LifeCycle | include/asp/ptr/SharedPtr.hpp:292-316 | The destructor has been started at most once, and exactly when no strong pointer is left; the memory is given back at most once, after the destructor has finished and no pointer is left |
| RefCount.PointersAreSafe | include/asp/ptr/SharedPtr.hpp:200-241 | No pointer of any kind refers to a freed block, the object of a strong pointer is alive, and a pointer stored inside an object lies in memory that is there |
| RefCount.NoUseAfterFree | include/asp/ptr/SharedPtr.hpp:283-316 | No step of any run touches a control block that was given back, and none gives one back twice |
| RefCount.DeleteIsLast | include/asp/ptr/SharedPtr.hpp:311-316 | When a block is deleted its destructor has finished, and no pointer, object member or pending continuation still refers to it, even if the object held a weak pointer to itself |
| RefCount.NoResurrection | include/asp/ptr/SharedPtr.hpp:243-254 | Once the strong counter has been zero, no compare-exchange of `upgrade` succeeds any more, however stale the value it read |
| RefCount.UpgradeYieldsLive | include/asp/ptr/SharedPtr.hpp:243-254 | An `upgrade` that succeeds yields a strong pointer to an object that is alive and owned by somebody else as well |
| RefCount.NothingLeaks | include/asp/ptr/SharedPtr.hpp:292-309 | Exactly once: when no pointer and no pending continuation of a block is left, its destructor has run and its memory was given back |
| RefCount.RunEvolves | include/asp/ptr/SharedPtr.hpp:283-316 | Over any run a block only moves forward: zero stays zero, dead stays dead, addresses stay |
| RefCountOps.Makes | include/asp/ptr/SharedPtr.hpp:267-275 | A new block at a new address with one owner, one implicit weak reference and a live object; nothing else changes |
| RefCountOps.Copies | include/asp/ptr/SharedPtr.hpp:102-106 | Always possible; a second pointer to the same object and one more in its strong count |
| RefCountOps.MakesWeak | include/asp/ptr/SharedPtr.hpp:212-218 | Always possible, from a strong or a weak pointer; one more in the weak count |
| RefCountOps.Moves | include/asp/ptr/SharedPtr.hpp:117-117 | The target holds what the source held, the source is null, no count changes |
| RefCountOps.ReleasesOne | include/asp/ptr/SharedPtr.hpp:283-290 | While there are other owners a release only takes its own pointer and one from the count |
| RefCountOps.UpgradeSucceeds | include/asp/ptr/SharedPtr.hpp:246-251 | A compare-exchange that reads what it expects and does not fail spuriously returns a counted pointer to the block and ends the loop |
| RefCountOps.UpgradeRetries | include/asp/ptr/SharedPtr.hpp:247-253 | One that does not changes no pointer and no count, and goes on with the value it read, or ends at zero |
| RefCountOps.UpgradeOfLive | include/asp/ptr/SharedPtr.hpp:243-254 | Undisturbed, `upgrade` of a weak pointer to a live object returns a new owner of it |
| RefCountOps.UpgradeOfDead | include/asp/ptr/SharedPtr.hpp:243-254 | `upgrade` returns null at once if there is no owner |
| RefCountOps.LastOwnerDestroys | include/asp/ptr/SharedPtr.hpp:283-300 | The last release runs the destructor to its end and gives up the implicit weak reference, and leaves a deallocation pending exactly if that was the last one |
| RefCountOps.LastWeakFrees | include/asp/ptr/SharedPtr.hpp:302-316 | Releasing the last weak reference gives the memory back, and the object was gone before |
| RefCountOps.FreedAtOnce | include/asp/ptr/SharedPtr.hpp:283-316 | The release of a sole owner without weak pointers ends with object destroyed and memory given back, each once |
| RefCountOps.SelfReferenceGoes | include/asp/ptr/SharedPtr.hpp:320-357 | So does that of an object that holds a weak pointer to itself |
| PtrSwap.ActionKeepsSound | include/asp/ptr/PtrSwap.hpp:36-89 | Every load, swap, `rcu` step, cell creation or destruction and every client step keeps the counting invariant and the agreement of every cell with its history |
| PtrSwap.NoAba | include/asp/ptr/PtrSwap.hpp:68-89 | If the compare-exchange of `rcu` sees an equal address, the cell still holds the very object that was loaded, although freed addresses are reused |
| PtrSwap.RcuLosesNoUpdate | include/asp/ptr/PtrSwap.hpp:68-89 | At any point of any interleaving the content of a cell is what all completed writes to it give when replayed in order |
| PtrSwap.LogRecordsWrites | include/asp/ptr/PtrSwap.hpp:48-89 | The replayed history is the right one: a completed `rcu` call appends its own function once, a `swap` appends what it stores, and nothing else appends anything |
| PtrSwap.RcuReplacesWhatItRead | include/asp/ptr/PtrSwap.hpp:68-89 | A successful `rcu` leaves in the cell the function's value for the content it replaced, which is the pointer it returns |
| PtrSwap.OwnershipConserved | include/asp/ptr/PtrSwap.hpp:32-110 | Each strong count is the number of live strong pointers, those of pending `rcu` calls included, plus the number of cells holding the block |
| PtrSwap.CellContentAlive | include/asp/ptr/PtrSwap.hpp:36-38 | An object that a cell holds is alive, whatever is released elsewhere |
| PtrSwapRuns.LogIsPerformed | include/asp/ptr/PtrSwap.hpp:48-89 | Over any run the history of a cell is one entry for each completed `rcu` call and each swap since its creation, in their order |
| PtrSwapRuns.ContentIsFold | include/asp/ptr/PtrSwap.hpp:68-89 | In every interleaving the content of a cell is the fold of exactly the completed calls' functions, and of the swaps between them |
| PtrSwapRuns.EveryPushCounts | tests/ptr.cpp:112-134 | If everything done to a cell is an `rcu` that pushes one element, the length of the content is the number of calls completed in the run, in every interleaving |
| PtrSwapRetain.StepKeepsCredit | include/asp/ptr/PtrSwap.hpp:48-54 | Between exchange and increment, every step of every other thread that does not release the count to zero keeps the protocol sound up to the one increment that is owed |
| PtrSwapRetain.LateRetainExactly | include/asp/ptr/PtrSwap.hpp:48-54 | For every interval of steps of other threads, the increment owed restores every guarantee, at each moment at which it may come, exactly if no release in the interval takes the count of the block to zero; likewise at its end, unless the count has gone below zero; otherwise the object is no longer alive |
| PtrSwapRetain.KeptIsSafe | include/asp/ptr/PtrSwap.hpp:77-78 | No release does so as long as the new pointer stays in the cell and in the caller's own slot |
| PtrSwapRetain.OwnerLosesObject | include/asp/ptr/PtrSwap.hpp:50-51 | A run from the start: the pointer is published, moved out by another thread and released; the object is being destroyed while the caller owns it, and a copy makes the count positive but the object not alive |
| PtrSwapLimits.DeferredRetain | include/asp/ptr/PtrSwap.hpp:36-38 | The increment of a `load` that comes after the cell was read keeps every guarantee of the protocol exactly if the strong count is still positive then, and only then is the object alive |
| PtrSwapLimits.ReaderLosesObject | include/asp/ptr/PtrSwap.hpp:36-38 | A run: the cell is read, its pointer swapped out and released to the end, the block given back; the reader's increment then touches freed memory |
| PtrSwapLimits.MoveConstructExactly | include/asp/ptr/PtrSwap.hpp:22-22 | A move-constructed cell leaves the counts and all cells sound exactly if the source cell is null |
| PtrSwapLimits.MoveAssignExactly | include/asp/ptr/PtrSwap.hpp:24-30 | Move assignment between two cells, the assigned one null or not, leaves the counts, all cells and all pending calls sound exactly if the source cell is null |
| PtrSwapLimits.MoveKeepsCounts | include/asp/ptr/PtrSwap.hpp:22-30 | Otherwise the counter is one less than the number of pointers |
| PtrSwap.ExchangedSlots | include/asp/ptr/PtrSwap.hpp:48-64 | An exchange puts the new pointer into the cell, hands out the old one, empties a moved-from source, and leaves every other slot alone |
| PtrSwapOps.Loads | include/asp/ptr/PtrSwap.hpp:36-38 | The pointer returned leads to the object the cell holds, which is counted once more; cell and all other slots keep theirs |
| PtrSwapOps.SwapsCopy | include/asp/ptr/PtrSwap.hpp:48-54 | The cell holds what was given, counted once more, the caller keeps it and receives what the cell held |
| PtrSwapOps.SwapsMove | include/asp/ptr/PtrSwap.hpp:56-64 | The cell holds what was given, the given pointer is null, the caller receives what the cell held, and no count changes |
| PtrSwapOps.MakesCell | include/asp/ptr/PtrSwap.hpp:13-14 | A new cell is null |
| PtrSwapOps.DestroysCell | include/asp/ptr/PtrSwap.hpp:101-104 | The pointer of the cell is released: one owner less, and the destructor exactly if it was the last |
| PtrSwapOps.RcuLoads | include/asp/ptr/PtrSwap.hpp:69-69 | The call holds what the cell holds, counted once more |
| PtrSwapOps.RcuSucceeds | include/asp/ptr/PtrSwap.hpp:77-84 | If the cell still holds what was loaded and the exchange does not fail spuriously, the cell holds the new pointer, counted once more, the old one is handed out, and the call is over |
| PtrSwapOps.RcuRetries | include/asp/ptr/PtrSwap.hpp:77-88 | Otherwise no pointer and no count changes and the call loads again |
| PtrSwapOps.ClientSteps | include/asp/ptr/PtrSwap.hpp:68-72 | In between, every operation of the smart pointers is open to clients and to the function given to `rcu`, and touches no cell, call or history |
| PtrSwapOps.RcuAlone | include/asp/ptr/PtrSwap.hpp:68-89 | A call that nobody disturbs ends after one round, with the function's value for the old content in the cell and in the pointer returned |
| Cache.Cache.constructor | include/asp/collections/Cache.hpp:77-81 | A new cache is empty, without limit and without time to live |
| Cache.Cache.EvictOne | include/asp/collections/Cache.hpp:83-93 | Removes exactly one entry, one whose last use is oldest, from a non-empty cache |
| Cache.Cache.DoWork | include/asp/collections/Cache.hpp:95-106 | Afterwards exactly the entries not expired at the reading of its clock are left |
| Cache.Cache.Insert | include/asp/collections/Cache.hpp:27-38 | The new state is an insertion after an eviction that happens exactly when the cache is full |
| Cache.Cache.Get | include/asp/collections/Cache.hpp:45-64 | Result and new state are those of a lookup: cleanup if due, expired entries gone, found entries marked as used |
| CacheOps.InsertIsExact | include/asp/collections/Cache.hpp:27-38 | `insert` is possible in exactly these ways: for a key with the oldest use if the cache is at its limit, and for none otherwise, that key goes, the key given gets a new entry, everything too old goes if the interval is over, and every other entry stays as it was |
| CacheOps.GetIsLookup | include/asp/collections/Cache.hpp:45-64 | `get` does exactly this, with or without a limit: everything too old goes if the interval is over; the key is found if its entry is left and not too old, and is marked as used then; otherwise it is removed; every other entry stays as it was |
| CacheOps.CleanupLeavesNothingOld | include/asp/collections/Cache.hpp:95-106 | After a call that cleans up, no entry is older than the time to live at the reading of the cleanup, which is noted |
| CacheOps.AlwaysServed | include/asp/collections/Cache.hpp:27-64 | Every call on every cache has an outcome |
| CacheRuns.HitIsLatest | include/asp/collections/Cache.hpp:45-64 | Whatever was evicted, a hit returns the value of the latest insertion of that key, and that has not expired |
| CacheRuns.GetIsExact | include/asp/collections/Cache.hpp:45-64 | Without an entry limit every `get` of every run answers exactly as a timestamped map that never cleans up |
| CacheRuns.LazyExpiryUnobservable | include/asp/collections/Cache.hpp:95-106 | With one clock reading per call neither the work interval nor the cleanup can be observed through `get` |
| CacheRuns.SizeIsBounded | include/asp/collections/Cache.hpp:27-38 | With a limit set on an empty cache the size never exceeds it |
| CacheRuns.EvictionIsLru | include/asp/collections/Cache.hpp:83-93 | When a key is evicted, all other resident keys, one fewer than the limit, were inserted or found strictly later |
| CacheRuns.LruInclusion | include/asp/collections/Cache.hpp:27-64 | The same calls on caches with limits m and m + 1: after each call the smaller is contained in the larger with equal values and timestamps, and the larger has at most one entry more |
| CacheRuns.EvictionKeepsInclusion | include/asp/collections/Cache.hpp:83-93 | Evicting from both caches keeps the smaller one contained, whichever of the two has to evict |
| CacheRuns.AgeIsElapsed | src/time/Instant.cpp:63-79 | The age in nanoseconds that the cache theorems speak of is what `durationSince` gives exactly on instants that are close enough for it, and compares with a limit there as durations do |
| CacheRuns.OverwriteEvicts | include/asp/collections/Cache.hpp:27-38 | Overwriting a key loses no other entry that the cleanup would not remove anyway exactly if the cache is not full, the victim is the key itself, or the victim has expired and the call cleans up; what survives is unchanged |
| CacheRuns.OverwriteLosesEntry | include/asp/collections/Cache.hpp:27-38 | A run of three insertions in which overwriting a key loses the only other entry |
| CacheRuns.OverwriteIsSafe | include/asp/collections/Cache.hpp:27-38 | With the times of use apart, the victim is the key exactly if the cache is full and the key has the oldest use, so a caller can tell beforehand |
| Words.NextPowerOfTwo | include/asp/collections/SmallVec.hpp:46-58 | The least power of two that is at least n, for 1 to 2^63; beyond that the increment wraps to zero, so no result exceeds 2^63 |
| Words.SmearFills | include/asp/collections/SmallVec.hpp:48-56 | Six shifts and ors set every bit below the highest one of a word, and no other |
| Words.CeilPowIsCeil | include/asp/collections/SmallVec.hpp:46-58 | The recursive reference definition is the least power of two that is at least n, and less than 2n |
| SmallVec.GrowthIsTight | include/asp/collections/SmallVec.hpp:337-347 | A capacity that growth newly picks is at least what is needed and less than twice that |
| SmallVec.PushKeepsPaid | include/asp/collections/SmallVec.hpp:187-192 | A push keeps the potential invariant that relates elements moved so far, capacity and pushes |
| SmallVec.AmortisedGrowth | include/asp/collections/SmallVec.hpp:165-192 | Over any run of pushes and pops from a fresh vector, with any number of inline slots, fewer than two elements are relocated per push |
| SmallVec.PushesAlone | include/asp/collections/SmallVec.hpp:165-192 | Capacity and relocated elements after any number of pushes alone, exactly: so the bound of two per push is tight |
| SmallVec.SmallVec.constructor | include/asp/collections/SmallVec.hpp:65-65 | A new vector is the empty sequence in its inline slots |
| SmallVec.SmallVec.Reserve | include/asp/collections/SmallVec.hpp:165-185 | Moving to a larger buffer, or not, changes no element; it relocates each element once |
| SmallVec.SmallVec.GrowFor | include/asp/collections/SmallVec.hpp:337-347 | The loop ends with room for the extra elements, at the least sufficient power of two, and changes no element |
| SmallVec.SmallVec.EmplaceBack | include/asp/collections/SmallVec.hpp:187-192 | Appends one element, across the transition from inline to heap storage |
| SmallVec.SmallVec.PopBack | include/asp/collections/SmallVec.hpp:241-247 | Removes the last element; on an empty vector it fails and changes nothing |
| SmallVec.SmallVec.Clear | include/asp/collections/SmallVec.hpp:269-274 | Afterwards the vector is the empty sequence |
| SmallVec.SmallVec.MoveTailRight | include/asp/collections/SmallVec.hpp:302-306 | The backward loop overwrites no element that it has not moved yet |
| SmallVec.SmallVec.MoveTailLeft | include/asp/collections/SmallVec.hpp:307-312 | The forward loop overwrites no element that it has not moved yet |
| SmallVec.SmallVec.Shift | include/asp/collections/SmallVec.hpp:294-316 | Every element from the iterator on is found `offset` slots further, every element before the gap stays; the pointer returned is to the old position; a bad iterator changes nothing |
| SmallVec.SmallVec.InsertRange | include/asp/collections/SmallVec.hpp:221-227 | The sequence with the values put in at the index; a bad index changes nothing |
| SmallVec.SmallVec.Insert | include/asp/collections/SmallVec.hpp:202-212 | The sequence with one value put in at the index, where the pointer returned leads |
| SmallVec.SmallVec.InsertFill | include/asp/collections/SmallVec.hpp:214-219 | The sequence with copies of a value put in at the index |
| SmallVec.SmallVec.Erase | include/asp/collections/SmallVec.hpp:233-239 | The sequence without the range, capacity unchanged; the pointer returned leads to the element behind it exactly if the range is empty; a bad range fails and changes nothing |
| SmallVec.SmallVec.CopyAssign | include/asp/collections/SmallVec.hpp:85-99 | Equal contents, the source unchanged, self-assignment included |
| SmallVec.SmallVec.MoveAssign | include/asp/collections/SmallVec.hpp:105-133 | The contents of the source; a heap buffer is taken over and leaves an empty inline source, an inline source keeps its size |
| Pipelines.Advance | include/asp/iter/Iter.hpp:253-256 | One `next` on any nested pipeline ends, hands out the head of the list it stands for and leaves a pipeline standing for the tail, or nothing, forever, once the list is empty |
| Pipelines.AdvanceSource | include/asp/iter/Iter.hpp:290-383 | The same for containers, one value and repetitions |
| Pipelines.AdvanceRange | include/asp/iter/Range.hpp:13-19 | The same for ranges |
| Pipelines.AdvanceMap | include/asp/iter/Map.hpp:16-22 | The same for `map`, whose callable may keep state |
| Pipelines.AdvanceFilter | include/asp/iter/Filter.hpp:16-24 | The same for `filter`; the search loop ends |
| Pipelines.AdvanceFilterMap | include/asp/iter/FilterMap.hpp:25-33 | The same for `filterMap`; the search loop ends |
| Pipelines.AdvanceChain | include/asp/iter/Chain.hpp:15-23 | The same for `chain`, which relies on its first iterator staying exhausted |
| Pipelines.AdvanceZip | include/asp/iter/Zip.hpp:15-24 | The same for `zip`, which stops for good at the end of the shorter list |
| Pipelines.AdvanceTake | include/asp/iter/Take.hpp:15-22 | The same for `take` |
| Pipelines.AdvanceSkip | include/asp/iter/Skip.hpp:15-24 | The same for `skip`, also when the list is shorter than what is skipped |
| Pipelines.AdvanceChunk | include/asp/iter/ArrayChunks.hpp:17-28 | The same for `arrayChunks`, which drops an incomplete last chunk |
| Pipelines.AdvanceFlatten | include/asp/iter/Flatten.hpp:40-59 | The same for `flatten`; empty containers are passed over and the loop ends |
| Pipelines.AdvanceCycle | include/asp/iter/Cycle.hpp:15-22 | The same for a `cycle` under `take` |
| Pipelines.Iterator.Next | include/asp/iter/Iter.hpp:22-25 | The same for an iterator object updated in place |
| Pipelines.Iterator.Collect | include/asp/iter/Iter.hpp:116-131 | Draining ends, yields exactly the list the pipeline stands for, and leaves it exhausted |
| Pipelines.Iterator.Count | include/asp/iter/Iter.hpp:108-114 | Counting ends with the length of that list |
| Pipelines.Iterator.Join | include/asp/iter/Iter.hpp:133-145 | Drains the iterator; the formatted items with the separator between them, not before the first or after the last |
| PipelineLaws.MapIsPointwise | include/asp/iter/Map.hpp:16-22 | A stateless `map` applies its function to each item |
| PipelineLaws.EnumerateNumbers | include/asp/iter/Iter.hpp:147-151 | `enumerate` pairs each item with its position |
| PipelineLaws.FilterSelects | include/asp/iter/Filter.hpp:16-24 | `filter` keeps every item that satisfies the predicate as often as it occurs, and no other |
| PipelineLaws.FilteredConcat | include/asp/iter/Filter.hpp:16-24 | Filtering distributes over concatenation, so it keeps the order |
| PipelineLaws.FilterMapSplits | include/asp/iter/FilterMap.hpp:25-33 | `filterMap` is dropping what maps to nothing, then mapping |
| PipelineLaws.ZipPairs | include/asp/iter/Zip.hpp:15-24 | As many pairs as the shorter list has items, the i-th of the i-th items |
| PipelineLaws.ChunksPartition | include/asp/iter/ArrayChunks.hpp:17-28 | All chunks are full, and flattening them gives back all but fewer than one chunk of the items |
| PipelineLaws.FlatMapAppends | include/asp/iter/Iter.hpp:70-73 | `flatMap` of one more item appends what the function gives for it |
| PipelineLaws.CycleRepeats | include/asp/iter/Cycle.hpp:15-22 | Taking n from a cycle of a non-empty list s yields s at i modulo the length, for each i below n |
| PipelineLaws.TakeSkipSplit | include/asp/iter/Skip.hpp:15-24 | What `take` yields followed by what `skip` yields is everything |
| PipelineLaws.TakeIs | include/asp/iter/Take.hpp:15-22 | The first n items, or all if there are fewer |
| PipelineLaws.SkipIs | include/asp/iter/Skip.hpp:15-24 | The items from the n-th on, or none |
| PipelineLaws.ChainIs | include/asp/iter/Chain.hpp:15-23 | All items of the first, then all items of the second |
| PipelineLaws.SourcesAre | include/asp/iter/Iter.hpp:290-383 | Items of a container, one value, n copies, and the numbers from start up to end |
| PipelineLaws.FlattenIs | include/asp/iter/Flatten.hpp:40-59 | The items of one container after those of the other |
| PipelineLaws.MapKeepsState | include/asp/iter/Map.hpp:16-22 | A callable with state is called once per item, in order, with the state the calls before have left |
| PipelineLaws.FilterKeepsState | include/asp/iter/Filter.hpp:16-24 | So is a predicate, for dropped items too, and what it accepts is kept |
| PipelineLaws.FilterMapKeepsState | include/asp/iter/FilterMap.hpp:25-33 | So is a partial function |
| PipelineLaws.ShownIs | include/asp/iter/Iter.hpp:142-142 | `join` formats item by item |
| Lines.Lines.Next | include/asp/iter/Lines.hpp:17-23 | Yields the first line by the simple specification and leaves a shorter rest |
| Lines.Lines.NextLine | include/asp/iter/Lines.hpp:38-82 | The search loop ends, at the first newline, having skipped every standalone `\r` |
| Lines.Lines.Collect | include/asp/iter/Lines.hpp:17-23 | Draining yields: the pieces between newlines, the terminated ones without one final `\r`, no empty last piece |
| Lines.NewlineRoundTrip | include/asp/iter/Lines.hpp:29-33 | Lines written with `\n` are read back, if none contains a newline or ends in `\r` |
| Lines.CrLfRoundTrip | include/asp/iter/Lines.hpp:29-33 | Lines written with `\r\n` are read back, if none contains a newline |
| Lines.FinalNewline | include/asp/iter/Lines.hpp:31-31 | A final newline makes no difference exactly when the string ends in an ordinary character |
| Lines.CutAppend | include/asp/iter/Lines.hpp:39-82 | Cutting at newlines from the front and from the back is the same |
| Split.Split.Next | include/asp/iter/Split.hpp:22-28 | Yields the first piece and leaves a shorter rest; an empty delimiter yields an empty piece and makes no progress |
| Split.Split.Collect | include/asp/iter/Split.hpp:22-28 | For a non-empty delimiter draining ends with exactly the pieces |
| Split.NextSplitBytes | include/asp/iter/Split.hpp:124-139 | The hand-written search over bytes splits as the others do |
| Split.SplitAny.Next | include/asp/iter/Split.hpp:43-52 | Yields the next piece to come, the next non-empty one if empty ones are skipped; the loop ends |
| Split.SplitAny.NextSplitAny | include/asp/iter/Split.hpp:141-153 | Cuts one piece off at the first character that is a delimiter |
| Split.SplitAny.Collect | include/asp/iter/Split.hpp:43-52 | Draining ends with exactly the pieces, or the non-empty ones |
| Split.PiecesAreFree | include/asp/iter/Split.hpp:67-72 | No piece contains the delimiter |
| Split.JoinOfPieces | include/asp/iter/Split.hpp:110-122 | Joining the pieces gives back the input, or the input without one delimiter at its end |
| Split.PiecesOfJoin | include/asp/iter/Split.hpp:110-122 | Splitting a join gives back the pieces exactly when the last is non-empty and free of the delimiter and in each other one the delimiter first occurs right at its end |
| Split.SingleDelimiter | include/asp/iter/Split.hpp:96-108 | `splitAny` with one delimiter is `split` |
| Split.AnyIsSplitUnified | include/asp/iter/Split.hpp:141-153 | `splitAny` is `split` after every delimiter was replaced by one of them |
| Split.RunsAreRuns | include/asp/iter/Split.hpp:81-87 | The runs listed are the maximal ones without delimiters, all of them |
| Split.SkipEmptyYieldsRuns | include/asp/iter/Split.hpp:81-87 | With `skipEmpty`, exactly the maximal runs without delimiters are yielded, in order |
| Channel.StepKeepsInv | include/asp/sync/Channel.hpp:31-122 | Every step of every sender and receiver keeps popped and queued messages equal to those pushed |
| Channel.Fifo | include/asp/sync/Channel.hpp:99-122 | Over any run the messages popped, in pop order, followed by the queue are the messages pushed, in push order |
| Channel.Pushes | include/asp/sync/Channel.hpp:99-111 | The message goes to the end of the queue, and one parked thread, if there is one, is taken off the condition variable |
| Channel.Receives | include/asp/sync/Channel.hpp:30-79 | On a non-empty queue `pop` and `popTimeout` return the first message and `waitForMessages` leaves it; on an empty one all of them park |
| Channel.TriesPop | include/asp/sync/Channel.hpp:81-97 | The first message exactly if there is one, without waiting |
| Channel.Returns | include/asp/sync/Channel.hpp:37-61 | A woken thread takes the first message; without one it parks again exactly if its time is not up |
| Channel.HandsOver | include/asp/sync/Channel.hpp:37-39 | A message pushed to a receiver parked on an empty queue is the one it returns |
| Channel.StepKeepsWakeups | include/asp/sync/Channel.hpp:31-62 | Without `waitForMessages`, after every step either nobody is parked or as many receivers are on their way as there are messages |
| Channel.WakeupsSuffice | include/asp/sync/Channel.hpp:31-62 | In any such run, a message in the queue while receivers are parked means that a woken one is on its way and will take it |
| Channel.NoLostWakeupExactly | include/asp/sync/Channel.hpp:31-79 | Whichever receiving calls a program makes: no run of it loses a wakeup exactly if `waitForMessages` is not among them |
| Channel.TakersServedExactly | include/asp/sync/Channel.hpp:31-79 | Threads that want to take messages are served in all runs exactly if the program does not call `waitForMessages`, or nothing else that waits |
| Channel.StepServesExactly | include/asp/sync/Channel.hpp:64-111 | Takers served before a step are served after it, unless and only unless it is a push that notifies a watcher while a taker is parked and just as many takers are on the way as there are messages |
| Channel.RunServesExactly | include/asp/sync/Channel.hpp:64-111 | Takers are served throughout a run exactly if no push of it is of that kind |
| Channel.WatcherLosesWakeup | include/asp/sync/Channel.hpp:64-79 | The run that shows it: a message in the queue, a parked receiver of any kind, and nobody on the way |
| ThreadPool.StepKeepsInv | src/thread/ThreadPool.cpp:29-43 | Every step of pushers and workers keeps the counter exact and every task in one place |
| ThreadPool.CounterExact | src/thread/ThreadPool.cpp:79-84 | The counter is the number of tasks counted but not queued, queued, running, or over but not yet taken off; so it never underflows, and is positive exactly when one of these exists |
| ThreadPool.RunsAtMostOnce | src/thread/ThreadPool.cpp:29-43 | A task is started at most once, and only if it was pushed |
| ThreadPool.StartsInOrder | src/thread/ThreadPool.cpp:29-43 | The sequence of tasks that workers took on, followed by the queue, is the sequence of tasks pushed |
| ThreadPool.JoinIsBarrier | src/thread/ThreadPool.cpp:102-121 | At the instant `join` reads zero, every task whose push had completed has finished running, and none is running |
| ThreadPool.PushesTask | src/thread/ThreadPool.cpp:79-84 | One more in the count and the task at the end of the queue |
| ThreadPool.TakesTask | src/thread/ThreadPool.cpp:32-34 | A free worker takes on the first task and runs it, and waits if there is none |
| ThreadPool.EndsTask | src/thread/ThreadPool.cpp:36-42 | The task has finished before it is taken off the count, and the worker is free again |
| ThreadPool.OneWorkerDrains | src/thread/ThreadPool.cpp:29-43 | Progress: from any state a run of one free worker starts and finishes everything queued, in order, and takes exactly that off the count |
| Time.OfNanosIsExact | include/asp/time/Duration.hpp:98-100 | The reference construction of a duration from a count of nanoseconds is inverse to counting them, on all normal durations |
| Time.Make | include/asp/time/Duration.hpp:24-32 | The two-argument constructor keeps the time it is given exactly when there is no carry |
| Time.CheckedAdd | include/asp/time/Duration.hpp:131-150 | The sum by its reference definition, no wrap-around on the way |
| Time.SumExact | include/asp/time/Duration.hpp:131-150 | A sum loses no time; it is in normal form exactly when the nanosecond parts do not add up to one second; when it fails |
| Time.SumOfOneSecond | include/asp/time/Duration.hpp:138-138 | Two half seconds give zero seconds and a full second of nanoseconds |
| Time.CheckedSub | include/asp/time/Duration.hpp:152-172 | Exact in nanoseconds, and none exactly when the result would be negative |
| Time.AbsDiff | include/asp/time/Duration.hpp:123-129 | Always exists and is the exact distance |
| Time.CheckedMul | include/asp/time/Duration.hpp:174-190 | Exact in nanoseconds with 64-bit intermediates, and none exactly when the seconds of the product need more than 64 bits |
| Time.Divide | include/asp/time/Duration.hpp:240-257 | The floor of the quotient in nanoseconds; no intermediate value wraps around; none for zero |
| Time.MulDivRoundTrip | include/asp/time/Duration.hpp:240-257 | Dividing a product by its factor gives back the duration |
| Time.Compare | include/asp/time/Duration.hpp:264-278 | Orders normal durations by time; equal only if identical |
| Time.NanosRoundTrip | include/asp/time/Duration.hpp:65-100 | `fromNanos` and `nanos` are inverse, the latter exactly up to 64 bits of nanoseconds |
| Time.DurationSince | src/time/Instant.cpp:63-79 | The borrow and the clamp give the signed difference of the instants, not below zero; no result if the borrow overflows |
| Time.ElapsedExact | src/time/Instant.cpp:63-79 | That is the exact time passed, or zero for a later instant, exactly when the seconds differ by a signed 64-bit number and the borrow does not overflow; an input for which it does |
| Time.ElapsedWraps | src/time/Instant.cpp:63-79 | What `durationSince` gives beyond that: undefined, zero, or 2^64 seconds too much |
| Time.CheckedAddAt | src/time/Instant.cpp:91-109 | Exact in nanoseconds, and none exactly on overflow |
| Time.AddSinceRoundTrip | src/time/Instant.cpp:63-109 | The time from an instant to that instant plus a duration is the duration, for whole seconds below 2^63 - 1, and exactly when the seconds between fit |
| Time.CheckedSubAt | src/time/Instant.cpp:111-132 | The earlier instant by its reference definition |
| Time.EarlierExact | src/time/Instant.cpp:111-132 | It loses no time; it is in normal form exactly when the nanosecond parts differ; when it fails |
| Time.EqualNanosSubtracted | src/time/Instant.cpp:119-129 | Subtracting only the nanosecond part of an instant leaves a full second of nanoseconds, or fails at second zero |
| Time.CompareAt | src/time/Instant.cpp:168-173 | Orders normal instants by time; equal only if identical |
| Time.AbsDiffAt | src/time/Instant.cpp:134-140 | The exact distance, exactly for instants whose seconds are less than 2^63 apart |
| Time.RawNanosRoundTrip | src/time/Instant.cpp:81-89 | Raw nanoseconds and instants are inverse, on all raw values and exactly the instants within 64 bits of nanoseconds |
| Numerals.Parse | include/asp/data/util.hpp:148-222 | Accepts exactly the specified texts with their values; the result is within the type |
| Numerals.ScanDigit | include/asp/data/util.hpp:203-213 | The overflow test before the multiplication is exact: if it fires, no continuation of the text is acceptable |
| Numerals.UnsignedAcceptsNumerals | include/asp/data/util.hpp:148-222 | For unsigned types: success exactly on non-empty digit strings whose value fits, with that value |
| Numerals.SignedAcceptsExactly | include/asp/data/util.hpp:148-222 | For signed types, apart from the text of the minimum: success exactly on minus signs followed by digits, not both none, whose value fits, with the sign of the text |
| Numerals.SpanIsPower | include/asp/data/util.hpp:203-203 | The bounds that the overflow test uses are those of a type of that many bits |
| Numerals.RepeatedSign | include/asp/data/util.hpp:182-184 | A further minus sign in front of another changes nothing |
| Numerals.ToString | include/asp/data/util.hpp:224-266 | The loop and the reversal print the specified text |
| Numerals.DigitsAreExact | include/asp/data/util.hpp:254-258 | The digits of a number are worth that number and do not begin with a zero |
| Numerals.DigitsOfValue | include/asp/data/util.hpp:254-264 | A numeral without superfluous zeros is the decimal of its value, so decimals are canonical |
| Numerals.PrintsDecimal | include/asp/data/util.hpp:224-266 | The text printed is the canonical decimal except for the signed minimum of one and of eight bytes |
| Numerals.OddMinimums | include/asp/data/util.hpp:233-243 | The two texts that are not decimals, and what they are read back as |
| Numerals.ReadsDecimal | include/asp/data/util.hpp:148-222 | Canonical decimals of all values are read back, except that of the signed minimum of eight bytes |
| Numerals.RoundTrip | include/asp/data/util.hpp:148-266 | Parsing undoes printing for every width and value but one, the signed minimum of one byte |
| Numerals.PrintsWhatItRead | include/asp/data/util.hpp:148-266 | Printing undoes parsing on numerals without superfluous zeros in front |

## Left out

- C++ memory orderings: steps are sequentially consistent.
- Null smart pointers are absent slots; `strongCount`, `weakCount`, `expired` and the accessors, which only read, are not modelled.
- `leak`, `adoptFromRaw` and pointer conversion, by which a client can break the counts, and counters wrapping at 2^64.
- Assignment of smart pointers is a release followed by a copy or move; an assignment whose source lives inside the object being destroyed is not modelled.
- PtrSwap.ActionKeepsSound: an access to a cell and the increment that follows it are one step; late increments are the subject of `PtrSwapLimits` and `PtrSwapRetain`.
- PtrSwap.NoAba: with the same coarse steps, a load pins what it read at once.
- PtrSwap.RcuLosesNoUpdate: with the same coarse steps.
- PtrSwap.OwnershipConserved: with the same coarse steps, between which the counts are stated.
- PtrSwapRuns.ContentIsFold: with the same coarse steps.
- PtrSwapRuns.EveryPushCounts: with the same coarse steps.
- PtrSwap.CellContentAlive: with the same coarse steps; the gap after a read is that of `PtrSwapLimits.ReaderLosesObject`.
- PtrSwapRetain.LateRetainExactly: one increment is owed at a time, and the count is an unbounded number, where a word would wrap below zero.
- Runs that go on after a cell was moved.
- The function given to `rcu` is a function of the content; what it creates is made by other steps.
- Iterator adapters hold the adapted iterator by value, so a pipeline is one datatype value that `next` takes and returns, inside one `Iterator` object, rather than one class per adapter.
- Pipelines.AdvanceFlatten: items that are iterators themselves; only containers are unpacked.
- Pipelines.AdvanceCycle: a cycle other than directly under `take`, which has no finite list to stand for.
- The adapters `inspect`, `copied`, reference wrappers, and the other consumers (`all`, `any`, `find`, `min`, `max`, `sum`, `forEach`).
- Repetition counts and positions as 64-bit words: they are unbounded here.
- `SmallVec` keeps inline slots and heap pointer as two fields instead of a union; the lifetimes of elements in slots and inserting values that lie in the vector itself are not modelled.
- SmallVec.SmallVec.MoveAssign: after a move from inline slots nothing is said of the values left in the source.
- `SmallVec` needs beyond 2^63 elements, for which the loop of `growFor` does not end.
- Cache settings changed in the middle of a run, entries used at equal clock readings in the theorems on eviction and inclusion, and the lifetime of the pointer that `get` returns (a value here).
- Cache.Cache.SetMaxEntries, Cache.Cache.SetTimeToLive, Cache.Cache.SetWorkInterval: plain setters.
- `Channel::pop` names `queue.data` after waiting; it is modelled as a pop of the queue like the other paths.
- ThreadPool.StartsInOrder: taking a task from the queue and beginning to run it are one step of a worker.
- `ThreadPool` destruction, exceptions that leave a worker or an exception handler, and the semaphore that `join` polls but nothing in the source releases.
- `Duration` conversions from and to floating point, formatting, the units above seconds, and `Duration` and `Instant` values that are not in normal form as arguments.
- Compound assignment and the throwing or saturating operators of `Duration` and `Instant`, which only wrap the checked ones.
- Time.DurationSince: a borrow from the least signed number of seconds, undefined in C++, is no result here.
- `Instant::now`, calendar conversion, the file system, logging, starting and naming threads, spin locks and mutex guards, `Cow`, `BoxedString`: foreign calls or easy members.
- Failed assertions and exceptions are results (`None` or false); what the handler does is not modelled.
